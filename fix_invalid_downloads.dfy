/** The reset script for invalid downloads: every record marked downloaded or
    failed whose file is missing or smaller than 10000 bytes, and every
    failed record without a path, goes back to pending; the small files are
    deleted. */
module FixDownloads {
  import opened Wrappers
  import opened Text
  import opened Database
  import opened State
  import opened Files

  /** Files below this many bytes are taken to be broken downloads. */
  const MinValidSize: nat := 10000

  /** The write that puts a record back to pending. */
  const PendingPatch: StatusPatch := StatusPatch(downloadStatus := Some("pending"))

  /** A record the script resets, given the files on disk: marked downloaded
      or failed, and either its file is missing or small, or it has no path
      and is failed. */
  predicate Qualifies(x: VideoRecord, files: map<string, nat>) {
    (x.downloadStatus == "downloaded" || x.downloadStatus == "failed")
    && (if Truthy(x.downloadPath)
        then x.downloadPath.value !in files || files[x.downloadPath.value] < MinValidSize
        else x.downloadStatus == "failed")
  }

  /** A record whose file exists but is small: that file is deleted. */
  predicate Small(x: VideoRecord, files: map<string, nat>) {
    (x.downloadStatus == "downloaded" || x.downloadStatus == "failed")
    && Truthy(x.downloadPath) && x.downloadPath.value in files && files[x.downloadPath.value] < MinValidSize
  }

  /** The files the script deletes for the records of `rows`. */
  function Doomed(rows: seq<VideoRecord>, files: map<string, nat>): (r: set<string>)
    ensures forall p :: p in r ==> p in files && files[p] < MinValidSize
  {
    set x | x in rows && Small(x, files) :: x.downloadPath.value
  }

  /** How many records of `rows` qualify. */
  function CountQualifying(rows: seq<VideoRecord>, files: map<string, nat>): (n: nat)
    ensures n <= |rows|
  {
    if |rows| == 0 then 0
    else CountQualifying(rows[..|rows| - 1], files) + (if Qualifies(rows[|rows| - 1], files) then 1 else 0)
  }

  /** The script as written: `update_download_status` is not a method of
      the store, so the first qualifying record raises AttributeError, and
      nothing has been written before it. */
  function ResetAsWritten(listing: seq<VideoRecord>, files: map<string, nat>): (r: Result<nat, CallError>)
    ensures r.Success? ==> r.value == 0 && forall x :: x in listing ==> !Qualifies(x, files)
    ensures (exists x :: x in listing && Qualifies(x, files)) ==>
              r == Failure(MissingAttribute("update_download_status"))
  {
    if |listing| == 0 then Success(0)
    else if Qualifies(listing[0], files) then Failure(MissingAttribute("update_download_status"))
    else
      var rest := ResetAsWritten(listing[1..], files);
      assert forall x :: x in listing ==> x == listing[0] || x in listing[1..];
      rest
  }

  /** The script as written never resets a record: a single failed record
      without a path already makes it raise. */
  lemma ResetAsWrittenRaises(x: VideoRecord, files: map<string, nat>)
    requires x.downloadStatus == "failed" && x.downloadPath.None?
    ensures "update_download_status" !in DatabaseMethods
    ensures ResetAsWritten([x], files) == Failure(MissingAttribute("update_download_status"))
    ensures CountQualifying([x], files) == 1
  {
    assert [x][..0] == [];
  }

  /** Deleting the files of earlier records does not change whether a record
      qualifies: a deleted file was small, and a missing file qualifies too. */
  lemma QualifiesAfterDeletes(x: VideoRecord, files: map<string, nat>, gone: set<string>)
    requires forall p :: p in gone ==> p in files && files[p] < MinValidSize
    ensures Qualifies(x, files - gone) == Qualifies(x, files)
  {
  }

  lemma DoomedSnoc(rows: seq<VideoRecord>, x: VideoRecord, files: map<string, nat>)
    ensures Doomed(rows + [x], files) == Doomed(rows, files) + (if Small(x, files) then {x.downloadPath.value} else {})
  {
    assert forall y :: y in rows + [x] <==> y in rows || y == x;
  }

  /** The body of the loop for one record: reset it when it qualifies
      against the files as they are now, deleting its file when that file
      exists but is small. */
  method ResetOne(db: DatabaseManager, disk: Disk, x: VideoRecord) returns (reset: bool)
    requires db.Valid()
    modifies db, disk
    ensures db.Valid() && db.transcripts == old(db.transcripts)
    ensures reset == Qualifies(x, old(disk.files))
    ensures db.rows == if reset then PatchRows(old(db.rows), x.id, x.source, PendingPatch) else old(db.rows)
    ensures disk.files == if Small(x, old(disk.files)) then old(disk.files) - {x.downloadPath.value} else old(disk.files)
  {
    reset := false;
    if x.downloadStatus == "downloaded" || x.downloadStatus == "failed" {
      if Truthy(x.downloadPath) {
        var p := x.downloadPath.value;
        if !disk.Exists(p) {
          db.UpdateVideoStatus(x.id, x.source, PendingPatch);
          reset := true;
        } else if disk.Size(p) < MinValidSize {
          db.UpdateVideoStatus(x.id, x.source, PendingPatch);
          var _ := disk.Unlink(p);
          reset := true;
        }
      } else if x.downloadStatus == "failed" {
        db.UpdateVideoStatus(x.id, x.source, PendingPatch);
        reset := true;
      }
    }
  }

  /** `reset_invalid_downloads`, with `update_video_status` as the write it
      means: each record of the listing that qualifies goes back to pending
      (its path kept, because `update_video_status` cannot clear one), and
      a small file is deleted. */
  method ResetInvalidDownloads(db: DatabaseManager, disk: Disk) returns (count: nat)
    requires db.Valid()
    modifies db, disk
    ensures db.Valid() && db.transcripts == old(db.transcripts)
    ensures count == CountQualifying(AllVideos(old(db.rows), None), old(disk.files))
    ensures |db.rows| == |old(db.rows)|
    ensures forall k :: 0 <= k < |db.rows| ==>
              db.rows[k] == (if Qualifies(old(db.rows)[k], old(disk.files)) then Apply(old(db.rows)[k], PendingPatch)
                             else old(db.rows)[k])
    ensures disk.files == old(disk.files) - Doomed(old(db.rows), old(disk.files))
  {
    ghost var rows0, files0 := db.rows, disk.files;
    var all := AllVideos(db.rows, None);
    count := ResetListed(db, disk, all);
    Finish(rows0, all, files0, db.rows, disk.files, count);
  }

  /** The loop of `reset_invalid_downloads` over the listing `all` of the
      table's records. */
  method ResetListed(db: DatabaseManager, disk: Disk, all: seq<VideoRecord>) returns (count: nat)
    requires db.Valid() && forall y :: y in all <==> y in db.rows
    modifies db, disk
    ensures db.Valid() && db.transcripts == old(db.transcripts)
    ensures Progress(db.rows, disk.files, count, old(db.rows), all, |all|, old(disk.files))
  {
    ghost var rows0, files0 := db.rows, disk.files;
    ProgressStart(rows0, all, files0);
    count := 0;
    var i := 0;
    while i < |all|
      invariant 0 <= i <= |all|
      invariant UniqueIds(rows0) && forall y :: y in all ==> y in rows0
      invariant db.Valid() && db.transcripts == old(db.transcripts)
      invariant Progress(db.rows, disk.files, count, rows0, all, i, files0)
    {
      count := ResetNext(db, disk, all, i, count, rows0, files0);
      i := i + 1;
    }
  }

  lemma ProgressStart(rows0: seq<VideoRecord>, all: seq<VideoRecord>, files0: map<string, nat>)
    ensures Progress(rows0, files0, 0, rows0, all, 0, files0)
  {
    assert all[..0] == [];
    assert Doomed([], files0) == {};
    assert files0 - {} == files0;
  }

  /** One iteration of the reset loop: the `i`-th record is handled and
      counted when it was reset. */
  method ResetNext(db: DatabaseManager, disk: Disk, all: seq<VideoRecord>, i: nat, count: nat,
                   ghost rows0: seq<VideoRecord>, ghost files0: map<string, nat>) returns (count': nat)
    requires db.Valid() && UniqueIds(rows0) && i < |all| && all[i] in rows0
    requires Progress(db.rows, disk.files, count, rows0, all, i, files0)
    modifies db, disk
    ensures db.Valid() && db.transcripts == old(db.transcripts)
    ensures Progress(db.rows, disk.files, count', rows0, all, i + 1, files0)
  {
    ghost var rows, files := db.rows, disk.files;
    var reset := ResetOne(db, disk, all[i]);
    ProgressStep(rows0, all, i, files0, rows, files, count, reset, db.rows, disk.files);
    count' := count;
    if reset {
      count' := count + 1;
    }
  }

  /** When the loop has handled the whole listing, which holds exactly the
      table's records, every row and file is accounted for. */
  lemma Finish(rows0: seq<VideoRecord>, all: seq<VideoRecord>, files0: map<string, nat>,
               rows: seq<VideoRecord>, files: map<string, nat>, count: nat)
    requires forall y :: y in all <==> y in rows0
    requires Progress(rows, files, count, rows0, all, |all|, files0)
    ensures count == CountQualifying(all, files0)
    ensures |rows| == |rows0|
    ensures forall k :: 0 <= k < |rows| ==>
              rows[k] == (if Qualifies(rows0[k], files0) then Apply(rows0[k], PendingPatch) else rows0[k])
    ensures files == files0 - Doomed(rows0, files0)
  {
    assert all[..|all|] == all;
    SameMembersSameDoomed(all, rows0, files0);
  }

  /** The state of the reset loop after the first `i` records of the
      listing were handled. */
  predicate Progress(rows: seq<VideoRecord>, files: map<string, nat>, count: nat, rows0: seq<VideoRecord>,
                     all: seq<VideoRecord>, i: int, files0: map<string, nat>) {
    0 <= i <= |all|
    && SameKeys(rows, rows0) && Described(rows, rows0, all[..i], files0)
    && count == CountQualifying(all[..i], files0)
    && files == files0 - Doomed(all[..i], files0)
  }

  /** One call of `ResetOne` on the next record keeps the loop's state
      described. */
  lemma ProgressStep(rows0: seq<VideoRecord>, all: seq<VideoRecord>, i: int, files0: map<string, nat>,
                     rows: seq<VideoRecord>, files: map<string, nat>, count: nat, reset: bool,
                     rows': seq<VideoRecord>, files': map<string, nat>)
    requires UniqueIds(rows0) && 0 <= i < |all| && all[i] in rows0
    requires Progress(rows, files, count, rows0, all, i, files0)
    requires reset == Qualifies(all[i], files)
    requires rows' == if reset then PatchRows(rows, all[i].id, all[i].source, PendingPatch) else rows
    requires files' == if Small(all[i], files) then files - {all[i].downloadPath.value} else files
    ensures Progress(rows', files', count + (if reset then 1 else 0), rows0, all, i + 1, files0)
  {
    var x := all[i];
    StepFacts(rows0, all, i, files0, rows);
    var j :| 0 <= j < |rows0| && rows0[j] == x && Find(rows, x.id, x.source) == Some(j);
    RowsStep(rows0, all[..i], x, j, rows, files0, reset);
    CountStep(all, i, files0);
    DiskStep(all, i, files0, files, files');
  }

  lemma SameMembersSameDoomed(a: seq<VideoRecord>, b: seq<VideoRecord>, files: map<string, nat>)
    requires forall y :: y in a <==> y in b
    ensures Doomed(a, files) == Doomed(b, files)
  {
  }

  /** The table after the records of `prefix` were handled. */
  predicate Described(rows: seq<VideoRecord>, rows0: seq<VideoRecord>, prefix: seq<VideoRecord>,
                      files0: map<string, nat>) {
    |rows| == |rows0|
    && forall k :: 0 <= k < |rows0| ==>
         rows[k] == (if rows0[k] in prefix && Qualifies(rows0[k], files0) then Apply(rows0[k], PendingPatch)
                     else rows0[k])
  }

  /** One step of the reset loop keeps the description of every row. */
  lemma RowsStep(rows0: seq<VideoRecord>, prefix: seq<VideoRecord>, x: VideoRecord, j: int,
                 rows: seq<VideoRecord>, files0: map<string, nat>, reset: bool)
    requires 0 <= j < |rows0| && rows0[j] == x && SameKeys(rows, rows0) && Described(rows, rows0, prefix, files0)
    requires UniqueIds(rows0) && Find(rows, x.id, x.source) == Some(j)
    requires reset == Qualifies(x, files0)
    ensures var after := if reset then PatchRows(rows, x.id, x.source, PendingPatch) else rows;
            SameKeys(after, rows0) && Described(after, rows0, prefix + [x], files0)
  {
    ApplyIdempotent(x, PendingPatch);
    var after := rows;
    if reset {
      assert UniqueIds(rows);
      PatchAt(rows, x.id, x.source, PendingPatch, j);
      after := rows[j := Apply(rows[j], PendingPatch)];
    }
    forall k | 0 <= k < |rows0|
      ensures after[k] == (if rows0[k] in prefix + [x] && Qualifies(rows0[k], files0) then Apply(rows0[k], PendingPatch)
                           else rows0[k])
    {
      assert rows0[k] in prefix + [x] <==> rows0[k] in prefix || k == j;
    }
  }

  lemma CountStep(all: seq<VideoRecord>, i: int, files0: map<string, nat>)
    requires 0 <= i < |all|
    ensures CountQualifying(all[..i + 1], files0)
            == CountQualifying(all[..i], files0) + (if Qualifies(all[i], files0) then 1 else 0)
  {
    assert all[..i + 1][..i] == all[..i];
  }

  /** One step of the reset loop deletes exactly the file the record adds
      to the doomed set, if any. */
  lemma DiskStep(all: seq<VideoRecord>, i: int, files0: map<string, nat>, before: map<string, nat>,
                 after: map<string, nat>)
    requires 0 <= i < |all|
    requires before == files0 - Doomed(all[..i], files0)
    requires after == if Small(all[i], before) then before - {all[i].downloadPath.value} else before
    ensures after == files0 - Doomed(all[..i + 1], files0)
  {
    var x := all[i];
    assert all[..i + 1] == all[..i] + [x];
    DoomedSnoc(all[..i], x, files0);
  }

  /** What one step of the reset loop needs: the record is found at its own
      row, it qualifies now as it did at the start, and the prefix grows by
      it. */
  lemma StepFacts(rows0: seq<VideoRecord>, all: seq<VideoRecord>, i: int, files0: map<string, nat>,
                  rows: seq<VideoRecord>)
    requires UniqueIds(rows0) && 0 <= i < |all| && all[i] in rows0
    requires SameKeys(rows, rows0)
    ensures all[..i + 1] == all[..i] + [all[i]]
    ensures Doomed(all[..i + 1], files0)
            == Doomed(all[..i], files0) + (if Small(all[i], files0) then {all[i].downloadPath.value} else {})
    ensures Qualifies(all[i], files0 - Doomed(all[..i], files0)) == Qualifies(all[i], files0)
    ensures Small(all[i], files0 - Doomed(all[..i], files0)) ==> Small(all[i], files0)
    ensures Small(all[i], files0) && all[i].downloadPath.value in files0 - Doomed(all[..i], files0) ==>
              Small(all[i], files0 - Doomed(all[..i], files0))
    ensures exists j :: 0 <= j < |rows0| && rows0[j] == all[i] && Find(rows, all[i].id, all[i].source) == Some(j)
  {
    var x := all[i];
    assert all[..i + 1] == all[..i] + [x];
    DoomedSnoc(all[..i], x, files0);
    QualifiesAfterDeletes(x, files0, Doomed(all[..i], files0));
    var j :| 0 <= j < |rows0| && rows0[j] == x;
    FindRow(rows0, j);
    SameKeysSameFind(rows0, rows, x.id, x.source);
  }

  /** After the reset every record that qualified is pending, every other
      record is as it was, and only files below 10000 bytes were deleted. */
  lemma ResetOutcome(rows: seq<VideoRecord>, files: map<string, nat>, k: int, p: string)
    requires 0 <= k < |rows|
    ensures Qualifies(rows[k], files) ==> Apply(rows[k], PendingPatch).downloadStatus == "pending"
    ensures Qualifies(rows[k], files) ==>
              Apply(rows[k], PendingPatch) == rows[k].(downloadStatus := "pending")
    ensures p in files && files[p] >= MinValidSize ==> p in files - Doomed(rows, files)
    ensures p in files && p !in files - Doomed(rows, files) ==>
              exists x :: x in rows && Small(x, files) && x.downloadPath == Some(p)
  {
  }
}
