/** The local file system as the pipeline sees it: which paths exist and how
    large each file is, plus the `pathlib` path arithmetic the downloader
    uses. Paths are plain strings with '/' as separator. */
module Files {
  import opened Wrappers
  import opened Text

  /** The files on disk, path to size in bytes. */
  class Disk {
    var files: map<string, nat>

    constructor (initial: map<string, nat>)
      ensures files == initial
    {
      files := initial;
    }

    /** `Path(p).exists()` */
    predicate Exists(p: string)
      reads this
    {
      p in files
    }

    /** `Path(p).stat().st_size` for an existing file. */
    function Size(p: string): nat
      requires Exists(p)
      reads this
    {
      files[p]
    }

    /** Creates or truncates `p` and leaves it holding `size` bytes. */
    method Write(p: string, size: nat)
      modifies this
      ensures files == old(files)[p := size]
    {
      files := files[p := size];
    }

    /** Adds the files an external program wrote, replacing any of the same name. */
    method Merge(written: map<string, nat>)
      modifies this
      ensures files == old(files) + written
    {
      files := files + written;
    }

    /** `Path(p).unlink()`; `ok` is false where it raises because the file is missing. */
    method Unlink(p: string) returns (ok: bool)
      modifies this
      ensures ok == (p in old(files))
      ensures files == old(files) - {p}
    {
      ok := p in files;
      files := files - {p};
    }

    /** `Path(src).rename(dst)`: moves the file, replacing any file at `dst`;
        `ok` is false where it raises because `src` is missing. */
    method Rename(src: string, dst: string) returns (ok: bool)
      modifies this
      ensures ok == (src in old(files))
      ensures ok ==> files == (old(files) - {src})[dst := old(files)[src]]
      ensures !ok ==> files == old(files)
    {
      if src !in files {
        return false;
      }
      var size := files[src];
      files := (files - {src})[dst := size];
      return true;
    }
  }

  /** `Path(dir) / name` */
  function JoinPath(dir: string, name: string): (r: string)
    ensures EndsWith(r, name)
  {
    var r := dir + "/" + name;
    assert r[|r| - |name|..] == name;
    r
  }

  /** The last component of a path, `Path(p).name`. */
  function Name(p: string): (r: string)
    ensures '/' !in r && EndsWith(p, r)
  {
    match LastIndexOf(p, '/')
    case None => p
    case Some(i) => p[i + 1..]
  }

  /** `Path(p).suffix`: from the last '.' of the name, provided that dot is
      neither the first nor the last character of the name. */
  function Suffix(name: string): (r: string)
    ensures r == "" || (r[0] == '.' && |r| >= 2 && |r| < |name| && EndsWith(name, r))
    ensures r != "" ==> '.' !in r[1..]
  {
    match LastIndexOf(name, '.')
    case None => ""
    case Some(i) => if 0 < i < |name| - 1 then name[i..] else ""
  }

  /** `Path(p).with_suffix(suffix)` for a valid suffix ("" or a dot followed
      by text without a '/' or '.'); `None` where it raises because the name
      is empty. */
  function WithSuffix(p: string, suffix: string): (r: Option<string>)
    ensures r.None? <==> Name(p) == ""
    ensures r.Some? ==> EndsWith(r.value, suffix)
  {
    var name := Name(p);
    if name == "" then None
    else
      var dir := p[..|p| - |name|];
      var old_ := Suffix(name);
      var stem := name[..|name| - |old_|];
      var r := dir + stem + suffix;
      assert r[|r| - |suffix|..] == suffix;
      Some(r)
  }

  /** A valid extension: a dot followed by at least one character, none of
      them a dot or a slash. */
  predicate IsExtension(ext: string) {
    |ext| >= 2 && ext[0] == '.' && '.' !in ext[1..] && '/' !in ext
  }

  /** Removing the extension of "<dir>/<stem><ext>" gives "<dir>/<stem>",
      when the stem has no dot. */
  lemma DropSuffix(dir: string, stem: string, ext: string)
    requires |stem| > 0 && '.' !in stem && '/' !in stem
    requires IsExtension(ext)
    ensures WithSuffix(dir + "/" + stem + ext, "") == Some(dir + "/" + stem)
  {
    var d := dir + "/";
    var p := d + stem + ext;
    assert p == dir + "/" + stem + ext;
    NameOfDotted(dir, stem, ext);
    SuffixOfDotted(stem, ext);
    WithSuffixSplit(p, "", d, stem, ext);
    assert d + stem + "" == dir + "/" + stem;
  }

  lemma NameOfDotted(dir: string, stem: string, ext: string)
    requires '/' !in stem && '/' !in ext
    ensures Name(dir + "/" + stem + ext) == stem + ext
  {
    var name := stem + ext;
    assert '/' !in name;
    NameAfterSlash(dir, name);
    assert dir + "/" + stem + ext == dir + "/" + name;
  }

  /** `with_suffix` keeps everything before the name and the name's stem. */
  lemma WithSuffixSplit(p: string, suffix: string, dir: string, stem: string, old_: string)
    requires p == dir + stem + old_ && Name(p) == stem + old_ && stem != ""
    requires Suffix(stem + old_) == old_
    ensures WithSuffix(p, suffix) == Some(dir + stem + suffix)
  {
    var name := stem + old_;
    Regroup(dir, stem, old_);
    DropLast(dir, name);
    DropLast(stem, old_);
    assert WithSuffix(p, suffix) == Some(p[..|dir|] + name[..|stem|] + suffix);
  }

  /** Dropping the last `|b|` characters of `a + b` gives `a`. */
  lemma DropLast(a: string, b: string)
    ensures (a + b)[..|a|] == a
  {
  }

  /** The suffix of "<stem><ext>" is the extension when the stem has no dot. */
  lemma SuffixOfDotted(stem: string, ext: string)
    requires |stem| > 0 && '.' !in stem
    requires IsExtension(ext)
    ensures Suffix(stem + ext) == ext
  {
    var name := stem + ext;
    assert name[|stem|] == '.';
    assert name[|stem| + 1..] == ext[1..];
    LastIndexOfAt(name, '.', |stem|);
    assert name[|stem|..] == ext;
  }

  /** Putting ".<ext>" on "<dir>/<stem>" gives "<dir>/<stem>.<ext>", when
      the stem has no dot. */
  lemma AddSuffix(dir: string, stem: string, ext: string)
    requires |stem| > 0 && '.' !in stem && '/' !in stem
    ensures WithSuffix(dir + "/" + stem, ext) == Some(dir + "/" + stem + ext)
  {
    var b := dir + "/" + stem;
    NameAfterSlash(dir, stem);
    assert Suffix(stem) == "";
    assert b[..|b| - |stem|] == dir + "/";
    assert stem[..|stem| - 0] == stem;
  }

  lemma NameAfterSlash(dir: string, name: string)
    requires '/' !in name
    ensures Name(dir + "/" + name) == name
  {
    var p := dir + "/" + name;
    assert p[|dir|] == '/';
    assert p[|dir| + 1..] == name;
    LastIndexOfAt(p, '/', |dir|);
  }

  /** An occurrence with nothing of its kind after it is the last one. */
  lemma {:induction false} LastIndexOfAt(s: string, c: char, i: nat)
    requires i < |s| && s[i] == c && c !in s[i + 1..]
    ensures LastIndexOf(s, c) == Some(i)
    decreases |s|
  {
    if i < |s| - 1 {
      var t := s[..|s| - 1];
      assert s[i + 1..] == t[i + 1..] + [s[|s| - 1]];
      LastIndexOfAt(t, c, i);
    }
  }
}
