/** Date-string pre-processing for the two archives. The general-purpose date
    parser the code delegates to is a parameter: it returns the parsed instant,
    or `None` where it would raise. */
module DateParser {
  import opened Wrappers
  import opened Text
  import opened Clock

  /** A free-form date parser; `None` stands for a parse error. */
  type DateOracle = string -> Option<DateTime>

  /** `parse_date(s, default)`: `default` for an empty string or a string the
      parser rejects, the parsed value otherwise. */
  function ParseDate(s: string, default: Option<DateTime>, parse: DateOracle): (r: Option<DateTime>)
    ensures s == "" ==> r == default
    ensures s != "" && parse(s).None? ==> r == default
    ensures s != "" && parse(s).Some? ==> r == parse(s)
  {
    if s == "" then default
    else match parse(s)
      case Some(t) => Some(t)
      case None => default
  }

  /** The first index at or after `i` that does not hold whitespace. */
  function SkipSpaces(s: string, i: nat): (j: nat)
    requires i <= |s|
    ensures i <= j <= |s|
    ensures forall k :: i <= k < j ==> IsSpace(s[k])
    ensures j == |s| || !IsSpace(s[j])
    decreases |s| - i
  {
    if i < |s| && IsSpace(s[i]) then SkipSpaces(s, i + 1) else i
  }

  /** The first index at or after `i` that does not hold a digit. */
  function SkipDigits(s: string, i: nat): (j: nat)
    requires i <= |s|
    ensures i <= j <= |s|
    ensures forall k :: i <= k < j ==> IsDigit(s[k])
    ensures j == |s| || !IsDigit(s[j])
    decreases |s| - i
  {
    if i < |s| && IsDigit(s[i]) then SkipDigits(s, i + 1) else i
  }

  /** "part" in any letter case at index `i`. */
  predicate PartWordAt(s: string, i: nat) {
    i + 4 <= |s| && Lower(s[i..i + 4]) == "part"
  }

  /** Where a match of `\s*-\s*Part\s+\d+` (ignoring case) starting at `i`
      ends. Every repetition in the pattern is followed by a character it
      cannot consume, so the longest run is the only one that can match. */
  function PartMatchAt(s: string, i: nat): (r: Option<nat>)
    requires i <= |s|
    ensures r.Some? ==> i < r.value <= |s|
  {
    var j := SkipSpaces(s, i);
    if j == |s| || s[j] != '-' then None
    else
      var k := SkipSpaces(s, j + 1);
      if !PartWordAt(s, k) then None
      else
        var m := SkipSpaces(s, k + 4);
        if m == k + 4 then None
        else
          var n := SkipDigits(s, m);
          if n == m then None else Some(n)
  }

  /** `re.sub(pattern, '', s[i..])`: leftmost matches are deleted and the
      scan resumes where each match ends. */
  function StripPartsFrom(s: string, i: nat): (r: string)
    requires i <= |s|
    ensures |r| <= |s| - i
    decreases |s| - i
  {
    if i == |s| then ""
    else match PartMatchAt(s, i)
      case Some(n) => StripPartsFrom(s, n)
      case None => [s[i]] + StripPartsFrom(s, i + 1)
  }

  /** Deletes every "- Part N" suffix, with the whitespace around the dash. */
  function StripParts(s: string): string {
    StripPartsFrom(s, 0)
  }

  /** No match starts at any position from `i` up to `stop`. */
  predicate NoMatchBetween(s: string, i: nat, stop: nat)
    requires i <= stop <= |s|
    decreases stop - i
  {
    i == stop || (PartMatchAt(s, i).None? && NoMatchBetween(s, i + 1, stop))
  }

  lemma {:induction false} NoMatchAnywhere(s: string, i: nat, stop: nat)
    requires i <= stop <= |s|
    requires forall k :: i <= k < stop ==> PartMatchAt(s, k).None?
    ensures NoMatchBetween(s, i, stop)
    decreases stop - i
  {
    if i < stop {
      NoMatchAnywhere(s, i + 1, stop);
    }
  }

  /** Positions that cannot start a match are copied unchanged. */
  lemma {:induction false} CopyUntil(s: string, i: nat, stop: nat)
    requires i <= stop <= |s| && NoMatchBetween(s, i, stop)
    ensures StripPartsFrom(s, i) == s[i..stop] + StripPartsFrom(s, stop)
    decreases stop - i
  {
    if i < stop {
      CopyOne(s, i);
      CopyUntil(s, i + 1, stop);
      SliceCons(s, i, stop, StripPartsFrom(s, stop));
    }
  }

  lemma SliceCons(s: string, i: nat, stop: nat, t: string)
    requires i < stop <= |s|
    ensures s[i..stop] + t == [s[i]] + (s[i + 1..stop] + t)
  {
    assert s[i..stop] == [s[i]] + s[i + 1..stop];
    Regroup([s[i]], s[i + 1..stop], t);
  }

  lemma CopyOne(s: string, i: nat)
    requires i < |s| && PartMatchAt(s, i).None?
    ensures StripPartsFrom(s, i) == [s[i]] + StripPartsFrom(s, i + 1)
  {
  }

  /** Skipping whitespace stops at the first non-space character. */
  lemma {:induction false} SkipSpacesStops(s: string, i: nat, stop: nat)
    requires i <= stop < |s| && !IsSpace(s[stop])
    ensures SkipSpaces(s, i) <= stop
    decreases stop - i
  {
    if i < stop && IsSpace(s[i]) {
      SkipSpacesStops(s, i + 1, stop);
    }
  }

  /** No match starts inside `b` when `b` holds no dash and, if it is
      non-empty, does not end in whitespace. */
  lemma NoMatchInside(b: string, rest: string, k: nat)
    requires '-' !in b && (b == [] || !IsSpace(b[|b| - 1]))
    requires k < |b|
    ensures PartMatchAt(b + rest, k).None?
  {
    var s := b + rest;
    assert s[|b| - 1] == b[|b| - 1];
    SkipSpacesStops(s, k, |b| - 1);
    var j := SkipSpaces(s, k);
    assert s[j] == b[j];
  }

  /** Text without a dash is left as it is. */
  lemma NoDashUnchanged(b: string)
    requires '-' !in b
    ensures StripParts(b) == b
  {
    forall k | 0 <= k < |b|
      ensures PartMatchAt(b, k).None?
    {
      var j := SkipSpaces(b, k);
      assert j == |b| || b[j] != '-';
    }
    NoMatchAnywhere(b, 0, |b|);
    CopyUntil(b, 0, |b|);
    assert b[0..|b|] == b;
  }

  /** " - Part N" at the end of dash-free text is removed, and only it. */
  lemma PartSuffixRemoved(b: string, n: string)
    requires '-' !in b && (b == [] || !IsSpace(b[|b| - 1]))
    requires |n| > 0 && forall k :: 0 <= k < |n| ==> IsDigit(n[k])
    ensures StripParts(b + " - Part " + n) == b
  {
    var suffix := " - Part " + n;
    var s := b + " - Part " + n;
    assert s == b + suffix;
    forall k | 0 <= k < |b|
      ensures PartMatchAt(s, k).None?
    {
      NoMatchInside(b, suffix, k);
    }
    NoMatchAnywhere(s, 0, |b|);
    CopyUntil(s, 0, |b|);
    assert s[0..|b|] == b;
    SuffixMatches(b, n);
    assert |b| < |s|;
    assert StripPartsFrom(s, |b|) == StripPartsFrom(s, |s|) == "";
    assert StripParts(s) == b + "";
  }

  /** At the start of " - Part N" the pattern matches through the last digit. */
  lemma SuffixMatches(b: string, n: string)
    requires |n| > 0 && forall k :: 0 <= k < |n| ==> IsDigit(n[k])
    ensures PartMatchAt(b + " - Part " + n, |b|) == Some(|b + " - Part " + n|)
  {
    var s := b + " - Part " + n;
    var i := |b|;
    assert s[i..] == " - Part " + n;
    assert s[i] == ' ' && s[i + 1] == '-' && s[i + 2] == ' ' && s[i + 3] == 'P';
    assert SkipSpaces(s, i) == i + 1;
    assert SkipSpaces(s, i + 2) == i + 3;
    assert s[i + 3..i + 7] == "Part";
    assert Lower("Part") == "part";
    assert PartWordAt(s, i + 3);
    assert s[i + 7] == ' ' && s[i + 8] == n[0];
    assert SkipSpaces(s, i + 8) == i + 8;
    assert SkipSpaces(s, i + 7) == i + 8;
    forall k | i + 8 <= k < |s| ensures IsDigit(s[k]) {
      assert s[k] == n[k - (i + 8)];
    }
    SkipDigitsToEnd(s, i + 8);
  }

  lemma {:induction false} SkipDigitsToEnd(s: string, i: nat)
    requires i <= |s|
    requires forall k :: i <= k < |s| ==> IsDigit(s[k])
    ensures SkipDigits(s, i) == |s|
    decreases |s| - i
  {
    if i < |s| {
      SkipDigitsToEnd(s, i + 1);
    }
  }

  /** The text `parse_house_date` hands to the parser: trimmed, "- Part N"
      removed, and everything up to the first comma dropped. */
  function HouseDateText(s: string): (r: string)
  {
    var u := StripParts(Strip(s));
    match IndexOf(u, ',')
    case None => u
    case Some(i) => Strip(u[i + 1..])
  }

  /** `parse_house_date`: `None` for an empty string or an unparseable one. */
  function ParseHouseDate(s: string, parse: DateOracle): (r: Option<DateTime>)
    ensures s == "" ==> r.None?
    ensures s != "" ==> r == parse(HouseDateText(s))
  {
    if s == "" then None else parse(HouseDateText(s))
  }

  /** Text that starts and ends with a non-space character is its own strip. */
  lemma StripTrimmed(s: string)
    requires |s| > 0 && !IsSpace(s[0]) && !IsSpace(s[|s| - 1])
    ensures Strip(s) == s
  {
  }

  /** "Weekday, Month D, YYYY - Part N" reaches the parser as "Month D, YYYY":
      the weekday before the first comma and the part suffix are both gone. */
  lemma HouseDateDropsWeekdayAndPart(day: string, date: string, n: string)
    requires |day| > 0 && !IsSpace(day[0]) && ',' !in day && '-' !in day
    requires '-' !in date && |date| > 0 && !IsSpace(date[|date| - 1])
    requires |n| > 0 && forall k :: 0 <= k < |n| ==> IsDigit(n[k])
    ensures HouseDateText(day + "," + date + " - Part " + n) == Strip(date)
  {
    var b := day + "," + date;
    var s := b + " - Part " + n;
    assert s[0] == day[0] && s[|s| - 1] == n[|n| - 1];
    StripTrimmed(s);
    assert b[|b| - 1] == date[|date| - 1];
    JoinedWithoutDash(day, date);
    PartSuffixRemoved(b, n);
    CommaAfterDay(day, date);
  }

  /** "Weekday, Month D, YYYY" reaches the parser as "Month D, YYYY". */
  lemma HouseDateDropsWeekday(day: string, date: string)
    requires |day| > 0 && !IsSpace(day[0]) && ',' !in day && '-' !in day
    requires '-' !in date && |date| > 0 && !IsSpace(date[|date| - 1])
    ensures HouseDateText(day + "," + date) == Strip(date)
  {
    var b := day + "," + date;
    assert b[0] == day[0] && b[|b| - 1] == date[|date| - 1];
    StripTrimmed(b);
    JoinedWithoutDash(day, date);
    NoDashUnchanged(b);
    CommaAfterDay(day, date);
  }

  lemma JoinedWithoutDash(day: string, date: string)
    requires '-' !in day && '-' !in date
    ensures '-' !in day + "," + date
  {
    var b := day + "," + date;
    forall k | 0 <= k < |b| ensures b[k] != '-' {
      if k < |day| { assert b[k] == day[k]; }
      else if k > |day| { assert b[k] == date[k - |day| - 1]; }
    }
  }

  /** The first comma of "<day>,<date>" is the one after the day. */
  lemma CommaAfterDay(day: string, date: string)
    requires ',' !in day
    ensures IndexOf(day + "," + date, ',') == Some(|day|)
    ensures (day + "," + date)[|day| + 1..] == date
  {
    var b := day + "," + date;
    assert b[|day|] == ',';
    assert b[..|day|] == day;
  }

  function DigitValue(c: char): int
    requires IsDigit(c)
  {
    c as int - '0' as int
  }

  /** Two ASCII digits at `i`, `\d{2}`. */
  predicate TwoDigitsAt(s: string, i: nat) {
    i + 2 <= |s| && IsDigit(s[i]) && IsDigit(s[i + 1])
  }

  function TwoDigitValue(s: string, i: nat): (v: int)
    requires TwoDigitsAt(s, i)
    ensures 0 <= v < 100
  {
    DigitValue(s[i]) * 10 + DigitValue(s[i + 1])
  }

  /** `(\d{2})-(\d{2})-(\d{2})` matches at `i`. */
  predicate TripleAt(s: string, i: nat) {
    i + 8 <= |s| && TwoDigitsAt(s, i) && s[i + 2] == '-' && TwoDigitsAt(s, i + 3)
    && s[i + 5] == '-' && TwoDigitsAt(s, i + 6)
  }

  /** `re.search` for the pattern: the leftmost index where it matches. */
  function FindTriple(s: string, from: nat): (r: Option<nat>)
    ensures r.Some? ==> from <= r.value && TripleAt(s, r.value)
    ensures r.Some? ==> forall k :: from <= k < r.value ==> !TripleAt(s, k)
    ensures r.None? ==> forall k :: from <= k ==> !TripleAt(s, k)
    decreases |s| - from
  {
    if from + 8 > |s| then None
    else if TripleAt(s, from) then Some(from)
    else FindTriple(s, from + 1)
  }

  /** `parse_senate_date`: the first YY-MM-DD in the text is midnight of
      year 2000+YY, month MM, day DD, and `None` when that is not a calendar
      date; without such a triple the general parser decides. */
  function ParseSenateDate(s: string, parse: DateOracle): (r: Option<DateTime>)
    ensures s == "" ==> r.None?
    ensures s != "" && FindTriple(s, 0).None? ==> r == ParseDate(s, None, parse)
    ensures s != "" && FindTriple(s, 0).Some? ==>
              var i := FindTriple(s, 0).value;
              var y := 2000 + TwoDigitValue(s, i);
              var m := TwoDigitValue(s, i + 3);
              var d := TwoDigitValue(s, i + 6);
              (r.Some? <==> IsCalendarDate(y, m, d))
              && (r.Some? ==> r.value == DateTime(y, m, d, 0, 0, 0))
  {
    if s == "" then None
    else match FindTriple(s, 0)
      case None => ParseDate(s, None, parse)
      case Some(i) =>
        var y := 2000 + TwoDigitValue(s, i);
        var m := TwoDigitValue(s, i + 3);
        var d := TwoDigitValue(s, i + 6);
        if IsCalendarDate(y, m, d) then Some(DateTime(y, m, d, 0, 0, 0)) else None
  }

  /** A senate label of the form "YY-MM-DD" is read as 20YY-MM-DD. */
  lemma SenateShortYear(prefix: string, yy: int, mm: int, dd: int, parse: DateOracle)
    requires 0 <= yy < 100 && IsCalendarDate(2000 + yy, mm, dd) && mm < 100 && dd < 100
    requires forall k :: 0 <= k < |prefix| ==> !IsDigit(prefix[k])
    ensures ParseSenateDate(prefix + TwoDigits(yy) + "-" + TwoDigits(mm) + "-" + TwoDigits(dd), parse)
            == Some(DateTime(2000 + yy, mm, dd, 0, 0, 0))
  {
    var s := prefix + TwoDigits(yy) + "-" + TwoDigits(mm) + "-" + TwoDigits(dd);
    var i := |prefix|;
    forall k | 0 <= k < i ensures !TripleAt(s, k) {
      assert s[k] == prefix[k];
    }
    assert s[i..i + 2] == TwoDigits(yy);
    assert TripleAt(s, i);
    assert FindTriple(s, 0) == Some(i) by {
      FindTripleFirst(s, 0, i);
    }
  }

  /** The search returns the first matching index. */
  lemma {:induction false} FindTripleFirst(s: string, from: nat, i: nat)
    requires from <= i && TripleAt(s, i)
    requires forall k :: from <= k < i ==> !TripleAt(s, k)
    ensures FindTriple(s, from) == Some(i)
    decreases i - from
  {
    if from < i {
      FindTripleFirst(s, from + 1, i);
    }
  }

  /** A two-digit rendering, `f"{n:02d}"`. */
  function TwoDigits(n: int): (r: string)
    requires 0 <= n < 100
    ensures |r| == 2 && TwoDigitsAt(r, 0) && TwoDigitValue(r, 0) == n
  {
    [DigitChar(n / 10), DigitChar(n % 10)]
  }

  /** The `%d` field of `strptime` at index `i`: two digits, or a space
      followed by a digit other than zero. */
  predicate DayFieldAt(s: string, i: nat) {
    TwoDigitsAt(s, i) || (i + 2 <= |s| && s[i] == ' ' && IsDigit(s[i + 1]) && s[i + 1] != '0')
  }

  function DayFieldValue(s: string, i: nat): (v: int)
    requires DayFieldAt(s, i)
    ensures 0 <= v < 100
  {
    if s[i] == ' ' then DigitValue(s[i + 1]) else TwoDigitValue(s, i)
  }

  /** Ten characters of the form YYYY-MM-DD, the day possibly written as a
      space and one digit. With ten characters the month has two digits. */
  predicate YmdShape(s: string) {
    |s| == 10 && TwoDigitsAt(s, 0) && TwoDigitsAt(s, 2) && s[4] == '-' && TwoDigitsAt(s, 5) && s[7] == '-'
    && DayFieldAt(s, 8)
  }

  /** The year, month and day the fields of a YYYY-MM-DD text spell. */
  function YmdFields(s: string): (int, int, int)
    requires YmdShape(s)
  {
    (TwoDigitValue(s, 0) * 100 + TwoDigitValue(s, 2), TwoDigitValue(s, 5), DayFieldValue(s, 8))
  }

  /** `datetime.strptime(s, "%Y-%m-%d")` on a ten-character text: the
      midnight of the date the fields spell, when that date exists; `None`
      where it raises. A field the pattern does not accept, a month or day
      out of range and the year 0 all raise. */
  function ParseYmd(s: string): (r: Option<DateTime>)
    ensures r.Some? <==> YmdShape(s) && 1 <= YmdFields(s).0 && IsCalendarDate(YmdFields(s).0, YmdFields(s).1, YmdFields(s).2)
    ensures r.Some? ==> (r.value.year, r.value.month, r.value.day) == YmdFields(s)
    ensures r.Some? ==> Valid(r.value) && r.value == StartOfDay(r.value)
  {
    if YmdShape(s) then
      var (y, m, d) := YmdFields(s);
      if 1 <= y && IsCalendarDate(y, m, d) then Some(DateTime(y, m, d, 0, 0, 0)) else None
    else None
  }

  /** `date.strftime("%Y-%m-%d")` of a day of the years 1 to 9999. */
  function FormatYmd(y: int, m: int, d: int): (r: string)
    requires 1 <= y <= 9999 && IsCalendarDate(y, m, d)
    ensures |r| == 10
  {
    TwoDigits(y / 100) + TwoDigits(y % 100) + "-" + TwoDigits(m) + "-" + TwoDigits(d)
  }

  /** Parsing gives back every date formatted as YYYY-MM-DD. */
  lemma ParseFormattedYmd(y: int, m: int, d: int)
    requires 1 <= y <= 9999 && IsCalendarDate(y, m, d)
    ensures ParseYmd(FormatYmd(y, m, d)) == Some(DateTime(y, m, d, 0, 0, 0))
  {
    var s := FormatYmd(y, m, d);
    var a, b, c, e := TwoDigits(y / 100), TwoDigits(y % 100), TwoDigits(m), TwoDigits(d);
    assert s[0..2] == a && s[2..4] == b && s[5..7] == c && s[8..10] == e;
    assert TwoDigitValue(s, 0) == TwoDigitValue(a, 0);
    assert TwoDigitValue(s, 2) == TwoDigitValue(b, 0);
    assert TwoDigitValue(s, 5) == TwoDigitValue(c, 0);
    assert TwoDigitValue(s, 8) == TwoDigitValue(e, 0);
  }

  /** A day written as a space and a digit reads as that digit, as with a
      leading zero. */
  lemma SpacePaddedDay(s: string, t: string)
    requires |s| == |t| == 10 && s[..8] == t[..8] && s[9] == t[9] && IsDigit(s[9]) && s[9] != '0'
    requires s[8] == ' ' && t[8] == '0'
    ensures ParseYmd(s) == ParseYmd(t)
  {
    assert forall k :: 0 <= k < 8 ==> s[k] == s[..8][k] == t[..8][k] == t[k];
  }
}
