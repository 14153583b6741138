/** The string operations of Python's `str` that the pipeline relies on:
    membership (`in`), `startswith`, `endswith`, `lower`, `strip`, `split`,
    `replace` and `str(int)`. Case folding and whitespace are ASCII only. */
module Text {
  import opened Wrappers

  /** Python's `bool(s)` for an optional string: present and non-empty. */
  predicate Truthy(o: Option<string>) {
    o.Some? && o.value != ""
  }

  predicate IsSpace(c: char) {
    c == ' ' || ('\t' <= c <= '\r')
  }

  predicate IsDigit(c: char) {
    '0' <= c <= '9'
  }

  function LowerChar(c: char): char {
    if 'A' <= c <= 'Z' then (c as int + 32) as char else c
  }

  /** `s.lower()` */
  function Lower(s: string): (r: string)
    ensures |r| == |s|
    ensures forall i :: 0 <= i < |s| ==> r[i] == LowerChar(s[i])
  {
    seq(|s|, i requires 0 <= i < |s| => LowerChar(s[i]))
  }

  /** `s.startswith(p)` */
  predicate StartsWith(s: string, p: string) {
    |p| <= |s| && s[..|p|] == p
  }

  /** `s.endswith(p)` */
  predicate EndsWith(s: string, p: string) {
    |p| <= |s| && s[|s| - |p|..] == p
  }

  predicate OccursAt(s: string, sub: string, i: int) {
    0 <= i && i + |sub| <= |s| && s[i..i + |sub|] == sub
  }

  /** `sub in s` */
  predicate Contains(s: string, sub: string) {
    exists i :: 0 <= i <= |s| - |sub| && OccursAt(s, sub, i)
  }

  /** Concatenation regrouped. */
  lemma Regroup(a: string, b: string, c: string)
    ensures a + b + c == a + (b + c)
  {
  }

  lemma ContainsPrefix(s: string, p: string)
    requires StartsWith(s, p)
    ensures Contains(s, p)
  {
    assert OccursAt(s, p, 0);
  }

  /** An occurrence in the tail is an occurrence one place later in the whole. */
  lemma OccursShift(s: string, sub: string, i: int)
    requires |s| > 0 && i >= 0
    ensures OccursAt(s[1..], sub, i) <==> OccursAt(s, sub, i + 1)
  {
    if i + |sub| <= |s| - 1 {
      assert s[1..][i..i + |sub|] == s[i + 1..i + 1 + |sub|];
    }
  }

  /** `s.find(sub)` when it is not -1: the leftmost occurrence of `sub`. */
  function FindSub(s: string, sub: string): (r: Option<nat>)
    ensures r.Some? ==> OccursAt(s, sub, r.value)
    ensures r.Some? ==> forall j :: 0 <= j < r.value ==> !OccursAt(s, sub, j)
    ensures r.None? <==> !Contains(s, sub)
    decreases |s|
  {
    if |sub| > |s| then None
    else if s[..|sub|] == sub then assert OccursAt(s, sub, 0); Some(0)
    else
      var rest := FindSub(s[1..], sub);
      FindSubStep(s, sub, rest);
      match rest
      case None => None
      case Some(i) => Some(i + 1)
  }

  lemma FindSubStep(s: string, sub: string, rest: Option<nat>)
    requires |sub| <= |s| && s[..|sub|] != sub
    requires rest.Some? ==> OccursAt(s[1..], sub, rest.value)
    requires rest.Some? ==> forall j :: 0 <= j < rest.value ==> !OccursAt(s[1..], sub, j)
    requires rest.None? <==> !Contains(s[1..], sub)
    ensures rest.Some? ==> OccursAt(s, sub, rest.value + 1)
    ensures rest.Some? ==> forall j :: 0 <= j < rest.value + 1 ==> !OccursAt(s, sub, j)
    ensures rest.None? <==> !Contains(s, sub)
  {
    assert !OccursAt(s, sub, 0);
    if rest.Some? {
      OccursShift(s, sub, rest.value);
      forall j | 0 <= j < rest.value + 1 ensures !OccursAt(s, sub, j) {
        if j > 0 { OccursShift(s, sub, j - 1); }
      }
    } else {
      forall j | 0 <= j <= |s| - |sub| ensures !OccursAt(s, sub, j) {
        if j > 0 {
          OccursShift(s, sub, j - 1);
          assert !OccursAt(s[1..], sub, j - 1);
        }
      }
    }
    if Contains(s[1..], sub) {
      var j :| 0 <= j <= |s[1..]| - |sub| && OccursAt(s[1..], sub, j);
      OccursShift(s, sub, j);
    }
  }

  /** The index of the first `c` in `s`, as `s.find(c)` when it is not -1. */
  function IndexOf(s: string, c: char): (r: Option<nat>)
    ensures r.None? <==> c !in s
    ensures r.Some? ==> r.value < |s| && s[r.value] == c && c !in s[..r.value]
  {
    if |s| == 0 then None
    else if s[0] == c then Some(0)
    else match IndexOf(s[1..], c)
      case None => None
      case Some(i) => assert s[1..][..i] == s[1..i + 1]; Some(i + 1)
  }

  /** The index of the last `c` in `s`, as `s.rfind(c)` when it is not -1. */
  function LastIndexOf(s: string, c: char): (r: Option<nat>)
    ensures r.None? <==> c !in s
    ensures r.Some? ==> r.value < |s| && s[r.value] == c && c !in s[r.value + 1..]
  {
    if |s| == 0 then None
    else if s[|s| - 1] == c then Some(|s| - 1)
    else LastIndexOf(s[..|s| - 1], c)
  }

  /** `s.split(c)[0]`: everything before the first `c`. */
  function BeforeFirst(s: string, c: char): (r: string)
    ensures c !in r && StartsWith(s, r)
    ensures c in s ==> |r| < |s| && s[|r|] == c
    ensures c !in s ==> r == s
  {
    match IndexOf(s, c)
    case None => s
    case Some(i) => s[..i]
  }

  /** `s.split(c)` for a one-character separator. */
  function Split(s: string, c: char): (r: seq<string>)
    ensures |r| >= 1
    ensures forall k :: 0 <= k < |r| ==> c !in r[k]
    decreases |s|
  {
    match IndexOf(s, c)
    case None => [s]
    case Some(i) => [s[..i]] + Split(s[i + 1..], c)
  }

  /** `c.join(parts)` */
  function Join(parts: seq<string>, c: char): string {
    if |parts| == 0 then ""
    else if |parts| == 1 then parts[0]
    else parts[0] + [c] + Join(parts[1..], c)
  }

  /** Splitting and joining again on the same separator gives the string back. */
  lemma {:induction false} SplitJoin(s: string, c: char)
    ensures Join(Split(s, c), c) == s
    decreases |s|
  {
    match IndexOf(s, c)
    case None =>
    case Some(i) =>
      var rest := s[i + 1..];
      var tail := Split(rest, c);
      SplitJoin(rest, c);
      assert Split(s, c) == [s[..i]] + tail;
      assert ([s[..i]] + tail)[1..] == tail;
      assert Join([s[..i]] + tail, c) == s[..i] + [c] + Join(tail, c);
      assert s == s[..i] + [c] + rest;
  }

  function TrimStart(s: string): (r: string)
    ensures |r| <= |s| && r == s[|s| - |r|..]
    ensures r == [] || !IsSpace(r[0])
    ensures forall k :: 0 <= k < |s| - |r| ==> IsSpace(s[k])
  {
    if |s| > 0 && IsSpace(s[0]) then TrimStart(s[1..]) else s
  }

  function TrimEnd(s: string): (r: string)
    ensures |r| <= |s| && r == s[..|r|]
    ensures r == [] || !IsSpace(r[|r| - 1])
    ensures forall k :: |r| <= k < |s| ==> IsSpace(s[k])
  {
    if |s| > 0 && IsSpace(s[|s| - 1]) then TrimEnd(s[..|s| - 1]) else s
  }

  /** `s.strip()`: a slice of `s` that neither starts nor ends with whitespace. */
  function Strip(s: string): (r: string)
    ensures exists i :: OccursAt(s, r, i)
    ensures r == [] || (!IsSpace(r[0]) && !IsSpace(r[|r| - 1]))
  {
    var t := TrimStart(s);
    var r := TrimEnd(t);
    var k := |s| - |t|;
    assert OccursAt(s, r, k) by {
      assert t == s[k..];
      assert r == t[..|r|];
    }
    r
  }

  /** `s.replace(pat, "")`: deletes the non-overlapping occurrences of `pat`
      found scanning left to right. */
  function RemoveAll(s: string, pat: string): (r: string)
    requires |pat| > 0
    ensures |r| <= |s|
    decreases |s|
  {
    if |s| == 0 then ""
    else if StartsWith(s, pat) then RemoveAll(s[|pat|..], pat)
    else [s[0]] + RemoveAll(s[1..], pat)
  }

  /** A string without a '.' loses exactly one trailing ".mp4". */
  lemma {:induction false} RemoveTrailingExtension(b: string)
    requires '.' !in b
    ensures RemoveAll(b + ".mp4", ".mp4") == b
  {
    if |b| == 0 {
      assert StartsWith(".mp4", ".mp4");
      assert ".mp4"[4..] == "";
    } else {
      assert !StartsWith(b + ".mp4", ".mp4") by {
        assert (b + ".mp4")[0] == b[0] != '.';
      }
      var rest := b[1..];
      assert (b + ".mp4")[1..] == rest + ".mp4";
      assert '.' !in rest;
      RemoveTrailingExtension(rest);
      calc {
        RemoveAll(b + ".mp4", ".mp4");
        [b[0]] + RemoveAll(rest + ".mp4", ".mp4");
        [b[0]] + rest;
        b;
      }
    }
  }

  /** `re.sub('[...]', repl, s)` for a character class: every character of
      `bad` becomes `repl`. */
  function ReplaceChars(s: string, bad: set<char>, repl: char): (r: string)
    requires repl !in bad
    ensures |r| == |s|
    ensures forall i :: 0 <= i < |r| ==> r[i] !in bad
    ensures forall i :: 0 <= i < |r| ==> r[i] == (if s[i] in bad then repl else s[i])
  {
    seq(|s|, i requires 0 <= i < |s| => if s[i] in bad then repl else s[i])
  }

  /** `s.replace(c, rep)` for a single character `c`. */
  function ReplaceChar(s: string, c: char, rep: string): (r: string)
    ensures c !in rep ==> c !in r
    ensures c !in s ==> r == s
  {
    if |s| == 0 then ""
    else (if s[0] == c then rep else [s[0]]) + ReplaceChar(s[1..], c, rep)
  }

  function DigitChar(d: int): char
    requires 0 <= d < 10
  {
    ('0' as int + d) as char
  }

  /** `str(n)` for a natural number. */
  function NatToString(n: nat): (r: string)
    ensures |r| > 0
    ensures forall i :: 0 <= i < |r| ==> IsDigit(r[i])
  {
    if n < 10 then [DigitChar(n)] else NatToString(n / 10) + [DigitChar(n % 10)]
  }

  /** The value of a string of decimal digits. */
  function DigitsValue(s: string): nat
    requires forall i :: 0 <= i < |s| ==> IsDigit(s[i])
  {
    if |s| == 0 then 0
    else
      assert IsDigit(s[|s| - 1]);
      DigitsValue(s[..|s| - 1]) * 10 + (s[|s| - 1] as int - '0' as int)
  }

  /** `str(n)` for any integer. */
  function IntToString(n: int): string {
    if n < 0 then "-" + NatToString(-n) else NatToString(n)
  }
}
