/** The Python string primitives the fetcher relies on: substring search
    (`p in s`), `s.split(sep)[-1]` and `s.rstrip(c)`. */
module Strings {
  import opened Results

  /** `p` occurs in `s` starting at index `i`. */
  predicate OccursAt(s: string, p: string, i: nat) {
    i + |p| <= |s| && s[i..i + |p|] == p
  }

  /** `a` is a suffix of `b`. */
  predicate IsSuffix(a: string, b: string) {
    |a| <= |b| && b[|b| - |a|..] == a
  }

  lemma OccursAtShift(s: string, p: string, j: nat)
    requires |s| > 0 && j > 0
    ensures OccursAt(s, p, j) <==> OccursAt(s[1..], p, j - 1)
  {
    if j + |p| <= |s| {
      assert s[1..][j - 1..j - 1 + |p|] == s[j..j + |p|];
    }
  }

  /** Index of the leftmost occurrence of `p` in `s`, if any. */
  function FirstIndex(s: string, p: string): (r: Option<nat>)
    ensures r.Some? ==> OccursAt(s, p, r.value)
    ensures r.Some? ==> forall j: nat :: j < r.value ==> !OccursAt(s, p, j)
    ensures r.None? ==> forall j: nat :: !OccursAt(s, p, j)
    decreases |s|
  {
    if |s| < |p| then None
    else if s[..|p|] == p then Some(0)
    else
      assert !OccursAt(s, p, 0);
      assert forall j: nat :: j > 0 ==> (OccursAt(s, p, j) <==> OccursAt(s[1..], p, j - 1)) by {
        forall j: nat | j > 0 ensures OccursAt(s, p, j) <==> OccursAt(s[1..], p, j - 1) {
          OccursAtShift(s, p, j);
        }
      }
      match FirstIndex(s[1..], p)
      case None => None
      case Some(i) => Some(i + 1)
  }

  /** Python's `p in s`. */
  predicate Contains(s: string, p: string) {
    FirstIndex(s, p).Some?
  }

  /** `Contains` holds exactly when some occurrence exists. */
  lemma ContainsIff(s: string, p: string)
    ensures Contains(s, p) <==> exists i: nat :: OccursAt(s, p, i)
  {
    if Contains(s, p) {
      assert OccursAt(s, p, FirstIndex(s, p).value);
    }
  }

  /** Suffixes are transitive. */
  lemma SuffixTrans(a: string, b: string, c: string)
    requires IsSuffix(a, b) && IsSuffix(b, c)
    ensures IsSuffix(a, c)
  {
    assert c[|c| - |a|..] == c[|c| - |b|..][|b| - |a|..];
  }

  /** `p` is the leftmost occurrence of `sep` in `s` that starts at or after `from`. */
  ghost predicate NextMatch(s: string, sep: string, from: nat, p: nat) {
    from <= p && OccursAt(s, sep, p) && forall q: nat :: from <= q < p ==> !OccursAt(s, sep, q)
  }

  /** `ps` are the separators `str.split` finds in `s` when it resumes at
      `from`: each is the leftmost occurrence starting where the previous one
      ended, and after the last one no occurrence starts. */
  ghost predicate Scan(s: string, sep: string, from: nat, ps: seq<nat>)
    decreases |ps|
  {
    if |ps| == 0 then forall q: nat :: from <= q ==> !OccursAt(s, sep, q)
    else NextMatch(s, sep, from, ps[0]) && Scan(s, sep, ps[0] + |sep|, ps[1..])
  }

  /** Where the scan stands after the separators `ps`. */
  function ScanEnd(from: nat, ps: seq<nat>, sep: string): nat {
    if |ps| == 0 then from else ps[|ps| - 1] + |sep|
  }

  /** The positions `ps`, each moved `off` further on. */
  function Shift(ps: seq<nat>, off: nat): seq<nat> {
    seq(|ps|, k requires 0 <= k < |ps| => ps[k] + off)
  }

  /** Python's `s.split(sep)[-1]`: the piece after the last separator found
      by a left-to-right scan for non-overlapping occurrences. */
  function AfterLast(s: string, sep: string): (r: string)
    requires |sep| > 0
    ensures IsSuffix(r, s)
    ensures forall j: nat :: !OccursAt(r, sep, j)
    ensures Contains(s, sep) ==> IsSuffix(sep + r, s)
    ensures !Contains(s, sep) ==> r == s
  {
    AfterLastFacts(s, sep);
    assert FirstIndex(SplitLast(s, sep), sep).None?;
    SplitLast(s, sep)
  }

  /** The piece after the last separator is unchanged by dropping the text
      up to and including the first one. */
  lemma AfterLastFirst(s: string, sep: string, i: nat)
    requires |sep| > 0 && FirstIndex(s, sep) == Some(i)
    ensures AfterLast(s, sep) == AfterLast(s[i + |sep|..], sep)
  {
    SplitLastFirst(s, sep, i);
  }

  /** One step of the scan. */
  lemma SplitLastFirst(s: string, sep: string, i: nat)
    requires |sep| > 0 && FirstIndex(s, sep) == Some(i)
    ensures SplitLast(s, sep) == SplitLast(s[i + |sep|..], sep)
  {
    match FirstIndex(s, sep)
    case Some(j) => assert j == i;
  }

  /** The scan behind `AfterLast`: skip past the leftmost separator until none is left. */
  function SplitLast(s: string, sep: string): string
    requires |sep| > 0
    decreases |s|
  {
    match FirstIndex(s, sep)
    case None => s
    case Some(i) => SplitLast(s[i + |sep|..], sep)
  }

  /** What the scan leaves is a suffix without a separator, and the separator precedes it. */
  lemma {:induction false} AfterLastFacts(s: string, sep: string)
    requires |sep| > 0
    ensures var r := SplitLast(s, sep);
            IsSuffix(r, s) && !Contains(r, sep)
            && (Contains(s, sep) ==> IsSuffix(sep + r, s))
            && (!Contains(s, sep) ==> r == s)
    decreases |s|
  {
    match FirstIndex(s, sep)
    case None =>
    case Some(i) =>
      var rest := s[i + |sep|..];
      AfterLastFacts(rest, sep);
      AfterLastStep(s, sep, i, SplitLast(rest, sep), Contains(rest, sep));
  }

  /** `AfterLast` follows `str.split`'s scan: it is the text after the
      separators the left-to-right, non-overlapping scan finds. With a
      self-overlapping separator this fixes which occurrence counts. */
  lemma AfterLastScan(s: string, sep: string) returns (ps: seq<nat>)
    requires |sep| > 0
    ensures Scan(s, sep, 0, ps)
    ensures ScanEnd(0, ps, sep) <= |s| && AfterLast(s, sep) == s[ScanEnd(0, ps, sep)..]
  {
    ps := SplitLastScan(s, sep);
  }

  /** The scan lemma for `SplitLast`, by induction along its recursion. */
  lemma {:induction false} SplitLastScan(s: string, sep: string) returns (ps: seq<nat>)
    requires |sep| > 0
    ensures Scan(s, sep, 0, ps)
    ensures ScanEnd(0, ps, sep) <= |s| && SplitLast(s, sep) == s[ScanEnd(0, ps, sep)..]
    decreases |s|
  {
    match FirstIndex(s, sep)
    case None =>
      ps := [];
    case Some(i) =>
      var off := i + |sep|;
      var rest := s[off..];
      SplitLastFirst(s, sep, i);
      var ps' := SplitLastScan(rest, sep);
      ps := ScanCons(s, sep, i, ps');
      var e', e := ScanEnd(0, ps', sep), ScanEnd(0, ps, sep);
      assert e == off + e' && e <= |s|;
      assert rest[e'..] == s[e..];
  }

  /** The first separator followed by the shifted scan of the rest is a scan of `s`. */
  lemma ScanCons(s: string, sep: string, i: nat, ps': seq<nat>) returns (ps: seq<nat>)
    requires |sep| > 0 && FirstIndex(s, sep) == Some(i)
    requires Scan(s[i + |sep|..], sep, 0, ps')
    ensures Scan(s, sep, 0, ps)
    ensures ScanEnd(0, ps, sep) == i + |sep| + ScanEnd(0, ps', sep)
  {
    var off := i + |sep|;
    ScanDrop(s, sep, off, 0, ps');
    ps := [i] + Shift(ps', off);
    assert ps[1..] == Shift(ps', off);
  }

  /** With a self-overlapping separator the scan resumes after the first
      match, so the match at index 1 of `"aaa"` does not count. */
  lemma OverlappingSeparator()
    ensures AfterLast("aaa", "aa") == "a"
  {
    var ps := AfterLastScan("aaa", "aa");
    assert OccursAt("aaa", "aa", 0);
    assert ps[0] == 0;
    assert !OccursAt("aaa", "aa", 2);
    assert |ps| == 1;
  }

  /** An occurrence in `s[off..]` is an occurrence in `s`, `off` further on. */
  lemma OccursAtDrop(s: string, p: string, off: nat, q: nat)
    requires off <= |s|
    ensures OccursAt(s[off..], p, q) <==> OccursAt(s, p, q + off)
  {
    if q + off + |p| <= |s| {
      assert s[off..][q..q + |p|] == s[q + off..q + off + |p|];
    }
  }

  /** The leftmost match after `from` in `s[off..]` is the leftmost match after `from + off` in `s`. */
  lemma NextMatchDrop(s: string, sep: string, off: nat, from: nat, p: nat)
    requires off <= |s| && NextMatch(s[off..], sep, from, p)
    ensures NextMatch(s, sep, from + off, p + off)
  {
    OccursAtDrop(s, sep, off, p);
    forall q: nat | from + off <= q < p + off
      ensures !OccursAt(s, sep, q)
    {
      OccursAtDrop(s, sep, off, q - off);
    }
  }

  /** A scan of `s[off..]` from `from`, shifted by `off`, is a scan of `s` from `from + off`. */
  lemma {:induction false} ScanDrop(s: string, sep: string, off: nat, from: nat, ps: seq<nat>)
    requires off <= |s| && Scan(s[off..], sep, from, ps)
    ensures Scan(s, sep, from + off, Shift(ps, off))
    decreases |ps|
  {
    if |ps| == 0 {
      forall q: nat | from + off <= q
        ensures !OccursAt(s, sep, q)
      {
        OccursAtDrop(s, sep, off, q - off);
      }
    } else {
      NextMatchDrop(s, sep, off, from, ps[0]);
      ScanDrop(s, sep, off, ps[0] + |sep|, ps[1..]);
      assert Shift(ps, off)[1..] == Shift(ps[1..], off);
    }
  }
  /** One step of the scan: what holds of the rest after the occurrence at `i`
      carries over to `s`. `found` says whether the rest holds `sep` again. */
  lemma AfterLastStep(s: string, sep: string, i: nat, r: string, found: bool)
    requires |sep| > 0 && OccursAt(s, sep, i)
    requires IsSuffix(r, s[i + |sep|..])
    requires found ==> IsSuffix(sep + r, s[i + |sep|..])
    requires !found ==> r == s[i + |sep|..]
    ensures IsSuffix(r, s) && IsSuffix(sep + r, s)
  {
    var rest := s[i + |sep|..];
    assert IsSuffix(rest, s);
    SuffixTrans(r, rest, s);
    if found {
      SuffixTrans(sep + r, rest, s);
    } else {
      LastPiece(s, sep, i, r);
    }
  }

  /** The piece after the last separator, together with that separator, ends `s`. */
  lemma LastPiece(s: string, sep: string, i: nat, r: string)
    requires OccursAt(s, sep, i) && r == s[i + |sep|..]
    ensures IsSuffix(sep + r, s)
  {
    assert s[i..] == sep + r;
  }

  /** Python's `s.rstrip(c)` for a single character `c`. */
  function RStrip(s: string, c: char): (r: string)
    ensures |r| <= |s| && r == s[..|r|]
    ensures forall i :: |r| <= i < |s| ==> s[i] == c
    ensures |r| == 0 || r[|r| - 1] != c
    decreases |s|
  {
    if |s| > 0 && s[|s| - 1] == c then RStrip(s[..|s| - 1], c) else s
  }

  /** Appending copies of the stripped character does not change the result. */
  lemma {:induction false} RStripIgnoresTrailing(s: string, t: string, c: char)
    requires forall i :: 0 <= i < |t| ==> t[i] == c
    ensures RStrip(s + t, c) == RStrip(s, c)
    decreases |t|
  {
    if |t| > 0 {
      var t' := t[..|t| - 1];
      assert (s + t)[|s + t| - 1] == t[|t| - 1] == c;
      assert (s + t)[..|s + t| - 1] == s + t';
      assert RStrip(s + t, c) == RStrip(s + t', c);
      RStripIgnoresTrailing(s, t', c);
    } else {
      assert s + t == s;
    }
  }

  /** `s` holds no `c` character. */
  predicate Lacks(s: string, c: char) {
    forall i :: 0 <= i < |s| ==> s[i] != c
  }

  /** A string without `c` has no occurrence of the one-character string `[c]`. */
  lemma LacksNotContains(s: string, c: char)
    ensures Lacks(s, c) <==> !Contains(s, [c])
  {
    ContainsIff(s, [c]);
    if !Lacks(s, c) {
      var i :| 0 <= i < |s| && s[i] == c;
      assert OccursAt(s, [c], i);
    }
    if Contains(s, [c]) {
      var i: nat :| OccursAt(s, [c], i);
      assert s[i] == s[i..i + 1][0] == c;
    }
  }

  /** Any string with the three defining properties of `RStrip(s, c)` is it. */
  lemma RStripUnique(s: string, c: char, r: string)
    requires |r| <= |s| && r == s[..|r|]
    requires forall i :: |r| <= i < |s| ==> s[i] == c
    requires |r| == 0 || r[|r| - 1] != c
    ensures r == RStrip(s, c)
  {
  }
}
