/**
 * The two regular expressions of the feed parser, written as scanners:
 *  - `[\s\-]([0-9]+(\.[0-9]+)*)` searched once in a bugtraq product string;
 *  - `([0-9]+(\.[0-9]+)+)` iterated over an exploit description (`re.finditer`).
 * Both quantifiers are greedy, and nothing follows them in the pattern, so a match
 * at a given start always runs to the end of the longest dotted digit run there.
 */
module VersionPatterns {
  import opened Wrappers
  import opened PyText

  /** `v` as a whole matches `[0-9]+(\.[0-9]+)*`: groups of digits joined by single dots. */
  predicate IsVersion(v: string) {
    && |v| > 0
    && IsDigit(v[0])
    && IsDigit(v[|v| - 1])
    && (forall k :: 0 <= k < |v| ==> IsDigit(v[k]) || v[k] == '.')
    && (forall k :: 0 <= k < |v| - 1 && v[k] == '.' ==> IsDigit(v[k + 1]))
  }

  /** No greedy quantifier could take one more character at `e`: neither another digit nor
      another `.digits` group follows. */
  predicate EndsVersion(s: string, e: nat) {
    e == |s| || (e < |s| && !IsDigit(s[e]) && !(s[e] == '.' && e + 1 < |s| && IsDigit(s[e + 1])))
  }

  /** End of the longest run of digits that starts at `i` (the greedy `[0-9]+` or `[0-9]*`). */
  function DigitRun(s: string, i: nat): (r: nat)
    requires i <= |s|
    ensures i <= r <= |s|
    ensures forall k :: i <= k < r ==> IsDigit(s[k])
    ensures r == |s| || !IsDigit(s[r])
    decreases |s| - i
  {
    if i < |s| && IsDigit(s[i]) then DigitRun(s, i + 1) else i
  }

  /** End of the greedy `(\.[0-9]+)*` that starts at `j`. */
  function GroupsEnd(s: string, j: nat): (r: nat)
    requires j <= |s|
    ensures j <= r <= |s|
    ensures !(r + 1 < |s| && s[r] == '.' && IsDigit(s[r + 1]))
    decreases |s| - j
  {
    if j + 1 < |s| && s[j] == '.' && IsDigit(s[j + 1]) then GroupsEnd(s, DigitRun(s, j + 1)) else j
  }

  /** End of the greedy `[0-9]+(\.[0-9]+)*` that starts at `i`. */
  function VersionEnd(s: string, i: nat): (r: nat)
    requires i <= |s|
    ensures i <= r <= |s|
  {
    GroupsEnd(s, DigitRun(s, i))
  }

  /** One more `.digits` group keeps a version a version. */
  lemma VersionStep(s: string, i: nat, j: nat)
    requires i < j && j + 1 < |s|
    requires IsVersion(s[i..j])
    requires s[j] == '.' && IsDigit(s[j + 1])
    ensures IsVersion(s[i..DigitRun(s, j + 1)])
  {
    var d := DigitRun(s, j + 1);
    var v, w := s[i..j], s[i..d];
    assert |v| == j - i && |w| == d - i;
    forall k | 0 <= k < |w|
      ensures IsDigit(w[k]) || w[k] == '.'
    {
      assert w[k] == s[i + k];
      if k < |v| {
        assert v[k] == s[i + k];
      }
    }
    forall k | 0 <= k < |w| - 1 && w[k] == '.'
      ensures IsDigit(w[k + 1])
    {
      assert w[k] == s[i + k] && w[k + 1] == s[i + k + 1];
      if k < |v| {
        assert v[k] == s[i + k];
        if k < |v| - 1 {
          assert v[k + 1] == s[i + k + 1];
        }
      }
    }
    assert w[0] == v[0];
    assert w[|w| - 1] == s[d - 1];
  }

  /** From a version followed by no digit, the greedy groups extend it to the longest version. */
  lemma {:induction false} GroupsEndVersion(s: string, i: nat, j: nat)
    requires i < j <= |s|
    requires IsVersion(s[i..j])
    requires j == |s| || !IsDigit(s[j])
    ensures IsVersion(s[i..GroupsEnd(s, j)]) && EndsVersion(s, GroupsEnd(s, j))
    decreases |s| - j
  {
    if j + 1 < |s| && s[j] == '.' && IsDigit(s[j + 1]) {
      VersionStep(s, i, j);
      GroupsEndVersion(s, i, DigitRun(s, j + 1));
    }
  }

  /** A digit at `i` starts a version that runs exactly to `VersionEnd(s, i)`. */
  lemma VersionAt(s: string, i: nat)
    requires i < |s| && IsDigit(s[i])
    ensures i < VersionEnd(s, i)
    ensures IsVersion(s[i..VersionEnd(s, i)]) && EndsVersion(s, VersionEnd(s, i))
  {
    var d := DigitRun(s, i);
    assert IsVersion(s[i..d]) by {
      assert forall k :: 0 <= k < d - i ==> s[i..d][k] == s[i + k];
    }
    GroupsEndVersion(s, i, d);
  }

  // ---- `[\s\-]([0-9]+(\.[0-9]+)*)`, first match (`re.search`) ----

  /** The bugtraq pattern matches starting at `i`: white space or a hyphen, then a digit. */
  predicate DelimitedAt(s: string, i: int) {
    0 <= i && i + 1 < |s| && (IsSpace(s[i]) || s[i] == '-') && IsDigit(s[i + 1])
  }

  /** End of the bugtraq match that starts at `i`; the version group is `s[i + 1..end]`. */
  function DelimitedEnd(s: string, i: nat): (e: nat)
    requires DelimitedAt(s, i)
    ensures i + 1 < e <= |s|
    ensures IsVersion(s[i + 1..e]) && EndsVersion(s, e)
  {
    VersionAt(s, i + 1);
    VersionEnd(s, i + 1)
  }

  /** `re.search` from `from`: the leftmost start at which the bugtraq pattern matches. */
  function SearchDelimited(s: string, from: nat): (r: Option<nat>)
    requires from <= |s|
    ensures r.Some? ==> from <= r.value && DelimitedAt(s, r.value)
    ensures forall p :: from <= p && (r.None? || p < r.value) ==> !DelimitedAt(s, p)
    decreases |s| - from
  {
    if from + 1 >= |s| then None
    else if DelimitedAt(s, from) then Some(from)
    else SearchDelimited(s, from + 1)
  }

  // ---- `([0-9]+(\.[0-9]+)+)`, all matches (`re.finditer`) ----

  /** The exploit pattern matches starting at `i`: the digit run there is followed by `.` and a digit. */
  predicate DottedAt(s: string, i: int) {
    && 0 <= i < |s|
    && IsDigit(s[i])
    && var d := DigitRun(s, i);
    && d + 1 < |s| && s[d] == '.' && IsDigit(s[d + 1])
  }

  /** A match of the exploit pattern is a version with at least one dot, and cannot be extended. */
  lemma DottedMatch(s: string, i: nat)
    requires DottedAt(s, i)
    ensures i < VersionEnd(s, i)
    ensures IsVersion(s[i..VersionEnd(s, i)]) && '.' in s[i..VersionEnd(s, i)]
    ensures EndsVersion(s, VersionEnd(s, i))
  {
    VersionAt(s, i);
    var d := DigitRun(s, i);
    assert VersionEnd(s, i) == GroupsEnd(s, DigitRun(s, d + 1));
    assert s[i..VersionEnd(s, i)][d - i] == '.';
  }

  datatype Span = Span(start: nat, end: nat)

  /** The matches `re.finditer` yields from `from` on: each is taken at the leftmost start
      where the pattern matches, and the scan resumes where that match ends. */
  function FindAllDotted(s: string, from: nat): (r: seq<Span>)
    requires from <= |s|
    ensures forall k :: 0 <= k < |r| ==>
      from <= r[k].start < r[k].end <= |s| && DottedAt(s, r[k].start) && r[k].end == VersionEnd(s, r[k].start)
    ensures forall k :: 0 <= k < |r| - 1 ==> r[k].end <= r[k + 1].start
    decreases |s| - from
  {
    if from == |s| then []
    else if DottedAt(s, from) then
      DottedMatch(s, from);
      [Span(from, VersionEnd(s, from))] + FindAllDotted(s, VersionEnd(s, from))
    else FindAllDotted(s, from + 1)
  }

  /** No match starts before the first one found (or anywhere, when none is found). */
  lemma {:induction false} FindAllLeftmost(s: string, from: nat, p: nat)
    requires from <= p < |s|
    requires var r := FindAllDotted(s, from); r == [] || p < r[0].start
    ensures !DottedAt(s, p)
    decreases |s| - from
  {
    if !DottedAt(s, from) && p != from {
      FindAllLeftmost(s, from + 1, p);
    }
  }

  /** `p` lies inside one of the spans of `r`. */
  predicate Covered(r: seq<Span>, p: nat) {
    exists k :: 0 <= k < |r| && r[k].start <= p < r[k].end
  }

  /** One unfolding of the scan at a position before the end. */
  lemma FindAllStep(s: string, from: nat)
    requires from < |s|
    ensures DottedAt(s, from) ==>
      (VersionEnd(s, from) > from &&
       FindAllDotted(s, from) == [Span(from, VersionEnd(s, from))] + FindAllDotted(s, VersionEnd(s, from)))
    ensures !DottedAt(s, from) ==> FindAllDotted(s, from) == FindAllDotted(s, from + 1)
  {
    if DottedAt(s, from) {
      DottedMatch(s, from);
    }
  }

  /** A span in front keeps every covered position covered, and covers its own. */
  lemma CoveredCons(sp: Span, rest: seq<Span>, p: nat)
    requires (sp.start <= p < sp.end) || Covered(rest, p)
    ensures Covered([sp] + rest, p)
  {
    var r := [sp] + rest;
    if sp.start <= p < sp.end {
      assert r[0] == sp;
    } else {
      var k :| 0 <= k < |rest| && rest[k].start <= p < rest[k].end;
      assert r[k + 1] == rest[k];
    }
  }

  /** Every position at which the pattern could match lies inside one of the matches found:
      nothing is skipped between, before or after them. */
  lemma {:induction false} FindAllComplete(s: string, from: nat, p: nat)
    requires from <= p < |s| && DottedAt(s, p)
    ensures Covered(FindAllDotted(s, from), p)
    decreases |s| - from
  {
    FindAllStep(s, from);
    if DottedAt(s, from) {
      var e := VersionEnd(s, from);
      if e <= p {
        FindAllComplete(s, e, p);
      }
      CoveredCons(Span(from, e), FindAllDotted(s, e), p);
    } else {
      FindAllComplete(s, from + 1, p);
    }
  }
}
