/**
 * The Python string operations the feed parser relies on, stated on `string`
 * (= `seq<char>`): `str.isspace` for the ASCII characters, `str.lower` for the
 * ASCII letters, `strip`/`lstrip`/`rstrip`, `split` on a one-character
 * separator, `find`/`index` and slicing with Python's clamped and negative
 * bounds.
 */
module PyText {

  /** ASCII characters for which Python's `str.isspace` holds (and which `\s` matches):
      tab, line feed, vertical tab, form feed, carriage return, the separators
      0x1c-0x1f, and space. */
  predicate IsSpace(c: char) {
    c == ' ' || (9 <= c as int <= 13) || (28 <= c as int <= 31)
  }

  /** The regex class `[0-9]`. */
  predicate IsDigit(c: char) {
    '0' <= c <= '9'
  }

  /** An ASCII capital is an upper-case letter; `lower()` maps it to the letter 32 code
      points on, and keeps every other character. */
  predicate IsUpper(c: char) {
    'A' <= c <= 'Z'
  }

  /** `c.lower()` for ASCII: a capital becomes its small letter, anything else is kept. */
  function LowerChar(c: char): (r: char)
    ensures IsUpper(c) ==> 'a' <= r <= 'z' && r as int == c as int + 32
    ensures !IsUpper(c) ==> r == c
    ensures !IsUpper(r)
  {
    if 'A' <= c <= 'Z' then (c as int + 32) as char else c
  }

  /** `s.lower()` on ASCII letters: no capital is left, each capital becomes its small
      letter, and every other character is kept where it was. */
  function Lower(s: string): (r: string)
    ensures |r| == |s|
    ensures forall i :: 0 <= i < |s| ==> !IsUpper(r[i])
    ensures forall i :: 0 <= i < |s| && !IsUpper(s[i]) ==> r[i] == s[i]
    ensures forall i :: 0 <= i < |s| && IsUpper(s[i]) ==> r[i] as int == s[i] as int + 32
  {
    seq(|s|, i requires 0 <= i < |s| => LowerChar(s[i]))
  }

  /** `s.lstrip()`: drops the leading white space, keeps the rest. */
  function LStrip(s: string): (r: string)
    ensures |r| <= |s| && r == s[|s| - |r|..]
    ensures forall i :: 0 <= i < |s| - |r| ==> IsSpace(s[i])
    ensures r == [] || !IsSpace(r[0])
  {
    if |s| > 0 && IsSpace(s[0]) then LStrip(s[1..]) else s
  }

  /** `s.rstrip()`: drops the trailing white space, keeps the rest. */
  function RStrip(s: string): (r: string)
    ensures |r| <= |s| && r == s[..|r|]
    ensures forall i :: |r| <= i < |s| ==> IsSpace(s[i])
    ensures r == [] || !IsSpace(r[|r| - 1])
  {
    if |s| > 0 && IsSpace(s[|s| - 1]) then RStrip(s[..|s| - 1]) else s
  }

  /** `s.lstrip().rstrip()`: the part of `s` left once the white space at both ends is
      dropped; it starts where `lstrip` starts, everything outside it is white space, and
      it neither starts nor ends with white space. `StripOrder` shows that
      `s.rstrip().lstrip()` is the same string. */
  function Strip(s: string): (r: string)
    ensures var a := |s| - |LStrip(s)|; a + |r| <= |s| && r == s[a..a + |r|]
    ensures forall i :: 0 <= i < |s| - |LStrip(s)| ==> IsSpace(s[i])
    ensures forall i :: |s| - |LStrip(s)| + |r| <= i < |s| ==> IsSpace(s[i])
    ensures r == [] || (!IsSpace(r[0]) && !IsSpace(r[|r| - 1]))
  {
    var l := LStrip(s);
    var r := RStrip(l);
    StripSpan(s, l, r);
    r
  }

  /** What `lstrip` and `rstrip` promise about their results, composed. */
  lemma StripSpan(s: string, l: string, r: string)
    requires |l| <= |s| && l == s[|s| - |l|..]
    requires forall i :: 0 <= i < |s| - |l| ==> IsSpace(s[i])
    requires l == [] || !IsSpace(l[0])
    requires |r| <= |l| && r == l[..|r|]
    requires forall i :: |r| <= i < |l| ==> IsSpace(l[i])
    requires r == [] || !IsSpace(r[|r| - 1])
    ensures var a := |s| - |l|; a + |r| <= |s| && r == s[a..a + |r|]
    ensures forall i :: |s| - |l| + |r| <= i < |s| ==> IsSpace(s[i])
    ensures r == [] || (!IsSpace(r[0]) && !IsSpace(r[|r| - 1]))
  {
    var a := |s| - |l|;
    assert s[a..][..|r|] == s[a..a + |r|];
    forall i | a + |r| <= i < |s|
      ensures IsSpace(s[i])
    {
      assert s[i] == l[i - a];
    }
    if r != [] {
      assert r[0] == l[0];
    }
  }

  lemma {:induction false} RStripCons(c: char, t: string)
    ensures RStrip([c] + t) == if IsSpace(c) && RStrip(t) == [] then [] else [c] + RStrip(t)
    decreases |t|
  {
    if t == [] {
      assert [c] + t == [c];
    } else if IsSpace(t[|t| - 1]) {
      var u := t[..|t| - 1];
      assert ([c] + t)[..|[c] + t| - 1] == [c] + u;
      RStripCons(c, u);
    } else {
      assert ([c] + t)[|[c] + t| - 1] == t[|t| - 1];
    }
  }

  /** A string starting with a non-space is its own `lstrip`, also after `rstrip`. */
  lemma LStripNonSpaceHead(s: string)
    requires s != [] && !IsSpace(s[0])
    ensures LStrip(s) == s
    ensures LStrip(RStrip(s)) == RStrip(s)
  {
    var m := RStrip(s);
    if m != [] {
      assert m[0] == s[0];
    }
  }

  /** `lstrip` drops a leading white space character. */
  lemma LStripSpaceHead(c: char, m: string)
    requires IsSpace(c)
    ensures LStrip([c] + m) == LStrip(m)
  {
    assert ([c] + m)[1..] == m;
  }

  /** The two orders in which the composer chains `lstrip` and `rstrip` agree. */
  lemma {:induction false} StripOrder(s: string)
    ensures LStrip(RStrip(s)) == Strip(s)
    decreases |s|
  {
    if s == [] {
    } else if !IsSpace(s[0]) {
      LStripNonSpaceHead(s);
    } else {
      var t := s[1..];
      assert s == [s[0]] + t;
      assert LStrip(s) == LStrip(t);
      StripOrder(t);
      RStripCons(s[0], t);
      if RStrip(t) != [] {
        LStripSpaceHead(s[0], RStrip(t));
      }
    }
  }

  /** A string with no white space at either end is its own strip. */
  lemma StripTrimmed(s: string)
    requires s == [] || (!IsSpace(s[0]) && !IsSpace(s[|s| - 1]))
    ensures Strip(s) == s
  {
  }

  /** White space at the front does not change the strip. */
  lemma StripLeadingSpace(c: char, s: string)
    requires IsSpace(c)
    ensures Strip([c] + s) == Strip(s)
  {
    assert ([c] + s)[1..] == s;
  }

  /** Index of the first occurrence of `c` in `s`. */
  function CharIndex(s: string, c: char): (r: nat)
    requires c in s
    ensures r < |s| && s[r] == c && c !in s[..r]
  {
    if s[0] == c then 0 else
      assert s == [s[0]] + s[1..];
      1 + CharIndex(s[1..], c)
  }

  /** `sep.join(parts)` for a one-character separator. */
  function Join(parts: seq<string>, sep: char): string
  {
    if |parts| == 0 then []
    else if |parts| == 1 then parts[0]
    else parts[0] + [sep] + Join(parts[1..], sep)
  }

  /** `s.split(sep)` for a one-character separator: at least one field, no field holds
      the separator, and joining the fields with it gives `s` back. */
  function Split(s: string, sep: char): (r: seq<string>)
    ensures |r| >= 1
    ensures forall k :: 0 <= k < |r| ==> sep !in r[k]
    ensures Join(r, sep) == s
    decreases |s|
  {
    if sep !in s then [s]
    else
      var i := CharIndex(s, sep);
      var rest := Split(s[i + 1..], sep);
      assert ([s[..i]] + rest)[1..] == rest;
      assert s == s[..i] + [sep] + s[i + 1..];
      [s[..i]] + rest
  }

  /** Splitting fields that were joined with a separator they do not contain gives the fields back. */
  lemma {:induction false} SplitJoin(parts: seq<string>, sep: char)
    requires |parts| >= 1
    requires forall k :: 0 <= k < |parts| ==> sep !in parts[k]
    ensures Split(Join(parts, sep), sep) == parts
    decreases |parts|
  {
    if |parts| > 1 {
      var p0, rest := parts[0], Join(parts[1..], sep);
      var s := p0 + [sep] + rest;
      assert s[|p0|] == sep;
      assert s[..|p0|] == p0;
      assert s[|p0| + 1..] == rest;
      assert sep !in s[..|p0|];
      assert CharIndex(s, sep) == |p0|;
      SplitJoin(parts[1..], sep);
      assert [p0] + parts[1..] == parts;
    }
  }

  /** The string `t` occurs in `s` at index `q`. */
  predicate OccursAt(s: string, t: string, q: int) {
    0 <= q && q + |t| <= |s| && s[q..q + |t|] == t
  }

  function FindFrom(s: string, t: string, from: nat): (r: int)
    requires from <= |s|
    ensures r == -1 || (from <= r && OccursAt(s, t, r))
    ensures forall q :: from <= q && (r == -1 || q < r) ==> !OccursAt(s, t, q)
    decreases |s| - from
  {
    if from + |t| > |s| then -1
    else if s[from..from + |t|] == t then from
    else FindFrom(s, t, from + 1)
  }

  /** `s.find(t)`: the first index where `t` occurs in `s`, or -1 when it does not occur;
      `s.index(t)` is the same index, and raises where `find` gives -1. */
  function Find(s: string, t: string): (r: int)
    ensures r == -1 || OccursAt(s, t, r)
    ensures forall q :: 0 <= q && (r == -1 || q < r) ==> !OccursAt(s, t, q)
  {
    FindFrom(s, t, 0)
  }

  /** A Python slice bound resolved against a length `n`: negative bounds count from the end,
      and every bound is clamped to `0..n`. */
  function ClampBound(k: int, n: nat): (r: nat)
    ensures r <= n
    ensures 0 <= k <= n ==> r == k
    ensures k > n ==> r == n
    ensures -(n as int) <= k < 0 ==> r == n + k
    ensures k < -(n as int) ==> r == 0
  {
    if k < 0 then (if n + k < 0 then 0 else n + k)
    else if k > n then n
    else k
  }

  /** `s[a:b]` with Python's bound rules, stated for a start that is not negative (the
      composer slices from 0 or 1): an end past the string stops at its end, a negative
      end counts from the end, and an empty range gives the empty string. */
  function Slice(s: string, a: int, b: int): (r: string)
    ensures 0 <= a <= b <= |s| ==> r == s[a..b]
    ensures 0 <= a <= |s| < b ==> r == s[a..]
    ensures -(|s| as int) <= b < 0 && 0 <= a <= |s| + b ==> r == s[a..|s| + b]
    ensures 0 <= a && b < 0 && (b < -(|s| as int) || a > |s| + b) ==> r == []
    ensures 0 <= b <= a ==> r == []
    ensures |s| < a ==> r == []
  {
    var i, j := ClampBound(a, |s|), ClampBound(b, |s|);
    if i < j then s[i..j] else []
  }
}
