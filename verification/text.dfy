/**
 * The string primitives the converter is built from, with Python's meaning:
 * `str.strip`, `str.startswith`, `str.find`, `str.rfind`, `str.count`,
 * `str.split(sep)`, `str.split()[0]`, slicing with negative bounds, and `c * n`.
 * Whitespace is space, tab, line feed and carriage return.
 */
module Text {
  import opened Wrappers

  predicate IsSpace(c: char) {
    c == ' ' || c == '\t' || c == '\n' || c == '\r'
  }

  predicate AllSpace(s: string) {
    forall k :: 0 <= k < |s| ==> IsSpace(s[k])
  }

  predicate StartsWith(s: string, p: string) {
    |p| <= |s| && s[..|p|] == p
  }

  predicate EndsWith(s: string, p: string) {
    |p| <= |s| && s[|s| - |p|..] == p
  }

  /** `sub` occurs in `s` starting at index `i`. */
  predicate OccursAt(s: string, sub: string, i: int) {
    0 <= i && i + |sub| <= |s| && s[i..i + |sub|] == sub
  }

  /** `s.find(sub, from)`: the first occurrence at or after `from`, or -1. */
  function FindFrom(s: string, sub: string, from: nat): (r: int)
    ensures r == -1 || (from <= r && OccursAt(s, sub, r))
    decreases |s| - from
  {
    if from + |sub| > |s| then -1
    else if OccursAt(s, sub, from) then from
    else FindFrom(s, sub, from + 1)
  }

  /** `find` returns the first occurrence: none lies between `from` and the result. */
  lemma {:induction false} FindFromFirst(s: string, sub: string, from: nat)
    ensures FindFrom(s, sub, from) == -1 ==> forall i :: from <= i ==> !OccursAt(s, sub, i)
    ensures FindFrom(s, sub, from) != -1 ==> forall i :: from <= i < FindFrom(s, sub, from) ==> !OccursAt(s, sub, i)
    decreases |s| - from
  {
    if from + |sub| <= |s| && !OccursAt(s, sub, from) {
      FindFromFirst(s, sub, from + 1);
    }
  }

  /** `s.find(sub)`. */
  function Find(s: string, sub: string): int {
    FindFrom(s, sub, 0)
  }

  /** `sub in s`. */
  predicate Contains(s: string, sub: string) {
    Find(s, sub) != -1
  }

  lemma ContainsIff(s: string, sub: string)
    ensures Contains(s, sub) <==> exists i :: OccursAt(s, sub, i)
  {
    FindFromFirst(s, sub, 0);
  }

  /** The last occurrence of `sub` starting at or before `upto`, or -1. */
  function FindLastFrom(s: string, sub: string, upto: int): (r: int)
    ensures r == -1 || (0 <= r <= upto && OccursAt(s, sub, r))
    decreases upto + 1
  {
    if upto < 0 then -1
    else if OccursAt(s, sub, upto) then upto
    else FindLastFrom(s, sub, upto - 1)
  }

  /** No occurrence lies after the result and at or before `upto`. */
  lemma {:induction false} FindLastFromLast(s: string, sub: string, upto: int)
    ensures FindLastFrom(s, sub, upto) == -1 ==> forall i :: i <= upto ==> !OccursAt(s, sub, i)
    ensures FindLastFrom(s, sub, upto) != -1 ==> forall i :: FindLastFrom(s, sub, upto) < i <= upto ==> !OccursAt(s, sub, i)
    decreases upto + 1
  {
    if upto >= 0 && !OccursAt(s, sub, upto) {
      FindLastFromLast(s, sub, upto - 1);
    }
  }

  /** `s.rfind(sub)`: the last occurrence of `sub` in `s`, or -1. */
  function RFind(s: string, sub: string): (r: int)
    ensures r == -1 || OccursAt(s, sub, r)
  {
    FindLastFrom(s, sub, |s|)
  }

  /** No occurrence lies after what `rfind` returns. */
  lemma RFindLast(s: string, sub: string)
    ensures forall i :: RFind(s, sub) < i ==> !OccursAt(s, sub, i)
  {
    FindLastFromLast(s, sub, |s|);
  }

  /** `s.count(sub)` for a non-empty `sub`: non-overlapping occurrences, left to right. */
  function Count(s: string, sub: string): nat
    requires |sub| > 0
    decreases |s|
  {
    var i := Find(s, sub);
    if i == -1 then 0 else 1 + Count(s[i + |sub|..], sub)
  }

  /** `s.split(sep)` for a non-empty `sep`. */
  function SplitOn(s: string, sep: string): (parts: seq<string>)
    requires |sep| > 0
    ensures |parts| >= 1
    decreases |s|
  {
    var i := Find(s, sep);
    if i == -1 then [s] else [s[..i]] + SplitOn(s[i + |sep|..], sep)
  }

  /** Splitting yields one more part than there are separators. */
  lemma {:induction false} SplitCount(s: string, sep: string)
    requires |sep| > 0
    ensures |SplitOn(s, sep)| == Count(s, sep) + 1
    decreases |s|
  {
    var i := Find(s, sep);
    if i != -1 {
      SplitCount(s[i + |sep|..], sep);
    }
  }

  /** `s.lstrip()`. */
  function LStrip(s: string): (r: string)
    ensures |r| <= |s| && r == s[|s| - |r|..]
    ensures AllSpace(s[..|s| - |r|])
    ensures r == [] || !IsSpace(r[0])
    decreases |s|
  {
    if |s| > 0 && IsSpace(s[0]) then
      var r := LStrip(s[1..]);
      var n := |s| - |r|;
      assert r == s[n..] by {
        assert s[1..][n - 1..] == s[n..];
      }
      assert AllSpace(s[..n]) by {
        forall k | 0 <= k < n ensures IsSpace(s[..n][k]) {
          if k > 0 {
            assert s[..n][k] == s[1..][..n - 1][k - 1];
          }
        }
      }
      r
    else s
  }

  /** `s.rstrip()`. */
  function RStrip(s: string): (r: string)
    ensures |r| <= |s| && r == s[..|r|]
    ensures AllSpace(s[|r|..])
    ensures r == [] || !IsSpace(r[|r| - 1])
    decreases |s|
  {
    if |s| > 0 && IsSpace(s[|s| - 1]) then
      var t := s[..|s| - 1];
      var r := RStrip(t);
      assert r == s[..|r|] by {
        assert t[..|r|] == s[..|r|];
      }
      assert AllSpace(s[|r|..]) by {
        forall k | 0 <= k < |s| - |r| ensures IsSpace(s[|r|..][k]) {
          if k < |t| - |r| {
            assert s[|r|..][k] == t[|r|..][k];
          }
        }
      }
      r
    else s
  }

  /** `s.strip()`: what is left once leading and trailing whitespace are removed. */
  function Strip(s: string): (r: string)
    ensures exists a, b :: 0 <= a <= b <= |s| && r == s[a..b] && AllSpace(s[..a]) && AllSpace(s[b..])
    ensures r == [] || (!IsSpace(r[0]) && !IsSpace(r[|r| - 1]))
  {
    var l := LStrip(s);
    var r := RStrip(l);
    StripSlice(s, l, r);
    r
  }

  /** A prefix `r` of a suffix `l` of `s` is a slice of `s`, and what follows `r` in `l` follows it in `s`. */
  lemma StripSlice(s: string, l: string, r: string)
    requires |l| <= |s| && l == s[|s| - |l|..]
    requires |r| <= |l| && r == l[..|r|] && AllSpace(l[|r|..])
    ensures r == s[|s| - |l|..|s| - |l| + |r|] && AllSpace(s[|s| - |l| + |r|..])
  {
    var a := |s| - |l|;
    assert l[|r|..] == s[a + |r|..];
  }

  /** The first word of `s`: `s.split()[0]`, or None where Python raises IndexError. */
  function FirstWord(s: string): (r: Option<string>)
    ensures r.None? <==> AllSpace(s)
    ensures r.Some? ==> r.value != [] && (forall k :: 0 <= k < |r.value| ==> !IsSpace(r.value[k]))
  {
    var t := LStrip(s);
    if t == [] then None else Some(TakeWord(t))
  }

  /** The leading run of non-space characters of `s`. */
  function TakeWord(s: string): (r: string)
    ensures StartsWith(s, r)
    ensures forall k :: 0 <= k < |r| ==> !IsSpace(r[k])
    ensures |r| == |s| || IsSpace(s[|r|])
    decreases |s|
  {
    if |s| == 0 || IsSpace(s[0]) then [] else [s[0]] + TakeWord(s[1..])
  }

  /** `c * n` in Python: `n` copies of `c`, and none when `n <= 0`. */
  function Repeat(c: char, n: int): (r: string)
    ensures |r| == (if n <= 0 then 0 else n)
    ensures forall k :: 0 <= k < |r| ==> r[k] == c
    decreases n
  {
    if n <= 0 then [] else [c] + Repeat(c, n - 1)
  }

  /** Python's bound normalisation for a slice of a sequence of length `len`. */
  function SliceBound(i: int, len: nat): (r: nat)
    ensures r <= len
    ensures 0 <= i <= len ==> r == i
    ensures i < 0 ==> r == (if i + len < 0 then 0 else i + len)
  {
    if i < 0 then (if i + len < 0 then 0 else i + len)
    else if i > len then len
    else i
  }

  /** `s[a:b]` in Python, where a negative bound counts from the end. */
  function PySlice(s: string, a: int, b: int): (r: string)
    ensures 0 <= a <= b <= |s| ==> r == s[a..b]
    ensures |r| <= |s|
  {
    var i := SliceBound(a, |s|);
    var j := SliceBound(b, |s|);
    if i < j then s[i..j] else []
  }

  /** An occurrence with none before it is what `find` returns. */
  lemma FindAt(s: string, sub: string, i: nat)
    requires OccursAt(s, sub, i)
    requires forall j :: 0 <= j < i ==> !OccursAt(s, sub, j)
    ensures Find(s, sub) == i
  {
    FindFromFirst(s, sub, 0);
  }

  /** An occurrence at or after `from` with none before it is what `find` from `from` returns. */
  lemma FindFromAt(s: string, sub: string, from: nat, i: nat)
    requires from <= i && OccursAt(s, sub, i)
    requires forall j :: from <= j < i ==> !OccursAt(s, sub, j)
    ensures FindFrom(s, sub, from) == i
  {
    FindFromFirst(s, sub, from);
  }

  /** A character absent from `s` after `from` is not found from there. */
  lemma {:induction false} FindCharAbsent(s: string, c: char, from: nat)
    requires forall j :: from <= j < |s| ==> s[j] != c
    ensures FindFrom(s, [c], from) == -1
    decreases |s| - from
  {
    if from + 1 <= |s| {
      assert s[from..from + 1] == [s[from]];
      FindCharAbsent(s, c, from + 1);
    }
  }

  /** A character absent from the tail of `a` and from `b` is not found in `a + b` from there. */
  lemma FindCharAbsentConcat(a: string, b: string, c: char, from: nat)
    requires from <= |a|
    requires forall j :: from <= j < |a| ==> a[j] != c
    requires forall j :: 0 <= j < |b| ==> b[j] != c
    ensures FindFrom(a + b, [c], from) == -1
  {
    forall j | from <= j < |a + b| ensures (a + b)[j] != c {
      if j >= |a| {
        assert (a + b)[j] == b[j - |a|];
      }
    }
    FindCharAbsent(a + b, c, from);
  }

  /** With no whitespace at either end, stripping changes nothing. */
  lemma StripUnchanged(s: string)
    requires s == [] || (!IsSpace(s[0]) && !IsSpace(s[|s| - 1]))
    ensures Strip(s) == s
  {
    assert LStrip(s) == s;
  }

  /** Right-stripping keeps every character up to the last non-space one. */
  lemma {:induction false} RStripKeeps(s: string, k: nat)
    requires k < |s| && !IsSpace(s[k])
    ensures |RStrip(s)| > k
    decreases |s|
  {
    if IsSpace(s[|s| - 1]) {
      RStripKeeps(s[..|s| - 1], k);
    }
  }

  /** An occurrence with none after it is what `rfind` returns. */
  lemma RFindAt(s: string, sub: string, i: nat)
    requires OccursAt(s, sub, i)
    requires forall j :: i < j ==> !OccursAt(s, sub, j)
    ensures RFind(s, sub) == i
  {
    RFindLast(s, sub);
  }

  /** `s` cannot start with `q` when they differ at position `k`. */
  lemma Differs(s: string, q: string, k: nat)
    requires k < |s| && k < |q| && s[k] != q[k]
    ensures !StartsWith(s, q)
  {
  }

  /** Two prefixes that differ at some position cannot both start `s`. */
  lemma PrefixClash(s: string, p: string, q: string, k: nat)
    requires StartsWith(s, p) && k < |p| && k < |q| && p[k] != q[k]
    ensures !StartsWith(s, q)
  {
    assert s[k] == p[k];
    Differs(s, q, k);
  }

  /** An occurrence in `a` is an occurrence in `a + b`. */
  lemma OccursLeft(a: string, b: string, x: string, i: int)
    requires OccursAt(a, x, i)
    ensures OccursAt(a + b, x, i)
  {
    assert (a + b)[i..i + |x|] == a[i..i + |x|];
  }

  /** An occurrence in `b` is an occurrence in `a + b`, `|a|` further on. */
  lemma OccursRight(a: string, b: string, x: string, i: int)
    requires OccursAt(b, x, i)
    ensures OccursAt(a + b, x, |a| + i)
  {
    assert (a + b)[|a| + i..|a| + i + |x|] == b[i..i + |x|];
  }

  /** An occurrence that lies within `t[lo..hi]` is an occurrence in that slice. */
  lemma OccursSlice(t: string, lo: int, hi: int, x: string, i: int)
    requires OccursAt(t, x, i) && 0 <= lo <= i && i + |x| <= hi <= |t|
    ensures OccursAt(t[lo..hi], x, i - lo)
  {
    SliceOfSlice(t, lo, hi, i - lo, i - lo + |x|);
  }

  /** The characters of an occurrence. */
  lemma OccursChars(t: string, x: string, i: int)
    requires OccursAt(t, x, i)
    ensures forall m :: 0 <= m < |x| ==> t[i + m] == x[m]
  {
    forall m | 0 <= m < |x| ensures t[i + m] == x[m] {
      assert t[i..i + |x|][m] == t[i + m];
    }
  }

  /** A slice of a slice is a slice of the whole. */
  lemma SliceOfSlice<T>(s: seq<T>, a: int, b: int, c: int, d: int)
    requires 0 <= a <= b <= |s| && 0 <= c <= d <= b - a
    ensures s[a..b][c..d] == s[a + c..a + d]
  {
    var x, y := s[a..b][c..d], s[a + c..a + d];
    forall m | 0 <= m < |x| ensures x[m] == y[m] {
      assert x[m] == s[a..b][c + m];
    }
  }

  lemma EmptyLeft<T>(a: seq<T>, b: seq<T>)
    requires a == []
    ensures a + b == b
  {
  }

  lemma EmptyRight<T>(a: seq<T>)
    ensures a + [] == a
  {
  }

  lemma ConcatAssoc<T>(a: seq<T>, b: seq<T>, c: seq<T>)
    ensures (a + b) + c == a + (b + c)
  {
  }

  function Max(a: int, b: int): int {
    if a < b then b else a
  }
}
