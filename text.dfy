/**
 * The Python string operations the program relies on, each with Python's
 * semantics: `str.isspace`, `strip`, `find`, `rfind`, `in`, `startswith`,
 * `endswith`, `join` and slicing with clamped bounds.
 */
module Text {

  /** `c.isspace()` in Python: the Unicode white-space characters. */
  predicate IsSpace(c: char) {
    || c == ' '
    || ('\t' <= c <= '\r')
    || ('\U{1C}' <= c <= '\U{1F}')
    || c == '\U{85}' || c == '\U{A0}' || c == '\U{1680}'
    || ('\U{2000}' <= c <= '\U{200A}')
    || c == '\U{2028}' || c == '\U{2029}' || c == '\U{202F}'
    || c == '\U{205F}' || c == '\U{3000}'
  }

  predicate AllSpace(s: string) {
    forall i :: 0 <= i < |s| ==> IsSpace(s[i])
  }

  /** Neither end of `s` is white space: what `strip` leaves behind. */
  predicate IsStripped(s: string) {
    s == [] || (!IsSpace(s[0]) && !IsSpace(s[|s| - 1]))
  }

  /** `sub` occurs in `s` starting at index `k`. */
  predicate MatchAt(s: string, sub: string, k: int) {
    0 <= k && k + |sub| <= |s| && s[k..k + |sub|] == sub
  }

  /** An occurrence of `a + b` is an occurrence of `a` followed by one of `b`. */
  lemma MatchAtConcat(s: string, a: string, b: string, k: int)
    requires MatchAt(s, a + b, k)
    ensures MatchAt(s, a, k) && MatchAt(s, b, k + |a|)
  {
    assert s[k..k + |a|] == (a + b)[..|a|];
    assert s[k + |a|..k + |a| + |b|] == (a + b)[|a|..];
  }

  /** `sub` occurs somewhere in `s`. */
  ghost predicate IsSubstring(sub: string, s: string) {
    exists k :: MatchAt(s, sub, k)
  }

  /** The end of the white-space run starting at `i`: the first index at or after `i` that is not white space, or `|s|`. */
  function SpaceRunEnd(s: string, i: nat): (k: nat)
    requires i <= |s|
    ensures i <= k <= |s|
    ensures forall j :: i <= j < k ==> IsSpace(s[j])
    ensures k == |s| || !IsSpace(s[k])
    decreases |s| - i
  {
    if i < |s| && IsSpace(s[i]) then SpaceRunEnd(s, i + 1) else i
  }

  /** The start of the white-space run ending at `j`: one past the last index before `j` that is not white space, or 0. */
  function SpaceRunStart(s: string, j: nat): (k: nat)
    requires j <= |s|
    ensures k <= j
    ensures forall m :: k <= m < j ==> IsSpace(s[m])
    ensures k == 0 || !IsSpace(s[k - 1])
  {
    if j > 0 && IsSpace(s[j - 1]) then SpaceRunStart(s, j - 1) else j
  }

  /** How many white-space characters `strip` removes from the front of `s`. */
  function LeadingSpace(s: string): (n: nat)
    ensures n <= |s|
  {
    SpaceRunEnd(s, 0)
  }

  /** `s.strip()`: the part of `s` between its leading and its trailing white space. */
  function Strip(s: string): (r: string)
    ensures IsStripped(r)
    ensures LeadingSpace(s) + |r| <= |s| && r == s[LeadingSpace(s)..LeadingSpace(s) + |r|]
    ensures AllSpace(s[..LeadingSpace(s)]) && AllSpace(s[LeadingSpace(s) + |r|..])
  {
    var k := LeadingSpace(s);
    var e := SpaceRunStart(s, |s|);
    if k == |s| then [] else s[k..e]
  }

  /** What `strip` leaves is a piece of the original string. */
  lemma StripIsSubstring(s: string)
    ensures IsSubstring(Strip(s), s)
  {
    assert MatchAt(s, Strip(s), LeadingSpace(s));
  }

  /** `s.find(sub, start)`: the lowest index at or after `start` where `sub` occurs, or -1. */
  function Find(s: string, sub: string, start: nat): (r: int)
    ensures r == -1 || (start <= r && MatchAt(s, sub, r))
    ensures r == -1 ==> forall k :: start <= k ==> !MatchAt(s, sub, k)
    ensures r != -1 ==> forall k :: start <= k < r ==> !MatchAt(s, sub, k)
    decreases |s| - start
  {
    if start + |sub| > |s| then -1
    else if s[start..start + |sub|] == sub then start
    else Find(s, sub, start + 1)
  }

  /** The highest index at or below `k` where `sub` occurs, or -1. */
  function FindLastFrom(s: string, sub: string, k: int): (r: int)
    ensures r == -1 || (r <= k && MatchAt(s, sub, r))
    ensures forall j :: r < j <= k ==> !MatchAt(s, sub, j)
    decreases k + 1
  {
    if k < 0 then -1
    else if MatchAt(s, sub, k) then k
    else FindLastFrom(s, sub, k - 1)
  }

  /** `s.rfind(sub)`: the highest index where `sub` occurs, or -1. */
  function RFind(s: string, sub: string): (r: int)
    ensures r == -1 || MatchAt(s, sub, r)
    ensures forall j :: r < j ==> !MatchAt(s, sub, j)
  {
    FindLastFrom(s, sub, |s| - |sub|)
  }

  /** `sub in s`. */
  predicate Contains(s: string, sub: string) {
    Find(s, sub, 0) != -1
  }

  lemma ContainsIff(s: string, sub: string)
    ensures Contains(s, sub) <==> IsSubstring(sub, s)
  {
  }

  predicate StartsWith(s: string, prefix: string) {
    |prefix| <= |s| && s[..|prefix|] == prefix
  }

  /** A string starts with anything it is built from. */
  lemma PrefixStartsWith(p: string, s: string)
    ensures StartsWith(p + s, p)
  {
    assert (p + s)[..|p|] == p;
  }

  /** Taking one more element of a sequence appends that element. */
  lemma TakeSnoc<T>(s: seq<T>, n: nat)
    requires n < |s|
    ensures s[..n + 1] == s[..n] + [s[n]]
  {
  }

  /** Appending is associative; stated once so that longer proofs need not rediscover it. */
  lemma AppendAssoc(a: string, b: string, c: string)
    ensures (a + b) + c == a + (b + c)
  {
  }

  /** A string ends with anything it is closed by. */
  lemma SuffixEndsWith(s: string, x: string)
    ensures EndsWith(s + x, x)
  {
    assert (s + x)[|s|..] == x;
  }

  /** Appending keeps a prefix. */
  lemma StartsWithMore(s: string, p: string, x: string)
    requires StartsWith(s, p)
    ensures StartsWith(s + x, p)
  {
    assert (s + x)[..|p|] == s[..|p|];
  }

  /** A prefix of the rest extends a prefix. */
  lemma StartsWithExtend(p: string, s: string, q: string)
    requires StartsWith(s, q)
    ensures StartsWith(p + s, p + q)
  {
    assert (p + s)[..|p + q|] == p + s[..|q|];
  }

  predicate EndsWith(s: string, suffix: string) {
    |suffix| <= |s| && s[|s| - |suffix|..] == suffix
  }

  /** `sep.join(items)`. */
  function Join(sep: string, items: seq<string>): string
  {
    if |items| == 0 then ""
    else if |items| == 1 then items[0]
    else items[0] + sep + Join(sep, items[1..])
  }

  /** `f` of each of the first `n` items, one after the other: what a loop appending `f(item)` per round holds after `n` rounds. */
  function ConcatMap<T>(items: seq<T>, n: nat, f: T -> string): string
    requires n <= |items|
  {
    if n == 0 then "" else ConcatMap(items, n - 1, f) + f(items[n - 1])
  }

  /** How many line breaks `s` holds. */
  function LineBreaks(s: string): nat {
    multiset(s)['\n']
  }

  lemma LineBreaksAppend(a: string, b: string)
    ensures LineBreaks(a + b) == LineBreaks(a) + LineBreaks(b)
  {
    assert multiset(a + b) == multiset(a) + multiset(b);
  }

  /** `s[:n]` for `n >= 0`: at most the first `n` characters. */
  function Head(s: string, n: nat): (r: string)
    ensures |r| == if n <= |s| then n else |s|
    ensures StartsWith(s, r)
  {
    if n <= |s| then s[..n] else s
  }

  /** `s[-n:]`: at most the last `n` characters (for `n == 0` Python gives all of `s`, so that case is excluded). */
  function Tail(s: string, n: nat): (r: string)
    requires n > 0
    ensures |r| == if n <= |s| then n else |s|
    ensures EndsWith(s, r)
  {
    if n <= |s| then s[|s| - n..] else s
  }

  /** `"=" * n`. */
  function Repeat(c: char, n: nat): (r: string)
    ensures |r| == n && forall i :: 0 <= i < n ==> r[i] == c
  {
    seq(n, _ => c)
  }

  /** ASCII case folding. */
  function LowerChar(c: char): char {
    if 'A' <= c <= 'Z' then (c as int + 32) as char else c
  }

  /**
   * `s.lower()` restricted to ASCII letters; every comparison the program makes
   * after lowering is against ASCII words, for which this is exact.
   */
  function Lower(s: string): (r: string)
    ensures |r| == |s|
  {
    seq(|s|, i requires 0 <= i < |s| => LowerChar(s[i]))
  }

  // ---------------------------------------------------------------------------
  // Facts about Join and Concat

  /** `join` seen from its last item: the separator goes only between items. */
  lemma {:induction false} JoinSnoc(sep: string, items: seq<string>, x: string)
    ensures Join(sep, items + [x]) == if items == [] then x else Join(sep, items) + sep + x
  {
    if |items| == 0 {
      assert items + [x] == [x];
    } else if |items| == 1 {
      assert (items + [x])[1..] == [x];
    } else {
      assert (items + [x])[1..] == items[1..] + [x];
      JoinSnoc(sep, items[1..], x);
    }
  }

  /** What the first `n` items give depends on those items only. */
  lemma {:induction false} ConcatMapOfPrefix<T>(a: seq<T>, b: seq<T>, n: nat, f: T -> string)
    requires n <= |a|
    ensures ConcatMap(a + b, n, f) == ConcatMap(a, n, f)
  {
    if n > 0 {
      ConcatMapOfPrefix(a, b, n - 1, f);
    }
  }

  /** Two runs of items give the first run's text, then the second's: items keep their order. */
  lemma {:induction false} ConcatMapInOrder<T>(a: seq<T>, b: seq<T>, n: nat, f: T -> string)
    requires n <= |b|
    ensures ConcatMap(a + b, |a| + n, f) == ConcatMap(a, |a|, f) + ConcatMap(b, n, f)
  {
    if n == 0 {
      ConcatMapOfPrefix(a, b, |a|, f);
    } else {
      ConcatMapInOrder(a, b, n - 1, f);
      assert (a + b)[|a| + n - 1] == b[n - 1];
    }
  }

  /** Item `i`'s text sits between what the items before it and the items after it give. */
  lemma ConcatMapSplit<T>(items: seq<T>, i: nat, f: T -> string)
    requires i < |items|
    ensures ConcatMap(items, |items|, f)
      == ConcatMap(items, i, f) + f(items[i]) + ConcatMap(items[i + 1..], |items| - i - 1, f)
  {
    var a, b := items[..i + 1], items[i + 1..];
    assert a + b == items;
    ConcatMapInOrder(a, b, |b|, f);
    assert a == items[..i] + [items[i]];
    ConcatMapOfPrefix(items[..i], [items[i]], i, f);
    ConcatMapOfPrefix(items[..i], items[i..], i, f);
    assert items[..i] + items[i..] == items;
  }

  /** When each item gives one line, `n` items give `n` line breaks. */
  lemma {:induction false} ConcatMapLineBreaks<T>(items: seq<T>, n: nat, f: T -> string)
    requires n <= |items|
    requires forall i :: 0 <= i < n ==> LineBreaks(f(items[i])) == 1
    ensures LineBreaks(ConcatMap(items, n, f)) == n
  {
    if n > 0 {
      ConcatMapLineBreaks(items, n - 1, f);
      assert multiset(ConcatMap(items, n, f)) == multiset(ConcatMap(items, n - 1, f)) + multiset(f(items[n - 1]));
    }
  }

  // ---------------------------------------------------------------------------
  // Facts about Strip

  /** The run-end characterisation: `k` ends the run from `i` when all before it is space and it is not. */
  lemma SpaceRunEndIs(s: string, i: nat, k: nat)
    requires i <= k <= |s|
    requires forall j :: i <= j < k ==> IsSpace(s[j])
    requires k == |s| || !IsSpace(s[k])
    ensures SpaceRunEnd(s, i) == k
  {
  }

  /** The run-start characterisation, from the other end. */
  lemma SpaceRunStartIs(s: string, j: nat, k: nat)
    requires k <= j <= |s|
    requires forall m :: k <= m < j ==> IsSpace(s[m])
    requires k == 0 || !IsSpace(s[k - 1])
    ensures SpaceRunStart(s, j) == k
  {
  }

  /** A string that is already stripped is its own strip. */
  lemma StripStripped(s: string)
    requires IsStripped(s)
    ensures Strip(s) == s
  {
    if s != [] {
      SpaceRunEndIs(s, 0, 0);
      SpaceRunStartIs(s, |s|, |s|);
    }
  }

  /** Applying `strip` twice is the same as applying it once. */
  lemma StripIdempotent(s: string)
    ensures Strip(Strip(s)) == Strip(s)
  {
    StripStripped(Strip(s));
  }

  /** A string made of white space strips to nothing. */
  lemma AllSpaceStrip(s: string)
    requires AllSpace(s)
    ensures Strip(s) == []
  {
    SpaceRunEndIs(s, 0, |s|);
  }

  /** Stripping white-space padding around a stripped string gives that string back. */
  lemma StripPadding(a: string, b: string, c: string)
    requires AllSpace(a) && AllSpace(c) && IsStripped(b)
    ensures Strip(a + b + c) == b
  {
    var w := a + b + c;
    if b == [] {
      assert AllSpace(w) by {
        forall j | 0 <= j < |w|
          ensures IsSpace(w[j])
        {
          if j < |a| { assert w[j] == a[j]; } else { assert w[j] == c[j - |a|]; }
        }
      }
      AllSpaceStrip(w);
    } else {
      forall j | 0 <= j < |a|
        ensures IsSpace(w[j])
      {
        assert w[j] == a[j];
      }
      assert w[|a|] == b[0];
      SpaceRunEndIs(w, 0, |a|);
      forall m | |a| + |b| <= m < |w|
        ensures IsSpace(w[m])
      {
        assert w[m] == c[m - |a| - |b|];
      }
      assert w[|a| + |b| - 1] == b[|b| - 1];
      SpaceRunStartIs(w, |w|, |a| + |b|);
      assert w[|a|..|a| + |b|] == b;
    }
  }

  /** Trailing white space does not change what `strip` returns. */
  lemma StripSpaceSuffix(x: string, c: string)
    requires AllSpace(c)
    ensures Strip(x + c) == Strip(x)
  {
    var w := x + c;
    var k := LeadingSpace(x);
    if k == |x| {
      assert AllSpace(w) by {
        forall j | 0 <= j < |w|
          ensures IsSpace(w[j])
        {
          if j < |x| { assert w[j] == x[j]; } else { assert w[j] == c[j - |x|]; }
        }
      }
      AllSpaceStrip(w);
    } else {
      forall j | 0 <= j < k
        ensures IsSpace(w[j])
      {
        assert w[j] == x[j];
      }
      assert w[k] == x[k];
      SpaceRunEndIs(w, 0, k);
      var e := SpaceRunStart(x, |x|);
      forall m | e <= m < |w|
        ensures IsSpace(w[m])
      {
        if m < |x| { assert w[m] == x[m]; } else { assert w[m] == c[m - |x|]; }
      }
      assert w[e - 1] == x[e - 1];
      SpaceRunStartIs(w, |w|, e);
      assert w[k..e] == x[k..e];
    }
  }

  /** `strip` keeps a prefix that begins and ends with a visible character. */
  lemma StripKeepsPrefix(p: string, x: string)
    requires p != [] && !IsSpace(p[0]) && !IsSpace(p[|p| - 1])
    ensures StartsWith(Strip(p + x), p)
  {
    var w := p + x;
    assert w[0] == p[0];
    SpaceRunEndIs(w, 0, 0);
    var e := SpaceRunStart(w, |w|);
    assert w[|p| - 1] == p[|p| - 1];
    assert w[..e][..|p|] == p;
  }

  // ---------------------------------------------------------------------------
  // Facts about Find and RFind

  /** `find` returns the first occurrence: an occurrence with none before it. */
  lemma FindIs(s: string, sub: string, start: nat, k: nat)
    requires start <= k && MatchAt(s, sub, k)
    requires forall j :: start <= j < k ==> !MatchAt(s, sub, j)
    ensures Find(s, sub, start) == k
  {
  }

  /** `rfind` returns the last occurrence: an occurrence with none after it. */
  lemma RFindIs(s: string, sub: string, k: nat)
    requires MatchAt(s, sub, k)
    requires forall j :: k < j ==> !MatchAt(s, sub, j)
    ensures RFind(s, sub) == k
  {
  }
}
