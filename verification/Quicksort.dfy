/** `Qsort` on string pointers (1-overview/2-sortls/Qsort.c), and the strcmp order it sorts by. */
module Quicksort {

  type Byte = b: nat | 0 < b < 256 witness 1

  /** The bytes of a C string, without its terminating NUL. */
  type ByteString = seq<Byte>

  /** A `char *`; what it points at is given by a function. */
  type Ptr = nat

  function Strcmp(a: ByteString, b: ByteString): int {
    if a == [] && b == [] then 0
    else if a == [] then -1
    else if b == [] then 1
    else if a[0] != b[0] then a[0] - b[0]
    else Strcmp(a[1..], b[1..])
  }

  /** Lexicographic order: at the first difference, `a` has ended or has the smaller byte. */
  ghost predicate LexBelowAt(a: ByteString, b: ByteString, k: nat) {
    && k <= |a| && k < |b| && a[..k] == b[..k]
    && (k < |a| ==> a[k] < b[k])
  }

  ghost predicate LexBelow(a: ByteString, b: ByteString) {
    exists k: nat :: LexBelowAt(a, b, k)
  }

  lemma HeadsAgree(a: ByteString, b: ByteString, k: nat)
    requires 0 < k <= |a| && k <= |b| && a[..k] == b[..k]
    ensures a[0] == b[0]
  {
    assert a[..k][0] == b[..k][0];
  }

  lemma {:induction false} StrcmpIsLexicographic(a: ByteString, b: ByteString)
    ensures Strcmp(a, b) < 0 <==> LexBelow(a, b)
    ensures Strcmp(a, b) == 0 <==> a == b
    ensures Strcmp(b, a) < 0 <==> Strcmp(a, b) > 0
  {
    if a == [] || b == [] || a[0] != b[0] {
      assert LexBelowAt(a, b, 0) <==> b != [] && (a != [] ==> a[0] < b[0]);
      forall k: nat | LexBelowAt(a, b, k)
        ensures k == 0
      {
        if k > 0 {
          HeadsAgree(a, b, k);
        }
      }
    } else {
      StrcmpIsLexicographic(a[1..], b[1..]);
      assert a == [a[0]] + a[1..] && b == [b[0]] + b[1..];
      forall k: nat
        ensures LexBelowAt(a[1..], b[1..], k) <==> LexBelowAt(a, b, k + 1)
      {
        assert k < |a| && k < |b| ==> a[..k + 1] == [a[0]] + a[1..][..k] && b[..k + 1] == [b[0]] + b[1..][..k];
        if LexBelowAt(a, b, k + 1) {
          assert a[1..][..k] == a[..k + 1][1..] && b[1..][..k] == b[..k + 1][1..];
        }
      }
      if LexBelow(a, b) {
        var k: nat :| LexBelowAt(a, b, k);
        assert LexBelowAt(a[1..], b[1..], k - 1);
      }
      if LexBelow(a[1..], b[1..]) {
        var k: nat :| LexBelowAt(a[1..], b[1..], k);
        assert LexBelowAt(a, b, k + 1);
      }
    }
  }

  predicate AtMost(a: ByteString, b: ByteString) {
    Strcmp(a, b) <= 0
  }

  lemma {:induction false} AtMostTransitive(a: ByteString, b: ByteString, c: ByteString)
    requires AtMost(a, b) && AtMost(b, c)
    ensures AtMost(a, c)
  {
    if a != [] && b != [] && c != [] && a[0] == b[0] == c[0] {
      AtMostTransitive(a[1..], b[1..], c[1..]);
    }
  }

  /** `after` is `before` with the elements from `lo` to below `hi` rearranged. */
  ghost predicate Rearranged(before: seq<Ptr>, after: seq<Ptr>, lo: nat, hi: nat)
    requires lo <= hi <= |before|
  {
    && |before| == |after|
    && before[..lo] == after[..lo] && before[hi..] == after[hi..]
    && multiset(before[lo..hi]) == multiset(after[lo..hi])
  }

  ghost predicate Sorted(v: seq<Ptr>, text: Ptr -> ByteString, lo: nat, hi: nat)
    requires hi <= |v|
  {
    forall i, j :: lo <= i < j < hi ==> AtMost(text(v[i]), text(v[j]))
  }

  lemma RearrangedTrans(a: seq<Ptr>, b: seq<Ptr>, c: seq<Ptr>, lo: nat, hi: nat)
    requires lo <= hi <= |a| && Rearranged(a, b, lo, hi) && Rearranged(b, c, lo, hi)
    ensures Rearranged(a, c, lo, hi)
  {
  }

  lemma RearrangedWiden(a: seq<Ptr>, b: seq<Ptr>, lo: nat, hi: nat, lo': nat, hi': nat)
    requires lo' <= lo <= hi <= hi' <= |a| && Rearranged(a, b, lo, hi)
    ensures Rearranged(a, b, lo', hi')
  {
    Slices(a, lo, hi, lo', hi');
    Slices(b, lo, hi, lo', hi');
  }

  lemma Slices(s: seq<Ptr>, lo: nat, hi: nat, lo': nat, hi': nat)
    requires lo' <= lo <= hi <= hi' <= |s|
    ensures s[..lo'] == s[..lo][..lo'] && s[hi'..] == s[hi..][hi' - hi..]
    ensures s[lo'..hi'] == s[..lo][lo'..] + s[lo..hi] + s[hi..][..hi' - hi]
  {
  }

  lemma SwapRearranges(a: seq<Ptr>, b: seq<Ptr>, i: nat, j: nat, lo: nat, hi: nat)
    requires lo <= hi <= |a| && lo <= i < hi && lo <= j < hi && b == a[i := a[j]][j := a[i]]
    ensures Rearranged(a, b, lo, hi)
  {
    assert b[lo..hi] == a[lo..hi][i - lo := a[j]][j - lo := a[i]];
  }

  lemma SwapMore(before: seq<Ptr>, v: seq<Ptr>, w: seq<Ptr>, i: nat, j: nat, lo: nat, hi: nat)
    requires lo <= hi <= |before| && Rearranged(before, v, lo, hi)
    requires lo <= i < hi && lo <= j < hi && w == v[i := v[j]][j := v[i]]
    ensures Rearranged(before, w, lo, hi)
  {
    SwapRearranges(v, w, i, j, lo, hi);
    RearrangedTrans(before, v, w, lo, hi);
  }

  /** What held of every element of the range still does. */
  lemma RearrangedElements(a: seq<Ptr>, b: seq<Ptr>, lo: nat, hi: nat, k: nat)
    requires lo <= hi <= |a| && Rearranged(a, b, lo, hi) && lo <= k < hi
    ensures exists m :: lo <= m < hi && a[m] == b[k]
  {
    assert b[lo..hi][k - lo] in multiset(b[lo..hi]);
    assert b[k] in a[lo..hi];
    var m :| 0 <= m < hi - lo && a[lo..hi][m] == b[k];
    assert a[lo + m] == b[k];
  }

  method Swap(v: array<Ptr>, i: nat, j: nat)
    requires i < v.Length && j < v.Length
    modifies v
    ensures v[..] == old(v[..])[i := old(v[j])][j := old(v[i])]
  {
    var temp := v[i];
    v[i] := v[j];
    v[j] := temp;
  }

  ghost predicate BelowPivot(v: seq<Ptr>, text: Ptr -> ByteString, pivot: Ptr, lo: nat, hi: nat)
    requires hi <= |v|
  {
    forall k :: lo <= k < hi ==> Strcmp(text(v[k]), text(pivot)) < 0
  }

  ghost predicate NotBelowPivot(v: seq<Ptr>, text: Ptr -> ByteString, pivot: Ptr, lo: nat, hi: nat)
    requires hi <= |v|
  {
    forall k :: lo <= k < hi ==> Strcmp(text(v[k]), text(pivot)) >= 0
  }

  /** State of the scan: the pivot is at `left`, then the smaller ones up to `last`, then the others. */
  ghost predicate Scanned(before: seq<Ptr>, v: seq<Ptr>, text: Ptr -> ByteString,
                          left: nat, last: nat, i: nat, right: nat)
    requires left <= last < i <= right + 1 <= |before|
  {
    && Rearranged(before, v, left, right + 1)
    && BelowPivot(v, text, v[left], left + 1, last + 1)
    && NotBelowPivot(v, text, v[left], last + 1, i)
  }

  lemma ScanStart(before: seq<Ptr>, v: seq<Ptr>, text: Ptr -> ByteString, left: nat, mid: nat, right: nat)
    requires left <= mid <= right < |before| && left < right && v == before[left := before[mid]][mid := before[left]]
    ensures Scanned(before, v, text, left, left, left + 1, right)
  {
    SwapRearranges(before, v, left, mid, left, right + 1);
  }

  lemma ScanSwap(before: seq<Ptr>, v: seq<Ptr>, w: seq<Ptr>, text: Ptr -> ByteString,
                 left: nat, last: nat, i: nat, right: nat)
    requires left <= last < i <= right < |before| && Scanned(before, v, text, left, last, i, right)
    requires Strcmp(text(v[i]), text(v[left])) < 0 && w == v[i := v[last + 1]][last + 1 := v[i]]
    ensures Scanned(before, w, text, left, last + 1, i + 1, right)
  {
    SwapMore(before, v, w, i, last + 1, left, right + 1);
    assert |before| == |v| == |w|;
    hide Rearranged;
    ScanSwapSides(v, w, text, left, last, i);
  }

  lemma ScanSwapSides(v: seq<Ptr>, w: seq<Ptr>, text: Ptr -> ByteString, left: nat, last: nat, i: nat)
    requires left <= last < i < |v| && w == v[i := v[last + 1]][last + 1 := v[i]]
    requires BelowPivot(v, text, v[left], left + 1, last + 1) && NotBelowPivot(v, text, v[left], last + 1, i)
    requires Strcmp(text(v[i]), text(v[left])) < 0
    ensures BelowPivot(w, text, w[left], left + 1, last + 2) && NotBelowPivot(w, text, w[left], last + 2, i + 1)
  {
    hide Strcmp;
    assert w[left] == v[left];
  }

  lemma ScanPass(before: seq<Ptr>, v: seq<Ptr>, text: Ptr -> ByteString, left: nat, last: nat, i: nat, right: nat)
    requires left <= last < i <= right < |before| && Scanned(before, v, text, left, last, i, right)
    requires Strcmp(text(v[i]), text(v[left])) >= 0
    ensures Scanned(before, v, text, left, last, i + 1, right)
  {
  }

  lemma ScanDone(before: seq<Ptr>, v: seq<Ptr>, w: seq<Ptr>, text: Ptr -> ByteString, left: nat, last: nat, right: nat)
    requires left <= last <= right < |before| && Scanned(before, v, text, left, last, right + 1, right)
    requires w == v[left := v[last]][last := v[left]]
    ensures Rearranged(before, w, left, right + 1)
    ensures BelowPivot(w, text, w[last], left, last)
    ensures NotBelowPivot(w, text, w[last], last + 1, right + 1)
  {
    SwapMore(before, v, w, left, last, left, right + 1);
    assert |before| == |v| == |w|;
    hide Rearranged;
    ScanDoneSides(v, w, text, left, last, right);
  }

  lemma ScanDoneSides(v: seq<Ptr>, w: seq<Ptr>, text: Ptr -> ByteString, left: nat, last: nat, right: nat)
    requires left <= last <= right < |v| && w == v[left := v[last]][last := v[left]]
    requires BelowPivot(v, text, v[left], left + 1, last + 1) && NotBelowPivot(v, text, v[left], last + 1, right + 1)
    ensures BelowPivot(w, text, w[last], left, last) && NotBelowPivot(w, text, w[last], last + 1, right + 1)
  {
    hide Strcmp;
    assert w[last] == v[left];
    forall k | left <= k < last
      ensures Strcmp(text(w[k]), text(w[last])) < 0
    {
      assert w[k] == if k == left then v[last] else v[k];
    }
  }

  /** The scan that `Qsort` makes before it recurs, with the number of strcmp calls. */
  method Partition(v: array<Ptr>, text: Ptr -> ByteString, left: nat, right: nat)
    returns (last: nat, calls: nat)
    requires left < right < v.Length
    modifies v
    ensures left <= last <= right && calls == right - left
    ensures Rearranged(old(v[..]), v[..], left, right + 1)
    ensures BelowPivot(v[..], text, v[..][last], left, last)
    ensures NotBelowPivot(v[..], text, v[..][last], last + 1, right + 1)
  {
    hide *;
    ghost var before := v[..];
    Swap(v, left, (left + right) / 2);
    ScanStart(before, v[..], text, left, (left + right) / 2, right);
    last, calls := left, 0;
    var i := left + 1;
    while i <= right
      invariant left <= last < i <= right + 1 && calls == i - left - 1
      invariant Scanned(before, v[..], text, left, last, i, right)
    {
      calls := calls + 1;
      if Strcmp(text(v[i]), text(v[left])) < 0 {
        ghost var w := v[..];
        Swap(v, i, last + 1);
        ScanSwap(before, w, v[..], text, left, last, i, right);
        last := last + 1;
      } else {
        ScanPass(before, v[..], text, left, last, i, right);
      }
      i := i + 1;
    }
    ghost var w := v[..];
    Swap(v, left, last);
    ScanDone(before, w, v[..], text, left, last, right);
  }

  /** Sorted halves around a pivot that bounds both of them are sorted together. */
  lemma SortedAroundPivot(v: seq<Ptr>, text: Ptr -> ByteString, lo: nat, p: nat, hi: nat)
    requires lo <= p < hi <= |v|
    requires Sorted(v, text, lo, p) && Sorted(v, text, p + 1, hi)
    requires BelowPivot(v, text, v[p], lo, p) && NotBelowPivot(v, text, v[p], p + 1, hi)
    ensures Sorted(v, text, lo, hi)
  {
    forall i, j | lo <= i < j < hi
      ensures AtMost(text(v[i]), text(v[j]))
    {
      if j >= p + 1 {
        StrcmpIsLexicographic(text(v[j]), text(v[p]));
      }
      if i < p < j {
        AtMostTransitive(text(v[i]), text(v[p]), text(v[j]));
      }
    }
  }

  /** Sorting one side of the pivot keeps both sides on their side. */
  lemma SidesKept(a: seq<Ptr>, b: seq<Ptr>, text: Ptr -> ByteString, lo: nat, hi: nat, p: nat, from: nat, to: nat)
    requires lo <= p < hi <= |a| && from <= to <= |a| && (to <= p || p < from)
    requires Rearranged(a, b, from, to) && lo <= from && to <= hi
    requires BelowPivot(a, text, a[p], lo, p) && NotBelowPivot(a, text, a[p], p + 1, hi)
    ensures b[p] == a[p]
    ensures BelowPivot(b, text, b[p], lo, p) && NotBelowPivot(b, text, b[p], p + 1, hi)
  {
    forall k | 0 <= k < |a| && !(from <= k < to)
      ensures a[k] == b[k]
    {
      assert k < from ==> a[..from][k] == b[..from][k];
      assert k >= to ==> a[to..][k - to] == b[to..][k - to];
    }
    forall k | from <= k < to
      ensures exists m :: from <= m < to && a[m] == b[k]
    {
      RearrangedElements(a, b, from, to, k);
    }
  }

  lemma SortedBelow(a: seq<Ptr>, b: seq<Ptr>, text: Ptr -> ByteString, lo: nat, hi: nat, from: nat, to: nat)
    requires hi <= from <= to <= |a| && Rearranged(a, b, from, to) && Sorted(a, text, lo, hi)
    ensures Sorted(b, text, lo, hi)
  {
    forall k | 0 <= k < from
      ensures a[k] == b[k]
    {
      assert a[..from][k] == b[..from][k];
    }
  }

  /** What one call of `Qsort` does to the range from `lo` to below `hi`. */
  ghost predicate SortsRange(before: seq<Ptr>, after: seq<Ptr>, text: Ptr -> ByteString, lo: nat, hi: nat)
    requires lo <= hi <= |before|
  {
    Rearranged(before, after, lo, hi) && Sorted(after, text, lo, hi)
  }

  /** Partition, sort below the pivot, sort above it: together they sort the range. */
  lemma PartsSorted(before: seq<Ptr>, split: seq<Ptr>, half: seq<Ptr>, after: seq<Ptr>, text: Ptr -> ByteString,
                    lo: nat, p: nat, hi: nat)
    requires lo <= p < hi <= |before| && Rearranged(before, split, lo, hi)
    requires BelowPivot(split, text, split[p], lo, p) && NotBelowPivot(split, text, split[p], p + 1, hi)
    requires SortsRange(split, half, text, lo, p) && SortsRange(half, after, text, p + 1, hi)
    ensures SortsRange(before, after, text, lo, hi)
  {
    SidesKept(split, half, text, lo, hi, p, lo, p);
    SidesKept(half, after, text, lo, hi, p, p + 1, hi);
    SortedBelow(half, after, text, lo, p, p + 1, hi);
    SortedAroundPivot(after, text, lo, p, hi);
    RearrangedWiden(split, half, lo, p, lo, hi);
    RearrangedWiden(half, after, p + 1, hi, lo, hi);
    RearrangedTrans(before, split, half, lo, hi);
    RearrangedTrans(before, half, after, lo, hi);
  }

  function Size(left: int, right: int): nat {
    if left <= right then right - left + 1 else 0
  }

  /** The number of pairs of `n` elements, `n * (n - 1) / 2`. */
  function Pairs(n: nat): nat {
    if n == 0 then 0 else n - 1 + Pairs(n - 1)
  }

  lemma {:induction false} PairsFormula(n: nat)
    ensures 2 * Pairs(n) == n * (n - 1)
  {
    if n > 0 {
      PairsFormula(n - 1);
    }
  }

  /** Splitting off a pivot never costs more comparisons than all the pairs. */
  lemma {:induction false} PairsSplit(n: nat, m: nat)
    ensures n + m + Pairs(n) + Pairs(m) <= Pairs(n + m + 1)
  {
    if m > 0 {
      PairsSplit(n, m - 1);
    }
  }

  function Power2(n: nat): nat {
    if n == 0 then 1 else 2 * Power2(n - 1)
  }

  lemma {:induction false} Power2Grows(m: nat, n: nat)
    requires m <= n
    ensures Power2(m) <= Power2(n)
  {
    if m < n {
      Power2Grows(m, n - 1);
    }
  }

  /** A range of at most one element is sorted as it stands. */
  lemma SmallIsSorted(v: seq<Ptr>, text: Ptr -> ByteString)
    ensures forall lo: nat, hi: nat :: lo <= hi <= |v| && hi <= lo + 1 ==> SortsRange(v, v, text, lo, hi)
  {
  }

  /**
   Sorts `v[left]` to `v[right]`; `calls` counts the strcmp calls and `depth` the nested calls of
   `Qsort`.
   */
  method Qsort(v: array<Ptr>, text: Ptr -> ByteString, left: int, right: int) returns (calls: nat, depth: nat)
    requires left < right ==> 0 <= left && right < v.Length
    modifies v
    ensures left >= right ==> v[..] == old(v[..])
    ensures 0 <= left <= right + 1 <= v.Length ==> SortsRange(old(v[..]), v[..], text, left, right + 1)
    ensures calls <= Pairs(Size(left, right))
    ensures 1 <= depth <= if left < right then Size(left, right) else 1
    ensures calls >= right - left && Size(left, right) < Power2(depth)
    decreases right - left
  {
    hide Sorted, SortsRange, Rearranged, BelowPivot, NotBelowPivot, Pairs;
    calls, depth := 0, 1;
    assert Power2(1) == 2;
    if left >= right {
      SmallIsSorted(v[..], text);
      return;
    }
    ghost var before := v[..];
    var last: int;
    last, calls := Partition(v, text, left, right);
    ghost var split := v[..];
    var below, depthBelow := Qsort(v, text, left, last - 1);
    ghost var half := v[..];
    var above, depthAbove := Qsort(v, text, last + 1, right);
    PartsSorted(before, split, half, v[..], text, left, last, right + 1);
    PairsSplit(Size(left, last - 1), Size(last + 1, right));
    calls := calls + below + above;
    depth := 1 + if depthBelow < depthAbove then depthAbove else depthBelow;
    Power2Grows(depthBelow, depth - 1);
    Power2Grows(depthAbove, depth - 1);
  }

  function Texts(v: seq<Ptr>, text: Ptr -> ByteString): (s: seq<ByteString>)
    ensures |s| == |v| && forall i :: 0 <= i < |v| ==> s[i] == text(v[i])
  {
    seq(|v|, i requires 0 <= i < |v| => text(v[i]))
  }

  ghost predicate Ascending(s: seq<ByteString>) {
    forall i, j :: 0 <= i < j < |s| ==> AtMost(s[i], s[j])
  }

  lemma HeadIsLeast(s: seq<ByteString>, x: ByteString)
    requires s != [] && x in s && Ascending(s)
    ensures AtMost(s[0], x)
  {
    StrcmpIsLexicographic(x, x);
  }

  lemma SameHead(a: seq<ByteString>, b: seq<ByteString>)
    requires a != [] && b != [] && multiset(a) == multiset(b) && Ascending(a) && Ascending(b)
    ensures a[0] == b[0]
  {
    assert a[0] in multiset(b) && b[0] in multiset(a);
    HeadIsLeast(a, b[0]);
    HeadIsLeast(b, a[0]);
    StrcmpIsLexicographic(a[0], b[0]);
    StrcmpIsLexicographic(b[0], a[0]);
  }

  lemma TailMultiset<T>(s: seq<T>)
    requires s != []
    ensures multiset(s[1..]) == multiset(s) - multiset{s[0]}
  {
    assert s == [s[0]] + s[1..];
  }

  /** There is only one sorted order of the same strings, so `Qsort`'s result is determined. */
  lemma {:induction false} SortedIsUnique(a: seq<ByteString>, b: seq<ByteString>)
    requires multiset(a) == multiset(b) && Ascending(a) && Ascending(b)
    ensures a == b
  {
    assert |a| == |multiset(a)| == |multiset(b)| == |b|;
    if a != [] {
      SameHead(a, b);
      TailMultiset(a);
      TailMultiset(b);
      SortedIsUnique(a[1..], b[1..]);
      assert a == [a[0]] + a[1..] && b == [b[0]] + b[1..];
    }
  }

  lemma TextsAround(s: seq<Ptr>, m: nat, rest: seq<Ptr>, text: Ptr -> ByteString)
    requires m < |s| && rest == s[..m] + s[m + 1..]
    ensures multiset(s) == multiset(rest) + multiset{s[m]}
    ensures multiset(Texts(s, text)) == multiset(Texts(rest, text)) + multiset{text(s[m])}
  {
    var t := Texts(s, text);
    assert s == s[..m] + [s[m]] + s[m + 1..];
    assert t == t[..m] + [t[m]] + t[m + 1..];
    assert Texts(rest, text) == t[..m] + t[m + 1..];
  }

  lemma {:induction false} TextsRearranged(a: seq<Ptr>, b: seq<Ptr>, text: Ptr -> ByteString)
    requires multiset(a) == multiset(b)
    ensures multiset(Texts(a, text)) == multiset(Texts(b, text))
  {
    hide Texts;
    if a == [] {
      assert |b| == |multiset(b)| == 0;
    } else {
      assert a[0] in multiset(b);
      var m :| 0 <= m < |b| && b[m] == a[0];
      var rest := b[..m] + b[m + 1..];
      TextsAround(a, 0, a[1..], text);
      TextsAround(b, m, rest, text);
      assert multiset(a[1..]) == multiset(a) - multiset{a[0]} == multiset(rest);
      TextsRearranged(a[1..], rest, text);
    }
  }

  /** Whatever the partitions do, sorting `before` gives the same strings in the same places. */
  lemma SortsRangeIsDetermined(before: seq<Ptr>, v: seq<Ptr>, w: seq<Ptr>, text: Ptr -> ByteString, lo: nat, hi: nat)
    requires lo <= hi <= |before| && SortsRange(before, v, text, lo, hi) && SortsRange(before, w, text, lo, hi)
    ensures Texts(v, text) == Texts(w, text)
  {
    TextsRearranged(v[lo..hi], w[lo..hi], text);
    SortedIsUnique(Texts(v[lo..hi], text), Texts(w[lo..hi], text));
    assert v == v[..lo] + v[lo..hi] + v[hi..] && w == w[..lo] + w[lo..hi] + w[hi..];
    assert Texts(v, text) == Texts(v[..lo], text) + Texts(v[lo..hi], text) + Texts(v[hi..], text);
    assert Texts(w, text) == Texts(w[..lo], text) + Texts(w[lo..hi], text) + Texts(w[hi..], text);
  }
}
