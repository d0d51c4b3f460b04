/** The 95th percentile by linear interpolation, in exact arithmetic, and its order properties. */
module Percentile {

  function InsertInt(x: int, s: seq<int>): seq<int> {
    if s == [] || x <= s[0] then [x] + s else [s[0]] + InsertInt(x, s[1..])
  }

  /** `sort((a, b) => a - b)`. */
  function Sort(s: seq<int>): (r: seq<int>)
    ensures |r| == |s|
  {
    if s == [] then [] else InsertIntLength(s[0], Sort(s[1..])); InsertInt(s[0], Sort(s[1..]))
  }

  lemma {:induction false} InsertIntLength(x: int, s: seq<int>)
    ensures |InsertInt(x, s)| == |s| + 1
  {
    if s != [] && x > s[0] { InsertIntLength(x, s[1..]); }
  }

  function Ceil(x: real): int {
    if x == x.Floor as real then x.Floor else x.Floor + 1
  }

  /** The interpolation point: 19 (n - 1) twentieths, split at its whole part. */
  lemma Rank(n: int)
    requires n >= 1
    ensures
      var rank := 0.95 * (n - 1) as real;
      var steps := 19 * (n - 1);
      && rank.Floor == steps / 20
      && Ceil(rank) == (if steps % 20 == 0 then steps / 20 else steps / 20 + 1)
      && rank - rank.Floor as real == (steps % 20) as real / 20.0
      && 0 <= rank.Floor <= Ceil(rank) <= n - 1
  {
  }

  /** The value at a position between two entries, by linear interpolation. */
  function ValueAt(sorted: seq<int>, rank: real): real
    requires 0 <= rank.Floor <= Ceil(rank) < |sorted|
  {
    var lower, upper := rank.Floor, Ceil(rank);
    if lower == upper then sorted[lower] as real
    else
      var weight := rank - lower as real;
      sorted[lower] as real * (1.0 - weight) + sorted[upper] as real * weight
  }

  /** `percentile95`. */
  function Percentile95(values: seq<int>): real {
    if |values| == 0 then 0.0
    else
      var sorted := Sort(values);
      if |sorted| == 1 then sorted[0] as real
      else
        Rank(|sorted|);
        ValueAt(sorted, 0.95 * (|sorted| - 1) as real)
  }

  // ---------------------------------------------------------------- order statistics by counting

  function CountUpTo(s: seq<int>, t: int): nat {
    if s == [] then 0 else (if s[0] <= t then 1 else 0) + CountUpTo(s[1..], t)
  }

  ghost predicate Sorted(s: seq<int>) {
    forall i, j :: 0 <= i < j < |s| ==> s[i] <= s[j]
  }

  lemma {:induction false} InsertCounts(x: int, s: seq<int>, t: int)
    ensures CountUpTo(InsertInt(x, s), t) == (if x <= t then 1 else 0) + CountUpTo(s, t)
  {
    if s == [] || x <= s[0] {
      assert ([x] + s)[1..] == s;
    } else {
      InsertCounts(x, s[1..], t);
      assert ([s[0]] + InsertInt(x, s[1..]))[1..] == InsertInt(x, s[1..]);
    }
  }

  lemma {:induction false} SortCounts(s: seq<int>, t: int)
    ensures CountUpTo(Sort(s), t) == CountUpTo(s, t)
  {
    if s == [] {
    } else {
      SortCounts(s[1..], t);
      InsertCounts(s[0], Sort(s[1..]), t);
    }
  }

  lemma {:induction false} InsertSorted(x: int, s: seq<int>)
    requires Sorted(s)
    ensures Sorted(InsertInt(x, s))
    ensures forall y :: y in InsertInt(x, s) ==> y == x || y in s
  {
    if s != [] && x > s[0] {
      InsertSorted(x, s[1..]);
      var tail := InsertInt(x, s[1..]);
      forall j | 0 <= j < |tail| ensures s[0] <= tail[j] {
        assert tail[j] in tail;
      }
    }
  }

  lemma {:induction false} SortSorted(s: seq<int>)
    ensures Sorted(Sort(s))
  {
    if s == [] {
    } else {
      SortSorted(s[1..]);
      InsertSorted(s[0], Sort(s[1..]));
    }
  }

  /** In a sorted list, position k is at most t exactly when more than k entries are at most t. */
  lemma {:induction false} SortedPosition(s: seq<int>, k: nat, t: int)
    requires Sorted(s) && k < |s|
    ensures s[k] <= t <==> CountUpTo(s, t) > k
  {
    if s[0] > t {
      AllAbove(s, t);
    } else if k > 0 {
      SortedPosition(s[1..], k - 1, t);
    }
  }

  lemma {:induction false} AllAbove(s: seq<int>, t: int)
    requires forall i :: 0 <= i < |s| ==> s[i] > t
    ensures CountUpTo(s, t) == 0
  {
    if s == [] {
    } else {
      AllAbove(s[1..], t);
    }
  }

  lemma {:induction false} RaisedCounts(a: seq<int>, b: seq<int>, t: int)
    requires |a| == |b| && forall i :: 0 <= i < |a| ==> a[i] <= b[i]
    ensures CountUpTo(b, t) <= CountUpTo(a, t)
  {
    if a == [] {
    } else {
      RaisedCounts(a[1..], b[1..], t);
    }
  }

  /** Raising entries raises, or keeps, every position of the sorted list. */
  lemma SortMonotone(a: seq<int>, b: seq<int>, k: nat)
    requires |a| == |b| && k < |a| && forall i :: 0 <= i < |a| ==> a[i] <= b[i]
    ensures Sort(a)[k] <= Sort(b)[k]
  {
    var t := Sort(b)[k];
    SortSorted(a); SortSorted(b);
    SortedPosition(Sort(b), k, t);
    SortCounts(a, t); SortCounts(b, t);
    RaisedCounts(a, b, t);
    SortedPosition(Sort(a), k, t);
  }

  lemma {:induction false} CountAppend(a: seq<int>, b: seq<int>, t: int)
    ensures CountUpTo(a + b, t) == CountUpTo(a, t) + CountUpTo(b, t)
  {
    if a == [] {
      assert a + b == b;
    } else {
      assert (a + b)[1..] == a[1..] + b;
      CountAppend(a[1..], b, t);
    }
  }

  lemma Without(s: seq<int>, i: nat)
    requires i < |s|
    ensures multiset(s) == multiset(s[..i] + s[i + 1..]) + multiset{s[i]}
  {
    assert s == s[..i] + [s[i]] + s[i + 1..];
  }

  lemma CountWithout(s: seq<int>, i: nat, t: int)
    requires i < |s|
    ensures CountUpTo(s, t) == CountUpTo(s[..i] + s[i + 1..], t) + (if s[i] <= t then 1 else 0)
  {
    var front, back := s[..i], s[i + 1..];
    assert s == front + ([s[i]] + back);
    CountAppend(front, [s[i]] + back, t);
    assert ([s[i]] + back)[1..] == back;
    CountAppend(front, back, t);
  }

  /** Where the first entry went, and that the others are still a rearrangement without it. */
  lemma Partner(a: seq<int>, b: seq<int>) returns (i: nat)
    requires multiset(a) == multiset(b) && a != []
    ensures i < |b| && b[i] == a[0] && multiset(a[1..]) == multiset(b[..i] + b[i + 1..])
  {
    i := FindIn(b, a[0], multiset(a));
    Without(a, 0);
    Without(b, i);
    assert a[..0] + a[1..] == a[1..];
    OneLess(multiset(a[1..]), multiset(b[..i] + b[i + 1..]), a[0]);
  }

  lemma OneLess(m: multiset<int>, n: multiset<int>, x: int)
    requires m + multiset{x} == n + multiset{x}
    ensures m == n
  {
    assert m + multiset{x} - multiset{x} == m && n + multiset{x} - multiset{x} == n;
  }

  lemma FindIn(b: seq<int>, x: int, m: multiset<int>) returns (i: nat)
    requires m == multiset(b) && x in m
    ensures i < |b| && b[i] == x
  {
    i :| 0 <= i < |b| && b[i] == x;
  }

  lemma {:induction false} CountPermuted(a: seq<int>, b: seq<int>, t: int)
    requires multiset(a) == multiset(b)
    ensures CountUpTo(a, t) == CountUpTo(b, t)
  {
    if a == [] {
      assert |multiset(b)| == |b| == 0;
    } else {
      var i := Partner(a, b);
      CountPermuted(a[1..], b[..i] + b[i + 1..], t);
      CountWithout(b, i, t);
    }
  }

  /** Rearranging the input leaves every sorted position alone. */
  lemma SortPermuted(a: seq<int>, b: seq<int>, k: nat)
    requires multiset(a) == multiset(b) && |a| == |b| && k < |a|
    ensures Sort(a)[k] == Sort(b)[k]
  {
    SortSorted(a); SortSorted(b);
    var x, y := Sort(a)[k], Sort(b)[k];
    SortCounts(a, x); SortCounts(b, x); CountPermuted(a, b, x);
    SortCounts(a, y); SortCounts(b, y); CountPermuted(a, b, y);
    SortedPosition(Sort(a), k, x); SortedPosition(Sort(b), k, x);
    SortedPosition(Sort(a), k, y); SortedPosition(Sort(b), k, y);
  }

  /** Bounds of the values bound every sorted position. */
  lemma SortBetween(s: seq<int>, k: nat, low: int, high: int)
    requires k < |s| && forall i :: 0 <= i < |s| ==> low <= s[i] <= high
    ensures low <= Sort(s)[k] <= high
  {
    SortSorted(s);
    SortCounts(s, high); AllAtMost(s, high); SortedPosition(Sort(s), k, high);
    SortCounts(s, low - 1); AllAbove(s, low - 1); SortedPosition(Sort(s), k, low - 1);
  }

  lemma {:induction false} AllAtMost(s: seq<int>, t: int)
    requires forall i :: 0 <= i < |s| ==> s[i] <= t
    ensures CountUpTo(s, t) == |s|
  {
    if s == [] {
    } else {
      AllAtMost(s[1..], t);
    }
  }

  // ---------------------------------------------------------------- the percentile

  /** The position below the percentile of n values, and how many twentieths beyond it. */
  function LowIndex(n: nat): (k: int)
    requires n > 0
    ensures 0 <= k < n
  {
    19 * (n - 1) / 20
  }

  function Part(n: nat): (w: int)
    requires n > 0
    ensures 0 <= w < 20 && (w > 0 ==> LowIndex(n) + 1 < n)
  {
    19 * (n - 1) % 20
  }

  function HighIndex(n: nat): (k: int)
    requires n > 0
    ensures 0 <= k < n
  {
    if Part(n) == 0 then LowIndex(n) else LowIndex(n) + 1
  }

  function Blend(a: int, b: int, w: int): int {
    a * (20 - w) + b * w
  }

  /** Twenty times the percentile, in integers. */
  function Twentieths(values: seq<int>): int
    requires values != []
  {
    var n := |values|;
    Blend(Sort(values)[LowIndex(n)], Sort(values)[HighIndex(n)], Part(n))
  }

  /** The interpolation as the code writes it, between two neighbours, w twentieths beyond the first. */
  function Mix(a: int, b: int, w: int): real {
    if w == 0 then a as real
    else a as real * (1.0 - w as real / 20.0) + b as real * (w as real / 20.0)
  }

  lemma MixIsBlend(a: int, b: int, w: int)
    ensures Mix(a, b, w) == Blend(a, b, w) as real / 20.0
  {
  }

  lemma BlendMonotone(a: int, b: int, a': int, b': int, w: int)
    requires a <= a' && b <= b' && 0 <= w <= 20
    ensures Blend(a, b, w) <= Blend(a', b', w)
  {
  }

  lemma BlendEqual(a: int, w: int)
    ensures Blend(a, a, w) == 20 * a
  {
  }

  lemma Interpolated(sorted: seq<int>, n: nat)
    requires n == |sorted| > 1
    ensures
      var rank := 0.95 * (n - 1) as real;
      && rank.Floor == LowIndex(n) && Ceil(rank) == HighIndex(n)
      && rank - rank.Floor as real == Part(n) as real / 20.0
  {
  }

  lemma ValueIsMix(sorted: seq<int>, rank: real, low: nat, high: nat, w: int)
    requires rank.Floor == low <= high == Ceil(rank) < |sorted|
    requires rank - low as real == w as real / 20.0
    ensures ValueAt(sorted, rank) == Mix(sorted[low], sorted[high], w)
  {
  }

  /** The percentile of integers is a whole number of twentieths. */
  lemma PercentileTwentieths(values: seq<int>)
    requires values != []
    ensures Percentile95(values) == Twentieths(values) as real / 20.0
  {
    var n, sorted := |values|, Sort(values);
    if n > 1 {
      Interpolated(sorted, n);
      ValueIsMix(sorted, 0.95 * (n - 1) as real, LowIndex(n), HighIndex(n), Part(n));
    }
    MixIsBlend(sorted[LowIndex(n)], sorted[HighIndex(n)], Part(n));
  }

  lemma TwentiethsMonotone(a: seq<int>, b: seq<int>)
    requires |a| == |b| > 0 && forall i :: 0 <= i < |a| ==> a[i] <= b[i]
    ensures Twentieths(a) <= Twentieths(b)
  {
    var n := |a|;
    var low, high := LowIndex(n), HighIndex(n);
    SortMonotone(a, b, low);
    SortMonotone(a, b, high);
    BlendMonotone(Sort(a)[low], Sort(a)[high], Sort(b)[low], Sort(b)[high], Part(n));
  }

  /** Raising any entries never lowers the percentile. */
  lemma PercentileMonotone(a: seq<int>, b: seq<int>)
    requires |a| == |b| && forall i :: 0 <= i < |a| ==> a[i] <= b[i]
    ensures Percentile95(a) <= Percentile95(b)
  {
    if a != [] {
      TwentiethsMonotone(a, b);
      PercentileTwentieths(a);
      PercentileTwentieths(b);
    }
  }

  lemma TwentiethsPermuted(a: seq<int>, b: seq<int>)
    requires multiset(a) == multiset(b) && |a| == |b| > 0
    ensures Twentieths(a) == Twentieths(b)
  {
    SortPermuted(a, b, LowIndex(|a|));
    SortPermuted(a, b, HighIndex(|a|));
  }

  /** The percentile depends on the values only, not on their order. */
  lemma PercentilePermuted(a: seq<int>, b: seq<int>)
    requires multiset(a) == multiset(b)
    ensures Percentile95(a) == Percentile95(b)
  {
    assert |a| == |multiset(a)| == |multiset(b)| == |b|;
    if a != [] {
      TwentiethsPermuted(a, b);
      PercentileTwentieths(a);
      PercentileTwentieths(b);
    }
  }

  /** The percentile lies between any lower and any upper bound of the values. */
  lemma PercentileBetween(values: seq<int>, low: int, high: int)
    requires values != []
    requires forall i :: 0 <= i < |values| ==> low <= values[i] <= high
    ensures low as real <= Percentile95(values) <= high as real
  {
    var n := |values|;
    var a, b := Sort(values)[LowIndex(n)], Sort(values)[HighIndex(n)];
    SortBetween(values, LowIndex(n), low, high);
    SortBetween(values, HighIndex(n), low, high);
    BlendMonotone(low, low, a, b, Part(n));
    BlendMonotone(a, b, high, high, Part(n));
    BlendEqual(low, Part(n));
    BlendEqual(high, Part(n));
    PercentileTwentieths(values);
  }
}
