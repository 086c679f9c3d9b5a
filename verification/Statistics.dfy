/** The median and the variance of a flow's values. */
module Statistics {
  import opened Selection

  /** ---- order statistics ---- */

  ghost predicate Ordered<T>(lt: (T, T) -> bool, s: seq<T>) {
    forall x, y | 0 <= x < y < |s| :: Le(lt, s[x], s[y])
  }

  // q is s in order.
  ghost predicate SortedFrom<T>(lt: (T, T) -> bool, s: seq<T>, q: seq<T>) {
    Ordered(lt, q) && multiset(q) == multiset(s)
  }

  // Elements that are not larger than v.
  ghost function CountLe<T>(lt: (T, T) -> bool, s: seq<T>, v: T): nat {
    if s == [] then 0
    else CountLe(lt, s[..|s| - 1], v) + if Le(lt, s[|s| - 1], v) then 1 else 0
  }

  lemma {:induction false} CountAppend<T>(lt: (T, T) -> bool, a: seq<T>, b: seq<T>, v: T)
    ensures CountLe(lt, a + b, v) == CountLe(lt, a, v) + CountLe(lt, b, v)
  {
    if b == [] {
      assert a + b == a;
    } else {
      var n := |b| - 1;
      assert (a + b)[..|a + b| - 1] == a + b[..n];
      CountAppend(lt, a, b[..n], v);
    }
  }

  function Without<T>(s: seq<T>, i: nat): seq<T>
    requires i < |s|
  {
    s[..i] + s[i + 1..]
  }

  lemma {:induction false} CountWithout<T>(lt: (T, T) -> bool, s: seq<T>, i: nat, v: T)
    requires i < |s|
    ensures CountLe(lt, s, v) == CountLe(lt, Without(s, i), v) + if Le(lt, s[i], v) then 1 else 0
    ensures multiset(s) == multiset(Without(s, i)) + multiset{s[i]}
  {
    var e := [s[i]];
    assert s == (s[..i] + e) + s[i + 1..];
    CountAppend(lt, s[..i] + e, s[i + 1..], v);
    CountAppend(lt, s[..i], e, v);
    CountAppend(lt, s[..i], s[i + 1..], v);
    assert e[..0] == [];
  }

  // The count does not depend on the order of the elements.
  lemma {:induction false} CountSame<T(!new)>(lt: (T, T) -> bool, s: seq<T>, q: seq<T>, v: T)
    requires multiset(s) == multiset(q)
    ensures CountLe(lt, s, v) == CountLe(lt, q, v)
    decreases |s|
  {
    hide Without, CountLe, Le;
    assert |multiset(s)| == |s| && |multiset(q)| == |q|;
    if s == [] {
      assert q == s;
    } else {
      assert s[0] in multiset(q);
      var i :| 0 <= i < |q| && q[i] == s[0];
      CountWithout(lt, s, 0, v);
      CountWithout(lt, q, i, v);
      assert multiset{} + multiset(Without(s, 0)) == multiset(Without(s, 0));
      assert multiset{} + multiset(Without(q, i)) == multiset(Without(q, i));
      Cancel(multiset{}, multiset(Without(s, 0)), multiset(Without(q, i)), multiset{s[0]});
      ShorterWithout(s, 0);
      CountSame(lt, Without(s, 0), Without(q, i), v);
    }
  }

  lemma {:induction false} ShorterWithout<T>(s: seq<T>, i: nat)
    requires i < |s|
    ensures |Without(s, i)| == |s| - 1
  {
  }

  lemma {:induction false} CountBounds<T>(lt: (T, T) -> bool, s: seq<T>, v: T)
    ensures CountLe(lt, s, v) <= |s|
    ensures (forall x | 0 <= x < |s| :: Le(lt, s[x], v)) ==> CountLe(lt, s, v) == |s|
    ensures (forall x | 0 <= x < |s| :: lt(v, s[x])) ==> CountLe(lt, s, v) == 0
  {
    if s != [] {
      CountBounds(lt, s[..|s| - 1], v);
    }
  }

  /** What Select leaves at k is what sorting would put there: neither is before the other. */
  lemma {:induction false} SelectedIsSorted<T(!new)>(lt: (T, T) -> bool, s: seq<T>, q: seq<T>, k: nat)
    requires StrictOrder(lt) && k < |s| && Selected(lt, s, 0, |s| - 1, k) && SortedFrom(lt, s, q)
    ensures |q| == |s| && Le(lt, s[k], q[k]) && Le(lt, q[k], s[k])
  {
    assert |multiset(s)| == |s| && |multiset(q)| == |q|;
    assert forall x :: Le(lt, x, x);
    if lt(s[k], q[k]) {
      // fewer than k + 1 elements of q are at most s[k], but k + 1 of s are
      var v := s[k];
      TooFew(lt, s, q, k, v);
    } else if lt(q[k], s[k]) {
      var v := q[k];
      TooFew(lt, q, s, k, v);
    }
  }

  // The first k + 1 of a are at most v, those of b from k on are larger.
  lemma {:induction false} TooFew<T(!new)>(lt: (T, T) -> bool, a: seq<T>, b: seq<T>, k: nat, v: T)
    requires multiset(a) == multiset(b) && k < |a| == |b|
    requires forall x | 0 <= x <= k :: Le(lt, a[x], v)
    requires forall x | k <= x < |b| :: lt(v, b[x])
    ensures false
  {
    hide CountLe;
    CountSame(lt, a, b, v);
    assert a == a[..k + 1] + a[k + 1..] && b == b[..k] + b[k..];
    CountAppend(lt, a[..k + 1], a[k + 1..], v);
    CountAppend(lt, b[..k], b[k..], v);
    CountBounds(lt, a[..k + 1], v);
    CountBounds(lt, b[..k], v);
    CountBounds(lt, b[k..], v);
  }

  /** ---- the values in order ---- */

  ghost predicate TotalOrder<T(!new)>(lt: (T, T) -> bool) {
    StrictOrder(lt) && forall x, y :: !lt(x, y) && !lt(y, x) ==> x == y
  }

  ghost function Insert<T>(lt: (T, T) -> bool, q: seq<T>, v: T): seq<T> {
    if q == [] || Le(lt, q[|q| - 1], v) then q + [v]
    else Insert(lt, q[..|q| - 1], v) + [q[|q| - 1]]
  }

  ghost function Sort<T>(lt: (T, T) -> bool, s: seq<T>): seq<T> {
    if s == [] then [] else Insert(lt, Sort(lt, s[..|s| - 1]), s[|s| - 1])
  }

  lemma {:induction false} InsertSorts<T(!new)>(lt: (T, T) -> bool, q: seq<T>, v: T)
    requires StrictOrder(lt) && Ordered(lt, q)
    ensures Ordered(lt, Insert(lt, q, v)) && multiset(Insert(lt, q, v)) == multiset(q) + multiset{v}
  {
    var r := Insert(lt, q, v);
    if q == [] {
    } else if Le(lt, q[|q| - 1], v) {
      forall x | 0 <= x < |q| ensures Le(lt, q[x], v) {
        assert Le(lt, q[x], q[|q| - 1]) || x == |q| - 1;
      }
    } else {
      var before, last := q[..|q| - 1], q[|q| - 1];
      assert q == before + [last];
      InsertSorts(lt, before, v);
      var r0 := Insert(lt, before, v);
      forall x | 0 <= x < |r0| ensures Le(lt, r0[x], last) {
        assert r0[x] in multiset(r0);
        assert r0[x] in before || r0[x] == v;
      }
    }
  }

  lemma {:induction false} SortSorts<T(!new)>(lt: (T, T) -> bool, s: seq<T>)
    requires StrictOrder(lt)
    ensures SortedFrom(lt, s, Sort(lt, s)) && |Sort(lt, s)| == |s|
  {
    if s != [] {
      var before := s[..|s| - 1];
      assert s == before + [s[|s| - 1]];
      SortSorts(lt, before);
      InsertSorts(lt, Sort(lt, before), s[|s| - 1]);
    }
    assert |multiset(s)| == |s| && |multiset(Sort(lt, s))| == |Sort(lt, s)|;
  }

  /** ---- the median ---- */

  datatype Outcome<T> = NoValue | Element(value: T) | Mean(mean: real) | Panic

  /** The middle of the values in order; for an even number of them, the mean of the two
      middle ones. Values that are not numbers have a median if there are at most two or
      an odd number of them. */
  ghost function Median<T>(q: seq<T>, numeric: bool, float: T -> real): Outcome<T> {
    var h := |q| / 2;
    if q == [] then NoValue
    else if |q| % 2 == 1 then Element(q[h])
    else if numeric then Mean((float(q[h]) + float(q[h - 1])) / 2.0)
    else if |q| == 2 then Element(q[0])
    else Panic
  }

  // What the feature's description promises: for values that are not numbers, the lower
  // of the two middle ones.
  ghost function Documented<T>(q: seq<T>, numeric: bool, float: T -> real): Outcome<T> {
    var h := |q| / 2;
    if q == [] then NoValue
    else if |q| % 2 == 1 then Element(q[h])
    else if numeric then Mean((float(q[h - 1]) + float(q[h])) / 2.0)
    else Element(q[h - 1])
  }

  /** The description is kept but for four or more values that are not numbers, when their
      number is even. */
  lemma {:induction false} DocumentedIff<T>(q: seq<T>, numeric: bool, float: T -> real)
    ensures Median(q, numeric, float) == Documented(q, numeric, float) <==> numeric || |q| % 2 == 1 || |q| <= 2
  {
    if |q| > 0 && |q| % 2 == 0 {
      assert |q| >= 2 && (|q| == 2 ==> |q| / 2 - 1 == 0);
    }
  }

  lemma {:induction false} OrderIsTotal<T(!new)>(lt: (T, T) -> bool)
    requires TotalOrder(lt)
    ensures StrictOrder(lt)
  {
  }

  lemma {:induction false} SortedLength<T(!new)>(lt: (T, T) -> bool, s: seq<T>)
    requires TotalOrder(lt)
    ensures |Sort(lt, s)| == |s|
  {
    SortSorts(lt, s);
  }

  lemma {:induction false} MiddleIs<T(!new)>(lt: (T, T) -> bool, values: seq<T>, s: seq<T>, k: nat)
    requires TotalOrder(lt) && Rearranged(values, s, 0, |values| - 1) && k < |s| && Selected(lt, s, 0, |s| - 1, k)
    ensures |Sort(lt, values)| == |s| && Sort(lt, values)[k] == s[k]
  {
    SortSorts(lt, values);
    SelectedIsSorted(lt, s, Sort(lt, values), k);
  }

  lemma {:induction false} LowerSplits<T(!new)>(lt: (T, T) -> bool, s: seq<T>, h: nat, id: nat)
    requires id < h < |s| && Split(lt, s, 0, |s| - 1, h)
    requires forall x | 0 <= x < h :: Le(lt, s[x], s[id])
    ensures Split(lt, Swapped(s, id, h - 1), 0, |s| - 1, h - 1)
  {
    hide Le;
    var s2 := Swapped(s, id, h - 1);
    forall x, y | 0 <= x < h - 1 <= y < |s| ensures Le(lt, s2[x], s2[y]) {
      var x0, y0 := if x == id then h - 1 else x, if y == h - 1 then id else y;
      assert s2[x] == s[x0] && s2[y] == s[y0];
    }
  }

  // The largest element of the lower half, moved to its end.
  lemma {:induction false} LowerSelected<T(!new)>(lt: (T, T) -> bool, s: seq<T>, h: nat, id: nat)
    requires id < h < |s| && Split(lt, s, 0, |s| - 1, h)
    requires forall x | 0 <= x < h :: Le(lt, s[x], s[id])
    ensures Selected(lt, Swapped(s, id, h - 1), 0, |s| - 1, h - 1)
  {
    hide Rearranged, Le, Split;
    LowerSplits(lt, s, h, id);
    SwapRearranges(s, id, h - 1, 0, h - 1);
    SplitKeeps(lt, s, Swapped(s, id, h - 1), 0, h - 1, 0, |s| - 1, h);
  }

  lemma {:induction false} LowerMiddleIs<T(!new)>(lt: (T, T) -> bool, values: seq<T>, s: seq<T>, h: nat, id: nat)
    requires TotalOrder(lt) && Rearranged(values, s, 0, |values| - 1) && id < h < |s| && Selected(lt, s, 0, |s| - 1, h)
    requires forall x | 0 <= x < h :: Le(lt, s[x], s[id])
    ensures |Sort(lt, values)| == |s| && Sort(lt, values)[h - 1] == s[id]
  {
    hide Selected, Rearranged, Split, TotalOrder, StrictOrder, Sort, Le;
    SameLength(values, s);
    var s2 := Swapped(s, id, h - 1);
    SelectedSplits(lt, s, h);
    LowerSelected(lt, s, h, id);
    SwapRearranges(s, id, h - 1, 0, |s| - 1);
    RearrangedTwice(values, s, s2, 0, |s| - 1, 0, |s| - 1);
    MiddleIs(lt, values, s2, h - 1);
  }

  lemma {:induction false} SelectedSplits<T>(lt: (T, T) -> bool, s: seq<T>, k: nat)
    requires Selected(lt, s, 0, |s| - 1, k)
    ensures Split(lt, s, 0, |s| - 1, k)
  {
  }

  lemma {:induction false} SameLength<T>(s0: seq<T>, s: seq<T>)
    requires Rearranged(s0, s, 0, |s0| - 1)
    ensures |s| == |s0|
  {
  }

  lemma {:induction false} SortPair<T(!new)>(lt: (T, T) -> bool, s: seq<T>, s2: seq<T>)
    requires TotalOrder(lt) && Rearranged(s, s2, 0, |s| - 1) && |s| == |s2| == 2 && Le(lt, s2[0], s2[1])
    ensures Sort(lt, s) == s2
  {
    hide TotalOrder, Rearranged, Sort, Le;
    MiddleIs(lt, s, s2, 0);
    MiddleIs(lt, s, s2, 1);
  }

  // Values in order that are no numbers.
  const FOUR := [1, 2, 3, 4]
  const LESS := (x: int, y: int) => x < y

  lemma {:induction false} FourInOrder(k: nat)
    requires k < 4
    ensures TotalOrder(LESS) && Selected(LESS, FOUR, 0, 3, k)
  {
  }

  /** Four values that are no numbers: the second one is promised, the program panics. */
  lemma {:induction false} FourValuesPanic(float: int -> real)
    ensures Sort(LESS, FOUR) == FOUR
    ensures Documented(Sort(LESS, FOUR), false, float) == Element(2) && Median(Sort(LESS, FOUR), false, float) == Panic
    ensures Median(Sort(LESS, FOUR), true, float) == Mean((float(2) + float(3)) / 2.0)
  {
    hide Sort, TotalOrder, Selected, Rearranged;
    NothingMoved(FOUR, 0, 3);
    FourInOrder(0);
    SortedLength(LESS, FOUR);
    forall k: nat | k < 4 ensures Sort(LESS, FOUR)[k] == FOUR[k] {
      FourInOrder(k);
      MiddleIs(LESS, FOUR, FOUR, k);
    }
  }

  // Up to two values need no selection.
  lemma {:induction false} SortFew<T(!new)>(lt: (T, T) -> bool, s: seq<T>)
    requires TotalOrder(lt)
    ensures |s| <= 1 ==> Sort(lt, s) == s
    ensures |s| == 2 ==> Sort(lt, s) == if lt(s[0], s[1]) then s else [s[1], s[0]]
  {
    if |s| == 1 {
      NothingMoved(s, 0, 0);
      MiddleIs(lt, s, s, 0);
    } else if |s| == 2 {
      NothingMoved(s, 0, 1);
      SwapRearranges(s, 0, 1, 0, 1);
      assert Swapped(s, 0, 1) == [s[1], s[0]];
      SortPair(lt, s, if lt(s[0], s[1]) then s else [s[1], s[0]]);
    }
  }

  class MedianFeature<T(!new, ==)> {
    const lt: (T, T) -> bool
    const numeric: bool
    const float: T -> real
    var vector: seq<T>

    constructor (lt: (T, T) -> bool, numeric: bool, float: T -> real)
      ensures this.lt == lt && this.numeric == numeric && this.float == float && vector == []
    {
      this.lt, this.numeric, this.float, vector := lt, numeric, float, [];
    }

    method Event(x: T)
      modifies this
      ensures vector == old(vector) + [x]
    {
      vector := vector + [x];
    }

    // GetFloat panics for values that are not numbers.
    function GetFloat(x: T): Outcome<T> {
      if numeric then Mean(float(x)) else Panic
    }

    method Stop() returns (r: Outcome<T>)
      requires TotalOrder(lt)
      ensures r == Median(Sort(lt, vector), numeric, float)
    {
      hide TotalOrder, Sort;
      var values := vector;
      var k := |values|;
      SortFew(lt, values);
      SortedLength(lt, values);
      if k == 0 {
        return NoValue;
      }
      if k == 1 {
        return Element(values[0]);
      }
      if k == 2 {
        if numeric {
          return Mean((float(values[0]) + float(values[1])) / 2.0);
        }
        if lt(values[0], values[1]) {
          return Element(values[0]);
        }
        return Element(values[1]);
      }
      r := SelectMedian(values);
    }

    method SelectMedian(values: seq<T>) returns (r: Outcome<T>)
      requires TotalOrder(lt) && |values| > 2
      ensures r == Median(Sort(lt, values), numeric, float)
    {
      hide Selected, Rearranged, TotalOrder, StrictOrder, Sort, Le;
      OrderIsTotal(lt);
      SortedLength(lt, values);
      var k := |values|;
      var a := new T[k](i requires 0 <= i < k => values[i]);
      assert a[..] == values;
      if k % 2 == 1 {
        var median := k / 2;
        Select(a, lt, 0, k - 1, median);
        MiddleIs(lt, values, a[..], median);
        return Element(a[median]);
      }
      if !numeric {
        var median := k / 2 - 1;
        Select(a, lt, 0, k - 1, median);
        r := Element(a[median]);
      }
      var median1 := k / 2;
      Select(a, lt, 0, k - 1, median1);
      var median2 := Max(a, lt, 0, median1 - 1);
      var high, low := GetFloat(a[median1]), GetFloat(a[median2]);
      if high.Panic? || low.Panic? {
        return Panic;
      }
      MiddleIs(lt, values, a[..], median1);
      LowerMiddleIs(lt, values, a[..], median1, median2);
      return Mean((high.mean + low.mean) / 2.0);
    }
  }

  /** ---- the variance ---- */

  ghost function Total(s: seq<real>): real {
    if s == [] then 0.0 else Total(s[..|s| - 1]) + s[|s| - 1]
  }

  // Squared deviations from c.
  ghost function Deviations(s: seq<real>, c: real): real {
    if s == [] then 0.0
    else Deviations(s[..|s| - 1], c) + (s[|s| - 1] - c) * (s[|s| - 1] - c)
  }

  // The two-pass sample variance.
  ghost function SampleVariance(s: seq<real>): real
    requires |s| > 1
  {
    Deviations(s, Total(s) / |s| as real) / (|s| as real - 1.0)
  }

  /** Moving the centre of the deviations. */
  lemma {:induction false} MoveCentre(s: seq<real>, c: real, d: real)
    ensures Deviations(s, d)
            == Deviations(s, c) + 2.0 * (c - d) * (Total(s) - |s| as real * c) + |s| as real * (c - d) * (c - d)
  {
    if s != [] {
      var before, x, n := s[..|s| - 1], s[|s| - 1], |s| as real - 1.0;
      MoveCentre(before, c, d);
      var e := c - d;
      assert (x - d) * (x - d) == (x - c) * (x - c) + 2.0 * e * (x - c) + e * e;
      assert 2.0 * e * (Total(before) - n * c) + 2.0 * e * (x - c) == 2.0 * e * (Total(s) - (n + 1.0) * c);
      assert n * e * e + e * e == (n + 1.0) * e * e;
    }
  }

  class VarianceFeature {
    var count: nat
    var mean: real
    var m2: real
    ghost var values: seq<real>

    /** The mean of the values seen, and their squared deviations from it. */
    ghost predicate Valid()
      reads this
    {
      count == |values| && count as real * mean == Total(values) && m2 == Deviations(values, mean)
    }

    constructor ()
      ensures Valid() && values == []
    {
      count, mean, m2, values := 0, 0.0, 0.0, [];
    }

    // Welford's update.
    method Event(x: real)
      requires Valid()
      modifies this
      ensures Valid() && values == old(values) + [x]
    {
      hide Total, Deviations;
      Welford(values, mean, x);
      count := count + 1;
      var delta := x - mean;
      mean := mean + delta / count as real;
      var delta2 := x - mean;
      m2 := m2 + delta * delta2;
      values := values + [x];
    }

    // None with fewer than two values.
    method Stop() returns (r: Outcome<real>)
      requires Valid()
      ensures r == if |values| > 1 then Mean(SampleVariance(values)) else NoValue
    {
      if count > 1 {
        assert mean == Total(values) / count as real;
        return Mean(m2 / (count as real - 1.0));
      }
      return NoValue;
    }
  }

  // The mean is the centre with the least deviations.
  lemma {:induction false} AboutTheMean(s: seq<real>, mean: real, d: real)
    requires |s| as real * mean == Total(s)
    ensures Deviations(s, d) == Deviations(s, mean) + |s| as real * ((mean - d) * (mean - d))
  {
    hide Deviations, Total;
    MoveCentre(s, mean, d);
    var n, e := |s| as real, mean - d;
    assert 2.0 * e * (Total(s) - n * mean) == 0.0;
    assert n * e * e == n * (e * e);
  }

  lemma {:induction false} OneMore(s: seq<real>, x: real, c: real)
    ensures Total(s + [x]) == Total(s) + x
    ensures Deviations(s + [x], c) == Deviations(s, c) + (x - c) * (x - c)
  {
    assert (s + [x])[..|s|] == s;
  }

  // The step of Welford's update.
  lemma {:induction false} Welford(s: seq<real>, mean: real, x: real)
    requires |s| as real * mean == Total(s)
    ensures var n := (|s| + 1) as real; var mean' := mean + (x - mean) / n;
            n * mean' == Total(s + [x])
            && Deviations(s + [x], mean') == Deviations(s, mean) + (x - mean) * (x - mean')
  {
    hide Deviations, Total;
    var n := (|s| + 1) as real;
    var mean' := mean + (x - mean) / n;
    OneMore(s, x, mean');
    AboutTheMean(s, mean, mean');
    NewMean(|s| as real, n, mean, x, mean');
  }

  lemma {:induction false} NewMean(m: real, n: real, mean: real, x: real, mean': real)
    requires n == m + 1.0 && n > 0.0 && mean' == mean + (x - mean) / n
    ensures n * mean' == m * mean + x
    ensures m * ((mean - mean') * (mean - mean')) + (x - mean') * (x - mean') == (x - mean) * (x - mean')
  {
    var d := x - mean;
    var e := d / n;
    assert n * e == d;
    assert n * mean' == n * mean + n * e;
    Squares(n, d, e);
    assert mean - mean' == -e && x - mean' == d - e;
  }

  lemma {:induction false} Squares(n: real, d: real, e: real)
    requires n * e == d
    ensures (n - 1.0) * (-e * -e) + (d - e) * (d - e) == d * (d - e)
  {
    assert (n - 1.0) * (e * e) == (n * e) * e - e * e;
  }
}
