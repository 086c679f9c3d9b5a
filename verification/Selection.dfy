/** Floyd-Rivest selection in place, over any order, and the maximum of a range. */
module Selection {

  // The order of a slice's elements: x before y.
  ghost predicate StrictOrder<T(!new)>(lt: (T, T) -> bool) {
    && (forall x, y :: lt(x, y) ==> !lt(y, x))
    && (forall x, y, z :: !lt(y, x) && !lt(z, y) ==> !lt(z, x))
  }

  predicate Le<T>(lt: (T, T) -> bool, x: T, y: T) {
    !lt(y, x)
  }

  // Everything before p is at most everything from p on, within the range.
  ghost predicate Split<T>(lt: (T, T) -> bool, s: seq<T>, left: int, right: int, p: int) {
    forall x, y | left <= x < p <= y <= right && 0 <= x < |s| && 0 <= y < |s| :: Le(lt, s[x], s[y])
  }

  // s0 rearranged, within the range only.
  ghost predicate Rearranged<T>(s0: seq<T>, s: seq<T>, left: int, right: int) {
    && |s| == |s0| && multiset(s) == multiset(s0)
    && (forall i | 0 <= i < |s| && !(left <= i <= right) :: s[i] == s0[i])
  }

  /** ---- rearranging ---- */

  function Swapped<T>(s: seq<T>, i: nat, j: nat): seq<T>
    requires i < |s| && j < |s|
  {
    s[i := s[j]][j := s[i]]
  }

  lemma {:induction false} SwapRearranges<T>(s: seq<T>, i: nat, j: nat, left: int, right: int)
    requires i < |s| && j < |s| && left <= i <= right && left <= j <= right
    ensures Rearranged(s, Swapped(s, i, j), left, right)
  {
  }

  lemma {:induction false} RearrangedTwice<T>(s0: seq<T>, s1: seq<T>, s2: seq<T>, left: int, right: int, l: int, r: int)
    requires Rearranged(s0, s1, left, right) && Rearranged(s1, s2, l, r) && left <= l && r <= right
    ensures Rearranged(s0, s2, left, right)
  {
  }

  // What is in the range stays in the range.
  lemma {:induction false} RangeKeeps<T(!new)>(s0: seq<T>, s: seq<T>, left: nat, right: int)
    requires Rearranged(s0, s, left, right) && left <= right + 1 <= |s|
    ensures multiset(s[left..right + 1]) == multiset(s0[left..right + 1])
  {
    var r := right + 1;
    assert s == (s[..left] + s[left..r]) + s[r..] && s0 == (s0[..left] + s0[left..r]) + s0[r..];
    assert s[..left] == s0[..left] && s[r..] == s0[r..];
    Cancel(multiset(s[..left]), multiset(s[left..r]), multiset(s0[left..r]), multiset(s[r..]));
  }

  lemma {:induction false} Cancel<T(!new)>(before: multiset<T>, m: multiset<T>, m0: multiset<T>, after: multiset<T>)
    requires (before + m) + after == (before + m0) + after
    ensures m == m0
  {
    forall e ensures m[e] == m0[e] {
      assert ((before + m) + after)[e] == ((before + m0) + after)[e];
    }
  }

  lemma {:induction false} ComesFrom<T(!new)>(s0: seq<T>, s: seq<T>, left: nat, right: int, i: nat) returns (j: nat)
    requires Rearranged(s0, s, left, right) && right < |s| && left <= i <= right
    ensures left <= j <= right && s[i] == s0[j]
  {
    RangeKeeps(s0, s, left, right);
    assert s[left..right + 1][i - left] in multiset(s[left..right + 1]);
    assert s[i] in s0[left..right + 1];
    var d :| 0 <= d < |s0[left..right + 1]| && s0[left..right + 1][d] == s[i];
    j := left + d;
  }

  // Rearranging a range that does not straddle p keeps the split at p.
  lemma {:induction false} SplitKeeps<T(!new)>(lt: (T, T) -> bool, s0: seq<T>, s: seq<T>, l: nat, r: int,
                                               left: nat, right: int, p: int)
    requires Rearranged(s0, s, l, r) && r < |s| && left <= l && r <= right < |s| && (p <= l || p > r)
    requires Split(lt, s0, left, right, p)
    ensures Split(lt, s, left, right, p)
  {
    forall x, y | left <= x < p <= y <= right ensures Le(lt, s[x], s[y]) {
      var x0, y0 := x, y;
      if l <= x <= r {
        x0 := ComesFrom(s0, s, l, r, x);
      }
      if l <= y <= r {
        y0 := ComesFrom(s0, s, l, r, y);
      }
      assert Le(lt, s0[x0], s0[y0]);
    }
  }

  /** ---- the algorithm ---- */

  method Swap<T>(a: array<T>, i: nat, j: nat, ghost left: int, ghost right: int)
    requires i < a.Length && j < a.Length && left <= i <= right && left <= j <= right
    modifies a
    ensures a[..] == Swapped(old(a[..]), i, j)
    ensures forall s0 :: Rearranged(s0, old(a[..]), left, right) ==> Rearranged(s0, a[..], left, right)
  {
    SwapRearranges(a[..], i, j, left, right);
    a[i], a[j] := a[j], a[i];
  }

  // i runs up to the next element not below t; some element stops it.
  method ScanUp<T(!new)>(a: array<T>, lt: (T, T) -> bool, t: T, i0: int, ghost right: int) returns (i: int)
    requires StrictOrder(lt) && 0 <= i0 <= right < a.Length && Le(lt, t, a[right])
    ensures i0 <= i <= right && Le(lt, t, a[i])
    ensures forall x | i0 <= x < i :: lt(a[x], t) && Le(lt, a[x], t)
  {
    i := i0;
    while lt(a[i], t)
      invariant i0 <= i <= right && forall x | i0 <= x < i :: lt(a[x], t)
      decreases right - i
    {
      i := i + 1;
    }
  }

  method ScanDown<T(!new)>(a: array<T>, lt: (T, T) -> bool, t: T, j0: int, ghost left: int) returns (j: int)
    requires StrictOrder(lt) && 0 <= left <= j0 < a.Length && Le(lt, a[left], t)
    ensures left <= j <= j0 && Le(lt, a[j], t)
    ensures forall y | j < y <= j0 :: lt(t, a[y]) && Le(lt, t, a[y])
  {
    j := j0;
    while lt(t, a[j])
      invariant left <= j <= j0 && forall y | j < y <= j0 :: lt(t, a[y])
      decreases j
    {
      j := j - 1;
    }
  }

  // The two scans, until they meet: j is the end of the lower half.
  method Scan<T(!new, ==)>(a: array<T>, lt: (T, T) -> bool, t: T, left: nat, right: nat) returns (j: nat)
    requires StrictOrder(lt) && left < right < a.Length && Le(lt, t, a[left]) && Le(lt, a[right], t)
    requires a[left] == t || a[right] == t
    modifies a
    ensures left <= j < right && Rearranged(old(a[..]), a[..], left, right)
    ensures a[left] == t || a[right] == t
    ensures forall x | left <= x <= j :: Le(lt, a[x], t)
    ensures forall y | j < y <= right :: Le(lt, t, a[y])
  {
    hide Rearranged, Le, StrictOrder;
    NothingMoved(a[..], left, right);
    var i: nat;
    i, j := left, right;
    while i < j
      invariant Rearranged(old(a[..]), a[..], left, right)
      invariant left <= i <= right && left <= j <= right && Le(lt, t, a[i]) && Le(lt, a[j], t)
      invariant i == left <==> j == right
      invariant i > left ==> Le(lt, a[left], t) && Le(lt, t, a[right])
      invariant forall x | left <= x < i :: Le(lt, a[x], t)
      invariant forall y | j < y <= right :: Le(lt, t, a[y])
      invariant a[left] == t || a[right] == t
      decreases j as int - i
    {
      Swap(a, i, j, left, right);
      i := i + 1;
      j := j - 1;
      i := ScanUp(a, lt, t, i, right);
      j := ScanDown(a, lt, t, j, left);
    }
  }

  // The pivot goes to one end of the range, and the other end is on its right side.
  method PivotToEnd<T(!new, ==)>(a: array<T>, lt: (T, T) -> bool, left: nat, right: nat, k: nat) returns (t: T)
    requires StrictOrder(lt) && left < right < a.Length && left <= k <= right
    modifies a
    ensures Le(lt, t, a[left]) && Le(lt, a[right], t) && (a[left] == t || a[right] == t)
    ensures Rearranged(old(a[..]), a[..], left, right)
  {
    hide Rearranged;
    NothingMoved(a[..], left, right);
    t := a[k];
    assert Le(lt, t, t);
    Swap(a, left, k, left, right);
    if lt(t, a[right]) {
      Swap(a, right, left, left, right);
    }
  }

  /** One pass over the range: the pivot a[k] ends up at j with nothing larger before it
      and nothing smaller behind it. */
  method Pass<T(!new, ==)>(a: array<T>, lt: (T, T) -> bool, left: nat, right: nat, k: nat) returns (j: int)
    requires StrictOrder(lt) && left < right < a.Length && left <= k <= right
    modifies a
    ensures left <= j <= right && Rearranged(old(a[..]), a[..], left, right)
    ensures forall x | left <= x < j :: Le(lt, a[x], a[j])
    ensures forall y | j < y <= right :: Le(lt, a[j], a[y])
  {
    hide Rearranged, Le, StrictOrder;
    var t := PivotToEnd(a, lt, left, right, k);
    ghost var s0 := a[..];
    j := Scan(a, lt, t, left, right);
    ghost var s1 := a[..];
    j := PlacePivot(a, lt, t, left, right, j);
    BothRearranged(old(a[..]), s0, s1, left, right);
    BothRearranged(old(a[..]), s1, a[..], left, right);
  }

  // Between the two halves goes the pivot, which is at one end of the range.
  method PlacePivot<T(!new, ==)>(a: array<T>, lt: (T, T) -> bool, t: T, left: nat, right: nat, j0: nat) returns (j: nat)
    requires left <= j0 <= right < a.Length && (a[left] == t || (a[right] == t && j0 < right))
    requires forall x | left <= x <= j0 :: Le(lt, a[x], t)
    requires forall y | j0 < y <= right :: Le(lt, t, a[y])
    modifies a
    ensures left <= j <= right && a[j] == t && Rearranged(old(a[..]), a[..], left, right)
    ensures forall x | left <= x < j :: Le(lt, a[x], t)
    ensures forall y | j < y <= right :: Le(lt, t, a[y])
  {
    hide Le, Rearranged;
    NothingMoved(a[..], left, right);
    j := j0;
    if a[left] == t {
      Swap(a, left, j, left, right);
    } else {
      j := j + 1;
      Swap(a, j, right, left, right);
    }
  }

  lemma {:induction false} BothRearranged<T>(s0: seq<T>, s1: seq<T>, s2: seq<T>, left: int, right: int)
    requires Rearranged(s0, s1, left, right) && Rearranged(s1, s2, left, right)
    ensures Rearranged(s0, s2, left, right)
  {
    RearrangedTwice(s0, s1, s2, left, right, left, right);
  }

  lemma {:induction false} NothingMoved<T>(s: seq<T>, left: int, right: int)
    ensures Rearranged(s, s, left, right)
  {
  }

  // The k-th element is where sorting the range would put it.
  ghost predicate Selected<T>(lt: (T, T) -> bool, s: seq<T>, left: int, right: int, k: int) {
    Split(lt, s, left, right, k) && Split(lt, s, left, right, k + 1)
  }

  // The sampling window: any range around k that is smaller than the current one.
  method Window(left: nat, right: nat, k: nat) returns (newleft: nat, newright: nat)
    requires left <= k <= right && left < right
    ensures left <= newleft <= k <= newright <= right && newright - newleft < right - left
  {
    assert left <= k <= k <= k <= right && k - k < right - left;
    var l: nat, r: nat :| left <= l <= k <= r <= right && r - l < right - left;
    newleft, newright := l, r;
  }

  // After a pass within [left, right], the range is also split at j and j + 1.
  lemma {:induction false} PassSplits<T(!new)>(lt: (T, T) -> bool, s0: seq<T>, s: seq<T>, left0: nat, right0: nat,
                                               left: nat, right: nat, j: nat)
    requires StrictOrder(lt) && left0 <= left <= j <= right <= right0 < |s|
    requires Rearranged(s0, s, left, right)
    requires Split(lt, s0, left0, right0, left) && Split(lt, s0, left0, right0, right + 1)
    requires forall x | left <= x < j :: Le(lt, s[x], s[j])
    requires forall y | j < y <= right :: Le(lt, s[j], s[y])
    ensures Split(lt, s, left0, right0, j) && Split(lt, s, left0, right0, j + 1)
  {
    SplitKeeps(lt, s0, s, left, right, left0, right0, left);
    SplitKeeps(lt, s0, s, left, right, left0, right0, right + 1);
    assert Le(lt, s[j], s[j]);
    forall x, y | left0 <= x <= j <= y <= right0 ensures Le(lt, s[x], s[y]) {
      if left <= x && y <= right {
        assert Le(lt, s[x], s[j]) && Le(lt, s[j], s[y]);
      }
    }
  }

  /** Select: only the range is rearranged, and afterwards nothing before k is larger than
      a[k] and nothing behind it smaller, whatever the sampling windows. */
  method Select<T(!new, ==)>(a: array<T>, lt: (T, T) -> bool, left0: nat, right0: nat, k: nat)
    requires StrictOrder(lt) && left0 <= k <= right0 < a.Length
    modifies a
    ensures Rearranged(old(a[..]), a[..], left0, right0) && Selected(lt, a[..], left0, right0, k)
    decreases right0 - left0
  {
    hide Rearranged, Split, StrictOrder;
    NothingMoved(a[..], left0, right0);
    SplitAtEnds(lt, a[..], left0, right0);
    var left, right: int := left0, right0;
    while right > left
      invariant left0 <= left && right <= right0
      invariant left <= k <= right || (left == k + 1 && right == k - 1)
      invariant Rearranged(old(a[..]), a[..], left0, right0)
      invariant Split(lt, a[..], left0, right0, left) && Split(lt, a[..], left0, right0, right + 1)
      decreases right - left
    {
      ghost var s0 := a[..];
      if right - left > 600 {
        var newleft, newright := Window(left, right, k);
        Select(a, lt, newleft, newright, k);
        RearrangedTwice(old(a[..]), s0, a[..], left0, right0, newleft, newright);
        SplitKeeps(lt, s0, a[..], newleft, newright, left0, right0, left);
        SplitKeeps(lt, s0, a[..], newleft, newright, left0, right0, right + 1);
      }
      ghost var s1 := a[..];
      var j := Pass(a, lt, left, right, k);
      RearrangedTwice(old(a[..]), s1, a[..], left0, right0, left, right);
      PassSplits(lt, s1, a[..], left0, right0, left, right, j);
      SplitKeeps(lt, s1, a[..], left, right, left0, right0, left);
      SplitKeeps(lt, s1, a[..], left, right, left0, right0, right + 1);
      if j <= k {
        left := j + 1;
      }
      if k <= j {
        right := j - 1;
      }
    }
  }

  lemma {:induction false} SplitAtEnds<T>(lt: (T, T) -> bool, s: seq<T>, left: int, right: int)
    ensures Split(lt, s, left, right, left) && Split(lt, s, left, right, right + 1)
  {
  }

  /** Max: the first position of a largest element of the range. */
  method Max<T(!new)>(a: array<T>, lt: (T, T) -> bool, left: nat, right: nat) returns (id: nat)
    requires left <= right < a.Length && StrictOrder(lt)
    ensures left <= id <= right
    ensures forall x | left <= x <= right :: Le(lt, a[x], a[id])
    ensures forall x | left <= x < id :: lt(a[x], a[id])
  {
    var m := a[left];
    id := left;
    var i := left + 1;
    while i <= right
      invariant left <= id < i <= right + 1 && m == a[id]
      invariant forall x | left <= x < i :: Le(lt, a[x], m)
      invariant forall x | left <= x < id :: lt(a[x], m)
    {
      if lt(m, a[i]) {
        m := a[i];
        id := i;
      }
      i := i + 1;
    }
  }
}
