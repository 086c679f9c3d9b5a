/** The two orders export records are sorted by, and the two-way merge every
    sorting stage of the export pipeline is measured against. */
module ExportOrder {

  datatype SortType = SortNone | StartTime | StopTime | ExpiryTime

  // The fields of an export record that take part in the order.
  datatype ExportKey = ExportKey(packetID: nat, expiryTime: nat, recordID: int)

  predicate LessPacket(a: ExportKey, b: ExportKey) {
    if a.packetID == b.packetID then a.recordID < b.recordID
    else a.packetID < b.packetID
  }

  predicate LessExpiry(a: ExportKey, b: ExportKey) {
    if a.expiryTime == b.expiryTime then
      if a.packetID == b.packetID then a.recordID < b.recordID
      else a.packetID < b.packetID
    else a.expiryTime < b.expiryTime
  }

  predicate Less(order: SortType, a: ExportKey, b: ExportKey) {
    if order == ExpiryTime then LessExpiry(a, b) else LessPacket(a, b)
  }

  /** A record together with the key it had when it entered a sorting stage. */
  datatype Item<R> = Item(rec: R, key: ExportKey)

  // Nothing later in the sequence is smaller than anything earlier.
  ghost predicate Sorted<R>(order: SortType, s: seq<Item<R>>) {
    forall i, j | 0 <= i < j < |s| :: !Less(order, s[j].key, s[i].key)
  }

  /** Two-way merge. Equal keys are taken from `b` first, as both mergers do. */
  function Merge<R>(order: SortType, a: seq<Item<R>>, b: seq<Item<R>>): seq<Item<R>> {
    if a == [] then b
    else if b == [] then a
    else if Less(order, a[0].key, b[0].key) then [a[0]] + Merge(order, a[1..], b)
    else [b[0]] + Merge(order, a, b[1..])
  }

  /** What the orders mean: by packet number and record, in expiry order by expiry time
      before that. */
  lemma {:induction false} SortedMeans<R>(s: seq<Item<R>>)
    ensures Sorted(ExpiryTime, s) <==>
            forall i, j | 0 <= i < j < |s| ::
              var a, b := s[i].key, s[j].key;
              a.expiryTime < b.expiryTime
              || (a.expiryTime == b.expiryTime
                  && (a.packetID < b.packetID || (a.packetID == b.packetID && a.recordID <= b.recordID)))
    ensures forall order | order != ExpiryTime ::
              Sorted(order, s) <==>
              forall i, j | 0 <= i < j < |s| ::
                var a, b := s[i].key, s[j].key;
                a.packetID < b.packetID || (a.packetID == b.packetID && a.recordID <= b.recordID)
  {
  }

  // "Not greater" is transitive and total: both orders are strict weak orders.
  lemma NotLessTransitive(order: SortType, a: ExportKey, b: ExportKey, c: ExportKey)
    ensures !Less(order, b, a) && !Less(order, c, b) ==> !Less(order, c, a)
    ensures Less(order, a, b) ==> !Less(order, b, a)
    ensures !Less(order, a, a)
  {
  }

  lemma {:induction false} MergeKeepsRecords<R>(order: SortType, a: seq<Item<R>>, b: seq<Item<R>>)
    ensures multiset(Merge(order, a, b)) == multiset(a) + multiset(b)
  {
    if a != [] && b != [] {
      assert a == [a[0]] + a[1..] && b == [b[0]] + b[1..];
      if Less(order, a[0].key, b[0].key) {
        MergeKeepsRecords(order, a[1..], b);
      } else {
        MergeKeepsRecords(order, a, b[1..]);
      }
    }
  }

  lemma PrependKeepsSorted<R>(order: SortType, x: Item<R>, s: seq<Item<R>>)
    requires Sorted(order, s)
    requires forall y | y in s :: !Less(order, y.key, x.key)
    ensures Sorted(order, [x] + s)
  {
    forall i, j | 0 <= i < j < |[x] + s|
      ensures !Less(order, ([x] + s)[j].key, ([x] + s)[i].key)
    {
      assert s[j - 1] in s;
    }
  }

  // The head of a sorted sequence is a lower bound of anything above it.
  lemma HeadIsLowerBound<R>(order: SortType, s: seq<Item<R>>, x: Item<R>)
    requires s != [] && Sorted(order, s) && !Less(order, s[0].key, x.key)
    ensures forall y | y in s :: !Less(order, y.key, x.key)
  {
    forall y | y in s
      ensures !Less(order, y.key, x.key)
    {
      var i :| 0 <= i < |s| && s[i] == y;
      NotLessTransitive(order, x.key, s[0].key, y.key);
    }
  }

  lemma {:induction false} MergeIsSorted<R>(order: SortType, a: seq<Item<R>>, b: seq<Item<R>>)
    requires Sorted(order, a) && Sorted(order, b)
    ensures Sorted(order, Merge(order, a, b))
  {
    if a != [] && b != [] {
      var takeA := Less(order, a[0].key, b[0].key);
      var x := if takeA then a[0] else b[0];
      var a', b' := if takeA then a[1..] else a, if takeA then b else b[1..];
      MergeIsSorted(order, a', b');
      NotLessTransitive(order, a[0].key, b[0].key, a[0].key);
      NotLessTransitive(order, b[0].key, a[0].key, b[0].key);
      HeadIsLowerBound(order, a, x);
      HeadIsLowerBound(order, b, x);
      forall y | y in Merge(order, a', b')
        ensures !Less(order, y.key, x.key)
      {
        MergeKeepsRecords(order, a', b');
        assert y in multiset(Merge(order, a', b'));
        assert y in multiset(a') || y in multiset(b');
      }
      PrependKeepsSorted(order, x, Merge(order, a', b'));
    }
  }

  // One step of the merge, with part of both inputs still to come.
  lemma MergeUnfolds<R>(order: SortType, a: seq<Item<R>>, fa: seq<Item<R>>, b: seq<Item<R>>, fb: seq<Item<R>>)
    requires a != [] && b != []
    ensures Merge(order, a + fa, b + fb) ==
            if Less(order, a[0].key, b[0].key) then [a[0]] + Merge(order, a[1..] + fa, b + fb)
            else [b[0]] + Merge(order, a + fa, b[1..] + fb)
  {
    assert (a + fa)[1..] == a[1..] + fa && (b + fb)[1..] == b[1..] + fb;
  }

  // The records of a channel's messages, one message after the other.
  ghost function Flat<T>(msgs: seq<seq<T>>): seq<T>
  {
    if msgs == [] then [] else msgs[0] + Flat(msgs[1..])
  }

  lemma {:induction false} FlatAppend<T>(msgs: seq<seq<T>>, m: seq<T>)
    ensures Flat(msgs + [m]) == Flat(msgs) + m
  {
    if msgs == [] {
      assert msgs + [m] == [m] && [m][1..] == [];
      assert Flat([m]) == m + Flat<T>([]);
    } else {
      assert (msgs + [m])[1..] == msgs[1..] + [m];
      FlatAppend(msgs[1..], m);
    }
  }
}
