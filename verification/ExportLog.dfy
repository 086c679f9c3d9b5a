/** One table's list of export records over a whole run, and what its flushes emit. */
module ExportLog {
  import opened ExportOrder

  // A record of the list; `exported` once its features are filled in.
  datatype Entry<R> = Entry(rec: R, key: ExportKey, exported: bool)

  // The list front to back, and everything flushed so far in order.
  datatype Log<R> = Log(list: seq<Entry<R>>, flushed: seq<Item<R>>)

  datatype Op<R> =
    | Start(rec: R, packetID: nat)            // record.start: a new record in front
    | Move(rec: R, packetID: nat)             // record.filteredEvent: newest packet, move to front
    | Export(rec: R, when: nat, push: bool)   // record.Export: fill in; pushed only in expiry order
    | Drop(rec: R)                            // record.Destroy: the record was never exported
    | Flush                                   // the exported records at the back
    | FlushAll                                // all exported records

  ghost predicate Has<R>(list: seq<Entry<R>>, r: R) {
    exists i :: 0 <= i < |list| && list[i].rec == r
  }

  function Without<R(==)>(list: seq<Entry<R>>, r: R): (res: seq<Entry<R>>) {
    if list == [] then []
    else if list[0].rec == r then list[1..]
    else [list[0]] + Without(list[1..], r)
  }

  function Find<R(==)>(list: seq<Entry<R>>, r: R): (e: Entry<R>)
    requires Has(list, r)
    ensures e.rec == r && e in list
  {
    if list[0].rec == r then list[0] else Find(list[1..], r)
  }

  function Fill<R(==)>(list: seq<Entry<R>>, r: R, when: nat): (res: seq<Entry<R>>)
    ensures |res| == |list|
  {
    if list == [] then []
    else if list[0].rec == r then [list[0].(key := list[0].key.(expiryTime := when), exported := true)] + list[1..]
    else [list[0]] + Fill(list[1..], r, when)
  }

  // How many records flushExports leaves: all in front of the exported suffix.
  function Kept<R>(list: seq<Entry<R>>): (k: nat)
    ensures k <= |list|
    ensures forall i | k <= i < |list| :: list[i].exported
    ensures k > 0 ==> !list[k - 1].exported
  {
    if list == [] || !list[|list| - 1].exported then |list| else Kept(list[..|list| - 1])
  }

  // A batch: records from the back to the front.
  function Batch<R>(list: seq<Entry<R>>): (b: seq<Item<R>>)
    ensures |b| == |list|
    ensures forall i | 0 <= i < |b| :: b[i] == Item(list[|list| - 1 - i].rec, list[|list| - 1 - i].key)
  {
    if list == [] then [] else Batch(list[1..]) + [Item(list[0].rec, list[0].key)]
  }

  function Select<R>(list: seq<Entry<R>>, exported: bool): (res: seq<Entry<R>>)
    ensures forall e | e in res :: e in list && e.exported == exported
  {
    if list == [] then []
    else (if list[0].exported == exported then [list[0]] else []) + Select(list[1..], exported)
  }

  ghost predicate DistinctRecs<R>(list: seq<Entry<R>>) {
    forall i, j | 0 <= i < j < |list| :: list[i].rec != list[j].rec
  }

  lemma {:induction false} FindAt<R>(list: seq<Entry<R>>, r: R, k: nat)
    requires k < |list| && list[k].rec == r && forall i | 0 <= i < k :: list[i].rec != r
    ensures Has(list, r) && Find(list, r) == list[k]
  {
    assert Has(list, r);
    if k > 0 {
      FindAt(list[1..], r, k - 1);
    }
  }

  lemma {:induction false} WithoutAt<R>(list: seq<Entry<R>>, r: R, k: nat)
    requires k < |list| && list[k].rec == r && forall i | 0 <= i < k :: list[i].rec != r
    ensures Without(list, r) == list[..k] + list[k + 1..]
  {
    if k > 0 {
      WithoutAt(list[1..], r, k - 1);
      assert list[..k] == [list[0]] + list[1..][..k - 1] && list[k + 1..] == list[1..][k..];
    }
  }

  lemma {:induction false} FillAt<R>(list: seq<Entry<R>>, r: R, when: nat, k: nat)
    requires k < |list| && list[k].rec == r && forall i | 0 <= i < k :: list[i].rec != r
    ensures Fill(list, r, when) == list[k := list[k].(key := list[k].key.(expiryTime := when), exported := true)]
  {
    if k > 0 {
      FillAt(list[1..], r, when, k - 1);
    }
  }

  // The recursive definitions, by position.
  lemma {:induction false} AtPosition<R>(list: seq<Entry<R>>, r: R, when: nat, k: nat)
    requires DistinctRecs(list) && k < |list| && list[k].rec == r
    ensures Has(list, r) && Find(list, r) == list[k]
    ensures Without(list, r) == list[..k] + list[k + 1..]
    ensures Fill(list, r, when) == list[k := list[k].(key := list[k].key.(expiryTime := when), exported := true)]
  {
    hide Has, Find, Without, Fill;
    FindAt(list, r, k);
    WithoutAt(list, r, k);
    FillAt(list, r, when, k);
  }

  lemma {:induction false} KeptIs<R>(list: seq<Entry<R>>, k: nat)
    requires k <= |list| && (forall i | k <= i < |list| :: list[i].exported) && (k > 0 ==> !list[k - 1].exported)
    ensures Kept(list) == k
  {
    if k < |list| {
      KeptIs(list[..|list| - 1], k);
    }
  }

  function Nodes<R>(list: seq<Entry<R>>): (r: seq<R>)
    ensures |r| == |list| && forall i | 0 <= i < |list| :: r[i] == list[i].rec
  {
    if list == [] then [] else [list[0].rec] + Nodes(list[1..])
  }

  // a is what is left of b when some entries are taken out.
  ghost predicate PartOf<T>(a: seq<T>, b: seq<T>)
    decreases |b|
  {
    a == [] || (b != [] && ((a[0] == b[0] && PartOf(a[1..], b[1..])) || PartOf(a, b[1..])))
  }

  /** The exported entries and the others: together they are the list, and both keep its
      order. */
  lemma {:induction false} SelectPartitions<R>(list: seq<Entry<R>>)
    ensures multiset(Select(list, true)) + multiset(Select(list, false)) == multiset(list)
    ensures PartOf(Select(list, true), list) && PartOf(Select(list, false), list)
  {
    hide Select, PartOf;
    if list == [] {
      NothingSelected<R>();
    } else {
      var e, rest := list[0], list[1..];
      SelectPartitions(rest);
      assert list == [e] + rest;
      SelectCons(e, rest, true);
      SelectCons(e, rest, false);
      PartCons(e, Select(rest, true), rest);
      PartCons(e, Select(rest, false), rest);
    }
  }

  lemma {:induction false} NothingSelected<R>()
    ensures forall exported :: Select<R>([], exported) == []
    ensures PartOf<Entry<R>>([], [])
  {
  }

  lemma {:induction false} PartCons<T>(x: T, a: seq<T>, b: seq<T>)
    requires PartOf(a, b)
    ensures PartOf([x] + a, [x] + b) && PartOf(a, [x] + b)
  {
    assert ([x] + a)[1..] == a && ([x] + b)[1..] == b;
  }

  // What the caller of each operation guarantees.
  ghost predicate Enabled<R>(s: Log<R>, op: Op<R>) {
    match op
    case Start(r, _) => !Has(s.list, r)
    case Move(r, _) => Has(s.list, r) && !Find(s.list, r).exported
    case Export(r, _, _) => Has(s.list, r) && !Find(s.list, r).exported
    case Drop(r) => Has(s.list, r) && !Find(s.list, r).exported
    case Flush | FlushAll => true
  }

  function Apply<R(==)>(s: Log<R>, op: Op<R>, recordID: int): Log<R>
    requires Enabled(s, op)
  {
    match op
    case Start(r, nr) => s.(list := [Entry(r, ExportKey(nr, 0, recordID), false)] + s.list)
    case Move(r, nr) =>
      s.(list := [Find(s.list, r).(key := Find(s.list, r).key.(packetID := nr))] + Without(s.list, r))
    case Export(r, when, push) =>
      var filled := Find(s.list, r).(key := Find(s.list, r).key.(expiryTime := when), exported := true);
      s.(list := if push then [filled] + Without(s.list, r) else Fill(s.list, r, when))
    case Drop(r) => s.(list := Without(s.list, r))
    case Flush => Log(s.list[..Kept(s.list)], s.flushed + Batch(s.list[Kept(s.list)..]))
    case FlushAll => Log(Select(s.list, false), s.flushed + Batch(Select(s.list, true)))
  }

  lemma {:induction false} FlushIs<R>(s: Log<R>, recordID: int)
    ensures Enabled(s, Flush)
    ensures Apply(s, Flush, recordID) == Log(s.list[..Kept(s.list)], s.flushed + Batch(s.list[Kept(s.list)..]))
  {
  }

  lemma {:induction false} MoveIs<R>(s: Log<R>, r: R, nr: nat, recordID: int)
    requires Enabled(s, Move(r, nr))
    ensures Apply(s, Move(r, nr), recordID)
         == s.(list := [Find(s.list, r).(key := Find(s.list, r).key.(packetID := nr))] + Without(s.list, r))
  {
  }

  lemma {:induction false} ExportIs<R>(s: Log<R>, r: R, when: nat, push: bool, recordID: int)
    requires Enabled(s, Export(r, when, push))
    ensures Apply(s, Export(r, when, push), recordID)
         == var filled := Find(s.list, r).(key := Find(s.list, r).key.(expiryTime := when), exported := true);
            s.(list := if push then [filled] + Without(s.list, r) else Fill(s.list, r, when))
  {
  }

  /** ---- runs ---- */

  // In start or stop order, before the end of the input: event numbers never decrease,
  // an export pushes nothing, and only exported records at the back are flushed.
  ghost predicate InOrder<R>(op: Op<R>, now: nat) {
    match op
    case Start(_, nr) => nr >= now
    case Move(_, nr) => nr >= now
    case Export(_, _, push) => !push
    case FlushAll => false
    case _ => true
  }

  function Now<R>(op: Op<R>, now: nat): nat {
    if op.Start? || op.Move? then op.packetID else now
  }

  ghost predicate Monotone<R>(ops: seq<Op<R>>, now: nat) {
    ops == [] || (InOrder(ops[0], now) && Monotone(ops[1..], Now(ops[0], now)))
  }

  // Every operation is enabled when its turn comes.
  ghost predicate Legal<R>(s: Log<R>, ops: seq<Op<R>>, recordID: int)
    decreases |ops|
  {
    ops == [] || (Enabled(s, ops[0]) && Legal(Apply(s, ops[0], recordID), ops[1..], recordID))
  }

  ghost function Run<R>(s: Log<R>, ops: seq<Op<R>>, recordID: int): Log<R>
    requires Legal(s, ops, recordID)
    decreases |ops|
  {
    if ops == [] then s else Run(Apply(s, ops[0], recordID), ops[1..], recordID)
  }

  /** ---- order ---- */

  // Front to back the packet numbers go from at most `hi` down to at least `lo`.
  ghost predicate Descending<R>(list: seq<Entry<R>>, hi: nat, lo: nat, recordID: int) {
    list == []
    || (lo <= list[0].key.packetID <= hi && list[0].key.recordID == recordID
        && Descending(list[1..], list[0].key.packetID, lo, recordID))
  }

  // The packet number of the last flushed record.
  function Floor<R>(flushed: seq<Item<R>>): nat {
    if flushed == [] then 0 else flushed[|flushed| - 1].key.packetID
  }

  ghost predicate Rising<R>(flushed: seq<Item<R>>, lo: nat, hi: nat, recordID: int) {
    && (forall i | 0 <= i < |flushed| :: lo <= flushed[i].key.packetID <= hi && flushed[i].key.recordID == recordID)
    && Sorted(StopTime, flushed)
  }

  /** The key invariant: the list descends, and everything already flushed is in order
      and not above the list's back. */
  ghost predicate Ordered<R>(s: Log<R>, now: nat, recordID: int) {
    && Floor(s.flushed) <= now
    && Descending(s.list, now, Floor(s.flushed), recordID)
    && Rising(s.flushed, 0, Floor(s.flushed), recordID)
  }

  lemma {:induction false} DescendingWidens<R>(list: seq<Entry<R>>, hi: nat, lo: nat, recordID: int, hi': nat, lo': nat)
    requires Descending(list, hi, lo, recordID) && hi <= hi' && lo' <= lo
    ensures Descending(list, hi', lo', recordID)
  {
    if list != [] {
      DescendingWidens(list[1..], list[0].key.packetID, lo, recordID, list[0].key.packetID, lo');
    }
  }

  lemma {:induction false} FindDescending<R>(list: seq<Entry<R>>, hi: nat, lo: nat, recordID: int, r: R)
    requires Descending(list, hi, lo, recordID) && Has(list, r)
    ensures Find(list, r).key.recordID == recordID
  {
    if list[0].rec != r {
      HasTail(list, r);
      FindDescending(list[1..], list[0].key.packetID, lo, recordID, r);
    }
  }

  lemma HasTail<R>(list: seq<Entry<R>>, r: R)
    requires Has(list, r) && list[0].rec != r
    ensures Has(list[1..], r)
  {
    var i :| 0 <= i < |list| && list[i].rec == r;
    assert list[1..][i - 1].rec == r;
  }

  lemma {:induction false} WithoutDescending<R>(list: seq<Entry<R>>, hi: nat, lo: nat, recordID: int, r: R)
    requires Descending(list, hi, lo, recordID)
    ensures Descending(Without(list, r), hi, lo, recordID)
  {
    if list != [] {
      if list[0].rec == r {
        DescendingWidens(list[1..], list[0].key.packetID, lo, recordID, hi, lo);
      } else {
        WithoutDescending(list[1..], list[0].key.packetID, lo, recordID, r);
      }
    }
  }

  lemma {:induction false} FillDescending<R>(list: seq<Entry<R>>, hi: nat, lo: nat, recordID: int, r: R, when: nat)
    requires Descending(list, hi, lo, recordID)
    ensures Descending(Fill(list, r, when), hi, lo, recordID)
  {
    if list != [] && list[0].rec != r {
      FillDescending(list[1..], list[0].key.packetID, lo, recordID, r, when);
    }
  }

  lemma {:induction false} SelectDescending<R>(list: seq<Entry<R>>, hi: nat, lo: nat, recordID: int, exported: bool)
    requires Descending(list, hi, lo, recordID)
    ensures Descending(Select(list, exported), hi, lo, recordID)
  {
    if list != [] {
      SelectDescending(list[1..], list[0].key.packetID, lo, recordID, exported);
      DescendingWidens(Select(list[1..], exported), list[0].key.packetID, lo, recordID, hi, lo);
      assert ([list[0]] + Select(list[1..], exported))[1..] == Select(list[1..], exported);
      assert [] + Select(list[1..], exported) == Select(list[1..], exported);
    }
  }

  lemma {:induction false} SplitDescending<R>(list: seq<Entry<R>>, hi: nat, lo: nat, recordID: int, k: nat)
    requires Descending(list, hi, lo, recordID) && k <= |list|
    ensures Descending(list[k..], hi, lo, recordID)
    ensures Descending(list[..k], hi, if k < |list| then list[k].key.packetID else lo, recordID)
    ensures k < |list| ==> list[k].key.packetID >= lo
  {
    if k == 0 {
      assert list[0..] == list;
    } else {
      SplitDescending(list[1..], list[0].key.packetID, lo, recordID, k - 1);
      assert list[k..] == list[1..][k - 1..] && list[..k] == [list[0]] + list[1..][..k - 1];
      DescendingWidens(list[k..], list[0].key.packetID, lo, recordID, hi, lo);
      if k < |list| {
        SplitDescending(list[1..], list[0].key.packetID, lo, recordID, k - 1);
        BackIsLow(list, hi, lo, recordID, k);
      }
    }
  }

  lemma {:induction false} BackIsLow<R>(list: seq<Entry<R>>, hi: nat, lo: nat, recordID: int, k: nat)
    requires Descending(list, hi, lo, recordID) && k < |list|
    ensures list[k].key.packetID <= list[0].key.packetID && list[k].key.packetID >= lo
  {
    if k > 0 {
      BackIsLow(list[1..], list[0].key.packetID, lo, recordID, k - 1);
    }
  }

  // Back to front, a descending list is in order.
  lemma {:induction false} BatchRises<R>(list: seq<Entry<R>>, hi: nat, lo: nat, recordID: int)
    requires Descending(list, hi, lo, recordID)
    ensures Rising(Batch(list), lo, if list == [] then hi else list[0].key.packetID, recordID)
  {
    if list != [] {
      BatchRises(list[1..], list[0].key.packetID, lo, recordID);
    }
  }

  lemma RisingAppend<R>(a: seq<Item<R>>, b: seq<Item<R>>, mid: nat, hi: nat, recordID: int)
    requires Rising(a, 0, mid, recordID) && Rising(b, mid, hi, recordID) && mid <= hi
    ensures Rising(a + b, 0, hi, recordID)
  {
  }

  /** Every operation of a table keeps the invariant. */
  lemma {:induction false} ApplyKeepsOrder<R>(s: Log<R>, op: Op<R>, now: nat, recordID: int)
    requires Ordered(s, now, recordID) && Enabled(s, op) && InOrder(op, now)
    ensures Ordered(Apply(s, op, recordID), Now(op, now), recordID)
  {
    var lo := Floor(s.flushed);
    match op
    case Start(r, nr) =>
      DescendingWidens(s.list, now, lo, recordID, nr, lo);
    case Move(r, nr) =>
      FindDescending(s.list, now, lo, recordID, r);
      WithoutDescending(s.list, now, lo, recordID, r);
      DescendingWidens(Without(s.list, r), now, lo, recordID, nr, lo);
    case Export(r, when, push) =>
      FillDescending(s.list, now, lo, recordID, r, when);
    case Drop(r) =>
      WithoutDescending(s.list, now, lo, recordID, r);
    case Flush =>
      FlushKeepsOrder(s, now, recordID);
  }

  lemma {:induction false} FlushKeepsOrder<R>(s: Log<R>, now: nat, recordID: int)
    requires Ordered(s, now, recordID)
    ensures Ordered(Apply(s, Flush, recordID), now, recordID)
  {
    var k, lo := Kept(s.list), Floor(s.flushed);
    var back := s.list[k..];
    SplitDescending(s.list, now, lo, recordID, k);
    BatchRises(back, now, lo, recordID);
    if back == [] {
      assert s.flushed + Batch(back) == s.flushed && s.list[..k] == s.list;
    } else {
      assert Batch(back)[|back| - 1].key.packetID == back[0].key.packetID;
      assert back[0] == s.list[k];
      RisingAppend(s.flushed, Batch(back), lo, back[0].key.packetID, recordID);
    }
  }

  /** Over any run of a table in start or stop order, ending with the flush of everything
      at the end of the input, the flushed records are in order. */
  lemma {:induction false} FlushedInOrder<R>(s: Log<R>, ops: seq<Op<R>>, now: nat, recordID: int)
    requires Ordered(s, now, recordID) && Legal(s, ops, recordID) && Monotone(ops, now)
    ensures Sorted(StopTime, Run(s, ops, recordID).flushed)
    ensures Sorted(StopTime, Apply(Run(s, ops, recordID), FlushAll, recordID).flushed)
    decreases |ops|
  {
    if ops == [] {
      var lo, all := Floor(s.flushed), Select(s.list, true);
      SelectDescending(s.list, now, lo, recordID, true);
      BatchRises(all, now, lo, recordID);
      RisingAppend(s.flushed, Batch(all), lo, now, recordID);
    } else {
      ApplyKeepsOrder(s, ops[0], now, recordID);
      FlushedInOrder(Apply(s, ops[0], recordID), ops[1..], Now(ops[0], now), recordID);
    }
  }

  /** ---- conservation ---- */

  // The entries as they would be flushed.
  function ItemsOf<R>(list: seq<Entry<R>>): seq<Item<R>> {
    if list == [] then [] else [Item(list[0].rec, list[0].key)] + ItemsOf(list[1..])
  }

  // The record an operation exports, with its key.
  function Exports<R(==)>(s: Log<R>, op: Op<R>): seq<Item<R>>
    requires Enabled(s, op)
  {
    if op.Export? then [Item(op.rec, Find(s.list, op.rec).key.(expiryTime := op.when))] else []
  }

  function ExportsAll<R(==)>(s: Log<R>, ops: seq<Op<R>>, recordID: int): seq<Item<R>>
    requires Legal(s, ops, recordID)
    decreases |ops|
  {
    if ops == [] then [] else Exports(s, ops[0]) + ExportsAll(Apply(s, ops[0], recordID), ops[1..], recordID)
  }

  // Exported so far: flushed, or still waiting in the list.
  ghost function Accounted<R>(s: Log<R>): multiset<Item<R>> {
    multiset(s.flushed) + multiset(ItemsOf(Select(s.list, true)))
  }

  lemma {:induction false} BatchItems<R>(list: seq<Entry<R>>)
    ensures multiset(Batch(list)) == multiset(ItemsOf(list))
  {
    if list != [] {
      BatchItems(list[1..]);
    }
  }

  lemma {:induction false} SelectAppend<R>(a: seq<Entry<R>>, b: seq<Entry<R>>, exported: bool)
    ensures Select(a + b, exported) == Select(a, exported) + Select(b, exported)
  {
    if a == [] {
      assert a + b == b;
    } else {
      assert (a + b)[1..] == a[1..] + b;
      SelectAppend(a[1..], b, exported);
    }
  }

  lemma {:induction false} SelectAll<R>(list: seq<Entry<R>>, exported: bool)
    requires forall i | 0 <= i < |list| :: list[i].exported == exported
    ensures Select(list, exported) == list && Select(list, !exported) == []
  {
    if list != [] {
      SelectAll(list[1..], exported);
    }
  }

  lemma {:induction false} ItemsAppend<R>(a: seq<Entry<R>>, b: seq<Entry<R>>)
    ensures ItemsOf(a + b) == ItemsOf(a) + ItemsOf(b)
  {
    if a == [] {
      assert a + b == b;
    } else {
      assert (a + b)[1..] == a[1..] + b;
      ItemsAppend(a[1..], b);
    }
  }

  lemma ItemsCons<R>(e: Entry<R>, list: seq<Entry<R>>)
    ensures ItemsOf([e] + list) == [Item(e.rec, e.key)] + ItemsOf(list)
  {
    assert ([e] + list)[1..] == list;
  }

  // Putting an entry in front of a list.
  lemma SelectCons<R>(e: Entry<R>, list: seq<Entry<R>>, exported: bool)
    ensures Select([e] + list, exported)
         == if e.exported == exported then [e] + Select(list, exported) else Select(list, exported)
  {
    assert ([e] + list)[1..] == list;
  }

  lemma {:induction false} WithoutSelect<R>(list: seq<Entry<R>>, r: R)
    requires Has(list, r) && !Find(list, r).exported
    ensures Select(Without(list, r), true) == Select(list, true)
  {
    if list[0].rec != r {
      HasTail(list, r);
      WithoutSelect(list[1..], r);
    }
  }

  lemma {:induction false} FillSelect<R>(list: seq<Entry<R>>, r: R, when: nat)
    requires Has(list, r) && !Find(list, r).exported
    ensures multiset(ItemsOf(Select(Fill(list, r, when), true)))
         == multiset(ItemsOf(Select(list, true))) + multiset{Item(r, Find(list, r).key.(expiryTime := when))}
  {
    hide ItemsOf, Select;
    var head, rest := list[0], list[1..];
    assert list == [head] + rest;
    SelectCons(head, rest, true);
    if head.rec == r {
      var filled := head.(key := head.key.(expiryTime := when), exported := true);
      SelectCons(filled, rest, true);
      ItemsCons(filled, Select(rest, true));
    } else {
      HasTail(list, r);
      FillSelect(rest, r, when);
      SelectCons(head, Fill(rest, r, when), true);
      ItemsCons(head, Select(rest, true));
      ItemsCons(head, Select(Fill(rest, r, when), true));
    }
  }

  lemma {:induction false} FlushAccounts<R>(s: Log<R>, recordID: int)
    ensures Accounted(Apply(s, Flush, recordID)) == Accounted(s)
  {
    hide ItemsOf, Select;
    var front, back := s.list[..Kept(s.list)], s.list[Kept(s.list)..];
    assert s.list == front + back;
    SelectAppend(front, back, true);
    SelectAll(back, true);
    ItemsAppend(Select(front, true), back);
    BatchItems(back);
  }

  lemma {:induction false} FlushAllAccounts<R>(s: Log<R>, recordID: int)
    ensures Accounted(Apply(s, FlushAll, recordID)) == Accounted(s) == multiset(Apply(s, FlushAll, recordID).flushed)
    ensures Select(Apply(s, FlushAll, recordID).list, true) == []
  {
    hide Select;
    SelectAll(Select(s.list, false), false);
    BatchItems(Select(s.list, true));
  }

  /** What was exported so far, with its keys, changes by exactly what an operation exports:
      the record gets the expiry time and keeps the rest of its key. */
  lemma {:induction false} ApplyAccounts<R>(s: Log<R>, op: Op<R>, recordID: int)
    requires Enabled(s, op)
    ensures Accounted(Apply(s, op, recordID)) == Accounted(s) + multiset(Exports(s, op))
  {
    hide ItemsOf, Select, Batch;
    match op
    case Start(r, nr) =>
      SelectCons(Entry(r, ExportKey(nr, 0, recordID), false), s.list, true);
    case Move(r, nr) =>
      WithoutSelect(s.list, r);
      SelectCons(Find(s.list, r).(key := Find(s.list, r).key.(packetID := nr)), Without(s.list, r), true);
    case Export(r, when, push) =>
      if push {
        var filled := Find(s.list, r).(key := Find(s.list, r).key.(expiryTime := when), exported := true);
        WithoutSelect(s.list, r);
        SelectCons(filled, Without(s.list, r), true);
        ItemsCons(filled, Select(s.list, true));
      } else {
        FillSelect(s.list, r, when);
      }
    case Drop(r) =>
      WithoutSelect(s.list, r);
    case Flush =>
      FlushAccounts(s, recordID);
    case FlushAll =>
      FlushAllAccounts(s, recordID);
  }

  /** In any order and over any run: what was flushed, and what waits exported in the list,
      are exactly the records that were exported, each once, with the keys they had then.
      After the final flush of everything nothing waits. */
  lemma {:induction false} FlushedIsExported<R>(s: Log<R>, ops: seq<Op<R>>, recordID: int)
    requires Legal(s, ops, recordID)
    ensures Accounted(Run(s, ops, recordID)) == Accounted(s) + multiset(ExportsAll(s, ops, recordID))
    ensures multiset(Apply(Run(s, ops, recordID), FlushAll, recordID).flushed)
         == Accounted(s) + multiset(ExportsAll(s, ops, recordID))
    decreases |ops|
  {
    hide Accounted, Apply, Enabled, Exports;
    if ops == [] {
      FlushAllAccounts(s, recordID);
    } else {
      ApplyAccounts(s, ops[0], recordID);
      FlushedIsExported(Apply(s, ops[0], recordID), ops[1..], recordID);
    }
  }

  /** ---- what is seen of flushed records ---- */

  ghost function Seen<R, T>(items: seq<Item<R>>, f: Item<R> -> T): multiset<T> {
    if items == [] then multiset{} else multiset{f(items[0])} + Seen(items[1..], f)
  }

  lemma {:induction false} SeenAppend<R, T>(a: seq<Item<R>>, b: seq<Item<R>>, f: Item<R> -> T)
    ensures Seen(a + b, f) == Seen(a, f) + Seen(b, f)
  {
    if a == [] {
      assert a + b == b;
    } else {
      assert (a + b)[1..] == a[1..] + b;
      SeenAppend(a[1..], b, f);
    }
  }

  lemma {:induction false} SeenOne<R, T>(x: Item<R>, f: Item<R> -> T)
    ensures Seen([x], f) == multiset{f(x)} && Seen([], f) == multiset{}
  {
    assert [x][1..] == [];
  }

  lemma {:induction false} SeenWithout<R, T>(b: seq<Item<R>>, j: nat, f: Item<R> -> T)
    requires j < |b|
    ensures var others := b[..j] + b[j + 1..];
            multiset(others) == multiset(b) - multiset{b[j]} && Seen(b, f) == multiset{f(b[j])} + Seen(others, f)
  {
    hide Seen;
    var front, one, back := b[..j], [b[j]], b[j + 1..];
    assert b == front + one + back;
    SeenAppend(front + one, back, f);
    SeenAppend(front, one, f);
    SeenAppend(front, back, f);
    SeenOne(b[j], f);
  }

  // The order does not matter.
  lemma {:induction false} SeenSame<R, T>(a: seq<Item<R>>, b: seq<Item<R>>, f: Item<R> -> T)
    requires multiset(a) == multiset(b)
    ensures Seen(a, f) == Seen(b, f)
    decreases |a|
  {
    hide Seen;
    if a == [] {
      assert |multiset(b)| == |b|;
    } else {
      assert a[0] in multiset(b);
      var j :| 0 <= j < |b| && b[j] == a[0];
      SeenWithout(a, 0, f);
      SeenWithout(b, j, f);
      assert a[..0] + a[1..] == a[1..];
      SeenSame(a[1..], b[..j] + b[j + 1..], f);
    }
  }

  function RecOf<R>(i: Item<R>): R {
    i.rec
  }

  function TimeOf<R>(i: Item<R>): (R, nat) {
    (i.rec, i.key.expiryTime)
  }

  // The records, and the records with the times, that are exported.
  ghost function ExportsOf<R>(ops: seq<Op<R>>): multiset<R> {
    if ops == [] then multiset{}
    else (if ops[0].Export? then multiset{ops[0].rec} else multiset{}) + ExportsOf(ops[1..])
  }

  ghost function TimesOf<R>(ops: seq<Op<R>>): multiset<(R, nat)> {
    if ops == [] then multiset{}
    else (if ops[0].Export? then multiset{(ops[0].rec, ops[0].when)} else multiset{}) + TimesOf(ops[1..])
  }

  lemma {:induction false} ExportsSeen<R>(s: Log<R>, ops: seq<Op<R>>, recordID: int)
    requires Legal(s, ops, recordID)
    ensures Seen(ExportsAll(s, ops, recordID), RecOf) == ExportsOf(ops)
    ensures Seen(ExportsAll(s, ops, recordID), TimeOf) == TimesOf(ops)
    decreases |ops|
  {
    hide Apply, Enabled, Seen;
    if ops == [] {
      SeenNothing<R>();
    } else {
      var more := ExportsAll(Apply(s, ops[0], recordID), ops[1..], recordID);
      ExportsSeen(Apply(s, ops[0], recordID), ops[1..], recordID);
      SeenAppend(Exports(s, ops[0]), more, RecOf);
      SeenAppend(Exports(s, ops[0]), more, TimeOf);
      SeenNothing<R>();
      if ops[0].Export? {
        SeenOne(Exports(s, ops[0])[0], RecOf);
        SeenOne(Exports(s, ops[0])[0], TimeOf);
      }
    }
  }

  lemma {:induction false} SeenNothing<R>()
    ensures Seen([], RecOf<R>) == multiset{} && Seen([], TimeOf<R>) == multiset{}
  {
  }

  /** From an empty list on, in any order and over any run: every record is flushed once for
      each time it was exported, and its expiry time is the one it was exported with. */
  lemma {:induction false} FlushedAsExported<R>(ops: seq<Op<R>>, recordID: int)
    requires Legal(Log([], []), ops, recordID)
    ensures var flushed := Apply(Run(Log([], []), ops, recordID), FlushAll, recordID).flushed;
            Seen(flushed, RecOf) == ExportsOf(ops) && Seen(flushed, TimeOf) == TimesOf(ops)
  {
    hide Run, Apply, Seen, ExportsOf, TimesOf, ExportsAll;
    var s: Log<R> := Log([], []);
    var flushed := Apply(Run(s, ops, recordID), FlushAll, recordID).flushed;
    FlushedIsExported(s, ops, recordID);
    assert Accounted(s) == multiset{};
    SeenSame(flushed, ExportsAll(s, ops, recordID), RecOf);
    SeenSame(flushed, ExportsAll(s, ops, recordID), TimeOf);
    ExportsSeen(s, ops, recordID);
  }
}
