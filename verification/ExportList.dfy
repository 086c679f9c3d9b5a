/** A table's export list: a circular doubly linked list of records with a sentinel. */
module ExportList {
  import opened ExportOrder
  import opened ExportRecords
  import opened ExportLog
  import opened Wrappers

  ghost function NextIn(r: seq<ExportRecord>, i: int): ExportRecord
    requires 0 <= i < |r|
  {
    if i + 1 < |r| then r[i + 1] else r[0]
  }

  ghost function PrevIn(r: seq<ExportRecord>, i: int): ExportRecord
    requires 0 <= i < |r|
  {
    if i > 0 then r[i - 1] else r[|r| - 1]
  }

  // r is the sentinel followed by the records front to back, linked in a circle.
  ghost predicate IsRing(r: seq<ExportRecord>)
    reads r`next, r`prev
  {
    && r != [] && NoDuplicates(r)
    && (forall i {:trigger r[i].next} | 0 <= i < |r| :: r[i].next == NextIn(r, i))
    && (forall i {:trigger r[i].prev} | 0 <= i < |r| :: r[i].prev == PrevIn(r, i))
  }

  ghost function Cut<T>(s: seq<T>, k: int): (r: seq<T>)
    requires 0 <= k < |s|
    ensures |r| == |s| - 1
    ensures forall i | 0 <= i < |r| :: r[i] == if i < k then s[i] else s[i + 1]
  {
    s[..k] + s[k + 1..]
  }

  lemma CutKeeps<T>(s: seq<T>, k: int)
    requires 0 <= k < |s|
    ensures multiset([s[k]] + Cut(s, k)) == multiset(s)
  {
    assert s == s[..k] + [s[k]] + s[k + 1..];
    assert multiset([s[k]] + Cut(s, k)) == multiset{s[k]} + multiset(s[..k]) + multiset(s[k + 1..]);
  }

  /** unlink: takes a record out of its list, if it is in one. */
  method Unlink(e: ExportRecord, ghost r: seq<ExportRecord>, ghost k: int)
    requires if k == -1 then e.prev == null && e.next == null && e !in r
             else 0 < k < |r| && e == r[k]
    requires IsRing(r)
    modifies e`next, e`prev, r`next, r`prev
    ensures e.next == null && e.prev == null
    ensures IsRing(if k == -1 then r else Cut(r, k))
  {
    hide NoDuplicates;
    ghost var p, n := e.prev, e.next;
    if k != -1 {
      assert p == r[k - 1] && n == NextIn(r, k);
    }
    OthersDiffer(r, k);
    if e.prev != null {
      e.prev.next := e.next;
    }
    if e.next != null {
      e.next.prev := e.prev;
    }
    e.prev := null;
    e.next := null;
  }

  lemma OthersDiffer(r: seq<ExportRecord>, k: int)
    requires NoDuplicates(r) && r != []
    ensures 0 < k < |r| ==> NoDuplicates(Cut(r, k))
    ensures 0 < k < |r| ==> forall i | 0 <= i < |r| && i != k :: r[i] != r[k]
    ensures 0 < k < |r| ==> forall i | 0 <= i < |r| && i != k - 1 :: r[i] != r[k - 1]
    ensures 0 < k < |r| ==> forall i | 0 <= i < |r| && i != (if k + 1 < |r| then k + 1 else 0) :: r[i] != NextIn(r, k)
  {
  }

  /** insert: puts a record behind another one, here behind the sentinel. */
  method Insert(e: ExportRecord, after: ExportRecord, ghost r: seq<ExportRecord>)
    requires IsRing(r) && after == r[0] && e !in r
    modifies e`next, e`prev, r`next, r`prev
    ensures IsRing([r[0], e] + r[1..])
  {
    var next := after.next;
    after.next := e;
    e.prev := after;
    next.prev := e;
    e.next := next;
  }

  ghost function CellOf(e: ExportRecord): Cell
    reads e`packetID, e`expiryTime, e`recordID
  {
    Item(e, e.Key())
  }

  // A batch under construction: linked through next, prev cleared behind the head.
  ghost predicate Collected(head: ExportRecord?, tail: ExportRecord?, b: seq<Cell>)
    reads Recs(b)
  {
    && Chain(b) && Snapshot(b) && PrevCleared(b)
    && if b == [] then head == null && tail == null else head == b[0].rec && tail == b[|b| - 1].rec
  }

  // The body shared by both flush loops.
  method Collect(head: ExportRecord?, tail: ExportRecord?, elem: ExportRecord, ghost b: seq<Cell>)
    returns (head': ExportRecord)
    requires Collected(head, tail, b) && elem !in Recs(b)
    modifies Recs(b)`next, elem`next, elem`prev
    ensures Collected(head', elem, b + [CellOf(elem)]) && CellOf(elem) == old(CellOf(elem))
    ensures Recs(b + [CellOf(elem)]) == Recs(b) + {elem}
  {
    RecsAppend(b, [CellOf(elem)]);
    if head == null {
      head' := elem;
      head'.next := null;
    } else {
      head' := head;
      tail.next := elem;
      elem.prev := null;
    }
  }

  // Close a batch: the head points back to the tail, the list ends with nil.
  method Close(head: ExportRecord, tail: ExportRecord, ghost b: seq<Cell>)
    requires Collected(head, tail, b) && b != []
    modifies head`prev, tail`next
    ensures IsMessage(head, b) && PrevIsTail(b) && PrevCleared(b)
  {
    head.prev := tail;
    tail.next := null;
  }

  ghost function Entries(nodes: seq<ExportRecord>): (r: seq<Entry<ExportRecord>>)
    reads nodes`packetID, nodes`expiryTime, nodes`recordID, nodes`features
    ensures |r| == |nodes|
    ensures forall i | 0 <= i < |nodes| :: r[i] == Entry(nodes[i], nodes[i].Key(), nodes[i].Exported())
  {
    if nodes == [] then [] else [Entry(nodes[0], nodes[0].Key(), nodes[0].Exported())] + Entries(nodes[1..])
  }

  /** What flushExports removes, record by record: position j of the ring is next. */
  ghost predicate FlushInv(r: seq<ExportRecord>, j: int, b: seq<Cell>)
    reads r
  {
    && 0 <= j < |r| && NoDuplicates(r) && |b| == |r| - 1 - j
    && (forall i {:trigger r[i].next} | 0 <= i < j :: r[i].next == r[i + 1])
    && (forall i {:trigger r[i].prev} | 0 < i <= j :: r[i].prev == r[i - 1])
    && (forall i | j < i < |r| :: r[i].Exported())
    && (forall i | 0 <= i < |b| :: b[i] == CellOf(r[|r| - 1 - i]))
  }

  lemma {:induction false} NextNotCollected(r: seq<ExportRecord>, j: int, b: seq<Cell>)
    requires FlushInv(r, j, b)
    ensures forall i | 0 <= i <= j :: r[i] !in Recs(b)
  {
    forall i | 0 <= i <= j ensures r[i] !in Recs(b) {
      NotInRecs(r[i], b);
    }
  }

  // One exported record moves from the back of the ring to the batch.
  method FlushOne(head: ExportRecord?, tail: ExportRecord?, elem: ExportRecord,
      ghost r: seq<ExportRecord>, ghost j: int, ghost b: seq<Cell>)
    returns (head': ExportRecord, next: ExportRecord)
    requires FlushInv(r, j, b) && Collected(head, tail, b) && j > 0 && elem == r[j] && elem.Exported()
    modifies r`next, elem`prev
    ensures FlushInv(r, j - 1, b + [CellOf(elem)]) && Collected(head', elem, b + [CellOf(elem)]) && next == r[j - 1]
  {
    hide Recs, Chain, Snapshot, PrevCleared;
    NextNotCollected(r, j, b);
    CollectedInRing(r, j, b);
    next := elem.prev;
    head' := Collect(head, tail, elem, b);
  }

  lemma {:induction false} CollectedInRing(r: seq<ExportRecord>, j: int, b: seq<Cell>)
    requires FlushInv(r, j, b)
    ensures forall e | e in Recs(b) :: e in r
  {
    forall e | e in Recs(b) ensures e in r {
      if e !in r { NotInRecs(e, b); }
    }
  }

  // After the loop: the batch gets its prev and nil, and the records that stay are
  // closed to a ring again.
  method Finish(exports: ExportRecord, elem: ExportRecord, head: ExportRecord, tail: ExportRecord,
      ghost r: seq<ExportRecord>, ghost j: int, ghost b: seq<Cell>)
    requires FlushInv(r, j, b) && exports == r[0] && elem == r[j] && Collected(head, tail, b) && b != []
    modifies r`next, r`prev
    ensures IsRing(r[..j + 1]) && FlushInv(r, j, b)
    ensures IsMessage(head, b) && PrevIsTail(b) && PrevCleared(b)
  {
    hide Recs, IsRing;
    NextNotCollected(r, j, b);
    CollectedInRing(r, j, b);
    Close(head, tail, b);
    exports.prev := elem;
    elem.next := exports;
    ClosedRing(r, j, b);
  }

  lemma ClosedRing(r: seq<ExportRecord>, j: int, b: seq<Cell>)
    requires FlushInv(r, j, b) && r[0].prev == r[j] && r[j].next == r[0]
    ensures IsRing(r[..j + 1])
  {
  }

  /** flushExports on one list: take the exported records off the back, stopping at the
      first one that is not exported. */
  method FlushBack(exports: ExportRecord, ghost r: seq<ExportRecord>)
    returns (head: ExportRecord?, ghost j: int, ghost b: seq<Cell>)
    requires IsRing(r) && exports == r[0]
    modifies r`next, r`prev
    ensures FlushInv(r, j, b) && IsRing(r[..j + 1]) && (j > 0 ==> !r[j].Exported())
    ensures head == null <==> b == []
    ensures b != [] ==> IsMessage(head, b) && PrevIsTail(b) && PrevCleared(b)
  {
    hide Recs, Collected, FlushInv, IsMessage, PrevIsTail, PrevCleared;
    var tail: ExportRecord?;
    head, tail := null, null;
    j, b := |r| - 1, [];
    var elem := exports.prev;
    FlushStarts(r);
    while elem != exports
      invariant FlushInv(r, j, b) && 0 <= j < |r| && elem == r[j] && Collected(head, tail, b)
      invariant b == [] ==> IsRing(r) && j == |r| - 1
      decreases j
    {
      if !elem.Exported() {
        break;
      }
      var head', next := FlushOne(head, tail, elem, r, j, b);
      b := b + [CellOf(elem)];
      head, tail, elem, j := head', elem, next, j - 1;
    }
    BatchHead(head, tail, b);
    if head != null {
      Finish(exports, elem, head, tail, r, j, b);
    } else {
      assert r[..j + 1] == r;
    }
  }

  lemma FlushStarts(r: seq<ExportRecord>)
    requires IsRing(r)
    ensures FlushInv(r, |r| - 1, []) && Collected(null, null, []) && Recs([]) == {}
  {
  }

  lemma BatchHead(head: ExportRecord?, tail: ExportRecord?, b: seq<Cell>)
    requires Collected(head, tail, b)
    ensures head == null <==> b == []
    ensures b != [] ==> head != null && tail != null
  {
  }

  // The ring and batch of flushAllExports when position j is next, in terms of the
  // list it started from.
  ghost function RingAt(r: seq<ExportRecord>, list: seq<Entry<ExportRecord>>, j: int): seq<ExportRecord>
    requires 0 <= j < |r| && |r| == |list| + 1
  {
    r[..j + 1] + Nodes(Select(list[j..], false))
  }

  ghost function BatchAt(list: seq<Entry<ExportRecord>>, j: int): seq<Cell>
    requires 0 <= j <= |list|
  {
    Batch(Select(list[j..], true))
  }

  ghost predicate Lists(r: seq<ExportRecord>, list: seq<Entry<ExportRecord>>)
    reads r`packetID, r`expiryTime, r`recordID, r`features
  {
    && |r| == |list| + 1 && NoDuplicates(r)
    && forall i | 0 <= i < |list| :: list[i] == Entry(r[i + 1], r[i + 1].Key(), r[i + 1].Exported())
  }

  // Where a selected entry comes from.
  lemma {:induction false} SelectedAt(r: seq<ExportRecord>, list: seq<Entry<ExportRecord>>, j: int, exported: bool,
                                      i: int)
    returns (k: int)
    requires Lists(r, list) && 0 <= j < |r| && 0 <= i < |Select(list[j..], exported)|
    ensures j < k < |r| && Select(list[j..], exported)[i].rec == r[k] && r[k].Exported() == exported
  {
    hide Select;
    var e := Select(list[j..], exported)[i];
    assert e in Select(list[j..], exported);
    assert e in list[j..];
    var l :| 0 <= l < |list[j..]| && list[j..][l] == e;
    k := j + l + 1;
    assert list[j + l] == e;
  }

  lemma {:induction false} BatchRecIn(r: seq<ExportRecord>, list: seq<Entry<ExportRecord>>, j: int, i: int)
    returns (k: int)
    requires Lists(r, list) && 0 <= j < |r| && 0 <= i < |BatchAt(list, j)|
    ensures j < k < |r| && BatchAt(list, j)[i].rec == r[k] && r[k].Exported()
  {
    hide Select, Batch;
    k := SelectedAt(r, list, j, true, |Select(list[j..], true)| - 1 - i);
  }

  // The batch consists of records behind position j and has none in common with the ring.
  lemma {:induction false} BatchApart(r: seq<ExportRecord>, list: seq<Entry<ExportRecord>>, j: int)
    requires Lists(r, list) && 0 <= j < |r|
    ensures forall e | e in Recs(BatchAt(list, j)) :: e in r
    ensures forall i | 0 <= i < |RingAt(r, list, j)| :: RingAt(r, list, j)[i] !in Recs(BatchAt(list, j))
  {
    hide Select, Batch, Recs, BatchAt;
    var b, ring := BatchAt(list, j), RingAt(r, list, j);
    forall e | e in Recs(b) ensures e in r {
      if e !in r {
        forall i | 0 <= i < |b| ensures b[i].rec != e { var k := BatchRecIn(r, list, j, i); }
        NotInRecs(e, b);
      }
    }
    forall x | 0 <= x < |ring| ensures ring[x] !in Recs(b) {
      var y := x;
      if x > j { y := SelectedAt(r, list, j, false, x - j - 1); }
      assert ring[x] == r[y] && (y <= j || !r[y].Exported());
      forall i | 0 <= i < |b| ensures b[i].rec != ring[x] { var k := BatchRecIn(r, list, j, i); }
      NotInRecs(ring[x], b);
    }
  }

  // Between two iterations of flushAllExports.
  ghost predicate FlushAllInv(r: seq<ExportRecord>, list: seq<Entry<ExportRecord>>, j: int,
      head: ExportRecord?, tail: ExportRecord?)
    requires 0 <= j < |r| && |r| == |list| + 1
    reads r, RingAt(r, list, j), Recs(BatchAt(list, j))
  {
    Lists(r, list) && IsRing(RingAt(r, list, j)) && Collected(head, tail, BatchAt(list, j))
  }

  // Passing the record at position j: what the two parts become.
  lemma {:induction false} PassBatch(list: seq<Entry<ExportRecord>>, j: int)
    requires 0 < j <= |list|
    ensures BatchAt(list, j - 1)
         == if list[j - 1].exported then BatchAt(list, j) + [Item(list[j - 1].rec, list[j - 1].key)]
            else BatchAt(list, j)
  {
    hide Select, Batch;
    var e, rest := list[j - 1], list[j..];
    assert list[j - 1..] == [e] + rest;
    SelectCons(e, rest, true);
    BatchCons(e, Select(rest, true));
  }

  lemma {:induction false} PassRing(r: seq<ExportRecord>, list: seq<Entry<ExportRecord>>, j: int)
    requires 0 < j < |r| && |r| == |list| + 1 && list[j - 1].rec == r[j]
    ensures list[j - 1].exported ==> |RingAt(r, list, j)| > j && RingAt(r, list, j - 1) == Cut(RingAt(r, list, j), j)
    ensures !list[j - 1].exported ==> RingAt(r, list, j - 1) == RingAt(r, list, j)
  {
    hide Select, Nodes, Cut;
    var e, rest := list[j - 1], list[j..];
    var no := Select(rest, false);
    assert list[j - 1..] == [e] + rest;
    SelectCons(e, rest, false);
    assert r[..j + 1] == r[..j] + [r[j]];
    CutMiddle(r[..j], r[j], Nodes(no));
    NodesCons(e, no);
  }

  lemma CutMiddle<T>(a: seq<T>, x: T, b: seq<T>)
    ensures |(a + [x]) + b| > |a| && Cut((a + [x]) + b, |a|) == a + b
    ensures a + ([x] + b) == (a + [x]) + b
  {
  }

  // After a record is cut out of the ring, neither it nor the batch touch the ring.
  lemma CutApart(ring: seq<ExportRecord>, j: int, b: set<ExportRecord>)
    requires NoDuplicates(ring) && 0 <= j < |ring| && forall i | 0 <= i < |ring| :: ring[i] !in b
    ensures forall e | e in Cut(ring, j) :: e != ring[j] && e !in b
  {
  }

  lemma CutInside(s: seq<ExportRecord>, k: int)
    requires 0 <= k < |s|
    ensures forall e | e in Cut(s, k) :: e in s
  {
  }

  lemma RingDistinct(ring: seq<ExportRecord>)
    requires IsRing(ring)
    ensures NoDuplicates(ring)
  {
  }

  lemma BatchCons<R>(e: Entry<R>, list: seq<Entry<R>>)
    ensures Batch([e] + list) == Batch(list) + [Item(e.rec, e.key)]
  {
    assert ([e] + list)[1..] == list;
  }

  lemma NodesCons<R>(e: Entry<R>, list: seq<Entry<R>>)
    ensures Nodes([e] + list) == [e.rec] + Nodes(list)
  {
    assert ([e] + list)[1..] == list;
  }

  lemma {:induction false} RingInside(r: seq<ExportRecord>, list: seq<Entry<ExportRecord>>, j: int)
    requires Lists(r, list) && 0 <= j < |r|
    ensures |RingAt(r, list, j)| > j && RingAt(r, list, j)[j] == r[j]
    ensures forall i | 0 <= i < |RingAt(r, list, j)| :: RingAt(r, list, j)[i] in r
  {
    hide Select;
    var ring := RingAt(r, list, j);
    forall i | 0 <= i < |ring| ensures ring[i] in r {
      if i > j {
        var k := SelectedAt(r, list, j, false, i - j - 1);
      }
    }
  }

  method PassOne(head: ExportRecord?, tail: ExportRecord?, elem: ExportRecord,
      ghost r: seq<ExportRecord>, ghost list: seq<Entry<ExportRecord>>, ghost j: int)
    returns (head': ExportRecord?, tail': ExportRecord?)
    requires 0 < j < |r| && |r| == |list| + 1 && FlushAllInv(r, list, j, head, tail) && elem == r[j]
    modifies r`next, r`prev
    ensures FlushAllInv(r, list, j - 1, head', tail')
  {
    hide Recs, Chain, Snapshot, PrevCleared, RingAt, BatchAt, IsRing;
    PassBatch(list, j);
    PassRing(r, list, j);
    BatchApart(r, list, j);
    RingInside(r, list, j);
    if elem.Exported() {
      ghost var ring, b := RingAt(r, list, j), BatchAt(list, j);
      assert allocated(Recs(b));
      RingDistinct(ring);
      CutApart(ring, j, Recs(b));
      Unlink(elem, ring, j);
      head' := Collect(head, tail, elem, b);
      tail' := elem;
    } else {
      head', tail' := head, tail;
    }
  }

  /** flushAllExports on one list: take all exported records, back to front. */
  method FlushEvery(exports: ExportRecord, ghost r: seq<ExportRecord>, ghost list: seq<Entry<ExportRecord>>)
    returns (head: ExportRecord?)
    requires IsRing(r) && exports == r[0] && Lists(r, list)
    modifies r`next, r`prev
    ensures IsRing(RingAt(r, list, 0))
    ensures head == null <==> BatchAt(list, 0) == []
    ensures head != null ==> IsMessage(head, BatchAt(list, 0))
    ensures head != null ==> PrevIsTail(BatchAt(list, 0)) && PrevCleared(BatchAt(list, 0))
  {
    hide Recs, Collected, FlushAllInv, IsMessage, PrevIsTail, PrevCleared, RingAt, BatchAt, IsRing;
    var tail: ExportRecord?;
    head, tail := null, null;
    ghost var j := |r| - 1;
    var elem := exports.prev;
    AllStarts(r, list);
    while elem != exports
      invariant |r| == |list| + 1 && 0 <= j < |r| && NoDuplicates(r) && elem == r[j] && exports == r[0]
      invariant FlushAllInv(r, list, j, head, tail)
      decreases j
    {
      AllNext(r, list, j, head, tail);
      var next := elem.prev;
      head, tail := PassOne(head, tail, elem, r, list, j);
      j := j - 1;
      elem := next;
    }
    AllEnds(r, list, head, tail);
    if head != null {
      assert allocated(Recs(BatchAt(list, 0))) && allocated(RingAt(r, list, 0));
      Close(head, tail, BatchAt(list, 0));
    }
  }

  lemma {:induction false} AllStarts(r: seq<ExportRecord>, list: seq<Entry<ExportRecord>>)
    requires IsRing(r) && Lists(r, list)
    ensures FlushAllInv(r, list, |r| - 1, null, null) && NoDuplicates(r) && r[0].prev == r[|r| - 1]
  {
    assert r[0].prev == PrevIn(r, 0);
    assert list[|list|..] == [] && r[..|r|] + [] == r;
    assert RingAt(r, list, |r| - 1) == r && BatchAt(list, |r| - 1) == [];
  }

  lemma {:induction false} AllNext(r: seq<ExportRecord>, list: seq<Entry<ExportRecord>>, j: int,
      head: ExportRecord?, tail: ExportRecord?)
    requires 0 < j < |r| && |r| == |list| + 1 && FlushAllInv(r, list, j, head, tail)
    ensures r[j].prev == r[j - 1]
  {
    var ring := RingAt(r, list, j);
    assert ring[j] == r[j] && ring[j - 1] == r[j - 1];
    assert ring[j].prev == PrevIn(ring, j);
  }

  lemma {:induction false} AllEnds(r: seq<ExportRecord>, list: seq<Entry<ExportRecord>>, head: ExportRecord?,
                                   tail: ExportRecord?)
    requires |r| == |list| + 1 && FlushAllInv(r, list, 0, head, tail)
    ensures IsRing(RingAt(r, list, 0)) && Collected(head, tail, BatchAt(list, 0))
    ensures head == null <==> BatchAt(list, 0) == []
    ensures head != null ==> tail != null && head in r && tail in r
    ensures var ring := RingAt(r, list, 0); forall i | 0 <= i < |ring| :: ring[i] != head && ring[i] != tail
  {
    BatchApart(r, list, 0);
  }

  /** A table's list for one record position, together with what it has flushed. */
  class TableExports {
    const head: ExportRecord
    const sortOutput: SortType
    const recordID: int
    var expiring: bool
    ghost var nodes: seq<ExportRecord>      // front to back
    ghost var flushed: seq<Cell>

    ghost predicate Valid()
      reads this`nodes, head`next, head`prev, nodes`next, nodes`prev
    {
      IsRing([head] + nodes)
    }

    ghost function Abs(): Log<ExportRecord>
      reads this, nodes`packetID, nodes`expiryTime, nodes`recordID, nodes`features
    {
      Log(Entries(nodes), flushed)
    }

    constructor (sortOutput: SortType, recordID: int)
      ensures Valid() && fresh(head) && Abs() == Log([], []) && !expiring
      ensures this.sortOutput == sortOutput && this.recordID == recordID
    {
      this.sortOutput, this.recordID, expiring := sortOutput, recordID, false;
      head := new ExportRecord(0, 0);
      nodes, flushed := [], [];
      new;
      head.next := head;
      head.prev := head;
    }

    // The position of a record in the list.
    ghost function Position(e: ExportRecord): (k: int)
      requires e in nodes
      reads this
      ensures 0 <= k < |nodes| && nodes[k] == e
    {
      var k :| 0 <= k < |nodes| && nodes[k] == e;
      k
    }

    // The abstract operations on a record of the list, by its position.
    lemma {:induction false} AbsAt(e: ExportRecord, when: nat)
      requires Valid() && e in nodes
      ensures var k := Position(e); var list := Entries(nodes);
              && Has(list, e) && Find(list, e) == Entry(e, e.Key(), e.Exported())
              && Without(list, e) == Entries(Cut(nodes, k))
              && Fill(list, e, when) == list[k := list[k].(key := list[k].key.(expiryTime := when), exported := true)]
    {
      var k, list := Position(e), Entries(nodes);
      NodesDistinct();
      AtPosition(list, e, when, k);
      assert list[..k] + list[k + 1..] == Entries(Cut(nodes, k));
    }

    lemma {:induction false} NodesDistinct()
      requires Valid()
      ensures NoDuplicates(nodes) && head !in nodes && DistinctRecs(Entries(nodes))
    {
      var r := [head] + nodes;
      forall i | 0 <= i < |nodes| ensures nodes[i] == r[i + 1] && nodes[i] != r[0] {}
    }

    // Taking e out of the ring and out of the list is the same position.
    lemma {:induction false} RingPosition(e: ExportRecord)
      requires Valid() && e in nodes
      ensures var r := [head] + nodes; var k := Position(e);
              && r[k + 1] == e && Cut(r, k + 1) == [head] + Cut(nodes, k) && e !in Cut(nodes, k) && e != head
    {
      NodesDistinct();
    }

    // e.unlink() on a record of this list, or on one that is in no list.
    method Take(e: ExportRecord)
      requires Valid() && e != head && (e in nodes || (e.next == null && e.prev == null))
      modifies this`nodes, e`next, e`prev, head`next, head`prev, nodes`next, nodes`prev
      ensures Valid() && e !in nodes && e.next == null && e.prev == null
      ensures nodes == if e in old(nodes) then Cut(old(nodes), old(Position(e))) else old(nodes)
    {
      hide IsRing;
      ghost var k := if e in nodes then Position(e) else -1;
      if e in nodes {
        RingPosition(e);
      }
      Unlink(e, [head] + nodes, if k >= 0 then k + 1 else -1);
      nodes := if k >= 0 then Cut(nodes, k) else nodes;
    }

    // e.insert(head) on a record that is in no list.
    method PutFront(e: ExportRecord)
      requires Valid() && e != head && e !in nodes
      modifies this`nodes, e`next, e`prev, head`next, head`prev, nodes`next, nodes`prev
      ensures Valid() && nodes == [e] + old(nodes)
    {
      hide IsRing;
      Insert(e, head, [head] + nodes);
      assert [head, e] + ([head] + nodes)[1..] == [head] + ([e] + nodes);
      nodes := [e] + nodes;
    }

    /** pushExport: (re)insert at the front, except without sorting and while expiring in
        expiry order. */
    method PushExport(e: ExportRecord)
      requires Valid() && e != head && (e in nodes || (e.next == null && e.prev == null))
      modifies this`nodes, e`next, e`prev, head`next, head`prev, nodes`next, nodes`prev
      ensures Valid()
      ensures nodes == if sortOutput == SortNone || (expiring && sortOutput == ExpiryTime) then old(nodes)
                       else [e] + if e in old(nodes) then Cut(old(nodes), old(Position(e))) else old(nodes)
      ensures Entries(nodes)
           == if sortOutput == SortNone || (expiring && sortOutput == ExpiryTime) then old(Entries(nodes))
              else old([Entry(e, e.Key(), e.Exported())]
                       + Entries(if e in nodes then Cut(nodes, Position(e)) else nodes))
    {
      hide IsRing, Entries, NoDuplicates;
      if sortOutput == SortNone {
        return;
      }
      if expiring && sortOutput == ExpiryTime {
        return;
      }
      ghost var rest := if e in nodes then Cut(nodes, Position(e)) else nodes;
      EntriesCons(e, rest);
      Take(e);
      PutFront(e);
    }

    lemma {:induction false} EntriesCons(e: ExportRecord, rest: seq<ExportRecord>)
      ensures Entries([e] + rest) == [Entry(e, e.Key(), e.Exported())] + Entries(rest)
    {
    }

    /** record.start: without sorting there is no export record; otherwise a leftover that
        was never exported leaves the list, and a new record enters it in front. */
    method Start(packetID: nat, leftover: ExportRecord?) returns (e: ExportRecord?)
      requires Valid() && !expiring && (leftover != null ==> leftover in nodes && !leftover.Exported())
      modifies this`nodes, head`next, head`prev, nodes`next, nodes`prev
      ensures Valid() && (e == null <==> sortOutput == SortNone)
      ensures e == null ==> Abs() == old(Abs())
      ensures e != null ==> fresh(e) && e in nodes && !e.Exported() && e.Key() == ExportKey(packetID, 0, recordID)
      ensures e != null ==>
                var s := old(Abs());
                var s1 := if leftover == null then s
                          else if Enabled(s, Drop(leftover)) then Apply(s, Drop(leftover), recordID) else s;
                && (leftover != null ==> Enabled(s, Drop(leftover)))
                && Enabled(s1, ExportLog.Op.Start(e, packetID))
                && Abs() == Apply(s1, ExportLog.Op.Start(e, packetID), recordID)
    {
      hide IsRing, Entries, Has, Find, Without, Fill, Position, Cut;
      if sortOutput == SortNone {
        return null;
      }
      if leftover != null {
        Destroy(leftover);
      }
      assert forall i | 0 <= i < |nodes| :: nodes[i] in old(nodes);
      e := StartNew(packetID);
    }

    method StartNew(packetID: nat) returns (e: ExportRecord)
      requires Valid() && !expiring && sortOutput != SortNone
      modifies this`nodes, head`next, head`prev, nodes`next, nodes`prev
      ensures Valid() && fresh(e) && e in nodes && !e.Exported() && e.Key() == ExportKey(packetID, 0, recordID)
      ensures Enabled(old(Abs()), ExportLog.Op.Start(e, packetID))
      ensures Abs() == Apply(old(Abs()), ExportLog.Op.Start(e, packetID), recordID)
    {
      hide IsRing, Entries, Has, Find, Without, Fill, Position, Cut;
      ghost var list := Entries(nodes);
      e := new ExportRecord(packetID, recordID);
      NotYetIn(e);
      PushExport(e);
      assert Entries(nodes) == [Entry(e, ExportKey(packetID, 0, recordID), false)] + list;
    }

    lemma {:induction false} NotYetIn(e: ExportRecord)
      requires e !in nodes
      ensures !Has(Entries(nodes), e)
    {
    }

    /** record.filteredEvent: in stop and expiry order a packet moves the record to the front. */
    method FilteredEvent(e: ExportRecord, packetID: nat)
      requires Valid() && !expiring && e in nodes && !e.Exported()
      modifies this`nodes, e, head`next, head`prev, nodes`next, nodes`prev
      ensures Valid() && e in nodes && Enabled(old(Abs()), Move(e, packetID))
      ensures Abs() == if sortOutput == StopTime || sortOutput == ExpiryTime
                       then Apply(old(Abs()), Move(e, packetID), recordID) else old(Abs())
      // its key gets the packet number, unless it keeps that of the first packet
      ensures e.Key() == if sortOutput == StopTime || sortOutput == ExpiryTime then old(e.Key()).(packetID := packetID)
                         else old(e.Key())
    {
      hide IsRing, Entries, Has, Find, Without, Fill, Position, Cut, Apply, Kept, Batch, Select, NoDuplicates,
        Linked, DistinctRecs;
      AbsAt(e, 0);
      RingPosition(e);
      MoveIs(Abs(), e, packetID, recordID);
      if sortOutput == StopTime || sortOutput == ExpiryTime {
        ghost var rest := Cut(nodes, Position(e));
        ghost var others := Entries(rest);
        e.packetID := packetID;
        PushExport(e);
      }
    }

    // The part of record.Export that fills in the export record.
    method FillIn(e: ExportRecord, when: nat, features: nat)
      requires Valid() && e in nodes && features > 0
      modifies e`expiryTime, e`features
      ensures Valid() && e.Key() == old(e.Key()).(expiryTime := when) && e.Exported()
      ensures Entries(nodes) == old(Entries(nodes))[Position(e) := Entry(e, e.Key(), true)]
      ensures Entries(Cut(nodes, Position(e))) == old(Entries(Cut(nodes, Position(e))))
      ensures forall n | n in nodes && n != e :: n.Key() == old(n.Key()) && n.Exported() == old(n.Exported())
    {
      hide IsRing, Entries, NoDuplicates;
      NodesDistinct();
      ghost var k := Position(e);
      CutInside(nodes, k);
      RingPosition(e);
      e.expiryTime := when;
      e.features := features;
    }

    /** record.Export: fill in the features; in expiry order also move to the front. The
        record's key gets the expiry time, the other records only another place. */
    method Export(e: ExportRecord, when: nat, features: nat)
      requires Valid() && e in nodes && !e.Exported() && features > 0
      modifies this`nodes, e, head`next, head`prev, nodes`next, nodes`prev
      ensures Valid()
      ensures var op := ExportLog.Op.Export(e, when, sortOutput == ExpiryTime && !expiring);
              Enabled(old(Abs()), op) && Abs() == Apply(old(Abs()), op, recordID)
      ensures e.Key() == old(e.Key()).(expiryTime := when) && e.Exported()
      ensures forall n | n in old(nodes) && n != e :: n.Key() == old(n.Key()) && n.Exported() == old(n.Exported())
      ensures multiset(nodes) == multiset(old(nodes))
    {
      hide IsRing, Entries, Has, Find, Without, Fill, Position, Cut, Apply, NoDuplicates, DistinctRecs;
      AbsAt(e, when);
      RingPosition(e);
      ExportIs(Abs(), e, when, sortOutput == ExpiryTime && !expiring, recordID);
      CutKeeps(nodes, Position(e));
      ghost var k, others, before := Position(e), Entries(Cut(nodes, Position(e))), Abs();
      ghost var op := ExportLog.Op.Export(e, when, sortOutput == ExpiryTime && !expiring);
      FillIn(e, when, features);
      if sortOutput == ExpiryTime {
        PushExport(e);
      }
      assert Abs() == Apply(before, op, recordID);
    }

    /** record.Destroy: a record that was never exported leaves the list. */
    method Destroy(e: ExportRecord)
      requires Valid() && e in nodes && !e.Exported()
      modifies this`nodes, e`next, e`prev, head`next, head`prev, nodes`next, nodes`prev
      ensures Valid() && Enabled(old(Abs()), Drop(e)) && Abs() == Apply(old(Abs()), Drop(e), recordID)
      ensures forall n | n in nodes :: n in old(nodes)
    {
      hide IsRing, Entries, Has, Find, Without, Fill, Position, Cut;
      AbsAt(e, 0);
      RingPosition(e);
      ghost var others := Entries(Cut(nodes, Position(e)));
      CutInside(nodes, Position(e));
      Take(e);
      assert Entries(nodes) == others;
    }

    // The loop of flushExports, in terms of the list: where it stops, and what it sends.
    method FlushTail() returns (batch: ExportRecord?, ghost j: int, ghost b: seq<Cell>)
      requires Valid()
      modifies head`next, head`prev, nodes`next, nodes`prev
      ensures j == Kept(old(Entries(nodes))) && b == Batch(old(Entries(nodes))[j..])
      ensures IsRing([head] + nodes[..j]) && Entries(nodes[..j]) == old(Entries(nodes))[..j]
      ensures batch == null <==> b == []
      ensures batch != null ==> IsMessage(batch, b) && PrevIsTail(b)
    {
      hide IsRing, FlushInv, IsMessage, PrevIsTail, PrevCleared, Kept, Batch, Entries, Lists, Snapshot, Recs;
      ghost var r, list := [head] + nodes, Entries(nodes);
      RingLists();
      batch, j, b := FlushBack(head, r);
      assert Entries(nodes) == list;
      BackIsFlushed(r, list, j, b);
      RingFront(j);
    }

    /** flushExports: the batch sent is a well-formed message, and the list keeps the rest. */
    method FlushExports() returns (batch: ExportRecord?, ghost b: seq<Cell>)
      requires Valid()
      modifies this`nodes, this`flushed, head`next, head`prev, nodes`next, nodes`prev
      ensures Valid() && Abs() == Apply(old(Abs()), Flush, recordID) && flushed == old(flushed) + b
      ensures batch == null <==> b == []
      ensures batch != null ==> IsMessage(batch, b) && PrevIsTail(b)
    {
      hide IsRing, IsMessage, PrevIsTail, Kept, Batch, Entries, Apply, Select, Without, Fill, Find, Has;
      ghost var j;
      FlushIs(Abs(), recordID);
      batch, j, b := FlushTail();
      nodes := nodes[..j];
      flushed := flushed + b;
    }

    lemma {:induction false} RingFront(j: int)
      requires 0 <= j <= |nodes|
      ensures ([head] + nodes)[..j + 1] == [head] + nodes[..j] && Entries(nodes[..j]) == Entries(nodes)[..j]
    {
    }

    lemma {:induction false} BackIsFlushed(r: seq<ExportRecord>, list: seq<Entry<ExportRecord>>, j: int, b: seq<Cell>)
      requires FlushInv(r, j, b) && (j > 0 ==> !r[j].Exported()) && Lists(r, list)
      ensures 0 <= j < |r| && Kept(list) == j && b == Batch(list[j..])
    {
      hide Kept, Batch;
      forall i | j <= i < |list| ensures list[i].exported { assert r[i + 1].Exported(); }
      KeptIs(list, j);
      var back := list[j..];
      assert |Batch(back)| == |b|;
      forall i | 0 <= i < |b| ensures b[i] == Batch(back)[i] {
        assert back[|back| - 1 - i] == list[|list| - 1 - i];
      }
    }

    /** flushAllExports: everything exported is sent, everything else stays in order. */
    method FlushAllExports() returns (batch: ExportRecord?, ghost b: seq<Cell>)
      requires Valid()
      modifies this`nodes, this`flushed, head`next, head`prev, nodes`next, nodes`prev
      ensures Valid() && Abs() == Apply(old(Abs()), FlushAll, recordID) && flushed == old(flushed) + b
      ensures batch == null <==> b == []
      ensures batch != null ==> IsMessage(batch, b) && PrevIsTail(b)
    {
      hide IsRing, IsMessage, PrevIsTail, PrevCleared, Batch, Entries, Select, Nodes, Lists, Recs, Snapshot, Linked,
        Distinct;
      ghost var r, list := [head] + nodes, Entries(nodes);
      RingLists();
      batch := FlushEvery(head, r, list);
      assert list[0..] == list;
      b := BatchAt(list, 0);
      nodes := Nodes(Select(list, false));
      flushed := flushed + b;
      assert RingAt(r, list, 0) == [head] + nodes;
      StaysAsListed(r, list);
    }

    lemma {:induction false} RingLists()
      requires Valid()
      ensures Lists([head] + nodes, Entries(nodes))
    {
      var r := [head] + nodes;
      forall i | 0 <= i < |nodes| ensures r[i + 1] == nodes[i] {}
    }

    lemma {:induction false} StaysAsListed(r: seq<ExportRecord>, list: seq<Entry<ExportRecord>>)
      requires r != [] && Lists(r, list)
      ensures Entries(Nodes(Select(list, false))) == Select(list, false)
    {
      var kept := Select(list, false);
      forall i | 0 <= i < |kept| ensures Entries(Nodes(kept))[i] == kept[i] {
        assert kept[i] in kept;
        var k :| 0 <= k < |list| && list[k] == kept[i];
      }
    }
  }
}
