/** Export records on the heap, and the singly linked batches ("messages") the
    stages of the export pipeline pass to each other. */
module ExportRecords {
  import opened ExportOrder

  class ExportRecord {
    var packetID: nat
    var expiryTime: nat
    var recordID: int
    var features: nat           // number of exported features filled in so far
    var next: ExportRecord?
    var prev: ExportRecord?

    constructor (packetID: nat, recordID: int)
      ensures Key() == ExportKey(packetID, 0, recordID)
      ensures features == 0 && next == null && prev == null
    {
      this.packetID, this.expiryTime, this.recordID := packetID, 0, recordID;
      features := 0;
      next, prev := null, null;
    }

    function Key(): ExportKey
      reads this`packetID, this`expiryTime, this`recordID
    {
      ExportKey(packetID, expiryTime, recordID)
    }

    predicate Exported()
      reads this`features
    {
      features != 0
    }
  }

  // A record and the key it carries; linking never changes keys.
  type Cell = Item<ExportRecord>

  ghost function Recs(s: seq<Cell>): (r: set<ExportRecord>)
    ensures forall i | 0 <= i < |s| :: s[i].rec in r
  {
    if s == [] then {} else {s[0].rec} + Recs(s[1..])
  }

  ghost predicate Distinct(s: seq<Cell>) {
    forall i, j | 0 <= i < j < |s| :: s[i].rec != s[j].rec
  }

  // The cells record the keys their records have.
  ghost predicate Snapshot(s: seq<Cell>)
    reads Recs(s)`packetID, Recs(s)`expiryTime, Recs(s)`recordID
  {
    forall i | 0 <= i < |s| :: s[i].rec.Key() == s[i].key
  }

  // The records of `s`, in this order, form a nil-terminated list.
  ghost predicate Linked(s: seq<Cell>)
    reads Recs(s)`next
  {
    && Distinct(s)
    && forall i {:trigger s[i].rec.next} | 0 <= i < |s| :: s[i].rec.next == After(s, i)
  }

  // What follows position i of a nil-terminated list.
  ghost function After(s: seq<Cell>, i: int): ExportRecord?
    requires 0 <= i < |s|
  {
    if i + 1 < |s| then s[i + 1].rec else null
  }

  // A list under construction: the last record's next field may still be anything.
  ghost predicate Chain(s: seq<Cell>)
    reads Recs(s)`next
  {
    && Distinct(s)
    && forall i {:trigger s[i].rec.next} | 0 <= i < |s| - 1 :: s[i].rec.next == s[i + 1].rec
  }

  // The prev fields of all records but the first are nil.
  ghost predicate PrevCleared(s: seq<Cell>)
    reads Recs(s)`prev
  {
    forall i | 0 < i < |s| :: s[i].rec.prev == null
  }

  // The head of a message points back to its tail.
  ghost predicate PrevIsTail(s: seq<Cell>)
    reads Recs(s)`prev
  {
    s != [] && s[0].rec.prev == s[|s| - 1].rec
  }

  ghost predicate IsMessage(elem: ExportRecord, s: seq<Cell>)
    reads Recs(s)`next, Recs(s)`packetID, Recs(s)`expiryTime, Recs(s)`recordID
  {
    s != [] && elem == s[0].rec && Linked(s) && Snapshot(s)
  }

  ghost function Owned(msgs: seq<seq<Cell>>): set<ExportRecord> {
    if msgs == [] then {} else Recs(msgs[0]) + Owned(msgs[1..])
  }

  /** The messages `chan` carry exactly the cell sequences `msgs`; the records are
      pairwise distinct, and the first `strict` messages have head.prev == tail. */
  ghost predicate Carries(chan: seq<ExportRecord>, msgs: seq<seq<Cell>>, strict: int)
    reads Owned(msgs)
    decreases |msgs|
  {
    if msgs == [] then chan == []
    else
      && chan != [] && IsMessage(chan[0], msgs[0])
      && (strict > 0 ==> PrevIsTail(msgs[0]))
      && Recs(msgs[0]) !! Owned(msgs[1..])
      && Carries(chan[1..], msgs[1..], strict - 1)
  }

  /** What a channel between two stages promises: every message except possibly the
      last one before the close has head.prev == tail. */
  ghost predicate Stream(chan: seq<ExportRecord>, msgs: seq<seq<Cell>>)
    reads Owned(msgs)
  {
    Carries(chan, msgs, |msgs| - 1)
  }

  // There is a last message, and its head points to its tail.
  ghost predicate EndsTight(msgs: seq<seq<Cell>>)
    reads Owned(msgs)
    decreases |msgs|
  {
    msgs != [] && if |msgs| == 1 then PrevIsTail(msgs[0]) else EndsTight(msgs[1..])
  }

  lemma {:induction false} EndsTightAppend(msgs: seq<seq<Cell>>, more: seq<seq<Cell>>)
    requires more != []
    ensures EndsTight(msgs + more) <==> EndsTight(more)
    decreases |msgs|
  {
    if msgs == [] {
      assert msgs + more == more;
    } else {
      assert (msgs + more)[1..] == msgs[1..] + more;
      EndsTightAppend(msgs[1..], more);
    }
  }

  lemma EndsTightLast(msgs: seq<seq<Cell>>)
    requires msgs != []
    ensures EndsTight(msgs) <==> PrevIsTail(msgs[|msgs| - 1])
  {
    var last := msgs[|msgs| - 1];
    assert msgs == msgs[..|msgs| - 1] + [last];
    EndsTightAppend(msgs[..|msgs| - 1], [last]);
  }

  lemma {:induction false} RecsAppend(s: seq<Cell>, t: seq<Cell>)
    ensures Recs(s + t) == Recs(s) + Recs(t)
  {
    if s == [] {
      assert s + t == t;
    } else {
      assert (s + t)[1..] == s[1..] + t;
      RecsAppend(s[1..], t);
    }
  }

  lemma {:induction false} OwnedAppend(msgs: seq<seq<Cell>>, m: seq<Cell>)
    ensures Owned(msgs + [m]) == Owned(msgs) + Recs(m)
  {
    if msgs == [] {
      assert msgs + [m] == [m] && [m][1..] == [];
      assert Owned([m]) == Recs(m) + Owned([]);
    } else {
      assert (msgs + [m])[1..] == msgs[1..] + [m];
      OwnedAppend(msgs[1..], m);
    }
  }

  // A record outside every cell is outside the set.
  lemma {:induction false} NotInRecs(r: ExportRecord, s: seq<Cell>)
    requires forall i | 0 <= i < |s| :: s[i].rec != r
    ensures r !in Recs(s)
  {
    if s != [] {
      NotInRecs(r, s[1..]);
    }
  }

  // Cutting a list after its first record.
  lemma LinkedTail(s: seq<Cell>)
    requires s != [] && Linked(s)
    ensures Linked(s[1..]) && s[0].rec !in Recs(s[1..])
  {
    var t := s[1..];
    forall i | 0 <= i < |t| ensures t[i].rec.next == After(t, i) {
      assert t[i] == s[i + 1];
    }
    NotInRecs(s[0].rec, t);
  }

  // Two lists joined by the next field of the first one's last record.
  lemma JoinIsLinked(s: seq<Cell>, t: seq<Cell>)
    requires Distinct(s) && Linked(t) && t != [] && Recs(s) !! Recs(t)
    requires forall i | 0 <= i < |s| :: s[i].rec.next == After(s + t, i)
    ensures Linked(s + t)
  {
    var u := s + t;
    forall i | |s| <= i < |u| ensures u[i].rec.next == After(u, i) {
      assert u[i] == t[i - |s|];
    }
  }

  // Sending one more message on a channel.
  lemma {:induction false} CarriesAppend(chan: seq<ExportRecord>, msgs: seq<seq<Cell>>, strict: int,
      elem: ExportRecord, m: seq<Cell>)
    requires Carries(chan, msgs, strict) && strict <= |msgs|
    requires IsMessage(elem, m) && Recs(m) !! Owned(msgs)
    ensures Carries(chan + [elem], msgs + [m], strict)
    ensures strict == |msgs| && PrevIsTail(m) ==> Carries(chan + [elem], msgs + [m], |msgs| + 1)
  {
    if msgs == [] {
      assert msgs + [m] == [m] && [m][1..] == [] && chan + [elem] == [elem];
    } else {
      assert (msgs + [m])[1..] == msgs[1..] + [m] && (chan + [elem])[1..] == chan[1..] + [elem];
      OwnedAppend(msgs[1..], m);
      CarriesAppend(chan[1..], msgs[1..], strict - 1, elem, m);
    }
  }

  // Receiving the first message of a channel.
  lemma CarriesFirst(chan: seq<ExportRecord>, msgs: seq<seq<Cell>>, strict: int)
    requires Carries(chan, msgs, strict) && msgs != []
    ensures chan != [] && IsMessage(chan[0], msgs[0]) && (strict > 0 ==> PrevIsTail(msgs[0]))
    ensures Carries(chan[1..], msgs[1..], strict - 1)
    ensures Recs(msgs[0]) !! Owned(msgs[1..]) && Owned(msgs) == Recs(msgs[0]) + Owned(msgs[1..])
  {
  }

  lemma {:induction false} CarriesWeaken(chan: seq<ExportRecord>, msgs: seq<seq<Cell>>, strict: int, weaker: int)
    requires Carries(chan, msgs, strict) && weaker <= strict
    ensures Carries(chan, msgs, weaker)
  {
    if msgs != [] {
      CarriesWeaken(chan[1..], msgs[1..], strict - 1, weaker - 1);
    }
  }
}
