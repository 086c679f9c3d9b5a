/** The packet numbers with which a table's records are flushed, told from the life of its
    records alone. */
module RecordStamps {
  import opened ExportLog
  import opened ExportOrder
  import opened RecordLife
  import opened Wrappers

  /** ---- over the operations on the export list ---- */

  // The packet numbers of flushed records.
  function NumberOf(i: Item<nat>): nat {
    i.key.packetID
  }

  ghost function Stamps(items: seq<Item<nat>>): multiset<nat> {
    Seen(items, NumberOf)
  }

  // The last number every record got.
  function Noted(m: map<nat, nat>, op: Op<nat>): map<nat, nat> {
    if op.Start? || op.Move? then m[op.rec := op.packetID] else m
  }

  function NotedAll(m: map<nat, nat>, ops: seq<Op<nat>>): map<nat, nat>
    decreases |ops|
  {
    if ops == [] then m else NotedAll(Noted(m, ops[0]), ops[1..])
  }

  // The numbers of the records that are exported.
  function Out(m: map<nat, nat>, op: Op<nat>): multiset<nat> {
    if op.Export? && op.rec in m then multiset{m[op.rec]} else multiset{}
  }

  function OutAll(m: map<nat, nat>, ops: seq<Op<nat>>): multiset<nat>
    decreases |ops|
  {
    if ops == [] then multiset{} else Out(m, ops[0]) + OutAll(Noted(m, ops[0]), ops[1..])
  }

  lemma {:induction false} OutAppend(m: map<nat, nat>, a: seq<Op<nat>>, b: seq<Op<nat>>)
    ensures OutAll(m, a + b) == OutAll(m, a) + OutAll(NotedAll(m, a), b)
    ensures NotedAll(m, a + b) == NotedAll(NotedAll(m, a), b)
    decreases |a|
  {
    hide Out, Noted;
    if a == [] {
      assert a + b == b;
    } else {
      assert (a + b)[1..] == a[1..] + b;
      OutAppend(Noted(m, a[0]), a[1..], b);
    }
  }

  lemma {:induction false} OutOne(m: map<nat, nat>, op: Op<nat>)
    ensures OutAll(m, [op]) == Out(m, op) && NotedAll(m, [op]) == Noted(m, op)
    ensures OutAll(m, []) == multiset{} && NotedAll(m, []) == m
  {
    assert [op][1..] == [];
  }

  // The records that are not exported have the numbers noted.
  ghost predicate Knows(list: seq<Entry<nat>>, m: map<nat, nat>) {
    && DistinctRecs(list)
    && forall i | 0 <= i < |list| && !list[i].exported ::
         list[i].rec in m && m[list[i].rec] == list[i].key.packetID
  }

  lemma {:induction false} PositionOf(list: seq<Entry<nat>>, r: nat, when: nat) returns (k: nat)
    requires DistinctRecs(list) && Has(list, r)
    ensures k < |list| && list[k].rec == r && Find(list, r) == list[k]
    ensures Without(list, r) == list[..k] + list[k + 1..] && list == list[..k] + [list[k]] + list[k + 1..]
    ensures var e := list[k].(key := list[k].key.(expiryTime := when), exported := true);
            Fill(list, r, when) == list[..k] + [e] + list[k + 1..]
  {
    hide Without, Fill;
    k :| 0 <= k < |list| && list[k].rec == r;
    AtPosition(list, r, when, k);
    var e := list[k].(key := list[k].key.(expiryTime := when), exported := true);
    assert list[k := e] == list[..k] + [e] + list[k + 1..];
  }

  lemma {:induction false} SelectKnows(list: seq<Entry<nat>>, m: map<nat, nat>)
    requires Knows(list, m)
    ensures Knows(Select(list, false), m)
  {
    if list != [] {
      SelectKnows(list[1..], m);
      var rest := Select(list[1..], false);
      forall e | e in rest ensures e.rec != list[0].rec {
        assert e in list[1..];
      }
      if list[0].exported {
        assert [] + rest == rest;
      }
    }
  }

  lemma {:induction false} KnowsWithout(list: seq<Entry<nat>>, k: nat, m: map<nat, nat>, nr: nat)
    requires Knows(list, m) && k < |list|
    ensures var rest := list[..k] + list[k + 1..];
            && Knows(rest, m) && Knows(rest, m[list[k].rec := nr])
            && forall i | 0 <= i < |rest| :: rest[i].rec != list[k].rec
  {
    var rest := list[..k] + list[k + 1..];
    forall i | 0 <= i < |rest| ensures rest[i] == list[if i < k then i else i + 1] && rest[i].rec != list[k].rec {}
  }

  lemma {:induction false} KnowsCons(e: Entry<nat>, rest: seq<Entry<nat>>, m: map<nat, nat>)
    requires Knows(rest, m) && forall i | 0 <= i < |rest| :: rest[i].rec != e.rec
    requires !e.exported ==> e.rec in m && m[e.rec] == e.key.packetID
    ensures Knows([e] + rest, m)
  {
  }

  lemma {:induction false} ApplyKnows(s: Log<nat>, op: Op<nat>, recordID: int, m: map<nat, nat>)
    requires Enabled(s, op) && Knows(s.list, m)
    ensures Knows(Apply(s, op, recordID).list, Noted(m, op))
  {
    hide Without, Fill, Select, Batch, Find;
    if op.Start? {
      KnowsCons(Entry(op.rec, ExportKey(op.packetID, 0, recordID), false), s.list, Noted(m, op));
    } else if op.FlushAll? {
      SelectKnows(s.list, m);
    } else if !op.Flush? {
      var k := PositionOf(s.list, op.rec, if op.Export? then op.when else 0);
      var rest := s.list[..k] + s.list[k + 1..];
      KnowsWithout(s.list, k, m, if op.Move? then op.packetID else 0);
      if op.Move? {
        KnowsCons(s.list[k].(key := s.list[k].key.(packetID := op.packetID)), rest, Noted(m, op));
      } else if op.Export? {
        var e := s.list[k].(key := s.list[k].key.(expiryTime := op.when), exported := true);
        KnowsCons(e, rest, m);
        KnowsExported(s.list, k, e, m);
      }
    }
  }

  lemma {:induction false} KnowsExported(list: seq<Entry<nat>>, k: nat, e: Entry<nat>, m: map<nat, nat>)
    requires Knows(list, m) && k < |list| && e.rec == list[k].rec && e.exported
    ensures Knows(list[..k] + [e] + list[k + 1..], m)
  {
    assert list[..k] + [e] + list[k + 1..] == list[k := e];
  }

  // The numbers noted are those of the records when they are exported.
  lemma {:induction false} ExportedStamps(s: Log<nat>, ops: seq<Op<nat>>, recordID: int, m: map<nat, nat>)
    requires Legal(s, ops, recordID) && Knows(s.list, m)
    ensures Stamps(ExportsAll(s, ops, recordID)) == OutAll(m, ops)
    decreases |ops|
  {
    hide Seen, Apply, Knows, Noted, Find;
    if ops == [] {
      SeenOne(Item(0, ExportKey(0, 0, 0)), NumberOf);
    } else {
      var more := ExportsAll(Apply(s, ops[0], recordID), ops[1..], recordID);
      ApplyKnows(s, ops[0], recordID, m);
      ExportedStamps(Apply(s, ops[0], recordID), ops[1..], recordID, Noted(m, ops[0]));
      SeenAppend(Exports(s, ops[0]), more, NumberOf);
      SeenOne(if ops[0].Export? then Exports(s, ops[0])[0] else Item(0, ExportKey(0, 0, 0)), NumberOf);
      if ops[0].Export? {
        KnowsFound(s.list, m, ops[0].rec);
      }
    }
  }

  lemma {:induction false} KnowsFound(list: seq<Entry<nat>>, m: map<nat, nat>, r: nat)
    requires Knows(list, m) && Has(list, r) && !Find(list, r).exported
    ensures r in m && m[r] == Find(list, r).key.packetID
  {
    hide Find;
    assert Find(list, r) in list;
  }

  /** Over any run from an empty list on, the final flush included: the records are flushed
      with the numbers noted when they were exported. */
  lemma {:induction false} FlushedStamps(ops: seq<Op<nat>>, recordID: int)
    requires Legal(Log([], []), ops, recordID)
    ensures Stamps(Apply(Run(Log([], []), ops, recordID), FlushAll, recordID).flushed) == OutAll(map[], ops)
  {
    hide Seen, OutAll, ExportsAll, Run, Apply;
    var s: Log<nat> := Log([], []);
    FlushedIsExported(s, ops, recordID);
    assert Accounted(s) == multiset{};
    SeenSame(Apply(Run(s, ops, recordID), FlushAll, recordID).flushed, ExportsAll(s, ops, recordID), NumberOf);
    ExportedStamps(s, ops, recordID, map[]);
  }

  /** ---- over the lives of the records ---- */

  // A packet that asks for nothing, the end of a flow, or a flush.
  predicate Plain(ev: Event) {
    match ev
    case Packet(_, _, _, again, end) => again == [] && end == Through(false, false, false)
    case Ended(_, _, forget, _) => !forget
    case Stopped(_) => false
    case FlushBack | FlushEvery => true
  }

  predicate IsFlush(ev: Event) {
    ev.FlushBack? || ev.FlushEvery?
  }

  // The number of a live record: that of its first packet in start order, of its last one
  // in stop and expiry order.
  function Stamped(order: SortType, cur: Option<nat>, nr: nat): Option<nat> {
    if cur.Some? && order == StartTime then cur else Some(nr)
  }

  function CurAfter(order: SortType, cur: Option<nat>, ev: Event): Option<nat> {
    match ev
    case Packet(_, nr, _, _, _) => Stamped(order, cur, nr)
    case Ended(_, _, _, _) => None
    case _ => cur
  }

  function OutOf(cur: Option<nat>, ev: Event): seq<nat> {
    if ev.Ended? && cur.Some? then [cur.value] else []
  }

  // The numbers with which one record position is exported over its events.
  function RecordOut(order: SortType, cur: Option<nat>, evs: seq<Event>): seq<nat>
    decreases |evs|
  {
    if evs == [] then [] else OutOf(cur, evs[0]) + RecordOut(order, CurAfter(order, cur, evs[0]), evs[1..])
  }

  // The events of record r.
  function Of(evs: seq<Event>, r: nat): seq<Event> {
    if evs == [] then []
    else (if !IsFlush(evs[0]) && Whose(evs[0]) == r then [evs[0]] else []) + Of(evs[1..], r)
  }

  // The exported numbers of all records.
  ghost function Total(order: SortType, curs: seq<Option<nat>>, evs: seq<Event>, n: nat): multiset<nat>
    requires n <= |curs|
  {
    if n == 0 then multiset{}
    else Total(order, curs, evs, n - 1) + multiset(RecordOut(order, curs[n - 1], Of(evs, n - 1)))
  }

  // What the lives say of the records: whose number is noted under its own id.
  ghost predicate Tracks(s: Lives, m: map<nat, nat>, curs: seq<Option<nat>>) {
    && (forall r | 0 <= r < |curs| ::
          LifeOf(s, r) == (if curs[r].None? then UNBORN else Life(true, LifeOf(s, r).own)))
    && (forall r | 0 <= r < |curs| && curs[r].Some? ::
          var own := LifeOf(s, r).own;
          own.Some? && own.value < s.unused && own.value in m && m[own.value] == curs[r].value)
    && (forall q, r | 0 <= q < r < |curs| && curs[q].Some? && curs[r].Some? :: LifeOf(s, q).own != LifeOf(s, r).own)
  }

  ghost predicate PlainOf(ev: Event, n: nat) {
    Plain(ev) && (IsFlush(ev) || Whose(ev) < n)
  }

  // Record r gets this number, under an id of its own.
  lemma {:induction false} TracksSet(s: Lives, m: map<nat, nat>, curs: seq<Option<nat>>, r: nat, e: nat, nr: nat,
                                     unused: nat)
    requires Tracks(s, m, curs) && r < |curs| && unused >= s.unused && e < unused
    requires forall q | 0 <= q < |curs| && q != r && curs[q].Some? :: LifeOf(s, q).own != Some(e)
    ensures Tracks(Lives(s.of[r := Life(true, Some(e))], unused), m[e := nr], curs[r := Some(nr)])
  {
  }

  // ... or leaves.
  lemma {:induction false} TracksGone(s: Lives, m: map<nat, nat>, curs: seq<Option<nat>>, r: nat)
    requires Tracks(s, m, curs) && r < |curs|
    ensures Tracks(Lives(s.of[r := UNBORN], s.unused), m, curs[r := None])
  {
  }

  lemma {:induction false} TracksAt(s: Lives, m: map<nat, nat>, curs: seq<Option<nat>>, r: nat)
    requires Tracks(s, m, curs) && r < |curs|
    ensures curs[r].None? ==> LifeOf(s, r) == UNBORN
    ensures curs[r].Some? ==>
              var own := LifeOf(s, r).own;
              own.Some? && LifeOf(s, r) == Life(true, own) && own.value < s.unused && own.value in m
              && m[own.value] == curs[r].value
              && forall q | 0 <= q < |curs| && q != r && curs[q].Some? :: LifeOf(s, q).own != own
    ensures forall q | 0 <= q < |curs| && curs[q].Some? :: LifeOf(s, q).own != Some(s.unused)
  {
  }

  // A packet of record r.
  lemma {:induction false} PacketStamps(order: SortType, s: Lives, m: map<nat, nat>, curs: seq<Option<nat>>, r: nat,
                                        nr: nat, when: nat)
    requires order != SortNone && Tracks(s, m, curs) && r < |curs| && Armed(LifeOf(s, r))
    ensures var ev := Packet(r, nr, when, [], Through(false, false, false));
            var d := Happens(order, LifeOf(s, r), s.unused, ev);
            && OutAll(m, d.ops) == multiset{}
            && Tracks(After(order, s, ev), NotedAll(m, d.ops), curs[r := Stamped(order, curs[r], nr)])
  {
    hide Tracks, OutAll, NotedAll;
    TracksAt(s, m, curs, r);
    OutOne(m, Op<nat>.Flush);
    var l := LifeOf(s, r);
    var ev := Packet(r, nr, when, [], Through(false, false, false));
    var d := Happens(order, l, s.unused, ev);
    if curs[r].None? {
      var t := Touch(order, Life(true, Some(s.unused)), nr);
      assert d.ops == [Op.Start(s.unused, nr)] + t;
      OutAppend(m, [Op.Start(s.unused, nr)], t);
      OutOne(m, Op.Start(s.unused, nr));
      OutOne(m[s.unused := nr], Move(s.unused, nr));
      TracksSet(s, m, curs, r, s.unused, nr, s.unused + 1);
      assert NotedAll(m, d.ops) == m[s.unused := nr];
    } else {
      var e := l.own.value;
      assert d.ops == Touch(order, l, nr);
      OutOne(m, Move(e, nr));
      var nr' := if order == StartTime then curs[r].value else nr;
      TracksSet(s, m, curs, r, e, nr', s.unused);
      assert NotedAll(m, d.ops) == if order == StartTime then m else m[e := nr];
      assert m[e := m[e]] == m;
    }
  }

  // The end of record r.
  lemma {:induction false} EndStamps(order: SortType, s: Lives, m: map<nat, nat>, curs: seq<Option<nat>>, r: nat,
                                     when: nat, expiring: bool)
    requires Tracks(s, m, curs) && r < |curs| && Armed(LifeOf(s, r))
    ensures var ev := Ended(r, when, false, expiring);
            var d := Happens(order, LifeOf(s, r), s.unused, ev);
            && OutAll(m, d.ops) == multiset(OutOf(curs[r], ev))
            && Tracks(After(order, s, ev), NotedAll(m, d.ops), curs[r := None])
  {
    var l := LifeOf(s, r);
    var ev := Ended(r, when, false, expiring);
    var d := Happens(order, l, s.unused, ev);
    TracksGone(s, m, curs, r);
    if curs[r].None? {
      assert d.ops == [];
    } else {
      var op := Op.Export(l.own.value, when, order == ExpiryTime && !expiring);
      assert d.ops == [op];
      OutOne(m, op);
    }
  }

  lemma {:induction false} FlushKeepsTracks(order: SortType, s: Lives, m: map<nat, nat>, curs: seq<Option<nat>>,
                                            ev: Event)
    requires Tracks(s, m, curs) && Armed(LifeOf(s, 0)) && IsFlush(ev)
    ensures var d := Happens(order, LifeOf(s, 0), s.unused, ev);
            OutAll(m, d.ops) == multiset{} && Tracks(After(order, s, ev), NotedAll(m, d.ops), curs)
  {
    OutOne(m, if ev.FlushBack? then Op<nat>.Flush else Op<nat>.FlushAll);
  }

  /** ---- whole runs ---- */

  // What an event does to the current numbers, and what it exports.
  function CursAfter(order: SortType, curs: seq<Option<nat>>, ev: Event): seq<Option<nat>>
    requires PlainOf(ev, |curs|)
  {
    if IsFlush(ev) then curs else curs[Whose(ev) := CurAfter(order, curs[Whose(ev)], ev)]
  }

  function EventOut(curs: seq<Option<nat>>, ev: Event): multiset<nat>
    requires PlainOf(ev, |curs|)
  {
    if IsFlush(ev) then multiset{} else multiset(OutOf(curs[Whose(ev)], ev))
  }

  lemma {:induction false} EventStamps(order: SortType, s: Lives, m: map<nat, nat>, curs: seq<Option<nat>>, ev: Event)
    requires order != SortNone && Tracks(s, m, curs) && AllArmed(s) && PlainOf(ev, |curs|)
    ensures Armed(LifeOf(s, Whose(ev)))
    ensures var d := Happens(order, LifeOf(s, Whose(ev)), s.unused, ev);
            && OutAll(m, d.ops) == EventOut(curs, ev)
            && Tracks(After(order, s, ev), NotedAll(m, d.ops), CursAfter(order, curs, ev))
  {
    hide Tracks, OutAll, NotedAll, Happens;
    StaysArmed(order, s, ev);
    match ev
    case Packet(r, nr, when, _, _) => PacketStamps(order, s, m, curs, r, nr, when);
    case Ended(r, when, _, expiring) => EndStamps(order, s, m, curs, r, when, expiring);
    case FlushBack | FlushEvery => FlushKeepsTracks(order, s, m, curs, ev);
  }

  // Record r alone.
  lemma {:induction false} OfCons(order: SortType, curs: seq<Option<nat>>, evs: seq<Event>, r: nat)
    requires evs != [] && r < |curs| && PlainOf(evs[0], |curs|)
    ensures RecordOut(order, curs[r], Of(evs, r))
         == (if !IsFlush(evs[0]) && Whose(evs[0]) == r then OutOf(curs[r], evs[0]) else [])
            + RecordOut(order, CursAfter(order, curs, evs[0])[r], Of(evs[1..], r))
  {
    var rest := Of(evs[1..], r);
    assert ([evs[0]] + rest)[1..] == rest && [] + rest == rest;
    assert forall out: seq<nat> :: [] + out == out;
  }

  lemma {:induction false} TotalCons(order: SortType, curs: seq<Option<nat>>, evs: seq<Event>, n: nat)
    requires evs != [] && n <= |curs| && PlainOf(evs[0], |curs|)
    ensures Total(order, curs, evs, n)
         == (if !IsFlush(evs[0]) && Whose(evs[0]) < n then EventOut(curs, evs[0]) else multiset{})
            + Total(order, CursAfter(order, curs, evs[0]), evs[1..], n)
  {
    hide RecordOut, Of, OutOf, CursAfter;
    if n > 0 {
      OfCons(order, curs, evs, n - 1);
      TotalCons(order, curs, evs, n - 1);
    }
  }

  lemma {:induction false} NothingTotal(order: SortType, curs: seq<Option<nat>>, n: nat)
    requires n <= |curs|
    ensures Total(order, curs, [], n) == multiset{}
  {
    if n > 0 {
      NothingTotal(order, curs, n - 1);
    }
  }

  ghost predicate AllPlain(evs: seq<Event>, n: nat) {
    evs == [] || (PlainOf(evs[0], n) && AllPlain(evs[1..], n))
  }

  // However the events of different records are interleaved, each is exported with the
  // numbers its own events tell.
  lemma {:induction false} RunStamps(order: SortType, s: Lives, m: map<nat, nat>, curs: seq<Option<nat>>,
                                     evs: seq<Event>)
    requires order != SortNone && Tracks(s, m, curs) && AllArmed(s) && AllPlain(evs, |curs|)
    ensures OutAll(m, OpsOf(order, s, evs)) == Total(order, curs, evs, |curs|)
    decreases |evs|
  {
    hide Tracks, Happens, Total, OutAll, PlainOf, CursAfter, EventOut;
    if evs == [] {
      NothingTotal(order, curs, |curs|);
      OutOne(m, Op<nat>.Flush);
    } else {
      var ev := evs[0];
      EventStamps(order, s, m, curs, ev);
      StaysArmed(order, s, ev);
      var d := Happens(order, LifeOf(s, Whose(ev)), s.unused, ev);
      PlainIs(ev, curs, order);
      RunStamps(order, After(order, s, ev), NotedAll(m, d.ops), CursAfter(order, curs, ev), evs[1..]);
      OutAppend(m, d.ops, OpsOf(order, After(order, s, ev), evs[1..]));
      TotalCons(order, curs, evs, |curs|);
    }
  }

  lemma {:induction false} PlainIs(ev: Event, curs: seq<Option<nat>>, order: SortType)
    requires PlainOf(ev, |curs|)
    ensures |CursAfter(order, curs, ev)| == |curs| && (IsFlush(ev) || Whose(ev) < |curs|)
    ensures IsFlush(ev) ==> EventOut(curs, ev) == multiset{}
  {
  }

  // No record at all.
  function Nobodies(n: nat): (curs: seq<Option<nat>>)
    ensures |curs| == n && forall r | 0 <= r < n :: curs[r] == None
  {
    if n == 0 then [] else Nobodies(n - 1) + [None]
  }

  /** A table from its start to its end: however the lives of its records are interleaved,
      and whenever it flushes, every export is flushed once, with the number of the first
      packet of the record in start order, and of the last one in stop and expiry order. */
  lemma {:induction false} TableStamps(order: SortType, evs: seq<Event>, n: nat, recordID: int)
    requires order != SortNone && AllPlain(evs, n)
    ensures AllArmed(NOBODY) && Legal(Log<nat>.Log([], []), OpsOf(order, NOBODY, evs), recordID)
    ensures Stamps(Apply(Run(Log<nat>.Log([], []), OpsOf(order, NOBODY, evs), recordID), FlushAll, recordID).flushed)
         == Total(order, Nobodies(n), evs, n)
  {
    hide OpsOf, Legal, Run, Apply, Total, OutAll;
    LivesAreProper(order, evs, recordID);
    RunStamps(order, NOBODY, map[], Nobodies(n), evs);
    FlushedStamps(OpsOf(order, NOBODY, evs), recordID);
  }
}
