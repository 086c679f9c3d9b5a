/** The life of a flow's record: when it starts, is touched, exported or dropped, and why
    that never misuses the table's export list. */
module RecordLife {
  import opened ExportLog
  import opened ExportOrder
  import opened Wrappers

  // Does the record take events, and its export record if it has one.
  datatype Life = Life(active: bool, own: Option<nat>)

  const UNBORN := Life(false, None)

  // What control features ask for at once; `forget` is set if stopping discards the record.
  datatype Again = ExportNow(forget: bool) | RestartNow

  // ... and in the end: stop, or see the event through.
  datatype End = Halt | Through(exports: bool, forget: bool, restart: bool)

  // What a part of the life did: operations on the table's list, and the next unused id
  // of an export record.
  datatype Did = Did(life: Life, unused: nat, ops: seq<Op<nat>>)

  // record.start
  function Begin(l: Life, unused: nat, nr: nat): Did {
    Did(Life(true, Some(unused)), unused + 1,
        (if l.own.Some? then [Drop(l.own.value)] else []) + [Op.Start(unused, nr)])
  }

  // record.Export
  function Finish(l: Life, unused: nat, when: nat, forget: bool, push: bool): Did
    requires l.active ==> l.own.Some?
  {
    if !l.active then Did(l, unused, [])
    else if forget then Did(l.(active := false), unused, [])
    else Did(Life(false, None), unused, [Op.Export(l.own.value, when, push)])
  }

  // The packet number of an active record, where the order asks for the last one.
  function Touch(order: SortType, l: Life, nr: nat): seq<Op<nat>>
    requires l.own.Some?
  {
    if order == StopTime || order == ExpiryTime then [Move(l.own.value, nr)] else []
  }

  function Before(d: Did, ops: seq<Op<nat>>): (r: Did)
    ensures r.life == d.life && r.unused == d.unused && r.ops == ops + d.ops
  {
    d.(ops := ops + d.ops)
  }

  function Started(l: Life, unused: nat, nr: nat): (d: Did)
    ensures d.life.active && (!l.active || l.own.Some? ==> d.life.own.Some?)
  {
    if l.active then Did(l, unused, []) else Begin(l, unused, nr)
  }

  // Exported or started anew at once; the event then begins again.
  function Asked(order: SortType, l: Life, unused: nat, nr: nat, when: nat, a: Again): (d: Did)
    requires l.active ==> l.own.Some?
    ensures d.life.active ==> d.life.own.Some?
  {
    match a
    case ExportNow(forget) => Finish(l, unused, when, forget, order == ExpiryTime)
    case RestartNow => Begin(l, unused, nr)
  }

  // Nothing is asked for at once any more.
  function Last(order: SortType, l: Life, unused: nat, nr: nat, when: nat, end: End): (d: Did)
    requires l.active && l.own.Some?
    ensures d.life.active ==> d.life.own.Some?
  {
    match end
    case Halt => Did(l.(active := false), unused, [])
    case Through(exports, forget, restart) =>
      var e := if exports then Finish(l, unused, when, forget, order == ExpiryTime) else Did(l, unused, []);
      var f := if restart then Begin(e.life, e.unused, nr) else Did(e.life, e.unused, []);
      Before(Before(f, e.ops), Touch(order, l, nr))
  }

  /** record.filteredEvent: start if need be, do what the control features ask for again
      and again, and see the event through. */
  function Filtered(order: SortType, l: Life, unused: nat, nr: nat, when: nat, again: seq<Again>, end: End): (r: Did)
    requires l.active ==> l.own.Some?
    ensures r.life.active ==> r.life.own.Some?
    decreases |again|
  {
    var d := Started(l, unused, nr);
    if again != [] then
      var e := Asked(order, d.life, d.unused, nr, when, again[0]);
      Before(Before(Filtered(order, e.life, e.unused, nr, when, again[1..], end), e.ops), d.ops)
    else Before(Last(order, d.life, d.unused, nr, when, end), d.ops)
  }

  // record.Destroy
  function Gone(l: Life, unused: nat): Did {
    Did(UNBORN, unused, if l.own.Some? then [Drop(l.own.value)] else [])
  }

  /** ---- all records of a table ---- */

  datatype Event =
    | Packet(r: nat, nr: nat, when: nat, again: seq<Again>, end: End)
    | Ended(r: nat, when: nat, forget: bool, expiring: bool)    // the flow is exported, and leaves
    | Stopped(r: nat)                                           // the flow leaves
    | FlushBack
    | FlushEvery

  datatype Lives = Lives(of: map<nat, Life>, unused: nat)

  const NOBODY := Lives(map[], 0)

  function LifeOf(s: Lives, r: nat): Life {
    if r in s.of then s.of[r] else UNBORN
  }

  // An active record has its export record.
  predicate Armed(l: Life) {
    l.active ==> l.own.Some?
  }

  ghost predicate AllArmed(s: Lives) {
    forall r | r in s.of :: Armed(s.of[r])
  }

  function Happens(order: SortType, l: Life, unused: nat, ev: Event): Did
    requires Armed(l)
  {
    match ev
    case Packet(_, nr, when, again, end) => Filtered(order, l, unused, nr, when, again, end)
    case Ended(_, when, forget, expiring) =>
      var d := Finish(l, unused, when, forget, order == ExpiryTime && !expiring);
      Before(Gone(d.life, d.unused), d.ops)
    case Stopped(_) => Gone(l, unused)
    case FlushBack => Did(l, unused, [Flush])
    case FlushEvery => Did(l, unused, [FlushAll])
  }

  function Whose(ev: Event): nat {
    if ev.Packet? || ev.Ended? || ev.Stopped? then ev.r else 0
  }

  function After(order: SortType, s: Lives, ev: Event): Lives
    requires Armed(LifeOf(s, Whose(ev)))
  {
    var d := Happens(order, LifeOf(s, Whose(ev)), s.unused, ev);
    Lives(s.of[Whose(ev) := d.life], d.unused)
  }

  // The operations of a whole run.
  ghost function OpsOf(order: SortType, s: Lives, evs: seq<Event>): seq<Op<nat>>
    requires AllArmed(s)
    decreases |evs|
  {
    if evs == [] then []
    else
      StaysArmed(order, s, evs[0]);
      Happens(order, LifeOf(s, Whose(evs[0])), s.unused, evs[0]).ops + OpsOf(order, After(order, s, evs[0]), evs[1..])
  }

  lemma {:induction false} StaysArmed(order: SortType, s: Lives, ev: Event)
    requires AllArmed(s)
    ensures Armed(LifeOf(s, Whose(ev))) && AllArmed(After(order, s, ev))
  {
    hide Filtered;
  }

  /** ---- what the list knows ---- */

  // e is in the list and was not exported.
  ghost predicate Waits(log: Log<nat>, e: nat) {
    Has(log.list, e) && !Find(log.list, e).exported
  }

  ghost predicate Bounded(list: seq<Entry<nat>>, unused: nat) {
    forall i | 0 <= i < |list| :: list[i].rec < unused
  }

  // What these operations may do to the rest of the list: nothing.
  ghost predicate Spares(log: Log<nat>, log': Log<nat>, own: Option<nat>, unused: nat) {
    forall e: nat | Waits(log, e) && own != Some(e) && e < unused :: Waits(log', e)
  }

  // The record's part of the invariant.
  ghost predicate Holds(l: Life, log: Log<nat>, unused: nat) {
    Armed(l) && (l.own.Some? ==> Waits(log, l.own.value) && l.own.value < unused) && Bounded(log.list, unused)
  }

  lemma {:induction false} FirstAt(list: seq<Entry<nat>>, e: nat) returns (k: nat)
    requires Has(list, e)
    ensures k < |list| && list[k].rec == e && Find(list, e) == list[k] && forall i | 0 <= i < k :: list[i].rec != e
  {
    if list[0].rec == e {
      k := 0;
    } else {
      HasTail(list, e);
      k := FirstAt(list[1..], e);
      k := k + 1;
    }
  }

  // An entry in front, or one taken out, does not hide another one.
  lemma {:induction false} WaitsBehind(x: Entry<nat>, list: seq<Entry<nat>>, e: nat)
    requires x.rec != e && Has(list, e)
    ensures Has([x] + list, e) && Find([x] + list, e) == Find(list, e)
  {
    var k := FirstAt(list, e);
    FindAt([x] + list, e, k + 1);
  }

  lemma {:induction false} WaitsWithout(list: seq<Entry<nat>>, r: nat, e: nat)
    requires r != e && Has(list, e)
    ensures Has(Without(list, r), e) && Find(Without(list, r), e) == Find(list, e)
  {
    if list[0].rec == r {
      HasTail(list, e);
    } else if list[0].rec == e {
      FindAt(Without(list, r), e, 0);
    } else {
      HasTail(list, e);
      WaitsWithout(list[1..], r, e);
      WaitsBehind(list[0], Without(list[1..], r), e);
    }
  }

  lemma {:induction false} WaitsFill(list: seq<Entry<nat>>, r: nat, when: nat, e: nat)
    requires r != e && Has(list, e)
    ensures Has(Fill(list, r, when), e) && Find(Fill(list, r, when), e) == Find(list, e)
  {
    if list[0].rec == e {
      FindAt(Fill(list, r, when), e, 0);
    } else {
      HasTail(list, e);
      if list[0].rec == r {
        WaitsBehind(Fill(list, r, when)[0], list[1..], e);
      } else {
        WaitsFill(list[1..], r, when, e);
        WaitsBehind(list[0], Fill(list[1..], r, when), e);
      }
    }
  }

  lemma {:induction false} WaitsKept(list: seq<Entry<nat>>, e: nat)
    requires Has(list, e) && !Find(list, e).exported
    ensures Has(list[..Kept(list)], e) && !Find(list[..Kept(list)], e).exported
  {
    var k := FirstAt(list, e);
    FindAt(list[..Kept(list)], e, k);
  }

  lemma {:induction false} WaitsSelected(list: seq<Entry<nat>>, e: nat)
    requires Has(list, e) && !Find(list, e).exported
    ensures Has(Select(list, false), e) && !Find(Select(list, false), e).exported
  {
    if list[0].rec == e {
      FindAt(Select(list, false), e, 0);
    } else {
      HasTail(list, e);
      WaitsSelected(list[1..], e);
      if !list[0].exported {
        WaitsBehind(list[0], Select(list[1..], false), e);
      } else {
        assert [] + Select(list[1..], false) == Select(list[1..], false);
      }
    }
  }

  // An operation on one record leaves the others waiting.
  lemma {:induction false} OthersWait(log: Log<nat>, op: Op<nat>, recordID: int, e: nat)
    requires Enabled(log, op) && Waits(log, e) && (op.Start? || op.Export? || op.Drop? ==> op.rec != e)
    ensures Waits(Apply(log, op, recordID), e)
  {
    hide Without, Fill, Select, Kept, Batch;
    match op
    case Start(r, nr) =>
      WaitsBehind(Entry(r, ExportKey(nr, 0, recordID), false), log.list, e);
    case Move(r, nr) =>
      var moved := Find(log.list, r).(key := Find(log.list, r).key.(packetID := nr));
      if r == e {
        FindAt([moved] + Without(log.list, r), e, 0);
      } else {
        WaitsWithout(log.list, r, e);
        WaitsBehind(moved, Without(log.list, r), e);
      }
    case Export(r, when, push) =>
      if push {
        WaitsWithout(log.list, r, e);
        WaitsBehind(Apply(log, op, recordID).list[0], Without(log.list, r), e);
      } else {
        WaitsFill(log.list, r, when, e);
      }
    case Drop(r) =>
      WaitsWithout(log.list, r, e);
    case Flush =>
      WaitsKept(log.list, e);
    case FlushAll =>
      WaitsSelected(log.list, e);
  }

  lemma {:induction false} BoundedSelect(list: seq<Entry<nat>>, unused: nat)
    requires Bounded(list, unused)
    ensures Bounded(Select(list, false), unused)
  {
    hide Select;
    forall i | 0 <= i < |Select(list, false)| ensures Select(list, false)[i].rec < unused {
      assert Select(list, false)[i] in list;
    }
  }

  lemma {:induction false} BoundedParts(list: seq<Entry<nat>>, r: nat, when: nat, unused: nat)
    requires Bounded(list, unused)
    ensures Bounded(Without(list, r), unused) && Bounded(Fill(list, r, when), unused)
  {
    if list != [] {
      BoundedParts(list[1..], r, when, unused);
    }
  }

  // No operation but a start brings in an unknown record.
  lemma {:induction false} StaysBounded(log: Log<nat>, op: Op<nat>, recordID: int, unused: nat)
    requires Enabled(log, op) && Bounded(log.list, unused) && (op.Start? ==> op.rec < unused)
    ensures Bounded(Apply(log, op, recordID).list, unused)
  {
    hide Without, Fill, Select, Batch;
    match op
    case Start(_, _) =>
    case Move(r, _) =>
      BoundedParts(log.list, r, 0, unused);
      assert Find(log.list, r) in log.list;
    case Export(r, when, push) =>
      BoundedParts(log.list, r, when, unused);
      assert Find(log.list, r) in log.list;
    case Drop(r) =>
      BoundedParts(log.list, r, 0, unused);
    case Flush =>
    case FlushAll =>
      BoundedSelect(log.list, unused);
  }

  /** ---- runs in parts ---- */

  lemma {:induction false} LegalAppend(log: Log<nat>, a: seq<Op<nat>>, b: seq<Op<nat>>, recordID: int)
    requires Legal(log, a, recordID) && Legal(Run(log, a, recordID), b, recordID)
    ensures Legal(log, a + b, recordID) && Run(log, a + b, recordID) == Run(Run(log, a, recordID), b, recordID)
    decreases |a|
  {
    hide Enabled, Apply;
    if a == [] {
      assert a + b == b;
    } else {
      assert (a + b)[1..] == a[1..] + b;
      LegalAppend(Apply(log, a[0], recordID), a[1..], b, recordID);
    }
  }

  // This part of a record's life is possible, and leaves the other records alone.
  ghost predicate Fits(log: Log<nat>, l: Life, unused: nat, d: Did, recordID: int) {
    exists log': Log<nat> :: Leads(log, d.ops, log', recordID) && Leaves(log, log', l, unused, d)
  }

  ghost predicate Leads(log: Log<nat>, ops: seq<Op<nat>>, log': Log<nat>, recordID: int) {
    Legal(log, ops, recordID) && log' == Run(log, ops, recordID)
  }

  ghost predicate Leaves(log: Log<nat>, log': Log<nat>, l: Life, unused: nat, d: Did) {
    && d.unused >= unused && Holds(d.life, log', d.unused) && Spares(log, log', l.own, unused)
    && (d.life.own == l.own || d.life.own.None? || d.life.own.value >= unused)
  }

  lemma {:induction false} FitsIs(log: Log<nat>, l: Life, unused: nat, d: Did, recordID: int)
    ensures Fits(log, l, unused, d, recordID)
       <==> Legal(log, d.ops, recordID) && Leaves(log, Run(log, d.ops, recordID), l, unused, d)
  {
    hide Legal, Run, Leaves;
    if Legal(log, d.ops, recordID) {
      assert Leads(log, d.ops, Run(log, d.ops, recordID), recordID);
    }
  }

  lemma {:induction false} FitsThen(log: Log<nat>, l: Life, unused: nat, d: Did, e: Did, recordID: int)
    requires Fits(log, l, unused, d, recordID)
    requires Fits(Run(log, d.ops, recordID), d.life, d.unused, e, recordID)
    ensures Fits(log, l, unused, Before(e, d.ops), recordID)
  {
    hide Legal, Run, Holds, Waits, Fits;
    FitsIs(log, l, unused, d, recordID);
    FitsIs(Run(log, d.ops, recordID), d.life, d.unused, e, recordID);
    LegalAppend(log, d.ops, e.ops, recordID);
    FitsIs(log, l, unused, Before(e, d.ops), recordID);
  }

  lemma {:induction false} NothingFits(log: Log<nat>, l: Life, unused: nat, l': Life, recordID: int)
    requires Holds(l, log, unused) && Armed(l') && (l'.own == l.own || l'.own.None?)
    ensures Fits(log, l, unused, Did(l', unused, []), recordID)
  {
    hide Fits;
    FitsIs(log, l, unused, Did(l', unused, []), recordID);
  }

  lemma {:induction false} OneOperation(log: Log<nat>, op: Op<nat>, recordID: int)
    requires Enabled(log, op)
    ensures Legal(log, [op], recordID) && Run(log, [op], recordID) == Apply(log, op, recordID)
  {
    assert [op][1..] == [];
  }

  // A part that is one operation.
  lemma {:induction false} OneFits(log: Log<nat>, l: Life, unused: nat, op: Op<nat>, l': Life, unused': nat,
                                   recordID: int)
    requires Holds(l, log, unused) && Enabled(log, op) && Armed(l') && unused' >= unused
    requires op.Start? ==> op.rec == unused < unused'
    requires op.Export? || op.Drop? ==> l.own == Some(op.rec)
    requires l'.own.Some? ==> Waits(Apply(log, op, recordID), l'.own.value) && l'.own.value < unused'
    requires l'.own == l.own || l'.own.None? || l'.own.value >= unused
    ensures Fits(log, l, unused, Did(l', unused', [op]), recordID)
  {
    hide Enabled, Apply, Waits, Legal, Run, Fits;
    var log' := Apply(log, op, recordID);
    OneOperation(log, op, recordID);
    StaysBounded(log, op, recordID, unused');
    forall e: nat | Waits(log, e) && l.own != Some(e) && e < unused ensures Waits(log', e) {
      OthersWait(log, op, recordID, e);
    }
    FitsIs(log, l, unused, Did(l', unused', [op]), recordID);
  }

  /** ---- every part fits ---- */

  lemma {:induction false} BeginFits(log: Log<nat>, l: Life, unused: nat, nr: nat, recordID: int)
    requires Holds(l, log, unused)
    ensures Fits(log, l, unused, Begin(l, unused, nr), recordID)
  {
    hide Fits;
    var d := Gone(l, unused);
    GoneFits(log, l, unused, recordID);
    FitsHolds(log, l, unused, d, recordID);
    var log1 := Run(log, d.ops, recordID);
    var e := Did(Life(true, Some(unused)), unused + 1, [Op.Start(unused, nr)]);
    FindAt(Apply(log1, Op.Start(unused, nr), recordID).list, unused, 0);
    OneFits(log1, UNBORN, unused, Op.Start(unused, nr), e.life, e.unused, recordID);
    FitsThen(log, l, unused, d, e, recordID);
  }

  lemma {:induction false} FitsHolds(log: Log<nat>, l: Life, unused: nat, d: Did, recordID: int)
    requires Fits(log, l, unused, d, recordID)
    ensures Legal(log, d.ops, recordID) && Holds(d.life, Run(log, d.ops, recordID), d.unused)
  {
    hide Fits, Holds;
    FitsIs(log, l, unused, d, recordID);
  }

  lemma {:induction false} GoneFits(log: Log<nat>, l: Life, unused: nat, recordID: int)
    requires Holds(l, log, unused)
    ensures Fits(log, l, unused, Gone(l, unused), recordID)
  {
    hide Fits;
    if l.own.Some? {
      OneFits(log, l, unused, Drop(l.own.value), UNBORN, unused, recordID);
    } else {
      NothingFits(log, l, unused, UNBORN, recordID);
    }
  }

  lemma {:induction false} StartedFits(log: Log<nat>, l: Life, unused: nat, nr: nat, recordID: int)
    requires Holds(l, log, unused)
    ensures Fits(log, l, unused, Started(l, unused, nr), recordID)
  {
    hide Fits;
    if l.active {
      NothingFits(log, l, unused, l, recordID);
    } else {
      BeginFits(log, l, unused, nr, recordID);
    }
  }

  lemma {:induction false} FinishFits(log: Log<nat>, l: Life, unused: nat, when: nat, forget: bool, push: bool,
                                      recordID: int)
    requires Holds(l, log, unused)
    ensures Fits(log, l, unused, Finish(l, unused, when, forget, push), recordID)
  {
    hide Fits;
    if !l.active || forget {
      NothingFits(log, l, unused, Finish(l, unused, when, forget, push).life, recordID);
    } else {
      OneFits(log, l, unused, Op.Export(l.own.value, when, push), UNBORN, unused, recordID);
    }
  }

  lemma {:induction false} TouchFits(order: SortType, log: Log<nat>, l: Life, unused: nat, nr: nat, recordID: int)
    requires Holds(l, log, unused) && l.own.Some?
    ensures Fits(log, l, unused, Did(l, unused, Touch(order, l, nr)), recordID)
  {
    hide Fits, Apply;
    if order == StopTime || order == ExpiryTime {
      OthersWait(log, Move(l.own.value, nr), recordID, l.own.value);
      OneFits(log, l, unused, Move(l.own.value, nr), l, unused, recordID);
    } else {
      NothingFits(log, l, unused, l, recordID);
    }
  }

  lemma {:induction false} AskedFits(order: SortType, log: Log<nat>, l: Life, unused: nat, nr: nat, when: nat, a: Again,
                                     recordID: int)
    requires Holds(l, log, unused)
    ensures Fits(log, l, unused, Asked(order, l, unused, nr, when, a), recordID)
  {
    hide Fits;
    match a
    case ExportNow(forget) => FinishFits(log, l, unused, when, forget, order == ExpiryTime, recordID);
    case RestartNow => BeginFits(log, l, unused, nr, recordID);
  }

  lemma {:induction false} LastFits(order: SortType, log: Log<nat>, l: Life, unused: nat, nr: nat, when: nat, end: End,
                                    recordID: int)
    requires Holds(l, log, unused) && l.active && l.own.Some?
    ensures Fits(log, l, unused, Last(order, l, unused, nr, when, end), recordID)
  {
    hide Fits, Holds, Legal, Run;
    if end.Halt? {
      NothingFits(log, l, unused, l.(active := false), recordID);
      return;
    }
    var t := Did(l, unused, Touch(order, l, nr));
    TouchFits(order, log, l, unused, nr, recordID);
    FitsHolds(log, l, unused, t, recordID);
    var log1 := Run(log, t.ops, recordID);
    var e := if end.exports then Finish(l, unused, when, end.forget, order == ExpiryTime) else Did(l, unused, []);
    if end.exports {
      FinishFits(log1, l, unused, when, end.forget, order == ExpiryTime, recordID);
    } else {
      NothingFits(log1, l, unused, l, recordID);
    }
    FitsHolds(log1, l, unused, e, recordID);
    var log2 := Run(log1, e.ops, recordID);
    var f := if end.restart then Begin(e.life, e.unused, nr) else Did(e.life, e.unused, []);
    if end.restart {
      BeginFits(log2, e.life, e.unused, nr, recordID);
    } else {
      HoldsArmed(e.life, log2, e.unused);
      NothingFits(log2, e.life, e.unused, e.life, recordID);
    }
    FitsThen(log1, l, unused, e, f, recordID);
    FitsThen(log, l, unused, t, Before(f, e.ops), recordID);
  }

  lemma {:induction false} HoldsArmed(l: Life, log: Log<nat>, unused: nat)
    requires Holds(l, log, unused)
    ensures Armed(l)
  {
  }

  /** Whatever the control features ask for, an event is a legal part of a record's life. */
  lemma {:induction false} FilteredFits(order: SortType, log: Log<nat>, l: Life, unused: nat, nr: nat, when: nat,
                                        again: seq<Again>, end: End, recordID: int)
    requires Holds(l, log, unused)
    ensures Armed(l) && Fits(log, l, unused, Filtered(order, l, unused, nr, when, again, end), recordID)
    decreases |again|
  {
    hide Fits, Holds, Legal, Run, Started, Asked, Last;
    HoldsArmed(l, log, unused);
    var d := Started(l, unused, nr);
    StartedFits(log, l, unused, nr, recordID);
    FitsHolds(log, l, unused, d, recordID);
    var log1 := Run(log, d.ops, recordID);
    if again != [] {
      var e := Asked(order, d.life, d.unused, nr, when, again[0]);
      AskedFits(order, log1, d.life, d.unused, nr, when, again[0], recordID);
      FitsHolds(log1, d.life, d.unused, e, recordID);
      FilteredFits(order, Run(log1, e.ops, recordID), e.life, e.unused, nr, when, again[1..], end, recordID);
      var more := Filtered(order, e.life, e.unused, nr, when, again[1..], end);
      FitsThen(log1, d.life, d.unused, e, more, recordID);
      FitsThen(log, l, unused, d, Before(more, e.ops), recordID);
    } else {
      LastFits(order, log1, d.life, d.unused, nr, when, end, recordID);
      FitsThen(log, l, unused, d, Last(order, d.life, d.unused, nr, when, end), recordID);
    }
  }

  lemma {:induction false} FlushFits(log: Log<nat>, l: Life, unused: nat, op: Op<nat>, recordID: int)
    requires Holds(l, log, unused) && (op.Flush? || op.FlushAll?)
    ensures Fits(log, l, unused, Did(l, unused, [op]), recordID)
  {
    hide Fits, Apply;
    if l.own.Some? {
      OthersWait(log, op, recordID, l.own.value);
    }
    OneFits(log, l, unused, op, l, unused, recordID);
  }

  lemma {:induction false} HappensFits(order: SortType, log: Log<nat>, l: Life, unused: nat, ev: Event, recordID: int)
    requires Holds(l, log, unused)
    ensures Armed(l) && Fits(log, l, unused, Happens(order, l, unused, ev), recordID)
  {
    hide Fits, Holds, Filtered, Legal, Run;
    HoldsArmed(l, log, unused);
    match ev
    case Packet(_, nr, when, again, end) =>
      FilteredFits(order, log, l, unused, nr, when, again, end, recordID);
    case Ended(_, when, forget, expiring) =>
      var d := Finish(l, unused, when, forget, order == ExpiryTime && !expiring);
      FinishFits(log, l, unused, when, forget, order == ExpiryTime && !expiring, recordID);
      FitsHolds(log, l, unused, d, recordID);
      GoneFits(Run(log, d.ops, recordID), d.life, d.unused, recordID);
      FitsThen(log, l, unused, d, Gone(d.life, d.unused), recordID);
    case Stopped(_) =>
      GoneFits(log, l, unused, recordID);
    case FlushBack =>
      FlushFits(log, l, unused, Flush, recordID);
    case FlushEvery =>
      FlushFits(log, l, unused, FlushAll, recordID);
  }

  /** ---- what becomes of export records ---- */

  predicate Is(op: Op<nat>, kind: nat) {
    (kind == STARTS && op.Start?) || (kind == EXPORTS && op.Export?) || (kind == DROPS && op.Drop?)
  }

  const STARTS: nat := 0
  const EXPORTS: nat := 1
  const DROPS: nat := 2

  function Count(ops: seq<Op<nat>>, kind: nat): nat {
    if ops == [] then 0 else (if Is(ops[0], kind) then 1 else 0) + Count(ops[1..], kind)
  }

  // All exports carry this time, and are pushed to the front or not.
  ghost predicate ExportedAt(ops: seq<Op<nat>>, when: nat, push: bool) {
    forall op | op in ops && op.Export? :: op.when == when && op.push == push
  }

  lemma {:induction false} CountAppend(a: seq<Op<nat>>, b: seq<Op<nat>>, kind: nat)
    ensures Count(a + b, kind) == Count(a, kind) + Count(b, kind)
  {
    if a == [] {
      assert a + b == b;
    } else {
      assert (a + b)[1..] == a[1..] + b;
      CountAppend(a[1..], b, kind);
    }
  }

  lemma {:induction false} CountOne(op: Op<nat>, kind: nat)
    ensures Count([op], kind) == (if Is(op, kind) then 1 else 0) && Count([], kind) == 0
  {
    assert [op][1..] == [];
  }

  function Held(l: Life): nat {
    if l.own.Some? then 1 else 0
  }

  /** A part of a life that begins and exports so many export records: every one that was
      held or begun is exported, dropped, or still held. */
  ghost predicate Counts(l: Life, d: Did, starts: nat, exports: nat, when: nat, push: bool) {
    && Count(d.ops, STARTS) == starts && Count(d.ops, EXPORTS) == exports && ExportedAt(d.ops, when, push)
    && Held(l) + starts == Held(d.life) + exports + Count(d.ops, DROPS)
  }

  lemma {:induction false} CountsThen(l: Life, d: Did, e: Did, starts: nat, exports: nat, starts': nat, exports': nat,
                                      when: nat, push: bool)
    requires Counts(l, d, starts, exports, when, push) && Counts(d.life, e, starts', exports', when, push)
    ensures Counts(l, Before(e, d.ops), starts + starts', exports + exports', when, push)
  {
    CountAppend(d.ops, e.ops, STARTS);
    CountAppend(d.ops, e.ops, EXPORTS);
    CountAppend(d.ops, e.ops, DROPS);
  }

  lemma {:induction false} NothingCounts(l: Life, unused: nat, l': Life, when: nat, push: bool)
    requires l'.own == l.own
    ensures Counts(l, Did(l', unused, []), 0, 0, when, push)
  {
  }

  lemma {:induction false} GoneCounts(l: Life, unused: nat, when: nat, push: bool)
    ensures Counts(l, Gone(l, unused), 0, 0, when, push)
  {
    if l.own.Some? {
      CountOne(Drop(l.own.value), STARTS);
      CountOne(Drop(l.own.value), EXPORTS);
      CountOne(Drop(l.own.value), DROPS);
    }
  }

  lemma {:induction false} BeginCounts(l: Life, unused: nat, nr: nat, when: nat, push: bool)
    ensures Counts(l, Begin(l, unused, nr), 1, 0, when, push)
  {
    var d, start := Gone(l, unused), Op.Start(unused, nr);
    var e := Did(Life(true, Some(unused)), unused + 1, [start]);
    GoneCounts(l, unused, when, push);
    CountOne(start, STARTS);
    CountOne(start, EXPORTS);
    CountOne(start, DROPS);
    CountsThen(l, d, e, 0, 0, 1, 0, when, push);
    assert Begin(l, unused, nr) == Before(e, d.ops);
  }

  lemma {:induction false} FinishCounts(l: Life, unused: nat, when: nat, forget: bool, push: bool)
    requires Armed(l)
    ensures Counts(l, Finish(l, unused, when, forget, push), 0, if l.active && !forget then 1 else 0, when, push)
  {
    if l.active && !forget {
      var op := Op.Export(l.own.value, when, push);
      CountOne(op, STARTS);
      CountOne(op, EXPORTS);
      CountOne(op, DROPS);
    }
  }

  lemma {:induction false} TouchCounts(order: SortType, l: Life, unused: nat, nr: nat, when: nat, push: bool)
    requires l.own.Some?
    ensures Counts(l, Did(l, unused, Touch(order, l, nr)), 0, 0, when, push)
  {
    CountOne(Move(l.own.value, nr), STARTS);
    CountOne(Move(l.own.value, nr), EXPORTS);
    CountOne(Move(l.own.value, nr), DROPS);
  }

  // How often a packet exports its record: once for every export asked for at once that
  // does not forget it, and once if it is seen through and exported in the end.
  function AskedExports(again: seq<Again>, end: End): nat {
    if again == [] then if end.Through? && end.exports && !end.forget then 1 else 0
    else (if again[0].ExportNow? && !again[0].forget then 1 else 0) + AskedExports(again[1..], end)
  }

  lemma {:induction false} LastCounts(order: SortType, l: Life, unused: nat, nr: nat, when: nat, end: End)
    requires l.active && l.own.Some?
    ensures Counts(l, Last(order, l, unused, nr, when, end), if end.Through? && end.restart then 1 else 0,
                   AskedExports([], end), when, order == ExpiryTime)
  {
    hide Counts;
    var push := order == ExpiryTime;
    if end.Halt? {
      NothingCounts(l, unused, l.(active := false), when, push);
      return;
    }
    var t := Did(l, unused, Touch(order, l, nr));
    TouchCounts(order, l, unused, nr, when, push);
    var e := if end.exports then Finish(l, unused, when, end.forget, push) else Did(l, unused, []);
    if end.exports {
      FinishCounts(l, unused, when, end.forget, push);
    } else {
      NothingCounts(l, unused, l, when, push);
    }
    var f := if end.restart then Begin(e.life, e.unused, nr) else Did(e.life, e.unused, []);
    if end.restart {
      BeginCounts(e.life, e.unused, nr, when, push);
    } else {
      NothingCounts(e.life, e.unused, e.life, when, push);
    }
    var exports, restart := AskedExports([], end), if end.restart then 1 else 0;
    CountsThen(l, e, f, 0, exports, restart, 0, when, push);
    CountsThen(l, t, Before(f, e.ops), 0, 0, restart, exports, when, push);
  }

  /** One packet, whatever its control features ask for: the record begins once if it was
      not active, and once more for everything asked for at once and for a restart in the
      end; it is exported, with this time, as often as an export was asked for that did not
      forget it; and every export record begun is exported, dropped or still held. */
  lemma {:induction false} FilteredCounts(order: SortType, l: Life, unused: nat, nr: nat, when: nat, again: seq<Again>,
                                          end: End)
    requires Armed(l)
    ensures Counts(l, Filtered(order, l, unused, nr, when, again, end),
                   (if l.active then 0 else 1) + |again| + (if end.Through? && end.restart then 1 else 0),
                   AskedExports(again, end), when, order == ExpiryTime)
    decreases |again|
  {
    hide Counts, Last;
    var push, restart := order == ExpiryTime, if end.Through? && end.restart then 1 else 0;
    var d, begun := Started(l, unused, nr), if l.active then 0 else 1;
    if l.active {
      NothingCounts(l, unused, l, when, push);
    } else {
      BeginCounts(l, unused, nr, when, push);
    }
    if again == [] {
      var e := Last(order, d.life, d.unused, nr, when, end);
      LastCounts(order, d.life, d.unused, nr, when, end);
      CountsThen(l, d, e, begun, 0, restart, AskedExports(again, end), when, push);
    } else {
      var e := Asked(order, d.life, d.unused, nr, when, again[0]);
      var once, more := if again[0].RestartNow? then 1 else 0, if again[0].ExportNow? && !again[0].forget then 1 else 0;
      if again[0].RestartNow? {
        BeginCounts(d.life, d.unused, nr, when, push);
      } else {
        FinishCounts(d.life, d.unused, when, again[0].forget, push);
      }
      var f := Filtered(order, e.life, e.unused, nr, when, again[1..], end);
      FilteredCounts(order, e.life, e.unused, nr, when, again[1..], end);
      var later, exports := 1 - once + |again| - 1 + restart, AskedExports(again[1..], end);
      CountsThen(d.life, e, f, once, more, later, exports, when, push);
      CountsThen(l, d, Before(f, e.ops), begun, 0, once + later, more + exports, when, push);
    }
  }

  /** A flow that ends exports its record once, with this time, if it is active and not
      forgotten, and holds no export record any more. */
  lemma {:induction false} EndedCounts(order: SortType, l: Life, unused: nat, r: nat, when: nat, forget: bool,
                                       expiring: bool)
    requires Armed(l)
    ensures var d := Happens(order, l, unused, Ended(r, when, forget, expiring));
            && Counts(l, d, 0, if l.active && !forget then 1 else 0, when, order == ExpiryTime && !expiring)
            && d.life == UNBORN
  {
    hide Counts;
    var push := order == ExpiryTime && !expiring;
    var d := Finish(l, unused, when, forget, push);
    FinishCounts(l, unused, when, forget, push);
    GoneCounts(d.life, d.unused, when, push);
    CountsThen(l, d, Gone(d.life, d.unused), 0, if l.active && !forget then 1 else 0, 0, 0, when, push);
  }

  /** ---- all records together ---- */

  // Every record's export record waits in the list, and is its own.
  ghost predicate Inv(s: Lives, log: Log<nat>) {
    && Bounded(log.list, s.unused)
    && (forall r | r in s.of :: Holds(s.of[r], log, s.unused))
    && (forall r, q | r in s.of && q in s.of && r != q && s.of[r].own.Some? :: s.of[r].own != s.of[q].own)
  }

  lemma {:induction false} InvArmed(s: Lives, log: Log<nat>)
    requires Inv(s, log)
    ensures AllArmed(s) && forall r :: Holds(LifeOf(s, r), log, s.unused)
  {
    hide Bounded, Waits;
  }

  lemma {:induction false} StepKeeps(order: SortType, s: Lives, log: Log<nat>, ev: Event, recordID: int)
    requires Inv(s, log)
    ensures AllArmed(s) && Armed(LifeOf(s, Whose(ev)))
    ensures var d := Happens(order, LifeOf(s, Whose(ev)), s.unused, ev);
            Legal(log, d.ops, recordID) && Inv(After(order, s, ev), Run(log, d.ops, recordID))
  {
    hide Happens, Legal, Run, Bounded, Waits, Fits;
    InvArmed(s, log);
    var w := Whose(ev);
    var l := LifeOf(s, w);
    HappensFits(order, log, l, s.unused, ev, recordID);
    var d, s' := Happens(order, l, s.unused, ev), After(order, s, ev);
    FitsIs(log, l, s.unused, d, recordID);
    var log' := Run(log, d.ops, recordID);
    forall r | r in s'.of ensures Holds(s'.of[r], log', s'.unused) {
      if r != w && s.of[r].own.Some? {
        assert l.own != s.of[r].own;
        assert Waits(log', s.of[r].own.value);
      }
    }
  }

  /** Every run of a table's records misuses nothing: each operation on the export list is
      enabled when its turn comes. */
  lemma {:induction false} LivesAreLegal(order: SortType, s: Lives, log: Log<nat>, evs: seq<Event>, recordID: int)
    requires Inv(s, log)
    ensures AllArmed(s) && Legal(log, OpsOf(order, s, evs), recordID)
    decreases |evs|
  {
    hide Inv, Happens, Enabled, Apply;
    InvArmed(s, log);
    if evs != [] {
      StepKeeps(order, s, log, evs[0], recordID);
      var d := Happens(order, LifeOf(s, Whose(evs[0])), s.unused, evs[0]);
      LivesAreLegal(order, After(order, s, evs[0]), Run(log, d.ops, recordID), evs[1..], recordID);
      LegalAppend(log, d.ops, OpsOf(order, After(order, s, evs[0]), evs[1..]), recordID);
    }
  }

  /** ---- event numbers ---- */

  // Packets have rising numbers, and everything is flushed only in the end.
  ghost predicate InSequence(evs: seq<Event>, now: nat) {
    evs == []
    || (!evs[0].FlushEvery? && (evs[0].Packet? ==> evs[0].nr >= now)
        && InSequence(evs[1..], if evs[0].Packet? then evs[0].nr else now))
  }

  // Operations of one event.
  ghost predicate AllAt(ops: seq<Op<nat>>, nr: nat) {
    forall i | 0 <= i < |ops| ::
      && !ops[i].FlushAll? && (ops[i].Export? ==> !ops[i].push)
      && (ops[i].Start? || ops[i].Move? ==> ops[i].packetID == nr)
  }

  lemma {:induction false} AskedAt(order: SortType, l: Life, unused: nat, nr: nat, when: nat, a: Again)
    requires Armed(l) && order != ExpiryTime
    ensures AllAt(Started(l, unused, nr).ops, nr) && AllAt(Asked(order, l, unused, nr, when, a).ops, nr)
  {
  }

  lemma {:induction false} LastAt(order: SortType, l: Life, unused: nat, nr: nat, when: nat, end: End)
    requires l.active && l.own.Some? && order != ExpiryTime
    ensures AllAt(Last(order, l, unused, nr, when, end).ops, nr)
  {
  }

  lemma {:induction false} AllAtAppend(a: seq<Op<nat>>, b: seq<Op<nat>>, nr: nat)
    requires AllAt(a, nr) && AllAt(b, nr)
    ensures AllAt(a + b, nr)
  {
  }

  lemma {:induction false} FilteredAt(order: SortType, l: Life, unused: nat, nr: nat, when: nat, again: seq<Again>,
                                      end: End)
    requires Armed(l) && order != ExpiryTime
    ensures AllAt(Filtered(order, l, unused, nr, when, again, end).ops, nr)
    decreases |again|
  {
    hide AllAt, Started, Asked, Last;
    var d := Started(l, unused, nr);
    AskedAt(order, l, unused, nr, when, RestartNow);
    if again != [] {
      var e := Asked(order, d.life, d.unused, nr, when, again[0]);
      AskedAt(order, d.life, d.unused, nr, when, again[0]);
      FilteredAt(order, e.life, e.unused, nr, when, again[1..], end);
      var more := Filtered(order, e.life, e.unused, nr, when, again[1..], end);
      AllAtAppend(e.ops, more.ops, nr);
      AllAtAppend(d.ops, e.ops + more.ops, nr);
    } else {
      LastAt(order, d.life, d.unused, nr, when, end);
      AllAtAppend(d.ops, Last(order, d.life, d.unused, nr, when, end).ops, nr);
    }
  }

  lemma {:induction false} MonotoneLower(ops: seq<Op<nat>>, now: nat, lower: nat)
    requires Monotone(ops, now) && lower <= now
    ensures Monotone(ops, lower)
  {
    if ops != [] {
      MonotoneLower(ops[1..], Now(ops[0], now), Now(ops[0], lower));
    }
  }

  lemma {:induction false} MonotoneAt(ops: seq<Op<nat>>, rest: seq<Op<nat>>, nr: nat, now: nat)
    requires AllAt(ops, nr) && now <= nr && Monotone(rest, nr)
    ensures Monotone(ops + rest, now)
  {
    if ops == [] {
      assert ops + rest == rest;
      MonotoneLower(rest, nr, now);
    } else {
      assert (ops + rest)[1..] == ops[1..] + rest;
      MonotoneAt(ops[1..], rest, nr, Now(ops[0], now));
    }
  }

  lemma {:induction false} LivesAreMonotone(order: SortType, s: Lives, evs: seq<Event>, now: nat)
    requires AllArmed(s) && order != ExpiryTime && InSequence(evs, now)
    ensures Monotone(OpsOf(order, s, evs), now)
    decreases |evs|
  {
    hide Monotone, Filtered;
    if evs == [] {
      NothingIsMonotone(now);
    } else {
      var ev := evs[0];
      StaysArmed(order, s, ev);
      var nr := if ev.Packet? then ev.nr else now;
      LivesAreMonotone(order, After(order, s, ev), evs[1..], nr);
      if ev.Packet? {
        FilteredAt(order, LifeOf(s, ev.r), s.unused, ev.nr, ev.when, ev.again, ev.end);
      }
      var ops := Happens(order, LifeOf(s, Whose(ev)), s.unused, ev).ops;
      MonotoneAt(ops, OpsOf(order, After(order, s, ev), evs[1..]), nr, now);
    }
  }

  lemma {:induction false} NothingIsMonotone(now: nat)
    ensures Monotone<nat>([], now)
  {
  }

  /** From an empty table on: all operations are enabled, and in start or stop order their
      event numbers rise. */
  lemma {:induction false} LivesAreProper(order: SortType, evs: seq<Event>, recordID: int)
    ensures AllArmed(NOBODY) && Legal(Log<nat>.Log([], []), OpsOf(order, NOBODY, evs), recordID)
    ensures order != ExpiryTime && InSequence(evs, 0) ==> Monotone(OpsOf(order, NOBODY, evs), 0)
  {
    hide OpsOf, Legal, Monotone;
    LivesAreLegal(order, NOBODY, Log([], []), evs, recordID);
    if order != ExpiryTime && InSequence(evs, 0) {
      LivesAreMonotone(order, NOBODY, evs, 0);
    }
  }
}
