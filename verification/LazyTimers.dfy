/** One key of the flow table: its live flow behind a lazily refreshed expireNext, and the
    records it has exported. Any run meets the specification, but for exact ties. */
module LazyTimers {
  import opened ExportOrder
  import opened FlowSegments
  import opened TcpEnd
  import opened Wrappers

  datatype Reason = Idle | Active | End | ForcedEnd

  // An exported flow record.
  datatype Record = Record(packets: seq<Packet>, reason: Reason, expiry: nat, exportTime: nat)

  // The live flow of a key: its packets and expireNext, the time before which the
  // table does not look at its timers.
  datatype Live = Live(packets: seq<Packet>, next: nat)

  datatype KeyState = KeyState(live: Option<Live>, done: seq<Record>)

  const NO_FLOW := KeyState(None, [])

  // Only a flow with packets is live.
  predicate Proper(s: KeyState) {
    s.live.Some? ==> s.live.value.packets != []
  }

  /** ---- timers ---- */

  // The two timers of a live flow; 0 means not set.
  function IdleTimer(cfg: Config, ps: seq<Packet>): nat
    requires ps != []
  {
    if cfg.idle != 0 then ps[|ps| - 1].time + cfg.idle else 0
  }

  function ActiveTimer(cfg: Config, ps: seq<Packet>): nat
    requires ps != []
  {
    if cfg.active != 0 then ps[0].time + cfg.active else 0
  }

  // Neither timer is past.
  predicate NotPast(cfg: Config, ps: seq<Packet>, t: nat)
    requires ps != []
  {
    (cfg.idle != 0 ==> t <= IdleTimer(cfg, ps)) && (cfg.active != 0 ==> t <= ActiveTimer(cfg, ps))
  }

  // A timer is due at exactly this time, and none is past.
  predicate JustDue(cfg: Config, ps: seq<Packet>, t: nat)
    requires ps != []
  {
    NotPast(cfg, ps, t)
    && ((cfg.idle != 0 && t == IdleTimer(cfg, ps)) || (cfg.active != 0 && t == ActiveTimer(cfg, ps)))
  }

  // The smaller of two timers, ignoring those that are not set.
  function Earlier(a: nat, b: nat): nat {
    if a == 0 || (b != 0 && b <= a) then b else a
  }

  function Arm(next: nat, timer: nat): nat {
    if timer != 0 && (timer < next || next == 0) then timer else next
  }

  /** ---- steps of one key ---- */

  /** Flow.expire behind the table's gate: fire the timers that are due, idle first. */
  function ExpireAt(cfg: Config, s: KeyState, t: nat): KeyState
    requires Proper(s)
  {
    if s.live.None? || !(t > s.live.value.next) || s.live.value.next == 0 then s
    else
      var ps := s.live.value.packets;
      var idle, active := IdleTimer(cfg, ps), ActiveTimer(cfg, ps);
      if idle != 0 && idle <= t then KeyState(None, s.done + [Record(ps, Idle, idle, t)])
      else if active != 0 && active <= t then KeyState(None, s.done + [Record(ps, Active, active, t)])
      else s.(live := Some(Live(ps, Earlier(idle, active))))
  }

  // The packet joins the live flow, or a new one.
  ghost function Joined(cfg: Config, s: KeyState, p: Packet): KeyState {
    var ps := (if s.live.Some? then s.live.value.packets else []) + [p];
    var next := if s.live.Some? then s.live.value.next else Arm(0, ActiveTimer(cfg, ps));
    if Ended(cfg, ps) then KeyState(None, s.done + [Record(ps, End, p.time, p.time)])
    else KeyState(Some(Live(ps, Arm(next, IdleTimer(cfg, ps)))), s.done)
  }

  /** A packet of this key: expire, then extend or create the flow. */
  ghost function EventAt(cfg: Config, s: KeyState, p: Packet): KeyState
    requires Proper(s)
  {
    Joined(cfg, ExpireAt(cfg, s, p.time), p)
  }

  // FlowTable.EOF and expireWindow: expire what is due, end the rest for this reason.
  function CloseAt(cfg: Config, s: KeyState, t: nat, reason: Reason): (r: KeyState)
    requires Proper(s)
    ensures r.live.None? && |r.done| >= |s.done| && (s.live.Some? ==> |r.done| == |s.done| + 1)
  {
    var s1 := ExpireAt(cfg, s, t);
    if s1.live.Some? then KeyState(None, s1.done + [Record(s1.live.value.packets, reason, t, t)]) else s1
  }

  // The record it ends up in.
  function ClosingRecord(cfg: Config, l: Live, t: nat, reason: Reason): Record
    requires l.packets != []
  {
    var s := CloseAt(cfg, KeyState(Some(l), []), t, reason);
    s.done[0]
  }

  lemma {:induction false} CloseAtIs(cfg: Config, s: KeyState, t: nat, reason: Reason)
    requires s.live.Some? && s.live.value.packets != []
    ensures CloseAt(cfg, s, t, reason) == KeyState(None, s.done + [ClosingRecord(cfg, s.live.value, t, reason)])
    ensures ClosingRecord(cfg, s.live.value, t, reason).packets == s.live.value.packets
  {
    assert CloseAt(cfg, KeyState(Some(s.live.value), []), t, reason).done
        == [ClosingRecord(cfg, s.live.value, t, reason)];
  }

  function EofAt(cfg: Config, s: KeyState, t: nat): KeyState
    requires Proper(s)
  {
    CloseAt(cfg, s, t, ForcedEnd)
  }

  // A packet of a new window closes all flows first, whatever their keys.
  function Windowed(cfg: Config, s: KeyState, w: nat, p: Packet): (r: KeyState)
    requires Proper(s)
    ensures Proper(r)
  {
    if cfg.window && p.window != w then CloseAt(cfg, s, p.time, End) else s
  }

  /** ---- runs ---- */

  datatype Op = Event(p: Packet) | Expire(when: nat)

  function Time(op: Op): nat {
    match op
    case Event(p) => p.time
    case Expire(when) => when
  }

  // The table's window after an operation.
  function WindowOf(cfg: Config, w: nat, op: Op): nat {
    if cfg.window && op.Event? then op.p.window else w
  }

  function WindowAfter(cfg: Config, w: nat, ops: seq<Op>): nat
    decreases |ops|
  {
    if ops == [] then w else WindowAfter(cfg, WindowOf(cfg, w, ops[0]), ops[1..])
  }

  // What one key sees of an operation.
  ghost function StepAt(cfg: Config, s: KeyState, w: nat, op: Op, k: Key): (r: KeyState)
    requires Proper(s)
    ensures Proper(r)
  {
    match op
    case Event(p) =>
      var s1 := Windowed(cfg, s, w, p);
      if p.key == k then EventAt(cfg, s1, p) else s1
    case Expire(when) => ExpireAt(cfg, s, when)
  }

  // What a key goes through while the table handles ops.
  ghost function KeyRun(cfg: Config, s: KeyState, w: nat, ops: seq<Op>, k: Key): (r: KeyState)
    requires Proper(s)
    ensures Proper(r)
    decreases |ops|
  {
    if ops == [] then s
    else KeyRun(cfg, StepAt(cfg, s, w, ops[0], k), WindowOf(cfg, w, ops[0]), ops[1..], k)
  }

  // Where the table is in time: the current window, and all windows there were.
  datatype Clock = Clock(now: nat, window: nat, used: set<nat>)

  const START := Clock(0, 0, {})

  // Time does not go backwards, and the packets of a window are consecutive.
  predicate Timely(cfg: Config, op: Op, c: Clock) {
    c.now <= Time(op) && (cfg.window && op.Event? && op.p.window in c.used ==> op.p.window == c.window)
  }

  function Tick(cfg: Config, op: Op, c: Clock): Clock {
    Clock(Time(op), WindowOf(cfg, c.window, op), if op.Event? then c.used + {op.p.window} else c.used)
  }

  ghost predicate Monotone(cfg: Config, ops: seq<Op>, c: Clock)
    decreases |ops|
  {
    ops == [] || (Timely(cfg, ops[0], c) && Monotone(cfg, ops[1..], Tick(cfg, ops[0], c)))
  }

  function ClockAfter(cfg: Config, ops: seq<Op>, c: Clock): Clock
    decreases |ops|
  {
    if ops == [] then c else ClockAfter(cfg, ops[1..], Tick(cfg, ops[0], c))
  }

  function PacketsOf(ops: seq<Op>, k: Key): seq<Packet> {
    if ops == [] then []
    else (if ops[0].Event? && ops[0].p.key == k then [ops[0].p] else []) + PacketsOf(ops[1..], k)
  }

  function RecordsOf(done: seq<Record>): (r: seq<seq<Packet>>)
    ensures |r| == |done|
  {
    if done == [] then [] else [done[0].packets] + RecordsOf(done[1..])
  }

  // The records so far, the live one included.
  function Cuts(s: KeyState): seq<seq<Packet>> {
    RecordsOf(s.done) + if s.live.Some? then [s.live.value.packets] else []
  }

  /** ---- why a record ended ---- */

  /** The end reason of a record, read off its packets (section 5.11 of RFC 5102): the
      expiry time belongs to the timer named; a record that ends without its packets
      ending it was closed with its window; and a record closed with its window or at the
      end of the input was not overdue. */
  ghost predicate Justified(cfg: Config, r: Record) {
    && r.packets != []
    && var idle, active := IdleTimer(cfg, r.packets), ActiveTimer(cfg, r.packets);
    match r.reason
    case Idle => !Ended(cfg, r.packets) && idle != 0 && r.expiry == idle <= r.exportTime
    case Active =>
      !Ended(cfg, r.packets) && active != 0 && r.expiry == active <= r.exportTime && (idle != 0 ==> r.exportTime < idle)
    case End =>
      r.expiry == r.exportTime
      && if Ended(cfg, r.packets) then r.expiry == r.packets[|r.packets| - 1].time
         else cfg.window && NotPast(cfg, r.packets, r.expiry)
    case ForcedEnd => !Ended(cfg, r.packets) && r.expiry == r.exportTime && NotPast(cfg, r.packets, r.expiry)
  }

  ghost predicate AllJustified(cfg: Config, done: seq<Record>) {
    forall i | 0 <= i < |done| :: Justified(cfg, done[i])
  }

  /** ---- the invariant ---- */

  // The window of the record's last packet, if it has one.
  function LastWindow(r: Record): nat {
    if r.packets == [] then 0 else r.packets[|r.packets| - 1].window
  }

  // expireNext is a lower bound of all pending timers and 0 only if none is pending.
  ghost predicate LiveInv(cfg: Config, l: Live, c: Clock) {
    var ps := l.packets;
    && ps != [] && !Ended(cfg, ps) && ps[|ps| - 1].time <= c.now
    && (cfg.idle != 0 ==> 0 < l.next <= IdleTimer(cfg, ps))
    && (cfg.active != 0 ==> 0 < l.next <= ActiveTimer(cfg, ps))
    && (cfg.idle == 0 && cfg.active == 0 ==> l.next == 0)
    && (cfg.window ==> ps[|ps| - 1].window == c.window && c.window in c.used)
  }

  // The last record was closed by a timer, by its packets, or with its window.
  ghost predicate WasClosed(cfg: Config, r: Record, c: Clock) {
    && Justified(cfg, r) && r.exportTime <= c.now && r.reason != ForcedEnd
    && (cfg.window ==>
          LastWindow(r) in c.used && (r.reason == End && !Ended(cfg, r.packets) ==> LastWindow(r) != c.window))
  }

  ghost predicate KeyInv(cfg: Config, s: KeyState, c: Clock) {
    && Admissible(cfg, Cuts(s)) && AllJustified(cfg, s.done)
    && (s.live.Some? ==> LiveInv(cfg, s.live.value, c))
    && (s.live.None? && s.done != [] ==> WasClosed(cfg, s.done[|s.done| - 1], c))
  }

  lemma {:induction false} RecordsOfAppend(done: seq<Record>, r: Record)
    ensures RecordsOf(done + [r]) == RecordsOf(done) + [r.packets]
  {
    if done != [] {
      assert (done + [r])[1..] == done[1..] + [r];
      RecordsOfAppend(done[1..], r);
    } else {
      assert done + [r] == [r];
    }
  }

  lemma {:induction false} LastRecord(done: seq<Record>)
    requires done != []
    ensures RecordsOf(done)[|done| - 1] == done[|done| - 1].packets
  {
    if |done| > 1 {
      LastRecord(done[1..]);
    }
  }

  lemma {:induction false} CutsOfClosed(s: KeyState)
    requires s.live.None?
    ensures Cuts(s) == RecordsOf(s.done)
  {
    assert RecordsOf(s.done) + [] == RecordsOf(s.done);
  }

  // Closing the live flow moves no packet.
  lemma {:induction false} CloseKeepsCuts(cfg: Config, s: KeyState, r: Record)
    requires s.live.Some? && r.packets == s.live.value.packets
    ensures Cuts(KeyState(None, s.done + [r])) == Cuts(s)
    ensures AllJustified(cfg, s.done) && Justified(cfg, r) ==> AllJustified(cfg, s.done + [r])
  {
    hide Justified;
    RecordsOfAppend(s.done, r);
    CutsOfClosed(KeyState(None, s.done + [r]));
  }

  // Looking at the timers, even with a clock that is behind.
  lemma {:induction false} ExpireIsJustified(cfg: Config, s: KeyState, c: Clock, t: nat)
    requires KeyInv(cfg, s, c)
    ensures Proper(s)
    ensures var s' := ExpireAt(cfg, s, t);
            Cuts(s') == Cuts(s) && AllJustified(cfg, s'.done)
            // what survives is not overdue
            && (s'.live.Some? ==> s.live.Some? && s'.live.value.packets == s.live.value.packets
                                  && NotPast(cfg, s'.live.value.packets, t))
  {
    hide Admissible, Ended;
    if s.live.Some? {
      var ps := s.live.value.packets;
      CloseKeepsCuts(cfg, s, Record(ps, Idle, IdleTimer(cfg, ps), t));
      CloseKeepsCuts(cfg, s, Record(ps, Active, ActiveTimer(cfg, ps), t));
    }
    assert Cuts(ExpireAt(cfg, s, t)) == Cuts(s);
  }

  /** Looking at the timers behind a stale expireNext. */
  lemma {:induction false} ExpireKeeps(cfg: Config, s: KeyState, c: Clock, t: nat)
    requires KeyInv(cfg, s, c) && c.now <= t
    ensures Proper(s)
    ensures var s' := ExpireAt(cfg, s, t);
            KeyInv(cfg, s', c.(now := t)) && Cuts(s') == Cuts(s)
            && (s'.live.Some? ==> s.live.Some? && s'.live.value.packets == s.live.value.packets
                                  && NotPast(cfg, s'.live.value.packets, t))
  {
    hide Admissible, Ended, Cuts;
    ExpireIsJustified(cfg, s, c, t);
  }

  /** ---- every step keeps it ---- */

  // The clock goes on, and more windows are used.
  lemma {:induction false} ClockKeeps(cfg: Config, s: KeyState, c: Clock, t: nat, used: set<nat>)
    requires KeyInv(cfg, s, c) && c.now <= t && c.used <= used
    ensures KeyInv(cfg, s, Clock(t, c.window, used))
  {
    hide Admissible, Ended, Justified;
  }

  // The window ends with this packet: no flow survives.
  lemma {:induction false} WindowKeeps(cfg: Config, s: KeyState, c: Clock, p: Packet)
    requires KeyInv(cfg, s, c) && Timely(cfg, Event(p), c)
    ensures Proper(s)
    ensures var s' := Windowed(cfg, s, c.window, p);
            var c' := c.(now := p.time, window := WindowOf(cfg, c.window, Event(p)));
            KeyInv(cfg, s', c') && Cuts(s') == Cuts(s)
            && (cfg.window && p.window != c.window ==>
                  s'.live.None? && (s'.done != [] ==> LastWindow(s'.done[|s'.done| - 1]) != p.window))
  {
    hide Admissible, Ended;
    ExpireKeeps(cfg, s, c, p.time);
    var s1 := ExpireAt(cfg, s, p.time);
    if s1.live.Some? {
      CloseKeepsCuts(cfg, s1, Record(s1.live.value.packets, End, p.time, p.time));
    }
  }

  // A packet that joins the live flow.
  lemma {:induction false} ExtendKeeps(cfg: Config, s: KeyState, c: Clock, p: Packet)
    requires KeyInv(cfg, s, c) && s.live.Some? && c.now == p.time && (cfg.window ==> p.window == c.window)
    requires NotPast(cfg, s.live.value.packets, p.time)
    ensures KeyInv(cfg, Joined(cfg, s, p), c.(used := c.used + {p.window}))
    ensures Flat(Cuts(Joined(cfg, s, p))) == Flat(Cuts(s)) + [p]
  {
    hide Admissible, Ended, Flat;
    var ps := s.live.value.packets;
    GrowLast(cfg, RecordsOf(s.done), ps, p);
    RecordsOfAppend(s.done, Record(ps + [p], End, p.time, p.time));
    assert Cuts(Joined(cfg, s, p)) == RecordsOf(s.done) + [ps + [p]];
  }

  // A closed record may be followed by this packet.
  lemma {:induction false} ClosedMayBeFollowed(cfg: Config, r: Record, c: Clock, p: Packet)
    requires WasClosed(cfg, r, c) && c.now <= p.time && (cfg.window ==> p.window == c.window)
    ensures MaySplit(cfg, r.packets, p)
  {
    hide Ended;
  }

  // A packet that starts a new flow.
  lemma {:induction false} StartKeeps(cfg: Config, s: KeyState, c: Clock, p: Packet)
    requires KeyInv(cfg, s, c) && s.live.None? && c.now == p.time && (cfg.window ==> p.window == c.window)
    ensures KeyInv(cfg, Joined(cfg, s, p), c.(used := c.used + {p.window}))
    ensures Flat(Cuts(Joined(cfg, s, p))) == Flat(Cuts(s)) + [p]
  {
    hide Admissible, Ended, Flat, MaySplit, WasClosed;
    StartsRecord(cfg, s, p);
    if s.done != [] {
      LastRecord(s.done);
      ClosedMayBeFollowed(cfg, s.done[|s.done| - 1], c, p);
      assert s.done[|s.done| - 1].packets != [];
    }
    AdmissibleAppend(cfg, Cuts(s), [p]);
    FlatAppend(Cuts(s), [p]);
    StartIsJustified(cfg, p, c);
    assert [] + [p] == [p];
  }

  // Nothing but a record of this packet is new.
  lemma {:induction false} StartsRecord(cfg: Config, s: KeyState, p: Packet)
    requires s.live.None?
    ensures Cuts(s) == RecordsOf(s.done) && Cuts(Joined(cfg, s, p)) == Cuts(s) + [[p]]
  {
    hide Ended;
    assert [] + [p] == [p];
    RecordsOfAppend(s.done, Record([p], End, p.time, p.time));
    CutsOfClosed(s);
    CutsOfClosed(KeyState(None, s.done + [Record([p], End, p.time, p.time)]));
  }

  lemma {:induction false} StartIsJustified(cfg: Config, p: Packet, c: Clock)
    requires c.now == p.time && (cfg.window ==> p.window == c.window)
    ensures Ended(cfg, [p]) ==> Justified(cfg, Record([p], End, p.time, p.time))
                                && WasClosed(cfg, Record([p], End, p.time, p.time), c.(used := c.used + {p.window}))
    ensures !Ended(cfg, [p]) ==>
              LiveInv(cfg, Live([p], Arm(Arm(0, ActiveTimer(cfg, [p])), IdleTimer(cfg, [p]))),
                      c.(used := c.used + {p.window}))
  {
    hide Ended;
  }

  /** One packet: the invariant stays, and exactly this packet is added to the records. */
  lemma {:induction false} EventKeeps(cfg: Config, s: KeyState, c: Clock, p: Packet)
    requires KeyInv(cfg, s, c) && c.now == p.time && (cfg.window ==> p.window == c.window)
    ensures Proper(s) && KeyInv(cfg, EventAt(cfg, s, p), c.(used := c.used + {p.window}))
    ensures Flat(Cuts(EventAt(cfg, s, p))) == Flat(Cuts(s)) + [p]
  {
    hide KeyInv, Joined, Flat, Cuts, NotPast;
    ExpireKeeps(cfg, s, c, p.time);
    var s1 := ExpireAt(cfg, s, p.time);
    if s1.live.Some? {
      ExtendKeeps(cfg, s1, c, p);
    } else {
      StartKeeps(cfg, s1, c, p);
    }
  }

  lemma {:induction false} StepKeeps(cfg: Config, s: KeyState, c: Clock, op: Op, k: Key)
    requires KeyInv(cfg, s, c) && Timely(cfg, op, c)
    ensures Proper(s) && KeyInv(cfg, StepAt(cfg, s, c.window, op, k), Tick(cfg, op, c))
    ensures Flat(Cuts(StepAt(cfg, s, c.window, op, k)))
         == Flat(Cuts(s)) + if op.Event? && op.p.key == k then [op.p] else []
  {
    hide KeyInv, EventAt, ExpireAt, Windowed, Cuts, Flat;
    match op {
      case Event(p) =>
        WindowKeeps(cfg, s, c, p);
        var s1, c1 := Windowed(cfg, s, c.window, p), c.(now := p.time, window := WindowOf(cfg, c.window, op));
        if p.key == k {
          EventKeeps(cfg, s1, c1, p);
        } else {
          ClockKeeps(cfg, s1, c1, p.time, c.used + {p.window});
        }
      case Expire(when) =>
        ExpireKeeps(cfg, s, c, when);
    }
    assert Flat(Cuts(s)) + [] == Flat(Cuts(s));
  }

  lemma {:induction false} RunKeeps(cfg: Config, s: KeyState, c: Clock, ops: seq<Op>, k: Key)
    requires KeyInv(cfg, s, c) && Monotone(cfg, ops, c)
    ensures Proper(s) && KeyInv(cfg, KeyRun(cfg, s, c.window, ops, k), ClockAfter(cfg, ops, c))
    ensures Flat(Cuts(KeyRun(cfg, s, c.window, ops, k))) == Flat(Cuts(s)) + PacketsOf(ops, k)
    decreases |ops|
  {
    hide KeyInv, StepAt, Cuts, Flat, Timely, KeyRun, PacketsOf, ClockAfter, Monotone, Tick;
    InvIsProper(cfg, s, c);
    RunUnfolds(cfg, s, c, ops, k);
    var before := Flat(Cuts(s));
    if ops == [] {
      assert before + [] == before;
    } else {
      var op, rest := ops[0], ops[1..];
      var s1 := StepAt(cfg, s, c.window, op, k);
      StepKeeps(cfg, s, c, op, k);
      RunKeeps(cfg, s1, Tick(cfg, op, c), rest, k);
      var own := if op.Event? && op.p.key == k then [op.p] else [];
      assert (before + own) + PacketsOf(rest, k) == before + (own + PacketsOf(rest, k));
    }
  }

  // The run, its packets and its clock, one operation at a time.
  lemma {:induction false} RunUnfolds(cfg: Config, s: KeyState, c: Clock, ops: seq<Op>, k: Key)
    requires Proper(s) && Monotone(cfg, ops, c)
    ensures ops == [] ==>
              KeyRun(cfg, s, c.window, ops, k) == s && PacketsOf(ops, k) == [] && ClockAfter(cfg, ops, c) == c
    ensures ops != [] ==>
              var op, c1 := ops[0], Tick(cfg, ops[0], c);
              && Timely(cfg, op, c) && Monotone(cfg, ops[1..], c1)
              && KeyRun(cfg, s, c.window, ops, k)
                 == KeyRun(cfg, StepAt(cfg, s, c.window, op, k), c1.window, ops[1..], k)
              && PacketsOf(ops, k) == (if op.Event? && op.p.key == k then [op.p] else []) + PacketsOf(ops[1..], k)
              && ClockAfter(cfg, ops, c) == ClockAfter(cfg, ops[1..], c1)
  {
    hide StepAt, Timely;
  }

  lemma {:induction false} InvIsProper(cfg: Config, s: KeyState, c: Clock)
    requires KeyInv(cfg, s, c)
    ensures Proper(s)
  {
    hide Admissible, Ended;
  }

  lemma {:induction false} NothingIsFine(cfg: Config)
    ensures KeyInv(cfg, NO_FLOW, START)
  {
  }

  /** ---- every schedule ---- */

  /** Whatever the schedule of Expire calls, ties or not: no packet of a key is lost,
      repeated or moved, and every record keeps both timeouts and its window. */
  lemma {:induction false} AnyScheduleIsAdmissible(cfg: Config, ops: seq<Op>, k: Key)
    requires Monotone(cfg, ops, START)
    ensures var s := KeyRun(cfg, NO_FLOW, 0, ops, k);
            && Admissible(cfg, Cuts(s)) && Flat(Cuts(s)) == PacketsOf(ops, k) && AllJustified(cfg, s.done)
            && AllKeepTimeouts(cfg, Cuts(s))
  {
    hide Admissible, AllKeepTimeouts, Flat, AllJustified, KeyRun, Monotone;
    NothingIsFine(cfg);
    RunKeeps(cfg, NO_FLOW, START, ops, k);
    NothingIsFlat();
    AdmissibleKeepsTimeouts(cfg, Cuts(KeyRun(cfg, NO_FLOW, 0, ops, k)));
    assert [] + PacketsOf(ops, k) == PacketsOf(ops, k);
  }

  lemma {:induction false} NothingIsFlat()
    ensures Cuts(NO_FLOW) == [] && Flat(Cuts(NO_FLOW)) == []
  {
  }

  /** Without ties the records are exactly the specification's: the schedule of Expire
      calls and the stale expireNext do not show. */
  lemma {:induction false} ScheduleDoesNotMatter(cfg: Config, ops: seq<Op>, k: Key)
    requires Monotone(cfg, ops, START) && NoTies(cfg, PacketsOf(ops, k))
    ensures Cuts(KeyRun(cfg, NO_FLOW, 0, ops, k)) == Segments(cfg, PacketsOf(ops, k))
  {
    hide KeyRun, Monotone, Cuts, NoTies, Segments;
    AnyScheduleIsAdmissible(cfg, ops, k);
    AdmissibleIsUnique(cfg, Cuts(KeyRun(cfg, NO_FLOW, 0, ops, k)));
  }

  /** ---- ties ---- */

  /** The packet is in time for its record, a timer is due at exactly its arrival, and the
      table looks at the timers now (expireNext is stale) or did so at this very moment. */
  predicate TieHits(cfg: Config, s: KeyState, w: nat, p: Packet)
    requires Proper(s)
  {
    !(cfg.window && p.window != w) &&
    if s.live.Some? then
      0 < s.live.value.next < p.time && JustDue(cfg, s.live.value.packets, p.time)
    else
      s.done != [] && var r := s.done[|s.done| - 1];
      && (r.reason == Idle || r.reason == Active) && r.exportTime == p.time
      && r.packets != [] && JustDue(cfg, r.packets, p.time)
      && (cfg.window ==> p.window == r.packets[|r.packets| - 1].window)
  }

  ghost predicate NoTieHits(cfg: Config, s: KeyState, w: nat, ops: seq<Op>, k: Key)
    requires Proper(s)
    decreases |ops|
  {
    ops == []
    || ((ops[0].Event? && ops[0].p.key == k ==> !TieHits(cfg, s, w, ops[0].p))
        && NoTieHits(cfg, StepAt(cfg, s, w, ops[0], k), WindowOf(cfg, w, ops[0]), ops[1..], k))
  }

  // Growing the open record moves no boundary.
  lemma {:induction false} ExtendSharp(cfg: Config, s: KeyState, p: Packet)
    requires Proper(s) && s.live.Some?
    ensures Sharp(cfg, Cuts(Joined(cfg, s, p))) <==> Sharp(cfg, Cuts(s))
  {
    hide Splits, Ended, Sharp;
    var ps, before := s.live.value.packets, RecordsOf(s.done);
    RecordsOfAppend(s.done, Record(ps + [p], End, p.time, p.time));
    assert Cuts(Joined(cfg, s, p)) == before + [ps + [p]];
    SharpAppend(cfg, before, ps);
    SharpAppend(cfg, before, ps + [p]);
  }

  lemma {:induction false} StartSharp(cfg: Config, s: KeyState, p: Packet)
    requires s.live.None? && (s.done != [] ==> s.done[|s.done| - 1].packets != [])
    ensures Sharp(cfg, Cuts(Joined(cfg, s, p))) <==>
            Sharp(cfg, Cuts(s)) && (s.done != [] ==> Splits(cfg, s.done[|s.done| - 1].packets, p))
  {
    hide Splits, Ended, Sharp;
    var before := RecordsOf(s.done);
    RecordsOfAppend(s.done, Record([p], End, p.time, p.time));
    assert [] + [p] == [p];
    assert Cuts(Joined(cfg, s, p)) == before + [[p]] && Cuts(s) == before;
    SharpAppend(cfg, before, [p]);
    if s.done != [] {
      LastRecord(s.done);
    }
  }

  // A closed record is followed too early exactly when its timer fired on the dot.
  lemma {:induction false} ClosedOnTheDot(cfg: Config, r: Record, c: Clock, p: Packet)
    requires WasClosed(cfg, r, c) && c.now <= p.time && (cfg.window ==> p.window == c.window)
    ensures Splits(cfg, r.packets, p) <==>
            !((r.reason == Idle || r.reason == Active) && r.exportTime == p.time && JustDue(cfg, r.packets, p.time)
              && (cfg.window ==> p.window == r.packets[|r.packets| - 1].window))
  {
    hide Ended;
  }

  // Within a window.
  lemma {:induction false} EventSharp(cfg: Config, s: KeyState, c: Clock, p: Packet)
    requires KeyInv(cfg, s, c) && c.now <= p.time && (cfg.window ==> p.window == c.window)
    ensures Proper(s)
    ensures Sharp(cfg, Cuts(EventAt(cfg, s, p))) <==> Sharp(cfg, Cuts(s)) && !TieHits(cfg, s, c.window, p)
  {
    hide Admissible, Sharp, Cuts, Joined, Splits, Ended;
    ExpireKeeps(cfg, s, c, p.time);
    var s1 := ExpireAt(cfg, s, p.time);
    if s1.live.Some? {
      ExtendSharp(cfg, s1, p);
    } else {
      StartSharp(cfg, s1, p);
      if s1.done != [] {
        ClosedOnTheDot(cfg, s1.done[|s1.done| - 1], c.(now := p.time), p);
      }
    }
  }

  lemma {:induction false} StepSharp(cfg: Config, s: KeyState, c: Clock, p: Packet)
    requires KeyInv(cfg, s, c) && Timely(cfg, Event(p), c)
    ensures Proper(s)
    ensures Sharp(cfg, Cuts(StepAt(cfg, s, c.window, Event(p), p.key))) <==>
            Sharp(cfg, Cuts(s)) && !TieHits(cfg, s, c.window, p)
  {
    hide Sharp, Cuts, KeyInv, Joined, ExpireAt;
    InvIsProper(cfg, s, c);
    if cfg.window && p.window != c.window {
      WindowKeeps(cfg, s, c, p);
      var s1 := Windowed(cfg, s, c.window, p);
      ExpireNothing(cfg, s1, p.time);
      ClosedHasPackets(cfg, s1, c.(now := p.time, window := p.window));
      StartSharp(cfg, s1, p);
      if s1.done != [] {
        OtherWindowSplits(cfg, s1.done[|s1.done| - 1].packets, p);
      }
    } else {
      EventSharp(cfg, s, c, p);
    }
  }

  lemma {:induction false} OtherWindowSplits(cfg: Config, ps: seq<Packet>, p: Packet)
    requires cfg.window && ps != [] && ps[|ps| - 1].window != p.window
    ensures Splits(cfg, ps, p)
  {
  }

  lemma {:induction false} ExpireNothing(cfg: Config, s: KeyState, t: nat)
    requires s.live.None?
    ensures ExpireAt(cfg, s, t) == s
  {
  }

  lemma {:induction false} ClosedHasPackets(cfg: Config, s: KeyState, c: Clock)
    requires KeyInv(cfg, s, c) && s.live.None?
    ensures s.done != [] ==> s.done[|s.done| - 1].packets != []
  {
    hide Ended;
  }

  lemma {:induction false} RunSharp(cfg: Config, s: KeyState, c: Clock, ops: seq<Op>, k: Key)
    requires KeyInv(cfg, s, c) && Monotone(cfg, ops, c)
    ensures Proper(s)
    ensures Sharp(cfg, Cuts(KeyRun(cfg, s, c.window, ops, k))) <==>
            Sharp(cfg, Cuts(s)) && NoTieHits(cfg, s, c.window, ops, k)
    decreases |ops|
  {
    hide KeyInv, Cuts, Sharp, TieHits, EventAt, Windowed, ExpireAt;
    InvIsProper(cfg, s, c);
    if ops != [] {
      var op := ops[0];
      StepKeeps(cfg, s, c, op, k);
      match op {
        case Expire(when) => ExpireKeeps(cfg, s, c, when);
        case Event(p) =>
          if p.key == k {
            StepSharp(cfg, s, c, p);
          } else {
            WindowKeeps(cfg, s, c, p);
          }
      }
      RunSharp(cfg, StepAt(cfg, s, c.window, op, k), Tick(cfg, op, c), ops[1..], k);
    }
  }

  /** The exact condition: a run cuts a key's packets as the specification does if and
      only if no packet arrives on the dot while the table is looking. */
  lemma {:induction false} MeetsSpecIff(cfg: Config, ops: seq<Op>, k: Key)
    requires Monotone(cfg, ops, START)
    ensures Cuts(KeyRun(cfg, NO_FLOW, 0, ops, k)) == Segments(cfg, PacketsOf(ops, k))
            <==> NoTieHits(cfg, NO_FLOW, 0, ops, k)
  {
    hide Sharp, Segments, Admissible, NoTieHits, KeyRun, Monotone;
    NothingIsFine(cfg);
    NothingIsSharp(cfg);
    RunSharp(cfg, NO_FLOW, START, ops, k);
    AnyScheduleIsAdmissible(cfg, ops, k);
    AdmissibleIsSpecIff(cfg, Cuts(KeyRun(cfg, NO_FLOW, 0, ops, k)));
  }

  lemma {:induction false} NothingIsSharp(cfg: Config)
    ensures Sharp(cfg, Cuts(NO_FLOW))
  {
  }

  /** ---- the end of the input ---- */

  // Closing the live flow with the input moves no packet.
  lemma {:induction false} EofKeepsCuts(cfg: Config, ops: seq<Op>, k: Key, t: nat)
    requires Monotone(cfg, ops, START)
    ensures var s := KeyRun(cfg, NO_FLOW, 0, ops, k);
            RecordsOf(EofAt(cfg, s, t).done) == Cuts(s) && AllJustified(cfg, EofAt(cfg, s, t).done)
  {
    hide Admissible, ExpireAt, KeyRun, Monotone, Ended;
    var s := KeyRun(cfg, NO_FLOW, 0, ops, k);
    NothingIsFine(cfg);
    RunKeeps(cfg, NO_FLOW, START, ops, k);
    ExpireIsJustified(cfg, s, ClockAfter(cfg, ops, START), t);
    var s1 := ExpireAt(cfg, s, t);
    if s1.live.Some? {
      CloseKeepsCuts(cfg, s1, Record(s1.live.value.packets, ForcedEnd, t, t));
    }
    CutsOfClosed(EofAt(cfg, s, t));
  }

  /** At the end of the input every packet is in exactly one exported record, and every
      record has a justified reason. */
  lemma {:induction false} EofExportsAll(cfg: Config, ops: seq<Op>, k: Key, t: nat)
    requires Monotone(cfg, ops, START)
    ensures var s := EofAt(cfg, KeyRun(cfg, NO_FLOW, 0, ops, k), t);
            && s.live.None? && Flat(RecordsOf(s.done)) == PacketsOf(ops, k)
            && Admissible(cfg, RecordsOf(s.done)) && AllKeepTimeouts(cfg, RecordsOf(s.done))
            && AllJustified(cfg, s.done)
            && (NoTies(cfg, PacketsOf(ops, k)) ==> RecordsOf(s.done) == Segments(cfg, PacketsOf(ops, k)))
  {
    hide Flat, Admissible, AllKeepTimeouts, ExpireAt, NoTies, Segments, KeyRun, Monotone, Ended;
    AnyScheduleIsAdmissible(cfg, ops, k);
    EofKeepsCuts(cfg, ops, k, t);
    if NoTies(cfg, PacketsOf(ops, k)) {
      ScheduleDoesNotMatter(cfg, ops, k);
    }
  }

  /** ---- ties do show ---- */

  function At(t: nat): Packet {
    Packet("k", t, 0, true, false, false, false, false)
  }

  const TIE := [Event(At(0)), Event(At(5)), Event(At(15))]
  const TIE_EXPIRED := [Event(At(0)), Event(At(5)), Expire(11), Event(At(15))]

  lemma {:induction false} RunOne(cfg: Config, s: KeyState, w: nat, op: Op, ops: seq<Op>, k: Key)
    requires Proper(s)
    ensures KeyRun(cfg, s, w, [op] + ops, k) == KeyRun(cfg, StepAt(cfg, s, w, op, k), WindowOf(cfg, w, op), ops, k)
  {
    hide StepAt;
    assert ([op] + ops)[1..] == ops;
  }

  const TIE_CONFIG := Config(10, 0, false, false, false)
  const AFTER_TWO := KeyState(Some(Live([At(0), At(5)], 10)), [])

  // The idle timer moved to 15, expireNext did not.
  lemma {:induction false} AfterTwo(ops: seq<Op>)
    ensures KeyRun(TIE_CONFIG, NO_FLOW, 0, [Event(At(0)), Event(At(5))] + ops, "k")
         == KeyRun(TIE_CONFIG, AFTER_TWO, 0, ops, "k")
  {
    hide KeyRun;
    var s0 := KeyState(Some(Live([At(0)], 10)), []);
    assert [] + [At(0)] == [At(0)] && [At(0)] + [At(5)] == [At(0), At(5)];
    assert StepAt(TIE_CONFIG, NO_FLOW, 0, Event(At(0)), "k") == s0;
    assert StepAt(TIE_CONFIG, s0, 0, Event(At(5)), "k") == AFTER_TWO;
    RunOne(TIE_CONFIG, NO_FLOW, 0, Event(At(0)), [Event(At(5))] + ops, "k");
    RunOne(TIE_CONFIG, s0, 0, Event(At(5)), ops, "k");
    assert [Event(At(0))] + ([Event(At(5))] + ops) == [Event(At(0)), Event(At(5))] + ops;
  }

  lemma {:induction false} TieSplits()
    ensures Cuts(KeyRun(TIE_CONFIG, NO_FLOW, 0, TIE, "k")) == [[At(0), At(5)], [At(15)]]
  {
    AfterTwo([Event(At(15))]);
    assert TIE == [Event(At(0)), Event(At(5))] + [Event(At(15))];
    var r := Record([At(0), At(5)], Idle, 15, 15);
    assert [] + [r] == [r] && [] + [At(15)] == [At(15)];
    RunOne(TIE_CONFIG, AFTER_TWO, 0, Event(At(15)), [], "k");
    assert [Event(At(15))] + [] == [Event(At(15))];
    assert RecordsOf([r]) == [[At(0), At(5)]];
    assert [[At(0), At(5)]] + [[At(15)]] == [[At(0), At(5)], [At(15)]];
  }

  // An Expire call in between moves expireNext to 15 as well.
  const REFRESHED := KeyState(Some(Live([At(0), At(5)], 15)), [])

  lemma {:induction false} Refresh()
    ensures StepAt(TIE_CONFIG, AFTER_TWO, 0, Expire(11), "k") == REFRESHED
    ensures StepAt(TIE_CONFIG, REFRESHED, 0, Event(At(15)), "k") == KeyState(Some(Live([At(0), At(5), At(15)], 15)), [])
  {
    assert [At(0), At(5)] + [At(15)] == [At(0), At(5), At(15)];
  }

  lemma {:induction false} TieJoins()
    ensures Cuts(KeyRun(TIE_CONFIG, NO_FLOW, 0, TIE_EXPIRED, "k")) == [[At(0), At(5), At(15)]]
  {
    hide StepAt;
    AfterTwo([Expire(11), Event(At(15))]);
    Refresh();
    assert TIE_EXPIRED == [Event(At(0)), Event(At(5))] + [Expire(11), Event(At(15))];
    RunOne(TIE_CONFIG, AFTER_TWO, 0, Expire(11), [Event(At(15))], "k");
    assert [Expire(11)] + [Event(At(15))] == [Expire(11), Event(At(15))];
    RunOne(TIE_CONFIG, REFRESHED, 0, Event(At(15)), [], "k");
    assert [Event(At(15))] + [] == [Event(At(15))];
  }

  /** The same packets, one exactly at the timer's expiry: an Expire call in between
      refreshes expireNext, and the packet joins the record it would have split. */
  lemma {:induction false} TiesDependOnTheSchedule()
    ensures Monotone(TIE_CONFIG, TIE, START) && Monotone(TIE_CONFIG, TIE_EXPIRED, START)
    ensures PacketsOf(TIE, "k") == PacketsOf(TIE_EXPIRED, "k") == [At(0), At(5), At(15)]
    ensures Cuts(KeyRun(TIE_CONFIG, NO_FLOW, 0, TIE, "k")) == [[At(0), At(5)], [At(15)]]
    ensures Cuts(KeyRun(TIE_CONFIG, NO_FLOW, 0, TIE_EXPIRED, "k")) == [[At(0), At(5), At(15)]]
  {
    hide KeyRun, Cuts;
    TieSplits();
    TieJoins();
    assert TIE[1..] == [TIE[1], TIE[2]] && TIE[1..][1..] == [TIE[2]] && TIE[1..][1..][1..] == [];
    var rest := TIE_EXPIRED[1..];
    assert rest == [TIE[1], TIE_EXPIRED[2], TIE_EXPIRED[3]];
    assert rest[1..] == [TIE_EXPIRED[2], TIE_EXPIRED[3]];
    assert rest[1..][1..] == [TIE_EXPIRED[3]] && rest[1..][1..][1..] == [];
  }
}
