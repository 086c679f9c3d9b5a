/** Splitting the packets of an input over several flow tables by a hash of their key:
    what one key sees of it. */
module Distribution {
  import opened ExportOrder
  import opened FlowSegments
  import opened LazyTimers
  import opened TcpEnd
  import opened Wrappers

  // What the decoder hands over: packets and the time of the batch.
  datatype Raw = Raw(packets: seq<Packet>, when: nat)

  // What a table's worker gets: packets, and whether to expire afterwards.
  datatype Batch = Batch(packets: seq<Packet>, expire: bool, when: nat)

  /** ---- what a worker does with its batches ---- */

  function Events(ps: seq<Packet>): seq<Op> {
    if ps == [] then [] else [Event(ps[0])] + Events(ps[1..])
  }

  function OpsOf(b: Batch): seq<Op> {
    Events(b.packets) + if b.expire then [Expire(b.when)] else []
  }

  function Ops(bs: seq<Batch>): seq<Op> {
    if bs == [] then [] else OpsOf(bs[0]) + Ops(bs[1..])
  }

  lemma {:induction false} EventsAppend(ps: seq<Packet>, p: Packet)
    ensures Events(ps + [p]) == Events(ps) + [Event(p)]
  {
    if ps == [] {
      assert ps + [p] == [p];
    } else {
      assert (ps + [p])[1..] == ps[1..] + [p];
      EventsAppend(ps[1..], p);
    }
  }

  lemma {:induction false} OpsAppend(bs: seq<Batch>, b: Batch)
    ensures Ops(bs + [b]) == Ops(bs) + OpsOf(b)
  {
    hide OpsOf;
    if bs == [] {
      assert bs + [b] == [b] && Ops([b]) == OpsOf(b) + Ops([]);
    } else {
      assert (bs + [b])[1..] == bs[1..] + [b];
      OpsAppend(bs[1..], b);
    }
  }

  /** ---- runs in parts ---- */

  lemma {:induction false} RunAppend(cfg: Config, s: KeyState, w: nat, a: seq<Op>, b: seq<Op>, k: Key)
    requires Proper(s)
    ensures KeyRun(cfg, s, w, a + b, k) == KeyRun(cfg, KeyRun(cfg, s, w, a, k), WindowAfter(cfg, w, a), b, k)
    decreases |a|
  {
    hide StepAt;
    if a == [] {
      assert a + b == b;
    } else {
      assert (a + b)[1..] == a[1..] + b;
      RunAppend(cfg, StepAt(cfg, s, w, a[0], k), WindowOf(cfg, w, a[0]), a[1..], b, k);
    }
  }

  lemma {:induction false} WindowAppend(cfg: Config, w: nat, a: seq<Op>, b: seq<Op>)
    ensures WindowAfter(cfg, w, a + b) == WindowAfter(cfg, WindowAfter(cfg, w, a), b)
    decreases |a|
  {
    if a == [] {
      assert a + b == b;
    } else {
      assert (a + b)[1..] == a[1..] + b;
      WindowAppend(cfg, WindowOf(cfg, w, a[0]), a[1..], b);
    }
  }

  lemma {:induction false} RunStep(cfg: Config, s: KeyState, w: nat, ops: seq<Op>, op: Op, k: Key)
    requires Proper(s)
    ensures KeyRun(cfg, s, w, ops + [op], k)
         == StepAt(cfg, KeyRun(cfg, s, w, ops, k), WindowAfter(cfg, w, ops), op, k)
  {
    hide StepAt;
    RunAppend(cfg, s, w, ops, [op], k);
    RunOne(cfg, KeyRun(cfg, s, w, ops, k), WindowAfter(cfg, w, ops), op, [], k);
    assert [op] + [] == [op];
  }

  lemma {:induction false} WindowStep(cfg: Config, w: nat, ops: seq<Op>, op: Op)
    ensures WindowAfter(cfg, w, ops + [op]) == WindowOf(cfg, WindowAfter(cfg, w, ops), op)
  {
    WindowAppend(cfg, w, ops, [op]);
    assert [op][1..] == [];
  }

  lemma {:induction false} RunNothing(cfg: Config, s: KeyState, w: nat, k: Key)
    requires Proper(s)
    ensures KeyRun(cfg, s, w, Events([]), k) == s && KeyRun(cfg, s, w, Ops([]), k) == s
    ensures WindowAfter(cfg, w, Events([])) == w && WindowAfter(cfg, w, Ops([])) == w
  {
  }

  // A batch: its packets, and then the timers.
  lemma {:induction false} RunBatch(cfg: Config, s: KeyState, w: nat, b: Batch, k: Key)
    requires Proper(s)
    ensures KeyRun(cfg, s, w, OpsOf(b), k)
         == var s1 := KeyRun(cfg, s, w, Events(b.packets), k); if b.expire then ExpireAt(cfg, s1, b.when) else s1
    ensures WindowAfter(cfg, w, OpsOf(b)) == WindowAfter(cfg, w, Events(b.packets))
  {
    hide ExpireAt, Events, KeyRun, WindowAfter;
    if b.expire {
      RunStep(cfg, s, w, Events(b.packets), Expire(b.when), k);
      WindowStep(cfg, w, Events(b.packets), Expire(b.when));
    } else {
      assert OpsOf(b) == Events(b.packets);
    }
  }

  /** ---- distributing by hash ---- */

  // The table a key belongs to.
  function Home(hash: Key -> nat, n: nat, k: Key): nat
    requires n > 0
  {
    hash(k) % n
  }

  function Route(hash: Key -> nat, n: nat, ps: seq<Packet>, i: nat): (r: seq<Packet>)
    requires n > 0
    ensures |r| <= |ps|
  {
    if ps == [] then []
    else
      var last := ps[|ps| - 1];
      Route(hash, n, ps[..|ps| - 1], i) + if Home(hash, n, last.key) == i then [last] else []
  }

  lemma {:induction false} RouteAppend(hash: Key -> nat, n: nat, ps: seq<Packet>, more: seq<Packet>)
    requires n > 0 && |more| <= 1
    ensures forall i :: more == [] ==> Route(hash, n, more, i) == []
    ensures forall i :: more != [] ==>
              Route(hash, n, ps + more, i)
              == if Home(hash, n, more[0].key) == i then Route(hash, n, ps, i) + more else Route(hash, n, ps, i)
  {
    if more != [] {
      assert (ps + more)[..|ps|] == ps && more == [more[0]];
      assert forall i :: Route(hash, n, ps, i) + [] == Route(hash, n, ps, i);
    }
  }

  /** A table gets exactly the packets whose keys hash to it, each as often as it comes. */
  lemma {:induction false} RouteSelects(hash: Key -> nat, n: nat, ps: seq<Packet>, i: nat, p: Packet)
    requires n > 0
    ensures multiset(Route(hash, n, ps, i))[p] == if hash(p.key) % n == i then multiset(ps)[p] else 0
  {
    if ps != [] {
      var before, last := ps[..|ps| - 1], ps[|ps| - 1];
      RouteSelects(hash, n, before, i, p);
      assert ps == before + [last];
    }
  }

  function RouteAll(hash: Key -> nat, n: nat, bs: seq<Batch>, i: nat): seq<Batch>
    requires n > 0
  {
    if bs == [] then []
    else [Batch(Route(hash, n, bs[0].packets, i), bs[0].expire, bs[0].when)] + RouteAll(hash, n, bs[1..], i)
  }

  lemma {:induction false} RouteAllAppend(hash: Key -> nat, n: nat, a: seq<Batch>, b: seq<Batch>, i: nat)
    requires n > 0
    ensures RouteAll(hash, n, a + b, i) == RouteAll(hash, n, a, i) + RouteAll(hash, n, b, i)
  {
    hide Route;
    if a == [] {
      assert a + b == b;
    } else {
      assert (a + b)[1..] == a[1..] + b;
      RouteAllAppend(hash, n, a[1..], b, i);
    }
  }

  /** ---- what one table gets ---- */

  // Table i takes part in this operation: expiries go to all tables.
  predicate Takes(hash: Key -> nat, n: nat, op: Op, i: nat)
    requires n > 0
  {
    op.Event? ==> Home(hash, n, op.p.key) == i
  }

  // The operations of table i.
  function Mine(hash: Key -> nat, n: nat, ops: seq<Op>, i: nat): seq<Op>
    requires n > 0
  {
    if ops == [] then []
    else (if Takes(hash, n, ops[0], i) then [ops[0]] else []) + Mine(hash, n, ops[1..], i)
  }

  lemma {:induction false} MineAppend(hash: Key -> nat, n: nat, a: seq<Op>, b: seq<Op>, i: nat)
    requires n > 0
    ensures Mine(hash, n, a + b, i) == Mine(hash, n, a, i) + Mine(hash, n, b, i)
  {
    hide Takes;
    if a == [] {
      assert a + b == b;
    } else {
      assert (a + b)[1..] == a[1..] + b;
      MineAppend(hash, n, a[1..], b, i);
      var own, m1, m2 := if Takes(hash, n, a[0], i) then [a[0]] else [], Mine(hash, n, a[1..], i), Mine(hash, n, b, i);
      assert (own + m1) + m2 == own + (m1 + m2);
    }
  }

  lemma {:induction false} MineOne(hash: Key -> nat, n: nat, op: Op, i: nat)
    requires n > 0
    ensures Mine(hash, n, [op], i) == if Takes(hash, n, op, i) then [op] else []
  {
    hide Takes;
    assert Mine(hash, n, [op][1..], i) == [];
  }

  lemma {:induction false} RouteEvents(hash: Key -> nat, n: nat, ps: seq<Packet>, i: nat)
    requires n > 0
    ensures Events(Route(hash, n, ps, i)) == Mine(hash, n, Events(ps), i)
  {
    if ps != [] {
      hide Mine, Events;
      var before, p := ps[..|ps| - 1], ps[|ps| - 1];
      assert ps == before + [p];
      RouteEvents(hash, n, before, i);
      EventsAppend(before, p);
      MineAppend(hash, n, Events(before), [Event(p)], i);
      MineOne(hash, n, Event(p), i);
      if Home(hash, n, p.key) == i {
        EventsAppend(Route(hash, n, before, i), p);
      } else {
        assert Route(hash, n, before, i) + [] == Route(hash, n, before, i);
        assert Mine(hash, n, Events(before), i) + [] == Mine(hash, n, Events(before), i);
      }
    }
  }

  /** The batches of table i hold exactly its operations, in order. */
  lemma {:induction false} RouteOps(hash: Key -> nat, n: nat, bs: seq<Batch>, i: nat)
    requires n > 0
    ensures Ops(RouteAll(hash, n, bs, i)) == Mine(hash, n, Ops(bs), i)
  {
    if bs != [] {
      hide Mine, Events, Route;
      var b, rest := bs[0], bs[1..];
      RouteOps(hash, n, rest, i);
      RouteEvents(hash, n, b.packets, i);
      var last := if b.expire then [Expire(b.when)] else [];
      MineAppend(hash, n, Events(b.packets), last, i);
      MineOne(hash, n, Expire(b.when), i);
      NothingIsMine(hash, n, i);
      MineAppend(hash, n, OpsOf(b), Ops(rest), i);
      assert RouteAll(hash, n, bs, i)[1..] == RouteAll(hash, n, rest, i);
    }
  }

  lemma {:induction false} NothingIsMine(hash: Key -> nat, n: nat, i: nat)
    requires n > 0
    ensures Mine(hash, n, [], i) == []
  {
  }

  // A key's own table gets all its packets.
  lemma {:induction false} MinePackets(hash: Key -> nat, n: nat, ops: seq<Op>, k: Key)
    requires n > 0
    ensures PacketsOf(Mine(hash, n, ops, Home(hash, n, k)), k) == PacketsOf(ops, k)
  {
    if ops != [] {
      var i := Home(hash, n, k);
      MinePackets(hash, n, ops[1..], k);
      var rest := Mine(hash, n, ops[1..], i);
      assert Mine(hash, n, ops, i) == (if Takes(hash, n, ops[0], i) then [ops[0]] else []) + rest;
      if Takes(hash, n, ops[0], i) {
        assert Mine(hash, n, ops, i)[1..] == rest;
      } else {
        assert [] + rest == rest && [] + PacketsOf(rest, k) == PacketsOf(rest, k);
      }
    }
  }

  /** ---- one table or many ---- */

  // Where table d is in time, seen from one table that gets everything.
  predicate Behind(cfg: Config, d: Clock, c: Clock) {
    d.now <= c.now && d.used <= c.used && (cfg.window && c.window in d.used ==> d.window == c.window)
  }

  // The same packets in the same records; the live flow is the same, but that it may
  // wait for its table to notice the new window.
  ghost predicate Agree(cfg: Config, s: KeyState, h: KeyState, c: Clock) {
    && Cuts(s) == Cuts(h)
    && (s.live == h.live
        || (cfg.window && s.live.None? && h.live.Some? && h.live.value.packets != []
            && h.live.value.packets[|h.live.value.packets| - 1].window != c.window))
  }

  lemma {:induction false} ExpireAgrees(cfg: Config, s: KeyState, h: KeyState, c: Clock, d: Clock, t: nat)
    requires KeyInv(cfg, s, c) && KeyInv(cfg, h, d) && Behind(cfg, d, c) && c.now <= t && Agree(cfg, s, h, c)
    ensures Proper(s) && Proper(h) && Agree(cfg, ExpireAt(cfg, s, t), ExpireAt(cfg, h, t), c)
  {
    hide Admissible, AllJustified, WasClosed, LiveInv, Cuts;
    ExpireKeeps(cfg, s, c, t);
    ExpireKeeps(cfg, h, d, t);
  }

  // Another table's packet: only the one that gets everything may see a new window.
  lemma {:induction false} OthersAgree(cfg: Config, s: KeyState, h: KeyState, c: Clock, d: Clock, p: Packet)
    requires KeyInv(cfg, s, c) && KeyInv(cfg, h, d) && Behind(cfg, d, c) && Timely(cfg, Event(p), c)
    requires Agree(cfg, s, h, c)
    ensures Proper(s) && Agree(cfg, Windowed(cfg, s, c.window, p), h, Tick(cfg, Event(p), c))
  {
    hide Admissible, AllJustified, WasClosed, Cuts, Ended;
    WindowKeeps(cfg, s, c, p);
  }

  // A packet of this table: after it, both are in its window.
  lemma {:induction false} WindowAgrees(cfg: Config, s: KeyState, h: KeyState, c: Clock, d: Clock, p: Packet)
    requires KeyInv(cfg, s, c) && KeyInv(cfg, h, d) && Behind(cfg, d, c) && Timely(cfg, Event(p), c)
    requires Agree(cfg, s, h, c)
    ensures Timely(cfg, Event(p), d) && Proper(s) && Proper(h)
    ensures var s1, h1 := Windowed(cfg, s, c.window, p), Windowed(cfg, h, d.window, p);
            Cuts(s1) == Cuts(h1) && s1.live == h1.live
  {
    hide Admissible, AllJustified, WasClosed, Cuts, Ended;
    WindowKeeps(cfg, s, c, p);
    WindowKeeps(cfg, h, d, p);
  }

  lemma {:induction false} JoinedCuts(cfg: Config, s: KeyState, p: Packet)
    ensures s.live.None? ==> Cuts(Joined(cfg, s, p)) == Cuts(s) + [[p]]
    ensures s.live.Some? ==> Cuts(Joined(cfg, s, p)) == RecordsOf(s.done) + [s.live.value.packets + [p]]
  {
    hide Ended;
    if s.live.None? {
      StartsRecord(cfg, s, p);
    } else {
      RecordsOfAppend(s.done, Record(s.live.value.packets + [p], End, p.time, p.time));
    }
  }

  // A packet of the key itself.
  lemma {:induction false} EventAgrees(cfg: Config, s: KeyState, h: KeyState, c: Clock, d: Clock, p: Packet)
    requires KeyInv(cfg, s, c) && KeyInv(cfg, h, d) && c.now <= p.time && d.now <= p.time
    requires Cuts(s) == Cuts(h) && s.live == h.live
    ensures Proper(s) && Proper(h)
    ensures Cuts(EventAt(cfg, s, p)) == Cuts(EventAt(cfg, h, p)) && EventAt(cfg, s, p).live == EventAt(cfg, h, p).live
  {
    hide Admissible, AllJustified, WasClosed, LiveInv, Ended, Cuts;
    ExpireKeeps(cfg, s, c, p.time);
    ExpireKeeps(cfg, h, d, p.time);
    var s1, h1 := ExpireAt(cfg, s, p.time), ExpireAt(cfg, h, p.time);
    JoinedCuts(cfg, s1, p);
    JoinedCuts(cfg, h1, p);
    if s1.live.Some? {
      OpenIsLast(s1);
      OpenIsLast(h1);
    }
  }

  lemma {:induction false} OpenIsLast(s: KeyState)
    requires s.live.Some?
    ensures Cuts(s) != [] && RecordsOf(s.done) == Cuts(s)[..|Cuts(s)| - 1]
  {
  }

  // One operation, seen by the table that gets everything and by the key's own.
  lemma {:induction false} StepAgrees(cfg: Config, s: KeyState, h: KeyState, c: Clock, d: Clock, op: Op, mine: bool,
                                      k: Key)
    requires KeyInv(cfg, s, c) && KeyInv(cfg, h, d) && Behind(cfg, d, c) && Timely(cfg, op, c) && Agree(cfg, s, h, c)
    requires op.Event? && !mine ==> op.p.key != k
    requires op.Expire? ==> mine
    ensures Proper(s) && Proper(h)
    ensures !mine ==>
              Behind(cfg, d, Tick(cfg, op, c)) && Agree(cfg, StepAt(cfg, s, c.window, op, k), h, Tick(cfg, op, c))
    ensures mine ==> Timely(cfg, op, d) && Behind(cfg, Tick(cfg, op, d), Tick(cfg, op, c))
                     && Agree(cfg, StepAt(cfg, s, c.window, op, k), StepAt(cfg, h, d.window, op, k), Tick(cfg, op, c))
  {
    hide KeyInv, ExpireAt, Windowed, Cuts, EventAt;
    InvIsProper(cfg, s, c);
    InvIsProper(cfg, h, d);
    match op {
      case Expire(when) =>
        ExpireAgrees(cfg, s, h, c, d, when);
      case Event(p) =>
        if mine {
          WindowAgrees(cfg, s, h, c, d, p);
          if p.key == k {
            WindowKeeps(cfg, s, c, p);
            WindowKeeps(cfg, h, d, p);
            EventAgrees(cfg, Windowed(cfg, s, c.window, p), Windowed(cfg, h, d.window, p),
                        c.(now := p.time, window := WindowOf(cfg, c.window, op)),
                        d.(now := p.time, window := WindowOf(cfg, d.window, op)), p);
          }
        } else {
          OthersAgree(cfg, s, h, c, d, p);
        }
    }
  }

  // The whole input.
  lemma {:induction false} RunAgrees(cfg: Config, s: KeyState, h: KeyState, c: Clock, d: Clock,
                                     hash: Key -> nat, n: nat, ops: seq<Op>, k: Key)
    requires n > 0 && KeyInv(cfg, s, c) && KeyInv(cfg, h, d) && Behind(cfg, d, c)
    requires Monotone(cfg, ops, c) && Agree(cfg, s, h, c)
    ensures var mine := Mine(hash, n, ops, Home(hash, n, k));
            && Proper(s) && Proper(h) && Monotone(cfg, mine, d)
            && ClockAfter(cfg, mine, d).now <= ClockAfter(cfg, ops, c).now
            && Cuts(KeyRun(cfg, s, c.window, ops, k)) == Cuts(KeyRun(cfg, h, d.window, mine, k))
    decreases |ops|
  {
    hide KeyInv, StepAt, Cuts, Timely;
    InvIsProper(cfg, s, c);
    InvIsProper(cfg, h, d);
    if ops != [] {
      var i, op := Home(hash, n, k), ops[0];
      var rest := Mine(hash, n, ops[1..], i);
      StepAgrees(cfg, s, h, c, d, op, Takes(hash, n, op, i), k);
      StepKeeps(cfg, s, c, op, k);
      if Takes(hash, n, op, i) {
        StepKeeps(cfg, h, d, op, k);
        assert ([op] + rest)[1..] == rest;
        RunAgrees(cfg, StepAt(cfg, s, c.window, op, k), StepAt(cfg, h, d.window, op, k),
                  Tick(cfg, op, c), Tick(cfg, op, d), hash, n, ops[1..], k);
      } else {
        assert [] + rest == rest;
        RunAgrees(cfg, StepAt(cfg, s, c.window, op, k), h, Tick(cfg, op, c), d, hash, n, ops[1..], k);
      }
    }
  }

  /** A key's own table cuts its packets exactly where one table for all keys would, ties
      or not, even where it notices the end of a window later. */
  lemma {:induction false} TablesCutLikeOne(cfg: Config, hash: Key -> nat, n: nat, ops: seq<Op>, k: Key)
    requires n > 0 && Monotone(cfg, ops, START)
    ensures var mine := Mine(hash, n, ops, Home(hash, n, k));
            && Monotone(cfg, mine, START) && ClockAfter(cfg, mine, START).now <= ClockAfter(cfg, ops, START).now
            && Cuts(KeyRun(cfg, NO_FLOW, 0, mine, k)) == Cuts(KeyRun(cfg, NO_FLOW, 0, ops, k))
  {
    hide KeyInv, KeyRun, Cuts, Monotone;
    NothingIsFine(cfg);
    RunAgrees(cfg, NO_FLOW, NO_FLOW, START, START, hash, n, ops, k);
  }

  /** Without windows it is the same run, reasons and times included. */
  lemma {:induction false} MineRun(cfg: Config, s: KeyState, w: nat, hash: Key -> nat, n: nat, ops: seq<Op>, k: Key)
    requires n > 0 && Proper(s) && !cfg.window
    ensures KeyRun(cfg, s, w, Mine(hash, n, ops, Home(hash, n, k)), k) == KeyRun(cfg, s, w, ops, k)
    decreases |ops|
  {
    hide EventAt, ExpireAt;
    if ops != [] {
      var i, op := Home(hash, n, k), ops[0];
      var rest := Mine(hash, n, ops[1..], i);
      MineRun(cfg, StepAt(cfg, s, w, op, k), w, hash, n, ops[1..], k);
      if Takes(hash, n, op, i) {
        assert ([op] + rest)[1..] == rest;
      } else {
        assert [] + rest == rest;
      }
    }
  }

  /** The other tables have nothing of the key. */
  lemma {:induction false} OtherTables(cfg: Config, w: nat, hash: Key -> nat, n: nat, ops: seq<Op>, i: nat, k: Key)
    requires n > 0 && i != Home(hash, n, k)
    ensures KeyRun(cfg, NO_FLOW, w, Mine(hash, n, ops, i), k) == NO_FLOW
    decreases |ops|
  {
    if ops != [] {
      var op := ops[0];
      var rest := Mine(hash, n, ops[1..], i);
      if Takes(hash, n, op, i) {
        OtherTables(cfg, WindowOf(cfg, w, op), hash, n, ops[1..], i, k);
        assert ([op] + rest)[1..] == rest;
        assert StepAt(cfg, NO_FLOW, w, op, k) == NO_FLOW;
      } else {
        OtherTables(cfg, w, hash, n, ops[1..], i, k);
        assert [] + rest == rest;
      }
    }
  }

  /** ---- windows show in the reasons ---- */

  const WINDOWS := Config(0, 0, true, false, false)

  function In(k: Key, window: nat): Packet {
    Packet(k, window, window, true, false, false, false, false)
  }

  /** The packet of another key opens a new window: one table ends this key's record with
      it, while the key's own table does not see it and ends the record with the input. */
  lemma {:induction false} WindowsShowInReasons(now: nat)
    ensures EofAt(WINDOWS, KeyRun(WINDOWS, NO_FLOW, 0, [Event(In("a", 1)), Event(In("b", 2))], "a"), now).done
         == [Record([In("a", 1)], End, 2, 2)]
    ensures EofAt(WINDOWS, KeyRun(WINDOWS, NO_FLOW, 0, [Event(In("a", 1))], "a"), now).done
         == [Record([In("a", 1)], ForcedEnd, now, now)]
  {
    var a, b := In("a", 1), In("b", 2);
    var s := KeyState(Some(Live([a], 0)), []);
    assert [] + [a] == [a];
    assert StepAt(WINDOWS, NO_FLOW, 0, Event(a), "a") == s;
    RunOne(WINDOWS, NO_FLOW, 0, Event(a), [Event(b)], "a");
    RunOne(WINDOWS, NO_FLOW, 0, Event(a), [], "a");
    RunOne(WINDOWS, s, 1, Event(b), [], "a");
    assert [Event(a)] + [] == [Event(a)] && [Event(b)] + [] == [Event(b)];
    assert [Event(a)] + [Event(b)] == [Event(a), Event(b)];
  }
}
