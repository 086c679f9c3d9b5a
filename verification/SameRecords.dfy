/** When a key's own table exports the very records one table for all keys would, end
    reasons and times included: an exact condition on the input. */
module SameRecords {
  import opened Distribution
  import opened FlowSegments
  import opened LazyTimers
  import opened TcpEnd
  import opened Wrappers

  /** ---- the condition ---- */

  // A timer of this flow fires when the table looks at it now.
  predicate Fires(cfg: Config, l: Live, t: nat)
    requires l.packets != []
  {
    ExpireAt(cfg, KeyState(Some(l), []), t).live.None?
  }

  /** The key's own table closes this flow at time t as well: still at this time it gets a
      packet, or it looks at its timers and one fires, be it at the end of the input. */
  predicate InTime(cfg: Config, l: Live, t: nat, hash: Key -> nat, n: nat, ops: seq<Op>, i: nat, now: nat)
    requires n > 0 && l.packets != []
    decreases |ops|
  {
    if ops == [] then now == t && Fires(cfg, l, t)
    else
      || (Time(ops[0]) == t && Takes(hash, n, ops[0], i) && (ops[0].Event? || Fires(cfg, l, t)))
      || InTime(cfg, l, t, hash, n, ops[1..], i, now)
  }

  // A packet of another table opens a window while the key has a live flow.
  predicate CutByOther(cfg: Config, s: KeyState, w: nat, hash: Key -> nat, n: nat, op: Op, k: Key)
    requires n > 0
  {
    cfg.window && op.Event? && op.p.window != w && !Takes(hash, n, op, Home(hash, n, k)) && s.live.Some?
  }

  /** Whenever that happens, the key's own table is in time. */
  ghost predicate AllInTime(cfg: Config, s: KeyState, w: nat, hash: Key -> nat, n: nat, ops: seq<Op>, k: Key, now: nat)
    requires n > 0 && Proper(s)
    decreases |ops|
  {
    ops == []
    || ((CutByOther(cfg, s, w, hash, n, ops[0], k) ==>
           InTime(cfg, s.live.value, Time(ops[0]), hash, n, ops[1..], Home(hash, n, k), now))
        && AllInTime(cfg, StepAt(cfg, s, w, ops[0], k), WindowOf(cfg, w, ops[0]), hash, n, ops[1..], k, now))
  }

  /** ---- exported records stay ---- */

  lemma {:induction false} StepExports(cfg: Config, s: KeyState, w: nat, op: Op, k: Key)
    requires Proper(s)
    ensures var r := StepAt(cfg, s, w, op, k);
            && s.done <= r.done
            && (s.live.Some? && r.live.None? ==> |r.done| > |s.done|)
            && (s.live.Some? && |r.done| > |s.done| ==> r.done[|s.done|].exportTime == Time(op))
            && (s.live.Some? && |r.done| == |s.done| ==> r.live.Some?)
  {
    hide Ended;
  }

  lemma {:induction false} EofExports(cfg: Config, s: KeyState, now: nat)
    requires Proper(s)
    ensures var r := EofAt(cfg, s, now);
            && s.done <= r.done && (s.live.None? ==> r == s)
            && (s.live.Some? ==> |r.done| > |s.done| && r.done[|s.done|].exportTime == now)
  {
  }

  lemma {:induction false} DoneGrows(cfg: Config, s: KeyState, w: nat, ops: seq<Op>, k: Key, now: nat)
    requires Proper(s)
    ensures s.done <= EofAt(cfg, KeyRun(cfg, s, w, ops, k), now).done
    decreases |ops|
  {
    hide StepAt, CloseAt;
    if ops == [] {
      EofExports(cfg, s, now);
    } else {
      StepExports(cfg, s, w, ops[0], k);
      DoneGrows(cfg, StepAt(cfg, s, w, ops[0], k), WindowOf(cfg, w, ops[0]), ops[1..], k, now);
    }
  }

  // A flow that is closed later gets a later export time.
  lemma {:induction false} ClosedLater(cfg: Config, s: KeyState, w: nat, ops: seq<Op>, k: Key, now: nat, t: nat)
    requires Proper(s) && s.live.Some? && now > t && forall op | op in ops :: Time(op) > t
    ensures var done := EofAt(cfg, KeyRun(cfg, s, w, ops, k), now).done;
            |done| > |s.done| && done[|s.done|].exportTime > t
    decreases |ops|
  {
    hide StepAt, CloseAt;
    if ops == [] {
      EofExports(cfg, s, now);
    } else {
      var s1, w1 := StepAt(cfg, s, w, ops[0], k), WindowOf(cfg, w, ops[0]);
      StepExports(cfg, s, w, ops[0], k);
      assert ops[0] in ops;
      if |s1.done| == |s.done| {
        ClosedLater(cfg, s1, w1, ops[1..], k, now, t);
      } else {
        DoneGrows(cfg, s1, w1, ops[1..], k, now);
      }
    }
  }

  /** ---- times ---- */

  lemma {:induction false} TimesRise(cfg: Config, ops: seq<Op>, c: Clock)
    requires Monotone(cfg, ops, c)
    ensures c.now <= ClockAfter(cfg, ops, c).now && forall op | op in ops :: c.now <= Time(op)
    decreases |ops|
  {
    if ops != [] {
      TimesRise(cfg, ops[1..], Tick(cfg, ops[0], c));
      assert forall op | op in ops :: op == ops[0] || op in ops[1..];
    }
  }

  lemma {:induction false} MineIsIn(hash: Key -> nat, n: nat, ops: seq<Op>, i: nat)
    requires n > 0
    ensures forall op | op in Mine(hash, n, ops, i) :: op in ops
  {
    if ops != [] {
      MineIsIn(hash, n, ops[1..], i);
    }
  }

  lemma {:induction false} LaterIsLate(cfg: Config, l: Live, t: nat, hash: Key -> nat, n: nat, ops: seq<Op>, i: nat,
                                       now: nat)
    requires n > 0 && l.packets != [] && now > t && forall op | op in ops :: Time(op) > t
    ensures !InTime(cfg, l, t, hash, n, ops, i, now)
    decreases |ops|
  {
    hide Takes, Fires;
    if ops != [] {
      assert ops[0] in ops;
      LaterIsLate(cfg, l, t, hash, n, ops[1..], i, now);
    }
  }

  /** ---- both runs, side by side ---- */

  // The table that gets everything is at s, the key's own one at h; both end alike.
  ghost predicate Same(cfg: Config, s: KeyState, w: nat, h: KeyState, v: nat, hash: Key -> nat, n: nat, ops: seq<Op>,
                       k: Key, now: nat)
    requires n > 0 && Proper(s) && Proper(h)
  {
    EofAt(cfg, KeyRun(cfg, h, v, Mine(hash, n, ops, Home(hash, n, k)), k), now).done
    == EofAt(cfg, KeyRun(cfg, s, w, ops, k), now).done
  }

  lemma {:induction false} SameUnfolds(cfg: Config, s: KeyState, w: nat, h: KeyState, v: nat, hash: Key -> nat, n: nat,
                                       ops: seq<Op>, k: Key, now: nat)
    requires n > 0 && Proper(s) && Proper(h) && ops != []
    ensures var op, rest := ops[0], ops[1..];
            var s1, w1 := StepAt(cfg, s, w, op, k), WindowOf(cfg, w, op);
            Same(cfg, s, w, h, v, hash, n, ops, k, now) <==>
            if Takes(hash, n, op, Home(hash, n, k))
            then Same(cfg, s1, w1, StepAt(cfg, h, v, op, k), WindowOf(cfg, v, op), hash, n, rest, k, now)
            else Same(cfg, s1, w1, h, v, hash, n, rest, k, now)
  {
    hide StepAt, CloseAt, Takes;
    var op, rest := ops[0], Mine(hash, n, ops[1..], Home(hash, n, k));
    if Takes(hash, n, op, Home(hash, n, k)) {
      assert ([op] + rest)[1..] == rest;
    } else {
      assert [] + rest == rest;
    }
  }

  // Both tables have seen the same of the key so far.
  ghost predicate Aligned(cfg: Config, s: KeyState, h: KeyState, c: Clock, d: Clock) {
    KeyInv(cfg, s, c) && KeyInv(cfg, h, d) && Behind(cfg, d, c) && Agree(cfg, s, h, c)
  }

  lemma {:induction false} AlignedStep(cfg: Config, s: KeyState, h: KeyState, c: Clock, d: Clock, op: Op, mine: bool,
                                       k: Key)
    requires Aligned(cfg, s, h, c, d) && Timely(cfg, op, c)
    requires op.Event? && !mine ==> op.p.key != k
    requires op.Expire? ==> mine
    ensures Proper(s) && Proper(h)
    ensures !mine ==> Aligned(cfg, StepAt(cfg, s, c.window, op, k), h, Tick(cfg, op, c), d)
    ensures mine ==>
              Aligned(cfg, StepAt(cfg, s, c.window, op, k), StepAt(cfg, h, d.window, op, k), Tick(cfg, op, c),
                      Tick(cfg, op, d))
  {
    hide KeyInv, StepAt, Behind, Agree, Timely;
    StepAgrees(cfg, s, h, c, d, op, mine, k);
    StepKeeps(cfg, s, c, op, k);
    if mine {
      StepKeeps(cfg, h, d, op, k);
    }
  }

  // With the same flow in both tables, an operation of the own one does the same in both.
  lemma {:induction false} OwnStepIsSame(cfg: Config, s: KeyState, c: Clock, d: Clock, op: Op, k: Key)
    requires Aligned(cfg, s, s, c, d)
    ensures Proper(s) && StepAt(cfg, s, c.window, op, k) == StepAt(cfg, s, d.window, op, k)
  {
    hide Admissible, AllJustified, WasClosed, Cuts, Ended;
  }

  // Nothing of the key is live: another table's packet does nothing.
  lemma {:induction false} ForeignStep(cfg: Config, s: KeyState, w: nat, hash: Key -> nat, n: nat, op: Op, k: Key)
    requires n > 0 && Proper(s) && !Takes(hash, n, op, Home(hash, n, k))
    ensures !CutByOther(cfg, s, w, hash, n, op, k) ==> StepAt(cfg, s, w, op, k) == s
    ensures CutByOther(cfg, s, w, hash, n, op, k) ==>
              StepAt(cfg, s, w, op, k) == KeyState(None, s.done + [ClosingRecord(cfg, s.live.value, Time(op), End)])
  {
    if CutByOther(cfg, s, w, hash, n, op, k) {
      CloseAtIs(cfg, s, op.p.time, End);
    }
  }

  // What the own table's operation does at the time the other one closed the flow.
  lemma {:induction false} PendingStep(cfg: Config, s: KeyState, h: KeyState, c: Clock, d: Clock, op: Op, k: Key)
    requires Aligned(cfg, s, h, c, d) && Timely(cfg, op, c) && s.live.None? && h.live.Some?
    requires h.live.value.packets != [] && Time(op) == c.now
    requires s.done == h.done + [ClosingRecord(cfg, h.live.value, c.now, End)]
    ensures Proper(s) && Proper(h)
    ensures op.Event? || Fires(cfg, h.live.value, c.now) ==>
              StepAt(cfg, h, d.window, op, k) == StepAt(cfg, s, c.window, op, k)
    ensures op.Expire? ==> StepAt(cfg, s, c.window, op, k) == s
    ensures op.Expire? && !Fires(cfg, h.live.value, c.now) ==>
              var h1 := StepAt(cfg, h, d.window, op, k);
              && h1.live.Some? && h1.live.value.packets == h.live.value.packets && h1.done == h.done
              && !Fires(cfg, h1.live.value, c.now)
              && ClosingRecord(cfg, h1.live.value, c.now, End) == ClosingRecord(cfg, h.live.value, c.now, End)
  {
    hide Admissible, AllJustified, WasClosed, Cuts, Ended, EventAt;
    CloseAtIs(cfg, h, c.now, End);
  }

  // The end of the input at the time the other table closed the flow.
  lemma {:induction false} PendingEof(cfg: Config, h: KeyState, t: nat, now: nat)
    requires h.live.Some? && h.live.value.packets != [] && t <= now
    ensures EofAt(cfg, h, now).done == h.done + [ClosingRecord(cfg, h.live.value, t, End)]
            <==> now == t && Fires(cfg, h.live.value, t)
  {
    CloseAtIs(cfg, h, now, ForcedEnd);
    var r, f := ClosingRecord(cfg, h.live.value, t, End), ClosingRecord(cfg, h.live.value, now, ForcedEnd);
    assert (h.done + [f])[|h.done|] == f && (h.done + [r])[|h.done|] == r;
  }

  // Both tables are at the same state ...
  lemma {:induction false} FromSame(cfg: Config, s: KeyState, c: Clock, d: Clock, hash: Key -> nat, n: nat,
                                    ops: seq<Op>, k: Key, now: nat)
    requires n > 0 && Aligned(cfg, s, s, c, d) && Monotone(cfg, ops, c) && ClockAfter(cfg, ops, c).now <= now
    ensures Proper(s)
    ensures Same(cfg, s, c.window, s, d.window, hash, n, ops, k, now)
            <==> AllInTime(cfg, s, c.window, hash, n, ops, k, now)
    decreases |ops|, 1
  {
    hide Aligned, StepAt, Same, CutByOther, Timely, InTime;
    AlignedIsProper(cfg, s, s, c, d);
    if ops == [] {
      NothingIsSame(cfg, s, c.window, s, d.window, hash, n, k, now);
    } else {
      var op, c1 := ops[0], Tick(cfg, ops[0], c);
      var mine := Takes(hash, n, op, Home(hash, n, k));
      SameUnfolds(cfg, s, c.window, s, d.window, hash, n, ops, k, now);
      AlignedStep(cfg, s, s, c, d, op, mine, k);
      if mine {
        OwnStepIsSame(cfg, s, c, d, op, k);
        OwnIsNoCut(cfg, s, c.window, hash, n, op, k);
        FromSame(cfg, StepAt(cfg, s, c.window, op, k), c1, Tick(cfg, op, d), hash, n, ops[1..], k, now);
      } else {
        ForeignStep(cfg, s, c.window, hash, n, op, k);
        if CutByOther(cfg, s, c.window, hash, n, op, k) {
          CutIsLive(cfg, s, c.window, hash, n, op, k);
          FromPending(cfg, StepAt(cfg, s, c.window, op, k), s, c1, d, s.live.value, hash, n, ops[1..], k, now);
        } else {
          FromSame(cfg, s, c1, d, hash, n, ops[1..], k, now);
        }
      }
    }
  }

  // ... or the key's own table has yet to close the flow l that the other one closed at c.now.
  lemma {:induction false} FromPending(cfg: Config, s: KeyState, h: KeyState, c: Clock, d: Clock, l: Live,
                                       hash: Key -> nat, n: nat, ops: seq<Op>, k: Key, now: nat)
    requires n > 0 && Aligned(cfg, s, h, c, d) && Monotone(cfg, ops, c) && ClockAfter(cfg, ops, c).now <= now
    requires s.live.None? && h.live.Some? && h.live.value.packets != [] && l.packets != []
    requires s.done == h.done + [ClosingRecord(cfg, h.live.value, c.now, End)]
    requires Fires(cfg, l, c.now) <==> Fires(cfg, h.live.value, c.now)
    ensures Same(cfg, s, c.window, h, d.window, hash, n, ops, k, now)
            <==> InTime(cfg, l, c.now, hash, n, ops, Home(hash, n, k), now)
                 && AllInTime(cfg, s, c.window, hash, n, ops, k, now)
    decreases |ops|, 0
  {
    hide Aligned, StepAt, Same, CutByOther, Timely, Fires, ClosingRecord;
    var t := c.now;
    if ops == [] {
      NothingIsSame(cfg, s, c.window, h, d.window, hash, n, k, now);
      PendingEof(cfg, h, t, now);
    } else {
      var op, c1 := ops[0], Tick(cfg, ops[0], c);
      TickIs(cfg, ops, c);
      if Time(op) > t {
        TooLate(cfg, s, h, c, d, l, hash, n, ops, k, now);
      } else {
        var mine := Takes(hash, n, op, Home(hash, n, k));
        SameUnfolds(cfg, s, c.window, h, d.window, hash, n, ops, k, now);
        AlignedStep(cfg, s, h, c, d, op, mine, k);
        NoneIsNoCut(cfg, s, c.window, hash, n, op, k);
        if !mine {
          ForeignStep(cfg, s, c.window, hash, n, op, k);
          FromPending(cfg, s, h, c1, d, l, hash, n, ops[1..], k, now);
        } else {
          PendingStep(cfg, s, h, c, d, op, k);
          var h1, d1 := StepAt(cfg, h, d.window, op, k), Tick(cfg, op, d);
          if op.Event? || Fires(cfg, l, t) {
            FromSame(cfg, h1, c1, d1, hash, n, ops[1..], k, now);
          } else {
            FromPending(cfg, s, h1, c1, d1, l, hash, n, ops[1..], k, now);
          }
        }
      }
    }
  }

  // Nothing more happens at time c.now: the own table closes the flow later.
  lemma {:induction false} TooLate(cfg: Config, s: KeyState, h: KeyState, c: Clock, d: Clock, l: Live,
                                   hash: Key -> nat, n: nat, ops: seq<Op>, k: Key, now: nat)
    requires n > 0 && Monotone(cfg, ops, c) && ClockAfter(cfg, ops, c).now <= now
    requires s.live.None? && h.live.Some? && h.live.value.packets != [] && l.packets != []
    requires s.done == h.done + [ClosingRecord(cfg, h.live.value, c.now, End)]
    requires ops != [] && Time(ops[0]) > c.now
    ensures !InTime(cfg, l, c.now, hash, n, ops, Home(hash, n, k), now)
    ensures !Same(cfg, s, c.window, h, d.window, hash, n, ops, k, now)
  {
    hide Takes, KeyRun, CloseAt, ClosingRecord;
    var i, t := Home(hash, n, k), c.now;
    TimesRise(cfg, ops[1..], Tick(cfg, ops[0], c));
    assert forall op | op in ops :: op == ops[0] || op in ops[1..];
    MineIsIn(hash, n, ops, i);
    LaterIsLate(cfg, l, t, hash, n, ops, i, now);
    ClosedLater(cfg, h, d.window, Mine(hash, n, ops, i), k, now, t);
    DoneGrows(cfg, s, c.window, ops, k, now);
    ClosedThen(cfg, h, t);
    assert s.done[|h.done|] == ClosingRecord(cfg, h.live.value, t, End);
  }

  lemma {:induction false} ClosedThen(cfg: Config, h: KeyState, t: nat)
    requires h.live.Some? && h.live.value.packets != []
    ensures ClosingRecord(cfg, h.live.value, t, End).exportTime == t
  {
  }

  lemma {:induction false} NothingIsSame(cfg: Config, s: KeyState, w: nat, h: KeyState, v: nat, hash: Key -> nat,
                                         n: nat, k: Key, now: nat)
    requires n > 0 && Proper(s) && Proper(h)
    ensures Same(cfg, s, w, h, v, hash, n, [], k, now) <==> EofAt(cfg, h, now).done == EofAt(cfg, s, now).done
    ensures s.live.None? ==> EofAt(cfg, s, now) == s
  {
  }

  lemma {:induction false} AlignedIsProper(cfg: Config, s: KeyState, h: KeyState, c: Clock, d: Clock)
    requires Aligned(cfg, s, h, c, d)
    ensures Proper(s) && Proper(h)
  {
    hide KeyInv;
    InvIsProper(cfg, s, c);
    InvIsProper(cfg, h, d);
  }

  lemma {:induction false} OwnIsNoCut(cfg: Config, s: KeyState, w: nat, hash: Key -> nat, n: nat, op: Op, k: Key)
    requires n > 0 && Takes(hash, n, op, Home(hash, n, k))
    ensures !CutByOther(cfg, s, w, hash, n, op, k)
  {
  }

  lemma {:induction false} NoneIsNoCut(cfg: Config, s: KeyState, w: nat, hash: Key -> nat, n: nat, op: Op, k: Key)
    requires n > 0 && s.live.None?
    ensures !CutByOther(cfg, s, w, hash, n, op, k)
  {
  }

  lemma {:induction false} CutIsLive(cfg: Config, s: KeyState, w: nat, hash: Key -> nat, n: nat, op: Op, k: Key)
    requires n > 0 && CutByOther(cfg, s, w, hash, n, op, k)
    ensures s.live.Some? && op.Event?
  {
  }

  lemma {:induction false} TickIs(cfg: Config, ops: seq<Op>, c: Clock)
    requires Monotone(cfg, ops, c) && ops != []
    ensures c.now <= Time(ops[0]) == Tick(cfg, ops[0], c).now
  {
  }

  /** The exact condition: a key's own table exports the records one table for all keys
      would, end reasons and times included, if and only if it closes the key's flow in
      time whenever another table's packet opens a window. */
  lemma {:induction false} SameRecordsIff(cfg: Config, hash: Key -> nat, n: nat, ops: seq<Op>, k: Key, now: nat)
    requires n > 0 && Monotone(cfg, ops, START) && ClockAfter(cfg, ops, START).now <= now
    ensures EofAt(cfg, KeyRun(cfg, NO_FLOW, 0, Mine(hash, n, ops, Home(hash, n, k)), k), now).done
            == EofAt(cfg, KeyRun(cfg, NO_FLOW, 0, ops, k), now).done
            <==> AllInTime(cfg, NO_FLOW, 0, hash, n, ops, k, now)
  {
    hide KeyInv, KeyRun, Monotone, Mine, CloseAt;
    NothingIsFine(cfg);
    FromSame(cfg, NO_FLOW, START, START, hash, n, ops, k, now);
  }

  /** ---- when it holds ---- */

  // Without windows always.
  lemma {:induction false} NoWindowsInTime(cfg: Config, s: KeyState, w: nat, hash: Key -> nat, n: nat, ops: seq<Op>,
                                           k: Key, now: nat)
    requires n > 0 && Proper(s) && !cfg.window
    ensures AllInTime(cfg, s, w, hash, n, ops, k, now)
    decreases |ops|
  {
    hide StepAt;
    if ops != [] {
      NoWindowsInTime(cfg, StepAt(cfg, s, w, ops[0], k), WindowOf(cfg, w, ops[0]), hash, n, ops[1..], k, now);
    }
  }

  // No two operations happen at the same time, and the input ends after them.
  predicate Rising(ops: seq<Op>, now: nat) {
    ops == []
    || (now > Time(ops[0]) && (forall op | op in ops[1..] :: Time(op) > Time(ops[0])) && Rising(ops[1..], now))
  }

  // No other table's packet ever opens a window while the key has a live flow.
  ghost predicate NeverCut(cfg: Config, s: KeyState, w: nat, hash: Key -> nat, n: nat, ops: seq<Op>, k: Key)
    requires n > 0 && Proper(s)
    decreases |ops|
  {
    ops == []
    || (!CutByOther(cfg, s, w, hash, n, ops[0], k)
        && NeverCut(cfg, StepAt(cfg, s, w, ops[0], k), WindowOf(cfg, w, ops[0]), hash, n, ops[1..], k))
  }

  lemma {:induction false} RisingIsNeverInTime(cfg: Config, s: KeyState, w: nat, hash: Key -> nat, n: nat,
                                               ops: seq<Op>, k: Key, now: nat)
    requires n > 0 && Proper(s) && Rising(ops, now)
    ensures AllInTime(cfg, s, w, hash, n, ops, k, now) <==> NeverCut(cfg, s, w, hash, n, ops, k)
    decreases |ops|
  {
    hide StepAt, InTime, CutByOther;
    if ops != [] {
      var op := ops[0];
      RisingIsNeverInTime(cfg, StepAt(cfg, s, w, op, k), WindowOf(cfg, w, op), hash, n, ops[1..], k, now);
      if CutByOther(cfg, s, w, hash, n, op, k) {
        CutIsLive(cfg, s, w, hash, n, op, k);
        LaterIsLate(cfg, s.live.value, Time(op), hash, n, ops[1..], Home(hash, n, k), now);
      }
    }
  }

  /** With strictly rising times the records are the same if and only if no other table's
      packet opens a window while the key has a live flow. */
  lemma {:induction false} SameRecordsRising(cfg: Config, hash: Key -> nat, n: nat, ops: seq<Op>, k: Key, now: nat)
    requires n > 0 && Monotone(cfg, ops, START) && ClockAfter(cfg, ops, START).now <= now && Rising(ops, now)
    ensures EofAt(cfg, KeyRun(cfg, NO_FLOW, 0, Mine(hash, n, ops, Home(hash, n, k)), k), now).done
            == EofAt(cfg, KeyRun(cfg, NO_FLOW, 0, ops, k), now).done
            <==> NeverCut(cfg, NO_FLOW, 0, hash, n, ops, k)
  {
    hide KeyRun, Monotone, Mine, CloseAt, AllInTime, NeverCut, Rising;
    SameRecordsIff(cfg, hash, n, ops, k, now);
    RisingIsNeverInTime(cfg, NO_FLOW, 0, hash, n, ops, k, now);
  }
}
