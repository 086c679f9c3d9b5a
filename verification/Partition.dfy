/** The parallel flow tables: batches of packets are distributed in place by a hash of the
    flow key, and a worker runs each table. */
module Partition {
  import opened Distribution
  import opened ExportOrder
  import opened FlowSegments
  import opened Flows
  import opened LazyTimers
  import opened SameRecords
  import opened TcpEnd
  import opened Wrappers

  const BATCH_SIZE: nat := 1000

  /** ---- what a worker does with its batches ---- */

  // The packets of one batch.
  method WorkOff(table: FlowTable, ps: seq<Packet>)
    requires table.Valid()
    modifies table, table.Repr()
    ensures table.Valid() && table.packets == old(table.packets) + |ps|
    ensures fresh(table.Repr() - old(table.Repr()))
    ensures table.window == WindowAfter(table.cfg, old(table.window), Events(ps))
    ensures forall k :: Proper(old(table.View(k)))
                        && table.View(k) == KeyRun(table.cfg, old(table.View(k)), old(table.window), Events(ps), k)
  {
    hide KeyRun, StepAt, WindowAfter, Flow.Ok, FlowTable.Valid, FlowTable.View;
    ViewsAreProper(table);
    ghost var w := table.window;
    NothingRun(table);
    assert ps[..0] == [];
    var i := 0;
    while i < |ps|
      invariant i <= |ps| && table.Valid() && table.packets == old(table.packets) + i
      invariant fresh(table.Repr() - old(table.Repr()))
      invariant table.window == WindowAfter(table.cfg, w, Events(ps[..i]))
      invariant forall k :: table.View(k) == KeyRun(table.cfg, old(table.View(k)), w, Events(ps[..i]), k)
    {
      label Before:
      table.Event(ps[i]);
      EventsAppend(ps[..i], ps[i]);
      assert ps[..i + 1] == ps[..i] + [ps[i]];
      WindowStep(table.cfg, w, Events(ps[..i]), Event(ps[i]));
      forall k ensures table.View(k) == KeyRun(table.cfg, old(table.View(k)), w, Events(ps[..i + 1]), k) {
        assert table.View(k) == StepAt(table.cfg, old@Before(table.View(k)), old@Before(table.window), Event(ps[i]), k);
        RunStep(table.cfg, old(table.View(k)), w, Events(ps[..i]), Event(ps[i]), k);
      }
      i := i + 1;
    }
    assert ps[..i] == ps;
  }

  lemma {:induction false} ViewsAreProper(table: FlowTable)
    requires table.Valid()
    ensures forall k :: Proper(table.View(k))
  {
    table.AbsentKeys(0);
  }

  lemma {:induction false} NothingRun(table: FlowTable)
    requires table.Valid()
    ensures var cfg, w := table.cfg, table.window; WindowAfter(cfg, w, Events([])) == w == WindowAfter(cfg, w, Ops([]))
    ensures forall k :: Proper(table.View(k))
    ensures forall k :: table.View(k) == KeyRun(table.cfg, table.View(k), table.window, Events([]), k)
    ensures forall k :: table.View(k) == KeyRun(table.cfg, table.View(k), table.window, Ops([]), k)
  {
    ViewsAreProper(table);
    RunNothing(table.cfg, NO_FLOW, table.window, "");
    forall k ensures table.View(k) == KeyRun(table.cfg, table.View(k), table.window, Events([]), k)
                  && table.View(k) == KeyRun(table.cfg, table.View(k), table.window, Ops([]), k) {
      RunNothing(table.cfg, table.View(k), table.window, k);
    }
  }

  /** The worker's loop: every key goes through the events and expiries of the batches. */
  method Worker(table: FlowTable, batches: seq<Batch>)
    requires table.Valid()
    modifies table, table.Repr()
    ensures table.Valid() && fresh(table.Repr() - old(table.Repr()))
    ensures table.window == WindowAfter(table.cfg, old(table.window), Ops(batches))
    ensures forall k :: Proper(old(table.View(k)))
                        && table.View(k) == KeyRun(table.cfg, old(table.View(k)), old(table.window), Ops(batches), k)
  {
    hide KeyRun, WindowAfter, ExpireAt, Flow.Ok, FlowTable.Valid, FlowTable.View;
    ViewsAreProper(table);
    ghost var w := table.window;
    NothingRun(table);
    assert batches[..0] == [];
    var i := 0;
    while i < |batches|
      invariant i <= |batches| && table.Valid() && fresh(table.Repr() - old(table.Repr()))
      invariant table.window == WindowAfter(table.cfg, w, Ops(batches[..i]))
      invariant forall k :: table.View(k) == KeyRun(table.cfg, old(table.View(k)), w, Ops(batches[..i]), k)
    {
      label Before:
      WorkOff(table, batches[i].packets);
      label Worked:
      if batches[i].expire {
        table.Expire(batches[i].when);
      }
      OpsAppend(batches[..i], batches[i]);
      assert batches[..i + 1] == batches[..i] + [batches[i]];
      ghost var before := Ops(batches[..i]);
      WindowAppend(table.cfg, w, before, OpsOf(batches[i]));
      RunBatch(table.cfg, NO_FLOW, old@Before(table.window), batches[i], "");
      forall k ensures table.View(k) == KeyRun(table.cfg, old(table.View(k)), w, Ops(batches[..i + 1]), k) {
        RunBatch(table.cfg, old@Before(table.View(k)), old@Before(table.window), batches[i], k);
        RunAppend(table.cfg, old(table.View(k)), w, before, OpsOf(batches[i]), k);
      }
      i := i + 1;
    }
    assert batches[..i] == batches;
  }

  /** ---- distributing by hash ---- */

  // A batch of at most BATCH_SIZE packets, written and read in place.
  class BatchBuffer {
    const buffers: array<Packet>
    var rindex: nat
    var windex: nat
    var timestamp: nat
    var expire: bool

    ghost predicate Valid()
      reads this
    {
      rindex <= windex <= buffers.Length
    }

    ghost function Written(): seq<Packet>
      requires Valid()
      reads this, buffers
    {
      buffers[..windex]
    }

    constructor (size: nat)
      ensures Valid() && fresh(buffers) && buffers.Length == size && Written() == [] && rindex == 0
    {
      buffers := new Packet[size];
      rindex, windex, timestamp, expire := 0, 0, 0, false;
    }

    // Refused when the buffer is full.
    method Push(p: Packet) returns (ok: bool)
      requires Valid()
      modifies this`windex, buffers
      ensures Valid() && ok == (|old(Written())| < buffers.Length)
      ensures Written() == if ok then old(Written()) + [p] else old(Written())
    {
      if windex >= buffers.Length {
        return false;
      }
      buffers[windex] := p;
      windex := windex + 1;
      return true;
    }

    // The next packet, None at the end.
    method Read() returns (p: Option<Packet>)
      requires Valid()
      modifies this`rindex
      ensures Valid()
      ensures p == if old(rindex) < windex then Some(Written()[old(rindex)]) else None
      ensures rindex == old(rindex) + if p.Some? then 1 else 0
    {
      if rindex >= windex {
        return None;
      }
      p := Some(buffers[rindex]);
      rindex := rindex + 1;
    }
  }

  class ParallelFlowTable {
    const n: nat
    const hash: Key -> nat
    const expireTime: nat
    var nextExpire: nat
    // what the workers of the tables get
    var sent: seq<seq<Batch>>

    ghost predicate Valid()
      reads this
    {
      n > 0 && |sent| == n
    }

    // The batch of one call: none if there is nothing to do.
    ghost function Fed(ps: seq<Packet>, when: nat): seq<Batch>
      reads this
    {
      if ps == [] && when <= nextExpire then [] else [Batch(ps, when > nextExpire, when)]
    }

    constructor (n: nat, hash: Key -> nat, expireTime: nat)
      requires n > 0
      ensures Valid() && this.n == n && this.hash == hash && this.expireTime == expireTime
      ensures nextExpire == 0 && sent == seq(n, i => [])
    {
      this.n, this.hash, this.expireTime := n, hash, expireTime;
      nextExpire, sent := 0, seq(n, i => []);
    }

    // An empty buffer for each table.
    method PopEmpty(current: nat, expire: bool) returns (tmp: seq<BatchBuffer>)
      ensures |tmp| == n && forall i | 0 <= i < n :: fresh(tmp[i]) && fresh(tmp[i].buffers)
      ensures forall i | 0 <= i < n :: tmp[i].Valid() && tmp[i].Written() == [] && tmp[i].buffers.Length == BATCH_SIZE
      ensures forall i | 0 <= i < n :: tmp[i].timestamp == current && tmp[i].expire == expire
      ensures forall i, j | 0 <= i < j < n :: tmp[i] != tmp[j] && tmp[i].buffers != tmp[j].buffers
    {
      tmp := [];
      while |tmp| < n
        invariant |tmp| <= n && forall i | 0 <= i < |tmp| :: fresh(tmp[i]) && fresh(tmp[i].buffers)
        invariant forall i | 0 <= i < |tmp| :: tmp[i].Valid() && tmp[i].Written() == []
        invariant forall i | 0 <= i < |tmp| :: tmp[i].buffers.Length == BATCH_SIZE
        invariant forall i | 0 <= i < |tmp| :: tmp[i].timestamp == current && tmp[i].expire == expire
        invariant forall i, j | 0 <= i < j < |tmp| :: tmp[i] != tmp[j] && tmp[i].buffers != tmp[j].buffers
      {
        var buf := new BatchBuffer(BATCH_SIZE);
        buf.timestamp := current;
        buf.expire := expire;
        tmp := tmp + [buf];
      }
    }

    // One buffer for each table.
    ghost predicate Buffers(tmp: seq<BatchBuffer>)
      reads tmp
    {
      && |tmp| == n
      && (forall i | 0 <= i < n :: tmp[i].Valid() && tmp[i].buffers.Length == BATCH_SIZE)
      && (forall i, j | 0 <= i < j < n :: tmp[i] != tmp[j] && tmp[i].buffers != tmp[j].buffers)
    }

    // A packet goes to the buffer of its key; the push is not refused.
    method Dispatch(tmp: seq<BatchBuffer>, p: Packet)
      requires n > 0 && Buffers(tmp) && forall i | 0 <= i < n :: |tmp[i].Written()| < BATCH_SIZE
      modifies set b | b in tmp :: b`windex, set b | b in tmp :: b.buffers
      ensures Buffers(tmp)
      ensures forall i | 0 <= i < n ::
                tmp[i].Written() == old(tmp[i].Written()) + if hash(p.key) % n == i then [p] else []
    {
      var h := hash(p.key) % n;
      var ok := tmp[h].Push(p);
      assert ok;
    }

    // Every packet goes to the table of its key, in order.
    method Fill(buffer: BatchBuffer, tmp: seq<BatchBuffer>)
      requires n > 0 && buffer.Valid() && buffer.rindex == 0 && buffer.buffers.Length <= BATCH_SIZE && Buffers(tmp)
      requires forall i | 0 <= i < n :: tmp[i].Written() == [] && tmp[i] != buffer && tmp[i].buffers != buffer.buffers
      modifies buffer`rindex, set b | b in tmp :: b`windex, set b | b in tmp :: b.buffers
      ensures Buffers(tmp)
      ensures forall i | 0 <= i < n :: tmp[i].Written() == Route(hash, n, old(buffer.Written()), i)
    {
      hide Route;
      ghost var ps := buffer.Written();
      ghost var read: seq<Packet> := [];
      RouteAppend(hash, n, [], []);
      var p := buffer.Read();
      while p.Some?
        invariant buffer.Valid() && buffer.Written() == ps && Buffers(tmp)
        invariant read + (if p.Some? then [p.value] else []) == ps[..buffer.rindex]
        invariant p.None? ==> buffer.rindex == buffer.windex
        invariant forall i | 0 <= i < n :: tmp[i].Written() == Route(hash, n, read, i)
        decreases p.Some?, buffer.windex - buffer.rindex
      {
        Dispatch(tmp, p.value);
        RouteAppend(hash, n, read, [p.value]);
        read := read + [p.value];
        p := buffer.Read();
      }
      assert read == ps;
    }

    // finalize: the buffers go to the workers.
    method Send(tmp: seq<BatchBuffer>)
      requires Valid() && |tmp| == n && forall i | 0 <= i < n :: tmp[i].Valid()
      modifies `sent
      ensures Valid()
      ensures forall i | 0 <= i < n ::
                sent[i] == old(sent)[i] + [Batch(tmp[i].Written(), tmp[i].expire, tmp[i].timestamp)]
    {
      var i := 0;
      while i < n
        invariant i <= n && |sent| == n
        invariant forall j | 0 <= j < i ::
                    sent[j] == old(sent)[j] + [Batch(tmp[j].Written(), tmp[j].expire, tmp[j].timestamp)]
        invariant forall j | i <= j < n :: sent[j] == old(sent)[j]
      {
        sent := sent[i := sent[i] + [Batch(tmp[i].buffers[..tmp[i].windex], tmp[i].expire, tmp[i].timestamp)]];
        i := i + 1;
      }
    }

    /** event: the batch is split over the tables, in order, and the expiry flag goes to
        all of them. It is set when the time of the last one set plus expireTime is past. */
    method Event(buffer: BatchBuffer)
      requires Valid() && buffer.Valid() && buffer.rindex == 0 && buffer.buffers.Length <= BATCH_SIZE
      modifies this, buffer`rindex
      ensures Valid()
      ensures nextExpire
           == if buffer.timestamp > old(nextExpire) then buffer.timestamp + expireTime else old(nextExpire)
      ensures forall i | 0 <= i < n ::
                sent[i] == old(sent)[i] + RouteAll(hash, n, old(Fed(buffer.Written(), buffer.timestamp)), i)
      // one batch for every table, even an empty one, unless there is nothing to do
      ensures old(buffer.windex) == 0 && buffer.timestamp <= old(nextExpire) ==> sent == old(sent)
      ensures old(buffer.windex) > 0 || buffer.timestamp > old(nextExpire) ==>
                forall i | 0 <= i < n ::
                  sent[i] == old(sent)[i] + [Batch(Route(hash, n, old(buffer.Written()), i),
                                                   buffer.timestamp > old(nextExpire), buffer.timestamp)]
    {
      var current := buffer.timestamp;
      var expire := false;
      if current > nextExpire {
        expire := true;
        nextExpire := current + expireTime;
      }
      if buffer.windex == 0 && !expire {
        return;
      }
      var tmp := PopEmpty(current, expire);
      Fill(buffer, tmp);
      Send(tmp);
    }
  }

  /** ---- the whole input ---- */

  // The batches of a whole input: some of them carry the expiry flag.
  ghost function Feed(raws: seq<Raw>, next: nat, period: nat): seq<Batch> {
    if raws == [] then []
    else
      var r := raws[0];
      (if r.packets == [] && r.when <= next then [] else [Batch(r.packets, r.when > next, r.when)])
      + Feed(raws[1..], if r.when > next then r.when + period else next, period)
  }

  // Later than every flagged batch before, by more than the period.
  ghost predicate Later(raws: seq<Raw>, flags: seq<bool>, i: nat, period: nat)
    requires i < |raws| == |flags|
  {
    forall j | 0 <= j < i && flags[j] :: raws[i].when > raws[j].when + period
  }

  /** Which batches of an input carry the expiry flag: those later than `next` and than
      every flagged batch before by more than the period. This leaves no choice. */
  ghost predicate Spaced(raws: seq<Raw>, flags: seq<bool>, next: nat, period: nat) {
    && |flags| == |raws|
    && forall i | 0 <= i < |raws| :: flags[i] <==> raws[i].when > next && Later(raws, flags, i, period)
  }

  // The packets of an input, and the flagged times.
  function Timed(raws: seq<Raw>, flags: seq<bool>): seq<Op>
    requires |flags| == |raws|
  {
    if raws == [] then []
    else (Events(raws[0].packets) + if flags[0] then [Expire(raws[0].when)] else []) + Timed(raws[1..], flags[1..])
  }

  lemma {:induction false} LaterIsSame(raws: seq<Raw>, flags: seq<bool>, others: seq<bool>, i: nat, period: nat)
    requires i < |raws| == |flags| == |others| && flags[..i] == others[..i]
    ensures Later(raws, flags, i, period) <==> Later(raws, others, i, period)
  {
    assert forall j | 0 <= j < i :: flags[j] == flags[..i][j] && others[j] == others[..i][j];
  }

  lemma {:induction false} SpacedIsUnique(raws: seq<Raw>, flags: seq<bool>, others: seq<bool>, next: nat, period: nat,
                                          i: nat)
    requires Spaced(raws, flags, next, period) && Spaced(raws, others, next, period) && i <= |raws|
    ensures flags[..i] == others[..i]
  {
    hide Later;
    if i > 0 {
      SpacedIsUnique(raws, flags, others, next, period, i - 1);
      LaterIsSame(raws, flags, others, i - 1, period);
      assert flags[..i] == flags[..i - 1] + [flags[i - 1]] && others[..i] == others[..i - 1] + [others[i - 1]];
    }
  }

  lemma {:induction false} LaterCons(raw: Raw, flag: bool, raws: seq<Raw>, flags: seq<bool>, i: nat, period: nat)
    requires i < |raws| == |flags|
    ensures Later([raw] + raws, [flag] + flags, i + 1, period)
       <==> (flag ==> raws[i].when > raw.when + period) && Later(raws, flags, i, period)
  {
    var all, fs := [raw] + raws, [flag] + flags;
    assert all[i + 1] == raws[i] && all[0] == raw && fs[0] == flag;
    if Later(all, fs, i + 1, period) {
      forall j | 0 <= j < i && flags[j] ensures raws[i].when > raws[j].when + period {
        assert fs[j + 1] && all[j + 1] == raws[j];
      }
    }
  }

  // The first batch, and the others.
  lemma {:induction false} SpacedCons(raw: Raw, raws: seq<Raw>, flags: seq<bool>, next: nat, period: nat)
    requires Spaced(raws, flags, if raw.when > next then raw.when + period else next, period)
    ensures Spaced([raw] + raws, [raw.when > next] + flags, next, period)
  {
    var all, fs := [raw] + raws, [raw.when > next] + flags;
    assert Later(all, fs, 0, period);
    hide Later;
    forall i | 0 <= i < |all| ensures fs[i] <==> all[i].when > next && Later(all, fs, i, period) {
      if i > 0 {
        LaterCons(raw, raw.when > next, raws, flags, i - 1, period);
        assert fs[i] == flags[i - 1] && all[i] == raws[i - 1];
      }
    }
  }

  /** What the workers get is every packet in order and an expiry right after each flagged
      batch, whether it holds packets or not. */
  lemma {:induction false} FeedIsTimed(raws: seq<Raw>, next: nat, period: nat) returns (flags: seq<bool>)
    ensures Spaced(raws, flags, next, period) && Ops(Feed(raws, next, period)) == Timed(raws, flags)
  {
    if raws == [] {
      flags := [];
    } else {
      hide Events, Spaced;
      var r := raws[0];
      var next' := if r.when > next then r.when + period else next;
      var more := FeedIsTimed(raws[1..], next', period);
      flags := [r.when > next] + more;
      SpacedCons(r, raws[1..], more, next, period);
      assert [r] + raws[1..] == raws && flags[1..] == more;
      SpacedLength(raws[1..], more, next', period);
      var rest := Feed(raws[1..], next', period);
      NoEvents();
      if r.packets == [] && r.when <= next {
        assert [] + rest == rest;
        assert ([] + []) + Timed(raws[1..], more) == Timed(raws[1..], more);
      } else {
        var b := Batch(r.packets, r.when > next, r.when);
        assert ([b] + rest)[1..] == rest;
      }
    }
  }

  lemma {:induction false} SpacedLength(raws: seq<Raw>, flags: seq<bool>, next: nat, period: nat)
    requires Spaced(raws, flags, next, period)
    ensures |flags| == |raws|
  {
  }

  lemma {:induction false} NoEvents()
    ensures Events([]) == []
  {
  }

  method WriteBuffer(raw: Raw) returns (buffer: BatchBuffer)
    requires |raw.packets| <= BATCH_SIZE
    ensures fresh(buffer) && fresh(buffer.buffers) && buffer.Valid() && buffer.buffers.Length == BATCH_SIZE
    ensures buffer.Written() == raw.packets && buffer.timestamp == raw.when && buffer.rindex == 0
  {
    buffer := new BatchBuffer(BATCH_SIZE);
    buffer.timestamp := raw.when;
    var i := 0;
    while i < |raw.packets|
      invariant i <= |raw.packets| && buffer.Valid() && buffer.Written() == raw.packets[..i]
      invariant buffer.timestamp == raw.when && buffer.rindex == 0
    {
      var ok := buffer.Push(raw.packets[i]);
      assert ok && raw.packets[..i + 1] == raw.packets[..i] + [raw.packets[i]];
      i := i + 1;
    }
    assert raw.packets[..i] == raw.packets;
  }

  // The decoder's side: every batch is distributed.
  method DistributeAll(table: ParallelFlowTable, raws: seq<Raw>)
    requires table.Valid() && forall r | r in raws :: |r.packets| <= BATCH_SIZE
    modifies table
    ensures table.Valid()
    ensures forall i | 0 <= i < table.n ::
              table.sent[i] == old(table.sent)[i]
                + RouteAll(table.hash, table.n, Feed(raws, old(table.nextExpire), table.expireTime), i)
    decreases |raws|
  {
    hide RouteAll;
    if raws == [] {
      forall i | 0 <= i < table.n
        ensures RouteAll(table.hash, table.n, Feed(raws, table.nextExpire, table.expireTime), i) == []
      {
        RouteAllNothing(table.hash, table.n, i);
      }
      return;
    }
    var buffer := WriteBuffer(raws[0]);
    ghost var fed := table.Fed(raws[0].packets, raws[0].when);
    table.Event(buffer);
    ghost var rest := Feed(raws[1..], table.nextExpire, table.expireTime);
    DistributeAll(table, raws[1..]);
    forall i | 0 <= i < table.n {
      RouteAllAppend(table.hash, table.n, fed, rest, i);
    }
    assert Feed(raws, old(table.nextExpire), table.expireTime) == fed + rest;
  }

  lemma {:induction false} RouteAllNothing(hash: Key -> nat, n: nat, i: nat)
    requires n > 0
    ensures RouteAll(hash, n, [], i) == []
  {
  }

  // One table works off its batches, to the end of the input.
  method RunTable(cfg: Config, batches: seq<Batch>, now: nat) returns (log: seq<Exported>)
    ensures TableLog(cfg, batches, now, log)
    // every flow has its own id
    ensures LogIds(log) == UpTo(|log|)
  {
    hide KeyRun, CloseAt, Ops, FlowTable.Valid;
    var table := new FlowTable(cfg);
    Worker(table, batches);
    label Worked:
    table.EOF(now);
    log := table.log;
    assert table.Counted() && table.Numbered() && |table.flows| == 0;
    assert LogIds(log) + SlotIds([]) == LogIds(log);
    forall k ensures Done(log, k) == EofAt(cfg, KeyRun(cfg, NO_FLOW, 0, Ops(batches), k), now).done {
      assert table.View(k) == CloseAt(cfg, old@Worked(table.View(k)), now, ForcedEnd);
    }
  }

  // What a table exports for its batches, key by key.
  ghost predicate TableLog(cfg: Config, batches: seq<Batch>, now: nat, log: seq<Exported>) {
    forall k :: Done(log, k) == EofAt(cfg, KeyRun(cfg, NO_FLOW, 0, Ops(batches), k), now).done
  }

  /** n tables work off the batches the input was split into: every key goes through its
      packets and through the expiries of the whole input at the flagged times. */
  method RunTables(cfg: Config, hash: Key -> nat, n: nat, raws: seq<Raw>, expireTime: nat, now: nat)
    returns (logs: seq<seq<Exported>>, ghost flags: seq<bool>)
    requires n > 0 && forall r | r in raws :: |r.packets| <= BATCH_SIZE
    ensures |logs| == n
    ensures forall i | 0 <= i < n :: TableLog(cfg, RouteAll(hash, n, Feed(raws, 0, expireTime), i), now, logs[i])
    ensures Spaced(raws, flags, 0, expireTime)
    ensures forall i, k | 0 <= i < n ::
              Done(logs[i], k) == EofAt(cfg, KeyRun(cfg, NO_FLOW, 0, Mine(hash, n, Timed(raws, flags), i), k), now).done
    ensures forall i | 0 <= i < n :: LogIds(logs[i]) == UpTo(|logs[i]|)
  {
    hide TableLog, RouteAll, Feed, Spaced, Timed, Mine, LogIds, UpTo;
    var table := new ParallelFlowTable(n, hash, expireTime);
    DistributeAll(table, raws);
    ghost var fed := Feed(raws, 0, expireTime);
    flags := FeedIsTimed(raws, 0, expireTime);
    SpacedLength(raws, flags, 0, expireTime);
    var sent := table.sent;
    logs := [];
    while |logs| < n
      invariant |logs| <= n
      invariant forall i | 0 <= i < |logs| :: TableLog(cfg, RouteAll(hash, n, fed, i), now, logs[i])
      invariant forall i | 0 <= i < |logs| :: LogIds(logs[i]) == UpTo(|logs[i]|)
    {
      var i := |logs|;
      assert sent[i] == [] + RouteAll(hash, n, fed, i) == RouteAll(hash, n, fed, i);
      var log := RunTable(cfg, sent[i], now);
      logs := logs + [log];
    }
    forall i, k | 0 <= i < n
      ensures Done(logs[i], k) == EofAt(cfg, KeyRun(cfg, NO_FLOW, 0, Mine(hash, n, Timed(raws, flags), i), k), now).done
    {
      TableLogIs(cfg, RouteAll(hash, n, fed, i), now, logs[i], k);
      RouteOps(hash, n, fed, i);
    }
  }

  lemma {:induction false} TableLogIs(cfg: Config, batches: seq<Batch>, now: nat, log: seq<Exported>, k: Key)
    requires TableLog(cfg, batches, now, log)
    ensures Done(log, k) == EofAt(cfg, KeyRun(cfg, NO_FLOW, 0, Ops(batches), k), now).done
  {
  }

  /** Each key's records come from its own table only, and hold the packets that the
      records of one table for the whole input would hold. They are the same records,
      reasons and times included, exactly if the table is in time with every window that
      another one opens; without windows always. */
  lemma {:induction false} OneTableOrMany(cfg: Config, hash: Key -> nat, n: nat, fed: seq<Batch>, now: nat,
                                          i: nat, log: seq<Exported>, whole: seq<Exported>, k: Key)
    requires n > 0 && TableLog(cfg, RouteAll(hash, n, fed, i), now, log) && TableLog(cfg, fed, now, whole)
    requires Monotone(cfg, Ops(fed), START)
    ensures i != Home(hash, n, k) ==> Done(log, k) == []
    ensures i == Home(hash, n, k) ==> RecordsOf(Done(log, k)) == RecordsOf(Done(whole, k))
    ensures i == Home(hash, n, k) && ClockAfter(cfg, Ops(fed), START).now <= now ==>
              (Done(log, k) == Done(whole, k) <==> AllInTime(cfg, NO_FLOW, 0, hash, n, Ops(fed), k, now))
    ensures i == Home(hash, n, k) && !cfg.window ==> Done(log, k) == Done(whole, k)
  {
    hide KeyRun, CloseAt, Ops, Done, Monotone, Mine, Cuts, AllInTime;
    RouteOps(hash, n, fed, i);
    if i == Home(hash, n, k) {
      TablesCutLikeOne(cfg, hash, n, Ops(fed), k);
      EofKeepsCuts(cfg, Mine(hash, n, Ops(fed), i), k, now);
      EofKeepsCuts(cfg, Ops(fed), k, now);
      if ClockAfter(cfg, Ops(fed), START).now <= now {
        SameRecordsIff(cfg, hash, n, Ops(fed), k, now);
      }
      if !cfg.window {
        MineRun(cfg, NO_FLOW, 0, hash, n, Ops(fed), k);
      }
    } else {
      OtherTables(cfg, 0, hash, n, Ops(fed), i, k);
      NothingToClose(cfg, now);
    }
  }

  /** What the exporters get for a key is what the specification says: its packets, in
      order, cut by the timeouts and windows, whatever the batching and the number of
      tables. */
  lemma {:induction false} TablesMeetTheSpecification(cfg: Config, hash: Key -> nat, n: nat, fed: seq<Batch>, now: nat,
                                                      log: seq<Exported>, k: Key)
    requires n > 0 && TableLog(cfg, RouteAll(hash, n, fed, Home(hash, n, k)), now, log)
    requires Monotone(cfg, Ops(fed), START)
    ensures var records, ps := RecordsOf(Done(log, k)), PacketsOf(Ops(fed), k);
            && Flat(records) == ps && Admissible(cfg, records) && AllKeepTimeouts(cfg, records)
            && AllJustified(cfg, Done(log, k))
            && (NoTies(cfg, ps) ==> records == Segments(cfg, ps))
            && (records == Segments(cfg, ps) <==> NoTieHits(cfg, NO_FLOW, 0, Ops(fed), k))
  {
    hide KeyRun, CloseAt, Ops, Done, Segments, Admissible, AllKeepTimeouts, NoTies, Monotone, AllJustified, Flat,
         PacketsOf, Mine, Cuts, NoTieHits;
    var i := Home(hash, n, k);
    var mine := Mine(hash, n, Ops(fed), i);
    RouteOps(hash, n, fed, i);
    TablesCutLikeOne(cfg, hash, n, Ops(fed), k);
    MinePackets(hash, n, Ops(fed), k);
    EofExportsAll(cfg, mine, k, now);
    EofKeepsCuts(cfg, mine, k, now);
    MeetsSpecIff(cfg, Ops(fed), k);
  }

  lemma {:induction false} NothingToClose(cfg: Config, now: nat)
    ensures EofAt(cfg, NO_FLOW, now).done == []
  {
  }
}
