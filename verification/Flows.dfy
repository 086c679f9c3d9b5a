/** The flow table and its flows, updated in place: the key map, the slot array with its
    free list, and each flow's timers behind a lazily refreshed expireNext. Seen through
    one key, the table does what LazyTimers says. */
module Flows {
  import opened FlowSegments
  import opened LazyTimers
  import opened TcpEnd
  import opened Wrappers

  const TIMER_IDLE: nat := 0
  const TIMER_ACTIVE: nat := 1

  // The callback of a timer ends the flow for this reason.
  function ReasonOf(id: nat): Reason {
    if id == TIMER_IDLE then Idle else Active
  }

  // What an exporter receives.
  datatype Exported = Exported(key: Key, id: nat, record: Record)

  /** ---- timers, by id; 0 means not set ---- */

  // The first timer that is due.
  function FirstDue(timers: seq<nat>, when: nat): (i: nat)
    ensures i <= |timers|
    ensures forall j | 0 <= j < i :: timers[j] == 0 || timers[j] > when
    ensures i < |timers| ==> 0 < timers[i] <= when
  {
    if timers == [] then 0
    else if 0 < timers[0] <= when then 0
    else 1 + FirstDue(timers[1..], when)
  }

  // next is a lower bound of all pending timers, and 0 only if none is pending.
  ghost predicate LowerBound(next: nat, timers: seq<nat>) {
    forall i | 0 <= i < |timers| && timers[i] != 0 :: 0 < next <= timers[i]
  }

  // next is the earliest pending timer, 0 if there is none.
  ghost predicate Earliest(next: nat, timers: seq<nat>) {
    LowerBound(next, timers) && (next != 0 ==> next in timers)
  }

  // The timers as they should be for a live flow with these packets.
  function TimersOf(cfg: Config, ps: seq<Packet>): seq<nat>
    requires ps != []
  {
    if cfg.idle + cfg.active == 0 then [] else [IdleTimer(cfg, ps), ActiveTimer(cfg, ps)]
  }

  class Flow {
    const table: FlowTable
    const key: Key
    const firstForward: bool
    const id: nat
    const tcp: bool
    var timers: seq<nat>
    var expireNext: nat
    var active: bool
    var packets: seq<Packet>
    var srcFIN: bool
    var dstFIN: bool
    var srcACK: bool
    var dstACK: bool

    // The FIN/ACK flags are what the packets say.
    ghost predicate Flags()
      reads this
    {
      tcp ==> Tcp(packets) == TcpState(srcFIN, dstFIN, srcACK, dstACK, false)
    }

    // A live flow between two events.
    ghost predicate Ok()
      reads this
    {
      var cfg := table.cfg;
      && active && packets != [] && !Ended(cfg, packets)
      && timers == TimersOf(cfg, packets)
      && firstForward == packets[0].lowToHigh && tcp == (cfg.fivetuple && packets[0].tcp)
      && Flags()
    }

    // BaseFlow.Init behind NewFlow.
    constructor Init(table: FlowTable, p: Packet, id: nat)
      ensures this.table == table && key == p.key && firstForward == p.lowToHigh && this.id == id
      ensures tcp == (table.cfg.fivetuple && p.tcp)
      ensures active && packets == [] && Flags()
      ensures expireNext == if table.cfg.active != 0 then p.time + table.cfg.active else 0
      ensures timers == if table.cfg.idle + table.cfg.active == 0 then [] else [0, expireNext]
    {
      this.table, key, firstForward, this.id := table, p.key, p.lowToHigh, id;
      tcp := table.cfg.fivetuple && p.tcp;
      active, packets, expireNext := true, [], 0;
      srcFIN, dstFIN, srcACK, dstACK := false, false, false, false;
      timers := [];
      new;
      if table.cfg.active + table.cfg.idle != 0 {
        timers := [0, 0];
      }
      if table.cfg.active != 0 {
        AddTimer(TIMER_ACTIVE, p.time + table.cfg.active);
      }
    }

    method AddTimer(id: nat, when: nat)
      modifies this`timers, this`expireNext
      ensures id < |old(timers)| ==> timers == old(timers)[id := when]
      ensures id >= |old(timers)| ==> timers == old(timers) + seq(id - |old(timers)|, _ => 0) + [when]
      ensures expireNext == if when < old(expireNext) || old(expireNext) == 0 then when else old(expireNext)
      // the gate stays below every pending timer
      ensures when > 0 && LowerBound(old(expireNext), old(timers)) ==> LowerBound(expireNext, timers)
    {
      if id >= |timers| {
        timers := timers + seq(id - |timers| + 1, _ => 0);
      }
      timers := timers[id := when];
      if when < expireNext || expireNext == 0 {
        expireNext := when;
      }
    }

    method RemoveTimer(id: nat)
      modifies this`timers, this`expireNext
      ensures timers == if id < |old(timers)| then old(timers)[id := 0] else old(timers)
      ensures Earliest(expireNext, timers)
    {
      if id < |timers| {
        timers := timers[id := 0];
      }
      var next, i := 0, 0;
      while i < |timers|
        invariant i <= |timers| && Earliest(next, timers[..i])
        invariant unchanged(this`expireNext)
        invariant timers == if id < |old(timers)| then old(timers)[id := 0] else old(timers)
      {
        assert timers[..i + 1] == timers[..i] + [timers[i]];
        if timers[i] != 0 {
          if next == 0 || timers[i] < next {
            next := timers[i];
          }
        }
        i := i + 1;
      }
      assert timers[..i] == timers;
      expireNext := next;
    }

    // Stop: the flow leaves the table.
    method Stop()
      requires table.Holds(this)
      modifies this`active, table`flows, table`flowlist, table`freelist
      ensures !active && table.Removed(this, old(table.flows), old(table.flowlist), old(table.freelist))
    {
      table.Remove(this);
      active := false;
    }

    // Export, once.
    method Export(reason: Reason, expiry: nat, now: nat)
      requires active ==> table.Holds(this)
      modifies this`active, table`flows, table`flowlist, table`freelist, table`log
      ensures !active
      ensures old(active) ==>
                table.Removed(this, old(table.flows), old(table.flowlist), old(table.freelist))
                && table.log == old(table.log) + [Exported(key, id, Record(packets, reason, expiry, now))]
      ensures !old(active) ==> unchanged(table) && unchanged(this)
    {
      if !active {
        return;
      }
      table.log := table.log + [Exported(key, id, Record(packets, reason, expiry, now))];
      Stop();
    }

    /** Fire the timers that are due in the order of their ids: only the first one exports
        the flow. expireNext becomes the earliest timer left. */
    method Expire(when: nat)
      requires active && table.Holds(this) && |timers| <= 2
      modifies this`active, this`timers, this`expireNext
      modifies table`flows, table`flowlist, table`freelist, table`log
      ensures old(expireNext) == 0 ==> unchanged(this) && unchanged(table)
      ensures old(expireNext) != 0 ==>
                var i := FirstDue(old(timers), when);
                if i == |old(timers)| then
                  active && timers == old(timers) && Earliest(expireNext, timers) && unchanged(table)
                else
                  && !active && table.Removed(this, old(table.flows), old(table.flowlist), old(table.freelist))
                  && table.log == old(table.log)
                       + [Exported(key, id, Record(packets, ReasonOf(i), old(timers)[i], when))]
    {
      if expireNext == 0 {
        return;
      }
      var next, i := 0, 0;
      ghost var due := FirstDue(timers, when);
      while i < |timers|
        invariant i <= |timers| == |old(timers)| && timers[i..] == old(timers)[i..]
        invariant i <= due ==> active && timers == old(timers) && unchanged(table) && Earliest(next, timers[..i])
        invariant i > due ==>
          && !active && table.Removed(this, old(table.flows), old(table.flowlist), old(table.freelist))
          && table.log == old(table.log)
               + [Exported(key, id, Record(packets, ReasonOf(due), old(timers)[due], when))]
      {
        assert timers[i] == timers[i..][0] == old(timers)[i];
        assert timers[..i + 1] == timers[..i] + [timers[i]];
        if timers[i] != 0 {
          if timers[i] <= when {
            Export(ReasonOf(i), timers[i], when);
            timers := timers[i := 0];
          } else if next == 0 || timers[i] <= next {
            next := timers[i];
          }
        }
        i := i + 1;
      }
      assert timers[..i] == timers;
      expireNext := next;
    }

    // BaseFlow.Event: set the idle timer, hand the packet to the record.
    method BaseEvent(p: Packet)
      requires active && table.Holds(this)
      requires |timers| == if table.cfg.idle + table.cfg.active == 0 then 0 else 2
      modifies this`timers, this`expireNext, this`packets, this`active
      modifies table`flows, table`flowlist, table`freelist, table`log
      ensures packets == old(packets) + [p]
      ensures timers == if table.cfg.idle != 0 then old(timers)[TIMER_IDLE := p.time + table.cfg.idle] else old(timers)
      ensures expireNext == Arm(old(expireNext), if table.cfg.idle != 0 then p.time + table.cfg.idle else 0)
      ensures table.cfg.perPacket ==>
                Left(End, p.time, old(table.flows), old(table.flowlist), old(table.freelist), old(table.log))
      ensures !table.cfg.perPacket ==> active && unchanged(table)
    {
      if table.cfg.idle != 0 {
        AddTimer(TIMER_IDLE, p.time + table.cfg.idle);
      }
      packets := packets + [p];
      if table.cfg.perPacket {
        Export(End, p.time, p.time);
      }
    }

    // The flow was exported and removed.
    ghost predicate Left(reason: Reason, now: nat, flows0: map<Key, nat>, flowlist0: seq<Flow?>,
                         freelist0: seq<nat>, log0: seq<Exported>)
      requires key in flows0 && flows0[key] < |flowlist0|
      reads this, table
    {
      && !active && table.Removed(this, flows0, flowlist0, freelist0)
      && table.log == log0 + [Exported(key, id, Record(packets, reason, now, now))]
    }

    // Able to take this packet: between two events, or new.
    ghost predicate Ready(p: Packet, forward: bool)
      reads this
    {
      var cfg, ps := table.cfg, packets + [p];
      && active && Flags() && (packets != [] ==> Ok())
      && firstForward == ps[0].lowToHigh && forward == (p.lowToHigh == firstForward)
      && tcp == (cfg.fivetuple && ps[0].tcp)
      && (packets == [] ==> timers == if cfg.idle + cfg.active == 0 then [] else [0, ActiveTimer(cfg, ps)])
    }

    /** One packet for this flow: the idle timer is set again, the packet joins the record,
        and the record is exported if the packet ends it. */
    method Event(p: Packet, forward: bool)
      requires Ready(p, forward) && table.Holds(this)
      modifies this, table`flows, table`flowlist, table`freelist, table`log
      ensures packets == old(packets) + [p]
      ensures expireNext == Arm(old(expireNext), IdleTimer(table.cfg, packets))
      ensures active == !Ended(table.cfg, packets)
      ensures !active ==> Left(End, p.time, old(table.flows), old(table.flowlist), old(table.freelist), old(table.log))
      ensures active ==> Ok() && unchanged(table)
    {
      hide Tcp, Arm, TcpStep, TcpClosed, ConnectionOver;
      BaseEvent(p);
      assert packets[0] == (old(packets) + [p])[0];
      if !tcp || !active {
        return;
      }
      ghost var s := Tcp(old(packets));
      TcpGrows(old(packets), p);
      ClosedIsOver(packets);
      if p.rst {
        ResetCloses(s, p, forward);
        Export(End, p.time, p.time);
        return;
      }
      var closed := CountFlags(p, forward);
      if closed {
        Export(End, p.time, p.time);
      }
    }

    // The FIN/ACK flags after this packet; whether both directions are closed.
    method CountFlags(p: Packet, forward: bool) returns (closed: bool)
      requires !p.rst
      modifies this`srcFIN, this`dstFIN, this`srcACK, this`dstACK
      ensures TcpState(srcFIN, dstFIN, srcACK, dstACK, false)
           == TcpStep(old(TcpState(srcFIN, dstFIN, srcACK, dstACK, false)), p, forward)
      ensures closed == TcpClosed(TcpState(srcFIN, dstFIN, srcACK, dstACK, false))
    {
      if forward {
        if p.fin {
          srcFIN := true;
        }
        if dstFIN && p.ack {
          dstACK := true;
        }
      } else {
        if p.fin {
          dstFIN := true;
        }
        if srcFIN && p.ack {
          srcACK := true;
        }
      }
      closed := srcFIN && srcACK && dstFIN && dstACK;
    }
  }

  lemma {:induction false} ResetCloses(s: TcpState, p: Packet, forward: bool)
    requires p.rst
    ensures TcpClosed(TcpStep(s, p, forward))
  {
  }

  /** ---- the table's bookkeeping ---- */

  // The records of one key among all exported ones.
  ghost function Done(log: seq<Exported>, k: Key): seq<Record> {
    if log == [] then []
    else
      var last := log[|log| - 1];
      Done(log[..|log| - 1], k) + if last.key == k then [last.record] else []
  }

  lemma {:induction false} DoneAppend(log: seq<Exported>, e: Exported, k: Key)
    ensures Done(log + [e], k) == if e.key == k then Done(log, k) + [e.record] else Done(log, k)
  {
    assert (log + [e])[..|log|] == log;
    assert Done(log, k) + [] == Done(log, k);
  }

  ghost function LogPackets(log: seq<Exported>): nat {
    if log == [] then 0 else LogPackets(log[..|log| - 1]) + |log[|log| - 1].record.packets|
  }

  lemma {:induction false} LogPacketsAppend(log: seq<Exported>, e: Exported)
    ensures LogPackets(log + [e]) == LogPackets(log) + |e.record.packets|
  {
    assert (log + [e])[..|log|] == log;
  }

  ghost function Sum(s: seq<nat>): nat {
    if s == [] then 0 else Sum(s[..|s| - 1]) + s[|s| - 1]
  }

  lemma {:induction false} SumUpdate(s: seq<nat>, i: nat, x: nat)
    requires i < |s|
    ensures Sum(s[i := x]) + s[i] == Sum(s) + x
  {
    var n := |s| - 1;
    if i < n {
      SumUpdate(s[..n], i, x);
      assert s[i := x][..n] == s[..n][i := x];
    } else {
      assert s[i := x][..n] == s[..n];
    }
  }

  lemma {:induction false} SumPrefix(s: seq<nat>, i: nat)
    requires i <= |s|
    ensures i == 0 ==> Sum(s[..i]) == 0
    ensures i < |s| ==> Sum(s[..i + 1]) == Sum(s[..i]) + s[i]
  {
    if i < |s| {
      assert s[..i + 1][..i] == s[..i];
    }
  }

  ghost function Size(f: Flow?): nat
    reads f
  {
    if f == null then 0 else |f.packets|
  }

  // The numbers of packets in the flows of these slots.
  ghost function Sizes(slots: seq<Flow?>): (r: seq<nat>)
    reads slots
    ensures |r| == |slots| && forall i | 0 <= i < |slots| :: r[i] == Size(slots[i])
  {
    if slots == [] then [] else Sizes(slots[..|slots| - 1]) + [Size(slots[|slots| - 1])]
  }

  /** ---- flow ids ---- */

  ghost function LogIds(log: seq<Exported>): multiset<nat> {
    if log == [] then multiset{} else LogIds(log[..|log| - 1]) + multiset{log[|log| - 1].id}
  }

  ghost function IdOf(f: Flow?): multiset<nat> {
    if f == null then multiset{} else multiset{f.id}
  }

  // The ids of the flows in these slots.
  ghost function SlotIds(slots: seq<Flow?>): multiset<nat> {
    if slots == [] then multiset{} else SlotIds(slots[..|slots| - 1]) + IdOf(slots[|slots| - 1])
  }

  // 0 to n - 1, once each.
  ghost function UpTo(n: nat): (ids: multiset<nat>)
    ensures forall x: nat :: ids[x] == if x < n then 1 else 0
  {
    if n == 0 then multiset{} else UpTo(n - 1) + multiset{n - 1}
  }

  lemma {:induction false} LogIdsAppend(log: seq<Exported>, e: Exported)
    ensures LogIds(log + [e]) == LogIds(log) + multiset{e.id}
  {
    assert (log + [e])[..|log|] == log;
  }

  lemma {:induction false} SwapLast(a: multiset<nat>, x: multiset<nat>, b: multiset<nat>, y: multiset<nat>,
                                    last: multiset<nat>)
    requires a + x == b + y
    ensures (a + last) + x == (b + last) + y
  {
    forall z: nat ensures ((a + last) + x)[z] == ((b + last) + y)[z] {
      assert (a + x)[z] == (b + y)[z];
    }
  }

  lemma {:induction false} MoveId(logged: multiset<nat>, id: multiset<nat>, live: multiset<nat>, live': multiset<nat>,
                                  all: multiset<nat>)
    requires logged + live == all && live' + id == live
    ensures (logged + id) + live' == all
  {
    forall z: nat ensures ((logged + id) + live')[z] == (logged + live)[z] {
      assert (live' + id)[z] == live[z];
    }
  }

  lemma {:induction false} NextId(logged: multiset<nat>, live: multiset<nat>, n: nat)
    requires logged + live == UpTo(n)
    ensures logged + (live + multiset{n}) == UpTo(n + 1)
  {
    assert logged + (live + multiset{n}) == (logged + live) + multiset{n};
  }

  lemma {:induction false} SlotIdsPrefix(slots: seq<Flow?>, i: nat)
    requires i <= |slots|
    ensures i == 0 ==> SlotIds(slots[..i]) == multiset{}
    ensures i < |slots| ==> SlotIds(slots[..i + 1]) == SlotIds(slots[..i]) + IdOf(slots[i])
  {
    if i < |slots| {
      assert slots[..i + 1][..i] == slots[..i];
    }
  }

  lemma {:induction false} SlotIdsUpdate(slots: seq<Flow?>, i: nat, f: Flow?)
    requires i < |slots|
    ensures SlotIds(slots[i := f]) + IdOf(slots[i]) == SlotIds(slots) + IdOf(f)
  {
    hide IdOf;
    var n := |slots| - 1;
    if i < n {
      SlotIdsUpdate(slots[..n], i, f);
      assert slots[i := f][..n] == slots[..n][i := f];
      SwapLast(SlotIds(slots[..n][i := f]), IdOf(slots[i]), SlotIds(slots[..n]), IdOf(f), IdOf(slots[n]));
    } else {
      assert slots[i := f][..n] == slots[..n];
    }
  }

  lemma {:induction false} SlotIdsAppend(slots: seq<Flow?>, f: Flow)
    ensures SlotIds(slots + [f]) == SlotIds(slots) + multiset{f.id}
  {
    assert (slots + [f])[..|slots|] == slots;
  }

  // An id in the log or in the slots, and one that is there twice.
  lemma {:induction false} LogIdIn(log: seq<Exported>, i: nat)
    requires i < |log|
    ensures LogIds(log)[log[i].id] >= 1
  {
    if i < |log| - 1 {
      LogIdIn(log[..|log| - 1], i);
    }
  }

  lemma {:induction false} LogIdTwice(log: seq<Exported>, i: nat, j: nat)
    requires i < j < |log| && log[i].id == log[j].id
    ensures LogIds(log)[log[i].id] >= 2
  {
    var n := |log| - 1;
    if j < n {
      LogIdTwice(log[..n], i, j);
    } else {
      LogIdIn(log[..n], i);
    }
  }

  lemma {:induction false} SlotIdIn(slots: seq<Flow?>, i: nat)
    requires i < |slots| && slots[i] != null
    ensures SlotIds(slots)[slots[i].id] >= 1
  {
    if i < |slots| - 1 {
      SlotIdIn(slots[..|slots| - 1], i);
    }
  }

  lemma {:induction false} SlotIdTwice(slots: seq<Flow?>, i: nat, j: nat)
    requires i < j < |slots| && slots[i] != null && slots[j] != null && slots[i].id == slots[j].id
    ensures SlotIds(slots)[slots[i].id] >= 2
  {
    var n := |slots| - 1;
    if j < n {
      SlotIdTwice(slots[..n], i, j);
    } else {
      SlotIdIn(slots[..n], i);
    }
  }

  /** The key map is a bijection onto the slots in use, and the free list names exactly
      the others, once each. */
  ghost predicate Index(flows: map<Key, nat>, slots: seq<Flow?>, free: seq<nat>) {
    && (forall k | k in flows :: flows[k] < |slots| && slots[flows[k]] != null && slots[flows[k]].key == k)
    && (forall i | 0 <= i < |slots| && slots[i] != null :: slots[i].key in flows && flows[slots[i].key] == i)
    && (forall i | 0 <= i < |slots| && slots[i] == null :: i in free)
    && (forall i | i in free :: i < |slots| && slots[i] == null)
    && (forall i, j | 0 <= i < j < |free| :: free[i] != free[j])
  }

  lemma {:induction false} IndexRemove(flows: map<Key, nat>, slots: seq<Flow?>, free: seq<nat>, k: Key)
    requires Index(flows, slots, free) && k in flows
    ensures Index(flows - {k}, slots[flows[k] := null], free + [flows[k]])
    ensures |flows - {k}| == |flows| - 1
  {
    CountRemove(flows, k);
  }

  // Only this slot is new, and it was not in use.
  ghost predicate Placed(slots0: seq<Flow?>, slots: seq<Flow?>, slot: nat) {
    && |slots0| <= |slots|
    && (forall i | 0 <= i < |slots| && i != slot :: i < |slots0| && slots[i] == slots0[i])
    && (slot < |slots0| ==> slots0[slot] == null)
  }

  // A new flow takes the last free slot, or a new one.
  lemma {:induction false} IndexReuse(flows: map<Key, nat>, slots: seq<Flow?>, free: seq<nat>, f: Flow)
    requires Index(flows, slots, free) && f.key !in flows && free != []
    ensures var last := free[|free| - 1];
            last < |slots| && slots[last] == null && Index(flows[f.key := last], slots[last := f], free[..|free| - 1])
  {
    var n := |free| - 1;
    assert free[n] in free;
    forall i | 0 <= i < |slots| && slots[free[n] := f][i] == null ensures i in free[..n] {
      assert i in free;
    }
    forall i | i in free[..n] ensures i in free && i != free[n] {
    }
  }

  lemma {:induction false} IndexExtend(flows: map<Key, nat>, slots: seq<Flow?>, free: seq<nat>, f: Flow)
    requires Index(flows, slots, free) && f.key !in flows && free == []
    ensures Index(flows[f.key := |slots|], slots + [f], free)
  {
  }

  lemma {:induction false} CountRemove(flows: map<Key, nat>, k: Key)
    requires k in flows
    ensures |flows - {k}| == |flows| - 1
  {
    assert (flows - {k}).Keys == flows.Keys - {k};
    assert |(flows - {k}).Keys| == |flows - {k}| && |flows.Keys| == |flows|;
  }

  lemma {:induction false} CountAdd(flows: map<Key, nat>, k: Key, i: nat)
    requires k !in flows
    ensures |flows[k := i]| == |flows| + 1
  {
    assert flows[k := i].Keys == flows.Keys + {k};
    assert |flows[k := i].Keys| == |flows[k := i]| && |flows.Keys| == |flows|;
  }

  class FlowTable {
    const cfg: Config
    var flows: map<Key, nat>
    var flowlist: seq<Flow?>
    var freelist: seq<nat>
    var flowID: nat
    var window: nat
    var eof: bool
    var log: seq<Exported>
    // TableStats
    var packets: nat
    var created: nat
    var peak: nat
    // packets counted but not yet in a record
    ghost var pending: nat

    // This flow is in the table, in the slot the key map names.
    ghost predicate Holds(f: Flow)
      reads this`flows, this`flowlist
    {
      f.key in flows && flows[f.key] < |flowlist| && flowlist[flows[f.key]] == f
    }

    // The key map, slots and free list after f left; while eof is set nothing moves.
    ghost predicate Removed(f: Flow, flows0: map<Key, nat>, flowlist0: seq<Flow?>, freelist0: seq<nat>)
      requires f.key in flows0 && flows0[f.key] < |flowlist0|
      reads this
    {
      if eof then flows == flows0 && flowlist == flowlist0 && freelist == freelist0
      else
        && flows == flows0 - {f.key}
        && flowlist == flowlist0[flows0[f.key] := null]
        && freelist == freelist0 + [flows0[f.key]]
    }

    // The flows in the table.
    ghost function Repr(): set<Flow>
      reads this`flowlist
    {
      set f: Flow | f in flowlist
    }

    // All flows of the table, but for this one, are between two events.
    ghost predicate OkBut(f: Flow?)
      reads this`flowlist, flowlist
    {
      forall i | 0 <= i < |flowlist| && flowlist[i] != null && flowlist[i] != f ::
        flowlist[i].table == this && flowlist[i].Ok()
    }

    // Nothing is lost: flows and packets, but for the packets just taken in.
    ghost predicate Counted()
      reads this`created, this`flowID, this`log, this`flows, this`peak, this`packets,
            this`flowlist, this`pending, flowlist
    {
      && created == flowID == |log| + |flows| && |flows| <= peak
      && packets == LogPackets(log) + Sum(Sizes(flowlist)) + pending
    }

    // Every flow there ever was has its own id: they are the numbers below created, and
    // each of them was exported or is that of a flow in the table.
    ghost predicate Numbered()
      reads this`created, this`log, this`flowlist
    {
      LogIds(log) + SlotIds(flowlist) == UpTo(created)
    }

    ghost predicate Valid()
      reads this, flowlist
    {
      !eof && Index(flows, flowlist, freelist) && OkBut(null) && Counted() && Numbered()
    }

    /** The ids of the flows in the table are below created and pairwise distinct, and so
        are those exported; none is both. */
    lemma {:induction false} IdsAreDistinct(i: nat, j: nat)
      requires Numbered()
      ensures i < |flowlist| && flowlist[i] != null ==> flowlist[i].id < created
      ensures i < j < |flowlist| && flowlist[i] != null && flowlist[j] != null ==> flowlist[i].id != flowlist[j].id
      ensures i < |log| ==> log[i].id < created
      ensures i < j < |log| ==> log[i].id != log[j].id
      ensures i < |log| && j < |flowlist| && flowlist[j] != null ==> log[i].id != flowlist[j].id
    {
      hide LogIds, SlotIds, UpTo, Numbered;
      if i < |log| {
        LogIdIn(log, i);
        IdIsOnce(log[i].id);
        if i < j < |log| && log[i].id == log[j].id {
          LogIdTwice(log, i, j);
        }
      }
      if i < |flowlist| && flowlist[i] != null {
        SlotIdIn(flowlist, i);
        IdIsOnce(flowlist[i].id);
        if i < j < |flowlist| && flowlist[j] != null && flowlist[i].id == flowlist[j].id {
          SlotIdTwice(flowlist, i, j);
        }
      }
      if j < |flowlist| && flowlist[j] != null {
        SlotIdIn(flowlist, j);
      }
    }

    lemma {:induction false} IdIsOnce(id: nat)
      requires Numbered()
      ensures LogIds(log)[id] + SlotIds(flowlist)[id] == if id < created then 1 else 0
    {
      assert (LogIds(log) + SlotIds(flowlist))[id] == UpTo(created)[id];
    }

    /** The table as one key sees it. */
    ghost function View(k: Key): KeyState
      reads this`flows, this`flowlist, this`log, flowlist
    {
      KeyState(
        if k in flows && flows[k] < |flowlist| && flowlist[flows[k]] != null then
          var f := flowlist[flows[k]];
          Some(Live(f.packets, f.expireNext))
        else None,
        Done(log, k))
    }

    constructor (cfg: Config)
      ensures this.cfg == cfg && Valid() && log == [] && flowlist == [] && packets == 0 && window == 0
      ensures forall k :: View(k) == NO_FLOW
    {
      this.cfg := cfg;
      flows, flowlist, freelist, flowID, window, eof, log := map[], [], [], 0, 0, false, [];
      packets, created, peak, pending := 0, 0, 0, 0;
    }

    method Remove(entry: Flow)
      requires Holds(entry)
      modifies `flows, `flowlist, `freelist
      ensures Removed(entry, old(flows), old(flowlist), old(freelist))
    {
      if !eof {
        var slot := flows[entry.key];
        flowlist := flowlist[slot := null];
        freelist := freelist + [slot];
        flows := flows - {entry.key};
      }
    }

    // Every flow but f is as it was.
    twostate predicate OthersSame(f: Flow, slots0: seq<Flow?>)
      reads slots0
    {
      forall i | 0 <= i < |slots0| && slots0[i] != null && slots0[i] != f ::
        var g := slots0[i];
        g.packets == old(g.packets) && g.expireNext == old(g.expireNext) && (old(g.Ok()) ==> g.Ok())
    }

    // f was exported, as the last record of the log, and left.
    twostate predicate LeftWith(f: Flow, slots0: seq<Flow?>)
      requires old(Holds(f))
      reads this, slots0
    {
      && slots0 == old(flowlist) && OthersSame(f, slots0) && !eof && unchanged(`created, `flowID, `peak, `packets)
      && Removed(f, old(flows), old(flowlist), old(freelist))
      && log != [] && log[..|log| - 1] == old(log) && log[|log| - 1].key == f.key
      && log[|log| - 1].id == f.id
      && pending + |log[|log| - 1].record.packets| == old(pending) + |old(f.packets)|
    }

    twostate lemma {:induction false} AfterLeftIndex(f: Flow)
      requires old(Index(flows, flowlist, freelist)) && old(OkBut(f)) && old(Holds(f)) && LeftWith(f, old(flowlist))
      ensures Index(flows, flowlist, freelist) && OkBut(null)
    {
      hide Flow.Ok;
      IndexRemove(old(flows), old(flowlist), old(freelist), f.key);
    }

    twostate lemma {:induction false} AfterLeftCount(f: Flow)
      requires old(Index(flows, flowlist, freelist)) && old(Counted()) && old(Holds(f)) && LeftWith(f, old(flowlist))
      ensures Counted()
    {
      hide Flow.Ok, Sizes;
      CountRemove(old(flows), f.key);
      var slot := old(flows)[f.key];
      SumUpdate(old(Sizes(flowlist)), slot, 0);
      assert Sizes(flowlist) == old(Sizes(flowlist))[slot := 0];
    }

    twostate lemma {:induction false} AfterLeftNumbers(f: Flow)
      requires old(Numbered()) && old(Holds(f)) && LeftWith(f, old(flowlist))
      ensures Numbered()
    {
      hide LogIds, SlotIds, UpTo, OthersSame;
      var slot := old(flows)[f.key];
      SlotIdsUpdate(old(flowlist), slot, null);
      assert flowlist == old(flowlist)[slot := null] && old(flowlist)[slot] == f;
      assert log == old(log) + [log[|log| - 1]];
      LogIdsAppend(old(log), log[|log| - 1]);
      assert SlotIds(flowlist) + multiset{f.id} == old(SlotIds(flowlist)) + multiset{};
      MoveId(old(LogIds(log)), multiset{f.id}, old(SlotIds(flowlist)), SlotIds(flowlist), UpTo(created));
    }

    twostate lemma {:induction false} AfterLeftView(f: Flow)
      requires old(Index(flows, flowlist, freelist)) && old(Holds(f)) && LeftWith(f, old(flowlist))
      ensures forall k ::
                View(k) == if k == f.key then KeyState(None, old(View(k)).done + [log[|log| - 1].record])
                           else old(View(k))
    {
      hide Flow.Ok;
      forall k
        ensures View(k) == if k == f.key then KeyState(None, old(View(k)).done + [log[|log| - 1].record])
                           else old(View(k))
      {
        assert old(Done(log, k)) + [] == old(Done(log, k));
        if k != f.key && k in old(flows) {
          assert old(flows)[k] != old(flows)[f.key];
        }
      }
    }

    // f stays, with more packets or a new expireNext.
    twostate lemma {:induction false} AfterKept(f: Flow)
      requires old(!eof && Index(flows, flowlist, freelist) && OkBut(f) && Counted() && Numbered()) && old(Holds(f))
      requires unchanged(`flows, `flowlist, `freelist, `log, `eof) && f.table == this
      requires unchanged(`created, `flowID, `peak, `packets) && f.Ok() && OthersSame(f, flowlist)
      requires pending + |f.packets| == old(pending) + |old(f.packets)|
      ensures Valid()
      ensures forall k ::
                View(k) == if k == f.key then KeyState(Some(Live(f.packets, f.expireNext)), old(View(k)).done)
                           else old(View(k))
    {
      hide Flow.Ok, Sum, Sizes, LogPackets, Done, Numbered;
      var slot := flows[f.key];
      SumUpdate(old(Sizes(flowlist)), slot, |f.packets|);
      assert Sizes(flowlist) == old(Sizes(flowlist))[slot := |f.packets|];
    }

    // The gate and what is behind it: flow f looks at its timers if it is time.
    method ExpireFlow(f: Flow, when: nat)
      requires Valid() && Holds(f)
      modifies f`timers, f`expireNext, f`active, `flows, `flowlist, `freelist, `log
      ensures Valid()
      ensures forall k :: View(k) == if k == f.key then ExpireAt(cfg, old(View(k)), when) else old(View(k))
      ensures f.active == (f.key in flows)
      ensures flows == if f.active then old(flows) else old(flows) - {f.key}
      ensures flowlist == if f.active then old(flowlist) else old(flowlist)[old(flows[f.key]) := null]
    {
      hide Ended, Sum, Sizes, LogPackets, Done, Index, Counted, Numbered;
      assert f.Ok() && f.table == this;
      ghost var ps, next, done := f.packets, f.expireNext, View(f.key).done;
      if when > f.expireNext {
        f.Expire(when);
        if next != 0 {
          FiringIsExpireAt(cfg, ps, next, f.expireNext, done, when);
        }
        if f.active {
          AfterKept(f);
        } else {
          assert log[..|log| - 1] == old(log);
          AfterLeftIndex(f);
          AfterLeftCount(f);
          AfterLeftNumbers(f);
          AfterLeftView(f);
        }
      }
    }

    // A key without a flow does not expire.
    lemma {:induction false} AbsentKeys(when: nat)
      requires Index(flows, flowlist, freelist) && OkBut(null)
      ensures forall k :: Proper(View(k))
      ensures forall k | k !in flows :: View(k).live == None && ExpireAt(cfg, View(k), when) == View(k)
      ensures forall k, reason | k !in flows :: CloseAt(cfg, View(k), when, reason) == View(k)
    {
    }

    // The flow in this slot looks at its timers, if there is one.
    method ExpireSlot(i: nat, when: nat)
      requires Valid() && i < |flowlist|
      modifies flowlist, `flows, `flowlist, `freelist, `log
      ensures Valid() && |flowlist| == |old(flowlist)| && (flowlist[i] != null ==> flowlist[i] == old(flowlist)[i])
      ensures forall j | 0 <= j < |flowlist| && j != i :: flowlist[j] == old(flowlist)[j]
      ensures forall k | k in flows :: k in old(flows) && flows[k] == old(flows)[k]
      ensures forall k | k in old(flows) && old(flows)[k] != i :: k in flows
      ensures forall k ::
                View(k) == if k in old(flows) && old(flows)[k] == i then ExpireAt(cfg, old(View(k)), when)
                           else old(View(k))
    {
      hide Counted, Numbered, ExpireAt, OkBut, View;
      AbsentKeys(when);
      var elem := flowlist[i];
      if elem != null {
        ExpireFlow(elem, when);
      }
    }

    /** Expire: every flow in the table looks at its timers. */
    method Expire(when: nat)
      requires Valid()
      modifies flowlist, `flows, `flowlist, `freelist, `log
      ensures Valid()
      ensures forall k :: Proper(old(View(k))) && View(k) == ExpireAt(cfg, old(View(k)), when)
      ensures forall f | f in flowlist && f != null :: f in old(flowlist)
    {
      hide Counted, Numbered, ExpireAt, OkBut, View, Index;
      AbsentKeys(when);
      SlotsAreInRange();
      var i := 0;
      while i < |flowlist|
        invariant Valid() && i <= |flowlist| == |old(flowlist)|
        invariant forall j | 0 <= j < |flowlist| && flowlist[j] != null :: flowlist[j] == old(flowlist)[j]
        invariant forall k | k in flows :: k in old(flows) && flows[k] == old(flows)[k]
        invariant forall k | k in old(flows) && old(flows)[k] >= i :: k in flows
        invariant forall k ::
                    View(k) == if k in old(flows) && old(flows)[k] < i then ExpireAt(cfg, old(View(k)), when)
                               else old(View(k))
      {
        ExpireSlot(i, when);
        i := i + 1;
      }
    }

    lemma {:induction false} SlotsAreInRange()
      requires Index(flows, flowlist, freelist)
      ensures forall k | k in flows :: flows[k] < |flowlist|
    {
    }

    lemma {:induction false} HeldView(f: Flow)
      requires Holds(f)
      ensures View(f.key) == KeyState(Some(Live(f.packets, f.expireNext)), Done(log, f.key))
    {
    }

    // A flow of the table, possibly a new one, gets its packet.
    method Deliver(elem: Flow, p: Packet, forward: bool)
      requires !eof && Index(flows, flowlist, freelist) && OkBut(elem) && Counted() && Numbered() && pending > 0
      requires Holds(elem) && elem.table == this && elem.key == p.key && elem.Ready(p, forward)
      modifies elem, `flows, `flowlist, `freelist, `log, `pending
      ensures Valid() && pending == old(pending) - 1
      ensures forall k :: View(k) == if k == p.key then Joined(cfg, old(View(k)), p) else old(View(k))
      ensures forall f | f in flowlist && f != null :: f in old(flowlist)
      ensures if p.key in flows then Holds(elem) else log != [] && log[|log| - 1].id == elem.id
    {
      hide Ended, Flow.Ready, Flow.Ok, Done, Index, Counted, Numbered, View, OkBut;
      HeldView(elem);
      elem.Event(p, forward);
      pending := pending - 1;
      if elem.active {
        AfterKept(elem);
      } else {
        assert log[..|log| - 1] == old(log);
        AfterLeftIndex(elem);
        AfterLeftCount(elem);
        AfterLeftNumbers(elem);
        AfterLeftView(elem);
      }
    }

    // A slot for a new flow, from the free list if there is one.
    method TakeSlot(elem: Flow) returns (slot: nat)
      requires Index(flows, flowlist, freelist) && elem.key !in flows && elem.packets == []
      modifies `flowlist, `freelist
      ensures slot < |flowlist| && flowlist[slot] == elem && Index(flows[elem.key := slot], flowlist, freelist)
      ensures Sum(Sizes(flowlist)) == old(Sum(Sizes(flowlist)))
      ensures SlotIds(flowlist) == old(SlotIds(flowlist)) + multiset{elem.id}
      ensures Placed(old(flowlist), flowlist, slot)
    {
      hide Sum, Sizes, SlotIds, Index;
      var freelen := |freelist|;
      if freelen == 0 {
        IndexExtend(flows, flowlist, freelist, elem);
        SizesExtend(elem);
        SlotIdsAppend(flowlist, elem);
        slot := |flowlist|;
        flowlist := flowlist + [elem];
      } else {
        IndexReuse(flows, flowlist, freelist, elem);
        slot := freelist[freelen - 1];
        SizesReuse(elem, slot);
        SlotIdsUpdate(flowlist, slot, elem);
        freelist := freelist[..freelen - 1];
        flowlist := flowlist[slot := elem];
      }
    }

    // The new flow is counted and gets its slot.
    method Register(elem: Flow)
      requires !eof && Index(flows, flowlist, freelist) && Counted() && elem.key !in flows && elem.packets == []
      requires Numbered() && elem.id == flowID
      modifies `flows, `flowlist, `freelist, `flowID, `created, `peak
      ensures Index(flows, flowlist, freelist) && Counted() && Numbered() && Holds(elem)
      ensures created == old(created) + 1 && peak == if |flows| > old(peak) then |flows| else old(peak)
      ensures flows == old(flows)[elem.key := flows[elem.key]]
      ensures Placed(old(flowlist), flowlist, flows[elem.key])
    {
      hide Sum, Sizes, LogPackets, LogIds, SlotIds, UpTo, Index, Placed;
      NextId(LogIds(log), SlotIds(flowlist), created);
      flowID := flowID + 1;
      created := created + 1;
      var slot := TakeSlot(elem);
      CountAdd(flows, elem.key, slot);
      flows := flows[elem.key := slot];
      if |flows| > peak {
        peak := |flows|;
      }
    }

    method Install(elem: Flow)
      requires Valid() && elem.key !in flows && elem !in flowlist && elem.packets == [] && elem.id == flowID
      modifies `flows, `flowlist, `freelist, `flowID, `created, `peak
      ensures !eof && Index(flows, flowlist, freelist) && OkBut(elem) && Counted() && Numbered() && Holds(elem)
      ensures created == old(created) + 1
      ensures forall k | k != elem.key :: View(k) == old(View(k))
      ensures View(elem.key) == KeyState(Some(Live([], elem.expireNext)), old(View(elem.key)).done)
      ensures forall f | f in flowlist && f != null && f != elem :: f in old(flowlist)
    {
      hide Flow.Ok, Counted, Numbered, Index, View, Placed, OkBut;
      Register(elem);
      AfterInstallView(elem);
      AfterInstallOk(elem);
    }

    twostate lemma {:induction false} AfterInstallOk(elem: Flow)
      requires old(OkBut(null)) && Holds(elem) && Placed(old(flowlist), flowlist, flows[elem.key])
      requires forall i | 0 <= i < |old(flowlist)| && old(flowlist)[i] != null :: unchanged(old(flowlist)[i])
      ensures OkBut(elem)
      ensures forall f | f in flowlist && f != null && f != elem :: f in old(flowlist)
    {
    }

    twostate lemma {:induction false} AfterInstallView(elem: Flow)
      requires old(Index(flows, flowlist, freelist)) && Holds(elem) && elem.packets == [] && elem.key !in old(flows)
      requires flows == old(flows)[elem.key := flows[elem.key]] && unchanged(`log)
      requires Placed(old(flowlist), flowlist, flows[elem.key])
      requires forall i | 0 <= i < |old(flowlist)| && old(flowlist)[i] != null :: unchanged(old(flowlist)[i])
      ensures forall k | k != elem.key :: View(k) == old(View(k))
      ensures View(elem.key) == KeyState(Some(Live([], elem.expireNext)), old(View(elem.key)).done)
    {
      hide Done;
    }

    lemma {:induction false} SizesReuse(elem: Flow, slot: nat)
      requires elem.packets == [] && slot < |flowlist| && flowlist[slot] == null
      ensures Sum(Sizes(flowlist[slot := elem])) == Sum(Sizes(flowlist))
    {
      SumUpdate(Sizes(flowlist), slot, 0);
      assert Sizes(flowlist[slot := elem]) == Sizes(flowlist)[slot := 0];
    }

    lemma {:induction false} SizesExtend(elem: Flow)
      requires elem.packets == []
      ensures Sum(Sizes(flowlist + [elem])) == Sum(Sizes(flowlist))
    {
      assert (flowlist + [elem])[..|flowlist|] == flowlist;
    }

    /** The packet starts a flow, whose id is the number of flows before it; it is in the
        table now, or was exported at once. */
    method Create(p: Packet)
      requires Valid() && p.key !in flows && pending > 0
      modifies `flows, `flowlist, `freelist, `log, `pending, `flowID, `created, `peak
      ensures Valid() && pending == old(pending) - 1
      ensures forall k :: View(k) == if k == p.key then Joined(cfg, old(View(k)), p) else old(View(k))
      ensures forall f | f in flowlist && f != null :: f in old(flowlist) || fresh(f)
      ensures created == old(created) + 1
      ensures if p.key in flows then flows[p.key] < |flowlist| && flowlist[flows[p.key]] != null
                                     && flowlist[flows[p.key]].id == old(created)
              else log != [] && log[|log| - 1].id == old(created)
    {
      hide Sum, Sizes, LogPackets, LogIds, SlotIds, Done, Index, Numbered, OkBut, View;
      AbsentKeys(p.time);
      var elem := new Flow.Init(this, p, flowID);
      Install(elem);
      assert [] + [p] == [p];
      Deliver(elem, p, true);
    }

    // At the end of the input or of a window: the flow looks at its timers, and is
    // exported for this reason if it is still active.
    method CloseFlow(elem: Flow, now: nat, reason: Reason)
      requires eof && Holds(elem) && elem.table == this && elem.Ok()
      modifies elem`timers, elem`expireNext, elem`active, `flows, `flowlist, `freelist, `log
      ensures unchanged(`flows, `flowlist, `freelist)
      ensures log == old(log)
              + [Exported(elem.key, elem.id, ClosingRecord(cfg, old(Live(elem.packets, elem.expireNext)), now, reason))]
    {
      hide Ended;
      ghost var ps, next := elem.packets, elem.expireNext;
      if now > elem.expireNext {
        elem.Expire(now);
        if next != 0 {
          FiringIsExpireAt(cfg, ps, next, elem.expireNext, [], now);
        }
      }
      if elem.active {
        elem.Export(reason, now, now);
      }
    }

    lemma {:induction false} LiveFlowsHavePackets()
      requires OkBut(null)
      ensures forall i | 0 <= i < |flowlist| && flowlist[i] != null :: flowlist[i].packets != []
    {
    }

    // What closing the flows of these slots exports.
    ghost function Closing(slots: seq<Flow?>, now: nat, reason: Reason): seq<Exported>
      requires forall i | 0 <= i < |slots| && slots[i] != null :: slots[i].packets != []
      reads slots
    {
      if slots == [] then []
      else
        var f := slots[|slots| - 1];
        Closing(slots[..|slots| - 1], now, reason)
        + if f == null then []
          else [Exported(f.key, f.id, ClosingRecord(cfg, Live(f.packets, f.expireNext), now, reason))]
    }

    // While eof is set the flows go one by one, and nothing moves.
    method CloseFlows(now: nat, reason: Reason)
      requires eof && Index(flows, flowlist, freelist) && OkBut(null)
      modifies flowlist, `flows, `flowlist, `freelist, `log
      ensures unchanged(`flows, `flowlist, `freelist)
      ensures log == old(log) + old(Closing(flowlist, now, reason))
    {
      hide CloseAt, ClosingRecord, Flow.Ok;
      LiveFlowsHavePackets();
      var i := 0;
      while i < |flowlist|
        invariant i <= |flowlist| && unchanged(`flows, `flowlist, `freelist)
        invariant forall j | i <= j < |flowlist| && flowlist[j] != null :: unchanged(flowlist[j])
        invariant log == old(log) + old(Closing(flowlist[..i], now, reason))
      {
        var elem := flowlist[i];
        assert flowlist[..i + 1][..i] == flowlist[..i];
        if elem != null {
          CloseFlow(elem, now, reason);
        }
        i := i + 1;
      }
      assert flowlist[..i] == flowlist;
    }

    lemma {:induction false} ClosingDone(now: nat, reason: Reason, i: nat, k: Key)
      requires Index(flows, flowlist, freelist) && OkBut(null) && i <= |flowlist|
      ensures Done(log + Closing(flowlist[..i], now, reason), k)
           == Done(log, k) + if k in flows && flows[k] < i then
                               var f := flowlist[flows[k]];
                               [ClosingRecord(cfg, Live(f.packets, f.expireNext), now, reason)]
                             else []
    {
      hide CloseAt, ClosingRecord, Flow.Ok, OkBut, Done;
      LiveFlowsHavePackets();
      if i == 0 {
        assert log + [] == log && Done(log, k) + [] == Done(log, k);
      } else {
        ClosingDone(now, reason, i - 1, k);
        var before := Closing(flowlist[..i - 1], now, reason);
        assert flowlist[..i][..i - 1] == flowlist[..i - 1];
        if flowlist[i - 1] == null {
          assert before + [] == before;
        } else {
          var e := Closing(flowlist[..i], now, reason)[|before|];
          assert log + Closing(flowlist[..i], now, reason) == (log + before) + [e];
          DoneAppend(log + before, e, k);
          assert Done(log, k) + [] == Done(log, k);
        }
      }
    }

    lemma {:induction false} ClosingPackets(now: nat, reason: Reason, i: nat)
      requires OkBut(null) && i <= |flowlist|
      ensures LogPackets(log + Closing(flowlist[..i], now, reason)) == LogPackets(log) + Sum(Sizes(flowlist)[..i])
    {
      hide CloseAt, ClosingRecord, Flow.Ok, OkBut, LogPackets, Sum, Sizes;
      LiveFlowsHavePackets();
      if i == 0 {
        assert log + [] == log;
        SumPrefix(Sizes(flowlist), 0);
      } else {
        ClosingPackets(now, reason, i - 1);
        SumPrefix(Sizes(flowlist), i - 1);
        var before, f := Closing(flowlist[..i - 1], now, reason), flowlist[i - 1];
        assert flowlist[..i][..i - 1] == flowlist[..i - 1];
        if f == null {
          assert before + [] == before;
        } else {
          var e := Closing(flowlist[..i], now, reason)[|before|];
          assert log + Closing(flowlist[..i], now, reason) == (log + before) + [e];
          LogPacketsAppend(log + before, e);
          CloseAtIs(cfg, KeyState(Some(Live(f.packets, f.expireNext)), []), now, reason);
        }
      }
    }

    lemma {:induction false} ClosingStep(now: nat, reason: Reason, i: nat)
      requires OkBut(null) && i < |flowlist|
      ensures forall j | 0 <= j < |flowlist| && flowlist[j] != null :: flowlist[j].packets != []
      ensures var before, all := Closing(flowlist[..i], now, reason), Closing(flowlist[..i + 1], now, reason);
              if flowlist[i] == null then all == before
              else |all| == |before| + 1 && all[..|before|] == before && all[|before|].id == flowlist[i].id
    {
      hide CloseAt, ClosingRecord, Flow.Ok, OkBut;
      LiveFlowsHavePackets();
      assert flowlist[..i + 1][..i] == flowlist[..i];
    }

    lemma {:induction false} ClosingIds(now: nat, reason: Reason, i: nat)
      requires OkBut(null) && i <= |flowlist|
      ensures forall j | 0 <= j < |flowlist| && flowlist[j] != null :: flowlist[j].packets != []
      ensures LogIds(log + Closing(flowlist[..i], now, reason)) == LogIds(log) + SlotIds(flowlist[..i])
    {
      hide Flow.Ok, OkBut, LogIds, SlotIds, CloseAt, ClosingRecord, IdOf;
      LiveFlowsHavePackets();
      if i == 0 {
        assert Closing(flowlist[..0], now, reason) == [] && log + [] == log;
        SlotIdsPrefix(flowlist, 0);
      } else {
        ClosingIds(now, reason, i - 1);
        SlotIdsPrefix(flowlist, i - 1);
        ClosingStep(now, reason, i - 1);
        OneMoreId(Closing(flowlist[..i - 1], now, reason), Closing(flowlist[..i], now, reason), flowlist[i - 1],
                  SlotIds(flowlist[..i - 1]));
      }
    }

    lemma {:induction false} OneMoreId(before: seq<Exported>, all: seq<Exported>, f: Flow?, ids: multiset<nat>)
      requires LogIds(log + before) == LogIds(log) + ids
      requires if f == null then all == before
               else |all| == |before| + 1 && all[..|before|] == before && all[|before|].id == f.id
      ensures LogIds(log + all) == LogIds(log) + (ids + IdOf(f))
    {
      hide LogIds;
      if f != null {
        assert log + all == (log + before) + [all[|before|]];
        LogIdsAppend(log + before, all[|before|]);
      }
    }

    // The keys with a slot below i.
    ghost function KeysBelow(i: nat): set<Key>
      reads this`flows
    {
      set k | k in flows && flows[k] < i
    }

    lemma {:induction false} KeysBelowStep(i: nat)
      requires Index(flows, flowlist, freelist) && i < |flowlist|
      ensures flowlist[i] == null ==> KeysBelow(i + 1) == KeysBelow(i)
      ensures flowlist[i] != null ==> flowlist[i].key !in KeysBelow(i)
      ensures flowlist[i] != null ==> KeysBelow(i + 1) == KeysBelow(i) + {flowlist[i].key}
    {
    }

    // One record for each key.
    lemma {:induction false} ClosingCount(now: nat, reason: Reason, i: nat)
      requires Index(flows, flowlist, freelist) && OkBut(null) && i <= |flowlist|
      ensures |Closing(flowlist[..i], now, reason)| == |KeysBelow(i)|
    {
      hide CloseAt, ClosingRecord, Flow.Ok, OkBut;
      LiveFlowsHavePackets();
      if i == 0 {
        assert KeysBelow(i) == {};
      } else {
        hide Index, KeysBelow, Closing;
        ClosingCount(now, reason, i - 1);
        KeysBelowStep(i - 1);
        ClosingStep(now, reason, i - 1);
      }
    }

    // What a key sees of it.
    lemma {:induction false} ClosingView(now: nat, reason: Reason)
      requires Index(flows, flowlist, freelist) && OkBut(null)
      ensures forall k :: Proper(View(k))
      ensures forall k ::
                CloseAt(cfg, View(k), now, reason) == KeyState(None, Done(log + Closing(flowlist, now, reason), k))
      ensures |Closing(flowlist, now, reason)| == |flows|
      ensures LogPackets(log + Closing(flowlist, now, reason)) == LogPackets(log) + Sum(Sizes(flowlist))
      ensures LogIds(log + Closing(flowlist, now, reason)) == LogIds(log) + SlotIds(flowlist)
    {
      hide CloseAt, ClosingRecord, Closing, Flow.Ok, OkBut, Done, LogPackets, LogIds, SlotIds, Sum, Sizes;
      LiveFlowsHavePackets();
      assert flowlist[..|flowlist|] == flowlist && Sizes(flowlist)[..|flowlist|] == Sizes(flowlist);
      forall k
        ensures Proper(View(k))
        ensures CloseAt(cfg, View(k), now, reason) == KeyState(None, Done(log + Closing(flowlist, now, reason), k))
      {
        ClosingDone(now, reason, |flowlist|, k);
        if k in flows {
          CloseAtIs(cfg, View(k), now, reason);
        } else {
          AbsentKeys(now);
          assert Done(log, k) + [] == Done(log, k);
        }
      }
      ClosingCount(now, reason, |flowlist|);
      assert KeysBelow(|flowlist|) == flows.Keys && |flows.Keys| == |flows|;
      ClosingPackets(now, reason, |flowlist|);
      ClosingIds(now, reason, |flowlist|);
    }

    twostate lemma {:induction false} EmptyIsValid()
      requires old(Counted()) && old(Numbered()) && unchanged(`created, `flowID, `peak, `packets, `pending)
      requires flows == map[] && flowlist == [] && freelist == [] && !eof && |log| == |old(log)| + |old(flows)|
      requires LogPackets(log) == old(LogPackets(log)) + old(Sum(Sizes(flowlist)))
      requires LogIds(log) == old(LogIds(log)) + old(SlotIds(flowlist))
      ensures Valid()
    {
      hide LogPackets, LogIds;
      NoFlows();
      assert LogIds(log) + multiset{} == LogIds(log);
    }

    /** EOF, and the expiry of a window: every flow is exported, and the table is empty. */
    method CloseAll(now: nat, reason: Reason)
      requires Valid()
      modifies flowlist, `flows, `flowlist, `freelist, `log, `eof
      ensures Valid() && flows == map[] && flowlist == []
      ensures forall k :: View(k) == CloseAt(cfg, old(View(k)), now, reason)
    {
      hide Flow.Ok, OkBut, Sum, Sizes, Done, LogPackets, LogIds, SlotIds, Counted, Numbered, CloseAt, Closing, Index;
      LiveFlowsHavePackets();
      eof := true;
      ClosingView(now, reason);
      CloseFlows(now, reason);
      flows := map[];
      flowlist := [];
      freelist := [];
      eof := false;
      EmptyIsValid();
    }

    method EOF(now: nat)
      requires Valid()
      modifies flowlist, `flows, `flowlist, `freelist, `log, `eof
      ensures Valid() && flows == map[] && flowlist == []
      ensures forall k :: View(k) == CloseAt(cfg, old(View(k)), now, ForcedEnd)
    {
      CloseAll(now, ForcedEnd);
    }

    lemma {:induction false} IsReady(f: Flow, p: Packet)
      requires f.Ok()
      ensures f.Ready(p, p.lowToHigh == f.firstForward)
    {
      assert (f.packets + [p])[0] == f.packets[0];
    }

    // The packet's flow looks at its timers; the packet joins it or starts a new one.
    method Handle(p: Packet)
      requires Valid() && pending > 0
      modifies flowlist, `flows, `flowlist, `freelist, `log, `pending, `flowID, `created, `peak
      ensures Valid() && pending == old(pending) - 1
      ensures forall k | k != p.key :: View(k) == old(View(k))
      ensures Proper(old(View(p.key))) && View(p.key) == EventAt(cfg, old(View(p.key)), p)
      ensures forall f | f in flowlist && f != null :: f in old(flowlist) || fresh(f)
    {
      hide Counted, Numbered, ExpireAt, Flow.Ok, Joined, View;
      AbsentKeys(p.time);
      var ok := p.key in flows;
      if ok {
        var elem := flowlist[flows[p.key]];
        ExpireFlow(elem, p.time);
        ok := elem.active;
        if ok {
          IsReady(elem, p);
          Deliver(elem, p, p.lowToHigh == elem.firstForward);
        }
      }
      if !ok {
        Create(p);
      }
    }

    // A packet of a new window closes all flows first.
    method EndWindow(p: Packet)
      requires Valid()
      modifies flowlist, `flows, `flowlist, `freelist, `log, `eof, `window
      ensures Valid() && window == WindowOf(cfg, old(window), LazyTimers.Event(p))
      ensures flowlist == [] || flowlist == old(flowlist)
      ensures forall k :: Proper(old(View(k))) && View(k) == Windowed(cfg, old(View(k)), old(window), p)
    {
      hide Index, OkBut, View, CloseAt, Sum, Sizes, LogPackets, LogIds, SlotIds, Flow.Ok;
      AbsentKeys(p.time);
      if cfg.window {
        if p.window != window {
          CloseAll(p.time, End);
          window := p.window;
        }
      }
    }

    /** Event: one packet. For its key it is EventAt; no other key sees it, but for the
        end of a window, which closes all flows first. */
    method Event(p: Packet)
      requires Valid()
      modifies this, flowlist
      ensures Valid() && pending == old(pending) && packets == old(packets) + 1
      ensures window == WindowOf(cfg, old(window), LazyTimers.Event(p))
      ensures forall k :: Proper(old(View(k)))
      ensures forall f | f in flowlist && f != null :: f in old(flowlist) || fresh(f)
      ensures forall k :: View(k) == StepAt(cfg, old(View(k)), old(window), LazyTimers.Event(p), k)
    {
      hide Index, OkBut, View, Windowed, CloseAt, EventAt, Sum, Sizes, LogPackets, LogIds, SlotIds, Numbered, Flow.Ok;
      AbsentKeys(p.time);
      packets := packets + 1;
      pending := pending + 1;
      EndWindow(p);
      Handle(p);
    }

    lemma {:induction false} NoFlows()
      requires flowlist == []
      ensures Sum(Sizes(flowlist)) == 0 && SlotIds(flowlist) == multiset{} && OkBut(null) && Index(map[], flowlist, [])
    {
    }
  }

  // Firing the timers by id is what one key sees as ExpireAt.
  lemma {:induction false} FiringIsExpireAt(cfg: Config, ps: seq<Packet>, next: nat, next': nat, done: seq<Record>,
                                            when: nat)
    requires ps != [] && next != 0 && when > next
    ensures var timers := TimersOf(cfg, ps);
            var i := FirstDue(timers, when);
            var s' := ExpireAt(cfg, KeyState(Some(Live(ps, next)), done), when);
            if i == |timers| then Earliest(next', timers) ==> s' == KeyState(Some(Live(ps, next')), done)
            else s' == KeyState(None, done + [Record(ps, ReasonOf(i), timers[i], when)])
  {
    var timers := TimersOf(cfg, ps);
    if timers != [] {
      assert timers[1..] == [ActiveTimer(cfg, ps)] && timers[1..][1..] == [];
    }
  }
}
