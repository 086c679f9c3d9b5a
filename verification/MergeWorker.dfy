/** The two-way merger of the export pipeline, on heap records and channels. */
module MergeWorker {
  import opened ExportOrder
  import opened ExportRecords

  /** One of the three head/tail pairs of mergeTreeQueues. */
  class RecordQueue {
    var head: ExportRecord?
    var tail: ExportRecord?
    ghost var q: seq<Cell>      // the records from head on

    ghost predicate Valid()
      reads this`head, this`q, Recs(q)
    {
      && head == (if q == [] then null else q[0].rec)
      && Linked(q) && Snapshot(q)
    }

    // Append may be called: tail really is the last record.
    ghost predicate TailValid()
      reads this`tail, this`q
    {
      if q == [] then tail == null else tail == q[|q| - 1].rec
    }

    constructor ()
      ensures Valid() && TailValid() && q == []
    {
      head, tail, q := null, null, [];
    }

    // tail is on a record that is not in the list any more, or never was.
    ghost predicate TailStale()
      reads this`tail, this`q
    {
      tail != null && tail !in Recs(q)
    }

    ghost function Tails(): set<ExportRecord>
      reads this`tail
    {
      if tail == null then {} else {tail}
    }

    lemma TailIsIn()
      requires TailValid()
      ensures Tails() <= Recs(q) && (tail == null <==> q == [])
    {
    }

    // Link a message behind tail. If tail is stale, nothing on the list leads to it.
    method Append(elem: ExportRecord, ghost msg: seq<Cell>)
      requires Valid() && IsMessage(elem, msg) && Recs(msg) !! Recs(q)
      requires TailValid() || (TailStale() && tail !in Recs(msg))
      modifies this, Tails()`next
      ensures Valid() && tail == elem.prev && IsMessage(elem, msg)
      ensures q == if old(TailValid()) then old(q) + msg else old(q)
    {
      hide Recs, Snapshot;
      ghost var s, good := q, TailValid();
      RecsAppend(s, msg);
      if good {
        TailIsIn();
      }
      assert allocated(Recs(msg)) && allocated(Recs(s));
      if tail == null {
        head, tail := elem, elem.prev;
        assert s + msg == msg;
      } else {
        tail.next := elem;
        tail := elem.prev;
        if good {
          assert Linked(msg);
          JoinIsLinked(s, msg);
        }
      }
      if good {
        SnapshotJoin(s, msg);
        q := s + msg;
      }
    }

    predicate HasTwoElements()
      reads this`head, if head == null then {} else {head}
    {
      head != null && head.next != null
    }

    lemma HeadIs()
      requires Valid()
      ensures head != null <==> q != []
      ensures HasTwoElements() <==> |q| >= 2
      ensures q != [] ==> IsMessage(head, q) && head.Key() == q[0].key
    {
    }

    lemma OneMessage()
      requires q != [] && tail == q[0].rec.prev
      ensures PrevIsTail(q) <==> TailValid()
    {
    }

    method Clear()
      modifies this
      ensures Valid() && TailValid() && q == []
    {
      head, tail, q := null, null, [];
    }

    method Pop() returns (elem: ExportRecord)
      requires Valid() && q != []
      modifies this`head, this`q
      ensures Valid() && elem == old(q)[0].rec && q == old(q)[1..]
      ensures elem !in Recs(q) && Recs(q) + {elem} == old(Recs(q))
      ensures Item(elem, elem.Key()) == old(q)[0]
    {
      LinkedTail(q);
      elem := head;
      head := elem.next;
      assert q == [q[0]] + q[1..];
      q := q[1..];
    }

    // Put a detached record at the end; head.prev follows the tail.
    method Push(elem: ExportRecord)
      requires Valid() && TailValid() && (q != [] ==> PrevIsTail(q))
      requires elem !in Recs(q)
      modifies this, Recs(q)`next, Recs(q)`prev, elem`next, elem`prev
      ensures Valid() && TailValid() && PrevIsTail(q)
      ensures q == old(q) + [Item(elem, elem.Key())]
      ensures Recs(q) == old(Recs(q)) + {elem}
    {
      ghost var s := q;
      elem.next := null;
      if head == null {
        elem.prev := elem;
        head := elem;
      } else {
        elem.prev := null;
        tail.next := elem;
        head.prev := elem;
      }
      tail := elem;
      ghost var x := Item(elem, elem.Key());
      q := s + [x];
      RecsAppend(s, [x]);
      assert Linked([x]) && Snapshot([x]);
      assert forall i | 0 <= i < |s| :: s[i].rec.next == After(s + [x], i);
      JoinIsLinked(s, [x]);
    }
  }

  // The prev fields of these records are the given ones.
  ghost predicate PrevsAre(s: set<ExportRecord>, prevs: map<ExportRecord, ExportRecord?>)
    reads s`prev
  {
    forall r | r in s :: r in prevs && r.prev == prevs[r]
  }

  ghost function Prevs(s: set<ExportRecord>): (prevs: map<ExportRecord, ExportRecord?>)
    reads s`prev
    ensures PrevsAre(s, prevs) && prevs.Keys == s
  {
    map r | r in s :: r.prev
  }

  // With these prev fields, the head of the message points to its tail.
  ghost predicate WasTight(prevs: map<ExportRecord, ExportRecord?>, s: seq<Cell>) {
    s != [] && s[0].rec in prevs && prevs[s[0].rec] == s[|s| - 1].rec
  }

  /** One input of a merger: the messages that will still arrive on its channel
      before it is closed, and the queue of records already received from it. */
  class MergeInput {
    const queue: RecordQueue
    var chan: seq<ExportRecord>
    ghost var fut: seq<seq<Cell>>       // contents of the messages in `chan`
    // in the last message this side sends, head.prev is the tail
    ghost const lastTight: bool
    // the prev fields as they arrive; the merger does not change them on this side
    ghost const prevs: map<ExportRecord, ExportRecord?>

    // The records this side will still contribute, in order.
    ghost function Pending(): seq<Cell>
      reads this, queue
    {
      queue.q + Flat(fut)
    }

    ghost function Holds(): set<ExportRecord>
      reads this, queue
    {
      Recs(queue.q) + Owned(fut)
    }

    ghost predicate Valid()
      reads this, queue, Holds()
    {
      && queue.Valid() && Stream(chan, fut)
      && Recs(queue.q) !! Owned(fut) && PrevsAre(Holds(), prevs)
      && (fut != [] ==> queue.TailValid() && (lastTight <==> EndsTight(fut)))
      && (fut == [] && queue.q != [] ==> (lastTight <==> queue.TailValid()))
    }

    constructor (chan: seq<ExportRecord>, ghost msgs: seq<seq<Cell>>)
      requires Stream(chan, msgs)
      ensures Valid() && fresh(queue) && this.chan == chan && queue.q == []
      ensures Pending() == Flat(msgs) && Holds() == Owned(msgs) && fut == msgs
      ensures (lastTight <==> EndsTight(msgs)) && prevs == Prevs(Owned(msgs))
    {
      hide PrevIsTail, EndsTight;
      assert allocated(Owned(msgs));
      lastTight, prevs := EndsTight(msgs), Prevs(Owned(msgs));
      queue := new RecordQueue();
      this.chan, fut := chan, msgs;
    }

    // The next message, and what it leaves.
    lemma NextMessage()
      requires Valid() && chan != []
      ensures fut != [] && IsMessage(chan[0], fut[0]) && Stream(chan[1..], fut[1..]) && queue.TailValid()
      ensures Owned(fut) == Recs(fut[0]) + Owned(fut[1..]) && Recs(fut[0]) !! Owned(fut[1..])
      ensures Recs(fut[0]) !! Recs(queue.q) && Recs(queue.q + fut[0]) == Recs(queue.q) + Recs(fut[0])
      ensures fut[0] != [] && fut[0][0].rec == chan[0]
      ensures PrevIsTail(fut[0]) <==> chan[0].prev == fut[0][|fut[0]| - 1].rec
      ensures fut[1..] != [] ==> PrevIsTail(fut[0])
      ensures EndsTight(fut) <==> if fut[1..] == [] then PrevIsTail(fut[0]) else EndsTight(fut[1..])
      ensures Flat(fut) == fut[0] + Flat(fut[1..])
    {
      RecsAppend(queue.q, fut[0]);
    }

    // Receive from the channel and append; false if the channel is closed.
    method Receive() returns (ok: bool)
      requires Valid()
      modifies this, queue, Recs(queue.q)`next
      ensures Valid() && Pending() == old(Pending()) && Holds() == old(Holds())
      ensures ok <==> old(chan) != []
      ensures if ok then queue.q != [] && chan == old(chan)[1..] else chan == [] && queue.q == old(queue.q)
      ensures ok ==> old(fut) != [] && fut == old(fut)[1..] && queue.q == old(queue.q) + old(fut)[0]
      ensures ok && old(queue.q) == [] ==> (PrevIsTail(queue.q) <==> queue.TailValid())
      ensures !ok ==> fut == old(fut)
    {
      hide Carries, Linked, Snapshot, IsMessage, Recs, Owned, Flat, RecordQueue.Valid, PrevIsTail;
      if chan == [] {
        return false;
      }
      NextMessage();
      queue.TailIsIn();
      ghost var m, rest, before := fut[0], fut[1..], queue.q;
      var elem := chan[0];
      assert allocated(Owned(rest)) && allocated(Recs(m)) && allocated(Recs(before));
      chan := chan[1..];
      fut := rest;
      queue.Append(elem, m);
      assert before + (m + Flat(rest)) == (before + m) + Flat(rest);
      if before == [] {
        queue.OneMessage();
      }
      return true;
    }

    // Detach the head of the queue.
    method Pop() returns (elem: ExportRecord)
      requires Valid() && queue.q != [] && (|queue.q| >= 2 || fut == [])
      modifies queue
      ensures Valid() && chan == old(chan) && fut == old(fut)
      ensures elem == old(queue.q)[0].rec && queue.q == old(queue.q)[1..] && Pending() == old(Pending())[1..]
      ensures elem !in Holds() && Holds() + {elem} == old(Holds())
      ensures Item(elem, elem.Key()) == old(queue.q)[0]
    {
      assert allocated(Owned(fut));
      elem := queue.Pop();
    }
  }

  // Two inputs of one record each, one input of one message and an empty one, or others.
  datatype Plan = OneEach | OnlyFirst | OnlySecond | Any

  ghost function PlanFor(ma: seq<seq<Cell>>, mb: seq<seq<Cell>>): Plan {
    if |ma| == 1 && mb == [] then OnlyFirst
    else if ma == [] && |mb| == 1 then OnlySecond
    else if |Flat(ma)| == 1 && |Flat(mb)| == 1 then OneEach
    else Any
  }

  /** How a merger ends: one side was exhausted, and nothing or the rest of the other one
      followed; or both channels were closed, and records of both sides or of one were left. */
  datatype Ending = Exhausted | Followed(side: int) | Joined | Alone(side: int, left: seq<Cell>)

  /** mergeTreeWorker: merges the streams of two channels into the result channel. */
  class MergeTreeWorker {
    const order: SortType
    const in0: MergeInput
    const in1: MergeInput
    const out: RecordQueue
    var result: seq<ExportRecord>       // messages sent on the result channel
    var closed: bool
    ghost var sent: seq<seq<Cell>>      // contents of the sent messages
    ghost const target: seq<Cell>
    ghost const plan: Plan

    function Input(which: int): MergeInput {
      if which == 0 then in0 else in1
    }

    // Nothing is lost, repeated or reordered: what was sent, what is merged but not
    // sent and what is still to be merged add up to `target` at every moment.
    ghost predicate Balanced()
      reads this, in0, in1, in0.queue, in1.queue, out
    {
      Flat(sent) + out.q + Merge(order, in0.Pending(), in1.Pending()) == target
    }

    // The records this worker may touch; sent ones are no longer among them.
    ghost function Holds(): set<ExportRecord>
      reads this, in0, in1, in0.queue, in1.queue, out
    {
      in0.Holds() + in1.Holds() + Recs(out.q)
    }

    ghost predicate Shape()
      reads this, in0, in1, in0.queue, in1.queue, out, Holds(), Owned(sent)
    {
      && in0 != in1 && in0.queue != in1.queue && in0.queue != out && in1.queue != out
      && in0.Valid() && in1.Valid() && out.Valid() && out.TailValid()
      && (out.q != [] ==> PrevIsTail(out.q))
      && in0.Holds() !! in1.Holds() && Recs(out.q) !! in0.Holds() && Recs(out.q) !! in1.Holds()
      && Carries(result, sent, |sent|) && Owned(sent) !! Holds()
    }

    ghost predicate Core()
      reads this, in0, in1, in0.queue, in1.queue, out, Holds(), Owned(sent)
    {
      Shape() && Balanced()
    }

    ghost predicate Inv()
      reads this, in0, in1, in0.queue, in1.queue, out, Holds(), Owned(sent)
    {
      Core() && Planned()
    }

    // What is still to be done if only side a has something, in one message.
    ghost predicate Lone(a: MergeInput, b: MergeInput)
      reads a, b, a.queue, b.queue, Recs(a.queue.q)
    {
      && b.queue.q == [] && b.fut == []
      && if a.queue.q == [] then |a.fut| == 1 else a.fut == [] && (PrevIsTail(a.queue.q) <==> a.lastTight)
    }

    // Inputs whose end does not depend on the schedule: nothing is done with them before
    // both channels are closed or the other side is exhausted.
    ghost predicate Planned()
      reads this, in0, in1, in0.queue, in1.queue, out, Recs(in0.queue.q), Recs(in1.queue.q)
    {
      plan != Any ==>
        && sent == [] && out.q == []
        && match plan
           case OneEach => |in0.Pending()| == 1 && |in1.Pending()| == 1
           case OnlyFirst => Lone(in0, in1)
           case OnlySecond => Lone(in1, in0)
           case Any => true
    }

    constructor (order: SortType, a: seq<ExportRecord>, b: seq<ExportRecord>,
        ghost ma: seq<seq<Cell>>, ghost mb: seq<seq<Cell>>)
      requires Stream(a, ma) && Stream(b, mb) && Owned(ma) !! Owned(mb)
      ensures Inv() && fresh(in0) && fresh(in1) && fresh(in0.queue) && fresh(in1.queue) && fresh(out)
      ensures this.order == order && !closed && Holds() == Owned(ma) + Owned(mb)
      ensures target == Merge(order, Flat(ma), Flat(mb)) && sent == []
      ensures plan == PlanFor(ma, mb)
      ensures (in0.lastTight <==> EndsTight(ma)) && in0.prevs == Prevs(Owned(ma))
      ensures (in1.lastTight <==> EndsTight(mb)) && in1.prevs == Prevs(Owned(mb))
    {
      hide RecordQueue.Valid, RecordQueue.TailValid, Carries, Linked, Snapshot, IsMessage, PrevIsTail,
        PrevsAre, EndsTight, Merge, Flat, Recs, Owned, Prevs, MergeInput.Valid, Shape, Balanced, Holds, Core;
      NothingSent();
      assert allocated(Owned(ma)) && allocated(Owned(mb));
      this.order := order;
      in0 := new MergeInput(a, ma);
      in1 := new MergeInput(b, mb);
      out := new RecordQueue();
      result, sent, closed := [], [], false;
      target, plan := Merge(order, Flat(ma), Flat(mb)), PlanFor(ma, mb);
      new;
      IsBegun();
    }

    lemma IsBegun()
      requires in0 != in1 && in0.queue != in1.queue && in0.queue != out && in1.queue != out
      requires in0.Valid() && in1.Valid() && in0.Holds() !! in1.Holds()
      requires out.Valid() && out.TailValid() && out.q == [] && sent == [] && result == []
      requires target == Merge(order, in0.Pending(), in1.Pending())
      ensures Core() && Holds() == in0.Holds() + in1.Holds()
    {
    }

    method Receive(which: int) returns (ok: bool)
      requires Inv() && 0 <= which < 2
      modifies Input(which), Input(which).queue, Holds()`next
      ensures Inv() && Holds() == old(Holds())
      ensures ok <==> old(Input(which).chan) != []
      ensures ok ==> Input(which).queue.q != [] && Input(which).chan == old(Input(which).chan)[1..]
      ensures !ok ==> Input(which).chan == [] && Input(which).queue.q == old(Input(which).queue.q)
    {
      hide RecordQueue.Valid, RecordQueue.TailValid, Carries, Linked, Snapshot, IsMessage, PrevIsTail,
        EndsTight, Merge, Flat, Recs, Owned;
      assert allocated(Holds()) && allocated(Owned(sent)) && allocated(in0.Holds())
             && allocated(in1.Holds()) && allocated(Recs(out.q));
      ok := Input(which).Receive();
    }

    lemma HeadsAre()
      requires Core()
      ensures in0 != in1 && in0.queue != in1.queue && in0.queue != out && in1.queue != out
      ensures in0.queue.head != null <==> in0.queue.q != []
      ensures in1.queue.head != null <==> in1.queue.q != []
      ensures out.head != null <==> out.q != []
      ensures in0.queue.HasTwoElements() <==> |in0.queue.q| >= 2
      ensures in1.queue.HasTwoElements() <==> |in1.queue.q| >= 2
      ensures in0.queue.q != [] ==> in0.queue.head.Key() == in0.queue.q[0].key
      ensures in1.queue.q != [] ==> in1.queue.head.Key() == in1.queue.q[0].key
      ensures in0.chan == [] ==> in0.fut == []
      ensures in1.chan == [] ==> in1.fut == []
    {
      in0.queue.HeadIs();
      in1.queue.HeadIs();
      out.HeadIs();
    }

    // The relinking part of mergeOne.
    method Move(from: MergeInput)
      requires Shape() && (from == in0 || from == in1)
      requires from.queue.q != [] && (|from.queue.q| >= 2 || from.fut == [])
      modifies from.queue, out, Holds()`next, Holds()`prev
      ensures Shape() && Holds() == old(Holds()) && from.chan == old(from.chan)
      ensures out.q == old(out.q) + [old(from.queue.q)[0]]
      ensures from.queue.q == old(from.queue.q)[1..] && from.Pending() == old(from.Pending())[1..]
      ensures var other := if from == in0 then in1 else in0;
              other.queue.q == old(other.queue.q) && other.Pending() == old(other.Pending())
    {
      hide RecordQueue.Valid, RecordQueue.TailValid, Carries, Linked, Snapshot, IsMessage, PrevIsTail,
        EndsTight, Merge, Flat, Recs, Owned, MergeInput.Valid;
      assert allocated(Holds()) && allocated(Owned(sent)) && allocated(in0.Holds())
             && allocated(in1.Holds()) && allocated(Recs(out.q));
      var elem := from.Pop();
      out.Push(elem);
    }

    method MergeOne()
      requires Core() && in0.queue.q != [] && in1.queue.q != []
      requires |in0.queue.q| >= 2 || in0.fut == []
      requires |in1.queue.q| >= 2 || in1.fut == []
      modifies in0.queue, in1.queue, out, Holds()`next, Holds()`prev
      ensures Core() && Holds() == old(Holds()) && out.q != []
      ensures if Less(order, old(in0.queue.q[0].key), old(in1.queue.q[0].key))
              then in0.queue.q == old(in0.queue.q)[1..] && in1.queue.q == old(in1.queue.q)
              else in0.queue.q == old(in0.queue.q) && in1.queue.q == old(in1.queue.q)[1..]
    {
      hide RecordQueue.Valid, RecordQueue.TailValid, Carries, Linked, Snapshot, IsMessage, PrevIsTail,
        EndsTight, Merge, Flat, Recs, Owned, Shape, Holds, RecordQueue.HasTwoElements, MergeInput.Valid;
      HeadsAre();
      MergeShifts(order, Flat(sent), out.q, in0.Pending(), in1.Pending());
      var less: bool;
      if order == ExpiryTime {
        less := LessExpiry(in0.queue.head.Key(), in1.queue.head.Key());
      } else {
        less := LessPacket(in0.queue.head.Key(), in1.queue.head.Key());
      }
      if less {
        Move(in0);
      } else {
        Move(in1);
      }
    }

    lemma SendIsSound()
      requires Shape() && out.q != []
      ensures out.head != null && Carries(result + [out.head], sent + [out.q], |sent| + 1)
      ensures Owned(sent + [out.q]) == Owned(sent) + Recs(out.q)
    {
      out.HeadIs();
      OwnedAppend(sent, out.q);
      CarriesAppend(result, sent, |sent|, out.head, out.q);
    }

    // The merged records leave as one message.
    method Send()
      requires Core() && out.q != []
      modifies this`result, this`sent, out
      ensures Core() && out.q == [] && Holds() <= old(Holds())
    {
      hide RecordQueue.Valid, RecordQueue.TailValid, Carries, Linked, Snapshot, IsMessage, PrevIsTail,
        PrevsAre, EndsTight, Merge, Flat, Recs, Owned, RecordQueue.HasTwoElements, MergeInput.Valid;
      NothingSent();
      assert allocated(Owned(sent)) && allocated(in0.Holds()) && allocated(in1.Holds());
      SendKeepsOrder(sent, out.q, Merge(order, in0.Pending(), in1.Pending()));
      SendIsSound();
      assert allocated(Owned(sent + [out.q]));
      result := result + [out.head];
      sent := sent + [out.q];
      out.Clear();
    }

    // Send the merged records, if any.
    method Publish()
      requires Inv()
      modifies this`result, this`sent, out
      ensures Inv() && out.q == [] && Holds() <= old(Holds())
      ensures in0.queue.q == old(in0.queue.q) && in1.queue.q == old(in1.queue.q)
    {
      hide RecordQueue.Valid, RecordQueue.TailValid, Carries, Linked, Snapshot, IsMessage, PrevIsTail,
        PrevsAre, EndsTight, Merge, Flat, Recs, Owned, RecordQueue.HasTwoElements, MergeInput.Valid, Shape,
        Balanced, Holds, Core, Planned;
      HeadsAre();
      if plan != Any {
        PlanIsDone();
      }
      if out.head != null {
        Send();
        NoPlan();
      }
    }

    lemma NoPlan()
      requires plan == Any
      ensures Planned()
    {
    }

    // With a plan there is nothing to merge or publish yet, and a closed side's records are
    // in its queue.
    lemma PlanIsDone()
      requires Core() && Planned() && plan != Any
      ensures sent == [] && out.q == []
      ensures in0.queue.q == [] || in1.queue.q == [] || (|in0.queue.q| <= 1 && |in1.queue.q| <= 1)
    {
    }

    // One side is exhausted: the other one's only message follows.
    lemma PlanAtFlush(remaining: int)
      requires Core() && Planned() && plan != Any && 0 <= remaining < 2
      requires Input(1 - remaining).chan == [] && Input(1 - remaining).queue.q == []
      ensures sent == [] && plan == (if remaining == 0 then OnlyFirst else OnlySecond)
      ensures var rest := Input(remaining);
              if rest.queue.q == [] then |rest.fut| == 1 else rest.fut == []
    {
    }

    // Both channels are closed: the records are in the queues.
    lemma PlanAtFinish()
      requires Core() && Planned() && plan != Any && in0.chan == [] && in1.chan == []
      ensures sent == [] && out.q == []
      ensures plan == OneEach ==> in0.queue.q != [] && in1.queue.q != []
      ensures plan == OnlyFirst ==> in0.queue.q != [] && in1.queue.q == [] && OnlyOf(0, Alone(0, in0.queue.q))
      ensures plan == OnlySecond ==> in0.queue.q == [] && in1.queue.q != [] && OnlyOf(1, Alone(1, in1.queue.q))
    {
    }

    // Fetch buffered messages until the select takes its default branch. As everywhere
    // below, either channel may be ready first; the result is the closed one, or -1.
    method Poll() returns (stopped: int)
      requires Inv() && in0.queue.q != [] && in1.queue.q != []
      modifies in0, in1, in0.queue, in1.queue, Holds()`next
      ensures Inv() && Holds() <= old(Holds()) && -1 <= stopped < 2
      ensures stopped >= 0 ==> Input(stopped).chan == []
      ensures in0.queue.q != [] && in1.queue.q != [] && |in0.chan| + |in1.chan| <= old(|in0.chan| + |in1.chan|)
    {
      hide RecordQueue.Valid, RecordQueue.TailValid, Carries, Linked, Snapshot, IsMessage, PrevIsTail,
        EndsTight, Merge, Flat, Recs, Owned, RecordQueue.HasTwoElements, MergeInput.Valid, Shape, Balanced,
        Holds, Core, Planned;
      HeadsAre();
      while true
        invariant Inv() && Holds() <= old(Holds())
        invariant in0.queue.q != [] && in1.queue.q != [] && |in0.chan| + |in1.chan| <= old(|in0.chan| + |in1.chan|)
        decreases |in0.chan| + |in1.chan|
      {
        if * {
          return -1;
        }
        stopped :| 0 <= stopped < 2;
        var ok := Receive(stopped);
        if !ok {
          return;
        }
      }
    }

    // Merge until one of the queues has a single record left, and send the result.
    method MergeAvailable()
      requires Inv() && in0.queue.q != [] && in1.queue.q != []
      modifies this`result, this`sent, in0.queue, in1.queue, out, Holds()`next, Holds()`prev
      ensures Inv() && Holds() <= old(Holds()) && in0.queue.q != [] && in1.queue.q != []
    {
      hide RecordQueue.Valid, RecordQueue.TailValid, Carries, Linked, Snapshot, IsMessage, PrevIsTail,
        EndsTight, Merge, Flat, Recs, Owned, RecordQueue.HasTwoElements, MergeInput.Valid, Shape, Balanced,
        Holds, Core, Planned;
      HeadsAre();
      while in0.queue.HasTwoElements() && in1.queue.HasTwoElements()
        invariant Inv() && Holds() <= old(Holds())
        invariant in0.queue.q != [] && in1.queue.q != []
        decreases |in0.queue.q| + |in1.queue.q|
      {
        HeadsAre();
        if plan != Any {
          PlanIsDone();
        }
        MergeOne();
        NoPlan();
      }
      HeadsAre();
      Publish();
    }

    // The worker up to the first close; tells which channel closed.
    method MergeUntilClose() returns (stopped: int)
      requires Inv()
      modifies this`result, this`sent, in0, in1, in0.queue, in1.queue, out, Holds()`next, Holds()`prev
      ensures Inv() && Holds() <= old(Holds())
      ensures 0 <= stopped < 2 && Input(stopped).chan == []
    {
      hide RecordQueue.Valid, RecordQueue.TailValid, Carries, Linked, Snapshot, IsMessage, PrevIsTail,
        EndsTight, Merge, Flat, Recs, Owned, RecordQueue.HasTwoElements, MergeInput.Valid, Shape, Balanced,
        Holds, Core, Planned;
      HeadsAre();
      while in0.queue.head == null || in1.queue.head == null
        invariant Inv() && Holds() <= old(Holds())
        invariant in0.queue.head != null <==> in0.queue.q != []
        invariant in1.queue.head != null <==> in1.queue.q != []
        decreases |in0.chan| + |in1.chan|
      {
        stopped :| 0 <= stopped < 2;
        var ok := Receive(stopped);
        if !ok {
          return;
        }
        HeadsAre();
      }
      while true
        invariant Inv() && Holds() <= old(Holds())
        invariant in0.queue.q != [] && in1.queue.q != []
        decreases |in0.chan| + |in1.chan|
      {
        stopped := Poll();
        if stopped >= 0 {
          return;
        }
        MergeAvailable();
        stopped :| 0 <= stopped < 2;
        var ok := Receive(stopped);
        if !ok {
          return;
        }
      }
    }

    // One channel is closed: merge while the other queue keeps a record behind.
    method MergeRemaining(stopped: int)
      requires Inv() && 0 <= stopped < 2 && Input(stopped).chan == []
      modifies this`result, this`sent, in0.queue, in1.queue, out, Holds()`next, Holds()`prev
      ensures Inv() && Holds() <= old(Holds()) && out.q == []
    {
      hide RecordQueue.Valid, RecordQueue.TailValid, Carries, Linked, Snapshot, IsMessage, PrevIsTail,
        EndsTight, Merge, Flat, Recs, Owned, RecordQueue.HasTwoElements, MergeInput.Valid, Shape, Balanced,
        Holds, Core, Planned;
      HeadsAre();
      while Input(stopped).queue.head != null && Input(1 - stopped).queue.HasTwoElements()
        invariant Inv() && Holds() <= old(Holds())
        decreases |in0.queue.q| + |in1.queue.q|
      {
        HeadsAre();
        if plan != Any {
          PlanIsDone();
        }
        MergeOne();
        NoPlan();
      }
      HeadsAre();
      Publish();
    }

    lemma ForwardOne(chan: seq<ExportRecord>, rest: seq<seq<Cell>>)
      requires Stream(chan, rest) && chan != [] && Owned(sent) !! Owned(rest)
      requires Carries(result, sent, if rest == [] then |sent| - 1 else |sent|)
      ensures rest != [] && Stream(chan[1..], rest[1..])
      ensures Carries(result + [chan[0]], sent + [rest[0]], if rest[1..] == [] then |sent| else |sent| + 1)
      ensures Owned(sent + [rest[0]]) !! Owned(rest[1..])
      ensures Flat(sent + [rest[0]]) + Flat(rest[1..]) == Flat(sent) + Flat(rest)
    {
      hide Carries, IsMessage, PrevIsTail, Owned, Recs;
      CarriesIs(chan, rest, |rest| - 1);
      CarriesFirst(chan, rest, |rest| - 1);
      CarriesAppend(result, sent, |sent|, chan[0], rest[0]);
      OwnedAppend(sent, rest[0]);
      FlatAppend(sent, rest[0]);
    }

    // range over the remaining channel: forward its messages unchanged.
    method Forward(chan: seq<ExportRecord>, ghost fut: seq<seq<Cell>>)
      requires Stream(chan, fut) && Owned(sent) !! Owned(fut) && Flat(sent) + Flat(fut) == target
      requires Carries(result, sent, if fut == [] then |sent| - 1 else |sent|)
      modifies this`result, this`sent
      ensures Stream(result, sent) && Flat(sent) == target
      ensures sent == old(sent) + fut && result == old(result) + chan
    {
      hide Carries, Owned, Flat;
      var i := 0;
      ghost var rest := fut;
      CarriesIs(chan, fut, |fut| - 1);
      while i < |chan|
        invariant 0 <= i <= |chan| && Stream(chan[i..], rest) && Owned(sent) !! Owned(rest)
        invariant Carries(result, sent, if rest == [] then |sent| - 1 else |sent|)
        invariant Flat(sent) + Flat(rest) == target
        invariant sent + rest == old(sent) + fut && result + chan[i..] == old(result) + chan
      {
        ForwardOne(chan[i..], rest);
        assert allocated(Owned(sent + [rest[0]])) && allocated(Owned(rest));
        assert chan[i..][1..] == chan[i + 1..];
        result := result + [chan[i]];
        sent := sent + [rest[0]];
        rest := rest[1..];
        i := i + 1;
      }
      CarriesIs(chan[i..], rest, |rest| - 1);
      NothingSent();
    }

    lemma WasTightIs(side: int)
      requires Core() && 0 <= side < 2
      ensures Recs(Input(side).queue.q) <= Input(side).prevs.Keys
      ensures WasTight(Input(side).prevs, Input(side).queue.q) <==> PrevIsTail(Input(side).queue.q)
    {
    }

    // The last message, if there is one that this ending is about.
    ghost predicate Ends(e: Ending)
      reads this`result, this`sent, Owned(sent)
    {
      match e
      case Exhausted => Carries(result, sent, |sent|)
      case Followed(side) => sent != [] && (EndsTight(sent) <==> Input(side).lastTight)
      case Joined => sent != [] && !EndsTight(sent)
      case Alone(side, left) =>
        && sent != [] && sent[|sent| - 1] == left && Recs(left) <= Input(side).prevs.Keys
        && (EndsTight(sent) <==> WasTight(Input(side).prevs, left))
    }

    lemma NothingLeft(input: MergeInput)
      requires input.Valid() && input.chan == [] && input.queue.q == []
      ensures input.Pending() == []
    {
    }

    /** The closed side is exhausted: send what is left of the other queue, whose head gets
        its tail as prev, and forward the other channel. If anything was left, the last
        message is as the last one of that input was; otherwise all messages are fine. */
    method Flush(remaining: int) returns (ghost ending: Ending)
      requires Inv() && out.q == [] && 0 <= remaining < 2
      requires Input(1 - remaining).chan == [] && Input(1 - remaining).queue.q == []
      modifies this`result, this`sent, Input(remaining).queue, Holds()`prev
      ensures Stream(result, sent) && Flat(sent) == target
      ensures sent == old(sent) + (if old(Input(remaining).queue.q) == [] then [] else [old(Input(remaining).queue.q)])
                      + old(Input(remaining).fut)
      ensures ending == if old(Input(remaining).queue.q == [] && Input(remaining).fut == []) then Exhausted
                        else Followed(remaining)
      ensures Ends(ending) && EndsAsPlanned(ending)
    {
      hide RecordQueue.Valid, Carries, Linked, Snapshot, PrevIsTail, PrevsAre, EndsTight, Merge, Flat, Recs,
        Owned, MergeInput.Valid, Shape, Balanced, Holds, Core, Planned;
      FlushFacts(remaining);
      FlushOrder(remaining);
      var rest := Input(remaining);
      ghost var before, results, m, fut := sent, result, rest.queue.q, rest.fut;
      ending := if m == [] && fut == [] then Exhausted else Followed(remaining);
      if plan != Any {
        PlanAtFlush(remaining);
      }
      assert allocated(Owned(sent + [m])) && allocated(Owned(fut)) && allocated(Owned(sent));
      if rest.queue.head != null {
        SendQueue(rest);
      } else {
        CarriesWeaken(result, sent, |sent|, |sent| - 1);
      }
      Forward(rest.chan, fut);
      if fut != [] {
        EndsTightAppend(if m == [] then before else before + [m], fut);
      } else if m != [] {
        EndsTightLast(sent);
      } else {
        assert sent == before && result == results;
      }
    }

    // A queue leaves as one message, whose head gets the tail as prev.
    method SendQueue(rest: MergeInput)
      requires rest.queue.head != null && IsMessage(rest.queue.head, rest.queue.q)
      requires Carries(result, sent, |sent|) && Recs(rest.queue.q) !! Owned(sent)
      modifies this`result, this`sent, rest.queue, rest.queue.head`prev
      ensures sent == old(sent) + [old(rest.queue.q)] && result == old(result) + [old(rest.queue.head)]
      ensures Carries(result, sent, |old(sent)|)
      ensures PrevIsTail(old(rest.queue.q)) <==> old(rest.queue.tail == rest.queue.q[|rest.queue.q| - 1].rec)
      ensures PrevIsTail(old(rest.queue.q)) ==> Carries(result, sent, |sent|)
    {
      hide Carries, EndsTight, Owned;
      ghost var m := rest.queue.q;
      assert allocated(Owned(sent)) && allocated(Owned(sent + [m]));
      rest.queue.head.prev := rest.queue.tail;
      CarriesAppend(result, sent, |sent|, rest.queue.head, m);
      result := result + [rest.queue.head];
      sent := sent + [m];
      rest.queue.Clear();
    }

    lemma FlushFacts(remaining: int)
      requires Core() && out.q == [] && 0 <= remaining < 2
      requires Input(1 - remaining).chan == [] && Input(1 - remaining).queue.q == []
      ensures var rest := Input(remaining); var m := rest.queue.q;
              && Stream(rest.chan, rest.fut) && Carries(result, sent, |sent|)
              && Owned(sent + [m]) == Owned(sent) + Recs(m) && Recs(m) !! Owned(sent) && Recs(m) <= Holds()
              && Owned(sent + [m]) !! Owned(rest.fut) && Owned(sent) !! Owned(rest.fut)
              && (m == [] <==> rest.queue.head == null) && (m != [] ==> IsMessage(rest.queue.head, m))
              && (m != [] && rest.fut != [] ==> rest.queue.tail == m[|m| - 1].rec)
              && (m != [] && rest.fut == [] ==> (rest.lastTight <==> rest.queue.tail == m[|m| - 1].rec))
              && (rest.fut != [] ==> (rest.lastTight <==> EndsTight(rest.fut)))
              && (rest.fut == [] ==> rest.chan == [])
    {
      var rest := Input(remaining);
      rest.queue.HeadIs();
      OwnedAppend(sent, rest.queue.q);
    }

    lemma FlushOrder(remaining: int)
      requires Core() && out.q == [] && 0 <= remaining < 2
      requires Input(1 - remaining).chan == [] && Input(1 - remaining).queue.q == []
      ensures var rest := Input(remaining); var m := rest.queue.q;
              Flat(sent + [m]) + Flat(rest.fut) == target && Flat(sent) + m + Flat(rest.fut) == target
    {
      hide Carries, Linked, Snapshot, RecordQueue.Valid, RecordQueue.TailValid, Recs, Owned;
      var rest := Input(remaining);
      NothingLeft(Input(1 - remaining));
      FlatAppend(sent, rest.queue.q);
      assert Flat(sent) + [] + rest.Pending() == Flat(sent) + rest.queue.q + Flat(rest.fut);
    }

    // Neither side will send any more, and only `rest` has records left: they are appended
    // to the merged ones, and head.prev is not touched.
    method SendRest(rest: MergeInput)
      requires Core() && (rest == in0 || rest == in1) && rest.queue.q != []
      requires in0.chan == [] && in1.chan == [] && (if rest == in0 then in1 else in0).queue.q == []
      modifies this`result, this`sent, out, Holds()`next, Holds()`prev
      ensures Stream(result, sent) && Flat(sent) == target
      ensures sent == old(sent) + [old(out.q) + old(rest.queue.q)]
      ensures PrevIsTail(sent[|sent| - 1]) <==> old(out.q == [] && PrevIsTail(rest.queue.q))
    {
      hide RecordQueue.Valid, RecordQueue.TailValid, Carries, Linked, Snapshot, IsMessage, PrevIsTail,
        EndsTight, Merge, Flat, Recs, Owned, RecordQueue.HasTwoElements, MergeInput.Valid, Shape, Balanced,
        Holds, Core;
      RestFacts(rest);
      ghost var merged, m := out.q, out.q + rest.queue.q;
      assert allocated(Owned(sent + [m])) && allocated(Recs(merged)) && allocated(Recs(rest.queue.q));
      out.Append(rest.queue.head, rest.queue.q);
      out.HeadIs();
      CarriesAppend(result, sent, |sent|, out.head, m);
      PrevOfJoined(merged, rest.queue.q);
      result := result + [out.head];
      sent := sent + [m];
    }

    lemma RestFacts(rest: MergeInput)
      requires Core() && (rest == in0 || rest == in1) && rest.queue.q != []
      requires in0.chan == [] && in1.chan == [] && (if rest == in0 then in1 else in0).queue.q == []
      ensures out.Valid() && out.TailValid() && Recs(out.q) !! Recs(rest.queue.q) && out.Tails() <= Recs(out.q)
      ensures rest.queue.head != null && IsMessage(rest.queue.head, rest.queue.q)
      ensures Carries(result, sent, |sent|) && Owned(sent) !! Recs(out.q + rest.queue.q)
      ensures Recs(out.q + rest.queue.q) == Recs(out.q) + Recs(rest.queue.q)
      ensures Owned(sent + [out.q + rest.queue.q]) == Owned(sent) + Recs(out.q + rest.queue.q)
      ensures Flat(sent + [out.q + rest.queue.q]) == target
      ensures Recs(out.q) <= Holds() && (out.q != [] ==> PrevIsTail(out.q))
    {
      rest.queue.HeadIs();
      out.TailIsIn();
      RecsAppend(out.q, rest.queue.q);
      OwnedAppend(sent, out.q + rest.queue.q);
      FlatAppend(sent, out.q + rest.queue.q);
    }

    // The loop of Finish: with records on one side only there is nothing to do.
    method MergeWhileBoth()
      requires Core() && in0.chan == [] && in1.chan == [] && (in0.queue.q != [] || in1.queue.q != [])
      modifies in0.queue, in1.queue, out, Holds()`next, Holds()`prev
      ensures Core() && Holds() <= old(Holds()) && (in0.queue.q == [] <==> in1.queue.q != [])
      ensures old(in0.queue.q != [] && in1.queue.q != []) ==> out.q != []
      ensures old(in0.queue.q == [] || in1.queue.q == []) ==>
                && out.q == old(out.q) && in0.queue.q == old(in0.queue.q) && in1.queue.q == old(in1.queue.q)
                && (PrevIsTail(in0.queue.q) <==> old(PrevIsTail(in0.queue.q)))
                && (PrevIsTail(in1.queue.q) <==> old(PrevIsTail(in1.queue.q)))
    {
      hide RecordQueue.Valid, RecordQueue.TailValid, Carries, Linked, Snapshot, IsMessage, PrevIsTail,
        EndsTight, Merge, Flat, Recs, Owned, RecordQueue.HasTwoElements, MergeInput.Valid, Shape, Balanced,
        Holds, Core;
      HeadsAre();
      ghost var both := in0.queue.q != [] && in1.queue.q != [];
      while in0.queue.head != null && in1.queue.head != null
        invariant Core() && Holds() <= old(Holds()) && (in0.queue.q != [] || in1.queue.q != [])
        invariant in0.queue.head != null <==> in0.queue.q != []
        invariant in1.queue.head != null <==> in1.queue.q != []
        invariant both ==> out.q != [] || (in0.queue.q != [] && in1.queue.q != [])
        invariant !both ==>
                    && out.q == old(out.q) && in0.queue.q == old(in0.queue.q) && in1.queue.q == old(in1.queue.q)
                    && (PrevIsTail(in0.queue.q) <==> old(PrevIsTail(in0.queue.q)))
                    && (PrevIsTail(in1.queue.q) <==> old(PrevIsTail(in1.queue.q)))
        decreases |in0.queue.q| + |in1.queue.q|
      {
        HeadsAre();
        MergeOne();
        HeadsAre();
      }
    }

    /** Both channels are closed: merge what is left and send it as the last message. Its
        head points to its tail exactly if nothing had to be merged and the records left
        over happen to be like that. */
    method Finish() returns (ghost ending: Ending)
      requires Inv() && in0.chan == [] && in1.chan == [] && (in0.queue.q != [] || in1.queue.q != [])
      modifies this`result, this`sent, in0.queue, in1.queue, out, Holds()`next, Holds()`prev
      ensures Stream(result, sent) && Flat(sent) == target
      ensures |sent| == |old(sent)| + 1 && sent[..|old(sent)|] == old(sent)
      ensures PrevIsTail(sent[|old(sent)|]) <==>
              old(out.q == [] && (in0.queue.q == [] || in1.queue.q == [])
                  && PrevIsTail(if in0.queue.q != [] then in0.queue.q else in1.queue.q))
      ensures ending == old(if in0.queue.q != [] && in1.queue.q != [] then Joined
                            else if in0.queue.q != [] then Alone(0, in0.queue.q) else Alone(1, in1.queue.q))
      ensures old(out.q) == [] ==> Ends(ending) && EndsAsPlanned(ending)
    {
      hide RecordQueue.Valid, RecordQueue.TailValid, Carries, Linked, Snapshot, IsMessage, PrevIsTail,
        EndsTight, Merge, Flat, Recs, Owned, RecordQueue.HasTwoElements, MergeInput.Valid, Shape, Balanced,
        Holds, Core, Planned, WasTight;
      ending := if in0.queue.q != [] && in1.queue.q != [] then Joined
                else if in0.queue.q != [] then Alone(0, in0.queue.q) else Alone(1, in1.queue.q);
      WasTightIs(0);
      WasTightIs(1);
      if plan != Any {
        PlanAtFinish();
      }
      HeadsAre();
      MergeWhileBoth();
      HeadsAre();
      SendRest(if in0.queue.head != null then in0 else in1);
      EndsTightLast(sent);
    }

    // The message of one side, as it was.
    ghost predicate OnlyOf(side: int, e: Ending) {
      || e == Followed(side)
      || (e.Alone? && e.side == side && (WasTight(Input(side).prevs, e.left) <==> Input(side).lastTight))
    }

    // For some inputs the ending does not depend on the schedule.
    ghost predicate EndsAsPlanned(e: Ending)
      reads this`sent
    {
      plan != Any ==>
        && |sent| == 1
        && match plan
           case OneEach => e == Joined
           case OnlyFirst => OnlyOf(0, e)
           case OnlySecond => OnlyOf(1, e)
           case Any => true
    }

    // The worker from the first close on.
    method Drain(stopped: int) returns (ghost ending: Ending)
      requires Inv() && 0 <= stopped < 2 && Input(stopped).chan == []
      modifies this, in0, in1, in0.queue, in1.queue, out, Holds()`next, Holds()`prev
      ensures Stream(result, sent) && Flat(sent) == target && closed && Ends(ending) && EndsAsPlanned(ending)
    {
      hide RecordQueue.Valid, RecordQueue.TailValid, Carries, Linked, Snapshot, IsMessage, PrevIsTail,
        PrevsAre, EndsTight, Merge, Flat, Recs, Owned, RecordQueue.HasTwoElements, MergeInput.Valid, Shape,
        Balanced, Holds, Core, Planned, Ends, EndsAsPlanned;
      HeadsAre();
      var remaining := 1 - stopped;
      var ok := true;
      while true
        invariant Inv() && Holds() <= old(Holds())
        invariant Input(stopped).chan == [] && (!ok ==> Input(remaining).chan == [])
        decreases |Input(remaining).chan|, ok
      {
        MergeRemaining(stopped);
        HeadsAre();
        if Input(stopped).queue.head == null {
          ending := Flush(remaining);
          break;
        }
        if !ok {
          ending := Finish();
          break;
        }
        ok := Receive(remaining);
      }
      assert allocated(Owned(sent));
      closed := true;
    }

    method Run() returns (ghost ending: Ending)
      requires Inv()
      modifies this, in0, in1, in0.queue, in1.queue, out, Holds()`next, Holds()`prev
      ensures Stream(result, sent) && Flat(sent) == target && closed && Ends(ending) && EndsAsPlanned(ending)
    {
      hide RecordQueue.Valid, RecordQueue.TailValid, Carries, Linked, Snapshot, IsMessage, PrevIsTail,
        PrevsAre, EndsTight, Merge, Flat, Recs, Owned, RecordQueue.HasTwoElements, MergeInput.Valid, Shape,
        Balanced, Holds, Core, Planned;
      var stopped := MergeUntilClose();
      ending := Drain(stopped);
    }
  }

  /** A merger as its neighbours see it: two streams in, one stream out, holding the
      merge of the two, whatever the channels' timing. */
  method MergeStreams(order: SortType, a: seq<ExportRecord>, b: seq<ExportRecord>,
      ghost ma: seq<seq<Cell>>, ghost mb: seq<seq<Cell>>)
    returns (result: seq<ExportRecord>, ghost mr: seq<seq<Cell>>, ghost ending: Ending)
    requires Stream(a, ma) && Stream(b, mb) && Owned(ma) !! Owned(mb)
    modifies Owned(ma)`next, Owned(ma)`prev, Owned(mb)`next, Owned(mb)`prev
    ensures Stream(result, mr) && Flat(mr) == Merge(order, Flat(ma), Flat(mb))
    ensures multiset(Flat(mr)) == multiset(Flat(ma)) + multiset(Flat(mb))
    ensures Sorted(order, Flat(ma)) && Sorted(order, Flat(mb)) ==> Sorted(order, Flat(mr))
    // whether the last message keeps head.prev == tail
    ensures match ending
            case Exhausted => Carries(result, mr, |mr|)
            case Followed(side) => mr != [] && (EndsTight(mr) <==> old(EndsTight(if side == 0 then ma else mb)))
            case Joined => mr != [] && !EndsTight(mr)
            case Alone(side, left) =>
              && mr != [] && mr[|mr| - 1] == left && Recs(left) <= Owned(if side == 0 then ma else mb)
              && (EndsTight(mr) <==> WasTight(old(Prevs(Owned(if side == 0 then ma else mb))), left))
    // one record each: whatever the timing, the one message breaks it
    ensures |Flat(ma)| == 1 && |Flat(mb)| == 1 ==> |mr| == 1 && ending == Joined
    // one message and a side without any: whatever the timing, it is as it was
    ensures |ma| == 1 && mb == [] ==> |mr| == 1 && (EndsTight(mr) <==> old(EndsTight(ma)))
    ensures ma == [] && |mb| == 1 ==> |mr| == 1 && (EndsTight(mr) <==> old(EndsTight(mb)))
  {
    hide Carries, Owned, Flat, Merge, Sorted, PrevIsTail, PrevsAre, EndsTight, WasTight, Recs,
      MergeTreeWorker.Inv, MergeTreeWorker.Holds;
    assert allocated(Owned(ma)) && allocated(Owned(mb));
    var worker := new MergeTreeWorker(order, a, b, ma, mb);
    ending := worker.Run();
    NothingSent();
    result, mr := worker.result, worker.sent;
    MergeKeepsRecords(order, Flat(ma), Flat(mb));
    if Sorted(order, Flat(ma)) && Sorted(order, Flat(mb)) {
      MergeIsSorted(order, Flat(ma), Flat(mb));
    }
  }

  lemma NothingSent()
    ensures Carries([], [], 0) && Flat<Cell>([]) == [] && Owned([]) == {} && Recs([]) == {}
  {
  }

  /** Behind a queue with a stale tail every later message of the channel is lost: it is
      linked to records that the queue does not lead to. */
  method AppendLost(queue: RecordQueue, chan: seq<ExportRecord>, ghost msgs: seq<seq<Cell>>)
    requires queue.Valid() && queue.q != [] && queue.TailStale() && queue.tail !in Owned(msgs)
    requires Carries(chan, msgs, |msgs|) && Recs(queue.q) !! Owned(msgs)
    modifies queue, queue.Tails()`next, Owned(msgs)`next
    ensures queue.Valid() && queue.q == old(queue.q)
    decreases |msgs|
  {
    hide RecordQueue.Valid, Linked, Snapshot, Recs, Owned, Carries, PrevIsTail, IsMessage;
    if chan == [] {
      return;
    }
    CarriesIs(chan, msgs, |msgs|);
    CarriesFirst(chan, msgs, |msgs|);
    ghost var m, rest := msgs[0], msgs[1..];
    LastIsIn(chan[0], m);
    assert allocated(Recs(m)) && allocated(Owned(rest)) && allocated(Recs(queue.q));
    queue.Append(chan[0], m);
    AppendLost(queue, chan[1..], rest);
  }

  lemma CarriesIs(chan: seq<ExportRecord>, msgs: seq<seq<Cell>>, strict: int)
    requires Carries(chan, msgs, strict)
    ensures chan == [] <==> msgs == []
  {
  }

  lemma LastIsIn(elem: ExportRecord, m: seq<Cell>)
    requires IsMessage(elem, m) && PrevIsTail(m)
    ensures elem.prev != null && elem.prev in Recs(m)
  {
  }

  lemma SnapshotJoin(s: seq<Cell>, t: seq<Cell>)
    requires Snapshot(s) && Snapshot(t)
    ensures Snapshot(s + t)
  {
  }

  // Appending does not touch head.prev, which was the tail or is the other list's.
  lemma PrevOfJoined(s: seq<Cell>, t: seq<Cell>)
    requires t != [] && Recs(s) !! Recs(t) && (s != [] ==> PrevIsTail(s))
    ensures PrevIsTail(s + t) <==> s == [] && PrevIsTail(t)
  {
    if s == [] {
      assert s + t == t;
    }
  }

  // The next record of the merge moves over.
  lemma MergeShifts(order: SortType, sent: seq<Cell>, out: seq<Cell>, a: seq<Cell>, b: seq<Cell>)
    requires a != [] && b != []
    ensures Less(order, a[0].key, b[0].key) ==>
              sent + (out + [a[0]]) + Merge(order, a[1..], b) == sent + out + Merge(order, a, b)
    ensures !Less(order, a[0].key, b[0].key) ==>
              sent + (out + [b[0]]) + Merge(order, a, b[1..]) == sent + out + Merge(order, a, b)
  {
    if Less(order, a[0].key, b[0].key) {
      Shift(sent, out, a[0], Merge(order, a[1..], b));
    } else {
      Shift(sent, out, b[0], Merge(order, a, b[1..]));
    }
  }

  lemma Shift<T>(sent: seq<T>, out: seq<T>, x: T, rest: seq<T>)
    ensures sent + (out + [x]) + rest == sent + out + ([x] + rest)
  {
  }

  lemma SendKeepsOrder<T>(sent: seq<seq<T>>, m: seq<T>, rest: seq<T>)
    ensures Flat(sent + [m]) + [] + rest == Flat(sent) + m + rest
  {
    FlatAppend(sent, m);
  }
}
