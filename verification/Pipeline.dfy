/** From the flows' records to the exporters: n tables flush their lists, in expiry order
    the batches are sorted, and the mergers pass on all of it, whatever the schedule. */
module Pipeline {
  import opened ExportLog
  import opened ExportOrder
  import opened RecordLife
  import opened SortSpec
  import MergeNetwork

  // A table's life: what its records go through, up to the final flush of everything.
  type Table = seq<Event>

  const NEW_LOG: Log<nat> := Log([], [])

  // What happens to its export list; all of it is legal.
  ghost function Ops(order: SortType, t: Table): (r: seq<Op<nat>>)
    ensures forall recordID :: Legal(NEW_LOG, r, recordID)
  {
    assert forall recordID :: Legal(NEW_LOG, OpsOf(order, NOBODY, t), recordID) by {
      forall recordID ensures Legal(NEW_LOG, OpsOf(order, NOBODY, t), recordID) {
        LivesAreProper(order, t, recordID);
      }
    }
    OpsOf(order, NOBODY, t)
  }

  // All it has flushed in the end.
  ghost function Flushed(order: SortType, t: Table, recordID: int): seq<Item<nat>> {
    Apply(Run(NEW_LOG, Ops(order, t), recordID), FlushAll, recordID).flushed
  }

  // It has flushed every record once for each time it was exported, with the expiry time
  // it was exported with.
  ghost predicate AsExported(order: SortType, t: Table, recordID: int) {
    && Seen(Flushed(order, t, recordID), RecOf) == ExportsOf(Ops(order, t))
    && Seen(Flushed(order, t, recordID), TimeOf) == TimesOf(Ops(order, t))
  }

  /** ---- the messages of a table ---- */

  // What an operation sends, if it is a flush.
  ghost function Sent(s: Log<nat>, op: Op<nat>): seq<Item<nat>> {
    match op
    case Flush => Batch(s.list[Kept(s.list)..])
    case FlushAll => Batch(Select(s.list, true))
    case _ => []
  }

  // A batch for every flush that finds something, the last one at the end of the input.
  ghost function Messages(s: Log<nat>, ops: seq<Op<nat>>, recordID: int): (r: seq<seq<Item<nat>>>)
    requires Legal(s, ops, recordID)
    decreases |ops|
  {
    if ops == [] then NonEmptyBatch(Sent(s, FlushAll))
    else NonEmptyBatch(Sent(s, ops[0])) + Messages(Apply(s, ops[0], recordID), ops[1..], recordID)
  }

  function NonEmptyBatch(b: seq<Item<nat>>): seq<seq<Item<nat>>> {
    if b == [] then [] else [b]
  }

  lemma {:induction false} SentIsFlushed(s: Log<nat>, op: Op<nat>, recordID: int)
    requires Enabled(s, op)
    ensures Apply(s, op, recordID).flushed == s.flushed + Sent(s, op)
  {
    assert s.flushed + [] == s.flushed;
  }

  lemma {:induction false} BatchCons(b: seq<Item<nat>>, more: seq<seq<Item<nat>>>)
    ensures Flat(NonEmptyBatch(b) + more) == b + Flat(more)
  {
    if b == [] {
      assert NonEmptyBatch(b) + more == more;
    } else {
      assert ([b] + more)[1..] == more;
    }
  }

  // The messages carry what is flushed, in order, and none is empty.
  lemma {:induction false} MessagesAre(s: Log<nat>, ops: seq<Op<nat>>, recordID: int)
    requires Legal(s, ops, recordID)
    ensures Apply(Run(s, ops, recordID), FlushAll, recordID).flushed == s.flushed + Flat(Messages(s, ops, recordID))
    ensures MergeNetwork.NonEmpty(Messages(s, ops, recordID))
    decreases |ops|
  {
    hide Flat, Sent, Apply, Enabled;
    if ops == [] {
      var b := Sent(s, FlushAll);
      AlwaysEnabled(s);
      SentIsFlushed(s, FlushAll, recordID);
      BatchCons(b, []);
      FlatNil<Item<nat>>();
      assert NonEmptyBatch(b) + [] == NonEmptyBatch(b) && b + [] == b;
    } else {
      var b, s' := Sent(s, ops[0]), Apply(s, ops[0], recordID);
      var more := Messages(s', ops[1..], recordID);
      MessagesAre(s', ops[1..], recordID);
      SentIsFlushed(s, ops[0], recordID);
      BatchCons(b, more);
      assert (s.flushed + b) + Flat(more) == s.flushed + (b + Flat(more));
    }
  }

  lemma {:induction false} AlwaysEnabled(s: Log<nat>)
    ensures Enabled(s, FlushAll)
  {
  }

  ghost function TableMessages(order: SortType, t: Table, recordID: int): seq<seq<Item<nat>>> {
    Messages(NEW_LOG, Ops(order, t), recordID)
  }

  lemma {:induction false} TableMessagesAre(order: SortType, t: Table, recordID: int)
    ensures Flat(TableMessages(order, t, recordID)) == Flushed(order, t, recordID)
    ensures MergeNetwork.NonEmpty(TableMessages(order, t, recordID))
    ensures AsExported(order, t, recordID)
  {
    hide Flat, Run, Messages, Legal, Apply, Seen, ExportsOf, TimesOf, Ops;
    MessagesAre(NEW_LOG, Ops(order, t), recordID);
    FlushedAsExported(Ops(order, t), recordID);
    var messages := TableMessages(order, t, recordID);
    assert [] + Flat(messages) == Flat(messages);
  }

  /** ---- the tables as sources of the merge tree ---- */

  // In expiry order sortWorker comes first.
  ghost function Stage(order: SortType, messages: seq<seq<Item<nat>>>): seq<seq<Item<nat>>> {
    if order == ExpiryTime then SortedBatches(messages) else messages
  }

  ghost function SourceOf(order: SortType, t: Table, recordID: int): MergeNetwork.Net {
    MergeNetwork.NewSource(Stage(order, TableMessages(order, t, recordID)))
  }

  ghost function Sources(order: SortType, tables: seq<Table>, recordID: int): (r: seq<MergeNetwork.Net>)
    ensures |r| == |tables|
  {
    if tables == [] then [] else [SourceOf(order, tables[0], recordID)] + Sources(order, tables[1..], recordID)
  }

  ghost function AllFlushed(order: SortType, tables: seq<Table>, recordID: int): multiset<Item<nat>> {
    if tables == [] then multiset{}
    else multiset(Flushed(order, tables[0], recordID)) + AllFlushed(order, tables[1..], recordID)
  }

  lemma {:induction false} NewSourceIs(order: SortType, messages: seq<seq<Item<nat>>>)
    requires MergeNetwork.NonEmpty(messages)
    ensures MergeNetwork.Valid(MergeNetwork.NewSource(messages))
    ensures MergeNetwork.Remaining(order, MergeNetwork.NewSource(messages)) == Flat(messages)
  {
    hide Flat;
    FlatNil<Item<nat>>();
    assert [] + Flat(messages) == Flat(messages);
  }

  lemma {:induction false} StageNotEmpty(messages: seq<seq<Item<nat>>>)
    requires MergeNetwork.NonEmpty(messages)
    ensures MergeNetwork.NonEmpty(SortedBatches(messages))
  {
    hide SortBatch;
    if messages != [] {
      SortBatchNotEmpty(messages[0]);
      StageNotEmpty(messages[1..]);
    }
  }

  // One table: a valid source of what the stage makes of its messages.
  lemma {:induction false} TableIsValid(order: SortType, t: Table, recordID: int)
    ensures MergeNetwork.Valid(SourceOf(order, t, recordID))
    ensures MergeNetwork.Remaining(order, SourceOf(order, t, recordID))
         == Flat(Stage(order, TableMessages(order, t, recordID)))
  {
    hide TableMessages, SortedBatches;
    TableMessagesAre(order, t, recordID);
    StageNotEmpty(TableMessages(order, t, recordID));
    NewSourceIs(order, Stage(order, TableMessages(order, t, recordID)));
  }

  /** In start or stop order a table whose packets have rising numbers is an ordered source
      of exactly what it exported. */
  lemma {:induction false} TableIsGood(order: SortType, t: Table, recordID: int)
    requires (order == StartTime || order == StopTime) && InSequence(t, 0)
    ensures var n := SourceOf(order, t, recordID);
            && MergeNetwork.Valid(n) && Sorted(order, MergeNetwork.Remaining(order, n))
            && MergeNetwork.Remaining(order, n) == Flushed(order, t, recordID)
    ensures AsExported(order, t, recordID)
  {
    hide Flat, Run, Messages, Legal, Monotone, Apply, AsExported, OpsOf, InSequence;
    TableIsValid(order, t, recordID);
    TableMessagesAre(order, t, recordID);
    LivesAreProper(order, t, recordID);
    NewLogIsOrdered(recordID);
    FlushedInOrder(NEW_LOG, Ops(order, t), 0, recordID);
    SameOrder(order, Flushed(order, t, recordID));
  }

  lemma {:induction false} NewLogIsOrdered(recordID: int)
    ensures Ordered(NEW_LOG, 0, recordID)
  {
  }

  // Start and stop order compare the same fields.
  lemma {:induction false} SameOrder(order: SortType, s: seq<Item<nat>>)
    requires order != ExpiryTime && Sorted(StopTime, s)
    ensures Sorted(order, s)
  {
    forall i, j | 0 <= i < j < |s| ensures !Less(order, s[j].key, s[i].key) {
      assert !Less(StopTime, s[j].key, s[i].key);
    }
  }

  lemma {:induction false} TablesAreGood(order: SortType, tables: seq<Table>, recordID: int)
    requires (order == StartTime || order == StopTime) && forall i | 0 <= i < |tables| :: InSequence(tables[i], 0)
    ensures MergeNetwork.AllValid(Sources(order, tables, recordID))
    ensures MergeNetwork.AllOrdered(order, Sources(order, tables, recordID))
    ensures MergeNetwork.AllRemaining(order, Sources(order, tables, recordID)) == AllFlushed(order, tables, recordID)
  {
    hide InSequence, SourceOf, Flushed, MergeNetwork.Valid, MergeNetwork.Remaining, Sorted;
    if tables != [] {
      TableIsGood(order, tables[0], recordID);
      TablesAreGood(order, tables[1..], recordID);
      MergeNetwork.AllCons(order, SourceOf(order, tables[0], recordID), Sources(order, tables[1..], recordID));
    }
  }

  /** Over whole runs of n tables in start or stop order, and any schedule of the mergers:
      when the pipeline stops, the consumer has received exactly the records the tables
      flushed, in order, and every table has flushed exactly what was exported, once. */
  lemma {:induction false} EverythingArrivesInOrder(order: SortType, tables: seq<Table>, recordID: int,
                                                    run: seq<MergeNetwork.System>)
    requires (order == StartTime || order == StopTime) && tables != []
    requires forall i | 0 <= i < |tables| :: InSequence(tables[i], 0)
    requires MergeNetwork.IsRun(order, run)
    requires run[0] == MergeNetwork.System(MergeNetwork.MergeTree(Sources(order, tables, recordID)), [])
    requires MergeNetwork.IsStuck(order, run[|run| - 1])
    ensures Sorted(order, run[|run| - 1].received)
    ensures multiset(run[|run| - 1].received) == AllFlushed(order, tables, recordID)
    ensures forall i | 0 <= i < |tables| ::
              AsExported(order, tables[i], recordID)
  {
    hide InSequence, Flushed, Sources, AllFlushed, Sorted, MergeNetwork.IsRun,
         MergeNetwork.IsStuck, AsExported, Ops;
    TablesAreGood(order, tables, recordID);
    MergeNetwork.PipelineSortsAndConserves(order, Sources(order, tables, recordID), run);
    forall i | 0 <= i < |tables|
      ensures AsExported(order, tables[i], recordID)
    {
      TableIsGood(order, tables[i], recordID);
    }
  }

  /** ---- expiry order ---- */

  // No batch of any table is one that sortWorker damages.
  ghost predicate NothingDamaged(tables: seq<Table>, recordID: int) {
    forall i | 0 <= i < |tables| :: NoneDamaged(TableMessages(ExpiryTime, tables[i], recordID))
  }

  lemma {:induction false} TableInExpiryOrder(t: Table, recordID: int)
    ensures var n, flushed := SourceOf(ExpiryTime, t, recordID), multiset(Flushed(ExpiryTime, t, recordID));
            var sent := multiset(MergeNetwork.Remaining(ExpiryTime, n));
            && MergeNetwork.Valid(n) && |sent| <= |flushed|
            && (|sent| == |flushed| <==> NoneDamaged(TableMessages(ExpiryTime, t, recordID)))
            && (NoneDamaged(TableMessages(ExpiryTime, t, recordID)) ==> sent == flushed)
  {
    hide TableMessages, SortedBatches, NoneDamaged, Flushed, Flat, SourceOf, MergeNetwork.Valid, MergeNetwork.Remaining;
    TableIsValid(ExpiryTime, t, recordID);
    TableMessagesAre(ExpiryTime, t, recordID);
    var messages := TableMessages(ExpiryTime, t, recordID);
    SortStage(messages);
    StageSize(messages);
  }

  lemma {:induction false} TablesInExpiryOrder(tables: seq<Table>, recordID: int)
    ensures var all := MergeNetwork.AllRemaining(ExpiryTime, Sources(ExpiryTime, tables, recordID));
            && MergeNetwork.AllValid(Sources(ExpiryTime, tables, recordID))
            && |all| <= |AllFlushed(ExpiryTime, tables, recordID)|
            && (|all| == |AllFlushed(ExpiryTime, tables, recordID)| <==> NothingDamaged(tables, recordID))
            && (NothingDamaged(tables, recordID) ==> all == AllFlushed(ExpiryTime, tables, recordID))
  {
    hide SourceOf, Flushed, MergeNetwork.Valid, MergeNetwork.Remaining, NoneDamaged, TableMessages;
    if tables != [] {
      TableInExpiryOrder(tables[0], recordID);
      TablesInExpiryOrder(tables[1..], recordID);
      MergeNetwork.AllCons(ExpiryTime, SourceOf(ExpiryTime, tables[0], recordID),
                           Sources(ExpiryTime, tables[1..], recordID));
      NothingDamagedCons(tables, recordID);
    }
  }

  lemma {:induction false} NothingDamagedCons(tables: seq<Table>, recordID: int)
    requires tables != []
    ensures NothingDamaged(tables, recordID)
       <==> NoneDamaged(TableMessages(ExpiryTime, tables[0], recordID)) && NothingDamaged(tables[1..], recordID)
  {
    hide NoneDamaged, TableMessages;
    if NothingDamaged(tables[1..], recordID) {
      assert forall i | 0 < i < |tables| :: tables[i] == tables[1..][i - 1];
    }
    assert forall i | 0 <= i < |tables| - 1 :: tables[1..][i] == tables[i + 1];
  }

  /** In expiry order, over whole runs of n tables and any schedule: the consumer receives
      exactly the records the tables flushed if and only if no table ever flushes two
      records that do not ascend; every table flushes exactly what was exported, once. */
  lemma {:induction false} ExpiryOrderConservesIff(tables: seq<Table>, recordID: int, run: seq<MergeNetwork.System>)
    requires tables != [] && MergeNetwork.IsRun(ExpiryTime, run)
    requires run[0] == MergeNetwork.System(MergeNetwork.MergeTree(Sources(ExpiryTime, tables, recordID)), [])
    requires MergeNetwork.IsStuck(ExpiryTime, run[|run| - 1])
    ensures multiset(run[|run| - 1].received) == AllFlushed(ExpiryTime, tables, recordID)
       <==> NothingDamaged(tables, recordID)
    ensures forall i | 0 <= i < |tables| ::
              AsExported(ExpiryTime, tables[i], recordID)
  {
    hide Flushed, Sources, AllFlushed, NothingDamaged, MergeNetwork.IsRun,
         MergeNetwork.IsStuck, AsExported, Ops;
    TablesInExpiryOrder(tables, recordID);
    MergeNetwork.PipelineSortsAndConserves(ExpiryTime, Sources(ExpiryTime, tables, recordID), run);
    forall i | 0 <= i < |tables|
      ensures AsExported(ExpiryTime, tables[i], recordID)
    {
      TableMessagesAre(ExpiryTime, tables[i], recordID);
    }
  }
}
