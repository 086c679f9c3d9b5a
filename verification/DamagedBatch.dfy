/** What a damaged batch does to the next stage: the merger loses the rest of its channel. */
module DamagedBatch {
  import opened ExportOrder
  import opened ExportRecords
  import opened MergeWorker
  import opened SortSpec
  import opened SortWorker

  lemma DistinctOwners(s: seq<Cell>, r: seq<Cell>, x: ExportRecord, q: seq<Cell>, msgs: seq<seq<Cell>>)
    requires x in Recs(s) && Recs(r) <= Recs(s) && x !in Recs(r)
    requires Recs(s) !! Recs(q) && Recs(s) !! Owned(msgs) && Recs(q) !! Owned(msgs)
    ensures x !in Recs(q + r) && x !in Owned(msgs) && Recs(q + r) !! Owned(msgs) && Recs(r) !! Recs(q)
  {
    RecsAppend(q, r);
  }

  lemma SecondIsIn(s: seq<Cell>)
    requires TwoOutOfOrder(s)
    ensures s[1].rec in Recs(s)
  {
  }

  /** Two records that do not ascend: sortWorker loses the second one, and the merger that
      receives the first one appends all later messages of the table to the lost one. None
      of their records is ever reached. */
  method DamageLosesChannel(queue: RecordQueue, elem0: ExportRecord, ghost s: seq<Cell>,
      chan: seq<ExportRecord>, ghost msgs: seq<seq<Cell>>)
    requires queue.Valid() && queue.TailValid() && IsMessage(elem0, s) && PrevIsTail(s) && TwoOutOfOrder(s)
    requires Carries(chan, msgs, |msgs|)
    requires Recs(s) !! Recs(queue.q) && Recs(s) !! Owned(msgs) && Recs(queue.q) !! Owned(msgs)
    modifies queue, Recs(queue.q)`next, Recs(s)`next, Recs(s)`prev, Owned(msgs)`next
    ensures queue.Valid() && queue.q == old(queue.q) + [s[0]]
  {
    hide RecordQueue.Valid, Linked, Snapshot, Recs, Owned, Carries, PrevIsTail, IsMessage;
    ghost var q, lost := queue.q, s[1].rec;
    queue.TailIsIn();
    SecondIsIn(s);
    assert allocated(Recs(s)) && allocated(Recs(q)) && allocated(Owned(msgs));
    var elem; ghost var r;
    elem, r := SortOneBatch(elem0, s);
    DistinctOwners(s, r, lost, q, msgs);
    assert allocated(Recs(r)) && allocated(Recs(q + r));
    queue.Append(elem, r);
    AppendLost(queue, chan, msgs);
  }
}
