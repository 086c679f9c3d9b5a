/** The tree of mergers over linked lists: any number of streams become one. */
module MergeTreeStreams {
  import opened ExportOrder
  import opened ExportRecords
  import opened MergeWorker

  ghost function AllOwned(contents: seq<seq<seq<Cell>>>): set<ExportRecord> {
    if contents == [] then {} else Owned(contents[0]) + AllOwned(contents[1..])
  }

  // Every channel is a stream, and no record is on two channels.
  ghost predicate Streams(chans: seq<seq<ExportRecord>>, contents: seq<seq<seq<Cell>>>)
    reads AllOwned(contents)
    decreases |contents|
  {
    if contents == [] then chans == []
    else
      && chans != [] && Stream(chans[0], contents[0])
      && Owned(contents[0]) !! AllOwned(contents[1..])
      && Streams(chans[1..], contents[1..])
  }

  // The records of each channel.
  ghost function Lists(contents: seq<seq<seq<Cell>>>): (lists: seq<seq<Cell>>)
    ensures |lists| == |contents|
  {
    if contents == [] then [] else [Flat(contents[0])] + Lists(contents[1..])
  }

  // One level of the tree: neighbours are merged, an odd one out moves up.
  ghost function Level(order: SortType, lists: seq<seq<Cell>>): (r: seq<seq<Cell>>)
    ensures |r| == (|lists| + 1) / 2
  {
    if |lists| <= 1 then lists
    else [Merge(order, lists[0], lists[1])] + Level(order, lists[2..])
  }

  ghost function MergeAll(order: SortType, lists: seq<seq<Cell>>): seq<Cell>
    requires lists != []
    decreases |lists|
  {
    if |lists| == 1 then lists[0] else MergeAll(order, Level(order, lists))
  }

  ghost function Total(lists: seq<seq<Cell>>): multiset<Cell> {
    if lists == [] then multiset{} else multiset(lists[0]) + Total(lists[1..])
  }

  ghost predicate AllSorted(order: SortType, lists: seq<seq<Cell>>) {
    lists == [] || (Sorted(order, lists[0]) && AllSorted(order, lists[1..]))
  }

  lemma {:induction false} LevelKeeps(order: SortType, lists: seq<seq<Cell>>)
    ensures Total(Level(order, lists)) == Total(lists)
    ensures AllSorted(order, lists) ==> AllSorted(order, Level(order, lists))
  {
    hide Sorted, Merge;
    if |lists| >= 2 {
      var a, b, rest := lists[0], lists[1], lists[2..];
      assert lists[1..][1..] == rest;
      LevelKeeps(order, rest);
      MergeKeepsRecords(order, a, b);
      var above := Level(order, lists);
      assert above[0] == Merge(order, a, b) && above[1..] == Level(order, rest);
      if AllSorted(order, lists) {
        assert AllSorted(order, lists[1..]);
        MergeIsSorted(order, a, b);
      }
    }
  }

  /** Merging level by level keeps the records of all lists, and their order. */
  lemma {:induction false} MergeAllMerges(order: SortType, lists: seq<seq<Cell>>)
    requires lists != []
    ensures multiset(MergeAll(order, lists)) == Total(lists)
    ensures AllSorted(order, lists) ==> Sorted(order, MergeAll(order, lists))
    decreases |lists|
  {
    hide Sorted;
    if |lists| == 1 {
      assert lists[1..] == [];
    } else {
      LevelKeeps(order, lists);
      MergeAllMerges(order, Level(order, lists));
    }
  }

  lemma {:induction false} OwnedIsFlat(msgs: seq<seq<Cell>>)
    ensures Owned(msgs) == Recs(Flat(msgs))
  {
    if msgs != [] {
      OwnedIsFlat(msgs[1..]);
      RecsAppend(msgs[0], Flat(msgs[1..]));
    }
  }

  lemma {:induction false} RecsOfMerge(order: SortType, a: seq<Cell>, b: seq<Cell>)
    ensures Recs(Merge(order, a, b)) == Recs(a) + Recs(b)
    decreases |a| + |b|
  {
    hide Less;
    if a != [] && b != [] {
      if Less(order, a[0].key, b[0].key) {
        RecsOfMerge(order, a[1..], b);
      } else {
        RecsOfMerge(order, a, b[1..]);
      }
    }
  }

  // One merger, and which records it hands on.
  method MergePair(order: SortType, a: seq<ExportRecord>, b: seq<ExportRecord>,
      ghost ma: seq<seq<Cell>>, ghost mb: seq<seq<Cell>>)
    returns (r: seq<ExportRecord>, ghost mr: seq<seq<Cell>>)
    requires Stream(a, ma) && Stream(b, mb) && Owned(ma) !! Owned(mb)
    modifies Owned(ma)`next, Owned(ma)`prev, Owned(mb)`next, Owned(mb)`prev
    ensures Stream(r, mr) && Flat(mr) == Merge(order, Flat(ma), Flat(mb)) && Owned(mr) == Owned(ma) + Owned(mb)
    ensures |Flat(ma)| == 1 && |Flat(mb)| == 1 ==> |mr| == 1 && !EndsTight(mr)
    ensures |ma| == 1 && mb == [] ==> |mr| == 1 && (EndsTight(mr) <==> old(EndsTight(ma)))
  {
    hide Carries, Owned, Flat, Merge, Recs, EndsTight, WasTight, Prevs, Sorted;
    ghost var ending;
    r, mr, ending := MergeStreams(order, a, b, ma, mb);
    OwnedIsFlat(ma);
    OwnedIsFlat(mb);
    OwnedIsFlat(mr);
    RecsOfMerge(order, Flat(ma), Flat(mb));
  }

  /** A second merger does not repair what the first one broke: two tables of one record
      each, and a third one without records. */
  method StaysBroken(order: SortType, a: seq<ExportRecord>, b: seq<ExportRecord>,
      ghost ma: seq<seq<Cell>>, ghost mb: seq<seq<Cell>>)
    returns (r: seq<ExportRecord>, ghost mr: seq<seq<Cell>>)
    requires Stream(a, ma) && Stream(b, mb) && Owned(ma) !! Owned(mb)
    requires |Flat(ma)| == 1 && |Flat(mb)| == 1
    modifies Owned(ma)`next, Owned(ma)`prev, Owned(mb)`next, Owned(mb)`prev
    ensures Stream(r, mr) && Flat(mr) == Merge(order, Flat(ma), Flat(mb))
    ensures |mr| == 1 && !PrevIsTail(mr[0])
  {
    hide Owned, Flat, Merge, Recs;
    r, mr := MergePair(order, a, b, ma, mb);
    ghost var once := mr;
    NothingSent();
    MergeNothing(order, Flat(once));
    r, mr := MergePair(order, r, [], once, []);
  }

  lemma MergeNothing(order: SortType, a: seq<Cell>)
    ensures Merge(order, a, []) == a
  {
  }

  // The channels one level up.
  method MergeLevel(order: SortType, chans: seq<seq<ExportRecord>>, ghost contents: seq<seq<seq<Cell>>>)
    returns (r: seq<seq<ExportRecord>>, ghost cr: seq<seq<seq<Cell>>>)
    requires Streams(chans, contents)
    modifies AllOwned(contents)`next, AllOwned(contents)`prev
    ensures Streams(r, cr) && AllOwned(cr) == AllOwned(contents)
    ensures Lists(cr) == Level(order, Lists(contents)) && |r| == |cr| && |chans| == |contents|
    decreases |contents|
  {
    hide Carries, Owned, Flat, Merge;
    if |chans| <= 1 {
      return chans, contents;
    }
    ghost var ma, mb, rest := contents[0], contents[1], contents[2..];
    assert contents[1..][1..] == rest && chans[1..][1..] == chans[2..];
    assert allocated(Owned(ma)) && allocated(Owned(mb)) && allocated(AllOwned(rest));
    ghost var mr, cs;
    var merged, others;
    merged, mr := MergePair(order, chans[0], chans[1], ma, mb);
    others, cs := MergeLevel(order, chans[2..], rest);
    r, cr := [merged] + others, [mr] + cs;
    assert cr[1..] == cs && r[1..] == others;
    assert Lists(contents) == [Flat(ma), Flat(mb)] + Lists(rest);
  }

  /** The whole tree: for every schedule of its mergers, any number of streams become one
      stream with the records of all of them, in order if each of them is. */
  method MergeTree(order: SortType, chans: seq<seq<ExportRecord>>, ghost contents: seq<seq<seq<Cell>>>)
    returns (result: seq<ExportRecord>, ghost mr: seq<seq<Cell>>)
    requires chans != [] && Streams(chans, contents)
    modifies AllOwned(contents)`next, AllOwned(contents)`prev
    ensures Stream(result, mr) && Flat(mr) == MergeAll(order, Lists(contents))
    ensures multiset(Flat(mr)) == Total(Lists(contents))
    ensures AllSorted(order, Lists(contents)) ==> Sorted(order, Flat(mr))
    decreases |chans|
  {
    hide Carries, Owned, Flat, Merge, Sorted, Total, AllSorted;
    if |chans| == 1 {
      result, mr := chans[0], contents[0];
      assert Lists(contents) == [Flat(mr)];
    } else {
      var level;
      ghost var cl;
      level, cl := MergeLevel(order, chans, contents);
      result, mr := MergeTree(order, level, cl);
    }
    MergeAllMerges(order, Lists(contents));
  }
}
