/** What the natural merge sort of a batch computes, as functions on sequences. */
module SortSpec {
  import opened ExportOrder

  predicate Ascends<R>(a: Item<R>, b: Item<R>) {
    LessExpiry(a.key, b.key)
  }

  // Length of the longest strictly ascending prefix.
  function RunLength<R>(s: seq<Item<R>>): (n: nat)
    ensures n <= |s| && (s != [] ==> n >= 1)
  {
    if |s| <= 1 then |s|
    else if Ascends(s[0], s[1]) then 1 + RunLength(s[1..])
    else 1
  }

  /** findNaturalSublists: ascending runs, and pairs that are reversed. */
  function NaturalRuns<R>(s: seq<Item<R>>): seq<seq<Item<R>>>
    decreases |s|
  {
    if s == [] then []
    else if |s| == 1 then [s]
    else if !Ascends(s[0], s[1]) then [[s[1], s[0]]] + NaturalRuns(s[2..])
    else [s[..RunLength(s)]] + NaturalRuns(s[RunLength(s)..])
  }

  // One round of pairwise merging.
  function MergePairs<R>(runs: seq<seq<Item<R>>>): (r: seq<seq<Item<R>>>)
    ensures |r| == (|runs| + 1) / 2
  {
    if |runs| <= 1 then runs
    else [Merge(ExpiryTime, runs[0], runs[1])] + MergePairs(runs[2..])
  }

  // Rounds until two runs are left, and the final merge.
  function MergeAll<R>(runs: seq<seq<Item<R>>>): seq<Item<R>>
    requires |runs| >= 2
    decreases |runs|
  {
    if |runs| == 2 then Merge(ExpiryTime, runs[0], runs[1]) else MergeAll(MergePairs(runs))
  }

  // The batches sortWorker does not handle: two records that do not ascend.
  predicate TwoOutOfOrder<R>(s: seq<Item<R>>) {
    |s| == 2 && !Ascends(s[0], s[1])
  }

  /** The records reachable from what sortWorker sends for a batch. */
  function SortBatch<R>(s: seq<Item<R>>): seq<Item<R>> {
    var runs := NaturalRuns(s);
    if |runs| >= 2 then MergeAll(runs)
    else if TwoOutOfOrder(s) then [s[0]]     // the reversed pair is sent from its tail
    else s
  }

  /** ---- properties ---- */

  ghost predicate AllSorted<R>(runs: seq<seq<Item<R>>>) {
    forall i | 0 <= i < |runs| :: Sorted(ExpiryTime, runs[i])
  }

  // A maximal strictly ascending stretch is a run.
  lemma {:induction false} RunLengthIs<R>(s: seq<Item<R>>, n: nat)
    requires 1 <= n <= |s| && (n < |s| ==> !Ascends(s[n - 1], s[n]))
    requires forall i | 0 <= i < n - 1 :: Ascends(s[i], s[i + 1])
    ensures RunLength(s) == n
  {
    if n > 1 {
      RunLengthIs(s[1..], n - 1);
    }
  }

  lemma RunAtFront<R>(s: seq<Item<R>>, n: nat)
    requires 1 <= n <= |s| && (n < |s| ==> !Ascends(s[n - 1], s[n])) && (n == 1 ==> |s| == 1)
    requires forall i | 0 <= i < n - 1 :: Ascends(s[i], s[i + 1])
    ensures NaturalRuns(s) == [s[..n]] + NaturalRuns(s[n..])
  {
    RunLengthIs(s, n);
    if n == 1 {
      assert s[..1] == s && s[1..] == [];
      assert NaturalRuns(s) == [s] + NaturalRuns<R>([]);
    } else {
      assert Ascends(s[0], s[1]);
    }
  }

  lemma {:induction false} RunIsSorted<R>(s: seq<Item<R>>)
    ensures Sorted(ExpiryTime, s[..RunLength(s)])
  {
    if |s| >= 2 && Ascends(s[0], s[1]) {
      var t := s[1..];
      RunIsSorted(t);
      var run := t[..RunLength(t)];
      assert s[..RunLength(s)] == [s[0]] + run;
      NotLessTransitive(ExpiryTime, s[0].key, s[1].key, s[0].key);
      HeadIsLowerBound(ExpiryTime, run, s[0]);
      PrependKeepsSorted(ExpiryTime, s[0], run);
    }
  }

  lemma {:induction false} RunsAreSorted<R>(s: seq<Item<R>>)
    ensures AllSorted(NaturalRuns(s))
    decreases |s|
  {
    if |s| >= 2 {
      if !Ascends(s[0], s[1]) {
        RunsAreSorted(s[2..]);
      } else {
        RunIsSorted(s);
        RunsAreSorted(s[RunLength(s)..]);
      }
    }
  }

  // The first run of a batch: two records that do not ascend, reversed, or the longest
  // ascending stretch.
  ghost predicate IsFirstRun<R>(s: seq<Item<R>>, run: seq<Item<R>>) {
    || (|s| >= 2 && !Ascends(s[0], s[1]) && run == [s[1], s[0]])
    || (1 <= |run| <= |s| && run == s[..|run|]
        && (forall i | 0 <= i < |run| - 1 :: Ascends(s[i], s[i + 1]))
        && (|run| < |s| ==> |run| >= 2 && !Ascends(s[|run| - 1], s[|run|])))
  }

  ghost predicate AreRuns<R>(s: seq<Item<R>>, runs: seq<seq<Item<R>>>)
    decreases |runs|
  {
    if s == [] then runs == []
    else runs != [] && IsFirstRun(s, runs[0]) && AreRuns(s[|runs[0]|..], runs[1..])
  }

  lemma {:induction false} RunLengthIsLongest<R>(s: seq<Item<R>>)
    requires s != []
    ensures forall i | 0 <= i < RunLength(s) - 1 :: Ascends(s[i], s[i + 1])
    ensures RunLength(s) < |s| ==> !Ascends(s[RunLength(s) - 1], s[RunLength(s)])
  {
    if |s| >= 2 && Ascends(s[0], s[1]) {
      RunLengthIsLongest(s[1..]);
    }
  }

  /** A batch is cut, one run after the other, into the longest ascending stretches, where
      two records that do not ascend are one run, reversed. */
  lemma {:induction false} RunsAreNatural<R>(s: seq<Item<R>>)
    ensures AreRuns(s, NaturalRuns(s))
    decreases |s|
  {
    if |s| == 1 {
      assert s[1..] == [] && [s][1..] == [];
    } else if |s| >= 2 {
      var n := if Ascends(s[0], s[1]) then RunLength(s) else 2;
      RunLengthIsLongest(s);
      RunsAreNatural(s[n..]);
      assert NaturalRuns(s)[1..] == NaturalRuns(s[n..]);
    }
  }

  lemma FlatCons<T>(first: seq<T>, rest: seq<seq<T>>)
    ensures multiset(Flat([first] + rest)) == multiset(first) + multiset(Flat(rest))
  {
    assert ([first] + rest)[1..] == rest;
  }

  lemma SplitRecords<T>(s: seq<T>, n: nat)
    requires n <= |s|
    ensures multiset(s) == multiset(s[..n]) + multiset(s[n..])
  {
    assert s == s[..n] + s[n..];
  }

  // No record is lost or duplicated by cutting the batch into runs.
  lemma {:induction false} RunsKeepRecords<R>(s: seq<Item<R>>)
    ensures multiset(Flat(NaturalRuns(s))) == multiset(s)
    decreases |s|
  {
    hide Flat;
    if s == [] {
      FlatNil<Item<R>>();
    } else if |s| == 1 {
      FlatNil<Item<R>>();
      FlatCons(s, []);
      assert [s] + [] == [s];
    } else {
      var n := if Ascends(s[0], s[1]) then RunLength(s) else 2;
      var run := if Ascends(s[0], s[1]) then s[..n] else [s[1], s[0]];
      RunsKeepRecords(s[n..]);
      FlatCons(run, NaturalRuns(s[n..]));
      SplitRecords(s, n);
      assert s[..2] == [s[0], s[1]];
      assert multiset([s[1], s[0]]) == multiset([s[0], s[1]]);
    }
  }

  lemma FlatNil<T>()
    ensures Flat<T>([]) == []
  {
  }

  lemma {:induction false} MergePairsKeeps<R>(runs: seq<seq<Item<R>>>)
    requires AllSorted(runs)
    ensures AllSorted(MergePairs(runs)) && multiset(Flat(MergePairs(runs))) == multiset(Flat(runs))
  {
    if |runs| >= 2 {
      var a, b, rest := runs[0], runs[1], runs[2..];
      MergePairsKeeps(rest);
      MergeIsSorted(ExpiryTime, a, b);
      MergeKeepsRecords(ExpiryTime, a, b);
      assert runs[1..][1..] == rest;
      assert Flat(runs) == a + (b + Flat(rest));
      assert MergePairs(runs)[1..] == MergePairs(rest);
      assert Flat(MergePairs(runs)) == Merge(ExpiryTime, a, b) + Flat(MergePairs(rest));
    }
  }

  lemma {:induction false} MergeAllKeeps<R>(runs: seq<seq<Item<R>>>)
    requires |runs| >= 2 && AllSorted(runs)
    ensures Sorted(ExpiryTime, MergeAll(runs)) && multiset(MergeAll(runs)) == multiset(Flat(runs))
    decreases |runs|
  {
    if |runs| == 2 {
      MergeIsSorted(ExpiryTime, runs[0], runs[1]);
      MergeKeepsRecords(ExpiryTime, runs[0], runs[1]);
      assert runs[1..][1..] == [] && Flat(runs) == runs[0] + (runs[1] + Flat<Item<R>>([]));
    } else {
      MergePairsKeeps(runs);
      MergeAllKeeps(MergePairs(runs));
    }
  }

  // A single run is the batch itself, or a reversed pair.
  lemma {:induction false} OneRun<R>(s: seq<Item<R>>)
    requires |NaturalRuns(s)| == 1
    ensures NaturalRuns(s) == if TwoOutOfOrder(s) then [[s[1], s[0]]] else [s]
    ensures !TwoOutOfOrder(s) ==> Sorted(ExpiryTime, s)
  {
    RunsAreSorted(s);
    if |s| >= 2 {
      var n := if Ascends(s[0], s[1]) then RunLength(s) else 2;
      assert NaturalRuns(s[n..]) == [];
      assert s[n..] == [];
      assert s[..n] == s;
    }
    assert Sorted(ExpiryTime, NaturalRuns(s)[0]);
  }

  lemma {:induction false} DamagedIsOneRun<R>(s: seq<Item<R>>)
    ensures TwoOutOfOrder(s) ==> |NaturalRuns(s)| == 1
  {
    if TwoOutOfOrder(s) {
      assert s[2..] == [];
    }
  }

  lemma {:induction false} SortBatchNotEmpty<R>(s: seq<Item<R>>)
    requires s != []
    ensures SortBatch(s) != []
  {
    DamagedIsOneRun(s);
    if !TwoOutOfOrder(s) {
      SortBatchIsSort(s);
      assert |multiset(SortBatch(s))| == |multiset(s)|;
    }
  }

  /** The result of the sort stage is always in order, and it holds exactly the batch's
      records if and only if the batch is not two records that do not ascend. */
  lemma {:induction false} SortBatchIsSort<R>(s: seq<Item<R>>)
    requires s != []
    ensures Sorted(ExpiryTime, SortBatch(s))
    ensures multiset(SortBatch(s)) == multiset(s) <==> !TwoOutOfOrder(s)
  {
    var runs := NaturalRuns(s);
    assert runs != [];
    RunsAreSorted(s);
    RunsKeepRecords(s);
    if |runs| >= 2 {
      MergeAllKeeps(runs);
    } else {
      OneRun(s);
      if TwoOutOfOrder(s) {
        assert |multiset(s)| == 2 && |multiset(SortBatch(s))| == 1;
      }
    }
  }

  // The case that fails, as a concrete batch: the second record is lost.
  lemma PairIsLost()
    ensures var early := Item(1, ExportKey(7, 10, 0)); var late := Item(2, ExportKey(9, 20, 0));
            SortBatch([late, early]) == [late]
  {
    var early := Item(1, ExportKey(7, 10, 0));
    var late := Item(2, ExportKey(9, 20, 0));
    assert [late, early][2..] == [];
    assert NaturalRuns([late, early]) == [[early, late]] + NaturalRuns<int>([]);
  }

  /** ---- the whole stage ---- */

  ghost function SortedBatches<R>(msgs: seq<seq<Item<R>>>): (r: seq<seq<Item<R>>>)
    ensures |r| == |msgs|
  {
    if msgs == [] then [] else [SortBatch(msgs[0])] + SortedBatches(msgs[1..])
  }

  // No batch is one that sortWorker damages.
  ghost predicate NoneDamaged<R>(msgs: seq<seq<Item<R>>>) {
    forall i | 0 <= i < |msgs| :: !TwoOutOfOrder(msgs[i])
  }

  lemma {:induction false} BatchSize<R>(m: seq<Item<R>>)
    requires m != []
    ensures |SortBatch(m)| <= |m| && (|SortBatch(m)| == |m| <==> !TwoOutOfOrder(m))
  {
    SortBatchIsSort(m);
    if !TwoOutOfOrder(m) {
      assert |multiset(SortBatch(m))| == |multiset(m)|;
    } else {
      assert m[2..] == [] && NaturalRuns(m) == [[m[1], m[0]]] + NaturalRuns<R>([]);
    }
  }

  // The stage sends at most what it receives, and all of it only without damage.
  lemma {:induction false} StageSize<R>(msgs: seq<seq<Item<R>>>)
    requires forall i | 0 <= i < |msgs| :: msgs[i] != []
    ensures |Flat(SortedBatches(msgs))| <= |Flat(msgs)|
    ensures |Flat(SortedBatches(msgs))| == |Flat(msgs)| <==> NoneDamaged(msgs)
  {
    hide SortBatch;
    if msgs != [] {
      StageSize(msgs[1..]);
      BatchSize(msgs[0]);
      assert SortedBatches(msgs)[1..] == SortedBatches(msgs[1..]);
      assert NoneDamaged(msgs) <==> !TwoOutOfOrder(msgs[0]) && NoneDamaged(msgs[1..]) by {
        if NoneDamaged(msgs[1..]) && !TwoOutOfOrder(msgs[0]) {
          forall i | 0 <= i < |msgs| ensures !TwoOutOfOrder(msgs[i]) {
            assert i > 0 ==> msgs[i] == msgs[1..][i - 1];
          }
        }
      }
    }
  }

  lemma {:induction false} UndamagedKeepsRecords<R>(msgs: seq<seq<Item<R>>>)
    requires NoneDamaged(msgs) && forall i | 0 <= i < |msgs| :: msgs[i] != []
    ensures multiset(Flat(SortedBatches(msgs))) == multiset(Flat(msgs))
  {
    hide SortBatch, Flat;
    if msgs == [] {
      FlatNil<Item<R>>();
    } else {
      UndamagedKeepsRecords(msgs[1..]);
      SortBatchIsSort(msgs[0]);
      FlatCons(SortBatch(msgs[0]), SortedBatches(msgs[1..]));
      FlatCons(msgs[0], msgs[1..]);
      assert msgs == [msgs[0]] + msgs[1..];
    }
  }

  lemma {:induction false} BatchesAreSorted<R>(msgs: seq<seq<Item<R>>>, i: nat)
    requires i < |msgs| && forall k | 0 <= k < |msgs| :: msgs[k] != []
    ensures SortedBatches(msgs)[i] == SortBatch(msgs[i]) && Sorted(ExpiryTime, SortedBatches(msgs)[i])
  {
    if i == 0 {
      SortBatchIsSort(msgs[0]);
    } else {
      BatchesAreSorted(msgs[1..], i - 1);
    }
  }

  /** Every batch leaves the stage in order, and the stage as a whole conserves the
      records exactly when no batch is damaged. */
  lemma {:induction false} SortStage<R>(msgs: seq<seq<Item<R>>>)
    requires forall i | 0 <= i < |msgs| :: msgs[i] != []
    ensures forall i | 0 <= i < |msgs| :: Sorted(ExpiryTime, SortedBatches(msgs)[i])
    ensures multiset(Flat(SortedBatches(msgs))) == multiset(Flat(msgs)) <==> NoneDamaged(msgs)
  {
    forall i | 0 <= i < |msgs| ensures Sorted(ExpiryTime, SortedBatches(msgs)[i]) {
      BatchesAreSorted(msgs, i);
    }
    StageSize(msgs);
    if NoneDamaged(msgs) {
      UndamagedKeepsRecords(msgs);
    } else {
      assert |multiset(Flat(SortedBatches(msgs)))| != |multiset(Flat(msgs))|;
    }
  }
}
