/** The sort stage on heap records: natural runs, in-place pairwise merging, and the
    worker that sorts every batch of a channel. */
module SortWorker {
  import opened ExportOrder
  import opened ExportRecords
  import opened SortSpec

  // mergeSublist: put `elem` behind the records merged so far.
  method Link(ret: ExportRecord?, tail: ExportRecord?, elem: ExportRecord, last: bool, ghost out: seq<Cell>)
    returns (ret': ExportRecord)
    requires Chain(out) && elem !in Recs(out) && (last ==> PrevCleared(out))
    requires if out == [] then ret == null && tail == null else ret == out[0].rec && tail == out[|out| - 1].rec
    modifies Recs(out)`next, elem`prev
    ensures Chain(out + [Item(elem, elem.Key())]) && (last ==> PrevCleared(out + [Item(elem, elem.Key())]))
    ensures ret' == (out + [Item(elem, elem.Key())])[0].rec
    ensures Recs(out + [Item(elem, elem.Key())]) == Recs(out) + {elem}
  {
    RecsAppend(out, [Item(elem, elem.Key())]);
    if ret == null {
      if last {
        elem.prev := elem;
      }
      ret' := elem;
    } else {
      if last {
        elem.prev := null;
      }
      ret' := ret;
      tail.next := elem;
    }
  }

  // The rest of a list that is not yet merged.
  ghost predicate IsList(head: ExportRecord?, s: seq<Cell>)
    reads Recs(s)
  {
    head == (if s == [] then null else s[0].rec) && Linked(s) && Snapshot(s)
  }

  lemma ListTail(head: ExportRecord?, s: seq<Cell>)
    requires IsList(head, s) && s != []
    ensures head != null && IsList(head.next, s[1..]) && head == s[0].rec && head.Key() == s[0].key
    ensures head !in Recs(s[1..]) && Recs(s) == Recs(s[1..]) + {head}
  {
    LinkedTail(s);
  }

  // Everything the merging loop knows.
  ghost predicate Merging(a: ExportRecord?, b: ExportRecord?, ret: ExportRecord?, tail: ExportRecord?, last: bool,
      out: seq<Cell>, ga: seq<Cell>, gb: seq<Cell>)
    reads Recs(out), Recs(ga), Recs(gb)
  {
    && IsList(a, ga) && IsList(b, gb) && Chain(out) && Snapshot(out) && (last ==> PrevCleared(out))
    && (if out == [] then ret == null && tail == null else ret == out[0].rec && tail == out[|out| - 1].rec)
    && Recs(out) !! Recs(ga) && Recs(out) !! Recs(gb) && Recs(ga) !! Recs(gb)
  }

  // One iteration, taking the head of `a`.
  method TakeHead(a: ExportRecord, b: ExportRecord?, ret: ExportRecord?, tail: ExportRecord?, last: bool,
      ghost out: seq<Cell>, ghost ga: seq<Cell>, ghost gb: seq<Cell>)
    returns (a': ExportRecord?, ret': ExportRecord, tail': ExportRecord)
    requires Merging(a, b, ret, tail, last, out, ga, gb) && ga != []
    modifies Recs(out)`next, a`prev
    ensures Merging(a', b, ret', tail', last, out + [ga[0]], ga[1..], gb)
    ensures Recs(out + [ga[0]]) == Recs(out) + {a} && Recs(ga[1..]) + {a} == Recs(ga)
    ensures a' == null <==> ga[1..] == []
  {
    ListTail(a, ga);
    assert allocated(Recs(ga[1..])) && allocated(Recs(gb)) && allocated(Recs(out));
    assert ga[0] == Item(a, a.Key());
    a' := a.next;
    ret' := Link(ret, tail, a, last, out);
    tail' := a;
  }

  // The fix-up loops of the final merge; returns the last record.
  method ClearPrevs(rest: ExportRecord, ghost g: seq<Cell>) returns (tail: ExportRecord)
    requires IsMessage(rest, g)
    modifies Recs(g)`prev
    ensures tail == g[|g| - 1].rec
    ensures forall i | 0 <= i < |g| :: g[i].rec.prev == null
  {
    tail := rest;
    var a: ExportRecord? := rest;
    ghost var k := 0;
    while a != null
      invariant 0 <= k <= |g| && a == (if k < |g| then g[k].rec else null)
      invariant k > 0 ==> tail == g[k - 1].rec
      invariant forall i | 0 <= i < k :: g[i].rec.prev == null
      decreases |g| - k
    {
      tail := a;
      a.prev := null;
      a := a.next;
      k := k + 1;
    }
  }

  lemma ChainJoins(out: seq<Cell>, g: seq<Cell>, rest: ExportRecord)
    requires Chain(out) && Snapshot(out) && out != [] && out[|out| - 1].rec.next == rest
    requires IsMessage(rest, g) && Recs(out) !! Recs(g)
    ensures IsMessage(out[0].rec, out + g)
  {
    JoinIsLinked(out, g);
  }

  // The last record now has a successor.
  lemma PrevsRepaired(out: seq<Cell>, g: seq<Cell>)
    requires out != [] && g != [] && PrevCleared(out) && out[0].rec.prev == g[|g| - 1].rec
    requires forall i | 0 <= i < |g| :: g[i].rec.prev == null
    ensures PrevIsTail(out + g) && PrevCleared(out + g)
  {
  }

  // One list is used up: attach the other one as it is, and repair prev.
  method Complete(ret: ExportRecord, last0: ExportRecord, rest: ExportRecord, last: bool,
      ghost out: seq<Cell>, ghost g: seq<Cell>)
    requires Chain(out) && Snapshot(out) && out != [] && ret == out[0].rec && last0 == out[|out| - 1].rec
    requires IsMessage(rest, g) && Recs(out) !! Recs(g) && (last ==> PrevCleared(out))
    modifies last0`next, ret`prev, Recs(g)`prev
    ensures IsMessage(ret, out + g)
    ensures last ==> PrevIsTail(out + g) && PrevCleared(out + g)
  {
    hide Snapshot, Linked, PrevIsTail, Recs;
    NotEmpty(rest, g);
    last0.next := rest;
    ChainJoins(out, g, rest);
    assert allocated(Recs(out + g));
    if last {
      var tail := ClearPrevs(rest, g);
      ret.prev := tail;
      PrevsRepaired(out, g);
    }
  }

  lemma NotEmpty(elem: ExportRecord, s: seq<Cell>)
    requires IsMessage(elem, s)
    ensures s != [] && elem == s[0].rec
  {
  }

  lemma MergeStep(out: seq<Cell>, ga: seq<Cell>, gb: seq<Cell>)
    ensures ga == [] ==> Merge(ExpiryTime, ga, gb) == gb
    ensures gb == [] ==> Merge(ExpiryTime, ga, gb) == ga
    ensures ga != [] && gb != [] ==>
              out + Merge(ExpiryTime, ga, gb) ==
              if Ascends(ga[0], gb[0]) then (out + [ga[0]]) + Merge(ExpiryTime, ga[1..], gb)
              else (out + [gb[0]]) + Merge(ExpiryTime, ga, gb[1..])
  {
  }

  // The merging loop: what is left in the end is one non-empty list.
  method MergeHeads(a0: ExportRecord, b0: ExportRecord, last: bool, ghost sa: seq<Cell>, ghost sb: seq<Cell>)
    returns (ret: ExportRecord, tail: ExportRecord, rest: ExportRecord, ghost out: seq<Cell>, ghost g: seq<Cell>)
    requires IsMessage(a0, sa) && IsMessage(b0, sb) && Recs(sa) !! Recs(sb)
    modifies Recs(sa)`next, Recs(sb)`next, Recs(sa)`prev, Recs(sb)`prev
    ensures out + g == Merge(ExpiryTime, sa, sb) && Recs(out) + Recs(g) == Recs(sa) + Recs(sb)
    ensures Chain(out) && Snapshot(out) && out != [] && ret == out[0].rec && tail == out[|out| - 1].rec
    ensures IsMessage(rest, g) && Recs(out) !! Recs(g) && (last ==> PrevCleared(out))
  {
    hide Linked, Snapshot, Recs, Chain, PrevCleared, Merge, IsList;
    var a: ExportRecord?, b: ExportRecord? := a0, b0;
    var head: ExportRecord?, end: ExportRecord? := null, null;
    ghost var ga, gb;
    out, ga, gb := [], sa, sb;
    Start(a0, b0, last, sa, sb);
    while a != null && b != null
      invariant Merging(a, b, head, end, last, out, ga, gb)
      invariant out + Merge(ExpiryTime, ga, gb) == Merge(ExpiryTime, sa, sb)
      invariant Recs(out) + Recs(ga) + Recs(gb) == Recs(sa) + Recs(sb)
      invariant (ga != [] || gb != []) && (out == [] ==> ga != [] && gb != [])
      invariant (a == null <==> ga == []) && (b == null <==> gb == [])
      decreases |ga| + |gb|
    {
      ListTail(a, ga);
      ListTail(b, gb);
      MergeStep(out, ga, gb);
      if LessExpiry(a.Key(), b.Key()) {
        ghost var x := ga[0];
        a, head, end := TakeHead(a, b, head, end, last, out, ga, gb);
        out, ga := out + [x], ga[1..];
      } else {
        ghost var x := gb[0];
        b, head, end := TakeHead(b, a, head, end, last, out, gb, ga);
        out, gb := out + [x], gb[1..];
      }
    }
    MergeStep(out, ga, gb);
    ret, tail := head, end;
    if a != null {
      ListIsMessage(a, ga);
      rest, g := a, ga;
    } else {
      ListIsMessage(b, gb);
      rest, g := b, gb;
    }
  }

  lemma Start(a: ExportRecord, b: ExportRecord, last: bool, sa: seq<Cell>, sb: seq<Cell>)
    requires IsMessage(a, sa) && IsMessage(b, sb) && Recs(sa) !! Recs(sb)
    ensures Merging(a, b, null, null, last, [], sa, sb) && Recs([]) == {}
  {
  }

  lemma ListIsMessage(head: ExportRecord?, s: seq<Cell>)
    requires IsList(head, s) && s != []
    ensures head != null && IsMessage(head, s)
  {
  }

  /** mergeSublist: merges two lists in place by relinking. The final merge of a batch
      (`last`) also repairs the prev fields. */
  method MergeSublist(a: ExportRecord, b: ExportRecord, last: bool, ghost sa: seq<Cell>, ghost sb: seq<Cell>)
    returns (ret: ExportRecord, ghost m: seq<Cell>)
    requires IsMessage(a, sa) && IsMessage(b, sb) && Recs(sa) !! Recs(sb)
    modifies Recs(sa)`next, Recs(sb)`next, Recs(sa)`prev, Recs(sb)`prev
    ensures m == Merge(ExpiryTime, sa, sb) && IsMessage(ret, m) && Recs(m) == Recs(sa) + Recs(sb)
    ensures last ==> PrevIsTail(m) && PrevCleared(m)
  {
    hide Linked, Snapshot, Recs, Chain, PrevCleared, PrevIsTail, Merge;
    ghost var out, g;
    var head, tail, rest;
    head, tail, rest, out, g := MergeHeads(a, b, last, sa, sb);
    RecsAppend(out, g);
    ret, m := head, out + g;
    Complete(head, tail, rest, last, out, g);
  }

  /** ---- natural runs ---- */

  // The records from position b on are still linked as they came.
  ghost predicate Untouched(s: seq<Cell>, b: int)
    requires 0 <= b <= |s|
    reads Recs(s)`next
  {
    forall i {:trigger s[i].rec.next} | b <= i < |s| :: s[i].rec.next == After(s, i)
  }

  lemma {:induction false} BehindIsDisjoint(s: seq<Cell>, b: int)
    requires 0 <= b <= |s| && Distinct(s)
    ensures Recs(s[..b]) !! Recs(s[b..]) && Recs(s[..b]) + Recs(s[b..]) == Recs(s)
    decreases b
  {
    assert s == s[..b] + s[b..];
    RecsAppend(s[..b], s[b..]);
    if b > 0 {
      BehindIsDisjoint(s, b - 1);
      assert s[..b] == s[..b - 1] + [s[b - 1]];
      RecsAppend(s[..b - 1], [s[b - 1]]);
      assert s[b - 1..] == [s[b - 1]] + s[b..];
      NotInRecs(s[b - 1].rec, s[b..]);
    }
  }

  // Append a run of the records b..k to the list of heads.
  lemma AddRun(heads: seq<ExportRecord>, runs: seq<seq<Cell>>, s: seq<Cell>, b: int, k: int,
      first: ExportRecord, run: seq<Cell>)
    requires Carries(heads, runs, 0) && 0 <= b < k <= |s| && Distinct(s)
    requires Owned(runs) == Recs(s[..b]) && Recs(run) == Recs(s[b..k]) && IsMessage(first, run)
    ensures Carries(heads + [first], runs + [run], 0) && Owned(runs + [run]) == Recs(s[..k])
  {
    BehindIsDisjoint(s, b);
    assert s[..k] == s[..b] + s[b..k] && s[b..] == s[b..k] + s[k..];
    RecsAppend(s[..b], s[b..k]);
    RecsAppend(s[b..k], s[k..]);
    OwnedAppend(runs, run);
    CarriesAppend(heads, runs, 0, first, run);
  }

  // Two records that do not ascend: exchange them.
  method ReversePair(prev: ExportRecord, head: ExportRecord, ghost s: seq<Cell>, ghost b: int)
    requires Distinct(s) && Snapshot(s) && 0 <= b && b + 1 < |s| && prev == s[b].rec && head == s[b + 1].rec
    requires Untouched(s, b)
    modifies prev`next, head`next
    ensures Untouched(s, b + 2) && IsMessage(head, [s[b + 1], s[b]])
    ensures Recs([s[b + 1], s[b]]) == Recs(s[b..b + 2])
  {
    head.next := prev;
    prev.next := null;
    assert s[b..b + 2] == [s[b], s[b + 1]];
    RecsAppend([s[b]], [s[b + 1]]);
    RecsAppend([s[b + 1]], [s[b]]);
    assert [s[b + 1], s[b]] == [s[b + 1]] + [s[b]] && [s[b], s[b + 1]] == [s[b]] + [s[b + 1]];
  }

  // An ascending run ends: cut it off.
  method CutRun(prev: ExportRecord, ghost s: seq<Cell>, ghost b: int, ghost k: int)
    requires Distinct(s) && Snapshot(s) && 0 <= b < k <= |s| && prev == s[k - 1].rec && Untouched(s, b)
    modifies prev`next
    ensures Untouched(s, k) && IsMessage(s[b].rec, s[b..k])
  {
    prev.next := null;
    ghost var run := s[b..k];
    forall i | 0 <= i < |run| ensures run[i].rec.next == After(run, i) {
      assert run[i] == s[b + i];
    }
  }

  // The runs before position b are finished.
  ghost predicate RunsDone(heads: seq<ExportRecord>, runs: seq<seq<Cell>>, s: seq<Cell>, b: int)
    reads Owned(runs), Recs(s)
  {
    && 0 <= b <= |s| && Distinct(s) && Snapshot(s) && Untouched(s, b)
    && Carries(heads, runs, 0) && Owned(runs) == Recs(s[..b])
    && runs + NaturalRuns(s[b..]) == NaturalRuns(s)
  }

  // The open run b..k ascends.
  ghost predicate OpenRun(s: seq<Cell>, b: int, k: int) {
    0 <= b <= k <= |s| && forall i | b <= i < k - 1 :: Ascends(s[i], s[i + 1])
  }

  lemma {:induction false} NextRun(runs: seq<seq<Cell>>, s: seq<Cell>, b: int, k: int)
    requires 0 <= b < k <= |s| && runs + NaturalRuns(s[b..]) == NaturalRuns(s)
    requires OpenRun(s, b, k) && (k < |s| ==> !Ascends(s[k - 1], s[k])) && (k == b + 1 ==> k == |s|)
    ensures (runs + [s[b..k]]) + NaturalRuns(s[k..]) == NaturalRuns(s)
  {
    hide NaturalRuns;
    var t := s[b..];
    assert t[k - b..] == s[k..] && t[..k - b] == s[b..k];
    forall i | 0 <= i < k - b - 1 ensures Ascends(t[i], t[i + 1]) {
      assert Ascends(s[b + i], s[b + i + 1]);
    }
    RunAtFront(t, k - b);
    assert (runs + [s[b..k]]) + NaturalRuns(s[k..]) == runs + ([s[b..k]] + NaturalRuns(s[k..]));
  }

  lemma {:induction false} NextPair(runs: seq<seq<Cell>>, s: seq<Cell>, b: int)
    requires 0 <= b && b + 1 < |s| && runs + NaturalRuns(s[b..]) == NaturalRuns(s)
    requires !Ascends(s[b], s[b + 1])
    ensures (runs + [[s[b + 1], s[b]]]) + NaturalRuns(s[b + 2..]) == NaturalRuns(s)
  {
    var t, pair := s[b..], [s[b + 1], s[b]];
    assert t[2..] == s[b + 2..] && t[0] == s[b] && t[1] == s[b + 1];
    assert NaturalRuns(t) == [pair] + NaturalRuns(t[2..]);
    assert (runs + [pair]) + NaturalRuns(t[2..]) == runs + ([pair] + NaturalRuns(t[2..]));
  }

  method ClosePair(prev: ExportRecord, head: ExportRecord, ghost heads: seq<ExportRecord>, ghost runs: seq<seq<Cell>>,
      ghost s: seq<Cell>, ghost b: int)
    requires RunsDone(heads, runs, s, b) && b + 1 < |s| && prev == s[b].rec && head == s[b + 1].rec
    requires !Ascends(s[b], s[b + 1])
    modifies prev`next, head`next
    ensures RunsDone(heads + [head], runs + [[s[b + 1], s[b]]], s, b + 2)
  {
    hide Carries, Owned, NaturalRuns, IsMessage;
    BehindIsDisjoint(s, b);
    assert s[b..][0] == s[b] && s[b..][1] == s[b + 1];
    assert allocated(Owned(runs));
    ReversePair(prev, head, s, b);
    AddRun(heads, runs, s, b, b + 2, head, [s[b + 1], s[b]]);
    NextPair(runs, s, b);
  }

  method CloseRun(prev: ExportRecord, first: ExportRecord, ghost heads: seq<ExportRecord>, ghost runs: seq<seq<Cell>>,
      ghost s: seq<Cell>, ghost b: int, ghost k: int)
    requires RunsDone(heads, runs, s, b) && b < k <= |s| && first == s[b].rec && prev == s[k - 1].rec
    requires OpenRun(s, b, k) && (k < |s| ==> !Ascends(s[k - 1], s[k])) && (k == b + 1 ==> k == |s|)
    modifies prev`next
    ensures RunsDone(heads + [first], runs + [s[b..k]], s, k)
  {
    hide Carries, Owned, NaturalRuns, IsMessage;
    BehindIsDisjoint(s, b);
    assert s[b..][k - 1 - b] == s[k - 1];
    assert allocated(Owned(runs));
    CutRun(prev, s, b, k);
    AddRun(heads, runs, s, b, k, first, s[b..k]);
    NextRun(runs, s, b, k);
  }

  /** findNaturalSublists: cut a nil-terminated list into ascending runs, in place. */
  method FindNaturalSublists(head0: ExportRecord?, ghost s: seq<Cell>)
    returns (heads: seq<ExportRecord>, ghost runs: seq<seq<Cell>>)
    requires IsList(head0, s)
    modifies Recs(s)`next
    ensures runs == NaturalRuns(s) && Carries(heads, runs, 0) && Owned(runs) == Recs(s)
  {
    hide Carries, Owned, NaturalRuns, Recs, RunsDone;
    var head, prev: ExportRecord?, first: ExportRecord? := head0, null, null;
    var more := false;
    heads, runs := [], [];
    ghost var b, k := 0, 0;
    NoRuns(head0, s);
    while head != null
      invariant RunsDone(heads, runs, s, b) && OpenRun(s, b, k)
      invariant head == (if k < |s| then s[k].rec else null)
      invariant if b == k then prev == null && first == null && !more
                else prev == s[k - 1].rec && first == s[b].rec && (more <==> k >= b + 2) && (k == b + 1 ==> k < |s|)
      decreases |s| - k, k - b
    {
      Facts(heads, runs, s, b, k);
      if prev == null {
        if head.next == null {
          // last element
          CloseRun(head, head, heads, runs, s, b, k + 1);
          heads, runs, k := heads + [head], runs + [s[b..k + 1]], k + 1;
          AllDone(heads, runs, s, k);
          return;
        }
        first := head;
        prev := head;
        head := head.next;
        k := k + 1;
      } else if !LessExpiry(prev.Key(), head.Key()) {
        if !more {
          // two unsorted elements: add them reversed
          var newhead := head.next;
          ClosePair(prev, head, heads, runs, s, b);
          heads, runs := heads + [head], runs + [[s[b + 1], s[b]]];
          first, prev, head := null, null, newhead;
          b, k := b + 2, k + 1;
        } else {
          // two or more sorted elements
          CloseRun(prev, first, heads, runs, s, b, k);
          heads, runs := heads + [first], runs + [s[b..k]];
          first, prev, more := null, null, false;
          b := k;
        }
      } else {
        more := true;
        prev := head;
        head := head.next;
        k := k + 1;
      }
    }
    if first != null {
      Facts(heads, runs, s, b, k);
      CloseRun(prev, first, heads, runs, s, b, k);
      heads, runs := heads + [first], runs + [s[b..k]];
    }
    AllDone(heads, runs, s, k);
  }

  lemma {:induction false} NoRuns(head: ExportRecord?, s: seq<Cell>)
    requires IsList(head, s)
    ensures RunsDone([], [], s, 0)
  {
    assert s[..0] == [] && s[0..] == s && [] + NaturalRuns(s) == NaturalRuns(s);
  }

  lemma {:induction false} Facts(heads: seq<ExportRecord>, runs: seq<seq<Cell>>, s: seq<Cell>, b: int, k: int)
    requires RunsDone(heads, runs, s, b) && b <= k <= |s|
    ensures k < |s| ==> s[k].rec.next == After(s, k) && s[k].rec.Key() == s[k].key
    ensures 0 < k ==> s[k - 1].rec.Key() == s[k - 1].key
    ensures forall i | b <= i < |s| :: s[i].rec in Recs(s)
  {
  }

  lemma {:induction false} AllDone(heads: seq<ExportRecord>, runs: seq<seq<Cell>>, s: seq<Cell>, k: int)
    requires RunsDone(heads, runs, s, k) && k == |s|
    ensures runs == NaturalRuns(s) && Carries(heads, runs, 0) && Owned(runs) == Recs(s)
  {
    assert s[..k] == s && s[k..] == [];
    assert runs + [] == runs;
  }

  /** ---- merging rounds ---- */

  // The first two lists of a channel's worth of lists, and the others.
  lemma {:induction false} FirstTwo(heads: seq<ExportRecord>, runs: seq<seq<Cell>>)
    requires Carries(heads, runs, 0) && |runs| >= 2
    ensures |heads| == |runs| && IsMessage(heads[0], runs[0]) && IsMessage(heads[1], runs[1])
    ensures Recs(runs[0]) !! Recs(runs[1]) && Carries(heads[2..], runs[2..], 0)
    ensures Owned(runs) == Recs(runs[0]) + Recs(runs[1]) + Owned(runs[2..])
    ensures Owned(runs[2..]) !! Recs(runs[0]) && Owned(runs[2..]) !! Recs(runs[1])
  {
    assert heads[1..][0] == heads[1] && runs[1..][0] == runs[1];
    assert heads[1..][1..] == heads[2..] && runs[1..][1..] == runs[2..];
    SameLength(heads, runs, 0);
    StrictIrrelevant(heads[2..], runs[2..], -2, 0);
  }

  // Below 1 the number of strict messages makes no difference.
  lemma {:induction false} StrictIrrelevant(chan: seq<ExportRecord>, msgs: seq<seq<Cell>>, a: int, b: int)
    requires Carries(chan, msgs, a) && b <= 0
    ensures Carries(chan, msgs, b)
  {
    if msgs != [] {
      StrictIrrelevant(chan[1..], msgs[1..], a - 1, b - 1);
    }
  }

  lemma {:induction false} SameLength(chan: seq<ExportRecord>, msgs: seq<seq<Cell>>, strict: int)
    requires Carries(chan, msgs, strict)
    ensures |chan| == |msgs|
  {
    if msgs != [] {
      SameLength(chan[1..], msgs[1..], strict - 1);
    }
  }

  // Between two iterations of the pairwise merging loop.
  ghost predicate RoundInv(heads: seq<ExportRecord>, i: int, done: seq<seq<Cell>>, rest: seq<seq<Cell>>,
      runs: seq<seq<Cell>>, all: set<ExportRecord>)
    reads Owned(done), Owned(rest)
  {
    && 0 <= 2 * i <= |heads| && |heads| - 2 * i == |rest|
    && Carries(heads[..i], done, 0) && Carries(heads[2 * i..], rest, 0)
    && Owned(done) !! Owned(rest) && Owned(done) + Owned(rest) == all
    && done + MergePairs(rest) == MergePairs(runs)
  }

  method MergePair(heads: seq<ExportRecord>, i: int, ghost done: seq<seq<Cell>>, ghost rest: seq<seq<Cell>>,
      ghost runs: seq<seq<Cell>>, ghost all: set<ExportRecord>)
    returns (heads': seq<ExportRecord>, ghost done': seq<seq<Cell>>)
    requires RoundInv(heads, i, done, rest, runs, all) && |rest| >= 2
    modifies Owned(rest)`next, Owned(rest)`prev
    ensures RoundInv(heads', i + 1, done', rest[2..], runs, all) && |heads'| == |heads|
  {
    hide Carries, Owned, MergePairs, Merge, IsMessage;
    var t := heads[2 * i..];
    assert t[0] == heads[2 * i] && t[1] == heads[2 * i + 1] && t[2..] == heads[2 * (i + 1)..];
    FirstTwo(t, rest);
    assert allocated(Owned(done)) && allocated(Owned(rest[2..])) && allocated(Owned(rest));
    var m; ghost var c;
    m, c := MergeSublist(heads[i * 2], heads[i * 2 + 1], false, rest[0], rest[1]);
    heads' := heads[i := m];
    done' := done + [c];
    CarriesAppend(heads[..i], done, 0, m, c);
    OwnedAppend(done, c);
    PairStep(rest);
    assert heads'[..i + 1] == heads[..i] + [m] && heads'[2 * (i + 1)..] == heads[2 * (i + 1)..];
    assert (done + [c]) + MergePairs(rest[2..]) == done + ([c] + MergePairs(rest[2..]));
  }

  lemma {:induction false} PairStep(rest: seq<seq<Cell>>)
    requires |rest| >= 2
    ensures MergePairs(rest) == [Merge(ExpiryTime, rest[0], rest[1])] + MergePairs(rest[2..])
  {
  }

  // One round: heads 0, 1, .. become the merges of 0+1, 2+3, ..; an odd one moves up.
  method MergeRound(heads0: seq<ExportRecord>, ghost runs: seq<seq<Cell>>)
    returns (heads: seq<ExportRecord>, ghost merged: seq<seq<Cell>>)
    requires Carries(heads0, runs, 0) && |runs| >= 2
    modifies Owned(runs)`next, Owned(runs)`prev
    ensures merged == MergePairs(runs) && Carries(heads, merged, 0) && Owned(merged) == Owned(runs)
  {
    hide Carries, Owned, MergePairs, RoundInv, Recs;
    heads := heads0;
    merged := [];
    ghost var rest := runs;
    ghost var all := Owned(runs);
    RoundStarts(heads, runs);
    var numEven := |heads| / 2;
    for i := 0 to numEven
      invariant |heads| == |heads0| == |runs|
      invariant RoundInv(heads, i, merged, rest, runs, all)
    {
      RoundFacts(heads, i, merged, rest, runs, all);
      heads, merged := MergePair(heads, i, merged, rest, runs, all);
      rest := rest[2..];
    }
    RoundFacts(heads, numEven, merged, rest, runs, all);
    RoundEnds(heads, numEven, merged, rest, runs, all);
    if |heads| % 2 == 1 {
      heads := heads[numEven := heads[|heads| - 1]];
      heads := heads[..numEven + 1];
    } else {
      heads := heads[..numEven];
    }
    merged := merged + rest;
  }

  lemma {:induction false} RoundStarts(heads: seq<ExportRecord>, runs: seq<seq<Cell>>)
    requires Carries(heads, runs, 0)
    ensures |heads| == |runs| && RoundInv(heads, 0, [], runs, runs, Owned(runs))
  {
    SameLength(heads, runs, 0);
    assert heads[..0] == [] && heads[0..] == heads && [] + MergePairs(runs) == MergePairs(runs);
  }

  lemma {:induction false} RoundFacts(heads: seq<ExportRecord>, i: int, done: seq<seq<Cell>>, rest: seq<seq<Cell>>,
      runs: seq<seq<Cell>>, all: set<ExportRecord>)
    requires RoundInv(heads, i, done, rest, runs, all)
    ensures |heads| - 2 * i == |rest| && Owned(rest) <= all
  {
  }

  lemma {:induction false} RoundEnds(heads: seq<ExportRecord>, i: int, done: seq<seq<Cell>>, rest: seq<seq<Cell>>,
      runs: seq<seq<Cell>>, all: set<ExportRecord>)
    requires RoundInv(heads, i, done, rest, runs, all) && |rest| <= 1 && i < |heads|
    ensures done + rest == MergePairs(runs) && Owned(done + rest) == all
    ensures |rest| == 0 ==> Carries(heads[..i], done + rest, 0)
    ensures |rest| == 1 ==> Carries(heads[i := heads[|heads| - 1]][..i + 1], done + rest, 0)
  {
    if |rest| == 1 {
      var h := heads[|heads| - 1];
      assert heads[2 * i..] == [h];
      assert rest == [rest[0]] && rest[1..] == [];
      assert Owned(rest) == Recs(rest[0]);
      CarriesAppend(heads[..i], done, 0, h, rest[0]);
      OwnedAppend(done, rest[0]);
      assert heads[i := h][..i + 1] == heads[..i] + [h];
    } else {
      assert rest == [] && done + rest == done;
    }
  }

  /** One batch through sortWorker: what is sent is the list of SortBatch(s). */
  method SortOneBatch(elem0: ExportRecord, ghost s: seq<Cell>) returns (elem: ExportRecord, ghost r: seq<Cell>)
    requires IsMessage(elem0, s) && PrevIsTail(s)
    modifies Recs(s)`next, Recs(s)`prev
    ensures r == SortBatch(s) && IsMessage(elem, r) && Recs(r) <= Recs(s)
    ensures !TwoOutOfOrder(s) ==> PrevIsTail(r)
    // a damaged pair: the head still points back to the record that was lost
    ensures TwoOutOfOrder(s) ==> r == [s[0]] && elem.prev == s[1].rec && s[1].rec !in Recs(r)
  {
    hide Carries, Owned, NaturalRuns, Linked, Snapshot, Recs;
    assert IsList(elem0, s);
    var sortHeads; ghost var runs;
    sortHeads, runs := FindNaturalSublists(elem0, s);
    SameLength(sortHeads, runs, 0);
    if |sortHeads| == 1 {
      ShortcutIs(elem0, s, sortHeads, runs);
      return elem0, SortBatch(s);
    }
    RunsNotEmpty(s);
    DamagedIsOneRun(s);
    while |sortHeads| > 2
      invariant |sortHeads| == |runs| >= 2 && Carries(sortHeads, runs, 0) && Owned(runs) == Recs(s)
      invariant MergeAll(runs) == SortBatch(s)
      decreases |sortHeads|
    {
      sortHeads, runs := MergeRound(sortHeads, runs);
      SameLength(sortHeads, runs, 0);
    }
    FirstTwo(sortHeads, runs);
    elem, r := MergeSublist(sortHeads[0], sortHeads[1], true, runs[0], runs[1]);
  }

  lemma {:induction false} RunsNotEmpty<R>(s: seq<Item<R>>)
    requires s != []
    ensures NaturalRuns(s) != []
  {
  }

  // The "already sorted" shortcut sends the original head.
  lemma {:induction false} ShortcutIs(elem: ExportRecord, s: seq<Cell>, heads: seq<ExportRecord>, runs: seq<seq<Cell>>)
    requires s != [] && elem == s[0].rec && PrevIsTail(s)
    requires |runs| == 1 && runs == NaturalRuns(s) && Carries(heads, runs, 0)
    ensures IsMessage(elem, SortBatch(s)) && Recs(SortBatch(s)) <= Recs(s)
    ensures !TwoOutOfOrder(s) ==> PrevIsTail(SortBatch(s))
    ensures TwoOutOfOrder(s) ==> SortBatch(s) == [s[0]] && elem.prev == s[1].rec && s[1].rec !in Recs(SortBatch(s))
  {
    OneRun(s);
    assert IsMessage(heads[0], runs[0]);
    if TwoOutOfOrder(s) {
      assert runs[0][1].rec.next == After(runs[0], 1);
      assert s == [s[0]] + s[1..];
      RecsAppend([s[0]], s[1..]);
    }
  }

  // One message of the channel: sort it and send it on.
  method SortNext(elem: ExportRecord, ghost m: seq<Cell>, out0: seq<ExportRecord>, ghost sent: seq<seq<Cell>>,
      ghost strict: int, ghost rest: seq<seq<Cell>>)
    returns (out: seq<ExportRecord>)
    requires IsMessage(elem, m) && PrevIsTail(m) && Carries(out0, sent, strict) && strict <= |sent|
    requires Recs(m) !! Owned(sent) && Recs(m) !! Owned(rest)
    modifies Recs(m)`next, Recs(m)`prev
    ensures Carries(out, sent + [SortBatch(m)], strict)
    ensures strict == |sent| && !TwoOutOfOrder(m) ==> Carries(out, sent + [SortBatch(m)], |sent| + 1)
    ensures Owned(sent + [SortBatch(m)]) <= Owned(sent) + Recs(m)
  {
    hide Carries, Owned, SortBatch, Linked, Snapshot, Recs;
    assert allocated(Owned(sent)) && allocated(Recs(m));
    var e; ghost var r;
    e, r := SortOneBatch(elem, m);
    CarriesAppend(out0, sent, strict, e, r);
    OwnedAppend(sent, r);
    out := out0 + [e];
  }

  /** sortWorker: sorts every batch of a channel. Unless a batch is damaged the messages
      sent are again well formed, with head.prev == tail. */
  method SortWorker(input: seq<ExportRecord>, ghost msgs: seq<seq<Cell>>) returns (out: seq<ExportRecord>)
    requires Carries(input, msgs, |msgs|)
    modifies Owned(msgs)`next, Owned(msgs)`prev
    ensures Carries(out, SortedBatches(msgs), 0)
    ensures NoneDamaged(msgs) ==> Carries(out, SortedBatches(msgs), |msgs|)
  {
    hide Linked, Snapshot, Recs, SortBatch, Carries, Owned, SortedBatches, IsMessage, PrevIsTail;
    out := [];
    var i := 0;
    ghost var rest, sent: seq<seq<Cell>> := msgs, [];
    ghost var fine := NoneDamaged(msgs);
    SameLength(input, msgs, |msgs|);
    NothingSorted(msgs);
    assert input[0..] == input && msgs[0..] == msgs && [] + SortedBatches(msgs) == SortedBatches(msgs);
    while i < |input|
      invariant 0 <= i <= |input| == |msgs| && |rest| == |msgs| - i && rest == msgs[i..]
      invariant Carries(input[i..], rest, |rest|)
      invariant Carries(out, sent, if fine then |sent| else 0)
      invariant sent + SortedBatches(rest) == SortedBatches(msgs)
      invariant Owned(sent) !! Owned(rest) && Owned(sent) <= Owned(msgs) && Owned(rest) <= Owned(msgs)
    {
      CarriesFirst(input[i..], rest, |rest|);
      SortedFirst(rest);
      assert input[i..][0] == input[i] && input[i..][1..] == input[i + 1..] && rest[1..] == msgs[i + 1..];
      assert rest[0] == msgs[i];
      assert allocated(Owned(rest[1..])) && allocated(Recs(rest[0]));
      out := SortNext(input[i], rest[0], out, sent, if fine then |sent| else 0, rest[1..]);
      assert (sent + [SortBatch(rest[0])]) + SortedBatches(rest[1..]) == sent + SortedBatches(rest);
      sent := sent + [SortBatch(rest[0])];
      rest := rest[1..];
      i := i + 1;
    }
    NothingSorted(rest);
    assert sent + [] == sent;
    CarriesWeaken(out, sent, if fine then |sent| else 0, 0);
  }

  lemma NothingSorted(msgs: seq<seq<Cell>>)
    ensures Carries([], [], 0) && Owned([]) == {} && (msgs == [] ==> SortedBatches(msgs) == [])
  {
  }

  lemma SortedFirst(msgs: seq<seq<Cell>>)
    requires msgs != []
    ensures SortedBatches(msgs) == [SortBatch(msgs[0])] + SortedBatches(msgs[1..])
  {
  }
}
