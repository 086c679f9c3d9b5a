/** The pool of packet buffers as a state machine: one producer pops, allocates and
    releases buffers while any number of recyclers give them back; the flags of the
    buffers and the counter of free ones change at different moments. */
module BufferPool {
  import opened Wrappers

  type Buffer = nat

  const BATCH_SIZE: nat := 1000
  const ALLOC_SIZE: nat := BATCH_SIZE
  const FREE_MARK: nat := 3000

  // Where the producer is.
  datatype Phase =
    | Idle
    // Pop, before its gate
    | Gate
    // starved allocated buffers, not counted yet
    | Allocated(fresh_: nat)
    // Pop's loop at index i
    | Scan(i: nat, taken: seq<Buffer>)
    // ... with a free buffer in hand, not marked yet
    | Found(i: nat, taken: seq<Buffer>)
    // all marked, not subtracted yet
    | Popped(taken: seq<Buffer>)
    // subtracted, the counter not looked at yet
    | Subtracted(taken: seq<Buffer>)
    // release's loop at index i
    | Release(i: nat, kept: seq<Buffer>, freed: nat, taken: seq<Buffer>)
    // the list is replaced, the counter not
    | Released(freed: nat, taken: seq<Buffer>)

  datatype State = State(
    buffers: seq<Buffer>,
    inUse: set<Buffer>,
    // references of the stages behind the producer
    held: multiset<Buffer>,
    numFree: int,
    // freed by recyclers, not added to the counter yet
    uncounted: nat,
    phase: Phase)

  const EMPTY := State([], {}, multiset{}, 0, 0, Idle)

  datatype Action =
    | Pop
    | PassGate
    | Allocate(news: seq<Buffer>)
    | CountNew
    | Look
    | Mark
    | Subtract
    | Finish
    | StartRelease
    | Sift
    | CountReleased
    | Copy(b: Buffer)
    | Drop(b: Buffer)
    | CountFreed(n: nat)

  // The buffers taken by a Pop that has not returned.
  function Taken(p: Phase): seq<Buffer> {
    if p.Scan? || p.Found? || p.Popped? || p.Subtracted? || p.Release? || p.Released? then p.taken else []
  }

  /** What may happen next. */
  ghost predicate Enabled(s: State, a: Action) {
    match a
    case Pop => s.phase.Idle?
    case PassGate => s.phase.Gate? && s.numFree >= BATCH_SIZE
    case Allocate(news) => s.phase.Gate? && |news| == ALLOC_SIZE && NoDuplicates(news)
                           && forall b | b in news :: b !in s.buffers && b !in s.inUse && b !in s.held
    case CountNew => s.phase.Allocated?
    case Look => s.phase.Scan?
    case Mark => s.phase.Found?
    case Subtract => s.phase.Popped?
    case Finish => s.phase.Subtracted?
    case StartRelease => s.phase.Subtracted? && s.numFree > FREE_MARK
    case Sift => s.phase.Release?
    case CountReleased => s.phase.Released?
    case Copy(b) => b in s.held
    case Drop(b) => b in s.held
    case CountFreed(n) => n <= s.uncounted
  }

  // The last reference clears the flag; others only count down.
  function Dropped(s: State, b: Buffer): State
    requires b in s.held
  {
    if s.held[b] > 1 then s.(held := s.held - multiset{b})
    else s.(held := s.held - multiset{b}, inUse := s.inUse - {b}, uncounted := s.uncounted + 1)
  }

  // release, one buffer.
  function Sifted(s: State): State
    requires s.phase.Release?
  {
    var p := s.phase;
    if p.i >= |s.buffers| then s.(buffers := p.kept, phase := Released(p.freed, p.taken))
    else
      var b := s.buffers[p.i];
      if b in s.inUse || p.freed == ALLOC_SIZE then s.(phase := Release(p.i + 1, p.kept + [b], p.freed, p.taken))
      else s.(phase := Release(p.i + 1, p.kept, p.freed + 1, p.taken))
  }

  // Pop, one buffer; a full batch refuses the next one.
  function Looked(s: State): State
    requires s.phase.Scan?
  {
    var p := s.phase;
    if p.i >= |s.buffers| then s.(phase := Popped(p.taken))
    else if s.buffers[p.i] in s.inUse then s.(phase := Scan(p.i + 1, p.taken))
    else if |p.taken| >= BATCH_SIZE then s.(phase := Popped(p.taken))
    else s.(phase := Found(p.i, p.taken))
  }

  function Next(s: State, a: Action): State
    requires Enabled(s, a)
    requires s.phase.Found? ==> s.phase.i < |s.buffers|
  {
    match a
    case Pop => s.(phase := Gate)
    case PassGate => s.(phase := Scan(0, []))
    case Allocate(news) => s.(buffers := s.buffers + news, phase := Allocated(|news|))
    case CountNew => s.(numFree := s.numFree + s.phase.fresh_, phase := Gate)
    case Look => Looked(s)
    case Mark =>
      var b := s.buffers[s.phase.i];
      s.(inUse := s.inUse + {b}, phase := Scan(s.phase.i + 1, s.phase.taken + [b]))
    case Subtract => s.(numFree := s.numFree - |s.phase.taken|, phase := Subtracted(s.phase.taken))
    case Finish => s.(held := s.held + multiset(s.phase.taken), phase := Idle)
    case StartRelease => s.(phase := Release(0, [], 0, s.phase.taken))
    case Sift => Sifted(s)
    case CountReleased =>
      s.(numFree := s.numFree - s.phase.freed, held := s.held + multiset(s.phase.taken), phase := Idle)
    case Copy(b) => s.(held := s.held + multiset{b})
    case Drop(b) => Dropped(s, b)
    case CountFreed(n) => s.(numFree := s.numFree + n, uncounted := s.uncounted - n)
  }

  /** ---- counting ---- */

  function FreeIn(bs: seq<Buffer>, inUse: set<Buffer>): (n: nat)
    ensures n <= |bs|
  {
    if bs == [] then 0 else (if bs[0] in inUse then 0 else 1) + FreeIn(bs[1..], inUse)
  }

  lemma {:induction false} FreeAppend(a: seq<Buffer>, b: seq<Buffer>, inUse: set<Buffer>)
    ensures FreeIn(a + b, inUse) == FreeIn(a, inUse) + FreeIn(b, inUse)
  {
    if a == [] {
      assert a + b == b;
    } else {
      assert (a + b)[1..] == a[1..] + b;
      FreeAppend(a[1..], b, inUse);
    }
  }

  lemma {:induction false} AllFree(bs: seq<Buffer>, inUse: set<Buffer>)
    requires forall b | b in bs :: b !in inUse
    ensures FreeIn(bs, inUse) == |bs|
  {
    if bs != [] {
      AllFree(bs[1..], inUse);
    }
  }

  lemma {:induction false} SameFree(bs: seq<Buffer>, inUse: set<Buffer>, other: set<Buffer>)
    requires forall b | b in bs :: b in inUse <==> b in other
    ensures FreeIn(bs, inUse) == FreeIn(bs, other)
  {
    if bs != [] {
      SameFree(bs[1..], inUse, other);
    }
  }

  // Marking one buffer of the list.
  lemma {:induction false} MarkOne(bs: seq<Buffer>, inUse: set<Buffer>, b: Buffer)
    requires NoDuplicates(bs) && b in bs && b !in inUse
    ensures FreeIn(bs, inUse + {b}) == FreeIn(bs, inUse) - 1
  {
    if bs[0] == b {
      assert forall j | 0 <= j < |bs[1..]| :: bs[1..][j] == bs[j + 1];
      SameFree(bs[1..], inUse, inUse + {b});
    } else {
      MarkOne(bs[1..], inUse, b);
    }
  }

  // The free buffers from index i on.
  function FreeFrom(s: State, i: nat): nat {
    if i <= |s.buffers| then FreeIn(s.buffers[i..], s.inUse) else 0
  }

  /** ---- the invariant ---- */

  // What the counter does not show yet.
  function Lag(p: Phase): int {
    match p
    case Allocated(n) => 0 - n as int
    case Scan(_, taken) => |taken|
    case Found(_, taken) => |taken|
    case Popped(taken) => |taken|
    case Released(freed, _) => freed
    case _ => 0
  }

  /** The counter lags behind: buffers freed are added late, buffers popped or released
      are subtracted late. */
  ghost predicate Counter(s: State) {
    s.numFree == FreeIn(s.buffers, s.inUse) - s.uncounted + Lag(s.phase)
  }

  // A flag is set for the buffers that are referenced or being popped, and no others.
  ghost predicate Flags(s: State) {
    && NoDuplicates(s.buffers)
    && (forall b | b in s.inUse :: b in s.buffers)
    && (forall b :: b in s.inUse <==> b in s.held || b in Taken(s.phase))
    && NoDuplicates(Taken(s.phase)) && forall b | b in Taken(s.phase) :: b !in s.held
  }

  // Enough free buffers are still ahead of the loops.
  ghost predicate Ahead(s: State) {
    match s.phase
    case Scan(i, taken) => i <= |s.buffers| && |taken| <= BATCH_SIZE && |taken| + FreeFrom(s, i) >= BATCH_SIZE
    case Found(i, taken) =>
      i < |s.buffers| && |taken| < BATCH_SIZE && |taken| + FreeFrom(s, i) >= BATCH_SIZE && s.buffers[i] !in s.inUse
    case Popped(taken) => |taken| == BATCH_SIZE
    case Subtracted(taken) => |taken| == BATCH_SIZE
    case Release(i, kept, freed, taken) =>
      |taken| == BATCH_SIZE && i <= |s.buffers| && freed <= ALLOC_SIZE && freed + FreeFrom(s, i) >= ALLOC_SIZE
    case Released(freed, taken) => |taken| == BATCH_SIZE && freed == ALLOC_SIZE
    case _ => true
  }

  // release keeps everything in use, and what it leaves out is free.
  ghost predicate Sifting(s: State) {
    s.phase.Release? ==>
      var p := s.phase;
      && p.i <= |s.buffers| && |p.kept| + p.freed == p.i && NoDuplicates(p.kept)
      && (forall b | b in p.kept :: b in s.buffers[..p.i])
      && (forall b | b in s.buffers[..p.i] && b in s.inUse :: b in p.kept)
      && FreeIn(p.kept, s.inUse) + p.freed == FreeIn(s.buffers[..p.i], s.inUse)
  }

  ghost predicate Inv(s: State) {
    Counter(s) && Flags(s) && Ahead(s) && Sifting(s)
  }

  /** ---- producer steps ---- */

  lemma {:induction false} LookKeeps(s: State)
    requires Inv(s) && s.phase.Scan?
    ensures Inv(Looked(s))
  {
    var i := s.phase.i;
    if i < |s.buffers| {
      assert s.buffers[i..][0] == s.buffers[i] && s.buffers[i..][1..] == s.buffers[i + 1..];
    }
  }

  // The buffers behind index i do not notice.
  lemma {:induction false} MarkLeavesRest(bs: seq<Buffer>, inUse: set<Buffer>, i: nat)
    requires NoDuplicates(bs) && i < |bs| && bs[i] !in inUse
    ensures FreeIn(bs[i..], inUse) == 1 + FreeIn(bs[i + 1..], inUse + {bs[i]})
    ensures FreeIn(bs, inUse + {bs[i]}) == FreeIn(bs, inUse) - 1
  {
    MarkOne(bs, inUse, bs[i]);
    assert bs[i..][0] == bs[i] && bs[i..][1..] == bs[i + 1..];
    SameFree(bs[i + 1..], inUse, inUse + {bs[i]});
  }

  lemma {:induction false} MarkKeeps(s: State)
    requires Inv(s) && s.phase.Found?
    ensures Inv(Next(s, Mark))
  {
    hide FreeIn, NoDuplicates;
    var b, taken := s.buffers[s.phase.i], s.phase.taken;
    MarkLeavesRest(s.buffers, s.inUse, s.phase.i);
    assert b !in taken && b !in s.held;
    FreeSingle(b, s.inUse);
    DistinctAppend(taken, [b]);
  }

  lemma {:induction false} AllocateKeeps(s: State, news: seq<Buffer>)
    requires Inv(s) && Enabled(s, Allocate(news))
    ensures Inv(Next(s, Allocate(news)))
  {
    FreeAppend(s.buffers, news, s.inUse);
    AllFree(news, s.inUse);
    DistinctAppend(s.buffers, news);
  }

  lemma {:induction false} DistinctAppend(a: seq<Buffer>, b: seq<Buffer>)
    requires NoDuplicates(a) && NoDuplicates(b) && forall x | x in b :: x !in a
    ensures NoDuplicates(a + b)
  {
    var s := a + b;
    forall i, j | 0 <= i < j < |s| ensures s[i] != s[j] {
      if i < |a| <= j {
        assert s[j] in b && s[i] in a;
      }
    }
  }

  lemma {:induction false} GateKeeps(s: State)
    requires Inv(s) && Enabled(s, PassGate)
    ensures Inv(Next(s, PassGate))
  {
    assert s.buffers[0..] == s.buffers;
  }

  lemma {:induction false} FinishKeeps(s: State)
    requires Inv(s) && s.phase.Subtracted?
    ensures Inv(Next(s, Finish))
  {
    var taken := s.phase.taken;
    assert forall b :: b in multiset(taken) <==> b in taken;
  }

  lemma {:induction false} StartReleaseKeeps(s: State)
    requires Inv(s) && Enabled(s, StartRelease)
    ensures Inv(Next(s, StartRelease))
  {
    assert s.buffers[0..] == s.buffers && s.buffers[..0] == [];
  }

  // release, one buffer more.
  lemma {:induction false} SiftKeepsSifting(s: State)
    requires NoDuplicates(s.buffers) && Sifting(s) && s.phase.Release? && s.phase.i < |s.buffers|
    ensures Sifting(Sifted(s))
  {
    hide NoDuplicates, FreeIn;
    var p := s.phase;
    var b := s.buffers[p.i];
    assert s.buffers[..p.i + 1] == s.buffers[..p.i] + [b];
    FreeAppend(s.buffers[..p.i], [b], s.inUse);
    FreeAppend(p.kept, [b], s.inUse);
    FreeSingle(b, s.inUse);
    NotBefore(s.buffers, p.i);
    DistinctAppend(p.kept, [b]);
  }

  lemma {:induction false} FreeSingle(b: Buffer, inUse: set<Buffer>)
    ensures FreeIn([b], inUse) == (if b in inUse then 0 else 1) && NoDuplicates([b])
  {
    assert [b][1..] == [];
  }

  lemma {:induction false} NotBefore(bs: seq<Buffer>, i: nat)
    requires NoDuplicates(bs) && i < |bs|
    ensures bs[i] !in bs[..i]
  {
  }

  lemma {:induction false} SiftKeeps(s: State)
    requires Inv(s) && s.phase.Release? && s.phase.i < |s.buffers|
    ensures Inv(Sifted(s))
  {
    hide Sifting, NoDuplicates;
    var i := s.phase.i;
    SiftKeepsSifting(s);
    assert s.buffers[i..][0] == s.buffers[i] && s.buffers[i..][1..] == s.buffers[i + 1..];
  }

  // The list is replaced: it is shorter by exactly the buffers left out.
  lemma {:induction false} ReplaceKeeps(s: State)
    requires Inv(s) && s.phase.Release? && s.phase.i >= |s.buffers|
    ensures Inv(Sifted(s)) && |Sifted(s).buffers| == |s.buffers| - ALLOC_SIZE
  {
    var p := s.phase;
    assert s.buffers[p.i..] == [] && s.buffers[..p.i] == s.buffers;
  }

  lemma {:induction false} CountReleasedKeeps(s: State)
    requires Inv(s) && s.phase.Released?
    ensures Inv(Next(s, CountReleased))
  {
    var taken := s.phase.taken;
    assert forall b :: b in multiset(taken) <==> b in taken;
  }

  /** ---- recycler steps ---- */

  // Clearing the flag of one buffer.
  lemma {:induction false} ClearOne(bs: seq<Buffer>, inUse: set<Buffer>, b: Buffer)
    requires NoDuplicates(bs) && b in inUse
    ensures FreeIn(bs, inUse - {b}) == FreeIn(bs, inUse) + if b in bs then 1 else 0
  {
    if b in bs {
      MarkOne(bs, inUse - {b}, b);
      assert inUse - {b} + {b} == inUse;
    } else {
      SameFree(bs, inUse, inUse - {b});
    }
  }

  lemma {:induction false} DistinctPart(bs: seq<Buffer>, i: nat)
    requires NoDuplicates(bs) && i <= |bs|
    ensures NoDuplicates(bs[..i]) && NoDuplicates(bs[i..])
  {
  }

  lemma {:induction false} DropKeepsCounter(s: State, b: Buffer)
    requires Counter(s) && Flags(s) && b in s.held
    ensures Counter(Dropped(s, b)) && Flags(Dropped(s, b))
  {
    hide NoDuplicates, FreeIn;
    if s.held[b] == 1 {
      ClearOne(s.buffers, s.inUse, b);
    }
  }

  lemma {:induction false} DropKeepsAhead(s: State, b: Buffer)
    requires Flags(s) && Ahead(s) && b in s.held
    ensures Ahead(Dropped(s, b))
  {
    hide NoDuplicates, FreeIn;
    if s.held[b] == 1 && (s.phase.Scan? || s.phase.Found? || s.phase.Release?) {
      DistinctPart(s.buffers, s.phase.i);
      ClearOne(s.buffers[s.phase.i..], s.inUse, b);
    }
  }

  lemma {:induction false} DropKeepsSifting(s: State, b: Buffer)
    requires Flags(s) && Sifting(s) && b in s.held
    ensures Sifting(Dropped(s, b))
  {
    hide NoDuplicates, FreeIn;
    if s.held[b] == 1 && s.phase.Release? {
      DistinctPart(s.buffers, s.phase.i);
      ClearOne(s.buffers[..s.phase.i], s.inUse, b);
      ClearOne(s.phase.kept, s.inUse, b);
    }
  }

  lemma {:induction false} DropKeeps(s: State, b: Buffer)
    requires Inv(s) && b in s.held
    ensures Inv(Dropped(s, b))
  {
    hide Counter, Flags, Ahead, Sifting;
    DropKeepsCounter(s, b);
    DropKeepsAhead(s, b);
    DropKeepsSifting(s, b);
  }

  lemma {:induction false} CopyKeeps(s: State, b: Buffer)
    requires Inv(s) && b in s.held
    ensures Inv(Next(s, Copy(b)))
  {
    hide NoDuplicates, FreeIn;
  }

  /** ---- every interleaving ---- */

  lemma {:induction false} StepKeeps(s: State, a: Action)
    requires Inv(s) && Enabled(s, a)
    ensures s.phase.Found? ==> s.phase.i < |s.buffers|
    ensures Inv(Next(s, a))
  {
    hide Counter, Flags, Ahead, Sifting;
    InBounds(s);
    match a
    case PassGate => GateKeeps(s);
    case Allocate(news) => AllocateKeeps(s, news);
    case Look => LookKeeps(s);
    case Mark => MarkKeeps(s);
    case Finish => FinishKeeps(s);
    case StartRelease => StartReleaseKeeps(s);
    case Sift => if s.phase.i < |s.buffers| { SiftKeeps(s); } else { ReplaceKeeps(s); }
    case CountReleased => CountReleasedKeeps(s);
    case Copy(b) => CopyKeeps(s, b);
    case Drop(b) => DropKeeps(s, b);
    case _ => CountingKeeps(s, a);
  }

  lemma {:induction false} InBounds(s: State)
    requires Inv(s)
    ensures s.phase.Found? ==> s.phase.i < |s.buffers|
  {
  }

  // Steps that only move numbers.
  lemma {:induction false} CountingKeeps(s: State, a: Action)
    requires Inv(s) && Enabled(s, a) && (a.Pop? || a.CountNew? || a.Subtract? || a.CountFreed?)
    ensures s.phase.Found? ==> s.phase.i < |s.buffers|
    ensures Inv(Next(s, a))
  {
    hide NoDuplicates, FreeIn;
  }

  // A run: each action is enabled when it happens.
  ghost predicate Runs(s: State, actions: seq<Action>)
    decreases |actions|
  {
    actions == []
    || (Enabled(s, actions[0]) && (s.phase.Found? ==> s.phase.i < |s.buffers|)
        && Runs(Next(s, actions[0]), actions[1..]))
  }

  ghost function After(s: State, actions: seq<Action>): State
    requires Runs(s, actions)
    decreases |actions|
  {
    if actions == [] then s else After(Next(s, actions[0]), actions[1..])
  }

  lemma {:induction false} RunKeeps(s: State, actions: seq<Action>)
    requires Inv(s) && Runs(s, actions)
    ensures Inv(After(s, actions))
    decreases |actions|
  {
    hide Inv, Enabled, Next;
    if actions != [] {
      StepKeeps(s, actions[0]);
      RunKeeps(Next(s, actions[0]), actions[1..]);
    }
  }

  lemma {:induction false} EmptyIsFine(s: State)
    requires s == EMPTY
    ensures Inv(s)
  {
    hide Counter, Flags, Ahead, Sifting;
    NothingFlagged(s);
    NothingCounted(s);
  }

  lemma {:induction false} NothingFlagged(s: State)
    requires s.buffers == [] && s.inUse == {} && s.held == multiset{} && s.phase.Idle?
    ensures Flags(s)
  {
  }

  lemma {:induction false} NothingCounted(s: State)
    requires s.buffers == [] && s.numFree == 0 && s.uncounted == 0 && s.phase.Idle?
    ensures Counter(s) && Ahead(s) && Sifting(s)
  {
  }

  /** The counter is the number of free buffers but for what is under way; a Pop past its
      gate gets exactly a batch of distinct buffers, none of them referenced elsewhere; a
      buffer about to be marked is free; release drops exactly as many buffers as its
      shorter list has room for. */
  ghost predicate Safe(s: State) {
    && s.numFree == FreeIn(s.buffers, s.inUse) - s.uncounted + Lag(s.phase)
    && (s.phase.Gate? && s.numFree >= BATCH_SIZE ==> FreeIn(s.buffers, s.inUse) >= BATCH_SIZE)
    && (s.phase.Found? ==>
          s.phase.i < |s.buffers| && s.buffers[s.phase.i] !in s.inUse && s.buffers[s.phase.i] !in s.held)
    && (s.phase.Popped? ==> |s.phase.taken| == BATCH_SIZE && NoDuplicates(s.phase.taken)
                            && forall b | b in s.phase.taken :: b in s.buffers && b in s.inUse && b !in s.held)
    && (s.phase.Release? ==> |s.phase.kept| <= |s.buffers| - ALLOC_SIZE)
    && (s.phase.Released? ==> s.phase.freed == ALLOC_SIZE)
    && (forall b | b in s.held :: b in s.buffers)
  }

  lemma {:induction false} InvIsSafe(s: State)
    requires Inv(s)
    ensures Safe(s)
  {
    hide NoDuplicates, FreeIn;
    if s.phase.Release? {
      assert FreeFrom(s, s.phase.i) <= |s.buffers| - s.phase.i;
    }
  }

  /** The lock-free pool is safe in every interleaving of the producer and the recyclers. */
  lemma {:induction false} PoolIsSafe(actions: seq<Action>)
    requires Runs(EMPTY, actions)
    ensures Safe(After(EMPTY, actions))
  {
    hide Runs, After, Inv, Safe;
    EmptyIsFine(EMPTY);
    RunKeeps(EMPTY, actions);
    InvIsSafe(After(EMPTY, actions));
  }
}
