/** The tree of concurrent mergers as a state machine: tables, mergers and the final
    consumer take atomic steps in any order, communicating over bounded channels. */
module MergeNetwork {
  import opened ExportOrder

  // records are told apart by a number
  type Rec = Item<nat>

  // Where a merger is in mergeTreeWorker.
  datatype Phase =
    | Initial         // fetching until both queues have a record
    | Poll            // fetching what is buffered
    | Merging         // both queues have two records
    | Waiting         // blocked until either channel is ready
    | Partial         // one channel is closed: merge, then publish
    | Decide          // published: is the closed side exhausted, or both channels closed?
    | Fetching        // blocked on the remaining channel
    | Finishing       // both channels closed, both sides may have records
    | Flushing        // the closed side is exhausted
    | Forwarding      // passing the remaining channel's messages through
    | Closing
    | Done

  datatype Worker = Worker(phase: Phase, q0: seq<Rec>, q1: seq<Rec>, q2: seq<Rec>,
                              stopped: bool, ok: bool)   // stopped: false is channel 0, true channel 1
  {
    function Q(side: bool): seq<Rec> { if side then q1 else q0 }
    function SetQ(side: bool, q: seq<Rec>): Worker { if side then this.(q1 := q) else this.(q0 := q) }
  }

  /** A stage with its output channel. A source is one table's sequence of batches. */
  datatype Net =
    | Source(pending: seq<seq<Rec>>, out: seq<seq<Rec>>, cap: nat, closed: bool)
    | Merger(left: Net, right: Net, w: Worker, out: seq<seq<Rec>>, cap: nat)
  {
    predicate IsClosed() { if Source? then closed else w.phase == Done }
    // a receive would report the close
    predicate Exhausted() { IsClosed() && out == [] }
    function Child(side: bool): Net requires Merger? { if side then right else left }
    function SetChild(side: bool, c: Net): (n: Net) requires Merger? ensures n.Merger? {
      if side then this.(right := c) else this.(left := c)
    }
    function To(phase: Phase): (n: Net) requires Merger? ensures n.Merger? { this.(w := w.(phase := phase)) }
    function Send(m: seq<Rec>): (n: Net) ensures n.Merger? == Merger? { this.(out := out + [m]) }
    // what is left in the channel after a receive
    function Rest(): (n: Net) requires out != [] ensures n.out == out[1..] && n.Merger? == Merger? {
      this.(out := out[1..])
    }
  }

  function NewWorker(): Worker {
    Worker(Initial, [], [], [], false, true)
  }

  /** ---- steps ---- */

  // Receive a message from one side and append it to that side's queue.
  ghost predicate Receives(n: Net, n': Net, side: bool, phase: Phase)
    requires n.Merger?
  {
    && n.Child(side).out != []
    && var w' := n.w.SetQ(side, n.w.Q(side) + n.Child(side).out[0]).(phase := phase);
       n' == n.(w := w').SetChild(side, n.Child(side).Rest())
  }

  // Learn that the channel of one side is closed.
  ghost predicate SeesClose(n: Net, n': Net, side: bool)
    requires n.Merger?
  {
    n.Child(side).Exhausted() && n' == n.(w := n.w.(phase := Partial, stopped := side))
  }

  ghost predicate MergesOne(order: SortType, n: Net, n': Net)
    requires n.Merger?
  {
    && n.w.q0 != [] && n.w.q1 != []
    && n' == n.(w := if Less(order, n.w.q0[0].key, n.w.q1[0].key)
                     then n.w.(q0 := n.w.q0[1..], q2 := n.w.q2 + [n.w.q0[0]])
                     else n.w.(q1 := n.w.q1[1..], q2 := n.w.q2 + [n.w.q1[0]]))
  }

  // Publish queue 2 (blocking while the output channel is full), then go on to `phase`.
  ghost predicate Publishes(n: Net, n': Net, phase: Phase)
    requires n.Merger?
  {
    if n.w.q2 == [] then n' == n.To(phase)
    else |n.out| < n.cap && n' == n.(w := n.w.(q2 := [], phase := phase)).Send(n.w.q2)
  }

  ghost predicate WorkerStep(order: SortType, n: Net, n': Net)
    requires n.Merger?
  {
    var w := n.w;
    var remaining := !w.stopped;
    match w.phase
    case Initial =>
      if w.q0 != [] && w.q1 != [] then n' == n.To(Poll)
      else exists side: bool :: Receives(n, n', side, Initial) || SeesClose(n, n', side)
    case Poll =>
      if n.left.out == [] && !n.left.IsClosed() && n.right.out == [] && !n.right.IsClosed()
      then n' == n.To(Merging)
      else exists side: bool :: Receives(n, n', side, Poll) || SeesClose(n, n', side)
    case Merging =>
      if |w.q0| >= 2 && |w.q1| >= 2 then MergesOne(order, n, n')
      else Publishes(n, n', Waiting)
    case Waiting =>
      exists side: bool :: Receives(n, n', side, Poll) || SeesClose(n, n', side)
    case Partial =>
      if w.Q(w.stopped) != [] && |w.Q(remaining)| >= 2 then MergesOne(order, n, n')
      else Publishes(n, n', Decide)
    case Decide =>
      n' == n.To(if w.Q(w.stopped) == [] then Flushing else if !w.ok then Finishing else Fetching)
    case Fetching =>
      || Receives(n, n', remaining, Partial)
      || (n.Child(remaining).Exhausted() && n' == n.(w := w.(phase := Partial, ok := false)))
    case Finishing =>
      if w.q0 != [] && w.q1 != [] then MergesOne(order, n, n')
      else |n.out| < n.cap
           && var rest := if w.q0 != [] then w.q0 else w.q1;
              n' == n.(w := w.(q0 := [], q1 := [], q2 := [], phase := Closing)).Send(w.q2 + rest)
    case Flushing =>
      if w.Q(remaining) == [] then n' == n.To(Forwarding)
      else |n.out| < n.cap && n' == n.(w := w.SetQ(remaining, []).(phase := Forwarding)).Send(w.Q(remaining))
    case Forwarding =>
      if w.q2 != [] then Publishes(n, n', Forwarding)
      else
        var c := n.Child(remaining);
        || (c.out != [] && n' == n.(w := w.(q2 := c.out[0])).SetChild(remaining, c.Rest()))
        || (c.Exhausted() && n' == n.To(Closing))
    case Closing =>
      n' == n.To(Done)
    case Done =>
      false
  }

  /** One atomic step somewhere in the network. */
  ghost predicate Step(order: SortType, n: Net, n': Net) {
    match n
    case Source(pending, out, cap, closed) =>
      || (pending != [] && |out| < cap && n' == n.(pending := pending[1..], out := out + [pending[0]]))
      || (pending == [] && !closed && n' == n.(closed := true))
    case Merger(left, right, w, out, cap) =>
      || (n'.Merger? && n' == n.(left := n'.left) && Step(order, left, n'.left))
      || (n'.Merger? && n' == n.(right := n'.right) && Step(order, right, n'.right))
      || WorkerStep(order, n, n')
  }

  /** ---- what is still to come out of a stage ---- */

  // Of a merger, given what remains on either side.
  ghost function ToMerge(order: SortType, w: Worker, a: seq<Rec>, b: seq<Rec>): seq<Rec> {
    w.q2 + Merge(order, w.q0 + a, w.q1 + b)
  }

  ghost function Remaining(order: SortType, n: Net): seq<Rec> {
    match n
    case Source(pending, out, _, _) => Flat(out) + Flat(pending)
    case Merger(left, right, w, out, _) =>
      Flat(out) + ToMerge(order, w, Remaining(order, left), Remaining(order, right))
  }

  lemma {:induction false} Unfold(order: SortType, n: Net)
    requires n.Merger?
    ensures Remaining(order, n)
            == Flat(n.out) + ToMerge(order, n.w, Remaining(order, n.left), Remaining(order, n.right))
    ensures Valid(n) <==> NonEmpty(n.out) && n.cap >= 1 && Valid(n.left) && Valid(n.right) && PhaseInv(n)
  {
  }

  // What the control point of a merger says about its queues and channels.
  ghost predicate PhaseInv(n: Net)
    requires n.Merger?
  {
    var w := n.w;
    var stopped, remaining := w.stopped, !w.stopped;
    match w.phase
    case Initial => w.q2 == [] && w.ok
    case Poll | Waiting => w.q2 == [] && w.ok && w.q0 != [] && w.q1 != []
    case Merging => w.ok && w.q0 != [] && w.q1 != []
    case Partial => OneClosed(n)
    case Decide => OneClosed(n) && w.q2 == []
    case Fetching => OneClosed(n) && w.q2 == [] && w.ok
    case Finishing => OneClosed(n) && !w.ok && (w.q0 != [] || w.q1 != [])
    case Flushing => OneClosed(n) && w.q2 == [] && w.Q(stopped) == []
    case Forwarding => OneClosed(n) && w.q0 == [] && w.q1 == []
    case Closing | Done => w.q0 == [] && w.q1 == [] && w.q2 == [] && n.left.Exhausted() && n.right.Exhausted()
  }

  // The stopped channel is closed; once ok is false the other one is, too.
  ghost predicate OneClosed(n: Net)
    requires n.Merger?
  {
    n.Child(n.w.stopped).Exhausted() && (!n.w.ok ==> n.Child(!n.w.stopped).Exhausted())
  }

  ghost predicate NonEmpty<T>(msgs: seq<seq<T>>) {
    forall i | 0 <= i < |msgs| :: msgs[i] != []
  }

  ghost predicate Valid(n: Net) {
    && NonEmpty(n.out) && n.cap >= 1
    && match n
       case Source(pending, _, _, closed) => NonEmpty(pending) && (closed ==> pending == [])
       case Merger(left, right, _, _, _) => Valid(left) && Valid(right) && PhaseInv(n)
  }

  // A closed and drained channel has nothing more to give.
  lemma {:induction false} ExhaustedHasNothing(order: SortType, n: Net)
    requires Valid(n) && n.Exhausted()
    ensures Remaining(order, n) == []
    decreases n
  {
    if n.Merger? {
      ExhaustedHasNothing(order, n.left);
      ExhaustedHasNothing(order, n.right);
    }
  }

  lemma {:induction false} RestIsValid(n: Net)
    requires Valid(n) && n.out != []
    ensures Valid(n.Rest()) && n.out[0] != []
  {
    var r := n.Rest();
    assert forall i | 0 <= i < |r.out| :: r.out[i] == n.out[i + 1];
    if n.Merger? {
      assert PhaseInv(r);
    }
  }

  // Receiving takes exactly the front of what remains.
  lemma {:induction false} ReceiveTakesFront(order: SortType, n: Net)
    requires Valid(n) && n.out != []
    ensures Valid(n.Rest()) && n.out[0] != []
    ensures Remaining(order, n) == n.out[0] + Remaining(order, n.Rest())
  {
    hide Merge, Valid;
    RestIsValid(n);
    var rest := if n.Source? then Flat(n.pending)
                else ToMerge(order, n.w, Remaining(order, n.left), Remaining(order, n.right));
    assert Flat(n.out) + rest == n.out[0] + (Flat(n.out[1..]) + rest);
  }

  /** ---- every step keeps what remains ---- */

  // n' gives its consumer exactly what n does, and its parts are valid.
  ghost predicate Kept(order: SortType, n: Net, n': Net) {
    && Remaining(order, n') == Remaining(order, n) && NonEmpty(n'.out) && n'.cap == n.cap
    && n'.Merger? && Valid(n'.left) && Valid(n'.right)
  }

  lemma {:induction false} ReceiveKeeps(order: SortType, n: Net, n': Net, side: bool, phase: Phase)
    requires n.Merger? && Valid(n) && Receives(n, n', side, phase)
    ensures Kept(order, n, n') && n'.w.Q(side) != []
  {
    hide Merge, Remaining, Valid, Flat, PhaseInv;
    Unfold(order, n);
    Unfold(order, n');
    var c, q := n.Child(side), n.w.Q(side);
    ReceiveTakesFront(order, c);
    assert q + (c.out[0] + Remaining(order, c.Rest())) == (q + c.out[0]) + Remaining(order, c.Rest());
  }

  lemma {:induction false} MergeKeeps(order: SortType, n: Net, n': Net)
    requires n.Merger? && Valid(n) && MergesOne(order, n, n')
    ensures Kept(order, n, n')
  {
    hide Merge, Remaining, Valid, Flat, PhaseInv, Less, ToMerge;
    Unfold(order, n);
    Unfold(order, n');
    ToMergeStep(order, n.w, n'.w, Remaining(order, n.left), Remaining(order, n.right));
  }

  lemma {:induction false} ToMergeStep(order: SortType, w: Worker, w': Worker, a: seq<Rec>, b: seq<Rec>)
    requires w.q0 != [] && w.q1 != []
    requires w' == if Less(order, w.q0[0].key, w.q1[0].key) then w.(q0 := w.q0[1..], q2 := w.q2 + [w.q0[0]])
                   else w.(q1 := w.q1[1..], q2 := w.q2 + [w.q1[0]])
    ensures ToMerge(order, w', a, b) == ToMerge(order, w, a, b)
  {
    hide Merge, Less;
    MergeUnfolds(order, w.q0, a, w.q1, b);
  }

  lemma {:induction false} SendKeeps(order: SortType, n: Net, n': Net, m: seq<Rec>, a: seq<Rec>, b: seq<Rec>)
    requires n.Merger? && Valid(n) && m != []
    requires n'.Merger? && n'.left == n.left && n'.right == n.right && n'.cap == n.cap
    requires a == Remaining(order, n.left) && b == Remaining(order, n.right)
    requires n'.out == n.out + [m] && ToMerge(order, n.w, a, b) == m + ToMerge(order, n'.w, a, b)
    ensures Kept(order, n, n')
  {
    hide Merge, Remaining, Valid, Flat, PhaseInv, ToMerge;
    Unfold(order, n);
    Unfold(order, n');
    FlatAppend(n.out, m);
    assert Flat(n.out) + (m + ToMerge(order, n'.w, a, b)) == (Flat(n.out) + m) + ToMerge(order, n'.w, a, b);
  }

  lemma {:induction false} PublishKeeps(order: SortType, n: Net, n': Net, phase: Phase)
    requires n.Merger? && Valid(n) && Publishes(n, n', phase)
    ensures Kept(order, n, n') && n'.w == n.w.(q2 := [], phase := phase) && n'.left == n.left && n'.right == n.right
  {
    hide Merge, Remaining, Valid, Flat, PhaseInv;
    Unfold(order, n);
    Unfold(order, n');
    if n.w.q2 != [] {
      SendKeeps(order, n, n', n.w.q2, Remaining(order, n.left), Remaining(order, n.right));
    }
  }

  // Nothing more comes from a closed side.
  lemma {:induction false} ClosedSide(order: SortType, n: Net, side: bool)
    requires n.Merger? && Valid(n) && n.Child(side).Exhausted()
    ensures Remaining(order, n.Child(side)) == []
  {
    ExhaustedHasNothing(order, n.Child(side));
  }

  // Both channels closed, one queue empty: the last message is all there is.
  lemma {:induction false} FinishKeeps(order: SortType, n: Net, n': Net)
    requires n.Merger? && Valid(n) && n.w.phase.Finishing? && (n.w.q0 == [] || n.w.q1 == [])
    requires OneClosed(n) && !n.w.ok && (n.w.q0 != [] || n.w.q1 != [])
    requires WorkerStep(order, n, n')
    ensures Kept(order, n, n')
  {
    hide Remaining, Valid, Flat, PhaseInv;
    ClosedSide(order, n, false);
    ClosedSide(order, n, true);
    var rest := if n.w.q0 != [] then n.w.q0 else n.w.q1;
    assert rest + [] == rest;
    SendKeeps(order, n, n', n.w.q2 + rest, [], []);
  }

  lemma {:induction false} FlushKeeps(order: SortType, n: Net, n': Net)
    requires n.Merger? && Valid(n) && n.w.phase.Flushing? && WorkerStep(order, n, n')
    requires OneClosed(n) && n.w.q2 == [] && n.w.Q(n.w.stopped) == []
    ensures Kept(order, n, n')
  {
    hide Remaining, Valid, Flat, PhaseInv;
    Unfold(order, n);
    Unfold(order, n');
    var remaining := !n.w.stopped;
    ClosedSide(order, n, n.w.stopped);
    if n.w.Q(remaining) != [] {
      SendKeeps(order, n, n', n.w.Q(remaining), Remaining(order, n.left), Remaining(order, n.right));
    }
  }

  lemma {:induction false} ForwardKeeps(order: SortType, n: Net, n': Net)
    requires n.Merger? && Valid(n) && n.w.phase.Forwarding? && WorkerStep(order, n, n')
    requires OneClosed(n) && n.w.q0 == [] && n.w.q1 == []
    ensures Kept(order, n, n')
  {
    hide Remaining, Valid, Flat, PhaseInv;
    Unfold(order, n);
    Unfold(order, n');
    var c := n.Child(!n.w.stopped);
    ClosedSide(order, n, n.w.stopped);
    if n.w.q2 != [] {
      PublishKeeps(order, n, n', Forwarding);
    } else if c.out != [] {
      ReceiveTakesFront(order, c);
    }
  }

  // The steps of the loop up to the first close.
  lemma {:induction false} RunningStepKeeps(order: SortType, n: Net, n': Net)
    requires n.Merger? && Valid(n) && WorkerStep(order, n, n') && PhaseInv(n)
    requires n.w.phase.Initial? || n.w.phase.Poll? || n.w.phase.Merging? || n.w.phase.Waiting?
    ensures Kept(order, n, n') && PhaseInv(n')
  {
    hide Merge, Flat, Valid, Remaining;
    Unfold(order, n);
    Unfold(order, n');
    var w := n.w;
    match w.phase
    case Merging =>
      if |w.q0| >= 2 && |w.q1| >= 2 { MergeKeeps(order, n, n'); } else { PublishKeeps(order, n, n', Waiting); }
    case Initial =>
      if w.q0 == [] || w.q1 == [] { FetchKeeps(order, n, n', Initial); }
    case Poll =>
      if n' != n.To(Merging) { FetchKeeps(order, n, n', Poll); }
    case Waiting =>
      FetchKeeps(order, n, n', Poll);
  }

  // A select that receives from, or learns of the close of, either channel.
  lemma {:induction false} FetchKeeps(order: SortType, n: Net, n': Net, phase: Phase)
    requires n.Merger? && Valid(n) && PhaseInv(n)
    requires if n.w.phase.Initial? then phase == Initial else (n.w.phase.Poll? || n.w.phase.Waiting?) && phase == Poll
    requires exists side: bool :: Receives(n, n', side, phase) || SeesClose(n, n', side)
    ensures Kept(order, n, n') && PhaseInv(n')
  {
    hide Merge, Flat, Valid, Remaining;
    Unfold(order, n);
    Unfold(order, n');
    var side: bool :| Receives(n, n', side, phase) || SeesClose(n, n', side);
    if Receives(n, n', side, phase) {
      ReceiveKeeps(order, n, n', side, phase);
    }
  }

  // The steps after the first close, while both sides may hold records ...
  lemma {:induction false} DrainStepKeeps(order: SortType, n: Net, n': Net)
    requires n.Merger? && Valid(n) && WorkerStep(order, n, n') && PhaseInv(n)
    requires n.w.phase.Partial? || n.w.phase.Decide? || n.w.phase.Fetching? || n.w.phase.Finishing?
    ensures Kept(order, n, n') && PhaseInv(n')
  {
    hide Merge, Flat, Valid, Remaining, ToMerge;
    Unfold(order, n);
    Unfold(order, n');
    var w := n.w;
    var remaining := !w.stopped;
    match w.phase
    case Partial =>
      if w.Q(w.stopped) != [] && |w.Q(remaining)| >= 2 {
        MergeKeeps(order, n, n');
      } else {
        PublishKeeps(order, n, n', Decide);
      }
    case Decide =>
      TauKeeps(order, n, n');
    case Fetching =>
      if Receives(n, n', remaining, Partial) {
        ReceiveKeeps(order, n, n', remaining, Partial);
      } else {
        TauKeeps(order, n, n');
      }
    case Finishing =>
      if w.q0 != [] && w.q1 != [] { MergeKeeps(order, n, n'); } else { FinishKeeps(order, n, n'); }
  }

  // ... and once the closed side is exhausted.
  lemma {:induction false} TailStepKeeps(order: SortType, n: Net, n': Net)
    requires n.Merger? && Valid(n) && WorkerStep(order, n, n') && PhaseInv(n)
    requires n.w.phase.Flushing? || n.w.phase.Forwarding? || n.w.phase.Closing?
    ensures Kept(order, n, n') && PhaseInv(n')
  {
    hide Merge, Flat, Valid, Remaining, ToMerge;
    Unfold(order, n);
    Unfold(order, n');
    match n.w.phase
    case Flushing => FlushKeeps(order, n, n');
    case Forwarding => ForwardKeeps(order, n, n');
    case Closing => TauKeeps(order, n, n');
  }

  // A step that only moves the control point.
  lemma {:induction false} TauKeeps(order: SortType, n: Net, n': Net)
    requires n.Merger? && Valid(n) && n'.Merger?
    requires n' == n.(w := n.w.(phase := n'.w.phase, stopped := n'.w.stopped, ok := n'.w.ok))
    ensures Kept(order, n, n')
  {
    hide Merge, Flat;
  }

  // A drained channel stays drained: nothing below it moves any more.
  lemma {:induction false} ExhaustedIsFinal(order: SortType, n: Net, n': Net)
    requires Valid(n) && n.Exhausted()
    ensures !Step(order, n, n')
    decreases n
  {
    if n.Merger? && n'.Merger? {
      ExhaustedIsFinal(order, n.left, n'.left);
      ExhaustedIsFinal(order, n.right, n'.right);
    }
  }

  /** Conservation: a step anywhere in the network changes neither the records its
      consumer will receive nor their order. */
  lemma {:induction false} StepKeepsRemaining(order: SortType, n: Net, n': Net)
    requires Valid(n) && Step(order, n, n')
    ensures Valid(n') && n'.cap == n.cap && Remaining(order, n') == Remaining(order, n)
    decreases n
  {
    match n
    case Source(pending, out, cap, closed) =>
      SourceStepKeeps(order, n, n');
    case Merger(left, right, w, out, cap) =>
      if WorkerStep(order, n, n') {
        WorkerStepKeeps(order, n, n');
      } else if n'.Merger? && n' == n.(left := n'.left) && Step(order, left, n'.left) {
        StepKeepsRemaining(order, left, n'.left);
        ChildStepKeeps(order, n, n');
      } else {
        StepKeepsRemaining(order, right, n'.right);
        ChildStepKeeps(order, n, n');
      }
  }

  lemma {:induction false} SourceStepKeeps(order: SortType, n: Net, n': Net)
    requires n.Source? && Valid(n) && Step(order, n, n')
    ensures Valid(n') && n'.cap == n.cap && Remaining(order, n') == Remaining(order, n)
  {
    if n.pending != [] {
      FlatAppend(n.out, n.pending[0]);
      assert Flat(n.out) + (n.pending[0] + Flat(n.pending[1..])) == (Flat(n.out) + n.pending[0]) + Flat(n.pending[1..]);
    }
  }

  lemma {:induction false} NoStepWhenDone(order: SortType, n: Net, n': Net)
    requires n.Merger? && WorkerStep(order, n, n')
    ensures !n.w.phase.Done?
  {
  }

  lemma {:induction false} WorkerStepKeeps(order: SortType, n: Net, n': Net)
    requires n.Merger? && Valid(n) && WorkerStep(order, n, n')
    ensures Valid(n') && n'.cap == n.cap && Remaining(order, n') == Remaining(order, n)
  {
    hide Merge, Flat, Remaining, Valid, WorkerStep, PhaseInv;
    Unfold(order, n);
    if n.w.phase.Initial? || n.w.phase.Poll? || n.w.phase.Merging? || n.w.phase.Waiting? {
      RunningStepKeeps(order, n, n');
    } else if n.w.phase.Partial? || n.w.phase.Decide? || n.w.phase.Fetching? || n.w.phase.Finishing? {
      DrainStepKeeps(order, n, n');
    } else {
      assert !n.w.phase.Done? by { NoStepWhenDone(order, n, n'); }
      TailStepKeeps(order, n, n');
    }
    Unfold(order, n');
  }

  // A child's step: the control point's claims about closed channels survive it.
  lemma {:induction false} ChildStepKeeps(order: SortType, n: Net, n': Net)
    requires n.Merger? && Valid(n) && n'.Merger? && Valid(n'.left) && Valid(n'.right)
    requires || (n' == n.(left := n'.left) && Step(order, n.left, n'.left)
                 && Remaining(order, n'.left) == Remaining(order, n.left))
             || (n' == n.(right := n'.right) && Step(order, n.right, n'.right)
                 && Remaining(order, n'.right) == Remaining(order, n.right))
    ensures Valid(n') && n'.cap == n.cap && Remaining(order, n') == Remaining(order, n)
  {
    hide Merge, Flat, Remaining, Valid, Step;
    Unfold(order, n);
    Unfold(order, n');
    if n.left.Exhausted() { ExhaustedIsFinal(order, n.left, n'.left); }
    if n.right.Exhausted() { ExhaustedIsFinal(order, n.right, n'.right); }
  }

  /** ---- no deadlock ---- */

  /** Unless a message is waiting for the consumer or the channel is closed, some part
      of the network can move. */
  lemma {:induction false} NoDeadlock(order: SortType, n: Net) returns (n': Net)
    requires Valid(n) && n.out == [] && !n.IsClosed()
    ensures Step(order, n, n')
    decreases n, 1
  {
    hide Merge, Flat, Remaining;
    if n.Source? {
      n' := if n.pending != [] then n.(pending := n.pending[1..], out := n.out + [n.pending[0]])
            else n.(closed := true);
      return;
    }
    var w := n.w;
    match w.phase
    case Initial =>
      if w.q0 != [] && w.q1 != [] { n' := n.To(Poll); } else { n' := SelectMoves(order, n, Initial); }
    case Poll =>
      if n.left.out == [] && !n.left.IsClosed() && n.right.out == [] && !n.right.IsClosed() {
        n' := n.To(Merging);
      } else {
        var side := n.left.out == [] && !n.left.IsClosed();
        n' := FetchFrom(order, n, side, Poll);
      }
    case Merging =>
      if |w.q0| >= 2 && |w.q1| >= 2 { n' := MergeMoves(order, n); } else { n' := PublishMoves(n, Waiting); }
    case Waiting =>
      n' := SelectMoves(order, n, Poll);
    case Partial =>
      if w.Q(w.stopped) != [] && |w.Q(!w.stopped)| >= 2 {
        n' := MergeMoves(order, n);
      } else {
        n' := PublishMoves(n, Decide);
      }
    case Decide =>
      n' := n.To(if w.Q(w.stopped) == [] then Flushing else if !w.ok then Finishing else Fetching);
    case Fetching =>
      n' := FetchRemaining(order, n);
    case Finishing =>
      if w.q0 != [] && w.q1 != [] { n' := MergeMoves(order, n); }
      else {
        var rest := if w.q0 != [] then w.q0 else w.q1;
        n' := n.(w := w.(q0 := [], q1 := [], q2 := [], phase := Closing)).Send(w.q2 + rest);
      }
    case Flushing =>
      if w.Q(!w.stopped) == [] { n' := n.To(Forwarding); }
      else { n' := n.(w := w.SetQ(!w.stopped, []).(phase := Forwarding)).Send(w.Q(!w.stopped)); }
    case Forwarding =>
      if w.q2 != [] { n' := PublishMoves(n, Forwarding); } else { n' := FetchRemaining(order, n); }
    case Closing =>
      n' := n.To(Done);
  }

  lemma {:induction false} MergeMoves(order: SortType, n: Net) returns (n': Net)
    requires n.Merger? && n.w.q0 != [] && n.w.q1 != []
    ensures MergesOne(order, n, n')
  {
    n' := n.(w := if Less(order, n.w.q0[0].key, n.w.q1[0].key)
                  then n.w.(q0 := n.w.q0[1..], q2 := n.w.q2 + [n.w.q0[0]])
                  else n.w.(q1 := n.w.q1[1..], q2 := n.w.q2 + [n.w.q1[0]]));
  }

  lemma {:induction false} PublishMoves(n: Net, phase: Phase) returns (n': Net)
    requires n.Merger? && |n.out| < n.cap
    ensures Publishes(n, n', phase)
  {
    n' := if n.w.q2 == [] then n.To(phase) else n.(w := n.w.(q2 := [], phase := phase)).Send(n.w.q2);
  }

  // One side has a message or is closed, so the select can proceed.
  lemma {:induction false} FetchFrom(order: SortType, n: Net, side: bool, phase: Phase) returns (n': Net)
    requires n.Merger? && (n.Child(side).out != [] || n.Child(side).IsClosed())
    ensures Receives(n, n', side, phase) || SeesClose(n, n', side)
  {
    var c := n.Child(side);
    if c.out != [] {
      n' := n.(w := n.w.SetQ(side, n.w.Q(side) + c.out[0]).(phase := phase)).SetChild(side, c.Rest());
    } else {
      n' := n.(w := n.w.(phase := Partial, stopped := side));
    }
  }

  // A merger waiting for either side is not stuck: its left child can move.
  lemma {:induction false} SelectMoves(order: SortType, n: Net, phase: Phase) returns (n': Net)
    requires n.Merger? && Valid(n) && n.out == []
    requires if n.w.phase.Initial? then phase == Initial && (n.w.q0 == [] || n.w.q1 == [])
             else n.w.phase.Waiting? && phase == Poll
    ensures Step(order, n, n')
    decreases n, 0
  {
    hide Merge, Flat, Remaining;
    if n.left.out == [] && !n.left.IsClosed() {
      var left := NoDeadlock(order, n.left);
      n' := n.(left := left);
    } else {
      n' := FetchFrom(order, n, false, phase);
    }
  }

  lemma {:induction false} FetchRemaining(order: SortType, n: Net) returns (n': Net)
    requires n.Merger? && Valid(n) && n.out == []
    requires n.w.phase.Fetching? || (n.w.phase.Forwarding? && n.w.q2 == [])
    ensures Step(order, n, n')
    decreases n, 0
  {
    hide Merge, Flat, Remaining;
    var w, remaining := n.w, !n.w.stopped;
    var c := n.Child(remaining);
    if c.out == [] && !c.IsClosed() {
      var c' := NoDeadlock(order, c);
      n' := n.SetChild(remaining, c');
    } else if w.phase.Fetching? {
      n' := if c.out != [] then
              n.(w := n.w.SetQ(remaining, n.w.Q(remaining) + c.out[0]).(phase := Partial)).SetChild(remaining, c.Rest())
            else n.(w := w.(phase := Partial, ok := false));
    } else {
      n' := if c.out != [] then n.(w := w.(q2 := c.out[0])).SetChild(remaining, c.Rest()) else n.To(Closing);
    }
  }

  /** ---- every run ends ---- */

  function Rank(phase: Phase): nat {
    match phase
    case Initial => 9
    case Poll => 8
    case Merging => 7
    case Waiting => 6
    case Partial => 8
    case Decide => 5
    case Fetching => 4
    case Finishing => 4
    case Flushing => 3
    case Forwarding => 2
    case Closing => 1
    case Done => 0
  }

  // Channel closes the worker has not noticed yet.
  function Unnoticed(w: Worker): nat {
    match w.phase
    case Initial | Poll | Merging | Waiting => 2
    case Closing | Done => 0
    case _ => if w.ok then 1 else 0
  }

  function Work(w: Worker, a: nat, b: nat): nat {
    10 * (a + b) + 2 * (|w.q0| + |w.q1|) + |w.q2| + 10 * Unnoticed(w) + Rank(w.phase)
  }

  ghost function Measure(order: SortType, n: Net): nat {
    match n
    case Source(pending, _, _, closed) => 2 * |pending| + if closed then 0 else 1
    case Merger(left, right, w, _, _) =>
      Measure(order, left) + Measure(order, right)
      + Work(w, |Remaining(order, left)|, |Remaining(order, right)|)
  }

  lemma {:induction false} RestKeepsMeasure(order: SortType, n: Net)
    requires Valid(n) && n.out != []
    ensures Measure(order, n.Rest()) == Measure(order, n)
    ensures |Remaining(order, n.Rest())| < |Remaining(order, n)|
    ensures |Remaining(order, n.Rest())| + |n.out[0]| == |Remaining(order, n)|
  {
    ReceiveTakesFront(order, n);
  }

  lemma {:induction false} UnfoldMeasure(order: SortType, n: Net)
    requires n.Merger?
    ensures Measure(order, n) == Measure(order, n.left) + Measure(order, n.right)
                                 + Work(n.w, |Remaining(order, n.left)|, |Remaining(order, n.right)|)
  {
  }

  lemma {:induction false} ReceiveDecreases(order: SortType, n: Net, n': Net, side: bool, phase: Phase)
    requires n.Merger? && Valid(n) && Receives(n, n', side, phase) && Unnoticed(n'.w) == Unnoticed(n.w)
    requires Rank(phase) <= Rank(n.w.phase) + 7
    ensures Measure(order, n') < Measure(order, n)
  {
    hide Remaining, Valid, Measure;
    Unfold(order, n);
    UnfoldMeasure(order, n);
    UnfoldMeasure(order, n');
    RestKeepsMeasure(order, n.Child(side));
  }

  lemma {:induction false} FetchDecreases(order: SortType, n: Net, n': Net, phase: Phase)
    requires n.Merger? && Valid(n) && PhaseInv(n)
    requires if n.w.phase.Initial? then phase == Initial else (n.w.phase.Poll? || n.w.phase.Waiting?) && phase == Poll
    requires exists side: bool :: Receives(n, n', side, phase) || SeesClose(n, n', side)
    ensures Measure(order, n') < Measure(order, n)
  {
    hide Remaining, Valid, Measure;
    UnfoldMeasure(order, n);
    UnfoldMeasure(order, n');
    var side: bool :| Receives(n, n', side, phase) || SeesClose(n, n', side);
    if Receives(n, n', side, phase) {
      ReceiveDecreases(order, n, n', side, phase);
    }
  }

  lemma {:induction false} ForwardDecreases(order: SortType, n: Net, n': Net)
    requires n.Merger? && Valid(n) && n.w.phase.Forwarding? && WorkerStep(order, n, n')
    ensures Measure(order, n') < Measure(order, n)
  {
    hide Remaining, Valid, Measure;
    Unfold(order, n);
    UnfoldMeasure(order, n);
    UnfoldMeasure(order, n');
    var c := n.Child(!n.w.stopped);
    if n.w.q2 == [] && c.out != [] {
      RestKeepsMeasure(order, c);
    }
  }

  lemma {:induction false} WorkerStepDecreases(order: SortType, n: Net, n': Net)
    requires n.Merger? && Valid(n) && WorkerStep(order, n, n')
    ensures Measure(order, n') < Measure(order, n)
  {
    hide Merge, Flat, Remaining, Valid, Measure;
    Unfold(order, n);
    UnfoldMeasure(order, n);
    var w, remaining := n.w, !n.w.stopped;
    if || (w.phase.Initial? && (w.q0 == [] || w.q1 == [])) || w.phase.Waiting?
       || (w.phase.Poll? && n' != n.To(Merging)) {
      FetchDecreases(order, n, n', if w.phase.Initial? then Initial else Poll);
    } else if w.phase.Fetching? && Receives(n, n', remaining, Partial) {
      ReceiveDecreases(order, n, n', remaining, Partial);
    } else if w.phase.Forwarding? {
      ForwardDecreases(order, n, n');
    } else {
      LocalDecreases(order, n, n');
    }
  }

  // Steps that touch only the worker's own queues and control point: merging,
  // publishing, and the rest.
  lemma {:induction false} LocalDecreases(order: SortType, n: Net, n': Net)
    requires n.Merger? && PhaseInv(n) && WorkerStep(order, n, n') && !n.w.phase.Waiting? && !n.w.phase.Forwarding?
    requires n.w.phase.Initial? ==> n.w.q0 != [] && n.w.q1 != []
    requires n.w.phase.Poll? ==> n' == n.To(Merging)
    requires n.w.phase.Fetching? ==> !Receives(n, n', !n.w.stopped, Partial)
    ensures Measure(order, n') < Measure(order, n)
  {
    hide Merge, Remaining, Valid, Measure, Receives, SeesClose, MergesOne, Publishes;
    UnfoldMeasure(order, n);
    var w := n.w;
    if MergesOne(order, n, n') {
      MergeDecreases(order, n, n');
    } else if w.phase.Merging? {
      PublishDecreases(order, n, n', Waiting);
    } else if w.phase.Partial? {
      PublishDecreases(order, n, n', Decide);
    } else if w.phase.Finishing? || w.phase.Flushing? {
      LastSendDecreases(order, n, n');
    } else {
      UnfoldMeasure(order, n');
    }
  }

  lemma {:induction false} LastSendDecreases(order: SortType, n: Net, n': Net)
    requires n.Merger? && WorkerStep(order, n, n') && !MergesOne(order, n, n')
    requires n.w.phase.Finishing? || n.w.phase.Flushing?
    ensures Measure(order, n') < Measure(order, n)
  {
    hide Remaining, Measure, MergesOne;
    UnfoldMeasure(order, n);
    UnfoldMeasure(order, n');
  }

  lemma {:induction false} MergeDecreases(order: SortType, n: Net, n': Net)
    requires n.Merger? && MergesOne(order, n, n')
    ensures Measure(order, n') < Measure(order, n)
  {
    hide Remaining, Measure;
    UnfoldMeasure(order, n);
    UnfoldMeasure(order, n');
  }

  lemma {:induction false} PublishDecreases(order: SortType, n: Net, n': Net, phase: Phase)
    requires n.Merger? && Publishes(n, n', phase) && Rank(phase) < Rank(n.w.phase)
    requires Unnoticed(n.w) == Unnoticed(n.w.(phase := phase))
    ensures Measure(order, n') < Measure(order, n)
  {
    hide Remaining, Measure;
    UnfoldMeasure(order, n);
    UnfoldMeasure(order, n');
  }

  /** Every step uses up some of a finite amount of work. */
  lemma {:induction false} StepDecreases(order: SortType, n: Net, n': Net)
    requires Valid(n) && Step(order, n, n')
    ensures Measure(order, n') < Measure(order, n)
    decreases n
  {
    if n.Merger? {
      if WorkerStep(order, n, n') {
        WorkerStepDecreases(order, n, n');
      } else if n'.Merger? && n' == n.(left := n'.left) && Step(order, n.left, n'.left) {
        StepDecreases(order, n.left, n'.left);
        StepKeepsRemaining(order, n.left, n'.left);
      } else {
        StepDecreases(order, n.right, n'.right);
        StepKeepsRemaining(order, n.right, n'.right);
      }
    }
  }

  /** ---- runs of the whole pipeline ---- */

  // The merge tree, and what the consumer behind it has received.
  datatype System = System(root: Net, received: seq<Rec>)

  ghost predicate SystemStep(order: SortType, s: System, s': System) {
    || (s'.received == s.received && Step(order, s.root, s'.root))
    || (s.root.out != [] && s' == System(s.root.Rest(), s.received + s.root.out[0]))
  }

  ghost predicate IsRun(order: SortType, run: seq<System>) {
    run != [] && forall i | 0 <= i < |run| - 1 :: SystemStep(order, run[i], run[i + 1])
  }

  ghost predicate IsStuck(order: SortType, s: System) {
    forall s': System :: !SystemStep(order, s, s')
  }

  ghost function Output(order: SortType, s: System): seq<Rec> {
    s.received + Remaining(order, s.root)
  }

  ghost function Budget(order: SortType, s: System): nat {
    Measure(order, s.root) + |Remaining(order, s.root)|
  }

  lemma {:induction false} SystemStepKeeps(order: SortType, s: System, s': System)
    requires Valid(s.root) && SystemStep(order, s, s')
    ensures Valid(s'.root) && Output(order, s') == Output(order, s) && Budget(order, s') < Budget(order, s)
  {
    hide Step, Remaining, Measure, Valid;
    if s'.received == s.received && Step(order, s.root, s'.root) {
      StepKeepsRemaining(order, s.root, s'.root);
      StepDecreases(order, s.root, s'.root);
    } else {
      ReceiveTakesFront(order, s.root);
      RestKeepsMeasure(order, s.root);
    }
  }

  /** At every moment of every run the consumer has received a prefix of one fixed
      sequence, the records never change, and the run's length is bounded. */
  lemma {:induction false} EveryRunConserves(order: SortType, run: seq<System>, k: nat)
    requires IsRun(order, run) && Valid(run[0].root) && run[0].received == [] && k < |run|
    ensures Valid(run[k].root) && Output(order, run[k]) == Remaining(order, run[0].root)
    ensures run[k].received <= Remaining(order, run[0].root)
    ensures k + Budget(order, run[k]) <= Budget(order, run[0])
  {
    if k > 0 {
      EveryRunConserves(order, run, k - 1);
      SystemStepKeeps(order, run[k - 1], run[k]);
    }
  }

  /** A run that cannot be continued has delivered everything: whatever the schedule,
      the result is the same. */
  lemma {:induction false} StuckRunHasDelivered(order: SortType, run: seq<System>)
    requires IsRun(order, run) && Valid(run[0].root) && run[0].received == []
    requires IsStuck(order, run[|run| - 1])
    ensures run[|run| - 1].received == Remaining(order, run[0].root)
    ensures run[|run| - 1].root.IsClosed()
    ensures |run| <= 1 + Budget(order, run[0])
  {
    var s := run[|run| - 1];
    EveryRunConserves(order, run, |run| - 1);
    if s.root.out != [] {
      assert SystemStep(order, s, System(s.root.Rest(), s.received + s.root.out[0]));
    } else if !s.root.IsClosed() {
      var n' := NoDeadlock(order, s.root);
      assert SystemStep(order, s, System(n', s.received));
    }
    ExhaustedHasNothing(order, s.root);
  }

  /** ---- building the tree ---- */

  const EXPORT_QUEUE_DEPTH: nat := 100
  const EXPORT_QUEUE_WORKER_DEPTH: nat := 10

  function NewSource(batches: seq<seq<Rec>>): Net {
    Source(batches, [], EXPORT_QUEUE_DEPTH, false)
  }

  function NewMerger(left: Net, right: Net): Net {
    Merger(left, right, NewWorker(), [], EXPORT_QUEUE_WORKER_DEPTH)
  }

  // One level of the tree: neighbours are merged, an odd one out moves up.
  function PairUp(inputs: seq<Net>): (r: seq<Net>)
    ensures |r| == (|inputs| + 1) / 2
  {
    if |inputs| <= 1 then inputs
    else [NewMerger(inputs[0], inputs[1])] + PairUp(inputs[2..])
  }

  function MergeTree(inputs: seq<Net>): Net
    requires |inputs| >= 1
    decreases |inputs|
  {
    if |inputs| == 1 then inputs[0] else MergeTree(PairUp(inputs))
  }

  // makeMergeTree: level by level until one channel is left.
  method MakeMergeTree(inputs: seq<Net>) returns (ret: seq<Net>)
    requires |inputs| >= 2
    ensures ret == [MergeTree(inputs)]
    decreases |inputs|
  {
    if |inputs| == 2 {
      assert PairUp(inputs) == [NewMerger(inputs[0], inputs[1])] + PairUp([]);
      assert MergeTree(PairUp(inputs)) == NewMerger(inputs[0], inputs[1]);
      return [NewMerger(inputs[0], inputs[1])];
    }
    var numEven := |inputs| / 2;
    var num := numEven + |inputs| % 2;
    ret := [];
    for i := 0 to numEven
      invariant |ret| == i
      invariant ret + PairUp(inputs[2 * i..]) == PairUp(inputs)
    {
      assert inputs[2 * i..][2..] == inputs[2 * (i + 1)..];
      ret := ret + [NewMerger(inputs[i * 2], inputs[i * 2 + 1])];
    }
    assert PairUp(inputs[2 * numEven..]) == inputs[2 * numEven..];
    if numEven != num {
      assert inputs[2 * numEven..] == [inputs[|inputs| - 1]];
      ret := ret + [inputs[|inputs| - 1]];
    }
    assert ret == PairUp(inputs) && MergeTree(inputs) == MergeTree(PairUp(inputs));
    ret := MakeMergeTree(ret);
  }

  ghost function AllRemaining(order: SortType, nets: seq<Net>): multiset<Rec> {
    if nets == [] then multiset{} else multiset(Remaining(order, nets[0])) + AllRemaining(order, nets[1..])
  }

  ghost predicate AllValid(nets: seq<Net>) {
    forall i | 0 <= i < |nets| :: Valid(nets[i])
  }

  ghost predicate AllOrdered(order: SortType, nets: seq<Net>) {
    forall i | 0 <= i < |nets| :: Sorted(order, Remaining(order, nets[i]))
  }

  lemma {:induction false} NewMergerMerges(order: SortType, a: Net, b: Net)
    requires Valid(a) && Valid(b)
    ensures Valid(NewMerger(a, b))
    ensures Remaining(order, NewMerger(a, b)) == Merge(order, Remaining(order, a), Remaining(order, b))
  {
    Unfold(order, NewMerger(a, b));
    assert [] + Remaining(order, a) == Remaining(order, a) && [] + Remaining(order, b) == Remaining(order, b);
  }

  // Merging two inputs gives the records of both, in order if the inputs are.
  lemma {:induction false} MergedPair(order: SortType, a: Net, b: Net)
    requires Valid(a) && Valid(b)
    ensures Valid(NewMerger(a, b))
    ensures multiset(Remaining(order, NewMerger(a, b))) == multiset(Remaining(order, a)) + multiset(Remaining(order, b))
    ensures Sorted(order, Remaining(order, a)) && Sorted(order, Remaining(order, b)) ==>
              Sorted(order, Remaining(order, NewMerger(a, b)))
  {
    hide Sorted, Valid, Remaining;
    NewMergerMerges(order, a, b);
    MergeKeepsRecords(order, Remaining(order, a), Remaining(order, b));
    if Sorted(order, Remaining(order, a)) && Sorted(order, Remaining(order, b)) {
      MergeIsSorted(order, Remaining(order, a), Remaining(order, b));
    }
  }

  lemma {:induction false} AllCons(order: SortType, n: Net, nets: seq<Net>)
    ensures Valid(n) && AllValid(nets) <==> AllValid([n] + nets)
    ensures Sorted(order, Remaining(order, n)) && AllOrdered(order, nets) <==> AllOrdered(order, [n] + nets)
    ensures AllRemaining(order, [n] + nets) == multiset(Remaining(order, n)) + AllRemaining(order, nets)
  {
    hide Sorted, Valid, Remaining;
    var all := [n] + nets;
    assert all[1..] == nets;
    assert all[0] == n && forall i | 0 <= i < |nets| :: nets[i] == all[i + 1];
  }

  lemma {:induction false} PairUpKeeps(order: SortType, nets: seq<Net>)
    requires AllValid(nets)
    ensures AllValid(PairUp(nets)) && AllRemaining(order, PairUp(nets)) == AllRemaining(order, nets)
    ensures AllOrdered(order, nets) ==> AllOrdered(order, PairUp(nets))
  {
    hide Sorted, Valid, Remaining, NewMerger, AllValid, AllOrdered, AllRemaining;
    if |nets| >= 2 {
      var a, b, rest := nets[0], nets[1], nets[2..];
      assert nets == [a] + ([b] + rest);
      AllCons(order, a, [b] + rest);
      AllCons(order, b, rest);
      MergedPair(order, a, b);
      PairUpKeeps(order, rest);
      AllCons(order, NewMerger(a, b), PairUp(rest));
    }
  }

  lemma {:induction false} MergeTreeMerges(order: SortType, nets: seq<Net>)
    requires |nets| >= 1 && AllValid(nets)
    ensures Valid(MergeTree(nets)) && multiset(Remaining(order, MergeTree(nets))) == AllRemaining(order, nets)
    ensures AllOrdered(order, nets) ==> Sorted(order, Remaining(order, MergeTree(nets)))
    decreases |nets|
  {
    if |nets| > 1 {
      PairUpKeeps(order, nets);
      MergeTreeMerges(order, PairUp(nets));
    }
  }

  /** For any number of tables every run of the tree stops, and then the consumer has
      received exactly the tables' records, in order if each table's are. */
  lemma {:induction false} PipelineSortsAndConserves(order: SortType, tables: seq<Net>, run: seq<System>)
    requires |tables| >= 1 && AllValid(tables)
    requires IsRun(order, run) && run[0] == System(MergeTree(tables), [])
    requires IsStuck(order, run[|run| - 1])
    ensures multiset(run[|run| - 1].received) == AllRemaining(order, tables)
    ensures AllOrdered(order, tables) ==> Sorted(order, run[|run| - 1].received)
    ensures |run| <= 1 + Budget(order, run[0])
  {
    MergeTreeMerges(order, tables);
    StuckRunHasDelivered(order, run);
  }
}
