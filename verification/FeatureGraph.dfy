/** From the merged program to the graph of features that call each other. */
module FeatureGraph {
  import opened FeatureMeaning
  import opened FeatureProgram
  import opened FeatureTree
  import opened Wrappers

  // The registers a step takes its arguments from.
  function Registers(args: seq<Arg>): seq<nat> {
    if args == [] then []
    else
      var last := args[|args| - 1];
      Registers(args[..|args| - 1]) + if last.Reg? then [last.register] else []
  }

  // How many of the first j arguments are registers.
  function RegistersBefore(args: seq<Arg>, j: nat): nat
    requires j <= |args|
  {
    if j == 0 then 0 else RegistersBefore(args, j - 1) + if args[j - 1].Reg? then 1 else 0
  }

  // How many of the first j arguments are the raw packets.
  function RawsBefore(args: seq<Arg>, j: nat): nat
    requires j <= |args|
  {
    if j == 0 then 0 else RawsBefore(args, j - 1) + if args[j - 1].RawArg? then 1 else 0
  }

  /** The registers are those of the arguments, position by position: nothing is left out,
      added or exchanged. */
  ghost predicate ByPosition(args: seq<Arg>, registers: seq<nat>) {
    && |registers| == RegistersBefore(args, |args|)
    && forall j | 0 <= j < |args| && args[j].Reg? ::
         RegistersBefore(args, j) < |registers| && registers[RegistersBefore(args, j)] == args[j].register
  }

  lemma {:induction false} PrefixCounts(args: seq<Arg>, more: seq<Arg>, j: nat)
    requires j <= |args|
    ensures RegistersBefore(args + more, j) == RegistersBefore(args, j)
    ensures RawsBefore(args + more, j) == RawsBefore(args, j)
  {
    if j > 0 {
      PrefixCounts(args, more, j - 1);
    }
  }

  lemma {:induction false} RegistersUpTo(args: seq<Arg>, j: nat)
    requires j <= |args|
    ensures RegistersBefore(args, j) <= RegistersBefore(args, |args|)
    ensures j < |args| && args[j].Reg? ==> RegistersBefore(args, j) < RegistersBefore(args, |args|)
    decreases |args| - j
  {
    if j < |args| {
      RegistersUpTo(args, j + 1);
    }
  }

  lemma {:induction false} RegistersByPosition(args: seq<Arg>)
    ensures ByPosition(args, Registers(args))
  {
    if args != [] {
      var n := |args| - 1;
      var before, last := args[..n], args[n];
      assert args == before + [last];
      RegistersByPosition(before);
      forall j | 0 <= j <= n ensures RegistersBefore(args, j) == RegistersBefore(before, j) {
        PrefixCounts(before, [last], j);
      }
      forall j | 0 <= j < n && args[j].Reg?
        ensures RegistersBefore(args, j) < |Registers(args)|
        ensures Registers(args)[RegistersBefore(args, j)] == args[j].register
      {
        assert before[j] == args[j];
      }
    }
  }

  // There is only one such sequence.
  lemma {:induction false} ByPositionIsUnique(args: seq<Arg>, a: seq<nat>, b: seq<nat>)
    requires ByPosition(args, a) && ByPosition(args, b)
    ensures a == b
  {
    forall i | 0 <= i < |a| ensures a[i] == b[i] {
      var j := RegisterAt(args, i, |args|);
    }
  }

  lemma {:induction false} RegisterAt(args: seq<Arg>, i: nat, n: nat) returns (j: nat)
    requires n <= |args| && i < RegistersBefore(args, n)
    ensures j < n && args[j].Reg? && RegistersBefore(args, j) == i
  {
    if args[n - 1].Reg? && RegistersBefore(args, n - 1) == i {
      j := n - 1;
    } else {
      j := RegisterAt(args, i, n - 1);
    }
  }

  ghost predicate Rising(list: seq<nat>) {
    forall i, j | 0 <= i < j < |list| :: list[i] <= list[j]
  }

  ghost predicate StrictlyRising(list: seq<nat>) {
    forall i, j | 0 <= i < j < |list| :: list[i] < list[j]
  }

  // How many raw packets a step takes.
  function RawCount(s: Step): nat {
    if s.control || s.body.ConstBody? then 0 else RawsBefore(s.body.args, |s.body.args|)
  }

  function ArgsOf(s: Step): seq<Arg> {
    if s.control || s.body.ConstBody? then [] else s.body.args
  }

  // a is called by b as often as b takes an argument from a.
  ghost predicate Inverse(args: seq<seq<nat>>, tocall: seq<seq<nat>>)
    requires |args| == |tocall|
  {
    forall a, b | 0 <= a < |args| && 0 <= b < |args| :: multiset(args[a])[b] == multiset(tocall[b])[a]
  }

  // Every edge goes from a smaller to a larger register.
  ghost predicate Ascending(tocall: seq<seq<nat>>) {
    forall a, b | 0 <= a < |tocall| && b in tocall[a] :: a < b < |tocall|
  }

  datatype Graph = Graph(args: seq<seq<nat>>, tocall: seq<seq<nat>>,
                         control: seq<nat>, event: seq<nat>, exported: seq<nat>, variant: seq<nat>)

  // The registers of the steps of a kind, in order.
  function Where(out: seq<Step>, p: Step -> bool): seq<nat> {
    if out == [] then []
    else Where(out[..|out| - 1], p) + if p(out[|out| - 1]) then [|out| - 1] else []
  }

  predicate IsControl(s: Step) {
    s.control
  }

  predicate IsExported(s: Step) {
    !s.control && s.exportName.Some?
  }

  // Features whose maker knows variants choose among them for each record.
  function IsVariant(variants: Body -> bool): Step -> bool {
    (s: Step) => !s.control && variants(s.body)
  }

  // The registers that get the raw packets, once for every argument.
  function Events(out: seq<Step>): seq<nat> {
    if out == [] then []
    else Events(out[..|out| - 1]) + RawArgs(ArgsOf(out[|out| - 1]), |out| - 1)
  }

  function RawArgs(args: seq<Arg>, r: nat): seq<nat> {
    if args == [] then []
    else RawArgs(args[..|args| - 1], r) + if args[|args| - 1].RawArg? then [r] else []
  }

  lemma {:induction false} WhereStep(out: seq<Step>, i: nat, p: Step -> bool)
    requires i < |out|
    ensures Where(out[..i + 1], p) == if p(out[i]) then Where(out[..i], p) + [i] else Where(out[..i], p)
  {
    assert out[..i + 1][..i] == out[..i];
  }

  lemma {:induction false} EventsStep(out: seq<Step>, i: nat)
    requires i < |out|
    ensures Events(out[..i + 1]) == Events(out[..i]) + RawArgs(ArgsOf(out[i]), i)
  {
    assert out[..i + 1][..i] == out[..i];
  }

  lemma {:induction false} NoSteps(variants: Body -> bool)
    ensures Where([], IsControl) == Where([], IsExported) == Where([], IsVariant(variants)) == Events([]) == []
  {
  }

  lemma {:induction false} StrictlyRisingAppend(list: seq<nat>, x: nat)
    requires StrictlyRising(list) && forall y | y in list :: y < x
    ensures StrictlyRising(list + [x])
  {
    assert forall i | 0 <= i < |list| :: list[i] in list;
  }

  // Of these steps exactly those of the kind are listed, in order.
  lemma {:induction false} WhereIs(out: seq<Step>, p: Step -> bool)
    ensures StrictlyRising(Where(out, p))
    ensures forall r: nat :: r in Where(out, p) <==> r < |out| && p(out[r])
  {
    if out == [] {
    } else {
      hide StrictlyRising;
      var n := |out| - 1;
      var before := Where(out[..n], p);
      WhereIs(out[..n], p);
      if p(out[n]) {
        StrictlyRisingAppend(before, n);
      } else {
        assert before + [] == before;
      }
      forall r: nat ensures r in Where(out, p) <==> r < |out| && p(out[r]) {
        assert r < n ==> out[..n][r] == out[r];
      }
    }
  }

  lemma {:induction false} RawArgsAre(args: seq<Arg>, r: nat)
    ensures |RawArgs(args, r)| == RawsBefore(args, |args|)
    ensures forall i | 0 <= i < |RawArgs(args, r)| :: RawArgs(args, r)[i] == r
    ensures forall x: nat :: multiset(RawArgs(args, r))[x] == if x == r then RawsBefore(args, |args|) else 0
  {
    if args != [] {
      var n := |args| - 1;
      RawArgsAre(args[..n], r);
      assert args == args[..n] + [args[n]];
      PrefixCounts(args[..n], [args[n]], n);
    }
  }

  lemma {:induction false} EventsAre(out: seq<Step>)
    ensures Rising(Events(out)) && forall i | 0 <= i < |Events(out)| :: Events(out)[i] < |out|
    ensures forall r: nat :: multiset(Events(out))[r] == if r < |out| then RawCount(out[r]) else 0
  {
    if out != [] {
      hide RawArgs, RawsBefore;
      var n := |out| - 1;
      var before, more := Events(out[..n]), RawArgs(ArgsOf(out[n]), n);
      EventsAre(out[..n]);
      RawArgsAre(ArgsOf(out[n]), n);
      NoRaws();
      forall r: nat ensures multiset(before + more)[r] == if r < |out| then RawCount(out[r]) else 0 {
        assert multiset(before + more) == multiset(before) + multiset(more);
        assert r < n ==> out[..n][r] == out[r];
        assert r >= n ==> r !in before;
      }
    }
  }

  lemma {:induction false} NoRaws()
    ensures RawsBefore([], 0) == 0
  {
  }

  // The callers so far come in order.
  ghost predicate CallersRise(tocall: seq<seq<nat>>, last: nat) {
    forall a | 0 <= a < |tocall| :: Rising(tocall[a]) && forall b | b in tocall[a] :: b <= last
  }

  lemma {:induction false} CallerAdded(tocall: seq<seq<nat>>, a: nat, r: nat)
    requires CallersRise(tocall, r) && a < |tocall|
    ensures CallersRise(tocall[a := tocall[a] + [r]], r)
  {
    assert forall i | 0 <= i < |tocall[a]| :: tocall[a][i] in tocall[a];
  }

  // The edges of one fragment: it is called by its arguments.
  method Connect(r: nat, all: seq<Arg>, args0: seq<seq<nat>>, tocall0: seq<seq<nat>>)
    returns (args: seq<seq<nat>>, tocall: seq<seq<nat>>, event: seq<nat>)
    requires r < |args0| == |tocall0| && args0[r] == [] && ArgsBelow(all, r)
    requires Inverse(args0, tocall0) && Ascending(tocall0) && CallersRise(tocall0, r)
    ensures |args| == |tocall| == |args0| && args == args0[r := Registers(all)]
    ensures ByPosition(all, args[r]) && forall i | 0 <= i < |args| && i != r :: args[i] == args0[i]
    ensures Inverse(args, tocall) && Ascending(tocall) && CallersRise(tocall, r)
    ensures event == RawArgs(all, r)
    ensures |event| == RawsBefore(all, |all|) && forall i | 0 <= i < |event| :: event[i] == r
  {
    hide Inverse, Ascending, CallersRise, ByPosition;
    args, tocall, event := args0, tocall0, [];
    assert all[..0] == [] && args0[r := []] == args0;
    var j := 0;
    while j < |all|
      invariant j <= |all| && |args| == |tocall| == |args0|
      invariant args == args0[r := Registers(all[..j])]
      invariant Inverse(args, tocall) && Ascending(tocall) && CallersRise(tocall, r)
      invariant event == RawArgs(all[..j], r)
    {
      assert all[..j + 1][..j] == all[..j];
      if all[j].RawArg? {
        event := event + [r];
        assert Registers(all[..j + 1]) == Registers(all[..j]) + [] == Registers(all[..j]);
      } else {
        assert RawArgs(all[..j + 1], r) == RawArgs(all[..j], r) + [];
        assert Registers(all[..j + 1]) == Registers(all[..j]) + [all[j].register];
        var arg := all[j].register;
        AddEdge(args, tocall, r, arg);
        CallerAdded(tocall, arg, r);
        args := args[r := args[r] + [arg]];
        tocall := tocall[arg := tocall[arg] + [r]];
      }
      j := j + 1;
    }
    assert all[..j] == all;
    RegistersByPosition(all);
    RawArgsAre(all, r);
  }

  /** Convert: a feature's arguments, position by position, and for every feature the ones
      that use its value, as often as they do and in order; all edges go upwards. The other
      features are listed by kind, in order: a feature gets the raw packets as often as it
      takes them. */
  method Convert(out: seq<Step>, variants: Body -> bool) returns (g: Graph)
    requires Upwards(out) && forall i | 0 <= i < |out| :: out[i].register == i
    ensures |g.args| == |g.tocall| == |out|
    ensures forall i | 0 <= i < |out| :: g.args[i] == Registers(ArgsOf(out[i]))
    ensures Inverse(g.args, g.tocall) && Ascending(g.tocall)
    ensures g.control == Where(out, IsControl) && g.exported == Where(out, IsExported) && g.event == Events(out)
    ensures g.variant == Where(out, IsVariant(variants))
    ensures forall i | 0 <= i < |out| && !out[i].control && out[i].body.CallBody? ::
              ByPosition(out[i].body.args, g.args[i])
    ensures forall i | 0 <= i < |out| && (out[i].control || out[i].body.ConstBody?) :: g.args[i] == []
    ensures forall i | 0 <= i < |out| :: Rising(g.tocall[i])
    ensures StrictlyRising(g.control) && forall r: nat :: r in g.control <==> r < |out| && out[r].control
    ensures StrictlyRising(g.exported)
    ensures forall r: nat :: r in g.exported <==> r < |out| && !out[r].control && out[r].exportName.Some?
    ensures StrictlyRising(g.variant)
    ensures forall r: nat :: r in g.variant <==> r < |out| && !out[r].control && variants(out[r].body)
    ensures Rising(g.event)
    ensures forall r: nat :: multiset(g.event)[r] == if r < |out| then RawCount(out[r]) else 0
  {
    hide Inverse, Ascending, CallersRise, ByPosition, Registers, RawsBefore, Upwards, Where, Events;
    NoEdges(|out|);
    ArgsAreBelow(out);
    assert out[..0] == [];
    NoSteps(variants);
    var n := |out|;
    var args: seq<seq<nat>>, tocall: seq<seq<nat>> := seq(n, i => []), seq(n, i => []);
    var control, event, exported, variant := [], [], [], [];
    var i := 0;
    while i < n
      invariant i <= n == |args| == |tocall|
      invariant forall j | 0 <= j < i :: args[j] == Registers(ArgsOf(out[j]))
      invariant forall j | i <= j < n :: args[j] == []
      invariant Inverse(args, tocall) && Ascending(tocall) && CallersRise(tocall, if i == 0 then 0 else i - 1)
      invariant control == Where(out[..i], IsControl) && exported == Where(out[..i], IsExported)
      invariant event == Events(out[..i]) && variant == Where(out[..i], IsVariant(variants))
    {
      WhereStep(out, i, IsControl);
      WhereStep(out, i, IsExported);
      WhereStep(out, i, IsVariant(variants));
      EventsStep(out, i);
      var fragment := out[i];
      if fragment.control {
        CallersStay(tocall, if i == 0 then 0 else i - 1, i);
        control := control + [fragment.register];
      } else {
        var all := ArgsOf(fragment);
        var more;
        CallersStay(tocall, if i == 0 then 0 else i - 1, i);
        args, tocall, more := Connect(fragment.register, all, args, tocall);
        event := event + more;
        if fragment.exportName.Some? {
          exported := exported + [fragment.register];
        }
        if variants(fragment.body) {
          variant := variant + [fragment.register];
        }
      }
      i := i + 1;
    }
    assert out[..i] == out;
    WhereIs(out, IsControl);
    WhereIs(out, IsExported);
    WhereIs(out, IsVariant(variants));
    EventsAre(out);
    forall i | 0 <= i < n ensures ByPosition(ArgsOf(out[i]), args[i]) {
      RegistersByPosition(ArgsOf(out[i]));
    }
    CallersAreRising(tocall, if i == 0 then 0 else i - 1);
    g := Graph(args, tocall, control, event, exported, variant);
  }

  lemma {:induction false} NoEdges(n: nat)
    ensures Inverse(seq(n, i => []), seq(n, i => [])) && Ascending(seq(n, i => []))
    ensures CallersRise(seq(n, i => []), 0)
    ensures Registers([]) == []
  {
  }

  lemma {:induction false} CallersStay(tocall: seq<seq<nat>>, last: nat, later: nat)
    requires CallersRise(tocall, last) && last <= later
    ensures CallersRise(tocall, later)
  {
  }

  lemma {:induction false} CallersAreRising(tocall: seq<seq<nat>>, last: nat)
    requires CallersRise(tocall, last)
    ensures forall a | 0 <= a < |tocall| :: Rising(tocall[a])
  {
  }

  lemma {:induction false} ArgsAreBelow(out: seq<Step>)
    requires Upwards(out)
    ensures forall i | 0 <= i < |out| :: ArgsBelow(ArgsOf(out[i]), i)
  {
  }

  lemma {:induction false} AddEdge(args: seq<seq<nat>>, tocall: seq<seq<nat>>, i: nat, r: nat)
    requires |args| == |tocall| && r < i < |args| && Inverse(args, tocall) && Ascending(tocall)
    ensures Inverse(args[i := args[i] + [r]], tocall[r := tocall[r] + [i]])
    ensures Ascending(tocall[r := tocall[r] + [i]])
  {
  }

  /** ---- simplify and convert together ---- */

  // A fragment that is exported, and no control feature, has this register.
  ghost predicate ExportedAs(fragments: seq<Fragment>, registers: seq<nat>, r: nat)
    requires |registers| == |fragments|
  {
    exists i :: 0 <= i < |registers| && registers[i] == r && IsOutput(fragments[i])
  }

  predicate IsOutput(f: Fragment) {
    !f.tree.Raw? && f.exportName.Some? && !f.control
  }

  // A control feature that looks like nothing before it has this register.
  ghost predicate ControlAs(fragments: seq<Fragment>, registers: seq<nat>, r: nat)
    requires |registers| == |fragments|
  {
    exists i :: 0 <= i < |registers| && registers[i] == r && StartsControl(fragments, i)
  }

  ghost predicate StartsControl(fragments: seq<Fragment>, i: nat)
    requires i < |fragments|
  {
    !fragments[i].tree.Raw? && fragments[i].control && Erase(fragments[i].tree) !in AllShapes(fragments[..i])
  }

  lemma {:induction false} StepOf(fragments: seq<Fragment>, registers: seq<nat>, out: seq<Step>, trees: seq<Tree>,
                                  r: nat)
    requires Legal(fragments) && Merged(fragments, registers, out, trees)
    ensures ExportedAs(fragments, registers, r) <==> r < |out| && !out[r].control && out[r].exportName.Some?
    ensures ControlAs(fragments, registers, r) <==> r < |out| && out[r].control
  {
    hide Erase, AllShapes, Origin, Shapes;
    if ExportedAs(fragments, registers, r) {
      var i :| 0 <= i < |registers| && registers[i] == r && IsOutput(fragments[i]);
      assert LegalAt(fragments, i) && Placed(fragments[i], AllShapes(fragments[..i]), registers[i], out, trees);
    }
    if ControlAs(fragments, registers, r) {
      var i :| 0 <= i < |registers| && registers[i] == r && StartsControl(fragments, i);
      assert Placed(fragments[i], AllShapes(fragments[..i]), registers[i], out, trees);
    }
    if r < |out| && (out[r].control || out[r].exportName.Some?) {
      var i :| 0 <= i < |registers| && OwnStep(fragments, registers, out[r], r, i);
      assert out[r].control ==> StartsControl(fragments, i);
      assert !out[r].control ==> IsOutput(fragments[i]);
    }
  }

  /** From a lowered specification to the graph: exported are exactly the registers of the
      fragments that are exported and no control features, every one of them once; the
      control features are those that look like nothing before them. */
  method Assemble(fragments: seq<Fragment>, variants: Body -> bool)
    returns (r: Result<Graph>, registers: seq<nat>, ghost out: seq<Step>, ghost trees: seq<Tree>)
    requires forall i | 0 <= i < |fragments| :: Readable(fragments[i].tree)
    ensures r.Ok? <==> Legal(fragments)
    ensures r.Ok? ==> Program(out, trees) && Merged(fragments, registers, out, trees)
    ensures r.Ok? ==> StrictlyRising(r.value.exported)
    ensures r.Ok? ==> forall x: nat :: x in r.value.exported <==> ExportedAs(fragments, registers, x)
    ensures r.Ok? ==> StrictlyRising(r.value.control)
    ensures r.Ok? ==> forall x: nat :: x in r.value.control <==> ControlAs(fragments, registers, x)
    ensures r.Ok? ==> |r.value.args| == |out|
    // the arguments of a feature, in order, are the registers that compute its tree's
    ensures r.Ok? ==> forall x | 0 <= x < |out| && !out[x].control && out[x].body.CallBody? ::
                        ByPosition(out[x].body.args, r.value.args[x])
  {
    hide Readable, Merged, Program, Legal, ExportedAs, ControlAs, StrictlyRising, ByPosition, Inverse, Ascending,
      RawCount;
    var steps;
    steps, registers, trees := Simplify(fragments);
    if steps.ExportedTwice? {
      out := [];
      return ExportedTwice(steps.first), registers, out, trees;
    }
    out := steps.value;
    ProgramIsUpwards(out, trees);
    RegistersAre(out, trees);
    MergedLength(fragments, registers, out, trees);
    var g := Convert(steps.value, variants);
    forall x: nat
      ensures x in g.exported <==> ExportedAs(fragments, registers, x)
      ensures x in g.control <==> ControlAs(fragments, registers, x)
    {
      StepOf(fragments, registers, out, trees, x);
    }
    r := Ok(g);
  }

  lemma {:induction false} RegistersAre(out: seq<Step>, trees: seq<Tree>)
    requires Program(out, trees)
    ensures forall i | 0 <= i < |out| :: out[i].register == i
  {
    hide Compiled, Erase;
  }

  // j depends on i, directly or not.
  ghost predicate Depends(tocall: seq<seq<nat>>, i: nat, j: nat)
    requires Ascending(tocall) && i < |tocall|
    decreases |tocall| - i
  {
    i == j || exists x | x in tocall[i] :: Depends(tocall, x, j)
  }

  // How many ways lead from i to j.
  ghost function Paths(tocall: seq<seq<nat>>, i: nat, j: nat): nat
    requires Ascending(tocall) && i < |tocall|
    decreases |tocall| - i, |tocall[i]| + 1
  {
    (if i == j then 1 else 0) + PathsOver(tocall, i, |tocall[i]|, j)
  }

  // ... over the first n callers.
  ghost function PathsOver(tocall: seq<seq<nat>>, i: nat, n: nat, j: nat): nat
    requires Ascending(tocall) && i < |tocall| && n <= |tocall[i]|
    decreases |tocall| - i, n
  {
    if n == 0 then 0
    else
      assert tocall[i][n - 1] in tocall[i];
      PathsOver(tocall, i, n - 1, j) + Paths(tocall, tocall[i][n - 1], j)
  }

  /** FinishEvent, and any event, trickles down to the features that depend on this one
      and no others, once for every way that leads there, and comes to an end. */
  method Propagate(tocall: seq<seq<nat>>, i: nat) returns (visited: seq<nat>)
    requires Ascending(tocall) && i < |tocall|
    ensures visited != [] && visited[0] == i && forall k | 0 < k < |visited| :: i < visited[k] < |tocall|
    ensures forall j: nat :: j in visited <==> Depends(tocall, i, j)
    ensures forall j: nat :: multiset(visited)[j] == Paths(tocall, i, j)
    decreases |tocall| - i
  {
    visited := [i];
    var k := 0;
    while k < |tocall[i]|
      invariant k <= |tocall[i]| && visited != [] && visited[0] == i
      invariant forall x | 0 < x < |visited| :: i < visited[x] < |tocall|
      invariant forall j: nat :: j in visited <==>
                  i == j || exists x | x in tocall[i] && x in tocall[i][..k] :: Depends(tocall, x, j)
      invariant forall j: nat :: multiset(visited)[j] == (if i == j then 1 else 0) + PathsOver(tocall, i, k, j)
    {
      assert tocall[i][k] in tocall[i];
      assert tocall[i][..k + 1] == tocall[i][..k] + [tocall[i][k]];
      ghost var before, x := visited, tocall[i][k];
      var more := Propagate(tocall, tocall[i][k]);
      visited := visited + more;
      assert multiset(visited) == multiset(before) + multiset(more);
      forall j: nat
        ensures j in visited <==>
                i == j || exists y | y in tocall[i] && y in tocall[i][..k + 1] :: Depends(tocall, y, j)
      {
        assert j in visited <==> j in before || j in more;
        if j in more {
          assert x in tocall[i] && x in tocall[i][..k + 1];
        }
        if j in before && i != j {
          var y :| y in tocall[i] && y in tocall[i][..k] && Depends(tocall, y, j);
          assert y in tocall[i][..k + 1];
        }
      }
      k := k + 1;
    }
    assert tocall[i][..k] == tocall[i];
  }
}
