/** From feature trees to a register program with common subtrees merged. */
module FeatureProgram {
  import opened FeatureTree
  import opened Wrappers

  // A requested feature: its tree after lowering, and the name it is exported under.
  datatype Fragment = Fragment(id: nat, tree: Tree, exportName: Option<string>, control: bool)

  datatype Arg = RawArg | Reg(register: nat)

  datatype Body = ConstBody(value: Constant) | CallBody(ret: string, name: string, args: seq<Arg>)

  // A merged fragment.
  datatype Step = Step(id: nat, body: Body, exportName: Option<string>, control: bool, register: nat)

  datatype Result<T> = Ok(value: T) | ExportedTwice(first: nat)

  /** ---- subtrees ---- */

  // All subtrees that are features or constants, the tree included.
  ghost function Subtrees(t: Tree): set<Tree> {
    match t
    case Raw => {}
    case Const(_) => {t}
    case Call(_, _, args) => {t} + SubtreesOf(args)
  }

  ghost function SubtreesOf(ts: seq<Tree>): set<Tree> {
    if ts == [] then {} else SubtreesOf(ts[..|ts| - 1]) + Subtrees(ts[|ts| - 1])
  }

  ghost function Size(t: Tree): nat {
    if t.Call? then 1 + SizeOf(t.args) else 1
  }

  ghost function SizeOf(ts: seq<Tree>): nat {
    if ts == [] then 0 else SizeOf(ts[..|ts| - 1]) + Size(ts[|ts| - 1])
  }

  lemma {:induction false} SubtreesAreSmall(t: Tree, x: Tree)
    requires x in Subtrees(t)
    ensures Size(x) <= Size(t)
    decreases t, 0
  {
    if t.Call? && x != t {
      SubtreesOfAreSmall(t, t.args, x);
    }
  }

  lemma {:induction false} SubtreesOfAreSmall(t: Tree, ts: seq<Tree>, x: Tree)
    requires forall i | 0 <= i < |ts| :: ts[i] < t
    requires x in SubtreesOf(ts)
    ensures Size(x) <= SizeOf(ts)
    decreases t, 0, |ts|
  {
    var n := |ts| - 1;
    if x in Subtrees(ts[n]) {
      SubtreesAreSmall(ts[n], x);
    } else {
      SubtreesOfAreSmall(t, ts[..n], x);
    }
  }

  // A tree is not part of its own arguments.
  lemma {:induction false} NotInArguments(t: Tree)
    requires t.Call?
    ensures t !in SubtreesOf(t.args)
  {
    if t in SubtreesOf(t.args) {
      SubtreesOfAreSmall(t, t.args, t);
      assert false;
    }
  }

  /** ---- subtrees and the kinds of constants ---- */

  lemma {:induction false} ErasedSubtrees(t: Tree)
    ensures Subtrees(Erase(t)) == set x | x in Subtrees(t) :: Erase(x)
    decreases t, 0
  {
    if t.Call? {
      ErasedSubtreesOf(t, t.args, Erase(t).args);
    }
  }

  lemma {:induction false} ErasedSubtreesOf(t: Tree, ts: seq<Tree>, es: seq<Tree>)
    requires |es| == |ts| && forall i | 0 <= i < |ts| :: ts[i] < t && es[i] == Erase(ts[i])
    ensures SubtreesOf(es) == set x | x in SubtreesOf(ts) :: Erase(x)
    decreases t, 0, |ts|
  {
    hide Subtrees;
    if ts != [] {
      var n := |ts| - 1;
      ErasedSubtreesOf(t, ts[..n], es[..n]);
      ErasedSubtrees(ts[n]);
    }
  }

  lemma {:induction false} SubtreesContain(ts: seq<Tree>, i: nat)
    requires i < |ts|
    ensures Subtrees(ts[i]) <= SubtreesOf(ts)
  {
    if i < |ts| - 1 {
      SubtreesContain(ts[..|ts| - 1], i);
    }
  }

  // The constants of a tree are subtrees of it.
  lemma {:induction false} ConstantsAreSubtrees(t: Tree, c: Constant)
    ensures HasConstant(t, c) ==> Const(c) in Subtrees(t)
    decreases t
  {
    if HasConstant(t, c) && t.Call? {
      var i :| 0 <= i < |t.args| && HasConstant(t.args[i], c);
      ConstantsAreSubtrees(t.args[i], c);
      SubtreesContain(t.args, i);
    }
  }

  lemma {:induction false} SubtreeConstants(t: Tree, x: Tree, c: Constant)
    requires x in Subtrees(t) && HasConstant(x, c)
    ensures HasConstant(t, c)
    decreases t, 0
  {
    if x != t {
      SubtreeOfConstants(t, t.args, x, c);
    }
  }

  lemma {:induction false} SubtreeOfConstants(t: Tree, ts: seq<Tree>, x: Tree, c: Constant)
    requires forall i | 0 <= i < |ts| :: ts[i] < t
    requires x in SubtreesOf(ts) && HasConstant(x, c)
    ensures exists i | 0 <= i < |ts| :: HasConstant(ts[i], c)
    decreases t, 0, |ts|
  {
    var n := |ts| - 1;
    if x in Subtrees(ts[n]) {
      SubtreeConstants(ts[n], x, c);
    } else {
      SubtreeOfConstants(t, ts[..n], x, c);
      var i :| 0 <= i < n && HasConstant(ts[..n][i], c);
      assert HasConstant(ts[i], c);
    }
  }

  /** ---- merging ---- */

  // The trees of the registers, up to the kinds of constants.
  ghost function Shapes(trees: seq<Tree>): set<Tree> {
    set t | t in trees :: Erase(t)
  }

  // The body of a tree's step, its arguments being computed before.
  ghost predicate Compiled(trees: seq<Tree>, t: Tree, body: Body, i: nat)
    requires i <= |trees|
  {
    match t
    case Raw => false
    case Const(c) => body == ConstBody(c)
    case Call(ret, name, args) =>
      && body.CallBody? && body.ret == ret && body.name == name && |body.args| == |args|
      && forall j | 0 <= j < |args| :: ArgIs(trees, args[j], body.args[j], i)
  }

  ghost predicate ArgIs(trees: seq<Tree>, a: Tree, arg: Arg, i: nat)
    requires i <= |trees|
  {
    if a.Raw? then arg == RawArg else arg.Reg? && arg.register < i && trees[arg.register] == a
  }

  // Register i computes trees[i]; no two of them look alike.
  ghost predicate Program(out: seq<Step>, trees: seq<Tree>) {
    && |out| == |trees|
    && (forall i | 0 <= i < |out| :: out[i].register == i && Compiled(trees, trees[i], out[i].body, i))
    && (forall i, j | 0 <= i < j < |trees| :: Erase(trees[i]) != Erase(trees[j]))
  }

  // The steps from n on were added for one fragment, for parts of it that look like these;
  // a constant is one of the fragment's own.
  ghost predicate Added(out: seq<Step>, trees: seq<Tree>, n: nat, id: nat, shapes: set<Tree>, parts: set<Tree>)
    requires |out| == |trees|
  {
    forall i | n <= i < |out| ::
      out[i].id == id && Erase(trees[i]) in shapes && (trees[i].Const? ==> trees[i] in parts)
  }

  class Simplifier {
    var subtrees: map<string, nat>
    var out: seq<Step>
    var register: nat
    // what each register computes
    ghost var trees: seq<Tree>

    ghost predicate Valid()
      reads this
    {
      && register == |out| && Program(out, trees)
      && (forall i | 0 <= i < |trees| :: Readable(trees[i]))
      && (forall i | 0 <= i < |trees| :: Text(trees[i]) in subtrees && subtrees[Text(trees[i])] == i)
      && (forall k | k in subtrees :: subtrees[k] < |trees| && Text(trees[subtrees[k]]) == k)
    }

    constructor ()
      ensures Valid() && out == [] && trees == []
    {
      subtrees, out, register, trees := map[], [], 0, [];
    }

    // Looking up the text finds the register of a tree that looks like it.
    lemma {:induction false} Found(t: Tree)
      requires Valid() && Readable(t)
      ensures Text(t) in subtrees <==> Erase(t) in Shapes(trees)
      ensures Text(t) in subtrees ==> Erase(trees[subtrees[Text(t)]]) == Erase(t)
      ensures t.Raw? ==> Erase(t) !in Shapes(trees)
    {
      hide Text, Readable, Erase, Program;
      if Text(t) in subtrees {
        TextIsErased(t, trees[subtrees[Text(t)]]);
      }
      if Erase(t) in Shapes(trees) {
        var i :| 0 <= i < |trees| && Erase(trees[i]) == Erase(t);
        TextIsErased(t, trees[i]);
      }
      RawIsNoStep();
    }

    lemma {:induction false} SameLength()
      requires Valid()
      ensures |out| == |trees|
    {
    }

    lemma {:induction false} RawIsNoStep()
      requires Valid()
      ensures forall x | x in trees :: !x.Raw? && !Erase(x).Raw?
    {
      forall i | 0 <= i < |trees| ensures trees[i] != Raw {
        assert Compiled(trees, trees[i], out[i].body, i);
      }
    }

    // The arguments with the registers of those merged before, and what these compute.
    method MergeArgs(args: seq<Tree>) returns (merged: seq<Arg>, ghost computed: seq<Tree>)
      requires Valid() && forall i | 0 <= i < |args| :: Readable(args[i])
      requires forall i | 0 <= i < |args| :: args[i].Raw? || Erase(args[i]) in Shapes(trees)
      ensures |merged| == |computed| == |args|
      ensures forall i | 0 <= i < |args| :: ArgIs(trees, computed[i], merged[i], |trees|)
      ensures forall i | 0 <= i < |args| :: Erase(computed[i]) == Erase(args[i]) && Readable(computed[i])
    {
      hide Readable, Text, Erase, Shapes;
      RawIsNoStep();
      merged, computed := [], [];
      while |merged| < |args|
        invariant |merged| == |computed| <= |args|
        invariant forall i | 0 <= i < |merged| :: ArgIs(trees, computed[i], merged[i], |trees|)
        invariant forall i | 0 <= i < |merged| :: Erase(computed[i]) == Erase(args[i]) && Readable(computed[i])
      {
        var a := args[|merged|];
        Found(a);
        var name := Text(a);
        if name in subtrees {
          computed := computed + [trees[subtrees[name]]];
          merged := merged + [Reg(subtrees[name])];
        } else {
          merged, computed := merged + [RawArg], computed + [a];
        }
      }
    }

    // A tree that was not merged before gets the next register.
    method Append(id: nat, name: string, body: Body, exportName: Option<string>, control: bool, ghost t: Tree)
      requires Valid() && Readable(t) && name == Text(t) && Erase(t) !in Shapes(trees)
      requires Compiled(trees, t, body, |trees|)
      modifies this
      ensures Valid() && trees == old(trees) + [t]
      ensures out == old(out) + [Step(id, body, exportName, control, |old(trees)|)]
    {
      hide Readable, Text, Erase;
      Found(t);
      subtrees := subtrees[name := register];
      out := out + [Step(id, body, exportName, control, register)];
      register := register + 1;
      trees := trees + [t];
    }

    // The body of a new step, and what it computes.
    method Compile(t: Tree) returns (body: Body, ghost computed: Tree)
      requires Valid() && Readable(t) && !t.Raw?
      requires t.Call? ==> forall i | 0 <= i < |t.args| :: t.args[i].Raw? || Erase(t.args[i]) in Shapes(trees)
      ensures Compiled(trees, computed, body, |trees|) && Readable(computed) && Text(computed) == Text(t)
      ensures Erase(computed) == Erase(t) && (computed.Const? ==> computed == t)
    {
      hide Text, Shapes, Simplifier.Valid;
      match t {
        case Const(c) =>
          body, computed := ConstBody(c), t;
        case Call(ret, name, args) =>
          var merged, ts := MergeArgs(args);
          body, computed := CallBody(ret, name, merged), Call(ret, name, ts);
          assert Erase(computed).args == Erase(t).args;
      }
      TextIsErased(computed, t);
    }

    // The tree itself, its arguments being merged.
    method MergeRoot(id: nat, t: Tree, exportName: Option<string>, control: bool) returns (r: Result<nat>)
      requires Valid() && Readable(t) && !t.Raw?
      requires t.Call? ==> forall i | 0 <= i < |t.args| :: t.args[i].Raw? || Erase(t.args[i]) in Shapes(trees)
      modifies this
      ensures Valid() && old(trees) <= trees && old(out) <= out && |out| == |trees|
      ensures r.Ok? <==> exportName.None? || Erase(t) !in old(Shapes(trees))
      ensures r.Ok? ==> r.value < |trees| && Erase(trees[r.value]) == Erase(t)
      ensures r.ExportedTwice? ==> exists j | 0 <= j < |out| :: Erase(trees[j]) == Erase(t) && out[j].id == r.first
      ensures Erase(t) in old(Shapes(trees)) ==> out == old(out) && trees == old(trees)
      ensures Erase(t) !in old(Shapes(trees)) ==>
                && r == Ok(|old(out)|) && |out| == |old(out)| + 1 && (trees[r.value].Const? ==> trees[r.value] == t)
                && out[r.value].(body := out[r.value].body) == Step(id, out[r.value].body, exportName, control, r.value)
    {
      hide Readable, Text, Erase, Shapes;
      Found(t);
      var name := Text(t);
      if name in subtrees {
        if exportName.Some? {
          var first := subtrees[name];
          assert Erase(trees[first]) == Erase(t) && out[first].id == out[first].id;
          return ExportedTwice(out[first].id);
        }
        return Ok(subtrees[name]);
      }
      var body, computed := Compile(t);
      r := Ok(register);
      Append(id, name, body, exportName, control, computed);
    }

    lemma {:induction false} ArgsAreReadable(t: Tree)
      requires Readable(t)
      ensures t.Call? ==> forall i | 0 <= i < |t.args| :: Readable(t.args[i])
    {
    }

    // Merged arguments: all of them have registers now.
    lemma {:induction false} ArgsAreIn(args: seq<Tree>, shapes: seq<Tree>, all: set<Tree>)
      requires |shapes| == |args| && forall i | 0 <= i < |args| :: shapes[i] == Erase(args[i])
      requires SubtreesOf(shapes) <= all
      ensures forall i | 0 <= i < |args| :: args[i].Raw? || Erase(args[i]) in all
    {
      if args != [] {
        ArgsAreIn(args[..|args| - 1], shapes[..|args| - 1], all);
      }
    }

    // The arguments of a call, none of them exported or a control feature.
    method MergeAll(id: nat, t: Tree)
      requires Valid() && Readable(t) && t.Call?
      modifies this
      ensures Valid() && old(trees) <= trees && old(out) <= out && |out| == |trees|
      ensures Shapes(trees) == old(Shapes(trees)) + SubtreesOf(Erase(t).args)
      ensures Added(out, trees, |old(out)|, id, SubtreesOf(Erase(t).args), SubtreesOf(t.args))
      ensures forall i | |old(out)| <= i < |out| :: out[i].exportName.None? && !out[i].control
      decreases t, 0
    {
      hide Text, Readable, Program, Simplifier.Valid, Subtrees, Shapes, Added;
      ArgsAreReadable(t);
      SameLength();
      ghost var shapes := Erase(t).args;
      NothingAdded(out, trees, id);
      var i := 0;
      while i < |t.args|
        invariant i <= |t.args| && Valid() && old(trees) <= trees && old(out) <= out && |out| == |trees|
        invariant Shapes(trees) == old(Shapes(trees)) + SubtreesOf(shapes[..i])
        invariant Added(out, trees, |old(out)|, id, SubtreesOf(shapes[..i]), SubtreesOf(t.args[..i]))
        invariant forall j | |old(out)| <= j < |out| :: out[j].exportName.None? && !out[j].control
      {
        ghost var out0, trees0 := out, trees;
        var _ := Merge(id, t.args[i], None, false);
        assert t.args[..i + 1][..i] == t.args[..i] && shapes[..i + 1][..i] == shapes[..i];
        AddedMore(out0, trees0, |old(out)|, id, SubtreesOf(shapes[..i]), SubtreesOf(t.args[..i]),
                  out, trees, Subtrees(shapes[i]), Subtrees(t.args[i]));
        i := i + 1;
      }
      assert t.args[..i] == t.args && shapes[..i] == shapes;
    }

    /** One tree: its subtrees that are new get the next registers, arguments first; what
        looks like a tree merged before gets its register and must not be exported again. */
    method Merge(id: nat, t: Tree, exportName: Option<string>, control: bool) returns (r: Result<nat>)
      requires Valid() && Readable(t)
      modifies this
      ensures Valid() && old(trees) <= trees && old(out) <= out && |out| == |trees|
      ensures t.Raw? ==> r.Ok? && trees == old(trees)
      ensures !t.Raw? ==> (r.Ok? <==> exportName.None? || Erase(t) !in old(Shapes(trees)))
      ensures Shapes(trees) == old(Shapes(trees)) + Subtrees(Erase(t))
      ensures Added(out, trees, |old(out)|, id, Subtrees(Erase(t)), Subtrees(t))
      ensures r.Ok? && !t.Raw? ==> r.value < |trees| && Erase(trees[r.value]) == Erase(t)
      ensures r.Ok? && !t.Raw? && Erase(t) !in old(Shapes(trees)) ==>
                out[r.value].exportName == exportName && out[r.value].control == control
      ensures r.ExportedTwice? ==> exists j | 0 <= j < |out| :: Erase(trees[j]) == Erase(t) && out[j].id == r.first
      ensures forall i | |old(out)| <= i < |out| && (out[i].exportName.Some? || out[i].control) ::
                !t.Raw? && r == Ok(i) && out[i].exportName == exportName && out[i].control == control
                && Erase(t) !in old(Shapes(trees))
      decreases t, 1
    {
      hide Text, Readable, Simplifier.Valid, Added, Shapes;
      SameLength();
      if t.Raw? {
        NothingAdded(out, trees, id);
        return Ok(0);
      }
      if t.Call? {
        MergeAll(id, t);
        NotInArguments(Erase(t));
        ArgsAreIn(t.args, Erase(t).args, Shapes(trees));
      } else {
        NothingAdded(out, trees, id);
      }
      ghost var out1, trees1 := out, trees;
      r := MergeRoot(id, t, exportName, control);
      RootAdded(old(out), old(trees), out1, trees1, out, trees, id, t);
    }
  }

  lemma {:induction false} NothingAdded(out: seq<Step>, trees: seq<Tree>, id: nat)
    requires |out| == |trees|
    ensures Added(out, trees, |out|, id, {}, {})
  {
  }

  lemma {:induction false} AddedMore(out0: seq<Step>, trees0: seq<Tree>, n: nat, id: nat,
                                     shapes0: set<Tree>, parts0: set<Tree>,
                                     out: seq<Step>, trees: seq<Tree>, shapes: set<Tree>, parts: set<Tree>)
    requires |out0| == |trees0| && |out| == |trees| && out0 <= out && trees0 <= trees
    requires Added(out0, trees0, n, id, shapes0, parts0) && Added(out, trees, |out0|, id, shapes, parts)
    ensures Added(out, trees, n, id, shapes0 + shapes, parts0 + parts)
  {
    forall i | n <= i < |out|
      ensures out[i].id == id && Erase(trees[i]) in shapes0 + shapes && (trees[i].Const? ==> trees[i] in parts0 + parts)
    {
      if i < |out0| {
        assert out0[i] == out[i] && trees0[i] == trees[i];
      }
    }
  }

  // The root's own step, if it got one.
  lemma {:induction false} RootAdded(out0: seq<Step>, trees0: seq<Tree>, out1: seq<Step>, trees1: seq<Tree>,
                                     out: seq<Step>, trees: seq<Tree>, id: nat, t: Tree)
    requires |out0| == |trees0| <= |out1| == |trees1| <= |out| == |trees| && out1 <= out && trees1 <= trees && !t.Raw?
    requires Shapes(trees1) == Shapes(trees0) + if t.Call? then SubtreesOf(Erase(t).args) else {}
    requires Added(out1, trees1, |out0|, id, if t.Call? then SubtreesOf(Erase(t).args) else {},
                   if t.Call? then SubtreesOf(t.args) else {})
    requires Erase(t) in Shapes(trees1) ==> trees == trees1
    requires Erase(t) !in Shapes(trees1) ==>
               |trees| == |trees1| + 1 && Erase(trees[|trees1|]) == Erase(t) && out[|trees1|].id == id
               && (trees[|trees1|].Const? ==> trees[|trees1|] == t)
    ensures Shapes(trees) == Shapes(trees0) + Subtrees(Erase(t))
    ensures Added(out, trees, |out0|, id, Subtrees(Erase(t)), Subtrees(t))
  {
    AddedMore(out1, trees1, |out0|, id, if t.Call? then SubtreesOf(Erase(t).args) else {},
              if t.Call? then SubtreesOf(t.args) else {}, out, trees, {Erase(t)}, {t});
    if Erase(t) !in Shapes(trees1) {
      assert trees == trees1 + [trees[|trees1|]];
    }
    assert Shapes(trees) == Shapes(trees1) + {Erase(t)};
    assert Subtrees(t) == {t} + if t.Call? then SubtreesOf(t.args) else {};
    assert Subtrees(Erase(t)) == {Erase(t)} + if t.Call? then SubtreesOf(Erase(t).args) else {};
  }

  /** ---- a whole specification ---- */

  ghost function AllSubtrees(fragments: seq<Fragment>): set<Tree> {
    if fragments == [] then {}
    else AllSubtrees(fragments[..|fragments| - 1]) + Subtrees(fragments[|fragments| - 1].tree)
  }

  // ... up to the kinds of constants.
  ghost function AllShapes(fragments: seq<Fragment>): set<Tree> {
    if fragments == [] then {}
    else AllShapes(fragments[..|fragments| - 1]) + Subtrees(Erase(fragments[|fragments| - 1].tree))
  }

  // No exported feature looks like one, even a part of one, that came before.
  ghost predicate Legal(fragments: seq<Fragment>) {
    forall i | 0 <= i < |fragments| :: LegalAt(fragments, i)
  }

  ghost predicate LegalAt(fragments: seq<Fragment>, i: nat)
    requires i < |fragments|
  {
    fragments[i].exportName.Some? && !fragments[i].tree.Raw? ==>
      Erase(fragments[i].tree) !in AllShapes(fragments[..i])
  }

  // A fragment has its register, which holds its tree, but for kinds of constants, and its
  // name; if it looked new, the step there is its own, with its control flag.
  ghost predicate Placed(f: Fragment, before: set<Tree>, register: nat, out: seq<Step>, trees: seq<Tree>) {
    !f.tree.Raw? ==>
      && register < |out| == |trees| && Erase(trees[register]) == Erase(f.tree)
      && (f.exportName.Some? ==> out[register].exportName == f.exportName)
      && (Erase(f.tree) !in before ==> out[register].exportName == f.exportName && out[register].control == f.control)
  }

  // This step is the one of a fragment that looked new, with its name and control flag.
  ghost predicate OwnStep(fragments: seq<Fragment>, registers: seq<nat>, s: Step, j: nat, i: nat)
    requires i < |registers| == |fragments|
  {
    && registers[i] == j && fragments[i].exportName == s.exportName && fragments[i].control == s.control
    && !fragments[i].tree.Raw? && Erase(fragments[i].tree) !in AllShapes(fragments[..i])
  }

  // Every exported step and every control feature is a fragment; no argument is one.
  ghost predicate Named(fragments: seq<Fragment>, registers: seq<nat>, out: seq<Step>)
    requires |registers| == |fragments|
  {
    forall j | 0 <= j < |out| && (out[j].exportName.Some? || out[j].control) ::
      exists i :: 0 <= i < |registers| && OwnStep(fragments, registers, out[j], j, i)
  }

  // This step was added for a part of this fragment, the first that looks like it; a
  // constant has the kind it has there.
  ghost predicate From(f: Fragment, before: set<Tree>, s: Step, t: Tree) {
    s.id == f.id && Erase(t) in Subtrees(Erase(f.tree)) && Erase(t) !in before && (t.Const? ==> t in Subtrees(f.tree))
  }

  ghost predicate Origin(fragments: seq<Fragment>, out: seq<Step>, trees: seq<Tree>)
    requires |out| == |trees|
  {
    forall j | 0 <= j < |out| :: FromSome(fragments, out[j], trees[j])
  }

  ghost predicate FromSome(fragments: seq<Fragment>, s: Step, t: Tree) {
    exists i | 0 <= i < |fragments| :: From(fragments[i], AllShapes(fragments[..i]), s, t)
  }

  lemma {:induction false} PlacedKeeps(f: Fragment, before: set<Tree>, register: nat, out: seq<Step>, trees: seq<Tree>,
                                       out': seq<Step>, trees': seq<Tree>)
    requires Placed(f, before, register, out, trees) && out <= out' && trees <= trees' && |out'| == |trees'|
    ensures Placed(f, before, register, out', trees')
  {
  }

  // One fragment more: only its own step may be a new exported one or a control feature.
  lemma {:induction false} NamedKeeps(fragments: seq<Fragment>, registers: seq<nat>, out: seq<Step>,
                                      f: Fragment, register: nat, out': seq<Step>)
    requires |registers| == |fragments| && Named(fragments, registers, out) && out <= out'
    requires forall i | |out| <= i < |out'| && (out'[i].exportName.Some? || out'[i].control) ::
               i == register && out'[i].exportName == f.exportName && out'[i].control == f.control
               && !f.tree.Raw? && Erase(f.tree) !in AllShapes(fragments)
    ensures Named(fragments + [f], registers + [register], out')
  {
    hide Erase, AllShapes;
    var fs, rs := fragments + [f], registers + [register];
    forall j | 0 <= j < |out'| && (out'[j].exportName.Some? || out'[j].control)
      ensures exists i :: 0 <= i < |rs| && OwnStep(fs, rs, out'[j], j, i)
    {
      if j < |out| {
        assert out[j] == out'[j];
        var i :| 0 <= i < |registers| && OwnStep(fragments, registers, out[j], j, i);
        assert fs[..i] == fragments[..i];
        assert OwnStep(fs, rs, out'[j], j, i);
      } else {
        assert fs[..|fragments|] == fragments;
        assert OwnStep(fs, rs, out'[j], j, |fragments|);
      }
    }
  }

  // The new steps are the new fragment's.
  lemma {:induction false} OriginKeeps(fragments: seq<Fragment>, out: seq<Step>, trees: seq<Tree>,
                                       f: Fragment, out': seq<Step>, trees': seq<Tree>)
    requires |out| == |trees| && |out'| == |trees'| && out <= out' && trees <= trees'
    requires Origin(fragments, out, trees) && Shapes(trees) == AllShapes(fragments) && Program(out', trees')
    requires Added(out', trees', |out|, f.id, Subtrees(Erase(f.tree)), Subtrees(f.tree))
    ensures Origin(fragments + [f], out', trees')
  {
    hide Erase, Subtrees, AllShapes, Compiled;
    var fs := fragments + [f];
    forall j | 0 <= j < |out'| ensures FromSome(fs, out'[j], trees'[j]) {
      if j < |out| {
        assert out[j] == out'[j] && trees[j] == trees'[j] && FromSome(fragments, out[j], trees[j]);
        var i :| 0 <= i < |fragments| && From(fragments[i], AllShapes(fragments[..i]), out[j], trees[j]);
        assert fs[i] == fragments[i] && fs[..i] == fragments[..i];
        assert From(fs[i], AllShapes(fs[..i]), out'[j], trees'[j]);
      } else {
        assert fs[..|fragments|] == fragments;
        assert Erase(trees'[j]) !in Shapes(trees) by {
          assert forall i | 0 <= i < |trees| :: trees[i] == trees'[i];
        }
        assert From(fs[|fragments|], AllShapes(fs[..|fragments|]), out'[j], trees'[j]);
      }
    }
  }

  // The fragments so far are merged.
  ghost predicate Merged(fragments: seq<Fragment>, registers: seq<nat>, out: seq<Step>, trees: seq<Tree>) {
    && |registers| == |fragments| && |out| == |trees| && Shapes(trees) == AllShapes(fragments)
    && (forall i | 0 <= i < |fragments| :: Placed(fragments[i], AllShapes(fragments[..i]), registers[i], out, trees))
    && Named(fragments, registers, out) && Origin(fragments, out, trees)
  }

  // This fragment is exported, and the first one it looks like a part of has this id.
  ghost predicate Twice(fragments: seq<Fragment>, f: Fragment, id: nat) {
    f.exportName.Some?
    && exists i | 0 <= i < |fragments| :: IsFirst(fragments, i, Erase(f.tree)) && fragments[i].id == id
  }

  ghost predicate IsFirst(fragments: seq<Fragment>, i: nat, shape: Tree)
    requires i < |fragments|
  {
    shape in Subtrees(Erase(fragments[i].tree)) && shape !in AllShapes(fragments[..i])
  }

  lemma {:induction false} TwiceFrom(fragments: seq<Fragment>, out: seq<Step>, trees: seq<Tree>, f: Fragment, j: nat)
    requires |out| == |trees| && Origin(fragments, out, trees) && f.exportName.Some?
    requires j < |out| && Erase(trees[j]) == Erase(f.tree)
    ensures Twice(fragments, f, out[j].id)
  {
    hide Erase, Subtrees;
    assert FromSome(fragments, out[j], trees[j]);
    var i :| 0 <= i < |fragments| && From(fragments[i], AllShapes(fragments[..i]), out[j], trees[j]);
    assert IsFirst(fragments, i, Erase(f.tree)) && fragments[i].id == out[j].id;
  }

  lemma {:induction false} SameStep(out: seq<Step>, trees: seq<Tree>, out': seq<Step>, trees': seq<Tree>, t: Tree,
                                    j: nat)
    requires |out| == |trees| && out <= out' && trees <= trees' && Program(out', trees') && Erase(t) in Shapes(trees)
    requires j < |out'| && Erase(trees'[j]) == Erase(t)
    ensures j < |out| && Erase(trees[j]) == Erase(t) && out[j] == out'[j]
  {
    hide Erase, Compiled;
    var i :| 0 <= i < |trees| && Erase(trees[i]) == Erase(t);
    assert trees[i] == trees'[i];
  }

  method Add(s: Simplifier, ghost fragments: seq<Fragment>, registers: seq<nat>, f: Fragment)
    returns (r: Result<seq<nat>>)
    requires s.Valid() && Merged(fragments, registers, s.out, s.trees) && Readable(f.tree)
    modifies s
    ensures s.Valid()
    ensures r.Ok? <==> f.exportName.None? || f.tree.Raw? || Erase(f.tree) !in AllShapes(fragments)
    ensures r.Ok? ==> Merged(fragments + [f], r.value, s.out, s.trees)
    ensures r.ExportedTwice? ==> Twice(fragments, f, r.first)
  {
    hide Readable, Subtrees, Placed, Named, Origin, Twice, Added, Shapes, Compiled, Erase;
    ghost var out0, trees0 := s.out, s.trees;
    var m := s.Merge(f.id, f.tree, f.exportName, f.control);
    if m.ExportedTwice? {
      ghost var j :| 0 <= j < |s.out| && Erase(s.trees[j]) == Erase(f.tree) && s.out[j].id == m.first;
      SameStep(out0, trees0, s.out, s.trees, f.tree, j);
      TwiceFrom(fragments, out0, trees0, f, j);
      return ExportedTwice(m.first);
    }
    ghost var fs, rs := fragments + [f], registers + [m.value];
    NowPlaced(f, AllShapes(fragments), m.value, s.out, s.trees);
    forall j | 0 <= j < |fs| ensures Placed(fs[j], AllShapes(fs[..j]), rs[j], s.out, s.trees) {
      if j < |fragments| {
        assert fs[..j] == fragments[..j];
        PlacedKeeps(fragments[j], AllShapes(fragments[..j]), registers[j], out0, trees0, s.out, s.trees);
      } else {
        assert fs[..j] == fragments;
      }
    }
    NamedKeeps(fragments, registers, out0, f, m.value, s.out);
    OriginKeeps(fragments, out0, trees0, f, s.out, s.trees);
    assert (fragments + [f])[..|fragments|] == fragments;
    return Ok(registers + [m.value]);
  }

  /** Simplify: one register for all subtrees that look alike, and an error exactly when an
      exported feature looks like a part of an earlier one, which the error names. */
  method Simplify(fragments: seq<Fragment>)
    returns (r: Result<seq<Step>>, registers: seq<nat>, ghost trees: seq<Tree>)
    requires forall i | 0 <= i < |fragments| :: Readable(fragments[i].tree)
    ensures r.Ok? <==> Legal(fragments)
    ensures r.Ok? ==> Program(r.value, trees) && Merged(fragments, registers, r.value, trees)
    ensures r.ExportedTwice? ==> exists j | 0 <= j < |fragments| :: Twice(fragments[..j], fragments[j], r.first)
  {
    hide Readable, Merged, Program, AllShapes, Twice;
    var s := new Simplifier();
    var i := 0;
    registers := [];
    NothingMerged(s.out, s.trees);
    while i < |fragments|
      invariant i <= |fragments| && s.Valid()
      invariant forall j | 0 <= j < i :: LegalAt(fragments, j)
      invariant Merged(fragments[..i], registers, s.out, s.trees)
    {
      assert fragments[..i + 1] == fragments[..i] + [fragments[i]];
      var m := Add(s, fragments[..i], registers, fragments[i]);
      if m.ExportedTwice? {
        assert !LegalAt(fragments, i);
        return ExportedTwice(m.first), registers, s.trees;
      }
      assert LegalAt(fragments, i);
      registers := m.value;
      i := i + 1;
    }
    assert fragments[..i] == fragments;
    return Ok(s.out), registers, s.trees;
  }

  lemma {:induction false} NothingMerged(out: seq<Step>, trees: seq<Tree>)
    requires out == [] && trees == []
    ensures Merged([], [], out, trees)
  {
  }

  lemma {:induction false} NowPlaced(f: Fragment, before: set<Tree>, register: nat, out: seq<Step>, trees: seq<Tree>)
    requires !f.tree.Raw? ==> register < |out| == |trees| && Erase(trees[register]) == Erase(f.tree)
    requires !f.tree.Raw? && f.exportName.Some? ==> out[register].exportName == f.exportName
    requires !f.tree.Raw? && Erase(f.tree) !in before ==>
               out[register].exportName == f.exportName && out[register].control == f.control
    ensures Placed(f, before, register, out, trees)
  {
  }

  /** As many registers as there are subtrees that look different. */
  lemma {:induction false} OneRegisterEach(out: seq<Step>, trees: seq<Tree>)
    requires Program(out, trees)
    ensures |out| == |Shapes(trees)|
  {
    CountDistinct(trees);
  }

  lemma {:induction false} CountDistinct(trees: seq<Tree>)
    requires forall i, j | 0 <= i < j < |trees| :: Erase(trees[i]) != Erase(trees[j])
    ensures |Shapes(trees)| == |trees|
  {
    hide Erase;
    if trees == [] {
      assert Shapes(trees) == {};
    } else {
      var n := |trees| - 1;
      CountDistinct(trees[..n]);
      assert trees == trees[..n] + [trees[n]];
      assert Shapes(trees) == Shapes(trees[..n]) + {Erase(trees[n])};
    }
  }
}
