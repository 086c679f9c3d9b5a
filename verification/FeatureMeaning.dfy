/** What the merged program computes: every register the value of its feature, unless two
    constants print alike but differ in kind. */
module FeatureMeaning {
  import opened FeatureProgram
  import opened FeatureTree
  import opened Wrappers

  /** ---- running the program ---- */

  // The value of a step, given the values of the registers before it.
  function Value<V>(m: Meaning<V>, body: Body, regs: seq<V>, input: V): V
    requires body.CallBody? ==> forall i | 0 <= i < |body.args| :: body.args[i].Reg? ==> body.args[i].register < |regs|
  {
    match body
    case ConstBody(c) => m.constant(c)
    case CallBody(ret, name, args) =>
      m.call(ret, name,
             seq(|args|, i requires 0 <= i < |args| => if args[i].RawArg? then input else regs[args[i].register]))
  }

  // Every step uses registers before its own.
  ghost predicate Upwards(out: seq<Step>) {
    forall i | 0 <= i < |out| && out[i].body.CallBody? :: ArgsBelow(out[i].body.args, i)
  }

  ghost predicate ArgsBelow(args: seq<Arg>, i: nat) {
    forall j | 0 <= j < |args| && args[j].Reg? :: args[j].register < i
  }

  ghost function Run<V>(m: Meaning<V>, out: seq<Step>, input: V): (regs: seq<V>)
    requires Upwards(out)
    ensures |regs| == |out|
  {
    if out == [] then []
    else
      var n := |out| - 1;
      var regs := Run(m, out[..n], input);
      assert out[n].body.CallBody? ==> ArgsBelow(out[n].body.args, n);
      regs + [Value(m, out[n].body, regs, input)]
  }

  lemma {:induction false} ProgramIsUpwards(out: seq<Step>, trees: seq<Tree>)
    requires Program(out, trees)
    ensures Upwards(out)
  {
    forall i | 0 <= i < |out| && out[i].body.CallBody? ensures ArgsBelow(out[i].body.args, i) {
      assert Compiled(trees, trees[i], out[i].body, i);
      forall j | 0 <= j < |out[i].body.args| && out[i].body.args[j].Reg? ensures out[i].body.args[j].register < i {
        assert ArgIs(trees, trees[i].args[j], out[i].body.args[j], i);
      }
    }
  }

  lemma {:induction false} PrefixIsProgram(out: seq<Step>, trees: seq<Tree>, n: nat)
    requires Program(out, trees) && n <= |out|
    ensures Program(out[..n], trees[..n])
  {
    forall i | 0 <= i < n ensures Compiled(trees[..n], trees[i], out[i].body, i) {
      assert Compiled(trees, trees[i], out[i].body, i);
      if trees[i].Call? {
        forall j | 0 <= j < |trees[i].args| ensures ArgIs(trees[..n], trees[i].args[j], out[i].body.args[j], i) {
          assert ArgIs(trees, trees[i].args[j], out[i].body.args[j], i);
        }
      }
    }
  }

  /** Merging preserves meaning: every register gets the value of its tree. */
  lemma {:induction false} RunIsEval<V>(m: Meaning<V>, out: seq<Step>, trees: seq<Tree>, input: V, i: nat)
    requires Program(out, trees) && Upwards(out) && i < |out|
    requires forall t | t in trees :: Built(t) && NoMap(t)
    ensures Run(m, out, input)[i] == Eval(m, trees[i], input)
    decreases |out|, i
  {
    var n := |out| - 1;
    PrefixIsProgram(out, trees, n);
    ProgramIsUpwards(out[..n], trees[..n]);
    if i < n {
      RunIsEval(m, out[..n], trees[..n], input, i);
    } else {
      var t, body := trees[n], out[n].body;
      assert t in trees && Compiled(trees, t, body, n);
      if t.Call? {
        var regs := Run(m, out[..n], input);
        forall j | 0 <= j < |t.args|
          ensures (if body.args[j].RawArg? then input else regs[body.args[j].register]) == Eval(m, t.args[j], input)
        {
          assert ArgIs(trees, t.args[j], body.args[j], n);
          if !t.args[j].Raw? {
            RunIsEval(m, out[..n], trees[..n], input, body.args[j].register);
          }
        }
        assert seq(|body.args|, j requires 0 <= j < |body.args| =>
                     if body.args[j].RawArg? then input else regs[body.args[j].register])
            == seq(|t.args|, j requires 0 <= j < |t.args| => Eval(m, t.args[j], input));
        assert Run(m, out, input)[n] == Value(m, body, regs, input) && !IsMap(t);
      }
    }
  }

  // Subtrees of a lowered tree are lowered.
  lemma {:induction false} SubtreesAreLowered(t: Tree, x: Tree)
    requires Built(t) && NoMap(t) && x in Subtrees(t)
    ensures Built(x) && NoMap(x)
    decreases t, 0
  {
    if t.Call? && x != t {
      SubtreesOfAreLowered(t, t.args, x);
    }
  }

  lemma {:induction false} SubtreesOfAreLowered(t: Tree, ts: seq<Tree>, x: Tree)
    requires forall i | 0 <= i < |ts| :: ts[i] < t && Built(ts[i]) && NoMap(ts[i])
    requires x in SubtreesOf(ts)
    ensures Built(x) && NoMap(x)
    decreases t, 0, |ts|
  {
    var n := |ts| - 1;
    if x in Subtrees(ts[n]) {
      SubtreesAreLowered(ts[n], x);
    } else {
      SubtreesOfAreLowered(t, ts[..n], x);
    }
  }

  // Being lowered does not depend on the kinds of constants.
  lemma {:induction false} ErasedIsLowered(t: Tree)
    ensures Built(Erase(t)) == Built(t) && NoMap(Erase(t)) == NoMap(t)
  {
    if t.Call? {
      forall i | 0 <= i < |t.args|
        ensures Built(Erase(t).args[i]) == Built(t.args[i]) && NoMap(Erase(t).args[i]) == NoMap(t.args[i])
      {
        ErasedIsLowered(t.args[i]);
      }
    }
  }

  lemma {:induction false} AllAreLowered(fragments: seq<Fragment>, x: Tree)
    requires forall i | 0 <= i < |fragments| :: Built(fragments[i].tree) && NoMap(fragments[i].tree)
    requires Erase(x) in AllShapes(fragments)
    ensures Built(x) && NoMap(x)
  {
    var n := |fragments| - 1;
    if Erase(x) in Subtrees(Erase(fragments[n].tree)) {
      ErasedIsLowered(fragments[n].tree);
      SubtreesAreLowered(Erase(fragments[n].tree), Erase(x));
      ErasedIsLowered(x);
    } else {
      AllAreLowered(fragments[..n], x);
    }
  }

  // What a register computes is lowered, if the fragments are.
  lemma {:induction false} RegistersAreLowered(fragments: seq<Fragment>, trees: seq<Tree>)
    requires forall i | 0 <= i < |fragments| :: Built(fragments[i].tree) && NoMap(fragments[i].tree)
    requires Shapes(trees) == AllShapes(fragments)
    ensures forall t | t in trees :: Built(t) && NoMap(t)
  {
    hide Built, NoMap, Erase, AllShapes;
    forall t | t in trees ensures Built(t) && NoMap(t) {
      assert Erase(t) in Shapes(trees);
      AllAreLowered(fragments, t);
    }
  }

  // The parts of what a register computes have registers too.
  lemma {:induction false} PartsAreSteps(out: seq<Step>, trees: seq<Tree>, i: nat, x: Tree)
    requires Program(out, trees) && i < |out| && x in Subtrees(trees[i])
    ensures x in trees
    decreases i, 0
  {
    var t := trees[i];
    if x != t {
      assert Compiled(trees, t, out[i].body, i);
      PartsOfAreSteps(out, trees, i, t.args, out[i].body.args, x);
    }
  }

  lemma {:induction false} PartsOfAreSteps(out: seq<Step>, trees: seq<Tree>, i: nat, ts: seq<Tree>, args: seq<Arg>,
                                           x: Tree)
    requires Program(out, trees) && i < |out| && |args| == |ts| && x in SubtreesOf(ts)
    requires forall j | 0 <= j < |ts| :: ArgIs(trees, ts[j], args[j], i)
    ensures x in trees
    decreases i, 0, |ts|
  {
    hide Program, Subtrees;
    var n := |ts| - 1;
    ProgramLength(out, trees);
    if x in Subtrees(ts[n]) {
      assert ArgIs(trees, ts[n], args[n], i);
      RawHasNoParts(ts[n], x);
      PartsAreSteps(out, trees, args[n].register, x);
    } else {
      PartsOfAreSteps(out, trees, i, ts[..n], args[..n], x);
    }
  }

  lemma {:induction false} RawHasNoParts(t: Tree, x: Tree)
    requires x in Subtrees(t)
    ensures !t.Raw?
  {
  }

  lemma {:induction false} ProgramLength(out: seq<Step>, trees: seq<Tree>)
    requires Program(out, trees)
    ensures |out| == |trees|
  {
  }

  lemma {:induction false} AllSubtreesContain(fragments: seq<Fragment>, i: nat)
    requires i < |fragments|
    ensures Subtrees(fragments[i].tree) <= AllSubtrees(fragments)
  {
    hide Subtrees;
    if i < |fragments| - 1 {
      AllSubtreesContain(fragments[..|fragments| - 1], i);
    }
  }

  lemma {:induction false} InSomeFragment(fragments: seq<Fragment>, x: Tree)
    requires x in AllSubtrees(fragments)
    ensures exists i | 0 <= i < |fragments| :: x in Subtrees(fragments[i].tree)
  {
    hide Subtrees;
    var n := |fragments| - 1;
    if x !in Subtrees(fragments[n].tree) {
      InSomeFragment(fragments[..n], x);
      var i :| 0 <= i < n && x in Subtrees(fragments[..n][i].tree);
      assert x in Subtrees(fragments[i].tree);
    }
  }

  // The constants of fragments and of registers all come from the fragments.
  lemma {:induction false} AllCovered(fragments: seq<Fragment>, x: Tree)
    requires x in AllSubtrees(fragments)
    ensures Covers(AllSubtrees(fragments), x)
  {
    hide AllSubtrees, Subtrees, HasConstant;
    InSomeFragment(fragments, x);
    var i :| 0 <= i < |fragments| && x in Subtrees(fragments[i].tree);
    forall c | HasConstant(x, c) ensures Const(c) in AllSubtrees(fragments) {
      SubtreeConstants(fragments[i].tree, x, c);
      ConstantsAreSubtrees(fragments[i].tree, c);
      AllSubtreesContain(fragments, i);
    }
  }

  lemma {:induction false} RegistersCovered(fragments: seq<Fragment>, out: seq<Step>, trees: seq<Tree>, r: nat)
    requires Program(out, trees) && Origin(fragments, out, trees) && r < |out|
    ensures Covers(AllSubtrees(fragments), trees[r])
  {
    hide Program, AllSubtrees, Subtrees, HasConstant, AllShapes, Erase;
    ProgramLength(out, trees);
    forall c | HasConstant(trees[r], c) ensures Const(c) in AllSubtrees(fragments) {
      ConstantsAreSubtrees(trees[r], c);
      PartsAreSteps(out, trees, r, Const(c));
      var j :| 0 <= j < |trees| && trees[j] == Const(c);
      assert FromSome(fragments, out[j], trees[j]);
      var i :| 0 <= i < |fragments| && From(fragments[i], AllShapes(fragments[..i]), out[j], trees[j]);
      AllSubtreesContain(fragments, i);
    }
  }

  lemma {:induction false} RootIsSubtree(t: Tree)
    requires !t.Raw?
    ensures t in Subtrees(t)
  {
  }

  // Without clashes a register computes its fragment's very tree.
  lemma {:induction false} RegisterIsTree(fragments: seq<Fragment>, registers: seq<nat>, out: seq<Step>,
                                          trees: seq<Tree>, i: nat)
    requires Program(out, trees) && Merged(fragments, registers, out, trees) && NoClash(AllSubtrees(fragments))
    requires i < |fragments| && !fragments[i].tree.Raw?
    ensures registers[i] < |out| && trees[registers[i]] == fragments[i].tree
  {
    hide Program, AllSubtrees, Covers, NoClash, Erase, Origin, Named, Subtrees;
    assert Placed(fragments[i], AllShapes(fragments[..i]), registers[i], out, trees);
    AllSubtreesContain(fragments, i);
    RootIsSubtree(fragments[i].tree);
    AllCovered(fragments, fragments[i].tree);
    RegistersCovered(fragments, out, trees, registers[i]);
    ErasedIsSame(AllSubtrees(fragments), trees[registers[i]], fragments[i].tree);
  }

  /** Without clashing constants an export is refused exactly when the feature occurs, even
      as a part, in an earlier one. */
  lemma {:induction false} LegalIsSubtree(fragments: seq<Fragment>, i: nat)
    requires i < |fragments| && NoClash(AllSubtrees(fragments)) && !fragments[i].tree.Raw?
    ensures Erase(fragments[i].tree) in AllShapes(fragments[..i]) <==> fragments[i].tree in AllSubtrees(fragments[..i])
  {
    hide AllSubtrees, NoClash, Covers, Erase, Subtrees, AllShapes;
    var t, before := fragments[i].tree, fragments[..i];
    AllShapesAre(before);
    if Erase(t) in AllShapes(before) {
      var x :| x in AllSubtrees(before) && Erase(x) == Erase(t);
      EarlierSubtrees(fragments, i);
      AllCovered(fragments, x);
      AllSubtreesContain(fragments, i);
      RootIsSubtree(t);
      AllCovered(fragments, t);
      ErasedIsSame(AllSubtrees(fragments), x, t);
    }
  }

  lemma {:induction false} AllShapesAre(fragments: seq<Fragment>)
    ensures AllShapes(fragments) == set x | x in AllSubtrees(fragments) :: Erase(x)
  {
    hide Erase, Subtrees;
    if fragments != [] {
      AllShapesAre(fragments[..|fragments| - 1]);
      ErasedSubtrees(fragments[|fragments| - 1].tree);
    }
  }

  lemma {:induction false} EarlierSubtrees(fragments: seq<Fragment>, i: nat)
    requires i <= |fragments|
    ensures AllSubtrees(fragments[..i]) <= AllSubtrees(fragments)
  {
    hide Subtrees;
    if i == |fragments| {
      assert fragments[..i] == fragments;
    } else {
      EarlierSubtrees(fragments[..|fragments| - 1], i);
      assert fragments[..|fragments| - 1][..i] == fragments[..i];
    }
  }

  // The specifications that were lowered to these fragments.
  ghost predicate LoweredTo(specs: seq<Tree>, fragments: seq<Fragment>) {
    |specs| == |fragments|
    && forall j | 0 <= j < |specs| :: Built(specs[j]) && fragments[j].tree == Lower(specs[j], None)
  }

  lemma {:induction false} FragmentsAreLowered(specs: seq<Tree>, fragments: seq<Fragment>)
    requires LoweredTo(specs, fragments)
    ensures forall j | 0 <= j < |fragments| :: Built(fragments[j].tree) && NoMap(fragments[j].tree)
  {
    hide Built, NoMap, Lower;
    forall j | 0 <= j < |specs| ensures Built(fragments[j].tree) && NoMap(fragments[j].tree) {
      LowerIsSubstitution(TERM, specs[j], None, Raw);
    }
  }

  // A register gets the value of the tree it computes.
  lemma {:induction false} RegisterValue<V>(m: Meaning<V>, specs: seq<Tree>, fragments: seq<Fragment>,
      registers: seq<nat>, out: seq<Step>, trees: seq<Tree>, input: V, i: nat)
    requires LoweredTo(specs, fragments) && Program(out, trees) && Merged(fragments, registers, out, trees)
    requires i < |specs| && !fragments[i].tree.Raw?
    ensures Upwards(out) && registers[i] < |out| == |trees| && trees[registers[i]] in trees
    ensures Built(trees[registers[i]]) && NoMap(trees[registers[i]])
    ensures Run(m, out, input)[registers[i]] == Eval(m, trees[registers[i]], input)
  {
    hide Lower, Named, Origin, AllShapes, Shapes, Built, NoMap, Run, Erase;
    FragmentsAreLowered(specs, fragments);
    ProgramIsUpwards(out, trees);
    RegistersAreLowered(fragments, trees);
    assert Placed(fragments[i], AllShapes(fragments[..i]), registers[i], out, trees);
    RunIsEval(m, out, trees, input, registers[i]);
  }

  /** The compiler is correct unless two constants clash: the register of every feature
      gets the value its specification, with map and apply, has for the input. */
  lemma {:induction false} CompilerPreservesMeaning<V>(m: Meaning<V>, specs: seq<Tree>, fragments: seq<Fragment>,
      registers: seq<nat>, out: seq<Step>, trees: seq<Tree>, input: V, i: nat)
    requires LoweredTo(specs, fragments) && Program(out, trees) && Merged(fragments, registers, out, trees)
    requires NoClash(AllSubtrees(fragments)) && i < |specs| && !fragments[i].tree.Raw?
    ensures Upwards(out) && registers[i] < |out| && Run(m, out, input)[registers[i]] == Eval(m, specs[i], input)
  {
    hide Lower, Merged, Program, AllSubtrees, NoClash, Built, NoMap, Run;
    RegisterValue(m, specs, fragments, registers, out, trees, input, i);
    RegisterIsTree(fragments, registers, out, trees, i);
    LowerIsSubstitution(m, specs[i], None, input);
  }

  /** The exact condition: every register computes its own feature if and only if no two
      constants of the specification print alike but differ in kind. */
  lemma {:induction false} CompilerIsFaithfulIff(specs: seq<Tree>, fragments: seq<Fragment>, registers: seq<nat>,
                                                 out: seq<Step>, trees: seq<Tree>)
    requires LoweredTo(specs, fragments) && Program(out, trees) && Merged(fragments, registers, out, trees)
    ensures Upwards(out) && forall i | 0 <= i < |specs| && !fragments[i].tree.Raw? :: registers[i] < |out|
    ensures (forall i | 0 <= i < |specs| && !fragments[i].tree.Raw? ::
               Run(TERM, out, Raw)[registers[i]] == Eval(TERM, specs[i], Raw))
            <==> NoClash(AllSubtrees(fragments))
  {
    hide Lower, Merged, Program, AllSubtrees, NoClash, Built, NoMap, Run, Eval, Subtrees;
    ProgramIsUpwards(out, trees);
    MergedLength(fragments, registers, out, trees);
    forall i | 0 <= i < |specs| && !fragments[i].tree.Raw?
      ensures registers[i] < |out| == |trees| && Run(TERM, out, Raw)[registers[i]] == trees[registers[i]]
      ensures Eval(TERM, specs[i], Raw) == fragments[i].tree
    {
      RegisterValue(TERM, specs, fragments, registers, out, trees, Raw, i);
      TermIsTree(trees[registers[i]]);
      LowerIsSubstitution(TERM, specs[i], None, Raw);
      TermIsTree(fragments[i].tree);
    }
    if NoClash(AllSubtrees(fragments)) {
      forall i | 0 <= i < |specs| && !fragments[i].tree.Raw? ensures trees[registers[i]] == fragments[i].tree {
        RegisterIsTree(fragments, registers, out, trees, i);
      }
    }
    if forall i | 0 <= i < |specs| && !fragments[i].tree.Raw? :: trees[registers[i]] == fragments[i].tree {
      OwnTreesDoNotClash(fragments, registers, out, trees);
    }
  }

  lemma {:induction false} MergedLength(fragments: seq<Fragment>, registers: seq<nat>, out: seq<Step>, trees: seq<Tree>)
    requires Merged(fragments, registers, out, trees)
    ensures |registers| == |fragments| && |out| == |trees|
  {
  }

  lemma {:induction false} OwnTreesDoNotClash(fragments: seq<Fragment>, registers: seq<nat>, out: seq<Step>,
                                              trees: seq<Tree>)
    requires Program(out, trees) && |registers| == |fragments|
    requires forall i | 0 <= i < |fragments| && !fragments[i].tree.Raw? ::
               registers[i] < |trees| && trees[registers[i]] == fragments[i].tree
    ensures NoClash(AllSubtrees(fragments))
  {
    hide AllSubtrees, Subtrees, Compiled;
    forall x | x in AllSubtrees(fragments) ensures x in trees {
      InSomeFragment(fragments, x);
      var i :| 0 <= i < |fragments| && x in Subtrees(fragments[i].tree);
      RawHasNoParts(fragments[i].tree, x);
      PartsAreSteps(out, trees, registers[i], x);
    }
    forall c, d | Const(c) in AllSubtrees(fragments) && Const(d) in AllSubtrees(fragments) && c.text == d.text
      ensures c == d
    {
      assert Erase(Const(c)) == Erase(Const(d));
      var i :| 0 <= i < |trees| && trees[i] == Const(c);
      var j :| 0 <= j < |trees| && trees[j] == Const(d);
    }
  }

  /** ---- 1 and 1.0 ---- */

  // f(1) and g(1.0)
  const F_ONE := Call("", "f", [Const(ONE)])
  const G_ONE := Call("", "g", [Const(ONE_POINT_ZERO)])
  const MIXED := [Fragment(0, F_ONE, Some("f"), false), Fragment(1, G_ONE, Some("g"), false)]

  // A feature that hands on its argument, and constants that show their kind.
  const KINDS: Meaning<string> :=
    Meaning((c: Constant) => c.kind, (ret, name, args) => if args == [] then "" else args[0])

  lemma {:induction false} OneRegister(trees: seq<Tree>, out: seq<Step>, i: nat, t: Tree)
    requires Program(out, trees) && i < |out| && t in [F_ONE, G_ONE] && Erase(trees[i]) == Erase(t)
    ensures out[i].body.CallBody? && |out[i].body.args| == 1 && out[i].body.args[0].Reg?
    ensures var r := out[i].body.args[0].register; r < |trees| && Erase(trees[r]) == Const(Constant("", "1"))
    ensures trees[i].Call? && trees[i].args == [trees[out[i].body.args[0].register]] && !IsMap(trees[i])
  {
    assert Compiled(trees, trees[i], out[i].body, i);
    assert Erase(trees[i]).args[0] == Erase(t).args[0] == Erase(t.args[0]);
    assert ArgIs(trees, trees[i].args[0], out[i].body.args[0], i);
  }

  /** Whatever the merge makes of f(1) and g(1.0), both take their argument from the same
      register, so that one of them gets a constant of the wrong kind. */
  lemma {:induction false} OneIsOnePointZero(registers: seq<nat>, out: seq<Step>, trees: seq<Tree>)
    requires Program(out, trees) && Merged(MIXED, registers, out, trees)
    ensures Upwards(out) && registers[0] < |out| && registers[1] < |out|
    ensures out[registers[0]].body.CallBody? && out[registers[1]].body.CallBody?
    ensures out[registers[0]].body.args == out[registers[1]].body.args
    ensures Run(KINDS, out, "")[registers[0]] == Run(KINDS, out, "")[registers[1]]
  {
    hide Run, Merged, Erase, Compiled;
    MixedIsPlaced(registers, out, trees);
    OneRegister(trees, out, registers[0], F_ONE);
    OneRegister(trees, out, registers[1], G_ONE);
    assert out[registers[0]].body.args == out[registers[1]].body.args;
    MixedIsLowered();
    RegisterValue(KINDS, [F_ONE, G_ONE], MIXED, registers, out, trees, "", 0);
    RegisterValue(KINDS, [F_ONE, G_ONE], MIXED, registers, out, trees, "", 1);
    assert trees[registers[0]].args == trees[registers[1]].args;
    HandsOn(trees[registers[0]]);
    HandsOn(trees[registers[1]]);
  }

  lemma {:induction false} KindsDiffer()
    ensures Built(F_ONE) && Built(G_ONE)
    ensures Eval(KINDS, F_ONE, "") == "int64" && Eval(KINDS, G_ONE, "") == "float64"
  {
    HandsOn(F_ONE);
    HandsOn(G_ONE);
  }

  lemma {:induction false} HandsOn(t: Tree)
    requires t.Call? && |t.args| == 1 && !IsMap(t) && Built(t)
    ensures Eval(KINDS, t, "") == Eval(KINDS, t.args[0], "")
  {
  }

  lemma {:induction false} MixedIsPlaced(registers: seq<nat>, out: seq<Step>, trees: seq<Tree>)
    requires Merged(MIXED, registers, out, trees)
    ensures |registers| == 2 && registers[0] < |out| && registers[1] < |out| == |trees|
    ensures Erase(trees[registers[0]]) == Erase(F_ONE) && Erase(trees[registers[1]]) == Erase(G_ONE)
  {
    hide Erase, Named, Origin, AllShapes, Shapes;
    assert Placed(MIXED[0], AllShapes(MIXED[..0]), registers[0], out, trees);
    assert Placed(MIXED[1], AllShapes(MIXED[..1]), registers[1], out, trees);
  }

  lemma {:induction false} MixedIsLowered()
    ensures LoweredTo([F_ONE, G_ONE], MIXED)
  {
    LowerKeeps(F_ONE);
    LowerKeeps(G_ONE);
  }

  /** Exporting both f(1) and f(1.0) is refused, although they are different features. */
  lemma {:induction false} ExportsClash()
    ensures var f := Call("", "f", [Const(ONE_POINT_ZERO)]);
            F_ONE != f && !Legal([Fragment(0, F_ONE, Some("a"), false), Fragment(1, f, Some("b"), false)])
  {
    var f := Call("", "f", [Const(ONE_POINT_ZERO)]);
    var fragments := [Fragment(0, F_ONE, Some("a"), false), Fragment(1, f, Some("b"), false)];
    assert F_ONE.args[0] != f.args[0];
    assert Erase(f).args == Erase(F_ONE).args;
    assert fragments[..1] == [fragments[0]] && [fragments[0]][..0] == [];
    RootIsSubtree(Erase(f));
    assert !LegalAt(fragments, 1);
  }

  // g of the packet, and f of that
  const G := Call("", "g", [Raw])
  const F_OF_G := Call("", "f", [G])

  lemma {:induction false} PartsAre()
    ensures Erase(G) == G && Subtrees(G) == {G}
    ensures Erase(F_OF_G) == F_OF_G && Subtrees(F_OF_G) == {F_OF_G, G}
  {
    assert [Raw][..0] == [] && [G][..0] == [];
    assert Erase(G).args == [Raw];
    assert SubtreesOf([Raw]) == SubtreesOf([Raw][..0]) + Subtrees(Raw);
    assert Erase(F_OF_G).args == [G];
    assert SubtreesOf([G]) == SubtreesOf([G][..0]) + Subtrees(G);
  }

  /** Two different features are refused as exported twice: g was a part of the first one.
      The other way round they are accepted. */
  lemma {:induction false} PartsAreRefused()
    ensures G != F_OF_G && NoClash(Subtrees(F_OF_G))
    ensures !Legal([Fragment(0, F_OF_G, Some("fg"), false), Fragment(1, G, Some("g"), false)])
    ensures Legal([Fragment(0, G, Some("g"), false), Fragment(1, F_OF_G, Some("fg"), false)])
  {
    hide Erase, Subtrees;
    PartsAre();
    assert G.name != F_OF_G.name;
    forall fragments: seq<Fragment> | |fragments| == 2
      ensures AllShapes(fragments[..0]) == {} && AllShapes(fragments[..1]) == Subtrees(Erase(fragments[0].tree))
    {
      assert fragments[..1][..0] == [];
    }
    assert !LegalAt([Fragment(0, F_OF_G, Some("fg"), false), Fragment(1, G, Some("g"), false)], 1);
  }
}
