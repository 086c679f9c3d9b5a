/** Feature specifications as trees: their printed text, which the compiler takes for
    their identity, and the lowering of map and apply. */
module FeatureTree {
  import opened Wrappers

  // A constant and the text it prints with %v.
  datatype Constant = Constant(kind: string, text: string)

  // ret is the printed return type, empty if there is none yet.
  datatype Tree = Raw | Const(value: Constant) | Call(ret: string, name: string, args: seq<Tree>)

  predicate IsMap(t: Tree) {
    t.Call? && (t.name == "map" || t.name == "apply")
  }

  // map and apply have two arguments.
  predicate Built(t: Tree) {
    t.Call? ==>
      (IsMap(t) ==> |t.args| == 2) && forall i | 0 <= i < |t.args| :: Built(t.args[i])
  }

  predicate NoMap(t: Tree) {
    t.Call? ==> !IsMap(t) && forall i | 0 <= i < |t.args| :: NoMap(t.args[i])
  }

  /** ---- meaning ---- */

  // Any deterministic reading of constants and calls.
  datatype Meaning<!V> = Meaning(constant: Constant -> V, call: (string, string, seq<V>) -> V)

  /** The value of a tree for a packet or selection: the first argument of map and apply
      sees the value of the second. */
  function Eval<V>(m: Meaning<V>, t: Tree, input: V): V
    requires Built(t)
    decreases t
  {
    match t
    case Raw => input
    case Const(c) => m.constant(c)
    case Call(ret, name, args) =>
      if IsMap(t) then Eval(m, args[0], Eval(m, args[1], input))
      else m.call(ret, name, seq(|args|, i requires 0 <= i < |args| => Eval(m, args[i], input)))
  }

  /** ---- lowering ---- */

  function Lower(t: Tree, replacement: Option<Tree>): Tree
    requires Built(t)
    decreases t
  {
    if t.Raw? && replacement.Some? then replacement.value
    else if !t.Call? then t
    else if IsMap(t) then
      var selection := Lower(t.args[1], replacement);
      Lower(t.args[0], Some(selection))
    else
      Call(t.ret, t.name, seq(|t.args|, i requires 0 <= i < |t.args| => Lower(t.args[i], replacement)))
  }

  // What the raw packet stands for.
  function Source<V>(m: Meaning<V>, replacement: Option<Tree>, input: V): V
    requires replacement.Some? ==> Built(replacement.value)
  {
    if replacement.Some? then Eval(m, replacement.value, input) else input
  }

  /** Lowering is substitution: the lowered tree has no map or apply, and its value is
      the value of the tree on the value of the replacement. */
  lemma {:induction false} LowerIsSubstitution<V>(m: Meaning<V>, t: Tree, r: Option<Tree>, input: V)
    requires Built(t) && (r.Some? ==> Built(r.value) && NoMap(r.value))
    ensures NoMap(Lower(t, r)) && Built(Lower(t, r))
    ensures Eval(m, Lower(t, r), input) == Eval(m, t, Source(m, r, input))
    decreases t
  {
    if t.Call? {
      if IsMap(t) {
        var selection := Lower(t.args[1], r);
        LowerIsSubstitution(m, t.args[1], r, input);
        LowerIsSubstitution(m, t.args[0], Some(selection), input);
      } else {
        var low := Lower(t, r);
        forall i | 0 <= i < |t.args|
          ensures NoMap(low.args[i]) && Built(low.args[i])
          ensures Eval(m, low.args[i], input) == Eval(m, t.args[i], Source(m, r, input))
        {
          LowerIsSubstitution(m, t.args[i], r, input);
        }
        assert !IsMap(low);
        assert seq(|low.args|, i requires 0 <= i < |low.args| => Eval(m, low.args[i], input))
            == seq(|t.args|, i requires 0 <= i < |t.args| => Eval(m, t.args[i], Source(m, r, input)));
      }
    }
  }

  /** A tree without map and apply stays as it is. */
  lemma {:induction false} LowerKeeps(t: Tree)
    requires Built(t) && NoMap(t)
    ensures Lower(t, None) == t
    decreases t
  {
    if t.Call? {
      forall i | 0 <= i < |t.args| ensures Lower(t.args[i], None) == t.args[i] {
        LowerKeeps(t.args[i]);
      }
    }
  }

  // The free reading: a value is the term that denotes it.
  const TERM: Meaning<Tree> := Meaning((c: Constant) => Const(c), (ret, name, args) => Call(ret, name, args))

  lemma {:induction false} TermIsTree(t: Tree)
    requires Built(t) && NoMap(t)
    ensures Eval(TERM, t, Raw) == t
    decreases t
  {
    if t.Call? {
      forall i | 0 <= i < |t.args| ensures Eval(TERM, t.args[i], Raw) == t.args[i] {
        TermIsTree(t.args[i]);
      }
      assert seq(|t.args|, i requires 0 <= i < |t.args| => Eval(TERM, t.args[i], Raw)) == t.args;
    }
  }

  /** Lowering is done after one pass. */
  lemma {:induction false} LowerTwice(t: Tree, r: Option<Tree>)
    requires Built(t) && (r.Some? ==> Built(r.value) && NoMap(r.value))
    ensures Built(Lower(t, r)) && Lower(Lower(t, r), None) == Lower(t, r)
  {
    LowerIsSubstitution(TERM, t, r, Raw);
    LowerKeeps(Lower(t, r));
  }

  /** ---- printed text ---- */

  function Text(t: Tree): string {
    match t
    case Raw => "RawPacket"
    case Const(c) => "<Const>" + c.text
    case Call(ret, name, args) =>
      Head(ret, name) + "(" + Join(seq(|args|, i requires 0 <= i < |args| => Text(args[i]))) + ")"
  }

  function Head(ret: string, name: string): string {
    (if ret == "" then "" else "<" + ret + ">") + name
  }

  function Join(parts: seq<string>): string {
    if parts == [] then ""
    else if |parts| == 1 then parts[0]
    else parts[0] + ", " + Join(parts[1..])
  }

  function Texts(args: seq<Tree>): (r: seq<string>)
    ensures |r| == |args|
  {
    seq(|args|, i requires 0 <= i < |args| => Text(args[i]))
  }

  /** The printed form, by example. */
  lemma {:induction false} TextExample()
    ensures Text(Call("i", "g", [Const(Constant("int64", "1"))])) == "<i>g(<Const>1)"
    ensures Join(["a", "b"]) == "a, b" && Text(Raw) == "RawPacket"
  {
    var one := Const(Constant("int64", "1"));
    assert Texts([one]) == [Text(one)] && Join([Text(one)]) == Text(one);
    assert ["a", "b"][1..] == ["b"];
    assert Text(Call("i", "g", [one])) == Head("i", "g") + "(" + Join(Texts([one])) + ")";
  }

  // What the text shows: everything but whether 1 is an integer.
  function Erase(t: Tree): (r: Tree)
    ensures r.Raw? == t.Raw? && r.Const? == t.Const? && r.Call? == t.Call?
    ensures t.Call? ==> |r.args| == |t.args|
  {
    match t
    case Raw => Raw
    case Const(c) => Const(Constant("", c.text))
    case Call(ret, name, args) =>
      Call(ret, name, seq(|args|, i requires 0 <= i < |args| => Erase(args[i])))
  }

  lemma {:induction false} ErasedText(t: Tree)
    ensures Text(Erase(t)) == Text(t)
  {
    if t.Call? {
      forall i | 0 <= i < |t.args| ensures Text(Erase(t).args[i]) == Text(t.args[i]) {
        ErasedText(t.args[i]);
      }
      assert seq(|t.args|, i requires 0 <= i < |t.args| => Text(Erase(t).args[i]))
          == seq(|t.args|, i requires 0 <= i < |t.args| => Text(t.args[i]));
    }
  }

  /** ---- when the text identifies the tree ---- */

  predicate Delimiter(c: char) {
    c == '(' || c == ')' || c == ',' || c == '<' || c == '>'
  }

  predicate Plain(s: string) {
    forall i | 0 <= i < |s| :: !Delimiter(s[i])
  }

  // Names and constants without delimiters.
  predicate Readable(t: Tree) {
    match t
    case Raw => true
    case Const(c) => Plain(c.text)
    case Call(ret, name, args) =>
      Plain(ret) && Plain(name) && forall i | 0 <= i < |args| :: Readable(args[i])
  }

  // What follows a tree: nothing, or the next delimiter of a list.
  predicate EndsHere(rest: string) {
    rest == "" || rest[0] == ',' || rest[0] == ')'
  }

  predicate Stops(c: char) {
    c == '(' || c == ')' || c == ','
  }

  predicate Runs(s: string) {
    forall i | 0 <= i < |s| :: !Stops(s[i])
  }

  // Two texts that start alike have the same first word.
  lemma {:induction false} SameWord(a: string, b: string, ra: string, rb: string)
    requires Runs(a) && Runs(b) && a + ra == b + rb
    requires (ra == "" || Stops(ra[0])) && (rb == "" || Stops(rb[0]))
    ensures a == b && ra == rb
  {
    var all := a + ra;
    assert forall i | 0 <= i < |a| :: all[i] == a[i];
    assert forall i | 0 <= i < |b| :: all[i] == b[i];
    assert ra != "" ==> all[|a|] == ra[0];
    assert rb != "" ==> all[|b|] == rb[0];
    assert |a| == |b|;
    assert a == all[..|a|] == b;
    assert ra == all[|a|..] == rb;
  }

  // The first word of a tree's text, and what follows it.
  function Word(t: Tree): string {
    match t
    case Raw => "RawPacket"
    case Const(c) => "<Const>" + c.text
    case Call(ret, name, args) => Head(ret, name)
  }

  function After(t: Tree): string {
    if t.Call? then "(" + Join(Texts(t.args)) + ")" else ""
  }

  lemma {:induction false} TextIs(t: Tree, rest: string)
    ensures Text(t) + rest == Word(t) + (After(t) + rest)
  {
    if t.Call? {
      assert Text(t) == Head(t.ret, t.name) + "(" + Join(Texts(t.args)) + ")";
    }
  }

  lemma {:induction false} WordRuns(t: Tree)
    requires Readable(t)
    ensures Runs(Word(t))
  {
  }

  lemma {:induction false} SameHead(ret1: string, name1: string, ret2: string, name2: string)
    requires Plain(ret1) && Plain(name1) && Plain(ret2) && Plain(name2)
    requires Head(ret1, name1) == Head(ret2, name2)
    ensures ret1 == ret2 && name1 == name2
  {
    var h := Head(ret1, name1);
    assert ret1 == "" ==> h == name1;
    assert ret2 == "" ==> h == name2;
    assert ret1 != "" ==> h[0] == '<' && Delimiter(h[0]);
    assert ret2 != "" ==> h[0] == '<' && Delimiter(h[0]);
    assert ret1 == "" <==> ret2 == "";
    if ret1 != "" {
      assert forall i | 0 <= i < |ret1| :: h[1 + i] == ret1[i];
      assert forall i | 0 <= i < |ret2| :: h[1 + i] == ret2[i];
      assert h[1 + |ret1|] == '>' && h[1 + |ret2|] == '>';
      assert |ret1| == |ret2|;
      assert ret1 == h[1..1 + |ret1|] == ret2;
      assert name1 == h[2 + |ret1|..] == name2;
    }
  }

  /** Printing is unambiguous but for the kinds of constants: whatever follows, the text
      determines the rest of the tree. */
  lemma {:induction false} TextIdentifies(t1: Tree, t2: Tree, r1: string, r2: string)
    requires Readable(t1) && Readable(t2) && EndsHere(r1) && EndsHere(r2)
    requires Text(t1) + r1 == Text(t2) + r2
    ensures Erase(t1) == Erase(t2) && r1 == r2
    decreases t1, 1
  {
    hide Text, Word, After, Readable;
    TextIs(t1, r1);
    TextIs(t2, r2);
    WordRuns(t1);
    WordRuns(t2);
    AfterStops(t1, r1);
    AfterStops(t2, r2);
    SameWord(Word(t1), Word(t2), After(t1) + r1, After(t2) + r2);
    if t1.Call? {
      CallsIdentify(t1, t2, r1, r2);
    } else {
      SameLeaf(t1, t2);
    }
  }

  // A bracket follows the first word of a call, and of nothing else.
  lemma {:induction false} AfterStops(t: Tree, rest: string)
    requires EndsHere(rest)
    ensures var s := After(t) + rest;
            (s == "" || Stops(s[0])) && (t.Call? <==> s != "" && s[0] == '(') && (!t.Call? ==> s == rest)
  {
  }

  lemma {:induction false} CallsIdentify(t1: Tree, t2: Tree, r1: string, r2: string)
    requires t1.Call? && t2.Call? && Readable(t1) && Readable(t2)
    requires Word(t1) == Word(t2) && After(t1) + r1 == After(t2) + r2
    ensures Erase(t1) == Erase(t2) && r1 == r2
    decreases t1, 0
  {
    hide Text, Head, Join, Texts, Erase, After;
    SameHead(t1.ret, t1.name, t2.ret, t2.name);
    var s1, s2 := Join(Texts(t1.args)) + (")" + r1), Join(Texts(t2.args)) + (")" + r2);
    AfterIs(t1, r1);
    AfterIs(t2, r2);
    assert s1 == (After(t1) + r1)[1..] == s2;
    ArgsIdentify(t1, t1.args, t2.args, r1, r2);
    SameCall(t1, t2);
  }

  lemma {:induction false} AfterIs(t: Tree, r: string)
    requires t.Call?
    ensures After(t) + r == "(" + (Join(Texts(t.args)) + (")" + r))
  {
    hide Join, Texts;
  }

  lemma {:induction false} SameCall(t1: Tree, t2: Tree)
    requires t1.Call? && t2.Call? && t1.ret == t2.ret && t1.name == t2.name && |t1.args| == |t2.args|
    requires forall i | 0 <= i < |t1.args| :: Erase(t1.args[i]) == Erase(t2.args[i])
    ensures Erase(t1) == Erase(t2)
  {
    assert Erase(t1).args == Erase(t2).args;
  }

  lemma {:induction false} SameLeaf(t1: Tree, t2: Tree)
    requires !t1.Call? && !t2.Call? && Word(t1) == Word(t2) && Readable(t1) && Readable(t2)
    ensures Erase(t1) == Erase(t2)
  {
    assert Word(t1)[0] == Word(t2)[0];
    if t1.Const? {
      assert t1.value.text == Word(t1)[7..] == t2.value.text;
    }
  }

  // What follows the first argument.
  function Rest(a: seq<Tree>, r: string): string
    requires a != []
  {
    if |a| == 1 then ")" + r else ", " + (Join(Texts(a[1..])) + (")" + r))
  }

  lemma {:induction false} RestIs(a: seq<Tree>, r: string)
    requires a != []
    ensures EndsHere(Rest(a, r)) && (Rest(a, r)[0] == ')' <==> |a| == 1)
  {
  }

  lemma {:induction false} SameRest(a: seq<Tree>, b: seq<Tree>, r1: string, r2: string)
    requires a != [] && b != [] && Rest(a, r1) == Rest(b, r2)
    ensures |a| == 1 <==> |b| == 1
    ensures if |a| == 1 then r1 == r2 else Join(Texts(a[1..])) + (")" + r1) == Join(Texts(b[1..])) + (")" + r2)
  {
    hide Join, Texts;
    RestIs(a, r1);
    RestIs(b, r2);
    var s := Rest(a, r1);
    if |a| == 1 {
      assert r1 == s[1..] == r2;
    } else {
      assert Join(Texts(a[1..])) + (")" + r1) == s[2..] == Join(Texts(b[1..])) + (")" + r2);
    }
  }

  // A list of arguments does not start with its closing bracket.
  lemma {:induction false} FirstOfArgs(a: seq<Tree>, r: string)
    requires forall i | 0 <= i < |a| :: Readable(a[i])
    ensures var s := Join(Texts(a)) + (")" + r);
            if a == [] then s == ")" + r && s[0] == ')' else s == Text(a[0]) + Rest(a, r) && s[0] != ')'
  {
    hide Text, Readable;
    if a != [] {
      JoinFirst(a, r);
      TextIs(a[0], Rest(a, r));
      WordRuns(a[0]);
      TextStarts(a[0]);
    }
  }

  lemma {:induction false} ArgsIdentify(t: Tree, a: seq<Tree>, b: seq<Tree>, r1: string, r2: string)
    requires forall i | 0 <= i < |a| :: a[i] < t && Readable(a[i])
    requires forall i | 0 <= i < |b| :: Readable(b[i])
    requires Join(Texts(a)) + (")" + r1) == Join(Texts(b)) + (")" + r2)
    ensures |a| == |b| && r1 == r2
    ensures forall i | 0 <= i < |a| :: Erase(a[i]) == Erase(b[i])
    decreases t, 0, |a|
  {
    hide Text, Readable, Join, Texts, Erase, Rest, EndsHere;
    FirstOfArgs(a, r1);
    FirstOfArgs(b, r2);
    if a == [] {
      var s := Join(Texts(a)) + (")" + r1);
      assert r1 == s[1..] == r2;
    } else {
      RestIs(a, r1);
      RestIs(b, r2);
      TextIdentifies(a[0], b[0], Rest(a, r1), Rest(b, r2));
      SameRest(a, b, r1, r2);
      if |a| > 1 {
        ArgsIdentify(t, a[1..], b[1..], r1, r2);
        assert forall i | 0 < i < |a| :: a[i] == a[1..][i - 1] && b[i] == b[1..][i - 1];
      }
    }
  }

  lemma {:induction false} TextStarts(t: Tree)
    ensures Text(t) != "" && (Word(t) != "" ==> Text(t)[0] == Word(t)[0]) && (Word(t) == "" ==> Text(t)[0] == '(')
  {
    TextIs(t, "");
    assert Text(t) + "" == Text(t) && After(t) + "" == After(t);
  }

  lemma {:induction false} JoinFirst(a: seq<Tree>, r: string)
    requires a != []
    ensures Join(Texts(a)) + (")" + r) == Text(a[0]) + Rest(a, r)
  {
    hide Text;
    assert Texts(a)[1..] == Texts(a[1..]);
  }

  /** Two readable trees print alike exactly when they differ in kinds of constants only. */
  lemma {:induction false} TextIsErased(t1: Tree, t2: Tree)
    requires Readable(t1) && Readable(t2)
    ensures Text(t1) == Text(t2) <==> Erase(t1) == Erase(t2)
  {
    hide Text, Erase, Readable;
    if Text(t1) == Text(t2) {
      assert Text(t1) + "" == Text(t2) + "";
      TextIdentifies(t1, t2, "", "");
    } else {
      ErasedText(t1);
      ErasedText(t2);
    }
  }

  /** ---- kinds of constants ---- */

  ghost predicate HasConstant(t: Tree, c: Constant) {
    match t
    case Raw => false
    case Const(d) => c == d
    case Call(_, _, args) => exists i | 0 <= i < |args| :: HasConstant(args[i], c)
  }

  // No two constants print alike but differ in kind.
  ghost predicate NoClash(ts: set<Tree>) {
    forall c, d | Const(c) in ts && Const(d) in ts && c.text == d.text :: c == d
  }

  // The constants of a tree are members of the set themselves.
  ghost predicate Covers(ts: set<Tree>, t: Tree) {
    forall c | HasConstant(t, c) :: Const(c) in ts
  }

  lemma {:induction false} ErasedIsSame(ts: set<Tree>, a: Tree, b: Tree)
    requires NoClash(ts) && Covers(ts, a) && Covers(ts, b) && Erase(a) == Erase(b)
    ensures a == b
    decreases a
  {
    hide NoClash;
    match a {
      case Raw =>
      case Const(c) =>
        assert HasConstant(a, c) && HasConstant(b, b.value) && c.text == Erase(a).value.text == b.value.text;
        NoClashIs(ts, c, b.value);
      case Call(ret, name, args) =>
        forall i | 0 <= i < |args| ensures args[i] == b.args[i] {
          assert Erase(a).args[i] == Erase(args[i]) && Erase(b).args[i] == Erase(b.args[i]);
          assert forall c :: HasConstant(args[i], c) ==> HasConstant(a, c);
          assert forall c :: HasConstant(b.args[i], c) ==> HasConstant(b, c);
          ErasedIsSame(ts, args[i], b.args[i]);
        }
        assert args == b.args;
    }
  }

  lemma {:induction false} NoClashIs(ts: set<Tree>, c: Constant, d: Constant)
    requires NoClash(ts) && Const(c) in ts && Const(d) in ts && c.text == d.text
    ensures c == d
  {
  }

  /** Among trees that come with their constants, the text identifies a tree if and only if
      no two constants print alike but differ in kind. */
  lemma {:induction false} TextIsIdentityIff(ts: set<Tree>)
    requires forall t | t in ts :: Readable(t) && Covers(ts, t)
    ensures (forall a, b | a in ts && b in ts && Text(a) == Text(b) :: a == b) <==> NoClash(ts)
  {
    hide Readable, Erase, Covers;
    if NoClash(ts) {
      forall a, b | a in ts && b in ts && Text(a) == Text(b) ensures a == b {
        TextIsErased(a, b);
        ErasedIsSame(ts, a, b);
      }
    } else {
      var c, d :| Const(c) in ts && Const(d) in ts && c.text == d.text && c != d;
      assert Text(Const(c)) == Text(Const(d)) && Const(c) != Const(d);
    }
  }

  /** The parser reads 1 as an integer and 1.0 as a floating-point number; both print "1". */
  const ONE := Constant("int64", "1")
  const ONE_POINT_ZERO := Constant("float64", "1")

  lemma {:induction false} ConstantsClash()
    ensures Text(Const(ONE)) == Text(Const(ONE_POINT_ZERO)) && Const(ONE) != Const(ONE_POINT_ZERO)
    ensures !NoClash({Const(ONE), Const(ONE_POINT_ZERO)})
  {
    assert ONE != ONE_POINT_ZERO && Const(ONE) in {Const(ONE), Const(ONE_POINT_ZERO)};
  }

  /** Lowering adds no text: readable specifications stay readable. */
  lemma {:induction false} LowerKeepsReadable(t: Tree, r: Option<Tree>)
    requires Built(t) && Readable(t) && (r.Some? ==> Readable(r.value))
    ensures Readable(Lower(t, r))
    decreases t
  {
    if t.Call? {
      if IsMap(t) {
        LowerKeepsReadable(t.args[1], r);
        LowerKeepsReadable(t.args[0], Some(Lower(t.args[1], r)));
      } else {
        forall i | 0 <= i < |t.args| ensures Readable(Lower(t, r).args[i]) {
          LowerKeepsReadable(t.args[i], r);
        }
      }
    }
  }
}
