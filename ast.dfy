/** The surface syntax tree (`hanno/asts/base.py`). Spans are not kept: no
    equality rule of the tree looks at them. */
module Ast {
  import opened Wrappers
  import opened Errors

  /** A scalar: Python's bool, int, float (kept as its literal text) or str. */
  datatype Value = BoolValue(flag: bool) | IntValue(number: int) | FloatValue(literal: string) | StrValue(text: string)

  datatype Pattern =
    | FreeName(name: string)
    | ListPattern(initials: seq<Pattern>, rest: Option<string>)
    | PairPattern(first: Pattern, second: Pattern)
    | PinnedName(name: string)
    | ScalarPattern(value: Value)
    | UnitPattern

  /** One arm of a match: a pattern and the expression it leads to. */
  datatype Arm = Arm(pattern: Pattern, body: Node)

  datatype Node =
    | Apply(func: Node, arg: Node)
    | Block(exprs: seq<Node>)
    | Cond(pred: Node, cons: Node, elseBranch: Node)
    | Define(target: Pattern, value: Node)
    | Function(param: Pattern, body: Node)
    | List(elements: seq<Node>)
    | Match(subject: Node, cases: seq<Arm>)
    | Name(name: string)
    | Pair(first: Node, second: Node)
    | Scalar(scalar: Value)
    | Unit

  /** `Block.__init__`: a block needs at least one expression. */
  function NewBlock(body: seq<Node>): (r: Result<Node, CompilerError>)
    ensures r.Err? <==> body == []
    ensures r.Err? ==> r.error == ValueError
    ensures r.Ok? ==> r.value.Block? && r.value.exprs == body
  {
    if body == [] then Err(ValueError) else Ok(Block(body))
  }

  /** `Name.__init__`: a name needs a string value. */
  function NewName(value: Option<string>): (r: Result<Node, CompilerError>)
    ensures r.Err? <==> value.None?
    ensures r.Err? ==> r.error == TypeError
    ensures r.Ok? ==> r.value == Name(value.value)
  {
    match value
    case None => Err(TypeError)
    case Some(text) => Ok(Name(text))
  }

  /** Python's `==` on scalar values: `True == 1` and `False == 0`. */
  function ValueEq(a: Value, b: Value): bool {
    match (a, b)
    case (BoolValue(x), BoolValue(y)) => x == y
    case (IntValue(x), IntValue(y)) => x == y
    case (BoolValue(x), IntValue(y)) => (if x then 1 else 0) == y
    case (IntValue(x), BoolValue(y)) => x == (if y then 1 else 0)
    case (FloatValue(x), FloatValue(y)) => x == y
    case (StrValue(x), StrValue(y)) => x == y
    case _ => false
  }

  /** `==` on patterns. Each pattern class answers only for its own class and
      a unit pattern answers False for any other, so patterns of different
      classes are never equal. A list pattern ignores its `rest`. */
  function PatternEq(p: Pattern, q: Pattern): bool {
    match p
    case FreeName(v) => q.FreeName? && v == q.name
    case ListPattern(initials, _) => q.ListPattern? && PatternsEq(initials, q.initials)
    case PairPattern(first, second) => q.PairPattern? && PatternEq(first, q.first) && PatternEq(second, q.second)
    case PinnedName(v) => q.PinnedName? && v == q.name
    case ScalarPattern(v) => q.ScalarPattern? && ValueEq(v, q.value)
    case UnitPattern => q.UnitPattern?
  }

  /** Python list equality: equal lengths and equal elements. */
  function PatternsEq(ps: seq<Pattern>, qs: seq<Pattern>): bool {
    |ps| == |qs| && (ps == [] || (PatternEq(ps[0], qs[0]) && PatternsEq(ps[1..], qs[1..])))
  }

  /** The height of a tree, used to show that `==` terminates. */
  function Depth(n: Node): nat {
    match n
    case Apply(func, arg) => 1 + Max(Depth(func), Depth(arg))
    case Block(body) => 1 + DepthAll(body)
    case Cond(pred, cons, elseBranch) => 1 + Max(Depth(pred), Max(Depth(cons), Depth(elseBranch)))
    case Define(_, value) => 1 + Depth(value)
    case Function(_, body) => 1 + Depth(body)
    case List(elements) => 1 + DepthAll(elements)
    case Match(subject, cases) => 1 + Max(Depth(subject), DepthArms(cases))
    case Pair(first, second) => 1 + Max(Depth(first), Depth(second))
    case _ => 1
  }

  function DepthAll(nodes: seq<Node>): (d: nat)
    ensures nodes != [] ==> Depth(nodes[0]) <= d && DepthAll(nodes[1..]) <= d
  {
    if nodes == [] then 0 else Max(Depth(nodes[0]), DepthAll(nodes[1..]))
  }

  function DepthArms(arms: seq<Arm>): (d: nat)
    ensures arms != [] ==> DepthArm(arms[0]) <= d && DepthArms(arms[1..]) <= d
  {
    if arms == [] then 0
    else Max(DepthArm(arms[0]), DepthArms(arms[1..]))
  }

  function DepthArm(arm: Arm): nat {
    Depth(arm.body)
  }

  function Max(a: nat, b: nat): nat { if a < b then b else a }

  /** Every node of a sequence is no higher than the sequence. */
  lemma {:induction false} DepthAllBounds(nodes: seq<Node>, i: nat)
    requires i < |nodes|
    ensures Depth(nodes[i]) <= DepthAll(nodes)
    decreases i
  {
    var rest := nodes[1..];
    assert DepthAll(nodes) == Max(Depth(nodes[0]), DepthAll(rest));
    if i > 0 {
      DepthAllBounds(rest, i - 1);
      assert nodes[i] == rest[i - 1];
    }
  }

  /** Every arm's body is no higher than the arms. */
  lemma {:induction false} DepthArmsBounds(arms: seq<Arm>, i: nat)
    requires i < |arms|
    ensures Depth(arms[i].body) <= DepthArms(arms)
    decreases i
  {
    if i > 0 {
      DepthArmsBounds(arms[1..], i - 1);
      assert arms[i] == arms[1..][i - 1];
    } else {
      assert DepthArm(arms[0]) == Depth(arms[0].body);
    }
  }

  /** What `a.__eq__(b)` answers: a boolean, or None for NotImplemented. Blocks,
      lists and matches compare their children pairwise with `zip`, so only the
      common prefix counts; a one-element block also compares its element with
      a node of any other class. */
  function OwnEq(a: Node, b: Node): Option<bool>
    decreases Depth(a) + Depth(b), 1, 0
  {
    match a
    case Apply(func, arg) => if b.Apply? then Some(Eq(func, b.func) && Eq(arg, b.arg)) else None
    case Block(body) =>
      if b.Block? then Some(ZipEq(body, b.exprs))
      else if |body| == 1 then Some(Eq(body[0], b))
      else None
    case Cond(pred, cons, elseBranch) =>
      if b.Cond? then Some(Eq(pred, b.pred) && Eq(cons, b.cons) && Eq(elseBranch, b.elseBranch)) else None
    case Define(target, value) => if b.Define? then Some(PatternEq(target, b.target) && Eq(value, b.value)) else None
    case Function(param, body) => if b.Function? then Some(PatternEq(param, b.param) && Eq(body, b.body)) else None
    case List(elements) => if b.List? then Some(ZipEq(elements, b.elements)) else None
    case Match(subject, cases) => Some(b.Match? && Eq(subject, b.subject) && ZipArms(cases, b.cases))
    case Name(v) => if b.Name? then Some(v == b.name) else None
    case Pair(first, second) => if b.Pair? then Some(Eq(first, b.first) && Eq(second, b.second)) else None
    case Scalar(v) => if b.Scalar? then Some(ValueEq(v, b.scalar)) else None
    case Unit => Some(b.Unit?)
  }

  /** Python's `a == b` on nodes: `a.__eq__(b)`, then the reflected
      `b.__eq__(a)`, then identity, which distinct nodes fail. */
  function Eq(a: Node, b: Node): bool
    decreases Depth(a) + Depth(b), 2, 0
  {
    match OwnEq(a, b)
    case Some(answer) => answer
    case None =>
      match OwnEq(b, a)
      case Some(answer) => answer
      case None => false
  }

  /** `all(x == y for x, y in zip(xs, ys))`. */
  function ZipEq(xs: seq<Node>, ys: seq<Node>): bool
    decreases DepthAll(xs) + DepthAll(ys), 3, |xs|
  {
    xs == [] || ys == [] || (Eq(xs[0], ys[0]) && ZipEq(xs[1..], ys[1..]))
  }

  /** The same over match arms, each compared as a (pattern, node) tuple. */
  function ZipArms(xs: seq<Arm>, ys: seq<Arm>): bool
    decreases DepthArms(xs) + DepthArms(ys), 3, |xs|
  {
    xs == [] || ys == []
    || (PatternEq(xs[0].pattern, ys[0].pattern) && Eq(xs[0].body, ys[0].body) && ZipArms(xs[1..], ys[1..]))
  }

  lemma {:induction false} ValueEqReflexive(v: Value)
    ensures ValueEq(v, v)
  {
    match v
    case BoolValue(_) =>
    case IntValue(_) =>
    case FloatValue(_) =>
    case StrValue(_) =>
  }

  lemma {:induction false} PatternEqReflexive(p: Pattern)
    ensures PatternEq(p, p)
  {
    match p
    case ListPattern(initials, _) => PatternsEqReflexive(initials);
    case PairPattern(first, second) =>
      PatternEqReflexive(first);
      PatternEqReflexive(second);
    case ScalarPattern(v) => ValueEqReflexive(v);
    case _ =>
  }

  lemma {:induction false} PatternsEqReflexive(ps: seq<Pattern>)
    ensures PatternsEq(ps, ps)
  {
    if ps != [] {
      PatternEqReflexive(ps[0]);
      PatternsEqReflexive(ps[1..]);
    }
  }

  /** Every node equals itself. */
  lemma {:induction false} EqReflexive(a: Node)
    ensures Eq(a, a)
    decreases Depth(a), 0
  {
    match a
    case Apply(func, arg) =>
      EqReflexive(func);
      EqReflexive(arg);
    case Block(body) => ZipEqReflexive(body);
    case Cond(pred, cons, elseBranch) =>
      EqReflexive(pred);
      EqReflexive(cons);
      EqReflexive(elseBranch);
    case Define(target, value) =>
      PatternEqReflexive(target);
      EqReflexive(value);
    case Function(param, body) =>
      PatternEqReflexive(param);
      EqReflexive(body);
    case List(elements) => ZipEqReflexive(elements);
    case Match(subject, cases) =>
      EqReflexive(subject);
      ZipArmsReflexive(cases);
    case Pair(first, second) =>
      EqReflexive(first);
      EqReflexive(second);
    case Scalar(v) => ValueEqReflexive(v);
    case _ =>
  }

  lemma {:induction false} ZipEqReflexive(xs: seq<Node>)
    ensures ZipEq(xs, xs)
    decreases DepthAll(xs), 1, |xs|
  {
    if xs != [] {
      EqReflexive(xs[0]);
      ZipEqReflexive(xs[1..]);
    }
  }

  lemma {:induction false} ZipArmsReflexive(xs: seq<Arm>)
    ensures ZipArms(xs, xs)
    decreases DepthArms(xs), 1, |xs|
  {
    if xs != [] {
      PatternEqReflexive(xs[0].pattern);
      EqReflexive(xs[0].body);
      ZipArmsReflexive(xs[1..]);
    }
  }

  /** Any two units are equal, and a unit equals no other node when asked
      first. */
  lemma UnitEq(b: Node)
    ensures Eq(Unit, b) <==> b == Unit
  {
  }

  /** A block compares only the common prefix of the two bodies, so a block
      equals any longer block that starts with the same expressions. */
  lemma BlockPrefixEq(body: seq<Node>, extra: seq<Node>)
    ensures Eq(Block(body), Block(body + extra))
  {
    ZipPrefix(body, extra);
  }

  lemma {:induction false} ZipPrefix(xs: seq<Node>, extra: seq<Node>)
    ensures ZipEq(xs, xs + extra)
    decreases |xs|
  {
    if xs != [] {
      EqReflexive(xs[0]);
      assert (xs + extra)[1..] == xs[1..] + extra;
      ZipPrefix(xs[1..], extra);
    }
  }

  /** A one-element block equals its element, but a unit does not equal a
      block holding a unit: `==` on nodes is not symmetric. */
  lemma EqNotSymmetric()
    ensures Eq(Block([Unit]), Unit)
    ensures !Eq(Unit, Block([Unit]))
  {
  }

  /** Names compare by their text alone, and a name equals no node of
      another class. */
  lemma NameEqByValue(a: string, b: string, other: Node)
    requires !other.Name? && !(other.Block? && |other.exprs| == 1)
    ensures Eq(Name(a), Name(b)) <==> a == b
    ensures !Eq(Name(a), other)
  {
  }

  /** A list pattern's `rest` takes no part in equality; its initial
      patterns must agree in number and one by one. */
  lemma ListPatternIgnoresRest(initials: seq<Pattern>, r1: Option<string>, r2: Option<string>, q: Pattern)
    requires q.ListPattern? && |q.initials| != |initials|
    ensures PatternEq(ListPattern(initials, r1), ListPattern(initials, r2))
    ensures !PatternEq(ListPattern(initials, r1), q)
  {
    PatternsEqReflexive(initials);
  }

  /** Scalars compare as Python values: `True` equals `1`. */
  lemma ScalarBoolIsInt()
    ensures Eq(Scalar(BoolValue(true)), Scalar(IntValue(1)))
    ensures !Eq(Scalar(BoolValue(true)), Scalar(IntValue(2)))
  {
  }
}
