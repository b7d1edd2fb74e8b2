/** The lowered syntax tree of `hanno/asts/lowered.py`, which the back end
    works on: patterns and matches are gone and arithmetic has become
    native operations. */
module Lowered {
  import opened Wrappers
  import opened Errors
  import Ast

  /** `OperationTypes`: the operations the virtual machine does natively. */
  datatype Op = Add | Div | Equal | Exp | Greater | Join | Less | Mod | Mul | Neg | Sub

  /** The operator text each operation is written with. */
  function Symbol(op: Op): string {
    match op
    case Add => "+"
    case Div => "/"
    case Equal => "="
    case Exp => "^"
    case Greater => ">"
    case Join => "<>"
    case Less => "<"
    case Mod => "%"
    case Mul => "*"
    case Neg => "~"
    case Sub => "-"
  }

  /** `OperationTypes(text)`: the operation written as `text`, if any. */
  function OpOf(text: string): (r: Option<Op>)
    ensures r.Some? ==> Symbol(r.value) == text
  {
    if text == "+" then Some(Add)
    else if text == "/" then Some(Div)
    else if text == "=" then Some(Equal)
    else if text == "^" then Some(Exp)
    else if text == ">" then Some(Greater)
    else if text == "<>" then Some(Join)
    else if text == "<" then Some(Less)
    else if text == "%" then Some(Mod)
    else if text == "*" then Some(Mul)
    else if text == "~" then Some(Neg)
    else if text == "-" then Some(Sub)
    else None
  }

  /** Every operation is found again from its text, so the texts are
      distinct and `OpOf` recognises exactly them. */
  lemma OpOfSymbol(op: Op)
    ensures OpOf(Symbol(op)) == Some(op)
  {
  }

  /** The nodes. A block's `mergeParent` is the `merge_parent` mark that
      pattern decomposition leaves for the enclosing block; no equality
      looks at it. A definition's target and a function's parameter are
      names, kept as their text. */
  datatype Node =
    | Apply(func: Node, arg: Node)
    | Block(exprs: seq<Node>, mergeParent: bool)
    | Cond(pred: Node, cons: Node, elseBranch: Node)
    | Define(target: string, value: Node)
    | Function(param: string, body: Node)
    | List(elements: seq<Node>)
    | Name(name: string)
    | NativeOp(operation: Op, left: Node, right: Option<Node>)
    | Pair(first: Node, second: Node)
    | Scalar(scalar: Ast.Value)
    | Unit

  /** `Block(body)`: a block needs at least one expression. */
  function MakeBlock(body: seq<Node>): (r: Result<Node, CompilerError>)
    ensures r.Err? <==> body == []
    ensures r.Err? ==> r.error == ValueError
    ensures r.Ok? ==> r.value.Block? && r.value.exprs == body && !r.value.mergeParent
  {
    if body == [] then Err(ValueError) else Ok(Block(body, false))
  }

  /** `Block.new`: a unit for no expressions, the expression itself for
      one, and a block otherwise. */
  function BlockNew(body: seq<Node>): (r: Node)
    ensures body == [] ==> r == Unit
    ensures |body| == 1 ==> r == body[0]
    ensures |body| >= 2 ==> r == Block(body, false)
  {
    if body == [] then Unit
    else if |body| == 1 then body[0]
    else Block(body, false)
  }

  /** The expressions a node stands for when it is spliced into a block. */
  function Exprs(n: Node): seq<Node> {
    if n.Block? then n.exprs else if n.Unit? then [] else [n]
  }

  /** Reading the expressions back out of `Block.new` gives the body again,
      unless the body's only expression is itself a block or a unit. */
  lemma ExprsOfBlockNew(body: seq<Node>)
    ensures |body| == 1 && (body[0].Block? || body[0].Unit?) <==> Exprs(BlockNew(body)) != body
  {
  }

  /** The height of a tree, for termination. */
  function Depth(n: Node): nat {
    match n
    case Apply(func, arg) => 1 + Max(Depth(func), Depth(arg))
    case Block(body, _) => 1 + DepthAll(body)
    case Cond(pred, cons, elseBranch) => 1 + Max(Depth(pred), Max(Depth(cons), Depth(elseBranch)))
    case Define(_, value) => 1 + Depth(value)
    case Function(_, body) => 1 + Depth(body)
    case List(elements) => 1 + DepthAll(elements)
    case NativeOp(_, left, right) => 1 + Max(Depth(left), if right.Some? then Depth(right.value) else 0)
    case Pair(first, second) => 1 + Max(Depth(first), Depth(second))
    case _ => 1
  }

  function DepthAll(nodes: seq<Node>): (d: nat)
    ensures nodes != [] ==> Depth(nodes[0]) <= d && DepthAll(nodes[1..]) <= d
  {
    if nodes == [] then 0 else Max(Depth(nodes[0]), DepthAll(nodes[1..]))
  }

  function Max(a: nat, b: nat): nat { if a < b then b else a }

  /** Every node of a sequence is no higher than the sequence. */
  lemma {:induction false} DepthAllBounds(nodes: seq<Node>, i: nat)
    requires i < |nodes|
    ensures Depth(nodes[i]) <= DepthAll(nodes)
    decreases i
  {
    assert DepthAll(nodes) == Max(Depth(nodes[0]), DepthAll(nodes[1..]));
    if i > 0 {
      DepthAllBounds(nodes[1..], i - 1);
      assert nodes[i] == nodes[1..][i - 1];
    }
  }

  /** What `a.__eq__(b)` answers: a boolean, or None for NotImplemented.
      Lists compare as tuples; blocks compare their bodies pairwise with
      `zip` when `zipBlocks` holds, as written, and as tuples otherwise. */
  function OwnEq(a: Node, b: Node, zipBlocks: bool): Option<bool>
    decreases Depth(a) + Depth(b), 1
  {
    match a
    case Apply(func, arg) => if b.Apply? then Some(Eq(func, b.func, zipBlocks) && Eq(arg, b.arg, zipBlocks)) else None
    case Block(body, _) =>
      if b.Block? then Some(if zipBlocks then ZipEq(body, b.exprs, zipBlocks) else TupleEq(body, b.exprs, zipBlocks))
      else None
    case Cond(pred, cons, elseBranch) =>
      Some(b.Cond? && Eq(pred, b.pred, zipBlocks) && Eq(cons, b.cons, zipBlocks) && Eq(elseBranch, b.elseBranch, zipBlocks))
    case Define(target, value) => Some(b.Define? && target == b.target && Eq(value, b.value, zipBlocks))
    case Function(param, body) =>
      if b.Function? then Some(param == b.param && Eq(body, b.body, zipBlocks)) else None
    case List(elements) => Some(b.List? && TupleEq(elements, b.elements, zipBlocks))
    case Name(v) => if b.Name? then Some(v == b.name) else None
    case NativeOp(op, left, right) =>
      Some(b.NativeOp? && op == b.operation && Eq(left, b.left, zipBlocks) && OptionEq(right, b.right, zipBlocks))
    case Pair(first, second) => Some(b.Pair? && Eq(first, b.first, zipBlocks) && Eq(second, b.second, zipBlocks))
    case Scalar(v) => Some(b.Scalar? && Ast.ValueEq(v, b.scalar))
    case Unit => Some(b.Unit?)
  }

  /** Python's `a == b` on lowered nodes: `a.__eq__(b)`, then the reflected
      `b.__eq__(a)`, then identity, which distinct nodes fail. */
  function Eq(a: Node, b: Node, zipBlocks: bool): bool
    decreases Depth(a) + Depth(b), 2
  {
    match OwnEq(a, b, zipBlocks)
    case Some(answer) => answer
    case None =>
      match OwnEq(b, a, zipBlocks)
      case Some(answer) => answer
      case None => false
  }

  /** `==` as `hanno/asts/lowered.py` defines it. */
  function PyEq(a: Node, b: Node): bool {
    Eq(a, b, true)
  }

  /** `==` with `Block.__eq__` comparing whole bodies, as `List.__eq__`
      does. */
  function IntendedEq(a: Node, b: Node): bool {
    Eq(a, b, false)
  }

  /** `==` on optional operands: None equals only None, since no node
      claims equality with None. */
  function OptionEq(a: Option<Node>, b: Option<Node>, zipBlocks: bool): bool
    decreases (if a.Some? then Depth(a.value) else 0) + (if b.Some? then Depth(b.value) else 0), 3
  {
    match (a, b)
    case (None, None) => true
    case (Some(x), Some(y)) => Eq(x, y, zipBlocks)
    case _ => false
  }

  /** `all(x == y for x, y in zip(xs, ys))`. */
  function ZipEq(xs: seq<Node>, ys: seq<Node>, zipBlocks: bool): bool
    decreases DepthAll(xs) + DepthAll(ys), 3, |xs|
  {
    xs == [] || ys == [] || (Eq(xs[0], ys[0], zipBlocks) && ZipEq(xs[1..], ys[1..], zipBlocks))
  }

  /** Tuple equality: equal lengths and equal elements. */
  function TupleEq(xs: seq<Node>, ys: seq<Node>, zipBlocks: bool): bool
    decreases DepthAll(xs) + DepthAll(ys), 3, |xs|
  {
    |xs| == |ys| && (xs == [] || (Eq(xs[0], ys[0], zipBlocks) && TupleEq(xs[1..], ys[1..], zipBlocks)))
  }

  /** `node == text` with a plain string: only a name answers, by its text. */
  predicate EqualsText(n: Node, text: string) {
    match n
    case Name(v) => v == text
    case _ => false
  }

  /** Every node equals itself, whichever way blocks compare. */
  lemma {:induction false} EqReflexive(a: Node, zipBlocks: bool)
    ensures Eq(a, a, zipBlocks)
    decreases Depth(a), 0
  {
    match a
    case Apply(func, arg) =>
      EqReflexive(func, zipBlocks);
      EqReflexive(arg, zipBlocks);
    case Block(body, _) =>
      ZipEqReflexive(body, zipBlocks);
      TupleEqReflexive(body, zipBlocks);
    case Cond(pred, cons, elseBranch) =>
      EqReflexive(pred, zipBlocks);
      EqReflexive(cons, zipBlocks);
      EqReflexive(elseBranch, zipBlocks);
    case Define(_, value) => EqReflexive(value, zipBlocks);
    case Function(_, body) => EqReflexive(body, zipBlocks);
    case List(elements) => TupleEqReflexive(elements, zipBlocks);
    case NativeOp(_, left, right) =>
      EqReflexive(left, zipBlocks);
      if right.Some? {
        EqReflexive(right.value, zipBlocks);
      }
    case Pair(first, second) =>
      EqReflexive(first, zipBlocks);
      EqReflexive(second, zipBlocks);
    case Scalar(v) => Ast.ValueEqReflexive(v);
    case _ =>
  }

  lemma {:induction false} ZipEqReflexive(xs: seq<Node>, zipBlocks: bool)
    ensures ZipEq(xs, xs, zipBlocks)
    decreases DepthAll(xs), 1, |xs|
  {
    if xs != [] {
      EqReflexive(xs[0], zipBlocks);
      ZipEqReflexive(xs[1..], zipBlocks);
    }
  }

  lemma {:induction false} TupleEqReflexive(xs: seq<Node>, zipBlocks: bool)
    ensures TupleEq(xs, xs, zipBlocks)
    decreases DepthAll(xs), 1, |xs|
  {
    if xs != [] {
      EqReflexive(xs[0], zipBlocks);
      TupleEqReflexive(xs[1..], zipBlocks);
    }
  }

  /** A unary operation never equals a binary one, and operations differing
      in kind never compare equal. */
  lemma NativeOpEq(op: Op, left: Node, right: Node, op': Op, left': Node)
    ensures !PyEq(NativeOp(op, left, None), NativeOp(op', left', Some(right)))
    ensures op != op' ==> !PyEq(NativeOp(op, left, Some(right)), NativeOp(op', left', Some(right)))
  {
    assert !OptionEq(None, Some(right), true);
    assert OwnEq(NativeOp(op, left, None), NativeOp(op', left', Some(right)), true) == Some(false);
    assert op != op' ==> OwnEq(NativeOp(op, left, Some(right)), NativeOp(op', left', Some(right)), true) == Some(false);
  }

  /** The `merge_parent` mark plays no part in equality. */
  lemma MarkIgnored(body: seq<Node>)
    ensures PyEq(Block(body, true), Block(body, false))
  {
    ZipEqReflexive(body, true);
  }

  /** As written, a block compares only the common prefix of the two
      bodies, unlike a list, which compares lengths too; compared as
      intended, a block differs from a longer one. */
  lemma {:induction false} BlockPrefixEq(body: seq<Node>, extra: Node)
    ensures PyEq(Block(body, false), Block(body + [extra], false))
    ensures !PyEq(List(body), List(body + [extra]))
    ensures !IntendedEq(Block(body, false), Block(body + [extra], false))
  {
    ZipPrefix(body, [extra]);
    assert !TupleEq(body, body + [extra], true);
    assert OwnEq(List(body), List(body + [extra]), true) == Some(false);
    assert !TupleEq(body, body + [extra], false);
    assert OwnEq(Block(body, false), Block(body + [extra], false), false) == Some(false);
  }

  lemma {:induction false} ZipPrefix(xs: seq<Node>, extra: seq<Node>)
    ensures ZipEq(xs, xs + extra, true)
    decreases |xs|
  {
    if xs != [] {
      EqReflexive(xs[0], true);
      assert (xs + extra)[1..] == xs[1..] + extra;
      ZipPrefix(xs[1..], extra);
    }
  }

  /** Compared as intended, blocks of different lengths are never equal. */
  lemma IntendedBlocksDiffer(body: seq<Node>, body': seq<Node>, mark: bool, mark': bool)
    requires |body| != |body'|
    ensures !IntendedEq(Block(body, mark), Block(body', mark'))
  {
    assert OwnEq(Block(body, mark), Block(body', mark'), false) == Some(false);
  }
}
