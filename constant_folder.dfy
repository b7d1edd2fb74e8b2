/** The constant folder of `hanno/visitors/constant_folder.py`: operations
    on scalars are done at compile time, conditionals on a constant choose
    their branch, and names defined as constants are replaced by them.
    Scalars are booleans, integers and strings; a float operand leaves the
    operation as it is. */
module ConstantFolding {
  import opened Wrappers
  import opened Errors
  import opened Text
  import opened Scopes
  import Ast
  import L = Lowered

  type Value = Ast.Value

  /** Python's `bool` is a subclass of `int`: both take part in arithmetic. */
  predicate IsInt(v: Value) {
    v.BoolValue? || v.IntValue?
  }

  function IntOf(v: Value): int
    requires IsInt(v)
  {
    if v.BoolValue? then (if v.flag then 1 else 0) else v.number
  }

  /** Python's truth value of a scalar: a float literal is true when one of
      its digits is not zero. */
  predicate Truthy(v: Value) {
    match v
    case BoolValue(b) => b
    case IntValue(n) => n != 0
    case FloatValue(literal) => exists i :: 0 <= i < |literal| && '1' <= literal[i] <= '9'
    case StrValue(s) => s != ""
  }

  /** `floordiv` on integers: the quotient rounded towards minus infinity. */
  function FloorDiv(x: int, y: int): int
    requires y != 0
  {
    if y > 0 then x / y else (-x) / (-y)
  }

  /** `mod` on integers: the remainder takes the sign of the divisor. */
  function FloorMod(x: int, y: int): int
    requires y != 0
  {
    x - y * FloorDiv(x, y)
  }

  /** Python's integer division and remainder: the quotient times the
      divisor plus the remainder is the dividend, and the remainder lies
      between zero and the divisor. */
  lemma FloorDivMod(x: int, y: int)
    requires y != 0
    ensures x == y * FloorDiv(x, y) + FloorMod(x, y)
    ensures y > 0 ==> 0 <= FloorMod(x, y) < y
    ensures y < 0 ==> y < FloorMod(x, y) <= 0
  {
    if y < 0 {
      var q := (-x) / (-y);
      assert -x == (-y) * q + (-x) % (-y);
      assert FloorMod(x, y) == -((-x) % (-y));
    }
  }

  function Power(base: int, exponent: nat): int {
    if exponent == 0 then 1 else base * Power(base, exponent - 1)
  }

  /** `s * n` for a string and an integer: `n` copies, none when `n` is not
      positive. */
  function RepeatText(s: string, n: int): (r: string)
    ensures |r| == if n <= 0 then 0 else |s| * n
    decreases if n <= 0 then 0 else n
  {
    if n <= 0 then "" else s + RepeatText(s, n - 1)
  }

  /** `-left.value`. None leaves the operation in place (a float). */
  function FoldNegate(v: Value): (r: Result<Option<Value>, CompilerError>)
    ensures r.Err? <==> v.StrValue?
    ensures r.Err? ==> r.error == TypeError
    ensures r == Ok(None) <==> v.FloatValue?
  {
    match v
    case BoolValue(_) => Ok(Some(Ast.IntValue(-IntOf(v))))
    case IntValue(n) => Ok(Some(Ast.IntValue(-n)))
    case FloatValue(_) => Ok(None)
    case StrValue(_) => Err(TypeError)
  }

  predicate IsMath(op: L.Op) {
    op in {L.Add, L.Sub, L.Mul, L.Div, L.Exp, L.Mod}
  }

  predicate IsCompare(op: L.Op) {
    op in {L.Equal, L.Greater, L.Less}
  }

  /** `fold_math`: Python's operator on the two values. Integer division
      and remainder by zero, and zero to a negative power, fail; a string
      is concatenated with a string and repeated by an integer; every other
      mix of a string fails, except that `%` on a string formats it and is
      left in place, as is any operation with a float. */
  function FoldMath(op: L.Op, left: Value, right: Value): (r: Result<Option<Value>, CompilerError>)
    requires IsMath(op)
    ensures r.Err? ==> r.error == TypeError || r.error == ZeroDivision
    ensures r.Ok? && r.value.Some? ==> !r.value.value.BoolValue? && !r.value.value.FloatValue?
  {
    if IsInt(left) && IsInt(right) then
      var x, y := IntOf(left), IntOf(right);
      match op
      case Add => Ok(Some(Ast.IntValue(x + y)))
      case Sub => Ok(Some(Ast.IntValue(x - y)))
      case Mul => Ok(Some(Ast.IntValue(x * y)))
      case Div => if y == 0 then Err(ZeroDivision) else Ok(Some(Ast.IntValue(FloorDiv(x, y))))
      case Mod => if y == 0 then Err(ZeroDivision) else Ok(Some(Ast.IntValue(FloorMod(x, y))))
      case Exp =>
        if y >= 0 then Ok(Some(Ast.IntValue(Power(x, y))))
        else if x == 0 then Err(ZeroDivision)
        else Ok(None)
    else if left.StrValue? && op == L.Mod then Ok(None)
    else if left.StrValue? && right.StrValue? && op == L.Add then Ok(Some(Ast.StrValue(left.text + right.text)))
    else if left.StrValue? && IsInt(right) && op == L.Mul then Ok(Some(Ast.StrValue(RepeatText(left.text, IntOf(right)))))
    else if IsInt(left) && right.StrValue? && op == L.Mul then Ok(Some(Ast.StrValue(RepeatText(right.text, IntOf(left)))))
    else if left.StrValue? || right.StrValue? then Err(TypeError)
    else Ok(None)
  }

  /** `fold_comparison`: `==` never fails and finds a string unequal to a
      number; `>` and `<` order numbers by value and strings by code point,
      and fail on a string against a number. Floats are left in place,
      except that a float never equals a string. */
  function FoldCompare(op: L.Op, left: Value, right: Value): (r: Result<Option<Value>, CompilerError>)
    requires IsCompare(op)
    ensures r.Ok? && r.value.Some? ==> r.value.value.BoolValue?
    ensures r.Err? ==> r.error == TypeError && op != L.Equal
  {
    if IsInt(left) && IsInt(right) then
      var x, y := IntOf(left), IntOf(right);
      Ok(Some(Ast.BoolValue(if op == L.Equal then x == y else if op == L.Greater then x > y else x < y)))
    else if left.StrValue? && right.StrValue? then
      var a, b := left.text, right.text;
      Ok(Some(Ast.BoolValue(if op == L.Equal then a == b else if op == L.Greater then StrLess(b, a) else StrLess(a, b))))
    else if left.StrValue? || right.StrValue? then
      if op == L.Equal then Ok(Some(Ast.BoolValue(false))) else Err(TypeError)
    else Ok(None)
  }

  /** What `visit_native_op` does once both operands are folded: a
      negation, arithmetic or a comparison of scalars gives its value;
      None leaves the operation in place. */
  function Evaluate(op: L.Op, left: L.Node, right: Option<L.Node>): (r: Result<Option<Value>, CompilerError>)
    ensures !left.Scalar? ==> r == Ok(None)
  {
    if op == L.Neg && left.Scalar? then FoldNegate(left.scalar)
    else if IsMath(op) && left.Scalar? && right.Some? && right.value.Scalar? then
      FoldMath(op, left.scalar, right.value.scalar)
    else if IsCompare(op) && left.Scalar? && right.Some? && right.value.Scalar? then
      FoldCompare(op, left.scalar, right.value.scalar)
    else Ok(None)
  }

  /** Negating an integer twice gives it back. */
  lemma NegateTwice(v: Value)
    requires IsInt(v)
    ensures FoldNegate(v).Ok? && FoldNegate(v).value.Some?
    ensures FoldNegate(FoldNegate(v).value.value) == Ok(Some(Ast.IntValue(IntOf(v))))
  {
  }

  /** Division and remainder of integers fold to values that rebuild the
      dividend through folded multiplication and addition, and fail on a
      zero divisor. */
  lemma DivModRebuild(x: int, y: int)
    ensures y == 0 ==> FoldMath(L.Div, Ast.IntValue(x), Ast.IntValue(y)) == Err(ZeroDivision)
    ensures y == 0 ==> FoldMath(L.Mod, Ast.IntValue(x), Ast.IntValue(y)) == Err(ZeroDivision)
    ensures y != 0 ==>
      var q := FoldMath(L.Div, Ast.IntValue(x), Ast.IntValue(y));
      var m := FoldMath(L.Mod, Ast.IntValue(x), Ast.IntValue(y));
      q.Ok? && q.value.Some? && m.Ok? && m.value.Some?
      && var product := FoldMath(L.Mul, Ast.IntValue(y), q.value.value);
         product.Ok? && product.value.Some?
         && FoldMath(L.Add, product.value.value, m.value.value) == Ok(Some(Ast.IntValue(x)))
  {
    if y != 0 {
      FloorDivMod(x, y);
    }
  }

  /** Multiplication folds the same whichever operand comes first, for a
      string repeated by an integer as well as for numbers. */
  lemma MulCommutes(a: Value, b: Value)
    ensures FoldMath(L.Mul, a, b) == FoldMath(L.Mul, b, a)
  {
  }

  /** `a > b` folds exactly as `b < a`, and `==` is symmetric. */
  lemma CompareDuality(a: Value, b: Value)
    ensures FoldCompare(L.Greater, a, b) == FoldCompare(L.Less, b, a)
    ensures FoldCompare(L.Equal, a, b) == FoldCompare(L.Equal, b, a)
  {
  }

  /** Two numbers, or two strings, compare in exactly one of the three
      ways. */
  lemma CompareTrichotomy(a: Value, b: Value)
    requires (IsInt(a) && IsInt(b)) || (a.StrValue? && b.StrValue?)
    ensures var lt := FoldCompare(L.Less, a, b);
            var eq := FoldCompare(L.Equal, a, b);
            var gt := FoldCompare(L.Greater, a, b);
            lt.Ok? && eq.Ok? && gt.Ok? && lt.value.Some? && eq.value.Some? && gt.value.Some?
            && (if lt.value.value.flag then 1 else 0) + (if eq.value.value.flag then 1 else 0)
               + (if gt.value.value.flag then 1 else 0) == 1
  {
    if a.StrValue? && b.StrValue? {
      if a.text == b.text {
        StrLessIrreflexive(a.text);
      } else {
        StrLessTotal(a.text, b.text);
        if StrLess(a.text, b.text) && StrLess(b.text, a.text) {
          StrLessTransitive(a.text, b.text, a.text);
          StrLessIrreflexive(a.text);
        }
      }
    }
  }

  /** A node once folded: the folded node, whether it is a definition of a
      constant that its block drops (`metadata["delete"]`), and the scope
      chain afterwards. */
  datatype Folded = Folded(node: L.Node, deleted: bool, scope: Chain<Value>)

  /** What folding may do to the scope chain: it has as many scopes as
      before, the innermost gains names, and no enclosing scope gains or
      loses one. */
  predicate Extends(s: Chain<Value>, s': Chain<Value>) {
    s != [] && |s'| == |s| && s[0].Keys <= s'[0].Keys
    && forall i :: 1 <= i < |s| ==> s'[i].Keys == s[i].Keys
  }

  lemma ExtendsTrans(s: Chain<Value>, s': Chain<Value>, s'': Chain<Value>)
    requires Extends(s, s') && Extends(s', s'')
    ensures Extends(s, s'')
  {
  }

  /** Leaving a scope pushed before folding restores the names of the chain
      folded in. */
  lemma ExtendsPopped(s: Chain<Value>, inner: Chain<Value>)
    requires s != [] && Extends([map[]] + s, inner)
    ensures Extends(s, inner[1..])
  {
    var outer := [map[]] + s;
    forall i | 0 <= i < |s|
      ensures inner[1..][i].Keys == s[i].Keys
    {
      assert inner[1..][i] == inner[i + 1] && outer[i + 1] == s[i];
    }
  }

  /** `scope[name] = value` extends the chain and binds the name. */
  lemma SetExtends(s: Chain<Value>, name: string, value: Value)
    requires s != []
    ensures Extends(s, ChainSet(s, name, value))
  {
    forall i | 1 <= i < |s|
      ensures ChainSet(s, name, value)[i].Keys == s[i].Keys
    {
      SetKeepsEnclosingNames(s, name, value, i);
    }
  }

  /** `ConstantFolder.visit`: the node folded in the scope chain `s`. */
  function Fold(n: L.Node, s: Chain<Value>): (r: Result<Folded, CompilerError>)
    requires s != []
    ensures r.Ok? ==> Extends(s, r.value.scope)
    decreases L.Depth(n), 1
  {
    match n
    case Apply(func, arg) =>
      var f :- Fold(func, s);
      var a :- Fold(arg, f.scope);
      ExtendsTrans(s, f.scope, a.scope);
      Ok(Folded(L.Apply(f.node, a.node), false, a.scope))
    case Block(exprs, _) =>
      var (body, inner) :- FoldBlock(exprs, [map[]] + s);
      ExtendsPopped(s, inner);
      Ok(Folded(L.BlockNew(body), false, inner[1..]))
    case Cond(pred, cons, elseBranch) =>
      var p :- Fold(pred, s);
      if p.node.Scalar? then
        var c :- if Truthy(p.node.scalar) then Fold(cons, p.scope) else Fold(elseBranch, p.scope);
        ExtendsTrans(s, p.scope, c.scope);
        Ok(c)
      else
        var c :- Fold(cons, p.scope);
        var e :- Fold(elseBranch, c.scope);
        ExtendsTrans(s, p.scope, c.scope);
        ExtendsTrans(s, c.scope, e.scope);
        Ok(Folded(L.Cond(p.node, c.node, e.node), false, e.scope))
    case Define(target, value) =>
      var v :- Fold(value, s);
      if v.node.Scalar? then
        SetExtends(v.scope, target, v.node.scalar);
        ExtendsTrans(s, v.scope, ChainSet(v.scope, target, v.node.scalar));
        Ok(Folded(n, true, ChainSet(v.scope, target, v.node.scalar)))
      else Ok(Folded(L.Define(target, v.node), false, v.scope))
    case Function(param, body) =>
      var b :- Fold(body, [map[]] + s);
      ExtendsPopped(s, b.scope);
      Ok(Folded(L.Function(param, b.node), false, b.scope[1..]))
    case List(elements) =>
      var (es, s') :- FoldAll(elements, s);
      Ok(Folded(L.List(es), false, s'))
    case Name(name) =>
      var bound := ChainLookup(s, name);
      if bound.Some? then Ok(Folded(L.Scalar(bound.value), false, s)) else Ok(Folded(n, false, s))
    case NativeOp(op, left, right) => FoldNativeOp(op, left, right, s)
    case Pair(first, second) =>
      var f :- Fold(first, s);
      var e :- Fold(second, f.scope);
      ExtendsTrans(s, f.scope, e.scope);
      Ok(Folded(L.Pair(f.node, e.node), false, e.scope))
    case Scalar(_) => Ok(Folded(n, false, s))
    case Unit => Ok(Folded(n, false, s))
  }

  /** `visit_native_op`: both operands are folded, left first, and an
      operation on scalars is replaced by its value. */
  function FoldNativeOp(op: L.Op, left: L.Node, right: Option<L.Node>, s: Chain<Value>): (r: Result<Folded, CompilerError>)
    requires s != []
    ensures r.Ok? ==> Extends(s, r.value.scope) && !r.value.deleted
    decreases L.Depth(L.NativeOp(op, left, right)), 0
  {
    var l :- Fold(left, s);
    if right.None? then
      var v :- Evaluate(op, l.node, None);
      Ok(Folded(if v.Some? then L.Scalar(v.value) else L.NativeOp(op, l.node, None), false, l.scope))
    else
      var r :- Fold(right.value, l.scope);
      ExtendsTrans(s, l.scope, r.scope);
      var v :- Evaluate(op, l.node, Some(r.node));
      Ok(Folded(if v.Some? then L.Scalar(v.value) else L.NativeOp(op, l.node, Some(r.node)), false, r.scope))
  }

  /** The expressions of a block folded in turn, without the definitions of
      constants. */
  function FoldBlock(exprs: seq<L.Node>, s: Chain<Value>): (r: Result<(seq<L.Node>, Chain<Value>), CompilerError>)
    requires s != []
    ensures r.Ok? ==> Extends(s, r.value.1) && |r.value.0| <= |exprs|
    decreases L.DepthAll(exprs), 2, |exprs|
  {
    if exprs == [] then Ok(([], s))
    else
      var f :- Fold(exprs[0], s);
      var (rest, s') :- FoldBlock(exprs[1..], f.scope);
      ExtendsTrans(s, f.scope, s');
      Ok(((if f.deleted then [] else [f.node]) + rest, s'))
  }

  /** The elements of a list folded in turn. */
  function FoldAll(nodes: seq<L.Node>, s: Chain<Value>): (r: Result<(seq<L.Node>, Chain<Value>), CompilerError>)
    requires s != []
    ensures r.Ok? ==> Extends(s, r.value.1) && |r.value.0| == |nodes|
    decreases L.DepthAll(nodes), 2, |nodes|
  {
    if nodes == [] then Ok(([], s))
    else
      var f :- Fold(nodes[0], s);
      var (rest, s') :- FoldAll(nodes[1..], f.scope);
      ExtendsTrans(s, f.scope, s');
      Ok(([f.node] + rest, s'))
  }

  /** `fold_constants`: the tree folded in a fresh scope. */
  function FoldConstants(tree: L.Node): Result<L.Node, CompilerError> {
    var f :- Fold(tree, [map[]]);
    Ok(f.node)
  }

  /** What a visit hands back: the folded node and its delete mark. */
  function Outcome(f: Result<Folded, CompilerError>): Result<(L.Node, bool), CompilerError> {
    match f
    case Ok(folded) => Ok((folded.node, folded.deleted))
    case Err(e) => Err(e)
  }

  /** A folded prefix of a block or list in front of the rest. */
  function Prepend(done: seq<L.Node>, rest: Result<(seq<L.Node>, Chain<Value>), CompilerError>): Result<(seq<L.Node>, Chain<Value>), CompilerError> {
    match rest
    case Ok((nodes, s)) => Ok((done + nodes, s))
    case Err(e) => Err(e)
  }

  lemma PrependNothing(rest: Result<(seq<L.Node>, Chain<Value>), CompilerError>)
    ensures Prepend([], rest) == rest
  {
    if rest.Ok? {
      assert [] + rest.value.0 == rest.value.0;
    }
  }

  lemma PrependAll(done: seq<L.Node>, s: Chain<Value>)
    ensures Prepend(done, Ok(([], s))) == Ok((done, s))
  {
    assert done + [] == done;
  }

  lemma BlockStep(exprs: seq<L.Node>, i: nat, s: Chain<Value>, done: seq<L.Node>)
    requires i < |exprs| && s != [] && Fold(exprs[i], s).Ok?
    ensures var f := Fold(exprs[i], s).value;
            Prepend(done, FoldBlock(exprs[i..], s))
            == Prepend(done + (if f.deleted then [] else [f.node]), FoldBlock(exprs[i + 1..], f.scope))
  {
    assert exprs[i..][0] == exprs[i] && exprs[i..][1..] == exprs[i + 1..];
    var f := Fold(exprs[i], s).value;
    var kept := if f.deleted then [] else [f.node];
    match FoldBlock(exprs[i + 1..], f.scope)
    case Ok((rest, _)) => assert done + (kept + rest) == done + kept + rest;
    case Err(_) =>
  }

  lemma ListStep(nodes: seq<L.Node>, i: nat, s: Chain<Value>, done: seq<L.Node>)
    requires i < |nodes| && s != [] && Fold(nodes[i], s).Ok?
    ensures var f := Fold(nodes[i], s).value;
            Prepend(done, FoldAll(nodes[i..], s)) == Prepend(done + [f.node], FoldAll(nodes[i + 1..], f.scope))
  {
    assert nodes[i..][0] == nodes[i] && nodes[i..][1..] == nodes[i + 1..];
    var f := Fold(nodes[i], s).value;
    match FoldAll(nodes[i + 1..], f.scope)
    case Ok((rest, _)) => assert done + ([f.node] + rest) == done + [f.node] + rest;
    case Err(_) =>
  }

  /** `ConstantFolder`: the visitor, with the scope chain it swaps as it
      enters and leaves blocks and functions. */
  class ConstantFolder {
    var scope: Chain<Value>

    constructor()
      ensures scope == [map[]]
    {
      scope := [map[]];
    }

    /** `visit`: folds the node, leaving the scope as folding does. */
    method Visit(n: L.Node) returns (r: Result<(L.Node, bool), CompilerError>)
      requires scope != []
      modifies this
      ensures r == Outcome(Fold(n, old(scope)))
      ensures r.Ok? ==> scope == Fold(n, old(scope)).value.scope
      decreases L.Depth(n), 1
    {
      match n
      case Apply(func, arg) =>
        var f := Visit(func);
        if f.Err? { return Err(f.error); }
        var a := Visit(arg);
        if a.Err? { return Err(a.error); }
        return Ok((L.Apply(f.value.0, a.value.0), false));
      case Block(_, _) => r := VisitBlock(n);
      case Cond(_, _, _) => r := VisitCond(n);
      case Define(_, _) => r := VisitDefine(n);
      case Function(param, body) =>
        scope := [map[]] + scope;
        var b := Visit(body);
        if b.Err? { return Err(b.error); }
        scope := scope[1..];
        return Ok((L.Function(param, b.value.0), false));
      case List(_) => r := VisitList(n);
      case Name(name) =>
        var bound := ChainLookup(scope, name);
        if bound.Some? {
          return Ok((L.Scalar(bound.value), false));
        }
        return Ok((n, false));
      case NativeOp(_, _, _) => r := VisitNativeOp(n);
      case Pair(first, second) =>
        var f := Visit(first);
        if f.Err? { return Err(f.error); }
        var e := Visit(second);
        if e.Err? { return Err(e.error); }
        return Ok((L.Pair(f.value.0, e.value.0), false));
      case Scalar(_) => return Ok((n, false));
      case Unit => return Ok((n, false));
    }

    /** `visit_block`: a scope is entered, the expressions are folded in
      turn and the deleted ones left out, and the scope is left; no
      expression gives a unit, one gives itself. */
    method VisitBlock(n: L.Node) returns (r: Result<(L.Node, bool), CompilerError>)
      requires n.Block? && scope != []
      modifies this
      ensures r == Outcome(Fold(n, old(scope)))
      ensures r.Ok? ==> scope == Fold(n, old(scope)).value.scope
      decreases L.Depth(n), 0
    {
      var exprs := n.exprs;
      ghost var outer := scope;
      scope := [map[]] + scope;
      var body: seq<L.Node> := [];
      var i := 0;
      assert exprs[0..] == exprs;
      PrependNothing(FoldBlock(exprs, scope));
      while i < |exprs|
        invariant 0 <= i <= |exprs| && scope != []
        invariant FoldBlock(exprs, [map[]] + outer) == Prepend(body, FoldBlock(exprs[i..], scope))
      {
        L.DepthAllBounds(exprs, i);
        ghost var before := scope;
        var e := Visit(exprs[i]);
        if e.Err? {
          assert exprs[i..][0] == exprs[i];
          return Err(e.error);
        }
        BlockStep(exprs, i, before, body);
        var (expr, deleted) := e.value;
        assert Fold(exprs[i], before).value.node == expr && Fold(exprs[i], before).value.deleted == deleted;
        if !deleted {
          body := body + [expr];
        } else {
          assert body + [] == body;
        }
        i := i + 1;
      }
      PrependAll(body, scope);
      scope := scope[1..];
      return Ok((L.BlockNew(body), false));
    }

    /** `visit_list`: the elements folded in turn. */
    method VisitList(n: L.Node) returns (r: Result<(L.Node, bool), CompilerError>)
      requires n.List? && scope != []
      modifies this
      ensures r == Outcome(Fold(n, old(scope)))
      ensures r.Ok? ==> scope == Fold(n, old(scope)).value.scope
      decreases L.Depth(n), 0
    {
      var elements := n.elements;
      ghost var start := scope;
      var folded: seq<L.Node> := [];
      var i := 0;
      assert elements[0..] == elements;
      PrependNothing(FoldAll(elements, scope));
      while i < |elements|
        invariant 0 <= i <= |elements| && scope != []
        invariant FoldAll(elements, start) == Prepend(folded, FoldAll(elements[i..], scope))
      {
        L.DepthAllBounds(elements, i);
        ghost var before := scope;
        var e := Visit(elements[i]);
        if e.Err? {
          assert elements[i..][0] == elements[i];
          return Err(e.error);
        }
        ListStep(elements, i, before, folded);
        folded := folded + [e.value.0];
        i := i + 1;
      }
      PrependAll(folded, scope);
      return Ok((L.List(folded), false));
    }

    /** `visit_cond`: a predicate that folds to a scalar chooses the branch
      to fold in place of the conditional. */
    method VisitCond(n: L.Node) returns (r: Result<(L.Node, bool), CompilerError>)
      requires n.Cond? && scope != []
      modifies this
      ensures r == Outcome(Fold(n, old(scope)))
      ensures r.Ok? ==> scope == Fold(n, old(scope)).value.scope
      decreases L.Depth(n), 0
    {
      var p := Visit(n.pred);
      if p.Err? { return Err(p.error); }
      var pred := p.value.0;
      if pred.Scalar? {
        if Truthy(pred.scalar) {
          r := Visit(n.cons);
        } else {
          r := Visit(n.elseBranch);
        }
        return;
      }
      var c := Visit(n.cons);
      if c.Err? { return Err(c.error); }
      var e := Visit(n.elseBranch);
      if e.Err? { return Err(e.error); }
      return Ok((L.Cond(pred, c.value.0, e.value.0), false));
    }

    /** `visit_define`: a value that folds to a scalar is recorded in the
      scope and the definition, unchanged, is marked for deletion. */
    method VisitDefine(n: L.Node) returns (r: Result<(L.Node, bool), CompilerError>)
      requires n.Define? && scope != []
      modifies this
      ensures r == Outcome(Fold(n, old(scope)))
      ensures r.Ok? ==> scope == Fold(n, old(scope)).value.scope
      decreases L.Depth(n), 0
    {
      var v := Visit(n.value);
      if v.Err? { return Err(v.error); }
      var value := v.value.0;
      if value.Scalar? {
        scope := ChainSet(scope, n.target, value.scalar);
        return Ok((n, true));
      }
      return Ok((L.Define(n.target, value), false));
    }

    /** `visit_native_op`: the operands folded, then the operation done
      when they are scalars. */
    method VisitNativeOp(n: L.Node) returns (r: Result<(L.Node, bool), CompilerError>)
      requires n.NativeOp? && scope != []
      modifies this
      ensures r == Outcome(Fold(n, old(scope)))
      ensures r.Ok? ==> scope == Fold(n, old(scope)).value.scope
      decreases L.Depth(n), 0
    {
      var l := Visit(n.left);
      if l.Err? { return Err(l.error); }
      var right: Option<L.Node> := None;
      if n.right.Some? {
        var rr := Visit(n.right.value);
        if rr.Err? { return Err(rr.error); }
        right := Some(rr.value.0);
      }
      var value := Evaluate(n.operation, l.value.0, right);
      if value.Err? { return Err(value.error); }
      if value.value.Some? {
        return Ok((L.Scalar(value.value.value), false));
      }
      return Ok((L.NativeOp(n.operation, l.value.0, right), false));
    }
  }

  /** A conditional on a constant folds as the branch the constant
      chooses. */
  lemma CondOnConstant(v: Value, cons: L.Node, elseBranch: L.Node, s: Chain<Value>)
    requires s != []
    ensures Fold(L.Cond(L.Scalar(v), cons, elseBranch), s) == if Truthy(v) then Fold(cons, s) else Fold(elseBranch, s)
  {
    assert Fold(L.Scalar(v), s) == Ok(Folded(L.Scalar(v), false, s));
  }

  /** A name defined as a constant in a block is replaced by the constant;
      the definition is dropped, the block of the one use becomes the
      constant, and the enclosing scopes are left as they were. */
  lemma ConstantPropagated(x: string, v: Value, merge: bool, s: Chain<Value>)
    requires s != [] && !InChain(s, x)
    ensures Fold(L.Block([L.Define(x, L.Scalar(v)), L.Name(x)], merge), s) == Ok(Folded(L.Scalar(v), false, s))
  {
    var inner: Chain<Value> := [map[]] + s;
    assert inner[1..] == s;
    var definition := L.Define(x, L.Scalar(v));
    var bound := ChainSet(inner, x, v);
    assert bound == [map[x := v]] + s;
    assert Fold(definition, inner) == Ok(Folded(definition, true, bound));
    assert ChainLookup(bound, x) == Some(v);
    assert Fold(L.Name(x), bound) == Ok(Folded(L.Scalar(v), false, bound));
    var exprs := [definition, L.Name(x)];
    assert exprs[1..] == [L.Name(x)] && exprs[1..][1..] == [];
    assert FoldBlock([], bound) == Ok(([], bound));
    assert [L.Scalar(v)] + [] == [L.Scalar(v)];
    assert FoldBlock(exprs[1..], bound) == Ok(([L.Scalar(v)], bound));
    assert [] + [L.Scalar(v)] == [L.Scalar(v)];
    assert FoldBlock(exprs, inner) == Ok(([L.Scalar(v)], bound));
    assert bound[1..] == s;
  }

  /** A block of nothing but definitions of constants folds to a unit. */
  lemma {:induction false} ConstantDefinitionsVanish(exprs: seq<L.Node>, s: Chain<Value>)
    requires s != []
    requires forall i :: 0 <= i < |exprs| ==> exprs[i].Define? && exprs[i].value.Scalar?
    ensures FoldBlock(exprs, s).Ok? && FoldBlock(exprs, s).value.0 == []
    decreases |exprs|
  {
    if exprs != [] {
      var definition := exprs[0];
      assert Fold(definition.value, s) == Ok(Folded(definition.value, false, s));
      var after := ChainSet(s, definition.target, definition.value.scalar);
      assert Fold(definition, s) == Ok(Folded(definition, true, after));
      assert forall i :: 0 <= i < |exprs[1..]| ==> exprs[1..][i] == exprs[i + 1];
      ConstantDefinitionsVanish(exprs[1..], after);
    }
  }

  lemma ConstantBlockIsUnit(exprs: seq<L.Node>, merge: bool, s: Chain<Value>)
    requires s != []
    requires forall i :: 0 <= i < |exprs| ==> exprs[i].Define? && exprs[i].value.Scalar?
    ensures Fold(L.Block(exprs, merge), s).Ok? && Fold(L.Block(exprs, merge), s).value.node == L.Unit
  {
    ConstantDefinitionsVanish(exprs, [map[]] + s);
  }

  /** Integer arithmetic without division: scalars of integers and booleans
      combined by addition, subtraction, multiplication and negation. */
  predicate IsArithmetic(n: L.Node) {
    match n
    case Scalar(v) => IsInt(v)
    case NativeOp(op, left, right) =>
      if op == L.Neg then right.None? && IsArithmetic(left)
      else op in {L.Add, L.Sub, L.Mul} && right.Some? && IsArithmetic(left) && IsArithmetic(right.value)
    case _ => false
  }

  /** The value of such an expression, by the ordinary rules of
      arithmetic. */
  function Eval(n: L.Node): int
    requires IsArithmetic(n)
  {
    match n
    case Scalar(v) => IntOf(v)
    case NativeOp(op, left, right) =>
      if op == L.Neg then -Eval(left)
      else if op == L.Add then Eval(left) + Eval(right.value)
      else if op == L.Sub then Eval(left) - Eval(right.value)
      else Eval(left) * Eval(right.value)
  }

  /** The folded operands of an arithmetic operation fold to its value. */
  lemma EvaluateArithmetic(op: L.Op, a: Value, b: Value)
    requires IsInt(a) && IsInt(b) && op in {L.Add, L.Sub, L.Mul}
    ensures Evaluate(op, L.Scalar(a), Some(L.Scalar(b))) == Ok(Some(Ast.IntValue(
      if op == L.Add then IntOf(a) + IntOf(b) else if op == L.Sub then IntOf(a) - IntOf(b) else IntOf(a) * IntOf(b))))
  {
    assert IsMath(op) && op != L.Neg;
  }

  /** An arithmetic operation whose operands fold to integers folds to
      its value. */
  lemma FoldArithmeticStep(op: L.Op, left: L.Node, right: L.Node, a: Value, b: Value, s: Chain<Value>)
    requires s != [] && IsInt(a) && IsInt(b) && op in {L.Add, L.Sub, L.Mul}
    requires Fold(left, s) == Ok(Folded(L.Scalar(a), false, s))
    requires Fold(right, s) == Ok(Folded(L.Scalar(b), false, s))
    ensures FoldNativeOp(op, left, Some(right), s) == Ok(Folded(L.Scalar(Ast.IntValue(
      if op == L.Add then IntOf(a) + IntOf(b) else if op == L.Sub then IntOf(a) - IntOf(b) else IntOf(a) * IntOf(b))), false, s))
  {
    EvaluateArithmetic(op, a, b);
  }

  /** A negation whose operand folds to an integer folds to its opposite. */
  lemma FoldNegateStep(left: L.Node, a: Value, s: Chain<Value>)
    requires s != [] && IsInt(a)
    requires Fold(left, s) == Ok(Folded(L.Scalar(a), false, s))
    ensures FoldNativeOp(L.Neg, left, None, s) == Ok(Folded(L.Scalar(Ast.IntValue(-IntOf(a))), false, s))
  {
    assert Evaluate(L.Neg, L.Scalar(a), None) == Ok(Some(Ast.IntValue(-IntOf(a))));
  }

  /** Folding such an expression leaves the single integer it evaluates to,
      in any scope. */
  lemma {:induction false} FoldEvaluates(n: L.Node, s: Chain<Value>)
    requires s != [] && IsArithmetic(n)
    ensures Fold(n, s) == Ok(Folded(if n.Scalar? then n else L.Scalar(Ast.IntValue(Eval(n))), false, s))
  {
    if n.NativeOp? {
      var left := n.left;
      FoldEvaluates(left, s);
      var a := if left.Scalar? then left.scalar else Ast.IntValue(Eval(left));
      if n.right.Some? {
        var right := n.right.value;
        FoldEvaluates(right, s);
        var b := if right.Scalar? then right.scalar else Ast.IntValue(Eval(right));
        FoldArithmeticStep(n.operation, left, right, a, b, s);
      } else {
        FoldNegateStep(left, a, s);
      }
    }
  }
}
