/** The inline expander of `hanno/visitors/inline_expander.py`: functions
    whose bodies score low enough are substituted for their applications.
    `Finder` collects the functions of the tree, `generate_targets` keeps the
    cheap ones, and `Inliner` replaces each application of a kept function,
    or of a name defined as one, by the function's body with the argument in
    place of the parameter. */
module InlineExpansion {
  import opened Wrappers
  import L = Lowered

  /** `calc_threshold`: the highest score a function may have at an
      expansion level; level zero lifts the limit. */
  function Threshold(level: int): (r: int)
    ensures r == 0 <==> level == 0
    ensures level > 0 ==> r >= 20
    ensures level < 0 ==> r < 0
  {
    level * 20
  }

  /* ---------------------------------------------------------------- */
  /* Scorer                                                             */
  /* ---------------------------------------------------------------- */

  /** `Scorer`: the weight of a piece of the tree. Names, scalars and units
      weigh nothing; a list weighs 1 when its elements weigh nothing. */
  function Score(n: L.Node): nat
    decreases L.Depth(n), 0
  {
    match n
    case Apply(func, arg) => 2 + Score(func) + Score(arg)
    case Block(exprs, _) => 5 + ScoreAll(exprs)
    case Cond(pred, cons, elseBranch) => 6 + Score(pred) + Score(cons) + Score(elseBranch)
    case Define(_, value) => 4 + Score(value)
    case Function(_, body) => 7 + Score(body)
    case List(elements) =>
      var elementScore := ScoreAll(elements);
      if elementScore != 0 then 3 + elementScore else 1
    case Pair(first, second) => 2 + Score(first) + Score(second)
    case Name(_) => 0
    case NativeOp(_, left, right) => 1 + Score(left) + (if right.None? then 0 else Score(right.value))
    case Scalar(_) => 0
    case Unit => 0
  }

  /** `sum(expr.visit(self) for expr in ...)`. */
  function ScoreAll(nodes: seq<L.Node>): nat
    decreases L.DepthAll(nodes), 1, |nodes|
  {
    if nodes == [] then 0 else Score(nodes[0]) + ScoreAll(nodes[1..])
  }

  /** Names, scalars and units are the nodes that weigh nothing. */
  predicate IsLeaf(n: L.Node) {
    n.Name? || n.Scalar? || n.Unit?
  }

  /** The number of nodes of the tree that are not leaves. */
  function InnerNodes(n: L.Node): nat
    decreases L.Depth(n), 0
  {
    match n
    case Apply(func, arg) => 1 + InnerNodes(func) + InnerNodes(arg)
    case Block(exprs, _) => 1 + InnerNodesAll(exprs)
    case Cond(pred, cons, elseBranch) => 1 + InnerNodes(pred) + InnerNodes(cons) + InnerNodes(elseBranch)
    case Define(_, value) => 1 + InnerNodes(value)
    case Function(_, body) => 1 + InnerNodes(body)
    case List(elements) => 1 + InnerNodesAll(elements)
    case Pair(first, second) => 1 + InnerNodes(first) + InnerNodes(second)
    case NativeOp(_, left, right) => 1 + InnerNodes(left) + (if right.None? then 0 else InnerNodes(right.value))
    case _ => 0
  }

  function InnerNodesAll(nodes: seq<L.Node>): nat
    decreases L.DepthAll(nodes), 1, |nodes|
  {
    if nodes == [] then 0 else InnerNodes(nodes[0]) + InnerNodesAll(nodes[1..])
  }

  /** Every node that is not a leaf weighs at least 1 and at most 7, so a
      tree's score lies between its number of inner nodes and seven times
      that. */
  lemma {:induction false} ScoreBounds(n: L.Node)
    ensures InnerNodes(n) <= Score(n) <= 7 * InnerNodes(n)
    decreases L.Depth(n), 1
  {
    match n
    case Apply(func, arg) => ScoreBounds(func); ScoreBounds(arg);
    case Block(exprs, _) => ScoreAllBounds(exprs);
    case Cond(pred, cons, elseBranch) => ScoreBounds(pred); ScoreBounds(cons); ScoreBounds(elseBranch);
    case Define(_, value) => ScoreBounds(value);
    case Function(_, body) => ScoreBounds(body);
    case List(elements) => ScoreAllBounds(elements);
    case Pair(first, second) => ScoreBounds(first); ScoreBounds(second);
    case NativeOp(_, left, right) =>
      ScoreBounds(left);
      if right.Some? {
        ScoreBounds(right.value);
      }
    case _ =>
  }

  /** A tree weighs nothing exactly when it is a name, a scalar or a
      unit. */
  lemma ScoreZeroIffLeaf(n: L.Node)
    ensures Score(n) == 0 <==> IsLeaf(n)
  {
    ScoreBounds(n);
  }

  lemma {:induction false} ScoreAllBounds(nodes: seq<L.Node>)
    ensures InnerNodesAll(nodes) <= ScoreAll(nodes) <= 7 * InnerNodesAll(nodes)
    decreases L.DepthAll(nodes), 2, |nodes|
  {
    if nodes != [] {
      ScoreBounds(nodes[0]);
      ScoreAllBounds(nodes[1..]);
    }
  }

  /* ---------------------------------------------------------------- */
  /* Marks, free names and _Replacer                                    */
  /* ---------------------------------------------------------------- */

  /** The tree with every block's `merge_parent` mark cleared: what a
      visitor that rebuilds each block with `lowered.Block(...)` leaves. */
  function Erase(n: L.Node): (r: L.Node)
    decreases L.Depth(n), 0
  {
    match n
    case Apply(func, arg) => L.Apply(Erase(func), Erase(arg))
    case Block(exprs, _) => L.Block(EraseAll(exprs), false)
    case Cond(pred, cons, elseBranch) => L.Cond(Erase(pred), Erase(cons), Erase(elseBranch))
    case Define(target, value) => L.Define(target, Erase(value))
    case Function(param, body) => L.Function(param, Erase(body))
    case List(elements) => L.List(EraseAll(elements))
    case Pair(first, second) => L.Pair(Erase(first), Erase(second))
    case NativeOp(op, left, right) => L.NativeOp(op, Erase(left), if right.None? then None else Some(Erase(right.value)))
    case _ => n
  }

  function EraseAll(nodes: seq<L.Node>): (r: seq<L.Node>)
    ensures |r| == |nodes|
    decreases L.DepthAll(nodes), 1, |nodes|
  {
    if nodes == [] then [] else [Erase(nodes[0])] + EraseAll(nodes[1..])
  }

  /** Whether `x` occurs in `n` as a name that no enclosing function of `n`
      binds. */
  predicate FreeIn(n: L.Node, x: string)
    decreases L.Depth(n), 0
  {
    match n
    case Apply(func, arg) => FreeIn(func, x) || FreeIn(arg, x)
    case Block(exprs, _) => FreeInAll(exprs, x)
    case Cond(pred, cons, elseBranch) => FreeIn(pred, x) || FreeIn(cons, x) || FreeIn(elseBranch, x)
    case Define(_, value) => FreeIn(value, x)
    case Function(param, body) => param != x && FreeIn(body, x)
    case List(elements) => FreeInAll(elements, x)
    case Pair(first, second) => FreeIn(first, x) || FreeIn(second, x)
    case NativeOp(_, left, right) => FreeIn(left, x) || (right.Some? && FreeIn(right.value, x))
    case Name(name) => name == x
    case _ => false
  }

  predicate FreeInAll(nodes: seq<L.Node>, x: string)
    decreases L.DepthAll(nodes), 1, |nodes|
  {
    nodes != [] && (FreeIn(nodes[0], x) || FreeInAll(nodes[1..], x))
  }

  /** `_Replacer(param, arg)`: every name `param` becomes `arg`, except
      inside a function whose own parameter is `param`, which is kept as it
      is. */
  function Replace(n: L.Node, param: string, arg: L.Node): L.Node
    decreases L.Depth(n), 0
  {
    match n
    case Apply(func, a) => L.Apply(Replace(func, param, arg), Replace(a, param, arg))
    case Block(exprs, _) => L.Block(ReplaceAll(exprs, param, arg), false)
    case Cond(pred, cons, elseBranch) =>
      L.Cond(Replace(pred, param, arg), Replace(cons, param, arg), Replace(elseBranch, param, arg))
    case Define(target, value) => L.Define(target, Replace(value, param, arg))
    case Function(p, body) => if p == param then n else L.Function(p, Replace(body, param, arg))
    case List(elements) => L.List(ReplaceAll(elements, param, arg))
    case Pair(first, second) => L.Pair(Replace(first, param, arg), Replace(second, param, arg))
    case Name(name) => if name == param then arg else n
    case NativeOp(op, left, right) =>
      L.NativeOp(op, Replace(left, param, arg), if right.None? then None else Some(Replace(right.value, param, arg)))
    case Scalar(_) => n
    case Unit => n
  }

  function ReplaceAll(nodes: seq<L.Node>, param: string, arg: L.Node): (r: seq<L.Node>)
    ensures |r| == |nodes|
    decreases L.DepthAll(nodes), 1, |nodes|
  {
    if nodes == [] then [] else [Replace(nodes[0], param, arg)] + ReplaceAll(nodes[1..], param, arg)
  }

  /** `inline_function`: the function's body with the argument in place of
      its parameter. */
  function InlineFunction(func: L.Node, arg: L.Node): L.Node
    requires func.Function?
  {
    Replace(func.body, func.param, arg)
  }

  /** Replacing a name that is not free changes nothing but the marks. */
  lemma {:induction false} ReplaceNotFree(n: L.Node, x: string, arg: L.Node)
    requires !FreeIn(n, x)
    ensures Erase(Replace(n, x, arg)) == Erase(n)
    decreases L.Depth(n), 1
  {
    match n
    case Apply(func, a) => ReplaceNotFree(func, x, arg); ReplaceNotFree(a, x, arg);
    case Block(exprs, _) => ReplaceAllNotFree(exprs, x, arg);
    case Cond(pred, cons, elseBranch) =>
      ReplaceNotFree(pred, x, arg); ReplaceNotFree(cons, x, arg); ReplaceNotFree(elseBranch, x, arg);
    case Define(_, value) => ReplaceNotFree(value, x, arg);
    case Function(p, body) =>
      if p != x {
        ReplaceNotFree(body, x, arg);
      }
    case List(elements) => ReplaceAllNotFree(elements, x, arg);
    case Pair(first, second) => ReplaceNotFree(first, x, arg); ReplaceNotFree(second, x, arg);
    case NativeOp(_, left, right) =>
      ReplaceNotFree(left, x, arg);
      if right.Some? {
        ReplaceNotFree(right.value, x, arg);
      }
    case _ =>
  }

  lemma {:induction false} ReplaceAllNotFree(nodes: seq<L.Node>, x: string, arg: L.Node)
    requires !FreeInAll(nodes, x)
    ensures EraseAll(ReplaceAll(nodes, x, arg)) == EraseAll(nodes)
    decreases L.DepthAll(nodes), 2, |nodes|
  {
    if nodes != [] {
      var r := ReplaceAll(nodes, x, arg);
      assert r[0] == Replace(nodes[0], x, arg) && r[1..] == ReplaceAll(nodes[1..], x, arg);
      ReplaceNotFree(nodes[0], x, arg);
      ReplaceAllNotFree(nodes[1..], x, arg);
    }
  }

  /** Replacing a parameter by its own name changes nothing but the marks. */
  lemma {:induction false} ReplaceBySelf(n: L.Node, x: string)
    ensures Erase(Replace(n, x, L.Name(x))) == Erase(n)
    decreases L.Depth(n), 1
  {
    match n
    case Apply(func, a) => ReplaceBySelf(func, x); ReplaceBySelf(a, x);
    case Block(exprs, _) => ReplaceAllBySelf(exprs, x);
    case Cond(pred, cons, elseBranch) => ReplaceBySelf(pred, x); ReplaceBySelf(cons, x); ReplaceBySelf(elseBranch, x);
    case Define(_, value) => ReplaceBySelf(value, x);
    case Function(p, body) =>
      if p != x {
        ReplaceBySelf(body, x);
      }
    case List(elements) => ReplaceAllBySelf(elements, x);
    case Pair(first, second) => ReplaceBySelf(first, x); ReplaceBySelf(second, x);
    case NativeOp(_, left, right) =>
      ReplaceBySelf(left, x);
      if right.Some? {
        ReplaceBySelf(right.value, x);
      }
    case _ =>
  }

  lemma {:induction false} ReplaceAllBySelf(nodes: seq<L.Node>, x: string)
    ensures EraseAll(ReplaceAll(nodes, x, L.Name(x))) == EraseAll(nodes)
    decreases L.DepthAll(nodes), 2, |nodes|
  {
    if nodes != [] {
      var r := ReplaceAll(nodes, x, L.Name(x));
      assert r[0] == Replace(nodes[0], x, L.Name(x)) && r[1..] == ReplaceAll(nodes[1..], x, L.Name(x));
      ReplaceBySelf(nodes[0], x);
      ReplaceAllBySelf(nodes[1..], x);
    }
  }

  /** After the replacement the parameter is free only where the argument
      brings it, and every other free name comes from the tree or from the
      argument. */
  lemma {:induction false} ReplaceFreeNames(n: L.Node, x: string, arg: L.Node, y: string)
    ensures FreeIn(Replace(n, x, arg), y) ==> (y != x && FreeIn(n, y)) || FreeIn(arg, y)
    decreases L.Depth(n), 1
  {
    match n
    case Apply(func, a) => ReplaceFreeNames(func, x, arg, y); ReplaceFreeNames(a, x, arg, y);
    case Block(exprs, _) => ReplaceAllFreeNames(exprs, x, arg, y);
    case Cond(pred, cons, elseBranch) =>
      ReplaceFreeNames(pred, x, arg, y); ReplaceFreeNames(cons, x, arg, y); ReplaceFreeNames(elseBranch, x, arg, y);
    case Define(_, value) => ReplaceFreeNames(value, x, arg, y);
    case Function(p, body) =>
      if p != x {
        ReplaceFreeNames(body, x, arg, y);
      }
    case List(elements) => ReplaceAllFreeNames(elements, x, arg, y);
    case Pair(first, second) => ReplaceFreeNames(first, x, arg, y); ReplaceFreeNames(second, x, arg, y);
    case NativeOp(_, left, right) =>
      ReplaceFreeNames(left, x, arg, y);
      if right.Some? {
        ReplaceFreeNames(right.value, x, arg, y);
      }
    case _ =>
  }

  lemma {:induction false} ReplaceAllFreeNames(nodes: seq<L.Node>, x: string, arg: L.Node, y: string)
    ensures FreeInAll(ReplaceAll(nodes, x, arg), y) ==> (y != x && FreeInAll(nodes, y)) || FreeIn(arg, y)
    decreases L.DepthAll(nodes), 2, |nodes|
  {
    if nodes != [] {
      var r := ReplaceAll(nodes, x, arg);
      assert r[0] == Replace(nodes[0], x, arg) && r[1..] == ReplaceAll(nodes[1..], x, arg);
      ReplaceFreeNames(nodes[0], x, arg, y);
      ReplaceAllFreeNames(nodes[1..], x, arg, y);
    }
  }

  /* ---------------------------------------------------------------- */
  /* Finder                                                             */
  /* ---------------------------------------------------------------- */

  /** A `Function` node found in the tree, and whether it is the value of a
      `Define`. The source keeps the second fact as a set of the function
      objects themselves; here a function is known by its position. */
  datatype Candidate = Candidate(func: L.Node, defined: bool)

  /** The functions `Finder` collects, in the order it appends them: a
      function after every function inside its body. */
  function Candidates(n: L.Node): (r: seq<Candidate>)
    ensures n.Function? ==> r != [] && r[|r| - 1] == Candidate(n, false)
    decreases L.Depth(n), 0
  {
    match n
    case Apply(func, arg) => Candidates(func) + Candidates(arg)
    case Block(exprs, _) => CandidatesAll(exprs)
    case Cond(pred, cons, elseBranch) => Candidates(pred) + Candidates(cons) + Candidates(elseBranch)
    case Define(_, value) =>
      var found := Candidates(value);
      if value.Function? then found[..|found| - 1] + [Candidate(value, true)] else found
    case Function(_, body) => Candidates(body) + [Candidate(n, false)]
    case List(elements) => CandidatesAll(elements)
    case Pair(first, second) => Candidates(first) + Candidates(second)
    case NativeOp(_, left, right) => Candidates(left) + (if right.None? then [] else Candidates(right.value))
    case _ => []
  }

  function CandidatesAll(nodes: seq<L.Node>): seq<Candidate>
    decreases L.DepthAll(nodes), 1, |nodes|
  {
    if nodes == [] then [] else Candidates(nodes[0]) + CandidatesAll(nodes[1..])
  }

  predicate AllCandidatesFunctions(found: seq<Candidate>) {
    forall i | 0 <= i < |found| :: found[i].func.Function?
  }

  lemma ConcatFunctions(a: seq<Candidate>, b: seq<Candidate>)
    requires AllCandidatesFunctions(a) && AllCandidatesFunctions(b)
    ensures AllCandidatesFunctions(a + b)
  {
    forall i | 0 <= i < |a + b|
      ensures (a + b)[i].func.Function?
    {
      if i >= |a| {
        assert (a + b)[i] == b[i - |a|];
      }
    }
  }

  /** Every candidate is a `Function` node. */
  lemma {:induction false} CandidatesAreFunctions(n: L.Node)
    ensures AllCandidatesFunctions(Candidates(n))
    decreases L.Depth(n), 1
  {
    match n
    case Apply(func, arg) =>
      CandidatesAreFunctions(func); CandidatesAreFunctions(arg);
      ConcatFunctions(Candidates(func), Candidates(arg));
    case Block(exprs, _) => CandidatesAllAreFunctions(exprs);
    case Cond(pred, cons, elseBranch) =>
      CandidatesAreFunctions(pred); CandidatesAreFunctions(cons); CandidatesAreFunctions(elseBranch);
      ConcatFunctions(Candidates(pred), Candidates(cons));
      ConcatFunctions(Candidates(pred) + Candidates(cons), Candidates(elseBranch));
    case Define(_, value) =>
      CandidatesAreFunctions(value);
      if value.Function? {
        var found := Candidates(value);
        var k := |found| - 1;
        assert AllCandidatesFunctions(found[..k]) by {
          forall i | 0 <= i < k
            ensures found[..k][i].func.Function?
          {
            assert found[..k][i] == found[i];
          }
        }
        ConcatFunctions(found[..k], [Candidate(value, true)]);
      }
    case Function(_, body) =>
      CandidatesAreFunctions(body);
      ConcatFunctions(Candidates(body), [Candidate(n, false)]);
    case List(elements) => CandidatesAllAreFunctions(elements);
    case Pair(first, second) =>
      CandidatesAreFunctions(first); CandidatesAreFunctions(second);
      ConcatFunctions(Candidates(first), Candidates(second));
    case NativeOp(_, left, right) =>
      CandidatesAreFunctions(left);
      if right.Some? {
        CandidatesAreFunctions(right.value);
        ConcatFunctions(Candidates(left), Candidates(right.value));
      } else {
        assert Candidates(left) + [] == Candidates(left);
      }
    case _ =>
  }

  lemma {:induction false} CandidatesAllAreFunctions(nodes: seq<L.Node>)
    ensures AllCandidatesFunctions(CandidatesAll(nodes))
    decreases L.DepthAll(nodes), 2, |nodes|
  {
    if nodes != [] {
      CandidatesAreFunctions(nodes[0]);
      CandidatesAllAreFunctions(nodes[1..]);
      ConcatFunctions(Candidates(nodes[0]), CandidatesAll(nodes[1..]));
    }
  }

  /** `finder.funcs`. */
  function FuncsOf(found: seq<Candidate>): (r: seq<L.Node>)
    ensures |r| == |found|
  {
    seq(|found|, i requires 0 <= i < |found| => found[i].func)
  }

  /** `finder.defined_funcs`, as the positions in `funcs` counted from
      `offset`. */
  function DefinedPositions(found: seq<Candidate>, offset: nat): set<nat> {
    set i: nat | i < |found| && found[i].defined :: offset + i
  }

  /** The recorded positions are exactly those of the defined functions. */
  lemma DefinedPositionsExact(found: seq<Candidate>, offset: nat, i: nat)
    ensures i in DefinedPositions(found, offset) <==> offset <= i < offset + |found| && found[i - offset].defined
  {
    if offset <= i < offset + |found| && found[i - offset].defined {
      var j: nat := i - offset;
      assert offset + j in DefinedPositions(found, offset);
    }
  }

  /** `funcs` lists the candidates' functions in order. */
  lemma FuncsOfAt(found: seq<Candidate>, i: nat)
    requires i < |found|
    ensures FuncsOf(found)[i] == found[i].func
  {
  }

  lemma FuncsOfConcat(a: seq<Candidate>, b: seq<Candidate>)
    ensures FuncsOf(a + b) == FuncsOf(a) + FuncsOf(b)
  {
  }

  lemma DefinedPositionsConcat(a: seq<Candidate>, b: seq<Candidate>, offset: nat)
    ensures DefinedPositions(a + b, offset) == DefinedPositions(a, offset) + DefinedPositions(b, offset + |a|)
  {
    var left, right := DefinedPositions(a, offset), DefinedPositions(b, offset + |a|);
    forall k | k in DefinedPositions(a + b, offset)
      ensures k in left + right
    {
      var i: nat :| i < |a + b| && (a + b)[i].defined && k == offset + i;
      if i < |a| {
        assert a[i].defined;
      } else {
        var j: nat := i - |a|;
        assert b[j] == (a + b)[i];
        assert k == offset + |a| + j;
      }
    }
    forall k | k in left + right
      ensures k in DefinedPositions(a + b, offset)
    {
      if k in left {
        var i: nat :| i < |a| && a[i].defined && k == offset + i;
        assert (a + b)[i] == a[i];
      } else {
        var j: nat :| j < |b| && b[j].defined && k == offset + |a| + j;
        var i: nat := |a| + j;
        assert (a + b)[i] == b[j];
        assert k == offset + i;
      }
    }
  }

  /** `visit_define` marking its function: the last position becomes
      defined and `funcs` is unchanged. */
  lemma MarkLastDefined(found: seq<Candidate>, value: L.Node, offset: nat)
    requires found != [] && found[|found| - 1] == Candidate(value, false)
    ensures FuncsOf(found[..|found| - 1] + [Candidate(value, true)]) == FuncsOf(found)
    ensures DefinedPositions(found[..|found| - 1] + [Candidate(value, true)], offset)
            == DefinedPositions(found, offset) + {offset + |found| - 1}
  {
    var k := |found| - 1;
    assert found == found[..k] + [found[k]];
    DefinedPositionsConcat(found[..k], [Candidate(value, true)], offset);
    DefinedPositionsConcat(found[..k], [found[k]], offset);
    FuncsOfConcat(found[..k], [Candidate(value, true)]);
    FuncsOfConcat(found[..k], [found[k]]);
    SinglePosition(found[k], offset + k);
    SinglePosition(Candidate(value, true), offset + k);
  }

  lemma SinglePosition(c: Candidate, offset: nat)
    ensures DefinedPositions([c], offset) == if c.defined then {offset} else {}
  {
    forall x | x in DefinedPositions([c], offset)
      ensures x == offset && c.defined
    {
      DefinedPositionsExact([c], offset, x);
    }
    if c.defined {
      DefinedPositionsExact([c], offset, offset);
    }
  }

  /** `Finder`: collects the functions of the tree and the ones bound by a
      definition. */
  class Finder {
    var funcs: seq<L.Node>
    var definedFuncs: set<nat>

    constructor()
      ensures funcs == [] && definedFuncs == {}
    {
      funcs := [];
      definedFuncs := {};
    }

    /** Appends the functions of `n`; marks those bound by a definition. */
    method Visit(n: L.Node)
      modifies this
      ensures funcs == old(funcs) + FuncsOf(Candidates(n))
      ensures definedFuncs == old(definedFuncs) + DefinedPositions(Candidates(n), |old(funcs)|)
      decreases L.Depth(n), 1
    {
      match n
      case Apply(func, arg) => VisitBoth(func, arg);
      case Block(exprs, _) => VisitAll(exprs);
      case Cond(pred, cons, elseBranch) =>
        ghost var start, startDefined := funcs, definedFuncs;
        VisitBoth(pred, cons);
        Visit(elseBranch);
        Appended(start, startDefined, Candidates(pred) + Candidates(cons), Candidates(elseBranch));
      case Define(_, _) => VisitDefine(n);
      case Function(_, _) => VisitFunction(n);
      case List(elements) => VisitAll(elements);
      case Pair(first, second) => VisitBoth(first, second);
      case NativeOp(_, left, right) =>
        if right.Some? {
          VisitBoth(left, right.value);
        } else {
          Visit(left);
          assert Candidates(left) + [] == Candidates(left);
        }
      case _ =>
    }

    /** Two children visited in turn. */
    method VisitBoth(a: L.Node, b: L.Node)
      modifies this
      ensures funcs == old(funcs) + FuncsOf(Candidates(a) + Candidates(b))
      ensures definedFuncs == old(definedFuncs) + DefinedPositions(Candidates(a) + Candidates(b), |old(funcs)|)
      decreases L.Max(L.Depth(a), L.Depth(b)), 2
    {
      ghost var start, startDefined := funcs, definedFuncs;
      Visit(a);
      Visit(b);
      Appended(start, startDefined, Candidates(a), Candidates(b));
    }

    /** `visit_define`: the value's functions, and the value itself marked
      when it is a function. */
    method VisitDefine(n: L.Node)
      requires n.Define?
      modifies this
      ensures funcs == old(funcs) + FuncsOf(Candidates(n))
      ensures definedFuncs == old(definedFuncs) + DefinedPositions(Candidates(n), |old(funcs)|)
      decreases L.Depth(n), 0
    {
      ghost var start := funcs;
      var value := n.value;
      Visit(value);
      if value.Function? {
        definedFuncs := definedFuncs + {|funcs| - 1};
        MarkLastDefined(Candidates(value), value, |start|);
      }
    }

    /** `visit_function`: the body's functions, then the function. */
    method VisitFunction(n: L.Node)
      requires n.Function?
      modifies this
      ensures funcs == old(funcs) + FuncsOf(Candidates(n))
      ensures definedFuncs == old(definedFuncs) + DefinedPositions(Candidates(n), |old(funcs)|)
      decreases L.Depth(n), 0
    {
      ghost var start, startDefined := funcs, definedFuncs;
      Visit(n.body);
      funcs := funcs + [n];
      Appended(start, startDefined, Candidates(n.body), [Candidate(n, false)]);
    }

    /** The `for` loop of `visit_block` and `visit_list`. */
    method VisitAll(nodes: seq<L.Node>)
      modifies this
      ensures funcs == old(funcs) + FuncsOf(CandidatesAll(nodes))
      ensures definedFuncs == old(definedFuncs) + DefinedPositions(CandidatesAll(nodes), |old(funcs)|)
      decreases L.DepthAll(nodes), 2
    {
      ghost var start, startDefined := funcs, definedFuncs;
      ghost var done: seq<Candidate> := [];
      var i := 0;
      assert nodes[0..] == nodes;
      assert Recorded(start, startDefined, done, funcs, definedFuncs) by {
        assert FuncsOf([]) == [] && DefinedPositions([], |start|) == {};
      }
      while i < |nodes|
        invariant 0 <= i <= |nodes|
        invariant CandidatesAll(nodes) == done + CandidatesAll(nodes[i..])
        invariant Recorded(start, startDefined, done, funcs, definedFuncs)
      {
        L.DepthAllBounds(nodes, i);
        ghost var before, beforeDefined := funcs, definedFuncs;
        Visit(nodes[i]);
        RecordedStep(start, startDefined, done, Candidates(nodes[i]), before, beforeDefined, funcs, definedFuncs);
        CandidatesAllStep(nodes, i, done);
        done := done + Candidates(nodes[i]);
        i := i + 1;
      }
      assert CandidatesAll(nodes[i..]) == [] && done + [] == done;
    }
  }

  lemma CandidatesAllStep(nodes: seq<L.Node>, i: nat, done: seq<Candidate>)
    requires i < |nodes|
    ensures done + CandidatesAll(nodes[i..]) == (done + Candidates(nodes[i])) + CandidatesAll(nodes[i + 1..])
  {
    assert nodes[i..][0] == nodes[i] && nodes[i..][1..] == nodes[i + 1..];
  }

  /** The functions `done` recorded after `start`. */
  ghost predicate Recorded(start: seq<L.Node>, startDefined: set<nat>, done: seq<Candidate>, funcs: seq<L.Node>, defined: set<nat>) {
    funcs == start + FuncsOf(done) && defined == startDefined + DefinedPositions(done, |start|)
  }

  lemma RecordedStep(start: seq<L.Node>, startDefined: set<nat>, done: seq<Candidate>, found: seq<Candidate>,
                     funcs: seq<L.Node>, defined: set<nat>, funcs': seq<L.Node>, defined': set<nat>)
    requires Recorded(start, startDefined, done, funcs, defined)
    requires funcs' == funcs + FuncsOf(found) && defined' == defined + DefinedPositions(found, |funcs|)
    ensures Recorded(start, startDefined, done + found, funcs', defined')
  {
    Appended(start, startDefined, done, found);
  }

  /** Recording `a` and then `b` records `a + b`. */
  lemma Appended(start: seq<L.Node>, startDefined: set<nat>, a: seq<Candidate>, b: seq<Candidate>)
    ensures start + FuncsOf(a) + FuncsOf(b) == start + FuncsOf(a + b)
    ensures startDefined + DefinedPositions(a, |start|) + DefinedPositions(b, |start + FuncsOf(a)|)
            == startDefined + DefinedPositions(a + b, |start|)
  {
    FuncsOfConcat(a, b);
    DefinedPositionsConcat(a, b, |start|);
    assert |start + FuncsOf(a)| == |start| + |a|;
  }

  /* ---------------------------------------------------------------- */
  /* generate_targets                                                   */
  /* ---------------------------------------------------------------- */

  predicate AllFunctions(funcs: seq<L.Node>) {
    forall i | 0 <= i < |funcs| :: funcs[i].Function?
  }

  /** A function's total score: its body's, plus 1 when a definition binds
      it and 3 otherwise. */
  function FunctionScore(func: L.Node, defined: bool): nat
    requires func.Function?
  {
    Score(func.body) + if defined then 1 else 3
  }

  /** Whether a score is allowed: a threshold of 0 allows every score. */
  predicate Kept(score: nat, threshold: int) {
    threshold == 0 || score <= threshold
  }

  /** The functions `generate_targets` keeps, in their order in `funcs`. */
  function Selected(funcs: seq<L.Node>, defined: set<nat>, threshold: int): seq<L.Node>
    requires AllFunctions(funcs)
    decreases |funcs|
  {
    if funcs == [] then []
    else
      var k := |funcs| - 1;
      Selected(funcs[..k], defined, threshold)
      + if Kept(FunctionScore(funcs[k], k in defined), threshold) then [funcs[k]] else []
  }

  /** Every function kept is at a position whose score the threshold
      allows. */
  lemma {:induction false} SelectedSound(funcs: seq<L.Node>, defined: set<nat>, threshold: int, f: L.Node) returns (i: nat)
    requires AllFunctions(funcs) && f in Selected(funcs, defined, threshold)
    ensures i < |funcs| && funcs[i] == f && Kept(FunctionScore(f, i in defined), threshold)
    decreases |funcs|
  {
    var k := |funcs| - 1;
    if f in Selected(funcs[..k], defined, threshold) {
      i := SelectedSound(funcs[..k], defined, threshold, f);
      assert funcs[..k][i] == funcs[i];
    } else {
      i := k;
    }
  }

  /** Every function at a position whose score the threshold allows is
      kept. */
  lemma {:induction false} SelectedComplete(funcs: seq<L.Node>, defined: set<nat>, threshold: int, i: nat)
    requires AllFunctions(funcs) && i < |funcs| && Kept(FunctionScore(funcs[i], i in defined), threshold)
    ensures funcs[i] in Selected(funcs, defined, threshold)
    decreases |funcs|
  {
    var k := |funcs| - 1;
    if i < k {
      assert funcs[..k][i] == funcs[i];
      SelectedComplete(funcs[..k], defined, threshold, i);
    }
  }

  /** With a threshold of 0 every function is kept. */
  lemma {:induction false} SelectedAll(funcs: seq<L.Node>, defined: set<nat>)
    requires AllFunctions(funcs)
    ensures Selected(funcs, defined, 0) == funcs
    decreases |funcs|
  {
    if funcs != [] {
      var k := |funcs| - 1;
      SelectedAll(funcs[..k], defined);
      assert funcs[..k] + [funcs[k]] == funcs;
    }
  }

  /** A negative threshold keeps nothing. */
  lemma {:induction false} SelectedNone(funcs: seq<L.Node>, defined: set<nat>, threshold: int)
    requires AllFunctions(funcs) && threshold < 0
    ensures Selected(funcs, defined, threshold) == []
    decreases |funcs|
  {
    if funcs != [] {
      SelectedNone(funcs[..|funcs| - 1], defined, threshold);
    }
  }

  /** `generate_targets`. */
  method GenerateTargets(funcs: seq<L.Node>, defined: set<nat>, threshold: int) returns (targets: seq<L.Node>)
    requires AllFunctions(funcs)
    ensures targets == Selected(funcs, defined, threshold)
  {
    var allowAll := threshold == 0;
    targets := [];
    var i := 0;
    while i < |funcs|
      invariant 0 <= i <= |funcs|
      invariant targets == Selected(funcs[..i], defined, threshold)
    {
      var score := Score(funcs[i].body);
      score := score + if i in defined then 1 else 3;
      assert funcs[..i + 1][..i] == funcs[..i];
      if allowAll || score <= threshold {
        targets := targets + [funcs[i]];
      }
      i := i + 1;
    }
    assert funcs[..|funcs|] == funcs;
  }

  /* ---------------------------------------------------------------- */
  /* Inliner                                                            */
  /* ---------------------------------------------------------------- */

  /** `any(node == target for target in targets)`, blocks compared as
      written (`zipBlocks`) or as intended. */
  predicate AnyEq(n: L.Node, targets: seq<L.Node>, zipBlocks: bool)
    decreases |targets|
  {
    targets != [] && (L.Eq(n, targets[0], zipBlocks) || AnyEq(n, targets[1..], zipBlocks))
  }

  /** `is_target` as written: a function equal, by `==` of
      `hanno/asts/lowered.py`, to one of the targets. */
  predicate IsTargetAsWritten(n: L.Node, targets: seq<L.Node>) {
    n.Function? && AnyEq(n, targets, true)
  }

  /** `is_target` with blocks compared by their whole bodies. */
  predicate IsTarget(n: L.Node, targets: seq<L.Node>) {
    n.Function? && AnyEq(n, targets, false)
  }

  /** A node equal to a target is equal to one of its elements. */
  lemma {:induction false} AnyEqWitness(n: L.Node, targets: seq<L.Node>, zipBlocks: bool) returns (t: L.Node)
    requires AnyEq(n, targets, zipBlocks)
    ensures t in targets && L.Eq(n, t, zipBlocks)
    decreases |targets|
  {
    if L.Eq(n, targets[0], zipBlocks) {
      t := targets[0];
    } else {
      t := AnyEqWitness(n, targets[1..], zipBlocks);
    }
  }

  /** Two nodes are equal only when the first one's own `__eq__` says so:
      no reflected comparison ever answers true. */
  lemma OwnEqHolds(a: L.Node, b: L.Node, zipBlocks: bool)
    requires L.Eq(a, b, zipBlocks)
    ensures L.OwnEq(a, b, zipBlocks) == Some(true)
  {
  }

  /** Nodes equal as intended weigh the same. */
  lemma {:induction false} IntendedEqScore(a: L.Node, b: L.Node)
    requires L.IntendedEq(a, b)
    ensures Score(a) == Score(b)
    decreases L.Depth(a) + L.Depth(b), 1
  {
    OwnEqHolds(a, b, false);
    match a
    case Apply(func, arg) =>
      assert b.Apply?;
      IntendedEqScore(func, b.func);
      IntendedEqScore(arg, b.arg);
    case Block(body, _) =>
      assert b.Block? && L.TupleEq(body, b.exprs, false);
      TupleEqScore(body, b.exprs);
    case Cond(pred, cons, elseBranch) =>
      assert b.Cond?;
      IntendedEqScore(pred, b.pred);
      IntendedEqScore(cons, b.cons);
      IntendedEqScore(elseBranch, b.elseBranch);
    case Define(_, value) =>
      assert b.Define?;
      IntendedEqScore(value, b.value);
    case Function(_, body) =>
      assert b.Function?;
      IntendedEqScore(body, b.body);
    case List(elements) =>
      assert b.List? && L.TupleEq(elements, b.elements, false);
      TupleEqScore(elements, b.elements);
    case Pair(first, second) =>
      assert b.Pair?;
      IntendedEqScore(first, b.first);
      IntendedEqScore(second, b.second);
    case NativeOp(_, left, right) =>
      assert b.NativeOp? && L.OptionEq(right, b.right, false);
      IntendedEqScore(left, b.left);
      if right.Some? {
        IntendedEqScore(right.value, b.right.value);
      }
    case Name(_) => assert b.Name?;
    case Scalar(_) => assert b.Scalar?;
    case Unit => assert b.Unit?;
  }

  lemma {:induction false} TupleEqScore(xs: seq<L.Node>, ys: seq<L.Node>)
    requires L.TupleEq(xs, ys, false)
    ensures ScoreAll(xs) == ScoreAll(ys)
    decreases L.DepthAll(xs) + L.DepthAll(ys), 2, |xs|
  {
    if xs != [] {
      IntendedEqScore(xs[0], ys[0]);
      TupleEqScore(xs[1..], ys[1..]);
    }
  }

  /** Compared as intended, a function that is a target of
      `generate_targets` with a positive threshold scores within it: every
      function inlined is as cheap as the threshold allows. */
  lemma TargetsAreCheap(f: L.Node, funcs: seq<L.Node>, defined: set<nat>, threshold: int)
    requires AllFunctions(funcs) && threshold > 0
    requires IsTarget(f, Selected(funcs, defined, threshold))
    ensures Score(f.body) + 1 <= threshold
  {
    var t := AnyEqWitness(f, Selected(funcs, defined, threshold), false);
    var i := SelectedSound(funcs, defined, threshold, t);
    IntendedEqScore(f, t);
  }

  /** As written, a function whose body merely begins like a cheap
      target's is a target too, however much more it holds. */
  lemma TargetsAsWrittenNotCheap(x: string)
    ensures var small := L.Function(x, L.Block([L.Name(x)], false));
            var heavy := L.Function(x, L.Function(x, L.Function(x, L.Unit)));
            var big := L.Function(x, L.Block([L.Name(x), heavy], false));
            Selected([small, big], {}, 20) == [small]
            && IsTargetAsWritten(big, [small]) && Score(big.body) + 1 > 20
            && !IsTarget(big, [small])
  {
    var small := L.Function(x, L.Block([L.Name(x)], false));
    var heavy := L.Function(x, L.Function(x, L.Function(x, L.Unit)));
    var big := L.Function(x, L.Block([L.Name(x), heavy], false));
    ExampleScores(x, small, heavy, big);
    ExampleSelected(small, big);
    ExampleEquality(x, small, heavy, big);
  }

  lemma ExampleScores(x: string, small: L.Node, heavy: L.Node, big: L.Node)
    requires small == L.Function(x, L.Block([L.Name(x)], false))
    requires heavy == L.Function(x, L.Function(x, L.Function(x, L.Unit)))
    requires big == L.Function(x, L.Block([L.Name(x), heavy], false))
    ensures Score(small.body) == 5 && Score(big.body) == 26
  {
    assert ScoreAll([L.Name(x)]) == 0 by {
      assert [L.Name(x)][1..] == [];
    }
    assert Score(L.Function(x, L.Unit)) == 7;
    assert Score(L.Function(x, L.Function(x, L.Unit))) == 14;
    assert Score(heavy) == 21;
    assert ScoreAll([L.Name(x), heavy]) == 21 by {
      assert [L.Name(x), heavy][1..] == [heavy] && [heavy][1..] == [];
    }
  }

  lemma ExampleSelected(small: L.Node, big: L.Node)
    requires small.Function? && big.Function? && Score(small.body) == 5 && Score(big.body) == 26
    ensures Selected([small, big], {}, 20) == [small]
  {
    assert [small, big][..1] == [small] && [small][..0] == [];
    assert Selected([small], {}, 20) == [small];
    assert !Kept(FunctionScore(big, 1 in {}), 20);
  }

  lemma ExampleEquality(x: string, small: L.Node, heavy: L.Node, big: L.Node)
    requires small == L.Function(x, L.Block([L.Name(x)], false))
    requires big == L.Function(x, L.Block([L.Name(x), heavy], false))
    ensures IsTargetAsWritten(big, [small]) && !IsTarget(big, [small])
  {
    L.EqReflexive(L.Name(x), true);
    assert [L.Name(x), heavy][1..] == [heavy] && [L.Name(x)][1..] == [];
    assert L.ZipEq([L.Name(x), heavy], [L.Name(x)], true);
    assert L.OwnEq(big.body, small.body, true) == Some(true);
    assert L.OwnEq(big, small, true) == Some(true);
    assert [small][1..] == [] && [small][0] == small;
    assert AnyEq(big, [small], true);
    assert L.OwnEq(big, small, false) == Some(L.Eq(big.body, small.body, false));
    L.IntendedBlocksDiffer([L.Name(x), heavy], [L.Name(x)], false, false);
    assert !AnyEq(big, [], false);
  }

  /** A node after inlining, with the scope of the functions defined so far
      that are targets. The scope is the single `Scope(None)` of the
      inliner: it is never entered or left, so a definition anywhere stays
      visible to the rest of the traversal. */
  datatype Inlined = Inlined(node: L.Node, scope: map<string, L.Node>)

  /** `name_is_target`: the name is bound to a target. */
  predicate NameIsTarget(name: string, scope: map<string, L.Node>, targets: seq<L.Node>) {
    name in scope && IsTarget(scope[name], targets)
  }

  /** What `visit_apply` makes of the visited function and argument: the
      inlined body for a target or a name bound to one, else the
      application. */
  function Applied(func: L.Node, arg: L.Node, scope: map<string, L.Node>, targets: seq<L.Node>): L.Node {
    if IsTarget(func, targets) then InlineFunction(func, arg)
    else if func.Name? && NameIsTarget(func.name, scope, targets) then InlineFunction(scope[func.name], arg)
    else L.Apply(func, arg)
  }

  /** `Inliner.visit`: children first, left to right; an application of a
      target, or of a name bound to one, becomes the target's body with the
      argument in place of the parameter, and a definition whose value is a
      target binds its name to it. */
  function Inline(n: L.Node, scope: map<string, L.Node>, targets: seq<L.Node>): Inlined
    decreases n, 0
  {
    match n
    case Apply(func, arg) =>
      var f := Inline(func, scope, targets);
      var a := Inline(arg, f.scope, targets);
      Inlined(Applied(f.node, a.node, a.scope, targets), a.scope)
    case Block(exprs, _) =>
      var (body, s) := InlineAll(exprs, scope, targets);
      Inlined(L.Block(body, false), s)
    case Cond(pred, cons, elseBranch) =>
      var p := Inline(pred, scope, targets);
      var c := Inline(cons, p.scope, targets);
      var e := Inline(elseBranch, c.scope, targets);
      Inlined(L.Cond(p.node, c.node, e.node), e.scope)
    case Define(target, value) =>
      var v := Inline(value, scope, targets);
      Inlined(L.Define(target, v.node), if IsTarget(v.node, targets) then v.scope[target := v.node] else v.scope)
    case Function(param, body) =>
      var b := Inline(body, scope, targets);
      Inlined(L.Function(param, b.node), b.scope)
    case List(elements) =>
      var (es, s) := InlineAll(elements, scope, targets);
      Inlined(L.List(es), s)
    case Pair(first, second) =>
      var f := Inline(first, scope, targets);
      var s := Inline(second, f.scope, targets);
      Inlined(L.Pair(f.node, s.node), s.scope)
    case NativeOp(op, left, right) =>
      var l := Inline(left, scope, targets);
      if right.None? then Inlined(L.NativeOp(op, l.node, None), l.scope)
      else
        var r := Inline(right.value, l.scope, targets);
        Inlined(L.NativeOp(op, l.node, Some(r.node)), r.scope)
    case _ => Inlined(n, scope)
  }

  function InlineAll(nodes: seq<L.Node>, scope: map<string, L.Node>, targets: seq<L.Node>): (seq<L.Node>, map<string, L.Node>)
    decreases nodes, 1
  {
    if nodes == [] then ([], scope)
    else
      var first := Inline(nodes[0], scope, targets);
      var (rest, s) := InlineAll(nodes[1..], first.scope, targets);
      ([first.node] + rest, s)
  }

  /** Every name in the scope is bound to a target. */
  predicate BindsTargets(scope: map<string, L.Node>, targets: seq<L.Node>) {
    forall name | name in scope :: IsTarget(scope[name], targets)
  }

  /** Inlining binds names to targets only. */
  lemma {:induction false} InlineBindsTargets(n: L.Node, scope: map<string, L.Node>, targets: seq<L.Node>)
    requires BindsTargets(scope, targets)
    ensures BindsTargets(Inline(n, scope, targets).scope, targets)
    decreases L.Depth(n), 1
  {
    match n
    case Apply(func, arg) =>
      InlineBindsTargets(func, scope, targets);
      InlineBindsTargets(arg, Inline(func, scope, targets).scope, targets);
    case Block(exprs, _) => InlineAllBindsTargets(exprs, scope, targets);
    case Cond(pred, cons, elseBranch) =>
      var p := Inline(pred, scope, targets);
      InlineBindsTargets(pred, scope, targets);
      InlineBindsTargets(cons, p.scope, targets);
      InlineBindsTargets(elseBranch, Inline(cons, p.scope, targets).scope, targets);
    case Define(_, value) => InlineBindsTargets(value, scope, targets);
    case Function(_, body) => InlineBindsTargets(body, scope, targets);
    case List(elements) => InlineAllBindsTargets(elements, scope, targets);
    case Pair(first, second) =>
      InlineBindsTargets(first, scope, targets);
      InlineBindsTargets(second, Inline(first, scope, targets).scope, targets);
    case NativeOp(_, left, right) =>
      InlineBindsTargets(left, scope, targets);
      if right.Some? {
        InlineBindsTargets(right.value, Inline(left, scope, targets).scope, targets);
      }
    case _ =>
  }

  lemma {:induction false} InlineAllBindsTargets(nodes: seq<L.Node>, scope: map<string, L.Node>, targets: seq<L.Node>)
    requires BindsTargets(scope, targets)
    ensures BindsTargets(InlineAll(nodes, scope, targets).1, targets)
    decreases L.DepthAll(nodes), 2, |nodes|
  {
    if nodes != [] {
      InlineBindsTargets(nodes[0], scope, targets);
      InlineAllBindsTargets(nodes[1..], Inline(nodes[0], scope, targets).scope, targets);
    }
  }

  /** Without targets nothing is inlined and nothing is bound: only the
      blocks are rebuilt, without their marks. */
  lemma {:induction false} InlineNothing(n: L.Node, scope: map<string, L.Node>)
    ensures Inline(n, scope, []) == Inlined(Erase(n), scope)
    decreases L.Depth(n), 1
  {
    match n
    case Apply(func, arg) => InlineNothing(func, scope); InlineNothing(arg, scope);
    case Block(exprs, _) => InlineAllNothing(exprs, scope);
    case Cond(pred, cons, elseBranch) => InlineNothing(pred, scope); InlineNothing(cons, scope); InlineNothing(elseBranch, scope);
    case Define(_, value) => InlineNothing(value, scope);
    case Function(_, body) => InlineNothing(body, scope);
    case List(elements) => InlineAllNothing(elements, scope);
    case Pair(first, second) => InlineNothing(first, scope); InlineNothing(second, scope);
    case NativeOp(_, left, right) =>
      InlineNothing(left, scope);
      if right.Some? {
        InlineNothing(right.value, scope);
      }
    case _ =>
  }

  lemma {:induction false} InlineAllNothing(nodes: seq<L.Node>, scope: map<string, L.Node>)
    ensures InlineAll(nodes, scope, []) == (EraseAll(nodes), scope)
    decreases L.DepthAll(nodes), 2, |nodes|
  {
    if nodes != [] {
      InlineNothing(nodes[0], scope);
      InlineAllNothing(nodes[1..], scope);
    }
  }

  /** Applying a name bound to a target, to a name, scalar or unit, gives
      the target's body with the argument in place of its parameter. */
  lemma InlineNamedApplication(f: string, arg: L.Node, scope: map<string, L.Node>, targets: seq<L.Node>)
    requires IsLeaf(arg) && NameIsTarget(f, scope, targets)
    ensures Inline(L.Apply(L.Name(f), arg), scope, targets) == Inlined(InlineFunction(scope[f], arg), scope)
  {
  }

  /** `Inliner`: the targets it was given and the scope it fills in. */
  class Inliner {
    var currentScope: map<string, L.Node>
    const targets: seq<L.Node>

    constructor(targets: seq<L.Node>)
      ensures currentScope == map[] && this.targets == targets
    {
      currentScope := map[];
      this.targets := targets;
    }

    method Visit(n: L.Node) returns (r: L.Node)
      modifies this
      ensures Inlined(r, currentScope) == Inline(n, old(currentScope), targets)
      decreases L.Depth(n), 1
    {
      match n
      case Apply(_, _) => r := VisitApply(n);
      case Block(exprs, _) =>
        var body := VisitAll(exprs);
        r := L.Block(body, false);
      case Cond(pred, cons, elseBranch) =>
        var p := Visit(pred);
        var c := Visit(cons);
        var e := Visit(elseBranch);
        r := L.Cond(p, c, e);
      case Define(_, _) => r := VisitDefine(n);
      case Function(param, body) =>
        var b := Visit(body);
        r := L.Function(param, b);
      case List(elements) =>
        var es := VisitAll(elements);
        r := L.List(es);
      case Pair(first, second) =>
        var f := Visit(first);
        var s := Visit(second);
        r := L.Pair(f, s);
      case NativeOp(op, left, right) =>
        var l := Visit(left);
        if right.None? {
          r := L.NativeOp(op, l, None);
        } else {
          var rr := Visit(right.value);
          r := L.NativeOp(op, l, Some(rr));
        }
      case _ => r := n;
    }

    /** `visit_apply`. */
    method VisitApply(n: L.Node) returns (r: L.Node)
      requires n.Apply?
      modifies this
      ensures Inlined(r, currentScope) == Inline(n, old(currentScope), targets)
      decreases L.Depth(n), 0
    {
      var func := Visit(n.func);
      var arg := Visit(n.arg);
      if IsTarget(func, targets) {
        return InlineFunction(func, arg);
      }
      if func.Name? && NameIsTarget(func.name, currentScope, targets) {
        return InlineFunction(currentScope[func.name], arg);
      }
      return L.Apply(func, arg);
    }

    /** `visit_define`. */
    method VisitDefine(n: L.Node) returns (r: L.Node)
      requires n.Define?
      modifies this
      ensures Inlined(r, currentScope) == Inline(n, old(currentScope), targets)
      decreases L.Depth(n), 0
    {
      var value := Visit(n.value);
      if IsTarget(value, targets) {
        currentScope := currentScope[n.target := value];
      }
      return L.Define(n.target, value);
    }

    /** The list comprehensions of `visit_block` and `visit_list`. */
    method VisitAll(nodes: seq<L.Node>) returns (rs: seq<L.Node>)
      modifies this
      ensures (rs, currentScope) == InlineAll(nodes, old(currentScope), targets)
      decreases L.DepthAll(nodes), 2
    {
      rs := [];
      var i := 0;
      assert nodes[0..] == nodes;
      assert [] + InlineAll(nodes, currentScope, targets).0 == InlineAll(nodes, currentScope, targets).0;
      while i < |nodes|
        invariant 0 <= i <= |nodes|
        invariant InlineAll(nodes, old(currentScope), targets) == Joined(rs, InlineAll(nodes[i..], currentScope, targets))
      {
        L.DepthAllBounds(nodes, i);
        assert nodes[i..][0] == nodes[i] && nodes[i..][1..] == nodes[i + 1..];
        var e := Visit(nodes[i]);
        JoinedStep(rs, e, InlineAll(nodes[i + 1..], currentScope, targets));
        rs := rs + [e];
        i := i + 1;
      }
      assert rs + [] == rs;
    }
  }

  /** Inlined nodes in front of the inlined rest. */
  function Joined(done: seq<L.Node>, rest: (seq<L.Node>, map<string, L.Node>)): (seq<L.Node>, map<string, L.Node>) {
    (done + rest.0, rest.1)
  }

  lemma JoinedStep(done: seq<L.Node>, e: L.Node, rest: (seq<L.Node>, map<string, L.Node>))
    ensures Joined(done, ([e] + rest.0, rest.1)) == Joined(done + [e], rest)
  {
    assert done + ([e] + rest.0) == done + [e] + rest.0;
  }

  /* ---------------------------------------------------------------- */
  /* expand_inline                                                      */
  /* ---------------------------------------------------------------- */

  lemma FuncsOfFunctions(found: seq<Candidate>)
    requires AllCandidatesFunctions(found)
    ensures AllFunctions(FuncsOf(found))
  {
  }

  /** The targets of a tree at an expansion level. */
  function TargetsOf(tree: L.Node, level: int): seq<L.Node> {
    var found := Candidates(tree);
    CandidatesAreFunctions(tree);
    FuncsOfFunctions(found);
    Selected(FuncsOf(found), DefinedPositions(found, 0), Threshold(level))
  }

  /** `expand_inline`: the functions found, the cheap ones chosen, and the
      tree inlined with them. */
  method ExpandInline(tree: L.Node, level: int) returns (r: L.Node)
    ensures r == Inline(tree, map[], TargetsOf(tree, level)).node
  {
    var finder := new Finder();
    finder.Visit(tree);
    assert finder.funcs == FuncsOf(Candidates(tree)) && finder.definedFuncs == DefinedPositions(Candidates(tree), 0);
    CandidatesAreFunctions(tree);
    FuncsOfFunctions(Candidates(tree));
    var threshold := Threshold(level);
    var targets := GenerateTargets(finder.funcs, finder.definedFuncs, threshold);
    var inliner := new Inliner(targets);
    r := inliner.Visit(tree);
  }

  /** A negative level inlines nothing. */
  lemma NegativeLevelInlinesNothing(tree: L.Node, level: int)
    requires level < 0
    ensures Inline(tree, map[], TargetsOf(tree, level)) == Inlined(Erase(tree), map[])
  {
    var found := Candidates(tree);
    CandidatesAreFunctions(tree);
    FuncsOfFunctions(found);
    SelectedNone(FuncsOf(found), DefinedPositions(found, 0), Threshold(level));
    InlineNothing(tree, map[]);
  }

  /** Level zero makes every function of the tree a target. */
  lemma LevelZeroTargetsAll(tree: L.Node)
    ensures TargetsOf(tree, 0) == FuncsOf(Candidates(tree))
  {
    var found := Candidates(tree);
    CandidatesAreFunctions(tree);
    FuncsOfFunctions(found);
    SelectedAll(FuncsOf(found), DefinedPositions(found, 0));
  }

  /** At a positive level every function inlined scores within the
      threshold. */
  lemma InlinedFunctionsCheap(tree: L.Node, level: int, f: L.Node)
    requires level > 0 && IsTarget(f, TargetsOf(tree, level))
    ensures Score(f.body) + 1 <= Threshold(level)
  {
    var found := Candidates(tree);
    CandidatesAreFunctions(tree);
    FuncsOfFunctions(found);
    TargetsAreCheap(f, FuncsOf(found), DefinedPositions(found, 0), Threshold(level));
  }
}
