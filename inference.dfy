/** Type inference over the surface tree (`hanno/type_inference/main.py`):
    a generator that walks the tree giving every node a type and collecting
    type equations, the solving of those equations with the unification
    engine, and the pass that writes the solution back into the tree. */
module Inference {
  import opened Wrappers
  import opened Errors
  import opened Types
  import opened Ast
  import opened Scopes
  import opened Unification
  import opened Unifier

  /** A tree node with its type. A definition's target and a function's
      parameter are names; the target's type is the definition's own. */
  datatype TNode =
    | TApply(ty: Type, func: TNode, arg: TNode)
    | TBlock(ty: Type, exprs: seq<TNode>)
    | TCond(ty: Type, pred: TNode, cons: TNode, elseBranch: TNode)
    | TDefine(ty: Type, target: string, value: TNode)
    | TFunction(ty: Type, param: string, paramType: Type, body: TNode)
    | TList(ty: Type, elements: seq<TNode>)
    | TPair(ty: Type, first: TNode, second: TNode)
    | TName(ty: Type, name: string)
    | TScalar(ty: Type, scalar: Value)
    | TUnit

  function TypeOf(n: TNode): Type {
    if n.TUnit? then UnitType else n.ty
  }

  /** The equation `left ~ right`. */
  type Equation = (Type, Type)

  /** The type given to the program's `main`: `List[String] -> Int`. */
  const MainType: Type := Func(TypeApply(TypeName("List"), TypeName("String")), TypeName("Int"))

  /** The name a definition target or a function parameter is stored
      under: a free or pinned name gives its text; every other pattern
      raises AttributeError. A scalar pattern, which also has a `value`,
      is among the latter here (see the README's "Left out"). */
  function PatternName(p: Pattern): (r: Result<string, CompilerError>)
    ensures r.Ok? <==> p.FreeName? || p.PinnedName?
    ensures r.Ok? ==> r.value == p.name
    ensures r.Err? ==> r.error == AttributeError
  {
    if p.FreeName? || p.PinnedName? then Ok(p.name) else Err(AttributeError)
  }

  /** The scopes of `b` from the `k`-th outwards bind the same names as
      those of `a`. */
  predicate SameNamesFrom(a: Chain<Type>, b: Chain<Type>, k: nat) {
    |a| == |b| && forall i :: k <= i < |a| ==> a[i].Keys == b[i].Keys
  }

  /** Every definition's type is the generalised type of its value, as the
      generator gives it. */
  predicate DefinesGeneralised(t: TNode) {
    match t
    case TApply(_, f, a) => DefinesGeneralised(f) && DefinesGeneralised(a)
    case TBlock(_, exprs) => forall i :: 0 <= i < |exprs| ==> DefinesGeneralised(exprs[i])
    case TCond(_, p, c, e) => DefinesGeneralised(p) && DefinesGeneralised(c) && DefinesGeneralised(e)
    case TDefine(ty, _, value) => ty == Generalise(TypeOf(value)) && DefinesGeneralised(value)
    case TFunction(_, _, _, body) => DefinesGeneralised(body)
    case TList(_, elements) => forall i :: 0 <= i < |elements| ==> DefinesGeneralised(elements[i])
    case TPair(_, f, s) => DefinesGeneralised(f) && DefinesGeneralised(s)
    case _ => true
  }

  /** A node whose type, as the generator gives it, holds no scheme: no
      definition stands where its generalised type would become part of
      another type or of an equation. Inside a block, definitions may stand
      anywhere but last. */
  predicate Plain(n: Node)
    decreases n, 0
  {
    match n
    case Apply(f, a) => Plain(f) && Plain(a)
    case Block(exprs) =>
      forall i :: 0 <= i < |exprs| ==> if i == |exprs| - 1 then Plain(exprs[i]) else Statement(exprs[i])
    case Cond(p, c, e) => Plain(p) && Plain(c) && Plain(e)
    case Define(_, _) => false
    case Function(_, body) => Plain(body)
    case List(elements) => forall i :: 0 <= i < |elements| ==> Plain(elements[i])
    case Pair(f, s) => Plain(f) && Plain(s)
    case _ => true
  }

  /** A node standing as a statement: a definition of a plain value, a
      block of statements, or a plain node. A program whose top-level
      definitions bind plain values is one. */
  predicate Statement(n: Node)
    decreases n, 1
  {
    match n
    case Define(_, value) => Plain(value)
    case Block(exprs) => forall i :: 0 <= i < |exprs| ==> Statement(exprs[i])
    case _ => Plain(n)
  }

  /** Every type the scope chain binds is shallow. */
  ghost predicate ShallowChain(c: Chain<Type>) {
    forall i, k :: 0 <= i < |c| && k in c[i] ==> Shallow(c[i][k])
  }

  /** Both sides of every equation are shallow. */
  ghost predicate AllShallow(eqs: seq<Equation>) {
    forall i :: 0 <= i < |eqs| ==> Shallow(eqs[i].0) && Shallow(eqs[i].1)
  }

  lemma ShallowLookup(c: Chain<Type>, name: string)
    requires ShallowChain(c) && InChain(c, name)
    ensures Shallow(ChainLookup(c, name).value)
  {
    var d := ChainDepth(c, name);
    assert name in c[d];
  }

  lemma {:induction false} ShallowSet(c: Chain<Type>, name: string, value: Type)
    requires c != [] && ShallowChain(c) && Shallow(value)
    ensures ShallowChain(ChainSet(c, name, value))
  {
    var r := ChainSet(c, name, value);
    if |c| > 1 && InChain(c[1..], name) {
      ShallowTail(c);
      ShallowSet(c[1..], name, value);
      var tail := ChainSet(c[1..], name, value);
      forall i, k | 0 <= i < |r| && k in r[i]
        ensures Shallow(r[i][k])
      {
        if i > 0 {
          assert r[i] == tail[i - 1];
        }
      }
    } else {
      forall i, k | 0 <= i < |r| && k in r[i]
        ensures Shallow(r[i][k])
      {
        if i > 0 {
          assert r[i] == c[i];
        }
      }
    }
  }

  lemma ShallowTail(c: Chain<Type>)
    requires c != [] && ShallowChain(c)
    ensures ShallowChain(c[1..])
  {
    forall i, k | 0 <= i < |c[1..]| && k in c[1..][i]
      ensures Shallow(c[1..][i][k])
    {
      assert c[1..][i] == c[i + 1];
    }
  }

  lemma ShallowPush(c: Chain<Type>)
    requires ShallowChain(c)
    ensures ShallowChain([map[]] + c)
  {
    var r := [map[]] + c;
    forall i, k | 0 <= i < |r| && k in r[i]
      ensures Shallow(r[i][k])
    {
      assert r[i] == c[i - 1];
    }
  }

  lemma AppendShallow(eqs: seq<Equation>, more: seq<Equation>)
    requires AllShallow(eqs) && AllShallow(more)
    ensures AllShallow(eqs + more)
  {
    forall i | 0 <= i < |eqs + more|
      ensures Shallow((eqs + more)[i].0) && Shallow((eqs + more)[i].1)
    {
      if i < |eqs| {
        assert (eqs + more)[i] == eqs[i];
      } else {
        assert (eqs + more)[i] == more[i - |eqs|];
      }
    }
  }

  /** What a definition adds keeps the scope and the equations shallow. */
  lemma DefineShallow(c: Chain<Type>, eqs: seq<Equation>, name: string, initial: Type, value: Type)
    requires c != [] && ShallowChain(c) && AllShallow(eqs) && Shallow(initial) && NoSchemes(value)
    ensures Shallow(Generalise(value))
    ensures AllShallow(eqs + [(initial, Generalise(value))])
    ensures ShallowChain(ChainSet(c, name, Generalise(value)))
  {
    GeneraliseShallow(value);
    AppendShallow(eqs, [(initial, Generalise(value))]);
    ShallowSet(c, name, Generalise(value));
  }

  lemma FuncNoSchemes(a: Type, b: Type)
    requires NoSchemes(a) && NoSchemes(b)
    ensures NoSchemes(Func(a, b)) && NoSchemes(Types.Pair(a, b)) && NoSchemes(TypeApply(TypeName("List"), a))
  {
  }

  /** `ConstraintGenerator`: the equations found so far, the current scope
      chain (as the dictionaries of its scopes, innermost first) and the
      counter behind fresh type variables. */
  class ConstraintGenerator {
    var equations: seq<Equation>
    var scope: Chain<Type>
    var counter: nat

    /** The scope binds shallow types only, and every equation so far has
        shallow sides. */
    ghost predicate Sane()
      reads this
    {
      ShallowChain(scope) && AllShallow(equations)
    }

    /** A generator inside a scope holding the operators' types, with
        `main` bound to MainType. */
    constructor (operators: map<string, Type>, counter: nat)
      ensures equations == [] && this.counter == counter
      ensures scope == ChainSet([map[], operators], "main", MainType)
      ensures ChainLookup(scope, "main") == Some(MainType)
    {
      equations := [];
      scope := ChainSet([map[], operators], "main", MainType);
      this.counter := counter;
      assert Unshadowed([map[], operators], "main");
      SetThenLookup([map[], operators], "main", MainType);
    }

    /** `TypeVar.unknown`. */
    method Unknown() returns (t: Type)
      modifies this
      ensures (t, counter) == Fresh(old(counter))
      ensures equations == old(equations) && scope == old(scope)
    {
      t := Fresh(counter).0;
      counter := counter + 1;
    }

    /** `visit`: the node with its type, dispatched on the node's kind. The
        equations only grow, the counter only rises, and the scope chain
        keeps its length, with no enclosing scope gaining or losing a name. */
    method Visit(node: Node) returns (r: Result<TNode, CompilerError>)
      requires scope != []
      modifies this
      ensures old(equations) <= equations && counter >= old(counter)
      ensures r.Ok? ==> SameNamesFrom(scope, old(scope), 1)
      ensures r.Ok? ==> DefinesGeneralised(r.value)
      ensures node.Unit? ==> r == Ok(TUnit)
      ensures node.Scalar? ==> r == Ok(TScalar(TypeName(ScalarTypeName(node.scalar)), node.scalar))
      ensures node.Match? ==> r == Err(TypeError)
      ensures node.Unit? || node.Scalar? || node.Match? ==>
        equations == old(equations) && counter == old(counter) && scope == old(scope)
      ensures node.Apply? && r.Ok? ==> r.value.TApply?
      ensures node.Block? && r.Ok? ==> r.value.TBlock? || r.value.TUnit?
      ensures node.Cond? && r.Ok? ==> r.value.TCond?
      ensures node.Define? && r.Ok? ==> r.value.TDefine?
      ensures node.Function? && r.Ok? ==> r.value.TFunction?
      ensures node.List? && r.Ok? ==> r.value.TList?
      ensures node.Pair? && r.Ok? ==> r.value.TPair?
      ensures node.Name? && r.Ok? ==> r.value.TName?
      ensures node.Name? ==> (r == Err(UndefinedName(node.name)) <==> !InChain(old(scope), node.name))
      ensures r.Ok? && old(Sane()) && (Statement(node) || Plain(node)) ==> Sane() && Shallow(TypeOf(r.value))
      ensures r.Ok? && old(Sane()) && Plain(node) ==> NoSchemes(TypeOf(r.value))
      decreases node, 1
    {
      match node
      case Apply(_, _) => r := VisitApply(node);
      case Block(_) => r := VisitBlock(node);
      case Cond(_, _, _) => r := VisitCond(node);
      case Define(_, _) => r := VisitDefine(node);
      case Function(_, _) => r := VisitFunction(node);
      case List(_) => r := VisitList(node);
      case Match(_, _) =>
        // The generator has no rule for matches (nor for annotations,
        // implementations and traits), which leaves the class abstract.
        r := Err(TypeError);
      case Name(_) => r := VisitName(node);
      case Pair(_, _) => r := VisitPair(node);
      case Scalar(v) => r := Ok(TScalar(TypeName(ScalarTypeName(v)), v));
      case Unit => r := Ok(TUnit);
    }

    /** `visit_apply`: a fresh variable for the result, and the equation
        `caller ~ callee -> result`. */
    method VisitApply(node: Node) returns (r: Result<TNode, CompilerError>)
      requires node.Apply? && scope != []
      modifies this
      ensures old(equations) <= equations && counter >= old(counter)
      ensures r.Ok? ==> SameNamesFrom(scope, old(scope), 1)
      ensures r.Ok? ==> DefinesGeneralised(r.value)
      ensures r.Ok? ==> r.value.TApply? && r.value.ty == Fresh(old(counter)).0
      ensures r.Ok? ==>
        (|equations| > |old(equations)|
         && equations[|equations| - 1] == (TypeOf(r.value.func), Func(TypeOf(r.value.arg), r.value.ty)))
      ensures r.Ok? && old(Sane()) && (Statement(node) || Plain(node)) ==> Sane() && Shallow(TypeOf(r.value))
      ensures r.Ok? && old(Sane()) && Plain(node) ==> NoSchemes(TypeOf(r.value))
      decreases node, 0
    {
      ghost var sane := Sane() && Plain(node);
      var nodeType := Unknown();
      var caller :- Visit(node.func);
      var callee :- Visit(node.arg);
      var equation := (TypeOf(caller), Func(TypeOf(callee), nodeType));
      if sane {
        FuncNoSchemes(TypeOf(callee), nodeType);
        AppendShallow(equations, [equation]);
      }
      equations := equations + [equation];
      return Ok(TApply(nodeType, caller, callee));
    }

    /** `visit_block`: the block's expressions in a child scope, which is
        left again afterwards; the type of the last expression, or the unit
        for no expressions. */
    method VisitBlock(node: Node) returns (r: Result<TNode, CompilerError>)
      requires node.Block? && scope != []
      modifies this
      ensures old(equations) <= equations && counter >= old(counter)
      ensures r.Ok? ==> SameNamesFrom(scope, old(scope), 0)
      ensures r.Ok? ==> DefinesGeneralised(r.value)
      ensures r.Ok? && node.exprs == [] ==> r.value == TUnit
      ensures r.Ok? && node.exprs != [] ==>
        (r.value.TBlock? && |r.value.exprs| == |node.exprs|
         && r.value.ty == TypeOf(r.value.exprs[|r.value.exprs| - 1]))
      ensures r.Ok? && old(Sane()) && (Statement(node) || Plain(node)) ==> Sane() && Shallow(TypeOf(r.value))
      ensures r.Ok? && old(Sane()) && Plain(node) ==> NoSchemes(TypeOf(r.value))
      decreases node, 0
    {
      ghost var sane := Sane() && (Statement(node) || Plain(node));
      var outer := scope;
      if sane {
        ShallowPush(scope);
      }
      scope := [map[]] + scope;
      var body: seq<TNode> := [];
      var i := 0;
      while i < |node.exprs|
        invariant 0 <= i <= |node.exprs| && |body| == i
        invariant old(equations) <= equations && counter >= old(counter)
        invariant |scope| == |outer| + 1 && SameNamesFrom(scope[1..], outer, 0)
        invariant forall k :: 0 <= k < i ==> DefinesGeneralised(body[k])
        invariant sane ==> Sane()
        invariant sane && 0 < i ==>
          Shallow(TypeOf(body[i - 1])) && (Plain(node.exprs[i - 1]) ==> NoSchemes(TypeOf(body[i - 1])))
      {
        var before := scope;
        assert sane ==> Statement(node.exprs[i]) || Plain(node.exprs[i]);
        var expr :- Visit(node.exprs[i]);
        assert SameNamesFrom(scope[1..], before[1..], 0) by {
          forall k | 0 <= k < |scope[1..]|
            ensures scope[1..][k].Keys == before[1..][k].Keys
          {
            assert scope[k + 1].Keys == before[k + 1].Keys;
          }
        }
        body := body + [expr];
        i := i + 1;
      }
      if sane {
        ShallowTail(scope);
      }
      scope := scope[1..];
      if body == [] {
        return Ok(TUnit);
      }
      return Ok(TBlock(TypeOf(body[|body| - 1]), body));
    }

    /** `visit_cond`: the equations `pred ~ Bool` and `cons ~ else`; the
        conditional has the type of its `cons` branch. */
    method VisitCond(node: Node) returns (r: Result<TNode, CompilerError>)
      requires node.Cond? && scope != []
      modifies this
      ensures old(equations) <= equations && counter >= old(counter)
      ensures r.Ok? ==> SameNamesFrom(scope, old(scope), 1)
      ensures r.Ok? ==> DefinesGeneralised(r.value)
      ensures r.Ok? ==> r.value.TCond? && r.value.ty == TypeOf(r.value.cons)
      ensures r.Ok? ==>
        (|equations| >= |old(equations)| + 2
         && equations[|equations| - 2] == (TypeOf(r.value.pred), TypeName("Bool"))
         && equations[|equations| - 1] == (TypeOf(r.value.cons), TypeOf(r.value.elseBranch)))
      ensures r.Ok? && old(Sane()) && (Statement(node) || Plain(node)) ==> Sane() && Shallow(TypeOf(r.value))
      ensures r.Ok? && old(Sane()) && Plain(node) ==> NoSchemes(TypeOf(r.value))
      decreases node, 0
    {
      ghost var sane := Sane() && Plain(node);
      var pred :- Visit(node.pred);
      var cons :- Visit(node.cons);
      var elseBranch :- Visit(node.elseBranch);
      var pushed := [(TypeOf(pred), TypeName("Bool")), (TypeOf(cons), TypeOf(elseBranch))];
      if sane {
        AppendShallow(equations, pushed);
      }
      equations := equations + pushed;
      return Ok(TCond(TypeOf(cons), pred, cons, elseBranch));
    }

    /** The target's current type if the scope has one, else a fresh
        variable, bound to the target before its value is visited. */
    method BindTarget(name: string) returns (initial: Type)
      requires scope != []
      modifies this
      ensures equations == old(equations) && counter >= old(counter)
      ensures scope == ChainSet(old(scope), name, initial)
      ensures SameNamesFrom(scope, old(scope), 1)
      ensures InChain(old(scope), name) ==> initial == ChainLookup(old(scope), name).value
      ensures old(Sane()) ==> Sane() && Shallow(initial)
    {
      var found := ChainLookup(scope, name);
      if found.Some? {
        initial := found.value;
        if Sane() {
          ShallowLookup(scope, name);
        }
      } else {
        initial := Unknown();
      }
      SetKeepsAllEnclosing(scope, name, initial);
      if Sane() {
        ShallowSet(scope, name, initial);
      }
      scope := ChainSet(scope, name, initial);
    }

    /** `visit_define`: the target's current type if the scope has one,
        else a fresh variable, is bound before the value is visited (so the
        value may refer to it); the definition's type is the generalised
        type of the value, equated with that first type and bound to the
        target. */
    method VisitDefine(node: Node) returns (r: Result<TNode, CompilerError>)
      requires node.Define? && scope != []
      modifies this
      ensures old(equations) <= equations && counter >= old(counter)
      ensures r.Ok? ==> SameNamesFrom(scope, old(scope), 1)
      ensures r.Ok? ==> DefinesGeneralised(r.value)
      ensures !(node.target.FreeName? || node.target.PinnedName?) ==> r == Err(AttributeError)
      ensures r.Ok? ==>
        (r.value.TDefine? && r.value.target == node.target.name
         && r.value.ty == Generalise(TypeOf(r.value.value)))
      ensures r.Ok? ==> |equations| > |old(equations)| && equations[|equations| - 1].1 == r.value.ty
      ensures r.Ok? && InChain(old(scope), node.target.name) ==>
        equations[|equations| - 1].0 == ChainLookup(old(scope), node.target.name).value
      ensures r.Ok? && old(Sane()) && (Statement(node) || Plain(node)) ==> Sane() && Shallow(TypeOf(r.value))
      ensures r.Ok? && old(Sane()) && Plain(node) ==> NoSchemes(TypeOf(r.value))
      decreases node, 0
    {
      ghost var sane := Sane() && Statement(node);
      var name :- PatternName(node.target);
      var initial := BindTarget(name);
      var value :- Visit(node.value);
      var nodeType := Generalise(TypeOf(value));
      assert sane ==> Shallow(nodeType) && AllShallow(equations + [(initial, nodeType)])
                      && ShallowChain(ChainSet(scope, name, nodeType)) by {
        if sane {
          DefineShallow(scope, equations, name, initial, TypeOf(value));
        }
      }
      equations := equations + [(initial, nodeType)];
      SetKeepsAllEnclosing(scope, name, nodeType);
      scope := ChainSet(scope, name, nodeType);
      return Ok(TDefine(nodeType, name, value));
    }

    /** `visit_function`: in a child scope, the parameter is bound to a
        fresh variable; the function's type is `param -> body`, and the
        child scope is left again afterwards. */
    method VisitFunction(node: Node) returns (r: Result<TNode, CompilerError>)
      requires node.Function? && scope != []
      modifies this
      ensures old(equations) <= equations && counter >= old(counter)
      ensures r.Ok? ==> SameNamesFrom(scope, old(scope), 0)
      ensures r.Ok? ==> DefinesGeneralised(r.value)
      ensures !(node.param.FreeName? || node.param.PinnedName?) ==> r.Err? && r.error == AttributeError
      ensures r.Ok? ==>
        (r.value.TFunction? && r.value.param == node.param.name
         && r.value.paramType == Fresh(old(counter)).0
         && r.value.ty == Func(r.value.paramType, TypeOf(r.value.body)))
      ensures r.Ok? && old(Sane()) && (Statement(node) || Plain(node)) ==> Sane() && Shallow(TypeOf(r.value))
      ensures r.Ok? && old(Sane()) && Plain(node) ==> NoSchemes(TypeOf(r.value))
      decreases node, 0
    {
      ghost var sane := Sane() && Plain(node);
      var outer := scope;
      if sane {
        ShallowPush(scope);
      }
      scope := [map[]] + scope;
      var paramType := Unknown();
      var name :- PatternName(node.param);
      SetKeepsAllEnclosing(scope, name, paramType);
      if sane {
        ShallowSet(scope, name, paramType);
      }
      scope := ChainSet(scope, name, paramType);
      var before := scope;
      var body :- Visit(node.body);
      assert SameNamesFrom(scope[1..], outer, 0) by {
        forall k | 0 <= k < |outer|
          ensures scope[1..][k].Keys == outer[k].Keys
        {
          assert scope[k + 1].Keys == before[k + 1].Keys;
        }
      }
      if sane {
        ShallowTail(scope);
        FuncNoSchemes(paramType, TypeOf(body));
      }
      scope := scope[1..];
      return Ok(TFunction(Func(paramType, TypeOf(body)), name, paramType, body));
    }

    /** `visit_list`: every element's type is equated with the first
        element's; an empty list has the element type of a fresh
        variable. */
    method VisitList(node: Node) returns (r: Result<TNode, CompilerError>)
      requires node.List? && scope != []
      modifies this
      ensures old(equations) <= equations && counter >= old(counter)
      ensures r.Ok? ==> SameNamesFrom(scope, old(scope), 1)
      ensures r.Ok? ==> DefinesGeneralised(r.value)
      ensures r.Ok? ==> r.value.TList? && |r.value.elements| == |node.elements|
      ensures r.Ok? && node.elements == [] ==>
        r.value.ty == TypeApply(TypeName("List"), Fresh(old(counter)).0) && equations == old(equations)
      ensures r.Ok? && node.elements != [] ==>
        var elems := r.value.elements;
        && r.value.ty == TypeApply(TypeName("List"), TypeOf(elems[0]))
        && |equations| >= |old(equations)| + |elems|
        && equations[|equations| - |elems|..] == ElementEquations(TypeOf(elems[0]), elems)
      ensures r.Ok? && old(Sane()) && (Statement(node) || Plain(node)) ==> Sane() && Shallow(TypeOf(r.value))
      ensures r.Ok? && old(Sane()) && Plain(node) ==> NoSchemes(TypeOf(r.value))
      decreases node, 0
    {
      ghost var sane := Sane() && Plain(node);
      var elements: seq<TNode> := [];
      var i := 0;
      while i < |node.elements|
        invariant 0 <= i <= |node.elements| && |elements| == i
        invariant old(equations) <= equations && counter >= old(counter)
        invariant SameNamesFrom(scope, old(scope), 1)
        invariant i == 0 ==> equations == old(equations) && counter == old(counter)
        invariant forall k :: 0 <= k < i ==> DefinesGeneralised(elements[k])
        invariant sane ==> Sane() && forall k :: 0 <= k < i ==> NoSchemes(TypeOf(elements[k]))
      {
        assert sane ==> Plain(node.elements[i]);
        var elem :- Visit(node.elements[i]);
        elements := elements + [elem];
        i := i + 1;
      }
      var elemType: Type;
      if elements == [] {
        elemType := Unknown();
      } else {
        elemType := TypeOf(elements[0]);
      }
      var constraints := ElementEquations(elemType, elements);
      if sane {
        FuncNoSchemes(elemType, elemType);
        AppendShallow(equations, constraints);
      }
      equations := equations + constraints;
      return Ok(TList(TypeApply(TypeName("List"), elemType), elements));
    }

    /** `visit_pair`: the pair type of the two parts. */
    method VisitPair(node: Node) returns (r: Result<TNode, CompilerError>)
      requires node.Pair? && scope != []
      modifies this
      ensures old(equations) <= equations && counter >= old(counter)
      ensures r.Ok? ==> SameNamesFrom(scope, old(scope), 1)
      ensures r.Ok? ==> DefinesGeneralised(r.value)
      ensures r.Ok? ==> r.value.TPair? && r.value.ty == Types.Pair(TypeOf(r.value.first), TypeOf(r.value.second))
      ensures r.Ok? && old(Sane()) && (Statement(node) || Plain(node)) ==> Sane() && Shallow(TypeOf(r.value))
      ensures r.Ok? && old(Sane()) && Plain(node) ==> NoSchemes(TypeOf(r.value))
      decreases node, 0
    {
      ghost var sane := Sane() && Plain(node);
      var first :- Visit(node.first);
      var second :- Visit(node.second);
      var nodeType := Tuple([TypeOf(first), TypeOf(second)]);
      if sane {
        FuncNoSchemes(TypeOf(first), TypeOf(second));
      }
      assert [TypeOf(first), TypeOf(second)][1..] == [TypeOf(second)];
      return Ok(TPair(nodeType, first, second));
    }

    /** `visit_name`: the instantiated type the scope holds for the name;
        UndefinedNameError when no scope holds it. */
    method VisitName(node: Node) returns (r: Result<TNode, CompilerError>)
      requires node.Name? && scope != []
      modifies this
      ensures equations == old(equations) && scope == old(scope) && counter >= old(counter)
      ensures !InChain(scope, node.name) <==> r == Err(UndefinedName(node.name))
      ensures r.Ok? ==> var (t, next) := Instantiate(ChainLookup(scope, node.name).value, old(counter));
        r.value == TName(t, node.name) && counter == next
      ensures r.Ok? && old(Sane()) && (Statement(node) || Plain(node)) ==> Sane() && Shallow(TypeOf(r.value))
      ensures r.Ok? && old(Sane()) && Plain(node) ==> NoSchemes(TypeOf(r.value))
    {
      var found := ChainLookup(scope, node.name);
      if found.None? {
        return Err(UndefinedName(node.name));
      }
      var (nodeType, next) := Instantiate(found.value, counter);
      if Sane() {
        ShallowLookup(scope, node.name);
        InstantiateShallow(found.value, counter);
      }
      counter := next;
      return Ok(TName(nodeType, node.name));
    }
  }

  /** The list constraints: `elemType ~ e` for every element `e`, in order. */
  function ElementEquations(elemType: Type, elems: seq<TNode>): (r: seq<Equation>)
    ensures |r| == |elems|
    ensures forall i :: 0 <= i < |elems| ==> r[i] == (elemType, TypeOf(elems[i]))
  {
    if elems == [] then [] else [(elemType, TypeOf(elems[0]))] + ElementEquations(elemType, elems[1..])
  }

  /** An assignment keeps the names of every enclosing scope. */
  lemma SetKeepsAllEnclosing(c: Chain<Type>, name: string, value: Type)
    requires c != []
    ensures SameNamesFrom(ChainSet(c, name, value), c, 1)
  {
    forall i | 1 <= i < |c|
      ensures ChainSet(c, name, value)[i].Keys == c[i].Keys
    {
      SetKeepsEnclosingNames(c, name, value, i);
    }
  }

  // ---------------------------------------------------------------------
  // Substitutor

  /** `Substitutor`: every type in the tree substituted with `sub`; a
      definition's type is the generalised substituted type of its new
      value; scalars and units stay as they are. */
  function SubstituteTree(t: TNode, sub: Substitution): (r: TNode)
    ensures t.TUnit? || t.TScalar? ==> r == t
    ensures t.TDefine? ==>
      (r.TDefine? && r.target == t.target && r.ty == Generalise(Substitute(TypeOf(r.value), sub)))
    ensures !t.TDefine? && !t.TUnit? && !t.TScalar? ==> TypeOf(r) == Substitute(TypeOf(t), sub)
  {
    match t
    case TApply(ty, f, a) => TApply(Substitute(ty, sub), SubstituteTree(f, sub), SubstituteTree(a, sub))
    case TBlock(ty, exprs) => TBlock(Substitute(ty, sub), SubstituteAll(exprs, sub))
    case TCond(ty, p, c, e) =>
      TCond(Substitute(ty, sub), SubstituteTree(p, sub), SubstituteTree(c, sub), SubstituteTree(e, sub))
    case TDefine(_, target, value) =>
      var v := SubstituteTree(value, sub);
      TDefine(Generalise(Substitute(TypeOf(v), sub)), target, v)
    case TFunction(ty, param, paramType, body) =>
      TFunction(Substitute(ty, sub), param, Substitute(paramType, sub), SubstituteTree(body, sub))
    case TList(ty, elements) => TList(Substitute(ty, sub), SubstituteAll(elements, sub))
    case TPair(ty, f, s) => TPair(Substitute(ty, sub), SubstituteTree(f, sub), SubstituteTree(s, sub))
    case TName(ty, name) => TName(Substitute(ty, sub), name)
    case TScalar(_, _) => t
    case TUnit => t
  }

  function SubstituteAll(ts: seq<TNode>, sub: Substitution): (r: seq<TNode>)
    ensures |r| == |ts|
    ensures forall i :: 0 <= i < |ts| ==> r[i] == SubstituteTree(ts[i], sub)
  {
    if ts == [] then [] else [SubstituteTree(ts[0], sub)] + SubstituteAll(ts[1..], sub)
  }

  /** The empty substitution gives back any tree the generator builds. */
  lemma {:induction false} SubstituteTreeEmpty(t: TNode)
    requires DefinesGeneralised(t)
    ensures SubstituteTree(t, map[]) == t
  {
    match t
    case TApply(ty, f, a) => SubstituteEmpty(ty); SubstituteTreeEmpty(f); SubstituteTreeEmpty(a);
    case TBlock(ty, exprs) => SubstituteEmpty(ty); SubstituteAllEmpty(exprs);
    case TCond(ty, p, c, e) =>
      SubstituteEmpty(ty); SubstituteTreeEmpty(p); SubstituteTreeEmpty(c); SubstituteTreeEmpty(e);
    case TDefine(ty, _, value) =>
      SubstituteTreeEmpty(value); SubstituteEmpty(TypeOf(value));
    case TFunction(ty, _, paramType, body) =>
      SubstituteEmpty(ty); SubstituteEmpty(paramType); SubstituteTreeEmpty(body);
    case TList(ty, elements) => SubstituteEmpty(ty); SubstituteAllEmpty(elements);
    case TPair(ty, f, s) => SubstituteEmpty(ty); SubstituteTreeEmpty(f); SubstituteTreeEmpty(s);
    case TName(ty, _) => SubstituteEmpty(ty);
    case TScalar(_, _) =>
    case TUnit =>
  }

  lemma {:induction false} SubstituteAllEmpty(ts: seq<TNode>)
    requires forall i :: 0 <= i < |ts| ==> DefinesGeneralised(ts[i])
    ensures SubstituteAll(ts, map[]) == ts
    decreases ts, 0
  {
    forall i | 0 <= i < |ts|
      ensures SubstituteTree(ts[i], map[]) == ts[i]
    {
      SubstituteTreeEmpty(ts[i]);
    }
  }

  // ---------------------------------------------------------------------
  // infer_types

  /** The `reduce` of `infer_types`: each equation is unified in turn and
      its substitution merged into the one built so far. */
  function Solve(eqs: seq<Equation>, acc: Substitution, counter: nat, fuel: nat): (r: Outcome<Substitution>)
    ensures r.Done? ==> r.counter >= counter
  {
    if eqs == [] then Done(acc, counter)
    else
      match Unify(eqs[0].0, eqs[0].1, counter, fuel)
      case Done(s, c1) =>
        (match Unification.Merge(acc, s, c1, fuel)
         case Done(acc', c2) => Solve(eqs[1..], acc', c2, fuel)
         case Failed(e) => Failed(e)
         case OutOfFuel => OutOfFuel)
      case Failed(e) => Failed(e)
      case OutOfFuel => OutOfFuel
  }

  /** No equations give the empty substitution, and a single one gives
      exactly what unifying it gives. */
  lemma SolveSmall(e: Equation, counter: nat, fuel: nat)
    ensures Solve([], map[], counter, fuel) == Done(map[], counter)
    ensures Solve([e], map[], counter, fuel) == Unify(e.0, e.1, counter, fuel)
  {
    match Unify(e.0, e.1, counter, fuel)
    case Done(s, c1) =>
      MergeWithEmpty(s, c1, fuel);
      assert [e][1..] == [];
    case _ =>
  }

  /** The number of parameters `utils.unify` declares: `unify(constraint)`. */
  const UnifyParameters: nat := 1

  /** The number of arguments `infer_types` passes: `utils.unify(left, right)`. */
  const UnifyArgumentsPassed: nat := 2

  /** The `reduce` of `infer_types` when each call of `utils.unify` passes
      `passed` positional arguments. Python checks them against the declared
      parameters before the body runs, and the generator makes its first
      call when `reduce` asks for the first equation: a wrong number raises
      TypeError there, before anything is unified or merged. With no
      equation no call is made and `reduce` returns its initial `{}`. */
  function SolveCalling(eqs: seq<Equation>, passed: nat, counter: nat, fuel: nat): (r: Outcome<Substitution>)
    ensures eqs == [] ==> r == Done(map[], counter)
    ensures eqs != [] && passed != UnifyParameters ==> r == Failed(TypeError)
    ensures passed == UnifyParameters ==> r == Solve(eqs, map[], counter, fuel)
  {
    if eqs != [] && passed != UnifyParameters then Failed(TypeError) else Solve(eqs, map[], counter, fuel)
  }

  /** As written, `infer_types` fails with TypeError on every program that
      produces an equation, even on `a ~ a`, which the one-argument call
      `unify(Equation(left, right))` modelled by `Solve` solves with the
      empty substitution. */
  lemma UnifyCallAsWritten(eqs: seq<Equation>, x: string, counter: nat, fuel: nat)
    requires eqs != [] && fuel >= 1
    ensures SolveCalling(eqs, UnifyArgumentsPassed, counter, fuel) == Failed(TypeError)
    ensures Solve([(TypeVar(x), TypeVar(x))], map[], counter, fuel) == Done(map[], counter)
  {
    UnifySameVar(x, counter, fuel);
    SolveSmall((TypeVar(x), TypeVar(x)), counter, fuel);
  }

  /** Solving keeps every variable bound by the substitution it starts from
      and by every equation's own unifier. */
  lemma {:induction false} SolveKeepsKeys(eqs: seq<Equation>, acc: Substitution, counter: nat, fuel: nat)
    requires Solve(eqs, acc, counter, fuel).Done?
    ensures acc.Keys <= Solve(eqs, acc, counter, fuel).value.Keys
  {
    if eqs != [] {
      var u := Unify(eqs[0].0, eqs[0].1, counter, fuel);
      var m := Unification.Merge(acc, u.value, u.counter, fuel);
      MergeKeys(acc, u.value, u.counter, fuel);
      SolveKeepsKeys(eqs[1..], m.value, m.counter, fuel);
    }
  }

  /** The loop of `infer_types`' `reduce` over the equations. */
  method SolveEquations(eqs: seq<Equation>, counter: nat, fuel: nat) returns (r: Outcome<Substitution>)
    ensures r == Solve(eqs, map[], counter, fuel)
  {
    var full: Substitution := map[];
    var c := counter;
    var i := 0;
    while i < |eqs|
      invariant 0 <= i <= |eqs|
      invariant Solve(eqs, map[], counter, fuel) == Solve(eqs[i..], full, c, fuel)
    {
      var u := Unify(eqs[i].0, eqs[i].1, c, fuel);
      if !u.Done? {
        return if u.Failed? then Failed(u.error) else OutOfFuel;
      }
      var m := Unification.Merge(full, u.value, u.counter, fuel);
      if !m.Done? {
        return if m.Failed? then Failed(m.error) else OutOfFuel;
      }
      assert eqs[i..][1..] == eqs[i + 1..];
      full, c := m.value, m.counter;
      i := i + 1;
    }
    return Done(full, c);
  }

  /** `infer_types`: generates the equations for the tree, solves them, and
      writes the solution back into the typed tree. The equations are solved
      as intended (`Unifier.SolveUnder`), not by the written merge, which
      can lose a binding (`Unification.MergeLosesBinding`). */
  method InferTypes(tree: Node, operators: map<string, Type>, counter: nat, fuel: nat)
    returns (r: Outcome<TNode>, ghost eqs: seq<Equation>, ghost typed: TNode,
             ghost solution: Substitution, ghost instances: seq<Equation>)
    ensures tree.Unit? ==> r == Done(TUnit, counter)
    ensures tree.Scalar? ==> r == Done(TScalar(TypeName(ScalarTypeName(tree.scalar)), tree.scalar), counter)
    ensures tree.Match? ==> r == Failed(TypeError)
    ensures tree.Name? && tree.name != "main" && tree.name !in operators ==> r == Failed(UndefinedName(tree.name))
    // The typed tree is the generator's tree with the solution applied.
    ensures r.Done? ==> r.value == SubstituteTree(typed, solution) && DefinesGeneralised(typed)
    // The solution solves an instance of every equation the generator produced.
    ensures r.Done? && AllShallow(eqs) ==>
      Solved(solution) && |instances| == |eqs|
      && forall i :: 0 <= i < |eqs| ==>
           && InstanceOf(instances[i].0, eqs[i].0) && InstanceOf(instances[i].1, eqs[i].1)
           && Substitute(instances[i].0, solution) == Substitute(instances[i].1, solution)
    // Programs whose definitions stand as statements only produce such equations.
    ensures (r.Done? && (forall k :: k in operators ==> Shallow(operators[k]))
             && (Statement(tree) || Plain(tree))) ==> AllShallow(eqs)
  {
    eqs, typed, solution, instances := [], TUnit, map[], [];
    var generator := new ConstraintGenerator(operators, counter);
    if tree.Name? && tree.name != "main" {
      SetKeepsOthers([map[], operators], "main", MainType, tree.name);
      assert InChain([map[], operators], tree.name) ==> tree.name in operators by {
        InChainUnfold([map[], operators], tree.name);
        InChainUnfold([map[], operators][1..], tree.name);
      }
    }
    ghost var sane := (forall k :: k in operators ==> Shallow(operators[k])) && (Statement(tree) || Plain(tree));
    assert sane ==> generator.Sane() by {
      if sane {
        assert ShallowChain([map[], operators]);
        FuncNoSchemes(TypeApply(TypeName("List"), TypeName("String")), TypeName("Int"));
        ShallowSet([map[], operators], "main", MainType);
      }
    }
    var result := generator.Visit(tree);
    if result.Err? {
      r := Failed(result.error);
      return;
    }
    eqs, typed := generator.equations, result.value;
    var solved := SolveUnder(generator.equations, map[], generator.counter, fuel);
    if !solved.Done? {
      r := if solved.Failed? then Failed(solved.error) else OutOfFuel;
      return;
    }
    solution := solved.value;
    instances := SolvedInstances(eqs, map[], generator.counter, fuel);
    if AllShallow(eqs) {
      SolveShallowSound(eqs, map[], generator.counter, fuel);
    }
    r := Done(SubstituteTree(result.value, solved.value), solved.counter);
  }

}
