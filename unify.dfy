/** The unification engine of `hanno/type_inference/utils.py`: substitution,
    instantiation and generalisation of schemes, unification with the occurs
    check, merging of substitutions, and the types of patterns. */
module Unification {
  import opened Wrappers
  import opened Errors
  import opened Text
  import opened Types
  import opened Ast
  import opened Scopes

  /** A substitution, keyed by type-variable name: the source keys its
      dictionaries by type variables, which hash by name. */
  type Substitution = map<string, Type>

  /** What a step of the engine gives: a value and the type-variable counter
      after it, a raised error, or running out of the fuel the model uses to
      bound the mutual recursion of unification and merging. */
  datatype Outcome<T> = Done(value: T, counter: nat) | Failed(error: CompilerError) | OutOfFuel

  /** `SCALAR_TYPE_NAMES`: the type name of a scalar's Python class. */
  function ScalarTypeName(v: Value): string {
    match v
    case BoolValue(_) => "Bool"
    case FloatValue(_) => "Float"
    case IntValue(_) => "Int"
    case StrValue(_) => "String"
  }

  // ---------------------------------------------------------------------
  // substitute

  /** The state of `substitute`'s chain-following loop: the variable last
      looked up and what the substitution gave for it. */
  datatype ChaseState = ChaseState(prev: string, found: Option<Type>)

  /** The loop's condition as written: keep going while the lookup gave a
      variable with another name. */
  predicate ChaseContinues(state: ChaseState) {
    state.found.Some? && state.found.value.TypeVar? && state.found.value.value != state.prev
  }

  /** One turn of the loop as written: look up the variable just found. */
  function ChaseStep(sub: Substitution, state: ChaseState): ChaseState
    requires ChaseContinues(state)
  {
    var next := state.found.value.value;
    ChaseState(next, if next in sub then Some(sub[next]) else None)
  }

  /** With `a` bound to `b` and `b` to `a`, the written loop comes back to
      its first state after two turns with its condition still true, so it
      never stops. `merge_substitutions` builds exactly this substitution
      for `(a, b) ~ (b, a)` (see MergeBuildsCycle). */
  lemma ChaseLoopsOnCycle(a: string, b: string)
    requires a != b
    ensures var sub := map[a := TypeVar(b), b := TypeVar(a)];
      var start := ChaseState(a, Some(TypeVar(b)));
      && ChaseContinues(start)
      && ChaseContinues(ChaseStep(sub, start))
      && ChaseStep(sub, ChaseStep(sub, start)) == start
  {
  }

  /** Visiting one more bound variable leaves one fewer to visit. */
  lemma VisitOneMore(keys: set<string>, visited: set<string>, next: string)
    ensures next in keys && next !in visited ==> |keys - (visited + {next})| == |keys - visited| - 1
  {
    if next in keys && next !in visited {
      assert keys - visited == (keys - (visited + {next})) + {next};
    }
  }

  /** The variable `name` resolves to under `sub`: follows variable to
      variable until a variable is unbound, bound to itself or to a
      non-variable type. A chain that comes back to a variable already
      visited stops there, where the source loops forever. */
  function ChaseFrom(sub: Substitution, prev: string, visited: set<string>): (r: Type)
    decreases |sub.Keys - visited|
  {
    if prev !in sub then TypeVar(prev)
    else
      var t := sub[prev];
      if !t.TypeVar? || t.value == prev || t.value in visited || t.value !in sub then t
      else
        VisitOneMore(sub.Keys, visited, t.value);
        ChaseFrom(sub, t.value, visited + {t.value})
  }

  function Resolve(sub: Substitution, name: string): Type {
    ChaseFrom(sub, name, {name})
  }

  /** `substitute`'s loop for a type variable, stopping on a revisited
      variable. */
  method ResolveVar(sub: Substitution, name: string) returns (r: Type)
    ensures r == Resolve(sub, name)
  {
    var prev := name;
    var visited := {name};
    while prev in sub && sub[prev].TypeVar? && sub[prev].value != prev
          && sub[prev].value !in visited && sub[prev].value in sub
      invariant Resolve(sub, name) == ChaseFrom(sub, prev, visited)
      decreases |sub.Keys - visited|
    {
      var next := sub[prev].value;
      VisitOneMore(sub.Keys, visited, next);
      prev, visited := next, visited + {next};
    }
    if prev !in sub {
      return TypeVar(prev);
    }
    return sub[prev];
  }

  /** A chain of variables ends at the first binding that is not a variable;
      a variable bound to an unbound variable resolves to that variable. */
  lemma ResolveFollowsChain(a: string, b: string, c: string, t: Type)
    requires a != b && b != c && a != c && !t.TypeVar?
    ensures Resolve(map[a := TypeVar(b), b := TypeVar(c), c := t], a) == t
    ensures Resolve(map[a := TypeVar(b)], a) == TypeVar(b)
  {
    var sub := map[a := TypeVar(b), b := TypeVar(c), c := t];
    assert {a, b} + {c} == {a, b, c} && {a} + {b} == {a, b};
    assert ChaseFrom(sub, c, {a, b, c}) == t;
    assert ChaseFrom(sub, b, {a, b}) == t;
    assert ChaseFrom(sub, a, {a}) == t;
  }

  /** Where resolution stops: at a value of the substitution that is no
      variable, at an unbound variable, or at a variable the substitution
      binds to a variable (itself, or one already passed through). */
  lemma {:induction false} ResolveEnds(sub: Substitution, prev: string, visited: set<string>)
    requires forall v :: v in visited && v != prev ==> v in sub && sub[v].TypeVar?
    ensures var r := ChaseFrom(sub, prev, visited);
      (!r.TypeVar? ==> r in sub.Values)
      && (r.TypeVar? ==> r.value !in sub || sub[r.value].TypeVar?)
    decreases |sub.Keys - visited|
  {
    if prev in sub {
      var t := sub[prev];
      if t.TypeVar? && t.value != prev && t.value !in visited && t.value in sub {
        VisitOneMore(sub.Keys, visited, t.value);
        ResolveEnds(sub, t.value, visited + {t.value});
      }
    }
  }

  /** The bindings of `sub` for variables outside `bound`. */
  function Without(sub: Substitution, bound: set<string>): (r: Substitution)
    ensures r.Keys == sub.Keys - bound
    ensures forall k :: k in r ==> r[k] == sub[k]
  {
    map k | k in sub && k !in bound :: sub[k]
  }

  /** `substitute`: names stay, variables resolve, applications are rebuilt
      part by part, and a scheme's body is substituted without the bindings
      of the variables it binds. */
  function Substitute(t: Type, sub: Substitution): (r: Type)
    ensures t.TypeName? ==> r == t
    ensures t.TypeScheme? ==> r.TypeScheme? && r.bound == t.bound
    ensures t.TypeApply? ==> r.TypeApply?
  {
    match t
    case TypeName(_) => t
    case TypeVar(n) => Resolve(sub, n)
    case TypeApply(f, x) => TypeApply(Substitute(f, sub), Substitute(x, sub))
    case TypeScheme(body, bound) =>
      TypeScheme(Substitute(body, Without(sub, bound)), bound)
  }

  /** The empty substitution changes nothing. */
  lemma {:induction false} SubstituteEmpty(t: Type)
    ensures Substitute(t, map[]) == t
  {
    SubstituteUntouched(t, map[]);
  }

  /** A substitution that binds none of a type's free variables leaves the
      type as it is. */
  lemma {:induction false} SubstituteUntouched(t: Type, sub: Substitution)
    requires FreeVars(t) !! sub.Keys
    ensures Substitute(t, sub) == t
  {
    match t
    case TypeApply(f, x) => SubstituteUntouched(f, sub); SubstituteUntouched(x, sub);
    case TypeScheme(body, bound) =>
      var inner := Without(sub, bound);
      assert FreeVars(body) !! inner.Keys;
      SubstituteUntouched(body, inner);
    case TypeVar(n) =>
      assert n !in sub;
    case TypeName(_) =>
  }

  /** The scheme example of the source's tests: the bound `x` and `y` are
      left alone while the free `z` is replaced. */
  lemma SubstituteSkipsBound()
    ensures var body := Func(Func(TypeVar("x"), TypeVar("y")), TypeVar("z"));
      Substitute(TypeScheme(body, {"x", "y"}), map["z" := TypeName("Int"), "x" := TypeName("Bool")])
        == TypeScheme(Func(Func(TypeVar("x"), TypeVar("y")), TypeName("Int")), {"x", "y"})
  {
    var sub := map["z" := TypeName("Int"), "x" := TypeName("Bool")];
    var inner := Without(sub, {"x", "y"});
    assert inner == map["z" := TypeName("Int")];
    assert Resolve(inner, "x") == TypeVar("x") && Resolve(inner, "y") == TypeVar("y");
    assert Resolve(inner, "z") == TypeName("Int");
    var arrow := TypeName("->");
    assert Substitute(TypeApply(arrow, TypeVar("x")), inner) == TypeApply(arrow, TypeVar("x"));
    assert Substitute(Func(TypeVar("x"), TypeVar("y")), inner) == Func(TypeVar("x"), TypeVar("y"));
    var xy := Func(TypeVar("x"), TypeVar("y"));
    assert Substitute(TypeApply(arrow, xy), inner) == TypeApply(arrow, xy);
    var body := Func(xy, TypeVar("z"));
    assert Substitute(body, inner) == Func(xy, TypeName("Int"));
    assert Substitute(TypeScheme(body, {"x", "y"}), sub) == TypeScheme(Substitute(body, inner), {"x", "y"});
  }

  // ---------------------------------------------------------------------
  // free variables, schemes

  /** `find_free_vars`. */
  function FreeVars(t: Type): set<string> {
    match t
    case TypeApply(f, x) => FreeVars(f) + FreeVars(x)
    case TypeName(_) => {}
    case TypeScheme(body, bound) => FreeVars(body) - bound
    case TypeVar(n) => {n}
  }

  /** Every variable a type contains (the occurs relation) is free in it, and
      for a type without schemes the two agree. */
  lemma {:induction false} OpenVarsAreFree(t: Type)
    ensures OpenVars(t) <= FreeVars(t)
    ensures NoSchemes(t) ==> OpenVars(t) == FreeVars(t)
  {
    match t
    case TypeApply(f, x) => OpenVarsAreFree(f); OpenVarsAreFree(x);
    case _ =>
  }

  predicate NoSchemes(t: Type) {
    match t
    case TypeApply(f, x) => NoSchemes(f) && NoSchemes(x)
    case TypeScheme(_, _) => false
    case _ => true
  }

  /** `fold_schemes`: a scheme whose body is a scheme becomes one scheme
      binding the variables of both. */
  function FoldSchemes(scheme: Type): (r: Type)
    requires scheme.TypeScheme?
    ensures r.TypeScheme? && !r.actual.TypeScheme?
    ensures FreeVars(r) == FreeVars(scheme)
    ensures scheme.bound <= r.bound
  {
    if scheme.actual.TypeScheme? then
      var inner := FoldSchemes(scheme.actual);
      TypeScheme(inner.actual, inner.bound + scheme.bound)
    else scheme
  }

  /** `generalise`: quantifies a type over its free variables. */
  function Generalise(t: Type): (r: Type)
    ensures FreeVars(r) == {}
    ensures FreeVars(t) == {} ==> r == t
    ensures FreeVars(t) != {} ==> r.TypeScheme? && !r.actual.TypeScheme? && FreeVars(t) <= r.bound
  {
    var free := FreeVars(t);
    if free == {} then t else FoldSchemes(TypeScheme(t, free))
  }

  /** A fresh variable for each of `names`, in turn. */
  function FreshVars(names: seq<string>, counter: nat): (r: (Substitution, nat))
    ensures r.1 == counter + |names|
    ensures r.0.Keys == set x | x in names
    ensures forall x :: x in r.0 ==> r.0[x].TypeVar?
  {
    if names == [] then (map[], counter)
    else
      var (tail, next) := FreshVars(names[1..], counter + 1);
      (tail[names[0] := Fresh(counter).0], next)
  }

  /** `instantiate`: a scheme's body with a fresh variable for each bound
      one; any other type as it is. The bound variables are visited in
      increasing order of name. */
  function Instantiate(t: Type, counter: nat): (r: (Type, nat))
    ensures !t.TypeScheme? ==> r == (t, counter)
    ensures t.TypeScheme? ==> r.1 == counter + |t.bound|
  {
    if t.TypeScheme? then
      var (vars, next) := FreshVars(Sorted(t.bound), counter);
      (Substitute(t.actual, vars), next)
    else (t, counter)
  }

  /** A scheme binding nothing instantiates to its body. */
  lemma InstantiateEmptyScheme(t: Type, counter: nat)
    ensures Instantiate(TypeScheme(t, {}), counter) == (t, counter)
  {
    SubstituteEmpty(t);
  }

  /** A bound variable that is the whole body becomes a fresh variable. */
  lemma InstantiateIdentity(x: string, counter: nat)
    ensures Instantiate(TypeScheme(TypeVar(x), {x}), counter) == (Fresh(counter).0, counter + 1)
  {
    assert Sorted({x}) == [x];
    var vars := map[x := Fresh(counter).0];
    assert FreshVars([x], counter) == (vars, counter + 1);
  }

  // ---------------------------------------------------------------------
  // unify, merge_substitutions

  /** `unify`: both sides are instantiated first; a variable against itself
      gives nothing, against a type containing it a CircularTypeError, and
      against anything else the binding of the variable; a variable on the
      right swaps the sides; equal names give nothing; two applications are
      unified part by part and the results merged; anything else is a
      TypeMismatchError. */
  function Unify(left: Type, right: Type, counter: nat, fuel: nat): (r: Outcome<Substitution>)
    ensures r.Done? ==> r.counter >= counter
    decreases fuel, 0
  {
    if fuel == 0 then OutOfFuel
    else
      var (l, c1) := Instantiate(left, counter);
      var (r, c2) := Instantiate(right, c1);
      if l.TypeVar? then
        if r.TypeVar? && l.value == r.value then Done(map[], c2)
        else if Contains(r, l) then Failed(CircularType)
        else Done(map[l.value := r], c2)
      else if r.TypeVar? then Unify(r, l, c2, fuel - 1)
      else if l.TypeName? && TypeEq(l, r) then Done(map[], c2)
      else if l.TypeApply? && r.TypeApply? then
        match Unify(l.caller, r.caller, c2, fuel - 1)
        case Done(s1, c3) =>
          (match Unify(l.callee, r.callee, c3, fuel - 1)
           case Done(s2, c4) => Merge(s1, s2, c4, fuel - 1)
           case Failed(e) => Failed(e)
           case OutOfFuel => OutOfFuel)
        case Failed(e) => Failed(e)
        case OutOfFuel => OutOfFuel
      else Failed(TypeMismatch)
  }

  /** `merge_substitutions`: either side alone when the other is empty;
      otherwise the values two sides give the same variable are unified,
      the results merged into one, and every value of the union resolved
      against the union. */
  function Merge(left: Substitution, right: Substitution, counter: nat, fuel: nat): (r: Outcome<Substitution>)
    ensures r.Done? ==> r.counter >= counter
    decreases fuel, 0
  {
    if left == map[] then Done(right, counter)
    else if right == map[] then Done(left, counter)
    else if fuel == 0 then OutOfFuel
    else
      match MergeShared(Sorted(left.Keys * right.Keys), left, right, map[], counter, fuel - 1)
      case Done(merged, next) =>
        Done(SelfApplied(left + right + merged), next)
      case Failed(e) => Failed(e)
      case OutOfFuel => OutOfFuel
  }

  /** Every value of `full` substituted with `full` itself. */
  function SelfApplied(full: Substitution): (r: Substitution)
    ensures r.Keys == full.Keys
    ensures forall k :: k in r ==> r[k] == Substitute(full[k], full)
  {
    map k | k in full :: Substitute(full[k], full)
  }

  /** The `reduce` in `merge_substitutions`: unifies the two sides' values
      for each shared key in turn and merges each result into `acc`. */
  function MergeShared(keys: seq<string>, left: Substitution, right: Substitution,
                       acc: Substitution, counter: nat, fuel: nat): (r: Outcome<Substitution>)
    requires forall k :: k in keys ==> k in left && k in right
    ensures r.Done? ==> r.counter >= counter
    decreases fuel, |keys| + 1
  {
    if keys == [] then Done(acc, counter)
    else
      match Unify(left[keys[0]], right[keys[0]], counter, fuel)
      case Done(s, c1) =>
        (match Merge(acc, s, c1, fuel)
         case Done(acc', c2) => MergeShared(keys[1..], left, right, acc', c2, fuel)
         case Failed(e) => Failed(e)
         case OutOfFuel => OutOfFuel)
      case Failed(e) => Failed(e)
      case OutOfFuel => OutOfFuel
  }

  /** A variable unified with itself gives the empty substitution. */
  lemma UnifySameVar(x: string, counter: nat, fuel: nat)
    requires fuel >= 1
    ensures Unify(TypeVar(x), TypeVar(x), counter, fuel) == Done(map[], counter)
  {
  }

  /** The occurs check: a variable against a non-variable type containing it
      is a CircularTypeError, on either side. */
  lemma UnifyOccurs(x: string, t: Type, counter: nat, fuel: nat)
    requires fuel >= 2 && !t.TypeVar? && !t.TypeScheme? && Contains(t, TypeVar(x))
    ensures Unify(TypeVar(x), t, counter, fuel) == Failed(CircularType)
    ensures Unify(t, TypeVar(x), counter, fuel) == Failed(CircularType)
  {
  }

  /** A variable against a type not containing it binds the variable to that
      type, whichever side the variable is on. */
  lemma UnifyBinds(x: string, t: Type, counter: nat, fuel: nat)
    requires fuel >= 1 && !t.TypeScheme? && !Contains(t, TypeVar(x))
    ensures Unify(TypeVar(x), t, counter, fuel) == Done(map[x := t], counter)
    ensures fuel >= 2 && !t.TypeVar? ==> Unify(t, TypeVar(x), counter, fuel) == Done(map[x := t], counter)
  {
  }

  /** Names unify exactly when they are equal, and never with an
      application. */
  lemma UnifyNames(a: string, b: string, f: Type, x: Type, counter: nat, fuel: nat)
    requires fuel >= 1
    ensures Unify(TypeName(a), TypeName(b), counter, fuel)
              == if a == b then Done(map[], counter) else Failed(TypeMismatch)
    ensures Unify(TypeName(a), TypeApply(f, x), counter, fuel) == Failed(TypeMismatch)
    ensures Unify(TypeApply(f, x), TypeName(a), counter, fuel) == Failed(TypeMismatch)
  {
  }

  /** Either side is returned as it is when the other is empty. */
  lemma MergeWithEmpty(s: Substitution, counter: nat, fuel: nat)
    ensures Merge(map[], s, counter, fuel) == Done(s, counter)
    ensures Merge(s, map[], counter, fuel) == Done(s, counter)
  {
  }

  /** A merge keeps every variable of both sides. */
  lemma MergeKeys(left: Substitution, right: Substitution, counter: nat, fuel: nat)
    requires Merge(left, right, counter, fuel).Done?
    ensures left.Keys + right.Keys <= Merge(left, right, counter, fuel).value.Keys
  {
  }

  /** Two substitutions with no variable in common merge into their union,
      each value resolved against the union. */
  lemma MergeDisjoint(left: Substitution, right: Substitution, counter: nat, fuel: nat)
    requires left != map[] && right != map[] && left.Keys !! right.Keys && fuel >= 1
    ensures Merge(left, right, counter, fuel)
              == Done(SelfApplied(left + right), counter)
  {
    var shared := Sorted(left.Keys * right.Keys);
    assert |shared| == 0;
    assert MergeShared(shared, left, right, map[], counter, fuel - 1) == Done(map[], counter);
    assert (left + right) + map[] == left + right;
  }

  /** Unifying `(a, b) ~ (b, a)` binds `a` to `b` and `b` to `a`: the merge
      of the two parts gives the cycle on which the written loop of
      `substitute` never stops (ChaseLoopsOnCycle). */
  lemma MergeBuildsCycle(a: string, b: string)
    requires a != b
    ensures Unify(TypeVar(a), TypeVar(b), 0, 1) == Done(map[a := TypeVar(b)], 0)
    ensures Unify(TypeVar(b), TypeVar(a), 0, 1) == Done(map[b := TypeVar(a)], 0)
    ensures (map[a := TypeVar(b)] + map[b := TypeVar(a)]) == map[a := TypeVar(b), b := TypeVar(a)]
  {
  }

  /** Two applications unify when their callers and then their callees do,
      to the merge of the two results; a failure of either part is the
      failure of the whole. */
  lemma UnifyApplications(f: Type, x: Type, g: Type, y: Type, counter: nat, fuel: nat)
    requires fuel >= 1
    ensures var whole := Unify(TypeApply(f, x), TypeApply(g, y), counter, fuel);
      var callers := Unify(f, g, counter, fuel - 1);
      && (callers.Failed? ==> whole == callers)
      && (callers.Done? ==>
            var callees := Unify(x, y, callers.counter, fuel - 1);
            && (callees.Failed? ==> whole == Failed(callees.error))
            && (callees.Done? ==> whole == Merge(callers.value, callees.value, callees.counter, fuel - 1)))
  {
  }

  /** The source's test of a function type against a function type:
      `a -> b ~ Bool -> Int` binds `a` to Bool and `b` to Int. */
  lemma UnifyFunctionTypes(a: string, b: string, counter: nat, fuel: nat)
    requires a != b && fuel >= 3
    ensures Unify(Func(TypeVar(a), TypeVar(b)), Func(TypeName("Bool"), TypeName("Int")), counter, fuel)
              == Done(map[a := TypeName("Bool"), b := TypeName("Int")], counter)
  {
    var arrow := TypeName("->");
    var left := map[a := TypeName("Bool")];
    var right := map[b := TypeName("Int")];
    UnifyArrowArgument(a, counter, fuel - 1);
    UnifyBinds(b, TypeName("Int"), counter, fuel - 1);
    UnifyApplications(TypeApply(arrow, TypeVar(a)), TypeVar(b),
                      TypeApply(arrow, TypeName("Bool")), TypeName("Int"), counter, fuel);
    assert a in left && b in right;
    MergeDisjoint(left, right, counter, fuel - 1);
    SelfAppliedGround(a, b);
  }

  /** `a -> _ ~ Bool -> _` binds `a` to Bool. */
  lemma UnifyArrowArgument(a: string, counter: nat, fuel: nat)
    requires fuel >= 2
    ensures Unify(TypeApply(TypeName("->"), TypeVar(a)), TypeApply(TypeName("->"), TypeName("Bool")), counter, fuel)
              == Done(map[a := TypeName("Bool")], counter)
  {
    var arrow := TypeName("->");
    UnifyNames("->", "->", arrow, arrow, counter, fuel - 1);
    UnifyBinds(a, TypeName("Bool"), counter, fuel - 1);
    UnifyApplications(arrow, TypeVar(a), arrow, TypeName("Bool"), counter, fuel);
    MergeWithEmpty(map[a := TypeName("Bool")], counter, fuel - 1);
  }

  /** Bindings to type names are already fully applied. */
  lemma SelfAppliedGround(a: string, b: string)
    requires a != b
    ensures SelfApplied(map[a := TypeName("Bool")] + map[b := TypeName("Int")])
              == map[a := TypeName("Bool"), b := TypeName("Int")]
  {
    var full := map[a := TypeName("Bool")] + map[b := TypeName("Int")];
    assert Substitute(full[a], full) == TypeName("Bool") && Substitute(full[b], full) == TypeName("Int");
  }

  /** The shared variable's two values are unified, and that unifier is
      laid over both sides without being unified with them: `{a: b}` and
      `{a: Bool, b: Int}` share `a`, `b ~ Bool` gives `{b: Bool}`, and the
      merge `{a: Bool, b: Bool}` no longer binds `b` to Int. */
  lemma MergeLosesBinding(a: string, b: string, counter: nat, fuel: nat)
    requires a != b && fuel >= 2
    ensures var right := map[a := TypeName("Bool"), b := TypeName("Int")];
      var m := Merge(map[a := TypeVar(b)], right, counter, fuel);
      && m == Done(map[a := TypeName("Bool"), b := TypeName("Bool")], counter)
      && Substitute(TypeVar(b), m.value) != Substitute(right[b], m.value)
  {
    var left := map[a := TypeVar(b)];
    var right := map[a := TypeName("Bool"), b := TypeName("Int")];
    var bound := map[b := TypeName("Bool")];
    assert left.Keys * right.Keys == {a};
    var shared := Sorted({a});
    assert shared == [a] by {
      assert |shared| == 1 && a in shared;
    }
    UnifyBinds(b, TypeName("Bool"), counter, fuel - 1);
    MergeWithEmpty(bound, counter, fuel - 1);
    assert shared[1..] == [];
    assert MergeShared(shared, left, right, map[], counter, fuel - 1) == Done(bound, counter);
    var full := left + right + bound;
    assert full == map[a := TypeName("Bool"), b := TypeName("Bool")];
    assert SelfApplied(full) == full;
  }

  /** The unifier as written accepts an equation no substitution solves:
      `a -> (a -> b) ~ b -> (Bool -> Int)` needs `a` equal to `b`, to Bool
      and to Int, yet its parts' unifiers `{a: b}` and `{a: Bool, b: Int}`
      merge into `{a: Bool, b: Bool}` (MergeLosesBinding). */
  lemma UnifyAcceptsClash(a: string, b: string, counter: nat, fuel: nat)
    requires a != b && fuel >= 4
    ensures var left := Func(TypeVar(a), Func(TypeVar(a), TypeVar(b)));
      var right := Func(TypeVar(b), Func(TypeName("Bool"), TypeName("Int")));
      && Unify(left, right, counter, fuel) == Done(map[a := TypeName("Bool"), b := TypeName("Bool")], counter)
      && forall sub :: Substitute(left, sub) != Substitute(right, sub)
  {
    var arrow := TypeName("->");
    UnifyArrowVariable(a, b, counter, fuel - 1);
    UnifyFunctionTypes(a, b, counter, fuel - 1);
    UnifyApplications(TypeApply(arrow, TypeVar(a)), Func(TypeVar(a), TypeVar(b)),
                      TypeApply(arrow, TypeVar(b)), Func(TypeName("Bool"), TypeName("Int")), counter, fuel);
    MergeLosesBinding(a, b, counter, fuel - 1);
    forall sub
      ensures Substitute(Func(TypeVar(a), Func(TypeVar(a), TypeVar(b))), sub)
                != Substitute(Func(TypeVar(b), Func(TypeName("Bool"), TypeName("Int"))), sub)
    {
      ClashUnsolvable(a, b, sub);
    }
  }

  /** `a -> _ ~ b -> _` binds `a` to `b`. */
  lemma UnifyArrowVariable(a: string, b: string, counter: nat, fuel: nat)
    requires a != b && fuel >= 2
    ensures Unify(TypeApply(TypeName("->"), TypeVar(a)), TypeApply(TypeName("->"), TypeVar(b)), counter, fuel)
              == Done(map[a := TypeVar(b)], counter)
  {
    var arrow := TypeName("->");
    UnifyNames("->", "->", arrow, arrow, counter, fuel - 1);
    UnifyBinds(a, TypeVar(b), counter, fuel - 1);
    UnifyApplications(arrow, TypeVar(a), arrow, TypeVar(b), counter, fuel);
    MergeWithEmpty(map[a := TypeVar(b)], counter, fuel - 1);
  }

  /** Equal sides would need `a` to resolve to `b`'s type, to Bool and to Int. */
  lemma ClashUnsolvable(a: string, b: string, sub: Substitution)
    ensures Substitute(Func(TypeVar(a), Func(TypeVar(a), TypeVar(b))), sub)
              != Substitute(Func(TypeVar(b), Func(TypeName("Bool"), TypeName("Int"))), sub)
  {
    var ra := Resolve(sub, a);
    var rb := Resolve(sub, b);
    SubstituteFunc(TypeVar(a), TypeVar(b), sub);
    SubstituteFunc(TypeVar(a), Func(TypeVar(a), TypeVar(b)), sub);
    SubstituteFunc(TypeName("Bool"), TypeName("Int"), sub);
    SubstituteFunc(TypeVar(b), Func(TypeName("Bool"), TypeName("Int")), sub);
  }

  lemma SubstituteFunc(arg: Type, ret: Type, sub: Substitution)
    ensures Substitute(Func(arg, ret), sub) == Func(Substitute(arg, sub), Substitute(ret, sub))
  {
    assert Substitute(TypeApply(TypeName("->"), arg), sub) == TypeApply(TypeName("->"), Substitute(arg, sub));
  }

  // ---------------------------------------------------------------------
  // pattern_infer

  /** The names a pattern binds: its free names other than `_`, its pinned
      names and its list rest names. */
  function PatternNames(p: Pattern): set<string> {
    match p
    case FreeName(n) => if n == "_" then {} else {n}
    case ListPattern(initials, rest) =>
      PatternsNames(initials) + (if rest.Some? then {rest.value} else {})
    case PairPattern(a, b) => PatternNames(a) + PatternNames(b)
    case PinnedName(n) => {n}
    case ScalarPattern(_) => {}
    case UnitPattern => {}
  }

  function PatternsNames(ps: seq<Pattern>): set<string> {
    if ps == [] then {} else PatternsNames(ps[..|ps| - 1]) + PatternNames(ps[|ps| - 1])
  }

  /** `substitution.get(expected_type, expected_type)`: only a type variable
      can find its binding, since other types never equal a variable key. */
  function GetOr(sub: Substitution, t: Type): Type {
    if t.TypeVar? && t.value in sub then sub[t.value] else t
  }

  /** `pattern_infer`: the names a pattern introduces with their types, and
      the type of the values the pattern matches. */
  method PatternInfer(pattern: Pattern, scope: Chain<Type>, counter: nat, fuel: nat)
    returns (r: Outcome<(map<string, Type>, Type)>)
    ensures r.Done? ==> r.value.0.Keys <= PatternNames(pattern) && r.counter >= counter
    ensures pattern.UnitPattern? ==> r == Done((map[], UnitType), counter)
    ensures pattern == FreeName("_") ==> r == Done((map[], Fresh(counter).0), counter + 1)
    ensures pattern.FreeName? && pattern.name != "_" ==>
              r == Done((map[pattern.name := Fresh(counter).0], Fresh(counter).0), counter + 1)
    ensures pattern.ScalarPattern? ==>
              r == Done((map[], TypeName(ScalarTypeName(pattern.value))), counter)
    ensures pattern.PinnedName? && !InChain(scope, pattern.name) ==> r == Failed(UndefinedName(pattern.name))
    ensures pattern.PinnedName? && InChain(scope, pattern.name) ==>
              var t := ChainLookup(scope, pattern.name).value;
              r == Done((map[pattern.name := t], t), counter)
    ensures pattern.PairPattern? && r.Done? ==>
              (r.value.1.TypeApply? && r.value.1.caller.TypeApply? && r.value.1.caller.caller == TypeName(","))
    ensures pattern.ListPattern? && r.Done? ==> ListOf(r.value.1)
    ensures pattern.ListPattern? && pattern.rest.Some? && r.Done? ==>
              pattern.rest.value in r.value.0 && r.value.0[pattern.rest.value] == r.value.1
    decreases pattern, 1
  {
    match pattern
    case UnitPattern => return Done((map[], UnitType), counter);
    case PinnedName(n) =>
      var t := ChainLookup(scope, n);
      if t.None? {
        return Failed(UndefinedName(n));
      }
      return Done((map[n := t.value], t.value), counter);
    case FreeName(n) =>
      var (unknown, next) := Fresh(counter);
      return Done((if n == "_" then map[] else map[n := unknown], unknown), next);
    case ScalarPattern(v) =>
      return Done((map[], TypeName(ScalarTypeName(v))), counter);
    case PairPattern(first, second) =>
      var firstOut := PatternInfer(first, scope, counter, fuel);
      if !firstOut.Done? {
        return if firstOut.Failed? then Failed(firstOut.error) else OutOfFuel;
      }
      var secondOut := PatternInfer(second, scope, firstOut.counter, fuel);
      if !secondOut.Done? {
        return if secondOut.Failed? then Failed(secondOut.error) else OutOfFuel;
      }
      return Done((firstOut.value.0 + secondOut.value.0, Types.Pair(firstOut.value.1, secondOut.value.1)),
                  secondOut.counter);
    case ListPattern(initials, rest) =>
      r := ListPatternInfer(pattern, scope, counter, fuel);
  }

  predicate ListOf(t: Type) {
    t.TypeApply? && t.caller == TypeName("List")
  }

  /** `_list_pattern_infer`: every element's type is unified with the
      element type found so far, and a rest name is bound to the list
      type. */
  method ListPatternInfer(pattern: Pattern, scope: Chain<Type>, counter: nat, fuel: nat)
    returns (r: Outcome<(map<string, Type>, Type)>)
    requires pattern.ListPattern?
    ensures r.Done? ==> r.value.0.Keys <= PatternNames(pattern) && r.counter >= counter
    ensures r.Done? ==> ListOf(r.value.1)
    ensures r.Done? && pattern.initials == [] ==> r.value.1 == TypeApply(TypeName("List"), Fresh(counter).0)
    ensures r.Done? && pattern.rest.Some? ==>
              pattern.rest.value in r.value.0 && r.value.0[pattern.rest.value] == r.value.1
    decreases pattern, 0
  {
    var fullScope: map<string, Type> := map[];
    var (expected, next) := Fresh(counter);
    var i := 0;
    while i < |pattern.initials|
      invariant 0 <= i <= |pattern.initials|
      invariant next > counter
      invariant fullScope.Keys <= PatternsNames(pattern.initials[..i])
      invariant i == 0 ==> expected == Fresh(counter).0
    {
      assert pattern.initials[..i + 1][..i] == pattern.initials[..i];
      assert PatternsNames(pattern.initials[..i + 1])
          == PatternsNames(pattern.initials[..i]) + PatternNames(pattern.initials[i]);
      var elem := PatternInfer(pattern.initials[i], scope, next, fuel);
      if !elem.Done? {
        return if elem.Failed? then Failed(elem.error) else OutOfFuel;
      }
      fullScope := fullScope + elem.value.0;
      var unified := Unify(expected, elem.value.1, elem.counter, fuel);
      if !unified.Done? {
        return if unified.Failed? then Failed(unified.error) else OutOfFuel;
      }
      expected := GetOr(unified.value, expected);
      next := unified.counter;
      i := i + 1;
    }
    assert pattern.initials[..i] == pattern.initials;
    var result := TypeApply(TypeName("List"), expected);
    if pattern.rest.Some? {
      fullScope := fullScope[pattern.rest.value := result];
    }
    return Done((fullScope, result), next);
  }
}
