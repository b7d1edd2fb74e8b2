/** The type language of `hanno/asts/types_.py`: type applications, named
    types, type schemes and type variables, with the source's equality and
    containment rules and the counter behind fresh type variables. */
module Types {
  import opened Text

  /** A type. A scheme's bound variables are kept by name: the source keeps
      them in a frozenset of type variables, which hash by name. */
  datatype Type =
    | TypeApply(caller: Type, callee: Type)
    | TypeName(value: string)
    | TypeScheme(actual: Type, bound: set<string>)
    | TypeVar(value: string)

  const UnitType: Type := TypeName("Unit")
  const NeverType: Type := TypeName("Never")

  /** `TypeApply.func`: the function type `arg -> ret`. */
  function Func(arg: Type, ret: Type): Type {
    TypeApply(TypeApply(TypeName("->"), arg), ret)
  }

  /** `TypeApply.pair`: the product type of `first` and `second`. */
  function Pair(first: Type, second: Type): Type {
    TypeApply(TypeApply(TypeName(","), first), second)
  }

  /** `__eq__` across the type classes. Type variables all equal one
      another whatever their names; schemes compare their bodies and the
      number of bound variables; nothing equals a type of another class. */
  predicate TypeEq(a: Type, b: Type) {
    match a
    case TypeApply(f, x) => b.TypeApply? && TypeEq(f, b.caller) && TypeEq(x, b.callee)
    case TypeName(n) => b.TypeName? && n == b.value
    case TypeScheme(t, bound) => b.TypeScheme? && TypeEq(t, b.actual) && |bound| == |b.bound|
    case TypeVar(_) => b.TypeVar?
  }

  lemma {:induction false} TypeEqReflexive(a: Type)
    ensures TypeEq(a, a)
  {
    match a
    case TypeApply(f, x) => TypeEqReflexive(f); TypeEqReflexive(x);
    case TypeScheme(t, _) => TypeEqReflexive(t);
    case _ =>
  }

  lemma {:induction false} TypeEqSymmetric(a: Type, b: Type)
    requires TypeEq(a, b)
    ensures TypeEq(b, a)
  {
    match a
    case TypeApply(f, x) => TypeEqSymmetric(f, b.caller); TypeEqSymmetric(x, b.callee);
    case TypeScheme(t, _) => TypeEqSymmetric(t, b.actual);
    case _ =>
  }

  lemma {:induction false} TypeEqTransitive(a: Type, b: Type, c: Type)
    requires TypeEq(a, b) && TypeEq(b, c)
    ensures TypeEq(a, c)
  {
    match a
    case TypeApply(f, x) =>
      TypeEqTransitive(f, b.caller, c.caller);
      TypeEqTransitive(x, b.callee, c.callee);
    case TypeScheme(t, _) => TypeEqTransitive(t, b.actual, c.actual);
    case _ =>
  }

  /** Equality cannot tell type variables apart, and so cannot tell apart
      two function types that differ only in their variables' names. */
  lemma VariablesIndistinct(x: string, y: string, ret: Type)
    ensures TypeEq(TypeVar(x), TypeVar(y))
    ensures TypeEq(Func(TypeVar(x), ret), Func(TypeVar(y), ret))
  {
    TypeEqReflexive(ret);
  }

  /** Function and pair types are told apart by their head name, and each
      equals another of its kind exactly when the parts are equal. */
  lemma FuncPairEq(a: Type, b: Type, c: Type, d: Type)
    ensures !TypeEq(Func(a, b), Pair(c, d))
    ensures TypeEq(Func(a, b), Func(c, d)) <==> TypeEq(a, c) && TypeEq(b, d)
    ensures TypeEq(Pair(a, b), Pair(c, d)) <==> TypeEq(a, c) && TypeEq(b, d)
  {
    assert TypeEq(TypeApply(TypeName("->"), a), TypeApply(TypeName("->"), c)) <==> TypeEq(a, c);
    assert TypeEq(TypeApply(TypeName(","), a), TypeApply(TypeName(","), c)) <==> TypeEq(a, c);
    assert !TypeEq(TypeApply(TypeName("->"), a), TypeApply(TypeName(","), c)) by {
      assert "->" != ",";
    }
  }

  /** `value in type_`, the occurs relation. A variable contains a variable
      of the same name; an application contains what either side contains;
      names and schemes contain nothing. */
  predicate Contains(t: Type, v: Type) {
    match t
    case TypeApply(f, x) => Contains(f, v) || Contains(x, v)
    case TypeName(_) => false
    case TypeScheme(_, _) => false
    case TypeVar(n) => v.TypeVar? && v.value == n
  }

  /** The type variables that occur in `t` outside any scheme. */
  function OpenVars(t: Type): set<string> {
    match t
    case TypeApply(f, x) => OpenVars(f) + OpenVars(x)
    case TypeName(_) => {}
    case TypeScheme(_, _) => {}
    case TypeVar(n) => {n}
  }

  /** Only a type variable can be contained, and it is contained exactly
      when it occurs outside every scheme. */
  lemma {:induction false} ContainsOpenVar(t: Type, v: Type)
    ensures Contains(t, v) <==> v.TypeVar? && v.value in OpenVars(t)
  {
    match t
    case TypeApply(f, x) => ContainsOpenVar(f, v); ContainsOpenVar(x, v);
    case _ =>
  }

  /** The function type built by `TypeApply.func` contains exactly what its
      argument and result types contain. */
  lemma FuncContains(a: Type, b: Type, v: Type)
    ensures Contains(Func(a, b), v) <==> Contains(a, v) || Contains(b, v)
  {
    assert Contains(TypeApply(TypeName("->"), a), v) <==> Contains(a, v);
  }

  /** `TypeApply.tuple_` as written: the last two elements are paired, then
      each earlier element is paired onto the front in turn, from the first
      onwards, which reverses the earlier elements. */
  function TupleAsWritten(elems: seq<Type>): (r: Type)
    ensures |elems| == 1 ==> r == elems[0]
    ensures elems == [] ==> r == UnitType
  {
    if elems == [] then UnitType
    else if |elems| == 1 then elems[0]
    else PairOnto(elems[..|elems| - 2], Pair(elems[|elems| - 2], elems[|elems| - 1]))
  }

  /** The loop of `tuple_`: pairs each of `elems`, in order, onto `acc`. */
  function PairOnto(elems: seq<Type>, acc: Type): Type {
    if elems == [] then acc else PairOnto(elems[1..], Pair(elems[0], acc))
  }

  /** With four elements, the written loop puts the second element first. */
  lemma TupleAsWrittenReordersFour(a: Type, b: Type, c: Type, d: Type)
    ensures TupleAsWritten([a, b, c, d]) == Pair(b, Pair(a, Pair(c, d)))
    ensures a != b ==> TupleAsWritten([a, b, c, d]) != Tuple([a, b, c, d])
  {
    assert [a, b, c, d][..2] == [a, b];
    calc {
      TupleAsWritten([a, b, c, d]);
      PairOnto([a, b], Pair(c, d));
      { assert [a, b][1..] == [b]; }
      PairOnto([b], Pair(a, Pair(c, d)));
      { assert [b][1..] == []; }
      PairOnto([], Pair(b, Pair(a, Pair(c, d))));
    }
  }

  /** `TypeApply.tuple_` as intended: the unit for no elements, the element
      itself for one, and right-nested pairs in order for more. */
  function Tuple(elems: seq<Type>): (r: Type)
    ensures elems == [] ==> r == UnitType
    ensures |elems| == 1 ==> r == elems[0]
  {
    if elems == [] then UnitType
    else if |elems| == 1 then elems[0]
    else Pair(elems[0], Tuple(elems[1..]))
  }

  /** The first `n - 1` components of a right-nested pair, then the rest. */
  function Components(t: Type, n: nat): seq<Type> {
    if n <= 1 then [t]
    else if t.TypeApply? && t.caller.TypeApply? && t.caller.caller == TypeName(",")
    then [t.caller.callee] + Components(t.callee, n - 1)
    else [t]
  }

  /** Unnesting the pairs of a tuple of at least two elements gives the
      elements back, in order. */
  lemma {:induction false} TupleComponents(elems: seq<Type>)
    requires |elems| >= 2
    ensures Components(Tuple(elems), |elems|) == elems
    decreases |elems|
  {
    if |elems| > 2 {
      TupleComponents(elems[1..]);
    } else {
      assert elems == [elems[0], elems[1]];
    }
  }

  /** The written loop agrees with the intended tuple up to three elements,
      which covers the source's one caller, a pair type. */
  lemma TupleAgreesUpToThree(elems: seq<Type>)
    requires |elems| <= 3
    ensures TupleAsWritten(elems) == Tuple(elems)
  {
    if |elems| == 3 {
      assert elems[..1] == [elems[0]];
      assert [elems[0]][1..] == [];
      assert PairOnto(elems[..1], Pair(elems[1], elems[2])) == Pair(elems[0], Pair(elems[1], elems[2]));
      assert elems[1..][1..] == [elems[2]];
    } else if |elems| == 2 {
      assert elems[..0] == [];
    }
  }

  /** `TypeVar.unknown`'s naming rule: the counter is incremented and its
      new value, in decimal, is the name. */
  function Fresh(counter: nat): (r: (Type, nat))
    ensures r.1 == counter + 1 && r.0.TypeVar?
  {
    (TypeVar(NatToString(counter + 1)), counter + 1)
  }

  /** Different counter values give different names, so every variable the
      counter hands out is new. */
  lemma FreshDistinct(m: nat, n: nat)
    requires m != n
    ensures Fresh(m).0 != Fresh(n).0
  {
    NatToStringInjective(m + 1, n + 1);
  }

  /** The class-level counter `n_type_vars` behind `TypeVar.unknown`. */
  class TypeVarSupply {
    var count: nat

    constructor ()
      ensures count == 0
    {
      count := 0;
    }

    /** `TypeVar.unknown`: a variable with a name never handed out before. */
    method Unknown() returns (t: Type)
      modifies this
      ensures (t, count) == Fresh(old(count))
      ensures forall k :: 0 <= k < old(count) ==> t != Fresh(k).0
    {
      count := count + 1;
      t := TypeVar(NatToString(count));
      forall k | 0 <= k < old(count)
        ensures t != Fresh(k).0
      {
        FreshDistinct(k, old(count));
      }
    }
  }
}
