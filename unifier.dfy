/** Unification as `unify` and `merge_substitutions` of
    `hanno/type_inference/utils.py` are meant to behave: the substitution
    found so far is applied to both sides before they are compared, and a
    new binding is composed into it, so that every equation solved earlier
    stays solved. The functions of `Unification` model the code as written,
    which merges separately found substitutions and can lose a binding on
    the way (`Unification.MergeLosesBinding`). */
module Unifier {
  import opened Errors
  import opened Text
  import opened Types
  import opened Unification

  // ---------------------------------------------------------------------
  // solved substitutions

  /** No variable the substitution binds occurs in any of its values, and
      no value holds a scheme: applying it once applies it fully. */
  predicate Solved(s: Substitution) {
    && (forall k, v :: k in s && v in FreeVars(s[k]) ==> v !in s)
    && (forall k :: k in s ==> NoSchemes(s[k]))
  }

  /** `s'` keeps every equation `s` solves: it binds every variable `s`
      binds, to what `s` binds it to with `s'` applied. */
  predicate Refines(s': Substitution, s: Substitution) {
    s.Keys <= s'.Keys && forall k :: k in s ==> Substitute(s[k], s') == s'[k]
  }

  /** `s` with `x` bound to `t`, and `x` replaced by `t` in every value. */
  function Bind(s: Substitution, x: string, t: Type): (r: Substitution)
    ensures r.Keys == s.Keys + {x}
  {
    (map k | k in s :: Substitute(s[k], map[x := t]))[x := t]
  }

  /** Under a solved substitution a variable resolves in one step. */
  lemma ResolveSolved(s: Substitution, v: string)
    requires Solved(s)
    ensures Resolve(s, v) == if v in s then s[v] else TypeVar(v)
  {
    if v in s && s[v].TypeVar? {
      assert s[v].value in FreeVars(s[v]);
    }
  }

  /** Applying a solved substitution leaves no scheme and no variable it
      binds. */
  lemma {:induction false} SubstituteSolved(u: Type, s: Substitution)
    requires Solved(s) && NoSchemes(u)
    ensures NoSchemes(Substitute(u, s)) && FreeVars(Substitute(u, s)) !! s.Keys
  {
    match u
    case TypeVar(v) => ResolveSolved(s, v);
    case TypeApply(f, x) => SubstituteSolved(f, s); SubstituteSolved(x, s);
    case TypeName(_) =>
  }

  /** Replacing `x` by `t` removes `x` and brings in only `t`'s variables. */
  lemma {:induction false} SubstituteOne(u: Type, x: string, t: Type)
    requires NoSchemes(u) && NoSchemes(t) && x !in FreeVars(t)
    ensures var r := Substitute(u, map[x := t]);
      NoSchemes(r) && FreeVars(r) <= (FreeVars(u) - {x}) + FreeVars(t)
  {
    match u
    case TypeVar(v) => ResolveSolved(map[x := t], v);
    case TypeApply(f, a) => SubstituteOne(f, x, t); SubstituteOne(a, x, t);
    case TypeName(_) =>
  }

  /** Applying `s` and then a refinement of it is applying the refinement. */
  lemma {:induction false} RefinesType(u: Type, s: Substitution, s': Substitution)
    requires NoSchemes(u) && Solved(s) && Solved(s') && Refines(s', s)
    ensures Substitute(Substitute(u, s), s') == Substitute(u, s')
  {
    match u
    case TypeVar(v) =>
      ResolveSolved(s, v);
      ResolveSolved(s', v);
    case TypeApply(f, a) => RefinesType(f, s, s'); RefinesType(a, s, s');
    case TypeName(_) =>
  }

  lemma RefinesTrans(s: Substitution, s1: Substitution, s2: Substitution)
    requires Solved(s) && Solved(s1) && Solved(s2) && Refines(s1, s) && Refines(s2, s1)
    ensures Refines(s2, s)
  {
    forall k | k in s
      ensures Substitute(s[k], s2) == s2[k]
    {
      RefinesType(s[k], s1, s2);
    }
  }

  lemma RefinesRefl(s: Substitution)
    requires Solved(s)
    ensures Refines(s, s)
  {
    forall k | k in s
      ensures Substitute(s[k], s) == s[k]
    {
      SubstituteUntouched(s[k], s);
    }
  }

  /** Binding a variable that is neither bound nor in `t` keeps the
      substitution solved, refines it, and solves `x ~ t`. */
  lemma BindSolved(s: Substitution, x: string, t: Type)
    requires Solved(s) && x !in s && NoSchemes(t) && x !in FreeVars(t) && FreeVars(t) !! s.Keys
    ensures var b := Bind(s, x, t);
      Solved(b) && Refines(b, s) && Substitute(TypeVar(x), b) == t && Substitute(t, b) == t
  {
    var b := Bind(s, x, t);
    BindStaysSolved(s, x, t);
    forall k | k in s
      ensures Substitute(s[k], b) == b[k]
    {
      BindAgrees(s[k], s, x, t);
    }
    ResolveSolved(b, x);
    SubstituteUntouched(t, b);
  }

  lemma BindStaysSolved(s: Substitution, x: string, t: Type)
    requires Solved(s) && x !in s && NoSchemes(t) && x !in FreeVars(t) && FreeVars(t) !! s.Keys
    ensures Solved(Bind(s, x, t))
  {
    var b := Bind(s, x, t);
    forall k | k in b
      ensures NoSchemes(b[k]) && forall v :: v in FreeVars(b[k]) ==> v !in b
    {
      if k != x {
        BindValue(s, x, t, k, b[k]);
      }
    }
  }

  /** A value of `s` with `x` replaced holds no scheme and no variable of
      the composed substitution. */
  lemma BindValue(s: Substitution, x: string, t: Type, k: string, u: Type)
    requires Solved(s) && x !in s && NoSchemes(t) && x !in FreeVars(t) && FreeVars(t) !! s.Keys
    requires k in s && u == Substitute(s[k], map[x := t])
    ensures NoSchemes(u) && forall v :: v in FreeVars(u) ==> v !in s && v != x
  {
    SubstituteOne(s[k], x, t);
  }

  /** On a type free of `s`'s variables, the composed substitution acts as
      the single binding. */
  lemma {:induction false} BindAgrees(u: Type, s: Substitution, x: string, t: Type)
    requires Solved(Bind(s, x, t)) && NoSchemes(u) && FreeVars(u) !! s.Keys && x !in FreeVars(t)
    ensures Substitute(u, Bind(s, x, t)) == Substitute(u, map[x := t])
  {
    match u
    case TypeVar(v) =>
      ResolveSolved(Bind(s, x, t), v);
      ResolveSolved(map[x := t], v);
    case TypeApply(f, a) => BindAgrees(f, s, x, t); BindAgrees(a, s, x, t);
    case TypeName(_) =>
  }

  // ---------------------------------------------------------------------
  // unification under a substitution

  /** Unifies `left ~ right` under the substitution `s` found so far:
      schemes are instantiated, `s` is applied to both sides, and then the
      cases of `unify` follow, with a new binding composed into `s` and the
      callees of two applications unified under what their callers gave. */
  function UnifyUnder(left: Type, right: Type, s: Substitution, counter: nat, fuel: nat): (r: Outcome<Substitution>)
    ensures r.Done? ==> r.counter >= counter && s.Keys <= r.value.Keys
    decreases fuel, 1
  {
    if fuel == 0 then OutOfFuel
    else
      var (l0, c1) := Instantiate(left, counter);
      var (r0, c2) := Instantiate(right, c1);
      UnifyInstances(l0, r0, s, c2, fuel)
  }

  /** The cases of `unify` once both sides are instantiated. */
  function UnifyInstances(l0: Type, r0: Type, s: Substitution, counter: nat, fuel: nat): (r: Outcome<Substitution>)
    requires fuel > 0
    ensures r.Done? ==> r.counter >= counter && s.Keys <= r.value.Keys
    decreases fuel, 0
  {
    var l := Substitute(l0, s);
    var r := Substitute(r0, s);
    if l.TypeVar? then
      if r.TypeVar? && l.value == r.value then Done(s, counter)
      else if Contains(r, l) then Failed(CircularType)
      else Done(Bind(s, l.value, r), counter)
    else if r.TypeVar? then UnifyUnder(r, l, s, counter, fuel - 1)
    else if l.TypeName? && TypeEq(l, r) then Done(s, counter)
    else if l.TypeApply? && r.TypeApply? then
      match UnifyUnder(l.caller, r.caller, s, counter, fuel - 1)
      case Done(s1, c3) => UnifyUnder(l.callee, r.callee, s1, c3, fuel - 1)
      case Failed(e) => Failed(e)
      case OutOfFuel => OutOfFuel
    else Failed(TypeMismatch)
  }

  /** `unify` as intended: unification from the empty substitution. */
  function UnifyIntended(left: Type, right: Type, counter: nat, fuel: nat): Outcome<Substitution> {
    UnifyUnder(left, right, map[], counter, fuel)
  }

  /** Soundness of one step: a result keeps the substitution solved, keeps
      every equation solved before, and makes both sides equal. */
  lemma {:induction false} UnifyUnderSound(left: Type, right: Type, s: Substitution, counter: nat, fuel: nat)
    requires NoSchemes(left) && NoSchemes(right) && Solved(s)
    ensures var o := UnifyUnder(left, right, s, counter, fuel);
      o.Done? ==> Solved(o.value) && Refines(o.value, s)
                  && Substitute(left, o.value) == Substitute(right, o.value)
    decreases fuel
  {
    var o := UnifyUnder(left, right, s, counter, fuel);
    if fuel > 0 && o.Done? {
      var l := Substitute(left, s);
      var r := Substitute(right, s);
      SubstituteSolved(left, s);
      SubstituteSolved(right, s);
      if l.TypeVar? {
        if r.TypeVar? && l.value == r.value {
          RefinesRefl(s);
        } else {
          VarCase(left, right, s);
        }
      } else if r.TypeVar? {
        UnifyUnderSound(r, l, s, counter, fuel - 1);
        RefinesType(left, s, o.value);
        RefinesType(right, s, o.value);
      } else if l.TypeName? && TypeEq(l, r) {
        RefinesRefl(s);
      } else {
        ApplyCase(left, right, s, counter, fuel);
      }
    }
  }

  /** A variable against a type not containing it. */
  lemma VarCase(left: Type, right: Type, s: Substitution)
    requires NoSchemes(left) && NoSchemes(right) && Solved(s)
    requires var l := Substitute(left, s); var r := Substitute(right, s);
      l.TypeVar? && !(r.TypeVar? && l.value == r.value) && !Contains(r, l)
    ensures var l := Substitute(left, s); var r := Substitute(right, s);
      var b := Bind(s, l.value, r);
      Solved(b) && Refines(b, s) && Substitute(left, b) == Substitute(right, b)
  {
    var l := Substitute(left, s);
    var r := Substitute(right, s);
    SubstituteSolved(left, s);
    SubstituteSolved(right, s);
    ContainsOpenVar(r, l);
    OpenVarsAreFree(r);
    assert l.value in FreeVars(l);
    BindSolved(s, l.value, r);
    var b := Bind(s, l.value, r);
    RefinesType(left, s, b);
    RefinesType(right, s, b);
  }

  /** Two applications: callers first, then callees under the callers'
      result. */
  lemma {:induction false} ApplyCase(left: Type, right: Type, s: Substitution, counter: nat, fuel: nat)
    requires NoSchemes(left) && NoSchemes(right) && Solved(s) && fuel > 0
    requires var l := Substitute(left, s); var r := Substitute(right, s);
      !l.TypeVar? && !r.TypeVar? && !(l.TypeName? && TypeEq(l, r))
    requires UnifyUnder(left, right, s, counter, fuel).Done?
    ensures var o := UnifyUnder(left, right, s, counter, fuel);
      Solved(o.value) && Refines(o.value, s) && Substitute(left, o.value) == Substitute(right, o.value)
    decreases fuel, 0
  {
    var l := Substitute(left, s);
    var r := Substitute(right, s);
    assert NoSchemes(l) && NoSchemes(r) by {
      SubstituteSolved(left, s);
      SubstituteSolved(right, s);
    }
    ApplyStep(left, right, s, counter, fuel);
    var o1 := UnifyUnder(l.caller, r.caller, s, counter, fuel - 1);
    var s1 := o1.value;
    var o2 := UnifyUnder(l.callee, r.callee, s1, o1.counter, fuel - 1);
    UnifyUnderSound(l.caller, r.caller, s, counter, fuel - 1);
    UnifyUnderSound(l.callee, r.callee, s1, o1.counter, fuel - 1);
    ApplyParts(left, right, s, s1, o2.value);
  }

  /** A successful unification of two applications is the callers'
      unification followed by the callees' under its result. */
  lemma ApplyStep(left: Type, right: Type, s: Substitution, counter: nat, fuel: nat)
    requires NoSchemes(left) && NoSchemes(right) && fuel > 0
    requires var l := Substitute(left, s); var r := Substitute(right, s);
      !l.TypeVar? && !r.TypeVar? && !(l.TypeName? && TypeEq(l, r))
    requires UnifyUnder(left, right, s, counter, fuel).Done?
    ensures var l := Substitute(left, s); var r := Substitute(right, s);
      l.TypeApply? && r.TypeApply?
      && var o1 := UnifyUnder(l.caller, r.caller, s, counter, fuel - 1);
      o1.Done? && UnifyUnder(left, right, s, counter, fuel) == UnifyUnder(l.callee, r.callee, o1.value, o1.counter, fuel - 1)
  {
    assert Instantiate(left, counter) == (left, counter);
    assert Instantiate(right, counter) == (right, counter);
    assert UnifyUnder(left, right, s, counter, fuel) == UnifyInstances(left, right, s, counter, fuel);
  }

  /** The two applications are equal under `s2` once their callers are
      equal under `s1` and their callees under `s2`, which refines `s1`. */
  lemma ApplyParts(left: Type, right: Type, s: Substitution, s1: Substitution, s2: Substitution)
    requires NoSchemes(left) && NoSchemes(right) && Solved(s) && Solved(s1) && Solved(s2)
    requires Refines(s1, s) && Refines(s2, s1)
    requires var l := Substitute(left, s); var r := Substitute(right, s);
      l.TypeApply? && r.TypeApply?
      && Substitute(l.caller, s1) == Substitute(r.caller, s1)
      && Substitute(l.callee, s2) == Substitute(r.callee, s2)
    ensures Refines(s2, s) && Substitute(left, s2) == Substitute(right, s2)
  {
    var l := Substitute(left, s);
    var r := Substitute(right, s);
    SubstituteSolved(left, s);
    SubstituteSolved(right, s);
    RefinesTrans(s, s1, s2);
    RefinesType(l.caller, s1, s2);
    RefinesType(r.caller, s1, s2);
    RefinesType(left, s, s2);
    RefinesType(right, s, s2);
  }

  /** Whatever the intended unifier returns makes both sides equal. */
  lemma UnifySound(left: Type, right: Type, counter: nat, fuel: nat)
    requires NoSchemes(left) && NoSchemes(right)
    ensures var o := UnifyIntended(left, right, counter, fuel);
      o.Done? ==> Substitute(left, o.value) == Substitute(right, o.value)
  {
    UnifyUnderSound(left, right, map[], counter, fuel);
  }

  /** The equation the written unifier wrongly accepts
      (`Unification.UnifyAcceptsClash`) is rejected. */
  lemma ClashRejected(a: string, b: string, counter: nat, fuel: nat)
    ensures var left := Func(TypeVar(a), Func(TypeVar(a), TypeVar(b)));
      var right := Func(TypeVar(b), Func(TypeName("Bool"), TypeName("Int")));
      !UnifyIntended(left, right, counter, fuel).Done?
  {
    var left := Func(TypeVar(a), Func(TypeVar(a), TypeVar(b)));
    var right := Func(TypeVar(b), Func(TypeName("Bool"), TypeName("Int")));
    UnifySound(left, right, counter, fuel);
    var o := UnifyIntended(left, right, counter, fuel);
    if o.Done? {
      ClashUnsolvable(a, b, o.value);
    }
  }

  // ---------------------------------------------------------------------
  // solving a list of equations

  /** The equations solved one after another, each under the substitution
      the earlier ones gave. */
  function SolveUnder(eqs: seq<(Type, Type)>, s: Substitution, counter: nat, fuel: nat): (r: Outcome<Substitution>)
    ensures r.Done? ==> r.counter >= counter
  {
    if eqs == [] then Done(s, counter)
    else
      match UnifyUnder(eqs[0].0, eqs[0].1, s, counter, fuel)
      case Done(s1, c1) => SolveUnder(eqs[1..], s1, c1, fuel)
      case Failed(e) => Failed(e)
      case OutOfFuel => OutOfFuel
  }

  /** A solution of a list of scheme-free equations solves every one of
      them. */
  lemma {:induction false} SolveSound(eqs: seq<(Type, Type)>, s: Substitution, counter: nat, fuel: nat)
    requires forall i :: 0 <= i < |eqs| ==> NoSchemes(eqs[i].0) && NoSchemes(eqs[i].1)
    requires Solved(s)
    ensures var o := SolveUnder(eqs, s, counter, fuel);
      o.Done? ==> Solved(o.value) && Refines(o.value, s)
                  && forall i :: 0 <= i < |eqs| ==> Substitute(eqs[i].0, o.value) == Substitute(eqs[i].1, o.value)
  {
    var o := SolveUnder(eqs, s, counter, fuel);
    if eqs == [] {
      RefinesRefl(s);
    } else if o.Done? {
      var o1 := UnifyUnder(eqs[0].0, eqs[0].1, s, counter, fuel);
      UnifyUnderSound(eqs[0].0, eqs[0].1, s, counter, fuel);
      var s1 := o1.value;
      SolveSound(eqs[1..], s1, o1.counter, fuel);
      RefinesTrans(s, s1, o.value);
      RefinesType(eqs[0].0, s1, o.value);
      RefinesType(eqs[0].1, s1, o.value);
      forall i | 0 < i < |eqs|
        ensures Substitute(eqs[i].0, o.value) == Substitute(eqs[i].1, o.value)
      {
        assert eqs[i] == eqs[1..][i - 1];
      }
    }
  }
  // ---------------------------------------------------------------------
  // equations with schemes

  /** A type the solver can take as one side of an equation: free of
      schemes, or a scheme whose body is. `generalise` makes nothing else
      out of a type without schemes. */
  predicate Shallow(t: Type) {
    NoSchemes(t) || (t.TypeScheme? && NoSchemes(t.actual))
  }

  /** `u` is what `instantiate` makes of `t` for some counter value: `t`
      itself when it is no scheme, else its body with fresh variables for
      the bound ones. */
  ghost predicate InstanceOf(u: Type, t: Type) {
    exists c: nat :: u == Instantiate(t, c).0
  }

  /** Generalising a type without schemes gives a shallow type. */
  lemma GeneraliseShallow(t: Type)
    requires NoSchemes(t)
    ensures Shallow(Generalise(t))
  {
  }

  /** Substituting values without schemes into a type without schemes
      leaves no scheme. */
  lemma {:induction false} SubstituteNoSchemes(u: Type, sub: Substitution)
    requires NoSchemes(u) && forall k :: k in sub ==> NoSchemes(sub[k])
    ensures NoSchemes(Substitute(u, sub))
  {
    match u
    case TypeVar(v) => ResolveEnds(sub, v, {v});
    case TypeApply(f, x) => SubstituteNoSchemes(f, sub); SubstituteNoSchemes(x, sub);
    case TypeName(_) =>
  }

  /** Instantiating a shallow type leaves no scheme. */
  lemma InstantiateShallow(t: Type, counter: nat)
    requires Shallow(t)
    ensures NoSchemes(Instantiate(t, counter).0)
  {
    if t.TypeScheme? {
      var (vars, _) := FreshVars(Sorted(t.bound), counter);
      SubstituteNoSchemes(t.actual, vars);
    }
  }

  /** On shallow sides, the unifier's first step instantiates them and then
      works on types without schemes. */
  lemma UnifyInstantiated(left: Type, right: Type, s: Substitution, counter: nat, fuel: nat)
    requires Shallow(left) && Shallow(right) && fuel > 0
    ensures var i1 := Instantiate(left, counter); var i2 := Instantiate(right, i1.1);
      NoSchemes(i1.0) && NoSchemes(i2.0) && UnifyUnder(left, right, s, counter, fuel) == UnifyUnder(i1.0, i2.0, s, i2.1, fuel)
  {
    var i1 := Instantiate(left, counter);
    var i2 := Instantiate(right, i1.1);
    InstantiateShallow(left, counter);
    InstantiateShallow(right, i1.1);
    assert Instantiate(i1.0, i2.1) == (i1.0, i2.1);
    assert Instantiate(i2.0, i2.1) == (i2.0, i2.1);
  }

  /** The equations the solver actually unifies: each side instantiated
      with the counter reached when its turn comes. */
  function SolvedInstances(eqs: seq<(Type, Type)>, s: Substitution, counter: nat, fuel: nat): (r: seq<(Type, Type)>)
    ensures |r| <= |eqs|
  {
    if eqs == [] || fuel == 0 then []
    else
      var (l, c1) := Instantiate(eqs[0].0, counter);
      var (r, _) := Instantiate(eqs[0].1, c1);
      match UnifyUnder(eqs[0].0, eqs[0].1, s, counter, fuel)
      case Done(s1, c3) => [(l, r)] + SolvedInstances(eqs[1..], s1, c3, fuel)
      case _ => []
  }

  /** Unifying one shallow equation solves the instances the unifier
      makes of its two sides. */
  lemma HeadInstances(e: (Type, Type), s: Substitution, counter: nat, fuel: nat)
    requires Shallow(e.0) && Shallow(e.1) && Solved(s)
    requires UnifyUnder(e.0, e.1, s, counter, fuel).Done?
    ensures var o := UnifyUnder(e.0, e.1, s, counter, fuel);
      var i1 := Instantiate(e.0, counter); var i2 := Instantiate(e.1, i1.1);
      && Solved(o.value) && Refines(o.value, s)
      && NoSchemes(i1.0) && NoSchemes(i2.0)
      && Substitute(i1.0, o.value) == Substitute(i2.0, o.value)
  {
    var i1 := Instantiate(e.0, counter);
    var i2 := Instantiate(e.1, i1.1);
    assert fuel > 0;
    UnifyInstantiated(e.0, e.1, s, counter, fuel);
    UnifyUnderSound(i1.0, i2.0, s, i2.1, fuel);
  }

  /** Two scheme-free types equal under a substitution stay equal under
      every solved substitution refining it. */
  lemma EqualUnderRefinement(l: Type, r: Type, s: Substitution, s': Substitution)
    requires NoSchemes(l) && NoSchemes(r) && Solved(s) && Solved(s') && Refines(s', s)
    requires Substitute(l, s) == Substitute(r, s)
    ensures Substitute(l, s') == Substitute(r, s')
  {
    RefinesType(l, s, s');
    RefinesType(r, s, s');
  }

  /** One step of the solver on shallow equations: the head equation is
      unified, its instances are solved, and the rest is solved under the
      result. */
  lemma SolveStep(eqs: seq<(Type, Type)>, s: Substitution, counter: nat, fuel: nat)
    requires eqs != [] && Shallow(eqs[0].0) && Shallow(eqs[0].1) && Solved(s)
    requires SolveUnder(eqs, s, counter, fuel).Done?
    ensures var o1 := UnifyUnder(eqs[0].0, eqs[0].1, s, counter, fuel);
      var i1 := Instantiate(eqs[0].0, counter); var i2 := Instantiate(eqs[0].1, i1.1);
      && o1.Done? && Solved(o1.value) && Refines(o1.value, s)
      && SolveUnder(eqs, s, counter, fuel) == SolveUnder(eqs[1..], o1.value, o1.counter, fuel)
      && SolvedInstances(eqs, s, counter, fuel)
         == [(i1.0, i2.0)] + SolvedInstances(eqs[1..], o1.value, o1.counter, fuel)
      && InstanceOf(i1.0, eqs[0].0) && InstanceOf(i2.0, eqs[0].1)
      && NoSchemes(i1.0) && NoSchemes(i2.0)
      && Substitute(i1.0, o1.value) == Substitute(i2.0, o1.value)
  {
    HeadInstances(eqs[0], s, counter, fuel);
  }

  /** A solution of shallow equations solves an instance of every one of
      them: with each scheme read as the instance the solver made of it,
      both sides become equal. */
  lemma {:induction false} SolveShallowSound(eqs: seq<(Type, Type)>, s: Substitution, counter: nat, fuel: nat)
    requires forall i :: 0 <= i < |eqs| ==> Shallow(eqs[i].0) && Shallow(eqs[i].1)
    requires Solved(s)
    ensures var o := SolveUnder(eqs, s, counter, fuel);
      var insts := SolvedInstances(eqs, s, counter, fuel);
      o.Done? ==> Solved(o.value) && Refines(o.value, s) && |insts| == |eqs|
                  && forall i :: 0 <= i < |eqs| ==>
                       && InstanceOf(insts[i].0, eqs[i].0) && InstanceOf(insts[i].1, eqs[i].1)
                       && Substitute(insts[i].0, o.value) == Substitute(insts[i].1, o.value)
  {
    var o := SolveUnder(eqs, s, counter, fuel);
    if eqs == [] {
      RefinesRefl(s);
    } else if o.Done? {
      SolveStep(eqs, s, counter, fuel);
      var o1 := UnifyUnder(eqs[0].0, eqs[0].1, s, counter, fuel);
      var s1 := o1.value;
      var head := SolvedInstances(eqs, s, counter, fuel)[0];
      var tail := SolvedInstances(eqs[1..], s1, o1.counter, fuel);
      SolveShallowSound(eqs[1..], s1, o1.counter, fuel);
      RefinesTrans(s, s1, o.value);
      EqualUnderRefinement(head.0, head.1, s1, o.value);
      var insts := SolvedInstances(eqs, s, counter, fuel);
      forall i | 0 <= i < |eqs|
        ensures InstanceOf(insts[i].0, eqs[i].0) && InstanceOf(insts[i].1, eqs[i].1)
        ensures Substitute(insts[i].0, o.value) == Substitute(insts[i].1, o.value)
      {
        if i > 0 {
          assert eqs[i] == eqs[1..][i - 1] && insts[i] == tail[i - 1];
        }
      }
    }
  }
}
