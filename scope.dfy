/** The lexical scopes of `hanno/scope.py`: a chain of dictionaries, each
    scope pointing at the scope around it. */
module Scopes {
  import opened Wrappers
  import opened Errors

  /** The dictionaries of a scope chain, innermost first. */
  type Chain<V> = seq<map<string, V>>

  /** `name in scope`: some scope of the chain binds the name. */
  predicate InChain<V>(c: Chain<V>, name: string) {
    exists i :: 0 <= i < |c| && name in c[i]
  }

  lemma InChainUnfold<V>(c: Chain<V>, name: string)
    requires c != []
    ensures InChain(c, name) <==> name in c[0] || InChain(c[1..], name)
  {
    if InChain(c[1..], name) {
      var i :| 0 <= i < |c[1..]| && name in c[1..][i];
      assert name in c[i + 1];
    }
  }

  /** How many scopes out the name is bound, or -1 when none binds it. */
  function ChainDepth<V>(c: Chain<V>, name: string): (d: int)
    ensures -1 <= d < |c|
    ensures d == -1 <==> !InChain(c, name)
    ensures d >= 0 ==> name in c[d] && forall i :: 0 <= i < d ==> name !in c[i]
  {
    if c == [] then -1
    else if name in c[0] then 0
    else
      var d := ChainDepth(c[1..], name);
      assert forall i :: 1 <= i < |c| ==> c[i] == c[1..][i - 1];
      if d == -1 then -1 else d + 1
  }

  /** The depth is the first scope binding the name, or -1 past the end. */
  lemma DepthAt<V>(c: Chain<V>, name: string, d: int)
    requires 0 <= d <= |c| && forall i :: 0 <= i < d ==> name !in c[i]
    requires d < |c| ==> name in c[d]
    ensures ChainDepth(c, name) == if d == |c| then -1 else d
  {
    if d < |c| {
      assert InChain(c, name);
    }
  }

  /** The value bound to the name by the innermost scope binding it. */
  function ChainLookup<V>(c: Chain<V>, name: string): (r: Option<V>)
    ensures r.Some? <==> InChain(c, name)
    ensures r.Some? ==> r.value == c[ChainDepth(c, name)][name]
  {
    if c == [] then None
    else if name in c[0] then Some(c[0][name])
    else
      assert forall i :: 1 <= i < |c| ==> c[i] == c[1..][i - 1];
      ChainLookup(c[1..], name)
  }

  /** `scope[name] = value`: rebinds the name in the scope that holds it,
      searching outwards from the innermost scope's parent, and binds it in
      the innermost scope when no enclosing scope holds it. */
  function ChainSet<V>(c: Chain<V>, name: string, value: V): (r: Chain<V>)
    requires c != []
    ensures |r| == |c|
  {
    if |c| > 1 && InChain(c[1..], name) then [c[0]] + ChainSet(c[1..], name, value)
    else [c[0][name := value]] + c[1..]
  }

  /** The name is bound by one scope only, or by none: no inner binding
      shadows an outer one. */
  predicate Unshadowed<V>(c: Chain<V>, name: string) {
    forall i, j :: 0 <= i < j < |c| && name in c[i] ==> name !in c[j]
  }

  /** After an assignment to a name no scope shadows, the name looks up to
      the new value. */
  lemma {:induction false} SetThenLookup<V>(c: Chain<V>, name: string, value: V)
    requires c != [] && Unshadowed(c, name)
    ensures ChainLookup(ChainSet(c, name, value), name) == Some(value)
  {
    var r := ChainSet(c, name, value);
    if |c| > 1 && InChain(c[1..], name) {
      assert name !in c[0];
      SetThenLookup(c[1..], name, value);
      assert r[1..] == ChainSet(c[1..], name, value);
    }
  }

  /** When the innermost scope and an enclosing one both bind the name, the
      assignment goes to the enclosing scope and lookups still see the old
      inner value. */
  lemma ShadowedSetInvisible<V>(c: Chain<V>, name: string, value: V)
    requires |c| >= 2 && name in c[0] && name in c[1]
    ensures ChainLookup(ChainSet(c, name, value), name) == Some(c[0][name])
    ensures ChainSet(c, name, value)[0] == c[0]
  {
    assert InChain(c[1..], name) by { assert name in c[1..][0]; }
  }

  /** An assignment leaves every other name's binding as it was. */
  lemma {:induction false} SetKeepsOthers<V>(c: Chain<V>, name: string, value: V, other: string)
    requires c != [] && other != name
    ensures ChainLookup(ChainSet(c, name, value), other) == ChainLookup(c, other)
  {
    var r := ChainSet(c, name, value);
    if |c| > 1 && InChain(c[1..], name) {
      SetKeepsOthers(c[1..], name, value, other);
      assert r[1..] == ChainSet(c[1..], name, value);
    } else {
      assert r[1..] == c[1..];
    }
  }

  /** An assignment never binds the name anew in an enclosing scope: the
      enclosing scopes bind the same names before and after. */
  lemma {:induction false} SetKeepsEnclosingNames<V>(c: Chain<V>, name: string, value: V, i: nat)
    requires c != [] && 1 <= i < |c|
    ensures ChainSet(c, name, value)[i].Keys == c[i].Keys
  {
    if |c| > 1 && InChain(c[1..], name) && i > 1 {
      SetKeepsEnclosingNames(c[1..], name, value, i - 1);
    }
    if |c| > 1 && InChain(c[1..], name) && i == 1 && |c| > 2 {
      SetHeadKeys(c[1..], name, value);
    }
  }

  /** The scope an assignment starts from gains at most the assigned name. */
  lemma SetHeadKeys<V>(c: Chain<V>, name: string, value: V)
    requires c != [] && InChain(c, name)
    ensures ChainSet(c, name, value)[0].Keys == c[0].Keys
  {
  }

  /** `update`: the assignments of `items`, in order. */
  function ChainUpdate<V>(c: Chain<V>, items: seq<(string, V)>): (r: Chain<V>)
    requires c != []
    ensures |r| == |c|
    decreases |items|
  {
    if items == [] then c else ChainUpdate(ChainSet(c, items[0].0, items[0].1), items[1..])
  }

  /** One scope: its own dictionary and the scope around it. */
  class Scope<V> {
    var data: map<string, V>
    var parent: Scope?<V>
    ghost var Repr: set<object>

    ghost predicate Valid()
      reads this, Repr
      decreases Repr
    {
      this in Repr &&
      (parent != null ==>
        parent in Repr && parent.Repr <= Repr && this !in parent.Repr && parent.Valid())
    }

    /** The dictionaries of this scope and its ancestors, innermost first. */
    ghost function Chain(): (c: Chain<V>)
      requires Valid()
      reads this, Repr
      decreases Repr
      ensures |c| >= 1 && c[0] == data
    {
      [data] + (if parent == null then [] else parent.Chain())
    }

    /** `Scope(parent)`: an empty scope inside `parent`. */
    constructor (parent: Scope?<V>)
      requires parent != null ==> parent.Valid()
      ensures Valid() && Repr == {this} + (if parent == null then {} else parent.Repr)
      ensures this.parent == parent && data == map[]
      ensures Chain() == [map[]] + (if parent == null then [] else parent.Chain())
    {
      data := map[];
      this.parent := parent;
      Repr := {this} + (if parent == null then {} else parent.Repr);
    }

    /** `down`: a fresh child of this scope. */
    method Down() returns (child: Scope<V>)
      requires Valid()
      ensures fresh(child) && child.Valid() && child.parent == this
      ensures child.Repr == {child} + Repr
      ensures child.Chain() == [map[]] + Chain()
    {
      child := new Scope(this);
    }

    /** `up`: the parent scope, or this scope itself at the root. */
    function Up(): (s: Scope<V>)
      requires Valid()
      reads this, Repr
      ensures s.Valid() && s.Repr <= Repr
      ensures parent == null ==> s == this
      ensures parent != null ==> s.Chain() == Chain()[1..]
    {
      if parent == null then this else assert Chain() == [data] + parent.Chain(); parent
    }

    /** `__contains__`: the name is bound here or in an enclosing scope. */
    predicate Contains(name: string)
      requires Valid()
      reads this, Repr
      decreases Repr
      ensures Contains(name) <==> InChain(Chain(), name)
    {
      assert forall i :: 1 <= i < |Chain()| ==> Chain()[i] == Chain()[1..][i - 1];
      name in data || (parent != null && parent.Contains(name))
    }

    /** `__getitem__`: the innermost binding of the name, or
        UndefinedNameError when no scope binds it. */
    function Lookup(name: string): (r: Result<V, CompilerError>)
      requires Valid()
      reads this, Repr
      decreases Repr
      ensures r.Ok? <==> InChain(Chain(), name)
      ensures r.Ok? ==> Some(r.value) == ChainLookup(Chain(), name)
      ensures r.Err? ==> r.error == UndefinedName(name)
    {
      if name in data then Ok(data[name])
      else if parent != null then
        assert Chain()[1..] == parent.Chain();
        InChainUnfold(Chain(), name);
        parent.Lookup(name)
      else Err(UndefinedName(name))
    }

    /** `get`: the value bound here, else the parent's `scope[name]`, which
        raises when the name is unbound; `default` is returned only by a root
        scope that does not bind the name. */
    function Get(name: string, default: V): (r: Result<V, CompilerError>)
      requires Valid()
      reads this, Repr
      ensures InChain(Chain(), name) ==> r.Ok? && Some(r.value) == ChainLookup(Chain(), name)
      ensures !InChain(Chain(), name) && parent == null ==> r == Ok(default)
      ensures !InChain(Chain(), name) && parent != null ==> r == Err(UndefinedName(name))
    {
      if name in data then Ok(data[name])
      else if parent != null then
        assert Chain()[1..] == parent.Chain();
        InChainUnfold(Chain(), name);
        parent.Lookup(name)
      else Ok(default)
    }

    /** `depth`: walks outwards counting scopes until one binds the name;
        -1 when none does. */
    method Depth(name: string) returns (d: int)
      requires Valid()
      ensures d == ChainDepth(Chain(), name)
    {
      d := 0;
      var current: Scope?<V> := this;
      while current != null
        invariant 0 <= d <= |Chain()|
        invariant current != null ==> current.Valid() && current.Repr <= Repr
        invariant current != null ==> current.Chain() == Chain()[d..]
        invariant current == null ==> d == |Chain()|
        invariant forall i :: 0 <= i < d ==> name !in Chain()[i]
        decreases |Chain()| - d
      {
        assert current.Chain()[0] == Chain()[d];
        if name in current.data {
          DepthAt(Chain(), name, d);
          return d;
        }
        if current.parent != null {
          current.ParentChain();
          assert Chain()[d..][1..] == Chain()[d + 1..];
        }
        current := current.parent;
        d := d + 1;
      }
      DepthAt(Chain(), name, d);
      return -1;
    }

    lemma ParentChain()
      requires Valid() && parent != null
      ensures parent.Valid() && parent.Chain() == Chain()[1..]
    {
    }

    /** `__setitem__`: rebinds the name in the enclosing scope holding it,
        else binds it here. */
    method Set(name: string, value: V)
      requires Valid()
      modifies Repr
      decreases Repr
      ensures Valid() && Repr == old(Repr)
      ensures Chain() == ChainSet(old(Chain()), name, value)
    {
      if parent != null && parent.Contains(name) {
        parent.Set(name, value);
      } else {
        data := data[name := value];
      }
    }

    /** `update`: assigns every item in turn. */
    method Update(items: seq<(string, V)>)
      requires Valid()
      modifies Repr
      ensures Valid() && Repr == old(Repr)
      ensures Chain() == ChainUpdate(old(Chain()), items)
    {
      var i := 0;
      while i < |items|
        invariant 0 <= i <= |items|
        invariant Valid() && Repr == old(Repr)
        invariant ChainUpdate(old(Chain()), items) == ChainUpdate(Chain(), items[i..])
      {
        assert items[i..][1..] == items[i + 1..];
        Set(items[i].0, items[i].1);
        i := i + 1;
      }
    }
  }
}
