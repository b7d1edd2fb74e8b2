/** The definition sorter of `hanno/visitors/ast_sorter.py`: the
    expressions of every block are reordered with Kahn's algorithm so that
    each comes after the definitions it uses. The expressions of a block are
    identified by their position in it. */
module AstSorter {
  import opened Wrappers
  import opened Errors
  import opened Ast
  import Text

  /** `find_free_names`: the names a pattern binds. */
  function FreeNames(p: Pattern): set<string> {
    match p
    case FreeName(n) => {n}
    case PairPattern(a, b) => FreeNames(a) + FreeNames(b)
    case ListPattern(initials, rest) =>
      (if rest.Some? then {rest.value} else {}) + FreeNamesAll(initials)
    case _ => {}
  }

  /** `reduce(or_, map(find_free_names, patterns), set())`. */
  function FreeNamesAll(ps: seq<Pattern>): set<string> {
    if ps == [] then {} else FreeNamesAll(ps[..|ps| - 1]) + FreeNames(ps[|ps| - 1])
  }

  /** `find_pinned_names` as written: a pinned name is found at the top of
      the pattern only, since the pair and list cases collect the parts'
      free names instead. */
  function PinnedNamesAsWritten(p: Pattern): set<string> {
    match p
    case PinnedName(n) => {n}
    case PairPattern(a, b) => FreeNames(a) + FreeNames(b)
    case ListPattern(initials, rest) =>
      (if rest.Some? then {rest.value} else {}) + FreeNamesAll(initials)
    case _ => {}
  }

  /** The names a pattern takes from the bindings around it: its pinned
      names, at any depth. */
  function PinnedNames(p: Pattern): set<string> {
    match p
    case PinnedName(n) => {n}
    case PairPattern(a, b) => PinnedNames(a) + PinnedNames(b)
    case ListPattern(initials, _) => PinnedNamesAll(initials)
    case _ => {}
  }

  function PinnedNamesAll(ps: seq<Pattern>): set<string> {
    if ps == [] then {} else PinnedNamesAll(ps[..|ps| - 1]) + PinnedNames(ps[|ps| - 1])
  }

  /** Scalar, pinned and unit patterns bind nothing; a free name binds
      itself; a list binds its rest name. */
  lemma FreeNamesOfLeaves(n: string, v: Value, rest: string)
    ensures FreeNames(ScalarPattern(v)) == {} && FreeNames(PinnedName(n)) == {} && FreeNames(UnitPattern) == {}
    ensures FreeNames(FreeName(n)) == {n}
    ensures FreeNames(ListPattern([], Some(rest))) == {rest}
  {
  }

  /** The corrected pinned names of a pattern are empty exactly when it
      holds no PinnedName at any depth. */
  lemma {:induction false} PinnedNamesNotBound(p: Pattern)
    ensures PinnedNames(p) == {} <==> NoPinned(p)
  {
    match p
    case PairPattern(a, b) => PinnedNamesNotBound(a); PinnedNamesNotBound(b);
    case ListPattern(initials, _) => PinnedNamesAllNotBound(initials);
    case _ =>
  }

  lemma {:induction false} PinnedNamesAllNotBound(ps: seq<Pattern>)
    ensures PinnedNamesAll(ps) == {} <==> forall i :: 0 <= i < |ps| ==> NoPinned(ps[i])
    decreases ps, 0
  {
    if ps != [] {
      PinnedNamesAllNotBound(ps[..|ps| - 1]);
      PinnedNamesNotBound(ps[|ps| - 1]);
      assert forall i :: 0 <= i < |ps| - 1 ==> ps[i] == ps[..|ps| - 1][i];
    }
  }

  /** The pattern holds no PinnedName at any depth. */
  predicate NoPinned(p: Pattern) {
    match p
    case PinnedName(_) => false
    case PairPattern(a, b) => NoPinned(a) && NoPinned(b)
    case ListPattern(initials, _) => forall i :: 0 <= i < |initials| ==> NoPinned(initials[i])
    case _ => true
  }

  /** The pair `(^a, b)` takes `a` from outside; as written the sorter
      reports `b` instead, a name the pattern binds. */
  lemma PinnedInPairAsWritten(a: string, b: string)
    requires a != b
    ensures PinnedNamesAsWritten(PairPattern(PinnedName(a), FreeName(b))) == {b}
    ensures PinnedNames(PairPattern(PinnedName(a), FreeName(b))) == {a}
  {
  }

  /** The names an expression depends on: the second result of the
      sorter's `visit_*` methods. */
  function Deps(node: Node): set<string> {
    match node
    case Apply(func, arg) => Deps(func) + Deps(arg)
    case Block(exprs) => DepsAll(exprs)
    case Cond(pred, cons, elseBranch) => Deps(pred) + Deps(cons) + Deps(elseBranch)
    case Define(target, value) => Deps(value) - FreeNames(target)
    case Function(param, body) => Deps(body) - FreeNames(param)
    case List(elements) => DepsAll(elements)
    case Match(subject, cases) => Deps(subject) + DepsArms(cases)
    case Name(name) => {name}
    case Pair(first, second) => Deps(first) + Deps(second)
    case Scalar(_) => {}
    case Unit => {}
  }

  function DepsAll(nodes: seq<Node>): set<string> {
    if nodes == [] then {} else DepsAll(nodes[..|nodes| - 1]) + Deps(nodes[|nodes| - 1])
  }

  function DepsArms(arms: seq<Arm>): set<string> {
    if arms == [] then {} else DepsArms(arms[..|arms| - 1]) + DepsArm(arms[|arms| - 1])
  }

  /** A match arm depends on its pattern's pinned names and on its body. */
  function DepsArm(arm: Arm): set<string> {
    PinnedNames(arm.pattern) + Deps(arm.body)
  }

  /** A definition and a function never depend on the names their target or
      parameter binds, and otherwise depend on what their body does. */
  lemma BindersExcluded(target: Pattern, value: Node, name: string)
    ensures name in FreeNames(target) ==> name !in Deps(Define(target, value)) && name !in Deps(Function(target, value))
    ensures name !in FreeNames(target) ==>
              (name in Deps(Define(target, value)) <==> name in Deps(value))
              && (name in Deps(Function(target, value)) <==> name in Deps(value))
  {
  }

  /** The names the definitions inside an expression record, outside any
      nested block (a block restores the definitions it found). */
  function DefinedNames(node: Node): set<string> {
    match node
    case Apply(func, arg) => DefinedNames(func) + DefinedNames(arg)
    case Block(_) => {}
    case Cond(pred, cons, elseBranch) => DefinedNames(pred) + DefinedNames(cons) + DefinedNames(elseBranch)
    case Define(target, value) => DefinedNames(value) + FreeNames(target)
    case Function(_, body) => DefinedNames(body)
    case List(elements) => DefinedAll(elements)
    case Match(subject, cases) => DefinedNames(subject) + DefinedArms(cases)
    case Pair(first, second) => DefinedNames(first) + DefinedNames(second)
    case _ => {}
  }

  function DefinedAll(nodes: seq<Node>): set<string> {
    if nodes == [] then {} else DefinedAll(nodes[..|nodes| - 1]) + DefinedNames(nodes[|nodes| - 1])
  }

  function DefinedArms(arms: seq<Arm>): set<string> {
    if arms == [] then {} else DefinedArms(arms[..|arms| - 1]) + DefinedArm(arms[|arms| - 1])
  }

  function DefinedArm(arm: Arm): set<string> {
    DefinedNames(arm.body)
  }

  /** `outgoing.get(v, ())`. */
  function Get(m: map<int, seq<int>>, v: int): seq<int> {
    if v in m then m[v] else []
  }

  predicate Distinct(s: seq<int>) {
    forall i, j :: 0 <= i < j < |s| ==> s[i] != s[j]
  }

  /** No entry is greater than an earlier one. */
  predicate NonIncreasing(s: seq<int>) {
    forall i, j :: 0 <= i < j < |s| ==> s[i] >= s[j]
  }

  /** `generate_outgoing`: for every definition `v`, the expressions that
      depend on it, latest first. An expression appears in `v`'s list as
      many times as `v` appears among its dependencies. */
  method GenerateOutgoing(incoming: seq<seq<int>>) returns (out: map<int, seq<int>>)
    ensures Inverts(incoming, out)
    ensures forall v :: v in out ==> out[v] != [] && NonIncreasing(out[v])
  {
    out := map[];
    assert forall v :: Get(out, v) == [];
    for i := 0 to |incoming|
      invariant forall v, k :: 0 <= k < |incoming| ==>
                  multiset(Get(out, v))[k] == if k < i then multiset(incoming[k])[v] else 0
      invariant forall v :: v in out ==> out[v] != [] && NonIncreasing(out[v])
      invariant forall v, a :: v in out && 0 <= a < |out[v]| ==> 0 <= out[v][a] < i
    {
      out := AddDependent(out, i, incoming[i]);
    }
  }

  /** The inner loop of `generate_outgoing`: `key` is put at the front of
      the list of every one of its dependencies `values`, once per
      occurrence. */
  method AddDependent(out: map<int, seq<int>>, key: int, values: seq<int>) returns (out': map<int, seq<int>>)
    requires 0 <= key
    requires forall v :: v in out ==> out[v] != [] && NonIncreasing(out[v])
    requires forall v, a :: v in out && 0 <= a < |out[v]| ==> 0 <= out[v][a] < key
    ensures forall v, k :: multiset(Get(out', v))[k] == multiset(Get(out, v))[k] + if k == key then multiset(values)[v] else 0
    ensures forall v :: v in out' ==> out'[v] != [] && NonIncreasing(out'[v])
    ensures forall v, a :: v in out' && 0 <= a < |out'[v]| ==> 0 <= out'[v][a] <= key
  {
    out' := out;
    assert values[..0] == [];
    for j := 0 to |values|
      invariant Counted(out, key, values, j, out')
      invariant Ordered(key, out')
    {
      ghost var before := out';
      out' := out'[values[j] := [key] + Get(out', values[j])];
      CountOne(out, key, values, j, before, out');
      Prepended(before, out', values[j], key);
    }
    assert values[..|values|] == values;
  }

  /** The lists once the first `j` of `values` are added: `key` is in the
      list of each of them once per occurrence. */
  ghost predicate Counted(out: map<int, seq<int>>, key: int, values: seq<int>, j: int, cur: map<int, seq<int>>) {
    0 <= j <= |values|
    && forall v, k :: multiset(Get(cur, v))[k] == multiset(Get(out, v))[k] + if k == key then multiset(values[..j])[v] else 0
  }

  /** Every list is nonempty, in non-increasing order and bounded by `key`. */
  ghost predicate Ordered(key: int, cur: map<int, seq<int>>) {
    (forall v :: v in cur ==> cur[v] != [] && NonIncreasing(cur[v]))
    && forall v, a :: v in cur && 0 <= a < |cur[v]| ==> 0 <= cur[v][a] <= key
  }

  lemma CountOne(out: map<int, seq<int>>, key: int, values: seq<int>, j: int, cur: map<int, seq<int>>, after: map<int, seq<int>>)
    requires Counted(out, key, values, j, cur) && j < |values|
    requires after == cur[values[j] := [key] + Get(cur, values[j])]
    ensures Counted(out, key, values, j + 1, after)
  {
    PrependedCounts(cur, after, values[j], key);
    AddedOne(out, cur, after, key, values, j);
  }

  /** One step of the inner loop of `generate_outgoing`: `key` joins the
      front of the list of `value`, and every list stays in order. */
  lemma Prepended(before: map<int, seq<int>>, after: map<int, seq<int>>, value: int, key: int)
    requires 0 <= key
    requires after == before[value := [key] + Get(before, value)]
    requires Ordered(key, before)
    ensures Ordered(key, after)
  {
    var front := [key] + Get(before, value);
    assert forall a :: 0 < a < |front| ==> front[a] == Get(before, value)[a - 1];
    assert NonIncreasing(front);
  }

  /** The same step counted: `value`'s list holds `key` once more. */
  lemma PrependedCounts(before: map<int, seq<int>>, after: map<int, seq<int>>, value: int, key: int)
    requires after == before[value := [key] + Get(before, value)]
    ensures forall v, k :: multiset(Get(after, v))[k] == multiset(Get(before, v))[k] + if v == value && k == key then 1 else 0
  {
    forall v, k
      ensures multiset(Get(after, v))[k] == multiset(Get(before, v))[k] + if v == value && k == key then 1 else 0
    {
      if v == value {
        assert Get(after, v) == [key] + Get(before, v);
      } else {
        assert Get(after, v) == Get(before, v);
      }
    }
  }

  /** The counts after one more of `values` has been added. */
  lemma AddedOne(out: map<int, seq<int>>, before: map<int, seq<int>>, after: map<int, seq<int>>, key: int, values: seq<int>, j: int)
    requires 0 <= j < |values|
    requires forall v, k :: multiset(Get(before, v))[k] == multiset(Get(out, v))[k] + if k == key then multiset(values[..j])[v] else 0
    requires forall v, k :: multiset(Get(after, v))[k] == multiset(Get(before, v))[k] + if v == values[j] && k == key then 1 else 0
    ensures forall v, k :: multiset(Get(after, v))[k] == multiset(Get(out, v))[k] + if k == key then multiset(values[..j + 1])[v] else 0
  {
    assert values[..j + 1] == values[..j] + [values[j]];
    var added := multiset(values[..j + 1]);
    assert added == multiset(values[..j]) + multiset{values[j]};
    forall v, k
      ensures multiset(Get(after, v))[k] == multiset(Get(out, v))[k] + if k == key then added[v] else 0
    {
      assert added[v] == multiset(values[..j])[v] + if v == values[j] then 1 else 0;
    }
  }

  /** How many entries of `deps` are not yet in `done`: the count
      `incoming_count` keeps for an expression. */
  function Pending(deps: seq<int>, done: seq<int>): nat {
    if deps == [] then 0
    else (if deps[0] in done then 0 else 1) + Pending(deps[1..], done)
  }

  lemma {:induction false} PendingZero(deps: seq<int>, done: seq<int>)
    ensures Pending(deps, done) == 0 <==> forall x :: x in deps ==> x in done
  {
    if deps != [] {
      PendingZero(deps[1..], done);
      assert forall x :: x in deps <==> x == deps[0] || x in deps[1..];
    }
  }

  /** Releasing `v` lowers the count by the number of times `v` is among
      the dependencies. */
  lemma {:induction false} PendingRelease(deps: seq<int>, done: seq<int>, v: int)
    requires v !in done
    ensures Pending(deps, done + [v]) + multiset(deps)[v] == Pending(deps, done)
  {
    if deps != [] {
      PendingRelease(deps[1..], done, v);
      assert deps == [deps[0]] + deps[1..];
      assert multiset(deps) == multiset{deps[0]} + multiset(deps[1..]);
    }
  }

  /** What Kahn's algorithm promises of its output `sorted` for the
      dependency lists `incoming` of expressions `0 .. |incoming| - 1`: each
      expression at most once, each after everything it depends on, and
      every expression left out waits on something that is left out too. */
  predicate KahnResult(incoming: seq<seq<int>>, sorted: seq<int>) {
    Distinct(sorted)
    && (forall j :: 0 <= j < |sorted| ==> 0 <= sorted[j] < |incoming|)
    && (forall j, x :: 0 <= j < |sorted| && 0 <= sorted[j] < |incoming| && x in incoming[sorted[j]] ==> x in sorted[..j])
    && (forall k :: 0 <= k < |incoming| && k !in sorted ==> exists x :: x in incoming[k] && x !in sorted)
  }

  /** `outgoing` is what `generate_outgoing` makes of `incoming`. */
  ghost predicate Inverts(incoming: seq<seq<int>>, outgoing: map<int, seq<int>>) {
    (forall v, k :: 0 <= k < |incoming| ==> multiset(Get(outgoing, v))[k] == multiset(incoming[k])[v])
    && forall v, a :: v in outgoing && 0 <= a < |outgoing[v]| ==> 0 <= outgoing[v][a] < |incoming|
  }

  /** The state the loop of `topological_sort_exprs` keeps: `sorted` and
      `ready` hold distinct expressions, `count` says for each expression how
      many of its dependencies are not yet sorted, and an expression is
      sorted or ready exactly when its count is zero. */
  ghost predicate Tracked(incoming: seq<seq<int>>, count: seq<int>, ready: seq<int>, sorted: seq<int>) {
    |count| == |incoming|
    && Distinct(sorted + ready)
    && (forall j :: 0 <= j < |sorted| ==> 0 <= sorted[j] < |incoming|)
    && (forall a :: 0 <= a < |ready| ==> 0 <= ready[a] < |incoming|)
    && (forall k :: 0 <= k < |incoming| ==> count[k] == Pending(incoming[k], sorted))
    && (forall k :: 0 <= k < |incoming| ==> (count[k] == 0 <==> k in sorted || k in ready))
  }

  /** Every sorted expression comes after everything it depends on. */
  ghost predicate DepsBefore(incoming: seq<seq<int>>, sorted: seq<int>) {
    forall j, x :: 0 <= j < |sorted| && 0 <= sorted[j] < |incoming| && x in incoming[sorted[j]] ==> x in sorted[..j]
  }

  /** `incoming_count`: how many dependencies each expression has. */
  function StartCounts(incoming: seq<seq<int>>): (count: seq<int>)
    ensures |count| == |incoming|
    ensures forall k :: 0 <= k < |incoming| ==> count[k] == Pending(incoming[k], [])
  {
    PendingEmptyAll(incoming);
    seq(|incoming|, k requires 0 <= k < |incoming| => |incoming[k]|)
  }

  lemma PendingEmptyAll(incoming: seq<seq<int>>)
    ensures forall k :: 0 <= k < |incoming| ==> Pending(incoming[k], []) == |incoming[k]|
  {
    forall k | 0 <= k < |incoming| {
      PendingEmpty(incoming[k]);
    }
  }

  /** The initial `ready` list: the expressions whose count is zero, in
      order. */
  method StartReady(count: seq<int>) returns (ready: seq<int>)
    ensures forall a, b :: 0 <= a < b < |ready| ==> ready[a] < ready[b]
    ensures forall a :: 0 <= a < |ready| ==> 0 <= ready[a] < |count|
    ensures forall k :: 0 <= k < |count| ==> (count[k] == 0 <==> k in ready)
    ensures (forall k :: 0 <= k < |count| ==> count[k] == 0) ==>
              |ready| == |count| && forall a :: 0 <= a < |ready| ==> ready[a] == a
  {
    ghost var independent := forall k :: 0 <= k < |count| ==> count[k] == 0;
    ready := [];
    for k := 0 to |count|
      invariant forall a, b :: 0 <= a < b < |ready| ==> ready[a] < ready[b]
      invariant forall a :: 0 <= a < |ready| ==> 0 <= ready[a] < k
      invariant forall i :: 0 <= i < k ==> (count[i] == 0 <==> i in ready)
      invariant independent ==> |ready| == k && forall a :: 0 <= a < |ready| ==> ready[a] == a
    {
      if count[k] == 0 {
        ready := ready + [k];
      }
    }
  }

  /** The inner loop of `topological_sort_exprs`: the expression just
      sorted, the last of `sorted`, is released, and every expression whose
      count drops to zero joins `ready`. */
  method Release(incoming: seq<seq<int>>, outgoing: map<int, seq<int>>, count: seq<int>, ready: seq<int>, sorted: seq<int>)
    returns (count': seq<int>, ready': seq<int>)
    requires Inverts(incoming, outgoing)
    requires Popped(incoming, count, ready, sorted)
    ensures Tracked(incoming, count', ready', sorted)
    ensures Get(outgoing, sorted[|sorted| - 1]) == [] ==> count' == count && ready' == ready
  {
    var ends := Get(outgoing, sorted[|sorted| - 1]);
    ReleaseStart(incoming, outgoing, count, ready, sorted);
    count' := count;
    ready' := ready;
    var j := 0;
    while j < |ends|
      invariant Releasing(incoming, sorted, ends, j, count', ready')
      invariant j == 0 ==> count' == count && ready' == ready
    {
      var k := ends[j];
      ghost var before, readyBefore := count', ready';
      ReleaseBound(incoming, sorted, ends, j, count', ready');
      count' := count'[k := count'[k] - 1];
      if count'[k] == 0 {
        ready' := ready' + [k];
      }
      ReleaseOne(incoming, sorted, ends, j, before, readyBefore, count', ready');
      j := j + 1;
    }
    ReleaseDone(incoming, sorted, ends, count', ready');
  }

  /** The state just after the last of `sorted` was taken from `ready`:
      the counts still leave it pending. */
  ghost predicate Popped(incoming: seq<seq<int>>, count: seq<int>, ready: seq<int>, sorted: seq<int>) {
    |count| == |incoming| && sorted != []
    && Distinct(sorted + ready)
    && (forall j :: 0 <= j < |sorted| ==> 0 <= sorted[j] < |incoming|)
    && (forall a :: 0 <= a < |ready| ==> 0 <= ready[a] < |incoming|)
    && (forall k :: 0 <= k < |incoming| ==> count[k] == Pending(incoming[k], sorted[..|sorted| - 1]))
    && (forall k :: 0 <= k < |incoming| ==> (count[k] == 0 <==> k in sorted || k in ready))
  }

  /** The state of the inner loop once the first `j` of `ends`, the
      expressions waiting on the last sorted one, are released. */
  ghost predicate Releasing(incoming: seq<seq<int>>, sorted: seq<int>, ends: seq<int>, j: int, count: seq<int>, ready: seq<int>) {
    0 <= j <= |ends| && |count| == |incoming|
    && Distinct(sorted + ready)
    && (forall i :: 0 <= i < |sorted| ==> 0 <= sorted[i] < |incoming|)
    && (forall a :: 0 <= a < |ready| ==> 0 <= ready[a] < |incoming|)
    && (forall a :: 0 <= a < |ends| ==> 0 <= ends[a] < |incoming|)
    && (forall k :: 0 <= k < |incoming| ==> count[k] == Pending(incoming[k], sorted) + multiset(ends[j..])[k])
    && (forall k :: 0 <= k < |incoming| ==> (count[k] == 0 <==> k in sorted || k in ready))
  }

  lemma ReleaseBound(incoming: seq<seq<int>>, sorted: seq<int>, ends: seq<int>, j: int, count: seq<int>, ready: seq<int>)
    requires Releasing(incoming, sorted, ends, j, count, ready) && j < |ends|
    ensures 0 <= ends[j] < |count| && count[ends[j]] > 0
  {
    assert ends[j..] == [ends[j]] + ends[j + 1..];
  }

  /** One turn of the inner loop: the count of the next waiting expression
      drops by one, and it joins `ready` when its count reaches zero. */
  lemma ReleaseOne(incoming: seq<seq<int>>, sorted: seq<int>, ends: seq<int>, j: int, count: seq<int>, ready: seq<int>,
                   count': seq<int>, ready': seq<int>)
    requires Releasing(incoming, sorted, ends, j, count, ready) && j < |ends|
    requires 0 <= ends[j] < |count| && count' == count[ends[j] := count[ends[j]] - 1]
    requires ready' == if count'[ends[j]] == 0 then ready + [ends[j]] else ready
    ensures Releasing(incoming, sorted, ends, j + 1, count', ready')
  {
    var k := ends[j];
    assert ends[j..] == [k] + ends[j + 1..];
    assert multiset(ends[j..]) == multiset{k} + multiset(ends[j + 1..]);
    if count[k] == 1 {
      PushDistinct(sorted, ready, k);
    }
  }

  lemma ReleaseDone(incoming: seq<seq<int>>, sorted: seq<int>, ends: seq<int>, count: seq<int>, ready: seq<int>)
    requires Releasing(incoming, sorted, ends, |ends|, count, ready)
    ensures Tracked(incoming, count, ready, sorted)
  {
    assert ends[|ends|..] == [];
  }

  /** Before the inner loop: each count is what is still pending once the
      last sorted expression is released, plus that expression's share. */
  lemma ReleaseStart(incoming: seq<seq<int>>, outgoing: map<int, seq<int>>, count: seq<int>, ready: seq<int>, sorted: seq<int>)
    requires Inverts(incoming, outgoing)
    requires Popped(incoming, count, ready, sorted)
    ensures Releasing(incoming, sorted, Get(outgoing, sorted[|sorted| - 1]), 0, count, ready)
  {
    var node := sorted[|sorted| - 1];
    var prev := sorted[..|sorted| - 1];
    assert sorted == prev + [node];
    assert node !in prev by {
      forall i | 0 <= i < |prev|
        ensures prev[i] != node
      {
        assert (sorted + ready)[i] == prev[i];
        assert (sorted + ready)[|prev|] == node;
      }
    }
    forall k | 0 <= k < |incoming|
      ensures count[k] == Pending(incoming[k], sorted) + multiset(Get(outgoing, node))[k]
    {
      PendingRelease(incoming[k], prev, node);
    }
    var ends := Get(outgoing, node);
    assert ends[0..] == ends;
    assert forall a :: 0 <= a < |ends| ==> 0 <= ends[a] < |incoming|;
  }

  lemma PushDistinct(a: seq<int>, b: seq<int>, x: int)
    requires Distinct(a + b) && x !in a && x !in b
    ensures Distinct(a + (b + [x]))
  {
    assert a + (b + [x]) == (a + b) + [x];
  }

  /** Moving the last ready expression to the end of `sorted` keeps the
      two free of repeats. */
  lemma MoveLast(prev: seq<int>, rest: seq<int>, node: int)
    requires Distinct(prev + (rest + [node]))
    ensures Distinct((prev + [node]) + rest)
    ensures forall x :: x in (prev + [node]) + rest <==> x in prev + (rest + [node])
  {
    var before := prev + (rest + [node]);
    var after := (prev + [node]) + rest;
    assert forall i :: 0 <= i < |prev| ==> after[i] == before[i];
    assert after[|prev|] == before[|before| - 1];
    assert forall i :: |prev| < i < |after| ==> after[i] == before[i - 1];
    assert multiset(after) == multiset(before);
  }

  /** The loop of `topological_sort_exprs`: ready expressions are popped
      from the end of `ready`, and an expression becomes ready when the last
      definition it waits on is released. With no dependencies at all, the
      expressions come out in reverse order. */
  method KahnSort(incoming: seq<seq<int>>) returns (sorted: seq<int>)
    ensures KahnResult(incoming, sorted)
    ensures (forall k :: 0 <= k < |incoming| ==> incoming[k] == []) ==>
              |sorted| == |incoming| && forall j :: 0 <= j < |sorted| ==> sorted[j] == |incoming| - 1 - j
  {
    var n := |incoming|;
    ghost var independent := forall k :: 0 <= k < n ==> incoming[k] == [];
    var outgoing := GenerateOutgoing(incoming);
    var count := StartCounts(incoming);
    var ready := StartReady(count);
    sorted := [];
    KahnStart(incoming, count, ready);
    while ready != []
      invariant Tracked(incoming, count, ready, sorted)
      invariant DepsBefore(incoming, sorted)
      invariant independent ==> Reversed(n, ready, sorted)
      decreases set k | 0 <= k < n && k !in sorted
    {
      var node := ready[|ready| - 1];
      PopReady(incoming, count, ready, sorted);
      if independent {
        PopReversed(n, ready, sorted);
        NothingWaits(incoming, outgoing, node);
      }
      Shrinks(n, sorted, node);
      ready := ready[..|ready| - 1];
      sorted := sorted + [node];
      count, ready := Release(incoming, outgoing, count, ready, sorted);
    }
    SortDone(incoming, count, sorted);
  }

  /** The state before the first turn of the loop. */
  lemma KahnStart(incoming: seq<seq<int>>, count: seq<int>, ready: seq<int>)
    requires |count| == |incoming| && forall k :: 0 <= k < |incoming| ==> count[k] == Pending(incoming[k], [])
    requires forall a, b :: 0 <= a < b < |ready| ==> ready[a] < ready[b]
    requires forall a :: 0 <= a < |ready| ==> 0 <= ready[a] < |count|
    requires forall k :: 0 <= k < |count| ==> (count[k] == 0 <==> k in ready)
    requires (forall k :: 0 <= k < |count| ==> count[k] == 0) ==>
               |ready| == |count| && forall a :: 0 <= a < |ready| ==> ready[a] == a
    ensures Tracked(incoming, count, ready, []) && DepsBefore(incoming, [])
    ensures (forall k :: 0 <= k < |incoming| ==> incoming[k] == []) ==> Reversed(|incoming|, ready, [])
  {
    assert [] + ready == ready;
  }

  /** Sorting one more expression leaves fewer waiting. */
  lemma Shrinks(n: int, sorted: seq<int>, node: int)
    requires 0 <= node < n && node !in sorted
    ensures (set k | 0 <= k < n && k !in sorted + [node]) < (set k | 0 <= k < n && k !in sorted)
  {
    assert (set k | 0 <= k < n && k !in sorted + [node]) == (set k | 0 <= k < n && k !in sorted) - {node};
  }

  /** Taking the last ready expression and appending it to `sorted`. */
  lemma PopReady(incoming: seq<seq<int>>, count: seq<int>, ready: seq<int>, sorted: seq<int>)
    requires Tracked(incoming, count, ready, sorted) && DepsBefore(incoming, sorted) && ready != []
    ensures Popped(incoming, count, ready[..|ready| - 1], sorted + [ready[|ready| - 1]])
    ensures DepsBefore(incoming, sorted + [ready[|ready| - 1]])
    ensures 0 <= ready[|ready| - 1] < |incoming| && ready[|ready| - 1] !in sorted
  {
    var node := ready[|ready| - 1];
    var rest := ready[..|ready| - 1];
    var after := sorted + [node];
    assert ready == rest + [node];
    MoveLast(sorted, rest, node);
    assert after[..|after| - 1] == sorted;
    PendingZero(incoming[node], sorted);
    forall j, x | 0 <= j < |after| && 0 <= after[j] < |incoming| && x in incoming[after[j]]
      ensures x in after[..j]
    {
      if j < |sorted| {
        assert after[..j] == sorted[..j];
      }
    }
    assert node !in sorted by {
      assert (after + rest)[|sorted|] == node;
      forall i | 0 <= i < |sorted|
        ensures sorted[i] != node
      {
        assert (after + rest)[i] == sorted[i];
      }
    }
  }

  /** With no dependencies: `ready` counts up from zero and `sorted` counts
      down to where `ready` ends. */
  ghost predicate Reversed(n: int, ready: seq<int>, sorted: seq<int>) {
    |ready| + |sorted| == n
    && (forall a :: 0 <= a < |ready| ==> ready[a] == a)
    && (forall j :: 0 <= j < |sorted| ==> sorted[j] == n - 1 - j)
  }

  lemma PopReversed(n: int, ready: seq<int>, sorted: seq<int>)
    requires Reversed(n, ready, sorted) && ready != []
    ensures Reversed(n, ready[..|ready| - 1], sorted + [ready[|ready| - 1]])
  {
  }

  /** When nothing is ready, every expression left out waits on one that
      is left out too. */
  lemma SortDone(incoming: seq<seq<int>>, count: seq<int>, sorted: seq<int>)
    requires Tracked(incoming, count, [], sorted) && DepsBefore(incoming, sorted)
    ensures KahnResult(incoming, sorted)
  {
    assert sorted + [] == sorted;
    forall k | 0 <= k < |incoming| && k !in sorted
      ensures exists x :: x in incoming[k] && x !in sorted
    {
      PendingZero(incoming[k], sorted);
    }
  }

  lemma PendingEmpty(deps: seq<int>)
    ensures Pending(deps, []) == |deps|
  {
    if deps != [] {
      PendingEmpty(deps[1..]);
    }
  }

  /** With no dependencies, no expression waits on anything. */
  lemma NothingWaits(incoming: seq<seq<int>>, outgoing: map<int, seq<int>>, v: int)
    requires forall k :: 0 <= k < |incoming| ==> incoming[k] == []
    requires Inverts(incoming, outgoing)
    ensures Get(outgoing, v) == []
  {
    var ends := Get(outgoing, v);
    forall k
      ensures multiset(ends)[k] == 0
    {
      if 0 <= k < |incoming| {
        assert multiset(incoming[k]) == multiset{};
      } else {
        assert k !in ends;
      }
    }
    assert multiset(ends) == multiset{};
  }

  /** Every expression outranks the expressions it depends on. */
  predicate Ranked(incoming: seq<seq<int>>, rank: seq<nat>) {
    |rank| == |incoming|
    && forall k, i :: 0 <= k < |incoming| && 0 <= i < |incoming[k]| ==>
         0 <= incoming[k][i] < |incoming| && rank[incoming[k][i]] < rank[k]
  }

  /** When the dependencies can be ranked, each expression outranking what
      it depends on, no expression is left out. */
  lemma RankedKeepsAll(incoming: seq<seq<int>>, sorted: seq<int>, rank: seq<nat>)
    requires KahnResult(incoming, sorted) && |rank| == |incoming|
    requires Ranked(incoming, rank)
    ensures forall k :: 0 <= k < |incoming| ==> k in sorted
  {
    forall k | 0 <= k < |incoming|
      ensures k in sorted
    {
      KeptUpTo(incoming, sorted, rank, rank[k]);
    }
  }

  lemma {:induction false} KeptUpTo(incoming: seq<seq<int>>, sorted: seq<int>, rank: seq<nat>, r: nat)
    requires KahnResult(incoming, sorted) && |rank| == |incoming|
    requires Ranked(incoming, rank)
    ensures forall k :: 0 <= k < |incoming| && rank[k] <= r ==> k in sorted
    decreases r
  {
    if r > 0 {
      KeptUpTo(incoming, sorted, rank, r - 1);
    }
    forall k | 0 <= k < |incoming| && rank[k] <= r
      ensures k in sorted
    {
      forall x | x in incoming[k]
        ensures x in sorted
      {
        RankedBelow(incoming, rank, k, x);
      }
    }
  }

  lemma RankedBelow(incoming: seq<seq<int>>, rank: seq<nat>, k: int, x: int)
    requires Ranked(incoming, rank) && 0 <= k < |incoming| && x in incoming[k]
    ensures 0 <= x < |incoming| && rank[x] < rank[k]
  {
    var i :| 0 <= i < |incoming[k]| && incoming[k][i] == x;
  }

  /** The dependency lists of a block's expressions: every name an
      expression uses that the block defines, mapped to the position of the
      expression that defines it. */
  function Incoming(deps: seq<set<string>>, definitions: map<string, int>): (r: seq<seq<int>>)
    ensures |r| == |deps|
    ensures forall k, n :: 0 <= k < |deps| && n in deps[k] && n in definitions ==> definitions[n] in r[k]
    ensures forall k, x :: 0 <= k < |deps| && x in r[k] ==> exists n :: n in deps[k] && n in definitions && definitions[n] == x
  {
    seq(|deps|, k requires 0 <= k < |deps| => Ids(Text.Sorted(deps[k]), definitions))
  }

  /** `[definitions[dep] for dep in deps if dep in definitions]`. */
  function Ids(names: seq<string>, definitions: map<string, int>): (r: seq<int>)
    ensures forall n :: n in names && n in definitions ==> definitions[n] in r
    ensures forall x :: x in r ==> exists n :: n in names && n in definitions && definitions[n] == x
  {
    if names == [] then []
    else (if names[0] in definitions then [definitions[names[0]]] else []) + Ids(names[1..], definitions)
  }

  /** The id a Define rebuilt by `visit_define` has in the sorting: no
      expression of the block is that new node. */
  const Rebuilt: int := -1

  /** The dependency lists as `visit_block` builds them: the definitions
      recorded are the rebuilt Define nodes, which hash by identity and so
      never match the original expressions the sort is keyed by. */
  function IncomingAsWritten(deps: seq<set<string>>, defined: set<string>): (r: seq<seq<int>>)
    ensures |r| == |deps|
    ensures forall k :: 0 <= k < |deps| ==> (r[k] == [] <==> deps[k] !! defined)
    ensures forall k, x :: 0 <= k < |deps| && x in r[k] ==> x == Rebuilt
  {
    seq(|deps|, k requires 0 <= k < |deps| => RebuiltIds(Text.Sorted(deps[k]), defined))
  }

  function RebuiltIds(names: seq<string>, defined: set<string>): (r: seq<int>)
    ensures r == [] <==> forall n :: n in names ==> n !in defined
    ensures forall x :: x in r ==> x == Rebuilt
  {
    if names == [] then []
    else (if names[0] in defined then [Rebuilt] else []) + RebuiltIds(names[1..], defined)
  }

  /** As written, the sort keeps exactly the expressions that use no name
      their block defines: the others wait forever and are dropped. */
  lemma AsWrittenDropsUsers(deps: seq<set<string>>, defined: set<string>, sorted: seq<int>)
    requires KahnResult(IncomingAsWritten(deps, defined), sorted)
    ensures forall k :: 0 <= k < |deps| ==> (k in sorted <==> deps[k] !! defined)
  {
    var incoming := IncomingAsWritten(deps, defined);
    forall k | 0 <= k < |deps|
      ensures k in sorted <==> deps[k] !! defined
    {
      if deps[k] !! defined {
        assert incoming[k] == [];
      } else {
        assert Rebuilt in incoming[k] by {
          assert incoming[k][0] in incoming[k];
        }
        assert Rebuilt !in sorted;
      }
    }
  }

  /** `let x = 1` followed by `x`: as written the block loses `x`, while
      the intended sort keeps both, the definition first. */
  lemma DefineThenUse(asWritten: seq<int>, intended: seq<int>)
    requires KahnResult(IncomingAsWritten([{}, {"x"}], {"x"}), asWritten)
    requires KahnResult(Incoming([{}, {"x"}], map["x" := 0]), intended)
    ensures 0 in asWritten && 1 !in asWritten
    ensures 0 in intended && 1 in intended
    ensures forall j :: 0 <= j < |intended| && intended[j] == 1 ==> 0 in intended[..j]
  {
    AsWrittenDropsUsers([{}, {"x"}], {"x"}, asWritten);
    var incoming := Incoming([{}, {"x"}], map["x" := 0]);
    var none: set<string> := {};
    assert |Text.Sorted(none)| == 0;
    assert incoming[0] == [];
    forall i | 0 <= i < |incoming[1]|
      ensures incoming[1][i] == 0
    {
      assert incoming[1][i] in incoming[1];
    }
    var rank: seq<nat> := [0, 1];
    forall k, i | 0 <= k < |incoming| && 0 <= i < |incoming[k]|
      ensures 0 <= incoming[k][i] < |incoming| && rank[incoming[k][i]] < rank[k]
    {
      assert k == 1 && incoming[k][i] == 0;
    }
    RankedKeepsAll(incoming, intended, rank);
    assert 0 in incoming[1];
  }

  /** `topological_sort_exprs`, given the rebuilt expressions of a block
      and the names each depends on: fewer than two come back as they are;
      otherwise they come back in an order Kahn's algorithm allows. */
  method TopologicalSortExprs(rebuilt: seq<Node>, deps: seq<set<string>>, definitions: map<string, int>)
    returns (sorted: seq<Node>)
    requires |deps| == |rebuilt|
    ensures |rebuilt| < 2 ==> sorted == rebuilt
    ensures |rebuilt| >= 2 ==>
              exists order :: KahnResult(Incoming(deps, definitions), order) && |order| == |sorted|
                && forall j :: 0 <= j < |order| ==> 0 <= order[j] < |rebuilt| && sorted[j] == rebuilt[order[j]]
  {
    if |rebuilt| < 2 {
      return rebuilt;
    }
    var order := KahnSort(Incoming(deps, definitions));
    sorted := [];
    for j := 0 to |order|
      invariant |sorted| == j
      invariant forall i :: 0 <= i < j ==> sorted[i] == rebuilt[order[i]]
    {
      sorted := sorted + [rebuilt[order[j]]];
    }
  }

  /** `after` holds the entries of `before`, with every name of `names`
      (re)defined at position `at`. */
  ghost predicate Extends(after: map<string, int>, before: map<string, int>, names: set<string>, at: int) {
    after.Keys == before.Keys + names
    && forall n :: n in after ==> after[n] == if n in names then at else before[n]
  }

  lemma ExtendsTrans(m0: map<string, int>, m1: map<string, int>, m2: map<string, int>,
                     a: set<string>, b: set<string>, at: int)
    requires Extends(m1, m0, a, at) && Extends(m2, m1, b, at)
    ensures Extends(m2, m0, a + b, at)
  {
  }

  lemma ExtendsBy(m: map<string, int>, names: set<string>, at: int)
    ensures Extends(m + map n | n in names :: at, m, names, at)
  {
  }

  /** `TopologicalSorter`: rebuilds a tree with sorted blocks, collecting
      the definitions of the block being rebuilt. */
  /** The names each expression of a block depends on, in order. */
  function DepsEach(exprs: seq<Node>): seq<set<string>> {
    seq(|exprs|, i requires 0 <= i < |exprs| => Deps(exprs[i]))
  }

  /** `before` with every name of `names` (re)defined at position `at`. */
  function Overlay(before: map<string, int>, names: set<string>, at: int): map<string, int> {
    map n | n in before.Keys + names :: if n in names then at else before[n]
  }

  /** Each name a block's expressions define, with the position of the last
      expression that defines it. */
  function BlockDefinitions(exprs: seq<Node>): map<string, int> {
    if exprs == [] then map[]
    else Overlay(BlockDefinitions(exprs[..|exprs| - 1]), DefinedNames(exprs[|exprs| - 1]), |exprs| - 1)
  }

  /** The recorded definitions are determined by what was recorded before. */
  lemma ExtendsIsOverlay(after: map<string, int>, before: map<string, int>, names: set<string>, at: int)
    requires Extends(after, before, names, at)
    ensures after == Overlay(before, names, at)
  {
  }

  /** The rebuilt node `m` is the node `n` with its children rebuilt: the
      same kind of node, with the same target, parameter, number of elements
      and arm patterns, and leaves kept as they are. */
  predicate SameShape(n: Node, m: Node) {
    match n
    case Apply(_, _) => m.Apply?
    case Block(_) => m.Block?
    case Cond(_, _, _) => m.Cond?
    case Define(target, _) => m.Define? && m.target == target
    case Function(param, _) => m.Function? && m.param == param
    case List(elements) => m.List? && |m.elements| == |elements|
    case Match(_, cases) =>
      m.Match? && |m.cases| == |cases| && forall i :: 0 <= i < |cases| ==> m.cases[i].pattern == cases[i].pattern
    case Pair(_, _) => m.Pair?
    case _ => m == n
  }

  class TopologicalSorter {
    /** Each name defined in the current block, with the position of the
        block expression that defines it. */
    var definitions: map<string, int>
    /** The position of the block expression being visited. */
    var element: int

    constructor ()
      ensures definitions == map[] && element == 0
    {
      definitions := map[];
      element := 0;
    }

    /** The definitions after visiting an expression: its definitions,
        recorded at the current position, over the ones before. */
    ghost predicate Recorded(before: map<string, int>, node: Node)
      reads this
    {
      Extends(definitions, before, DefinedNames(node), element)
    }

    /** `visit`: the rebuilt expression and the names it depends on; a block
        whose every expression waits on another is a ValueError. */
    method Visit(node: Node) returns (r: Result<(Node, set<string>), CompilerError>)
      modifies this
      decreases node, 2
      ensures r.Ok? ==> r.value.1 == Deps(node) && element == old(element) && Recorded(old(definitions), node)
      ensures r.Err? ==> r.error == ValueError
      ensures node.Name? || node.Scalar? || node.Unit? ==> r == Ok((node, Deps(node))) && definitions == old(definitions)
      ensures r.Ok? ==> SameShape(node, r.value.0)
    {
      match node
      case Apply(_, _) =>
        r := VisitApply(node);
      case Block(_) =>
        ghost var children;
        r, children := VisitBlock(node);
      case Cond(_, _, _) =>
        r := VisitCond(node);
      case Define(_, _) =>
        r := VisitDefine(node);
      case Function(_, _) =>
        r := VisitFunction(node);
      case List(_) =>
        r := VisitList(node);
      case Match(_, _) =>
        r := VisitMatch(node);
      case Pair(_, _) =>
        r := VisitPair(node);
      case Name(_) =>
        return Ok((node, {node.name}));
      case Scalar(_) =>
        return Ok((node, {}));
      case Unit =>
        return Ok((node, {}));
    }

    /** `visit_apply`: the function, then the argument. */
    method VisitApply(node: Node) returns (r: Result<(Node, set<string>), CompilerError>)
      requires node.Apply?
      modifies this
      decreases node, 1
      ensures r.Ok? ==> r.value.1 == Deps(node) && element == old(element) && Recorded(old(definitions), node)
      ensures r.Err? ==> r.error == ValueError
      ensures r.Ok? ==> SameShape(node, r.value.0)
    {
      ghost var d0 := definitions;
      var f :- Visit(node.func);
      ghost var d1 := definitions;
      var a :- Visit(node.arg);
      ExtendsTrans(d0, d1, definitions, DefinedNames(node.func), DefinedNames(node.arg), element);
      return Ok((Apply(f.0, a.0), f.1 + a.1));
    }

    /** `visit_cond`: the predicate and both branches. */
    method VisitCond(node: Node) returns (r: Result<(Node, set<string>), CompilerError>)
      requires node.Cond?
      modifies this
      decreases node, 1
      ensures r.Ok? ==> r.value.1 == Deps(node) && element == old(element) && Recorded(old(definitions), node)
      ensures r.Err? ==> r.error == ValueError
      ensures r.Ok? ==> SameShape(node, r.value.0)
    {
      ghost var d0 := definitions;
      var p :- Visit(node.pred);
      ghost var d1 := definitions;
      var c :- Visit(node.cons);
      ghost var d2 := definitions;
      var e :- Visit(node.elseBranch);
      ExtendsTrans(d0, d1, d2, DefinedNames(node.pred), DefinedNames(node.cons), element);
      ExtendsTrans(d0, d2, definitions, DefinedNames(node.pred) + DefinedNames(node.cons), DefinedNames(node.elseBranch), element);
      return Ok((Cond(p.0, c.0, e.0), p.1 + c.1 + e.1));
    }

    /** `visit_define`: the value, then the target's names recorded at the
        current position. */
    method VisitDefine(node: Node) returns (r: Result<(Node, set<string>), CompilerError>)
      requires node.Define?
      modifies this
      decreases node, 1
      ensures r.Ok? ==> r.value.1 == Deps(node) && element == old(element) && Recorded(old(definitions), node)
      ensures r.Err? ==> r.error == ValueError
      ensures r.Ok? ==> r.value.0.Define? && r.value.0.target == node.target
      ensures r.Ok? ==> SameShape(node, r.value.0)
    {
      ghost var d0 := definitions;
      var v :- Visit(node.value);
      var bound := FreeNames(node.target);
      ghost var d1 := definitions;
      definitions := definitions + map n | n in bound :: element;
      ExtendsBy(d1, bound, element);
      ExtendsTrans(d0, d1, definitions, DefinedNames(node.value), bound, element);
      return Ok((Define(node.target, v.0), v.1 - bound));
    }

    /** `visit_function`: the body, less the names the parameter binds. */
    method VisitFunction(node: Node) returns (r: Result<(Node, set<string>), CompilerError>)
      requires node.Function?
      modifies this
      decreases node, 1
      ensures r.Ok? ==> r.value.1 == Deps(node) && element == old(element) && Recorded(old(definitions), node)
      ensures r.Err? ==> r.error == ValueError
      ensures r.Ok? ==> r.value.0.Function? && r.value.0.param == node.param
      ensures r.Ok? ==> SameShape(node, r.value.0)
    {
      var b :- Visit(node.body);
      return Ok((Function(node.param, b.0), b.1 - FreeNames(node.param)));
    }

    /** `visit_pair`: both halves. */
    method VisitPair(node: Node) returns (r: Result<(Node, set<string>), CompilerError>)
      requires node.Pair?
      modifies this
      decreases node, 1
      ensures r.Ok? ==> r.value.1 == Deps(node) && element == old(element) && Recorded(old(definitions), node)
      ensures r.Err? ==> r.error == ValueError
      ensures r.Ok? ==> SameShape(node, r.value.0)
    {
      ghost var d0 := definitions;
      var a :- Visit(node.first);
      ghost var d1 := definitions;
      var b :- Visit(node.second);
      ExtendsTrans(d0, d1, definitions, DefinedNames(node.first), DefinedNames(node.second), element);
      return Ok((Pair(a.0, b.0), a.1 + b.1));
    }

    /** `visit_block`: the expressions are rebuilt with fresh definitions,
        sorted, and the enclosing block's definitions are put back. */
    method VisitBlock(node: Node) returns (r: Result<(Node, set<string>), CompilerError>, ghost children: seq<Node>)
      requires node.Block?
      modifies this
      decreases node, 1
      ensures r.Ok? ==> r.value.1 == Deps(node) && element == old(element) && definitions == old(definitions)
      ensures r.Err? ==> r.error == ValueError
      ensures r.Ok? ==> r.value.0.Block? && r.value.0.exprs != [] && |children| == |node.exprs|
      ensures r.Ok? ==> forall i :: 0 <= i < |children| ==> SameShape(node.exprs[i], children[i])
      ensures r.Ok? && |node.exprs| < 2 ==> r.value.0.exprs == children
      ensures r.Ok? && |node.exprs| >= 2 ==>
        exists order :: KahnResult(Incoming(DepsEach(node.exprs), BlockDefinitions(node.exprs)), order)
          && |order| == |r.value.0.exprs|
          && forall j :: 0 <= j < |order| ==> 0 <= order[j] < |children| && r.value.0.exprs[j] == children[order[j]]
    {
      var saved := definitions;
      var savedElement := element;
      var visited := VisitExprs(node);
      if visited.Err? {
        return Err(visited.error), [];
      }
      var (rebuilt, deps, total) := visited.value;
      children := rebuilt;
      var sorted := TopologicalSortExprs(rebuilt, deps, definitions);
      definitions := saved;
      element := savedElement;
      var block :- NewBlock(sorted);
      return Ok((block, total)), children;
    }

    /** The loop of `visit_block`: each expression rebuilt with its position
        as the current element, its dependencies collected, and the block's
        own definitions recorded from scratch. */
    method VisitExprs(node: Node) returns (r: Result<(seq<Node>, seq<set<string>>, set<string>), CompilerError>)
      requires node.Block?
      modifies this
      decreases node, 0
      ensures r.Err? ==> r.error == ValueError
      ensures r.Ok? ==> |r.value.0| == |node.exprs| && r.value.1 == DepsEach(node.exprs)
      ensures r.Ok? ==> r.value.2 == DepsAll(node.exprs) && definitions == BlockDefinitions(node.exprs)
      ensures r.Ok? ==> forall i :: 0 <= i < |node.exprs| ==> SameShape(node.exprs[i], r.value.0[i])
    {
      definitions := map[];
      var exprs := node.exprs;
      var rebuilt: seq<Node> := [];
      var deps: seq<set<string>> := [];
      var total: set<string> := {};
      for i := 0 to |exprs|
        invariant |rebuilt| == i && |deps| == i
        invariant forall k :: 0 <= k < i ==> deps[k] == Deps(exprs[k])
        invariant total == DepsAll(exprs[..i])
        invariant definitions == BlockDefinitions(exprs[..i])
        invariant forall k :: 0 <= k < i ==> SameShape(exprs[k], rebuilt[k])
      {
        element := i;
        ghost var before := definitions;
        var e :- Visit(exprs[i]);
        ExtendsIsOverlay(definitions, before, DefinedNames(exprs[i]), i);
        rebuilt := rebuilt + [e.0];
        deps := deps + [e.1];
        total := total + e.1;
        assert exprs[..i + 1][..i] == exprs[..i];
      }
      assert exprs[..|exprs|] == exprs;
      return Ok((rebuilt, deps, total));
    }

    /** `visit_list`: every element rebuilt in order. */
    method VisitList(node: Node) returns (r: Result<(Node, set<string>), CompilerError>)
      requires node.List?
      modifies this
      decreases node, 1
      ensures r.Ok? ==> r.value.1 == Deps(node) && element == old(element) && Recorded(old(definitions), node)
      ensures r.Err? ==> r.error == ValueError
      ensures r.Ok? ==> SameShape(node, r.value.0)
    {
      var elements := node.elements;
      var rebuilt: seq<Node> := [];
      var total: set<string> := {};
      for i := 0 to |elements|
        invariant total == DepsAll(elements[..i]) && |rebuilt| == i
        invariant element == old(element)
        invariant Extends(definitions, old(definitions), DefinedAll(elements[..i]), element)
      {
        ghost var before := definitions;
        var e :- Visit(elements[i]);
        ExtendsTrans(old(definitions), before, definitions, DefinedAll(elements[..i]), DefinedNames(elements[i]), element);
        rebuilt := rebuilt + [e.0];
        total := total + e.1;
        assert elements[..i + 1][..i] == elements[..i];
      }
      assert elements[..|elements|] == elements;
      return Ok((List(rebuilt), total));
    }

    /** `visit_match`: the subject, then each arm's pattern and body. */
    method VisitMatch(node: Node) returns (r: Result<(Node, set<string>), CompilerError>)
      requires node.Match?
      modifies this
      decreases node, 1
      ensures r.Ok? ==> r.value.1 == Deps(node) && element == old(element) && Recorded(old(definitions), node)
      ensures r.Err? ==> r.error == ValueError
      ensures r.Ok? ==> SameShape(node, r.value.0)
    {
      ghost var d0 := definitions;
      var s :- Visit(node.subject);
      var afterSubject := definitions;
      var cases := node.cases;
      var rebuilt: seq<Arm> := [];
      var total: set<string> := {};
      for i := 0 to |cases|
        invariant total == DepsArms(cases[..i]) && |rebuilt| == i
        invariant forall k :: 0 <= k < i ==> rebuilt[k].pattern == cases[k].pattern
        invariant element == old(element)
        invariant Extends(definitions, afterSubject, DefinedArms(cases[..i]), element)
      {
        ghost var before := definitions;
        var b :- Visit(cases[i].body);
        ExtendsTrans(afterSubject, before, definitions, DefinedArms(cases[..i]), DefinedNames(cases[i].body), element);
        rebuilt := rebuilt + [Arm(cases[i].pattern, b.0)];
        total := total + PinnedNames(cases[i].pattern) + b.1;
        assert cases[..i + 1][..i] == cases[..i];
      }
      assert cases[..|cases|] == cases;
      ExtendsTrans(d0, afterSubject, definitions, DefinedNames(node.subject), DefinedArms(cases), element);
      return Ok((Match(s.0, rebuilt), s.1 + total));
    }
  }
}
