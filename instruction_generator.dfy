/** `InstructionGenerator` of `hanno/codegen/main.py`: turns the lowered tree
    into a linear stream of bytecode instructions, giving every name a slot
    in the scope that binds it. */
module InstructionGeneration {
  import opened Scopes
  import opened Codegen
  import L = Lowered
  import Ast

  /** The generator's fields: `current_index`, `prev_indexes`,
      `current_scope` (the dictionaries of its chain, innermost first) and
      `function_level`. */
  datatype GenState = GenState(index: int, prev: seq<int>, chain: Chain<int>, level: int)

  /** How `visit_function` gives the parameter slot 0 of the function's
      scope. `ThroughScope` is `scope[param] = 0`, which rebinds the name in
      an enclosing scope when one already binds it; `Local` binds it in the
      function's own scope. */
  datatype ParamBinding = ThroughScope | Local

  /** A fresh generator: index 0, no saved indexes, one empty root scope,
      outside every function. */
  const Initial: GenState := GenState(0, [], [map[]], 0)

  /** `_push_scope`: a new empty innermost scope whose numbering starts at
      0; the old index is saved on the stack. */
  function Pushed(st: GenState): GenState {
    GenState(0, st.prev + [st.index], [map[]] + st.chain, st.level)
  }

  /** `_pop_scope`: back to the enclosing scope and its saved index. */
  function Popped(st: GenState): GenState
    requires st.prev != [] && |st.chain| >= 2
  {
    GenState(st.prev[|st.prev| - 1], st.prev[..|st.prev| - 1], st.chain[1..], st.level)
  }

  /** The first sight of a name, in `visit_define` and `visit_name`: a name
      no scope binds gets the next slot of the innermost scope; a bound name
      is left as it is. */
  function Allocated(st: GenState, name: string): (r: GenState)
    requires st.chain != []
    ensures InChain(r.chain, name)
    ensures r.prev == st.prev && |r.chain| == |st.chain| && r.level == st.level
    ensures InChain(st.chain, name) ==> r == st
    ensures !InChain(st.chain, name) ==>
      r.index == st.index + 1 && r.chain == [st.chain[0][name := st.index]] + st.chain[1..]
  {
    if InChain(st.chain, name) then st
    else
      InChainUnfold(st.chain, name);
      var c := ChainSet(st.chain, name, st.index);
      assert name in c[0];
      st.(chain := c, index := st.index + 1)
  }

  /** `scope[name]`: the slot of the innermost binding. */
  function Slot(st: GenState, name: string): int
    requires InChain(st.chain, name)
  {
    ChainLookup(st.chain, name).value
  }

  /** The depth operand of LOAD_NAME: inside a function a name bound by an
      enclosing scope is loaded at depth 0; otherwise the depth is one more
      than the number of scopes out the name is bound. */
  function LoadDepth(st: GenState, name: string): int
    requires InChain(st.chain, name)
  {
    var d := ChainDepth(st.chain, name);
    if st.level != 0 && d != 0 then 0 else d + 1
  }

  /** Entering a function: a new scope is pushed, the function level goes
      up, the parameter gets slot 0 and the index moves past it. */
  function EnterFunction(st: GenState, param: string, mode: ParamBinding): (r: GenState)
    requires st.chain != []
    ensures r.prev == st.prev + [st.index] && |r.chain| == |st.chain| + 1
    ensures r.level == st.level + 1 && r.index == 1
    ensures mode.Local? ==> r.chain == [map[param := 0]] + st.chain
  {
    var p := Pushed(st).(level := st.level + 1);
    match mode
    case ThroughScope => p.(chain := ChainSet(p.chain, param, 0), index := p.index + 1)
    case Local => p.(chain := [p.chain[0][param := 0]] + p.chain[1..], index := p.index + 1)
  }

  /** Leaving a function: the level goes down and its scope is popped. */
  function LeaveFunction(st: GenState): GenState
    requires st.prev != [] && |st.chain| >= 2
  {
    Popped(st.(level := st.level - 1))
  }

  /** `NATIVE_OP_CODES`. */
  function NativeCode(op: L.Op): (code: int)
    ensures 1 <= code <= 11
  {
    match op
    case Add => 1
    case Div => 2
    case Equal => 3
    case Exp => 4
    case Greater => 5
    case Join => 6
    case Less => 7
    case Mod => 8
    case Mul => 9
    case Neg => 10
    case Sub => 11
  }

  /** `visit_scalar`: the load instruction follows the value's type. */
  function LoadScalar(v: Ast.Value): Instruction {
    match v
    case BoolValue(b) => LoadBool(b)
    case FloatValue(f) => LoadFloat(f)
    case IntValue(i) => LoadInt(i)
    case StrValue(s) => LoadString(s)
  }

  /** The instructions for `n` and the generator's state afterwards. The
      children are visited in the order the visitor visits them: the
      argument before the function, both branches of a conditional before
      its predicate, the second of a pair before the first and the right
      operand before the left. */
  function Gen(n: L.Node, st: GenState, mode: ParamBinding): (r: (seq<Instruction>, GenState))
    requires st.chain != []
    ensures r.1.prev == st.prev && |r.1.chain| == |st.chain| && r.1.level == st.level
    decreases L.Depth(n), 0
  {
    match n
    case Apply(func, arg) =>
      var (a, s1) := Gen(arg, st, mode);
      var (f, s2) := Gen(func, s1, mode);
      (a + f + [Apply], s2)
    case Block(body, _) =>
      var (code, s) := GenAll(body, Pushed(st), mode);
      (code, Popped(s))
    case Cond(pred, cons, elseBranch) =>
      var (c, s1) := Gen(cons, st, mode);
      var (e, s2) := Gen(elseBranch, s1, mode);
      var (p, s3) := Gen(pred, s2, mode);
      (p + [Branch(|c| + 1)] + c + [Jump(|e|)] + e, s3)
    case Define(target, value) =>
      var (v, s1) := Gen(value, st, mode);
      var s2 := Allocated(s1, target);
      (v + [StoreName(Slot(s2, target))], s2)
    case Function(param, body) =>
      var (b, s) := Gen(body, EnterFunction(st, param, mode), mode);
      ([LoadFunc(b)], LeaveFunction(s))
    case List(elements) =>
      var (code, s) := GenAll(elements, st, mode);
      (code + [BuildList(|elements|)], s)
    case Name(name) =>
      var s := Allocated(st, name);
      ([LoadName(LoadDepth(s, name), Slot(s, name))], s)
    case NativeOp(op, left, right) =>
      var (rc, s1) := if right.Some? then Gen(right.value, st, mode) else ([], st);
      var (lc, s2) := Gen(left, s1, mode);
      (rc + lc + [Native(NativeCode(op))], s2)
    case Pair(first, second) =>
      var (sc, s1) := Gen(second, st, mode);
      var (fc, s2) := Gen(first, s1, mode);
      (sc + fc + [BuildPair], s2)
    case Scalar(v) => ([LoadScalar(v)], st)
    case Unit => ([LoadUnit], st)
  }

  /** The instructions of a sequence of nodes, visited left to right. */
  function GenAll(nodes: seq<L.Node>, st: GenState, mode: ParamBinding): (r: (seq<Instruction>, GenState))
    requires st.chain != []
    ensures r.1.prev == st.prev && |r.1.chain| == |st.chain| && r.1.level == st.level
    decreases L.DepthAll(nodes), 1, |nodes|
  {
    if nodes == [] then ([], st)
    else
      var (h, s1) := Gen(nodes[0], st, mode);
      var (t, s2) := GenAll(nodes[1..], s1, mode);
      (h + t, s2)
  }

  /** The code so far followed by the code and state still to come. */
  function Glue(code: seq<Instruction>, rest: (seq<Instruction>, GenState)): (seq<Instruction>, GenState) {
    (code + rest.0, rest.1)
  }

  /** One more node of a sequence visited. */
  lemma GenAllStep(nodes: seq<L.Node>, i: nat, st: GenState, mode: ParamBinding)
    requires i < |nodes| && st.chain != []
    ensures GenAll(nodes[i..], st, mode)
      == Glue(Gen(nodes[i], st, mode).0, GenAll(nodes[i + 1..], Gen(nodes[i], st, mode).1, mode))
  {
    assert nodes[i..][0] == nodes[i];
    assert nodes[i..][1..] == nodes[i + 1..];
  }

  /** How many instructions a node compiles to, whatever names it uses:
      one per leaf and per function, one more for every pair, list,
      application, definition and native operation, two more for a
      conditional's BRANCH and JUMP, none for a block itself. */
  function Size(n: L.Node): nat
    decreases L.Depth(n), 0
  {
    match n
    case Apply(func, arg) => Size(arg) + Size(func) + 1
    case Block(body, _) => SizeAll(body)
    case Cond(pred, cons, elseBranch) => Size(pred) + Size(cons) + Size(elseBranch) + 2
    case Define(_, value) => Size(value) + 1
    case Function(_, _) => 1
    case List(elements) => SizeAll(elements) + 1
    case NativeOp(_, left, right) => Size(left) + (if right.Some? then Size(right.value) else 0) + 1
    case Pair(first, second) => Size(first) + Size(second) + 1
    case _ => 1
  }

  function SizeAll(nodes: seq<L.Node>): nat
    decreases L.DepthAll(nodes), 1, |nodes|
  {
    if nodes == [] then 0 else Size(nodes[0]) + SizeAll(nodes[1..])
  }

  /** The length of a node's code depends on the tree alone, not on the
      scopes, the slot numbering or how parameters are bound. */
  lemma {:induction false} CodeSize(n: L.Node, st: GenState, mode: ParamBinding)
    requires st.chain != []
    ensures |Gen(n, st, mode).0| == Size(n)
    decreases L.Depth(n), 0
  {
    match n
    case Apply(func, arg) =>
      CodeSize(arg, st, mode);
      CodeSize(func, Gen(arg, st, mode).1, mode);
    case Block(body, _) =>
      CodeSizeAll(body, Pushed(st), mode);
    case Cond(pred, cons, elseBranch) =>
      var s1 := Gen(cons, st, mode).1;
      var s2 := Gen(elseBranch, s1, mode).1;
      CodeSize(cons, st, mode);
      CodeSize(elseBranch, s1, mode);
      CodeSize(pred, s2, mode);
    case Define(_, value) =>
      CodeSize(value, st, mode);
    case Function(_, _) =>
    case List(elements) =>
      CodeSizeAll(elements, st, mode);
    case Name(_) =>
    case NativeOp(_, left, right) =>
      if right.Some? {
        CodeSize(right.value, st, mode);
        CodeSize(left, Gen(right.value, st, mode).1, mode);
      } else {
        CodeSize(left, st, mode);
      }
    case Pair(first, second) =>
      CodeSize(second, st, mode);
      CodeSize(first, Gen(second, st, mode).1, mode);
    case Scalar(_) =>
    case Unit =>
  }

  lemma {:induction false} CodeSizeAll(nodes: seq<L.Node>, st: GenState, mode: ParamBinding)
    requires st.chain != []
    ensures |GenAll(nodes, st, mode).0| == SizeAll(nodes)
    decreases L.DepthAll(nodes), 1, |nodes|
  {
    if nodes != [] {
      CodeSize(nodes[0], st, mode);
      CodeSizeAll(nodes[1..], Gen(nodes[0], st, mode).1, mode);
    }
  }

  /** In a conditional's code the BRANCH skips the consequent and its JUMP,
      landing on the first instruction of the alternative, and the JUMP
      skips the alternative, landing just past the conditional. */
  lemma CondJumps(n: L.Node, st: GenState, mode: ParamBinding)
    requires n.Cond? && st.chain != []
    ensures var code := Gen(n, st, mode).0;
      var b := |code| - Size(n.elseBranch) - Size(n.cons) - 2;
      0 <= b && code[b] == Branch(Size(n.cons) + 1)
      && code[b + 1 + Size(n.cons) + 1..] == Gen(n.elseBranch, Gen(n.cons, st, mode).1, mode).0
      && code[b + Size(n.cons) + 1] == Jump(Size(n.elseBranch))
      && b + Size(n.cons) + 1 + 1 + Size(n.elseBranch) == |code|
  {
    var s1 := Gen(n.cons, st, mode).1;
    var s2 := Gen(n.elseBranch, s1, mode).1;
    CodeSize(n.cons, st, mode);
    CodeSize(n.elseBranch, s1, mode);
    CodeSize(n.pred, s2, mode);
  }

  /** `_push_scope` and `_pop_scope` pair up: after a block or a function
      the index, the saved indexes and the function level are what they
      were before. */
  lemma ScopeRestored(n: L.Node, st: GenState, mode: ParamBinding)
    requires (n.Block? || n.Function?) && st.chain != []
    ensures var after := Gen(n, st, mode).1;
      after.index == st.index && after.prev == st.prev && after.level == st.level
      && |after.chain| == |st.chain|
  {
  }

  /** One scope's numbering: distinct names have distinct slots, all in
      `0 .. bound - 1`. */
  predicate ScopeNumbered(m: map<string, int>, bound: int) {
    (forall k :: k in m ==> 0 <= m[k] < bound)
    && (forall a, b :: a in m && b in m && a != b ==> m[a] != m[b])
  }

  /** The index reached by the numbering of the scope `j` steps out: the
      current index for the innermost scope, the saved one for the others. */
  function Reached(st: GenState, j: nat): int
    requires j <= |st.prev|
  {
    if j == 0 then st.index else st.prev[|st.prev| - j]
  }

  /** Every scope of the chain is numbered up to the index it reached, and
      there is one saved index per enclosing scope. */
  predicate Numbered(st: GenState) {
    |st.chain| == |st.prev| + 1 && 0 <= st.index
    && forall j: nat :: j < |st.chain| ==> ScopeNumbered(st.chain[j], Reached(st, j))
  }

  /** The generator only ever adds bindings to the innermost scope: the
      enclosing scopes stay as they were, every slot it gave keeps its
      value, and the index never goes back. */
  predicate Keeps(before: GenState, after: GenState) {
    |after.chain| == |before.chain| >= 1 && after.chain[1..] == before.chain[1..]
    && before.index <= after.index
    && forall k :: k in before.chain[0] ==> k in after.chain[0] && after.chain[0][k] == before.chain[0][k]
  }

  lemma KeepsTrans(a: GenState, b: GenState, c: GenState)
    requires Keeps(a, b) && Keeps(b, c)
    ensures Keeps(a, c)
  {
  }

  /** Numbering a new name keeps the scopes numbered. */
  lemma AllocatedNumbered(st: GenState, name: string)
    requires st.chain != [] && Numbered(st)
    ensures Numbered(Allocated(st, name)) && Keeps(st, Allocated(st, name))
  {
    var r := Allocated(st, name);
    if !InChain(st.chain, name) {
      assert r.chain[1..] == st.chain[1..];
      forall j: nat | j < |r.chain|
        ensures ScopeNumbered(r.chain[j], Reached(r, j))
      {
        if j > 0 {
          assert r.chain[j] == st.chain[j];
          assert ScopeNumbered(st.chain[j], Reached(st, j));
        } else {
          var h := st.chain[0];
          assert ScopeNumbered(h, st.index);
          assert r.chain[0] == h[name := st.index];
          forall k | k in r.chain[0]
            ensures 0 <= r.chain[0][k] < r.index
          {
            if k != name {
              assert k in h;
            }
          }
        }
      }
    }
  }

  /** A pushed scope is empty, and the scope it encloses is numbered up to
      the index just saved. */
  lemma PushedNumbered(st: GenState)
    requires Numbered(st)
    ensures Numbered(Pushed(st))
  {
    var p := Pushed(st);
    forall j: nat | j < |p.chain|
      ensures ScopeNumbered(p.chain[j], Reached(p, j))
    {
      if j > 0 {
        assert p.chain[j] == st.chain[j - 1];
        assert Reached(p, j) == Reached(st, j - 1);
        assert ScopeNumbered(st.chain[j - 1], Reached(st, j - 1));
      }
    }
  }

  /** Leaving a scope whose enclosing scopes were kept gives back the state
      from before it was entered. */
  lemma PoppedRestores(st: GenState, inner: GenState, s: GenState)
    requires st.chain != [] && inner.chain != []
    requires inner.prev == st.prev + [st.index] && inner.chain[1..] == st.chain
    requires Keeps(inner, s) && s.prev == inner.prev && s.level == st.level
    ensures s.prev != [] && |s.chain| >= 2
    ensures Popped(s) == st
  {
    assert (st.prev + [st.index])[..|st.prev|] == st.prev;
  }

  /** With the parameter bound in the function's own scope the generator
      keeps every scope numbered: no two names of a scope share a slot,
      a name's slot never changes once given, and a block or a function
      leaves no trace in the state. */
  lemma {:induction false} LocalKeepsNumbering(n: L.Node, st: GenState)
    requires st.chain != [] && Numbered(st)
    ensures Numbered(Gen(n, st, Local).1) && Keeps(st, Gen(n, st, Local).1)
    ensures n.Block? || n.Function? ==> Gen(n, st, Local).1 == st
    decreases L.Depth(n), 1
  {
    match n
    case Apply(func, arg) =>
      KeepsBoth(arg, func, st);
    case Block(body, _) =>
      BlockLeavesNoTrace(body, st);
    case Cond(pred, cons, elseBranch) =>
      KeepsBoth(cons, elseBranch, st);
      var s2 := Gen(elseBranch, Gen(cons, st, Local).1, Local).1;
      LocalKeepsNumbering(pred, s2);
      KeepsTrans(st, s2, Gen(pred, s2, Local).1);
    case Define(target, value) =>
      var s1 := Gen(value, st, Local).1;
      LocalKeepsNumbering(value, st);
      AllocatedNumbered(s1, target);
      KeepsTrans(st, s1, Allocated(s1, target));
    case Function(param, body) =>
      FunctionLeavesNoTrace(param, body, st);
    case List(elements) =>
      LocalKeepsNumberingAll(elements, st);
    case Name(name) =>
      AllocatedNumbered(st, name);
    case NativeOp(_, left, right) =>
      if right.Some? {
        KeepsBoth(right.value, left, st);
      } else {
        LocalKeepsNumbering(left, st);
      }
    case Pair(first, second) =>
      KeepsBoth(second, first, st);
    case Scalar(_) =>
    case Unit =>
  }

  /** Two nodes compiled one after the other keep the numbering. */
  lemma {:induction false} KeepsBoth(a: L.Node, b: L.Node, st: GenState)
    requires st.chain != [] && Numbered(st)
    ensures var s2 := Gen(b, Gen(a, st, Local).1, Local).1;
      Numbered(s2) && Keeps(st, s2)
    decreases L.Max(L.Depth(a), L.Depth(b)), 2
  {
    var s1 := Gen(a, st, Local).1;
    LocalKeepsNumbering(a, st);
    LocalKeepsNumbering(b, s1);
    KeepsTrans(st, s1, Gen(b, s1, Local).1);
  }

  /** A block's scope is pushed and popped around its body, which only adds
      to that scope. */
  lemma {:induction false} BlockLeavesNoTrace(body: seq<L.Node>, st: GenState)
    requires st.chain != [] && Numbered(st)
    ensures forall mark :: Gen(L.Block(body, mark), st, Local).1 == st
    decreases L.DepthAll(body), 3
  {
    PushedNumbered(st);
    LocalKeepsNumberingAll(body, Pushed(st));
    PoppedRestores(st, Pushed(st), GenAll(body, Pushed(st), Local).1);
  }

  /** A function's scope, holding its parameter at slot 0, is pushed and
      popped around its body, which only adds to that scope. */
  lemma {:induction false} FunctionLeavesNoTrace(param: string, body: L.Node, st: GenState)
    requires st.chain != [] && Numbered(st)
    ensures Gen(L.Function(param, body), st, Local).1 == st
    decreases L.Depth(body), 2
  {
    var s1 := EnterFunction(st, param, Local);
    FunctionScopeNumbered(st, param);
    assert s1.chain[1..] == st.chain;
    LocalKeepsNumbering(body, s1);
    var s2 := Gen(body, s1, Local).1;
    FunctionUnfold(param, body, st, Local);
    assert Keeps(s1, s2.(level := s2.level - 1));
    PoppedRestores(st, s1, s2.(level := s2.level - 1));
  }

  lemma {:induction false} LocalKeepsNumberingAll(nodes: seq<L.Node>, st: GenState)
    requires st.chain != [] && Numbered(st)
    ensures Numbered(GenAll(nodes, st, Local).1) && Keeps(st, GenAll(nodes, st, Local).1)
    decreases L.DepthAll(nodes), 2, |nodes|
  {
    if nodes != [] {
      var s1 := Gen(nodes[0], st, Local).1;
      LocalKeepsNumbering(nodes[0], st);
      LocalKeepsNumberingAll(nodes[1..], s1);
      KeepsTrans(st, s1, GenAll(nodes[1..], s1, Local).1);
    }
  }

  /** A function's own scope, holding only its parameter at slot 0, is
      numbered. */
  lemma FunctionScopeNumbered(st: GenState, param: string)
    requires st.chain != [] && Numbered(st)
    ensures Numbered(EnterFunction(st, param, Local))
  {
    PushedNumbered(st);
    var p := Pushed(st);
    var s1 := EnterFunction(st, param, Local);
    assert s1.chain[0] == map[param := 0];
    forall j: nat | j < |s1.chain|
      ensures ScopeNumbered(s1.chain[j], Reached(s1, j))
    {
      if j > 0 {
        assert s1.chain[j] == p.chain[j] && Reached(s1, j) == Reached(p, j);
      }
    }
  }

  /** `visit_define` numbers a name on its first definition only: a name no
      scope binds once its value is compiled is stored to the next slot of
      the innermost scope, which then binds it; a bound name is stored to
      the slot it has, and nothing else changes. */
  lemma DefineSlot(x: string, value: L.Node, st: GenState, mode: ParamBinding)
    requires st.chain != []
    ensures var (v, s1) := Gen(value, st, mode);
      var r := Gen(L.Define(x, value), st, mode);
      (!InChain(s1.chain, x) ==>
        r.0 == v + [StoreName(s1.index)] && r.1.index == s1.index + 1
        && x in r.1.chain[0] && r.1.chain[0][x] == s1.index && r.1.chain[1..] == s1.chain[1..])
      && (InChain(s1.chain, x) ==> r.0 == v + [StoreName(ChainLookup(s1.chain, x).value)] && r.1 == s1)
  {
  }

  /** A name seen for the first time gets the next slot of the innermost
      scope and is loaded from there at depth 1. */
  lemma UnboundName(x: string, st: GenState, mode: ParamBinding)
    requires st.chain != [] && !InChain(st.chain, x)
    ensures Gen(L.Name(x), st, mode) == ([LoadName(1, st.index)], Allocated(st, x))
  {
    var s := Allocated(st, x);
    assert x in s.chain[0];
  }

  /** Numbering one name leaves every other unbound name unbound. */
  lemma StillUnbound(st: GenState, b: string, a: string)
    requires st.chain != [] && a != b && !InChain(st.chain, a)
    ensures !InChain(Allocated(st, b).chain, a)
  {
    var c := Allocated(st, b).chain;
    forall j | 0 <= j < |c|
      ensures a !in c[j]
    {
      assert j > 0 ==> c[j] == st.chain[j];
      assert a !in st.chain[j];
    }
  }

  /** A pair compiles its second element first: of two new names the second
      gets the lower slot. */
  lemma PairVisitsSecondFirst(a: string, b: string, st: GenState, mode: ParamBinding)
    requires st.chain != [] && a != b && !InChain(st.chain, a) && !InChain(st.chain, b)
    ensures var r := Gen(L.Pair(L.Name(a), L.Name(b)), st, mode);
      r.0 == [LoadName(1, st.index), LoadName(1, st.index + 1), BuildPair]
      && b in r.1.chain[0] && r.1.chain[0][b] == st.index && a in r.1.chain[0] && r.1.chain[0][a] == st.index + 1
  {
    UnboundName(b, st, mode);
    StillUnbound(st, b, a);
    UnboundName(a, Allocated(st, b), mode);
  }

  /** An application compiles its argument before the function. */
  lemma ApplyVisitsArgFirst(f: string, a: string, st: GenState, mode: ParamBinding)
    requires st.chain != [] && a != f && !InChain(st.chain, a) && !InChain(st.chain, f)
    ensures var r := Gen(L.Apply(L.Name(f), L.Name(a)), st, mode);
      r.0 == [LoadName(1, st.index), LoadName(1, st.index + 1), Codegen.Apply]
      && a in r.1.chain[0] && r.1.chain[0][a] == st.index && f in r.1.chain[0] && r.1.chain[0][f] == st.index + 1
  {
    UnboundName(a, st, mode);
    StillUnbound(st, a, f);
    UnboundName(f, Allocated(st, a), mode);
  }

  /** A conditional compiles its consequent, then its alternative, and its
      predicate last, though the predicate's code comes first. */
  lemma CondVisitsBranchesFirst(p: string, c: string, e: string, st: GenState, mode: ParamBinding)
    requires st.chain != [] && p != c && p != e && c != e
    requires !InChain(st.chain, p) && !InChain(st.chain, c) && !InChain(st.chain, e)
    ensures var r := Gen(L.Cond(L.Name(p), L.Name(c), L.Name(e)), st, mode);
      r.0 == [LoadName(1, st.index + 2), Branch(2), LoadName(1, st.index), Jump(1), LoadName(1, st.index + 1)]
      && c in r.1.chain[0] && r.1.chain[0][c] == st.index
      && e in r.1.chain[0] && r.1.chain[0][e] == st.index + 1
      && p in r.1.chain[0] && r.1.chain[0][p] == st.index + 2
  {
    var s1 := Allocated(st, c);
    UnboundName(c, st, mode);
    StillUnbound(st, c, e);
    StillUnbound(st, c, p);
    var s2 := Allocated(s1, e);
    UnboundName(e, s1, mode);
    StillUnbound(s1, e, p);
    UnboundName(p, s2, mode);
  }

  /** The two ways of binding the parameter agree unless an enclosing scope
      already binds the parameter's name. */
  lemma ParamModesAgree(st: GenState, param: string)
    requires st.chain != [] && !InChain(st.chain, param)
    ensures EnterFunction(st, param, ThroughScope) == EnterFunction(st, param, Local)
  {
    assert Pushed(st).chain[1..] == st.chain;
  }


  /** A scalar defined under a new name is stored to the next slot. */
  lemma DefineScalar(x: string, v: Ast.Value, st: GenState, mode: ParamBinding)
    requires st.chain != [] && !InChain(st.chain, x)
    ensures Gen(L.Define(x, L.Scalar(v)), st, mode) == ([LoadScalar(v), StoreName(st.index)], Allocated(st, x))
  {
    var s := Allocated(st, x);
    assert x in s.chain[0] && s.chain[0][x] == st.index;
    assert Slot(s, x) == st.index;
    assert Gen(L.Scalar(v), st, mode) == ([LoadScalar(v)], st);
    var r := Gen(L.Define(x, L.Scalar(v)), st, mode);
    assert r.1 == s;
    assert r.0 == [LoadScalar(v)] + [StoreName(Slot(s, x))];
    assert r.0 == [LoadScalar(v), StoreName(st.index)];
  }

  /** A name bound by the innermost scope is loaded at depth 1 from its
      slot, and nothing changes. */
  lemma InnermostName(x: string, st: GenState, mode: ParamBinding)
    requires st.chain != [] && x in st.chain[0]
    ensures Gen(L.Name(x), st, mode) == ([LoadName(1, st.chain[0][x])], st)
  {
    assert InChain(st.chain, x);
  }

  /** How a function's code and the state after it come from its body's. */
  lemma FunctionUnfold(param: string, body: L.Node, st: GenState, mode: ParamBinding)
    requires st.chain != []
    ensures var inner := Gen(body, EnterFunction(st, param, mode), mode);
      Gen(L.Function(param, body), st, mode) == ([LoadFunc(inner.0)], LeaveFunction(inner.1))
  {
  }

  /** `scope[param] = 0` right after the function's scope is pushed, when
      only the enclosing scope binds the parameter's name: the binding found
      there is set to 0 and the function's own scope stays empty. */
  lemma ParamRebound(x: string, st: GenState)
    requires |st.chain| >= 2 && x in st.chain[0] && !InChain(st.chain[1..], x)
    ensures EnterFunction(st, x, ThroughScope).chain == [map[]] + ([st.chain[0][x := 0]] + st.chain[1..])
  {
    var c := Pushed(st).chain;
    assert c[1..] == st.chain;
    assert InChain(c[1..], x) by { assert x in c[1..][0]; }
    assert ChainSet(c, x, 0) == [c[0]] + ChainSet(c[1..], x, 0);
    assert ChainSet(st.chain, x, 0) == [st.chain[0][x := 0]] + st.chain[1..];
  }

  /** Inside a function, a name bound one scope out is loaded at depth 0. */
  lemma EnclosingName(x: string, st: GenState, mode: ParamBinding)
    requires |st.chain| >= 2 && x !in st.chain[0] && x in st.chain[1] && st.level > 0
    ensures Gen(L.Name(x), st, mode) == ([LoadName(0, st.chain[1][x])], st)
  {
    assert InChain(st.chain, x);
    assert ChainDepth(st.chain, x) == 1;
  }

  /** `visit_function` as written, for `\x -> x` compiled where only the
      innermost scope binds `x`: the body loads `x` from the enclosing
      scope, at depth 0 inside a function, and the enclosing `x` has lost
      its slot to 0. */
  lemma IdentityAsWritten(x: string, st: GenState)
    requires |st.chain| >= 2 && x in st.chain[0] && !InChain(st.chain[1..], x) && st.level >= 0
    ensures Gen(L.Function(x, L.Name(x)), st, ThroughScope)
      == ([LoadFunc([LoadName(0, 0)])], st.(chain := [st.chain[0][x := 0]] + st.chain[1..]))
  {
    var s1 := EnterFunction(st, x, ThroughScope);
    ParamRebound(x, st);
    assert s1.chain[1] == st.chain[0][x := 0] && x !in s1.chain[0];
    EnclosingName(x, s1, ThroughScope);
    FunctionUnfold(x, L.Name(x), st, ThroughScope);
    assert s1.chain[1..] == [st.chain[0][x := 0]] + st.chain[1..];
    assert (st.prev + [st.index])[..|st.prev|] == st.prev;
  }

  /** The same function with the parameter bound in its own scope: the body
      loads slot 0 of the function's scope, and the state is as before. */
  lemma IdentityIntended(x: string, st: GenState)
    requires st.chain != []
    ensures Gen(L.Function(x, L.Name(x)), st, Local) == ([LoadFunc([LoadName(1, 0)])], st)
  {
    var s1 := EnterFunction(st, x, Local);
    InnermostName(x, s1, Local);
    FunctionUnfold(x, L.Name(x), st, Local);
    assert s1.chain[1..] == st.chain;
    assert (st.prev + [st.index])[..|st.prev|] == st.prev;
  }

  /** The first two definitions of `y = a; x = b; ...`: `y` gets slot 0
      and `x` slot 1. */
  lemma ExampleHead(nodes: seq<L.Node>, x: string, y: string, a: int, b: int, mode: ParamBinding)
    requires x != y && |nodes| >= 2
    requires nodes[0] == L.Define(y, L.Scalar(Ast.IntValue(a))) && nodes[1] == L.Define(x, L.Scalar(Ast.IntValue(b)))
    ensures GenAll(nodes, Pushed(Initial), mode)
      == Glue([LoadInt(a), StoreName(0), LoadInt(b), StoreName(1)],
              GenAll(nodes[2..], GenState(2, [0], [map[y := 0, x := 1], map[]], 0), mode))
  {
    var s0 := Pushed(Initial);
    assert s0 == GenState(0, [0], [map[], map[]], 0);
    DefineScalar(y, Ast.IntValue(a), s0, mode);
    var s1 := Allocated(s0, y);
    assert s1 == GenState(1, [0], [map[y := 0], map[]], 0);
    StillUnbound(s0, y, x);
    DefineScalar(x, Ast.IntValue(b), s1, mode);
    assert Allocated(s1, x) == GenState(2, [0], [map[y := 0, x := 1], map[]], 0);
    GenAllStep(nodes, 0, s0, mode);
    GenAllStep(nodes, 1, s1, mode);
    assert nodes[0..] == nodes;
    var rest := GenAll(nodes[2..], Allocated(s1, x), mode);
    var c0 := [LoadInt(a), StoreName(0)];
    var c1 := [LoadInt(b), StoreName(1)];
    assert GenAll(nodes, s0, mode) == Glue(c0, Glue(c1, rest));
    assert c0 + (c1 + rest.0) == (c0 + c1) + rest.0;
    assert c0 + c1 == [LoadInt(a), StoreName(0), LoadInt(b), StoreName(1)];
    assert Glue(c0, Glue(c1, rest)) == Glue(c0 + c1, rest);
  }

  /** The rest of the example: `f` gets slot 2 and the last `x` is loaded
      from the slot the function left it with. */
  lemma ExampleTail(rest: seq<L.Node>, x: string, y: string, f: string, mode: ParamBinding,
                    slotX: int, body: seq<Instruction>)
    requires x != f && y != f
    requires rest == [L.Define(f, L.Function(x, L.Name(x))), L.Name(x)]
    requires var st := GenState(2, [0], [map[y := 0, x := 1], map[]], 0);
      Gen(L.Function(x, L.Name(x)), st, mode) == ([LoadFunc(body)], st.(chain := [map[y := 0, x := slotX], map[]]))
    ensures GenAll(rest, GenState(2, [0], [map[y := 0, x := 1], map[]], 0), mode).0
      == [LoadFunc(body), StoreName(2), LoadName(1, slotX)]
  {
    var st := GenState(2, [0], [map[y := 0, x := 1], map[]], 0);
    var s2 := st.(chain := [map[y := 0, x := slotX], map[]]);
    assert !InChain(s2.chain, f) by {
      assert f !in s2.chain[0] && f !in s2.chain[1];
    }
    var s3 := Allocated(s2, f);
    assert s3.chain[0] == map[y := 0, x := slotX, f := 2];
    assert Slot(s3, f) == 2;
    InnermostName(x, s3, mode);
    GenAllStep(rest, 0, st, mode);
    GenAllStep(rest, 1, s3, mode);
    assert rest[0..] == rest && rest[2..] == [];
  }

  /** The block `y = a; x = b; f = \x -> x; x`, compiled by a fresh
      generator: `y` gets slot 0, `x` slot 1 and `f` slot 2; the last
      instruction loads `x` from slot `slotX` at depth 1, where `slotX` is
      the slot the function left `x` with. */
  lemma ParamExample(x: string, y: string, f: string, a: int, b: int, mark: bool, mode: ParamBinding,
                     slotX: int, body: seq<Instruction>)
    requires x != y && x != f && y != f
    requires var st := GenState(2, [0], [map[y := 0, x := 1], map[]], 0);
      Gen(L.Function(x, L.Name(x)), st, mode) == ([LoadFunc(body)], st.(chain := [map[y := 0, x := slotX], map[]]))
    ensures Gen(L.Block([L.Define(y, L.Scalar(Ast.IntValue(a))), L.Define(x, L.Scalar(Ast.IntValue(b))),
                         L.Define(f, L.Function(x, L.Name(x))), L.Name(x)], mark), Initial, mode).0
      == [LoadInt(a), StoreName(0), LoadInt(b), StoreName(1), LoadFunc(body), StoreName(2), LoadName(1, slotX)]
  {
    var nodes := [L.Define(y, L.Scalar(Ast.IntValue(a))), L.Define(x, L.Scalar(Ast.IntValue(b))),
                  L.Define(f, L.Function(x, L.Name(x))), L.Name(x)];
    ExampleHead(nodes, x, y, a, b, mode);
    ExampleTail(nodes[2..], x, y, f, mode, slotX, body);
  }

  /** `visit_function` as written: in `y = a; x = b; f = \x -> x; x` the
      last `x` is loaded from slot 0, the slot `y` was stored to, though
      `x` was stored to slot 1. */
  lemma ParamRebindsEnclosingSlot(x: string, y: string, f: string, a: int, b: int, mark: bool)
    requires x != y && x != f && y != f
    ensures Gen(L.Block([L.Define(y, L.Scalar(Ast.IntValue(a))), L.Define(x, L.Scalar(Ast.IntValue(b))),
                         L.Define(f, L.Function(x, L.Name(x))), L.Name(x)], mark), Initial, ThroughScope).0
      == [LoadInt(a), StoreName(0), LoadInt(b), StoreName(1),
          LoadFunc([LoadName(0, 0)]), StoreName(2), LoadName(1, 0)]
  {
    var st := GenState(2, [0], [map[y := 0, x := 1], map[]], 0);
    assert !InChain(st.chain[1..], x) by { assert x !in st.chain[1..][0]; }
    IdentityAsWritten(x, st);
    assert st.chain[0][x := 0] == map[y := 0, x := 0] && st.chain[1..] == [map[]];
    assert [st.chain[0][x := 0]] + st.chain[1..] == [map[y := 0, x := 0], map[]];
    ParamExample(x, y, f, a, b, mark, ThroughScope, 0, [LoadName(0, 0)]);
  }

  /** With the parameter bound in the function's own scope the last `x` is
      loaded from slot 1, where it was stored. */
  lemma ParamKeepsEnclosingSlot(x: string, y: string, f: string, a: int, b: int, mark: bool)
    requires x != y && x != f && y != f
    ensures Gen(L.Block([L.Define(y, L.Scalar(Ast.IntValue(a))), L.Define(x, L.Scalar(Ast.IntValue(b))),
                         L.Define(f, L.Function(x, L.Name(x))), L.Name(x)], mark), Initial, Local).0
      == [LoadInt(a), StoreName(0), LoadInt(b), StoreName(1),
          LoadFunc([LoadName(1, 0)]), StoreName(2), LoadName(1, 1)]
  {
    var st := GenState(2, [0], [map[y := 0, x := 1], map[]], 0);
    IdentityIntended(x, st);
    assert st.(chain := [map[y := 0, x := 1], map[]]) == st;
    ParamExample(x, y, f, a, b, mark, Local, 1, [LoadName(1, 0)]);
  }

  /** The loop of `VisitAll` after one more node: what is left to compile
      shrinks by that node, whose code moves to the code so far. */
  lemma VisitedOneMore(nodes: seq<L.Node>, i: nat, before: GenState, code: seq<Instruction>,
                       c: seq<Instruction>, after: GenState, whole: (seq<Instruction>, GenState), mode: ParamBinding)
    requires i < |nodes| && before.chain != []
    requires code + GenAll(nodes[i..], before, mode).0 == whole.0 && GenAll(nodes[i..], before, mode).1 == whole.1
    requires (c, after) == Gen(nodes[i], before, mode)
    ensures after.chain != []
    ensures (code + c) + GenAll(nodes[i + 1..], after, mode).0 == whole.0
    ensures GenAll(nodes[i + 1..], after, mode).1 == whole.1
  {
    GenAllStep(nodes, i, before, mode);
    var rest := GenAll(nodes[i + 1..], after, mode);
    assert code + (c + rest.0) == (code + c) + rest.0;
  }

  /** The generator object: the four fields `visit_*` update as it walks. */
  class InstructionGenerator {
    var currentIndex: int
    var prevIndexes: seq<int>
    var currentScope: Chain<int>
    var functionLevel: int
    const mode: ParamBinding

    function State(): GenState
      reads this
    {
      GenState(currentIndex, prevIndexes, currentScope, functionLevel)
    }

    /** `InstructionGenerator()`. */
    constructor (mode: ParamBinding)
      ensures State() == Initial && this.mode == mode
    {
      currentIndex := 0;
      prevIndexes := [];
      currentScope := [map[]];
      functionLevel := 0;
      this.mode := mode;
    }

    method PushScope()
      modifies this
      ensures State() == Pushed(old(State()))
    {
      prevIndexes := prevIndexes + [currentIndex];
      currentIndex := 0;
      currentScope := [map[]] + currentScope;
    }

    method PopScope()
      requires prevIndexes != [] && |currentScope| >= 2
      modifies this
      ensures State() == Popped(old(State()))
    {
      currentScope := currentScope[1..];
      currentIndex := prevIndexes[|prevIndexes| - 1];
      prevIndexes := prevIndexes[..|prevIndexes| - 1];
    }

    /** The slot-numbering step shared by `visit_define` and `visit_name`. */
    method Allocate(name: string)
      requires currentScope != []
      modifies this
      ensures State() == Allocated(old(State()), name)
    {
      InChainUnfold(currentScope, name);
      if !(InChain(currentScope, name)) {
        currentScope := ChainSet(currentScope, name, currentIndex);
        currentIndex := currentIndex + 1;
      }
    }

    /** `node.visit(self)`. */
    method Visit(n: L.Node) returns (code: seq<Instruction>)
      requires currentScope != []
      modifies this
      ensures (code, State()) == Gen(n, old(State()), mode)
      decreases L.Depth(n), 1
    {
      match n
      case Apply(func, arg) =>
        var a := Visit(arg);
        var f := Visit(func);
        code := a + f + [Codegen.Apply];
      case Block(body, _) =>
        code := VisitBlock(n);
      case Cond(pred, cons, elseBranch) =>
        code := VisitCond(n);
      case Define(target, value) =>
        var v := Visit(value);
        Allocate(target);
        code := v + [StoreName(Slot(State(), target))];
      case Function(param, body) =>
        code := VisitFunction(n);
      case List(elements) =>
        var es := VisitAll(elements);
        code := es + [BuildList(|elements|)];
      case Name(name) =>
        Allocate(name);
        code := [LoadName(LoadDepth(State(), name), Slot(State(), name))];
      case NativeOp(op, left, right) =>
        code := VisitNativeOp(n);
      case Pair(first, second) =>
        var s := Visit(second);
        var f := Visit(first);
        code := s + f + [BuildPair];
      case Scalar(v) =>
        code := [LoadScalar(v)];
      case Unit =>
        code := [LoadUnit];
    }

    /** `visit_block`: the body in a scope of its own. */
    method VisitBlock(n: L.Node) returns (code: seq<Instruction>)
      requires n.Block? && currentScope != []
      modifies this
      ensures (code, State()) == Gen(n, old(State()), mode)
      decreases L.Depth(n), 0
    {
      PushScope();
      code := VisitAll(n.exprs);
      PopScope();
    }

    /** `visit_cond`: both branches first, then the predicate. */
    method VisitCond(n: L.Node) returns (code: seq<Instruction>)
      requires n.Cond? && currentScope != []
      modifies this
      ensures (code, State()) == Gen(n, old(State()), mode)
      decreases L.Depth(n), 0
    {
      var c := Visit(n.cons);
      var e := Visit(n.elseBranch);
      var p := Visit(n.pred);
      code := p + [Branch(|c| + 1)] + c + [Jump(|e|)] + e;
    }

    /** `visit_function`: the body in a new scope whose slot 0 is the
        parameter. */
    method VisitFunction(n: L.Node) returns (code: seq<Instruction>)
      requires n.Function? && currentScope != []
      modifies this
      ensures (code, State()) == Gen(n, old(State()), mode)
      decreases L.Depth(n), 0
    {
      PushScope();
      functionLevel := functionLevel + 1;
      match mode {
        case ThroughScope => currentScope := ChainSet(currentScope, n.param, 0);
        case Local => currentScope := [currentScope[0][n.param := 0]] + currentScope[1..];
      }
      currentIndex := currentIndex + 1;
      var body := Visit(n.body);
      functionLevel := functionLevel - 1;
      PopScope();
      code := [LoadFunc(body)];
    }

    /** `visit_native_op`: the right operand, when there is one, before the
        left. */
    method VisitNativeOp(n: L.Node) returns (code: seq<Instruction>)
      requires n.NativeOp? && currentScope != []
      modifies this
      ensures (code, State()) == Gen(n, old(State()), mode)
      decreases L.Depth(n), 0
    {
      var rc := [];
      if n.right.Some? {
        rc := Visit(n.right.value);
      }
      var lc := Visit(n.left);
      code := rc + lc + [Native(NativeCode(n.operation))];
    }

    /** The nodes of a sequence, left to right, their code chained. */
    method VisitAll(nodes: seq<L.Node>) returns (code: seq<Instruction>)
      requires currentScope != []
      modifies this
      ensures (code, State()) == GenAll(nodes, old(State()), mode)
      decreases L.DepthAll(nodes), 2
    {
      ghost var whole := GenAll(nodes, State(), mode);
      code := [];
      var i := 0;
      assert nodes[i..] == nodes && [] + whole.0 == whole.0;
      while i < |nodes|
        invariant 0 <= i <= |nodes| && currentScope != []
        invariant code + GenAll(nodes[i..], State(), mode).0 == whole.0
        invariant GenAll(nodes[i..], State(), mode).1 == whole.1
      {
        L.DepthAllBounds(nodes, i);
        ghost var before := State();
        var c := Visit(nodes[i]);
        VisitedOneMore(nodes, i, before, code, c, State(), whole, mode);
        code := code + c;
        i := i + 1;
      }
      assert nodes[i..] == [] && code + [] == code;
    }
  }

  /** `InstructionGenerator().run(ast)`. */
  method GenerateInstructions(tree: L.Node, mode: ParamBinding) returns (code: seq<Instruction>)
    ensures code == Gen(tree, Initial, mode).0
  {
    var generator := new InstructionGenerator(mode);
    code := generator.Visit(tree);
  }
}
