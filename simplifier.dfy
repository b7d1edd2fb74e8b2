/** The lowering of `hanno/codegen/simplifier.py`: the surface tree becomes
    the lowered tree, binary operators become native operations, patterns
    bound by definitions and parameters are taken apart, and every match
    becomes a chain of conditionals (a decision tree). */
module Simplifier {
  import opened Wrappers
  import opened Errors
  import opened Text
  import Ast
  import L = Lowered
  import Exhaustiveness

  /** `TRUE_NODE`, the predicate of a branch that always matches. */
  const TrueNode: Ast.Node := Ast.Scalar(Ast.BoolValue(true))

  /** `_ast_and`: the surface expression `and left right`. */
  function AndNode(left: Ast.Node, right: Ast.Node): Ast.Node {
    Ast.Apply(Ast.Apply(Ast.Name("and"), left), right)
  }

  /** The test a pattern makes while the decision tree is built. `Test` is a
      surface expression; `SeedTrue` is the lowered `Scalar(True)` that a
      list pattern's conjunction starts from, which `==` does not find equal
      to `TRUE_NODE`; `Both` is the conjunction `_ast_and` builds. */
  datatype Pred = Test(node: Ast.Node) | SeedTrue | Both(left: Pred, right: Pred)

  /** The surface expression a test stands for. The seed lowers to the same
      scalar as `TRUE_NODE`. */
  function PredNode(p: Pred): Ast.Node {
    match p
    case Test(n) => n
    case SeedTrue => TrueNode
    case Both(l, r) => AndNode(PredNode(l), PredNode(r))
  }

  /** `reduce(_ast_and, preds, seed)`. */
  function FoldAnd(acc: Pred, preds: seq<Pred>): Pred
    decreases |preds|
  {
    if preds == [] then acc else FoldAnd(Both(acc, preds[0]), preds[1..])
  }

  /** The surface subject `name subject`, such as `first subject`. */
  function Call(name: string, subject: Ast.Node): Ast.Node {
    Ast.Apply(Ast.Name(name), subject)
  }

  /** `op left right` for a binary operator. */
  function Binary(op: string, left: Ast.Node, right: Ast.Node): Ast.Node {
    Ast.Apply(Ast.Apply(Ast.Name(op), left), right)
  }

  function IntScalar(n: int): Ast.Node {
    Ast.Scalar(Ast.IntValue(n))
  }

  /** `build_branch`: the test a pattern makes of the subject and the
      definitions of the names it binds. A name or a unit always matches,
      `_` binds nothing, `True` tests the subject itself and `False` its
      negation; other scalars and pinned names test equality; pairs test
      both halves through `first` and `second`. */
  function BuildBranch(subject: Ast.Node, p: Ast.Pattern): (r: (Pred, seq<Ast.Node>))
    decreases p, 1
  {
    match p
    case UnitPattern => (Test(TrueNode), [])
    case FreeName(v) => (Test(TrueNode), if v == "_" then [] else [Ast.Define(p, subject)])
    case ScalarPattern(value) =>
      if value.BoolValue? then
        (Test(if value.flag then subject else Call("not", subject)), [])
      else (Test(Binary("=", Ast.Scalar(value), subject)), [])
    case PinnedName(v) => (Test(Binary("=", Ast.Name(v), subject)), [])
    case PairPattern(first, second) =>
      var (firstPred, firstDefs) := BuildBranch(Call("first", subject), first);
      var (secondPred, secondDefs) := BuildBranch(Call("second", subject), second);
      (Both(firstPred, secondPred), firstDefs + secondDefs)
    case ListPattern(initials, rest) =>
      if initials == [] && rest.None? then
        (Test(Binary("=", Call("length", subject), IntScalar(0))), [])
      else
        var head := if initials != [] then [Test(LengthAtLeast(|initials|, subject))] else [];
        var (preds, defs) := ElementBranches(subject, p, 0);
        (FoldAnd(SeedTrue, head + preds), defs + RestDefinition(subject, p))
  }

  /** `_get_length_pred`: `>= (length subject) n`. */
  function LengthAtLeast(n: nat, subject: Ast.Node): Ast.Node {
    Binary(">=", Call("length", subject), IntScalar(n))
  }

  /** The element a list pattern's `index`-th initial pattern matches:
      `at (subject, index)`. */
  function Element(subject: Ast.Node, index: nat): Ast.Node {
    Call("at", Ast.Pair(subject, IntScalar(index)))
  }

  /** The tests and definitions of the initial patterns from `from` on. */
  function ElementBranches(subject: Ast.Node, p: Ast.Pattern, from: nat): (r: (seq<Pred>, seq<Ast.Node>))
    requires p.ListPattern? && from <= |p.initials|
    ensures |r.0| == |p.initials| - from
    decreases p, 0, |p.initials| - from
  {
    if from == |p.initials| then ([], [])
    else
      var (pred, defs) := BuildBranch(Element(subject, from), p.initials[from]);
      var (preds, moreDefs) := ElementBranches(subject, p, from + 1);
      ([pred] + preds, defs + moreDefs)
  }

  /** A list pattern's `rest` is bound to `drop (subject, n)`. */
  function RestDefinition(subject: Ast.Node, p: Ast.Pattern): seq<Ast.Node>
    requires p.ListPattern?
  {
    match p.rest
    case None => []
    case Some(name) =>
      [Ast.Define(Ast.FreeName(name), Call("drop", Ast.Pair(subject, IntScalar(|p.initials|))))]
  }

  /** `_build_list_pattern_branch`: the loop over the initial patterns,
      appending each one's test and definitions. */
  method ListPatternBranch(subject: Ast.Node, p: Ast.Pattern) returns (pred: Pred, defs: seq<Ast.Node>)
    requires p.ListPattern?
    ensures (pred, defs) == BuildBranch(subject, p)
  {
    var initials := p.initials;
    if initials == [] && p.rest.None? {
      assert p == Ast.ListPattern([], None);
      return Test(Binary("=", Call("length", subject), IntScalar(0))), [];
    }
    var head := if initials != [] then [Test(LengthAtLeast(|initials|, subject))] else [];
    var predicates := head;
    defs := [];
    var index := 0;
    while index < |initials|
      invariant 0 <= index <= |initials|
      invariant Collecting(subject, p, head, index, predicates, defs)
    {
      var (subPred, subDefs) := BuildBranch(Element(subject, index), initials[index]);
      CollectingStep(subject, p, head, index, predicates, defs);
      predicates := predicates + [subPred];
      defs := defs + subDefs;
      index := index + 1;
    }
    CollectingDone(subject, p, head, predicates, defs);
    defs := defs + RestDefinition(subject, p);
    pred := FoldAnd(SeedTrue, predicates);
  }

  /** The loop state of `_build_list_pattern_branch` after `index` initial
      patterns: what is collected, followed by the rest, is everything. */
  ghost predicate Collecting(subject: Ast.Node, p: Ast.Pattern, head: seq<Pred>, index: nat, predicates: seq<Pred>, defs: seq<Ast.Node>)
    requires p.ListPattern? && index <= |p.initials|
  {
    predicates + ElementBranches(subject, p, index).0 == head + ElementBranches(subject, p, 0).0
    && defs + ElementBranches(subject, p, index).1 == ElementBranches(subject, p, 0).1
  }

  lemma CollectingStep(subject: Ast.Node, p: Ast.Pattern, head: seq<Pred>, index: nat, predicates: seq<Pred>, defs: seq<Ast.Node>)
    requires p.ListPattern? && index < |p.initials|
    requires Collecting(subject, p, head, index, predicates, defs)
    ensures var (subPred, subDefs) := BuildBranch(Element(subject, index), p.initials[index]);
            Collecting(subject, p, head, index + 1, predicates + [subPred], defs + subDefs)
  {
    var (subPred, subDefs) := BuildBranch(Element(subject, index), p.initials[index]);
    var rest := ElementBranches(subject, p, index + 1);
    assert ElementBranches(subject, p, index) == ([subPred] + rest.0, subDefs + rest.1);
    assert predicates + ([subPred] + rest.0) == (predicates + [subPred]) + rest.0;
    assert defs + (subDefs + rest.1) == (defs + subDefs) + rest.1;
  }

  lemma CollectingDone(subject: Ast.Node, p: Ast.Pattern, head: seq<Pred>, predicates: seq<Pred>, defs: seq<Ast.Node>)
    requires p.ListPattern? && (p.initials != [] || p.rest.Some?)
    requires head == if p.initials != [] then [Test(LengthAtLeast(|p.initials|, subject))] else []
    requires Collecting(subject, p, head, |p.initials|, predicates, defs)
    ensures BuildBranch(subject, p) == (FoldAnd(SeedTrue, predicates), defs + RestDefinition(subject, p))
  {
    assert ElementBranches(subject, p, |p.initials|) == ([], []);
    assert predicates == predicates + [];
    assert defs == defs + [];
  }

  /** The branch built for each form of pattern: the test it makes of the
      subject and the definitions it makes, in order. */
  lemma BuildBranchCases(subject: Ast.Node, p: Ast.Pattern)
    ensures p.UnitPattern? ==> BuildBranch(subject, p) == (Test(TrueNode), [])
    ensures p.FreeName? ==>
      BuildBranch(subject, p) == (Test(TrueNode), if p.name == "_" then [] else [Ast.Define(p, subject)])
    ensures p == Ast.ScalarPattern(Ast.BoolValue(true)) ==> BuildBranch(subject, p) == (Test(subject), [])
    ensures p == Ast.ScalarPattern(Ast.BoolValue(false)) ==> BuildBranch(subject, p) == (Test(Call("not", subject)), [])
    ensures p.ScalarPattern? && !p.value.BoolValue? ==>
      BuildBranch(subject, p) == (Test(Binary("=", Ast.Scalar(p.value), subject)), [])
    ensures p.PinnedName? ==> BuildBranch(subject, p) == (Test(Binary("=", Ast.Name(p.name), subject)), [])
    ensures p.PairPattern? ==>
      var (firstPred, firstDefs) := BuildBranch(Call("first", subject), p.first);
      var (secondPred, secondDefs) := BuildBranch(Call("second", subject), p.second);
      BuildBranch(subject, p) == (Both(firstPred, secondPred), firstDefs + secondDefs)
    ensures p == Ast.ListPattern([], None) ==>
      BuildBranch(subject, p) == (Test(Binary("=", Call("length", subject), IntScalar(0))), [])
    ensures p.ListPattern? && p.initials != [] ==>
      var (preds, defs) := ElementBranches(subject, p, 0);
      BuildBranch(subject, p) ==
        (FoldAnd(SeedTrue, [Test(LengthAtLeast(|p.initials|, subject))] + preds), defs + RestDefinition(subject, p))
    ensures p.ListPattern? && p.initials == [] && p.rest.Some? ==>
      BuildBranch(subject, p) ==
        (SeedTrue, [Ast.Define(Ast.FreeName(p.rest.value), Call("drop", Ast.Pair(subject, IntScalar(0))))])
  {
    if p.ListPattern? && p.initials == [] && p.rest.Some? {
      assert ElementBranches(subject, p, 0) == ([], []);
      var head: seq<Pred> := [];
      assert head + [] == [];
      assert [] + RestDefinition(subject, p) == RestDefinition(subject, p);
    }
  }

  /** The names a pattern binds when it is matched, left to right: every
      free name but `_`, and a list pattern's rest name after its initial
      patterns' names. */
  function PatternNames(p: Ast.Pattern): seq<string>
    decreases p, 1
  {
    match p
    case FreeName(v) => if v == "_" then [] else [v]
    case PairPattern(first, second) => PatternNames(first) + PatternNames(second)
    case ListPattern(initials, rest) => InitialNames(p, 0) + (if rest.Some? then [rest.value] else [])
    case _ => []
  }

  /** The names bound by a list pattern's initial patterns from `from` on. */
  function InitialNames(p: Ast.Pattern, from: nat): seq<string>
    requires p.ListPattern? && from <= |p.initials|
    decreases p, 0, |p.initials| - from
  {
    if from == |p.initials| then [] else PatternNames(p.initials[from]) + InitialNames(p, from + 1)
  }

  /** The names the definitions among `defs` bind, in order. */
  function DefinitionNames(defs: seq<Ast.Node>): seq<string> {
    if defs == [] then []
    else (if defs[0].Define? && defs[0].target.FreeName? then [defs[0].target.name] else []) + DefinitionNames(defs[1..])
  }

  lemma {:induction false} DefinitionNamesConcat(a: seq<Ast.Node>, b: seq<Ast.Node>)
    ensures DefinitionNames(a + b) == DefinitionNames(a) + DefinitionNames(b)
    decreases |a|
  {
    if a != [] {
      assert (a + b)[0] == a[0];
      assert (a + b)[1..] == a[1..] + b;
      DefinitionNamesConcat(a[1..], b);
    } else {
      assert a + b == b;
    }
  }

  /** A branch defines each name its pattern binds exactly once, in the
      order the names appear in the pattern, and nothing else. */
  lemma {:induction false} BuildBranchBindsPatternNames(subject: Ast.Node, p: Ast.Pattern)
    ensures DefinitionNames(BuildBranch(subject, p).1) == PatternNames(p)
    decreases p, 1
  {
    match p
    case PairPattern(first, second) =>
      BuildBranchBindsPatternNames(Call("first", subject), first);
      BuildBranchBindsPatternNames(Call("second", subject), second);
      DefinitionNamesConcat(BuildBranch(Call("first", subject), first).1, BuildBranch(Call("second", subject), second).1);
    case ListPattern(initials, rest) =>
      if initials != [] || rest.Some? {
        ElementBranchesBindInitialNames(subject, p, 0);
        DefinitionNamesConcat(ElementBranches(subject, p, 0).1, RestDefinition(subject, p));
      }
    case _ =>
  }

  lemma {:induction false} ElementBranchesBindInitialNames(subject: Ast.Node, p: Ast.Pattern, from: nat)
    requires p.ListPattern? && from <= |p.initials|
    ensures DefinitionNames(ElementBranches(subject, p, from).1) == InitialNames(p, from)
    decreases p, 0, |p.initials| - from
  {
    if from < |p.initials| {
      BuildBranchBindsPatternNames(Element(subject, from), p.initials[from]);
      ElementBranchesBindInitialNames(subject, p, from + 1);
      DefinitionNamesConcat(BuildBranch(Element(subject, from), p.initials[from]).1, ElementBranches(subject, p, from + 1).1);
    }
  }

  /** `pred == TRUE_NODE`, with Python's `==` on surface nodes. */
  predicate IsTrue(n: Ast.Node) {
    Ast.Eq(n, TrueNode)
  }

  /** `n` is `word left right`, where `word` is `and` or `or`. */
  predicate IsConnective(n: Ast.Node, word: string) {
    n.Apply? && n.func.Apply? && Ast.Eq(n.func.func, Ast.Name(word))
  }

  /** No application equals `TRUE_NODE`. */
  lemma ApplyNotTrue(func: Ast.Node, arg: Ast.Node)
    ensures !IsTrue(Ast.Apply(func, arg))
  {
    assert Ast.OwnEq(Ast.Apply(func, arg), TrueNode).None?;
    assert Ast.OwnEq(TrueNode, Ast.Apply(func, arg)).None?;
  }

  /** What a predicate means, given what each test that is not built from
      `and` and `or` yields: `TRUE_NODE` holds, `and` and `or` combine. */
  function Truth(n: Ast.Node, val: Ast.Node -> bool): bool {
    if IsTrue(n) then true
    else if IsConnective(n, "and") then Truth(n.func.arg, val) && Truth(n.arg, val)
    else if IsConnective(n, "or") then Truth(n.func.arg, val) || Truth(n.arg, val)
    else val(n)
  }

  /** The same for the tests the decision tree builds. */
  function PredTruth(p: Pred, val: Ast.Node -> bool): bool {
    match p
    case Test(n) => Truth(n, val)
    case SeedTrue => true
    case Both(l, r) => PredTruth(l, val) && PredTruth(r, val)
  }

  /** A test means what the surface expression standing for it means. */
  lemma {:induction false} PredTruthIsTruth(p: Pred, val: Ast.Node -> bool)
    ensures PredTruth(p, val) == Truth(PredNode(p), val)
  {
    match p
    case Test(_) =>
    case SeedTrue =>
      assert IsTrue(TrueNode) by { Ast.EqReflexive(TrueNode); }
    case Both(l, r) =>
      PredTruthIsTruth(l, val);
      PredTruthIsTruth(r, val);
      ApplyNotTrue(Ast.Apply(Ast.Name("and"), PredNode(l)), PredNode(r));
      assert IsConnective(PredNode(p), "and");
  }

  /** `reduce_pred` as written: `TRUE_NODE` reduces to None ("always
      matches"); `and l r` gives None when `l` reduces to None and the
      reduction of `r` otherwise; `or l r` gives the reduction of `l` unless
      that is None, and then the reduction of `r`. */
  function ReduceNodeAsWritten(n: Ast.Node): Option<Ast.Node> {
    if IsTrue(n) then None
    else if n.Apply? && n.func.Apply? then
      if Ast.Eq(n.func.func, Ast.Name("and")) then
        if ReduceNodeAsWritten(n.func.arg).None? then None else ReduceNodeAsWritten(n.arg)
      else if Ast.Eq(n.func.func, Ast.Name("or")) then
        if ReduceNodeAsWritten(n.func.arg).Some? then ReduceNodeAsWritten(n.func.arg) else ReduceNodeAsWritten(n.arg)
      else Some(n)
    else Some(n)
  }

  /** `reduce_pred` as written, on the tests the decision tree builds. */
  function ReducePredAsWritten(p: Pred): Option<Pred> {
    match p
    case Test(n) => if ReduceNodeAsWritten(n).None? then None else Some(Test(ReduceNodeAsWritten(n).value))
    case SeedTrue => Some(SeedTrue)
    case Both(l, r) => if ReducePredAsWritten(l).None? then None else ReducePredAsWritten(r)
  }

  /** `reduce_pred` as intended: parts that always hold are dropped from a
      conjunction, a disjunction with such a part always holds, and what is
      left keeps every other test. */
  function ReduceNode(n: Ast.Node): Option<Ast.Node> {
    if IsTrue(n) then None
    else if n.Apply? && n.func.Apply? then
      var op := n.func.func;
      if Ast.Eq(op, Ast.Name("and")) then
        match (ReduceNode(n.func.arg), ReduceNode(n.arg))
        case (None, right) => right
        case (Some(left), None) => Some(left)
        case (Some(left), Some(right)) => Some(Ast.Apply(Ast.Apply(op, left), right))
      else if Ast.Eq(op, Ast.Name("or")) then
        match (ReduceNode(n.func.arg), ReduceNode(n.arg))
        case (Some(left), Some(right)) => Some(Ast.Apply(Ast.Apply(op, left), right))
        case _ => None
      else Some(n)
    else Some(n)
  }

  /** The intended reduction on the tests the decision tree builds. The
      list pattern's seed is kept, as `==` does not recognise it. */
  function ReducePred(p: Pred): Option<Pred> {
    match p
    case Test(n) => if ReduceNode(n).None? then None else Some(Test(ReduceNode(n).value))
    case SeedTrue => Some(SeedTrue)
    case Both(l, r) =>
      match (ReducePred(l), ReducePred(r))
      case (None, right) => right
      case (Some(left), None) => Some(left)
      case (Some(left), Some(right)) => Some(Both(left, right))
  }

  /** The intended reduction keeps the meaning of a predicate: None only
      for one that always holds, and otherwise an equivalent predicate. */
  lemma {:induction false} ReduceNodeSound(n: Ast.Node, val: Ast.Node -> bool)
    ensures ReduceNode(n).None? ==> Truth(n, val)
    ensures ReduceNode(n).Some? ==> Truth(ReduceNode(n).value, val) == Truth(n, val)
  {
    if !IsTrue(n) && n.Apply? && n.func.Apply? {
      var op := n.func.func;
      if Ast.Eq(op, Ast.Name("and")) || Ast.Eq(op, Ast.Name("or")) {
        ReduceNodeSound(n.func.arg, val);
        ReduceNodeSound(n.arg, val);
        if ReduceNode(n.func.arg).Some? && ReduceNode(n.arg).Some? {
          var rebuilt := Ast.Apply(Ast.Apply(op, ReduceNode(n.func.arg).value), ReduceNode(n.arg).value);
          ApplyNotTrue(Ast.Apply(op, ReduceNode(n.func.arg).value), ReduceNode(n.arg).value);
        }
      }
    }
  }

  lemma {:induction false} ReducePredSound(p: Pred, val: Ast.Node -> bool)
    ensures ReducePred(p).None? ==> PredTruth(p, val)
    ensures ReducePred(p).Some? ==> PredTruth(ReducePred(p).value, val) == PredTruth(p, val)
  {
    match p
    case Test(n) => ReduceNodeSound(n, val);
    case SeedTrue =>
    case Both(l, r) =>
      ReducePredSound(l, val);
      ReducePredSound(r, val);
  }

  /** As written, the branch of the pair pattern `(x, 1)` reduces to None,
      so the arm counts as one that always matches, although its test that
      the second half is 1 can fail; the intended reduction keeps that
      test. */
  lemma PairTestDropped(subject: Ast.Node)
    ensures var pred := BuildBranch(subject, Ast.PairPattern(Ast.FreeName("x"), Ast.ScalarPattern(Ast.IntValue(1)))).0;
            ReducePredAsWritten(pred).None?
            && !PredTruth(pred, _ => false)
            && ReducePred(pred) == Some(Test(Binary("=", IntScalar(1), Call("second", subject))))
  {
    var test := Binary("=", IntScalar(1), Call("second", subject));
    assert BuildBranch(subject, Ast.PairPattern(Ast.FreeName("x"), Ast.ScalarPattern(Ast.IntValue(1)))).0
      == Both(Test(TrueNode), Test(test));
    assert IsTrue(TrueNode) by { Ast.EqReflexive(TrueNode); }
    ApplyNotTrue(Ast.Apply(Ast.Name("="), IntScalar(1)), Call("second", subject));
    assert !Ast.Eq(Ast.Name("="), Ast.Name("and")) && !Ast.Eq(Ast.Name("="), Ast.Name("or"));
  }

  /** `cons.body if isinstance(cons, base.Block) else [cons]`. */
  function ConsExprs(body: Ast.Node): seq<Ast.Node> {
    if body.Block? then body.exprs else [body]
  }

  /** The `Block.new` the decision tree calls on surface blocks, which the
      surface `Block` lacks; built like the lowered one: a unit for no
      expressions, the expression itself for one, a block otherwise. */
  function BaseBlockNew(body: seq<Ast.Node>): (r: Ast.Node)
    ensures |body| >= 2 <==> r.Block? && r.exprs == body
  {
    if body == [] then Ast.Unit
    else if |body| == 1 then body[0]
    else Ast.Block(body)
  }

  /** What an arm leads to: its definitions, then its body's expressions. */
  function ArmThen(subject: Ast.Node, arm: Ast.Arm): Ast.Node {
    BaseBlockNew(BuildBranch(subject, arm.pattern).1 + ConsExprs(arm.body))
  }

  /** The reduced test of an arm; None when the arm always matches. */
  function ArmTest(subject: Ast.Node, arm: Ast.Arm): Option<Pred> {
    ReducePred(BuildBranch(subject, arm.pattern).0)
  }

  /** `reduce(lambda else_, (p, t): Cond(p, t, else_), reversed(branches),
      last)`: the first branch outermost. */
  function Chain(branches: seq<(Pred, Ast.Node)>, last: Ast.Node): Ast.Node {
    if branches == [] then last
    else Ast.Cond(PredNode(branches[0].0), branches[0].1, Chain(branches[1..], last))
  }

  /** The decision tree of the arms: each arm whose test can fail becomes a
      conditional on that test; the first arm that always matches, or else
      the last arm, ends the chain without a test. */
  function TreeFrom(subject: Ast.Node, cases: seq<Ast.Arm>): Ast.Node
    requires cases != []
    decreases |cases|
  {
    var test := ArmTest(subject, cases[0]);
    if test.None? || |cases| == 1 then ArmThen(subject, cases[0])
    else Ast.Cond(PredNode(test.value), ArmThen(subject, cases[0]), TreeFrom(subject, cases[1..]))
  }

  /** `to_decision_tree`, with the missing `Block.new` supplied: a match
      with no arms fails when the default branch is popped from the empty
      list of branches. */
  function DecisionTree(subject: Ast.Node, cases: seq<Ast.Arm>): (r: Result<Ast.Node, CompilerError>)
    ensures r.Err? <==> cases == []
    ensures r.Err? ==> r.error == IndexError
  {
    if cases == [] then Err(IndexError) else Ok(TreeFrom(subject, cases))
  }

  /** `to_decision_tree` as written: the first arm already calls
      `base.Block.new`, which does not exist. */
  function DecisionTreeAsWritten(subject: Ast.Node, cases: seq<Ast.Arm>): (r: Result<Ast.Node, CompilerError>)
    ensures r.Err?
  {
    if cases == [] then Err(IndexError) else Err(AttributeError)
  }

  /** As written, no match survives lowering; with `Block.new` supplied,
      every match with an arm does. */
  lemma EveryMatchFailsAsWritten(subject: Ast.Node, cases: seq<Ast.Arm>)
    requires cases != []
    ensures DecisionTreeAsWritten(subject, cases) == Err(AttributeError)
    ensures DecisionTree(subject, cases).Ok?
  {
  }

  /** The loop of `to_decision_tree`: branches are collected in source order
      until an arm that always matches; without one, the last branch is
      popped and its test dropped. */
  method ToDecisionTree(subject: Ast.Node, cases: seq<Ast.Arm>) returns (r: Result<Ast.Node, CompilerError>)
    ensures r == DecisionTree(subject, cases)
  {
    var branches: seq<(Pred, Ast.Node)> := [];
    var i := 0;
    while i < |cases|
      invariant 0 <= i <= |cases| && |branches| == i
      invariant i < |cases| ==> TreeFrom(subject, cases) == Chain(branches, TreeFrom(subject, cases[i..]))
      invariant i == |cases| && i > 0 ==> TreeFrom(subject, cases) == Chain(branches[..i - 1], branches[i - 1].1)
    {
      var (pred, defs) := BuildBranch(subject, cases[i].pattern);
      var consequent := BaseBlockNew(defs + ConsExprs(cases[i].body));
      var test := ReducePred(pred);
      ChainStep(subject, cases, i, branches);
      if test.None? {
        return Ok(Chain(branches, consequent));
      }
      assert (branches + [(test.value, consequent)])[..i] == branches;
      branches := branches + [(test.value, consequent)];
      i := i + 1;
    }
    if branches == [] {
      return Err(IndexError);
    }
    var last := branches[|branches| - 1];
    branches := branches[..|branches| - 1];
    return Ok(Chain(branches, last.1));
  }

  /** Adding a branch at the end of a chain nests it innermost. */
  lemma {:induction false} ChainAppend(branches: seq<(Pred, Ast.Node)>, b: (Pred, Ast.Node), last: Ast.Node)
    ensures Chain(branches + [b], last) == Chain(branches, Ast.Cond(PredNode(b.0), b.1, last))
    decreases |branches|
  {
    if branches != [] {
      assert (branches + [b])[1..] == branches[1..] + [b];
      ChainAppend(branches[1..], b, last);
    }
  }

  /** One turn of the loop of `to_decision_tree`. */
  lemma ChainStep(subject: Ast.Node, cases: seq<Ast.Arm>, i: nat, branches: seq<(Pred, Ast.Node)>)
    requires i < |cases| && TreeFrom(subject, cases) == Chain(branches, TreeFrom(subject, cases[i..]))
    ensures ArmTest(subject, cases[i]).None? ==> TreeFrom(subject, cases) == Chain(branches, ArmThen(subject, cases[i]))
    ensures ArmTest(subject, cases[i]).Some? && i + 1 < |cases| ==>
              TreeFrom(subject, cases)
              == Chain(branches + [(ArmTest(subject, cases[i]).value, ArmThen(subject, cases[i]))], TreeFrom(subject, cases[i + 1..]))
    ensures ArmTest(subject, cases[i]).Some? && i + 1 == |cases| ==>
              TreeFrom(subject, cases) == Chain(branches, ArmThen(subject, cases[i]))
  {
    var rest := cases[i..];
    assert rest[0] == cases[i];
    if i + 1 < |cases| {
      assert rest[1..] == cases[i + 1..];
      var test := ArmTest(subject, cases[i]);
      if test.Some? {
        ChainAppend(branches, (test.value, ArmThen(subject, cases[i])), TreeFrom(subject, cases[i + 1..]));
      }
    }
  }

  /** The branches of arms whose tests can all fail, in source order. */
  function Branches(subject: Ast.Node, arms: seq<Ast.Arm>): (r: seq<(Pred, Ast.Node)>)
    requires forall i :: 0 <= i < |arms| ==> ArmTest(subject, arms[i]).Some?
    ensures |r| == |arms|
  {
    if arms == [] then []
    else [(ArmTest(subject, arms[0]).value, ArmThen(subject, arms[0]))] + Branches(subject, arms[1..])
  }

  /** The decision tree tests the arms in source order up to the first arm
      that always matches, or up to the last arm, whose test is dropped;
      that arm's consequence ends the chain. */
  lemma {:induction false} DecisionTreeShape(subject: Ast.Node, cases: seq<Ast.Arm>, k: nat)
    requires k < |cases|
    requires forall i :: 0 <= i < k ==> ArmTest(subject, cases[i]).Some?
    requires k == |cases| - 1 || ArmTest(subject, cases[k]).None?
    ensures DecisionTree(subject, cases) == Ok(Chain(Branches(subject, cases[..k]), ArmThen(subject, cases[k])))
  {
    TreeFromShape(subject, cases, k);
  }

  lemma {:induction false} TreeFromShape(subject: Ast.Node, cases: seq<Ast.Arm>, k: nat)
    requires k < |cases|
    requires forall i :: 0 <= i < k ==> ArmTest(subject, cases[i]).Some?
    requires k == |cases| - 1 || ArmTest(subject, cases[k]).None?
    ensures TreeFrom(subject, cases) == Chain(Branches(subject, cases[..k]), ArmThen(subject, cases[k]))
    decreases k
  {
    if k > 0 {
      var rest := cases[1..];
      assert forall i :: 0 <= i < k - 1 ==> rest[i] == cases[i + 1];
      assert rest[k - 1] == cases[k];
      TreeFromShape(subject, rest, k - 1);
      TreeFromShapeStep(subject, cases, k);
    }
  }

  /** The inductive step of `TreeFromShape`: the first arm's branch goes in
      front of the chain built from the other arms. */
  lemma TreeFromShapeStep(subject: Ast.Node, cases: seq<Ast.Arm>, k: nat)
    requires 0 < k < |cases|
    requires forall i :: 0 <= i < k ==> ArmTest(subject, cases[i]).Some?
    requires TreeFrom(subject, cases[1..]) == Chain(Branches(subject, cases[1..][..k - 1]), ArmThen(subject, cases[k]))
    ensures TreeFrom(subject, cases) == Chain(Branches(subject, cases[..k]), ArmThen(subject, cases[k]))
  {
    var prefix := cases[..k];
    assert prefix[0] == cases[0] && prefix[1..] == cases[1..][..k - 1];
    var first := (ArmTest(subject, cases[0]).value, ArmThen(subject, cases[0]));
    var last := ArmThen(subject, cases[k]);
    calc {
      TreeFrom(subject, cases);
      { TreeFromCons(subject, cases); }
      Chain([first], TreeFrom(subject, cases[1..]));
      Chain([first], Chain(Branches(subject, prefix[1..]), last));
      { BranchesCons(subject, prefix, last); }
      Chain(Branches(subject, prefix), last);
    }
  }

  lemma TreeFromCons(subject: Ast.Node, cases: seq<Ast.Arm>)
    requires |cases| > 1 && ArmTest(subject, cases[0]).Some?
    ensures TreeFrom(subject, cases)
            == Chain([(ArmTest(subject, cases[0]).value, ArmThen(subject, cases[0]))], TreeFrom(subject, cases[1..]))
  {
  }

  lemma BranchesCons(subject: Ast.Node, arms: seq<Ast.Arm>, last: Ast.Node)
    requires arms != [] && forall i :: 0 <= i < |arms| ==> ArmTest(subject, arms[i]).Some?
    ensures Chain(Branches(subject, arms), last)
            == Chain([(ArmTest(subject, arms[0]).value, ArmThen(subject, arms[0]))], Chain(Branches(subject, arms[1..]), last))
  {
    var branches := Branches(subject, arms);
    assert branches[1..] == Branches(subject, arms[1..]);
  }

  /** The arms after the first arm that always matches are dropped. */
  lemma {:induction false} ArmsAfterCatchAllDropped(subject: Ast.Node, cases: seq<Ast.Arm>, k: nat)
    requires k < |cases| && ArmTest(subject, cases[k]).None?
    ensures DecisionTree(subject, cases) == DecisionTree(subject, cases[..k + 1])
    decreases k
  {
    if k > 0 {
      var rest := cases[1..];
      ArmsAfterCatchAllDropped(subject, rest, k - 1);
      assert cases[..k + 1][1..] == rest[..k];
      assert cases[..k + 1][0] == cases[0];
    }
  }

  /** The expressions a lowered node contributes where the source splices
      `node.body` for a block and keeps any other node whole. */
  function Splice(n: L.Node): seq<L.Node> {
    if n.Block? then n.exprs else [n]
  }

  /** `result.metadata["merge_parent"] = True`. */
  function MarkMerge(n: L.Node): L.Node {
    if n.Block? then n.(mergeParent := true) else n
  }

  /** `decompose_irrefutable`: the definitions that bind a pattern that
      cannot fail to `value`. A unit or `_` gives the value itself, a name a
      definition, a pair its halves' steps in a block marked for merging
      into the enclosing block, and a list pattern of a rest name alone a
      definition of that name; any other pattern is refused. */
  function Decompose(p: Ast.Pattern, value: L.Node, position: PatternPosition): (r: Result<L.Node, CompilerError>)
    ensures r.Err? ==> r.error == RefutablePattern(position)
    ensures p.PairPattern? && r.Ok? ==> r.value.Block? && r.value.mergeParent
    ensures r.Ok? && r.value.Block? && !value.Block? ==> |r.value.exprs| >= 2
  {
    match p
    case UnitPattern => Ok(value)
    case FreeName(v) => if v == "_" then Ok(value) else Ok(L.Define(v, value))
    case PairPattern(first, second) =>
      var firstSteps :- Decompose(first, L.Apply(L.Name("first"), value), position);
      var secondSteps :- Decompose(second, L.Apply(L.Name("second"), value), position);
      Ok(MarkMerge(L.BlockNew(Splice(firstSteps) + Splice(secondSteps))))
    case ListPattern(initials, rest) =>
      if initials == [] && rest.Some? then Ok(L.Define(rest.value, value)) else Err(RefutablePattern(position))
    case _ => Err(RefutablePattern(position))
  }

  /** Decomposition refuses exactly the patterns the exhaustiveness check
      reports as able to fail. */
  lemma {:induction false} DecomposeRefusesRefutable(p: Ast.Pattern, value: L.Node, position: PatternPosition)
    ensures Decompose(p, value, position).Err? <==> Exhaustiveness.NonExhaustive(p).Some?
  {
    if p.PairPattern? {
      DecomposeRefusesRefutable(p.first, L.Apply(L.Name("first"), value), position);
      DecomposeRefusesRefutable(p.second, L.Apply(L.Name("second"), value), position);
    }
  }

  /** The names a pattern binds, left to right, leaving out `_`. */
  function BoundNames(p: Ast.Pattern): seq<string> {
    match p
    case FreeName(v) => if v == "_" then [] else [v]
    case PairPattern(first, second) => BoundNames(first) + BoundNames(second)
    case ListPattern(initials, rest) => if initials == [] && rest.Some? then [rest.value] else []
    case _ => []
  }

  /** The names the definitions among `steps` bind, in order. */
  function Targets(steps: seq<L.Node>): seq<string> {
    if steps == [] then []
    else (if steps[0].Define? then [steps[0].target] else []) + Targets(steps[1..])
  }

  lemma {:induction false} TargetsConcat(a: seq<L.Node>, b: seq<L.Node>)
    ensures Targets(a + b) == Targets(a) + Targets(b)
    decreases |a|
  {
    if a != [] {
      assert (a + b)[0] == a[0];
      assert (a + b)[1..] == a[1..] + b;
      TargetsConcat(a[1..], b);
    } else {
      assert a + b == b;
    }
  }

  /** Decomposing a pattern against a value that is neither a block nor a
      definition defines each name the pattern binds exactly once, left to
      right. */
  lemma {:induction false} DecomposeBindsPatternNames(p: Ast.Pattern, value: L.Node, position: PatternPosition)
    requires !value.Block? && !value.Define?
    requires Decompose(p, value, position).Ok?
    ensures Targets(Splice(Decompose(p, value, position).value)) == BoundNames(p)
  {
    if p.PairPattern? {
      var firstValue := L.Apply(L.Name("first"), value);
      var secondValue := L.Apply(L.Name("second"), value);
      DecomposeBindsPatternNames(p.first, firstValue, position);
      DecomposeBindsPatternNames(p.second, secondValue, position);
      var firstSteps := Decompose(p.first, firstValue, position).value;
      var secondSteps := Decompose(p.second, secondValue, position).value;
      TargetsConcat(Splice(firstSteps), Splice(secondSteps));
    }
  }

  /** How deeply matches nest in a surface tree. Lowering a match replaces
      it by a decision tree with one level fewer, which is what makes the
      lowering terminate. */
  function MatchHeight(n: Ast.Node): nat
    decreases Ast.Depth(n), 0
  {
    match n
    case Apply(func, arg) => Ast.Max(MatchHeight(func), MatchHeight(arg))
    case Block(exprs) => MatchHeightAll(exprs)
    case Cond(pred, cons, elseBranch) => Ast.Max(MatchHeight(pred), Ast.Max(MatchHeight(cons), MatchHeight(elseBranch)))
    case Define(_, value) => MatchHeight(value)
    case Function(_, body) => MatchHeight(body)
    case List(elements) => MatchHeightAll(elements)
    case Match(subject, cases) => 1 + Ast.Max(MatchHeight(subject), MatchHeightArms(cases))
    case Pair(first, second) => Ast.Max(MatchHeight(first), MatchHeight(second))
    case _ => 0
  }

  function MatchHeightAll(nodes: seq<Ast.Node>): (h: nat)
    ensures nodes != [] ==> MatchHeight(nodes[0]) <= h && MatchHeightAll(nodes[1..]) <= h
    decreases Ast.DepthAll(nodes), 1, |nodes|
  {
    if nodes == [] then 0 else Ast.Max(MatchHeight(nodes[0]), MatchHeightAll(nodes[1..]))
  }

  function MatchHeightArms(arms: seq<Ast.Arm>): (h: nat)
    ensures arms != [] ==> MatchHeight(arms[0].body) <= h && MatchHeightArms(arms[1..]) <= h
    decreases Ast.DepthArms(arms), 1, |arms|
  {
    if arms == [] then 0
    else
      assert Ast.DepthArm(arms[0]) == Ast.Depth(arms[0].body);
      Ast.Max(MatchHeight(arms[0].body), MatchHeightArms(arms[1..]))
  }

  predicate AllBelow(nodes: seq<Ast.Node>, h: nat) {
    forall i :: 0 <= i < |nodes| ==> MatchHeight(nodes[i]) <= h
  }

  predicate PredsBelow(preds: seq<Pred>, h: nat) {
    forall i :: 0 <= i < |preds| ==> MatchHeight(PredNode(preds[i])) <= h
  }

  lemma {:induction false} AllBelowHeight(nodes: seq<Ast.Node>, h: nat)
    requires AllBelow(nodes, h)
    ensures MatchHeightAll(nodes) <= h
    decreases |nodes|
  {
    if nodes != [] {
      AllBelowHeight(nodes[1..], h);
    }
  }

  lemma {:induction false} HeightAllBelow(nodes: seq<Ast.Node>)
    ensures AllBelow(nodes, MatchHeightAll(nodes))
    decreases |nodes|
  {
    if nodes != [] {
      HeightAllBelow(nodes[1..]);
      forall i | 0 < i < |nodes|
        ensures MatchHeight(nodes[i]) <= MatchHeightAll(nodes)
      {
        assert nodes[i] == nodes[1..][i - 1];
      }
    }
  }

  lemma CallHeight(name: string, subject: Ast.Node)
    ensures MatchHeight(Call(name, subject)) == MatchHeight(subject)
  {
  }

  lemma ElementHeight(subject: Ast.Node, index: nat)
    ensures MatchHeight(Element(subject, index)) == MatchHeight(subject)
    ensures MatchHeight(Call("drop", Ast.Pair(subject, IntScalar(index)))) == MatchHeight(subject)
  {
    assert MatchHeight(Ast.Pair(subject, IntScalar(index))) == MatchHeight(subject);
  }

  lemma AndHeight(left: Pred, right: Pred)
    ensures MatchHeight(PredNode(Both(left, right))) == Ast.Max(MatchHeight(PredNode(left)), MatchHeight(PredNode(right)))
  {
    assert MatchHeight(Ast.Apply(Ast.Name("and"), PredNode(left))) == MatchHeight(PredNode(left));
  }

  lemma {:induction false} FoldAndBelow(acc: Pred, preds: seq<Pred>, h: nat)
    requires MatchHeight(PredNode(acc)) <= h && PredsBelow(preds, h)
    ensures MatchHeight(PredNode(FoldAnd(acc, preds))) <= h
    decreases |preds|
  {
    if preds != [] {
      AndHeight(acc, preds[0]);
      assert PredsBelow(preds[1..], h) by {
        assert forall i :: 0 <= i < |preds[1..]| ==> preds[1..][i] == preds[i + 1];
      }
      FoldAndBelow(Both(acc, preds[0]), preds[1..], h);
    }
  }

  lemma BinaryHeight(op: string, left: Ast.Node, right: Ast.Node)
    ensures MatchHeight(Binary(op, left, right)) == Ast.Max(MatchHeight(left), MatchHeight(right))
  {
    assert MatchHeight(Ast.Apply(Ast.Name(op), left)) == MatchHeight(left);
  }

  lemma {:induction false} ConcatBelow(a: seq<Ast.Node>, b: seq<Ast.Node>, h: nat)
    requires AllBelow(a, h) && AllBelow(b, h)
    ensures AllBelow(a + b, h)
  {
    assert forall i :: |a| <= i < |a + b| ==> (a + b)[i] == b[i - |a|];
  }

  /** The tests and definitions of a pattern nest no match beyond those in
      the subject. */
  lemma {:induction false} BranchBelow(subject: Ast.Node, p: Ast.Pattern, h: nat)
    requires MatchHeight(subject) <= h
    ensures MatchHeight(PredNode(BuildBranch(subject, p).0)) <= h
    ensures AllBelow(BuildBranch(subject, p).1, h)
    decreases p, 1
  {
    match p
    case PairPattern(_, _) => PairBranchBelow(subject, p, h);
    case ListPattern(initials, rest) =>
      if initials == [] && rest.None? {
        EmptyListBranchBelow(subject, p, h);
      } else {
        ListBranchBelow(subject, p, h);
      }
    case ScalarPattern(value) => ScalarBranchBelow(subject, value, h);
    case _ => NameBranchBelow(subject, p, h);
  }

  lemma NameBranchBelow(subject: Ast.Node, p: Ast.Pattern, h: nat)
    requires p.PinnedName? || p.FreeName? || p.UnitPattern?
    requires MatchHeight(subject) <= h
    ensures MatchHeight(PredNode(BuildBranch(subject, p).0)) <= h
    ensures AllBelow(BuildBranch(subject, p).1, h)
  {
    if p.PinnedName? {
      BinaryHeight("=", Ast.Name(p.name), subject);
    }
  }

  lemma EmptyListBranchBelow(subject: Ast.Node, p: Ast.Pattern, h: nat)
    requires p == Ast.ListPattern([], None) && MatchHeight(subject) <= h
    ensures MatchHeight(PredNode(BuildBranch(subject, p).0)) <= h
    ensures BuildBranch(subject, p).1 == []
  {
    CallHeight("length", subject);
    BinaryHeight("=", Call("length", subject), IntScalar(0));
  }

  lemma ScalarBranchBelow(subject: Ast.Node, value: Ast.Value, h: nat)
    requires MatchHeight(subject) <= h
    ensures MatchHeight(PredNode(BuildBranch(subject, Ast.ScalarPattern(value)).0)) <= h
    ensures BuildBranch(subject, Ast.ScalarPattern(value)).1 == []
  {
    CallHeight("not", subject);
    BinaryHeight("=", Ast.Scalar(value), subject);
  }

  lemma {:induction false} PairBranchBelow(subject: Ast.Node, p: Ast.Pattern, h: nat)
    requires p.PairPattern? && MatchHeight(subject) <= h
    ensures MatchHeight(PredNode(BuildBranch(subject, p).0)) <= h
    ensures AllBelow(BuildBranch(subject, p).1, h)
    decreases p, 0
  {
    CallHeight("first", subject);
    CallHeight("second", subject);
    BranchBelow(Call("first", subject), p.first, h);
    BranchBelow(Call("second", subject), p.second, h);
    var (firstPred, firstDefs) := BuildBranch(Call("first", subject), p.first);
    var (secondPred, secondDefs) := BuildBranch(Call("second", subject), p.second);
    assert BuildBranch(subject, p) == (Both(firstPred, secondPred), firstDefs + secondDefs);
    AndHeight(firstPred, secondPred);
    ConcatBelow(firstDefs, secondDefs, h);
  }

  lemma {:induction false} ListBranchBelow(subject: Ast.Node, p: Ast.Pattern, h: nat)
    requires p.ListPattern? && (p.initials != [] || p.rest.Some?)
    requires MatchHeight(subject) <= h
    ensures MatchHeight(PredNode(BuildBranch(subject, p).0)) <= h
    ensures AllBelow(BuildBranch(subject, p).1, h)
    decreases p, 0
  {
    var head := if p.initials != [] then [Test(LengthAtLeast(|p.initials|, subject))] else [];
    ElementsBelow(subject, p, 0, h);
    var (preds, defs) := ElementBranches(subject, p, 0);
    ListPartsBelow(subject, p, head, preds, defs, h);
  }

  /** The pieces a list pattern's branch is built from stay within `h`. */
  lemma ListPartsBelow(subject: Ast.Node, p: Ast.Pattern, head: seq<Pred>, preds: seq<Pred>, defs: seq<Ast.Node>, h: nat)
    requires p.ListPattern? && MatchHeight(subject) <= h
    requires head == if p.initials != [] then [Test(LengthAtLeast(|p.initials|, subject))] else []
    requires PredsBelow(preds, h) && AllBelow(defs, h)
    ensures MatchHeight(PredNode(FoldAnd(SeedTrue, head + preds))) <= h
    ensures AllBelow(defs + RestDefinition(subject, p), h)
  {
    CallHeight("length", subject);
    BinaryHeight(">=", Call("length", subject), IntScalar(|p.initials|));
    assert PredsBelow(head + preds, h) by {
      assert forall i :: |head| <= i < |head + preds| ==> (head + preds)[i] == preds[i - |head|];
    }
    FoldAndBelow(SeedTrue, head + preds, h);
    ElementHeight(subject, |p.initials|);
    ConcatBelow(defs, RestDefinition(subject, p), h);
  }

  lemma {:induction false} ElementsBelow(subject: Ast.Node, p: Ast.Pattern, from: nat, h: nat)
    requires p.ListPattern? && from <= |p.initials|
    requires MatchHeight(subject) <= h
    ensures PredsBelow(ElementBranches(subject, p, from).0, h)
    ensures AllBelow(ElementBranches(subject, p, from).1, h)
    decreases p, 0, |p.initials| - from
  {
    if from < |p.initials| {
      ElementHeight(subject, from);
      BranchBelow(Element(subject, from), p.initials[from], h);
      ElementsBelow(subject, p, from + 1, h);
      var (pred, defs) := BuildBranch(Element(subject, from), p.initials[from]);
      var (preds, moreDefs) := ElementBranches(subject, p, from + 1);
      assert forall i :: 0 < i < |[pred] + preds| ==> ([pred] + preds)[i] == preds[i - 1];
      ConcatBelow(defs, moreDefs, h);
    }
  }

  /** Reduction keeps a test within the nesting of the original. */
  lemma {:induction false} ReduceNodeBelow(n: Ast.Node)
    ensures ReduceNode(n).Some? ==> MatchHeight(ReduceNode(n).value) <= MatchHeight(n)
  {
    if !IsTrue(n) && n.Apply? && n.func.Apply? {
      ReduceNodeBelow(n.func.arg);
      ReduceNodeBelow(n.arg);
    }
  }

  lemma {:induction false} ReducePredBelow(p: Pred)
    ensures ReducePred(p).Some? ==> MatchHeight(PredNode(ReducePred(p).value)) <= MatchHeight(PredNode(p))
  {
    match p
    case Test(n) => ReduceNodeBelow(n);
    case SeedTrue =>
    case Both(l, r) =>
      ReducePredBelow(l);
      ReducePredBelow(r);
  }

  lemma BlockNewBelow(body: seq<Ast.Node>, h: nat)
    requires AllBelow(body, h)
    ensures MatchHeight(BaseBlockNew(body)) <= h
  {
    if |body| >= 2 {
      AllBelowHeight(body, h);
    }
  }

  lemma ArmThenBelow(subject: Ast.Node, arm: Ast.Arm, h: nat)
    requires MatchHeight(subject) <= h && MatchHeight(arm.body) <= h
    ensures MatchHeight(ArmThen(subject, arm)) <= h
    ensures ArmTest(subject, arm).Some? ==> MatchHeight(PredNode(ArmTest(subject, arm).value)) <= h
  {
    var (pred, defs) := BuildBranch(subject, arm.pattern);
    BranchBelow(subject, arm.pattern, h);
    ReducePredBelow(pred);
    var body := ConsExprs(arm.body);
    if arm.body.Block? {
      HeightAllBelow(arm.body.exprs);
    }
    assert AllBelow(body, h);
    ConcatBelow(defs, body, h);
    BlockNewBelow(defs + body, h);
  }

  lemma {:induction false} TreeFromBelow(subject: Ast.Node, cases: seq<Ast.Arm>, h: nat)
    requires cases != [] && MatchHeight(subject) <= h && MatchHeightArms(cases) <= h
    ensures MatchHeight(TreeFrom(subject, cases)) <= h
    decreases |cases|
  {
    ArmThenBelow(subject, cases[0], h);
    if |cases| > 1 {
      TreeFromBelow(subject, cases[1..], h);
    }
  }

  /** Lowering a match to its decision tree removes one level of nested
      matches. */
  lemma DecisionTreeLower(subject: Ast.Node, cases: seq<Ast.Arm>)
    requires DecisionTree(subject, cases).Ok?
    ensures MatchHeight(DecisionTree(subject, cases).value) < MatchHeight(Ast.Match(subject, cases))
  {
    var h := Ast.Max(MatchHeight(subject), MatchHeightArms(cases));
    assert MatchHeight(Ast.Match(subject, cases)) == 1 + h;
    TreeFromBelow(subject, cases, h);
    assert DecisionTree(subject, cases).value == TreeFrom(subject, cases);
  }

  /** `visit_apply` once both parts are lowered: `~ arg` becomes a negation
      and `op left right` for a native operation's symbol becomes that
      operation; anything else stays an application. */
  function LowerApply(func: L.Node, arg: L.Node): (r: L.Node)
    ensures L.EqualsText(func, "~") ==> r == L.NativeOp(L.Neg, arg, None)
    ensures !L.EqualsText(func, "~") && func.Apply? && func.func.Name? && L.OpOf(func.func.name).Some? ==>
      r.NativeOp? && L.Symbol(r.operation) == func.func.name && r.left == func.arg && r.right == Some(arg)
    ensures r.NativeOp? ==> (r.right.None? <==> L.EqualsText(func, "~"))
    ensures !r.NativeOp? ==> r == L.Apply(func, arg)
  {
    if L.EqualsText(func, "~") then L.NativeOp(L.Neg, arg, None)
    else if func.Apply? && func.func.Name? && L.OpOf(func.func.name).Some? then
      L.NativeOp(L.OpOf(func.func.name).value, func.arg, Some(arg))
    else L.Apply(func, arg)
  }

  /** The expressions a lowered block child adds to its block: a block
      marked for merging adds its own expressions. */
  function Merged(n: L.Node): seq<L.Node> {
    if Unmarked(n) then [n] else n.exprs
  }

  /** A node that is not a block marked for merging. */
  predicate Unmarked(n: L.Node) {
    !(n.Block? && n.mergeParent)
  }

  /** A lowered node as lowering leaves it: a block holds no block marked
      for merging, and a block marked for merging holds no block at all, so
      splicing it once into its parent leaves nothing more to splice. */
  predicate Settled(n: L.Node) {
    n.Block? ==>
      (forall e :: e in n.exprs ==> Unmarked(e)) &&
      (n.mergeParent ==> forall e :: e in n.exprs ==> !e.Block?)
  }

  /** The lowered children of a block, each marked child replaced by its
      expressions, in order. */
  function Flatten(children: seq<L.Node>): seq<L.Node> {
    if children == [] then [] else Merged(children[0]) + Flatten(children[1..])
  }

  /** `Simplifier`: a surface tree lowered, with the count of parameters
      renamed so far threaded through (`_param_index`). */
  function Simplify(n: Ast.Node, index: nat): (r: Result<(L.Node, nat), CompilerError>)
    ensures r.Ok? ==> index <= r.value.1
    decreases MatchHeight(n), Ast.Depth(n), 2
  {
    match n
    case Apply(_, _) => SimplifyApply(n, index)
    case Block(exprs) =>
      var (body, index1) :- BlockBody(exprs, index);
      Ok((L.BlockNew(body), index1))
    case Cond(_, _, _) => SimplifyCond(n, index)
    case Define(_, _) => SimplifyDefine(n, index)
    case Function(_, _) => SimplifyFunction(n, index)
    case List(elements) =>
      var (es, index1) :- SimplifyAll(elements, index);
      Ok((L.List(es), index1))
    case Match(subject, cases) =>
      var tree :- DecisionTree(subject, cases);
      DecisionTreeLower(subject, cases);
      Simplify(tree, index)
    case Pair(_, _) => SimplifyPair(n, index)
    case Name(v) => Ok((L.Name(v), index))
    case Scalar(v) => Ok((L.Scalar(v), index))
    case Unit => Ok((L.Unit, index))
  }

  /** A call: the function, then the argument; an operator applied to two
      arguments becomes a binary node. */
  function SimplifyApply(n: Ast.Node, index: nat): (r: Result<(L.Node, nat), CompilerError>)
    requires n.Apply?
    ensures r.Ok? ==> index <= r.value.1
    decreases MatchHeight(n), Ast.Depth(n), 1
  {
    var (f, index1) :- Simplify(n.func, index);
    var (a, index2) :- Simplify(n.arg, index1);
    Ok((LowerApply(f, a), index2))
  }

  function SimplifyCond(n: Ast.Node, index: nat): (r: Result<(L.Node, nat), CompilerError>)
    requires n.Cond?
    ensures r.Ok? ==> index <= r.value.1
    decreases MatchHeight(n), Ast.Depth(n), 1
  {
    var (p, index1) :- Simplify(n.pred, index);
    var (c, index2) :- Simplify(n.cons, index1);
    var (e, index3) :- Simplify(n.elseBranch, index2);
    Ok((L.Cond(p, c, e), index3))
  }

  /** A definition: its value lowered, then its target decomposed. */
  function SimplifyDefine(n: Ast.Node, index: nat): (r: Result<(L.Node, nat), CompilerError>)
    requires n.Define?
    ensures r.Ok? ==> index <= r.value.1
    decreases MatchHeight(n), Ast.Depth(n), 1
  {
    var (v, index1) :- Simplify(n.value, index);
    var steps :- Decompose(n.target, v, Target);
    Ok((steps, index1))
  }

  /** A function: a plain parameter is kept; any other pattern becomes the
      parameter `$FuncParam_<index + 1>`, decomposed at the head of the body. */
  function SimplifyFunction(n: Ast.Node, index: nat): (r: Result<(L.Node, nat), CompilerError>)
    requires n.Function?
    ensures r.Ok? ==> index <= r.value.1
    decreases MatchHeight(n), Ast.Depth(n), 1
  {
    if n.param.FreeName? then
      var (b, index1) :- Simplify(n.body, index);
      Ok((L.Function(n.param.name, b), index1))
    else
      var name := ParamName(index + 1);
      var head :- Decompose(n.param, L.Name(name), Parameter);
      var (b, index1) :- Simplify(n.body, index + 1);
      Ok((L.Function(name, L.BlockNew(Splice(head) + Splice(b))), index1))
  }

  function SimplifyPair(n: Ast.Node, index: nat): (r: Result<(L.Node, nat), CompilerError>)
    requires n.Pair?
    ensures r.Ok? ==> index <= r.value.1
    decreases MatchHeight(n), Ast.Depth(n), 1
  {
    var (f, index1) :- Simplify(n.first, index);
    var (s, index2) :- Simplify(n.second, index1);
    Ok((L.Pair(f, s), index2))
  }

  /** `$FuncParam_<index>`, the name given to a parameter that is a
      pattern. */
  function ParamName(index: nat): string {
    "$FuncParam_" + NatToString(index)
  }

  /** Each node lowered in turn, left to right. */
  function SimplifyAll(nodes: seq<Ast.Node>, index: nat): (r: Result<(seq<L.Node>, nat), CompilerError>)
    ensures r.Ok? ==> index <= r.value.1 && |r.value.0| == |nodes|
    decreases MatchHeightAll(nodes), Ast.DepthAll(nodes), 3, |nodes|
  {
    if nodes == [] then Ok(([], index))
    else
      var (first, index1) :- Simplify(nodes[0], index);
      var (rest, index2) :- SimplifyAll(nodes[1..], index1);
      Ok(([first] + rest, index2))
  }

  /** The expressions of a lowered block: each child lowered in turn, with
      the steps of a decomposed pattern spliced in. */
  function BlockBody(exprs: seq<Ast.Node>, index: nat): (r: Result<(seq<L.Node>, nat), CompilerError>)
    ensures r.Ok? ==> index <= r.value.1
    decreases MatchHeightAll(exprs), Ast.DepthAll(exprs), 3, |exprs|
  {
    if exprs == [] then Ok(([], index))
    else
      var (first, index1) :- Simplify(exprs[0], index);
      var (rest, index2) :- BlockBody(exprs[1..], index1);
      Ok((Merged(first) + rest, index2))
  }

  /** Lowering a block's children one at a time and splicing as it goes is
      the same as lowering them all, left to right, and then replacing each
      marked child by its expressions; it fails exactly when one of them
      fails to lower, with that error. */
  lemma {:induction false} BlockBodyIsSplicedLowering(exprs: seq<Ast.Node>, index: nat)
    ensures BlockBody(exprs, index).Ok? <==> SimplifyAll(exprs, index).Ok?
    ensures BlockBody(exprs, index).Ok? ==>
      BlockBody(exprs, index).value == (Flatten(SimplifyAll(exprs, index).value.0), SimplifyAll(exprs, index).value.1)
    ensures BlockBody(exprs, index).Err? ==> BlockBody(exprs, index).error == SimplifyAll(exprs, index).error
    decreases |exprs|
  {
    if exprs != [] && Simplify(exprs[0], index).Ok? {
      var (first, index1) := Simplify(exprs[0], index).value;
      BlockBodyIsSplicedLowering(exprs[1..], index1);
      if SimplifyAll(exprs[1..], index1).Ok? {
        var rest := SimplifyAll(exprs[1..], index1).value.0;
        assert ([first] + rest)[0] == first && ([first] + rest)[1..] == rest;
      }
    }
  }

  /** Decomposing a pattern against a value that is not a block gives steps
      none of which is a block. */
  lemma {:induction false} DecomposeSplicesNoBlock(p: Ast.Pattern, value: L.Node, position: PatternPosition)
    requires !value.Block? && Decompose(p, value, position).Ok?
    ensures forall e :: e in Splice(Decompose(p, value, position).value) ==> !e.Block?
  {
    if p.PairPattern? {
      DecomposeSplicesNoBlock(p.first, L.Apply(L.Name("first"), value), position);
      DecomposeSplicesNoBlock(p.second, L.Apply(L.Name("second"), value), position);
    }
  }

  /** Every node lowering yields is settled. */
  lemma {:induction false} LoweredSettled(n: Ast.Node, index: nat)
    requires Simplify(n, index).Ok?
    ensures Settled(Simplify(n, index).value.0)
    decreases MatchHeight(n), Ast.Depth(n), 2
  {
    match n
    case Block(exprs) =>
      BlockBodyUnmarked(exprs, index);
    case Define(target, value) =>
      var (v, _) := Simplify(value, index).value;
      if target.PairPattern? {
        var first := L.Apply(L.Name("first"), v);
        var second := L.Apply(L.Name("second"), v);
        DecomposeSplicesNoBlock(target.first, first, Target);
        DecomposeSplicesNoBlock(target.second, second, Target);
      } else {
        LoweredSettled(value, index);
      }
    case Match(subject, cases) =>
      var tree := DecisionTree(subject, cases).value;
      DecisionTreeLower(subject, cases);
      LoweredSettled(tree, index);
    case _ =>
  }

  /** No expression of a lowered block body is a block marked for merging,
      and each is settled. */
  lemma {:induction false} BlockBodyUnmarked(exprs: seq<Ast.Node>, index: nat)
    requires BlockBody(exprs, index).Ok?
    ensures forall e :: e in BlockBody(exprs, index).value.0 ==> Unmarked(e) && Settled(e)
    decreases MatchHeightAll(exprs), Ast.DepthAll(exprs), 3, |exprs|
  {
    if exprs != [] {
      var (first, index1) := Simplify(exprs[0], index).value;
      LoweredSettled(exprs[0], index);
      BlockBodyUnmarked(exprs[1..], index1);
    }
  }

  /** A lowered prefix put in front of the rest of a block's expressions. */
  function Prepend(done: seq<L.Node>, rest: Result<(seq<L.Node>, nat), CompilerError>): Result<(seq<L.Node>, nat), CompilerError> {
    match rest
    case Ok((exprs, index)) => Ok((done + exprs, index))
    case Err(e) => Err(e)
  }

  lemma PrependNothing(rest: Result<(seq<L.Node>, nat), CompilerError>)
    ensures Prepend([], rest) == rest
  {
    if rest.Ok? {
      assert [] + rest.value.0 == rest.value.0;
    }
  }

  lemma PrependStep(exprs: seq<Ast.Node>, i: nat, index: nat, done: seq<L.Node>, first: L.Node, index1: nat)
    requires i < |exprs| && Simplify(exprs[i], index) == Ok((first, index1))
    ensures Prepend(done, BlockBody(exprs[i..], index)) == Prepend(done + Merged(first), BlockBody(exprs[i + 1..], index1))
  {
    assert exprs[i..][0] == exprs[i] && exprs[i..][1..] == exprs[i + 1..];
    match BlockBody(exprs[i + 1..], index1)
    case Ok((rest, _)) => assert done + (Merged(first) + rest) == done + Merged(first) + rest;
    case Err(_) =>
  }

  /** `visit_block`: the loop that lowers each child and splices in the
      children of those marked for merging, then `Block.new`. */
  method VisitBlock(exprs: seq<Ast.Node>, index: nat) returns (r: Result<(L.Node, nat), CompilerError>)
    ensures r == Simplify(Ast.Block(exprs), index)
    ensures r.Ok? ==> Unmarked(r.value.0) && Settled(r.value.0)
  {
    var newExprs: seq<L.Node> := [];
    var current := index;
    var i := 0;
    assert exprs[0..] == exprs;
    PrependNothing(BlockBody(exprs, index));
    while i < |exprs|
      invariant 0 <= i <= |exprs|
      invariant BlockBody(exprs, index) == Prepend(newExprs, BlockBody(exprs[i..], current))
    {
      var lowered := Simplify(exprs[i], current);
      if lowered.Err? {
        assert exprs[i..][0] == exprs[i];
        return Err(lowered.error);
      }
      var (expr, next) := lowered.value;
      PrependStep(exprs, i, current, newExprs, expr, next);
      if expr.Block? && expr.mergeParent {
        newExprs := newExprs + expr.exprs;
      } else {
        newExprs := newExprs + [expr];
      }
      current := next;
      i := i + 1;
    }
    assert newExprs + [] == newExprs;
    assert BlockBody(exprs, index) == Ok((newExprs, current));
    BlockBodyUnmarked(exprs, index);
    return Ok((L.BlockNew(newExprs), current));
  }

  /** `~ arg` lowers to the native negation of the lowered argument. */
  lemma SimplifyNegate(arg: Ast.Node, index: nat)
    ensures var r := Simplify(Ast.Apply(Ast.Name("~"), arg), index);
            match Simplify(arg, index)
            case Ok((a, index1)) => r == Ok((L.NativeOp(L.Neg, a, None), index1))
            case Err(e) => r == Err(e)
  {
    var n := Ast.Apply(Ast.Name("~"), arg);
    assert Simplify(n, index) == SimplifyApply(n, index);
    assert Simplify(Ast.Name("~"), index) == Ok((L.Name("~"), index));
  }

  /** `op left right`, for the symbol of any native operation but the
      negation, lowers to that operation on the lowered operands. */
  lemma SimplifyBinary(op: L.Op, left: Ast.Node, right: Ast.Node, index: nat)
    requires op != L.Neg
    ensures var r := Simplify(Binary(L.Symbol(op), left, right), index);
            match Simplify(left, index)
            case Err(e) => r == Err(e)
            case Ok((l, index1)) =>
              match Simplify(right, index1)
              case Err(e) => r == Err(e)
              case Ok((rr, index2)) => r == Ok((L.NativeOp(op, l, Some(rr)), index2))
  {
    L.OpOfSymbol(op);
    assert L.Symbol(op) != "~";
    var inner := Ast.Apply(Ast.Name(L.Symbol(op)), left);
    var n := Ast.Apply(inner, right);
    assert Simplify(n, index) == SimplifyApply(n, index);
    assert Simplify(inner, index) == SimplifyApply(inner, index);
    assert Simplify(Ast.Name(L.Symbol(op)), index) == Ok((L.Name(L.Symbol(op)), index));
    if Simplify(left, index).Ok? {
      var (l, index1) := Simplify(left, index).value;
      assert Simplify(inner, index) == Ok((L.Apply(L.Name(L.Symbol(op)), l), index1));
    } else {
      assert Simplify(inner, index) == Err(Simplify(left, index).error);
    }
  }

  /** A definition lowered inside a block binds there exactly the names of
      its pattern, in order, when its value lowers to neither a block nor a
      definition; it fails exactly when the pattern can fail to match. */
  lemma DefineInBlock(target: Ast.Pattern, value: Ast.Node, index: nat)
    requires Simplify(value, index).Ok?
    requires !Simplify(value, index).value.0.Block? && !Simplify(value, index).value.0.Define?
    ensures Simplify(Ast.Define(target, value), index).Err? <==> Exhaustiveness.NonExhaustive(target).Some?
    ensures Simplify(Ast.Define(target, value), index).Ok? ==>
              Targets(Merged(Simplify(Ast.Define(target, value), index).value.0)) == BoundNames(target)
  {
    var v := Simplify(value, index).value.0;
    DecomposeRefusesRefutable(target, v, Target);
    if Decompose(target, v, Target).Ok? {
      var steps := Decompose(target, v, Target).value;
      DecomposeBindsPatternNames(target, v, Target);
      assert Merged(steps) == Splice(steps);
    }
  }

  /** Distinct counts name distinct parameters. */
  lemma ParamNameInjective(m: nat, n: nat)
    requires m != n
    ensures ParamName(m) != ParamName(n)
  {
    NatToStringInjective(m, n);
    var prefix := "$FuncParam_";
    assert ParamName(m)[|prefix|..] == NatToString(m);
    assert ParamName(n)[|prefix|..] == NatToString(n);
  }

  /** A function whose parameter is a pattern takes the next parameter
      name, which the counter then passes, and begins its body with the
      pattern's definitions. */
  lemma FunctionParamRenamed(param: Ast.Pattern, body: Ast.Node, index: nat)
    requires !param.FreeName?
    requires Simplify(Ast.Function(param, body), index).Ok?
    ensures var (f, index1) := Simplify(Ast.Function(param, body), index).value;
            f.Function? && f.param == ParamName(index + 1) && index + 1 <= index1
            && Decompose(param, L.Name(ParamName(index + 1)), Parameter).Ok?
  {
  }
}
