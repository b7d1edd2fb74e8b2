/** The refutable-pattern check of `hanno/visitors/exhaustiveness_checker.py`:
    definition targets, function parameters and the last arm of every match
    must be patterns that cannot fail. */
module Exhaustiveness {
  import opened Wrappers
  import opened Errors
  import opened Ast

  /** A RefutablePatternError: where the pattern stood, and the part of it
      that can fail. */
  datatype Refutation = Refutation(position: PatternPosition, offender: Pattern)

  /** The patterns that can fail by themselves, whatever their parts: any
      pattern but a free name, the unit pattern, a pair, and a list pattern
      made of a rest name alone. */
  predicate RefutableKind(p: Pattern) {
    !p.FreeName? && !p.UnitPattern? && !p.PairPattern?
    && !(p.ListPattern? && p.initials == [] && p.rest.Some?)
  }

  /** A pattern and, through pairs, its parts. */
  function Parts(p: Pattern): set<Pattern> {
    if p.PairPattern? then {p} + Parts(p.first) + Parts(p.second) else {p}
  }

  /** `non_exhaustive`: None when the pattern cannot fail, else the first
      part of it, searching pairs first part first, that can. */
  function NonExhaustive(p: Pattern): (r: Option<Pattern>)
    ensures r.Some? ==> r.value in Parts(p) && RefutableKind(r.value)
    ensures p.PairPattern? && NonExhaustive(p.first).Some? ==> r == NonExhaustive(p.first)
  {
    if p.FreeName? || p.UnitPattern? then None
    else if p.PairPattern? then
      var first := NonExhaustive(p.first);
      if first.Some? then first else NonExhaustive(p.second)
    else if p.ListPattern? && p.initials == [] && p.rest.Some? then None
    else Some(p)
  }

  /** A pattern passes exactly when none of its parts can fail by itself. */
  lemma {:induction false} NonExhaustiveComplete(p: Pattern)
    ensures NonExhaustive(p).None? <==> forall q :: q in Parts(p) ==> !RefutableKind(q)
  {
    if p.PairPattern? {
      NonExhaustiveComplete(p.first);
      NonExhaustiveComplete(p.second);
    }
  }

  /** The source's irrefutable and refutable samples. */
  lemma NonExhaustiveSamples(name: string, v: Value)
    ensures NonExhaustive(PairPattern(FreeName(name), UnitPattern)).None?
    ensures NonExhaustive(ListPattern([], Some(name))).None?
    ensures NonExhaustive(ListPattern([], None)) == Some(ListPattern([], None))
    ensures NonExhaustive(PairPattern(FreeName(name), ScalarPattern(v))) == Some(ScalarPattern(v))
    ensures NonExhaustive(PinnedName(name)) == Some(PinnedName(name))
  {
  }

  /** What checking a tree finds: the first refutation met in the order
      the checker walks the tree, or None. `subjectNever(s)` says whether
      the match subject `s` has the type Never. A conditional is checked
      through its predicate alone. */
  function Checked(node: Node, subjectNever: Node -> bool): (r: Option<Refutation>)
    ensures node.Name? || node.Scalar? || node.Unit? ==> r.None?
    ensures node.Define? && NonExhaustive(node.target).Some? ==>
              r == Some(Refutation(Target, NonExhaustive(node.target).value))
    ensures node.Function? && NonExhaustive(node.param).Some? ==>
              r == Some(Refutation(Parameter, NonExhaustive(node.param).value))
    ensures r.Some? && r.value.position == Case ==> r.value.offender.UnitPattern? || RefutableKind(r.value.offender)
    decreases Depth(node), 0
  {
    match node
    case Apply(func, arg) =>
      var inFunc := Checked(func, subjectNever);
      if inFunc.Some? then inFunc else Checked(arg, subjectNever)
    case Block(body) => FirstOf(body, subjectNever)
    case Cond(pred, _, _) => Checked(pred, subjectNever)
    case Define(target, value) =>
      var offender := NonExhaustive(target);
      if offender.Some? then Some(Refutation(Target, offender.value)) else Checked(value, subjectNever)
    case Function(param, body) =>
      var offender := NonExhaustive(param);
      if offender.Some? then Some(Refutation(Parameter, offender.value)) else Checked(body, subjectNever)
    case List(elements) => FirstOf(elements, subjectNever)
    case Match(subject, cases) =>
      var inSubject := Checked(subject, subjectNever);
      if inSubject.Some? then inSubject
      else if cases == [] && !subjectNever(subject) then Some(Refutation(Case, UnitPattern))
      else
        var inArms := FirstInArms(cases, subjectNever);
        if inArms.Some? then inArms
        else if cases != [] && NonExhaustive(cases[|cases| - 1].pattern).Some? then
          Some(Refutation(Case, NonExhaustive(cases[|cases| - 1].pattern).value))
        else None
    case Pair(first, second) =>
      var inFirst := Checked(first, subjectNever);
      if inFirst.Some? then inFirst else Checked(second, subjectNever)
    case _ => None
  }

  /** The first refutation among `nodes`, checked in order. */
  function FirstOf(nodes: seq<Node>, subjectNever: Node -> bool): (r: Option<Refutation>)
    ensures r.Some? && r.value.position == Case ==> r.value.offender.UnitPattern? || RefutableKind(r.value.offender)
    decreases DepthAll(nodes), 1, |nodes|
  {
    if nodes == [] then None
    else
      var first := Checked(nodes[0], subjectNever);
      if first.Some? then first else FirstOf(nodes[1..], subjectNever)
  }

  /** The nodes pass together exactly when each of them passes. */
  lemma {:induction false} FirstOfNone(nodes: seq<Node>, subjectNever: Node -> bool)
    ensures FirstOf(nodes, subjectNever).None? <==> forall i :: 0 <= i < |nodes| ==> Checked(nodes[i], subjectNever).None?
    decreases |nodes|
  {
    if nodes != [] {
      FirstOfNone(nodes[1..], subjectNever);
      assert forall i :: 1 <= i < |nodes| ==> nodes[i] == nodes[1..][i - 1];
    }
  }

  /** The first refutation among the bodies of `arms`, checked in order. */
  function FirstInArms(arms: seq<Arm>, subjectNever: Node -> bool): (r: Option<Refutation>)
    ensures r.Some? && r.value.position == Case ==> r.value.offender.UnitPattern? || RefutableKind(r.value.offender)
    decreases DepthArms(arms), 1, |arms|
  {
    if arms == [] then None
    else
      var first := Checked(arms[0].body, subjectNever);
      if first.Some? then first else FirstInArms(arms[1..], subjectNever)
  }

  /** The arms pass together exactly when each arm's body passes. */
  lemma {:induction false} FirstInArmsNone(arms: seq<Arm>, subjectNever: Node -> bool)
    ensures FirstInArms(arms, subjectNever).None? <==> forall i :: 0 <= i < |arms| ==> Checked(arms[i].body, subjectNever).None?
    decreases |arms|
  {
    if arms != [] {
      FirstInArmsNone(arms[1..], subjectNever);
      assert forall i :: 1 <= i < |arms| ==> arms[i] == arms[1..][i - 1];
    }
  }

  /** A match whose subject and arm bodies pass is judged by its last arm
      alone: refutable earlier arms are not reported, and a refutable last
      arm is, even after an arm that catches everything. */
  lemma MatchJudgedByLastArm(subject: Node, arms: seq<Arm>, last: Arm, subjectNever: Node -> bool)
    requires Checked(subject, subjectNever).None?
    requires FirstInArms(arms + [last], subjectNever).None?
    ensures Checked(Match(subject, arms + [last]), subjectNever)
              == if NonExhaustive(last.pattern).Some?
                 then Some(Refutation(Case, NonExhaustive(last.pattern).value)) else None
  {
    assert (arms + [last])[|arms + [last]| - 1] == last;
  }

  /** A match with no arms fails unless its subject has the type Never. */
  lemma EmptyMatch(subject: Node, subjectNever: Node -> bool)
    requires Checked(subject, subjectNever).None?
    ensures Checked(Match(subject, []), subjectNever)
              == if subjectNever(subject) then None else Some(Refutation(Case, UnitPattern))
  {
  }

  /** A conditional's branches are never checked: a function with a
      refutable parameter in a branch goes unreported. */
  lemma CondBranchesUnchecked(v: Value, subjectNever: Node -> bool)
    ensures Checked(Cond(Unit, Function(ScalarPattern(v), Unit), Unit), subjectNever).None?
    ensures Checked(Function(ScalarPattern(v), Unit), subjectNever) == Some(Refutation(Parameter, ScalarPattern(v)))
  {
  }

  /** `ExhaustivenessChecker.run`: walks the tree in the checker's order,
      stopping at the first refutation. */
  method Check(node: Node, subjectNever: Node -> bool) returns (r: Option<Refutation>)
    ensures r == Checked(node, subjectNever)
    decreases Depth(node), 0
  {
    match node
    case Apply(func, arg) =>
      r := Check(func, subjectNever);
      if r.None? {
        r := Check(arg, subjectNever);
      }
    case Block(body) =>
      r := CheckAll(body, subjectNever);
    case Cond(pred, _, _) =>
      r := Check(pred, subjectNever);
    case Define(target, value) =>
      var offender := NonExhaustive(target);
      if offender.Some? {
        return Some(Refutation(Target, offender.value));
      }
      r := Check(value, subjectNever);
    case Function(param, body) =>
      var offender := NonExhaustive(param);
      if offender.Some? {
        return Some(Refutation(Parameter, offender.value));
      }
      r := Check(body, subjectNever);
    case List(elements) =>
      r := CheckAll(elements, subjectNever);
    case Match(subject, cases) =>
      r := CheckMatch(node, subjectNever);
    case Pair(first, second) =>
      r := Check(first, subjectNever);
      if r.None? {
        r := Check(second, subjectNever);
      }
    case Name(_) => r := None;
    case Scalar(_) => r := None;
    case Unit => r := None;
  }

  /** `visit_match`: the subject, the empty-match rule, then every arm's
      body in turn while `offender` is reassigned from each arm's pattern. */
  method CheckMatch(node: Node, subjectNever: Node -> bool) returns (r: Option<Refutation>)
    requires node.Match?
    ensures r == Checked(node, subjectNever)
    decreases Depth(node), 0, 0
  {
    r := Check(node.subject, subjectNever);
    if r.Some? {
      return;
    }
    var cases := node.cases;
    if cases == [] && !subjectNever(node.subject) {
      return Some(Refutation(Case, UnitPattern));
    }
    var offender: Option<Pattern> := None;
    var i := 0;
    while i < |cases|
      invariant 0 <= i <= |cases|
      invariant FirstInArms(cases, subjectNever) == FirstInArms(cases[i..], subjectNever)
      invariant offender == if i == 0 then None else NonExhaustive(cases[i - 1].pattern)
    {
      DepthArmsBounds(cases, i);
      assert cases[i..][0] == cases[i] && cases[i..][1..] == cases[i + 1..];
      var inBody := Check(cases[i].body, subjectNever);
      if inBody.Some? {
        return inBody;
      }
      offender := NonExhaustive(cases[i].pattern);
      i := i + 1;
    }
    if offender.Some? {
      return Some(Refutation(Case, offender.value));
    }
    return None;
  }

  /** The loop of `visit_block` and `visit_list`. */
  method CheckAll(nodes: seq<Node>, subjectNever: Node -> bool) returns (r: Option<Refutation>)
    ensures r == FirstOf(nodes, subjectNever)
    decreases DepthAll(nodes), 1
  {
    var i := 0;
    while i < |nodes|
      invariant 0 <= i <= |nodes|
      invariant FirstOf(nodes, subjectNever) == FirstOf(nodes[i..], subjectNever)
    {
      DepthAllBounds(nodes, i);
      assert nodes[i..][0] == nodes[i] && nodes[i..][1..] == nodes[i + 1..];
      r := Check(nodes[i], subjectNever);
      if r.Some? {
        return;
      }
      i := i + 1;
    }
    return None;
  }
}
