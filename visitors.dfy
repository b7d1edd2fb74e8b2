/** The abstract visitor base classes of `hanno/asts/visitor.py`. Every
    `visit_*` method they declare is an `abc.abstractmethod`, so Python
    refuses to build an object of a subclass that leaves one of them
    undefined: the constructor call raises TypeError before any node is
    visited. */
module Visitors {
  import opened Wrappers
  import opened Errors

  /** The `visit_*` methods, by the node class they handle. */
  datatype Visit =
    | VisitAnnotation | VisitApply | VisitBlock | VisitCond | VisitDefine
    | VisitFunction | VisitImpl | VisitList | VisitMatch | VisitPair
    | VisitPattern | VisitName | VisitScalar | VisitTrait | VisitType
    | VisitUnit | VisitNativeOp

  /** The abstract methods of `BaseASTVisitor`: one per surface node class. */
  const BaseAbstract: set<Visit> :=
    {VisitAnnotation, VisitApply, VisitBlock, VisitCond, VisitDefine, VisitFunction,
     VisitImpl, VisitList, VisitMatch, VisitPair, VisitPattern, VisitName,
     VisitScalar, VisitTrait, VisitType, VisitUnit}

  /** The abstract methods of `TypedASTVisitor`: the typed tree has no
      annotations and no separate pattern visit. */
  const TypedAbstract: set<Visit> :=
    {VisitApply, VisitBlock, VisitCond, VisitDefine, VisitFunction, VisitImpl,
     VisitList, VisitMatch, VisitPair, VisitName, VisitScalar, VisitTrait,
     VisitType, VisitUnit}

  /** Calling the constructor of a class whose bases declare these abstract
      methods and which defines these ones. */
  function Instantiate(declared: set<Visit>, defined: set<Visit>): (r: Result<(), CompilerError>)
    ensures r.Ok? <==> forall m :: m in declared ==> m in defined
    ensures r.Err? ==> r.error == TypeError
  {
    if declared <= defined then Ok(()) else Err(TypeError)
  }

  /** The methods `ConstraintGenerator` defines. */
  const ConstraintGeneratorDefines: set<Visit> :=
    {VisitApply, VisitBlock, VisitCond, VisitDefine, VisitFunction, VisitList,
     VisitPair, VisitName, VisitScalar, VisitType, VisitUnit}

  /** The methods `Substitutor` defines. */
  const SubstitutorDefines: set<Visit> := ConstraintGeneratorDefines

  /** The methods `ExhaustivenessChecker` defines. */
  const ExhaustivenessCheckerDefines: set<Visit> :=
    {VisitApply, VisitBlock, VisitCond, VisitDefine, VisitFunction, VisitList,
     VisitMatch, VisitPair, VisitName, VisitScalar, VisitType, VisitUnit}

  /** The methods `StringExpander` defines. */
  const StringExpanderDefines: set<Visit> :=
    {VisitAnnotation, VisitApply, VisitBlock, VisitCond, VisitDefine, VisitFunction,
     VisitList, VisitMatch, VisitPair, VisitName, VisitPattern, VisitScalar,
     VisitType, VisitUnit}

  /** The methods `TopologicalSorter` and `Simplifier` define: all of them. */
  const CompleteBaseDefines: set<Visit> := BaseAbstract

  /** `ConstraintGenerator()` raises TypeError: it leaves `visit_match`,
      among others, abstract. So `infer_types` fails on every tree. */
  lemma ConstraintGeneratorAbstract()
    ensures Instantiate(BaseAbstract, ConstraintGeneratorDefines) == Err(TypeError)
    ensures VisitMatch in BaseAbstract - ConstraintGeneratorDefines
  {
  }

  /** `Substitutor(...)` raises TypeError: it leaves `visit_match`,
      `visit_impl` and `visit_trait` abstract. */
  lemma SubstitutorAbstract()
    ensures Instantiate(TypedAbstract, SubstitutorDefines) == Err(TypeError)
    ensures TypedAbstract - SubstitutorDefines == {VisitImpl, VisitMatch, VisitTrait}
  {
  }

  /** `ExhaustivenessChecker()` raises TypeError: it leaves `visit_impl` and
      `visit_trait` abstract. So `check_exhaustiveness` fails on every tree. */
  lemma ExhaustivenessCheckerAbstract()
    ensures Instantiate(TypedAbstract, ExhaustivenessCheckerDefines) == Err(TypeError)
    ensures TypedAbstract - ExhaustivenessCheckerDefines == {VisitImpl, VisitTrait}
  {
  }

  /** `StringExpander()` raises TypeError: it leaves `visit_impl` and
      `visit_trait` abstract. So `expand_strings` fails on every tree. */
  lemma StringExpanderAbstract()
    ensures Instantiate(BaseAbstract, StringExpanderDefines) == Err(TypeError)
    ensures BaseAbstract - StringExpanderDefines == {VisitImpl, VisitTrait}
  {
  }

  /** A class defining every abstract method is built without error, as the
      sorter and the simplifier are. */
  lemma CompleteInstantiates()
    ensures Instantiate(BaseAbstract, CompleteBaseDefines) == Ok(())
  {
  }
}
