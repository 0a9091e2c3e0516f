/**
 * The outcome of one deep-copy comparison (DeepCopyMatchResult): a flag
 * saying whether the second value is a deep copy of the first and, for a
 * failure, a description of the first divergence. Both fields are final in
 * the source, so a result is a value: a datatype here.
 */
module MatchResults {

  datatype Option<+T> = None | Some(value: T)

  /** The public two-argument constructor stores both arguments verbatim. */
  datatype DeepCopyMatchResult = DeepCopyMatchResult(isDeepCopy: bool, failureDescription: Option<string>)

  /** "Description present iff not a deep copy": what the two factories guarantee. */
  predicate FactoryMade(r: DeepCopyMatchResult) {
    r.isDeepCopy <==> r.failureDescription.None?
  }

  /** The `success()` factory: a deep copy with no description. */
  function Success(): (r: DeepCopyMatchResult)
    ensures r.isDeepCopy && r.failureDescription == None
    ensures FactoryMade(r)
  {
    DeepCopyMatchResult(true, None)
  }

  /** The `failure(m)` factory: not a deep copy, described by exactly `m`. */
  function Failure(failureMessage: string): (r: DeepCopyMatchResult)
    ensures !r.isDeepCopy && r.failureDescription == Some(failureMessage)
    ensures FactoryMade(r)
  {
    DeepCopyMatchResult(false, Some(failureMessage))
  }

  /** The invariant holds exactly for the results the two factories build: the
      public constructor can also build a failure without a description, or a
      success with one. */
  lemma ConstructorBypassesInvariant(isDeepCopy: bool, failureDescription: Option<string>)
    ensures var r := DeepCopyMatchResult(isDeepCopy, failureDescription);
      FactoryMade(r) <==> r == Success() || exists m :: r == Failure(m)
    ensures !FactoryMade(DeepCopyMatchResult(false, None))
    ensures !FactoryMade(DeepCopyMatchResult(true, Some("")))
  {
    var r := DeepCopyMatchResult(isDeepCopy, failureDescription);
    if FactoryMade(r) && !isDeepCopy {
      assert r == Failure(failureDescription.value);
    }
  }
}
