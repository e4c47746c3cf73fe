/**
 * The decoded trivy report, as far as the commenter reads it, and the test
 * that decides which result groups get comments.
 */
module Report {

  /** One detected misconfiguration (trivy's DetectedMisconfiguration). */
  datatype Misconfiguration = Misconfiguration(
    id: string,
    severity: string,
    message: string,
    references: seq<string>,
    startLine: int,  // CauseMetadata.StartLine
    endLine: int     // CauseMetadata.EndLine
  )

  /** One result group of the report: the findings of one scanned target. */
  datatype TrivyResult = TrivyResult(
    target: string,
    resultType: string,   // the group's `Type`, e.g. "terraform"
    resultClass: string,  // the group's `Class`, e.g. "config"
    misconfigurations: seq<Misconfiguration>
  )

  /** The decoded report file. */
  datatype Report = Report(results: seq<TrivyResult>)

  /** A config or terraform result group. */
  predicate IsConfigResult(r: TrivyResult) {
    r.resultClass == "config" || r.resultType == "terraform"
  }

  /** A group that gets comments: a config/terraform group with at least one misconfiguration. */
  predicate Actionable(r: TrivyResult) {
    IsConfigResult(r) && |r.misconfigurations| > 0
  }

  /** Number of comment attempts the report calls for: the findings of its actionable groups. */
  function AttemptCount(results: seq<TrivyResult>): nat
    decreases |results|
  {
    if results == [] then 0
    else
      var last := results[|results| - 1];
      AttemptCount(results[..|results| - 1]) + (if Actionable(last) then |last.misconfigurations| else 0)
  }

  /** A report calls for no attempt exactly when none of its groups is actionable. */
  lemma {:induction false} AttemptCountZero(results: seq<TrivyResult>)
    ensures AttemptCount(results) == 0 <==> forall i :: 0 <= i < |results| ==> !Actionable(results[i])
    decreases |results|
  {
    if results != [] {
      var init := results[..|results| - 1];
      AttemptCountZero(init);
      assert forall i :: 0 <= i < |init| ==> init[i] == results[i];
    }
  }

  /** A prefix of the report never calls for more attempts than the whole report. */
  lemma {:induction false} AttemptCountPrefix(results: seq<TrivyResult>, i: nat)
    requires i <= |results|
    ensures AttemptCount(results[..i]) <= AttemptCount(results)
    decreases |results|
  {
    if i < |results| {
      var init := results[..|results| - 1];
      assert results[..i] == init[..i];
      AttemptCountPrefix(init, i);
    } else {
      assert results[..i] == results;
    }
  }
}
