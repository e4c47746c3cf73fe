/**
 * The per-finding submission loop of `main`: one comment attempt per
 * misconfiguration of every actionable result group, in report order, with
 * the commenter's answer to each attempt sorted into "written", "ignored" and
 * "error".
 */
module Submission {
  import opened Report
  import opened PathResolver
  import opened CommentRenderer

  /** What the commenter answers to one WriteMultiLineComment call. */
  datatype Outcome =
    | Written                  // no error
    | AlreadyWritten           // CommentAlreadyWrittenError
    | NotValid                 // CommentNotValidError: lines not part of the pull request's diff
    | Failed(message: string)  // any other error, with its Error() text
  {
    /** The answers that set validCommentWritten. */
    predicate MarksWritten() {
      Written? || AlreadyWritten?
    }
  }

  /** The arguments of one WriteMultiLineComment call. */
  datatype Attempt = Attempt(filename: string, body: string, startLine: int, endLine: int)

  /** The call made for misconfiguration `m` of result group `r`. */
  function AttemptFor(r: TrivyResult, m: Misconfiguration, workingDir: string, workspacePath: string): Attempt {
    Attempt(CommentFilename(workingDir, workspacePath, r.target), ErrorMessage(m), m.startLine, m.endLine)
  }

  /**
   * The calls made for one result group: one per misconfiguration, in order,
   * when the group is actionable; none otherwise.
   */
  function GroupAttempts(r: TrivyResult, workingDir: string, workspacePath: string): (a: seq<Attempt>)
    ensures a != [] <==> Actionable(r)
    ensures |a| == (if Actionable(r) then |r.misconfigurations| else 0)
    ensures forall j :: 0 <= j < |a| ==> a[j] == AttemptFor(r, r.misconfigurations[j], workingDir, workspacePath)
  {
    if Actionable(r) then
      seq(|r.misconfigurations|, j requires 0 <= j < |r.misconfigurations| =>
        AttemptFor(r, r.misconfigurations[j], workingDir, workspacePath))
    else []
  }

  /** The calls made for a whole report, group after group. */
  function Planned(results: seq<TrivyResult>, workingDir: string, workspacePath: string): (a: seq<Attempt>)
    ensures |a| == AttemptCount(results)
    decreases |results|
  {
    if results == [] then []
    else
      Planned(results[..|results| - 1], workingDir, workspacePath)
      + GroupAttempts(results[|results| - 1], workingDir, workspacePath)
  }

  /** The error messages collected from a run of answers: those of the failures, in order. */
  function ErrorsOf(outcomes: seq<Outcome>): (errs: seq<string>)
    ensures |errs| <= |outcomes|
    decreases |outcomes|
  {
    if outcomes == [] then []
    else
      var last := outcomes[|outcomes| - 1];
      ErrorsOf(outcomes[..|outcomes| - 1]) + (if last.Failed? then [last.message] else [])
  }

  /** Some answer was "written" or "already written". */
  predicate AnyWritten(outcomes: seq<Outcome>) {
    exists i :: 0 <= i < |outcomes| && outcomes[i].MarksWritten()
  }

  /** One more answer sets the flag exactly when it is "written" or "already written". */
  lemma AnyWrittenSnoc(os: seq<Outcome>, o: Outcome)
    ensures AnyWritten(os + [o]) <==> AnyWritten(os) || o.MarksWritten()
  {
    if AnyWritten(os) {
      var i :| 0 <= i < |os| && os[i].MarksWritten();
      assert (os + [o])[i] == os[i];
    }
    if AnyWritten(os + [o]) && !o.MarksWritten() {
      var i :| 0 <= i < |os + [o]| && (os + [o])[i].MarksWritten();
      assert i < |os| && os[i] == (os + [o])[i];
    }
    assert (os + [o])[|os|] == o;
  }

  /** One more answer adds its message to the errors exactly when it is a failure. */
  lemma ErrorsOfSnoc(os: seq<Outcome>, o: Outcome)
    ensures ErrorsOf(os + [o]) == ErrorsOf(os) + (if o.Failed? then [o.message] else [])
  {
  }

  /** The calls for consecutive parts of a report are the calls of the parts, in order. */
  lemma {:induction false} PlannedConcat(rs: seq<TrivyResult>, ss: seq<TrivyResult>, workingDir: string, workspacePath: string)
    ensures Planned(rs + ss, workingDir, workspacePath)
         == Planned(rs, workingDir, workspacePath) + Planned(ss, workingDir, workspacePath)
    decreases |ss|
  {
    if ss == [] {
      assert rs + ss == rs;
    } else {
      var init, last := ss[..|ss| - 1], ss[|ss| - 1];
      assert (rs + ss)[..|rs + ss| - 1] == rs + init;
      PlannedConcat(rs, init, workingDir, workspacePath);
    }
  }

  /** Adding a group at the end adds its calls at the end. */
  lemma PlannedSnoc(rs: seq<TrivyResult>, r: TrivyResult, workingDir: string, workspacePath: string)
    ensures Planned(rs + [r], workingDir, workspacePath)
         == Planned(rs, workingDir, workspacePath) + GroupAttempts(r, workingDir, workspacePath)
  {
  }

  /** A group that is not actionable adds no call, wherever it stands in the report. */
  lemma SkippedGroupAddsNothing(rs: seq<TrivyResult>, r: TrivyResult, ss: seq<TrivyResult>, workingDir: string, workspacePath: string)
    requires !Actionable(r)
    ensures Planned(rs + [r] + ss, workingDir, workspacePath) == Planned(rs + ss, workingDir, workspacePath)
  {
    calc {
      Planned(rs + [r] + ss, workingDir, workspacePath);
      { PlannedConcat(rs + [r], ss, workingDir, workspacePath); }
      Planned(rs + [r], workingDir, workspacePath) + Planned(ss, workingDir, workspacePath);
      { PlannedSnoc(rs, r, workingDir, workspacePath); }
      Planned(rs, workingDir, workspacePath) + Planned(ss, workingDir, workspacePath);
      { PlannedConcat(rs, ss, workingDir, workspacePath); }
      Planned(rs + ss, workingDir, workspacePath);
    }
  }

  /**
   * Every misconfiguration of every actionable group gets exactly one call:
   * misconfiguration j of group i is call number AttemptCount(results[..i]) + j,
   * so calls follow group order, then misconfiguration order.
   */
  lemma AttemptPosition(results: seq<TrivyResult>, i: nat, j: nat, workingDir: string, workspacePath: string)
    requires i < |results| && Actionable(results[i]) && j < |results[i].misconfigurations|
    ensures AttemptCount(results[..i]) + j < AttemptCount(results)
    ensures Planned(results, workingDir, workspacePath)[AttemptCount(results[..i]) + j]
         == AttemptFor(results[i], results[i].misconfigurations[j], workingDir, workspacePath)
  {
    var before, group, after := results[..i], results[i], results[i + 1..];
    assert results == before + [group] + after;
    var prefix := Planned(before, workingDir, workspacePath);
    var mine := GroupAttempts(group, workingDir, workspacePath);
    var rest := Planned(after, workingDir, workspacePath);
    PlannedConcat(before + [group], after, workingDir, workspacePath);
    PlannedSnoc(before, group, workingDir, workspacePath);
    assert Planned(results, workingDir, workspacePath) == prefix + mine + rest;
    IndexInMiddle(prefix, mine, rest, j);
  }

  /** Position |a| + j of a + b + c holds b[j]. */
  lemma IndexInMiddle<T>(a: seq<T>, b: seq<T>, c: seq<T>, j: nat)
    requires j < |b|
    ensures |a| + j < |a + b + c| && (a + b + c)[|a| + j] == b[j]
  {
  }

  /** The errors of consecutive runs of answers are the errors of each, in order. */
  lemma {:induction false} ErrorsOfConcat(os: seq<Outcome>, ps: seq<Outcome>)
    ensures ErrorsOf(os + ps) == ErrorsOf(os) + ErrorsOf(ps)
    decreases |ps|
  {
    if ps == [] {
      assert os + ps == os;
    } else {
      assert (os + ps)[..|os + ps| - 1] == os + ps[..|ps| - 1];
      ErrorsOfConcat(os, ps[..|ps| - 1]);
    }
  }

  /** A message is collected exactly when some answer failed with it. */
  lemma {:induction false} ErrorsOfMembership(outcomes: seq<Outcome>, msg: string)
    ensures msg in ErrorsOf(outcomes) <==> exists i :: 0 <= i < |outcomes| && outcomes[i] == Failed(msg)
    decreases |outcomes|
  {
    if outcomes != [] {
      var init := outcomes[..|outcomes| - 1];
      ErrorsOfMembership(init, msg);
      if exists i :: 0 <= i < |init| && init[i] == Failed(msg) {
        var i :| 0 <= i < |init| && init[i] == Failed(msg);
        assert outcomes[i] == Failed(msg);
      }
      if exists i :: 0 <= i < |outcomes| && outcomes[i] == Failed(msg) {
        var i :| 0 <= i < |outcomes| && outcomes[i] == Failed(msg);
        if i < |init| {
          assert init[i] == Failed(msg);
        }
      }
    }
  }

  /** No error is collected exactly when no answer is a failure. */
  lemma {:induction false} ErrorsOfEmpty(outcomes: seq<Outcome>)
    ensures ErrorsOf(outcomes) == [] <==> forall i :: 0 <= i < |outcomes| ==> !outcomes[i].Failed?
    decreases |outcomes|
  {
    if outcomes != [] {
      var init := outcomes[..|outcomes| - 1];
      ErrorsOfEmpty(init);
      if forall i :: 0 <= i < |outcomes| ==> !outcomes[i].Failed? {
        assert forall i :: 0 <= i < |init| ==> init[i] == outcomes[i];
      }
    }
  }

  /** Sorting answer number k extends what was collected from the answers before it. */
  lemma RecordStep(outcomes: seq<Outcome>, k: nat)
    requires k < |outcomes|
    ensures ErrorsOf(outcomes[..k + 1])
         == ErrorsOf(outcomes[..k]) + (if outcomes[k].Failed? then [outcomes[k].message] else [])
    ensures AnyWritten(outcomes[..k + 1]) <==> AnyWritten(outcomes[..k]) || outcomes[k].MarksWritten()
  {
    assert outcomes[..k + 1] == outcomes[..k] + [outcomes[k]];
    AnyWrittenSnoc(outcomes[..k], outcomes[k]);
    ErrorsOfSnoc(outcomes[..k], outcomes[k]);
  }

  /**
   * The inner loop of `main`, for one actionable group: one call per
   * misconfiguration, each answer taken from `outcomes` in turn (the answers
   * before `attempts0`'s end belong to earlier groups) and sorted.
   */
  method SubmitGroup(result: TrivyResult, workingDir: string, workspacePath: string, outcomes: seq<Outcome>,
                     attempts0: seq<Attempt>, errMessages0: seq<string>, validCommentWritten0: bool)
    returns (attempts: seq<Attempt>, errMessages: seq<string>, validCommentWritten: bool)
    requires Actionable(result)
    requires |attempts0| + |result.misconfigurations| <= |outcomes|
    requires errMessages0 == ErrorsOf(outcomes[..|attempts0|])
    requires validCommentWritten0 <==> AnyWritten(outcomes[..|attempts0|])
    ensures attempts == attempts0 + GroupAttempts(result, workingDir, workspacePath)
    ensures errMessages == ErrorsOf(outcomes[..|attempts|])
    ensures validCommentWritten <==> AnyWritten(outcomes[..|attempts|])
  {
    attempts, errMessages, validCommentWritten := attempts0, errMessages0, validCommentWritten0;
    ghost var group := GroupAttempts(result, workingDir, workspacePath);
    for j := 0 to |result.misconfigurations|
      invariant attempts == attempts0 + group[..j]
      invariant errMessages == ErrorsOf(outcomes[..|attempts|])
      invariant validCommentWritten <==> AnyWritten(outcomes[..|attempts|])
    {
      var misconfiguration := result.misconfigurations[j];
      var filename := CommentFilename(workingDir, workspacePath, result.target);
      var comment := GenerateErrorMessage(misconfiguration);
      var outcome := outcomes[|attempts|];
      RecordStep(outcomes, |attempts|);
      attempts := attempts + [Attempt(filename, comment, misconfiguration.startLine, misconfiguration.endLine)];
      assert group[..j + 1] == group[..j] + [group[j]];
      match outcome
      case AlreadyWritten =>
        validCommentWritten := true;
      case NotValid =>
      case Failed(message) =>
        errMessages := errMessages + [message];
      case Written =>
        validCommentWritten := true;
    }
    assert group[..|result.misconfigurations|] == group;
  }

  /** Taking one more group of the report into account adds that group's calls. */
  lemma GroupStep(results: seq<TrivyResult>, i: nat, workingDir: string, workspacePath: string)
    requires i < |results|
    ensures Planned(results[..i + 1], workingDir, workspacePath)
         == Planned(results[..i], workingDir, workspacePath) + GroupAttempts(results[i], workingDir, workspacePath)
    ensures |Planned(results[..i + 1], workingDir, workspacePath)| <= AttemptCount(results)
  {
    assert results[..i + 1] == results[..i] + [results[i]];
    PlannedSnoc(results[..i], results[i], workingDir, workspacePath);
    AttemptCountPrefix(results, i + 1);
  }

  /**
   * The loop of `main`: for each actionable group, for each misconfiguration,
   * compute the file name and the body, make the call, and sort the answer.
   * Nothing stops the loop early.
   */
  method SubmitAll(results: seq<TrivyResult>, workingDir: string, workspacePath: string, outcomes: seq<Outcome>)
    returns (attempts: seq<Attempt>, errMessages: seq<string>, validCommentWritten: bool)
    requires |outcomes| == AttemptCount(results)
    ensures attempts == Planned(results, workingDir, workspacePath)
    ensures errMessages == ErrorsOf(outcomes)
    ensures validCommentWritten <==> AnyWritten(outcomes)
  {
    attempts, errMessages, validCommentWritten := [], [], false;
    for i := 0 to |results|
      invariant attempts == Planned(results[..i], workingDir, workspacePath)
      invariant |attempts| <= |outcomes|
      invariant errMessages == ErrorsOf(outcomes[..|attempts|])
      invariant validCommentWritten <==> AnyWritten(outcomes[..|attempts|])
    {
      var result := results[i];
      GroupStep(results, i, workingDir, workspacePath);
      if !IsConfigResult(result) {
        continue;
      }
      if |result.misconfigurations| == 0 {
        continue;
      }
      attempts, errMessages, validCommentWritten :=
        SubmitGroup(result, workingDir, workspacePath, outcomes, attempts, errMessages, validCommentWritten);
    }
    assert results[..|results|] == results;
    assert outcomes[..|attempts|] == outcomes;
  }
}
