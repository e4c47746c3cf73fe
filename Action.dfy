/**
 * The commenter's `main` as a whole: the checks on its environment, the
 * report and the pull request that end a run early, the submission loop,
 * and the exit code it ends with.
 *
 * The environment is a map from variable names to values; `fail` is the
 * exit code -1; the pull-request lookup, the decoded report files and the
 * creation of the GitHub client are given as inputs.
 */
module Action {
  import opened GoStrings
  import opened Report
  import opened PathResolver
  import opened Submission

  datatype Option<T> = None | Some(value: T)

  /** The process environment. */
  type Env = map<string, string>

  /** os.Getenv: the empty string when the variable is unset. */
  function Getenv(env: Env, key: string): string {
    if key in env then env[key] else ""
  }

  /** os.LookupEnv: tells an unset variable from an empty one. */
  function LookupEnv(env: Env, key: string): Option<string> {
    if key in env then Some(env[key]) else None
  }

  /** The exit code of `fail`. */
  const FailCode: int := -1

  /** The report read when no argument is given. */
  const DefaultReportPath: string := "trivy_sample_report.json"

  /**
   * GITHUB_REPOSITORY split at "/" into owner and name, when it splits into
   * exactly two parts (either may be empty); None makes `main` fail.
   */
  function ParseRepository(repository: string): Option<(string, string)> {
    var split := Split(repository, '/');
    if |split| != 2 then None else Some((split[0], split[1]))
  }

  /**
   * The repository is accepted exactly when it holds one "/", and then the
   * owner and the name are the text before and after it.
   */
  lemma ParseRepositoryParts(repository: string)
    ensures ParseRepository(repository).Some? <==> Count(repository, '/') == 1
    ensures ParseRepository(repository).Some? ==>
      var (owner, repo) := ParseRepository(repository).value;
      && '/' !in owner && '/' !in repo
      && owner + "/" + repo == repository
  {
    var split := Split(repository, '/');
    if |split| == 2 {
      JoinSplit(repository, '/');
      assert Join(split, '/') == split[0] + "/" + Join(split[1..], '/');
    }
  }

  /** Any owner and name without "/" are read back from "owner/name". */
  lemma ParseRepositoryOfJoined(owner: string, repo: string)
    requires '/' !in owner && '/' !in repo
    ensures ParseRepository(owner + "/" + repo) == Some((owner, repo))
  {
    var s := owner + "/" + repo;
    assert s == owner + ("/" + repo);
    CountConcat(owner, "/" + repo, '/');
    CountConcat("/", repo, '/');
    assert Count("/", '/') == 1 + Count([], '/');
    ParseRepositoryParts(s);
    assert Count(s, '/') == 1;
    var (o, r) := ParseRepository(s).value;
    assert o + "/" + r == owner + "/" + repo;
    SlashFree(o, r, owner, repo);
  }

  /** Count adds up over a concatenation. */
  lemma {:induction false} CountConcat(s: string, t: string, c: char)
    ensures Count(s + t, c) == Count(s, c) + Count(t, c)
    decreases |s|
  {
    if s != [] {
      assert (s + t)[1..] == s[1..] + t;
      CountConcat(s[1..], t, c);
    } else {
      assert s + t == t;
    }
  }

  /** The text of `s` before its first `c` (all of `s` when it has none). */
  function Before(s: string, c: char): string
    decreases |s|
  {
    if s == [] || s[0] == c then [] else [s[0]] + Before(s[1..], c)
  }

  /** The first separator of x + [c] + y is the one after x when x has none. */
  lemma {:induction false} BeforeSeparator(x: string, y: string, c: char)
    requires c !in x
    ensures Before(x + [c] + y, c) == x
    decreases |x|
  {
    if x == [] {
      assert x + [c] + y == [c] + y;
    } else {
      assert x[0] in x;
      assert (x + [c] + y)[1..] == x[1..] + [c] + y;
      BeforeSeparator(x[1..], y, c);
    }
  }

  /** The single "/" of a string fixes the parts around it. */
  lemma SlashFree(o: string, r: string, owner: string, repo: string)
    requires '/' !in o && '/' !in owner
    requires o + "/" + r == owner + "/" + repo
    ensures o == owner && r == repo
  {
    var s := o + "/" + r;
    BeforeSeparator(o, r, '/');
    BeforeSeparator(owner, repo, '/');
    assert s[|o| + 1..] == r;
    assert s[|owner| + 1..] == repo;
  }

  /** The report path: the first command-line argument, else the default. */
  function ReportPath(args: seq<string>): string {
    if |args| > 0 then args[0] else DefaultReportPath
  }

  /** What extractPullRequestNumber comes back with. */
  datatype PullRequestLookup =
    | EventFileMissing          // the event payload cannot be read: it calls `fail`
    | NotAPullRequest           // the payload has no usable "number": an error is returned
    | PullRequest(number: int)

  /**
   * INPUT_SOFT_FAIL_COMMENTER is set and lower-cases to "true", the one
   * setting that lets a run with no error end with 0.
   */
  predicate SoftFail(env: Env) {
    var softFail := LookupEnv(env, "INPUT_SOFT_FAIL_COMMENTER");
    softFail.Some? && ToLower(softFail.value) == "true"
  }

  /** Soft fail is on exactly when the variable is set to some spelling of "true". */
  lemma SoftFailSpelling(env: Env)
    ensures SoftFail(env) <==> "INPUT_SOFT_FAIL_COMMENTER" in env && IsTrueIgnoringCase(env["INPUT_SOFT_FAIL_COMMENTER"])
  {
    if "INPUT_SOFT_FAIL_COMMENTER" in env {
      ToLowerIsTrue(env["INPUT_SOFT_FAIL_COMMENTER"]);
    }
  }

  /**
   * The end of `main`, after the loop: exit 1 on any error; then, under a
   * guard that always holds because the errors are empty there, return
   * normally (0) with soft fail on and exit 1 otherwise. The code is 0 or 1,
   * and 0 exactly when there is no error and soft fail is on, whether or not
   * a comment was written.
   */
  function ExitCode(errMessages: seq<string>, validCommentWritten: bool, softFail: bool): (code: int)
    ensures code == 0 || code == 1
    ensures code == 0 <==> errMessages == [] && softFail
  {
    if |errMessages| > 0 then 1
    else if validCommentWritten || |errMessages| == 0 then
      (if softFail then 0 else 1)
    else 0
  }

  /** How a run of `main` ends: its exit code and the calls it made, in order. */
  datatype RunResult = RunResult(code: int, attempts: seq<Attempt>)

  /**
   * The checks of `main` before the loop, in the order it makes them: the
   * exit code of the first one that ends the run, or None when all pass.
   */
  function EarlyExit(env: Env, args: seq<string>, pr: PullRequestLookup, reports: map<string, Report>,
                     commenterCreated: bool): Option<int>
  {
    if Getenv(env, "INPUT_GITHUB_TOKEN") == [] then Some(FailCode)
    else if ParseRepository(Getenv(env, "GITHUB_REPOSITORY")).None? then Some(FailCode)
    else if pr.EventFileMissing? then Some(FailCode)
    else if pr.NotAPullRequest? then Some(0)
    else if ReportPath(args) !in reports then Some(FailCode)
    else if reports[ReportPath(args)].results == [] then Some(0)
    else if !commenterCreated then Some(FailCode)
    else None
  }

  /** The checks before the loop all pass. */
  predicate ReachesLoop(env: Env, args: seq<string>, pr: PullRequestLookup, reports: map<string, Report>,
                        commenterCreated: bool)
  {
    EarlyExit(env, args, pr, reports, commenterCreated).None?
  }

  /**
   * The specification of a run: an early exit makes no call; otherwise the
   * loop makes the planned calls and the exit decision follows.
   */
  function Run(env: Env, args: seq<string>, pr: PullRequestLookup, reports: map<string, Report>,
               commenterCreated: bool, outcomes: seq<Outcome>): RunResult
  {
    match EarlyExit(env, args, pr, reports, commenterCreated)
    case Some(code) => RunResult(code, [])
    case None =>
      var results := reports[ReportPath(args)].results;
      var workspacePath := WorkspacePattern(Getenv(env, "GITHUB_WORKSPACE"));
      var workingDir := NormaliseWorkingDir(Getenv(env, "INPUT_WORKING_DIRECTORY"));
      RunResult(ExitCode(ErrorsOf(outcomes), AnyWritten(outcomes), SoftFail(env)),
                Planned(results, workingDir, workspacePath))
  }

  /**
   * `main`, with `fail` and os.Exit as returns of the exit code and each
   * WriteMultiLineComment call answered by the next outcome.
   */
  method RunCommenter(env: Env, args: seq<string>, pr: PullRequestLookup, reports: map<string, Report>,
                      commenterCreated: bool, outcomes: seq<Outcome>)
    returns (code: int, attempts: seq<Attempt>)
    requires ReportPath(args) in reports ==> |outcomes| == AttemptCount(reports[ReportPath(args)].results)
    ensures RunResult(code, attempts) == Run(env, args, pr, reports, commenterCreated, outcomes)
  {
    attempts := [];
    var token := Getenv(env, "INPUT_GITHUB_TOKEN");
    if |token| == 0 {
      return FailCode, attempts;
    }
    var split := Split(Getenv(env, "GITHUB_REPOSITORY"), '/');
    if |split| != 2 {
      return FailCode, attempts;
    }
    match pr
    case EventFileMissing =>
      return FailCode, attempts;
    case NotAPullRequest =>
      return 0, attempts;
    case PullRequest(_) =>
    var reportPath := ReportPath(args);
    if reportPath !in reports {
      return FailCode, attempts;
    }
    var trivyReport := reports[reportPath];
    if |trivyReport.results| == 0 {
      return 0, attempts;
    }
    if !commenterCreated {
      return FailCode, attempts;
    }
    var workspacePath := WorkspacePattern(Getenv(env, "GITHUB_WORKSPACE"));
    var workingDir := NormaliseWorkingDir(Getenv(env, "INPUT_WORKING_DIRECTORY"));
    var errMessages, validCommentWritten;
    attempts, errMessages, validCommentWritten := SubmitAll(trivyReport.results, workingDir, workspacePath, outcomes);
    code := ExitCode(errMessages, validCommentWritten, SoftFail(env));
  }

  /** Without a token the run fails before any call. */
  lemma RunWithoutToken(env: Env, args: seq<string>, pr: PullRequestLookup, reports: map<string, Report>,
                        commenterCreated: bool, outcomes: seq<Outcome>)
    requires "INPUT_GITHUB_TOKEN" !in env || env["INPUT_GITHUB_TOKEN"] == ""
    ensures Run(env, args, pr, reports, commenterCreated, outcomes) == RunResult(FailCode, [])
  {
  }

  /** A GITHUB_REPOSITORY without exactly one "/" fails the run once a token is set. */
  lemma RunWithBadRepository(env: Env, args: seq<string>, pr: PullRequestLookup, reports: map<string, Report>,
                             commenterCreated: bool, outcomes: seq<Outcome>)
    requires Getenv(env, "INPUT_GITHUB_TOKEN") != []
    requires Count(Getenv(env, "GITHUB_REPOSITORY"), '/') != 1
    ensures Run(env, args, pr, reports, commenterCreated, outcomes) == RunResult(FailCode, [])
  {
  }

  /**
   * A run that gets past the token and repository checks outside a pull
   * request ends with 0 when the payload has no number, but fails when the
   * event payload is missing; no call is made either way.
   */
  lemma RunOutsidePullRequest(env: Env, args: seq<string>, pr: PullRequestLookup, reports: map<string, Report>,
                              commenterCreated: bool, outcomes: seq<Outcome>)
    requires Getenv(env, "INPUT_GITHUB_TOKEN") != []
    requires Count(Getenv(env, "GITHUB_REPOSITORY"), '/') == 1
    requires !pr.PullRequest?
    ensures Run(env, args, pr, reports, commenterCreated, outcomes).attempts == []
    ensures Run(env, args, pr, reports, commenterCreated, outcomes).code == (if pr.NotAPullRequest? then 0 else FailCode)
  {
  }

  /** A report with no result group ends the run with 0 before the client is created. */
  lemma RunWithEmptyReport(env: Env, args: seq<string>, number: int, reports: map<string, Report>,
                           commenterCreated: bool, outcomes: seq<Outcome>)
    requires Getenv(env, "INPUT_GITHUB_TOKEN") != []
    requires Count(Getenv(env, "GITHUB_REPOSITORY"), '/') == 1
    requires ReportPath(args) in reports && reports[ReportPath(args)].results == []
    ensures Run(env, args, PullRequest(number), reports, commenterCreated, outcomes) == RunResult(0, [])
  {
  }

  /**
   * A run that reaches the loop makes one call per finding of the actionable
   * groups, and ends with 0 exactly when no call failed and soft fail is on.
   */
  lemma RunThroughLoop(env: Env, args: seq<string>, pr: PullRequestLookup, reports: map<string, Report>,
                       commenterCreated: bool, outcomes: seq<Outcome>)
    requires ReachesLoop(env, args, pr, reports, commenterCreated)
    requires |outcomes| == AttemptCount(reports[ReportPath(args)].results)
    ensures var run := Run(env, args, pr, reports, commenterCreated, outcomes);
      && |run.attempts| == AttemptCount(reports[ReportPath(args)].results)
      && (run.code == 0 <==> (forall i :: 0 <= i < |outcomes| ==> !outcomes[i].Failed?) && SoftFail(env))
      && (run.code == 1 <==> !(run.code == 0))
  {
    var run := Run(env, args, pr, reports, commenterCreated, outcomes);
    ErrorsOfEmpty(outcomes);
  }

  /**
   * There is no "nothing to report" exit: a report whose groups are all
   * skipped makes no call and still ends with 1 unless soft fail is on.
   */
  lemma RunWithNothingActionable(env: Env, args: seq<string>, pr: PullRequestLookup, reports: map<string, Report>,
                                 commenterCreated: bool)
    requires ReachesLoop(env, args, pr, reports, commenterCreated)
    requires forall i :: 0 <= i < |reports[ReportPath(args)].results| ==> !Actionable(reports[ReportPath(args)].results[i])
    ensures Run(env, args, pr, reports, commenterCreated, []).attempts == []
    ensures Run(env, args, pr, reports, commenterCreated, []).code == (if SoftFail(env) then 0 else 1)
  {
    AttemptCountZero(reports[ReportPath(args)].results);
    ErrorsOfEmpty([]);
  }

  /**
   * A report calling for a single call, answered "not part of the diff":
   * the call is made, neither an error nor a written comment is recorded, and
   * the run still ends with 1 unless soft fail is on: being out of the diff
   * is not treated as having nothing to report.
   */
  lemma RunWithOnlyOutOfDiff(env: Env, args: seq<string>, pr: PullRequestLookup, reports: map<string, Report>,
                             commenterCreated: bool)
    requires ReachesLoop(env, args, pr, reports, commenterCreated)
    requires AttemptCount(reports[ReportPath(args)].results) == 1
    ensures |Run(env, args, pr, reports, commenterCreated, [NotValid]).attempts| == 1
    ensures ErrorsOf([NotValid]) == [] && !AnyWritten([NotValid])
    ensures Run(env, args, pr, reports, commenterCreated, [NotValid]).code == (if SoftFail(env) then 0 else 1)
  {
  }

  /**
   * A failed call does not stop the next one: for a report calling for two
   * calls, answered by a failure and then a success, both calls are made,
   * exactly the failure's message is collected, and the run ends with 1.
   */
  lemma RunWithFailureThenSuccess(env: Env, args: seq<string>, pr: PullRequestLookup, reports: map<string, Report>,
                                  commenterCreated: bool, message: string)
    requires ReachesLoop(env, args, pr, reports, commenterCreated)
    requires AttemptCount(reports[ReportPath(args)].results) == 2
    ensures |Run(env, args, pr, reports, commenterCreated, [Failed(message), Written]).attempts| == 2
    ensures ErrorsOf([Failed(message), Written]) == [message]
    ensures AnyWritten([Failed(message), Written])
    ensures Run(env, args, pr, reports, commenterCreated, [Failed(message), Written]).code == 1
  {
  }
}
