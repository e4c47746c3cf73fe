# trivy PR commenter, modelled in Dafny

The commenter is a GitHub action. It reads a trivy scan report. For each
misconfiguration found in a config or terraform result group, it writes a
review comment on the pull request, anchored to the finding's lines. It then
ends with an exit code that depends on the commenter's answers and on the
`INPUT_SOFT_FAIL_COMMENTER` setting.

This project models `main.go`:

- `GoStrings.dfy`: the parts of Go's `strings` package that the program uses.
  - `ReplaceAll` with an empty replacement is `RemoveAll`.
  - Also `TrimPrefix`, `TrimSuffix`, `Split` and ASCII `ToLower`.
  - `Join` is not called by the program; it is there only to state that `Split` loses nothing.
- `Report.dfy`: the decoded report (result groups and misconfigurations).
  - The test that selects config/terraform groups with at least one misconfiguration.
  - The number of comment attempts a report calls for.
- `PathResolver.dfy`: the working-directory prefix, the workspace pattern and the file name a comment is anchored to.
- `CommentRenderer.dfy`: `formatUrls` as an imperative method proved against a function. Also the `generateErrorMessage` template.
- `Submission.dfy`: the nested loop of `main`, as methods with loop invariants, proved against three specification functions:
  - `Planned`: the calls, in order;
  - `ErrorsOf`: the collected error messages;
  - `AnyWritten`: the `validCommentWritten` flag.
- `Action.dfy`: the whole of `main`.
  - The startup checks that end a run early.
  - The exit decision after the loop.
  - A specification `Run` that the method `RunCommenter` is proved to follow.

The GitHub client is replaced by a sequence of answers, one per
`WriteMultiLineComment` call, in call order:

- `Written` (no error);
- `AlreadyWritten` (`CommentAlreadyWrittenError`);
- `NotValid` (`CommentNotValidError`);
- `Failed(message)` (any other error).

The environment is a map from names to values. `fail` is modelled as exit code -1.

There is no "nothing to report" exit 0 after the loop (`main.go:109-122`):
- any error exits 1;
- otherwise the guard `validCommentWritten || len(errMessages) == 0` at
  `main.go:117` always holds, so the run exits 1 unless soft fail is on,
  whether a comment was written or not.

`Action.ExitCode`, `Action.RunWithNothingActionable` (a report whose groups
are all skipped still exits 1) and `Action.RunWithOnlyOutOfDiff` state this.

## Model

| member | source | states |
|---|---|---|
| GoStrings.TrimPrefix | main.go:66 | drops the prefix once when present (prefix + result = input), else returns the input |
| GoStrings.TrimSuffix | main.go:67 | drops the suffix once when present (result + suffix = input), else returns the input |
| GoStrings.RemoveAll | main.go:85 | ReplaceAll with "" never lengthens the target; a leading occurrence shortens it by at least the pattern's length |
| GoStrings.RemoveAllAbsent | main.go:85 | a pattern that does not occur leaves the target unchanged |
| GoStrings.RemoveAllAfterClean | main.go:85 | for any pattern, text in which no occurrence starts is kept, the next occurrence is removed and removal carries on in the rest |
| GoStrings.RemoveAllSingleChar | main.go:85 | with the one-character pattern "/" every occurrence of that character is deleted (agrees with the reference definition Without) |
| GoStrings.Split | main.go:25 | splitting at '/' gives one more part than there are '/' characters, and no part contains '/' |
| GoStrings.JoinSplit | main.go:25-30 | Split loses nothing: joining the parts with '/' gives back the input |
| GoStrings.ToLower | main.go:118 | maps each ASCII upper-case letter to its lower-case letter, keeps the length and changes nothing else, so no ASCII upper-case letter is left |
| GoStrings.ToLowerIsTrue | main.go:118 | lower-casing gives "true" exactly for the upper/lower-case spellings of "true" |
| Report.AttemptCountZero | main.go:72-84 | a report calls for no comment attempt exactly when none of its groups is config/terraform with a misconfiguration |
| Report.IsConfigResult | main.go:74 | a group is a config/terraform group iff its Class is "config" or its Type is "terraform" |
| Report.Actionable | main.go:74-82 | a group gets comments iff it is a config/terraform group with at least one misconfiguration |
| PathResolver.NormaliseWorkingDir | main.go:64-68 | the working directory stays empty iff it is empty; otherwise one leading "./" is dropped, one trailing "/" is dropped if present, then one "/" is added (so "a//" stays "a//") |
| PathResolver.WorkspacePattern | main.go:61 | the workspace pattern is GITHUB_WORKSPACE followed by exactly one added "/", never empty |
| PathResolver.CommentFilename | main.go:85-86 | the file name is never longer than the working directory and the target together, and starts with the working directory unless that could begin the trimmed "./" |
| PathResolver.NormaliseKeepsNormalised | main.go:64-68 | a working directory that already ends in "/" and has no leading "./" is unchanged |
| PathResolver.NormaliseDotSlash | main.go:64-68 | "./" becomes "/" |
| PathResolver.FilenameOfResolvedPath | main.go:85-86 | with no working directory, a target without the workspace pattern and without a leading "./" is its own file name |
| PathResolver.FilenameUnderWorkspace | main.go:85-86 | a target inside the workspace is made relative to it and prefixed with the working directory |
| PathResolver.FilenameWithoutWorkspace | main.go:61-86 | with GITHUB_WORKSPACE unset every "/" of the target is deleted |
| PathResolver.EveryOccurrenceRemoved | main.go:85-86 | for every target u + pattern + v in which no occurrence starts inside u, the file name is the working directory, u and v with its occurrences removed, minus one leading "./": a pattern in the middle is removed too, not only a leading one |
| PathResolver.TwoOccurrencesRemoved | main.go:85-86 | one example: both occurrences of "/w/" in "/w/a/w/b" are removed, giving "ab" |
| CommentRenderer.Links | main.go:194-203 | the reference list is empty exactly when there are no URLs |
| CommentRenderer.FormatUrls | main.go:194-203 | the loop builds exactly the links of the URLs in order, separated by " and " |
| CommentRenderer.LinksConcat | main.go:194-203 | the list for two non-empty runs of URLs is the two lists joined by " and " |
| CommentRenderer.LinksCons | main.go:194-203 | the list starts with the first URL's link, followed by " and " and the rest when there is a rest |
| CommentRenderer.LinksOfNone | main.go:194-203 | no URL gives the empty string |
| CommentRenderer.LinksOfTwo | main.go:194-203 | ["a", "b"] gives "[here](a) and [here](b)" |
| CommentRenderer.Template | main.go:187-190 | the fixed comment template with the severity, rule id, message and reference list inserted as given; its layout is stated by the four lemmas below |
| CommentRenderer.ErrorMessage | main.go:186-192 | the comment body of a misconfiguration: the template filled with its severity, id, message and Links of its references |
| CommentRenderer.TemplateSeverity | main.go:186-192 | the body opens with the warning marker, then the severity verbatim |
| CommentRenderer.TemplateId | main.go:186-192 | the rule id stands verbatim after the severity's fixed lead-in |
| CommentRenderer.TemplateMessage | main.go:186-192 | the message stands verbatim after the id's fixed lead-in |
| CommentRenderer.TemplateEnd | main.go:186-192 | the body ends with "More information available " and the reference list, and nothing more |
| CommentRenderer.ErrorMessageWithoutReferences | main.go:186-192 | with no reference the body ends with the bare "More information available " |
| CommentRenderer.GenerateErrorMessage | main.go:186-192 | the comment body is the template filled with the misconfiguration's fields and its reference list |
| Submission.Planned | main.go:70-107 | the calls of a whole report, group after group; there are as many as the report calls for (AttemptCount) |
| Submission.ErrorsOf | main.go:90-101 | the messages of the Failed answers, in order; never more than there are answers |
| Submission.AnyWritten | main.go:93-103 | some answer is Written or AlreadyWritten |
| Submission.GroupAttempts | main.go:72-89 | a group gets calls iff it is config/terraform with a misconfiguration, one per misconfiguration, in order, each with the computed file name, body and lines |
| Submission.AttemptPosition | main.go:72-106 | misconfiguration j of actionable group i is call number (calls of the groups before i) + j |
| Submission.SkippedGroupAddsNothing | main.go:74-82 | a skipped group adds no call wherever it stands in the report |
| Submission.PlannedConcat | main.go:72-107 | the calls of consecutive parts of a report are the calls of each part, in order |
| Submission.ErrorsOfMembership | main.go:90-101 | a message is collected iff some call failed with it; AlreadyWritten and NotValid never add one |
| Submission.ErrorsOfEmpty | main.go:90-101 | no message is collected iff no call failed |
| Submission.ErrorsOfConcat | main.go:90-101 | the errors of consecutive runs of answers are the errors of each run, in order |
| Submission.AnyWrittenSnoc | main.go:93-103 | one more answer sets the flag exactly when it is Written or AlreadyWritten |
| Submission.SubmitGroup | main.go:84-106 | the inner loop makes the group's calls in order and adds exactly its answers' errors and written flags |
| Submission.SubmitAll | main.go:70-107 | the loop makes exactly the planned calls; errMessages is exactly the failures' messages in order; validCommentWritten iff some answer is Written or AlreadyWritten |
| Action.ParseRepository | main.go:24-30 | GITHUB_REPOSITORY split at "/" into owner and name when there are exactly two parts, else None (the run fails) |
| Action.ParseRepositoryParts | main.go:24-30 | GITHUB_REPOSITORY is accepted iff it holds exactly one "/", and then owner + "/" + repo gives it back, neither containing "/" |
| Action.ParseRepositoryOfJoined | main.go:24-30 | any owner and name without "/" are read back from "owner/name" |
| Action.SoftFail | main.go:118 | INPUT_SOFT_FAIL_COMMENTER is set and lower-cases to "true" |
| Action.SoftFailSpelling | main.go:118 | soft fail is on iff the variable is set to a case variant of "true" |
| Action.ExitCode | main.go:109-122 | the code is 0 or 1, and 0 iff no error was collected and soft fail is on |
| Action.ReportPath | main.go:41-45 | the report path is the first command-line argument, or "trivy_sample_report.json" without one |
| Action.EarlyExit | main.go:19-59 | the exit code of the first startup check that ends the run, in the order of main, or None when all pass |
| Action.Run | main.go:16-122 | a run: no call after an early exit; otherwise the planned calls and the exit code of ExitCode on the answers' errors and flag |
| Action.RunCommenter | main.go:16-122 | main ends with the code and the calls of the specification Run |
| Action.RunWithoutToken | main.go:19-22 | without a token the run fails with -1 before any call |
| Action.RunWithBadRepository | main.go:24-28 | a GITHUB_REPOSITORY without exactly one "/" fails the run with -1 before any call |
| Action.RunOutsidePullRequest | main.go:34-38 | outside a pull request there is no call; the run ends with 0, or with -1 when the event payload is missing |
| Action.RunWithEmptyReport | main.go:50-53 | a report with no result group ends the run with 0 and no call |
| Action.RunThroughLoop | main.go:70-122 | past the checks, the run makes one call per finding of the actionable groups and ends with 0 iff no call failed and soft fail is on, else 1 |
| Action.RunWithNothingActionable | main.go:72-122 | a report whose groups are all skipped makes no call and ends with 1 unless soft fail is on |
| Action.RunWithOnlyOutOfDiff | main.go:96-122 | for a report calling for one call, the call is made; an out-of-diff answer records neither an error nor a written comment, and the run ends with 1 unless soft fail is on |
| Action.RunWithFailureThenSuccess | main.go:89-122 | for a report calling for two calls answered by a failure then a success, both calls are made; exactly the failure's message is collected and the run ends with 1 |

## Left out

- loadTrivyReport (main.go:126-145): opening and JSON-decoding the report file. The model takes a map from report paths to decoded reports; a path missing from the map stands for a file that cannot be opened or decoded.
- extractPullRequestNumber (main.go:213-233): reading the event payload and parsing its "number". Its result is an input with three cases: missing file (calls `fail`), no usable number, or a pull request number.
- extractPullRequestNumber: a payload that is valid JSON but not an object (`null`, `[]`) panics at the type assertion at main.go:226, and Go exits with status 2. The model has no case for this fourth outcome.
- createCommenter (main.go:147-163): building the GitHub client and parsing GITHUB_API_URL. Whether it succeeds is a boolean input.
- createCommenter: the `err` declared with `:=` at main.go:155 shadows the function's `err`. A bad GITHUB_API_URL, or a failing NewEnterpriseCommenter, therefore returns a nil client with a nil error. `main` carries on and crashes at the first WriteMultiLineComment call. The model does not capture this: with the client reported as created, that call is answered from the answer sequence.
- WriteMultiLineComment: the remote GitHub API call. Its answers are an input sequence. What makes a comment a duplicate or out of the diff is not modelled.
- Action.RunCommenter: requires exactly one answer per call the report calls for, because the answers are given in advance rather than produced by a server.
- printTrivyReport and writeMultiLineComment (main.go:165-211): unused debug printing.
- All logging (`fmt.Printf`, `fmt.Println`, `println`), and the messages passed to `fail`.
- os.Exit: exit codes are returned values. `fail` returns -1, which the operating system reports as 255.
- Strings are sequences of characters, while Go strings are bytes. For valid UTF-8 the operations used (TrimPrefix, TrimSuffix, ReplaceAll, Split at "/", the comparison with "true") give the same results on both. An environment value or report field that is not valid UTF-8 has no counterpart in the model.
- ToLower: only ASCII letters are lower-cased. No non-ASCII character lower-cases to a letter of "true", so the soft-fail test is unaffected.
- Submission.SubmitGroup: the inner loop is a separate method that takes and returns the accumulators. The nested loop is unchanged otherwise.
- The owner and repository name are checked but only passed to createCommenter, which is not modelled. The pull request number is not used by the model.
