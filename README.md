# Spec compliance checker: a verified Dafny model

This project models the core of a small HTTP service that checks a source repository against the specification documents it carries. A client posts a repository URL. The service validates the request, files a check record and runs the check in the background. The run clones the repository, extracts requirements from the specification texts, flags requirements that lack evidence in the code, and produces a severity-sorted issue list and a TODO.md report. With a specification repository configured, it also commits that report there. Further endpoints return the record, list and page the records, serve the report and delete a check.

Modules, one per source file:

| module | file | form |
|---|---|---|
| `Analyzer`, `SpecPatterns`, `SpecMatching` | `analyzer.dfy`, `spec_patterns.dfy`, `spec_matching.dfy` | Requirement extraction, the auth heuristic, the code-file walk and the severity sort. Pure functions, with the source's loops kept as methods proved equal to them. The two regular expressions are written out as the backtracking search `re.finditer` performs; `SpecMatching` proves that this search misses no match. |
| `Checker` | `checker.dfy` | The registry is the class `ComplianceChecker`. Its record maps are fields, and its methods change them in place. Each record is an object (`CheckRecord`) shared with the API layer. The background run is `RunCheck`, split into its stages. |
| `Validators` | `validators.dfy` | The request-validation chain and the git-URL recognizer, as pure functions. |
| `GitIntegration` | `git_client.dfy` | Token insertion, redaction, the commit message and workspace paths, as pure functions. The class `GitClient` tracks which workspace directories exist, through clone, commit and cleanup. |
| `OllamaIntegration` | `ollama_client.dfy` | The retry loop of `generate` as a method with a loop. Health, chat and model-loading results as functions of the server's replies. |
| `Routes` | `routes.dfy` | The API-key guard and the handlers. The class `Api` holds the check store, shared with the checker, and its insertion order. Listing is a pure filter, stable sort and slice. |
| `Wrappers`, `Json`, `Strings`, `Sorting` | | Helpers: `Option`, `Outcome` (a value, or the text of a raised exception), decoded JSON values, Python string operations (`strip`, `split`, `replace`, `int`, string comparison), and a stable sort with its correctness lemma. |

Things from outside the program are parameters of the model:

- subprocesses (`git`);
- HTTP replies from the Ollama server;
- the file system the analyzer walks;
- the specification loader;
- the report generator;
- the environment;
- uuids and timestamps.

## Model

| member | source | states |
|---|---|---|
| Analyzer.SeverityRank | src/core/analyzer.py:48-49 | critical, high, medium and low rank 0..3; every other severity ranks 99 |
| Analyzer.SortBySeverityCorrect | src/core/analyzer.py:47-49 | the sort yields a permutation ordered by rank, and issues of equal rank keep their input order |
| Analyzer.AnalyzeCompliance | src/core/analyzer.py:17-51 | the result is the stable severity sort of the per-spec issue lists concatenated in spec order: a permutation of them, ordered by rank |
| Analyzer.AnalyzeSpecs | src/core/analyzer.py:43-45 | the loop extends the list with each spec's issues in order |
| Analyzer.HighBeforeLow | src/core/analyzer.py:47-49 | high ranks below low, so after the sort every high issue precedes every low one |
| Analyzer.AllSpecIssuesHighOrLow | src/core/analyzer.py:104-121 | every issue the specs produce is high or low severity |
| Analyzer.AnalyzeSpec | src/core/analyzer.py:89-123 | `_analyze_spec` equals the documentation issue, or the heuristic applied to the first five requirements |
| Analyzer.SpecIssuesShape | src/core/analyzer.py:104-121 | no requirements: exactly one low documentation issue naming the spec file; otherwise at most five issues, all high missing_implementation |
| Analyzer.SpecIssuesForShape | src/core/analyzer.py:104-121 | the same for a requirement list in hand |
| Analyzer.AnalyzeRequirements | src/core/analyzer.py:104-121 | the branch on an empty requirement list |
| Analyzer.CheckRequirements | src/core/analyzer.py:116-121 | the loop keeps exactly the issues the heuristic returns, in order |
| Analyzer.IssuesOfShape | src/core/analyzer.py:115-121 | each requirement yields at most one issue, and it is high missing_implementation |
| Analyzer.FirstFive | src/core/analyzer.py:116 | `requirements[:5]`: a prefix of at most five entries |
| Analyzer.ExtractRequirements | src/core/analyzer.py:125-147 | the two `finditer` passes give one requirement per match, id matches first; the count is the sum of the two match counts |
| Analyzer.CollectIdRequirements | src/core/analyzer.py:132-136 | the loop over id matches builds the id requirements in match order |
| Analyzer.CollectShallRequirements | src/core/analyzer.py:141-145 | the loop over SHALL matches numbers them as `enumerate` does |
| Analyzer.IdRequirementForm | src/core/analyzer.py:130-136 | an id requirement has an id `FR`/`NFR`/`SR`, a dash and digits, and a text with no newline |
| Analyzer.ShallRequirementNumber | src/core/analyzer.py:141-145 | SHALL requirements are `REQ-1`, `REQ-2`, … in match order, after all id requirements |
| Analyzer.ShallIdsDistinct | src/core/analyzer.py:141-145 | no two SHALL requirements share an id |
| Analyzer.ShallIdsNotPatternIds | src/core/analyzer.py:130-145 | no `REQ-` id has the form of an `FR`/`NFR`/`SR` id |
| Analyzer.ReqIdIsNoPatternId | src/core/analyzer.py:143 | a `REQ-<n>` id is never an `FR`/`NFR`/`SR` id |
| Analyzer.ReqIdInjective | src/core/analyzer.py:143 | a `REQ-` id determines its number |
| Analyzer.NoShallMatchWithoutS | src/core/analyzer.py:139-141 | a text with no `s`, `S` or long s `ſ` (which IGNORECASE also matches to `s`) has no SHALL match |
| Analyzer.SingleIdRequirement | src/core/analyzer.py:130-136 | a text whose only match is one id match yields exactly its requirement, with the stripped text |
| Analyzer.TrailingIdLosesDigit | src/core/analyzer.py:130-136 | `\d+` backtracks: a bare `FR-12` at the end of the text gives id `FR-1` with text `2` |
| Analyzer.IdTextFromNextLine | src/core/analyzer.py:130-136 | `\s*` crosses a newline: `FR-1` alone on its line takes the next line as its text |
| Analyzer.MentionsAuthIsAuth | src/core/analyzer.py:166 | the `authentication or auth` test is the same as the `auth` test |
| Analyzer.ReadPrefix | src/core/analyzer.py:174 | `read(10000)`: a prefix of at most 10000 characters, the whole text when it is shorter |
| Analyzer.CheckRequirement | src/core/analyzer.py:149-199 | an issue exactly when the text mentions auth and none of the first ten readable code files does; that issue is high, missing_implementation, with the id and the file count |
| Analyzer.FindAuthEvidence | src/core/analyzer.py:168-179 | the loop finds evidence exactly when one of the first ten code files is readable and mentions `auth` in its first 10000 characters |
| Analyzer.Extension | src/core/analyzer.py:83 | `splitext`: empty, or a dot-led suffix of the name with no further dot, preceded by some non-dot character |
| Analyzer.DotPyAloneNotKept | src/core/analyzer.py:83-84 | `.py` alone has no extension and is not kept; `a.py` is kept |
| Analyzer.LastIndexOf | src/core/analyzer.py:83 | the position of the last occurrence of a character, or none when it does not occur |
| Analyzer.KeptFilesMembers | src/core/analyzer.py:82-85 | a directory contributes exactly its files with a code extension, joined to its path |
| Analyzer.KeptFiles | src/core/analyzer.py:82-85 | a directory contributes at most one path per listed file |
| Analyzer.WalkFilesExact | src/core/analyzer.py:78-85 | the walk yields exactly the kept files of the directories reachable without entering a skipped directory |
| Analyzer.WalkFilesSound | src/core/analyzer.py:78-85 | every walked file is kept and lies in a directory the walk may enter |
| Analyzer.WalkFilesComplete | src/core/analyzer.py:78-85 | every kept file of such a directory is yielded |
| Analyzer.ScanPaths | src/core/analyzer.py:70 | at least one path; each is the repository or a target path; exactly the target paths, in order, when some are given, else just the repository |
| Analyzer.GetCodeFiles | src/core/analyzer.py:53-87 | the loop over the scan paths collects, in order, a regular file as is and the walk of a directory |
| Analyzer.CodeFilesOrigin | src/core/analyzer.py:72-85 | every code file is a scanned regular file or a kept file listed by the walk of a scanned directory |
| SpecPatterns.FindIdMatches | src/core/analyzer.py:130-132 | the id scan's matches lie in the text, in order, without overlapping |
| SpecPatterns.TryIdPrefixesWellFormed | src/core/analyzer.py:130-132 | soundness of one attempt: what the prefix alternatives find at a position, with their backtracking, is a match of the id pattern |
| SpecPatterns.FindIdMatchesWellFormed | src/core/analyzer.py:130-132 | soundness: each reported match is a match of the id pattern: id, optional colon and blanks, and a text up to the end of its line |
| SpecMatching.FindIdMatchesComplete | src/core/analyzer.py:130-132 | completeness: every match of the id pattern at or after the scan position starts inside a reported match, so the scan skips none |
| SpecPatterns.FindShallMatches | src/core/analyzer.py:139-141 | the SHALL scan's matches lie in the text, in order, without overlapping |
| SpecPatterns.TryShallSubjectsWellFormed | src/core/analyzer.py:139-141 | soundness of one attempt: what the subject alternatives find at a position, with their backtracking, is a match of the SHALL pattern |
| SpecPatterns.FindShallMatchesWellFormed | src/core/analyzer.py:139-141 | soundness: each reported match is a subject (ignoring case), a blank run, `SHALL` (ignoring case), a blank run, and a text up to the end of its line |
| SpecMatching.FindShallMatchesComplete | src/core/analyzer.py:139-141 | completeness: every match of the SHALL pattern at or after the scan position starts inside a reported match, so the scan skips none |
| SpecPatterns.LazyLineIsLineEnd | src/core/analyzer.py:130 | the lazy `.+?` with the `(?=\n\|$)` lookahead stops exactly at the end of the line |
| SpecPatterns.LazyLineSucceeds | src/core/analyzer.py:130 | it succeeds exactly where a non-newline character stands |
| SpecPatterns.LineEnd | src/core/analyzer.py:130 | the first newline at or after a position, or the end of the text |
| Checker.CheckId | src/core/checker.py:52 | `chk_` plus the first twelve hex digits of the uuid, 16 characters |
| Checker.CheckIdCollision | src/core/checker.py:52 | two uuids give the same id exactly when their first twelve digits agree |
| Checker.RepoNameIsSegment | src/core/checker.py:55 | the repository name never contains `/` |
| Checker.RepoNameIgnoresTrailingSlash | src/core/checker.py:55 | a trailing `/` does not change the name |
| Checker.RepoNameOfSegment | src/core/checker.py:55 | for `prefix/segment` the name is the segment with every `.git` removed |
| Checker.RepoNameDropsGitSuffix | src/core/checker.py:55 | `…/name.git` names `name` when `name` has no `.git` of its own |
| Checker.RepoNameSinglePass | src/core/checker.py:55 | removal is one left-to-right pass, so `x.g.gitit` becomes `x.git` and still contains `.git` |
| Checker.OptionsOrEmpty | src/core/checker.py:65 | falsy options become `{}`, others are kept |
| Checker.StringListJson | src/core/checker.py:63-64 | an absent list is stored as null, a present one as the array of its strings |
| Checker.CountSeverity | src/core/checker.py:144-147 | a severity count never exceeds the number of issues |
| Checker.SeverityCountsBounded | src/core/checker.py:143-147 | the four counts sum to at most `total_issues`, with equality when every severity is one of the four |
| Checker.CountSeverityOfConcat | src/core/checker.py:144-147 | counts add over concatenation |
| Checker.FilesAnalyzedAtMostOne | src/core/checker.py:148 | issues carry no `file` key, so `files_analyzed` is 0 for no issues and 1 otherwise |
| Checker.ProgressOverrides | src/core/checker.py:173-177 | a later progress update hides an earlier one |
| Checker.Completed | src/core/checker.py:133-171 | after completion the status is `completed` exactly when the record has `repository` and `started_at`; then the summary and progress 100 are merged in; otherwise the KeyError makes it `failed`; keys are never lost |
| Checker.CleanupRemoves | src/core/checker.py:161 | the clone's workspace is gone after the cleanup the guard admits |
| Checker.OtherWorkspacesSurvive | src/core/checker.py:84-161 | however a run ends, the base, `repos`, `spec-repos` and the workspaces of other runs that existed are still there |
| Checker.CheckRecord.constructor | src/core/checker.py:57-72 | a record starts with its initial fields and no progress history |
| Checker.ComplianceChecker.constructor | src/core/checker.py:21-29 | empty maps and a fresh git client |
| Checker.ComplianceChecker.StartCheck | src/core/checker.py:35-82 | a fresh record with the initial fields is filed under `chk_…`; results are untouched |
| Checker.ComplianceChecker.UpdateProgress | src/core/checker.py:173-177 | only `progress` and `message` of an existing record change; an unknown id changes nothing |
| Checker.ComplianceChecker.MarkFailed | src/core/checker.py:165-171 | the record gets status `failed`, `completed_at` and the error text |
| Checker.ComplianceChecker.RunCheck | src/core/checker.py:84-171 | clone failure: failed with the clone error, workspace cleaned; load failure: failed, clone left on disk; success: progress 10, 30, 50, 80, 100, result and report stored, record completed, workspace removed; the id set never changes; in each case the directories afterwards are exactly those the clone, the spec commit and the cleanups leave |
| Checker.ComplianceChecker.LoadStage | src/core/checker.py:98-102 | the load-failure and load-success halves of the run, with the exact directories after each |
| Checker.ComplianceChecker.FinishCheck | src/core/checker.py:104-161 | analysis, report, optional commit and completion after a successful load; the directories are those `FinalDirs` leaves |
| Checker.ComplianceChecker.AnalyzeStage | src/core/checker.py:105-113 | progress 50, then the analyzer's issues |
| Checker.ComplianceChecker.ReportStage | src/core/checker.py:115-161 | progress 80 and 100, the report, the commit only with a spec repository URL, then completion; the directories are those the commit leaves, minus the clone's tree when the check completes |
| Checker.ComplianceChecker.CompleteCheck | src/core/checker.py:133-161 | stores `{result, todo_content}`, merges the result into the record and cleans up; a record lacking a key stores nothing |
| Checker.ComplianceChecker.AnalyzeIssues | src/core/checker.py:108-113 | the issues are the analyzer's result on the clone |
| Checker.ComplianceChecker.CommitTodo | src/core/checker.py:211-231 | a failure is swallowed; the directories afterwards are those `commit_todo_file` leaves, and the spec workspace is gone |
| Checker.ComplianceChecker.GetCheckStatus | src/core/checker.py:233-235 | the record filed under the id, if any |
| Checker.ComplianceChecker.GetTodoContent | src/core/checker.py:237-242 | the stored report, `''` for an id without a result |
| Checker.ComplianceChecker.DeleteCheck | src/core/checker.py:244-249 | the id leaves both maps; a missing id changes nothing |
| Validators.ValidateCheckRequest | src/utils/validators.py:6-61 | raises exactly for a truthy body that is not an object and for which `'repository_url' in data` holds or raises |
| Validators.EarlyChecks | src/utils/validators.py:16-21 | "Request body is required" exactly for a falsy body; the missing-field message exactly when `repository_url` is absent |
| Validators.ValidRequestIff | src/utils/validators.py:6-61 | `""` exactly for an object with `repository_url` that passes every later check |
| Validators.FirstFailureDecides | src/utils/validators.py:23-61 | the answer is the message of check k exactly when all earlier checks pass and check k fails |
| Validators.ValidateFieldsFirstFailure | src/utils/validators.py:23-61 | the chain answers with the first failing check's message, `""` when all pass |
| Validators.ValidateFieldsAnswers | src/utils/validators.py:23-61 | the only answers are `""` and the seven messages |
| Validators.StageMessagesDistinct | src/utils/validators.py:27-59 | the seven messages are non-empty and distinct |
| Validators.StringListErrorIff | src/utils/validators.py:36-53 | no error exactly when the key is absent or holds a list of strings; the not-an-array message exactly for a non-list |
| Strings.StripEmptyIffAllSpace | src/utils/validators.py:32 | `branch.strip()` is empty exactly when the branch is all whitespace |
| Validators.KeyPresent | src/utils/validators.py:20 | Python's `in` on a JSON value raises exactly for null, booleans and numbers |
| Validators.ValidateGitUrlIff | src/utils/validators.py:63-94 | accepted exactly when the URL is a non-empty string in the language of one of the five patterns |
| Validators.MatchesPatternIffLanguage | src/utils/validators.py:79-87 | the greedy scan of a pattern accepts exactly the strings of its language |
| Validators.RestMatchesIffSplit | src/utils/validators.py:79-87 | the greedy scan after the scheme succeeds exactly when the rest splits into host, optional port, separator and path as the pattern says |
| Validators.Body | src/utils/validators.py:79-87 | the part a pattern must cover is the URL, less one final newline |
| Validators.PatternsWellFormed | src/utils/validators.py:77-88 | the five patterns meet what the scan relies on |
| Validators.HttpsWithGitImpliesPlain | src/utils/validators.py:79-81 | every URL the https `.git` pattern accepts, the suffix-free one accepts |
| Validators.GitProtocolNeedsSuffix | src/utils/validators.py:87 | a `git://` URL is accepted only through the fifth pattern, and only with `.git` |
| Validators.OnlyMatchingPattern | src/utils/validators.py:90-94 | when every other pattern fails, the result is that of the remaining one |
| Validators.MatchedPathForm | src/utils/validators.py:79-87 | a pattern that requires `.git` accepts only URLs that end in `.git` |
| Validators.FinalNewlineAccepted | src/utils/validators.py:79-87 | `$` also matches before a final newline, so `url + "\n"` is judged as `url` |
| Validators.HttpsUrlAccepted | src/utils/validators.py:79 | an `https://host/path.git` URL from the allowed characters is accepted |
| Validators.HttpsUrlInLanguage | src/utils/validators.py:79 | such a URL splits into scheme, host and `.git` path as the first pattern describes |
| Validators.GitProtocolWithoutSuffixRejected | src/utils/validators.py:87 | `git://example.com/repo` is rejected |
| GitIntegration.AuthUrlInsertsToken | src/integrations/git_client.py:39-43 | with a token, `https://rest` becomes `https://token@rest` |
| GitIntegration.AuthUrlUnchanged | src/integrations/git_client.py:39-43 | without a token or the scheme, the URL is kept |
| GitIntegration.RedactHidesToken | src/integrations/git_client.py:68 | after redaction a token without `*` does not occur |
| GitIntegration.RedactKeepsOtherText | src/integrations/git_client.py:68 | text without the token is unchanged |
| GitIntegration.CommitMessageRoundTrip | src/integrations/git_client.py:117-122 | the message gives back the check id, the URL (default `repository`), the branch (default `main`) and the timestamp |
| GitIntegration.WorkspacePaths | src/integrations/git_client.py:34-35 | clone and spec workspaces are `base/repos/<id>` and `base/spec-repos/<id>`, both inside the base |
| GitIntegration.WorkspacesDistinct | src/integrations/git_client.py:82-83 | different ids give different workspaces, and a clone workspace is never a spec workspace |
| GitIntegration.Cleaned | src/integrations/git_client.py:149-155 | cleanup only removes directories |
| GitIntegration.CleanedDeletes | src/integrations/git_client.py:149-155 | a directory is deleted exactly when the workspace passes the guard, exists, and the directory lies in its tree |
| GitIntegration.CleanedOnlyBelowBase | src/integrations/git_client.py:151 | everything deleted starts with the base path |
| GitIntegration.GuardAdmitsOutsidePaths | src/integrations/git_client.py:151 | the prefix test admits a sibling `base-other` and a path climbing out with `..` |
| GitIntegration.CleanupOfBaseDeletesAll | src/integrations/git_client.py:151-152 | cleaning the base itself deletes every workspace |
| GitIntegration.FailedCloneCleansUp | src/integrations/git_client.py:61-69 | after a failed clone no workspace remains |
| GitIntegration.WorkspacesNotNested | src/integrations/git_client.py:34-35 | no workspace lies in another run's workspace tree, and neither the base nor `repos` nor `spec-repos` lies in any workspace tree |
| GitIntegration.CommitCleansUp | src/integrations/git_client.py:93-140 | after a commit the spec workspace is gone, cloned or not; every directory outside its tree remains, and a completed clone leaves `spec-repos` behind |
| GitIntegration.CloneErrorHidesToken | src/integrations/git_client.py:64-69 | a failed clone's error never shows a token without `*` |
| GitIntegration.RunCommandsOkIff | src/integrations/git_client.py:93-130 | the commit succeeds exactly when every command completes |
| GitIntegration.RunCommandsFirstFailure | src/integrations/git_client.py:134-138 | the first failing command decides the exception |
| GitIntegration.GitClient.constructor | src/integrations/git_client.py:16-18 | the base is `/tmp/spec-checker` and exists |
| GitIntegration.GitClient.CleanupWorkspace | src/integrations/git_client.py:142-155 | the directories afterwards are those `Cleaned` leaves; never raises |
| GitIntegration.GitClient.CloneRepository | src/integrations/git_client.py:20-69 | returns the workspace or raises the timeout or redacted failure; the workspace exists only after success |
| GitIntegration.GitClient.CommitTodoFile | src/integrations/git_client.py:71-140 | the commands run in order until one fails, which decides the outcome; a completed clone creates `spec-repos` and the workspace, and the workspace's tree is then cleaned up in every case |
| OllamaIntegration.ReplyObject | src/integrations/ollama_client.py:82-84 | a JSON object body is read exactly when the reply is a response, the status check passes, and the body is an object |
| OllamaIntegration.Get | src/integrations/ollama_client.py:85 | `dict.get` with its default |
| OllamaIntegration.Answer | src/integrations/ollama_client.py:82-99 | an attempt's result is the `response` field, `''` when absent; failures are re-raised |
| OllamaIntegration.NamesOfIff | src/integrations/ollama_client.py:35 | the comprehension succeeds exactly when every entry has a `name`, and lists those names in order |
| OllamaIntegration.NamesOf | src/integrations/ollama_client.py:35 | a name list, when read, has one name per model |
| OllamaIntegration.ModelNamesIff | src/integrations/ollama_client.py:34-35 | the model list reads for named entries, an empty dict or an empty string |
| OllamaIntegration.ModelNames | src/integrations/ollama_client.py:34-35 | the names counted are `len(models)` |
| OllamaIntegration.OllamaClient.constructor | src/integrations/ollama_client.py:14-18 | host and model from the settings or their defaults; timeout 30, three attempts |
| OllamaIntegration.OllamaClient.Generate | src/integrations/ollama_client.py:54-101 | at most three attempts; only timeouts are retried, and all earlier attempts timed out; a final timeout raises "Ollama request timed out"; a connection error raises "Ollama server unavailable" at once; otherwise the attempt's answer; `None` only when no attempt is allowed |
| OllamaIntegration.OllamaClient.HealthResult | src/integrations/ollama_client.py:20-52 | the status is connected, disconnected or error; disconnected exactly on a connection error, with its fixed message |
| OllamaIntegration.OllamaClient.HealthOfListing | src/integrations/ollama_client.py:34-42 | a good listing reports connected, the model count and whether the configured model is listed |
| OllamaIntegration.OllamaClient.Chat | src/integrations/ollama_client.py:103-134 | the reply to the chat request for the messages, model and temperature: its `message.content`, `''` when absent; `None` on every failure |
| OllamaIntegration.OllamaClient.EnsureModelLoaded | src/integrations/ollama_client.py:136-166 | no pull when the listing fails or lists the model; a pull asks for the configured model; true exactly when the listing succeeds or the pull is accepted |
| OllamaIntegration.Listed | src/integrations/ollama_client.py:145-146 | a failed request never lists models |
| Routes.Denial | src/api/routes.py:20-46 | the handler runs exactly when `API_KEY` is set, non-empty and equal to the header with every `Bearer ` removed; unset gives 500 CONFIGURATION_ERROR, a mismatch 401 UNAUTHORIZED |
| Routes.BearerHeaderAccepted | src/api/routes.py:24 | `Bearer <key>` passes |
| Routes.BareKeyAccepted | src/api/routes.py:24 | the bare key passes too |
| Routes.RepeatedPrefixAccepted | src/api/routes.py:24 | `Bearer Bearer <key>` passes as well, since every occurrence is removed |
| Routes.MissingHeaderRefused | src/api/routes.py:24-43 | a request without the header never passes |
| Routes.RequestOf | src/api/routes.py:87-93 | the start arguments give back the body's URL, branch (default `main`), lists (null when absent) and options (`{}` when absent) |
| Routes.Texts | src/api/routes.py:90-91 | the strings of a list of JSON strings, one per entry, in order |
| Routes.StringListRoundTrip | src/api/routes.py:90-91 | a list read from the body and stored again is the body's value |
| Routes.TriggerDecision | src/api/routes.py:73-93 | a check starts exactly when the body parses and validates to `""` |
| Routes.TriggerRefusal | src/api/routes.py:77-108 | a validation message gives 400 INVALID_REQUEST; a raised exception gives 500 INTERNAL_ERROR with its text |
| Routes.PyInt | src/api/routes.py:151-152 | `int()` accepts only text with something besides blanks |
| Routes.PyIntOfDecimal | src/api/routes.py:151 | decimal text reads back as its number |
| Routes.PyIntOfNegativeDecimal | src/api/routes.py:152 | a minus sign negates it |
| Routes.WithStatus | src/api/routes.py:157-158 | keeps exactly the records whose status equals the filter, each as often as before |
| Routes.WithRepository | src/api/routes.py:160-161 | raises exactly when some record's repository cannot be searched; otherwise keeps exactly the records containing the filter |
| Routes.RepositoryFilterOnNames | src/api/routes.py:161 | on a string repository the filter is a substring test |
| Routes.LaterTotalOrder | src/api/routes.py:164 | descending string order is a total order |
| Routes.NewestFirstCorrect | src/api/routes.py:164 | the sort is a permutation, non-increasing in `started_at`, stable among equal timestamps |
| Routes.SliceBound | src/api/routes.py:168 | a slice bound is clamped into the list and kept when already inside |
| Routes.PageWindow | src/api/routes.py:168 | for non-negative offset and limit: `min(limit, n - offset)` records from `offset`, in order |
| Routes.PagesTile | src/api/routes.py:168 | consecutive pages put together are the page spanning both |
| Routes.NegativeOffsetOnLongList | src/api/routes.py:168 | `offset + limit` is computed before normalisation, so `offset = -k` with `0 < k <= limit` on a longer list gives an empty page |
| Routes.NegativeOffsetFromEnd | src/api/routes.py:168 | `offset` = -k with `limit` < k <= n pages the `limit` records starting k from the end |
| Routes.PageSortedWindow | src/api/routes.py:168 | a page keeps only records of the list, in its order |
| Routes.SelectedCorrect | src/api/routes.py:154-161 | the filters raise exactly when the repository filter meets an unsearchable record; otherwise they keep exactly the admitted records with their multiplicity |
| Routes.NewestPage | src/api/routes.py:163-168 | a page of the sorted list has only selected records, newest first, and all of them when the window covers the list |
| Routes.ListingCorrect | src/api/routes.py:143-185 | 200 exactly when both numbers parse and the filters do not raise; `total` counts the filtered records; the page holds only admitted records, newest first, and every one of them when the window starts at 0 and covers the total; otherwise 500 "Failed to list checks" |
| Routes.WithoutDistinct | src/api/routes.py:239 | removing an id keeps the insertion order free of duplicates |
| Routes.Without | src/api/routes.py:239 | removing an id from the insertion order keeps exactly the other ids |
| Routes.Api.constructor | src/api/routes.py:16-18 | an empty store and insertion order, with a fresh checker holding no results |
| Routes.Api.Snapshot | src/api/routes.py:155 | `list(checks_store.values())` in insertion order |
| Routes.Api.TriggerCheck | src/api/routes.py:69-108 | a refusal leaves the store unchanged; success files the new record under its id in store and checker, answers 202 with the initial record, and keeps store and checker in step |
| Routes.Api.RunInBackground | src/core/checker.py:74-80 | the background run leaves the store's ids alone; a started check whose clone and load succeed ends `completed`, and the checker holds its report |
| Routes.Api.GetCheckStatus | src/api/routes.py:110-141 | 404 for an unknown id, else 200 with the shared record |
| Routes.Api.ListChecks | src/api/routes.py:143-185 | the guard, then the listing of the store's records in insertion order |
| Routes.Api.GetTodoReport | src/api/routes.py:187-223 | 404 for an unknown id; markdown exactly when the status is `completed`, else 400 "Check has not completed yet" |
| Routes.Api.DeleteCheck | src/api/routes.py:225-257 | 404 for an unknown id; else the id leaves the store, the order and both checker maps, whatever its status, and a later lookup gives 404 |
| Sorting.SortByCorrect | src/core/analyzer.py:49 | `list.sort(key=…)`: sorted, a permutation, and stable |
| Strings.ReplaceLeavesNoOccurrence | src/integrations/git_client.py:68 | `str.replace` with a replacement that cannot rebuild the pattern leaves no occurrence |
| Strings.ParseNatToString | src/core/analyzer.py:143 | decimal rendering reads back as the number |

## Code and design description

The model follows the code wherever the service's design description promises more. In the code:

- checks start at once as `started`; there is no `pending` state and no cap on concurrent checks;
- a clone is tried once, with no retry;
- the workspace guard is a plain string-prefix test (`GitIntegration.GuardAdmitsOutsidePaths`);
- a check can be deleted in any state;
- a failed spec load marks the check failed without removing the clone;
- a failed commit is logged and swallowed, and the check still completes;
- `files_analyzed` is 0 or 1, because analyzer issues carry no `file` key;
- every `.git` in the last URL segment is removed, not just a suffix;
- a negative `offset` is a Python slice bound counted from the end: `offset` = -k with 0 < k <= `limit` gives an empty page on a list longer than `limit`, while `limit` < k <= n gives the `limit` records from index n - k.

## Left out

- Concurrency: the background thread is one uninterrupted call (`Routes.Api.RunInBackground`, `Checker.ComplianceChecker.RunCheck`). Interleavings with requests served during a run are not modelled.
- `_load_specs` (src/core/checker.py:179-209) reads files only. It is the parameter `loadSpecs`, which returns the specs or raises.
- The report generator (src/core/report_generator.py) is not part of this model. It is the parameter `generateTodo`.
- `/health` and `check_ollama_health` are left out. They are Flask plumbing over `OllamaClient.HealthResult`, which is modelled.
- The `main` and logging modules, and every log call, are left out.
- Exception texts Python composes itself are names: "TypeError", "KeyError", "ValueError", "HTTPError", "JSONDecodeError". Only the service's own messages are exact.
- The temperature and `num_predict` values are built into the request payloads. The timeout is a constant of the client (`timeout`) and is not passed to the reply function. HTTP timing and the `ConnectTimeout` case (a subclass of both exception types) are not modelled. A reply is either a connection error or a timeout.
- Checker.ComplianceChecker.CommitTodo: writing TODO.md into the spec workspace is not modelled. The file system is reduced to the set of directories.
- GitIntegration.GitClient.CommitTodoFile: a `git clone` that fails or times out is taken to leave no directory behind, neither the workspace nor `spec-repos`. A killed clone may in fact leave a partial workspace, which the cleanup then removes anyway.
- GitIntegration.GitClient.CleanupWorkspace: failures of `shutil.rmtree` are not modelled. Deletion of the whole tree always succeeds.
- GitIntegration.CleanupAllowed: `..` is not normalised, just as in the code; the model does not say which directories such a path reaches.
- GitIntegration.GitClient.CommitTodoFile: any command may time out, including those run without a timeout. The text of a timeout passes through unredacted, as in the code.
- Validators.ValidateGitUrl: `\w` and `\d` take every Unicode decimal digit, as Python's do, but `\w` takes only the ASCII letters and `_`. Python's other Unicode word characters (non-ASCII letters, marks, other numerals) are not modelled, so the model rejects some URLs the code accepts.
- Analyzer: `\s`, `\d` and `strip()` use Python's Unicode whitespace and decimal digits. IGNORECASE is modelled by folding each character to the lower-case letter it matches; that fold is exact for the letters of the SHALL pattern (`ſ` as `s`, `İ` and `ı` as `i`). `lower()` folds ASCII letters only. That is exact for the `auth` test, because no other character lowers to `a`, `u`, `t` or `h`.
- Routes.PyInt: the `int()` forms with `_` separators are not modelled. Unicode blanks and decimal digits are read as Python reads them.
- Routes.StartedAt: a non-string `started_at` sorts as `""`. Python would raise when comparing it with a string. Records the checker files always hold a string.
- Routes.TriggerDecision: `request.get_json()` is its outcome (a JSON value, or the text of the exception raised for a malformed body). The 500 answers of the status, todo and delete handlers are left out, because nothing in their bodies raises in the model.
- Analyzer: the `options` argument and the Ollama client the analyzer holds are unused by the code and left out.
