/**
 * The check registry (src/core/checker.py): `start_check` files a new record,
 * `_run_check` drives one check through clone, spec loading, analysis, report
 * and commit while it updates the record's progress, and the lookups and
 * `delete_check` read and prune the two maps.
 *
 * A record is the dictionary the API layer also holds, so it is an object
 * (`CheckRecord`) whose field map both layers see. The background thread is one
 * sequential call of `RunCheck` that may happen at any time after
 * `StartCheck`; everything it gets from the outside (environment, uuids,
 * clock, git, the file system, the report generator) is a parameter.
 */
module Checker {
  import opened Wrappers
  import opened Json
  import opened Strings
  import Analyzer
  import GitIntegration

  const CheckIdPrefix := "chk_"
  const StatusStarted := "started"
  const StatusCompleted := "completed"
  const StatusFailed := "failed"

  const StartedMessage := "Compliance check started successfully"
  const CloningMessage := "Cloning repository..."
  const LoadingMessage := "Loading specifications..."
  const AnalyzingMessage := "Analyzing code..."
  const ReportingMessage := "Generating report..."
  const CompletedMessage := "Check completed"

  /** Stands for the text of the `KeyError` raised when a record lacks a key. */
  const KeyErrorName := "KeyError"
  const TodoFileSuffix := "/blob/main/TODO.md"

  // ---------------------------------------------------------------------------------------
  // Check ids and repository names

  /** `chk_` followed by twelve hexadecimal digits. */
  predicate IsCheckId(id: string) {
    |id| == 16 && StartsWith(id, CheckIdPrefix) && forall k | 4 <= k < 16 :: IsHexDigit(id[k])
  }

  /** `f"chk_{uuid.uuid4().hex[:12]}"`, given the uuid's hex form. */
  function CheckId(uuidHex: string): (id: string)
    requires GitIntegration.IsUuidHex(uuidHex)
    ensures IsCheckId(id)
    ensures id[4..] == uuidHex[..12]
  {
    CheckIdPrefix + uuidHex[..12]
  }

  /** Two uuids give the same check id exactly when their first twelve hex digits agree. */
  lemma CheckIdCollision(a: string, b: string)
    requires GitIntegration.IsUuidHex(a) && GitIntegration.IsUuidHex(b)
    ensures CheckId(a) == CheckId(b) <==> a[..12] == b[..12]
  {
    if CheckId(a) == CheckId(b) {
      assert CheckId(a)[4..] == CheckId(b)[4..];
    }
  }

  /** `repository_url.rstrip('/').split('/')[-1].replace('.git', '')` */
  function RepoName(url: string): string {
    Replace(Last(Split(StripTrailing(url, '/'), '/')), ".git", "")
  }

  /** The pieces `split` returns never contain the separator. */
  lemma {:induction false} SplitPartsLackSeparator(s: string, sep: char)
    ensures forall k | 0 <= k < |Split(s, sep)| :: sep !in Split(s, sep)[k]
    decreases |s|
  {
    if s != [] {
      SplitPartsLackSeparator(s[1..], sep);
      var rest := Split(s[1..], sep);
      if s[0] != sep {
        assert Split(s, sep) == [[s[0]] + rest[0]] + rest[1..];
        forall k | 0 <= k < |Split(s, sep)|
          ensures sep !in Split(s, sep)[k]
        {
          if k > 0 {
            assert Split(s, sep)[k] == rest[k];
          }
        }
      }
    }
  }

  /** Deleting a pattern never brings in a character the input did not have. */
  lemma {:induction false} RemovalKeepsCharacters(s: string, t: string, c: char)
    requires |t| > 0
    requires c !in s
    ensures c !in Replace(s, t, "")
    decreases |s|
  {
    if |s| >= |t| {
      if s[..|t|] == t {
        RemovalKeepsCharacters(s[|t|..], t, c);
        assert Replace(s, t, "") == Replace(s[|t|..], t, "");
      } else {
        RemovalKeepsCharacters(s[1..], t, c);
      }
    }
  }

  /** The repository name is one path segment: it never contains `/`. */
  lemma RepoNameIsSegment(url: string)
    ensures '/' !in RepoName(url)
  {
    var parts := Split(StripTrailing(url, '/'), '/');
    SplitPartsLackSeparator(StripTrailing(url, '/'), '/');
    assert '/' !in parts[|parts| - 1];
    RemovalKeepsCharacters(Last(parts), ".git", '/');
  }

  /** Trailing slashes make no difference to the name. */
  lemma RepoNameIgnoresTrailingSlash(url: string)
    ensures RepoName(url + "/") == RepoName(url)
  {
    assert (url + "/")[..|url|] == url;
  }

  /** For `<prefix>/<segment>` the name is the last segment with every `.git` removed. */
  lemma {:induction false} RepoNameOfSegment(prefix: string, segment: string)
    requires segment != [] && '/' !in segment
    ensures RepoName(prefix + "/" + segment) == Replace(segment, ".git", "")
  {
    var url := prefix + "/" + segment;
    assert url[|url| - 1] == segment[|segment| - 1];
    assert StripTrailing(url, '/') == url;
    SplitConcat(prefix, segment, '/');
    SplitWithoutSeparator(segment, '/');
  }

  /** `https://host/owner/name.git` names `name` when `name` has no `.git` of its own. */
  lemma {:induction false} RepoNameDropsGitSuffix(prefix: string, name: string)
    requires name != [] && '/' !in name && !Contains(name, ".git")
    ensures RepoName(prefix + "/" + name + ".git") == name
  {
    assert prefix + "/" + name + ".git" == prefix + "/" + (name + ".git");
    RepoNameOfSegment(prefix, name + ".git");
    forall i | 0 <= i < |name|
      ensures !OccursAt(name + ".git", ".git", i)
    {
      if OccursAt(name + ".git", ".git", i) {
        // an occurrence across the boundary would need a '.' where "git" is
        if i + 4 <= |name| {
          assert name[i..i + 4] == (name + ".git")[i..i + 4];
          assert OccursAt(name, ".git", i);
        }
        assert false;
      }
    }
    ReplaceConcat(name, ".git", ".git", "");
    assert Replace(".git", ".git", "") == "";
    assert name + "" == name;
  }

  /**
   * Every `.git` is removed, not only a suffix, in a single left-to-right pass, so the
   * name can still contain `.git`: `x.g.gitit` loses the `.git` in its middle and
   * becomes `x.git`.
   */
  lemma {:induction false} RepoNameSinglePass(prefix: string, front: string, back: string)
    requires front == "x.g" && back == "it"
    ensures RepoName(prefix + "/" + front + ".git" + back) == front + back
    ensures Contains(front + back, ".git")
  {
    var tail := ".git" + back;
    var seg := front + tail;
    assert prefix + "/" + front + ".git" + back == prefix + "/" + seg;
    RepoNameOfSegment(prefix, seg);
    assert seg[0] == 'x' && seg[2] == 'g' && seg[1..5] == ".g.g";
    assert !OccursAt(seg, ".git", 0) && !OccursAt(seg, ".git", 1) && !OccursAt(seg, ".git", 2);
    ReplaceConcat(front, tail, ".git", "");
    assert tail[..4] == ".git" && tail[4..] == back;
    assert Replace(tail, ".git", "") == Replace(back, ".git", "");
    assert OccursAt(front + back, ".git", 1);
  }

  // ---------------------------------------------------------------------------------------
  // Records

  /** The keys a check record can hold. */
  datatype Key =
    | CheckIdKey | StatusKey | RepositoryKey | RepositoryUrlKey | BranchKey | SpecFilesKey
    | TargetPathsKey | OptionsKey | StartedAtKey | EstimatedCompletionKey | ProgressKey
    | MessageKey | CompletedAtKey | ResultsKey | ErrorKey

  /** The dictionary key each `Key` stands for. */
  function KeyName(k: Key): string {
    match k
    case CheckIdKey => "check_id"
    case StatusKey => "status"
    case RepositoryKey => "repository"
    case RepositoryUrlKey => "repository_url"
    case BranchKey => "branch"
    case SpecFilesKey => "spec_files"
    case TargetPathsKey => "target_paths"
    case OptionsKey => "options"
    case StartedAtKey => "started_at"
    case EstimatedCompletionKey => "estimated_completion"
    case ProgressKey => "progress"
    case MessageKey => "message"
    case CompletedAtKey => "completed_at"
    case ResultsKey => "results"
    case ErrorKey => "error"
  }

  /** A check record: the dictionary shared by the registry and the API's store. */
  type Fields = map<Key, Json>

  /** `options or {}` */
  function OptionsOrEmpty(options: Json): (r: Json)
    ensures Truthy(options) ==> r == options
    ensures !Truthy(options) ==> r == JObject(map[])
  {
    if Truthy(options) then options else JObject(map[])
  }

  /** An optional list of strings as the record stores it (`None` is JSON null). */
  function StringListJson(xs: Option<seq<string>>): (r: Json)
    ensures xs.None? <==> r == JNull
    ensures xs.Some? ==> r.JArray? && |r.items| == |xs.value|
                         && forall i | 0 <= i < |xs.value| :: r.items[i] == JString(xs.value[i])
  {
    match xs
    case None => JNull
    case Some(l) => JArray(seq(|l|, i requires 0 <= i < |l| => JString(l[i])))
  }

  /** The dictionary `start_check` files and returns. */
  function InitialRecord(checkId: string, repositoryUrl: string, branch: string,
                         specFiles: Option<seq<string>>, targetPaths: Option<seq<string>>, options: Json,
                         startedAt: string, estimatedCompletion: string): Fields {
    map[
      CheckIdKey := JString(checkId),
      StatusKey := JString(StatusStarted),
      RepositoryKey := JString(RepoName(repositoryUrl)),
      RepositoryUrlKey := JString(repositoryUrl),
      BranchKey := JString(branch),
      SpecFilesKey := StringListJson(specFiles),
      TargetPathsKey := StringListJson(targetPaths),
      OptionsKey := OptionsOrEmpty(options),
      StartedAtKey := JString(startedAt),
      EstimatedCompletionKey := JString(estimatedCompletion),
      ProgressKey := JNumber(0.0),
      MessageKey := JString(StartedMessage)
    ]
  }

  /** What `_update_progress` writes into a record. */
  function Progress(progress: int, message: string): Fields {
    map[ProgressKey := JNumber(progress as real), MessageKey := JString(message)]
  }

  /** What the exception handler of `_run_check` writes into a record. */
  function FailedFields(completedAt: string, error: string): Fields {
    map[StatusKey := JString(StatusFailed), CompletedAtKey := JString(completedAt), ErrorKey := JString(error)]
  }

  // ---------------------------------------------------------------------------------------
  // The summary of a finished check

  /** `len([i for i in issues if i['severity'] == severity])` */
  function CountSeverity(issues: seq<Analyzer.Issue>, severity: string): (n: nat)
    ensures n <= |issues|
  {
    if issues == [] then 0
    else (if issues[0].severity == severity then 1 else 0) + CountSeverity(issues[1..], severity)
  }

  /** The four counts never exceed the total, and reach it when every severity is a known one. */
  lemma {:induction false} SeverityCountsBounded(issues: seq<Analyzer.Issue>)
    ensures CountSeverity(issues, "critical") + CountSeverity(issues, "high")
          + CountSeverity(issues, "medium") + CountSeverity(issues, "low") <= |issues|
    ensures (forall i | 0 <= i < |issues| :: issues[i].severity in Analyzer.KnownSeverities) ==>
      (CountSeverity(issues, "critical") + CountSeverity(issues, "high")
       + CountSeverity(issues, "medium") + CountSeverity(issues, "low") == |issues|)
  {
    if issues != [] {
      SeverityCountsBounded(issues[1..]);
      if forall i | 0 <= i < |issues| :: issues[i].severity in Analyzer.KnownSeverities {
        assert issues[0].severity in Analyzer.KnownSeverities;
        assert forall i | 0 <= i < |issues[1..]| :: issues[1..][i].severity in Analyzer.KnownSeverities by {
          forall i | 0 <= i < |issues[1..]|
            ensures issues[1..][i].severity in Analyzer.KnownSeverities
          {
            assert issues[1..][i] == issues[i + 1];
          }
        }
      }
    }
  }

  /** A severity count depends only on which issues there are, not on their order. */
  lemma {:induction false} CountSeverityOfConcat(a: seq<Analyzer.Issue>, b: seq<Analyzer.Issue>, severity: string)
    ensures CountSeverity(a + b, severity) == CountSeverity(a, severity) + CountSeverity(b, severity)
    decreases |a|
  {
    if a != [] {
      assert (a + b)[1..] == a[1..] + b;
      CountSeverityOfConcat(a[1..], b, severity);
    } else {
      assert a + b == b;
    }
  }

  /** `i.get('file', '')`: analyzer issues carry no `file` key. */
  function FileKey(issue: Analyzer.Issue): string {
    ""
  }

  /** `len(set(i.get('file', '') for i in issues))` */
  function FilesAnalyzed(issues: seq<Analyzer.Issue>): nat {
    |set i | i in issues :: FileKey(i)|
  }

  /** Since no issue names a file, `files_analyzed` is 0 for no issues and 1 otherwise. */
  lemma FilesAnalyzedAtMostOne(issues: seq<Analyzer.Issue>)
    ensures FilesAnalyzed(issues) == if issues == [] then 0 else 1
  {
    if issues != [] {
      assert issues[0] in issues;
      assert (set i | i in issues :: FileKey(i)) == {""};
    } else {
      assert (set i | i in issues :: FileKey(i)) == {};
    }
  }

  /** The `results` summary of a completed check. */
  function Summary(issues: seq<Analyzer.Issue>, specsChecked: nat, specRepoUrl: string): map<string, Json> {
    map[
      "total_issues" := JNumber(|issues| as real),
      "critical" := JNumber(CountSeverity(issues, "critical") as real),
      "high" := JNumber(CountSeverity(issues, "high") as real),
      "medium" := JNumber(CountSeverity(issues, "medium") as real),
      "low" := JNumber(CountSeverity(issues, "low") as real),
      "files_analyzed" := JNumber(FilesAnalyzed(issues) as real),
      "specs_checked" := JNumber(specsChecked as real),
      "todo_file_url" := if specRepoUrl != "" then JString(specRepoUrl + TodoFileSuffix) else JNull
    ]
  }

  /** The `result` dictionary of a completed check. */
  function ResultFields(checkId: string, repository: Json, branch: string, startedAt: Json,
                        completedAt: string, summary: map<string, Json>): Fields {
    map[
      CheckIdKey := JString(checkId),
      StatusKey := JString(StatusCompleted),
      RepositoryKey := repository,
      BranchKey := JString(branch),
      StartedAtKey := startedAt,
      CompletedAtKey := JString(completedAt),
      ProgressKey := JNumber(100.0),
      ResultsKey := JObject(summary)
    ]
  }

  // ---------------------------------------------------------------------------------------
  // The world a check runs in

  /** `GIT_TOKEN`, `SPEC_REPO_URL`, `GIT_USER_NAME`, `GIT_USER_EMAIL`; an unset token or URL is `""`. */
  datatype Environment = Environment(gitToken: string, specRepoUrl: string,
                                     gitUser: Option<string>, gitEmail: Option<string>)

  /**
   * The outside world of one run: git, `_load_specs` on the cloned repository, the
   * file system the analyzer walks, and the report generator.
   */
  datatype World = World(
    git: GitIntegration.Command -> GitIntegration.ProcessResult,
    loadSpecs: (string, Option<seq<string>>) -> Outcome<seq<Analyzer.SpecDoc>>,
    stat: string -> Analyzer.FsNode,
    read: string -> Option<string>,
    generateTodo: (string, string, seq<Analyzer.Issue>) -> string)

  /** What `clone_repository` returns or raises for a run. */
  function CloneResult(base: string, repositoryUrl: string, branch: string, token: string,
                       cloneId: string, git: GitIntegration.Command -> GitIntegration.ProcessResult): Outcome<string> {
    var workspace := GitIntegration.CloneWorkspace(base, cloneId);
    GitIntegration.CloneOutcome(
      git(GitIntegration.CloneCommand(branch, GitIntegration.AuthUrl(repositoryUrl, token), workspace)),
      workspace, token)
  }

  /** The issues `analyze_compliance` finds in a cloned repository. */
  function FoundIssues(repoPath: string, specs: seq<Analyzer.SpecDoc>, targetPaths: Option<seq<string>>,
                       world: World): seq<Analyzer.Issue> {
    Analyzer.SortBySeverity(Analyzer.AllSpecIssues(specs,
      Analyzer.CodeFilesOf(repoPath, Analyzer.ScanPaths(repoPath, targetPaths), world.stat), world.read))
  }

  /** A later progress update hides an earlier one. */
  lemma ProgressOverrides(fields: Fields, p: int, m: string, q: int, n: string)
    ensures fields + Progress(p, m) + Progress(q, n) == fields + Progress(q, n)
  {
  }

  // Extensions of a record's progress history, in the shapes the run's stages produce.
  // Stated apart so that the stage methods need not prove these sequence identities in
  // their own, much larger, verification conditions.

  lemma AppendTwo(h: seq<int>, a: int, b: int)
    ensures h + [a] + [b] == h + [a, b]
  {
  }

  lemma AppendOneThenTwo(h: seq<int>, a: int, b: int, c: int)
    ensures h + [a] + [b, c] == h + [a, b, c]
  {
  }

  lemma AppendOneThenThree(h: seq<int>, a: int, b: int, c: int, d: int)
    ensures h + [a] + [b, c, d] == h + [a, b, c, d]
  {
  }

  lemma AppendOneThenFour(h: seq<int>, a: int, b: int, c: int, d: int, e: int)
    ensures h + [a] + [b, c, d, e] == h + [a, b, c, d, e]
  {
  }

  /** The clone's workspace is gone after a cleanup the guard admits. */
  lemma CleanupRemoves(dirs: set<string>, base: string, workspace: string)
    requires GitIntegration.CleanupAllowed(base, workspace)
    ensures workspace !in GitIntegration.Cleaned(dirs, base, workspace)
  {
    if workspace in dirs {
      GitIntegration.CleanedDeletes(dirs, base, workspace, workspace);
    }
  }

  /**
   * The directories after the report step: `_commit_todo` clones the specification
   * repository and cleans its workspace up, when one is configured.
   */
  function ReportDirs(dirs: set<string>, base: string, env: Environment, world: World, commitId: string): set<string> {
    if env.specRepoUrl == "" then dirs
    else
      var workspace := GitIntegration.SpecWorkspace(base, commitId);
      GitIntegration.CommittedDirs(dirs, base, workspace,
        world.git(GitIntegration.SpecCloneCommand(GitIntegration.AuthUrl(env.specRepoUrl, env.gitToken), workspace)))
  }

  /** The directories after the report and completion steps; a check that completes removes its clone. */
  function FinalDirs(dirs: set<string>, base: string, repoPath: string, env: Environment, world: World,
                     commitId: string, completes: bool): set<string> {
    var report := ReportDirs(dirs, base, env, world, commitId);
    if completes then GitIntegration.Cleaned(report, base, repoPath) else report
  }

  /**
   * A run deletes no workspace of another run: however `_run_check` ends, another
   * check's clone and another commit's spec workspace are still there, and so are the
   * base and the directories that hold the workspaces.
   */
  lemma {:induction false} OtherWorkspacesSurvive(dirs: set<string>, base: string, env: Environment, world: World,
                                                  cloneId: string, commitId: string, other: string, completes: bool, d: string)
    requires GitIntegration.PlainDir(base)
    requires GitIntegration.IsUuidHex(cloneId) && GitIntegration.IsUuidHex(commitId) && GitIntegration.IsUuidHex(other)
    requires other != cloneId && other != commitId
    requires d in {base, Join(base, "repos"), Join(base, "spec-repos"),
                   GitIntegration.CloneWorkspace(base, other), GitIntegration.SpecWorkspace(base, other)}
    requires d in dirs
    ensures var workspace := GitIntegration.CloneWorkspace(base, cloneId);
      var made := dirs + {Join(base, "repos"), workspace};
      && d in GitIntegration.Cleaned(made, base, workspace)
      && d in FinalDirs(made, base, workspace, env, world, commitId, completes)
  {
    var workspace := GitIntegration.CloneWorkspace(base, cloneId);
    var made := dirs + {Join(base, "repos"), workspace};
    GitIntegration.WorkspacesNotNested(base, cloneId, other);
    GitIntegration.WorkspacesNotNested(base, commitId, other);
    GitIntegration.CleanedDeletes(made, base, workspace, d);
    var report := ReportDirs(made, base, env, world, commitId);
    if env.specRepoUrl != "" {
      var spec := GitIntegration.SpecWorkspace(base, commitId);
      var clone := world.git(GitIntegration.SpecCloneCommand(GitIntegration.AuthUrl(env.specRepoUrl, env.gitToken), spec));
      var cloned := if clone.Completed? then made + {Join(base, "spec-repos"), spec} else made;
      GitIntegration.CleanedDeletes(cloned, base, spec, d);
    }
    assert d in report;
    GitIntegration.CleanedDeletes(report, base, workspace, d);
  }

  /** The record holds the keys the completion step reads. */
  predicate Completes(fields: Fields) {
    RepositoryKey in fields && StartedAtKey in fields
  }

  /** The `result` of a completed check, built from its record and its summary. */
  function ResultOf(fields: Fields, checkId: string, branch: string, summary: map<string, Json>,
                    completedAt: string): Fields
    requires Completes(fields)
  {
    ResultFields(checkId, fields[RepositoryKey], branch, fields[StartedAtKey], completedAt, summary)
  }

  /**
   * The record after the completion step: the result merged in, or, when the record
   * lacks a key the step reads, the failure the `KeyError` causes.
   */
  function Completed(fields: Fields, checkId: string, branch: string, summary: map<string, Json>,
                     completedAt: string): (r: Fields)
    ensures StatusKey in r && (r[StatusKey] == JString(StatusCompleted) <==> Completes(fields))
    ensures Completes(fields) ==> ResultsKey in r && ProgressKey in r && r[ResultsKey] == JObject(summary) && r[ProgressKey] == JNumber(100.0)
    ensures !Completes(fields) ==> r[StatusKey] == JString(StatusFailed) && ErrorKey in r && r[ErrorKey] == JString(KeyErrorName)
    ensures r.Keys >= fields.Keys && CompletedAtKey in r && r[CompletedAtKey] == JString(completedAt)
  {
    if Completes(fields) then fields + ResultOf(fields, checkId, branch, summary, completedAt)
    else fields + FailedFields(completedAt, KeyErrorName)
  }

  /** `check_results[check_id]`: the result and the TODO.md text. */
  datatype StoredResult = StoredResult(result: Fields, todoContent: string)

  /** A per-check dictionary, shared by the registry and the API's store. */
  class CheckRecord {
    var fields: Fields
    /** The progress values written into the record, in order. */
    ghost var progressHistory: seq<int>

    constructor(initial: Fields)
      ensures fields == initial && progressHistory == []
    {
      fields := initial;
      progressHistory := [];
    }
  }

  class ComplianceChecker {
    const git: GitIntegration.GitClient
    var activeChecks: map<string, CheckRecord>
    var checkResults: map<string, StoredResult>

    constructor()
      ensures fresh(git) && git.workspaceBase == GitIntegration.WorkspaceBase
      ensures git.dirs == {GitIntegration.WorkspaceBase}
      ensures activeChecks == map[] && checkResults == map[]
    {
      git := new GitIntegration.GitClient();
      activeChecks := map[];
      checkResults := map[];
    }

    /**
     * `start_check`: files a fresh record under a new id and returns it; the run
     * itself is `RunCheck`.
     */
    method StartCheck(repositoryUrl: string, branch: string, specFiles: Option<seq<string>>,
                      targetPaths: Option<seq<string>>, options: Json, uuidHex: string,
                      startedAt: string, estimatedCompletion: string) returns (record: CheckRecord)
      requires GitIntegration.IsUuidHex(uuidHex)
      modifies this
      ensures fresh(record)
      ensures record.fields == InitialRecord(CheckId(uuidHex), repositoryUrl, branch, specFiles, targetPaths,
                                             options, startedAt, estimatedCompletion)
      ensures activeChecks == old(activeChecks)[CheckId(uuidHex) := record]
      ensures checkResults == old(checkResults)
    {
      var checkId := CheckId(uuidHex);
      record := new CheckRecord(InitialRecord(checkId, repositoryUrl, branch, specFiles, targetPaths,
                                              options, startedAt, estimatedCompletion));
      activeChecks := activeChecks[checkId := record];
    }

    /** `_update_progress`: sets progress and message of an existing record; an unknown id is ignored. */
    method UpdateProgress(checkId: string, progress: int, message: string)
      modifies if checkId in activeChecks then {activeChecks[checkId]} else {}
      ensures checkId in activeChecks ==>
        && activeChecks[checkId].fields == old(activeChecks[checkId].fields) + Progress(progress, message)
        && activeChecks[checkId].progressHistory == old(activeChecks[checkId].progressHistory) + [progress]
    {
      if checkId in activeChecks {
        var record := activeChecks[checkId];
        record.fields := record.fields[ProgressKey := JNumber(progress as real)];
        record.fields := record.fields[MessageKey := JString(message)];
        record.progressHistory := record.progressHistory + [progress];
      }
    }

    /** The exception handler of `_run_check`; without the record the `KeyError` escapes the thread. */
    method MarkFailed(checkId: string, completedAt: string, error: string)
      modifies if checkId in activeChecks then {activeChecks[checkId]} else {}
      ensures checkId in activeChecks ==>
        && activeChecks[checkId].fields == old(activeChecks[checkId].fields) + FailedFields(completedAt, error)
        && activeChecks[checkId].progressHistory == old(activeChecks[checkId].progressHistory)
    {
      if checkId in activeChecks {
        var record := activeChecks[checkId];
        record.fields := record.fields + FailedFields(completedAt, error);
      }
    }

    /**
     * `_run_check`: progress 10 and the clone, then `LoadStage`. A failing clone marks
     * the record failed with the exception's text; the client has already removed
     * the partial clone.
     */
    method RunCheck(checkId: string, repositoryUrl: string, branch: string, specFiles: Option<seq<string>>,
                    targetPaths: Option<seq<string>>, env: Environment, world: World,
                    cloneId: string, commitId: string, completedAt: string, commitTimestamp: string)
      modifies this, git, if checkId in activeChecks then {activeChecks[checkId]} else {}
      ensures activeChecks == old(activeChecks)
      ensures var clone := CloneResult(git.workspaceBase, repositoryUrl, branch, env.gitToken, cloneId, world.git);
        var workspace := GitIntegration.CloneWorkspace(git.workspaceBase, cloneId);
        var made := old(git.dirs) + {Join(git.workspaceBase, "repos"), workspace};
        clone.Raised? ==>
          && checkResults == old(checkResults)
          && git.dirs == GitIntegration.Cleaned(made, git.workspaceBase, workspace)
          && (checkId in activeChecks ==>
                && activeChecks[checkId].fields == old(activeChecks[checkId].fields)
                   + Progress(10, CloningMessage) + FailedFields(completedAt, clone.error)
                && activeChecks[checkId].progressHistory == old(activeChecks[checkId].progressHistory) + [10])
      ensures var clone := CloneResult(git.workspaceBase, repositoryUrl, branch, env.gitToken, cloneId, world.git);
        var workspace := GitIntegration.CloneWorkspace(git.workspaceBase, cloneId);
        var made := old(git.dirs) + {Join(git.workspaceBase, "repos"), workspace};
        var loaded := world.loadSpecs(workspace, specFiles);
        clone.Ok? && loaded.Raised? ==>
          && checkResults == old(checkResults)
          && git.dirs == made
          && (checkId in activeChecks ==>
                && activeChecks[checkId].fields == old(activeChecks[checkId].fields)
                   + Progress(30, LoadingMessage) + FailedFields(completedAt, loaded.error)
                && activeChecks[checkId].progressHistory == old(activeChecks[checkId].progressHistory) + [10, 30])
      ensures var clone := CloneResult(git.workspaceBase, repositoryUrl, branch, env.gitToken, cloneId, world.git);
        var workspace := GitIntegration.CloneWorkspace(git.workspaceBase, cloneId);
        var made := old(git.dirs) + {Join(git.workspaceBase, "repos"), workspace};
        var loaded := world.loadSpecs(workspace, specFiles);
        clone.Ok? && loaded.Ok? ==>
          && git.dirs == FinalDirs(made, git.workspaceBase, workspace, env, world, commitId,
               checkId in activeChecks && Completes(old(activeChecks[checkId].fields) + Progress(100, CompletedMessage)))
          && (checkId !in activeChecks ==> checkResults == old(checkResults))
          && (checkId in activeChecks ==>
                var issues := FoundIssues(workspace, loaded.value, targetPaths, world);
                var summary := Summary(issues, |loaded.value|, env.specRepoUrl);
                var done := old(activeChecks[checkId].fields) + Progress(100, CompletedMessage);
                && activeChecks[checkId].fields == Completed(done, checkId, branch, summary, completedAt)
                && activeChecks[checkId].progressHistory == old(activeChecks[checkId].progressHistory) + [10, 30, 50, 80, 100]
                && (Completes(done) ==>
                      && checkResults == old(checkResults)[checkId := StoredResult(
                           ResultOf(done, checkId, branch, summary, completedAt), world.generateTodo(repositoryUrl, branch, issues))]
                      && (GitIntegration.CleanupAllowed(git.workspaceBase, workspace) ==> workspace !in git.dirs))
                && (!Completes(done) ==> checkResults == old(checkResults)))
    {
      UpdateProgress(checkId, 10, CloningMessage);
      var clone := git.CloneRepository(repositoryUrl, branch, env.gitToken, cloneId, world.git);
      if clone.Raised? {
        MarkFailed(checkId, completedAt, clone.error);
        return;
      }
      LoadStage(checkId, repositoryUrl, branch, clone.value, specFiles, targetPaths, env, world,
                commitId, completedAt, commitTimestamp);
      if checkId in activeChecks {
        var start := old(activeChecks[checkId].fields);
        ProgressOverrides(start, 10, CloningMessage, 30, LoadingMessage);
        ProgressOverrides(start, 10, CloningMessage, 100, CompletedMessage);
        AppendOneThenFour(old(activeChecks[checkId].progressHistory), 10, 30, 50, 80, 100);
        AppendTwo(old(activeChecks[checkId].progressHistory), 10, 30);
      }
    }

    /**
     * Progress 30 and the loading of the specs, then `FinishCheck`. A failing load
     * marks the record failed and returns without cleaning up: the clone stays on disk.
     */
    method LoadStage(checkId: string, repositoryUrl: string, branch: string, repoPath: string,
                     specFiles: Option<seq<string>>, targetPaths: Option<seq<string>>, env: Environment, world: World,
                     commitId: string, completedAt: string, commitTimestamp: string)
      modifies this, git, if checkId in activeChecks then {activeChecks[checkId]} else {}
      ensures activeChecks == old(activeChecks)
      ensures var loaded := world.loadSpecs(repoPath, specFiles);
        loaded.Raised? ==>
          && checkResults == old(checkResults)
          && git.dirs == old(git.dirs)
          && (checkId in activeChecks ==>
                && activeChecks[checkId].fields == old(activeChecks[checkId].fields)
                   + Progress(30, LoadingMessage) + FailedFields(completedAt, loaded.error)
                && activeChecks[checkId].progressHistory == old(activeChecks[checkId].progressHistory) + [30])
      ensures var loaded := world.loadSpecs(repoPath, specFiles);
        loaded.Ok? ==>
          && git.dirs == FinalDirs(old(git.dirs), git.workspaceBase, repoPath, env, world, commitId,
               checkId in activeChecks && Completes(old(activeChecks[checkId].fields) + Progress(100, CompletedMessage)))
          && (checkId !in activeChecks ==> checkResults == old(checkResults))
          && (checkId in activeChecks ==>
                var issues := FoundIssues(repoPath, loaded.value, targetPaths, world);
                var summary := Summary(issues, |loaded.value|, env.specRepoUrl);
                var done := old(activeChecks[checkId].fields) + Progress(100, CompletedMessage);
                && activeChecks[checkId].fields == Completed(done, checkId, branch, summary, completedAt)
                && activeChecks[checkId].progressHistory == old(activeChecks[checkId].progressHistory) + [30, 50, 80, 100]
                && (Completes(done) ==>
                      && checkResults == old(checkResults)[checkId := StoredResult(
                           ResultOf(done, checkId, branch, summary, completedAt), world.generateTodo(repositoryUrl, branch, issues))]
                      && (GitIntegration.CleanupAllowed(git.workspaceBase, repoPath) ==> repoPath !in git.dirs))
                && (!Completes(done) ==> checkResults == old(checkResults)))
    {
      UpdateProgress(checkId, 30, LoadingMessage);
      var loaded := world.loadSpecs(repoPath, specFiles);
      if loaded.Raised? {
        MarkFailed(checkId, completedAt, loaded.error);
        return;
      }
      FinishCheck(checkId, repositoryUrl, branch, repoPath, loaded.value, targetPaths, env, world,
                  commitId, completedAt, commitTimestamp);
      if checkId in activeChecks {
        ProgressOverrides(old(activeChecks[checkId].fields), 30, LoadingMessage, 100, CompletedMessage);
        AppendOneThenThree(old(activeChecks[checkId].progressHistory), 30, 50, 80, 100);
      }
    }

    /** The rest of `_run_check` once the specs are loaded: `AnalyzeStage`, then `ReportStage`. */
    method FinishCheck(checkId: string, repositoryUrl: string, branch: string, repoPath: string,
                       specs: seq<Analyzer.SpecDoc>, targetPaths: Option<seq<string>>, env: Environment, world: World,
                       commitId: string, completedAt: string, commitTimestamp: string)
      modifies this, git, if checkId in activeChecks then {activeChecks[checkId]} else {}
      ensures activeChecks == old(activeChecks)
      ensures git.dirs == FinalDirs(old(git.dirs), git.workspaceBase, repoPath, env, world, commitId,
        checkId in activeChecks && Completes(old(activeChecks[checkId].fields) + Progress(100, CompletedMessage)))
      ensures checkId !in activeChecks ==> checkResults == old(checkResults)
      ensures checkId in activeChecks ==>
        var issues := FoundIssues(repoPath, specs, targetPaths, world);
        var summary := Summary(issues, |specs|, env.specRepoUrl);
        var done := old(activeChecks[checkId].fields) + Progress(100, CompletedMessage);
        && activeChecks[checkId].fields == Completed(done, checkId, branch, summary, completedAt)
        && activeChecks[checkId].progressHistory == old(activeChecks[checkId].progressHistory) + [50, 80, 100]
        && (Completes(done) ==>
              && checkResults == old(checkResults)[checkId := StoredResult(
                   ResultOf(done, checkId, branch, summary, completedAt), world.generateTodo(repositoryUrl, branch, issues))]
              && (GitIntegration.CleanupAllowed(git.workspaceBase, repoPath) ==> repoPath !in git.dirs))
        && (!Completes(done) ==> checkResults == old(checkResults))
    {
      var issues := AnalyzeStage(checkId, repoPath, specs, targetPaths, world);
      assert git.dirs == old(git.dirs);
      if checkId !in activeChecks {
        ReportStage(checkId, repositoryUrl, branch, repoPath, issues, |specs|, env, world, commitId, completedAt, commitTimestamp);
        return;
      }
      ghost var record := activeChecks[checkId];
      ghost var start, history := old(record.fields), old(record.progressHistory);
      ghost var done := start + Progress(100, CompletedMessage);
      ProgressOverrides(start, 50, AnalyzingMessage, 100, CompletedMessage);
      AppendOneThenTwo(history, 50, 80, 100);
      assert record.fields + Progress(100, CompletedMessage) == done;
      ReportStage(checkId, repositoryUrl, branch, repoPath, issues, |specs|, env, world, commitId, completedAt, commitTimestamp);
    }

    /** Progress 50 and the analysis. */
    method AnalyzeStage(checkId: string, repoPath: string, specs: seq<Analyzer.SpecDoc>,
                        targetPaths: Option<seq<string>>, world: World) returns (issues: seq<Analyzer.Issue>)
      modifies if checkId in activeChecks then {activeChecks[checkId]} else {}
      ensures issues == FoundIssues(repoPath, specs, targetPaths, world)
      ensures checkId in activeChecks ==>
        && activeChecks[checkId].fields == old(activeChecks[checkId].fields) + Progress(50, AnalyzingMessage)
        && activeChecks[checkId].progressHistory == old(activeChecks[checkId].progressHistory) + [50]
    {
      UpdateProgress(checkId, 50, AnalyzingMessage);
      issues := AnalyzeIssues(repoPath, specs, targetPaths, world);
    }

    /**
     * Progress 80, the report and, with a spec repository configured, its commit,
     * progress 100, then `CompleteCheck`.
     */
    method ReportStage(checkId: string, repositoryUrl: string, branch: string, repoPath: string,
                       issues: seq<Analyzer.Issue>, specsChecked: nat, env: Environment, world: World,
                       commitId: string, completedAt: string, commitTimestamp: string)
      modifies this, git, if checkId in activeChecks then {activeChecks[checkId]} else {}
      ensures activeChecks == old(activeChecks)
      ensures git.dirs == FinalDirs(old(git.dirs), git.workspaceBase, repoPath, env, world, commitId,
        checkId in activeChecks && Completes(old(activeChecks[checkId].fields) + Progress(100, CompletedMessage)))
      ensures checkId !in activeChecks ==> checkResults == old(checkResults)
      ensures checkId in activeChecks ==>
        var summary := Summary(issues, specsChecked, env.specRepoUrl);
        var done := old(activeChecks[checkId].fields) + Progress(100, CompletedMessage);
        && activeChecks[checkId].fields == Completed(done, checkId, branch, summary, completedAt)
        && activeChecks[checkId].progressHistory == old(activeChecks[checkId].progressHistory) + [80, 100]
        && (Completes(done) ==>
              && checkResults == old(checkResults)[checkId := StoredResult(
                   ResultOf(done, checkId, branch, summary, completedAt), world.generateTodo(repositoryUrl, branch, issues))]
              && (GitIntegration.CleanupAllowed(git.workspaceBase, repoPath) ==> repoPath !in git.dirs))
        && (!Completes(done) ==> checkResults == old(checkResults))
    {
      UpdateProgress(checkId, 80, ReportingMessage);
      var todo := world.generateTodo(repositoryUrl, branch, issues);
      if env.specRepoUrl != "" {
        CommitTodo(checkId, repositoryUrl, branch, env, world, commitId, commitTimestamp);
      }
      UpdateProgress(checkId, 100, CompletedMessage);
      if checkId in activeChecks {
        ProgressOverrides(old(activeChecks[checkId].fields), 80, ReportingMessage, 100, CompletedMessage);
        AppendTwo(old(activeChecks[checkId].progressHistory), 80, 100);
      }
      ghost var dirs := git.dirs;
      CompleteCheck(checkId, branch, repoPath, Summary(issues, specsChecked, env.specRepoUrl), todo, completedAt);
      if GitIntegration.CleanupAllowed(git.workspaceBase, repoPath) {
        CleanupRemoves(dirs, git.workspaceBase, repoPath);
      }
    }

    /**
     * The completion step of `_run_check`: store the result and the report, merge the
     * result into the record and clean the clone up. A record that has vanished, or
     * lacks `repository` or `started_at`, raises `KeyError` instead, which the
     * handler turns into a failure (or, with no record, lets escape).
     */
    method CompleteCheck(checkId: string, branch: string, repoPath: string, summary: map<string, Json>,
                         todo: string, completedAt: string)
      modifies this, git, if checkId in activeChecks then {activeChecks[checkId]} else {}
      ensures activeChecks == old(activeChecks)
      ensures checkId in activeChecks ==>
        && activeChecks[checkId].fields == Completed(old(activeChecks[checkId].fields), checkId, branch, summary, completedAt)
        && activeChecks[checkId].progressHistory == old(activeChecks[checkId].progressHistory)
      ensures checkId in activeChecks && Completes(old(activeChecks[checkId].fields)) ==>
        && checkResults == old(checkResults)[checkId := StoredResult(
             ResultOf(old(activeChecks[checkId].fields), checkId, branch, summary, completedAt), todo)]
        && git.dirs == GitIntegration.Cleaned(old(git.dirs), git.workspaceBase, repoPath)
      ensures !(checkId in activeChecks && Completes(old(activeChecks[checkId].fields))) ==>
        checkResults == old(checkResults) && git.dirs == old(git.dirs)
    {
      if checkId !in activeChecks || !Completes(activeChecks[checkId].fields) {
        MarkFailed(checkId, completedAt, KeyErrorName);
        return;
      }
      var record := activeChecks[checkId];
      var result := ResultOf(record.fields, checkId, branch, summary, completedAt);
      checkResults := checkResults[checkId := StoredResult(result, todo)];
      record.fields := record.fields + result;
      git.CleanupWorkspace(repoPath);
    }

    /** The analyzer's `analyze_compliance` on the clone. */
    method AnalyzeIssues(repoPath: string, specs: seq<Analyzer.SpecDoc>, targetPaths: Option<seq<string>>, world: World)
      returns (issues: seq<Analyzer.Issue>)
      ensures issues == FoundIssues(repoPath, specs, targetPaths, world)
    {
      issues := Analyzer.AnalyzeCompliance(repoPath, specs, targetPaths, world.stat, world.read);
    }

    /**
     * `_commit_todo`: commits TODO.md to the spec repository; a failure is logged
     * and swallowed, and the spec workspace is cleaned up either way.
     */
    method CommitTodo(checkId: string, repositoryUrl: string, branch: string, env: Environment, world: World,
                      commitId: string, commitTimestamp: string)
      modifies git
      requires env.specRepoUrl != ""
      ensures git.dirs == ReportDirs(old(git.dirs), git.workspaceBase, env, world, commitId)
      ensures var workspace := GitIntegration.SpecWorkspace(git.workspaceBase, commitId);
        GitIntegration.CleanupAllowed(git.workspaceBase, workspace) ==> workspace !in git.dirs
    {
      var _ := git.CommitTodoFile(env.specRepoUrl,
        GitIntegration.CheckInfo(checkId, Some(repositoryUrl), Some(branch), commitTimestamp),
        env.gitToken, commitId, env.gitUser, env.gitEmail, world.git);
    }

    /** `get_check_status`: the record filed under the id, if any. */
    function GetCheckStatus(checkId: string): (r: Option<CheckRecord>)
      reads this
      ensures r.Some? <==> checkId in activeChecks
      ensures r.Some? ==> r.value == activeChecks[checkId]
    {
      if checkId in activeChecks then Some(activeChecks[checkId]) else None
    }

    /** `get_todo_content`: the stored report text, `''` for an id without a result. */
    function GetTodoContent(checkId: string): (r: string)
      reads this
      ensures checkId !in checkResults ==> r == ""
      ensures checkId in checkResults ==> r == checkResults[checkId].todoContent
    {
      if checkId in checkResults then checkResults[checkId].todoContent else ""
    }

    /** `delete_check`: drops the id from both maps; an unknown id changes nothing. */
    method DeleteCheck(checkId: string)
      modifies this
      ensures activeChecks == old(activeChecks) - {checkId}
      ensures checkResults == old(checkResults) - {checkId}
    {
      if checkId in activeChecks {
        activeChecks := activeChecks - {checkId};
      }
      if checkId in checkResults {
        checkResults := checkResults - {checkId};
      }
    }
  }
}
