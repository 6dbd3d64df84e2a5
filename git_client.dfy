/**
 * The git client (src/integrations/git_client.py): the clone URL with the token inserted,
 * the redaction of the token from error text, the commit message, the workspace paths,
 * and the workspace directories that cloning creates and cleanup deletes.
 *
 * Every `git` subprocess is a call of the parameter `git`, which says how the command
 * ended. The directories the client creates or deletes are the field `dirs` of a
 * `GitClient`. An unset token is the empty string: the code tests it for truthiness only.
 */
module GitIntegration {
  import opened Wrappers
  import opened Strings

  const WorkspaceBase := "/tmp/spec-checker"

  // ---------------------------------------------------------------------------------------
  // Strings
  // ---------------------------------------------------------------------------------------

  const HttpsScheme := "https://"

  /** `repo_url.replace('https://', f'https://{token}@')` when a token is given and the URL has the scheme. */
  function AuthUrl(repoUrl: string, token: string): string {
    if token != "" && Contains(repoUrl, HttpsScheme) then Replace(repoUrl, HttpsScheme, HttpsScheme + token + "@")
    else repoUrl
  }

  /** `error_msg.replace(token, '***') if token else error_msg` */
  function Redact(message: string, token: string): string {
    if token != "" then Replace(message, token, "***") else message
  }

  /** An https URL with one scheme prefix gets the token as the user part of its authority. */
  lemma {:induction false} AuthUrlInsertsToken(rest: string, token: string)
    requires token != "" && !Contains(rest, HttpsScheme)
    ensures AuthUrl(HttpsScheme + rest, token) == HttpsScheme + token + "@" + rest
  {
    var url := HttpsScheme + rest;
    assert OccursAt(url, HttpsScheme, 0);
    assert url[..|HttpsScheme|] == HttpsScheme && url[|HttpsScheme|..] == rest;
    ReplaceWithoutOccurrence(rest, HttpsScheme, HttpsScheme + token + "@");
  }

  /** Without a token, or without the https scheme, the URL is used as given. */
  lemma {:induction false} AuthUrlUnchanged(repoUrl: string, token: string)
    requires token == "" || !Contains(repoUrl, HttpsScheme)
    ensures AuthUrl(repoUrl, token) == repoUrl
  {
  }

  /** After redaction a token without `*` no longer occurs in the text. */
  lemma {:induction false} RedactHidesToken(message: string, token: string)
    requires token != "" && '*' !in token
    ensures !Contains(Redact(message, token), token)
  {
    ReplaceLeavesNoOccurrence(message, token, "***");
  }

  /** Text that does not contain the token is left as it is. */
  lemma {:induction false} RedactKeepsOtherText(message: string, token: string)
    requires token == "" || !Contains(message, token)
    ensures Redact(message, token) == message
  {
    if token != "" {
      ReplaceWithoutOccurrence(message, token, "***");
    }
  }

  // ---------------------------------------------------------------------------------------
  // The commit message
  // ---------------------------------------------------------------------------------------

  /** The `check_info` dictionary; `repository_url` and `branch` are read with defaults. */
  datatype CheckInfo = CheckInfo(checkId: string, repositoryUrl: Option<string>, branch: Option<string>, timestamp: string)

  const SubjectPrefix := "chore: Update compliance check results for "
  const CheckIdPrefix := "- Check ID: "
  const BranchPrefix := "- Branch: "
  const TimestampPrefix := "- Timestamp: "

  /** `"\n".join(lines)` */
  function JoinLines(lines: seq<string>): string
    requires |lines| > 0
  {
    if |lines| == 1 then lines[0] else lines[0] + "\n" + JoinLines(lines[1..])
  }

  /** The lines of the commit message: a subject, a blank line and three `- Key: value` lines. */
  function CommitLines(info: CheckInfo): seq<string> {
    [ SubjectPrefix + info.repositoryUrl.GetOr("repository"), "",
      CheckIdPrefix + info.checkId, BranchPrefix + info.branch.GetOr("main"),
      TimestampPrefix + info.timestamp ]
  }

  function CommitMessage(info: CheckInfo): string {
    JoinLines(CommitLines(info))
  }

  /** Reads the check information back from a commit message; None when it is not of that form. */
  function ParseCommitMessage(message: string): Option<CheckInfo> {
    var lines := Split(message, '\n');
    if |lines| == 5 && StartsWith(lines[0], SubjectPrefix) && lines[1] == ""
       && StartsWith(lines[2], CheckIdPrefix) && StartsWith(lines[3], BranchPrefix)
       && StartsWith(lines[4], TimestampPrefix)
    then Some(CheckInfo(
      lines[2][|CheckIdPrefix|..], Some(lines[0][|SubjectPrefix|..]),
      Some(lines[3][|BranchPrefix|..]), lines[4][|TimestampPrefix|..]))
    else None
  }

  /** Fills in the defaults the message uses for missing keys. */
  function WithDefaults(info: CheckInfo): CheckInfo {
    info.(repositoryUrl := Some(info.repositoryUrl.GetOr("repository")), branch := Some(info.branch.GetOr("main")))
  }

  lemma {:induction false} SplitJoinLines(lines: seq<string>)
    requires |lines| > 0 && forall k :: 0 <= k < |lines| ==> '\n' !in lines[k]
    ensures Split(JoinLines(lines), '\n') == lines
  {
    if |lines| == 1 {
      SplitWithoutSeparator(lines[0], '\n');
    } else {
      SplitJoinLines(lines[1..]);
      SplitWithoutSeparator(lines[0], '\n');
      SplitConcat(lines[0], JoinLines(lines[1..]), '\n');
      assert lines[0] + "\n" + JoinLines(lines[1..]) == lines[0] + ['\n'] + JoinLines(lines[1..]);
      assert lines == [lines[0]] + lines[1..];
    }
  }

  /** A commit message gives back the check information it was made from, when no value holds a newline. */
  lemma {:induction false} CommitMessageRoundTrip(info: CheckInfo)
    requires '\n' !in info.checkId && '\n' !in info.timestamp
    requires '\n' !in info.repositoryUrl.GetOr("repository") && '\n' !in info.branch.GetOr("main")
    ensures ParseCommitMessage(CommitMessage(info)) == Some(WithDefaults(info))
  {
    var lines := CommitLines(info);
    PrefixedLine(SubjectPrefix, info.repositoryUrl.GetOr("repository"));
    PrefixedLine(CheckIdPrefix, info.checkId);
    PrefixedLine(BranchPrefix, info.branch.GetOr("main"));
    PrefixedLine(TimestampPrefix, info.timestamp);
    SplitJoinLines(lines);
  }

  /** A line made of a prefix and a value: it holds no newline, and the value follows the prefix. */
  lemma {:induction false} PrefixedLine(prefix: string, value: string)
    requires '\n' !in prefix && '\n' !in value
    ensures '\n' !in prefix + value
    ensures StartsWith(prefix + value, prefix) && (prefix + value)[|prefix|..] == value
  {
    assert (prefix + value)[..|prefix|] == prefix;
  }

  // ---------------------------------------------------------------------------------------
  // Workspaces
  // ---------------------------------------------------------------------------------------

  /** `uuid.uuid4().hex`: 32 lower-case hexadecimal digits. */
  predicate IsUuidHex(id: string) {
    |id| == 32 && forall k :: 0 <= k < |id| ==> IsHexDigit(id[k])
  }

  /** `os.path.join(base, 'repos', workspace_id)` */
  function CloneWorkspace(base: string, workspaceId: string): string {
    Join(Join(base, "repos"), workspaceId)
  }

  /** `os.path.join(base, 'spec-repos', workspace_id)` */
  function SpecWorkspace(base: string, workspaceId: string): string {
    Join(Join(base, "spec-repos"), workspaceId)
  }

  /** A base directory path as `os.path.join` extends it: non-empty, without a trailing `/`. */
  predicate PlainDir(base: string) {
    base != [] && base[|base| - 1] != '/'
  }

  /** The workspaces lie in their own sub-directory of the base, named by the id. */
  lemma {:induction false} WorkspacePaths(base: string, id: string)
    requires PlainDir(base) && IsUuidHex(id)
    ensures Join(base, "repos") == base + "/" + "repos" && Join(base, "spec-repos") == base + "/" + "spec-repos"
    ensures CloneWorkspace(base, id) == base + "/" + "repos" + "/" + id
    ensures SpecWorkspace(base, id) == base + "/" + "spec-repos" + "/" + id
    ensures InTree(CloneWorkspace(base, id), base) && InTree(SpecWorkspace(base, id), base)
  {
    assert id[0] != '/';
    assert !EndsWith(base, "/") && !StartsWith(id, "/");
    var c := base + "/" + "repos" + "/" + id;
    var sp := base + "/" + "spec-repos" + "/" + id;
    assert c[..|base| + 1] == base + "/";
    assert sp[..|base| + 1] == base + "/";
  }

  /** Different ids give different workspaces, and a clone workspace is never a spec workspace. */
  lemma {:induction false} WorkspacesDistinct(base: string, a: string, b: string)
    requires PlainDir(base) && IsUuidHex(a) && IsUuidHex(b)
    ensures CloneWorkspace(base, a) == CloneWorkspace(base, b) ==> a == b
    ensures SpecWorkspace(base, a) == SpecWorkspace(base, b) ==> a == b
    ensures CloneWorkspace(base, a) != SpecWorkspace(base, b)
  {
    WorkspacePaths(base, a);
    WorkspacePaths(base, b);
    var n := |base|;
    assert CloneWorkspace(base, a)[n + 1] == 'r';
    assert SpecWorkspace(base, b)[n + 1] == 's';
    if CloneWorkspace(base, a) == CloneWorkspace(base, b) {
      assert a == CloneWorkspace(base, a)[n + 7..] == CloneWorkspace(base, b)[n + 7..] == b;
    }
    if SpecWorkspace(base, a) == SpecWorkspace(base, b) {
      assert a == SpecWorkspace(base, a)[n + 12..] == SpecWorkspace(base, b)[n + 12..] == b;
    }
  }

  /** `workspace.startswith(self.workspace_base)`: a plain string prefix test. */
  predicate CleanupAllowed(base: string, workspace: string) {
    StartsWith(workspace, base)
  }

  /** `path` is `dir` or lies in the tree below it. */
  predicate InTree(path: string, dir: string) {
    path == dir || StartsWith(path, dir + "/")
  }

  /** The directories that remain after `cleanup_workspace(workspace)`: `shutil.rmtree` deletes the whole tree. */
  function Cleaned(dirs: set<string>, base: string, workspace: string): (r: set<string>)
    ensures r <= dirs
  {
    if CleanupAllowed(base, workspace) && workspace in dirs then set d | d in dirs && !InTree(d, workspace)
    else dirs
  }

  /**
   * Cleanup deletes a directory only when the workspace passes the guard and the
   * directory lies in its tree; an existing workspace that passes is gone afterwards.
   */
  lemma {:induction false} CleanedDeletes(dirs: set<string>, base: string, workspace: string, d: string)
    ensures d in dirs && d !in Cleaned(dirs, base, workspace)
        <==> CleanupAllowed(base, workspace) && workspace in dirs && d in dirs && InTree(d, workspace)
  {
  }

  /** Everything cleanup deletes starts with the base path. */
  lemma {:induction false} CleanedOnlyBelowBase(dirs: set<string>, base: string, workspace: string, d: string)
    requires d in dirs && d !in Cleaned(dirs, base, workspace)
    ensures StartsWith(d, base)
  {
    assert d[..|base|] == workspace[..|base|];
  }

  /**
   * The guard is a prefix test on the text of the path: a sibling of the base whose name
   * extends it passes, and so does a path that climbs out of the base with `..`.
   */
  lemma {:induction false} GuardAdmitsOutsidePaths(base: string, sibling: string, climbing: string)
    requires PlainDir(base)
    requires sibling == base + "-other"
    requires climbing == base + "/../etc"
    ensures CleanupAllowed(base, sibling) && !InTree(sibling, base)
    ensures CleanupAllowed(base, climbing)
  {
    assert sibling[|base|] == '-';
    assert sibling[..|base|] == base;
    assert climbing[..|base|] == base;
  }

  lemma {:induction false} WorkspaceBasePlain()
    ensures PlainDir(WorkspaceBase)
  {
  }

  /** Cleanup of the base itself passes the guard and deletes every workspace below it. */
  lemma {:induction false} CleanupOfBaseDeletesAll(dirs: set<string>, base: string, id: string)
    requires PlainDir(base) && base in dirs && IsUuidHex(id)
    ensures CloneWorkspace(base, id) !in Cleaned(dirs, base, base)
    ensures SpecWorkspace(base, id) !in Cleaned(dirs, base, base)
  {
    WorkspacePaths(base, id);
  }

  /** A failed clone leaves no workspace behind: its path passes the guard. */
  lemma {:induction false} FailedCloneCleansUp(dirs: set<string>, base: string, id: string)
    requires PlainDir(base) && IsUuidHex(id)
    ensures CloneWorkspace(base, id) !in Cleaned(dirs + {Join(base, "repos"), CloneWorkspace(base, id)}, base, CloneWorkspace(base, id))
  {
    WorkspacePaths(base, id);
    assert CloneWorkspace(base, id)[..|base|] == base;
  }

  /**
   * Neither workspace of a run lies in the tree of the other, nor in that of a workspace of
   * another run, nor does the base or one of the directories that hold the workspaces.
   */
  lemma {:induction false} WorkspacesNotNested(base: string, id: string, other: string)
    requires PlainDir(base) && IsUuidHex(id) && IsUuidHex(other)
    ensures var ws := CloneWorkspace(base, id);
      && !InTree(base, ws) && !InTree(Join(base, "repos"), ws) && !InTree(Join(base, "spec-repos"), ws)
      && !InTree(SpecWorkspace(base, other), ws)
      && (other != id ==> !InTree(CloneWorkspace(base, other), ws))
    ensures var ws := SpecWorkspace(base, id);
      && !InTree(base, ws) && !InTree(Join(base, "repos"), ws) && !InTree(Join(base, "spec-repos"), ws)
      && !InTree(CloneWorkspace(base, other), ws)
      && (other != id ==> !InTree(SpecWorkspace(base, other), ws))
  {
    WorkspacePaths(base, id);
    WorkspacePaths(base, other);
    WorkspacesDistinct(base, id, other);
    WorkspacesDistinct(base, other, id);
    var n := |base|;
    assert SpecWorkspace(base, other)[n + 1] == 's' && CloneWorkspace(base, id)[n + 1] == 'r';
    assert SpecWorkspace(base, other)[..|CloneWorkspace(base, id) + "/"|][n + 1] == 's';
  }

  /**
   * The directories after `commit_todo_file`: a completed clone creates `spec-repos` and the
   * workspace, and the cleanup then deletes the workspace's tree.
   */
  function CommittedDirs(dirs: set<string>, base: string, workspace: string, clone: ProcessResult): set<string> {
    Cleaned(if clone.Completed? then dirs + {Join(base, "spec-repos"), workspace} else dirs, base, workspace)
  }

  /**
   * After `commit_todo_file` the spec workspace is gone, whether or not its clone completed;
   * every other directory that existed is still there, and so is `spec-repos` once created.
   */
  lemma {:induction false} CommitCleansUp(dirs: set<string>, base: string, id: string, clone: ProcessResult)
    requires PlainDir(base) && IsUuidHex(id)
    ensures SpecWorkspace(base, id) !in CommittedDirs(dirs, base, SpecWorkspace(base, id), clone)
    ensures forall d | d in dirs && d != SpecWorkspace(base, id) && !StartsWith(d, SpecWorkspace(base, id) + "/") ::
      d in CommittedDirs(dirs, base, SpecWorkspace(base, id), clone)
    ensures clone.Completed? ==> Join(base, "spec-repos") in CommittedDirs(dirs, base, SpecWorkspace(base, id), clone)
  {
    var ws := SpecWorkspace(base, id);
    WorkspacePaths(base, id);
    WorkspacesNotNested(base, id, id);
    assert ws[..|base|] == base;
    var made := if clone.Completed? then dirs + {Join(base, "spec-repos"), ws} else dirs;
    if ws in made {
      CleanedDeletes(made, base, ws, ws);
    }
    forall d | d in dirs && d != ws && !StartsWith(d, ws + "/")
      ensures d in CommittedDirs(dirs, base, ws, clone)
    {
      CleanedDeletes(made, base, ws, d);
    }
    if clone.Completed? {
      CleanedDeletes(made, base, ws, Join(base, "spec-repos"));
    }
  }

  // ---------------------------------------------------------------------------------------
  // Subprocesses and the client
  // ---------------------------------------------------------------------------------------

  /** A `git` command line and the directory it runs in. */
  datatype Command = Command(args: seq<string>, cwd: Option<string>)

  /**
   * How `subprocess.run(..., check=True)` ended: normally, with `CalledProcessError` (its
   * captured `stderr`, empty when none was captured, and its `str()`), or with `TimeoutExpired`.
   */
  datatype ProcessResult = Completed | Failed(stderr: string, text: string) | TimedOut(text: string)

  /** `e.stderr if e.stderr else str(e)` */
  function FailureText(res: ProcessResult): string
    requires res.Failed?
  {
    if res.stderr != "" then res.stderr else res.text
  }

  function CloneCommand(branch: string, authUrl: string, workspace: string): Command {
    Command(["git", "clone", "--depth", "1", "--branch", branch, "--single-branch", authUrl, workspace], None)
  }

  const CloneTimeoutMessage := "Clone operation timed out after 300 seconds"
  const CloneFailedPrefix := "Failed to clone repository: "
  const CommitFailedPrefix := "Failed to commit TODO.md: "
  const DefaultGitUser := "Spec Checker Bot"
  const DefaultGitEmail := "spec-checker@example.com"

  /** What `clone_repository` returns or raises, given how the `git clone` ended. */
  function CloneOutcome(res: ProcessResult, workspace: string, token: string): Outcome<string> {
    match res
    case Completed => Ok(workspace)
    case TimedOut(_) => Raised(CloneTimeoutMessage)
    case Failed(_, _) => Raised(CloneFailedPrefix + Redact(FailureText(res), token))
  }

  /** The error of a failed clone never shows a token that contains no `*`. */
  lemma {:induction false} CloneErrorHidesToken(res: ProcessResult, workspace: string, token: string)
    requires token != "" && '*' !in token && res.Failed?
    ensures var e := CloneOutcome(res, workspace, token).error;
      StartsWith(e, CloneFailedPrefix) && !Contains(e[|CloneFailedPrefix|..], token)
  {
    var redacted := Redact(FailureText(res), token);
    var e := CloneFailedPrefix + redacted;
    assert e[..|CloneFailedPrefix|] == CloneFailedPrefix && e[|CloneFailedPrefix|..] == redacted;
    RedactHidesToken(FailureText(res), token);
  }

  /** The `git clone` that `commit_todo_file` runs first: no branch, into the spec workspace. */
  function SpecCloneCommand(authUrl: string, workspace: string): Command {
    Command(["git", "clone", authUrl, workspace], None)
  }

  /** The commands `commit_todo_file` runs, in order; all but the clone run inside the workspace. */
  function CommitCommands(authUrl: string, workspace: string, user: string, email: string, message: string): seq<Command> {
    [ SpecCloneCommand(authUrl, workspace),
      Command(["git", "config", "user.name", user], Some(workspace)),
      Command(["git", "config", "user.email", email], Some(workspace)),
      Command(["git", "add", "TODO.md"], Some(workspace)),
      Command(["git", "commit", "-m", message], Some(workspace)),
      Command(["git", "push"], Some(workspace)) ]
  }

  /** How one command of `commit_todo_file` ends the call, if it does. */
  function StepOutcome(res: ProcessResult, token: string): Outcome<()> {
    match res
    case Completed => Ok(())
    case Failed(_, _) => Raised(CommitFailedPrefix + Redact(FailureText(res), token))
    case TimedOut(text) => Raised(text)
  }

  /**
   * What `commit_todo_file` returns or raises: the commands run in order until one does not
   * complete; a `CalledProcessError` is re-raised with the redacted text, a `TimeoutExpired`
   * passes through as it is.
   */
  function RunCommands(commands: seq<Command>, git: Command -> ProcessResult, token: string): Outcome<()> {
    if commands == [] then Ok(())
    else if !git(commands[0]).Completed? then StepOutcome(git(commands[0]), token)
    else RunCommands(commands[1..], git, token)
  }

  /** The commit succeeds exactly when every command completes. */
  lemma {:induction false} RunCommandsOkIff(commands: seq<Command>, git: Command -> ProcessResult, token: string)
    ensures RunCommands(commands, git, token) == Ok(())
        <==> forall j :: 0 <= j < |commands| ==> git(commands[j]).Completed?
  {
    if commands != [] && git(commands[0]).Completed? {
      RunCommandsOkIff(commands[1..], git, token);
      assert forall j :: 1 <= j < |commands| ==> commands[j] == commands[1..][j - 1];
    }
  }

  /** The first command that does not complete decides the exception. */
  lemma {:induction false} RunCommandsFirstFailure(commands: seq<Command>, git: Command -> ProcessResult, token: string, k: nat)
    requires k < |commands| && !git(commands[k]).Completed?
    requires forall j :: 0 <= j < k ==> git(commands[j]).Completed?
    ensures RunCommands(commands, git, token) == StepOutcome(git(commands[k]), token)
  {
    if k > 0 {
      assert git(commands[0]).Completed?;
      assert forall j :: 0 <= j < k - 1 ==> commands[1..][j] == commands[j + 1];
      RunCommandsFirstFailure(commands[1..], git, token, k - 1);
    }
  }

  class GitClient {
    const workspaceBase: string
    /** The directories below the base that exist. */
    var dirs: set<string>

    constructor()
      ensures workspaceBase == WorkspaceBase && dirs == {WorkspaceBase}
    {
      workspaceBase := WorkspaceBase;
      dirs := {WorkspaceBase};
    }

    /** `cleanup_workspace`: deletes the tree of a workspace that passes the guard and exists; never raises. */
    method CleanupWorkspace(workspace: string)
      modifies this
      ensures dirs == Cleaned(old(dirs), workspaceBase, workspace)
    {
      if StartsWith(workspace, workspaceBase) && workspace in dirs {
        dirs := set d | d in dirs && !InTree(d, workspace);
      }
    }

    /**
     * `clone_repository`: creates the workspace, runs `git clone` with the token in the URL,
     * and returns the workspace; on a timeout or a git failure it cleans the workspace up
     * before raising.
     */
    method CloneRepository(repoUrl: string, branch: string, token: string, workspaceId: string,
                           git: Command -> ProcessResult) returns (r: Outcome<string>)
      modifies this
      ensures var workspace := CloneWorkspace(workspaceBase, workspaceId);
        var res := git(CloneCommand(branch, AuthUrl(repoUrl, token), workspace));
        var made := old(dirs) + {Join(workspaceBase, "repos"), workspace};
        && r == CloneOutcome(res, workspace, token)
        && dirs == (if res.Completed? then made else Cleaned(made, workspaceBase, workspace))
    {
      var workspace := CloneWorkspace(workspaceBase, workspaceId);
      dirs := dirs + {Join(workspaceBase, "repos"), workspace};
      var authUrl := AuthUrl(repoUrl, token);
      var res := git(CloneCommand(branch, authUrl, workspace));
      match res {
        case Completed =>
          r := Ok(workspace);
        case TimedOut(_) =>
          CleanupWorkspace(workspace);
          r := Raised(CloneTimeoutMessage);
        case Failed(_, _) =>
          CleanupWorkspace(workspace);
          r := Raised(CloneFailedPrefix + Redact(FailureText(res), token));
      }
    }

    /**
     * `commit_todo_file`: clones the specification repository, commits TODO.md and pushes;
     * the first command that fails decides the exception, and the workspace is cleaned up
     * whatever happens.
     */
    method CommitTodoFile(specRepoUrl: string, info: CheckInfo, token: string, workspaceId: string,
                          gitUser: Option<string>, gitEmail: Option<string>,
                          git: Command -> ProcessResult) returns (r: Outcome<()>)
      modifies this
      ensures var workspace := SpecWorkspace(workspaceBase, workspaceId);
        var commands := CommitCommands(AuthUrl(specRepoUrl, token), workspace,
          gitUser.GetOr(DefaultGitUser), gitEmail.GetOr(DefaultGitEmail), CommitMessage(info));
        && r == RunCommands(commands, git, token)
        && dirs == CommittedDirs(old(dirs), workspaceBase, workspace, git(commands[0]))
    {
      var workspace := SpecWorkspace(workspaceBase, workspaceId);
      var commands := CommitCommands(AuthUrl(specRepoUrl, token), workspace,
        gitUser.GetOr(DefaultGitUser), gitEmail.GetOr(DefaultGitEmail), CommitMessage(info));
      ghost var done := 0;
      r := StepOutcome(git(commands[0]), token);
      if r.Ok? {
        dirs := dirs + {Join(workspaceBase, "spec-repos"), workspace};
        done := 1;
        r := StepOutcome(git(commands[1]), token);
      }
      if r.Ok? {
        done := 2;
        r := StepOutcome(git(commands[2]), token);
      }
      if r.Ok? {
        done := 3;
        r := StepOutcome(git(commands[3]), token);
      }
      if r.Ok? {
        done := 4;
        r := StepOutcome(git(commands[4]), token);
      }
      if r.Ok? {
        done := 5;
        r := StepOutcome(git(commands[5]), token);
      }
      if r.Ok? {
        assert forall j :: 0 <= j < |commands| ==> git(commands[j]).Completed? by {
          assert git(commands[0]).Completed? && git(commands[1]).Completed? && git(commands[2]).Completed?;
          assert git(commands[3]).Completed? && git(commands[4]).Completed? && git(commands[5]).Completed?;
        }
        RunCommandsOkIff(commands, git, token);
      } else {
        RunCommandsFirstFailure(commands, git, token, done);
      }
      CleanupWorkspace(workspace);
    }
  }
}
