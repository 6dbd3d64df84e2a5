/**
 * The spec analyzer (src/core/analyzer.py): requirement extraction from a specification
 * text, the keyword heuristic that turns an authentication requirement without evidence
 * into an issue, the selection of code files in a cloned repository, and the ordering of
 * the issues by severity.
 *
 * The file system is given as data: `stat` tells what a path names, a directory carries
 * its listing as a `Tree`, and `read` gives the text of a code file, or None when the file
 * does not exist or cannot be read.
 */
module Analyzer {
  import opened Wrappers
  import opened Strings
  import opened Sorting
  import opened SpecPatterns

  /** One issue; the optional parts are the dictionary keys only some issues carry. */
  datatype Issue = Issue(
    severity: string,
    kind: string,
    title: string,
    specFile: string,
    requirementId: Option<string>,
    requirementText: Option<string>,
    description: string,
    suggestion: string,
    filesChecked: Option<nat>)

  datatype Requirement = Requirement(id: string, text: string)

  /** One loaded specification: its path in the repository and its text. */
  datatype SpecDoc = SpecDoc(file: string, content: string)

  // ---------------------------------------------------------------------------------------
  // Severity order

  const KnownSeverities: set<string> := {"critical", "high", "medium", "low"}

  /** The sort key: critical, high, medium, low in that order, anything else last. */
  function SeverityRank(severity: string): (rank: nat)
    ensures rank <= 3 <==> severity in KnownSeverities
    ensures severity !in KnownSeverities ==> rank == 99
    ensures severity == "critical" ==> rank == 0
    ensures severity == "low" ==> rank == 3
  {
    if severity == "critical" then 0
    else if severity == "high" then 1
    else if severity == "medium" then 2
    else if severity == "low" then 3
    else 99
  }

  function IssueRank(issue: Issue): nat {
    SeverityRank(issue.severity)
  }

  predicate RankLe(a: nat, b: nat) {
    a <= b
  }

  /** `issues.sort(key=rank)`: Python's sort is stable. */
  function SortBySeverity(issues: seq<Issue>): seq<Issue> {
    SortBy(issues, IssueRank, RankLe)
  }

  /**
   * The sorted list is a permutation of the input, ordered by rank, and issues of equal
   * rank keep their input order.
   */
  lemma {:induction false} SortBySeverityCorrect(issues: seq<Issue>)
    ensures var r := SortBySeverity(issues);
      && multiset(r) == multiset(issues)
      && (forall i, j :: 0 <= i < j < |r| ==> IssueRank(r[i]) <= IssueRank(r[j]))
      && (forall k :: WithKey(r, IssueRank, k) == WithKey(issues, IssueRank, k))
  {
    assert TotalOrder(RankLe);
    SortByCorrect(issues, IssueRank, RankLe);
  }

  // ---------------------------------------------------------------------------------------
  // Requirement extraction

  function IdRequirement(s: string, m: IdMatch): Requirement
    requires m.start <= m.idEnd <= m.textStart <= m.end <= |s|
  {
    Requirement(s[m.start..m.idEnd], Strip(s[m.textStart..m.end]))
  }

  /** The `i`-th SHALL match (from 0) becomes `REQ-<i+1>` with the whole stripped match as text. */
  function ShallRequirement(s: string, m: ShallMatch, i: nat): Requirement
    requires m.start <= m.end <= |s|
  {
    Requirement("REQ-" + NatToString(i + 1), Strip(s[m.start..m.end]))
  }

  /** One requirement per id-pattern match, in match order. */
  function IdRequirements(s: string, ms: seq<IdMatch>): (reqs: seq<Requirement>)
    requires forall i :: 0 <= i < |ms| ==> ms[i].start <= ms[i].idEnd <= ms[i].textStart <= ms[i].end <= |s|
    ensures |reqs| == |ms|
  {
    if ms == [] then [] else IdRequirements(s, ms[..|ms| - 1]) + [IdRequirement(s, ms[|ms| - 1])]
  }

  /** One requirement per SHALL match, numbered from `REQ-1`. */
  function ShallRequirements(s: string, ms: seq<ShallMatch>): (reqs: seq<Requirement>)
    requires forall i :: 0 <= i < |ms| ==> ms[i].start <= ms[i].end <= |s|
    ensures |reqs| == |ms|
  {
    if ms == [] then [] else ShallRequirements(s, ms[..|ms| - 1]) + [ShallRequirement(s, ms[|ms| - 1], |ms| - 1)]
  }

  lemma {:induction false} IdRequirementsAt(s: string, ms: seq<IdMatch>, i: nat)
    requires forall k :: 0 <= k < |ms| ==> ms[k].start <= ms[k].idEnd <= ms[k].textStart <= ms[k].end <= |s|
    requires i < |ms|
    ensures IdRequirements(s, ms)[i] == IdRequirement(s, ms[i])
  {
    if i < |ms| - 1 {
      var front := ms[..|ms| - 1];
      IdRequirementsAt(s, front, i);
      assert front[i] == ms[i];
    }
  }

  lemma {:induction false} ShallRequirementsAt(s: string, ms: seq<ShallMatch>, i: nat)
    requires forall k :: 0 <= k < |ms| ==> ms[k].start <= ms[k].end <= |s|
    requires i < |ms|
    ensures ShallRequirements(s, ms)[i] == ShallRequirement(s, ms[i], i)
  {
    if i < |ms| - 1 {
      var front := ms[..|ms| - 1];
      ShallRequirementsAt(s, front, i);
      assert front[i] == ms[i];
    }
  }

  /** The requirements of a specification text: all id-pattern matches, then all SHALL matches. */
  function Requirements(content: string): seq<Requirement> {
    IdRequirements(content, FindIdMatches(content, 0)) + ShallRequirements(content, FindShallMatches(content, 0))
  }

  /** The loop over the id-pattern matches. */
  method CollectIdRequirements(s: string, ms: seq<IdMatch>) returns (reqs: seq<Requirement>)
    requires forall i :: 0 <= i < |ms| ==> ms[i].start <= ms[i].idEnd <= ms[i].textStart <= ms[i].end <= |s|
    ensures reqs == IdRequirements(s, ms)
  {
    reqs := [];
    for k := 0 to |ms|
      invariant reqs == IdRequirements(s, ms[..k])
    {
      reqs := reqs + [IdRequirement(s, ms[k])];
      assert ms[..k + 1][..k] == ms[..k];
    }
    assert ms[..|ms|] == ms;
  }

  /** The loop over the SHALL matches, numbering them as `enumerate` does. */
  method CollectShallRequirements(s: string, ms: seq<ShallMatch>) returns (reqs: seq<Requirement>)
    requires forall i :: 0 <= i < |ms| ==> ms[i].start <= ms[i].end <= |s|
    ensures reqs == ShallRequirements(s, ms)
  {
    reqs := [];
    for k := 0 to |ms|
      invariant reqs == ShallRequirements(s, ms[..k])
    {
      reqs := reqs + [ShallRequirement(s, ms[k], k)];
      assert ms[..k + 1][..k] == ms[..k];
    }
    assert ms[..|ms|] == ms;
  }

  /** Two passes of `re.finditer`, the id pattern first, appending one requirement per match. */
  method ExtractRequirements(content: string) returns (reqs: seq<Requirement>)
    ensures reqs == Requirements(content)
    ensures |reqs| == |FindIdMatches(content, 0)| + |FindShallMatches(content, 0)|
  {
    var ids := CollectIdRequirements(content, FindIdMatches(content, 0));
    var shalls := CollectShallRequirements(content, FindShallMatches(content, 0));
    reqs := ids + shalls;
  }

  /** `Strip` adds no character its argument lacks. */
  lemma {:induction false} StripKeepsCharacters(s: string, c: char)
    requires c !in s
    ensures c !in Strip(s)
  {
  }

  /** Each id-pattern requirement has a well-formed id and a one-line text. */
  lemma {:induction false} IdRequirementsShape(s: string, ms: seq<IdMatch>, i: nat)
    requires forall k :: 0 <= k < |ms| ==> ms[k].start <= ms[k].idEnd <= ms[k].textStart <= ms[k].end <= |s|
    requires i < |ms| && WellFormedIdMatch(s, ms[i])
    ensures IsRequirementId(IdRequirements(s, ms)[i].id) && '\n' !in IdRequirements(s, ms)[i].text
  {
    var m := ms[i];
    IdRequirementsAt(s, ms, i);
    var line := s[m.textStart..m.end];
    assert forall c :: 0 <= c < |line| ==> line[c] != '\n';
    StripKeepsCharacters(line, '\n');
  }

  /** The id-pattern part of the list: well-formed ids, one-line texts. */
  lemma {:induction false} IdPartLayout(s: string, ids: seq<IdMatch>, shalls: seq<ShallMatch>, i: nat)
    requires forall k :: 0 <= k < |ids| ==> ids[k].start <= ids[k].idEnd <= ids[k].textStart <= ids[k].end <= |s|
    requires forall k :: 0 <= k < |shalls| ==> shalls[k].start <= shalls[k].end <= |s|
    requires i < |ids| && WellFormedIdMatch(s, ids[i])
    ensures var reqs := IdRequirements(s, ids) + ShallRequirements(s, shalls);
      IsRequirementId(reqs[i].id) && '\n' !in reqs[i].text
  {
    assert (IdRequirements(s, ids) + ShallRequirements(s, shalls))[i] == IdRequirements(s, ids)[i];
    IdRequirementsShape(s, ids, i);
  }

  /** The SHALL part of the list: consecutive `REQ-` numbers. */
  lemma {:induction false} ShallPartLayout(s: string, ids: seq<IdMatch>, shalls: seq<ShallMatch>, i: nat)
    requires forall k :: 0 <= k < |ids| ==> ids[k].start <= ids[k].idEnd <= ids[k].textStart <= ids[k].end <= |s|
    requires forall k :: 0 <= k < |shalls| ==> shalls[k].start <= shalls[k].end <= |s|
    requires |ids| <= i < |ids| + |shalls|
    ensures var reqs := IdRequirements(s, ids) + ShallRequirements(s, shalls);
      reqs[i].id == "REQ-" + NatToString(i - |ids| + 1)
  {
    var j := i - |ids|;
    assert (IdRequirements(s, ids) + ShallRequirements(s, shalls))[i] == ShallRequirements(s, shalls)[j];
    ShallRequirementsAt(s, shalls, j);
  }

  /**
   * The id-pattern requirements come first: each has an id `FR-`, `NFR-` or `SR-` plus
   * digits, and a text from a single line.
   */
  lemma {:induction false} IdRequirementForm(content: string, i: nat)
    requires i < |FindIdMatches(content, 0)|
    ensures IsRequirementId(Requirements(content)[i].id) && '\n' !in Requirements(content)[i].text
  {
    FindIdMatchesWellFormed(content, 0, i);
    IdPartLayout(content, FindIdMatches(content, 0), FindShallMatches(content, 0), i);
  }

  /** The SHALL requirements follow, numbered `REQ-1`, `REQ-2`, … in match order. */
  lemma {:induction false} ShallRequirementNumber(content: string, i: nat)
    requires |FindIdMatches(content, 0)| <= i < |FindIdMatches(content, 0)| + |FindShallMatches(content, 0)|
    ensures Requirements(content)[i].id == "REQ-" + NatToString(i - |FindIdMatches(content, 0)| + 1)
  {
    ShallPartLayout(content, FindIdMatches(content, 0), FindShallMatches(content, 0), i);
  }

  /** A `REQ-` id determines its number. */
  lemma {:induction false} ReqIdInjective(x: nat, y: nat)
    ensures "REQ-" + NatToString(x) == "REQ-" + NatToString(y) ==> x == y
  {
    var a, b := "REQ-" + NatToString(x), "REQ-" + NatToString(y);
    if a == b {
      assert a[4..] == NatToString(x);
      assert b[4..] == NatToString(y);
      NatToStringInjective(x, y);
    }
  }

  /** A `REQ-` id never reads as an `FR`/`NFR`/`SR` id. */
  lemma {:induction false} ReqIdIsNoPatternId(x: nat)
    ensures !IsRequirementId("REQ-" + NatToString(x))
  {
    var a := "REQ-" + NatToString(x);
    assert a[0] == 'R';
    forall k | 0 <= k < |IdPrefixes| ensures !StartsWith(a, IdPrefixes[k] + "-") {
      assert (IdPrefixes[k] + "-")[0] != 'R';
    }
  }

  /** No two SHALL requirements share an id. */
  lemma {:induction false} ShallIdsDistinct(content: string, i: nat, j: nat)
    requires |FindIdMatches(content, 0)| <= i < j < |FindIdMatches(content, 0)| + |FindShallMatches(content, 0)|
    ensures Requirements(content)[i].id != Requirements(content)[j].id
  {
    ShallPartDistinct(content, FindIdMatches(content, 0), FindShallMatches(content, 0), i, j);
  }

  /** In the concatenated requirement list, the SHALL part's ids are numbered apart, so they differ. */
  lemma {:induction false} ShallPartDistinct(s: string, ids: seq<IdMatch>, shalls: seq<ShallMatch>, i: nat, j: nat)
    requires forall k :: 0 <= k < |ids| ==> ids[k].start <= ids[k].idEnd <= ids[k].textStart <= ids[k].end <= |s|
    requires forall k :: 0 <= k < |shalls| ==> shalls[k].start <= shalls[k].end <= |s|
    requires |ids| <= i < j < |ids| + |shalls|
    ensures var reqs := IdRequirements(s, ids) + ShallRequirements(s, shalls);
      reqs[i].id != reqs[j].id
  {
    var reqs := IdRequirements(s, ids) + ShallRequirements(s, shalls);
    ShallPartLayout(s, ids, shalls, i);
    ShallPartLayout(s, ids, shalls, j);
    if reqs[i].id == reqs[j].id {
      ReqIdInjective(i - |ids| + 1, j - |ids| + 1);
      assert false;
    }
  }

  /** No SHALL requirement has the form of an `FR`/`NFR`/`SR` id, so the two parts never share an id. */
  lemma {:induction false} ShallIdsNotPatternIds(content: string, i: nat)
    requires |FindIdMatches(content, 0)| <= i < |FindIdMatches(content, 0)| + |FindShallMatches(content, 0)|
    ensures !IsRequirementId(Requirements(content)[i].id)
  {
    ShallRequirementNumber(content, i);
    ReqIdIsNoPatternId(i - |FindIdMatches(content, 0)| + 1);
  }

  /**
   * Every SHALL subject contains an `s`, which IGNORECASE matches by `s`, `S` or the long s
   * `ſ` only, so a text without those three has no subject at `p`.
   */
  lemma {:induction false} NoSubjectWithoutS(s: string, p: nat, alt: nat)
    requires p <= |s|
    requires 's' !in s && 'S' !in s && '\U{17f}' !in s
    ensures TryShallSubjects(s, p, alt) == None
    decreases |ShallSubjects| - alt
  {
    if alt < |ShallSubjects| {
      NoSubjectAt(s, p, alt);
      NoSubjectWithoutS(s, p, alt + 1);
    }
  }

  /** The `alt`-th subject does not occur at `p` in a text without `s`, `S` or `ſ`. */
  lemma {:induction false} NoSubjectAt(s: string, p: nat, alt: nat)
    requires alt < |ShallSubjects|
    requires 's' !in s && 'S' !in s && '\U{17f}' !in s
    ensures !OccursAtIgnoreCase(s, ShallSubjects[alt], p)
  {
    var t := ShallSubjects[alt];
    var k := if alt == 0 then 4 else 0;
    assert t[k] == 's';
    if p + |t| <= |s| {
      var c := s[p + k];
      assert c in s;
      assert FoldChar(c) != 's';
    }
  }

  /** A text without `s`, `S` or `ſ` has no match of the SHALL pattern at all. */
  lemma {:induction false} NoShallMatchWithoutS(s: string, p: nat)
    requires p <= |s| + 1
    requires 's' !in s && 'S' !in s && '\U{17f}' !in s
    ensures FindShallMatches(s, p) == []
    decreases |s| + 1 - p
  {
    if p <= |s| {
      NoSubjectWithoutS(s, p, 0);
      NoShallMatchWithoutS(s, p + 1);
    }
  }

  /** A text whose only match is one id-pattern match `m` yields the one requirement of `m`. */
  lemma {:induction false} SingleIdRequirement(s: string, m: IdMatch, id: string, text: string)
    requires m.start <= m.idEnd <= m.textStart <= m.end <= |s|
    requires FindIdMatches(s, 0) == [m] && FindShallMatches(s, 0) == []
    requires s[m.start..m.idEnd] == id && Strip(s[m.textStart..m.end]) == text
    ensures Requirements(s) == [Requirement(id, text)]
  {
    IdRequirementsAt(s, [m], 0);
  }

  /** In `FR-12`, `\d+` must give back its last digit, because `.+?` needs a character. */
  lemma {:induction false} TrailingIdMatch(s: string)
    requires s == "FR-12"
    ensures FindIdMatches(s, 0) == [IdMatch(0, 4, 4, 5)]
  {
    assert DigitRun(s, 3) == 2;
    assert IsRequirementId(s[0..5]) by {
      assert StartsWith(s[0..5], IdPrefixes[0] + "-");
      assert IdWithPrefix(s[0..5], 0);
    }
    assert TryColon(s, 0, 5) == None;
    assert TryDigits(s, 0, 0, 2) == TryDigits(s, 0, 0, 1);
    assert TryIdPrefixes(s, 0, 0) == Some(IdMatch(0, 4, 4, 5));
    assert FindIdMatches(s, 5) == [];
  }

  /** `FR-12` has no SHALL match, and its one id match reads `FR-1` with text `2`. */
  lemma {:induction false} TrailingIdPieces(s: string)
    requires s == "FR-12"
    ensures FindShallMatches(s, 0) == [] && s[0..4] == "FR-1" && Strip(s[4..5]) == "2"
  {
    NoShallMatchWithoutS(s, 0);
    assert s[4..5] == "2";
  }

  /** `\d+` backtracks: a bare `FR-12` at the end of the text yields `FR-1` with text `2`. */
  lemma {:induction false} TrailingIdLosesDigit(s: string)
    requires s == "FR-12"
    ensures Requirements(s) == [Requirement("FR-1", "2")]
  {
    TrailingIdMatch(s);
    TrailingIdPieces(s);
    SingleIdRequirement(s, IdMatch(0, 4, 4, 5), "FR-1", "2");
  }

  /** In `FR-1\nx`, `\s*` takes the newline, so the text starts on the next line. */
  lemma {:induction false} NextLineMatch(s: string)
    requires s == "FR-1\nx"
    ensures FindIdMatches(s, 0) == [IdMatch(0, 4, 5, 6)]
  {
    assert DigitRun(s, 3) == 1;
    assert SpaceRun(s, 4) == 1;
    assert LazyLine(s, 5, 1) == Some(6);
    assert TryIdPrefixes(s, 0, 0) == Some(IdMatch(0, 4, 5, 6));
    assert FindIdMatches(s, 6) == [];
  }

  /** `FR-1\nx` has no SHALL match, and its one id match reads `FR-1` with text `x`. */
  lemma {:induction false} NextLinePieces(s: string)
    requires s == "FR-1\nx"
    ensures FindShallMatches(s, 0) == [] && s[0..4] == "FR-1" && Strip(s[5..6]) == "x"
  {
    NoShallMatchWithoutS(s, 0);
    assert s[5..6] == "x";
  }

  /** `\s*` crosses a line break: an id alone on its line takes the next line as its text. */
  lemma {:induction false} IdTextFromNextLine(s: string)
    requires s == "FR-1\nx"
    ensures Requirements(s) == [Requirement("FR-1", "x")]
  {
    NextLineMatch(s);
    NextLinePieces(s);
    SingleIdRequirement(s, IdMatch(0, 4, 5, 6), "FR-1", "x");
  }

  // ---------------------------------------------------------------------------------------
  // The authentication heuristic

  /** `'authentication' in t or 'auth' in t` on the lower-cased requirement text. */
  predicate MentionsAuth(text: string) {
    var t := Lower(text);
    Contains(t, "authentication") || Contains(t, "auth")
  }

  /** The first test is subsumed by the second. */
  lemma {:induction false} MentionsAuthIsAuth(text: string)
    ensures MentionsAuth(text) <==> Contains(Lower(text), "auth")
  {
    var t := Lower(text);
    if Contains(t, "authentication") {
      var i :| 0 <= i <= |t| - 14 && OccursAt(t, "authentication", i);
      assert t[i..i + 4] == t[i..i + 14][..4] == "auth";
      assert OccursAt(t, "auth", i);
    }
  }

  /** `file.read(10000)`: at most the first 10000 characters. */
  function ReadPrefix(content: string): (r: string)
    ensures |r| <= 10000 && StartsWith(content, r)
    ensures |content| <= 10000 ==> r == content
  {
    if |content| <= 10000 then content else content[..10000]
  }

  /** A code file counts as evidence when it can be read and its first 10000 characters mention `auth`. */
  predicate ShowsAuth(file: Option<string>) {
    file.Some? && Contains(Lower(ReadPrefix(file.value)), "auth")
  }

  /** Some of the first ten code files shows `auth`. */
  predicate AuthEvidence(codeFiles: seq<string>, read: string -> Option<string>) {
    exists i :: 0 <= i < |codeFiles| && i < 10 && ShowsAuth(read(codeFiles[i]))
  }

  const MissingAuthDescription := "No evidence of authentication implementation found in code"
  const MissingAuthSuggestion := "Implement authentication as specified in the requirement"

  function MissingAuthIssue(req: Requirement, specFile: string, filesChecked: nat): Issue {
    Issue(
      "high", "missing_implementation",
      "Requirement " + req.id + " may not be implemented",
      specFile, Some(req.id), Some(req.text),
      MissingAuthDescription, MissingAuthSuggestion,
      Some(filesChecked))
  }

  /** What the heuristic returns for one requirement. */
  function RequirementIssue(req: Requirement, codeFiles: seq<string>, specFile: string,
                            read: string -> Option<string>): Option<Issue>
  {
    if MentionsAuth(req.text) && !AuthEvidence(codeFiles, read)
    then Some(MissingAuthIssue(req, specFile, |codeFiles|))
    else None
  }

  /**
   * The heuristic: an issue exactly when the requirement mentions auth and none of the first
   * ten code files shows it; the issue is high severity, of type missing_implementation,
   * and records how many code files there were in all.
   */
  method CheckRequirement(req: Requirement, codeFiles: seq<string>, specFile: string,
                          read: string -> Option<string>) returns (issue: Option<Issue>)
    ensures issue.Some? <==> MentionsAuth(req.text) && !AuthEvidence(codeFiles, read)
    ensures issue.Some? ==>
      && issue.value.severity == "high"
      && issue.value.kind == "missing_implementation"
      && issue.value.requirementId == Some(req.id)
      && issue.value.filesChecked == Some(|codeFiles|)
    ensures issue == RequirementIssue(req, codeFiles, specFile, read)
  {
    var reqText := Lower(req.text);
    var mentionsAuth := Contains(reqText, "authentication") || Contains(reqText, "auth");
    assert mentionsAuth == MentionsAuth(req.text);
    if mentionsAuth {
      var hasAuth := FindAuthEvidence(codeFiles, read);
      if !hasAuth {
        return Some(MissingAuthIssue(req, specFile, |codeFiles|));
      }
    }
    return None;
  }

  /**
   * The `has_auth` loop: the first ten code files are read in turn, unreadable ones skipped,
   * until one of them mentions `auth`.
   */
  method FindAuthEvidence(codeFiles: seq<string>, read: string -> Option<string>) returns (hasAuth: bool)
    ensures hasAuth <==> AuthEvidence(codeFiles, read)
  {
    hasAuth := false;
    var n := if |codeFiles| < 10 then |codeFiles| else 10;
    var k := 0;
    while k < n
      invariant 0 <= k <= n
      invariant hasAuth ==> AuthEvidence(codeFiles, read)
      invariant !hasAuth ==> forall i :: 0 <= i < k ==> !ShowsAuth(read(codeFiles[i]))
      decreases if hasAuth then 0 else n - k
    {
      var file := read(codeFiles[k]);
      if file.None? {
        k := k + 1;
        continue;
      }
      var content := ReadPrefix(file.value);
      var mentions := Contains(Lower(content), "auth");
      assert mentions == ShowsAuth(read(codeFiles[k]));
      if mentions {
        hasAuth := true;
        break;
      }
      k := k + 1;
    }
  }

  // ---------------------------------------------------------------------------------------
  // One specification

  const NoRequirementsDescription := "The specification file does not contain clearly marked requirements"
  const NoRequirementsSuggestion := "Add explicit requirements using markers like FR-1, NFR-1, or SHALL statements"

  function NoRequirementsIssue(specFile: string): Issue {
    Issue(
      "low", "documentation",
      "No explicit requirements found in " + specFile,
      specFile, None, None,
      NoRequirementsDescription, NoRequirementsSuggestion,
      None)
  }

  /** The issues of the requirements `reqs`, in order, for those the heuristic flags. */
  function IssuesOf(reqs: seq<Requirement>, codeFiles: seq<string>, specFile: string,
                    read: string -> Option<string>): seq<Issue>
  {
    if reqs == [] then []
    else
      var last := RequirementIssue(reqs[|reqs| - 1], codeFiles, specFile, read);
      IssuesOf(reqs[..|reqs| - 1], codeFiles, specFile, read) + (if last.Some? then [last.value] else [])
  }

  /** The issues of a specification with file name `file` and requirements `reqs`. */
  function SpecIssuesFor(file: string, reqs: seq<Requirement>, codeFiles: seq<string>,
                         read: string -> Option<string>): seq<Issue>
  {
    if reqs == [] then [NoRequirementsIssue(file)]
    else IssuesOf(FirstFive(reqs), codeFiles, file, read)
  }

  /** `requirements[:5]` */
  function FirstFive(reqs: seq<Requirement>): (head: seq<Requirement>)
    ensures |head| <= 5 && (|reqs| <= 5 ==> head == reqs) && (|reqs| > 5 ==> |head| == 5)
    ensures forall i :: 0 <= i < |head| ==> head[i] == reqs[i]
  {
    if |reqs| <= 5 then reqs else reqs[..5]
  }

  /** The issues one specification contributes. */
  function SpecIssues(spec: SpecDoc, codeFiles: seq<string>, read: string -> Option<string>): seq<Issue> {
    SpecIssuesFor(spec.file, Requirements(spec.content), codeFiles, read)
  }

  /** `_analyze_spec`: the documentation issue, or the heuristic run on the first five requirements. */
  method AnalyzeSpec(spec: SpecDoc, codeFiles: seq<string>, read: string -> Option<string>)
    returns (issues: seq<Issue>)
    ensures issues == SpecIssues(spec, codeFiles, read)
  {
    var reqs := ExtractRequirements(spec.content);
    issues := AnalyzeRequirements(spec.file, reqs, codeFiles, read);
  }

  /** The body of `_analyze_spec` once the requirements are extracted. */
  method AnalyzeRequirements(file: string, reqs: seq<Requirement>, codeFiles: seq<string>,
                             read: string -> Option<string>) returns (issues: seq<Issue>)
    ensures issues == SpecIssuesFor(file, reqs, codeFiles, read)
  {
    if reqs == [] {
      issues := [NoRequirementsIssue(file)];
    } else {
      issues := CheckRequirements(FirstFive(reqs), codeFiles, file, read);
    }
  }

  /** The loop over `requirements[:5]`, keeping the issues the heuristic returns. */
  method CheckRequirements(head: seq<Requirement>, codeFiles: seq<string>, file: string,
                           read: string -> Option<string>) returns (issues: seq<Issue>)
    ensures issues == IssuesOf(head, codeFiles, file, read)
  {
    issues := [];
    for k := 0 to |head|
      invariant issues == IssuesOf(head[..k], codeFiles, file, read)
    {
      var issue := CheckRequirement(head[k], codeFiles, file, read);
      assert IssuesOf(head[..k + 1], codeFiles, file, read)
          == issues + (if issue.Some? then [issue.value] else []) by {
        assert head[..k + 1][..k] == head[..k];
      }
      if issue.Some? {
        issues := issues + [issue.value];
      }
    }
    assert head[..|head|] == head;
  }

  /** Every issue is a high severity missing_implementation issue. */
  predicate AllMissingImplementation(issues: seq<Issue>) {
    forall i :: 0 <= i < |issues| ==> issues[i].severity == "high" && issues[i].kind == "missing_implementation"
  }

  /** Every issue is of high or of low severity. */
  predicate HighOrLow(issues: seq<Issue>) {
    forall i :: 0 <= i < |issues| ==> issues[i].severity == "high" || issues[i].severity == "low"
  }

  lemma {:induction false} AllMissingImplementationConcat(a: seq<Issue>, b: seq<Issue>)
    requires AllMissingImplementation(a) && AllMissingImplementation(b)
    ensures AllMissingImplementation(a + b)
  {
    forall i | 0 <= i < |a + b|
      ensures (a + b)[i].severity == "high" && (a + b)[i].kind == "missing_implementation"
    {
      if i < |a| { assert (a + b)[i] == a[i]; } else { assert (a + b)[i] == b[i - |a|]; }
    }
  }

  /** Each requirement yields at most one issue, and each such issue is the high one. */
  lemma {:induction false} IssuesOfShape(reqs: seq<Requirement>, codeFiles: seq<string>, specFile: string,
                                         read: string -> Option<string>)
    ensures var r := IssuesOf(reqs, codeFiles, specFile, read);
      |r| <= |reqs| && AllMissingImplementation(r)
    decreases |reqs|
  {
    if reqs != [] {
      var front := reqs[..|reqs| - 1];
      var last := RequirementIssue(reqs[|reqs| - 1], codeFiles, specFile, read);
      IssuesOfShape(front, codeFiles, specFile, read);
      AllMissingImplementationConcat(IssuesOf(front, codeFiles, specFile, read),
                                     if last.Some? then [last.value] else []);
    }
  }

  /**
   * Requirements of a specification in hand: none yield exactly the one low documentation
   * issue; otherwise at most five issues, all high severity missing_implementation.
   */
  lemma {:induction false} SpecIssuesForShape(file: string, reqs: seq<Requirement>, codeFiles: seq<string>,
                           read: string -> Option<string>)
    ensures var r := SpecIssuesFor(file, reqs, codeFiles, read);
      && (reqs == [] ==> |r| == 1 && r[0].severity == "low" && r[0].kind == "documentation" && r[0].specFile == file)
      && (reqs != [] ==> |r| <= 5 && AllMissingImplementation(r))
      && HighOrLow(r)
  {
    if reqs != [] {
      IssuesOfShape(FirstFive(reqs), codeFiles, file, read);
    }
  }

  /** The same for a specification document, whose requirements are those `Requirements` extracts. */
  lemma {:induction false} SpecIssuesShape(spec: SpecDoc, codeFiles: seq<string>, read: string -> Option<string>)
    ensures var r := SpecIssues(spec, codeFiles, read);
      && (Requirements(spec.content) == [] ==>
            |r| == 1 && r[0].severity == "low" && r[0].kind == "documentation" && r[0].specFile == spec.file)
      && (Requirements(spec.content) != [] ==> |r| <= 5 && AllMissingImplementation(r))
      && HighOrLow(r)
  {
    SpecIssuesForShape(spec.file, Requirements(spec.content), codeFiles, read);
  }

  // ---------------------------------------------------------------------------------------
  // Code files

  /** A directory listing as `os.walk` sees it: file names, then named sub-directories. */
  datatype Tree = Tree(files: seq<string>, subdirs: seq<SubDir>)
  datatype SubDir = SubDir(name: string, tree: Tree)

  /** What a path names. */
  datatype FsNode = Missing | RegularFile | Directory(tree: Tree)

  const CodeExtensions: set<string> :=
    {".py", ".js", ".ts", ".java", ".go", ".rb", ".php", ".cs",
     ".cpp", ".c", ".h", ".hpp", ".rs", ".kt", ".swift", ".m"}

  const SkipDirs: set<string> :=
    {".git", "node_modules", "vendor", "venv", "env", "__pycache__",
     "build", "dist", "target", ".pytest_cache", "coverage"}

  /** The index of the last `c` in `s`. */
  function LastIndexOf(s: string, c: char): (k: Option<nat>)
    ensures k.Some? ==> k.value < |s| && s[k.value] == c && forall i :: k.value < i < |s| ==> s[i] != c
    ensures k.None? ==> forall i :: 0 <= i < |s| ==> s[i] != c
  {
    if s == [] then None
    else if s[|s| - 1] == c then Some(|s| - 1)
    else LastIndexOf(s[..|s| - 1], c)
  }

  /**
   * `os.path.splitext(name)[1]`: from the last dot to the end, provided some character
   * before that dot is not a dot; otherwise empty (so `.py` alone has no extension).
   */
  function Extension(name: string): (ext: string)
    ensures ext != [] ==> ext[0] == '.' && EndsWith(name, ext) && forall i :: 1 <= i < |ext| ==> ext[i] != '.'
    ensures ext != [] ==> exists i :: 0 <= i < |name| - |ext| && name[i] != '.'
  {
    match LastIndexOf(name, '.')
    case None => ""
    case Some(d) =>
      if exists i :: 0 <= i < d && name[i] != '.' then name[d..] else ""
  }

  /** A walked file is kept when its extension is a code extension. */
  predicate KeepFile(name: string) {
    Extension(name) in CodeExtensions
  }

  /** `.py` alone has no extension, while `a.py` has `.py`. */
  lemma {:induction false} DotPyAloneNotKept()
    ensures !KeepFile(".py") && KeepFile("a.py")
  {
    assert LastIndexOf(".py", '.') == Some(0);
    assert LastIndexOf("a.py", '.') == Some(1);
    assert "a.py"[0] != '.';
    assert "a.py"[1..] == ".py";
  }

  /** The files of one directory that `keep` accepts, joined to the directory path, in listing order. */
  function KeptFiles(root: string, files: seq<string>, keep: string -> bool): (paths: seq<string>)
    ensures |paths| <= |files|
  {
    if files == [] then []
    else
      var last := files[|files| - 1];
      KeptFiles(root, files[..|files| - 1], keep) + (if keep(last) then [Join(root, last)] else [])
  }

  /**
   * `os.walk(root)` with the skipped directories pruned: the kept files of `root`, then the
   * walk of each remaining sub-directory in listing order.
   */
  function WalkFiles(root: string, t: Tree): seq<string>
    decreases t, |t.subdirs| + 1
  {
    KeptFiles(root, t.files, KeepFile) + WalkSubdirs(root, t, 0)
  }

  function WalkSubdirs(root: string, t: Tree, i: nat): seq<string>
    requires i <= |t.subdirs|
    decreases t, |t.subdirs| - i
  {
    if i == |t.subdirs| then []
    else
      var d := t.subdirs[i];
      (if d.name in SkipDirs then [] else WalkFiles(Join(root, d.name), d.tree))
      + WalkSubdirs(root, t, i + 1)
  }

  /** The directory reached from `t` through the sub-directories numbered `path`, if the walk enters each. */
  function Walked(t: Tree, path: seq<nat>): Option<Tree>
    decreases |path|
  {
    if path == [] then Some(t)
    else if path[0] < |t.subdirs| && t.subdirs[path[0]].name !in SkipDirs
    then Walked(t.subdirs[path[0]].tree, path[1..])
    else None
  }

  /** The path string `os.walk` reports for that directory. */
  function WalkedPath(root: string, t: Tree, path: seq<nat>): string
    requires Walked(t, path).Some?
    decreases |path|
  {
    if path == [] then root
    else WalkedPath(Join(root, t.subdirs[path[0]].name), t.subdirs[path[0]].tree, path[1..])
  }

  /** `p` is the path of a kept file in a directory the walk enters. */
  ghost predicate Listed(root: string, t: Tree, p: string) {
    exists path: seq<nat>, j: nat ::
      && Walked(t, path).Some?
      && j < |Walked(t, path).value.files|
      && KeepFile(Walked(t, path).value.files[j])
      && p == Join(WalkedPath(root, t, path), Walked(t, path).value.files[j])
  }

  lemma {:induction false} KeptFilesMembers(root: string, files: seq<string>, keep: string -> bool, p: string)
    ensures p in KeptFiles(root, files, keep) <==> exists j :: 0 <= j < |files| && keep(files[j]) && p == Join(root, files[j])
    decreases |files|
  {
    if files != [] {
      var front := files[..|files| - 1];
      KeptFilesMembers(root, front, keep, p);
      assert forall j :: 0 <= j < |front| ==> front[j] == files[j];
    }
  }

  lemma {:induction false} WalkedStep(root: string, t: Tree, k: nat, path: seq<nat>)
    requires k < |t.subdirs| && t.subdirs[k].name !in SkipDirs
    ensures Walked(t, [k] + path) == Walked(t.subdirs[k].tree, path)
    ensures Walked(t, [k] + path).Some? ==>
      WalkedPath(root, t, [k] + path) == WalkedPath(Join(root, t.subdirs[k].name), t.subdirs[k].tree, path)
  {
    assert ([k] + path)[1..] == path;
  }

  /** Every file the walk yields is kept and lies in a directory it was allowed to enter. */
  lemma {:induction false} WalkFilesSound(root: string, t: Tree, p: string)
    requires p in WalkFiles(root, t)
    ensures Listed(root, t, p)
    decreases t, |t.subdirs| + 1
  {
    if p in KeptFiles(root, t.files, KeepFile) {
      KeptFilesMembers(root, t.files, KeepFile, p);
      var j :| 0 <= j < |t.files| && KeepFile(t.files[j]) && p == Join(root, t.files[j]);
      assert Walked(t, []) == Some(t);
      assert p == Join(WalkedPath(root, t, []), Walked(t, []).value.files[j]);
    } else {
      WalkSubdirsSound(root, t, 0, p);
    }
  }

  lemma {:induction false} WalkSubdirsSound(root: string, t: Tree, i: nat, p: string)
    requires i <= |t.subdirs| && p in WalkSubdirs(root, t, i)
    ensures Listed(root, t, p)
    decreases t, |t.subdirs| - i
  {
    var d := t.subdirs[i];
    if d.name !in SkipDirs && p in WalkFiles(Join(root, d.name), d.tree) {
      WalkFilesSound(Join(root, d.name), d.tree, p);
      var path: seq<nat>, j: nat :|
        && Walked(d.tree, path).Some?
        && j < |Walked(d.tree, path).value.files|
        && KeepFile(Walked(d.tree, path).value.files[j])
        && p == Join(WalkedPath(Join(root, d.name), d.tree, path), Walked(d.tree, path).value.files[j]);
      WalkedStep(root, t, i, path);
      assert p == Join(WalkedPath(root, t, [i] + path), Walked(t, [i] + path).value.files[j]);
    } else {
      WalkSubdirsSound(root, t, i + 1, p);
    }
  }

  /** Every kept file of every directory the walk may enter is yielded. */
  lemma {:induction false} WalkFilesComplete(root: string, t: Tree, path: seq<nat>, j: nat)
    requires Walked(t, path).Some? && j < |Walked(t, path).value.files|
    requires KeepFile(Walked(t, path).value.files[j])
    ensures Join(WalkedPath(root, t, path), Walked(t, path).value.files[j]) in WalkFiles(root, t)
    decreases |path|
  {
    var p := Join(WalkedPath(root, t, path), Walked(t, path).value.files[j]);
    if path == [] {
      KeptFilesMembers(root, t.files, KeepFile, p);
    } else {
      var k := path[0];
      var d := t.subdirs[k];
      WalkedStep(root, t, k, path[1..]);
      assert [k] + path[1..] == path;
      WalkFilesComplete(Join(root, d.name), d.tree, path[1..], j);
      WalkSubdirsContains(root, t, 0, k, p);
    }
  }

  lemma {:induction false} WalkSubdirsContains(root: string, t: Tree, i: nat, k: nat, p: string)
    requires i <= k < |t.subdirs| && t.subdirs[k].name !in SkipDirs
    requires p in WalkFiles(Join(root, t.subdirs[k].name), t.subdirs[k].tree)
    ensures p in WalkSubdirs(root, t, i)
    decreases k - i
  {
    var d := t.subdirs[i];
    var here := if d.name in SkipDirs then [] else WalkFiles(Join(root, d.name), d.tree);
    assert WalkSubdirs(root, t, i) == here + WalkSubdirs(root, t, i + 1);
    if i < k {
      WalkSubdirsContains(root, t, i + 1, k, p);
    } else {
      assert p in here;
    }
  }

  /** The walk yields exactly the kept files of the directories it may enter. */
  lemma {:induction false} WalkFilesExact(root: string, t: Tree, p: string)
    ensures p in WalkFiles(root, t) <==> Listed(root, t, p)
  {
    if p in WalkFiles(root, t) {
      WalkFilesSound(root, t, p);
    }
    if Listed(root, t, p) {
      var path: seq<nat>, j: nat :|
        && Walked(t, path).Some?
        && j < |Walked(t, path).value.files|
        && KeepFile(Walked(t, path).value.files[j])
        && p == Join(WalkedPath(root, t, path), Walked(t, path).value.files[j]);
      WalkFilesComplete(root, t, path, j);
    }
  }

  /**
   * The paths scanned: the target paths when some are given, otherwise the repository itself.
   * There is always at least one, each is the repository or a target path, and every target
   * path is scanned, in the order given.
   */
  function ScanPaths(repo: string, targetPaths: Option<seq<string>>): (paths: seq<string>)
    ensures |paths| >= 1
    ensures forall p | p in paths :: p == repo || (targetPaths.Some? && p in targetPaths.value)
    ensures targetPaths.Some? && targetPaths.value != [] ==> paths == targetPaths.value
    ensures targetPaths.None? || targetPaths.value == [] ==> paths == [repo]
  {
    if targetPaths.Some? && targetPaths.value != [] then targetPaths.value else [repo]
  }

  /** An absolute scan path is used as it is, a relative one under the repository. */
  function FullPath(repo: string, scanPath: string): string {
    if StartsWith(scanPath, "/") then scanPath else Join(repo, scanPath)
  }

  /** A regular file is taken whatever its extension; a directory is walked; anything else adds nothing. */
  function ScanFiles(full: string, node: FsNode): seq<string> {
    match node
    case RegularFile => [full]
    case Directory(t) => WalkFiles(full, t)
    case Missing => []
  }

  function CodeFilesOf(repo: string, scanPaths: seq<string>, stat: string -> FsNode): seq<string> {
    if scanPaths == [] then []
    else
      var last := FullPath(repo, scanPaths[|scanPaths| - 1]);
      CodeFilesOf(repo, scanPaths[..|scanPaths| - 1], stat) + ScanFiles(last, stat(last))
  }

  method GetCodeFiles(repo: string, targetPaths: Option<seq<string>>, stat: string -> FsNode)
    returns (codeFiles: seq<string>)
    ensures codeFiles == CodeFilesOf(repo, ScanPaths(repo, targetPaths), stat)
  {
    codeFiles := [];
    var scanPaths := ScanPaths(repo, targetPaths);
    for k := 0 to |scanPaths|
      invariant codeFiles == CodeFilesOf(repo, scanPaths[..k], stat)
    {
      var full := FullPath(repo, scanPaths[k]);
      match stat(full)
      case RegularFile =>
        codeFiles := codeFiles + [full];
      case Directory(t) =>
        codeFiles := codeFiles + WalkFiles(full, t);
      case Missing =>
      assert scanPaths[..k + 1][..k] == scanPaths[..k];
    }
    assert scanPaths[..|scanPaths|] == scanPaths;
  }

  /** `p` is what scanning `scanPath` contributes: the path itself or a file the walk lists. */
  ghost predicate FromScanPath(repo: string, scanPath: string, stat: string -> FsNode, p: string) {
    var full := FullPath(repo, scanPath);
    (stat(full) == RegularFile && p == full) || (stat(full).Directory? && Listed(full, stat(full).tree, p))
  }

  /**
   * Every code file comes from one scan path: it is that path itself when the path names a
   * regular file, or a kept file the walk of that directory lists.
   */
  lemma {:induction false} CodeFilesOrigin(repo: string, scanPaths: seq<string>, stat: string -> FsNode, p: string)
    requires p in CodeFilesOf(repo, scanPaths, stat)
    ensures exists k :: 0 <= k < |scanPaths| && FromScanPath(repo, scanPaths[k], stat, p)
    decreases |scanPaths|
  {
    var n := |scanPaths| - 1;
    var full := FullPath(repo, scanPaths[n]);
    if p in CodeFilesOf(repo, scanPaths[..n], stat) {
      CodeFilesOrigin(repo, scanPaths[..n], stat, p);
      var k :| 0 <= k < n && FromScanPath(repo, scanPaths[..n][k], stat, p);
      assert scanPaths[..n][k] == scanPaths[k];
    } else if stat(full).Directory? {
      WalkFilesSound(full, stat(full).tree, p);
    }
  }

  // ---------------------------------------------------------------------------------------
  // The whole analysis

  function AllSpecIssues(specs: seq<SpecDoc>, codeFiles: seq<string>, read: string -> Option<string>): seq<Issue> {
    if specs == [] then []
    else AllSpecIssues(specs[..|specs| - 1], codeFiles, read) + SpecIssues(specs[|specs| - 1], codeFiles, read)
  }

  lemma {:induction false} AllSpecIssuesStep(specs: seq<SpecDoc>, k: nat, codeFiles: seq<string>, read: string -> Option<string>)
    requires k < |specs|
    ensures AllSpecIssues(specs[..k + 1], codeFiles, read)
         == AllSpecIssues(specs[..k], codeFiles, read) + SpecIssues(specs[k], codeFiles, read)
  {
    assert specs[..k + 1][..k] == specs[..k];
  }

  /**
   * `analyze_compliance`: collect the code files, concatenate the issues of each
   * specification in order, and sort them stably by severity rank.
   */
  method AnalyzeCompliance(repo: string, specs: seq<SpecDoc>, targetPaths: Option<seq<string>>,
                           stat: string -> FsNode, read: string -> Option<string>)
    returns (issues: seq<Issue>)
    ensures var all := AllSpecIssues(specs, CodeFilesOf(repo, ScanPaths(repo, targetPaths), stat), read);
      && issues == SortBySeverity(all)
      && multiset(issues) == multiset(all)
      && (forall i, j :: 0 <= i < j < |issues| ==> IssueRank(issues[i]) <= IssueRank(issues[j]))
      && (forall k :: WithKey(issues, IssueRank, k) == WithKey(all, IssueRank, k))
  {
    var codeFiles := GetCodeFiles(repo, targetPaths, stat);
    var all := AnalyzeSpecs(specs, codeFiles, read);
    issues := SortBySeverity(all);
    SortBySeverityCorrect(all);
  }

  /** The loop of `analyze_compliance` over the specifications, extending the issue list. */
  method AnalyzeSpecs(specs: seq<SpecDoc>, codeFiles: seq<string>, read: string -> Option<string>)
    returns (all: seq<Issue>)
    ensures all == AllSpecIssues(specs, codeFiles, read)
  {
    all := [];
    for k := 0 to |specs|
      invariant all == AllSpecIssues(specs[..k], codeFiles, read)
    {
      var specIssues := AnalyzeSpec(specs[k], codeFiles, read);
      AllSpecIssuesStep(specs, k, codeFiles, read);
      all := all + specIssues;
    }
    assert specs[..|specs|] == specs;
  }

  /** Analyzer issues are only ever high or low, so after sorting every high issue precedes every low one. */
  lemma {:induction false} AllSpecIssuesHighOrLow(specs: seq<SpecDoc>, codeFiles: seq<string>, read: string -> Option<string>)
    ensures HighOrLow(AllSpecIssues(specs, codeFiles, read))
    decreases |specs|
  {
    if specs != [] {
      AllSpecIssuesHighOrLow(specs[..|specs| - 1], codeFiles, read);
      SpecIssuesShape(specs[|specs| - 1], codeFiles, read);
      HighOrLowConcat(AllSpecIssues(specs[..|specs| - 1], codeFiles, read), SpecIssues(specs[|specs| - 1], codeFiles, read));
    }
  }

  lemma {:induction false} HighOrLowConcat(a: seq<Issue>, b: seq<Issue>)
    requires HighOrLow(a) && HighOrLow(b)
    ensures HighOrLow(a + b)
  {
    assert forall i :: 0 <= i < |b| ==> (a + b)[|a| + i] == b[i];
  }

  lemma {:induction false} HighBeforeLow(specs: seq<SpecDoc>, codeFiles: seq<string>, read: string -> Option<string>, i: nat, j: nat)
    requires var r := SortBySeverity(AllSpecIssues(specs, codeFiles, read));
      i < |r| && j < |r| && r[i].severity == "high" && r[j].severity == "low"
    ensures i < j
  {
    var all := AllSpecIssues(specs, codeFiles, read);
    SortBySeverityCorrect(all);
  }
}
