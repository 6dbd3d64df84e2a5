/**
 * Request validation (src/utils/validators.py): the ordered chain of checks applied to the
 * body of `POST /compliance/check`, and the recognizer for repository URLs built from five
 * anchored regular expressions.
 */
module Validators {
  import opened Wrappers
  import opened Json
  import opened Strings

  // ---------------------------------------------------------------------------------------
  // Repository URLs
  // ---------------------------------------------------------------------------------------

  /** The character class `[\w\-\.]` of the host part. */
  predicate HostChar(c: char) {
    IsWordChar(c) || c == '-' || c == '.'
  }

  /** The character class `[\w\-\./@]` of the path part. */
  predicate PathChar(c: char) {
    HostChar(c) || c == '/' || c == '@'
  }

  predicate AllChars(s: string, cls: char -> bool) {
    forall k :: 0 <= k < |s| ==> cls(s[k])
  }

  /**
   * One of the five anchored patterns:
   * `^<scheme>[\w\-\.]+(:\d+)?<sep>[\w\-\./@]+(\.git)?$`, where the port group is present
   * only when `withPort` holds and the `.git` suffix is required when `needGit` holds.
   */
  datatype UrlPattern = UrlPattern(schemes: seq<string>, withPort: bool, sep: char, needGit: bool)

  /** `^https?://[\w\-\.]+(:\d+)?/[\w\-\./@]+\.git$` */
  const HttpsWithGit := UrlPattern(["https://", "http://"], true, '/', true)
  /** `^https?://[\w\-\.]+(:\d+)?/[\w\-\./@]+$` */
  const HttpsPlain := UrlPattern(["https://", "http://"], true, '/', false)
  /** `^git@[\w\-\.]+:[\w\-\./@]+\.git$` */
  const SshWithGit := UrlPattern(["git@"], false, ':', true)
  /** `^git@[\w\-\.]+:[\w\-\./@]+$` */
  const SshPlain := UrlPattern(["git@"], false, ':', false)
  /** `^git://[\w\-\.]+(:\d+)?/[\w\-\./@]+\.git$` */
  const GitProtocol := UrlPattern(["git://"], true, '/', true)

  const GitUrlPatterns := [HttpsWithGit, HttpsPlain, SshWithGit, SshPlain, GitProtocol]

  /** `$` matches at the very end or just before a final newline: the part a pattern must cover. */
  function Body(url: string): (b: string)
    ensures b == url || url == b + "\n"
  {
    if url != [] && url[|url| - 1] == '\n' then url[..|url| - 1] else url
  }

  /** The end of the longest run of characters of class `cls` starting at `i` (a greedy `+`/`*`). */
  function RunEnd(s: string, i: nat, cls: char -> bool): (j: nat)
    requires i <= |s|
    ensures i <= j <= |s|
    ensures forall k :: i <= k < j ==> cls(s[k])
    ensures j < |s| ==> !cls(s[j])
    decreases |s| - i
  {
    if i < |s| && cls(s[i]) then RunEnd(s, i + 1, cls) else i
  }

  /** The path part `[\w\-\./@]+` or `[\w\-\./@]+\.git`, running to the end. */
  predicate PathForm(p: string, needGit: bool) {
    AllChars(p, PathChar) && if needGit then |p| >= 5 && EndsWith(p, ".git") else |p| >= 1
  }

  /** The length of the scheme alternative that `s` starts with, tried in order; 0 when none. */
  function SchemeLength(s: string, schemes: seq<string>): (n: nat)
    ensures n <= |s|
  {
    if schemes == [] then 0
    else if |schemes[0]| > 0 && StartsWith(s, schemes[0]) then |schemes[0]|
    else SchemeLength(s, schemes[1..])
  }

  /**
   * Matches `[\w\-\.]+(:\d+)?<sep><path>` against `s[i..]`. The host run stops at the first
   * character outside its class, and neither `:` nor the separator is in it, so the greedy
   * run is the only one that can be followed by the rest; likewise for the port digits.
   */
  predicate RestMatches(s: string, i: nat, withPort: bool, sep: char, needGit: bool)
    requires i <= |s|
  {
    var h := RunEnd(s, i, HostChar);
    h > i && h < |s| &&
    if s[h] == sep then PathForm(s[h + 1..], needGit)
    else
      withPort && s[h] == ':' &&
      var d := RunEnd(s, h + 1, IsDigit);
      d > h + 1 && d < |s| && s[d] == sep && PathForm(s[d + 1..], needGit)
  }

  /** `re.match(pattern, url)` for one of the five anchored patterns. */
  predicate MatchesPattern(url: string, p: UrlPattern) {
    var b := Body(url);
    var n := SchemeLength(b, p.schemes);
    n > 0 && RestMatches(b, n, p.withPort, p.sep, p.needGit)
  }

  predicate AnyPatternMatches(url: string, patterns: seq<UrlPattern>) {
    exists k :: 0 <= k < |patterns| && MatchesPattern(url, patterns[k])
  }

  /** `validate_git_url`: a non-empty string matched by one of the five patterns. */
  predicate ValidateGitUrl(url: Json) {
    url.JString? && url.s != [] && AnyPatternMatches(url.s, GitUrlPatterns)
  }

  /**
   * The same language described by where its pieces lie: the host is `s[i..h]`, the
   * separator sits at `d`, and `s[h..d]` is empty or a `:` and a port number.
   */
  ghost predicate RestSplit(s: string, i: nat, withPort: bool, sep: char, needGit: bool, h: int, d: int) {
    i < h <= d < |s| && AllChars(s[i..h], HostChar) && s[d] == sep && PathForm(s[d + 1..], needGit)
    && (d == h || (withPort && s[h] == ':' && d > h + 1 && AllChars(s[h + 1..d], IsDigit)))
  }

  /** The greedy scan accepts exactly the strings that split as the pattern describes. */
  lemma {:induction false} RestMatchesIffSplit(s: string, i: nat, withPort: bool, sep: char, needGit: bool)
    requires i <= |s| && !HostChar(sep) && !HostChar(':') && !IsDigit(sep)
    requires withPort ==> sep != ':'
    ensures RestMatches(s, i, withPort, sep, needGit)
        <==> exists h, d :: RestSplit(s, i, withPort, sep, needGit, h, d)
  {
    if RestMatches(s, i, withPort, sep, needGit) {
      ScanGivesSplit(s, i, withPort, sep, needGit);
    }
    if exists h, d :: RestSplit(s, i, withPort, sep, needGit, h, d) {
      var h, d :| RestSplit(s, i, withPort, sep, needGit, h, d);
      SplitGivesScan(s, i, withPort, sep, needGit, h, d);
    }
  }

  lemma {:induction false} ScanGivesSplit(s: string, i: nat, withPort: bool, sep: char, needGit: bool)
    requires i <= |s| && RestMatches(s, i, withPort, sep, needGit)
    ensures exists h, d :: RestSplit(s, i, withPort, sep, needGit, h, d)
  {
    var h := RunEnd(s, i, HostChar);
    if s[h] == sep {
      assert RestSplit(s, i, withPort, sep, needGit, h, h);
    } else {
      var d := RunEnd(s, h + 1, IsDigit);
      assert RestSplit(s, i, withPort, sep, needGit, h, d);
    }
  }

  lemma {:induction false} SplitGivesScan(s: string, i: nat, withPort: bool, sep: char, needGit: bool, h: int, d: int)
    requires !HostChar(sep) && !HostChar(':') && !IsDigit(sep)
    requires withPort ==> sep != ':'
    requires RestSplit(s, i, withPort, sep, needGit, h, d)
    ensures RestMatches(s, i, withPort, sep, needGit)
  {
    SplitHostIsRun(s, i, withPort, sep, needGit, h, d);
    if d != h {
      SplitPortIsRun(s, i, withPort, sep, needGit, h, d);
      assert s[h] != sep;
    }
  }

  /** In a split, the host ends where the greedy host run ends. */
  lemma {:induction false} SplitHostIsRun(s: string, i: nat, withPort: bool, sep: char, needGit: bool, h: int, d: int)
    requires !HostChar(sep) && !HostChar(':')
    requires RestSplit(s, i, withPort, sep, needGit, h, d)
    ensures RunEnd(s, i, HostChar) == h
  {
    var j := RunEnd(s, i, HostChar);
    assert forall k :: i <= k < h ==> HostChar(s[k]) by {
      forall k | i <= k < h ensures HostChar(s[k]) {
        assert s[i..h][k - i] == s[k];
      }
    }
    assert !HostChar(s[h]);
  }

  /** In a split with a port, the port ends where the greedy digit run ends. */
  lemma {:induction false} SplitPortIsRun(s: string, i: nat, withPort: bool, sep: char, needGit: bool, h: int, d: int)
    requires !IsDigit(sep)
    requires RestSplit(s, i, withPort, sep, needGit, h, d) && d != h
    ensures RunEnd(s, h + 1, IsDigit) == d
  {
    var j := RunEnd(s, h + 1, IsDigit);
    assert forall k :: h + 1 <= k < d ==> IsDigit(s[k]) by {
      forall k | h + 1 <= k < d ensures IsDigit(s[k]) {
        assert s[h + 1..d][k - h - 1] == s[k];
      }
    }
  }

  /** No scheme alternative is a prefix of another, so at most one of them starts a string. */
  ghost predicate SchemesExclusive(schemes: seq<string>) {
    forall a, b :: a in schemes && b in schemes && StartsWith(a, b) ==> a == b
  }

  /** What the scan of a pattern relies on: its separator ends the host, and a port cannot be mistaken for it. */
  ghost predicate WellFormedPattern(p: UrlPattern) {
    SchemesExclusive(p.schemes) && !HostChar(p.sep) && !IsDigit(p.sep) && (p.withPort ==> p.sep != ':')
  }

  /** The language of a pattern: a scheme alternative, then a split as `RestSplit` describes. */
  ghost predicate InLanguage(url: string, p: UrlPattern) {
    exists sc, h, d :: sc in p.schemes && sc != [] && StartsWith(Body(url), sc)
      && RestSplit(Body(url), |sc|, p.withPort, p.sep, p.needGit, h, d)
  }

  lemma {:induction false} SchemeLengthFinds(s: string, schemes: seq<string>)
    requires SchemeLength(s, schemes) > 0
    ensures exists sc :: sc in schemes && sc != [] && StartsWith(s, sc) && |sc| == SchemeLength(s, schemes)
  {
    if |schemes[0]| > 0 && StartsWith(s, schemes[0]) {
      assert schemes[0] in schemes;
    } else {
      SchemeLengthFinds(s, schemes[1..]);
      var sc :| sc in schemes[1..] && sc != [] && StartsWith(s, sc) && |sc| == SchemeLength(s, schemes[1..]);
      assert sc in schemes;
    }
  }

  lemma {:induction false} SchemeLengthNone(s: string, schemes: seq<string>)
    requires forall k :: 0 <= k < |schemes| ==> !StartsWith(s, schemes[k])
    ensures SchemeLength(s, schemes) == 0
  {
    if schemes != [] {
      SchemeLengthNone(s, schemes[1..]);
    }
  }

  lemma {:induction false} SchemeLengthUnique(s: string, schemes: seq<string>, sc: string)
    requires SchemesExclusive(schemes)
    requires sc in schemes && sc != [] && StartsWith(s, sc)
    ensures SchemeLength(s, schemes) == |sc|
  {
    if |schemes[0]| > 0 && StartsWith(s, schemes[0]) {
      if |schemes[0]| <= |sc| {
        assert sc[..|schemes[0]|] == s[..|schemes[0]|];
        assert StartsWith(sc, schemes[0]);
      } else {
        assert schemes[0][..|sc|] == s[..|sc|];
        assert StartsWith(schemes[0], sc);
      }
    } else {
      assert sc in schemes[1..];
      assert SchemesExclusive(schemes[1..]) by {
        forall a, b | a in schemes[1..] && b in schemes[1..] && StartsWith(a, b) ensures a == b {
          assert a in schemes && b in schemes;
        }
      }
      SchemeLengthUnique(s, schemes[1..], sc);
    }
  }

  /** The scan of a well-formed pattern accepts exactly the strings of its language. */
  lemma {:induction false} MatchesPatternIffLanguage(url: string, p: UrlPattern)
    requires WellFormedPattern(p)
    ensures MatchesPattern(url, p) <==> InLanguage(url, p)
  {
    var b := Body(url);
    if MatchesPattern(url, p) {
      SchemeLengthFinds(b, p.schemes);
      var sc :| sc in p.schemes && sc != [] && StartsWith(b, sc) && |sc| == SchemeLength(b, p.schemes);
      RestMatchesIffSplit(b, |sc|, p.withPort, p.sep, p.needGit);
      var h, d :| RestSplit(b, |sc|, p.withPort, p.sep, p.needGit, h, d);
      assert InLanguage(url, p);
    }
    if InLanguage(url, p) {
      var sc, h, d :| sc in p.schemes && sc != [] && StartsWith(b, sc)
        && RestSplit(b, |sc|, p.withPort, p.sep, p.needGit, h, d);
      SchemeLengthUnique(b, p.schemes, sc);
      RestMatchesIffSplit(b, |sc|, p.withPort, p.sep, p.needGit);
    }
  }

  lemma {:induction false} PatternsWellFormed()
    ensures forall k :: 0 <= k < |GitUrlPatterns| ==> WellFormedPattern(GitUrlPatterns[k])
  {
    assert !StartsWith("https://", "http://") && !StartsWith("http://", "https://") by {
      assert "https://"[4] != "http://"[4];
    }
    assert !HostChar('/') && !HostChar(':') && !IsDigit('/') && !IsDigit(':');
  }

  /**
   * `validate_git_url` accepts exactly the non-empty strings that lie in the language of
   * at least one of the five patterns.
   */
  lemma {:induction false} ValidateGitUrlIff(url: string)
    ensures ValidateGitUrl(JString(url))
        <==> url != [] && exists k :: 0 <= k < |GitUrlPatterns| && InLanguage(url, GitUrlPatterns[k])
  {
    PatternsWellFormed();
    forall k | 0 <= k < |GitUrlPatterns| ensures MatchesPattern(url, GitUrlPatterns[k]) <==> InLanguage(url, GitUrlPatterns[k]) {
      MatchesPatternIffLanguage(url, GitUrlPatterns[k]);
    }
  }

  /** Every http(s) URL with a `.git` suffix that the first pattern accepts, the second accepts too. */
  lemma {:induction false} HttpsWithGitImpliesPlain(url: string)
    ensures MatchesPattern(url, HttpsWithGit) ==> MatchesPattern(url, HttpsPlain)
  {
  }

  /** A `git://` URL is accepted only through the fifth pattern, which requires the `.git` suffix. */
  lemma {:induction false} GitProtocolNeedsSuffix(url: string)
    requires StartsWith(url, "git://")
    ensures ValidateGitUrl(JString(url)) <==> MatchesPattern(url, GitProtocol)
    ensures ValidateGitUrl(JString(url)) ==> EndsWith(Body(url), ".git")
  {
    var b := Body(url);
    assert StartsWith(b, "git://") by {
      assert b[..6] == url[..6];
    }
    assert b[0] == 'g' && b[3] == ':';
    SchemeLengthNone(b, HttpsWithGit.schemes);
    SchemeLengthNone(b, SshWithGit.schemes);
    NoSchemeNoMatch(url, HttpsWithGit);
    NoSchemeNoMatch(url, HttpsPlain);
    NoSchemeNoMatch(url, SshWithGit);
    NoSchemeNoMatch(url, SshPlain);
    OnlyMatchingPattern(url, GitUrlPatterns, 4);
    if MatchesPattern(url, GitProtocol) {
      MatchedPathForm(url, GitProtocol);
    }
  }

  lemma {:induction false} NoSchemeNoMatch(url: string, p: UrlPattern)
    requires SchemeLength(Body(url), p.schemes) == 0
    ensures !MatchesPattern(url, p)
  {
  }

  /** When every pattern but one fails, the list accepts exactly when that one does. */
  lemma {:induction false} OnlyMatchingPattern(url: string, patterns: seq<UrlPattern>, k0: nat)
    requires k0 < |patterns|
    requires forall k :: 0 <= k < |patterns| && k != k0 ==> !MatchesPattern(url, patterns[k])
    ensures AnyPatternMatches(url, patterns) <==> MatchesPattern(url, patterns[k0])
  {
  }

  /** A pattern that requires `.git` only accepts URLs whose matched part ends with `.git`. */
  lemma {:induction false} MatchedPathForm(url: string, p: UrlPattern)
    requires p.needGit && MatchesPattern(url, p)
    ensures EndsWith(Body(url), ".git")
  {
    var b := Body(url);
    var h := RunEnd(b, SchemeLength(b, p.schemes), HostChar);
    var d := if b[h] == p.sep then h else RunEnd(b, h + 1, IsDigit);
    assert PathForm(b[d + 1..], true);
    EndsWithOfTail(b, d + 1, ".git");
  }

  /** A string ends with whatever one of its tails ends with. */
  lemma EndsWithOfTail(s: string, i: nat, t: string)
    requires i <= |s| && EndsWith(s[i..], t)
    ensures EndsWith(s, t)
  {
    assert s[|s| - |t|..] == s[i..][|s[i..]| - |t|..];
  }

  /** `$` also matches before a final newline, so a URL followed by one newline is accepted alike. */
  lemma {:induction false} FinalNewlineAccepted(url: string, p: UrlPattern)
    requires url == [] || url[|url| - 1] != '\n'
    ensures MatchesPattern(url + "\n", p) <==> MatchesPattern(url, p)
  {
    assert Body(url + "\n") == url;
  }

  // ---------------------------------------------------------------------------------------
  // The check request
  // ---------------------------------------------------------------------------------------

  const BodyRequired := "Request body is required"
  const RepositoryUrlRequired := "Field 'repository_url' is required"
  const InvalidRepositoryUrl := "Invalid repository URL format"
  const BranchInvalid := "Branch must be a non-empty string"
  const SpecFilesNotArray := "spec_files must be an array"
  const SpecFilesNotStrings := "All spec_files entries must be strings"
  const TargetPathsNotArray := "target_paths must be an array"
  const TargetPathsNotStrings := "All target_paths entries must be strings"
  const OptionsNotObject := "options must be an object"

  /** The exception Python raises for `in` on a number or boolean, or for indexing a list or string by a key. */
  const TypeErrorRaised := "TypeError"

  /** Python's `key in data` for a decoded JSON value. */
  function KeyPresent(data: Json, key: string): (r: Outcome<bool>)
    ensures r.Raised? <==> data.JNull? || data.JBool? || data.JNumber?
  {
    match data
    case JObject(fields) => Ok(key in fields)
    case JArray(items) => Ok(JString(key) in items)
    case JString(s) => Ok(Contains(s, key))
    case _ => Raised(TypeErrorRaised)
  }

  /** `isinstance(branch, str) and branch.strip()` */
  predicate NonBlankString(j: Json) {
    j.JString? && Strip(j.s) != []
  }

  /** `spec_files` / `target_paths`: the error of the first check that fails, `""` if none does. */
  function StringListError(fields: map<string, Json>, key: string, notArray: string, notStrings: string): string {
    if key !in fields then ""
    else if !fields[key].JArray? then notArray
    else if exists k :: 0 <= k < |fields[key].items| && !fields[key].items[k].JString? then notStrings
    else ""
  }

  /** The checks after the presence of `repository_url`, in their order. */
  function ValidateFields(fields: map<string, Json>): string
    requires "repository_url" in fields
  {
    if !ValidateGitUrl(fields["repository_url"]) then InvalidRepositoryUrl
    else if "branch" in fields && !NonBlankString(fields["branch"]) then BranchInvalid
    else
      var specError := StringListError(fields, "spec_files", SpecFilesNotArray, SpecFilesNotStrings);
      if specError != "" then specError
      else
        var pathError := StringListError(fields, "target_paths", TargetPathsNotArray, TargetPathsNotStrings);
        if pathError != "" then pathError
        else if "options" in fields && !fields["options"].JObject? then OptionsNotObject
        else ""
  }

  /**
   * `validate_check_request`: the error message of the first failing check, `""` when the
   * request is valid, or the exception a non-object body makes Python raise.
   */
  function ValidateCheckRequest(data: Json): (r: Outcome<string>)
    // A body that is not a JSON object makes Python raise instead of answering, unless it
    // is falsy or lacks `repository_url`; an object never makes it raise.
    ensures r.Raised?
        <==> Truthy(data) && (data.JNumber? || data.JBool?
             || (data.JArray? && JString("repository_url") in data.items)
             || (data.JString? && Contains(data.s, "repository_url")))
  {
    if !Truthy(data) then Ok(BodyRequired)
    else match KeyPresent(data, "repository_url")
      case Raised(e) => Raised(e)
      case Ok(present) =>
        if !present then Ok(RepositoryUrlRequired)
        else if data.JObject? then Ok(ValidateFields(data.fields))
        else Raised(TypeErrorRaised)
  }

  /** A JSON string with at least one non-whitespace character. */
  ghost predicate HasVisibleText(j: Json) {
    j.JString? && exists k :: 0 <= k < |j.s| && !IsSpace(j.s[k])
  }

  /** The number of checks made after `repository_url` is known to be present. */
  const StageCount := 7

  /** The message of each check after the presence of `repository_url`, in their order. */
  const StageMessages := [InvalidRepositoryUrl, BranchInvalid, SpecFilesNotArray, SpecFilesNotStrings,
                          TargetPathsNotArray, TargetPathsNotStrings, OptionsNotObject]

  /** What the `k`-th check demands of the request fields, stated without the code's early returns. */
  ghost predicate StageOk(fields: map<string, Json>, k: nat)
    requires "repository_url" in fields
  {
    if k == 0 then ValidateGitUrl(fields["repository_url"])
    else if k == 1 then "branch" in fields ==> HasVisibleText(fields["branch"])
    else if k == 2 then "spec_files" in fields ==> fields["spec_files"].JArray?
    else if k == 3 then
      "spec_files" in fields && fields["spec_files"].JArray?
      ==> forall e :: e in fields["spec_files"].items ==> e.JString?
    else if k == 4 then "target_paths" in fields ==> fields["target_paths"].JArray?
    else if k == 5 then
      "target_paths" in fields && fields["target_paths"].JArray?
      ==> forall e :: e in fields["target_paths"].items ==> e.JString?
    else "options" in fields ==> fields["options"].JObject?
  }

  ghost predicate PassesBefore(fields: map<string, Json>, k: nat)
    requires "repository_url" in fields
  {
    forall j :: 0 <= j < k ==> StageOk(fields, j)
  }

  lemma {:induction false} StageMessagesDistinct()
    ensures |StageMessages| == StageCount
    ensures forall i :: 0 <= i < StageCount ==> StageMessages[i] != ""
    ensures forall i, j :: 0 <= i < j < StageCount ==> StageMessages[i] != StageMessages[j]
  {
    assert forall i, j :: 0 <= i < j < StageCount ==> |StageMessages[i]| != |StageMessages[j]| || StageMessages[i][0] != StageMessages[j][0];
  }

  /** `ValidateFields` answers with the message of the first check that fails, or `""`. */
  lemma {:induction false} ValidateFieldsFirstFailure(fields: map<string, Json>)
    requires "repository_url" in fields
    ensures PassesBefore(fields, StageCount) ==> ValidateFields(fields) == ""
    ensures forall k :: 0 <= k < StageCount && PassesBefore(fields, k) && !StageOk(fields, k)
              ==> ValidateFields(fields) == StageMessages[k]
  {
    if "branch" in fields && fields["branch"].JString? {
      StripEmptyIffAllSpace(fields["branch"].s);
    }
    StringListErrorIff(fields, "spec_files", SpecFilesNotArray, SpecFilesNotStrings);
    StringListErrorIff(fields, "target_paths", TargetPathsNotArray, TargetPathsNotStrings);
    assert (StageOk(fields, 0) && StageOk(fields, 1) && StageOk(fields, 2) && StageOk(fields, 3)
            && StageOk(fields, 4) && StageOk(fields, 5) && StageOk(fields, 6))
           ==> ValidateFields(fields) == "";
    forall k | 0 <= k < StageCount && PassesBefore(fields, k) && !StageOk(fields, k)
      ensures ValidateFields(fields) == StageMessages[k]
    {
      if k >= 1 { assert StageOk(fields, 0); }
      if k >= 2 { assert StageOk(fields, 1); }
      if k >= 3 { assert StageOk(fields, 2); }
      if k >= 4 { assert StageOk(fields, 3); }
      if k >= 5 { assert StageOk(fields, 4); }
      if k >= 6 { assert StageOk(fields, 5); }
    }
  }

  lemma {:induction false} StringListErrorIff(fields: map<string, Json>, key: string, notArray: string, notStrings: string)
    requires notArray != "" && notStrings != "" && notArray != notStrings
    ensures StringListError(fields, key, notArray, notStrings) == ""
        <==> key in fields ==> fields[key].JArray? && forall e :: e in fields[key].items ==> e.JString?
    ensures StringListError(fields, key, notArray, notStrings) == notArray
        <==> key in fields && !fields[key].JArray?
  {
    if key in fields && fields[key].JArray? {
      var items := fields[key].items;
      if exists e :: e in items && !e.JString? {
        var e :| e in items && !e.JString?;
        var k :| 0 <= k < |items| && items[k] == e;
      }
    }
  }

  /** `ValidateFields` only ever answers `""` or one of the stage messages. */
  lemma {:induction false} ValidateFieldsAnswers(fields: map<string, Json>)
    requires "repository_url" in fields
    ensures ValidateFields(fields) == "" || ValidateFields(fields) in StageMessages
  {
  }

  /**
   * The first failure decides: the answer is the message of check `k` exactly when every
   * earlier check passes and check `k` fails, and it is `""` exactly when all pass.
   */
  lemma {:induction false} FirstFailureDecides(fields: map<string, Json>, k: nat)
    requires "repository_url" in fields && k < StageCount
    ensures ValidateFields(fields) == StageMessages[k] <==> PassesBefore(fields, k) && !StageOk(fields, k)
    ensures ValidateFields(fields) == "" <==> PassesBefore(fields, StageCount)
  {
    StageMessagesDistinct();
    ValidateFieldsFirstFailure(fields);
    if !PassesBefore(fields, StageCount) {
      var f := FirstFailedStage(fields, 0);
      assert ValidateFields(fields) == StageMessages[f];
    }
  }

  /** The first check from `from` on that fails, when earlier ones pass and some check fails. */
  ghost function FirstFailedStage(fields: map<string, Json>, from: nat): (f: nat)
    requires "repository_url" in fields && from <= StageCount
    requires PassesBefore(fields, from) && !PassesBefore(fields, StageCount)
    ensures from <= f < StageCount && PassesBefore(fields, f) && !StageOk(fields, f)
    decreases StageCount - from
  {
    if !StageOk(fields, from) then from
    else FirstFailedStage(fields, from + 1)
  }

  /** A request is valid exactly when it is a JSON object that has `repository_url` and passes every check. */
  lemma {:induction false} ValidRequestIff(data: Json)
    ensures ValidateCheckRequest(data) == Ok("")
        <==> data.JObject? && "repository_url" in data.fields && PassesBefore(data.fields, StageCount)
  {
    if data.JObject? && "repository_url" in data.fields {
      FirstFailureDecides(data.fields, 0);
    }
  }

  /**
   * The two checks before the field checks: an empty or false body and a missing
   * `repository_url` (for an array: no such entry; for a string: no such substring).
   */
  lemma {:induction false} EarlyChecks(data: Json)
    ensures ValidateCheckRequest(data) == Ok(BodyRequired) <==> !Truthy(data)
    ensures ValidateCheckRequest(data) == Ok(RepositoryUrlRequired)
        <==> Truthy(data) && match data
               case JObject(fields) => "repository_url" !in fields
               case JArray(items) => JString("repository_url") !in items
               case JString(s) => !Contains(s, "repository_url")
               case _ => false
  {
    StageMessagesDistinct();
    if data.JObject? && "repository_url" in data.fields {
      ValidateFieldsAnswers(data.fields);
    }
  }


  /** An `https://<host>/<path>.git` URL built from the allowed characters is accepted. */
  lemma {:induction false} HttpsUrlAccepted(url: string, host: string, path: string)
    requires url == "https://" + host + "/" + path
    requires host != [] && AllChars(host, HostChar)
    requires AllChars(path, PathChar) && |path| >= 5 && EndsWith(path, ".git")
    ensures ValidateGitUrl(JString(url))
  {
    HttpsUrlInLanguage(url, host, path);
    PatternsWellFormed();
    MatchesPatternIffLanguage(url, GitUrlPatterns[0]);
    assert MatchesPattern(url, GitUrlPatterns[0]);
  }

  /** Such a URL splits as the first pattern describes: scheme, host, no port, `/`, path. */
  lemma {:induction false} HttpsUrlInLanguage(url: string, host: string, path: string)
    requires url == "https://" + host + "/" + path
    requires host != [] && AllChars(host, HostChar)
    requires AllChars(path, PathChar) && |path| >= 5 && EndsWith(path, ".git")
    ensures InLanguage(url, HttpsWithGit)
  {
    assert Body(url) == url by {
      assert url[|url| - 1] == path[|path| - 1] == 't';
    }
    var h := 8 + |host|;
    assert url[8..h] == host && url[h] == '/' && url[h + 1..] == path;
    assert RestSplit(url, |"https://"|, true, '/', true, h, h);
    assert "https://" in HttpsWithGit.schemes && StartsWith(url, "https://");
  }

  /** A `git://` URL without the `.git` suffix is rejected. */
  lemma {:induction false} GitProtocolWithoutSuffixRejected(url: string)
    requires url == "git://example.com/repo"
    ensures !ValidateGitUrl(JString(url))
  {
    assert StartsWith(url, "git://");
    GitProtocolNeedsSuffix(url);
    assert Body(url) == url && !EndsWith(url, ".git");
  }
}
