/**
 * The HTTP layer (src/api/routes.py): the API-key guard every compliance endpoint is
 * wrapped in, and the handlers that trigger a check, report its status, list the
 * stored checks, serve the TODO.md report and delete a check.
 *
 * The module-level `checks_store` dictionary and the shared `ComplianceChecker` become
 * the fields of `Api`. `start_check` returns the very dictionary it files in the
 * checker, so the store and the checker's `active_checks` map each id to the same
 * `CheckRecord` object. Request headers, query arguments, the environment's `API_KEY`,
 * the uuid and the clock are parameters.
 */
module Routes {
  import opened Wrappers
  import opened Json
  import opened Strings
  import Sorting
  import Validators
  import GitIntegration
  import Checker

  type Fields = Checker.Fields

  // ---------------------------------------------------------------------------------------
  // Responses
  // ---------------------------------------------------------------------------------------

  /** What a handler answers: the JSON body (or markdown text) and the HTTP status. */
  datatype Response =
    | ErrorResponse(status: int, code: string, message: string, details: Option<string>)
    | CheckResponse(status: int, check: Fields)
    | ListResponse(status: int, total: nat, limit: int, offset: int, checks: seq<Fields>)
    | DeletedResponse(status: int, checkId: string)
    | MarkdownResponse(status: int, text: string)

  const ConfigurationError := "CONFIGURATION_ERROR"
  const Unauthorized := "UNAUTHORIZED"
  const InvalidRequest := "INVALID_REQUEST"
  const NotFound := "NOT_FOUND"
  const InternalError := "INTERNAL_ERROR"

  const NotConfiguredMessage := "API key authentication is not configured. Set API_KEY environment variable."
  const InvalidKeyMessage := "Invalid or missing API key"
  const StartFailedMessage := "Failed to start compliance check"
  const ListFailedMessage := "Failed to list checks"
  const NotCompletedMessage := "Check has not completed yet"
  const DeletedMessage := "Check deleted successfully"

  /** Stands for the text of the `ValueError` that `int()` raises on a malformed argument. */
  const ValueErrorName := "ValueError"

  /** `f'Check {check_id} not found'` with status 404. */
  function CheckNotFound(checkId: string): Response {
    ErrorResponse(404, NotFound, "Check " + checkId + " not found", None)
  }

  // ---------------------------------------------------------------------------------------
  // The API-key guard
  // ---------------------------------------------------------------------------------------

  const BearerPrefix := "Bearer "

  /** `request.headers.get('Authorization', '').replace('Bearer ', '')` */
  function PresentedKey(authorization: Option<string>): string {
    Replace(authorization.GetOr(""), BearerPrefix, "")
  }

  /**
   * `require_api_key`: the response that stops the request, or `None` to run the handler.
   * An unset or empty `API_KEY` is a configuration error (500) whatever the request
   * carries; otherwise a presented key that differs is refused (401).
   */
  function Denial(authorization: Option<string>, apiKey: Option<string>): (r: Option<Response>)
    ensures r.None? <==> apiKey.Some? && apiKey.value != "" && PresentedKey(authorization) == apiKey.value
    ensures apiKey.None? || apiKey.value == "" ==> r == Some(ErrorResponse(500, ConfigurationError, NotConfiguredMessage, None))
    ensures r.Some? && apiKey.Some? && apiKey.value != "" ==> r == Some(ErrorResponse(401, Unauthorized, InvalidKeyMessage, None))
  {
    if apiKey.None? || apiKey.value == "" then Some(ErrorResponse(500, ConfigurationError, NotConfiguredMessage, None))
    else if PresentedKey(authorization) != apiKey.value then Some(ErrorResponse(401, Unauthorized, InvalidKeyMessage, None))
    else None
  }

  /** `Authorization: Bearer <key>` passes when `<key>` is the configured key and does not contain the prefix. */
  lemma {:induction false} BearerHeaderAccepted(key: string, header: string)
    requires key != "" && !Contains(key, BearerPrefix)
    requires header == BearerPrefix + key
    ensures Denial(Some(header), Some(key)).None?
  {
    assert header[..|BearerPrefix|] == BearerPrefix;
    assert header[|BearerPrefix|..] == key;
    ReplaceWithoutOccurrence(key, BearerPrefix, "");
    assert Replace(header, BearerPrefix, "") == "" + Replace(key, BearerPrefix, "");
  }

  /** The prefix is optional: the bare key passes too. */
  lemma {:induction false} BareKeyAccepted(key: string)
    requires key != "" && !Contains(key, BearerPrefix)
    ensures Denial(Some(key), Some(key)).None?
  {
    ReplaceWithoutOccurrence(key, BearerPrefix, "");
  }

  /** Every occurrence of the prefix is removed, so a repeated prefix passes as well. */
  lemma {:induction false} RepeatedPrefixAccepted(key: string, header: string)
    requires key != "" && !Contains(key, BearerPrefix)
    requires header == BearerPrefix + BearerPrefix + key
    ensures Denial(Some(header), Some(key)).None?
  {
    var rest := BearerPrefix + key;
    assert header == BearerPrefix + rest;
    assert header[..|BearerPrefix|] == BearerPrefix && header[|BearerPrefix|..] == rest;
    assert rest[..|BearerPrefix|] == BearerPrefix && rest[|BearerPrefix|..] == key;
    ReplaceWithoutOccurrence(key, BearerPrefix, "");
    assert Replace(rest, BearerPrefix, "") == "" + Replace(key, BearerPrefix, "");
    assert Replace(header, BearerPrefix, "") == "" + Replace(rest, BearerPrefix, "");
  }

  /** Without a header the presented key is empty, and an empty key is never configured. */
  lemma {:induction false} MissingHeaderRefused(apiKey: Option<string>)
    ensures Denial(None, apiKey).Some?
  {
    assert PresentedKey(None) == "";
  }

  // ---------------------------------------------------------------------------------------
  // Triggering a check
  // ---------------------------------------------------------------------------------------

  /** The arguments `trigger_compliance_check` passes to `start_check`. */
  datatype CheckRequest = CheckRequest(repositoryUrl: string, branch: string, specFiles: Option<seq<string>>,
                                       targetPaths: Option<seq<string>>, options: Json)

  /** The texts of a list of JSON strings. */
  function Texts(items: seq<Json>): (r: seq<string>)
    requires forall e | e in items :: e.JString?
    ensures |r| == |items| && forall k | 0 <= k < |items| :: items[k] == JString(r[k])
  {
    assert forall k | 0 <= k < |items| :: items[k] in items;
    seq(|items|, k requires 0 <= k < |items| => items[k].s)
  }

  /** `data.get('spec_files')` / `data.get('target_paths')` once validation has passed. */
  function StringList(fields: map<string, Json>, key: string): Option<seq<string>>
    requires key in fields ==> fields[key].JArray? && forall e | e in fields[key].items :: e.JString?
  {
    if key in fields then Some(Texts(fields[key].items)) else None
  }

  /**
   * The request a valid body describes. What the new record stores for each field is the
   * body's own value: the URL, the branch (default `main`), the two lists (JSON null when
   * absent) and the options (an empty object when absent or empty).
   */
  function RequestOf(fields: map<string, Json>): (req: CheckRequest)
    requires "repository_url" in fields && Validators.ValidateFields(fields) == ""
    ensures JString(req.repositoryUrl) == fields["repository_url"]
    ensures "branch" in fields ==> JString(req.branch) == fields["branch"] && Strip(req.branch) != ""
    ensures "branch" !in fields ==> req.branch == "main"
    ensures Checker.StringListJson(req.specFiles) == if "spec_files" in fields then fields["spec_files"] else JNull
    ensures Checker.StringListJson(req.targetPaths) == if "target_paths" in fields then fields["target_paths"] else JNull
    ensures req.options == if "options" in fields then fields["options"] else JObject(map[])
    ensures req.options.JObject?
  {
    Validators.StringListErrorIff(fields, "spec_files", Validators.SpecFilesNotArray, Validators.SpecFilesNotStrings);
    Validators.StringListErrorIff(fields, "target_paths", Validators.TargetPathsNotArray, Validators.TargetPathsNotStrings);
    var r := CheckRequest(
      fields["repository_url"].s,
      if "branch" in fields then fields["branch"].s else "main",
      StringList(fields, "spec_files"),
      StringList(fields, "target_paths"),
      if "options" in fields then fields["options"] else JObject(map[]));
    StringListRoundTrip(fields, "spec_files");
    StringListRoundTrip(fields, "target_paths");
    r
  }

  /** Reading a list of strings and storing it again gives back the body's value. */
  lemma StringListRoundTrip(fields: map<string, Json>, key: string)
    requires key in fields ==> fields[key].JArray? && forall e | e in fields[key].items :: e.JString?
    ensures Checker.StringListJson(StringList(fields, key)) == if key in fields then fields[key] else JNull
  {
    if key in fields {
      var items := fields[key].items;
      var back := Checker.StringListJson(StringList(fields, key));
      assert back.items == items;
    }
  }

  /**
   * The body of `trigger_compliance_check` after the guard: the error a failed
   * `get_json` or validation answers with, or the request to start.
   */
  function TriggerDecision(body: Outcome<Json>): (r: Outcome<CheckRequest>)
    ensures r.Ok? <==> body.Ok? && Validators.ValidateCheckRequest(body.value) == Ok("")
    ensures r.Ok? ==> body.value.JObject? && r.value == RequestOf(body.value.fields)
  {
    match body
    case Raised(e) => Raised(e)
    case Ok(data) =>
      match Validators.ValidateCheckRequest(data)
      case Raised(e) => Raised(e)
      case Ok(message) =>
        if message != "" then Raised(message)
        else
          Validators.ValidRequestIff(data);
          Ok(RequestOf(data.fields))
  }

  /** The response a body that does not start a check gets. */
  function TriggerRefusal(body: Outcome<Json>): (r: Response)
    requires TriggerDecision(body).Raised?
    ensures body.Ok? && Validators.ValidateCheckRequest(body.value).Ok? ==>
      r == ErrorResponse(400, InvalidRequest, Validators.ValidateCheckRequest(body.value).value, None)
    ensures body.Raised? ==> r == ErrorResponse(500, InternalError, StartFailedMessage, Some(body.error))
    ensures body.Ok? && Validators.ValidateCheckRequest(body.value).Raised? ==>
      r == ErrorResponse(500, InternalError, StartFailedMessage, Some(Validators.ValidateCheckRequest(body.value).error))
  {
    match body
    case Raised(e) => ErrorResponse(500, InternalError, StartFailedMessage, Some(e))
    case Ok(data) =>
      match Validators.ValidateCheckRequest(data)
      case Raised(e) => ErrorResponse(500, InternalError, StartFailedMessage, Some(e))
      case Ok(message) => ErrorResponse(400, InvalidRequest, message, None)
  }

  // ---------------------------------------------------------------------------------------
  // Listing
  // ---------------------------------------------------------------------------------------

  const DefaultLimit := 20
  const DefaultOffset := 0

  /** Every character is a decimal digit, as `int()` reads them. */
  predicate AllDigits(s: string) {
    forall k | 0 <= k < |s| :: IsDigit(s[k])
  }

  /** Python's `int()` on a query argument: surrounding blanks, an optional sign, then digits. */
  function PyInt(s: string): (r: Option<int>)
    ensures r.Some? ==> Strip(s) != ""
  {
    var t := Strip(s);
    if t == "" then None
    else
      var sign := if t[0] == '-' then -1 else 1;
      var digits := if t[0] == '-' || t[0] == '+' then t[1..] else t;
      if digits != "" && AllDigits(digits) then Some(sign * ParseNat(digits))
      else None
  }

  /** Decimal text reads back as its number. */
  lemma {:induction false} PyIntOfDecimal(n: nat)
    ensures PyInt(NatToString(n)) == Some(n)
  {
    var d := NatToString(n);
    StripOfDigits(d);
    ParseNatToString(n);
    PyIntOfDigits(d, d, false, n);
  }

  /** A minus sign in front negates it. */
  lemma {:induction false} PyIntOfNegativeDecimal(n: nat)
    ensures PyInt("-" + NatToString(n)) == Some(-(n as int))
  {
    var d := NatToString(n);
    var t := "-" + d;
    StripOfDigits(t);
    ParseNatToString(n);
    PyIntOfDigits(t, d, true, n);
  }

  /** Digits, bare or after a minus sign, with nothing for `strip` to remove, read as their number. */
  lemma PyIntOfDigits(t: string, digits: string, negative: bool, n: nat)
    requires digits != [] && AllDigits(digits)
    requires ParseNat(digits) == n && Strip(t) == t
    requires !negative ==> t == digits && digits[0] != '-' && digits[0] != '+'
    requires negative ==> t == "-" + digits
    ensures PyInt(t) == Some(if negative then -(n as int) else n)
  {
    if negative {
      assert t[0] == '-' && t[1..] == digits;
    }
  }

  /** Text that starts and ends with a non-blank character is left alone by `strip`. */
  lemma {:induction false} StripOfDigits(s: string)
    requires s != [] && !IsSpace(s[0]) && !IsSpace(s[|s| - 1])
    ensures Strip(s) == s
  {
  }

  /** `int(request.args.get(name, default))` */
  function IntArg(arg: Option<string>, default: int): Option<int> {
    match arg
    case None => Some(default)
    case Some(s) => PyInt(s)
  }

  /** `c.get('status') == status_filter` */
  predicate HasStatus(c: Fields, status: string) {
    Checker.StatusKey in c && c[Checker.StatusKey] == JString(status)
  }

  /** `[c for c in checks if c.get('status') == status_filter]` */
  function WithStatus(checks: seq<Fields>, status: string): (r: seq<Fields>)
    ensures |r| <= |checks|
    ensures forall c :: c in r <==> c in checks && HasStatus(c, status)
    ensures forall c | HasStatus(c, status) :: multiset(r)[c] == multiset(checks)[c]
  {
    if checks == [] then []
    else
      var rest := WithStatus(checks[1..], status);
      assert checks == [checks[0]] + checks[1..];
      if HasStatus(checks[0], status) then [checks[0]] + rest else rest
  }

  /** `repo_filter in c.get('repository', '')`, which raises for a value `in` cannot search. */
  function RepositoryHas(c: Fields, filter: string): Outcome<bool> {
    Validators.KeyPresent(if Checker.RepositoryKey in c then c[Checker.RepositoryKey] else JString(""), filter)
  }

  /** `[c for c in checks if repo_filter in c.get('repository', '')]` */
  function WithRepository(checks: seq<Fields>, filter: string): (r: Outcome<seq<Fields>>)
    ensures r.Raised? <==> exists c :: c in checks && RepositoryHas(c, filter).Raised?
    ensures r.Ok? ==> |r.value| <= |checks|
    ensures r.Ok? ==> forall c :: c in r.value <==> c in checks && RepositoryHas(c, filter) == Ok(true)
    ensures r.Ok? ==> forall c | RepositoryHas(c, filter) == Ok(true) :: multiset(r.value)[c] == multiset(checks)[c]
  {
    if checks == [] then Ok([])
    else
      assert checks == [checks[0]] + checks[1..];
      match RepositoryHas(checks[0], filter)
      case Raised(e) => Raised(e)
      case Ok(found) =>
        match WithRepository(checks[1..], filter)
        case Raised(e) => Raised(e)
        case Ok(rest) => Ok(if found then [checks[0]] + rest else rest)
  }

  /** A record's repository name contains the filter exactly when the filter passes it. */
  lemma RepositoryFilterOnNames(c: Fields, filter: string, name: string)
    requires Checker.RepositoryKey in c && c[Checker.RepositoryKey] == JString(name)
    ensures RepositoryHas(c, filter) == Ok(Contains(name, filter))
  {
  }

  /** `x.get('started_at', '')` for the string timestamps the checker writes. */
  function StartedAt(c: Fields): string {
    if Checker.StartedAtKey in c && c[Checker.StartedAtKey].JString? then c[Checker.StartedAtKey].s else ""
  }

  /** The descending order of `sort(..., reverse=True)`. */
  predicate Later(a: string, b: string) {
    LexLe(b, a)
  }

  lemma LaterTotalOrder()
    ensures Sorting.TotalOrder(Later)
  {
    forall a ensures Later(a, a) { LexLeReflexive(a); }
    forall a, b | Later(a, b) && Later(b, a) ensures a == b { LexLeAntisymmetric(a, b); }
    forall a, b, c | Later(a, b) && Later(b, c) ensures Later(a, c) { LexLeTransitive(c, b, a); }
    forall a, b ensures Later(a, b) || Later(b, a) { LexLeTotal(a, b); }
  }

  /** `checks.sort(key=lambda x: x.get('started_at', ''), reverse=True)`: a stable sort, newest first. */
  function NewestFirst(checks: seq<Fields>): seq<Fields> {
    Sorting.SortBy(checks, StartedAt, Later)
  }

  /** A Python slice bound: negative counts from the end, then clamped to the list. */
  function SliceBound(i: int, n: nat): (k: nat)
    ensures k <= n
    ensures 0 <= i <= n ==> k == i
  {
    if i < 0 then (if i + n < 0 then 0 else i + n) else if i > n then n else i
  }

  /** `checks[offset:offset + limit]` */
  function Page<T>(xs: seq<T>, offset: int, limit: int): seq<T> {
    var lo := SliceBound(offset, |xs|);
    var hi := SliceBound(offset + limit, |xs|);
    if lo < hi then xs[lo..hi] else []
  }

  /** With a non-negative offset and limit a page holds at most `limit` records, taken in order from `offset`. */
  lemma PageWindow<T>(xs: seq<T>, offset: int, limit: int)
    requires offset >= 0 && limit >= 0
    ensures |Page(xs, offset, limit)| <= limit
    ensures |Page(xs, offset, limit)| == if offset >= |xs| then 0 else Min(limit, |xs| - offset)
    ensures forall k | 0 <= k < |Page(xs, offset, limit)| :: Page(xs, offset, limit)[k] == xs[offset + k]
  {
  }

  function Min(a: int, b: int): int {
    if a <= b then a else b
  }

  /** Consecutive pages put together are the page that spans both. */
  lemma PagesTile<T>(xs: seq<T>, offset: int, a: int, b: int)
    requires offset >= 0 && a >= 0 && b >= 0
    ensures Page(xs, offset, a) + Page(xs, offset + a, b) == Page(xs, offset, a + b)
  {
    var n := |xs|;
    if offset + a <= n && offset + a + b <= n {
      assert xs[offset..offset + a] + xs[offset + a..offset + a + b] == xs[offset..offset + a + b];
    } else if offset + a <= n {
      assert xs[offset..offset + a] + xs[offset + a..n] == xs[offset..n];
    }
  }

  /**
   * The end index is computed before it is normalised, so a negative offset no further
   * back than `limit` pages nothing: with more records than `limit`, `offset = -k`
   * (for `0 < k <= limit`) yields nothing.
   */
  lemma NegativeOffsetOnLongList<T>(xs: seq<T>, k: int, limit: int)
    requires 0 < k <= limit && |xs| > limit
    ensures Page(xs, -k, limit) == []
  {
  }

  /** A negative offset further back than `limit` counts from the end: `offset = -k` pages `limit` records from `n - k`. */
  lemma NegativeOffsetFromEnd<T>(xs: seq<T>, k: int, limit: int)
    requires 0 <= limit < k <= |xs|
    ensures Page(xs, -k, limit) == xs[|xs| - k..|xs| - k + limit]
  {
  }

  /** The filters of `list_compliance_checks`; an empty filter is no filter. */
  function Selected(checks: seq<Fields>, status: Option<string>, repository: Option<string>): Outcome<seq<Fields>> {
    var byStatus := if status.Some? && status.value != "" then WithStatus(checks, status.value) else checks;
    if repository.Some? && repository.value != "" then WithRepository(byStatus, repository.value) else Ok(byStatus)
  }

  /** Whether a record passes both filters. */
  predicate Admits(c: Fields, status: Option<string>, repository: Option<string>) {
    && (status.Some? && status.value != "" ==> HasStatus(c, status.value))
    && (repository.Some? && repository.value != "" ==> RepositoryHas(c, repository.value) == Ok(true))
  }

  /** `list_compliance_checks` after the guard, on the store's records in insertion order. */
  function Listing(checks: seq<Fields>, status: Option<string>, repository: Option<string>,
                   limitArg: Option<string>, offsetArg: Option<string>): Response {
    match (IntArg(limitArg, DefaultLimit), IntArg(offsetArg, DefaultOffset))
    case (None, _) => ErrorResponse(500, InternalError, ListFailedMessage, Some(ValueErrorName))
    case (_, None) => ErrorResponse(500, InternalError, ListFailedMessage, Some(ValueErrorName))
    case (Some(limit), Some(offset)) =>
      match Selected(checks, status, repository)
      case Raised(e) => ErrorResponse(500, InternalError, ListFailedMessage, Some(e))
      case Ok(selected) =>
        var sorted := NewestFirst(selected);
        ListResponse(200, |sorted|, limit, offset, Page(sorted, offset, limit))
  }

  /**
   * The filters raise exactly when the repository filter is on and some record that
   * passes the status filter has a repository `in` cannot search; otherwise they keep
   * precisely the records both filters admit, each as often as the store holds it.
   */
  lemma {:induction false} SelectedCorrect(checks: seq<Fields>, status: Option<string>, repository: Option<string>)
    ensures Selected(checks, status, repository).Raised? <==>
      repository.Some? && repository.value != ""
      && exists c :: c in checks && Admits(c, status, None) && RepositoryHas(c, repository.value).Raised?
    ensures Selected(checks, status, repository).Ok? ==>
      var selected := Selected(checks, status, repository).value;
      && (forall c :: c in selected <==> c in checks && Admits(c, status, repository))
      && (forall c | Admits(c, status, repository) :: multiset(selected)[c] == multiset(checks)[c])
  {
    var byStatus := if status.Some? && status.value != "" then WithStatus(checks, status.value) else checks;
    assert forall c :: c in byStatus <==> c in checks && Admits(c, status, None);
    assert forall c | Admits(c, status, None) :: multiset(byStatus)[c] == multiset(checks)[c];
  }

  /** Newest first: a permutation of the records, ordered by descending `started_at`. */
  lemma {:induction false} NewestFirstCorrect(checks: seq<Fields>)
    ensures multiset(NewestFirst(checks)) == multiset(checks)
    ensures forall i, j | 0 <= i < j < |NewestFirst(checks)| ::
      LexLe(StartedAt(NewestFirst(checks)[j]), StartedAt(NewestFirst(checks)[i]))
    ensures forall t :: Sorting.WithKey(NewestFirst(checks), StartedAt, t) == Sorting.WithKey(checks, StartedAt, t)
  {
    LaterTotalOrder();
    Sorting.SortByCorrect(checks, StartedAt, Later);
  }

  /**
   * A listing answers 200 exactly when both numbers parse and the filters do not raise.
   * It then counts the records both filters admit; its page holds only such records,
   * newest first, and a window from 0 that covers them all holds each of them as often
   * as the store does.
   */
  lemma {:induction false} ListingCorrect(checks: seq<Fields>, status: Option<string>, repository: Option<string>,
                                          limitArg: Option<string>, offsetArg: Option<string>)
    ensures var r := Listing(checks, status, repository, limitArg, offsetArg);
      r.ListResponse? <==>
        IntArg(limitArg, DefaultLimit).Some? && IntArg(offsetArg, DefaultOffset).Some?
        && Selected(checks, status, repository).Ok?
    ensures var r := Listing(checks, status, repository, limitArg, offsetArg);
      r.ListResponse? ==>
        && r.status == 200
        && r.limit == IntArg(limitArg, DefaultLimit).value && r.offset == IntArg(offsetArg, DefaultOffset).value
        && r.total == |Selected(checks, status, repository).value|
        && (forall c :: c in r.checks ==> c in checks && Admits(c, status, repository))
        && (forall i, j | 0 <= i < j < |r.checks| :: LexLe(StartedAt(r.checks[j]), StartedAt(r.checks[i])))
        && (r.offset == 0 && r.limit >= r.total ==>
              forall c | Admits(c, status, repository) :: multiset(r.checks)[c] == multiset(checks)[c])
    ensures var r := Listing(checks, status, repository, limitArg, offsetArg);
      !r.ListResponse? ==> r.ErrorResponse? && r.status == 500 && r.message == ListFailedMessage
  {
    var r := Listing(checks, status, repository, limitArg, offsetArg);
    if r.ListResponse? {
      var selected := Selected(checks, status, repository).value;
      SelectedCorrect(checks, status, repository);
      NewestPage(selected, r.offset, r.limit);
      assert r.checks == Page(NewestFirst(selected), r.offset, r.limit);
    }
  }

  /** A page of the newest-first order: records of the input, still newest first, and all of them when the window covers the list. */
  lemma {:induction false} NewestPage(selected: seq<Fields>, offset: int, limit: int)
    ensures |NewestFirst(selected)| == |selected|
    ensures var page := Page(NewestFirst(selected), offset, limit);
      && (forall c :: c in page ==> c in selected)
      && (forall i, j | 0 <= i < j < |page| :: LexLe(StartedAt(page[j]), StartedAt(page[i])))
      && (offset == 0 && limit >= |selected| ==> multiset(page) == multiset(selected))
  {
    var sorted := NewestFirst(selected);
    NewestFirstCorrect(selected);
    assert |sorted| == |multiset(sorted)| == |multiset(selected)| == |selected|;
    PageSortedWindow(sorted, offset, limit);
    forall c | c in Page(sorted, offset, limit) ensures c in selected {
      assert c in multiset(sorted);
    }
    if offset == 0 && limit >= |selected| {
      assert Page(sorted, offset, limit) == sorted;
    }
  }

  /** A page of a list keeps its elements, and a page of a list that is newest first is too. */
  lemma {:induction false} PageSortedWindow(xs: seq<Fields>, offset: int, limit: int)
    requires forall i, j | 0 <= i < j < |xs| :: LexLe(StartedAt(xs[j]), StartedAt(xs[i]))
    ensures forall c | c in Page(xs, offset, limit) :: c in xs
    ensures forall i, j | 0 <= i < j < |Page(xs, offset, limit)| ::
      LexLe(StartedAt(Page(xs, offset, limit)[j]), StartedAt(Page(xs, offset, limit)[i]))
  {
    var lo := SliceBound(offset, |xs|);
    var hi := SliceBound(offset + limit, |xs|);
    var p := Page(xs, offset, limit);
    if lo < hi {
      assert forall k | 0 <= k < |p| :: p[k] == xs[lo + k];
    }
  }

  // ---------------------------------------------------------------------------------------
  // The store and the handlers
  // ---------------------------------------------------------------------------------------

  /** `ids` with `id` taken out, in order. */
  function Without(ids: seq<string>, id: string): (r: seq<string>)
    ensures forall x :: x in r <==> x in ids && x != id
    ensures |r| <= |ids|
  {
    if ids == [] then []
    else if ids[0] == id then Without(ids[1..], id)
    else [ids[0]] + Without(ids[1..], id)
  }

  /** No id occurs twice. */
  predicate Distinct(ids: seq<string>) {
    forall i, j | 0 <= i < j < |ids| :: ids[i] != ids[j]
  }

  /** Taking an id out keeps the others distinct. */
  lemma {:induction false} WithoutDistinct(ids: seq<string>, id: string)
    requires Distinct(ids)
    ensures Distinct(Without(ids, id))
    decreases |ids|
  {
    if ids != [] {
      WithoutDistinct(ids[1..], id);
      if ids[0] != id {
        assert ids[0] !in ids[1..];
        assert ids[0] !in Without(ids[1..], id);
      }
    }
  }

  class Api {
    const checker: Checker.ComplianceChecker
    /** `checks_store`: the records the API has handed out, by id. */
    var store: map<string, Checker.CheckRecord>
    /** The store's ids in insertion order, the order `checks_store.values()` yields. */
    var order: seq<string>

    /** Store and checker hold the same records, and `order` lists each stored id once. */
    ghost predicate Valid()
      reads this, checker
    {
      && store == checker.activeChecks
      && (forall id :: id in order <==> id in store)
      && Distinct(order)
    }

    constructor()
      ensures Valid() && fresh(checker) && store == map[] && order == []
      ensures checker.checkResults == map[]
    {
      checker := new Checker.ComplianceChecker();
      store := map[];
      order := [];
    }

    /** `list(checks_store.values())`: the stored records as they are now. */
    function Snapshot(): (r: seq<Fields>)
      reads this, store.Values
      requires forall id | id in order :: id in store
      ensures |r| == |order| && forall k | 0 <= k < |order| :: r[k] == store[order[k]].fields
    {
      seq(|order|, k requires 0 <= k < |order| && order[k] in store reads this, store.Values => store[order[k]].fields)
    }

    /** `POST /compliance/check`. */
    method TriggerCheck(authorization: Option<string>, apiKey: Option<string>, body: Outcome<Json>,
                        uuidHex: string, startedAt: string, estimatedCompletion: string) returns (r: Response)
      requires Valid() && GitIntegration.IsUuidHex(uuidHex)
      modifies this, checker
      ensures Valid()
      ensures Denial(authorization, apiKey).Some? ==>
        r == Denial(authorization, apiKey).value && store == old(store) && order == old(order)
      ensures Denial(authorization, apiKey).None? && TriggerDecision(body).Raised? ==>
        r == TriggerRefusal(body) && store == old(store) && order == old(order)
      ensures Denial(authorization, apiKey).None? && TriggerDecision(body).Ok? ==>
        var id := Checker.CheckId(uuidHex);
        var req := TriggerDecision(body).value;
        && r == CheckResponse(202, Checker.InitialRecord(id, req.repositoryUrl, req.branch, req.specFiles,
                                                         req.targetPaths, req.options, startedAt, estimatedCompletion))
        && id in store && store[id].fields == r.check && fresh(store[id])
        && store == old(store)[id := store[id]]
        && order == if id in old(store) then old(order) else old(order) + [id]
      ensures checker.checkResults == old(checker.checkResults)
    {
      var denied := Denial(authorization, apiKey);
      if denied.Some? {
        return denied.value;
      }
      var decision := TriggerDecision(body);
      if decision.Raised? {
        return TriggerRefusal(body);
      }
      var req := decision.value;
      var record := checker.StartCheck(req.repositoryUrl, req.branch, req.specFiles, req.targetPaths,
                                       req.options, uuidHex, startedAt, estimatedCompletion);
      var id := Checker.CheckId(uuidHex);
      if id !in store {
        order := order + [id];
      }
      store := store[id := record];
      r := CheckResponse(202, record.fields);
    }

    /**
     * The background thread `start_check` launches, run to its end: it updates the shared
     * record in place, so the store sees the progress and the outcome without being
     * touched. A record `start_check` made holds the keys the completion step reads, so
     * once clone and load succeed the check ends completed and its report is served.
     */
    method RunInBackground(checkId: string, repositoryUrl: string, branch: string, specFiles: Option<seq<string>>,
                           targetPaths: Option<seq<string>>, env: Checker.Environment, world: Checker.World,
                           cloneId: string, commitId: string, completedAt: string, commitTimestamp: string)
      requires Valid()
      modifies checker, checker.git, if checkId in store then {store[checkId]} else {}
      ensures Valid() && store == old(store) && order == old(order)
      ensures var workspace := GitIntegration.CloneWorkspace(checker.git.workspaceBase, cloneId);
        && checkId in store && Checker.Completes(old(store[checkId].fields))
        && Checker.CloneResult(checker.git.workspaceBase, repositoryUrl, branch, env.gitToken, cloneId, world.git).Ok?
        && world.loadSpecs(workspace, specFiles).Ok?
        ==>
        && HasStatus(store[checkId].fields, Checker.StatusCompleted)
        && checker.GetTodoContent(checkId) == world.generateTodo(repositoryUrl, branch,
             Checker.FoundIssues(workspace, world.loadSpecs(workspace, specFiles).value, targetPaths, world))
    {
      checker.RunCheck(checkId, repositoryUrl, branch, specFiles, targetPaths, env, world,
                       cloneId, commitId, completedAt, commitTimestamp);
    }

    /** `GET /compliance/check/<check_id>`; the `update` with the checker's record is a no-op, as both are one object. */
    function GetCheckStatus(authorization: Option<string>, apiKey: Option<string>, checkId: string): (r: Response)
      reads this, store.Values
      ensures Denial(authorization, apiKey).Some? ==> r == Denial(authorization, apiKey).value
      ensures Denial(authorization, apiKey).None? && checkId !in store ==> r == CheckNotFound(checkId)
      ensures Denial(authorization, apiKey).None? && checkId in store ==> r == CheckResponse(200, store[checkId].fields)
    {
      if Denial(authorization, apiKey).Some? then Denial(authorization, apiKey).value
      else if checkId !in store then CheckNotFound(checkId)
      else CheckResponse(200, store[checkId].fields)
    }

    /** `GET /compliance/checks` */
    function ListChecks(authorization: Option<string>, apiKey: Option<string>, status: Option<string>,
                        repository: Option<string>, limitArg: Option<string>, offsetArg: Option<string>): (r: Response)
      reads this, store.Values
      requires forall id | id in order :: id in store
      ensures Denial(authorization, apiKey).Some? ==> r == Denial(authorization, apiKey).value
      ensures Denial(authorization, apiKey).None? ==> r == Listing(Snapshot(), status, repository, limitArg, offsetArg)
    {
      if Denial(authorization, apiKey).Some? then Denial(authorization, apiKey).value
      else Listing(Snapshot(), status, repository, limitArg, offsetArg)
    }

    /** `GET /compliance/check/<check_id>/todo`: the report of a completed check, as markdown. */
    function GetTodoReport(authorization: Option<string>, apiKey: Option<string>, checkId: string): (r: Response)
      reads this, store.Values, checker
      ensures Denial(authorization, apiKey).Some? ==> r == Denial(authorization, apiKey).value
      ensures Denial(authorization, apiKey).None? && checkId !in store ==> r == CheckNotFound(checkId)
      ensures Denial(authorization, apiKey).None? && checkId in store ==>
        (r.MarkdownResponse? <==> HasStatus(store[checkId].fields, Checker.StatusCompleted))
      ensures r.MarkdownResponse? ==> r.status == 200 && r.text == checker.GetTodoContent(checkId)
      ensures Denial(authorization, apiKey).None? && checkId in store && !r.MarkdownResponse? ==>
        r == ErrorResponse(400, InvalidRequest, NotCompletedMessage, None)
    {
      if Denial(authorization, apiKey).Some? then Denial(authorization, apiKey).value
      else if checkId !in store then CheckNotFound(checkId)
      else if !HasStatus(store[checkId].fields, Checker.StatusCompleted) then
        ErrorResponse(400, InvalidRequest, NotCompletedMessage, None)
      else MarkdownResponse(200, checker.GetTodoContent(checkId))
    }

    /** `DELETE /compliance/check/<check_id>`: forgets the check in the store and in the checker. */
    method DeleteCheck(authorization: Option<string>, apiKey: Option<string>, checkId: string) returns (r: Response)
      requires Valid()
      modifies this, checker
      ensures Valid()
      ensures Denial(authorization, apiKey).Some? ==>
        r == Denial(authorization, apiKey).value && store == old(store) && order == old(order)
        && checker.checkResults == old(checker.checkResults)
      ensures Denial(authorization, apiKey).None? && checkId !in old(store) ==>
        r == CheckNotFound(checkId) && store == old(store) && order == old(order)
        && checker.checkResults == old(checker.checkResults)
      ensures Denial(authorization, apiKey).None? && checkId in old(store) ==>
        && r == DeletedResponse(200, checkId)
        && store == old(store) - {checkId}
        && order == Without(old(order), checkId)
        && checker.checkResults == old(checker.checkResults) - {checkId}
        && GetCheckStatus(authorization, apiKey, checkId) == CheckNotFound(checkId)
    {
      var denied := Denial(authorization, apiKey);
      if denied.Some? {
        return denied.value;
      }
      if checkId !in store {
        return CheckNotFound(checkId);
      }
      store := store - {checkId};
      WithoutDistinct(order, checkId);
      order := Without(order, checkId);
      checker.DeleteCheck(checkId);
      r := DeletedResponse(200, checkId);
    }
  }
}
