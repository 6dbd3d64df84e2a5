/**
 * The two regular-expression scans that pull requirements out of a specification text
 * (src/core/analyzer.py, `_extract_requirements`), written out as the backtracking search
 * Python's `re.finditer` performs:
 *
 *   id pattern:     ((?:FR|NFR|SR)-\d+):?\s*(.+?)(?=\n|$)
 *   SHALL pattern:  (?:The service|Service|System)\s+SHALL\s+(.+?)(?=\n|$)   (IGNORECASE)
 *
 * Quantifiers are tried greedy-first (`\d+`, `:?`, `\s*`, `\s+`) or lazy-first (`.+?`),
 * alternatives left to right, and the scan resumes at the end of each match.
 * `.` takes any character but a newline; `$` (no MULTILINE) holds at the end of the text
 * and before a final newline, which the `\n` branch of the lookahead already covers.
 * `\s` and `\d` are Python's Unicode classes (`Strings.IsSpace`, `Strings.IsDigit`).
 */
module SpecPatterns {
  import opened Wrappers
  import opened Strings

  /** One match of the id pattern: group 1 is `[start, idEnd)`, group 2 is `[textStart, end)`. */
  datatype IdMatch = IdMatch(start: nat, idEnd: nat, textStart: nat, end: nat)

  /**
   * One match of the SHALL pattern: group 0 is `[start, end)`, the subject is
   * `[start, subjectEnd)`, `SHALL` starts at `shallStart`, group 1 is `[textStart, end)`.
   */
  datatype ShallMatch = ShallMatch(start: nat, subjectEnd: nat, shallStart: nat, textStart: nat, end: nat)

  /** The end of the line that holds position `q`: the next newline at or after `q`, or the end. */
  function LineEnd(s: string, q: nat): (e: nat)
    requires q <= |s|
    ensures q <= e <= |s|
    ensures e == |s| || s[e] == '\n'
    ensures forall i :: q <= i < e ==> s[i] != '\n'
    decreases |s| - q
  {
    if q == |s| || s[q] == '\n' then q else LineEnd(s, q + 1)
  }

  /** Number of consecutive characters satisfying `\d` from `i` on. */
  function DigitRun(s: string, i: nat): (n: nat)
    requires i <= |s|
    ensures i + n <= |s|
    ensures forall j {:trigger IsDigit(s[j])} :: i <= j < i + n ==> IsDigit(s[j])
    ensures i + n == |s| || !IsDigit(s[i + n])
    decreases |s| - i
  {
    if i < |s| && IsDigit(s[i]) then 1 + DigitRun(s, i + 1) else 0
  }

  /** Number of consecutive characters satisfying `\s` from `i` on. */
  function SpaceRun(s: string, i: nat): (n: nat)
    requires i <= |s|
    ensures i + n <= |s|
    ensures forall j :: i <= j < i + n ==> IsSpace(s[j])
    ensures i + n == |s| || !IsSpace(s[i + n])
    decreases |s| - i
  {
    if i < |s| && IsSpace(s[i]) then 1 + SpaceRun(s, i + 1) else 0
  }

  /**
   * `(.+?)(?=\n|$)` tried at `q` with `j` characters taken so far: grow the group one
   * character at a time until the lookahead holds.
   */
  function LazyLine(s: string, q: nat, j: nat): (e: Option<nat>)
    requires q <= |s| && j >= 1
    ensures e.Some? ==> q + j <= e.value <= |s|
    decreases |s| - q - j
  {
    if q + j > |s| || s[q + j - 1] == '\n' then None
    else if q + j == |s| || s[q + j] == '\n' then Some(q + j)
    else LazyLine(s, q, j + 1)
  }

  // ---------------------------------------------------------------------------------------
  // The id pattern

  const IdPrefixes: seq<string> := ["FR", "NFR", "SR"]

  /** `id` is the `k`-th prefix, a dash and one or more digits. */
  predicate IdWithPrefix(id: string, k: nat)
    requires k < |IdPrefixes|
  {
    && StartsWith(id, IdPrefixes[k] + "-")
    && |id| > |IdPrefixes[k]| + 1
    && forall i | |IdPrefixes[k]| + 1 <= i < |id| :: IsDigit(id[i])
  }

  /** A requirement id as group 1 captures it: `FR`, `NFR` or `SR`, a dash, one or more digits. */
  predicate IsRequirementId(id: string) {
    exists k | 0 <= k < |IdPrefixes| :: IdWithPrefix(id, k)
  }

  /** What `:?\s*` may consume between the id and the text. */
  predicate IsColonAndSpaces(gap: string) {
    forall i | 0 <= i < |gap| :: IsSpace(gap[i]) || (i == 0 && gap[i] == ':')
  }

  /** Everything a match of the id pattern guarantees about where it lies. */
  ghost predicate WellFormedIdMatch(s: string, m: IdMatch) {
    && m.start < m.idEnd <= m.textStart < m.end <= |s|
    && IsRequirementId(s[m.start..m.idEnd])
    && IsColonAndSpaces(s[m.idEnd..m.textStart])
    && m.end == LineEnd(s, m.textStart)
    && s[m.textStart] != '\n'
  }

  /** `\s*` tried with `m` characters, then fewer. */
  function TrySpaces(s: string, p: nat, idEnd: nat, b: nat, m: nat): (r: Option<IdMatch>)
    requires p < idEnd <= b && b + m <= |s|
    requires IsRequirementId(s[p..idEnd])
    requires IsColonAndSpaces(s[idEnd..b])
    requires forall i :: b <= i < b + m ==> IsSpace(s[i])
    ensures r.Some? ==> r.value.start == p && r.value.idEnd == idEnd && WellFormedIdMatch(s, r.value)
    decreases m
  {
    var q := b + m;
    var e := LazyLine(s, q, 1);
    if e.Some? then
      LazyLineIsLineEnd(s, q, 1);
      assert IsColonAndSpaces(s[idEnd..q]) by {
        forall i | 0 <= i < q - idEnd ensures IsSpace(s[idEnd..q][i]) || (i == 0 && s[idEnd..q][i] == ':') {
          if i < b - idEnd { assert s[idEnd..q][i] == s[idEnd..b][i]; }
        }
      }
      Some(IdMatch(p, idEnd, q, e.value))
    else if m == 0 then None
    else TrySpaces(s, p, idEnd, b, m - 1)
  }

  /** `:?` tried with the colon first, then without it. */
  function TryColon(s: string, p: nat, a: nat): (r: Option<IdMatch>)
    requires p < a <= |s|
    requires IsRequirementId(s[p..a])
    ensures r.Some? ==> r.value.start == p && r.value.idEnd == a && WellFormedIdMatch(s, r.value)
  {
    var withColon :=
      if a < |s| && s[a] == ':' then TrySpaces(s, p, a, a + 1, SpaceRun(s, a + 1)) else None;
    if withColon.Some? then withColon else TrySpaces(s, p, a, a, SpaceRun(s, a))
  }

  /** The prefix at `p`, its dash and the digits up to `a` form a requirement id. */
  lemma PrefixAndDigitsIsId(s: string, p: nat, alt: nat, a: nat)
    requires alt < |IdPrefixes|
    requires OccursAt(s, IdPrefixes[alt] + "-", p)
    requires p + |IdPrefixes[alt]| + 1 < a <= |s|
    requires forall i {:trigger IsDigit(s[i])} :: p + |IdPrefixes[alt]| + 1 <= i < a ==> IsDigit(s[i])
    ensures IsRequirementId(s[p..a])
  {
    assert s[p..a][..|IdPrefixes[alt]| + 1] == IdPrefixes[alt] + "-";
    forall i | |IdPrefixes[alt]| + 1 <= i < a - p ensures IsDigit(s[p..a][i]) {
      assert s[p..a][i] == s[p + i];
    }
    assert IdWithPrefix(s[p..a], alt);
  }

  /** `\d+` tried with `k` digits, then fewer. */
  function TryDigits(s: string, p: nat, alt: nat, k: nat): (r: Option<IdMatch>)
    requires alt < |IdPrefixes|
    requires OccursAt(s, IdPrefixes[alt] + "-", p)
    requires p + |IdPrefixes[alt]| + 1 + k <= |s|
    requires forall i {:trigger IsDigit(s[i])} :: p + |IdPrefixes[alt]| + 1 <= i < p + |IdPrefixes[alt]| + 1 + k ==> IsDigit(s[i])
    ensures r.Some? ==> r.value.start == p && WellFormedIdMatch(s, r.value)
    decreases k
  {
    if k == 0 then None
    else
      var a := p + |IdPrefixes[alt]| + 1 + k;
      PrefixAndDigitsIsId(s, p, alt, a);
      var m := TryColon(s, p, a);
      if m.Some? then m else TryDigits(s, p, alt, k - 1)
  }

  /** `(?:FR|NFR|SR)-` tried left to right from alternative `alt`. */
  function TryIdPrefixes(s: string, p: nat, alt: nat): (r: Option<IdMatch>)
    requires p <= |s|
    ensures r.Some? ==> r.value.start == p < r.value.idEnd <= r.value.textStart < r.value.end <= |s|
    decreases |IdPrefixes| - alt
  {
    if alt >= |IdPrefixes| then None
    else
      var m :=
        if OccursAt(s, IdPrefixes[alt] + "-", p)
        then TryDigits(s, p, alt, DigitRun(s, p + |IdPrefixes[alt]| + 1))
        else None;
      if m.Some? then m else TryIdPrefixes(s, p, alt + 1)
  }

  /** `re.finditer` of the id pattern from position `p` on. */
  function FindIdMatches(s: string, p: nat): (ms: seq<IdMatch>)
    requires p <= |s| + 1
    ensures forall i :: 0 <= i < |ms| ==> p <= ms[i].start < ms[i].idEnd <= ms[i].textStart < ms[i].end <= |s|
    ensures forall i, j :: 0 <= i < j < |ms| ==> ms[i].end <= ms[j].start
    decreases |s| + 1 - p
  {
    if p > |s| then []
    else
      var m := TryIdPrefixes(s, p, 0);
      if m.Some? then [m.value] + FindIdMatches(s, m.value.end)
      else FindIdMatches(s, p + 1)
  }

  // ---------------------------------------------------------------------------------------
  // The SHALL pattern

  const ShallSubjects: seq<string> := ["the service", "service", "system"]

  /**
   * The lower-case letter a character stands for under IGNORECASE: ASCII letters by case,
   * the long s `ſ` as `s`, and the dotted and dotless I `İ`, `ı` as `i`. A character matches
   * a letter of `The service`, `Service`, `System` or `SHALL` (or their space) under Python's
   * case-insensitive `re` exactly when it folds to that letter in lower case.
   */
  function FoldChar(c: char): char {
    if c == '\U{17f}' then 's' else if c == '\U{130}' || c == '\U{131}' then 'i' else LowerChar(c)
  }

  /** `t` (lower-case) occurs at `i` under IGNORECASE. */
  predicate OccursAtIgnoreCase(s: string, t: string, i: nat) {
    i + |t| <= |s| && forall j | 0 <= j < |t| :: FoldChar(s[i + j]) == t[j]
  }

  /** One of the subjects occurs at `p` and ends at `a`. */
  predicate SubjectAt(s: string, p: nat, a: nat) {
    exists k | 0 <= k < |ShallSubjects| :: a == p + |ShallSubjects[k]| && OccursAtIgnoreCase(s, ShallSubjects[k], p)
  }

  /** `s[i..j]` is all `\s`. */
  predicate AllSpace(s: string, i: nat, j: nat) {
    forall k {:trigger IsSpace(s[k])} | i <= k < j :: k < |s| && IsSpace(s[k])
  }

  /** Everything a match of the SHALL pattern guarantees about where it lies. */
  ghost predicate WellFormedShallMatch(s: string, m: ShallMatch) {
    && m.start < m.subjectEnd < m.shallStart && m.shallStart + 5 < m.textStart < m.end <= |s|
    && SubjectAt(s, m.start, m.subjectEnd)
    && AllSpace(s, m.subjectEnd, m.shallStart)
    && OccursAtIgnoreCase(s, "shall", m.shallStart)
    && AllSpace(s, m.shallStart + 5, m.textStart)
    && m.end == LineEnd(s, m.textStart)
    && s[m.textStart] != '\n'
  }

  /** The second `\s+`, after `SHALL` at `k`, tried with `w` characters, then fewer (at least one). */
  function TrySecondGap(s: string, p: nat, a: nat, k: nat, w: nat): (r: Option<ShallMatch>)
    requires p < a < k && k + 5 + w <= |s|
    requires SubjectAt(s, p, a) && AllSpace(s, a, k) && OccursAtIgnoreCase(s, "shall", k)
    requires AllSpace(s, k + 5, k + 5 + w)
    ensures r.Some? ==> r.value.start == p && WellFormedShallMatch(s, r.value)
    decreases w
  {
    if w == 0 then None
    else
      var e := LazyLine(s, k + 5 + w, 1);
      if e.Some? then
        LazyLineIsLineEnd(s, k + 5 + w, 1);
        Some(ShallMatch(p, a, k, k + 5 + w, e.value))
      else TrySecondGap(s, p, a, k, w - 1)
  }

  /** The first `\s+` after the subject ending at `a`, and `SHALL`, tried with `w` spaces, then fewer (at least one). */
  function TryFirstGap(s: string, p: nat, a: nat, w: nat): (r: Option<ShallMatch>)
    requires p < a && a + w <= |s|
    requires SubjectAt(s, p, a) && AllSpace(s, a, a + w)
    ensures r.Some? ==> r.value.start == p && WellFormedShallMatch(s, r.value)
    decreases w
  {
    if w == 0 then None
    else
      var k := a + w;
      var m :=
        if OccursAtIgnoreCase(s, "shall", k) then TrySecondGap(s, p, a, k, SpaceRun(s, k + 5)) else None;
      if m.Some? then m else TryFirstGap(s, p, a, w - 1)
  }

  /** `(?:The service|Service|System)` tried left to right from alternative `alt`. */
  function TryShallSubjects(s: string, p: nat, alt: nat): (r: Option<ShallMatch>)
    requires p <= |s|
    ensures r.Some? ==> r.value.start == p < r.value.textStart < r.value.end <= |s|
    decreases |ShallSubjects| - alt
  {
    if alt >= |ShallSubjects| then None
    else
      var subject := ShallSubjects[alt];
      var a := p + |subject|;
      var m :=
        if OccursAtIgnoreCase(s, subject, p)
        then assert SubjectAt(s, p, a); TryFirstGap(s, p, a, SpaceRun(s, a))
        else None;
      if m.Some? then m else TryShallSubjects(s, p, alt + 1)
  }

  /** `re.finditer` of the SHALL pattern from position `p` on. */
  function FindShallMatches(s: string, p: nat): (ms: seq<ShallMatch>)
    requires p <= |s| + 1
    ensures forall i :: 0 <= i < |ms| ==> p <= ms[i].start < ms[i].textStart < ms[i].end <= |s|
    ensures forall i, j :: 0 <= i < j < |ms| ==> ms[i].end <= ms[j].start
    decreases |s| + 1 - p
  {
    if p > |s| then []
    else
      var m := TryShallSubjects(s, p, 0);
      if m.Some? then [m.value] + FindShallMatches(s, m.value.end)
      else FindShallMatches(s, p + 1)
  }

  // ---------------------------------------------------------------------------------------
  // Lemmas

  /** A match found by the id prefixes from `alt` on is a match of the id pattern. */
  lemma {:induction false} TryIdPrefixesWellFormed(s: string, p: nat, alt: nat)
    requires p <= |s|
    ensures var r := TryIdPrefixes(s, p, alt); r.Some? ==> WellFormedIdMatch(s, r.value)
    decreases |IdPrefixes| - alt
  {
    if alt < |IdPrefixes| {
      TryIdPrefixesWellFormed(s, p, alt + 1);
    }
  }

  /** Every match the id scan reports is a match of the id pattern. */
  lemma {:induction false} FindIdMatchesWellFormed(s: string, p: nat, i: nat)
    requires p <= |s| + 1 && i < |FindIdMatches(s, p)|
    ensures WellFormedIdMatch(s, FindIdMatches(s, p)[i])
    decreases |s| + 1 - p
  {
    var m := TryIdPrefixes(s, p, 0);
    if m.Some? {
      if i > 0 {
        FindIdMatchesWellFormed(s, m.value.end, i - 1);
      } else {
        TryIdPrefixesWellFormed(s, p, 0);
      }
    } else {
      FindIdMatchesWellFormed(s, p + 1, i);
    }
  }

  /** A match found by the subject alternatives from `alt` on is a match of the SHALL pattern. */
  lemma {:induction false} TryShallSubjectsWellFormed(s: string, p: nat, alt: nat)
    requires p <= |s|
    ensures var r := TryShallSubjects(s, p, alt); r.Some? ==> WellFormedShallMatch(s, r.value)
    decreases |ShallSubjects| - alt
  {
    if alt < |ShallSubjects| {
      TryShallSubjectsWellFormed(s, p, alt + 1);
    }
  }

  /** Every match the SHALL scan reports is a match of the SHALL pattern. */
  lemma {:induction false} FindShallMatchesWellFormed(s: string, p: nat, i: nat)
    requires p <= |s| + 1 && i < |FindShallMatches(s, p)|
    ensures WellFormedShallMatch(s, FindShallMatches(s, p)[i])
    decreases |s| + 1 - p
  {
    var m := TryShallSubjects(s, p, 0);
    if m.Some? {
      if i > 0 {
        FindShallMatchesWellFormed(s, m.value.end, i - 1);
      } else {
        TryShallSubjectsWellFormed(s, p, 0);
      }
    } else {
      FindShallMatchesWellFormed(s, p + 1, i);
    }
  }

  /** The lazy `.+?` with its lookahead ends exactly at the end of the line. */
  lemma {:induction false} LazyLineIsLineEnd(s: string, q: nat, j: nat)
    requires q <= |s| && j >= 1
    requires q + j - 1 < LineEnd(s, q)
    ensures LazyLine(s, q, j) == Some(LineEnd(s, q))
    decreases |s| - q - j
  {
    if q + j < LineEnd(s, q) {
      LazyLineIsLineEnd(s, q, j + 1);
    }
  }

  /** `(.+?)(?=\n|$)` succeeds exactly where a non-newline character stands. */
  lemma LazyLineSucceeds(s: string, q: nat)
    requires q <= |s|
    ensures LazyLine(s, q, 1).Some? <==> q < |s| && s[q] != '\n'
  {
    if q < |s| && s[q] != '\n' {
      LazyLineIsLineEnd(s, q, 1);
    }
  }
}
