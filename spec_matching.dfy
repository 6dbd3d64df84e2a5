/**
 * Completeness of the two scans in `SpecPatterns`: the backtracking of `re.finditer` tries
 * every way the id pattern and the SHALL pattern can match, so no match of either pattern
 * is skipped.
 */
module SpecMatching {
  import opened Wrappers
  import opened Strings
  import opened SpecPatterns

  /** A run of `\s` from `i` to `j` lies within the greedy run from `i`. */
  lemma {:induction false} SpaceRunCovers(s: string, i: nat, j: nat)
    requires i <= j <= |s| && AllSpace(s, i, j)
    ensures i + SpaceRun(s, i) >= j
    decreases j - i
  {
    if i < j {
      SpaceRunCovers(s, i + 1, j);
    }
  }

  /** A run of `\d` from `i` to `j` lies within the greedy run from `i`. */
  lemma {:induction false} DigitRunCovers(s: string, i: nat, j: nat)
    requires i <= j <= |s| && forall k | i <= k < j :: IsDigit(s[k])
    ensures i + DigitRun(s, i) >= j
    decreases j - i
  {
    if i < j {
      DigitRunCovers(s, i + 1, j);
    }
  }

  /** Backtracking `\s*` falls back to one character fewer, so a success with `n` carries over to `n + 1`. */
  lemma {:induction false} TrySpacesFallback(s: string, p: nat, idEnd: nat, b: nat, n: nat, m: nat)
    requires m == n + 1
    requires p < idEnd <= b && b + m <= |s|
    requires IsRequirementId(s[p..idEnd])
    requires IsColonAndSpaces(s[idEnd..b])
    requires forall i :: b <= i < b + m ==> IsSpace(s[i])
    ensures TrySpaces(s, p, idEnd, b, n).Some? ==> TrySpaces(s, p, idEnd, b, m).Some?
  {
  }

  /** Backtracking `\s*` from `m` characters down keeps a success found from `n <= m`. */
  lemma {:induction false} TrySpacesMore(s: string, p: nat, idEnd: nat, b: nat, n: nat, m: nat)
    requires n <= m
    requires p < idEnd <= b && b + m <= |s|
    requires IsRequirementId(s[p..idEnd])
    requires IsColonAndSpaces(s[idEnd..b])
    requires forall i :: b <= i < b + m ==> IsSpace(s[i])
    requires TrySpaces(s, p, idEnd, b, n).Some?
    ensures TrySpaces(s, p, idEnd, b, m).Some?
    decreases m
  {
    if n < m {
      var l := m - 1;
      TrySpacesMore(s, p, idEnd, b, n, l);
      TrySpacesFallback(s, p, idEnd, b, l, m);
    }
  }

  /** `:?\s*` after an id ending at `a` finds a text whenever some match has that id and its text starts at `t`. */
  lemma {:induction false} TryColonFinds(s: string, p: nat, a: nat, t: nat)
    requires p < a <= t < |s| && IsRequirementId(s[p..a])
    requires IsColonAndSpaces(s[a..t]) && s[t] != '\n'
    ensures TryColon(s, p, a).Some?
  {
    if t > a && s[a] == ':' {
      TryGapFinds(s, p, a, a + 1, t);
      TryColonOfSpaces(s, p, a, true);
    } else {
      TryGapFinds(s, p, a, a, t);
      TryColonOfSpaces(s, p, a, false);
    }
  }

  /** Past its optional colon, the gap of a match is a run of `\s` that greedy `\s*` takes whole. */
  lemma GapSpacesAfter(s: string, a: nat, b: nat, t: nat)
    requires a <= b <= t <= |s| && IsColonAndSpaces(s[a..t])
    requires b == a + 1 || !(t > a && s[a] == ':')
    ensures b + SpaceRun(s, b) >= t && IsColonAndSpaces(s[a..b])
  {
    var gap := s[a..t];
    assert IsColonAndSpaces(s[a..b]) by {
      forall i | 0 <= i < b - a ensures IsSpace(s[a..b][i]) || (i == 0 && s[a..b][i] == ':') {
        assert s[a..b][i] == gap[i];
      }
    }
    assert AllSpace(s, b, t) by {
      forall k | b <= k < t ensures k < |s| && IsSpace(s[k]) {
        assert gap[k - a] == s[k];
      }
    }
    SpaceRunCovers(s, b, t);
  }

  /**
   * `\s*` after the colon branch (`b == a + 1`) or the plain branch (`b == a`) reaches the
   * text start `t` of any match whose gap is `s[a..t]`.
   */
  lemma {:induction false} TryGapFinds(s: string, p: nat, a: nat, b: nat, t: nat)
    requires p < a <= b <= t < |s| && IsRequirementId(s[p..a])
    requires IsColonAndSpaces(s[a..t]) && s[t] != '\n'
    requires b == a + 1 || !(t > a && s[a] == ':')
    ensures IsColonAndSpaces(s[a..b]) && TrySpaces(s, p, a, b, SpaceRun(s, b)).Some?
  {
    GapSpacesAfter(s, a, b, t);
    LazyLineSucceeds(s, t);
    assert TrySpaces(s, p, a, b, t - b).Some?;
    TrySpacesMore(s, p, a, b, t - b, SpaceRun(s, b));
  }

  /** `TryColon` succeeds when its colon branch or its plain branch does. */
  lemma TryColonOfSpaces(s: string, p: nat, a: nat, colon: bool)
    requires p < a <= |s| && IsRequirementId(s[p..a])
    requires colon ==> a < |s| && s[a] == ':' && TrySpaces(s, p, a, a + 1, SpaceRun(s, a + 1)).Some?
    requires !colon ==> TrySpaces(s, p, a, a, SpaceRun(s, a)).Some?
    ensures TryColon(s, p, a).Some?
  {
  }

  /** Backtracking `\d+` falls back to one digit fewer, so a success with `n` carries over to `n + 1`. */
  lemma {:induction false} TryDigitsFallback(s: string, p: nat, alt: nat, n: nat, m: nat)
    requires m == n + 1
    requires alt < |IdPrefixes|
    requires OccursAt(s, IdPrefixes[alt] + "-", p)
    requires p + |IdPrefixes[alt]| + 1 + m <= |s|
    requires forall i {:trigger IsDigit(s[i])} :: p + |IdPrefixes[alt]| + 1 <= i < p + |IdPrefixes[alt]| + 1 + m ==> IsDigit(s[i])
    ensures TryDigits(s, p, alt, n).Some? ==> TryDigits(s, p, alt, m).Some?
  {
  }

  /** Backtracking `\d+` from `m` digits down keeps a success found from `n <= m`. */
  lemma {:induction false} TryDigitsMore(s: string, p: nat, alt: nat, n: nat, m: nat)
    requires n <= m
    requires alt < |IdPrefixes|
    requires OccursAt(s, IdPrefixes[alt] + "-", p)
    requires p + |IdPrefixes[alt]| + 1 + m <= |s|
    requires forall i {:trigger IsDigit(s[i])} :: p + |IdPrefixes[alt]| + 1 <= i < p + |IdPrefixes[alt]| + 1 + m ==> IsDigit(s[i])
    requires TryDigits(s, p, alt, n).Some?
    ensures TryDigits(s, p, alt, m).Some?
    decreases m
  {
    if n < m {
      var l := m - 1;
      TryDigitsMore(s, p, alt, n, l);
      TryDigitsFallback(s, p, alt, l, m);
    }
  }

  /** `\d+` tried from `k` digits down reaches an id end `e` after which `:?\s*` and a text follow. */
  lemma {:induction false} TryDigitsFinds(s: string, p: nat, alt: nat, k: nat, e: nat)
    requires alt < |IdPrefixes|
    requires OccursAt(s, IdPrefixes[alt] + "-", p)
    requires p + |IdPrefixes[alt]| + 1 + k <= |s|
    requires forall i {:trigger IsDigit(s[i])} :: p + |IdPrefixes[alt]| + 1 <= i < p + |IdPrefixes[alt]| + 1 + k ==> IsDigit(s[i])
    requires p + |IdPrefixes[alt]| + 1 < e <= p + |IdPrefixes[alt]| + 1 + k
    requires IsRequirementId(s[p..e]) && TryColon(s, p, e).Some?
    ensures TryDigits(s, p, alt, k).Some?
  {
    var j := e - (p + |IdPrefixes[alt]| + 1);
    TryDigitsAt(s, p, alt, j);
    TryDigitsMore(s, p, alt, j, k);
  }

  /** `\d+` with `j` digits succeeds when `:?\s*` and the text succeed after them. */
  lemma TryDigitsAt(s: string, p: nat, alt: nat, j: nat)
    requires alt < |IdPrefixes| && j > 0
    requires OccursAt(s, IdPrefixes[alt] + "-", p)
    requires p + |IdPrefixes[alt]| + 1 + j <= |s|
    requires forall i {:trigger IsDigit(s[i])} :: p + |IdPrefixes[alt]| + 1 <= i < p + |IdPrefixes[alt]| + 1 + j ==> IsDigit(s[i])
    requires IsRequirementId(s[p..p + |IdPrefixes[alt]| + 1 + j]) && TryColon(s, p, p + |IdPrefixes[alt]| + 1 + j).Some?
    ensures TryDigits(s, p, alt, j).Some?
  {
  }

  /** The prefix alternatives from `alt` on reach any match whose id has one of them. */
  lemma {:induction false} TryIdPrefixesFinds(s: string, p: nat, alt: nat, mm: IdMatch)
    requires p <= |s|
    requires WellFormedIdMatch(s, mm) && mm.start == p
    requires exists k | alt <= k < |IdPrefixes| :: IdWithPrefix(s[p..mm.idEnd], k)
    ensures TryIdPrefixes(s, p, alt).Some?
    decreases |IdPrefixes| - alt
  {
    if IdWithPrefix(s[p..mm.idEnd], alt) {
      TryPrefixFinds(s, p, alt, mm);
    } else if TryIdPrefixes(s, p, alt).None? {
      TryIdPrefixesFinds(s, p, alt + 1, mm);
    }
  }

  /** The alternative whose prefix the match's id carries finds a match. */
  lemma {:induction false} TryPrefixFinds(s: string, p: nat, alt: nat, mm: IdMatch)
    requires p <= |s| && alt < |IdPrefixes|
    requires WellFormedIdMatch(s, mm) && mm.start == p && IdWithPrefix(s[p..mm.idEnd], alt)
    ensures TryIdPrefixes(s, p, alt).Some?
  {
    PrefixDigitsCover(s, p, alt, mm.idEnd);
    TryColonFinds(s, p, mm.idEnd, mm.textStart);
    TryDigitsFinds(s, p, alt, DigitRun(s, p + |IdPrefixes[alt]| + 1), mm.idEnd);
    TryIdPrefixesOfDigits(s, p, alt);
  }

  /** An id with the `alt`-th prefix: the prefix and dash occur, and the digit run covers its digits. */
  lemma {:induction false} PrefixDigitsCover(s: string, p: nat, alt: nat, e: nat)
    requires alt < |IdPrefixes| && p <= e <= |s| && IdWithPrefix(s[p..e], alt)
    ensures OccursAt(s, IdPrefixes[alt] + "-", p)
    ensures p + |IdPrefixes[alt]| + 1 < e <= p + |IdPrefixes[alt]| + 1 + DigitRun(s, p + |IdPrefixes[alt]| + 1)
  {
    var id := s[p..e];
    var n := |IdPrefixes[alt]| + 1;
    assert id[..n] == IdPrefixes[alt] + "-";
    assert s[p..p + n] == id[..n];
    forall i | p + n <= i < e ensures IsDigit(s[i]) {
      assert id[i - p] == s[i];
    }
    DigitRunCovers(s, p + n, e);
  }

  /** `TryIdPrefixes` succeeds at an alternative whose prefix occurs and whose digits find a match. */
  lemma TryIdPrefixesOfDigits(s: string, p: nat, alt: nat)
    requires p <= |s| && alt < |IdPrefixes|
    requires OccursAt(s, IdPrefixes[alt] + "-", p)
    requires TryDigits(s, p, alt, DigitRun(s, p + |IdPrefixes[alt]| + 1)).Some?
    ensures TryIdPrefixes(s, p, alt).Some?
  {
  }

  /** One step of `re.finditer` of the id pattern: a match at `p` and the scan from its end, or the scan from `p + 1`. */
  lemma FindIdMatchesUnfold(s: string, p: nat)
    requires p <= |s|
    ensures var m := TryIdPrefixes(s, p, 0);
      FindIdMatches(s, p) == if m.Some? then [m.value] + FindIdMatches(s, m.value.end) else FindIdMatches(s, p + 1)
  {
  }

  /** Some match of `ms` spans position `q`. */
  ghost predicate IdCovered(ms: seq<IdMatch>, q: nat) {
    exists i | 0 <= i < |ms| :: ms[i].start <= q < ms[i].end
  }

  /** A position spanned by a match of `rest` is spanned by one of `[m] + rest`. */
  lemma IdCoveredPrepend(m: IdMatch, rest: seq<IdMatch>, q: nat)
    requires IdCovered(rest, q)
    ensures IdCovered([m] + rest, q)
  {
    var i :| 0 <= i < |rest| && rest[i].start <= q < rest[i].end;
    assert ([m] + rest)[i + 1] == rest[i];
  }

  /** `re.finditer` of the id pattern skips no match: every match at or after `p` starts inside a reported one. */
  lemma {:induction false} FindIdMatchesComplete(s: string, p: nat, mm: IdMatch)
    requires p <= |s| + 1 && WellFormedIdMatch(s, mm) && p <= mm.start
    ensures IdCovered(FindIdMatches(s, p), mm.start)
  {
    TryIdPrefixesFinds(s, mm.start, 0, mm);
    var i := IdScanCovers(s, p, mm.start);
  }

  /** The scan from `p` spans every position `q >= p` at which the pattern's first attempt succeeds. */
  lemma {:induction false} IdScanCovers(s: string, p: nat, q: nat) returns (i: nat)
    requires p <= q <= |s| && TryIdPrefixes(s, q, 0).Some?
    ensures i < |FindIdMatches(s, p)| && FindIdMatches(s, p)[i].start <= q < FindIdMatches(s, p)[i].end
    decreases |s| + 1 - p
  {
    FindIdMatchesUnfold(s, p);
    var m := TryIdPrefixes(s, p, 0);
    if m.Some? && q < m.value.end {
      i := 0;
      assert ([m.value] + FindIdMatches(s, m.value.end))[0] == m.value;
    } else {
      var next := if m.Some? then m.value.end else p + 1;
      assert next <= q by {
        if m.None? { assert q != p; }
      }
      var j := IdScanCovers(s, next, q);
      if m.Some? {
        i := j + 1;
        assert ([m.value] + FindIdMatches(s, next))[j + 1] == FindIdMatches(s, next)[j];
      } else {
        i := j;
      }
    }
  }

  /** Backtracking the second `\s+` falls back to one character fewer, so a success with `n` carries over to `n + 1`. */
  lemma {:induction false} TrySecondGapFallback(s: string, p: nat, a: nat, k: nat, n: nat, m: nat)
    requires m == n + 1
    requires p < a < k && k + 5 + m <= |s|
    requires SubjectAt(s, p, a) && AllSpace(s, a, k) && OccursAtIgnoreCase(s, "shall", k)
    requires AllSpace(s, k + 5, k + 5 + m)
    ensures TrySecondGap(s, p, a, k, n).Some? ==> TrySecondGap(s, p, a, k, m).Some?
  {
  }

  /** Backtracking the second `\s+` from `m` characters down keeps a success found from `n <= m`. */
  lemma {:induction false} TrySecondGapMore(s: string, p: nat, a: nat, k: nat, n: nat, m: nat)
    requires n <= m
    requires p < a < k && k + 5 + m <= |s|
    requires SubjectAt(s, p, a) && AllSpace(s, a, k) && OccursAtIgnoreCase(s, "shall", k)
    requires AllSpace(s, k + 5, k + 5 + m)
    requires TrySecondGap(s, p, a, k, n).Some?
    ensures TrySecondGap(s, p, a, k, m).Some?
    decreases m
  {
    if n < m {
      var l := m - 1;
      TrySecondGapMore(s, p, a, k, n, l);
      TrySecondGapFallback(s, p, a, k, l, m);
    }
  }

  /** The second `\s+` tried from `w` characters down reaches a text start `t` past it. */
  lemma {:induction false} TrySecondGapFinds(s: string, p: nat, a: nat, k: nat, w: nat, t: nat)
    requires p < a < k && k + 5 + w <= |s|
    requires SubjectAt(s, p, a) && AllSpace(s, a, k) && OccursAtIgnoreCase(s, "shall", k)
    requires AllSpace(s, k + 5, k + 5 + w)
    requires k + 5 < t <= k + 5 + w && t < |s| && s[t] != '\n'
    ensures TrySecondGap(s, p, a, k, w).Some?
  {
    var v := t - (k + 5);
    LazyLineSucceeds(s, t);
    assert TrySecondGap(s, p, a, k, v).Some?;
    TrySecondGapMore(s, p, a, k, v, w);
  }

  /** Backtracking the first `\s+` falls back to one character fewer, so a success with `n` carries over to `n + 1`. */
  lemma {:induction false} TryFirstGapFallback(s: string, p: nat, a: nat, n: nat, m: nat)
    requires m == n + 1
    requires p < a && a + m <= |s|
    requires SubjectAt(s, p, a) && AllSpace(s, a, a + m)
    ensures TryFirstGap(s, p, a, n).Some? ==> TryFirstGap(s, p, a, m).Some?
  {
    assert AllSpace(s, a, a + n);
  }

  /** Backtracking the first `\s+` from `m` characters down keeps a success found from `n <= m`. */
  lemma {:induction false} TryFirstGapMore(s: string, p: nat, a: nat, n: nat, m: nat)
    requires n <= m
    requires p < a && a + m <= |s|
    requires SubjectAt(s, p, a) && AllSpace(s, a, a + m)
    requires TryFirstGap(s, p, a, n).Some?
    ensures TryFirstGap(s, p, a, m).Some?
    decreases m
  {
    if n < m {
      var l := m - 1;
      TryFirstGapMore(s, p, a, n, l);
      TryFirstGapFallback(s, p, a, l, m);
    }
  }

  /** The first `\s+` tried from `w` characters down reaches a `SHALL` at `k` that the rest matches after. */
  lemma {:induction false} TryFirstGapFinds(s: string, p: nat, a: nat, w: nat, k: nat)
    requires p < a && a + w <= |s|
    requires SubjectAt(s, p, a) && AllSpace(s, a, a + w)
    requires a < k <= a + w && AllSpace(s, a, k) && OccursAtIgnoreCase(s, "shall", k)
    requires TrySecondGap(s, p, a, k, SpaceRun(s, k + 5)).Some?
    ensures TryFirstGap(s, p, a, w).Some?
  {
    var v := k - a;
    assert TryFirstGap(s, p, a, v).Some?;
    TryFirstGapMore(s, p, a, v, w);
  }

  /** The subject alternatives fall through to the next one, so a success from `k` carries back to `j = k - 1`. */
  lemma {:induction false} TryShallSubjectsFallback(s: string, p: nat, j: nat, k: nat)
    requires p <= |s| && k == j + 1
    ensures TryShallSubjects(s, p, k).Some? ==> TryShallSubjects(s, p, j).Some?
  {
  }

  /** The subject alternatives tried from `j` reach a success that those from `k >= j` find. */
  lemma {:induction false} TryShallSubjectsEarlier(s: string, p: nat, j: nat, k: nat)
    requires p <= |s| && j <= k
    requires TryShallSubjects(s, p, k).Some?
    ensures TryShallSubjects(s, p, j).Some?
    decreases k - j
  {
    if j < k {
      var i := j + 1;
      TryShallSubjectsEarlier(s, p, i, k);
      TryShallSubjectsFallback(s, p, j, i);
    }
  }

  /** After the subject of a match of the SHALL pattern, the two gaps and `SHALL` are found. */
  lemma {:induction false} TryFirstGapAfterSubject(s: string, p: nat, mm: ShallMatch)
    requires WellFormedShallMatch(s, mm) && mm.start == p
    ensures TryFirstGap(s, p, mm.subjectEnd, SpaceRun(s, mm.subjectEnd)).Some?
  {
    var a, k := mm.subjectEnd, mm.shallStart;
    SpaceRunCovers(s, a, k);
    SpaceRunCovers(s, k + 5, mm.textStart);
    TrySecondGapFinds(s, p, a, k, SpaceRun(s, k + 5), mm.textStart);
    TryFirstGapFinds(s, p, a, SpaceRun(s, a), k);
  }

  /** Alternative `alt` succeeds when its subject stands at `p` and the rest of the pattern follows it. */
  lemma {:induction false} TryShallSubjectsHere(s: string, p: nat, alt: nat)
    requires p <= |s| && alt < |ShallSubjects|
    requires OccursAtIgnoreCase(s, ShallSubjects[alt], p)
    requires TryFirstGap(s, p, p + |ShallSubjects[alt]|, SpaceRun(s, p + |ShallSubjects[alt]|)).Some?
    ensures TryShallSubjects(s, p, alt).Some?
  {
  }

  /** The alternative of `(?:The service|Service|System)` that a subject ending at `a` matched. */
  lemma SubjectAlternative(s: string, p: nat, a: nat) returns (alt: nat)
    requires SubjectAt(s, p, a)
    ensures alt < |ShallSubjects| && a == p + |ShallSubjects[alt]| && OccursAtIgnoreCase(s, ShallSubjects[alt], p)
  {
    alt :| 0 <= alt < |ShallSubjects| && a == p + |ShallSubjects[alt]| && OccursAtIgnoreCase(s, ShallSubjects[alt], p);
  }

  /** The subject alternatives tried from the first reach a subject ending at `a` that the rest of the pattern follows. */
  lemma {:induction false} TryShallSubjectsReach(s: string, p: nat, a: nat)
    requires p < a <= |s| && SubjectAt(s, p, a)
    requires TryFirstGap(s, p, a, SpaceRun(s, a)).Some?
    ensures TryShallSubjects(s, p, 0).Some?
  {
    var alt := SubjectAlternative(s, p, a);
    TryShallSubjectsHere(s, p, alt);
    TryShallSubjectsEarlier(s, p, 0, alt);
  }

  /** The subject alternatives reach any match of the SHALL pattern at `p`. */
  lemma {:induction false} TryShallSubjectsFinds(s: string, p: nat, mm: ShallMatch)
    requires p <= |s|
    requires WellFormedShallMatch(s, mm) && mm.start == p
    ensures TryShallSubjects(s, p, 0).Some?
  {
    TryFirstGapAfterSubject(s, p, mm);
    TryShallSubjectsReach(s, p, mm.subjectEnd);
  }

  /** One step of `re.finditer` of the SHALL pattern: a match at `p` and the scan from its end, or the scan from `p + 1`. */
  lemma FindShallMatchesUnfold(s: string, p: nat)
    requires p <= |s|
    ensures var m := TryShallSubjects(s, p, 0);
      FindShallMatches(s, p) == if m.Some? then [m.value] + FindShallMatches(s, m.value.end) else FindShallMatches(s, p + 1)
  {
  }

  /** Some match of `ms` spans position `q`. */
  ghost predicate ShallCovered(ms: seq<ShallMatch>, q: nat) {
    exists i | 0 <= i < |ms| :: ms[i].start <= q < ms[i].end
  }

  /** A position spanned by a match of `rest` is spanned by one of `[m] + rest`. */
  lemma ShallCoveredPrepend(m: ShallMatch, rest: seq<ShallMatch>, q: nat)
    requires ShallCovered(rest, q)
    ensures ShallCovered([m] + rest, q)
  {
    var i :| 0 <= i < |rest| && rest[i].start <= q < rest[i].end;
    assert ([m] + rest)[i + 1] == rest[i];
  }

  /** `re.finditer` of the SHALL pattern skips no match: every match at or after `p` starts inside a reported one. */
  lemma {:induction false} FindShallMatchesComplete(s: string, p: nat, mm: ShallMatch)
    requires p <= |s| + 1 && WellFormedShallMatch(s, mm) && p <= mm.start
    ensures ShallCovered(FindShallMatches(s, p), mm.start)
  {
    TryShallSubjectsFinds(s, mm.start, mm);
    var i := ShallScanCovers(s, p, mm.start);
  }

  /** The scan from `p` spans every position `q >= p` at which the pattern's first attempt succeeds. */
  lemma {:induction false} ShallScanCovers(s: string, p: nat, q: nat) returns (i: nat)
    requires p <= q <= |s| && TryShallSubjects(s, q, 0).Some?
    ensures i < |FindShallMatches(s, p)| && FindShallMatches(s, p)[i].start <= q < FindShallMatches(s, p)[i].end
    decreases |s| + 1 - p
  {
    FindShallMatchesUnfold(s, p);
    var m := TryShallSubjects(s, p, 0);
    if m.Some? && q < m.value.end {
      i := 0;
      assert ([m.value] + FindShallMatches(s, m.value.end))[0] == m.value;
    } else {
      var next := if m.Some? then m.value.end else p + 1;
      assert next <= q by {
        if m.None? { assert q != p; }
      }
      var j := ShallScanCovers(s, next, q);
      if m.Some? {
        i := j + 1;
        assert ([m.value] + FindShallMatches(s, next))[j + 1] == FindShallMatches(s, next)[j];
      } else {
        i := j;
      }
    }
  }



}
