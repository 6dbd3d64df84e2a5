/**
 * The few operations of Python's `str` that the service relies on: `in`, `startswith`,
 * `replace`, `strip`, `rstrip`, `split`, `lower`, `str(n)` and `<` between strings, and
 * `os.path.join` on two components.
 */
module Strings {

  /**
   * Python's whitespace: what `str.isspace`, `str.strip()`, `int()` and the `\s` class of
   * `re` on a `str` all treat as blank (Unicode 15.0): the ASCII blanks and separators
   * U+0009..U+000D and U+001C..U+0020, U+0085, U+00A0, U+1680, U+2000..U+200A, U+2028,
   * U+2029, U+202F, U+205F and U+3000.
   */
  predicate IsSpace(c: char) {
    ('\U{9}' <= c <= '\U{d}') || ('\U{1c}' <= c <= ' ') || c == '\U{85}' || c == '\U{a0}'
    || c == '\U{1680}' || ('\U{2000}' <= c <= '\U{200a}') || c == '\U{2028}' || c == '\U{2029}'
    || c == '\U{202f}' || c == '\U{205f}' || c == '\U{3000}'
  }

  /**
   * The code point of the zero of the run of decimal digits that `c` falls in or follows:
   * the Unicode decimal digits (general category Nd, Unicode 15.0) form 68 runs of ten
   * consecutive code points holding 0 to 9 in order; -1 below the first run.
   */
  function DigitZero(c: char): int {
    var n := c as int;
    if n < 0x30 then -1
    else if n < 0x660 then 0x30
    else if n < 0x6f0 then 0x660
    else if n < 0x7c0 then 0x6f0
    else if n < 0x966 then 0x7c0
    else if n < 0x9e6 then 0x966
    else if n < 0xa66 then 0x9e6
    else if n < 0xae6 then 0xa66
    else if n < 0xb66 then 0xae6
    else if n < 0xbe6 then 0xb66
    else if n < 0xc66 then 0xbe6
    else if n < 0xce6 then 0xc66
    else if n < 0xd66 then 0xce6
    else if n < 0xde6 then 0xd66
    else if n < 0xe50 then 0xde6
    else if n < 0xed0 then 0xe50
    else if n < 0xf20 then 0xed0
    else if n < 0x1040 then 0xf20
    else if n < 0x1090 then 0x1040
    else if n < 0x17e0 then 0x1090
    else if n < 0x1810 then 0x17e0
    else if n < 0x1946 then 0x1810
    else if n < 0x19d0 then 0x1946
    else if n < 0x1a80 then 0x19d0
    else if n < 0x1a90 then 0x1a80
    else if n < 0x1b50 then 0x1a90
    else if n < 0x1bb0 then 0x1b50
    else if n < 0x1c40 then 0x1bb0
    else if n < 0x1c50 then 0x1c40
    else if n < 0xa620 then 0x1c50
    else if n < 0xa8d0 then 0xa620
    else if n < 0xa900 then 0xa8d0
    else if n < 0xa9d0 then 0xa900
    else if n < 0xa9f0 then 0xa9d0
    else if n < 0xaa50 then 0xa9f0
    else if n < 0xabf0 then 0xaa50
    else if n < 0xff10 then 0xabf0
    else if n < 0x104a0 then 0xff10
    else if n < 0x10d30 then 0x104a0
    else if n < 0x11066 then 0x10d30
    else if n < 0x110f0 then 0x11066
    else if n < 0x11136 then 0x110f0
    else if n < 0x111d0 then 0x11136
    else if n < 0x112f0 then 0x111d0
    else if n < 0x11450 then 0x112f0
    else if n < 0x114d0 then 0x11450
    else if n < 0x11650 then 0x114d0
    else if n < 0x116c0 then 0x11650
    else if n < 0x11730 then 0x116c0
    else if n < 0x118e0 then 0x11730
    else if n < 0x11950 then 0x118e0
    else if n < 0x11c50 then 0x11950
    else if n < 0x11d50 then 0x11c50
    else if n < 0x11da0 then 0x11d50
    else if n < 0x11f50 then 0x11da0
    else if n < 0x16a60 then 0x11f50
    else if n < 0x16ac0 then 0x16a60
    else if n < 0x16b50 then 0x16ac0
    else if n < 0x1d7ce then 0x16b50
    else if n < 0x1d7d8 then 0x1d7ce
    else if n < 0x1d7e2 then 0x1d7d8
    else if n < 0x1d7ec then 0x1d7e2
    else if n < 0x1d7f6 then 0x1d7ec
    else if n < 0x1e140 then 0x1d7f6
    else if n < 0x1e2f0 then 0x1e140
    else if n < 0x1e4f0 then 0x1e2f0
    else if n < 0x1e950 then 0x1e4f0
    else if n < 0x1fbf0 then 0x1e950
    else 0x1fbf0
  }

  /** `\d`, and the digits `int()` accepts: any Unicode decimal digit. */
  predicate IsDigit(c: char) {
    DigitZero(c) >= 0 && c as int - DigitZero(c) < 10
  }

  /** A lower-case hexadecimal digit, as `uuid4().hex` writes them. */
  predicate IsHexDigit(c: char) {
    '0' <= c <= '9' || 'a' <= c <= 'f'
  }

  /** `\w` with its letters restricted to ASCII: the decimal digits, ASCII letters and the underscore. */
  predicate IsWordChar(c: char) {
    IsDigit(c) || 'a' <= c <= 'z' || 'A' <= c <= 'Z' || c == '_'
  }

  /** `str.lower()` on one character, ASCII letters only. */
  function LowerChar(c: char): char {
    if 'A' <= c <= 'Z' then (c as int + 32) as char else c
  }

  function Lower(s: string): (r: string)
    ensures |r| == |s|
    ensures forall i :: 0 <= i < |s| ==> r[i] == LowerChar(s[i])
  {
    if s == [] then [] else [LowerChar(s[0])] + Lower(s[1..])
  }

  predicate StartsWith(s: string, prefix: string) {
    |prefix| <= |s| && s[..|prefix|] == prefix
  }

  predicate EndsWith(s: string, suffix: string) {
    |suffix| <= |s| && s[|s| - |suffix|..] == suffix
  }

  /** `t` occurs in `s` starting at index `i`. */
  predicate OccursAt(s: string, t: string, i: int) {
    0 <= i && i + |t| <= |s| && s[i..i + |t|] == t
  }

  /** Python's `t in s`. */
  predicate Contains(s: string, t: string) {
    exists i | 0 <= i <= |s| - |t| :: OccursAt(s, t, i)
  }

  /** Python's `s.replace(t, r)`: every non-overlapping occurrence, scanned left to right. */
  function Replace(s: string, t: string, r: string): string
    requires |t| > 0
    decreases |s|
  {
    if |s| < |t| then s
    else if s[..|t|] == t then r + Replace(s[|t|..], t, r)
    else [s[0]] + Replace(s[1..], t, r)
  }

  /** `os.path.join(a, b)` for two components. */
  function Join(a: string, b: string): string {
    if StartsWith(b, "/") then b
    else if a == [] || EndsWith(a, "/") then a + b
    else a + "/" + b
  }

  /** Python's `s.lstrip()` */
  function StripLeft(s: string): (r: string)
    ensures |r| <= |s| && forall i :: 0 <= i < |r| ==> r[i] == s[|s| - |r| + i]
    ensures r != [] ==> !IsSpace(r[0])
  {
    if s != [] && IsSpace(s[0]) then StripLeft(s[1..]) else s
  }

  /** Python's `s.rstrip()` */
  function StripRight(s: string): (r: string)
    ensures |r| <= |s| && forall i :: 0 <= i < |r| ==> r[i] == s[i]
    ensures r != [] ==> !IsSpace(r[|r| - 1])
  {
    if s != [] && IsSpace(s[|s| - 1]) then StripRight(s[..|s| - 1]) else s
  }

  /** Python's `s.strip()` */
  function Strip(s: string): string {
    StripRight(StripLeft(s))
  }

  /** Python's `s.rstrip(c)` for a one-character argument. */
  function StripTrailing(s: string, c: char): (r: string)
    ensures |r| <= |s| && forall i :: 0 <= i < |r| ==> r[i] == s[i]
    ensures r != [] ==> r[|r| - 1] != c
  {
    if s != [] && s[|s| - 1] == c then StripTrailing(s[..|s| - 1], c) else s
  }

  /** Python's `s.split(sep)` for a one-character separator. */
  function Split(s: string, sep: char): (parts: seq<string>)
    ensures |parts| >= 1
    decreases |s|
  {
    if s == [] then [""]
    else
      var rest := Split(s[1..], sep);
      if s[0] == sep then [""] + rest else [[s[0]] + rest[0]] + rest[1..]
  }

  function Last<T>(xs: seq<T>): T
    requires |xs| > 0
  {
    xs[|xs| - 1]
  }

  function DigitChar(d: nat): char
    requires d < 10
  {
    ('0' as int + d) as char
  }

  /** Python's `str(n)` for a natural number. */
  function NatToString(n: nat): (s: string)
    ensures |s| >= 1 && forall i :: 0 <= i < |s| ==> IsDigit(s[i]) && '0' <= s[i] <= '9'
    decreases n
  {
    if n < 10 then [DigitChar(n)] else NatToString(n / 10) + [DigitChar(n % 10)]
  }

  /** Python's `int(s)` for a string of decimal digits. */
  function ParseNat(s: string): nat
    requires forall i :: 0 <= i < |s| ==> IsDigit(s[i])
    decreases |s|
  {
    if s == [] then 0 else ParseNat(s[..|s| - 1]) * 10 + DigitValue(s[|s| - 1])
  }

  /** The value of a decimal digit: its place in its run. */
  function DigitValue(c: char): (d: nat)
    requires IsDigit(c)
    ensures d < 10
  {
    c as int - DigitZero(c)
  }

  /** Python's `a <= b` between strings: lexicographic by code point. */
  predicate LexLe(a: string, b: string)
    decreases |a|
  {
    a == [] || (b != [] && (a[0] < b[0] || (a[0] == b[0] && LexLe(a[1..], b[1..]))))
  }

  // ---------------------------------------------------------------------------------------
  // Lemmas

  /** Reading back a rendered number gives the number. */
  lemma {:induction false} ParseNatToString(n: nat)
    ensures ParseNat(NatToString(n)) == n
    decreases n
  {
    var s := NatToString(n);
    if n >= 10 {
      assert s[..|s| - 1] == NatToString(n / 10);
      ParseNatToString(n / 10);
    }
  }

  /** Different numbers render differently. */
  lemma NatToStringInjective(a: nat, b: nat)
    requires NatToString(a) == NatToString(b)
    ensures a == b
  {
    ParseNatToString(a);
    ParseNatToString(b);
  }

  /** Text without the pattern is left alone by `replace`. */
  lemma {:induction false} ReplaceWithoutOccurrence(s: string, t: string, r: string)
    requires |t| > 0
    requires !Contains(s, t)
    ensures Replace(s, t, r) == s
    decreases |s|
  {
    if |s| >= |t| {
      assert !OccursAt(s, t, 0);
      assert !Contains(s[1..], t) by {
        forall i | 0 <= i <= |s[1..]| - |t| ensures !OccursAt(s[1..], t, i) {
          assert !OccursAt(s, t, i + 1);
          assert s[1..][i..i + |t|] == s[i + 1..i + 1 + |t|];
        }
      }
      ReplaceWithoutOccurrence(s[1..], t, r);
    }
  }

  /** As long as no replacement character shows up, the output of `replace` copies its input. */
  lemma {:induction false} ReplacePrefixCopies(s: string, t: string, r: string, k: nat)
    requires |t| > 0 && |r| > 0
    requires k <= |Replace(s, t, r)|
    requires forall j :: 0 <= j < k ==> Replace(s, t, r)[j] !in r
    ensures k <= |s| && Replace(s, t, r)[..k] == s[..k]
    decreases |s|
  {
    var out := Replace(s, t, r);
    if |s| < |t| {
    } else if s[..|t|] == t {
      if k > 0 {
        ConcatHead(r, Replace(s[|t|..], t, r));
        assert false;
      }
    } else if k > 0 {
      var rest := Replace(s[1..], t, r);
      assert out == [s[0]] + rest;
      forall j | 0 <= j < k - 1 ensures rest[j] !in r {
        assert rest[j] == out[j + 1];
      }
      ReplacePrefixCopies(s[1..], t, r, k - 1);
      assert out[..k] == [s[0]] + rest[..k - 1];
    }
  }

  /**
   * When the replacement is non-empty and shares no character with the pattern, no
   * occurrence of the pattern survives `replace`.
   */
  lemma {:induction false} ReplaceLeavesNoOccurrence(s: string, t: string, r: string)
    requires |t| > 0 && |r| > 0
    requires forall j :: 0 <= j < |t| ==> t[j] !in r
    ensures !Contains(Replace(s, t, r), t)
    decreases |s|
  {
    if |s| < |t| {
    } else if s[..|t|] == t {
      var rest := Replace(s[|t|..], t, r);
      ReplaceLeavesNoOccurrence(s[|t|..], t, r);
      assert Replace(s, t, r) == r + rest;
      PrefixAddsNoOccurrence(r, rest, t);
    } else {
      var rest := Replace(s[1..], t, r);
      ReplaceLeavesNoOccurrence(s[1..], t, r);
      assert Replace(s, t, r) == [s[0]] + rest;
      CopiedHeadNoFrontOccurrence(s, t, r);
      ShiftAddsNoOccurrence(s[0], rest, t);
    }
  }

  /** Prefixing a string with a non-empty one sharing no character with `t` creates no occurrence of `t`. */
  lemma {:induction false} PrefixAddsNoOccurrence(r: string, rest: string, t: string)
    requires |t| > 0 && |r| > 0
    requires forall j :: 0 <= j < |t| ==> t[j] !in r
    requires !Contains(rest, t)
    ensures !Contains(r + rest, t)
  {
    var out := r + rest;
    forall i | 0 <= i <= |out| - |t| ensures !OccursAt(out, t, i) {
      if i >= |r| {
        assert out[i..i + |t|] == rest[i - |r|..i - |r| + |t|];
        assert !OccursAt(rest, t, i - |r|);
      } else {
        assert out[i] == r[i] && t[0] !in r;
      }
    }
  }

  /** Prefixing one character that does not start an occurrence of `t` creates none. */
  lemma {:induction false} ShiftAddsNoOccurrence(c: char, rest: string, t: string)
    requires |t| > 0 && !OccursAt([c] + rest, t, 0)
    requires !Contains(rest, t)
    ensures !Contains([c] + rest, t)
  {
    var out := [c] + rest;
    forall i | 1 <= i <= |out| - |t| ensures !OccursAt(out, t, i) {
      assert out[i..i + |t|] == rest[i - 1..i - 1 + |t|];
      assert !OccursAt(rest, t, i - 1);
    }
  }

  /** A copied first character cannot start an occurrence of the pattern in the result. */
  lemma {:induction false} CopiedHeadNoFrontOccurrence(s: string, t: string, r: string)
    requires |t| > 0 && |r| > 0 && |s| >= |t| && s[..|t|] != t
    requires forall j :: 0 <= j < |t| ==> t[j] !in r
    ensures !OccursAt(Replace(s, t, r), t, 0)
  {
    var rest := Replace(s[1..], t, r);
    assert Replace(s, t, r) == [s[0]] + rest;
    if OccursAt([s[0]] + rest, t, 0) {
      TailAvoidsReplacement(s[0], rest, t, r);
      ReplacePrefixCopies(s[1..], t, r, |t| - 1);
      assert false;
    }
  }

  /** If `[c] + rest` starts with `t`, the next `|t| - 1` characters of `rest` are not in `r`. */
  lemma TailAvoidsReplacement(c: char, rest: string, t: string, r: string)
    requires |t| > 0 && OccursAt([c] + rest, t, 0)
    requires forall j :: 0 <= j < |t| ==> t[j] !in r
    ensures |t| - 1 <= |rest|
    ensures forall j :: 0 <= j < |t| - 1 ==> rest[j] !in r
  {
    forall j | 0 <= j < |t| - 1 ensures rest[j] !in r {
      assert rest[j] == ([c] + rest)[j + 1] == t[j + 1];
    }
  }

  /** `s.strip()` is empty exactly when every character of `s` is whitespace. */
  lemma {:induction false} StripEmptyIffAllSpace(s: string)
    ensures Strip(s) == [] <==> forall k :: 0 <= k < |s| ==> IsSpace(s[k])
  {
    StripLeftEmptyIffAllSpace(s);
    var l := StripLeft(s);
    if l != [] {
      assert !IsSpace(l[0]);
      if StripRight(l) == [] {
        StripRightEmptyAllSpace(l);
      }
    }
  }

  lemma {:induction false} StripLeftEmptyIffAllSpace(s: string)
    ensures StripLeft(s) == [] <==> forall k :: 0 <= k < |s| ==> IsSpace(s[k])
    decreases |s|
  {
    if s != [] && IsSpace(s[0]) {
      StripLeftEmptyIffAllSpace(s[1..]);
      assert forall k :: 1 <= k < |s| ==> s[k] == s[1..][k - 1];
    }
  }

  lemma {:induction false} StripRightEmptyAllSpace(s: string)
    requires StripRight(s) == []
    ensures forall k :: 0 <= k < |s| ==> IsSpace(s[k])
    decreases |s|
  {
    if s != [] {
      StripRightEmptyAllSpace(s[..|s| - 1]);
    }
  }

  /**
   * `replace` works piecewise on a concatenation when no occurrence of the pattern starts
   * inside the first piece.
   */
  lemma {:induction false} ReplaceConcat(a: string, b: string, t: string, r: string)
    requires |t| > 0
    requires forall i :: 0 <= i < |a| ==> !OccursAt(a + b, t, i)
    ensures Replace(a + b, t, r) == a + Replace(b, t, r)
    decreases |a|
  {
    if a != [] {
      var s := a + b;
      if |s| >= |t| {
        assert !OccursAt(s, t, 0);
        assert Replace(s, t, r) == [s[0]] + Replace(s[1..], t, r);
        assert s[1..] == a[1..] + b;
        forall i | 0 <= i < |a[1..]| ensures !OccursAt(a[1..] + b, t, i) {
          OccursAtShift(s, t, i);
        }
        ReplaceConcat(a[1..], b, t, r);
        calc {
          Replace(s, t, r);
          [s[0]] + Replace(a[1..] + b, t, r);
          [a[0]] + (a[1..] + Replace(b, t, r));
          { assert [a[0]] + a[1..] == a; }
          a + Replace(b, t, r);
        }
      } else {
        assert Replace(s, t, r) == s;
        assert Replace(b, t, r) == b;
      }
    } else {
      assert a + b == b;
    }
  }

  lemma OccursAtShift(s: string, t: string, i: nat)
    requires |s| > 0
    ensures OccursAt(s[1..], t, i) <==> OccursAt(s, t, i + 1)
  {
    if i + |t| <= |s| - 1 {
      assert s[1..][i..i + |t|] == s[i + 1..i + 1 + |t|];
    }
  }

  lemma ConcatHead(x: string, y: string)
    requires |x| > 0
    ensures (x + y)[0] == x[0] && x[0] in x
  {
  }

  /** `split` of a joined string splits the two sides separately. */
  lemma {:induction false} SplitConcat(x: string, y: string, sep: char)
    ensures Split(x + [sep] + y, sep) == Split(x, sep) + Split(y, sep)
    decreases |x|
  {
    if x == [] {
      assert x + [sep] + y == [sep] + y;
      assert ([sep] + y)[1..] == y;
    } else {
      assert (x + [sep] + y)[1..] == x[1..] + [sep] + y;
      SplitConcat(x[1..], y, sep);
    }
  }

  /** A string without the separator splits into itself. */
  lemma {:induction false} SplitWithoutSeparator(s: string, sep: char)
    requires sep !in s
    ensures Split(s, sep) == [s]
    decreases |s|
  {
    if s != [] {
      SplitWithoutSeparator(s[1..], sep);
      assert [s[0]] + s[1..] == s;
    }
  }

  lemma {:induction false} LexLeReflexive(a: string)
    ensures LexLe(a, a)
    decreases |a|
  {
    if a != [] {
      LexLeReflexive(a[1..]);
    }
  }

  lemma {:induction false} LexLeTotal(a: string, b: string)
    ensures LexLe(a, b) || LexLe(b, a)
    decreases |a|
  {
    if a != [] && b != [] && a[0] == b[0] {
      LexLeTotal(a[1..], b[1..]);
    }
  }

  lemma {:induction false} LexLeAntisymmetric(a: string, b: string)
    requires LexLe(a, b) && LexLe(b, a)
    ensures a == b
    decreases |a|
  {
    if a != [] {
      LexLeAntisymmetric(a[1..], b[1..]);
      assert a == [a[0]] + a[1..] && b == [b[0]] + b[1..];
    }
  }

  lemma {:induction false} LexLeTransitive(a: string, b: string, c: string)
    requires LexLe(a, b) && LexLe(b, c)
    ensures LexLe(a, c)
    decreases |a|
  {
    if a != [] && a[0] == b[0] && b[0] == c[0] {
      LexLeTransitive(a[1..], b[1..], c[1..]);
    }
  }
}
