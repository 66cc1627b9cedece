/**
 * The JavaScript string operations convert.ts relies on, on strings as
 * sequences of characters: `startsWith`, `endsWith`, `trim`, and the few
 * regular expressions it uses (an end-anchored alternation replaced by '',
 * a case-insensitive word ending `w\b`, a case-insensitive substring test).
 *
 * The regular expressions carry no `u` flag, so `\b` knows only the ASCII
 * word characters and case-insensitive matching of an ASCII pattern is ASCII
 * case folding; they carry no `s` or `m` flag, so `.` stops at a line
 * terminator and `$` is the end of the input.
 */
module Strings {

  // ---------------------------------------------------------------------
  // Character classes
  // ---------------------------------------------------------------------

  /** Line terminators of ECMAScript: LF, CR, LINE SEPARATOR, PARAGRAPH SEPARATOR. */
  predicate IsLineTerminator(c: char)
  {
    c as int == 0x0A || c as int == 0x0D || c as int == 0x2028 || c as int == 0x2029
  }

  /** What `String.prototype.trim` removes: ECMAScript WhiteSpace and LineTerminator. */
  predicate IsWhitespace(c: char)
  {
    var n := c as int;
    || (0x09 <= n <= 0x0D)                // tab, LF, vertical tab, form feed, CR
    || n == 0x20 || n == 0xA0 || n == 0x1680
    || (0x2000 <= n <= 0x200A)
    || n == 0x2028 || n == 0x2029 || n == 0x202F || n == 0x205F || n == 0x3000
    || n == 0xFEFF
  }

  /** `\w` without the `u` flag: `[A-Za-z0-9_]`. */
  predicate IsWordChar(c: char)
  {
    ('A' <= c <= 'Z') || ('a' <= c <= 'z') || ('0' <= c <= '9') || c == '_'
  }

  /** ASCII lower case; every other character is left alone. */
  function AsciiLower(c: char): (d: char)
    ensures 'A' <= c <= 'Z' ==> 'a' <= d <= 'z'
    ensures !('A' <= c <= 'Z') ==> d == c
  {
    if 'A' <= c <= 'Z' then (c as int + 32) as char else c
  }

  /** Two characters are equal under the `i` flag (for an ASCII pattern character). */
  predicate SameIgnoringCase(c: char, d: char)
  {
    AsciiLower(c) == AsciiLower(d)
  }

  predicate NoLineTerminator(s: string)
  {
    forall k :: 0 <= k < |s| ==> !IsLineTerminator(s[k])
  }

  predicate AllWhitespace(s: string)
  {
    forall k :: 0 <= k < |s| ==> IsWhitespace(s[k])
  }

  // ---------------------------------------------------------------------
  // Occurrences, startsWith, endsWith
  // ---------------------------------------------------------------------

  /**
   * The characters p[j..] sit in s from position i + j on; `ignoreCase` selects
   * comparison under the `i` flag. Computed character by character so that
   * concrete strings evaluate.
   */
  predicate MatchesFrom(s: string, p: string, i: nat, j: nat, ignoreCase: bool)
    requires i + |p| <= |s| && j <= |p|
    decreases |p| - j
  {
    j == |p| ||
    ((if ignoreCase then SameIgnoringCase(s[i + j], p[j]) else s[i + j] == p[j]) &&
     MatchesFrom(s, p, i, j + 1, ignoreCase))
  }

  /** MatchesFrom compares every remaining character. */
  lemma {:induction false} MatchesFromIff(s: string, p: string, i: nat, j: nat, ignoreCase: bool)
    requires i + |p| <= |s| && j <= |p|
    decreases |p| - j
    ensures MatchesFrom(s, p, i, j, ignoreCase) <==>
      forall k :: j <= k < |p| ==>
        (if ignoreCase then SameIgnoringCase(s[i + k], p[k]) else s[i + k] == p[k])
  {
    if j < |p| {
      MatchesFromIff(s, p, i, j + 1, ignoreCase);
    }
  }

  /** p occurs in s at position i, character for character. */
  predicate OccursAt(s: string, p: string, i: nat)
  {
    i + |p| <= |s| && MatchesFrom(s, p, i, 0, false)
  }

  /** p occurs in s at position i under the `i` flag. */
  predicate OccursIgnoringCaseAt(s: string, p: string, i: nat)
  {
    i + |p| <= |s| && MatchesFrom(s, p, i, 0, true)
  }

  /** p occurs at i exactly when each of its characters sits at the matching position. */
  lemma OccursAtIff(s: string, p: string, i: nat)
    ensures OccursAt(s, p, i) <==> i + |p| <= |s| && forall k :: 0 <= k < |p| ==> s[i + k] == p[k]
  {
    if i + |p| <= |s| {
      MatchesFromIff(s, p, i, 0, false);
    }
  }

  lemma OccursIgnoringCaseAtIff(s: string, p: string, i: nat)
    ensures OccursIgnoringCaseAt(s, p, i) <==>
      i + |p| <= |s| && forall k :: 0 <= k < |p| ==> SameIgnoringCase(s[i + k], p[k])
  {
    if i + |p| <= |s| {
      MatchesFromIff(s, p, i, 0, true);
    }
  }

  /** An occurrence inside a substring s[lo..hi] is an occurrence in s. */
  lemma OccursAtInfix(s: string, lo: nat, hi: nat, p: string, i: nat)
    requires lo <= hi <= |s|
    ensures OccursAt(s[lo..hi], p, i) ==> OccursAt(s, p, lo + i)
  {
    OccursAtIff(s[lo..hi], p, i);
    OccursAtIff(s, p, lo + i);
    if OccursAt(s[lo..hi], p, i) {
      forall k | 0 <= k < |p| ensures s[lo + i + k] == p[k] {
        assert s[lo..hi][i + k] == p[k];
      }
    }
  }

  /** `s.startsWith(p)`. */
  predicate StartsWith(s: string, p: string)
  {
    OccursAt(s, p, 0)
  }

  /** `s.endsWith(p)`. */
  predicate EndsWith(s: string, p: string)
  {
    |p| <= |s| && OccursAt(s, p, |s| - |p|)
  }

  /** A string ends with what was appended to it. */
  lemma EndsWithAppend(a: string, p: string)
    ensures EndsWith(a + p, p)
  {
    OccursAtIff(a + p, p, |a|);
  }

  /** Every string ends with itself. */
  lemma EndsWithItself(s: string)
    ensures EndsWith(s, s)
  {
    OccursAtIff(s, s, 0);
  }

  /** One differing character rules out an occurrence. */
  lemma MismatchAt(s: string, p: string, i: nat, k: nat)
    requires k < |p| && i + k < |s| && s[i + k] != p[k]
    ensures !OccursAt(s, p, i)
  {
    OccursAtIff(s, p, i);
  }

  /** A suffix of a suffix is a suffix. */
  lemma EndsWithSuffix(s: string, p: string, q: string)
    requires EndsWith(s, p) && EndsWith(p, q)
    ensures EndsWith(s, q)
  {
    OccursAtIff(s, p, |s| - |p|);
    OccursAtIff(p, q, |p| - |q|);
    OccursAtIff(s, q, |s| - |q|);
    forall k | 0 <= k < |q| ensures s[|s| - |q| + k] == q[k] {
      assert p[|p| - |q| + k] == q[k];
      assert s[|s| - |p| + (|p| - |q| + k)] == p[|p| - |q| + k];
    }
  }

  // ---------------------------------------------------------------------
  // `s.replace(/a0.*$|a1.*$|.../, '')`
  // ---------------------------------------------------------------------

  /** Alternative `alts[m].*$` matches s at position i: alts[m] starts there and no line terminator follows it. */
  predicate TailMatchOf(s: string, alt: string, i: nat)
  {
    OccursAt(s, alt, i) && NoLineTerminator(s[i + |alt|..])
  }

  /** One of `alts[m..]` matches at position i (tried in order, as the alternation does). */
  predicate TailMatchFrom(s: string, alts: seq<string>, i: nat, m: nat)
    requires m <= |alts|
    decreases |alts| - m
  {
    m < |alts| && (TailMatchOf(s, alts[m], i) || TailMatchFrom(s, alts, i, m + 1))
  }

  /** The alternation matches exactly where one of its alternatives does. */
  lemma {:induction false} TailMatchFromIff(s: string, alts: seq<string>, i: nat, m: nat)
    requires m <= |alts|
    decreases |alts| - m
    ensures TailMatchFrom(s, alts, i, m) <==> exists n :: m <= n < |alts| && TailMatchOf(s, alts[n], i)
  {
    if m < |alts| {
      TailMatchFromIff(s, alts, i, m + 1);
    }
  }

  /** The regular expression `alts[0].*$|alts[1].*$|…` matches s at position i. */
  predicate TailMatchAt(s: string, alts: seq<string>, i: nat)
  {
    TailMatchFrom(s, alts, i, 0)
  }

  /** Leftmost position at or after i where the alternation matches; |s| if there is none before |s|. */
  function FirstTailMatch(s: string, alts: seq<string>, i: nat): (k: nat)
    requires i <= |s|
    decreases |s| - i
    ensures i <= k <= |s|
  {
    if i == |s| then |s|
    else if TailMatchAt(s, alts, i) then i
    else FirstTailMatch(s, alts, i + 1)
  }

  /** FirstTailMatch is a position where the alternation matches (or the end) with no match between i and it. */
  lemma {:induction false} FirstTailMatchSpec(s: string, alts: seq<string>, i: nat)
    requires i <= |s|
    decreases |s| - i
    ensures FirstTailMatch(s, alts, i) < |s| ==> TailMatchAt(s, alts, FirstTailMatch(s, alts, i))
    ensures forall j :: i <= j < FirstTailMatch(s, alts, i) ==> !TailMatchAt(s, alts, j)
  {
    if i < |s| && !TailMatchAt(s, alts, i) {
      FirstTailMatchSpec(s, alts, i + 1);
    }
  }

  /** FirstTailMatch is the k that matches with no match between i and k. */
  lemma {:induction false} FirstTailMatchIs(s: string, alts: seq<string>, i: nat, k: nat)
    requires i <= k <= |s|
    requires forall j :: i <= j < k ==> !TailMatchAt(s, alts, j)
    requires k < |s| ==> TailMatchAt(s, alts, k)
    ensures FirstTailMatch(s, alts, i) == k
    decreases k - i
  {
    if i < k {
      FirstTailMatchIs(s, alts, i + 1, k);
    }
  }

  /** When every alternative begins with a space, nothing matches at a position holding another character. */
  lemma NoTailMatchOffSpace(s: string, alts: seq<string>, j: nat)
    requires forall n :: 0 <= n < |alts| ==> |alts[n]| > 0 && alts[n][0] == ' '
    requires j < |s| && s[j] != ' '
    ensures !TailMatchAt(s, alts, j)
  {
    TailMatchFromIff(s, alts, j, 0);
  }

  /**
   * `s.replace(/alts[0].*$|…/, '')`: the match runs to the end of the input,
   * so replacing the first (leftmost) one by '' keeps what precedes it.
   */
  function ReplaceTail(s: string, alts: seq<string>): (r: string)
    ensures |r| <= |s|
  {
    s[..FirstTailMatch(s, alts, 0)]
  }

  /** The replacement keeps the prefix of s before the leftmost match, and all of s when nothing matches. */
  lemma ReplaceTailSpec(s: string, alts: seq<string>)
    ensures ReplaceTail(s, alts) == s[..|ReplaceTail(s, alts)|]
    ensures |ReplaceTail(s, alts)| < |s| ==> TailMatchAt(s, alts, |ReplaceTail(s, alts)|)
    ensures forall j :: 0 <= j < |ReplaceTail(s, alts)| ==> !TailMatchAt(s, alts, j)
  {
    FirstTailMatchSpec(s, alts, 0);
  }

  /**
   * When every alternative begins with a space, the replacement cuts at k as
   * soon as the alternation matches at k and at none of the spaces before it.
   */
  lemma ReplaceTailAt(s: string, alts: seq<string>, k: nat)
    requires forall n :: 0 <= n < |alts| ==> |alts[n]| > 0 && alts[n][0] == ' '
    requires k <= |s|
    requires k < |s| ==> TailMatchAt(s, alts, k)
    requires forall j :: 0 <= j < k && s[j] == ' ' ==> !TailMatchAt(s, alts, j)
    ensures ReplaceTail(s, alts) == s[..k]
  {
    forall j | 0 <= j < k ensures !TailMatchAt(s, alts, j) {
      if s[j] != ' ' {
        NoTailMatchOffSpace(s, alts, j);
      }
    }
    FirstTailMatchIs(s, alts, 0, k);
  }

  // ---------------------------------------------------------------------
  // `s.trim()`
  // ---------------------------------------------------------------------

  /** First position at or after i that holds no whitespace; |s| if there is none. */
  function SkipWhitespace(s: string, i: nat): (k: nat)
    requires i <= |s|
    decreases |s| - i
    ensures i <= k <= |s|
  {
    if i < |s| && IsWhitespace(s[i]) then SkipWhitespace(s, i + 1) else i
  }

  /** SkipWhitespace passes only whitespace and stops at the first character that is not. */
  lemma {:induction false} SkipWhitespaceSpec(s: string, i: nat)
    requires i <= |s|
    decreases |s| - i
    ensures forall j :: i <= j < SkipWhitespace(s, i) ==> IsWhitespace(s[j])
    ensures SkipWhitespace(s, i) < |s| ==> !IsWhitespace(s[SkipWhitespace(s, i)])
  {
    if i < |s| && IsWhitespace(s[i]) {
      SkipWhitespaceSpec(s, i + 1);
    }
  }

  /** Going back from j, no lower than lo, the position after the last non-whitespace character; lo if there is none. */
  function SkipWhitespaceBack(s: string, lo: nat, j: nat): (k: nat)
    requires lo <= j <= |s|
    decreases j
    ensures lo <= k <= j
  {
    if j > lo && IsWhitespace(s[j - 1]) then SkipWhitespaceBack(s, lo, j - 1) else j
  }

  /** SkipWhitespaceBack passes only whitespace and stops after the last character that is not. */
  lemma {:induction false} SkipWhitespaceBackSpec(s: string, lo: nat, j: nat)
    requires lo <= j <= |s|
    decreases j
    ensures forall m :: SkipWhitespaceBack(s, lo, j) <= m < j ==> IsWhitespace(s[m])
    ensures SkipWhitespaceBack(s, lo, j) > lo ==> !IsWhitespace(s[SkipWhitespaceBack(s, lo, j) - 1])
  {
    if j > lo && IsWhitespace(s[j - 1]) {
      SkipWhitespaceBackSpec(s, lo, j - 1);
    }
  }

  /** Neither begins nor ends with whitespace. */
  predicate IsTrimmed(s: string)
  {
    s == [] || (!IsWhitespace(s[0]) && !IsWhitespace(s[|s| - 1]))
  }

  /** Length of the longest all-whitespace prefix of s. */
  function LeadingWhitespace(s: string): (n: nat)
    ensures n <= |s|
  {
    SkipWhitespace(s, 0)
  }

  /** `s.trim()`. */
  function Trim(s: string): (r: string)
    ensures |r| <= |s|
  {
    var a := SkipWhitespace(s, 0);
    var b := SkipWhitespaceBack(s, a, |s|);
    s[a..b]
  }

  /**
   * s is the longest whitespace prefix, then Trim(s), then whitespace, and
   * Trim(s) neither begins nor ends with whitespace.
   */
  lemma TrimSpec(s: string)
    ensures AllWhitespace(s[..LeadingWhitespace(s)])
    ensures LeadingWhitespace(s) < |s| ==> !IsWhitespace(s[LeadingWhitespace(s)])
    ensures LeadingWhitespace(s) + |Trim(s)| <= |s|
    ensures Trim(s) == s[LeadingWhitespace(s)..LeadingWhitespace(s) + |Trim(s)|]
    ensures AllWhitespace(s[LeadingWhitespace(s) + |Trim(s)|..])
    ensures IsTrimmed(Trim(s))
  {
    var a := SkipWhitespace(s, 0);
    SkipWhitespaceSpec(s, 0);
    SkipWhitespaceBackSpec(s, a, |s|);
  }

  /** Trimming leaves a trimmed string alone. */
  lemma TrimTrimmed(s: string)
    requires IsTrimmed(s)
    ensures Trim(s) == s
  {
    if s != [] {
      assert SkipWhitespace(s, 0) == 0;
      assert SkipWhitespaceBack(s, 0, |s|) == |s|;
    }
  }

  // ---------------------------------------------------------------------
  // `/w\b/i.test(s)` and `/p/i.test(s)`
  // ---------------------------------------------------------------------

  /** `w\b` under the `i` flag matches at position i (w ends in a word character). */
  predicate WordEndAt(s: string, w: string, i: nat)
  {
    OccursIgnoringCaseAt(s, w, i) && (i + |w| == |s| || !IsWordChar(s[i + |w|]))
  }

  /** `w\b` under the `i` flag matches somewhere at or after position i. */
  predicate WordEndFrom(s: string, w: string, i: nat)
    decreases |s| + 1 - i
  {
    i <= |s| && (WordEndAt(s, w, i) || WordEndFrom(s, w, i + 1))
  }

  /** The search finds `w\b` exactly when it matches at some position it covers. */
  lemma {:induction false} WordEndFromIff(s: string, w: string, i: nat)
    decreases |s| + 1 - i
    ensures WordEndFrom(s, w, i) <==> exists k :: i <= k <= |s| && WordEndAt(s, w, k)
  {
    if i <= |s| {
      WordEndFromIff(s, w, i + 1);
    }
  }

  /** `s.match(/w\b/i)` is non-null. */
  predicate HasWordEnding(s: string, w: string)
  {
    WordEndFrom(s, w, 0)
  }

  /** `s.match(/w\b/i)` succeeds exactly when `w\b` matches at some position of s. */
  lemma HasWordEndingIff(s: string, w: string)
    ensures HasWordEnding(s, w) <==> exists k :: 0 <= k <= |s| && WordEndAt(s, w, k)
  {
    WordEndFromIff(s, w, 0);
  }

  /** p occurs under the `i` flag somewhere at or after position i. */
  predicate ContainsIgnoringCaseFrom(s: string, p: string, i: nat)
    decreases |s| + 1 - i
  {
    i <= |s| && (OccursIgnoringCaseAt(s, p, i) || ContainsIgnoringCaseFrom(s, p, i + 1))
  }

  /** The search finds p exactly when p occurs under the `i` flag at some position it covers. */
  lemma {:induction false} ContainsIgnoringCaseFromIff(s: string, p: string, i: nat)
    decreases |s| + 1 - i
    ensures ContainsIgnoringCaseFrom(s, p, i) <==> exists k :: i <= k <= |s| && OccursIgnoringCaseAt(s, p, k)
  {
    if i <= |s| {
      ContainsIgnoringCaseFromIff(s, p, i + 1);
    }
  }

  /** `/p/i.test(s)`. */
  predicate ContainsIgnoringCase(s: string, p: string)
  {
    ContainsIgnoringCaseFrom(s, p, 0)
  }

  /** `/p/i.test(s)` succeeds exactly when p occurs in s under the `i` flag. */
  lemma ContainsIgnoringCaseIff(s: string, p: string)
    ensures ContainsIgnoringCase(s, p) <==> exists k :: 0 <= k <= |s| && OccursIgnoringCaseAt(s, p, k)
  {
    ContainsIgnoringCaseFromIff(s, p, 0);
  }

  /** An occurrence anywhere is found by the search. */
  lemma ContainsIgnoringCaseAt(s: string, p: string, k: nat)
    requires OccursIgnoringCaseAt(s, p, k)
    ensures ContainsIgnoringCase(s, p)
  {
    ContainsIgnoringCaseFromIff(s, p, 0);
  }

  /** A pattern whose first character appears nowhere in s, in either case, is not found. */
  lemma FirstCharAbsent(s: string, p: string)
    requires |p| > 0
    requires forall k :: 0 <= k < |s| ==> !SameIgnoringCase(s[k], p[0])
    ensures !ContainsIgnoringCase(s, p)
  {
    ContainsIgnoringCaseFromIff(s, p, 0);
  }

  /** A string that ends with w matches `w\b`: the end of the input is a word boundary. */
  lemma EndsWithHasWordEnding(s: string, w: string)
    requires EndsWith(s, w)
    ensures HasWordEnding(s, w)
  {
    OccursAtIff(s, w, |s| - |w|);
    OccursIgnoringCaseAtIff(s, w, |s| - |w|);
    assert WordEndAt(s, w, |s| - |w|);
    WordEndFromIff(s, w, 0);
  }
}
