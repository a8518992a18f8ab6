/**
 * Character classes and string helpers shared by the pattern recognisers and the
 * log viewer: PHP's default `trim` set, PCRE's `\s`, `\d` and `\w` (ASCII, no `u` flag),
 * ASCII lower-casing, case-insensitive substring search and decimal rendering.
 */
module Strings {

  import opened Wrappers

  /** The characters PHP's `trim` removes by default: space, tab, LF, CR, NUL and VT. */
  predicate IsTrimChar(c: char) {
    c == ' ' || c == '\t' || c == '\n' || c == '\r' || c == '\0' || c == '\U{000B}'
  }

  /** PCRE's `\s`: space, tab, LF, VT, FF and CR. */
  predicate IsSpace(c: char) {
    c == ' ' || c == '\t' || c == '\n' || c == '\U{000B}' || c == '\U{000C}' || c == '\r'
  }

  /** PCRE's `\d`. */
  predicate IsDigit(c: char) {
    '0' <= c <= '9'
  }

  /** PCRE's `\w`: letters, digits and underscore. */
  predicate IsWordChar(c: char) {
    IsDigit(c) || 'a' <= c <= 'z' || 'A' <= c <= 'Z' || c == '_'
  }

  /** PCRE's `.` without the `s` flag: anything but LF. */
  predicate NotNewline(c: char) {
    c != '\n'
  }

  predicate AllDigits(s: string) {
    forall k :: 0 <= k < |s| ==> IsDigit(s[k])
  }

  predicate AllSpace(s: string) {
    forall k :: 0 <= k < |s| ==> IsSpace(s[k])
  }

  predicate AllTrimChars(s: string) {
    forall k :: 0 <= k < |s| ==> IsTrimChar(s[k])
  }

  /** Length of the longest run of characters satisfying `p` starting at `i`. */
  function Run(s: string, i: nat, p: char -> bool): (n: nat)
    requires i <= |s|
    ensures i + n <= |s|
    ensures forall k :: i <= k < i + n ==> p(s[k])
    ensures i + n == |s| || !p(s[i + n])
    decreases |s| - i
  {
    if i < |s| && p(s[i]) then 1 + Run(s, i + 1, p) else 0
  }

  /** A run is determined by its two ends: every character of it satisfies `p`, the next one does not. */
  lemma {:induction false} RunIs(s: string, i: nat, p: char -> bool, n: nat)
    requires i + n <= |s|
    requires forall k :: i <= k < i + n ==> p(s[k])
    requires i + n == |s| || !p(s[i + n])
    ensures Run(s, i, p) == n
    decreases n
  {
    if n > 0 {
      RunIs(s, i + 1, p, n - 1);
    }
  }

  /** A stretch of `n` characters satisfying `p` at `i` lies inside the run from `i`. */
  lemma RunAtLeast(s: string, i: nat, p: char -> bool, n: nat)
    requires i + n <= |s| && forall k :: i <= k < i + n ==> p(s[k])
    ensures Run(s, i, p) >= n
  {
  }

  /** ASCII lower-casing of one character (what `mb_convert_case`/`mb_stripos` do on ASCII). */
  function LowerChar(c: char): char {
    if 'A' <= c <= 'Z' then (c as int + 32) as char else c
  }

  function Lower(s: string): (r: string)
    ensures |r| == |s|
    ensures forall k :: 0 <= k < |s| ==> r[k] == LowerChar(s[k])
  {
    if s == [] then [] else [LowerChar(s[0])] + Lower(s[1..])
  }

  lemma LowerLower(s: string)
    ensures Lower(Lower(s)) == Lower(s)
  {
  }

  /** Number of leading characters of `s` that `trim` removes. */
  function LeadingTrim(s: string): (n: nat)
    ensures n <= |s|
    ensures AllTrimChars(s[..n])
    ensures n == |s| || !IsTrimChar(s[n])
  {
    Run(s, 0, IsTrimChar)
  }

  /** Number of trailing characters of `s` that `trim` removes. */
  function TrailingTrim(s: string): (n: nat)
    ensures n <= |s|
    ensures forall k :: |s| - n <= k < |s| ==> IsTrimChar(s[k])
    ensures n == |s| || !IsTrimChar(s[|s| - 1 - n])
  {
    if s != [] && IsTrimChar(s[|s| - 1]) then 1 + TrailingTrim(s[..|s| - 1]) else 0
  }

  /**
   * PHP `trim`: the result is `s` with its leading and trailing trim characters cut
   * off, and it neither starts nor ends with one.
   */
  function Trim(s: string): (r: string)
    ensures r == [] || (!IsTrimChar(r[0]) && !IsTrimChar(r[|r| - 1]))
    ensures exists a, b :: TrimCut(s, a, b, r)
  {
    var a := LeadingTrim(s);
    var rest := s[a..];
    var n := TrailingTrim(rest);
    var b := |s| - n;
    assert forall k :: 0 <= k < |s| - b ==> s[b..][k] == rest[|rest| - n + k];
    assert TrimCut(s, a, b, s[a..b]);
    assert a < b ==> s[a..b][b - a - 1] == rest[|rest| - 1 - n];
    s[a..b]
  }

  /** `r` is `s[a..b]` and everything outside that slice is a trim character. */
  predicate TrimCut(s: string, a: int, b: int, r: string) {
    0 <= a <= b <= |s| && r == s[a..b] && AllTrimChars(s[..a]) && AllTrimChars(s[b..])
  }

  /** A string that neither starts nor ends with a trim character is its own trim. */
  lemma TrimOfTrimmed(s: string)
    requires s == [] || (!IsTrimChar(s[0]) && !IsTrimChar(s[|s| - 1]))
    ensures Trim(s) == s
  {
    assert LeadingTrim(s) == 0;
    assert s[0..] == s;
  }

  /** `needle` occurs in `s` at `i`, comparing ASCII case-insensitively. */
  predicate MatchesAtCI(s: string, i: nat, needle: string) {
    i + |needle| <= |s| && Lower(s[i..i + |needle|]) == Lower(needle)
  }

  predicate ContainsCI(s: string, needle: string) {
    exists i: nat | i <= |s| :: MatchesAtCI(s, i, needle)
  }

  /** The first position at or after `from` where `needle` occurs case-insensitively. */
  function FindCI(s: string, needle: string, from: nat): (r: Option<nat>)
    requires from <= |s|
    ensures r.Some? ==> from <= r.value && MatchesAtCI(s, r.value, needle)
    ensures r.Some? ==> forall j: nat :: from <= j < r.value ==> !MatchesAtCI(s, j, needle)
    ensures r.None? ==> forall j: nat :: from <= j ==> !MatchesAtCI(s, j, needle)
    decreases |s| - from
  {
    if MatchesAtCI(s, from, needle) then Some(from)
    else if from + |needle| >= |s| then None
    else FindCI(s, needle, from + 1)
  }

  /** `mb_stripos($s, $needle) !== false`, with ASCII case folding. */
  function StrContainsCI(s: string, needle: string): (b: bool)
    ensures b <==> ContainsCI(s, needle)
  {
    FindCI(s, needle, 0).Some?
  }

  /** Decimal rendering of a natural number, as PHP's string conversion of an int. */
  function NatToString(n: nat): (r: string)
    ensures |r| > 0 && AllDigits(r)
    ensures |r| > 1 ==> r[0] != '0'
  {
    if n < 10 then [Digit(n)] else NatToString(n / 10) + [Digit(n % 10)]
  }

  function Digit(d: nat): (c: char)
    requires d < 10
    ensures IsDigit(c)
  {
    "0123456789"[d]
  }
}
