/**
 * The value formatters of LaravelLogViewer.php: `formatLogValue`, `formatLogDate`,
 * `formatLogLevel`, `stripDocumentRootFromText` and `formatText`. The application root
 * (`base_path()`) is an explicit parameter.
 */
module Normalise {

  import opened Strings

  /** `formatLogValue`: the value without its leading and trailing trim characters. */
  function FormatLogValue(value: string): (r: string)
    ensures r == [] || (!IsTrimChar(r[0]) && !IsTrimChar(r[|r| - 1]))
    ensures exists a, b :: TrimCut(value, a, b, r)
  {
    Trim(value)
  }

  /** `formatLogDate`: trims exactly as `formatLogValue` does. */
  function FormatLogDate(date: string): (r: string)
    ensures r == FormatLogValue(date)
    ensures r == [] || (!IsTrimChar(r[0]) && !IsTrimChar(r[|r| - 1]))
  {
    Trim(date)
  }

  /** No ASCII upper-case letter occurs in `s`. */
  predicate NoUpper(s: string) {
    forall k :: 0 <= k < |s| ==> !('A' <= s[k] <= 'Z')
  }

  /**
   * `formatLogLevel`: trimmed, then lower-cased. The result is the lower-cased trimmed
   * level, character by character, and holds no upper-case letter and no trim character
   * at either end.
   */
  function FormatLogLevel(level: string): (r: string)
    ensures |r| == |Trim(level)| && forall k :: 0 <= k < |r| ==> r[k] == LowerChar(Trim(level)[k])
    ensures NoUpper(r)
    ensures r == [] || (!IsTrimChar(r[0]) && !IsTrimChar(r[|r| - 1]))
  {
    var v := FormatLogValue(level);
    Lower(v)
  }

  /** Normalising a level twice is the same as normalising it once. */
  lemma {:induction false} FormatLogLevelIdempotent(level: string)
    ensures FormatLogLevel(FormatLogLevel(level)) == FormatLogLevel(level)
  {
    var once := FormatLogLevel(level);
    calc {
      FormatLogLevel(once);
      Lower(Trim(once));
      { TrimOfTrimmed(once); }
      Lower(once);
      Lower(Lower(Trim(level)));
      { LowerLower(Trim(level)); }
      Lower(Trim(level));
      once;
    }
  }

  /** Levels that differ only in ASCII case and surrounding whitespace normalise alike. */
  lemma {:induction false} FormatLogLevelCaseBlind(a: string, b: string)
    requires Lower(Trim(a)) == Lower(Trim(b))
    ensures FormatLogLevel(a) == FormatLogLevel(b)
  {
  }

  /**
   * `str_ireplace($root, '', $text)` for a non-empty root: scanning left to right, each
   * case-insensitive occurrence of the root is cut out and the scan resumes after it.
   */
  function StripFrom(text: string, root: string): (r: string)
    requires root != []
    ensures |r| <= |text|
    decreases |text|
  {
    if |text| < |root| then text
    else if MatchesAtCI(text, 0, root) then StripFrom(text[|root|..], root)
    else [text[0]] + StripFrom(text[1..], root)
  }

  /**
   * `stripDocumentRootFromText`: every occurrence the scan meets is removed; PHP ignores an
   * empty search string, so an empty root leaves the text as it is.
   */
  function StripDocumentRoot(text: string, root: string): (r: string)
    ensures |r| <= |text|
  {
    if root == [] then text else StripFrom(text, root)
  }

  /** An occurrence at `i + 1` is one at `i` in the text without its first character. */
  lemma MatchesAtTail(text: string, i: nat, root: string)
    requires MatchesAtCI(text, i + 1, root)
    ensures MatchesAtCI(text[1..], i, root)
  {
    assert text[1..][i..i + |root|] == text[i + 1..i + 1 + |root|];
  }

  /** A match at position 0 of the tail is a match at position 1 of the text. */
  lemma MatchesAtHead(text: string, i: nat, root: string)
    requires |text| > 0 && MatchesAtCI(text[1..], i, root)
    ensures MatchesAtCI(text, i + 1, root)
  {
    assert text[1..][i..i + |root|] == text[i + 1..i + 1 + |root|];
  }

  /** Each occurrence the scan removes shortens the text by the root's length. */
  lemma {:induction false} StripShortens(text: string, root: string)
    requires root != [] && ContainsCI(text, root)
    ensures |StripFrom(text, root)| <= |text| - |root|
    decreases |text|
  {
    if !MatchesAtCI(text, 0, root) {
      var i: nat :| i <= |text| && MatchesAtCI(text, i, root);
      assert i > 0;
      MatchesAtTail(text, i - 1, root);
      StripShortens(text[1..], root);
    }
  }

  /** Without an occurrence, the scan copies the text. */
  lemma {:induction false} StripAbsent(text: string, root: string)
    requires root != [] && !ContainsCI(text, root)
    ensures StripFrom(text, root) == text
    decreases |text|
  {
    if |text| >= |root| {
      assert !MatchesAtCI(text, 0, root);
      assert !ContainsCI(text[1..], root) by {
        if ContainsCI(text[1..], root) {
          var i: nat :| i <= |text[1..]| && MatchesAtCI(text[1..], i, root);
          MatchesAtHead(text, i, root);
        }
      }
      StripAbsent(text[1..], root);
    }
  }

  /**
   * The text comes back unchanged exactly when the root is empty or does not occur in it
   * (ignoring ASCII case); otherwise it is shorter by at least the root's length.
   */
  lemma StripUnchangedIff(text: string, root: string)
    ensures StripDocumentRoot(text, root) == text <==> (root == [] || !ContainsCI(text, root))
    ensures root != [] && ContainsCI(text, root) ==> |StripDocumentRoot(text, root)| <= |text| - |root|
  {
    if root != [] {
      if ContainsCI(text, root) {
        StripShortens(text, root);
      } else {
        StripAbsent(text, root);
      }
    }
  }

  /**
   * Text before the first occurrence is kept, the occurrence is dropped, and the scan
   * goes on after it.
   */
  lemma {:induction false} StripSplits(prefix: string, occurrence: string, rest: string, root: string)
    requires root != [] && |occurrence| == |root| && Lower(occurrence) == Lower(root)
    requires forall i :: 0 <= i < |prefix| ==> !MatchesAtCI(prefix + occurrence + rest, i, root)
    ensures StripFrom(prefix + occurrence + rest, root) == prefix + StripFrom(rest, root)
    decreases |prefix|
  {
    var text := prefix + occurrence + rest;
    if prefix == [] {
      assert text[..|root|] == occurrence;
      assert text[|root|..] == rest;
    } else {
      var tail := prefix[1..] + occurrence + rest;
      assert !MatchesAtCI(text, 0, root);
      assert text[0] == prefix[0] && text[1..] == tail;
      NoMatchInTail(text, tail, |prefix|, root);
      StripSplits(prefix[1..], occurrence, rest, root);
      assert StripFrom(text, root) == [prefix[0]] + StripFrom(tail, root);
      assert [prefix[0]] + prefix[1..] == prefix;
    }
  }

  /** No match before `n` in `text` leaves none before `n - 1` in its tail. */
  lemma NoMatchInTail(text: string, tail: string, n: nat, root: string)
    requires 0 < n <= |text| && tail == text[1..]
    requires forall i :: 0 <= i < n ==> !MatchesAtCI(text, i, root)
    ensures forall i :: 0 <= i < n - 1 ==> !MatchesAtCI(tail, i, root)
  {
    forall i | 0 <= i < n - 1
      ensures !MatchesAtCI(tail, i, root)
    {
      if MatchesAtCI(text[1..], i, root) {
        MatchesAtHead(text, i, root);
      }
    }
  }

  /** `formatText`: the root removed, then the result trimmed. */
  function FormatText(text: string, root: string): (r: string)
    ensures r == [] || (!IsTrimChar(r[0]) && !IsTrimChar(r[|r| - 1]))
    ensures exists a, b :: TrimCut(StripDocumentRoot(text, root), a, b, r)
  {
    FormatLogValue(StripDocumentRoot(text, root))
  }
}
