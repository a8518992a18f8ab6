/**
 * The entry-building part of `LaravelLogViewer::all()`: every match of `log_entry`
 * (given here as its five capture groups) becomes one entry, the entries are reversed,
 * and a file without any match halts. The line-per-entry fallback that follows the
 * `dd('die')` is modelled on its own, together with the fact that it cannot be reached.
 *
 * The folder, the application root, `json_decode` and the `Level` helpers `cssClass`
 * and `img` are parameters.
 */
module LogViewer {

  import opened Wrappers
  import opened Strings
  import opened Normalise
  import opened StackTrace

  /** Groups 1 to 5 of one `log_entry` match: date, context, level, message, metadata. */
  datatype Capture = Capture(date: string, context: string, level: string, text: string, stack: string)

  /** The `date` key: the raw date of a match, or a 1-based line number in the fallback. */
  datatype EntryDate = RawDate(raw: string) | LineNumber(n: nat)

  /** One element of the array `all()` returns. */
  datatype LogEntry = LogEntry(
    context: string,
    level: string,
    folder: string,
    levelClass: string,
    levelImg: string,
    date: EntryDate,
    text: string,
    inFile: Option<string>,
    stack: string)

  /** What `all()` does when `log_entry` matches nothing: `dd('die')` ends the request. */
  datatype Halt = Die

  /** Everything an entry depends on besides its match. */
  datatype Env = Env(
    folder: string,
    root: string,
    decode: string -> Option<string>,
    cssClass: string -> string,
    img: string -> string)

  /** The entry built from one match. */
  function EntryOf(c: Capture, env: Env): (e: LogEntry)
    ensures e.date == RawDate(c.date) && e.inFile == Some(FormatLogDate(c.date))
    ensures e.folder == env.folder
    ensures e.levelClass == env.cssClass(e.level) && e.levelImg == env.img(e.level)
    ensures NoUpper(e.level) && |e.level| == |Trim(c.level)|
    ensures e.context == [] || (!IsTrimChar(e.context[0]) && !IsTrimChar(e.context[|e.context| - 1]))
    ensures e.text == [] || (!IsTrimChar(e.text[0]) && !IsTrimChar(e.text[|e.text| - 1]))
    ensures e.context == Trim(c.context) && e.level == Lower(Trim(c.level))
    ensures e.text == Trim(StripDocumentRoot(c.text, env.root))
    ensures e.stack == StackTraceHtml(c.stack, env.root, env.decode)
  {
    var level := FormatLogLevel(c.level);
    LogEntry(
      FormatLogValue(c.context), level, env.folder, env.cssClass(level), env.img(level),
      RawDate(c.date), FormatText(c.text, env.root),
      Some(FormatLogDate(c.date)), StackTraceHtml(c.stack, env.root, env.decode))
  }

  /** `EntryOf` for one environment, as a function value. */
  function EntryFn(env: Env): Capture -> LogEntry {
    c => EntryOf(c, env)
  }

  /** `f` applied to each element of `s`, in order. */
  function MapSeq<A, B>(f: A -> B, s: seq<A>): (r: seq<B>)
    ensures |r| == |s| && forall i :: 0 <= i < |s| ==> r[i] == f(s[i])
  {
    if s == [] then [] else MapSeq(f, s[..|s| - 1]) + [f(s[|s| - 1])]
  }

  lemma MapSeqSnoc<A, B>(f: A -> B, s: seq<A>, i: nat)
    requires i < |s|
    ensures MapSeq(f, s[..i + 1]) == MapSeq(f, s[..i]) + [f(s[i])]
  {
    assert s[..i + 1][..i] == s[..i];
  }

  /** `array_reverse`. */
  function Reverse<T>(s: seq<T>): (r: seq<T>)
    ensures |r| == |s| && forall i :: 0 <= i < |s| ==> r[i] == s[|s| - 1 - i]
  {
    if s == [] then [] else [s[|s| - 1]] + Reverse(s[..|s| - 1])
  }

  lemma {:induction false} ReverseReverse<T>(s: seq<T>)
    ensures Reverse(Reverse(s)) == s
  {
    var r := Reverse(Reverse(s));
    assert |r| == |s|;
    forall i | 0 <= i < |s|
      ensures r[i] == s[i]
    {
      assert r[i] == Reverse(s)[|s| - 1 - i];
    }
  }

  /** The body of the `foreach`: one match's entry, its fields computed in the source's order. */
  method MakeEntry(c: Capture, env: Env) returns (e: LogEntry)
    ensures e == EntryOf(c, env)
  {
    var context := FormatLogValue(c.context);
    var level := FormatLogLevel(c.level);
    var text := FormatText(c.text, env.root);
    var stackTrace := FormatStackTrace(c.stack, env.root, env.decode);
    var date := FormatLogDate(c.date);
    e := LogEntry(context, level, env.folder, env.cssClass(level), env.img(level),
                  RawDate(c.date), text, Some(date), stackTrace);
  }

  /**
   * `all()` after the file is read: no match halts; otherwise one entry per match,
   * newest (last) match first.
   */
  method All(captures: seq<Capture>, env: Env) returns (r: Result<seq<LogEntry>, Halt>)
    ensures r.Failure? <==> captures == []
    ensures r.Success? ==> r.value == Reverse(MapSeq(EntryFn(env), captures))
  {
    if |captures| == 0 {
      return Failure(Die);
    }
    var log: seq<LogEntry> := [];
    for i := 0 to |captures|
      invariant log == MapSeq(EntryFn(env), captures[..i])
    {
      var entry := MakeEntry(captures[i], env);
      MapSeqSnoc(EntryFn(env), captures, i);
      log := log + [entry];
    }
    assert captures[..|captures|] == captures;
    r := Success(Reverse(log));
  }

  /** Entry `i` of the result is built from match `|captures| - 1 - i`: the newest match comes first. */
  lemma NewestFirst<A, B>(f: A -> B, captures: seq<A>, i: nat)
    requires i < |captures|
    ensures |Reverse(MapSeq(f, captures))| == |captures|
    ensures Reverse(MapSeq(f, captures))[i] == f(captures[|captures| - 1 - i])
  {
  }

  /**
   * The loop after `dd('die')`: when there were matches the entries are not empty, so the
   * fallback never runs.
   */
  lemma FallbackUnreachable(captures: seq<Capture>, env: Env)
    requires captures != []
    ensures MapSeq(EntryFn(env), captures) != []
  {
  }

  // ---------------------------------------------------------------------------
  // The unreachable fallback: one entry per line of the file
  // ---------------------------------------------------------------------------

  /** `PHP_EOL` on Unix-like hosts; on Windows it is the two characters CR LF, which this model does not cover. */
  const Eol: char := '\n'

  /** `explode(PHP_EOL, $file)`: the pieces between line feeds; at least one, possibly empty. */
  function Explode(file: string): (lines: seq<string>)
    ensures |lines| >= 1
    ensures forall k :: 0 <= k < |lines| ==> Eol !in lines[k]
  {
    if file == [] then [[]]
    else
      var rest := Explode(file[1..]);
      if file[0] == Eol then [[]] + rest else [[file[0]] + rest[0]] + rest[1..]
  }

  /** The pieces joined back with line feeds. */
  function Implode(lines: seq<string>): string
    requires |lines| >= 1
  {
    if |lines| == 1 then lines[0] else lines[0] + [Eol] + Implode(lines[1..])
  }

  lemma ImplodeCons(c: char, lines: seq<string>)
    requires |lines| >= 1
    ensures Implode([[c] + lines[0]] + lines[1..]) == [c] + Implode(lines)
  {
    var ls := [[c] + lines[0]] + lines[1..];
    assert ls[1..] == lines[1..];
    if |lines| > 1 {
      calc {
        Implode(ls);
        [c] + lines[0] + [Eol] + Implode(lines[1..]);
        { AppendAssoc([c], lines[0], [Eol]); AppendAssoc([c], lines[0] + [Eol], Implode(lines[1..])); }
        [c] + (lines[0] + [Eol] + Implode(lines[1..]));
      }
    }
  }

  /** Nothing is lost: joining the pieces with line feeds gives the file back. */
  lemma {:induction false} ImplodeExplode(file: string)
    ensures Implode(Explode(file)) == file
  {
    if file != [] {
      var rest := Explode(file[1..]);
      ImplodeExplode(file[1..]);
      if file[0] == Eol {
        assert ([[]] + rest)[1..] == rest;
        assert Implode([[]] + rest) == [] + [Eol] + Implode(rest);
      } else {
        ImplodeCons(file[0], rest);
      }
      assert file == [file[0]] + file[1..];
    }
  }

  /** The entry of line `key` (0-based): everything empty except the line number and the text. */
  function FallbackEntry(key: nat, line: string): LogEntry {
    LogEntry("", "", "", "", "", LineNumber(key + 1), line, None, "")
  }

  function FallbackEntries(lines: seq<string>): (es: seq<LogEntry>)
    ensures |es| == |lines| && forall k :: 0 <= k < |lines| ==> es[k] == FallbackEntry(k, lines[k])
  {
    if lines == [] then [] else FallbackEntries(lines[..|lines| - 1]) + [FallbackEntry(|lines| - 1, lines[|lines| - 1])]
  }

  /**
   * What `all()` would return from the fallback: the lines of the file, last line first,
   * each numbered from 1 in file order.
   */
  method Fallback(file: string) returns (log: seq<LogEntry>)
    ensures |log| == |Explode(file)|
    ensures forall k :: 0 <= k < |log| ==>
      log[k] == FallbackEntry(|log| - 1 - k, Explode(file)[|log| - 1 - k])
  {
    var lines := Explode(file);
    var entries: seq<LogEntry> := [];
    for key := 0 to |lines|
      invariant entries == FallbackEntries(lines[..key])
    {
      FallbackStep(lines, key);
      entries := entries + [FallbackEntry(key, lines[key])];
    }
    assert lines[..|lines|] == lines;
    log := Reverse(entries);
  }

  /** Numbering one more line appends its entry. */
  lemma FallbackStep(lines: seq<string>, key: nat)
    requires key < |lines|
    ensures FallbackEntries(lines[..key + 1]) == FallbackEntries(lines[..key]) + [FallbackEntry(key, lines[key])]
  {
    assert lines[..key + 1][..key] == lines[..key];
  }
}
