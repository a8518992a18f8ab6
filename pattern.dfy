/**
 * The pattern catalogue (Pattern.php): the registered regular expressions, their
 * lookup by name, and hand-written recognisers that compute what PHP's PCRE returns
 * for the `stack_line`, `files` and datetime grammars and for the message and
 * metadata boundaries of `log_entry`.
 */
module Pattern {

  import opened Wrappers
  import opened Strings

  // ---------------------------------------------------------------------------
  // The registered patterns
  // ---------------------------------------------------------------------------

  const DatetimePattern: string := "(\\d{4}-\\d{2}-\\d{2}\\s+\\d{2}:\\d{2}:\\d{2})"
  const ContextPattern: string := "(\\w+)"
  const LevelPattern: string := "(\\w+)"
  const ErrorTextPattern: string := "(.+?(?={\"\\w))"
  const MetadataPattern: string := "(.+?(?=\\n\\[\\d|\\s*\\Z))"

  const LogEntryPattern: string :=
    "~^\\[" + DatetimePattern + "\\]\\s+" + ContextPattern + "." + LevelPattern + ":\\s+"
    + ErrorTextPattern + MetadataPattern + "~ismu"
  const FilesPattern: string := "/\\{.*?\\,.*?\\}/i"
  const StackLinePattern: string := "~#(\\d+)\\s+(?:(\\[internal function\\])|(.+?\\.php)\\((\\d+)\\)):\\s+(.+)~"

  /** `getPatterns()`: the registry, in the insertion order of the PHP array. */
  function Patterns(): (r: seq<(string, string)>)
    ensures |r| == 3
    ensures forall i, j :: 0 <= i < j < |r| ==> r[i].0 != r[j].0
  {
    [("log_entry", LogEntryPattern), ("files", FilesPattern), ("stack_line", StackLinePattern)]
  }

  function Lookup(table: seq<(string, string)>, name: string): (r: Option<string>)
    ensures r.Some? <==> exists i :: 0 <= i < |table| && table[i].0 == name
    ensures r.Some? ==> exists i :: 0 <= i < |table| && table[i] == (name, r.value)
  {
    if table == [] then None
    else if table[0].0 == name then Some(table[0].1)
    else
      var r := Lookup(table[1..], name);
      assert forall i :: 0 < i < |table| ==> table[i] == table[1..][i - 1];
      r
  }

  /** The names of a table, in order. */
  function Names(table: seq<(string, string)>): (names: seq<string>)
    ensures |names| == |table| && forall i :: 0 <= i < |table| ==> names[i] == table[i].0
  {
    if table == [] then [] else [table[0].0] + Names(table[1..])
  }

  /** `all()`: the registered names, in registration order. */
  function All(): (names: seq<string>)
    ensures names == ["log_entry", "files", "stack_line"]
  {
    Names(Patterns())
  }

  /**
   * `getPattern($pattern, $position)`. An unregistered name gives PHP's `null` (None).
   * With a position, the one-character string at that offset (a negative offset counts
   * from the end); an offset outside the pattern gives PHP's empty string.
   */
  function GetPattern(name: string, position: Option<int>): (r: Option<string>)
    ensures r.Some? <==> name in All()
    ensures position.None? && r.Some? ==> (name, r.value) in Patterns()
    ensures position.Some? && r.Some? ==> |r.value| <= 1
    ensures position.Some? && r.Some? ==>
      var p := Lookup(Patterns(), name).value;
      var k := position.value;
      if 0 <= k < |p| then r.value == [p[k]]
      else if -|p| <= k < 0 then r.value == [p[|p| + k]]
      else r.value == ""
  {
    match Lookup(Patterns(), name)
    case None => None
    case Some(p) =>
      match position
      case None => Some(p)
      case Some(k) =>
        if 0 <= k < |p| then Some([p[k]])
        else if -|p| <= k < 0 then Some([p[|p| + k]])
        else Some("")
  }

  /** Every name `all()` lists is registered, and `getPattern` returns its registered string. */
  lemma {:induction false} AllNamesResolve(i: nat)
    requires i < |All()|
    ensures GetPattern(All()[i], None) == Some(Patterns()[i].1)
  {
    assert All()[i] == Patterns()[i].0;
  }

  // ---------------------------------------------------------------------------
  // stack_line: `#(\d+)\s+(?:(\[internal function\])|(.+?\.php)\((\d+)\)):\s+(.+)`
  // ---------------------------------------------------------------------------

  /**
   * The five capture groups of a `stack_line` match: frame index, the internal-function
   * flag, the file name, the line number and the code. PHP fills a group that did not
   * take part in the match with the empty string.
   */
  datatype Frame = Frame(position: string, internal: string, fileName: string, lineNumber: string, code: string)

  const InternalFunction: string := "[internal function]"

  /** `\s+(.+)` at `i`, where `\s+` takes `t` characters and PCRE gives them back one at a time. */
  function CodeAfter(s: string, i: nat, t: nat): (r: Option<string>)
    requires i + t <= |s|
    ensures r.Some? ==> |r.value| > 0 && '\n' !in r.value
    decreases t
  {
    if t == 0 then None
    else if i + t < |s| && s[i + t] != '\n' then
      var code := s[i + t..i + t + Run(s, i + t, NotNewline)];
      assert forall k :: 0 <= k < |code| ==> NotNewline(code[k]);
      Some(code)
    else CodeAfter(s, i, t - 1)
  }

  /** `\s+(.+)` at `i`: the code group, if the tail matches. */
  function CodeAt(s: string, i: nat): (r: Option<string>)
    requires i <= |s|
    ensures r.Some? ==> |r.value| > 0 && '\n' !in r.value
  {
    CodeAfter(s, i, Run(s, i, IsSpace))
  }

  /** `\.php\((\d+)\):\s+(.+)` at `x`: the line-number and code groups. */
  function LineAndCodeAt(s: string, x: nat): (r: Option<(string, string)>)
    requires x <= |s|
    ensures r.Some? ==> x + 5 <= |s| && s[x..x + 5] == ".php("
    ensures r.Some? ==> |r.value.0| > 0 && AllDigits(r.value.0)
    ensures r.Some? ==> |r.value.1| > 0 && '\n' !in r.value.1
  {
    if x + 5 <= |s| && s[x..x + 5] == ".php(" then
      var n := Run(s, x + 5, IsDigit);
      var c := x + 5 + n;
      if n > 0 && c + 2 <= |s| && s[c] == ')' && s[c + 1] == ':' then
        match CodeAt(s, c + 2)
        case None => None
        case Some(code) => Some((s[x + 5..c], code))
      else None
    else None
  }

  /**
   * The lazy `(.+?\.php)` with `.+?` currently ending at `x`: the first `x` from which the
   * rest of the frame matches, without `.` crossing a line feed.
   */
  function LazyFile(s: string, x: nat): (r: Option<(nat, string, string)>)
    requires x <= |s|
    ensures r.Some? ==> x <= r.value.0 && r.value.0 + 5 <= |s|
    ensures r.Some? ==> s[r.value.0..r.value.0 + 4] == ".php"
    ensures r.Some? ==> |r.value.1| > 0 && AllDigits(r.value.1)
    ensures r.Some? ==> |r.value.2| > 0 && '\n' !in r.value.2
    decreases |s| - x
  {
    match LineAndCodeAt(s, x)
    case Some(lc) =>
      assert s[x..x + 4] == s[x..x + 5][..4];
      Some((x, lc.0, lc.1))
    case None => if x < |s| && s[x] != '\n' then LazyFile(s, x + 1) else None
  }

  /** First alternative at `q`: `\[internal function\]:\s+(.+)`, giving the code group. */
  function InternalAt(s: string, q: nat): (r: Option<string>)
    requires q <= |s|
    ensures r.Some? ==> |r.value| > 0 && '\n' !in r.value
  {
    if q + 20 <= |s| && s[q..q + 19] == InternalFunction && s[q + 19] == ':' then CodeAt(s, q + 20) else None
  }

  /** Second alternative at `q`: `(.+?\.php)\((\d+)\):\s+(.+)`, giving the file, line and code groups. */
  function FileAt(s: string, q: nat): (r: Option<(string, string, string)>)
    requires q <= |s|
    ensures r.Some? ==> |r.value.0| >= 5 && EndsWith(r.value.0, ".php")
    ensures r.Some? ==> |r.value.1| > 0 && AllDigits(r.value.1)
    ensures r.Some? ==> |r.value.2| > 0 && '\n' !in r.value.2
  {
    if q < |s| && s[q] != '\n' then
      match LazyFile(s, q + 1)
      case None => None
      case Some(xlc) =>
        var name := s[q..xlc.0 + 4];
        assert name[|name| - 4..] == s[xlc.0..xlc.0 + 4];
        Some((name, xlc.1, xlc.2))
    else None
  }

  /**
   * The site, `:` and code at `q`, each alternative tried in order: the file alternative
   * is tried only when the internal one fails.
   */
  function AltAt(position: string, s: string, q: nat): (r: Option<Frame>)
    requires q <= |s|
    requires |position| > 0 && AllDigits(position)
    ensures r.Some? ==> FrameShape(r.value) && r.value.position == position
  {
    match InternalAt(s, q)
    case Some(code) => Some(Frame(position, InternalFunction, "", "", code))
    case None =>
      match FileAt(s, q)
      case Some(nlc) => Some(Frame(position, "", nlc.0, nlc.1, nlc.2))
      case None => None
  }

  /**
   * The alternatives in order: a matching internal alternative wins; the file alternative
   * is taken only when the internal one fails; nothing matches only when both fail.
   */
  lemma {:induction false} AltAtOrder(position: string, s: string, q: nat)
    requires q <= |s| && |position| > 0 && AllDigits(position)
    ensures var r := AltAt(position, s, q);
      && (InternalAt(s, q).Some? ==> r == Some(Frame(position, InternalFunction, "", "", InternalAt(s, q).value)))
      && (r.Some? && r.value.internal == "" ==> InternalAt(s, q).None? && FileAt(s, q).Some?)
      && (r.None? <==> InternalAt(s, q).None? && FileAt(s, q).None?)
  {
  }

  /** The value of `g` at the largest position in `a + 1 .. a + k` where it has one. */
  function LastIn<T>(g: nat -> Option<T>, a: nat, k: nat): Option<T>
    decreases k
  {
    if k == 0 then None else if g(a + k).Some? then g(a + k) else LastIn(g, a, k - 1)
  }

  lemma {:induction false} LastInOrder<T>(g: nat -> Option<T>, a: nat, k: nat)
    ensures var r := LastIn(g, a, k);
      && (r.None? ==> forall q :: a < q <= a + k ==> g(q).None?)
      && (r.Some? ==> exists q :: a < q <= a + k && g(q) == r && forall q' :: q < q' <= a + k ==> g(q').None?)
    decreases k
  {
    if k > 0 && g(a + k).None? {
      LastInOrder(g, a, k - 1);
    }
  }

  /** The value of `g` at the smallest position in `p .. n - 1` where it has one. */
  function FirstIn<T>(g: nat -> Option<T>, p: nat, n: nat): Option<T>
    decreases n - p
  {
    if p >= n then None else if g(p).Some? then g(p) else FirstIn(g, p + 1, n)
  }

  lemma {:induction false} FirstInOrder<T>(g: nat -> Option<T>, p: nat, n: nat)
    ensures var r := FirstIn(g, p, n);
      && (r.None? ==> forall q :: p <= q < n ==> g(q).None?)
      && (r.Some? ==> exists q :: p <= q < n && g(q) == r && forall q' :: p <= q' < q ==> g(q').None?)
    decreases n - p
  {
    if p < n && g(p).None? {
      FirstInOrder(g, p + 1, n);
    }
  }

  /**
   * The rest of the frame after `#(\d+)` ends at `a`, with `\s+` taking `k` characters and
   * giving them back one at a time: the frame comes from the longest `\s+` after which an
   * alternative matches.
   */
  function SiteFrom(position: string, s: string, a: nat, k: nat): (r: Option<Frame>)
    requires a + k <= |s|
    requires |position| > 0 && AllDigits(position)
    ensures r.Some? ==> FrameShape(r.value) && r.value.position == position
  {
    var g := (q: nat) => if q <= |s| then AltAt(position, s, q) else None;
    LastInOrder(g, a, k);
    LastIn(g, a, k)
  }

  /**
   * The give-back order: no alternative matches after any of the `k` give-backs, or the
   * frame is the alternative at the largest position `q` where one matches.
   */
  lemma {:induction false} SiteFromOrder(position: string, s: string, a: nat, k: nat)
    requires a + k <= |s| && |position| > 0 && AllDigits(position)
    ensures var r := SiteFrom(position, s, a, k);
      && (r.None? ==> forall q :: a < q <= a + k ==> AltAt(position, s, q).None?)
      && (r.Some? ==> exists q ::
            a < q <= a + k && AltAt(position, s, q) == r && forall q' :: q < q' <= a + k ==> AltAt(position, s, q').None?)
  {
    var g := (q: nat) => if q <= |s| then AltAt(position, s, q) else None;
    LastInOrder(g, a, k);
    assert forall q :: a < q <= a + k ==> g(q) == AltAt(position, s, q);
  }

  /** The match of `stack_line` starting at `p`, in PCRE's backtracking order. */
  function MatchAt(s: string, p: nat): (r: Option<Frame>)
    requires p <= |s|
    ensures r.Some? ==> FrameShape(r.value)
  {
    if p < |s| && s[p] == '#' then
      var d := Run(s, p + 1, IsDigit);
      var a := p + 1 + d;
      var position := s[p + 1..a];
      assert AllDigits(position);
      if d == 0 then None else SiteFrom(position, s, a, Run(s, a, IsSpace))
    else None
  }

  /** `preg_match` is unanchored: the match at the leftmost position from `p` on where there is one. */
  function Search(s: string, p: nat): (r: Option<Frame>)
    requires p <= |s|
    ensures r.Some? ==> FrameShape(r.value)
  {
    var g := (q: nat) => if q <= |s| then MatchAt(s, q) else None;
    FirstInOrder(g, p, |s|);
    FirstIn(g, p, |s|)
  }

  /** The capture groups of the first `stack_line` match in `line`, if any. */
  function ParseStackLine(line: string): (r: Option<Frame>)
    ensures r.Some? ==> FrameShape(r.value)
  {
    Search(line, 0)
  }

  /** `preg_match` reports the leftmost match: none anywhere, or the first position with one. */
  lemma {:induction false} ParseStackLineLeftmost(line: string)
    ensures var r := ParseStackLine(line);
      && (r.None? ==> forall q :: 0 <= q < |line| ==> MatchAt(line, q).None?)
      && (r.Some? ==> exists q :: 0 <= q < |line| && MatchAt(line, q) == r && forall q' :: 0 <= q' < q ==> MatchAt(line, q').None?)
  {
    SearchLeftmost(line, 0);
  }

  /** The search returns the match at the leftmost position from `p` on where one exists. */
  lemma {:induction false} SearchLeftmost(s: string, p: nat)
    requires p <= |s|
    ensures var r := Search(s, p);
      && (r.None? ==> forall q :: p <= q < |s| ==> MatchAt(s, q).None?)
      && (r.Some? ==> exists q :: p <= q < |s| && MatchAt(s, q) == r && forall q' :: p <= q' < q ==> MatchAt(s, q').None?)
  {
    var g := (q: nat) => if q <= |s| then MatchAt(s, q) else None;
    FirstInOrder(g, p, |s|);
    assert forall q :: p <= q < |s| ==> g(q) == MatchAt(s, q);
  }

  predicate EndsWith(s: string, suffix: string) {
    |suffix| <= |s| && s[|s| - |suffix|..] == suffix
  }

  /**
   * What the grammar promises of a match: a non-empty digit index; either the internal
   * flag with empty file and line groups, or an empty flag with a file name of at least one
   * character followed by `.php` and a non-empty digit line number; a non-empty code group
   * on one line.
   */
  predicate FrameShape(f: Frame) {
    && |f.position| > 0 && AllDigits(f.position)
    && (|| (f.internal == InternalFunction && f.fileName == "" && f.lineNumber == "")
        || (f.internal == "" && |f.fileName| >= 5 && EndsWith(f.fileName, ".php")
            && |f.lineNumber| > 0 && AllDigits(f.lineNumber)))
    && |f.code| > 0 && '\n' !in f.code
  }

  /** The two alternatives exclude each other: a frame has an internal flag exactly when it has no file name. */
  lemma {:induction false} InternalXorFile(line: string)
    requires ParseStackLine(line).Some?
    ensures var f := ParseStackLine(line).value;
      (f.internal != "" <==> f.fileName == "") && (f.internal != "" <==> f.lineNumber == "")
  {
  }

  /** The conventional text of a frame: `#<index> <site>: <code>`. */
  function FrameText(f: Frame): string {
    "#" + f.position + " " + (if f.internal != "" then InternalFunction else f.fileName + "(" + f.lineNumber + ")")
    + ": " + f.code
  }

  /**
   * Frames whose text the grammar reads back unambiguously: the code and the file name
   * do not start with whitespace, and the file name has no `(`, no line feed and does not
   * start with `[`.
   */
  predicate Canonical(f: Frame) {
    && FrameShape(f)
    && !IsSpace(f.code[0])
    && (f.internal == "" ==>
          !IsSpace(f.fileName[0]) && f.fileName[0] != '[' && '(' !in f.fileName && '\n' !in f.fileName)
  }

  /** The code group of a frame text: `\s+` takes the single space and `(.+)` the rest of the line. */
  lemma {:induction false} CodeAtTail(s: string, i: nat, code: string)
    requires i + 1 + |code| == |s| && s[i] == ' ' && s[i + 1..] == code
    requires |code| > 0 && !IsSpace(code[0]) && '\n' !in code
    ensures CodeAt(s, i) == Some(code)
  {
    assert s[i + 1] == code[0];
    RunIs(s, i, IsSpace, 1);
    forall k | i + 1 <= k < |s| ensures NotNewline(s[k]) {
      assert s[k] == code[k - i - 1];
    }
    RunIs(s, i + 1, NotNewline, |code|);
    assert s[i + 1..i + 1 + |code|] == code;
  }

  /** `.+?` may take the character at `k`, and no `(` follows four characters later. */
  predicate NameCharAt(s: string, k: nat) {
    k < |s| && s[k] != '\n' && (k + 4 < |s| ==> s[k + 4] != '(')
  }

  /** The lazy file name stops at the first `.php(` since the name holds no `(`. */
  lemma {:induction false} LazyFileFinds(s: string, x: nat, y: nat)
    requires x <= y <= |s|
    requires LineAndCodeAt(s, y).Some?
    requires forall k :: x <= k < y ==> NameCharAt(s, k)
    ensures LazyFile(s, x) == Some((y, LineAndCodeAt(s, y).value.0, LineAndCodeAt(s, y).value.1))
    decreases y - x
  {
    if x < y {
      assert NameCharAt(s, x);
      assert LineAndCodeAt(s, x).None? by {
        if x + 5 <= |s| {
          assert s[x..x + 5][4] == s[x + 4];
        }
      }
      LazyFileFinds(s, x + 1, y);
    }
  }

  /** The index group and the single space after it. */
  lemma {:induction false} FrameTextHead(f: Frame, site: string)
    requires |f.position| > 0 && AllDigits(f.position) && |site| > 0 && !IsSpace(site[0])
    ensures var s := "#" + f.position + " " + site + ": " + f.code;
      var a := 1 + |f.position|;
      a + 1 <= |s| && s[0] == '#' && s[1..a] == f.position && Run(s, 1, IsDigit) == |f.position|
      && Run(s, a, IsSpace) == 1 && s[a + 1..] == site + ": " + f.code
  {
    var s := "#" + f.position + " " + site + ": " + f.code;
    var a := 1 + |f.position|;
    assert s[1..a] == f.position;
    RunIs(s, 1, IsDigit, |f.position|);
    assert s[a + 1] == site[0];
    RunIs(s, a, IsSpace, 1);
    assert s[a + 1..] == site + ": " + f.code;
  }

  /** The groups after the file name: `.php(`, the line number, `): ` and the code. */
  lemma {:induction false} LineAndCodeText(s: string, x: nat, line: string, code: string)
    requires var c := x + 5 + |line|;
      && c + 3 + |code| == |s| && s[x..x + 5] == ".php(" && s[x + 5..c] == line
      && s[c] == ')' && s[c + 1] == ':' && s[c + 2] == ' ' && s[c + 3..] == code
    requires |line| > 0 && AllDigits(line)
    requires |code| > 0 && !IsSpace(code[0]) && '\n' !in code
    ensures LineAndCodeAt(s, x).Some?
    ensures LineAndCodeAt(s, x).value.0 == line && LineAndCodeAt(s, x).value.1 == code
  {
    var c := x + 5 + |line|;
    DigitsRun(s, x + 5, line);
    CodeAtTail(s, c + 2, code);
    LineAndCodeFrom(s, x, c, code);
  }

  /** `.php(`, the digits up to `c`, `):` and a code group after them. */
  lemma {:induction false} LineAndCodeFrom(s: string, x: nat, c: nat, code: string)
    requires x + 5 <= |s| && s[x..x + 5] == ".php(" && c == x + 5 + Run(s, x + 5, IsDigit)
    requires x + 5 < c && c + 2 <= |s| && s[c] == ')' && s[c + 1] == ':'
    requires CodeAt(s, c + 2) == Some(code)
    ensures LineAndCodeAt(s, x).Some?
    ensures LineAndCodeAt(s, x).value.0 == s[x + 5..c] && LineAndCodeAt(s, x).value.1 == code
  {
  }

  /** The characters of `.php(<line>): <code>` at `x`, piece by piece. */
  lemma {:induction false} LineAndCodePieces(s: string, x: nat, tail: string, line: string, code: string)
    requires x <= |s| && s[x..] == ".php(" + tail && tail == line + "): " + code
    ensures var c := x + 5 + |line|;
      && c + 3 + |code| == |s| && s[x..x + 5] == ".php(" && s[x + 5..c] == line
      && s[c] == ')' && s[c + 1] == ':' && s[c + 2] == ' ' && s[c + 3..] == code
  {
    var c := x + 5 + |line|;
    var t := s[x..];
    assert s[x..x + 5] == t[..5];
    assert s[x + 5..c] == t[5..5 + |line|] == tail[..|line|];
    assert s[c + 3..] == t[5 + |line| + 3..] == tail[|line| + 3..];
  }

  /** Digits at `i` followed by a non-digit (or the end) are the whole digit run. */
  lemma {:induction false} DigitsRun(s: string, i: nat, digits: string)
    requires i + |digits| <= |s| && s[i..i + |digits|] == digits && AllDigits(digits)
    requires i + |digits| == |s| || !IsDigit(s[i + |digits|])
    ensures Run(s, i, IsDigit) == |digits|
  {
    forall k | i <= k < i + |digits|
      ensures IsDigit(s[k])
    {
      assert s[k] == digits[k - i];
    }
    RunIs(s, i, IsDigit, |digits|);
  }

  lemma {:induction false} ParseInternalFrameText(f: Frame)
    requires Canonical(f) && f.internal != ""
    ensures ParseStackLine(FrameText(f)) == Some(f)
  {
    var s := FrameText(f);
    var a := 1 + |f.position|;
    var q := a + 1;
    FrameTextHead(f, InternalFunction);
    assert s[q..q + 19] == InternalFunction;
    assert s[q + 19..] == ": " + f.code;
    CodeAtTail(s, q + 20, f.code);
    assert InternalAt(s, q) == Some(f.code);
    assert MatchAt(s, 0) == SiteFrom(f.position, s, a, 1);
  }

  /** The file alternative reads back a file name with no `(`, its line number and its code. */
  lemma {:induction false} FileAtText(s: string, q: nat, name: string, line: string, code: string)
    requires q <= |s| && s[q..] == name + "(" + line + "): " + code
    requires |name| >= 5 && EndsWith(name, ".php") && '(' !in name && '\n' !in name
    requires |line| > 0 && AllDigits(line)
    requires |code| > 0 && !IsSpace(code[0]) && '\n' !in code
    ensures FileAt(s, q) == Some((name, line, code))
  {
    var x := q + |name| - 4;
    FileTailText(s, q, name, line + "): " + code);
    LineAndCodePieces(s, x, line + "): " + code, line, code);
    LineAndCodeText(s, x, line, code);
    FileNameChars(s, q, name, line + "): " + code);
    LazyFileFinds(s, q + 1, x);
    FileAtFrom(s, q, x, line, code);
    assert s[q..x + 4] == name;
  }

  /** The file alternative at `q` is its first character and the lazy name found after it. */
  lemma {:induction false} FileAtFrom(s: string, q: nat, x: nat, line: string, code: string)
    requires q < |s| && s[q] != '\n'
    requires LazyFile(s, q + 1) == Some((x, line, code))
    ensures FileAt(s, q).Some?
    ensures FileAt(s, q).value.0 == s[q..x + 4]
    ensures FileAt(s, q).value.1 == line
    ensures FileAt(s, q).value.2 == code
  {
  }

  /** After the file name's first `|name| - 4` characters come `.php(` and the rest. */
  lemma {:induction false} FileTailText(s: string, q: nat, name: string, tail: string)
    requires q <= |s| && s[q..] == name + "(" + tail
    requires |name| >= 5 && EndsWith(name, ".php")
    ensures s[q + |name| - 4..] == ".php(" + tail
    ensures s[q..q + |name|] == name
  {
    var n := |name|;
    var rest := s[q..];
    assert rest == name + ("(" + tail);
    assert s[q + n - 4..] == rest[n - 4..];
    assert rest[n - 4..] == name[n - 4..] + ("(" + tail);
    assert s[q..q + n] == rest[..n];
  }

  /** Inside the file name the lazy `.+?` may go on: no line feed, and no `(` four characters on. */
  lemma {:induction false} FileNameChars(s: string, q: nat, name: string, tail: string)
    requires q <= |s| && s[q..] == name + "(" + tail
    requires |name| >= 5 && '(' !in name && '\n' !in name
    ensures q < |s| && s[q] != '\n'
    ensures forall k :: q + 1 <= k < q + |name| - 4 ==> NameCharAt(s, k)
  {
    forall k | q + 1 <= k < q + |name| - 4
      ensures NameCharAt(s, k)
    {
      assert s[k] == s[q..][k - q] == name[k - q];
      assert s[k + 4] == s[q..][k + 4 - q] == name[k + 4 - q];
    }
    assert s[q] == s[q..][0] == name[0];
  }

  /** The first alternative needs a `[` where the site starts. */
  lemma {:induction false} NotInternalAt(s: string, q: nat)
    requires q < |s| && s[q] != '['
    ensures InternalAt(s, q) == None
  {
  }

  lemma {:induction false} ParseFileFrameText(f: Frame)
    requires Canonical(f) && f.internal == ""
    ensures ParseStackLine(FrameText(f)) == Some(f)
  {
    var site := f.fileName + "(" + f.lineNumber + ")";
    var s := FrameText(f);
    var a := 1 + |f.position|;
    var q := a + 1;
    assert s == "#" + f.position + " " + site + ": " + f.code;
    FrameTextHead(f, site);
    assert FileAt(s, q) == Some((f.fileName, f.lineNumber, f.code)) by {
      assert s[q..] == f.fileName + "(" + f.lineNumber + "): " + f.code;
      FileAtText(s, q, f.fileName, f.lineNumber, f.code);
    }
    assert s[q] == s[q..][0] == f.fileName[0];
    NotInternalAt(s, q);
    assert SiteFrom(f.position, s, a, 1) == Some(f);
    assert MatchAt(s, 0) == SiteFrom(f.position, s, a, 1);
  }

  /** Reading back a frame's text gives the frame. */
  lemma {:induction false} ParseFrameText(f: Frame)
    requires Canonical(f)
    ensures ParseStackLine(FrameText(f)) == Some(f)
  {
    if f.internal != "" {
      ParseInternalFrameText(f);
    } else {
      ParseFileFrameText(f);
    }
  }

  // ---------------------------------------------------------------------------
  // Soundness: the groups of a match occur in the line in the grammar's order
  // ---------------------------------------------------------------------------

  /** `t` occurs in `s` at `i`. */
  predicate TextAt(s: string, i: nat, t: string) {
    i + |t| <= |s| && s[i..i + |t|] == t
  }

  /** `i` is the end of `s` or a line feed: where the greedy `(.+)` stops. */
  predicate LineEndAt(s: string, i: nat) {
    i == |s| || (i < |s| && s[i] == '\n')
  }

  /** What `\s+` takes: at least one whitespace character. */
  predicate Blank(w: string) {
    |w| > 0 && AllSpace(w)
  }

  /** The text between the index and the `:`: the internal flag, or `<file>(<line>)`. */
  function Site(f: Frame): string {
    if f.internal != "" then InternalFunction else f.fileName + "(" + f.lineNumber + ")"
  }

  /**
   * From `b` on, `s` holds the site of `f`, `:`, the whitespace `w` and the code, which
   * runs up to a line feed or the end. A file name does not cross a line feed.
   */
  predicate SiteAt(s: string, b: nat, f: Frame, w: string) {
    && TextAt(s, b, Site(f)) && CodeTail(s, b + |Site(f)|, f.code, w)
    && (f.internal == "" ==> '\n' !in f.fileName)
  }

  /** `:` at `c`, then the whitespace `w` and the code. */
  predicate CodeTail(s: string, c: nat, code: string, w: string) {
    TextAt(s, c, ":") && CodeFrom(s, c + 1, code, w)
  }

  /** The whitespace `w` from `i`, then the code, then a line feed or the end. */
  predicate CodeFrom(s: string, i: nat, code: string, w: string) {
    Blank(w) && TextAt(s, i, w) && TextAt(s, i + |w|, code) && LineEndAt(s, i + |w| + |code|)
  }

  /**
   * The match `f` spans `s` from `p`: `#`, the index, the whitespace `w1`, then the site,
   * `:`, the whitespace `w2` and the code.
   */
  predicate FrameOccursAt(s: string, p: nat, f: Frame, w1: string, w2: string) {
    HeadAt(s, p, f.position, w1) && SiteAt(s, p + 1 + |f.position| + |w1|, f, w2)
  }

  /** `#`, the index and the whitespace `w1` from `p`. */
  predicate HeadAt(s: string, p: nat, position: string, w1: string) {
    TextAt(s, p, "#") && TextAt(s, p + 1, position) && Blank(w1) && TextAt(s, p + 1 + |position|, w1)
  }

  lemma {:induction false} TextAtJoin(s: string, i: nat, x: string, y: string)
    requires TextAt(s, i, x) && TextAt(s, i + |x|, y)
    ensures TextAt(s, i, x + y)
  {
    assert s[i..i + |x| + |y|] == s[i..i + |x|] + s[i + |x|..i + |x| + |y|];
  }

  /** `(.+)` after the `\s+` that keeps `j - i` characters. */
  lemma {:induction false} CodeAfterSound(s: string, i: nat, t: nat) returns (j: nat)
    requires i + t <= |s| && CodeAfter(s, i, t).Some?
    ensures i < j <= i + t && TextAt(s, j, CodeAfter(s, i, t).value)
    ensures LineEndAt(s, j + |CodeAfter(s, i, t).value|)
    decreases t
  {
    if i + t < |s| && s[i + t] != '\n' {
      j := i + t;
    } else {
      j := CodeAfterSound(s, i, t - 1);
    }
  }

  /** `\s+(.+)` at `i`: the whitespace, then the code up to the end of the line. */
  lemma {:induction false} CodeAtSound(s: string, i: nat, code: string) returns (w: string)
    requires i <= |s| && CodeAt(s, i) == Some(code)
    ensures CodeFrom(s, i, code, w)
  {
    var j := CodeAfterSound(s, i, Run(s, i, IsSpace));
    w := s[i..j];
    assert forall k :: 0 <= k < |w| ==> w[k] == s[i + k];
  }

  /** `\.php\((\d+)\):\s+(.+)` at `x`. */
  lemma {:induction false} LineAndCodeAtSound(s: string, x: nat, line: string, code: string) returns (w: string)
    requires x <= |s| && LineAndCodeAt(s, x).Some?
    requires LineAndCodeAt(s, x).value.0 == line && LineAndCodeAt(s, x).value.1 == code
    ensures TextAt(s, x, ".php(") && TextAt(s, x + 5, line) && TextAt(s, x + 5 + |line|, ")")
    ensures CodeTail(s, x + 5 + |line| + 1, code, w)
  {
    var c := x + 5 + |line|;
    assert line == s[x + 5..c];
    w := CodeAtSound(s, c + 2, code);
    assert s[c + 1..c + 2] == ":";
    assert CodeTail(s, c + 1, code, w);
  }

  /** The lazy file name ends where the rest of the frame matches, without crossing a line feed. */
  lemma {:induction false} LazyFileSound(s: string, x: nat)
    requires x <= |s| && LazyFile(s, x).Some?
    ensures var v := LazyFile(s, x).value;
      LineAndCodeAt(s, v.0) == Some((v.1, v.2)) && NoNewlineIn(s, x, v.0)
    decreases |s| - x
  {
    if LineAndCodeAt(s, x).Some? {
      var lc := LineAndCodeAt(s, x).value;
      assert LazyFile(s, x) == Some((x, lc.0, lc.1));
      assert lc == (lc.0, lc.1);
    } else {
      assert x < |s| && s[x] != '\n';
      assert LazyFile(s, x) == LazyFile(s, x + 1);
      LazyFileSound(s, x + 1);
      var y := LazyFile(s, x + 1).value.0;
      forall t | x <= t < y && t < |s|
        ensures s[t] != '\n'
      {
        if t > x {
          assert NoNewlineIn(s, x + 1, y);
        }
      }
    }
  }

  /** The file name `s[q..y + 4]`, then `(`, the line number and `)`. */
  lemma {:induction false} FileSiteText(s: string, q: nat, y: nat, line: string)
    requires q < y && TextAt(s, y, ".php(") && TextAt(s, y + 5, line) && TextAt(s, y + 5 + |line|, ")")
    ensures TextAt(s, q, s[q..y + 4] + "(" + line + ")")
  {
    var name := s[q..y + 4];
    assert s[y..y + 5][4] == '(';
    TextAtJoin(s, q, name, "(");
    TextAtJoin(s, q, name + "(", line);
    TextAtJoin(s, q, name + "(" + line, ")");
  }

  /** A file name that starts off a line feed and whose lazy part crossed none holds none. */
  lemma {:induction false} FileNameOneLine(s: string, q: nat, y: nat)
    requires q < y && q < |s| && s[q] != '\n' && NoNewlineIn(s, q + 1, y) && TextAt(s, y, ".php(")
    ensures '\n' !in s[q..y + 4]
  {
    var name := s[q..y + 4];
    forall k | 0 <= k < |name|
      ensures name[k] != '\n'
    {
      if q + k >= y {
        assert name[k] == s[y..y + 5][q + k - y];
      } else {
        assert name[k] == s[q + k];
      }
    }
  }

  /** `name(line):`, the whitespace `w` and the code, from `q` to the end of the line. */
  predicate FileSiteAt(s: string, q: nat, name: string, line: string, code: string, w: string) {
    TextAt(s, q, name + "(" + line + ")") && '\n' !in name && CodeTail(s, q + |name| + 2 + |line|, code, w)
  }

  /** The groups of the file alternative, `y` being where `.php(` starts. */
  lemma {:induction false} FileParts(s: string, q: nat, y: nat, name: string, line: string, code: string, w: string)
    requires q < y <= |s| && s[q] != '\n' && NoNewlineIn(s, q + 1, y)
    requires y + 4 <= |s| && name == s[q..y + 4]
    requires TextAt(s, y, ".php(") && TextAt(s, y + 5, line) && TextAt(s, y + 5 + |line|, ")")
    requires CodeTail(s, y + 5 + |line| + 1, code, w)
    ensures FileSiteAt(s, q, name, line, code, w)
  {
    FileSiteText(s, q, y, line);
    FileNameOneLine(s, q, y);
    CodeTailSame(s, y + 5 + |line| + 1, q + |name| + 2 + |line|, code, w);
  }

  lemma {:induction false} CodeTailSame(s: string, c: nat, c': nat, code: string, w: string)
    requires c == c' && CodeTail(s, c, code, w)
    ensures CodeTail(s, c', code, w)
  {
  }

  /** `(.+?\.php)\((\d+)\):\s+(.+)` at `q`. */
  lemma {:induction false} FileAtSound(s: string, q: nat, name: string, line: string, code: string)
    requires q <= |s| && FileAt(s, q) == Some((name, line, code))
    ensures exists w :: FileSiteAt(s, q, name, line, code, w)
  {
    var y := FileAtEnd(s, q);
    var w := LineAndCodeAtSound(s, y, line, code);
    FileParts(s, q, y, name, line, code, w);
  }

  /** Where `.php(` starts in a file alternative that matched at `q`. */
  lemma {:induction false} FileAtEnd(s: string, q: nat) returns (y: nat)
    requires q <= |s| && FileAt(s, q).Some?
    ensures q < y <= |s| && s[q] != '\n' && NoNewlineIn(s, q + 1, y)
    ensures LineAndCodeAt(s, y).Some?
    ensures LineAndCodeAt(s, y).value.0 == FileAt(s, q).value.1
    ensures LineAndCodeAt(s, y).value.1 == FileAt(s, q).value.2
    ensures FileAt(s, q).value.0 == s[q..y + 4] && y + 4 <= |s|
  {
    y := LazyFile(s, q + 1).value.0;
    LazyFileSound(s, q + 1);
  }

  /** The first alternative at `q`. */
  lemma {:induction false} InternalSite(s: string, q: nat, position: string, code: string)
    requires q <= |s| && InternalAt(s, q) == Some(code)
    ensures exists w :: SiteAt(s, q, Frame(position, InternalFunction, "", "", code), w)
  {
    var w := CodeAtSound(s, q + 20, code);
    InternalSiteOf(s, q, position, code, w);
  }

  /** `[internal function]`, `:`, the whitespace `w` and the code. */
  lemma {:induction false} InternalSiteOf(s: string, q: nat, position: string, code: string, w: string)
    requires q + 20 <= |s| && s[q..q + 19] == InternalFunction && s[q + 19] == ':'
    requires CodeFrom(s, q + 20, code, w)
    ensures SiteAt(s, q, Frame(position, InternalFunction, "", "", code), w)
  {
    assert s[q + 19..q + 20] == ":";
    assert CodeTail(s, q + 19, code, w);
  }

  /** The second alternative at `q`. */
  lemma {:induction false} FileSite(s: string, q: nat, position: string, name: string, line: string, code: string, w: string)
    requires FileSiteAt(s, q, name, line, code, w)
    ensures SiteAt(s, q, Frame(position, "", name, line, code), w)
  {
    var site := Site(Frame(position, "", name, line, code));
    assert site == name + "(" + line + ")";
    CodeTailSame(s, q + |name| + 2 + |line|, q + |site|, code, w);
  }

  /** The alternative that matched at `q`. */
  lemma {:induction false} AltAtSound(position: string, s: string, q: nat, f: Frame)
    requires q <= |s| && |position| > 0 && AllDigits(position)
    requires AltAt(position, s, q) == Some(f)
    ensures exists w :: SiteAt(s, q, f, w)
  {
    if InternalAt(s, q).Some? {
      InternalSite(s, q, position, f.code);
    } else {
      FileAtSound(s, q, f.fileName, f.lineNumber, f.code);
      var w :| FileSiteAt(s, q, f.fileName, f.lineNumber, f.code, w);
      FileSite(s, q, position, f.fileName, f.lineNumber, f.code, w);
    }
  }

  /** The `\s+` before the site keeps `q - a` of its `k` characters; the site and the rest follow. */
  lemma {:induction false} SiteFromSound(position: string, s: string, a: nat, k: nat, f: Frame) returns (q: nat)
    requires a + k <= |s| && |position| > 0 && AllDigits(position)
    requires SiteFrom(position, s, a, k) == Some(f)
    ensures a < q <= a + k && exists w :: SiteAt(s, q, f, w)
  {
    var g := (q: nat) => if q <= |s| then AltAt(position, s, q) else None;
    LastInOrder(g, a, k);
    q :| a < q <= a + k && g(q) == Some(f);
    AltAtSound(position, s, q, f);
  }

  /** A match found at `p` spans the line from `p` in the grammar's order. */
  lemma {:induction false} MatchAtSound(s: string, p: nat)
    requires p <= |s| && MatchAt(s, p).Some?
    ensures exists w1, w2 :: FrameOccursAt(s, p, MatchAt(s, p).value, w1, w2)
  {
    var f := MatchAt(s, p).value;
    var a := p + 1 + Run(s, p + 1, IsDigit);
    var k := Run(s, a, IsSpace);
    assert f.position == s[p + 1..a];
    assert SiteFrom(s[p + 1..a], s, a, k) == Some(f);
    var q := SiteFromSound(s[p + 1..a], s, a, k, f);
    var w2 :| SiteAt(s, q, f, w2);
    OccursFrom(s, p, f, a, q, w2);
  }

  /** `#`, the index, a whitespace run up to `q` and a site at `q` make an occurrence at `p`. */
  lemma {:induction false} OccursFrom(s: string, p: nat, f: Frame, a: nat, q: nat, w2: string)
    requires p < |s| && s[p] == '#' && a == p + 1 + |f.position| && a < q <= |s|
    requires s[p + 1..a] == f.position
    requires forall k :: a <= k < q ==> IsSpace(s[k])
    requires SiteAt(s, q, f, w2)
    ensures exists w1 :: FrameOccursAt(s, p, f, w1, w2)
  {
    var w1 := s[a..q];
    assert s[p..p + 1] == "#";
    assert HeadAt(s, p, f.position, w1);
    SiteAtSame(s, q, p + 1 + |f.position| + |w1|, f, w2);
    OccursOf(s, p, f, w1, w2);
  }

  lemma {:induction false} OccursOf(s: string, p: nat, f: Frame, w1: string, w2: string)
    requires HeadAt(s, p, f.position, w1) && SiteAt(s, p + 1 + |f.position| + |w1|, f, w2)
    ensures FrameOccursAt(s, p, f, w1, w2)
  {
  }

  lemma {:induction false} SiteAtSame(s: string, b: nat, b': nat, f: Frame, w: string)
    requires b == b' && SiteAt(s, b, f, w)
    ensures SiteAt(s, b', f, w)
  {
  }

  /**
   * Soundness of the recogniser: the groups it returns occur in the line in the grammar's
   * order, `#<index><whitespace><site>:<whitespace><code>`, the code running to the end of
   * the line.
   */
  lemma {:induction false} ParseStackLineSound(line: string, f: Frame)
    requires ParseStackLine(line) == Some(f)
    ensures exists p, w1, w2 :: FrameOccursAt(line, p, f, w1, w2)
  {
    ParseStackLineLeftmost(line);
    var p :| 0 <= p < |line| && MatchAt(line, p) == Some(f);
    MatchAtSound(line, p);
  }

  // ---------------------------------------------------------------------------
  // Completeness: a frame that occurs in the line is found
  // ---------------------------------------------------------------------------

  /** A piece of a text that occurs at `i` occurs at its own offset. */
  lemma {:induction false} TextAtSub(s: string, i: nat, t: string, a: nat, b: nat)
    requires TextAt(s, i, t) && a <= b <= |t|
    ensures TextAt(s, i + a, t[a..b])
  {
    var u := s[i..i + |t|];
    forall k | 0 <= k < b - a
      ensures s[i + a..i + b][k] == u[a..b][k]
    {
      assert u[a..b][k] == u[a + k] == s[i + a + k];
    }
    assert s[i + a..i + b] == u[a..b];
  }

  /** One character of a text that occurs at `i`. */
  lemma {:induction false} TextAtChar(s: string, i: nat, t: string, k: nat)
    requires TextAt(s, i, t) && k < |t|
    ensures s[i + k] == t[k]
  {
    assert s[i + k] == s[i..i + |t|][k];
  }

  /** `(.+)` after a `\s+` of `t` characters matches once one of the give-backs leaves a code character. */
  lemma {:induction false} CodeAfterSome(s: string, i: nat, t: nat, u: nat)
    requires i + t <= |s| && 0 < u <= t && i + u < |s| && s[i + u] != '\n'
    ensures CodeAfter(s, i, t).Some?
    decreases t
  {
    if !(i + t < |s| && s[i + t] != '\n') {
      CodeAfterSome(s, i, t - 1, u);
    }
  }

  /** Whitespace `w` at `i` lies inside the whitespace run from `i`. */
  lemma {:induction false} BlankRun(s: string, i: nat, w: string)
    requires TextAt(s, i, w) && Blank(w)
    ensures Run(s, i, IsSpace) >= |w|
  {
    forall k | i <= k < i + |w|
      ensures IsSpace(s[k])
    {
      TextAtChar(s, i, w, k - i);
    }
    RunAtLeast(s, i, IsSpace, |w|);
  }

  /** `\s+(.+)` matches at `i` when whitespace and a code group occur there. */
  lemma {:induction false} CodeAtSome(s: string, i: nat, code: string, w: string)
    requires CodeFrom(s, i, code, w) && |code| > 0 && '\n' !in code
    ensures CodeAt(s, i).Some?
  {
    BlankRun(s, i, w);
    TextAtChar(s, i + |w|, code, 0);
    CodeAfterSome(s, i, Run(s, i, IsSpace), |w|);
  }

  /** The internal alternative matches where its flag, `:`, whitespace and a code group occur. */
  lemma {:induction false} InternalAtSome(s: string, q: nat, code: string, w: string)
    requires TextAt(s, q, InternalFunction) && CodeTail(s, q + 19, code, w)
    requires |code| > 0 && '\n' !in code
    ensures InternalAt(s, q).Some?
  {
    TextAtChar(s, q + 19, ":", 0);
    CodeAtSome(s, q + 20, code, w);
  }

  /** `\.php\((\d+)\):\s+(.+)` matches at `y` where its pieces occur. */
  lemma {:induction false} LineAndCodeSome(s: string, y: nat, line: string, code: string, w: string)
    requires TextAt(s, y, ".php(") && TextAt(s, y + 5, line) && TextAt(s, y + 5 + |line|, ")")
    requires CodeTail(s, y + 5 + |line| + 1, code, w)
    requires |line| > 0 && AllDigits(line) && |code| > 0 && '\n' !in code
    ensures LineAndCodeAt(s, y).Some?
  {
    var c := y + 5 + |line|;
    TextAtChar(s, c, ")", 0);
    TextAtChar(s, c + 1, ":", 0);
    DigitsRun(s, y + 5, line);
    CodeAtSome(s, c + 2, code, w);
    assert s[y..y + 5] == ".php(";
    LineAndCodeFromSome(s, y, c);
  }

  /** `.php(`, the digits up to `c`, `):` and a code group after them match. */
  lemma {:induction false} LineAndCodeFromSome(s: string, y: nat, c: nat)
    requires y + 5 <= |s| && s[y..y + 5] == ".php(" && c == y + 5 + Run(s, y + 5, IsDigit)
    requires y + 5 < c && c + 2 <= |s| && s[c] == ')' && s[c + 1] == ':' && CodeAt(s, c + 2).Some?
    ensures LineAndCodeAt(s, y).Some?
  {
  }

  /** The lazy `.+?` reaches `y`, where the rest matches, when no line feed lies before it. */
  lemma {:induction false} LazyFileSome(s: string, x: nat, y: nat)
    requires x <= y <= |s| && LineAndCodeAt(s, y).Some?
    requires forall z :: x <= z < y ==> s[z] != '\n'
    ensures LazyFile(s, x).Some?
    decreases y - x
  {
    if LineAndCodeAt(s, x).None? {
      LazyFileSome(s, x + 1, y);
    }
  }

  /** The pieces of `<name>(<line>)` at `q`: `.php(` four characters before the name ends, then the digits and `)`. */
  lemma {:induction false} FileSitePieces(s: string, q: nat, name: string, line: string)
    requires TextAt(s, q, name + "(" + line + ")") && |name| >= 5 && EndsWith(name, ".php") && '\n' !in name
    ensures var y := q + |name| - 4;
      && TextAt(s, y, ".php(") && TextAt(s, y + 5, line) && TextAt(s, y + 5 + |line|, ")")
      && forall z :: q <= z < y ==> s[z] != '\n'
  {
    var t := name + "(" + line + ")";
    var n := |name|;
    assert t[n - 4..n + 1] == name[n - 4..] + "(";
    TextAtSub(s, q, t, n - 4, n + 1);
    assert t[n + 1..n + 1 + |line|] == line;
    TextAtSub(s, q, t, n + 1, n + 1 + |line|);
    assert t[n + 1 + |line|..|t|] == ")";
    TextAtSub(s, q, t, n + 1 + |line|, |t|);
    forall z | q <= z < q + n - 4
      ensures s[z] != '\n'
    {
      TextAtChar(s, q, t, z - q);
      assert t[z - q] == name[z - q];
    }
  }

  /** The file alternative matches at `q` where a file site and its tail occur. */
  lemma {:induction false} FileAtSome(s: string, q: nat, name: string, line: string, code: string, w: string)
    requires TextAt(s, q, name + "(" + line + ")") && |name| >= 5 && EndsWith(name, ".php") && '\n' !in name
    requires CodeTail(s, q + |name| + |line| + 2, code, w)
    requires |line| > 0 && AllDigits(line) && |code| > 0 && '\n' !in code
    ensures FileAt(s, q).Some?
  {
    var y := q + |name| - 4;
    FileSitePieces(s, q, name, line);
    CodeTailSame(s, q + |name| + |line| + 2, y + 5 + |line| + 1, code, w);
    LineAndCodeSome(s, y, line, code, w);
    LazyFileSome(s, q + 1, y);
  }

  /** One of the alternatives matches at `q` where the site of a well-shaped frame occurs. */
  lemma {:induction false} AltAtSome(position: string, s: string, q: nat, f: Frame, w: string)
    requires q <= |s| && |position| > 0 && AllDigits(position)
    requires FrameShape(f) && SiteAt(s, q, f, w)
    ensures AltAt(position, s, q).Some?
  {
    if f.internal != "" {
      InternalSiteSome(s, q, f, w);
    } else if InternalAt(s, q).None? {
      FileSiteSome(s, q, f, w);
    }
  }

  /** The site of an internal frame makes the internal alternative match. */
  lemma {:induction false} InternalSiteSome(s: string, q: nat, f: Frame, w: string)
    requires q <= |s| && FrameShape(f) && f.internal != "" && SiteAt(s, q, f, w)
    ensures InternalAt(s, q).Some?
  {
    var site := Site(f);
    assert site == InternalFunction;
    CodeTailSame(s, q + |site|, q + 19, f.code, w);
    InternalAtSome(s, q, f.code, w);
  }

  /** The site of a file frame makes the file alternative match. */
  lemma {:induction false} FileSiteSome(s: string, q: nat, f: Frame, w: string)
    requires q <= |s| && FrameShape(f) && f.internal == "" && SiteAt(s, q, f, w)
    ensures FileAt(s, q).Some?
  {
    FileSiteParts(s, q, f, w);
    FileAtSome(s, q, f.fileName, f.lineNumber, f.code, w);
  }

  /** The site of a file frame is its file name, `(`, its line number and `)`, then the code tail. */
  lemma {:induction false} FileSiteParts(s: string, q: nat, f: Frame, w: string)
    requires q <= |s| && FrameShape(f) && f.internal == "" && SiteAt(s, q, f, w)
    ensures TextAt(s, q, f.fileName + "(" + f.lineNumber + ")")
    ensures |f.fileName| >= 5 && EndsWith(f.fileName, ".php") && '\n' !in f.fileName
    ensures CodeTail(s, q + |f.fileName| + |f.lineNumber| + 2, f.code, w)
    ensures |f.lineNumber| > 0 && AllDigits(f.lineNumber) && |f.code| > 0 && '\n' !in f.code
  {
    var site := Site(f);
    assert site == f.fileName + "(" + f.lineNumber + ")";
    CodeTailSame(s, q + |site|, q + |f.fileName| + |f.lineNumber| + 2, f.code, w);
  }

  /** A match begins at `p` where a well-shaped frame occurs. */
  lemma {:induction false} MatchAtSome(s: string, p: nat, f: Frame, w1: string, w2: string)
    requires FrameShape(f) && FrameOccursAt(s, p, f, w1, w2)
    ensures p < |s| && MatchAt(s, p).Some?
  {
    HeadPieces(s, p, f.position, w1);
    AltAtSome("0", s, p + 1 + |f.position| + |w1|, f, w2);
    MatchAtAlt(s, p, p + 1 + |f.position| + |w1|);
  }

  /** `#`, a non-empty index, and an alternative matching after some of the whitespace after it, make a match. */
  lemma {:induction false} MatchAtAlt(s: string, p: nat, q: nat)
    requires p < |s| && s[p] == '#' && 0 < Run(s, p + 1, IsDigit)
    requires p + 1 + Run(s, p + 1, IsDigit) < q
    requires q <= p + 1 + Run(s, p + 1, IsDigit) + Run(s, p + 1 + Run(s, p + 1, IsDigit), IsSpace)
    requires AltAt("0", s, q).Some?
    ensures MatchAt(s, p).Some?
  {
    var position, a, k := HeadGroups(s, p);
    AltAtPosition("0", position, s, q);
    SiteFromSome(position, s, a, k, q);
    MatchAtGroups(s, p, position, a, k);
  }

  /** Whether an alternative matches at `q` does not depend on the index it is given. */
  lemma {:induction false} AltAtPosition(x: string, y: string, s: string, q: nat)
    requires q <= |s| && |x| > 0 && AllDigits(x) && |y| > 0 && AllDigits(y)
    ensures AltAt(x, s, q).Some? == AltAt(y, s, q).Some?
  {
  }

  /** The index group after `#` at `p`, where the whitespace run after it starts, and its length. */
  lemma {:induction false} HeadGroups(s: string, p: nat) returns (position: string, a: nat, k: nat)
    requires p < |s| && s[p] == '#' && 0 < Run(s, p + 1, IsDigit)
    ensures position == s[p + 1..p + 1 + Run(s, p + 1, IsDigit)] && |position| == Run(s, p + 1, IsDigit)
    ensures a == p + 1 + Run(s, p + 1, IsDigit) && k == Run(s, p + 1 + Run(s, p + 1, IsDigit), IsSpace)
    ensures a + k <= |s| && |position| > 0 && AllDigits(position)
  {
    a := p + 1 + Run(s, p + 1, IsDigit);
    position := s[p + 1..a];
    k := Run(s, a, IsSpace);
  }

  /** After `#` and a non-empty index, a site the give-back finds is a match. */
  lemma {:induction false} MatchAtGroups(s: string, p: nat, position: string, a: nat, k: nat)
    requires p < |s| && s[p] == '#' && 0 < Run(s, p + 1, IsDigit)
    requires position == s[p + 1..p + 1 + Run(s, p + 1, IsDigit)] && |position| == Run(s, p + 1, IsDigit)
    requires a == p + 1 + Run(s, p + 1, IsDigit) && k == Run(s, p + 1 + Run(s, p + 1, IsDigit), IsSpace)
    requires a + k <= |s| && |position| > 0 && AllDigits(position)
    requires SiteFrom(position, s, a, k).Some?
    ensures MatchAt(s, p).Some?
  {
    MatchAtRuns(s, p);
  }

  /** After `#` and a non-empty index, a site the give-back finds is a match, stated on the groups themselves. */
  lemma {:induction false} MatchAtRuns(s: string, p: nat)
    requires p < |s| && s[p] == '#' && 0 < Run(s, p + 1, IsDigit)
    requires AllDigits(s[p + 1..p + 1 + Run(s, p + 1, IsDigit)])
    requires SiteFrom(s[p + 1..p + 1 + Run(s, p + 1, IsDigit)], s, p + 1 + Run(s, p + 1, IsDigit),
      Run(s, p + 1 + Run(s, p + 1, IsDigit), IsSpace)).Some?
    ensures MatchAt(s, p).Some?
  {
  }

  /** The give-back finds a site when some kept whitespace count has one. */
  lemma {:induction false} SiteFromSome(position: string, s: string, a: nat, k: nat, q: nat)
    requires a + k <= |s| && |position| > 0 && AllDigits(position)
    requires a < q <= a + k && AltAt(position, s, q).Some?
    ensures SiteFrom(position, s, a, k).Some?
  {
    SiteFromOrder(position, s, a, k);
  }

  /** After `#`, the index is the whole digit run, and the whitespace run after it is at least the non-empty `w1`. */
  lemma {:induction false} HeadPieces(s: string, p: nat, position: string, w1: string)
    requires HeadAt(s, p, position, w1) && |position| > 0 && AllDigits(position)
    ensures p < |s| && s[p] == '#' && Run(s, p + 1, IsDigit) == |position| && 0 < |w1|
    ensures Run(s, p + 1 + Run(s, p + 1, IsDigit), IsSpace) >= |w1|
  {
    HeadIndex(s, p, position, w1);
    BlankRun(s, p + 1 + |position|, w1);
  }

  /** `#` at `p`, and the index is the whole digit run after it. */
  lemma {:induction false} HeadIndex(s: string, p: nat, position: string, w1: string)
    requires HeadAt(s, p, position, w1) && |position| > 0 && AllDigits(position)
    ensures var a := p + 1 + |position|;
      p < |s| && s[p] == '#' && Run(s, p + 1, IsDigit) == |position| && s[p + 1..a] == position
  {
    TextAtChar(s, p, "#", 0);
    TextAtChar(s, p + 1 + |position|, w1, 0);
    DigitsRun(s, p + 1, position);
  }

  /**
   * Completeness of the recogniser: wherever a well-shaped frame occurs in the line, with
   * any whitespace after the index and after the `:`, `preg_match` finds a match.
   */
  lemma {:induction false} ParseStackLineComplete(line: string, p: nat, f: Frame, w1: string, w2: string)
    requires FrameShape(f) && FrameOccursAt(line, p, f, w1, w2)
    ensures ParseStackLine(line).Some?
  {
    MatchAtSome(line, p, f, w1, w2);
    ParseStackLineLeftmost(line);
  }

  // ---------------------------------------------------------------------------
  // files: `\{.*?\,.*?\}` (brace-glob detection)
  // ---------------------------------------------------------------------------

  predicate NoNewlineIn(s: string, i: nat, j: nat) {
    forall t :: i <= t < j && t < |s| ==> s[t] != '\n'
  }

  /** A `{`, a later `,` and a later `}` on one line, at `i`, `j` and `k`. */
  predicate BraceGlobAt(s: string, i: nat, j: nat, k: nat) {
    i < j < k < |s| && s[i] == '{' && s[j] == ',' && s[k] == '}' && NoNewlineIn(s, i, k)
  }

  /** The first `c` at or after `from` on the current line (`.*?` followed by `c`). */
  function FindOnLine(s: string, from: nat, c: char): (r: Option<nat>)
    requires from <= |s|
    requires c != '\n'
    ensures r.Some? ==> from <= r.value < |s| && s[r.value] == c && NoNewlineIn(s, from, r.value)
    ensures r.Some? ==> forall t :: from <= t < r.value ==> s[t] != c
    ensures r.None? ==> forall t :: from <= t < |s| && s[t] == c ==> !NoNewlineIn(s, from, t)
    decreases |s| - from
  {
    if from == |s| || s[from] == '\n' then None
    else if s[from] == c then Some(from)
    else FindOnLine(s, from + 1, c)
  }

  /** A brace glob at `i` is found by the two lazy searches that start there. */
  lemma {:induction false} FindsGlobAt(s: string, i: nat, j: nat, k: nat)
    requires BraceGlobAt(s, i, j, k)
    ensures FindOnLine(s, i + 1, ',').Some?
    ensures FindOnLine(s, FindOnLine(s, i + 1, ',').value + 1, '}').Some?
  {
    assert NoNewlineIn(s, i + 1, j);
    var j' := FindOnLine(s, i + 1, ',');
    assert j'.Some?;
    assert j'.value <= j;
    assert NoNewlineIn(s, j'.value + 1, k);
  }

  /** `preg_match` of `files` from position `i` onwards. */
  function FilesFrom(s: string, i: nat): (b: bool)
    requires i <= |s|
    ensures b <==> exists i', j, k :: i <= i' && BraceGlobAt(s, i', j, k)
    decreases |s| - i
  {
    if i == |s| then false
    else if s[i] == '{' && FindOnLine(s, i + 1, ',').Some? && FindOnLine(s, FindOnLine(s, i + 1, ',').value + 1, '}').Some? then
      var j := FindOnLine(s, i + 1, ',').value;
      var k := FindOnLine(s, j + 1, '}').value;
      assert BraceGlobAt(s, i, j, k);
      true
    else
      var b := FilesFrom(s, i + 1);
      assert forall j, k :: !BraceGlobAt(s, i, j, k) by {
        forall j, k | BraceGlobAt(s, i, j, k) ensures false {
          FindsGlobAt(s, i, j, k);
        }
      }
      b
  }

  /** Whether `getFiles` turns brace expansion on for a file pattern. */
  function IsBraceGlob(pattern: string): (b: bool)
    ensures b <==> exists i, j, k :: BraceGlobAt(pattern, i, j, k)
  {
    FilesFrom(pattern, 0)
  }

  // ---------------------------------------------------------------------------
  // The datetime group: `\d{4}-\d{2}-\d{2}\s+\d{2}:\d{2}:\d{2}`
  // ---------------------------------------------------------------------------

  /** `s` matches a template in which `d` stands for a digit and any other character for itself. */
  predicate FitsTemplate(s: string, template: string) {
    |s| == |template| && forall k :: 0 <= k < |s| ==> (if template[k] == 'd' then IsDigit(s[k]) else s[k] == template[k])
  }

  const DateTemplate: string := "dddd-dd-dd"
  const TimeTemplate: string := "dd:dd:dd"

  /** The datetime capture read as a date, the whitespace between and a time. */
  datatype DateTime = DateTime(date: string, gap: string, time: string)

  predicate WellFormedDateTime(d: DateTime) {
    FitsTemplate(d.date, DateTemplate) && |d.gap| > 0 && AllSpace(d.gap) && FitsTemplate(d.time, TimeTemplate)
  }

  function DateTimeText(d: DateTime): string {
    d.date + d.gap + d.time
  }

  /** The recogniser: the date, the maximal whitespace run after it, and a time that ends the string. */
  function ParseDateTime(s: string): (r: Option<DateTime>)
    ensures r.Some? ==> WellFormedDateTime(r.value) && DateTimeText(r.value) == s
  {
    if |s| < 10 || !FitsTemplate(s[..10], DateTemplate) then None
    else
      var g := Run(s, 10, IsSpace);
      var rest := s[10 + g..];
      if g > 0 && FitsTemplate(rest, TimeTemplate) then
        assert s == s[..10] + s[10..10 + g] + rest;
        Some(DateTime(s[..10], s[10..10 + g], rest))
      else None
  }

  /** Every well-formed date and time is recognised, and read back into the same parts. */
  lemma {:induction false} ParseDateTimeText(d: DateTime)
    requires WellFormedDateTime(d)
    ensures ParseDateTime(DateTimeText(d)) == Some(d)
  {
    var s := DateTimeText(d);
    assert s[..10] == d.date;
    assert s[10..10 + |d.gap|] == d.gap;
    assert s[10 + |d.gap|] == d.time[0];
    RunIs(s, 10, IsSpace, |d.gap|);
    assert s[10 + |d.gap|..] == d.time;
  }

  // ---------------------------------------------------------------------------
  // log_entry's message body `(.+?(?={"\w))` and metadata `(.+?(?=\n\[\d|\s*\Z))`
  // (both with the `s` flag, so `.` matches anything)
  // ---------------------------------------------------------------------------

  /** `{"` followed by a word character starts at `x`. */
  predicate JsonStartAt(s: string, x: nat) {
    x + 3 <= |s| && s[x] == '{' && s[x + 1] == '"' && IsWordChar(s[x + 2])
  }

  /** Where the metadata group may stop: before `\n[<digit>` or before trailing whitespace. */
  predicate MetadataStopAt(s: string, y: nat) {
    y <= |s| && ((y + 3 <= |s| && s[y] == '\n' && s[y + 1] == '[' && IsDigit(s[y + 2])) || AllSpace(s[y..]))
  }

  /** The end of the lazy message group, searched from `x`, past its first character: the first `{"\w`. */
  function MessageEnd(s: string, x: nat): (r: Option<nat>)
    requires 0 < x <= |s|
    ensures r.Some? ==> x <= r.value && JsonStartAt(s, r.value)
    ensures r.Some? ==> forall y :: x <= y < r.value ==> !JsonStartAt(s, y)
    ensures r.None? ==> forall y :: x <= y ==> !JsonStartAt(s, y)
    decreases |s| - x
  {
    if JsonStartAt(s, x) then Some(x)
    else if x + 3 >= |s| then None
    else MessageEnd(s, x + 1)
  }

  /** The end of the lazy metadata group that starts at `x`: the first stop after at least one character. */
  function MetadataEnd(s: string, x: nat, y: nat): (r: nat)
    requires x < y <= |s|
    ensures y <= r <= |s| && MetadataStopAt(s, r)
    ensures forall z :: y <= z < r ==> !MetadataStopAt(s, z)
    decreases |s| - y
  {
    if MetadataStopAt(s, y) then y else MetadataEnd(s, x, y + 1)
  }

  /**
   * Groups 4 and 5 of `log_entry` for a body starting at `i` (just after `level:\s+`):
   * the message runs from `i` to the first `{"\w` after at least one character, and the
   * metadata from there to the first `\n[<digit>` or trailing whitespace.
   */
  function BodyGroups(s: string, i: nat): (r: Option<(string, string)>)
    requires i <= |s|
    ensures r.Some? ==> |r.value.0| > 0 && |r.value.1| > 0
    ensures r.Some? ==> JsonStartAt(r.value.1, 0)
    ensures r.Some? ==> forall y :: i < y < i + |r.value.0| ==> !JsonStartAt(s, y)
    ensures r.Some? ==> MetadataStopAt(s, i + |r.value.0| + |r.value.1|)
    ensures r.Some? ==> forall z :: i + |r.value.0| < z < i + |r.value.0| + |r.value.1| ==> !MetadataStopAt(s, z)
    ensures r.Some? ==> s[i..i + |r.value.0| + |r.value.1|] == r.value.0 + r.value.1
    ensures r.None? ==> forall y :: i < y ==> !JsonStartAt(s, y)
  {
    if i == |s| then None
    else
      match MessageEnd(s, i + 1)
      case None => None
      case Some(x) =>
        var y := MetadataEnd(s, x, x + 1);
        assert s[i..y] == s[i..x] + s[x..y];
        Some((s[i..x], s[x..y]))
  }
}
