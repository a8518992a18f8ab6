/**
 * The stack-trace formatter of LaravelLogViewer.php (`formatStackTrace` and its helpers
 * `prepareJSON`, `splitStackIntoLines`, `splitStackLine`, `detectStackLineType` and
 * `addLineToBlock`). `json_decode` is a parameter that yields the decoded `exception`
 * property, if it is set.
 */
module StackTrace {

  import opened Wrappers
  import opened Strings
  import opened Normalise
  import Pattern

  datatype LineType = User | Vendor

  /** The type names the PHP code uses as block types and CSS classes. */
  function TypeName(t: LineType): string {
    match t
    case User => "user"
    case Vendor => "vendor"
  }

  /** The type that is not `t`. */
  function Other(t: LineType): LineType {
    match t
    case User => Vendor
    case Vendor => User
  }

  const StackTraceMarker: string := "[stacktrace]"
  const VendorSegment: string := "/vendor/"

  // ---------------------------------------------------------------------------
  // prepareJSON
  // ---------------------------------------------------------------------------

  function CountChar(s: string, c: char): nat {
    if s == [] then 0 else (if s[0] == c then 1 else 0) + CountChar(s[1..], c)
  }

  /**
   * `prepareJSON`: every line feed becomes the two characters `\` and `n`, so no line feed
   * is left, the text grows by one character per line feed, and text without a line feed
   * is returned as it is.
   */
  function PrepareJson(json: string): (r: string)
    ensures '\n' !in r
    ensures |r| == |json| + CountChar(json, '\n')
    ensures '\n' !in json ==> r == json
  {
    if json == [] then []
    else
      var rest := PrepareJson(json[1..]);
      assert '\n' !in json ==> '\n' !in json[1..];
      (if json[0] == '\n' then "\\n" else [json[0]]) + rest
  }

  /** One character: a line feed becomes backslash and `n`; anything else is kept. */
  lemma PrepareJsonChar(c: char)
    ensures PrepareJson([c]) == if c == '\n' then ['\\', 'n'] else [c]
  {
    assert [c][1..] == [];
  }

  /** The replacement works character by character, so it distributes over concatenation. */
  lemma {:induction false} PrepareJsonAppend(a: string, b: string)
    ensures PrepareJson(a + b) == PrepareJson(a) + PrepareJson(b)
  {
    if a == [] {
      assert a + b == b;
    } else {
      assert (a + b)[0] == a[0] && (a + b)[1..] == a[1..] + b;
      PrepareJsonAppend(a[1..], b);
    }
  }

  // ---------------------------------------------------------------------------
  // splitStackIntoLines: preg_split('~\s*\r?\n\s*~m', $s, -1, PREG_SPLIT_NO_EMPTY)
  // ---------------------------------------------------------------------------

  /** The first line feed at or after `i`. */
  function FirstNewline(s: string, i: nat): (r: Option<nat>)
    requires i <= |s|
    ensures r.Some? ==> i <= r.value < |s| && s[r.value] == '\n'
    ensures r.Some? ==> forall k :: i <= k < r.value ==> s[k] != '\n'
    ensures r.None? ==> forall k :: i <= k < |s| ==> s[k] != '\n'
    decreases |s| - i
  {
    if i == |s| then None else if s[i] == '\n' then Some(i) else FirstNewline(s, i + 1)
  }

  /** The number of whitespace characters right before `i`. */
  function SpacesBefore(s: string, i: nat): (n: nat)
    requires i <= |s|
    ensures n <= i
    ensures forall k :: i - n <= k < i ==> IsSpace(s[k])
    ensures n == i || !IsSpace(s[i - 1 - n])
  {
    if i > 0 && IsSpace(s[i - 1]) then 1 + SpacesBefore(s, i - 1) else 0
  }

  /**
   * The first separator, as `s[b..e]`: the maximal whitespace run around the first line
   * feed.
   */
  function Separator(s: string): (r: Option<(nat, nat)>)
    ensures r.None? <==> '\n' !in s
    ensures r.Some? ==>
      && r.value.0 < r.value.1 <= |s|
      && (forall k :: 0 <= k < r.value.0 ==> s[k] != '\n')
      && (forall k :: r.value.0 <= k < r.value.1 ==> IsSpace(s[k]))
      && (r.value.0 > 0 ==> !IsSpace(s[r.value.0 - 1]))
      && (r.value.1 < |s| ==> !IsSpace(s[r.value.1]))
      && '\n' in s[r.value.0..r.value.1]
  {
    match FirstNewline(s, 0)
    case None => None
    case Some(i) =>
      var b, e := i - SpacesBefore(s, i), i + Run(s, i, IsSpace);
      assert s[b..e][i - b] == '\n';
      Some((b, e))
  }

  /**
   * `splitStackIntoLines`: the separators are the maximal whitespace runs that hold a line
   * feed; the pieces between them are kept, empty ones dropped. No piece is empty or holds
   * a line feed, and text without a line feed is one piece.
   */
  function SplitStackIntoLines(s: string): (lines: seq<string>)
    ensures forall k :: 0 <= k < |lines| ==> |lines[k]| > 0 && '\n' !in lines[k]
    ensures '\n' !in s ==> lines == (if s == [] then [] else [s])
    decreases |s|
  {
    match Separator(s)
    case None => if s == [] then [] else [s]
    case Some((b, e)) =>
      assert '\n' !in s[..b] by {
        assert forall k :: 0 <= k < b ==> s[..b][k] == s[k];
      }
      (if b == 0 then [] else [s[..b]]) + SplitStackIntoLines(s[e..])
  }

  /** Text that starts with a non-whitespace character starts its first piece. */
  lemma SplitStartsAt(s: string)
    requires |s| > 0 && !IsSpace(s[0])
    ensures |SplitStackIntoLines(s)| > 0 && SplitStackIntoLines(s)[0][0] == s[0]
  {
    match Separator(s)
    case None =>
    case Some((b, e)) =>
      assert b > 0;
  }

  /**
   * No piece is empty; every piece but the first starts, and every piece but the last ends,
   * with a non-whitespace character.
   */
  predicate PiecesTrimmed(lines: seq<string>) {
    forall k :: 0 <= k < |lines| ==>
      && |lines[k]| > 0
      && (k > 0 ==> !IsSpace(lines[k][0]))
      && (k < |lines| - 1 ==> !IsSpace(lines[k][|lines[k]| - 1]))
  }

  lemma ConsTrimmed(p: string, rest: seq<string>)
    requires |p| > 0 && !IsSpace(p[|p| - 1]) && PiecesTrimmed(rest)
    requires rest != [] ==> !IsSpace(rest[0][0])
    ensures PiecesTrimmed([p] + rest)
  {
    var lines := [p] + rest;
    forall k | 0 < k < |lines|
      ensures lines[k] == rest[k - 1]
    {
    }
  }

  /** The pieces are trimmed where they meet a separator. */
  lemma {:induction false} SplitPiecesTrimmed(s: string)
    ensures PiecesTrimmed(SplitStackIntoLines(s))
    decreases |s|
  {
    match Separator(s)
    case None =>
    case Some((b, e)) =>
      var rest := SplitStackIntoLines(s[e..]);
      SplitPiecesTrimmed(s[e..]);
      if |rest| > 0 {
        SplitStartsAt(s[e..]);
      }
      if b > 0 {
        assert SplitStackIntoLines(s) == [s[..b]] + rest;
        ConsTrimmed(s[..b], rest);
      } else {
        assert SplitStackIntoLines(s) == rest;
      }
  }

  /** The non-whitespace characters of `s`, in order. */
  function Visible(s: string): string {
    if s == [] then [] else (if IsSpace(s[0]) then [] else [s[0]]) + Visible(s[1..])
  }

  function Concat(lines: seq<string>): string {
    if lines == [] then [] else lines[0] + Concat(lines[1..])
  }

  lemma {:induction false} VisibleAppend(a: string, b: string)
    ensures Visible(a + b) == Visible(a) + Visible(b)
    decreases |a|
  {
    if a != [] {
      assert (a + b)[0] == a[0];
      assert (a + b)[1..] == a[1..] + b;
      VisibleAppend(a[1..], b);
    } else {
      assert a + b == b;
    }
  }

  lemma {:induction false} VisibleOfSpaces(s: string)
    requires AllSpace(s)
    ensures Visible(s) == []
    decreases |s|
  {
    if s != [] {
      VisibleOfSpaces(s[1..]);
    }
  }

  /** Splitting loses only whitespace: the pieces hold every other character, in order. */
  lemma {:induction false} SplitKeepsVisible(s: string)
    ensures Visible(Concat(SplitStackIntoLines(s))) == Visible(s)
    decreases |s|
  {
    match Separator(s)
    case None =>
      if s != [] {
        assert [s][1..] == [];
        assert Concat([s]) == s + [] == s;
      }
    case Some((b, e)) =>
      var rest := SplitStackIntoLines(s[e..]);
      SplitKeepsVisible(s[e..]);
      assert AllSpace(s[b..e]) by {
        forall k | 0 <= k < e - b ensures IsSpace(s[b..e][k]) {
          assert s[b..e][k] == s[b + k];
        }
      }
      SeparatorKeepsVisible(s, b, e, rest);
  }

  /** Cutting out a run of spaces loses nothing visible. */
  lemma VisibleAroundGap(s: string, b: nat, e: nat)
    requires b <= e <= |s| && AllSpace(s[b..e])
    ensures Visible(s) == Visible(s[..b]) + Visible(s[e..])
  {
    var piece := s[..b];
    var gap := s[b..e];
    var tail := s[e..];
    calc {
      Visible(s);
      { assert s == s[..e] + tail; }
      Visible(s[..e] + tail);
      { VisibleAppend(s[..e], tail); }
      Visible(s[..e]) + Visible(tail);
      { assert s[..e] == piece + gap; }
      Visible(piece + gap) + Visible(tail);
      { VisibleAppend(piece, gap); }
      Visible(piece) + Visible(gap) + Visible(tail);
      { VisibleOfSpaces(gap); assert Visible(piece) + [] == Visible(piece); }
      Visible(piece) + Visible(tail);
    }
  }

  /** One separator: the piece before it and the text after it hold everything visible. */
  lemma SeparatorKeepsVisible(s: string, b: nat, e: nat, rest: seq<string>)
    requires b <= e <= |s| && AllSpace(s[b..e])
    requires Visible(Concat(rest)) == Visible(s[e..])
    ensures Visible(Concat((if b == 0 then [] else [s[..b]]) + rest)) == Visible(s)
  {
    var piece := s[..b];
    VisibleAroundGap(s, b, e);
    if b > 0 {
      calc {
        Visible(Concat([piece] + rest));
        { assert ([piece] + rest)[1..] == rest; assert ([piece] + rest)[0] == piece; }
        Visible(piece + Concat(rest));
        { VisibleAppend(piece, Concat(rest)); }
        Visible(piece) + Visible(s[e..]);
      }
    } else {
      assert [] + rest == rest;
      assert Visible(piece) == [];
    }
  }

  // ---------------------------------------------------------------------------
  // detectStackLineType, splitStackLine and the rendering of one frame
  // ---------------------------------------------------------------------------

  /** `detectStackLineType`: vendor exactly when the file name contains `/vendor/`, ignoring ASCII case. */
  function DetectStackLineType(fileName: string): (t: LineType)
    ensures t == Vendor <==> ContainsCI(fileName, VendorSegment)
    ensures t == User <==> !ContainsCI(fileName, VendorSegment)
  {
    if StrContainsCI(fileName, VendorSegment) then Vendor else User
  }

  /** The value `splitStackLine` returns when the line does not match: `[0, '', '', 0, '']`. */
  const Sentinel: Pattern.Frame := Pattern.Frame("0", "", "", "0", "")

  /** `splitStackLine`: the five capture groups, or the sentinel. */
  function SplitStackLine(line: string): (f: Pattern.Frame)
    ensures Pattern.ParseStackLine(line).Some? ==> f == Pattern.ParseStackLine(line).value
    ensures Pattern.ParseStackLine(line).None? ==> f == Sentinel
  {
    match Pattern.ParseStackLine(line)
    case Some(frame) => frame
    case None => Sentinel
  }

  /** PHP's falsy strings: `""` and `"0"` (so `"00"` is truthy). */
  predicate PhpFalsy(s: string) {
    s == "" || s == "0"
  }

  /** One frame line as it enters a block: its type and its markup. */
  datatype Emitted = Emitted(kind: LineType, html: string)

  function InternalFrameHtml(code: string): string {
    "<div class=\"user code-line\">" + code + "</div>"
  }

  function FileFrameHtml(t: LineType, f: Pattern.Frame): string {
    "<div class=\"" + TypeName(t) + " file-name\">" + f.fileName + " at line " + f.lineNumber
    + "</div><div class=\"" + TypeName(t) + " code-line\">" + f.code + "</div>"
  }

  /**
   * What a frame contributes: an internal frame is a user line; a file frame whose line
   * number is falsy is dropped; any other file frame is classified by its file name.
   */
  function FrameEmission(f: Pattern.Frame): (r: Option<Emitted>)
    ensures r.None? <==> f.internal == "" && PhpFalsy(f.lineNumber)
    ensures r.Some? && f.internal != "" ==> r.value == Emitted(User, InternalFrameHtml(f.code))
    ensures r.Some? && f.internal == "" ==>
      (r.value.kind == Vendor <==> ContainsCI(f.fileName, VendorSegment))
    ensures r.Some? && f.internal == "" ==> r.value.html == FileFrameHtml(r.value.kind, f)
  {
    if f.internal != "" then Some(Emitted(User, InternalFrameHtml(f.code)))
    else if PhpFalsy(f.lineNumber) then None
    else
      var t := DetectStackLineType(f.fileName);
      Some(Emitted(t, FileFrameHtml(t, f)))
  }

  /** The sentinel is dropped: its internal flag is empty and its line number is zero. */
  lemma SentinelDropped()
    ensures FrameEmission(Sentinel) == None
  {
  }

  /**
   * What a split line after the first contributes: nothing for the `[stacktrace]` marker,
   * for a line `stack_line` does not match once the root is stripped, and for a file frame
   * with a falsy line number.
   */
  function LineEmission(line: string, root: string): (r: Option<Emitted>)
    ensures r.None? <==>
      || line == StackTraceMarker
      || Pattern.ParseStackLine(StripDocumentRoot(line, root)).None?
      || (var f := Pattern.ParseStackLine(StripDocumentRoot(line, root)).value;
          f.internal == "" && PhpFalsy(f.lineNumber))
  {
    if line == StackTraceMarker then None
    else FrameEmission(SplitStackLine(StripDocumentRoot(line, root)))
  }

  function Opt(o: Option<Emitted>): seq<Emitted> {
    if o.Some? then [o.value] else []
  }

  /** The contributions of `lines`, in order. */
  function Emissions(lines: seq<string>, root: string): (r: seq<Emitted>)
    ensures |r| <= |lines|
  {
    if lines == [] then []
    else Emissions(lines[..|lines| - 1], root) + Opt(LineEmission(lines[|lines| - 1], root))
  }

  /** Lines none of which contributes leave nothing. */
  lemma {:induction false} EmissionsAllSilent(lines: seq<string>, root: string)
    requires forall k :: 0 <= k < |lines| ==> LineEmission(lines[k], root).None?
    ensures Emissions(lines, root) == []
  {
    if lines != [] {
      var init := lines[..|lines| - 1];
      assert forall k :: 0 <= k < |init| ==> init[k] == lines[k];
      EmissionsAllSilent(init, root);
    }
  }

  /** When every line contributes, contribution `k` comes from line `k`. */
  lemma EmissionsAllKept(lines: seq<string>, root: string)
    requires forall k :: 0 <= k < |lines| ==> LineEmission(lines[k], root).Some?
    ensures |Emissions(lines, root)| == |lines|
    ensures forall k :: 0 <= k < |lines| ==> LineEmission(lines[k], root) == Some(Emissions(lines, root)[k])
  {
    EmissionsAllKeptLength(lines, root);
    forall k | 0 <= k < |lines|
      ensures LineEmission(lines[k], root) == Some(Emissions(lines, root)[k])
    {
      EmissionAt(lines, root, k);
    }
  }

  /** Lines that all contribute give one contribution each. */
  lemma {:induction false} EmissionsAllKeptLength(lines: seq<string>, root: string)
    requires forall k :: 0 <= k < |lines| ==> LineEmission(lines[k], root).Some?
    ensures |Emissions(lines, root)| == |lines|
  {
    if lines != [] {
      var init := lines[..|lines| - 1];
      assert forall k :: 0 <= k < |init| ==> init[k] == lines[k];
      EmissionsAllKeptLength(init, root);
    }
  }

  /** When every line contributes, contribution `k` is line `k`'s. */
  lemma {:induction false} EmissionAt(lines: seq<string>, root: string, k: nat)
    requires forall j :: 0 <= j < |lines| ==> LineEmission(lines[j], root).Some?
    requires k < |lines|
    ensures |Emissions(lines, root)| == |lines|
    ensures LineEmission(lines[k], root) == Some(Emissions(lines, root)[k])
  {
    var init := lines[..|lines| - 1];
    assert forall j :: 0 <= j < |init| ==> init[j] == lines[j];
    EmissionsAllKeptLength(init, root);
    OptSnoc(Emissions(init, root), LineEmission(lines[|lines| - 1], root));
    if k < |init| {
      EmissionAt(init, root, k);
    }
  }

  /** A contribution appended after `init` is the last one; the earlier ones stay in place. */
  lemma OptSnoc(init: seq<Emitted>, o: Option<Emitted>)
    requires o.Some?
    ensures |init + Opt(o)| == |init| + 1 && o == Some((init + Opt(o))[|init|])
    ensures forall j :: 0 <= j < |init| ==> (init + Opt(o))[j] == init[j]
  {
  }

  /** The frame lines `formatStackTrace` keeps: the first split line never contributes. */
  function Kept(lines: seq<string>, root: string): (r: seq<Emitted>)
    ensures lines != [] ==> |r| < |lines|
    ensures |lines| <= 1 ==> r == []
  {
    if lines == [] then [] else Emissions(lines[1..], root)
  }

  lemma {:induction false} EmissionsAppend(a: seq<string>, b: seq<string>, root: string)
    ensures Emissions(a + b, root) == Emissions(a, root) + Emissions(b, root)
    decreases |b|
  {
    if b != [] {
      var b' := b[..|b| - 1];
      assert (a + b)[..|a + b| - 1] == a + b';
      EmissionsAppend(a, b', root);
    } else {
      assert a + b == a;
    }
  }

  /** Whatever the first split line is, it has no effect on what is kept. */
  lemma KeptIgnoresFirst(x: string, y: string, rest: seq<string>, root: string)
    ensures Kept([x] + rest, root) == Kept([y] + rest, root)
  {
    assert ([x] + rest)[1..] == rest == ([y] + rest)[1..];
  }

  /**
   * A line after the first that contributes nothing (the marker, an unmatched line, a file
   * frame with a falsy line number) can be removed without changing what is kept.
   */
  lemma {:induction false} KeptSkipsSilent(a: seq<string>, x: string, b: seq<string>, root: string)
    requires |a| >= 1 && LineEmission(x, root).None?
    ensures Kept(a + [x] + b, root) == Kept(a + b, root)
  {
    assert a + [x] + b == a + ([x] + b);
    KeptSplits(a, [x] + b, root);
    EmissionsAppend([x], b, root);
    SilentEmitsNothing(x, root);
    KeptSplits(a, b, root);
  }

  lemma KeptSplits(a: seq<string>, b: seq<string>, root: string)
    requires |a| >= 1
    ensures Kept(a + b, root) == Emissions(a[1..], root) + Emissions(b, root)
  {
    assert (a + b)[1..] == a[1..] + b;
    EmissionsAppend(a[1..], b, root);
  }

  lemma SilentEmitsNothing(x: string, root: string)
    requires LineEmission(x, root).None?
    ensures Emissions([x], root) == []
  {
    assert [x][..0] == [];
  }

  /** In particular the `[stacktrace]` marker never reaches the output. */
  lemma KeptSkipsMarker(a: seq<string>, b: seq<string>, root: string)
    requires |a| >= 1
    ensures Kept(a + [StackTraceMarker] + b, root) == Kept(a + b, root)
  {
    KeptSkipsSilent(a, StackTraceMarker, b, root);
  }

  // ---------------------------------------------------------------------------
  // Blocks: addLineToBlock and the counters of the main loop
  // ---------------------------------------------------------------------------

  /** A block: its type, its number and its lines; `(kind, number)` is its key. */
  datatype Block = Block(kind: LineType, number: nat, lines: seq<string>)

  predicate HasKey(b: Block, kind: LineType, number: nat) {
    b.kind == kind && b.number == number
  }

  /** `array_key_exists`: the position of the block with key `(kind, number)`. */
  function FindBlock(blocks: seq<Block>, kind: LineType, number: nat): (r: Option<nat>)
    ensures r.Some? ==> r.value < |blocks| && HasKey(blocks[r.value], kind, number)
    ensures r.Some? ==> forall j :: 0 <= j < r.value ==> !HasKey(blocks[j], kind, number)
    ensures r.None? ==> forall j :: 0 <= j < |blocks| ==> !HasKey(blocks[j], kind, number)
  {
    if blocks == [] then None
    else if HasKey(blocks[0], kind, number) then Some(0)
    else
      match FindBlock(blocks[1..], kind, number)
      case None => None
      case Some(j) => Some(j + 1)
  }

  /**
   * `addLineToBlock`: a block with key `(kind, number)` is created at the end only if none
   * exists; the line is appended to the end of that block's lines; every other block, and
   * the order of all blocks, stays as it was.
   */
  function AddLineToBlock(blocks: seq<Block>, kind: LineType, line: string, number: nat): (r: seq<Block>)
    ensures (forall j :: 0 <= j < |blocks| ==> !HasKey(blocks[j], kind, number)) ==>
      r == blocks + [Block(kind, number, [line])]
    ensures forall i :: (0 <= i < |blocks| && HasKey(blocks[i], kind, number)
      && (forall j :: 0 <= j < i ==> !HasKey(blocks[j], kind, number))) ==>
      (|r| == |blocks| && r[i] == blocks[i].(lines := blocks[i].lines + [line])
       && forall j :: 0 <= j < |blocks| && j != i ==> r[j] == blocks[j])
  {
    match FindBlock(blocks, kind, number)
    case None => blocks + [Block(kind, number, [line])]
    case Some(i) => blocks[i := blocks[i].(lines := blocks[i].lines + [line])]
  }

  /** `$block_counters`: one counter per type. */
  datatype Counters = Counters(user: nat, vendor: nat) {
    function Get(t: LineType): nat {
      match t
      case User => user
      case Vendor => vendor
    }

    function Inc(t: LineType): Counters {
      match t
      case User => this.(user := user + 1)
      case Vendor => this.(vendor := vendor + 1)
    }
  }

  /** The state of the main loop: the counters, `$save_block` and the block map. */
  datatype Grouping = Grouping(counters: Counters, saved: Option<LineType>, blocks: seq<Block>)

  /** One kept line: a type's counter moves on when the previous kept line had the other type. */
  function Step(g: Grouping, e: Emitted): (r: Grouping)
    ensures r.saved == Some(e.kind)
    ensures r.counters.Get(e.kind) == g.counters.Get(e.kind) + (if g.saved.Some? && g.saved != Some(e.kind) then 1 else 0)
    ensures r.counters.Get(Other(e.kind)) == g.counters.Get(Other(e.kind))
  {
    var counters := if g.saved.Some? && g.saved.value != e.kind then g.counters.Inc(e.kind) else g.counters;
    Grouping(counters, Some(e.kind), AddLineToBlock(g.blocks, e.kind, e.html, counters.Get(e.kind)))
  }

  /** The loop's state after the kept lines `items`. */
  function Group(items: seq<Emitted>): (r: Grouping)
    ensures items == [] <==> r.saved.None?
    ensures items != [] ==> r.saved == Some(items[|items| - 1].kind)
  {
    if items == [] then Grouping(Counters(0, 0), None, [])
    else Step(Group(items[..|items| - 1]), items[|items| - 1])
  }

  // ----- what the grouping promises -----

  /** How many of `blocks` have type `t`. */
  function CountKind(blocks: seq<Block>, t: LineType): nat {
    if blocks == [] then 0
    else CountKind(blocks[..|blocks| - 1], t) + (if blocks[|blocks| - 1].kind == t then 1 else 0)
  }

  /** The lines of a block, each with the block's type. */
  function Tag(b: Block): (es: seq<Emitted>)
    ensures |es| == |b.lines| && forall k :: 0 <= k < |es| ==> es[k] == Emitted(b.kind, b.lines[k])
  {
    TagLines(b.kind, b.lines)
  }

  function TagLines(kind: LineType, lines: seq<string>): (es: seq<Emitted>)
    ensures |es| == |lines| && forall k :: 0 <= k < |es| ==> es[k] == Emitted(kind, lines[k])
  {
    if lines == [] then [] else [Emitted(kind, lines[0])] + TagLines(kind, lines[1..])
  }

  /** All lines of all blocks, in block order, each with its block's type. */
  function Tagged(blocks: seq<Block>): seq<Emitted> {
    if blocks == [] then [] else Tagged(blocks[..|blocks| - 1]) + Tag(blocks[|blocks| - 1])
  }

  /** No block is empty and neighbouring blocks have different types. */
  ghost predicate MaximalRuns(blocks: seq<Block>) {
    && (forall r :: 0 <= r < |blocks| ==> |blocks[r].lines| > 0)
    && (forall r, r' :: 0 <= r < r' < |blocks| && r' == r + 1 ==> blocks[r].kind != blocks[r'].kind)
  }

  /**
   * The blocks of each type are numbered 0, 1, 2, ... when they have the first block's
   * type, and 1, 2, 3, ... otherwise.
   */
  ghost predicate NumberedByType(blocks: seq<Block>) {
    forall r :: 0 <= r < |blocks| ==>
      blocks[r].number == CountKind(blocks[..r], blocks[r].kind) + (if blocks[r].kind == blocks[0].kind then 0 else 1)
  }

  ghost predicate DistinctKeys(blocks: seq<Block>) {
    forall r, r' :: 0 <= r < r' < |blocks| ==> !HasKey(blocks[r'], blocks[r].kind, blocks[r].number)
  }

  /** The loop invariant, stated about the state after `items`. */
  ghost predicate GroupInv(g: Grouping, items: seq<Emitted>) {
    && Tagged(g.blocks) == items
    && MaximalRuns(g.blocks)
    && NumberedByType(g.blocks)
    && (g.blocks == [] ==> g.saved == None && g.counters == Counters(0, 0))
    && (g.blocks != [] ==>
          && g.saved == Some(g.blocks[|g.blocks| - 1].kind)
          && g.counters.Get(User) + (if g.blocks[0].kind == User then 1 else 0) == CountKind(g.blocks, User)
          && g.counters.Get(Vendor) + (if g.blocks[0].kind == Vendor then 1 else 0) == CountKind(g.blocks, Vendor))
  }

  lemma {:induction false} CountPrefixGrows(bs: seq<Block>, i: nat, j: nat, t: LineType)
    requires i < j <= |bs| && bs[i].kind == t
    ensures CountKind(bs[..i], t) + 1 <= CountKind(bs[..j], t)
    decreases j - i
  {
    if j == i + 1 {
      assert bs[..j][..i] == bs[..i];
    } else {
      CountPrefixGrows(bs, i, j - 1, t);
      assert bs[..j][..j - 1] == bs[..j - 1];
    }
  }

  /** Numbering by type gives every block its own key. */
  lemma NumberedDistinct(blocks: seq<Block>)
    requires NumberedByType(blocks)
    ensures DistinctKeys(blocks)
  {
    forall r, r' | 0 <= r < r' < |blocks| && blocks[r].kind == blocks[r'].kind
      ensures blocks[r].number != blocks[r'].number
    {
      CountPrefixGrows(blocks, r, r', blocks[r].kind);
    }
  }

  /** No block of type `t` has a number beyond the one the counter would give next. */
  lemma NumbersBelowCount(blocks: seq<Block>, r: nat)
    requires NumberedByType(blocks) && r < |blocks|
    ensures blocks[r].number + 1 <= CountKind(blocks, blocks[r].kind) + (if blocks[r].kind == blocks[0].kind then 0 else 1)
  {
    CountPrefixGrows(blocks, r, |blocks|, blocks[r].kind);
    assert blocks[..|blocks|] == blocks;
  }

  lemma TaggedSnoc(blocks: seq<Block>, b: Block)
    ensures Tagged(blocks + [b]) == Tagged(blocks) + Tag(b)
  {
    assert (blocks + [b])[..|blocks|] == blocks;
  }

  lemma TagAppend(b: Block, line: string)
    ensures Tag(b.(lines := b.lines + [line])) == Tag(b) + [Emitted(b.kind, line)]
  {
  }

  lemma CountSnoc(bs: seq<Block>, nb: Block, t: LineType)
    ensures CountKind(bs + [nb], t) == CountKind(bs, t) + (if nb.kind == t then 1 else 0)
  {
    assert (bs + [nb])[..|bs|] == bs;
  }

  /** `bs` with `line` appended to the lines of its last block. */
  function GrowLast(bs: seq<Block>, line: string): seq<Block>
    requires bs != []
  {
    bs[|bs| - 1 := bs[|bs| - 1].(lines := bs[|bs| - 1].lines + [line])]
  }

  lemma AppendAssoc<T>(a: seq<T>, b: seq<T>, c: seq<T>)
    ensures a + (b + c) == a + b + c
  {
  }

  lemma GrowLastTagged(bs: seq<Block>, line: string)
    requires bs != []
    ensures Tagged(GrowLast(bs, line)) == Tagged(bs) + [Emitted(bs[|bs| - 1].kind, line)]
  {
    var n := |bs|;
    var front := bs[..n - 1];
    var last := bs[n - 1];
    var em := Emitted(last.kind, line);
    var grown := last.(lines := last.lines + [line]);
    calc {
      Tagged(GrowLast(bs, line));
      { assert GrowLast(bs, line)[..n - 1] == front; }
      Tagged(front) + Tag(grown);
      { TagAppend(last, line); }
      Tagged(front) + (Tag(last) + [em]);
      { AppendAssoc(Tagged(front), Tag(last), [em]); }
      Tagged(front) + Tag(last) + [em];
      Tagged(bs) + [em];
    }
  }

  /** Growing the last block changes the count of no prefix. */
  lemma {:induction false} GrowLastCounts(bs: seq<Block>, line: string, i: nat, t: LineType)
    requires bs != [] && i <= |bs|
    ensures CountKind(GrowLast(bs, line)[..i], t) == CountKind(bs[..i], t)
  {
    if i > 0 {
      GrowLastCounts(bs, line, i - 1, t);
      assert GrowLast(bs, line)[..i][..i - 1] == GrowLast(bs, line)[..i - 1];
      assert bs[..i][..i - 1] == bs[..i - 1];
    }
  }

  lemma GrowLastShape(bs: seq<Block>, line: string)
    requires bs != [] && MaximalRuns(bs) && NumberedByType(bs)
    ensures MaximalRuns(GrowLast(bs, line)) && NumberedByType(GrowLast(bs, line))
    ensures CountKind(GrowLast(bs, line), User) == CountKind(bs, User)
    ensures CountKind(GrowLast(bs, line), Vendor) == CountKind(bs, Vendor)
  {
    var bs' := GrowLast(bs, line);
    forall r | 0 <= r < |bs|
      ensures bs'[r].number == CountKind(bs'[..r], bs'[r].kind) + (if bs'[r].kind == bs'[0].kind then 0 else 1)
    {
      GrowLastCounts(bs, line, r, bs[r].kind);
    }
    GrowLastCounts(bs, line, |bs|, User);
    GrowLastCounts(bs, line, |bs|, Vendor);
    assert bs'[..|bs|] == bs' && bs[..|bs|] == bs;
  }

  /** A kept line whose type is that of the last block goes to the end of that block. */
  lemma StepSameType(g: Grouping, items: seq<Emitted>, e: Emitted)
    requires GroupInv(g, items) && g.saved == Some(e.kind)
    ensures GroupInv(Step(g, e), items + [e])
  {
    var bs := g.blocks;
    var k := e.kind;
    var bs' := GrowLast(bs, e.html);
    assert AddLineToBlock(bs, k, e.html, g.counters.Get(k)) == bs' by {
      LastBlockHasKey(g, items, k);
      NumberedDistinct(bs);
    }
    assert Step(g, e) == Grouping(g.counters, Some(k), bs');
    assert Tagged(bs') == items + [e] by {
      GrowLastTagged(bs, e.html);
      assert e == Emitted(k, e.html);
    }
    GrowLastShape(bs, e.html);
    assert bs'[0].kind == bs[0].kind && bs'[|bs'| - 1].kind == k;
  }

  /** When the last kept line had type `k`, the last block is the one with key `(k, counter)`. */
  lemma LastBlockHasKey(g: Grouping, items: seq<Emitted>, k: LineType)
    requires GroupInv(g, items) && g.saved == Some(k)
    ensures HasKey(g.blocks[|g.blocks| - 1], k, g.counters.Get(k))
  {
    var bs := g.blocks;
    var n := |bs|;
    assert bs[n - 1].number == CountKind(bs[..n - 1], k) + (if k == bs[0].kind then 0 else 1);
  }

  /** A kept line of the other type (or the first kept line) opens a new block. */
  lemma StepNewType(g: Grouping, items: seq<Emitted>, e: Emitted)
    requires GroupInv(g, items) && g.saved != Some(e.kind)
    ensures GroupInv(Step(g, e), items + [e])
  {
    var bs := g.blocks;
    var k := e.kind;
    var counters := if g.saved.Some? then g.counters.Inc(k) else g.counters;
    var num := counters.Get(k);
    var nb := Block(k, num, [e.html]);
    NewTypeCounters(g, items, k, counters, nb);
    assert AddLineToBlock(bs, k, e.html, num) == bs + [nb] by {
      NextKeyIsNew(bs, k, num);
    }
    assert Step(g, e) == Grouping(counters, Some(k), bs + [nb]);
    assert Tagged(bs + [nb]) == items + [e] by {
      TaggedSnoc(bs, nb);
      assert Tag(nb) == [Emitted(k, e.html)];
      assert e == Emitted(k, e.html);
    }
    AppendBlockShape(bs, nb);
    NewGroupInv(Grouping(counters, Some(k), bs + [nb]), items + [e]);
  }

  /** The counters after a change of type: the new block's number and the new totals. */
  lemma NewTypeCounters(g: Grouping, items: seq<Emitted>, k: LineType, c: Counters, nb: Block)
    requires GroupInv(g, items) && g.saved != Some(k)
    requires c == (if g.saved.Some? then g.counters.Inc(k) else g.counters)
    requires nb.kind == k && nb.number == c.Get(k)
    ensures nb.number == CountKind(g.blocks, k) + (if g.blocks != [] && k != g.blocks[0].kind then 1 else 0)
    ensures c.Get(User) + (if (g.blocks + [nb])[0].kind == User then 1 else 0) == CountKind(g.blocks + [nb], User)
    ensures c.Get(Vendor) + (if (g.blocks + [nb])[0].kind == Vendor then 1 else 0) == CountKind(g.blocks + [nb], Vendor)
  {
    CountSnoc(g.blocks, nb, User);
    CountSnoc(g.blocks, nb, Vendor);
    if g.blocks != [] {
      assert (g.blocks + [nb])[0] == g.blocks[0];
    } else {
      assert (g.blocks + [nb])[0] == nb;
    }
  }

  /** The invariant from its parts, for a state with at least one block. */
  lemma NewGroupInv(g: Grouping, items: seq<Emitted>)
    requires g.blocks != [] && Tagged(g.blocks) == items
    requires MaximalRuns(g.blocks) && NumberedByType(g.blocks)
    requires g.saved == Some(g.blocks[|g.blocks| - 1].kind)
    requires g.counters.Get(User) + (if g.blocks[0].kind == User then 1 else 0) == CountKind(g.blocks, User)
    requires g.counters.Get(Vendor) + (if g.blocks[0].kind == Vendor then 1 else 0) == CountKind(g.blocks, Vendor)
    ensures GroupInv(g, items)
  {
  }

  /** A number past every used number of a type is not a key yet. */
  lemma NextKeyIsNew(bs: seq<Block>, k: LineType, num: nat)
    requires NumberedByType(bs)
    requires num == CountKind(bs, k) + (if bs != [] && k != bs[0].kind then 1 else 0)
    ensures forall j :: 0 <= j < |bs| ==> !HasKey(bs[j], k, num)
  {
    forall j | 0 <= j < |bs| && bs[j].kind == k
      ensures bs[j].number != num
    {
      NumbersBelowCount(bs, j);
    }
  }

  /**
   * A block of a new type, numbered by the count of its type so far, keeps the blocks
   * maximal runs and numbered by type.
   */
  lemma AppendBlockShape(bs: seq<Block>, nb: Block)
    requires MaximalRuns(bs) && NumberedByType(bs) && |nb.lines| > 0
    requires bs != [] ==> bs[|bs| - 1].kind != nb.kind
    requires nb.number == CountKind(bs, nb.kind) + (if bs != [] && nb.kind != bs[0].kind then 1 else 0)
    ensures MaximalRuns(bs + [nb]) && NumberedByType(bs + [nb])
  {
    AppendBlockRuns(bs, nb);
    AppendBlockNumbered(bs, nb);
  }

  lemma AppendBlockRuns(bs: seq<Block>, nb: Block)
    requires MaximalRuns(bs) && |nb.lines| > 0
    requires bs != [] ==> bs[|bs| - 1].kind != nb.kind
    ensures MaximalRuns(bs + [nb])
  {
  }

  lemma AppendBlockNumbered(bs: seq<Block>, nb: Block)
    requires NumberedByType(bs)
    requires nb.number == CountKind(bs, nb.kind) + (if bs != [] && nb.kind != bs[0].kind then 1 else 0)
    ensures NumberedByType(bs + [nb])
  {
    var bs' := bs + [nb];
    var n := |bs|;
    forall r | 0 <= r < |bs'|
      ensures bs'[r].number == CountKind(bs'[..r], bs'[r].kind) + (if bs'[r].kind == bs'[0].kind then 0 else 1)
    {
      if r < n {
        assert bs'[..r] == bs[..r];
        assert bs'[r] == bs[r];
      } else {
        assert bs'[..r] == bs;
      }
    }
  }

  lemma SnocSplit<T>(s: seq<T>)
    requires s != []
    ensures s[..|s| - 1] + [s[|s| - 1]] == s
  {
  }

  /** The grouping invariant holds after every prefix of the kept lines. */
  lemma {:induction false} GroupKeepsInv(items: seq<Emitted>)
    ensures GroupInv(Group(items), items)
    decreases |items|
  {
    if items != [] {
      var front := items[..|items| - 1];
      var e := items[|items| - 1];
      GroupKeepsInv(front);
      SnocSplit(items);
      if Group(front).saved == Some(e.kind) {
        StepSameType(Group(front), front, e);
      } else {
        StepNewType(Group(front), front, e);
      }
    }
  }

  /**
   * The blocks are the maximal runs of same-type kept lines, in order, each line once;
   * they are numbered per type as `NumberedByType` says, so no key repeats.
   */
  lemma BlocksAreRuns(items: seq<Emitted>)
    ensures var blocks := Group(items).blocks;
      Tagged(blocks) == items && MaximalRuns(blocks) && NumberedByType(blocks) && DistinctKeys(blocks)
  {
    GroupKeepsInv(items);
    NumberedDistinct(Group(items).blocks);
  }

  // ---------------------------------------------------------------------------
  // Rendering the blocks (the `$html_output .= ...` loop)
  // ---------------------------------------------------------------------------

  /** One `.=` of the rendering loop: fixed markup, a list item, or the "show more" toggle. */
  datatype Piece = Markup(text: string) | Item(line: string) | Toggle(kind: LineType, number: nat, more: nat)

  const ToggleArrow: string := "\U{00E2}\U{2020}\U{201C}"

  function PieceText(p: Piece): string {
    match p
    case Markup(text) => text
    case Item(line) => "<li>" + line + "</li>"
    case Toggle(kind, number, more) =>
      "<div class=\"toggle-block\" data-type=\"" + TypeName(kind) + "\" data-number=\"" + NatToString(number)
      + "\">Show " + NatToString(more) + " more " + ToggleArrow + "</div>"
  }

  /** The text the pieces add up to. */
  function Html(ps: seq<Piece>): string {
    if ps == [] then [] else Html(ps[..|ps| - 1]) + PieceText(ps[|ps| - 1])
  }

  lemma HtmlSnoc(ps: seq<Piece>, p: Piece)
    ensures Html(ps + [p]) == Html(ps) + PieceText(p)
  {
    assert (ps + [p])[..|ps|] == ps;
  }

  function Items(lines: seq<string>): (ps: seq<Piece>)
    ensures |ps| == |lines| && forall k :: 0 <= k < |ps| ==> ps[k] == Item(lines[k])
  {
    if lines == [] then [] else Items(lines[..|lines| - 1]) + [Item(lines[|lines| - 1])]
  }

  lemma ItemsSnoc(lines: seq<string>, j: nat)
    requires j < |lines|
    ensures Items(lines[..j + 1]) == Items(lines[..j]) + [Item(lines[j])]
  {
    assert lines[..j + 1][..j] == lines[..j];
  }

  const UserListOpen: string := "<ul class=\"stack-trace user\">"
  const VendorListOpen: string := "<ul class=\"stack-trace vendor\">"
  const ListClose: string := "</ul>"

  function HiddenListOpen(kind: LineType, number: nat): string {
    "<ul class=\"stack-trace vendor hidden\" data-type=\"" + TypeName(kind) + "\" data-number=\"" + NatToString(number) + "\">"
  }

  /** A flat list: the opening tag, one item per line, the closing tag. */
  function FlatPieces(open: string, lines: seq<string>): seq<Piece> {
    [Markup(open)] + Items(lines) + [Markup(ListClose)]
  }

  /** A collapsed vendor block before its hidden lines: the first line, the toggle, the hidden list's opening tag. */
  function CollapsedHead(b: Block): seq<Piece>
    requires |b.lines| > 0
  {
    [Markup(VendorListOpen)] + [Item(b.lines[0])] + [Markup(ListClose)]
    + [Toggle(b.kind, b.number, |b.lines| - 1)] + [Markup(HiddenListOpen(b.kind, b.number))]
  }

  /**
   * One block: user blocks and vendor blocks of fewer than three lines are flat lists; a
   * longer vendor block shows its first line, a toggle, and a hidden list of the rest.
   */
  function BlockPieces(b: Block): (r: seq<Piece>)
    ensures |r| >= 2 && r[|r| - 1] == Markup(ListClose)
    ensures r[0] == Markup(if b.kind == User then UserListOpen else VendorListOpen)
  {
    match b.kind
    case User => FlatPieces(UserListOpen, b.lines)
    case Vendor =>
      if |b.lines| < 3 then FlatPieces(VendorListOpen, b.lines)
      else CollapsedHead(b) + Items(b.lines[1..]) + [Markup(ListClose)]
  }

  /** All blocks, in creation order. */
  function RenderPieces(blocks: seq<Block>): (r: seq<Piece>)
    ensures r == [] <==> blocks == []
  {
    if blocks == [] then [] else RenderPieces(blocks[..|blocks| - 1]) + BlockPieces(blocks[|blocks| - 1])
  }

  /** The lines of the list items, in order. */
  function ItemsOf(ps: seq<Piece>): seq<string> {
    if ps == [] then []
    else ItemsOf(ps[..|ps| - 1]) + (if ps[|ps| - 1].Item? then [ps[|ps| - 1].line] else [])
  }

  /** The toggles, in order. */
  function TogglesOf(ps: seq<Piece>): seq<Piece> {
    if ps == [] then []
    else TogglesOf(ps[..|ps| - 1]) + (if ps[|ps| - 1].Toggle? then [ps[|ps| - 1]] else [])
  }

  lemma ItemsOfSnoc(ps: seq<Piece>, p: Piece)
    ensures ItemsOf(ps + [p]) == ItemsOf(ps) + (if p.Item? then [p.line] else [])
    ensures TogglesOf(ps + [p]) == TogglesOf(ps) + (if p.Toggle? then [p] else [])
  {
    assert (ps + [p])[..|ps|] == ps;
  }

  lemma {:induction false} ItemsOfAppend(a: seq<Piece>, b: seq<Piece>)
    ensures ItemsOf(a + b) == ItemsOf(a) + ItemsOf(b)
    ensures TogglesOf(a + b) == TogglesOf(a) + TogglesOf(b)
    decreases |b|
  {
    if b == [] {
      assert a + b == a;
    } else {
      var b' := b[..|b| - 1];
      var p := b[|b| - 1];
      assert a + b == (a + b') + [p];
      ItemsOfSnoc(a + b', p);
      ItemsOfSnoc(b', p);
      ItemsOfAppend(a, b');
    }
  }

  lemma {:induction false} ItemsOfItems(lines: seq<string>)
    ensures ItemsOf(Items(lines)) == lines
    ensures TogglesOf(Items(lines)) == []
    decreases |lines|
  {
    if lines != [] {
      var front := lines[..|lines| - 1];
      ItemsOfSnoc(Items(front), Item(lines[|lines| - 1]));
      ItemsOfItems(front);
    }
  }

  lemma {:induction false} HtmlAppend(a: seq<Piece>, b: seq<Piece>)
    ensures Html(a + b) == Html(a) + Html(b)
    decreases |b|
  {
    if b == [] {
      assert a + b == a;
    } else {
      var b' := b[..|b| - 1];
      var p := b[|b| - 1];
      assert a + b == (a + b') + [p];
      HtmlSnoc(a + b', p);
      HtmlSnoc(b', p);
      HtmlAppend(a, b');
      AppendAssoc(Html(a), Html(b'), PieceText(p));
    }
  }

  lemma FlatRendering(open: string, lines: seq<string>)
    ensures ItemsOf(FlatPieces(open, lines)) == lines
    ensures TogglesOf(FlatPieces(open, lines)) == []
  {
    ItemsOfSnoc([Markup(open)] + Items(lines), Markup(ListClose));
    ItemsOfAppend([Markup(open)], Items(lines));
    ItemsOfSnoc([], Markup(open));
    assert [] + [Markup(open)] == [Markup(open)];
    ItemsOfItems(lines);
  }

  lemma CollapsedHeadRendering(b: Block)
    requires |b.lines| > 0
    ensures ItemsOf(CollapsedHead(b)) == [b.lines[0]]
    ensures TogglesOf(CollapsedHead(b)) == [Toggle(b.kind, b.number, |b.lines| - 1)]
  {
    var a := Markup(VendorListOpen);
    var i := Item(b.lines[0]);
    var c := Markup(ListClose);
    var t := Toggle(b.kind, b.number, |b.lines| - 1);
    var h := Markup(HiddenListOpen(b.kind, b.number));
    ItemsOfSnoc([], a);
    assert [] + [a] == [a];
    ItemsOfSnoc([a], i);
    ItemsOfSnoc([a] + [i], c);
    ItemsOfSnoc([a] + [i] + [c], t);
    ItemsOfSnoc([a] + [i] + [c] + [t], h);
  }

  lemma CollapsedRendering(b: Block)
    requires |b.lines| > 0
    ensures ItemsOf(CollapsedHead(b) + Items(b.lines[1..]) + [Markup(ListClose)]) == b.lines
    ensures TogglesOf(CollapsedHead(b) + Items(b.lines[1..]) + [Markup(ListClose)])
      == [Toggle(b.kind, b.number, |b.lines| - 1)]
  {
    ClosedList(CollapsedHead(b), Items(b.lines[1..]));
    CollapsedHeadRendering(b);
    ItemsOfItems(b.lines[1..]);
    assert [b.lines[0]] + b.lines[1..] == b.lines;
  }

  /** A closing tag after `head + mid` adds no item and no toggle. */
  lemma ClosedList(head: seq<Piece>, mid: seq<Piece>)
    ensures ItemsOf(head + mid + [Markup(ListClose)]) == ItemsOf(head) + ItemsOf(mid)
    ensures TogglesOf(head + mid + [Markup(ListClose)]) == TogglesOf(head) + TogglesOf(mid)
  {
    ItemsOfSnoc(head + mid, Markup(ListClose));
    ItemsOfAppend(head, mid);
  }

  /**
   * The collapse threshold: a block has a toggle exactly when it is a vendor block of three
   * or more lines, and that toggle announces the remaining `n - 1` lines with the block's
   * type and number. Every line of the block is a list item, in order.
   */
  lemma BlockRendering(b: Block)
    ensures ItemsOf(BlockPieces(b)) == b.lines
    ensures TogglesOf(BlockPieces(b)) ==
      if b.kind == Vendor && |b.lines| >= 3 then [Toggle(Vendor, b.number, |b.lines| - 1)] else []
  {
    if b.kind == User {
      FlatRendering(UserListOpen, b.lines);
    } else if |b.lines| < 3 {
      FlatRendering(VendorListOpen, b.lines);
    } else {
      CollapsedRendering(b);
    }
  }

  /**
   * In a collapsed block the first line is shown before the toggle, and the hidden list
   * that follows the toggle, right after its opening tag, holds the remaining lines.
   */
  lemma CollapsedLayout(b: Block)
    requires b.kind == Vendor && |b.lines| >= 3
    ensures BlockPieces(b)[3] == Toggle(Vendor, b.number, |b.lines| - 1)
    ensures BlockPieces(b)[4] == Markup(HiddenListOpen(Vendor, b.number))
    ensures ItemsOf(BlockPieces(b)[..3]) == [b.lines[0]]
    ensures ItemsOf(BlockPieces(b)[5..]) == b.lines[1..]
  {
    var ps := BlockPieces(b);
    assert ps == CollapsedHead(b) + (Items(b.lines[1..]) + [Markup(ListClose)]);
    ShownItems(b, ps);
    HiddenItems(b, ps);
  }

  lemma ShownItems(b: Block, ps: seq<Piece>)
    requires |b.lines| >= 3 && ps == CollapsedHead(b) + (Items(b.lines[1..]) + [Markup(ListClose)])
    ensures ps[3] == Toggle(b.kind, b.number, |b.lines| - 1)
    ensures ps[4] == Markup(HiddenListOpen(b.kind, b.number))
    ensures ItemsOf(ps[..3]) == [b.lines[0]]
  {
    var a := Markup(VendorListOpen);
    var i := Item(b.lines[0]);
    var c := Markup(ListClose);
    assert |CollapsedHead(b)| == 5;
    assert ps[..3] == [a] + [i] + [c];
    ItemsOfSnoc([], a);
    assert [] + [a] == [a];
    ItemsOfSnoc([a], i);
    ItemsOfSnoc([a] + [i], c);
  }

  lemma HiddenItems(b: Block, ps: seq<Piece>)
    requires |b.lines| >= 3 && ps == CollapsedHead(b) + (Items(b.lines[1..]) + [Markup(ListClose)])
    ensures ItemsOf(ps[5..]) == b.lines[1..]
  {
    assert |CollapsedHead(b)| == 5;
    assert ps[5..] == Items(b.lines[1..]) + [Markup(ListClose)];
    ItemsOfSnoc(Items(b.lines[1..]), Markup(ListClose));
    ItemsOfItems(b.lines[1..]);
  }

  function Htmls(es: seq<Emitted>): (hs: seq<string>)
    ensures |hs| == |es| && forall k :: 0 <= k < |es| ==> hs[k] == es[k].html
  {
    if es == [] then [] else Htmls(es[..|es| - 1]) + [es[|es| - 1].html]
  }

  lemma {:induction false} HtmlsAppend(a: seq<Emitted>, b: seq<Emitted>)
    ensures Htmls(a + b) == Htmls(a) + Htmls(b)
    decreases |b|
  {
    if b == [] {
      assert a + b == a;
    } else {
      var b' := b[..|b| - 1];
      var e := b[|b| - 1];
      assert a + b == (a + b') + [e];
      assert (a + b')+ [e] != [];
      assert ((a + b') + [e])[..|a + b'|] == a + b';
      HtmlsAppend(a, b');
      AppendAssoc(Htmls(a), Htmls(b'), [e.html]);
    }
  }

  lemma HtmlsTag(b: Block)
    ensures Htmls(Tag(b)) == b.lines
  {
  }

  /** The list items of the rendering are the blocks' lines, block after block. */
  lemma {:induction false} RenderItems(blocks: seq<Block>)
    ensures ItemsOf(RenderPieces(blocks)) == Htmls(Tagged(blocks))
    decreases |blocks|
  {
    if blocks != [] {
      var front := blocks[..|blocks| - 1];
      var b := blocks[|blocks| - 1];
      calc {
        ItemsOf(RenderPieces(blocks));
        ItemsOf(RenderPieces(front) + BlockPieces(b));
        { ItemsOfAppend(RenderPieces(front), BlockPieces(b)); }
        ItemsOf(RenderPieces(front)) + ItemsOf(BlockPieces(b));
        { RenderItems(front); BlockRendering(b); }
        Htmls(Tagged(front)) + b.lines;
        { HtmlsTag(b); }
        Htmls(Tagged(front)) + Htmls(Tag(b));
        { HtmlsAppend(Tagged(front), Tag(b)); }
        Htmls(Tagged(front) + Tag(b));
        Htmls(Tagged(blocks));
      }
    }
  }

  /**
   * Every kept frame line is rendered as a list item exactly once, in input order (and
   * nothing else is a list item).
   */
  lemma RenderCoversKept(lines: seq<string>, root: string)
    ensures ItemsOf(RenderPieces(Group(Kept(lines, root)).blocks)) == Htmls(Kept(lines, root))
  {
    BlocksAreRuns(Kept(lines, root));
    RenderItems(Group(Kept(lines, root)).blocks);
  }

  // ---------------------------------------------------------------------------
  // formatStackTrace
  // ---------------------------------------------------------------------------

  /**
   * The formatter as a whole: the prepared input when it has no `exception`; otherwise the
   * text of pieces whose list items are the kept frames of the exception, in order.
   */
  function StackTraceHtml(stackTrace: string, root: string, decode: string -> Option<string>): (r: string)
    ensures decode(PrepareJson(stackTrace)).Some? ==>
      exists ps :: r == Html(ps) && ItemsOf(ps) == Htmls(Kept(SplitStackIntoLines(decode(PrepareJson(stackTrace)).value), root))
  {
    var prepared := PrepareJson(stackTrace);
    match decode(prepared)
    case None => prepared
    case Some(exception) =>
      var lines := SplitStackIntoLines(exception);
      var ps := RenderPieces(Group(Kept(lines, root)).blocks);
      RenderCoversKept(lines, root);
      Html(ps)
  }

  /** Without an `exception` property the prepared input comes back: no line feed left in it. */
  lemma NoExceptionPassesThrough(stackTrace: string, root: string, decode: string -> Option<string>)
    requires decode(PrepareJson(stackTrace)).None?
    ensures StackTraceHtml(stackTrace, root, decode) == PrepareJson(stackTrace)
    ensures '\n' !in StackTraceHtml(stackTrace, root, decode)
    ensures |StackTraceHtml(stackTrace, root, decode)| == |stackTrace| + CountChar(stackTrace, '\n')
  {
  }

  lemma GroupSnoc(items: seq<Emitted>, e: Emitted)
    ensures Group(items + [e]) == Step(Group(items), e)
  {
    assert (items + [e])[..|items|] == items;
  }

  /** The first line, and a later line that contributes nothing, leave the kept lines as they were. */
  lemma KeptSkip(lines: seq<string>, n: nat, root: string)
    requires n < |lines| && (n == 0 || LineEmission(lines[n], root).None?)
    ensures Kept(lines[..n + 1], root) == Kept(lines[..n], root)
  {
    if n == 0 {
      assert lines[..1][1..] == [];
    } else {
      var s := lines[..n + 1][1..];
      assert s[..|s| - 1] == lines[..n][1..];
      assert Emissions(s, root) == Emissions(lines[..n][1..], root) + [];
    }
  }

  /** A later line that contributes `e` adds `e` to the kept lines. */
  lemma KeptEmit(lines: seq<string>, n: nat, root: string, e: Emitted)
    requires 0 < n < |lines| && LineEmission(lines[n], root) == Some(e)
    ensures Group(Kept(lines[..n + 1], root)) == Step(Group(Kept(lines[..n], root)), e)
  {
    KeptGrows(lines, n, root, e);
    GroupSnoc(Kept(lines[..n], root), e);
  }

  lemma KeptGrows(lines: seq<string>, n: nat, root: string, e: Emitted)
    requires 0 < n < |lines| && LineEmission(lines[n], root) == Some(e)
    ensures Kept(lines[..n + 1], root) == Kept(lines[..n], root) + [e]
  {
    var s := lines[..n + 1][1..];
    assert s[..|s| - 1] == lines[..n][1..];
    assert s[|s| - 1] == lines[n];
  }

  /** `formatStackTrace`. */
  method FormatStackTrace(stackTrace: string, root: string, decode: string -> Option<string>) returns (html: string)
    ensures html == StackTraceHtml(stackTrace, root, decode)
  {
    var prepared := PrepareJson(stackTrace);
    var jsonData := decode(prepared);
    if jsonData.None? {
      return prepared;
    }
    var stackLines := SplitStackIntoLines(jsonData.value);
    var output: seq<Block> := [];
    var blockCounters := Counters(0, 0);
    var saveBlock: Option<LineType> := None;
    var lineType := Vendor;
    for lineNumber := 0 to |stackLines|
      invariant Group(Kept(stackLines[..lineNumber], root)) == Grouping(blockCounters, saveBlock, output)
    {
      var stackLine := stackLines[lineNumber];
      if stackLine == StackTraceMarker {
        KeptSkip(stackLines, lineNumber, root);
        continue;
      }
      stackLine := StripDocumentRoot(stackLine, root);
      if lineNumber == 0 {
        lineType := User;
        KeptSkip(stackLines, lineNumber, root);
        continue;
      }
      var frame := SplitStackLine(stackLine);
      if frame.internal != "" {
        lineType := User;
        stackLine := InternalFrameHtml(frame.code);
      } else {
        if PhpFalsy(frame.lineNumber) {
          KeptSkip(stackLines, lineNumber, root);
          continue;
        }
        lineType := DetectStackLineType(frame.fileName);
        stackLine := FileFrameHtml(lineType, frame);
      }
      KeptEmit(stackLines, lineNumber, root, Emitted(lineType, stackLine));
      if saveBlock.Some? && saveBlock.value != lineType {
        blockCounters := blockCounters.Inc(lineType);
      }
      saveBlock := Some(lineType);
      output := AddLineToBlock(output, lineType, stackLine, blockCounters.Get(lineType));
    }
    assert stackLines[..|stackLines|] == stackLines;
    html := RenderBlocks(output);
  }

  /** The rendering loop of `formatStackTrace`, over the blocks in creation order. */
  method RenderBlocks(output: seq<Block>) returns (htmlOutput: string)
    ensures htmlOutput == Html(RenderPieces(output))
  {
    htmlOutput := "";
    for bi := 0 to |output|
      invariant htmlOutput == Html(RenderPieces(output[..bi]))
    {
      var block := output[bi];
      var blockHtml := RenderBlock(block);
      RenderStep(output, bi);
      htmlOutput := htmlOutput + blockHtml;
    }
    assert output[..|output|] == output;
  }

  /** Rendering one more block appends that block's html. */
  lemma RenderStep(output: seq<Block>, bi: nat)
    requires bi < |output|
    ensures Html(RenderPieces(output[..bi + 1])) == Html(RenderPieces(output[..bi])) + Html(BlockPieces(output[bi]))
  {
    assert output[..bi + 1][..bi] == output[..bi];
    HtmlAppend(RenderPieces(output[..bi]), BlockPieces(output[bi]));
  }

  /** One more `<li>` after `pre` and the items of `lines[..j]`. */
  lemma HtmlItemsStep(pre: seq<Piece>, lines: seq<string>, j: nat)
    requires j < |lines|
    ensures Html(pre + Items(lines[..j + 1])) == Html(pre + Items(lines[..j])) + PieceText(Item(lines[j]))
  {
    ItemsSnoc(lines, j);
    AppendAssoc(pre, Items(lines[..j]), [Item(lines[j])]);
    HtmlSnoc(pre + Items(lines[..j]), Item(lines[j]));
  }

  /** The closing tag after `pre` and the items of `lines`. */
  lemma HtmlClose(pre: seq<Piece>, lines: seq<string>)
    ensures Html(pre + Items(lines) + [Markup(ListClose)]) == Html(pre + Items(lines[..|lines|])) + ListClose
  {
    assert lines[..|lines|] == lines;
    HtmlSnoc(pre + Items(lines), Markup(ListClose));
  }

  lemma HtmlOne(p: Piece)
    ensures Html([p]) == PieceText(p)
  {
    HtmlSnoc([], p);
    assert [] + [p] == [p];
  }

  lemma HtmlNoItems(pre: seq<Piece>, lines: seq<string>)
    ensures Html(pre + Items(lines[..0])) == Html(pre)
  {
    assert pre + Items(lines[..0]) == pre;
  }

  lemma CollapsedHeadHtml(b: Block)
    requires |b.lines| > 0
    ensures Html(CollapsedHead(b)) ==
      VendorListOpen + PieceText(Item(b.lines[0])) + ListClose
      + PieceText(Toggle(b.kind, b.number, |b.lines| - 1)) + HiddenListOpen(b.kind, b.number)
  {
    var a := Markup(VendorListOpen);
    var i := Item(b.lines[0]);
    var c := Markup(ListClose);
    var t := Toggle(b.kind, b.number, |b.lines| - 1);
    HtmlOne(a);
    HtmlSnoc([a], i);
    HtmlSnoc([a] + [i], c);
    HtmlSnoc([a] + [i] + [c], t);
    HtmlSnoc([a] + [i] + [c] + [t], Markup(HiddenListOpen(b.kind, b.number)));
  }

  /** The `.=` steps of one block: the text of `BlockPieces(block)`. */
  method RenderBlock(block: Block) returns (html: string)
    ensures html == Html(BlockPieces(block))
  {
    match block.kind {
      case User =>
        html := RenderFlat(UserListOpen, block.lines);
      case Vendor =>
        var lineCount := |block.lines|;
        if lineCount < 3 {
          html := RenderFlat(VendorListOpen, block.lines);
        } else {
          html := RenderCollapsed(block);
        }
    }
  }

  /** A flat list: the opening tag, one `<li>` per line, the closing tag. */
  method RenderFlat(open: string, lines: seq<string>) returns (html: string)
    ensures html == Html(FlatPieces(open, lines))
  {
    html := open;
    HtmlOne(Markup(open));
    HtmlNoItems([Markup(open)], lines);
    for j := 0 to |lines|
      invariant html == Html([Markup(open)] + Items(lines[..j]))
    {
      var item := "<li>" + lines[j] + "</li>";
      HtmlItemsStep([Markup(open)], lines, j);
      html := html + item;
    }
    HtmlClose([Markup(open)], lines);
    html := html + ListClose;
  }

  /** A vendor block of three or more lines: the first line, the toggle, the hidden rest. */
  method RenderCollapsed(block: Block) returns (html: string)
    requires |block.lines| >= 3
    ensures html == Html(CollapsedHead(block) + Items(block.lines[1..]) + [Markup(ListClose)])
  {
    var lineCount := |block.lines|;
    ghost var rest := block.lines[1..];
    html := VendorListOpen;
    var item := "<li>" + block.lines[0] + "</li>";
    html := html + item;
    html := html + ListClose;
    html := html + PieceText(Toggle(block.kind, block.number, lineCount - 1));
    html := html + HiddenListOpen(block.kind, block.number);
    CollapsedHeadHtml(block);
    HtmlNoItems(CollapsedHead(block), rest);
    for i := 1 to lineCount
      invariant html == Html(CollapsedHead(block) + Items(rest[..i - 1]))
    {
      item := "<li>" + block.lines[i] + "</li>";
      assert rest[i - 1] == block.lines[i];
      HtmlItemsStep(CollapsedHead(block), rest, i - 1);
      html := html + item;
    }
    HtmlClose(CollapsedHead(block), rest);
    html := html + ListClose;
  }
}
