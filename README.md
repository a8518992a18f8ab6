# laravel-log-viewer: the stack-trace formatter, entry normalisation and pattern catalogue in Dafny

This project models the core of the Laravel log viewer (`LaravelLogViewer.php` and
`Pattern.php`) and proves properties of the model.

- `StackTrace` (stacktrace.dfy): `formatStackTrace` turns the `exception` string of a
  log entry's JSON metadata into HTML. It splits the trace into lines and drops the
  `[stacktrace]` marker, the first line, lines that are not frames, and file frames whose
  line number is falsy. It classifies each frame as `user` or `vendor`, groups
  consecutive frames of one type into numbered blocks, and renders every block. A vendor
  block of three or more lines is collapsed behind a "Show n more" toggle.
  `FormatStackTrace` and `RenderBlocks` are imperative methods that follow the PHP loops.
  They are proved equal to the specification function `StackTraceHtml`. It is built from
  these parts:
  - `Kept`: the lines that reach a block.
  - `Group`: the counters, `$save_block` and the blocks after each kept line.
  - `RenderPieces` and `Html`: the `.=` steps of the rendering loop.

  The lemmas about these functions state the promises below.
  - Lines are conserved.
  - The blocks are the maximal runs of same-type lines, numbered per type, and no key repeats.
  - The collapse threshold is three lines.
  - Every kept frame is rendered exactly once, in input order.
- `Normalise` (normalise.dfy): `formatLogValue`, `formatLogDate`, `formatLogLevel`,
  `stripDocumentRootFromText` and `formatText`.
- `Pattern` (pattern.dfy):
  - the registered patterns and their lookup by name (`all`, `getPattern`);
  - hand-written recognisers for the `stack_line` frame grammar, the `files`
    brace-glob detector and the datetime group;
  - the message and metadata boundaries of `log_entry`.

  The `stack_line` recogniser follows PCRE's search and backtracking order. It finds the
  leftmost match, `\s+` gives characters back one at a time, and the two alternatives are
  tried in order.
- `LogViewer` (logviewer.dfy): the body of `all()` once the file has been read. Each
  `log_entry` match, given as its five capture groups, becomes one entry, and the list is
  reversed. No match halts with `dd('die')`. The line-per-entry fallback after it is
  modelled on its own, together with the proof that it cannot run.
- `Strings` (strings.dfy): PHP's `trim` set, PCRE's `\s`, `\d` and `\w`, ASCII
  lower-casing, case-insensitive search, and decimal rendering.
- `Wrappers` (wrappers.dfy): `Option` and `Result`.

These are parameters of the model:
- `json_decode`: a function from the prepared text to the `exception` property, if it is set.
- `base_path()`: the application root.
- `$this->folder`: the folder.
- `Level::cssClass` and `Level::img`: functions.

Where the code and its documentation differ, the model follows the code:
- The first line of the split trace is never shown. Only the lines after it can become frames.
- `$save_block` is empty until the first kept frame, so that frame never moves a counter.
  The blocks of the first kept frame's type are therefore numbered 0, 1, 2, … and those
  of the other type 1, 2, 3, ….
- Without an `exception` property, the result is the text after `prepareJSON`, in which
  every line feed has become `\n`. It is not the raw input.
- `!$file_line_number` is PHP truthiness. Only `""` and `"0"` are falsy, so a line `00` is kept.
- The sentinel `[0, '', '', 0, '']` for a line that does not match is dropped by that
  same test. Its internal flag is empty and its line number is zero.
- On zero matches, `all()` halts through `dd('die')` (the `Failure(Die)` result). That
  makes the fallback unreachable.
- The `files` detector's `.` does not cross a line feed. The `{`, `,` and `}` must be on
  one line.
- The toggle text ends with the three characters `â†“` exactly as the source spells them.

## Model

File paths are relative to the repository root; `LaravelLogViewer.php` stands for
`src/Rap2hpoutre/LaravelLogViewer/LaravelLogViewer.php` and `Pattern.php` for
`src/Rap2hpoutre/LaravelLogViewer/Pattern.php` in the prose, while the table cites full paths.

| member | source | states |
|---|---|---|
| StackTrace.PrepareJson | src/Rap2hpoutre/LaravelLogViewer/LaravelLogViewer.php:54-58 | no line feed is left, the text grows by one character per line feed, and text without a line feed comes back unchanged |
| StackTrace.PrepareJsonChar | src/Rap2hpoutre/LaravelLogViewer/LaravelLogViewer.php:56 | a line feed becomes the two characters backslash and `n`; every other character is kept as it is |
| StackTrace.PrepareJsonAppend | src/Rap2hpoutre/LaravelLogViewer/LaravelLogViewer.php:56 | the replacement works character by character: preparing two texts joined is preparing each and joining the results |
| StackTrace.NoExceptionPassesThrough | src/Rap2hpoutre/LaravelLogViewer/LaravelLogViewer.php:171-175 | without an `exception` property the formatter returns the prepared text, which holds no line feed |
| StackTrace.DetectStackLineType | src/Rap2hpoutre/LaravelLogViewer/LaravelLogViewer.php:60-66 | `vendor` exactly when the file name contains `/vendor/` ignoring case, `user` exactly when it does not |
| StackTrace.Separator | src/Rap2hpoutre/LaravelLogViewer/LaravelLogViewer.php:73 | there is no separator exactly when there is no line feed; otherwise the first separator is a whitespace run that holds a line feed, has no line feed before it, and cannot be extended on either side |
| StackTrace.SplitStackIntoLines | src/Rap2hpoutre/LaravelLogViewer/LaravelLogViewer.php:71-74 | no piece is empty or holds a line feed; text without a line feed is one piece, or none when empty |
| StackTrace.SplitStartsAt | src/Rap2hpoutre/LaravelLogViewer/LaravelLogViewer.php:73 | text that starts with a non-whitespace character has its first piece start with that character |
| StackTrace.SplitPiecesTrimmed | src/Rap2hpoutre/LaravelLogViewer/LaravelLogViewer.php:73 | every piece is non-empty; every piece but the first starts, and every piece but the last ends, with a non-whitespace character |
| StackTrace.SplitKeepsVisible | src/Rap2hpoutre/LaravelLogViewer/LaravelLogViewer.php:73 | the pieces, joined, hold exactly the non-whitespace characters of the input, in order: splitting loses only whitespace |
| StackTrace.SplitStackLine | src/Rap2hpoutre/LaravelLogViewer/LaravelLogViewer.php:126-134 | the capture groups of the `stack_line` match, or the sentinel `[0, '', '', 0, '']` when nothing matches |
| StackTrace.SentinelDropped | src/Rap2hpoutre/LaravelLogViewer/LaravelLogViewer.php:133 | the sentinel contributes no block line |
| StackTrace.FrameEmission | src/Rap2hpoutre/LaravelLogViewer/LaravelLogViewer.php:194-204 | a frame is dropped exactly when its internal flag is empty and its line number is falsy; a kept internal frame is a `user` line whose text is the `user code-line` division around its code; a kept file frame is `vendor` exactly when its file name contains `/vendor/`, and its text is the file-name and code-line divisions of its type |
| StackTrace.LineEmission | src/Rap2hpoutre/LaravelLogViewer/LaravelLogViewer.php:185-204 | a line adds nothing to the blocks exactly when it is the marker, when `stack_line` does not match it once the root is stripped, or when it matches as a file frame with a falsy line number |
| StackTrace.Emissions | src/Rap2hpoutre/LaravelLogViewer/LaravelLogViewer.php:185-211 | at most one contribution per line |
| StackTrace.EmissionsAllSilent | src/Rap2hpoutre/LaravelLogViewer/LaravelLogViewer.php:185-204 | lines none of which contributes leave no block line |
| StackTrace.EmissionsAllKept | src/Rap2hpoutre/LaravelLogViewer/LaravelLogViewer.php:185-211 | when every line contributes, there is one contribution per line, contribution k coming from line k |
| StackTrace.Kept | src/Rap2hpoutre/LaravelLogViewer/LaravelLogViewer.php:185-211 | the first split line never contributes: fewer kept lines than split lines, and none for a single line |
| StackTrace.KeptIgnoresFirst | src/Rap2hpoutre/LaravelLogViewer/LaravelLogViewer.php:190-192 | the line at split index 0 never affects what is kept |
| StackTrace.KeptSkipsSilent | src/Rap2hpoutre/LaravelLogViewer/LaravelLogViewer.php:185-201 | removing a later line that contributes nothing leaves the kept lines unchanged; such lines never appear in the output |
| StackTrace.KeptSkipsMarker | src/Rap2hpoutre/LaravelLogViewer/LaravelLogViewer.php:186-188 | the `[stacktrace]` marker never reaches a block |
| StackTrace.EmissionsAppend | src/Rap2hpoutre/LaravelLogViewer/LaravelLogViewer.php:185-212 | each line is handled on its own: the contributions of two runs of lines add up |
| StackTrace.FindBlock | src/Rap2hpoutre/LaravelLogViewer/LaravelLogViewer.php:145 | the position of the block with the key, with no such block before it, or none exactly when no block has the key |
| StackTrace.AddLineToBlock | src/Rap2hpoutre/LaravelLogViewer/LaravelLogViewer.php:142-150 | a block is created, at the end, only when the key is absent; otherwise the line goes to the end of that block; every other block and the block order are unchanged |
| StackTrace.Step | src/Rap2hpoutre/LaravelLogViewer/LaravelLogViewer.php:207-211 | `$save_block` becomes the line's type; that type's counter moves on by one exactly when a different type was saved before; the other counter stays |
| StackTrace.Group | src/Rap2hpoutre/LaravelLogViewer/LaravelLogViewer.php:185-212 | after the kept lines, `$save_block` is unset exactly when there were none and is otherwise the type of the last one |
| StackTrace.NumberedDistinct | src/Rap2hpoutre/LaravelLogViewer/LaravelLogViewer.php:144 | blocks numbered per type never share a `type_number` key |
| StackTrace.NextKeyIsNew | src/Rap2hpoutre/LaravelLogViewer/LaravelLogViewer.php:207-211 | after a change of type the incremented counter names a key no block has yet |
| StackTrace.LastBlockHasKey | src/Rap2hpoutre/LaravelLogViewer/LaravelLogViewer.php:207-211 | while the type does not change, the counter still names the last block |
| StackTrace.StepSameType | src/Rap2hpoutre/LaravelLogViewer/LaravelLogViewer.php:207-211 | a line of the last line's type grows the last block and keeps the grouping invariant |
| StackTrace.StepNewType | src/Rap2hpoutre/LaravelLogViewer/LaravelLogViewer.php:207-211 | a line of the other type, or the first kept line, opens a new block and keeps the grouping invariant |
| StackTrace.GroupKeepsInv | src/Rap2hpoutre/LaravelLogViewer/LaravelLogViewer.php:179-184 | after any prefix of the kept lines, the blocks hold those lines; each counter plus one for the first block's type equals the number of blocks of that type; `$save_block` is the last line's type |
| StackTrace.BlocksAreRuns | src/Rap2hpoutre/LaravelLogViewer/LaravelLogViewer.php:207-211 | the blocks, read in order, are the kept lines; each block is one maximal run of same-type lines; the numbers run 0, 1, 2, … for the first type and 1, 2, 3, … for the other; no key repeats |
| StackTrace.BlockPieces | src/Rap2hpoutre/LaravelLogViewer/LaravelLogViewer.php:215-243 | each block opens with the `user` or `vendor` list tag of its type and ends with a closing list tag |
| StackTrace.RenderPieces | src/Rap2hpoutre/LaravelLogViewer/LaravelLogViewer.php:213-245 | the rendering has pieces exactly when there are blocks |
| StackTrace.BlockRendering | src/Rap2hpoutre/LaravelLogViewer/LaravelLogViewer.php:214-243 | every line of a block is one list item, in order; a block has a toggle exactly when it is a vendor block of three or more lines, announcing the other n-1 lines with the block's type and number |
| StackTrace.CollapsedLayout | src/Rap2hpoutre/LaravelLogViewer/LaravelLogViewer.php:231-241 | a collapsed block shows its first line before the toggle; the hidden list opens right after the toggle and holds the remaining lines |
| StackTrace.RenderItems | src/Rap2hpoutre/LaravelLogViewer/LaravelLogViewer.php:213-245 | the list items of the rendering are the blocks' lines, block after block in creation order |
| StackTrace.RenderCoversKept | src/Rap2hpoutre/LaravelLogViewer/LaravelLogViewer.php:185-245 | every kept frame is rendered as a list item exactly once, in input order, and nothing else is a list item |
| StackTrace.StackTraceHtml | src/Rap2hpoutre/LaravelLogViewer/LaravelLogViewer.php:169-246 | when the prepared input has an `exception`, the output is the text of pieces whose list items are exactly the kept frames of the exception, in input order |
| StackTrace.FormatStackTrace | src/Rap2hpoutre/LaravelLogViewer/LaravelLogViewer.php:169-246 | the two loops compute `StackTraceHtml`: the first keeps the counters, `$save_block` and blocks equal to the grouping of the lines kept so far, the second renders the blocks |
| StackTrace.RenderBlocks | src/Rap2hpoutre/LaravelLogViewer/LaravelLogViewer.php:213-245 | the `.=` loop produces the text of the blocks' pieces, block by block in creation order |
| StackTrace.RenderBlock | src/Rap2hpoutre/LaravelLogViewer/LaravelLogViewer.php:215-243 | the `switch` for one block appends exactly the text of that block's pieces |
| StackTrace.RenderFlat | src/Rap2hpoutre/LaravelLogViewer/LaravelLogViewer.php:217-221 | a flat list: the opening tag, one `<li>` per line, the closing tag |
| StackTrace.RenderCollapsed | src/Rap2hpoutre/LaravelLogViewer/LaravelLogViewer.php:232-240 | a collapsed vendor block: the first line, the toggle, and the hidden list of lines 1 to n-1 |
| Normalise.FormatLogValue | src/Rap2hpoutre/LaravelLogViewer/LaravelLogViewer.php:88-92 | the value with only trim characters cut from its ends, and neither end a trim character |
| Strings.Trim | src/Rap2hpoutre/LaravelLogViewer/LaravelLogViewer.php:88-92 | `trim`: only trim characters are cut, from the two ends, and neither end of the result is one |
| Normalise.FormatLogDate | src/Rap2hpoutre/LaravelLogViewer/LaravelLogViewer.php:79-83 | the date is trimmed exactly as `formatLogValue` trims, so neither end is a trim character |
| Normalise.FormatLogLevel | src/Rap2hpoutre/LaravelLogViewer/LaravelLogViewer.php:97-102 | the trimmed level lower-cased character by character: no upper-case letter, and no trim character at either end |
| Normalise.FormatLogLevelIdempotent | src/Rap2hpoutre/LaravelLogViewer/LaravelLogViewer.php:97-102 | normalising a level twice gives what normalising it once gives |
| Normalise.FormatLogLevelCaseBlind | src/Rap2hpoutre/LaravelLogViewer/LaravelLogViewer.php:97-102 | levels that agree after trimming and lower-casing normalise alike |
| Normalise.StripFrom | src/Rap2hpoutre/LaravelLogViewer/LaravelLogViewer.php:110 | the left-to-right removal of case-insensitive occurrences of a non-empty root never lengthens the text |
| Normalise.StripDocumentRoot | src/Rap2hpoutre/LaravelLogViewer/LaravelLogViewer.php:107-111 | removing the root never lengthens the text |
| Normalise.StripAbsent | src/Rap2hpoutre/LaravelLogViewer/LaravelLogViewer.php:107-111 | when the root does not occur (ignoring case), the text is returned unchanged |
| Normalise.StripUnchangedIff | src/Rap2hpoutre/LaravelLogViewer/LaravelLogViewer.php:107-111 | with a non-empty root, the text is unchanged exactly when the root does not occur in it |
| Normalise.StripShortens | src/Rap2hpoutre/LaravelLogViewer/LaravelLogViewer.php:107-111 | an occurrence of a non-empty root makes the result strictly shorter |
| Normalise.StripSplits | src/Rap2hpoutre/LaravelLogViewer/LaravelLogViewer.php:107-111 | text before the first occurrence is kept, that occurrence (in any letter case) is cut out, and removal resumes right after it |
| Normalise.FormatText | src/Rap2hpoutre/LaravelLogViewer/LaravelLogViewer.php:116-121 | the root-stripped text with only trim characters cut from its ends |
| Pattern.Lookup | src/Rap2hpoutre/LaravelLogViewer/Pattern.php:47-49 | a name is found exactly when it is registered, and what is found is its registered string |
| Pattern.Patterns | src/Rap2hpoutre/LaravelLogViewer/Pattern.php:22-29 | three patterns under three distinct names |
| Pattern.Names | src/Rap2hpoutre/LaravelLogViewer/Pattern.php:36 | `array_keys`: the names of the registry, one per entry, in order |
| Pattern.All | src/Rap2hpoutre/LaravelLogViewer/Pattern.php:34-37 | exactly `log_entry`, `files`, `stack_line`, in that order |
| Pattern.GetPattern | src/Rap2hpoutre/LaravelLogViewer/Pattern.php:44-50 | a result exactly for the registered names; without a position, the registered string; with one, the single character at that offset (from the end when negative), or the empty string out of range |
| Pattern.AllNamesResolve | src/Rap2hpoutre/LaravelLogViewer/Pattern.php:22-37 | every name `all()` lists resolves, through `getPattern`, to its registered string |
| Pattern.ParseStackLine | src/Rap2hpoutre/LaravelLogViewer/Pattern.php:27 | every match has a digit index, then either the internal flag with empty file and line groups or a file name of at least one character plus `.php` with a digit line number, then non-empty code without a line feed |
| Pattern.ParseStackLineLeftmost | src/Rap2hpoutre/LaravelLogViewer/Pattern.php:27 | `preg_match` reports the leftmost match: no position of the line starts a match, or the result is the match at the first position that starts one |
| Pattern.ParseStackLineSound | src/Rap2hpoutre/LaravelLogViewer/Pattern.php:27 | a reported frame occurs in the line in the grammar's order: `#`, the index, whitespace, the site (internal flag, or file name, `(`, line number, `)`), `:`, whitespace, the code, then a line feed or the end |
| Pattern.ParseStackLineComplete | src/Rap2hpoutre/LaravelLogViewer/Pattern.php:27 | the converse of soundness: wherever a frame of the right shape occurs in the line (any text before `#`, any non-empty whitespace after the index and after the `:`, a file name without a line feed, the code running to a line feed or the end), `preg_match` finds a match |
| Pattern.MatchAtSound | src/Rap2hpoutre/LaravelLogViewer/Pattern.php:27 | a match found at a position spans the line from there in the grammar's order |
| Pattern.AltAtSound | src/Rap2hpoutre/LaravelLogViewer/Pattern.php:27 | an alternative recognised at a position is that site text followed by `:`, whitespace and the code up to the end of the line |
| Pattern.Search | src/Rap2hpoutre/LaravelLogViewer/Pattern.php:27 | the unanchored search returns only well-shaped frames |
| Pattern.SearchLeftmost | src/Rap2hpoutre/LaravelLogViewer/Pattern.php:27 | the search from a position finds nothing exactly when no later position starts a match, and otherwise returns the match at the first such position |
| Pattern.SiteFrom | src/Rap2hpoutre/LaravelLogViewer/Pattern.php:27 | the `\s+` backtracking and the two alternatives return only well-shaped frames carrying the matched index |
| Pattern.SiteFromOrder | src/Rap2hpoutre/LaravelLogViewer/Pattern.php:27 | `\s+` is greedy and gives characters back one at a time: no site after any number of kept whitespace characters, or the site after the longest run that has one |
| Pattern.SiteFromSound | src/Rap2hpoutre/LaravelLogViewer/Pattern.php:27 | a site found after the whitespace sits right after at least one of its characters |
| Pattern.AltAt | src/Rap2hpoutre/LaravelLogViewer/Pattern.php:27 | a site recognised at a position is a well-shaped frame carrying the index |
| Pattern.AltAtOrder | src/Rap2hpoutre/LaravelLogViewer/Pattern.php:27 | the alternatives are tried in order: `[internal function]` wins when it matches; a file frame comes only when it does not; nothing exactly when neither matches |
| Pattern.InternalXorFile | src/Rap2hpoutre/LaravelLogViewer/Pattern.php:27 | the two alternatives exclude each other: the internal flag is set exactly when file name and line number are empty |
| Pattern.ParseFrameText | src/Rap2hpoutre/LaravelLogViewer/Pattern.php:27 | reading back the text `#<index> <site>: <code>` of a canonical frame gives that frame |
| Pattern.FindOnLine | src/Rap2hpoutre/LaravelLogViewer/Pattern.php:26 | the lazy `.*?` followed by a character: its first occurrence on the current line, or none on the line |
| Pattern.FilesFrom | src/Rap2hpoutre/LaravelLogViewer/Pattern.php:26 | the scan from a position succeeds exactly when a `{`, a later `,` and a later `}` lie on one line after it |
| Pattern.IsBraceGlob | src/Rap2hpoutre/LaravelLogViewer/Pattern.php:26 | true exactly when the string holds `{`, later `,`, later `}` with no line feed between |
| Pattern.ParseDateTime | src/Rap2hpoutre/LaravelLogViewer/Pattern.php:13 | an accepted string is exactly `dddd-dd-dd`, whitespace, `dd:dd:dd`, split into those parts |
| Pattern.ParseDateTimeText | src/Rap2hpoutre/LaravelLogViewer/Pattern.php:13 | every well-formed date, gap and time is accepted and read back into the same parts |
| Pattern.MessageEnd | src/Rap2hpoutre/LaravelLogViewer/Pattern.php:16 | the lazy message group ends at the first `{"` plus a word character after its first character; when there is none, there is no match |
| Pattern.MetadataEnd | src/Rap2hpoutre/LaravelLogViewer/Pattern.php:17 | the lazy metadata group, at least one character long, ends at the first place followed by a line feed, `[` and a digit, or by nothing but whitespace |
| Pattern.BodyGroups | src/Rap2hpoutre/LaravelLogViewer/Pattern.php:25 | groups 4 and 5 are non-empty and adjacent; group 5 starts with `{"` and a word character and is the first such place; group 5 ends at the first metadata stop after its first character |
| LogViewer.EntryOf | src/Rap2hpoutre/LaravelLogViewer/LaravelLogViewer.php:361-377 | an entry keeps the raw date and the trimmed date and the folder; its context is the trimmed context; its level is the trimmed level lower-cased, and its class and image are those of that level; its text is the trimmed root-stripped message; its stack is the formatted stack trace |
| LogViewer.MakeEntry | src/Rap2hpoutre/LaravelLogViewer/LaravelLogViewer.php:361-377 | the loop body, computing the fields in the source's order (including the formatted stack), builds `EntryOf` of the match |
| LogViewer.MapSeq | src/Rap2hpoutre/LaravelLogViewer/LaravelLogViewer.php:359-378 | one entry per match, entry i built from match i |
| LogViewer.All | src/Rap2hpoutre/LaravelLogViewer/LaravelLogViewer.php:355-378 | a halt exactly when there is no match; otherwise one entry per match, in match order, then reversed |
| LogViewer.NewestFirst | src/Rap2hpoutre/LaravelLogViewer/LaravelLogViewer.php:400 | entry i of the reversed list comes from match n-1-i |
| LogViewer.MapSeqSnoc | src/Rap2hpoutre/LaravelLogViewer/LaravelLogViewer.php:367-377 | `$log[] =` appends the new entry after the entries built so far |
| LogViewer.Reverse | src/Rap2hpoutre/LaravelLogViewer/LaravelLogViewer.php:400 | `array_reverse`: same length, element i is element n-1-i |
| LogViewer.ReverseReverse | src/Rap2hpoutre/LaravelLogViewer/LaravelLogViewer.php:400 | reversing twice gives the list back |
| LogViewer.FallbackUnreachable | src/Rap2hpoutre/LaravelLogViewer/LaravelLogViewer.php:380 | once there was a match the entry list is not empty, so the fallback never runs |
| LogViewer.Explode | src/Rap2hpoutre/LaravelLogViewer/LaravelLogViewer.php:382 | at least one piece, none holding a line feed |
| LogViewer.ImplodeExplode | src/Rap2hpoutre/LaravelLogViewer/LaravelLogViewer.php:382 | joining the pieces with line feeds gives the file back |
| LogViewer.FallbackEntries | src/Rap2hpoutre/LaravelLogViewer/LaravelLogViewer.php:385-397 | one entry per line, entry k built from line k with the 1-based number k + 1 |
| LogViewer.Fallback | src/Rap2hpoutre/LaravelLogViewer/LaravelLogViewer.php:380-398 | one entry per line of the file, last line first, each numbered from 1 in file order, with no in-file date and every other field empty |

## Left out

- File discovery and selection (`setFolder`, `setFile`, `pathToLogFile`, `getFolders`,
  `getFolderFiles`, `getFiles`), the file-size limit and the file read in `all()`:
  filesystem I/O and configuration lookups. `all()` is modelled from the matches onwards.
- Matching `log_entry` over a whole file (`preg_match_all` with `PREG_SET_ORDER`): the model
  takes the matches as a sequence of five capture groups. Only the boundaries of groups 4
  and 5 are modelled as recognisers.
- `json_decode` is a parameter returning the `exception` property when it is set. A
  property that is set but not a string, and JSON syntax itself, are not modelled.
- `Level::cssClass` and `Level::img` are opaque parameters; the `Level` class is not part of this model.
- `base_path()`, `storage_path()` and `config()` are replaced by parameters.
- `addLineToUserBlock` and `addLineToVendorBlock` are not modelled separately: they only
  call `addLineToBlock` with a fixed type, and nothing calls them.
- StackTrace.AddLineToBlock: the `$output` map keyed by `type_number` strings is a
  sequence of blocks keyed by (type, number) pairs, and it is rebuilt as a value rather
  than updated in place. The two keys are in one-to-one correspondence, and the array is
  always replaced by the returned copy, so no aliasing of the shared block objects is
  visible.
- Strings are sequences of characters, not bytes. In particular the toggle arrow is the
  three characters the source text shows, not its eight UTF-8 bytes.
- Case folding is ASCII only (`mb_stripos`, `mb_convert_case` and `str_ireplace` on
  non-ASCII letters are not modelled). So are the character classes `\s`, `\d` and `\w`,
  which under the `u` flag of `log_entry` also match non-ASCII characters.
- Normalise.StripDocumentRoot: compares the root and the text by ASCII case folding only.
- `getPattern` with a position that is not an integer is not modelled.
- `PHP_EOL` is the line feed of Unix-like hosts; on Windows it is CR LF, and `explode` there
  splits at CR LF pairs. Only the line-feed form is modelled.
- Frames print their line number as the captured digit string; the integer form of the
  sentinel's `0` is modelled as the string `"0"`, which PHP treats as falsy in the same way.
