# GdPlanningAI style checker, modelled in Dafny

`tests/style_check.py` is the GDScript style checker of the GdPlanningAI
repository. For every `.gd` file it reports:

- each line longer than 100 characters (`"Line > 100 chars"`);
- each line holding a `func` header with a comma in its parameter list
  ("Multi-parameter functions on single line", run line by line with
  `search`);
- each `func` header whose `)` is followed by `:` and the end of a line, so
  that no return type is declared, in two variants: any parameter list
  ("Functions without explicit return types") and a parameter list with a
  comma ("Multi-parameter functions without return types"). Both run over
  the whole text with `finditer`. The line number is one more than the line
  feeds before the match, and line feeds in the snippet become blanks.

`main` collects the reports of all files in order. It exits with status 1
when there is any violation and with 0 otherwise.

The model has four modules:

- `Wrappers` (`wrappers.dfy`): `Option`.
- `Text` (`text.dfy`):
  - counting line feeds (`str.count`);
  - `str.split("\n")` and `str.splitlines()` on '\n';
  - line numbers and columns of a position;
  - `rstrip("\n")` and `replace("\n", " ")`;
  - decimal rendering of line numbers.
- `Patterns` (`patterns.dfy`):
  - the three fixed regular expressions, as one deterministic matcher
    `MatchEnd` over a `Pattern(needsComma, needsColonAtEol)`;
  - `re.search` (`SearchFrom`) and `re.finditer` (`FindAll`) on top of it;
  - `Decomposes`, an independent reading of what each regular expression
    accepts. The matcher is proved sound and complete against it.
- `StyleCheck` (`style_check.dfy`):
  - the `Violation` record and its printed form;
  - the rule list;
  - `check_file` as the method `CheckFile`, with one loop per pass, proved
    equal to the specification function `FileViolations`;
  - `main` as the method `RunStyleCheck`, proved against `AllViolations`;
  - the properties of a file's report and of the aggregate.

The matcher relies on how backtracking resolves each pattern part:

- `\s+`, `\w+` and `[^)]*` have only one way to continue: no character is
  both blank and a word character, and the first `)` closes the list.
- The comma variant ends at that same `)`.
- The only real choice is the last `\s*` before `$`. It is greedy, so the
  match ends at the last line end inside the blanks after the colon.
- With `re.MULTILINE`, `$` holds at the end of the text and before every
  '\n'.

## Model

| member | source | states |
|---|---|---|
| Text.CountNewlines | tests/style_check.py:80 | `count("\n")` is at most the length, and zero exactly when the text holds no line feed. |
| Text.CountNewlinesAppend | tests/style_check.py:80 | The line feeds of a concatenation are the sum of the line feeds of its parts. |
| Text.CountNewlinesPrefix | tests/style_check.py:80 | A longer prefix has at least as many line feeds, and strictly more when the added stretch holds one. So whole-text line numbers never decrease. |
| Text.SplitOnNewlines | tests/style_check.py:68 | `split("\n")` yields one more piece than there are line feeds. |
| Text.SplitPiecesHaveNoNewline | tests/style_check.py:68 | No piece of the split holds a line feed. |
| Text.SplitJoinRoundTrip | tests/style_check.py:68 | Joining the pieces with '\n' gives the text back. |
| Text.Lines | tests/style_check.py:68 | `splitlines()` yields as many lines as there are line feeds, plus one when the text is non-empty and does not end in one (so none for the empty text). |
| Text.LinesHaveNoNewline | tests/style_check.py:68 | No line holds a line feed. |
| Text.LinesRoundTrip | tests/style_check.py:68 | The lines joined with '\n', plus the final '\n' when the text has one, are the text. |
| Text.LineNumberAt | tests/style_check.py:80 | `count("\n", 0, pos) + 1` is between 1 and 1 + all line feeds of the text. For a position inside the text it names an existing line. |
| Text.LinePrefixCount | tests/style_check.py:80 | The line feeds before a position are at most all of them. For a position inside the text they are fewer than the lines. |
| Text.PositionOnLine | tests/style_check.py:80 | A stretch without line feeds that starts at `pos` stands on line `count("\n", 0, pos) + 1` of `splitlines()`, at the column of `pos`. |
| Text.RStripNewlines | tests/style_check.py:51 | `rstrip("\n")` never lengthens the text. |
| Text.RStripNewlinesShape | tests/style_check.py:51 | `rstrip("\n")` keeps a prefix and cuts only line feeds. It leaves none at the end and keeps a text without line feeds whole. |
| Text.SpacesForNewlines | tests/style_check.py:81 | `replace("\n", " ")` keeps the length. |
| Text.SpacesForNewlinesShape | tests/style_check.py:81 | `replace("\n", " ")` turns each line feed into a blank, keeps every other character and leaves no line feed. |
| Text.NatToString | tests/style_check.py:54 | `str(line_no)` is a non-empty run of decimal digits with no leading zero. |
| Text.NatToStringRoundTrip | tests/style_check.py:54 | The decimal digits of the line number read back as the number. |
| Patterns.SpaceClass | tests/style_check.py:28 | `\s` (Python's whitespace set for `str`, written out in `IsSpace`) holds line feeds, blanks and tabs, and no word character, `(`, `)`, `,` or `:`. So `\s+` and `\w+` cannot overlap. |
| Patterns.SpaceRunEnd | tests/style_check.py:28 | The blank run stays inside the text and ends at the end of the text or at a non-blank. |
| Patterns.SpaceRun | tests/style_check.py:28 | `\s+` covers only blanks and stops at a non-blank. |
| Patterns.WordRunEnd | tests/style_check.py:28 | The word run stays inside the text and ends at the end of the text or at a non-word character. |
| Patterns.WordRun | tests/style_check.py:28 | `\w+` covers only word characters and stops at a non-word character. |
| Patterns.CloseParenFrom | tests/style_check.py:28 | A `)` that is found stands at or after the start. |
| Patterns.CloseParenFirst | tests/style_check.py:28 | `[^)]*\)` stops at the first `)`. When there is none, the text holds no `)` from that point. |
| Patterns.LastNewlineIn | tests/style_check.py:33 | A line feed that is found stands in the searched stretch. |
| Patterns.LastNewlineLast | tests/style_check.py:33 | The greedy `\s*$` ends at the last line feed of the blank run, and no later one exists. |
| Patterns.HeaderAt | tests/style_check.py:28 | A reported header lies inside the text: `func`, then the name, then `(` and `)` in that order. |
| Patterns.HeaderAtShape | tests/style_check.py:28 | A reported header is `func\s+\w+\([^)]*\)` read part by part. |
| Patterns.HeaderUnique | tests/style_check.py:28 | A header has only one reading, and `HeaderAt` finds it. |
| Patterns.ColonAtEolEnd | tests/style_check.py:33 | A `\s*:\s*$` match ends after its start, at the end of the text or at a line feed. |
| Patterns.MatchEnd | tests/style_check.py:28-38 | A match ends inside the text, after its start, and needs a header at its start. |
| Patterns.MatchEndTail | tests/style_check.py:33-38 | After the `)` a match holds only blanks and the colon. Without the colon tail it ends right after the `)`. |
| Patterns.MatchStartsWithKeyword | tests/style_check.py:28-38 | Every match starts with the letters `func`. |
| Patterns.MatchEndSound | tests/style_check.py:28-38 | Every reported match is a match of the regular expression (`Decomposes`). |
| Patterns.MatchEndComplete | tests/style_check.py:28-38 | Whenever the regular expression matches from `s`, the matcher reports a match there. Its end is the same, or later for the greedy `\s*$`. |
| Patterns.ColonAtEolComplete | tests/style_check.py:33 | Whenever `\s*:\s*$` matches from `q`, the matcher reports it, ending at the same end or later. |
| Patterns.SearchMatchesSomewhere | tests/style_check.py:85 | `pattern.search(line)` succeeds exactly when the pattern matches at some position of the line. |
| Patterns.SearchFrom | tests/style_check.py:85 | A match that `search` reports starts at or after the start position, and the pattern matches there with that end. |
| Patterns.SearchFromLeftmost | tests/style_check.py:85 | The match `search` reports is the leftmost one. When it reports none, the pattern matches nowhere. |
| Patterns.SearchFromLater | tests/style_check.py:78 | Resuming a search at a point no later than the leftmost match finds the same match. |
| Patterns.FindAll | tests/style_check.py:78 | Each `finditer` match lies inside the text, is non-empty, and ends no later than the next one starts. |
| Patterns.FindAllMatches | tests/style_check.py:78 | Every span that `finditer` yields is a match of the pattern. |
| Patterns.FindAllOrdered | tests/style_check.py:78 | The spans of `finditer` do not overlap and come in text order. |
| Patterns.FindAllCovers | tests/style_check.py:78 | `finditer` misses no match: every position where the pattern matches is a reported start or lies inside a reported match. |
| Patterns.CommaVariantWithinPlain | tests/style_check.py:33-38 | The comma variant matches only where the plain variant matches, with the same span. |
| Patterns.NestedHeaderSharesClose | tests/style_check.py:33 | A header starting inside a no-return-type match lies in its parameter list and shares its `)`. |
| Patterns.NestedMultiParamMatch | tests/style_check.py:33-38 | If a comma-variant match starts inside a no-return-type match, the outer match is a comma-variant match too. |
| Patterns.MultiParamNoReturnSubset | tests/style_check.py:31-40 | Every match `finditer` yields for "Multi-parameter functions without return types" is also yielded, with the same span, for "Functions without explicit return types". |
| Patterns.ReturnAnnotationNotReported | tests/style_check.py:31-40 | A header whose `)` is followed, after blanks, by `->` (as in `func f() -> int:`) is matched by neither return-type pattern, and no reading of the regular expression accepts it. |
| StyleCheck.NewViolation | tests/style_check.py:46-51 | A violation keeps path, line number and rule. Its text is a prefix of the given one, and all of it when the given text has no line feed. |
| StyleCheck.NewViolationStripsLine | tests/style_check.py:51 | Only line feeds are cut from the end of the text, and none is left at its end. |
| StyleCheck.Violation.ToString | tests/style_check.py:53-54 | The printed form starts with the path and `:` and ends with the text. Its length is that of path, line-number digits, rule and text plus the six separator characters. |
| StyleCheck.ToStringReadsBack | tests/style_check.py:53-54 | `path:line_no: [rule] line` can be read back: the path, a `:`, the digits of the line number (which read back as the number), then `: [rule] line`. |
| StyleCheck.CheckFile | tests/style_check.py:63-87 | `check_file` returns the line-length pass followed by each rule's contribution in list order. The properties of that result are in `FileViolationsShape`. |
| StyleCheck.CheckLines | tests/style_check.py:68-72 | A line-by-line loop (the line-length loop here, and the same loop at lines 84-86) appends one violation per flagged line, in line order. |
| StyleCheck.ReportMatches | tests/style_check.py:78-82 | The `finditer` loop appends one violation per match, in match order. |
| StyleCheck.ReportMatch | tests/style_check.py:80-82 | The loop body's violation names the file and the rule. Its line number is between 1 and 1 + all line feeds, and names an existing line when the match starts inside the text. Its text is as long as the match and holds no line feed. |
| StyleCheck.CheckRule | tests/style_check.py:75-86 | One rule's pass yields entries that name the file and an existing line and hold no line feed. All of them carry the rule's description, in line order. |
| StyleCheck.PerLineViolationsSound | tests/style_check.py:84-86 | A line-by-line pass reports only lines the check flags. Each entry carries the line's own 1-based number (within 1..number of lines) and its text. |
| StyleCheck.PerLineViolationsIncreasing | tests/style_check.py:84-86 | A line-by-line pass reports each line at most once: line numbers strictly increase. |
| StyleCheck.PerLineViolationsComplete | tests/style_check.py:84-86 | Every flagged line is reported with its number and text. |
| StyleCheck.LongLinesReportedOnce | tests/style_check.py:68-72 | A line gets a "Line > 100 chars" violation with its 1-based number and text exactly when it is longer than 100 characters, and only once. |
| StyleCheck.MatchViolationsExact | tests/style_check.py:78-82 | A whole-text rule yields exactly one violation per match, in match order. |
| StyleCheck.MatchViolationShape | tests/style_check.py:80-82 | A whole-text violation's line number is 1 + the line feeds before the match. Its text is the match with every line feed made a blank, so it holds none. |
| StyleCheck.WholeTextLineNumbers | tests/style_check.py:78-80 | Whole-text line numbers are at least 1 and at most 1 + all line feeds. Each names an existing line, and they do not decrease along the report. |
| StyleCheck.MatchViolationOnItsLine | tests/style_check.py:80 | The line a match's violation names is the line where its `func` stands, at the match's column. |
| StyleCheck.WholeTextViolationOnItsLine | tests/style_check.py:78-80 | The same holds for every span `finditer` yields for a whole-text rule: the span lies in the text, and its violation's line holds the match's `func` at the match's column. |
| StyleCheck.MultiParamReportedTwice | tests/style_check.py:31-40 | Every "Multi-parameter functions without return types" violation has a "Functions without explicit return types" twin with the same line number and text. |
| StyleCheck.RuleRanks | tests/style_check.py:25-43 | The line-length rule ranks first, then each rule at its position in the list. |
| StyleCheck.RuleViolationsShape | tests/style_check.py:75-86 | One rule's contribution is well formed (this file, an existing line, no line feed). Every entry carries the rule's description, and the entries come in line order. |
| StyleCheck.RulesViolationsShape | tests/style_check.py:75-86 | The rule list's contributions are well formed and grouped by rule in list order, each group in line order. |
| StyleCheck.FileViolationsShape | tests/style_check.py:63-87 | A file's report lists all line-length violations first, then each rule's in list order, each group in line order. Every entry names the file and an existing line, and holds no line feed. |
| StyleCheck.ConcatReportsEmpty | tests/style_check.py:92-95 | The aggregate is empty exactly when every file's report is. |
| StyleCheck.ConcatReportsStep | tests/style_check.py:92-93 | `extend` appends one more file's report to the aggregate. |
| StyleCheck.RunStyleCheck | tests/style_check.py:90-102 | `main` collects the reports of all files in file order. It exits with 1 exactly when some file has a violation, and with 0 otherwise. |

## Left out

- Finding the files (`iter_source_files`, `rglob` and the `.gd` filter, lines 57-60) and `ROOT_DIR` (line 21) are filesystem I/O. `RunStyleCheck` takes the list of files as input.
- Reading and decoding a file (`read_text` with `errors="ignore"`, line 64) is I/O. `CheckFile` takes the decoded text.
- The printing in `main` (lines 96-99 and 102) is console output. `sys.exit(1)` becomes the returned exit status.
- Paths are plain strings: `Path` and its `str` form are not modelled.
- Text.Lines: splits on '\n' only. Python's `splitlines()` also breaks at `\r`, `\r\n`, `\x0b`, `\x0c`, `\x1c`-`\x1e`, `\x85`, `\u2028` and `\u2029`. Line-by-line passes over text with such characters may differ from `check_file`, and so may the agreement between their line numbers and the whole-text ones, which count '\n' only (line 80).
- Patterns.IsWord: `\w` is taken to be ASCII letters, digits and `_`. Python's `\w` on `str` also accepts non-ASCII letters and digits in a name.
- Python's general `re` engine is not modelled. The three fixed patterns are written out as a matcher and proved against their regular-expression reading (`Decomposes`).
