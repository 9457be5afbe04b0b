# dlg2csv core, modelled in Dafny

dlg2csv reads WeiDU dialogue scripts (`.d` files) and string tables
(`.tra` files) of Infinity Engine mods, and writes one CSV sheet per
dialogue file, with a row for each NPC line and each PC reply found. This
project models the core of that program and proves what it promises:

- **`.d` parser** (`internal/d/parser.go`):
  - `DPatterns` has the parser's regular expressions. Each one is a
    hand-written matcher, plus a ghost predicate that reads like the
    pattern. Soundness and completeness lemmas prove the matcher accepts
    exactly the lines of that shape, with the captures the pattern names.
  - `DParser` models the rest of the parser:
    - `splitLineComment`, `normalizeCondition` and `looksLikeWeiduCode`;
    - one line of `ParseReader` (`Step`) over the loop's locals (`DState`);
    - the whole file as a fold (`Run`/`Parse`);
    - the imperative `ParseReader` loop, proved equal to that fold.
  - `DParserProps` proves invariants that hold after every line of every
    file.
  - `DParserSteps` proves what each kind of line does: its errors, notes,
    reply numbering, retargeting inside CHAIN bodies, and the guard a
    state header copies onto its texts.
- **Comment splitter** (`internal/d/preprocessor.go`): the class
  `CommentSplitter` keeps a block-comment flag from one call to the next.
  Its `Split` method is proved against the function `SplitSpec`.
- **`.tra` parser** (`internal/tra/parser.go`):
  - one line of the parse is `Step`, and a file is a fold of steps;
  - the imperative `ParseReader` loop is proved equal to that fold;
  - lemmas cover one-line entries, multi-line literals, duplicate ids,
    unterminated literals, and the round trip from an entry line through
    `GetTextByID` back to its text;
  - `TraParserProps` lifts these to whole files: an entry anywhere in a
    file that parses is found by `GetTextByID`, a literal left open
    anywhere is the error at the last line, and the table holds no id that
    no line of the file names.
- **CSV export** (`internal/csv/export.go`):
  - the column formatters and the row layout;
  - `sanitizeFilename`, both as replacement of whole runs and as the
    regex engine's character scan;
  - sorting of the keys;
  - the sheets that `Export` produces.

  A sheet is the file name plus the sequence of rows handed to the CSV
  writer.
- **`BaseKey`** (`internal/utils/helpers.go`): it removes the last
  extension with `filepath.Ext`. `keyBase` (`internal/csv/export.go:133-136`)
  is the same expression and is never called, so `Helpers.BaseKey` models
  both.

Representation choices:

- **Strings** are sequences of characters. Go scans bytes here, but every
  byte the core tests is ASCII, so the two scans agree.
- **Regular expressions** follow Go's `regexp` package:
  - `\s` is `[\t\n\f\r ]`;
  - `.` excludes `\n`;
  - `\b` is an ASCII word boundary;
  - `(?i)` also folds the Kelvin sign with `K` and the long s with `S`.
- **Ids** are unbounded naturals.
- **Nil maps and pointers** are `Option`s.

Where the repository's tests or its documentation disagree with the code,
the model follows the code:

- a `= @2` line inside a state body is ignored, not emitted;
- replies inside a state body never get an EXTERN target;
- `.tra` literals are delimited by `~` only;
- the export writes the placeholder `text` rather than the looked-up
  strings;
- a CHAIN body still open at the end of a `.d` file is no error: the
  parse returns what was emitted so far (`internal/d/parser.go:652-656`
  checks nothing about the mode);
- a top-level SAY carries no condition, even after a state header's
  guard (`internal/d/parser.go:306-326`);
- EXTEND stays in top-level mode: it opens a dialog and a state, but the
  lines after it go through the top-level tests
  (`internal/d/parser.go:252-264`).

## Model

| member | source | states |
|---|---|---|
| DPatterns.BeginStateSound | internal/d/parser.go:19 | a line the state-header matcher accepts is `IF ~cond~ THEN BEGIN name` with the lazy condition and a name of `[A-Za-z0-9_#.\-]`, and the captures are that condition (tildes included) and that name |
| DPatterns.BeginStateComplete | internal/d/parser.go:19 | every line of the state-header shape is accepted, with the condition and name of the shape as captures |
| DPatterns.CloserSound | internal/d/parser.go:19 | the lazy `~.*?~` closes at the first `~` after which the rest of the pattern matches |
| DPatterns.CloserComplete | internal/d/parser.go:19 | a `~` with no newline before it and no earlier closing tilde that lets the rest match is the one the lazy group takes |
| DPatterns.SaySound | internal/d/parser.go:22 | an accepted SAY line is `SAY @digits` with blanks, in any case, and the id is the value of those digits |
| DPatterns.SayComplete | internal/d/parser.go:22 | every line of the SAY shape is accepted with its id |
| DPatterns.ReplySound | internal/d/parser.go:25 | an accepted reply line is `IF ~cond~ THEN REPLY @id rest`, with the condition, the id and the rest of the line as captures |
| DPatterns.ReplyComplete | internal/d/parser.go:25 | every line of the reply shape is accepted with those captures |
| DPatterns.ExternAtSound | internal/d/parser.go:28 | an EXTERN match at a position is the word `EXTERN` at a word boundary, two names of the class and a boundary after the second, and it captures the two names |
| DPatterns.ExternAtComplete | internal/d/parser.go:28 | every occurrence of the EXTERN shape at a position matches there with those names |
| DPatterns.FindExternFinds | internal/d/parser.go:28 | the EXTERN search returns the match at the leftmost position where one exists |
| DPatterns.FindExternNone | internal/d/parser.go:28 | the EXTERN search fails exactly when no position holds a match |
| DPatterns.GotoAtSound | internal/d/parser.go:29 | a GOTO match at a position is the word `GOTO` at a boundary and a name followed by a boundary, and it captures the name |
| DPatterns.GotoAtComplete | internal/d/parser.go:29 | every occurrence of the GOTO shape matches there with its name |
| DPatterns.FindGotoFinds | internal/d/parser.go:29 | the GOTO search returns the leftmost match |
| DPatterns.FindGotoNone | internal/d/parser.go:29 | the GOTO search fails exactly when no position holds a match |
| DPatterns.FindExit | internal/d/parser.go:30 | the EXIT test answers true exactly when some position holds `EXIT` between word boundaries |
| DPatterns.ChainHeaderIfSound | internal/d/parser.go:43 | an accepted CHAIN header whose optional `IF ~…~ THEN` part is present has that shape, and the captures are its dialog and state |
| DPatterns.ChainHeaderPlainSound | internal/d/parser.go:43 | an accepted CHAIN header without a usable IF part is `CHAIN dlg state`, with those captures |
| DPatterns.ChainHeaderIfComplete | internal/d/parser.go:43 | every `CHAIN IF ~cond~ THEN dlg state` line is accepted with those captures |
| DPatterns.ChainPlainComplete | internal/d/parser.go:43 | every plain `CHAIN dlg state` line is accepted with those captures |
| DPatterns.ChainShapesExclusive | internal/d/parser.go:43 | a line of the plain CHAIN shape never also has the IF shape, so the captures are unambiguous |
| DPatterns.ChainLineSound | internal/d/parser.go:48 | an accepted chain line is `@digits` between blanks, and the id is their value |
| DPatterns.ChainLineComplete | internal/d/parser.go:48 | every such line is accepted with its id |
| DPatterns.InterjectIfSound | internal/d/parser.go:57 | an accepted `==speaker IF ~cond~ THEN @id` line has that shape, and the captures are the speaker, the condition between the tildes and the id |
| DPatterns.InterjectIfComplete | internal/d/parser.go:57 | every line of that shape is accepted with those captures |
| DPatterns.InterjectSound | internal/d/parser.go:66 | an accepted `==speaker @id` line has that shape, with speaker and id captured |
| DPatterns.InterjectComplete | internal/d/parser.go:66 | every line of that shape is accepted with those captures |
| DPatterns.ExtendSound | internal/d/parser.go:73 | an accepted line is `EXTEND_BOTTOM` or `EXTEND_TOP`, then `~dlg~` with no tilde inside and a state name, and it captures dlg and state |
| DPatterns.ExtendComplete | internal/d/parser.go:73 | every line of the EXTEND shape is accepted with those captures |
| DPatterns.BeginDlgSound | internal/d/parser.go:77 | an accepted BEGIN line is `BEGIN`, an optional `~`, a name, an optional `~`, and it captures the name |
| DPatterns.BeginDlgComplete | internal/d/parser.go:77 | every line of the BEGIN shape is accepted with that name |
| DParser.SplitLineCommentScan | internal/d/parser.go:661-685 | the loop, with its tilde flag, returns the trimmed code and comment that `SplitLineComment` defines |
| DParser.SplitLineCommentMarker | internal/d/parser.go:661-685 | the comment starts at the first `//` with an even number of tildes before it, and no such `//` exists when there is no comment |
| DParser.NormalizeCondition | internal/d/parser.go:687-698 | the normalized condition has no leading or trailing blanks |
| DParser.NormalizeUnwraps | internal/d/parser.go:694-695 | wrapping a text in tildes and normalizing gives the text back, trimmed |
| DParser.NormalizeKeepsUnwrapped | internal/d/parser.go:688-697 | a condition with no outer pair of tildes only loses its blanks |
| DParser.NormalizeConditionExamples | internal/d/parser.go:690-697 | `~~` becomes empty, a single or one-sided tilde stays, and only one outer pair is stripped |
| DParser.LooksLikeWeiduCodeTrims | internal/d/parser.go:704 | blanks around a comment do not change whether it reads as code |
| DParser.KeywordLooksLikeCode | internal/d/parser.go:716-724 | a comment whose first word is IF, CHAIN, BEGIN, SAY, DO, EXTERN or EXIT, in any case, reads as code |
| DParser.MarkerPrefixIsCode | internal/d/parser.go:703-714 | every comment whose trimmed text starts with `@` or `==` reads as code, whatever follows |
| DParser.FirstWord | internal/d/parser.go:716-720 | the first word is the longest blank-free prefix of the trimmed comment, ending at a blank or the end |
| DParser.FirstWordDecides | internal/d/parser.go:716-726 | for every other non-empty comment: it reads as code if and only if its first word is one of the seven keywords in some case |
| DParser.ErrorAt | internal/d/parser.go:282 | an error message starts with the file name and ends with the message |
| DParser.Step | internal/d/parser.go:185-650 | after a line that parses, the index of the last CHAIN text is -1 or names an occurrence |
| DParser.RunExtends | internal/d/parser.go:185-652 | parsing one more line is one more step from the state reached so far |
| DParser.RunStopsAtError | internal/d/parser.go:185-652 | the first error is the result, whatever lines follow it |
| DParser.ParseReader | internal/d/parser.go:163-657 | the line loop returns the occurrences of the fold, or its first error |
| DParserProps.RunInv | internal/d/parser.go:185-650 | after every prefix of every file: only PC occurrences carry a reply index, replies since the last header are numbered 0, 1, 2, … with the next index kept, and in a CHAIN body the retarget index names the last occurrence, an NPC text |
| DParserProps.ParseRepliesArePC | internal/d/parser.go:163-657 | in every parsed file, an occurrence has a reply index exactly when it is a PC reply |
| DParserProps.StepInv | internal/d/parser.go:185-650 | one line of any mode keeps the invariant |
| DParserProps.NormalStepInv | internal/d/parser.go:190-372 | a top-level line, including a joined CHAIN IF header, keeps the invariant |
| DParserProps.ChainLineStepInv | internal/d/parser.go:396-527 | a line of a CHAIN body keeps the invariant |
| DParserProps.StateLineStepInv | internal/d/parser.go:551-648 | a line of a state body keeps the invariant |
| DParserProps.ReplyNumbersRetarget | internal/d/parser.go:409-411 | changing the target of an occurrence does not renumber the replies |
| DParserSteps.CodeCommentIgnored | internal/d/parser.go:218-220 | a comment-only line that reads as code changes nothing, in every mode |
| DParserSteps.ProseCommentNoted | internal/d/parser.go:218-227 | any other comment-only line becomes a note, except at top level before a dialog is open |
| DParserSteps.StepAppendsOrRetargets | internal/d/parser.go:185-650 | a line either appends one occurrence, which takes the pending notes (with its own line's comment), or changes at most the targets of existing occurrences |
| DParserSteps.BeginOpensDialog | internal/d/parser.go:237-248 | BEGIN makes its name the dialog and the speaker, closes any state and EXTEND, resets the reply index and the state guard, drops pending notes, emits nothing and stays at top level |
| DParserSteps.ChainOpenAtEndParses | internal/d/parser.go:266-277 | a file whose last line is a CHAIN header ends with the body open, and the parse still succeeds with what was emitted before |
| DParserSteps.ChainHeaderOpensBody | internal/d/parser.go:266-277 | a CHAIN header enters the body with no text to retarget, the reply index reset, its speaker and state, and the dialog set only when none was open |
| DParserSteps.ChainExternRetargets | internal/d/parser.go:405-418 | EXTERN in a CHAIN body fails with its message when no text precedes it; otherwise it retargets the last NPC text to EXTERN dlg state and returns to top level |
| DParserSteps.ChainExitRetargets | internal/d/parser.go:420-433 | EXIT in a CHAIN body fails likewise with no text; otherwise it retargets the last text to EXIT with no dialog or state |
| DParserSteps.StateBeforeBeginFails | internal/d/parser.go:280-283 | a state header before any BEGIN is the error "state defined before BEGIN" at that line |
| DParserSteps.SayOutsideStateFails | internal/d/parser.go:306-309 | a top-level SAY fails exactly when no dialog or state is open, with the message "SAY outside state" |
| DParserSteps.SayGuard | internal/d/parser.go:307-309 | the SAY case of a top-level line fails exactly outside an open state |
| DParserSteps.ReplyOutsideStateFails | internal/d/parser.go:328-332 | a top-level REPLY fails exactly when no dialog or state is open, with the message "REPLY outside state" |
| DParserSteps.ReplyGuard | internal/d/parser.go:329-332 | the REPLY case of a top-level line fails exactly outside an open state |
| DParserSteps.ReplyAfterStateEndFails | internal/d/parser.go:551-557 | END closes a state body, so a top-level REPLY right after it fails |
| DParserSteps.TopLevelEndClosesOnlyExtend | internal/d/parser.go:292-302 | a top-level END clears dialog, state and speaker only inside EXTEND and otherwise leaves them |
| DParserSteps.ExtendOpensState | internal/d/parser.go:252-264 | EXTEND stays at top level but opens the trimmed dialog and state, so SAY and REPLY are accepted |
| DParserSteps.TopLevelSay | internal/d/parser.go:306-326 | a top-level SAY in an open state appends an NPC text with its id, the current speaker, dialog and state, no condition and no reply index |
| DParserSteps.TopLevelReply | internal/d/parser.go:328-371 | a top-level reply appends a PC occurrence numbered with the current reply index, the next index follows, its condition is normalized and its target is looked up EXTERN first |
| DParserSteps.StateHeaderEnters | internal/d/parser.go:279-290 | inside an open dialog a state header succeeds, adds nothing, and enters the state body at reply 0 with the normalized guard, speaking as the dialog |
| DParserSteps.StateBodyText | internal/d/parser.go:559-604 | in a state body a SAY or `@id` line appends one NPC text of the current state carrying the state's guard, keeps the earlier texts and makes it the last text |
| DParserSteps.StateGuardCopied | internal/d/parser.go:280-290 | after `IF ~cond~ THEN BEGIN st`, a SAY or `@id` line of the body becomes an NPC text of st carrying the normalized state condition |
| DParserSteps.StateReplyOwnGuard | internal/d/parser.go:607-639 | a reply in a state body carries its own normalized condition and is never given an EXTERN target |
| DParserSteps.ReplyTargetOrder | internal/d/parser.go:356-368 | a reply's target is EXTERN when that matches (and is allowed), else GOTO into the current dialog, else EXIT, else none; dialog and state are set exactly for EXTERN and GOTO |
| DParserSteps.ReplyExternTarget | internal/d/parser.go:357-360 | an EXTERN target names the dialog and state of an `EXTERN d s` that occurs in the reply |
| DPreprocessor.CommentSplitter.constructor | internal/d/preprocessor.go:7-9 | a new splitter starts outside any block comment |
| DPreprocessor.CommentSplitter.Split | internal/d/preprocessor.go:11-60 | the returned code, comment and new block flag are those of `SplitSpec` for the line and the old flag |
| DPreprocessor.SplitSpec | internal/d/preprocessor.go:11-60 | code and comment have no leading or trailing blanks, and an empty line leaves the block flag as it was |
| DPreprocessor.SplitCodeFromLine | internal/d/preprocessor.go:16-59 | the code is the trimmed form of a subsequence of the line: nothing is added or reordered |
| DPreprocessor.LineCommentEndsCode | internal/d/preprocessor.go:43-47 | everything after a `//` that plain text leads up to is comment |
| DPreprocessor.BlockCommentOpens | internal/d/preprocessor.go:49-54 | `/*` without a closing star-slash on the line gives the rest of the line as comment, and the next line starts inside the block |
| DPreprocessor.BlockCommentPersists | internal/d/preprocessor.go:24-35 | inside a block, a line with no `*` is all comment and the block stays open |
| DPreprocessor.BlockCommentCloses | internal/d/preprocessor.go:24-32 | star-slash ends the block: the text before it is comment and plain text after it is code again |
| DPreprocessor.CommentsStayApart | internal/d/preprocessor.go:27-30 | a block comment followed by `//` yields both texts joined by one blank |
| DPreprocessor.QuotedMarkersAreCode | internal/d/preprocessor.go:37-41 | `//` and `/*` between tildes are code, not comment |
| TraParser.Message | internal/tra/parser.go:32-34 | the error text starts with `file:`, ends with the message, and the digits between them spell the line number |
| TraParser.ParseEntry | internal/tra/parser.go:123-146 | an entry line fails with "expected numeric id after @" exactly when no digit follows `@` |
| TraParser.Flush | internal/tra/parser.go:100-107 | storing fails exactly when the id is already present, with the duplicate message; otherwise every earlier text is kept and the id gets the gathered text |
| TraParser.Step | internal/tra/parser.go:114-176 | an error names the file and the line being read |
| TraParser.StepKeeps | internal/tra/parser.go:100-176 | a line never drops or changes a stored text and adds at most the current id; outside a literal nothing stays gathered |
| TraParser.SkipLine | internal/tra/parser.go:115-121 | outside a literal a blank line, a `//` line or a line not starting with `@` changes nothing |
| TraParser.AfterId | internal/tra/parser.go:136-146 | the "expected '='" error comes exactly when the rest has no `=`; otherwise either the `~` error or an entry with the given id |
| TraParser.Steps | internal/tra/parser.go:81-181 | an error names the file and one of the lines read |
| TraParser.StepsKeep | internal/tra/parser.go:81-181 | after any lines every earlier text is still stored, unchanged |
| TraParser.Parse | internal/tra/parser.go:81-190 | a parsed file always has a table, and an error names a line of the file |
| TraParser.ReadEntry | internal/tra/parser.go:123-146 | the digit loop and the three checks after it give the entry that `ParseEntry` defines |
| TraParser.ParseReader | internal/tra/parser.go:81-190 | the line loop returns the table of the fold, or its first error, or the unterminated-literal error |
| TraParser.GetTextByID | internal/tra/parser.go:192-201 | no id or no table gives "", a stored id its text, any other id the placeholder |
| TraParser.Missing | internal/tra/parser.go:200 | the placeholder is `#MISSING(@…)` around the digits of the id |
| TraParser.SingleLineEntry | internal/tra/parser.go:141-156 | `@id = ~text~…` stores the text up to the first closing `~` under its id, ignoring whatever follows |
| TraParser.DuplicateEntry | internal/tra/parser.go:100-104 | an entry for an id already stored is the duplicate error at that line |
| TraParser.OpenLiteral | internal/tra/parser.go:158-162 | an entry whose `~` does not close on the line switches to reading a literal, with the rest of the line and a line break gathered |
| TraParser.ContentLines | internal/tra/parser.go:164-176 | inside a literal, lines without `~` (`@` lines included) are gathered, each followed by a line break |
| TraParser.CloseLiteral | internal/tra/parser.go:166-172 | the first `~` ends the literal: the text before it completes the entry and the parser looks for entries again |
| TraParser.ContentThenLine | internal/tra/parser.go:164-176 | after content lines, the next line is read with everything gathered so far |
| TraParser.MultiLineEntry | internal/tra/parser.go:141-176 | a multi-line entry stores the opening line's text, each line in between and the closing line's text before its `~`, joined by line breaks |
| TraParser.UnterminatedLiteral | internal/tra/parser.go:183-185 | a literal still open at the end is the error naming its id, at the last line |
| TraParser.OneEntryParses | internal/tra/parser.go:81-190 | a file of one entry line parses to the table holding just that text |
| TraParser.LookupRoundTrip | internal/tra/parser.go:192-201 | the text of a one-entry file is looked up again by its id, and any other id gives the placeholder naming it |
| TraParserProps.StepsIsFold | internal/tra/parser.go:109-178 | the parser's line loop is the generic loop `Fold` run with its step |
| TraParserProps.FoldAppend | internal/tra/parser.go:109-178 | for any step, the loop over `a + b` is the loop over `a`, then over `b` from where it stopped, with line numbers going on; an error in `a` is the result |
| TraParserProps.StepsAppend | internal/tra/parser.go:109-178 | the parser's fold over `a + b` is its fold over `a`, then over `b` from the state `a` left, numbered after `a`; an error in `a` is the result |
| TraParserProps.StepsAppendOk | internal/tra/parser.go:109-178 | once the lines `a` are read without error, the lines `b` after them are read from the state `a` left, numbered after `a` |
| TraParserProps.StepsAppendFail | internal/tra/parser.go:109-178 | an error in the lines `a` is the error of `a` followed by any lines |
| TraParserProps.ParseEnds | internal/tra/parser.go:183-189 | a fold ending inside a literal gives the unterminated error at the last line naming its id; one ending outside gives the table |
| TraParserProps.EntryTakenFails | internal/tra/parser.go:100-104 | an entry line whose id is already stored fails the rest of the file |
| TraParserProps.EntryInFile | internal/tra/parser.go:81-201 | in a file that parses, an entry line `@id = ~text~` after any lines that leave no literal open is looked up by its id as `text`, whatever follows |
| TraParserProps.MultiLineTakenFails | internal/tra/parser.go:164-172 | a literal over several lines whose id is already stored fails at its closing line, and so does the rest of the file |
| TraParserProps.MultiLineEntryInFile | internal/tra/parser.go:81-201 | in a file that parses, a literal over several lines after any lines that leave no literal open is looked up by its id as its lines joined by line breaks, whatever follows |
| TraParserProps.StoredStays | internal/tra/parser.go:100-176 | a text stored before some lines are read without error is still stored, unchanged, after them |
| TraParserProps.UnterminatedInFile | internal/tra/parser.go:158-185 | a literal opened after any lines that leave no literal open, and never closed, makes the file fail at its last line with the error naming that literal's id |
| TraParserProps.StepHeld | internal/tra/parser.go:114-176 | a line adds no stored or open id except the one it names as an entry |
| TraParserProps.StepsHeld | internal/tra/parser.go:109-178 | after any lines, the stored and open ids come from the start state or from entry lines among them |
| TraParserProps.ParseHoldsOnlyNamedIds | internal/tra/parser.go:81-190 | the table of a file that parses holds only ids that some line of the file names as an entry |
| TraParserProps.OpenAtEnd | internal/tra/parser.go:183-185 | a file that ends inside a literal fails at its last line, and the id in the error is one a line of the file names |
| CsvExport.FormatTraID | internal/csv/export.go:55-60 | no id gives "", and an id gives `@` followed by its decimal digits, whose value is the id |
| CsvExport.FormatTraIDInjective | internal/csv/export.go:55-60 | different ids never give the same column |
| CsvExport.CommentKeepsBoth | internal/csv/export.go:62-71 | the comment column starts with the joined notes and ends with the condition, and the three-character separator (a bar between blanks) is between them exactly when both are non-empty |
| CsvExport.GotoKinds | internal/csv/export.go:73-85 | the goto column is "EXIT" exactly for EXIT, starts with EXTERN exactly for EXTERN, in any case, is bare "EXTERN" when the file or the state is unknown, and is empty for everything else (GOTO included) |
| CsvExport.GotoExternRoundTrip | internal/csv/export.go:78-79 | an EXTERN column gives back the dialog up to the first `:` and the state after it, when the dialog has no `:` |
| CsvExport.EmptyRow | internal/csv/export.go:51-53 | nine empty columns |
| CsvExport.RowLayout | internal/csv/export.go:90-110 | other kinds give no row; NPC and PC rows have the header's nine columns, with speaker, dialog, state and comment always filled, and only their own id, text and goto columns filled |
| CsvExport.FillRow | internal/csv/export.go:90-110 | filling a fresh nine-slot row in place gives the row `MakeRow` defines |
| CsvExport.Rows | internal/csv/export.go:90-114 | no more rows than occurrences |
| CsvExport.RowsAppend | internal/csv/export.go:90-114 | the rows of two runs of occurrences are the first run's rows, then the second's, in order |
| CsvExport.RowsCount | internal/csv/export.go:90-114 | one row per NPC or PC occurrence, each of nine columns |
| CsvExport.SanitizeFilename | internal/csv/export.go:128-131 | the name has only `[A-Za-z0-9._-]` and is no longer than the key |
| CsvExport.SanitizeKeepsAllowed | internal/csv/export.go:128-131 | a key of allowed characters is kept as it is |
| CsvExport.SanitizeIdempotent | internal/csv/export.go:128-131 | sanitizing twice is sanitizing once |
| CsvExport.RunCollapses | internal/csv/export.go:129-130 | a whole run of other characters, however long, becomes one `_` |
| CsvExport.SanitizeIsScan | internal/csv/export.go:129-130 | the run-by-run definition agrees with the leftmost-longest character scan of the regular expression |
| CsvExport.KeysCanShareFile | internal/csv/export.go:28 | two different keys can be given the same file name |
| CsvExport.SortStrings | internal/csv/export.go:25 | the sorted keys are in order and are the same keys, counted with multiplicity |
| CsvExport.LessTotal | internal/csv/export.go:25 | of two different strings exactly one comes first |
| CsvExport.LessTransitive | internal/csv/export.go:25 | the string order is transitive |
| CsvExport.SortedDistinct | internal/csv/export.go:21-25 | sorting distinct keys puts each strictly before the next |
| CsvExport.CollectKeys | internal/csv/export.go:21-24 | the loop collects every key of the map once, and nothing else |
| CsvExport.WriteSheet | internal/csv/export.go:28-114 | a sheet is the sanitized key plus `.csv`, the header, then one row per listed occurrence in order |
| CsvExport.Export | internal/csv/export.go:20-126 | one sheet per parsed file, in strictly increasing key order, each the sheet of its key's occurrences |
| Helpers.BaseKey | internal/utils/helpers.go:8-11 | the key followed by the extension is the file name; it is shorter exactly when there is an extension; a last element without a dot is kept whole |
| Helpers.BaseKeyKeepsEarlierDots | internal/utils/helpers.go:9-10 | only the last extension goes: a dot of the last element with another dot after it stays in the key |
| Helpers.BaseKeyExample | internal/utils/helpers.go:8-11 | `x.d` gives `x` |

## Left out

- File and directory I/O is not modelled: `ParseDir`, `ParseFile`, opening files, the scanner's line-length limit and `sc.Err` (`internal/d/parser.go:118-161` and `internal/tra/parser.go:36-79`, 180-182). A file is the sequence of its lines.
- The CSV writer and its quoting, `os.Create`, `Flush`, `Close` and their error returns (`internal/csv/export.go:29-34`, 46-49, 111-122) are not modelled. `Export` returns the sheets it would write.
- `Export`'s unused `tra` parameter and its empty `ExportResult` are left out.
- The debug `Printf` at `internal/d/parser.go:330` and the `Println` at `internal/csv/export.go:29` are output only.
- The `Atoi` error branches (`invalid TraID …` in `internal/d/parser.go`, `invalid id number` at `internal/tra/parser.go:131-134`) are left out. They can only fire on an integer overflow, and ids are unbounded naturals here.
- The second EXIT test in a CHAIN body (`internal/d/parser.go:511-524`) is left out. The EXIT test at lines 420-433 catches every line it would see, so it is unreachable.
- A state-body line containing `DO` and `EXIT` (`internal/d/parser.go:642-645`) is modelled as ignored, like every other unmatched line. Both branches only `continue`.
- Helpers.BaseKey: `filepath.Ext` is modelled with `/` as the only separator, the Unix behaviour.
- The `.d` loop is not one method over a class. Its per-line state is a value (`DState`) that the loop variable carries, as the Go locals are.
- DParser.Step: its own ensures only keeps the retarget index in range. What a line does is stated by the lemmas of `DParserSteps` and `DParserProps`.
