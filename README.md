# Coffee All Writer — a Dafny model of the plugin's core

Coffee All Writer is an Obsidian plugin for screenwriters and authors, shipped
as a single `main.js`. This project models the part of it that is plain
computation over text, sets and maps, and proves properties of that model:

- **Storyboard** (`storyboard.dfy`): a note is split into lines; every line
  whose trimmed text starts, ignoring ASCII case, with one of the twelve
  scene-heading alternatives (`INT.`, `EXT.`, `INT./EXT.`, `TEASER` followed
  by a word boundary, `ESTABLISHING`, `FADE IN:`, `FADE OUT.`, `MONTAGE:`,
  `INTERCUT`, `INSERT`, `SMASH CUT:`, `MATCH CUT:`) becomes a card with the
  trimmed line as title, an excerpt of the next four untrimmed lines joined
  by spaces and cut to 160 characters, and a click target: the first editor
  line equal to the heading line.
- **Session metrics, history and streak** (`metrics.dfy`): the word count is
  the number of maximal runs of ASCII word characters; the plugin's `state`
  object is the class `WriterState` with its session counters and its map
  from file path to the history of days the file was touched; the streak is
  the number of consecutive recorded days ending today; the achievement
  notices depend only on the word count and the streak.
- **The `/script-<style>` directive** (`directive.dfy`): recognising it on a
  trimmed line ignoring case, the eight-entry style to template table, the
  composition that appends a template to a note, and the two places it is
  handled — on file open (first line) and after Enter in the editor (the
  previous line).
- **JavaScript string built-ins** (`text.dfy`): `trim` with the JavaScript
  white-space set, `split('\n')`, `join`, `slice(0, n)`, ASCII case folding
  of a `/i` regular expression without the `u` flag, and `\w`.

Dates are day numbers (`today - 1` is yesterday). The text read from the
vault, the editor's lines and cursor, today's day and the table of inline
template bodies are parameters. A failed vault read is `None`.

The history of writing days is kept only in memory: `streakByFile` is part of
`state`, which is rebuilt empty on every load and never saved. The excerpt
of `INT. HOUSE - DAY`, `She walks in.`, `He waits.` followed by a final line
feed ends with a space, because the empty last line still takes part in the
join (`ExcerptKeepsEmptyLastLine`).

## Model

| member | source | states |
|---|---|---|
| Text.Trim | main.js:68 | `String.prototype.trim`: white space and line terminators removed from both ends, never longer than the input and never ending in white space |
| Text.TrimSlice | main.js:68 | the trimmed text is a slice of the line with only white space around it, and neither starts nor ends with white space |
| Text.TrimUnique | main.js:68 | any text between two white-space runs that neither starts nor ends with white space is the trim of the whole |
| Text.Split | main.js:67 | `split('\n')` gives at least one line and no line holds a line feed |
| Text.JoinSplit | main.js:357 | joining the lines of a split with `'\n'` gives the text back |
| Text.Join | main.js:74 | `Array.prototype.join`: the empty list joins to the empty text, the first element starts the result, and each further element adds a separator |
| Text.SplitJoin | main.js:357 | splitting a join of line-feed-free lines gives the lines back |
| Text.Take | main.js:74 | `slice(0, n)` is the prefix of length `min(n, length)` |
| Text.EndsWith | main.js:335 | `endsWith`: the last characters of the text are exactly those of the suffix |
| Text.LowerString | main.js:123 | `toLowerCase` on the captured word: same length, each character lowered |
| Storyboard.IsScene | main.js:68 | the `isScene` test: the trimmed line starts, ASCII case ignored, with one of the twelve alternatives, `TEASER` only when followed by the end or a non-word character; such a trimmed line has at least four characters |
| Storyboard.Excerpt | main.js:74 | at most 160 characters, the prefix of the next up-to-four untrimmed lines joined by single spaces |
| Storyboard.ExcerptOfFourLines | main.js:74 | with four lines after the heading the excerpt is exactly those four lines joined by spaces, cut to 160 |
| Storyboard.ExcerptKeepsEmptyLastLine | main.js:67-74 | the empty line after a final line feed takes part in the join, so the excerpt ends with a space |
| Storyboard.ExcerptOfLastLine | main.js:74 | a heading on the last line has an empty excerpt |
| Storyboard.CardAt | main.js:70-74 | the card of line `i`: its title is the trimmed line, its heading the untrimmed line, its line `i`, its excerpt at most 160 characters |
| Storyboard.CardsUpTo | main.js:69-74 | the cards of the first `n` lines: at most one per line, each on a line before `n` |
| Storyboard.CardsUpToFaithful | main.js:69-74 | every card sits on a heading line and carries its trimmed title, excerpt and line |
| Storyboard.CardsUpToOrdered | main.js:69 | cards come strictly in document order |
| Storyboard.CardsUpToCover | main.js:68-70 | every heading line has a card |
| Storyboard.CardsUpToIsStoryboard | main.js:67-74 | the cards are exactly one per heading line, in order, with the line's data |
| Storyboard.NoHeadingsNoCards | main.js:69-70 | text without heading lines yields no cards |
| Storyboard.Render | main.js:60-84 | the loop over the lines produces exactly the storyboard of the note |
| Storyboard.FindLine | main.js:86-89 | `findIndex`: -1 exactly when no line equals the text, else the first equal line |
| Storyboard.JumpTarget | main.js:79-80 | the cursor moves exactly when some editor line equals the heading line, and then to the first such line |
| Storyboard.JumpLandsOnHeading | main.js:75-89 | on the rendered text a click always moves, to the first line equal to the heading, never below the card's own line |
| Storyboard.DuplicateHeadingJumpsToFirst | main.js:86-89 | a repeated heading jumps to its first occurrence |
| Storyboard.IsSceneIgnoresCase | main.js:68 | for all lines, texts differing only in ASCII case are both headings or both not |
| Storyboard.IsSceneIgnoresSpace | main.js:68-71 | white space around a line changes neither whether it is a heading nor its title |
| Text.TrimFold | main.js:68 | trimming texts that differ only in ASCII case gives texts that differ only in ASCII case |
| Text.TrimPadded | main.js:68 | white space added around a text does not change its trim |
| Storyboard.InsertionIsHeading | main.js:68 | only `TEASER` needs a word boundary: `INSERTION` is a heading |
| Storyboard.IntercuttingIsHeading | main.js:68 | the test ignores case and `INTERCUT` has no boundary: `Intercutting` is a heading |
| Storyboard.TeasersIsNotHeading | main.js:68 | `TEASERS` fails the boundary after `TEASER` and every other alternative |
| Metrics.WordCount | main.js:274 | the length of the matches of `/\b\w+\b/g`, 0 without a match: the number of maximal runs of ASCII word characters, at most half the length rounded up since two words need a separator |
| Metrics.WordCountZero | main.js:274 | the count is 0 exactly when the text has no ASCII word character (so 0 for empty text) |
| Metrics.WordCountSeparated | main.js:274 | a non-word character splits the count into the counts of both sides |
| Metrics.WordCountOfRun | main.js:274 | a non-empty run of word characters is one word |
| Metrics.WordCountExample | main.js:274 | `-` separates words and digits belong to them |
| Metrics.AccentSplitsWord | main.js:274 | `\w` is ASCII-only: `Diálogo` counts as two words |
| Metrics.Touch | main.js:279-282 | today joins the file's days, becomes its last-opened day, the entry is created if missing, other files keep their entries |
| Metrics.TouchKeepsDates | main.js:280-282 | no recorded day of any file is lost, and today is recorded |
| Metrics.TouchIdempotent | main.js:281 | touching the same file twice on one day is the same as once |
| Metrics.Streak | main.js:290 | the streak never exceeds the number of recorded days up to today (its termination measure) |
| Metrics.StreakIsRun | main.js:290 | every day of the streak is recorded and the day before it is not |
| Metrics.StreakOfRun | main.js:290 | a recorded run preceded by a missing day is the streak: the largest such `n` |
| Metrics.StreakExamples | main.js:290 | seven consecutive days make 7; a missing yesterday gives 1 whatever older days exist |
| Metrics.StreakLength | main.js:290 | the backward walk terminates and returns the streak: a recorded run ending today preceded by a missing day |
| Metrics.Achievements | main.js:284-287 | the 500 notice iff words >= 500, the 1000 notice iff words >= 1000, the streak notice iff streak >= 7, none twice |
| Metrics.ThousandFiresBoth | main.js:284-285 | at 1000 words both word notices fire, 500 first |
| Metrics.SessionDelta | main.js:275 | `Math.max(0, words - lastCount)`: the least non-negative amount that brings the last count up to the new count; 0 exactly when the count did not grow |
| Metrics.SessionTotalCoversLast | main.js:268-276 | over a session's updates the total never shrinks and is never below the latest count; `WriterState.Valid` ties `sessionWords` and `lastCount` to this total and last count of the session's recorded counts |
| Metrics.WriterState.constructor | main.js:96 | the initial state: no session, zero counters, empty history |
| Metrics.WriterState.StartSession | main.js:268 | records the start and sets both counters to 0, history untouched |
| Metrics.WriterState.RecordCount | main.js:275-276 | the new count becomes `lastCount` and is recorded, the session total grows by `max(0, words - old lastCount)`, and the total stays the sum of the session's clamped deltas |
| Metrics.WriterState.UpdateMetricsForFile | main.js:271-289 | `lastCount` becomes the new count, `sessionWords` grows by `max(0, words - old lastCount)` and never decreases, the total stays at least the last count, the count is recorded among the session's counts, the history is touched, the notices are the achievements of the count and the file's streak; a failed read changes nothing |
| Metrics.WriterState.StatusCounts | main.js:292-297 | the status bar shows `lastCount` and the active file's streak, 0 without an active file |
| Metrics.RepeatedUpdateRefires | main.js:275-287 | a second update with the same text on the same day adds no words but raises the same notices again |
| Metrics.EmptyNoteFirstUpdate | main.js:274-287 | an empty note opened for the first time counts no words and has a streak of 1 |
| Directive.WordRun | main.js:121 | the greedy `\w+`: a run of word characters not followed by one |
| Directive.MatchDirective | main.js:121-123 | a match iff the line starts with `/script-` ignoring case and a word character follows; the style is the whole following word, lowered |
| Directive.MatchIsStyleWord | main.js:123 | the style is a non-empty lower-case word |
| Directive.DirectiveRoundTrip | main.js:354-356 | a style word written after `/script-`, followed by nothing or a non-word character, is read back |
| Directive.DirectiveIgnoresCase | main.js:354 | texts differing only in ASCII case yield the same directive |
| Directive.TemplateForStyle | main.js:164-167 | a `.md` template file for exactly the eight styles, none for any other |
| Directive.TemplatesDistinct | main.js:164-167 | no two styles share a template file |
| Directive.LauncherAgrees | main.js:303-312 | the template launcher lists the same eight styles with the same files |
| Directive.TemplateForStyleAsWritten | main.js:164-167 | the object-literal lookup: own entries as `TemplateForStyle`, inherited members for prototype names |
| Directive.ConstructorIsDirective | main.js:354-356 | `/script-constructor` is a directive for style `constructor` |
| Directive.ProtoIsDirective | main.js:354-356 | `/script-__proto__` is a directive for style `__proto__` |
| Directive.PrototypeNamesPassGuard | main.js:339-340 | those styles are not among the eight yet pass the `if (!tfile)` guard |
| Directive.CorrectedRejectsUnknown | main.js:339-340 | the corrected lookup rejects every unknown style and agrees with the written guard off the prototype names |
| Directive.AppendToFile | main.js:333-336 | the note is kept as a prefix, the text ends the result, a line feed precedes the text, and none is added when the note ends with one |
| Directive.Block | main.js:342 | the inserted block is the trimmed template body between two line feeds |
| Directive.AppendAfterNewline | main.js:335 | after a note ending with a line feed the block adds a blank line |
| Directive.ApplyScriptDirective | main.js:338-348 | with the corrected lookup: unknown styles are rejected with the style; a non-empty inline body is appended; otherwise the template file must be fetched |
| Directive.UseTemplate | main.js:341-347 | the inline body is appended exactly when it is non-empty, otherwise the file is fetched; never a rejection |
| Directive.InheritedName | main.js:341-344 | the name an inherited member turns into is never a template file |
| Directive.ApplyScriptDirectiveAsWritten | main.js:338-348 | as written: agrees with the corrected version off the prototype names, rejects only styles that are neither known nor inherited, and uses an inherited member as a template name |
| Directive.ConstructorFetchesAsWritten | main.js:338-347 | as written `constructor` leads to a fetch of `function Object() { [native code] }`; the corrected version rejects it |
| Directive.InlineBodiesAvoidFetch | main.js:341-342 | when every template file has a non-empty inline body, no known style reaches the fetch |
| Directive.AfterFirstLine | main.js:357 | the remaining lines are shorter than the note unless the note is empty |
| Directive.AfterFirstLineRestores | main.js:353-357 | first line, line feed and remaining lines give the note back; a single-line note leaves nothing |
| Directive.HandleSlashDirectiveOnOpen | main.js:350-362 | handled exactly when the trimmed first line is a directive; the note becomes the remaining lines and the style is applied to them |
| Directive.FirstLineOf | main.js:353-357 | a first line without line feed is split off and the rest is kept intact |
| Directive.DirectiveLineShape | main.js:353 | a directive line written with a style word is unchanged by trimming |
| Directive.DirectiveLineRemoved | main.js:350-362 | a note starting with a directive line loses that line whatever the style, even an unknown one |
| Directive.CheckedLine | main.js:119 | `Math.max(0, cur.line - 1)`: the line before the cursor, or line 0 when the cursor is on line 0 |
| Directive.LineText | main.js:120 | the trimmed text of the checked line: empty past the last line, otherwise the trimmed line, never longer and never ending in white space |
| Directive.RemoveLine | main.js:124 | the line and its break are removed and the others keep their order; on the last line only its text goes |
| Directive.Keydown | main.js:112-128 | a directive on the checked line is removed from the editor and its style is returned; otherwise nothing happens |
| Directive.KeydownAgreesWithOpen | main.js:119-126 | Enter after the first line and opening the note read the same directive, apply the same style and leave the same remaining text |

## Left out

- Obsidian host calls: `vault.read` and `vault.modify`, the workspace and its leaves, the `ItemView` DOM, `Notice`, `registerEvent`/`registerDomEvent`; the text read and written are plain values, and notices are returned as values.
- The status-bar text and the session minutes (`Date.now`, `Math.round`), `stopSession`, and `setTimeout`: clock and floating point.
- `moment` formatting and the local time zone: a day is an integer; the two calls to `moment()` in one update are taken to give the same day.
- The `fetch` of a template file and its failure notice: the model stops at `NeedsFetch` with the file name.
- The inline template bodies and the I18N tables: opaque constant data, so the bodies are a parameter.
- The contextual mini menu (`showMiniMenuIfApplicable`), the settings tab and the storyboard toggle: DOM and UI.
- `insertTemplateLauncher`'s menu: only its table is modelled (`LauncherAgrees`); its append is the same composition as `ApplyScriptDirective`.
- The storyboard placeholder shown when no file is open, and the DOM cards themselves: `Render` returns the card values.
- Overlapping asynchronous updates: calls are modelled one after another. After Enter the directive is applied to the note's saved text, which may lag the editor; `Keydown` returns the style and the editor lines separately.
- Directive.ApplyScriptDirective: follows the corrected lookup `TemplateForStyle`, so `constructor` and `__proto__` are rejected as unknown; the code as written passes them to the inline lookup and the fetch (`ApplyScriptDirectiveAsWritten`, see Findings).
- Directive.HandleSlashDirectiveOnOpen: applies `ApplyScriptDirective`, so a first line `/script-constructor` or `/script-__proto__` gives `Unrecognized` where the code as written attempts a fetch.
- Directive.DirectiveLineRemoved: its second ensures is about `ApplyScriptDirective`, so for `constructor` and `__proto__` it states `Unrecognized` where the code as written attempts a fetch.
- Directive.RemoveLine: on the last line the end position `{line: prev + 1, ch: 0}` lies past the document; the model assumes the editor clips it to the end of the text.
- Storyboard.Excerpt: JavaScript strings count UTF-16 code units, the model counts characters; they differ only for characters outside the Basic Multilingual Plane.
- Directive.LineText: `editor.getLine` past the last line is taken to give an empty line.
- Metrics.WriterState.UpdateMetricsForFile: a read failure is `None`; failures inside the host calls after the read are not modelled.

## Findings

| source | as written | input that shows it | evidently intended | confidence | as-written member | corrected member |
|---|---|---|---|---|---|---|
| main.js:164-167, main.js:339-340 | `templateForStyle` indexes a plain object literal, so a style naming an inherited member (`constructor`, `__proto__`) yields a truthy value and passes the unknown-style guard | a note whose first line is `/script-constructor` | only the eight listed styles map to a template; any other is rejected with the unknown-style notice | medium, not executed | Directive.ApplyScriptDirectiveAsWritten | Directive.ApplyScriptDirective |
