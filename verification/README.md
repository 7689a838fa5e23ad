# syntax-synthesizer: the code-to-music parser in Dafny

The parser `parseCodeToMusic` turns the text of a program into a
`ParsedComposition`. The composition has two parts:

- **a tempo** (`bpm`): 90 beats per minute plus 15 for every whole-word
  occurrence of `for`, `while`, `map`, `forEach` or `reduce`, clamped to
  the range 80 to 180;
- **one `MusicalEvent` per line** that is neither blank nor a `//` comment.
  Each event records:
  - a note: the scale degree is the number of leading whitespace
    characters divided by two, saturating at the top of the scale;
  - a duration class from the length of the trimmed line;
  - a drum role from the line's leading keyword, with `if` before `else`
    before `function`;
  - a velocity that grows with the indentation;
  - a `bars:quarters:sixteenths` time stamp read off a running
    sixteenth-note clock. Every kept line advances the clock by its step;
    a `return` line advances it by twice the step.

The project is organised as follows:

- `wrappers.dfy`: `Option`.
- `scales.dfy`: the two pitch palettes.
- `text.dfy`: the JavaScript string primitives the parser relies on:
  - `trim`;
  - `search(/\S|$/)`;
  - `startsWith`;
  - `includes`;
  - `split` on one character.
- `word_match.dfy`: counting `\bkw\b` matches. It models the global regex
  scan and proves that the scan counts exactly the whole-word positions.
- `timing.dfy`: the sixteenth-note clock and its rendering as a transport
  position.
- `code_parser.dfy`: the parser itself. It has three parts:
  - per-line features;
  - the event of one line;
  - the line scan that carries the clock.

  `ParseCodeToMusic` is the functional statement of the whole parse.
  `ComposeMusic` is the same parse written as the loops the program runs.
  It is proved equal to `ParseCodeToMusic`.
- `scenarios.dfy`: worked examples on small programs.

Three points worth knowing when reading the model against the code:

- `constants.ts` defines only the scales `DORIAN` and `PENTATONIC`, so
  `ScaleKey` has two values.
- Loop keywords are counted over the whole text, comments included. The
  program `// map` therefore yields no events but a tempo of 105
  (`Scenarios.CommentedMapParse`).
- Comments inside `services/codeParser.ts` speak of "10 for every loop" and
  of 10/25-character line buckets. The code adds 15 per loop and has its
  buckets at 15 and 30 characters. The model follows the code.

## Model

| member | source | states |
|---|---|---|
| Scales.Notes | constants.ts:2-5 | every palette is non-empty; Dorian has 12 notes starting at D3, Pentatonic 9 starting at C3 |
| CodeParser.LoopCountIsHits | services/codeParser.ts:22-28 | `LoopCount`, the loop count of lines 22-28, is the sum over the five keywords of the number of positions where each keyword matches as a whole word |
| CodeParser.KeywordTotalZero | services/codeParser.ts:24-28 | keywords none of which occurs as a whole word add nothing to the loop count |
| CodeParser.CountLoops | services/codeParser.ts:23-28 | the keyword-by-keyword accumulation loop computes the loop count |
| WordMatch.ScanCountsHits | services/codeParser.ts:25-27 | `ScanFrom`, the global regex scan (resume after a match, else one character on), counts exactly the whole-word positions from its start index |
| WordMatch.CountIsNumberOfHits | services/codeParser.ts:25-27 | `CountWholeWord`, the length of `match(/\bkw\b/g)`, is the number of whole-word positions of `kw` |
| WordMatch.ForEachIsNotFor | services/codeParser.ts:22-27 | no position is counted both as `for` and as `forEach` |
| WordMatch.ExtensionHidesPrefix | services/codeParser.ts:25 | where a keyword matches as a whole word, no proper prefix of it does |
| WordMatch.EmbeddedIsNotCounted | services/codeParser.ts:25 | a keyword preceded by a word character (as `for` inside `performer`) is not counted there |
| WordMatch.AbsentKeyword | services/codeParser.ts:25-27 | a keyword one of whose letters does not occur in the text is counted zero times |
| CodeParser.Bpm | services/codeParser.ts:30 | the tempo lies in [80, 180], is at least 90, is 90 with no loops, and reaches 180 exactly from 6 loops on |
| CodeParser.BpmGrowsWithLoops | services/codeParser.ts:30 | more loops never lower the tempo, and below the cap each loop adds exactly 15 |
| CodeParser.ParsedTempo | services/codeParser.ts:22-30 | the tempo of a parse is 90 plus 15 for every whole-word position of for, while, map, forEach or reduce in the code, capped at 180 |
| Text.LeadingWs | services/codeParser.ts:45 | the result is the index of the first non-whitespace character, or the length when there is none |
| Text.TrimSpec | services/codeParser.ts:40 | `Trim` (`line.trim()`) yields nothing exactly for all-whitespace text; otherwise it is the slice from the first to the last non-whitespace character, starting at `LeadingWs` |
| Text.TrimIdempotent | services/codeParser.ts:40 | trimming twice is trimming once |
| Text.TrimOfPrefixed | services/codeParser.ts:40 | leading whitespace added to a line does not change its trimmed text |
| Text.LeadingWsOfPrefixed | services/codeParser.ts:45 | leading whitespace added to a line is counted one for one |
| Text.ContainsSpec | services/codeParser.ts:73 | `Contains` (`includes`) holds exactly when the pattern occurs at some index |
| Text.AbsentFirstChar | services/codeParser.ts:73 | a pattern whose first character is absent from the text is not included in it |
| Text.Split | services/codeParser.ts:18 | splitting yields at least one piece and no piece contains the separator |
| Text.JoinSplit | services/codeParser.ts:18 | joining the pieces of a split with the separator gives back the text |
| Text.SplitJoin | services/codeParser.ts:18 | splitting separator-free pieces joined by the separator gives back the pieces |
| Text.SplitFree | services/codeParser.ts:18 | text without a newline is a single line |
| CodeParser.FeaturesSpec | services/codeParser.ts:40-45 | `IsSkipped` and `Features`: a line is skipped exactly when it is all whitespace or its trimmed text starts with `//`; for a kept line the trimmed text starts right after the leading whitespace, with a non-whitespace character |
| CodeParser.IndentChangesOnlyLeading | services/codeParser.ts:40-73 | two more leading spaces raise the leading count by two and change no other feature of the line |
| CodeParser.FeaturesOfIndentedText | services/codeParser.ts:40-73 | `Features`: the features of indentation followed by text that starts and ends with a non-whitespace character are read off that text (leading count, trimmed length, drum role, return flag) |
| CodeParser.DrumRolePriority | services/codeParser.ts:70-87 | `DrumRole`: kick exactly when the trimmed line starts with `if`; snare exactly when it starts with `else` but not `if`; hihat exactly when it has neither prefix but contains `function`; no drum otherwise |
| CodeParser.DurationOf | services/codeParser.ts:55-67 | quarter exactly above 30 characters, eighth exactly in 16..30, sixteenth exactly up to 15 |
| CodeParser.Step | services/codeParser.ts:56-67 | the step of a duration class is 1, 2 or 4 sixteenths |
| CodeParser.Duration.Notation | services/codeParser.ts:55-67 | the notation agrees with the clock step: `16n` exactly for one sixteenth, `8n` exactly for two, `4n` exactly for four |
| CodeParser.NotationOneToOne | services/codeParser.ts:55-67 | two duration classes share a notation exactly when they are the same class, and exactly when they share a clock step |
| CodeParser.StepGrowsWithLength | services/codeParser.ts:58-67 | a longer trimmed line never gets a shorter step, and two lengths share a step exactly when they share a duration class |
| CodeParser.NoteIndex | services/codeParser.ts:47-48 | the scale index is always in range, never above depth, and is the depth unless it saturates at the last note |
| CodeParser.Advance | services/codeParser.ts:110-115 | the clock advance is the step, doubled exactly for `return` lines, so between 1 and 8 sixteenths |
| CodeParser.EventOf | services/codeParser.ts:101-108 | the event is stamped with the clock before advancing; it is a drum exactly when it has a drum type; it has no note exactly when it is a drum line that does not return, and otherwise its note is `scale[noteIndex]`; its velocity is 0.6 plus 0.1 per level |
| CodeParser.LineEvent | services/codeParser.ts:40-108 | the event of a line stated in terms of its text: drum exactly when the trimmed text starts with `if` or `else` or contains `function`, silent exactly when such a line does not start with `return`, note at the clamped depth, velocity from the leading whitespace, duration from the trimmed length |
| CodeParser.IndentRaisesPitchAndVelocity | services/codeParser.ts:45-107 | two more leading spaces raise the note one degree (up to the top of the scale) and the velocity by 0.1, and change nothing else in the event |
| Timing.TimeOf | services/codeParser.ts:96-98 | the rendered position has quarters and sixteenths below 4 and `16*bars + 4*quarters + sixteenths` equal to the counter |
| Timing.TimeOfTicks | services/codeParser.ts:96-98 | every position in normal form is the rendering of its own tick count, so rendering is a bijection onto normal forms |
| Timing.BeforeIsTickOrder | services/codeParser.ts:96-99 | on normal forms, the bar-quarter-sixteenth order is the order of tick counts |
| Timing.TimeOfMonotone | services/codeParser.ts:96-99 | rendering preserves and reflects the counter's order |
| CodeParser.MusicalEvent.TimeStamp | services/codeParser.ts:96-99 | the stamp of an event is in normal form and encodes the event's clock reading, so bars, quarters and sixteenths recombine to it |
| CodeParser.Kept | services/codeParser.ts:41 | `Kept`, the lines that pass the skip test of line 41: no more of them than lines, and none of them skipped |
| CodeParser.KeptIsFilter | services/codeParser.ts:41 | `Kept` keeps every line that is not skipped exactly as often as it occurs, and no skipped line |
| CodeParser.KeptAppend | services/codeParser.ts:39-41 | `Kept` keeps source order: filtering a concatenation concatenates the filtered parts, which with the one-line case fixes `Kept` uniquely |
| CodeParser.KeptLinesIsFilter | services/codeParser.ts:39-41 | `KeptLines` keeps every line that is neither blank nor a `//` comment exactly as often as it occurs, and no other line |
| CodeParser.KeptLinesAppend | services/codeParser.ts:39-41 | `KeptLines` keeps source order: filtering a concatenation of sources concatenates the filtered parts |
| CodeParser.EventsFromLength | services/codeParser.ts:39-116 | the scan emits exactly one event per kept line, and the clock moves on by at least one sixteenth per event |
| CodeParser.EventsFromOrdered | services/codeParser.ts:96-115 | every event lies between the start and final clock, and event ticks strictly increase |
| CodeParser.EventsFromInScale | services/codeParser.ts:48-49 | every note the scan emits is drawn from the scale |
| CodeParser.EventsFromClock | services/codeParser.ts:110-115 | the final clock is the start clock plus the advances of the kept lines |
| CodeParser.KeptLineEvent | services/codeParser.ts:39-116 | `EventsFrom`, the line scan: event `k` is the event of the `k`-th kept line, stamped with the start clock plus the advances of the kept lines before it |
| CodeParser.EventsFromAppend | services/codeParser.ts:39-116 | scanning two runs of lines in turn, the second starting at the first's final clock, equals scanning their concatenation |
| CodeParser.SkippedLeavesNoTrace | services/codeParser.ts:41 | removing a skipped line changes neither the events nor the clock |
| CodeParser.SkippedLineLeavesNoTrace | services/codeParser.ts:39-41 | removing a blank or comment line from the source changes neither the events nor the clock |
| CodeParser.SilentWhenAllSkipped | services/codeParser.ts:39-41 | source made only of blank and comment lines yields no events |
| CodeParser.KeptFeaturesOf | services/codeParser.ts:39-41 | filtering skipped lines after feature extraction keeps the features of exactly the kept lines |
| CodeParser.IncreasingTicksAreBefore | services/codeParser.ts:96-99 | strictly increasing ticks give strictly increasing time stamps |
| CodeParser.ParseCodeToMusic | services/codeParser.ts:17-119 | the tempo is in [90, 180]; there is one event per kept line; time stamps strictly increase; every note is from the chosen scale |
| CodeParser.ParsedEventsFollowKeptLines | services/codeParser.ts:33-118 | the parse has one event per kept line, in source order, each stamped with the advances of the kept lines before it |
| CodeParser.ComposeMusic | services/codeParser.ts:17-119 | the loop form of the parse computes the same composition as the functional form |
| CodeParser.ScanLines | services/codeParser.ts:37-116 | the line loop that carries the clock computes the line scan |
| CodeParser.ScanStep | services/codeParser.ts:39-116 | one more line extends the scan by that line's event at the current clock, or by nothing when the line is skipped |
| Scenarios.CommentedMapTempo | services/codeParser.ts:22-30 | `// map` has loop count 1 and tempo 105 |
| Scenarios.CommentedMapParse | services/codeParser.ts:17-119 | the whole parse of `// map` is tempo 105 with no events |
| Scenarios.ForEachCountedOnce | services/codeParser.ts:22-27 | in `xs.forEach(play)`, `forEach` counts once and `for` not at all |
| Scenarios.KickLine | services/codeParser.ts:70-79 | `if (x) {` is a kept kick line with trimmed length 8 |
| Scenarios.ReturnLine | services/codeParser.ts:45-72 | `  return true;` is a kept return line, two spaces deep, trimmed length 12, no drum |
| Scenarios.BranchScan | services/codeParser.ts:39-116 | those lines, a blank line and `}` give three events: a silent kick at clock 0, E3 at clock 1 with velocity 0.7, and D3 at clock 3 after the return's rest; the clock ends at 4 |
| Scenarios.BranchScanWithoutBlank | services/codeParser.ts:41 | dropping the blank line from that scan leaves the three events unchanged |
| Scenarios.BranchParse | services/codeParser.ts:17-119 | the whole parse of `if (x) {\n  return true;\n}` in Dorian is tempo 90 with those three events |
| Scenarios.BranchTempo | services/codeParser.ts:22-30 | that program contains no loop keyword |
| Scenarios.NoLoopLetters | services/codeParser.ts:22-30 | text without the letters `o`, `w`, `m` and `d` has loop count 0 and tempo 90 |

## Left out

- `services/audioEngine.ts`, `components/Visualizer.tsx`,
  `components/CodeEditor.tsx` and `App.tsx` are not part of this model.
  They are audio, canvas and UI glue over libraries the model cannot see.
- Velocity is an integer number of tenths (`6 + depth`), not the
  floating-point `0.6 + depth * 0.1`. As in the code, there is no upper
  clamp.
- The time stamp is the `Time` triple `(bars, quarters, sixteenths)`
  computed by `MusicalEvent.TimeStamp`. The model does not render it as
  the string `"b:q:s"`. Events keep the clock reading from which the
  triple is computed.
- Strings are sequences of Unicode code points. JavaScript measures
  lengths and indices in UTF-16 code units. The two differ only for
  characters outside the Basic Multilingual Plane. Every whitespace
  character is inside it, so the leading-whitespace count is the same under
  both measures. Only `trimmedLength`, and with it the 15/30 duration
  bucket, can differ for a line holding such characters.
- Whitespace is the fixed set in `Text.IsWs`: the ECMAScript WhiteSpace and
  LineTerminator characters of the Unicode version the set was taken from.
  `\w` and `\b` use the ASCII word characters, as a regex without the `u`
  flag does.
- `WordMatch.CountWholeWord` requires a keyword made only of word
  characters. All five loop keywords are, so the parser's own uses are
  covered. Keywords with other characters are not modelled.
- The scale is chosen with the `ScaleKey` value. JavaScript's default
  argument `'DORIAN'` is not modelled; a caller passes `Dorian`.
- The `index` argument of the line callback is never used and is not
  modelled.
- `DEFAULT_CODE` in `constants.ts`, the program the editor opens with, is
  not part of this model. It is editor content; the worked examples use
  smaller programs (`Scenarios`).
