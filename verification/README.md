# tap-em: a verified model of the TAP summarizer

`tapem.py` reads the output of a test run in the Test Anything Protocol
(TAP) line by line. It checks the run against TAP's structure: a plan
"A..B" declaring the test numbers, one "ok N" or "not ok N" result per
declared number, and no number twice. Afterwards it prints a report with
every result, every failure and every protocol error. The report ends with
a one-line summary and a verdict. The program exits with the number of
failures plus protocol errors, capped at 100.

This project models the `Tapper` class that does this work.

- `pytext.dfy` (module `PyText`) models the Python string built-ins the
  class relies on: `strip`, `split`, `startswith`, `in`, `replace`, `int()`
  on a decimal string and `str()` on an integer.
- `tap.dfy` (module `Tap`) models the state of a `Tapper` as a value,
  `RunState`. It gives one function per step: `AfterNumber` for
  `found_number`, `AfterRange` for `maybe_range`, `AfterLine` and
  `AfterLines` for `process_line` and `drain`, `Finalized` for `finalize`,
  `Report` for `summarize`, and `ExitCode` for `exit_code`. The lemma next
  to each step proves what that step guarantees.
- `tapem.dfy` (module `Tapem`) is the class itself. Its fields are updated
  in place by methods with the program's own control flow. The `for`
  loops of `maybe_range`, `drain` and `summarize` are loops here too. Each
  method is proved to produce exactly the state and output of the
  corresponding `Tap` function, and to keep the invariant `Valid()`.
- `tapruns.dfy` (module `TapRuns`) proves properties of whole runs:
  - results are recorded in input order;
  - the glyph table never changes what is counted;
  - a well-formed stream has no protocol error and exits with its number of
    failures;
  - the example in the program's documentation follows from these.

Protocol errors are kept as values of the datatype `ProtocolError`. Each
constructor carries the values the program formats into its message, and
`Text` produces the exact message line. `summarize` prefixes every stored
error in place with the disaster glyph. That rewrite is `FlagAll`, whose
contract says the texts after it are the old texts with the glyph in front.

Three behaviours of the code are worth knowing, and the model has them:

- `finalize` is not idempotent. A second call appends the same whole-run
  errors again and raises `error_count` (`Tap.FinalizeTwice`).
- After an invalid test number, `found_number` still runs the range check
  and the duplicate check on the raw string (tapem.py:119-132). A raw
  string never fits a range of integers, so, once a range has been
  declared, it also reports "doesn't fit"; with no range declared it
  reports "No test range defined before result" instead
  (`Tap.NumberErrorsListed`).
- A plan word such as "a..b", which splits into two parts that are not
  integers, raises `ValueError` in `int()` (tapem.py:142). The model
  excludes such a line by the precondition `Processable`.

## Model

| member | source | states |
|---|---|---|
| Tap.Prefixed | tapem.py:77-78 | a prefixed line is the glyph, the four characters "  \| ", then the text, so glyph and text can be cut back out of it |
| Tap.PrefixedInjective | tapem.py:77-78 | two lines prefixed with the same glyph are equal only when their texts are equal |
| Tap.ThemesSafe | tapem.py:91-111 | both glyph tables of the program (emoji and ASCII) contain no letter the later summary replacements look for |
| Tap.ToToken | tapem.py:117-120 | the number is kept as raw text exactly when `int()` fails on it; otherwise it is the parsed integer |
| Tap.TokenRoundTrip | tapem.py:117-127 | formatting a token the way the messages do and converting it back gives the same token |
| Tap.Text | tapem.py:120-207 | the message of an invalid number, of a result before any range, of a repeated number, of an invalid range, of an overlap and of too many results ends with the value it reports (the quoted raw text, the test number, the plan word, the quoted overlapping number, the declared count); a flagged message is the glyph, the separator and the unflagged message |
| Tap.NumberErrorsListed | tapem.py:116-130 | `found_number` adds exactly one error for each check that fails: invalid number, no range yet or outside the range, repeated number; each error is there exactly in its own case, and "no range" and "outside the range" never come together |
| Tap.AfterNumber | tapem.py:116-132 | `found_number` appends exactly those errors to `tap_errors`, leaves the number in `numbers`, and changes no other field; every list only grows |
| Tap.NumberStep | tapem.py:128-132 | a repeated number leaves `numbers` as it was and a new one is appended, so `numbers` stays free of duplicates |
| Tap.ParseRange | tapem.py:135-145 | a reversed plan has A > B and an accepted plan has A <= B |
| Tap.ReplacePrinted | tapem.py:135 | replacing ".." by a space in "A..B" gives "A B" when neither A nor B contains a dot |
| Tap.ParseRangePrinted | tapem.py:134-145 | a plan word printed from two integers parses back to those integers: accepted when A <= B, reversed otherwise |
| Tap.NewNumbers | tapem.py:146-149 | the loop appends exactly the numbers of [A, B] that were not declared before |
| Tap.NewNumbersIncreasing | tapem.py:146-149 | those numbers are appended in ascending order, so none of them twice |
| Tap.OverlapsReported | tapem.py:150-152 | every number of [A, B] that was already declared is reported as an overlap |
| Tap.RangeAccounting | tapem.py:146-152 | the numbers appended and the overlaps reported are together exactly as many as [A, B] holds |
| Tap.OverlapCount | tapem.py:146-152 | declaring an already declared interval again appends nothing and reports each of its numbers once, in ascending order |
| Tap.AfterRange | tapem.py:134-152 | `maybe_range` changes only `range` and `tap_errors`, and both only grow |
| Tap.RangeStep | tapem.py:134-152 | for "A..B" with A <= B the range afterwards covers [A, B] plus what it covered, with no duplicates, and every overlap is reported; A > B adds exactly one "Invalid range" error; any other word changes nothing |
| Tap.AfterResult | tapem.py:159-169 | recording an outcome leaves `range` and `error_count` alone, and every list only grows |
| Tap.ResultStep | tapem.py:156-171 | an "ok" line appends its prefixed record to `successes` and `results`; a "not ok" line appends it to `errors` and `results`; any other line changes nothing. `len(results) == len(successes) + len(errors)` is kept |
| Tap.AfterLine | tapem.py:154-175 | `process_line` never touches `error_count`, and every list only grows |
| Tap.LineStep | tapem.py:154-175 | `process_line` keeps the invariant; it records the stripped line exactly as `ResultStep` says; it changes `range` only when the first word contains "..", and `numbers` only for an "ok"/"not ok" line |
| Tap.AfterLines | tapem.py:179-184 | a whole input leaves `error_count` alone, and every list only grows |
| Tap.AfterLinesSnoc | tapem.py:181-183 | feeding one more line is one more `process_line` step |
| Tap.AfterLineStripped | tapem.py:154-156 | a line and its `strip()` are processable alike and leave the same state, so whitespace around a line, such as its "\n", changes nothing |
| Tap.AfterLinesStripped | tapem.py:179-191 | lines that each strip to the line at the same place of a processable input are processable and leave the state that input leaves |
| Tap.LinesStep | tapem.py:179-191 | a whole input keeps the invariant |
| Tap.FinalizeErrors | tapem.py:193-207 | `finalize` adds one error per failing check: "No test range found" exactly when no range was declared; "No test results found" exactly when there are no results; "More test results than possible" exactly when there are more numbers or results than declared numbers |
| Tap.Finalized | tapem.py:193-208 | `finalize` appends exactly those errors and sets `error_count` to the failures plus all protocol errors, which is never negative; nothing else changes, the invariant is kept and every list only grows |
| Tap.FinalizeTwice | tapem.py:193-208 | a second `finalize` appends the same errors again and raises `error_count` by their number |
| Tap.FlagAll | tapem.py:212-214 | the rewrite keeps the number of protocol errors, and each new text is the old text behind the disaster glyph |
| Tap.GlyphSummaryShape | tapem.py:232-235 | with glyphs the replacements cannot touch, replacing "not ok", then "ok", then "tap errors" turns the summary into each count followed by its glyph |
| Tap.VerdictOf | tapem.py:237-246 | the verdict is "All tests successful" exactly when `error_count` is 0; "All tests failed" exactly when it is not 0, there is no success and there are as many results as declared numbers; "Some tests failed" otherwise |
| Tap.VerdictGlyph | tapem.py:237-248 | the verdict line carries the great-success glyph when `error_count` is 0; otherwise the catastrophe glyph when there is a protocol error or no success, and the disaster glyph when there are successes and no protocol error |
| Tap.ReportLayout | tapem.py:216-248 | the report is, in order: a blank line, the results heading and every result (when there are results); a blank line, the failures heading and every failure (when there are failures); the protocol heading and every error text (when there are errors); then a blank line, the plain summary and the verdict line |
| Tap.ExitCode | tapem.py:250-252 | the exit status lies in [0, 100], is at most `error_count`, and is `error_count` or 100 |
| Tapem.Tapper.constructor | tapem.py:82-89 | a new object has empty lists, `error_count` -1 and the given glyph table |
| Tapem.Tapper.FoundNumber | tapem.py:116-132 | the fields afterwards are `AfterNumber` of the fields before, and the invariant is kept |
| Tapem.Tapper.MaybeRange | tapem.py:134-152 | the fields afterwards are `AfterRange` of the fields before, and the invariant is kept |
| Tapem.Tapper.DeclareRange | tapem.py:146-152 | the loop appends exactly `NewNumbers` to `range` and exactly `OverlapErrors` to `tap_errors`, and changes no other field |
| Tapem.Tapper.ProcessLine | tapem.py:154-175 | the fields afterwards are `AfterLine` of the fields before, and the invariant is kept |
| Tapem.Tapper.RecordOutcome | tapem.py:157-171 | the classification part of `process_line`, with the program's `number` and `result` variables: the fields afterwards are `AfterResult` of the fields before, and the invariant is kept |
| Tapem.Tapper.Drain | tapem.py:179-184 | after the loop over the given lines, the fields are `AfterLines` of the fields before |
| Tapem.Tapper.Finalize | tapem.py:193-208 | the fields afterwards are `Finalized` of the fields before, and the invariant is kept |
| Tapem.Tapper.Summarize | tapem.py:210-248 | only `tap_errors` changes, to `FlagAll` of its old value, and the lines yielded are `Report` of the new state |
| Tapem.Tapper.EmitBlock | tapem.py:216-229 | one block appends nothing when there are no items; otherwise the optional blank line, the heading and every item, in order |
| Tapem.Tapper.VerdictText | tapem.py:232-248 | the verdict line is built from the glyph summary, the "All"/"Some" rule and the glyph choice, and equals `VerdictLine` of the state |
| Tapem.Tapper.ExitCode | tapem.py:250-252 | the exit status lies in [0, 100] and is `Tap.ExitCode` of `error_count` |
| TapRuns.ResultsInOrder | tapem.py:159-169 | `results` is its old value followed by the record of every "ok"/"not ok" line of the input, each once, in input order |
| TapRuns.LinesTally | tapem.py:159-169 | each "ok" line adds one success, each "not ok" line one failure, and both add one result, whatever the state and the glyphs |
| TapRuns.LinesSameCounts | tapem.py:154-191 | two glyph tables lead to the same numbers, range, protocol errors and counts on any input |
| TapRuns.ThemeIndependent | tapem.py:154-252 | after `finalize`, two glyph tables give the same counts, the same exit status and the same verdict |
| TapRuns.PlanStep | tapem.py:173-175 | the plan line "1..N" on a fresh state declares exactly 1..N and changes nothing else |
| TapRuns.TestLineReading | tapem.py:156-166 | "ok N…" is read as a pass and "not ok N…" as a failure, both with number N, and neither is taken for a plan |
| TapRuns.TestLineStep | tapem.py:154-171 | a test line whose number is declared and not yet seen adds its record and its number, and no protocol error |
| TapRuns.TestLinesRun | tapem.py:179-184 | after the plan 1..n, test lines with distinct numbers of 1..n, in any order, are each seen once, with no protocol error; this is stated for the lines as printed, and `Tap.AfterLinesStripped` carries it over to lines with whitespace around them |
| TapRuns.TestLinesKinds | tapem.py:159-166 | those test lines count as their passes and their failures |
| TapRuns.StreamRun | tapem.py:179-191 | a well-formed stream (plan 1..N, then one test line for each number 1..N, in any order), read line by line with any whitespace around each line such as the "\n" `drain` keeps, leaves every number declared and seen once, no protocol error, and its passes and failures counted |
| TapRuns.CleanFinalize | tapem.py:193-246 | `finalize` on a state with at least one result, as many numbers seen and as many results as declared numbers, and no protocol error adds no error and sets `error_count` to the failures; the verdict then depends on the failures and passes alone |
| TapRuns.WellFormedRun | tapem.py:179-252 | after `finalize`, a well-formed stream, each line possibly with whitespace around it, has no protocol error. Its error count is its number of failures, and its exit status is that number capped at 100. The verdict is "All tests successful" without failures, "All tests failed" without passes, and "Some tests failed" otherwise |
| TapRuns.DocStream | tapem.py:14-19 | the documented input is the well-formed stream of its four test lines |
| TapRuns.DocExample | tapem.py:13-41 | the documented run, each line possibly with whitespace around it, has 2 passes, 2 failures and no protocol error, so its error count and exit status are 2, and its verdict is "Some tests failed" under the disaster glyph |
| TapRuns.TwoAndTwoClosing | tapem.py:231-248 | under any glyph table the summary replacements cannot alter, any state with 2 successes, 2 failures, no protocol error and the verdict "Some tests failed" closes its report with a blank line, the plain summary of those counts and the verdict line with each count behind its glyph, under the disaster glyph |
| TapRuns.DocClosing | tapem.py:38-39 | for the documented input, each line possibly with whitespace around it, the report ends with a blank line, "Summary: 2 ok  \|  2 not ok  \|  0 tap errors", and "Some tests failed - " followed by the counts 2, 2, 0 each with its glyph, behind the disaster glyph; this holds for any glyph table the summary replacements cannot alter |
| PyText.StartsWithPrefix | tapem.py:159 | `startswith` holds for a string and any of its prefixes |
| PyText.ContainsAt | tapem.py:137 | `in` on strings holds exactly when the pattern occurs at some position of the string |
| PyText.StripLeft | tapem.py:156 | `lstrip()` removes leading whitespace only, and the result starts with a non-space |
| PyText.StripRight | tapem.py:156 | `rstrip()` removes trailing whitespace only, and the result ends with a non-space |
| PyText.StripTrims | tapem.py:156 | `strip()` returns a contiguous piece of the line with only whitespace cut on either side, and neither end of the result is whitespace |
| PyText.StripUnchanged | tapem.py:156 | a line without whitespace at either end is its own `strip()` |
| PyText.StripIdempotent | tapem.py:156 | `strip()` of a stripped line changes nothing |
| PyText.Split | tapem.py:173 | `split()` yields words that are non-empty and hold no whitespace |
| PyText.SplitJoins | tapem.py:173 | joined together, the words of `split()` are exactly the non-whitespace characters of the string, in order; the first word of a string that starts with a non-space is its leading run of non-spaces |
| PyText.SplitWord | tapem.py:160 | a word followed by whitespace or nothing splits off as the first word |
| PyText.Replace | tapem.py:135 | `replace` leaves a string without the pattern unchanged, and replacing a pattern by itself changes nothing |
| PyText.ReplaceSkip | tapem.py:234-235 | text that does not hold the first character of the pattern passes through `replace` unchanged, and the rest after it is replaced on its own |
| PyText.ReplaceHead | tapem.py:234-235 | a string that starts with the pattern begins, after `replace`, with the replacement followed by the replaced rest |
| PyText.ParseInt | tapem.py:118 | `int()` accepts only an optional sign followed by digits, and on plain digits gives their decimal value |
| PyText.ParseIntAccepts | tapem.py:118 | `int()` accepts exactly an optional "+" or "-" followed by at least one digit, so a lone sign fails; after a sign the value is the digits' decimal value, negated after "-" |
| PyText.NatToString | tapem.py:206-207 | the decimal form of a count is all digits, with no leading zero, and has the count's value |
| PyText.IntToString | tapem.py:120-152 | `str()` on an integer has no whitespace and no dot; it is the decimal digits of a non-negative number, or "-" followed by the digits of a negative one's magnitude, in both cases with no leading zero |
| PyText.ParsePrinted | tapem.py:117-118 | `int(str(i)) == i` for every integer |

## Left out

- The command line (`get_args`, `installer`, tapem.py:255-276) and the
  script entry (tapem.py:278-289) are not modelled. They parse flags, copy
  the script into a system directory and call `sys.exit`.
- `drain`: the model takes the input as a list of lines. It does not model
  the choice between standard input and a file, opening the file, or that
  an empty `line_list` falls through to reading standard input.
- The echo of every input line (tapem.py:177) and the debug print in
  `maybe_range` (tapem.py:136) are output only and do not change state.
- `set_ascii` (tapem.py:113-114) is not an operation of the model. The
  class is constructed with a glyph table; both of the program's tables
  are given as `EmojiTheme` and `AsciiTheme`.
- Exceptions are not modelled as outcomes. The inputs that raise are
  excluded by preconditions instead:
  - the `IndexError` of a bare "ok" or "not ok" line;
  - the `ValueError` of a plan word whose two parts are not integers;
  - the `assert error_count >= 0` of `summarize` and `exit_code`.
- `int()` is modelled on an optional sign followed by ASCII digits. It does
  not model surrounding whitespace, underscores, or non-ASCII digits.
  Nor does it model the limit of CPython 3.11 and later on the length of a
  decimal string (`sys.int_max_str_digits`, 4300 digits by default): there
  `int()` raises `ValueError` on a longer number, so `found_number` keeps
  it as raw text and reports "Invalid test number", while `ParseInt`
  accepts it.
  Whitespace for `strip` and `split` is ASCII whitespace only.
- `summarize` is a generator. The model produces the whole list of lines at
  once and does not model lazy evaluation.
- Tap.ParseRange: its contract states only the order of the bounds. What
  the word parses to is stated by `Tap.ParseRangePrinted` for printed
  integers.
- TapRuns.DocExample, TapRuns.DocClosing: the descriptions after the test
  numbers are any texts that start with whitespace and do not end with it,
  as the documented ones do. The four documented descriptions are not
  spelled out.
