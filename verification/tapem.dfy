/**
 * The `Tapper` object: its fields are updated in place, line by line, and
 * each method is proved to perform exactly the corresponding step of the
 * run-state model in module Tap.
 */
module Tapem {
  import opened PyText
  import opened Tap

  class Tapper {
    const theme: Theme
    var errors: seq<string>
    var successes: seq<string>
    var results: seq<string>
    var numbers: seq<Token>
    var range: seq<int>
    var tapErrors: seq<ProtocolError>
    var errorCount: int

    /** The object's fields as a run-state value. */
    function State(): RunState
      reads this
    {
      RunState(errors, successes, results, numbers, range, tapErrors, errorCount)
    }

    ghost predicate Valid()
      reads this
    {
      Consistent(State())
    }

    /** `Tapper()` with the glyph table chosen by the caller. */
    constructor (theme: Theme)
      ensures Valid()
      ensures this.theme == theme && State() == Initial
    {
      this.theme := theme;
      errors, successes, results := [], [], [];
      numbers, range, tapErrors := [], [], [];
      errorCount := -1;
    }

    /** `found_number(num)`. */
    method FoundNumber(num: string)
      requires Valid()
      modifies this
      ensures Valid()
      ensures State() == AfterNumber(old(State()), num)
    {
      var t := ToToken(num);
      if t.Raw? {
        tapErrors := tapErrors + [InvalidNumber(num)];
      }
      if |range| == 0 {
        tapErrors := tapErrors + [NoRangeBefore(t)];
      } else if !Fits(t, range) {
        tapErrors := tapErrors + [OutOfRange(t)];
      }
      if t in numbers {
        tapErrors := tapErrors + [Duplicate(t)];
      } else {
        numbers := numbers + [t];
      }
      NumberStep(old(State()), num);
    }

    /** `maybe_range(word)`; a word whose parts are not integers is excluded (ValueError). */
    method MaybeRange(word: string)
      requires Valid()
      requires ParseRange(word) != Malformed
      modifies this
      ensures Valid()
      ensures State() == AfterRange(old(State()), word)
    {
      RangeStep(State(), word);
      var processed := Replace(word, "..", " ");
      if '.' in processed {
        return;
      }
      var parts := Split(processed);
      if |parts| != 2 {
        return;
      }
      var a, b := ParseInt(parts[0]).value, ParseInt(parts[1]).value;
      if a > b {
        tapErrors := tapErrors + [InvalidRange(word)];
        return;
      }
      DeclareRange(word, a, b);
    }

    /** The loop of `maybe_range` over the numbers a, a + 1, ..., b. */
    method DeclareRange(word: string, a: int, b: int)
      requires a <= b
      modifies this
      ensures range == old(range) + NewNumbers(old(range), a, b)
      ensures tapErrors == old(tapErrors) + OverlapErrors(word, old(range), a, b)
      ensures errors == old(errors) && successes == old(successes) && results == old(results)
      ensures numbers == old(numbers) && errorCount == old(errorCount)
    {
      ghost var declared, reported := range, tapErrors;
      for num := a to b + 1
        invariant range == declared + NewNumbers(declared, a, num - 1)
        invariant tapErrors == reported + OverlapErrors(word, declared, a, num - 1)
        invariant errors == old(errors) && successes == old(successes) && results == old(results)
        invariant numbers == old(numbers) && errorCount == old(errorCount)
      {
        assert NewNumbers(declared, a, num) == NewNumbers(declared, a, num - 1) + (if num in declared then [] else [num]);
        assert OverlapErrors(word, declared, a, num)
            == OverlapErrors(word, declared, a, num - 1) + (if num in declared then [Overlap(word, num)] else []);
        if num !in range {
          range := range + [num];
        } else {
          tapErrors := tapErrors + [Overlap(word, num)];
        }
      }
    }

    /** `process_line(line)`, without the echo of the line to standard output. */
    method ProcessLine(line: string)
      requires Valid()
      requires Processable(line)
      modifies this
      ensures Valid()
      ensures State() == AfterLine(old(State()), theme, line)
    {
      var stripped := Strip(line);
      RecordOutcome(stripped);
      var words := Split(stripped);
      if |words| > 0 && Contains(words[0], "..") {
        MaybeRange(words[0]);
      }
    }

    /**
     * The classification part of `process_line` on the stripped line: an
     * "ok" or "not ok" line is recorded and its number checked.
     */
    method RecordOutcome(stripped: string)
      requires Valid()
      requires IndexSafe(stripped)
      modifies this
      ensures Valid()
      ensures State() == AfterResult(old(State()), theme, stripped)
    {
      ghost var st := State();
      var number: Option<string> := None;
      var result: Option<string> := None;
      // the state once the outcome is recorded, before `found_number`
      ghost var recorded := st;
      if StartsWith(stripped, "ok") {
        number := Some(Split(stripped)[1]);
        var r := Prefixed(stripped, theme.success);
        result := Some(r);
        successes := successes + [r];
        recorded := st.(successes := st.successes + [r], results := st.results + [r]);
      } else if StartsWith(stripped, "not ok") {
        number := Some(Split(stripped)[2]);
        var r := Prefixed(stripped, theme.failure);
        result := Some(r);
        errors := errors + [r];
        recorded := st.(errors := st.errors + [r], results := st.results + [r]);
      }
      if result.Some? {
        results := results + [result.value];
      }
      assert State() == recorded && Consistent(recorded);
      assert AfterResult(st, theme, stripped)
          == if number.Some? then AfterNumber(recorded, number.value) else recorded;
      if number.Some? {
        FoundNumber(number.value);
      }
    }

    /** `drain(line_list=lines)`: every line, in order, through `process_line`. */
    method Drain(lines: seq<string>)
      requires Valid()
      requires forall i :: 0 <= i < |lines| ==> Processable(lines[i])
      modifies this
      ensures Valid()
      ensures State() == AfterLines(old(State()), theme, lines)
    {
      for i := 0 to |lines|
        invariant Valid()
        invariant State() == AfterLines(old(State()), theme, lines[..i])
      {
        ProcessLine(lines[i]);
        AfterLinesSnoc(old(State()), theme, lines, i);
      }
      assert lines[..|lines|] == lines;
    }

    /** `finalize()`. */
    method Finalize()
      requires Valid()
      modifies this
      ensures Valid()
      ensures State() == Finalized(old(State()))
    {
      var errorsCount, resultsCount := |errors|, |results|;
      var numbersCount := |numbers|;
      var testRange := |range|;
      if testRange <= 0 {
        tapErrors := tapErrors + [NoRangeFound];
      }
      if resultsCount <= 0 {
        tapErrors := tapErrors + [NoResultsFound];
      }
      if numbersCount > testRange || resultsCount > testRange {
        tapErrors := tapErrors + [TooMany(Max(numbersCount, resultsCount), testRange)];
      }
      errorCount := errorsCount + |tapErrors|;
    }

    /**
     * `summarize()`: prefixes every protocol error with the disaster glyph in
     * place, then yields the report lines of that state.
     */
    method Summarize() returns (report: seq<string>)
      requires Valid()
      requires errorCount >= 0
      modifies this
      ensures Valid()
      ensures State() == old(State()).(tapErrors := FlagAll(old(tapErrors), theme.disaster))
      ensures report == Report(State(), theme)
    {
      tapErrors := FlagAll(tapErrors, theme.disaster);
      report := EmitBlock([], true, Prefixed(ResultsHeading, theme.tap), results);
      assert report == Block(true, Prefixed(ResultsHeading, theme.tap), results);
      report := EmitBlock(report, true, Prefixed(FailuresHeading, theme.attention), errors);
      report := EmitBlock(report, false, Prefixed(ProtocolHeading, theme.attention), Texts(tapErrors));
      var summary := SummaryText(|successes|, |errors|, |tapErrors|);
      report := report + ["", SummaryLead + summary];
      var verdict := VerdictText();
      report := report + [verdict];
    }

    /** One block of `summarize`: when there are items, the optional blank line, the header, each item. */
    static method EmitBlock(report: seq<string>, blank: bool, header: string, items: seq<string>)
      returns (r: seq<string>)
      ensures r == report + Block(blank, header, items)
    {
      r := report;
      if items != [] {
        if blank {
          r := r + [""];
        }
        r := r + [header];
        ghost var lead, opening := r, (if blank then [""] else []) + [header];
        assert lead == report + opening by {
          if blank {
            Assoc(report, [""], [header]);
          }
        }
        Assoc(report, opening, items);
        for i := 0 to |items|
          invariant r == lead + items[..i]
        {
          assert items[..i + 1] == items[..i] + [items[i]];
          Assoc(lead, items[..i], [items[i]]);
          r := r + [items[i]];
        }
        assert items[..|items|] == items;
      }
    }

    /** The verdict line of `summarize`, from the glyph summary and the verdict rule. */
    method VerdictText() returns (verdict: string)
      ensures verdict == VerdictLine(State(), theme)
    {
      var summary := SummaryText(|successes|, |errors|, |tapErrors|);
      var glyphSummary := Replace(Replace(Replace(summary, NotOkWord, theme.failure), OkWord, theme.success),
                                  TapErrorsWord, theme.tapError);
      if errorCount == 0 {
        verdict := Prefixed("All tests successful - " + glyphSummary, theme.greatSuccess);
      } else {
        var allFailed := successes == [] && |results| == |range|;
        var someAll := if allFailed then "All" else "Some";
        var failGlyph := theme.disaster;
        if tapErrors != [] || successes == [] {
          failGlyph := theme.catastrophe;
        }
        verdict := Prefixed(someAll + " tests failed - " + glyphSummary, failGlyph);
      }
    }

    /** `exit_code()`: the error count, capped at 100. */
    function ExitCode(): (code: int)
      reads this
      requires errorCount >= 0
      ensures 0 <= code <= 100
      ensures code == Tap.ExitCode(errorCount)
    {
      Tap.ExitCode(errorCount)
    }
  }
}
