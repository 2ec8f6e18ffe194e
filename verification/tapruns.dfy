/**
 * Properties of whole runs: the records of the report keep the input order,
 * the glyph table never changes what is counted, and a well-formed TAP
 * stream (a plan "1..N" followed by one test line for each number 1..N, in
 * any order) produces no protocol error and exits with its number of
 * failures; the example of the program's documentation is an instance.
 */
module TapRuns {
  import opened PyText
  import opened Tap

  // ---------------------------------------------------------------- order

  /** The record a line contributes to `results`: none, or its prefixed text. */
  function Record(theme: Theme, line: string): seq<string> {
    var s := Strip(line);
    if StartsWith(s, "ok") then [Prefixed(s, theme.success)]
    else if StartsWith(s, "not ok") then [Prefixed(s, theme.failure)]
    else []
  }

  function Records(theme: Theme, lines: seq<string>): seq<string> {
    if lines == [] then []
    else Records(theme, lines[..|lines| - 1]) + Record(theme, lines[|lines| - 1])
  }

  /** `results` lists the test lines of the input, each once, in input order. */
  lemma {:induction false} ResultsInOrder(st: RunState, theme: Theme, lines: seq<string>)
    requires forall i :: 0 <= i < |lines| ==> Processable(lines[i])
    ensures AfterLines(st, theme, lines).results == st.results + Records(theme, lines)
    decreases |lines|
  {
    if lines != [] {
      var init, last := lines[..|lines| - 1], lines[|lines| - 1];
      ResultsInOrder(st, theme, init);
      RecordStep(AfterLines(st, theme, init), theme, last);
      Assoc(st.results, Records(theme, init), Record(theme, last));
    }
  }

  /** One line appends its record to `results`. */
  lemma RecordStep(st: RunState, theme: Theme, line: string)
    requires Processable(line)
    ensures AfterLine(st, theme, line).results == st.results + Record(theme, line)
  {
    LineStep(st, theme, line);
  }

  // ---------------------------------------------------------------- tally

  /** The number of lines `process_line` records as passes. */
  function Oks(lines: seq<string>): nat {
    if lines == [] then 0
    else Oks(lines[..|lines| - 1]) + (if StartsWith(Strip(lines[|lines| - 1]), "ok") then 1 else 0)
  }

  /** The number of lines `process_line` records as failures. */
  function NotOks(lines: seq<string>): nat {
    if lines == [] then 0
    else
      var s := Strip(lines[|lines| - 1]);
      NotOks(lines[..|lines| - 1]) + (if !StartsWith(s, "ok") && StartsWith(s, "not ok") then 1 else 0)
  }

  /**
   * Each "ok" line adds one success, each "not ok" line one failure, and
   * both one result, whatever the state and the glyphs.
   */
  lemma {:induction false} LinesTally(st: RunState, theme: Theme, lines: seq<string>)
    requires forall i :: 0 <= i < |lines| ==> Processable(lines[i])
    ensures var st' := AfterLines(st, theme, lines);
      && |st'.successes| == |st.successes| + Oks(lines)
      && |st'.errors| == |st.errors| + NotOks(lines)
      && |st'.results| == |st.results| + Oks(lines) + NotOks(lines)
    decreases |lines|
  {
    if lines != [] {
      var init := lines[..|lines| - 1];
      LinesTally(st, theme, init);
      LineStep(AfterLines(st, theme, init), theme, lines[|lines| - 1]);
    }
  }

  // ---------------------------------------------------------------- themes

  /** Two states that agree on everything the exit status and the verdict depend on. */
  predicate SameCounts(a: RunState, b: RunState) {
    && a.numbers == b.numbers && a.range == b.range && a.tapErrors == b.tapErrors
    && |a.errors| == |b.errors| && |a.successes| == |b.successes| && |a.results| == |b.results|
    && a.errorCount == b.errorCount
  }

  lemma NumberSameCounts(a: RunState, b: RunState, num: string)
    requires SameCounts(a, b)
    ensures SameCounts(AfterNumber(a, num), AfterNumber(b, num))
  {
    NumberStep(a, num);
    NumberStep(b, num);
  }

  lemma RangeSameCounts(a: RunState, b: RunState, word: string)
    requires ParseRange(word) != Malformed
    requires SameCounts(a, b)
    ensures SameCounts(AfterRange(a, word), AfterRange(b, word))
  {
    RangeStep(a, word);
    RangeStep(b, word);
  }

  lemma LineSameCounts(a: RunState, b: RunState, theme1: Theme, theme2: Theme, line: string)
    requires Processable(line)
    requires SameCounts(a, b)
    ensures SameCounts(AfterLine(a, theme1, line), AfterLine(b, theme2, line))
  {
    var s := Strip(line);
    ResultSameCounts(a, b, theme1, theme2, s);
    if PlanWord(s).Some? {
      RangeSameCounts(AfterResult(a, theme1, s), AfterResult(b, theme2, s), PlanWord(s).value);
    }
  }

  lemma ResultSameCounts(a: RunState, b: RunState, theme1: Theme, theme2: Theme, s: string)
    requires IndexSafe(s)
    requires SameCounts(a, b)
    ensures SameCounts(AfterResult(a, theme1, s), AfterResult(b, theme2, s))
  {
    match Classify(s)
    case Pass(num) =>
      NumberSameCounts(a.(successes := a.successes + [Prefixed(s, theme1.success)],
                          results := a.results + [Prefixed(s, theme1.success)]),
                       b.(successes := b.successes + [Prefixed(s, theme2.success)],
                          results := b.results + [Prefixed(s, theme2.success)]), num);
    case Fail(num) =>
      NumberSameCounts(a.(errors := a.errors + [Prefixed(s, theme1.failure)],
                          results := a.results + [Prefixed(s, theme1.failure)]),
                       b.(errors := b.errors + [Prefixed(s, theme2.failure)],
                          results := b.results + [Prefixed(s, theme2.failure)]), num);
    case Other =>
  }

  /**
   * The glyph table (`--ascii` or not) changes only the text of the
   * records: the protocol errors, the counts, the exit status and the
   * verdict of a run are the same under any two themes.
   */
  lemma {:induction false} ThemeIndependent(st: RunState, theme1: Theme, theme2: Theme, lines: seq<string>)
    requires forall i :: 0 <= i < |lines| ==> Processable(lines[i])
    ensures var a, b := Finalized(AfterLines(st, theme1, lines)), Finalized(AfterLines(st, theme2, lines));
      && SameCounts(a, b)
      && ExitCode(a.errorCount) == ExitCode(b.errorCount)
      && VerdictOf(a) == VerdictOf(b)
  {
    LinesSameCounts(st, theme1, theme2, lines);
    var a, b := AfterLines(st, theme1, lines), AfterLines(st, theme2, lines);
  }

  lemma {:induction false} LinesSameCounts(st: RunState, theme1: Theme, theme2: Theme, lines: seq<string>)
    requires forall i :: 0 <= i < |lines| ==> Processable(lines[i])
    ensures SameCounts(AfterLines(st, theme1, lines), AfterLines(st, theme2, lines))
    decreases |lines|
  {
    if lines != [] {
      var init := lines[..|lines| - 1];
      LinesSameCounts(st, theme1, theme2, init);
      LineSameCounts(AfterLines(st, theme1, init), AfterLines(st, theme2, init), theme1, theme2, lines[|lines| - 1]);
    }
  }

  // ---------------------------------------------------------------- well-formed streams

  /** A test line of a stream: its outcome, its number and the text after the number. */
  datatype TestLine = TestLine(pass: bool, number: nat, desc: string)

  /** The text after the number is empty or starts with whitespace, and does not end with it. */
  predicate Trailer(desc: string) {
    desc == [] || (IsSpace(desc[0]) && !IsSpace(desc[|desc| - 1]))
  }

  /** "ok N<desc>" or "not ok N<desc>". */
  function LineText(tl: TestLine): string {
    (if tl.pass then "ok " else "not ok ") + IntToString(tl.number) + tl.desc
  }

  /** The plan "1..N". */
  function PlanLine(n: nat): string {
    "1.." + IntToString(n)
  }

  /** The texts of the test lines, in stream order. */
  function TestLines(tls: seq<TestLine>): seq<string> {
    seq(|tls|, i requires 0 <= i < |tls| => LineText(tls[i]))
  }

  /** A stream: the plan for as many tests as there are test lines, then the lines. */
  function Stream(tls: seq<TestLine>): seq<string> {
    [PlanLine(|tls|)] + TestLines(tls)
  }

  function Passes(tls: seq<TestLine>): nat {
    if tls == [] then 0
    else Passes(tls[..|tls| - 1]) + (if tls[|tls| - 1].pass then 1 else 0)
  }

  function Failures(tls: seq<TestLine>): nat {
    if tls == [] then 0
    else Failures(tls[..|tls| - 1]) + (if tls[|tls| - 1].pass then 0 else 1)
  }

  /** Every test line has a number of 1..n. */
  predicate Numbered(tls: seq<TestLine>, n: nat) {
    forall i :: 0 <= i < |tls| ==> 1 <= tls[i].number <= n
  }

  /** No two test lines have the same number. */
  predicate Distinct(tls: seq<TestLine>) {
    forall i, j :: 0 <= i < j < |tls| ==> tls[i].number != tls[j].number
  }

  /** The numbers of the first k test lines, as tokens, in order. */
  function Seen(tls: seq<TestLine>, k: nat): seq<Token>
    requires k <= |tls|
  {
    seq(k, i requires 0 <= i < k => Num(tls[i].number))
  }

  lemma NoSpaceJoin(a: string, b: string)
    requires NoSpace(a) && NoSpace(b)
    ensures NoSpace(a + b)
  {
    forall i | 0 <= i < |a + b|
      ensures !IsSpace((a + b)[i])
    {
      if i >= |a| {
        assert (a + b)[i] == b[i - |a|];
      }
    }
  }

  /** Nothing is reported as overlapping when nothing was declared. */
  lemma {:induction false} NoOverlapOnEmpty(word: string, lo: int, hi: int)
    ensures OverlapErrors(word, [], lo, hi) == []
    decreases hi - lo
  {
    if lo <= hi {
      NoOverlapOnEmpty(word, lo, hi - 1);
    }
  }

  /** A line that is one word is its own strip and its own split. */
  lemma OneWord(w: string)
    requires w != [] && NoSpace(w)
    ensures Strip(w) == w && Split(w) == [w]
  {
    StripUnchanged(w);
    SplitAlone(w);
  }

  lemma SplitAlone(w: string)
    requires w != [] && NoSpace(w)
    ensures Split(w) == [w]
  {
    SplitWord(w, []);
    AppendNil(w);
  }

  /** The plan line is one word, holds "..", and starts with neither "ok" nor "not ok". */
  lemma PlanText(n: nat)
    ensures var w := PlanLine(n);
      && w == IntToString(1) + ".." + IntToString(n)
      && w != [] && NoSpace(w) && Contains(w, "..")
      && !StartsWith(w, "ok") && !StartsWith(w, "not ok")
  {
    var w, b := PlanLine(n), IntToString(n);
    assert IntToString(1) == "1";
    NoSpaceJoin("1..", b);
    assert w[1..][..2] == "..";
    assert w[0] == '1';
  }

  /** The plan line "1..N" does not raise: it is one word that parses as a range. */
  lemma PlanProcessable(n: nat)
    requires n >= 1
    ensures Processable(PlanLine(n))
  {
    var w := PlanLine(n);
    PlanText(n);
    OneWord(w);
    ParseRangePrinted(1, n);
    assert PlanWord(w) == Some(w);
  }

  /** The plan line declares exactly 1..N and changes nothing else. */
  lemma PlanStep(st: RunState, theme: Theme, n: nat)
    requires n >= 1 && st.range == [] && st.tapErrors == []
    ensures Processable(PlanLine(n))
    ensures var st' := AfterLine(st, theme, PlanLine(n));
      && st' == st.(range := NewNumbers([], 1, n))
      && |st'.range| == n
  {
    var w := PlanLine(n);
    PlanText(n);
    OneWord(w);
    ParseRangePrinted(1, n);
    assert PlanWord(w) == Some(w);
    assert Classify(w) == Other;
    assert AfterResult(st, theme, w) == st;
    assert AfterLine(st, theme, w) == AfterRange(st, w);
    NoOverlapOnEmpty(w, 1, n);
    RangeAccounting(w, [], 1, n);
    assert st.range + NewNumbers(st.range, 1, n) == NewNumbers([], 1, n);
  }

  /** The last character of a word followed by a trailer is not whitespace. */
  lemma TrailerEnd(num: string, desc: string)
    requires num != [] && NoSpace(num) && Trailer(desc)
    ensures var s := num + desc; !IsSpace(s[|s| - 1])
  {
    var s := num + desc;
    if desc == [] {
      assert s[|s| - 1] == num[|num| - 1];
    } else {
      assert s[|s| - 1] == desc[|desc| - 1];
    }
  }

  /** A line made of a first word, a space and more text. */
  lemma SpacedLine(w: string, rest: string)
    requires w != [] && NoSpace(w) && rest != [] && !IsSpace(rest[|rest| - 1])
    ensures var s := w + " " + rest;
      && Strip(s) == s && StartsWith(s, w)
      && Split(s) == [w] + Split(rest)
  {
    SpacedStrip(w, rest);
    StartsWithPrefix(w, " " + rest);
    Assoc(w, " ", rest);
    SplitSpaced(w, rest);
  }

  lemma SpacedStrip(w: string, rest: string)
    requires w != [] && NoSpace(w) && rest != [] && !IsSpace(rest[|rest| - 1])
    ensures Strip(w + " " + rest) == w + " " + rest
  {
    var s := w + " " + rest;
    assert s[0] == w[0];
    assert s[|s| - 1] == rest[|rest| - 1];
    StripUnchanged(s);
  }

  /** How `process_line` reads "ok N<desc>". */
  lemma PassShape(num: string, desc: string)
    requires num != [] && NoSpace(num) && Trailer(desc)
    ensures var s := "ok " + num + desc;
      && Strip(s) == s && StartsWith(s, "ok")
      && Split(s) == ["ok", num] + Split(desc)
  {
    var ok, rest := "ok", num + desc;
    TrailerEnd(num, desc);
    assert "ok " == ok + " ";
    Assoc("ok ", num, desc);
    SpacedLine(ok, rest);
    SplitWord(num, desc);
    Cons2(ok, num, Split(desc));
  }

  /** A "not ok" line is classified as a failure. */
  lemma FailShape(num: string, desc: string)
    ensures var s := "not ok " + num + desc;
      !StartsWith(s, "ok") && StartsWith(s, "not ok")
  {
    var notOk, rest := "not ok", " " + num + desc;
    assert "not ok " == notOk + " ";
    Assoc(notOk, " ", num);
    Assoc(notOk, " " + num, desc);
    StartsWithPrefix(notOk, rest);
    assert (notOk + rest)[..2][1] == 'o';
  }

  /** How `process_line` splits "not ok N<desc>". */
  lemma FailSplit(num: string, desc: string)
    requires num != [] && NoSpace(num) && Trailer(desc)
    ensures var s := "not ok " + num + desc;
      Strip(s) == s && Split(s) == ["not", "ok", num] + Split(desc)
  {
    var not, ok := "not", "ok";
    assert "not ok " == not + " " + ok + " ";
    TwoWordsLine(not, ok, num, desc);
  }

  /** "w1 w2 N<desc>" splits into w1, w2, N and the words of desc. */
  lemma TwoWordsLine(w1: string, w2: string, num: string, desc: string)
    requires w1 != [] && NoSpace(w1) && w2 != [] && NoSpace(w2)
    requires num != [] && NoSpace(num) && Trailer(desc)
    ensures var s := w1 + " " + w2 + " " + num + desc;
      Strip(s) == s && Split(s) == [w1, w2, num] + Split(desc)
  {
    var rest := num + desc;
    TrailerEnd(num, desc);
    var tail := w2 + " " + rest;
    Assoc(w1 + " ", w2, " ");
    Assoc4(w1 + " ", w2 + " ", num, desc);
    assert tail[|tail| - 1] == rest[|rest| - 1];
    SpacedLine(w1, tail);
    SpacedLine(w2, rest);
    SplitWord(num, desc);
    Cons3(w1, w2, num, Split(desc));
  }

  /** Neither "ok" nor "not" holds "..". */
  lemma NotPlanWords()
    ensures !Contains("ok", "..") && !Contains("not", "..")
  {
    assert "ok"[..2][0] == 'o';
    assert "not"[..2][0] == 'n';
    assert "ot"[..2][0] == 'o';
    assert "k"[..] == "k" && "t"[..] == "t";
  }

  /** How `process_line` reads a test line: a pass or a failure with its number, no plan. */
  lemma TestLineReading(tl: TestLine)
    requires Trailer(tl.desc)
    ensures var s, num := LineText(tl), IntToString(tl.number);
      && Processable(s) && Strip(s) == s && PlanWord(s) == None
      && Classify(s) == if tl.pass then Pass(num) else Fail(num)
  {
    var s, num := LineText(tl), IntToString(tl.number);
    if tl.pass {
      PassShape(num, tl.desc);
    } else {
      FailShape(num, tl.desc);
      FailSplit(num, tl.desc);
    }
    NotPlanWords();
    assert PlanWord(s) == None;
  }

  /**
   * A test line whose number n is declared and not seen before adds its
   * record and its number and no protocol error.
   */
  lemma TestLineStep(st: RunState, theme: Theme, tl: TestLine)
    requires Trailer(tl.desc)
    requires tl.number in st.range && Num(tl.number) !in st.numbers
    ensures Processable(LineText(tl))
    ensures var st', s := AfterLine(st, theme, LineText(tl)), LineText(tl);
      && st'.numbers == st.numbers + [Num(tl.number)]
      && st'.tapErrors == st.tapErrors
      && st'.range == st.range && st'.errorCount == st.errorCount
      && (tl.pass ==> st'.successes == st.successes + [Prefixed(s, theme.success)]
                      && st'.errors == st.errors
                      && st'.results == st.results + [Prefixed(s, theme.success)])
      && (!tl.pass ==> st'.errors == st.errors + [Prefixed(s, theme.failure)]
                       && st'.successes == st.successes
                       && st'.results == st.results + [Prefixed(s, theme.failure)])
  {
    var s, n := LineText(tl), tl.number;
    var num := IntToString(n);
    TestLineReading(tl);
    ParsePrinted(n);
    assert ToToken(num) == Num(n);
    var r := Prefixed(s, if tl.pass then theme.success else theme.failure);
    var st1 := if tl.pass then st.(successes := st.successes + [r], results := st.results + [r])
               else st.(errors := st.errors + [r], results := st.results + [r]);
    assert AfterLine(st, theme, s) == AfterNumber(st1, num);
    NumberStep(st1, num);
    NumberErrorsListed(st1.numbers, st1.range, num);
  }

  lemma TestLinesProcessable(tls: seq<TestLine>)
    requires forall i :: 0 <= i < |tls| ==> Trailer(tls[i].desc)
    ensures forall i {:trigger Processable(TestLines(tls)[i])} :: 0 <= i < |TestLines(tls)| ==> Processable(TestLines(tls)[i])
  {
    forall i | 0 <= i < |tls|
      ensures Processable(TestLines(tls)[i])
    {
      TestLineProcessable(tls, i);
    }
  }

  lemma TestLineProcessable(tls: seq<TestLine>, i: nat)
    requires i < |tls| && Trailer(tls[i].desc)
    ensures Processable(TestLines(tls)[i])
  {
    TestLineReading(tls[i]);
  }

  /** The number of test line k is not among those of the lines before it, and is seen next. */
  lemma SeenNext(tls: seq<TestLine>, k: nat)
    requires 1 <= k <= |tls| && Distinct(tls)
    ensures Num(tls[k - 1].number) !in Seen(tls, k - 1)
    ensures Seen(tls, k - 1) + [Num(tls[k - 1].number)] == Seen(tls, k)
  {
    var before := Seen(tls, k - 1);
    forall j | 0 <= j < k - 1
      ensures before[j] != Num(tls[k - 1].number)
    {
      assert tls[j].number != tls[k - 1].number;
    }
  }

  /** Feeding two inputs one after the other is feeding their concatenation. */
  lemma {:induction false} AfterLinesConcat(st: RunState, theme: Theme, a: seq<string>, b: seq<string>)
    requires forall i {:trigger Processable(a[i])} :: 0 <= i < |a| ==> Processable(a[i])
    requires forall i {:trigger Processable(b[i])} :: 0 <= i < |b| ==> Processable(b[i])
    ensures forall i {:trigger Processable((a + b)[i])} :: 0 <= i < |a + b| ==> Processable((a + b)[i])
    ensures AfterLines(st, theme, a + b) == AfterLines(AfterLines(st, theme, a), theme, b)
    decreases |b|
  {
    ConcatProcessable(a, b);
    if b != [] {
      var init := b[..|b| - 1];
      AfterLinesConcat(st, theme, a, init);
      DropLast(a, b);
    } else {
      assert a + b == a;
    }
  }

  lemma ConcatProcessable(a: seq<string>, b: seq<string>)
    requires forall i {:trigger Processable(a[i])} :: 0 <= i < |a| ==> Processable(a[i])
    requires forall i {:trigger Processable(b[i])} :: 0 <= i < |b| ==> Processable(b[i])
    ensures forall i {:trigger Processable((a + b)[i])} :: 0 <= i < |a + b| ==> Processable((a + b)[i])
  {
    forall i | 0 <= i < |a + b|
      ensures Processable((a + b)[i])
    {
      if i < |a| {
        assert (a + b)[i] == a[i];
      } else {
        assert (a + b)[i] == b[i - |a|];
      }
    }
  }

  lemma {:induction false} PassesAndFailures(tls: seq<TestLine>)
    ensures Passes(tls) + Failures(tls) == |tls|
    decreases |tls|
  {
    if tls != [] {
      PassesAndFailures(tls[..|tls| - 1]);
    }
  }

  /** A test line reads as a pass exactly when it is one, and as a failure otherwise. */
  lemma TestLineKind(tl: TestLine)
    requires Trailer(tl.desc)
    ensures var s := LineText(tl);
      && Strip(s) == s
      && (StartsWith(s, "ok") <==> tl.pass)
      && (!tl.pass ==> StartsWith(s, "not ok"))
  {
    var num := IntToString(tl.number);
    if tl.pass {
      PassShape(num, tl.desc);
    } else {
      FailShape(num, tl.desc);
      FailSplit(num, tl.desc);
    }
  }

  /** Test lines count as their passes and their failures. */
  lemma TestLinesKinds(tls: seq<TestLine>)
    requires forall i :: 0 <= i < |tls| ==> Trailer(tls[i].desc)
    ensures Oks(TestLines(tls)) == Passes(tls) && NotOks(TestLines(tls)) == Failures(tls)
  {
    var lines := TestLines(tls);
    forall i | 0 <= i < |tls|
      ensures StartsWith(Strip(lines[i]), "ok") <==> tls[i].pass
      ensures !tls[i].pass ==> StartsWith(Strip(lines[i]), "not ok")
    {
      TestLineKindAt(tls, i);
    }
    KindsCount(lines, tls);
  }

  lemma TestLineKindAt(tls: seq<TestLine>, i: nat)
    requires i < |tls| && Trailer(tls[i].desc)
    ensures var s := TestLines(tls)[i];
      && (StartsWith(Strip(s), "ok") <==> tls[i].pass)
      && (!tls[i].pass ==> StartsWith(Strip(s), "not ok"))
  {
    assert TestLines(tls)[i] == LineText(tls[i]);
    TestLineKind(tls[i]);
  }

  /** Lines that read as the outcomes of `tls` count as its passes and failures. */
  lemma {:induction false} KindsCount(lines: seq<string>, tls: seq<TestLine>)
    requires |lines| == |tls|
    requires forall i :: 0 <= i < |tls| ==> (StartsWith(Strip(lines[i]), "ok") <==> tls[i].pass)
    requires forall i :: 0 <= i < |tls| ==> !tls[i].pass ==> StartsWith(Strip(lines[i]), "not ok")
    ensures Oks(lines) == Passes(tls) && NotOks(lines) == Failures(tls)
    decreases |tls|
  {
    if tls != [] {
      var k := |tls|;
      KindsCount(lines[..k - 1], tls[..k - 1]);
    }
  }

  /**
   * After a plan declaring exactly 1..n, test lines with distinct numbers
   * of 1..n, in any order, each add their number and no protocol error.
   */
  lemma TestLinesRun(st: RunState, theme: Theme, n: nat, tls: seq<TestLine>)
    requires forall i :: 0 <= i < |tls| ==> Trailer(tls[i].desc)
    requires Numbered(tls, n) && Distinct(tls)
    requires st.numbers == [] && forall x :: x in st.range <==> 1 <= x <= n
    ensures forall i {:trigger Processable(TestLines(tls)[i])} :: 0 <= i < |TestLines(tls)| ==> Processable(TestLines(tls)[i])
    ensures var st' := AfterLines(st, theme, TestLines(tls));
      && st'.numbers == Seen(tls, |tls|) && st'.tapErrors == st.tapErrors
      && st'.range == st.range && st'.errorCount == st.errorCount
  {
    var lines := TestLines(tls);
    TestLinesProcessable(tls);
    TestLinesPrefix(st, theme, n, tls, lines, |tls|);
    assert lines[..|tls|] == lines;
  }

  /** The first i test lines: their numbers seen, nothing else changed. */
  lemma {:induction false} TestLinesPrefix(st: RunState, theme: Theme, n: nat, tls: seq<TestLine>, lines: seq<string>, i: nat)
    requires i <= |tls| && |lines| == |tls|
    requires forall j :: 0 <= j < |tls| ==> Trailer(tls[j].desc)
    requires Numbered(tls, n) && Distinct(tls)
    requires forall j :: 0 <= j < |lines| ==> lines[j] == LineText(tls[j])
    requires forall j {:trigger Processable(lines[j])} :: 0 <= j < |lines| ==> Processable(lines[j])
    requires st.numbers == [] && forall x :: x in st.range <==> 1 <= x <= n
    ensures var st' := AfterLines(st, theme, lines[..i]);
      && st'.numbers == Seen(tls, i) && st'.tapErrors == st.tapErrors
      && st'.range == st.range && st'.errorCount == st.errorCount
    decreases i
  {
    if i == 0 {
      assert lines[..0] == [];
    } else {
      TestLinesPrefix(st, theme, n, tls, lines, i - 1);
      AfterLinesSnoc(st, theme, lines, i - 1);
      TestLineNext(st, AfterLines(st, theme, lines[..i - 1]), theme, n, tls, i);
    }
  }

  /** Test line k after the lines before it: its number is seen next, and no protocol error. */
  lemma TestLineNext(st: RunState, mid: RunState, theme: Theme, n: nat, tls: seq<TestLine>, k: nat)
    requires 1 <= k <= |tls| && Trailer(tls[k - 1].desc)
    requires 1 <= tls[k - 1].number <= n && Distinct(tls)
    requires forall x :: x in st.range <==> 1 <= x <= n
    requires mid.numbers == Seen(tls, k - 1) && mid.tapErrors == st.tapErrors
    requires mid.range == st.range && mid.errorCount == st.errorCount
    ensures Processable(LineText(tls[k - 1]))
    ensures var fin := AfterLine(mid, theme, LineText(tls[k - 1]));
      && fin.numbers == Seen(tls, k) && fin.tapErrors == st.tapErrors
      && fin.range == st.range && fin.errorCount == st.errorCount
  {
    var tl := tls[k - 1];
    SeenNext(tls, k);
    assert tl.number in mid.range;
    TestLineStep(mid, theme, tl);
  }

  /**
   * The state a stream leaves, read line by line with any whitespace around
   * each line: every number declared and seen once, no protocol error.
   */
  lemma StreamRun(theme: Theme, tls: seq<TestLine>, lines: seq<string>)
    requires |tls| >= 1 && Numbered(tls, |tls|) && Distinct(tls)
    requires forall i :: 0 <= i < |tls| ==> Trailer(tls[i].desc)
    requires StripsTo(lines, Stream(tls))
    ensures forall i :: 0 <= i < |lines| ==> Processable(lines[i])
    ensures var run := AfterLines(Initial, theme, lines);
      && run.tapErrors == [] && run.errorCount == -1
      && |run.numbers| == |run.range| == |run.results| == |tls|
      && |run.successes| == Passes(tls) && |run.errors| == Failures(tls)
  {
    PrintedRun(theme, tls);
    AfterLinesStripped(Initial, theme, lines, Stream(tls));
  }

  /** `StreamRun` for the stream as printed. */
  lemma PrintedRun(theme: Theme, tls: seq<TestLine>)
    requires |tls| >= 1 && Numbered(tls, |tls|) && Distinct(tls)
    requires forall i :: 0 <= i < |tls| ==> Trailer(tls[i].desc)
    ensures forall i :: 0 <= i < |Stream(tls)| ==> Processable(Stream(tls)[i])
    ensures var run := AfterLines(Initial, theme, Stream(tls));
      && run.tapErrors == [] && run.errorCount == -1
      && |run.numbers| == |run.range| == |run.results| == |tls|
      && |run.successes| == Passes(tls) && |run.errors| == Failures(tls)
  {
    var n := |tls|;
    StreamSplit(theme, tls);
    PlanStep(Initial, theme, n);
    var planned := AfterLine(Initial, theme, PlanLine(n));
    TestLinesRun(planned, theme, n, tls);
    LinesTally(planned, theme, TestLines(tls));
    TestLinesKinds(tls);
    StreamTotals(planned, AfterLines(planned, theme, TestLines(tls)), tls);
  }

  /** The totals of a run that starts from the plan alone and sees the number of each test line. */
  lemma StreamTotals(planned: RunState, run: RunState, tls: seq<TestLine>)
    requires planned.successes == planned.errors == planned.results == [] && |planned.range| == |tls|
    requires planned.tapErrors == [] && planned.errorCount == -1
    requires run.numbers == Seen(tls, |tls|) && run.tapErrors == planned.tapErrors
    requires run.range == planned.range && run.errorCount == planned.errorCount
    requires |run.successes| == |planned.successes| + Passes(tls)
    requires |run.errors| == |planned.errors| + Failures(tls)
    requires |run.results| == |planned.results| + Passes(tls) + Failures(tls)
    ensures run.tapErrors == [] && run.errorCount == -1
    ensures |run.numbers| == |run.range| == |run.results| == |tls|
    ensures |run.successes| == Passes(tls) && |run.errors| == Failures(tls)
  {
    PassesAndFailures(tls);
  }

  /** A stream is its plan line, then its test lines. */
  lemma StreamSplit(theme: Theme, tls: seq<TestLine>)
    requires |tls| >= 1
    requires forall i :: 0 <= i < |tls| ==> Trailer(tls[i].desc)
    ensures Processable(PlanLine(|tls|))
    ensures forall i {:trigger Processable(TestLines(tls)[i])} :: 0 <= i < |TestLines(tls)| ==> Processable(TestLines(tls)[i])
    ensures forall i :: 0 <= i < |Stream(tls)| ==> Processable(Stream(tls)[i])
    ensures AfterLines(Initial, theme, Stream(tls))
         == AfterLines(AfterLine(Initial, theme, PlanLine(|tls|)), theme, TestLines(tls))
  {
    PlanProcessable(|tls|);
    TestLinesProcessable(tls);
    PrependLine(Initial, theme, PlanLine(|tls|), TestLines(tls));
  }

  /** Feeding a line and then more lines is feeding the line first. */
  lemma PrependLine(st: RunState, theme: Theme, line: string, lines: seq<string>)
    requires Processable(line)
    requires forall i {:trigger Processable(lines[i])} :: 0 <= i < |lines| ==> Processable(lines[i])
    ensures forall i {:trigger Processable(([line] + lines)[i])} :: 0 <= i < |[line] + lines| ==> Processable(([line] + lines)[i])
    ensures AfterLines(st, theme, [line] + lines) == AfterLines(AfterLine(st, theme, line), theme, lines)
  {
    AfterOneLine(st, theme, line);
    AfterLinesConcat(st, theme, [line], lines);
  }

  lemma AfterOneLine(st: RunState, theme: Theme, line: string)
    requires Processable(line)
    ensures AfterLines(st, theme, [line]) == AfterLine(st, theme, line)
  {
    assert [line][..0] == [];
  }

  /** `finalize` on a state with every declared number seen once and no protocol error. */
  lemma CleanFinalize(run: RunState, passes: nat, failures: nat)
    requires passes + failures >= 1
    requires run.tapErrors == []
    requires |run.numbers| == |run.range| == |run.results| == passes + failures
    requires |run.successes| == passes && |run.errors| == failures
    ensures var fin := Finalized(run);
      && fin.tapErrors == []
      && |fin.successes| == passes && |fin.errors| == failures
      && fin.errorCount == failures
      && VerdictOf(fin) == (if failures == 0 then AllSuccessful
                            else if passes == 0 then AllFailed
                            else SomeFailed)
  {
    assert FinalizeErrors(run) == [];
  }

  /**
   * A well-formed stream: the plan "1..N", then one test line for each
   * number 1..N, in any order. It raises no protocol error, its error count and exit status
   * are its number of "not ok" lines (the status capped at 100), and the
   * verdict is "All tests successful" without failures, "All tests failed"
   * without passes, and "Some tests failed" otherwise. Each line may carry
   * whitespace around it, such as the "\n" of a line read from a file.
   */
  lemma WellFormedRun(theme: Theme, tls: seq<TestLine>, lines: seq<string>)
    requires |tls| >= 1 && Numbered(tls, |tls|) && Distinct(tls)
    requires forall i :: 0 <= i < |tls| ==> Trailer(tls[i].desc)
    requires StripsTo(lines, Stream(tls))
    ensures forall i :: 0 <= i < |lines| ==> Processable(lines[i])
    ensures var fin := Finalized(AfterLines(Initial, theme, lines));
      && fin.tapErrors == []
      && |fin.successes| == Passes(tls) && |fin.errors| == Failures(tls)
      && fin.errorCount == Failures(tls)
      && ExitCode(fin.errorCount) == (if Failures(tls) < 100 then Failures(tls) else 100)
      && VerdictOf(fin) == (if Failures(tls) == 0 then AllSuccessful
                            else if Passes(tls) == 0 then AllFailed
                            else SomeFailed)
  {
    StreamRun(theme, tls, lines);
    PassesAndFailures(tls);
    CleanFinalize(AfterLines(Initial, theme, lines), Passes(tls), Failures(tls));
  }

  // ---------------------------------------------------------------- the documented example

  /**
   * The input of the example in the module documentation: a plan for four
   * tests, passing, failing, passing, failing. The descriptions there
   * (" - Input file opened", ...) are any texts of the `Trailer` shape.
   */
  function DocLines(d1: string, d2: string, d3: string, d4: string): seq<string> {
    ["1..4", "ok 1" + d1, "not ok 2" + d2, "ok 3" + d3, "not ok 4" + d4]
  }

  function DocTests(d1: string, d2: string, d3: string, d4: string): seq<TestLine> {
    [TestLine(true, 1, d1), TestLine(false, 2, d2), TestLine(true, 3, d3), TestLine(false, 4, d4)]
  }

  lemma SmallNumbers()
    ensures IntToString(1) == "1" && IntToString(2) == "2"
    ensures IntToString(3) == "3" && IntToString(4) == "4"
  {
  }

  /** The example's input is the well-formed stream of its four test lines. */
  lemma DocStream(d1: string, d2: string, d3: string, d4: string)
    ensures Stream(DocTests(d1, d2, d3, d4)) == DocLines(d1, d2, d3, d4)
  {
    SmallNumbers();
    assert "ok " + "1" == "ok 1" && "ok " + "3" == "ok 3";
    assert "not ok " + "2" == "not ok 2" && "not ok " + "4" == "not ok 4";
    assert "1.." + "4" == "1..4";
    AppendSame("ok ", "1", "ok 1", d1);
    AppendSame("not ok ", "2", "not ok 2", d2);
    AppendSame("ok ", "3", "ok 3", d3);
    AppendSame("not ok ", "4", "not ok 4", d4);
  }

  lemma CountsSnoc(tls: seq<TestLine>, t: TestLine)
    ensures Passes(tls + [t]) == Passes(tls) + (if t.pass then 1 else 0)
    ensures Failures(tls + [t]) == Failures(tls) + (if t.pass then 0 else 1)
  {
    assert (tls + [t])[..|tls|] == tls;
  }

  lemma DocCounts(d1: string, d2: string, d3: string, d4: string)
    ensures Passes(DocTests(d1, d2, d3, d4)) == 2 && Failures(DocTests(d1, d2, d3, d4)) == 2
  {
    var t := DocTests(d1, d2, d3, d4);
    assert t == [] + [t[0]] + [t[1]] + [t[2]] + [t[3]];
    CountsSnoc([], t[0]);
    CountsSnoc([t[0]], t[1]);
    CountsSnoc([t[0], t[1]], t[2]);
    CountsSnoc([t[0], t[1], t[2]], t[3]);
  }

  /**
   * The documented run: two failures and no protocol error, so the error
   * count and the exit status are 2 and the verdict is "Some tests failed"
   * under the disaster glyph. The input lines may carry whitespace around
   * them, as lines read from a file do.
   */
  lemma DocExample(theme: Theme, d1: string, d2: string, d3: string, d4: string, lines: seq<string>)
    requires Trailer(d1) && Trailer(d2) && Trailer(d3) && Trailer(d4)
    requires StripsTo(lines, DocLines(d1, d2, d3, d4))
    ensures forall i :: 0 <= i < |lines| ==> Processable(lines[i])
    ensures var fin := Finalized(AfterLines(Initial, theme, lines));
      && fin.tapErrors == [] && fin.errorCount == 2 && ExitCode(fin.errorCount) == 2
      && |fin.successes| == 2 && |fin.errors| == 2
      && VerdictOf(fin) == SomeFailed && VerdictGlyph(fin, theme) == theme.disaster
  {
    var tls := DocTests(d1, d2, d3, d4);
    assert tls[0].desc == d1 && tls[1].desc == d2 && tls[2].desc == d3 && tls[3].desc == d4;
    DocStream(d1, d2, d3, d4);
    DocCounts(d1, d2, d3, d4);
    WellFormedRun(theme, tls, lines);
  }

  /** The closing lines of any state with the documented counts. */
  lemma TwoAndTwoClosing(st: RunState, theme: Theme)
    requires GlyphsSafe(theme)
    requires st.tapErrors == [] && st.errorCount == 2 && |st.successes| == 2 && |st.errors| == 2
    requires VerdictOf(st) == SomeFailed
    ensures Closing(st, theme)
         == ["", SummaryLead + ("2 " + OkWord + Bar + "2 " + NotOkWord + Bar + "0 " + TapErrorsWord),
             Prefixed(VerdictLead(SomeFailed) + ("2 " + theme.success + Bar + "2 " + theme.failure
                      + Bar + "0 " + theme.tapError), theme.disaster)]
  {
    GlyphSummaryShape(theme, 2, 2, 0);
    assert NatToString(2) + " " == "2 " && NatToString(0) + " " == "0 ";
    assert SummaryText(2, 2, 0) == "2 " + OkWord + Bar + "2 " + NotOkWord + Bar + "0 " + TapErrorsWord;
    assert VerdictGlyph(st, theme) == theme.disaster;
    assert GlyphSummary(theme, 2, 2, 0) == "2 " + theme.success + Bar + "2 " + theme.failure
                      + Bar + "0 " + theme.tapError;
  }

  /**
   * The last lines of the documented report: the summary of two passes, two
   * failures and no protocol error, then "Some tests failed" with that
   * summary in glyphs, under the disaster glyph. `summarize`'s rewrite of
   * the protocol errors leaves this state as it is.
   */
  lemma DocClosing(theme: Theme, d1: string, d2: string, d3: string, d4: string, lines: seq<string>)
    requires Trailer(d1) && Trailer(d2) && Trailer(d3) && Trailer(d4)
    requires GlyphsSafe(theme)
    requires StripsTo(lines, DocLines(d1, d2, d3, d4))
    ensures forall i :: 0 <= i < |lines| ==> Processable(lines[i])
    ensures var fin := Finalized(AfterLines(Initial, theme, lines));
      && FlagAll(fin.tapErrors, theme.disaster) == fin.tapErrors
      && Closing(fin, theme)
         == ["", SummaryLead + ("2 " + OkWord + Bar + "2 " + NotOkWord + Bar + "0 " + TapErrorsWord),
             Prefixed(VerdictLead(SomeFailed) + ("2 " + theme.success + Bar + "2 " + theme.failure
                      + Bar + "0 " + theme.tapError), theme.disaster)]
  {
    DocExample(theme, d1, d2, d3, d4, lines);
    TwoAndTwoClosing(Finalized(AfterLines(Initial, theme, lines)), theme);
  }
}
