/**
 * The TAP summarizer's run state as a value, and every step of `Tapper`
 * as a function on it: a result number (`found_number`), a plan word
 * (`maybe_range`), a whole input line (`process_line`), the end of input
 * (`finalize`), the report (`summarize`) and the exit status (`exit_code`).
 * The step functions only compute; what each step guarantees is stated by
 * the lemma that follows it. The class in module Tapem is proved to
 * perform exactly these steps.
 */
module Tap {
  import opened PyText

  /** The glyph table: one display string per semantic tag. */
  datatype Theme = Theme(
    success: string,
    failure: string,
    tap: string,
    tapError: string,
    greatSuccess: string,
    disaster: string,
    catastrophe: string,
    attention: string)

  /** The glyph table a new `Tapper` starts with. */
  const EmojiTheme: Theme := Theme("\U{2705}", "\U{274C}", "\U{1F6B0}", "\U{1F6B1}",
                                   "\U{2764}\U{FE0F}", "\U{1F525}", "\U{1F4A5}", "\U{26A0}\U{FE0F}")

  /** The glyph table `set_ascii` switches to. */
  const AsciiTheme: Theme := Theme(":-)", ":-(", "^.^", "o.O", "<3 ", ">.<", "v.v", "!! ")

  /**
   * `prefixed(string, emoji)`: the glyph, a two-space bar separator, then
   * the text; glyph and text can be cut back out of the line.
   */
  function Prefixed(s: string, glyph: string): (r: string)
    ensures |r| == |glyph| + 4 + |s|
    ensures r[..|glyph|] == glyph
    ensures r[|glyph|..|glyph| + 4] == "  | "
    ensures r[|glyph| + 4..] == s
  {
    var sep := "  | ";
    assert glyph + sep + s == glyph + (sep + s);
    glyph + sep + s
  }

  /** Two report lines with the same glyph are equal only if their texts are. */
  lemma PrefixedInjective(s1: string, s2: string, glyph: string)
    requires Prefixed(s1, glyph) == Prefixed(s2, glyph)
    ensures s1 == s2
  {
  }

  // ---------------------------------------------------------------- tokens

  /**
   * What `found_number` holds after its `int()` attempt: the integer, or the
   * raw token when the conversion failed.
   */
  datatype Token = Num(n: int) | Raw(text: string)

  function ToToken(num: string): (t: Token)
    ensures t.Raw? <==> ParseInt(num).None?
    ensures t.Raw? ==> t.text == num
    ensures t.Num? ==> ParseInt(num) == Some(t.n)
  {
    match ParseInt(num)
    case Some(n) => Num(n)
    case None => Raw(num)
  }

  /** `"{}".format(num)` for either kind of token. */
  function TokenText(t: Token): string {
    match t
    case Num(n) => IntToString(n)
    case Raw(s) => s
  }

  /** Printing a number and converting it back gives the same token. */
  lemma TokenRoundTrip(t: Token)
    requires t.Num? || ParseInt(t.text).None?
    ensures ToToken(TokenText(t)) == t
  {
    if t.Num? {
      ParsePrinted(t.n);
    }
  }

  /** `num in self.range`: a raw string is never a member of a list of integers. */
  predicate Fits(t: Token, range: seq<int>) {
    t.Num? && t.n in range
  }

  // ---------------------------------------------------------------- messages

  /**
   * A protocol error, kept as the values it is formatted from; `Text` gives
   * the exact line the program stores. `Flagged` is an error after
   * `summarize` has put a glyph in front of it.
   */
  datatype ProtocolError =
    | InvalidNumber(num: string)
    | NoRangeBefore(t: Token)
    | OutOfRange(t: Token)
    | Duplicate(t: Token)
    | InvalidRange(word: string)
    | Overlap(word: string, n: int)
    | NoRangeFound
    | NoResultsFound
    | TooMany(found: nat, declared: nat)
    | Flagged(glyph: string, inner: ProtocolError)

  /**
   * The message as the program formats it. Each message ends with the
   * value it is about (the quoted number or position, the token, the plan
   * word, the declared count), and a flagged message is its glyph, the
   * separator and the inner message.
   */
  function Text(e: ProtocolError): (r: string)
    ensures e.InvalidNumber? ==> EndsWith(r, e.num + "'")
    ensures e.NoRangeBefore? || e.Duplicate? ==> EndsWith(r, TokenText(e.t))
    ensures e.InvalidRange? ==> EndsWith(r, e.word)
    ensures e.Overlap? ==> EndsWith(r, IntToString(e.n) + "'")
    ensures e.TooMany? ==> EndsWith(r, NatToString(e.declared))
    ensures e.Flagged? ==> |r| == |e.glyph| + 4 + |Text(e.inner)| && StartsWith(r, e.glyph)
                           && r[|e.glyph| + 4..] == Text(e.inner)
  {
    match e
    case InvalidNumber(num) => Quoted(InvalidNumberText, num)
    case NoRangeBefore(t) => Suffixed(NoRangeBeforeText, TokenText(t))
    case OutOfRange(t) => OutOfRangeText + TokenText(t) + OutOfRangeTail
    case Duplicate(t) => Suffixed(DuplicateText, TokenText(t))
    case InvalidRange(word) => Suffixed(InvalidRangeText, word)
    case Overlap(word, n) => Quoted(OverlapText + word + OverlapAt, IntToString(n))
    case NoRangeFound => NoRangeFoundText
    case NoResultsFound => NoResultsFoundText
    case TooMany(found, declared) => Suffixed(TooManyText + NatToString(found) + "/", NatToString(declared))
    case Flagged(glyph, inner) => Prefixed(Text(inner), glyph)
  }

  /** The fixed parts of the messages. */
  const InvalidNumberText: string := "Invalid test number: '"
  const NoRangeBeforeText: string := "No test range defined before result no. "
  const OutOfRangeText: string := "Test result "
  const OutOfRangeTail: string := " doesn't fit into any previous range"
  const DuplicateText: string := "Multiple results for test no. "
  const InvalidRangeText: string := "Invalid range: "
  const OverlapText: string := "Overlapping range '"
  const OverlapAt: string := "' at '"
  const NoRangeFoundText: string := "No test range found"
  const NoResultsFoundText: string := "No test results found"
  const TooManyText: string := "More test results than possible for test range: "

  /** A message text followed by a value. */
  function Suffixed(text: string, value: string): (r: string)
    ensures EndsWith(r, value)
  {
    assert (text + value)[|text|..] == value;
    text + value
  }

  /** A message text followed by a value and its closing quote. */
  function Quoted(text: string, value: string): (r: string)
    ensures EndsWith(r, value + "'")
  {
    assert text + value + "'" == text + (value + "'");
    Suffixed(text, value + "'")
  }

  /** The stored lines of a list of protocol errors. */
  function Texts(es: seq<ProtocolError>): (r: seq<string>)
    ensures |r| == |es|
    ensures forall i :: 0 <= i < |es| ==> r[i] == Text(es[i])
  {
    seq(|es|, i requires 0 <= i < |es| => Text(es[i]))
  }

  // ---------------------------------------------------------------- run state

  /** The fields of a `Tapper` object. */
  datatype RunState = RunState(
    errors: seq<string>,      // formatted "not ok" results
    successes: seq<string>,   // formatted "ok" results
    results: seq<string>,     // both, in input order
    numbers: seq<Token>,      // result numbers seen
    range: seq<int>,          // declared test numbers
    tapErrors: seq<ProtocolError>, // protocol errors
    errorCount: int)          // -1 until finalize

  const Initial: RunState := RunState([], [], [], [], [], [], -1)

  predicate NoDups<T(==)>(s: seq<T>) {
    forall i, j :: 0 <= i < j < |s| ==> s[i] != s[j]
  }

  predicate Increasing(s: seq<int>) {
    forall i, j :: 0 <= i < j < |s| ==> s[i] < s[j]
  }

  /** The invariant every step keeps. */
  predicate Consistent(st: RunState) {
    && |st.results| == |st.successes| + |st.errors|
    && NoDups(st.numbers)
    && NoDups(st.range)
  }

  /** Every list of `st'` extends the same list of `st`: nothing is removed or rewritten. */
  predicate Grows(st: RunState, st': RunState) {
    && st.errors <= st'.errors
    && st.successes <= st'.successes
    && st.results <= st'.results
    && st.numbers <= st'.numbers
    && st.range <= st'.range
    && st.tapErrors <= st'.tapErrors
  }

  lemma GrowsTrans(a: RunState, b: RunState, c: RunState)
    requires Grows(a, b) && Grows(b, c)
    ensures Grows(a, c)
  {
  }

  lemma NoDupsAppend<T>(a: seq<T>, b: seq<T>)
    requires NoDups(a) && NoDups(b)
    requires forall x :: x in b ==> x !in a
    ensures NoDups(a + b)
  {
    forall i, j | 0 <= i < j < |a + b|
      ensures (a + b)[i] != (a + b)[j]
    {
      if j >= |a| && i < |a| {
        assert (a + b)[j] in b;
      }
    }
  }

  // ---------------------------------------------------------------- found_number

  /** The protocol errors one call of `found_number` appends, in order. */
  function NumberErrors(numbers: seq<Token>, range: seq<int>, num: string): seq<ProtocolError> {
    var t := ToToken(num);
    (if t.Raw? then [InvalidNumber(num)] else [])
    + (if |range| == 0 then [NoRangeBefore(t)] else if !Fits(t, range) then [OutOfRange(t)] else [])
    + (if t in numbers then [Duplicate(t)] else [])
  }

  /**
   * Each error of `found_number` is raised exactly in its own case, and
   * once; in particular "no range" and "does not fit" never come together.
   */
  lemma NumberErrorsListed(numbers: seq<Token>, range: seq<int>, num: string)
    ensures var r, t := NumberErrors(numbers, range, num), ToToken(num);
      && |r| == (if ParseInt(num).None? then 1 else 0) + (if range == [] || !Fits(t, range) then 1 else 0)
                + (if t in numbers then 1 else 0)
      && (InvalidNumber(num) in r <==> ParseInt(num).None?)
      && (NoRangeBefore(t) in r <==> range == [])
      && (OutOfRange(t) in r <==> range != [] && !Fits(t, range))
      && (Duplicate(t) in r <==> t in numbers)
      && (range == [] ==> OutOfRange(t) !in r)
  {
  }

  /**
   * `found_number(num)`: its three checks append to `tap_errors` one after
   * the other, adding `NumberErrors`; the number is in `numbers`
   * afterwards, and no other field changes.
   */
  function AfterNumber(st: RunState, num: string): (r: RunState)
    ensures r.tapErrors == st.tapErrors + NumberErrors(st.numbers, st.range, num)
    ensures ToToken(num) in r.numbers
    ensures r == st.(numbers := r.numbers, tapErrors := r.tapErrors)
    ensures Grows(st, r)
  {
    var t := ToToken(num);
    var e1 := if t.Raw? then st.tapErrors + [InvalidNumber(num)] else st.tapErrors;
    var e2 := if |st.range| == 0 then e1 + [NoRangeBefore(t)]
              else if !Fits(t, st.range) then e1 + [OutOfRange(t)]
              else e1;
    assert (if t in st.numbers then e2 + [Duplicate(t)] else e2)
        == st.tapErrors + NumberErrors(st.numbers, st.range, num) by {
      AppendInTurn(st.tapErrors, t.Raw?, InvalidNumber(num), |st.range| == 0, NoRangeBefore(t),
                   !Fits(t, st.range), OutOfRange(t), t in st.numbers, Duplicate(t));
    }
    if t in st.numbers then st.(tapErrors := e2 + [Duplicate(t)])
    else st.(tapErrors := e2, numbers := st.numbers + [t])
  }

  /**
   * `found_number` records the number once: a repeat leaves `numbers` as it
   * was, a new number is appended, so `numbers` stays free of duplicates.
   */
  lemma NumberStep(st: RunState, num: string)
    ensures var st', t := AfterNumber(st, num), ToToken(num);
      && (t in st.numbers ==> st'.numbers == st.numbers)
      && (t !in st.numbers ==> st'.numbers == st.numbers + [t])
      && (NoDups(st.numbers) ==> NoDups(st'.numbers))
  {
    var t := ToToken(num);
    if NoDups(st.numbers) && t !in st.numbers {
      NoDupsAppend(st.numbers, [t]);
    }
  }

  /** Three optional appends in turn add the concatenation of what each adds. */
  lemma AppendInTurn<T>(e: seq<T>, c1: bool, m1: T, c2: bool, m2: T, c3: bool, m3: T, c4: bool, m4: T)
    ensures var e1 := if c1 then e + [m1] else e;
            var e2 := if c2 then e1 + [m2] else if c3 then e1 + [m3] else e1;
            (if c4 then e2 + [m4] else e2)
            == e + ((if c1 then [m1] else []) + (if c2 then [m2] else if c3 then [m3] else [])
                    + (if c4 then [m4] else []))
  {
  }

  // ---------------------------------------------------------------- maybe_range

  /** What `maybe_range` makes of a word. */
  datatype RangeDecl =
    | NotRange                      // a "." survives, or not exactly two parts: ignored
    | Malformed                     // two parts, not both integers: `int()` raises
    | Reversed(lo: int, hi: int)    // A > B: "Invalid range"
    | Bounds(lo: int, hi: int)      // A <= B

  /** The parsing steps of `maybe_range`: replace "..", look for ".", split, convert. */
  function ParseRange(word: string): (d: RangeDecl)
    ensures d.Reversed? ==> d.lo > d.hi
    ensures d.Bounds? ==> d.lo <= d.hi
  {
    var processed := Replace(word, "..", " ");
    if '.' in processed then NotRange
    else
      var parts := Split(processed);
      if |parts| != 2 then NotRange
      else
        match (ParseInt(parts[0]), ParseInt(parts[1]))
        case (Some(a), Some(b)) => if a > b then Reversed(a, b) else Bounds(a, b)
        case _ => Malformed
  }

  /** `"A..B".replace("..", " ")` is `"A B"` when neither A nor B holds a dot. */
  lemma ReplacePrinted(a: string, b: string)
    requires '.' !in a && '.' !in b
    ensures Replace(a + ".." + b, "..", " ") == a + " " + b
  {
    Assoc(a, "..", b);
    ReplaceSkip(a, ".." + b, "..", " ");
    ReplaceHead(b, "..", " ");
    ReplaceSkip(b, [], "..", " ");
    assert b + [] == b;
    Assoc(a, " ", b);
  }

  /** The plan word printed from two integers parses back to them. */
  lemma ParseRangePrinted(lo: int, hi: int)
    ensures ParseRange(IntToString(lo) + ".." + IntToString(hi))
         == if lo <= hi then Bounds(lo, hi) else Reversed(lo, hi)
  {
    var a, b := IntToString(lo), IntToString(hi);
    ReplacePrinted(a, b);
    var processed := a + " " + b;
    assert '.' !in processed;
    SplitSpaced(a, b);
    SplitWord(b, []);
    assert b + [] == b;
    assert Split(processed) == [a, b];
    ParsePrinted(lo);
    ParsePrinted(hi);
  }

  /** The numbers of [lo, hi] not in `existing`, ascending: what the loop appends. */
  function NewNumbers(existing: seq<int>, lo: int, hi: int): (r: seq<int>)
    ensures forall x :: x in r <==> lo <= x <= hi && x !in existing
    decreases hi - lo
  {
    if hi < lo then []
    else NewNumbers(existing, lo, hi - 1) + (if hi in existing then [] else [hi])
  }

  /** The loop appends the new numbers in ascending order, so never one twice. */
  lemma {:induction false} NewNumbersIncreasing(existing: seq<int>, lo: int, hi: int)
    ensures Increasing(NewNumbers(existing, lo, hi))
    decreases hi - lo
  {
    if lo <= hi {
      var below := NewNumbers(existing, lo, hi - 1);
      NewNumbersIncreasing(existing, lo, hi - 1);
      var r := NewNumbers(existing, lo, hi);
      forall i, j | 0 <= i < j < |r| ensures r[i] < r[j] {
        if j >= |below| {
          assert r[i] in below;
        }
      }
    }
  }

  /** One "Overlapping range" error per number of [lo, hi] already in `existing`, ascending. */
  function OverlapErrors(word: string, existing: seq<int>, lo: int, hi: int): seq<ProtocolError>
    decreases hi - lo
  {
    if hi < lo then []
    else OverlapErrors(word, existing, lo, hi - 1) + (if hi in existing then [Overlap(word, hi)] else [])
  }

  /** Every number of [lo, hi] that was already declared is reported. */
  lemma {:induction false} OverlapsReported(word: string, existing: seq<int>, lo: int, hi: int)
    ensures forall x :: lo <= x <= hi && x in existing ==> Overlap(word, x) in OverlapErrors(word, existing, lo, hi)
    decreases hi - lo
  {
    if lo <= hi {
      OverlapsReported(word, existing, lo, hi - 1);
    }
  }

  /** Every number of [lo, hi] is either appended to the range or reported as an overlap. */
  lemma {:induction false} RangeAccounting(word: string, existing: seq<int>, lo: int, hi: int)
    requires lo <= hi + 1
    ensures |NewNumbers(existing, lo, hi)| + |OverlapErrors(word, existing, lo, hi)| == hi - lo + 1
    decreases hi - lo
  {
    if lo <= hi {
      RangeAccounting(word, existing, lo, hi - 1);
    }
  }

  /** "Each number already declared adds exactly one error", in ascending order. */
  lemma {:induction false} OverlapCount(word: string, existing: seq<int>, lo: int, hi: int)
    requires lo <= hi
    requires forall x :: lo <= x <= hi ==> x in existing
    ensures NewNumbers(existing, lo, hi) == []
    ensures |OverlapErrors(word, existing, lo, hi)| == hi - lo + 1
    ensures forall i :: 0 <= i <= hi - lo ==> OverlapErrors(word, existing, lo, hi)[i] == Overlap(word, lo + i)
    decreases hi - lo
  {
    var r := OverlapErrors(word, existing, lo, hi);
    if lo < hi {
      var below := OverlapErrors(word, existing, lo, hi - 1);
      OverlapCount(word, existing, lo, hi - 1);
      assert NewNumbers(existing, lo, hi) == NewNumbers(existing, lo, hi - 1);
      assert r == below + [Overlap(word, hi)];
      forall i | 0 <= i <= hi - lo
        ensures r[i] == Overlap(word, lo + i)
      {
        if i < hi - lo {
          assert r[i] == below[i];
        }
      }
    } else {
      assert OverlapErrors(word, existing, lo, hi - 1) == [] && NewNumbers(existing, lo, hi - 1) == [];
      assert r == [Overlap(word, lo)];
    }
  }

  /**
   * `maybe_range(word)`; the ValueError case is excluded. Only `range` and
   * `tap_errors` change, and only by appending.
   */
  function AfterRange(st: RunState, word: string): (r: RunState)
    requires ParseRange(word) != Malformed
    ensures r == st.(range := r.range, tapErrors := r.tapErrors)
    ensures Grows(st, r)
  {
    match ParseRange(word)
    case NotRange => st
    case Reversed(_, _) => st.(tapErrors := st.tapErrors + [InvalidRange(word)])
    case Bounds(lo, hi) =>
      st.(range := st.range + NewNumbers(st.range, lo, hi),
          tapErrors := st.tapErrors + OverlapErrors(word, st.range, lo, hi))
  }

  /**
   * A word "A..B" with A <= B makes the range cover [A, B]
   * without duplicates, reporting every number already declared, and
   * every number of [A, B] is accounted for exactly once; A > B adds one
   * "Invalid range" error; any other word changes nothing.
   */
  lemma RangeStep(st: RunState, word: string)
    requires ParseRange(word) != Malformed
    ensures var st' := AfterRange(st, word);
      && (NoDups(st.range) ==> NoDups(st'.range))
      && match ParseRange(word)
         case Bounds(lo, hi) =>
           && (forall x :: x in st'.range <==> x in st.range || lo <= x <= hi)
           && (forall x :: lo <= x <= hi && x in st.range ==> Overlap(word, x) in st'.tapErrors)
           && |st'.range| - |st.range| + |st'.tapErrors| - |st.tapErrors| == hi - lo + 1
         case Reversed(_, _) =>
           st'.range == st.range && st'.tapErrors == st.tapErrors + [InvalidRange(word)]
         case _ => st' == st
  {
    match ParseRange(word)
    case Bounds(lo, hi) =>
      var added := NewNumbers(st.range, lo, hi);
      var reported := OverlapErrors(word, st.range, lo, hi);
      if NoDups(st.range) {
        NewNumbersIncreasing(st.range, lo, hi);
        NoDupsAppend(st.range, added);
      }
      OverlapsReported(word, st.range, lo, hi);
      RangeAccounting(word, st.range, lo, hi);
      assert forall m :: m in reported ==> m in st.tapErrors + reported;
    case _ =>
  }

  // ---------------------------------------------------------------- process_line

  /** How `process_line` classifies a stripped line. */
  datatype LineKind = Pass(number: string) | Fail(number: string) | Other

  /** No IndexError: an "ok" line has a second word, a "not ok" line a third. */
  predicate IndexSafe(stripped: string) {
    && (StartsWith(stripped, "ok") ==> |Split(stripped)| >= 2)
    && (!StartsWith(stripped, "ok") && StartsWith(stripped, "not ok") ==> |Split(stripped)| >= 3)
  }

  function Classify(stripped: string): LineKind
    requires IndexSafe(stripped)
  {
    if StartsWith(stripped, "ok") then Pass(Split(stripped)[1])
    else if StartsWith(stripped, "not ok") then Fail(Split(stripped)[2])
    else Other
  }

  /** The first word, when it contains ".." (the only case `maybe_range` is called). */
  function PlanWord(stripped: string): Option<string> {
    var words := Split(stripped);
    if |words| > 0 && Contains(words[0], "..") then Some(words[0]) else None
  }

  /** The lines `process_line` handles without raising. */
  predicate Processable(line: string) {
    var s := Strip(line);
    && IndexSafe(s)
    && (PlanWord(s).Some? ==> ParseRange(PlanWord(s).value) != Malformed)
  }

  /**
   * The state after the classification part of `process_line`, before the
   * plan check: nothing is removed, and `range` and `error_count` stay.
   */
  function AfterResult(st: RunState, theme: Theme, stripped: string): (r: RunState)
    requires IndexSafe(stripped)
    ensures r.range == st.range && r.errorCount == st.errorCount
    ensures Grows(st, r)
  {
    match Classify(stripped)
    case Pass(num) =>
      var r := Prefixed(stripped, theme.success);
      AfterNumber(st.(successes := st.successes + [r], results := st.results + [r]), num)
    case Fail(num) =>
      var r := Prefixed(stripped, theme.failure);
      AfterNumber(st.(errors := st.errors + [r], results := st.results + [r]), num)
    case Other => st
  }

  /** `process_line(line)`: nothing is removed and `error_count` stays. */
  function AfterLine(st: RunState, theme: Theme, line: string): (r: RunState)
    requires Processable(line)
    ensures r.errorCount == st.errorCount
    ensures Grows(st, r)
  {
    var s := Strip(line);
    var st1 := AfterResult(st, theme, s);
    assert PlanWord(s).Some? ==> Grows(st, AfterRange(st1, PlanWord(s).value)) by {
      if PlanWord(s).Some? {
        GrowsTrans(st, st1, AfterRange(st1, PlanWord(s).value));
      }
    }
    match PlanWord(s)
    case Some(word) => AfterRange(st1, word)
    case None => st1
  }

  /** The classification part of `process_line`: one record appended to the right lists. */
  lemma ResultStep(st: RunState, theme: Theme, s: string)
    requires IndexSafe(s)
    ensures var st' := AfterResult(st, theme, s);
      && (Consistent(st) ==> Consistent(st'))
      && (if StartsWith(s, "ok") then
            && st'.successes == st.successes + [Prefixed(s, theme.success)]
            && st'.results == st.results + [Prefixed(s, theme.success)]
            && st'.errors == st.errors
          else if StartsWith(s, "not ok") then
            && st'.errors == st.errors + [Prefixed(s, theme.failure)]
            && st'.results == st.results + [Prefixed(s, theme.failure)]
            && st'.successes == st.successes
          else st' == st)
  {
    match Classify(s)
    case Pass(num) =>
      NumberStep(st.(successes := st.successes + [Prefixed(s, theme.success)],
                     results := st.results + [Prefixed(s, theme.success)]), num);
    case Fail(num) =>
      NumberStep(st.(errors := st.errors + [Prefixed(s, theme.failure)],
                     results := st.results + [Prefixed(s, theme.failure)]), num);
    case Other =>
  }

  /**
   * `process_line` keeps the invariant: an "ok" line adds its record to
   * `successes` and `results`, a "not ok" line to `errors` and `results`,
   * any other line to none of them; `numbers` changes only for a test line
   * and `range` only for a plan word.
   */
  lemma LineStep(st: RunState, theme: Theme, line: string)
    requires Processable(line)
    ensures var st' := AfterLine(st, theme, line);
      && (Consistent(st) ==> Consistent(st'))
      && (var s := Strip(line);
          if StartsWith(s, "ok") then
            && st'.successes == st.successes + [Prefixed(s, theme.success)]
            && st'.results == st.results + [Prefixed(s, theme.success)]
            && st'.errors == st.errors
          else if StartsWith(s, "not ok") then
            && st'.errors == st.errors + [Prefixed(s, theme.failure)]
            && st'.results == st.results + [Prefixed(s, theme.failure)]
            && st'.successes == st.successes
          else
            st'.successes == st.successes && st'.results == st.results && st'.errors == st.errors)
      && (PlanWord(Strip(line)).None? ==> st'.range == st.range)
      && (Classify(Strip(line)).Other? ==> st'.numbers == st.numbers)
  {
    var s := Strip(line);
    var st1 := AfterResult(st, theme, s);
    ResultStep(st, theme, s);
    if PlanWord(s).Some? {
      RangeStep(st1, PlanWord(s).value);
    }
  }

  /**
   * The state after feeding `lines` to `process_line` one by one: nothing
   * is removed and `error_count` stays.
   */
  function AfterLines(st: RunState, theme: Theme, lines: seq<string>): (r: RunState)
    requires forall i :: 0 <= i < |lines| ==> Processable(lines[i])
    ensures r.errorCount == st.errorCount
    ensures Grows(st, r)
  {
    if lines == [] then st
    else
      var mid := AfterLines(st, theme, lines[..|lines| - 1]);
      assert Grows(st, AfterLine(mid, theme, lines[|lines| - 1])) by {
        GrowsTrans(st, mid, AfterLine(mid, theme, lines[|lines| - 1]));
      }
      AfterLine(mid, theme, lines[|lines| - 1])
  }

  /** One more line is one more `process_line` step. */
  lemma AfterLinesSnoc(st: RunState, theme: Theme, lines: seq<string>, i: nat)
    requires i < |lines|
    requires forall k :: 0 <= k < |lines| ==> Processable(lines[k])
    ensures AfterLines(st, theme, lines[..i + 1]) == AfterLine(AfterLines(st, theme, lines[..i]), theme, lines[i])
  {
    assert lines[..i + 1][..i] == lines[..i];
  }

  /**
   * `process_line` strips its line first, so whitespace around a line, such
   * as the "\n" a line read from a file keeps, changes nothing.
   */
  lemma AfterLineStripped(st: RunState, theme: Theme, line: string)
    ensures Processable(line) <==> Processable(Strip(line))
    ensures Processable(line) ==> AfterLine(st, theme, line) == AfterLine(st, theme, Strip(line))
  {
    var s := Strip(line);
    StripIdempotent(line);
    assert Strip(s) == s;
    if Processable(line) {
      assert AfterResult(st, theme, Strip(s)) == AfterResult(st, theme, s);
    }
  }

  /** `lines` are the lines of `stream` with whitespace around each. */
  predicate StripsTo(lines: seq<string>, stream: seq<string>) {
    |lines| == |stream| && forall i :: 0 <= i < |lines| ==> Strip(lines[i]) == stream[i]
  }

  /** Lines that strip to a processable stream are processable and leave the state the stream leaves. */
  lemma {:induction false} AfterLinesStripped(st: RunState, theme: Theme, lines: seq<string>, stream: seq<string>)
    requires StripsTo(lines, stream)
    requires forall i :: 0 <= i < |stream| ==> Processable(stream[i])
    ensures forall i :: 0 <= i < |lines| ==> Processable(lines[i])
    ensures AfterLines(st, theme, lines) == AfterLines(st, theme, stream)
    decreases |lines|
  {
    forall i | 0 <= i < |lines|
      ensures Processable(lines[i])
    {
      AfterLineStripped(st, theme, lines[i]);
    }
    if lines != [] {
      var n := |lines| - 1;
      AfterLinesStripped(st, theme, lines[..n], stream[..n]);
      var mid := AfterLines(st, theme, lines[..n]);
      AfterLineStripped(mid, theme, lines[n]);
    }
  }

  /** A whole input keeps the invariant. */
  lemma {:induction false} LinesStep(st: RunState, theme: Theme, lines: seq<string>)
    requires forall i :: 0 <= i < |lines| ==> Processable(lines[i])
    ensures Consistent(st) ==> Consistent(AfterLines(st, theme, lines))
    decreases |lines|
  {
    if lines != [] {
      var init := lines[..|lines| - 1];
      LinesStep(st, theme, init);
      LineStep(AfterLines(st, theme, init), theme, lines[|lines| - 1]);
    }
  }

  // ---------------------------------------------------------------- finalize

  function Max(a: nat, b: nat): nat {
    if a < b then b else a
  }

  /**
   * The whole-run protocol errors `finalize` appends, each exactly in its
   * own case and at most once: "No test range found" when no number was
   * declared, "No test results found" when there is no result, and "More
   * test results than possible" when there are more numbers or results
   * than declared numbers.
   */
  function FinalizeErrors(st: RunState): (r: seq<ProtocolError>)
    ensures |r| == (if |st.range| == 0 then 1 else 0) + (if |st.results| == 0 then 1 else 0)
                   + (if |st.numbers| > |st.range| || |st.results| > |st.range| then 1 else 0)
    ensures NoRangeFound in r <==> |st.range| == 0
    ensures NoResultsFound in r <==> |st.results| == 0
    ensures TooMany(Max(|st.numbers|, |st.results|), |st.range|) in r
            <==> |st.numbers| > |st.range| || |st.results| > |st.range|
  {
    (if |st.range| <= 0 then [NoRangeFound] else [])
    + (if |st.results| <= 0 then [NoResultsFound] else [])
    + (if |st.numbers| > |st.range| || |st.results| > |st.range|
       then [TooMany(Max(|st.numbers|, |st.results|), |st.range|)] else [])
  }

  /**
   * `finalize()`: three checks appending in turn, then the error count.
   * It appends the whole-run errors and sets the error count to the
   * failures plus all protocol errors, which is never negative; nothing
   * else changes, and the invariant is kept.
   */
  function Finalized(st: RunState): (r: RunState)
    ensures r == st.(tapErrors := r.tapErrors, errorCount := r.errorCount)
    ensures r.tapErrors == st.tapErrors + FinalizeErrors(st)
    ensures r.errorCount == |st.errors| + |r.tapErrors| >= 0
    ensures Consistent(st) ==> Consistent(r)
    ensures Grows(st, r)
  {
    var e1 := if |st.range| <= 0 then st.tapErrors + [NoRangeFound] else st.tapErrors;
    var e2 := if |st.results| <= 0 then e1 + [NoResultsFound] else e1;
    var e3 := if |st.numbers| > |st.range| || |st.results| > |st.range|
              then e2 + [TooMany(Max(|st.numbers|, |st.results|), |st.range|)] else e2;
    assert e3 == st.tapErrors + FinalizeErrors(st) by {
      AppendInTurn(st.tapErrors, |st.range| <= 0, NoRangeFound, |st.results| <= 0, NoResultsFound, false, NoRangeFound,
                   |st.numbers| > |st.range| || |st.results| > |st.range|,
                   TooMany(Max(|st.numbers|, |st.results|), |st.range|));
    }
    st.(tapErrors := e3, errorCount := |st.errors| + |e3|)
  }

  /** A second `finalize` appends the same errors again and raises the count by their number. */
  lemma FinalizeTwice(st: RunState)
    ensures FinalizeErrors(Finalized(st)) == FinalizeErrors(st)
    ensures Finalized(Finalized(st)).tapErrors == st.tapErrors + FinalizeErrors(st) + FinalizeErrors(st)
    ensures Finalized(Finalized(st)).errorCount == Finalized(st).errorCount + |FinalizeErrors(st)|
  {
  }

  // ---------------------------------------------------------------- summarize

  /** `[prefixed(x, glyph) for x in xs]`. */
  function PrefixAll(xs: seq<string>, glyph: string): (r: seq<string>)
    ensures |r| == |xs|
    ensures forall i :: 0 <= i < |xs| ==> r[i] == Prefixed(xs[i], glyph)
  {
    seq(|xs|, i requires 0 <= i < |xs| => Prefixed(xs[i], glyph))
  }

  /** The rewrite at the start of `summarize`: every protocol error gets the glyph in front. */
  function FlagAll(es: seq<ProtocolError>, glyph: string): (r: seq<ProtocolError>)
    ensures |r| == |es|
    ensures Texts(r) == PrefixAll(Texts(es), glyph)
  {
    seq(|es|, i requires 0 <= i < |es| => Flagged(glyph, es[i]))
  }

  /** The words of the summary line, which are also the patterns the glyph summary replaces. */
  const OkWord: string := "ok"
  const NotOkWord: string := "not ok"
  const TapErrorsWord: string := "tap errors"
  const Bar: string := "  |  "

  /** `"{} ok  |  {} not ok  |  {} tap errors".format(...)`. */
  function SummaryText(successes: nat, failures: nat, tapErrors: nat): string {
    NatToString(successes) + " " + OkWord + Bar
    + NatToString(failures) + " " + NotOkWord + Bar
    + NatToString(tapErrors) + " " + TapErrorsWord
  }

  /** The glyph summary: "not ok", then "ok", then "tap errors" replaced. */
  function GlyphSummary(theme: Theme, successes: nat, failures: nat, tapErrors: nat): string {
    Replace(Replace(Replace(SummaryText(successes, failures, tapErrors),
      NotOkWord, theme.failure), OkWord, theme.success), TapErrorsWord, theme.tapError)
  }

  /**
   * Glyphs that the later replacements cannot touch. Both themes of the
   * program meet it.
   */
  predicate GlyphsSafe(theme: Theme) {
    'o' !in theme.failure && 't' !in theme.failure && 't' !in theme.success
  }

  /** Both glyph tables of the program leave the later replacements nothing to match. */
  lemma ThemesSafe()
    ensures GlyphsSafe(EmojiTheme) && GlyphsSafe(AsciiTheme)
  {
    assert AsciiTheme.failure == [':', '-', '('];
    assert AsciiTheme.success == [':', '-', ')'];
  }

  lemma DigitsFree(n: nat, c: char)
    requires !IsDigit(c)
    ensures c !in NatToString(n)
  {
  }

  /** A single occurrence of `pat`, after text that cannot start one, is replaced. */
  lemma ReplaceOnce(head: string, tail: string, pat: string, rep: string)
    requires pat != [] && pat[0] !in head
    requires Replace(tail, pat, rep) == tail
    ensures Replace(head + pat + tail, pat, rep) == head + rep + tail
  {
    ReplaceSkip(head, pat + tail, pat, rep);
    ReplaceHead(tail, pat, rep);
    Assoc(head, pat, tail);
  }

  /** "errors" holds an "o" but no "ok". */
  lemma TapErrorsWordHasNoOk(S: string)
    ensures Replace(TapErrorsWord, OkWord, S) == TapErrorsWord
  {
    var rs, ors := "rs", "ors";
    assert Replace(rs, OkWord, S) == rs by {
      ReplaceSkip(rs, [], OkWord, S);
      assert rs + [] == rs;
    }
    assert ors[..2] != OkWord by {
      assert ors[1] == 'r' && OkWord[1] == 'k';
    }
    assert ors[1..] == rs;
    assert Replace(ors, OkWord, S) == [ors[0]] + Replace(rs, OkWord, S);
    assert [ors[0]] + rs == ors;
    assert TapErrorsWord == "tap err" + ors;
    ReplaceSkip("tap err", ors, OkWord, S);
  }

  /** First replacement of the glyph summary, on arbitrary pieces: `notOk` becomes `F`. */
  lemma NotOkStep(s: string, f: string, e: string, sp: string, bar: string,
                  ok: string, notOk: string, tapw: string, F: string)
    requires notOk != []
    requires notOk[0] !in s && notOk[0] !in sp && notOk[0] !in ok && notOk[0] !in bar
    requires notOk[0] !in f && notOk[0] !in e && notOk[0] !in tapw
    ensures Replace(s + sp + ok + bar + f + sp + notOk + bar + e + sp + tapw, notOk, F)
         == s + sp + ok + bar + f + sp + F + bar + e + sp + tapw
  {
    var tail := bar + e + sp + tapw;
    var head := s + sp + ok + bar + f + sp;
    assert Replace(tail, notOk, F) == tail by {
      ReplaceSkip(tail, [], notOk, F);
      assert tail + [] == tail;
    }
    ReplaceOnce(head, tail, notOk, F);
    Assoc5(head + notOk, bar, e, sp, tapw);
    Assoc5(head + F, bar, e, sp, tapw);
  }

  /** Second replacement: `ok` becomes `S`; `tapw` may contain its first character but not `ok`. */
  lemma OkStep(s: string, f: string, e: string, sp: string, bar: string,
               ok: string, tapw: string, S: string, F: string)
    requires ok != []
    requires ok[0] !in s && ok[0] !in sp && ok[0] !in bar && ok[0] !in f && ok[0] !in F && ok[0] !in e
    requires Replace(tapw, ok, S) == tapw
    ensures Replace(s + sp + ok + bar + f + sp + F + bar + e + sp + tapw, ok, S)
         == s + sp + S + bar + f + sp + F + bar + e + sp + tapw
  {
    var front := bar + f + sp + F + bar + e + sp;
    assert ok[0] !in front;
    ReplaceSkip(front, tapw, ok, S);
    ReplaceOnce(s + sp, front + tapw, ok, S);
    Assoc9(s + sp + ok, bar, f, sp, F, bar, e, sp, tapw);
    Assoc9(s + sp + S, bar, f, sp, F, bar, e, sp, tapw);
  }

  /** Third replacement: `tapw` becomes `T`. */
  lemma TapStep(s: string, f: string, e: string, sp: string, bar: string,
                tapw: string, S: string, F: string, T: string)
    requires tapw != []
    requires tapw[0] !in s && tapw[0] !in sp && tapw[0] !in S && tapw[0] !in bar
    requires tapw[0] !in f && tapw[0] !in F && tapw[0] !in e
    ensures Replace(s + sp + S + bar + f + sp + F + bar + e + sp + tapw, tapw, T)
         == s + sp + S + bar + f + sp + F + bar + e + sp + T
  {
    var head := s + sp + S + bar + f + sp + F + bar + e + sp;
    ReplaceOnce(head, [], tapw, T);
    assert head + tapw + [] == head + tapw;
    assert head + T + [] == head + T;
  }

  /**
   * Because "not ok" is replaced before "ok", each count is followed by
   * exactly one glyph.
   */
  lemma GlyphSummaryShape(theme: Theme, successes: nat, failures: nat, tapErrors: nat)
    requires GlyphsSafe(theme)
    ensures GlyphSummary(theme, successes, failures, tapErrors)
         == NatToString(successes) + " " + theme.success + Bar
            + NatToString(failures) + " " + theme.failure + Bar
            + NatToString(tapErrors) + " " + theme.tapError
  {
    var s, f, e := NatToString(successes), NatToString(failures), NatToString(tapErrors);
    DigitsFree(successes, 'n'); DigitsFree(failures, 'n'); DigitsFree(tapErrors, 'n');
    DigitsFree(successes, 'o'); DigitsFree(failures, 'o'); DigitsFree(tapErrors, 'o');
    DigitsFree(successes, 't'); DigitsFree(failures, 't'); DigitsFree(tapErrors, 't');
    TapErrorsWordHasNoOk(theme.success);
    NotOkStep(s, f, e, " ", Bar, OkWord, NotOkWord, TapErrorsWord, theme.failure);
    OkStep(s, f, e, " ", Bar, OkWord, TapErrorsWord, theme.success, theme.failure);
    TapStep(s, f, e, " ", Bar, TapErrorsWord, theme.success, theme.failure, theme.tapError);
  }

  /** The verdict `summarize` picks. */
  datatype Verdict = AllSuccessful | AllFailed | SomeFailed

  function VerdictOf(st: RunState): (v: Verdict)
    ensures v == AllSuccessful <==> st.errorCount == 0
    ensures v == AllFailed <==> st.errorCount != 0 && |st.successes| == 0 && |st.results| == |st.range|
    ensures v == SomeFailed <==> st.errorCount != 0 && (|st.successes| != 0 || |st.results| != |st.range|)
  {
    if st.errorCount == 0 then AllSuccessful
    else if |st.successes| == 0 && |st.results| == |st.range| then AllFailed
    else SomeFailed
  }

  /** The words in front of the glyph summary, assembled as `summarize` assembles them. */
  function VerdictLead(v: Verdict): string {
    match v
    case AllSuccessful => "All tests successful - "
    case AllFailed => "All" + " tests failed - "
    case SomeFailed => "Some" + " tests failed - "
  }

  /**
   * The glyph of the verdict line: the great-success glyph exactly when
   * the error count is 0; otherwise the catastrophe glyph when there is a
   * protocol error or no success at all, and the disaster glyph when there
   * are successes and no protocol error.
   */
  function VerdictGlyph(st: RunState, theme: Theme): (g: string)
    ensures st.errorCount == 0 ==> g == theme.greatSuccess
    ensures st.errorCount != 0 && (st.tapErrors != [] || st.successes == []) ==> g == theme.catastrophe
    ensures st.errorCount != 0 && st.tapErrors == [] && st.successes != [] ==> g == theme.disaster
  {
    if st.errorCount == 0 then theme.greatSuccess
    else if |st.tapErrors| > 0 || |st.successes| == 0 then theme.catastrophe
    else theme.disaster
  }

  /** The last report line. */
  function VerdictLine(st: RunState, theme: Theme): string {
    Prefixed(VerdictLead(VerdictOf(st)) + GlyphSummary(theme, |st.successes|, |st.errors|, |st.tapErrors|),
             VerdictGlyph(st, theme))
  }

  /** A block of the report: optional blank line, header, items; nothing for no items. */
  function Block(blank: bool, header: string, items: seq<string>): seq<string> {
    if items == [] then []
    else (if blank then [""] else []) + [header] + items
  }

  /** The number of lines a block takes: `lead` lines before its items, when there are items. */
  function BlockSize<T>(lead: nat, items: seq<T>): nat {
    if items == [] then 0 else lead + |items|
  }

  /** The headers and the lead of the summary line. */
  const ResultsHeading: string := "TAP Test results:"
  const FailuresHeading: string := "Test failures: "
  const ProtocolHeading: string := "Protocol error(s) were found:"
  const SummaryLead: string := "Summary: "

  /**
   * The lines `summarize` yields, from the state after its rewrite of the
   * protocol errors.
   */
  function Report(st: RunState, theme: Theme): seq<string> {
    Block(true, Prefixed(ResultsHeading, theme.tap), st.results)
    + Block(true, Prefixed(FailuresHeading, theme.attention), st.errors)
    + Block(false, Prefixed(ProtocolHeading, theme.attention), Texts(st.tapErrors))
    + Closing(st, theme)
  }

  /** The three lines every report ends with: a blank line, the plain summary, the verdict. */
  function Closing(st: RunState, theme: Theme): seq<string> {
    ["", SummaryLead + SummaryText(|st.successes|, |st.errors|, |st.tapErrors|), VerdictLine(st, theme)]
  }

  /** A block is its lead lines, the header last among them, then its items. */
  lemma BlockLayout(blank: bool, header: string, items: seq<string>)
    requires items != []
    ensures var b, lead := Block(blank, header, items), if blank then 2 else 1;
      && |b| == BlockSize(lead, items)
      && (blank ==> b[0] == "")
      && b[lead - 1] == header
      && b[lead..] == items
  {
  }

  /** Where each of four concatenated pieces sits. */
  lemma Pieces(p: seq<string>, q: seq<string>, u: seq<string>, v: seq<string>)
    ensures var r := p + q + u + v;
      && |r| == |p| + |q| + |u| + |v|
      && r[..|p|] == p
      && r[|p|..|p| + |q|] == q
      && r[|p| + |q|..|p| + |q| + |u|] == u
      && r[|p| + |q| + |u|..] == v
  {
    var r := p + q + u + v;
    assert r == p + (q + (u + v));
    assert r[|p|..] == q + (u + v);
    assert r[|p| + |q|..] == u + v;
  }

  /** Where each block of three consecutive blocks and the closing lines sit. */
  lemma BlocksLayout(h1: string, xs: seq<string>, h2: string, ys: seq<string>,
                     h3: string, zs: seq<string>, tail: seq<string>)
    ensures var r := Block(true, h1, xs) + Block(true, h2, ys) + Block(false, h3, zs) + tail;
      var a, b, c := BlockSize(2, xs), BlockSize(2, ys), BlockSize(1, zs);
      && |r| == a + b + c + |tail|
      && (xs != [] ==> r[0] == "" && r[1] == h1 && r[2..a] == xs)
      && (ys != [] ==> r[a] == "" && r[a + 1] == h2 && r[a + 2..a + b] == ys)
      && (zs != [] ==> r[a + b] == h3 && r[a + b + 1..a + b + c] == zs)
      && r[a + b + c..] == tail
  {
    var p, q, u := Block(true, h1, xs), Block(true, h2, ys), Block(false, h3, zs);
    Pieces(p, q, u, tail);
    if xs != [] {
      BlockLayout(true, h1, xs);
    }
    if ys != [] {
      BlockLayout(true, h2, ys);
    }
    if zs != [] {
      BlockLayout(false, h3, zs);
    }
  }

  /**
   * The report lists every result in input order, then every failure, then
   * every protocol error, each block under its header; then a blank line,
   * the plain summary and the verdict line close it.
   */
  lemma ReportLayout(st: RunState, theme: Theme)
    ensures var r, a, b, c := Report(st, theme), BlockSize(2, st.results), BlockSize(2, st.errors), BlockSize(1, st.tapErrors);
      && |r| == a + b + c + 3
      && (st.results != [] ==> r[0] == "" && r[1] == Prefixed(ResultsHeading, theme.tap) && r[2..a] == st.results)
      && (st.errors != [] ==> r[a] == "" && r[a + 1] == Prefixed(FailuresHeading, theme.attention)
                              && r[a + 2..a + b] == st.errors)
      && (st.tapErrors != [] ==> r[a + b] == Prefixed(ProtocolHeading, theme.attention)
                                 && r[a + b + 1..a + b + c] == Texts(st.tapErrors))
      && r[a + b + c] == ""
      && r[a + b + c + 1] == SummaryLead + SummaryText(|st.successes|, |st.errors|, |st.tapErrors|)
      && r[a + b + c + 2] == VerdictLine(st, theme)
  {
    var tail := Closing(st, theme);
    var lines := Texts(st.tapErrors);
    BlocksLayout(Prefixed(ResultsHeading, theme.tap), st.results, Prefixed(FailuresHeading, theme.attention), st.errors,
                 Prefixed(ProtocolHeading, theme.attention), lines, tail);
    assert BlockSize(1, lines) == BlockSize(1, st.tapErrors);
    var r := Report(st, theme);
    var k := BlockSize(2, st.results) + BlockSize(2, st.errors) + BlockSize(1, st.tapErrors);
    assert r[k..] == tail;
    assert r[k] == tail[0] && r[k + 1] == tail[1] && r[k + 2] == tail[2];
  }

  // ---------------------------------------------------------------- exit_code

  /** `min(error_count, 100)`. */
  function ExitCode(errorCount: int): (code: int)
    requires errorCount >= 0
    ensures 0 <= code <= 100
    ensures code <= errorCount
    ensures code == errorCount || code == 100
  {
    if errorCount < 100 then errorCount else 100
  }
}
