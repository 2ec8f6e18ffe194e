/**
 * The handful of Python string built-ins the TAP summarizer relies on:
 * `str.strip`, `str.split` (no separator), `str.startswith`, substring `in`,
 * `str.replace`, `int()` on a token and `str()` / `format` on an integer.
 * Only ASCII whitespace is treated as whitespace, and `int()` is a plain
 * signed decimal parser.
 */
module PyText {

  datatype Option<T> = None | Some(value: T)

  /** Python's `str.isspace` restricted to ASCII (space, \t \n \v \f \r, \x1c-\x1f). */
  predicate IsSpace(c: char) {
    c == ' ' || ('\t' <= c <= '\r') || ('\U{1C}' <= c <= '\U{1F}')
  }

  predicate NoSpace(s: string) {
    forall i :: 0 <= i < |s| ==> !IsSpace(s[i])
  }

  /** `s.startswith(prefix)`. */
  predicate StartsWith(s: string, prefix: string) {
    |prefix| <= |s| && s[..|prefix|] == prefix
  }

  /** `s.endswith(suffix)`. */
  predicate EndsWith(s: string, suffix: string) {
    |suffix| <= |s| && s[|s| - |suffix|..] == suffix
  }

  /** A concatenation starts with its first part. */
  lemma StartsWithPrefix(p: string, q: string)
    ensures StartsWith(p + q, p)
  {
    assert (p + q)[..|p|] == p;
  }

  /** Python's `needle in s` for strings. */
  predicate Contains(s: string, needle: string)
    decreases |s|
  {
    StartsWith(s, needle) || (s != [] && Contains(s[1..], needle))
  }

  /** `needle` occurs in `s` at position `i`. */
  predicate OccursAt(s: string, needle: string, i: int) {
    0 <= i <= |s| - |needle| && s[i..i + |needle|] == needle
  }

  /** `needle in s` holds exactly when `needle` occurs at some position of `s`. */
  lemma {:induction false} ContainsAt(s: string, needle: string)
    ensures Contains(s, needle) <==> exists i :: OccursAt(s, needle, i)
    decreases |s|
  {
    var n := |needle|;
    if StartsWith(s, needle) {
      assert OccursAt(s, needle, 0);
    } else if s != [] {
      var t := s[1..];
      ContainsAt(t, needle);
      if Contains(t, needle) {
        var i :| OccursAt(t, needle, i);
        assert OccursAt(s, needle, i + 1);
      }
      if exists i :: OccursAt(s, needle, i) {
        var i :| OccursAt(s, needle, i);
        assert i != 0;
        assert OccursAt(t, needle, i - 1);
      }
    }
  }

  // ---------------------------------------------------------------- strip

  /** `s.lstrip()`: drops the leading whitespace and nothing else. */
  function StripLeft(s: string): (r: string)
    ensures |r| <= |s| && r == s[|s| - |r|..]
    ensures r == [] || !IsSpace(r[0])
    ensures forall i :: 0 <= i < |s| - |r| ==> IsSpace(s[i])
    decreases |s|
  {
    if s != [] && IsSpace(s[0]) then
      var r := StripLeft(s[1..]);
      assert s[1..][|s| - 1 - |r|..] == s[|s| - |r|..];
      r
    else s
  }

  /** `s.rstrip()`: drops the trailing whitespace and nothing else. */
  function StripRight(s: string): (r: string)
    ensures |r| <= |s| && r == s[..|r|]
    ensures r == [] || !IsSpace(r[|r| - 1])
    ensures forall i :: |r| <= i < |s| ==> IsSpace(s[i])
    decreases |s|
  {
    if s != [] && IsSpace(s[|s| - 1]) then StripRight(s[..|s| - 1]) else s
  }

  /** `s.strip()`. */
  function Strip(s: string): string {
    StripRight(StripLeft(s))
  }

  /**
   * `strip()` keeps exactly the part of `s` between its leading and its
   * trailing whitespace, and that part neither starts nor ends with
   * whitespace.
   */
  lemma StripTrims(s: string)
    ensures var r, k := Strip(s), |s| - |StripLeft(s)|;
      && k + |r| <= |s| && r == s[k..k + |r|]
      && (forall i :: 0 <= i < k ==> IsSpace(s[i]))
      && (forall i :: k + |r| <= i < |s| ==> IsSpace(s[i]))
      && (r == [] || (!IsSpace(r[0]) && !IsSpace(r[|r| - 1])))
  {
    StripSlice(s);
    StripTail(s);
    StripEnds(s);
  }

  lemma StripSlice(s: string)
    ensures var r, k := Strip(s), |s| - |StripLeft(s)|;
      k + |r| <= |s| && r == s[k..k + |r|]
  {
    var l := StripLeft(s);
    var k := |s| - |l|;
    assert l == s[k..];
  }

  lemma StripTail(s: string)
    ensures var r, k := Strip(s), |s| - |StripLeft(s)|;
      forall i :: k + |r| <= i < |s| ==> IsSpace(s[i])
  {
    var l := StripLeft(s);
    var r, k := StripRight(l), |s| - |l|;
    forall i | k + |r| <= i < |s|
      ensures IsSpace(s[i])
    {
      assert s[i] == l[i - k];
    }
  }

  lemma StripEnds(s: string)
    ensures var r := Strip(s);
      r == [] || (!IsSpace(r[0]) && !IsSpace(r[|r| - 1]))
  {
    var l := StripLeft(s);
    var r := StripRight(l);
    if r != [] {
      assert r[0] == l[0];
    }
  }

  /** A string that begins and ends with a non-space character is its own strip. */
  lemma StripUnchanged(s: string)
    requires s != [] && !IsSpace(s[0]) && !IsSpace(s[|s| - 1])
    ensures Strip(s) == s
  {
  }

  /** Stripping twice is stripping once. */
  lemma StripIdempotent(s: string)
    ensures Strip(Strip(s)) == Strip(s)
  {
    StripTrims(s);
    if Strip(s) != [] {
      StripUnchanged(Strip(s));
    }
  }

  // ---------------------------------------------------------------- split

  /** The longest prefix of `s` without whitespace. */
  function LeadingWord(s: string): (w: string)
    ensures |w| <= |s| && w == s[..|w|]
    ensures NoSpace(w)
    ensures |w| < |s| ==> IsSpace(s[|w|])
    decreases |s|
  {
    if s != [] && !IsSpace(s[0]) then [s[0]] + LeadingWord(s[1..]) else []
  }

  /** The characters of `s` that are not whitespace, in order. */
  function Unspaced(s: string): string {
    if s == [] then [] else (if IsSpace(s[0]) then [] else [s[0]]) + Unspaced(s[1..])
  }

  /** The words joined without separator: `"".join(words)`. */
  function Concat(words: seq<string>): string {
    if words == [] then [] else words[0] + Concat(words[1..])
  }

  /** A whitespace-free prefix is kept whole by `Unspaced`. */
  lemma {:induction false} UnspacedPrefix(s: string, k: nat)
    requires k <= |s| && NoSpace(s[..k])
    ensures Unspaced(s) == s[..k] + Unspaced(s[k..])
    decreases k
  {
    if k == 0 {
      assert s[..0] == [] && s[0..] == s;
    } else {
      assert s[1..][..k - 1] == s[1..k];
      UnspacedPrefix(s[1..], k - 1);
      assert s[1..][k - 1..] == s[k..];
      assert s[..k] == [s[0]] + s[1..k];
    }
  }

  /**
   * `s.split()`: the maximal runs of non-whitespace characters, in order.
   * No word is empty or holds whitespace; `SplitJoins` says what the words
   * are.
   */
  function Split(s: string): (words: seq<string>)
    ensures forall w :: w in words ==> w != [] && NoSpace(w)
    decreases |s|
  {
    if s == [] then []
    else if IsSpace(s[0]) then Split(s[1..])
    else
      var w := LeadingWord(s);
      [w] + Split(s[|w|..])
  }

  /**
   * Joined together, the words of `s.split()` are exactly the
   * non-whitespace characters of `s`, in order; a string that does not
   * start with whitespace splits into its leading word first.
   */
  lemma {:induction false} SplitJoins(s: string)
    ensures Concat(Split(s)) == Unspaced(s)
    ensures s != [] && !IsSpace(s[0]) ==> Split(s) != [] && Split(s)[0] == LeadingWord(s)
    decreases |s|
  {
    if s != [] && IsSpace(s[0]) {
      SplitJoins(s[1..]);
    } else if s != [] {
      var w := LeadingWord(s);
      var rest := Split(s[|w|..]);
      SplitJoins(s[|w|..]);
      assert ([w] + rest)[1..] == rest;
      UnspacedPrefix(s, |w|);
    }
  }

  lemma {:induction false} LeadingWordOf(w: string, rest: string)
    requires NoSpace(w)
    requires rest == [] || IsSpace(rest[0])
    ensures LeadingWord(w + rest) == w
    decreases |w|
  {
    if w != [] {
      assert (w + rest)[1..] == w[1..] + rest;
      LeadingWordOf(w[1..], rest);
    }
  }

  /** A word followed by a whitespace boundary is the first word of the split. */
  lemma SplitWord(w: string, rest: string)
    requires w != [] && NoSpace(w)
    requires rest == [] || IsSpace(rest[0])
    ensures Split(w + rest) == [w] + Split(rest)
  {
    LeadingWordOf(w, rest);
    assert (w + rest)[|w|..] == rest;
  }

  /** `(w + " " + rest).split()` is `[w] + rest.split()`. */
  lemma SplitSpaced(w: string, rest: string)
    requires w != [] && NoSpace(w)
    ensures Split(w + " " + rest) == [w] + Split(rest)
  {
    SplitWord(w, " " + rest);
    assert (" " + rest)[1..] == rest;
    Assoc(w, " ", rest);
  }

  // ---------------------------------------------------------------- replace

  /**
   * `s.replace(pat, rep)`: every occurrence of `pat`, found left to right
   * without overlap, is replaced; the replacement text is never rescanned.
   */
  function Replace(s: string, pat: string, rep: string): (r: string)
    requires pat != []
    ensures !Contains(s, pat) ==> r == s
    ensures rep == pat ==> r == s
    decreases |s|
  {
    if |s| < |pat| then s
    else if s[..|pat|] == pat then
      assert s == pat + s[|pat|..];
      rep + Replace(s[|pat|..], pat, rep)
    else
      assert s == [s[0]] + s[1..];
      [s[0]] + Replace(s[1..], pat, rep)
  }

  /** Text without the first character of `pat` passes through unchanged. */
  lemma {:induction false} ReplaceSkip(a: string, b: string, pat: string, rep: string)
    requires pat != [] && pat[0] !in a
    ensures Replace(a + b, pat, rep) == a + Replace(b, pat, rep)
    decreases |a|
  {
    if a != [] {
      var s := a + b;
      if |s| < |pat| {
        ReplaceShort(b, pat, rep);
      } else {
        assert s[..|pat|][0] == a[0] != pat[0];
        assert s[1..] == a[1..] + b;
        ReplaceSkip(a[1..], b, pat, rep);
        assert a == [a[0]] + a[1..];
      }
    } else {
      assert a + b == b;
    }
  }

  lemma {:induction false} ReplaceShort(s: string, pat: string, rep: string)
    requires pat != [] && |s| < |pat|
    ensures Replace(s, pat, rep) == s
  {
  }

  /** An occurrence at the front is replaced, and scanning resumes after it. */
  lemma ReplaceHead(b: string, pat: string, rep: string)
    requires pat != []
    ensures Replace(pat + b, pat, rep) == rep + Replace(b, pat, rep)
  {
    assert (pat + b)[..|pat|] == pat;
    assert (pat + b)[|pat|..] == b;
  }

  // ---------------------------------------------------------------- integers

  predicate IsDigit(c: char) {
    '0' <= c <= '9'
  }

  /** One or more decimal digits. */
  predicate IsDecimal(s: string) {
    s != [] && forall i :: 0 <= i < |s| ==> IsDigit(s[i])
  }

  function DigitValue(c: char): nat
    requires IsDigit(c)
  {
    (c - '0') as nat
  }

  function DigitChar(d: nat): (c: char)
    requires d < 10
    ensures IsDigit(c) && DigitValue(c) == d
  {
    ('0' as int + d) as char
  }

  function DecimalValue(s: string): nat
    requires forall i :: 0 <= i < |s| ==> IsDigit(s[i])
  {
    if s == [] then 0 else 10 * DecimalValue(s[..|s| - 1]) + DigitValue(s[|s| - 1])
  }

  /**
   * `int(s)` on a whitespace-free token: an optional sign and one or more
   * decimal digits; anything else is the ValueError case, `None`.
   */
  function ParseInt(s: string): (r: Option<int>)
    ensures r.Some? ==> s != [] && forall i :: 0 <= i < |s| ==> IsDigit(s[i]) || (i == 0 && s[i] in "+-")
    ensures IsDecimal(s) ==> r == Some(DecimalValue(s))
  {
    if s != [] && (s[0] == '-' || s[0] == '+') then
      if IsDecimal(s[1..]) then
        var v: int := DecimalValue(s[1..]);
        Some(if s[0] == '-' then -v else v)
      else None
    else if IsDecimal(s) then Some(DecimalValue(s))
    else None
  }

  /**
   * What `int(s)` accepts: exactly digits, or a sign followed by digits, so
   * a lone sign fails; a sign in front gives the digits' value, negated after "-".
   */
  lemma ParseIntAccepts(s: string)
    ensures ParseInt(s).Some? <==> IsDecimal(s) || (s != [] && s[0] in "+-" && IsDecimal(s[1..]))
    ensures s != [] && s[0] == '+' && IsDecimal(s[1..]) ==> ParseInt(s) == Some(DecimalValue(s[1..]))
    ensures s != [] && s[0] == '-' && IsDecimal(s[1..])
            ==> ParseInt(s).Some? && ParseInt(s).value == -(DecimalValue(s[1..]) as int)
  {
  }

  /** `str(n)` for a non-negative integer: decimal digits, no leading zero. */
  function NatToString(n: nat): (r: string)
    ensures IsDecimal(r)
    ensures DecimalValue(r) == n
    ensures r[0] == '0' ==> n == 0
    ensures |r| > 1 ==> r[0] != '0'
  {
    if n < 10 then [DigitChar(n)]
    else
      var r := NatToString(n / 10) + [DigitChar(n % 10)];
      assert r[..|r| - 1] == NatToString(n / 10);
      r
  }

  /** `str(i)` for any integer. */
  function IntToString(i: int): (r: string)
    ensures r != [] && NoSpace(r) && '.' !in r
    ensures i >= 0 ==> IsDecimal(r) && DecimalValue(r) == i
    ensures i < 0 ==> r[0] == '-' && IsDecimal(r[1..]) && DecimalValue(r[1..]) == -i
    ensures i >= 0 && |r| > 1 ==> r[0] != '0'
    ensures i < 0 ==> |r| > 1 && r[1] != '0'
  {
    var r := if i < 0 then "-" + NatToString(-i) else NatToString(i);
    assert forall k :: 0 <= k < |r| ==> r[k] == '-' || IsDigit(r[k]);
    r
  }

  /** `int(str(i)) == i`: the integer parser inverts the printer. */
  lemma ParsePrinted(i: int)
    ensures ParseInt(IntToString(i)) == Some(i)
  {
    if i < 0 {
      assert ("-" + NatToString(-i))[1..] == NatToString(-i);
    }
  }

  // ---------------------------------------------------------------- sequence plumbing

  /** Concatenation is associative. */
  lemma Assoc<T>(a: seq<T>, b: seq<T>, c: seq<T>)
    ensures a + b + c == a + (b + c)
  {
  }

  lemma Assoc4<T>(a: seq<T>, b: seq<T>, c: seq<T>, d: seq<T>)
    ensures a + b + c + d == a + (b + (c + d))
  {
  }

  /** Moving the parentheses of a five-piece concatenation. */
  lemma Assoc5<T>(p: seq<T>, x1: seq<T>, x2: seq<T>, x3: seq<T>, x4: seq<T>)
    ensures p + x1 + x2 + x3 + x4 == p + (x1 + x2 + x3 + x4)
  {
  }

  /** Moving the parentheses of a nine-piece concatenation. */
  lemma Assoc9<T>(p: seq<T>, x1: seq<T>, x2: seq<T>, x3: seq<T>, x4: seq<T>,
                  x5: seq<T>, x6: seq<T>, x7: seq<T>, x8: seq<T>)
    ensures p + x1 + x2 + x3 + x4 + x5 + x6 + x7 + x8 == p + (x1 + x2 + x3 + x4 + x5 + x6 + x7 + x8)
  {
  }

  lemma Cons2<T>(a: T, b: T, c: seq<T>)
    ensures [a] + ([b] + c) == [a, b] + c
  {
  }

  lemma Cons3<T>(a: T, b: T, c: T, d: seq<T>)
    ensures [a] + ([b] + ([c] + d)) == [a, b, c] + d
  {
  }

  lemma AppendNil<T>(a: seq<T>)
    ensures a + [] == a
  {
  }

  /** Equal prefixes stay equal when the same tail is appended. */
  lemma AppendSame<T>(a: seq<T>, b: seq<T>, ab: seq<T>, c: seq<T>)
    requires a + b == ab
    ensures a + b + c == ab + c
  {
  }

  /** Dropping the last element of a concatenation with a non-empty tail. */
  lemma DropLast<T>(a: seq<T>, b: seq<T>)
    requires b != []
    ensures (a + b)[..|a + b| - 1] == a + b[..|b| - 1]
    ensures (a + b)[|a + b| - 1] == b[|b| - 1]
  {
    assert (a + b)[..|a + b| - 1] == a + b[..|b| - 1];
  }
}
