/** The pieces of Rust's `str` API that the four solvers share: splitting text
    into lines with `str::lines`, and the integer `from_str` parsers for `u32`,
    `usize` and `i32` (ASCII digits, an optional sign, a range check). */
module Text {
  import opened Wrappers

  const U32_MAX: nat := 0xFFFF_FFFF
  /** `usize` on a 64-bit target. */
  const USIZE_MAX: nat := 0xFFFF_FFFF_FFFF_FFFF
  const I32_MIN: int := -0x8000_0000
  const I32_MAX: int := 0x7FFF_FFFF

  // ---------------------------------------------------------------------------
  // Lines
  // ---------------------------------------------------------------------------

  /** Position of the first `c` in `s`, or `|s|` when `s` has none. */
  function IndexOf(s: string, c: char): (i: nat)
    ensures i <= |s|
    ensures i < |s| ==> s[i] == c
    ensures forall k :: 0 <= k < i ==> s[k] != c
  {
    if s == [] then 0
    else if s[0] == c then 0
    else 1 + IndexOf(s[1..], c)
  }

  /** Removes one `'\r'` from the end of a line that was followed by `'\n'`. */
  function StripCarriageReturn(l: string): string
  {
    if |l| > 0 && l[|l| - 1] == '\r' then l[..|l| - 1] else l
  }

  /** `str::lines`: the pieces between `'\n'` characters, a `'\r'` directly
      before a `'\n'` dropped, and no empty piece after a final `'\n'`. A `'\r'`
      at the very end of the text (not followed by `'\n'`) stays in the last line. */
  function Lines(s: string): (ls: seq<string>)
    ensures forall k :: 0 <= k < |ls| ==> '\n' !in ls[k]
    ensures s == [] <==> ls == []
    decreases |s|
  {
    if s == [] then []
    else
      var i := IndexOf(s, '\n');
      if i == |s| then [s]
      else [StripCarriageReturn(s[..i])] + Lines(s[i + 1..])
  }

  /** A line that `Lines` gives back unchanged: no line break inside it and no
      carriage return at its end. */
  predicate PlainLine(l: string)
  {
    '\n' !in l && (l == [] || l[|l| - 1] != '\r')
  }

  /** Each line followed by `'\n'`. */
  function Unlines(ls: seq<string>): string
  {
    if ls == [] then "" else ls[0] + "\n" + Unlines(ls[1..])
  }

  /** The first line break of `l + "\n" + rest`, for a line `l` without one,
      is the one after `l`. */
  lemma SplitAfterLine(l: string, rest: string)
    requires '\n' !in l
    ensures var s := l + "\n" + rest;
      IndexOf(s, '\n') == |l| < |s| && s[..|l|] == l && s[|l| + 1..] == rest
  {
    var s := l + "\n" + rest;
    assert s[|l|] == '\n';
    assert forall k :: 0 <= k < |l| ==> s[k] == l[k];
    assert IndexOf(s, '\n') == |l|;
    assert s[..|l|] == l;
    assert s[|l| + 1..] == rest;
  }

  /** Splitting the text that writes each line followed by a newline gives the
      lines back. */
  lemma {:induction false} LinesOfUnlines(ls: seq<string>)
    requires forall k :: 0 <= k < |ls| ==> PlainLine(ls[k])
    ensures Lines(Unlines(ls)) == ls
  {
    if ls != [] {
      assert PlainLine(ls[0]);
      SplitAfterLine(ls[0], Unlines(ls[1..]));
      assert Unlines(ls) == ls[0] + "\n" + Unlines(ls[1..]);
      LinesOfUnlines(ls[1..]);
    }
  }

  /** The lines joined by `'\n'`, with no newline after the last one. */
  function JoinLines(ls: seq<string>): string
  {
    if ls == [] then "" else if |ls| == 1 then ls[0] else ls[0] + "\n" + JoinLines(ls[1..])
  }

  /** A text without a final newline splits back into its lines, as long as
      the last line is not empty. */
  lemma {:induction false} LinesOfJoinLines(ls: seq<string>)
    requires forall k :: 0 <= k < |ls| ==> PlainLine(ls[k])
    requires ls == [] || ls[|ls| - 1] != ""
    ensures Lines(JoinLines(ls)) == ls
  {
    if |ls| == 1 {
      assert PlainLine(ls[0]);
      LinesOfOneLine(ls[0]);
    } else if |ls| > 1 {
      assert ls[1..][|ls| - 2] == ls[|ls| - 1];
      assert PlainLine(ls[0]);
      SplitAfterLine(ls[0], JoinLines(ls[1..]));
      assert JoinLines(ls) == ls[0] + "\n" + JoinLines(ls[1..]);
      LinesOfJoinLines(ls[1..]);
    }
  }

  /** A non-empty text without a line break is one line. */
  lemma LinesOfOneLine(l: string)
    requires '\n' !in l && l != ""
    ensures Lines(l) == [l]
  {
    assert IndexOf(l, '\n') == |l|;
  }

  /** Filtering lines that are all non-empty keeps them all. */
  lemma {:induction false} NonEmptyKeepsAll(ls: seq<string>)
    requires forall k :: 0 <= k < |ls| ==> ls[k] != ""
    ensures NonEmpty(ls) == ls
  {
    if ls != [] {
      NonEmptyKeepsAll(ls[1..]);
    }
  }

  /** `.filter(|s| !s.is_empty())`: keeps the non-empty lines in order. */
  function NonEmpty(ls: seq<string>): (r: seq<string>)
    ensures |r| <= |ls|
    ensures forall l :: l in r <==> l in ls && l != ""
  {
    if ls == [] then []
    else if ls[0] == "" then NonEmpty(ls[1..])
    else [ls[0]] + NonEmpty(ls[1..])
  }

  /** Every line through `parse`, where one failure fails the lot: the
      `.map(parse).collect()` of the solvers, whose parsers panic on a bad
      line. */
  function ParseAll<T>(ls: seq<string>, parse: string -> Option<T>): (r: Option<seq<T>>)
    ensures r.Some? ==> |r.value| == |ls|
    ensures r.Some? ==> forall k :: 0 <= k < |ls| ==> parse(ls[k]) == Some(r.value[k])
    ensures r.None? <==> exists k :: 0 <= k < |ls| && parse(ls[k]).None?
  {
    if ls == [] then Some([])
    else
      match (parse(ls[0]), ParseAll(ls[1..], parse))
      case (Some(x), Some(xs)) =>
        assert forall k :: 1 <= k < |ls| ==> ls[k] == ls[1..][k - 1];
        Some([x] + xs)
      case (None, _) => None
      case (_, None) =>
        assert forall k :: 0 <= k < |ls| - 1 ==> ls[1..][k] == ls[k + 1];
        None
  }

  /** When every line parses, the lot parses to the values in order. */
  lemma ParseAllOf<T>(ls: seq<string>, parse: string -> Option<T>, xs: seq<T>)
    requires |xs| == |ls|
    requires forall k :: 0 <= k < |ls| ==> parse(ls[k]) == Some(xs[k])
    ensures ParseAll(ls, parse) == Some(xs)
  {
    var r := ParseAll(ls, parse);
    assert r.Some?;
    assert r.value == xs;
  }

  // ---------------------------------------------------------------------------
  // Decimal digits
  // ---------------------------------------------------------------------------

  predicate IsDigit(c: char)
  {
    '0' <= c <= '9'
  }

  predicate AllDigits(s: string)
  {
    forall k :: 0 <= k < |s| ==> IsDigit(s[k])
  }

  function DigitValue(c: char): nat
    requires IsDigit(c)
  {
    c as int - '0' as int
  }

  function DigitChar(d: nat): (c: char)
    requires d < 10
    ensures IsDigit(c) && DigitValue(c) == d
  {
    ('0' as int + d) as char
  }

  /** The value of a string of decimal digits, most significant first. */
  function DigitsValue(s: string): nat
    requires AllDigits(s)
  {
    if s == [] then 0 else DigitsValue(s[..|s| - 1]) * 10 + DigitValue(s[|s| - 1])
  }

  /** The shortest decimal spelling of `n`. */
  function Decimal(n: nat): (s: string)
    ensures |s| > 0 && AllDigits(s)
  {
    if n < 10 then [DigitChar(n)] else Decimal(n / 10) + [DigitChar(n % 10)]
  }

  lemma {:induction false} DecimalRoundTrip(n: nat)
    ensures DigitsValue(Decimal(n)) == n
  {
    if n >= 10 {
      var s := Decimal(n);
      assert s[..|s| - 1] == Decimal(n / 10);
      DecimalRoundTrip(n / 10);
    }
  }

  // ---------------------------------------------------------------------------
  // Integer from_str
  // ---------------------------------------------------------------------------

  /** `u32::from_str` / `usize::from_str` with the type's largest value `max`:
      an optional `'+'`, then at least one ASCII digit and nothing else, with a
      value no larger than `max`. Every other text is an error (`None`). */
  function ParseUnsigned(s: string, max: nat): (r: Option<nat>)
    ensures r.Some? ==> |s| > 0 && r.value <= max
    ensures r.Some? ==> forall k :: 0 <= k < |s| ==> IsDigit(s[k]) || (k == 0 && s[k] == '+')
  {
    var digits := if |s| > 0 && s[0] == '+' then s[1..] else s;
    if digits == [] || !AllDigits(digits) then None
    else
      var v := DigitsValue(digits);
      if v <= max then Some(v) else None
  }

  /** `i32::from_str` with bounds `min..=max`: an optional `'+'` or `'-'`, then
      at least one ASCII digit and nothing else, with a value in range. */
  function ParseSigned(s: string, min: int, max: int): (r: Option<int>)
    ensures r.Some? ==> |s| > 0 && min <= r.value <= max
    ensures r.Some? ==> forall k :: 0 <= k < |s| ==> IsDigit(s[k]) || (k == 0 && (s[k] == '+' || s[k] == '-'))
  {
    var negative := |s| > 0 && s[0] == '-';
    var digits := if |s| > 0 && (s[0] == '+' || s[0] == '-') then s[1..] else s;
    if digits == [] || !AllDigits(digits) then None
    else
      var v := if negative then -(DigitsValue(digits) as int) else DigitsValue(digits) as int;
      if min <= v <= max then Some(v) else None
  }

  /** The decimal spelling of any integer, with `'-'` for negative values. */
  function Signed(n: int): string
  {
    if n < 0 then "-" + Decimal(-n) else Decimal(n)
  }

  /** The unsigned parser reads back exactly the values in range, with or
      without a leading `'+'`. */
  lemma ParseUnsignedDecimal(n: nat, max: nat)
    ensures ParseUnsigned(Decimal(n), max) == (if n <= max then Some(n) else None)
    ensures ParseUnsigned("+" + Decimal(n), max) == (if n <= max then Some(n) else None)
  {
    DecimalRoundTrip(n);
    assert ("+" + Decimal(n))[1..] == Decimal(n);
  }

  /** The signed parser reads back every value in range from its spelling,
      and a non-negative value also with a leading `'+'`. */
  lemma ParseSignedRoundTrip(n: int, min: int, max: int)
    requires min <= n <= max
    ensures ParseSigned(Signed(n), min, max) == Some(n)
    ensures n >= 0 ==> ParseSigned("+" + Decimal(n), min, max) == Some(n)
  {
    if n < 0 {
      ParseNegative(-n, min, max);
    } else {
      ParseNonNegative(n, min, max);
    }
  }

  /** The spelling of a negative value. */
  lemma ParseNegative(m: nat, min: int, max: int)
    requires min <= -(m as int) <= max && m > 0
    ensures ParseSigned("-" + Decimal(m), min, max) == Some(-(m as int))
  {
    var d := Decimal(m);
    DecimalRoundTrip(m);
    assert ("-" + d)[0] == '-' && ("-" + d)[1..] == d;
  }

  /** The spelling of a non-negative value, with or without `'+'`. */
  lemma ParseNonNegative(n: nat, min: int, max: int)
    requires min <= n <= max
    ensures ParseSigned(Decimal(n), min, max) == Some(n)
    ensures ParseSigned("+" + Decimal(n), min, max) == Some(n)
  {
    var d := Decimal(n);
    DecimalRoundTrip(n);
    assert IsDigit(d[0]);
    assert ("+" + d)[0] == '+' && ("+" + d)[1..] == d;
  }
}
