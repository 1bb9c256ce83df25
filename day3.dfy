/** Day 3, fabric claims (rust/day-3/src/lib.rs): every line claims a
    rectangle of square-inch cells, `#id @ x,y: wxh`. One pass over the claims
    marks each cell with its first claimant and collects the cells and the
    claim ids that meet another claim; the answer is the number of contested
    cells and one claim id that is never contested. */
module Fabric {
  import opened Wrappers
  import opened Text

  datatype Claim = Claim(id: nat, x: nat, y: nat, width: nat, height: nat)

  // ---------------------------------------------------------------------------
  // The claim pattern
  // ---------------------------------------------------------------------------

  /** One element of a fixed pattern: a literal character, `\s`, or a
      captured `\d+`. */
  datatype Token = Lit(c: char) | Space | Number

  /** A pattern is a chain of tokens. */
  datatype Pattern = End | Then(head: Token, tail: Pattern)

  /** `CLAIM_PATTERN`: a `'#'`, the id's digits, a white-space character,
      `'@'`, a white-space character, the digits of x, `','`, the digits of y,
      `':'`, a white-space character, the width's digits, `'x'` and the
      height's digits. */
  const ClaimPattern: Pattern :=
    Then(Lit('#'), Then(Number, Then(Space, Then(Lit('@'), Then(Space,
    Then(Number, Then(Lit(','), Then(Number, Then(Lit(':'), Then(Space,
    Then(Number, Then(Lit('x'), Then(Number, End)))))))))))))

  /** The character ranges of the Unicode White_Space property. */
  const WhiteSpace: seq<(char, char)> :=
    [(' ', ' '), ('\t', '\r'), ('\U{85}', '\U{85}'), ('\U{A0}', '\U{A0}'), ('\U{1680}', '\U{1680}'),
     ('\U{2000}', '\U{200A}'), ('\U{2028}', '\U{2029}'), ('\U{202F}', '\U{202F}'),
     ('\U{205F}', '\U{205F}'), ('\U{3000}', '\U{3000}')]

  /** `c` lies in one of the ranges from the `i`-th on. */
  predicate InRanges(c: char, ranges: seq<(char, char)>, i: nat)
    decreases |ranges| - i
  {
    i < |ranges| && (ranges[i].0 <= c <= ranges[i].1 || InRanges(c, ranges, i + 1))
  }

  /** `\s`: a character with the Unicode White_Space property. */
  predicate IsSpace(c: char)
  {
    InRanges(c, WhiteSpace, 0)
  }

  /** How many groups the pattern captures. */
  function Captured(p: Pattern): nat
  {
    match p
    case End => 0
    case Then(t, rest) => (if t.Number? then 1 else 0) + Captured(rest)
  }

  /** A token that can never match a digit. */
  predicate NeverDigit(t: Token)
  {
    t.Space? || (t.Lit? && !IsDigit(t.c))
  }

  /** Every `\d+` is followed by the end of the pattern or by a token that
      never matches a digit. */
  predicate Separated(p: Pattern)
  {
    match p
    case End => true
    case Then(t, rest) => (t.Number? && rest.Then? ==> NeverDigit(rest.head)) && Separated(rest)
  }

  /** The length of the run of digits at the front of `t`. */
  function DigitSpan(t: string): (n: nat)
    ensures n <= |t|
  {
    if t != [] && IsDigit(t[0]) then 1 + DigitSpan(t[1..]) else 0
  }

  /** The pattern matched at the very front of `t` (what follows the match
      is not looked at): the captured digit runs, in order, or `None`. Each
      `\d+` takes the whole run of digits in front of it. In a `Separated`
      pattern a shorter run would be followed by a digit that the next token
      cannot match, so the regex, which may backtrack, finds this match and no
      other at this position. */
  function MatchTokens(p: Pattern, t: string): (r: Option<seq<string>>)
    ensures r.Some? ==> |r.value| == Captured(p)
  {
    match p
    case End => Some([])
    case Then(Lit(c), rest) => if t != [] && t[0] == c then MatchTokens(rest, t[1..]) else None
    case Then(Space, rest) => if t != [] && IsSpace(t[0]) then MatchTokens(rest, t[1..]) else None
    case Then(Number, rest) =>
      var n := DigitSpan(t);
      if n == 0 then None
      else
        var more :- MatchTokens(rest, t[n..]);
        Some([t[..n]] + more)
  }

  /** The leftmost position from `i` on where the pattern matches. */
  function MatchStart(p: Pattern, s: string, i: nat): (r: Option<nat>)
    requires i <= |s|
    ensures r.Some? ==> i <= r.value <= |s| && MatchTokens(p, s[r.value..]).Some?
    decreases |s| - i
  {
    if MatchTokens(p, s[i..]).Some? then Some(i)
    else if i == |s| then None
    else MatchStart(p, s, i + 1)
  }

  /** `MatchStart` finds the leftmost match, and finds none only when there
      is none. */
  lemma {:induction false} MatchStartLeftmost(p: Pattern, s: string, i: nat)
    requires i <= |s|
    ensures MatchStart(p, s, i).Some? ==>
              forall k :: i <= k < MatchStart(p, s, i).value ==> MatchTokens(p, s[k..]).None?
    ensures MatchStart(p, s, i).None? ==> forall k :: i <= k <= |s| ==> MatchTokens(p, s[k..]).None?
    decreases |s| - i
  {
    var here := MatchTokens(p, s[i..]);
    if here.None? && i < |s| {
      var r := MatchStart(p, s, i + 1);
      assert MatchStart(p, s, i) == r;
      MatchStartLeftmost(p, s, i + 1);
      var stop := if r.Some? then r.value else |s| + 1;
      forall k | i <= k < stop ensures MatchTokens(p, s[k..]).None? {
        if k == i {
          assert here.None?;
        }
      }
    }
  }

  /** `Claim::new`: the leftmost match of `CLAIM_PATTERN` anywhere in the
      line, each group read as a `usize`. No match, or a number too large for
      `usize`, panics in the source and is `None` here. */
  function ParseClaim(line: string): (r: Option<Claim>)
    ensures (forall k :: 0 <= k <= |line| ==> MatchTokens(ClaimPattern, line[k..]).None?) ==> r.None?
    ensures r.Some? ==> (r.value.id <= USIZE_MAX && r.value.x <= USIZE_MAX && r.value.y <= USIZE_MAX
                         && r.value.width <= USIZE_MAX && r.value.height <= USIZE_MAX)
  {
    var p :- MatchStart(ClaimPattern, line, 0);
    ClaimPatternShape();
    ClaimOf(MatchTokens(ClaimPattern, line[p..]).value)
  }

  /** The five captures read as `usize`s, in the order of `Claim`'s fields. */
  function ClaimOf(caps: seq<string>): (r: Option<Claim>)
    requires |caps| == 5
    ensures r.Some? ==> (r.value.id <= USIZE_MAX && r.value.x <= USIZE_MAX && r.value.y <= USIZE_MAX
                         && r.value.width <= USIZE_MAX && r.value.height <= USIZE_MAX)
  {
    var id :- ParseUnsigned(caps[0], USIZE_MAX);
    var x :- ParseUnsigned(caps[1], USIZE_MAX);
    var y :- ParseUnsigned(caps[2], USIZE_MAX);
    var width :- ParseUnsigned(caps[3], USIZE_MAX);
    var height :- ParseUnsigned(caps[4], USIZE_MAX);
    Some(Claim(id, x, y, width, height))
  }

  lemma ClaimPatternShape()
    ensures Captured(ClaimPattern) == 5 && Separated(ClaimPattern)
  {
  }

  /** The text of a pattern with the given captures: `\s` is written as one
      space. */
  function Render(p: Pattern, caps: seq<string>): string
    requires |caps| == Captured(p)
  {
    match p
    case End => ""
    case Then(Lit(c), rest) => [c] + Render(rest, caps)
    case Then(Space, rest) => " " + Render(rest, caps)
    case Then(Number, rest) => caps[0] + Render(rest, caps[1..])
  }

  /** The puzzle's own spelling of a claim, `#id @ x,y: wxh`. */
  function FormatClaim(c: Claim): string
  {
    ClaimPatternShape();
    Render(ClaimPattern, [Decimal(c.id), Decimal(c.x), Decimal(c.y), Decimal(c.width), Decimal(c.height)])
  }

  /** The spelling written out: `#`, the id, ` @ `, `x`, `,`, `y`, `: `, the
      width, `x` and the height. */
  lemma FormatClaimText(c: Claim)
    ensures FormatClaim(c) == "#" + (Decimal(c.id) + (" @ " + (Decimal(c.x) + ("," + (Decimal(c.y)
                              + (": " + (Decimal(c.width) + ("x" + Decimal(c.height)))))))))
  {
    var caps := [Decimal(c.id), Decimal(c.x), Decimal(c.y), Decimal(c.width), Decimal(c.height)];
    ClaimPatternShape();
    // The pattern token by token from the back, with the text of each tail.
    var t12 := Then(Number, End);
    var t11 := Then(Lit('x'), t12);
    var t10 := Then(Number, t11);
    var t9 := Then(Space, t10);
    var t8 := Then(Lit(':'), t9);
    var t7 := Then(Number, t8);
    var t6 := Then(Lit(','), t7);
    var t5 := Then(Number, t6);
    var t4 := Then(Space, t5);
    var t3 := Then(Lit('@'), t4);
    var t2 := Then(Space, t3);
    var t1 := Then(Number, t2);
    assert ClaimPattern == Then(Lit('#'), t1);
    assert caps[1..][1..] == caps[2..] && caps[2..][1..] == caps[3..] && caps[3..][1..] == [caps[4]];
    assert Render(t12, [caps[4]]) == caps[4];
    assert Render(t11, [caps[4]]) == "x" + caps[4];
    assert Render(t10, caps[3..]) == caps[3] + ("x" + caps[4]);
    var r9 := Render(t9, caps[3..]);
    assert r9 == " " + (caps[3] + ("x" + caps[4]));
    assert Render(t8, caps[3..]) == ":" + r9;
    var r7 := Render(t7, caps[2..]);
    assert r7 == caps[2] + (":" + r9);
    assert Render(t6, caps[2..]) == "," + r7;
    var r5 := Render(t5, caps[1..]);
    assert r5 == caps[1] + ("," + r7);
    assert Render(t4, caps[1..]) == " " + r5;
    var r3 := Render(t3, caps[1..]);
    assert r3 == "@" + (" " + r5);
    assert Render(t2, caps[1..]) == " " + r3;
    var r1 := Render(t1, caps);
    assert r1 == caps[0] + (" " + r3);
    assert Render(ClaimPattern, caps) == "#" + r1;
    assert ": " + (caps[3] + ("x" + caps[4])) == ":" + r9;
    assert " @ " + r5 == " " + r3;
  }

  lemma {:induction false} DigitSpanOf(d: string, rest: string)
    requires AllDigits(d)
    requires rest == [] || !IsDigit(rest[0])
    ensures DigitSpan(d + rest) == |d|
  {
    if d != [] {
      assert (d + rest)[0] == d[0];
      assert (d + rest)[1..] == d[1..] + rest;
      DigitSpanOf(d[1..], rest);
    } else {
      assert d + rest == rest;
    }
  }

  /** A separated pattern matches its own rendering with non-empty digit
      captures, followed by anything that does not start with a digit, and
      gives the captures back. */
  lemma {:induction false} MatchRendered(p: Pattern, caps: seq<string>, rest: string)
    requires Separated(p) && |caps| == Captured(p)
    requires forall k :: 0 <= k < |caps| ==> caps[k] != [] && AllDigits(caps[k])
    requires rest == [] || !IsDigit(rest[0])
    ensures MatchTokens(p, Render(p, caps) + rest) == Some(caps)
  {
    match p
    case End =>
    case Then(Lit(c), tail) =>
      MatchRendered(tail, caps, rest);
      SkipOne(Lit(c), tail, caps, rest);
    case Then(Space, tail) =>
      MatchRendered(tail, caps, rest);
      SkipOne(Space, tail, caps, rest);
    case Then(Number, tail) =>
      var more := caps[1..];
      assert forall k :: 0 <= k < |more| ==> more[k] == caps[k + 1];
      MatchRendered(tail, more, rest);
      RenderNumber(tail, caps, rest);
      NonDigitNext(tail, more, rest);
      NumberThen(tail, caps[0], Render(tail, more) + rest, more);
      assert [caps[0]] + more == caps;
  }

  /** A literal or `\s` step of `MatchRendered`. */
  lemma SkipOne(t: Token, tail: Pattern, caps: seq<string>, rest: string)
    requires !t.Number? && |caps| == Captured(tail)
    requires MatchTokens(tail, Render(tail, caps) + rest) == Some(caps)
    ensures MatchTokens(Then(t, tail), Render(Then(t, tail), caps) + rest) == Some(caps)
  {
    var first := if t.Space? then ' ' else t.c;
    assert Render(Then(t, tail), caps) + rest == [first] + (Render(tail, caps) + rest);
    assert ([first] + (Render(tail, caps) + rest))[1..] == Render(tail, caps) + rest;
  }

  /** The rendering of a leading `\d+` is its capture, then the rest. */
  lemma RenderNumber(tail: Pattern, caps: seq<string>, rest: string)
    requires |caps| == Captured(tail) + 1
    ensures Render(Then(Number, tail), caps) + rest == caps[0] + (Render(tail, caps[1..]) + rest)
  {
  }

  /** `\d+` takes a whole run of digits and leaves the rest to the pattern
      after it. */
  lemma NumberThen(tail: Pattern, digits: string, after: string, more: seq<string>)
    requires digits != [] && AllDigits(digits)
    requires after == [] || !IsDigit(after[0])
    requires MatchTokens(tail, after) == Some(more)
    ensures MatchTokens(Then(Number, tail), digits + after) == Some([digits] + more)
  {
    var t := digits + after;
    DigitSpanOf(digits, after);
    assert t[..|digits|] == digits && t[|digits|..] == after;
  }

  /** In a separated pattern the text after a `\d+` does not start with a
      digit. */
  lemma NonDigitNext(tail: Pattern, caps: seq<string>, rest: string)
    requires Separated(Then(Number, tail)) && |caps| == Captured(tail)
    requires rest == [] || !IsDigit(rest[0])
    ensures var after := Render(tail, caps) + rest; after == [] || !IsDigit(after[0])
  {
    match tail
    case End =>
      assert Render(tail, caps) + rest == rest;
    case Then(Lit(c), more) =>
      assert (Render(tail, caps) + rest)[0] == c;
    case Then(Space, more) =>
      assert (Render(tail, caps) + rest)[0] == ' ';
  }

  /** The pattern is not anchored: a spelled claim is found after any text
      without a `'#'`, and what follows it does not matter as long as it does
      not start with a digit. Every claim whose numbers fit a `usize` reads
      back from its own spelling. */
  lemma ParseFormatted(prefix: string, c: Claim, suffix: string)
    requires '#' !in prefix
    requires suffix == [] || !IsDigit(suffix[0])
    requires c.id <= USIZE_MAX && c.x <= USIZE_MAX && c.y <= USIZE_MAX
    requires c.width <= USIZE_MAX && c.height <= USIZE_MAX
    ensures ParseClaim(prefix + FormatClaim(c) + suffix) == Some(c)
  {
    var s := prefix + FormatClaim(c) + suffix;
    var caps := [Decimal(c.id), Decimal(c.x), Decimal(c.y), Decimal(c.width), Decimal(c.height)];
    FoundAfter(prefix, c, suffix);
    assert ClaimOf(caps) == Some(c) by {
      ParseUnsignedDecimal(c.id, USIZE_MAX);
      ParseUnsignedDecimal(c.x, USIZE_MAX);
      ParseUnsignedDecimal(c.y, USIZE_MAX);
      ParseUnsignedDecimal(c.width, USIZE_MAX);
      ParseUnsignedDecimal(c.height, USIZE_MAX);
    }
  }

  /** The scan of `ParseFormatted` stops right after the prefix, with the
      claim's numbers as the captures. */
  lemma FoundAfter(prefix: string, c: Claim, suffix: string)
    requires '#' !in prefix
    requires suffix == [] || !IsDigit(suffix[0])
    ensures var s := prefix + FormatClaim(c) + suffix;
      MatchStart(ClaimPattern, s, 0) == Some(|prefix|)
      && MatchTokens(ClaimPattern, s[|prefix|..])
         == Some([Decimal(c.id), Decimal(c.x), Decimal(c.y), Decimal(c.width), Decimal(c.height)])
  {
    var s := prefix + FormatClaim(c) + suffix;
    var caps := [Decimal(c.id), Decimal(c.x), Decimal(c.y), Decimal(c.width), Decimal(c.height)];
    ClaimPatternShape();
    forall k | 0 <= k < |prefix| ensures MatchTokens(ClaimPattern, s[k..]).None? {
      assert s[k..][0] == prefix[k];
    }
    assert s[|prefix|..] == Render(ClaimPattern, caps) + suffix;
    MatchRendered(ClaimPattern, caps, suffix);
    NoMatchBefore(s, |prefix|);
  }

  /** No match anywhere before position `j` means the scan reaches `j`. */
  lemma {:induction false} NoMatchBefore(s: string, j: nat)
    requires j <= |s| && MatchTokens(ClaimPattern, s[j..]).Some?
    requires forall k :: 0 <= k < j ==> MatchTokens(ClaimPattern, s[k..]).None?
    ensures MatchStart(ClaimPattern, s, 0) == Some(j)
  {
    var i := j;
    while i > 0
      invariant 0 <= i <= j
      invariant MatchStart(ClaimPattern, s, i) == Some(j)
    {
      i := i - 1;
    }
  }

  /** A line without `'#'` is never a claim. */
  lemma NoHashNoClaim(line: string)
    requires '#' !in line
    ensures ParseClaim(line).None?
  {
    forall k | 0 <= k <= |line| ensures MatchTokens(ClaimPattern, line[k..]).None? {
      if k < |line| {
        assert line[k..][0] == line[k];
      }
    }
  }

  /** The non-empty lines of the input, each read as a claim. */
  function ParseClaims(input: string): Option<seq<Claim>>
  {
    ParseAll(NonEmpty(Lines(input)), ParseClaim)
  }

  // ---------------------------------------------------------------------------
  // Cells
  // ---------------------------------------------------------------------------

  /** A square inch of fabric, `(x, y)`. */
  type Cell = (nat, nat)

  /** Whether the claim's rectangle contains the cell. */
  predicate Covers(c: Claim, cell: Cell)
  {
    c.x <= cell.0 < c.x + c.width && c.y <= cell.1 < c.y + c.height
  }

  /** `for x in x0..(x0 + w)` at row `y`. */
  function Row(x0: nat, w: nat, y: nat): (r: seq<Cell>)
    ensures forall cell :: cell in r <==> cell.1 == y && x0 <= cell.0 < x0 + w
  {
    if w == 0 then [] else Row(x0, w - 1, y) + [(x0 + w - 1, y)]
  }

  /** `for y in y0..(y0 + h)` around the row loop: the cells of a `w` by `h`
      rectangle, row by row. */
  function Rows(x0: nat, w: nat, y0: nat, h: nat): (r: seq<Cell>)
    ensures forall cell :: cell in r <==> y0 <= cell.1 < y0 + h && x0 <= cell.0 < x0 + w
  {
    if h == 0 then [] else Rows(x0, w, y0, h - 1) + Row(x0, w, y0 + h - 1)
  }

  /** The cells of a claim, in the order the loops of `day_3` visit them. */
  function ClaimCells(c: Claim): (r: seq<Cell>)
    ensures forall cell :: cell in r <==> Covers(c, cell)
  {
    Rows(c.x, c.width, c.y, c.height)
  }

  /** A claim of zero width or height covers no cell. */
  lemma EmptyClaim(c: Claim)
    requires c.width == 0 || c.height == 0
    ensures ClaimCells(c) == []
    ensures forall cell :: !Covers(c, cell)
  {
    if c.width == 0 {
      NarrowRows(c.x, c.y, c.height);
    }
  }

  lemma {:induction false} NarrowRows(x0: nat, y0: nat, h: nat)
    ensures Rows(x0, 0, y0, h) == []
  {
    if h > 0 {
      NarrowRows(x0, y0, h - 1);
    }
  }

  // ---------------------------------------------------------------------------
  // Regions: the cells visited so far, grouped by claim
  // ---------------------------------------------------------------------------

  /** The cells visited for one claim, and its id. */
  datatype Region = Region(id: nat, cells: seq<Cell>)

  /** One region per claim, holding all of its cells. */
  function Regions(claims: seq<Claim>): (rs: seq<Region>)
    ensures |rs| == |claims|
    ensures forall a :: 0 <= a < |claims| ==> rs[a] == Region(claims[a].id, ClaimCells(claims[a]))
  {
    if claims == [] then []
    else
      var last := claims[|claims| - 1];
      Regions(claims[..|claims| - 1]) + [Region(last.id, ClaimCells(last))]
  }

  /** The first region holding the cell. */
  function FirstOwner(rs: seq<Region>, cell: Cell): (o: Option<nat>)
    ensures o.Some? ==> o.value < |rs| && cell in rs[o.value].cells
    ensures o.Some? ==> forall b :: 0 <= b < o.value ==> cell !in rs[b].cells
    ensures o.None? ==> forall b :: 0 <= b < |rs| ==> cell !in rs[b].cells
  {
    if rs == [] then None
    else
      var o := FirstOwner(rs[..|rs| - 1], cell);
      if o.Some? then o
      else if cell in rs[|rs| - 1].cells then Some(|rs| - 1)
      else None
  }

  /** How many regions hold the cell. */
  function CoverCount(rs: seq<Region>, cell: Cell): nat
  {
    if rs == [] then 0
    else CoverCount(rs[..|rs| - 1], cell) + (if cell in rs[|rs| - 1].cells then 1 else 0)
  }

  /** `id` belongs to a region with a cell that another region also holds. */
  ghost predicate Contested(rs: seq<Region>, id: nat)
  {
    exists a, cell :: 0 <= a < |rs| && rs[a].id == id && cell in rs[a].cells && CoverCount(rs, cell) >= 2
  }

  /** The state of `day_3` after visiting the regions `rs`, in order:
      `fabric` maps every visited cell to the id of its first visitor,
      `coords` holds the cells visited twice or more, and `ids` the ids of
      every region with such a cell. */
  ghost predicate Resolved(rs: seq<Region>, fabric: map<Cell, nat>, coords: set<Cell>, ids: set<nat>)
  {
    (forall cell :: cell in fabric <==> FirstOwner(rs, cell).Some?)
    && (forall cell :: cell in fabric ==> fabric[cell] == rs[FirstOwner(rs, cell).value].id)
    && (forall cell :: cell in coords <==> CoverCount(rs, cell) >= 2)
    && (forall id :: id in ids <==> Contested(rs, id))
  }

  /** Adding a region after `rs`. */
  lemma Extend(rs: seq<Region>, r: Region, cell: Cell)
    ensures FirstOwner(rs + [r], cell)
      == if FirstOwner(rs, cell).Some? then FirstOwner(rs, cell)
         else if cell in r.cells then Some(|rs|) else None
    ensures CoverCount(rs + [r], cell) == CoverCount(rs, cell) + (if cell in r.cells then 1 else 0)
  {
    assert (rs + [r])[..|rs|] == rs;
  }

  /** A cell held by some region is counted. */
  lemma {:induction false} OwnerCounted(rs: seq<Region>, cell: Cell)
    ensures CoverCount(rs, cell) >= 1 <==> FirstOwner(rs, cell).Some?
  {
    if rs != [] {
      OwnerCounted(rs[..|rs| - 1], cell);
    }
  }

  /** Two different regions holding the cell make it counted twice. */
  lemma {:induction false} TwoOwnersCounted(rs: seq<Region>, cell: Cell, a: nat, b: nat)
    requires a < b < |rs| && cell in rs[a].cells && cell in rs[b].cells
    ensures CoverCount(rs, cell) >= 2
  {
    var init := rs[..|rs| - 1];
    if b < |rs| - 1 {
      TwoOwnersCounted(init, cell, a, b);
    } else {
      assert init[a] == rs[a];
      OwnerCounted(init, cell);
    }
  }

  /** A cell counted twice is held by two different regions. */
  lemma {:induction false} CountedTwiceOwners(rs: seq<Region>, cell: Cell)
    requires CoverCount(rs, cell) >= 2
    ensures exists a, b :: 0 <= a < b < |rs| && cell in rs[a].cells && cell in rs[b].cells
  {
    var init := rs[..|rs| - 1];
    if CoverCount(init, cell) >= 2 {
      CountedTwiceOwners(init, cell);
      var a, b :| 0 <= a < b < |init| && cell in init[a].cells && cell in init[b].cells;
      assert rs[a] == init[a] && rs[b] == init[b];
    } else {
      OwnerCounted(init, cell);
      var a := FirstOwner(init, cell).value;
      assert rs[a] == init[a];
      assert cell in rs[|rs| - 1].cells;
    }
  }

  /** A region held alone by one region has that region as first owner. */
  lemma OnlyOwner(rs: seq<Region>, cell: Cell, a: nat)
    requires a < |rs| && cell in rs[a].cells && CoverCount(rs, cell) < 2
    ensures FirstOwner(rs, cell) == Some(a)
  {
    OwnerCounted(rs, cell);
    var o := FirstOwner(rs, cell).value;
    if o < a {
      TwoOwnersCounted(rs, cell, o, a);
    }
  }

  /** Before the first cell of a claim: an empty region changes nothing. */
  lemma OpenRegion(rs: seq<Region>, id: nat, fabric: map<Cell, nat>, coords: set<Cell>, ids: set<nat>)
    requires Resolved(rs, fabric, coords, ids)
    ensures Resolved(rs + [Region(id, [])], fabric, coords, ids)
  {
    var rs' := rs + [Region(id, [])];
    forall cell ensures FirstOwner(rs', cell) == FirstOwner(rs, cell) && CoverCount(rs', cell) == CoverCount(rs, cell) {
      Extend(rs, Region(id, []), cell);
    }
    forall i ensures Contested(rs', i) <==> Contested(rs, i) {
      if Contested(rs', i) {
        var a, cell :| 0 <= a < |rs'| && rs'[a].id == i && cell in rs'[a].cells && CoverCount(rs', cell) >= 2;
        assert rs[a] == rs'[a];
      }
      if Contested(rs, i) {
        var a, cell :| 0 <= a < |rs| && rs[a].id == i && cell in rs[a].cells && CoverCount(rs, cell) >= 2;
        assert rs[a] == rs'[a];
      }
    }
  }

  /** The last region gains the cell: owners and counts of other cells stay,
      the cell is counted once more and keeps its owner if it had one. */
  lemma GrowOwners(rs: seq<Region>, r: Region, cell: Cell)
    requires cell !in r.cells
    ensures var before, after := rs + [r], rs + [Region(r.id, r.cells + [cell])];
      (forall c :: c != cell ==> FirstOwner(after, c) == FirstOwner(before, c))
      && (forall c :: c != cell ==> CoverCount(after, c) == CoverCount(before, c))
      && FirstOwner(after, cell) == (if FirstOwner(before, cell).Some? then FirstOwner(before, cell) else Some(|rs|))
      && CoverCount(after, cell) == CoverCount(before, cell) + 1
  {
    var r' := Region(r.id, r.cells + [cell]);
    forall c ensures FirstOwner(rs + [r'], c) == (if c == cell && FirstOwner(rs + [r], c).None? then Some(|rs|) else FirstOwner(rs + [r], c))
      ensures CoverCount(rs + [r'], c) == CoverCount(rs + [r], c) + (if c == cell then 1 else 0)
    {
      Extend(rs, r, c);
      Extend(rs, r', c);
    }
  }

  /** The last region gains the cell: the ids contested afterwards are those
      contested before, plus, when somebody held the cell already, the id of
      its first holder and the id of the last region. */
  lemma GrowContested(rs: seq<Region>, r: Region, cell: Cell, i: nat)
    requires cell !in r.cells
    ensures var before, after := rs + [r], rs + [Region(r.id, r.cells + [cell])];
      Contested(after, i) <==>
        Contested(before, i)
        || (FirstOwner(before, cell).Some? && (i == r.id || i == before[FirstOwner(before, cell).value].id))
  {
    var before, after := rs + [r], rs + [Region(r.id, r.cells + [cell])];
    GrowOwners(rs, r, cell);
    OwnerCounted(before, cell);
    assert forall a :: 0 <= a < |rs| ==> after[a] == before[a];
    if Contested(after, i) {
      var a, c :| 0 <= a < |after| && after[a].id == i && c in after[a].cells && CoverCount(after, c) >= 2;
      if c != cell {
        assert c in before[a].cells;
      } else if a < |rs| && CoverCount(before, cell) < 2 {
        OnlyOwner(before, cell, a);
      } else if a < |rs| {
        assert cell in before[a].cells;
      }
    }
    if Contested(before, i) {
      var a, c :| 0 <= a < |before| && before[a].id == i && c in before[a].cells && CoverCount(before, c) >= 2;
      assert c in after[a].cells;
    }
    if FirstOwner(before, cell).Some? {
      var o := FirstOwner(before, cell).value;
      assert cell in after[o].cells && after[o].id == before[o].id;
      assert cell in after[|rs|].cells && after[|rs|].id == r.id;
    }
  }

  /** `or_insert`: a cell nobody holds yet goes to the current claim. */
  lemma VisitFree(rs: seq<Region>, r: Region, cell: Cell,
                  fabric: map<Cell, nat>, coords: set<Cell>, ids: set<nat>)
    requires Resolved(rs + [r], fabric, coords, ids)
    requires cell !in r.cells && cell !in fabric
    ensures Resolved(rs + [Region(r.id, r.cells + [cell])], fabric[cell := r.id], coords, ids)
  {
    var before, after := rs + [r], rs + [Region(r.id, r.cells + [cell])];
    GrowOwners(rs, r, cell);
    OwnerCounted(before, cell);
    forall i ensures Contested(after, i) <==> Contested(before, i) {
      GrowContested(rs, r, cell, i);
    }
  }

  /** `and_modify`: a cell somebody holds is recorded as contested, with the
      ids of its holder and of the current claim. */
  lemma VisitTaken(rs: seq<Region>, r: Region, cell: Cell,
                   fabric: map<Cell, nat>, coords: set<Cell>, ids: set<nat>)
    requires Resolved(rs + [r], fabric, coords, ids)
    requires cell !in r.cells && cell in fabric
    ensures Resolved(rs + [Region(r.id, r.cells + [cell])], fabric, coords + {cell}, ids + {fabric[cell], r.id})
  {
    var before, after := rs + [r], rs + [Region(r.id, r.cells + [cell])];
    GrowOwners(rs, r, cell);
    OwnerCounted(before, cell);
    forall i ensures Contested(after, i) <==> i in ids + {fabric[cell], r.id} {
      GrowContested(rs, r, cell, i);
    }
    assert forall c :: c in fabric ==> FirstOwner(after, c).value < |rs| + 1;
    assert forall a :: 0 <= a < |rs| ==> after[a].id == before[a].id;
  }

  // ---------------------------------------------------------------------------
  // What the pass computes, in terms of the claims
  // ---------------------------------------------------------------------------

  /** Two different claims cover the cell. */
  ghost predicate Overlapped(claims: seq<Claim>, cell: Cell)
  {
    exists a, b :: 0 <= a < b < |claims| && Covers(claims[a], cell) && Covers(claims[b], cell)
  }

  /** The cells covered by two claims or more. */
  ghost function OverlapCells(claims: seq<Claim>): (cells: set<Cell>)
    ensures forall cell :: cell in cells <==> Overlapped(claims, cell)
  {
    var cells := set a, cell | 0 <= a < |claims| && cell in ClaimCells(claims[a]) && Overlapped(claims, cell) :: cell;
    assert forall cell :: Overlapped(claims, cell) ==> cell in cells by {
      forall cell | Overlapped(claims, cell) ensures cell in cells {
        var a, b :| 0 <= a < b < |claims| && Covers(claims[a], cell) && Covers(claims[b], cell);
        assert cell in ClaimCells(claims[a]);
      }
    }
    cells
  }

  /** Claim `a` shares a cell with another claim. */
  ghost predicate ClaimContested(claims: seq<Claim>, a: nat)
    requires a < |claims|
  {
    exists b, cell :: 0 <= b < |claims| && b != a && Covers(claims[a], cell) && Covers(claims[b], cell)
  }

  /** The ids of the claims that share a cell with another claim. */
  ghost function ContestedIds(claims: seq<Claim>): (ids: set<nat>)
    ensures forall i :: i in ids <==> exists a :: 0 <= a < |claims| && claims[a].id == i && ClaimContested(claims, a)
  {
    set a | 0 <= a < |claims| && ClaimContested(claims, a) :: claims[a].id
  }

  /** `claim_ids`: the ids of all claims. */
  function ClaimIds(claims: seq<Claim>): (ids: set<nat>)
    ensures forall i :: i in ids <==> exists a :: 0 <= a < |claims| && claims[a].id == i
  {
    set a | 0 <= a < |claims| :: claims[a].id
  }

  /** A cell has a first owner among the regions exactly when a claim covers it. */
  lemma {:induction false} OwnedCovered(claims: seq<Claim>, cell: Cell)
    ensures FirstOwner(Regions(claims), cell).Some? <==> exists a :: 0 <= a < |claims| && Covers(claims[a], cell)
  {
    var rs := Regions(claims);
    if FirstOwner(rs, cell).Some? {
      var o := FirstOwner(rs, cell).value;
      assert Covers(claims[o], cell);
    }
  }

  /** The first region holding a cell is the first claim covering it. */
  lemma {:induction false} FirstClaimant(claims: seq<Claim>, cell: Cell, a: nat)
    requires a < |claims| && Covers(claims[a], cell)
    requires forall b :: 0 <= b < a ==> !Covers(claims[b], cell)
    ensures FirstOwner(Regions(claims), cell) == Some(a)
  {
    var rs := Regions(claims);
    assert rs[a].cells == ClaimCells(claims[a]);
    forall b | 0 <= b < a ensures cell !in rs[b].cells {
      assert rs[b].cells == ClaimCells(claims[b]);
    }
    FirstOwnerAt(rs, cell, a);
  }

  /** The first region holding a cell is the one with no holder before it. */
  lemma FirstOwnerAt(rs: seq<Region>, cell: Cell, a: nat)
    requires a < |rs| && cell in rs[a].cells
    requires forall b :: 0 <= b < a ==> cell !in rs[b].cells
    ensures FirstOwner(rs, cell) == Some(a)
  {
    var f := FirstOwner(rs, cell);
    assert f.Some?;
  }

  /** A cell is counted twice among the regions exactly when two claims
      cover it. */
  lemma CountedOverlapped(claims: seq<Claim>, cell: Cell)
    ensures CoverCount(Regions(claims), cell) >= 2 <==> Overlapped(claims, cell)
  {
    if CoverCount(Regions(claims), cell) >= 2 {
      CountedTwiceOverlapped(claims, cell);
    }
    if Overlapped(claims, cell) {
      OverlappedCountedTwice(claims, cell);
    }
  }

  lemma CountedTwiceOverlapped(claims: seq<Claim>, cell: Cell)
    requires CoverCount(Regions(claims), cell) >= 2
    ensures Overlapped(claims, cell)
  {
    var rs := Regions(claims);
    CountedTwiceOwners(rs, cell);
    var a, b :| 0 <= a < b < |rs| && cell in rs[a].cells && cell in rs[b].cells;
    assert rs[a].cells == ClaimCells(claims[a]) && rs[b].cells == ClaimCells(claims[b]);
    assert Covers(claims[a], cell) && Covers(claims[b], cell);
  }

  lemma OverlappedCountedTwice(claims: seq<Claim>, cell: Cell)
    requires Overlapped(claims, cell)
    ensures CoverCount(Regions(claims), cell) >= 2
  {
    var rs := Regions(claims);
    var a, b :| 0 <= a < b < |claims| && Covers(claims[a], cell) && Covers(claims[b], cell);
    assert rs[a].cells == ClaimCells(claims[a]) && rs[b].cells == ClaimCells(claims[b]);
    TwoOwnersCounted(rs, cell, a, b);
  }

  /** A contested region belongs to a claim that shares a cell. */
  lemma {:induction false} ContestedRegion(claims: seq<Claim>, i: nat)
    requires Contested(Regions(claims), i)
    ensures i in ContestedIds(claims)
  {
    var rs := Regions(claims);
    var a, cell :| 0 <= a < |rs| && rs[a].id == i && cell in rs[a].cells && CoverCount(rs, cell) >= 2;
    CountedTwiceOwners(rs, cell);
    var a1, b1 :| 0 <= a1 < b1 < |rs| && cell in rs[a1].cells && cell in rs[b1].cells;
    var other := if a1 != a then a1 else b1;
    assert Covers(claims[a], cell) && Covers(claims[other], cell);
    assert ClaimContested(claims, a);
  }

  /** A claim that shares a cell makes its region contested. */
  lemma {:induction false} ContestedClaim(claims: seq<Claim>, i: nat)
    requires i in ContestedIds(claims)
    ensures Contested(Regions(claims), i)
  {
    var rs := Regions(claims);
    var a :| 0 <= a < |claims| && claims[a].id == i && ClaimContested(claims, a);
    var b, cell :| 0 <= b < |claims| && b != a && Covers(claims[a], cell) && Covers(claims[b], cell);
    if a < b {
      TwoOwnersCounted(rs, cell, a, b);
    } else {
      TwoOwnersCounted(rs, cell, b, a);
    }
    assert cell in rs[a].cells && rs[a].id == i;
  }

  /** The state after all regions, told in terms of the claims. */
  lemma {:induction false} ResolvedClaims(claims: seq<Claim>, fabric: map<Cell, nat>, coords: set<Cell>, ids: set<nat>)
    requires Resolved(Regions(claims), fabric, coords, ids)
    ensures forall cell :: cell in fabric <==> exists a :: 0 <= a < |claims| && Covers(claims[a], cell)
    ensures forall cell, a :: 0 <= a < |claims| && Covers(claims[a], cell)
              && (forall b :: 0 <= b < a ==> !Covers(claims[b], cell))
              ==> cell in fabric && fabric[cell] == claims[a].id
    ensures coords == OverlapCells(claims)
    ensures ids == ContestedIds(claims)
  {
    var rs := Regions(claims);
    forall cell ensures cell in fabric <==> exists a :: 0 <= a < |claims| && Covers(claims[a], cell) {
      OwnedCovered(claims, cell);
    }
    forall cell, a | 0 <= a < |claims| && Covers(claims[a], cell) && (forall b :: 0 <= b < a ==> !Covers(claims[b], cell))
      ensures cell in fabric && fabric[cell] == claims[a].id
    {
      FirstClaimant(claims, cell, a);
    }
    forall cell ensures cell in coords <==> cell in OverlapCells(claims) {
      CountedOverlapped(claims, cell);
    }
    forall i ensures i in ids <==> i in ContestedIds(claims) {
      if i in ids {
        ContestedRegion(claims, i);
      }
      if i in ContestedIds(claims) {
        ContestedClaim(claims, i);
      }
    }
  }

  // ---------------------------------------------------------------------------
  // The pass of `day_3`
  // ---------------------------------------------------------------------------

  /** The three collections of `day_3`. */
  datatype Marks = Marks(fabric: map<Cell, nat>, coords: set<Cell>, ids: set<nat>)

  /** The body of the innermost loop of `day_3` for claim `id` at `cell`:
      `or_insert` on a free cell, `and_modify` on a taken one. */
  function Visit(m: Marks, cell: Cell, id: nat): Marks
  {
    if cell in m.fabric then Marks(m.fabric, m.coords + {cell}, m.ids + {m.fabric[cell], id})
    else Marks(m.fabric[cell := id], m.coords, m.ids)
  }

  /** `Visit` at the first `n` cells of row `y` from column `x0`, left to right. */
  function RowMarks(m: Marks, id: nat, x0: nat, n: nat, y: nat): Marks
  {
    if n == 0 then m else Visit(RowMarks(m, id, x0, n - 1, y), (x0 + n - 1, y), id)
  }

  /** `Visit` at the first `h` rows of a `w`-wide rectangle, top to bottom. */
  function RectMarks(m: Marks, id: nat, x0: nat, w: nat, y0: nat, h: nat): Marks
  {
    if h == 0 then m else RowMarks(RectMarks(m, id, x0, w, y0, h - 1), id, x0, w, y0 + h - 1)
  }

  /** `Visit` at every cell of the claims, in the order of the loops of `day_3`. */
  function MarkAll(claims: seq<Claim>): Marks
  {
    if claims == [] then Marks(map[], {}, {})
    else
      var c := claims[|claims| - 1];
      RectMarks(MarkAll(claims[..|claims| - 1]), c.id, c.x, c.width, c.y, c.height)
  }

  lemma RowAppend(cells: seq<Cell>, x0: nat, n: nat, y: nat)
    requires n > 0
    ensures (cells + Row(x0, n - 1, y)) + [(x0 + n - 1, y)] == cells + Row(x0, n, y)
  {
    assert Row(x0, n, y) == Row(x0, n - 1, y) + [(x0 + n - 1, y)];
  }

  /** The collections of the regions so far, `rs`, and of the stretch `cells`
      of the current region with the same `id`. */
  ghost predicate ResolvedWith(rs: seq<Region>, id: nat, cells: seq<Cell>, m: Marks)
  {
    Resolved(rs + [Region(id, cells)], m.fabric, m.coords, m.ids)
  }

  lemma ResolvedSame(rs: seq<Region>, id: nat, cells: seq<Cell>, cells': seq<Cell>, m: Marks, m': Marks)
    requires ResolvedWith(rs, id, cells, m)
    requires cells == cells' && m == m'
    ensures ResolvedWith(rs, id, cells', m')
  {
  }

  /** One visit keeps the invariant of the pass, for a cell the current
      region has not visited yet. */
  lemma VisitResolved(rs: seq<Region>, id: nat, cells: seq<Cell>, m: Marks, cell: Cell)
    requires ResolvedWith(rs, id, cells, m)
    requires cell !in cells
    ensures ResolvedWith(rs, id, cells + [cell], Visit(m, cell, id))
  {
    if cell in m.fabric {
      VisitTaken(rs, Region(id, cells), cell, m.fabric, m.coords, m.ids);
    } else {
      VisitFree(rs, Region(id, cells), cell, m.fabric, m.coords, m.ids);
    }
  }

  /** A row of visits keeps the invariant of the pass, when the current
      region has only visited rows above it. */
  lemma {:induction false} RowResolved(rs: seq<Region>, id: nat, cells: seq<Cell>, m: Marks, x0: nat, n: nat, y: nat)
    requires ResolvedWith(rs, id, cells, m)
    requires forall cell :: cell in cells ==> cell.1 < y
    ensures ResolvedWith(rs, id, cells + Row(x0, n, y), RowMarks(m, id, x0, n, y))
  {
    if n == 0 {
      assert cells + Row(x0, n, y) == cells;
    } else {
      var pre, cell := cells + Row(x0, n - 1, y), (x0 + n - 1, y);
      RowResolved(rs, id, cells, m, x0, n - 1, y);
      assert cell !in pre;
      VisitResolved(rs, id, pre, RowMarks(m, id, x0, n - 1, y), cell);
      RowAppend(cells, x0, n, y);
    }
  }

  /** A rectangle of visits keeps the invariant of the pass, the rectangle
      being one more region. */
  lemma {:induction false} RectResolved(rs: seq<Region>, m: Marks, id: nat, x0: nat, w: nat, y0: nat, h: nat)
    requires Resolved(rs, m.fabric, m.coords, m.ids)
    ensures ResolvedWith(rs, id, Rows(x0, w, y0, h), RectMarks(m, id, x0, w, y0, h))
  {
    if h == 0 {
      OpenRegion(rs, id, m.fabric, m.coords, m.ids);
    } else {
      var above, y := Rows(x0, w, y0, h - 1), y0 + h - 1;
      RectResolved(rs, m, id, x0, w, y0, h - 1);
      assert forall cell :: cell in above ==> cell.1 < y;
      RowResolved(rs, id, above, RectMarks(m, id, x0, w, y0, h - 1), x0, w, y);
      ResolvedSame(rs, id, above + Row(x0, w, y), Rows(x0, w, y0, h),
                   RowMarks(RectMarks(m, id, x0, w, y0, h - 1), id, x0, w, y), RectMarks(m, id, x0, w, y0, h));
    }
  }

  /** The loop nest keeps the invariant of the pass over the regions of the
      claims. */
  lemma {:induction false} MarkAllResolved(claims: seq<Claim>)
    ensures Resolved(Regions(claims), MarkAll(claims).fabric, MarkAll(claims).coords, MarkAll(claims).ids)
  {
    if claims == [] {
      assert forall cell :: FirstOwner([], cell) == None && CoverCount([], cell) == 0;
    } else {
      var init, c := claims[..|claims| - 1], claims[|claims| - 1];
      MarkAllResolved(init);
      RectResolved(Regions(init), MarkAll(init), c.id, c.x, c.width, c.y, c.height);
    }
  }

  /** What the loop nest computes, in terms of the claims: every covered cell
      holds the id of the first claim covering it, `coords` holds exactly the
      cells two claims cover and `ids` the ids of exactly the claims that
      share a cell. */
  lemma MarkAllClaims(claims: seq<Claim>)
    ensures var m := MarkAll(claims);
      && (forall cell :: cell in m.fabric <==> exists a :: 0 <= a < |claims| && Covers(claims[a], cell))
      && (forall cell, a :: 0 <= a < |claims| && Covers(claims[a], cell)
            && (forall b :: 0 <= b < a ==> !Covers(claims[b], cell))
            ==> cell in m.fabric && m.fabric[cell] == claims[a].id)
      && m.coords == OverlapCells(claims)
      && m.ids == ContestedIds(claims)
  {
    MarkAllResolved(claims);
    var m := MarkAll(claims);
    ResolvedClaims(claims, m.fabric, m.coords, m.ids);
  }

  /** The loops of `day_3`: each claim in input order, its rows top to
      bottom, each row left to right, with `Visit` at every cell. */
  method MarkFabric(claims: seq<Claim>) returns (fabric: map<Cell, nat>, coords: set<Cell>, ids: set<nat>)
    ensures Marks(fabric, coords, ids) == MarkAll(claims)
    ensures forall cell :: cell in fabric <==> exists a :: 0 <= a < |claims| && Covers(claims[a], cell)
    ensures forall cell, a :: 0 <= a < |claims| && Covers(claims[a], cell)
              && (forall b :: 0 <= b < a ==> !Covers(claims[b], cell))
              ==> cell in fabric && fabric[cell] == claims[a].id
    ensures coords == OverlapCells(claims)
    ensures ids == ContestedIds(claims)
  {
    fabric, coords, ids := map[], {}, {};
    assert claims[..0] == [];
    var k := 0;
    while k < |claims|
      invariant k <= |claims|
      invariant Marks(fabric, coords, ids) == MarkAll(claims[..k])
    {
      fabric, coords, ids := MarkClaim(fabric, coords, ids, claims[k]);
      assert claims[..k + 1][..k] == claims[..k];
      k := k + 1;
    }
    assert claims[..k] == claims;
    MarkAllClaims(claims);
  }

  /** `for y in claim.y..(claim.y + claim.height)` and the row loop inside it. */
  method MarkClaim(fabric: map<Cell, nat>, coords: set<Cell>, ids: set<nat>, claim: Claim)
    returns (fabric': map<Cell, nat>, coords': set<Cell>, ids': set<nat>)
    ensures Marks(fabric', coords', ids')
         == RectMarks(Marks(fabric, coords, ids), claim.id, claim.x, claim.width, claim.y, claim.height)
  {
    fabric', coords', ids' := fabric, coords, ids;
    ghost var h: nat := 0;
    var y := claim.y;
    while y < claim.y + claim.height
      invariant y == claim.y + h && h <= claim.height
      invariant Marks(fabric', coords', ids')
             == RectMarks(Marks(fabric, coords, ids), claim.id, claim.x, claim.width, claim.y, h)
    {
      fabric', coords', ids' := MarkRow(fabric', coords', ids', claim, y);
      y, h := y + 1, h + 1;
    }
  }

  /** `for x in claim.x..(claim.x + claim.width)`: `or_insert` on a free
      cell, `and_modify` on a taken one. */
  method MarkRow(fabric: map<Cell, nat>, coords: set<Cell>, ids: set<nat>, claim: Claim, y: nat)
    returns (fabric': map<Cell, nat>, coords': set<Cell>, ids': set<nat>)
    ensures Marks(fabric', coords', ids')
         == RowMarks(Marks(fabric, coords, ids), claim.id, claim.x, claim.width, y)
  {
    fabric', coords', ids' := fabric, coords, ids;
    ghost var n: nat := 0;
    var x := claim.x;
    while x < claim.x + claim.width
      invariant x == claim.x + n && n <= claim.width
      invariant Marks(fabric', coords', ids') == RowMarks(Marks(fabric, coords, ids), claim.id, claim.x, n, y)
    {
      if (x, y) in fabric' {
        coords' := coords' + {(x, y)};
        ids' := ids' + {fabric'[(x, y)], claim.id};
      } else {
        fabric' := fabric'[(x, y) := claim.id];
      }
      x, n := x + 1, n + 1;
    }
  }

  /** `ClaimResolution`. */
  datatype Resolution = Resolution(overlaps: nat, nonOverlapping: Option<nat>)

  /** What `day_3` answers for the claims: the number of cells two claims or
      more cover, and the id of some claim that shares no cell with another,
      if there is one. Which one is left open: the source takes the first id
      of a `HashSet` difference. */
  ghost predicate Answers(claims: seq<Claim>, res: Resolution)
  {
    && res.overlaps == |OverlapCells(claims)|
    && (res.nonOverlapping.None? <==> ClaimIds(claims) <= ContestedIds(claims))
    && (res.nonOverlapping.Some? ==>
          res.nonOverlapping.value in ClaimIds(claims)
          && res.nonOverlapping.value !in ContestedIds(claims))
  }

  /** `day_3`. A line that is not a claim panics in the source and gives
      `None`. */
  method Resolve(input: string) returns (r: Option<Resolution>)
    ensures r.None? <==> ParseClaims(input).None?
    ensures r.Some? ==> Answers(ParseClaims(input).value, r.value)
  {
    var parsed := ParseClaims(input);
    if parsed.None? {
      return None;
    }
    var claims := parsed.value;
    var claimIds := ClaimIds(claims);
    var fabric, coords, ids := MarkFabric(claims);
    var free := claimIds - ids;
    if free == {} {
      assert claimIds <= ids by {
        forall i | i in claimIds ensures i in ids {
          assert i !in free;
        }
      }
      return Some(Resolution(|coords|, None));
    }
    var id :| id in free;
    assert id in claimIds && id !in ids;
    return Some(Resolution(|coords|, Some(id)));
  }

  // ---------------------------------------------------------------------------
  // The example of the test module: three claims, four shared cells, and
  // claim 3 alone
  // ---------------------------------------------------------------------------

  const ExampleClaims := [Claim(1, 1, 3, 4, 4), Claim(2, 3, 1, 4, 4), Claim(3, 5, 5, 2, 2)]

  const ExampleLines := ["#1 @ 1,3: 4x4", "#2 @ 3,1: 4x4", "#3 @ 5,5: 2x2"]

  lemma ExampleParse()
    ensures ParseClaims(JoinLines(ExampleLines)) == Some(ExampleClaims)
  {
    ExampleSplit();
    ExampleParseAll();
  }

  lemma ExampleSplit()
    ensures NonEmpty(Lines(JoinLines(ExampleLines))) == ExampleLines
  {
    var ls := ExampleLines;
    assert PlainLine(ls[0]) && PlainLine(ls[1]) && PlainLine(ls[2]);
    LinesOfJoinLines(ls);
    NonEmptyKeepsAll(ls);
  }

  lemma ExampleParseAll()
    ensures ParseAll(ExampleLines, ParseClaim) == Some(ExampleClaims)
  {
    var ls := ExampleLines;
    forall k | 0 <= k < |ls| ensures ParseClaim(ls[k]) == Some(ExampleClaims[k]) {
      if k == 0 {
        ExampleLine1();
      } else if k == 1 {
        ExampleLine2();
      } else {
        ExampleLine3();
      }
    }
    ParseAllOf(ls, ParseClaim, ExampleClaims);
  }

  /** A line that spells a claim with small numbers reads back as it. */
  lemma SmallClaimLine(c: Claim, l: string)
    requires c.id < 10 && c.x < 10 && c.y < 10 && c.width < 10 && c.height < 10
    requires l == ['#', DigitChar(c.id), ' ', '@', ' ', DigitChar(c.x), ',', DigitChar(c.y), ':', ' ',
                   DigitChar(c.width), 'x', DigitChar(c.height)]
    ensures ParseClaim(l) == Some(c)
  {
    SmallClaimText(c, l);
    ParseFormatted("", c, "");
    assert "" + l + "" == l;
  }

  lemma SmallClaimText(c: Claim, l: string)
    requires c.id < 10 && c.x < 10 && c.y < 10 && c.width < 10 && c.height < 10
    requires l == ['#', DigitChar(c.id), ' ', '@', ' ', DigitChar(c.x), ',', DigitChar(c.y), ':', ' ',
                   DigitChar(c.width), 'x', DigitChar(c.height)]
    ensures FormatClaim(c) == l
  {
    FormatClaimText(c);
    var tail := ": " + ([DigitChar(c.width)] + ("x" + [DigitChar(c.height)]));
    assert tail == l[8..];
    assert "," + ([DigitChar(c.y)] + tail) == l[6..];
    assert " @ " + ([DigitChar(c.x)] + l[6..]) == l[2..];
  }

  lemma ExampleLine1()
    ensures ParseClaim("#1 @ 1,3: 4x4") == Some(Claim(1, 1, 3, 4, 4))
  {
    SmallClaimLine(Claim(1, 1, 3, 4, 4), "#1 @ 1,3: 4x4");
  }

  lemma ExampleLine2()
    ensures ParseClaim("#2 @ 3,1: 4x4") == Some(Claim(2, 3, 1, 4, 4))
  {
    SmallClaimLine(Claim(2, 3, 1, 4, 4), "#2 @ 3,1: 4x4");
  }

  lemma ExampleLine3()
    ensures ParseClaim("#3 @ 5,5: 2x2") == Some(Claim(3, 5, 5, 2, 2))
  {
    SmallClaimLine(Claim(3, 5, 5, 2, 2), "#3 @ 5,5: 2x2");
  }

  /** The four cells that claims 1 and 2 share. */
  lemma ExampleOverlaps(cs: seq<Claim>)
    requires |cs| == 3 && cs[0] == Claim(1, 1, 3, 4, 4) && cs[1] == Claim(2, 3, 1, 4, 4) && cs[2] == Claim(3, 5, 5, 2, 2)
    ensures OverlapCells(cs) == {(3, 3), (4, 3), (3, 4), (4, 4)}
  {
    var shared: set<Cell> := {(3, 3), (4, 3), (3, 4), (4, 4)};
    forall cell ensures Overlapped(cs, cell) <==> cell in shared {
      if cell in shared {
        assert Covers(cs[0], cell) && Covers(cs[1], cell);
      }
      if Overlapped(cs, cell) {
        var a, b :| 0 <= a < b < |cs| && Covers(cs[a], cell) && Covers(cs[b], cell);
        assert a == 0 && b == 1;
      }
    }
  }

  /** Claims 1 and 2 share a cell; claim 3 shares none. */
  lemma ExampleContested(cs: seq<Claim>)
    requires |cs| == 3 && cs[0] == Claim(1, 1, 3, 4, 4) && cs[1] == Claim(2, 3, 1, 4, 4) && cs[2] == Claim(3, 5, 5, 2, 2)
    ensures ContestedIds(cs) == {1, 2}
    ensures ClaimIds(cs) == {1, 2, 3}
  {
    assert ClaimContested(cs, 0) by {
      assert Covers(cs[0], (3, 3)) && Covers(cs[1], (3, 3));
    }
    assert ClaimContested(cs, 1) by {
      assert Covers(cs[0], (3, 3)) && Covers(cs[1], (3, 3));
    }
    assert !ClaimContested(cs, 2);
    forall i ensures i in ContestedIds(cs) <==> i in {1, 2} {
      if i in ContestedIds(cs) {
        var a :| 0 <= a < |cs| && cs[a].id == i && ClaimContested(cs, a);
      }
    }
    forall i ensures i in ClaimIds(cs) <==> i in {1, 2, 3} {
      if i in {1, 2, 3} {
        assert cs[i - 1].id == i;
      }
    }
  }

  /** Four shared cells, and claim 3 is the only claim that shares none. */
  lemma ExampleAnswers(cs: seq<Claim>)
    requires |cs| == 3 && cs[0] == Claim(1, 1, 3, 4, 4) && cs[1] == Claim(2, 3, 1, 4, 4) && cs[2] == Claim(3, 5, 5, 2, 2)
    ensures |OverlapCells(cs)| == 4
    ensures forall i :: i in ClaimIds(cs) && i !in ContestedIds(cs) <==> i == 3
  {
    ExampleOverlaps(cs);
    ExampleContested(cs);
    CountShared(OverlapCells(cs));
    OnlyThreeFree(ClaimIds(cs), ContestedIds(cs));
  }

  lemma CountShared(cells: set<Cell>)
    requires cells == {(3, 3), (4, 3), (3, 4), (4, 4)}
    ensures |cells| == 4
  {
  }

  lemma OnlyThreeFree(all: set<nat>, shared: set<nat>)
    requires all == {1, 2, 3} && shared == {1, 2}
    ensures forall i :: i in all && i !in shared <==> i == 3
  {
  }

  /** The only answer for claims with four shared cells and claim 3 alone. */
  lemma ExampleResolution(claims: seq<Claim>, res: Resolution)
    requires |OverlapCells(claims)| == 4
    requires forall i :: i in ClaimIds(claims) && i !in ContestedIds(claims) <==> i == 3
    requires Answers(claims, res)
    ensures res == Resolution(4, Some(3))
  {
    assert 3 in ClaimIds(claims) && 3 !in ContestedIds(claims);
  }

  /** `day_3` on the example: four shared cells, and claim 3. */
  method ResolveExample() returns (r: Option<Resolution>)
    ensures r == Some(Resolution(4, Some(3)))
  {
    ExampleParse();
    ExampleAnswers(ExampleClaims);
    r := Resolve(JoinLines(ExampleLines));
    ExampleResolution(ExampleClaims, r.value);
  }
}
