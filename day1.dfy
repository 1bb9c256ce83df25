/** Day 1, frequency drift (rust/day-1/src/lib.rs): the input is a list of
    signed frequency changes, one per line. Part 1 is their sum; part 2 walks
    the list over and over from frequency 0 and stops at the first running
    total that was already seen. */
module Frequency {
  import opened Wrappers
  import opened Text

  /** `str::parse::<i32>`. */
  function ParseI32(s: string): Option<int>
  {
    ParseSigned(s, I32_MIN, I32_MAX)
  }

  /** `day_1_parse`: the non-empty lines, each read as an `i32`. */
  function ParseChanges(input: string): (r: Option<seq<int>>)
    ensures r.Some? ==> |r.value| == |NonEmpty(Lines(input))|
    ensures r.Some? ==> forall k :: 0 <= k < |r.value| ==> ParseI32(NonEmpty(Lines(input))[k]) == Some(r.value[k])
    ensures r.None? <==> exists l :: l in NonEmpty(Lines(input)) && ParseI32(l).None?
  {
    ParseAll(NonEmpty(Lines(input)), ParseI32)
  }

  /** The left fold `fold(0, |acc, x| x + acc)`. */
  function Sum(xs: seq<int>): int
  {
    if xs == [] then 0 else Sum(xs[..|xs| - 1]) + xs[|xs| - 1]
  }

  /** `day_1_part_1`: the resulting frequency, or `None` when a line does not parse. */
  function FinalFrequency(input: string): (r: Option<int>)
    ensures r.Some? <==> ParseChanges(input).Some?
  {
    match ParseChanges(input)
    case None => None
    case Some(xs) => Some(Sum(xs))
  }

  // ---------------------------------------------------------------------------
  // Running totals over the cycled list
  // ---------------------------------------------------------------------------

  /** The frequency after applying the first `k` changes of the endlessly
      repeated list. */
  function Total(xs: seq<int>, k: nat): int
    requires |xs| > 0 || k == 0
  {
    if k == 0 then 0 else Total(xs, k - 1) + Change(xs, k - 1)
  }

  /** The `k`-th change (counting from 0) of the endlessly repeated list. */
  function Change(xs: seq<int>, k: nat): int
    requires |xs| > 0
  {
    if k < |xs| then xs[k] else Change(xs, k - |xs|)
  }

  /** In pass `p` over the list, step `pos` applies `xs[pos]`. */
  lemma {:induction false} ChangeInPass(xs: seq<int>, p: nat, pos: nat)
    requires pos < |xs|
    ensures Change(xs, p * |xs| + pos) == xs[pos]
  {
    if p > 0 {
      assert p * |xs| + pos - |xs| == (p - 1) * |xs| + pos;
      ChangeInPass(xs, p - 1, pos);
    }
  }

  /** The frequencies `Total(xs, 0)` .. `Total(xs, k - 1)`, in order. */
  function Totals(xs: seq<int>, k: nat): (ts: seq<int>)
    requires |xs| > 0 || k == 0
    ensures |ts| == k && forall j :: 0 <= j < k ==> ts[j] == Total(xs, j)
  {
    if k == 0 then [] else Totals(xs, k - 1) + [Total(xs, k - 1)]
  }

  /** The `k`-th running total equals an earlier one. */
  predicate RepeatsAt(xs: seq<int>, k: nat)
  {
    |xs| > 0 && Total(xs, k) in Totals(xs, k)
  }

  /** No running total among the first `k` repeats an earlier one. */
  predicate NoRepeatBefore(xs: seq<int>, k: nat)
  {
    k == 0 || (NoRepeatBefore(xs, k - 1) && !RepeatsAt(xs, k - 1))
  }

  /** `k` is the first step whose total was seen before. */
  predicate IsFirstRepeat(xs: seq<int>, k: nat)
  {
    RepeatsAt(xs, k) && NoRepeatBefore(xs, k)
  }

  lemma RepeatsAtMeaning(xs: seq<int>, k: nat)
    requires |xs| > 0
    ensures RepeatsAt(xs, k) <==> exists j :: 0 <= j < k && Total(xs, j) == Total(xs, k)
  {
    var ts := Totals(xs, k);
    if RepeatsAt(xs, k) {
      var j :| 0 <= j < k && ts[j] == Total(xs, k);
      assert Total(xs, j) == Total(xs, k);
    }
    if exists j :: 0 <= j < k && Total(xs, j) == Total(xs, k) {
      var j :| 0 <= j < k && Total(xs, j) == Total(xs, k);
      assert ts[j] == Total(xs, k);
    }
  }

  lemma {:induction false} NoRepeatBeforeMeaning(xs: seq<int>, k: nat)
    ensures NoRepeatBefore(xs, k) <==> forall j :: 0 <= j < k ==> !RepeatsAt(xs, j)
  {
    if k > 0 {
      NoRepeatBeforeMeaning(xs, k - 1);
    }
  }

  /** There is only one first repeat. */
  lemma FirstRepeatUnique(xs: seq<int>, k: nat, k': nat)
    requires IsFirstRepeat(xs, k) && IsFirstRepeat(xs, k')
    ensures k == k'
  {
    NoRepeatBeforeMeaning(xs, k);
    NoRepeatBeforeMeaning(xs, k');
  }

  /** Whenever some step repeats, a first repeat exists, no later than it. */
  lemma {:induction false} FirstRepeatExists(xs: seq<int>, k: nat)
    requires RepeatsAt(xs, k)
    ensures exists f: nat :: f <= k && IsFirstRepeat(xs, f)
  {
    if NoRepeatBefore(xs, k) {
      assert IsFirstRepeat(xs, k);
    } else {
      NoRepeatBeforeMeaning(xs, k);
      var j :| 0 <= j < k && RepeatsAt(xs, j);
      FirstRepeatExists(xs, j);
    }
  }

  /** Within one pass the running total is the sum of a prefix. */
  lemma {:induction false} TotalOfPrefix(xs: seq<int>, k: nat)
    requires 0 < k <= |xs|
    ensures Total(xs, k) == Sum(xs[..k])
  {
    assert xs[..k][..k - 1] == xs[..k - 1];
    assert Change(xs, k - 1) == xs[k - 1];
    if k > 1 {
      TotalOfPrefix(xs, k - 1);
    }
  }

  /** Part 1 answers the frequency reached after one pass over the list, the
      running total part 2 reaches at step `|xs|`. */
  lemma FinalFrequencyIsOnePass(input: string)
    requires ParseChanges(input).Some?
    ensures FinalFrequency(input) == Some(Total(ParseChanges(input).value, |ParseChanges(input).value|))
  {
    var xs := ParseChanges(input).value;
    if xs != [] {
      assert xs[..|xs|] == xs;
      TotalOfPrefix(xs, |xs|);
    }
  }

  /** After a whole pass the frequency has moved by the part 1 answer. */
  lemma {:induction false} TotalPeriodic(xs: seq<int>, k: nat)
    requires |xs| > 0
    ensures Total(xs, k + |xs|) == Total(xs, k) + Sum(xs)
  {
    if k == 0 {
      assert xs[..|xs|] == xs;
      TotalOfPrefix(xs, |xs|);
    } else {
      TotalPeriodic(xs, k - 1);
    }
  }

  /** When the changes cancel out, the search ends by the end of the first
      pass: the total after one pass is 0 again. */
  lemma ZeroDriftRepeats(xs: seq<int>)
    requires |xs| > 0 && Sum(xs) == 0
    ensures RepeatsAt(xs, |xs|)
    ensures exists f: nat :: f <= |xs| && IsFirstRepeat(xs, f)
  {
    TotalPeriodic(xs, 0);
    var ts := Totals(xs, |xs|);
    assert ts[0] == Total(xs, 0) == Total(xs, |xs|);
    FirstRepeatExists(xs, |xs|);
  }

  // ---------------------------------------------------------------------------
  // Part 2
  // ---------------------------------------------------------------------------

  datatype Repeat =
    | Repeated(frequency: int)
    | BadInput      // a line did not parse (the `expect` in `day_1_parse`)
    | EmptyCycle    // no changes at all: the loop never runs (`unreachable!`)
    | OutOfFuel     // no repeat within the first `fuel` steps

  /** The loop of `day_1_part_2` over the parsed changes, run for at most
      `fuel` steps of the cycled list: `seen` holds exactly the totals produced
      so far, and the first total already in `seen` is the answer. */
  method FirstRepeat(xs: seq<int>, fuel: nat) returns (r: Repeat)
    ensures r != BadInput
    ensures r == EmptyCycle <==> xs == []
    ensures r.Repeated? ==> exists k :: 0 <= k < fuel && IsFirstRepeat(xs, k) && r.frequency == Total(xs, k)
    ensures r.OutOfFuel? ==> |xs| > 0 && forall k :: 0 <= k < fuel ==> !RepeatsAt(xs, k)
  {
    if |xs| == 0 {
      return EmptyCycle;
    }
    var seen: set<int> := {};
    var acc := 0;
    var i := 0;
    var pos := 0;            // where the cycling iterator stands in `xs`
    ghost var pass := 0;     // how many times it has restarted
    while i < fuel
      invariant 0 <= i <= fuel
      invariant pos < |xs| && i == pass * |xs| + pos
      invariant seen == set j | 0 <= j < i :: Total(xs, j)
      invariant acc == Total(xs, i)
      invariant NoRepeatBefore(xs, i)
    {
      RepeatsAtMeaning(xs, i);
      if acc in seen {
        assert IsFirstRepeat(xs, i);
        return Repeated(acc);
      }
      assert (set j | 0 <= j < i + 1 :: Total(xs, j)) == seen + {acc};
      seen := seen + {acc};
      ChangeInPass(xs, pass, pos);
      acc := acc + xs[pos];
      i := i + 1;
      pos := pos + 1;
      if pos == |xs| {
        assert i == (pass + 1) * |xs|;
        pos, pass := 0, pass + 1;
      }
    }
    NoRepeatBeforeMeaning(xs, fuel);
    return OutOfFuel;
  }

  /** `day_1_part_2` on the puzzle text, with at most `fuel` steps. */
  method FirstRepeatedFrequency(input: string, fuel: nat) returns (r: Repeat)
    ensures r == BadInput <==> ParseChanges(input).None?
    ensures r == EmptyCycle <==> ParseChanges(input) == Some([])
    ensures r.Repeated? ==>
      var xs := ParseChanges(input).value;
      exists k :: 0 <= k < fuel && IsFirstRepeat(xs, k) && r.frequency == Total(xs, k)
    ensures r.OutOfFuel? ==>
      var xs := ParseChanges(input).value;
      |xs| > 0 && forall k :: 0 <= k < fuel ==> !RepeatsAt(xs, k)
  {
    var parsed := ParseChanges(input);
    if parsed.None? {
      return BadInput;
    }
    r := FirstRepeat(parsed.value, fuel);
  }

  // ---------------------------------------------------------------------------
  // The puzzle's own spelling of a list of changes
  // ---------------------------------------------------------------------------

  /** A change as the puzzle writes it: always with a sign. */
  function Spell(n: int): (s: string)
    ensures |s| > 0 && s[0] in "+-" && AllDigits(s[1..])
  {
    if n < 0 then "-" + Decimal(-n) else "+" + Decimal(n)
  }

  /** One spelled change per line. */
  function SpellAll(xs: seq<int>): (ls: seq<string>)
    ensures |ls| == |xs| && forall k :: 0 <= k < |xs| ==> ls[k] == Spell(xs[k])
  {
    if xs == [] then [] else [Spell(xs[0])] + SpellAll(xs[1..])
  }

  /** A spelled change is a plain line that reads back as the change. */
  lemma SpelledLine(n: int)
    requires I32_MIN <= n <= I32_MAX
    ensures PlainLine(Spell(n)) && ParseI32(Spell(n)) == Some(n)
  {
    var l := Spell(n);
    forall i | 0 <= i < |l| ensures l[i] != '\n' && l[i] != '\r' {
      if i > 0 {
        assert l[i] == l[1..][i - 1];
      }
    }
    ParseSignedRoundTrip(n, I32_MIN, I32_MAX);
  }

  lemma ParseAllOfSpelled(xs: seq<int>)
    requires forall k :: 0 <= k < |xs| ==> I32_MIN <= xs[k] <= I32_MAX
    ensures ParseAll(SpellAll(xs), ParseI32) == Some(xs)
  {
    var ls := SpellAll(xs);
    forall k | 0 <= k < |ls| ensures ParseI32(ls[k]) == Some(xs[k]) {
      SpelledLine(xs[k]);
    }
    var r := ParseAll(ls, ParseI32);
    assert r.value == xs;
  }

  /** Parsing the spelled list (without a final newline) gives the list back. */
  lemma ParseChangesOfSpelled(xs: seq<int>)
    requires forall k :: 0 <= k < |xs| ==> I32_MIN <= xs[k] <= I32_MAX
    ensures ParseChanges(JoinLines(SpellAll(xs))) == Some(xs)
  {
    var ls := SpellAll(xs);
    forall k | 0 <= k < |ls| ensures PlainLine(ls[k]) && ls[k] != "" {
      SpelledLine(xs[k]);
    }
    LinesOfJoinLines(ls);
    NonEmptyKeepsAll(ls);
    ParseAllOfSpelled(xs);
  }

  // ---------------------------------------------------------------------------
  // The examples of the test module (part 1: 3, 3, 0, -6; part 2: 2, 0, 10, 5, 14)
  // ---------------------------------------------------------------------------

  // Each test text, such as "+1\n-2\n+3\n+1", is written as the `JoinLines` of
  // its lines.

  lemma Example1()
    ensures ParseChanges(JoinLines(["+1", "-2", "+3", "+1"])) == Some([1, -2, 3, 1])
    ensures FinalFrequency(JoinLines(["+1", "-2", "+3", "+1"])) == Some(3)
  {
    var xs := [1, -2, 3, 1];
    assert SpellAll(xs) == ["+1", "-2", "+3", "+1"] by {
      forall k | 0 <= k < |xs| ensures SpellAll(xs)[k] == ["+1", "-2", "+3", "+1"][k] {
        if k == 0 { assert Spell(1) == "+1"; } else if k == 1 { assert Spell(-2) == "-2"; } else if k == 2 { assert Spell(3) == "+3"; } else { assert Spell(1) == "+1"; }
      }
    }
    ParseChangesOfSpelled(xs);
    assert Sum(xs) == 3 by {
      assert [1, -2, 3, 1][..3] == [1, -2, 3];
      assert [1, -2, 3][..2] == [1, -2];
      assert [1, -2][..1] == [1];
    }
  }

  lemma Example2()
    ensures ParseChanges(JoinLines(["+1", "+1", "+1"])) == Some([1, 1, 1])
    ensures FinalFrequency(JoinLines(["+1", "+1", "+1"])) == Some(3)
  {
    var xs := [1, 1, 1];
    assert SpellAll(xs) == ["+1", "+1", "+1"] by {
      forall k | 0 <= k < |xs| ensures SpellAll(xs)[k] == ["+1", "+1", "+1"][k] {
        if k == 0 { assert Spell(1) == "+1"; } else if k == 1 { assert Spell(1) == "+1"; } else { assert Spell(1) == "+1"; }
      }
    }
    ParseChangesOfSpelled(xs);
    assert Sum(xs) == 3 by {
      assert [1, 1, 1][..2] == [1, 1];
      assert [1, 1][..1] == [1];
    }
  }

  lemma Example3()
    ensures ParseChanges(JoinLines(["+1", "+1", "-2"])) == Some([1, 1, -2])
    ensures FinalFrequency(JoinLines(["+1", "+1", "-2"])) == Some(0)
  {
    var xs := [1, 1, -2];
    assert SpellAll(xs) == ["+1", "+1", "-2"] by {
      forall k | 0 <= k < |xs| ensures SpellAll(xs)[k] == ["+1", "+1", "-2"][k] {
        if k == 0 { assert Spell(1) == "+1"; } else if k == 1 { assert Spell(1) == "+1"; } else { assert Spell(-2) == "-2"; }
      }
    }
    ParseChangesOfSpelled(xs);
    assert Sum(xs) == 0 by {
      assert [1, 1, -2][..2] == [1, 1];
      assert [1, 1][..1] == [1];
    }
  }

  lemma Example4()
    ensures ParseChanges(JoinLines(["-1", "-2", "-3"])) == Some([-1, -2, -3])
    ensures FinalFrequency(JoinLines(["-1", "-2", "-3"])) == Some(-6)
  {
    var xs := [-1, -2, -3];
    assert SpellAll(xs) == ["-1", "-2", "-3"] by {
      forall k | 0 <= k < |xs| ensures SpellAll(xs)[k] == ["-1", "-2", "-3"][k] {
        if k == 0 { assert Spell(-1) == "-1"; } else if k == 1 { assert Spell(-2) == "-2"; } else { assert Spell(-3) == "-3"; }
      }
    }
    ParseChangesOfSpelled(xs);
    assert Sum(xs) == -6 by {
      assert [-1, -2, -3][..2] == [-1, -2];
      assert [-1, -2][..1] == [-1];
    }
  }

  lemma Example5()
    ensures ParseChanges(JoinLines(["+1", "-1"])) == Some([1, -1])
  {
    var xs := [1, -1];
    assert SpellAll(xs) == ["+1", "-1"] by {
      forall k | 0 <= k < |xs| ensures SpellAll(xs)[k] == ["+1", "-1"][k] {
        if k == 0 { assert Spell(1) == "+1"; } else { assert Spell(-1) == "-1"; }
      }
    }
    ParseChangesOfSpelled(xs);
  }

  lemma Example6()
    ensures ParseChanges(JoinLines(["+3", "+3", "+4", "-2", "-4"])) == Some([3, 3, 4, -2, -4])
  {
    var xs := [3, 3, 4, -2, -4];
    assert SpellAll(xs) == ["+3", "+3", "+4", "-2", "-4"] by {
      forall k | 0 <= k < |xs| ensures SpellAll(xs)[k] == ["+3", "+3", "+4", "-2", "-4"][k] {
        if k == 0 { assert Spell(3) == "+3"; } else if k == 1 { assert Spell(3) == "+3"; } else if k == 2 { assert Spell(4) == "+4"; } else if k == 3 { assert Spell(-2) == "-2"; } else { assert Spell(-4) == "-4"; }
      }
    }
    ParseChangesOfSpelled(xs);
  }

  lemma Example7()
    ensures ParseChanges(JoinLines(["-6", "+3", "+8", "+5", "-6"])) == Some([-6, 3, 8, 5, -6])
  {
    var xs := [-6, 3, 8, 5, -6];
    assert SpellAll(xs) == ["-6", "+3", "+8", "+5", "-6"] by {
      forall k | 0 <= k < |xs| ensures SpellAll(xs)[k] == ["-6", "+3", "+8", "+5", "-6"][k] {
        if k == 0 { assert Spell(-6) == "-6"; } else if k == 1 { assert Spell(3) == "+3"; } else if k == 2 { assert Spell(8) == "+8"; } else if k == 3 { assert Spell(5) == "+5"; } else { assert Spell(-6) == "-6"; }
      }
    }
    ParseChangesOfSpelled(xs);
  }

  lemma Example8()
    ensures ParseChanges(JoinLines(["+7", "+7", "-2", "-7", "-4"])) == Some([7, 7, -2, -7, -4])
  {
    var xs := [7, 7, -2, -7, -4];
    assert SpellAll(xs) == ["+7", "+7", "-2", "-7", "-4"] by {
      forall k | 0 <= k < |xs| ensures SpellAll(xs)[k] == ["+7", "+7", "-2", "-7", "-4"][k] {
        if k == 0 { assert Spell(7) == "+7"; } else if k == 1 { assert Spell(7) == "+7"; } else if k == 2 { assert Spell(-2) == "-2"; } else if k == 3 { assert Spell(-7) == "-7"; } else { assert Spell(-4) == "-4"; }
      }
    }
    ParseChangesOfSpelled(xs);
  }

  lemma RepeatExample1()
    ensures IsFirstRepeat([1, -2, 3, 1], 6) && Total([1, -2, 3, 1], 6) == 2
  {
    var xs := [1, -2, 3, 1];
    assert NoRepeatBefore(xs, 2);
    assert NoRepeatBefore(xs, 4);
    assert NoRepeatBefore(xs, 6);
  }

  lemma RepeatExample2()
    ensures IsFirstRepeat([1, -1], 2) && Total([1, -1], 2) == 0
  {
    var xs := [1, -1];
    assert NoRepeatBefore(xs, 2);
  }

  lemma RepeatExample3()
    ensures IsFirstRepeat([3, 3, 4, -2, -4], 7) && Total([3, 3, 4, -2, -4], 7) == 10
  {
    var xs := [3, 3, 4, -2, -4];
    assert NoRepeatBefore(xs, 2);
    assert NoRepeatBefore(xs, 4);
    assert NoRepeatBefore(xs, 6);
  }

  lemma RepeatExample4Start()
    ensures NoRepeatBefore([-6, 3, 8, 5, -6], 6) && Total([-6, 3, 8, 5, -6], 5) == 4
  {
    var xs := [-6, 3, 8, 5, -6];
    assert NoRepeatBefore(xs, 2);
    assert NoRepeatBefore(xs, 4);
  }

  lemma RepeatExample4()
    ensures IsFirstRepeat([-6, 3, 8, 5, -6], 12) && Total([-6, 3, 8, 5, -6], 12) == 5
  {
    var xs := [-6, 3, 8, 5, -6];
    RepeatExample4Start();
    assert Total(xs, 10) == 8;
    assert NoRepeatBefore(xs, 8);
    assert NoRepeatBefore(xs, 10);
    assert NoRepeatBefore(xs, 12);
  }

  lemma RepeatExample5Start()
    ensures NoRepeatBefore([7, 7, -2, -7, -4], 6) && Total([7, 7, -2, -7, -4], 5) == 1
  {
    var xs := [7, 7, -2, -7, -4];
    assert NoRepeatBefore(xs, 2);
    assert NoRepeatBefore(xs, 4);
  }

  lemma RepeatExample5()
    ensures IsFirstRepeat([7, 7, -2, -7, -4], 13) && Total([7, 7, -2, -7, -4], 13) == 14
  {
    var xs := [7, 7, -2, -7, -4];
    RepeatExample5Start();
    assert Total(xs, 10) == 2;
    assert NoRepeatBefore(xs, 8);
    assert NoRepeatBefore(xs, 10);
    assert NoRepeatBefore(xs, 12);
  }

  /** With more fuel than the step of the first repeat, part 2 answers the
      running total at that step. */
  method AnswerAtFirstRepeat(input: string, fuel: nat, k: nat) returns (r: Repeat)
    requires ParseChanges(input).Some? && IsFirstRepeat(ParseChanges(input).value, k) && k < fuel
    ensures r == Repeated(Total(ParseChanges(input).value, k))
  {
    var xs := ParseChanges(input).value;
    r := FirstRepeatedFrequency(input, fuel);
    assert !r.OutOfFuel?;
    var f :| 0 <= f < fuel && IsFirstRepeat(xs, f) && r.frequency == Total(xs, f);
    FirstRepeatUnique(xs, f, k);
  }

  /** The five examples of part 2, each with fuel to spare. */
  method FirstRepeatedFrequencyExample()
  {
    Example1();
    RepeatExample1();
    var r1 := AnswerAtFirstRepeat(JoinLines(["+1", "-2", "+3", "+1"]), 20, 6);
    assert r1 == Repeated(2);
    Example5();
    RepeatExample2();
    var r2 := AnswerAtFirstRepeat(JoinLines(["+1", "-1"]), 20, 2);
    assert r2 == Repeated(0);
    Example6();
    RepeatExample3();
    var r3 := AnswerAtFirstRepeat(JoinLines(["+3", "+3", "+4", "-2", "-4"]), 20, 7);
    assert r3 == Repeated(10);
    Example7();
    RepeatExample4();
    var r4 := AnswerAtFirstRepeat(JoinLines(["-6", "+3", "+8", "+5", "-6"]), 20, 12);
    assert r4 == Repeated(5);
    Example8();
    RepeatExample5();
    var r5 := AnswerAtFirstRepeat(JoinLines(["+7", "+7", "-2", "-7", "-4"]), 20, 13);
    assert r5 == Repeated(14);
  }
}
