/** The example log of the puzzle of day 4, read by the tests of
    rust/day-4/src/lib.rs (lines 210 and 220), as the ordered records
    `parse_records` makes of it. A timestamp `1518-11-DD HH:MM` is the
    minute count `((DD * 24) + HH) * 60 + MM`. */
module GuardExample {
  import opened Wrappers
  import opened GuardRecords
  import opened Shifts
  import opened SleepStats

  /** The seventeen records in time order. */
  predicate IsExampleLog(rs: seq<Record>)
  {
    && |rs| == 17
    && rs[0] == Record(1440, BeginShift(10))
    && rs[1] == Record(1445, FallsAsleep)
    && rs[2] == Record(1465, WakesUp)
    && rs[3] == Record(1470, FallsAsleep)
    && rs[4] == Record(1495, WakesUp)
    && rs[5] == Record(2878, BeginShift(99))
    && rs[6] == Record(2920, FallsAsleep)
    && rs[7] == Record(2930, WakesUp)
    && rs[8] == Record(4325, BeginShift(10))
    && rs[9] == Record(4344, FallsAsleep)
    && rs[10] == Record(4349, WakesUp)
    && rs[11] == Record(5762, BeginShift(99))
    && rs[12] == Record(5796, FallsAsleep)
    && rs[13] == Record(5806, WakesUp)
    && rs[14] == Record(7203, BeginShift(99))
    && rs[15] == Record(7245, FallsAsleep)
    && rs[16] == Record(7255, WakesUp)
  }

  /** Guard 10's intervals: 00:05-00:25 and 00:30-00:55 on day 1, 00:24-00:29
      on day 3. */
  predicate IsGuardTen(ss: seq<Sleep>)
  {
    ss == [Sleep(10, 1445, 1465), Sleep(10, 1470, 1495), Sleep(10, 4344, 4349)]
  }

  /** Guard 99's intervals: 00:40-00:50, 00:36-00:46 and 00:45-00:55 on days
      2, 4 and 5. */
  predicate IsGuardNinetyNine(ss: seq<Sleep>)
  {
    ss == [Sleep(99, 2920, 2930), Sleep(99, 5796, 5806), Sleep(99, 7245, 7255)]
  }

  /** A shift with one sleep, whatever came before it. */
  lemma ShortShift(st: Machine, seg: seq<Record>, g: GuardId, a: int, b: int)
    requires OneSleepShift(seg, g, a, b)
    ensures Completions(st, seg) == [Sleep(g, a, b)]
    ensures Run(st, seg).guard == Some(g)
  {
    assert seg == [seg[0], seg[1], seg[2]];
    RunThree(st, seg[0], seg[1], seg[2]);
  }

  /** One more sleep in the same shift. */
  lemma AnotherSleep(st: Machine, seg: seq<Record>, a: int, b: int)
    requires st.guard.Some? && |seg| == 2 && seg[0] == Record(a, FallsAsleep) && seg[1] == Record(b, WakesUp)
    ensures Completions(st, seg) == [Sleep(st.guard.value, a, b)]
  {
    assert seg == [seg[0], seg[1]];
    RunTwo(st, seg[0], seg[1]);
  }

  /** A shift with two sleeps, whatever came before it. */
  lemma LongShift(st: Machine, seg: seq<Record>, g: GuardId, a1: int, b1: int, a2: int, b2: int)
    requires |seg| == 5 && seg[0].info == BeginShift(g)
    requires seg[1] == Record(a1, FallsAsleep) && seg[2] == Record(b1, WakesUp)
    requires seg[3] == Record(a2, FallsAsleep) && seg[4] == Record(b2, WakesUp)
    ensures Completions(st, seg) == [Sleep(g, a1, b1), Sleep(g, a2, b2)]
  {
    var first, rest := seg[..3], seg[3..];
    assert seg == first + rest;
    ShortShift(st, first, g, a1, b1);
    AnotherSleep(Run(st, first), rest, a2, b2);
    CompletionsAppend(st, first, rest);
  }

  /** The example is its five shifts. */
  lemma ExampleShifts(rs: seq<Record>)
    requires |rs| == 17
    ensures rs == (((rs[..5] + rs[5..8]) + rs[8..11]) + rs[11..14]) + rs[14..]
  {
  }

  /** A run after a run whose intervals are known. */
  lemma Then(st: Machine, a: seq<Record>, b: seq<Record>, ca: seq<Sleep>, cb: seq<Sleep>, c: seq<Sleep>)
    requires Completions(st, a) == ca && Completions(Run(st, a), b) == cb && c == ca + cb
    ensures Completions(st, a + b) == c
  {
    CompletionsAppend(st, a, b);
  }

  /** A shift of guard `g` with one sleep from `a` to `b`. */
  predicate OneSleepShift(seg: seq<Record>, g: GuardId, a: int, b: int)
  {
    |seg| == 3 && seg[0].info == BeginShift(g) && seg[1] == Record(a, FallsAsleep) && seg[2] == Record(b, WakesUp)
  }

  /** The intervals of the example's first two shifts. */
  lemma TwoShifts(s1: seq<Record>, s2: seq<Record>)
    requires |s1| == 5 && s1[0].info == BeginShift(10)
    requires s1[1] == Record(1445, FallsAsleep) && s1[2] == Record(1465, WakesUp)
    requires s1[3] == Record(1470, FallsAsleep) && s1[4] == Record(1495, WakesUp)
    requires OneSleepShift(s2, 99, 2920, 2930)
    ensures Completions(Initial, s1 + s2) == [Sleep(10, 1445, 1465), Sleep(10, 1470, 1495), Sleep(99, 2920, 2930)]
  {
    var x1, x2, x3 := Sleep(10, 1445, 1465), Sleep(10, 1470, 1495), Sleep(99, 2920, 2930);
    LongShift(Initial, s1, 10, 1445, 1465, 1470, 1495);
    ShortShift(Run(Initial, s1), s2, 99, 2920, 2930);
    Then(Initial, s1, s2, [x1, x2], [x3], [x1, x2, x3]);
  }

  /** The intervals of the example's first three shifts. */
  lemma ThreeShifts(s1: seq<Record>, s2: seq<Record>, s3: seq<Record>)
    requires |s1| == 5 && s1[0].info == BeginShift(10)
    requires s1[1] == Record(1445, FallsAsleep) && s1[2] == Record(1465, WakesUp)
    requires s1[3] == Record(1470, FallsAsleep) && s1[4] == Record(1495, WakesUp)
    requires OneSleepShift(s2, 99, 2920, 2930) && OneSleepShift(s3, 10, 4344, 4349)
    ensures Completions(Initial, (s1 + s2) + s3) ==
      [Sleep(10, 1445, 1465), Sleep(10, 1470, 1495), Sleep(99, 2920, 2930), Sleep(10, 4344, 4349)]
  {
    var x1, x2, x3, x4 := Sleep(10, 1445, 1465), Sleep(10, 1470, 1495), Sleep(99, 2920, 2930), Sleep(10, 4344, 4349);
    TwoShifts(s1, s2);
    ShortShift(Run(Initial, s1 + s2), s3, 10, 4344, 4349);
    Then(Initial, s1 + s2, s3, [x1, x2, x3], [x4], [x1, x2, x3, x4]);
  }

  /** The intervals of the example's five shifts, in order. */
  lemma FiveShifts(s1: seq<Record>, s2: seq<Record>, s3: seq<Record>, s4: seq<Record>, s5: seq<Record>)
    requires |s1| == 5 && s1[0].info == BeginShift(10)
    requires s1[1] == Record(1445, FallsAsleep) && s1[2] == Record(1465, WakesUp)
    requires s1[3] == Record(1470, FallsAsleep) && s1[4] == Record(1495, WakesUp)
    requires OneSleepShift(s2, 99, 2920, 2930) && OneSleepShift(s3, 10, 4344, 4349)
    requires OneSleepShift(s4, 99, 5796, 5806) && OneSleepShift(s5, 99, 7245, 7255)
    ensures Completions(Initial, (((s1 + s2) + s3) + s4) + s5) ==
      [Sleep(10, 1445, 1465), Sleep(10, 1470, 1495), Sleep(99, 2920, 2930),
       Sleep(10, 4344, 4349), Sleep(99, 5796, 5806), Sleep(99, 7245, 7255)]
  {
    var p3 := (s1 + s2) + s3;
    var p4 := p3 + s4;
    var x1, x2, x3 := Sleep(10, 1445, 1465), Sleep(10, 1470, 1495), Sleep(99, 2920, 2930);
    var x4, x5, x6 := Sleep(10, 4344, 4349), Sleep(99, 5796, 5806), Sleep(99, 7245, 7255);
    ThreeShifts(s1, s2, s3);
    ShortShift(Run(Initial, p3), s4, 99, 5796, 5806);
    Then(Initial, p3, s4, [x1, x2, x3, x4], [x5], [x1, x2, x3, x4, x5]);
    ShortShift(Run(Initial, p4), s5, 99, 7245, 7255);
    Then(Initial, p4, s5, [x1, x2, x3, x4, x5], [x6], [x1, x2, x3, x4, x5, x6]);
  }

  /** The intervals the example completes, in order. */
  lemma ExampleCompletions(rs: seq<Record>)
    requires IsExampleLog(rs)
    ensures Completions(Initial, rs) ==
      [Sleep(10, 1445, 1465), Sleep(10, 1470, 1495), Sleep(99, 2920, 2930),
       Sleep(10, 4344, 4349), Sleep(99, 5796, 5806), Sleep(99, 7245, 7255)]
  {
    ExampleShifts(rs);
    FiveShifts(rs[..5], rs[5..8], rs[8..11], rs[11..14], rs[14..]);
  }

  /** The example's intervals, in the order they are completed. */
  predicate IsExampleCompletions(c: seq<Sleep>)
  {
    c == [Sleep(10, 1445, 1465), Sleep(10, 1470, 1495), Sleep(99, 2920, 2930),
          Sleep(10, 4344, 4349), Sleep(99, 5796, 5806), Sleep(99, 7245, 7255)]
  }

  /** One more interval looked at by the filter of one guard. */
  lemma Picked(prefix: seq<Sleep>, x: Sleep, g: GuardId)
    ensures OfGuard(prefix + [x], g) == OfGuard(prefix, g) + if x.guardId == g then [x] else []
  {
    assert (prefix + [x])[..|prefix|] == prefix;
  }

  /** Six intervals, built up one at a time. */
  lemma SixSnoc(c: seq<Sleep>)
    requires |c| == 6
    ensures c == [] + [c[0]] + [c[1]] + [c[2]] + [c[3]] + [c[4]] + [c[5]]
  {
  }

  /** The guards of the example's intervals, in order. */
  predicate ExampleGuards(x1: Sleep, x2: Sleep, x3: Sleep, x4: Sleep, x5: Sleep, x6: Sleep)
  {
    x1.guardId == 10 && x2.guardId == 10 && x3.guardId == 99 && x4.guardId == 10 && x5.guardId == 99 && x6.guardId == 99
  }

  /** Guard 10's share of the example's intervals. */
  lemma ExampleTen(x1: Sleep, x2: Sleep, x3: Sleep, x4: Sleep, x5: Sleep, x6: Sleep)
    requires ExampleGuards(x1, x2, x3, x4, x5, x6)
    ensures OfGuard([] + [x1] + [x2] + [x3] + [x4] + [x5] + [x6], 10) == [x1, x2, x4]
  {
    var q1 := [] + [x1];
    var q2 := q1 + [x2];
    var q3 := q2 + [x3];
    var q4 := q3 + [x4];
    var q5 := q4 + [x5];
    assert OfGuard([], 10) == [];
    Picked([], x1, 10);
    Picked(q1, x2, 10);
    Picked(q2, x3, 10);
    Picked(q3, x4, 10);
    Picked(q4, x5, 10);
    Picked(q5, x6, 10);
  }

  /** Guard 99's share of the example's intervals. */
  lemma ExampleNinetyNine(x1: Sleep, x2: Sleep, x3: Sleep, x4: Sleep, x5: Sleep, x6: Sleep)
    requires ExampleGuards(x1, x2, x3, x4, x5, x6)
    ensures OfGuard([] + [x1] + [x2] + [x3] + [x4] + [x5] + [x6], 99) == [x3, x5, x6]
  {
    var q1 := [] + [x1];
    var q2 := q1 + [x2];
    var q3 := q2 + [x3];
    var q4 := q3 + [x4];
    var q5 := q4 + [x5];
    assert OfGuard([], 99) == [];
    Picked([], x1, 99);
    Picked(q1, x2, 99);
    Picked(q2, x3, 99);
    Picked(q3, x4, 99);
    Picked(q4, x5, 99);
    Picked(q5, x6, 99);
  }

  lemma ExampleGroups(c: seq<Sleep>)
    requires IsExampleCompletions(c)
    ensures IsGuardTen(OfGuard(c, 10)) && IsGuardNinetyNine(OfGuard(c, 99))
    ensures GuardsOf(c) == {10, 99}
  {
    SixSnoc(c);
    ExampleTen(c[0], c[1], c[2], c[3], c[4], c[5]);
    ExampleNinetyNine(c[0], c[1], c[2], c[3], c[4], c[5]);
    assert c[0] in c && c[2] in c;
  }

  /** The map `sleeps_by_guard` builds from the example. */
  lemma ExampleSleeps(rs: seq<Record>)
    requires IsExampleLog(rs)
    ensures var m := Run(Initial, rs).sleeps;
      m.Keys == {10, 99} && IsGuardTen(m[10]) && IsGuardNinetyNine(m[99])
  {
    ExampleCompletions(rs);
    SleepsByGuardGroups(rs);
    ExampleGroups(Completions(Initial, rs));
  }

  /** The counts of three intervals are the sums of their own. */
  lemma HitsOfThree(ss: seq<Sleep>, k: nat)
    requires |ss| == 3
    ensures Hits(ss, k) == HitsUpTo(ss[0], k, Covered(ss[0])) + HitsUpTo(ss[1], k, Covered(ss[1])) + HitsUpTo(ss[2], k, Covered(ss[2]))
  {
    var two, one := ss[..2], ss[..1];
    assert two[..1] == one && one[..0] == [] && one[0] == ss[0] && two[1] == ss[1];
    assert Hits(one, k) == HitsUpTo(ss[0], k, Covered(ss[0]));
    assert Hits(two, k) == Hits(one, k) + HitsUpTo(ss[1], k, Covered(ss[1]));
  }

  /** The minutes asleep of three intervals. */
  lemma AsleepOfThree(ss: seq<Sleep>)
    requires |ss| == 3
    ensures MinutesAsleep(ss) == Length(ss[0]) + Length(ss[1]) + Length(ss[2])
  {
    var two, one := ss[..2], ss[..1];
    assert two[..1] == one && one[..0] == [] && one[0] == ss[0] && two[1] == ss[1];
    assert MinutesAsleep(one) == Length(ss[0]);
    assert MinutesAsleep(two) == MinutesAsleep(one) + Length(ss[1]);
  }

  /** An interval of `n` minutes from minute `m0`, inside its hour. */
  lemma Within(s: Sleep, m0: nat, n: nat, k: nat)
    requires Minute(s.start) == m0 && Length(s) == n && m0 + n <= 60
    ensures HitsUpTo(s, k, Covered(s)) == if m0 <= k < m0 + n then 1 else 0
  {
    HitsWithinHour(s, k, Covered(s));
  }

  /** A count no other minute reaches is the answer. */
  lemma OnlyTop(ss: seq<Sleep>, top: nat, c: nat)
    requires c > 0 && CountOf(MinuteCounts(ss), top) == c
    requires forall k: nat :: k != top ==> CountOf(MinuteCounts(ss), k) < c
    ensures BestMinute(ss) == Some((top, c))
  {
    BestMinuteIsBest(ss);
    assert top in MinuteCounts(ss);
  }

  /** Guard 10 slept 50 minutes, most often at 00:24 (twice). */
  lemma GuardTen(ss: seq<Sleep>)
    requires IsGuardTen(ss)
    ensures MinutesAsleep(ss) == 50
    ensures BestMinute(ss) == Some((24, 2))
  {
    AsleepOfThree(ss);
    forall k: nat ensures CountOf(MinuteCounts(ss), k) ==
      (if 5 <= k < 25 then 1 else 0) + (if 30 <= k < 55 then 1 else 0) + (if 24 <= k < 29 then 1 else 0)
    {
      CountIsHits(ss, k);
      HitsOfThree(ss, k);
      Within(ss[0], 5, 20, k);
      Within(ss[1], 30, 25, k);
      Within(ss[2], 24, 5, k);
    }
    OnlyTop(ss, 24, 2);
  }

  /** Guard 99 slept 30 minutes, most often at 00:45 (three times). */
  lemma GuardNinetyNine(ss: seq<Sleep>)
    requires IsGuardNinetyNine(ss)
    ensures MinutesAsleep(ss) == 30
    ensures BestMinute(ss) == Some((45, 3))
  {
    AsleepOfThree(ss);
    forall k: nat ensures CountOf(MinuteCounts(ss), k) ==
      (if 40 <= k < 50 then 1 else 0) + (if 36 <= k < 46 then 1 else 0) + (if 45 <= k < 55 then 1 else 0)
    {
      CountIsHits(ss, k);
      HitsOfThree(ss, k);
      Within(ss[0], 40, 10, k);
      Within(ss[1], 36, 10, k);
      Within(ss[2], 45, 10, k);
    }
    OnlyTop(ss, 45, 3);
  }

  /** What the two parts need to know of the example's map. */
  predicate ExampleFacts(m: Sleeps)
  {
    && m.Keys == {10, 99}
    && MinutesAsleep(m[10]) == 50 && BestMinute(m[10]) == Some((24, 2))
    && MinutesAsleep(m[99]) == 30 && BestMinute(m[99]) == Some((45, 3))
  }

  lemma ExampleHasFacts(rs: seq<Record>)
    requires IsExampleLog(rs)
    ensures ExampleFacts(Run(Initial, rs).sleeps)
  {
    ExampleSleeps(rs);
    GuardTen(Run(Initial, rs).sleeps[10]);
    GuardNinetyNine(Run(Initial, rs).sleeps[99]);
  }

  /** Guard 10 sleeps longest, and sleeps most at minute 24. */
  lemma LongestIsTen(m: Sleeps)
    requires ExampleFacts(m)
    ensures LongestSleeper(m) == Some((10, m[10]))
  {
    LongestSleeperIsLongest(m);
  }

  /** Guard 99 sleeps most often on one minute, 45. */
  lemma MostFrequentIsNinetyNine(m: Sleeps)
    requires ExampleFacts(m)
    ensures MostFrequentlyAsleepOnSameMin(m) == Some((99, 45, 3))
  {
    MostFrequentIsMost(m);
  }

  /** Part one of the example: guard 10 at minute 24. */
  lemma ExamplePart1(rs: seq<Record>)
    requires IsExampleLog(rs)
    ensures Strategy1(rs) == 240
  {
    ExampleHasFacts(rs);
    LongestIsTen(Run(Initial, rs).sleeps);
  }

  /** Part two of the example: guard 99 at minute 45. */
  lemma ExamplePart2(rs: seq<Record>)
    requires IsExampleLog(rs)
    ensures Strategy2(rs) == 4455
  {
    ExampleHasFacts(rs);
    MostFrequentIsNinetyNine(Run(Initial, rs).sleeps);
  }

  /** The example is in time order, so `parse_records` returns it as is up
      to records of equal timestamps, of which it has none. */
  lemma ExampleSorted(rs: seq<Record>)
    requires IsExampleLog(rs)
    ensures SortedByTime(rs)
    ensures forall i, j :: 0 <= i < j < |rs| ==> rs[i].timestamp < rs[j].timestamp
  {
    forall i, j | 0 <= i < j < |rs| ensures rs[i].timestamp < rs[j].timestamp {
      StrictlyIncreasing(rs, i, j);
    }
  }

  lemma {:induction false} StrictlyIncreasing(rs: seq<Record>, i: nat, j: nat)
    requires IsExampleLog(rs) && i < j < |rs|
    ensures rs[i].timestamp < rs[j].timestamp
    decreases j - i
  {
    if i + 1 < j {
      StrictlyIncreasing(rs, i + 1, j);
    }
  }
}
