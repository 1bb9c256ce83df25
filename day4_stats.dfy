/** The questions of day 4 (rust/day-4/src/lib.rs): which minute a guard
    slept most, which guard slept longest, which guard slept most on one
    minute, and the two answers built from them. */
module SleepStats {
  import opened Wrappers
  import opened GuardRecords
  import opened Shifts

  // ---------------------------------------------------------------------------
  // max_by_key over keys in ascending order
  // ---------------------------------------------------------------------------

  /** The largest element of a non-empty set. */
  function Greatest(s: set<nat>): (m: nat)
    requires s != {}
    ensures m in s && forall k :: k in s ==> k <= m
  {
    GreatestExists(s);
    var m :| m in s && forall k :: k in s ==> k <= m;
    m
  }

  lemma {:induction false} GreatestExists(s: set<nat>)
    requires s != {}
    ensures exists m :: m in s && forall k :: k in s ==> k <= m
    decreases |s|
  {
    var x :| x in s;
    if s != {x} {
      GreatestExists(s - {x});
      var m :| m in s - {x} && forall k :: k in s - {x} ==> k <= m;
      var top := if x > m then x else m;
      forall k | k in s ensures k <= top {
        if k != x {
          assert k in s - {x};
        }
      }
    }
  }

  /** `max_by_key` over `keys` visited in ascending order. */
  function LastMax(keys: set<nat>, score: nat -> int): (r: Option<nat>)
    ensures r.None? <==> keys == {}
    ensures r.Some? ==> r.value in keys
    decreases |keys|
  {
    if keys == {} then None
    else
      var top := Greatest(keys);
      var rest := LastMax(keys - {top}, score);
      if rest.None? || score(rest.value) <= score(top) then Some(top) else rest
  }

  /** `max_by_key` returns a key of greatest score, and of several such the
      last one visited. */
  lemma {:induction false} LastMaxIsMax(keys: set<nat>, score: nat -> int)
    ensures var r := LastMax(keys, score);
      r.Some? ==> forall k :: k in keys ==> score(k) <= score(r.value)
    ensures var r := LastMax(keys, score);
      r.Some? ==> forall k :: k in keys && score(k) == score(r.value) ==> k <= r.value
    decreases |keys|
  {
    if keys != {} {
      var top := Greatest(keys);
      LastMaxIsMax(keys - {top}, score);
    }
  }

  // ---------------------------------------------------------------------------
  // most_frequent_minute_slept
  // ---------------------------------------------------------------------------

  /** `(sleep.end - sleep.start).num_minutes()`. */
  function Length(s: Sleep): int
  {
    s.end - s.start
  }

  /** The number of turns of `for i in 0..length`: none for a non-positive
      length. */
  function Covered(s: Sleep): nat
  {
    if Length(s) > 0 then Length(s) else 0
  }

  /** The minute-of-hour counts: `HashMap<u8, u32>`. */
  type Histogram = map<nat, nat>

  function CountOf(h: Histogram, k: nat): nat
  {
    if k in h then h[k] else 0
  }

  /** `entry(min).and_modify(|i| *i += 1).or_insert(1)`. */
  function Bump(h: Histogram, k: nat): (h': Histogram)
    ensures h'.Keys == h.Keys + {k}
    ensures forall j :: CountOf(h', j) == CountOf(h, j) + (if j == k then 1 else 0)
  {
    h[k := CountOf(h, k) + 1]
  }

  /** The two arms of `and_modify(..).or_insert(1)` are `Bump`. */
  lemma BumpIsEntry(h: Histogram, k: nat)
    ensures k in h ==> h[k := h[k] + 1] == Bump(h, k)
    ensures k !in h ==> h[k := 1] == Bump(h, k)
  {
  }

  /** The minute of the hour of turn `i` of a sleep. */
  function MinuteAt(s: Sleep, i: nat): (m: nat)
    ensures m < 60
  {
    (Minute(s.start) + i) % 60
  }

  /** The first `n` turns of the inner loop for `s`. */
  function AddSleep(h: Histogram, s: Sleep, n: nat): Histogram
  {
    if n == 0 then h else Bump(AddSleep(h, s, n - 1), MinuteAt(s, n - 1))
  }

  /** The histogram the loops build over `sleeps`. */
  function MinuteCounts(sleeps: seq<Sleep>): Histogram
    decreases |sleeps|
  {
    if sleeps == [] then map[]
    else
      var last := sleeps[|sleeps| - 1];
      AddSleep(MinuteCounts(sleeps[..|sleeps| - 1]), last, Covered(last))
  }

  /** What `most_frequent_minute_slept` returns: a minute of greatest count,
      with that count. */
  function BestMinute(sleeps: seq<Sleep>): Option<(nat, nat)>
  {
    var h := MinuteCounts(sleeps);
    match LastMax(h.Keys, (k: nat) => CountOf(h, k))
    case None => None
    case Some(k) => Some((k, h[k]))
  }

  /** The answer is a minute of the hour whose count is at least every
      minute's; there is none only when no minute has a count. */
  lemma BestMinuteIsBest(sleeps: seq<Sleep>)
    ensures var r := BestMinute(sleeps);
      && (r.None? <==> MinuteCounts(sleeps) == map[])
      && (r.Some? ==> r.value.0 < 60 && r.value.1 >= 1 && CountOf(MinuteCounts(sleeps), r.value.0) == r.value.1)
      && (r.Some? ==> forall k :: CountOf(MinuteCounts(sleeps), k) <= r.value.1)
  {
    var h := MinuteCounts(sleeps);
    CountsInHour(sleeps);
    LastMaxIsMax(h.Keys, (k: nat) => CountOf(h, k));
  }

  /** `most_frequent_minute_slept`. */
  method MostFrequentMinuteSlept(sleeps: seq<Sleep>) returns (best: Option<(nat, nat)>)
    ensures best == BestMinute(sleeps)
  {
    var minutesSlept: Histogram := map[];
    for k := 0 to |sleeps|
      invariant minutesSlept == MinuteCounts(sleeps[..k])
    {
      assert sleeps[..k + 1][..k] == sleeps[..k];
      minutesSlept := CountSleep(minutesSlept, sleeps[k]);
    }
    assert sleeps[..|sleeps|] == sleeps;
    var h := minutesSlept;
    best := match LastMax(h.Keys, (k: nat) => CountOf(h, k))
      case None => None
      case Some(k) => Some((k, h[k]));
  }

  /** The inner loop of `most_frequent_minute_slept`: one count per minute
      of `sleep`. */
  method CountSleep(minutesSlept: Histogram, sleep: Sleep) returns (counts: Histogram)
    ensures counts == AddSleep(minutesSlept, sleep, Covered(sleep))
  {
    counts := minutesSlept;
    var length := sleep.end - sleep.start;
    var i := 0;
    while i < length
      invariant 0 <= i && (i <= length || i == 0)
      invariant counts == AddSleep(minutesSlept, sleep, i)
    {
      var min := (Minute(sleep.start) + i) % 60;
      assert min == MinuteAt(sleep, i);
      BumpIsEntry(counts, min);
      if min in counts {
        counts := counts[min := counts[min] + 1];
      } else {
        counts := counts[min := 1];
      }
      i := i + 1;
    }
  }

  // ---------------------------------------------------------------------------
  // What the histogram holds
  // ---------------------------------------------------------------------------

  /** Some interval slept minute `k` on one of its first `n` turns. */
  function HitsUpTo(s: Sleep, k: nat, n: nat): nat
  {
    if n == 0 then 0 else HitsUpTo(s, k, n - 1) + (if MinuteAt(s, n - 1) == k then 1 else 0)
  }

  /** How many turns of all the intervals fell on minute `k`. */
  function Hits(sleeps: seq<Sleep>, k: nat): nat
    decreases |sleeps|
  {
    if sleeps == [] then 0
    else
      var last := sleeps[|sleeps| - 1];
      Hits(sleeps[..|sleeps| - 1], k) + HitsUpTo(last, k, Covered(last))
  }

  /** The total of the non-negative interval lengths. */
  function TotalMinutes(sleeps: seq<Sleep>): nat
    decreases |sleeps|
  {
    if sleeps == [] then 0 else TotalMinutes(sleeps[..|sleeps| - 1]) + Covered(sleeps[|sleeps| - 1])
  }

  lemma {:induction false} AddSleepCounts(h: Histogram, s: Sleep, n: nat, k: nat)
    ensures CountOf(AddSleep(h, s, n), k) == CountOf(h, k) + HitsUpTo(s, k, n)
  {
    if n > 0 {
      AddSleepCounts(h, s, n - 1, k);
    }
  }

  /** The count of minute `k` is the number of turns that fell on it. */
  lemma {:induction false} CountIsHits(sleeps: seq<Sleep>, k: nat)
    ensures CountOf(MinuteCounts(sleeps), k) == Hits(sleeps, k)
    decreases |sleeps|
  {
    if sleeps != [] {
      var last := sleeps[|sleeps| - 1];
      CountIsHits(sleeps[..|sleeps| - 1], k);
      AddSleepCounts(MinuteCounts(sleeps[..|sleeps| - 1]), last, Covered(last), k);
    }
  }

  /** An interval that stays inside its hour falls once on each of its
      minutes and on no other. */
  lemma {:induction false} HitsWithinHour(s: Sleep, k: nat, n: nat)
    requires Minute(s.start) + n <= 60
    ensures HitsUpTo(s, k, n) == if Minute(s.start) <= k < Minute(s.start) + n then 1 else 0
  {
    if n > 0 {
      HitsWithinHour(s, k, n - 1);
    }
  }

  lemma {:induction false} AddSleepKeys(h: Histogram, s: Sleep, n: nat)
    requires forall k :: k in h ==> k < 60 && h[k] >= 1
    ensures forall k :: k in AddSleep(h, s, n) ==> k < 60 && AddSleep(h, s, n)[k] >= 1
  {
    if n > 0 {
      AddSleepKeys(h, s, n - 1);
    }
  }

  /** Every key is a minute of the hour, and every count is at least 1. */
  lemma {:induction false} CountsInHour(sleeps: seq<Sleep>)
    ensures forall k :: k in MinuteCounts(sleeps) ==> k < 60 && MinuteCounts(sleeps)[k] >= 1
    decreases |sleeps|
  {
    if sleeps != [] {
      var last := sleeps[|sleeps| - 1];
      CountsInHour(sleeps[..|sleeps| - 1]);
      AddSleepKeys(MinuteCounts(sleeps[..|sleeps| - 1]), last, Covered(last));
    }
  }

  /** The counts of minutes `0..n`. */
  function SumBelow(h: Histogram, n: nat): nat
  {
    if n == 0 then 0 else SumBelow(h, n - 1) + CountOf(h, n - 1)
  }

  lemma {:induction false} SumBump(h: Histogram, k: nat, n: nat)
    ensures SumBelow(Bump(h, k), n) == SumBelow(h, n) + (if k < n then 1 else 0)
  {
    if n > 0 {
      SumBump(h, k, n - 1);
    }
  }

  lemma {:induction false} SumAddSleep(h: Histogram, s: Sleep, n: nat)
    ensures SumBelow(AddSleep(h, s, n), 60) == SumBelow(h, 60) + n
  {
    if n > 0 {
      SumAddSleep(h, s, n - 1);
      SumBump(AddSleep(h, s, n - 1), MinuteAt(s, n - 1), 60);
    }
  }

  /** The counts of all the minutes add up to the minutes slept. */
  lemma {:induction false} CountsTotal(sleeps: seq<Sleep>)
    ensures SumBelow(MinuteCounts(sleeps), 60) == TotalMinutes(sleeps)
    decreases |sleeps|
  {
    if sleeps == [] {
      EmptySum(map[], 60);
    } else {
      var last := sleeps[|sleeps| - 1];
      CountsTotal(sleeps[..|sleeps| - 1]);
      SumAddSleep(MinuteCounts(sleeps[..|sleeps| - 1]), last, Covered(last));
    }
  }

  /** A sum of counts is zero exactly when the histogram has no key below
      the bound. */
  lemma {:induction false} EmptySum(h: Histogram, n: nat)
    requires forall k :: k in h ==> k < 60 && h[k] >= 1
    ensures SumBelow(h, n) == 0 <==> forall k :: k in h ==> k >= n
  {
    if n > 0 {
      EmptySum(h, n - 1);
    }
  }

  /** `most_frequent_minute_slept` has an answer exactly when a minute was
      slept. */
  lemma BestMinuteExists(sleeps: seq<Sleep>)
    ensures BestMinute(sleeps).None? <==> TotalMinutes(sleeps) == 0
  {
    BestMinuteIsBest(sleeps);
    CountsInHour(sleeps);
    CountsTotal(sleeps);
    EmptySum(MinuteCounts(sleeps), 60);
  }

  /** A one-minute interval adds 1 to the count of its start minute and
      nothing to any other. */
  lemma OneMinute(sleeps: seq<Sleep>, s: Sleep, k: nat)
    requires s.end == s.start + 1
    ensures CountOf(MinuteCounts(sleeps + [s]), k) == CountOf(MinuteCounts(sleeps), k) + (if k == Minute(s.start) then 1 else 0)
  {
    assert (sleeps + [s])[..|sleeps|] == sleeps;
    AddSleepCounts(MinuteCounts(sleeps), s, 1, k);
  }

  // ---------------------------------------------------------------------------
  // longest_sleeper and most_frequently_asleep_on_same_min
  // ---------------------------------------------------------------------------

  /** The `i64` sum of `(end - start).num_minutes()`, negative lengths
      included. */
  function MinutesAsleep(sleeps: seq<Sleep>): int
    decreases |sleeps|
  {
    if sleeps == [] then 0 else MinutesAsleep(sleeps[..|sleeps| - 1]) + Length(sleeps[|sleeps| - 1])
  }

  /** `longest_sleeper`. */
  function LongestSleeper(m: Sleeps): Option<(GuardId, seq<Sleep>)>
  {
    match LastMax(m.Keys, (g: nat) => MinutesAsleep(SleepsOf(m, g)))
    case None => None
    case Some(g) => Some((g, m[g]))
  }

  /** `longest_sleeper` gives a guard of greatest total minutes asleep, with
      its intervals, and `None` exactly when the map is empty. */
  lemma LongestSleeperIsLongest(m: Sleeps)
    ensures var r := LongestSleeper(m);
      && (r.None? <==> m.Keys == {})
      && (r.Some? ==> r.value.0 in m && r.value.1 == m[r.value.0])
      && (r.Some? ==> forall g :: g in m ==> MinutesAsleep(m[g]) <= MinutesAsleep(r.value.1))
  {
    LastMaxIsMax(m.Keys, (g: nat) => MinutesAsleep(SleepsOf(m, g)));
  }

  /** The guards with a best minute. */
  function Candidates(m: Sleeps): set<nat>
  {
    set g | g in m && BestMinute(m[g]).Some?
  }

  /** The count of a guard's best minute, 0 without one. */
  function BestCount(m: Sleeps, g: nat): nat
  {
    if g in m && BestMinute(m[g]).Some? then BestMinute(m[g]).value.1 else 0
  }

  /** `most_frequently_asleep_on_same_min`: over the guards with a best
      minute, one whose best count is greatest. */
  function MostFrequentlyAsleepOnSameMin(m: Sleeps): Option<(GuardId, nat, nat)>
  {
    match LastMax(Candidates(m), (g: nat) => BestCount(m, g))
    case None => None
    case Some(g) => Some((g, BestMinute(m[g]).value.0, BestMinute(m[g]).value.1))
  }

  /** `most_frequently_asleep_on_same_min` gives a guard, its best minute and
      that minute's count, the count at least every guard's best count; it
      gives `None` exactly when no guard has a best minute. */
  lemma MostFrequentIsMost(m: Sleeps)
    ensures var r := MostFrequentlyAsleepOnSameMin(m);
      && (r.None? <==> forall g :: g in m ==> BestMinute(m[g]).None?)
      && (r.Some? ==> r.value.0 in m && BestMinute(m[r.value.0]) == Some((r.value.1, r.value.2)))
      && (r.Some? ==> forall g :: g in m && BestMinute(m[g]).Some? ==> BestMinute(m[g]).value.1 <= r.value.2)
  {
    LastMaxIsMax(Candidates(m), (g: nat) => BestCount(m, g));
    var r := MostFrequentlyAsleepOnSameMin(m);
    if r.None? {
      assert forall g :: g in m ==> g !in Candidates(m);
    } else {
      forall g | g in m && BestMinute(m[g]).Some?
        ensures BestMinute(m[g]).value.1 <= r.value.2
      {
        assert g in Candidates(m);
        assert BestCount(m, g) == BestMinute(m[g]).value.1;
      }
    }
  }

  // ---------------------------------------------------------------------------
  // The two parts
  // ---------------------------------------------------------------------------

  /** `id * (max_minute as u32)`. */
  function Times(id: nat, minute: nat): nat
  {
    id * minute
  }

  /** Part one on ordered records: the longest sleeper's id times their best
      minute, 0 without an answer. */
  function Strategy1(records: seq<Record>): nat
  {
    LongestSleeperAnswer(Run(Initial, records).sleeps)
  }

  /** Part one on the intervals by guard. */
  function LongestSleeperAnswer(m: Sleeps): nat
  {
    match LongestSleeper(m)
    case None => 0
    case Some((id, sleeps)) =>
      match BestMinute(sleeps)
      case None => 0
      case Some((minute, _)) => Times(id, minute)
  }

  /** Part two on ordered records: the id of the guard most often asleep on
      one minute times that minute, 0 without an answer. */
  function Strategy2(records: seq<Record>): nat
  {
    SameMinuteAnswer(Run(Initial, records).sleeps)
  }

  /** Part two on the intervals by guard. */
  function SameMinuteAnswer(m: Sleeps): nat
  {
    match MostFrequentlyAsleepOnSameMin(m)
    case None => 0
    case Some((id, minute, _)) => Times(id, minute)
  }

  /** Both parts answer 0 when nobody slept: no interval was completed. */
  lemma NoSleepNoAnswer(records: seq<Record>)
    requires Completions(Initial, records) == []
    ensures Strategy1(records) == 0 && Strategy2(records) == 0
  {
    RunKeys(Initial, records);
    LongestSleeperIsLongest(Run(Initial, records).sleeps);
    MostFrequentIsMost(Run(Initial, records).sleeps);
  }

  /** What part one promises of `answer` over the intervals by guard: 0 when
      nobody slept; otherwise there is a guard of greatest total minutes
      asleep, and `answer` is 0 when that guard has no best minute, or the
      guard's id times a minute they were asleep on at least as often as on
      any other. */
  ghost predicate IsLongestSleeperAnswer(m: Sleeps, answer: nat)
  {
    && (m == map[] ==> answer == 0)
    && (m != map[] ==>
          exists g :: g in m
            && (forall h :: h in m ==> MinutesAsleep(m[h]) <= MinutesAsleep(m[g]))
            && (BestMinute(m[g]).None? ==> answer == 0)
            && (BestMinute(m[g]).Some? ==>
                  && answer == Times(g, BestMinute(m[g]).value.0)
                  && forall k :: CountOf(MinuteCounts(m[g]), k) <= CountOf(MinuteCounts(m[g]), BestMinute(m[g]).value.0)))
  }

  /** Part one answers as `IsLongestSleeperAnswer` says. */
  lemma Strategy1Meaning(records: seq<Record>)
    ensures IsLongestSleeperAnswer(Run(Initial, records).sleeps, Strategy1(records))
  {
    LongestSleeperAnswerMeaning(Run(Initial, records).sleeps);
  }

  /** `Strategy1Meaning` on the intervals by guard. */
  lemma LongestSleeperAnswerMeaning(m: Sleeps)
    ensures IsLongestSleeperAnswer(m, LongestSleeperAnswer(m))
  {
    LongestSleeperIsLongest(m);
    var r := LongestSleeper(m);
    if r.Some? {
      var g := r.value.0;
      BestMinuteIsBest(m[g]);
      assert g in m && forall h :: h in m ==> MinutesAsleep(m[h]) <= MinutesAsleep(m[g]);
    }
  }

  /** What part two promises of `answer` over the intervals by guard: 0 when
      no guard has a best minute; otherwise the id of a guard whose best
      minute's count is the greatest over all guards, times that minute. */
  ghost predicate IsSameMinuteAnswer(m: Sleeps, answer: nat)
  {
    && ((forall g :: g in m ==> BestMinute(m[g]).None?) ==> answer == 0)
    && ((exists g :: g in m && BestMinute(m[g]).Some?) ==>
          exists g :: g in m && BestMinute(m[g]).Some?
            && (forall h :: h in m && BestMinute(m[h]).Some? ==> BestMinute(m[h]).value.1 <= BestMinute(m[g]).value.1)
            && answer == Times(g, BestMinute(m[g]).value.0))
  }

  /** Part two answers as `IsSameMinuteAnswer` says. */
  lemma Strategy2Meaning(records: seq<Record>)
    ensures IsSameMinuteAnswer(Run(Initial, records).sleeps, Strategy2(records))
  {
    SameMinuteAnswerMeaning(Run(Initial, records).sleeps);
  }

  /** `Strategy2Meaning` on the intervals by guard. */
  lemma SameMinuteAnswerMeaning(m: Sleeps)
    ensures IsSameMinuteAnswer(m, SameMinuteAnswer(m))
  {
    MostFrequentIsMost(m);
    var r := MostFrequentlyAsleepOnSameMin(m);
    if r.Some? {
      var g := r.value.0;
      assert g in m && BestMinute(m[g]).Some?;
    }
  }

  /** `day_3_part_1` (the name the source gives the first part of day 4). */
  method Part1(input: string, stamp: string -> Option<int>) returns (answer: Option<nat>)
    ensures answer.None? <==> ParseLines(input, stamp).None?
    ensures answer.Some? ==> exists rs :: SortedByTime(rs) && multiset(rs) == multiset(ParseLines(input, stamp).value)
                                       && answer.value == Strategy1(rs)
  {
    var records := ParseRecords(input, stamp);
    if records.None? {
      return None;
    }
    var n := Answer1(records.value);
    return Some(n);
  }

  /** The body of `day_3_part_1` after `parse_records`. */
  method Answer1(records: seq<Record>) returns (answer: nat)
    ensures answer == Strategy1(records)
  {
    var sleepsByGuard := SleepsByGuard(records);
    answer := 0;
    match LongestSleeper(sleepsByGuard) {
      case Some((id, sleeps)) =>
        var best := MostFrequentMinuteSlept(sleeps);
        if best.Some? {
          answer := Times(id, best.value.0);
        }
      case None =>
    }
  }

  /** `day_3_part_2`. */
  method Part2(input: string, stamp: string -> Option<int>) returns (answer: Option<nat>)
    ensures answer.None? <==> ParseLines(input, stamp).None?
    ensures answer.Some? ==> exists rs :: SortedByTime(rs) && multiset(rs) == multiset(ParseLines(input, stamp).value)
                                       && answer.value == Strategy2(rs)
  {
    var records := ParseRecords(input, stamp);
    if records.None? {
      return None;
    }
    var n := Answer2(records.value);
    return Some(n);
  }

  /** The body of `day_3_part_2` after `parse_records`. */
  method Answer2(records: seq<Record>) returns (answer: nat)
    ensures answer == Strategy2(records)
  {
    var sleepsByGuard := SleepsByGuard(records);
    answer := 0;
    match MostFrequentlyAsleepOnSameMin(sleepsByGuard) {
      case Some((id, minute, _)) =>
        answer := Times(id, minute);
      case None =>
    }
  }
}
