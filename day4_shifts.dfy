/** `sleeps_by_guard` of day 4 (rust/day-4/src/lib.rs): the state machine
    that turns the ordered records into the intervals each guard slept. */
module Shifts {
  import opened Wrappers
  import opened GuardRecords

  /** `Sleep`: guard `guardId` asleep from `start` up to, not including,
      `end`. */
  datatype Sleep = Sleep(guardId: GuardId, start: int, end: int)

  /** The `MultiMap<GuardId, Sleep>`: each guard's intervals in insertion
      order. */
  type Sleeps = map<GuardId, seq<Sleep>>

  /** The intervals filed under `g`; none when `g` is no key. */
  function SleepsOf(m: Sleeps, g: GuardId): seq<Sleep>
  {
    if g in m then m[g] else []
  }

  /** `MultiMap::insert`: appends to the list of `s`'s guard, creating it
      when absent. */
  function Insert(m: Sleeps, s: Sleep): (m': Sleeps)
    ensures m'.Keys == m.Keys + {s.guardId}
    ensures forall g :: SleepsOf(m', g) == SleepsOf(m, g) + (if g == s.guardId then [s] else [])
  {
    m[s.guardId := SleepsOf(m, s.guardId) + [s]]
  }

  /** The variables of `sleeps_by_guard` between two records. */
  datatype Machine = Machine(guard: Option<GuardId>, sleepStart: Option<int>, sleeps: Sleeps)

  /** Before the first record. */
  const Initial: Machine := Machine(None, None, map[])

  /** The interval a record completes: a `WakesUp` does so only when both a
      guard and a start are known; it ends at the record's time. */
  function Completed(st: Machine, r: Record): (s: Option<Sleep>)
    ensures s.Some? <==> r.info == WakesUp && st.guard.Some? && st.sleepStart.Some?
    ensures s.Some? ==> s.value == Sleep(st.guard.value, st.sleepStart.value, r.timestamp)
  {
    match r.info
    case WakesUp =>
      if st.guard.Some? && st.sleepStart.Some? then
        Some(Sleep(st.guard.value, st.sleepStart.value, r.timestamp))
      else
        None
    case _ => None
  }

  /** One turn of the loop: a shift sets the guard and forgets the start, a
      fall sets the start (guard or none), a wake files the completed
      interval and keeps both. */
  function Step(st: Machine, r: Record): (st': Machine)
    ensures r.info.BeginShift? ==> st' == Machine(Some(r.info.id), None, st.sleeps)
    ensures r.info == FallsAsleep ==> st' == st.(sleepStart := Some(r.timestamp))
    ensures r.info == WakesUp ==> st'.guard == st.guard && st'.sleepStart == st.sleepStart
    ensures r.info == WakesUp && Completed(st, r).None? ==> st' == st
    ensures Completed(st, r).Some? ==> st'.sleeps == Insert(st.sleeps, Completed(st, r).value)
  {
    match r.info
    case BeginShift(id) => Machine(Some(id), None, st.sleeps)
    case FallsAsleep => st.(sleepStart := Some(r.timestamp))
    case WakesUp =>
      match Completed(st, r)
      case None => st
      case Some(s) => st.(sleeps := Insert(st.sleeps, s))
  }

  /** The loop over `rs` from `st`. */
  function Run(st: Machine, rs: seq<Record>): Machine
    decreases |rs|
  {
    if rs == [] then st else Step(Run(st, rs[..|rs| - 1]), rs[|rs| - 1])
  }

  function AsSeq(o: Option<Sleep>): seq<Sleep>
  {
    if o.Some? then [o.value] else []
  }

  /** Every interval the loop over `rs` completes, in order. */
  function Completions(st: Machine, rs: seq<Record>): seq<Sleep>
    decreases |rs|
  {
    if rs == [] then []
    else Completions(st, rs[..|rs| - 1]) + AsSeq(Completed(Run(st, rs[..|rs| - 1]), rs[|rs| - 1]))
  }

  /** `sleeps_by_guard`. */
  method SleepsByGuard(records: seq<Record>) returns (sleeps: Sleeps)
    ensures sleeps == Run(Initial, records).sleeps
  {
    sleeps := map[];
    var currentGuard: Option<GuardId> := None;
    var currentSleepStart: Option<int> := None;
    for k := 0 to |records|
      invariant Machine(currentGuard, currentSleepStart, sleeps) == Run(Initial, records[..k])
    {
      var record := records[k];
      assert records[..k + 1][..k] == records[..k];
      match record.info {
        case BeginShift(id) =>
          currentGuard := Some(id);
          currentSleepStart := None;
        case FallsAsleep =>
          currentSleepStart := Some(record.timestamp);
        case WakesUp =>
          if currentGuard.Some? && currentSleepStart.Some? {
            var id := currentGuard.value;
            var s := Sleep(id, currentSleepStart.value, record.timestamp);
            sleeps := sleeps[id := (if id in sleeps then sleeps[id] else []) + [s]];
          }
      }
    }
    assert records[..|records|] == records;
  }

  // ---------------------------------------------------------------------------
  // The map holds the completed intervals grouped by guard
  // ---------------------------------------------------------------------------

  /** The intervals of guard `g`, in order. */
  function OfGuard(ss: seq<Sleep>, g: GuardId): seq<Sleep>
  {
    if ss == [] then []
    else OfGuard(ss[..|ss| - 1], g) + (if ss[|ss| - 1].guardId == g then [ss[|ss| - 1]] else [])
  }

  /** The filter keeps only the guard's own intervals, and no more of them
      than there are. */
  lemma {:induction false} OfGuardKeeps(ss: seq<Sleep>, g: GuardId)
    ensures forall s :: s in OfGuard(ss, g) ==> s in ss && s.guardId == g
    ensures |OfGuard(ss, g)| <= |ss|
    decreases |ss|
  {
    if ss != [] {
      var init := ss[..|ss| - 1];
      OfGuardKeeps(init, g);
      forall s | s in init ensures s in ss {
        var i :| 0 <= i < |init| && init[i] == s;
        assert ss[i] == s;
      }
    }
  }

  /** The guards of some intervals. */
  function GuardsOf(ss: seq<Sleep>): set<GuardId>
  {
    set s | s in ss :: s.guardId
  }

  lemma {:induction false} OfGuardAppend(a: seq<Sleep>, b: seq<Sleep>, g: GuardId)
    ensures OfGuard(a + b, g) == OfGuard(a, g) + OfGuard(b, g)
    decreases |b|
  {
    if b == [] {
      assert a + b == a;
    } else {
      assert (a + b)[..|a + b| - 1] == a + b[..|b| - 1];
      OfGuardAppend(a, b[..|b| - 1], g);
    }
  }

  /** A guard has intervals exactly when one of them is its. */
  lemma {:induction false} OfGuardEmpty(ss: seq<Sleep>, g: GuardId)
    ensures OfGuard(ss, g) == [] <==> g !in GuardsOf(ss)
    decreases |ss|
  {
    if ss != [] {
      OfGuardEmpty(ss[..|ss| - 1], g);
      assert GuardsOf(ss) == GuardsOf(ss[..|ss| - 1]) + {ss[|ss| - 1].guardId} by {
        assert ss == ss[..|ss| - 1] + [ss[|ss| - 1]];
      }
    }
  }

  /** One more record files at most its completed interval. */
  lemma RunSnoc(st: Machine, rs: seq<Record>, r: Record)
    ensures Run(st, rs + [r]) == Step(Run(st, rs), r)
    ensures Completions(st, rs + [r]) == Completions(st, rs) + AsSeq(Completed(Run(st, rs), r))
    ensures Run(st, rs + [r]).sleeps ==
      if Completed(Run(st, rs), r).Some? then Insert(Run(st, rs).sleeps, Completed(Run(st, rs), r).value)
      else Run(st, rs).sleeps
  {
    assert (rs + [r])[..|rs|] == rs;
  }

  /** The last turn of the loop over `rs`. */
  lemma RunLast(st: Machine, rs: seq<Record>)
    requires rs != []
    ensures Completions(st, rs) == Completions(st, rs[..|rs| - 1]) + AsSeq(Completed(Run(st, rs[..|rs| - 1]), rs[|rs| - 1]))
    ensures Run(st, rs).sleeps ==
      if Completed(Run(st, rs[..|rs| - 1]), rs[|rs| - 1]).Some? then
        Insert(Run(st, rs[..|rs| - 1]).sleeps, Completed(Run(st, rs[..|rs| - 1]), rs[|rs| - 1]).value)
      else Run(st, rs[..|rs| - 1]).sleeps
  {
  }

  /** The loop over two runs of records is the loop over the second from
      where the first left off. */
  lemma {:induction false} RunAppend(st: Machine, a: seq<Record>, b: seq<Record>)
    ensures Run(st, a + b) == Run(Run(st, a), b)
    decreases |b|
  {
    if b == [] {
      assert a + b == a;
    } else {
      var init := b[..|b| - 1];
      assert (a + b)[..|a + b| - 1] == a + init;
      RunAppend(st, a, init);
    }
  }

  /** ... and it completes the intervals of the first, then those of the
      second. */
  lemma {:induction false} CompletionsAppend(st: Machine, a: seq<Record>, b: seq<Record>)
    ensures Completions(st, a + b) == Completions(st, a) + Completions(Run(st, a), b)
    decreases |b|
  {
    if b == [] {
      assert a + b == a;
    } else {
      var init, last := b[..|b| - 1], b[|b| - 1];
      assert (a + b)[..|a + b| - 1] == a + init;
      CompletionsAppend(st, a, init);
      RunAppend(st, a, init);
      SleepsAssociative(Completions(st, a), Completions(Run(st, a), init), AsSeq(Completed(Run(st, a + init), last)));
    }
  }

  lemma SleepsAssociative(a: seq<Sleep>, b: seq<Sleep>, c: seq<Sleep>)
    ensures (a + b) + c == a + (b + c)
  {
  }

  /** Filing one more interval adds its guard to the keys. */
  lemma FileKeys(k0: set<GuardId>, k: set<GuardId>, k': set<GuardId>, c: seq<Sleep>, t: Sleep)
    requires k == k0 + GuardsOf(c)
    requires k' == k + {t.guardId}
    ensures k' == k0 + GuardsOf(c + [t])
  {
    assert GuardsOf(c + [t]) == GuardsOf(c) + {t.guardId};
  }

  /** Filing one more interval keeps a guard's list its share of the
      intervals filed. */
  lemma FileAt(before: seq<Sleep>, now: seq<Sleep>, after: seq<Sleep>, c: seq<Sleep>, t: Sleep, g: GuardId)
    requires now == before + OfGuard(c, g)
    requires after == now + (if g == t.guardId then [t] else [])
    ensures after == before + OfGuard(c + [t], g)
  {
    OfGuardAppend(c, [t], g);
    assert [t][..0] == [];
    assert OfGuard([t], g) == if t.guardId == g then [t] else [];
  }

  /** One more step of the loop keeps a guard's list its share of the
      intervals completed. */
  lemma GroupStep(m: Sleeps, m': Sleeps, c: seq<Sleep>, c': seq<Sleep>, o: Option<Sleep>, base: seq<Sleep>, g: GuardId)
    requires SleepsOf(m, g) == base + OfGuard(c, g)
    requires c' == c + AsSeq(o)
    requires m' == if o.Some? then Insert(m, o.value) else m
    ensures SleepsOf(m', g) == base + OfGuard(c', g)
  {
    if o.Some? {
      FileAt(base, SleepsOf(m, g), SleepsOf(m', g), c, o.value, g);
    } else {
      assert c' == c;
    }
  }

  /** After the loop a guard holds what it held before, then its own
      completed intervals in the order they were completed. */
  lemma {:induction false} RunGroups(st: Machine, rs: seq<Record>, g: GuardId)
    ensures SleepsOf(Run(st, rs).sleeps, g) == SleepsOf(st.sleeps, g) + OfGuard(Completions(st, rs), g)
    decreases |rs|
  {
    if rs == [] {
      assert OfGuard([], g) == [];
    } else {
      var init, last := rs[..|rs| - 1], rs[|rs| - 1];
      RunGroups(st, init, g);
      RunLast(st, rs);
      GroupStep(Run(st, init).sleeps, Run(st, rs).sleeps, Completions(st, init), Completions(st, rs),
                Completed(Run(st, init), last), SleepsOf(st.sleeps, g), g);
    }
  }

  /** After the loop the keys are the old keys and the guards of the
      completed intervals. */
  lemma {:induction false} RunKeys(st: Machine, rs: seq<Record>)
    ensures Run(st, rs).sleeps.Keys == st.sleeps.Keys + GuardsOf(Completions(st, rs))
    decreases |rs|
  {
    if rs != [] {
      var init, last := rs[..|rs| - 1], rs[|rs| - 1];
      RunKeys(st, init);
      RunLast(st, rs);
      var o := Completed(Run(st, init), last);
      if o.Some? {
        FileKeys(st.sleeps.Keys, Run(st, init).sleeps.Keys, Run(st, rs).sleeps.Keys, Completions(st, init), o.value);
      } else {
        assert Completions(st, rs) == Completions(st, init);
      }
    }
  }

  /** What `sleeps_by_guard` returns: one key per guard that completed an
      interval, under which lie that guard's intervals and no other, in
      record order. */
  lemma SleepsByGuardGroups(records: seq<Record>)
    ensures var sleeps := Run(Initial, records).sleeps;
      && sleeps.Keys == GuardsOf(Completions(Initial, records))
      && (forall g :: g in sleeps ==> sleeps[g] == OfGuard(Completions(Initial, records), g) && sleeps[g] != [])
      && forall g, s :: g in sleeps && s in sleeps[g] ==> s.guardId == g
  {
    RunKeys(Initial, records);
    var sleeps := Run(Initial, records).sleeps;
    forall g | g in sleeps
      ensures sleeps[g] == OfGuard(Completions(Initial, records), g) && sleeps[g] != []
      ensures forall s: Sleep :: s in sleeps[g] ==> s.guardId == g
    {
      RunGroups(Initial, records, g);
      GroupOf(sleeps, Completions(Initial, records), g);
    }
  }

  /** One key of the map: its list is the guard's share, which is not empty
      and holds only the guard's intervals. */
  lemma GroupOf(sleeps: Sleeps, c: seq<Sleep>, g: GuardId)
    requires sleeps.Keys == GuardsOf(c) && SleepsOf(sleeps, g) == [] + OfGuard(c, g)
    requires g in sleeps
    ensures sleeps[g] == OfGuard(c, g) && sleeps[g] != []
    ensures forall s :: s in sleeps[g] ==> s.guardId == g
  {
    assert [] + OfGuard(c, g) == OfGuard(c, g);
    OfGuardEmpty(c, g);
    OfGuardKeeps(c, g);
  }

  // ---------------------------------------------------------------------------
  // How many, whose, and when
  // ---------------------------------------------------------------------------

  /** The number of `WakesUp` records. */
  function WakeCount(rs: seq<Record>): nat
    decreases |rs|
  {
    if rs == [] then 0
    else WakeCount(rs[..|rs| - 1]) + (if rs[|rs| - 1].info == WakesUp then 1 else 0)
  }

  /** At most one interval per `WakesUp`. */
  lemma {:induction false} CompletionsPerWake(st: Machine, rs: seq<Record>)
    ensures |Completions(st, rs)| <= WakeCount(rs)
    decreases |rs|
  {
    if rs != [] {
      CompletionsPerWake(st, rs[..|rs| - 1]);
    }
  }

  predicate NoShift(rs: seq<Record>)
  {
    forall i :: 0 <= i < |rs| ==> !rs[i].info.BeginShift?
  }

  /** Without a `BeginShift` the guard stays, and every interval completed
      is that guard's. */
  lemma {:induction false} GuardStays(st: Machine, rs: seq<Record>)
    requires NoShift(rs)
    ensures Run(st, rs).guard == st.guard
    ensures forall s :: s in Completions(st, rs) ==> st.guard == Some(s.guardId)
    ensures st.guard.None? ==> Completions(st, rs) == []
    decreases |rs|
  {
    if rs != [] {
      GuardStays(st, rs[..|rs| - 1]);
    }
  }

  /** A known start is the time of a `FallsAsleep` record of the run, when
      the run began without one. */
  lemma {:induction false} StartIsFall(st: Machine, rs: seq<Record>)
    requires st.sleepStart.None?
    ensures Run(st, rs).sleepStart.Some? ==>
      exists i :: 0 <= i < |rs| && rs[i] == Record(Run(st, rs).sleepStart.value, FallsAsleep)
    decreases |rs|
  {
    if rs != [] {
      var init := rs[..|rs| - 1];
      StartIsFall(st, init);
      var t := Run(st, rs).sleepStart;
      if t.Some? && rs[|rs| - 1] != Record(t.value, FallsAsleep) {
        var i :| 0 <= i < |init| && init[i] == Record(t.value, FallsAsleep);
        assert rs[i] == init[i];
      }
    }
  }

  /** Every completed interval runs from a `FallsAsleep` record to a later
      `WakesUp` record. */
  lemma {:induction false} CompletionStamps(st: Machine, rs: seq<Record>)
    requires st.sleepStart.None?
    ensures forall s :: s in Completions(st, rs) ==>
      exists i, k :: 0 <= i < k < |rs| && rs[i] == Record(s.start, FallsAsleep) && rs[k] == Record(s.end, WakesUp)
    decreases |rs|
  {
    if rs != [] {
      var init, last := rs[..|rs| - 1], rs[|rs| - 1];
      CompletionStamps(st, init);
      StartIsFall(st, init);
      forall s | s in Completions(st, rs)
        ensures exists i, k :: 0 <= i < k < |rs| && rs[i] == Record(s.start, FallsAsleep) && rs[k] == Record(s.end, WakesUp)
      {
        if s in Completions(st, init) {
          var i, k :| 0 <= i < k < |init| && init[i] == Record(s.start, FallsAsleep) && init[k] == Record(s.end, WakesUp);
          assert rs[i] == init[i] && rs[k] == init[k];
        } else {
          var i :| 0 <= i < |init| && init[i] == Record(s.start, FallsAsleep);
          assert rs[i] == init[i];
        }
      }
    }
  }

  /** A `BeginShift` resets the machine: every interval completed before the
      next shift is the new guard's, and starts at a `FallsAsleep` of that
      shift, never at one from before it. */
  lemma ShiftOwnsItsSleeps(st: Machine, r: Record, more: seq<Record>)
    requires r.info.BeginShift? && NoShift(more)
    ensures forall s :: s in Completions(Step(st, r), more) ==>
      && s.guardId == r.info.id
      && exists i, k :: 0 <= i < k < |more| && more[i] == Record(s.start, FallsAsleep) && more[k] == Record(s.end, WakesUp)
  {
    GuardStays(Step(st, r), more);
    CompletionStamps(Step(st, r), more);
  }

  /** On records in time order no interval runs backwards. Records at the
      same minute may come in either order, so an interval may be empty. */
  lemma SortedSleeps(rs: seq<Record>)
    requires SortedByTime(rs)
    ensures forall s :: s in Completions(Initial, rs) ==> s.start <= s.end
  {
    CompletionStamps(Initial, rs);
    forall s | s in Completions(Initial, rs) ensures s.start <= s.end {
      var i, k :| 0 <= i < k < |rs| && rs[i] == Record(s.start, FallsAsleep) && rs[k] == Record(s.end, WakesUp);
      assert Compare(rs[i], rs[k]) != Greater;
    }
  }

  /** Before the first shift nobody's intervals are filed, even though a
      `FallsAsleep` sets the start. */
  lemma NoGuardNoSleeps(rs: seq<Record>)
    requires NoShift(rs)
    ensures Completions(Initial, rs) == []
  {
    GuardStays(Initial, rs);
  }

  // ---------------------------------------------------------------------------
  // Small runs that show the machine's choices
  // ---------------------------------------------------------------------------

  /** The loop over three records, one at a time. */
  lemma RunThree(st: Machine, a: Record, b: Record, c: Record)
    ensures Run(st, [a, b, c]) == Step(Step(Step(st, a), b), c)
    ensures Completions(st, [a, b, c]) ==
      var s1 := Step(st, a);
      var s2 := Step(s1, b);
      AsSeq(Completed(st, a)) + AsSeq(Completed(s1, b)) + AsSeq(Completed(s2, c))
  {
    RunTwo(st, a, b);
    RunSnoc(st, [a, b], c);
    assert [a, b] + [c] == [a, b, c];
  }

  /** The loop over two records, one at a time. */
  lemma RunTwo(st: Machine, a: Record, b: Record)
    ensures Run(st, [a, b]) == Step(Step(st, a), b)
    ensures Completions(st, [a, b]) == AsSeq(Completed(st, a)) + AsSeq(Completed(Step(st, a), b))
  {
    RunSnoc(st, [], a);
    RunSnoc(st, [a], b);
    assert [] + [a] == [a] && [a] + [b] == [a, b];
  }

  /** A second `FallsAsleep` replaces the first start. */
  lemma FallTwice(g: GuardId, m: Sleeps, t1: int, t2: int, t3: int)
    ensures Completions(Machine(Some(g), None, m), [Record(t1, FallsAsleep), Record(t2, FallsAsleep), Record(t3, WakesUp)])
         == [Sleep(g, t2, t3)]
  {
    RunThree(Machine(Some(g), None, m), Record(t1, FallsAsleep), Record(t2, FallsAsleep), Record(t3, WakesUp));
  }

  /** A `WakesUp` keeps the start, so a second one files a second interval
      from the same start. */
  lemma WakeTwice(g: GuardId, m: Sleeps, t1: int, t2: int, t3: int)
    ensures Completions(Machine(Some(g), None, m), [Record(t1, FallsAsleep), Record(t2, WakesUp), Record(t3, WakesUp)])
         == [Sleep(g, t1, t2), Sleep(g, t1, t3)]
  {
    RunThree(Machine(Some(g), None, m), Record(t1, FallsAsleep), Record(t2, WakesUp), Record(t3, WakesUp));
  }

  /** A `BeginShift` between a fall and a wake drops the interval. */
  lemma ShiftDropsStart(g: GuardId, h: GuardId, m: Sleeps, t1: int, t2: int, t3: int)
    ensures Completions(Machine(Some(g), None, m), [Record(t1, FallsAsleep), Record(t2, BeginShift(h)), Record(t3, WakesUp)])
         == []
  {
    RunThree(Machine(Some(g), None, m), Record(t1, FallsAsleep), Record(t2, BeginShift(h)), Record(t3, WakesUp));
  }
}
