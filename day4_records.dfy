/** The records of the guard log of day 4 (rust/day-4/src/lib.rs): one line
    `[<timestamp>] <body>` per event, where the body is a guard beginning a
    shift, falling asleep or waking up.

    A timestamp is modelled as a whole number of minutes. The calendar text
    `%Y-%m-%d %H:%M` and its conversion, done by chrono, are a parameter
    `stamp` of the parser; everything after parsing uses only the order of
    timestamps, their differences and their minute of the hour. */
module GuardRecords {
  import opened Wrappers
  import opened Text

  /** `GuardId`, a `u32`. */
  type GuardId = nat

  /** `RecordInfo`. */
  datatype RecordInfo = BeginShift(id: GuardId) | FallsAsleep | WakesUp

  /** `Record`: when, in minutes, and what. */
  datatype Record = Record(timestamp: int, info: RecordInfo)

  /** `DateTime::minute`: the minute of the hour. */
  function Minute(t: int): (m: nat)
    ensures m < 60
  {
    t % 60
  }

  // ---------------------------------------------------------------------------
  // RecordInfo::from_str
  // ---------------------------------------------------------------------------

  const GuardPrefix: string := "Guard #"
  const ShiftSuffix: string := " begins shift"

  /** `RecordInfo::from_str`: the two fixed bodies, or a guard beginning a
      shift. A body of another shape panics in the source (`unwrap`,
      `expect`) and gives `None` here. */
  function ParseInfo(s: string): (r: Option<RecordInfo>)
    ensures r == Some(FallsAsleep) <==> s == "falls asleep"
    ensures r == Some(WakesUp) <==> s == "wakes up"
    ensures r.Some? && r.value.BeginShift? ==>
      exists digits :: s == GuardPrefix + digits + ShiftSuffix && IsGuardNumber(digits, r.value.id)
    ensures (exists digits, id :: s == GuardPrefix + digits + ShiftSuffix && IsGuardNumber(digits, id)) ==>
      r.Some? && r.value.BeginShift?
  {
    if s == "falls asleep" then Some(FallsAsleep)
    else if s == "wakes up" then Some(WakesUp)
    else
      var id :- ParseGuard(s);
      Some(BeginShift(id))
  }

  /** The shift pattern: the whole body is `"Guard #"`, a run of digits and
      `" begins shift"`, the digits read as a `u32`. A digit outside ASCII
      matches the pattern's digit class but fails the `u32` parse, so only
      ASCII digits give an id. */
  function ParseGuard(s: string): (r: Option<GuardId>)
    ensures r.Some? ==> |s| > 0 && s[0] == 'G'
    ensures r.Some? ==> exists digits :: s == GuardPrefix + digits + ShiftSuffix && IsGuardNumber(digits, r.value)
    ensures (exists digits, id :: s == GuardPrefix + digits + ShiftSuffix && IsGuardNumber(digits, id)) ==> r.Some?
  {
    GuardShape(s);
    if |s| > |GuardPrefix| + |ShiftSuffix| && s[..|GuardPrefix|] == GuardPrefix
       && s[|s| - |ShiftSuffix|..] == ShiftSuffix then
      var digits := s[|GuardPrefix|..|s| - |ShiftSuffix|];
      SplitThree(s, |GuardPrefix|, |s| - |ShiftSuffix|);
      if AllDigits(digits) && DigitsValue(digits) <= U32_MAX then
        assert s[0] == s[..|GuardPrefix|][0];
        Some(DigitsValue(digits))
      else
        None
    else
      None
  }

  /** A text is its three pieces. */
  lemma SplitThree(s: string, i: nat, j: nat)
    requires i <= j <= |s|
    ensures s == s[..i] + s[i..j] + s[j..]
  {
  }

  /** `digits` spells the id `id`, which fits a `u32`. */
  predicate IsGuardNumber(digits: string, id: nat)
  {
    digits != [] && AllDigits(digits) && DigitsValue(digits) == id && id <= U32_MAX
  }

  /** A body built from the prefix, some digits and the suffix shows all
      three. */
  lemma GuardShape(s: string)
    ensures forall d :: s == GuardPrefix + d + ShiftSuffix ==>
      && |s| == |GuardPrefix| + |d| + |ShiftSuffix|
      && s[..|GuardPrefix|] == GuardPrefix
      && s[|s| - |ShiftSuffix|..] == ShiftSuffix
      && d == s[|GuardPrefix|..|s| - |ShiftSuffix|]
  {
    forall d | s == GuardPrefix + d + ShiftSuffix
      ensures s[..|GuardPrefix|] == GuardPrefix
      ensures s[|s| - |ShiftSuffix|..] == ShiftSuffix
      ensures d == s[|GuardPrefix|..|s| - |ShiftSuffix|]
    {
    }
  }

  /** The body of a shift reads back its id. */
  lemma ParseShift(id: nat)
    requires id <= U32_MAX
    ensures ParseInfo(GuardPrefix + Decimal(id) + ShiftSuffix) == Some(BeginShift(id))
  {
    DecimalRoundTrip(id);
    var s := GuardPrefix + Decimal(id) + ShiftSuffix;
    assert IsGuardNumber(Decimal(id), id);
    assert s != "falls asleep" && s != "wakes up" by {
      assert s[0] == 'G';
    }
  }

  // ---------------------------------------------------------------------------
  // Record::from_str
  // ---------------------------------------------------------------------------

  /** The greatest `j` with `1 <= j < hi` at which `"] "` starts, if any. */
  function LastClose(s: string, hi: nat): (j: Option<nat>)
    requires hi < |s|
    ensures j.Some? ==> 1 <= j.value < hi && s[j.value] == ']' && s[j.value + 1] == ' '
    ensures j.Some? ==> forall i :: j.value < i < hi ==> !(s[i] == ']' && s[i + 1] == ' ')
    ensures j.None? ==> forall i :: 1 <= i < hi ==> !(s[i] == ']' && s[i + 1] == ' ')
  {
    if hi <= 1 then None
    else if s[hi - 1] == ']' && s[hi] == ' ' then Some(hi - 1)
    else LastClose(s, hi - 1)
  }

  /** `Record::from_str`: the whole line is `'['`, the timestamp text,
      `"] "` and the body; the timestamp goes through `stamp` and the body
      through `ParseInfo`. The timestamp's part of the
      pattern is greedy, so it runs to the last `"] "` of the line; neither
      part matches a line break, so a text with one matches nothing.
      Every failure panics in the source and is `None` here. */
  function ParseRecord(s: string, stamp: string -> Option<int>): (r: Option<Record>)
    ensures r.Some? ==> '\n' !in s && |s| >= 3 && s[0] == '['
  {
    if |s| < 3 || s[0] != '[' || '\n' in s then None
    else
      match LastClose(s, |s| - 1)
      case None => None
      case Some(j) =>
        var t :- stamp(s[1..j]);
        var info :- ParseInfo(s[j + 2..]);
        Some(Record(t, info))
  }

  /** A line made of a timestamp and a body without `']'` splits between
      them, whatever the timestamp holds. */
  lemma ParseRecordOf(ts: string, body: string, stamp: string -> Option<int>)
    requires '\n' !in ts && '\n' !in body && ']' !in body
    ensures var r := ParseRecord("[" + ts + "] " + body, stamp);
      && (r.Some? <==> stamp(ts).Some? && ParseInfo(body).Some?)
      && (r.Some? ==> r.value == Record(stamp(ts).value, ParseInfo(body).value))
  {
    var s := "[" + ts + "] " + body;
    var j := |ts| + 1;
    assert s[j] == ']' && s[j + 1] == ' ';
    forall i | j < i < |s| - 1 ensures !(s[i] == ']' && s[i + 1] == ' ') {
      if i > j + 1 {
        assert s[i] == body[i - j - 2];
      }
    }
    assert '\n' !in s by {
      forall i | 0 <= i < |s| ensures s[i] != '\n' {
        if 1 <= i < j {
          assert s[i] == ts[i - 1];
        } else if j + 2 <= i {
          assert s[i] == body[i - j - 2];
        }
      }
    }
    assert LastClose(s, |s| - 1) == Some(j);
    assert s[1..j] == ts && s[j + 2..] == body;
  }

  /** The timestamp takes every `"] "` but the last. */
  lemma GreedyTimestamp(stamp: string -> Option<int>)
    requires stamp("a] b").Some?
    ensures ParseRecord("[a] b] wakes up", stamp) == Some(Record(stamp("a] b").value, WakesUp))
  {
    ParseRecordOf("a] b", "wakes up", stamp);
    assert "[" + "a] b" + "] " + "wakes up" == "[a] b] wakes up";
  }

  // ---------------------------------------------------------------------------
  // Ord and PartialEq for Record
  // ---------------------------------------------------------------------------

  datatype Ordering = Less | Equal | Greater

  /** `Record::cmp`: by timestamp alone. */
  function Compare(a: Record, b: Record): (o: Ordering)
    ensures o == Less <==> a.timestamp < b.timestamp
    ensures o == Equal <==> a.timestamp == b.timestamp
    ensures o == Greater <==> a.timestamp > b.timestamp
  {
    if a.timestamp < b.timestamp then Less
    else if a.timestamp == b.timestamp then Equal
    else Greater
  }

  /** `Record::eq`: by timestamp alone. */
  predicate Same(a: Record, b: Record)
  {
    a.timestamp == b.timestamp
  }

  /** The order ignores what happened: two records at the same minute are
      equal to `==` and to `cmp` whatever their bodies. */
  lemma OrderIgnoresInfo(a: Record, b: Record, a': Record, b': Record)
    requires a'.timestamp == a.timestamp && b'.timestamp == b.timestamp
    ensures Compare(a', b') == Compare(a, b)
    ensures Same(a', b') == Same(a, b)
    ensures Same(a, b) <==> Compare(a, b) == Equal
  {
  }

  /** `Ord` is a total order up to `Same`: antisymmetric and transitive. */
  lemma CompareIsOrder(a: Record, b: Record, c: Record)
    ensures Compare(a, b) == Less <==> Compare(b, a) == Greater
    ensures Compare(a, b) != Greater && Compare(b, c) != Greater ==> Compare(a, c) != Greater
  {
  }

  /** Two different events at one minute are `==`. */
  lemma SameMinuteDifferentEvents(t: int)
    ensures Same(Record(t, FallsAsleep), Record(t, WakesUp))
    ensures Record(t, FallsAsleep) != Record(t, WakesUp)
  {
  }

  // ---------------------------------------------------------------------------
  // parse_records
  // ---------------------------------------------------------------------------

  /** Never `Greater` from left to right. */
  predicate SortedByTime(rs: seq<Record>)
  {
    forall i, j :: 0 <= i < j < |rs| ==> Compare(rs[i], rs[j]) != Greater
  }

  /** The non-empty lines through `Record::from_str`, in input order. */
  function ParseLines(input: string, stamp: string -> Option<int>): Option<seq<Record>>
  {
    ParseAll(NonEmpty(Lines(input)), s => ParseRecord(s, stamp))
  }

  /** `parse_records`: the non-empty lines parsed, then sorted in place by
      timestamp. Records at the same minute may end up in any order, as
      with `sort_unstable`. */
  method ParseRecords(input: string, stamp: string -> Option<int>) returns (records: Option<seq<Record>>)
    ensures records.None? <==> ParseLines(input, stamp).None?
    ensures records.Some? ==> SortedByTime(records.value)
    ensures records.Some? ==> multiset(records.value) == multiset(ParseLines(input, stamp).value)
  {
    var parsed := ParseLines(input, stamp);
    if parsed.None? {
      return None;
    }
    var a := new Record[|parsed.value|](i requires 0 <= i < |parsed.value| => parsed.value[i]);
    assert a[..] == parsed.value;
    SortRecords(a);
    return Some(a[..]);
  }

  /** `sort_unstable` on the records: an insertion sort, in place. */
  method SortRecords(a: array<Record>)
    modifies a
    ensures SortedByTime(a[..])
    ensures multiset(a[..]) == multiset(old(a[..]))
  {
    var i := 0;
    while i < a.Length
      invariant i <= a.Length
      invariant SortedByTime(a[..i])
      invariant multiset(a[..]) == multiset(old(a[..]))
    {
      InsertRecord(a, i);
      i := i + 1;
    }
  }

  /** While `a[i]` moves left: the records up to `i` other than the one at
      `j` are in time order, and the one at `j` is earlier than every
      record after it up to `i`. */
  ghost predicate Placed(s: seq<Record>, i: nat, j: nat)
    requires j <= i < |s|
  {
    && (forall p, q :: 0 <= p < q <= i && p != j && q != j ==> s[p].timestamp <= s[q].timestamp)
    && (forall q :: j < q <= i ==> s[j].timestamp < s[q].timestamp)
  }

  /** Swapping the moving record with a later-stamped left neighbour. */
  lemma PlacedSwap(before: seq<Record>, after: seq<Record>, i: nat, j: nat)
    requires 0 < j <= i < |before| && Placed(before, i, j)
    requires before[j - 1].timestamp > before[j].timestamp
    requires after == before[j - 1 := before[j]][j := before[j - 1]]
    ensures Placed(after, i, j - 1)
    ensures multiset(after) == multiset(before)
  {
  }

  /** Where the moving record stops, the records up to `i` are sorted. */
  lemma PlacedDone(s: seq<Record>, i: nat, j: nat)
    requires j <= i < |s| && Placed(s, i, j)
    requires j == 0 || s[j - 1].timestamp <= s[j].timestamp
    ensures SortedByTime(s[..i + 1])
  {
    forall p, q | 0 <= p < q <= i ensures s[p].timestamp <= s[q].timestamp {
      if q == j && p < j - 1 {
        assert s[p].timestamp <= s[j - 1].timestamp;
      }
    }
  }

  /** Sorted records stay sorted, whatever follows them. */
  lemma PlacedStart(s: seq<Record>, i: nat)
    requires i < |s| && SortedByTime(s[..i])
    ensures Placed(s, i, i)
  {
    forall p, q | 0 <= p < q < i ensures s[p].timestamp <= s[q].timestamp {
      assert Compare(s[..i][p], s[..i][q]) != Greater;
    }
  }

  /** Moves `a[i]` left past every later-stamped record of the sorted
      `a[..i]`. */
  method InsertRecord(a: array<Record>, i: nat)
    requires i < a.Length && SortedByTime(a[..i])
    modifies a
    ensures SortedByTime(a[..i + 1])
    ensures a[i + 1..] == old(a[i + 1..])
    ensures multiset(a[..]) == multiset(old(a[..]))
  {
    var j := i;
    PlacedStart(a[..], i);
    while j > 0 && a[j - 1].timestamp > a[j].timestamp
      invariant 0 <= j <= i
      invariant Placed(a[..], i, j)
      invariant a[i + 1..] == old(a[i + 1..])
      invariant multiset(a[..]) == multiset(old(a[..]))
    {
      ghost var before := a[..];
      a[j - 1], a[j] := a[j], a[j - 1];
      PlacedSwap(before, a[..], i, j);
      j := j - 1;
    }
    PlacedDone(a[..], i, j);
  }
}
