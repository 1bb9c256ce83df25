/** Day 2, box ids (rust/day-2/src/lib.rs): part 1 counts the ids that hold
    some letter exactly twice and those that hold some letter exactly three
    times and multiplies the two counts; part 2 looks for two ids that differ
    in exactly one position and answers with the characters they share. */
module BoxIds {
  import opened Wrappers
  import opened Text

  // ---------------------------------------------------------------------------
  // Part 1: multiplicity flags
  // ---------------------------------------------------------------------------

  /** The character-count fold of `HasDoubleOrTriple::new`: each character of
      `s` adds one to its entry, a new entry starting at 1. */
  function Tally(s: string): (m: map<char, nat>)
    ensures forall c :: c in m <==> c in s
    ensures forall c :: c in m ==> m[c] == multiset(s)[c]
  {
    if s == [] then map[]
    else
      var prefix := s[..|s| - 1];
      var c := s[|s| - 1];
      var m := Tally(prefix);
      assert s == prefix + [c];
      m[c := if c in m then m[c] + 1 else 1]
  }

  datatype Flags = Flags(hasDouble: bool, hasTriple: bool)

  /** The second fold of `HasDoubleOrTriple::new`, over the counts in the
      order the map hands them out: a 3 sets `has_triple`, a 2 sets
      `has_double`, any other count leaves both as they are. */
  function FoldFlags(counts: seq<nat>): (f: Flags)
    ensures f.hasDouble <==> 2 in counts
    ensures f.hasTriple <==> 3 in counts
  {
    if counts == [] then Flags(false, false)
    else
      var acc := FoldFlags(counts[..|counts| - 1]);
      var v := counts[|counts| - 1];
      assert counts == counts[..|counts| - 1] + [v];
      if v == 3 then Flags(acc.hasDouble, true)
      else if v == 2 then Flags(true, acc.hasTriple)
      else acc
  }

  /** `order` lists every key of `m` (in whatever order the map iterates). */
  predicate Enumerates(order: seq<char>, m: map<char, nat>)
  {
    forall k :: k in m <==> k in order
  }

  /** The values of `m` in the order `order` lists its keys. */
  function ValuesIn(m: map<char, nat>, order: seq<char>): (vs: seq<nat>)
    requires forall k :: k in order ==> k in m
    ensures |vs| == |order| && forall i :: 0 <= i < |order| ==> vs[i] == m[order[i]]
  {
    if order == [] then [] else [m[order[0]]] + ValuesIn(m, order[1..])
  }

  /** The distinct characters of `s`, in order of first occurrence. */
  function FirstOccurrences(s: string): (order: seq<char>)
    ensures forall c :: c in order <==> c in s
  {
    if s == [] then []
    else
      var rest := FirstOccurrences(s[..|s| - 1]);
      assert s == s[..|s| - 1] + [s[|s| - 1]];
      if s[|s| - 1] in rest then rest else rest + [s[|s| - 1]]
  }

  /** `HasDoubleOrTriple::new`: the count fold, then the flag fold over the
      counts, taken here in the order the characters first occur; any other
      order gives the same flags (`FlagsAnyOrder`). */
  function Classify(id: string): Flags
  {
    var m := Tally(id);
    FoldFlags(ValuesIn(m, FirstOccurrences(id)))
  }

  /** Some character occurs exactly `v` times in `id`. */
  predicate Occurs(id: string, v: nat)
  {
    exists c :: c in id && multiset(id)[c] == v
  }

  /** A count of exactly 2 or 3 is among the values listed for a key
      enumeration exactly when some character occurs that many times. */
  lemma CountListed(id: string, order: seq<char>, v: nat)
    requires Enumerates(order, Tally(id))
    ensures v in ValuesIn(Tally(id), order) <==> Occurs(id, v)
  {
    var m := Tally(id);
    var vs := ValuesIn(m, order);
    if v in vs {
      var i :| 0 <= i < |vs| && vs[i] == v;
      assert order[i] in id && multiset(id)[order[i]] == v;
    }
    if Occurs(id, v) {
      var c :| c in id && multiset(id)[c] == v;
      var i :| 0 <= i < |order| && order[i] == c;
      assert vs[i] == v;
    }
  }

  /** The flags say whether some character occurs exactly twice, and whether
      some character occurs exactly three times; a count of four or more sets
      neither flag. */
  lemma ClassifyMeaning(id: string)
    ensures Classify(id).hasDouble <==> Occurs(id, 2)
    ensures Classify(id).hasTriple <==> Occurs(id, 3)
  {
    assert Enumerates(FirstOccurrences(id), Tally(id));
    CountListed(id, FirstOccurrences(id), 2);
    CountListed(id, FirstOccurrences(id), 3);
  }

  /** The order in which the map hands out its counts does not change the
      flags. */
  lemma FlagsAnyOrder(id: string, order: seq<char>)
    requires Enumerates(order, Tally(id))
    ensures FoldFlags(ValuesIn(Tally(id), order)) == Classify(id)
  {
    ClassifyMeaning(id);
    CountListed(id, order, 2);
    CountListed(id, order, 3);
  }

  /** The flag part 1 counts: a triple when `triple`, a double otherwise. */
  predicate HasFlag(id: string, triple: bool)
  {
    if triple then Classify(id).hasTriple else Classify(id).hasDouble
  }

  /** The positions of the ids that have the flag. */
  function IndicesWith(ids: seq<string>, triple: bool): set<nat>
  {
    set k: nat | k < |ids| && HasFlag(ids[k], triple)
  }

  /** Adding an id at the end adds its position when it has the flag. */
  lemma IndicesSnoc(ids: seq<string>, triple: bool)
    requires |ids| > 0
    ensures var n := |ids| - 1;
      IndicesWith(ids, triple) == IndicesWith(ids[..n], triple) + (if HasFlag(ids[n], triple) then {n} else {})
    ensures |ids| - 1 !in IndicesWith(ids[..|ids| - 1], triple)
  {
    var n := |ids| - 1;
    assert forall k :: 0 <= k < n ==> ids[..n][k] == ids[k];
  }

  /** The `(triples, doubles)` fold of `day_2_part_1` over the ids: the
      number of ids with a triple and the number with a double. */
  function CountFlags(ids: seq<string>): (counts: (int, int))
    ensures counts.0 == |IndicesWith(ids, true)|
    ensures counts.1 == |IndicesWith(ids, false)|
  {
    if ids == [] then (0, 0)
    else
      var n := |ids| - 1;
      var acc := CountFlags(ids[..n]);
      var f := Classify(ids[n]);
      IndicesSnoc(ids, true);
      IndicesSnoc(ids, false);
      assert HasFlag(ids[n], true) == f.hasTriple && HasFlag(ids[n], false) == f.hasDouble;
      (if f.hasTriple then acc.0 + 1 else acc.0, if f.hasDouble then acc.1 + 1 else acc.1)
  }

  /** `day_2_part_1`: the number of ids with a triple times the number of ids
      with a double; an id can count towards both. */
  function Checksum(input: string): (r: int)
    ensures r == |IndicesWith(Lines(input), true)| * |IndicesWith(Lines(input), false)|
  {
    var counts := CountFlags(Lines(input));
    counts.0 * counts.1
  }

  /** The number of ids in which some character occurs exactly `v` times,
      counted from the front. */
  function FlagCount(ids: seq<string>, v: nat): (n: nat)
    ensures n <= |ids|
  {
    if ids == [] then 0 else (if Occurs(ids[0], v) then 1 else 0) + FlagCount(ids[1..], v)
  }

  lemma {:induction false} FlagCountSnoc(ids: seq<string>, id: string, v: nat)
    ensures FlagCount(ids + [id], v) == FlagCount(ids, v) + (if Occurs(id, v) then 1 else 0)
  {
    if ids == [] {
      assert ([] + [id])[1..] == [];
    } else {
      assert (ids + [id])[1..] == ids[1..] + [id];
      FlagCountSnoc(ids[1..], id, v);
    }
  }

  /** The fold of part 1 counts the ids with a character occurring exactly
      three times, and those with one occurring exactly twice. */
  lemma {:induction false} CountFlagsIsFlagCount(ids: seq<string>)
    ensures CountFlags(ids) == (FlagCount(ids, 3), FlagCount(ids, 2))
  {
    if ids != [] {
      var n := |ids| - 1;
      CountFlagsIsFlagCount(ids[..n]);
      assert ids == ids[..n] + [ids[n]];
      FlagCountSnoc(ids[..n], ids[n], 3);
      FlagCountSnoc(ids[..n], ids[n], 2);
      ClassifyMeaning(ids[n]);
    }
  }

  /** The checksum of ids written one per line. */
  lemma ChecksumOfIds(ids: seq<string>)
    requires forall k :: 0 <= k < |ids| ==> PlainLine(ids[k])
    ensures Checksum(Unlines(ids)) == FlagCount(ids, 3) * FlagCount(ids, 2)
  {
    LinesOfUnlines(ids);
    CountFlagsIsFlagCount(ids);
  }

  // ---------------------------------------------------------------------------
  // Part 2: near matches
  // ---------------------------------------------------------------------------

  /** Bytes of `c` in UTF-8, the unit of Rust's `str::len`. */
  function Utf8Width(c: char): (w: nat)
    ensures 1 <= w <= 4
  {
    if c as int < 0x80 then 1
    else if c as int < 0x800 then 2
    else if c as int < 0x1_0000 then 3
    else 4
  }

  /** `str::len`: the length of `s` in UTF-8 bytes. */
  function ByteLen(s: string): (n: nat)
    ensures n >= |s|
  {
    if s == [] then 0 else Utf8Width(s[0]) + ByteLen(s[1..])
  }

  lemma {:induction false} ByteLenAppend(a: string, b: string)
    ensures ByteLen(a + b) == ByteLen(a) + ByteLen(b)
  {
    if a != [] {
      assert (a + b)[0] == a[0];
      assert (a + b)[1..] == a[1..] + b;
      ByteLenAppend(a[1..], b);
      assert ByteLen(a + b) == Utf8Width(a[0]) + ByteLen(a[1..] + b);
    } else {
      assert a + b == b;
    }
  }

  /** The `zip`/`flat_map` of `day_2_part_2`: walking both ids side by side
      as far as the shorter one goes, the characters that agree. */
  function Common(a: string, b: string): (r: string)
    ensures |r| <= |a| && |r| <= |b|
  {
    if a == [] || b == [] then []
    else if a[0] == b[0] then [a[0]] + Common(a[1..], b[1..])
    else Common(a[1..], b[1..])
  }

  /** The kept characters never have more bytes than the id, so the `usize`
      subtraction `id.len() - res.len()` cannot underflow. */
  lemma {:induction false} CommonBytes(a: string, b: string)
    ensures ByteLen(Common(a, b)) <= ByteLen(a)
  {
    if a != [] && b != [] {
      CommonBytes(a[1..], b[1..]);
    }
  }

  /** When no byte is lost, nothing was dropped. */
  lemma {:induction false} CommonKeepsAll(a: string, b: string)
    requires ByteLen(Common(a, b)) == ByteLen(a)
    ensures Common(a, b) == a
  {
    if a != [] && b != [] {
      CommonBytes(a[1..], b[1..]);
      if a[0] == b[0] {
        CommonKeepsAll(a[1..], b[1..]);
      }
    }
  }

  /** The test `id.len() - res.len() == 1` of `day_2_part_2`. */
  predicate NearPair(id: string, other: string)
  {
    ByteLen(id) - ByteLen(Common(id, other)) == 1
  }

  /** `s` with the character at `k` taken out. */
  function Without(s: string, k: nat): (r: string)
    requires k < |s|
    ensures |r| == |s| - 1
  {
    s[..k] + s[k + 1..]
  }

  /** A pair is a near pair exactly when the shared characters are the first
      id with a single one-byte character taken out. */
  lemma NearPairMeaning(id: string, other: string)
    ensures NearPair(id, other) <==>
      exists k :: 0 <= k < |id| && Utf8Width(id[k]) == 1 && Common(id, other) == Without(id, k)
  {
    if NearPair(id, other) {
      var k := NearPairDrop(id, other);
    }
    if exists k :: 0 <= k < |id| && Utf8Width(id[k]) == 1 && Common(id, other) == Without(id, k) {
      var k :| 0 <= k < |id| && Utf8Width(id[k]) == 1 && Common(id, other) == Without(id, k);
      ByteLenAppend(id[..k], id[k + 1..]);
      ByteLenAppend(id[..k], id[k..]);
      assert id[..k] + id[k..] == id;
      assert id[k..] == [id[k]] + id[k + 1..];
    }
  }

  /** The position a near pair drops. */
  lemma {:induction false} NearPairDrop(id: string, other: string) returns (k: nat)
    requires NearPair(id, other)
    ensures k < |id| && Utf8Width(id[k]) == 1 && Common(id, other) == Without(id, k)
  {
    if other == [] {
      assert id[1..] == [] by {
        assert ByteLen(id) == Utf8Width(id[0]) + ByteLen(id[1..]);
      }
      k := 0;
    } else if id[0] == other[0] {
      var k' := NearPairDrop(id[1..], other[1..]);
      k := k' + 1;
      assert Without(id, k) == [id[0]] + Without(id[1..], k');
    } else {
      CommonBytes(id[1..], other[1..]);
      CommonKeepsAll(id[1..], other[1..]);
      k := 0;
    }
  }

  /** An id never pairs with itself: nothing is lost. */
  lemma {:induction false} SelfNotNear(id: string)
    ensures Common(id, id) == id
    ensures !NearPair(id, id)
  {
    if id != [] {
      SelfNotNear(id[1..]);
    }
  }

  /** A position where the ids disagree costs at least one byte. */
  lemma {:induction false} Mismatch(a: string, b: string, p: nat)
    requires p < |a| && p < |b| && a[p] != b[p]
    ensures ByteLen(Common(a, b)) + 1 <= ByteLen(a)
  {
    CommonBytes(a[1..], b[1..]);
    if p > 0 {
      Mismatch(a[1..], b[1..], p - 1);
    }
  }

  /** Two positions where the ids disagree rule the pair out. */
  lemma {:induction false} TwoMismatches(a: string, b: string, p: nat, q: nat)
    requires p < q < |a| && q < |b| && a[p] != b[p] && a[q] != b[q]
    ensures ByteLen(Common(a, b)) + 2 <= ByteLen(a)
    ensures !NearPair(a, b)
  {
    if p == 0 {
      Mismatch(a[1..], b[1..], q - 1);
    } else {
      TwoMismatches(a[1..], b[1..], p - 1, q - 1);
    }
  }

  /** `(i, j)` is the first pair, in the order the two loops visit them
      (outer `i`, inner `j`), that passes the test. */
  predicate IsFirstNearPair(ids: seq<string>, i: int, j: int)
  {
    0 <= i < |ids| && 0 <= j < |ids| && NearPair(ids[i], ids[j]) &&
    (forall i', j' :: 0 <= i' < i && 0 <= j' < |ids| ==> !NearPair(ids[i'], ids[j'])) &&
    (forall j' :: 0 <= j' < j ==> !NearPair(ids[i], ids[j']))
  }

  /** `day_2_part_2`: the common characters of the first near pair, or
      `None` where the source reaches `unimplemented!`. */
  method CommonOfNearPair(input: string) returns (r: Option<string>)
    ensures var ids := Lines(input);
      r.None? <==> forall i, j :: 0 <= i < |ids| && 0 <= j < |ids| ==> !NearPair(ids[i], ids[j])
    ensures var ids := Lines(input);
      r.Some? ==> exists i, j :: IsFirstNearPair(ids, i, j) && r.value == Common(ids[i], ids[j])
  {
    var ids := Lines(input);
    var i := 0;
    while i < |ids|
      invariant 0 <= i <= |ids|
      invariant forall i', j' :: 0 <= i' < i && 0 <= j' < |ids| ==> !NearPair(ids[i'], ids[j'])
    {
      var j := 0;
      while j < |ids|
        invariant 0 <= j <= |ids|
        invariant forall j' :: 0 <= j' < j ==> !NearPair(ids[i], ids[j'])
      {
        var res := Common(ids[i], ids[j]);
        CommonBytes(ids[i], ids[j]);
        if ByteLen(ids[i]) - ByteLen(res) == 1 {
          assert IsFirstNearPair(ids, i, j);
          return Some(res);
        }
        j := j + 1;
      }
      i := i + 1;
    }
    return None;
  }

  /** Whatever `day_2_part_2` answers is one of the ids with exactly one
      one-byte character taken out. */
  lemma AnswerIsIdMinusOne(ids: seq<string>, i: int, j: int)
    requires IsFirstNearPair(ids, i, j)
    ensures exists k :: 0 <= k < |ids[i]| && Common(ids[i], ids[j]) == Without(ids[i], k)
    ensures |Common(ids[i], ids[j])| == |ids[i]| - 1
    ensures i != j
  {
    NearPairMeaning(ids[i], ids[j]);
    SelfNotNear(ids[i]);
  }

  /** The first near pair is unique. */
  lemma FirstNearPairUnique(ids: seq<string>, i: int, j: int, i': int, j': int)
    requires IsFirstNearPair(ids, i, j) && IsFirstNearPair(ids, i', j')
    ensures i == i' && j == j'
  {
  }

  // ---------------------------------------------------------------------------
  // The examples of the test module (the puzzle's published example lists:
  // checksum 12, common letters "fgij")
  // ---------------------------------------------------------------------------

  lemma ExampleId1()
    ensures !Occurs("abcdef", 2) && !Occurs("abcdef", 3)
  {
    assert forall c :: multiset("abcdef")[c] <= 1;
  }

  lemma ExampleId2()
    ensures Occurs("bababc", 2) && Occurs("bababc", 3)
  {
    assert multiset("bababc")['a'] == 2 && multiset("bababc")['b'] == 3;
  }

  lemma ExampleId3()
    ensures Occurs("abbcde", 2) && !Occurs("abbcde", 3)
  {
    assert forall c :: multiset("abbcde")[c] <= 2;
    assert multiset("abbcde")['b'] == 2;
  }

  lemma ExampleId4()
    ensures !Occurs("abcccd", 2) && Occurs("abcccd", 3)
  {
    assert forall c :: multiset("abcccd")[c] == 3 || multiset("abcccd")[c] <= 1;
    assert multiset("abcccd")['c'] == 3;
  }

  lemma ExampleId5()
    ensures Occurs("aabcdd", 2) && !Occurs("aabcdd", 3)
  {
    assert forall c :: multiset("aabcdd")[c] <= 2;
    assert multiset("aabcdd")['a'] == 2;
  }

  lemma ExampleId6()
    ensures Occurs("abcdee", 2) && !Occurs("abcdee", 3)
  {
    assert forall c :: multiset("abcdee")[c] <= 2;
    assert multiset("abcdee")['e'] == 2;
  }

  lemma ExampleId7()
    ensures !Occurs("ababab", 2) && Occurs("ababab", 3)
  {
    assert forall c :: multiset("ababab")[c] == 3 || multiset("ababab")[c] == 0;
    assert multiset("ababab")['a'] == 3;
  }

  /** Three of the example ids have a triple. */
  lemma ExampleTriples()
    ensures FlagCount(["abcdef", "bababc", "abbcde", "abcccd", "aabcdd", "abcdee", "ababab"], 3) == 3
  {
    ExampleId1();
    ExampleId2();
    ExampleId3();
    ExampleId4();
    ExampleId5();
    ExampleId6();
    ExampleId7();
  }

  /** Four of the example ids have a double. */
  lemma ExampleDoubles()
    ensures FlagCount(["abcdef", "bababc", "abbcde", "abcccd", "aabcdd", "abcdee", "ababab"], 2) == 4
  {
    ExampleId1();
    ExampleId2();
    ExampleId3();
    ExampleId4();
    ExampleId5();
    ExampleId6();
    ExampleId7();
  }

  lemma ChecksumExample()
    ensures Checksum(Unlines(["abcdef", "bababc", "abbcde", "abcccd", "aabcdd", "abcdee", "ababab"])) == 12
  {
    var ids := ["abcdef", "bababc", "abbcde", "abcccd", "aabcdd", "abcdee", "ababab"];
    forall k | 0 <= k < |ids| ensures PlainLine(ids[k]) {
      if k == 0 { } else if k == 1 { } else if k == 2 { } else if k == 3 { } else if k == 4 { } else if k == 5 { } else { }
    }
    ChecksumOfIds(ids);
    ExampleTriples();
    ExampleDoubles();
  }

  /** The example's near pair: "fghij" and "fguij" share "fgij". */
  lemma ExampleNearPair()
    ensures NearPair("fghij", "fguij") && Common("fghij", "fguij") == "fgij"
  {
  }

  /** No pair with the first example id passes the test. */
  lemma ExampleFirstRow()
    ensures forall j :: 0 <= j < 7 ==> !NearPair(["abcde", "fghij", "klmno", "pqrst", "fguij", "axcye", "wvxyz"][0], ["abcde", "fghij", "klmno", "pqrst", "fguij", "axcye", "wvxyz"][j])
  {
    var ids := ["abcde", "fghij", "klmno", "pqrst", "fguij", "axcye", "wvxyz"];
    forall j | 0 <= j < |ids| ensures !NearPair(ids[0], ids[j]) {
      if j == 0 { SelfNotNear(ids[0]); } else if j == 1 { TwoMismatches(ids[0], ids[1], 0, 1); } else if j == 2 { TwoMismatches(ids[0], ids[2], 0, 1); } else if j == 3 { TwoMismatches(ids[0], ids[3], 0, 1); } else if j == 4 { TwoMismatches(ids[0], ids[4], 0, 1); } else if j == 5 { TwoMismatches(ids[0], ids[5], 1, 3); } else { TwoMismatches(ids[0], ids[6], 0, 1); }
    }
  }

  /** The second example id pairs with none of the first four. */
  lemma ExampleSecondRow()
    ensures forall j :: 0 <= j < 4 ==> !NearPair(["abcde", "fghij", "klmno", "pqrst", "fguij", "axcye", "wvxyz"][1], ["abcde", "fghij", "klmno", "pqrst", "fguij", "axcye", "wvxyz"][j])
  {
    var ids := ["abcde", "fghij", "klmno", "pqrst", "fguij", "axcye", "wvxyz"];
    forall j | 0 <= j < 4 ensures !NearPair(ids[1], ids[j]) {
      if j == 0 { TwoMismatches(ids[1], ids[0], 0, 1); } else if j == 1 { SelfNotNear(ids[1]); } else if j == 2 { TwoMismatches(ids[1], ids[2], 0, 1); } else { TwoMismatches(ids[1], ids[3], 0, 1); }
    }
  }

  /** In the example, the first pair the loops accept is the second id with
      the fifth. */
  lemma NearMatchExample()
    ensures IsFirstNearPair(["abcde", "fghij", "klmno", "pqrst", "fguij", "axcye", "wvxyz"], 1, 4)
    ensures Common(["abcde", "fghij", "klmno", "pqrst", "fguij", "axcye", "wvxyz"][1], ["abcde", "fghij", "klmno", "pqrst", "fguij", "axcye", "wvxyz"][4]) == "fgij"
  {
    ExampleNearPair();
    ExampleFirstRow();
    ExampleSecondRow();
  }

  /** The example ids written one per line split back into the ids. */
  lemma ExampleNearText()
    ensures Lines(Unlines(["abcde", "fghij", "klmno", "pqrst", "fguij", "axcye", "wvxyz"])) == ["abcde", "fghij", "klmno", "pqrst", "fguij", "axcye", "wvxyz"]
  {
    var ids := ["abcde", "fghij", "klmno", "pqrst", "fguij", "axcye", "wvxyz"];
    forall k | 0 <= k < |ids| ensures PlainLine(ids[k]) {
      if k == 0 { } else if k == 1 { } else if k == 2 { } else if k == 3 { } else if k == 4 { } else if k == 5 { } else { }
    }
    LinesOfUnlines(ids);
  }

  /** Whatever first near pair the example has shares "fgij". */
  lemma ExampleAnswer()
    ensures forall i, j :: IsFirstNearPair(["abcde", "fghij", "klmno", "pqrst", "fguij", "axcye", "wvxyz"], i, j) ==> Common(["abcde", "fghij", "klmno", "pqrst", "fguij", "axcye", "wvxyz"][i], ["abcde", "fghij", "klmno", "pqrst", "fguij", "axcye", "wvxyz"][j]) == "fgij"
  {
    NearMatchExample();
    forall i, j | IsFirstNearPair(["abcde", "fghij", "klmno", "pqrst", "fguij", "axcye", "wvxyz"], i, j) ensures i == 1 && j == 4 {
      FirstNearPairUnique(["abcde", "fghij", "klmno", "pqrst", "fguij", "axcye", "wvxyz"], i, j, 1, 4);
    }
  }

  /** `day_2_part_2` on the example answers "fgij". */
  method CommonOfNearPairExample()
  {
    var ids := ["abcde", "fghij", "klmno", "pqrst", "fguij", "axcye", "wvxyz"];
    ExampleNearText();
    ExampleAnswer();
    var r := CommonOfNearPair(Unlines(ids));
    assert r.Some? by {
      ExampleNearPair();
      assert NearPair(ids[1], ids[4]);
    }
    assert r == Some("fgij");
  }
}
