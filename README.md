# Advent of Code 2018, days 1 to 4: a verified model

This project models four small puzzle solvers written in Rust. Each one reads
a puzzle text line by line and reduces it to a number or a string. The model
proves that the answers mean what the puzzles ask for.

- **Day 4, guard sleep log** (`day4_records.dfy`, `day4_shifts.dfy`,
  `day4_stats.dfy`, `day4_example.dfy`). This is the largest part.
  - Each line is `[timestamp] body`. The body is one of three events: a
    guard beginning a shift, falling asleep or waking up.
  - The records are sorted in place by timestamp.
  - The state machine `sleeps_by_guard` tracks the guard on shift and the
    last sleep start. It files one sleep interval for every wake that has
    both.
  - A minute-of-the-hour histogram gives each guard's most-slept minute.
  - Two selectors pick the guard who slept longest and the guard most often
    asleep on one minute. Each part answers that guard's id times a minute.
- **Day 3, fabric claims** (`day3.dfy`).
  - Claims `#id @ x,y: wxh` are parsed by a hand-written version of the
    claim pattern.
  - A y-then-x loop nest marks every cell with its first claimant. It also
    collects the cells and the claim ids that meet another claim.
  - The answer is the number of contested cells and some uncontested id.
- **Day 2, box ids** (`day2.dfy`).
  - The checksum multiplies two counts: the ids with a character occurring
    exactly three times, and those with one occurring exactly twice.
  - A double loop finds the first pair of ids whose position-wise common
    characters are one byte shorter than the id.
- **Day 1, frequency drift** (`day1.dfy`).
  - Part 1 sums the signed changes.
  - Part 2 cycles the list until a running total repeats. A `seen` set
    holds the totals so far.

Shared pieces:

- `text.dfy` covers three Rust library behaviours the solvers rely on:
  - `str::lines`, as a function with its round trips;
  - filtering out empty lines and parsing every line, where one failure
    fails the lot;
  - `u32`, `usize` and `i32` parsing from decimal text.
- `wrappers.dfy` holds the `Option` type.

Every panic of the source (`expect`, `unwrap`, `unreachable!`,
`unimplemented!`) is an error result in the model. Where a loop in the
source updates state, the model is a method with a loop. Each such method is
proved against a function. The properties are proved about those functions.

Behaviours of the code that the model keeps as written:

- A wake keeps the sleep start, so a second wake files a second interval
  from the same start.
- A fall sets the start even with no guard on shift.
- The sort is `sort_unstable`. Records at the same minute may come out in
  any order.
- An interval only satisfies `start <= end`. The source allows empty
  intervals.
- The two day-4 parts answer `0` when there is no answer.

## Model

| member | source | states |
|---|---|---|
| Text.Lines | rust/day-4/src/lib.rs:125 | `str::lines`: no line holds a line break, and there are no lines exactly when the text is empty |
| Text.LinesOfUnlines | rust/day-2/src/lib.rs:6 | lines each followed by a newline split back into exactly those lines |
| Text.LinesOfJoinLines | rust/day-1/src/lib.rs:25 | lines joined by newlines, the last one not empty, split back into exactly those lines |
| Text.LinesOfOneLine | rust/day-2/src/lib.rs:69 | a non-empty text without a line break is a single line |
| Text.NonEmpty | rust/day-4/src/lib.rs:126 | the filter keeps exactly the non-empty lines and never lengthens the list |
| Text.NonEmptyKeepsAll | rust/day-1/src/lib.rs:25 | when no line is empty, the filter keeps every line in order |
| Text.ParseAll | rust/day-4/src/lib.rs:127-128 | the `map(parse).collect()` of the solvers: one value per line, each the parse of its line, and a failure exactly when some line fails |
| Text.ParseAllOf | rust/day-3/src/lib.rs:17-20 | when every line parses to a given value, the lot parses to those values in order |
| Text.ParseUnsigned | rust/day-4/src/lib.rs:117 | unsigned `from_str` succeeds only on an optional `+` and ASCII digits, with a value within the type's maximum |
| Text.ParseUnsignedDecimal | rust/day-3/src/lib.rs:65-69 | the decimal spelling of a number, with or without `+`, reads back exactly when it fits the type |
| Text.ParseSigned | rust/day-1/src/lib.rs:26 | `i32::from_str` succeeds only on an optional sign and ASCII digits, with a value in range |
| Text.ParseSignedRoundTrip | rust/day-1/src/lib.rs:26 | every value in range reads back from its spelling, and a non-negative one also with a leading `+` |
| Text.DecimalRoundTrip | rust/day-1/src/lib.rs:26 | the digits of a number's decimal spelling have that number as their value |
| Frequency.ParseChanges | rust/day-1/src/lib.rs:24-28 | one change per non-empty line, each the `i32` that its line reads as; a failure exactly when some non-empty line is not an `i32` |
| Frequency.SpelledLine | rust/day-1/src/lib.rs:26 | a change spelled with its sign is a plain line that reads back as the change |
| Frequency.ParseChangesOfSpelled | rust/day-1/src/lib.rs:24-28 | a list of `i32` changes, spelled one per line, parses back to the same list |
| Frequency.FinalFrequency | rust/day-1/src/lib.rs:4-6 | part 1 has an answer exactly when the input parses |
| Frequency.FinalFrequencyIsOnePass | rust/day-1/src/lib.rs:4-6 | part 1 answers the running total reached after one whole pass over the changes |
| Frequency.TotalOfPrefix | rust/day-1/src/lib.rs:18 | within the first pass, the running total after `k` changes is the sum of the first `k` changes |
| Frequency.TotalPeriodic | rust/day-1/src/lib.rs:13 | each further pass of the cycled list moves the running total by the part 1 answer |
| Frequency.ChangeInPass | rust/day-1/src/lib.rs:13 | on every pass, the cycled iterator applies the list's changes in order |
| Frequency.Totals | rust/day-1/src/lib.rs:17 | the list of the totals produced so far has one entry per step, each that step's total |
| Frequency.RepeatsAtMeaning | rust/day-1/src/lib.rs:14 | a step repeats exactly when its total equals the total of some earlier step |
| Frequency.NoRepeatBeforeMeaning | rust/day-1/src/lib.rs:14-15 | the loop reaching step `k` means no earlier step repeated |
| Frequency.FirstRepeatUnique | rust/day-1/src/lib.rs:14-15 | there is only one first repeated step |
| Frequency.FirstRepeatExists | rust/day-1/src/lib.rs:13-19 | whenever some step repeats, a first repeated step exists, no later than it |
| Frequency.ZeroDriftRepeats | rust/day-1/src/lib.rs:13-19 | when the changes add up to 0, the search ends within the first pass |
| Frequency.FirstRepeat | rust/day-1/src/lib.rs:10-21 | the loop with its `seen` set, which holds exactly the totals produced so far: on an empty list there is no answer; otherwise it answers the total at the first repeated step, or reports that no step within the fuel repeats |
| Frequency.FirstRepeatedFrequency | rust/day-1/src/lib.rs:9-22 | `day_1_part_2`: a parse failure is an error; an empty list ends at `unreachable!`; otherwise the answer is the first repeated total, or the report that none lies within the fuel |
| Frequency.AnswerAtFirstRepeat | rust/day-1/src/lib.rs:9-22 | given more fuel than the first repeated step, part 2 answers the total at that step |
| Frequency.Example1 | rust/day-1/src/lib.rs:37 | the example `+1 -2 +3 +1` parses to its four changes, and part 1 answers 3 |
| Frequency.Example2 | rust/day-1/src/lib.rs:38 | the example `+1 +1 +1` answers 3 |
| Frequency.Example3 | rust/day-1/src/lib.rs:39 | the example `+1 +1 -2` answers 0 |
| Frequency.Example4 | rust/day-1/src/lib.rs:40 | the example `-1 -2 -3` answers -6 |
| Frequency.Example5 | rust/day-1/src/lib.rs:51 | the part 2 example `+1 -1` parses to its changes |
| Frequency.Example6 | rust/day-1/src/lib.rs:52 | the part 2 example `+3 +3 +4 -2 -4` parses to its changes |
| Frequency.Example7 | rust/day-1/src/lib.rs:53 | the part 2 example `-6 +3 +8 +5 -6` parses to its changes |
| Frequency.Example8 | rust/day-1/src/lib.rs:54 | the part 2 example `+7 +7 -2 -7 -4` parses to its changes |
| Frequency.RepeatExample1 | rust/day-1/src/lib.rs:50 | for `+1 -2 +3 +1` the first repeated total is 2, at step 6 |
| Frequency.RepeatExample2 | rust/day-1/src/lib.rs:51 | for `+1 -1` the first repeated total is 0 |
| Frequency.RepeatExample3 | rust/day-1/src/lib.rs:52 | for `+3 +3 +4 -2 -4` the first repeated total is 10 |
| Frequency.RepeatExample4 | rust/day-1/src/lib.rs:53 | for `-6 +3 +8 +5 -6` the first repeated total is 5 |
| Frequency.RepeatExample5 | rust/day-1/src/lib.rs:54 | for `+7 +7 -2 -7 -4` the first repeated total is 14, at step 13 |
| BoxIds.Tally | rust/day-2/src/lib.rs:39-45 | the character-count fold holds exactly the id's characters, each with its number of occurrences |
| BoxIds.FoldFlags | rust/day-2/src/lib.rs:46-61 | the flag fold sets `has_double` exactly when some count is 2 and `has_triple` exactly when some count is 3 |
| BoxIds.CountListed | rust/day-2/src/lib.rs:39-46 | a count is among the map's values exactly when some character occurs that many times |
| BoxIds.ClassifyMeaning | rust/day-2/src/lib.rs:31-62 | `has_double` holds exactly when some character occurs exactly twice, and `has_triple` exactly when one occurs exactly three times; four or more sets neither |
| BoxIds.FlagsAnyOrder | rust/day-2/src/lib.rs:46 | the flags are the same whatever order the map hands out its counts |
| BoxIds.CountFlags | rust/day-2/src/lib.rs:5-21 | the `(triples, doubles)` fold counts the ids with a triple and the ids with a double |
| BoxIds.CountFlagsIsFlagCount | rust/day-2/src/lib.rs:7-21 | the fold's two counts are the numbers of ids in which some character occurs exactly three times and exactly twice |
| BoxIds.Checksum | rust/day-2/src/lib.rs:4-24 | `day_2_part_1` is the number of lines with a triple times the number with a double; a line may count toward both |
| BoxIds.ChecksumOfIds | rust/day-2/src/lib.rs:4-23 | for ids written one per line, the checksum is the product of the two occurrence counts |
| BoxIds.ByteLen | rust/day-2/src/lib.rs:79 | `str::len` counts UTF-8 bytes, at least one per character |
| BoxIds.Common | rust/day-2/src/lib.rs:72-78 | the `zip`/`flat_map` keeps the characters where both ids agree, never more than either id has |
| BoxIds.CommonBytes | rust/day-2/src/lib.rs:79 | the kept characters never have more bytes than the id, so `id.len() - res.len()` cannot underflow |
| BoxIds.CommonKeepsAll | rust/day-2/src/lib.rs:79 | when no byte is lost, every character was kept |
| BoxIds.NearPairMeaning | rust/day-2/src/lib.rs:79 | the test passes exactly when the common characters are the id with a single one-byte character taken out |
| BoxIds.NearPairDrop | rust/day-2/src/lib.rs:79 | for a passing pair, there is a position of one one-byte character whose removal gives the common characters |
| BoxIds.SelfNotNear | rust/day-2/src/lib.rs:79 | an id paired with itself keeps everything and never passes |
| BoxIds.Mismatch | rust/day-2/src/lib.rs:72-79 | a position where the ids disagree costs at least one byte |
| BoxIds.TwoMismatches | rust/day-2/src/lib.rs:72-79 | two positions where the ids disagree rule the pair out |
| BoxIds.CommonOfNearPair | rust/day-2/src/lib.rs:68-85 | `day_2_part_2`: no answer (`unimplemented!`) exactly when no pair passes; otherwise the common characters of the first passing pair in outer/inner loop order |
| BoxIds.AnswerIsIdMinusOne | rust/day-2/src/lib.rs:70-81 | the answer is an id with one character taken out, one character shorter, and comes from two different positions |
| BoxIds.FirstNearPairUnique | rust/day-2/src/lib.rs:70-81 | the first passing pair is unique |
| BoxIds.ExampleId2 | rust/day-2/src/lib.rs:94 | `bababc` has both a double and a triple |
| BoxIds.ExampleId7 | rust/day-2/src/lib.rs:94 | `ababab` has a triple but no double |
| BoxIds.ExampleTriples | rust/day-2/src/lib.rs:94 | three of the seven example ids have a triple |
| BoxIds.ExampleDoubles | rust/day-2/src/lib.rs:94 | four of the seven example ids have a double |
| BoxIds.ChecksumExample | rust/day-2/src/lib.rs:94 | the example's checksum is 12 |
| BoxIds.ExampleNearPair | rust/day-2/src/lib.rs:104 | `fghij` and `fguij` pass the test and share `fgij` |
| BoxIds.NearMatchExample | rust/day-2/src/lib.rs:104 | in the example, the first passing pair is the second id with the fifth, and they share `fgij` |
| BoxIds.ExampleAnswer | rust/day-2/src/lib.rs:104 | whichever pair is first in the example, its common characters are `fgij` |
| Fabric.MatchTokens | rust/day-3/src/lib.rs:75-85 | a match at the front of a text yields one capture per digit group of the pattern |
| Fabric.MatchStart | rust/day-3/src/lib.rs:61 | the unanchored search's position is one where the pattern matches |
| Fabric.MatchStartLeftmost | rust/day-3/src/lib.rs:61-62 | the search finds the leftmost match, and finds none only when no position matches |
| Fabric.ClaimPatternShape | rust/day-3/src/lib.rs:75-85 | the claim pattern has five digit groups, each followed by a token that never matches a digit |
| Fabric.MatchRendered | rust/day-3/src/lib.rs:75-85 | the pattern matches its own spelling with any non-empty digit captures, followed by anything not starting with a digit, and gives the captures back |
| Fabric.ParseClaim | rust/day-3/src/lib.rs:60-71 | `Claim::new`: a line where the pattern matches nowhere is an error, and every field of a parsed claim fits a `usize` |
| Fabric.ClaimOf | rust/day-3/src/lib.rs:64-70 | the five captures become the claim's fields, each within `usize` |
| Fabric.FormatClaimText | rust/day-3/src/lib.rs:75-85 | a claim is spelled `#id @ x,y: wxh` in decimal |
| Fabric.ParseFormatted | rust/day-3/src/lib.rs:60-71 | round trip: a spelled claim whose numbers fit a `usize` reads back as itself after any text without `#` and before any text not starting with a digit |
| Fabric.FoundAfter | rust/day-3/src/lib.rs:61 | in such a line the leftmost match starts right after the prefix, and captures the claim's numbers |
| Fabric.NoHashNoClaim | rust/day-3/src/lib.rs:61-62 | a line without `#` is never a claim |
| Fabric.SmallClaimLine | rust/day-3/src/lib.rs:60-71 | a claim line with one-digit numbers reads back as its claim |
| Fabric.Row | rust/day-3/src/lib.rs:31 | the row loop visits exactly the cells of the row from `x` over the width |
| Fabric.Rows | rust/day-3/src/lib.rs:30-31 | the loop nest visits exactly the cells of the rectangle |
| Fabric.ClaimCells | rust/day-3/src/lib.rs:30-31 | a claim's visited cells are exactly the cells it covers |
| Fabric.EmptyClaim | rust/day-3/src/lib.rs:30-31 | a claim of width or height 0 covers no cell |
| Fabric.FirstOwner | rust/day-3/src/lib.rs:40 | the first region holding a cell: it holds the cell, no earlier region does, and there is none only when no region holds it |
| Fabric.OwnerCounted | rust/day-3/src/lib.rs:32-40 | a cell is held at least once exactly when it has a first holder |
| Fabric.CountedTwiceOwners | rust/day-3/src/lib.rs:35-36 | a cell held at least twice is held by two different regions |
| Fabric.GrowOwners | rust/day-3/src/lib.rs:32-40 | one more visited cell changes no other cell's holder or count; it adds one to the cell's count and keeps its first holder |
| Fabric.GrowContested | rust/day-3/src/lib.rs:35-39 | one more visited cell contests exactly the ids of its first holder and of the current claim, when the cell was held already |
| Fabric.VisitFree | rust/day-3/src/lib.rs:40 | `or_insert` on a free cell gives it to the current claim and keeps the invariant of the pass |
| Fabric.VisitTaken | rust/day-3/src/lib.rs:35-39 | `and_modify` on a taken cell records the cell and both ids, and keeps the invariant of the pass |
| Fabric.OverlapCells | rust/day-3/src/lib.rs:46 | the cells that two or more different claims cover |
| Fabric.ContestedIds | rust/day-3/src/lib.rs:37-38 | the ids of the claims that share a cell with another claim |
| Fabric.ClaimIds | rust/day-3/src/lib.rs:21 | `claim_ids` holds exactly the ids of the claims |
| Fabric.OwnedCovered | rust/day-3/src/lib.rs:32-40 | a cell gets a first holder exactly when some claim covers it |
| Fabric.FirstClaimant | rust/day-3/src/lib.rs:40 | the first holder of a cell is the first claim, in input order, that covers it |
| Fabric.CountedOverlapped | rust/day-3/src/lib.rs:36 | a cell is visited twice or more exactly when two different claims cover it |
| Fabric.ContestedRegion | rust/day-3/src/lib.rs:37-38 | an id recorded as contested belongs to a claim that shares a cell |
| Fabric.ContestedClaim | rust/day-3/src/lib.rs:37-38 | the id of every claim that shares a cell is recorded as contested |
| Fabric.ResolvedClaims | rust/day-3/src/lib.rs:28-43 | after the pass, in terms of the claims: the map holds exactly the covered cells, each with its first claimant's id; the coordinate set is exactly the doubly covered cells; the id set is exactly the contested ids |
| Fabric.VisitResolved | rust/day-3/src/lib.rs:32-40 | the body of the inner loop keeps the invariant of the pass |
| Fabric.RowResolved | rust/day-3/src/lib.rs:31-41 | the row loop keeps the invariant of the pass |
| Fabric.RectResolved | rust/day-3/src/lib.rs:30-42 | the loop over one claim's rows keeps the invariant, the claim being one more region |
| Fabric.MarkAllResolved | rust/day-3/src/lib.rs:28-43 | the loop nest over all claims keeps the invariant of the pass |
| Fabric.MarkAllClaims | rust/day-3/src/lib.rs:28-43 | what the loop nest computes: first claimants, doubly covered cells and contested ids, exactly |
| Fabric.MarkRow | rust/day-3/src/lib.rs:31-41 | the x loop is the row of visits |
| Fabric.MarkClaim | rust/day-3/src/lib.rs:30-42 | the y loop is the rectangle of visits |
| Fabric.MarkFabric | rust/day-3/src/lib.rs:23-43 | the loops of `day_3`: every covered cell maps to the id of the first claim covering it, which later claims never overwrite; `overlapping_claim_coords` is exactly the doubly covered cells; `overlapping_claim_ids` is exactly the contested ids |
| Fabric.Resolve | rust/day-3/src/lib.rs:16-49 | `day_3`: an unparsable line is an error; otherwise `overlaps` is the number of cells two claims cover, and `non_overlapping` is an uncontested claim id, or none exactly when every claim is contested |
| Fabric.ExampleParse | rust/day-3/src/lib.rs:94 | the example text parses to its three claims |
| Fabric.ExampleLine1 | rust/day-3/src/lib.rs:94 | `#1 @ 1,3: 4x4` parses to claim 1 at (1, 3), 4 by 4 |
| Fabric.ExampleOverlaps | rust/day-3/src/lib.rs:94 | the example's claims 1 and 2 share exactly four cells |
| Fabric.ExampleContested | rust/day-3/src/lib.rs:104 | in the example, claims 1 and 2 are contested and claim 3 is not |
| Fabric.ExampleResolution | rust/day-3/src/lib.rs:94 | with four shared cells and claim 3 alone uncontested, the only possible answer is 4 and `Some(3)` |
| Fabric.ResolveExample | rust/day-3/src/lib.rs:104 | `day_3` on the example answers 4 overlaps and `Some(3)` |
| GuardRecords.Minute | rust/day-4/src/lib.rs:192 | the minute of the hour lies in 0..59 |
| GuardRecords.ParseInfo | rust/day-4/src/lib.rs:106-121 | `falls asleep` and `wakes up` give the two events, exactly; a shift body gives `BeginShift` exactly when it is `Guard #` with a `u32` in ASCII digits and ` begins shift`; every other body is an error |
| GuardRecords.ParseGuard | rust/day-4/src/lib.rs:112-119 | the shift pattern accepts exactly the bodies built from the prefix, a `u32` in digits and the suffix |
| GuardRecords.ParseShift | rust/day-4/src/lib.rs:113-119 | the body of a shift reads back its guard id |
| GuardRecords.LastClose | rust/day-4/src/lib.rs:84 | the greedy timestamp group ends at the last `] ` of the line |
| GuardRecords.ParseRecord | rust/day-4/src/lib.rs:82-92 | `Record::from_str` accepts only lines starting with `[` and without a line break |
| GuardRecords.ParseRecordOf | rust/day-4/src/lib.rs:84-91 | a line of a timestamp and a body without `]` parses exactly when both parts do, to the record of the two |
| GuardRecords.GreedyTimestamp | rust/day-4/src/lib.rs:84 | a `] ` inside the line goes to the timestamp; only the last one splits |
| GuardRecords.Compare | rust/day-4/src/lib.rs:61-71 | `cmp` compares the timestamps alone |
| GuardRecords.OrderIgnoresInfo | rust/day-4/src/lib.rs:61-77 | `cmp` and `==` look only at the timestamps, and `==` holds exactly when `cmp` gives `Equal` |
| GuardRecords.CompareIsOrder | rust/day-4/src/lib.rs:61-65 | the order is antisymmetric and transitive |
| GuardRecords.SameMinuteDifferentEvents | rust/day-4/src/lib.rs:73-77 | two different events at one minute compare equal |
| GuardRecords.ParseRecords | rust/day-4/src/lib.rs:124-133 | `parse_records`: an error exactly when a non-empty line fails; otherwise a permutation of the parsed non-empty lines, sorted by timestamp |
| GuardRecords.SortRecords | rust/day-4/src/lib.rs:131 | `sort_unstable` on the record vector, in place: afterwards the records are in time order and a permutation of the records before |
| GuardRecords.InsertRecord | rust/day-4/src/lib.rs:131 | one insertion step of the in-place sort: the prefix grows sorted, the rest is untouched, and the records are permuted |
| Shifts.Insert | rust/day-4/src/lib.rs:154-158 | `MultiMap::insert` appends the interval to its guard's list, creating the key when absent, and changes no other list |
| Shifts.Completed | rust/day-4/src/lib.rs:150-161 | a wake completes an interval exactly when a guard and a start are known; the interval is that guard's, from the start to the wake |
| Shifts.Step | rust/day-4/src/lib.rs:142-163 | one turn of the loop: a shift sets the guard and clears the start; a fall sets the start, guard or not; a wake keeps both and files what it completes |
| Shifts.SleepsByGuard | rust/day-4/src/lib.rs:135-167 | the loop of `sleeps_by_guard` leaves the map of the state machine run over the records |
| Shifts.RunAppend | rust/day-4/src/lib.rs:141-164 | the loop over two runs of records is the loop over the second from where the first left off |
| Shifts.CompletionsAppend | rust/day-4/src/lib.rs:141-164 | the loop over two runs completes the intervals of the first, then those of the second |
| Shifts.RunGroups | rust/day-4/src/lib.rs:154-158 | after the loop a guard's list is its old list followed by its own completed intervals, in order |
| Shifts.RunKeys | rust/day-4/src/lib.rs:154-158 | after the loop the keys are the old keys and the guards of the completed intervals |
| Shifts.SleepsByGuardGroups | rust/day-4/src/lib.rs:135-167 | the map has one key per guard that completed an interval; each list is that guard's intervals in record order, never empty, and every interval under key `k` has guard id `k` |
| Shifts.CompletionsPerWake | rust/day-4/src/lib.rs:150-161 | no more intervals are filed than there are wakes |
| Shifts.GuardStays | rust/day-4/src/lib.rs:143-161 | without a shift the guard stays, and every interval filed is that guard's; with no guard, nothing is filed |
| Shifts.StartIsFall | rust/day-4/src/lib.rs:147-149 | a known start is the time of some fall among the records |
| Shifts.CompletionStamps | rust/day-4/src/lib.rs:147-158 | every filed interval runs from a fall record to a later wake record |
| Shifts.ShiftOwnsItsSleeps | rust/day-4/src/lib.rs:143-146 | after a shift, every interval filed before the next shift is the new guard's and starts at a fall of that shift, never one from before |
| Shifts.SortedSleeps | rust/day-4/src/lib.rs:147-158 | on records sorted by time every interval has `start <= end` |
| Shifts.NoGuardNoSleeps | rust/day-4/src/lib.rs:152-160 | before the first shift nothing is filed, though a fall sets the start |
| Shifts.FallTwice | rust/day-4/src/lib.rs:147-149 | a second fall overwrites the start |
| Shifts.WakeTwice | rust/day-4/src/lib.rs:150-161 | a wake keeps the start, so a second wake files a second interval from the same start |
| Shifts.ShiftDropsStart | rust/day-4/src/lib.rs:143-146 | a shift between a fall and a wake drops the interval |
| SleepStats.LastMax | rust/day-4/src/lib.rs:199 | `max_by_key` has a result exactly when there are keys, and it is one of them |
| SleepStats.LastMaxIsMax | rust/day-4/src/lib.rs:199 | `max_by_key` gives a key of greatest score, and of several such the last visited |
| SleepStats.Bump | rust/day-4/src/lib.rs:193-195 | the entry update adds one to the minute's count, starting at 1, and changes no other count |
| SleepStats.BumpIsEntry | rust/day-4/src/lib.rs:193-195 | both arms of `and_modify(..).or_insert(1)` are that update |
| SleepStats.MinuteAt | rust/day-4/src/lib.rs:192 | the minute of turn `i` is a minute of the hour |
| SleepStats.CountSleep | rust/day-4/src/lib.rs:190-196 | the inner loop bumps one count per minute slept, none for a non-positive length |
| SleepStats.MostFrequentMinuteSlept | rust/day-4/src/lib.rs:186-201 | the loops and the selection of `most_frequent_minute_slept` compute its answer function |
| SleepStats.BestMinuteIsBest | rust/day-4/src/lib.rs:186-201 | the answer is a minute of the hour with its count, at least 1 and at least every minute's count; none exactly when the histogram is empty |
| SleepStats.AddSleepCounts | rust/day-4/src/lib.rs:191-196 | the inner loop adds to a minute's count the turns that fell on it |
| SleepStats.CountIsHits | rust/day-4/src/lib.rs:189-197 | a minute's count is the number of turns of all intervals that fell on it |
| SleepStats.HitsWithinHour | rust/day-4/src/lib.rs:191-192 | an interval inside its hour falls once on each of its minutes and on no other |
| SleepStats.CountsInHour | rust/day-4/src/lib.rs:192-195 | every histogram key is a minute 0..59, with a count of at least 1 |
| SleepStats.CountsTotal | rust/day-4/src/lib.rs:189-197 | the counts add up to the total of the non-negative interval lengths |
| SleepStats.BestMinuteExists | rust/day-4/src/lib.rs:199-200 | there is an answer exactly when that total is not 0 |
| SleepStats.OneMinute | rust/day-4/src/lib.rs:190-195 | a one-minute interval adds exactly 1 to its start minute's count and nothing to any other |
| SleepStats.LongestSleeperIsLongest | rust/day-4/src/lib.rs:169-177 | `longest_sleeper` is none exactly when the map is empty; otherwise a guard with its list, whose total minutes asleep are at least every guard's |
| SleepStats.MostFrequentIsMost | rust/day-4/src/lib.rs:179-184 | the answer is a guard with its best minute and count, the count at least every guard's best count; none exactly when no guard has a best minute |
| SleepStats.NoSleepNoAnswer | rust/day-4/src/lib.rs:15-42 | both parts answer 0 when nobody slept |
| SleepStats.Strategy1Meaning | rust/day-4/src/lib.rs:15-30 | part 1 answers 0 when nobody slept; otherwise it picks a guard whose total minutes asleep are greatest and answers 0 when that guard has no best minute, or the guard's id times a minute on which they slept at least as often as on any other |
| SleepStats.LongestSleeperAnswerMeaning | rust/day-4/src/lib.rs:20-29 | the same on the map of intervals by guard |
| SleepStats.Strategy2Meaning | rust/day-4/src/lib.rs:33-42 | part 2 answers 0 when no guard has a best minute; otherwise the id of a guard whose best-minute count is greatest over all guards, times that minute |
| SleepStats.SameMinuteAnswerMeaning | rust/day-4/src/lib.rs:37-41 | the same on the map of intervals by guard |
| SleepStats.Answer1 | rust/day-4/src/lib.rs:16-29 | the body of part 1 after the sort: the part-1 answer of the records, 0 without one |
| SleepStats.Answer2 | rust/day-4/src/lib.rs:34-41 | the body of part 2 after the sort: the part-2 answer of the records, 0 without one |
| SleepStats.Part1 | rust/day-4/src/lib.rs:15-30 | `day_3_part_1`: an error exactly when a line fails; otherwise the answer for a sorted permutation of the records |
| SleepStats.Part2 | rust/day-4/src/lib.rs:33-42 | `day_3_part_2`: an error exactly when a line fails; otherwise the answer for a sorted permutation of the records |
| GuardExample.ExampleSorted | rust/day-4/src/lib.rs:131 | the example log is already in time order, with no two records at one minute |
| GuardExample.ExampleCompletions | rust/day-4/src/lib.rs:210 | the example files six intervals: three for guard 10 and three for guard 99, in order |
| GuardExample.ExampleSleeps | rust/day-4/src/lib.rs:210 | the example's map has keys 10 and 99, with each guard's intervals |
| GuardExample.GuardTen | rust/day-4/src/lib.rs:210 | guard 10 slept 50 minutes, most often at minute 24 (twice) |
| GuardExample.GuardNinetyNine | rust/day-4/src/lib.rs:220 | guard 99 slept 30 minutes, most often at minute 45 (three times) |
| GuardExample.LongestIsTen | rust/day-4/src/lib.rs:210 | in the example, guard 10 sleeps longest |
| GuardExample.MostFrequentIsNinetyNine | rust/day-4/src/lib.rs:220 | in the example, guard 99 is most often asleep on one minute: 45, three times |
| GuardExample.ExamplePart1 | rust/day-4/src/lib.rs:210 | part 1 of the example answers 240 |
| GuardExample.ExamplePart2 | rust/day-4/src/lib.rs:220 | part 2 of the example answers 4455 |

Some definitions carry no contract of their own. The lemmas and methods in
the table state their properties:

- `Frequency.Sum` (rust/day-1/src/lib.rs:5): see `TotalOfPrefix` and `FinalFrequencyIsOnePass`.
- `BoxIds.Classify` (rust/day-2/src/lib.rs:31-62): see `ClassifyMeaning` and `FlagsAnyOrder`.
- `Fabric.ParseClaims` (rust/day-3/src/lib.rs:17-20): see `Resolve` and `ExampleParse`.
- `Fabric.MarkAll` (rust/day-3/src/lib.rs:28-43): see `MarkAllClaims`, `MarkAllResolved` and `MarkFabric`.
- `GuardRecords.ParseLines` (rust/day-4/src/lib.rs:125-128): see `ParseRecords`.
- `Shifts.Run` (rust/day-4/src/lib.rs:141-164): see `SleepsByGuard`, `RunGroups`, `RunKeys` and `SleepsByGuardGroups`.
- `SleepStats.MinuteCounts` and `SleepStats.BestMinute` (rust/day-4/src/lib.rs:186-201): see `MostFrequentMinuteSlept`, `BestMinuteIsBest` and `CountsTotal`.
- `SleepStats.LongestSleeper` (rust/day-4/src/lib.rs:169-177): see `LongestSleeperIsLongest`.
- `SleepStats.MostFrequentlyAsleepOnSameMin` (rust/day-4/src/lib.rs:179-184): see `MostFrequentIsMost`.
- `SleepStats.Strategy1`, `SleepStats.Strategy2` and their map forms `LongestSleeperAnswer` and `SameMinuteAnswer` (rust/day-4/src/lib.rs:15-42): see `Strategy1Meaning`, `Strategy2Meaning`, `Answer1` and `Answer2`.
- `SleepStats.IsLongestSleeperAnswer` and `SleepStats.IsSameMinuteAnswer` spell out those two lemmas' promises.

## Left out

- chrono: timestamps are whole minutes. The text of a timestamp goes through a parameter `stamp`, which may fail, in place of `datetime_from_str`. The minute of the hour is the minute count modulo 60. Calendar validity and the format string are not part of this model.
- The regex engine and `lazy_static`: the three fixed patterns are hand-written matchers. The caching is memoisation and has no effect on results.
- Fabric.ParseClaim: the claim pattern's digit class is taken as the ASCII digits. Rust's `\d` also matches other Unicode decimal digits, which `usize::from_str` then rejects. On a line whose leftmost match holds such a digit the source panics, while the model may find a later match or none. The Unicode digit table is not part of this model. The record and shift patterns of day 4 are anchored, so there the two agree.
- GuardRecords.ParseRecords: `sort_unstable` is an insertion sort here. The contract promises only a sorted permutation, which is all `sort_unstable` promises.
- SleepStats.Part1: the answer is stated for some sorted permutation of the parsed records, since records at the same minute may be sorted in any order.
- SleepStats.Part2: likewise stated for some sorted permutation of the parsed records.
- SleepStats.LastMaxIsMax: hash iteration order is unknown. The model visits keys in ascending order and keeps the last maximum, as `max_by_key` does. The lemmas state only "a key of greatest score", which holds for every order.
- SleepStats.LongestSleeperIsLongest: states only that the result has the greatest total, because ties are broken by hash order in the source.
- SleepStats.MostFrequentIsMost: states only that the result has the greatest best count, for the same reason.
- Fabric.Resolve: `difference(..).next()` takes the first element of a hash set. The contract promises only some uncontested id.
- The iteration order of the day-2 count map: the counts are folded in the order the characters first occur. `FlagsAnyOrder` proves every order gives the same flags.
- Frequency.FirstRepeatedFrequency: the endless `cycle()` loop runs for at most `fuel` steps. When no step within the fuel repeats, the result says so instead of looping on.
- Integer widths:
  - sums and products are unbounded integers;
  - day 1 `i32` additions, day 2 `i32` counts and their product, day 3 `usize` coordinate sums and day 4 `u32` `id * minute` do not wrap or panic;
  - the day-4 `i64` sum of minutes and the `i as u32` cast in the minute loop are not truncated.

  Parsed numbers are still bounded by their types.
- Text.Lines: models `str::lines` of current Rust. A `'\r'` at the very end of the text, with no `'\n'` after it, stays in the last line. The Rust of 2018 also removed that `'\r'`. The two agree on every text whose last line does not end in `'\r'`.
- Tests that read the puzzle inputs with `include_str!("input")`: the input data is not part of this model.
- The examples are written as the joined lines of the published puzzle examples, or as the parsed day-4 log, because the example files are not part of this model. The day-4 log is the seventeen records of the published example, as minute counts.
- The inner loops of day 3 (`MarkClaim`, `MarkRow`) and of day 4 (`CountSleep`) are methods of their own, because Dafny parameters cannot be reassigned.
- Day 4's two parts are named `Part1` and `Part2`. The source calls them `day_3_part_1` and `day_3_part_2`.
