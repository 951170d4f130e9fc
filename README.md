# Advent of Code 2018, days 1 to 14, in Dafny

A model of the Rust solutions to the first fourteen puzzles of Advent of Code
2018: frequency drift (day 1), box ids (2), fabric claims (3), guard naps (4),
polymer reduction (5), chronal areas (6), step ordering with workers (7), the
licence tree (8), the marble game (9), the star message (10), the fuel-cell
grid (11), the plant pots (12), the mine carts (13) and the recipe scoreboard
(14). Each day is one module `DayNN` holding its input generator, its parts and
their helpers; three shared modules hold what several days use:

- `Common`: `Option`, sums, maxima and minima over sequences, counting.
- `Text`: the slice of Rust's string API the generators use (`split`, `lines`,
  `trim`, `parse` of signed and unsigned decimals), each with its round trip.
- `Sorting`: a stable sort by a key order, standing for `sort`/`sort_by_key`.

Code that updates state step by step is modelled as methods with loops and
invariants: the mine-cart board (`Day13.Board`, a class whose `Step` rebuilds
the carts of one tick), the recipe scoreboard (`Day14.State`), the marble ring
(`Day09`), the polymer stack loop (`Day05.CollapsePolymer`), the step scheduler
(`Day07`) and the area scans (`Day11`). Each such method is proved against a
function that states the same computation on values, and the puzzle-level
properties (crash detection, parity of surviving carts, the ring invariant of
the marble game, the topological order of the steps, ...) are lemmas about
those functions.

A panic of the source (an `unwrap` of `None`, `unreachable!`, an index out of
bounds, an unsigned underflow) is a `None` result of the model. A loop of the
source that runs until something is found takes a `fuel` bound in the model,
except in day 7: there the model's loops have a measure that falls each
round, and the two cases where the source's loop never ends (a dependency cycle
in part 1, no workers at all in part 2) are a `None` result of `Day07.Order`,
`Day07.Round` and `Day07.Schedule` instead.

Positions in a line are counted in characters, where the source slices and
indexes bytes; on ASCII input, which is all the puzzles give, the two agree
(see "## Left out").

## Model

| member | source | states |
|---|---|---|
| Day01.ParseChange | src/day01.rs:5 | a line is read as the signed number its trimmed text spells; it fails exactly when that text is not a number or lies outside the 32-bit range (the `unwrap` panics) |
| Day01.Changes | src/day01.rs:3-5 | the changes are one per line, each the reading of its own line, and fail exactly when some line fails |
| Day01.SolvePart1 | src/day01.rs:1-7 | part 1 fails exactly when some line fails to parse, and otherwise is the sum of all changes |
| Day01.ParseI32 | src/day01.rs:5 | `parse::<i32>` yields a value exactly when the line is a decimal number inside the 32-bit range, and the value is that number |
| Day01.IndexFirstPass | src/day01.rs:17 | during the first pass the endless cycle hands out the changes in list order |
| Day01.IndexPeriodic | src/day01.rs:17 | the cycle repeats with the list's length as its period |
| Day01.RunningPrefix | src/day01.rs:17-18 | within the first pass the running frequency is the sum of the changes seen so far |
| Day01.RunningPass | src/day01.rs:17-18 | each full pass moves the frequency by the part-1 sum of all changes |
| Day01.ReachedHas | src/day01.rs:16-20 | every frequency reached at a step in the window is in the set of found frequencies |
| Day01.ReachedOnly | src/day01.rs:16-20 | the set holds nothing but frequencies reached at steps in the window |
| Day01.RepeatsIffReached | src/day01.rs:20-21 | `insert` returning false at a step is the same as that step's frequency having been reached earlier |
| Day01.FindRepeat | src/day01.rs:15-24 | the loop returns the frequency of the first repeating step within the step bound; no result means no step up to the bound repeats; an empty list gives no result |
| Day01.SolvePart2AsWritten | src/day01.rs:10-25 | `solve_part2` with the set starting empty: the first repeat counts only frequencies reached after a change |
| Day01.SolvePart2 | src/day01.rs:10-25 | the corrected search with the starting frequency 0 in the set: the first repeat among all frequencies from 0 on |
| Day01.ZeroSumRepeats | src/day01.rs:17-22 | changes summing to zero repeat within one pass, in both variants, so the search ends |
| Day01.SeedMatters | src/day01.rs:15-16 | on `+1, -1` the corrected search first repeats 0 at step 2, while the code as written returns 1 at step 3 |
| Day02.Ids | src/day02.rs:42 | the IDs are the input's lines, trimmed, one per line |
| Day02.CharCounts | src/day02.rs:7-10 | the histogram has an entry exactly for each character of the ID, holding its number of occurrences |
| Day02.TwoAndThree | src/day02.rs:13-22 | the two flags say exactly whether some character occurs twice and whether some occurs three times |
| Day02.Tally | src/day02.rs:26-35 | the two counters are the number of IDs with a character exactly twice and exactly three times |
| Day02.CountWithSnoc | src/day02.rs:28-34 | one more ID raises a counter by one exactly when it has such a character |
| Day02.SolvePart1 | src/day02.rs:4-38 | the answer is the checksum: IDs with a doubled character times IDs with a tripled one |
| Day02.IsSimilarId | src/day02.rs:61-73 | the early-exit zipped scan answers true exactly when the IDs differ in one position of their common length |
| Day02.SimilarMeaning | src/day02.rs:61-73 | "similar" is the same as: there is exactly one position where the zipped characters differ |
| Day02.DiffsBelowMonotone | src/day02.rs:62-70 | the difference count never falls as the scan advances, which justifies giving up once it passes 1 |
| Day02.SharedOf | src/day02.rs:48-54 | the zip-filter-collect returns the zipped characters that agree, in order |
| Day02.SharedLength | src/day02.rs:48-54 | shared characters plus differing positions make up the common length |
| Day02.SharedDropsDifference | src/day02.rs:48-54 | for IDs differing only at position i the answer is the first ID without position i (cut to the common length) |
| Day02.FindSimilar | src/day02.rs:45-58 | the nested loops return the shared characters of the first similar pair (j < i, in loop order); no result exactly when no pair is similar (the `unimplemented!` panic) |
| Day02.SolvePart2 | src/day02.rs:41-59 | `solve_part2` on the trimmed lines, with the same guarantees |
| Day03.ParseClaim | src/day03.rs:24-42 | a parsed claim has at least four blank-separated pieces; its id is the first piece after its leading character, its corner the third piece less its last character split at ',', its size the fourth piece split at 'x' |
| Day03.Generator | src/day03.rs:19-45 | a parsed input has one claim per line, each the reading of its own line; it fails exactly when some line fails to parse (the `unwrap` panics) |
| Day03.ParseShowClaim | src/day03.rs:24-42 | a claim written as "#id @ x,y: wxh" parses back to the same claim |
| Day03.CellsExact | src/day03.rs:12-16 | `iterate_coords` yields width times height inches: each inch the claim covers exactly once and no other |
| Day03.Coverage | src/day03.rs:75-82 | the number of claims covering an inch is at most the number of claims |
| Day03.AllCellsCoverage | src/day03.rs:76 | in the flattened inches of all claims an inch occurs as often as claims cover it |
| Day03.TallyIsMultiset | src/day03.rs:78-80 | the `entry().and_modify().or_insert(1)` counter holds each inch seen, with the number of times seen |
| Day03.CountsCoverage | src/day03.rs:75-82 | the result of `count_coords` holds exactly the covered inches, each with the number of claims covering it |
| Day03.CountCoords | src/day03.rs:75-82 | the counting loop builds that map |
| Day03.OverlappedMeaning | src/day03.rs:49-53 | an inch is counted in part 1 exactly when two or more claims cover it |
| Day03.OverlappedIsCovered | src/day03.rs:49-53 | the overlapped inches are exactly those two or more claims cover |
| Day03.Part1 | src/day03.rs:47-53 | part 1 counts the overlapped inches, and an inch is overlapped exactly when two or more claims cover it |
| Day03.SamplePart1 | src/day03.rs:84-91 | the three claims of the test overlap in 4 inches |
| Day03.CoverageOne | src/day03.rs:60-67 | an inch of claim k has count 1 exactly when no other claim covers it |
| Day03.CoverageZero | src/day03.rs:75-82 | an inch has no count exactly when no claim covers it |
| Day03.IntactMeaning | src/day03.rs:60-67 | a claim passes the inner loop (all its counts at most 1) exactly when it overlaps no other claim |
| Day03.FirstIntactMeaning | src/day03.rs:60-72 | the answer is the id of the first claim that passes, in input order; none (the `unimplemented!` panic) exactly when no claim passes |
| Day03.AllIntactMeaning | src/day03.rs:60-67 | every claim passes the inner loop exactly when it overlaps no other claim |
| Day03.Part2 | src/day03.rs:55-73 | part 2 has no answer exactly when every claim overlaps another; otherwise it is the id of the first claim, in input order, that overlaps no other |
| Day03.SolvePart2 | src/day03.rs:57-73 | the labelled loop returns that first intact claim's id |
| Day04.TextLePreorder | src/day04.rs:6 | the string order `sort` uses is total and transitive |
| Day04.SortedLines | src/day04.rs:5-6 | `lines.sort()` gives the input's lines in string order, as a permutation of them |
| Day04.ParseMinutes | src/day04.rs:193-196 | `parse_minutes` reads the two characters after "[1518-11-05 00:" and yields a value below 100; a short line or non-digits fail (the `unwrap` panics) |
| Day04.ParseEvent | src/day04.rs:14-39 | a line that parses needs the whole timestamp; a guard number fits `u16`; a "falls" or "wakes" line carries the line's minutes |
| Day04.CountMinutes | src/day04.rs:31-36 | the minute loop creates or bumps exactly the entries (guard, m) for m in start..end |
| Day04.CountMinutesGet | src/day04.rs:31-36 | each minute of the nap counts once more for the guard on duty; every other entry keeps its count |
| Day04.Apply | src/day04.rs:15-39 | a "wakes" minute before the nap's start fails (the `u8` subtraction underflows); otherwise "Guard" sets the guard, "falls" the start, "wakes" adds the nap's length to the guard's total and counts its minutes |
| Day04.Step | src/day04.rs:13-40 | the loop body for one line does what its event says, the minute loop included |
| Day04.Nap | src/day04.rs:21-37 | a "wakes" line after the nap's start gives the updated state |
| Day04.CountNap | src/day04.rs:31-36 | the minute loop as a loop: the counts of `CountMinutes` |
| Day04.Process | src/day04.rs:13-40 | the loop over the sorted lines gives the replayed log; any bad line fails |
| Day04.SumMinutesNap | src/day04.rs:23-36 | a nap adds its length (within the counted minutes) to the sum of the guard's per-minute counts |
| Day04.ApplyConsistent | src/day04.rs:23-36 | each event keeps every guard's total equal to the sum of its per-minute counts |
| Day04.RunConsistent | src/day04.rs:13-40 | so does the whole loop |
| Day04.BestMinute | src/day04.rs:47-55 | `(0..60).max_by_key` picks a minute below 60 with the largest count, the last such minute on ties |
| Day04.Part1AnswerOf | src/day04.rs:43-57 | a sleepiest guard times their best minute is an answer part 1 may give |
| Day04.ReplayLog | src/day04.rs:5-40 | sorting and the loop give the replayed log |
| Day04.SleepiestGuard | src/day04.rs:43-46 | `max_by_key` over the totals returns a guard no other guard beats |
| Day04.FindBestMinute | src/day04.rs:47-55 | the minute scan returns the best minute |
| Day04.SolvePart1 | src/day04.rs:4-58 | an answer exists exactly when the log replays and some guard slept (else a panic); it is a sleepiest guard times that guard's last minute with the most naps |
| Day04.LargestCount | src/day04.rs:140-143 | `max_by_key` over the (guard, minute) counts returns an entry no other exceeds |
| Day04.Tally | src/day04.rs:119-137 | part 2's event step keeps no totals; a "wakes" line at or before the nap's start changes nothing (the range is empty, nothing panics); wherever part 1's step succeeds the two agree on guard, start and counts |
| Day04.TallyRunFails | src/day04.rs:118-138 | part 2's loop fails exactly when some line does not parse (the `unwrap` or `unimplemented!` panics) |
| Day04.TallyRunAgrees | src/day04.rs:118-138 | whenever part 1's loop gets through, part 2's loop gets through too, to the same counts |
| Day04.TallyStep | src/day04.rs:119-137 | the loop body of part 2 for one line does what its event says, a "wakes" line running the minute loop over `start..end` |
| Day04.TallyProcess | src/day04.rs:118-138 | the loop over the lines computes part 2's replay |
| Day04.TallyReplayLog | src/day04.rs:110-138 | sorting and part 2's loop give part 2's replay |
| Day04.TallyReplayAgrees | src/day04.rs:110-138 | part 2 replays every log part 1 replays, to the same counts, and fails exactly when some sorted line does not parse |
| Day04.SolvePart2 | src/day04.rs:109-146 | an answer exists exactly when part 2's own replay gets through and some minute was slept; it is guard times minute of a largest count of that replay |
| Day04.AddMinutes | src/day04.rs:87-89 | the vector increment succeeds exactly when the nap is empty or ends within the vector; it adds one at each minute of the nap and keeps the rest |
| Day04.VecApplyAgrees | src/day04.rs:71-92 | one event of the vector variant agrees with the hash-map variant whenever it succeeds |
| Day04.VecWakesAgrees | src/day04.rs:77-90 | a "wakes" line on the vectors agrees with the hash-map counts |
| Day04.VecWakesEntry | src/day04.rs:85-89 | each vector entry after a nap equals the map's count for that guard and minute |
| Day04.VecRunAgrees | src/day04.rs:69-93 | whenever the vector loop gets through the log, the hash-map loop does too, with the same counts |
| Day04.VecStep | src/day04.rs:70-92 | the vector loop body does what its event says |
| Day04.VecWakes | src/day04.rs:77-90 | the entry with `or_insert_with(vec![0; 60])`, the total and the minute loop of a "wakes" line |
| Day04.VecProcess | src/day04.rs:69-93 | the vector loop over the sorted lines |
| Day04.VecReplayAgrees | src/day04.rs:62-93 | a vector replay that gets through agrees with the hash-map replay |
| Day04.VecSleepiest | src/day04.rs:96-99 | `max_by_key` over the entries' totals returns a guard no other beats |
| Day04.VecBestMinute | src/day04.rs:100-104 | `enumerate().max_by_key` over a guard's vector picks the same minute as the hash-map variant |
| Day04.VecSolvePart1 | src/day04.rs:61-107 | an answer exists exactly when the vector replay succeeds with some guard; it is an answer the hash-map part 1 may give |
| Day04.LargestEntry | src/day04.rs:179-188 | the flat map and `max_by_key` over all vectors return a guard and minute no entry exceeds |
| Day04.VecLargestCounted | src/day04.rs:179-188 | when some minute was slept, that largest vector entry is a largest count of the hash-map variant |
| Day04.VecTally | src/day04.rs:158-176 | part 2's step on the vectors fails exactly on a "wakes" line whose nap runs past the end of the guard's vector (the index panics); a "wakes" line leaves the guard with a vector, created by `or_insert_with` even for an empty nap |
| Day04.VecTallyWakesEntry | src/day04.rs:165-173 | each vector entry after a nap equals part 2's map count for that guard and minute |
| Day04.VecTallyAgrees | src/day04.rs:158-176 | a step on the vectors that succeeds agrees with part 2's step on the map |
| Day04.VecTallyRunAgrees | src/day04.rs:157-177 | whenever the vector loop gets through, part 2's map loop does too, with agreeing counts |
| Day04.VecTallyStep | src/day04.rs:158-176 | the vector loop body for one line does what its event says |
| Day04.VecTallyWakes | src/day04.rs:165-173 | the entry with `or_insert_with(vec![0; 60])` and the minute loop of a "wakes" line |
| Day04.VecTallyProcess | src/day04.rs:157-177 | the vector loop over the sorted lines |
| Day04.VecTallyReplayLog | src/day04.rs:149-177 | sorting and the vector loop give the vector replay of part 2 |
| Day04.VecTallyReplayAgrees | src/day04.rs:149-177 | a vector replay of part 2 that gets through agrees with the map replay of part 2 |
| Day04.VecSolvePart2 | src/day04.rs:148-191 | an answer exists exactly when the vector replay of part 2 gets through with some guard; it is a largest entry's guard times minute, the hash-map replay of part 2 then gets through too, and it is an answer that variant may give when some minute was slept |
| Day05.ToLower | src/day05.rs:121 | `to_ascii_lowercase` moves an upper-case ASCII letter to its lower case and leaves every other character |
| Day05.UnitsMatchIsSwapCase | src/day05.rs:117-122 | two units react exactly when they are one letter in its two cases |
| Day05.UnitsMatchSymmetric | src/day05.rs:117-122 | reaction does not depend on the order of the two units |
| Day05.Push | src/day05.rs:100-113 | an arriving unit pops a reacting top of the stack and is pushed otherwise |
| Day05.PushAllSnoc | src/day05.rs:100-113 | the stack after one more unit is that unit arriving at the stack so far |
| Day05.CollapsePolymer | src/day05.rs:98-115 | the stack loop returns the reduced polymer |
| Day05.PushReduced | src/day05.rs:100-113 | each step keeps the stack free of reacting neighbours |
| Day05.CollapseReduced | src/day05.rs:98-115 | what `collapse_polymer` returns has no two reacting neighbours |
| Day05.CollapseLength | src/day05.rs:98-115 | reduction never lengthens the polymer and removes units in pairs |
| Day05.CollapseOfReduced | src/day05.rs:98-115 | a polymer with no reacting neighbours comes back unchanged |
| Day05.CollapseIdempotent | src/day05.rs:98-115 | reducing twice is reducing once |
| Day05.CollapsePrefixFirst | src/day05.rs:98-115 | reducing a prefix first does not change the final polymer |
| Day05.Part1 | src/day05.rs:5-8 | the answer is at most the input's length |
| Day05.RemoveUnit | src/day05.rs:18 | the filter keeps exactly the units whose lower case is not the removed letter, and no others |
| Day05.FilteredLengths | src/day05.rs:16-19 | one reduced length per letter 'a' to 'z', with that letter removed first |
| Day05.Part2 | src/day05.rs:25-37 | the answer is the reduced length for some letter and no letter gives a shorter one |
| Day05.SolvePart2 | src/day05.rs:11-22 | the loop with the running `Min` accumulator gives the same minimum |
| Day05.Part2EarlyCollapse | src/day05.rs:55-74 | the early-collapse variant's answer is the minimum over the letters removed from the reduced polymer |
| Day05.EarlyCollapseAtMostPart1 | src/day05.rs:55-74 | removing a letter never leaves a longer reduced polymer than part 1's |
| Day05.SampleNoReaction | src/day05.rs:128-132 | "aabAAB" has no reacting pair: part 1 answers 6 |
| Day05.SamplePart1 | src/day05.rs:134-138 | the sample polymer reduces to length 10 |
| Day06.Distance | src/day06.rs:12-14 | the Manhattan distance is zero exactly between equal coordinates |
| Day06.DistanceSymmetric | src/day06.rs:12-14 | the distance does not depend on the order of the two coordinates |
| Day06.DistanceTriangle | src/day06.rs:12-14 | the distance obeys the triangle inequality |
| Day06.ParseCoordinate | src/day06.rs:18-29 | a parsed line has at least two pieces around ", " whose first two are the coordinate's x and y |
| Day06.Generator | src/day06.rs:17-29 | every line gives the coordinate at its position, and the input fails exactly when some line does not parse |
| Day06.ParseShowCoordinate | src/day06.rs:18-29 | a coordinate written as "x, y" parses back to itself |
| Day06.BoxOf | src/day06.rs:187-205 | the accumulated box over a prefix holds every coordinate of it and each bound is attained |
| Day06.Widen | src/day06.rs:193-198 | one update moves each bound out just far enough to hold the new coordinate |
| Day06.BoundingBox | src/day06.rs:187-205 | the bounding box is the smallest box holding every coordinate |
| Day06.GetBoundingBox | src/day06.rs:187-205 | the loop over the four accumulators computes the bounding box |
| Day06.ClosestCorrect | src/day06.rs:60-72 | the inner loop keeps the smallest distance so far, and its id is set exactly when one coordinate is strictly nearest |
| Day06.OwnerIsNearest | src/day06.rs:60-73 | a cell's owner is a given id exactly when that coordinate is strictly nearer than every other one |
| Day06.OwnerInRange | src/day06.rs:60-73 | an owner is always the id of an input coordinate |
| Day06.FindOwner | src/day06.rs:60-73 | the loop over the coordinates computes the cell's owner |
| Day06.FillGrid | src/day06.rs:39-75 | the nested loops fill every cell of the box's grid with its owner |
| Day06.CountAreas | src/day06.rs:77-82 | the counter holds, for every owner, the number of cells of the box it owns |
| Day06.RowBorderIdsMeaning | src/day06.rs:86-95 | the ids swept along the top and bottom rows are exactly the owners of those cells |
| Day06.ColumnBorderIdsMeaning | src/day06.rs:97-106 | the ids swept along the left and right columns are exactly the owners of those cells |
| Day06.BorderIds | src/day06.rs:84-106 | the two sweeps together remove exactly the owners of a border cell |
| Day06.RemoveTopBottom | src/day06.rs:86-95 | the first sweep removes the owners of the top and bottom cells and nothing else |
| Day06.RemoveLeftRight | src/day06.rs:97-106 | the second sweep removes the owners of the left and right cells and nothing else |
| Day06.RemoveBorder | src/day06.rs:84-106 | both sweeps together remove exactly the owners of border cells |
| Day06.FiniteAreasAfterSweep | src/day06.rs:77-106 | counting then sweeping leaves exactly the areas of owners that touch no border |
| Day06.LargestBelow | src/day06.rs:108 | the maximum of the counter's values: absent exactly when the counter is empty, else a value of it bounding all others |
| Day06.Part1 | src/day06.rs:32-109 | an answer exists only for a non-empty input |
| Day06.Part1Correct | src/day06.rs:32-109 | the answer is the area of a coordinate that owns no border cell and no such coordinate owns more; none exists exactly when every coordinate owns nothing or a border cell |
| Day06.SolvePart1 | src/day06.rs:32-109 | bounding box, grid, counter, border sweep and maximum compute the largest finite area |
| Day06.Part2 | src/day06.rs:208-239 | an answer exists exactly for a non-empty input (the widening divides by its length) |
| Day06.BoxWiden | src/day06.rs:211-219 | the widened search box is never empty |
| Day06.TotalDistanceAtLeast | src/day06.rs:212-215 | a point at least `gap` columns from every coordinate has a total distance of at least `n * gap` |
| Day06.TotalDistanceAtLeastY | src/day06.rs:212-215 | a point at least `gap` rows from every coordinate has a total distance of at least `n * gap` |
| Day06.PadEnough | src/day06.rs:216-219 | `n` times one more than `10000 / n` exceeds 10000 |
| Day06.FarInX | src/day06.rs:212-219 | a point far enough left or right of the bounding box is not safe |
| Day06.FarInY | src/day06.rs:212-219 | a point far enough above or below the bounding box is not safe |
| Day06.SafeInSearchBox | src/day06.rs:212-219 | every safe point lies inside the widened search box, so counting the box counts every safe point |
| Day06.SafeInRowBound | src/day06.rs:221-238 | a row's count is at most its length, and equals it exactly when every cell in it is safe |
| Day07.ParseInstruction | src/day07.rs:15-19 | a line parses exactly when it reaches both fixed offsets with a character no lower than 'A' there, and the two letters less 'A' are the prerequisite and the step |
| Day07.Generator | src/day07.rs:11-21 | every line gives the instruction at its position, and the input fails exactly when some line does not parse |
| Day07.ParseInstructionLine | src/day07.rs:3-4 | the instruction sentence for two letters parses back to those two letters |
| Day07.Highest | src/day07.rs:30-35 | the highest step bounds both sides of every instruction and is one of them (or zero for no instruction) |
| Day07.EmptyTable | src/day07.rs:28 | the fresh table has 26 empty lists |
| Day07.Dependencies | src/day07.rs:28-34 | the table exists exactly when every step is a letter, and lists `d` under `s` exactly when "d before s" is an instruction |
| Day07.Setup | src/day07.rs:30-34 | the loop over the instructions builds the table and the highest step |
| Day07.SetupStep | src/day07.rs:30-34 | one more instruction pushes its prerequisite onto its step's list and raises the highest step to cover both letters |
| Day07.DependenciesBounded | src/day07.rs:35-43 | every prerequisite in the table is within the step range, so `step_is_done` is never indexed out of bounds |
| Day07.Pending | src/day07.rs:37 | the count of steps not done is at most the number of steps |
| Day07.PendingUpdate | src/day07.rs:46 | marking a step done lowers the count of steps not done by one |
| Day07.PendingZero | src/day07.rs:37 | no step left means every step is done |
| Day07.PendingAllFalse | src/day07.rs:35 | at the start every step is pending |
| Day07.FirstReady | src/day07.rs:38-51 | the scan finds the lowest step not done whose prerequisites are all done; when stuck, every step is done or waits for one |
| Day07.FindReady | src/day07.rs:38-51 | the `for` loop with its `continue 'outer` computes that scan |
| Day07.Names | src/day07.rs:47 | each step index is written as the letter that many places after 'A' |
| Day07.Part1 | src/day07.rs:23-55 | an answer exists exactly when the order of steps exists |
| Day07.SolvePart1 | src/day07.rs:23-55 | the outer loop doing one available step per round computes the order of part 1 |
| Day07.PickKeepsInv | src/day07.rs:37-49 | doing the step the scan found keeps every step done once, after its prerequisites, and as the lowest available one |
| Day07.PickedBefore | src/day07.rs:37-49 | what held of earlier picks still holds after a later step is appended |
| Day07.PickedLast | src/day07.rs:38-49 | the lowest available step, appended, is a correct pick |
| Day07.OrderCorrect | src/day07.rs:37-52 | running the outer loop to the end does every step and keeps the order invariant |
| Day07.Order | src/day07.rs:37-52 | a finished order has one entry per step and begins with the steps already picked |
| Day07.Part1Correct | src/day07.rs:23-55 | part 1 lists every step up to the highest exactly once, each after all its prerequisites and each the lowest available at its turn |
| Day07.Part1StepsInTable | src/day07.rs:47 | every step listed is a letter, so its name is 'A' to 'Z' |
| Day07.Advance | src/day07.rs:101-107 | each step in progress loses one unit of work, and exactly those with work left stay in progress |
| Day07.Assign | src/day07.rs:109-128 | the search keeps the queue valid, only adds to it, and leaves no available step out while a worker is free |
| Day07.SearchForWork | src/day07.rs:109-128 | the `'search_for_work` loop computes that search |
| Day07.AnyUnfinished | src/day07.rs:119-121 | the scan reports a blocked step exactly when one of its prerequisites still has work |
| Day07.AdvanceKeepsBusy | src/day07.rs:101-107 | a second of work keeps every step in progress distinct, in range, unfinished and with its prerequisites done |
| Day07.TotalWorkAdvance | src/day07.rs:101-107 | a second of work never raises the work left, and lowers it when someone works |
| Day07.FrontPart | src/day07.rs:101-107 | the front part holds exactly the queued steps below the bound |
| Day07.TotalWorkPositive | src/day07.rs:80 | unfinished work means some work is left in total |
| Day07.TotalWorkAtLeast | src/day07.rs:80 | the total bounds each step's work |
| Day07.Round | src/day07.rs:97-128 | one second keeps the queue valid and lowers the measure of work left, so the loop ends |
| Day07.WorkOneSecond | src/day07.rs:97-128 | the loop body computes one round |
| Day07.InitialWork | src/day07.rs:73-75 | step `i` starts with `i + 1 + base` units, defined exactly when that fits a byte |
| Day07.SolvePart2Impl | src/day07.rs:62-132 | table, initial work and the `while` loop compute the time part 2 takes |
| Day07.Part2Start | src/day07.rs:73-80 | before the first second nobody works, step A has work left, and part 2 is the schedule from there |
| Day07.WorkUntilDone | src/day07.rs:80-131 | the `while` loop, one second per round, computes the schedule less one |
| Day07.Schedule | src/day07.rs:80-131 | the schedule ends no earlier than the current second, and at least a second later while work is left |
| Day07.Part2Impl | src/day07.rs:62-132 | no table means no answer, and an answer needs the highest step's work, `highest + 1 + base`, to fit a byte |
| Day07.Part2 | src/day07.rs:57-60 | with 60 seconds of base cost an answer needs the highest step to be at most index 194 |
| Day08.ParseLines | src/day08.rs:3-6 | the lines parse exactly when every word of every line is a number |
| Day08.Generator | src/day08.rs:1-7 | the input parses exactly when every blank-separated word of every line is a number (the `unwrap` panics otherwise) |
| Day08.ParseWords | src/day08.rs:5 | the words parse exactly when every word is a number, one number per word |
| Day08.ShowWords | src/day08.rs:5 | each number is written as its own decimal word |
| Day08.ParseShowWords | src/day08.rs:5 | numbers written as words parse back to themselves |
| Day08.GeneratorRoundTrip | src/day08.rs:1-7 | a non-empty list written on one blank-separated line reads back as the same list |
| Day08.NoLineFeedInJoin | src/day08.rs:4-5 | joining decimal words with blanks puts no line feed in the line |
| Day08.ParseNode | src/day08.rs:67-78 | a parsed node consumes at least its two header numbers and leaves a suffix of the input |
| Day08.ParseChildren | src/day08.rs:74 | exactly `count` children are read, leaving a suffix of the input |
| Day08.ParseSerialize | src/day08.rs:67-78 | parsing reads back a written node and leaves whatever follows it |
| Day08.ParseSerializeAll | src/day08.rs:74 | parsing reads back written siblings and leaves whatever follows them |
| Day08.ParseChildrenCons | src/day08.rs:74 | reading one node in front of its siblings reads the whole list |
| Day08.NodeSum | src/day08.rs:16-19 | a node's sum is the sum of every metadata entry in its subtree |
| Day08.ChildrenSum | src/day08.rs:18 | the children's sums add up to every metadata entry below them |
| Day08.WeightedSnoc | src/day08.rs:37-48 | one more metadata entry adds the value of the child it names, if any |
| Day08.MetadataValueWeighted | src/day08.rs:37-48 | summing referenced values equals each child's value times how often its 1-based index occurs |
| Day08.ZeroWeights | src/day08.rs:37-48 | no metadata gives no value |
| Day08.ValueWeighted | src/day08.rs:21-50 | an inner node is worth each child's value times the number of entries that name it; 0 and indices past the last child count nothing |
| Day08.Value | src/day08.rs:21-50 | a node's value is never negative |
| Day08.MetadataValue | src/day08.rs:37-48 | the referenced values add up to no less than zero |
| Day08.Reference | src/day08.rs:39-45 | an entry of 0 or past the last child is worth 0, and any entry is worth no less than zero |
| Day08.Part1 | src/day08.rs:53-58 | an answer exists exactly when a node parses, and it is the sum of every metadata entry of the tree |
| Day08.Part2 | src/day08.rs:60-65 | an answer exists exactly when a node parses, and it is never negative |
| Day08.SampleSerialized | src/day08.rs:81-82 | the sample numbers are the written form of the sample tree |
| Day08.SampleParses | src/day08.rs:81-82 | the sample numbers parse to the sample tree with nothing left |
| Day08.SampleSum | src/day08.rs:84-89 | the sample tree's metadata sum is 138 |
| Day08.SampleValue | src/day08.rs:91-96 | the sample tree's root value is 66 |
| Day08.Sample | src/day08.rs:84-96 | part 1 of the sample is 138 and part 2 is 66 |
| Day09.RingSizeIs | src/day09.rs:33-57 | after marble `last` the ring holds `last + 1` marbles less two for every multiple of 23 |
| Day09.Start | src/day09.rs:22-31 | the starting board has one score per player and three marbles on the ring |
| Day09.StartValid | src/day09.rs:22-31 | the starting board 0, 2, 1 with marble 2 current is a valid game after marble 2 |
| Day09.Zeros | src/day09.rs:22 | every player starts with zero points |
| Day09.ZerosSum | src/day09.rs:22 | the starting scores add up to zero |
| Day09.Place | src/day09.rs:48-57 | a turn keeps one score per player and the ring length the marbles so far call for |
| Day09.PlaceValid | src/day09.rs:48-57 | a turn keeps the marbles distinct and bounded, the scores non-negative, and every marble on the ring or in a score |
| Day09.PlaceEffect | src/day09.rs:48-57 | an ordinary marble is inserted and becomes current with the scores unchanged; a multiple of 23 removes one marble, which the next player scores together with the marble played |
| Day09.RingLength | src/day09.rs:50-54 | before each turn the ring holds at least three marbles, and at least 23 before a multiple of 23, so the index arithmetic never underflows |
| Day09.RingSizeFloor | src/day09.rs:49-57 | within each run of 23 marbles the ring only grows |
| Day09.PlaceKeepsValid | src/day09.rs:49-51 | inserting a fresh marble keeps the game valid |
| Day09.InsertFresh | src/day09.rs:51 | inserting a value above every marble keeps the marbles distinct and bounded by it |
| Day09.TakeKeepsValid | src/day09.rs:52-56 | removing a marble and scoring it with the marble played keeps the game valid |
| Day09.RemoveKeeps | src/day09.rs:56 | removing a marble keeps the others distinct and bounded |
| Day09.Play | src/day09.rs:33-58 | the game after every turn has one score per player and the ring length the marbles so far call for |
| Day09.PlayValid | src/day09.rs:33-58 | every game reached by play is valid |
| Day09.PlayNext | src/day09.rs:33-58 | the game after one more marble is one more turn |
| Day09.PlayStart | src/day09.rs:26-33 | with no marble past 2 the loop does nothing |
| Day09.PlayTwo | src/day09.rs:27-31 | the game after marble 2 is the ring 0, 2, 1 with marble 2 current, player 1 to have moved and zero scores |
| Day09.HighScore | src/day09.rs:78 | an answer exists exactly when there are players, and it is a player's score no other score exceeds |
| Day09.HighScoreBound | src/day09.rs:18-79 | the winning score is between zero and the value of all marbles played |
| Day09.ScoreAtMostSum | src/day09.rs:78 | a non-negative score is at most the sum of all scores |
| Day09.Turn | src/day09.rs:48-57 | one pass of the loop computes one turn |
| Day09.PlayTurn | src/day09.rs:48-57 | the turn after the game of marble `last` is the game of marble `last + 1` |
| Day09.PlayFrom | src/day09.rs:33-58 | the remaining turns in order reach the game after the highest marble |
| Day09.PlayGame | src/day09.rs:22-58 | the starting board and the turn loop reach the game after the highest marble |
| Day09.SolvePart1Impl | src/day09.rs:18-79 | `solve_part1_impl` computes the winning score |
| Day10.Generator | src/day10.rs:3-27 | every line gives the point at its position, and the input fails exactly when some line does not parse |
| Day10.ParsePoint | src/day10.rs:10-25 | a line parses only when it is long enough to hold both fixed-width fields |
| Day10.ParseShowPoint | src/day10.rs:5-25 | a point written in the puzzle's fixed-width layout reads back as itself |
| Day10.TrimPadded | src/day10.rs:13 | a number padded with leading blanks trims back to the number |
| Day10.ParsePadded | src/day10.rs:11-20 | two padded numbers around ", " read back as the pair |
| Day10.ReadColumns | src/day10.rs:5-6 | the two fields of a written line sit exactly at the columns the reader slices |
| Day10.Step | src/day10.rs:35-51 | a step moves the position by the velocity and keeps the velocity |
| Day10.StepAll | src/day10.rs:70 | every point is stepped once, each by its own velocity, in the same order |
| Day10.After | src/day10.rs:63-71 | stepping never changes the number of points |
| Day10.AfterPosition | src/day10.rs:63-71 | after `t` seconds a point has moved `t` times its velocity and kept its velocity |
| Day10.StepInPlace | src/day10.rs:70 | the in-place loop over the vector leaves every point stepped once |
| Day10.Height | src/day10.rs:86-93 | the bounding box spans at least one row |
| Day10.Width | src/day10.rs:86-95 | the bounding box spans at least one column |
| Day10.LitMeaning | src/day10.rs:96-98 | a cell is lit exactly when some point is at it |
| Day10.Picture | src/day10.rs:93-103 | a picture is drawn exactly when the points span fewer than 20 rows, and it is the bounding box with '#' at points and ' ' elsewhere |
| Day10.Grid | src/day10.rs:94-98 | the field has the box's rows and columns, and each cell is '#' exactly when a point is there |
| Day10.PointsDrawn | src/day10.rs:96-98 | every point lies in the box and its cell, counted from the top-left corner, holds '#' |
| Day10.HashMeansPoint | src/day10.rs:94-98 | a '#' in the picture means some point is at that position |
| Day10.BoxHoldsPoints | src/day10.rs:76-91 | the bounds from the four accumulators hold every point, so no index of the field is out of range |
| Day10.DrawPoints | src/day10.rs:94-98 | the loop writing '#' for each point into a blank field draws the grid |
| Day10.PrintCurrentStep | src/day10.rs:75-104 | the bounds, the field and the joined rows give the shown picture, or nothing when it spans 20 rows or more |
| Day10.NoFitExtend | src/day10.rs:63-71 | a second with no picture extends the run of seconds with none |
| Day10.SolvePart1 | src/day10.rs:60-73 | the answer is the first second whose picture fits, with that picture, and every earlier second had none |
| Day11.TruncDiv | src/day11.rs:60 | signed `/` truncates toward zero: the Euclidean quotient for a non-negative dividend, minus the quotient of the negation otherwise |
| Day11.TruncMod | src/day11.rs:60 | signed `%` completes the truncating division, with a remainder of the dividend's sign |
| Day11.HundredsDigit | src/day11.rs:57-61 | for a non-negative value the result is its hundreds digit; for a negative value it is minus the digit of its negation |
| Day11.FuelLevel | src/day11.rs:49-55 | a power level is a hundreds digit less 5, so it lies in -14..4 with truncating signed arithmetic |
| Day11.FuelLevelRange | src/day11.rs:49-55 | a power level lies in -14..4, and in -5..4 for a non-negative serial and 1-based cells |
| Day11.FuelLevelSamples | src/day11.rs:39-48 | the documented cells: (3,5) of grid 8 is 4, (122,79) of 57 is -5, (217,196) of 39 is 0, (101,153) of 71 is 4 |
| Day11.FuelGrid | src/day11.rs:17-26 | a 300 x 300 grid whose cell at 1-based (x, y) is stored at `[x - 1][y - 1]` and holds that cell's power level |
| Day11.FuelGridSamples | src/day11.rs:100-116 | the three grid lookups of the tests give -5, 0 and 4 |
| Day11.LargestArea | src/day11.rs:64-82 | a result exists exactly for sizes 1 to 301; size 0 and larger sides underflow |
| Day11.ScanRowBest | src/day11.rs:70-79 | scanning a row keeps the best so far: no visited square is larger, and a positive best is the first square with that total |
| Day11.VisitBest | src/day11.rs:71-78 | one more square replaces the best only when strictly larger, which keeps what the best means |
| Day11.ScanRowsBest | src/day11.rs:69-80 | scanning the rows in x-major order keeps what the best means |
| Day11.RowDone | src/day11.rs:69-70 | the end of a row is the start of the next one |
| Day11.LargestAreaCorrect | src/day11.rs:64-82 | the result is the 1-based corner of the first square, in x-major order, with the strictly largest total and that total, or `((0, 0), 0)` when no total is positive |
| Day11.FindLargestArea | src/day11.rs:64-82 | the nested loops compute that square |
| Day11.BestUpToCorrect | src/day11.rs:85-98 | the choice has the first size whose largest total is the maximum over the sizes tried, with that size's corner, or size 0 when no total is positive |
| Day11.BestArea | src/day11.rs:85-98 | the chosen size is below 20, its total is not negative and no size from 1 to 19 has a larger largest total |
| Day11.FindBestArea | src/day11.rs:85-98 | the size loop over 1 to 19 computes that choice |
| Day11.Part1 | src/day11.rs:1-7 | an answer exists exactly when the trimmed input is an integer |
| Day11.Part2 | src/day11.rs:9-15 | an answer exists exactly when the trimmed input is an integer |
| Day12.Pots | src/day12.rs:10-12 | a pot holds a plant exactly when its glyph is '#', one pot per character |
| Day12.Empty | src/day12.rs:18-21 | the padding is `n` pots without a plant |
| Day12.ParseRule | src/day12.rs:28-31 | a rule line parses exactly when it has at least ten characters; its pattern is the first five glyphs and it grows a plant exactly when the tenth is '#' |
| Day12.ParseRules | src/day12.rs:27-32 | the rules parse exactly when every line is long enough, one rule per line |
| Day12.Generator | src/day12.rs:14-35 | the row is the first line after the header padded with 40 empty pots on each side, and the rules come from the lines after the blank one |
| Day12.Lookup | src/day12.rs:47-52 | the lookup succeeds exactly when some rule's pattern is the window |
| Day12.LookupFirst | src/day12.rs:47-51 | the first rule whose pattern matches decides the new state |
| Day12.Neighbourhood | src/day12.rs:46 | a window holds five pots |
| Day12.Windows | src/day12.rs:46-53 | the window map succeeds exactly when some rule matches every window, giving one state per window, each the lookup of that window |
| Day12.Generation | src/day12.rs:43-58 | a generation keeps the row's length, leaves two empty pots at each end, and sets every other pot from its window's rule; a row of fewer than four pots always fails (the `assert_eq!` on the length), and a longer row fails exactly when a window matches no rule |
| Day12.Generations | src/day12.rs:41-59 | the generations keep the row's length |
| Day12.LiveSumAppend | src/day12.rs:61-71 | the numbers of the planted pots of two joined rows add up, the second numbered on from the first |
| Day12.LiveSumEmpty | src/day12.rs:61-71 | empty pots add nothing |
| Day12.PotSum | src/day12.rs:61-71 | a row without plants sums to zero |
| Day12.PotSumOfPadded | src/day12.rs:18-22 | the padding cancels out: the padded row's sum numbers the first real pot 0 |
| Day12.Part1 | src/day12.rs:37-72 | an answer exists exactly when twenty generations succeed |
| Day12.EmptyRowFixed | src/day12.rs:43-58 | with a rule turning the empty window empty, an empty row stays empty |
| Day12.SolvePart1 | src/day12.rs:37-72 | twenty generations and the summing loop compute part 1 |
| Day12.Evolve | src/day12.rs:41-59 | the generation loop on a mutable row computes the given number of generations |
| Day12.SumPots | src/day12.rs:61-71 | the summing loop numbers pot `i` as `i - 40` and adds the planted ones |
| Day12.GenerationsNone | src/day12.rs:52 | a failed generation fails every later count |
| Day12.NoneStays | src/day12.rs:52 | once a generation fails, every later count of generations fails |
| Day13.RotationLaws | src/day13.rs:251-268 | left and right undo each other, two rights face the opposite way and four rights face the start |
| Day13.TurnCycle | src/day13.rs:277-289 | the crossing memory cycles Left, Straight, Right with period exactly three |
| Day13.Turn | src/day13.rs:210-216 | a crossing keeps the orientation exactly when the memory says straight on, and never turns a cart around |
| Day13.CartOrientation | src/day13.rs:303-310 | exactly the glyphs `^ > v <` spawn a cart, facing the way its glyph draws it |
| Day13.FromChar | src/day13.rs:104-129 | exactly the track and cart glyphs are read; '/' and '\\' pick their curve by whether the piece to the left connects east; a cart glyph stands on a straight running its way; every other piece draws as its glyph |
| Day13.AdvanceBack | src/day13.rs:155-165 | moving one cell and then back the opposite way returns to the start, and the way back never underflows |
| Day13.Advance | src/day13.rs:155-165 | a move changes exactly one coordinate by one: the column when moving east or west, the row when moving north or south, increasing for east and south |
| Day13.Steer | src/day13.rs:193-224 | a curve entered through one side is left through its other side with the memory kept; a crossing turns by the memory and advances it; everything else changes nothing |
| Day13.MoveCart | src/day13.rs:189-225 | a move succeeds exactly when the step neither underflows nor leaves the grid, and the cart then stands one cell on and steers on the piece reached |
| Day13.MoveKeepsOnTrack | src/day13.rs:189-225 | on well-formed track a cart on the track moves without panic and stays on the track |
| Day13.CartLeTotal | src/day13.rs:18 | ordering carts by position, row first, is a total preorder |
| Day13.SortedCartsPermutation | src/day13.rs:17-18 | the sorted carts are a permutation of the carts |
| Day13.TickVisitsInPositionOrder | src/day13.rs:17-18 | a tick visits the carts row by row, left to right |
| Day13.TickCart | src/day13.rs:25-54 | one cart's pass reports a collision only without removal, adds at most one moved cart, and without removal adds exactly one and leaves the skiplist empty |
| Day13.TickFrom | src/day13.rs:24-55 | from any index on, a collision is reported only without removal, the survivors are at most the moved carts plus the carts ahead, and exactly that many without removal |
| Day13.Tick | src/day13.rs:16-59 | a tick reports a collision only without removal, never adds carts, keeps every cart without removal, and on no carts is done with no carts |
| Day13.FindFrom | src/day13.rs:42-46 | the search finds the first index from the start that is not passed over and holds a cart at the position, and none exists when it finds nothing |
| Day13.TickFromWithoutRemoval | src/day13.rs:24-55 | from any index on, a tick without removal reports the first collision or moves every cart once |
| Day13.LandsOnCart | src/day13.rs:32-46 | the cart at `i` finds a cart at its landing cell exactly when it collides with a moved or an unmoved cart |
| Day13.TickFromNoRemovalStep | src/day13.rs:32-54 | without removal one cart either reports its landing cell or joins the moved carts |
| Day13.CrashOutcome | src/day13.rs:38-49 | the first colliding cart's landing cell is the reported one |
| Day13.TickWithoutRemoval | src/day13.rs:16-59 | without removal, when no cart leaves the grid, a tick reports the landing cell of the first colliding cart in visiting order, and otherwise every cart has moved once, in order |
| Day13.TickFromWithoutRemovalIgnoresLiveOnly | src/day13.rs:42-51 | without removal the skiplist stays empty, so the correction changes nothing from any index on |
| Day13.TickWithoutRemovalIgnoresLiveOnly | src/day13.rs:42-51 | part 1's tick is the same as written and corrected |
| Day13.RemoveAtKeeps | src/day13.rs:41 | removing a moved cart shortens the list by one, adds nothing and keeps the cells distinct |
| Day13.TickFromRemoving | src/day13.rs:24-55 | with removal, from any index on, no collision is reported and the survivors stand on distinct cells, each a moved cart |
| Day13.TickCartRemoving | src/day13.rs:29-54 | with removal one cart never reports a collision, and the moved carts keep distinct cells and gain only that cart moved |
| Day13.TickWithRemoval | src/day13.rs:16-59 | with removal a tick never reports a collision, never adds carts, and leaves survivors on distinct cells, each the moved form of a cart it started with |
| Day13.TickFromOnTrack | src/day13.rs:24-55 | on well-formed track, from any index on, a tick never panics and keeps every cart on the track |
| Day13.TickCartOnTrack | src/day13.rs:29-54 | on well-formed track one cart's pass never panics and keeps the moved carts on the track |
| Day13.TickOnTrack | src/day13.rs:16-59 | on well-formed track with every cart on it, a tick never panics and every surviving cart stays on the track |
| Day13.LiveFromSkip | src/day13.rs:51 | putting a live index on the skiplist lowers the count of live indices by one |
| Day13.LiveFromUnaffected | src/day13.rs:51 | skiplisting an index already passed leaves the count of live indices ahead unchanged |
| Day13.LiveFromNone | src/day13.rs:22 | with an empty skiplist every index ahead is live |
| Day13.TickFromParity | src/day13.rs:24-55 | in the corrected tick the moved carts plus the live carts ahead keep their parity |
| Day13.TickCartParity | src/day13.rs:29-54 | one cart of the corrected tick changes moved plus live carts by zero or two |
| Day13.CorrectedTickParity | src/day13.rs:16-59 | the corrected tick with removal removes carts in pairs only, so the number of carts keeps its parity |
| Day13.SkiplistSorted | src/day13.rs:17-18 | the three carts of the crossing example are already in visiting order |
| Day13.SkiplistFirstMove | src/day13.rs:42-51 | the first cart runs onto the cart on the crossing, which goes on the skiplist |
| Day13.SkiplistSecondMoveAsWritten | src/day13.rs:42-51 | as written, the second cart's search among unmoved carts finds the wreck already on the skiplist |
| Day13.SkiplistAsWritten | src/day13.rs:16-59 | as written, one tick of the crossing example with removal leaves no cart of three |
| Day13.SkiplistSecondMoveCorrected | src/day13.rs:42-51 | corrected, the second cart's search passes over the wreck |
| Day13.SkiplistCorrected | src/day13.rs:16-59 | corrected, the crossing example keeps its third cart, on the crossing and facing north |
| Day13.Board.constructor | src/day13.rs:8-12 | a board holds the given track and carts |
| Day13.Board.Step | src/day13.rs:16-59 | the loop over the sorted carts computes the tick as written, and the carts become the survivors unless the tick stopped |
| Day13.Board.StepCorrected | src/day13.rs:16-59 | the same loop with the search among unmoved carts passing over the skiplist computes the corrected tick |
| Day13.Board.StepWith | src/day13.rs:16-59 | the shared loop computes the tick as written or corrected, as its flag says |
| Day13.ParseRow | src/day13.rs:297-316 | a line of track and cart glyphs parses, one piece per character |
| Day13.ParseRowReads | src/day13.rs:298-314 | each piece of a parsed row is its character read in the light of the piece to its left |
| Day13.ReadsSnoc | src/day13.rs:312-313 | reading one more character keeps what held of the pieces before it |
| Day13.ParseGrid | src/day13.rs:294-317 | the grid parses exactly when every line does, one row per line |
| Day13.RowCarts | src/day13.rs:303-310 | every cart glyph of a line spawns a cart there facing its way with the memory at Left, and nothing else spawns a cart |
| Day13.GridCarts | src/day13.rs:293-317 | the carts of the input are exactly the carts its lines spawn |
| Day13.GeneratedCartsOnTrack | src/day13.rs:291-322 | every cart of a parsed input stands on track running the way it faces |
| Day13.ParseRowFails | src/day13.rs:127 | a character that is not track or a cart makes the line fail |
| Day13.ParseGridSnoc | src/day13.rs:294-317 | reading one more line extends the grid by its row |
| Day13.RowCartsSnoc | src/day13.rs:303-310 | one more character spawns a cart exactly when it is a cart glyph |
| Day13.GridCartsSnoc | src/day13.rs:293-317 | one more line adds its carts after the earlier ones |
| Day13.GenerateStep | src/day13.rs:294-317 | one more line read adds its row to the grid and its carts to the carts |
| Day13.Spawn | src/day13.rs:303-310 | a cart glyph at the end of a line adds its cart to the line's carts |
| Day13.GenerateLine | src/day13.rs:297-316 | the per-line closure reads the line's row and spawns its carts |
| Day13.Generate | src/day13.rs:291-322 | `generator` fails exactly when a line does not parse, and otherwise builds a board of the parsed grid and the spawned carts |
| Day13.CellGlyph | src/day13.rs:64-71 | a cell with a cart on it draws a cart glyph, and one without draws its piece |
| Day13.RenderLine | src/day13.rs:64-73 | one drawn row has a character per piece, each the cell's glyph |
| Day13.RenderLines | src/day13.rs:62-77 | every row of the board is drawn in order |
| Day13.WellFormedCurvesConsistent | src/day13.rs:112-126 | on well-formed track every curve's choice agrees with the piece to its left |
| Day13.GlyphReadsBack | src/day13.rs:104-147 | in a row with consistent curves each piece's glyph reads back as that piece |
| Day13.TrackLine | src/day13.rs:132-147 | the glyphs of a row without carts, one per piece |
| Day13.GlyphIsPlainTrack | src/day13.rs:132-147 | a piece's glyph is track, never a cart and never a line feed |
| Day13.NoCartsWithoutCartGlyphs | src/day13.rs:303-310 | a line without cart glyphs spawns no carts |
| Day13.RenderLineWithoutCarts | src/day13.rs:64-73 | with no carts a drawn row is its track's glyphs |
| Day13.CurvesConsistentPrefix | src/day13.rs:112-126 | consistent curves stay consistent in every prefix of a row |
| Day13.ParseRowLast | src/day13.rs:312-313 | a parsed row is the parsed front with its last piece after it |
| Day13.ParseRowSnoc | src/day13.rs:312-313 | reading one more character extends the parsed row by one piece |
| Day13.RowRoundTrip | src/day13.rs:104-147 | a row with consistent curves, drawn and read back, is the same row |
| Day13.RowRoundTripStep | src/day13.rs:104-147 | the last piece reads back once the rest does and its glyph reads back |
| Day13.TrackLineReadsBack | src/day13.rs:104-147 | a drawn row reads back as itself, spawns no carts and holds no line feed |
| Day13.RenderedRow | src/day13.rs:62-77 | a rendered row of well-formed track without carts reads back as the row |
| Day13.NoGridCarts | src/day13.rs:293-317 | lines that spawn no carts give no carts |
| Day13.LinesReadBack | src/day13.rs:294-317 | lines that each read back as their row give back the grid and no carts |
| Day13.RenderRoundTrip | src/day13.rs:62-77 | reading the rendering of well-formed track without carts gives back the track and no carts |
| Day13.CrashAfterFuel | src/day13.rs:324-332 | more ticks do not change a collision already found |
| Day13.Loop | src/day13.rs:327-331 | with no ticks left there is no answer yet |
| Day13.LoopFuel | src/day13.rs:325-343 | once the repeated ticks give an answer, more ticks do not change it |
| Day13.LoopStuck | src/day13.rs:325-343 | a tick that leaves the carts as they were never leads to an answer |
| Day13.CrashRound | src/day13.rs:327-331 | one tick of part 1 without carts goes on with no carts |
| Day13.CrashAfter | src/day13.rs:324-332 | a collision is found only when there was a cart to begin with |
| Day13.CrashAfterStep | src/day13.rs:327-331 | one tick of part 1 returns its collision, stops on a panic, or goes on with the moved carts |
| Day13.SolvePart1 | src/day13.rs:324-332 | the loop of part 1 on a cloned board finds the first collision within the ticks allowed |
| Day13.LastCartAfterFuel | src/day13.rs:334-343 | more ticks do not change a last cart already found |
| Day13.LastRound | src/day13.rs:337-341 | one tick of part 2 without carts goes on with no carts |
| Day13.LastCartAfter | src/day13.rs:334-343 | a last cart is found only when there was a cart to begin with |
| Day13.LastCartAfterStep | src/day13.rs:337-341 | one tick with removal, as written or corrected, returns the last cart when exactly one is left and goes on otherwise |
| Day13.SolvePart2 | src/day13.rs:334-343 | the loop of part 2 on a cloned board, with `step(true)` as written, finds the last cart's position within the ticks allowed |
| Day13.SolvePart2Corrected | src/day13.rs:334-343 | the same loop with the corrected tick finds the last cart's position within the ticks allowed |
| Day13.SkiplistPart2AsWritten | src/day13.rs:334-343 | as written, part 2 on the crossing example never answers: the first tick leaves no cart |
| Day13.SkiplistPart2Corrected | src/day13.rs:334-343 | corrected, part 2 on the crossing example answers the crossing after one tick |
| Day13.HeadOnFirstMove | src/day13.rs:413-418 | the first cart of `>--<` moves one step east |
| Day13.HeadOnSecondMove | src/day13.rs:413-418 | the second cart of `>--<` moves one step west |
| Day13.HeadOnFirstTick | src/day13.rs:413-418 | in the first tick of `>--<` each cart moves one step inward |
| Day13.HeadOnSecondTick | src/day13.rs:413-418 | in the second tick the first cart runs into the second before that one moves |
| Day13.HeadOnCrash | src/day13.rs:413-418 | the head-on pair `>--<` collides at x 2, y 0 |
| Day14.NewRecipes | src/day14.rs:24-30 | a round appends the decimal digits of the two scores' sum: two digits exactly when the sum reaches 10, one otherwise |
| Day14.Next | src/day14.rs:20-35 | a round keeps the old recipes, appends the new digits, and leaves both elves on the board |
| Day14.Rounds | src/day14.rs:82-84 | every scoreboard reached by rounds is valid |
| Day14.RoundsGrow | src/day14.rs:82-84 | each round adds at least one recipe and keeps the earlier ones |
| Day14.NextExtends | src/day14.rs:27-30 | a round keeps every recipe and appends one or two |
| Day14.State.constructor | src/day14.rs:12-18 | a new state is the scoreboard 3, 7 with the elves on its two recipes |
| Day14.State.Step | src/day14.rs:20-35 | stepping the state in place computes one round |
| Day14.DigitString | src/day14.rs:42-43 | each score is written as its one decimal digit |
| Day14.TakeTenAfter | src/day14.rs:37-44 | the digits of up to ten recipes from the index on, fewer near the end and none past it |
| Day14.EndsWith | src/day14.rs:47-59 | a match is an occurrence ending just before the last recipe or at the end, the earlier preferred, and none is reported exactly when neither holds |
| Day14.GrowTo | src/day14.rs:82-84 | the loop stops with a valid scoreboard of at least the target length |
| Day14.GrowToStep | src/day14.rs:82-84 | below the target the loop does one more round |
| Day14.GrowToEnoughFuel | src/day14.rs:82-84 | enough rounds always reach the target, since each adds a recipe |
| Day14.Part1 | src/day14.rs:77-87 | an answer is ten decimal digits |
| Day14.Part1Total | src/day14.rs:82-86 | enough rounds always give the ten digits |
| Day14.SolvePart1 | src/day14.rs:77-87 | a non-number fails, and a number `n` gives the ten digits after the first `n` recipes |
| Day14.Part1Loop | src/day14.rs:80-86 | the loop after parsing computes part 1 |
| Day14.Grow | src/day14.rs:80-84 | stepping a fresh state until it holds enough recipes |
| Day14.GrowFrom | src/day14.rs:82-84 | the rounds on a state in place reach the target scoreboard |
| Day14.Needle | src/day14.rs:91 | the needle exists exactly when no character's byte lies below '0' (the subtraction would underflow), one score per character |
| Day14.SearchStep | src/day14.rs:93-98 | one round of the search stops at a needle among the last recipes and goes on otherwise |
| Day14.Search | src/day14.rs:93-98 | what the search reports is an occurrence of the needle ending at one of the last two recipes of a longer scoreboard |
| Day14.SearchFindsFirst | src/day14.rs:93-98 | what the search reports is an occurrence and no earlier one ends after the bound |
| Day14.ExtendSearch | src/day14.rs:50-58 | one or two more recipes either show the needle at the end or add no new occurrence |
| Day14.RoundsNext | src/day14.rs:93-94 | rounds after the next scoreboard are rounds after this one |
| Day14.SearchIsRounds | src/day14.rs:93-98 | the recipes the search reports are the scoreboard some rounds on |
| Day14.SearchKeepsStart | src/day14.rs:93-98 | the recipes a search reports start with the recipes it started from |
| Day14.Part2 | src/day14.rs:89-99 | the answer is where the needle first occurs on the scoreboard after some round, ignoring an occurrence inside the starting 3, 7 |
| Day14.SolvePart2 | src/day14.rs:89-99 | a character below '0' fails, and otherwise the search's position is the answer |
| Day14.FindNeedle | src/day14.rs:92-98 | the loop on a fresh state computes the search |
| Day14.SearchFrom | src/day14.rs:93-98 | the rounds of the search on a state in place compute the search |
| Text.SplitOn | src/day06.rs:23 | `split` gives at least one piece, and the pieces joined with the pattern give back the text |
| Text.SplitOnCharFree | src/day03.rs:25 | splitting at a character leaves it in no piece |
| Text.SplitJoinRoundTrip | src/day08.rs:5 | splitting at a character undoes joining pieces that do not contain it |
| Text.Lines | src/day01.rs:4 | `lines` gives pieces without line feeds, split at each "\n" only |
| Text.LinesRoundTrip | src/day01.rs:4 | `lines` takes apart lines each followed by a line feed |
| Text.TrimStart | src/day10.rs:13 | trimming the start drops exactly the leading ASCII whitespace |
| Text.TrimEnd | src/day10.rs:13 | trimming the end drops exactly the trailing ASCII whitespace |
| Text.ParseNat | src/day08.rs:5 | an unsigned `parse` succeeds exactly on decimal digits with an optional '+' |
| Text.ParseInt | src/day06.rs:25-26 | a signed `parse` succeeds exactly on decimal digits with an optional sign, and the sign decides the result's sign |
| Text.NatRoundTrip | src/day08.rs:5 | a non-negative number written in decimal parses back |
| Text.IntRoundTrip | src/day06.rs:25-26 | an integer written in decimal parses back |
| Text.ParseAll | src/day07.rs:13-20 | collecting parsed lines gives one value per line, and fails only on a line that does not parse |
| Sorting.Insert | src/day13.rs:18 | inserting adds the element to the multiset of the sequence |
| Sorting.InsertSorted | src/day13.rs:18 | inserting into a sorted sequence keeps it sorted |
| Sorting.SortBy | src/day13.rs:18 | the sort keeps the number of elements |
| Sorting.SortByPermutation | src/day13.rs:18 | the sort is a permutation of its input |
| Sorting.SortBySorted | src/day13.rs:18 | the sort orders its input by a total preorder |
| Sorting.SortBySortedIsIdentity | src/day13.rs:18 | sorting leaves an already sorted sequence as it is |
| Sorting.SortByMembers | src/day13.rs:18 | the sort has exactly the elements of its input |
| Common.Max | src/day09.rs:78 | `max` of a non-empty sequence is an element no other exceeds |
| Common.Min | src/day10.rs:76-91 | `min` of a non-empty sequence is an element no other undercuts |
| Common.SumAppend | src/day08.rs:17-18 | the sum of joined sequences is the sum of the sums |

## Left out

- `src/lib.rs`: the runner glue (`aoc_lib!`, the `#[aoc]` and `#[aoc_generator]` registrations) has no logic of its own.
- The `misc_utils` accumulators `Min` and `Max` are not part of this model; they are plain minima and maxima over non-empty sequences (`Common.Max`, `Common.Min`).
- The rayon variants (`src/day05.rs:39-52`, `src/day05.rs:76-96`, `src/day06.rs:111-185` and the parallel count of `src/day06.rs:222-238`) compute what the sequential versions compute; only the sequential versions are modelled.
- The linked-list marble game (`src/day09.rs:81-155`, `solve_part1_impl_linked_list` with its cursor moves, and the part 2 entry that calls it) relies on a foreign crate's cursor semantics; the vector version of the same game is modelled.
- Machine integer widths: `i32`, `usize` and `u8` overflow is not modelled, except where the model writes it out (the 32-bit range of `Day01.ParseI32`, the letter arithmetic of day 7, the unsigned underflows that panic).
- Case logic is ASCII only: `is_uppercase`, `to_ascii_lowercase` and the day 5 reaction test do not cover other Unicode letters.
- Day04.SolvePart1: the guard is specified as some sleepiest guard, because the source's `max_by_key` over a `HashMap` breaks ties in iteration order, which is unspecified.
- Day04.SolvePart2: the (guard, minute) pair is some pair with the largest count, for the same reason.
- Day01.SolvePart2: the endless `cycle()` loop is bounded by a fuel argument; with too little fuel the model answers `None` where the source would keep going.
- Day10.SolvePart1: the search for the first fitting second is bounded by fuel for the same reason.
- Day13.SolvePart1: the tick loop is bounded by fuel; the source's loop never ends when no crash happens.
- Day13.SolvePart2: bounded by fuel as well; the source loops forever when no tick leaves exactly one cart, which the model shows as `None`. As written, a tick can remove all of three carts (`Day13.SkiplistPart2AsWritten`), after which the source never ends.
- Day13.SolvePart2Corrected: bounded by fuel in the same way; with the corrected tick an even number of carts never reaches one, so the source would loop forever there too.
- Day14.SolvePart1: the growth loop is bounded by fuel.
- Day14.SolvePart2: the search loop is bounded by fuel.
- Day14.Part2: the search begins after the first round, so an occurrence lying wholly inside the starting scoreboard 3, 7 is not reported; the contract states exactly this.
- Day13.ParseRow: its contract states only that a line of track and cart glyphs parses; the converse is stated by `Day13.ParseRowFails` rather than as one equivalence.
- Day05.Part2EarlyCollapse: proved to be at most part 1's answer; its equality with `Day05.Part2` is not proved.
- The sample answers of the source's tests that need long unfoldings are not stated as lemmas: day 2, day 4 (240 and 4455), day 5 part 2, day 6 (17 and 16), day 7 ("CABDFE" and 15), day 9, day 10, day 11 (serials 18 and 42), day 12, the day 13 sample boards and day 14.
- `Display`, `println!` and `format!` output is left out, except the rendered rows of day 10's message and the glyphs of day 13.
- Text.Lines: only "\n" ends a line; a "\r" before it stays in the line, whereas Rust's `lines` also strips it from "\r\n". Input with CRLF line endings therefore makes the parsers that do not trim their lines, such as those of day 3 and day 13, fail in the model where the source reads it.
- Text.TrimStart: only the six ASCII whitespace characters (blank, tab, line feed, vertical tab, form feed, carriage return) are trimmed, not every Unicode White_Space character that Rust's `trim_start` removes.
- Text.TrimEnd: the same ASCII-only restriction as `Text.TrimStart`, for Rust's `trim_end`.
- Day03.ParseClaim: `[1..]` on the id piece and `[..len - 1]` on the corner piece are counted in characters; in the source they cut bytes, so a piece starting or ending with a non-ASCII character is read differently, or panics in the source at a character boundary where the model parses it.
- Day04.ParseMinutes: reads characters 15 and 16 where the source slices bytes 15 to 17; a non-ASCII character earlier in the line moves the source's slice (or makes it panic at a character boundary) but not the model's.
- Day04.ParseEvent: the 19-position prefix and the `[1..]` cut of the guard number are counted in characters, not bytes, with the same consequence for non-ASCII lines.
- Day07.ParseInstruction: tests the characters at positions 5 and 36 where the source reads the bytes there; on a line with a non-ASCII step name, such as 'É', the source reads another byte (and can underflow and panic) while the model parses the line.
- Day10.ParsePoint: the length check and the two fixed-width fields are counted in characters where the source slices bytes; a non-ASCII line is read differently or does not hit the source's character-boundary panic.
- Day12.ParseRule: the ten-character length and the glyphs at positions 0 to 4 and 9 are characters where `&l[0..5]` and `&l[9..10]` slice bytes.
- Day12.ParseRules: its length condition is stated in characters, not bytes, for the same reason as `Day12.ParseRule`.
- Day12.Generator: the 15-position header of the first line and the rule slices are counted in characters, not bytes.
- Day10.PrintCurrentStep: with no points at all the source has no bounding box; the model then draws nothing.

## Findings

| source | as written | input that shows it | evidently intended | confidence | as-written member | corrected member |
|---|---|---|---|---|---|---|
| src/day13.rs:42-51 | with crash removal on, a moving cart looks for a collision among all carts after it in the sorted list, including carts already put on the skiplist because an earlier cart hit them | three carts around a crossing: one at (x 2, y 0) heading south, one at (x 1, y 1) heading east, one at (x 2, y 1) heading west; one tick with removal leaves no cart | the first and third carts collide and are removed; the east-bound cart then meets only the removed wreck and should survive, ending on the crossing at (x 2, y 1) facing north, so that a tick removes carts in pairs only | not executed | Day13.SkiplistAsWritten (with Day13.SkiplistPart2AsWritten) | Day13.SolvePart2Corrected (with Day13.SkiplistCorrected, Day13.SkiplistPart2Corrected and Day13.CorrectedTickParity) |
| src/day01.rs:15-16 | the set of seen frequencies starts empty, so the starting frequency 0 counts as seen only once it is reached again | the changes +1, -1: the running sums are 1, 0, 1, and the source answers 1 | 0, which is the first frequency reached twice when the start counts | not executed | Day01.SolvePart2AsWritten (with Day01.SeedMatters) | Day01.SolvePart2 |
