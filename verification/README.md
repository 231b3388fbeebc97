# Advent of Code 2025 solvers, modelled in Dafny

This project models the puzzle solvers of the `aoc2025` repository: one Go program per day
(`dayNN_go/main.go`, days 1 to 12) plus the Python checker `day10_go/solve_ilp.py`. Each program
reads a puzzle input, computes a "part 1" and a "part 2" answer and prints them. The model keeps
the computation and drops the file reading and printing. Each Go function becomes a Dafny function,
or a method where the Go code loops or mutates. Each is proved against a specification function that
says what the answer means:

- Day 1 turns a safe dial and counts zero hits.
- Day 2 sums the invalid "repeated digits" product IDs in a set of ranges.
- Day 3 picks the largest k-digit subsequence of each battery bank.
- Day 4 finds the paper rolls a forklift can reach and removes them repeatedly.
- Day 5 checks fresh ingredient IDs and merges ID ranges.
- Day 6 reads a cephalopod math worksheet by rows, and rotated by columns.
- Day 7 counts tachyon beam splits and, with a memo table, timelines.
- Day 8 connects the closest junction boxes into circuits.
- Day 9 finds the largest rectangle with red-tile corners, and the largest inside a polygon.
- Day 10 solves toggle-light machines by search and joltage-counter machines greedily. The Python
  checker parses the same machines and verifies counter solutions.
- Day 11 counts paths through a device graph.
- Day 12 parses present shapes and regions and applies an area test.

Shared modules:

- `Wrappers` holds `Option` and `Result`. `Failed` stands for a `log.Fatal` exit.
- `Decimal` covers Go's `strconv.Atoi` and `strconv.Itoa` on decimal text, digit scanning, and `fmt.Sscanf` with `%d`.
- `GoArith` covers Go's truncating `/` and `%`.
- `Sorting` is an insertion sort by an integer key. It stands for `sort.Slice`, whose tie order is
  unspecified.
- `UnicodeSpace` holds the white-space sets of Go's `unicode.IsSpace` and Python's `str.isspace`.

Most Go panics (an index out of range, a missing map key) become preconditions. A few that the
input can trigger are modelled as an absent or failed result instead: a row too short for its column
in `Day06.SumColumn` and `Day06.ProductColumn` gives `None`, and a negative shift in
`Day10Parse.SwitchMask` gives `None` and fails `Day10Parse.ParseSwitch`. A `log.Fatal` becomes
an error result. Go map iteration order, which is random, becomes a set or a caller-supplied
ordering. `rand.IntN` becomes a caller-supplied choice.

## Model

| member | source | states |
|---|---|---|
| GoArith.GoMod | day01_go/main.go:24-27 | Go's `%` truncates toward zero: the remainder has the dividend's sign, lies strictly between -b and b, and matches Euclidean `%` on non-negative dividends |
| Day01.LiftedGoModIsMod | day01_go/main.go:24-27 | Go's remainder followed by the "add 100 while negative" loop gives the mathematical value mod 100 |
| Day01.DialStaysOnFace | day01_go/main.go:16-30 | after any well-formed sequence of turns the dial is in 0..99, and each turn moves it by the signed amount mod 100 |
| Day01.Part1 | day01_go/main.go:12-39 | the count equals the number of turns that leave the dial exactly on 0 |
| Day01.ZeroHitsClosedForm | day01_go/main.go:41-48 | the number of multiples of 100 in [lo, hi] is hi/100 - (lo-1)/100 |
| Day01.StepClicksCountZeroHits | day01_go/main.go:60-85 | the Go division formulas for a right turn and a left turn count exactly the multiples of 100 the dial passes |
| Day01.ClickStepCountsZeroHits | day01_go/main.go:54-86 | one step of the click counter lands where the turn lands and adds the zero passes of that turn |
| Day01.ClickFoldCountsZeroPasses | day01_go/main.go:49-91 | over a whole input the click counter counts every time the dial points at 0, mid-turn or at the end |
| Day01.Part2 | day01_go/main.go:49-91 | the loop's result is the click fold, and on well-formed input the total number of zero passes |
| Day02.IsEven | day02_go/main.go:81-83 | true exactly for even numbers |
| Day02.IsSequence | day02_go/main.go:28-48 | true iff the decimal text of the value is some block repeated at least twice; never true for a single digit |
| Day02.DoubledIsRepetition | day02_go/main.go:55-56 | the number formed by writing v twice (`Atoi(vs+vs)`) is a repetition |
| Day02.DoubledInjective | day02_go/main.go:55-56 | writing v twice is injective, so part 1 never counts an ID twice |
| Day02.DoubledValue | day02_go/main.go:55-56 | writing v twice equals v * (10^digits(v) + 1) |
| Day02.MakeRangeAsWritten | day02_go/main.go:100-116 | the range keeps lo and hi; its prefixes are lo and hi with the digit counts the source's two cases choose removed |
| Day02.MakeRange | day02_go/main.go:100-116 | corrected prefixes: loPrefix keeps the first len/2 digits of lo, hiPrefix the first len-len/2 digits of hi |
| Day02.PrefixRuleFindsEveryDoubledId | day02_go/main.go:54-57 | with the corrected prefixes, every doubled number in [lo, hi] has its half between loPrefix and hiPrefix, so part 1 misses none |
| Day02.AsWrittenMissesDoubledId | day02_go/main.go:107-114 | with the prefixes as written, range 123-99999 contains 1010 yet loPrefix is above 10 |
| Day02.Part1 | day02_go/main.go:50-65 | the loop sums the doubled numbers in each range, scanning halves between the prefixes |
| Day02.Part2 | day02_go/main.go:67-79 | the loop sums every value in each range whose text is a repetition |
| Day03.MaxChar | day03_go/main.go:27-29 | the largest character of a non-empty window, and it occurs there |
| Day03.FirstIndex | day03_go/main.go:30 | the first position of a character present in the string |
| Day03.Greedy | day03_go/main.go:22-33 | the greedy pick has exactly n+1 characters when the line is long enough, and is the line itself otherwise |
| Day03.GreedyIsSubsequence | day03_go/main.go:22-33 | the greedy pick is a subsequence of the bank |
| Day03.GreedyIsLexMax | day03_go/main.go:22-33 | no subsequence of the same length is lexicographically larger than the greedy pick |
| Day03.LexLeValue | day03_go/main.go:34 | for equal-length digit strings, lexicographic order implies numeric order |
| Day03.PickIsLargest | day03_go/main.go:17-35 | the greedy k digits form the largest number of any k-digit subsequence of the bank |
| Day03.PickDigits | day03_go/main.go:21-33 | the digit-picking loop computes the greedy pick |
| Day03.Solve | day03_go/main.go:17-38 | the total is the sum over the banks of the values of the picks |
| Day04.NeighborsCountsBox | day04_go/main.go:11-27 | the neighbour count is the number of rolls in the 3x3 box around a cell, excluding the cell; at most 8 |
| Day04.CountNeighbors | day04_go/main.go:11-27 | the scan over the eight directions returns that neighbour count |
| Day04.CountRolls | day04_go/main.go:29-39 | the count is the number of '@' cells of the grid |
| Day04.Part1 | day04_go/main.go:41-54 | the count is the number of rolls with fewer than four neighbouring rolls |
| Day04.AccessibleAt | day04_go/main.go:47 | a cell is accessible iff it holds a roll and has fewer than 4 roll neighbours |
| Day04.FindRemoveables | day04_go/main.go:56-67 | the list holds exactly the accessible cells, in row-major order |
| Day04.RemoveRolls | day04_go/main.go:79-81 | listed cells become '.', others are unchanged, the rolls left are exactly the old rolls not listed, and the roll count strictly drops |
| Day04.Part2 | day04_go/main.go:69-89 | cells only ever change from '@' to '.'; at the end no roll is accessible and the rolls left form a stable set; every stable set of the original rolls survives, so what is left is the largest stable set; the result is the number of rolls removed |
| Day04.StableUnreachable | day04_go/main.go:41-54 | no roll of a stable set (each member has at least 4 neighbouring rolls within the set) is ever accessible |
| Day04.SettledIsStable | day04_go/main.go:69-89 | when no roll is accessible, the rolls form a stable set |
| Day05.IdRange.Size | day05_go/main.go:18-20 | end-start+1 is the number of IDs in a well-formed range |
| Day05.MembersSize | day05_go/main.go:18-20 | a well-formed range has end-start+1 members |
| Day05.OverlapsSymmetric | day05_go/main.go:26-29 | overlap is symmetric |
| Day05.OverlapsIffShared | day05_go/main.go:26-29 | two well-formed ranges overlap iff some ID lies in both |
| Day05.Merge | day05_go/main.go:31-42 | merging succeeds iff the ranges overlap, and then spans the smaller start to the larger end |
| Day05.MergeIsUnion | day05_go/main.go:31-42 | the merge of overlapping ranges covers exactly the union of their IDs |
| Day05.Part1 | day05_go/main.go:44-56 | the count is the number of listed values lying in some range |
| Day05.MergeSorted | day05_go/main.go:66-78 | the in-place merge keeps the list sorted by start, covers the same IDs, and leaves a strictly separated chain |
| Day05.Part2 | day05_go/main.go:60-85 | the total equals the number of distinct IDs covered by the input ranges |
| Day05.ChainSizeIsCovered | day05_go/main.go:80-84 | for a separated chain, summing sizes counts each covered ID once |
| Day05.SameMultisetSameCover | day05_go/main.go:61-64 | sorting does not change the covered IDs |
| Day05.ChainHasNoOverlaps | day05_go/main.go:68-78 | after merging, no two neighbouring ranges overlap |
| Day06.GrandTotalOk | day06_go/main.go:16-37 | the worksheet total succeeds iff every column is readable |
| Day06.FailedStays | day06_go/main.go:35-36 | once a column fails, the whole total fails |
| Day06.SumColumn | day06_go/main.go:20-26 | a '+' column gives the sum of its numbers, or fails when a row is too short |
| Day06.ProductColumn | day06_go/main.go:27-34 | a '*' column gives the product of its numbers, or fails when a row is too short |
| Day06.Part1 | day06_go/main.go:12-40 | the loop computes the worksheet total |
| Day06.TrimSpace | day06_go/main.go:61 | the result is the slice of the line left once the white space at both ends is removed: everything cut off is white space, and the result neither starts nor ends with white space |
| Day06.VerticalTabField | day06_go/main.go:23 | a field may start with a vertical tab, which the `\s` split keeps and Sscanf skips: in "1 \v2" the field "\v2" reads as 2 |
| Day06.WordsAreFields | day06_go/main.go:62 | splitting on white-space runs yields non-empty space-free fields that concatenate to the line's non-space characters |
| Day06.RowFields | day06_go/main.go:61-62 | a row is [""] for a blank line, and otherwise its fields spell out the trimmed line without spaces |
| Day06.RowsKeepNonEmptyLines | day06_go/main.go:55-66 | one row per non-empty line |
| Day06.SplitLinesByBlanks | day06_go/main.go:55-66 | the loop builds those rows |
| Day06.MaxLen | day06_go/main.go:69-74 | the maximum line length, attained by some line |
| Day06.PadShape | day06_go/main.go:76-80 | padding makes every line exactly the given width, keeps each line as a prefix and fills with spaces |
| Day06.RotateShape | day06_go/main.go:81-88 | rotation turns a w-wide grid into w lines whose k-th holds column w-1-k |
| Day06.RotateTwice | day06_go/main.go:68-90 | rotating twice reverses the order of the lines and of each line |
| Day06.RotateFour | day06_go/main.go:68-90 | four rotations give back the grid |
| Day06.LongestLine | day06_go/main.go:69-74 | the loop computes the maximum line length |
| Day06.PadLines | day06_go/main.go:76-80 | the array is padded in place |
| Day06.ReadColumn | day06_go/main.go:83-86 | the string of one column's characters |
| Day06.ReadColumns | day06_go/main.go:81-88 | the loop builds the rotated lines |
| Day06.RotateLines | day06_go/main.go:68-90 | pads the array in place and returns its rotation |
| Day06.MatchEntry | day06_go/main.go:96-101 | no match iff the line has no digit; a match yields a digit run and an optional '+' or '*' |
| Day06.MatchEntryReadsColumn | day06_go/main.go:96-98 | a line of spaces, a number, spaces and an optional operator reads back that number and operator |
| Day06.CombinePlusIsSum | day06_go/main.go:112-116 | combining under '+' is the sum |
| Day06.CombineStarIsProduct | day06_go/main.go:117-120 | combining under '*' is the product when no value but the last is zero |
| Day06.CombineStarRestarts | day06_go/main.go:117-119 | because 0 marks "no product yet", a zero product restarts multiplication with the next value |
| Day06.LinesWithoutNumbersSkipped | day06_go/main.go:99-101 | lines without a number do not affect the part 2 fold |
| Day06.CombineValues | day06_go/main.go:110-124 | the loop combines the values under the operator |
| Day06.Part2 | day06_go/main.go:92-131 | pads the input, rotates it, and returns the fold's grand total over the rotated lines |
| Day07.IndexOf | day07_go/main.go:13 | the first position of a character, or -1 iff absent |
| Day07.Start | day07_go/main.go:13 | the column of 'S' on the first line |
| Day07.Beams | day07_go/main.go:14-32 | beam positions always lie within the manifold's width |
| Day07.StepAdd | day07_go/main.go:19-31 | a row's step distributes over the incoming beams |
| Day07.SplittersAdd | day07_go/main.go:20-27 | each newly handled beam adds one split iff it meets a '^' |
| Day07.AddBeam | day07_go/main.go:19-31 | one beam continues or is split left and right, counting a split on '^' |
| Day07.StepRow | day07_go/main.go:18-31 | the loop over a row's beams gives the next beams and the number of splitters hit |
| Day07.Part1 | day07_go/main.go:11-34 | the count is the total number of splits over all rows |
| Day07.NoSplitterPassesThrough | day07_go/main.go:28-30 | on a row without splitters every beam continues straight and nothing splits |
| Day07.PathsBound | day07_go/main.go:39-60 | from any cell there are at most 2^(rows left) timelines |
| Day07.StraightDown | day07_go/main.go:44-57 | with no splitters below, exactly one timeline |
| Day07.BeamCounter.constructor | day07_go/main.go:63 | the memo table starts empty |
| Day07.BeamCounter.DoBeam | day07_go/main.go:39-60 | the memoised recursion returns the number of timelines from the cell, keeps the memo correct and only adds to it |
| Day07.BeamCounter.Part2 | day07_go/main.go:62-68 | the answer is the number of timelines from below 'S' |
| Day08Pairs.LinearDist2Metric | day08_go/main.go:19-24 | the squared distance is non-negative, symmetric, and zero iff the points coincide |
| Day08Pairs.RowPairsMeasured | day08_go/main.go:93-96 | every pair offered for box i is (i, j) with j > i and carries its distance |
| Day08Pairs.TrimShape | day08_go/main.go:99-113 | sorting and trimming keep at most k pairs in distance order; the bound is the k-th distance |
| Day08Pairs.RoundsPartition | day08_go/main.go:91-114 | every pair is either kept or rejected; the kept ones are sorted, at most k, and no rejected pair is closer than a kept one |
| Day08Pairs.SelectIsClosest | day08_go/main.go:91-114 | the selected pairs are k closest pairs of all boxes, sorted, or all pairs when fewer exist |
| Day08Pairs.TrimSplits | day08_go/main.go:99-113 | trimming keeps at most k pairs and splits the offered pairs into the kept and the cut ones |
| Day08Pairs.RoundsPartitionAsWritten | day08_go/main.go:91-114 | round by round under the bound rule as written, the kept and the rejected pairs together are the pairs offered so far, and no rejected pair is closer than a kept one |
| Day08Pairs.SelectAsWrittenIsNearest | day08_go/main.go:91-114 | the pairs kept as written are sorted, at most k, together with the rejected pairs make up all pairs, and no rejected pair is closer than a kept one |
| Day08Pairs.AsWrittenDropsPair | day08_go/main.go:111-113 | with the bound as written, three boxes on a line and k = 10 lose pair (1, 2), although only 3 pairs exist |
| Day08.Circuit.constructor | day08_go/main.go:150 | a new circuit holds its two boxes |
| Day08.Circuit.Add | day08_go/main.go:67-72 | adding a box not already present appends it, and the box points at the circuit |
| Day08.Circuit.Join | day08_go/main.go:74-80 | joining appends the other circuit's boxes and repoints all of them |
| Day08.ClosestPairs.constructor | day08_go/main.go:43-48 | no pairs, bound MaxInt |
| Day08.ClosestPairs.AddPair | day08_go/main.go:50-55 | a pair is appended iff it is closer than the bound |
| Day08.ClosestPairs.SortAndTrim | day08_go/main.go:99-113 | the state becomes its sorted, trimmed form under the bound rule as written: whenever a pair is kept, the bound becomes the last kept distance |
| Day08.OfferRow | day08_go/main.go:94-96 | offering box i's pairs gives the specification's offer fold |
| Day08.ChoosePairs | day08_go/main.go:92-114 | the pair-choosing loop returns the pairs the rule as written keeps, which `Day08Pairs.SelectAsWrittenIsNearest` characterises |
| Day08.NewCase | day08_go/main.go:149-155 | two loose boxes form a new circuit, mirroring the connection model |
| Day08.AddCase | day08_go/main.go:143-148 | a loose box joins its partner's circuit |
| Day08.JoinCase | day08_go/main.go:122-142 | two circuits merge and the absorbed one is removed from the list |
| Day08.Connect1 | day08_go/main.go:118-157 | one connection updates the circuit objects exactly as the connection model says |
| Day08.UniteTurn | day08_go/main.go:118-164 | one turn either stops with the product of the two boxes' x when one circuit holds every box, or continues |
| Day08.UnionLoop | day08_go/main.go:117-164 | the loop follows the model over the chosen pairs |
| Day08.TopThree | day08_go/main.go:166-176 | the product of the three largest circuit sizes |
| Day08.Part1 | day08_go/main.go:91-177 | the answer of the model, from the pairs kept as written through circuits to the product |
| Day08Net.ConnectKeeps | day08_go/main.go:121-156 | a connection keeps the circuits a partition; it reports -1 exactly when the boxes are already together |
| Day08Net.ConnectMerges | day08_go/main.go:117-164 | after connecting a and b, two boxes are together iff they were, or each was linked to a or b |
| Day08Net.FullCircuit | day08_go/main.go:158 | a circuit has every box iff every box belongs to it |
| Day08Net.TopProductOrderFree | day08_go/main.go:166-169 | the top-three product does not depend on the order of the sizes |
| Day08Net.TopProductLargest | day08_go/main.go:166-175 | the sizes taken are the three largest |
| Day09.NewEdge | day09_go/main.go:26-29 | an edge is horizontal iff its ends share y |
| Day09.Between | day09_go/main.go:50-55 | v lies between the ends in either order |
| Day09.On | day09_go/main.go:40-48 | a point is on an axis-parallel edge iff it shares the fixed coordinate and lies between the ends |
| Day09.OnIsSegment | day09_go/main.go:40-48 | that agrees with lying on the segment |
| Day09.Crosses | day09_go/main.go:60-86 | only vertical edges cross the ray, iff they are strictly to the left and span the ray's y, half-open |
| Day09.NewRectangle | day09_go/main.go:96-108 | the rectangle is normalised: min and max of both coordinates |
| Day09.NewRectangleSymmetric | day09_go/main.go:96-108 | the corner order does not matter |
| Day09.CornersArea | day09_go/main.go:110-114 | area is (dx+1)(dy+1), at least 1 |
| Day09.EdgePoints | day09_go/main.go:132-156 | the points listed are exactly the border cells of the rectangle |
| Day09.Closed | day09_go/main.go:218-226 | the shape joins consecutive red tiles and closes back to the first |
| Day09.Shape.AddEdge | day09_go/main.go:162-164 | appends the edge |
| Day09.Shape.IsInside | day09_go/main.go:166-187 | the loop computes on-edge or odd-crossings |
| Day09.EdgePointsInside | day09_go/main.go:168-172 | every point on an edge counts as inside |
| Day09.BoxInside | day09_go/main.go:166-187 | for a rectangle-shaped polygon, inside is exactly within the bounds |
| Day09.Part1 | day09_go/main.go:189-214 | the largest area of any two-corner rectangle, attained by some pair |
| Day09.MaxInRow | day09_go/main.go:192-211 | one row of the pair scan raises the maximum to cover every partner |
| Day09.PairArea | day09_go/main.go:197-207 | the area of the pair's rectangle |
| Day09.AllPointsInside | day09_go/main.go:249-254 | true iff every listed point is inside the shape |
| Day09.BuildShape | day09_go/main.go:217-226 | the shape's edges close the tile loop |
| Day09.Part2 | day09_go/main.go:216-263 | the largest area among rectangles whose border and sample points are all inside, attained by one of them |
| Day09.ScanRow | day09_go/main.go:238-260 | one row of that scan |
| Day09.RectangleInside | day09_go/main.go:241-254 | the border-and-sample test |
| Day09.SampleInRectangleAgrees | day09_go/main.go:241-254 | when all sample points lie in the rectangle, the sample test equals the border test |
| Day10Toggle.AsBits | day10_go/main.go:22-32 | n characters, '#' for set bits and '.' otherwise |
| Day10Toggle.ParseLamps | day10_go/main.go:191-203 | the width is the text length and the set bits are the '#' positions |
| Day10Toggle.ParseLampsExamples | day10_go/main_test.go:12-23 | the two test cases of the source hold |
| Day10Toggle.PrintThenParse | day10_go/main.go:22-32 | printing then parsing gives back the bits and width |
| Day10Toggle.ParseThenPrint | day10_go/main.go:191-203 | parsing then printing a lamp pattern gives back the text |
| Day10Toggle.ChildFacts | day10_go/main.go:63-86 | the child machine xors in switch i and drops it, keeping the others sorted |
| Day10Toggle.PressSwitch | day10_go/main.go:63-86 | done iff the switch makes the lamps match; otherwise it returns the child |
| Day10Toggle.SolvableStep | day10_go/main.go:88-114 | the machine is solvable in k+1 presses iff some child is solvable in k |
| Day10Toggle.Search | day10_go/main.go:93-114 | -1 iff no set of switches solves it; otherwise depth plus the fewest presses minus one |
| Day10Toggle.SearchIsFewest | day10_go/main.go:88-114 | from depth 1 the search returns the fewest presses, or -1 |
| Day10Toggle.Part1 | day10_go/main.go:289-300 | the sum over the machines of the search result |
| Day10Counter.Gaps | day10_go/main.go:118-121 | the remaining amount for each counter |
| Day10Counter.ButtonValue | day10_go/main.go:129-136 | blocked iff the button hits a satisfied counter; otherwise the sum of its counters' gaps |
| Day10Counter.PickButton | day10_go/main.go:126-141 | -1 iff no button is eligible; otherwise the first eligible button of largest value |
| Day10Counter.CounterMachine.constructor | day10_go/main.go:261 | counters start at zero and no button is pressed |
| Day10Counter.CounterMachine.Reset | day10_go/main.go:186-189 | back to zero counters and no presses |
| Day10Counter.CounterMachine.Check | day10_go/main.go:170-184 | TooHigh iff some counter exceeds its target; Equal iff all match |
| Day10Counter.CounterMachine.Deltas | day10_go/main.go:117-121 | the current gaps |
| Day10Counter.CounterMachine.PressButton | day10_go/main.go:116-151 | presses the chosen button, or reports that none is eligible |
| Day10Counter.CounterMachine.UnpressButton | day10_go/main.go:153-160 | removes press ix and takes its counts back off |
| Day10Counter.Settle | day10_go/main.go:312-324 | a reported solution is a press list reaching every target |
| Day10Counter.SolveMachine | day10_go/main.go:304-331 | a reported count is achievable |
| Day10Counter.Part2 | day10_go/main.go:302-334 | the total sums one achievable count per machine, each capped at 10000, so it lies between 0 and 10000 times the number of machines |
| Day10Counter.Conservation | day10_go/main.go:116-151 | a solution's presses list the counters exactly as often as the targets add up to |
| Day10Counter.FewestPressesBound | day10_go/main.go:116-151 | any solution needs at least sum(targets)/w presses when buttons touch at most w counters |
| Day10Parse.JoinSplit | day10_go/main.go:207 | joining the parts of a split gives back the text |
| Day10Parse.SplitJoin | day10_go/main.go:207 | splitting the join of comma-free parts gives them back |
| Day10Parse.AtoiAll | day10_go/main.go:209-215 | succeeds iff every part is an integer, with each value its parse |
| Day10Parse.ParseNumberList | day10_go/main.go:205-217 | fails iff some comma-separated part is not an integer; otherwise the values |
| Day10Parse.FormatThenParse | day10_go/main.go:205-217 | parsing the comma-joined text of integers gives them back |
| Day10Parse.MaskOf | day10_go/main.go:219-227 | the set bits are exactly the listed positions below 64 |
| Day10Parse.SwitchMask | day10_go/main.go:219-227 | defined iff no position is negative, which Go rejects with a panic |
| Day10Parse.SetBits | day10_go/main.go:222-225 | the loop builds that mask |
| Day10Parse.ParseSwitch | day10_go/main.go:219-227 | the mask of a valid list; an error otherwise |
| Day10Parse.ParseSwitchExample | day10_go/main_test.go:43-46 | "0,2" gives bits {0, 2} |
| Day10Parse.ParseSwitchLonger | day10_go/main_test.go:48-51 | "0,1,2,7" gives bits {0, 1, 2, 7}, the mask 135 |
| Day10Parse.FindAllGroups | day10_go/main.go:239-241 | each group is non-empty and free of the closing bracket |
| Day10Parse.FindAllLayout | day10_go/main.go:251 | groups laid out with gaps are found again in order |
| Day10Parse.ParseSwitches | day10_go/main.go:251-255 | every switch group parses, as masks and as position lists |
| Day10Parse.ParseMachine | day10_go/main.go:243-263 | succeeds iff the lamp group exists and every group parses; the fields are those parses |
| Day10Parse.ToToggle | day10_go/main.go:289-300 | the search starts with no lamps lit, on the parsed lamps and switches |
| Day10Ilp.IntsOf | day10_go/solve_ilp.py:27 | every comma part is a Python integer after stripping, with those values |
| Day10Ilp.ParseIlpMachine | day10_go/solve_ilp.py:16-34 | succeeds iff every button group and the target group parse; the fields are those parses |
| Day10Ilp.ParsersAgree | day10_go/solve_ilp.py:16-34 | on lines the Go parser accepts, the Python parser gives the same buttons and targets |
| Day10Ilp.PaddedListExample | day10_go/solve_ilp.py:27 | " 7" is rejected by Go's Atoi and read as 7 by Python's int |
| Day10Ilp.Affecting | day10_go/solve_ilp.py:50-51 | the increasing list of the buttons that list the counter |
| Day10Ilp.FirstUntouched | day10_go/solve_ilp.py:49-54 | the first counter no button touches, or none |
| Day10Ilp.PreCheckSound | day10_go/solve_ilp.py:49-54 | a counter with a positive target and no button cannot be met by any solution |
| Day10Ilp.VerifySolution | day10_go/solve_ilp.py:89-102 | an index error iff a button names an out-of-range counter; otherwise true iff every counter meets its target, with the first bad counter reported |
| Day10Ilp.AddPresses | day10_go/solve_ilp.py:94-95 | adds the presses to each counter the button names, Python negative indices included |
| Day10Ilp.CheckerMatchesMachine | day10_go/solve_ilp.py:89-102 | the Python checker accepts a press count vector iff pressing each button that often reaches the targets in the Go counter machine |
| Day11.Graph.AllParentsVisited | day11_go/main.go:21-28 | true iff no parent is unvisited |
| Day11.Graph.Visit | day11_go/main.go:58-78 | marks one node visited and updates only it |
| Day11.Graph.Pass | day11_go/main.go:54-83 | reports change iff some node was visited; no change means a fixpoint |
| Day11.Graph.PopulateCounts | day11_go/main.go:50-84 | ends at a fixpoint where no unvisited node has all parents visited |
| Day11.CountsArePaths | day11_go/main.go:50-84 | each visited node's three counters equal its numbers of paths from "svr": all, through "fft", through "fft" then "dac" |
| Day11.AcyclicAllSettled | day11_go/main.go:80-82 | in an acyclic graph the fixpoint visits every node |
| Day11.Part2 | day11_go/main.go:118-122 | the count at "out" is the number of svr-to-out paths through fft then dac |
| Day11.Traverse | day11_go/main.go:96-106 | appends exactly the routes from the node to "out" |
| Day11.RoutesAreWalks | day11_go/main.go:96-106 | each route extends the path along edges and ends at "out" |
| Day11.RoutesComplete | day11_go/main.go:96-106 | every walk along edges from the node to "out" that meets "out" only at its end is among the routes traverse records |
| Day11.Part1 | day11_go/main.go:108-116 | the number of routes from "you" to "out"; the routes are exactly the walks from "you" to "out" |
| Day11Parse.FieldsOfSpaced | day11_go/main.go:150 | splitting words joined by white space gives them back |
| Day11Parse.NamesAreLineNames | day11_go/main.go:134-144 | the name table holds "out" and the first three characters of every non-empty line, no more |
| Day11Parse.Lookup | day11_go/main.go:153 | the index of a name, or none iff absent |
| Day11Parse.LineEdges | day11_go/main.go:146-160 | one edge per child field, from the line's node to the child |
| Day11Parse.EdgesPaired | day11_go/main.go:157-158 | each edge appears once among the parent's children and once among the child's parents |
| Day11Parse.Parse | day11_go/main.go:124-162 | fails iff some child name is unknown; otherwise children and parents are the edge projections |
| Day12.ExtractNumbers | day12_go/main.go:46-58 | the values of the maximal digit runs, in order |
| Day12.NumbersRoundTrip | day12_go/main.go:46-58 | numbers written with digit-free separators are read back exactly |
| Day12.CountHash | day12_go/main.go:77 | the number of '#' in the row |
| Day12.ReadShape | day12_go/main.go:72-79 | the three rows after the header and their '#' count |
| Day12.Parse | day12_go/main.go:60-92 | six shapes from the first 30 lines, then one region per line: width, height and counts |
| Day12.RegionLineRoundTrip | day12_go/main.go:82-90 | a region line written as numbers reads back the region |
| Day12.AreaOfShapes | day12_go/main.go:30-32 | the loop sums count times the shape's '#' cells |
| Day12.Part1 | day12_go/main.go:25-40 | the number of regions whose shapes' cells fit in w*h |
| Day12.CountFittingAppend | day12_go/main.go:26-39 | the count is additive over concatenated region lists |
| Day12.AllFit | day12_go/main.go:26-39 | the count equals the number of regions iff every region fits |
| Day12.NoneFit | day12_go/main.go:26-39 | the count is zero iff no region fits |
| Day12.LargerRegionFits | day12_go/main.go:29-36 | a region that fits still fits when enlarged |
| Decimal.ScanInt | day06_go/main.go:23 | `Sscanf("%d")` reads the value of an all-digit field, and fails on a field without any digit |
| Decimal.ScanSkipsSpace | day06_go/main.go:23 | leading white space other than newlines is skipped before the number |
| Decimal.ScanNewlineFails | day06_go/main.go:23 | a newline among the leading white space makes the scan fail, leaving 0 |
| Decimal.AtoiAccepts | day10_go/main.go:210 | Atoi succeeds iff the text is an optional sign then digits |
| Decimal.AtoiItoa | day02_go/main.go:55-56 | Atoi reads back what Itoa writes |
| Decimal.NatToStringIsCanonical | day02_go/main.go:29 | Itoa of a natural number is digits without a leading zero, of that value |
| Sorting.SortBy | day05_go/main.go:62-64 | the result is sorted by the key and a permutation of the input |

## Left out

- Reading the input files (`readlines`, `readRanges`, `parse` with `os.Open`/`io.ReadAll`), `main` and all printing are I/O and not modelled. Each model takes the lines or parsed values.
- The `String()` methods and the `print`/`JString` debug helpers are not modelled; only `asBits` is, because the lamp tests rely on it.
- int64 overflow: all arithmetic is unbounded. The Go `math.MaxInt` sentinel in day 8 is the constant `MaxInt`; `Day08Pairs.SelectIsClosest` requires all distances to lie below it.
- `Decimal.ScanInt`: a digit run beyond int64 makes Go's `Sscanf` fail, so `num` stays 0; the model reads the unbounded value.
- `Day12.ExtractNumbers`: Go's `Atoi` fails on a digit run beyond int64 and the source then calls `log.Fatal`; the model reads arbitrarily long runs.
- `Day12.Parse` requires at least 30 lines and at least two numbers per region line. With fewer the Go code indexes out of range and panics. That includes the empty last line a trailing newline leaves.
- Day 8 part 2 and day 12 part 2 only return 0 and are not modelled.
- `sort.Slice` tie order is unspecified. The model fixes one order, which is not stable (`Sorting.SortBy`; `Day08Pairs.SortTwo` shows it swapping two pairs of equal distance). Some properties do not depend on it (`Day08Net.TopProductOrderFree`, `Day05.SameMultisetSameCover`). `Day08.Part1` does: which of several equally distant pairs survive the k-th cut, and the order in which pairs are united, follow the model's order, and Go may pick another.
- Day 9 `randomPoints` (random sample points) is the caller-supplied `sample` function of `Day09.Part2`.
- `Day09.Part2` proves maximality only over the rectangles its checks accept. It does not prove that an accepted rectangle lies wholly inside the polygon, because the source's test samples only points.
- Day 10 part 2: `rand.IntN` in `unpressButton` is a caller-supplied `pick` function. The unbounded retry loop has a `fuel` bound, so when fuel runs out the model reports no solution. The Go loop would keep going.
- `Day10Counter.SolveMachine`: proves a reported count achievable, not minimal; the greedy source does not promise minimality.
- `Day10Toggle.Search`: the sentinel 1000 of the source stays; the result is exact because no machine needs more presses than it has switches.
- `solve_machine_ilp` (the PuLP solver call), `solve_all_machines`, `solve_sample`, `main` of `solve_ilp.py` and the whole of `analyze_problem5.py` are not modelled. They are a call into an external ILP solver, file reading and printing. Only the parser, the pre-check and the solution checker are.
- `Day10Ilp.IntsOf`: Python `int()` is modelled for an optional sign and ASCII digits, after stripping Python white space (`UnicodeSpace.PyIsSpace`). Underscores and non-ASCII digits are not.
- Strings are sequences of characters, and the input is taken to be ASCII. Go strings are bytes: `line[:3]`, `line[5:]` and `len(s)` (day 11 names, the day 10 lamp pattern) count bytes, which agree with characters only on ASCII text. The white-space sets are the full Go and Python ones (`UnicodeSpace`); Go's handling of invalid UTF-8 is not modelled.
- Go map iteration order: day 7 beams are a set. The day 11 node order in `populateCounts` is a caller-supplied `order` function per pass.
- `Day11.Traverse` and `Day11.Part1` take a ghost height witness (`Day11.Descending`) that the whole graph, apart from edges into "out", is acyclic. This asks more than the Go code needs, which is only that no cycle is reachable from the start node; on such a cycle the Go recursion does not terminate.
- Day 11 nodes are indices into a name table, with "out" at index 0, instead of pointers in a map.
- Regular expressions are modelled only for the patterns used: `[0-9]+` (day 12), `\s+` (day 6), the day 6 entry pattern, and the bracket groups of day 10.

## Findings

| source | as written | input that shows it | evidently intended | confidence | as-written member | corrected member |
|---|---|---|---|---|---|---|
| day02_go/main.go:107-114 | the default case, reached when lo and hi both have an odd number of digits, keeps the first len-len/2 digits of lo as loPrefix | range 123-99999: loPrefix = 12, so the doubled IDs 1010 and 1111 in the range are never generated | loPrefix keeps the first len/2 digits of lo, hiPrefix the first len-len/2 digits of hi, in every case | not executed | Day02.AsWrittenMissesDoubledId | Day02.PrefixRuleFindsEveryDoubledId |
| day08_go/main.go:111-113 | after trimming, `longest` becomes the last kept distance even when fewer than numConnections pairs are kept, so later closer-than-needed pairs are refused | three boxes at x = 0, 1, -1 with numConnections = 10: pair (1, 2) at distance 4 is dropped although only 3 pairs exist | lower the bound only once numConnections pairs are kept | not executed | Day08Pairs.AsWrittenDropsPair | Day08Pairs.SelectIsClosest |

The day 8 answer of the model (`Day08.Part1`) follows the code as written: it is computed from the pairs `Day08Pairs.SelectAsWrittenIsNearest` describes. `Day08Pairs.SelectIsClosest` proves the intended selection for the corrected bound rule.
