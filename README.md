# Advent of Code 2022, days 1 to 17, in Dafny

This project models the seventeen puzzle solvers `src/Day01.kt` to
`src/Day17.kt`, one Dafny module per solver (`Day01` … `Day17`, in
`day01.dfy` … `day17.dfy`), plus a small `Common` module (optional values,
the "unreachable" distance, sums, absolute value and a largest element).
Each solver reads the puzzle input and computes two answers; the model takes
the input already parsed into the solver's own records and states, for each
part, what the answer means:

- Day 1 (calorie groups): the largest group total and the sum of the three largest.
- Day 2 (rock, paper, scissors): round scores under both readings of the strategy guide.
- Day 3 (rucksacks): the priority of the item shared by both halves, or by three rucksacks.
- Day 4 (section ranges): pairs where one range contains the other, and pairs that overlap.
- Day 5 (crate stacks): moving crates one at a time or several at once, the tops of the stacks.
- Day 6 (datastream markers): the first window of distinct characters.
- Day 7 (file system transcript): directory sizes, the small ones and the smallest one to delete.
- Day 8 (tree grid): visible trees and the best scenic score.
- Day 9 (rope): the positions visited by the tail of a two-knot and a ten-knot rope.
- Day 10 (CPU and screen): signal strengths and the pixels drawn.
- Day 11 (monkeys): items thrown between monkeys, monkey business, and the modular reduction of worry levels.
- Day 12 (hill climbing): breadth-first search for the shortest path to the summit.
- Day 13 (distress signal): packet ordering and the decoder key.
- Day 14 (falling sand): sand that comes to rest in the cave, with and without a floor.
- Day 15 (beacon exclusion): positions a sensor rules out in a row, and the one position left open.
- Day 16 (valves): shortest distances between valves, the best pressure one agent releases, and the best pair of disjoint routes for two agents.
- Day 17 (falling rocks): the tower built by rocks pushed by jets, and its height extrapolated through a repeating cycle.

Code that the source writes as loops over mutable state is modelled by
methods with loop invariants, proved against recursive specification
functions; the properties the solvers rely on are proved as lemmas about those
functions.

## Model

| member | source | states |
|---|---|---|
| Day01.Groups | src/Day01.kt:2-9 | the fold starts from one empty block, so there is always at least one block |
| Day01.SplitByBlanksToInts | src/Day01.kt:2-9 | the loop over the lines returns exactly the blocks `Groups` defines: a blank line opens a new empty block, a number joins the last block |
| Day01.GroupsCount | src/Day01.kt:2-9 | there is one block more than there are blank lines |
| Day01.GroupsFlatten | src/Day01.kt:2-9 | concatenating the blocks gives back the non-blank numbers in their original order |
| Day01.Sums | src/Day01.kt:12-15 | one sum per block, each the sum of that block's numbers |
| Day01.Part1 | src/Day01.kt:11-12 | `None` exactly when there are no blocks; otherwise a block sum that no block sum exceeds |
| Day01.InsertPermutes | src/Day01.kt:16 | inserting into the descending list adds exactly that element |
| Day01.InsertDescending | src/Day01.kt:16 | inserting into a descending list keeps it descending |
| Day01.SortedDescendingIsSort | src/Day01.kt:16 | `sortedDescending` returns a permutation of the sums in descending order |
| Day01.Take3 | src/Day01.kt:17 | `take(3)` keeps the first three elements, or all of them when there are fewer |
| Day01.TopThreeAreLargest | src/Day01.kt:14-18 | the three sums added up are sums of blocks, and none of the sums left out is larger than any of them |
| Day01.Part2AtLeastPart1 | src/Day01.kt:11-18 | with non-negative calories, part two's total is at least part one's maximum |
| Day01.Sample | src/Day01.kt:21-22 | on the sample inventory part one is 24000 and part two 45000 |
| Day02.Shape.PlayAgainst | src/Day02.kt:22-26 | a round scores 1 to 9; the outcome part is 3 exactly for the same shape, 6 exactly when this shape beats the other, 0 exactly when the other beats this one |
| Day02.BeatsCycle | src/Day02.kt:8-20 | `beats` is a cycle of length three: no shape beats itself or the shape that beats it |
| Day02.ExactlyOneWins | src/Day02.kt:8-26 | of two different shapes exactly one beats the other |
| Day02.OutcomesShareSix | src/Day02.kt:22-26 | the two players' outcome points add up to 6 (win and loss, or draw and draw) |
| Day02.RoundResult.CalculateSelfShape | src/Day02.kt:31-38 | the chosen shape played against the opponent gives exactly the requested outcome |
| Day02.FirstBeating | src/Day02.kt:37 | `first { it.beats == opponent }`: a shape from the list that beats the opponent, or none exists in the list |
| Day02.RoundScore | src/Day02.kt:44-52 | every round scores between 1 and 9 in both parts |
| Day02.Play | src/Day02.kt:44-53 | the total lies between one and nine points per round |
| Day02.Part2Outcome | src/Day02.kt:47-52 | in part two X loses (at most 3 points), Y draws (opponent's score plus 3), Z wins (at least 7) |
| Day02.SampleScores | src/Day02.kt:59-61 | the sample guide scores 15 in part one and 12 in part two |
| Day03.Priority | src/Day03.kt:12-17 | 'a'..'z' get priorities 1..26 and 'A'..'Z' get 27..52 |
| Day03.PriorityInjective | src/Day03.kt:12-17 | different letters have different priorities |
| Day03.Distinct | src/Day03.kt:4 | `toSet()` keeps exactly the items of the list, each once |
| Day03.Retain | src/Day03.kt:9 | `intersect` keeps exactly the items in both, and stays duplicate-free |
| Day03.Intersect | src/Day03.kt:8-10 | the fold from the first set keeps exactly the items that are in every set, each once |
| Day03.ToSets | src/Day03.kt:4 | one set per list, each that list's distinct items |
| Day03.CommonItemsMeaning | src/Day03.kt:4-6 | a group contributes the priority of each item that all its lists hold, each item once |
| Day03.PrioritiesBounded | src/Day03.kt:23 | priorities that each lie between 1 and 52 sum to at least the number of items and at most 52 per item (the step `sum()` takes in `play`) |
| Day03.GroupBounded | src/Day03.kt:4-6 | a group whose lists hold only letters contributes between 1 and 52 for each item all its lists share |
| Day03.Play | src/Day03.kt:21-23 | `play` adds up, group by group, the priorities of the items all lists of the group share (bounds in `PlayBounded`) |
| Day03.PlayBounded | src/Day03.kt:21-23 | over groups of letters `play` lies between the number of shared items and 52 times that number |
| Day03.Chunked | src/Day03.kt:25-27 | `chunked` splits a list into non-empty consecutive pieces that concatenate back to it; all but the last have the full size |
| Day03.Compartments | src/Day03.kt:25 | each rucksack of at least two items splits into `length / 2`-sized pieces that are not empty and concatenate back to the rucksack |
| Day03.Part1 | src/Day03.kt:25 | part one is undefined exactly when some rucksack has fewer than two items (`chunked(0)` throws); otherwise it is `play` over the split rucksacks |
| Day03.EvenSplitsInHalves | src/Day03.kt:25 | an even-length rucksack is split into its two halves |
| Day03.GroupsOfThree | src/Day03.kt:27 | with a multiple of three lines, part two groups them in threes |
| Day03.Part2 | src/Day03.kt:27 | part two is `play` over consecutive groups of three rucksacks (the grouping is stated by `GroupsOfThree`) |
| Day04.Range.Members | src/Day04.kt:12 | the sections of `first..last` are exactly the integers between the two ends, in increasing order |
| Day04.SizeCountsMembers | src/Day04.kt:1-6 | `IntRange.size` (0 when `last < first`, else `last - first + 1`) is the number of sections in the range |
| Day04.Intersect | src/Day04.kt:14 | `firstRange intersect secondRange` holds exactly the sections in both ranges |
| Day04.FullyContainsMeaning | src/Day04.kt:17-19 | for non-empty ranges, the intersection is as large as the smaller range exactly when one range lies within the other |
| Day04.OverlapsMeaning | src/Day04.kt:21-23 | the intersection is non-empty exactly when the ranges share a section |
| Day04.FullyContainsOverlaps | src/Day04.kt:17-23 | for non-empty ranges, containment implies overlap |
| Day04.CountPairs | src/Day04.kt:8-15 | the count of lines that satisfy the predicate is at most the number of lines |
| Day04.Part1 | src/Day04.kt:17-19 | part one counts at most every line |
| Day04.Part2 | src/Day04.kt:21-23 | part two counts at most every line |
| Day04.Part1AtMostPart2 | src/Day04.kt:17-23 | with non-empty ranges, part one never exceeds part two |
| Day04.SamplePart1 | src/Day04.kt:26 | the sample gives 2 in part one |
| Day04.SamplePart2 | src/Day04.kt:27 | the sample gives 4 in part two |
| Day05.MoveFromNumbers | src/Day05.kt:39 | `parseMovements` turns one-based stack numbers into zero-based indices and keeps the crate count |
| Day05.ZeroBased | src/Day05.kt:37-40 | every parsed move gets the index shift, in order |
| Day05.Performable | src/Day05.kt:48-55 | a move of crates can run only when both stack indices exist and the source stack holds at least `numCrates` crates |
| Day05.ValidMove | src/Day05.kt:48-55 | a move runs without failing exactly when it moves no crate (both loops run zero times, no stack is indexed) or it is performable |
| Day05.ApplyMove | src/Day05.kt:47-56 | a move keeps the number of stacks and leaves every stack other than the source and destination unchanged; a move of zero crates changes nothing |
| Day05.MoveOrder | src/Day05.kt:48-55 | for a performable move between two stacks the source loses its top `numCrates` crates; the destination gets them on top of its old crates, reversed with the old crane and in their original order with the new one |
| Day05.SingleCrateSame | src/Day05.kt:52-54 | moving one crate, both cranes do the same |
| Day05.ReverseMultiset | src/Day05.kt:53 | reversing the block keeps its crates |
| Day05.MoveConserves | src/Day05.kt:47-56 | a move neither creates nor destroys crates: the multiset of all crates is unchanged |
| Day05.ApplyMoves | src/Day05.kt:44-57 | the moves in order; `None` when a move of at least one crate names a missing stack or a source holding too few crates; the number of stacks is kept |
| Day05.ZeroCratesSkipped | src/Day05.kt:47-56 | a move of zero crates is skipped: the remaining moves run on the unchanged stacks |
| Day05.MovesConserve | src/Day05.kt:44-57 | any run of moves conserves the multiset of crates |
| Day05.InitialStacks | src/Day05.kt:16-30 | `parseStacks` makes one stack per stack number, each holding its drawing column with the top crate first |
| Day05.Tops | src/Day05.kt:65 | the answer has one letter per stack, the front crate of that stack; `None` exactly when some stack is empty (`first()` throws) |
| Day05.CrateStacks.constructor | src/Day05.kt:16-17 | `numStacks` empty deques |
| Day05.CrateStacks.AddFirst | src/Day05.kt:27 | `addFirst` puts the crate in front of stack `j` and changes nothing else |
| Day05.CrateStacks.RemoveFirst | src/Day05.kt:50 | `removeFirst` returns the front crate of stack `j` and removes it, changing nothing else |
| Day05.CrateStacks.LoadRows | src/Day05.kt:20-29 | reading the drawing rows bottom-up with `addFirst` leaves every stack holding its column top crate first |
| Day05.CrateStacks.ExecuteMove | src/Day05.kt:48-55 | removing crates one by one, reversing when the new crane moves several, and pushing them one by one gives exactly `ApplyMove`; a move of zero crates touches no stack |
| Day05.CrateStacks.ExecuteMovements | src/Day05.kt:44-57 | the loop succeeds exactly when `ApplyMoves` of the old stacks is defined, and then the stacks end as that result; it reports failure where the source throws |
| Day05.Play | src/Day05.kt:59-66 | the result is the top crates of the initial stacks after all moves, and `None` exactly where a move fails or a stack ends empty |
| Day05.SampleStacks | src/Day05.kt:73-74 | the sample drawing gives the stacks NZ, DCM and P |
| Day05.SamplePart1 | src/Day05.kt:73 | the old crane leaves C, M and Z on top of the sample stacks |
| Day05.SamplePart2 | src/Day05.kt:74 | the new crane leaves M, C and D on top of the sample stacks |
| Day05.SampleTops | src/Day05.kt:65-74 | those final stacks read "CMZ" and "MCD" |
| Day06.AllDifferentMeaning | src/Day06.kt:11 | the size test `toSet().size == length` holds exactly when no character occurs twice in the window |
| Day06.SearchFrom | src/Day06.kt:9-15 | the result is -1 or the end of a window that starts between the first and the last index searched |
| Day06.SearchFromMeaning | src/Day06.kt:9-15 | a result other than -1 ends a window of distinct characters and no earlier searched window qualifies; -1 means no searched window qualifies |
| Day06.Play | src/Day06.kt:7-16 | the corrected search returns -1 or the end of a window, between `markerLength` and the line length (its meaning in `PlayMeaning`) |
| Day06.PlayAsWritten | src/Day06.kt:9 | the loop as written searches the window starts `0 until length - markerLength`, one fewer than there are (bounded by `PlayAsWrittenBound`) |
| Day06.PlayMeaning | src/Day06.kt:7-16 | the corrected search returns `i + markerLength` for the smallest qualifying `i`, at most the line length, or -1 when no window of the line qualifies |
| Day06.PlayAsWrittenBound | src/Day06.kt:9 | as written, any result is at most `length - 1` |
| Day06.AsWrittenDiffers | src/Day06.kt:9 | the loop as written and the corrected one differ exactly when the corrected one finds only the window ending at the end of the line |
| Day06.MissedLastWindow | src/Day06.kt:9 | on "abcd" with marker length 4 the loop as written returns -1, the corrected one 4 |
| Day06.FindsFirst | src/Day06.kt:9-13 | a qualifying window with none before it, not the last window, is what both loops find |
| Day06.Sample2Packet | src/Day06.kt:27 | the second sample's packet marker ends at 5 |
| Day06.Sample3Packet | src/Day06.kt:31 | the third sample's packet marker ends at 6 |
| Day07.ToAbsolutePath | src/Day07.kt:12-18 | an absolute path is returned unchanged; ".." gives the parent of the current directory (none at the root); any other name is the current directory extended by that name |
| Day07.Search | src/Day07.kt:108-122 | a node found has the name searched for, and below a directory only directories are found |
| Day07.SearchChildren | src/Day07.kt:113-120 | the search descends only into directory children, so what it finds among them is a directory |
| Day07.Insert | src/Day07.kt:102-104 | attaching a child keeps the name and kind of every node it passes |
| Day07.InsertChildren | src/Day07.kt:102-104 | attaching below one child keeps the number of children and the names of all of them |
| Day07.InsertWhereFound | src/Day07.kt:97-104 | the new node is attached exactly when the search for its parent finds a directory |
| Day07.InsertFinds | src/Day07.kt:103-122 | after attaching, the search finds what it found before, plus the new node's directories |
| Day07.InsertSize | src/Day07.kt:74-103 | attaching a node adds exactly its size to the tree |
| Day07.AddNode | src/Day07.kt:93-106 | `addNode` keeps "/" at the root and changes nothing when the search already finds the name |
| Day07.AddNodeFinds | src/Day07.kt:93-106 | a directory that has been added is found afterwards, and everything found before still is |
| Day07.AddNodeFindsOnly | src/Day07.kt:93-106 | after adding a file or an empty directory the search finds nothing new except the added node and the parents created for it |
| Day07.AddNodeSize | src/Day07.kt:93-106 | adding a node that is not found adds its size to the whole tree; missing parents are created empty |
| Day07.AddExistingDirectory | src/Day07.kt:89-95 | adding a directory that already exists is a no-op |
| Day07.AddFileTwice | src/Day07.kt:91-114 | registering the same file twice counts its size twice, because the search never looks at files |
| Day07.AddNodeKeepsUnique | src/Day07.kt:93-106 | adding a file or an empty directory keeps the directory names of the tree unique |
| Day07.InsertDirNames | src/Day07.kt:103 | attaching a node adds exactly its directory names to the tree's |
| Day07.Visit | src/Day07.kt:74-83 | `NodeSizeVisitor.visit` returns the directory's size (files' sizes plus subdirectories' sizes) and leaves the map `Collect` describes |
| Day07.CollectKeys | src/Day07.kt:74-83 | the visit adds an entry for every directory reached and for nothing else |
| Day07.CollectFrame | src/Day07.kt:74-83 | the visit changes no entry outside the visited tree |
| Day07.SearchFindsDirNames | src/Day07.kt:108-122 | the search finds a name below a directory exactly when it is one of that tree's directory names |
| Day07.CollectValues | src/Day07.kt:74-83 | with unique directory names, every directory's entry is the size of that directory |
| Day07.Execute | src/Day07.kt:20-35 | `ls` sets `listingDirectory` and makes the current directory exist; `cd` moves to the resolved path and clears `listingDirectory`, failing only for ".." at the root |
| Day07.Register | src/Day07.kt:60-64 | registering an entry keeps the current directory and the listing flag, and fails only when the name cannot be resolved |
| Day07.StepKeepsWellFormed | src/Day07.kt:136-153 | every line of the transcript keeps the tree rooted at "/" with unique directory names |
| Day07.Replay | src/Day07.kt:136-153 | replaying the transcript line by line keeps the tree rooted at "/", and is undefined from the first line whose entry cannot be resolved |
| Day07.ReplayKeepsWellFormed | src/Day07.kt:136-153 | so does the whole transcript |
| Day07.StepKeepsFound | src/Day07.kt:136-153 | a directory once in the tree stays there after each line |
| Day07.ReplayKeepsFound | src/Day07.kt:136-153 | a directory once in the tree is still there at the end of the transcript |
| Day07.Interpreter.constructor | src/Day07.kt:46-51 | the interpreter starts in "/", not listing, with a tree holding only the root |
| Day07.Interpreter.ExecuteCommand | src/Day07.kt:56-58 | `execute` replaces the context by the command's result and keeps it well formed |
| Day07.Interpreter.RegisterEntry | src/Day07.kt:60-64 | `registerDirectory` and `registerFile` add the resolved entry to the tree and keep it well formed |
| Day07.Interpreter.CalculateSizesMap | src/Day07.kt:66-70 | the sizes map is the visit of the tree from the root |
| Day07.Play | src/Day07.kt:134-155 | `play` returns the sizes map of the tree the transcript builds |
| Day07.SizesMapMeaning | src/Day07.kt:66-83 | for a well-formed tree the map has an entry for exactly the directories of the tree, each holding that directory's size |
| Day07.PlayMeaning | src/Day07.kt:134-155 | what `play` returns maps every directory of the replayed tree, and nothing else, to its size |
| Day07.SumAtMost | src/Day07.kt:157-160 | the sum of the sizes at most the limit is non-negative for non-negative sizes, at most the limit per directory, and 0 when every size exceeds the limit |
| Day07.MinAtLeast | src/Day07.kt:168-170 | the smallest size at least the bound: it exists exactly when some size reaches the bound, it is one of the sizes, and no size reaching the bound is smaller |
| Day07.Part2 | src/Day07.kt:162-174 | a non-zero answer is a directory whose removal leaves at least 30000000 free |
| Day07.Part2Defined | src/Day07.kt:162-174 | on the map `play` returns, `min()` never fails: the root itself frees enough |
| Day08.ViewMeaning | src/Day08.kt:8-19 | along a ray the tree is visible exactly when every tree on it is strictly shorter, and then sees the whole ray; otherwise it sees up to and including the first tree at least as tall |
| Day08.View | src/Day08.kt:8-19 | the status along one ray: visible when every tree on it is shorter, seeing up to the first tree at least as tall (stated by `ViewMeaning`) |
| Day08.ViewStopsAt | src/Day08.kt:12-15 | the first tree at least as tall, at index `n`, fixes the status to not visible with distance `n + 1` |
| Day08.RayHeightsPrefix | src/Day08.kt:10-11 | the heights read in the first rows of the nested loops start the whole ray |
| Day08.ColumnRay | src/Day08.kt:22-23 | a ray over rows in one column reads that column in the given row order |
| Day08.RowRay | src/Day08.kt:24-25 | a ray over columns in one row reads that row in the given column order |
| Day08.StopsInRow | src/Day08.kt:10-15 | when the first tree as tall is in row `i`, column `cols[j]`, the status is not visible with the distance counted so far plus `j + 1` |
| Day08.PassesRow | src/Day08.kt:10-17 | a row with no tree as tall extends the all-shorter prefix of the ray |
| Day08.CalculateVisibilityStatus | src/Day08.kt:8-19 | the nested loops with early return give exactly the view along the ray their ranges describe |
| Day08.DownToZero | src/Day08.kt:22-24 | `start downTo 0` lists `start`, `start - 1`, ..., 0 |
| Day08.Until | src/Day08.kt:23-25 | `start until end` lists `start`, ..., `end - 1` |
| Day08.Statuses | src/Day08.kt:21-26 | there are four views: up, down, left and right |
| Day08.CalculateVisibilityStatuses | src/Day08.kt:21-26 | the four rays in that order, each checked with `calculateVisibilityStatus` |
| Day08.ViewingDistances | src/Day08.kt:32 | the viewing distances of the four views, in order |
| Day08.ScenicScore | src/Day08.kt:31-32 | the product of the four viewing distances of a tree (the method computing it is `CalculateViewingDistance`) |
| Day08.IsVisible | src/Day08.kt:28-29 | `any { it.visible }` over the four views |
| Day08.MultiplyAll | src/Day08.kt:32 | the fold from 1 multiplies all the distances |
| Day08.CalculateViewingDistance | src/Day08.kt:31-32 | the scenic score is the product of the four viewing distances |
| Day08.ClearUp | src/Day08.kt:22 | the upward ray is clear exactly when every tree above is shorter |
| Day08.ClearDown | src/Day08.kt:23 | the downward ray is clear exactly when every tree below is shorter |
| Day08.ClearLeft | src/Day08.kt:24 | the leftward ray is clear exactly when every tree to the left is shorter |
| Day08.ClearRight | src/Day08.kt:25 | the rightward ray is clear exactly when every tree to the right is shorter |
| Day08.VisibleMeaning | src/Day08.kt:21-29 | a tree is visible exactly when, in one of the four directions, every tree up to the edge is shorter |
| Day08.EdgeVisible | src/Day08.kt:38 | every tree on the edge of the grid is visible |
| Day08.SingleTreeMiscounted | src/Day08.kt:38 | on the one-tree grid the start count `2·rows + 2·cols − 4` makes part one 0, although its single tree is visible |
| Day08.Part1AsWritten | src/Day08.kt:36-47 | part one as written: the start count `2·rows + 2·cols − 4` plus the visible inner trees |
| Day08.EdgesAndInteriorCount | src/Day08.kt:38-45 | when every edge position counts, the corrected edge count plus the inner positions that count gives all positions that count |
| Day08.EdgesAndInterior | src/Day08.kt:38-45 | the corrected edge count plus the visible inner trees is the number of visible trees |
| Day08.CountVisibleInRow | src/Day08.kt:40-44 | the inner loop counts the visible trees of row `i` between its first and last column |
| Day08.Part1 | src/Day08.kt:36-47 | part one, with the corrected start count, is the number of visible trees of the grid |
| Day08.Part2 | src/Day08.kt:49-61 | part two is at least every inner tree's scenic score, and is 0 or the score of some inner tree |
| Day08.EdgeScoresZero | src/Day08.kt:52-53 | an edge tree has an empty view on one side, so its score is 0; skipping the edges loses nothing |
| Day08.SampleBestScore | src/Day08.kt:65 | in the sample, the tree in the middle of the fourth row scores 8 |
| Day09.AdjacentMeaning | src/Day09.kt:15-16 | two knots touch exactly when one lies in the 3x3 square around the other |
| Day09.AdjacentSymmetric | src/Day09.kt:15-16 | touching is symmetric |
| Day09.MoveHead | src/Day09.kt:29-42 | a head step changes exactly one coordinate, by exactly one |
| Day09.MoveHeadUndone | src/Day09.kt:29-42 | a step in the opposite direction undoes it |
| Day09.MoveHeadAdjacent | src/Day09.kt:29-42 | after a step the head still touches where it was |
| Day09.MoveKnot | src/Day09.kt:44-61 | a knot touching its predecessor stays put; otherwise it moves by at most one in each coordinate, never away from its predecessor in either coordinate |
| Day09.CatchUp | src/Day09.kt:48-58 | a knot that touched its predecessor before that one moved by at most one touches it again after catching up |
| Day09.Follow | src/Day09.kt:76-77 | the knots move one after the other, each after the one in front of it; the rope keeps its length (each knot in `FollowAt`) |
| Day09.FollowAt | src/Day09.kt:76-77 | knot `i` of the moved rope is knot `i` moved after its already moved predecessor (the head for knot 0) |
| Day09.FollowKeepsTaut | src/Day09.kt:76-79 | when the head moves by at most one, every knot touches its predecessor again after all follow |
| Day09.AtOrigin | src/Day09.kt:67-70 | the nine knots start at the origin |
| Day09.Step | src/Day09.kt:73-80 | one head step and the knots following keep the number of knots |
| Day09.StepKeepsTaut | src/Day09.kt:72-80 | a step keeps every knot touching its predecessor |
| Day09.Repeat | src/Day09.kt:73 | a motion stands for `numberOfSteps` steps in its direction, none when the count is not positive |
| Day09.Trace | src/Day09.kt:72-81 | the rope after each step, one entry per step |
| Day09.TraceAt | src/Day09.kt:72-81 | the entry for step `k` is the rope after the first `k + 1` steps |
| Day09.VisitedAppend | src/Day09.kt:78 | one more step adds the knot's new position to its set |
| Day09.VisitedAtMostSteps | src/Day09.kt:78 | a knot's set has at most one position per step |
| Day09.FinalTaut | src/Day09.kt:63-81 | from the start at the origin the rope stays taut after any steps |
| Day09.TraceTaut | src/Day09.kt:72-80 | after every head step knot 0 touches the head and every knot `i` touches knot `i - 1` |
| Day09.FollowerShadowsLeader | src/Day09.kt:76-79 | every position of knot `i + 1` touches some position of knot `i` |
| Day09.MoveKnots | src/Day09.kt:76-79 | the inner loop moves the knots in order after the head and adds each new position to that knot's set |
| Day09.RepeatOnce | src/Day09.kt:73 | one more step in the same direction extends the steps taken |
| Day09.RecordedStep | src/Day09.kt:74-79 | one head step and the knots' catching up extend the recorded rope and sets by that step |
| Day09.ExecuteMotion | src/Day09.kt:73-80 | a motion's steps extend the record by `numberOfSteps` steps in its direction |
| Day09.ExecuteMotions | src/Day09.kt:63-83 | nine sets, each holding exactly the positions its knot takes after each step |
| Day09.Part1 | src/Day09.kt:90 | part one counts the positions of the first knot, at most one per step |
| Day09.Part2 | src/Day09.kt:92 | part two counts the positions of the last knot, at most one per step |
| Day10.InstructionSamplesMeaning | src/Day10.kt:42-49 | an instruction taking `n` cycles is sampled once per new cycle, in increasing order; X is unchanged in all but the last sample, which sees the instruction's effect |
| Day10.InstructionSamplesSplit | src/Day10.kt:8-49 | `noop` takes one cycle and leaves X; `addx v` takes two and adds `v`: the samples are the waiting cycles and then the executed one |
| Day10.FinalXSums | src/Day10.kt:14-48 | X ends up as its start plus every `addx` operand |
| Day10.Samples | src/Day10.kt:41-50 | one sample per cycle the instructions take |
| Day10.SamplesConsecutive | src/Day10.kt:41-50 | the samples run over consecutive cycles, and the last one sees the final X |
| Day10.Run | src/Day10.kt:39-51 | the samples of a run started by `play`: cycle 1 with X = 1, then one per cycle of the instructions (stated by `RunCycles`) |
| Day10.RunCycles | src/Day10.kt:39-51 | `checkCycle` runs exactly once for every cycle from 1 to 1 + the total instruction cycles, in increasing order, the last time with X at 1 plus the sum of the operands |
| Day10.ReachedMeaning | src/Day10.kt:58 | `Reached(n)` counts exactly the interesting cycles 20, 60, ..., 220 that are at most `n` |
| Day10.StrengthsMeaning | src/Day10.kt:58-60 | over cycles 1..n, a strength is recorded for exactly the interesting cycles reached, each being the cycle number times X during that cycle |
| Day10.Draw | src/Day10.kt:63-71 | the screen always has a row |
| Day10.Paint | src/Day10.kt:63-71 | `handleCrt`: within the first 240 cycles the pixel is lit exactly when the sprite covers its column, and a row is opened after every 40th cycle below 240 (stated by `PaintAppends`) |
| Day10.DrawMeaning | src/Day10.kt:63-71 | over cycles 1..n the screen holds min(n, 240) pixels in rows of 40, a new row opened after each multiple of 40 below 240; the pixel in column `j` is '#' exactly when X is within one of `j` during its cycle |
| Day10.PaintAppends | src/Day10.kt:64-69 | painting cycle `n + 1 <= 240` extends that layout by one pixel |
| Day10.ScreenBounds | src/Day10.kt:64-69 | the screen never exceeds 6 rows of 40 pixels |
| Day10.Computer.constructor | src/Day10.kt:33-37 | a fresh computer has X = 1 at cycle 1, no strengths and one empty screen row |
| Day10.Computer.HandleCrt | src/Day10.kt:63-71 | `handleCrt` paints the current cycle's pixel and changes nothing else |
| Day10.Computer.CheckCycle | src/Day10.kt:54-61 | `checkCycle` records the current sample: the strength at an interesting cycle and, when enabled, the pixel |
| Day10.Computer.Advance | src/Day10.kt:42-47 | the inner loop advances the cycle `n` times, sampling every cycle but the last with X unchanged |
| Day10.Computer.RunInstruction | src/Day10.kt:42-49 | one instruction advances the cycle by its cycle count, applies its effect to X and adds its samples |
| Day10.RunStep | src/Day10.kt:41-50 | running one more instruction extends the cycle count, X and the samples by that instruction's |
| Day10.Computer.Execute | src/Day10.kt:39-52 | `execute` samples the start and then every cycle of the instructions, and ends at the total cycle count with the final X |
| Day10.Play | src/Day10.kt:77-86 | `play` returns the strengths and the screen of the run from cycle 1 with X = 1 (a single empty row when the screen is off) |
| Day10.Part1Meaning | src/Day10.kt:88 | part one adds the strengths at exactly the interesting cycles the program reaches, each the cycle times X |
| Day10.Part2Meaning | src/Day10.kt:90 | part two draws at most six rows of forty pixels, each lit exactly when the sprite covers its column |
| Day10.SmallProgram | src/Day10.kt:8-51 | `noop, addx 3, addx -5` has X = 1 during cycles 1 to 3, 4 during cycles 4 and 5, and -1 at cycle 6 |
| Day11.ParseOperationMeaning | src/Day11.kt:23-38 | for '+' or '*' the parsed function exists and computes `old + value` or `old * value`, "old" standing for the old value (so "old * old" squares and "old + old" doubles) |
| Day11.InitialState | src/Day11.kt:86 | one item list per monkey, no inspections counted |
| Day11.ThrowItemsMeaning | src/Day11.kt:91-105 | inspecting items raises the monkey's count by one per item and no other count, keeps its own list, and appends to every other monkey's list exactly the items thrown to it, in order |
| Day11.Turn | src/Day11.kt:90-107 | one monkey's turn keeps one item list per monkey (what it does to them in `TurnMeaning`) |
| Day11.Round | src/Day11.kt:89-108 | one round, every monkey's turn in order, keeps one item list per monkey |
| Day11.TurnMeaning | src/Day11.kt:90-107 | in its turn a monkey inspects every item it holds once, each goes to `throwMap[test(worry)]`, and its list is empty afterwards |
| Day11.TurnKeepsTotal | src/Day11.kt:91-106 | with no monkey throwing to itself, a turn keeps the number of items in play |
| Day11.TurnsKeepTotal | src/Day11.kt:90-107 | so do the turns of any first monkeys |
| Day11.RoundsKeepTotal | src/Day11.kt:89-108 | any number of rounds keeps the number of items in play |
| Day11.Dividends | src/Day11.kt:47-84 | the set of divisors holds every monkey's divisor and nothing else, and is empty exactly when there are no monkeys |
| Day11.ProductMultiple | src/Day11.kt:84 | every divisor divides their product |
| Day11.ProductPositive | src/Day11.kt:84 | the product of positive divisors is positive |
| Day11.ApplyCongruent | src/Day11.kt:23-38 | every operation maps values congruent modulo `m` to congruent values |
| Day11.CongruentDivisor | src/Day11.kt:66-100 | values congruent modulo the product stay congruent modulo each divisor |
| Day11.InspectAgrees | src/Day11.kt:97-103 | an inspection reduced modulo a multiple of every divisor, and the same inspection done exactly, give congruent worry levels and the same target monkey |
| Day11.TurnAgrees | src/Day11.kt:90-107 | a reduced turn and an exact turn keep the counts equal and the items congruent |
| Day11.RoundsAgree | src/Day11.kt:89-108 | so does any number of rounds |
| Day11.ReductionKeepsCounts | src/Day11.kt:84-100 | reducing modulo the product of the divisors leaves every inspection count as exact arithmetic would give it |
| Day11.CountValuesComplete | src/Day11.kt:110 | the counts listed are exactly the values of the map, one per monkey that inspected |
| Day11.BusinessMeaning | src/Day11.kt:110 | with two or more counts the result is the product of two different monkeys' counts, and no other pair's product is larger |
| Day11.Business | src/Day11.kt:110 | the product of the two largest counts, `None` when there are none (meaning in `BusinessMeaning`) |
| Day11.TakeTurn | src/Day11.kt:91-106 | the loop over one monkey's items does exactly that monkey's turn, with worry divided by three in part one and reduced modulo the product in part two |
| Day11.PlayRound | src/Day11.kt:90-107 | one round is every monkey's turn, in order |
| Day11.Play | src/Day11.kt:82-111 | for well-formed monkeys (positive divisors, throw targets that exist and are not the thrower), `play` runs 20 or 10000 rounds and returns the product of the two largest counts; `None` for no monkeys, where `reduce` throws |
| Day12.ElevationMeaning | src/Day12.kt:3-9 | with 'S' at level 'a' and 'E' at level 'z', a step is allowed exactly when the target is at most one level higher |
| Day12.CheckElevation | src/Day12.kt:9 | a step may climb at most one level and descend any number (stated by `ElevationMeaning`) |
| Day12.OrthogonalInGrid | src/Day12.kt:13-24 | the four candidates the source tests are exactly the grid squares sharing a side with the node |
| Day12.Adjacent | src/Day12.kt:11-26 | the neighbours returned are exactly the orthogonal grid squares reachable in one allowed step, each once |
| Day12.ShortestUnique | src/Day12.kt:28-62 | the fewest-steps distance between two squares is unique |
| Day12.ReachStep | src/Day12.kt:51-56 | a walk to a square followed by one allowed step is a walk one step longer |
| Day12.DistinctWithin | src/Day12.kt:52-53 | squares marked visited once each are no more than the grid's squares (the search ends) |
| Day12.InitialDistances | src/Day12.kt:36-40 | every grid square, and only those, starts at the unreachable sentinel (`Integer.MAX_VALUE`, here `Infinite`) |
| Day12.DiscoverRecorded | src/Day12.kt:52-57 | discovering a new neighbour of a visited square records a walk to it of the recorded length and a parent one step before it |
| Day12.DiscoverLayered | src/Day12.kt:54-56 | queued squares keep non-decreasing distances, the newest at most one beyond the square being expanded |
| Day12.ClosedPrefix | src/Day12.kt:45-59 | along any walk from the start whose first squares were all expanded, each square is visited at a distance no more than its position |
| Day12.WalkNotShorter | src/Day12.kt:45-49 | when the goal comes off the queue, no walk to it is shorter than its recorded distance |
| Day12.FoundIsShortest | src/Day12.kt:47-48 | so the goal's recorded distance is its fewest-steps distance |
| Day12.DrainedIsUnreachable | src/Day12.kt:45-61 | when the queue empties without visiting the goal, no walk of any length reaches it |
| Day12.Visit | src/Day12.kt:52-57 | one neighbour: an unvisited one is marked visited, given distance plus one and a parent, and queued; a visited one changes nothing; the search invariants hold afterwards |
| Day12.Discover | src/Day12.kt:51-58 | after the inner loop every neighbour of the expanded square is visited at most one step further, and the square counts as expanded |
| Day12.Bfs | src/Day12.kt:28-62 | `bfs` returns the goal exactly when it was visited; the goal's recorded distance is its fewest-steps distance (the sentinel when unreachable); when it returns null the goal is unreachable; visited squares, distances and parents describe real walks |
| Day12.GoalDistance | src/Day12.kt:76-97 | the search followed by `distancesMap[endPosition]` yields the goal's fewest-steps distance |
| Day12.IndexOf | src/Day12.kt:73-74 | Kotlin's `indexOf`: the first column holding the character, or -1 when none does |
| Day12.FindSquare | src/Day12.kt:73-89 | the first square holding the character in reading order, or none (where `.first` throws) |
| Day12.Part1 | src/Day12.kt:64-79 | part one is defined exactly when 'S' and 'E' exist, and then is the fewest steps from the first 'S' to the first 'E' |
| Day12.LowSquares | src/Day12.kt:86-87 | the squares holding 'S' or 'a' up to a position in reading order, and only those |
| Day12.AllLowSquaresMeaning | src/Day12.kt:86-87 | the start candidates are exactly the squares holding 'S' or 'a' |
| Day12.Part2 | src/Day12.kt:81-104 | part two is defined exactly when 'E' exists; the result is no larger than the distance from any start candidate and, when finite, is the distance from one of them |
| Day13.ItemsSize | src/Day13.kt:34-37 | wrapping an integer as a one-element list never makes it larger, and the items of a list are smaller than the list (the comparison ends) |
| Day13.Compare | src/Day13.kt:14-39 | `inRightOrder` for one pair: a verdict when the pair is decided, none when the two packets compare equal (its laws in `CompareSelf`, `CompareFlip`, `CompareChains`) |
| Day13.CompareLists | src/Day13.kt:22-33 | the loop over list positions: the first position that decides, else the shorter list comes first, else no verdict |
| Day13.WrapInt | src/Day13.kt:34-35 | comparing an integer with a packet gives the same verdict as comparing the one-element list holding it |
| Day13.CompareSelf | src/Day13.kt:14-39 | a packet compared with itself gets no verdict (the source records nothing) |
| Day13.CompareListsSelf | src/Day13.kt:22-33 | a list compared with itself gets no verdict |
| Day13.CompareFlip | src/Day13.kt:14-39 | swapping the two sides flips the verdict and keeps an undecided pair undecided |
| Day13.CompareListsFlip | src/Day13.kt:22-33 | the same for the loop over list positions |
| Day13.CompareChains | src/Day13.kt:14-39 | the comparison is a total preorder: verdicts chain transitively, and an undecided link passes the other verdict through |
| Day13.AsLists | src/Day13.kt:22-38 | every comparison equals the comparison of both packets read as lists |
| Day13.CompareListsChains | src/Day13.kt:22-33 | the list comparison chains the same way |
| Day13.LtTransitive | src/Day13.kt:14-39 | "in the right order" is transitive |
| Day13.LtAsymmetric | src/Day13.kt:14-39 | it is irreflexive and asymmetric, and a "wrong order" verdict is the right order read backwards |
| Day13.Swapped | src/Day13.kt:46-50 | every pair read the other way round, position by position |
| Day13.RightOrderSumSwapped | src/Day13.kt:45-56 | when every pair gets a verdict, each 1-based index counts for exactly one of a pair and its reverse: the two sums add to n(n+1)/2 |
| Day13.Part1 | src/Day13.kt:45-56 | recording each decided pair's verdict and adding the 1-based indices of the pairs in the right order gives the sum over pairs of the index of every pair in the right order |
| Day13.Swap | src/Day13.kt:6-10 | `swap` exchanges the two positions and changes nothing else |
| Day13.SwapKeeps | src/Day13.kt:6-10 | an exchange below a bound keeps the packets below it, everything above it, and every pair decided |
| Day13.BubblePass | src/Day13.kt:60-66 | one pass over the unsorted part keeps its packets, leaves the sorted part alone, and leaves the greatest packet at its top |
| Day13.PassSwaps | src/Day13.kt:62-64 | a pair in the wrong order is exchanged and the greater packet moves up above everything before it |
| Day13.PassKeeps | src/Day13.kt:62-63 | a pair in the right order stays, and the upper packet is above everything before it |
| Day13.SortedAboveStep | src/Day13.kt:59-67 | after each pass the sorted part grows by one packet |
| Day13.BubbleSort | src/Day13.kt:58-68 | `bubbleSort` leaves the packets in the right order and a permutation of the ones it was given |
| Day13.SplitMultiset | src/Day13.kt:58-68 | a permuted prefix with the rest unchanged is a permutation of the whole |
| Day13.SortedAboveAll | src/Day13.kt:59 | with at most one packet left unsorted, the whole list is sorted |
| Day13.CountBelow | src/Day13.kt:78 | the number of packets strictly before a given one is at most the number of packets |
| Day13.CountBelowAppend | src/Day13.kt:78 | that count adds up over concatenation |
| Day13.CountBelowRemove | src/Day13.kt:78 | taking one packet out lowers the count by its own share |
| Day13.RemoveMatching | src/Day13.kt:58-68 | in a permutation the last element of one sequence is found in the other, and removing both keeps them permutations |
| Day13.CountBelowPermutation | src/Day13.kt:76-78 | the count depends only on which packets there are, not on their order |
| Day13.CountBelowSorted | src/Day13.kt:78 | in a sorted list the packet at position k has exactly k packets before it |
| Day13.CountBelowPrefix | src/Day13.kt:78 | in a sorted list the count below a packet is its position |
| Day13.CountBelowAll | src/Day13.kt:78 | a packet after every packet of a list has all of them below it |
| Day13.IndexOf | src/Day13.kt:78 | Kotlin's `indexOf`: the first position holding the packet, or -1 when it is absent |
| Day13.DividersOrdered | src/Day13.kt:3-4 | `[[2]]` comes before `[[6]]`, and neither before itself |
| Day13.SortedPosition | src/Day13.kt:76-78 | in any sorted permutation a packet stands at the position given by the number of packets before it |
| Day13.DividerPositions | src/Day13.kt:73-78 | with the two dividers added and everything sorted, `[[2]]` stands after the packets before it, and `[[6]]` after those and `[[2]]` |
| Day13.Part2 | src/Day13.kt:70-79 | the decoder key is (packets before `[[2]]` + 1) times (packets before `[[6]]` + 2), independent of the input order |
| Day14.Range | src/Day14.kt:63-76 | `from until to + 1` or `from downTo to` covers exactly the values between the two ends, both included, whichever way the segment runs |
| Day14.SegmentPoints | src/Day14.kt:62-80 | the cells the loop visits for a segment are exactly its integer points (a non-vertical segment drawn along its end point's row) |
| Day14.DrawLine | src/Day14.kt:62-80 | drawing one segment makes every point on it rock and leaves every other cell as it was |
| Day14.OnAnyLineNext | src/Day14.kt:61 | a cell is on one of the first k + 1 segments exactly when it is on one of the first k or on segment k |
| Day14.FillGrid | src/Day14.kt:60-82 | `fillGrid` makes every point of every segment rock and leaves every other cell as it was |
| Day14.MinOf | src/Day14.kt:86-88 | `minOf` is the key of some segment and no larger than any segment's |
| Day14.MaxOf | src/Day14.kt:89-90 | `maxOf` is the key of some segment and no smaller than any segment's |
| Day14.ComputeBounds | src/Day14.kt:86-90 | the bounds contain the sand source and both ends of every segment |
| Day14.InAbyss | src/Day14.kt:31-47 | `sandFallingIntoAbyss`: outside the box in part one, above the box or below the floor row in part two |
| Day14.IsAir | src/Day14.kt:49-58 | `checkIfAirInPosition`: the abyss counts as air, the floor row in part two does not, otherwise a missing or `AIR` cell |
| Day14.Step | src/Day14.kt:108-121 | a grain moves one row down, straight if that is air, else down-left, else down-right; it rests exactly when all three are blocked |
| Day14.SettleRests | src/Day14.kt:107-127 | a grain ends in the abyss or on a cell with nothing free below |
| Day14.Settle | src/Day14.kt:107-127 | the cell where a grain starting at a cell ends, following `Step` until it rests or reaches the abyss (stated by `SettleRests`, `SettleBelow`) |
| Day14.SettleBelow | src/Day14.kt:107-127 | a grain only falls, moving at most one column per row |
| Day14.FloorCatches | src/Day14.kt:45-55 | in part two the floor two rows below the lowest rock catches every grain |
| Day14.SettleAgree | src/Day14.kt:107-127 | where a grain ends depends only on the cells below where it starts |
| Day14.SettleOnAir | src/Day14.kt:107-127 | a grain that does not reach the abyss ends where it started or on an air cell |
| Day14.SandCellsUpdate | src/Day14.kt:103-123 | setting a cell to sand adds it to the resting sand, setting it to anything else removes it |
| Day14.StepBelow | src/Day14.kt:108-121 | the next move depends only on the cells below the grain |
| Day14.DropGrain | src/Day14.kt:100-127 | one grain appears at the source, falls to where `Settle` puts it on the grid it started from, and is the only new sand; rock and the other cells stay as they were |
| Day14.Move | src/Day14.kt:108-124 | one move resets the grain's cell to air and marks its new cell as sand unless it is in the abyss |
| Day14.MoveKeepsBelow | src/Day14.kt:108-124 | after a move nothing below the grain has changed, and the cell it moved to was air |
| Day14.MoveKeepsSand | src/Day14.kt:108-124 | after a move the falling grain is the only new sand, or there is none when it fell into the abyss |
| Day14.MoveKeepsRock | src/Day14.kt:108-124 | a move never changes rock |
| Day14.MoveKeepsAir | src/Day14.kt:108-124 | a move changes no other cell between air and not air |
| Day14.Shrinks | src/Day14.kt:98-128 | each new resting grain shrinks the free part of the region (the outer loop ends) |
| Day14.Layout | src/Day14.kt:92-103 | the rock of the filled grid with a set of grains at rest on it |
| Day14.LayoutAir | src/Day14.kt:56-57 | a cell of that layout is air exactly when it holds no grain and is air in the filled grid |
| Day14.GrainLands | src/Day14.kt:100-127 | a grain dropped while the source is free, that stays out of the abyss, rests on a new cell of the reachable region |
| Day14.Poured | src/Day14.kt:98-128 | the grains at rest when grains are poured one at a time onto the rock, each where `Settle` puts it on the layout so far, until the source is covered or a grain falls into the abyss |
| Day14.PouredGrows | src/Day14.kt:98-128 | pouring only adds grains, all in the reachable region, and in part two it always covers the source |
| Day14.PouredStep | src/Day14.kt:100-127 | one grain that stays out of the abyss carries the pour on: the sand with that grain added pours to the same final sand |
| Day14.Layered | src/Day14.kt:98-128 | below the source row the grid is the layout of its own sand on the filled rock (a loop invariant of `Pour`) |
| Day14.SettleOnLayout | src/Day14.kt:100-127 | on such a grid a grain from the source falls exactly as on the layout of the grid's sand |
| Day14.DropKeepsLayered | src/Day14.kt:100-127 | dropping one grain keeps the grid layered |
| Day14.Pour | src/Day14.kt:98-128 | the sand left at rest is exactly the grain-by-grain pour `Poured` from no sand; every resting grain lies in the reachable region, rock is unchanged, and the loop ends with the source covered or the next grain falling into the abyss |
| Day14.Play | src/Day14.kt:84-131 | `play` is undefined exactly when there are no segments (`minOf` throws); otherwise the rock is exactly the segments' points and the count is the number of grains `Poured` leaves on it, all in the reachable region, with the source covered in part two |
| Day15.ManhattanDistance | src/Day15.kt:53-54 | the distance is zero exactly for the same point and at least the difference in either coordinate |
| Day15.ManhattanSymmetric | src/Day15.kt:53-54 | the distance does not depend on the order of the two points |
| Day15.SeparatedDisjoint | src/Day15.kt:26-51 | a column lies in at most one range of a separated list |
| Day15.AddUnique | src/Day15.kt:44-70 | adding to the insertion-ordered set keeps every range and adds the new one, once |
| Day15.Insert | src/Day15.kt:30 | stable insertion adds exactly the one range |
| Day15.InsertKeepsSorted | src/Day15.kt:30 | inserting into a list sorted by start keeps it sorted |
| Day15.SortByStart | src/Day15.kt:30 | `sortedBy { it.start }` is a permutation of the ranges |
| Day15.SortByStartSorted | src/Day15.kt:30 | and it is sorted by start |
| Day15.MergeSortedSpec | src/Day15.kt:37-49 | the merge loop emits ranges with ascending starts and a gap between any two, covering exactly the columns of the ranges emitted before, the current range and the rest; non-empty ranges stay non-empty |
| Day15.AddCurrent | src/Day15.kt:44-49 | emitting the current range behind ranges that all end before it keeps them separated and adds exactly its columns |
| Day15.CombinedSpec | src/Day15.kt:26-51 | `combineRanges` returns separated ranges (or its input, when that has at most one range) covering exactly the columns the input covers |
| Day15.Combined | src/Day15.kt:26-51 | `combineRanges` as a function: sort by start, then merge overlapping or touching ranges (stated by `CombinedSpec`) |
| Day15.CombineRanges | src/Day15.kt:26-51 | the method computes that merge: separated ranges covering the same columns, its input unchanged when it has at most one range |
| Day15.RowCoverageMeaning | src/Day15.kt:59-71 | a sensor contributes a range to row y exactly when the row is within its radius, and the range holds exactly the columns it sees (within `0..maxPos` when that is given) |
| Day15.RowCoverage | src/Day15.kt:59-71 | the range one sensor sees on row y, clamped to `0..maxPos` when that is given, `None` when the row is out of its reach (stated by `RowCoverageMeaning`) |
| Day15.Coverage | src/Day15.kt:56-72 | the ranges of all sensors that reach row y, in sensor order (stated by `CoverageMeaning`) |
| Day15.CoverageMeaning | src/Day15.kt:56-72 | the collected ranges cover a column exactly when some sensor sees it (and it lies within `0..maxPos` when that is given) |
| Day15.GetCoverageRanges | src/Day15.kt:56-74 | `getCoverageRanges` returns separated ranges covering exactly the columns of row y that some sensor sees |
| Day15.Devices | src/Day15.kt:80-81 | the listed points are exactly the sensors and beacons on row y |
| Day15.Interval | src/Day15.kt:83 | the columns `a..b`, both included |
| Day15.RowSeenMeaning | src/Day15.kt:56-74 | a column is in the row's seen set exactly when some sensor sees that point |
| Day15.IntervalSize | src/Day15.kt:83 | `end - start + 1` counts the columns of a non-empty range |
| Day15.TotalLengthCounts | src/Day15.kt:83 | for separated, non-empty ranges the summed lengths count the distinct columns they cover |
| Day15.HeadDisjoint | src/Day15.kt:83 | the first range of a separated list shares no column with the rest |
| Day15.CoveredColumnsMeaning | src/Day15.kt:83 | the columns of a list of ranges are exactly the ones some range covers |
| Day15.SeenColumns | src/Day15.kt:78-83 | the summed length of part one's merged ranges is the number of columns of the row some sensor sees |
| Day15.Part1 | src/Day15.kt:76-89 | part one is the number of seen columns of the row minus the number of merged ranges holding a sensor or beacon of the row |
| Day15.DevicesSeen | src/Day15.kt:59-85 | every sensor and beacon of the row lies in a column its sensor sees |
| Day15.Part1Fixed | src/Day15.kt:76-89 | the evidently intended count: the seen columns of the row that hold neither a sensor nor a beacon |
| Day15.Part1CountsRanges | src/Day15.kt:84-88 | on two sensors whose rows merge into one range holding two beacons, `part1` subtracts 1 where two columns hold a beacon, so its count is one too high |
| Day15.FirstGap | src/Day15.kt:97 | `windowed(2).first { ... }`: the first adjacent pair with an uncovered column between them, or none when every pair touches |
| Day15.SeparatedGap | src/Day15.kt:96-97 | for separated ranges the first pair already has a gap |
| Day15.SplitSearchMeaning | src/Day15.kt:94-101 | the row search of `part2` finds nothing exactly when no row of `0..maxPos` splits; otherwise it stops on the first row that splits, at a column no sensor sees or one outside `0..maxPos` |
| Day15.SplitSearch | src/Day15.kt:94-101 | the row search of `part2` from row y on: the gap of the first row whose merged ranges have one (stated by `SplitSearchMeaning`) |
| Day15.SplitRow | src/Day15.kt:95-98 | a row whose clamped coverage splits ends the search at a column that is unseen or outside `0..maxPos` |
| Day15.UncoveredUnseen | src/Day15.kt:95-97 | a column no range of the row covers is unseen or outside `0..maxPos` |
| Day15.Part2 | src/Day15.kt:91-102 | `part2` returns `x * 4000000 + y` for the position the row search finds, and -1 when it finds none |
| Day15.ProperOnly | src/Day15.kt:69 | the ranges that cover at least one column, in order |
| Day15.ProperOnlySeparated | src/Day15.kt:69 | dropping the empty ranges keeps a list separated |
| Day15.FirstUncoveredMeaning | src/Day15.kt:94-98 | over separated, non-empty ranges starting at 0 or later, the first uncovered column from 0 on is uncovered and every column before it is covered |
| Day15.RowSearch | src/Day15.kt:94-98 | on each row the first column from 0 on that no sensor sees (or one past `maxPos`) |
| Day15.SearchRow | src/Day15.kt:94-98 | the method computes that column from the merged ranges |
| Day15.Part2Fixed | src/Day15.kt:91-102 | the evidently intended search: the first position of the square `0..maxPos` in reading order that no sensor sees, or none when the sensors see the whole square |
| Day15.SortSorted | src/Day15.kt:30 | `sortedBy` leaves a list already sorted by start as it is |
| Day15.Part2ReportsOutside | src/Day15.kt:69-98 | on two sensors around a 2x2 square, the clamp makes an empty range `0..-9` that splits row 0, so `part2` reports column -8 (frequency -32000000) although the sensors see the whole square |
| Day16.IndexOf | src/Day16.kt:29-63 | `indexOfFirst { it.name == name }`: the first position of a valve with that name, or -1 when there is none |
| Day16.ReachConcat | src/Day16.kt:35-45 | a walk of a tunnels followed by a walk of b tunnels is a walk of a + b tunnels |
| Day16.Relax | src/Day16.kt:38-42 | one relaxation keeps the entry, or replaces it with the finite sum of the two legs when that is strictly shorter |
| Day16.Phase | src/Day16.kt:36-44 | the phase for intermediate k relaxes every entry through k, each against the matrix from before the phase |
| Day16.InitialInvariant | src/Day16.kt:26-34 | the starting matrix (0 on the diagonal, 1 for a tunnel, `Int.MAX_VALUE` as an explicit infinity elsewhere) has walks behind its entries and no tunnel above 1 |
| Day16.PhaseTriangle | src/Day16.kt:35-45 | after phase k every entry obeys the triangle inequality through every intermediate up to k |
| Day16.PhaseTriangles | src/Day16.kt:35-45 | so the phases establish the triangle inequality through one more intermediate each |
| Day16.PhaseSound | src/Day16.kt:38-42 | every finite entry stays the length of a real walk |
| Day16.PhaseKeepsInvariant | src/Day16.kt:35-45 | each phase keeps the Floyd–Warshall invariant and extends it to the next intermediate |
| Day16.WalkBound | src/Day16.kt:25-47 | after all phases every walk is at least as long as the matrix entry, which is finite |
| Day16.Snapshot | src/Day16.kt:26 | the rows of the 2-D array, read as a square matrix of distances |
| Day16.InitialDistances | src/Day16.kt:26-34 | the new matrix is `Int.MAX_VALUE` everywhere except 1 for each tunnel and 0 on the diagonal |
| Day16.RelaxThrough | src/Day16.kt:36-44 | the two inner loops, in place, leave exactly the phase for k (the in-place updates do not disturb row and column k) |
| Day16.Floyd | src/Day16.kt:25-47 | `floyd` returns, for every pair of valves, exactly the number of tunnels of the shortest walk between them, infinite when there is none, and 0 on the diagonal |
| Day16.ShortestTriangle | src/Day16.kt:64 | shortest distances obey the triangle inequality |
| Day16.IndexRoundTrip | src/Day16.kt:97 | a valve index below 64 survives the conversion to a 7-bit shift amount |
| Day16.ShiftsApart | src/Day16.kt:97 | different shifts below 64 set different bits |
| Day16.BitsApart | src/Day16.kt:97 | `1L shl i` and `1L shl j` share no bit for different valves |
| Day16.SingleBit | src/Day16.kt:97 | each valve's bitmap has exactly one bit set |
| Day16.AllBitsZero | src/Day16.kt:16 | a bitmap with none of the 64 valve bits set is `0L` |
| Day16.SingleAnd | src/Day16.kt:16-70 | masking with a single bit yields 0 or that bit |
| Day16.OrSingle | src/Day16.kt:70 | a single bit is set in `a or b` exactly when it is set in a or in b |
| Day16.AndSingle | src/Day16.kt:16 | a single bit is set in `a and b` exactly when it is set in both |
| Day16.XorSingle | src/Day16.kt:16 | a single bit is clear in `a xor b` exactly when a and b agree on it |
| Day16.OrBit | src/Day16.kt:70 | `acc or (1L shl i)` sets bit i and keeps every other bit |
| Day16.XorBit | src/Day16.kt:16 | agreeing on a valve bit clears it in the exclusive or |
| Day16.AndBit | src/Day16.kt:16 | a valve bit is clear in `a and b` exactly when it is clear in a or in b |
| Day16.SameBits | src/Day16.kt:70-72 | two bitmaps with the same valve bits are equal, so a bitmap names exactly one set of valves |
| Day16.DisjointBitsAndZero | src/Day16.kt:16 | `a and b == 0L` when no valve's bit is set in both |
| Day16.AndZeroCommonBit | src/Day16.kt:16 | and only then |
| Day16.BitmapOfBit | src/Day16.kt:70 | bit j of `visitedValves.fold(0L) { acc or bit }` is set exactly when valve j is open, so the search may key its results by the set of open valves |
| Day16.UsefulValves | src/Day16.kt:96-97 | the valves with a positive flow rate, each once, in input order |
| Day16.Position | src/Day16.kt:53-74 | after opening valves the agent stands at the last valve opened, at "AA" before any |
| Day16.Run | src/Day16.kt:60-79 | a feasible visit order opens distinct useful valves, each costing one minute plus the travel time and fitting in the time left, and releases each valve's flow rate for every minute left after it opens; time left and pressure are never negative |
| Day16.RunPrefix | src/Day16.kt:60-79 | every prefix of a feasible visit order is feasible |
| Day16.RunDistinct | src/Day16.kt:61 | a feasible visit order opens each valve at most once |
| Day16.Record | src/Day16.kt:71-72 | the results map gains the key, whose value becomes the larger of its old value (`Int.MIN_VALUE` when absent) and the new pressure; other keys are unchanged |
| Day16.RecordGrows | src/Day16.kt:71-72 | recording never loses a key or lowers a value |
| Day16.RecordSound | src/Day16.kt:70-72 | recording a feasible order keeps every recorded value released by some feasible order of exactly the key's valves |
| Day16.RunStep | src/Day16.kt:64-68 | the loop body's arithmetic opens one more valve exactly as the specification does, and the agent moves there |
| Day16.RunStepRefused | src/Day16.kt:61-66 | an order that repeats an open valve, or whose next valve is unreachable or does not fit in time, is infeasible |
| Day16.GrowsTransitive | src/Day16.kt:72-74 | results that grow twice have grown |
| Day16.RecordedStays | src/Day16.kt:72-74 | a value recorded before the recursive call is still covered after it |
| Day16.CompleteStep | src/Day16.kt:60-81 | once the orders through the next valve are recorded, the loop has covered every order whose next valve is up to that one |
| Day16.CompleteAll | src/Day16.kt:60-82 | after the loop every feasible extension of the current order is recorded |
| Day16.MaxPressureSearch.constructor | src/Day16.kt:49-57 | the search starts with an empty results map and no open valve |
| Day16.MaxPressureSearch.CalculateMaxPressures | src/Day16.kt:49-83 | the backtracking search restores the open valves, only raises recorded values, records only values some feasible order releases, and records every feasible extension of the current order with at least the pressure it releases |
| Day16.Play | src/Day16.kt:85-100 | from "AA", with the shortest-path matrix and the useful valves, the results map holds for each set of valves exactly the best pressure of a feasible order opening those valves |
| Day16.Part1 | src/Day16.kt:102 | `values.max()`: undefined exactly for an empty results map, else the largest recorded value |
| Day16.Part1Meaning | src/Day16.kt:102 | part one is the best pressure any feasible non-empty visit order releases, and some order releases it |
| Day16.DisjointPaths | src/Day16.kt:12-21 | the ordered pairs of different keys sharing no valve |
| Day16.Part2 | src/Day16.kt:104-109 | `maxOf` over the disjoint pairs: undefined exactly when there is none, else the largest sum of the two keys' values |
| Day16.Part2AtMostTwicePart1 | src/Day16.kt:102-109 | the two agents together never release more than twice the best single value |
| Day16.Part2Bounds | src/Day16.kt:104-109 | no two feasible orders opening no valve in common release more together than part two |
| Day16.Part2Attained | src/Day16.kt:104-109 | and part two is released by two such orders |
| Day16.Part2Witness | src/Day16.kt:107-108 | a disjoint pair of keys attains part two |
| Day16.SoundWitness | src/Day16.kt:72 | every recorded key has a feasible order of exactly its valves behind it |
| Day16.WrapInt | src/Day16.kt:64 | Kotlin `Int` arithmetic: results lie in the 32-bit range |
| Day16.UnreachableValveTaken | src/Day16.kt:64-67 | as written, an unreachable valve (`Int.MAX_VALUE`) passes the time check because `1 + Int.MAX_VALUE` wraps to `Int.MIN_VALUE`, and the time left then wraps negative; the corrected guard refuses it |
| Day16.GuardsAgreeOnReachable | src/Day16.kt:64-66 | on every reachable valve the written and the corrected guard agree |
| Day17.GetPointsShape | src/Day17.kt:5-47 | each rock's `getPoints` lists its number of cells once each, all inside a box exactly its width by its height, touching the box's left, right and bottom sides |
| Day17.GetPoints | src/Day17.kt:5-47 | `getPoints`: the rock's shape moved so that its box has its bottom-left corner at the position (stated by `GetPointsShape`, `PointsTranslate`) |
| Day17.PointsTranslate | src/Day17.kt:5-47 | a rock at any position is the rock at the origin moved by that position |
| Day17.PushFitsMeaning | src/Day17.kt:136-140 | the jet's test accepts exactly the positions whose box lies between the walls and that overlap no settled cell |
| Day17.FallFitsMeaning | src/Day17.kt:145-148 | the fall's test accepts exactly the positions on or above the floor that overlap no settled cell |
| Day17.Jet | src/Day17.kt:131-142 | a jet moves a free rock one column, or leaves it where it is when the push does not fit; the rock stays free and at the same height |
| Day17.NextJet | src/Day17.kt:161 | `(movementIndex + 1) % movements.size`: the next jet, back to the first after the last |
| Day17.Move | src/Day17.kt:131-159 | one iteration of the inner loop leaves the rock free, one row lower when it falls, and rests it only when one row lower does not fit |
| Day17.Settle | src/Day17.kt:129-162 | a rock moves until it rests at a free position no higher than its start that cannot fall further, and reports the last jet used and the next one |
| Day17.MoveMeaning | src/Day17.kt:131-159 | `Move` performs the source's two tests in turn: push if that fits, then fall if that fits, else rest |
| Day17.SettleStep | src/Day17.kt:130-162 | settling is one move followed, after a fall, by settling from one row lower with the next jet |
| Day17.SettleFalls | src/Day17.kt:144-149 | after a fall the rock lands where it lands from one row lower |
| Day17.SettleLands | src/Day17.kt:150-156 | a rock that rests lands where it is, with the current jet as its last |
| Day17.SettleRests | src/Day17.kt:144-156 | a rock comes to rest on the floor or on the tower |
| Day17.AddKeepsInChamber | src/Day17.kt:151-154 | settling a rock keeps every tower cell between the walls and on or above the floor |
| Day17.TopY | src/Day17.kt:127 | the highest settled row is the row of some cell and no cell is higher |
| Day17.MaxOfY | src/Day17.kt:114 | `tower.maxOf { it.key.second }` finds that row |
| Day17.SpawnFree | src/Day17.kt:127 | a rock spawned two columns from the left wall and three rows above the top overlaps nothing |
| Day17.Spawn | src/Day17.kt:127 | a rock appears two columns from the left wall with its bottom three rows above the highest settled row (row 3 in the empty chamber) |
| Day17.Simulate | src/Day17.kt:117-164 | dropping n rocks in turn from the empty chamber, from jet 0, gives n numbered records of the rock types in order, the last holding the tower height |
| Day17.SimulateNext | src/Day17.kt:125-164 | one more rock is one more drop on the chamber after the ones before |
| Day17.RecordedStep | src/Day17.kt:151-157 | settling a rock and appending its record keeps the records numbered and the last record's height equal to the top row plus one |
| Day17.DropOne | src/Day17.kt:126-163 | dropping one rock of the next type adds one record and only adds cells and records |
| Day17.RepeatFrom | src/Day17.kt:74-88 | the first tortoise position from k on whose hare record 2k + 1 has the same rock type and jet |
| Day17.RepeatFromFirst | src/Day17.kt:74-88 | the search finds a repeat no later than any repeating position |
| Day17.CycleOfMeaning | src/Day17.kt:70-89 | `findCycle` answers nothing exactly when no tortoise record matches its hare record, and otherwise the rock numbers of the first matching pair |
| Day17.FindCycle | src/Day17.kt:70-89 | the tortoise-and-hare loop computes that answer |
| Day17.NoCycleInPrefix | src/Day17.kt:158 | records without a repeat have none in any prefix, so the drop loop stops at the first cycle |
| Day17.RockTypeResidue | src/Day17.kt:126 | two rocks have the same type only when their numbers agree modulo 5 |
| Day17.TortoiseHareResidue | src/Day17.kt:80 | rocks k and 2k + 1 have the same type only when k + 1 is a multiple of 5 |
| Day17.CycleInRecords | src/Day17.kt:70-89 | a cycle found in the records is a pair (first, 2·first + 1) with first at least 4, so `first - 1` names a real rock |
| Day17.DivTrunc | src/Day17.kt:104 | Kotlin's `Long` division, truncating toward zero, agrees with Euclidean division on non-negative operands |
| Day17.RemTrunc | src/Day17.kt:105 | Kotlin's `Long` remainder agrees with the Euclidean one on non-negative operands |
| Day17.FindTowerSizeMeaning | src/Day17.kt:91-92 | `data.find { ... }!!` fails exactly when no record has the rock number, else it answers the height of one that has it |
| Day17.FindTowerSize | src/Day17.kt:91-92 | the height of the first record with the rock number, `None` where `!!` throws (stated by `FindTowerSizeMeaning`) |
| Day17.CalculateTowerSize | src/Day17.kt:94-115 | `calculateTowerSize` extrapolates from the cycle when there is one, else it answers the top row plus one; it is undefined where the source throws |
| Day17.TowerSize | src/Day17.kt:94-115 | the height `calculateTowerSize` reports: extrapolated from a cycle, or the top row plus one, `None` for an empty tower |
| Day17.PeriodicHeight | src/Day17.kt:100-112 | when every cycle of rocks adds the same growth, q more cycles add q times the growth |
| Day17.FindInRecords | src/Day17.kt:91-92 | in records numbered by position the lookup finds the record itself |
| Day17.CycleSplit | src/Day17.kt:100-105 | the whole cycles and the leftover rocks add up to the last rock, and the truncating operators agree with the Euclidean ones here |
| Day17.ExtrapolateValue | src/Day17.kt:99-112 | the cycle branch answers the height after the leftover rocks plus q cycle growths |
| Day17.Extrapolate | src/Day17.kt:99-112 | the cycle branch of `calculateTowerSize`: the height before the cycle, the whole cycles' growth and the leftover rocks' growth, `None` where a lookup throws or the cycle is empty |
| Day17.ExtrapolationExact | src/Day17.kt:99-112 | the extrapolation is exact when the heights really repeat: it answers the height after rock `maxRocks - 1` |
| Day17.RecordedExtrapolation | src/Day17.kt:99-112 | with records holding a height function, the extrapolation is that height after the leftover rocks plus q growths |
| Day17.PeriodicAtEnd | src/Day17.kt:99-112 | a periodic height at the last rock is the height after the leftover rocks plus q growths |
| Day17.DropOneIs | src/Day17.kt:126-163 | one drop places the rock where it settles from its spawn position |
| Day17.PlacedIs | src/Day17.kt:151-157 | placing a rock adds its cells and a record holding the new height and jets |
| Day17.AddPoints | src/Day17.kt:151-154 | `points.forEach { tower[it] = true }` adds exactly the rock's cells |
| Day17.DropRock | src/Day17.kt:129-162 | the inner loop settles the rock where `Settle` does and adds its cells, reporting the last and next jets |
| Day17.DropNextRock | src/Day17.kt:126-157 | one pass of the outer loop is exactly one more drop of the simulation |
| Day17.Play | src/Day17.kt:117-167 | `play` drops rocks until `maxRocks` have fallen or the first cycle shows, and reports `calculateTowerSize` on that state; it is undefined for no jets or no rocks and defined otherwise |
| Day17.PlayOutcome | src/Day17.kt:125-166 | when the drop loop stops at least one rock has fallen and the reported size is defined |
| Day17.ExtrapolateDefined | src/Day17.kt:101-111 | with numbered records and a cycle among them every lookup of the cycle branch succeeds |
| Day17.PlayWithoutCycle | src/Day17.kt:113-115 | without a cycle `play` reports the height recorded after the last rock |
| Day17.RecordedSize | src/Day17.kt:114 | the top row plus one is the height in the last record |
| Day17.FreeInEmpty | src/Day17.kt:136-148 | in the empty chamber a rock fits wherever its box lies between the walls and on or above the floor |
| Day17.FirstSampleRock | src/Day17.kt:129-162 | with the sample jets the first rock, a horizontal line, rests at (2, 0) after four jets |
| Day17.FirstSampleMoves | src/Day17.kt:131-159 | its four moves: the first jet (right) moves it to (3, 3) and it falls to (3, 2); the second and third jets (right) are refused by the right wall and it falls each time; the fourth jet (left) moves it to (2, 0), where it cannot fall and rests |

## Left out

- Reading the input file (`readInput`), printing the answers (`println`) and the `check` calls against the sample files are I/O and are not modelled; parsing text into the solvers' records is left out except for Day 1's blank-line groups, Day 5's stack drawing and moves, and Day 11's operations.
- Integers are unbounded: `Int` and `Long` overflow is not modelled, except for the `Int.MAX_VALUE` sentinels of Day 12 and Day 16, which are modelled explicitly.
- Day03.IsUpperCase: only the ASCII letters are modelled. Kotlin's `isUpperCase()` also recognises non-ASCII capitals, so the priority of a non-ASCII item is not modelled.
- Day03: the sample results 157 and 70 are not restated; the sample rucksacks are long strings, and unfolding `toSet` and `intersect` over them is too costly for the verifier.
- Day05.CrateStacks.ExecuteMovements: when a move fails, the source throws part-way through that move, possibly after removing some crates; the model reports the failure and promises nothing about the stacks then.
- Day06: of the sample results only the packet markers of the second and third datastreams (5 and 6) are restated; the 14-character message markers and the other datastreams need too many distinctness facts for the verifier.
- Day07: the sample results 95437 and 24933642 are not restated; replaying the 23-line transcript symbolically is beyond what the verifier unfolds cheaply.
- Day07: paths are sequences of segments; `java.nio.file.Paths` string handling (separators, normalisation) is not modelled, and the root's missing parent is an explicit failure where the source dereferences null.
- Day08: the sample's part one (21) and the fact that 8 is the sample's highest score are not restated; only the score of the tree that attains it is, because checking all 25 trees symbolically is too costly.
- Day08.Part1: requires a rectangular grid (at least one row, every row as long as the first). The source throws at `grid[0]` on an empty grid, which the model excludes instead of returning a failure; on a ragged grid the source indexes each row by its own width and a ray can run past a shorter row, which the model does not follow.
- Day08.Part2: accepts the empty grid (the result is 0, as in the source) but otherwise requires a rectangular grid; ragged grids, where a ray of the source can index past a shorter row, are not modelled.
- Day09: the sample results 13, 1 and 36 are not restated; unrolling the sample's dozens of steps over ten knots is too costly for the verifier.
- Day10: the sample results (13140 and the six-line picture) are not restated; the sample program has 146 instructions, beyond what the verifier unfolds cheaply. A three-instruction program is checked instead.
- Day10: `crtToString` only joins the rows for the comparison and is not modelled.
- Day11: the sample results 10605 and 2713310158 are not restated; 20 and 10000 rounds over the sample are far beyond what the verifier unfolds.
- Day11.Play: requires WellFormed (every divisor positive, every throw target an existing monkey other than the thrower), and so do `Turn`, `Round`, `TakeTurn` and `PlayRound`. The model does not follow the source's failures outside it: a divisor of 0 makes `it % value` and `% lcmDividends` throw, a target outside the list makes `monkeys[monkeyToThrowTo]` throw, and a monkey throwing to itself adds to the list it is iterating over. Each of these fails only once an item reaches it, so the model excludes such monkeys instead of returning `None`.
- Day11: `floor(op(item) / 3.0)` is modelled as integer division of a non-negative value by 3; `Long` overflow is not modelled (worry levels are unbounded), so part one's unreduced worry levels never wrap.
- Day11: monkeys are taken as parsed records (the regular expressions and the position given to `monkeys.add(monkeyNumber, ...)` are not modelled); the monkey at position `i` is monkey `i`.
- Day12: the sample results 31 and 29 are not restated; the visited set and the queue are value-typed sets and sequences rather than shared mutable collections passed by reference.
- Day12: the grid is required rectangular, which the puzzle input is; `Integer.MAX_VALUE` is modelled as a separate `Infinite` distance rather than a large integer.
- Day13: packets are taken as parsed values (the Klaxon JSON parsing and the blank-line filter are not modelled); part one takes the packets already paired, so the odd trailing packet on which `pair[1]` fails is not modelled.
- Day13: the sample results 13 and 140 and the recorded answers 6101 and 21909 are not restated.
- Day13.Part2: requires every two packets to get a verdict; the source throws at `resultsMap[0]!!` when it compares two packets that get none (equal packets), and the model does not follow that failure.
- Day14: the rock paths are taken as parsed segments (`LINE_REGEX` is not modelled); the sample results 24 and 93 and the recorded answers 665 and 25434 are not restated; `Item.toString` (drawing) is not modelled.
- Day14: `minimumX` is computed by the source but never used, so the model has no counterpart for it.
- Day15: the sensors are taken as parsed records (`LINE_REGEX` is not modelled); the sample results 26 and 56000011 and the recorded answers are not restated; `Int` and `Long` widths are not modelled (all arithmetic is unbounded).
- Day15: the `Set<Range>` returned by `combineRanges` is modelled as a sequence in insertion order (Kotlin's `mutableSetOf` is a `LinkedHashSet`), and `sortedBy` as a stable insertion sort on start.
- Day16: the valves are taken as parsed records (`LINE_REGEX`, `split` and `associateBy` are not modelled); the valve list is the map's values in input order, which is the iteration order of the `LinkedHashMap` that `associateBy` builds; names are required distinct and tunnels required to name existing valves.
- Day16.Play: requires a valve named "AA" among the valves; the source throws at `valvesMap[ORIGIN_VALVE_NAME]!!` when there is none, and the model does not follow that failure.
- Day16: the results map is keyed by the set of open valves instead of the `Long` bitmap; the bitmap lemmas show the two carry the same information for at most 64 useful valves. `1L shl i` for 64 or more useful valves (where Kotlin wraps the shift) is not modelled.
- Day16: the sample results 1651 and 1707 and the recorded answers 1845 and 2286 are not restated; `Int` overflow of the released pressure is not modelled.
- Day16.MaxPressureSearch.CalculateMaxPressures: uses the corrected time check, which refuses unreachable valves (see Findings); the source's wrapped check is modelled separately in `TakesValveAsWritten`.
- Day16: `disjointPaths` is a lazy `sequence`; the model gives the set of pairs it yields.
- Day17: the jets are taken as parsed (`parseMovements` maps '<' to left and anything else to right; the model receives the movements); the tower is a set of cells instead of a map whose values are all `true`.
- Day17: the sample results 3068 and 1514285714288 and the recorded answers are not restated: 2022 rocks are far beyond what the verifier unfolds; only the sample's first rock is worked through (FirstSampleRock).
- Day17.Play: states the outcome against the simulation and `calculateTowerSize`; whether a cycle found by rock type and jet alone makes the extrapolation exact is proved only under the hypothesis that the heights repeat (ExtrapolationExact), which the source assumes without checking.

## Findings

| source | as written | input that shows it | evidently intended | confidence | as-written member | corrected member |
|---|---|---|---|---|---|---|
| src/Day06.kt:9 | the loop runs `i` over `0 until line.length - markerLength`, so the last window is never checked | line "abcd", marker length 4: returns -1 | every window, up to `i == line.length - markerLength`, is checked, so "abcd" gives 4 | not executed | Day06.MissedLastWindow | Day06.PlayMeaning |
| src/Day08.kt:38 | part one starts from `2·rows + 2·cols − 4` edge trees, which counts wrongly when the grid has one row or one column | the grid `[[5]]`: part one gives 0 | every tree on the edge counted once, so the one-tree grid gives 1 | not executed | Day08.SingleTreeMiscounted | Day08.Part1 |
| src/Day15.kt:84-88 | part one subtracts the number of merged ranges that hold some sensor or beacon, not the number of such columns | sensors at (0, 1) and (4, 1) with beacons at (2, 0) and (5, 0), row 0: one merged range holds two beacons, so the count is one too high | subtract each column of the row holding a sensor or a beacon once | not executed | Day15.Part1CountsRanges | Day15.Part1Fixed |
| src/Day15.kt:69-98 | clamping a range to `0..maxPos` can leave an empty range that splits the row, and part two then reports a position outside the square | sensors at (-10, 0) with beacon (-10, 1) and at (0, 0) with beacon (0, 5), `maxPos` 1: the whole square is seen, yet column -8 is reported | the first position of the square seen by no sensor, or none | not executed | Day15.Part2ReportsOutside | Day15.Part2Fixed |
| src/Day16.kt:64-66 | `1 + distances[..][..]` wraps when the distance is the `Int.MAX_VALUE` sentinel, so an unreachable valve passes the time check | a valve unreachable from the current one, with 30 minutes left | unreachable valves are never opened | not executed | Day16.UnreachableValveTaken | Day16.MaxPressureSearch.CalculateMaxPressures |
