# Tower of Hanoi benchmark, modelled in Dafny

The benchmark takes a disk count n, checks that it lies in 1..35, runs two
solvers of the three-peg puzzle, and reports the move total 2^n - 1 with
the time each solver took and which one was faster.

- The **recursive solver** (`hanoi`) makes the 2^n - 1 calls of the classic
  divide-and-conquer procedure. It moves no disks; the benchmark only times
  the calls.
- The **iterative solver** keeps three stacks, A holding n..1 at the start.
  On pass i it picks a pair of pegs by i % 3: 1 gives (A, C), 2 gives (A, B)
  and 0 gives (B, C). It moves one disk between them by the legal-move rule,
  and stops once 2^n - 1 moves are made.

The model is split into six modules:

- `Wrappers` holds `Option`, and `Measurements` the `Measurement` record both solvers report.
- `Disks` holds the puzzle state: pegs, stacks as sequences with the top
  last, legal moves, runs of moves, and the invariant `Valid`. `Valid`
  says every stack strictly decreases and the pegs together hold exactly
  the disks 1..n.
- `RecursiveSolver` holds the call count of `hanoi`. It also holds
  `Solution`, the move list the calls stand for, with its correctness and
  its cycle of peg pairs.
- `IterativeSolver` holds the pass rule, the `Stacks` class with its
  pop/push methods, and the loop `MeasureIterative`.
- `Benchmark` holds the input guard, the choice of the faster solver, and
  `Analyze`.

The loop is proved against the recursive solution:

- After k passes the stacks are exactly where the first k moves of
  `Solution(n, A, Target(n), Spare(n))` put them.
- Every pass makes a legal move.
- No pass meets two empty pegs.
- After 2^n - 1 passes the whole tower stands in order on `Target(n)`.

The pair order is fixed, so the iterative run sends a tower of odd height
to C and one of even height to B. The recursive solver is always called
with destination C. The model follows the code: `Target`, `Solved` and
`PassesEnd` state where the disks really end.

## Model

| member | source | states |
|---|---|---|
| Disks.TowerAt | script.js:67 | position i of the initial array of n disks holds the disk of size n - i |
| Disks.TowerDecreasing | script.js:66-70 | the initial tower strictly decreases from bottom to top and holds only positive sizes |
| Disks.Transfer | script.js:92-96 | a pop from one stack followed by a push on another: the source loses its top disk, the target gains exactly it on top, the third stack is unchanged |
| Disks.TransferPreservesValid | script.js:90-97 | a legal move (onto an empty peg or a larger disk) out of a valid state keeps every stack decreasing and the set of disks 1..n |
| Disks.ExecKeepsValid | script.js:75-100 | a run of legal moves from a valid state ends in a valid state |
| Disks.ValidDiskCount | script.js:66-70 | in a valid state the three stacks hold n disks in all |
| RecursiveSolver.HanoiCalls | script.js:46-54 | `hanoi(n, ...)` for n >= 1 makes exactly 2^n - 1 calls, itself included |
| RecursiveSolver.MeasureRecursive | script.js:43-61 | the reported moves, 2^n - 1, equal the number of calls `hanoi(n, 'A', 'C', 'B')` makes |
| RecursiveSolver.Solution | script.js:46-54 | the move list of the procedure has 2^n - 1 moves |
| RecursiveSolver.SolutionFollowsCalls | script.js:46-54 | one move per call: the list is exactly as long as the call count, and its middle move carries the largest disk from source to destination |
| RecursiveSolver.SolutionSolves | script.js:46-54 | the procedure is legal and correct: from a tower of n disks on the source, with only larger disks elsewhere, it ends with the tower on the destination and every other disk in place |
| RecursiveSolver.SolutionPattern | script.js:76-88 | move k + 1 of the solution goes between the pair of pegs that (k + 1) % 3 designates, the pair order depending on the parity of n |
| IterativeSolver.InitialState | script.js:66-70 | A holds n, n-1, ..., 1 from bottom to top, B and C are empty, and the state is valid |
| IterativeSolver.PlanSolves | script.js:72-100 | the solution the loop follows carries the whole tower from A to C (odd n) or B (even n) |
| IterativeSolver.PairFor | script.js:76-88 | the pair of pass i by i % 3: 1 gives (A, C), 2 gives (A, B), 0 gives (B, C); the two pegs always differ, the source is never C and the destination never A |
| IterativeSolver.Passes | script.js:75-100 | the stacks after k passes of the loop, None once a pass meets two empty pegs; every defined state holds n disks in all |
| IterativeSolver.PairForIsPattern | script.js:76-88 | the loop's fixed (A, C), (A, B), (B, C) order by i % 3 is the solution's cycle of peg pairs for every n |
| IterativeSolver.Direction | script.js:91-97 | the legal-move rule always moves between the two chosen pegs, in one direction or the other |
| IterativeSolver.Step | script.js:91-97 | one pass moves exactly one disk, top of one chosen peg onto the other, and leaves the third peg alone |
| IterativeSolver.StepKeepsValid | script.js:90-97 | in a valid state with a disk on one of the two pegs, the rule's move is legal and the state stays valid |
| IterativeSolver.DirectionIsLegalMove | script.js:91-97 | between two pegs at most one direction is legal, and the rule picks it |
| IterativeSolver.NextPass | script.js:75-99 | pass k makes move k of the recursive solution, and its two pegs are not both empty |
| IterativeSolver.PassesFollowPlan | script.js:75-100 | the first k passes give the state of the first k moves of the recursive solution |
| IterativeSolver.NeverBothEmpty | script.js:91-97 | no pass of the loop meets two empty pegs, so the case where an empty source would push `undefined` never arises |
| IterativeSolver.PassAdvance | script.js:75-99 | each pass of the loop starts from a defined state and takes exactly one step |
| IterativeSolver.PassesValid | script.js:75-100 | after every pass each stack strictly decreases, the disks 1..n are all present, and there are n of them |
| IterativeSolver.PassesEnd | script.js:72-100 | after 2^n - 1 passes every disk is on C (odd n) or B (even n), largest at the bottom |
| IterativeSolver.Stacks.constructor | script.js:66-70 | the stacks start as A = n..1, B and C empty |
| IterativeSolver.Stacks.Pop | script.js:92-96 | `pop()` on a nonempty stack returns its top disk and removes it, leaving the other stacks unchanged |
| IterativeSolver.Stacks.Push | script.js:92-96 | `push(disk)` puts the disk on top of one stack, leaving the other stacks unchanged |
| IterativeSolver.Stacks.MoveBetween | script.js:91-97 | the branch on the two tops performs the rule: the new stacks are exactly one `Step` from the old |
| IterativeSolver.Stacks.Pass | script.js:76-98 | the loop body for pass i takes the stacks from the state after i - 1 passes to the state after i passes |
| IterativeSolver.MeasureIterative | script.js:63-107 | reports 2^n - 1 moves, makes exactly that many passes, ends in the state 2^n - 1 passes give, and that state has the whole tower on C (odd n) or B (even n) |
| Benchmark.Rejects | script.js:11 | the input is rejected exactly when it is not a number or lies outside 1..35 |
| Benchmark.Faster | script.js:135-136 | Iterative is named faster only when its time is strictly smaller; a tie goes to Recursive |
| Benchmark.Analyze | script.js:1-41 | a rejected input gives no report; otherwise both solvers run on n, both report 2^n - 1 moves and do that much work, and the faster name follows the two times |

## Left out

- The page: reading the input field, the error box, the loading indicator, the results section, and the `setTimeout` (script.js:2-8, 12-22, 32-40). `Analyze` returns a report instead of writing the page.
- `displayResults` (script.js:109-143), apart from the faster-name choice. Number and time formatting, `timeDiff` and `speedRatio` are floating-point presentation. `speedRatio` also divides by zero when one time is 0.
- The key-press and page-load listeners (script.js:145-155): they only call `analyzeAlgorithm`.
- The clock `performance.now()` (script.js:44, 56, 64, 102). The two elapsed times are parameters of `Analyze`, and `Measurement` carries no time.
- The `catch` branch (script.js:33-35). The modelled solvers never fail, and exhausting the JavaScript call stack is not modelled.
- `Math.pow(2, n) - 1` and `moveCount` are JavaScript doubles. They are modelled as exact integers (`Pow2(n) - 1`); for n <= 35 every value involved is below 2^53, so the doubles are exact too.
- `parseInt` is modelled by its outcome only: `Option<int>`, with None for NaN. How it parses text (leading digits, signs, a fractional part) is not modelled.
- RecursiveSolver.HanoiCalls: requires n >= 1; `hanoi(0)` never reaches its base case, since n goes negative, and ends by exhausting the call stack. The guard at script.js:11 keeps 0 from reaching it.
- IterativeSolver.Passes: None stands for a pass meeting two empty pegs, where JavaScript would pop `undefined` and push it. The model does not represent that state; NeverBothEmpty proves it is never reached.
- IterativeSolver.MeasureIterative: also returns the final stacks, which JavaScript drops, so that the end state can be stated. The JavaScript result's `time` field is not modelled.
- The stacks are sequences held in fields of the `Stacks` class and reassigned on each pop and push. The model does not capture JavaScript array aliasing, which cannot arise here.
