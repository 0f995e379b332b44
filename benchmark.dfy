/**
  The comparison around the two solvers: the guard on the disk count, one
  run of each solver, the reported total and the choice of the faster one.
  The clock is outside the model, so the two elapsed times come in as
  parameters.
 */
module Benchmark {
  import opened Wrappers
  import opened Disks
  import opened Measurements
  import opened RecursiveSolver
  import opened IterativeSolver

  /** The largest disk count the benchmark accepts. */
  const MAX_DISKS := 35

  /**
    The guard `!n || n < 1 || n > 35` on the parsed disk count, where None
    stands for the NaN that `parseInt` gives for text that is not a number.
    `!n` also holds for 0.
   */
  function Rejects(input: Option<int>): (rejected: bool)
    ensures !rejected <==> input.Some? && 1 <= input.value <= MAX_DISKS
  {
    input.None? || input.value == 0 || input.value < 1 || input.value > MAX_DISKS
  }

  datatype Algorithm = Recursive | Iterative

  /** The name shown as faster: Iterative only when its time is strictly smaller, so a tie goes to Recursive. */
  function Faster(recursiveTime: real, iterativeTime: real): (name: Algorithm)
    ensures name == Iterative ==> iterativeTime < recursiveTime
    ensures name == Recursive ==> recursiveTime <= iterativeTime
  {
    if iterativeTime < recursiveTime then Iterative else Recursive
  }

  /** What one analysis shows: the disk count, the total move count, both runs and the faster name. */
  datatype Report = Report(disks: nat, totalMoves: nat, recursive: Measurement, iterative: Measurement, faster: Algorithm)

  /**
    `analyzeAlgorithm` without the page: a rejected input gives no report;
    otherwise both solvers run on the same n, both report 2^n - 1 moves, both
    do that much work, and the faster name follows the two times.
   */
  method Analyze(input: Option<int>, recursiveTime: real, iterativeTime: real) returns (report: Option<Report>)
    ensures report.None? <==> Rejects(input)
    ensures report.Some? ==>
      && report.value.disks == input.value
      && report.value.totalMoves == Pow2(input.value) - 1
      && report.value.recursive.moves == report.value.totalMoves == report.value.iterative.moves
      && report.value.recursive.work == report.value.totalMoves == report.value.iterative.work
      && report.value.faster == Faster(recursiveTime, iterativeTime)
  {
    if Rejects(input) {
      return None;
    }
    var n: nat := input.value;
    var recursive := MeasureRecursive(n);
    var iterative, _ := MeasureIterative(n);
    var totalMoves := Pow2(n) - 1;
    report := Some(Report(n, totalMoves, recursive, iterative, Faster(recursiveTime, iterativeTime)));
  }
}
