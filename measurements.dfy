/** What each solver run reports, shared by both solvers and the benchmark. */
module Measurements {

  /** What a solver run reports (`moves`) and how much work it did for it (calls or loop passes). */
  datatype Measurement = Measurement(moves: nat, work: nat)
}
