/**
  The iterative solver: three explicit stacks and a loop that, on pass i,
  picks a pair of pegs by i % 3 and moves one disk between them by the
  legal-move rule, until 2^n - 1 moves have been made.

  The loop is proved against the recursive solution: after k passes the
  stacks are exactly where the first k moves of `Solution` put them. From
  that follow the safety invariant, that the loop never meets two empty
  pegs, and where the disks end up.
 */
module IterativeSolver {
  import opened Wrappers
  import opened Disks
  import opened RecursiveSolver
  import opened Measurements

  /** The stacks the solver starts from: all n disks on A, largest at the bottom. */
  function Initial(n: nat): Pegs {
    Pegs(Tower(n), [], [])
  }

  /** A holds n, n-1, ..., 1 from bottom to top, B and C are empty, and the puzzle's invariant holds. */
  lemma {:induction false} InitialState(n: nat)
    ensures |Initial(n).a| == n && Initial(n).b == [] && Initial(n).c == []
    ensures forall i :: 0 <= i < n ==> Initial(n).a[i] == n - i
    ensures Valid(n, Initial(n))
  {
    forall i | 0 <= i < n ensures Initial(n).a[i] == n - i {
      TowerAt(n, i);
    }
    TowerDecreasing(n);
  }

  /** The peg the tower ends on: C when n is odd, B when n is even. */
  function Target(n: nat): Peg {
    if n % 2 == 1 then C else B
  }

  /** The third peg, neither A nor Target(n). */
  function Spare(n: nat): Peg {
    if n % 2 == 1 then B else C
  }

  /** The state the solver finishes in. */
  function Solved(n: nat): Pegs {
    if n % 2 == 1 then Pegs([], [], Tower(n)) else Pegs([], Tower(n), [])
  }

  /** The recursive solution the loop follows: the tower goes from A to Target(n). */
  function Plan(n: nat): seq<Move> {
    Solution(n, A, Target(n), Spare(n))
  }

  /** The recursive solution carries the whole tower from the initial stacks to Target(n). */
  lemma PlanSolves(n: nat)
    ensures Exec(Initial(n), Plan(n)) == Some(Solved(n))
  {
    assert Distinct(A, Target(n), Spare(n));
    SamePegs(Initial(n), Place(A, Target(n), Spare(n), [] + Tower(n), [], []));
    SamePegs(Solved(n), Place(A, Target(n), Spare(n), [], [] + Tower(n), []));
    SolutionSolves(n, A, Target(n), Spare(n), [], [], []);
  }

  /** The (source, destination) pair of pass i: i % 3 of 1 gives (A, C), 2 gives (A, B), 0 gives (B, C). */
  function PairFor(i: nat): (pair: (Peg, Peg))
    ensures pair.0 != pair.1
    ensures pair.0 != C && pair.1 != A
  {
    var modulo := i % 3;
    if modulo == 1 then (A, C)
    else if modulo == 2 then (A, B)
    else (B, C)
  }

  /**
    The fixed pair order is the recursive solution's own cycle of peg pairs,
    for every n: odd n sends the tower to C, even n to B.
   */
  lemma PairForIsPattern(n: nat, i: nat)
    ensures PairFor(i) == Pattern(n, A, Target(n), Spare(n), i % 3)
  {
  }

  /**
    The legal-move rule: the disk goes from source to destination when
    destination is empty or the top of source is smaller than the top of
    destination, and the other way otherwise. An empty source compares as not
    smaller, so the disk then comes from destination.
   */
  function Direction(st: Pegs, source: Peg, destination: Peg): (m: Move)
    requires source != destination
    ensures Between(m, (source, destination))
  {
    var s, d := Get(st, source), Get(st, destination);
    if d == [] || (s != [] && Top(s) < Top(d)) then Move(source, destination)
    else Move(destination, source)
  }

  /**
    One pass of the loop body: exactly one disk goes from one of the two pegs
    to the other, and the third peg is left alone. Two empty pegs would make
    the source pop nothing and push `undefined`; the loop never meets them
    (NeverBothEmpty), so the step requires one of the two to hold a disk.
   */
  function Step(st: Pegs, source: Peg, destination: Peg): (r: Pegs)
    requires source != destination
    requires Get(st, source) != [] || Get(st, destination) != []
    ensures forall p :: p != source && p != destination ==> Get(r, p) == Get(st, p)
    ensures || (&& Get(st, source) != []
                && Get(r, source) == Below(Get(st, source))
                && Get(r, destination) == Get(st, destination) + [Top(Get(st, source))])
            || (&& Get(st, destination) != []
                && Get(r, destination) == Below(Get(st, destination))
                && Get(r, source) == Get(st, source) + [Top(Get(st, destination))])
  {
    Transfer(st, Direction(st, source, destination))
  }

  /** No disk of a tower appears twice in it. */
  lemma {:induction false} TowerOnce(n: nat, v: int)
    ensures multiset(Tower(n))[v] <= 1
  {
    if n > 0 {
      TowerOnce(n - 1, v);
      assert Tower(n) == [n] + Tower(n - 1);
      if v == n {
        var smaller := Tower(n - 1);
        forall i | 0 <= i < |smaller| ensures smaller[i] != n {
          TowerAt(n - 1, i);
        }
        assert v !in smaller;
      }
    }
  }

  /** In a valid state two different pegs never show the same top disk. */
  lemma DistinctTops(n: nat, st: Pegs, p: Peg, q: Peg)
    requires Valid(n, st) && p != q && Get(st, p) != [] && Get(st, q) != []
    ensures Top(Get(st, p)) != Top(Get(st, q))
  {
    var v := Top(Get(st, p));
    if v == Top(Get(st, q)) {
      DisksOfPegs(st);
      assert multiset(Get(st, p))[v] >= 1 && multiset(Get(st, q))[v] >= 1;
      assert AllDisks(st)[v] >= 2;
      TowerOnce(n, v);
      assert false;
    }
  }

  /** In a valid state the legal-move rule never puts a larger disk on a smaller one, so the pass keeps the state valid. */
  lemma StepKeepsValid(n: nat, st: Pegs, source: Peg, destination: Peg)
    requires Valid(n, st) && source != destination
    requires Get(st, source) != [] || Get(st, destination) != []
    ensures Legal(st, Direction(st, source, destination))
    ensures Valid(n, Step(st, source, destination))
  {
    if Get(st, source) != [] && Get(st, destination) != [] {
      DistinctTops(n, st, source, destination);
    }
    TransferPreservesValid(n, st, Direction(st, source, destination));
  }

  /** Between two pegs at most one direction is legal, and the rule picks it. */
  lemma DirectionIsLegalMove(st: Pegs, source: Peg, destination: Peg, m: Move)
    requires source != destination && Legal(st, m) && Between(m, (source, destination))
    ensures Direction(st, source, destination) == m
  {
  }

  /**
    Pass k of the loop makes move k of the recursive solution: the two pegs it
    picks are not both empty, and the rule moves the disk the way the
    solution does.
   */
  lemma NextPass(n: nat, k: nat, t: Pegs)
    requires 1 <= k <= Pow2(n) - 1 && Exec(Initial(n), Plan(n)[..k - 1]) == Some(t)
    ensures Get(t, PairFor(k).0) != [] || Get(t, PairFor(k).1) != []
    ensures Exec(Initial(n), Plan(n)[..k]) == Some(Step(t, PairFor(k).0, PairFor(k).1))
  {
    var plan := Plan(n);
    PlanSolves(n);
    ExecPrefix(Initial(n), plan, k);
    ExecNext(Initial(n), plan, k - 1);
    assert Legal(t, plan[k - 1]);
    SolutionPattern(n, A, Target(n), Spare(n), k - 1);
    PairForIsPattern(n, k);
    DirectionIsLegalMove(t, PairFor(k).0, PairFor(k).1, plan[k - 1]);
  }

  /**
    The stacks after the first k passes of the loop, or None once a pass has
    met two empty pegs (there the source would pop nothing and push
    `undefined`, a state this model does not represent).
   */
  function Passes(n: nat, k: nat): (r: Option<Pegs>)
    ensures r.Some? ==> |r.value.a| + |r.value.b| + |r.value.c| == n
  {
    if k == 0 then Some(Initial(n))
    else
      match Passes(n, k - 1)
      case None => None
      case Some(t) =>
        var source, destination := PairFor(k).0, PairFor(k).1;
        if Get(t, source) == [] && Get(t, destination) == [] then None
        else Some(Step(t, source, destination))
  }

  /** The loop's first k passes make the first k moves of the recursive solution. */
  lemma {:induction false} PassesFollowPlan(n: nat, k: nat)
    requires k <= Pow2(n) - 1
    ensures Passes(n, k) == Exec(Initial(n), Plan(n)[..k])
  {
    if k == 0 {
      assert Plan(n)[..0] == [];
    } else {
      PassesFollowPlan(n, k - 1);
      PlanSolves(n);
      ExecPrefix(Initial(n), Plan(n), k - 1);
      NextPass(n, k, Exec(Initial(n), Plan(n)[..k - 1]).value);
    }
  }

  /** No pass of the loop meets two empty pegs: the case where the source would push `undefined` cannot occur. */
  lemma NeverBothEmpty(n: nat, k: nat)
    requires k < Pow2(n) - 1
    ensures Passes(n, k).Some?
    ensures Get(Passes(n, k).value, PairFor(k + 1).0) != [] || Get(Passes(n, k).value, PairFor(k + 1).1) != []
  {
    PlanSolves(n);
    PassesFollowPlan(n, k);
    ExecPrefix(Initial(n), Plan(n), k);
    PassesFollowPlan(n, k + 1);
    ExecPrefix(Initial(n), Plan(n), k + 1);
  }

  /** One more pass of the loop body: the pegs it picks are not both empty, and it takes one step. */
  lemma PassAdvance(n: nat, k: nat, t: Pegs)
    requires k < Pow2(n) - 1 && Passes(n, k) == Some(t)
    ensures Get(t, PairFor(k + 1).0) != [] || Get(t, PairFor(k + 1).1) != []
    ensures Passes(n, k + 1) == Some(Step(t, PairFor(k + 1).0, PairFor(k + 1).1))
  {
    NeverBothEmpty(n, k);
  }

  /** After every pass each stack is strictly decreasing and the pegs together hold the disks 1..n. */
  lemma PassesValid(n: nat, k: nat)
    requires k <= Pow2(n) - 1
    ensures Passes(n, k).Some?
    ensures Valid(n, Passes(n, k).value)
    ensures |Passes(n, k).value.a| + |Passes(n, k).value.b| + |Passes(n, k).value.c| == n
  {
    PlanSolves(n);
    PassesFollowPlan(n, k);
    ExecPrefix(Initial(n), Plan(n), k);
    InitialState(n);
    ExecKeepsValid(n, Initial(n), Plan(n)[..k]);
    ValidDiskCount(n, Passes(n, k).value);
  }

  /** After 2^n - 1 passes every disk is on Target(n), in order. */
  lemma PassesEnd(n: nat, k: nat, t: Pegs)
    requires k == Pow2(n) - 1 && Passes(n, k) == Some(t)
    ensures t == Solved(n)
  {
    var plan := Plan(n);
    assert plan[..k] == plan;
    PassesFollowPlan(n, k);
    PlanSolves(n);
  }

  /** The three arrays `stacks.A`, `stacks.B` and `stacks.C` the solver pops from and pushes to. */
  class Stacks {
    var a: seq<int>
    var b: seq<int>
    var c: seq<int>

    function State(): Pegs
      reads this
    {
      Pegs(a, b, c)
    }

    constructor (n: nat)
      ensures State() == Initial(n)
    {
      a := Tower(n);
      b := [];
      c := [];
    }

    /** `stacks[p].pop()` on a nonempty stack. */
    method Pop(p: Peg) returns (disk: int)
      requires Get(State(), p) != []
      modifies this
      ensures disk == Top(Get(old(State()), p))
      ensures State() == Put(old(State()), p, Below(Get(old(State()), p)))
    {
      match p
      case A =>
        disk := a[|a| - 1];
        a := a[..|a| - 1];
      case B =>
        disk := b[|b| - 1];
        b := b[..|b| - 1];
      case C =>
        disk := c[|c| - 1];
        c := c[..|c| - 1];
    }

    /** `stacks[p].push(disk)`. */
    method Push(p: Peg, disk: int)
      modifies this
      ensures State() == Put(old(State()), p, Get(old(State()), p) + [disk])
    {
      match p
      case A => a := a + [disk];
      case B => b := b + [disk];
      case C => c := c + [disk];
    }

    /**
      The loop body's rule between `source` and `destination`: the disk goes
      from source to destination when destination is empty or the top of
      source is smaller, and from destination to source otherwise.
     */
    method MoveBetween(source: Peg, destination: Peg)
      requires source != destination
      requires Get(State(), source) != [] || Get(State(), destination) != []
      modifies this
      ensures State() == Step(old(State()), source, destination)
    {
      ghost var before := State();
      var s, d := Get(State(), source), Get(State(), destination);
      if |d| == 0 || (|s| > 0 && s[|s| - 1] < d[|d| - 1]) {
        assert Direction(before, source, destination) == Move(source, destination);
        var disk := Pop(source);
        Push(destination, disk);
      } else {
        assert Direction(before, source, destination) == Move(destination, source);
        var disk := Pop(destination);
        Push(source, disk);
      }
      SamePegs(State(), Step(before, source, destination));
    }

    /**
      Pass number i = k + 1 of the loop body, with the pair of pegs that i
      picks: it takes the stacks from Passes(n, k) to Passes(n, k + 1).
     */
    method Pass(ghost n: nat, ghost k: nat, i: nat, source: Peg, destination: Peg)
      requires k < Pow2(n) - 1 && i == k + 1 && source == PairFor(i).0 && destination == PairFor(i).1
      requires Passes(n, k) == Some(State())
      modifies this
      ensures Passes(n, k + 1) == Some(State())
    {
      PassAdvance(n, k, State());
      MoveBetween(source, destination);
    }
  }

  /**
    `measureIterative(n)` without its clock: it reports 2^n - 1 moves, makes
    exactly that many passes, and leaves every disk on Target(n).
   */
  method MeasureIterative(n: nat) returns (r: Measurement, final: Pegs)
    ensures r.moves == Pow2(n) - 1
    ensures r.work == r.moves
    ensures Passes(n, Pow2(n) - 1) == Some(final)
    ensures final == Solved(n)
  {
    var stacks := new Stacks(n);
    var totalMoves := Pow2(n) - 1;
    var moveCount := 0;
    var i := 1;
    while moveCount < totalMoves
      invariant moveCount <= totalMoves
      invariant i == moveCount + 1
      invariant Passes(n, moveCount) == Some(stacks.State())
    {
      var source, destination := PairFor(i).0, PairFor(i).1;
      stacks.Pass(n, moveCount, i, source, destination);
      moveCount := moveCount + 1;
      i := i + 1;
    }
    final := stacks.State();
    r := Measurement(totalMoves, moveCount);
    PassesEnd(n, Pow2(n) - 1, final);
  }
}
