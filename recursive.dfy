/**
  The recursive solver. `hanoi(n, source, destination, auxiliary)` moves no
  disks: it only makes the calls of the classic divide-and-conquer solution,
  and the benchmark times those calls. Each call stands for one move (the
  move of its largest disk from `source` to `destination`); `Solution` lists
  those moves in order and is the reference the iterative solver is proved
  against.
 */
module RecursiveSolver {
  import opened Wrappers
  import opened Disks
  import opened Measurements

  /** The number of calls `hanoi(n, source, destination, auxiliary)` makes, itself included. */
  function HanoiCalls(n: nat, source: Peg, destination: Peg, auxiliary: Peg): (calls: nat)
    requires n >= 1
    ensures calls == Pow2(n) - 1
    decreases n
  {
    if n == 1 then 1
    else 1 + HanoiCalls(n - 1, source, auxiliary, destination)
           + HanoiCalls(n - 1, auxiliary, destination, source)
  }

  /** `measureRecursive(n)` without its clock: the moves it reports and the calls it times. */
  function MeasureRecursive(n: nat): (r: Measurement)
    requires n >= 1
    ensures r.moves == r.work
    ensures r.work == HanoiCalls(n, A, C, B)
  {
    Measurement(Pow2(n) - 1, HanoiCalls(n, A, C, B))
  }

  /** The moves a tower of n disks makes going from s to d by way of x. */
  function Solution(n: nat, s: Peg, d: Peg, x: Peg): (ms: seq<Move>)
    ensures |ms| == Pow2(n) - 1
  {
    if n == 0 then []
    else Solution(n - 1, s, x, d) + [Move(s, d)] + Solution(n - 1, x, d, s)
  }

  /** Every call of `hanoi` stands for exactly one move of the solution. */
  lemma {:induction false} SolutionFollowsCalls(n: nat, s: Peg, d: Peg, x: Peg)
    requires n >= 1
    ensures |Solution(n, s, d, x)| == HanoiCalls(n, s, d, x)
    ensures n > 1 ==> Solution(n, s, d, x)[HanoiCalls(n - 1, s, x, d)] == Move(s, d)
  {
  }

  /**
    The solution is legal and does what it promises: with a tower of n disks on
    top of peg s and only larger disks anywhere else, it carries the tower
    onto peg d and leaves everything else in place.
   */
  lemma {:induction false} SolutionSolves(n: nat, s: Peg, d: Peg, x: Peg, S: seq<int>, D: seq<int>, X: seq<int>)
    requires Distinct(s, d, x)
    requires Above(S, n) && Above(D, n) && Above(X, n)
    ensures Exec(Place(s, d, x, S + Tower(n), D, X), Solution(n, s, d, x)) == Some(Place(s, d, x, S, D + Tower(n), X))
    decreases n, 1
  {
    if n == 0 {
      assert S + Tower(0) == S && D + Tower(0) == D;
    } else {
      var st := Place(s, d, x, S + Tower(n), D, X);
      var first, m, rest := Solution(n - 1, s, x, d), Move(s, d), Solution(n - 1, x, d, s);
      // the n - 1 smaller disks go from s to x, disk n from s to d, the n - 1 from x to d
      FirstHalfSolves(n, s, d, x, S, D, X);
      MoveLargest(n, s, d, x, S, D, X + Tower(n - 1));
      SecondHalfSolves(n, s, d, x, S, D, X);
      ExecThree(st, first, [m], rest);
      assert Solution(n, s, d, x) == first + [m] + rest;
    }
  }

  /** The first recursive half carries the n - 1 smaller disks from s to x. */
  lemma {:induction false} FirstHalfSolves(n: nat, s: Peg, d: Peg, x: Peg, S: seq<int>, D: seq<int>, X: seq<int>)
    requires Distinct(s, d, x) && n >= 1
    requires Above(S, n) && Above(D, n) && Above(X, n)
    ensures Exec(Place(s, d, x, S + Tower(n), D, X), Solution(n - 1, s, x, d))
         == Some(Place(s, d, x, S + [n], D, X + Tower(n - 1)))
    decreases n, 0
  {
    var st := Place(s, d, x, S + Tower(n), D, X);
    var st' := Place(s, x, d, (S + [n]) + Tower(n - 1), X, D);
    var end := Place(s, x, d, S + [n], X + Tower(n - 1), D);
    SplitTower(n, s, d, x, S, D, X);
    assert Exec(st', Solution(n - 1, s, x, d)) == Some(end) by {
      SolutionSolves(n - 1, s, x, d, S + [n], X, D);
    }
  }

  /** The second recursive half carries the n - 1 smaller disks from x onto disk n on d. */
  lemma {:induction false} SecondHalfSolves(n: nat, s: Peg, d: Peg, x: Peg, S: seq<int>, D: seq<int>, X: seq<int>)
    requires Distinct(s, d, x) && n >= 1
    requires Above(S, n) && Above(D, n) && Above(X, n)
    ensures Exec(Place(s, d, x, S, D + [n], X + Tower(n - 1)), Solution(n - 1, x, d, s))
         == Some(Place(s, d, x, S, D + Tower(n), X))
    decreases n, 0
  {
    var st := Place(s, d, x, S, D + [n], X + Tower(n - 1));
    var st' := Place(x, d, s, X + Tower(n - 1), D + [n], S);
    var end := Place(x, d, s, X, (D + [n]) + Tower(n - 1), S);
    assert st == st' by {
      PlaceSwap(s, d, x, S, D + [n], X + Tower(n - 1));
    }
    assert end == Place(s, d, x, S, D + Tower(n), X) by {
      assert (D + [n]) + Tower(n - 1) == D + Tower(n) by {
        assert Tower(n) == [n] + Tower(n - 1);
      }
      PlaceSwap(s, d, x, S, D + Tower(n), X);
    }
    assert Exec(st', Solution(n - 1, x, d, s)) == Some(end) by {
      assert Above(D + [n], n - 1);
      SolutionSolves(n - 1, x, d, s, X, D + [n], S);
    }
  }

  /** Seen from peg x, a tower of n disks on s is disk n under a tower of n - 1 disks. */
  lemma SplitTower(n: nat, s: Peg, d: Peg, x: Peg, S: seq<int>, D: seq<int>, X: seq<int>)
    requires Distinct(s, d, x) && n >= 1 && Above(S, n)
    ensures Place(s, d, x, S + Tower(n), D, X) == Place(s, x, d, (S + [n]) + Tower(n - 1), X, D)
    ensures Place(s, x, d, S + [n], X + Tower(n - 1), D) == Place(s, d, x, S + [n], D, X + Tower(n - 1))
    ensures Above(S + [n], n - 1)
  {
    assert S + Tower(n) == (S + [n]) + Tower(n - 1) by {
      assert Tower(n) == [n] + Tower(n - 1);
    }
    PlaceSwap(s, d, x, S + Tower(n), D, X);
    PlaceSwap(s, d, x, S + [n], D, X + Tower(n - 1));
  }

  /** Disk n moves from the top of s onto d, whose disks are all larger. */
  lemma MoveLargest(n: nat, s: Peg, d: Peg, x: Peg, S: seq<int>, D: seq<int>, X: seq<int>)
    requires Distinct(s, d, x) && Above(D, n)
    ensures Exec(Place(s, d, x, S + [n], D, X), [Move(s, d)]) == Some(Place(s, d, x, S, D + [n], X))
  {
    var st := Place(s, d, x, S + [n], D, X);
    var m := Move(s, d);
    assert D != [] ==> Top(D) > n;
    assert Legal(st, m);
    assert Below(S + [n]) == S;
    var r := Transfer(st, m);
    SamePegs(r, Place(s, d, x, S, D + [n], X));
    assert [m][..0] == [];
  }

  /** Powers of two alternate between 1 and 2 modulo 3. */
  lemma {:induction false} Pow2Mod3(n: nat)
    ensures Pow2(n) % 3 == if n % 2 == 0 then 1 else 2
  {
    if n > 0 {
      Pow2Mod3(n - 1);
      var p := Pow2(n - 1);
      var q := p / 3;
      assert p == 3 * q + p % 3;
      if p % 3 == 1 {
        assert Pow2(n) == 3 * (2 * q) + 2;
      } else {
        assert Pow2(n) == 3 * (2 * q + 1) + 1;
      }
    }
  }

  /**
    The pair of pegs that move number k uses, by k % 3, when a tower of odd
    height goes from s to d by way of x: 1 gives s and d, 2 gives s and x,
    0 gives x and d.
   */
  function Cycle(r: nat, s: Peg, d: Peg, x: Peg): (Peg, Peg)
    requires r < 3
  {
    if r == 1 then (s, d) else if r == 2 then (s, x) else (x, d)
  }

  /** The same for a tower of any height: one of even height swaps the roles of d and x. */
  function Pattern(n: nat, s: Peg, d: Peg, x: Peg, r: nat): (Peg, Peg)
    requires r < 3
  {
    if n % 2 == 1 then Cycle(r, s, d, x) else Cycle(r, s, x, d)
  }

  /** Move m goes between the two pegs of `pair`, in one direction or the other. */
  predicate Between(m: Move, pair: (Peg, Peg)) {
    (m.from == pair.0 && m.to == pair.1) || (m.from == pair.1 && m.to == pair.0)
  }

  /**
    Move number k + 1 of the solution goes between the pair of pegs that
    (k + 1) % 3 designates: the solution cycles through three peg pairs.
   */
  lemma {:induction false} SolutionPattern(n: nat, s: Peg, d: Peg, x: Peg, k: nat)
    requires Distinct(s, d, x)
    requires k < Pow2(n) - 1
    ensures Between(Solution(n, s, d, x)[k], Pattern(n, s, d, x, (k + 1) % 3))
  {
    var first, rest := Solution(n - 1, s, x, d), Solution(n - 1, x, d, s);
    var len := Pow2(n - 1) - 1;
    var sol := Solution(n, s, d, x);
    assert sol == first + [Move(s, d)] + rest;
    if k < len {
      assert sol[k] == first[k];
      SolutionPattern(n - 1, s, x, d, k);
      FirstHalfPattern(n, s, d, x, (k + 1) % 3);
    } else if k == len {
      assert sol[k] == Move(s, d);
      MiddlePattern(n, s, d, x);
    } else {
      var j := k - len - 1;
      assert sol[k] == rest[j];
      SolutionPattern(n - 1, x, d, s, j);
      SecondHalfPattern(n, s, d, x, sol[k], j + 1);
    }
  }

  /** The first half of the solution uses the pattern of a tower one disk shorter. */
  lemma FirstHalfPattern(n: nat, s: Peg, d: Peg, x: Peg, r: nat)
    requires n >= 1 && r < 3
    ensures Pattern(n - 1, s, x, d, r) == Pattern(n, s, d, x, r)
  {
  }

  /** The middle move, number 2^(n-1), goes between s and d. */
  lemma MiddlePattern(n: nat, s: Peg, d: Peg, x: Peg)
    requires n >= 1
    ensures Between(Move(s, d), Pattern(n, s, d, x, Pow2(n - 1) % 3))
  {
    Pow2Mod3(n - 1);
  }

  /** Move number i of the second half is move number 2^(n-1) + i of the whole. */
  lemma SecondHalfPattern(n: nat, s: Peg, d: Peg, x: Peg, m: Move, i: nat)
    requires n >= 1
    requires Between(m, Pattern(n - 1, x, d, s, i % 3))
    ensures Between(m, Pattern(n, s, d, x, (Pow2(n - 1) + i) % 3))
  {
    Pow2Mod3(n - 1);
    ModAdd3(Pow2(n - 1), i);
  }

  lemma ModAdd3(a: nat, b: nat)
    ensures (a + b) % 3 == (a % 3 + b % 3) % 3
  {
  }
}
