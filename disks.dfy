/**
  The puzzle's state: three pegs, each a stack of disk sizes. A stack is a
  sequence whose first element is the bottom disk and whose last element is
  the top one, as with the arrays the benchmark pushes to and pops from.
 */
module Disks {
  import opened Wrappers

  /** The three pegs, labelled 'A', 'B' and 'C' by the benchmark. */
  datatype Peg = A | B | C

  /** Taking the top disk of `from` and putting it on `to`. */
  datatype Move = Move(from: Peg, to: Peg)

  /** The three stacks of disks. */
  datatype Pegs = Pegs(a: seq<int>, b: seq<int>, c: seq<int>)

  function Get(st: Pegs, p: Peg): seq<int> {
    match p
    case A => st.a
    case B => st.b
    case C => st.c
  }

  /** `st` with the stack on peg `p` replaced by `v`. */
  function Put(st: Pegs, p: Peg, v: seq<int>): (r: Pegs)
    ensures Get(r, p) == v
    ensures forall q :: q != p ==> Get(r, q) == Get(st, q)
  {
    match p
    case A => st.(a := v)
    case B => st.(b := v)
    case C => st.(c := v)
  }

  /** Two states that agree on every peg are the same state. */
  lemma SamePegs(st: Pegs, st': Pegs)
    requires Get(st, A) == Get(st', A) && Get(st, B) == Get(st', B) && Get(st, C) == Get(st', C)
    ensures st == st'
  {
  }

  function Top(s: seq<int>): int
    requires s != []
  {
    s[|s| - 1]
  }

  function Below(s: seq<int>): seq<int>
    requires s != []
  {
    s[..|s| - 1]
  }

  function Pow2(n: nat): (p: nat)
    ensures p >= 1
  {
    if n == 0 then 1 else 2 * Pow2(n - 1)
  }

  /** The disks n, n-1, ..., 1 stacked with the largest at the bottom. */
  function Tower(n: nat): (t: seq<int>)
    ensures |t| == n
  {
    if n == 0 then [] else [n] + Tower(n - 1)
  }

  /** Position i of a tower of n disks (0 at the bottom) holds the disk of size n - i. */
  lemma {:induction false} TowerAt(n: nat, i: nat)
    requires i < n
    ensures Tower(n)[i] == n - i
  {
    if i > 0 {
      TowerAt(n - 1, i - 1);
    }
  }

  /** Strictly decreasing from bottom to top: no disk rests on a smaller one. */
  predicate Decreasing(s: seq<int>) {
    forall i, j :: 0 <= i < j < |s| ==> s[i] > s[j]
  }

  /** Every disk of `s` is larger than `n`. */
  predicate Above(s: seq<int>, n: int) {
    forall i :: 0 <= i < |s| ==> s[i] > n
  }

  lemma {:induction false} TowerDecreasing(n: nat)
    ensures Decreasing(Tower(n))
    ensures Above(Tower(n), 0)
  {
    forall i, j | 0 <= i < j < n ensures Tower(n)[i] > Tower(n)[j] {
      TowerAt(n, i);
      TowerAt(n, j);
    }
    forall i | 0 <= i < n ensures Tower(n)[i] > 0 {
      TowerAt(n, i);
    }
  }

  /** The disks of all three pegs, counted with multiplicity. */
  function AllDisks(st: Pegs): multiset<int> {
    multiset(st.a) + multiset(st.b) + multiset(st.c)
  }

  /**
    The puzzle's invariant for n disks: every peg is strictly decreasing from
    bottom to top, and the pegs together hold exactly the disks 1..n.
   */
  predicate Valid(n: nat, st: Pegs) {
    && Decreasing(st.a) && Decreasing(st.b) && Decreasing(st.c)
    && AllDisks(st) == multiset(Tower(n))
  }

  /** A valid state holds n disks in all. */
  lemma ValidDiskCount(n: nat, st: Pegs)
    requires Valid(n, st)
    ensures |st.a| + |st.b| + |st.c| == n
  {
    assert |AllDisks(st)| == |st.a| + |st.b| + |st.c|;
  }

  /** Moving the top disk of a nonempty peg onto an empty peg or onto a larger disk. */
  predicate Legal(st: Pegs, m: Move) {
    && m.from != m.to
    && Get(st, m.from) != []
    && (Get(st, m.to) == [] || Top(Get(st, m.from)) < Top(Get(st, m.to)))
  }

  /** Pops the top disk of `m.from` and pushes it on `m.to`. */
  function Transfer(st: Pegs, m: Move): (r: Pegs)
    requires m.from != m.to && Get(st, m.from) != []
    ensures Get(r, m.from) == Below(Get(st, m.from))
    ensures Get(r, m.to) == Get(st, m.to) + [Top(Get(st, m.from))]
    ensures forall p :: p != m.from && p != m.to ==> Get(r, p) == Get(st, p)
  {
    var s := Get(st, m.from);
    Put(Put(st, m.from, Below(s)), m.to, Get(st, m.to) + [Top(s)])
  }

  lemma DisksOfPegs(st: Pegs)
    ensures AllDisks(st) == multiset(Get(st, A)) + multiset(Get(st, B)) + multiset(Get(st, C))
  {
  }

  /** A transfer moves one disk, so the disks of all pegs together are unchanged. */
  lemma {:induction false} TransferKeepsDisks(st: Pegs, m: Move)
    requires m.from != m.to && Get(st, m.from) != []
    ensures AllDisks(Transfer(st, m)) == AllDisks(st)
  {
    var s := Get(st, m.from);
    assert s == Below(s) + [Top(s)];
    assert multiset(s) == multiset(Below(s)) + multiset([Top(s)]);
    var r := Transfer(st, m);
    DisksOfPegs(st);
    DisksOfPegs(r);
  }

  /** A legal move out of a valid state leads to a valid state. */
  lemma {:induction false} TransferPreservesValid(n: nat, st: Pegs, m: Move)
    requires Valid(n, st) && Legal(st, m)
    ensures Valid(n, Transfer(st, m))
  {
    var r := Transfer(st, m);
    var s, d := Get(st, m.from), Get(st, m.to);
    assert Decreasing(Get(st, A)) && Decreasing(Get(st, B)) && Decreasing(Get(st, C));
    assert Decreasing(Get(r, m.from)) by {
      assert Decreasing(s);
    }
    assert Decreasing(Get(r, m.to)) by {
      var d' := d + [Top(s)];
      assert Decreasing(d);
      forall i, j | 0 <= i < j < |d'| ensures d'[i] > d'[j] {
        if j == |d| {
          assert d[i] >= Top(d);
        }
      }
    }
    TransferKeepsDisks(st, m);
    assert Decreasing(Get(r, A)) && Decreasing(Get(r, B)) && Decreasing(Get(r, C));
  }

  /** The state reached by making the moves `ms` in order, or None once one of them is illegal. */
  function Exec(st: Pegs, ms: seq<Move>): Option<Pegs>
    decreases |ms|
  {
    if ms == [] then Some(st)
    else
      match Exec(st, ms[..|ms| - 1])
      case None => None
      case Some(t) => if Legal(t, ms[|ms| - 1]) then Some(Transfer(t, ms[|ms| - 1])) else None
  }

  /** A run of legal moves from a valid state only passes through valid states. */
  lemma {:induction false} ExecKeepsValid(n: nat, st: Pegs, ms: seq<Move>)
    requires Valid(n, st) && Exec(st, ms).Some?
    ensures Valid(n, Exec(st, ms).value)
    decreases |ms|
  {
    if ms != [] {
      var prefix := ms[..|ms| - 1];
      ExecKeepsValid(n, st, prefix);
      TransferPreservesValid(n, Exec(st, prefix).value, ms[|ms| - 1]);
    }
  }

  /** Running `xs + ys` is running `xs`, then `ys` from where `xs` left off. */
  lemma {:induction false} ExecAppend(st: Pegs, xs: seq<Move>, ys: seq<Move>)
    ensures Exec(st, xs + ys) == match Exec(st, xs) case None => None case Some(t) => Exec(t, ys)
    decreases |ys|
  {
    if ys == [] {
      assert xs + ys == xs;
    } else {
      var ys' := ys[..|ys| - 1];
      assert (xs + ys)[..|xs + ys| - 1] == xs + ys';
      ExecAppend(st, xs, ys');
    }
  }

  /** Three runs, each starting where the one before ended, make one run. */
  lemma ExecThree(st: Pegs, xs: seq<Move>, ys: seq<Move>, zs: seq<Move>)
    requires Exec(st, xs).Some? && Exec(Exec(st, xs).value, ys).Some?
    ensures Exec(st, xs + ys + zs) == Exec(Exec(Exec(st, xs).value, ys).value, zs)
  {
    ExecAppend(st, xs, ys);
    ExecAppend(st, xs + ys, zs);
  }

  /** Every prefix of a legal run is itself legal. */
  lemma {:induction false} ExecPrefix(st: Pegs, ms: seq<Move>, k: nat)
    requires Exec(st, ms).Some? && k <= |ms|
    ensures Exec(st, ms[..k]).Some?
    decreases |ms| - k
  {
    if k < |ms| {
      ExecPrefix(st, ms, k + 1);
      ExecNext(st, ms, k);
    } else {
      assert ms[..k] == ms;
    }
  }

  /** One more move extends a run when, and only when, that move is legal. */
  lemma ExecNext(st: Pegs, ms: seq<Move>, k: nat)
    requires k < |ms|
    ensures Exec(st, ms[..k + 1]) ==
      match Exec(st, ms[..k])
      case None => None
      case Some(t) => if Legal(t, ms[k]) then Some(Transfer(t, ms[k])) else None
  {
    assert ms[..k + 1][..k] == ms[..k];
  }

  predicate Distinct(s: Peg, d: Peg, x: Peg) {
    s != d && d != x && s != x
  }

  /** The state with S on peg s, D on peg d and X on peg x. */
  function Place(s: Peg, d: Peg, x: Peg, S: seq<int>, D: seq<int>, X: seq<int>): (r: Pegs)
    requires Distinct(s, d, x)
    ensures Get(r, s) == S && Get(r, d) == D && Get(r, x) == X
  {
    Put(Put(Put(Pegs([], [], []), s, S), d, D), x, X)
  }

  /** Naming the pegs in another order describes the same state. */
  lemma PlaceSwap(s: Peg, d: Peg, x: Peg, S: seq<int>, D: seq<int>, X: seq<int>)
    requires Distinct(s, d, x)
    ensures Place(s, d, x, S, D, X) == Place(s, x, d, S, X, D)
    ensures Place(s, d, x, S, D, X) == Place(x, d, s, X, D, S)
  {
    var r := Place(s, d, x, S, D, X);
    SamePegs(r, Place(s, x, d, S, X, D));
    SamePegs(r, Place(x, d, s, X, D, S));
  }
}
