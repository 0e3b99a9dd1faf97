/** The puzzle state of hanoi.js: three pegs of disk sizes, the initial tower and the legal-move rule. */
module Hanoi {

  /** One peg: disk sizes from the bottom (index 0) to the top (last index). */
  type Peg = seq<int>

  /** The game: exactly three pegs, indexed 0, 1 and 2. */
  type Pegs = g: seq<Peg> | |g| == 3 witness [[], [], []]

  function Top(p: Peg): int
    requires p != []
  {
    p[|p| - 1]
  }

  function Pop(p: Peg): Peg
    requires p != []
  {
    p[..|p| - 1]
  }

  /** Sizes strictly decrease from the bottom of the peg to its top. */
  predicate Decreasing(p: Peg) {
    forall i, j :: 0 <= i < j < |p| ==> p[i] > p[j]
  }

  predicate OnPeg(g: Pegs, d: int) {
    d in g[0] || d in g[1] || d in g[2]
  }

  /** What every reachable game satisfies: each peg is decreasing, no size sits on two pegs,
      and every size is positive. */
  ghost predicate WellFormed(g: Pegs) {
    && (forall q :: 0 <= q < 3 ==> Decreasing(g[q]))
    && (forall d :: d in g[0] ==> d !in g[1] && d !in g[2])
    && (forall d :: d in g[1] ==> d !in g[2])
    && (forall d :: OnPeg(g, d) ==> d > 0)
  }

  /** All disk sizes of the game, with multiplicity. */
  function Disks(g: Pegs): multiset<int> {
    multiset(g[0]) + multiset(g[1]) + multiset(g[2])
  }

  function Count(g: Pegs): nat {
    |g[0]| + |g[1]| + |g[2]|
  }

  /** The disks that `hanoi(n)` pushes on peg 0: n, n - 1, ..., 1. */
  function Tower(n: int): (p: Peg)
    ensures |p| == if n > 0 then n else 0
    ensures forall k :: 0 <= k < |p| ==> p[k] == n - k
    decreases n
  {
    if n <= 0 then [] else [n] + Tower(n - 1)
  }

  /** The value `hanoi(n)` returns. */
  function Initial(n: int): Pegs {
    [Tower(n), [], []]
  }

  /** `hanoi(n)` holds every size 1..n exactly once, all on peg 0, largest at the bottom;
      a non-positive n gives three empty pegs. */
  lemma InitialShape(n: int)
    ensures Initial(n)[1] == [] && Initial(n)[2] == []
    ensures Count(Initial(n)) == if n > 0 then n else 0
    ensures forall d :: OnPeg(Initial(n), d) <==> 1 <= d <= n
    ensures WellFormed(Initial(n))
  {
    var g := Initial(n);
    forall d | 1 <= d <= n
      ensures OnPeg(g, d)
    {
      assert g[0][n - d] == d;
    }
  }

  /** `move` dereferences `game[from]` always, and `game[to]` only when peg `from` has a disk;
      any other index makes it throw. */
  predicate MoveDefined(g: Pegs, from: int, to: int) {
    0 <= from < 3 && (g[from] != [] ==> 0 <= to < 3)
  }

  /** The legal-move rule: there is a disk to move, and it goes onto an empty peg or a larger disk. */
  predicate Legal(g: Pegs, from: int, to: int)
    requires MoveDefined(g, from, to)
  {
    g[from] != [] && (g[to] == [] || Top(g[from]) < Top(g[to]))
  }

  /** The effect of `move(game, from, to)` on the pegs. */
  function Step(g: Pegs, from: int, to: int): (r: Pegs)
    requires MoveDefined(g, from, to)
    ensures r == g <==> !Legal(g, from, to)
  {
    if g[from] == [] then g
    else if g[to] == [] || Top(g[from]) < Top(g[to]) then
      g[from := Pop(g[from])][to := g[to] + [Top(g[from])]]
    else g
  }

  lemma MoveFromEmptyIsNoop(g: Pegs, from: int, to: int)
    requires 0 <= from < 3 && g[from] == []
    ensures MoveDefined(g, from, to) && Step(g, from, to) == g
  {
  }

  lemma MoveOntoSmallerIsNoop(g: Pegs, from: int, to: int)
    requires 0 <= from < 3 && 0 <= to < 3
    requires g[from] != [] && g[to] != [] && Top(g[from]) >= Top(g[to])
    ensures Step(g, from, to) == g
  {
  }

  lemma MoveToSelfIsNoop(g: Pegs, i: int)
    requires 0 <= i < 3
    ensures Step(g, i, i) == g
  {
  }

  /** A legal move pops the top of `from`, pushes it on `to`, and leaves the third peg alone. */
  lemma LegalMove(g: Pegs, from: int, to: int)
    requires MoveDefined(g, from, to) && Legal(g, from, to)
    ensures from != to && 0 <= to < 3
    ensures Step(g, from, to)[from] == Pop(g[from])
    ensures Step(g, from, to)[to] == g[to] + [Top(g[from])]
    ensures forall q :: 0 <= q < 3 && q != from && q != to ==> Step(g, from, to)[q] == g[q]
  {
  }

  /** The multiset of disks, summed over two distinct pegs and the remaining one. */
  lemma DisksAround(g: Pegs, a: int, b: int)
    requires 0 <= a < 3 && 0 <= b < 3 && a != b
    ensures 0 <= 3 - a - b < 3 && 3 - a - b != a && 3 - a - b != b
    ensures Disks(g) == multiset(g[a]) + multiset(g[b]) + multiset(g[3 - a - b])
  {
    if a == 0 && b == 1 {
    } else if a == 0 && b == 2 {
    } else if a == 1 && b == 0 {
    } else if a == 1 && b == 2 {
    } else if a == 2 && b == 0 {
    } else {
    }
  }

  /** No disk is created or lost by a move. */
  lemma MoveConservesDisks(g: Pegs, from: int, to: int)
    requires MoveDefined(g, from, to)
    ensures Disks(Step(g, from, to)) == Disks(g)
    ensures Count(Step(g, from, to)) == Count(g)
    ensures forall d :: OnPeg(Step(g, from, to), d) <==> OnPeg(g, d)
  {
    if Legal(g, from, to) {
      LegalMoveKeepsDisks(g, from, to);
    }
    DisksCountAndMembers(g);
    DisksCountAndMembers(Step(g, from, to));
  }

  lemma LegalMoveKeepsDisks(g: Pegs, from: int, to: int)
    requires MoveDefined(g, from, to) && Legal(g, from, to)
    ensures Disks(Step(g, from, to)) == Disks(g)
  {
    var r := Step(g, from, to);
    LegalMove(g, from, to);
    var src := g[from];
    assert src == Pop(src) + [Top(src)];
    assert multiset(r[from]) + multiset{Top(src)} == multiset(g[from]);
    assert multiset(r[to]) == multiset(g[to]) + multiset{Top(src)};
    DisksAround(g, from, to);
    DisksAround(r, from, to);
  }

  /** The multiset of disks has one entry per disk, and holds exactly the sizes on the pegs. */
  lemma DisksCountAndMembers(g: Pegs)
    ensures |Disks(g)| == Count(g)
    ensures forall d :: OnPeg(g, d) <==> d in Disks(g)
  {
  }

  /** Pushing a disk smaller than everything on a decreasing peg keeps it decreasing. */
  lemma PushKeepsDecreasing(p: Peg, t: int)
    requires Decreasing(p) && (p == [] || t < Top(p))
    ensures Decreasing(p + [t])
  {
    var q := p + [t];
    forall i, j | 0 <= i < j < |q|
      ensures q[i] > q[j]
    {
      if j == |p| {
        assert p[i] >= Top(p);
      }
    }
  }

  /** On a decreasing peg the top disk occurs only at the top. */
  lemma TopOnlyAtTop(p: Peg)
    requires Decreasing(p) && p != []
    ensures Top(p) !in Pop(p)
    ensures Decreasing(Pop(p))
  {
  }

  /** Moving keeps every peg decreasing, the pegs disjoint and the sizes positive. */
  lemma MovePreservesWellFormed(g: Pegs, from: int, to: int)
    requires MoveDefined(g, from, to) && WellFormed(g)
    ensures WellFormed(Step(g, from, to))
  {
    MoveConservesDisks(g, from, to);
    if Legal(g, from, to) {
      LegalMoveKeepsDecreasing(g, from, to);
      LegalMoveKeepsDisjoint(g, from, to);
    }
  }

  lemma LegalMoveKeepsDecreasing(g: Pegs, from: int, to: int)
    requires MoveDefined(g, from, to) && Legal(g, from, to) && WellFormed(g)
    ensures forall q :: 0 <= q < 3 ==> Decreasing(Step(g, from, to)[q])
  {
    LegalMove(g, from, to);
    assert Decreasing(g[from]) && Decreasing(g[to]);
    PushKeepsDecreasing(g[to], Top(g[from]));
    TopOnlyAtTop(g[from]);
  }

  lemma LegalMoveKeepsDisjoint(g: Pegs, from: int, to: int)
    requires MoveDefined(g, from, to) && Legal(g, from, to) && WellFormed(g)
    ensures forall d :: d in Step(g, from, to)[0] ==> d !in Step(g, from, to)[1] && d !in Step(g, from, to)[2]
    ensures forall d :: d in Step(g, from, to)[1] ==> d !in Step(g, from, to)[2]
  {
    var r := Step(g, from, to);
    var t := Top(g[from]);
    LegalMove(g, from, to);
    TopOnlyAtTop(g[from]);
    // A disk of the new game is either where it was or the moved one, which now sits only on `to`.
    assert forall q, d :: 0 <= q < 3 && d in r[q] ==> (d in g[q] && d != t) || (q == to && d == t);
  }

  /** From `hanoi(3)`, the moves 0 -> 2, 0 -> 1, 2 -> 1 leave [3], [2, 1] and an empty peg. */
  lemma ThreeMoveExample()
    ensures MoveDefined(Initial(3), 0, 2)
    ensures MoveDefined(Step(Initial(3), 0, 2), 0, 1)
    ensures MoveDefined(Step(Step(Initial(3), 0, 2), 0, 1), 2, 1)
    ensures Step(Step(Step(Initial(3), 0, 2), 0, 1), 2, 1) == [[3], [2, 1], []]
  {
    var g0 := Initial(3);
    assert g0[0] == [3, 2, 1];
    LegalMove(g0, 0, 2);
    var g1 := Step(g0, 0, 2);
    assert g1[0] == [3, 2] && g1[1] == [] && g1[2] == [1];
    LegalMove(g1, 0, 1);
    var g2 := Step(g1, 0, 1);
    assert g2[0] == [3] && g2[1] == [2] && g2[2] == [1];
    LegalMove(g2, 2, 1);
    var g3 := Step(g2, 2, 1);
    assert g3[0] == [3] && g3[1] == [2, 1] && g3[2] == [];
  }

  /** The `game` array of hanoi.js: three stacks that `move` changes in place. */
  class Game {
    var pegs: Pegs

    /** `hanoi(disks)`: pushes disks, disks - 1, ..., 1 on peg 0. */
    constructor (disks: int)
      ensures pegs == Initial(disks)
    {
      var first: Peg := [];
      var i := disks;
      while i > 0
        invariant if disks > 0 then 0 <= i <= disks else i == disks
        invariant |first| == disks - i
        invariant forall k :: 0 <= k < |first| ==> first[k] == disks - k
      {
        first := first + [i];
        i := i - 1;
      }
      assert first == Tower(disks);
      pegs := [first, [], []];
    }

    /** `move(game, from, to)`: moves the top disk when the move is legal, ignores it otherwise,
        and hands back the same game. */
    method Move(from: int, to: int) returns (same: Game)
      requires MoveDefined(pegs, from, to)
      modifies this
      ensures same == this
      ensures pegs == Step(old(pegs), from, to)
      ensures old(WellFormed(pegs)) ==> WellFormed(pegs)
    {
      if |pegs[from]| > 0 {
        var disk := pegs[from][|pegs[from]| - 1];
        var dest := pegs[to];
        if |dest| == 0 || disk < dest[|dest| - 1] {
          var src := pegs[from];
          var popped := src[|src| - 1];
          var pushed := pegs[to] + [popped];
          pegs := pegs[from := src[..|src| - 1]];
          pegs := pegs[to := pushed];
        }
      }
      if old(WellFormed(pegs)) {
        MovePreservesWellFormed(old(pegs), from, to);
      }
      same := this;
    }
  }
}
