/** Reachability through free cells, defined level by level: the reference against which
    the flood fill and the breadth-first search are proved. */
module Reach {
  import opened Wrappers
  import opened Geometry
  import opened Board

  /** The free cells one move away from some cell of s. */
  ghost function Expand(g: Grid, s: set<Coord>): (r: set<Coord>)
    ensures forall n :: n in r ==> Free(g, n)
  {
    set c, d | c in s && d in Directions && Free(g, Step(c, d)) :: Step(c, d)
  }

  lemma ExpandHas(g: Grid, s: set<Coord>, c: Coord, d: Direction)
    requires c in s && Free(g, Step(c, d))
    ensures Step(c, d) in Expand(g, s)
  {
    AllInDirections(d);
  }

  lemma ExpandFrom(g: Grid, s: set<Coord>, n: Coord)
    requires n in Expand(g, s)
    ensures exists c, d :: c in s && d in Directions && n == Step(c, d)
  {
  }

  /** The cells reachable from s in at most k moves, each move onto a free cell.
      The start s itself belongs to every level, free or not. */
  ghost function Within(g: Grid, s: Coord, k: nat): set<Coord>
    decreases k
  {
    if k == 0 then {s} else Within(g, s, k - 1) + Expand(g, Within(g, s, k - 1))
  }

  /** A cell of level k that is not on level k - 1 is one move beyond level k - 1. */
  lemma WithinNew(g: Grid, s: Coord, k: nat, c: Coord) returns (b: Coord, d: Direction)
    requires k > 0 && c in Within(g, s, k) && c !in Within(g, s, k - 1)
    ensures b in Within(g, s, k - 1) && c == Step(b, d) && Free(g, c)
  {
    ExpandFrom(g, Within(g, s, k - 1), c);
    b, d :| b in Within(g, s, k - 1) && d in Directions && c == Step(b, d);
  }

  lemma {:induction false} WithinMonotone(g: Grid, s: Coord, j: nat, k: nat)
    requires j <= k
    ensures Within(g, s, j) <= Within(g, s, k)
    decreases k
  {
    if j < k {
      WithinMonotone(g, s, j, k - 1);
    }
  }

  /** Every cell of a level is the start or a free cell. */
  lemma {:induction false} WithinFree(g: Grid, s: Coord, k: nat, c: Coord)
    requires c in Within(g, s, k)
    ensures c == s || Free(g, c)
    decreases k
  {
    if k > 0 && c in Within(g, s, k - 1) {
      WithinFree(g, s, k - 1, c);
    }
  }

  /** A cell is at least as many levels out as its Manhattan distance from the start. */
  lemma {:induction false} WithinManhattan(g: Grid, s: Coord, k: nat, c: Coord)
    requires c in Within(g, s, k)
    ensures Manhattan(s, c) <= k
    decreases k
  {
    if k > 0 {
      var b, moved := Previous(g, s, k, c);
      WithinManhattan(g, s, k - 1, b);
      if moved {
        AdjacentManhattan(s, b, c);
      }
    }
  }

  /** Cells the start can reach in any number of moves. */
  ghost predicate Reaches(g: Grid, s: Coord, c: Coord)
  {
    exists k: nat :: c in Within(g, s, k)
  }

  /** The board cells the start can reach. */
  ghost function Reachable(g: Grid, s: Coord): set<Coord>
  {
    set c | c in Cells(g) && Reaches(g, s, c)
  }

  /** The number of free cells 4-connected to s through free cells; 0 when s itself is
      not free. */
  ghost function Area(g: Grid, s: Coord): nat
  {
    if Free(g, s) then |Reachable(g, s)| else 0
  }

  /** p is a walk from s whose every cell after the first is free and shares an edge
      with the cell before it. */
  ghost predicate FreePath(g: Grid, s: Coord, p: seq<Coord>)
  {
    && |p| >= 1
    && p[0] == s
    && forall i :: 1 <= i < |p| ==> Free(g, p[i]) && Adjacent(p[i - 1], p[i])
  }

  function Last(p: seq<Coord>): Coord
    requires |p| >= 1
  {
    p[|p| - 1]
  }

  /** The last cell of a free path of n cells lies on level n - 1. */
  lemma {:induction false} PathWithin(g: Grid, s: Coord, p: seq<Coord>)
    requires FreePath(g, s, p)
    ensures Last(p) in Within(g, s, |p| - 1)
    decreases |p|
  {
    if |p| > 1 {
      var init := p[..|p| - 1];
      assert FreePath(g, s, init);
      PathWithin(g, s, init);
      var b, c := Last(init), Last(p);
      AdjacentIsStep(b, c);
      var d :| d in Directions && c == Step(b, d);
      ExpandHas(g, Within(g, s, |p| - 2), b, d);
    }
  }

  /** Every cell of level k ends a free path of at most k + 1 cells. */
  lemma {:induction false} WithinPath(g: Grid, s: Coord, k: nat, c: Coord) returns (p: seq<Coord>)
    requires c in Within(g, s, k)
    ensures FreePath(g, s, p) && |p| <= k + 1 && Last(p) == c
    decreases k
  {
    if k == 0 {
      p := [s];
    } else {
      var b, moved := Previous(g, s, k, c);
      var q := WithinPath(g, s, k - 1, b);
      if moved {
        PathExtend(g, s, q, c);
        p := q + [c];
      } else {
        p := q;
      }
    }
  }

  /** A cell of level k is either on level k - 1 or one move beyond a cell b of it. */
  lemma Previous(g: Grid, s: Coord, k: nat, c: Coord) returns (b: Coord, moved: bool)
    requires k > 0 && c in Within(g, s, k)
    ensures b in Within(g, s, k - 1)
    ensures moved ==> Free(g, c) && Adjacent(b, c)
    ensures !moved ==> b == c
  {
    if c in Within(g, s, k - 1) {
      b, moved := c, false;
    } else {
      var d;
      b, d := WithinNew(g, s, k, c);
      moved := true;
    }
  }

  /** A free path extended by a free cell next to its end is a free path to that cell. */
  lemma PathExtend(g: Grid, s: Coord, p: seq<Coord>, c: Coord)
    requires FreePath(g, s, p) && Free(g, c) && Adjacent(Last(p), c)
    ensures FreePath(g, s, p + [c]) && Last(p + [c]) == c && |p + [c]| == |p| + 1
  {
    var q := p + [c];
    forall i | 1 <= i < |q| ensures Free(g, q[i]) && Adjacent(q[i - 1], q[i]) {
      if i < |p| {
        assert q[i] == p[i] && q[i - 1] == p[i - 1];
      }
    }
  }

  /** Reachability by levels and reachability by free paths agree. */
  lemma ReachesIffPath(g: Grid, s: Coord, c: Coord)
    ensures Reaches(g, s, c) <==> exists p :: FreePath(g, s, p) && Last(p) == c
  {
    if Reaches(g, s, c) {
      var k: nat :| c in Within(g, s, k);
      var p := WithinPath(g, s, k, c);
    }
    if p :| FreePath(g, s, p) && Last(p) == c {
      PathWithin(g, s, p);
    }
  }

  /** t is not on level j. */
  ghost predicate Outside(g: Grid, s: Coord, t: Coord, j: nat)
  {
    t !in Within(g, s, j)
  }

  /** m is the first level that holds t. */
  ghost predicate FirstLevel(g: Grid, s: Coord, t: Coord, m: nat)
  {
    t in Within(g, s, m) && forall j: nat {:trigger Outside(g, s, t, j)} :: j < m ==> Outside(g, s, t, j)
  }

  lemma {:induction false} LeastLevel(g: Grid, s: Coord, t: Coord, k: nat)
    requires t in Within(g, s, k)
    ensures exists m: nat :: FirstLevel(g, s, t, m)
    decreases k
  {
    if k > 0 && t in Within(g, s, k - 1) {
      LeastLevel(g, s, t, k - 1);
    } else {
      forall j: nat | j < k ensures Outside(g, s, t, j) {
        WithinMonotone(g, s, j, k - 1);
      }
      assert FirstLevel(g, s, t, k);
    }
  }

  /** The number of cells, both ends included, on a shortest free path from s to t;
      None when no free path leads there. */
  ghost function ShortestPathLength(g: Grid, s: Coord, t: Coord): (r: Option<nat>)
    ensures r.Some? ==> r.value >= 1 && FirstLevel(g, s, t, r.value - 1)
    ensures r.None? <==> forall k: nat :: t !in Within(g, s, k)
  {
    if exists k: nat :: t in Within(g, s, k) then
      var k0: nat :| t in Within(g, s, k0);
      LeastLevel(g, s, t, k0);
      var m: nat :| FirstLevel(g, s, t, m);
      Some(m + 1)
    else
      None
  }

  /** The first level that holds t fixes the shortest path length. */
  lemma ShortestPathLengthAt(g: Grid, s: Coord, t: Coord, n: nat)
    requires n >= 1 && t in Within(g, s, n - 1)
    requires forall j: nat :: j < n - 1 ==> t !in Within(g, s, j)
    ensures ShortestPathLength(g, s, t) == Some(n)
  {
    var r := ShortestPathLength(g, s, t);
    assert r.Some? && !Outside(g, s, t, n - 1);
    assert r.value == n;
  }

  /** What ShortestPathLength means in terms of free paths: None exactly when no free
      path ends at t, and otherwise the length of one that does, which no other beats. */
  lemma ShortestPathLengthMeaning(g: Grid, s: Coord, t: Coord)
    ensures ShortestPathLength(g, s, t).None? <==>
              forall p :: FreePath(g, s, p) ==> Last(p) != t
    ensures ShortestPathLength(g, s, t).Some? ==>
              && (exists p :: FreePath(g, s, p) && Last(p) == t && |p| == ShortestPathLength(g, s, t).value)
              && (forall p :: FreePath(g, s, p) && Last(p) == t ==> ShortestPathLength(g, s, t).value <= |p|)
  {
    var r := ShortestPathLength(g, s, t);
    if r.None? {
      forall p | FreePath(g, s, p) ensures Last(p) != t {
        PathWithin(g, s, p);
      }
    } else {
      var m := r.value - 1;
      assert FirstLevel(g, s, t, m);
      var p := WithinPath(g, s, m, t);
      PathWithin(g, s, p);
      assert !Outside(g, s, t, |p| - 1);
      forall q | FreePath(g, s, q) && Last(q) == t ensures r.value <= |q| {
        PathWithin(g, s, q);
        assert !Outside(g, s, t, |q| - 1);
      }
    }
  }

  /** On a board where every cell but the start is free, the shortest path to a board
      cell has the Manhattan distance plus one cells. */
  lemma ObstacleFreeShortest(g: Grid, s: Coord, t: Coord)
    requires OnGrid(g, s) && OnGrid(g, t)
    requires forall c :: OnGrid(g, c) && c != s ==> Free(g, c)
    ensures ShortestPathLength(g, s, t) == Some(Manhattan(s, t) + 1)
  {
    StaircaseWithin(g, s, t);
    forall j: nat | j < Manhattan(s, t) ensures t !in Within(g, s, j) {
      if t in Within(g, s, j) {
        WithinManhattan(g, s, j, t);
      }
    }
    ShortestPathLengthAt(g, s, t, Manhattan(s, t) + 1);
  }

  /** Without obstacles, t lies on the level of its Manhattan distance. */
  lemma {:induction false} StaircaseWithin(g: Grid, s: Coord, t: Coord)
    requires OnGrid(g, s) && OnGrid(g, t)
    requires forall c :: OnGrid(g, c) && c != s ==> Free(g, c)
    ensures t in Within(g, s, Manhattan(s, t))
    decreases Manhattan(s, t)
  {
    if t != s {
      var d := TowardStart(g, s, t);
      var b := Step(t, d);
      StaircaseWithin(g, s, b);
      assert t == Step(b, Opposite(d));
      assert Free(g, t);
      ExpandHas(g, Within(g, s, Manhattan(s, b)), b, Opposite(d));
    }
  }

  /** A move from t that brings it one step closer to s without leaving the board. */
  lemma TowardStart(g: Grid, s: Coord, t: Coord) returns (d: Direction)
    requires OnGrid(g, s) && OnGrid(g, t) && t != s
    ensures OnGrid(g, Step(t, d)) && Manhattan(s, Step(t, d)) + 1 == Manhattan(s, t)
  {
    d := if t.x > s.x then Left else if t.x < s.x then Right
         else if t.y > s.y then Down else Up;
  }

  /** A free cell whose four neighbours are all blocked or off the board has area 1. */
  lemma AreaIsolated(g: Grid, s: Coord)
    requires Free(g, s)
    requires forall d :: !Free(g, Step(s, d))
    ensures Area(g, s) == 1
  {
    assert Expand(g, {s}) == {};
    forall k: nat ensures Within(g, s, k) == {s} {
      IsolatedLevels(g, s, k);
    }
    assert s in Cells(g) by {
      var x, y := s.x, s.y;
      assert Coord(x, y) == s;
    }
    assert s in Within(g, s, 0);
    assert Reachable(g, s) == {s};
  }

  lemma {:induction false} IsolatedLevels(g: Grid, s: Coord, k: nat)
    requires Expand(g, {s}) == {}
    ensures Within(g, s, k) == {s}
    decreases k
  {
    if k > 0 {
      IsolatedLevels(g, s, k - 1);
    }
  }

  lemma SubsetCard<T>(a: set<T>, b: set<T>)
    requires a <= b
    ensures |a| <= |b|
  {
    assert b == a + (b - a);
  }

  /** The area never exceeds the number of free cells on the board. */
  lemma AreaBounded(g: Grid, s: Coord)
    ensures Area(g, s) <= |FreeCells(g)|
  {
    if Free(g, s) {
      forall c | c in Reachable(g, s) ensures c in FreeCells(g) {
        var k: nat :| c in Within(g, s, k);
        WithinFree(g, s, k, c);
      }
      SubsetCard(Reachable(g, s), FreeCells(g));
    }
  }

  lemma ExpandMonotone(g: Grid, a: set<Coord>, b: set<Coord>)
    requires a <= b
    ensures Expand(g, a) <= Expand(g, b)
  {
    forall n | n in Expand(g, a) ensures n in Expand(g, b) {
      ExpandFrom(g, a, n);
      var c, d :| c in a && d in Directions && n == Step(c, d);
      ExpandHas(g, b, c, d);
    }
  }

  /** Starting one free move further out costs at most one extra level. */
  lemma {:induction false} WithinFromStep(g: Grid, s: Coord, d: Direction, k: nat)
    requires Free(g, Step(s, d))
    ensures Within(g, Step(s, d), k) <= Within(g, s, k + 1)
    decreases k
  {
    if k == 0 {
      ExpandHas(g, {s}, s, d);
    } else {
      WithinFromStep(g, s, d, k - 1);
      ExpandMonotone(g, Within(g, Step(s, d), k - 1), Within(g, s, k));
    }
  }

  /** Whatever a free neighbour of s reaches, s reaches too. */
  lemma ReachesThroughStep(g: Grid, s: Coord, d: Direction, c: Coord)
    requires Free(g, Step(s, d)) && Reaches(g, Step(s, d), c)
    ensures Reaches(g, s, c)
  {
    var k: nat :| c in Within(g, Step(s, d), k);
    WithinFromStep(g, s, d, k);
  }
}
