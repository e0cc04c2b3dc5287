/** The occupancy grid and the recursive flood fill over it (api/index.py, lines 79-98). */
module Flood {
  import opened Geometry
  import opened Board
  import opened Reach

  /** The occupancy grid: board[x][y] is 1 when cell (x, y) is occupied. */
  type Occupancy = seq<seq<int>>

  /** board has w columns of h cells each. */
  ghost predicate Rectangular(board: Occupancy, w: int, h: int)
  {
    |board| == w && forall i :: 0 <= i < |board| ==> |board[i]| == h
  }

  /** The open cells of board (those not marked 1) are exactly the free cells of g. */
  ghost predicate Shows(board: Occupancy, g: Grid)
  {
    forall c :: Free(g, c) <==> 0 <= c.x < |board| && 0 <= c.y < |board[c.x]| && board[c.x][c.y] != 1
  }

  /** All cells of a w-by-h board. */
  ghost function Box(w: int, h: int): set<Coord>
  {
    set i, j | 0 <= i < w && 0 <= j < h :: Coord(i, j)
  }

  /** c is a cell of the visited matrix. */
  predicate Inside(visited: array2<bool>, c: Coord)
  {
    0 <= c.x < visited.Length0 && 0 <= c.y < visited.Length1
  }

  /** box holds every cell of the visited matrix; the number of cells of box not yet
      visited measures the work a flood fill has left. */
  ghost predicate Covers(box: set<Coord>, visited: array2<bool>)
  {
    forall c :: Inside(visited, c) ==> c in box
  }

  /** The cells marked in the visited matrix are exactly the cells m. */
  ghost predicate Tracks(visited: array2<bool>, m: set<Coord>)
    reads visited
  {
    && (forall c {:trigger Inside(visited, c)} :: c in m ==> Inside(visited, c))
    && (forall c {:trigger visited[c.x, c.y]} :: Inside(visited, c) ==> (visited[c.x, c.y] <==> c in m))
  }

  /** Every free neighbour of e is among the cells m. */
  ghost predicate Closed(g: Grid, e: Coord, m: set<Coord>)
  {
    forall n {:trigger Adjacent(e, n)} :: Adjacent(e, n) && Free(g, n) ==> n in m
  }

  /** What one call of FloodFill from t achieves, given the cells m0 visited before it
      and the cells m visited after it: the newly visited cells are free, reachable from
      t and have all their free neighbours visited; there are none exactly when t is
      not free or was already visited. */
  ghost predicate Fill(g: Grid, m0: set<Coord>, m: set<Coord>, t: Coord)
  {
    && m0 <= m
    && (forall e {:trigger Free(g, e)} :: e in m && e !in m0 ==> Free(g, e))
    && (forall e {:trigger Reaches(g, t, e)} :: e in m && e !in m0 ==> Reaches(g, t, e))
    && (forall e {:trigger Closed(g, e, m)} :: e in m && e !in m0 ==> Closed(g, e, m))
    && (!Free(g, t) || t in m0 ==> m == m0)
    && (Free(g, t) ==> t in m)
  }

  /** Counts the open cells 4-connected to (x, y) that are not yet visited, marking
      each of them visited; a cell off the board, occupied or already visited counts 0.
      The ghost grid g has the open cells of board as its free cells; the ghost sets m0
      and m are the cells marked in visited before and after the call. */
  method FloodFill(board: Occupancy, x: int, y: int, visited: array2<bool>,
                   ghost g: Grid, ghost box: set<Coord>, ghost m0: set<Coord>)
      returns (r: nat, ghost m: set<Coord>)
    requires Rectangular(board, visited.Length0, visited.Length1)
    requires Shows(board, g)
    requires Covers(box, visited)
    requires Tracks(visited, m0) && m0 <= box
    modifies visited
    decreases |box| - |m0|, 0
    ensures Tracks(visited, m) && m <= box
    ensures Fill(g, m0, m, Coord(x, y))
    ensures r == |m| - |m0|
  {
    if x < 0 || y < 0 || x >= |board| || y >= |board[0]| || board[x][y] == 1 || visited[x, y] {
      return 0, m0;
    }
    var s := Coord(x, y);
    assert s !in m0 by {
      assert !visited[s.x, s.y];
    }
    visited[x, y] := true;
    m := m0 + {s};
    assert Tracks(visited, m) by {
      forall c | Inside(visited, c)
        ensures visited[c.x, c.y] <==> c in m
      {
        if c != s {
          assert visited[c.x, c.y] == old(visited[c.x, c.y]);
        }
      }
    }
    Start(g, s, m0, m);

    Shrinks(box, m0, m, s);
    var a;
    a, m := Neighbour(board, x + 1, y, visited, g, box, s, 0, m0, m);
    Shrinks(box, m0, m, s);
    var b;
    b, m := Neighbour(board, x - 1, y, visited, g, box, s, 1, m0, m);
    Shrinks(box, m0, m, s);
    var c;
    c, m := Neighbour(board, x, y + 1, visited, g, box, s, 2, m0, m);
    Shrinks(box, m0, m, s);
    var d;
    d, m := Neighbour(board, x, y - 1, visited, g, box, s, 3, m0, m);

    r := 1 + a + b + c + d;
    ProgressComplete(g, s, m0, m);
  }

  /** The order in which the flood fill visits the neighbours of a cell. */
  const FillOrder: seq<Direction> := [Right, Left, Up, Down]

  /** The k-th of the four recursive calls of FloodFill on s: the flood fill from the
      neighbour (x, y) of s in direction FillOrder[k], folded into the progress of the
      call on s. */
  method Neighbour(board: Occupancy, x: int, y: int, visited: array2<bool>, ghost g: Grid,
                   ghost box: set<Coord>, ghost s: Coord, ghost k: nat,
                   ghost m0: set<Coord>, ghost m: set<Coord>)
      returns (n: nat, ghost m': set<Coord>)
    requires Rectangular(board, visited.Length0, visited.Length1)
    requires Shows(board, g)
    requires Covers(box, visited)
    requires Tracks(visited, m) && m <= box
    requires k < |FillOrder| && Coord(x, y) == Step(s, FillOrder[k])
    requires Progress(g, s, k, m0, m)
    modifies visited
    decreases |box| - |m|, 1
    ensures Tracks(visited, m') && m' <= box
    ensures Progress(g, s, k + 1, m0, m')
    ensures n == |m'| - |m|
  {
    n, m' := FloodFill(board, x, y, visited, g, box, m);
    MergeCall(g, s, k, m0, m, m');
  }

  /** What holds of the cells visited so far by one call of FloodFill from s, once the
      first k of its four recursive calls have returned: the visited cells are free and
      reachable from s, the free neighbours of each of them but s are visited, and so are
      the free neighbours of s in the first k directions of FillOrder. */
  ghost predicate Progress(g: Grid, s: Coord, k: nat, m0: set<Coord>, m: set<Coord>)
  {
    && m0 <= m && s in m && s !in m0 && Free(g, s)
    && (forall e {:trigger Free(g, e)} :: e in m && e !in m0 ==> Free(g, e))
    && (forall e {:trigger Reaches(g, s, e)} :: e in m && e !in m0 ==> Reaches(g, s, e))
    && (forall e {:trigger Closed(g, e, m)} :: e in m && e !in m0 && e != s ==> Closed(g, e, m))
    && (forall i :: 0 <= i < k && i < |FillOrder| && Free(g, Step(s, FillOrder[i])) ==>
                      Step(s, FillOrder[i]) in m)
  }

  /** Marking the free, unvisited cell s starts the progress of the call on s. */
  lemma Start(g: Grid, s: Coord, m0: set<Coord>, m: set<Coord>)
    requires Free(g, s) && s !in m0 && m == m0 + {s}
    ensures Progress(g, s, 0, m0, m)
  {
    assert s in Within(g, s, 0);
  }

  /** Folds the result of the k-th recursive call, on the neighbour of s in direction
      FillOrder[k], into the progress of the call on s. */
  lemma MergeCall(g: Grid, s: Coord, k: nat, m0: set<Coord>, m: set<Coord>, m': set<Coord>)
    requires k < |FillOrder|
    requires Progress(g, s, k, m0, m)
    requires Fill(g, m, m', Step(s, FillOrder[k]))
    ensures Progress(g, s, k + 1, m0, m')
  {
    var dir := FillOrder[k];
    forall e | e in m' && e !in m0 ensures Free(g, e) && Reaches(g, s, e) {
      if e in m {
        assert Free(g, e) && Reaches(g, s, e);
      } else {
        assert Free(g, e) && Reaches(g, Step(s, dir), e);
        ReachesThroughStep(g, s, dir, e);
      }
    }
    forall e | e in m' && e !in m0 && e != s ensures Closed(g, e, m') {
      if e in m {
        assert Closed(g, e, m);
      } else {
        assert Closed(g, e, m');
      }
    }
  }

  /** Marking s, which was unmarked, leaves fewer unmarked cells of the board. */
  lemma Shrinks(box: set<Coord>, m0: set<Coord>, m: set<Coord>, s: Coord)
    requires s !in m0 && s in m && m0 <= m && m <= box
    ensures |m0| < |m| <= |box|
  {
    SubsetCard(m0 + {s}, m);
    SubsetCard(m, box);
  }

  /** Once all four recursive calls on s have returned, the call on s has achieved Fill. */
  lemma ProgressComplete(g: Grid, s: Coord, m0: set<Coord>, m: set<Coord>)
    requires Progress(g, s, |FillOrder|, m0, m)
    ensures Fill(g, m0, m, s)
  {
    forall n | Adjacent(s, n) && Free(g, n) ensures n in m {
      AdjacentIsStep(s, n);
      var d :| d in Directions && n == Step(s, d);
      var i := if d == Right then 0 else if d == Left then 1 else if d == Up then 2 else 3;
      assert FillOrder[i] == d;
    }
  }

  /** A set of cells that contains s and every free neighbour of its cells holds
      every level from s. */
  lemma {:induction false} ClosedHoldsWithin(g: Grid, s: Coord, cells: set<Coord>, k: nat)
    requires s in cells
    requires forall c :: c in cells ==> Closed(g, c, cells)
    ensures Within(g, s, k) <= cells
    decreases k
  {
    if k > 0 {
      ClosedHoldsWithin(g, s, cells, k - 1);
      forall n | n in Expand(g, Within(g, s, k - 1)) ensures n in cells {
        ExpandFrom(g, Within(g, s, k - 1), n);
        var c, d :| c in Within(g, s, k - 1) && d in Directions && n == Step(c, d);
        assert Closed(g, c, cells) && Adjacent(c, n);
      }
    }
  }

  /** A flood fill from t over an unvisited board visits exactly the cells t can
      reach, so it counts the area of t. */
  lemma FillIsArea(g: Grid, t: Coord, m: set<Coord>)
    requires Fill(g, {}, m, t)
    ensures |m| == Area(g, t)
  {
    if Free(g, t) {
      forall c | c in m ensures c in Reachable(g, t) {
        assert Free(g, c) && Reaches(g, t, c);
        assert c in Cells(g) by {
          var x, y := c.x, c.y;
          assert Coord(x, y) == c;
        }
      }
      forall c | c in Reachable(g, t) ensures c in m {
        var k: nat :| c in Within(g, t, k);
        ClosedHoldsWithin(g, t, m, k);
      }
      assert m == Reachable(g, t);
    }
  }

  function Dim(n: int): nat
  {
    if n < 0 then 0 else n
  }

  /** Marks every cell of cells occupied and leaves the other cells as they were. */
  method MarkAll(board: Occupancy, cells: seq<Coord>, ghost w: nat, ghost h: nat)
      returns (marked: Occupancy)
    requires Rectangular(board, w, h)
    requires forall k :: 0 <= k < |cells| ==> 0 <= cells[k].x < w && 0 <= cells[k].y < h
    ensures Rectangular(marked, w, h)
    ensures forall a, b :: 0 <= a < w && 0 <= b < h ==>
      marked[a][b] == if Coord(a, b) in cells then 1 else board[a][b]
  {
    marked := board;
    for k := 0 to |cells|
      invariant Rectangular(marked, w, h)
      invariant forall a, b :: 0 <= a < w && 0 <= b < h ==>
        marked[a][b] == if Coord(a, b) in cells[..k] then 1 else board[a][b]
    {
      var c := cells[k];
      marked := marked[c.x := marked[c.x][c.y := 1]];
      assert cells[..k + 1] == cells[..k] + [c];
    }
    assert cells[..|cells|] == cells;
  }

  /** The occupancy grid (1 = occupied, 0 = open) of the flood fill: every segment of
      every listed snake and every segment of the controlled snake's body but its last
      five. */
  method MarkOccupied(snap: Snapshot) returns (board: Occupancy)
    requires BodiesOnBoard(snap)
    ensures Rectangular(board, Dim(snap.width), Dim(snap.height))
    ensures forall a, b :: 0 <= a < |board| && 0 <= b < |board[a]| ==>
      board[a][b] == if Coord(a, b) in FloodGrid(snap).blocked then 1 else 0
  {
    var w, h := Dim(snap.width), Dim(snap.height);
    board := seq(w, i => seq(h, j => 0));
    for i := 0 to |snap.snakes|
      invariant Rectangular(board, w, h)
      invariant forall a, b :: 0 <= a < w && 0 <= b < h ==>
        board[a][b] == if Coord(a, b) in SegmentsOf(snap.snakes[..i]) then 1 else 0
    {
      assert forall k :: 0 <= k < |snap.snakes[i]| ==> InBounds(snap, snap.snakes[i][k]);
      board := MarkAll(board, snap.snakes[i], w, h);
      assert snap.snakes[..i + 1][..i] == snap.snakes[..i];
    }
    assert snap.snakes[..|snap.snakes|] == snap.snakes;
    var mine := MarkedPrefix(snap.you.body);
    assert forall k :: 0 <= k < |mine| ==> InBounds(snap, snap.you.body[k]);
    board := MarkAll(board, mine, w, h);
  }

  /** Builds the occupancy grid and counts the cells 4-connected to head. */
  method GetFloodFillArea(snap: Snapshot, head: Coord) returns (area: nat)
    requires BodiesOnBoard(snap)
    ensures area == Area(FloodGrid(snap), head)
    ensures area <= |FreeCells(FloodGrid(snap))|
  {
    ghost var g := FloodGrid(snap);
    var board := MarkOccupied(snap);
    var w, h := Dim(snap.width), Dim(snap.height);
    var visited := new bool[w, h]((i, j) => false);
    assert Shows(board, g);
    ghost var box := Box(w, h);
    assert Covers(box, visited) by {
      forall c | Inside(visited, c) ensures c in box {
        var x, y := c.x, c.y;
        assert Coord(x, y) == c;
      }
    }
    ghost var m;
    area, m := FloodFill(board, head.x, head.y, visited, g, box, {});
    FillIsArea(g, head, m);
    AreaBounded(g, head);
  }

  /** When the head lies on a body listed among the board's snakes, as the controlled
      snake's own body always is, the occupancy grid marks it and the area is 0. */
  lemma HeadListedNoArea(snap: Snapshot, i: nat)
    requires |snap.you.body| >= 1
    requires i < |snap.snakes| && snap.you.body[0] in snap.snakes[i]
    ensures Area(FloodGrid(snap), snap.you.body[0]) == 0
  {
    SegmentsOfMembership(snap.snakes, snap.you.body[0]);
    assert snap.snakes[i] in snap.snakes;
  }
}
