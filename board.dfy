/** The snapshot of one turn and the two occupancy views the engine derives from it. */
module Board {
  import opened Geometry

  /** The controlled snake: its body, head first, and its health. */
  datatype Agent = Agent(body: seq<Coord>, health: int)

  /** One turn's board: dimensions, food, the bodies of every snake on the board
      (the controlled snake's own body among them) and the controlled snake. */
  datatype Snapshot = Snapshot(
    width: int,
    height: int,
    food: seq<Coord>,
    snakes: seq<seq<Coord>>,
    you: Agent)

  predicate InBounds(snap: Snapshot, c: Coord)
  {
    0 <= c.x < snap.width && 0 <= c.y < snap.height
  }

  /** Every segment of every body lies on the board. */
  predicate BodiesOnBoard(snap: Snapshot)
  {
    && (forall j :: 0 <= j < |snap.you.body| ==> InBounds(snap, snap.you.body[j]))
    && (forall i, j :: 0 <= i < |snap.snakes| && 0 <= j < |snap.snakes[i]| ==> InBounds(snap, snap.snakes[i][j]))
  }

  /** What the move decision relies on: every body lies on the board, the second listed
      snake, whose head the head-on rule reads, has one, and the controlled snake has a
      neck. */
  predicate WellFormed(snap: Snapshot)
  {
    && BodiesOnBoard(snap)
    && |snap.you.body| >= 2
    && (|snap.snakes| >= 2 ==> |snap.snakes[1]| >= 1)
  }

  function Head(snap: Snapshot): Coord
    requires |snap.you.body| >= 1
  {
    snap.you.body[0]
  }

  function Neck(snap: Snapshot): Coord
    requires |snap.you.body| >= 2
  {
    snap.you.body[1]
  }

  function SetOf(s: seq<Coord>): (r: set<Coord>)
    ensures forall c :: c in r <==> c in s
  {
    set c | c in s
  }

  /** Every cell covered by some body in ss. */
  function SegmentsOf(ss: seq<seq<Coord>>): set<Coord>
  {
    if ss == [] then {} else SegmentsOf(ss[..|ss| - 1]) + SetOf(ss[|ss| - 1])
  }

  lemma {:induction false} SegmentsOfMembership(ss: seq<seq<Coord>>, c: Coord)
    ensures c in SegmentsOf(ss) <==> exists s :: s in ss && c in s
  {
    if ss != [] {
      var init := ss[..|ss| - 1];
      SegmentsOfMembership(init, c);
      if c in SegmentsOf(init) {
        var s :| s in init && c in s;
        assert s in ss;
      }
      if s :| s in ss && c in s {
        if s != ss[|ss| - 1] {
          var i :| 0 <= i < |ss| && ss[i] == s;
          assert init[i] == s;
        }
      }
    }
  }

  /** The part of the own body that the occupancy grid marks (Python's body[:-5]): a
      prefix of the body that leaves out exactly its last five segments, or all of them
      when there are at most five; so every marked cell is a segment, and every segment
      before the last five is marked. */
  function MarkedPrefix(body: seq<Coord>): (p: seq<Coord>)
    ensures p <= body
    ensures |body| - |p| == if |body| > 5 then 5 else |body|
    ensures forall c :: c in p ==> c in body
    ensures forall i :: 0 <= i < |body| - 5 ==> body[i] in p
  {
    var p := body[..if |body| > 5 then |body| - 5 else 0];
    assert forall i :: 0 <= i < |body| - 5 ==> p[i] == body[i];
    p
  }

  /** A rectangular board with a set of blocked cells. */
  datatype Grid = Grid(width: int, height: int, blocked: set<Coord>)

  predicate OnGrid(g: Grid, c: Coord)
  {
    0 <= c.x < g.width && 0 <= c.y < g.height
  }

  /** A cell a snake could move through. */
  predicate Free(g: Grid, c: Coord)
  {
    OnGrid(g, c) && c !in g.blocked
  }

  /** All cells of the board. */
  ghost function Cells(g: Grid): set<Coord>
  {
    set x, y | 0 <= x < g.width && 0 <= y < g.height :: Coord(x, y)
  }

  /** All free cells of the board. */
  ghost function FreeCells(g: Grid): (r: set<Coord>)
    ensures forall c :: c in r <==> Free(g, c)
  {
    var r := set c | c in Cells(g) && c !in g.blocked;
    assert forall c :: Free(g, c) ==> c in Cells(g) by {
      forall c | Free(g, c) ensures c in Cells(g) {
        var x, y := c.x, c.y;
        assert Coord(x, y) == c;
      }
    }
    r
  }

  /** The grid the food search sees: every segment of every snake and of the
      controlled snake is blocked. */
  function SearchGrid(snap: Snapshot): Grid
  {
    Grid(snap.width, snap.height, SegmentsOf(snap.snakes) + SetOf(snap.you.body))
  }

  /** The occupancy grid the flood fill sees: every segment of every listed snake,
      and the controlled snake's body without its last five segments. */
  function FloodGrid(snap: Snapshot): Grid
  {
    Grid(snap.width, snap.height, SegmentsOf(snap.snakes) + SetOf(MarkedPrefix(snap.you.body)))
  }

  /** The flood-fill grid blocks no more than the search grid does. */
  lemma FloodGridBlocksLess(snap: Snapshot)
    ensures FloodGrid(snap).blocked <= SearchGrid(snap).blocked
  {
    var b := snap.you.body;
    var p := MarkedPrefix(b);
    forall c | c in p ensures c in b {
      var i :| 0 <= i < |p| && p[i] == c;
      assert b[i] == c;
    }
  }
}
