/** The food test of the breadth-first search (api/index.py, line 109), over the Python
    values it compares: the search asks whether the tuple (x, y) of the dequeued cell is in
    a list of food dictionaries {'x': x, 'y': y}. A tuple never equals a dictionary, so as
    written the test never holds; the intended test compares the cell's dictionary. */
module FoodMatch {
  import opened Geometry
  import opened Board
  import opened Reach
  import opened Search

  /** The Python values the test handles: integers, tuples and string-keyed dictionaries,
      compared structurally as Python's == compares them. */
  datatype PyValue = PyInt(n: int) | PyTuple(items: seq<PyValue>) | PyDict(entries: map<string, PyValue>)

  /** A cell as the tuple (x, y). */
  function AsTuple(c: Coord): PyValue
  {
    PyTuple([PyInt(c.x), PyInt(c.y)])
  }

  /** A cell as the dictionary {'x': x, 'y': y} the game state uses. */
  function AsDict(c: Coord): PyValue
  {
    PyDict(map["x" := PyInt(c.x), "y" := PyInt(c.y)])
  }

  /** The food list as the list of dictionaries the search receives. */
  function Dicts(food: seq<Coord>): (r: seq<PyValue>)
    ensures |r| == |food| && forall i :: 0 <= i < |food| ==> r[i] == AsDict(food[i])
  {
    seq(|food|, i requires 0 <= i < |food| => AsDict(food[i]))
  }

  /** Two cells with equal dictionaries are the same cell. */
  lemma AsDictInjective(a: Coord, b: Coord)
    requires AsDict(a) == AsDict(b)
    ensures a == b
  {
    assert AsDict(a).entries["x"] == PyInt(a.x) && AsDict(b).entries["x"] == PyInt(b.x);
    assert AsDict(a).entries["y"] == PyInt(a.y) && AsDict(b).entries["y"] == PyInt(b.y);
  }

  /** Line 109 as written: the tuple of the cell is looked up among the food dictionaries,
      which never succeeds. */
  function FoodTestAsWritten(c: Coord, food: seq<Coord>): (r: bool)
    ensures !r
  {
    AsTuple(c) in Dicts(food)
  }

  /** The intended test: the dictionary of the cell is looked up among the food
      dictionaries, which succeeds exactly for the listed cells. */
  function FoodTest(c: Coord, food: seq<Coord>): (r: bool)
    ensures r <==> c in food
  {
    var ds := Dicts(food);
    if AsDict(c) in ds then
      var i :| 0 <= i < |ds| && ds[i] == AsDict(c);
      AsDictInjective(food[i], c);
      true
    else
      assert forall i :: 0 <= i < |food| ==> ds[i] == AsDict(food[i]);
      false
  }

  /** The search for one food item (line 221) with the test as written: it never finds
      the item, so the path is always empty and no food bonus is ever added. */
  method ShortestPathAsWritten(snap: Snapshot, start: Coord, item: Coord) returns (path: seq<Coord>)
    ensures path == []
  {
    path := BfsShortestPath(snap, start, c => FoodTestAsWritten(c, [item]));
  }

  /** The discrepancy on a concrete kind of input: food on a free cell next to the head
      is reachable and passes the intended test, but fails the test as written. */
  lemma AsWrittenMissesAdjacentFood(snap: Snapshot, start: Coord, d: Direction)
    requires Free(SearchGrid(snap), Step(start, d))
    ensures Reaches(SearchGrid(snap), start, Step(start, d))
    ensures FoodTest(Step(start, d), [Step(start, d)])
    ensures !FoodTestAsWritten(Step(start, d), [Step(start, d)])
  {
    var g := SearchGrid(snap);
    ExpandHas(g, Within(g, start, 0), start, d);
    assert Step(start, d) in Within(g, start, 1);
  }
}
