/** The move decision (api/index.py, lines 127-253): four direction values built up rule
    by rule from one snapshot, then the direction with the highest value. */
module Scoring {
  import opened Wrappers
  import opened Geometry
  import opened Board
  import opened Reach
  import opened Flood
  import opened Search
  import opened FoodMatch

  const BorderPenalty: int := 1000
  const CloseBorderPenalty: int := 2
  const BodyCollisionPenalty: int := 100
  const HeadOnCollisionPenalty: int := 100
  const FoodValue: int := 10
  const FloodFillBonus: int := 20

  /** The four direction values; food bonuses make them fractions. */
  datatype Values = Values(right: real, left: real, up: real, down: real)

  function Get(v: Values, d: Direction): real
  {
    match d
    case Right => v.right
    case Left => v.left
    case Up => v.up
    case Down => v.down
  }

  /** The answer of one turn: a move, or the IndexError raised when the game started with
      two or more snakes but the board now lists fewer than two. */
  datatype Answer = Chose(move: Direction) | IndexError

  // ---------------------------------------------------------------------------------
  // The rules, one term per direction
  // ---------------------------------------------------------------------------------

  /** The direction the neck test penalises: the first of left, right, down, up on whose
      side the neck lies; none when the neck sits on the head. */
  function NeckSide(head: Coord, neck: Coord): Option<Direction>
  {
    if neck.x < head.x then Some(Left)
    else if neck.x > head.x then Some(Right)
    else if neck.y < head.y then Some(Down)
    else if neck.y > head.y then Some(Up)
    else None
  }

  function NeckTerm(head: Coord, neck: Coord, d: Direction): int
  {
    if NeckSide(head, neck) == Some(d) then -BodyCollisionPenalty else 0
  }

  /** How many cells lie between the head and the board's edge in direction d. */
  function Room(width: int, height: int, head: Coord, d: Direction): int
  {
    match d
    case Right => width - 1 - head.x
    case Left => head.x
    case Up => height - 1 - head.y
    case Down => head.y
  }

  /** The border penalty: the head touches the edge in direction d. */
  function BorderTerm(width: int, height: int, head: Coord, d: Direction): int
  {
    if Room(width, height, head, d) <= 0 then -BorderPenalty else 0
  }

  /** The close-border penalty: at most one cell lies between the head and the edge. */
  function CloseBorderTerm(width: int, height: int, head: Coord, d: Direction): int
  {
    if Room(width, height, head, d) <= 1 then -CloseBorderPenalty else 0
  }

  /** The collision penalty for a body: the cell one move away is one of its segments. */
  function BodyTerm(body: seq<Coord>, head: Coord, d: Direction): int
  {
    if Step(head, d) in body then -BodyCollisionPenalty else 0
  }

  /** The head-on term for a rival whose head is two moves away in direction d: a penalty
      when the controlled snake is not longer than the rival, a bonus when it is. */
  function HeadOnTerm(myLength: int, rival: seq<Coord>, head: Coord, d: Direction): int
    requires |rival| >= 1
  {
    if Step(Step(head, d), d) == rival[0] then
      if myLength <= |rival| then -HeadOnCollisionPenalty else HeadOnCollisionPenalty
    else 0
  }

  /** The food lies strictly on d's side of the head. */
  predicate Toward(head: Coord, f: Coord, d: Direction)
  {
    match d
    case Right => f.x > head.x
    case Left => f.x < head.x
    case Up => f.y > head.y
    case Down => f.y < head.y
  }

  /** The food bonus of one item: the food value over the number of cells on a shortest
      free path to it, for each direction the item lies toward; nothing when no free path
      leads there. */
  ghost function FoodTerm(g: Grid, head: Coord, f: Coord, d: Direction): real
  {
    match ShortestPathLength(g, head, f)
    case None => 0.0
    case Some(n) => if Toward(head, f, d) then FoodValue as real / n as real else 0.0
  }

  /** The food bonuses of a list of items. */
  ghost function FoodSum(g: Grid, head: Coord, food: seq<Coord>, d: Direction): real
  {
    if food == [] then 0.0
    else FoodSum(g, head, food[..|food| - 1], d) + FoodTerm(g, head, food[|food| - 1], d)
  }

  /** The flood-fill bonus, the same for every direction. */
  function FloodTerm(area: nat): int
  {
    if area != 0 then area * FloodFillBonus else 0
  }

  // ---------------------------------------------------------------------------------
  // The value of a direction and the decision
  // ---------------------------------------------------------------------------------

  /** Reading the second snake's body fails: the game started with at least two snakes
      and the board lists fewer than two. */
  predicate Raises(snap: Snapshot, count: int)
  {
    count >= 2 && |snap.snakes| < 2
  }

  /** The collision penalty for the second listed snake's body, applied only in games
      that started with at least two snakes. */
  function RivalTerm(snap: Snapshot, count: int, d: Direction): int
    requires WellFormed(snap) && !Raises(snap, count)
  {
    if count >= 2 then BodyTerm(snap.snakes[1], Head(snap), d) else 0
  }

  /** The head-on term against the second listed snake: skipped in a one-snake game, and
      applied only when the game started with at least two snakes and two are listed. */
  function RivalHeadOnTerm(snap: Snapshot, count: int, d: Direction): int
    requires WellFormed(snap)
  {
    if count == 1 then 0
    else if count >= 2 && |snap.snakes| > 1 then HeadOnTerm(|snap.you.body|, snap.snakes[1], Head(snap), d)
    else 0
  }

  /** The rules before the food bonuses (lines 141-217), summed for direction d. */
  function RuleValue(snap: Snapshot, count: int, d: Direction): int
    requires WellFormed(snap) && !Raises(snap, count)
  {
    var head := Head(snap);
    NeckTerm(head, Neck(snap), d)
    + BorderTerm(snap.width, snap.height, head, d)
    + CloseBorderTerm(snap.width, snap.height, head, d)
    + BodyTerm(snap.you.body, head, d)
    + RivalTerm(snap, count, d)
    + RivalHeadOnTerm(snap, count, d)
  }

  function RuleValues(snap: Snapshot, count: int): Values
    requires WellFormed(snap) && !Raises(snap, count)
  {
    Values(RuleValue(snap, count, Right) as real, RuleValue(snap, count, Left) as real,
           RuleValue(snap, count, Up) as real, RuleValue(snap, count, Down) as real)
  }

  /** Every rule but the flood fill, summed for direction d. */
  ghost function BaseValue(snap: Snapshot, count: int, d: Direction): real
    requires WellFormed(snap) && !Raises(snap, count)
  {
    RuleValue(snap, count, d) as real + FoodSum(SearchGrid(snap), Head(snap), snap.food, d)
  }

  ghost function BaseValues(snap: Snapshot, count: int): Values
    requires WellFormed(snap) && !Raises(snap, count)
  {
    Values(BaseValue(snap, count, Right), BaseValue(snap, count, Left),
           BaseValue(snap, count, Up), BaseValue(snap, count, Down))
  }

  /** The flood-fill bonus of the snapshot: twenty per cell of the area around the head. */
  ghost function FloodBonus(snap: Snapshot): real
    requires WellFormed(snap)
  {
    FloodTerm(Area(FloodGrid(snap), Head(snap))) as real
  }

  /** Adds c to every direction's value. */
  function Shift(v: Values, c: real): (r: Values)
    ensures forall d :: Get(r, d) == Get(v, d) + c
  {
    Values(v.right + c, v.left + c, v.up + c, v.down + c)
  }

  /** The four values the turn ends with. */
  ghost function FinalValues(snap: Snapshot, count: int): Values
    requires WellFormed(snap) && !Raises(snap, count)
  {
    Shift(BaseValues(snap, count), FloodBonus(snap))
  }

  function Max(a: real, b: real): real
  {
    if a >= b then a else b
  }

  /** The position of a direction in the tie-break order right, left, up, down. */
  function Rank(d: Direction): nat
  {
    match d
    case Right => 0
    case Left => 1
    case Up => 2
    case Down => 3
  }

  /** The decision rule: the direction with the greatest value, ties going to the first of
      right, left, up, down. */
  function Choose(v: Values): (r: Direction)
    ensures forall d :: Get(v, d) <= Get(v, r)
    ensures forall d :: Rank(d) < Rank(r) ==> Get(v, d) < Get(v, r)
  {
    var m := Max(Max(Max(v.right, v.left), v.up), v.down);
    if m == v.right then Right
    else if m == v.left then Left
    else if m == v.up then Up
    else if m == v.down then Down
    else Right
  }

  /** What one turn answers. */
  ghost function Decision(snap: Snapshot, count: int): Answer
    requires WellFormed(snap)
  {
    if Raises(snap, count) then IndexError else Chose(Choose(FinalValues(snap, count)))
  }

  /** What one turn answers with the food test as written, under which no search finds
      food: the food bonuses drop out. */
  ghost function DecisionAsWritten(snap: Snapshot, count: int): Answer
    requires WellFormed(snap)
  {
    if Raises(snap, count) then IndexError
    else Chose(Choose(Shift(RuleValues(snap, count), FloodBonus(snap))))
  }

  // ---------------------------------------------------------------------------------
  // The turn
  // ---------------------------------------------------------------------------------

  /** Lines 141-148: the neck test. */
  method NeckRule(head: Coord, neck: Coord, v: Values) returns (r: Values)
    ensures forall d :: Get(r, d) == Get(v, d) + NeckTerm(head, neck, d) as real
  {
    r := v;
    if neck.x < head.x {
      r := r.(left := r.left - BodyCollisionPenalty as real);
    } else if neck.x > head.x {
      r := r.(right := r.right - BodyCollisionPenalty as real);
    } else if neck.y < head.y {
      r := r.(down := r.down - BodyCollisionPenalty as real);
    } else if neck.y > head.y {
      r := r.(up := r.up - BodyCollisionPenalty as real);
    }
  }

  /** Lines 151-158: the border penalties. */
  method BorderRule(width: int, height: int, head: Coord, v: Values) returns (r: Values)
    ensures forall d :: Get(r, d) == Get(v, d) + BorderTerm(width, height, head, d) as real
  {
    r := v;
    if head.x <= 0 {
      r := r.(left := r.left - BorderPenalty as real);
    }
    if head.x >= width - 1 {
      r := r.(right := r.right - BorderPenalty as real);
    }
    if head.y <= 0 {
      r := r.(down := r.down - BorderPenalty as real);
    }
    if head.y >= height - 1 {
      r := r.(up := r.up - BorderPenalty as real);
    }
  }

  /** Lines 160-167: the close-border penalties. */
  method CloseBorderRule(width: int, height: int, head: Coord, v: Values) returns (r: Values)
    ensures forall d :: Get(r, d) == Get(v, d) + CloseBorderTerm(width, height, head, d) as real
  {
    r := v;
    if head.x <= 1 {
      r := r.(left := r.left - CloseBorderPenalty as real);
    }
    if head.x >= width - 2 {
      r := r.(right := r.right - CloseBorderPenalty as real);
    }
    if head.y <= 1 {
      r := r.(down := r.down - CloseBorderPenalty as real);
    }
    if head.y >= height - 2 {
      r := r.(up := r.up - CloseBorderPenalty as real);
    }
  }

  /** Lines 170-177 (the own body) and 181-188 (the second listed snake's body): the
      collision penalties for one body. */
  method BodyRule(body: seq<Coord>, head: Coord, v: Values) returns (r: Values)
    ensures forall d :: Get(r, d) == Get(v, d) + BodyTerm(body, head, d) as real
  {
    r := v;
    if Coord(head.x + 1, head.y) in body {
      r := r.(right := r.right - BodyCollisionPenalty as real);
    }
    if Coord(head.x - 1, head.y) in body {
      r := r.(left := r.left - BodyCollisionPenalty as real);
    }
    if Coord(head.x, head.y - 1) in body {
      r := r.(down := r.down - BodyCollisionPenalty as real);
    }
    if Coord(head.x, head.y + 1) in body {
      r := r.(up := r.up - BodyCollisionPenalty as real);
    }
  }

  /** Lines 196-217: the head-on terms against one rival. */
  method HeadOnRule(myLength: int, rival: seq<Coord>, head: Coord, v: Values) returns (r: Values)
    requires |rival| >= 1
    ensures forall d :: Get(r, d) == Get(v, d) + HeadOnTerm(myLength, rival, head, d) as real
  {
    r := v;
    var rivalLength := |rival|;
    if Coord(head.x + 2, head.y) == rival[0] {
      if myLength <= rivalLength {
        r := r.(right := r.right - HeadOnCollisionPenalty as real);
      } else {
        r := r.(right := r.right + HeadOnCollisionPenalty as real);
      }
    }
    if Coord(head.x - 2, head.y) == rival[0] {
      if myLength <= rivalLength {
        r := r.(left := r.left - HeadOnCollisionPenalty as real);
      } else {
        r := r.(left := r.left + HeadOnCollisionPenalty as real);
      }
    }
    if Coord(head.x, head.y - 2) == rival[0] {
      if myLength <= rivalLength {
        r := r.(down := r.down - HeadOnCollisionPenalty as real);
      } else {
        r := r.(down := r.down + HeadOnCollisionPenalty as real);
      }
    }
    if Coord(head.x, head.y + 2) == rival[0] {
      if myLength <= rivalLength {
        r := r.(up := r.up - HeadOnCollisionPenalty as real);
      } else {
        r := r.(up := r.up + HeadOnCollisionPenalty as real);
      }
    }
  }

  /** Lines 222-231: adds food value / len(path) to each direction the item lies toward,
      when the path is not empty. */
  method AddFoodBonus(head: Coord, item: Coord, path: seq<Coord>, v: Values) returns (r: Values)
    ensures path == [] ==> r == v
    ensures path != [] ==>
              forall d :: Get(r, d) ==
                            Get(v, d) + if Toward(head, item, d) then FoodValue as real / |path| as real else 0.0
  {
    r := v;
    if path != [] {
      var distance := |path|;
      if item.x > head.x {
        r := r.(right := r.right + FoodValue as real / distance as real);
      }
      if item.x < head.x {
        r := r.(left := r.left + FoodValue as real / distance as real);
      }
      if item.y > head.y {
        r := r.(up := r.up + FoodValue as real / distance as real);
      }
      if item.y < head.y {
        r := r.(down := r.down + FoodValue as real / distance as real);
      }
    }
  }

  /** Lines 221-231 with the corrected food test: the bonus of one food item, found by a
      path search from the head. */
  method FoodRule(snap: Snapshot, head: Coord, item: Coord, v: Values) returns (r: Values)
    ensures forall d :: Get(r, d) == Get(v, d) + FoodTerm(SearchGrid(snap), head, item, d)
  {
    var isFood := c => FoodTest(c, [item]);
    var path := BfsShortestPath(snap, head, isFood);
    FoodPathLength(SearchGrid(snap), head, item, isFood, path);
    r := AddFoodBonus(head, item, path, v);
  }

  /** Lines 221-231 as written: the search never finds the item, so nothing is added. */
  method FoodRuleAsWritten(snap: Snapshot, head: Coord, item: Coord, v: Values) returns (r: Values)
    ensures r == v
  {
    var path := ShortestPathAsWritten(snap, head, item);
    r := AddFoodBonus(head, item, path, v);
  }

  /** Lines 234-240: the flood-fill bonus. */
  method FloodRule(area: nat, v: Values) returns (r: Values)
    ensures r == Shift(v, FloodTerm(area) as real)
  {
    r := v;
    if area != 0 {
      var bonus := (area * FloodFillBonus) as real;
      r := Values(r.right + bonus, r.left + bonus, r.up + bonus, r.down + bonus);
    }
  }

  /** Lines 141-217: the rules before the food bonuses, in the handler's order; raised
      reports the IndexError of line 181. */
  method OpeningRules(snap: Snapshot, count: int) returns (v: Values, raised: bool)
    requires WellFormed(snap)
    ensures raised <==> Raises(snap, count)
    ensures !raised ==> v == RuleValues(snap, count)
  {
    var head := snap.you.body[0];
    var neck := snap.you.body[1];
    v := Values(0.0, 0.0, 0.0, 0.0);
    v := NeckRule(head, neck, v);
    v := BorderRule(snap.width, snap.height, head, v);
    v := CloseBorderRule(snap.width, snap.height, head, v);
    v := BodyRule(snap.you.body, head, v);
    ghost var own := v;
    if count >= 2 {
      if |snap.snakes| < 2 {
        return v, true;
      }
      v := BodyRule(snap.snakes[1], head, v);
    }
    ghost var rivalBody := v;
    if count == 1 {
    } else if count >= 2 && |snap.snakes| > 1 {
      v := HeadOnRule(|snap.you.body|, snap.snakes[1], head, v);
    }
    raised := false;
    FixedRules(snap, count, own, rivalBody, v);
    ValuesExt(v, RuleValues(snap, count));
  }

  /** One turn, with the corrected food test: the opening rules, the food bonuses by one
      path search per item, the flood-fill bonus, then the decision. count is the number
      of snakes the game started with. */
  method Move(snap: Snapshot, count: int) returns (answer: Answer)
    requires WellFormed(snap)
    ensures answer == Decision(snap, count)
  {
    var head := snap.you.body[0];
    var v, raised := OpeningRules(snap, count);
    if raised {
      return IndexError;
    }
    ghost var fixed := v;
    ghost var g := SearchGrid(snap);
    for i := 0 to |snap.food|
      invariant forall d :: Get(v, d) == Get(fixed, d) + FoodSum(g, head, snap.food[..i], d)
    {
      ghost var before := v;
      v := FoodRule(snap, head, snap.food[i], v);
      FoodSumStep(g, head, snap.food, i, fixed, before, v);
    }
    assert snap.food[..|snap.food|] == snap.food;
    ValuesExt(v, BaseValues(snap, count));
    var area := GetFloodFillArea(snap, head);
    v := FloodRule(area, v);
    answer := Chose(Choose(v));
  }

  /** One turn as written: the same, but every food search uses the test of line 109. */
  method MoveAsWritten(snap: Snapshot, count: int) returns (answer: Answer)
    requires WellFormed(snap)
    ensures answer == DecisionAsWritten(snap, count)
  {
    var head := snap.you.body[0];
    var v, raised := OpeningRules(snap, count);
    if raised {
      return IndexError;
    }
    for i := 0 to |snap.food|
      invariant v == RuleValues(snap, count)
    {
      v := FoodRuleAsWritten(snap, head, snap.food[i], v);
    }
    var area := GetFloodFillArea(snap, head);
    v := FloodRule(area, v);
    answer := Chose(Choose(v));
  }

  /** The opening rules, as applied one after another, add up to the rule value. */
  lemma FixedRules(snap: Snapshot, count: int, own: Values, rivalBody: Values, fixed: Values)
    requires WellFormed(snap) && !Raises(snap, count)
    requires forall d :: Get(own, d) ==
                (NeckTerm(Head(snap), Neck(snap), d) + BorderTerm(snap.width, snap.height, Head(snap), d)
                 + CloseBorderTerm(snap.width, snap.height, Head(snap), d) + BodyTerm(snap.you.body, Head(snap), d)) as real
    requires forall d :: Get(rivalBody, d) == Get(own, d) + RivalTerm(snap, count, d) as real
    requires forall d :: Get(fixed, d) == Get(rivalBody, d) + RivalHeadOnTerm(snap, count, d) as real
    ensures forall d :: Get(fixed, d) == RuleValue(snap, count, d) as real
  {
  }

  /** One more food item extends the running food sums. */
  lemma FoodSumStep(g: Grid, head: Coord, food: seq<Coord>, i: nat, fixed: Values, before: Values, after: Values)
    requires i < |food|
    requires forall d :: Get(before, d) == Get(fixed, d) + FoodSum(g, head, food[..i], d)
    requires forall d :: Get(after, d) == Get(before, d) + FoodTerm(g, head, food[i], d)
    ensures forall d :: Get(after, d) == Get(fixed, d) + FoodSum(g, head, food[..i + 1], d)
  {
    assert food[..i + 1][..i] == food[..i];
  }

  /** Values agreeing in every direction are equal. */
  lemma ValuesExt(a: Values, b: Values)
    requires forall d :: Get(a, d) == Get(b, d)
    ensures a == b
  {
    assert Get(a, Right) == Get(b, Right) && Get(a, Left) == Get(b, Left);
    assert Get(a, Up) == Get(b, Up) && Get(a, Down) == Get(b, Down);
  }

  /** A search for one item whose results meet the search's three promises measures the
      shortest free path to that item. */
  lemma FoodPathLength(g: Grid, head: Coord, item: Coord, isFood: Coord -> bool, path: seq<Coord>)
    requires forall c :: isFood(c) <==> c == item
    requires path == [] <==> forall c :: Reaches(g, head, c) ==> !isFood(c)
    requires path != [] ==> FreePath(g, head, path) && isFood(Last(path))
    requires path != [] ==> forall p :: FreePath(g, head, p) && isFood(Last(p)) ==> |path| <= |p|
    ensures path == [] <==> ShortestPathLength(g, head, item).None?
    ensures path != [] ==> |path| == ShortestPathLength(g, head, item).value
  {
    ShortestPathLengthMeaning(g, head, item);
    ReachesIffPath(g, head, item);
    if path != [] {
      assert Last(path) == item;
      var p :| FreePath(g, head, p) && Last(p) == item && |p| == ShortestPathLength(g, head, item).value;
      assert isFood(Last(p));
    } else {
      assert !Reaches(g, head, item);
    }
  }

  // ---------------------------------------------------------------------------------
  // Properties of the rules
  // ---------------------------------------------------------------------------------

  /** When the neck is one move from the head, the neck test penalises exactly the move
      onto it. */
  lemma NeckSideMeaning(head: Coord, neck: Coord)
    requires Adjacent(head, neck)
    ensures forall d :: NeckSide(head, neck) == Some(d) <==> Step(head, d) == neck
  {
  }

  /** The move onto the neck is penalised twice, by the neck test and because the neck is
      a segment of the own body; no other move reaches that total. */
  lemma NeckPenalisedTwice(snap: Snapshot, d: Direction)
    requires WellFormed(snap) && Adjacent(Head(snap), Neck(snap))
    ensures Step(Head(snap), d) == Neck(snap) <==>
              NeckTerm(Head(snap), Neck(snap), d) + BodyTerm(snap.you.body, Head(snap), d) == -2 * BodyCollisionPenalty
  {
  }

  /** The border term fires exactly for a move off the board, the close-border term
      exactly when two moves in that direction leave the board; so a move off the board
      always pays both. */
  lemma BorderMeaning(snap: Snapshot, d: Direction)
    requires WellFormed(snap)
    ensures var t := BorderTerm(snap.width, snap.height, Head(snap), d);
      (t == -BorderPenalty <==> !InBounds(snap, Step(Head(snap), d))) && (t == -BorderPenalty || t == 0)
    ensures var t := CloseBorderTerm(snap.width, snap.height, Head(snap), d);
      (t == -CloseBorderPenalty <==> !InBounds(snap, Step(Step(Head(snap), d), d))) && (t == -CloseBorderPenalty || t == 0)
    ensures !InBounds(snap, Step(Head(snap), d)) ==> !InBounds(snap, Step(Step(Head(snap), d), d))
  {
  }

  /** A direction carries a head-on term exactly when the rival's head lies two cells
      away from the head in a straight line in that direction. */
  lemma HeadOnStraightLine(myLength: int, rival: seq<Coord>, head: Coord, d: Direction)
    requires |rival| >= 1
    ensures HeadOnTerm(myLength, rival, head, d) != 0 <==>
              rival[0].x == head.x + 2 * DX(d) && rival[0].y == head.y + 2 * DY(d)
    ensures HeadOnTerm(myLength, rival, head, d) != 0 ==> Manhattan(head, rival[0]) == 2
  {
  }

  /** At most one direction carries a head-on term, and its sign says whether the
      controlled snake is the longer one. */
  lemma HeadOnSingleDirection(myLength: int, rival: seq<Coord>, head: Coord, d: Direction, e: Direction)
    requires |rival| >= 1 && HeadOnTerm(myLength, rival, head, d) != 0 && HeadOnTerm(myLength, rival, head, e) != 0
    ensures d == e
    ensures HeadOnTerm(myLength, rival, head, d) > 0 <==> myLength > |rival|
  {
  }

  /** In a game that started with one snake, or with none, no rule looks at another
      snake's body; the head-on rule also stays silent while fewer than two snakes are
      listed. Otherwise both rules read the second listed snake. */
  lemma RivalRulesScope(snap: Snapshot, count: int, d: Direction)
    requires WellFormed(snap) && !Raises(snap, count)
    ensures count <= 1 ==> RivalTerm(snap, count, d) == 0 && RivalHeadOnTerm(snap, count, d) == 0
    ensures |snap.snakes| <= 1 ==> RivalHeadOnTerm(snap, count, d) == 0
    ensures count >= 2 ==>
              && RivalTerm(snap, count, d) == BodyTerm(snap.snakes[1], Head(snap), d)
              && RivalHeadOnTerm(snap, count, d) == HeadOnTerm(|snap.you.body|, snap.snakes[1], Head(snap), d)
  {
  }

  /** The bonus of one food item is positive exactly when a free path leads to it and it
      lies toward d; it is then at most half the food value, since such an item is not the
      head and a path to it has at least two cells. */
  lemma FoodTermMeaning(g: Grid, head: Coord, f: Coord, d: Direction)
    ensures FoodTerm(g, head, f, d) > 0.0 <==> Reaches(g, head, f) && Toward(head, f, d)
    ensures 0.0 <= FoodTerm(g, head, f, d) <= FoodValue as real / 2.0
  {
  }

  /** A food item never adds to both of two opposite directions. */
  lemma FoodTermOpposite(g: Grid, head: Coord, f: Coord, d: Direction)
    ensures FoodTerm(g, head, f, d) == 0.0 || FoodTerm(g, head, f, Opposite(d)) == 0.0
  {
  }

  /** On a board whose every cell but the head's is free, the bonus of an item is the food
      value over one more than its Manhattan distance. */
  lemma FoodTermObstacleFree(g: Grid, head: Coord, f: Coord, d: Direction)
    requires OnGrid(g, head) && OnGrid(g, f)
    requires forall c :: OnGrid(g, c) && c != head ==> Free(g, c)
    ensures FoodTerm(g, head, f, d) ==
              if Toward(head, f, d) then FoodValue as real / (Manhattan(head, f) + 1) as real else 0.0
  {
    ObstacleFreeShortest(g, head, f);
  }

  /** The food bonuses of a list add to d exactly when some listed item is reachable and
      lies toward d, and they stay under half the food value per item. */
  lemma {:induction false} FoodSumMeaning(g: Grid, head: Coord, food: seq<Coord>, d: Direction)
    ensures FoodSum(g, head, food, d) > 0.0 <==>
              exists i :: 0 <= i < |food| && Reaches(g, head, food[i]) && Toward(head, food[i], d)
    ensures 0.0 <= FoodSum(g, head, food, d) <= FoodValue as real / 2.0 * |food| as real
    decreases |food|
  {
    if food != [] {
      var n := |food| - 1;
      var init := food[..n];
      FoodSumMeaning(g, head, init, d);
      FoodTermMeaning(g, head, food[n], d);
      if exists i :: 0 <= i < |init| && Reaches(g, head, init[i]) && Toward(head, init[i], d) {
        var i :| 0 <= i < |init| && Reaches(g, head, init[i]) && Toward(head, init[i], d);
        assert food[i] == init[i];
      }
      if exists i :: 0 <= i < |food| && Reaches(g, head, food[i]) && Toward(head, food[i], d) {
        var i :| 0 <= i < |food| && Reaches(g, head, food[i]) && Toward(head, food[i], d);
        if i < n {
          assert init[i] == food[i];
        }
      }
    }
  }

  // ---------------------------------------------------------------------------------
  // Properties of the decision
  // ---------------------------------------------------------------------------------

  /** The two properties of Choose's contract single out the chosen direction. */
  lemma ChooseUnique(v: Values, e: Direction)
    requires forall d :: Get(v, d) <= Get(v, e)
    requires forall d :: Rank(d) < Rank(e) ==> Get(v, d) < Get(v, e)
    ensures Choose(v) == e
  {
    var c := Choose(v);
    assert Get(v, c) == Get(v, e);
    assert Rank(c) == Rank(e);
  }

  /** Adding the same amount to every value does not change the choice. */
  lemma ChooseShift(v: Values, c: real)
    ensures Choose(Shift(v, c)) == Choose(v)
  {
  }

  /** The flood-fill bonus is the same for all four directions, so it never changes the
      decision. */
  lemma FloodNeverDecides(snap: Snapshot, count: int)
    requires WellFormed(snap) && !Raises(snap, count)
    ensures Decision(snap, count) == Chose(Choose(BaseValues(snap, count)))
  {
  }

  /** When the controlled snake's head is among the listed snakes' segments, as it is on
      a game board, the flood fill starts on a marked cell and the bonus is zero. */
  lemma FloodBonusVanishes(snap: Snapshot, i: nat)
    requires WellFormed(snap) && i < |snap.snakes| && Head(snap) in snap.snakes[i]
    ensures FloodBonus(snap) == 0.0
  {
    HeadListedNoArea(snap, i);
  }

  /** With fewer than a hundred food items, the turn never moves off the board when some
      move stays on it: a move off the board costs more than any food can make up. */
  lemma StaysOnBoard(snap: Snapshot, count: int, e: Direction)
    requires WellFormed(snap) && !Raises(snap, count) && |snap.food| < 100
    requires InBounds(snap, Step(Head(snap), e))
    ensures InBounds(snap, Step(Head(snap), Choose(FinalValues(snap, count))))
  {
    var v := FinalValues(snap, count);
    var c := Choose(v);
    if !InBounds(snap, Step(Head(snap), c)) {
      ValueBounds(snap, count, e);
      ValueBounds(snap, count, c);
      assert false;
    }
  }

  /** Bounds on a direction's value, for a move on and off the board. */
  lemma ValueBounds(snap: Snapshot, count: int, d: Direction)
    requires WellFormed(snap) && !Raises(snap, count)
    ensures InBounds(snap, Step(Head(snap), d)) ==> BaseValue(snap, count, d) >= -402.0
    ensures !InBounds(snap, Step(Head(snap), d)) ==>
              BaseValue(snap, count, d) <= -902.0 + FoodValue as real / 2.0 * |snap.food| as real
  {
    BorderMeaning(snap, d);
    FoodSumMeaning(SearchGrid(snap), Head(snap), snap.food, d);
  }

  // ---------------------------------------------------------------------------------
  // The food test as written, on one board
  // ---------------------------------------------------------------------------------

  /** A solo game on an 11 by 11 board: the head in the middle, the neck below it, and
      food two cells above. */
  const FoodExample: Snapshot :=
    Snapshot(11, 11, [Coord(5, 7)], [[Coord(5, 5), Coord(5, 4), Coord(5, 3)]],
             Agent([Coord(5, 5), Coord(5, 4), Coord(5, 3)], 100))

  /** The food is three cells away along a shortest free path, head included. */
  lemma FoodExamplePath()
    ensures ShortestPathLength(SearchGrid(FoodExample), Coord(5, 5), Coord(5, 7)) == Some(3)
  {
    var snap := FoodExample;
    var g := SearchGrid(snap);
    var head, food := Coord(5, 5), Coord(5, 7);
    SegmentsOfMembership(snap.snakes, Coord(5, 6));
    SegmentsOfMembership(snap.snakes, food);
    assert Free(g, Coord(5, 6)) && Free(g, food);
    ExpandHas(g, Within(g, head, 0), head, Up);
    ExpandHas(g, Within(g, head, 1), Coord(5, 6), Up);
    forall j: nat | j < 2 ensures food !in Within(g, head, j) {
      if food in Within(g, head, j) {
        WithinManhattan(g, head, j, food);
      }
    }
    ShortestPathLengthAt(g, head, food, 3);
  }

  /** The neck and the body both cost the move down; nothing else applies. */
  lemma FoodExampleRules()
    ensures WellFormed(FoodExample)
    ensures RuleValues(FoodExample, 1) == Values(0.0, 0.0, 0.0, -200.0)
  {
  }

  /** The head is one of the listed segments, so the flood fill adds nothing. */
  lemma FoodExampleFlood()
    ensures WellFormed(FoodExample) && FloodBonus(FoodExample) == 0.0
  {
    assert Head(FoodExample) in FoodExample.snakes[0];
    FloodBonusVanishes(FoodExample, 0);
  }

  /** The one food item is worth a third of the food value to the move up. */
  lemma FoodExampleFood()
    ensures BaseValues(FoodExample, 1) == Values(0.0, 0.0, 10.0 / 3.0, -200.0)
  {
    var snap := FoodExample;
    FoodExampleRules();
    FoodExamplePath();
    assert snap.food[..0] == [];
  }

  /** As written, the turn goes right, the first of the three directions left at zero. */
  lemma FoodExampleAsWritten()
    ensures DecisionAsWritten(FoodExample, 1) == Chose(Right)
  {
    FoodExampleRules();
    FoodExampleFlood();
    assert Shift(RuleValues(FoodExample, 1), FloodBonus(FoodExample)) == Values(0.0, 0.0, 0.0, -200.0);
  }

  /** With the corrected food test, the turn goes up, toward the food. */
  lemma FoodExampleCorrected()
    ensures Decision(FoodExample, 1) == Chose(Up)
  {
    FoodExampleFood();
    FoodExampleFlood();
    assert FinalValues(FoodExample, 1) == Values(0.0, 0.0, 10.0 / 3.0, -200.0);
  }
}
