/** The breadth-first search for the shortest free path from the head to food
    (api/index.py, lines 100-125). */
module Search {
  import opened Wrappers
  import opened Geometry
  import opened Board
  import opened Reach

  /** n lies outside the controlled snake's body and outside every listed snake's body. */
  function Unobstructed(snap: Snapshot, n: Coord): (r: bool)
    ensures r <==> n !in SearchGrid(snap).blocked
  {
    SegmentsOfMembership(snap.snakes, n);
    n !in snap.you.body && forall k :: 0 <= k < |snap.snakes| ==> n !in snap.snakes[k]
  }

  /** The cell n is one the search may enqueue: on the board, outside every body and not
      yet visited. */
  function Enqueueable(snap: Snapshot, visited: set<Coord>, n: Coord): (r: bool)
    ensures r <==> Free(SearchGrid(snap), n) && n !in visited
  {
    0 <= n.x < snap.width && 0 <= n.y < snap.height && n !in visited && Unobstructed(snap, n)
  }

  /** The neighbours of c in the first k directions of the search order that the search
      enqueues. */
  function Newcomers(snap: Snapshot, c: Coord, visited: set<Coord>, k: nat): seq<Coord>
    requires k <= |Directions|
  {
    if k == 0 then []
    else
      var n := Step(c, Directions[k - 1]);
      Newcomers(snap, c, visited, k - 1) + if Enqueueable(snap, visited, n) then [n] else []
  }

  /** Every newcomer is a free, unvisited neighbour of c in one of the first k directions,
      and every free, unvisited neighbour of c in those directions is a newcomer. */
  lemma {:induction false} NewcomersMeaning(snap: Snapshot, c: Coord, visited: set<Coord>, k: nat, n: Coord)
    requires k <= |Directions|
    ensures n in Newcomers(snap, c, visited, k) <==>
              && Free(SearchGrid(snap), n) && n !in visited
              && exists j :: 0 <= j < k && n == Step(c, Directions[j])
    decreases k
  {
    if k > 0 {
      NewcomersMeaning(snap, c, visited, k - 1, n);
    }
  }

  /** The neighbour in the k-th direction is not among the newcomers of the directions
      before it. */
  lemma NewcomersExtend(snap: Snapshot, c: Coord, visited: set<Coord>, k: nat)
    requires k < |Directions|
    ensures Step(c, Directions[k]) !in Newcomers(snap, c, visited, k)
  {
    NewcomersMeaning(snap, c, visited, k, Step(c, Directions[k]));
  }

  /** No cell is enqueued twice from the same cell. */
  lemma {:induction false} NewcomersDistinct(snap: Snapshot, c: Coord, visited: set<Coord>, k: nat)
    requires k <= |Directions|
    ensures Distinct(Newcomers(snap, c, visited, k))
    decreases k
  {
    if k > 0 {
      NewcomersDistinct(snap, c, visited, k - 1);
      NewcomersExtend(snap, c, visited, k - 1);
    }
  }

  predicate Distinct(q: seq<Coord>)
  {
    forall i, j :: 0 <= i < j < |q| ==> q[i] != q[j]
  }

  /** The inner loop of the search: enqueues, marks visited and records c as parent of
      each free, unvisited neighbour of c, in the order up, down, right, left. */
  method VisitNeighbours(snap: Snapshot, current: Coord, queue: seq<Coord>, visited: set<Coord>,
                         parent: map<Coord, Option<Coord>>)
      returns (queue': seq<Coord>, visited': set<Coord>, parent': map<Coord, Option<Coord>>)
    ensures queue' == queue + Newcomers(snap, current, visited, |Directions|)
    ensures visited' == visited + SetOf(Newcomers(snap, current, visited, |Directions|))
    ensures forall c :: c in parent' <==> c in parent || c in Newcomers(snap, current, visited, |Directions|)
    ensures forall c :: c in parent' ==>
      parent'[c] == if c in Newcomers(snap, current, visited, |Directions|) then Some(current) else parent[c]
  {
    queue', visited', parent' := queue, visited, parent;
    ghost var added: seq<Coord> := [];
    for i := 0 to |Directions|
      invariant added == Newcomers(snap, current, visited, i)
      invariant queue' == queue + added
      invariant visited' == visited + SetOf(added)
      invariant forall c :: c in parent' <==> c in parent || c in added
      invariant forall c :: c in parent' ==> parent'[c] == if c in added then Some(current) else parent[c]
    {
      var neighbor := Step(current, Directions[i]);
      NewcomersExtend(snap, current, visited, i);
      assert neighbor in visited' <==> neighbor in visited;
      assert Newcomers(snap, current, visited, i + 1) ==
        added + if Enqueueable(snap, visited, neighbor) then [neighbor] else [];
      if 0 <= neighbor.x < snap.width && 0 <= neighbor.y < snap.height {
        if neighbor !in visited' {
          if Unobstructed(snap, neighbor) {
            queue' := queue' + [neighbor];
            visited' := visited' + {neighbor};
            parent' := parent'[neighbor := Some(current)];
            added := added + [neighbor];
          }
        }
      }
    }
  }

  function Reverse(p: seq<Coord>): (r: seq<Coord>)
    ensures |r| == |p| && forall i :: 0 <= i < |p| ==> r[i] == p[|p| - 1 - i]
  {
    if p == [] then [] else Reverse(p[1..]) + [p[0]]
  }

  /** The parent map and the ghost distances describe a tree of free paths rooted at s:
      s has no parent and distance 0; every other cell has a parent one move away, one
      step closer to s, and is itself free. */
  ghost predicate Parented(g: Grid, s: Coord, parent: map<Coord, Option<Coord>>, dist: map<Coord, nat>)
  {
    && s in parent && parent[s] == None && s in dist && dist[s] == 0
    && (forall c :: c in parent ==> c in dist)
    && (forall c {:trigger parent[c]} :: c in parent && c != s ==>
          && parent[c].Some? && parent[c].value in parent
          && dist[c] == dist[parent[c].value] + 1
          && Adjacent(parent[c].value, c) && Free(g, c))
  }

  /** p, read backwards, is a walk whose every cell but the last is free and shares an
      edge with the cell after it. */
  ghost predicate BackWalk(g: Grid, p: seq<Coord>)
  {
    forall i :: 0 <= i < |p| - 1 ==> Free(g, p[i]) && Adjacent(p[i + 1], p[i])
  }

  /** Lines 110-115: follows the parent links from target back to s, then reverses. */
  method TracePath(parent: map<Coord, Option<Coord>>, target: Coord,
                   ghost g: Grid, ghost s: Coord, ghost dist: map<Coord, nat>)
      returns (path: seq<Coord>)
    requires Parented(g, s, parent, dist) && target in parent
    ensures FreePath(g, s, path) && Last(path) == target && |path| == dist[target] + 1
  {
    path := [];
    var current := Some(target);
    while current.Some?
      invariant current.Some? ==> current.value in parent
      invariant BackWalk(g, path)
      invariant path == [] ==> current == Some(target)
      invariant path != [] ==> path[0] == target
      invariant current.Some? && path != [] ==>
        Free(g, path[|path| - 1]) && Adjacent(current.value, path[|path| - 1])
      invariant current.Some? ==> |path| + dist[current.value] == dist[target]
      invariant current.None? ==> path != [] && path[|path| - 1] == s && |path| == dist[target] + 1
      decreases if current.Some? then dist[current.value] + 1 else 0
    {
      var c := current.value;
      BackWalkExtend(g, path, c);
      path := path + [c];
      current := parent[c];
    }
    BackWalkReversed(g, s, path);
    path := Reverse(path);
  }

  lemma BackWalkExtend(g: Grid, p: seq<Coord>, c: Coord)
    requires BackWalk(g, p)
    requires p != [] ==> Free(g, p[|p| - 1]) && Adjacent(c, p[|p| - 1])
    ensures BackWalk(g, p + [c])
  {
  }

  /** A backward walk that ends at s, reversed, is a free path from s. */
  lemma BackWalkReversed(g: Grid, s: Coord, p: seq<Coord>)
    requires BackWalk(g, p) && p != [] && p[|p| - 1] == s
    ensures FreePath(g, s, Reverse(p)) && Last(Reverse(p)) == p[0]
  {
    var r := Reverse(p);
    forall i | 1 <= i < |r| ensures Free(g, r[i]) && Adjacent(r[i - 1], r[i]) {
      assert r[i] == p[|p| - 1 - i] && r[i - 1] == p[|p| - 1 - i + 1];
    }
  }

  /** Every free neighbour of v has been visited. */
  ghost predicate Expanded(g: Grid, v: Coord, visited: set<Coord>)
  {
    forall d :: Free(g, Step(v, d)) ==> Step(v, d) in visited
  }

  /** The visited cells are the keys of the parent tree, and each has as ghost distance the
      first level that holds it. */
  ghost predicate TreeInv(g: Grid, s: Coord, visited: set<Coord>, parent: map<Coord, Option<Coord>>,
                          dist: map<Coord, nat>)
  {
    && (forall c :: c in visited <==> c in parent)
    && Parented(g, s, parent, dist)
    && (forall v :: v in visited ==> FirstLevel(g, s, v, dist[v]))
  }

  /** The queue lists, without repeats, exactly the visited cells not yet done. */
  ghost predicate QueueMembers(queue: seq<Coord>, visited: set<Coord>, dist: map<Coord, nat>, done: set<Coord>)
  {
    && (forall v :: v in visited ==> v in dist)
    && (forall i :: 0 <= i < |queue| ==> queue[i] in visited && queue[i] !in done)
    && Distinct(queue)
    && done <= visited
    && (forall v :: v in visited ==> v in done || v in queue)
  }

  /** The queue is in order of distance and spans at most two distances. */
  ghost predicate Layered(queue: seq<Coord>, dist: map<Coord, nat>)
  {
    && (forall i :: 0 <= i < |queue| ==> queue[i] in dist)
    && (forall i, j :: 0 <= i <= j < |queue| ==> dist[queue[i]] <= dist[queue[j]] <= dist[queue[i]] + 1)
  }

  ghost predicate QueueInv(queue: seq<Coord>, visited: set<Coord>, dist: map<Coord, nat>, done: set<Coord>)
  {
    QueueMembers(queue, visited, dist, done) && Layered(queue, dist)
  }

  /** The done cells have every free neighbour visited and are not goals. */
  ghost predicate DoneInv(g: Grid, goal: Coord -> bool, visited: set<Coord>, done: set<Coord>)
  {
    forall v :: v in done ==> Expanded(g, v, visited) && !goal(v)
  }

  /** Every cell up to the distance of the queue's front has been visited. */
  ghost predicate CoverInv(g: Grid, s: Coord, queue: seq<Coord>, visited: set<Coord>, dist: map<Coord, nat>)
  {
    queue != [] && queue[0] in dist ==> forall w :: w in Within(g, s, dist[queue[0]]) ==> w in visited
  }

  /** The invariant of the search loop, stated with the ghost distance of every visited
      cell and the ghost set done of the cells already dequeued and expanded. */
  ghost predicate Searching(g: Grid, s: Coord, goal: Coord -> bool, queue: seq<Coord>,
                            visited: set<Coord>, parent: map<Coord, Option<Coord>>,
                            dist: map<Coord, nat>, done: set<Coord>)
  {
    && TreeInv(g, s, visited, parent, dist)
    && QueueInv(queue, visited, dist, done)
    && DoneInv(g, goal, visited, done)
    && CoverInv(g, s, queue, visited, dist)
  }

  /** The search starts with only s queued, visited and in the tree. */
  lemma Initial(g: Grid, s: Coord, goal: Coord -> bool)
    ensures Searching(g, s, goal, [s], {s}, map[s := None], map[s := 0], {})
  {
    assert FirstLevel(g, s, s, 0);
  }

  /** The free, unvisited neighbours of current, in search order. */
  function Fresh(snap: Snapshot, current: Coord, visited: set<Coord>): seq<Coord>
  {
    Newcomers(snap, current, visited, |Directions|)
  }

  /** The newcomers of c are distinct free, unvisited neighbours of c, and once they are
      visited c has every free neighbour visited. */
  lemma FreshMeaning(snap: Snapshot, c: Coord, visited: set<Coord>)
    ensures forall n :: n in Fresh(snap, c, visited) ==>
      Free(SearchGrid(snap), n) && n !in visited && Adjacent(c, n)
    ensures Distinct(Fresh(snap, c, visited))
    ensures Expanded(SearchGrid(snap), c, visited + SetOf(Fresh(snap, c, visited)))
  {
    var g, news := SearchGrid(snap), Fresh(snap, c, visited);
    forall n | n in news ensures Free(g, n) && n !in visited && Adjacent(c, n) {
      NewcomersMeaning(snap, c, visited, |Directions|, n);
    }
    NewcomersDistinct(snap, c, visited, |Directions|);
    forall d | Free(g, Step(c, d)) ensures Step(c, d) in visited + SetOf(news) {
      AllInDirections(d);
      var j :| 0 <= j < |Directions| && Directions[j] == d;
      NewcomersMeaning(snap, c, visited, |Directions|, Step(c, d));
    }
  }

  /** One round of the search loop keeps its invariant: the front of the queue is not a
      goal, so it is dequeued and done, and its newcomers are visited, queued at the next
      distance and given it as parent. The visited cells stay within the start and the
      free cells, and one more cell is done. */
  lemma Advance(snap: Snapshot, s: Coord, goal: Coord -> bool, queue: seq<Coord>,
                visited: set<Coord>, parent: map<Coord, Option<Coord>>, dist: map<Coord, nat>,
                done: set<Coord>, parent': map<Coord, Option<Coord>>)
    requires Searching(SearchGrid(snap), s, goal, queue, visited, parent, dist, done)
    requires queue != [] && !goal(queue[0])
    requires forall c :: c in parent' <==> c in parent || c in Fresh(snap, queue[0], visited)
    requires forall c :: c in parent' ==>
      parent'[c] == if c in Fresh(snap, queue[0], visited) then Some(queue[0]) else parent[c]
    ensures Searching(SearchGrid(snap), s, goal,
                      queue[1..] + Fresh(snap, queue[0], visited),
                      visited + SetOf(Fresh(snap, queue[0], visited)), parent',
                      dist + (map n | n in Fresh(snap, queue[0], visited) :: dist[queue[0]] + 1),
                      done + {queue[0]})
  {
    var g, c := SearchGrid(snap), queue[0];
    var news := Fresh(snap, c, visited);
    var queue', visited' := queue[1..] + news, visited + SetOf(news);
    var dist' := dist + (map n | n in news :: dist[c] + 1);
    var done' := done + {c};
    FreshMeaning(snap, c, visited);
    TreeGrows(g, s, queue, visited, parent, dist, done, news, parent', dist');
    QueueAdvances(queue, visited, dist, done, news, dist');
    DoneAdvances(g, goal, c, visited, done, visited');
    CoverAdvances(g, s, queue', visited', dist', done', dist[c]);
  }

  /** The visited cells stay within the start and the free cells, so the done cells, which
      are visited, number at most as many. */
  lemma Bounded(g: Grid, s: Coord, visited: set<Coord>, news: seq<Coord>, done: set<Coord>, c: Coord)
    requires visited <= FreeCells(g) + {s}
    requires forall n :: n in news ==> Free(g, n)
    requires c !in done && done + {c} <= visited + SetOf(news)
    ensures visited + SetOf(news) <= FreeCells(g) + {s}
    ensures |done| < |done + {c}| <= |FreeCells(g) + {s}|
  {
    SubsetCard(done + {c}, FreeCells(g) + {s});
  }

  /** The tree grows by the newcomers of the front c, each a child of c one step further
      from s, whose first level is one beyond the first level of c. */
  lemma TreeGrows(g: Grid, s: Coord, queue: seq<Coord>, visited: set<Coord>,
                  parent: map<Coord, Option<Coord>>, dist: map<Coord, nat>, done: set<Coord>,
                  news: seq<Coord>, parent': map<Coord, Option<Coord>>, dist': map<Coord, nat>)
    requires TreeInv(g, s, visited, parent, dist) && QueueInv(queue, visited, dist, done)
    requires CoverInv(g, s, queue, visited, dist) && queue != []
    requires forall n :: n in news ==> Free(g, n) && n !in visited && Adjacent(queue[0], n)
    requires forall v :: v in parent' <==> v in parent || v in news
    requires forall v :: v in parent' ==> parent'[v] == if v in news then Some(queue[0]) else parent[v]
    requires dist' == dist + (map n | n in news :: dist[queue[0]] + 1)
    ensures TreeInv(g, s, visited + SetOf(news), parent', dist')
    ensures CoverInv(g, s, queue, visited + SetOf(news), dist)
  {
    var c := queue[0];
    var D := dist[c];
    assert FirstLevel(g, s, c, D);
    forall v | v in parent' && v != s
      ensures && parent'[v].Some? && parent'[v].value in parent'
              && dist'[v] == dist'[parent'[v].value] + 1
              && Adjacent(parent'[v].value, v) && Free(g, v)
    {
      if v !in news {
        assert parent[v] == parent'[v];
      }
    }
    forall v | v in visited + SetOf(news) ensures FirstLevel(g, s, v, dist'[v]) {
      if v in news {
        NewLevel(g, s, c, D, v, visited);
      }
    }
  }

  /** A newcomer n of c, where c lies on level D and every cell of level D is visited, has
      D + 1 as its first level. */
  lemma NewLevel(g: Grid, s: Coord, c: Coord, D: nat, n: Coord, visited: set<Coord>)
    requires c in Within(g, s, D) && Free(g, n) && Adjacent(c, n) && n !in visited
    requires forall w :: w in Within(g, s, D) ==> w in visited
    ensures FirstLevel(g, s, n, D + 1)
  {
    AdjacentIsStep(c, n);
    var d :| d in Directions && n == Step(c, d);
    ExpandHas(g, Within(g, s, D), c, d);
    forall j: nat | j < D + 1 ensures Outside(g, s, n, j) {
      WithinMonotone(g, s, j, D);
    }
  }

  /** Dequeuing the front c and queuing its newcomers at distance dist[c] + 1 keeps the
      queue invariant, and the new front is at most one beyond the old. */
  lemma QueueAdvances(queue: seq<Coord>, visited: set<Coord>, dist: map<Coord, nat>,
                      done: set<Coord>, news: seq<Coord>, dist': map<Coord, nat>)
    requires QueueInv(queue, visited, dist, done) && queue != []
    requires Distinct(news) && forall n :: n in news ==> n !in visited
    requires dist' == dist + (map n | n in news :: dist[queue[0]] + 1)
    ensures QueueInv(queue[1..] + news, visited + SetOf(news), dist', done + {queue[0]})
    ensures queue[1..] + news != [] ==> dist'[(queue[1..] + news)[0]] <= dist[queue[0]] + 1
  {
    forall i | 1 <= i < |queue| ensures queue[i] in dist' && dist'[queue[i]] == dist[queue[i]] {
      assert queue[i] !in news;
    }
    MembersAdvance(queue, visited, dist, done, news, dist');
    LayersAdvance(queue, dist, news, dist');
  }

  /** Dequeuing the front and queuing the unvisited newcomers keeps the queue listing
      exactly the visited cells not yet done. */
  lemma MembersAdvance(queue: seq<Coord>, visited: set<Coord>, dist: map<Coord, nat>,
                       done: set<Coord>, news: seq<Coord>, dist': map<Coord, nat>)
    requires QueueMembers(queue, visited, dist, done) && queue != []
    requires Distinct(news) && forall n :: n in news ==> n !in visited && n in dist'
    requires forall v :: v in dist ==> v in dist'
    ensures QueueMembers(queue[1..] + news, visited + SetOf(news), dist', done + {queue[0]})
  {
    var c, rest := queue[0], queue[1..];
    var queue' := rest + news;
    forall i | 0 <= i < |rest| ensures rest[i] != c {
      assert rest[i] == queue[i + 1];
    }
    forall v | v in visited ensures v in done + {c} || v in queue' {
      if v in queue && v != c {
        var i :| 0 <= i < |queue| && queue[i] == v;
        assert rest[i - 1] == v;
      }
    }
    forall i, j | 0 <= i < j < |queue'| ensures queue'[i] != queue'[j] {
      if j < |rest| {
        assert queue'[i] == queue[i + 1] && queue'[j] == queue[j + 1];
      } else if i >= |rest| {
        assert queue'[i] == news[i - |rest|] && queue'[j] == news[j - |rest|];
      }
    }
  }

  /** Dequeuing the front c and queuing cells at distance dist[c] + 1 keeps the queue in
      order of distance, and the new front is at most one beyond c. */
  lemma LayersAdvance(queue: seq<Coord>, dist: map<Coord, nat>, news: seq<Coord>, dist': map<Coord, nat>)
    requires Layered(queue, dist) && queue != []
    requires forall i :: 1 <= i < |queue| ==> queue[i] in dist' && dist'[queue[i]] == dist[queue[i]]
    requires forall n :: n in news ==> n in dist' && dist'[n] == dist[queue[0]] + 1
    ensures Layered(queue[1..] + news, dist')
    ensures queue[1..] + news != [] ==> dist'[(queue[1..] + news)[0]] <= dist[queue[0]] + 1
  {
    var rest := queue[1..];
    var queue' := rest + news;
    var D := dist[queue[0]];
    forall i | 0 <= i < |queue'|
      ensures queue'[i] in dist' && D <= dist'[queue'[i]] <= D + 1
      ensures i >= |rest| ==> dist'[queue'[i]] == D + 1
    {
      if i < |rest| {
        assert queue'[i] == queue[i + 1];
      } else {
        assert queue'[i] == news[i - |rest|];
      }
    }
    forall i, j | 0 <= i <= j < |rest| ensures dist'[queue'[i]] <= dist'[queue'[j]] {
      assert queue'[i] == queue[i + 1] && queue'[j] == queue[j + 1];
    }
    TwoLayers(queue', dist', D, |rest|);
  }

  /** A sequence whose distances lie in D .. D + 1, are ordered on its first r elements and
      are D + 1 beyond them is in order of distance. */
  lemma TwoLayers(q: seq<Coord>, dist: map<Coord, nat>, D: nat, r: nat)
    requires forall i :: 0 <= i < |q| ==> q[i] in dist && D <= dist[q[i]] <= D + 1
    requires forall i :: r <= i < |q| ==> dist[q[i]] == D + 1
    requires forall i, j :: 0 <= i <= j < r && j < |q| ==> dist[q[i]] <= dist[q[j]]
    ensures Layered(q, dist)
  {
  }

  /** Marking the expanded non-goal c done keeps the done invariant as the visited cells
      grow. */
  lemma DoneAdvances(g: Grid, goal: Coord -> bool, c: Coord, visited: set<Coord>, done: set<Coord>,
                     visited': set<Coord>)
    requires DoneInv(g, goal, visited, done) && visited <= visited'
    requires Expanded(g, c, visited') && !goal(c)
    ensures DoneInv(g, goal, visited', done + {c})
  {
    forall v | v in done + {c} ensures Expanded(g, v, visited') && !goal(v) {
      if v != c {
        assert Expanded(g, v, visited);
      }
    }
  }

  /** Once every cell of level D is visited and the front of the queue is at distance at
      most D + 1, every cell up to the front's distance is visited: a cell one move beyond
      level D has a neighbour on level D, which is done because the queue holds only
      distances above D, and done cells have their free neighbours visited. */
  lemma CoverAdvances(g: Grid, s: Coord, queue: seq<Coord>, visited: set<Coord>,
                      dist: map<Coord, nat>, done: set<Coord>, D: nat)
    requires forall v :: v in visited ==> v in dist && FirstLevel(g, s, v, dist[v])
    requires QueueInv(queue, visited, dist, done)
    requires forall v :: v in done ==> Expanded(g, v, visited)
    requires forall w :: w in Within(g, s, D) ==> w in visited
    requires queue != [] ==> dist[queue[0]] <= D + 1
    ensures CoverInv(g, s, queue, visited, dist)
  {
    if queue != [] {
      var front := dist[queue[0]];
      if front <= D {
        WithinMonotone(g, s, front, D);
      } else {
        forall w | w in Within(g, s, front) ensures w in visited {
          var prev := Within(g, s, D);
          if w !in prev {
            ExpandFrom(g, prev, w);
            var b, d :| b in prev && d in Directions && w == Step(b, d);
            assert FirstLevel(g, s, b, dist[b]) && !Outside(g, s, b, D);
          }
        }
      }
    }
  }

  /** Lines 100-125: breadth-first search from start over the board, never entering a
      cell of any body, for the first dequeued cell that passes isFood. The result is a
      shortest free path from start to such a cell, or empty when none is reachable. */
  method BfsShortestPath(snap: Snapshot, start: Coord, isFood: Coord -> bool) returns (path: seq<Coord>)
    ensures path == [] <==> forall c :: Reaches(SearchGrid(snap), start, c) ==> !isFood(c)
    ensures path != [] ==> FreePath(SearchGrid(snap), start, path) && isFood(Last(path))
    ensures path != [] ==>
      forall p :: FreePath(SearchGrid(snap), start, p) && isFood(Last(p)) ==> |path| <= |p|
  {
    ghost var g := SearchGrid(snap);
    ghost var box := FreeCells(g) + {start};
    var queue := [start];
    var visited := {start};
    var parent := map[start := None];
    ghost var dist := map[start := 0];
    ghost var done: set<Coord> := {};
    Initial(g, start, isFood);
    while queue != []
      invariant Searching(g, start, isFood, queue, visited, parent, dist, done)
      invariant visited <= box
      decreases |box| - |done|
    {
      var current := queue[0];
      if isFood(current) {
        path := TracePath(parent, current, g, start, dist);
        Found(snap, start, isFood, queue, visited, parent, dist, done, path);
        return;
      }
      queue, visited, parent, dist, done := Expansion(snap, start, isFood, queue, visited, parent, dist, done);
    }
    Exhausted(snap, start, isFood, visited, parent, dist, done);
    return [];
  }

  /** A search whose start is itself food returns the one-cell path [start]: a search
      result meeting the promises of BfsShortestPath is then no longer than [start]. */
  lemma StartIsFood(g: Grid, start: Coord, isFood: Coord -> bool, path: seq<Coord>)
    requires isFood(start)
    requires path == [] <==> forall c :: Reaches(g, start, c) ==> !isFood(c)
    requires path != [] ==> FreePath(g, start, path) && isFood(Last(path))
    requires path != [] ==> forall p :: FreePath(g, start, p) && isFood(Last(p)) ==> |path| <= |p|
    ensures path == [start]
  {
    assert start in Within(g, start, 0);
    assert FreePath(g, start, [start]);
  }

  /** Lines 117-124, one round of the search for a dequeued front that is not food: its
      free, unvisited neighbours are queued, visited and given it as parent. The invariant
      is kept, the visited cells stay within the start and the free cells, and one more
      cell is done. */
  method Expansion(snap: Snapshot, ghost start: Coord, ghost isFood: Coord -> bool, queue: seq<Coord>,
                   visited: set<Coord>, parent: map<Coord, Option<Coord>>,
                   ghost dist: map<Coord, nat>, ghost done: set<Coord>)
      returns (queue': seq<Coord>, visited': set<Coord>, parent': map<Coord, Option<Coord>>,
               ghost dist': map<Coord, nat>, ghost done': set<Coord>)
    requires Searching(SearchGrid(snap), start, isFood, queue, visited, parent, dist, done)
    requires visited <= FreeCells(SearchGrid(snap)) + {start}
    requires queue != [] && !isFood(queue[0])
    ensures Searching(SearchGrid(snap), start, isFood, queue', visited', parent', dist', done')
    ensures visited' <= FreeCells(SearchGrid(snap)) + {start}
    ensures |done| < |done'| <= |FreeCells(SearchGrid(snap)) + {start}|
  {
    var current := queue[0];
    ghost var news := Fresh(snap, current, visited);
    queue', visited', parent' := VisitNeighbours(snap, current, queue[1..], visited, parent);
    dist' := dist + (map n | n in news :: dist[current] + 1);
    done' := done + {current};
    Advance(snap, start, isFood, queue, visited, parent, dist, done, parent');
    FreshMeaning(snap, current, visited);
    Bounded(SearchGrid(snap), start, visited, news, done, current);
  }

  /** When the front of the queue passes isFood, the path traced back from it is as short
      as any free path to a cell that passes: a shorter one would end on a level that is
      fully visited, at a cell neither done (done cells fail isFood) nor queued (queued
      cells lie no nearer than the front). */
  lemma Found(snap: Snapshot, s: Coord, isFood: Coord -> bool, queue: seq<Coord>, visited: set<Coord>,
              parent: map<Coord, Option<Coord>>, dist: map<Coord, nat>, done: set<Coord>,
              path: seq<Coord>)
    requires Searching(SearchGrid(snap), s, isFood, queue, visited, parent, dist, done)
    requires queue != [] && isFood(queue[0])
    requires FreePath(SearchGrid(snap), s, path) && Last(path) == queue[0] && |path| == dist[queue[0]] + 1
    ensures path == [] <==> forall c :: Reaches(SearchGrid(snap), s, c) ==> !isFood(c)
    ensures path != [] ==> FreePath(SearchGrid(snap), s, path) && isFood(Last(path))
    ensures path != [] ==>
      forall p :: FreePath(SearchGrid(snap), s, p) && isFood(Last(p)) ==> |path| <= |p|
  {
    var g := SearchGrid(snap);
    ReachesIffPath(g, s, Last(path));
    forall p | FreePath(g, s, p) && isFood(Last(p)) ensures |path| <= |p| {
      PathWithin(g, s, p);
      if |p| - 1 < dist[queue[0]] {
        NoNearerFood(g, s, isFood, queue, visited, parent, dist, done, Last(p), |p| - 1);
      }
    }
  }

  /** No cell on a level below the front's distance passes isFood: such a cell is visited
      but cannot be queued, since queued cells lie no nearer than the front, so it is done. */
  lemma NoNearerFood(g: Grid, s: Coord, isFood: Coord -> bool, queue: seq<Coord>, visited: set<Coord>,
                     parent: map<Coord, Option<Coord>>, dist: map<Coord, nat>, done: set<Coord>,
                     t: Coord, k: nat)
    requires Searching(g, s, isFood, queue, visited, parent, dist, done)
    requires queue != [] && k < dist[queue[0]] && t in Within(g, s, k)
    ensures !isFood(t)
  {
    WithinMonotone(g, s, k, dist[queue[0]]);
    assert t in visited;
    assert FirstLevel(g, s, t, dist[t]) && !Outside(g, s, t, k);
  }

  /** When the queue runs empty every visited cell is done, so every reachable cell has
      been visited and failed isFood. */
  lemma Exhausted(snap: Snapshot, s: Coord, isFood: Coord -> bool, visited: set<Coord>,
                  parent: map<Coord, Option<Coord>>, dist: map<Coord, nat>, done: set<Coord>)
    requires Searching(SearchGrid(snap), s, isFood, [], visited, parent, dist, done)
    ensures forall c :: Reaches(SearchGrid(snap), s, c) ==> !isFood(c)
  {
    var g := SearchGrid(snap);
    forall c | Reaches(g, s, c) ensures !isFood(c) {
      var k: nat :| c in Within(g, s, k);
      ExhaustedLevels(g, s, isFood, visited, parent, dist, done, k);
    }
  }

  lemma {:induction false} ExhaustedLevels(g: Grid, s: Coord, isFood: Coord -> bool, visited: set<Coord>,
                                           parent: map<Coord, Option<Coord>>, dist: map<Coord, nat>,
                                           done: set<Coord>, k: nat)
    requires Searching(g, s, isFood, [], visited, parent, dist, done)
    ensures Within(g, s, k) <= done
    decreases k
  {
    if k > 0 {
      ExhaustedLevels(g, s, isFood, visited, parent, dist, done, k - 1);
      var prev := Within(g, s, k - 1);
      forall w | w in Within(g, s, k) ensures w in done {
        if w !in prev {
          ExpandFrom(g, prev, w);
          var b, d :| b in prev && d in Directions && w == Step(b, d);
          assert Expanded(g, b, visited);
        }
      }
    } else {
      assert s in parent;
    }
  }
}
