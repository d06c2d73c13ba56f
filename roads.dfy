/** The road router of roads.py: a 4-neighbour A* search over a cost grid,
    and `build_roads`, which routes consecutive cities and marks the sampled
    tiles of each route on a boolean road mask. */
module Roads {
  import opened Common

  const SEA_LEVEL: real := 0.26

  /** The cost of entering a water tile (`1e6`). */
  const WATER_COST: real := 1000000.0

  // ---------------------------------------------------------------------
  // Cost grid and heuristic (roads.py:24-25, 95-96)
  // ---------------------------------------------------------------------

  /** `cost = 1.0 + elevation * 3.0` with `cost[elevation < sea_level] = 1e6`. */
  function CostGrid(elev: Grid<real>, sea: real): (cost: Grid<real>)
    requires Rect(elev)
    ensures Shaped(cost, |elev|, Cols(elev))
  {
    seq(|elev|, y requires 0 <= y < |elev| =>
      seq(Cols(elev), x requires 0 <= x < Cols(elev) => if elev[y][x] < sea then WATER_COST else 1.0 + 3.0 * elev[y][x]))
  }

  /** Water costs 1e6; land costs 1 + 3e, which is positive as soon as the
      sea level is above -1/3, and at least 1 on land of non-negative
      elevation. */
  lemma CostFacts(elev: Grid<real>, sea: real, y: int, x: int)
    requires Rect(elev) && 0 <= y < |elev| && 0 <= x < Cols(elev)
    ensures elev[y][x] < sea ==> CostGrid(elev, sea)[y][x] == WATER_COST
    ensures elev[y][x] >= sea ==> CostGrid(elev, sea)[y][x] == 1.0 + 3.0 * elev[y][x]
    ensures 3.0 * sea > -1.0 ==> CostGrid(elev, sea)[y][x] > 0.0
    ensures sea >= 0.0 ==> CostGrid(elev, sea)[y][x] >= 1.0
  {
  }

  /** Every entry of `cost` is positive. */
  ghost predicate PositiveCosts(cost: Grid<real>) {
    forall y, x :: 0 <= y < |cost| && 0 <= x < |cost[y]| ==> cost[y][x] > 0.0
  }

  /** Every entry of `cost` is at least 1. */
  ghost predicate UnitCosts(cost: Grid<real>) {
    forall y, x :: 0 <= y < |cost| && 0 <= x < |cost[y]| ==> cost[y][x] >= 1.0
  }

  /** `heur`: the Manhattan distance, as the priority's real. */
  function Heur(a: Tile, b: Tile): real {
    Manhattan(a, b) as real
  }

  /** Step `i` of the walk `p` goes to a 4-neighbour on the grid. */
  ghost predicate Step(cost: Grid<real>, p: seq<Tile>, i: int)
    requires 1 <= i < |p|
  {
    Adjacent(p[i - 1], p[i]) && 0 <= p[i].y < |cost| && 0 <= p[i].x < |cost[p[i].y]|
  }

  /** `p` is a walk of 4-neighbours whose every step enters a tile of the grid. */
  ghost predicate Route(cost: Grid<real>, p: seq<Tile>) {
    forall i :: 1 <= i < |p| ==> Step(cost, p, i)
  }

  /** The cost of a walk: the sum of the costs of the tiles it enters. */
  ghost function RouteCost(cost: Grid<real>, p: seq<Tile>): real
    requires Route(cost, p)
  {
    if |p| <= 1 then 0.0
    else
      var q := p[..|p| - 1];
      assert Route(cost, q) by {
        forall i | 1 <= i < |q| ensures Step(cost, q, i) { assert Step(cost, p, i); }
      }
      assert Step(cost, p, |p| - 1);
      RouteCost(cost, q) + At(cost, p[|p| - 1])
  }

  /** The heuristic is admissible: when every step costs at least 1, no walk
      from `a` to `b` costs less than their Manhattan distance. */
  lemma {:induction false} HeurAdmissible(cost: Grid<real>, p: seq<Tile>)
    requires UnitCosts(cost) && Route(cost, p) && |p| >= 1
    ensures Heur(p[0], p[|p| - 1]) <= RouteCost(cost, p)
  {
    if |p| > 1 {
      var q := p[..|p| - 1];
      assert Route(cost, q) by {
        forall i | 1 <= i < |q| ensures Step(cost, q, i) { assert Step(cost, p, i); }
      }
      HeurAdmissible(cost, q);
      assert Step(cost, p, |p| - 1);
    }
  }

  /** The heuristic is consistent: one step to a neighbour lowers it by at
      most the step's cost when steps cost at least 1. */
  lemma HeurConsistent(cost: Grid<real>, a: Tile, b: Tile, goal: Tile)
    requires UnitCosts(cost) && Adjacent(a, b) && 0 <= b.y < |cost| && 0 <= b.x < |cost[b.y]|
    ensures Heur(a, goal) <= At(cost, b) + Heur(b, goal)
  {
    assert At(cost, b) >= 1.0;
  }

  // ---------------------------------------------------------------------
  // The open set (roads.py:19-20, 28, 39)
  // ---------------------------------------------------------------------

  /** An entry `(priority, (y, x))` of the heap. */
  datatype Entry = Entry(priority: real, tile: Tile)

  /** Python's order on such tuples: by priority, then by (y, x). */
  predicate EntryLess(a: Entry, b: Entry) {
    a.priority < b.priority || (a.priority == b.priority && RowMajorLess(a.tile, b.tile))
  }

  /** `heapq.heappop`: remove a least entry. The heap is kept as the list of
      its entries; which of two equal entries goes first cannot be told apart. */
  method PopMin(open: seq<Entry>) returns (e: Entry, rest: seq<Entry>)
    requires |open| > 0
    ensures multiset(rest) + multiset{e} == multiset(open)
    ensures e in open && forall f :: f in rest ==> f in open
    ensures forall f :: f in open ==> !EntryLess(f, e)
  {
    var i := 0;
    for k := 1 to |open|
      invariant 0 <= i < |open|
      invariant forall j :: 0 <= j < k ==> !EntryLess(open[j], open[i])
    {
      if EntryLess(open[k], open[i]) {
        i := k;
      }
    }
    e := open[i];
    rest := open[..i] + open[i + 1..];
    assert open == open[..i] + [open[i]] + open[i + 1..];
    forall f | f in rest ensures f in open { assert f in open[..i] || f in open[i + 1..]; }
  }

  // ---------------------------------------------------------------------
  // A* (roads.py:15-51)
  // ---------------------------------------------------------------------

  /** The search state `_astar` keeps: `g` holds the best known cost of each
      reached tile, `start` at 0 with no predecessor; every other reached
      tile is an in-bounds tile with a `came_from` neighbour whose cost plus
      the step into the tile is at most the tile's own; every entry of the
      open set is a reached tile. */
  ghost predicate SearchTree(cost: Grid<real>, start: Tile, g: map<Tile, real>, cameFrom: map<Tile, Tile>) {
    && start in g && g[start] == 0.0 && start !in cameFrom
    && (forall n :: n in g ==> g[n] >= 0.0)
    && (forall n {:trigger n in cameFrom} :: n in g && n != start ==> n in cameFrom)
    && forall n :: n in cameFrom ==>
      && n in g && cameFrom[n] in g
      && Adjacent(cameFrom[n], n)
      && 0 <= n.y < |cost| && 0 <= n.x < |cost[n.y]|
      && g[cameFrom[n]] + At(cost, n) <= g[n]
  }

  /** Relaxing the edge from `cur` into its in-bounds neighbour `n`
      (roads.py:35-40) keeps the search tree. */
  lemma RelaxKeeps(cost: Grid<real>, start: Tile, g: map<Tile, real>, cameFrom: map<Tile, Tile>, cur: Tile, n: Tile)
    requires PositiveCosts(cost) && SearchTree(cost, start, g, cameFrom)
    requires cur in g && Adjacent(cur, n) && 0 <= n.y < |cost| && 0 <= n.x < |cost[n.y]|
    requires n !in g || g[cur] + At(cost, n) < g[n]
    ensures n != start
    ensures SearchTree(cost, start, g[n := g[cur] + At(cost, n)], cameFrom[n := cur])
  {
    var g', c' := g[n := g[cur] + At(cost, n)], cameFrom[n := cur];
    assert cur != n;
    forall m | m in g' ensures g'[m] >= 0.0 {
      if m == n { assert At(cost, n) > 0.0 && g[cur] >= 0.0; }
    }
    forall m | m in c'
      ensures m in g' && c'[m] in g' && Adjacent(c'[m], m) && 0 <= m.y < |cost| && 0 <= m.x < |cost[m.y]|
      ensures g'[c'[m]] + At(cost, m) <= g'[m]
    {
      if m != n {
        assert c'[m] == cameFrom[m] && g'[m] == g[m];
        if cameFrom[m] == n {
          assert g'[n] <= g[n];
        } else {
          assert g'[cameFrom[m]] == g[cameFrom[m]];
        }
      }
    }
  }

  /** The tiles `rev` from the goal back along `came_from`, as the
      reconstruction loop of roads.py:46-48 collects them. */
  ghost predicate BackTrack(cost: Grid<real>, g: map<Tile, real>, cameFrom: map<Tile, Tile>,
                            goal: Tile, rev: seq<Tile>, cur: Tile)
  {
    && cur in g
    && (rev == [] ==> cur == goal)
    && (rev != [] ==> rev[0] == goal && rev[|rev| - 1] in cameFrom && cameFrom[rev[|rev| - 1]] == cur)
    && (forall j :: 0 <= j < |rev| - 1 ==> rev[j] in cameFrom && cameFrom[rev[j]] == rev[j + 1])
    && (forall j :: 0 <= j < |rev| ==> rev[j] in g && g[cur] < g[rev[j]])
    && (forall i, j :: 0 <= i < j < |rev| ==> g[rev[j]] < g[rev[i]])
  }

  /** Every tile of `s` indexes the cost grid. */
  ghost predicate OnCost(cost: Grid<real>, s: seq<Tile>) {
    forall j :: 0 <= j < |s| ==> 0 <= s[j].y < |cost| && 0 <= s[j].x < |cost[s[j].y]|
  }

  /** The total cost of the tiles of `s`. */
  ghost function SumCost(cost: Grid<real>, s: seq<Tile>): real
    requires forall j :: 0 <= j < |s| ==> 0 <= s[j].y < |cost| && 0 <= s[j].x < |cost[s[j].y]|
  {
    if s == [] then 0.0 else At(cost, s[0]) + SumCost(cost, s[1..])
  }

  lemma ReversedSnoc<T>(s: seq<T>, x: T)
    ensures Reversed(s + [x]) == [x] + Reversed(s)
  {
    var a, b := Reversed(s + [x]), [x] + Reversed(s);
    forall i | 0 <= i < |a| ensures a[i] == b[i] {
      if i > 0 { assert (s + [x])[|s| - i] == s[|s| - 1 - (i - 1)]; }
    }
  }

  /** The walk `[x] + Reversed(s)` costs what the tiles of `s` cost. */
  lemma {:induction false} CostOfReversed(cost: Grid<real>, x: Tile, s: seq<Tile>)
    requires forall j :: 0 <= j < |s| ==> 0 <= s[j].y < |cost| && 0 <= s[j].x < |cost[s[j].y]|
    requires Route(cost, [x] + Reversed(s))
    ensures RouteCost(cost, [x] + Reversed(s)) == SumCost(cost, s)
  {
    if s != [] {
      var p := [x] + Reversed(s);
      var r := Reversed(s[1..]);
      assert Reversed(s)[..|s| - 1] == r by {
        forall i | 0 <= i < |s| - 1 ensures Reversed(s)[i] == r[i] { assert s[1..][|s| - 2 - i] == s[|s| - 1 - i]; }
      }
      assert p[..|p| - 1] == [x] + r;
      assert p[|p| - 1] == s[0];
      assert Route(cost, [x] + r) by {
        forall i | 1 <= i < |[x] + r| ensures Step(cost, [x] + r, i) { assert Step(cost, p, i); }
      }
      CostOfReversed(cost, x, s[1..]);
    }
  }

  /** The tiles that have an entry in the open set. */
  ghost function Queued(open: seq<Entry>): set<Tile> {
    set e | e in open :: e.tile
  }

  /** Every in-bounds 4-neighbour of `t` has been reached. */
  ghost predicate Expanded(cost: Grid<real>, g: map<Tile, real>, t: Tile) {
    forall n :: Adjacent(t, n) && InBounds(n, |cost|, Cols(cost)) ==> n in g
  }

  /** Every reached tile still has an entry in the open set, or all its
      in-bounds neighbours have been reached. */
  ghost predicate Frontier(cost: Grid<real>, g: map<Tile, real>, open: seq<Entry>) {
    forall t :: t in g ==> t in Queued(open) || Expanded(cost, g, t)
  }

  /** A heap that keeps its old entries in front keeps their tiles. */
  lemma QueuedGrow(a: seq<Entry>, b: seq<Entry>)
    requires |a| <= |b| && b[..|a|] == a
    ensures Queued(a) <= Queued(b)
  {
    forall t | t in Queued(a) ensures t in Queued(b) {
      var e :| e in a && e.tile == t;
      var k :| 0 <= k < |a| && a[k] == e;
      assert b[k] == e;
    }
  }

  /** One turn of the heap loop keeps `Frontier`: the popped tile is expanded,
      every other queued tile keeps an entry, and every newly reached tile
      was pushed. */
  lemma FrontierStep(cost: Grid<real>, open: seq<Entry>, e: Entry, rest: seq<Entry>,
                     best: map<Tile, real>, best': map<Tile, real>, open': seq<Entry>)
    requires Frontier(cost, best, open)
    requires multiset(rest) + multiset{e} == multiset(open)
    requires best.Keys <= best'.Keys
    requires forall t :: t in best' && t !in best ==> t in Queued(open')
    requires |rest| <= |open'| && open'[..|rest|] == rest
    requires Expanded(cost, best', e.tile)
    ensures Frontier(cost, best', open')
  {
    QueuedGrow(rest, open');
    forall t | t in best' && t != e.tile ensures t in Queued(open') || Expanded(cost, best', t) {
      if t in best {
        if t in Queued(open) {
          var f :| f in open && f.tile == t;
          assert multiset(open)[f] == multiset(rest)[f] + multiset{e}[f];
          assert f in rest;
        }
      }
    }
  }

  /** Once every reached tile is expanded, every tile of the grid is
      reached from an in-bounds start: walk in from `t` one step at a time. */
  lemma {:induction false} ReachedAll(cost: Grid<real>, g: map<Tile, real>, start: Tile, t: Tile)
    requires start in g && InBounds(start, |cost|, Cols(cost)) && InBounds(t, |cost|, Cols(cost))
    requires forall u :: u in g ==> Expanded(cost, g, u)
    ensures t in g
    decreases Manhattan(start, t)
  {
    if t != start {
      var u :=
        if t.y < start.y then Tile(t.y + 1, t.x)
        else if t.y > start.y then Tile(t.y - 1, t.x)
        else if t.x < start.x then Tile(t.y, t.x + 1)
        else Tile(t.y, t.x - 1);
      ReachedAll(cost, g, start, u);
      assert Adjacent(u, t);
    }
  }

  /** `_astar(start, goal, cost_grid)` (roads.py:15-51). The heap loop runs
      for at most `maxPops` pops; `exhausted` says that this budget ran out
      with the heap non-empty and the goal not yet popped. The result is []
      exactly when the goal is neither the start nor reached; otherwise it is
      a walk of distinct 4-neighbours from `start` to `goal` along
      `came_from`, costing at most the goal's best known cost `g[goal]`. When
      the loop ends on its own, an in-bounds goal from an in-bounds start is
      always reached, because an empty heap means every reached tile has had
      its neighbours reached. */
  method AStar(start: Tile, goal: Tile, cost: Grid<real>, maxPops: nat)
    returns (path: seq<Tile>, ghost g: map<Tile, real>, ghost cameFrom: map<Tile, Tile>, ghost exhausted: bool)
    requires Rect(cost) && PositiveCosts(cost)
    ensures SearchTree(cost, start, g, cameFrom)
    ensures path == [] <==> goal != start && goal !in cameFrom
    ensures start == goal ==> path == [start]
    ensures path != [] ==> path[0] == start && path[|path| - 1] == goal
    ensures Route(cost, path)
    ensures forall i :: 1 <= i < |path| ==> path[i] in cameFrom && cameFrom[path[i]] == path[i - 1]
    ensures forall i, j :: 0 <= i < j < |path| ==> path[i] != path[j]
    ensures path != [] ==> goal in g && RouteCost(cost, path) <= g[goal]
    ensures !exhausted && InBounds(start, |cost|, Cols(cost)) && InBounds(goal, |cost|, Cols(cost)) ==> path != []
  {
    var height, width := |cost|, Cols(cost);
    var open := [Entry(0.0, start)];
    var best: map<Tile, real>, links: map<Tile, Tile> := map[start := 0.0], map[];
    var pops := 0;
    ghost var found := false;
    assert start in Queued(open);
    while |open| > 0 && pops < maxPops
      invariant SearchTree(cost, start, best, links)
      invariant forall e :: e in open ==> e.tile in best
      invariant Frontier(cost, best, open)
      invariant !found
      decreases maxPops - pops
    {
      ghost var open0 := open;
      var e, rest := PopMin(open);
      assert e in open;
      open, pops := rest, pops + 1;
      var current := e.tile;
      if current == goal {
        found := true;
        break;
      }
      ghost var best0 := best;
      best, links, open := Expand(cost, start, goal, current, best, links, open);
      FrontierStep(cost, open0, e, rest, best0, best, open);
    }
    exhausted := !found && |open| > 0;
    if !exhausted && InBounds(start, |cost|, Cols(cost)) && InBounds(goal, |cost|, Cols(cost)) && !found {
      forall u | u in best ensures Expanded(cost, best, u) {
        assert u !in Queued(open);
      }
      ReachedAll(cost, best, start, goal);
    }
    path := Reconstruct(cost, start, goal, best, links);
    g, cameFrom := best, links;
  }

  /** The relaxation of roads.py:35-40 of the edge from `current` into its
      in-bounds neighbour `n`: when `n` is new or its cost through `current`
      is lower, record that cost and `current` as its predecessor and push `n`
      with priority `g + heur`; otherwise change nothing. */
  method Relax(cost: Grid<real>, start: Tile, goal: Tile, current: Tile, n: Tile,
               best: map<Tile, real>, links: map<Tile, Tile>, open: seq<Entry>)
    returns (best': map<Tile, real>, links': map<Tile, Tile>, open': seq<Entry>)
    requires PositiveCosts(cost) && SearchTree(cost, start, best, links) && current in best
    requires Adjacent(current, n) && 0 <= n.y < |cost| && 0 <= n.x < |cost[n.y]|
    requires forall e :: e in open ==> e.tile in best
    ensures SearchTree(cost, start, best', links') && current in best'
    ensures forall e :: e in open' ==> e.tile in best'
    ensures best.Keys <= best'.Keys && forall m :: m in best ==> best'[m] <= best[m]
    ensures best'[current] == best[current]
    ensures var c := best[current] + At(cost, n);
      (n !in best || c < best[n]) ==>
        best' == best[n := c] && links' == links[n := current] && open' == open + [Entry(c + Heur(n, goal), n)]
    ensures n in best && best[n] <= best[current] + At(cost, n) ==>
      best' == best && links' == links && open' == open
    ensures n in best' && |open| <= |open'| && open'[..|open|] == open
    ensures forall t :: t in best' && t !in best ==> t in Queued(open')
  {
    var newCost := best[current] + At(cost, n);
    if n !in best || newCost < best[n] {
      best' := best[n := newCost];
      open' := open + [Entry(newCost + Heur(n, goal), n)];
      links' := links[n := current];
      RelaxKeeps(cost, start, best, links, current, n);
      forall m | m in best ensures best'[m] <= best[m] {
        if m == n { assert newCost < best[n]; }
      }
      forall e | e in open' ensures e.tile in best' {
        if e !in open { assert e == open'[|open|]; }
      }
      assert open'[|open|].tile == n;
    } else {
      best', links', open' := best, links, open;
    }
  }

  /** The `for` loop of roads.py:31-40: relax the edges from `current` into
      its in-bounds neighbours, in the order up, down, left, right. Costs only
      ever go down and the search tree is kept. */
  method Expand(cost: Grid<real>, start: Tile, goal: Tile, current: Tile,
                best: map<Tile, real>, links: map<Tile, Tile>, open: seq<Entry>)
    returns (best': map<Tile, real>, links': map<Tile, Tile>, open': seq<Entry>)
    requires Rect(cost) && PositiveCosts(cost)
    requires SearchTree(cost, start, best, links) && current in best
    requires forall e :: e in open ==> e.tile in best
    ensures SearchTree(cost, start, best', links')
    ensures forall e :: e in open' ==> e.tile in best'
    ensures best.Keys <= best'.Keys && forall m :: m in best ==> best'[m] <= best[m]
    ensures |open| <= |open'| && open'[..|open|] == open
    ensures forall t :: t in best' && t !in best ==> t in Queued(open')
    ensures Expanded(cost, best', current)
  {
    best', links', open' := best, links, open;
    for i := 0 to 4
      invariant Expanding(cost, start, current, i, best, open, best', links', open')
    {
      best', links', open' := ExpandDir(cost, start, goal, current, i, best, open, best', links', open');
    }
    forall n | Adjacent(current, n) && InBounds(n, |cost|, Cols(cost)) ensures n in best' {
      assert Neighbour(current, DirectionOf(current, n)) == n;
    }
  }

  /** The state of the direction loop of roads.py:31-40 after the first `i`
      directions, against the state `best`, `open` it started from. */
  ghost predicate Expanding(cost: Grid<real>, start: Tile, current: Tile, i: nat, best: map<Tile, real>, open: seq<Entry>,
                            best': map<Tile, real>, links': map<Tile, Tile>, open': seq<Entry>)
  {
    && SearchTree(cost, start, best', links') && current in best'
    && (forall e :: e in open' ==> e.tile in best')
    && best.Keys <= best'.Keys && (forall m :: m in best ==> best'[m] <= best[m])
    && |open| <= |open'| && open'[..|open|] == open
    && (forall t :: t in best' && t !in best ==> t in Queued(open'))
    && (forall j :: 0 <= j < i && j < 4 && InBounds(Neighbour(current, j), |cost|, Cols(cost)) ==> Neighbour(current, j) in best')
  }

  /** Direction `i` of the loop of roads.py:31-40: relax the edge into that
      neighbour when it lies on the grid. */
  method ExpandDir(cost: Grid<real>, start: Tile, goal: Tile, current: Tile, i: nat,
                   ghost best: map<Tile, real>, ghost open: seq<Entry>,
                   best': map<Tile, real>, links': map<Tile, Tile>, open': seq<Entry>)
    returns (best'': map<Tile, real>, links'': map<Tile, Tile>, open'': seq<Entry>)
    requires Rect(cost) && PositiveCosts(cost) && i < 4
    requires Expanding(cost, start, current, i, best, open, best', links', open')
    ensures Expanding(cost, start, current, i + 1, best, open, best'', links'', open'')
  {
    best'', links'', open'' := best', links', open';
    var n := Neighbour(current, i);
    if 0 <= n.y < |cost| && 0 <= n.x < Cols(cost) {
      best'', links'', open'' := Relax(cost, start, goal, current, n, best', links', open');
      assert forall m :: m in best ==> best''[m] <= best'[m] <= best[m];
      assert open''[..|open|] == open'[..|open|];
      QueuedGrow(open', open'');
    }
  }

  /** Path reconstruction (roads.py:42-51): follow `came_from` back from the
      goal, append the start and reverse. */
  method Reconstruct(cost: Grid<real>, start: Tile, goal: Tile, ghost g: map<Tile, real>, cameFrom: map<Tile, Tile>)
    returns (path: seq<Tile>)
    requires PositiveCosts(cost) && SearchTree(cost, start, g, cameFrom)
    ensures path == [] <==> goal != start && goal !in cameFrom
    ensures start == goal ==> path == [start]
    ensures path != [] ==> path[0] == start && path[|path| - 1] == goal
    ensures Route(cost, path)
    ensures forall i :: 1 <= i < |path| ==> path[i] in cameFrom && cameFrom[path[i]] == path[i - 1]
    ensures forall i, j :: 0 <= i < j < |path| ==> path[i] != path[j]
    ensures path != [] ==> goal in g && RouteCost(cost, path) <= g[goal]
  {
    if goal !in cameFrom && goal != start {
      return [];
    }
    var back := BackTrackFrom(cost, start, goal, g, cameFrom);
    var rev := back + [start];
    path := Reversed(rev);
    ReconstructFacts(cost, start, goal, g, cameFrom, back, path);
  }

  /** The `while cur != start` loop of roads.py:46-48: the tiles from
      the goal back to (not including) the start. */
  method BackTrackFrom(cost: Grid<real>, start: Tile, goal: Tile, ghost g: map<Tile, real>, cameFrom: map<Tile, Tile>)
    returns (rev: seq<Tile>)
    requires PositiveCosts(cost) && SearchTree(cost, start, g, cameFrom)
    requires goal in cameFrom || goal == start
    ensures BackTrack(cost, g, cameFrom, goal, rev, start) && OnCost(cost, rev)
    ensures SumCost(cost, rev) + g[start] <= g[goal]
  {
    rev := [];
    var cur := goal;
    while cur != start
      invariant cur in g && (cur == start || cur in cameFrom)
      invariant BackTrack(cost, g, cameFrom, goal, rev, cur)
      invariant OnCost(cost, rev)
      invariant SumCost(cost, rev) + g[cur] <= g[goal]
      decreases |cameFrom.Keys - set t | t in rev|
    {
      var next := cameFrom[cur];
      BackTrackStep(cost, start, g, cameFrom, goal, rev, cur);
      rev := rev + [cur];
      cur := next;
    }
  }

  /** One step of the reconstruction keeps `BackTrack`, adds the step's cost
      and shrinks the set of `came_from` keys not yet collected. */
  lemma BackTrackStep(cost: Grid<real>, start: Tile, g: map<Tile, real>, cameFrom: map<Tile, Tile>,
                      goal: Tile, rev: seq<Tile>, cur: Tile)
    requires PositiveCosts(cost) && SearchTree(cost, start, g, cameFrom)
    requires cur in cameFrom && BackTrack(cost, g, cameFrom, goal, rev, cur)
    requires OnCost(cost, rev)
    ensures var rev' := rev + [cur];
      && BackTrack(cost, g, cameFrom, goal, rev', cameFrom[cur])
      && OnCost(cost, rev')
      && SumCost(cost, rev') + g[cameFrom[cur]] <= SumCost(cost, rev) + g[cur]
      && |cameFrom.Keys - set t | t in rev'| < |cameFrom.Keys - set t | t in rev|
  {
    var next := cameFrom[cur];
    assert At(cost, cur) > 0.0;
    BackTrackExtend(cost, g, cameFrom, goal, rev, cur);
    SumCostSnoc(cost, rev, cur);
    ShrinkKeys(cameFrom.Keys, rev, cur);
  }

  /** Collecting `cur`, whose predecessor has a lower cost, extends the chain. */
  lemma BackTrackExtend(cost: Grid<real>, g: map<Tile, real>, cameFrom: map<Tile, Tile>, goal: Tile, rev: seq<Tile>, cur: Tile)
    requires BackTrack(cost, g, cameFrom, goal, rev, cur)
    requires cur in cameFrom && cameFrom[cur] in g && g[cameFrom[cur]] < g[cur]
    ensures BackTrack(cost, g, cameFrom, goal, rev + [cur], cameFrom[cur])
    ensures cur !in rev
  {
    var rev' := rev + [cur];
    forall j | 0 <= j < |rev'| - 1 ensures rev'[j] in cameFrom && cameFrom[rev'[j]] == rev'[j + 1] {
      if j < |rev| - 1 { assert rev'[j] == rev[j] && rev'[j + 1] == rev[j + 1]; }
    }
    forall i, j | 0 <= i < j < |rev'| ensures g[rev'[j]] < g[rev'[i]] {
      if j < |rev| { assert rev'[i] == rev[i] && rev'[j] == rev[j]; }
    }
    forall j | 0 <= j < |rev| ensures rev[j] != cur { }
  }

  /** Collecting a key not collected before leaves fewer keys to collect. */
  lemma ShrinkKeys(keys: set<Tile>, s: seq<Tile>, c: Tile)
    requires c in keys && c !in s
    ensures |keys - set t | t in s + [c]| < |keys - set t | t in s|
  {
    var a, b := set t | t in s, set t | t in s + [c];
    assert b == a + {c};
    assert keys - a == (keys - b) + {c};
  }

  lemma {:induction false} SumCostSnoc(cost: Grid<real>, s: seq<Tile>, t: Tile)
    requires forall j :: 0 <= j < |s| ==> 0 <= s[j].y < |cost| && 0 <= s[j].x < |cost[s[j].y]|
    requires 0 <= t.y < |cost| && 0 <= t.x < |cost[t.y]|
    ensures SumCost(cost, s + [t]) == SumCost(cost, s) + At(cost, t)
  {
    if s != [] {
      assert (s + [t])[1..] == s[1..] + [t];
      SumCostSnoc(cost, s[1..], t);
    }
  }

  /** Entry `i >= 1` of `[start] + Reversed(back)` is entry `|back| - i` of `back`. */
  lemma ReversedEntries(back: seq<Tile>, start: Tile, path: seq<Tile>)
    requires path == Reversed(back + [start])
    ensures |path| == |back| + 1 && path[0] == start
    ensures forall i :: 1 <= i < |path| ==> path[i] == back[|back| - i]
  {
    ReversedSnoc(back, start);
  }

  /** Each tile of the reversed chain came from the tile before it. */
  lemma ChainForward(cameFrom: map<Tile, Tile>, back: seq<Tile>, start: Tile, path: seq<Tile>)
    requires |path| == |back| + 1 && path[0] == start
    requires forall i :: 1 <= i < |path| ==> path[i] == back[|back| - i]
    requires forall j :: 0 <= j < |back| - 1 ==> back[j] in cameFrom && cameFrom[back[j]] == back[j + 1]
    requires back != [] ==> back[|back| - 1] in cameFrom && cameFrom[back[|back| - 1]] == start
    ensures forall i :: 1 <= i < |path| ==> path[i] in cameFrom && cameFrom[path[i]] == path[i - 1]
  {
    var n := |back|;
    forall i | 1 <= i < |path|
      ensures path[i] in cameFrom && cameFrom[path[i]] == path[i - 1]
    {
      if i > 1 { assert path[i - 1] == back[n - i + 1]; }
    }
  }

  /** The reversed chain climbs strictly in `g`, so its tiles are distinct. */
  lemma ChainDistinct(g: map<Tile, real>, back: seq<Tile>, start: Tile, path: seq<Tile>)
    requires |path| == |back| + 1 && path[0] == start
    requires forall i :: 1 <= i < |path| ==> path[i] == back[|back| - i]
    requires start in g && forall j :: 0 <= j < |back| ==> back[j] in g && g[start] < g[back[j]]
    requires forall i, j :: 0 <= i < j < |back| ==> g[back[j]] < g[back[i]]
    ensures forall i, j :: 0 <= i < j < |path| ==> path[i] != path[j]
  {
    var n := |back|;
    forall i, j | 0 <= i < j < |path| ensures path[i] != path[j] {
      if i > 0 {
        assert g[back[n - i]] < g[back[n - j]];
      } else {
        assert g[path[j]] > g[start];
      }
    }
  }

  /** A walk along `came_from` links is a route of the grid. */
  lemma ChainRoute(cost: Grid<real>, start: Tile, g: map<Tile, real>, cameFrom: map<Tile, Tile>, path: seq<Tile>)
    requires SearchTree(cost, start, g, cameFrom)
    requires forall i :: 1 <= i < |path| ==> path[i] in cameFrom && cameFrom[path[i]] == path[i - 1]
    ensures Route(cost, path)
  {
    forall i | 1 <= i < |path| ensures Step(cost, path, i) { }
  }

  /** The path built from the collected tiles `back` (roads.py:49-51). */
  lemma ReconstructFacts(cost: Grid<real>, start: Tile, goal: Tile, g: map<Tile, real>, cameFrom: map<Tile, Tile>,
                         back: seq<Tile>, path: seq<Tile>)
    requires PositiveCosts(cost) && SearchTree(cost, start, g, cameFrom)
    requires BackTrack(cost, g, cameFrom, goal, back, start)
    requires OnCost(cost, back)
    requires SumCost(cost, back) + g[start] <= g[goal]
    requires path == Reversed(back + [start])
    ensures path != [] && path[0] == start && path[|path| - 1] == goal
    ensures start == goal ==> path == [start]
    ensures Route(cost, path)
    ensures forall i :: 1 <= i < |path| ==> path[i] in cameFrom && cameFrom[path[i]] == path[i - 1]
    ensures forall i, j :: 0 <= i < j < |path| ==> path[i] != path[j]
    ensures goal in g && RouteCost(cost, path) <= g[goal]
  {
    ReversedEntries(back, start, path);
    ChainForward(cameFrom, back, start, path);
    ChainDistinct(g, back, start, path);
    ChainRoute(cost, start, g, cameFrom, path);
    ReversedSnoc(back, start);
    CostOfReversed(cost, start, back);
    if back != [] {
      assert path[|path| - 1] == back[0];
    }
  }

  // ---------------------------------------------------------------------
  // build_roads (roads.py:75-121)
  // ---------------------------------------------------------------------

  /** `t` is one of the sampled tiles of a routed pair whose path has at
      least two tiles. */
  ghost predicate Sampled(routes: seq<seq<Tile>>, sample: seq<Tile> -> seq<Tile>, t: Tile) {
    exists k :: 0 <= k < |routes| && |routes[k]| >= 2 && t in sample(routes[k])
  }

  lemma SampledSnoc(routes: seq<seq<Tile>>, sample: seq<Tile> -> seq<Tile>, path: seq<Tile>, t: Tile)
    ensures Sampled(routes + [path], sample, t) <==> Sampled(routes, sample, t) || (|path| >= 2 && t in sample(path))
  {
    var rs := routes + [path];
    if Sampled(rs, sample, t) {
      var k :| 0 <= k < |rs| && |rs[k]| >= 2 && t in sample(rs[k]);
      if k < |routes| { assert rs[k] == routes[k]; }
    }
    if Sampled(routes, sample, t) {
      var k :| 0 <= k < |routes| && |routes[k]| >= 2 && t in sample(routes[k]);
      assert rs[k] == routes[k];
    }
    if |path| >= 2 && t in sample(path) {
      assert rs[|routes|] == path;
    }
  }

  /** The facts `build_roads` establishes about each routed pair of
      consecutive cities: a pair of equal cities gives the one-tile path, a
      found path runs from the first city to the second, and every path is a
      walk over the cost grid. */
  ghost predicate Routed(cities: seq<Tile>, cost: Grid<real>, routes: seq<seq<Tile>>) {
    && (routes == [] || |routes| < |cities|)
    && forall k :: 0 <= k < |routes| ==> RoutedPair(cities, cost, k, routes[k])
  }

  /** `path` is what routing cities k and k + 1 may give. */
  ghost predicate RoutedPair(cities: seq<Tile>, cost: Grid<real>, k: nat, path: seq<Tile>)
    requires k + 1 < |cities|
  {
    && (cities[k] == cities[k + 1] ==> path == [cities[k]])
    && (path != [] ==> path[0] == cities[k] && path[|path| - 1] == cities[k + 1])
    && Route(cost, path)
  }

  /** Routing the next pair with `AStar` extends the routed prefix. */
  lemma RoutedSnoc(cities: seq<Tile>, cost: Grid<real>, routes: seq<seq<Tile>>, path: seq<Tile>)
    requires Routed(cities, cost, routes) && |routes| + 1 < |cities|
    requires RoutedPair(cities, cost, |routes|, path)
    ensures Routed(cities, cost, routes + [path])
  {
    var rs := routes + [path];
    forall k | 0 <= k < |rs| ensures RoutedPair(cities, cost, k, rs[k]) {
      if k < |routes| { assert rs[k] == routes[k]; } else { assert rs[k] == path; }
    }
  }

  /** The road mask holds exactly the land tiles that a sampled route covers. */
  ghost predicate Painted(road: array2<bool>, elev: Grid<real>, sea: real, routes: seq<seq<Tile>>, sample: seq<Tile> -> seq<Tile>)
    reads road
    requires road.Length0 == |elev| && road.Length1 == Cols(elev) && Rect(elev)
  {
    forall y, x :: 0 <= y < road.Length0 && 0 <= x < road.Length1 ==>
      (road[y, x] <==> elev[y][x] >= sea && Sampled(routes, sample, Tile(y, x)))
  }

  /** The inner loop of roads.py:115-119: set every sampled tile that lies on
      the map and on land; nothing else changes. */
  method MarkSamples(road: array2<bool>, elev: Grid<real>, sea: real, samples: seq<Tile>)
    modifies road
    requires road.Length0 == |elev| && road.Length1 == Cols(elev) && Rect(elev)
    ensures forall y, x :: 0 <= y < road.Length0 && 0 <= x < road.Length1 ==>
      (road[y, x] <==> old(road[y, x]) || (elev[y][x] >= sea && Tile(y, x) in samples))
  {
    for j := 0 to |samples|
      invariant forall y, x :: 0 <= y < road.Length0 && 0 <= x < road.Length1 ==>
        (road[y, x] <==> old(road[y, x]) || (elev[y][x] >= sea && Tile(y, x) in samples[..j]))
    {
      var t := samples[j];
      if 0 <= t.y < road.Length0 && 0 <= t.x < road.Length1 && elev[t.y][t.x] >= sea {
        road[t.y, t.x] := true;
      }
      assert samples[..j + 1] == samples[..j] + [t];
    }
    assert samples[..|samples|] == samples;
  }

  /** Appending one route and painting its samples keeps the mask exact. */
  lemma PaintedSnoc(road: array2<bool>, elev: Grid<real>, sea: real, routes: seq<seq<Tile>>,
                    sample: seq<Tile> -> seq<Tile>, path: seq<Tile>, before: Grid<bool>)
    requires road.Length0 == |elev| && road.Length1 == Cols(elev) && Rect(elev)
    requires Shaped(before, road.Length0, road.Length1)
    requires forall y, x :: 0 <= y < road.Length0 && 0 <= x < road.Length1 ==>
      (before[y][x] <==> elev[y][x] >= sea && Sampled(routes, sample, Tile(y, x)))
    requires forall y, x :: 0 <= y < road.Length0 && 0 <= x < road.Length1 ==>
      (road[y, x] <==> before[y][x] || (|path| >= 2 && elev[y][x] >= sea && Tile(y, x) in sample(path)))
    ensures Painted(road, elev, sea, routes + [path], sample)
  {
    forall y, x | 0 <= y < road.Length0 && 0 <= x < road.Length1
      ensures road[y, x] <==> elev[y][x] >= sea && Sampled(routes + [path], sample, Tile(y, x))
    {
      SampledSnoc(routes, sample, path, Tile(y, x));
    }
  }

  /** `build_roads` (roads.py:75-121). Each pair of consecutive cities is
      routed with `AStar`; the distorted line through a path of two tiles or
      more is rasterised by `sample`, which stands for the distortion, the
      `interpolate` steps one unit apart and the rounding to tiles. A sampled
      tile is set on the mask when it lies on the map and on land. */
  method BuildRoads(cities: seq<Tile>, elev: Grid<real>, sea: real, sample: seq<Tile> -> seq<Tile>, maxPops: nat)
    returns (road: array2<bool>, ghost routes: seq<seq<Tile>>, ghost exhausted: bool)
    requires Rect(elev) && 3.0 * sea > -1.0
    ensures road.Length0 == |elev| && road.Length1 == Cols(elev)
    ensures |routes| == if |cities| < 2 then 0 else |cities| - 1
    ensures Routed(cities, CostGrid(elev, sea), routes)
    ensures Painted(road, elev, sea, routes, sample)
    ensures Connects(cities, elev, routes, exhausted)
  {
    var height, width := |elev|, Cols(elev);
    road := new bool[height, width]((y, x) => false);
    routes := [];
    exhausted := false;
    if |cities| < 2 {
      return;
    }
    var cost := CostGrid(elev, sea);
    forall y, x | 0 <= y < |cost| && 0 <= x < |cost[y]| ensures cost[y][x] > 0.0 {
      CostFacts(elev, sea, y, x);
    }
    for k := 0 to |cities| - 1
      invariant |routes| == k
      invariant Routed(cities, cost, routes)
      invariant Painted(road, elev, sea, routes, sample)
      invariant Connects(cities, elev, routes, exhausted)
    {
      routes, exhausted := RouteNext(cities, elev, sea, sample, maxPops, cost, road, k, routes, exhausted);
    }
  }

  /** Unless the pop budget ran out, every pair of in-bounds consecutive
      cities got a non-empty route. */
  ghost predicate Connects(cities: seq<Tile>, elev: Grid<real>, routes: seq<seq<Tile>>, exhausted: bool)
    requires routes == [] || |routes| < |cities|
  {
    !exhausted ==> forall j :: 0 <= j < |routes| ==>
      (InBounds(cities[j], |elev|, Cols(elev)) && InBounds(cities[j + 1], |elev|, Cols(elev)) ==> routes[j] != [])
  }

  /** One turn of the `for a, b in zip(...)` loop of roads.py:100-120: route
      the next pair of cities and paint the samples of a route of two tiles
      or more. */
  method RouteNext(cities: seq<Tile>, elev: Grid<real>, sea: real, sample: seq<Tile> -> seq<Tile>, maxPops: nat,
                   cost: Grid<real>, road: array2<bool>, k: nat, ghost routes: seq<seq<Tile>>, ghost exhausted: bool)
    returns (ghost routes': seq<seq<Tile>>, ghost exhausted': bool)
    modifies road
    requires Rect(elev) && cost == CostGrid(elev, sea) && PositiveCosts(cost)
    requires road.Length0 == |elev| && road.Length1 == Cols(elev)
    requires k == |routes| && k + 1 < |cities|
    requires Routed(cities, cost, routes) && Painted(road, elev, sea, routes, sample)
    requires Connects(cities, elev, routes, exhausted)
    ensures |routes'| == |routes| + 1 && routes'[..|routes|] == routes
    ensures Routed(cities, cost, routes') && Painted(road, elev, sea, routes', sample)
    ensures Connects(cities, elev, routes', exhausted')
  {
    var path;
    ghost var out;
    path, out := RoutePair(cities, cost, k, maxPops);
    PaintRoute(road, elev, sea, routes, sample, path);
    RoutedSnoc(cities, cost, routes, path);
    routes' := routes + [path];
    exhausted' := exhausted || out;
    assert |cost| == |elev| && Cols(cost) == Cols(elev);
    ConnectsSnoc(cities, elev, routes, exhausted, path, out);
  }

  /** `_astar(a, b, cost)` for the k-th pair of consecutive cities
      (roads.py:101): a route as `RoutedPair` allows, non-empty for
      in-bounds cities unless the pop budget ran out. */
  method RoutePair(cities: seq<Tile>, cost: Grid<real>, k: nat, maxPops: nat) returns (path: seq<Tile>, ghost out: bool)
    requires Rect(cost) && PositiveCosts(cost) && k + 1 < |cities|
    ensures RoutedPair(cities, cost, k, path)
    ensures !out && InBounds(cities[k], |cost|, Cols(cost)) && InBounds(cities[k + 1], |cost|, Cols(cost)) ==> path != []
  {
    ghost var g, cameFrom;
    path, g, cameFrom, out := AStar(cities[k], cities[k + 1], cost, maxPops);
  }

  /** The body of roads.py:102-119 after `_astar`: a route of two tiles or
      more has its samples painted, a shorter one is skipped. */
  method PaintRoute(road: array2<bool>, elev: Grid<real>, sea: real, ghost routes: seq<seq<Tile>>,
                    sample: seq<Tile> -> seq<Tile>, path: seq<Tile>)
    modifies road
    requires road.Length0 == |elev| && road.Length1 == Cols(elev) && Rect(elev)
    requires Painted(road, elev, sea, routes, sample)
    ensures Painted(road, elev, sea, routes + [path], sample)
  {
    ghost var before := Snapshot(road);
    if |path| >= 2 {
      MarkSamples(road, elev, sea, sample(path));
    }
    PaintedSnoc(road, elev, sea, routes, sample, path, before);
  }

  /** A route that is non-empty whenever its budget held and both cities
      are in bounds extends `Connects`. */
  lemma ConnectsSnoc(cities: seq<Tile>, elev: Grid<real>, routes: seq<seq<Tile>>, exhausted: bool, path: seq<Tile>, out: bool)
    requires |routes| + 1 < |cities| && Connects(cities, elev, routes, exhausted)
    requires var k := |routes|;
      !out && InBounds(cities[k], |elev|, Cols(elev)) && InBounds(cities[k + 1], |elev|, Cols(elev)) ==> path != []
    ensures Connects(cities, elev, routes + [path], exhausted || out)
  {
    var rs := routes + [path];
    if !(exhausted || out) {
      forall j | 0 <= j < |rs| && InBounds(cities[j], |elev|, Cols(elev)) && InBounds(cities[j + 1], |elev|, Cols(elev))
        ensures rs[j] != []
      {
        if j < |routes| { assert rs[j] == routes[j]; }
      }
    }
  }
}
