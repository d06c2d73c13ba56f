/** Hydrology of archipelago_generator/rivers.py: the steepest strictly-lower
    4-neighbour of every tile, water flux accumulated in descending elevation
    order, and river tracing from high-flux sources down to sea level. */
module Rivers {
  import opened Common
  import opened Ordering

  const SEA_LEVEL: real := 0.26

  /** The elevation grid is a rectangle; all functions below index it. */
  ghost predicate Terrain(elev: Grid<real>) {
    Rect(elev)
  }

  predicate OnMap(elev: Grid<real>, t: Tile) {
    InBounds(t, |elev|, Cols(elev))
  }

  // ---------------------------------------------------------------------
  // Downslope (rivers.py:38-48)
  // ---------------------------------------------------------------------

  /** The state `(min_elev, best)` of the direction scan at rivers.py:40-46
      after looking at the first `i` directions. */
  function ScanDown(elev: Grid<real>, t: Tile, i: nat): (real, Option<Tile>)
    requires Terrain(elev) && OnMap(elev, t) && i <= 4
  {
    if i == 0 then (At(elev, t), None)
    else
      var prev := ScanDown(elev, t, i - 1);
      var n := Neighbour(t, i - 1);
      if OnMap(elev, n) && At(elev, n) < prev.0 then (At(elev, n), Some(n)) else prev
  }

  /** After `i` directions, the scan keeps the tile's own elevation while no
      scanned neighbour is strictly lower; otherwise it holds the lowest scanned
      neighbour, the first one in scan order among equally low ones. */
  lemma {:induction false} ScanDownSpec(elev: Grid<real>, t: Tile, i: nat)
    requires Terrain(elev) && OnMap(elev, t) && i <= 4
    ensures var r := ScanDown(elev, t, i);
      && (r.1.None? ==> r.0 == At(elev, t))
      && (r.1.None? <==> forall j :: 0 <= j < i && OnMap(elev, Neighbour(t, j)) ==> At(elev, Neighbour(t, j)) >= At(elev, t))
      && (forall j :: 0 <= j < i && OnMap(elev, Neighbour(t, j)) ==> r.0 <= At(elev, Neighbour(t, j)))
      && (r.1.Some? ==>
        && OnMap(elev, r.1.value) && Adjacent(t, r.1.value) && DirectionOf(t, r.1.value) < i
        && At(elev, r.1.value) == r.0 < At(elev, t)
        && forall j :: 0 <= j < DirectionOf(t, r.1.value) && OnMap(elev, Neighbour(t, j)) ==> At(elev, Neighbour(t, j)) > r.0)
  {
    if i > 0 {
      ScanDownSpec(elev, t, i - 1);
    }
  }

  /** `downslope[y, x]`: the result of the direction scan; `None` stands for
      the source's (-1, -1). */
  function Downslope(elev: Grid<real>, t: Tile): Option<Tile>
    requires Terrain(elev) && OnMap(elev, t)
  {
    ScanDown(elev, t, 4).1
  }

  /** A tile's downslope is "none" exactly when no in-bounds 4-neighbour is
      strictly lower; otherwise it is an in-bounds 4-neighbour, strictly lower,
      as low as any neighbour, and strictly lower than every neighbour scanned
      before it in the order up, down, left, right (ties go to the first). */
  lemma DownslopeSpec(elev: Grid<real>, t: Tile)
    requires Terrain(elev) && OnMap(elev, t)
    ensures var r := Downslope(elev, t);
      && (r.None? <==> forall j :: 0 <= j < 4 && OnMap(elev, Neighbour(t, j)) ==> At(elev, Neighbour(t, j)) >= At(elev, t))
      && (r.Some? ==>
        && OnMap(elev, r.value) && Adjacent(t, r.value)
        && At(elev, r.value) < At(elev, t)
        && (forall j :: 0 <= j < 4 && OnMap(elev, Neighbour(t, j)) ==> At(elev, r.value) <= At(elev, Neighbour(t, j)))
        && (forall j :: 0 <= j < DirectionOf(t, r.value) && OnMap(elev, Neighbour(t, j)) ==> At(elev, Neighbour(t, j)) > At(elev, r.value)))
  {
    ScanDownSpec(elev, t, 4);
  }

  // ---------------------------------------------------------------------
  // Flux (rivers.py:50-56)
  // ---------------------------------------------------------------------

  /** Tiles strictly higher than `e`; it shrinks along every uphill step, which
      is what makes the upstream recursion of `Flux` well founded. */
  ghost function Higher(elev: Grid<real>, e: real): set<Tile>
    requires Terrain(elev)
  {
    set t | t in AllTiles(|elev|, Cols(elev)) && At(elev, t) > e
  }

  /** Tiles strictly lower than `e`. */
  ghost function Lower(elev: Grid<real>, e: real): set<Tile>
    requires Terrain(elev)
  {
    set t | t in AllTiles(|elev|, Cols(elev)) && At(elev, t) < e
  }

  lemma HigherShrinks(elev: Grid<real>, u: Tile, t: Tile)
    requires Terrain(elev) && OnMap(elev, u) && OnMap(elev, t)
    requires At(elev, u) > At(elev, t)
    ensures |Higher(elev, At(elev, u))| < |Higher(elev, At(elev, t))|
  {
    var a, b := Higher(elev, At(elev, u)), Higher(elev, At(elev, t));
    assert u in b - a;
    assert b == a + (b - a);
  }

  lemma LowerShrinks(elev: Grid<real>, d: Tile, t: Tile)
    requires Terrain(elev) && OnMap(elev, d) && OnMap(elev, t)
    requires At(elev, d) < At(elev, t)
    ensures |Lower(elev, At(elev, d))| < |Lower(elev, At(elev, t))|
  {
    var a, b := Lower(elev, At(elev, d)), Lower(elev, At(elev, t));
    assert d in b - a;
    assert b == a + (b - a);
  }

  /** The part of t's inflow that comes from its i-th neighbour, counted only
      when that neighbour is in `done`. */
  ghost function Part(elev: Grid<real>, t: Tile, i: nat, done: set<Tile>): (r: real)
    requires Terrain(elev) && OnMap(elev, t) && i < 4
    ensures r >= 0.0
    decreases |Higher(elev, At(elev, t))|, 0
  {
    var n := Neighbour(t, i);
    if n in done && OnMap(elev, n) && Downslope(elev, n) == Some(t) then
      DownslopeSpec(elev, n);
      HigherShrinks(elev, n, t);
      Flux(elev, n)
    else 0.0
  }

  /** The flux that the tiles of `done` draining into `t` pass on to it. */
  ghost function Inflow(elev: Grid<real>, t: Tile, done: set<Tile>): (r: real)
    requires Terrain(elev) && OnMap(elev, t)
    ensures r >= 0.0
    decreases |Higher(elev, At(elev, t))|, 1
  {
    Part(elev, t, 0, done) + Part(elev, t, 1, done) + Part(elev, t, 2, done) + Part(elev, t, 3, done)
  }

  /** The accumulated water flux of `t`: its own unit of runoff plus the flux of
      every tile whose downslope is `t`. Only 4-neighbours can drain into `t`. */
  ghost function Flux(elev: Grid<real>, t: Tile): (r: real)
    requires Terrain(elev) && OnMap(elev, t)
    ensures r >= 1.0
    decreases |Higher(elev, At(elev, t))|, 2
  {
    1.0 + Inflow(elev, t, AllTiles(|elev|, Cols(elev)))
  }

  /** Only a 4-neighbour can drain into a tile, so `Flux` sums over every tile
      of the map whose downslope is `t`. */
  lemma DrainersAreNeighbours(elev: Grid<real>, u: Tile, t: Tile)
    requires Terrain(elev) && OnMap(elev, u) && OnMap(elev, t)
    requires Downslope(elev, u) == Some(t)
    ensures Adjacent(t, u) && Neighbour(t, DirectionOf(t, u)) == u
    ensures At(elev, u) > At(elev, t)
  {
    DownslopeSpec(elev, u);
  }

  /** The tiles met by following downslope from `t` until a tile without
      one, `t` first. Elevation strictly drops along the way, so the walk
      ends, and it meets at most the tiles lower than `t` besides `t`. */
  ghost function Drain(elev: Grid<real>, t: Tile): (r: seq<Tile>)
    requires Terrain(elev) && OnMap(elev, t)
    ensures 1 <= |r| <= |Lower(elev, At(elev, t))| + 1 && r[0] == t
    decreases |Lower(elev, At(elev, t))|
  {
    match Downslope(elev, t)
    case None => [t]
    case Some(d) =>
      DownslopeSpec(elev, t);
      LowerShrinks(elev, d, t);
      [t] + Drain(elev, d)
  }

  /** Fewer than height * width tiles lie strictly below any tile. */
  lemma LowerBound(elev: Grid<real>, t: Tile)
    requires Terrain(elev) && OnMap(elev, t)
    ensures |Lower(elev, At(elev, t))| < |elev| * Cols(elev)
  {
    var low := Lower(elev, At(elev, t));
    assert t !in low;
    SubsetCard(low + {t}, AllTiles(|elev|, Cols(elev)));
    AllTilesCount(|elev|, Cols(elev));
  }

  /** Following downslope from any tile stays on the map, drops strictly at
      every step and ends at a tile without downslope. */
  lemma {:induction false} DrainFacts(elev: Grid<real>, t: Tile)
    requires Terrain(elev) && OnMap(elev, t)
    ensures var r := Drain(elev, t);
      && (forall i :: 0 <= i < |r| ==> OnMap(elev, r[i]))
      && (forall i :: 0 <= i < |r| - 1 ==> Downslope(elev, r[i]) == Some(r[i + 1]) && At(elev, r[i + 1]) < At(elev, r[i]))
      && Downslope(elev, r[|r| - 1]).None?
    decreases |Lower(elev, At(elev, t))|
  {
    match Downslope(elev, t)
    case None =>
    case Some(d) =>
      DownslopeSpec(elev, t);
      LowerShrinks(elev, d, t);
      DrainFacts(elev, d);
      var r, rd := Drain(elev, t), Drain(elev, d);
      assert r == [t] + rd;
      forall i | 1 <= i < |r| ensures r[i] == rd[i - 1] {}
      assert r[1] == d && r[|r| - 1] == rd[|rd| - 1];
  }

  /** The walk reaches a tile without downslope in fewer than height * width
      steps. */
  lemma DrainLength(elev: Grid<real>, t: Tile)
    requires Terrain(elev) && OnMap(elev, t)
    ensures |Drain(elev, t)| - 1 < |elev| * Cols(elev)
  {
    LowerBound(elev, t);
  }

  /** Adding one tile `s` to `done` changes only the inflow of s's downslope
      target, and that by exactly Flux(s). */
  lemma InflowAdd(elev: Grid<real>, t: Tile, done: set<Tile>, s: Tile)
    requires Terrain(elev) && OnMap(elev, t) && OnMap(elev, s) && s !in done
    ensures Inflow(elev, t, done + {s}) ==
      Inflow(elev, t, done) + (if Downslope(elev, s) == Some(t) then Flux(elev, s) else 0.0)
  {
    var d := done + {s};
    DownslopeSpec(elev, s);
    forall i | 0 <= i < 4
      ensures Part(elev, t, i, d) == Part(elev, t, i, done) +
        (if Neighbour(t, i) == s && Downslope(elev, s) == Some(t) then Flux(elev, s) else 0.0)
    {
    }
    if Downslope(elev, s) == Some(t) {
      var k := DirectionOf(t, s);
      forall i | 0 <= i < 4 && i != k ensures Neighbour(t, i) != s {
        NeighboursDistinct(t, i, k);
      }
    } else {
    }
  }

  /** Once every tile that drains into `t` is in `done`, the inflow is final. */
  lemma InflowComplete(elev: Grid<real>, t: Tile, done: set<Tile>)
    requires Terrain(elev) && OnMap(elev, t)
    requires forall u :: OnMap(elev, u) && At(elev, u) > At(elev, t) ==> u in done
    ensures Inflow(elev, t, done) == Inflow(elev, t, AllTiles(|elev|, Cols(elev)))
  {
    forall i | 0 <= i < 4
      ensures Part(elev, t, i, done) == Part(elev, t, i, AllTiles(|elev|, Cols(elev)))
    {
      var n := Neighbour(t, i);
      if OnMap(elev, n) {
        DownslopeSpec(elev, n);
      }
    }
  }

  /** `compute_water_flux`: the downslope grid and the flux grid. The
      `sea_level` argument of the source is unused there and is omitted. */
  method ComputeWaterFlux(elev: Grid<real>) returns (flux: array2<real>, down: array2<Option<Tile>>)
    requires Terrain(elev)
    ensures flux.Length0 == down.Length0 == |elev| && flux.Length1 == down.Length1 == Cols(elev)
    ensures forall y, x :: 0 <= y < |elev| && 0 <= x < Cols(elev) ==> down[y, x] == Downslope(elev, Tile(y, x))
    ensures forall y, x :: 0 <= y < |elev| && 0 <= x < Cols(elev) ==> flux[y, x] == Flux(elev, Tile(y, x))
  {
    down := DownslopeGrid(elev);
    flux := AccumulateFlux(elev, down);
  }

  /** The first double loop of `compute_water_flux` (rivers.py:37-48). */
  method DownslopeGrid(elev: Grid<real>) returns (down: array2<Option<Tile>>)
    requires Terrain(elev)
    ensures down.Length0 == |elev| && down.Length1 == Cols(elev)
    ensures forall y, x :: 0 <= y < |elev| && 0 <= x < Cols(elev) ==> down[y, x] == Downslope(elev, Tile(y, x))
  {
    var height, width := |elev|, Cols(elev);
    down := new Option<Tile>[height, width]((y, x) => None);
    for y := 0 to height
      invariant forall y', x' {:trigger Downslope(elev, Tile(y', x'))} :: 0 <= y' < y && 0 <= x' < width ==> down[y', x'] == Downslope(elev, Tile(y', x'))
      invariant forall y', x' :: y <= y' < height && 0 <= x' < width ==> down[y', x'] == None
    {
      DownslopeRow(elev, down, y);
    }
  }

  /** One pass of the inner `for x` loop: row `y` of the downslope grid. */
  method DownslopeRow(elev: Grid<real>, down: array2<Option<Tile>>, y: nat)
    requires Terrain(elev) && y < |elev|
    requires down.Length0 == |elev| && down.Length1 == Cols(elev)
    requires forall x :: 0 <= x < Cols(elev) ==> down[y, x] == None
    modifies down
    ensures forall x {:trigger Downslope(elev, Tile(y, x))} :: 0 <= x < Cols(elev) ==> down[y, x] == Downslope(elev, Tile(y, x))
    ensures forall y', x' :: 0 <= y' < |elev| && y' != y && 0 <= x' < Cols(elev) ==> down[y', x'] == old(down[y', x'])
  {
    for x := 0 to Cols(elev)
      invariant forall x' {:trigger Downslope(elev, Tile(y, x'))} :: 0 <= x' < x ==> down[y, x'] == Downslope(elev, Tile(y, x'))
      invariant forall x' :: x <= x' < Cols(elev) ==> down[y, x'] == None
      invariant forall y', x' :: 0 <= y' < |elev| && y' != y && 0 <= x' < Cols(elev) ==> down[y', x'] == old(down[y', x'])
    {
      var best := SteepestNeighbour(elev, Tile(y, x));
      if best.Some? {
        down[y, x] := best;
      }
    }
  }

  /** The direction scan of rivers.py:40-46 for one tile. */
  method SteepestNeighbour(elev: Grid<real>, t: Tile) returns (best: Option<Tile>)
    requires Terrain(elev) && OnMap(elev, t)
    ensures best == Downslope(elev, t)
  {
    var minElev := elev[t.y][t.x];
    best := None;
    for i := 0 to 4
      invariant (minElev, best) == ScanDown(elev, t, i)
    {
      var n := Neighbour(t, i);
      if 0 <= n.y < |elev| && 0 <= n.x < Cols(elev) && elev[n.y][n.x] < minElev {
        minElev := elev[n.y][n.x];
        best := Some(n);
      }
    }
  }

  /** The second half of `compute_water_flux` (rivers.py:50-56): every tile
      starts with flux 1 and, in the stable descending-elevation order of the
      row-major tile list, passes its flux on to its downslope target. A
      tile's own flux is final when it is reached, because every tile that
      drains into it is strictly higher and so comes earlier. */
  method AccumulateFlux(elev: Grid<real>, down: array2<Option<Tile>>) returns (flux: array2<real>)
    requires Terrain(elev)
    requires down.Length0 == |elev| && down.Length1 == Cols(elev)
    requires forall y, x {:trigger Downslope(elev, Tile(y, x))} :: 0 <= y < |elev| && 0 <= x < Cols(elev) ==> down[y, x] == Downslope(elev, Tile(y, x))
    ensures flux.Length0 == |elev| && flux.Length1 == Cols(elev)
    ensures forall y, x {:trigger Flux(elev, Tile(y, x))} :: 0 <= y < |elev| && 0 <= x < Cols(elev) ==> flux[y, x] == Flux(elev, Tile(y, x))
  {
    var height, width := |elev|, Cols(elev);
    flux := new real[height, width]((y, x) => 1.0);
    var order := ElevationOrder(elev);
    ghost var done: set<Tile> := {};
    for k := 0 to |order|
      invariant done == set j | 0 <= j < k :: order[j]
      invariant FluxSoFar(elev, flux, done)
    {
      var t := order[k];
      NextInOrder(elev, order, k, done);
      PassOn(elev, down, flux, t, done);
      done := done + {t};
    }
    AllProcessed(elev, order, done);
    FluxDone(elev, flux, done);
  }

  /** Every tile holds 1 plus the flux passed on to it by the tiles in `done`. */
  ghost predicate FluxSoFar(elev: Grid<real>, flux: array2<real>, done: set<Tile>)
    requires Terrain(elev)
    reads flux
  {
    && flux.Length0 == |elev| && flux.Length1 == Cols(elev)
    && forall y, x {:trigger Inflow(elev, Tile(y, x), done)} :: 0 <= y < |elev| && 0 <= x < Cols(elev) ==> flux[y, x] == 1.0 + Inflow(elev, Tile(y, x), done)
  }

  lemma FluxDone(elev: Grid<real>, flux: array2<real>, done: set<Tile>)
    requires Terrain(elev) && FluxSoFar(elev, flux, done) && done == AllTiles(|elev|, Cols(elev))
    ensures forall y, x {:trigger Flux(elev, Tile(y, x))} :: 0 <= y < |elev| && 0 <= x < Cols(elev) ==> flux[y, x] == Flux(elev, Tile(y, x))
  {
  }

  /** `order = [(y, x) for y ... for x ...]; order.sort(key=lambda p: -elevation[p])`
      (rivers.py:51-52). */
  method ElevationOrder(elev: Grid<real>) returns (order: seq<Tile>)
    requires Terrain(elev)
    ensures Processing(elev, order)
  {
    RowMajorIndexes(elev);
    order := SortDesc(RowMajor(|elev|, Cols(elev)), elev);
    OrderFacts(elev, order);
  }

  lemma AllProcessed(elev: Grid<real>, order: seq<Tile>, done: set<Tile>)
    requires Terrain(elev) && Processing(elev, order)
    requires done == set j | 0 <= j < |order| :: order[j]
    ensures done == AllTiles(|elev|, Cols(elev))
  {
    forall u ensures u in done <==> OnMap(elev, u) {
      if u in order {
        var j :| 0 <= j < |order| && order[j] == u;
      }
    }
  }

  /** One step of rivers.py:53-56: tile `t`, whose flux is final, adds it to
      the flux of its downslope target. */
  method PassOn(elev: Grid<real>, down: array2<Option<Tile>>, flux: array2<real>, t: Tile, ghost done: set<Tile>)
    requires Terrain(elev) && OnMap(elev, t) && t !in done
    requires down.Length0 == |elev| && down.Length1 == Cols(elev)
    requires forall y, x {:trigger Downslope(elev, Tile(y, x))} :: 0 <= y < |elev| && 0 <= x < Cols(elev) ==> down[y, x] == Downslope(elev, Tile(y, x))
    requires FluxSoFar(elev, flux, done)
    requires Inflow(elev, t, done) == Inflow(elev, t, AllTiles(|elev|, Cols(elev)))
    modifies flux
    ensures FluxSoFar(elev, flux, done + {t})
  {
    DownslopeSpec(elev, t);
    ghost var ft := flux[t.y, t.x];
    assert ft == Flux(elev, t);
    label Before:
    match down[t.y, t.x] {
      case Some(n) =>
        flux[n.y, n.x] := flux[n.y, n.x] + flux[t.y, t.x];
      case None =>
    }
    forall y, x | 0 <= y < |elev| && 0 <= x < Cols(elev)
      ensures flux[y, x] == 1.0 + Inflow(elev, Tile(y, x), done + {t})
    {
      InflowAdd(elev, Tile(y, x), done, t);
      assert flux[y, x] == old@Before(flux[y, x]) + (if Downslope(elev, t) == Some(Tile(y, x)) then ft else 0.0);
    }
  }

  /** `order` lists every tile of the map once, by elevation descending, ties
      in row-major order. */
  ghost predicate Processing(elev: Grid<real>, order: seq<Tile>)
    requires Terrain(elev)
  {
    && Indexes(order, elev)
    && SortedBefore(order, elev)
    && forall t :: t in order <==> OnMap(elev, t)
  }

  /** When the k-th tile of the processing order is reached, it has not been
      processed yet and every tile that drains into it has. */
  lemma NextInOrder(elev: Grid<real>, order: seq<Tile>, k: nat, done: set<Tile>)
    requires Terrain(elev) && Processing(elev, order)
    requires k < |order| && done == set j | 0 <= j < k :: order[j]
    ensures OnMap(elev, order[k]) && order[k] !in done
    ensures Inflow(elev, order[k], done) == Inflow(elev, order[k], AllTiles(|elev|, Cols(elev)))
  {
    var t := order[k];
    assert t in order;
    forall j | k < j < |order| ensures Keyed(elev, order[j]) && At(elev, order[j]) <= At(elev, t) {
      assert order[j] in order;
      assert Before(elev, order[k], order[j]);
    }
    forall u | OnMap(elev, u) && At(elev, u) > At(elev, t) ensures u in done {
      var j :| 0 <= j < |order| && order[j] == u;
    }
    InflowComplete(elev, t, done);
    forall j | 0 <= j < k ensures order[j] != t {
      assert Before(elev, order[j], order[k]);
    }
  }

  lemma RowMajorIndexes(elev: Grid<real>)
    requires Terrain(elev)
    ensures Indexes(RowMajor(|elev|, Cols(elev)), elev)
  {
    forall t | t in RowMajor(|elev|, Cols(elev)) ensures Keyed(elev, t) { RowMajorMembers(|elev|, Cols(elev), t); }
  }

  /** The processing order of rivers.py:51-52 is a permutation of the tiles,
      strictly ordered by elevation descending, ties row-major. */
  lemma OrderFacts(elev: Grid<real>, order: seq<Tile>)
    requires Terrain(elev) && Indexes(RowMajor(|elev|, Cols(elev)), elev)
    requires order == SortDesc(RowMajor(|elev|, Cols(elev)), elev)
    ensures Processing(elev, order)
  {
    var rm := RowMajor(|elev|, Cols(elev));
    RowMajorSorted(|elev|, Cols(elev));
    SortDescOrdered(rm, elev);
    forall t ensures t in order <==> OnMap(elev, t) {
      RowMajorMembers(|elev|, Cols(elev), t);
      assert t in order <==> t in multiset(order);
      assert t in rm <==> t in multiset(rm);
    }
  }

  // ---------------------------------------------------------------------
  // River width (rivers.py:89)
  // ---------------------------------------------------------------------

  function Pow2(k: nat): (r: nat)
    ensures r >= 1
  {
    if k == 0 then 1 else 2 * Pow2(k - 1)
  }

  /** The floor of the base-2 logarithm of a positive integer. */
  function Log2Floor(n: nat): (r: nat)
    requires n >= 1
    ensures Pow2(r) <= n < Pow2(r + 1)
  {
    if n == 1 then 0 else 1 + Log2Floor(n / 2)
  }

  /** `int(max(1, np.log2(f)))`: 1 for a flux below 2 (including the -inf and
      nan that log2 gives for 0 and negative values, which `max` discards),
      otherwise the whole part of log2(f). */
  function RiverWidth(f: real): (r: nat)
    ensures r >= 1
    ensures f < 2.0 ==> r == 1
    ensures f >= 2.0 ==> Pow2(r) as real <= f < Pow2(r + 1) as real
  {
    if f < 2.0 then 1 else Log2Floor(f.Floor)
  }

  // ---------------------------------------------------------------------
  // River tracing (rivers.py:61-99)
  // ---------------------------------------------------------------------

  /** The inputs of `trace_rivers`: three grids of one shape, and a downslope
      grid whose entries are "none" or tiles of the map. */
  ghost predicate TraceInputs(flux: Grid<real>, down: Grid<Option<Tile>>, elev: Grid<real>) {
    && Terrain(elev)
    && Shaped(flux, |elev|, Cols(elev))
    && Shaped(down, |elev|, Cols(elev))
    && forall y, x :: 0 <= y < |elev| && 0 <= x < Cols(elev) && down[y][x].Some? ==> OnMap(elev, down[y][x].value)
  }

  /** The river tiles of the source are stored as (x, y). */
  function PointOf(t: Tile): Point {
    Point(t.x, t.y)
  }

  function TileOf(p: Point): Tile {
    Tile(p.y, p.x)
  }

  /** `[(y, x) for y ... for x ... if water_flux[y, x] >= min_flux]` over the
      tiles `ts`. */
  function Candidates(ts: seq<Tile>, flux: Grid<real>, minFlux: real): (r: seq<Tile>)
    requires Indexes(ts, flux)
    ensures forall t :: t in r <==> t in ts && At(flux, t) >= minFlux
  {
    if ts == [] then []
    else
      var p := ts[..|ts| - 1];
      var t := ts[|ts| - 1];
      assert ts == p + [t];
      assert Indexes(p, flux) by { forall u | u in p ensures u in ts { } }
      var rp := Candidates(p, flux, minFlux);
      if (assert t in ts; At(flux, t) >= minFlux) then rp + [t] else rp
  }

  /** Filtering a row-major list keeps it in row-major order. */
  lemma {:induction false} CandidatesOrdered(ts: seq<Tile>, flux: Grid<real>, minFlux: real)
    requires Indexes(ts, flux) && RowMajorStrict(ts)
    ensures RowMajorStrict(Candidates(ts, flux, minFlux))
  {
    if ts != [] {
      var p, t := ts[..|ts| - 1], ts[|ts| - 1];
      assert ts == p + [t];
      assert Indexes(p, flux) by { forall u | u in p ensures u in ts { } }
      assert RowMajorStrict(p) by {
        forall i, j | 0 <= i < j < |p| ensures RowMajorLess(p[i], p[j]) {
          assert p[i] == ts[i] && p[j] == ts[j];
        }
      }
      CandidatesOrdered(p, flux, minFlux);
      var rp := Candidates(p, flux, minFlux);
      var r := Candidates(ts, flux, minFlux);
      assert t in ts;
      if At(flux, t) >= minFlux {
        assert r == rp + [t];
        forall i, j | 0 <= i < j < |r| ensures RowMajorLess(r[i], r[j]) {
          if j < |rp| {
            assert r[i] == rp[i] && r[j] == rp[j];
          } else {
            assert r[i] == rp[i] && rp[i] in rp && r[j] == t;
            var k :| 0 <= k < |p| && p[k] == rp[i];
            assert ts[k] == p[k];
          }
        }
      } else {
        assert r == rp;
      }
    }
  }

  /** A walk: consecutive tiles linked by the downslope grid. */
  ghost predicate Linked(down: Grid<Option<Tile>>, path: seq<Tile>)
  {
    forall j :: 0 <= j < |path| - 1 ==>
      0 <= path[j].y < |down| && 0 <= path[j].x < |down[path[j].y]| && At(down, path[j]) == Some(path[j + 1])
  }

  predicate Land(elev: Grid<real>, sea: real, t: Tile)
    requires 0 <= t.y < |elev| && 0 <= t.x < |elev[t.y]|
  {
    At(elev, t) >= sea
  }

  /** The bookkeeping of `trace_rivers` between walks, on the contents `m`
      and `wd` of `river_map` and `river_width`: `visited` is exactly the set
      of tiles with a river id, every id is below `nextId`, only land is
      marked, and a marked tile's width is its flux's `RiverWidth`. */
  ghost predicate Marking(flux: Grid<real>, down: Grid<Option<Tile>>, elev: Grid<real>, sea: real,
                          m: Grid<int>, wd: Grid<int>, visited: set<Tile>, nextId: int)
    requires TraceInputs(flux, down, elev)
  {
    && Shaped(m, |elev|, Cols(elev)) && Shaped(wd, |elev|, Cols(elev))
    && (forall t :: t in visited ==> OnMap(elev, t))
    && forall y, x :: 0 <= y < |elev| && 0 <= x < Cols(elev) ==>
      && (Tile(y, x) in visited <==> m[y][x] != 0)
      && 0 <= m[y][x] < nextId
      && (m[y][x] != 0 ==> elev[y][x] >= sea)
      && wd[y][x] == (if m[y][x] != 0 then RiverWidth(flux[y][x]) else 0)
  }

  /** Every tile of `v` whose downslope is land has that downslope in `v`:
      a walk only stops at a land tile that has been visited. */
  ghost predicate Closed(flux: Grid<real>, down: Grid<Option<Tile>>, elev: Grid<real>, sea: real, v: set<Tile>)
    requires TraceInputs(flux, down, elev)
  {
    forall t :: t in v && OnMap(elev, t) && At(down, t).Some? && Land(elev, sea, At(down, t).value) ==>
      At(down, t).value in v
  }

  /** Every tile of `v` is a source (its flux reaches `minFlux`) or the
      downslope of another tile of `v`. */
  ghost predicate Fed(flux: Grid<real>, down: Grid<Option<Tile>>, elev: Grid<real>, minFlux: real, v: set<Tile>)
    requires TraceInputs(flux, down, elev)
  {
    forall t :: t in v ==>
      OnMap(elev, t) && (At(flux, t) >= minFlux || exists u :: u in v && OnMap(elev, u) && At(down, u) == Some(t))
  }

  lemma VisitedBound(elev: Grid<real>, visited: set<Tile>, c: Tile)
    requires forall t :: t in visited ==> OnMap(elev, t)
    requires OnMap(elev, c)
    ensures |visited + {c}| <= |elev| * Cols(elev)
  {
    TilesBound(visited + {c}, |elev|, Cols(elev));
  }

  /** The line the `while` loop of rivers.py:82-94 builds, as tiles, when it
      reaches `c` with the line so far `acc` and the set `visited`: it stops
      at a sea tile or a visited tile; otherwise it takes `c` and goes on to
      c's downslope while that is land. */
  ghost function Walk(flux: Grid<real>, down: Grid<Option<Tile>>, elev: Grid<real>, sea: real,
                      visited: set<Tile>, c: Tile, acc: seq<Tile>): seq<Tile>
    requires TraceInputs(flux, down, elev) && OnMap(elev, c)
    requires forall t :: t in visited ==> OnMap(elev, t)
    decreases |elev| * Cols(elev) - |visited|
  {
    if !Land(elev, sea, c) || c in visited then acc
    else
      match At(down, c)
      case None => acc + [c]
      case Some(n) =>
        if !Land(elev, sea, n) then acc + [c]
        else
          VisitedBound(elev, visited, c);
          Walk(flux, down, elev, sea, visited + {c}, n, acc + [c])
  }

  /** How a walk ends (rivers.py:85-86 and 92-93): its last tile drains
      nowhere, into the sea, or into a tile visited before. */
  ghost predicate Stops(down: Grid<Option<Tile>>, elev: Grid<real>, sea: real, path: seq<Tile>, visited: set<Tile>)
    requires Terrain(elev) && Shaped(down, |elev|, Cols(elev))
  {
    path != [] ==>
      var p := path[|path| - 1];
      OnMap(elev, p) &&
      (At(down, p).None? || (OnMap(elev, At(down, p).value) && (!Land(elev, sea, At(down, p).value) || At(down, p).value in visited)))
  }

  /** The walk `path` continues with `c`: its last tile drains into `c`. */
  ghost predicate Continues(down: Grid<Option<Tile>>, path: seq<Tile>, c: Tile) {
    path != [] ==>
      var p := path[|path| - 1];
      0 <= p.y < |down| && 0 <= p.x < |down[p.y]| && At(down, p) == Some(c)
  }

  lemma LinkedAppend(down: Grid<Option<Tile>>, path: seq<Tile>, c: Tile)
    requires Linked(down, path) && Continues(down, path, c)
    ensures Linked(down, path + [c])
  {
    var q := path + [c];
    forall j | 0 <= j < |q| - 1
      ensures 0 <= q[j].y < |down| && 0 <= q[j].x < |down[q[j].y]| && At(down, q[j]) == Some(q[j + 1])
    {
      if j < |path| - 1 {
        assert q[j] == path[j] && q[j + 1] == path[j + 1];
      }
    }
  }

  /** What holds of a partial walk `acc` from `s`, started with `v0` visited
      and now about to look at `c` with `v` visited. */
  ghost predicate WalkSoFar(flux: Grid<real>, down: Grid<Option<Tile>>, elev: Grid<real>, sea: real,
                            v0: set<Tile>, v: set<Tile>, s: Tile, c: Tile, acc: seq<Tile>)
    requires TraceInputs(flux, down, elev) && OnMap(elev, c)
  {
    && (forall t :: t in v <==> t in v0 || t in acc)
    && (acc == [] ==> c == s)
    && (acc != [] ==> acc[0] == s && Land(elev, sea, c))
    && (forall j :: 0 <= j < |acc| ==> OnMap(elev, acc[j]) && Land(elev, sea, acc[j]) && acc[j] !in v0)
    && (forall i, j :: 0 <= i < j < |acc| ==> acc[i] != acc[j])
    && Linked(down, acc) && Continues(down, acc, c)
  }

  /** What the whole walk `w` from `s`, started with `v0` visited, satisfies. */
  ghost predicate WalkShape(flux: Grid<real>, down: Grid<Option<Tile>>, elev: Grid<real>, sea: real,
                            v0: set<Tile>, s: Tile, w: seq<Tile>)
    requires TraceInputs(flux, down, elev) && OnMap(elev, s)
  {
    && (w == [] <==> !Land(elev, sea, s) || s in v0)
    && (w != [] ==> w[0] == s)
    && (forall j :: 0 <= j < |w| ==> OnMap(elev, w[j]) && Land(elev, sea, w[j]) && w[j] !in v0)
    && (forall i, j :: 0 <= i < j < |w| ==> w[i] != w[j])
    && Linked(down, w)
    && Stops(down, elev, sea, w, v0 + set t | t in w)
  }

  lemma {:induction false} WalkFrom(flux: Grid<real>, down: Grid<Option<Tile>>, elev: Grid<real>, sea: real,
                                    v0: set<Tile>, v: set<Tile>, s: Tile, c: Tile, acc: seq<Tile>)
    requires TraceInputs(flux, down, elev) && OnMap(elev, c)
    requires forall t :: t in v ==> OnMap(elev, t)
    requires WalkSoFar(flux, down, elev, sea, v0, v, s, c, acc)
    ensures WalkShape(flux, down, elev, sea, v0, s, Walk(flux, down, elev, sea, v, c, acc))
    decreases |elev| * Cols(elev) - |v|
  {
    if !Land(elev, sea, c) || c in v {
      WalkEndsBefore(flux, down, elev, sea, v0, v, s, c, acc);
    } else {
      match At(down, c)
      case None =>
        WalkEndsAt(flux, down, elev, sea, v0, v, s, c, acc);
      case Some(n) =>
        if Land(elev, sea, n) {
          WalkSoFarStep(flux, down, elev, sea, v0, v, s, c, acc);
          TilesBound(v + {c}, |elev|, Cols(elev));
          WalkFrom(flux, down, elev, sea, v0, v + {c}, s, n, acc + [c]);
        } else {
          WalkEndsAt(flux, down, elev, sea, v0, v, s, c, acc);
        }
    }
  }

  /** The walk ends before `c`, which is sea or already visited. */
  lemma WalkEndsBefore(flux: Grid<real>, down: Grid<Option<Tile>>, elev: Grid<real>, sea: real,
                       v0: set<Tile>, v: set<Tile>, s: Tile, c: Tile, acc: seq<Tile>)
    requires TraceInputs(flux, down, elev) && OnMap(elev, c)
    requires WalkSoFar(flux, down, elev, sea, v0, v, s, c, acc)
    requires !Land(elev, sea, c) || c in v
    ensures WalkShape(flux, down, elev, sea, v0, s, acc)
  {
    if acc != [] {
      var p := acc[|acc| - 1];
      assert p in (set t | t in acc);
    }
  }

  /** The walk ends with the unvisited land tile `c`, which drains nowhere or
      into the sea. */
  lemma WalkEndsAt(flux: Grid<real>, down: Grid<Option<Tile>>, elev: Grid<real>, sea: real,
                   v0: set<Tile>, v: set<Tile>, s: Tile, c: Tile, acc: seq<Tile>)
    requires TraceInputs(flux, down, elev) && OnMap(elev, c)
    requires WalkSoFar(flux, down, elev, sea, v0, v, s, c, acc)
    requires Land(elev, sea, c) && c !in v
    requires At(down, c).None? || !Land(elev, sea, At(down, c).value)
    ensures WalkShape(flux, down, elev, sea, v0, s, acc + [c])
  {
    WalkSoFarStep(flux, down, elev, sea, v0, v, s, c, acc);
  }

  /** Taking the land tile `c`, not yet visited, keeps `WalkSoFar`. */
  lemma WalkSoFarStep(flux: Grid<real>, down: Grid<Option<Tile>>, elev: Grid<real>, sea: real,
                      v0: set<Tile>, v: set<Tile>, s: Tile, c: Tile, acc: seq<Tile>)
    requires TraceInputs(flux, down, elev) && OnMap(elev, c)
    requires WalkSoFar(flux, down, elev, sea, v0, v, s, c, acc)
    requires Land(elev, sea, c) && c !in v
    ensures var acc' := acc + [c];
      && (forall t :: t in v + {c} <==> t in v0 || t in acc')
      && acc'[0] == s
      && (forall j :: 0 <= j < |acc'| ==> OnMap(elev, acc'[j]) && Land(elev, sea, acc'[j]) && acc'[j] !in v0)
      && (forall i, j :: 0 <= i < j < |acc'| ==> acc'[i] != acc'[j])
      && Linked(down, acc')
      && (set t | t in acc') == (set t | t in acc) + {c}
  {
    var acc' := acc + [c];
    LinkedAppend(down, acc, c);
    forall i, j | 0 <= i < j < |acc'| ensures acc'[i] != acc'[j] {
      if j < |acc| { assert acc'[i] == acc[i] && acc'[j] == acc[j]; }
      else { assert acc'[i] == acc[i] && acc'[i] in v; }
    }
  }

  /** A walk from `s` is empty exactly when `s` is sea or already visited;
      otherwise it starts at `s`. Its tiles are distinct land tiles not
      visited before, each draining into the next, and it stops at a tile
      that drains nowhere, into the sea, or into a tile visited before or
      during the walk. */
  lemma WalkFacts(flux: Grid<real>, down: Grid<Option<Tile>>, elev: Grid<real>, sea: real,
                  visited: set<Tile>, s: Tile)
    requires TraceInputs(flux, down, elev) && OnMap(elev, s)
    requires forall t :: t in visited ==> OnMap(elev, t)
    ensures var w := Walk(flux, down, elev, sea, visited, s, []);
      && (w == [] <==> !Land(elev, sea, s) || s in visited)
      && (w != [] ==> w[0] == s)
      && (forall j :: 0 <= j < |w| ==> OnMap(elev, w[j]) && Land(elev, sea, w[j]) && w[j] !in visited)
      && (forall i, j :: 0 <= i < j < |w| ==> w[i] != w[j])
      && Linked(down, w)
      && Stops(down, elev, sea, w, visited + set t | t in w)
  {
    WalkFrom(flux, down, elev, sea, visited, visited, s, s, []);
  }

  /** The `while` loop of rivers.py:82-94 for one source `s`: mark the tiles
      of the walk from `s` with `id` and their width, append them to the line
      as (x, y), and add them to `visited`. */
  method TraceFrom(flux: Grid<real>, down: Grid<Option<Tile>>, elev: Grid<real>, sea: real,
                   riverMap: array2<int>, riverWidth: array2<int>, s: Tile, id: int, visited: set<Tile>)
    returns (line: seq<Point>, visited': set<Tile>, ghost path: seq<Tile>)
    requires TraceInputs(flux, down, elev) && OnMap(elev, s)
    requires forall t :: t in visited ==> OnMap(elev, t)
    requires riverMap != riverWidth
    requires riverMap.Length0 == riverWidth.Length0 == |elev| && riverMap.Length1 == riverWidth.Length1 == Cols(elev)
    modifies riverMap, riverWidth
    ensures path == Walk(flux, down, elev, sea, visited, s, [])
    ensures |line| == |path| && forall j :: 0 <= j < |path| ==> line[j] == PointOf(path[j])
    ensures forall t :: t in visited' <==> t in visited || t in path
    ensures forall y, x {:trigger riverMap[y, x]} :: 0 <= y < |elev| && 0 <= x < Cols(elev) ==>
      riverMap[y, x] == (if Tile(y, x) in path then id else old(riverMap[y, x]))
    ensures forall y, x {:trigger riverWidth[y, x]} :: 0 <= y < |elev| && 0 <= x < Cols(elev) ==>
      riverWidth[y, x] == (if Tile(y, x) in path then RiverWidth(flux[y][x]) else old(riverWidth[y, x]))
  {
    var c := s;
    line, visited', path := [], visited, [];
    while elev[c.y][c.x] >= sea
      invariant OnMap(elev, c)
      invariant forall t :: t in visited' ==> OnMap(elev, t)
      invariant forall t :: t in visited' <==> t in visited || t in path
      invariant Walk(flux, down, elev, sea, visited', c, path) == Walk(flux, down, elev, sea, visited, s, [])
      invariant |line| == |path| && forall j :: 0 <= j < |path| ==> line[j] == PointOf(path[j])
      invariant forall y, x {:trigger riverMap[y, x]} :: 0 <= y < |elev| && 0 <= x < Cols(elev) ==>
        riverMap[y, x] == (if Tile(y, x) in path then id else old(riverMap[y, x]))
      invariant forall y, x {:trigger riverWidth[y, x]} :: 0 <= y < |elev| && 0 <= x < Cols(elev) ==>
        riverWidth[y, x] == (if Tile(y, x) in path then RiverWidth(flux[y][x]) else old(riverWidth[y, x]))
      decreases |elev| * Cols(elev) - |visited'|
    {
      if c in visited' {
        break;
      }
      riverMap[c.y, c.x] := id;
      riverWidth[c.y, c.x] := RiverWidth(flux[c.y][c.x]);
      visited' := visited' + {c};
      TilesBound(visited', |elev|, Cols(elev));
      line := line + [PointOf(c)];
      path := path + [c];
      match down[c.y][c.x] {
        case None =>
          break;
        case Some(n) =>
          if elev[n.y][n.x] < sea {
            break;
          }
          c := n;
      }
    }
  }

  /** A line of the result of `trace_rivers`: at least two distinct (x, y)
      points of the map, each draining into the next, starting at a source,
      whose points are exactly the tiles that `m` marks with its first
      tile's id. */
  ghost predicate RiverLine(flux: Grid<real>, down: Grid<Option<Tile>>, elev: Grid<real>, minFlux: real,
                            m: Grid<int>, line: seq<Point>)
    requires TraceInputs(flux, down, elev) && Shaped(m, |elev|, Cols(elev))
  {
    && |line| >= 2
    && (forall j :: 0 <= j < |line| ==> OnMap(elev, TileOf(line[j])))
    && (forall j :: 0 <= j < |line| - 1 ==> At(down, TileOf(line[j])) == Some(TileOf(line[j + 1])))
    && (forall i, j :: 0 <= i < j < |line| ==> line[i] != line[j])
    && At(flux, TileOf(line[0])) >= minFlux
    && At(m, TileOf(line[0])) >= 1
    && forall y, x :: 0 <= y < |elev| && 0 <= x < Cols(elev) ==>
      (m[y][x] == At(m, TileOf(line[0])) <==> Point(x, y) in line)
  }

  /** The id a line's tiles carry in `m`. */
  function LineId(m: Grid<int>, line: seq<Point>): int
    requires |line| >= 1 && 0 <= line[0].y < |m| && 0 <= line[0].x < |m[line[0].y]|
  {
    At(m, TileOf(line[0]))
  }

  /** Every line is a `RiverLine`, and the lines come in increasing id order. */
  ghost predicate RiverLines(flux: Grid<real>, down: Grid<Option<Tile>>, elev: Grid<real>, minFlux: real,
                             m: Grid<int>, lines: seq<seq<Point>>)
    requires TraceInputs(flux, down, elev) && Shaped(m, |elev|, Cols(elev))
  {
    && (forall i :: 0 <= i < |lines| ==> RiverLine(flux, down, elev, minFlux, m, lines[i]))
    && forall i, j :: 0 <= i < j < |lines| ==> LineId(m, lines[i]) < LineId(m, lines[j])
  }

  /** What `trace_rivers` promises of `river_map` (`m`) and `river_width`
      (`wd`): ids are non-negative and only mark land; a marked tile's width
      is `RiverWidth` of its flux and an unmarked one's is 0; every land
      source is marked; the land downslope of a marked tile is marked; and
      every marked tile is a source or the downslope of a marked tile. */
  ghost predicate RiverMarks(flux: Grid<real>, down: Grid<Option<Tile>>, elev: Grid<real>, minFlux: real, sea: real,
                             m: Grid<int>, wd: Grid<int>)
    requires TraceInputs(flux, down, elev)
  {
    && Shaped(m, |elev|, Cols(elev)) && Shaped(wd, |elev|, Cols(elev))
    && forall y, x :: 0 <= y < |elev| && 0 <= x < Cols(elev) ==>
      && m[y][x] >= 0
      && (m[y][x] != 0 ==> elev[y][x] >= sea)
      && wd[y][x] == (if m[y][x] != 0 then RiverWidth(flux[y][x]) else 0)
      && (flux[y][x] >= minFlux && elev[y][x] >= sea ==> m[y][x] != 0)
      && (m[y][x] != 0 && down[y][x].Some? && Land(elev, sea, down[y][x].value) ==> At(m, down[y][x].value) != 0)
      && (m[y][x] != 0 ==>
            flux[y][x] >= minFlux || exists u :: OnMap(elev, u) && At(m, u) != 0 && At(down, u) == Some(Tile(y, x)))
  }

  lemma RowMajorKeys(flux: Grid<real>, elev: Grid<real>)
    requires Terrain(elev) && Shaped(flux, |elev|, Cols(elev))
    ensures Indexes(RowMajor(|elev|, Cols(elev)), flux)
  {
    forall t | t in RowMajor(|elev|, Cols(elev)) ensures Keyed(flux, t) { RowMajorMembers(|elev|, Cols(elev), t); }
  }

  /** The sources are the tiles of the map whose flux reaches `minFlux`, by
      flux descending, ties in row-major order. */
  lemma SourcesFacts(flux: Grid<real>, elev: Grid<real>, minFlux: real)
    requires Terrain(elev) && Shaped(flux, |elev|, Cols(elev))
    ensures var coords := Sources(flux, elev, minFlux);
      && Indexes(coords, flux)
      && (forall t :: t in coords <==> OnMap(elev, t) && At(flux, t) >= minFlux)
      && (forall j :: 0 <= j < |coords| ==> OnMap(elev, coords[j]))
      && SortedBefore(coords, flux)
  {
    var rm := RowMajor(|elev|, Cols(elev));
    RowMajorKeys(flux, elev);
    RowMajorSorted(|elev|, Cols(elev));
    var cand := Candidates(rm, flux, minFlux);
    CandidatesOrdered(rm, flux, minFlux);
    var coords := SortDesc(cand, flux);
    SortDescOrdered(cand, flux);
    forall t ensures t in coords <==> OnMap(elev, t) && At(flux, t) >= minFlux {
      RowMajorMembers(|elev|, Cols(elev), t);
      assert t in coords <==> t in multiset(coords);
      assert t in cand <==> t in multiset(cand);
    }
    forall j | 0 <= j < |coords| ensures OnMap(elev, coords[j]) {
      assert coords[j] in coords;
    }
  }

  lemma SourcesOnMap(flux: Grid<real>, elev: Grid<real>, minFlux: real)
    requires Terrain(elev) && Shaped(flux, |elev|, Cols(elev))
    ensures forall j :: 0 <= j < |Sources(flux, elev, minFlux)| ==> OnMap(elev, Sources(flux, elev, minFlux)[j])
  {
    SourcesFacts(flux, elev, minFlux);
  }

  /** rivers.py:77-78: the tiles whose flux reaches `minFlux`, by flux
      descending, ties in row-major order. */
  method SourceOrder(flux: Grid<real>, elev: Grid<real>, minFlux: real) returns (coords: seq<Tile>)
    requires Terrain(elev) && Shaped(flux, |elev|, Cols(elev))
    ensures coords == Sources(flux, elev, minFlux)
    ensures Indexes(coords, flux)
    ensures forall t :: t in coords <==> OnMap(elev, t) && At(flux, t) >= minFlux
    ensures SortedBefore(coords, flux)
  {
    RowMajorKeys(flux, elev);
    coords := SortDesc(Candidates(RowMajor(|elev|, Cols(elev)), flux, minFlux), flux);
    SourcesFacts(flux, elev, minFlux);
  }

  /** Marking the walk `path` from an unvisited source with a fresh id keeps
      `Marking`, with `id` marking exactly the walk. */
  lemma MarkingStep(flux: Grid<real>, down: Grid<Option<Tile>>, elev: Grid<real>, sea: real,
                    m0: Grid<int>, w0: Grid<int>, m1: Grid<int>, w1: Grid<int>,
                    visited: set<Tile>, visited': set<Tile>, path: seq<Tile>, id: int)
    requires TraceInputs(flux, down, elev)
    requires Marking(flux, down, elev, sea, m0, w0, visited, id) && id >= 1
    requires Shaped(m1, |elev|, Cols(elev)) && Shaped(w1, |elev|, Cols(elev))
    requires forall j :: 0 <= j < |path| ==> OnMap(elev, path[j]) && Land(elev, sea, path[j]) && path[j] !in visited
    requires forall t :: t in visited' <==> t in visited || t in path
    requires forall y, x :: 0 <= y < |elev| && 0 <= x < Cols(elev) ==>
      && m1[y][x] == (if Tile(y, x) in path then id else m0[y][x])
      && w1[y][x] == (if Tile(y, x) in path then RiverWidth(flux[y][x]) else w0[y][x])
    ensures Marking(flux, down, elev, sea, m1, w1, visited', id + 1)
    ensures forall y, x :: 0 <= y < |elev| && 0 <= x < Cols(elev) ==> (m1[y][x] == id <==> Tile(y, x) in path)
  {
    forall t | t in visited' ensures OnMap(elev, t) {
      if t in path { var j :| 0 <= j < |path| && path[j] == t; }
    }
    forall y, x | 0 <= y < |elev| && 0 <= x < Cols(elev) && Tile(y, x) in path
      ensures elev[y][x] >= sea
    {
      var j :| 0 <= j < |path| && path[j] == Tile(y, x);
    }
  }

  /** After a walk the visited set stays closed under land downslopes. */
  lemma ClosedStep(flux: Grid<real>, down: Grid<Option<Tile>>, elev: Grid<real>, sea: real,
                   visited: set<Tile>, visited': set<Tile>, path: seq<Tile>)
    requires TraceInputs(flux, down, elev)
    requires Closed(flux, down, elev, sea, visited)
    requires Linked(down, path) && Stops(down, elev, sea, path, visited + set t | t in path)
    requires forall t :: t in visited' <==> t in visited || t in path
    ensures Closed(flux, down, elev, sea, visited')
  {
    assert visited' == visited + set t | t in path;
    forall t | t in visited' && OnMap(elev, t) && At(down, t).Some? && Land(elev, sea, At(down, t).value)
      ensures At(down, t).value in visited'
    {
      if t !in visited {
        var j :| 0 <= j < |path| && path[j] == t;
        if j < |path| - 1 {
          assert path[j + 1] in path;
        }
      }
    }
  }

  /** After a walk from a source every visited tile is still fed. */
  lemma FedStep(flux: Grid<real>, down: Grid<Option<Tile>>, elev: Grid<real>, minFlux: real,
                visited: set<Tile>, visited': set<Tile>, path: seq<Tile>, s: Tile)
    requires TraceInputs(flux, down, elev) && OnMap(elev, s) && At(flux, s) >= minFlux
    requires Fed(flux, down, elev, minFlux, visited)
    requires Linked(down, path) && (path != [] ==> path[0] == s)
    requires forall j :: 0 <= j < |path| ==> OnMap(elev, path[j])
    requires forall t :: t in visited' <==> t in visited || t in path
    ensures Fed(flux, down, elev, minFlux, visited')
  {
    forall t | t in visited'
      ensures OnMap(elev, t) && (At(flux, t) >= minFlux || exists u :: u in visited' && OnMap(elev, u) && At(down, u) == Some(t))
    {
      if t in visited {
        if At(flux, t) < minFlux {
          var u :| u in visited && OnMap(elev, u) && At(down, u) == Some(t);
          assert u in visited';
        }
      } else {
        var j :| 0 <= j < |path| && path[j] == t;
        if j > 0 {
          assert path[j - 1] in visited';
          assert At(down, path[j - 1]) == Some(t);
        }
      }
    }
  }

  /** The (x, y) line of a walk holds exactly the walk's tiles. */
  lemma LineOfPath(line: seq<Point>, path: seq<Tile>, y: int, x: int)
    requires |line| == |path| && forall j :: 0 <= j < |path| ==> line[j] == PointOf(path[j])
    ensures Point(x, y) in line <==> Tile(y, x) in path
  {
    if Point(x, y) in line {
      var j :| 0 <= j < |line| && line[j] == Point(x, y);
      assert path[j] == Tile(y, x);
    }
    if Tile(y, x) in path {
      var j :| 0 <= j < |path| && path[j] == Tile(y, x);
      assert line[j] == Point(x, y);
    }
  }

  /** The earlier lines keep their ids and tiles after a walk over unvisited
      tiles is marked with a fresh id. */
  lemma OldLinesKept(flux: Grid<real>, down: Grid<Option<Tile>>, elev: Grid<real>, minFlux: real, sea: real,
                     m0: Grid<int>, w0: Grid<int>, m1: Grid<int>, visited: set<Tile>,
                     lines: seq<seq<Point>>, path: seq<Tile>, id: int)
    requires TraceInputs(flux, down, elev)
    requires Marking(flux, down, elev, sea, m0, w0, visited, id) && id >= 1
    requires RiverLines(flux, down, elev, minFlux, m0, lines)
    requires Shaped(m1, |elev|, Cols(elev))
    requires forall y, x :: 0 <= y < |elev| && 0 <= x < Cols(elev) ==>
      m1[y][x] == (if Tile(y, x) in path then id else m0[y][x])
    requires forall j :: 0 <= j < |path| ==> OnMap(elev, path[j]) && path[j] !in visited
    ensures forall i :: 0 <= i < |lines| ==>
      RiverLine(flux, down, elev, minFlux, m1, lines[i]) && LineId(m1, lines[i]) == LineId(m0, lines[i]) < id
    ensures forall y, x :: 0 <= y < |elev| && 0 <= x < Cols(elev) ==> (m1[y][x] == id <==> Tile(y, x) in path)
  {
    forall y, x | 0 <= y < |elev| && 0 <= x < Cols(elev) ensures m1[y][x] == id <==> Tile(y, x) in path {
      if Tile(y, x) !in path {
        assert m0[y][x] < id;
      }
    }
    forall i | 0 <= i < |lines|
      ensures RiverLine(flux, down, elev, minFlux, m1, lines[i]) && LineId(m1, lines[i]) == LineId(m0, lines[i]) < id
    {
      var l := lines[i];
      var lid := LineId(m0, l);
      assert TileOf(l[0]) !in path by {
        assert m0[l[0].y][l[0].x] != 0;
      }
      assert m0[l[0].y][l[0].x] < id;
      forall y, x | 0 <= y < |elev| && 0 <= x < Cols(elev) ensures m1[y][x] == lid <==> Point(x, y) in l {
        if Tile(y, x) in path {
          assert m0[y][x] == 0;
        }
      }
    }
  }

  /** The walk's own line, when it has two tiles or more, is a river line
      carrying the fresh id. */
  lemma NewLine(flux: Grid<real>, down: Grid<Option<Tile>>, elev: Grid<real>, minFlux: real,
                m1: Grid<int>, line: seq<Point>, path: seq<Tile>, id: int)
    requires TraceInputs(flux, down, elev) && id >= 1
    requires Shaped(m1, |elev|, Cols(elev))
    requires forall y, x :: 0 <= y < |elev| && 0 <= x < Cols(elev) ==> (m1[y][x] == id <==> Tile(y, x) in path)
    requires |line| == |path| > 1 && forall j :: 0 <= j < |path| ==> line[j] == PointOf(path[j])
    requires forall j :: 0 <= j < |path| ==> OnMap(elev, path[j])
    requires forall i, j :: 0 <= i < j < |path| ==> path[i] != path[j]
    requires Linked(down, path)
    requires OnMap(elev, path[0]) && At(flux, path[0]) >= minFlux
    ensures RiverLine(flux, down, elev, minFlux, m1, line) && LineId(m1, line) == id
  {
    assert TileOf(line[0]) == path[0];
    forall y, x | 0 <= y < |elev| && 0 <= x < Cols(elev) ensures m1[y][x] == id <==> Point(x, y) in line {
      LineOfPath(line, path, y, x);
    }
    forall j | 0 <= j < |line| - 1 ensures At(down, TileOf(line[j])) == Some(TileOf(line[j + 1])) {
      assert TileOf(line[j]) == path[j] && TileOf(line[j + 1]) == path[j + 1];
    }
    forall i, j | 0 <= i < j < |line| ensures line[i] != line[j] {
      assert TileOf(line[i]) == path[i] && TileOf(line[j]) == path[j];
    }
  }

  /** The earlier lines keep their ids and tiles after a walk is marked with
      a fresh id, and the walk's own line, when it has two tiles or more,
      joins them as the line with the largest id. */
  lemma LinesStep(flux: Grid<real>, down: Grid<Option<Tile>>, elev: Grid<real>, minFlux: real, sea: real,
                  m0: Grid<int>, w0: Grid<int>, m1: Grid<int>, visited: set<Tile>,
                  lines: seq<seq<Point>>, line: seq<Point>, path: seq<Tile>, id: int)
    requires TraceInputs(flux, down, elev)
    requires Marking(flux, down, elev, sea, m0, w0, visited, id) && id >= 1
    requires RiverLines(flux, down, elev, minFlux, m0, lines)
    requires Shaped(m1, |elev|, Cols(elev))
    requires forall y, x :: 0 <= y < |elev| && 0 <= x < Cols(elev) ==>
      m1[y][x] == (if Tile(y, x) in path then id else m0[y][x])
    requires forall j :: 0 <= j < |path| ==> OnMap(elev, path[j]) && path[j] !in visited
    requires forall i, j :: 0 <= i < j < |path| ==> path[i] != path[j]
    requires Linked(down, path)
    requires path != [] ==> OnMap(elev, path[0]) && At(flux, path[0]) >= minFlux
    requires |line| == |path| && forall j :: 0 <= j < |path| ==> line[j] == PointOf(path[j])
    ensures RiverLines(flux, down, elev, minFlux, m1, if |line| > 1 then lines + [line] else lines)
  {
    OldLinesKept(flux, down, elev, minFlux, sea, m0, w0, m1, visited, lines, path, id);
    if |line| > 1 {
      NewLine(flux, down, elev, minFlux, m1, line, path, id);
      LinesJoin(flux, down, elev, minFlux, m1, lines, line, id);
    }
  }

  /** A line whose id is larger than every earlier line's keeps the lines in
      increasing id order when appended. */
  lemma LinesJoin(flux: Grid<real>, down: Grid<Option<Tile>>, elev: Grid<real>, minFlux: real,
                  m1: Grid<int>, lines: seq<seq<Point>>, line: seq<Point>, id: int)
    requires TraceInputs(flux, down, elev) && Shaped(m1, |elev|, Cols(elev))
    requires forall i :: 0 <= i < |lines| ==> RiverLine(flux, down, elev, minFlux, m1, lines[i]) && LineId(m1, lines[i]) < id
    requires RiverLines(flux, down, elev, minFlux, m1, lines)
    requires RiverLine(flux, down, elev, minFlux, m1, line) && LineId(m1, line) == id
    ensures RiverLines(flux, down, elev, minFlux, m1, lines + [line])
  {
    var ls := lines + [line];
    forall i | 0 <= i < |ls| ensures RiverLine(flux, down, elev, minFlux, m1, ls[i]) {
      if i < |lines| { assert ls[i] == lines[i]; }
    }
    forall i, j | 0 <= i < j < |ls| ensures LineId(m1, ls[i]) < LineId(m1, ls[j]) {
      assert ls[i] == lines[i];
      if j < |lines| {
        assert ls[j] == lines[j];
      }
    }
  }

  /** `m1` and `w1` are `m0` and `w0` with the tiles of the walk `w`
      marked with `id` and their width, and every other tile unchanged. */
  ghost predicate Marked(flux: Grid<real>, elev: Grid<real>, m0: Grid<int>, w0: Grid<int>, m1: Grid<int>, w1: Grid<int>,
                         w: seq<Tile>, id: int)
    requires Shaped(flux, |elev|, Cols(elev))
    requires Shaped(m0, |elev|, Cols(elev)) && Shaped(w0, |elev|, Cols(elev))
    requires Shaped(m1, |elev|, Cols(elev)) && Shaped(w1, |elev|, Cols(elev))
  {
    forall y, x :: 0 <= y < |elev| && 0 <= x < Cols(elev) ==>
      && m1[y][x] == (if Tile(y, x) in w then id else m0[y][x])
      && w1[y][x] == (if Tile(y, x) in w then RiverWidth(flux[y][x]) else w0[y][x])
  }

  /** One round of the loop of rivers.py:80-97 from an unvisited source keeps
      the loop's bookkeeping. */
  lemma TraceStep(flux: Grid<real>, down: Grid<Option<Tile>>, elev: Grid<real>, minFlux: real, sea: real,
                  m0: Grid<int>, w0: Grid<int>, m1: Grid<int>, w1: Grid<int>,
                  visited: set<Tile>, visited': set<Tile>, lines: seq<seq<Point>>, line: seq<Point>,
                  path: seq<Tile>, s: Tile, id: int)
    requires TraceInputs(flux, down, elev) && OnMap(elev, s) && At(flux, s) >= minFlux
    requires Marking(flux, down, elev, sea, m0, w0, visited, id) && id >= 1
    requires Closed(flux, down, elev, sea, visited) && Fed(flux, down, elev, minFlux, visited)
    requires RiverLines(flux, down, elev, minFlux, m0, lines)
    requires path == Walk(flux, down, elev, sea, visited, s, [])
    requires forall t :: t in visited' <==> t in visited || t in path
    requires |line| == |path| && forall j :: 0 <= j < |path| ==> line[j] == PointOf(path[j])
    requires Shaped(m1, |elev|, Cols(elev)) && Shaped(w1, |elev|, Cols(elev))
    requires Marked(flux, elev, m0, w0, m1, w1, path, id)
    ensures Marking(flux, down, elev, sea, m1, w1, visited', id + 1)
    ensures Closed(flux, down, elev, sea, visited') && Fed(flux, down, elev, minFlux, visited')
    ensures Land(elev, sea, s) ==> s in visited'
    ensures RiverLines(flux, down, elev, minFlux, m1, if |line| > 1 then lines + [line] else lines)
  {
    WalkFacts(flux, down, elev, sea, visited, s);
    MarkingStep(flux, down, elev, sea, m0, w0, m1, w1, visited, visited', path, id);
    ClosedStep(flux, down, elev, sea, visited, visited', path);
    FedStep(flux, down, elev, minFlux, visited, visited', path, s);
    LinesStep(flux, down, elev, minFlux, sea, m0, w0, m1, visited, lines, line, path, id);
  }

  // The whole trace as a function of its inputs

  /** The tiles of the walks `ps`. */
  ghost function Covered(ps: seq<seq<Tile>>): set<Tile> {
    if ps == [] then {} else Covered(ps[..|ps| - 1]) + Tiles(ps[|ps| - 1])
  }

  /** The tiles of the walk `w`. */
  ghost function Tiles(w: seq<Tile>): set<Tile> {
    set t | t in w
  }

  /** The river id a tile has after the walks `ps`, the j-th of which is
      marked with id j + 1: the id of the last walk through it, or 0. */
  ghost function IdOf(ps: seq<seq<Tile>>, t: Tile): int {
    if ps == [] then 0 else if t in ps[|ps| - 1] then |ps| else IdOf(ps[..|ps| - 1], t)
  }

  /** The line of a walk, as (x, y) points. */
  function LineOf(path: seq<Tile>): (line: seq<Point>)
    ensures |line| == |path| && forall j :: 0 <= j < |path| ==> line[j] == PointOf(path[j])
  {
    seq(|path|, j requires 0 <= j < |path| => PointOf(path[j]))
  }

  /** The lines kept from the walks `ps` (rivers.py:95-96): those of two
      tiles or more, in order. */
  ghost function LinesOf(ps: seq<seq<Tile>>): seq<seq<Point>> {
    if ps == [] then []
    else LinesOf(ps[..|ps| - 1]) + if |ps[|ps| - 1]| > 1 then [LineOf(ps[|ps| - 1])] else []
  }

  /** The walks of the loop of rivers.py:80-97 over the first `k` sources of
      `coords`: every source that no earlier walk covers starts a new walk
      from the tiles covered so far and takes the next id, even when the
      walk is empty (a sea source) or a single tile. */
  ghost function Walks(flux: Grid<real>, down: Grid<Option<Tile>>, elev: Grid<real>, sea: real,
                       coords: seq<Tile>, k: int): (ps: seq<seq<Tile>>)
    requires TraceInputs(flux, down, elev) && 0 <= k <= |coords|
    requires forall j :: 0 <= j < |coords| ==> OnMap(elev, coords[j])
    ensures forall t :: t in Covered(ps) ==> OnMap(elev, t)
  {
    if k == 0 then []
    else
      var ps := Walks(flux, down, elev, sea, coords, k - 1);
      var s := coords[k - 1];
      if s in Covered(ps) then ps
      else
        var w := Walk(flux, down, elev, sea, Covered(ps), s, []);
        CoveredWalk(flux, down, elev, sea, ps, s);
        ps + [w]
  }

  /** A walk over the covered tiles stays on the map. */
  lemma CoveredWalk(flux: Grid<real>, down: Grid<Option<Tile>>, elev: Grid<real>, sea: real,
                    ps: seq<seq<Tile>>, s: Tile)
    requires TraceInputs(flux, down, elev) && OnMap(elev, s)
    requires forall t :: t in Covered(ps) ==> OnMap(elev, t)
    ensures forall t :: t in Covered(ps + [Walk(flux, down, elev, sea, Covered(ps), s, [])]) ==> OnMap(elev, t)
  {
    var w := Walk(flux, down, elev, sea, Covered(ps), s, []);
    WalkFacts(flux, down, elev, sea, Covered(ps), s);
    assert (ps + [w])[..|ps|] == ps;
  }

  /** The sources of rivers.py:77-78 in the order the loop takes them. */
  ghost function Sources(flux: Grid<real>, elev: Grid<real>, minFlux: real): seq<Tile>
    requires Terrain(elev) && Shaped(flux, |elev|, Cols(elev))
  {
    RowMajorKeys(flux, elev);
    SortDesc(Candidates(RowMajor(|elev|, Cols(elev)), flux, minFlux), flux)
  }

  /** The walks `trace_rivers` makes, one per id. */
  ghost function RiverWalks(flux: Grid<real>, down: Grid<Option<Tile>>, elev: Grid<real>, minFlux: real, sea: real)
    : seq<seq<Tile>>
    requires TraceInputs(flux, down, elev)
  {
    var coords := Sources(flux, elev, minFlux);
    SourcesOnMap(flux, elev, minFlux);
    Walks(flux, down, elev, sea, coords, |coords|)
  }

  /** No tile is on two walks. */
  ghost predicate Disjoint(ps: seq<seq<Tile>>) {
    forall i, j, t :: 0 <= i < j < |ps| && t in ps[j] ==> t !in ps[i]
  }

  /** The walks of the loop never share a tile: each one avoids the tiles
      of the walks before it. */
  lemma {:induction false} WalksDisjoint(flux: Grid<real>, down: Grid<Option<Tile>>, elev: Grid<real>, sea: real,
                                         coords: seq<Tile>, k: int)
    requires TraceInputs(flux, down, elev) && 0 <= k <= |coords|
    requires forall j :: 0 <= j < |coords| ==> OnMap(elev, coords[j])
    ensures Disjoint(Walks(flux, down, elev, sea, coords, k))
  {
    if k > 0 {
      WalksDisjoint(flux, down, elev, sea, coords, k - 1);
      var ps := Walks(flux, down, elev, sea, coords, k - 1);
      var s := coords[k - 1];
      if s !in Covered(ps) {
        var w := Walk(flux, down, elev, sea, Covered(ps), s, []);
        WalkFacts(flux, down, elev, sea, Covered(ps), s);
        var ps' := ps + [w];
        forall i, j, t | 0 <= i < j < |ps'| && t in ps'[j] ensures t !in ps'[i] {
          if j < |ps| {
            assert ps'[i] == ps[i] && ps'[j] == ps[j];
          } else {
            var n :| 0 <= n < |w| && w[n] == t;
            assert ps'[i] == ps[i];
            CoveredHas(ps, i, t);
          }
        }
      }
    }
  }

  lemma {:induction false} CoveredHas(ps: seq<seq<Tile>>, i: int, t: Tile)
    requires 0 <= i < |ps|
    ensures t in ps[i] ==> t in Covered(ps)
  {
    if i < |ps| - 1 {
      CoveredHas(ps[..|ps| - 1], i, t);
    }
  }

  /** Over disjoint walks, a tile carries id j + 1 exactly when it is on
      the j-th walk, and id 0 exactly when it is on none. */
  lemma {:induction false} IdOfDisjoint(ps: seq<seq<Tile>>, t: Tile)
    requires Disjoint(ps)
    ensures forall j :: 0 <= j < |ps| ==> (IdOf(ps, t) == j + 1 <==> t in ps[j])
    ensures IdOf(ps, t) == 0 <==> t !in Covered(ps)
    ensures 0 <= IdOf(ps, t) <= |ps|
  {
    if ps != [] {
      var p := ps[..|ps| - 1];
      assert Disjoint(p) by {
        forall i, j, u | 0 <= i < j < |p| && u in p[j] ensures u !in p[i] {
          assert p[i] == ps[i] && p[j] == ps[j];
        }
      }
      IdOfDisjoint(p, t);
      forall j | 0 <= j < |ps| ensures IdOf(ps, t) == j + 1 <==> t in ps[j] {
        if j < |p| {
          assert p[j] == ps[j];
        }
      }
    }
  }

  /** The river ids of `trace_rivers` follow its walks: a tile has id j + 1
      exactly when it is on the j-th walk, and 0 when it is on none. */
  lemma RiverWalkIds(flux: Grid<real>, down: Grid<Option<Tile>>, elev: Grid<real>, minFlux: real, sea: real, t: Tile)
    requires TraceInputs(flux, down, elev)
    ensures var ws := RiverWalks(flux, down, elev, minFlux, sea);
      && (forall j :: 0 <= j < |ws| ==> (IdOf(ws, t) == j + 1 <==> t in ws[j]))
      && (IdOf(ws, t) == 0 <==> t !in Covered(ws))
  {
    var coords := Sources(flux, elev, minFlux);
    SourcesFacts(flux, elev, minFlux);
    WalksDisjoint(flux, down, elev, sea, coords, |coords|);
    IdOfDisjoint(RiverWalks(flux, down, elev, minFlux, sea), t);
  }

  /** The river map the walks `ps` leave: every tile carries `IdOf`. */
  ghost function IdGrid(ps: seq<seq<Tile>>, h: nat, w: nat): (g: Grid<int>)
    ensures Shaped(g, h, w)
    ensures forall y, x :: 0 <= y < h && 0 <= x < w ==> g[y][x] == IdOf(ps, Tile(y, x))
  {
    seq(h, y requires 0 <= y < h => seq(w, x requires 0 <= x < w => IdOf(ps, Tile(y, x))))
  }

  /** The river widths the walks `ps` leave: a tile on a walk has the width
      its flux gives, any other tile 0. */
  ghost function WidthGrid(flux: Grid<real>, ps: seq<seq<Tile>>, h: nat, w: nat): (g: Grid<int>)
    requires Shaped(flux, h, w)
    ensures Shaped(g, h, w)
    ensures forall y, x :: 0 <= y < h && 0 <= x < w ==>
      g[y][x] == (if IdOf(ps, Tile(y, x)) != 0 then RiverWidth(flux[y][x]) else 0)
  {
    seq(h, y requires 0 <= y < h => seq(w, x requires 0 <= x < w =>
      if IdOf(ps, Tile(y, x)) != 0 then RiverWidth(flux[y][x]) else 0))
  }

  /** The loop's state agrees with the walks `ps` made so far: `visited`
      is their tiles, `id` the next id, `lines` their kept lines, and `m`
      and `wd` the river map and widths they leave. */
  ghost predicate Traced(flux: Grid<real>, elev: Grid<real>, m: Grid<int>, wd: Grid<int>, visited: set<Tile>, id: int,
                         lines: seq<seq<Point>>, ps: seq<seq<Tile>>)
    requires Shaped(flux, |elev|, Cols(elev))
  {
    && visited == Covered(ps) && id == |ps| + 1 && lines == LinesOf(ps)
    && m == IdGrid(ps, |elev|, Cols(elev)) && wd == WidthGrid(flux, ps, |elev|, Cols(elev))
  }

  /** Marking the next walk `w` with the next id keeps `Traced`. */
  lemma TracedStep(flux: Grid<real>, elev: Grid<real>, m0: Grid<int>, w0: Grid<int>, m1: Grid<int>, w1: Grid<int>,
                   visited: set<Tile>, id: int, lines: seq<seq<Point>>, ps: seq<seq<Tile>>, w: seq<Tile>)
    requires Shaped(flux, |elev|, Cols(elev))
    requires Shaped(m0, |elev|, Cols(elev)) && Shaped(w0, |elev|, Cols(elev))
    requires Shaped(m1, |elev|, Cols(elev)) && Shaped(w1, |elev|, Cols(elev))
    requires Traced(flux, elev, m0, w0, visited, id, lines, ps)
    requires Marked(flux, elev, m0, w0, m1, w1, w, id)
    ensures Traced(flux, elev, m1, w1, visited + Tiles(w), id + 1, if |w| > 1 then lines + [LineOf(w)] else lines, ps + [w])
  {
    assert (ps + [w])[..|ps|] == ps;
    SameGrid(m1, IdGrid(ps + [w], |elev|, Cols(elev)), |elev|, Cols(elev));
    SameGrid(w1, WidthGrid(flux, ps + [w], |elev|, Cols(elev)), |elev|, Cols(elev));
  }

  /** The bookkeeping of the loop of rivers.py:80-97 between rounds. */
  ghost predicate Tracing(flux: Grid<real>, down: Grid<Option<Tile>>, elev: Grid<real>, minFlux: real, sea: real,
                          m: Grid<int>, wd: Grid<int>, visited: set<Tile>, id: int, lines: seq<seq<Point>>)
    requires TraceInputs(flux, down, elev)
  {
    && Marking(flux, down, elev, sea, m, wd, visited, id) && id >= 1
    && Closed(flux, down, elev, sea, visited) && Fed(flux, down, elev, minFlux, visited)
    && RiverLines(flux, down, elev, minFlux, m, lines)
  }

  /** The loop starts with nothing marked, nothing visited and no lines. */
  lemma TraceStart(flux: Grid<real>, down: Grid<Option<Tile>>, elev: Grid<real>, minFlux: real, sea: real,
                   m: Grid<int>, wd: Grid<int>)
    requires TraceInputs(flux, down, elev)
    requires Shaped(m, |elev|, Cols(elev)) && Shaped(wd, |elev|, Cols(elev))
    requires forall y, x :: 0 <= y < |elev| && 0 <= x < Cols(elev) ==> m[y][x] == 0 && wd[y][x] == 0
    ensures Tracing(flux, down, elev, minFlux, sea, m, wd, {}, 1, [])
  {
  }

  /** The bookkeeping at the end of the loop gives `RiverMarks`. */
  lemma TraceDone(flux: Grid<real>, down: Grid<Option<Tile>>, elev: Grid<real>, minFlux: real, sea: real,
                  m: Grid<int>, wd: Grid<int>, visited: set<Tile>, coords: seq<Tile>, id: int, lines: seq<seq<Point>>)
    requires TraceInputs(flux, down, elev)
    requires Tracing(flux, down, elev, minFlux, sea, m, wd, visited, id, lines)
    requires forall t :: t in coords <==> OnMap(elev, t) && At(flux, t) >= minFlux
    requires forall j :: 0 <= j < |coords| ==> OnMap(elev, coords[j]) && (Land(elev, sea, coords[j]) ==> coords[j] in visited)
    ensures RiverMarks(flux, down, elev, minFlux, sea, m, wd)
    ensures RiverLines(flux, down, elev, minFlux, m, lines)
  {
    forall y, x | 0 <= y < |elev| && 0 <= x < Cols(elev)
      ensures (flux[y][x] >= minFlux && elev[y][x] >= sea ==> m[y][x] != 0)
      ensures (m[y][x] != 0 && down[y][x].Some? && Land(elev, sea, down[y][x].value) ==> At(m, down[y][x].value) != 0)
      ensures (m[y][x] != 0 ==>
                 flux[y][x] >= minFlux || exists u :: OnMap(elev, u) && At(m, u) != 0 && At(down, u) == Some(Tile(y, x)))
    {
      var t := Tile(y, x);
      if flux[y][x] >= minFlux && elev[y][x] >= sea {
        assert t in coords;
        var j :| 0 <= j < |coords| && coords[j] == t;
      }
      if m[y][x] != 0 && flux[y][x] < minFlux {
        var u :| u in visited && OnMap(elev, u) && At(down, u) == Some(t);
        assert At(m, u) != 0;
      }
    }
  }

  /** A new walk from the uncovered source `s` keeps the bookkeeping of the
      loop for the maps, tiles and lines of the walks, and covers `s` when it
      is land. */
  lemma TracingWalk(flux: Grid<real>, down: Grid<Option<Tile>>, elev: Grid<real>, minFlux: real, sea: real,
                    ps: seq<seq<Tile>>, s: Tile)
    requires TraceInputs(flux, down, elev) && OnMap(elev, s) && At(flux, s) >= minFlux
    requires Tracing(flux, down, elev, minFlux, sea, IdGrid(ps, |elev|, Cols(elev)), WidthGrid(flux, ps, |elev|, Cols(elev)),
                     Covered(ps), |ps| + 1, LinesOf(ps))
    ensures var ps' := ps + [Walk(flux, down, elev, sea, Covered(ps), s, [])];
      && Tracing(flux, down, elev, minFlux, sea, IdGrid(ps', |elev|, Cols(elev)), WidthGrid(flux, ps', |elev|, Cols(elev)),
                 Covered(ps'), |ps'| + 1, LinesOf(ps'))
      && Covered(ps) <= Covered(ps')
      && (Land(elev, sea, s) ==> s in Covered(ps'))
  {
    var h, c := |elev|, Cols(elev);
    var w := Walk(flux, down, elev, sea, Covered(ps), s, []);
    var ps' := ps + [w];
    assert ps'[..|ps|] == ps;
    var m0, w0 := IdGrid(ps, h, c), WidthGrid(flux, ps, h, c);
    var m1, w1 := IdGrid(ps', h, c), WidthGrid(flux, ps', h, c);
    assert Marked(flux, elev, m0, w0, m1, w1, w, |ps| + 1);
    TraceStep(flux, down, elev, minFlux, sea, m0, w0, m1, w1, Covered(ps), Covered(ps'), LinesOf(ps), LineOf(w), w, s, |ps| + 1);
  }

  /** The walks over the first `k` sources leave maps, tiles and lines that
      keep the bookkeeping of the loop of rivers.py:80-97, and cover every
      land source among those `k`. */
  ghost predicate WalksTracing(flux: Grid<real>, down: Grid<Option<Tile>>, elev: Grid<real>, minFlux: real, sea: real,
                               coords: seq<Tile>, k: int)
    requires TraceInputs(flux, down, elev) && 0 <= k <= |coords|
    requires forall j :: 0 <= j < |coords| ==> OnMap(elev, coords[j])
  {
    var ps := Walks(flux, down, elev, sea, coords, k);
    && (k > 0 ==> WalksTracing(flux, down, elev, minFlux, sea, coords, k - 1))
    && Tracing(flux, down, elev, minFlux, sea, IdGrid(ps, |elev|, Cols(elev)), WidthGrid(flux, ps, |elev|, Cols(elev)),
               Covered(ps), |ps| + 1, LinesOf(ps))
    && forall j :: 0 <= j < k ==> OnMap(elev, coords[j]) && (Land(elev, sea, coords[j]) ==> coords[j] in Covered(ps))
  }

  /** No source taken: no walk, and `WalksTracing` holds. */
  lemma WalksTraceStart(flux: Grid<real>, down: Grid<Option<Tile>>, elev: Grid<real>, minFlux: real, sea: real,
                        coords: seq<Tile>)
    requires TraceInputs(flux, down, elev)
    requires forall j :: 0 <= j < |coords| ==> OnMap(elev, coords[j])
    ensures WalksTracing(flux, down, elev, minFlux, sea, coords, 0)
  {
    var ps := Walks(flux, down, elev, sea, coords, 0);
    assert ps == [] && Covered(ps) == {} && LinesOf(ps) == [];
    TraceStart(flux, down, elev, minFlux, sea, IdGrid(ps, |elev|, Cols(elev)), WidthGrid(flux, ps, |elev|, Cols(elev)));
  }

  /** Taking the source before the k-th keeps `WalksTracing`. */
  lemma WalksTraceStep(flux: Grid<real>, down: Grid<Option<Tile>>, elev: Grid<real>, minFlux: real, sea: real,
                       coords: seq<Tile>, k: int)
    requires TraceInputs(flux, down, elev) && 0 < k <= |coords|
    requires forall j :: 0 <= j < |coords| ==> OnMap(elev, coords[j])
    requires forall t :: t in coords ==> OnMap(elev, t) && At(flux, t) >= minFlux
    requires WalksTracing(flux, down, elev, minFlux, sea, coords, k - 1)
    ensures WalksTracing(flux, down, elev, minFlux, sea, coords, k)
  {
    var ps := Walks(flux, down, elev, sea, coords, k - 1);
    var s := coords[k - 1];
    assert s in coords;
    if s !in Covered(ps) {
      TracingWalk(flux, down, elev, minFlux, sea, ps, s);
      assert Walks(flux, down, elev, sea, coords, k) == ps + [Walk(flux, down, elev, sea, Covered(ps), s, [])];
    } else {
      WalksSkip(flux, down, elev, sea, coords, k - 1);
    }
  }

  /** `WalksTracing` holds after every number of sources. */
  lemma {:induction false} WalksTrace(flux: Grid<real>, down: Grid<Option<Tile>>, elev: Grid<real>, minFlux: real,
                                      sea: real, coords: seq<Tile>, k: int)
    requires TraceInputs(flux, down, elev) && 0 <= k <= |coords|
    requires forall j :: 0 <= j < |coords| ==> OnMap(elev, coords[j])
    requires forall t :: t in coords ==> OnMap(elev, t) && At(flux, t) >= minFlux
    ensures WalksTracing(flux, down, elev, minFlux, sea, coords, k)
  {
    if k == 0 {
      WalksTraceStart(flux, down, elev, minFlux, sea, coords);
    } else {
      WalksTrace(flux, down, elev, minFlux, sea, coords, k - 1);
      WalksTraceStep(flux, down, elev, minFlux, sea, coords, k);
    }
  }

  /** The ids, widths and lines of the walks of `trace_rivers` mean what
      `RiverMarks` and `RiverLines` say. */
  lemma RiverWalksMeaning(flux: Grid<real>, down: Grid<Option<Tile>>, elev: Grid<real>, minFlux: real, sea: real)
    requires TraceInputs(flux, down, elev)
    ensures var ws := RiverWalks(flux, down, elev, minFlux, sea);
      && RiverMarks(flux, down, elev, minFlux, sea, IdGrid(ws, |elev|, Cols(elev)), WidthGrid(flux, ws, |elev|, Cols(elev)))
      && RiverLines(flux, down, elev, minFlux, IdGrid(ws, |elev|, Cols(elev)), LinesOf(ws))
  {
    var coords := Sources(flux, elev, minFlux);
    SourcesFacts(flux, elev, minFlux);
    WalksTrace(flux, down, elev, minFlux, sea, coords, |coords|);
    var ws := RiverWalks(flux, down, elev, minFlux, sea);
    TraceDone(flux, down, elev, minFlux, sea, IdGrid(ws, |elev|, Cols(elev)), WidthGrid(flux, ws, |elev|, Cols(elev)),
              Covered(ws), coords, |ws| + 1, LinesOf(ws));
  }

  /** The line and the visited set `TraceFrom` returns, as `LineOf` and `Tiles`. */
  lemma WalkResult(line: seq<Point>, path: seq<Tile>, visited: set<Tile>, visited': set<Tile>)
    requires |line| == |path| && forall j :: 0 <= j < |path| ==> line[j] == PointOf(path[j])
    requires forall t :: t in visited' <==> t in visited || t in path
    ensures line == LineOf(path) && visited' == visited + Tiles(path)
  {
  }

  /** One round of the loop of rivers.py:80-97 from the source `s`: trace its
      walk with id `id` and keep the line when it has two tiles or more. */
  method TraceRound(flux: Grid<real>, down: Grid<Option<Tile>>, elev: Grid<real>, sea: real,
                    riverMap: array2<int>, riverWidth: array2<int>, s: Tile, id: int,
                    visited: set<Tile>, lines: seq<seq<Point>>)
    returns (visited': set<Tile>, lines': seq<seq<Point>>)
    requires TraceInputs(flux, down, elev) && OnMap(elev, s)
    requires forall t :: t in visited ==> OnMap(elev, t)
    requires riverMap != riverWidth
    requires riverMap.Length0 == riverWidth.Length0 == |elev| && riverMap.Length1 == riverWidth.Length1 == Cols(elev)
    modifies riverMap, riverWidth
    ensures var w := Walk(flux, down, elev, sea, visited, s, []);
      && visited' == visited + Tiles(w)
      && lines' == (if |w| > 1 then lines + [LineOf(w)] else lines)
      && Marked(flux, elev, old(Snapshot(riverMap)), old(Snapshot(riverWidth)), Snapshot(riverMap), Snapshot(riverWidth), w, id)
  {
    var line;
    ghost var path;
    line, visited', path := TraceFrom(flux, down, elev, sea, riverMap, riverWidth, s, id, visited);
    WalkResult(line, path, visited, visited');
    lines' := if |line| > 1 then lines + [line] else lines;
  }

  /** A round from the unvisited k-th source adds its walk to the walks so far. */
  lemma TracedRound(flux: Grid<real>, down: Grid<Option<Tile>>, elev: Grid<real>, sea: real,
                    coords: seq<Tile>, k: int, m0: Grid<int>, w0: Grid<int>, m1: Grid<int>, w1: Grid<int>,
                    visited: set<Tile>, visited': set<Tile>, id: int, lines: seq<seq<Point>>, lines': seq<seq<Point>>)
    requires TraceInputs(flux, down, elev) && 0 <= k < |coords|
    requires forall j :: 0 <= j < |coords| ==> OnMap(elev, coords[j])
    requires Shaped(m0, |elev|, Cols(elev)) && Shaped(w0, |elev|, Cols(elev))
    requires Shaped(m1, |elev|, Cols(elev)) && Shaped(w1, |elev|, Cols(elev))
    requires Traced(flux, elev, m0, w0, visited, id, lines, Walks(flux, down, elev, sea, coords, k))
    requires coords[k] !in visited
    requires var w := Walk(flux, down, elev, sea, visited, coords[k], []);
      && visited' == visited + Tiles(w)
      && lines' == (if |w| > 1 then lines + [LineOf(w)] else lines)
      && Marked(flux, elev, m0, w0, m1, w1, w, id)
    ensures Traced(flux, elev, m1, w1, visited', id + 1, lines', Walks(flux, down, elev, sea, coords, k + 1))
  {
    var ps := Walks(flux, down, elev, sea, coords, k);
    var w := Walk(flux, down, elev, sea, visited, coords[k], []);
    TracedStep(flux, elev, m0, w0, m1, w1, visited, id, lines, ps, w);
    assert Walks(flux, down, elev, sea, coords, k + 1) == ps + [w];
  }

  /** A source some walk already covers adds no walk. */
  lemma WalksSkip(flux: Grid<real>, down: Grid<Option<Tile>>, elev: Grid<real>, sea: real, coords: seq<Tile>, k: int)
    requires TraceInputs(flux, down, elev) && 0 <= k < |coords|
    requires forall j :: 0 <= j < |coords| ==> OnMap(elev, coords[j])
    requires coords[k] in Covered(Walks(flux, down, elev, sea, coords, k))
    ensures Walks(flux, down, elev, sea, coords, k + 1) == Walks(flux, down, elev, sea, coords, k)
  {
  }

  /** Before the loop no walk has been made. */
  lemma TracedStart(flux: Grid<real>, elev: Grid<real>, m: Grid<int>, wd: Grid<int>)
    requires Shaped(flux, |elev|, Cols(elev)) && Shaped(m, |elev|, Cols(elev)) && Shaped(wd, |elev|, Cols(elev))
    requires forall y, x :: 0 <= y < |elev| && 0 <= x < Cols(elev) ==> m[y][x] == 0 && wd[y][x] == 0
    ensures Traced(flux, elev, m, wd, {}, 1, [], [])
  {
    SameGrid(m, IdGrid([], |elev|, Cols(elev)), |elev|, Cols(elev));
    SameGrid(wd, WidthGrid(flux, [], |elev|, Cols(elev)), |elev|, Cols(elev));
  }

  /** After the loop over `Sources` the maps and lines are those of
      `RiverWalks`, and so mean what `RiverMarks` and `RiverLines` say. */
  lemma TracedDone(flux: Grid<real>, down: Grid<Option<Tile>>, elev: Grid<real>, minFlux: real, sea: real,
                   coords: seq<Tile>, m: Grid<int>, wd: Grid<int>, visited: set<Tile>, id: int, lines: seq<seq<Point>>)
    requires TraceInputs(flux, down, elev) && coords == Sources(flux, elev, minFlux)
    requires forall j :: 0 <= j < |coords| ==> OnMap(elev, coords[j])
    requires Traced(flux, elev, m, wd, visited, id, lines, Walks(flux, down, elev, sea, coords, |coords|))
    ensures RiverMarks(flux, down, elev, minFlux, sea, m, wd)
    ensures RiverLines(flux, down, elev, minFlux, m, lines)
    ensures var ws := RiverWalks(flux, down, elev, minFlux, sea);
      && (forall y, x :: 0 <= y < |elev| && 0 <= x < Cols(elev) ==> m[y][x] == IdOf(ws, Tile(y, x)))
      && lines == LinesOf(ws)
  {
    RiverWalksMeaning(flux, down, elev, minFlux, sea);
  }

  /** One pass of the loop of rivers.py:80-97: trace from the k-th source
      unless it is already visited, and take the next id when it is not. */
  method TraceSource(flux: Grid<real>, down: Grid<Option<Tile>>, elev: Grid<real>, sea: real,
                     riverMap: array2<int>, riverWidth: array2<int>, coords: seq<Tile>, k: int,
                     id: int, visited: set<Tile>, lines: seq<seq<Point>>)
    returns (id': int, visited': set<Tile>, lines': seq<seq<Point>>)
    requires TraceInputs(flux, down, elev) && 0 <= k < |coords|
    requires forall j :: 0 <= j < |coords| ==> OnMap(elev, coords[j])
    requires riverMap != riverWidth
    requires riverMap.Length0 == riverWidth.Length0 == |elev| && riverMap.Length1 == riverWidth.Length1 == Cols(elev)
    requires Traced(flux, elev, Snapshot(riverMap), Snapshot(riverWidth), visited, id, lines, Walks(flux, down, elev, sea, coords, k))
    modifies riverMap, riverWidth
    ensures Traced(flux, elev, Snapshot(riverMap), Snapshot(riverWidth), visited', id', lines', Walks(flux, down, elev, sea, coords, k + 1))
    ensures id' == (if coords[k] in visited then id else id + 1)
    ensures coords[k] in visited ==>
      visited' == visited && lines' == lines && unchanged(riverMap, riverWidth)
    ensures coords[k] !in visited ==>
      var w := Walk(flux, down, elev, sea, visited, coords[k], []);
      && visited' == visited + Tiles(w)
      && lines' == (if |w| > 1 then lines + [LineOf(w)] else lines)
      && Marked(flux, elev, old(Snapshot(riverMap)), old(Snapshot(riverWidth)), Snapshot(riverMap), Snapshot(riverWidth), w, id)
  {
    var s := coords[k];
    ghost var m0, w0 := Snapshot(riverMap), Snapshot(riverWidth);
    if s !in visited {
      visited', lines' := TraceRound(flux, down, elev, sea, riverMap, riverWidth, s, id, visited, lines);
      id' := id + 1;
      TracedRound(flux, down, elev, sea, coords, k, m0, w0, Snapshot(riverMap), Snapshot(riverWidth),
                  visited, visited', id, lines, lines');
    } else {
      id', visited', lines' := id, visited, lines;
      WalksSkip(flux, down, elev, sea, coords, k);
    }
  }

  /** The loop of rivers.py:80-97 over the sources `coords`, on zeroed maps:
      it leaves exactly the ids, widths, visited tiles and lines of the walks
      `Walks` makes from `coords`, and the id after the last walk's. */
  method TraceLoop(flux: Grid<real>, down: Grid<Option<Tile>>, elev: Grid<real>, sea: real,
                   riverMap: array2<int>, riverWidth: array2<int>, coords: seq<Tile>)
    returns (riverId: int, visited: set<Tile>, lines: seq<seq<Point>>)
    requires TraceInputs(flux, down, elev)
    requires riverMap != riverWidth
    requires riverMap.Length0 == riverWidth.Length0 == |elev| && riverMap.Length1 == riverWidth.Length1 == Cols(elev)
    requires forall y, x :: 0 <= y < |elev| && 0 <= x < Cols(elev) ==> riverMap[y, x] == 0 && riverWidth[y, x] == 0
    requires forall j :: 0 <= j < |coords| ==> OnMap(elev, coords[j])
    modifies riverMap, riverWidth
    ensures Traced(flux, elev, Snapshot(riverMap), Snapshot(riverWidth), visited, riverId, lines,
                   Walks(flux, down, elev, sea, coords, |coords|))
  {
    riverId, visited, lines := 1, {}, [];
    TracedStart(flux, elev, Snapshot(riverMap), Snapshot(riverWidth));
    for k := 0 to |coords|
      invariant Traced(flux, elev, Snapshot(riverMap), Snapshot(riverWidth), visited, riverId, lines,
                       Walks(flux, down, elev, sea, coords, k))
    {
      riverId, visited, lines := TraceSource(flux, down, elev, sea, riverMap, riverWidth, coords, k, riverId, visited, lines);
    }
  }

  /** `trace_rivers` (rivers.py:61-99): follow the downslope from every land
      tile whose flux reaches `minFlux`, by flux descending, marking each new
      walk with a fresh river id and its tiles' widths, and keep the walks of
      two tiles or more as lines of (x, y) points. The ids, widths and lines
      are exactly those of `RiverWalks`; `RiverMarks` and `RiverLines` say
      what they mean. */
  method TraceRivers(flux: Grid<real>, down: Grid<Option<Tile>>, elev: Grid<real>, minFlux: real, sea: real)
    returns (riverMap: array2<int>, riverWidth: array2<int>, lines: seq<seq<Point>>)
    requires TraceInputs(flux, down, elev)
    ensures riverMap.Length0 == riverWidth.Length0 == |elev| && riverMap.Length1 == riverWidth.Length1 == Cols(elev)
    ensures RiverMarks(flux, down, elev, minFlux, sea, Snapshot(riverMap), Snapshot(riverWidth))
    ensures RiverLines(flux, down, elev, minFlux, Snapshot(riverMap), lines)
    ensures var ws := RiverWalks(flux, down, elev, minFlux, sea);
      && (forall y, x :: 0 <= y < |elev| && 0 <= x < Cols(elev) ==> riverMap[y, x] == IdOf(ws, Tile(y, x)))
      && lines == LinesOf(ws)
  {
    var height, width := |elev|, Cols(elev);
    riverMap := new int[height, width]((y, x) => 0);
    riverWidth := new int[height, width]((y, x) => 0);
    var coords := SourceOrder(flux, elev, minFlux);
    SourcesOnMap(flux, elev, minFlux);
    var riverId, visited;
    riverId, visited, lines := TraceLoop(flux, down, elev, sea, riverMap, riverWidth, coords);
    TracedDone(flux, down, elev, minFlux, sea, coords, Snapshot(riverMap), Snapshot(riverWidth), visited, riverId, lines);
  }

  // ---------------------------------------------------------------------
  // compute_rivers (rivers.py:104-110)
  // ---------------------------------------------------------------------

  /** The default `min_flux` of `trace_rivers`, which `compute_rivers` keeps. */
  const MIN_FLUX: real := 3.0

  /** The water flux of every tile, as a grid. */
  ghost function FluxGrid(elev: Grid<real>): (g: Grid<real>)
    requires Terrain(elev)
    ensures Shaped(g, |elev|, Cols(elev))
    ensures forall y, x :: 0 <= y < |elev| && 0 <= x < Cols(elev) ==> g[y][x] == Flux(elev, Tile(y, x))
  {
    seq(|elev|, y requires 0 <= y < |elev| => seq(Cols(elev), x requires 0 <= x < Cols(elev) => Flux(elev, Tile(y, x))))
  }

  /** The downslope of every tile, as a grid. */
  ghost function DownGrid(elev: Grid<real>): (g: Grid<Option<Tile>>)
    requires Terrain(elev)
    ensures Shaped(g, |elev|, Cols(elev))
    ensures forall y, x :: 0 <= y < |elev| && 0 <= x < Cols(elev) ==> g[y][x] == Downslope(elev, Tile(y, x))
  {
    seq(|elev|, y requires 0 <= y < |elev| => seq(Cols(elev), x requires 0 <= x < Cols(elev) => Downslope(elev, Tile(y, x))))
  }

  /** The flux and downslope grids of a terrain are valid inputs of `trace_rivers`. */
  lemma ComputedInputs(elev: Grid<real>)
    requires Terrain(elev)
    ensures TraceInputs(FluxGrid(elev), DownGrid(elev), elev)
  {
    var down: Grid<Option<Tile>> := DownGrid(elev);
    forall y: int, x: int | 0 <= y < |elev| && 0 <= x < Cols(elev) && down[y][x].Some?
      ensures OnMap(elev, down[y][x].value)
    {
      DownslopeSpec(elev, Tile(y, x));
    }
  }

  /** A filled array equals the grid it was proved to hold. */
  lemma SameGrid<T>(g: Grid<T>, h: Grid<T>, rows: nat, cols: nat)
    requires Shaped(g, rows, cols) && Shaped(h, rows, cols)
    requires forall y, x :: 0 <= y < rows && 0 <= x < cols ==> g[y][x] == h[y][x]
    ensures g == h
  {
    forall y | 0 <= y < rows ensures g[y] == h[y] {
      assert forall x :: 0 <= x < cols ==> g[y][x] == h[y][x];
    }
  }

  /** `compute_rivers` (rivers.py:104-110): the flux and downslope of the
      terrain, traced with the default minimum flux and the given sea level. */
  method ComputeRivers(elev: Grid<real>, sea: real)
    returns (riverMap: array2<int>, riverWidth: array2<int>, lines: seq<seq<Point>>)
    requires Terrain(elev)
    ensures riverMap.Length0 == riverWidth.Length0 == |elev| && riverMap.Length1 == riverWidth.Length1 == Cols(elev)
    ensures TraceInputs(FluxGrid(elev), DownGrid(elev), elev)
    ensures RiverMarks(FluxGrid(elev), DownGrid(elev), elev, MIN_FLUX, sea, Snapshot(riverMap), Snapshot(riverWidth))
    ensures RiverLines(FluxGrid(elev), DownGrid(elev), elev, MIN_FLUX, Snapshot(riverMap), lines)
    ensures var ws := RiverWalks(FluxGrid(elev), DownGrid(elev), elev, MIN_FLUX, sea);
      && (forall y, x :: 0 <= y < |elev| && 0 <= x < Cols(elev) ==> riverMap[y, x] == IdOf(ws, Tile(y, x)))
      && lines == LinesOf(ws)
  {
    var flux, down := ComputeWaterFlux(elev);
    ComputedInputs(elev);
    SameGrid<real>(Snapshot(flux), FluxGrid(elev), |elev|, Cols(elev));
    SameGrid<Option<Tile>>(Snapshot(down), DownGrid(elev), |elev|, Cols(elev));
    riverMap, riverWidth, lines := TraceRivers(Snapshot(flux), Snapshot(down), elev, MIN_FLUX, sea);
  }
}
