/** The grid passes of archipelago/generator.py: integer Voronoi provinces
    over seed points, Lloyd relaxation of the seeds, province border
    marking, the hydrology wrappers, one city per province and the glyph
    biomes. */
module Generator {
  import opened Common
  import Rivers
  import Cities
  import Ordering

  // ---------------------------------------------------------------------
  // Nearest seed (generator.py:18-19, 35-36)
  // ---------------------------------------------------------------------

  /** One entry of `np.sum((seeds - np.array([x, y])) ** 2, axis=1)`. */
  function SeedDist(s: Point, x: int, y: int): int {
    (s.x - x) * (s.x - x) + (s.y - y) * (s.y - y)
  }

  /** `p` is what `np.argmin` returns over the first `n` distances: a least
      one, the lowest index among equally near seeds. */
  ghost predicate ArgminUpTo(seeds: seq<Point>, x: int, y: int, n: nat, p: int)
    requires n <= |seeds|
  {
    && 0 <= p < n
    && (forall q :: 0 <= q < n ==> SeedDist(seeds[p], x, y) <= SeedDist(seeds[q], x, y))
    && (forall q :: 0 <= q < p ==> SeedDist(seeds[q], x, y) > SeedDist(seeds[p], x, y))
  }

  ghost predicate IsNearest(seeds: seq<Point>, x: int, y: int, p: int) {
    ArgminUpTo(seeds, x, y, |seeds|, p)
  }

  /** `np.argmin` over the first `n` distances, scanning from index 0 and
      moving only on a strictly smaller distance. */
  function ArgminPrefix(seeds: seq<Point>, x: int, y: int, n: nat): (p: nat)
    requires 1 <= n <= |seeds|
    ensures ArgminUpTo(seeds, x, y, n, p)
  {
    if n == 1 then 0
    else
      var p := ArgminPrefix(seeds, x, y, n - 1);
      if SeedDist(seeds[n - 1], x, y) < SeedDist(seeds[p], x, y) then n - 1 else p
  }

  /** The nearest seed of tile (x, y). */
  function Nearest(seeds: seq<Point>, x: int, y: int): (p: nat)
    requires |seeds| > 0
    ensures IsNearest(seeds, x, y, p)
  {
    ArgminPrefix(seeds, x, y, |seeds|)
  }

  /** The argmin is unique: the least distance and the lowest index pin it down. */
  lemma NearestUnique(seeds: seq<Point>, x: int, y: int, p: int, p': int)
    requires IsNearest(seeds, x, y, p) && IsNearest(seeds, x, y, p')
    ensures p == p'
  {
    assert SeedDist(seeds[p], x, y) == SeedDist(seeds[p'], x, y);
  }

  // ---------------------------------------------------------------------
  // Provinces (generator.py:30-37)
  // ---------------------------------------------------------------------

  /** `assign_provinces` (generator.py:30-37): every tile gets the index of
      its nearest seed. With no seeds `np.argmin` fails, so a non-empty map
      needs at least one seed. */
  method AssignProvinces(width: nat, height: nat, seeds: seq<Point>) returns (province: array2<int>)
    requires |seeds| > 0 || width == 0 || height == 0
    ensures province.Length0 == height && province.Length1 == width
    ensures forall y, x :: 0 <= y < height && 0 <= x < width ==> IsNearest(seeds, x, y, province[y, x])
  {
    province := new int[height, width]((y, x) => 0);
    for y := 0 to height
      invariant forall y', x' :: 0 <= y' < y && 0 <= x' < width ==> IsNearest(seeds, x', y', province[y', x'])
    {
      ProvinceRow(width, seeds, province, y);
    }
  }

  /** The inner `for x` loop of generator.py:34-36 for row `y`. */
  method ProvinceRow(width: nat, seeds: seq<Point>, province: array2<int>, y: nat)
    modifies province
    requires y < province.Length0 && province.Length1 == width && (|seeds| > 0 || width == 0)
    ensures forall x :: 0 <= x < width ==> IsNearest(seeds, x, y, province[y, x])
    ensures forall y', x' :: 0 <= y' < province.Length0 && y' != y && 0 <= x' < width ==> province[y', x'] == old(province[y', x'])
  {
    for x := 0 to width
      invariant forall x' :: 0 <= x' < x ==> IsNearest(seeds, x', y, province[y, x'])
      invariant forall y', x' :: 0 <= y' < province.Length0 && y' != y && 0 <= x' < width ==> province[y', x'] == old(province[y', x'])
    {
      province[y, x] := Nearest(seeds, x, y);
    }
  }

  // ---------------------------------------------------------------------
  // Lloyd relaxation (generator.py:7-27)
  // ---------------------------------------------------------------------

  /** Every seed lies in [0, width) x [0, height). */
  ghost predicate InRange(seeds: seq<Point>, width: nat, height: nat) {
    forall i :: 0 <= i < |seeds| ==> 0 <= seeds[i].x < width && 0 <= seeds[i].y < height
  }

  /** `cell_points[i]` after the scan of the tiles `ts`: the (x, y) of each
      tile whose nearest seed is `i`, in scan order. */
  ghost function CellOf(seeds: seq<Point>, i: int, ts: seq<Tile>): seq<Point>
    requires |seeds| > 0
  {
    if ts == [] then []
    else
      var t := ts[|ts| - 1];
      CellOf(seeds, i, ts[..|ts| - 1]) + (if Nearest(seeds, t.x, t.y) == i then [Point(t.x, t.y)] else [])
  }

  /** The cell of seed `i` over the whole grid. */
  ghost function Cell(seeds: seq<Point>, width: nat, height: nat, i: int): seq<Point>
    requires |seeds| > 0
  {
    CellOf(seeds, i, RowMajor(height, width))
  }

  function SumX(ps: seq<Point>): int {
    if ps == [] then 0 else SumX(ps[..|ps| - 1]) + ps[|ps| - 1].x
  }

  function SumY(ps: seq<Point>): int {
    if ps == [] then 0 else SumY(ps[..|ps| - 1]) + ps[|ps| - 1].y
  }

  /** `int(np.mean(...))` of the coordinates of a non-empty cell: the mean is
      never negative here, so truncation is the floor. */
  function Centroid(ps: seq<Point>): Point
    requires ps != []
  {
    Point(SumX(ps) / |ps|, SumY(ps) / |ps|)
  }

  /** The seeds after one round of generator.py:14-26: a seed with a
      non-empty cell moves to the centroid of its cell, the others stay. */
  ghost function Relaxed(seeds: seq<Point>, width: nat, height: nat): (r: seq<Point>)
    requires |seeds| > 0
    ensures |r| == |seeds|
  {
    seq(|seeds|, i requires 0 <= i < |seeds| =>
      var c := Cell(seeds, width, height, i);
      if c == [] then seeds[i] else Centroid(c))
  }

  /** `iterations` rounds of relaxation. */
  ghost function RelaxedN(seeds: seq<Point>, width: nat, height: nat, n: nat): (r: seq<Point>)
    requires |seeds| > 0
    ensures |r| == |seeds|
  {
    if n == 0 then seeds else Relaxed(RelaxedN(seeds, width, height, n - 1), width, height)
  }

  /** Every point lies in [0, width) x [0, height). */
  ghost predicate PointsIn(ps: seq<Point>, width: nat, height: nat) {
    forall k :: 0 <= k < |ps| ==> 0 <= ps[k].x < width && 0 <= ps[k].y < height
  }

  /** Every point of a cell is a tile of the grid. */
  lemma {:induction false} CellOfInRange(seeds: seq<Point>, i: int, ts: seq<Tile>, width: nat, height: nat)
    requires |seeds| > 0 && forall k :: 0 <= k < |ts| ==> InBounds(ts[k], height, width)
    ensures PointsIn(CellOf(seeds, i, ts), width, height)
  {
    if ts != [] {
      var p, t := ts[..|ts| - 1], ts[|ts| - 1];
      CellOfInRange(seeds, i, p, width, height);
      var head, tail := CellOf(seeds, i, p), (if Nearest(seeds, t.x, t.y) == i then [Point(t.x, t.y)] else []);
      assert CellOf(seeds, i, ts) == head + tail;
      assert PointsIn(tail, width, height);
    }
  }

  /** A sum of coordinates in [0, w) over n points lies in [0, n * (w - 1)]. */
  lemma {:induction false} SumBounds(ps: seq<Point>, width: nat, height: nat)
    requires PointsIn(ps, width, height)
    ensures 0 <= SumX(ps) <= |ps| * (width - 1)
    ensures 0 <= SumY(ps) <= |ps| * (height - 1)
  {
    if ps != [] {
      var n := |ps| - 1;
      var pre := ps[..n];
      assert PointsIn(pre, width, height) by {
        forall k | 0 <= k < |pre| ensures 0 <= pre[k].x < width && 0 <= pre[k].y < height {
          assert pre[k] == ps[k];
        }
      }
      SumBounds(pre, width, height);
      assert SumX(ps) == SumX(pre) + ps[n].x && SumY(ps) == SumY(pre) + ps[n].y;
      AddBound(SumX(pre), ps[n].x, n, width);
      AddBound(SumY(pre), ps[n].y, n, height);
    }
  }

  lemma AddBound(s: int, x: int, n: nat, w: int)
    requires 0 <= s <= n * (w - 1) && 0 <= x <= w - 1
    ensures 0 <= s + x <= (n + 1) * (w - 1)
  {
    assert (n + 1) * (w - 1) == n * (w - 1) + (w - 1);
  }

  lemma MeanBound(s: int, n: int, w: int)
    requires n > 0 && 0 <= s <= n * (w - 1)
    ensures 0 <= s / n < w
  {
    var q := s / n;
    assert n * q <= s;
    assert n * (q - (w - 1)) <= 0;
  }

  /** The centroid of points of the grid is a tile of the grid. */
  lemma CentroidInRange(ps: seq<Point>, width: nat, height: nat)
    requires ps != [] && PointsIn(ps, width, height)
    ensures 0 <= Centroid(ps).x < width && 0 <= Centroid(ps).y < height
  {
    SumBounds(ps, width, height);
    MeanBound(SumX(ps), |ps|, width);
    MeanBound(SumY(ps), |ps|, height);
  }

  /** Relaxation keeps every seed on the grid. */
  lemma RelaxedInRange(seeds: seq<Point>, width: nat, height: nat)
    requires |seeds| > 0 && InRange(seeds, width, height)
    ensures InRange(Relaxed(seeds, width, height), width, height)
  {
    forall i | 0 <= i < |seeds|
      ensures 0 <= Relaxed(seeds, width, height)[i].x < width && 0 <= Relaxed(seeds, width, height)[i].y < height
    {
      var c := Cell(seeds, width, height, i);
      if c != [] {
        forall k | 0 <= k < |RowMajor(height, width)| ensures InBounds(RowMajor(height, width)[k], height, width) {
          RowMajorMembers(height, width, RowMajor(height, width)[k]);
        }
        CellOfInRange(seeds, i, RowMajor(height, width), width, height);
        CentroidInRange(c, width, height);
      }
    }
  }

  lemma CellOfSnoc(seeds: seq<Point>, i: int, ts: seq<Tile>, t: Tile)
    requires |seeds| > 0
    ensures CellOf(seeds, i, ts + [t]) == CellOf(seeds, i, ts) + (if Nearest(seeds, t.x, t.y) == i then [Point(t.x, t.y)] else [])
  {
    assert (ts + [t])[..|ts|] == ts;
  }

  /** The cells of all seeds after scanning the tiles `ts`. */
  ghost predicate Cells(seeds: seq<Point>, cells: seq<seq<Point>>, ts: seq<Tile>)
    requires |seeds| > 0
  {
    |cells| == |seeds| && forall i :: 0 <= i < |seeds| ==> cells[i] == CellOf(seeds, i, ts)
  }

  /** Appending one tile to the scan appends it to its nearest seed's cell. */
  lemma CellsSnoc(seeds: seq<Point>, cells: seq<seq<Point>>, ts: seq<Tile>, t: Tile)
    requires |seeds| > 0 && Cells(seeds, cells, ts)
    ensures var p := Nearest(seeds, t.x, t.y);
      Cells(seeds, cells[p := cells[p] + [Point(t.x, t.y)]], ts + [t])
  {
    forall i | 0 <= i < |seeds| {
      CellOfSnoc(seeds, i, ts, t);
    }
  }

  /** One round of generator.py:14-26. */
  method Relax(width: nat, height: nat, seeds: seq<Point>) returns (seeds': seq<Point>)
    requires |seeds| > 0
    ensures seeds' == Relaxed(seeds, width, height)
  {
    var cells := seq(|seeds|, _ => []);
    for y := 0 to height
      invariant Cells(seeds, cells, RowMajor(y, width))
    {
      cells := CellRow(width, seeds, cells, y);
      RowMajorRowDone(y, width);
    }
    seeds' := seeds;
    for i := 0 to |seeds|
      invariant |seeds'| == |seeds|
      invariant forall j :: 0 <= j < |seeds| ==> seeds'[j] == if j < i then Relaxed(seeds, width, height)[j] else seeds[j]
    {
      if cells[i] != [] {
        seeds' := seeds'[i := Centroid(cells[i])];
      }
    }
  }

  /** The inner `for x` loop of generator.py:17-21 for row `y`. */
  method CellRow(width: nat, seeds: seq<Point>, cells: seq<seq<Point>>, y: nat) returns (cells': seq<seq<Point>>)
    requires |seeds| > 0 && Cells(seeds, cells, RowMajor(y, width))
    ensures Cells(seeds, cells', RowMajor(y, width) + Row(y, width)[..width])
  {
    cells' := cells;
    assert RowMajor(y, width) + Row(y, width)[..0] == RowMajor(y, width);
    for x := 0 to width
      invariant Cells(seeds, cells', RowMajor(y, width) + Row(y, width)[..x])
    {
      var p := Nearest(seeds, x, y);
      ghost var before := RowMajor(y, width) + Row(y, width)[..x];
      assert before + [Tile(y, x)] == RowMajor(y, width) + Row(y, width)[..x + 1] by {
        assert Row(y, width)[..x + 1] == Row(y, width)[..x] + [Tile(y, x)];
      }
      CellsSnoc(seeds, cells', before, Tile(y, x));
      cells' := cells'[p := cells'[p] + [Point(x, y)]];
    }
  }

  /** `lloyd_relaxation` (generator.py:7-27) from the seeds drawn by
      `rng.integers`, which lie on the grid. No round is run for
      `iterations == 0`, and the seeds stay on the grid throughout. */
  method LloydRelaxation(width: nat, height: nat, initial: seq<Point>, iterations: nat) returns (seeds: seq<Point>)
    requires InRange(initial, width, height)
    requires |initial| > 0 || iterations == 0 || width == 0 || height == 0
    ensures |seeds| == |initial|
    ensures InRange(seeds, width, height)
    ensures |initial| > 0 ==> seeds == RelaxedN(initial, width, height, iterations)
    ensures iterations == 0 ==> seeds == initial
  {
    seeds := initial;
    if |initial| == 0 {
      return;
    }
    for it := 0 to iterations
      invariant seeds == RelaxedN(initial, width, height, it)
      invariant InRange(seeds, width, height)
    {
      RelaxedInRange(seeds, width, height);
      seeds := Relax(width, height, seeds);
    }
  }

  // ---------------------------------------------------------------------
  // Border marking (generator.py:40-50)
  // ---------------------------------------------------------------------

  /** Some in-bounds 4-neighbour of `t` lies in another province. */
  ghost predicate OnBorder(province: Grid<int>, t: Tile)
    requires Rect(province) && InBounds(t, |province|, Cols(province))
  {
    exists i :: 0 <= i < 4 && InBounds(Neighbour(t, i), |province|, Cols(province)) && At(province, Neighbour(t, i)) != At(province, t)
  }

  /** Border marking is symmetric: two adjacent tiles of different provinces
      are both on the border. */
  lemma BorderSymmetric(province: Grid<int>, a: Tile, b: Tile)
    requires Rect(province) && InBounds(a, |province|, Cols(province)) && InBounds(b, |province|, Cols(province))
    requires Adjacent(a, b) && At(province, a) != At(province, b)
    ensures OnBorder(province, a) && OnBorder(province, b)
  {
    var i, j := DirectionOf(a, b), DirectionOf(b, a);
    assert Neighbour(a, i) == b && Neighbour(b, j) == a;
  }

  /** A border tile has an adjacent tile of another province. */
  lemma BorderWitness(province: Grid<int>, t: Tile)
    requires Rect(province) && InBounds(t, |province|, Cols(province)) && OnBorder(province, t)
    ensures exists n :: Adjacent(t, n) && InBounds(n, |province|, Cols(province)) && At(province, n) != At(province, t)
  {
    var i :| 0 <= i < 4 && InBounds(Neighbour(t, i), |province|, Cols(province)) && At(province, Neighbour(t, i)) != At(province, t);
    assert Adjacent(t, Neighbour(t, i));
  }

  /** `mark_borders` (generator.py:40-50). */
  method MarkBorders(province: Grid<int>) returns (border: array2<bool>)
    requires Rect(province)
    ensures border.Length0 == |province| && border.Length1 == Cols(province)
    ensures forall y, x :: 0 <= y < |province| && 0 <= x < Cols(province) ==> (border[y, x] <==> OnBorder(province, Tile(y, x)))
  {
    border := new bool[|province|, Cols(province)]((y, x) => false);
    for y := 0 to |province|
      invariant forall y', x' :: 0 <= y' < y && 0 <= x' < Cols(province) ==> (border[y', x'] <==> OnBorder(province, Tile(y', x')))
      invariant forall y', x' :: y <= y' < |province| && 0 <= x' < Cols(province) ==> !border[y', x']
    {
      BorderRow(province, border, y);
    }
  }

  /** The `for x` and direction loops of generator.py:45-49 for row `y`. */
  method BorderRow(province: Grid<int>, border: array2<bool>, y: nat)
    modifies border
    requires Rect(province) && y < |province| && border.Length0 == |province| && border.Length1 == Cols(province)
    requires forall x :: 0 <= x < Cols(province) ==> !border[y, x]
    ensures forall x :: 0 <= x < Cols(province) ==> (border[y, x] <==> OnBorder(province, Tile(y, x)))
    ensures forall y', x' :: 0 <= y' < |province| && y' != y && 0 <= x' < Cols(province) ==> border[y', x'] == old(border[y', x'])
  {
    for x := 0 to Cols(province)
      invariant forall x' :: 0 <= x' < x ==> (border[y, x'] <==> OnBorder(province, Tile(y, x')))
      invariant forall x' :: x <= x' < Cols(province) ==> !border[y, x']
      invariant forall y', x' :: 0 <= y' < |province| && y' != y && 0 <= x' < Cols(province) ==> border[y', x'] == old(border[y', x'])
    {
      var t := Tile(y, x);
      for i := 0 to 4
        invariant forall x' :: 0 <= x' < x ==> (border[y, x'] <==> OnBorder(province, Tile(y, x')))
        invariant forall x' :: x < x' < Cols(province) ==> !border[y, x']
        invariant forall y', x' :: 0 <= y' < |province| && y' != y && 0 <= x' < Cols(province) ==> border[y', x'] == old(border[y', x'])
        invariant border[y, x] <==> exists j :: 0 <= j < i && InBounds(Neighbour(t, j), |province|, Cols(province)) && At(province, Neighbour(t, j)) != At(province, t)
      {
        var n := Neighbour(t, i);
        if 0 <= n.y < |province| && 0 <= n.x < Cols(province) && province[n.y][n.x] != province[y][x] {
          border[y, x] := true;
        }
      }
    }
  }

  // ---------------------------------------------------------------------
  // Hydrology (generator.py:108-154)
  // ---------------------------------------------------------------------

  /** The sea level that generator.py hard-codes in `trace_rivers`,
      `place_cities` and `assign_biomes`. */
  const SEA_LEVEL: real := 0.26

  /** `trace_rivers` of generator.py:132-154: the rivers.py walk with the sea
      level fixed at 0.26 and no line list returned. Every tile carries the
      id of the walk of `Rivers.RiverWalks` through it, or 0. */
  method TraceRivers(flux: Grid<real>, down: Grid<Option<Tile>>, elev: Grid<real>, minFlux: real)
    returns (riverMap: array2<int>, riverWidth: array2<int>)
    requires Rivers.TraceInputs(flux, down, elev)
    ensures riverMap.Length0 == riverWidth.Length0 == |elev| && riverMap.Length1 == riverWidth.Length1 == Cols(elev)
    ensures Rivers.RiverMarks(flux, down, elev, minFlux, SEA_LEVEL, Snapshot(riverMap), Snapshot(riverWidth))
    ensures var ws := Rivers.RiverWalks(flux, down, elev, minFlux, SEA_LEVEL);
      forall y, x :: 0 <= y < |elev| && 0 <= x < Cols(elev) ==> riverMap[y, x] == Rivers.IdOf(ws, Tile(y, x))
  {
    var lines;
    riverMap, riverWidth, lines := Rivers.TraceRivers(flux, down, elev, minFlux, SEA_LEVEL);
  }

  // ---------------------------------------------------------------------
  // One city per province (generator.py:157-179)
  // ---------------------------------------------------------------------

  /** The maps `place_cities` reads have the shape of the elevation grid. */
  ghost predicate CityMaps(province: Grid<int>, river: Grid<int>, elev: Grid<real>) {
    Cities.Maps(river, elev) && Shaped(province, |elev|, Cols(elev))
  }

  /** The test of generator.py:164-171: a tile of province `id` that is a
      city site of cities.py at sea level 0.26 (land below 0.8, on a river
      or with water in its 3x3 block). */
  ghost predicate Eligible(province: Grid<int>, river: Grid<int>, elev: Grid<real>, id: int, t: Tile)
    requires CityMaps(province, river, elev)
  {
    Cities.OnMap(elev, t) && At(province, t) == id && Cities.Suitable(river, elev, SEA_LEVEL, t)
  }

  /** The eligible tiles of `ts`, in order. */
  ghost function Pick(province: Grid<int>, river: Grid<int>, elev: Grid<real>, id: int, ts: seq<Tile>): seq<Tile>
    requires CityMaps(province, river, elev)
  {
    if ts == [] then []
    else
      var t := ts[|ts| - 1];
      Pick(province, river, elev, id, ts[..|ts| - 1]) + (if Eligible(province, river, elev, id, t) then [t] else [])
  }

  /** `candidates` of province `id`: its eligible tiles in row-major order. */
  ghost function Candidates(province: Grid<int>, river: Grid<int>, elev: Grid<real>, id: int): seq<Tile>
    requires CityMaps(province, river, elev)
  {
    Pick(province, river, elev, id, RowMajor(|elev|, Cols(elev)))
  }

  lemma {:induction false} PickMembers(province: Grid<int>, river: Grid<int>, elev: Grid<real>, id: int, ts: seq<Tile>, t: Tile)
    requires CityMaps(province, river, elev)
    ensures t in Pick(province, river, elev, id, ts) <==> t in ts && Eligible(province, river, elev, id, t)
  {
    if ts != [] {
      var p := ts[..|ts| - 1];
      assert ts == p + [ts[|ts| - 1]];
      PickMembers(province, river, elev, id, p, t);
    }
  }

  lemma {:induction false} PickOrdered(province: Grid<int>, river: Grid<int>, elev: Grid<real>, id: int, ts: seq<Tile>)
    requires CityMaps(province, river, elev) && Ordering.RowMajorStrict(ts)
    ensures Ordering.RowMajorStrict(Pick(province, river, elev, id, ts))
  {
    if ts != [] {
      var p, last := ts[..|ts| - 1], ts[|ts| - 1];
      PickOrdered(province, river, elev, id, p);
      var f := Pick(province, river, elev, id, p);
      forall i | 0 <= i < |f| ensures RowMajorLess(f[i], last) {
        PickMembers(province, river, elev, id, p, f[i]);
        var k :| 0 <= k < |p| && p[k] == f[i];
        assert ts[k] == p[k];
      }
    }
  }

  /** A province's candidates are exactly its eligible tiles, each once, in
      row-major order. */
  lemma CandidatesFacts(province: Grid<int>, river: Grid<int>, elev: Grid<real>, id: int)
    requires CityMaps(province, river, elev)
    ensures forall t :: t in Candidates(province, river, elev, id) <==> Eligible(province, river, elev, id, t)
    ensures Ordering.RowMajorStrict(Candidates(province, river, elev, id))
  {
    var all := RowMajor(|elev|, Cols(elev));
    forall t ensures t in Candidates(province, river, elev, id) <==> Eligible(province, river, elev, id, t) {
      RowMajorMembers(|elev|, Cols(elev), t);
      PickMembers(province, river, elev, id, all, t);
    }
    RowMajorSorted(|elev|, Cols(elev));
    PickOrdered(province, river, elev, id, all);
  }

  lemma {:induction false} PickAppend(province: Grid<int>, river: Grid<int>, elev: Grid<real>, id: int, a: seq<Tile>, b: seq<Tile>)
    requires CityMaps(province, river, elev)
    ensures Pick(province, river, elev, id, a + b) == Pick(province, river, elev, id, a) + Pick(province, river, elev, id, b)
  {
    if b != [] {
      var pb := b[..|b| - 1];
      assert (a + b)[..|a + b| - 1] == a + pb;
      PickAppend(province, river, elev, id, a, pb);
    } else {
      assert a + b == a;
    }
  }

  /** The nested loops of generator.py:161-172 for province `id`. */
  method CollectProvince(province: Grid<int>, river: Grid<int>, elev: Grid<real>, id: int) returns (cands: seq<Tile>)
    requires CityMaps(province, river, elev)
    ensures cands == Candidates(province, river, elev, id)
  {
    cands := [];
    for y := 0 to |elev|
      invariant cands == Pick(province, river, elev, id, RowMajor(y, Cols(elev)))
    {
      var row := CollectProvinceRow(province, river, elev, id, y);
      PickAppend(province, river, elev, id, RowMajor(y, Cols(elev)), Row(y, Cols(elev)));
      cands := cands + row;
    }
  }

  /** The inner `for x` loop of generator.py:163-172. */
  method CollectProvinceRow(province: Grid<int>, river: Grid<int>, elev: Grid<real>, id: int, y: int) returns (row: seq<Tile>)
    requires CityMaps(province, river, elev)
    ensures row == Pick(province, river, elev, id, Row(y, Cols(elev)))
  {
    row := [];
    for x := 0 to Cols(elev)
      invariant row == Pick(province, river, elev, id, Row(y, Cols(elev))[..x])
    {
      var t := Tile(y, x);
      assert Row(y, Cols(elev))[..x + 1][..x] == Row(y, Cols(elev))[..x];
      if 0 <= y < |elev| && province[y][x] == id && Cities.Suitable(river, elev, SEA_LEVEL, t) {
        row := row + [t];
      }
    }
    assert Row(y, Cols(elev))[..Cols(elev)] == Row(y, Cols(elev));
  }

  /** The least squared distance from `c` to a placed city. */
  function NearestDist2(c: Tile, cities: seq<Tile>): (d: int)
    requires cities != []
    ensures forall i :: 0 <= i < |cities| ==> d <= Cities.Dist2(c, cities[i])
    ensures exists i :: 0 <= i < |cities| && d == Cities.Dist2(c, cities[i])
  {
    var last := Cities.Dist2(c, cities[|cities| - 1]);
    if |cities| == 1 then last
    else
      var rest := NearestDist2(c, cities[..|cities| - 1]);
      if rest <= last then rest else last
  }

  /** The key of the `max` at generator.py:174-177: the distance from `c` to
      the nearest placed city, squared (`hypot` is monotone in it). With no
      city placed every candidate gets the same key (the source's 1e9). */
  function Spread(c: Tile, cities: seq<Tile>): int {
    if cities == [] then 0 else NearestDist2(c, cities)
  }

  /** `best` is what `max(cands, key=...)` returns: a largest key, the first
      such in `cands`. */
  ghost predicate FarthestOf(cands: seq<Tile>, cities: seq<Tile>, best: Tile) {
    exists j :: 0 <= j < |cands| && cands[j] == best
      && (forall i :: 0 <= i < |cands| ==> Spread(cands[i], cities) <= Spread(best, cities))
      && (forall i :: 0 <= i < j ==> Spread(cands[i], cities) < Spread(best, cities))
  }

  /** `max` with a key: keeps the first candidate and replaces it only on a
      strictly larger key. */
  method Farthest(cands: seq<Tile>, cities: seq<Tile>) returns (best: Tile)
    requires cands != []
    ensures FarthestOf(cands, cities, best)
  {
    best := cands[0];
    var bestKey := Spread(best, cities);
    ghost var j := 0;
    for i := 1 to |cands|
      invariant 0 <= j < i && cands[j] == best && bestKey == Spread(best, cities)
      invariant forall k :: 0 <= k < i ==> Spread(cands[k], cities) <= bestKey
      invariant forall k :: 0 <= k < j ==> Spread(cands[k], cities) < bestKey
    {
      var key := Spread(cands[i], cities);
      if key > bestKey {
        best, bestKey, j := cands[i], key, i;
      }
    }
  }

  /** The ids of `ids`, in order, whose province has a candidate. */
  ghost function Owners(province: Grid<int>, river: Grid<int>, elev: Grid<real>, ids: seq<int>): seq<int>
    requires CityMaps(province, river, elev)
  {
    if ids == [] then []
    else
      var id := ids[|ids| - 1];
      Owners(province, river, elev, ids[..|ids| - 1]) + (if Candidates(province, river, elev, id) != [] then [id] else [])
  }

  /** The owners are the ids with a candidate, each once, ascending. */
  lemma {:induction false} OwnersFacts(province: Grid<int>, river: Grid<int>, elev: Grid<real>, ids: seq<int>)
    requires CityMaps(province, river, elev)
    requires forall i, j :: 0 <= i < j < |ids| ==> ids[i] < ids[j]
    ensures forall id :: id in Owners(province, river, elev, ids) <==> id in ids && Candidates(province, river, elev, id) != []
    ensures forall i, j :: 0 <= i < j < |Owners(province, river, elev, ids)| ==>
      Owners(province, river, elev, ids)[i] < Owners(province, river, elev, ids)[j]
  {
    if ids != [] {
      var p, last := ids[..|ids| - 1], ids[|ids| - 1];
      assert ids == p + [last];
      assert forall i, j :: 0 <= i < j < |p| ==> p[i] < p[j] by {
        forall i, j | 0 <= i < j < |p| ensures p[i] < p[j] {
          assert p[i] == ids[i] && p[j] == ids[j];
        }
      }
      OwnersFacts(province, river, elev, p);
      var o := Owners(province, river, elev, p);
      var tail := if Candidates(province, river, elev, last) != [] then [last] else [];
      var o' := Owners(province, river, elev, ids);
      assert o' == o + tail;
      forall id ensures id in o' <==> id in ids && Candidates(province, river, elev, id) != [] {
        assert id in ids <==> id in p || id == last;
      }
      forall i | 0 <= i < |o| ensures o[i] < last {
        assert o[i] in o;
        var k :| 0 <= k < |p| && p[k] == o[i];
        assert ids[k] == p[k];
      }
      forall i, j | 0 <= i < j < |o'| ensures o'[i] < o'[j] {
        if j < |o| {
          assert o'[i] == o[i] && o'[j] == o[j];
        } else {
          assert o'[i] == o[i] && o'[j] == last;
        }
      }
    }
  }

  /** What `place_cities` (generator.py:157-179) returns for the sorted,
      distinct province ids `ids` (the `np.unique` of the map): one city for
      each province with a candidate, in ascending id; each city a candidate
      of its province, picked as the farthest from the cities before it. */
  ghost predicate ProvinceCities(province: Grid<int>, river: Grid<int>, elev: Grid<real>, ids: seq<int>, cities: seq<Tile>)
    requires CityMaps(province, river, elev)
  {
    var owners := Owners(province, river, elev, ids);
    |cities| == |owners|
    && forall k :: 0 <= k < |cities| ==> FarthestOf(Candidates(province, river, elev, owners[k]), cities[..k], cities[k])
  }

  /** Every city of `ProvinceCities` lies in its own province and is a city
      site: land in (0.26, 0.8), on a river or next to water. */
  lemma ProvinceCitiesSites(province: Grid<int>, river: Grid<int>, elev: Grid<real>, ids: seq<int>, cities: seq<Tile>, k: int)
    requires CityMaps(province, river, elev) && ProvinceCities(province, river, elev, ids, cities)
    requires 0 <= k < |cities|
    ensures Cities.OnMap(elev, cities[k])
    ensures At(province, cities[k]) == Owners(province, river, elev, ids)[k]
    ensures SEA_LEVEL < At(elev, cities[k]) < Cities.HIGHLAND
    ensures At(river, cities[k]) > 0 || Cities.NearWater(elev, SEA_LEVEL, cities[k])
  {
    var id := Owners(province, river, elev, ids)[k];
    CandidatesFacts(province, river, elev, id);
    var cands := Candidates(province, river, elev, id);
    var j :| 0 <= j < |cands| && cands[j] == cities[k];
    assert cities[k] in cands;
  }

  /** `place_cities` (generator.py:157-179). `n_cities` and `min_dist` are
      accepted but never read. */
  method PlaceCities(province: Grid<int>, river: Grid<int>, elev: Grid<real>, ids: seq<int>, nCities: int, minDist: int)
    returns (cities: seq<Tile>)
    requires CityMaps(province, river, elev)
    ensures ProvinceCities(province, river, elev, ids, cities)
  {
    cities := [];
    ghost var owners: seq<int> := [];
    for n := 0 to |ids|
      invariant owners == Owners(province, river, elev, ids[..n])
      invariant |cities| == |owners|
      invariant forall k :: 0 <= k < |cities| ==> FarthestOf(Candidates(province, river, elev, owners[k]), cities[..k], cities[k])
    {
      var id := ids[n];
      assert ids[..n + 1][..n] == ids[..n];
      var cands := CollectProvince(province, river, elev, id);
      if cands != [] {
        var best := Farthest(cands, cities);
        cities, owners := cities + [best], owners + [id];
        assert forall k :: 0 <= k < |cities| - 1 ==> cities[..k] == cities[..|cities| - 1][..k];
      }
    }
    assert ids[..|ids|] == ids;
  }

  // ---------------------------------------------------------------------
  // Glyph biomes (generator.py:182-204)
  // ---------------------------------------------------------------------

  /** The labels of `BIOME_GLYPHS`. */
  datatype Label = Ocean | Plain | Mountain | Snow

  /** `BIOME_GLYPHS`: the character and RGB colour drawn for each label. */
  const BIOME_GLYPHS: map<Label, (char, (int, int, int))> := map[
    Ocean := ('~', (0, 0, 200)),
    Plain := ('.', (50, 200, 50)),
    Mountain := ('^', (180, 180, 180)),
    Snow := ('*', (220, 220, 220))]

  /** The cascade of generator.py:198-203 for elevation `e` and temperature
      `t`; the rainfall read at line 196 never decides anything. */
  function LabelOf(e: real, t: real): Label {
    if e < SEA_LEVEL then Ocean
    else if e > 0.8 then (if t > 0.3 then Mountain else Snow)
    else Plain
  }

  /** The region of the (elevation, temperature) plane each label covers. */
  ghost predicate LabelRegion(l: Label, e: real, t: real) {
    match l
    case Ocean => e < 0.26
    case Plain => 0.26 <= e <= 0.8
    case Mountain => e > 0.8 && t > 0.3
    case Snow => e > 0.8 && t <= 0.3
  }

  /** The cascade picks exactly the label whose region holds (e, t), and every
      label it can return has a glyph. */
  lemma LabelRegions(e: real, t: real, l: Label)
    ensures LabelOf(e, t) == l <==> LabelRegion(l, e, t)
    ensures LabelOf(e, t) in BIOME_GLYPHS
  {
  }

  /** `assign_biomes` (generator.py:182-204). */
  method AssignBiomes(elev: Grid<real>, rainfall: Grid<real>, temp: Grid<real>) returns (biome: array2<Label>)
    requires Rect(elev) && Shaped(rainfall, |elev|, Cols(elev)) && Shaped(temp, |elev|, Cols(elev))
    ensures biome.Length0 == |elev| && biome.Length1 == Cols(elev)
    ensures forall y, x :: 0 <= y < |elev| && 0 <= x < Cols(elev) ==> biome[y, x] == LabelOf(elev[y][x], temp[y][x])
  {
    biome := new Label[|elev|, Cols(elev)]((y, x) => Ocean);
    for y := 0 to |elev|
      invariant forall y', x' :: 0 <= y' < y && 0 <= x' < Cols(elev) ==> biome[y', x'] == LabelOf(elev[y'][x'], temp[y'][x'])
    {
      BiomeRow(elev, rainfall, temp, biome, y);
    }
  }

  /** The inner `for x` loop of generator.py:194-203 for row `y`. */
  method BiomeRow(elev: Grid<real>, rainfall: Grid<real>, temp: Grid<real>, biome: array2<Label>, y: nat)
    modifies biome
    requires Rect(elev) && Shaped(rainfall, |elev|, Cols(elev)) && Shaped(temp, |elev|, Cols(elev))
    requires y < |elev| && biome.Length0 == |elev| && biome.Length1 == Cols(elev)
    ensures forall x :: 0 <= x < Cols(elev) ==> biome[y, x] == LabelOf(elev[y][x], temp[y][x])
    ensures forall y', x' :: 0 <= y' < |elev| && y' != y && 0 <= x' < Cols(elev) ==> biome[y', x'] == old(biome[y', x'])
  {
    for x := 0 to Cols(elev)
      invariant forall x' :: 0 <= x' < x ==> biome[y, x'] == LabelOf(elev[y][x'], temp[y][x'])
      invariant forall y', x' :: 0 <= y' < |elev| && y' != y && 0 <= x' < Cols(elev) ==> biome[y', x'] == old(biome[y', x'])
    {
      var e, r, t := elev[y][x], rainfall[y][x], temp[y][x];
      if e < SEA_LEVEL {
        biome[y, x] := Ocean;
      } else if e > 0.8 {
        biome[y, x] := if t > 0.3 then Mountain else Snow;
      } else {
        biome[y, x] := Plain;
      }
    }
  }
}
