/** City placement of archipelago_generator/cities.py: land tiles in the
    elevation band that lie on a river or on the coast are collected in
    row-major order, shuffled, and accepted greedily while they keep a minimum
    distance from every city accepted before them. */
module Cities {
  import opened Common
  import opened Ordering

  const SEA_LEVEL: real := 0.26
  /** Cities are placed strictly below this elevation (cities.py:26). */
  const HIGHLAND: real := 0.8

  /** The river map and the elevation grid have the same shape. */
  ghost predicate Maps(river: Grid<int>, elev: Grid<real>) {
    Rect(elev) && Shaped(river, |elev|, Cols(elev))
  }

  predicate OnMap(elev: Grid<real>, t: Tile) {
    InBounds(t, |elev|, Cols(elev))
  }

  /** The offset of the i-th row (or column) of the 3x3 block: -1, 0, 1. */
  function Offset(i: nat): int
    requires i < 3
  {
    i - 1
  }

  /** The i-th tile of the 3x3 block centred on `t`, in the order of the
      generator `for dy in [-1, 0, 1] for dx in [-1, 0, 1]`. */
  function Around(t: Tile, i: nat): Tile
    requires i < 9
  {
    Tile(t.y + Offset(if i < 3 then 0 else if i < 6 then 1 else 2), t.x + Offset(if i < 3 then i else if i < 6 then i - 3 else i - 6))
  }

  /** `t` is on the map and below sea level. */
  predicate Wet(elev: Grid<real>, sea: real, t: Tile)
    requires Rect(elev)
  {
    OnMap(elev, t) && At(elev, t) < sea
  }

  /** The `any(...)` of cities.py:27-33: some tile of the 3x3 block centred
      on `t`, `t` itself included, is on the map and below sea level. */
  predicate NearWater(elev: Grid<real>, sea: real, t: Tile)
    requires Rect(elev)
  {
    exists i :: 0 <= i < 9 && Wet(elev, sea, Around(t, i))
  }

  /** The block of `Around` is the 3x3 square: `NearWater` holds exactly when
      a tile at most one row and one column away is wet. */
  lemma NearWaterSquare(elev: Grid<real>, sea: real, t: Tile)
    requires Rect(elev)
    ensures NearWater(elev, sea, t) <==>
      exists n: Tile :: Abs(n.y - t.y) <= 1 && Abs(n.x - t.x) <= 1 && Wet(elev, sea, n)
  {
    if exists n: Tile :: Abs(n.y - t.y) <= 1 && Abs(n.x - t.x) <= 1 && Wet(elev, sea, n) {
      var n: Tile :| Abs(n.y - t.y) <= 1 && Abs(n.x - t.x) <= 1 && Wet(elev, sea, n);
      var i := (n.y - t.y + 1) * 3 + (n.x - t.x + 1);
      assert Around(t, i) == n;
    }
  }

  /** The test of cities.py:26-33: on the map, inside the elevation band, and
      on a river (`river_map > 0`) or near water. */
  predicate Suitable(river: Grid<int>, elev: Grid<real>, sea: real, t: Tile)
    requires Maps(river, elev)
  {
    OnMap(elev, t) && sea < At(elev, t) < HIGHLAND && (At(river, t) > 0 || NearWater(elev, sea, t))
  }

  /** The tiles of `ts` that are suitable, in the order of `ts`. */
  ghost function Filter(river: Grid<int>, elev: Grid<real>, sea: real, ts: seq<Tile>): seq<Tile>
    requires Maps(river, elev)
  {
    if ts == [] then []
    else
      Filter(river, elev, sea, ts[..|ts| - 1]) + (if Suitable(river, elev, sea, ts[|ts| - 1]) then [ts[|ts| - 1]] else [])
  }

  lemma {:induction false} FilterMembers(river: Grid<int>, elev: Grid<real>, sea: real, ts: seq<Tile>, t: Tile)
    requires Maps(river, elev)
    ensures t in Filter(river, elev, sea, ts) <==> t in ts && Suitable(river, elev, sea, t)
  {
    if ts != [] {
      var p := ts[..|ts| - 1];
      assert ts == p + [ts[|ts| - 1]];
      FilterMembers(river, elev, sea, p, t);
    }
  }

  lemma {:induction false} FilterOrdered(river: Grid<int>, elev: Grid<real>, sea: real, ts: seq<Tile>)
    requires Maps(river, elev)
    requires RowMajorStrict(ts)
    ensures RowMajorStrict(Filter(river, elev, sea, ts))
  {
    if ts != [] {
      var p := ts[..|ts| - 1];
      var last := ts[|ts| - 1];
      FilterOrdered(river, elev, sea, p);
      var f := Filter(river, elev, sea, p);
      forall i | 0 <= i < |f| ensures RowMajorLess(f[i], last) {
        FilterMembers(river, elev, sea, p, f[i]);
        var k :| 0 <= k < |p| && p[k] == f[i];
        assert ts[k] == p[k];
      }
    }
  }

  /** The candidate list of cities.py:23-34: every suitable tile, in
      row-major order. */
  ghost function CandidateList(river: Grid<int>, elev: Grid<real>, sea: real): seq<Tile>
    requires Maps(river, elev)
  {
    Filter(river, elev, sea, RowMajor(|elev|, Cols(elev)))
  }

  /** The candidates are exactly the suitable tiles, each listed once, in
      row-major order. */
  lemma CandidateListFacts(river: Grid<int>, elev: Grid<real>, sea: real)
    requires Maps(river, elev)
    ensures forall t :: t in CandidateList(river, elev, sea) <==> Suitable(river, elev, sea, t)
    ensures RowMajorStrict(CandidateList(river, elev, sea))
  {
    var all := RowMajor(|elev|, Cols(elev));
    forall t ensures t in CandidateList(river, elev, sea) <==> Suitable(river, elev, sea, t) {
      RowMajorMembers(|elev|, Cols(elev), t);
      FilterMembers(river, elev, sea, all, t);
    }
    RowMajorSorted(|elev|, Cols(elev));
    FilterOrdered(river, elev, sea, all);
  }

  lemma {:induction false} FilterAppend(river: Grid<int>, elev: Grid<real>, sea: real, a: seq<Tile>, b: seq<Tile>)
    requires Maps(river, elev)
    ensures Filter(river, elev, sea, a + b) == Filter(river, elev, sea, a) + Filter(river, elev, sea, b)
  {
    if b != [] {
      var pb := b[..|b| - 1];
      assert (a + b)[..|a + b| - 1] == a + pb;
      FilterAppend(river, elev, sea, a, pb);
    } else {
      assert a + b == a;
    }
  }

  /** The nested loops of cities.py:24-34. */
  method CollectCandidates(river: Grid<int>, elev: Grid<real>, sea: real) returns (cands: seq<Tile>)
    requires Maps(river, elev)
    ensures cands == CandidateList(river, elev, sea)
  {
    var height, width := |elev|, Cols(elev);
    cands := [];
    for y := 0 to height
      invariant cands == Filter(river, elev, sea, RowMajor(y, width))
    {
      var row := CollectRow(river, elev, sea, y);
      FilterAppend(river, elev, sea, RowMajor(y, width), Row(y, width));
      cands := cands + row;
    }
  }

  /** One pass of the inner `for x` loop of cities.py:25-34. */
  method CollectRow(river: Grid<int>, elev: Grid<real>, sea: real, y: int) returns (row: seq<Tile>)
    requires Maps(river, elev)
    ensures row == Filter(river, elev, sea, Row(y, Cols(elev)))
  {
    row := [];
    for x := 0 to Cols(elev)
      invariant row == Filter(river, elev, sea, Row(y, Cols(elev))[..x])
    {
      var t := Tile(y, x);
      assert Row(y, Cols(elev))[..x + 1][..x] == Row(y, Cols(elev))[..x];
      if Suitable(river, elev, sea, t) {
        row := row + [t];
      }
    }
    assert Row(y, Cols(elev))[..Cols(elev)] == Row(y, Cols(elev));
  }

  // ---------------------------------------------------------------------
  // Greedy spacing (cities.py:39-44)
  // ---------------------------------------------------------------------

  function Dist2(a: Tile, b: Tile): int {
    (a.y - b.y) * (a.y - b.y) + (a.x - b.x) * (a.x - b.x)
  }

  /** `np.hypot(dy, dx) >= min_dist`, stated on squared integer distances:
      any distance passes a bound of 0 or less. */
  predicate FarEnough(a: Tile, b: Tile, minDist: int) {
    minDist <= 0 || Dist2(a, b) >= minDist * minDist
  }

  /** The `all(...)` of cities.py:41: `c` keeps its distance from every city. */
  predicate Clear(c: Tile, cities: seq<Tile>, minDist: int) {
    forall i :: 0 <= i < |cities| ==> FarEnough(c, cities[i], minDist)
  }

  /** Any two cities keep their distance. */
  ghost predicate Spaced(cities: seq<Tile>, minDist: int) {
    forall i, j :: 0 <= i < j < |cities| ==> FarEnough(cities[i], cities[j], minDist)
  }

  /** `a` is `b` with some entries left out. */
  ghost predicate Subseq(a: seq<Tile>, b: seq<Tile>) {
    if b == [] then a == []
    else
      (a != [] && a[|a| - 1] == b[|b| - 1] && Subseq(a[..|a| - 1], b[..|b| - 1]))
      || Subseq(a, b[..|b| - 1])
  }

  lemma {:induction false} SubseqMembers(a: seq<Tile>, b: seq<Tile>)
    requires Subseq(a, b)
    ensures forall t :: t in a ==> t in b
  {
    if b != [] {
      var pb := b[..|b| - 1];
      assert forall t :: t in pb ==> t in b;
      if a != [] && a[|a| - 1] == b[|b| - 1] && Subseq(a[..|a| - 1], pb) {
        SubseqMembers(a[..|a| - 1], pb);
        assert a == a[..|a| - 1] + [a[|a| - 1]];
      } else {
        SubseqMembers(a, pb);
      }
    }
  }

  /** The cities kept after looking at `order` with no limit on their number:
      each one is kept when it is clear of the ones kept before it. */
  ghost function Kept(order: seq<Tile>, minDist: int): seq<Tile> {
    if order == [] then []
    else
      var k := Kept(order[..|order| - 1], minDist);
      if Clear(order[|order| - 1], k, minDist) then k + [order[|order| - 1]] else k
  }

  /** The kept cities keep their distance from each other. */
  lemma {:induction false} KeptSpaced(order: seq<Tile>, minDist: int)
    ensures Spaced(Kept(order, minDist), minDist)
  {
    if order != [] {
      var p := order[..|order| - 1];
      var c := order[|order| - 1];
      var k := Kept(p, minDist);
      KeptSpaced(p, minDist);
      if Clear(c, k, minDist) {
        var r := k + [c];
        forall i, j | 0 <= i < j < |r| ensures FarEnough(r[i], r[j], minDist) {
          if j == |k| {
            assert FarEnough(c, k[i], minDist);
          } else {
            assert r[i] == k[i] && r[j] == k[j];
          }
        }
      }
    }
  }

  /** The kept cities come from `order`, in its order. */
  lemma {:induction false} KeptSubseq(order: seq<Tile>, minDist: int)
    ensures Subseq(Kept(order, minDist), order)
  {
    if order != [] {
      var p := order[..|order| - 1];
      var k := Kept(p, minDist);
      KeptSubseq(p, minDist);
      if Clear(order[|order| - 1], k, minDist) {
        assert (k + [order[|order| - 1]])[..|k|] == k;
      }
    }
  }

  /** A candidate is left out only when it is too close to a city kept
      before it was looked at. */
  lemma {:induction false} KeptMaximal(order: seq<Tile>, minDist: int)
    ensures forall j :: 0 <= j < |order| ==>
      order[j] in Kept(order, minDist) || !Clear(order[j], Kept(order[..j], minDist), minDist)
  {
    if order != [] {
      var p := order[..|order| - 1];
      KeptMaximal(p, minDist);
      forall j | 0 <= j < |order|
        ensures order[j] in Kept(order, minDist) || !Clear(order[j], Kept(order[..j], minDist), minDist)
      {
        if j < |p| {
          assert order[..j] == p[..j];
          assert order[j] == p[j];
        } else {
          assert order[..j] == p;
        }
      }
    }
  }

  lemma KeptPrefix(order: seq<Tile>, minDist: int, n: nat)
    requires n < |order|
    ensures Kept(order[..n + 1], minDist) ==
      var k := Kept(order[..n], minDist);
      if Clear(order[n], k, minDist) then k + [order[n]] else k
  {
    assert order[..n + 1][..n] == order[..n];
  }

  /** The greedy loop of cities.py:39-44. It stops right after an append that
      brings the count to `nCities`, so `nCities <= 0` never stops it. The
      ghost result `seen` is how many candidates it looked at. */
  method Greedy(order: seq<Tile>, nCities: int, minDist: int) returns (cities: seq<Tile>, ghost seen: nat)
    ensures seen <= |order| && cities == Kept(order[..seen], minDist)
    ensures seen < |order| ==> 1 <= nCities == |cities|
    ensures nCities >= 1 ==> |cities| <= nCities
    ensures Spaced(cities, minDist) && Subseq(cities, order[..seen])
  {
    cities := [];
    var i := 0;
    while i < |order|
      invariant i <= |order| && cities == Kept(order[..i], minDist)
      invariant nCities >= 1 ==> |cities| < nCities
    {
      var c := order[i];
      KeptPrefix(order, minDist, i);
      if Clear(c, cities, minDist) {
        cities := cities + [c];
      }
      i := i + 1;
      if |cities| == nCities {
        break;
      }
    }
    seen := i;
    KeptSpaced(order[..seen], minDist);
    KeptSubseq(order[..seen], minDist);
  }

  /** `place_cities` (cities.py:11-45). The shuffle is a parameter standing
      for `rng.shuffle`: any permutation of its argument. */
  method PlaceCities(river: Grid<int>, elev: Grid<real>, nCities: int, minDist: int, sea: real,
                     shuffle: seq<Tile> -> seq<Tile>) returns (cities: seq<Tile>)
    requires Maps(river, elev)
    requires forall s :: multiset(shuffle(s)) == multiset(s)
    ensures forall c :: c in cities ==> Suitable(river, elev, sea, c)
    ensures Spaced(cities, minDist)
    ensures nCities >= 1 ==> |cities| <= nCities
    ensures var order := shuffle(CandidateList(river, elev, sea));
      exists n :: 0 <= n <= |order| && cities == Kept(order[..n], minDist) && (n < |order| ==> 1 <= nCities == |cities|)
  {
    var cands := CollectCandidates(river, elev, sea);
    var order := shuffle(cands);
    ghost var seen;
    cities, seen := Greedy(order, nCities, minDist);
    CandidateListFacts(river, elev, sea);
    SubseqMembers(cities, order[..seen]);
    forall c | c in cities ensures Suitable(river, elev, sea, c) {
      assert c in order;
      assert c in multiset(order);
      assert c in multiset(cands);
    }
  }
}
