/** Shared vocabulary of the grid-based generator: tiles, coordinate pairs,
    rectangular grids, the 4-neighbourhood in the order the source scans it,
    and the row-major enumeration that every nested `for y ... for x` loop follows. */
module Common {

  datatype Option<T> = None | Some(value: T)

  /** A grid index in the source's own order: row first, `(y, x)`. */
  datatype Tile = Tile(y: int, x: int)

  /** A coordinate pair stored x first, as the source does for river lines,
      Lloyd seeds and polyline vertices. */
  datatype Point = Point(x: int, y: int)

  /** A numpy array of shape (height, width), read only. */
  type Grid<T> = seq<seq<T>>

  function Cols<T>(g: Grid<T>): nat {
    if |g| == 0 then 0 else |g[0]|
  }

  /** Every row has the same length, as a 2-D numpy array does. */
  ghost predicate Rect<T>(g: Grid<T>) {
    forall y :: 0 <= y < |g| ==> |g[y]| == Cols(g)
  }

  /** `g` has exactly the shape (h, w). */
  ghost predicate Shaped<T>(g: Grid<T>, h: nat, w: nat) {
    |g| == h && forall y :: 0 <= y < h ==> |g[y]| == w
  }

  predicate InBounds(t: Tile, h: int, w: int) {
    0 <= t.y < h && 0 <= t.x < w
  }

  function At<T>(g: Grid<T>, t: Tile): T
    requires 0 <= t.y < |g| && 0 <= t.x < |g[t.y]|
  {
    g[t.y][t.x]
  }

  /** The row offsets of the four directions in scan order: up, down, left, right. */
  function DY(i: nat): int requires i < 4 {
    if i == 0 then -1 else if i == 1 then 1 else 0
  }

  function DX(i: nat): int requires i < 4 {
    if i == 2 then -1 else if i == 3 then 1 else 0
  }

  /** The i-th 4-neighbour of `t`, in the order (-1,0), (1,0), (0,-1), (0,1). */
  function Neighbour(t: Tile, i: nat): (n: Tile)
    requires i < 4
    ensures Adjacent(t, n)
  {
    Tile(t.y + DY(i), t.x + DX(i))
  }

  function Abs(a: int): nat {
    if a < 0 then -a else a
  }

  function Manhattan(a: Tile, b: Tile): nat {
    Abs(a.y - b.y) + Abs(a.x - b.x)
  }

  /** Two tiles share an edge. */
  predicate Adjacent(a: Tile, b: Tile) {
    Manhattan(a, b) == 1
  }

  /** The direction in which `b` lies from its 4-neighbour `a`. */
  function DirectionOf(a: Tile, b: Tile): (i: nat)
    requires Adjacent(a, b)
    ensures i < 4 && Neighbour(a, i) == b
  {
    if b.y < a.y then 0 else if b.y > a.y then 1 else if b.x < a.x then 2 else 3
  }

  lemma NeighboursDistinct(t: Tile, i: nat, j: nat)
    requires i < 4 && j < 4 && i != j
    ensures Neighbour(t, i) != Neighbour(t, j)
  {
  }

  /** Strict row-major order: the order of a `for y: for x:` scan. */
  predicate RowMajorLess(a: Tile, b: Tile) {
    a.y < b.y || (a.y == b.y && a.x < b.x)
  }

  /** Row `y` of a grid of width `w`, left to right. */
  function Row(y: int, w: nat): (r: seq<Tile>)
    ensures |r| == w
    ensures forall x :: 0 <= x < w ==> r[x] == Tile(y, x)
  {
    seq(w, x => Tile(y, x))
  }

  /** All tiles of an h-by-w grid in row-major order:
      `[(y, x) for y in range(h) for x in range(w)]`. */
  function RowMajor(h: nat, w: nat): (r: seq<Tile>)
    ensures |r| == h * w
  {
    if h == 0 then [] else RowMajor(h - 1, w) + Row(h - 1, w)
  }

  lemma {:induction false} RowMajorMembers(h: nat, w: nat, t: Tile)
    ensures t in RowMajor(h, w) <==> InBounds(t, h, w)
  {
    if h > 0 {
      RowMajorMembers(h - 1, w, t);
      if t in Row(h - 1, w) {
        var x :| 0 <= x < w && Row(h - 1, w)[x] == t;
      }
      if InBounds(t, h, w) && t.y == h - 1 {
        assert Row(h - 1, w)[t.x] == t;
      }
    }
  }

  /** The row-major enumeration is strictly increasing, so it lists every tile once. */
  lemma {:induction false} RowMajorSorted(h: nat, w: nat)
    ensures forall i, j :: 0 <= i < j < |RowMajor(h, w)| ==> RowMajorLess(RowMajor(h, w)[i], RowMajor(h, w)[j])
  {
    if h > 0 {
      RowMajorSorted(h - 1, w);
      var p, r := RowMajor(h - 1, w), Row(h - 1, w);
      forall i | 0 <= i < |p| ensures p[i].y < h - 1 {
        RowMajorMembers(h - 1, w, p[i]);
      }
      assert RowMajor(h, w) == p + r;
    }
  }

  /** Scanning `y` then `x` grows the row-major prefix by one tile. */
  lemma RowMajorPrefixStep(h: nat, w: nat, y: nat, x: nat)
    requires y < h && x < w
    ensures RowMajor(y, w) + Row(y, w)[..x] + [Tile(y, x)] == RowMajor(y, w) + Row(y, w)[..x + 1]
  {
    assert Row(y, w)[..x + 1] == Row(y, w)[..x] + [Tile(y, x)];
  }

  /** Finishing row `y` gives the row-major list of the first y + 1 rows. */
  lemma RowMajorRowDone(y: nat, w: nat)
    ensures RowMajor(y, w) + Row(y, w)[..w] == RowMajor(y + 1, w)
  {
    assert Row(y, w)[..w] == Row(y, w);
  }

  /** The set of all tiles of an h-by-w grid. */
  function AllTiles(h: nat, w: nat): (s: set<Tile>)
    ensures forall t :: t in s <==> InBounds(t, h, w)
  {
    var s := set t | t in RowMajor(h, w);
    assert forall t :: t in s <==> InBounds(t, h, w) by {
      forall t ensures t in s <==> InBounds(t, h, w) { RowMajorMembers(h, w, t); }
    }
    s
  }

  lemma AllTilesCount(h: nat, w: nat)
    ensures |AllTiles(h, w)| == h * w
  {
    RowMajorSorted(h, w);
    DistinctCount(RowMajor(h, w));
  }

  lemma {:induction false} SubsetCard<T>(a: set<T>, b: set<T>)
    requires a <= b
    ensures |a| <= |b|
  {
    if a != {} {
      var e :| e in a;
      SubsetCard(a - {e}, b - {e});
    }
  }

  /** A set of tiles of an h-by-w grid has at most h * w elements. */
  lemma TilesBound(s: set<Tile>, h: nat, w: nat)
    requires forall t :: t in s ==> InBounds(t, h, w)
    ensures |s| <= h * w
  {
    SubsetCard(s, AllTiles(h, w));
    AllTilesCount(h, w);
  }

  /** A sequence whose elements strictly increase in row-major order has as
      many distinct elements as entries. */
  lemma {:induction false} DistinctCount(s: seq<Tile>)
    requires forall i, j :: 0 <= i < j < |s| ==> RowMajorLess(s[i], s[j])
    ensures |set t | t in s| == |s|
  {
    if s != [] {
      var p := s[..|s| - 1];
      DistinctCount(p);
      assert (set t | t in s) == (set t | t in p) + {s[|s| - 1]};
      assert s[|s| - 1] !in p;
    }
  }

  /** The first `n` entries of row `y` of a 2-D array. */
  function RowPrefix<T>(a: array2<T>, y: nat, n: nat): (r: seq<T>)
    reads a
    requires y < a.Length0 && n <= a.Length1
    ensures |r| == n && forall x :: 0 <= x < n ==> r[x] == a[y, x]
  {
    if n == 0 then [] else RowPrefix(a, y, n - 1) + [a[y, n - 1]]
  }

  /** The first `n` rows of a 2-D array. */
  function RowsPrefix<T>(a: array2<T>, n: nat): (g: Grid<T>)
    reads a
    requires n <= a.Length0
    ensures Shaped(g, n, a.Length1)
    ensures forall y, x :: 0 <= y < n && 0 <= x < a.Length1 ==> g[y][x] == a[y, x]
  {
    if n == 0 then [] else RowsPrefix(a, n - 1) + [RowPrefix(a, n - 1, a.Length1)]
  }

  /** The contents of a 2-D array as a grid value. */
  function Snapshot<T>(a: array2<T>): (g: Grid<T>)
    reads a
    ensures Shaped(g, a.Length0, a.Length1)
    ensures forall y, x :: 0 <= y < a.Length0 && 0 <= x < a.Length1 ==> g[y][x] == a[y, x]
  {
    RowsPrefix(a, a.Length0)
  }

  /** `list.reverse()`. */
  function Reversed<T>(s: seq<T>): (r: seq<T>)
    ensures |r| == |s|
    ensures forall i :: 0 <= i < |s| ==> r[i] == s[|s| - 1 - i]
  {
    if s == [] then [] else Reversed(s[1..]) + [s[0]]
  }
}
