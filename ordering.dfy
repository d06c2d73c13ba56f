/** Python's `list.sort(key=...)` as the generator uses it on lists of tiles:
    a STABLE sort, here descending by a real-valued grid (`order.sort(key=lambda
    p: -elevation[p])` and `coords.sort(key=lambda p: water_flux[p], reverse=True)`).
    Both calls sort a list built in row-major order, so the result is the list
    ordered by key descending and, among equal keys, row-major ascending. */
module Ordering {
  import opened Common

  /** `t` indexes `key`. */
  predicate Keyed(key: Grid<real>, t: Tile) {
    0 <= t.y < |key| && 0 <= t.x < |key[t.y]|
  }

  /** Every tile of `ts` indexes `key`. */
  ghost predicate Indexes(ts: seq<Tile>, key: Grid<real>) {
    forall t :: t in ts ==> Keyed(key, t)
  }

  /** The strict order the sorted list follows: larger key first, ties in row-major order. */
  ghost predicate Before(key: Grid<real>, a: Tile, b: Tile)
    requires Keyed(key, a) && Keyed(key, b)
  {
    At(key, a) > At(key, b) || (At(key, a) == At(key, b) && RowMajorLess(a, b))
  }

  ghost predicate SortedBefore(ts: seq<Tile>, key: Grid<real>)
    requires Indexes(ts, key)
  {
    forall i, j :: 0 <= i < j < |ts| ==> Before(key, ts[i], ts[j])
  }

  ghost predicate RowMajorStrict(ts: seq<Tile>) {
    forall i, j :: 0 <= i < j < |ts| ==> RowMajorLess(ts[i], ts[j])
  }

  /** Insert `t` after every element whose key is at least t's, which is where a
      stable sort puts an element that came later in its input. */
  function Insert(t: Tile, s: seq<Tile>, key: Grid<real>): (r: seq<Tile>)
    requires Indexes(s, key) && Keyed(key, t)
    ensures multiset(r) == multiset(s) + multiset{t}
    ensures |r| == |s| + 1
    ensures Indexes(r, key)
  {
    if s == [] then [t]
    else if (assert s[0] in s; At(key, s[0]) >= At(key, t)) then
      var rest := Insert(t, s[1..], key);
      assert s == [s[0]] + s[1..];
      [s[0]] + rest
    else
      [t] + s
  }

  /** `ts.sort(key=lambda p: -key[p])`, equivalently `sort(key=key[p], reverse=True)`. */
  function SortDesc(ts: seq<Tile>, key: Grid<real>): (r: seq<Tile>)
    requires Indexes(ts, key)
    ensures multiset(r) == multiset(ts)
    ensures |r| == |ts|
    ensures Indexes(r, key)
  {
    if ts == [] then []
    else
      var p := ts[..|ts| - 1];
      assert ts == p + [ts[|ts| - 1]];
      var sp := SortDesc(p, key);
      assert Indexes(sp, key) by {
        forall u | u in sp ensures u in p { assert u in multiset(sp); }
      }
      Insert(ts[|ts| - 1], sp, key)
  }

  lemma {:induction false} InsertSorted(t: Tile, s: seq<Tile>, key: Grid<real>)
    requires Indexes(s, key) && Keyed(key, t)
    requires SortedBefore(s, key)
    requires forall i :: 0 <= i < |s| ==> RowMajorLess(s[i], t)
    ensures SortedBefore(Insert(t, s, key), key)
  {
    if s != [] {
      assert s[0] in s;
      if At(key, s[0]) >= At(key, t) {
        assert Indexes(s[1..], key) && SortedBefore(s[1..], key) by {
          forall i, j | 0 <= i < j < |s[1..]| ensures Before(key, s[1..][i], s[1..][j]) {
            assert s[1..][i] == s[i + 1] && s[1..][j] == s[j + 1];
          }
        }
        InsertSorted(t, s[1..], key);
        var rest := Insert(t, s[1..], key);
        forall e | e in rest ensures Keyed(key, e) && Before(key, s[0], e) {
          assert e in multiset(rest);
          if e != t {
            assert e in multiset(s[1..]);
            var k :| 0 <= k < |s[1..]| && s[1..][k] == e;
            assert s[k + 1] == e;
          }
        }
        ConsSorted(s[0], rest, key);
      } else {
        forall e | e in s ensures Before(key, t, e) {
          var k :| 0 <= k < |s| && s[k] == e;
          if k > 0 { assert Before(key, s[0], s[k]); }
        }
        ConsSorted(t, s, key);
      }
    }
  }

  /** A tile that comes `Before` every tile of a sorted list can head it. */
  lemma ConsSorted(x: Tile, rest: seq<Tile>, key: Grid<real>)
    requires Keyed(key, x) && Indexes(rest, key) && SortedBefore(rest, key)
    requires forall e :: e in rest ==> Before(key, x, e)
    ensures Indexes([x] + rest, key) && SortedBefore([x] + rest, key)
  {
    var r := [x] + rest;
    forall i, j | 0 <= i < j < |r| ensures Before(key, r[i], r[j]) {
      assert r[j] == rest[j - 1] && r[j] in rest;
      if i > 0 { assert r[i] == rest[i - 1]; }
    }
  }

  /** Sorting a list given in row-major order puts it in the order `Before`:
      key descending, ties row-major. With `multiset(r) == multiset(ts)` this
      pins the result down completely. */
  lemma {:induction false} SortDescOrdered(ts: seq<Tile>, key: Grid<real>)
    requires Indexes(ts, key)
    requires RowMajorStrict(ts)
    ensures SortedBefore(SortDesc(ts, key), key)
  {
    if ts != [] {
      var p := ts[..|ts| - 1];
      var t := ts[|ts| - 1];
      assert ts == p + [t];
      SortDescOrdered(p, key);
      var sp := SortDesc(p, key);
      forall i | 0 <= i < |sp| ensures RowMajorLess(sp[i], t) {
        assert sp[i] in multiset(p) by { assert sp[i] in multiset(sp); }
        var k :| 0 <= k < |p| && p[k] == sp[i];
        assert ts[k] == p[k];
      }
      assert Indexes(sp, key) by {
        forall u | u in sp ensures u in p { assert u in multiset(sp); }
      }
      InsertSorted(t, sp, key);
    }
  }
}
