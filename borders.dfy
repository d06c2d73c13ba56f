/** Region merging and border-pair selection of
    archipelago_generator/borders.py over a list of cells: the adjacency
    lists built from a pairwise geometric test, the flood fill that numbers
    connected same-biome regions, and the choice of the cell pairs whose
    shared edge becomes a border line. The geometry itself (bounding boxes,
    `touches`, `intersection` and the line distortion) is abstract. */
module Borders {

  // ---------------------------------------------------------------------
  // Adjacency (borders.py:14-31)
  // ---------------------------------------------------------------------

  /** An adjacency list over `n` cells: one set of neighbour indices per
      cell, every index in range. */
  ghost predicate Adjacency(neighbors: seq<set<nat>>, n: nat) {
    |neighbors| == n && forall u, v: nat :: 0 <= u < n && v in neighbors[u] ==> v < n
  }

  ghost predicate Symmetric(neighbors: seq<set<nat>>) {
    forall u, v: nat :: 0 <= u < |neighbors| && v in neighbors[u] ==> v < |neighbors| && u in neighbors[v]
  }

  ghost predicate Irreflexive(neighbors: seq<set<nat>>) {
    forall u :: 0 <= u < |neighbors| ==> u !in neighbors[u]
  }

  /** The outcome of the geometric test of borders.py:24-28, which is only
      ever asked about a pair `i < j`: `touching(i, j)` stands for "the
      bounding boxes overlap, the cells touch and their intersection is a
      non-empty line". */
  predicate Touch(touching: (nat, nat) -> bool, u: nat, v: nat) {
    (u < v && touching(u, v)) || (v < u && touching(v, u))
  }

  /** `compute_adjacency` (borders.py:14-31): every pair `i < j` is checked
      once and, when it passes, recorded in both directions. */
  method ComputeAdjacency(n: nat, touching: (nat, nat) -> bool) returns (neighbors: seq<set<nat>>)
    ensures Adjacency(neighbors, n)
    ensures forall u: nat, v: nat :: u < n ==> (v in neighbors[u] <==> v < n && Touch(touching, u, v))
    ensures Symmetric(neighbors) && Irreflexive(neighbors)
  {
    neighbors := seq(n, _ => {});
    assert forall u :: 0 <= u < n ==> neighbors[u] == {};
    for i := 0 to n
      invariant |neighbors| == n
      invariant forall u: nat, v: nat :: u < n ==>
        (v in neighbors[u] <==> v < n && (u < i || v < i) && Touch(touching, u, v))
    {
      for j := i + 1 to n
        invariant |neighbors| == n
        invariant forall u: nat, v: nat :: u < n ==>
          (v in neighbors[u] <==> v < n && (u < i || v < i || (u == i && v < j) || (v == i && u < j)) && Touch(touching, u, v))
      {
        if touching(i, j) {
          neighbors := neighbors[i := neighbors[i] + {j}];
          neighbors := neighbors[j := neighbors[j] + {i}];
        }
      }
    }
  }

  // ---------------------------------------------------------------------
  // Region flood fill (borders.py:34-51)
  // ---------------------------------------------------------------------

  /** Every same-biome neighbour of `u` already has a region id, and it is no
      greater than u's. */
  ghost predicate Closed<B>(biomes: seq<B>, neighbors: seq<set<nat>>, r: seq<int>, u: nat)
    requires |r| == |biomes| && Adjacency(neighbors, |biomes|) && u < |biomes|
  {
    forall v :: v in neighbors[u] && biomes[v] == biomes[u] ==> 0 <= r[v] <= r[u]
  }

  /** The numbering the fill produces, `-1` standing for "no region yet":
      region k starts at cell `firsts[k]`, the starts increase with k, every
      numbered cell lies at or after the start of its region and has the
      biome of that start. */
  ghost predicate Numbered<B>(biomes: seq<B>, r: seq<int>, firsts: seq<nat>)
    requires |r| == |biomes|
  {
    && (forall k :: 0 <= k < |firsts| ==> firsts[k] < |r| && r[firsts[k]] == k)
    && (forall k, l :: 0 <= k < l < |firsts| ==> firsts[k] < firsts[l])
    && (forall c :: 0 <= c < |r| ==> -1 <= r[c] < |firsts|)
    && (forall c :: 0 <= c < |r| && r[c] != -1 ==> firsts[r[c]] <= c && biomes[c] == biomes[firsts[r[c]]])
  }

  /** The state of the outer loop of borders.py:39-50 before cell `i`: every
      earlier cell is numbered, every region started before `i`, and every
      numbered cell is closed. */
  ghost predicate Sweeping<B>(biomes: seq<B>, neighbors: seq<set<nat>>, r: seq<int>, i: nat, firsts: seq<nat>) {
    && |r| == |biomes| && Adjacency(neighbors, |biomes|) && i <= |biomes|
    && Numbered(biomes, r, firsts)
    && (forall c :: 0 <= c < i ==> r[c] != -1)
    && (forall k :: 0 <= k < |firsts| ==> firsts[k] < i)
    && (forall c :: 0 <= c < |r| && r[c] != -1 ==> Closed(biomes, neighbors, r, c))
  }

  /** The state of the `while queue` loop of borders.py:44-49 while region
      `|firsts| - 1` grows from cell `i`: the queued cells belong to it, and
      every numbered cell that is neither queued nor held is closed. */
  ghost predicate Flooding<B>(biomes: seq<B>, neighbors: seq<set<nat>>, r: seq<int>, i: nat, firsts: seq<nat>,
                                  queue: seq<nat>, hold: set<nat>) {
    && |r| == |biomes| && Adjacency(neighbors, |biomes|) && i < |biomes|
    && |firsts| >= 1 && firsts[|firsts| - 1] == i
    && Numbered(biomes, r, firsts)
    && (forall c :: 0 <= c < i ==> r[c] != -1)
    && (forall q :: q in queue ==> q < |r| && r[q] == |firsts| - 1)
    && (forall c :: 0 <= c < |r| && r[c] != -1 && c !in queue && c !in hold ==> Closed(biomes, neighbors, r, c))
  }

  /** The cells that have no region yet. */
  ghost function Free(r: seq<int>): set<nat> {
    set c: nat | c < |r| && r[c] == -1
  }

  /** Numbering cell `i`, the lowest cell without a region, starts region
      `|firsts|` with `i` queued. */
  lemma StartFlood<B>(biomes: seq<B>, neighbors: seq<set<nat>>, r: seq<int>, i: nat, firsts: seq<nat>)
    requires Sweeping(biomes, neighbors, r, i, firsts) && i < |r| && r[i] == -1
    ensures Flooding(biomes, neighbors, r[i := |firsts|], i, firsts + [i], [i], {})
  {
    var r', f := r[i := |firsts|], firsts + [i];
    forall c | 0 <= c < |r'| && r'[c] != -1 && c !in [i] ensures Closed(biomes, neighbors, r', c) {
      assert r[c] != -1 && Closed(biomes, neighbors, r, c);
    }
  }

  /** An empty queue ends the region: cell `i` and everything before it are
      numbered. */
  lemma EndFlood<B>(biomes: seq<B>, neighbors: seq<set<nat>>, r: seq<int>, i: nat, firsts: seq<nat>)
    requires Flooding(biomes, neighbors, r, i, firsts, [], {})
    ensures Sweeping(biomes, neighbors, r, i + 1, firsts)
  {
  }

  /** `u` leaves the queue and is held until its neighbours are visited. */
  lemma Pop<B>(biomes: seq<B>, neighbors: seq<set<nat>>, r: seq<int>, i: nat, firsts: seq<nat>, queue: seq<nat>)
    requires Flooding(biomes, neighbors, r, i, firsts, queue, {}) && queue != []
    ensures Flooding(biomes, neighbors, r, i, firsts, queue[..|queue| - 1], {queue[|queue| - 1]})
  {
    var n := |queue| - 1;
    assert queue == queue[..n] + [queue[n]];
    forall q | q in queue[..n] ensures q in queue {
      var k :| 0 <= k < n && queue[..n][k] == q;
      assert queue[k] == q;
    }
  }

  /** Once its neighbours are visited, the held cell is closed. */
  lemma Release<B>(biomes: seq<B>, neighbors: seq<set<nat>>, r: seq<int>, i: nat, firsts: seq<nat>, queue: seq<nat>, u: nat)
    requires Flooding(biomes, neighbors, r, i, firsts, queue, {u}) && u < |r| && Closed(biomes, neighbors, r, u)
    ensures Flooding(biomes, neighbors, r, i, firsts, queue, {})
  {
  }

  /** A chain of cells, each a same-biome neighbour of the one before it:
      the steps the fill of borders.py:44-49 takes. */
  ghost predicate Chain<B>(biomes: seq<B>, neighbors: seq<set<nat>>, p: seq<nat>)
    requires Adjacency(neighbors, |biomes|)
  {
    && |p| >= 1
    && (forall k :: 0 <= k < |p| ==> p[k] < |biomes|)
    && forall k :: 1 <= k < |p| ==> p[k] in neighbors[p[k - 1]] && biomes[p[k]] == biomes[p[k - 1]]
  }

  /** A chain leads from `a` to `b`. */
  ghost predicate Reach<B>(biomes: seq<B>, neighbors: seq<set<nat>>, a: nat, b: nat)
    requires Adjacency(neighbors, |biomes|)
  {
    exists p :: Chain(biomes, neighbors, p) && p[0] == a && p[|p| - 1] == b
  }

  /** A chain leads from `a` to `b` through cells that have no region in `r`. */
  ghost predicate FreeReach<B>(biomes: seq<B>, neighbors: seq<set<nat>>, r: seq<int>, a: nat, b: nat)
    requires Adjacency(neighbors, |biomes|) && |r| == |biomes|
  {
    exists p :: Chain(biomes, neighbors, p) && p[0] == a && p[|p| - 1] == b && forall k :: 0 <= k < |p| ==> r[p[k]] == -1
  }

  /** A free cell reaches itself. */
  lemma FreeStart<B>(biomes: seq<B>, neighbors: seq<set<nat>>, r: seq<int>, a: nat)
    requires Adjacency(neighbors, |biomes|) && |r| == |biomes| && a < |r| && r[a] == -1
    ensures FreeReach(biomes, neighbors, r, a, a)
  {
    assert Chain(biomes, neighbors, [a]);
  }

  /** A free chain goes on to a free same-biome neighbour of its end. */
  lemma ExtendFree<B>(biomes: seq<B>, neighbors: seq<set<nat>>, r: seq<int>, a: nat, u: nat, v: nat)
    requires Adjacency(neighbors, |biomes|) && |r| == |biomes|
    requires FreeReach(biomes, neighbors, r, a, u) && u < |biomes|
    requires v in neighbors[u] && biomes[v] == biomes[u] && r[v] == -1
    ensures FreeReach(biomes, neighbors, r, a, v)
  {
    var p :| Chain(biomes, neighbors, p) && p[0] == a && p[|p| - 1] == u && forall k :: 0 <= k < |p| ==> r[p[k]] == -1;
    var q := p + [v];
    assert Chain(biomes, neighbors, q) by {
      forall k | 1 <= k < |q| ensures q[k] in neighbors[q[k - 1]] && biomes[q[k]] == biomes[q[k - 1]] {
        if k < |p| {
          assert q[k] == p[k] && q[k - 1] == p[k - 1];
        }
      }
    }
    assert forall k :: 0 <= k < |q| ==> r[q[k]] == -1;
  }

  /** Along a chain of cells that had no region before a fill with id `cur`,
      closedness carries `cur` from the start of the chain to its k-th cell. */
  lemma {:induction false} ChainFilled<B>(biomes: seq<B>, neighbors: seq<set<nat>>, r0: seq<int>, r: seq<int>,
                                          p: seq<nat>, cur: int, k: nat)
    requires Adjacency(neighbors, |biomes|) && |r0| == |biomes| && |r| == |biomes| && cur >= 0
    requires Chain(biomes, neighbors, p) && k < |p| && r[p[0]] == cur
    requires forall j :: 0 <= j < |p| ==> r0[p[j]] == -1
    requires forall c :: 0 <= c < |r| ==> r[c] == r0[c] || (r0[c] == -1 && r[c] == cur)
    requires forall c :: 0 <= c < |r| && r[c] != -1 ==> Closed(biomes, neighbors, r, c)
    ensures r[p[k]] == cur
  {
    if k > 0 {
      ChainFilled(biomes, neighbors, r0, r, p, cur, k - 1);
      assert Closed(biomes, neighbors, r, p[k - 1]);
    }
  }

  /** At the end of a fill from `i` with id `cur`, the cells with `cur` are
      exactly those a chain of cells free before the fill reaches from `i`. */
  lemma FloodExact<B>(biomes: seq<B>, neighbors: seq<set<nat>>, r0: seq<int>, r: seq<int>, i: nat, cur: int)
    requires Adjacency(neighbors, |biomes|) && |r0| == |biomes| && |r| == |biomes| && i < |r| && cur >= 0
    requires r[i] == cur
    requires forall c :: 0 <= c < |r| ==> r[c] == r0[c] || (r0[c] == -1 && r[c] == cur)
    requires forall c :: 0 <= c < |r| && r[c] == cur && r0[c] != cur ==> FreeReach(biomes, neighbors, r0, i, c)
    requires forall c :: 0 <= c < |r0| ==> r0[c] != cur
    requires forall c :: 0 <= c < |r| && r[c] != -1 ==> Closed(biomes, neighbors, r, c)
    ensures forall c :: 0 <= c < |r| ==> r[c] == (if FreeReach(biomes, neighbors, r0, i, c) then cur else r0[c])
  {
    forall c | 0 <= c < |r| ensures r[c] == (if FreeReach(biomes, neighbors, r0, i, c) then cur else r0[c]) {
      if FreeReach(biomes, neighbors, r0, i, c) {
        var p :| Chain(biomes, neighbors, p) && p[0] == i && p[|p| - 1] == c && forall k :: 0 <= k < |p| ==> r0[p[k]] == -1;
        ChainFilled(biomes, neighbors, r0, r, p, cur, |p| - 1);
      }
    }
  }

  /** Every numbered cell is reached from the first cell of its region. */
  ghost predicate Rooted<B>(biomes: seq<B>, neighbors: seq<set<nat>>, r: seq<int>, firsts: seq<nat>)
    requires Adjacency(neighbors, |biomes|)
  {
    forall c :: 0 <= c < |r| && 0 <= r[c] < |firsts| ==> Reach(biomes, neighbors, firsts[r[c]], c)
  }

  /** A fill from `i` that gives `|firsts|` to the cells free chains reach
      from `i` keeps `Rooted`, with `i` the first cell of the new region. */
  lemma RootedStep<B>(biomes: seq<B>, neighbors: seq<set<nat>>, r0: seq<int>, r: seq<int>, i: nat, firsts: seq<nat>)
    requires Adjacency(neighbors, |biomes|) && |r0| == |biomes| && |r| == |biomes|
    requires Rooted(biomes, neighbors, r0, firsts)
    requires forall c :: 0 <= c < |r| ==> r[c] == (if FreeReach(biomes, neighbors, r0, i, c) then |firsts| else r0[c])
    requires forall c :: 0 <= c < |r0| ==> r0[c] < |firsts|
    ensures Rooted(biomes, neighbors, r, firsts + [i])
  {
    var f := firsts + [i];
    forall c | 0 <= c < |r| && 0 <= r[c] < |f| ensures Reach(biomes, neighbors, f[r[c]], c) {
      if FreeReach(biomes, neighbors, r0, i, c) {
        var p :| Chain(biomes, neighbors, p) && p[0] == i && p[|p| - 1] == c && forall k :: 0 <= k < |p| ==> r0[p[k]] == -1;
      } else {
        assert f[r[c]] == firsts[r0[c]];
      }
    }
  }

  /** `unite_regions` (borders.py:34-51). The ghost result `firsts` lists the
      lowest cell of each region; regions are numbered 0, 1, 2, ... in the
      order of those cells, and a chain leads from the first cell of each
      region to every cell of it. */
  method UniteRegions<B(==)>(biomes: seq<B>, neighbors: seq<set<nat>>) returns (regions: array<int>, ghost firsts: seq<nat>)
    requires Adjacency(neighbors, |biomes|)
    ensures regions.Length == |biomes|
    ensures forall c :: 0 <= c < regions.Length ==> 0 <= regions[c] < |firsts|
    ensures Numbered(biomes, regions[..], firsts)
    ensures forall u: nat, v: nat :: u < |biomes| && v in neighbors[u] && biomes[v] == biomes[u] ==> regions[v] <= regions[u]
    ensures forall c :: 0 <= c < regions.Length ==> Reach(biomes, neighbors, firsts[regions[c]], c)
  {
    var n := |biomes|;
    regions := new int[n](_ => -1);
    firsts := [];
    var cur := 0;
    for i := 0 to n
      invariant cur == |firsts|
      invariant Sweeping(biomes, neighbors, regions[..], i, firsts)
      invariant Rooted(biomes, neighbors, regions[..], firsts)
    {
      if regions[i] == -1 {
        ghost var r0 := regions[..];
        Flood(biomes, neighbors, regions, i, cur, firsts);
        RootedStep(biomes, neighbors, r0, regions[..], i, firsts);
        firsts := firsts + [i];
        cur := cur + 1;
      }
    }
    forall u | 0 <= u < n ensures Closed(biomes, neighbors, regions[..], u) {
      assert regions[..][u] != -1;
    }
    forall c | 0 <= c < n ensures Reach(biomes, neighbors, firsts[regions[c]], c) {
      assert regions[..][c] == regions[c];
    }
  }

  /** The state of the `while queue` loop of borders.py:44-49 in the fill
      from `i`: the flood state, and since `r0` only cells without a region
      took the current id, each reached from `i` by a chain of such cells. */
  ghost predicate Filling<B>(biomes: seq<B>, neighbors: seq<set<nat>>, r0: seq<int>, r: seq<int>, i: nat,
                             firsts: seq<nat>, queue: seq<nat>)
    requires Adjacency(neighbors, |biomes|) && |r0| == |biomes|
  {
    && Flooding(biomes, neighbors, r, i, firsts, queue, {})
    && (forall c :: 0 <= c < |r0| ==> r[c] == r0[c] || (r0[c] == -1 && r[c] == |firsts| - 1))
    && (forall c :: 0 <= c < |r0| && r[c] == |firsts| - 1 ==> FreeReach(biomes, neighbors, r0, i, c))
  }

  /** Numbering cell `i` starts the fill. */
  lemma FillStart<B>(biomes: seq<B>, neighbors: seq<set<nat>>, r0: seq<int>, i: nat, firsts: seq<nat>)
    requires Sweeping(biomes, neighbors, r0, i, firsts) && i < |r0| && r0[i] == -1
    ensures Filling(biomes, neighbors, r0, r0[i := |firsts|], i, firsts + [i], [i])
  {
    StartFlood(biomes, neighbors, r0, i, firsts);
    FreeStart(biomes, neighbors, r0, i);
  }

  /** The popped cell has the current id and is held while its neighbours
      are visited. */
  lemma FillPop<B>(biomes: seq<B>, neighbors: seq<set<nat>>, r0: seq<int>, r: seq<int>, i: nat,
                   firsts: seq<nat>, queue: seq<nat>)
    requires Adjacency(neighbors, |biomes|) && |r0| == |biomes|
    requires Filling(biomes, neighbors, r0, r, i, firsts, queue) && queue != []
    ensures var u := queue[|queue| - 1];
      Flooding(biomes, neighbors, r, i, firsts, queue[..|queue| - 1], {u}) && u < |r| && r[u] == |firsts| - 1
  {
    Pop(biomes, neighbors, r, i, firsts, queue);
    assert queue[|queue| - 1] in queue;
  }

  /** Visiting the popped cell `u` keeps `Filling`: the cells it numbers had
      no region and are same-biome neighbours of `u`, which `i` reaches. */
  lemma FillStep<B>(biomes: seq<B>, neighbors: seq<set<nat>>, r0: seq<int>, r: seq<int>, r': seq<int>, i: nat,
                    firsts: seq<nat>, queue: seq<nat>, u: nat)
    requires Adjacency(neighbors, |biomes|) && |r0| == |biomes| && |r| == |biomes| && u < |biomes|
    requires |firsts| >= 1 && r[u] == |firsts| - 1
    requires forall c :: 0 <= c < |r0| ==> r[c] == r0[c] || (r0[c] == -1 && r[c] == |firsts| - 1)
    requires forall c :: 0 <= c < |r0| && r[c] == |firsts| - 1 ==> FreeReach(biomes, neighbors, r0, i, c)
    requires Flooding(biomes, neighbors, r', i, firsts, queue, {})
    requires forall c :: 0 <= c < |r'| ==> r'[c] == (if c in Claimable(biomes, neighbors, r, u) then |firsts| - 1 else r[c])
    ensures Filling(biomes, neighbors, r0, r', i, firsts, queue)
  {
    forall c | 0 <= c < |r0| && r'[c] == |firsts| - 1 ensures FreeReach(biomes, neighbors, r0, i, c) {
      if c in Claimable(biomes, neighbors, r, u) {
        ExtendFree(biomes, neighbors, r0, i, u, c);
      }
    }
  }

  /** An empty queue ends the fill: the flood gave the new id to exactly the
      cells that a chain of cells without a region reaches from `i`. */
  lemma FillDone<B>(biomes: seq<B>, neighbors: seq<set<nat>>, r0: seq<int>, r: seq<int>, i: nat, firsts: seq<nat>)
    requires Sweeping(biomes, neighbors, r0, i, firsts) && i < |r0| && r0[i] == -1
    requires Filling(biomes, neighbors, r0, r, i, firsts + [i], []) && r[i] == |firsts|
    ensures Sweeping(biomes, neighbors, r, i + 1, firsts + [i])
    ensures forall c :: 0 <= c < |r| ==> r[c] == (if FreeReach(biomes, neighbors, r0, i, c) then |firsts| else r0[c])
  {
    EndFlood(biomes, neighbors, r, i, firsts + [i]);
    FloodExact(biomes, neighbors, r0, r, i, |firsts|);
  }

  /** One pass of borders.py:42-50: number cell `i` with the next region id
      `cur` and spread it over the cells that a chain of cells without a
      region reaches from `i`; every other cell keeps its id. */
  method Flood<B(==)>(biomes: seq<B>, neighbors: seq<set<nat>>, regions: array<int>, i: nat, cur: int, ghost firsts: seq<nat>)
    modifies regions
    requires Sweeping(biomes, neighbors, regions[..], i, firsts) && i < |biomes| && regions[i] == -1
    requires cur == |firsts|
    ensures Sweeping(biomes, neighbors, regions[..], i + 1, firsts + [i])
    ensures forall c :: 0 <= c < regions.Length ==>
      regions[c] == (if FreeReach(biomes, neighbors, old(regions[..]), i, c) then cur else old(regions[c]))
  {
    ghost var r0 := regions[..];
    ghost var f := firsts + [i];
    FillStart(biomes, neighbors, r0, i, firsts);
    regions[i] := cur;
    assert regions[..] == r0[i := cur];
    Fill(biomes, neighbors, regions, i, cur, f, [i], r0);
    FillDone(biomes, neighbors, r0, regions[..], i, firsts);
  }

  /** The `while queue` loop of borders.py:44-49: it runs until the queue
      is empty, keeping the fill state. */
  method Fill<B(==)>(biomes: seq<B>, neighbors: seq<set<nat>>, regions: array<int>, i: nat, cur: int,
                     ghost firsts: seq<nat>, queue: seq<nat>, ghost r0: seq<int>)
    modifies regions
    requires Adjacency(neighbors, |biomes|) && |r0| == |biomes| && cur == |firsts| - 1
    requires Filling(biomes, neighbors, r0, regions[..], i, firsts, queue)
    ensures Filling(biomes, neighbors, r0, regions[..], i, firsts, [])
  {
    var q := queue;
    while q != []
      invariant Filling(biomes, neighbors, r0, regions[..], i, firsts, q)
      decreases Free(regions[..]), |q|
    {
      q := FloodStep(biomes, neighbors, regions, i, cur, firsts, q, r0);
    }
  }

  /** One turn of the `while queue` loop of borders.py:44-49: pop the last
      queued cell and visit its neighbours. */
  method FloodStep<B(==)>(biomes: seq<B>, neighbors: seq<set<nat>>, regions: array<int>, i: nat, cur: int,
                          ghost firsts: seq<nat>, queue: seq<nat>, ghost r0: seq<int>) returns (queue': seq<nat>)
    modifies regions
    requires Adjacency(neighbors, |biomes|) && |r0| == |biomes| && cur == |firsts| - 1
    requires Filling(biomes, neighbors, r0, regions[..], i, firsts, queue) && queue != []
    ensures Filling(biomes, neighbors, r0, regions[..], i, firsts, queue')
    ensures Free(regions[..]) < old(Free(regions[..])) || (Free(regions[..]) == old(Free(regions[..])) && |queue'| < |queue|)
  {
    FillPop(biomes, neighbors, r0, regions[..], i, firsts, queue);
    var u := queue[|queue| - 1];
    queue' := queue[..|queue| - 1];
    ghost var before := regions[..];
    queue' := Visit(biomes, neighbors, regions, i, cur, firsts, queue', u);
    FillStep(biomes, neighbors, r0, before, regions[..], i, firsts, queue', u);
  }

  /** The neighbours of `u` that borders.py:47-48 numbers: those of u's
      biome that have no region in `r`. */
  ghost function Claimable<B>(biomes: seq<B>, neighbors: seq<set<nat>>, r: seq<int>, u: nat): set<nat>
    requires Adjacency(neighbors, |biomes|) && |r| == |biomes| && u < |biomes|
  {
    set v | v in neighbors[u] && v < |r| && r[v] == -1 && biomes[v] == biomes[u]
  }

  /** The state of the loop of borders.py:46-49 once the neighbours of `u`
      outside `rest` are visited: the claimable ones among them have the
      id `cur` and were pushed after `queue`, once each, and no other cell
      changed since `r0`. */
  ghost predicate Visiting<B>(biomes: seq<B>, neighbors: seq<set<nat>>, r0: seq<int>, r: seq<int>, cur: int,
                              queue: seq<nat>, queue': seq<nat>, u: nat, rest: set<nat>)
    requires Adjacency(neighbors, |biomes|) && |r0| == |biomes| && u < |biomes|
  {
    && |r| == |r0| && rest <= neighbors[u]
    && (forall c :: 0 <= c < |r| ==> r[c] == (if c in Claimable(biomes, neighbors, r0, u) && c !in rest then cur else r0[c]))
    && |queue| <= |queue'| && queue'[..|queue|] == queue
    && multiset(queue'[|queue|..]) == multiset(Claimable(biomes, neighbors, r0, u) - rest)
  }

  /** Visiting the neighbour `v`: it takes the id `cur` and is pushed
      exactly when it has no region and u's biome. */
  lemma VisitNext<B>(biomes: seq<B>, neighbors: seq<set<nat>>, r0: seq<int>, r: seq<int>, cur: int,
                     queue: seq<nat>, queue': seq<nat>, u: nat, rest: set<nat>, v: nat)
    requires Adjacency(neighbors, |biomes|) && |r0| == |biomes| && u < |biomes| && cur != -1
    requires Visiting(biomes, neighbors, r0, r, cur, queue, queue', u, rest) && v in rest
    ensures v < |r|
    ensures var claimed := r[v] == -1 && biomes[v] == biomes[u];
      Visiting(biomes, neighbors, r0, if claimed then r[v := cur] else r, cur, queue,
               if claimed then queue' + [v] else queue', u, rest - {v})
  {
    var claim := Claimable(biomes, neighbors, r0, u);
    if r[v] == -1 && biomes[v] == biomes[u] {
      assert (queue' + [v])[|queue|..] == queue'[|queue|..] + [v];
      assert claim - (rest - {v}) == (claim - rest) + {v};
    } else {
      assert claim - (rest - {v}) == claim - rest;
    }
  }

  /** After the loop the flood state holds again with `u` closed and the new
      cells queued, and the free cells shrank unless nothing was pushed. */
  lemma VisitDone<B>(biomes: seq<B>, neighbors: seq<set<nat>>, r0: seq<int>, r: seq<int>, i: nat, firsts: seq<nat>,
                     queue: seq<nat>, queue': seq<nat>, u: nat)
    requires Flooding(biomes, neighbors, r0, i, firsts, queue, {u}) && u < |r0| && r0[u] == |firsts| - 1
    requires Visiting(biomes, neighbors, r0, r, |firsts| - 1, queue, queue', u, {})
    ensures Flooding(biomes, neighbors, r, i, firsts, queue', {})
    ensures multiset(queue'[|queue|..]) == multiset(Claimable(biomes, neighbors, r0, u))
    ensures Free(r) < Free(r0) || (Free(r) == Free(r0) && queue' == queue)
  {
    var claim := Claimable(biomes, neighbors, r0, u);
    assert claim - {} == claim;
    Pushed(queue, queue', claim);
    VisitNumbered(biomes, neighbors, r0, r, i, firsts, queue, queue', u);
    VisitClosed(biomes, neighbors, r0, r, i, firsts, queue, queue', u);
    if claim == {} {
      assert |queue'[|queue|..]| == |multiset(queue'[|queue|..])| == 0;
      assert queue' == queue'[..|queue|];
      assert r == r0;
    } else {
      var v :| v in claim;
      assert v in Free(r0) && v !in Free(r);
      assert Free(r) <= Free(r0);
    }
  }

  /** A queue extended by the cells of `claim` holds exactly the old queue's
      cells and those of `claim`. */
  lemma Pushed(queue: seq<nat>, queue': seq<nat>, claim: set<nat>)
    requires |queue| <= |queue'| && queue'[..|queue|] == queue
    requires multiset(queue'[|queue|..]) == multiset(claim)
    ensures forall q :: q in queue' <==> q in queue || q in claim
  {
    forall q ensures q in queue' <==> q in queue || q in claim {
      if q in queue' {
        var k :| 0 <= k < |queue'| && queue'[k] == q;
        if k < |queue| {
          assert queue[k] == q;
        } else {
          assert queue'[|queue|..][k - |queue|] == q;
          assert q in multiset(claim);
        }
      }
      if q in queue {
        var k :| 0 <= k < |queue| && queue[k] == q;
        assert queue'[k] == q;
      }
      if q in claim {
        assert q in multiset(queue'[|queue|..]);
        var k :| 0 <= k < |queue'[|queue|..]| && queue'[|queue|..][k] == q;
        assert queue'[|queue| + k] == q;
      }
    }
  }

  /** The claimed cells keep the numbering: they lie after `i` and have the
      biome of `u`, the region's biome. The queue holds region cells. */
  lemma VisitNumbered<B>(biomes: seq<B>, neighbors: seq<set<nat>>, r0: seq<int>, r: seq<int>, i: nat, firsts: seq<nat>,
                         queue: seq<nat>, queue': seq<nat>, u: nat)
    requires Flooding(biomes, neighbors, r0, i, firsts, queue, {u}) && u < |r0| && r0[u] == |firsts| - 1
    requires Visiting(biomes, neighbors, r0, r, |firsts| - 1, queue, queue', u, {})
    requires forall q :: q in queue' <==> q in queue || q in Claimable(biomes, neighbors, r0, u)
    ensures Numbered(biomes, r, firsts) && forall c :: 0 <= c < i ==> r[c] != -1
    ensures forall q :: q in queue' ==> q < |r| && r[q] == |firsts| - 1
  {
    assert Claimable(biomes, neighbors, r0, u) - {} == Claimable(biomes, neighbors, r0, u);
  }

  /** Every numbered cell outside the queue is closed after the loop: `u`
      because its same-biome neighbours are now numbered, the others as
      before. */
  lemma VisitClosed<B>(biomes: seq<B>, neighbors: seq<set<nat>>, r0: seq<int>, r: seq<int>, i: nat, firsts: seq<nat>,
                       queue: seq<nat>, queue': seq<nat>, u: nat)
    requires Flooding(biomes, neighbors, r0, i, firsts, queue, {u}) && u < |r0| && r0[u] == |firsts| - 1
    requires Visiting(biomes, neighbors, r0, r, |firsts| - 1, queue, queue', u, {})
    requires forall q :: q in queue' <==> q in queue || q in Claimable(biomes, neighbors, r0, u)
    ensures forall c :: 0 <= c < |r| && r[c] != -1 && c !in queue' ==> Closed(biomes, neighbors, r, c)
  {
    var claim := Claimable(biomes, neighbors, r0, u);
    assert claim - {} == claim;
    forall c | 0 <= c < |r| && r[c] != -1 && c !in queue' && c != u ensures Closed(biomes, neighbors, r, c) {
      assert Closed(biomes, neighbors, r0, c);
    }
  }

  /** The `for v in neighbors[u]` loop of borders.py:46-49, in an arbitrary
      order: every same-biome neighbour of `u` without a region gets `cur`
      and is pushed, once each, after the cells already queued; no other
      cell changes. */
  method Visit<B(==)>(biomes: seq<B>, neighbors: seq<set<nat>>, regions: array<int>, i: nat, cur: int, ghost firsts: seq<nat>,
                      queue: seq<nat>, u: nat) returns (queue': seq<nat>)
    modifies regions
    requires Flooding(biomes, neighbors, regions[..], i, firsts, queue, {u})
    requires cur == |firsts| - 1 && u < regions.Length && regions[u] == cur
    ensures Flooding(biomes, neighbors, regions[..], i, firsts, queue', {})
    ensures forall c :: 0 <= c < regions.Length ==>
      regions[c] == (if c in Claimable(biomes, neighbors, old(regions[..]), u) then cur else old(regions[c]))
    ensures |queue| <= |queue'| && queue'[..|queue|] == queue
    ensures multiset(queue'[|queue|..]) == multiset(Claimable(biomes, neighbors, old(regions[..]), u))
    ensures Free(regions[..]) < old(Free(regions[..])) || (Free(regions[..]) == old(Free(regions[..])) && queue' == queue)
  {
    ghost var r0 := regions[..];
    assert Claimable(biomes, neighbors, r0, u) - neighbors[u] == {};
    queue' := VisitAll(biomes, neighbors, regions, cur, queue, u, r0);
    VisitDone(biomes, neighbors, r0, regions[..], i, firsts, queue, queue', u);
  }

  /** The loop `for v in neighbors[u]` of borders.py:46-49, run over the
      whole set in an arbitrary order. */
  method VisitAll<B(==)>(biomes: seq<B>, neighbors: seq<set<nat>>, regions: array<int>, cur: int,
                         queue: seq<nat>, u: nat, ghost r0: seq<int>) returns (queue': seq<nat>)
    modifies regions
    requires Adjacency(neighbors, |biomes|) && |r0| == |biomes| && u < |biomes| && cur != -1
    requires Visiting(biomes, neighbors, r0, regions[..], cur, queue, queue, u, neighbors[u])
    ensures Visiting(biomes, neighbors, r0, regions[..], cur, queue, queue', u, {})
  {
    queue' := queue;
    var rest := neighbors[u];
    while rest != {}
      invariant Visiting(biomes, neighbors, r0, regions[..], cur, queue, queue', u, rest)
      decreases |rest|
    {
      var v :| v in rest;
      queue' := VisitOne(biomes, neighbors, regions, cur, queue, queue', u, rest, v, r0);
      rest := rest - {v};
    }
  }

  /** One turn of the loop of borders.py:46-49: number and push the
      neighbour `v` when it has no region and u's biome. */
  method VisitOne<B(==)>(biomes: seq<B>, neighbors: seq<set<nat>>, regions: array<int>, cur: int,
                         queue: seq<nat>, queue': seq<nat>, u: nat, rest: set<nat>, v: nat, ghost r0: seq<int>)
    returns (queue'': seq<nat>)
    modifies regions
    requires Adjacency(neighbors, |biomes|) && |r0| == |biomes| && u < |biomes| && cur != -1
    requires Visiting(biomes, neighbors, r0, regions[..], cur, queue, queue', u, rest) && v in rest
    ensures Visiting(biomes, neighbors, r0, regions[..], cur, queue, queue'', u, rest - {v})
  {
    VisitNext(biomes, neighbors, r0, regions[..], cur, queue, queue', u, rest, v);
    queue'' := queue';
    if regions[v] == -1 && biomes[v] == biomes[u] {
      ghost var before := regions[..];
      regions[v] := cur;
      assert regions[..] == before[v := cur];
      queue'' := queue' + [v];
    }
  }

  /** The ids of a list of region numbers. */
  ghost function Ids(s: seq<int>): set<int> {
    set k | k in s
  }

  /** The ids 0, 1, ..., m - 1. */
  function Upto(m: nat): (s: set<int>)
    ensures forall k :: k in s <==> 0 <= k < m
    ensures |s| == m
  {
    if m == 0 then {} else Upto(m - 1) + {m - 1}
  }

  /** Once every cell is numbered, cell `c` is the first of its region
      exactly when it is the start recorded for it, and then its id is the
      number of distinct ids met before it: ids are handed out 0, 1, 2, ...
      in the order of each region's lowest cell. */
  lemma FirstOfRegion<B>(biomes: seq<B>, r: seq<int>, firsts: seq<nat>, c: nat)
    requires |r| == |biomes| && Numbered(biomes, r, firsts) && c < |r|
    requires forall d :: 0 <= d < |r| ==> r[d] != -1
    ensures (forall j :: 0 <= j < c ==> r[j] != r[c]) <==> c == firsts[r[c]]
    ensures c == firsts[r[c]] ==> Ids(r[..c]) == Upto(r[c])
  {
    var k := r[c];
    if c != firsts[k] {
      assert firsts[k] < c && r[firsts[k]] == k;
    }
    if c == firsts[k] {
      forall j | 0 <= j < c ensures 0 <= r[j] < k {
        assert firsts[r[j]] <= j;
      }
      assert Ids(r[..c]) == Upto(k) by {
        forall l: int | 0 <= l < k ensures l in r[..c] {
          assert firsts[l] < firsts[k] && r[firsts[l]] == l;
          assert r[..c][firsts[l]] == l;
        }
      }
    }
  }

  /** Cells with the same region id have the same biome; so two cells of
      different biomes, such as two adjacent ones, get different ids. */
  lemma SameRegionSameBiome<B>(biomes: seq<B>, r: seq<int>, firsts: seq<nat>, a: nat, b: nat)
    requires |r| == |biomes| && Numbered(biomes, r, firsts) && a < |r| && b < |r|
    requires r[a] != -1 && r[a] == r[b]
    ensures biomes[a] == biomes[b]
  {
  }

  /** With symmetric adjacency, two adjacent cells of the same biome get the
      same region id. */
  lemma NeighboursUnite<B>(biomes: seq<B>, neighbors: seq<set<nat>>, r: seq<int>, u: nat, v: nat)
    requires Adjacency(neighbors, |biomes|) && Symmetric(neighbors) && |r| == |biomes|
    requires forall a, b :: 0 <= a < |biomes| && b in neighbors[a] && biomes[b] == biomes[a] ==> r[b] <= r[a]
    requires u < |biomes| && v in neighbors[u] && biomes[v] == biomes[u]
    ensures r[u] == r[v]
  {
    assert u in neighbors[v];
  }

  /** Along a chain, under symmetric adjacency, a numbering in which no
      same-biome neighbour has a higher id keeps one id. */
  lemma {:induction false} ChainSameRegion<B>(biomes: seq<B>, neighbors: seq<set<nat>>, r: seq<int>, p: seq<nat>, k: nat)
    requires Adjacency(neighbors, |biomes|) && Symmetric(neighbors) && |r| == |biomes|
    requires forall u: nat, v: nat :: u < |biomes| && v in neighbors[u] && biomes[v] == biomes[u] ==> r[v] <= r[u]
    requires Chain(biomes, neighbors, p) && k < |p|
    ensures r[p[k]] == r[p[0]]
  {
    if k > 0 {
      ChainSameRegion(biomes, neighbors, r, p, k - 1);
      assert p[k] in neighbors[p[k - 1]] && p[k - 1] in neighbors[p[k]];
    }
  }

  /** Under symmetric adjacency a chain can be walked backwards. */
  lemma ReachBack<B>(biomes: seq<B>, neighbors: seq<set<nat>>, a: nat, b: nat)
    requires Adjacency(neighbors, |biomes|) && Symmetric(neighbors) && Reach(biomes, neighbors, a, b)
    ensures Reach(biomes, neighbors, b, a)
  {
    var p :| Chain(biomes, neighbors, p) && p[0] == a && p[|p| - 1] == b;
    var n := |p|;
    var q := seq(n, k requires 0 <= k < n => p[n - 1 - k]);
    forall k | 1 <= k < n ensures q[k] in neighbors[q[k - 1]] && biomes[q[k]] == biomes[q[k - 1]] {
      assert q[k] == p[n - 1 - k] && q[k - 1] == p[n - 1 - k + 1];
    }
    assert Chain(biomes, neighbors, q);
  }

  /** Chains from `a` to `b` and from `b` to `c` join into one from `a` to `c`. */
  lemma ReachJoin<B>(biomes: seq<B>, neighbors: seq<set<nat>>, a: nat, b: nat, c: nat)
    requires Adjacency(neighbors, |biomes|)
    requires Reach(biomes, neighbors, a, b) && Reach(biomes, neighbors, b, c)
    ensures Reach(biomes, neighbors, a, c)
  {
    var p :| Chain(biomes, neighbors, p) && p[0] == a && p[|p| - 1] == b;
    var q :| Chain(biomes, neighbors, q) && q[0] == b && q[|q| - 1] == c;
    var s := p + q[1..];
    forall k | 1 <= k < |s| ensures s[k] in neighbors[s[k - 1]] && biomes[s[k]] == biomes[s[k - 1]] {
      if k < |p| {
        assert s[k] == p[k] && s[k - 1] == p[k - 1];
      } else {
        assert s[k] == q[k - |p| + 1] && s[k - 1] == q[k - |p|];
      }
    }
    assert Chain(biomes, neighbors, s);
  }

  /** Under symmetric adjacency, as `compute_adjacency` builds it, the
      numbering `unite_regions` returns gives two cells the same id exactly
      when a chain of same-biome neighbours joins them: the regions are the
      same-biome components. */
  lemma RegionsAreComponents<B>(biomes: seq<B>, neighbors: seq<set<nat>>, r: seq<int>, firsts: seq<nat>, a: nat, b: nat)
    requires Adjacency(neighbors, |biomes|) && Symmetric(neighbors) && |r| == |biomes|
    requires forall c :: 0 <= c < |r| ==> 0 <= r[c] < |firsts|
    requires forall u: nat, v: nat :: u < |biomes| && v in neighbors[u] && biomes[v] == biomes[u] ==> r[v] <= r[u]
    requires forall c :: 0 <= c < |r| ==> Reach(biomes, neighbors, firsts[r[c]], c)
    requires a < |r| && b < |r|
    ensures r[a] == r[b] <==> Reach(biomes, neighbors, a, b)
  {
    if Reach(biomes, neighbors, a, b) {
      var p :| Chain(biomes, neighbors, p) && p[0] == a && p[|p| - 1] == b;
      ChainSameRegion(biomes, neighbors, r, p, |p| - 1);
    }
    if r[a] == r[b] {
      var f := firsts[r[a]];
      ReachBack(biomes, neighbors, f, a);
      ReachJoin(biomes, neighbors, a, f, b);
    }
  }

  // ---------------------------------------------------------------------
  // Border pairs (borders.py:75-101)
  // ---------------------------------------------------------------------

  /** The pairs `compute_borders` draws a border for: `i < j`, `j` listed as
      a neighbour of `i`, and the biomes differ. */
  ghost predicate BorderPair<B>(biomes: seq<B>, neighbors: seq<set<nat>>, p: (nat, nat))
    requires Adjacency(neighbors, |biomes|)
  {
    p.0 < |biomes| && p.1 in neighbors[p.0] && p.0 < p.1 && biomes[p.0] != biomes[p.1]
  }

  /** The lines of a list of pairs: `pieces(i, j)` stands for the distorted
      pieces of the intersection of cells i and j, none when it is empty or
      not a line, one for a LineString, one per part of a MultiLineString. */
  ghost function Pieces<L>(pairs: seq<(nat, nat)>, pieces: (nat, nat) -> seq<L>): seq<L> {
    if pairs == [] then [] else Pieces(pairs[..|pairs| - 1], pieces) + pieces(pairs[|pairs| - 1].0, pairs[|pairs| - 1].1)
  }

  lemma PiecesSnoc<L>(pairs: seq<(nat, nat)>, p: (nat, nat), pieces: (nat, nat) -> seq<L>)
    ensures Pieces(pairs + [p], pieces) == Pieces(pairs, pieces) + pieces(p.0, p.1)
  {
    assert (pairs + [p])[..|pairs|] == pairs;
  }

  /** Pairs listed by ascending first cell, none twice. */
  ghost predicate Ascending(pairs: seq<(nat, nat)>) {
    forall a, b :: 0 <= a < b < |pairs| ==> pairs[a].0 <= pairs[b].0 && pairs[a] != pairs[b]
  }

  /** `compute_borders` (borders.py:75-101). The set iteration of line 88 is
      an arbitrary order. The ghost result `pairs` lists the pairs whose
      pieces make up `lines`: exactly the border pairs, each once, by
      ascending first cell. */
  method ComputeBorders<B(==), L>(biomes: seq<B>, neighbors: seq<set<nat>>, pieces: (nat, nat) -> seq<L>)
    returns (lines: seq<L>, ghost pairs: seq<(nat, nat)>)
    requires Adjacency(neighbors, |biomes|)
    ensures lines == Pieces(pairs, pieces)
    ensures forall p: (nat, nat) :: p in pairs <==> BorderPair(biomes, neighbors, p)
    ensures Ascending(pairs)
  {
    lines, pairs := [], [];
    for i := 0 to |biomes|
      invariant lines == Pieces(pairs, pieces)
      invariant forall p: (nat, nat) :: p in pairs <==> BorderPair(biomes, neighbors, p) && p.0 < i
      invariant Ascending(pairs)
    {
      lines, pairs := BordersOf(biomes, neighbors, pieces, i, lines, pairs);
    }
  }

  /** The `for j in neigh` loop of borders.py:88-100 for cell `i`. */
  method BordersOf<B(==), L>(biomes: seq<B>, neighbors: seq<set<nat>>, pieces: (nat, nat) -> seq<L>, i: nat,
                             lines: seq<L>, ghost pairs: seq<(nat, nat)>)
    returns (lines': seq<L>, ghost pairs': seq<(nat, nat)>)
    requires Adjacency(neighbors, |biomes|) && i < |biomes|
    requires lines == Pieces(pairs, pieces)
    requires forall p: (nat, nat) :: p in pairs <==> BorderPair(biomes, neighbors, p) && p.0 < i
    requires Ascending(pairs)
    ensures lines' == Pieces(pairs', pieces)
    ensures forall p: (nat, nat) :: p in pairs' <==> BorderPair(biomes, neighbors, p) && p.0 < i + 1
    ensures Ascending(pairs')
    ensures |pairs| <= |pairs'| && pairs'[..|pairs|] == pairs
    ensures |lines| <= |lines'| && lines'[..|lines|] == lines
  {
    assert Extends(pairs, pairs) && Extends(lines, lines);
    lines', pairs' := BorderLoop(biomes, neighbors, pieces, i, lines, pairs);
    assert Bordering(biomes, neighbors, pieces, i, {}, lines, pairs, lines', pairs');
  }

  /** The state of the `for j in neigh` loop of borders.py:88-92 with the
      neighbours `rest` still to go. */
  ghost predicate Bordering<B, L>(biomes: seq<B>, neighbors: seq<set<nat>>, pieces: (nat, nat) -> seq<L>, i: nat,
                                  rest: set<nat>, lines: seq<L>, pairs: seq<(nat, nat)>, lines': seq<L>, pairs': seq<(nat, nat)>)
    requires Adjacency(neighbors, |biomes|) && i < |biomes|
  {
    && rest <= neighbors[i]
    && Extends(pairs', pairs) && Extends(lines', lines)
    && lines' == Pieces(pairs', pieces)
    && (forall p: (nat, nat) :: p in pairs' <==> BorderPair(biomes, neighbors, p) && (p.0 < i || (p.0 == i && p.1 !in rest)))
    && Ascending(pairs')
  }

  /** The loop `for j in neigh` of borders.py:88-92, over the whole set in
      an arbitrary order. */
  method BorderLoop<B(==), L>(biomes: seq<B>, neighbors: seq<set<nat>>, pieces: (nat, nat) -> seq<L>, i: nat,
                              lines: seq<L>, ghost pairs: seq<(nat, nat)>)
    returns (lines': seq<L>, ghost pairs': seq<(nat, nat)>)
    requires Adjacency(neighbors, |biomes|) && i < |biomes|
    requires Bordering(biomes, neighbors, pieces, i, neighbors[i], lines, pairs, lines, pairs)
    ensures Bordering(biomes, neighbors, pieces, i, {}, lines, pairs, lines', pairs')
  {
    lines', pairs' := lines, pairs;
    var rest := neighbors[i];
    while rest != {}
      invariant Bordering(biomes, neighbors, pieces, i, rest, lines, pairs, lines', pairs')
      decreases |rest|
    {
      var j :| j in rest;
      lines', pairs' := BorderStep(biomes, neighbors, pieces, i, j, rest, lines, pairs, lines', pairs');
      rest := rest - {j};
    }
  }

  /** One neighbour `j` of cell `i`: its border piece is added when `j`
      comes after `i` and the biomes differ (borders.py:89-92). */
  method BorderStep<B(==), L>(biomes: seq<B>, neighbors: seq<set<nat>>, pieces: (nat, nat) -> seq<L>, i: nat, j: nat,
                              ghost rest: set<nat>, ghost lines0: seq<L>, ghost pairs0: seq<(nat, nat)>,
                              lines: seq<L>, ghost pairs: seq<(nat, nat)>)
    returns (lines': seq<L>, ghost pairs': seq<(nat, nat)>)
    requires Adjacency(neighbors, |biomes|) && i < |biomes| && j in rest
    requires Bordering(biomes, neighbors, pieces, i, rest, lines0, pairs0, lines, pairs)
    ensures Bordering(biomes, neighbors, pieces, i, rest - {j}, lines0, pairs0, lines', pairs')
    ensures lines' == (if i < j && biomes[i] != biomes[j] then lines + pieces(i, j) else lines)
  {
    lines', pairs' := lines, pairs;
    if i < j && biomes[i] != biomes[j] {
      PiecesSnoc(pairs, (i, j), pieces);
      ExtendsSnoc(pairs, pairs0, [(i, j)]);
      ExtendsSnoc(lines, lines0, pieces(i, j));
      lines' := lines + pieces(i, j);
      pairs' := pairs + [(i, j)];
    }
  }

  /** `a` starts with `b`. */
  ghost predicate Extends<T>(a: seq<T>, b: seq<T>)
  {
    |b| <= |a| && a[..|b|] == b
  }

  /** Appending to a sequence keeps every prefix it had. */
  lemma ExtendsSnoc<T>(a: seq<T>, b: seq<T>, c: seq<T>)
    requires Extends(a, b)
    ensures Extends(a + c, b)
  {
    assert (a + c)[..|b|] == a[..|b|];
  }
}
