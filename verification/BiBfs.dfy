/** Shortest hop counts by a search from both ends. */
module BiBfs {
  import opened Csr
  import opened Paths
  import opened Bfs
  import opened Bitsets

  const TWO_TO_31 := 0x8000_0000

  /** A depth as the source stores it: a signed 32-bit integer. */
  function Int32(depth: nat): int {
    var low := depth % (2 * TWO_TO_31);
    if low < TWO_TO_31 then low else low - 2 * TWO_TO_31
  }

  lemma {:induction false} SwappedLinks(edges: seq<Edge>, n: nat, mask: bv64)
    requires forall e | e in edges :: e.src < n && e.dst < n
    ensures Transposed(LinksOf(edges, n, mask), LinksOf(Swapped(edges), n, mask))
  {
    hide ArcsOf, Allows, Has;
    forall u: nat, v: nat
      ensures Leads(LinksOf(edges, n, mask), u, v) ==> Leads(LinksOf(Swapped(edges), n, mask), v, u)
      ensures Leads(LinksOf(Swapped(edges), n, mask), v, u) ==> Leads(LinksOf(edges, n, mask), u, v)
    {
      if Leads(LinksOf(edges, n, mask), u, v) {
        SwappedLink(edges, n, mask, u, v);
      }
      if Leads(LinksOf(Swapped(edges), n, mask), v, u) {
        SwappedLink(Swapped(edges), n, mask, v, u);
        assert Swapped(Swapped(edges)) == edges;
      }
    }
  }

  lemma SwappedLink(edges: seq<Edge>, n: nat, mask: bv64, u: nat, v: nat)
    requires (forall e | e in edges :: e.src < n && e.dst < n) && Leads(LinksOf(edges, n, mask), u, v)
    ensures Leads(LinksOf(Swapped(edges), n, mask), v, u)
  {
    hide ArcsOf, Allows, Has;
    var arc :| arc in ArcsOf(edges, u) && Allows(mask, arc.kind) && arc.to == v;
    ArcsStayInside(edges, n, u, arc);
    SwappedIsTranspose(edges, u, v, arc.kind);
    assert Arc(v, arc.kind) in multiset(ArcsOf(edges, u));
    assert Arc(u, arc.kind) in multiset(ArcsOf(Swapped(edges), v));
  }

  /** One side's record: each node within `depth` carries its own distance. */
  ghost predicate SeenIs(seen: seq<int>, links: Links, s: nat, depth: nat) {
    && |seen| == |links|
    && (forall v | 0 <= v < |seen| :: seen[v] >= 0 <==> Within(links, {}, s, depth, v))
    && (forall v | 0 <= v < |seen| && seen[v] >= 0 :: seen[v] <= depth && First(links, {}, s, seen[v], v))
  }

  /** The two sides have no node in common. */
  predicate Disjoint(a: seq<int>, b: seq<int>) {
    |a| == |b| && forall v | 0 <= v < |a| && a[v] >= 0 :: b[v] < 0
  }

  /** Both searches' records being disjoint, no way of that length joins them. */
  lemma NoWayYet(links: Links, back: Links, s: nat, t: nat, a: nat, b: nat, seenF: seq<int>, seenB: seq<int>)
    requires Transposed(links, back) && s < |links| && forall u: nat, v: nat | Leads(links, u, v) :: v < |links|
    requires SeenIs(seenF, links, s, a) && SeenIs(seenB, back, t, b) && Disjoint(seenF, seenB)
    ensures forall k: nat | k <= a + b :: !Within(links, {}, s, k, t)
  {
    forall k: nat | k <= a + b
      ensures !Within(links, {}, s, k, t)
    {
      if Within(links, {}, s, k, t) {
        WithinLonger(links, {}, s, k, a + b, t);
        var x := SearchesMeet(links, back, s, t, a, b);
        WithinInside(links, {}, s, a, x);
        assert false;
      }
    }
  }

  /** A record with an empty frontier holds everything there is to find. */
  lemma DeadEnd(links: Links, s: nat, depth: nat, k: nat, v: nat)
    requires IsFrontier(links, {}, s, depth, []) && Within(links, {}, s, k, v)
    ensures Within(links, {}, s, depth, v)
  {
    if k <= depth {
      WithinLonger(links, {}, s, k, depth, v);
    } else {
      assert First(links, {}, s, 0, s);
      NothingNewStaysSo(links, {}, s, depth, k, v);
      WithinLonger(links, {}, s, depth - 1, depth, v);
    }
  }

  /** With either frontier empty, no way of any length joins the two. */
  lemma NoWayEver(links: Links, back: Links, s: nat, t: nat, a: nat, b: nat, seenF: seq<int>, seenB: seq<int>,
                  ff: seq<nat>, fb: seq<nat>)
    requires Transposed(links, back) && s < |links| == |back| && t < |links|
    requires SeenIs(seenF, links, s, a) && SeenIs(seenB, back, t, b) && Disjoint(seenF, seenB)
    requires IsFrontier(links, {}, s, a, ff) && IsFrontier(back, {}, t, b, fb) && (ff == [] || fb == [])
    ensures forall k: nat :: !Within(links, {}, s, k, t)
  {
    forall k: nat
      ensures !Within(links, {}, s, k, t)
    {
      if Within(links, {}, s, k, t) {
        if ff == [] {
          DeadEnd(links, s, a, k, t);
          WithinLonger(back, {}, t, 0, b, t);
        } else {
          var x := SearchesMeet(links, back, s, t, 0, k);
          DeadEnd(back, t, b, k, s);
          WithinLonger(links, {}, s, 0, a, s);
        }
        assert false;
      }
    }
  }

  /** While a frontier is being expanded: the nodes found are recorded one deeper. */
  ghost predicate Expanding(mine: seq<int>, links: Links, s: nat, depth: nat, next: seq<nat>) {
    && |mine| == |links| && Distinct(next)
    && (forall v | v in next :: v < |links| && mine[v] == depth + 1 && First(links, {}, s, depth + 1, v))
    && (forall v | 0 <= v < |mine| :: mine[v] >= 0 <==> Within(links, {}, s, depth, v) || v in next)
    && (forall v | 0 <= v < |mine| && mine[v] >= 0 && v !in next :: mine[v] <= depth && First(links, {}, s, mine[v], v))
  }

  lemma ExpandingOneMore(mine: seq<int>, links: Links, s: nat, depth: nat, next: seq<nat>, u: nat, v: nat)
    requires Expanding(mine, links, s, depth, next) && v < |mine| && mine[v] < 0
    requires Within(links, {}, s, depth, u) && Leads(links, u, v)
    ensures Expanding(mine[v := depth + 1], links, s, depth, next + [v]) && First(links, {}, s, depth + 1, v)
  {
    hide Within, First;
    OneFurther(links, {}, s, depth, u, v);
  }

  lemma ExpandingDone(mine: seq<int>, links: Links, s: nat, depth: nat, frontier: seq<nat>, next: seq<nat>)
    requires IsFrontier(links, {}, s, depth, frontier) && Expanding(mine, links, s, depth, next)
    requires forall u: nat, v: nat | u in frontier && Leads(links, u, v) :: v < |mine| && mine[v] >= 0
    requires forall u: nat, v: nat | Leads(links, u, v) :: v < |links|
    ensures IsFrontier(links, {}, s, depth + 1, next) && SeenIs(mine, links, s, depth + 1)
  {
    var members := Ball(links, {}, s, depth) + SetOf(next);
    assert Found(links, {}, s, depth, {} + Ball(links, {}, s, depth) + SetOf(next), next);
    assert {} + Ball(links, {}, s, depth) + SetOf(next) == members;
    LevelIsComplete(links, {}, s, depth, frontier, members, next);
    forall v | 0 <= v < |mine|
      ensures mine[v] >= 0 <==> Within(links, {}, s, depth + 1, v)
    {
      assert v in members <==> v in {} + Ball(links, {}, s, depth + 1);
    }
  }

  /** The frontier keeps every search below the number of nodes. */
  ghost predicate Deep(links: Links, s: nat, depth: nat, frontier: seq<nat>) {
    depth + (if frontier == [] then 0 else 1) <= |Ball(links, {}, s, depth)| <= |links|
  }

  lemma StaysDeep(links: Links, s: nat, depth: nat, frontier: seq<nat>, next: seq<nat>)
    requires IsFrontier(links, {}, s, depth, frontier) && IsFrontier(links, {}, s, depth + 1, next)
    requires Deep(links, s, depth, frontier) && frontier != []
    ensures Deep(links, s, depth + 1, next)
  {
    FrontierCounts(links, {}, s, depth + 1, next);
  }

  /** Depths as far as this one can be stored: it is below 2^31, or no node is so deep. */
  ghost predicate Storable(links: Links, s: nat, depth: nat) {
    depth < TWO_TO_31 || forall v :: !First(links, {}, s, depth, v)
  }

  /** The search from `s` never has to store a depth of 2^31: its limit stops it
      before, or no node is exactly that far away. */
  ghost predicate InRange(links: Links, s: nat, maxDepth: int) {
    0 <= maxDepth < TWO_TO_31 || Storable(links, s, TWO_TO_31)
  }

  lemma InRangeIsStorable(links: Links, s: nat, maxDepth: int, depth: nat)
    requires InRange(links, s, maxDepth) && (maxDepth < 0 || depth <= maxDepth)
    ensures Storable(links, s, depth)
  {
    if depth > TWO_TO_31 {
      forall v
        ensures !First(links, {}, s, depth, v)
      {
        if Within(links, {}, s, depth, v) {
          NothingNewStaysSo(links, {}, s, TWO_TO_31, depth, v);
          WithinLonger(links, {}, s, TWO_TO_31 - 1, depth - 1, v);
        }
      }
    }
  }

  /** A node `k` away leaves at least `k` others nearer than it. */
  lemma {:induction false} BallGrows(links: Links, s: nat, k: nat, v: nat)
    requires First(links, {}, s, k, v) && s < |links| && forall u: nat, w: nat | Leads(links, u, w) :: w < |links|
    ensures v < |links| && |Ball(links, {}, s, k)| > k
    decreases k
  {
    if k == 0 {
      assert s in Ball(links, {}, s, 0);
    } else {
      var u :| Within(links, {}, s, k - 1, u) && Leads(links, u, v);
      BallGrows(links, s, k - 1, u);
      var inner := Ball(links, {}, s, k - 1);
      assert inner + {v} <= Ball(links, {}, s, k) && v !in inner;
      SubsetCounts(inner + {v}, Ball(links, {}, s, k));
    }
  }

  /** So every graph of at most 2^31 nodes is in range, whatever the limit. */
  lemma SmallGraphsAreInRange(links: Links, s: nat, maxDepth: int)
    requires s < |links| <= TWO_TO_31 && forall u: nat, w: nat | Leads(links, u, w) :: w < |links|
    ensures InRange(links, s, maxDepth)
  {
    if v :| First(links, {}, s, TWO_TO_31, v) {
      BallGrows(links, s, TWO_TO_31, v);
      NumbersBelow(Ball(links, {}, s, TWO_TO_31), |links|);
      assert false;
    }
  }

  /** A depth some node has is stored as it is. */
  lemma StoredExactly(links: Links, s: nat, depth: nat, v: nat)
    requires Storable(links, s, depth) && First(links, {}, s, depth, v)
    ensures Int32(depth) == depth
  {
  }

  /** Expands one side's frontier, until an arc meets a node the other side has
      seen: that node, then, is returned. */
  method Expand(g: Graph, ghost edges: seq<Edge>, mask: bv64, frontier: seq<nat>, mine: array<int>, other: array<int>,
                depth: nat, ghost links: Links, ghost s: nat)
    returns (next: seq<nat>, met: int, scanned: nat, ghost looked: seq<nat>)
    requires Built(g, edges) && links == LinksOf(edges, g.Nodes(), mask) && |links| == g.Nodes()
    requires (mine as object) !in {g.off as object, g.adj, g.kind, other}
    requires IsFrontier(links, {}, s, depth, frontier) && SeenIs(mine[..], links, s, depth) && Disjoint(mine[..], other[..])
    requires Storable(links, s, depth + 1)
    modifies mine
    ensures Built(g, edges)
    ensures met >= 0 ==> met < other.Length && other[met] >= 0 && exists u :: First(links, {}, s, depth, u) && Leads(links, u, met)
    ensures met < 0 ==>
              IsFrontier(links, {}, s, depth + 1, next) && SeenIs(mine[..], links, s, depth + 1) && Disjoint(mine[..], other[..])
    ensures looked <= frontier && scanned == Degrees(edges, looked) && (met < 0 ==> looked == frontier)
  {
    hide LinksOf, ArcsOf, Start, Allows, Has, Within, Bitset.Members, Ball, Graph.Holds, SeenIs, Expanding, Degrees, Storable;
    next, met, scanned, looked := [], -1, 0, [];
    assert frontier[..0] == [];
    NothingExpanded(mine[..], links, s, depth);
    NoDegrees(edges);
    for j := 0 to |frontier|
      invariant Built(g, edges) && Disjoint(mine[..], other[..])
      invariant Expanding(mine[..], links, s, depth, next)
      invariant forall u, v: nat | u in frontier[..j] && Leads(links, u, v) :: v < mine.Length && mine[v] >= 0
      invariant looked == frontier[..j] && scanned == Degrees(edges, looked)
    {
      var u := frontier[j];
      assert u in frontier && First(links, {}, s, depth, u);
      OneMoreDegree(g, edges, frontier, j);
      SliceBounds(g, edges, u);
      scanned, looked := scanned + g.off[u + 1] - g.off[u], frontier[..j + 1];
      next, met := ExpandFrom(g, edges, mask, u, mine, other, depth, next, links, s);
      if met >= 0 {
        return;
      }
    }
    LinksInside(g, edges, mask);
    assert frontier[..|frontier|] == frontier;
    ExpandingDone(mine[..], links, s, depth, frontier, next);
  }

  lemma NoDegrees(edges: seq<Edge>)
    ensures Degrees(edges, []) == 0
  {
  }

  lemma NothingExpanded(mine: seq<int>, links: Links, s: nat, depth: nat)
    requires SeenIs(mine, links, s, depth)
    ensures Expanding(mine, links, s, depth, [])
  {
  }

  /** Expands one node. */
  method ExpandFrom(g: Graph, ghost edges: seq<Edge>, mask: bv64, u: nat, mine: array<int>, other: array<int>, depth: nat,
                    before: seq<nat>, ghost links: Links, ghost s: nat)
    returns (next: seq<nat>, met: int)
    requires Built(g, edges) && links == LinksOf(edges, g.Nodes(), mask) && |links| == g.Nodes() && u < g.Nodes()
    requires (mine as object) !in {g.off as object, g.adj, g.kind, other}
    requires Within(links, {}, s, depth, u) && Disjoint(mine[..], other[..]) && mine.Length == g.Nodes()
    requires Expanding(mine[..], links, s, depth, before) && Storable(links, s, depth + 1)
    modifies mine
    ensures Built(g, edges) && Disjoint(mine[..], other[..]) && Expanding(mine[..], links, s, depth, next)
    ensures met >= 0 ==> met < other.Length && other[met] >= 0 && Leads(links, u, met)
    ensures met < 0 ==> forall v: nat | Leads(links, u, v) :: v < mine.Length && mine[v] >= 0
    ensures forall v | 0 <= v < mine.Length && old(mine[v]) >= 0 :: mine[v] >= 0
  {
    hide LinksOf, ArcsOf, Start, Allows, Has, Within, First, Bitset.Members, Ball, Graph.Holds, Expanding, Leads, Storable, Int32;
    next, met := before, -1;
    SliceBounds(g, edges, u);
    for i := g.off[u] to g.off[u + 1]
      invariant Built(g, edges) && Disjoint(mine[..], other[..])
      invariant Expanding(mine[..], links, s, depth, next)
      invariant forall k | g.off[u] <= k < i && Allows(mask, g.kind[k]) :: g.adj[k] < mine.Length && mine[g.adj[k]] >= 0
      invariant forall v | 0 <= v < mine.Length && old(mine[v]) >= 0 :: mine[v] >= 0
    {
      StoredArc(g, edges, mask, u, i);
      if Allows(mask, g.kind[i]) {
        var v := g.adj[i];
        if other[v] >= 0 {
          met := v;
          return;
        }
        if mine[v] < 0 {
          ExpandingOneMore(mine[..], links, s, depth, next, u, v);
          StoredExactly(links, s, depth + 1, v);
          mine[v] := Int32(depth + 1);
          next := next + [v];
        }
      }
    }
    forall v: nat | Leads(links, u, v)
      ensures v < mine.Length && mine[v] >= 0
    {
      var k := LinkIsStored(g, edges, mask, u, v);
    }
  }

  /** The answer of a shortest-path search: the fewest hops, or -1 when no way
      joins the two within the limit. A negative limit is none. */
  ghost predicate IsShortest(links: Links, s: nat, t: nat, maxDepth: int, hops: int) {
    if hops == -1 then forall k: nat | maxDepth < 0 || k <= maxDepth :: !Within(links, {}, s, k, t)
    else hops >= 0 && First(links, {}, s, hops, t) && (maxDepth < 0 || hops <= maxDepth)
  }

  /** Both searches' state. */
  ghost predicate Searching(links: Links, back: Links, s: nat, t: nat, a: nat, b: nat, ff: seq<nat>, fb: seq<nat>,
                            seenF: seq<int>, seenB: seq<int>) {
    && SeenIs(seenF, links, s, a) && SeenIs(seenB, back, t, b) && Disjoint(seenF, seenB)
    && IsFrontier(links, {}, s, a, ff) && IsFrontier(back, {}, t, b, fb)
    && Deep(links, s, a, ff) && Deep(back, t, b, fb)
  }

  /** The first arc to meet the other side is already on a shortest way, since the
      two balls were disjoint before. */
  lemma MeetingIsShortest(links: Links, back: Links, s: nat, t: nat, a: nat, b: nat, x: nat, i: nat, j: nat)
    requires Transposed(links, back) && forall k: nat | k <= a + b :: !Within(links, {}, s, k, t)
    requires Within(links, {}, s, i, x) && Within(back, {}, t, j, x) && i + j <= a + b + 1
    ensures i + j == a + b + 1 && First(links, {}, s, i + j, t)
  {
    HalvesJoin(links, back, s, t, i, j, x);
  }

  lemma SearchBegins(links: Links, s: nat, seen: seq<int>)
    requires s < |links| == |seen| && forall v | 0 <= v < |seen| :: seen[v] == if v == s then 0 else -1
    ensures SeenIs(seen, links, s, 0) && IsFrontier(links, {}, s, 0, [s]) && Deep(links, s, 0, [s])
  {
    FirstLevel(links, {}, s);
    FrontierCounts(links, {}, s, 0, [s]);
  }

  /** A fresh record in which only `s` has been seen. */
  method NewRecord(n: nat, s: nat, ghost links: Links) returns (seen: array<int>)
    requires s < n == |links|
    ensures fresh(seen) && seen.Length == n && (forall v | 0 <= v < n :: seen[v] == if v == s then 0 else -1)
    ensures SeenIs(seen[..], links, s, 0) && IsFrontier(links, {}, s, 0, [s]) && Deep(links, s, 0, [s])
  {
    hide SeenIs, IsFrontier, Deep;
    seen := new int[n](_ => -1);
    seen[s] := 0;
    SearchBegins(links, s, seen[..]);
  }

  /** Nodes already expanded, and part of the frontier after them. */
  lemma StillDistinct(links: Links, s: nat, depth: nat, expanded: seq<nat>, frontier: seq<nat>, looked: seq<nat>)
    requires Expanded(links, {}, s, depth, expanded) && IsFrontier(links, {}, s, depth, frontier) && looked <= frontier
    ensures Distinct(expanded + looked)
  {
    ExpandMore(links, {}, s, depth, expanded, frontier);
    assert forall i | 0 <= i < |expanded + looked| :: (expanded + looked)[i] == (expanded + frontier)[i];
  }

  /** The number of hops from `s` to `t` over allowed kinds, and the arcs looked at:
      those out of each expanded node, once a side. */
  method Search(fwd: Graph, rev: Graph, ghost edges: seq<Edge>, s: nat, t: nat, mask: bv64, maxDepth: int)
    returns (hops: int, scanned: nat, ghost lookedF: seq<nat>, ghost lookedB: seq<nat>)
    requires Built(fwd, edges) && Built(rev, Swapped(edges)) && fwd.Nodes() == rev.Nodes()
    requires s < fwd.Nodes() && t < fwd.Nodes()
    requires InRange(LinksOf(edges, fwd.Nodes(), mask), s, maxDepth)
    requires InRange(LinksOf(Swapped(edges), fwd.Nodes(), mask), t, maxDepth)
    ensures IsShortest(LinksOf(edges, fwd.Nodes(), mask), s, t, maxDepth, hops)
    ensures Distinct(lookedF) && Distinct(lookedB)
    ensures scanned == Degrees(edges, lookedF) + Degrees(Swapped(edges), lookedB)
  {
    hide LinksOf, ArcsOf, Swapped, SeenIs, IsFrontier, Built, Leads, Degrees, Expanded, InRange, Storable;
    scanned, lookedF, lookedB := 0, [], [];
    NoDegrees(edges);
    NoDegrees(Swapped(edges));
    ghost var n := fwd.Nodes();
    ghost var links, back := LinksOf(edges, n, mask), LinksOf(Swapped(edges), n, mask);
    GraphsMatch(fwd, rev, edges, mask);
    if s == t {
      hops := 0;
      return;
    }
    var seenF := NewRecord(fwd.Nodes(), s, links);
    var seenB := NewRecord(fwd.Nodes(), t, back);
    var ff, fb := [s], [t];
    var df, db := 0, 0;
    NoneExpanded(links, s);
    NoneExpanded(back, t);
    while |ff| > 0 && |fb| > 0
      invariant Built(fwd, edges) && Built(rev, Swapped(edges)) && fresh(seenF) && fresh(seenB)
      invariant seenF != seenB
      invariant Searching(links, back, s, t, df, db, ff, fb, seenF[..], seenB[..])
      invariant Expanded(links, {}, s, df, lookedF) && Expanded(back, {}, t, db, lookedB)
      invariant scanned == Degrees(edges, lookedF) + Degrees(Swapped(edges), lookedB)
      decreases 2 * n - df - db
    {
      NoWayYet(links, back, s, t, df, db, seenF[..], seenB[..]);
      ExpandedIsDistinct(links, s, df, lookedF);
      ExpandedIsDistinct(back, t, db, lookedB);
      if maxDepth >= 0 && df + db >= maxDepth {
        hops := -1;
        return;
      }
      if |ff| <= |fb| {
        InRangeIsStorable(links, s, maxDepth, df + 1);
        var next, met, arcs, looked := Expand(fwd, edges, mask, ff, seenF, seenB, df, links, s);
        StillDistinct(links, s, df, lookedF, ff, looked);
        DegreesAdd(edges, lookedF, looked);
        ghost var before := lookedF;
        scanned, lookedF := scanned + arcs, lookedF + looked;
        if met >= 0 {
          Joined(links, back, s, t, df, db, met, seenB[..]);
          hops := df + 1 + seenB[met];
          return;
        }
        StaysDeep(links, s, df, ff, next);
        ExpandMore(links, {}, s, df, before, ff);
        ff, df := next, df + 1;
      } else {
        InRangeIsStorable(back, t, maxDepth, db + 1);
        var next, met, arcs, looked := Expand(rev, Swapped(edges), mask, fb, seenB, seenF, db, back, t);
        StillDistinct(back, t, db, lookedB, fb, looked);
        DegreesAdd(Swapped(edges), lookedB, looked);
        ghost var before := lookedB;
        scanned, lookedB := scanned + arcs, lookedB + looked;
        if met >= 0 {
          JoinedBack(links, back, s, t, df, db, met, seenF[..]);
          hops := db + 1 + seenF[met];
          return;
        }
        StaysDeep(back, t, db, fb, next);
        ExpandMore(back, {}, t, db, before, fb);
        fb, db := next, db + 1;
      }
    }
    ExpandedIsDistinct(links, s, df, lookedF);
    ExpandedIsDistinct(back, t, db, lookedB);
    NoWayEver(links, back, s, t, df, db, seenF[..], seenB[..], ff, fb);
    hops := -1;
  }

  lemma NoneExpanded(links: Links, s: nat)
    ensures Expanded(links, {}, s, 0, [])
  {
  }

  lemma ExpandedIsDistinct(links: Links, s: nat, depth: nat, expanded: seq<nat>)
    requires Expanded(links, {}, s, depth, expanded)
    ensures Distinct(expanded)
  {
  }

  lemma GraphsMatch(fwd: Graph, rev: Graph, edges: seq<Edge>, mask: bv64)
    requires Built(fwd, edges) && Built(rev, Swapped(edges)) && fwd.Nodes() == rev.Nodes()
    ensures |LinksOf(edges, fwd.Nodes(), mask)| == |LinksOf(Swapped(edges), fwd.Nodes(), mask)| == fwd.Nodes()
    ensures Transposed(LinksOf(edges, fwd.Nodes(), mask), LinksOf(Swapped(edges), fwd.Nodes(), mask))
    ensures forall u: nat, v: nat | Leads(LinksOf(edges, fwd.Nodes(), mask), u, v) :: v < fwd.Nodes()
  {
    LinksCoverNodes(edges, fwd.Nodes(), mask);
    LinksCoverNodes(Swapped(edges), fwd.Nodes(), mask);
    SwappedLinks(edges, fwd.Nodes(), mask);
    LinksInside(fwd, edges, mask);
  }

  lemma Joined(links: Links, back: Links, s: nat, t: nat, a: nat, b: nat, met: nat, seenB: seq<int>)
    requires Transposed(links, back) && forall k: nat | k <= a + b :: !Within(links, {}, s, k, t)
    requires SeenIs(seenB, back, t, b) && met < |seenB| && seenB[met] >= 0
    requires exists u :: First(links, {}, s, a, u) && Leads(links, u, met)
    ensures seenB[met] == b && First(links, {}, s, a + 1 + b, t)
  {
    var u :| First(links, {}, s, a, u) && Leads(links, u, met);
    assert Within(links, {}, s, a + 1, met);
    MeetingIsShortest(links, back, s, t, a, b, met, a + 1, seenB[met]);
  }

  lemma JoinedBack(links: Links, back: Links, s: nat, t: nat, a: nat, b: nat, met: nat, seenF: seq<int>)
    requires Transposed(links, back) && forall k: nat | k <= a + b :: !Within(links, {}, s, k, t)
    requires SeenIs(seenF, links, s, a) && met < |seenF| && seenF[met] >= 0
    requires exists u :: First(back, {}, t, b, u) && Leads(back, u, met)
    ensures seenF[met] == a && First(links, {}, s, b + 1 + a, t)
  {
    var u :| First(back, {}, t, b, u) && Leads(back, u, met);
    assert Within(back, {}, t, b + 1, met);
    MeetingIsShortest(links, back, s, t, a, b, met, seenF[met], b + 1);
  }
}
