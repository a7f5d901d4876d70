/** A compressed sparse row graph, built by a counting sort over its edges. */
module Csr {
  datatype Edge = Edge(src: nat, dst: nat, kind: nat)

  datatype Arc = Arc(to: nat, kind: nat)

  /** The arcs of `edges` that leave `u`, in input order. */
  function ArcsOf(edges: seq<Edge>, u: nat): seq<Arc> {
    if edges == [] then []
    else
      var last := edges[|edges| - 1];
      ArcsOf(edges[..|edges| - 1], u) + if last.src == u then [Arc(last.dst, last.kind)] else []
  }

  /** How many edges leave the nodes below `u`. */
  function Start(edges: seq<Edge>, u: nat): nat {
    if u == 0 then 0 else Start(edges, u - 1) + |ArcsOf(edges, u - 1)|
  }

  lemma {:induction false} StartIsMonotone(edges: seq<Edge>, u: nat, w: nat)
    requires u < w
    ensures Start(edges, u) + |ArcsOf(edges, u)| <= Start(edges, w)
    decreases w
  {
    if u + 1 < w {
      StartIsMonotone(edges, u, w - 1);
    }
  }

  lemma {:induction false} StartMore(edges: seq<Edge>, last: Edge, u: nat)
    ensures Start(edges + [last], u) == Start(edges, u) + if last.src < u then 1 else 0
    decreases u
  {
    assert (edges + [last])[..|edges|] == edges;
    if u > 0 {
      StartMore(edges, last, u - 1);
    }
  }

  /** Every edge is counted once. */
  lemma {:induction false} StartCountsEveryEdge(edges: seq<Edge>, n: nat)
    requires forall e | e in edges :: e.src < n
    ensures Start(edges, n) == |edges|
    decreases |edges|
  {
    if edges == [] {
      StartOfNothing(n);
    } else {
      var before := edges[..|edges| - 1];
      assert edges == before + [edges[|edges| - 1]];
      StartCountsEveryEdge(before, n);
      StartMore(before, edges[|edges| - 1], n);
    }
  }

  lemma {:induction false} StartOfNothing(n: nat)
    ensures Start([], n) == 0
  {
    if n > 0 {
      StartOfNothing(n - 1);
    }
  }

  function EdgeAt(src: seq<nat>, dst: seq<nat>, kind: seq<nat>, i: nat): Edge
    requires i < |src| == |dst| == |kind|
  {
    Edge(src[i], dst[i], kind[i])
  }

  function EdgesOf(src: seq<nat>, dst: seq<nat>, kind: seq<nat>): (edges: seq<Edge>)
    requires |src| == |dst| == |kind|
  {
    seq(|src|, i requires 0 <= i < |src| => EdgeAt(src, dst, kind, i))
  }

  function Zip(to: seq<nat>, kind: seq<nat>): seq<Arc>
    requires |to| == |kind|
  {
    seq(|to|, i requires 0 <= i < |to| => Arc(to[i], kind[i]))
  }

  class Graph {
    const off: array<nat>
    const adj: array<nat>
    const kind: array<nat>

    constructor (off: array<nat>, adj: array<nat>, kind: array<nat>)
      ensures this.off == off && this.adj == adj && this.kind == kind
    {
      this.off, this.adj, this.kind := off, adj, kind;
    }

    function Nodes(): int {
      off.Length - 1
    }

    /** Offsets rise from 0 to the number of arcs. */
    ghost predicate Shaped()
      reads off
    {
      && off.Length > 0 && adj.Length == kind.Length
      && off[0] == 0 && off[off.Length - 1] == adj.Length
      && forall u, w | 0 <= u <= w < off.Length :: off[u] <= off[w]
    }

    /** The arcs stored for node `u`. */
    ghost function Slice(u: nat): seq<Arc>
      requires Shaped() && u + 1 < off.Length
      reads off, adj, kind
    {
      Zip(adj[off[u]..off[u + 1]], kind[off[u]..off[u + 1]])
    }

    /** Each node's slice is exactly its edges, in input order. */
    ghost predicate Holds(edges: seq<Edge>)
      reads off, adj, kind
    {
      && Shaped() && adj.Length == |edges|
      && (forall u | 0 <= u < off.Length - 1 :: off[u] == Start(edges, u) && Slice(u) == ArcsOf(edges, u))
    }
  }

  lemma ArcsOfMore(edges: seq<Edge>, i: nat, u: nat)
    requires i < |edges|
    ensures ArcsOf(edges[..i + 1], u) == ArcsOf(edges[..i], u) + if edges[i].src == u then [Arc(edges[i].dst, edges[i].kind)] else []
  {
    assert edges[..i + 1][..i] == edges[..i];
  }

  lemma {:induction false} ArcsOfGrows(edges: seq<Edge>, i: nat, u: nat)
    requires i <= |edges|
    ensures ArcsOf(edges[..i], u) <= ArcsOf(edges, u)
    decreases |edges| - i
  {
    if i == |edges| {
      assert edges[..i] == edges;
    } else {
      ArcsOfMore(edges, i, u);
      ArcsOfGrows(edges, i + 1, u);
    }
  }

  lemma StartBegins(edges: seq<Edge>, u: nat)
    ensures Start(edges, 0) == 0 && ArcsOf(edges[..0], u) == []
    ensures Start(edges, u + 1) == Start(edges, u) + |ArcsOf(edges, u)|
  {
  }

  /** Counts each node's edges one place up, then sums them into offsets. */
  method CountOffsets(n: nat, ghost edges: seq<Edge>, src: seq<nat>) returns (off: array<nat>)
    requires |src| == |edges| && forall i | 0 <= i < |src| :: src[i] == edges[i].src < n
    ensures fresh(off) && off.Length == n + 1
    ensures forall u | 0 <= u <= n :: off[u] == Start(edges, u)
  {
    hide ArcsOf, Start;
    off := new nat[n + 1](_ => 0);
    forall u: nat
      ensures ArcsOf(edges[..0], u) == []
    {
      StartBegins(edges, u);
    }
    for i := 0 to |src|
      invariant off[0] == 0
      invariant forall u | 0 < u <= n :: off[u] == |ArcsOf(edges[..i], u - 1)|
    {
      forall u: nat
        ensures |ArcsOf(edges[..i + 1], u)| == |ArcsOf(edges[..i], u)| + if edges[i].src == u then 1 else 0
      {
        ArcsOfMore(edges, i, u);
      }
      var k := src[i] + 1;
      off[k] := off[k] + 1;
    }
    assert edges[..|src|] == edges;
    StartBegins(edges, 0);
    for i := 0 to n
      invariant forall u | 0 <= u <= i :: off[u] == Start(edges, u)
      invariant forall u | i < u <= n :: off[u] == |ArcsOf(edges, u - 1)|
    {
      StartBegins(edges, i);
      off[i + 1] := off[i + 1] + off[i];
    }
  }

  /** How far node `u`'s part is filled by the first `i` edges. */
  function Filled(edges: seq<Edge>, i: nat, u: nat): nat
    requires i <= |edges|
  {
    Start(edges, u) + |ArcsOf(edges[..i], u)|
  }

  /** The first `i` edges are in place: `pos` is where each node's next one goes. */
  ghost predicate Placed(edges: seq<Edge>, i: nat, n: nat, pos: array<nat>, adj: array<nat>, kd: array<nat>)
    requires i <= |edges|
    reads pos, adj, kd
  {
    && pos.Length == n && adj.Length == kd.Length == |edges|
    && (forall u | 0 <= u < n :: PlacedFor(edges, i, u, pos[u], adj, kd))
  }

  ghost predicate PlacedFor(edges: seq<Edge>, i: nat, u: nat, filled: nat, adj: array<nat>, kd: array<nat>)
    requires i <= |edges|
    reads adj, kd
  {
    && adj.Length == kd.Length
    && filled == Filled(edges, i, u) <= adj.Length
    && Zip(adj[Start(edges, u)..filled], kd[Start(edges, u)..filled]) == ArcsOf(edges[..i], u)
  }

  /** Where edge `i` goes is inside the arrays, and in no part already filled. */
  lemma PlaceIsFree(edges: seq<Edge>, i: nat, n: nat, u: nat)
    requires i < |edges| && edges[i].src < n && u < n && (forall e | e in edges :: e.src < n)
    ensures
      var p := Filled(edges, i, edges[i].src);
      p < |edges| && (p >= Filled(edges, i, u) || p < Start(edges, u))
  {
    hide Start, ArcsOf;
    var w := edges[i].src;
    ArcsOfMore(edges, i, w);
    ArcsOfGrows(edges, i + 1, w);
    ArcsOfGrows(edges, i, u);
    StartIsMonotone(edges, w, n);
    StartCountsEveryEdge(edges, n);
    if u < w {
      StartIsMonotone(edges, u, w);
    } else if w < u {
      StartIsMonotone(edges, w, u);
    }
  }

  /** Puts edge `i` in its place. */
  method Place(ghost edges: seq<Edge>, ghost i: nat, e: Edge, ghost n: nat, pos: array<nat>, adj: array<nat>, kd: array<nat>)
    requires i < |edges| && e == edges[i] && forall e | e in edges :: e.src < n
    requires pos != adj && pos != kd && adj != kd
    requires Placed(edges, i, n, pos, adj, kd)
    modifies pos, adj, kd
    ensures Placed(edges, i + 1, n, pos, adj, kd)
  {
    hide Start, ArcsOf;
    var p := pos[e.src];
    PlaceIsFree(edges, i, n, e.src);
    adj[p] := e.dst;
    kd[p] := e.kind;
    pos[e.src] := pos[e.src] + 1;
    forall u | 0 <= u < n
      ensures PlacedFor(edges, i + 1, u, pos[u], adj, kd)
    {
      assert PlacedFor(edges, i, u, old(pos[u]), adj, kd) by {
        PlaceIsFree(edges, i, n, u);
        assert old(PlacedFor(edges, i, u, pos[u], adj, kd));
        var from, to := Start(edges, u), old(pos[u]);
        assert adj[from..to] == old(adj[from..to]) && kd[from..to] == old(kd[from..to]);
      }
      ArcsOfMore(edges, i, u);
      if u == e.src {
        var from := Start(edges, u);
        assert adj[from..p + 1] == adj[from..p] + [e.dst] && kd[from..p + 1] == kd[from..p] + [e.kind];
      }
    }
  }

  lemma OnceAllPlaced(edges: seq<Edge>, n: nat, pos: array<nat>, g: Graph)
    requires (forall e | e in edges :: e.src < n) && g.off.Length == n + 1
    requires Placed(edges, |edges|, n, pos, g.adj, g.kind) && forall u | 0 <= u <= n :: g.off[u] == Start(edges, u)
    ensures g.Holds(edges)
  {
    hide Start, ArcsOf;
    StartBegins(edges, 0);
    assert edges[..|edges|] == edges;
    StartCountsEveryEdge(edges, n);
    forall u, w | 0 <= u <= w <= n
      ensures g.off[u] <= g.off[w]
    {
      if u < w {
        StartIsMonotone(edges, u, w);
      }
    }
    forall u | 0 <= u < n
      ensures g.Slice(u) == ArcsOf(edges, u)
    {
      StartBegins(edges, u);
      assert PlacedFor(edges, |edges|, u, pos[u], g.adj, g.kind);
    }
  }

  /** Builds the graph of the edges src[i] -> dst[i] of kind kind[i]. */
  method BuildCSR(n: nat, src: seq<nat>, dst: seq<nat>, kind: seq<nat>) returns (g: Graph)
    requires |src| == |dst| == |kind| && forall u | u in src :: u < n
    ensures fresh(g) && g.Nodes() == n && g.Holds(EdgesOf(src, dst, kind))
  {
    hide Start, ArcsOf, Graph.Holds, PlacedFor;
    var m := |src|;
    ghost var edges := EdgesOf(src, dst, kind);
    assert forall e | e in edges :: e.src < n by {
      assert forall i | 0 <= i < m :: edges[i].src == src[i] && src[i] in src;
    }
    var off := CountOffsets(n, edges, src);
    var adj := new nat[m];
    var kd := new nat[m];
    var pos := new nat[n];
    forall i | 0 <= i < n {
      pos[i] := off[i];
    }
    NothingPlacedYet(edges, n, pos, adj, kd);
    for i := 0 to m
      invariant Placed(edges, i, n, pos, adj, kd)
      invariant forall u | 0 <= u <= n :: off[u] == Start(edges, u)
    {
      Place(edges, i, EdgeAt(src, dst, kind, i), n, pos, adj, kd);
    }
    g := new Graph(off, adj, kd);
    OnceAllPlaced(edges, n, pos, g);
  }

  lemma NothingPlacedYet(edges: seq<Edge>, n: nat, pos: array<nat>, adj: array<nat>, kd: array<nat>)
    requires (forall e | e in edges :: e.src < n) && pos.Length == n && adj.Length == kd.Length == |edges|
    requires forall u | 0 <= u < n :: pos[u] == Start(edges, u)
    ensures Placed(edges, 0, n, pos, adj, kd)
  {
    forall u | 0 <= u < n
      ensures PlacedFor(edges, 0, u, pos[u], adj, kd)
    {
      StartIsMonotone(edges, u, n);
      StartCountsEveryEdge(edges, n);
    }
  }

  // ---- Building from swapped arrays -----------------------------------------

  function Swapped(edges: seq<Edge>): seq<Edge> {
    seq(|edges|, i requires 0 <= i < |edges| => Edge(edges[i].dst, edges[i].src, edges[i].kind))
  }

  lemma SwappedArrays(src: seq<nat>, dst: seq<nat>, kind: seq<nat>)
    requires |src| == |dst| == |kind|
    ensures EdgesOf(dst, src, kind) == Swapped(EdgesOf(src, dst, kind))
  {
  }

  lemma SwappedPrefix(edges: seq<Edge>, n: nat)
    requires n <= |edges|
    ensures |Swapped(edges)| == |edges| && Swapped(edges)[..n] == Swapped(edges[..n])
    ensures forall i | 0 <= i < n :: Swapped(edges)[i] == Edge(edges[i].dst, edges[i].src, edges[i].kind)
  {
  }

  /** Swapping the arrays gives the transpose: v appears among u's arcs exactly as
      often as u does among v's in the other graph, kind by kind. */
  lemma {:induction false} SwappedIsTranspose(edges: seq<Edge>, u: nat, v: nat, kind: nat)
    ensures multiset(ArcsOf(edges, u))[Arc(v, kind)] == multiset(ArcsOf(Swapped(edges), v))[Arc(u, kind)]
    decreases |edges|
  {
    hide Swapped;
    SwappedPrefix(edges, |edges|);
    if edges != [] {
      SwappedIsTranspose(edges[..|edges| - 1], u, v, kind);
      SwappedPrefix(edges, |edges| - 1);
      var last := edges[|edges| - 1];
      assert Swapped(edges)[|edges| - 1] == Edge(last.dst, last.src, last.kind);
    }
  }
}
