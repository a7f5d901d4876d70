/** Breadth-first search over the arcs of allowed kinds. */
module Bfs {
  import opened Bitsets
  import opened Csr
  import opened Paths

  /** A mask of zero allows every kind; otherwise bit k allows kind k, and no bit
      stands for a kind past 63. */
  predicate Allows(mask: bv64, kind: nat) {
    mask == 0 || (kind < 64 && Has(mask, kind))
  }

  function LinksOf(edges: seq<Edge>, n: nat, mask: bv64): Links {
    seq(n, u requires 0 <= u < n => set arc | arc in ArcsOf(edges, u) && Allows(mask, arc.kind) :: arc.to)
  }

  /** Kinds that have a bit in one word. */
  predicate OneWord(kinds: seq<nat>) {
    forall i | 0 <= i < |kinds| :: kinds[i] < 64
  }

  /** The mask that has the bits of these kinds set. */
  function MaskOf(kinds: seq<nat>): bv64
    requires OneWord(kinds)
  {
    if kinds == [] then 0 else With(MaskOf(kinds[1..]), kinds[0])
  }

  lemma {:induction false} MaskHasListed(kinds: seq<nat>, kind: nat)
    requires OneWord(kinds) && kind < 64
    ensures Has(MaskOf(kinds), kind) <==> kind in kinds
    decreases |kinds|
  {
    hide Has, With;
    if kinds == [] {
      WithSetsOne(0, kind, kind);
    } else {
      assert kind in kinds <==> kind == kinds[0] || kind in kinds[1..];
      MaskHasListed(kinds[1..], kind);
      WithSetsOne(MaskOf(kinds[1..]), kinds[0], kind);
    }
  }

  /** A mask made for a list of kinds allows exactly those, and the empty one,
      which is zero, allows every kind. */
  lemma MaskAllowsListed(kinds: seq<nat>, kind: nat)
    requires OneWord(kinds)
    ensures Allows(MaskOf(kinds), kind) <==> kinds == [] || kind in kinds
  {
    hide Has, With;
    if kinds != [] {
      MaskHasListed(kinds, kinds[0]);
      WithSetsOne(0, kinds[0], kinds[0]);
    }
    if kind < 64 {
      MaskHasListed(kinds, kind);
    }
  }

  lemma MaskOfOne(kind: nat)
    requires kind < 64
    ensures MaskOf([kind]) == (1 as bv64) << (kind as bv6)
  {
    OrWithNothing(Mask(Shift(kind)), 0);
    assert MaskOf([kind]) == Or(0, Mask(Shift(kind)));
    OrIsSymmetric(0, Mask(Shift(kind)));
  }

  lemma OrIsSymmetric(a: bv64, b: bv64)
    ensures Or(a, b) == Or(b, a)
  {
  }

  /** The kind's own bit is set in the mask, or the mask is zero. */
  predicate BitAllows(mask: bv64, kind: nat) {
    mask == 0 || (kind < 64 && BitIsSet(mask, kind as bv6))
  }

  predicate BitIsSet(mask: bv64, bit: bv6) {
    mask & ((1 as bv64) << bit) != 0
  }

  lemma AllowsByBit(mask: bv64, kind: nat)
    ensures Allows(mask, kind) <==> BitAllows(mask, kind)
  {
    hide HasBit, BitIsSet;
    if kind < 64 {
      BitByShift(mask, kind as bv6);
    }
  }

  lemma BitByShift(mask: bv64, shift: bv6)
    ensures HasBit(mask, shift) <==> BitIsSet(mask, shift)
  {
  }

  /** The arcs a search follows: those of edges whose kind's bit is set, and of all
      edges when no bit is. */
  lemma LinkIsAllowedEdge(edges: seq<Edge>, n: nat, mask: bv64, u: nat, v: nat)
    requires u < n
    ensures Leads(LinksOf(edges, n, mask), u, v) <==>
      exists e | e in edges :: e.src == u && e.dst == v && BitAllows(mask, e.kind)
  {
    hide Allows, BitAllows;
    if Leads(LinksOf(edges, n, mask), u, v) {
      var arc :| arc in ArcsOf(edges, u) && Allows(mask, arc.kind) && arc.to == v;
      ArcIsEdge(edges, u, arc);
      AllowsByBit(mask, arc.kind);
      assert Edge(u, v, arc.kind) in edges;
    }
    if e :| e in edges && e.src == u && e.dst == v && BitAllows(mask, e.kind) {
      ArcIsEdge(edges, u, Arc(v, e.kind));
      AllowsByBit(mask, e.kind);
      assert Arc(v, e.kind) in ArcsOf(edges, u);
    }
  }

  lemma {:induction false} ArcIsEdge(edges: seq<Edge>, u: nat, arc: Arc)
    ensures arc in ArcsOf(edges, u) <==> Edge(u, arc.to, arc.kind) in edges
    decreases |edges|
  {
    if edges != [] {
      var before := edges[..|edges| - 1];
      ArcIsEdge(before, u, arc);
      assert edges == before + [edges[|edges| - 1]];
    }
  }

  /** A search for a list of kinds follows exactly the edges of those kinds. */
  lemma SearchFollowsListed(edges: seq<Edge>, n: nat, kinds: seq<nat>, u: nat, v: nat)
    requires u < n && kinds != [] && OneWord(kinds)
    ensures Leads(LinksOf(edges, n, MaskOf(kinds)), u, v) <==>
      exists kind | kind in kinds :: Edge(u, v, kind) in edges
  {
    hide Allows, MaskOf;
    var mask := MaskOf(kinds);
    if Leads(LinksOf(edges, n, mask), u, v) {
      var arc :| arc in ArcsOf(edges, u) && Allows(mask, arc.kind) && arc.to == v;
      ArcIsEdge(edges, u, arc);
      MaskAllowsListed(kinds, arc.kind);
      assert arc.kind in kinds && Edge(u, v, arc.kind) in edges;
    }
    if kind :| kind in kinds && Edge(u, v, kind) in edges {
      MaskAllowsListed(kinds, kind);
      ArcIsEdge(edges, u, Arc(v, kind));
      assert Arc(v, kind) in ArcsOf(edges, u) && Arc(v, kind).to == v;
    }
  }

  lemma LinksCoverNodes(edges: seq<Edge>, n: nat, mask: bv64)
    ensures |LinksOf(edges, n, mask)| == n
  {
  }

  /** A graph as the searches find it: built from `edges`, all inside it. */
  ghost predicate Built(g: Graph, edges: seq<Edge>)
    reads g.off, g.adj, g.kind
  {
    g.Holds(edges) && forall e | e in edges :: e.src < g.Nodes() && e.dst < g.Nodes()
  }

  lemma {:induction false} ArcsStayInside(edges: seq<Edge>, n: nat, u: nat, arc: Arc)
    requires (forall e | e in edges :: e.dst < n) && arc in ArcsOf(edges, u)
    ensures arc.to < n
    decreases |edges|
  {
    var before := edges[..|edges| - 1];
    if arc in ArcsOf(before, u) {
      ArcsStayInside(before, n, u, arc);
    }
  }

  lemma SliceBounds(g: Graph, edges: seq<Edge>, u: nat)
    requires Built(g, edges) && u < g.Nodes()
    ensures g.off[u] <= g.off[u + 1] <= g.adj.Length == g.kind.Length
  {
    hide ArcsOf, Start;
    assert g.off[u] <= g.off[u + 1] <= g.off[g.off.Length - 1];
  }

  lemma SliceAt(g: Graph, u: nat, i: nat)
    requires g.Shaped() && u < g.Nodes() && g.off[u] <= i < g.off[u + 1]
    ensures i < g.adj.Length && Arc(g.adj[i], g.kind[i]) in g.Slice(u)
  {
    assert g.Slice(u)[i - g.off[u]] == Arc(g.adj[i], g.kind[i]);
  }

  /** The arc stored at `i` is one of `u`'s links, if its kind is allowed. */
  lemma StoredArc(g: Graph, edges: seq<Edge>, mask: bv64, u: nat, i: nat)
    requires Built(g, edges) && u < g.Nodes() && g.off[u] <= i < g.off[u + 1]
    ensures i < g.adj.Length == g.kind.Length && g.adj[i] < g.Nodes()
    ensures Allows(mask, g.kind[i]) ==> Leads(LinksOf(edges, g.Nodes(), mask), u, g.adj[i])
  {
    hide ArcsOf, Start, Allows, Has;
    SliceBounds(g, edges, u);
    var arc := Arc(g.adj[i], g.kind[i]);
    SliceAt(g, u, i);
    assert arc in ArcsOf(edges, u);
    ArcsStayInside(edges, g.Nodes(), u, arc);
  }

  lemma IndexOf(g: Graph, u: nat, arc: Arc) returns (i: nat)
    requires g.Shaped() && u < g.Nodes() && arc in g.Slice(u)
    ensures g.off[u] <= i < g.off[u + 1] <= g.adj.Length && arc == Arc(g.adj[i], g.kind[i])
  {
    var k :| 0 <= k < |g.Slice(u)| && g.Slice(u)[k] == arc;
    i := g.off[u] + k;
  }

  /** Every link of `u` is stored somewhere in its slice. */
  lemma LinkIsStored(g: Graph, edges: seq<Edge>, mask: bv64, u: nat, v: nat) returns (i: nat)
    requires Built(g, edges) && u < g.Nodes() && Leads(LinksOf(edges, g.Nodes(), mask), u, v)
    ensures g.off[u] <= i < g.off[u + 1] <= g.adj.Length == g.kind.Length && g.adj[i] == v && Allows(mask, g.kind[i])
  {
    hide ArcsOf, Start, Allows, Has;
    SliceBounds(g, edges, u);
    var arc :| arc in ArcsOf(edges, u) && Allows(mask, arc.kind) && arc.to == v;
    assert g.Slice(u) == ArcsOf(edges, u);
    i := IndexOf(g, u, arc);
  }

  predicate Distinct(s: seq<nat>) {
    forall i, j | 0 <= i < j < |s| :: s[i] != s[j]
  }

  function SetOf(s: seq<nat>): set<nat> {
    set v | v in s
  }

  lemma {:induction false} DistinctCounts(s: seq<nat>)
    requires Distinct(s)
    ensures |SetOf(s)| == |s|
    decreases |s|
  {
    if s != [] {
      DistinctCounts(s[1..]);
      assert SetOf(s) == SetOf(s[1..]) + {s[0]};
    }
  }

  /** The nodes at most `k` arcs away, and those exactly `k` away. */
  ghost function Ball(links: Links, avoid: set<nat>, s: nat, k: nat): set<nat> {
    set v | 0 <= v < |links| && Within(links, avoid, s, k, v)
  }

  ghost function Sphere(links: Links, avoid: set<nat>, s: nat, k: nat): set<nat> {
    set v | 0 <= v < |links| && First(links, avoid, s, k, v)
  }

  /** What one level's expansion has found: new nodes only, all one arc further. */
  ghost predicate Found(links: Links, avoid: set<nat>, s: nat, depth: nat, members: set<nat>, next: seq<nat>) {
    && Distinct(next)
    && members == avoid + Ball(links, avoid, s, depth) + SetOf(next)
    && forall v | v in next :: v < |links| && v !in avoid && First(links, avoid, s, depth + 1, v)
  }

  /** A link out of the last level leads back, into `avoid`, or one level on. */
  lemma OneFurther(links: Links, avoid: set<nat>, s: nat, depth: nat, u: nat, v: nat)
    requires Within(links, avoid, s, depth, u) && Leads(links, u, v)
    ensures v in avoid || Within(links, avoid, s, depth, v) || First(links, avoid, s, depth + 1, v)
  {
  }

  lemma FoundOneMore(links: Links, avoid: set<nat>, s: nat, depth: nat, members: set<nat>, next: seq<nat>, u: nat, v: nat)
    requires Found(links, avoid, s, depth, members, next) && v !in members && v < |links|
    requires Within(links, avoid, s, depth, u) && Leads(links, u, v)
    ensures Found(links, avoid, s, depth, members + {v}, next + [v])
  {
    hide Within, First;
    OneFurther(links, avoid, s, depth, u, v);
    assert SetOf(next + [v]) == SetOf(next) + {v};
    assert v !in next;
  }

  /** Depths are kept modulo 256, for the nodes newly found. */
  ghost predicate Stamps(was: seq<nat>, now: seq<nat>, depth: nat, found: seq<nat>) {
    |now| == |was| && forall v | 0 <= v < |now| :: now[v] == if v in found then (depth + 1) % 256 else was[v]
  }

  ghost function Contents(dist: array?<nat>): seq<nat>
    reads dist
  {
    if dist == null then [] else dist[..]
  }

  lemma StampNothing(was: seq<nat>, depth: nat)
    ensures Stamps(was, was, depth, [])
  {
  }

  lemma StampOneMore(was: seq<nat>, now: seq<nat>, depth: nat, before: seq<nat>, next: seq<nat>, v: nat)
    requires before <= next && Stamps(was, now, depth, next[|before|..]) && (now == [] || v < |now|)
    ensures before <= next + [v]
    ensures Stamps(was, if now == [] then now else now[v := (depth + 1) % 256], depth, (next + [v])[|before|..])
  {
    assert (next + [v])[|before|..] == next[|before|..] + [v];
  }

  /** The search writes to neither the graph nor, through one of its arrays, the
      other. */
  ghost predicate Apart(g: Graph, visited: Bitset, dist: array?<nat>) {
    && (visited.words as object) !in {g.off as object, g.adj, g.kind}
    && (dist != null ==> dist.Length == g.Nodes() && (dist as object) !in {g.off as object, g.adj, g.kind, visited.words})
  }

  /** Visits the node at the end of an allowed arc out of `u`. */
  method Visit(visited: Bitset, dist: array?<nat>, v: nat, depth: nat, next: seq<nat>, ghost was: seq<nat>, ghost before: seq<nat>,
               ghost links: Links, ghost avoid: set<nat>, ghost s: nat, ghost u: nat)
    returns (next': seq<nat>)
    requires visited.Holds(|links|) && v < |links| && Within(links, avoid, s, depth, u) && Leads(links, u, v)
    requires dist != null ==> dist.Length == |links| && (dist as object) != visited.words
    requires Found(links, avoid, s, depth, visited.Members(), next) && before <= next
    requires Stamps(was, Contents(dist), depth, next[|before|..])
    modifies visited.words, if dist == null then {} else {dist}
    ensures Found(links, avoid, s, depth, visited.Members(), next') && before <= next'
    ensures Stamps(was, Contents(dist), depth, next'[|before|..])
    ensures visited.Members() == old(visited.Members()) + {v}
  {
    hide Within, First, Bitset.Members, Found, Stamps;
    next' := next;
    if !visited.Test(v) {
      FoundOneMore(links, avoid, s, depth, visited.Members(), next, u, v);
      StampOneMore(was, Contents(dist), depth, before, next, v);
      visited.Set(v);
      if dist != null {
        dist[v] := (depth + 1) % 256;
      }
      next' := next + [v];
    }
  }

  /** Expands one node of the frontier. */
  method ExpandNode(g: Graph, ghost edges: seq<Edge>, mask: bv64, u: nat, depth: nat, visited: Bitset, dist: array?<nat>,
                    before: seq<nat>, ghost links: Links, ghost avoid: set<nat>, ghost s: nat)
    returns (next: seq<nat>)
    requires Built(g, edges) && u < g.Nodes() && visited.Holds(g.Nodes()) && links == LinksOf(edges, g.Nodes(), mask)
    requires Apart(g, visited, dist)
    requires Within(links, avoid, s, depth, u)
    requires Found(links, avoid, s, depth, visited.Members(), before)
    modifies visited.words, if dist == null then {} else {dist}
    ensures Built(g, edges)
    ensures Found(links, avoid, s, depth, visited.Members(), next) && before <= next
    ensures old(visited.Members()) <= visited.Members()
    ensures forall v | Leads(links, u, v) :: v in visited.Members()
    ensures Stamps(old(Contents(dist)), Contents(dist), depth, next[|before|..])
  {
    hide LinksOf, ArcsOf, Start, Allows, Has, Within, First, Bitset.Members, Ball, Graph.Holds, Found, Stamps;
    LinksCoverNodes(edges, g.Nodes(), mask);
    next := before;
    ghost var was := Contents(dist);
    StampNothing(was, depth);
    assert next[|before|..] == [];
    SliceBounds(g, edges, u);
    for i := g.off[u] to g.off[u + 1]
      invariant Built(g, edges)
      invariant Found(links, avoid, s, depth, visited.Members(), next) && before <= next
      invariant old(visited.Members()) <= visited.Members()
      invariant forall k | g.off[u] <= k < i && Allows(mask, g.kind[k]) :: g.adj[k] in visited.Members()
      invariant Stamps(was, Contents(dist), depth, next[|before|..])
    {
      StoredArc(g, edges, mask, u, i);
      if Allows(mask, g.kind[i]) {
        next := Visit(visited, dist, g.adj[i], depth, next, was, before, links, avoid, s, u);
      }
    }
    forall v | Leads(links, u, v)
      ensures v in visited.Members()
    {
      var k := LinkIsStored(g, edges, mask, u, v);
    }
  }

  lemma StampsCompose(was: seq<nat>, mid: seq<nat>, now: seq<nat>, depth: nat, before: seq<nat>, next: seq<nat>)
    requires before <= next && Stamps(was, mid, depth, before) && Stamps(mid, now, depth, next[|before|..])
    ensures Stamps(was, now, depth, next)
  {
    assert next == before + next[|before|..];
  }

  lemma LinksStayInside(edges: seq<Edge>, n: nat, mask: bv64, u: nat, v: nat)
    requires (forall e | e in edges :: e.dst < n) && Leads(LinksOf(edges, n, mask), u, v)
    ensures v < n
  {
    hide ArcsOf, Allows, Has;
    var arc :| arc in ArcsOf(edges, u) && Allows(mask, arc.kind) && arc.to == v;
    ArcsStayInside(edges, n, u, arc);
  }

  lemma LinksInside(g: Graph, edges: seq<Edge>, mask: bv64)
    requires Built(g, edges)
    ensures forall u: nat, v: nat | Leads(LinksOf(edges, g.Nodes(), mask), u, v) :: v < g.Nodes()
  {
    hide LinksOf, ArcsOf, Start, Leads;
    forall u: nat, v: nat | Leads(LinksOf(edges, g.Nodes(), mask), u, v)
      ensures v < g.Nodes()
    {
      LinksStayInside(edges, g.Nodes(), mask, u, v);
    }
  }

  /** The frontier at a depth: the nodes exactly that far away, once each. */
  ghost predicate IsFrontier(links: Links, avoid: set<nat>, s: nat, depth: nat, frontier: seq<nat>) {
    && Distinct(frontier)
    && (forall v | v in frontier :: v < |links|)
    && (forall v :: First(links, avoid, s, depth, v) <==> v in frontier)
  }

  /** Once every link out of a frontier is in, the level after it is complete. */
  lemma LevelIsComplete(links: Links, avoid: set<nat>, s: nat, depth: nat, frontier: seq<nat>, members: set<nat>, next: seq<nat>)
    requires IsFrontier(links, avoid, s, depth, frontier) && Found(links, avoid, s, depth, members, next)
    requires forall u, v | u in frontier && Leads(links, u, v) :: v in members
    requires forall u: nat, v: nat | Leads(links, u, v) :: v < |links|
    ensures IsFrontier(links, avoid, s, depth + 1, next)
    ensures members == avoid + Ball(links, avoid, s, depth + 1)
  {
    forall v | First(links, avoid, s, depth + 1, v)
      ensures v in next
    {
      var u :| Within(links, avoid, s, depth, u) && Leads(links, u, v);
      if depth > 0 && Within(links, avoid, s, depth - 1, u) {
        assert false;
      }
      assert First(links, avoid, s, depth, u) && u in frontier;
    }
    forall v: nat
      ensures v in Ball(links, avoid, s, depth + 1) <==> v in Ball(links, avoid, s, depth) || v in next
    {
    }
  }

  /** How many arcs leave the listed nodes. */
  function Degrees(edges: seq<Edge>, nodes: seq<nat>): nat {
    if nodes == [] then 0
    else Degrees(edges, nodes[..|nodes| - 1]) + |ArcsOf(edges, nodes[|nodes| - 1])|
  }

  lemma {:induction false} DegreesAdd(edges: seq<Edge>, a: seq<nat>, b: seq<nat>)
    ensures Degrees(edges, a + b) == Degrees(edges, a) + Degrees(edges, b)
    decreases |b|
  {
    if b == [] {
      assert a + b == a;
    } else {
      assert (a + b)[..|a + b| - 1] == a + b[..|b| - 1];
      DegreesAdd(edges, a, b[..|b| - 1]);
    }
  }

  lemma OneMoreDegree(g: Graph, edges: seq<Edge>, nodes: seq<nat>, j: nat)
    requires Built(g, edges) && j < |nodes| && nodes[j] < g.Nodes()
    ensures Degrees(edges, nodes[..j + 1]) == Degrees(edges, nodes[..j]) + g.off[nodes[j] + 1] - g.off[nodes[j]]
    ensures Degrees(edges, nodes[..0]) == 0
  {
    assert nodes[..j + 1][..j] == nodes[..j];
    SliceBounds(g, edges, nodes[j]);
    assert |g.Slice(nodes[j])| == |ArcsOf(edges, nodes[j])|;
  }

  /** Expands a whole frontier into the next one. */
  method ExpandLevel(g: Graph, ghost edges: seq<Edge>, mask: bv64, frontier: seq<nat>, depth: nat, visited: Bitset,
                     dist: array?<nat>, ghost links: Links, ghost avoid: set<nat>, ghost s: nat)
    returns (next: seq<nat>, scanned: nat)
    requires Built(g, edges) && visited.Holds(g.Nodes()) && links == LinksOf(edges, g.Nodes(), mask)
    requires Apart(g, visited, dist)
    requires IsFrontier(links, avoid, s, depth, frontier) && |links| == g.Nodes()
    requires visited.Members() == avoid + Ball(links, avoid, s, depth)
    modifies visited.words, if dist == null then {} else {dist}
    ensures Built(g, edges)
    ensures IsFrontier(links, avoid, s, depth + 1, next)
    ensures visited.Members() == avoid + Ball(links, avoid, s, depth + 1)
    ensures Stamps(old(Contents(dist)), Contents(dist), depth, next)
    ensures scanned == Degrees(edges, frontier)
  {
    hide LinksOf, ArcsOf, Start, Allows, Has, Within, Bitset.Members, Ball, Graph.Holds, Stamps, Degrees, Found;
    next, scanned := [], 0;
    ghost var was := Contents(dist);
    StampNothing(was, depth);
    NothingFound(links, avoid, s, depth, edges, frontier);
    for j := 0 to |frontier|
      invariant Built(g, edges)
      invariant Found(links, avoid, s, depth, visited.Members(), next)
      invariant forall u, v | u in frontier[..j] && Leads(links, u, v) :: v in visited.Members()
      invariant Stamps(was, Contents(dist), depth, next)
      invariant scanned == Degrees(edges, frontier[..j])
    {
      var u := frontier[j];
      assert u in frontier && First(links, avoid, s, depth, u);
      OneMoreDegree(g, edges, frontier, j);
      scanned := scanned + g.off[u + 1] - g.off[u];
      ghost var before, mid := next, Contents(dist);
      next := ExpandNode(g, edges, mask, u, depth, visited, dist, next, links, avoid, s);
      StampsCompose(was, mid, Contents(dist), depth, before, next);
    }
    assert frontier[..|frontier|] == frontier;
    LinksInside(g, edges, mask);
    LevelIsComplete(links, avoid, s, depth, frontier, visited.Members(), next);
  }

  lemma NothingFound(links: Links, avoid: set<nat>, s: nat, depth: nat, edges: seq<Edge>, nodes: seq<nat>)
    ensures Degrees(edges, nodes[..0]) == 0
    ensures Found(links, avoid, s, depth, avoid + Ball(links, avoid, s, depth), [])
  {
  }

  // ---- The whole search -----------------------------------------------------

  /** `v` can be reached within the depth limit; a negative limit is none. */
  ghost predicate Reached(links: Links, avoid: set<nat>, s: nat, maxDepth: int, v: nat) {
    exists k: nat :: (maxDepth < 0 || k <= maxDepth) && Within(links, avoid, s, k, v)
  }

  function Sum(levels: seq<nat>): nat {
    if levels == [] then 0 else Sum(levels[..|levels| - 1]) + levels[|levels| - 1]
  }

  lemma SumMore(levels: seq<nat>, level: nat)
    ensures Sum(levels + [level]) == Sum(levels) + level
  {
    assert (levels + [level])[..|levels|] == levels;
  }

  /** After `depth` levels: what has been visited, stamped, counted and scanned. */
  ghost predicate Searched(links: Links, avoid: set<nat>, s: nat, depth: nat, frontier: seq<nat>, levels: seq<nat>, visitedN: nat) {
    && IsFrontier(links, avoid, s, depth, frontier)
    && |levels| == depth && (forall k | 0 <= k < depth :: levels[k] == |Sphere(links, avoid, s, k)| > 0)
    && visitedN == Sum(levels) + |frontier| == |Ball(links, avoid, s, depth)|
  }

  /** Every node found so far carries its own depth, the rest what they had. */
  ghost predicate Depths(links: Links, avoid: set<nat>, s: nat, depth: nat, was: seq<nat>, now: seq<nat>) {
    && |now| == |was|
    && (forall k: nat, v | 0 <= v < |now| && k <= depth && First(links, avoid, s, k, v) :: now[v] == k % 256)
    && (forall v | 0 <= v < |now| && !Within(links, avoid, s, depth, v) :: now[v] == was[v])
  }

  lemma DepthsGoOn(links: Links, avoid: set<nat>, s: nat, depth: nat, was: seq<nat>, mid: seq<nat>, now: seq<nat>, next: seq<nat>)
    requires Depths(links, avoid, s, depth, was, mid) && Stamps(mid, now, depth, next)
    requires IsFrontier(links, avoid, s, depth + 1, next)
    ensures Depths(links, avoid, s, depth + 1, was, now)
  {
    forall k: nat, v | 0 <= v < |now| && k <= depth && First(links, avoid, s, k, v)
      ensures v !in next
    {
      WithinLonger(links, avoid, s, k, depth, v);
    }
  }

  lemma FrontierCounts(links: Links, avoid: set<nat>, s: nat, depth: nat, frontier: seq<nat>)
    requires IsFrontier(links, avoid, s, depth, frontier)
    ensures |frontier| == |Sphere(links, avoid, s, depth)| <= |Ball(links, avoid, s, depth)| <= |links|
    ensures depth > 0 ==> |Ball(links, avoid, s, depth)| == |Ball(links, avoid, s, depth - 1)| + |frontier|
  {
    DistinctCounts(frontier);
    assert SetOf(frontier) == Sphere(links, avoid, s, depth);
    var ball := Ball(links, avoid, s, depth);
    assert Sphere(links, avoid, s, depth) <= ball;
    SubsetCounts(Sphere(links, avoid, s, depth), ball);
    NumbersBelow(ball, |links|);
    if depth > 0 {
      var inner := Ball(links, avoid, s, depth - 1);
      assert ball == inner + Sphere(links, avoid, s, depth) && inner !! Sphere(links, avoid, s, depth);
    }
  }

  lemma SubsetCounts(a: set<nat>, b: set<nat>)
    requires a <= b
    ensures |a| <= |b|
  {
    assert b == a + (b - a) && a !! (b - a);
  }

  lemma {:induction false} NumbersBelow(a: set<nat>, n: nat)
    requires forall v | v in a :: v < n
    ensures |a| <= n
    decreases n
  {
    if n == 0 {
      assert a == {};
    } else {
      NumbersBelow(a - {n - 1}, n - 1);
    }
  }

  lemma FirstLevel(links: Links, avoid: set<nat>, s: nat)
    requires s < |links|
    ensures Searched(links, avoid, s, 0, [s], [], 1) && Ball(links, avoid, s, 0) == {s}
  {
    assert Ball(links, avoid, s, 0) == {s};
  }

  lemma NextLevel(links: Links, avoid: set<nat>, s: nat, depth: nat, frontier: seq<nat>, levels: seq<nat>, visitedN: nat, next: seq<nat>)
    requires Searched(links, avoid, s, depth, frontier, levels, visitedN) && frontier != []
    requires IsFrontier(links, avoid, s, depth + 1, next)
    ensures Searched(links, avoid, s, depth + 1, next, levels + [|frontier|], visitedN + |next|)
    ensures visitedN + |next| <= |links|
  {
    hide IsFrontier;
    FrontierCounts(links, avoid, s, depth, frontier);
    FrontierCounts(links, avoid, s, depth + 1, next);
    SumMore(levels, |frontier|);
  }

  /** When the search stops, it has gone as far as any way goes, or as the depth
      limit lets it. */
  lemma SearchIsComplete(links: Links, avoid: set<nat>, s: nat, maxDepth: int, depth: nat, frontier: seq<nat>)
    requires IsFrontier(links, avoid, s, depth, frontier) && (maxDepth < 0 || depth <= maxDepth)
    requires frontier == [] || depth == maxDepth
    ensures forall v :: Within(links, avoid, s, depth, v) <==> Reached(links, avoid, s, maxDepth, v)
    ensures forall k: nat, v | First(links, avoid, s, k, v) && (maxDepth < 0 || k <= maxDepth) :: k <= depth
  {
    forall v, k: nat | (maxDepth < 0 || k <= maxDepth) && Within(links, avoid, s, k, v)
      ensures Within(links, avoid, s, depth, v)
      ensures First(links, avoid, s, k, v) ==> k <= depth
    {
      if k <= depth {
        WithinLonger(links, avoid, s, k, depth, v);
      } else {
        assert First(links, avoid, s, 0, s);
        NothingNewStaysSo(links, avoid, s, depth, k, v);
        WithinLonger(links, avoid, s, depth - 1, depth, v);
        WithinLonger(links, avoid, s, depth, k - 1, v);
      }
    }
  }

  /** The nodes whose arcs a search looks at: those above its depth limit. */
  ghost predicate Scans(links: Links, avoid: set<nat>, s: nat, maxDepth: int, expanded: seq<nat>) {
    && Distinct(expanded)
    && forall v :: v in expanded <==> exists k: nat :: (maxDepth < 0 || k < maxDepth) && Within(links, avoid, s, k, v)
  }

  ghost predicate Expanded(links: Links, avoid: set<nat>, s: nat, depth: nat, expanded: seq<nat>) {
    Distinct(expanded) && forall v :: v in expanded <==> depth > 0 && Within(links, avoid, s, depth - 1, v)
  }

  lemma ExpandMore(links: Links, avoid: set<nat>, s: nat, depth: nat, expanded: seq<nat>, frontier: seq<nat>)
    requires Expanded(links, avoid, s, depth, expanded) && IsFrontier(links, avoid, s, depth, frontier)
    ensures Expanded(links, avoid, s, depth + 1, expanded + frontier)
  {
    var both := expanded + frontier;
    forall i, j | 0 <= i < j < |both|
      ensures both[i] != both[j]
    {
      if i < |expanded| <= j {
        assert both[i] in expanded && both[j] in frontier && First(links, avoid, s, depth, both[j]);
      }
    }
    forall v: nat
      ensures v in both <==> Within(links, avoid, s, depth, v)
    {
      assert First(links, avoid, s, depth, v) <==> v in frontier;
      if depth > 0 && Within(links, avoid, s, depth - 1, v) {
        WithinLonger(links, avoid, s, depth - 1, depth, v);
      }
    }
  }

  lemma AllExpanded(links: Links, avoid: set<nat>, s: nat, maxDepth: int, depth: nat, expanded: seq<nat>, frontier: seq<nat>)
    requires Expanded(links, avoid, s, depth, expanded) && IsFrontier(links, avoid, s, depth, frontier)
    requires (maxDepth < 0 || depth <= maxDepth) && (frontier == [] || depth == maxDepth)
    ensures Scans(links, avoid, s, maxDepth, expanded)
  {
    forall v: nat
      ensures v in expanded <==> exists k: nat :: (maxDepth < 0 || k < maxDepth) && Within(links, avoid, s, k, v)
    {
      if v in expanded {
        var k: nat := depth - 1;
        assert (maxDepth < 0 || k < maxDepth) && Within(links, avoid, s, k, v);
      }
      if k: nat :| (maxDepth < 0 || k < maxDepth) && Within(links, avoid, s, k, v) {
        if k < depth {
          WithinLonger(links, avoid, s, k, depth - 1, v);
        } else {
          assert First(links, avoid, s, 0, s);
          NothingNewStaysSo(links, avoid, s, depth, k, v);
        }
      }
    }
  }

  /** What the levels of a finished search are. */
  ghost predicate AreLevels(links: Links, avoid: set<nat>, s: nat, maxDepth: int, levels: seq<nat>, visitedN: nat) {
    && (forall k: nat :: k < |levels| <==> (maxDepth < 0 || k <= maxDepth) && Sphere(links, avoid, s, k) != {})
    && (forall k | 0 <= k < |levels| :: levels[k] == |Sphere(links, avoid, s, k)|)
    && Sum(levels) == visitedN == |set v | 0 <= v < |links| && Reached(links, avoid, s, maxDepth, v)|
  }

  lemma LevelsAreComplete(links: Links, avoid: set<nat>, s: nat, maxDepth: int, depth: nat, frontier: seq<nat>,
                          levels: seq<nat>, visitedN: nat)
    requires Searched(links, avoid, s, depth, frontier, levels, visitedN) && (maxDepth < 0 || depth <= maxDepth)
    requires frontier == [] || depth == maxDepth
    ensures AreLevels(links, avoid, s, maxDepth, if frontier == [] then levels else levels + [|frontier|], visitedN)
  {
    var all := if frontier == [] then levels else levels + [|frontier|];
    SearchIsComplete(links, avoid, s, maxDepth, depth, frontier);
    FrontierCounts(links, avoid, s, depth, frontier);
    SumMore(levels, |frontier|);
    assert Ball(links, avoid, s, depth) == set v | 0 <= v < |links| && Reached(links, avoid, s, maxDepth, v);
    forall k: nat
      ensures k < |all| <==> (maxDepth < 0 || k <= maxDepth) && Sphere(links, avoid, s, k) != {}
    {
      if k > depth && (maxDepth < 0 || k <= maxDepth) {
        assert forall v :: !First(links, avoid, s, k, v);
      }
    }
  }

  lemma Conclude(links: Links, avoid: set<nat>, s: nat, maxDepth: int, depth: nat, frontier: seq<nat>, members: set<nat>,
                 was: seq<nat>, now: seq<nat>)
    requires IsFrontier(links, avoid, s, depth, frontier) && (maxDepth < 0 || depth <= maxDepth)
    requires (frontier == [] || depth == maxDepth) && s < |links|
    requires forall u: nat, v: nat | Leads(links, u, v) :: v < |links|
    requires members == avoid + Ball(links, avoid, s, depth) && Depths(links, avoid, s, depth, was, now)
    ensures forall v: nat :: v in members <==> v in avoid || Reached(links, avoid, s, maxDepth, v)
    ensures forall k: nat, v | 0 <= v < |now| && First(links, avoid, s, k, v) && (maxDepth < 0 || k <= maxDepth) :: now[v] == k % 256
    ensures forall v | 0 <= v < |now| && !Reached(links, avoid, s, maxDepth, v) :: now[v] == was[v]
  {
    SearchIsComplete(links, avoid, s, maxDepth, depth, frontier);
    forall v: nat | Within(links, avoid, s, depth, v)
      ensures v < |links|
    {
      WithinInside(links, avoid, s, depth, v);
    }
  }

  lemma {:induction false} WithinInside(links: Links, avoid: set<nat>, s: nat, k: nat, v: nat)
    requires s < |links| && forall u: nat, w: nat | Leads(links, u, w) :: w < |links|
    requires Within(links, avoid, s, k, v)
    ensures v < |links|
    decreases k
  {
    if k > 0 && Within(links, avoid, s, k - 1, v) {
      WithinInside(links, avoid, s, k - 1, v);
    }
  }

  /** Visits the start. */
  method Begin(g: Graph, ghost edges: seq<Edge>, start: nat, visited: Bitset, dist: array?<nat>, ghost links: Links,
               ghost avoid: set<nat>)
    requires Built(g, edges) && start < g.Nodes() && visited.Holds(g.Nodes()) && Apart(g, visited, dist)
    requires avoid == visited.Members()
    modifies visited.words, if dist == null then {} else {dist}
    ensures Built(g, edges) && visited.Members() == avoid + {start}
    ensures Depths(links, avoid, start, 0, old(Contents(dist)), Contents(dist))
    ensures Expanded(links, avoid, start, 0, []) && Degrees(edges, []) == 0
  {
    hide ArcsOf, Start, Bitset.Members;
    visited.Set(start);
    if dist != null {
      dist[start] := 0;
    }
  }

  /** Breadth-first from `start`. Nodes already in `visited` are not entered. */
  method Search(g: Graph, ghost edges: seq<Edge>, start: nat, mask: bv64, maxDepth: int, visited: Bitset, dist: array?<nat>)
    returns (levels: seq<nat>, visitedN: nat, scanned: nat, ghost expanded: seq<nat>)
    requires Built(g, edges) && start < g.Nodes() && visited.Holds(g.Nodes()) && Apart(g, visited, dist)
    modifies visited.words, if dist == null then {} else {dist}
    ensures
      var links, avoid := LinksOf(edges, g.Nodes(), mask), old(visited.Members());
      && (forall v: nat :: v in visited.Members() <==> v in avoid || Reached(links, avoid, start, maxDepth, v))
      && AreLevels(links, avoid, start, maxDepth, levels, visitedN)
      && Scans(links, avoid, start, maxDepth, expanded) && scanned == Degrees(edges, expanded)
      && (dist != null ==>
            && (forall k: nat, v | 0 <= v < dist.Length && First(links, avoid, start, k, v) && (maxDepth < 0 || k <= maxDepth) ::
                  dist[v] == k % 256)
            && (forall v | 0 <= v < dist.Length && !Reached(links, avoid, start, maxDepth, v) :: dist[v] == old(dist[v])))
  {
    hide LinksOf, ArcsOf, Start, Bitset.Members, Ball, Built, Degrees, Sum, Sphere, IsFrontier, Depths, Expanded, AreLevels, Scans;
    ghost var links, avoid, was := LinksOf(edges, g.Nodes(), mask), visited.Members(), Contents(dist);
    LinksCoverNodes(edges, g.Nodes(), mask);
    FirstLevel(links, avoid, start);
    var frontier := [start];
    Begin(g, edges, start, visited, dist, links, avoid);
    levels, visitedN, scanned, expanded := [], 1, 0, [];
    var depth := 0;
    while |frontier| > 0 && (maxDepth < 0 || depth < maxDepth)
      invariant Built(g, edges) && (maxDepth < 0 || depth <= maxDepth)
      invariant Searched(links, avoid, start, depth, frontier, levels, visitedN) && visitedN <= |links|
      invariant visited.Members() == avoid + Ball(links, avoid, start, depth)
      invariant Depths(links, avoid, start, depth, was, Contents(dist))
      invariant Expanded(links, avoid, start, depth, expanded) && scanned == Degrees(edges, expanded)
      decreases |links| - visitedN, |frontier|
    {
      levels := levels + [|frontier|];
      ghost var mid := Contents(dist);
      var next, looked := ExpandLevel(g, edges, mask, frontier, depth, visited, dist, links, avoid, start);
      NextLevel(links, avoid, start, depth, frontier, levels[..depth], visitedN, next);
      DepthsGoOn(links, avoid, start, depth, was, mid, Contents(dist), next);
      ExpandMore(links, avoid, start, depth, expanded, frontier);
      DegreesAdd(edges, expanded, frontier);
      scanned, expanded := scanned + looked, expanded + frontier;
      visitedN := visitedN + |next|;
      frontier := next;
      depth := depth + 1;
    }
    LinksInside(g, edges, mask);
    Conclude(links, avoid, start, maxDepth, depth, frontier, visited.Members(), was, Contents(dist));
    LevelsAreComplete(links, avoid, start, maxDepth, depth, frontier, levels, visitedN);
    AllExpanded(links, avoid, start, maxDepth, depth, expanded, frontier);
    if |frontier| > 0 {
      levels := levels + [|frontier|];
    }
  }
}
