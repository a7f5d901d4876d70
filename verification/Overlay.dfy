/** The replica's read surface -- a base snapshot under a stack of delta
    segments, newest record wins -- and how one Apply turns a read-back result
    into the next segment. */
module Overlay {
  import opened GraphStore

  /** One delta segment. A record holding None is a tombstone. */
  datatype Segment = Segment(nodes: map<NodeId, Option<NodeRow>>, edges: map<EdgeId, Option<EdgeRow>>)

  /** The graph seen through one segment laid over another graph. */
  function Layer(under: Graph, top: Segment): Graph {
    Graph(
      map n | n in under.nodes.Keys + top.nodes.Keys && (n in top.nodes ==> top.nodes[n].Some?)
        :: if n in top.nodes then top.nodes[n].value else under.nodes[n],
      map e | e in under.edges.Keys + top.edges.Keys && (e in top.edges ==> top.edges[e].Some?)
        :: if e in top.edges then top.edges[e].value else under.edges[e])
  }

  datatype View = View(base: Graph, segments: seq<Segment>) {
    /** Segments are held oldest first. */
    function Effective(): Graph
      decreases |segments|
    {
      if segments == [] then base
      else Layer(View(base, segments[..|segments| - 1]).Effective(), segments[|segments| - 1])
    }

    function WithSegment(top: Segment): View {
      View(base, segments + [top])
    }
  }

  /** Publishing a segment changes the effective graph by exactly that segment. */
  lemma WithSegmentLayers(view: View, top: Segment)
    ensures view.WithSegment(top).Effective() == Layer(view.Effective(), top)
  {
    var next := view.WithSegment(top);
    assert next.segments[..|next.segments| - 1] == view.segments;
  }

  /** The newest segment at or after `from` that carries a record for edge `e`. */
  function NewestEdgeRecord(segments: seq<Segment>, from: nat, e: EdgeId): Option<Option<EdgeRow>>
    requires from <= |segments|
    decreases |segments| - from
  {
    if from == |segments| then None
    else
      var later := NewestEdgeRecord(segments, from + 1, e);
      if later.Some? then later
      else if e in segments[from].edges then Some(segments[from].edges[e])
      else None
  }

  lemma {:induction false} NewestOfPrefix(segments: seq<Segment>, top: Segment, from: nat, e: EdgeId)
    requires from <= |segments|
    ensures NewestEdgeRecord(segments + [top], from, e)
         == if e in top.edges then Some(top.edges[e]) else NewestEdgeRecord(segments, from, e)
    decreases |segments| - from
  {
    if from == |segments| {
      assert NewestEdgeRecord(segments + [top], from + 1, e) == None;
    } else {
      NewestOfPrefix(segments, top, from + 1, e);
    }
  }

  /** Newest wins: an edge's effective row is its newest segment record, and the
      base row only when no segment carries one. */
  lemma {:induction false} EffectiveIsNewest(view: View, e: EdgeId)
    ensures view.Effective().Edge(e) ==
      match NewestEdgeRecord(view.segments, 0, e)
      case Some(record) => record
      case None => view.base.Edge(e)
    decreases |view.segments|
  {
    if view.segments != [] {
      var under := view.segments[..|view.segments| - 1];
      var top := view.segments[|view.segments| - 1];
      assert view.segments == under + [top];
      NewestOfPrefix(under, top, 0, e);
      EffectiveIsNewest(View(view.base, under), e);
    }
  }

  /** The same for a node: the newest record at or after `from`. */
  function NewestNodeRecord(segments: seq<Segment>, from: nat, n: NodeId): Option<Option<NodeRow>>
    requires from <= |segments|
    decreases |segments| - from
  {
    if from == |segments| then None
    else
      var later := NewestNodeRecord(segments, from + 1, n);
      if later.Some? then later
      else if n in segments[from].nodes then Some(segments[from].nodes[n])
      else None
  }

  lemma {:induction false} NewestNodeOfPrefix(segments: seq<Segment>, top: Segment, from: nat, n: NodeId)
    requires from <= |segments|
    ensures NewestNodeRecord(segments + [top], from, n)
         == if n in top.nodes then Some(top.nodes[n]) else NewestNodeRecord(segments, from, n)
    decreases |segments| - from
  {
    if from == |segments| {
      assert NewestNodeRecord(segments + [top], from + 1, n) == None;
    } else {
      NewestNodeOfPrefix(segments, top, from + 1, n);
    }
  }

  lemma {:induction false} EffectiveNodeIsNewest(view: View, n: NodeId)
    ensures view.Effective().Node(n) ==
      match NewestNodeRecord(view.segments, 0, n)
      case Some(record) => record
      case None => view.base.Node(n)
    decreases |view.segments|
  {
    if view.segments != [] {
      var under := view.segments[..|view.segments| - 1];
      var top := view.segments[|view.segments| - 1];
      assert view.segments == under + [top];
      NewestNodeOfPrefix(under, top, 0, n);
      EffectiveNodeIsNewest(View(view.base, under), n);
    }
  }

  /** What read-back found for one write: present rows, and the keys it found
      no row for. */
  datatype ReadBack = ReadBack(
    nodes: map<NodeId, NodeRow>,
    absentNodes: set<NodeId>,
    edges: map<EdgeId, EdgeRow>,
    absentEdges: set<EdgeId>,
    absentTriples: set<EdgeRow>)
  {
    predicate AnsweredNode(n: NodeId) {
      n in nodes || n in absentNodes
    }

    predicate AnsweredEdge(e: EdgeId) {
      e in edges || e in absentEdges
    }
  }

  /** The visible edges of `g` that a deleted node takes with it. */
  function Cascade(g: Graph, gone: set<NodeId>): set<EdgeId> {
    set e | e in g.edges && g.Shows(e) && (g.edges[e].start in gone || g.edges[e].end in gone)
  }

  /** The visible edges of `g` matching a triple PostgreSQL holds no edge for. */
  function TripleHits(g: Graph, triples: set<EdgeRow>): set<EdgeId> {
    set e | e in g.edges && g.Shows(e) && g.edges[e] in triples
  }

  /** The segment Apply publishes: a tombstone for every absent key, for the
      cascade of every absent node and for every edge an absent triple matches,
      overruled by every row that was found. */
  function SegmentOf(g: Graph, rb: ReadBack): Segment {
    Segment(
      map n | n in rb.absentNodes + rb.nodes.Keys :: if n in rb.nodes then Some(rb.nodes[n]) else None,
      map e | e in rb.absentEdges + Cascade(g, rb.absentNodes) + TripleHits(g, rb.absentTriples) + rb.edges.Keys
        :: if e in rb.edges then Some(rb.edges[e]) else None)
  }

  /** What publishing makes of every row. A found row is there as it was found. An
      id found on no row is gone. So is a visible edge of a node that is gone, or of
      a triple found on no row, unless its own row was found. All else stays. */
  lemma PublishedRows(g: Graph, rb: ReadBack)
    ensures
      var after := Layer(g, SegmentOf(g, rb));
      && (forall n :: after.Node(n) ==
            if n in rb.nodes then Some(rb.nodes[n]) else if n in rb.absentNodes then None else g.Node(n))
      && (forall e | e in rb.edges :: after.Edge(e) == Some(rb.edges[e]))
      && (forall e | e in rb.absentEdges && e !in rb.edges :: after.Edge(e) == None)
      && (forall e | e !in rb.edges && e !in rb.absentEdges ::
            after.Edge(e) ==
            if g.Shows(e) && (g.edges[e] in rb.absentTriples || exists n | n in rb.absentNodes :: g.edges[e].Touches(n))
            then None else g.Edge(e))
  {
  }

  /** Accumulates one commit's node and edge states; the last call made for an
      id decides its state. */
  class SegmentBuilder {
    var nodes: map<NodeId, Option<NodeRow>>
    var edges: map<EdgeId, Option<EdgeRow>>

    constructor ()
      ensures nodes == map[] && edges == map[]
    {
      nodes, edges := map[], map[];
    }

    /** Refuses a row whose property bag does not parse, staging nothing. */
    method AddNodeState(n: NodeId, row: NodeRow, parses: string -> bool) returns (ok: bool)
      modifies this`nodes
      ensures ok == parses(row.props)
      ensures nodes == if ok then old(nodes)[n := Some(row)] else old(nodes)
    {
      ok := parses(row.props);
      if ok {
        nodes := nodes[n := Some(row)];
      }
    }

    method TombstoneNode(n: NodeId)
      modifies this`nodes
      ensures nodes == old(nodes)[n := None]
    {
      nodes := nodes[n := None];
    }

    method AddEdgeState(e: EdgeId, row: EdgeRow)
      modifies this`edges
      ensures edges == old(edges)[e := Some(row)]
    {
      edges := edges[e := Some(row)];
    }

    method TombstoneEdge(e: EdgeId)
      modifies this`edges
      ensures edges == old(edges)[e := None]
    {
      edges := edges[e := None];
    }

    method TombstoneEdges(ids: set<EdgeId>)
      modifies this`edges
      ensures edges.Keys == old(edges).Keys + ids
      ensures forall e | e in edges :: edges[e] == if e in ids then None else old(edges)[e]
    {
      var rest := ids;
      while rest != {}
        invariant rest <= ids
        invariant edges.Keys == old(edges).Keys + (ids - rest)
        invariant forall e | e in edges :: edges[e] == if e in ids - rest then None else old(edges)[e]
        decreases rest
      {
        var e :| e in rest;
        TombstoneEdge(e);
        rest := rest - {e};
      }
    }

    /** Tombstones a node together with every edge incident to it in view. */
    method TombstoneNodeWithCascade(g: Graph, n: NodeId)
      modifies this
      ensures nodes == old(nodes)[n := None]
      ensures edges.Keys == old(edges).Keys + Cascade(g, {n})
      ensures forall e | e in edges :: edges[e] == if e in Cascade(g, {n}) then None else old(edges)[e]
    {
      TombstoneNode(n);
      if n in g.nodes {
        TombstoneEdges(set e | e in g.edges && g.Shows(e) && g.edges[e].start == n);
        TombstoneEdges(set e | e in g.edges && g.Shows(e) && g.edges[e].end == n);
      }
    }

    /** Everything staged so far is a tombstone, for exactly these ids. */
    ghost predicate OnlyTombstones(deadNodes: set<NodeId>, deadEdges: set<EdgeId>)
      reads this
    {
      && nodes.Keys == deadNodes && (forall n | n in nodes :: nodes[n] == None)
      && edges.Keys == deadEdges && (forall e | e in edges :: edges[e] == None)
    }

    method TombstoneNodes(g: Graph, ids: set<NodeId>)
      requires OnlyTombstones({}, {})
      modifies this
      ensures OnlyTombstones(ids, Cascade(g, ids))
    {
      var rest := ids;
      assert Cascade(g, {}) == {};
      while rest != {}
        invariant rest <= ids
        invariant OnlyTombstones(ids - rest, Cascade(g, ids - rest))
        decreases rest
      {
        var n :| n in rest;
        ghost var done := ids - rest;
        TombstoneNodeWithCascade(g, n);
        rest := rest - {n};
        assert ids - rest == done + {n};
        assert Cascade(g, done + {n}) == Cascade(g, done) + Cascade(g, {n});
      }
      assert ids - rest == ids;
    }

    method TombstoneAbsent(g: Graph, rb: ReadBack)
      requires OnlyTombstones({}, {})
      modifies this
      ensures OnlyTombstones(rb.absentNodes,
                rb.absentEdges + Cascade(g, rb.absentNodes) + TripleHits(g, rb.absentTriples))
    {
      TombstoneNodes(g, rb.absentNodes);
      TombstoneEdges(rb.absentEdges);
      TombstoneEdges(TripleHits(g, rb.absentTriples));
    }

    /** Stages found nodes until one does not parse. */
    method AddNodeStates(rows: map<NodeId, NodeRow>, parses: string -> bool) returns (ok: bool)
      modifies this`nodes
      ensures ok <==> forall n | n in rows :: parses(rows[n].props)
      ensures ok ==> nodes.Keys == old(nodes).Keys + rows.Keys
      ensures ok ==> forall n | n in nodes :: nodes[n] == if n in rows then Some(rows[n]) else old(nodes)[n]
    {
      var rest := rows.Keys;
      while rest != {}
        invariant rest <= rows.Keys
        invariant forall n | n in rows.Keys - rest :: parses(rows[n].props)
        invariant nodes.Keys == old(nodes).Keys + (rows.Keys - rest)
        invariant forall n | n in nodes :: nodes[n] == if n in rows.Keys - rest then Some(rows[n]) else old(nodes)[n]
        decreases rest
      {
        var n :| n in rest;
        ok := AddNodeState(n, rows[n], parses);
        if !ok {
          return;
        }
        rest := rest - {n};
      }
      ok := true;
    }

    method AddEdgeStates(rows: map<EdgeId, EdgeRow>)
      modifies this`edges
      ensures edges.Keys == old(edges).Keys + rows.Keys
      ensures forall e | e in edges :: edges[e] == if e in rows then Some(rows[e]) else old(edges)[e]
    {
      var rest := rows.Keys;
      while rest != {}
        invariant rest <= rows.Keys
        invariant edges.Keys == old(edges).Keys + (rows.Keys - rest)
        invariant forall e | e in edges :: edges[e] == if e in rows.Keys - rest then Some(rows[e]) else old(edges)[e]
        decreases rest
      {
        var e :| e in rest;
        AddEdgeState(e, rows[e]);
        rest := rest - {e};
      }
    }
  }

  /** Staging order is load-bearing: tombstones first, found rows last. The
      result is None when some found row cannot be staged. */
  method BuildApplySegment(view: View, rb: ReadBack, parses: string -> bool) returns (seg: Option<Segment>)
    ensures seg.Some? <==> forall n | n in rb.nodes :: parses(rb.nodes[n].props)
    ensures seg.Some? ==> seg.value == SegmentOf(view.Effective(), rb)
  {
    hide Cascade, TripleHits, View.Effective, Layer;
    var g := view.Effective();
    var b := new SegmentBuilder();
    b.TombstoneAbsent(g, rb);
    var ok := b.AddNodeStates(rb.nodes, parses);
    if !ok {
      return None;
    }
    b.AddEdgeStates(rb.edges);
    assert b.nodes == SegmentOf(g, rb).nodes;
    assert b.edges == SegmentOf(g, rb).edges;
    seg := Some(Segment(b.nodes, b.edges));
  }
}
