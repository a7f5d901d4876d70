/** The rows of the graph, as PostgreSQL holds them and as the in-memory
    replica copies them, and what one committed write may do to them. */
module GraphStore {

  datatype Option<+T> = None | Some(value: T)

  type NodeId = nat
  type EdgeId = nat
  type Kind = string
  type ObjectId = string

  datatype NodeRow = NodeRow(kinds: set<Kind>, objectId: Option<ObjectId>, props: string)

  /** An edge never changes its endpoints or its kind; its properties are not
      part of the replica. */
  datatype EdgeRow = EdgeRow(start: NodeId, end: NodeId, kind: Kind) {
    predicate Touches(n: NodeId) {
      start == n || end == n
    }
  }

  datatype Graph = Graph(nodes: map<NodeId, NodeRow>, edges: map<EdgeId, EdgeRow>) {
    function Node(n: NodeId): Option<NodeRow> {
      if n in nodes then Some(nodes[n]) else None
    }

    function Edge(e: EdgeId): Option<EdgeRow> {
      if e in edges then Some(edges[e]) else None
    }

    /** An edge is visible only while both of its endpoints are alive. */
    predicate Shows(e: EdgeId) {
      e in edges && edges[e].start in nodes && edges[e].end in nodes
    }

    function Visible(): Graph {
      Graph(nodes, map e | e in edges && Shows(e) :: edges[e])
    }
  }

  /** A kind-scoped node delete: every node whose kinds meet `anyOf` (every
      node at all when it is empty) and miss `noneOf`. */
  datatype KindCriteria = KindCriteria(anyOf: set<Kind>, noneOf: set<Kind>) {
    predicate Matches(row: NodeRow) {
      (anyOf == {} || row.kinds * anyOf != {}) && row.kinds * noneOf == {}
    }
  }

  /** The change log of one write scope: the keys it touched, or `fallback` when
      its effect cannot be named. */
  datatype Changes = Changes(
    nodeIds: set<NodeId>,
    objectIds: set<ObjectId>,
    edgeIds: set<EdgeId>,
    triples: set<EdgeRow>,
    nodeDeletes: set<KindCriteria>,
    edgeDeletes: set<set<Kind>>,
    fallback: bool)
  {
    predicate Empty() {
      nodeIds == {} && objectIds == {} && edgeIds == {} && triples == {} &&
      nodeDeletes == {} && edgeDeletes == {} && !fallback
    }

    predicate DeletesKind(kind: Kind) {
      exists kinds | kinds in edgeDeletes :: kind in kinds
    }

    predicate DeletesNodeLike(row: NodeRow) {
      exists criteria | criteria in nodeDeletes :: criteria.Matches(row)
    }

    function Merge(other: Changes): Changes {
      Changes(
        nodeIds + other.nodeIds, objectIds + other.objectIds, edgeIds + other.edgeIds, triples + other.triples,
        nodeDeletes + other.nodeDeletes, edgeDeletes + other.edgeDeletes, fallback || other.fallback)
    }
  }

  /** One entry of a change log, as the write wrappers record it. */
  datatype Key =
    | NodeKey(node: NodeId)
    | ObjectIdKey(objectId: ObjectId)
    | EdgeKey(edge: EdgeId)
    | TripleKey(triple: EdgeRow)
    | NodeDelete(criteria: KindCriteria)
    | EdgeDelete(kinds: set<Kind>)
    | Fallback

  /** One thing a write did: to a node or an edge, between what PostgreSQL held before
      and after it, or to the driver, which now writes to another graph. */
  datatype Row =
    | NodeChange(node: NodeId, was: Option<NodeRow>, now: Option<NodeRow>)
    | EdgeChange(edge: EdgeId, before: Option<EdgeRow>, after: Option<EdgeRow>)
    | Retargeting

  /** An entry leads to a changed node by its id, by the objectid an upsert found or
      made it by, or by a delete criteria its last row met; to a changed edge by its
      id, by its triple, or by the kind it was deleted for. */
  predicate AnswersTo(row: Row, key: Key) {
    match row
    case NodeChange(n, was, now) => (
      match key
      case NodeKey(id) => id == n
      case ObjectIdKey(o) => now.Some? && now.value.objectId == Some(o) && (was.Some? ==> was.value.objectId == Some(o))
      case NodeDelete(criteria) => was.Some? && now.None? && criteria.Matches(was.value)
      case _ => false)
    case EdgeChange(e, before, after) => (
      match key
      case EdgeKey(id) => id == e
      case TripleKey(triple) => after == Some(triple)
      case EdgeDelete(kinds) => before.Some? && before.value.kind in kinds
      case _ => false)
    case Retargeting => false
  }

  /** A recorded change log, sorted by the kind of key. */
  function ChangesOf(keys: set<Key>): Changes {
    Changes(
      set k | k in keys && k.NodeKey? :: k.node,
      set k | k in keys && k.ObjectIdKey? :: k.objectId,
      set k | k in keys && k.EdgeKey? :: k.edge,
      set k | k in keys && k.TripleKey? :: k.triple,
      set k | k in keys && k.NodeDelete? :: k.criteria,
      set k | k in keys && k.EdgeDelete? :: k.kinds,
      Fallback in keys)
  }

  lemma EmptyChanges(keys: set<Key>)
    ensures ChangesOf(keys).Empty() <==> keys == {}
  {
    if k :| k in keys {
      var w := ChangesOf(keys);
      match k
      case NodeKey(n) => assert n in w.nodeIds;
      case ObjectIdKey(o) => assert o in w.objectIds;
      case EdgeKey(e) => assert e in w.edgeIds;
      case TripleKey(t) => assert t in w.triples;
      case NodeDelete(c) => assert c in w.nodeDeletes;
      case EdgeDelete(ks) => assert ks in w.edgeDeletes;
      case Fallback =>
    }
  }

  const NO_CHANGES := Changes({}, {}, {}, {}, {}, {}, false)

  /** PostgreSQL: its rows, and every id it has ever handed out. */
  datatype Database = Database(graph: Graph, usedNodes: set<NodeId>, usedEdges: set<EdgeId>) {
    predicate Valid() {
      graph.nodes.Keys <= usedNodes && graph.edges.Keys <= usedEdges
    }

    /** A deleted node: its id was handed out and is never handed out again. */
    predicate Retired(n: NodeId) {
      n in usedNodes && n !in graph.nodes
    }

    predicate LooseEnd(row: EdgeRow) {
      Retired(row.start) || Retired(row.end)
    }
  }

  /** What `w` must name for the change of node `n` between two database states
      to be on record: the node's id; the objectid an upsert found or created it
      by; or a delete criteria its last row matched. */
  predicate NamesNodeChange(w: Changes, n: NodeId, before: Option<NodeRow>, after: Option<NodeRow>) {
    || w.fallback
    || n in w.nodeIds
    || (&& after.Some? && after.value.objectId.Some? && after.value.objectId.value in w.objectIds
        && (before.Some? ==> before.value.objectId == after.value.objectId))
    || (before.Some? && after.None? && w.DeletesNodeLike(before.value))
  }

  /** The same for an edge. An edge that went with one of its endpoints needs no
      key of its own. */
  predicate NamesEdgeChange(w: Changes, e: EdgeId, before: Option<EdgeRow>, after: Option<EdgeRow>, db: Database) {
    || w.fallback
    || e in w.edgeIds
    || (after.Some? && after.value in w.triples)
    || (before.Some? && (w.DeletesKind(before.value.kind) || db.LooseEnd(before.value)))
  }

  /** Ids are never reused, and an edge row never changes. */
  ghost predicate Evolves(before: Database, after: Database) {
    && after.Valid()
    && before.usedNodes <= after.usedNodes
    && before.usedEdges <= after.usedEdges
    && (forall n | n in after.graph.nodes && n !in before.graph.nodes :: n !in before.usedNodes)
    && (forall e | e in after.graph.edges && e !in before.graph.edges :: e !in before.usedEdges)
    && (forall e | e in after.graph.edges && e in before.graph.edges :: after.graph.edges[e] == before.graph.edges[e])
  }

  /** One commit takes PostgreSQL from `before` to `after`, and `w` names what it
      changed. */
  ghost predicate Commits(before: Database, after: Database, w: Changes) {
    && Evolves(before, after)
    && (forall n: NodeId | before.graph.Node(n) != after.graph.Node(n) ::
          NamesNodeChange(w, n, before.graph.Node(n), after.graph.Node(n)))
    && (forall e: EdgeId | before.graph.Edge(e) != after.graph.Edge(e) ::
          NamesEdgeChange(w, e, before.graph.Edge(e), after.graph.Edge(e), after))
  }
}
