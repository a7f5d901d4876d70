/** Write-through as a transition system. Writers commit to PostgreSQL at any
    moment; their Applies run later, one at a time, in any order, each reading
    its keys back one by one while further writes commit; rebuilds load beside
    them and are adopted only under an unmoved epoch. */
module Replica {
  import opened GraphStore
  import opened Overlay
  import opened Candidates
  import opened Tracking

  type ScopeId = nat
  type LoadId = nat

  /** The Apply that holds applyMu: the keys still to be read back, and what the
      ones read so far found. */
  datatype Applying = Applying(agenda: Changes, rb: ReadBack) {
    /** The keys that will still be read: an answered id is not read twice. */
    function Rest(): Changes {
      agenda.(nodeIds := (set n | n in agenda.nodeIds && !rb.AnsweredNode(n)),
              edgeIds := (set e | e in agenda.edgeIds && !rb.AnsweredEdge(e)))
    }
  }

  /** A rebuild: the epoch it read first, then the copy its one transaction saw. */
  datatype Load = Begun(epoch: nat) | Loaded(epoch: nat, copy: Graph, orphans: set<NodeId>)

  datatype State = State(
    enabled: bool,
    db: Database,
    pending: map<ScopeId, Changes>,
    serving: bool,
    view: Option<Graph>,
    orphans: set<NodeId>,
    epoch: nat,
    applying: Option<Applying>,
    loads: map<LoadId, Load>)
  {
    /** The engine answers queries from the view. */
    predicate Serves() {
      enabled && serving && view.Some?
    }

    /** Every committed write has been applied. */
    predicate Settled() {
      pending == map[] && applying.None?
    }

    /** What the view will hold once the running Apply publishes, as far as its
        read-back has got. */
    function Copy(): Graph
      requires view.Some?
    {
      if applying.None? then view.value else Staged(view.value, applying.value.rb)
    }

    /** The change logs that still have a read-back to come. */
    function Outstanding(): set<Changes> {
      pending.Values + if applying.None? then {} else {applying.value.Rest()}
    }
  }

  function Staged(g: Graph, rb: ReadBack): Graph {
    Graph((g.nodes - rb.absentNodes) + rb.nodes, (g.edges - rb.absentEdges) + rb.edges)
  }

  datatype Step =
    | Commit(scope: ScopeId, changes: Changes, after: Database)
    | BeginApply(scope: ScopeId)
    | ReadNode(node: NodeId)
    | ReadObjectId(objectId: ObjectId)
    | ReadEdge(edge: EdgeId)
    | ReadTriple(triple: EdgeRow)
    | Publish
    | FailApply(panicked: bool)
    | Distrust
    | BeginLoad(load: LoadId)
    | ReadAll(load: LoadId)
    | EndLoad(load: LoadId)

  /** What Apply does before it reads anything back: it moves the epoch on every
      path, and gives up early when there is nothing to keep up to date. */
  datatype Gate = Drop | EnterFallback | ReadItBack

  function ApplyGate(enabled: bool, serving: bool, hasView: bool, w: Changes): Gate {
    if !enabled then Drop
    else if w.fallback then EnterFallback
    else if w.Empty() then Drop
    else if !serving then Drop
    else if !hasView then Drop
    else ReadItBack
  }

  /** The keys one Apply reads back: those its change log names and the view
      rows its delete criteria match. */
  function AgendaOf(g: Graph, w: Changes): Changes {
    Changes(w.nodeIds + CandidateNodes(g, w), w.objectIds, w.edgeIds + CandidateEdges(g, w), w.triples, {}, {}, false)
  }

  const NOTHING_READ := ReadBack(map[], {}, map[], {}, {})

  function NodesWith(db: Database, objectId: ObjectId): map<NodeId, NodeRow> {
    map n | n in db.graph.nodes && db.graph.nodes[n].objectId == Some(objectId) :: db.graph.nodes[n]
  }

  function EdgesWith(db: Database, triple: EdgeRow): map<EdgeId, EdgeRow> {
    map e | e in db.graph.edges && db.graph.edges[e] == triple :: db.graph.edges[e]
  }

  function DoReadNode(a: Applying, db: Database, n: NodeId): Applying {
    var rb := a.rb;
    a.(rb := if n in db.graph.nodes then rb.(nodes := rb.nodes[n := db.graph.nodes[n]])
             else rb.(absentNodes := rb.absentNodes + {n}))
  }

  /** A lookup by objectid stages every row that carries it. Only when there is
      none do the nodes the view knows under it become candidates. */
  function DoReadObjectId(a: Applying, db: Database, view: Graph, objectId: ObjectId): Applying {
    var found := NodesWith(db, objectId);
    Applying(
      a.agenda.(objectIds := a.agenda.objectIds - {objectId},
                nodeIds := a.agenda.nodeIds + if found == map[] then NodesUnder(view, objectId) else {}),
      a.rb.(nodes := a.rb.nodes + found))
  }

  function DoReadEdge(a: Applying, db: Database, e: EdgeId): Applying {
    var rb := a.rb;
    a.(rb := if e in db.graph.edges then rb.(edges := rb.edges[e := db.graph.edges[e]])
             else rb.(absentEdges := rb.absentEdges + {e}))
  }

  /** The edge table holds a triple at most once. */
  function DoReadTriple(a: Applying, db: Database, triple: EdgeRow): Applying {
    var found := EdgesWith(db, triple);
    Applying(
      a.agenda.(triples := a.agenda.triples - {triple}),
      if found == map[] then a.rb.(absentTriples := a.rb.absentTriples + {triple})
      else a.rb.(edges := a.rb.edges + found))
  }

  ghost predicate CanDo(s: State, step: Step) {
    && (s.applying.Some? ==> s.view.Some?)
    && match step
    case Commit(_, w, after) => Commits(s.db, after, w)
    case BeginApply(scope) => s.applying.None? && scope in s.pending
    case ReadNode(n) => s.applying.Some? && n in s.applying.value.Rest().nodeIds
    case ReadObjectId(o) => s.applying.Some? && o in s.applying.value.agenda.objectIds
    case ReadEdge(e) => s.applying.Some? && e in s.applying.value.Rest().edgeIds
    case ReadTriple(t) => s.applying.Some? && t in s.applying.value.agenda.triples
    case Publish => s.applying.Some? && s.applying.value.Rest().Empty()
    case FailApply(_) => s.applying.Some?
    case Distrust => s.applying.None?
    case BeginLoad(l) => l !in s.loads
    case ReadAll(l) => l in s.loads && s.loads[l].Begun?
    case EndLoad(l) => l in s.loads && s.loads[l].Loaded? && s.applying.None?
  }

  function DoCommit(s: State, scope: ScopeId, w: Changes, after: Database): State {
    var pending := s.pending[scope := if scope in s.pending then s.pending[scope].Merge(w) else w];
    var s' := s.(pending := pending, db := after);
    s'.(orphans := if s.view.Some? then s.orphans + NewOrphans(s.Copy(), s.db, after, s'.Outstanding()) else {},
        loads := map l | l in s.loads ::
          match s.loads[l]
          case Begun(_) => s.loads[l]
          case Loaded(epoch, copy, orphans) =>
            Loaded(epoch, copy, orphans + NewOrphans(copy, s.db, after, pending.Values)))
  }

  function DoBeginApply(s: State, scope: ScopeId): State
    requires scope in s.pending
  {
    var w := s.pending[scope];
    var s' := s.(epoch := s.epoch + 1, pending := s.pending - {scope});
    match ApplyGate(s.enabled, s.serving, s.view.Some?, w)
    case Drop => s'
    case EnterFallback => s'.(serving := false)
    case ReadItBack => s'.(applying := Some(Applying(AgendaOf(s.view.value, w), NOTHING_READ)))
  }

  function DoPublish(s: State): State
    requires s.applying.Some? && s.view.Some?
  {
    s.(view := Some(Layer(s.view.value, SegmentOf(s.view.value, s.applying.value.rb))), applying := None)
  }

  function DoFailApply(s: State, panicked: bool): State {
    s.(serving := false, applying := None, epoch := if panicked then s.epoch + 1 else s.epoch)
  }

  function DoEndLoad(s: State, l: LoadId): State
    requires l in s.loads && s.loads[l].Loaded?
  {
    var load := s.loads[l];
    var s' := s.(loads := s.loads - {l});
    if load.epoch != s.epoch then s'
    else s'.(view := Some(load.copy), orphans := load.orphans, serving := true)
  }

  function Do(s: State, step: Step): State
    requires CanDo(s, step)
  {
    match step
    case Commit(scope, w, after) => DoCommit(s, scope, w, after)
    case BeginApply(scope) => DoBeginApply(s, scope)
    case ReadNode(n) =>
      s.(applying := Some(DoReadNode(s.applying.value, s.db, n)), orphans := s.orphans - {n})
    case ReadObjectId(o) =>
      s.(applying := Some(DoReadObjectId(s.applying.value, s.db, s.view.value, o)),
         orphans := s.orphans - NodesWith(s.db, o).Keys)
    case ReadEdge(e) => s.(applying := Some(DoReadEdge(s.applying.value, s.db, e)))
    case ReadTriple(t) => s.(applying := Some(DoReadTriple(s.applying.value, s.db, t)))
    case Publish => DoPublish(s)
    // A read-back error, a memory limit, or a recovered panic, which moves the epoch again.
    case FailApply(panicked) => DoFailApply(s, panicked)
    // A background panic enters fallback too, holding applyMu.
    case Distrust => s.(serving := false)
    case BeginLoad(l) => s.(loads := s.loads[l := Begun(s.epoch)])
    case ReadAll(l) => s.(loads := s.loads[l := Loaded(s.loads[l].epoch, s.db.graph, {})])
    case EndLoad(l) => DoEndLoad(s, l)
  }
}
