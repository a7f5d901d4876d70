/** Stranding is exact: a node a commit deletes may stay visible for good if and
    only if the commit strands it. */
module Stranding {
  import opened GraphStore
  import opened Overlay
  import opened Candidates
  import opened Tracking
  import opened Replica
  import opened Agreement
  import opened Orphans

  /** The view will show the deleted node `n`, and nothing outstanding names it. */
  ghost predicate Doomed(s: State, n: NodeId) {
    && s.Serves() && s.db.Retired(n) && n in s.Copy().nodes
    && forall v | v in s.Outstanding() :: !RereadsNode(v, n, s.Copy().Node(n))
  }

  /** Every write is applied, and the engine serves a node PostgreSQL does not hold. */
  predicate ShownInVain(t: State, n: NodeId) {
    t.Serves() && t.Settled() && n in t.view.value.nodes && n !in t.db.graph.nodes
  }

  predicate Carried(db: Database, objectId: Option<ObjectId>) {
    exists m | m in db.graph.nodes :: db.graph.nodes[m].objectId == objectId
  }

  /** Nor will a lookup by objectid lead to it: other nodes carry each objectid the
      view has, or will have, it under. */
  ghost predicate Held(s: State, n: NodeId) {
    && Inv(s) && Doomed(s, n)
    && (n in s.view.value.nodes ==> Carried(s.db, s.view.value.nodes[n].objectId))
    && Carried(s.db, s.Copy().nodes[n].objectId)
  }

  // ---- Whatever is outstanding can be applied without healing a held node ----

  lemma BeginKeepsHeld(s: State, scope: ScopeId, n: NodeId)
    requires Held(s, n) && CanDo(s, BeginApply(scope))
    ensures Held(Do(s, BeginApply(scope)), n)
  {
    hide Inv, Layer, Commits, NewOrphans;
    StepKeepsInv(s, BeginApply(scope));
    var s' := Do(s, BeginApply(scope));
    assert s.pending[scope] in s.Outstanding();
    forall v | v in s'.pending.Values
      ensures v in s.Outstanding()
    {
      var k :| k in s'.pending && s'.pending[k] == v;
      assert s.pending[k] == v;
    }
    assert s'.Copy().nodes == s.view.value.nodes;
  }

  lemma ReadNodeKeepsHeld(s: State, m: NodeId, n: NodeId)
    requires Held(s, n) && CanDo(s, ReadNode(m))
    ensures Held(Do(s, ReadNode(m)), n)
  {
    hide Inv, Layer, Commits, NewOrphans;
    StepKeepsInv(s, ReadNode(m));
    assert s.applying.value.Rest() in s.Outstanding();
  }

  lemma ReadObjectIdKeepsHeld(s: State, o: ObjectId, n: NodeId)
    requires Held(s, n) && CanDo(s, ReadObjectId(o))
    ensures Held(Do(s, ReadObjectId(o)), n)
  {
    hide Inv, Layer, Commits, NewOrphans;
    StepKeepsInv(s, ReadObjectId(o));
    assert s.applying.value.Rest() in s.Outstanding();
    if m :| m in s.db.graph.nodes && s.db.graph.nodes[m].objectId == Some(o) {
      assert m in NodesWith(s.db, o);
    }
  }

  /** A step that reads an edge changes no node row, and names no further node. */
  lemma ReadEdgeKeepsHeld(s: State, step: Step, n: NodeId)
    requires Held(s, n) && CanDo(s, step) && (step.ReadEdge? || step.ReadTriple?)
    ensures Held(Do(s, step), n)
  {
    hide Inv, Carried, Staged, RereadsNode, Layer, Commits, DoReadEdge, DoReadTriple;
    StepKeepsInv(s, step);
    var s' := Do(s, step);
    var rest := s.applying.value.Rest();
    assert rest in s.Outstanding();
    if step.ReadEdge? {
      EdgeReadNamesNoNode(s.view.value, s.applying.value, s.db, step.edge, n, s.Copy().Node(n));
    } else {
      TripleReadNamesNoNode(s.view.value, s.applying.value, s.db, step.triple, n, s.Copy().Node(n));
    }
  }

  lemma EdgeReadNamesNoNode(view: Graph, a: Applying, db: Database, e: EdgeId, n: NodeId, copied: Option<NodeRow>)
    ensures var a' := DoReadEdge(a, db, e);
            && Staged(view, a'.rb).nodes == Staged(view, a.rb).nodes
            && (RereadsNode(a'.Rest(), n, copied) ==> RereadsNode(a.Rest(), n, copied))
  {
  }

  lemma TripleReadNamesNoNode(view: Graph, a: Applying, db: Database, t: EdgeRow, n: NodeId, copied: Option<NodeRow>)
    ensures var a' := DoReadTriple(a, db, t);
            && Staged(view, a'.rb).nodes == Staged(view, a.rb).nodes
            && (RereadsNode(a'.Rest(), n, copied) ==> RereadsNode(a.Rest(), n, copied))
  {
    hide EdgesWith;
  }

  lemma PublishKeepsHeld(s: State, n: NodeId)
    requires Held(s, n) && CanDo(s, Publish)
    ensures Held(Do(s, Publish), n)
  {
    hide Inv;
    StepKeepsInv(s, Publish);
    var a := s.applying.value;
    assert Layer(s.view.value, SegmentOf(s.view.value, a.rb)).Node(n) == Staged(s.view.value, a.rb).Node(n);
  }

  lemma RunFrom(s: State, step: Step, steps: seq<Step>, t: State)
    requires CanDo(s, step) && Run(Do(s, step), steps, t)
    ensures Run(s, [step] + steps, t)
  {
    assert ([step] + steps)[1..] == steps;
  }

  /** The keys the running Apply has still to read. */
  function ToRead(s: State): Changes {
    if s.applying.Some? then s.applying.value.Rest() else NO_CHANGES
  }

  predicate Fewer(r': Changes, r: Changes) {
    || |r'.objectIds| < |r.objectIds|
    || (r'.objectIds == r.objectIds &&
        (|| |r'.triples| < |r.triples|
         || (r'.triples == r.triples && |r'.nodeIds| + |r'.edgeIds| < |r.nodeIds| + |r.edgeIds|)))
  }

  /** A step that takes `s` to `s'` leaves less to be done. */
  predicate Nearer(s': State, s: State) {
    || |s'.pending| < |s.pending|
    || (s'.pending == s.pending && s.applying.Some? && (s'.applying.None? || Fewer(ToRead(s'), ToRead(s))))
  }

  lemma ReadDischargesNode(a: Applying, db: Database, n: NodeId)
    requires n in a.Rest().nodeIds
    ensures Fewer(DoReadNode(a, db, n).Rest(), a.Rest())
  {
    assert DoReadNode(a, db, n).Rest() == a.Rest().(nodeIds := a.Rest().nodeIds - {n});
  }

  lemma ReadDischargesEdge(a: Applying, db: Database, e: EdgeId)
    requires e in a.Rest().edgeIds
    ensures Fewer(DoReadEdge(a, db, e).Rest(), a.Rest())
  {
    assert DoReadEdge(a, db, e).Rest() == a.Rest().(edgeIds := a.Rest().edgeIds - {e});
  }

  lemma LookupsDischarge(a: Applying, db: Database, view: Graph)
    ensures forall o | o in a.agenda.objectIds :: Fewer(DoReadObjectId(a, db, view, o).Rest(), a.Rest())
    ensures forall t | t in a.agenda.triples :: Fewer(DoReadTriple(a, db, t).Rest(), a.Rest())
  {
    hide NodesUnder, NodesWith, EdgesWith;
  }

  lemma ReadsComeNearer(s: State, step: Step)
    requires CanDo(s, step) && (step.ReadNode? || step.ReadObjectId? || step.ReadEdge? || step.ReadTriple?)
    ensures Nearer(Do(s, step), s)
  {
    hide Commits, Fewer, DoReadNode, DoReadEdge, DoReadObjectId, DoReadTriple, NodesWith;
    var a := s.applying.value;
    LookupsDischarge(a, s.db, s.view.value);
    if step.ReadNode? {
      ReadDischargesNode(a, s.db, step.node);
    } else if step.ReadEdge? {
      ReadDischargesEdge(a, s.db, step.edge);
    }
  }

  lemma NextRead(s: State, n: NodeId) returns (step: Step)
    requires Held(s, n) && s.applying.Some? && !s.applying.value.Rest().Empty()
    ensures CanDo(s, step) && Held(Do(s, step), n) && Nearer(Do(s, step), s)
  {
    hide Layer, Staged, Tracks, LoadSound, Do, Nearer, Carried, Commits;
    var rest := s.applying.value.Rest();
    if o :| o in rest.objectIds {
      step := ReadObjectId(o);
      ReadObjectIdKeepsHeld(s, o, n);
    } else if t :| t in rest.triples {
      step := ReadTriple(t);
      ReadEdgeKeepsHeld(s, step, n);
    } else if m :| m in rest.nodeIds {
      step := ReadNode(m);
      ReadNodeKeepsHeld(s, m, n);
    } else {
      var e :| e in rest.edgeIds;
      step := ReadEdge(e);
      ReadEdgeKeepsHeld(s, step, n);
    }
    ReadsComeNearer(s, step);
  }

  lemma BeginningComesNearer(s: State, scope: ScopeId)
    requires CanDo(s, BeginApply(scope))
    ensures Nearer(Do(s, BeginApply(scope)), s)
  {
    hide AgendaOf, Fewer;
    assert |s.pending - {scope}| < |s.pending|;
  }

  lemma PublishingComesNearer(s: State)
    requires CanDo(s, Publish)
    ensures Nearer(Do(s, Publish), s)
  {
    hide Layer, SegmentOf;
  }

  lemma NextStep(s: State, n: NodeId) returns (step: Step)
    requires Held(s, n) && !s.Settled()
    ensures CanDo(s, step) && Held(Do(s, step), n) && Nearer(Do(s, step), s)
  {
    hide Inv, Commits, Do, RereadsNode, Staged, Carried, Nearer;
    if s.applying.None? {
      var scope :| scope in s.pending;
      step := BeginApply(scope);
      BeginKeepsHeld(s, scope, n);
      BeginningComesNearer(s, scope);
    } else if s.applying.value.Rest().Empty() {
      step := Publish;
      PublishKeepsHeld(s, n);
      PublishingComesNearer(s);
    } else {
      step := NextRead(s, n);
    }
  }

  /** Apply everything outstanding, key by key: the view ends up showing `n`. */
  lemma {:induction false} SettleHeld(s: State, n: NodeId) returns (steps: seq<Step>, t: State)
    requires Held(s, n)
    ensures Run(s, steps, t) && ShownInVain(t, n)
    decreases |s.pending|, s.applying.Some?, |ToRead(s).objectIds|, |ToRead(s).triples|,
              |ToRead(s).nodeIds| + |ToRead(s).edgeIds|
  {
    hide Inv, CanDo, Do;
    steps, t := [], s;
    if !s.Settled() {
      var step := NextStep(s, n);
      steps, t := SettleHeld(Do(s, step), n);
      RunFrom(s, step, steps, t);
      steps := [step] + steps;
    }
  }

  // ---- The node is held once it has a namesake under each of its objectids ---

  lemma {:induction false} FreshId(used: set<NodeId>) returns (m: NodeId)
    ensures m !in used && forall n | n in used :: n < m
    decreases |used|
  {
    m := 0;
    if n :| n in used {
      m := FreshId(used - {n});
      assert forall k | k in used :: k == n || k in used - {n};
      m := if m <= n then n + 1 else m;
    }
  }

  lemma NamesakeCommits(db: Database, m: NodeId, objectId: Option<ObjectId>)
    requires db.Valid() && m !in db.usedNodes
    ensures
      var after := Database(Graph(db.graph.nodes[m := NodeRow({}, objectId, "")], db.graph.edges),
                            db.usedNodes + {m}, db.usedEdges);
      && Commits(db, after, NO_CHANGES.(nodeIds := {m})) && Carried(after, objectId)
      && forall o :: Carried(db, o) ==> Carried(after, o)
  {
    var after := Database(Graph(db.graph.nodes[m := NodeRow({}, objectId, "")], db.graph.edges),
                          db.usedNodes + {m}, db.usedEdges);
    assert after.graph.nodes[m].objectId == objectId;
    forall o | Carried(db, o)
      ensures Carried(after, o)
    {
      var k :| k in db.graph.nodes && db.graph.nodes[k].objectId == o;
      assert k in after.graph.nodes && after.graph.nodes[k].objectId == o;
    }
  }

  /** A commit naming only `m` names no other node. */
  lemma NamingAnother(s: State, n: NodeId, m: NodeId, after: Database)
    requires Doomed(s, n) && m != n && after.Retired(n)
    ensures Doomed(DoCommit(s, 0, NO_CHANGES.(nodeIds := {m}), after), n)
  {
    hide Layer, Staged, NewOrphans;
    var w := NO_CHANGES.(nodeIds := {m});
    var s' := DoCommit(s, 0, w, after);
    forall v | v in s'.Outstanding()
      ensures !RereadsNode(v, n, s.Copy().Node(n))
    {
      if v !in s.Outstanding() {
        assert v == if 0 in s.pending then s.pending[0].Merge(w) else w;
        assert 0 in s.pending ==> s.pending[0] in s.Outstanding();
      }
    }
  }

  /** Another commit, naming its one new node by id, gives an objectid a carrier. */
  lemma AddNamesake(s: State, n: NodeId, objectId: Option<ObjectId>) returns (step: Step, s': State)
    requires Inv(s) && Doomed(s, n)
    ensures CanDo(s, step) && s' == Do(s, step) && Inv(s') && Doomed(s', n)
    ensures s'.view == s.view && s'.applying == s.applying && Carried(s'.db, objectId)
    ensures forall o :: Carried(s.db, o) ==> Carried(s'.db, o)
  {
    hide Layer, Staged, Commits, NewOrphans, Carried, Tracks, LoadSound, ReadsSoundly, RereadsNode;
    var m := FreshId(s.db.usedNodes);
    NamesakeCommits(s.db, m, objectId);
    var after := Database(Graph(s.db.graph.nodes[m := NodeRow({}, objectId, "")], s.db.graph.edges),
                          s.db.usedNodes + {m}, s.db.usedEdges);
    NamingAnother(s, n, m, after);
    step := Commit(0, NO_CHANGES.(nodeIds := {m}), after);
    StepKeepsInv(s, step);
    s' := Do(s, step);
  }

  lemma SettleDoomed(s: State, n: NodeId) returns (steps: seq<Step>, t: State)
    requires Inv(s) && Doomed(s, n)
    ensures Run(s, steps, t) && ShownInVain(t, n)
  {
    hide Inv, CanDo, Do, Carried, RereadsNode, Staged;
    var shown := if n in s.view.value.nodes then s.view.value.nodes[n].objectId else None;
    var step1, s1 := AddNamesake(s, n, shown);
    var step2, s2 := AddNamesake(s1, n, s1.Copy().nodes[n].objectId);
    steps, t := SettleHeld(s2, n);
    RunFrom(s1, step2, steps, t);
    RunFrom(s, step1, [step2] + steps, t);
    steps := [step1] + ([step2] + steps);
  }

  // ---- A stranded node is doomed in the view, or as soon as the load is adopted

  lemma StrandedInLoad(s: State, n: NodeId, l: LoadId) returns (steps: seq<Step>, t: State)
    requires Inv(s) && s.enabled && Adoptable(s, l) && s.applying.None?
    requires s.db.Retired(n) && n in s.loads[l].copy.nodes
    requires forall v | v in s.pending.Values :: !RereadsNode(v, n, s.loads[l].copy.Node(n))
    ensures Run(s, steps, t) && ShownInVain(t, n)
  {
    hide RereadsNode, Tracks, LoadSound, ReadsSoundly, Run;
    var step := EndLoad(l);
    StepKeepsInv(s, step);
    steps, t := SettleDoomed(Do(s, step), n);
    RunFrom(s, step, steps, t);
    steps := [step] + steps;
  }

  /** A node a commit strands: some way of going on ends with every write applied
      and the engine serving it. */
  lemma StrandedIsServed(s: State, scope: ScopeId, w: Changes, after: Database, n: NodeId)
      returns (steps: seq<Step>, t: State)
    requires Inv(s) && Commits(s.db, after, w) && Strands(s, scope, w, after, n)
    ensures Run(DoCommit(s, scope, w, after), steps, t) && ShownInVain(t, n)
  {
    hide RereadsNode, Tracks, LoadSound, ReadsSoundly, Run, Staged, Includes;
    CommitKeepsInv(s, scope, w, after);
    var u := DoCommit(s, scope, w, after);
    if StrandsInView(s, scope, w, after, n) {
      steps, t := SettleDoomed(u, n);
    } else {
      var l :| StrandsInLoad(s, scope, w, after, n, l);
      if u.applying.None? {
        steps, t := StrandedInLoad(u, n, l);
      } else {
        var step := FailApply(false);
        StepKeepsInv(u, step);
        steps, t := StrandedInLoad(Do(u, step), n, l);
        RunFrom(u, step, steps, t);
        steps := [step] + steps;
      }
    }
  }

  // ---- And only a stranded one ----------------------------------------------

  /** A deleted node is gone: no later commit deletes it again. */
  lemma {:induction false} DeletedStaysSpared(s: State, steps: seq<Step>, t: State, n: NodeId)
    requires Inv(s) && Spared(s, n) && s.db.Retired(n) && s.enabled && Run(s, steps, t)
    ensures Spared(t, n) && t.db.Retired(n) && Inv(t)
    decreases |steps|
  {
    hide Inv, Spared;
    if steps != [] {
      StepKeepsInv(s, steps[0]);
      StepSpares(s, steps[0], n);
      DeletedStaysSpared(Do(s, steps[0]), steps[1..], t, n);
    }
  }

  /** A commit's deletion of a node is lost on some way of going on if and only if
      the commit strands the node. */
  lemma StrandedExactly(s: State, scope: ScopeId, w: Changes, after: Database, n: NodeId)
    requires Inv(s) && Commits(s.db, after, w)
    requires n in s.db.graph.nodes && n !in after.graph.nodes
    ensures Strands(s, scope, w, after, n) <==>
      exists steps, t :: Run(DoCommit(s, scope, w, after), steps, t) && ShownInVain(t, n)
  {
    hide Commits, Strands, Run, Inv, Spared, DoCommit;
    if Strands(s, scope, w, after, n) {
      var steps, t := StrandedIsServed(s, scope, w, after, n);
    } else if steps, t :| Run(DoCommit(s, scope, w, after), steps, t) && ShownInVain(t, n) {
      UnstrandedIsNotServed(s, scope, w, after, n, steps, t);
    }
  }

  lemma UnstrandedIsNotServed(s: State, scope: ScopeId, w: Changes, after: Database, n: NodeId, steps: seq<Step>, t: State)
    requires Inv(s) && Commits(s.db, after, w) && !Strands(s, scope, w, after, n)
    requires n in s.db.graph.nodes && n !in after.graph.nodes
    requires Run(DoCommit(s, scope, w, after), steps, t)
    ensures !ShownInVain(t, n)
  {
    hide Run, Strands, Staged, NewOrphans, ReadsSoundly;
    var u := DoCommit(s, scope, w, after);
    CommitKeepsInv(s, scope, w, after);
    StaysEnabled(u, steps, t);
    if t.Serves() && t.Settled() {
      LiveIsSpared(s, n);
      CommitSpares(s, scope, w, after, n);
      DeletedStaysSpared(u, steps, t, n);
      SettledShowsOnlyOrphans(t, n);
    }
  }

  lemma LiveIsSpared(s: State, n: NodeId)
    requires Inv(s) && n in s.db.graph.nodes
    ensures Spared(s, n)
  {
    hide EdgeTracked, ReadsSoundly, Staged;
    assert s.Serves() ==> NodeTracked(s.Copy(), s.orphans, s.db, s.Outstanding(), n);
    forall l | Adoptable(s, l)
      ensures n !in s.loads[l].orphans
    {
      assert LoadSound(s, l);
      assert NodeTracked(s.loads[l].copy, s.loads[l].orphans, s.db, s.pending.Values, n);
    }
  }

  lemma SettledShowsOnlyOrphans(t: State, n: NodeId)
    requires Inv(t) && t.Serves() && t.Settled() && Spared(t, n) && t.db.Retired(n)
    ensures n !in t.view.value.nodes
  {
    hide EdgeTracked, ReadsSoundly, LoadSound;
    assert NodeTracked(t.Copy(), t.orphans, t.db, t.Outstanding(), n);
  }
}
