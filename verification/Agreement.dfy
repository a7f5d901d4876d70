/** Replica agreement over every run of the write-through protocol: what every
    step keeps, and what it means once nothing is pending. */
module Agreement {
  import opened GraphStore
  import opened Overlay
  import opened Candidates
  import opened Tracking
  import opened Replica

  /** What the running Apply's read-back has established about the view it is
      going to lay its segment over. */
  ghost predicate ReadsSoundly(view: Graph, a: Applying, db: Database) {
    && a.agenda.nodeDeletes == {} && a.agenda.edgeDeletes == {} && !a.agenda.fallback
    && view.nodes.Keys <= db.usedNodes
    && view.edges.Keys <= db.usedEdges
    && (forall e | e in view.edges && e in db.graph.edges :: view.edges[e] == db.graph.edges[e])
    && (forall n | n in a.rb.absentNodes && n in view.nodes :: db.Retired(n))
    && (forall e | e in view.edges && view.edges[e] in a.rb.absentTriples :: e !in db.graph.edges)
  }

  /** A load whose epoch has not moved has missed nothing but writes that are
      still to be applied. */
  ghost predicate LoadSound(s: State, l: LoadId)
    requires l in s.loads
  {
    var load := s.loads[l];
    && load.epoch <= s.epoch
    && (load.Loaded? && load.epoch == s.epoch ==> Tracks(load.copy, load.orphans, s.db, s.pending.Values))
  }

  ghost predicate Inv(s: State) {
    && s.db.Valid()
    && (s.applying.Some? ==> s.Serves() && ReadsSoundly(s.view.value, s.applying.value, s.db))
    && (s.Serves() ==> Tracks(s.Copy(), s.orphans, s.db, s.Outstanding()))
    && (forall l | l in s.loads :: LoadSound(s, l))
  }

  ghost predicate Init(s: State) {
    && s.db.Valid() && s.pending == map[] && s.serving && s.view == None && s.applying == None
    && s.loads == map[] && s.orphans == {}
  }

  lemma CommitKeepsInv(s: State, scope: ScopeId, w: Changes, after: Database)
    requires Inv(s) && Commits(s.db, after, w)
    ensures Inv(DoCommit(s, scope, w, after))
  {
    var s' := DoCommit(s, scope, w, after);
    var merged := s'.pending[scope];
    assert merged in s'.pending.Values;
    forall v | v in s.pending.Values
      ensures Absorbed(v, s'.pending.Values)
    {
      var k :| k in s.pending && s.pending[k] == v;
      assert s'.pending[k] in s'.pending.Values;
      assert Includes(s'.pending[k], v);
    }
    if s.Serves() {
      assert s'.Copy() == s.Copy();
      CommitWithMerged(s.Copy(), s.orphans, s.db, after, s.Outstanding(), w, s'.Outstanding(), merged);
    }
    forall l | l in s'.loads
      ensures LoadSound(s', l)
    {
      assert LoadSound(s, l);
      if s.loads[l].Loaded? && s.loads[l].epoch == s.epoch {
        CommitWithMerged(s.loads[l].copy, s.loads[l].orphans, s.db, after, s.pending.Values, w, s'.pending.Values, merged);
      }
    }
  }

  /** A batch's scope outlives one commit: its change log joins what the scope
      already holds. */
  lemma CommitWithMerged(copy: Graph, orphans: set<NodeId>, before: Database, after: Database,
                         ws: set<Changes>, w: Changes, ws': set<Changes>, merged: Changes)
    requires Tracks(copy, orphans, before, ws) && Commits(before, after, w)
    requires merged in ws' && Includes(merged, w) && forall v | v in ws :: Absorbed(v, ws')
    ensures Tracks(copy, orphans + NewOrphans(copy, before, after, ws'), after, ws')
  {
    assert Commits(before, after, merged) by {
      forall n: NodeId | before.graph.Node(n) != after.graph.Node(n)
        ensures NamesNodeChange(merged, n, before.graph.Node(n), after.graph.Node(n))
      {
        assert NamesNodeChange(w, n, before.graph.Node(n), after.graph.Node(n));
      }
      forall e: EdgeId | before.graph.Edge(e) != after.graph.Edge(e)
        ensures NamesEdgeChange(merged, e, before.graph.Edge(e), after.graph.Edge(e), after)
      {
        assert NamesEdgeChange(w, e, before.graph.Edge(e), after.graph.Edge(e), after);
      }
    }
    CommitKeepsTracks(copy, orphans, before, after, ws, merged, ws');
  }

  /** A tracked copy holds no id PostgreSQL never handed out and no edge row
      other than PostgreSQL's. */
  lemma TrackedRowsWereRead(g: Graph, orphans: set<NodeId>, db: Database, ws: set<Changes>)
    requires Tracks(g, orphans, db, ws)
    ensures g.nodes.Keys <= db.usedNodes && g.edges.Keys <= db.usedEdges
    ensures forall e | e in g.edges && e in db.graph.edges :: g.edges[e] == db.graph.edges[e]
  {
    forall n | n in g.nodes
      ensures n in db.usedNodes
    {
      assert NodeTracked(g, orphans, db, ws, n);
    }
    forall e | e in g.edges
      ensures e in db.usedEdges && (e in db.graph.edges ==> g.edges[e] == db.graph.edges[e])
    {
      assert EdgeTracked(g, db, ws, e);
    }
  }

  /** The agenda of an Apply covers everything its change log did. */
  lemma AgendaKeepsTracks(g: Graph, orphans: set<NodeId>, db: Database, ws: set<Changes>, w: Changes, ws': set<Changes>)
    requires Tracks(g, orphans, db, ws) && !w.fallback
    requires AgendaOf(g, w) in ws' && forall v | v in ws :: v == w || v in ws'
    ensures Tracks(g, orphans, db, ws')
  {
    var a := AgendaOf(g, w);
    forall n: NodeId
      ensures NodeTracked(g, orphans, db, ws', n)
    {
      assert NodeTracked(g, orphans, db, ws, n);
      if NodeCovered(n, g.Node(n), db.graph.Node(n), ws) {
        var v :| v in ws && (RereadsNode(v, n, g.Node(n)) || FindsNode(v, db.graph.Node(n)));
        var v' := if v == w then a else v;
        assert v' in ws' && (RereadsNode(v', n, g.Node(n)) || FindsNode(v', db.graph.Node(n)));
      }
    }
    forall e: EdgeId
      ensures EdgeTracked(g, db, ws', e)
    {
      assert EdgeTracked(g, db, ws, e);
      if EdgeCovered(e, g.Edge(e), db.graph.Edge(e), ws) {
        var v :| v in ws && RereadsEdge(v, e, g.Edge(e), db.graph.Edge(e));
        var v' := if v == w then a else v;
        assert v' in ws' && RereadsEdge(v', e, g.Edge(e), db.graph.Edge(e));
      }
    }
  }

  /** A change log that names nothing covers nothing. */
  lemma EmptyKeepsTracks(g: Graph, orphans: set<NodeId>, db: Database, ws: set<Changes>, w: Changes, ws': set<Changes>)
    requires Tracks(g, orphans, db, ws) && w.Empty()
    requires forall v | v in ws :: v == w || v in ws'
    ensures Tracks(g, orphans, db, ws')
  {
    forall n: NodeId
      ensures NodeTracked(g, orphans, db, ws', n)
    {
      assert NodeTracked(g, orphans, db, ws, n);
    }
    forall e: EdgeId
      ensures EdgeTracked(g, db, ws', e)
    {
      assert EdgeTracked(g, db, ws, e);
    }
  }

  lemma BeginApplyKeepsInv(s: State, scope: ScopeId)
    requires Inv(s) && s.applying.None? && scope in s.pending
    ensures Inv(DoBeginApply(s, scope))
  {
    var s' := DoBeginApply(s, scope);
    var w := s.pending[scope];
    forall v | v in s.pending.Values && v != w
      ensures v in s'.pending.Values
    {
      var k :| k in s.pending && s.pending[k] == v;
      assert k in s'.pending && s'.pending[k] == v;
    }
    forall l | l in s'.loads
      ensures LoadSound(s', l)
    {
      assert LoadSound(s, l);
    }
    if s'.Serves() {
      var g := s.view.value;
      assert s.Outstanding() == s.pending.Values;
      if s'.applying.Some? {
        assert s'.applying.value.Rest() == AgendaOf(g, w);
        assert s'.Copy() == g;
        TrackedRowsWereRead(g, s.orphans, s.db, s.Outstanding());
        AgendaKeepsTracks(g, s.orphans, s.db, s.Outstanding(), w, s'.Outstanding());
      } else {
        EmptyKeepsTracks(g, s.orphans, s.db, s.Outstanding(), w, s'.Outstanding());
      }
    }
  }

  /** One read of the running Apply takes `rest` to `rest'` and `copy` to
      `copy'`. It keeps the copy tracked when it corrects every node and edge
      that only the keys it discharged were covering. */
  lemma ReadKeepsTracks(copy: Graph, orphans: set<NodeId>, db: Database, ws: set<Changes>, rest: Changes,
                        copy': Graph, orphans': set<NodeId>, rest': Changes)
    requires Tracks(copy, orphans, db, ws + {rest})
    requires forall n :: copy'.Node(n) == db.graph.Node(n) ||
                         (&& copy'.Node(n) == copy.Node(n)
                          && (RereadsNode(rest, n, copy.Node(n)) ==> RereadsNode(rest', n, copy.Node(n)))
                          && (FindsNode(rest, db.graph.Node(n)) ==> FindsNode(rest', db.graph.Node(n)))
                          && (n in orphans ==> n in orphans'))
    requires forall e :: copy'.Edge(e) == db.graph.Edge(e) ||
                         (&& copy'.Edge(e) == copy.Edge(e)
                          && (RereadsEdge(rest, e, copy.Edge(e), db.graph.Edge(e)) ==>
                                RereadsEdge(rest', e, copy.Edge(e), db.graph.Edge(e))))
    requires orphans' <= orphans && forall n | n in orphans' :: copy'.Node(n) == copy.Node(n)
    ensures Tracks(copy', orphans', db, ws + {rest'})
  {
    forall n: NodeId
      ensures NodeTracked(copy', orphans', db, ws + {rest'}, n)
    {
      assert NodeTracked(copy, orphans, db, ws + {rest}, n);
      var copied, truth := copy.Node(n), db.graph.Node(n);
      assert copy'.Node(n) == truth || copy'.Node(n) == copied;
      if copy'.Node(n) != truth && n !in orphans' {
        var v :| v in ws + {rest} && (RereadsNode(v, n, copied) || FindsNode(v, truth));
        var v' := if v in ws then v else rest';
        assert v' in ws + {rest'} && (RereadsNode(v', n, copied) || FindsNode(v', truth));
      }
    }
    forall e: EdgeId
      ensures EdgeTracked(copy', db, ws + {rest'}, e)
    {
      assert EdgeTracked(copy, db, ws + {rest}, e);
      var copied, truth := copy.Edge(e), db.graph.Edge(e);
      assert copy'.Edge(e) == truth || copy'.Edge(e) == copied;
      if copy'.Edge(e) != truth && EdgeCovered(e, copied, truth, ws + {rest}) {
        var v :| v in ws + {rest} && RereadsEdge(v, e, copied, truth);
        var v' := if v in ws then v else rest';
        assert v' in ws + {rest'} && RereadsEdge(v', e, copied, truth);
      }
    }
  }

  /** A lookup keeps what earlier reads established about the view. */
  lemma ObjectIdReadsSoundly(view: Graph, a: Applying, db: Database, o: ObjectId)
    requires ReadsSoundly(view, a, db)
    ensures ReadsSoundly(view, DoReadObjectId(a, db, view, o), db)
  {
  }

  lemma TripleReadsSoundly(view: Graph, a: Applying, db: Database, t: EdgeRow)
    requires ReadsSoundly(view, a, db)
    ensures ReadsSoundly(view, DoReadTriple(a, db, t), db)
  {
    var found := EdgesWith(db, t);
    assert forall e | e in db.graph.edges && db.graph.edges[e] == t :: e in found;
  }

  lemma NodeReadsSoundly(view: Graph, a: Applying, db: Database, n: NodeId)
    requires ReadsSoundly(view, a, db)
    ensures ReadsSoundly(view, DoReadNode(a, db, n), db)
  {
  }

  /** A read of one node corrects it. */
  lemma NodeCorrects(view: Graph, a: Applying, db: Database, n: NodeId)
    requires !a.rb.AnsweredNode(n)
    ensures
      var copy, copy' := Staged(view, a.rb), Staged(view, DoReadNode(a, db, n).rb);
      && copy'.edges == copy.edges
      && forall m :: copy'.Node(m) == if m == n then db.graph.Node(n) else copy.Node(m)
  {
  }

  lemma ReadNodeKeepsInv(s: State, n: NodeId)
    requires Inv(s) && CanDo(s, ReadNode(n))
    ensures Inv(Do(s, ReadNode(n)))
  {
    hide NodeTracked, EdgeTracked, LoadSound, ReadsSoundly, Layer, Staged;
    var s' := Do(s, ReadNode(n));
    var a, a' := s.applying.value, s'.applying.value;
    NodeReadsSoundly(s.view.value, a, s.db, n);
    NodeCorrects(s.view.value, a, s.db, n);
    ReadKeepsTracks(s.Copy(), s.orphans, s.db, s.pending.Values, a.Rest(), s'.Copy(), s'.orphans, a'.Rest());
    KeepsLoads(s, s');
  }

  /** A step that touches neither PostgreSQL nor the pending writes keeps every
      load sound. */
  lemma KeepsLoads(s: State, s': State)
    requires forall l | l in s.loads :: LoadSound(s, l)
    requires s'.db == s.db && s'.pending == s.pending && s'.loads == s.loads && s.epoch <= s'.epoch
    ensures forall l | l in s'.loads :: LoadSound(s', l)
  {
    forall l | l in s'.loads
      ensures LoadSound(s', l)
    {
      assert LoadSound(s, l);
    }
  }

  /** A lookup by objectid corrects exactly the nodes that carry it now. */
  lemma ObjectIdCorrects(view: Graph, a: Applying, db: Database, o: ObjectId)
    ensures
      var copy, copy' := Staged(view, a.rb), Staged(view, DoReadObjectId(a, db, view, o).rb);
      && copy'.edges == copy.edges
      && forall n :: copy'.Node(n) == if n in NodesWith(db, o) then db.graph.Node(n) else copy.Node(n)
  {
  }

  lemma ReadObjectIdKeepsInv(s: State, o: ObjectId)
    requires Inv(s) && CanDo(s, ReadObjectId(o))
    ensures Inv(Do(s, ReadObjectId(o)))
  {
    hide NodeTracked, EdgeTracked, LoadSound, ReadsSoundly, Layer, Staged;
    var s' := Do(s, ReadObjectId(o));
    var a, a' := s.applying.value, s'.applying.value;
    ObjectIdReadsSoundly(s.view.value, a, s.db, o);
    ObjectIdCorrects(s.view.value, a, s.db, o);
    ReadKeepsTracks(s.Copy(), s.orphans, s.db, s.pending.Values, a.Rest(), s'.Copy(), s'.orphans, a'.Rest());
    KeepsLoads(s, s');
  }

  lemma EdgeReadsSoundly(view: Graph, a: Applying, db: Database, e: EdgeId)
    requires ReadsSoundly(view, a, db)
    ensures ReadsSoundly(view, DoReadEdge(a, db, e), db)
  {
  }

  /** A read of one edge corrects it. */
  lemma EdgeCorrects(view: Graph, a: Applying, db: Database, e: EdgeId)
    requires !a.rb.AnsweredEdge(e)
    ensures
      var copy, copy' := Staged(view, a.rb), Staged(view, DoReadEdge(a, db, e).rb);
      && copy'.nodes == copy.nodes
      && forall f :: copy'.Edge(f) == if f == e then db.graph.Edge(e) else copy.Edge(f)
  {
  }

  lemma ReadEdgeKeepsInv(s: State, e: EdgeId)
    requires Inv(s) && CanDo(s, ReadEdge(e))
    ensures Inv(Do(s, ReadEdge(e)))
  {
    hide NodeTracked, EdgeTracked, LoadSound, ReadsSoundly, Layer, Staged;
    var s' := Do(s, ReadEdge(e));
    var a, a' := s.applying.value, s'.applying.value;
    EdgeReadsSoundly(s.view.value, a, s.db, e);
    EdgeCorrects(s.view.value, a, s.db, e);
    ReadKeepsTracks(s.Copy(), s.orphans, s.db, s.pending.Values, a.Rest(), s'.Copy(), s'.orphans, a'.Rest());
    KeepsLoads(s, s');
  }

  /** A lookup by triple corrects exactly the edges that carry it now. */
  lemma TripleCorrects(view: Graph, a: Applying, db: Database, t: EdgeRow)
    ensures
      var copy, copy' := Staged(view, a.rb), Staged(view, DoReadTriple(a, db, t).rb);
      && copy'.nodes == copy.nodes
      && forall e :: copy'.Edge(e) == if db.graph.Edge(e) == Some(t) then Some(t) else copy.Edge(e)
  {
    var found := EdgesWith(db, t);
    assert forall e :: e in found <==> e in db.graph.edges && db.graph.edges[e] == t;
  }

  lemma ReadTripleKeepsInv(s: State, t: EdgeRow)
    requires Inv(s) && CanDo(s, ReadTriple(t))
    ensures Inv(Do(s, ReadTriple(t)))
  {
    hide EdgeTracked, LoadSound, NodeTracked, ReadsSoundly, Layer, Staged;
    var s' := Do(s, ReadTriple(t));
    var a, a' := s.applying.value, s'.applying.value;
    TripleReadsSoundly(s.view.value, a, s.db, t);
    TripleCorrects(s.view.value, a, s.db, t);
    ReadKeepsTracks(s.Copy(), s.orphans, s.db, s.pending.Values, a.Rest(), s'.Copy(), s'.orphans, a'.Rest());
    KeepsLoads(s, s');
  }

  /** What publishing adds to the staged rows: tombstones for edges that hang on
      a deleted node or that PostgreSQL no longer holds. */
  lemma PublishedDiffersOnlyOnDeadEdges(view: Graph, a: Applying, db: Database, e: EdgeId)
    requires ReadsSoundly(view, a, db)
    ensures
      var after := Layer(view, SegmentOf(view, a.rb));
      || after.Edge(e) == Staged(view, a.rb).Edge(e)
      || (after.Edge(e) == None && (e in db.graph.edges ==> db.LooseEnd(db.graph.edges[e])))
  {
  }

  lemma PublishKeepsEdge(view: Graph, a: Applying, orphans: set<NodeId>, db: Database, ws: set<Changes>, e: EdgeId)
    requires ReadsSoundly(view, a, db)
    requires EdgeTracked(Staged(view, a.rb), db, ws, e)
    ensures EdgeTracked(Layer(view, SegmentOf(view, a.rb)), db, ws, e)
  {
    PublishedDiffersOnlyOnDeadEdges(view, a, db, e);
  }

  lemma PublishKeepsNode(view: Graph, a: Applying, orphans: set<NodeId>, db: Database, ws: set<Changes>, n: NodeId)
    requires NodeTracked(Staged(view, a.rb), orphans, db, ws, n)
    ensures NodeTracked(Layer(view, SegmentOf(view, a.rb)), orphans, db, ws, n)
  {
    assert Layer(view, SegmentOf(view, a.rb)).Node(n) == Staged(view, a.rb).Node(n);
  }

  /** Once nothing is left to read, the running Apply covers nothing any more. */
  lemma PublishKeepsTracks(view: Graph, a: Applying, orphans: set<NodeId>, db: Database, ws: set<Changes>)
    requires ReadsSoundly(view, a, db) && a.Rest().Empty()
    requires Tracks(Staged(view, a.rb), orphans, db, ws + {a.Rest()})
    ensures Tracks(Layer(view, SegmentOf(view, a.rb)), orphans, db, ws)
  {
    hide NodeTracked, EdgeTracked, ReadsSoundly, Layer, Staged;
    EmptyKeepsTracks(Staged(view, a.rb), orphans, db, ws + {a.Rest()}, a.Rest(), ws);
    forall n: NodeId
      ensures NodeTracked(Layer(view, SegmentOf(view, a.rb)), orphans, db, ws, n)
    {
      PublishKeepsNode(view, a, orphans, db, ws, n);
    }
    forall e: EdgeId
      ensures EdgeTracked(Layer(view, SegmentOf(view, a.rb)), db, ws, e)
    {
      PublishKeepsEdge(view, a, orphans, db, ws, e);
    }
  }

  lemma PublishKeepsInv(s: State)
    requires Inv(s) && CanDo(s, Publish)
    ensures Inv(Do(s, Publish))
  {
    var s' := Do(s, Publish);
    PublishKeepsTracks(s.view.value, s.applying.value, s.orphans, s.db, s.pending.Values);
    assert s'.Outstanding() == s.pending.Values;
    KeepsLoads(s, s');
  }

  /** Adoption under an unmoved epoch re-establishes tracking from nothing but
      the loaded copy. */
  lemma EndLoadKeepsInv(s: State, l: LoadId)
    requires Inv(s) && CanDo(s, EndLoad(l))
    ensures Inv(DoEndLoad(s, l))
  {
    var s' := DoEndLoad(s, l);
    assert s'.Outstanding() == s.pending.Values;
    assert LoadSound(s, l);
    forall k | k in s'.loads
      ensures LoadSound(s', k)
    {
      assert LoadSound(s, k);
    }
  }

  lemma StepKeepsInv(s: State, step: Step)
    requires Inv(s) && CanDo(s, step)
    ensures Inv(Do(s, step))
  {
    match step
    case Commit(scope, w, after) => CommitKeepsInv(s, scope, w, after);
    case BeginApply(scope) => BeginApplyKeepsInv(s, scope);
    case ReadNode(n) => ReadNodeKeepsInv(s, n);
    case ReadObjectId(o) => ReadObjectIdKeepsInv(s, o);
    case ReadEdge(e) => ReadEdgeKeepsInv(s, e);
    case ReadTriple(t) => ReadTripleKeepsInv(s, t);
    case Publish => PublishKeepsInv(s);
    case FailApply(_) => KeepsLoads(s, Do(s, step));
    case Distrust => KeepsLoads(s, Do(s, step));
    case BeginLoad(l) => assert forall k | k in s.loads :: LoadSound(s, k);
    case ReadAll(l) =>
      assert forall k | k in s.loads :: LoadSound(s, k);
      FreshCopyTracks(s.db, s.pending.Values);
    case EndLoad(l) => EndLoadKeepsInv(s, l);
  }

  // ---- Whole runs -----------------------------------------------------------

  /** `steps`, taken one after the other, lead from `s` to `t`. */
  ghost predicate Run(s: State, steps: seq<Step>, t: State)
    decreases |steps|
  {
    if steps == [] then s == t
    else CanDo(s, steps[0]) && Run(Do(s, steps[0]), steps[1..], t)
  }

  lemma {:induction false} RunKeepsInv(s: State, steps: seq<Step>, t: State)
    requires Inv(s) && Run(s, steps, t)
    ensures Inv(t)
    decreases |steps|
  {
    if steps != [] {
      StepKeepsInv(s, steps[0]);
      RunKeepsInv(Do(s, steps[0]), steps[1..], t);
    }
  }

  /** At every moment of every run, each row on which the serving view differs
      from PostgreSQL is covered: a node by an outstanding write (or it is an
      orphan), an edge by an outstanding write or by a deleted endpoint. */
  lemma DifferencesAreCovered(s: State, steps: seq<Step>, t: State, n: NodeId, e: EdgeId)
    requires Init(s) && Run(s, steps, t) && t.Serves()
    ensures t.Copy().Node(n) != t.db.graph.Node(n) ==>
      n in t.orphans || NodeCovered(n, t.Copy().Node(n), t.db.graph.Node(n), t.Outstanding())
    ensures t.Copy().Visible().Edge(e) != t.db.graph.Visible().Edge(e) ==>
      || EdgeCovered(e, t.Copy().Edge(e), t.db.graph.Edge(e), t.Outstanding())
      || exists m: NodeId ::
           && ((e in t.Copy().edges && t.Copy().edges[e].Touches(m)) || (e in t.db.graph.edges && t.db.graph.edges[e].Touches(m)))
           && t.Copy().Node(m) != t.db.graph.Node(m)
  {
    RunKeepsInv(s, steps, t);
    var copy, truth := t.Copy(), t.db.graph;
    assert NodeTracked(copy, t.orphans, t.db, t.Outstanding(), n);
    assert EdgeTracked(copy, t.db, t.Outstanding(), e);
    if copy.Visible().Edge(e) != truth.Visible().Edge(e) {
      var row := if e in copy.edges then copy.edges[e] else truth.edges[e];
      if copy.Node(row.start) == truth.Node(row.start) && copy.Node(row.end) == truth.Node(row.end) {
        assert copy.Edge(e) != truth.Edge(e);
        assert EdgeCovered(e, copy.Edge(e), truth.Edge(e), t.Outstanding());
      } else {
        assert row.Touches(row.start) && row.Touches(row.end);
      }
    }
  }

  lemma SameRowsSameGraph(a: Graph, b: Graph)
    requires forall n: NodeId :: a.Node(n) == b.Node(n)
    requires forall e: EdgeId :: a.Edge(e) == b.Edge(e)
    ensures a == b
  {
    assert forall n :: n in a.nodes <==> a.Node(n).Some?;
    assert forall n | n in a.nodes :: a.nodes[n] == a.Node(n).value && b.nodes[n] == b.Node(n).value;
    assert a.nodes == b.nodes;
    assert forall e :: e in a.edges <==> a.Edge(e).Some?;
    assert forall e | e in a.edges :: a.edges[e] == a.Edge(e).value && b.edges[e] == b.Edge(e).value;
    assert a.edges == b.edges;
  }

  /** In a state the invariant holds of, an engine that serves with nothing pending
      shows exactly PostgreSQL's graph -- if and only if no orphan is left. */
  lemma SettledAgreement(t: State)
    requires Inv(t) && t.Serves() && t.Settled()
    ensures t.view.value.Visible() == t.db.graph.Visible() <==> t.orphans == {}
  {
    var copy, truth := t.view.value, t.db.graph;
    assert t.Outstanding() == {};
    forall n: NodeId
      ensures copy.Node(n) != truth.Node(n) <==> n in t.orphans
    {
      assert NodeTracked(copy, t.orphans, t.db, {}, n);
    }
    if t.orphans == {} {
      forall e: EdgeId
        ensures copy.Visible().Edge(e) == truth.Visible().Edge(e)
      {
        assert EdgeTracked(copy, t.db, {}, e);
        if e in copy.edges {
          assert copy.Node(copy.edges[e].start) == truth.Node(copy.edges[e].start);
          assert copy.Node(copy.edges[e].end) == truth.Node(copy.edges[e].end);
        }
        if e in truth.edges {
          assert copy.Node(truth.edges[e].start) == truth.Node(truth.edges[e].start);
          assert copy.Node(truth.edges[e].end) == truth.Node(truth.edges[e].end);
        }
      }
      forall n: NodeId
        ensures copy.Visible().Node(n) == truth.Visible().Node(n)
      {
        assert copy.Node(n) == truth.Node(n);
      }
      SameRowsSameGraph(copy.Visible(), truth.Visible());
    } else {
      var n :| n in t.orphans;
      assert copy.Node(n) != truth.Node(n);
    }
  }

  /** Replica agreement. Once every committed write has been applied, a serving
      view shows exactly PostgreSQL's graph -- if and only if the run has left
      no orphan behind. */
  lemma ReplicaAgreement(s: State, steps: seq<Step>, t: State)
    requires Init(s) && Run(s, steps, t) && t.Serves() && t.Settled()
    ensures t.view.value.Visible() == t.db.graph.Visible() <==> t.orphans == {}
  {
    RunKeepsInv(s, steps, t);
    SettledAgreement(t);
  }
}
