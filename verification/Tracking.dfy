/** What it means for a copy of the graph to keep up with PostgreSQL while
    committed writes are still waiting to be applied: every row on which the
    copy is wrong will be looked at again by one of them. */
module Tracking {
  import opened GraphStore

  /** Applying `w` will read node `n` again, whatever PostgreSQL holds by then. */
  predicate RereadsNode(w: Changes, n: NodeId, copied: Option<NodeRow>) {
    w.fallback || n in w.nodeIds || (copied.Some? && w.DeletesNodeLike(copied.value))
  }

  /** Applying `w` looks up the objectid the row carries now, and so finds it. */
  predicate FindsNode(w: Changes, truth: Option<NodeRow>) {
    truth.Some? && truth.value.objectId.Some? && truth.value.objectId.value in w.objectIds
  }

  predicate RereadsEdge(w: Changes, e: EdgeId, copied: Option<EdgeRow>, truth: Option<EdgeRow>) {
    || w.fallback
    || e in w.edgeIds
    || (copied.Some? && w.DeletesKind(copied.value.kind))
    || (truth.Some? && truth.value in w.triples)
  }

  ghost predicate NodeCovered(n: NodeId, copied: Option<NodeRow>, truth: Option<NodeRow>, ws: set<Changes>) {
    exists w | w in ws :: RereadsNode(w, n, copied) || FindsNode(w, truth)
  }

  ghost predicate EdgeCovered(e: EdgeId, copied: Option<EdgeRow>, truth: Option<EdgeRow>, ws: set<Changes>) {
    exists w | w in ws :: RereadsEdge(w, e, copied, truth)
  }

  /** Node `n` of `copy` is right, or some write of `ws` covers it, or it is an
      orphan: a deleted node nothing is left to look at. */
  ghost predicate NodeTracked(copy: Graph, orphans: set<NodeId>, db: Database, ws: set<Changes>, n: NodeId) {
    && (n in copy.nodes ==> n in db.usedNodes)
    && (n in orphans ==> n in copy.nodes && db.Retired(n))
    && (copy.Node(n) != db.graph.Node(n) ==> n in orphans || NodeCovered(n, copy.Node(n), db.graph.Node(n), ws))
  }

  /** Edge `e` of `copy` is right, or some write of `ws` covers it, or it hangs
      on a deleted node and so is never visible once that node is. */
  ghost predicate EdgeTracked(copy: Graph, db: Database, ws: set<Changes>, e: EdgeId) {
    && (e in copy.edges ==> e in db.usedEdges)
    && (e in copy.edges && e in db.graph.edges ==> copy.edges[e] == db.graph.edges[e])
    && (copy.Edge(e) != db.graph.Edge(e) ==>
          || EdgeCovered(e, copy.Edge(e), db.graph.Edge(e), ws)
          || (e in copy.edges && db.LooseEnd(copy.edges[e]))
          || (e in db.graph.edges && db.LooseEnd(db.graph.edges[e])))
  }

  ghost predicate Tracks(copy: Graph, orphans: set<NodeId>, db: Database, ws: set<Changes>) {
    && db.Valid()
    && (forall n: NodeId :: NodeTracked(copy, orphans, db, ws, n))
    && (forall e: EdgeId :: EdgeTracked(copy, db, ws, e))
  }

  /** A copy just taken from PostgreSQL is right everywhere. */
  lemma FreshCopyTracks(db: Database, ws: set<Changes>)
    requires db.Valid()
    ensures Tracks(db.graph, {}, db, ws)
  {
  }

  /** The nodes a commit leaves wrong in `copy` with no write of `ws` to look at
      them again: deleted by a kind criteria their copied row does not match,
      and until now only findable by an objectid. */
  function NewOrphans(copy: Graph, before: Database, after: Database, ws: set<Changes>): set<NodeId> {
    set n | n in copy.nodes && n in before.graph.nodes && n !in after.graph.nodes
            && forall w | w in ws :: !RereadsNode(w, n, copy.Node(n))
  }

  lemma CommitKeepsNode(copy: Graph, orphans: set<NodeId>, before: Database, after: Database,
                        ws: set<Changes>, w: Changes, ws': set<Changes>, n: NodeId)
    requires Tracks(copy, orphans, before, ws) && Commits(before, after, w)
    requires w in ws' && forall v | v in ws :: Absorbed(v, ws')
    ensures NodeTracked(copy, orphans + NewOrphans(copy, before, after, ws'), after, ws', n)
  {
    assert NodeTracked(copy, orphans, before, ws, n);
    var copied, old', new' := copy.Node(n), before.graph.Node(n), after.graph.Node(n);
    if old' == new' {
      if copied != new' && n !in orphans {
        var v :| v in ws && (RereadsNode(v, n, copied) || FindsNode(v, old'));
        assert Absorbed(v, ws');
        var v' :| v' in ws' && Includes(v', v);
        IncludesCovers(v', v, n, copied, new');
      }
    } else {
      assert NamesNodeChange(w, n, old', new');
      if copied != new' && n !in NewOrphans(copy, before, after, ws') && n in copy.nodes && new' == None {
        assert exists v | v in ws' :: RereadsNode(v, n, copied);
      }
    }
  }

  /** `v'` names every key `v` does. */
  predicate Includes(v': Changes, v: Changes) {
    && v.nodeIds <= v'.nodeIds && v.objectIds <= v'.objectIds && v.edgeIds <= v'.edgeIds && v.triples <= v'.triples
    && v.nodeDeletes <= v'.nodeDeletes && v.edgeDeletes <= v'.edgeDeletes && (v.fallback ==> v'.fallback)
  }

  ghost predicate Absorbed(v: Changes, ws: set<Changes>) {
    exists v' | v' in ws :: Includes(v', v)
  }

  lemma IncludesCovers(v': Changes, v: Changes, n: NodeId, copied: Option<NodeRow>, truth: Option<NodeRow>)
    requires Includes(v', v)
    ensures RereadsNode(v, n, copied) ==> RereadsNode(v', n, copied)
    ensures FindsNode(v, truth) ==> FindsNode(v', truth)
  {
  }

  lemma CommitKeepsEdge(copy: Graph, orphans: set<NodeId>, before: Database, after: Database,
                        ws: set<Changes>, w: Changes, ws': set<Changes>, e: EdgeId)
    requires Tracks(copy, orphans, before, ws) && Commits(before, after, w)
    requires w in ws' && forall v | v in ws :: Absorbed(v, ws')
    ensures EdgeTracked(copy, after, ws', e)
  {
    assert EdgeTracked(copy, before, ws, e);
    var copied, old', new' := copy.Edge(e), before.graph.Edge(e), after.graph.Edge(e);
    if old' == new' {
      if copied != new' && EdgeCovered(e, copied, old', ws) {
        var v :| v in ws && RereadsEdge(v, e, copied, old');
        assert Absorbed(v, ws');
        var v' :| v' in ws' && Includes(v', v);
        assert RereadsEdge(v', e, copied, new');
      }
    } else {
      assert NamesEdgeChange(w, e, old', new', after);
      if copied != new' {
        assert RereadsEdge(w, e, copied, new') || (e in copy.edges && after.LooseEnd(copy.edges[e]));
      }
    }
  }

  /** A commit keeps every copy tracked, provided its change log joins the
      writes that are still to be applied -- up to the orphans it makes. */
  lemma CommitKeepsTracks(copy: Graph, orphans: set<NodeId>, before: Database, after: Database,
                          ws: set<Changes>, w: Changes, ws': set<Changes>)
    requires Tracks(copy, orphans, before, ws) && Commits(before, after, w)
    requires w in ws' && forall v | v in ws :: Absorbed(v, ws')
    ensures Tracks(copy, orphans + NewOrphans(copy, before, after, ws'), after, ws')
  {
    forall n: NodeId {
      CommitKeepsNode(copy, orphans, before, after, ws, w, ws', n);
    }
    forall e: EdgeId {
      CommitKeepsEdge(copy, orphans, before, after, ws, w, ws', e);
    }
  }
}
