/** What the wrappers record is what the replica needs: a change log that covers the
    rows of a commit is one that names everything the commit changed. */
module Recording {
  import opened GraphStore
  import opened History
  import opened Replica
  import opened Agreement

  /** The rows that took PostgreSQL from one state to the next: every node and edge
      that differs, but for edges that went with one of their endpoints. */
  ghost predicate AreItsRows(before: Database, after: Database, rows: set<Row>) {
    && (forall n: NodeId | before.graph.Node(n) != after.graph.Node(n) ::
          NodeChange(n, before.graph.Node(n), after.graph.Node(n)) in rows)
    && (forall e: EdgeId | before.graph.Edge(e) != after.graph.Edge(e) ::
          || EdgeChange(e, before.graph.Edge(e), after.graph.Edge(e)) in rows
          || (before.graph.Edge(e).Some? && after.LooseEnd(before.graph.Edge(e).value)))
  }

  lemma NamedNodeChange(keys: set<Key>, n: NodeId, was: Option<NodeRow>, now: Option<NodeRow>)
    requires Fallback in keys || Names(keys, NodeChange(n, was, now))
    ensures NamesNodeChange(ChangesOf(keys), n, was, now)
  {
    if Fallback !in keys {
      var key :| key in keys && AnswersTo(NodeChange(n, was, now), key);
      if key.NodeDelete? {
        assert key.criteria in ChangesOf(keys).nodeDeletes && key.criteria.Matches(was.value);
      }
    }
  }

  lemma NamedEdgeChange(keys: set<Key>, e: EdgeId, before: Option<EdgeRow>, after: Option<EdgeRow>, db: Database)
    requires Fallback in keys || Names(keys, EdgeChange(e, before, after))
    ensures NamesEdgeChange(ChangesOf(keys), e, before, after, db)
  {
    if Fallback !in keys {
      var key :| key in keys && AnswersTo(EdgeChange(e, before, after), key);
      if key.EdgeDelete? {
        assert key.kinds in ChangesOf(keys).edgeDeletes && before.value.kind in key.kinds;
      }
    }
  }

  /** A scope that covers the rows of a commit is a change log the replica can commit
      it under. */
  lemma CoveredRowsCommit(before: Database, after: Database, keys: set<Key>, rows: set<Row>)
    requires Evolves(before, after) && AreItsRows(before, after, rows) && Covers(keys, rows)
    ensures Commits(before, after, ChangesOf(keys))
  {
    hide ChangesOf, NamesNodeChange;
    forall n: NodeId | before.graph.Node(n) != after.graph.Node(n)
      ensures NamesNodeChange(ChangesOf(keys), n, before.graph.Node(n), after.graph.Node(n))
    {
      assert NodeChange(n, before.graph.Node(n), after.graph.Node(n)) in rows;
      NamedNodeChange(keys, n, before.graph.Node(n), after.graph.Node(n));
    }
    forall e: EdgeId | before.graph.Edge(e) != after.graph.Edge(e)
      ensures NamesEdgeChange(ChangesOf(keys), e, before.graph.Edge(e), after.graph.Edge(e), after)
    {
      if EdgeChange(e, before.graph.Edge(e), after.graph.Edge(e)) in rows {
        NamedEdgeChange(keys, e, before.graph.Edge(e), after.graph.Edge(e), after);
      }
    }
  }

  /** So a commit recorded by a scope that covers its rows, at any moment of any run,
      is one the replica keeps up with. */
  lemma RecordedCommitKeepsInv(s: State, scope: ScopeId, keys: set<Key>, rows: set<Row>, after: Database)
    requires Inv(s) && Evolves(s.db, after) && AreItsRows(s.db, after, rows) && Covers(keys, rows)
    ensures CanDo(s, Commit(scope, ChangesOf(keys), after)) && Inv(Do(s, Commit(scope, ChangesOf(keys), after)))
  {
    CoveredRowsCommit(s.db, after, keys, rows);
    StepKeepsInv(s, Commit(scope, ChangesOf(keys), after));
  }
}
