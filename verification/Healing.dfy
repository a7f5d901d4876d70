/** What one Apply's lookups are good for: a key looked up and found on no row is
    gone from the view the Apply publishes, and a deleted node found that way is
    never shown again. */
module Healing {
  import opened GraphStore
  import opened Overlay
  import opened Candidates
  import opened Tracking
  import opened Replica
  import opened Agreement
  import opened Orphans
  import opened Stranding

  // ---- Within one Apply -----------------------------------------------------

  /** No step of these ends the running Apply. */
  predicate Reading(steps: seq<Step>) {
    forall step | step in steps :: !step.Publish? && !step.FailApply?
  }

  /** What has been answered stays so, and what is to be read is still to be. */
  predicate KeepsAnswers(a: Applying, a': Applying) {
    && a.rb.absentNodes <= a'.rb.absentNodes && a.rb.nodes.Keys <= a'.rb.nodes.Keys
    && a.rb.absentTriples <= a'.rb.absentTriples && a.agenda.nodeIds <= a'.agenda.nodeIds
  }

  lemma StepKeepsAnswers(s: State, step: Step)
    requires CanDo(s, step) && s.applying.Some? && !step.Publish? && !step.FailApply?
    ensures var s' := Do(s, step);
            s'.applying.Some? && s'.view == s.view && KeepsAnswers(s.applying.value, s'.applying.value)
  {
    hide Commits, NewOrphans, Staged, Layer, AgendaOf, NodesWith, EdgesWith, NodesUnder;
  }

  lemma {:induction false} RunKeepsAnswers(s: State, steps: seq<Step>, t: State)
    requires Run(s, steps, t) && s.applying.Some? && Reading(steps)
    ensures t.applying.Some? && t.view == s.view && KeepsAnswers(s.applying.value, t.applying.value)
    decreases |steps|
  {
    hide CanDo, Do;
    if steps != [] {
      assert steps[0] in steps && forall step | step in steps[1..] :: step in steps;
      StepKeepsAnswers(s, steps[0]);
      RunKeepsAnswers(Do(s, steps[0]), steps[1..], t);
    }
  }

  /** A lookup of an objectid that no row carries: every node the view holds under
      it is answered or will be read. */
  lemma LookupFansOut(s: State, o: ObjectId)
    requires CanDo(s, ReadObjectId(o)) && !Carried(s.db, Some(o))
    ensures
      var a := Do(s, ReadObjectId(o)).applying.value;
      && a.rb.nodes == s.applying.value.rb.nodes
      && forall n | n in NodesUnder(s.view.value, o) :: n in a.agenda.nodeIds && (a.rb.AnsweredNode(n) || n in a.Rest().nodeIds)
  {
    assert NodesWith(s.db, o).Keys == {};
  }

  /** By the time the Apply publishes, each of them has been answered. A deleted one
      that had not been read before the lookup is gone from what it publishes. */
  lemma LookupIsAnswered(s: State, o: ObjectId, steps: seq<Step>, u: State, n: NodeId)
    requires Inv(s) && CanDo(s, ReadObjectId(o)) && !Carried(s.db, Some(o)) && n in NodesUnder(s.view.value, o)
    requires Run(Do(s, ReadObjectId(o)), steps, u) && Reading(steps) && CanDo(u, Publish)
    ensures u.applying.value.rb.AnsweredNode(n)
    ensures s.db.Retired(n) && n !in s.applying.value.rb.nodes ==> n !in Do(u, Publish).view.value.nodes
  {
    hide Inv, Run, Reading, NodesUnder, KeepsAnswers;
    LookupFansOut(s, o);
    AnsweredByPublishing(Do(s, ReadObjectId(o)), steps, u, n);
    if s.db.Retired(n) && n !in s.applying.value.rb.nodes {
      StepKeepsInv(s, ReadObjectId(o));
      DeletedIsNotStaged(Do(s, ReadObjectId(o)), steps, u, n);
      PublishedRows(u.view.value, u.applying.value.rb);
    }
  }

  lemma AnsweredByPublishing(s: State, steps: seq<Step>, u: State, n: NodeId)
    requires Run(s, steps, u) && s.applying.Some? && Reading(steps) && CanDo(u, Publish)
    requires n in s.applying.value.agenda.nodeIds
    ensures u.applying.value.rb.AnsweredNode(n)
  {
    RunKeepsAnswers(s, steps, u);
    assert n !in u.applying.value.Rest().nodeIds;
  }

  /** No read stages a node PostgreSQL has deleted, and none brings it back. */
  lemma StepStagesNoDeleted(s: State, step: Step, n: NodeId)
    requires CanDo(s, step) && s.db.Retired(n)
    requires s.applying.Some? ==> n !in s.applying.value.rb.nodes
    ensures Do(s, step).db.Retired(n)
    ensures Do(s, step).applying.Some? ==> n !in Do(s, step).applying.value.rb.nodes
  {
    hide NewOrphans, Staged, Layer, SegmentOf, AgendaOf, EdgesWith, NodesUnder, NamesNodeChange, NamesEdgeChange;
  }

  lemma {:induction false} DeletedIsNotStaged(s: State, steps: seq<Step>, u: State, n: NodeId)
    requires Run(s, steps, u) && s.db.Retired(n)
    requires s.applying.Some? ==> n !in s.applying.value.rb.nodes
    ensures u.db.Retired(n) && (u.applying.Some? ==> n !in u.applying.value.rb.nodes)
    decreases |steps|
  {
    hide CanDo, Do;
    if steps != [] {
      StepStagesNoDeleted(s, steps[0], n);
      DeletedIsNotStaged(Do(s, steps[0]), steps[1..], u, n);
    }
  }

  /** A triple PostgreSQL holds no edge for: an edge the view showed of that triple is
      gone from what the Apply publishes, unless it was read by its id. */
  lemma TripleIsAnswered(s: State, triple: EdgeRow, steps: seq<Step>, u: State, e: EdgeId)
    requires CanDo(s, ReadTriple(triple)) && forall f | f in s.db.graph.edges :: s.db.graph.edges[f] != triple
    requires Run(Do(s, ReadTriple(triple)), steps, u) && Reading(steps) && CanDo(u, Publish)
    requires u.view.value.Visible().Edge(e) == Some(triple) && e !in u.applying.value.rb.edges
    ensures Do(u, Publish).view.value.Edge(e) == None
  {
    hide Layer, SegmentOf, Commits;
    var found := EdgesWith(s.db, triple);
    assert found == map[];
    RunKeepsAnswers(Do(s, ReadTriple(triple)), steps, u);
    PublishedRows(u.view.value, u.applying.value.rb);
  }

  // ---- Over a whole run -----------------------------------------------------

  /** No load that has read its copy holds `n`. */
  ghost predicate LoadsLack(s: State, n: NodeId) {
    forall l | l in s.loads && s.loads[l].Loaded? :: n !in s.loads[l].copy.nodes
  }

  /** The deleted node `n` is out of the view, or on its way out of it: the running
      Apply has found it absent, or has still to read it. */
  ghost predicate Leaving(s: State, n: NodeId) {
    && s.db.Retired(n) && LoadsLack(s, n)
    && (s.applying.Some? ==> s.view.Some? && n !in s.applying.value.rb.nodes)
    && (s.Serves() && n in s.view.value.nodes ==> s.applying.Some? && n in s.applying.value.agenda.nodeIds)
  }

  lemma PublishKeepsLeaving(s: State, n: NodeId)
    requires CanDo(s, Publish) && Leaving(s, n)
    ensures Leaving(Do(s, Publish), n)
  {
    hide Layer, SegmentOf;
    PublishedRows(s.view.value, s.applying.value.rb);
    assert n !in s.applying.value.Rest().nodeIds;
    assert Layer(s.view.value, SegmentOf(s.view.value, s.applying.value.rb)).Node(n) ==
           if n in s.applying.value.rb.absentNodes then None else s.view.value.Node(n);
  }

  lemma StepKeepsLeaving(s: State, step: Step, n: NodeId)
    requires CanDo(s, step) && Leaving(s, n) && (s.applying.Some? ==> s.Serves())
    ensures Leaving(Do(s, step), n)
  {
    hide NewOrphans, Staged, Layer, SegmentOf, AgendaOf, EdgesWith, NodesWith, NodesUnder, NamesNodeChange, NamesEdgeChange;
    StepStagesNoDeleted(s, step, n);
    if step.Publish? {
      PublishKeepsLeaving(s, n);
    } else if s.applying.Some? && !step.FailApply? {
      StepKeepsAnswers(s, step);
    }
  }

  lemma {:induction false} RunKeepsLeaving(s: State, steps: seq<Step>, t: State, n: NodeId)
    requires Inv(s) && Leaving(s, n) && Run(s, steps, t)
    ensures !ShownInVain(t, n)
    decreases |steps|
  {
    hide CanDo, Do, Tracks, LoadSound, ReadsSoundly;
    if steps != [] {
      StepKeepsLeaving(s, steps[0], n);
      StepKeepsInv(s, steps[0]);
      RunKeepsLeaving(Do(s, steps[0]), steps[1..], t, n);
    }
  }

  /** A lookup of the objectid the view's row of `n` carries, by an Apply that has
      not read `n` itself. */
  predicate LooksFor(s: State, step: Step, n: NodeId) {
    && step.ReadObjectId? && s.view.Some? && n in NodesUnder(s.view.value, step.objectId)
    && s.applying.Some? && n !in s.applying.value.rb.nodes
  }

  /** Each such lookup of the run found some row, or came while a load that still
      held `n` was waiting to be adopted. */
  ghost predicate LookupsAreMisled(s: State, steps: seq<Step>, n: NodeId)
    decreases |steps|
  {
    steps != [] && CanDo(s, steps[0]) ==>
      && (LooksFor(s, steps[0], n) ==> Carried(s.db, Some(steps[0].objectId)) || !LoadsLack(s, n))
      && LookupsAreMisled(Do(s, steps[0]), steps[1..], n)
  }

  lemma LookupLeads(s: State, step: Step, n: NodeId)
    requires CanDo(s, step) && s.db.Retired(n) && LooksFor(s, step, n)
    requires !Carried(s.db, Some(step.objectId)) && LoadsLack(s, n)
    ensures Leaving(Do(s, step), n)
  {
    hide NewOrphans, Layer, NodesUnder;
    LookupFansOut(s, step.objectId);
  }

  /** A deleted node is shown in vain only if every lookup that would have led to it
      was misled: with no namesake and no stale load, one lookup heals it. */
  lemma {:induction false} OnlyMisledLookups(s: State, steps: seq<Step>, t: State, n: NodeId)
    requires Inv(s) && s.db.Retired(n) && Run(s, steps, t) && ShownInVain(t, n)
    ensures LookupsAreMisled(s, steps, n)
    decreases |steps|
  {
    hide CanDo, Do, Inv, NodesUnder, LoadsLack, Carried;
    if steps != [] {
      StepKeepsInv(s, steps[0]);
      StillRetired(s, steps[0], n);
      if LooksFor(s, steps[0], n) && !Carried(s.db, Some(steps[0].objectId)) && LoadsLack(s, n) {
        LookupLeads(s, steps[0], n);
        RunKeepsLeaving(Do(s, steps[0]), steps[1..], t, n);
        assert false;
      }
      OnlyMisledLookups(Do(s, steps[0]), steps[1..], t, n);
    }
  }

  lemma StillRetired(s: State, step: Step, n: NodeId)
    requires CanDo(s, step) && s.db.Retired(n)
    ensures Do(s, step).db.Retired(n)
  {
    hide NewOrphans, Staged, Layer, SegmentOf, AgendaOf, NamesNodeChange, NamesEdgeChange;
  }

  /** What it takes to lose a commit's deletion of a node, on any continuation. */
  lemma LostOnlyIfStrandedAndMisled(s: State, scope: ScopeId, w: Changes, after: Database, n: NodeId, steps: seq<Step>, t: State)
    requires Inv(s) && Commits(s.db, after, w) && n in s.db.graph.nodes && n !in after.graph.nodes
    requires Run(DoCommit(s, scope, w, after), steps, t) && ShownInVain(t, n)
    ensures Strands(s, scope, w, after, n) && LookupsAreMisled(DoCommit(s, scope, w, after), steps, n)
  {
    hide Run, Strands, ShownInVain, LookupsAreMisled, NewOrphans, Tracks, LoadSound, ReadsSoundly, NamesNodeChange, NamesEdgeChange;
    StrandedExactly(s, scope, w, after, n);
    CommitKeepsInv(s, scope, w, after);
    OnlyMisledLookups(DoCommit(s, scope, w, after), steps, t, n);
  }
}
