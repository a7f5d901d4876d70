/** When a run can leave an orphan behind: a node PostgreSQL deleted that the
    view keeps, with nothing left to look at it again. */
module Orphans {
  import opened GraphStore
  import opened Overlay
  import opened Candidates
  import opened Tracking
  import opened Replica
  import opened Agreement

  /** A load that EndLoad would adopt if it came now. */
  predicate Adoptable(s: State, l: LoadId) {
    l in s.loads && s.loads[l].Loaded? && s.loads[l].epoch == s.epoch
  }

  /** `n` is no orphan of the view or of a load that may become the view. */
  ghost predicate Spared(s: State, n: NodeId) {
    && (s.Serves() ==> n !in s.orphans)
    && (forall l | Adoptable(s, l) :: n !in s.loads[l].orphans)
  }

  /** The view holds `n`, the commit deletes it, and no write to be applied by
      then looks at the view's row of it again. */
  ghost predicate StrandsInView(s: State, scope: ScopeId, w: Changes, after: Database, n: NodeId) {
    s.Serves() && n in NewOrphans(s.Copy(), s.db, after, DoCommit(s, scope, w, after).Outstanding())
  }

  /** The same of a load that may become the view. */
  ghost predicate StrandsInLoad(s: State, scope: ScopeId, w: Changes, after: Database, n: NodeId, l: LoadId) {
    Adoptable(s, l) && n in NewOrphans(s.loads[l].copy, s.db, after, DoCommit(s, scope, w, after).pending.Values)
  }

  /** Committing `w` now strands node `n`. Everything this speaks of is known
      before the commit: the copies, their rows, and the writes not yet applied. */
  ghost predicate Strands(s: State, scope: ScopeId, w: Changes, after: Database, n: NodeId) {
    s.enabled && (StrandsInView(s, scope, w, after, n) || exists l :: StrandsInLoad(s, scope, w, after, n, l))
  }

  /** No node this commit deletes other than by id carries an objectid that a
      write not yet applied is keyed by. */
  ghost predicate Guarded(s: State, w: Changes, after: Database) {
    w.fallback ||
    forall n, v | n in s.db.graph.nodes && n !in after.graph.nodes && n !in w.nodeIds && v in s.Outstanding() ::
      !FindsNode(v, s.db.graph.Node(n))
  }

  lemma MergingAbsorbs(s: State, scope: ScopeId, w: Changes, after: Database)
    ensures var s' := DoCommit(s, scope, w, after);
            && s'.pending[scope] in s'.pending.Values && Includes(s'.pending[scope], w)
            && forall v | v in s.pending.Values :: Absorbed(v, s'.pending.Values)
  {
    var s' := DoCommit(s, scope, w, after);
    forall v | v in s.pending.Values
      ensures Absorbed(v, s'.pending.Values)
    {
      var k :| k in s.pending && s.pending[k] == v;
      assert s'.pending[k] in s'.pending.Values && Includes(s'.pending[k], v);
    }
  }

  /** A tracked copy that holds a stale row of `n` holds it because of a write
      keyed by an objectid. */
  lemma OnlyAnObjectIdStrands(copy: Graph, before: Database, after: Database, ws: set<Changes>, w: Changes,
                              merged: Changes, ws': set<Changes>, orphans: set<NodeId>, n: NodeId)
    requires Tracks(copy, orphans, before, ws) && Commits(before, after, w)
    requires merged in ws' && Includes(merged, w) && forall v | v in ws :: Absorbed(v, ws')
    requires n in NewOrphans(copy, before, after, ws')
    ensures n in before.graph.nodes && n !in after.graph.nodes && n !in w.nodeIds && !w.fallback
    ensures exists v | v in ws :: FindsNode(v, before.graph.Node(n))
  {
    assert NamesNodeChange(w, n, before.graph.Node(n), after.graph.Node(n));
    assert NodeTracked(copy, orphans, before, ws, n);
    IncludesCovers(merged, w, n, copy.Node(n), None);
    assert !RereadsNode(w, n, copy.Node(n));
    var v :| v in ws && (RereadsNode(v, n, copy.Node(n)) || FindsNode(v, before.graph.Node(n)));
    assert Absorbed(v, ws');
    var v' :| v' in ws' && Includes(v', v);
    IncludesCovers(v', v, n, copy.Node(n), before.graph.Node(n));
  }

  lemma GuardedStrandsNothing(s: State, scope: ScopeId, w: Changes, after: Database, n: NodeId)
    requires Inv(s) && Commits(s.db, after, w) && Guarded(s, w, after)
    ensures !Strands(s, scope, w, after, n)
  {
    hide Tracks, Commits, NewOrphans;
    var s' := DoCommit(s, scope, w, after);
    MergingAbsorbs(s, scope, w, after);
    if StrandsInView(s, scope, w, after, n) {
      OnlyAnObjectIdStrands(s.Copy(), s.db, after, s.Outstanding(), w, s'.pending[scope], s'.Outstanding(), s.orphans, n);
    }
    if l :| StrandsInLoad(s, scope, w, after, n, l) {
      assert LoadSound(s, l);
      OnlyAnObjectIdStrands(s.loads[l].copy, s.db, after, s.pending.Values, w, s'.pending[scope], s'.pending.Values,
                            s.loads[l].orphans, n);
      var v :| v in s.pending.Values && FindsNode(v, s.db.graph.Node(n));
      assert v in s.Outstanding();
    }
  }

  lemma CommitSpares(s: State, scope: ScopeId, w: Changes, after: Database, n: NodeId)
    requires Inv(s) && Spared(s, n) && !Strands(s, scope, w, after, n) && s.enabled
    ensures Spared(DoCommit(s, scope, w, after), n)
  {
    hide NewOrphans;
    var s' := DoCommit(s, scope, w, after);
    forall l | Adoptable(s', l)
      ensures n !in s'.loads[l].orphans
    {
      assert Adoptable(s, l) && !StrandsInLoad(s, scope, w, after, n, l);
    }
  }

  /** Only a commit makes an orphan. */
  lemma StepSpares(s: State, step: Step, n: NodeId)
    requires Inv(s) && Spared(s, n) && CanDo(s, step) && s.enabled
    requires step.Commit? ==> !Strands(s, step.scope, step.changes, step.after, n)
    ensures Spared(Do(s, step), n)
  {
    hide Tracks, ReadsSoundly, Layer, Staged, Strands, Commits;
    if step.Commit? {
      CommitSpares(s, step.scope, step.changes, step.after, n);
    } else {
      assert forall l | l in s.loads :: LoadSound(s, l);
    }
  }

  // ---- Whole runs -----------------------------------------------------------

  /** No commit of the run strands `n`. */
  ghost predicate NoCommitStrands(s: State, steps: seq<Step>, n: NodeId)
    decreases |steps|
  {
    steps != [] && CanDo(s, steps[0]) ==>
      && (steps[0].Commit? ==> !Strands(s, steps[0].scope, steps[0].changes, steps[0].after, n))
      && NoCommitStrands(Do(s, steps[0]), steps[1..], n)
  }

  /** Every commit of the run is guarded when it happens. */
  ghost predicate AllGuarded(s: State, steps: seq<Step>)
    decreases |steps|
  {
    steps != [] && CanDo(s, steps[0]) ==>
      && (steps[0].Commit? ==> Guarded(s, steps[0].changes, steps[0].after))
      && AllGuarded(Do(s, steps[0]), steps[1..])
  }

  lemma {:induction false} GuardedRunsStrandNothing(s: State, steps: seq<Step>, t: State, n: NodeId)
    requires Inv(s) && Run(s, steps, t) && AllGuarded(s, steps)
    ensures NoCommitStrands(s, steps, n)
    decreases |steps|
  {
    hide Strands, Guarded, Do, Inv;
    if steps != [] {
      if steps[0].Commit? {
        GuardedStrandsNothing(s, steps[0].scope, steps[0].changes, steps[0].after, n);
      }
      StepKeepsInv(s, steps[0]);
      GuardedRunsStrandNothing(Do(s, steps[0]), steps[1..], t, n);
    }
  }

  lemma {:induction false} RunSpares(s: State, steps: seq<Step>, t: State, n: NodeId)
    requires Inv(s) && Spared(s, n) && Run(s, steps, t) && NoCommitStrands(s, steps, n) && s.enabled
    ensures Spared(t, n)
    decreases |steps|
  {
    hide Strands, CanDo, Inv, Spared;
    if steps != [] {
      StepSpares(s, steps[0], n);
      StepKeepsInv(s, steps[0]);
      RunSpares(Do(s, steps[0]), steps[1..], t, n);
    }
  }

  lemma {:induction false} StaysEnabled(s: State, steps: seq<Step>, t: State)
    requires Run(s, steps, t)
    ensures t.enabled == s.enabled
    decreases |steps|
  {
    if steps != [] {
      StaysEnabled(Do(s, steps[0]), steps[1..], t);
    }
  }

  /** A run whose commits strand no node ends in agreement, whatever else is
      written, read, rebuilt or lost on the way. */
  lemma AgreementUnlessStranded(s: State, steps: seq<Step>, t: State)
    requires Init(s) && Run(s, steps, t) && t.Serves() && t.Settled()
    requires forall n :: NoCommitStrands(s, steps, n)
    ensures t.view.value.Visible() == t.db.graph.Visible()
  {
    StaysEnabled(s, steps, t);
    if n :| n in t.orphans {
      RunSpares(s, steps, t, n);
    }
    ReplicaAgreement(s, steps, t);
  }

  /** In particular one whose commits delete no node, except by id, under an
      objectid that a write not yet applied is keyed by. */
  lemma AgreementWhenGuarded(s: State, steps: seq<Step>, t: State)
    requires Init(s) && Run(s, steps, t) && t.Serves() && t.Settled()
    requires AllGuarded(s, steps)
    ensures t.view.value.Visible() == t.db.graph.Visible()
  {
    forall n {
      GuardedRunsStrandNothing(s, steps, t, n);
    }
    AgreementUnlessStranded(s, steps, t);
  }

  /** No write of the run both kinds of key are needed from: either no write is
      keyed by objectid, or none deletes nodes by kind. */
  ghost predicate OneKeyKindMissing(steps: seq<Step>) {
    || (forall step | step in steps && step.Commit? :: step.changes.objectIds == {})
    || (forall step | step in steps && step.Commit? :: step.changes.nodeDeletes == {})
  }

  ghost predicate NoneByObjectId(s: State) {
    forall v | v in s.Outstanding() :: v.objectIds == {}
  }

  lemma StepKeepsNoneByObjectId(s: State, step: Step)
    requires NoneByObjectId(s) && CanDo(s, step) && (step.Commit? ==> step.changes.objectIds == {})
    ensures NoneByObjectId(Do(s, step))
  {
    hide Commits, Layer, Staged, NewOrphans;
    var s' := Do(s, step);
    if s.applying.Some? {
      assert s.applying.value.Rest() in s.Outstanding();
    }
    forall v | v in s'.pending.Values
      ensures v.objectIds == {}
    {
      var k :| k in s'.pending && s'.pending[k] == v;
      assert k in s.pending ==> s.pending[k] in s.Outstanding();
    }
    if step.BeginApply? {
      assert s.pending[step.scope] in s.Outstanding();
    }
  }

  lemma {:induction false} WithoutTheMixIsGuarded(s: State, steps: seq<Step>, t: State)
    requires Run(s, steps, t) && OneKeyKindMissing(steps)
    requires NoneByObjectId(s) || forall step | step in steps && step.Commit? :: step.changes.nodeDeletes == {}
    ensures AllGuarded(s, steps)
    decreases |steps|
  {
    if steps != [] {
      assert steps[0] in steps && forall step | step in steps[1..] :: step in steps;
      if NoneByObjectId(s) && (steps[0].Commit? ==> steps[0].changes.objectIds == {}) {
        StepKeepsNoneByObjectId(s, steps[0]);
      }
      WithoutTheMixIsGuarded(Do(s, steps[0]), steps[1..], t);
    }
  }

  /** Nor can a run go wrong that lacks one of the two kinds of key. */
  lemma AgreementWithoutTheMix(s: State, steps: seq<Step>, t: State)
    requires Init(s) && Run(s, steps, t) && t.Serves() && t.Settled()
    requires OneKeyKindMissing(steps)
    ensures t.view.value.Visible() == t.db.graph.Visible()
  {
    WithoutTheMixIsGuarded(s, steps, t);
    AgreementWhenGuarded(s, steps, t);
  }

  // ---- The run that shows the mix is not safe -------------------------------

  const KEY := "S-1-5-21-1000"

  function Row(kinds: set<Kind>): NodeRow {
    NodeRow(kinds, Some(KEY), "{}")
  }

  function Holding(nodes: map<NodeId, NodeRow>, used: set<NodeId>): Database {
    Database(Graph(nodes, map[]), used, {})
  }

  const BY_KEY := NO_CHANGES.(objectIds := {KEY})
  const BY_KIND := NO_CHANGES.(nodeDeletes := {KindCriteria({"Tag"}, {})})

  const START := Holding(map[1 := Row({"User"})], {1})
  const TAGGED := Holding(map[1 := Row({"User", "Tag"})], {1})
  const DELETED := Holding(map[], {1})
  const REMADE := Holding(map[2 := Row({"User"})], {1, 2})

  const BOTH := Graph(map[1 := Row({"User"}), 2 := Row({"User"})], map[])
  const FOUND := NOTHING_READ.(nodes := map[2 := Row({"User"})])

  /** An upsert by objectid gives node 1 the kind Tag; a delete of kind Tag
      removes it; another upsert of the same objectid makes node 2. All three
      commit before any is applied. */
  function StepAt(i: nat): Step {
    match i
    case 0 => BeginLoad(0)
    case 1 => ReadAll(0)
    case 2 => EndLoad(0)
    case 3 => Commit(0, BY_KEY, TAGGED)
    case 4 => Commit(1, BY_KIND, DELETED)
    case 5 => Commit(2, BY_KEY, REMADE)
    case 6 => BeginApply(0)
    case 7 => ReadObjectId(KEY)
    case 8 => Publish
    case 9 => BeginApply(1)
    case 10 => Publish
    case 11 => BeginApply(2)
    case 12 => ReadObjectId(KEY)
    case _ => Publish
  }

  const STEPS: nat := 14

  /** The engine with every write committed, `applied` of them applied. */
  function Engine(db: Database, pending: map<ScopeId, Changes>, view: Option<Graph>, orphans: set<NodeId>,
                  epoch: nat, applying: Option<Applying>): State {
    State(true, db, pending, true, view, orphans, epoch, applying, map[])
  }

  function StateAt(i: nat): State {
    var before := Some(START.graph);
    match i
    case 0 => Engine(START, map[], None, {}, 0, None)
    case 1 => Engine(START, map[], None, {}, 0, None).(loads := map[0 := Begun(0)])
    case 2 => Engine(START, map[], None, {}, 0, None).(loads := map[0 := Loaded(0, START.graph, {})])
    case 3 => Engine(START, map[], before, {}, 0, None)
    case 4 => Engine(TAGGED, map[0 := BY_KEY], before, {}, 0, None)
    case 5 => Engine(DELETED, map[0 := BY_KEY, 1 := BY_KIND], before, {1}, 0, None)
    case 6 => Engine(REMADE, map[0 := BY_KEY, 1 := BY_KIND, 2 := BY_KEY], before, {1}, 0, None)
    case 7 => Engine(REMADE, map[1 := BY_KIND, 2 := BY_KEY], before, {1}, 1, Some(Applying(BY_KEY, NOTHING_READ)))
    case 8 => Engine(REMADE, map[1 := BY_KIND, 2 := BY_KEY], before, {1}, 1, Some(Applying(NO_CHANGES, FOUND)))
    case 9 => Engine(REMADE, map[1 := BY_KIND, 2 := BY_KEY], Some(BOTH), {1}, 1, None)
    case 10 => Engine(REMADE, map[2 := BY_KEY], Some(BOTH), {1}, 2, Some(Applying(NO_CHANGES, NOTHING_READ)))
    case 11 => Engine(REMADE, map[2 := BY_KEY], Some(BOTH), {1}, 2, None)
    case 12 => Engine(REMADE, map[], Some(BOTH), {1}, 3, Some(Applying(BY_KEY, NOTHING_READ)))
    case 13 => Engine(REMADE, map[], Some(BOTH), {1}, 3, Some(Applying(NO_CHANGES, FOUND)))
    case _ => Engine(REMADE, map[], Some(BOTH), {1}, 3, None)
  }

  ghost predicate Follows(i: nat) {
    CanDo(StateAt(i), StepAt(i)) && Do(StateAt(i), StepAt(i)) == StateAt(i + 1)
  }

  lemma LoadingFollows()
    ensures Follows(0) && Follows(1) && Follows(2)
  {
  }

  lemma CriteriaByTag()
    ensures BY_KIND.DeletesNodeLike(Row({"User", "Tag"})) && !BY_KIND.DeletesNodeLike(Row({"User"}))
  {
    var tag := KindCriteria({"Tag"}, {});
    assert BY_KIND.nodeDeletes == {tag};
    assert "Tag" in {"User", "Tag"} * {"Tag"};
    assert tag.Matches(Row({"User", "Tag"}));
    assert {"User"} * {"Tag"} == {};
    assert !tag.Matches(Row({"User"}));
  }

  lemma UpsertFollows()
    ensures Follows(3)
  {
    assert Commits(START, TAGGED, BY_KEY);
    var s' := DoCommit(StateAt(3), 0, BY_KEY, TAGGED);
    assert s'.pending == map[0 := BY_KEY];
    assert NewOrphans(START.graph, START, TAGGED, s'.Outstanding()) == {};
  }

  lemma DeleteOrphans(ws: set<Changes>)
    requires ws == {BY_KEY, BY_KIND}
    ensures NewOrphans(START.graph, TAGGED, DELETED, ws) == {1}
  {
    CriteriaByTag();
    assert START.graph.Node(1) == Some(Row({"User"}));
    forall w | w in ws
      ensures !RereadsNode(w, 1, START.graph.Node(1))
    {
      assert w == BY_KEY || w == BY_KIND;
    }
  }

  lemma DeleteCommits()
    ensures Commits(TAGGED, DELETED, BY_KIND)
  {
    CriteriaByTag();
  }

  lemma DeleteFollows()
    ensures Follows(4)
  {
    DeleteCommits();
    hide Commits;
    var s' := DoCommit(StateAt(4), 1, BY_KIND, DELETED);
    assert s'.pending == map[0 := BY_KEY, 1 := BY_KIND];
    assert s'.pending[0] == BY_KEY && s'.pending[1] == BY_KIND;
    assert s'.Outstanding() == {BY_KEY, BY_KIND};
    DeleteOrphans(s'.Outstanding());
  }

  lemma RemakeFollows()
    ensures Follows(5)
  {
    assert Commits(DELETED, REMADE, BY_KEY);
    var s' := DoCommit(StateAt(5), 2, BY_KEY, REMADE);
    assert s'.pending == map[0 := BY_KEY, 1 := BY_KIND, 2 := BY_KEY];
    assert NewOrphans(START.graph, DELETED, REMADE, s'.Outstanding()) == {};
  }

  lemma ReadsFollow(i: nat)
    requires i == 7 || i == 12
    ensures Follows(i)
  {
    var s := StateAt(i);
    var found := NodesWith(REMADE, KEY);
    assert 2 in found && found == map[2 := Row({"User"})];
    assert NOTHING_READ.nodes + found == FOUND.nodes;
    assert BY_KEY.objectIds - {KEY} == {};
    assert DoReadObjectId(s.applying.value, REMADE, s.view.value, KEY) == Applying(NO_CHANGES, FOUND);
    assert s.orphans - found.Keys == s.orphans;
  }

  lemma FoundLayers(view: Graph, rb: ReadBack)
    requires rb == FOUND || rb == NOTHING_READ
    requires view == BOTH || (view == START.graph && rb == FOUND)
    ensures Layer(view, SegmentOf(view, rb)) == BOTH
    ensures Applying(NO_CHANGES, rb).Rest() == NO_CHANGES
  {
    var after := Layer(view, SegmentOf(view, rb));
    forall n: NodeId
      ensures after.Node(n) == BOTH.Node(n)
    {
    }
    forall e: EdgeId
      ensures after.Edge(e) == BOTH.Edge(e)
    {
    }
    SameRowsSameGraph(after, BOTH);
  }

  lemma PublishesFollow(i: nat)
    requires i == 8 || i == 10 || i == 13
    ensures Follows(i)
  {
    FoundLayers(StateAt(i).view.value, StateAt(i).applying.value.rb);
  }

  lemma BeginsFollow(i: nat)
    requires i == 6 || i == 9 || i == 11
    ensures Follows(i)
  {
    CriteriaByTag();
    var s := StateAt(i);
    var scope := StepAt(i).scope;
    var w := s.pending[scope];
    assert s.pending - {scope} == StateAt(i + 1).pending;
    assert CandidateNodes(s.view.value, w) == {};
    assert CandidateEdges(s.view.value, w) == {};
    assert AgendaOf(s.view.value, w) == if i == 9 then NO_CHANGES else BY_KEY;
  }

  lemma EachFollows(i: nat)
    requires i < STEPS
    ensures Follows(i)
  {
    match i
    case 3 => UpsertFollows();
    case 4 => DeleteFollows();
    case 5 => RemakeFollows();
    case 6 => BeginsFollow(i);
    case 7 => ReadsFollow(i);
    case 8 => PublishesFollow(i);
    case 9 => BeginsFollow(i);
    case 10 => PublishesFollow(i);
    case 11 => BeginsFollow(i);
    case 12 => ReadsFollow(i);
    case 13 => PublishesFollow(i);
    case _ => LoadingFollows();
  }

  function StepsFrom(i: nat): seq<Step>
    requires i <= STEPS
    decreases STEPS - i
  {
    if i == STEPS then [] else [StepAt(i)] + StepsFrom(i + 1)
  }

  lemma {:induction false} StatesAreARun(i: nat)
    requires i <= STEPS
    ensures Run(StateAt(i), StepsFrom(i), StateAt(STEPS))
    decreases STEPS - i
  {
    if i < STEPS {
      EachFollows(i);
      StatesAreARun(i + 1);
      assert StepsFrom(i)[1..] == StepsFrom(i + 1);
    }
  }

  /** The mix is not safe: here is a run after which nothing is pending, the
      engine is serving, and the view still shows the node PostgreSQL deleted. */
  lemma AnOrphanIsServed() returns (s: State, steps: seq<Step>, t: State)
    ensures Init(s) && Run(s, steps, t) && t.Serves() && t.Settled()
    ensures 1 in t.view.value.Visible().nodes && 1 !in t.db.graph.Visible().nodes
  {
    var start: nat :| start == 0;
    StatesAreARun(start);
    s, steps, t := StateAt(start), StepsFrom(start), StateAt(STEPS);
  }
}
