/** The driver's entry points. Whatever a delegate does and however the embedded
    driver ends, each of them leaves nothing durable unapplied and no bump
    unresolved, and hands its caller the ending it saw. */
module Driver {
  import opened GraphStore
  import opened Engines
  import opened History
  import opened Observers
  import opened Recognizers
  import opened WriteCalls

  /** A node or relationship query handed out by a write wrapper. */
  class ObservingQuery {
    const owner: Observer
    const edges: bool
    var criteria: seq<Criteria>

    constructor (owner: Observer, edges: bool)
      ensures this.owner == owner && this.edges == edges && criteria == []
    {
      this.owner, this.edges, criteria := owner, edges, [];
    }

    method Filter(criterion: Criteria)
      modifies this`criteria
      ensures criteria == old(criteria) + [criterion]
    {
      criteria := criteria + [criterion];
    }

    /** Delete and Update, which change what the criteria reach. A kind-scoped
        relationship delete is recorded only once it has succeeded. */
    method Write(deletes: bool, env: Env, ghost other: (Criteria, Row) -> bool)
      requires Sound(owner.eng, owner.slot, owner.backend)
      requires forall row | row in env.reply.rows :: Reaches(criteria, edges, deletes, row, other)
      requires env.reply.flushed <= owner.backend.uncommitted + env.reply.rows
      modifies owner.eng, owner.slot.scope, owner.backend
      ensures if env.reply.ending.Panics? then Unwinding(owner.eng, owner.slot, owner.backend)
              else Sound(owner.eng, owner.slot, owner.backend)
      ensures owner.eng.scopes == old(owner.eng.scopes) && old(owner.eng.log) <= owner.eng.log
      ensures TargetsOf(criteria, edges, deletes).Some? && env.reply.ending.Succeeds? && !env.bump.BumpFailed? ==>
                owner.slot.scope.keys == old(owner.slot.scope.keys) + TargetsOf(criteria, edges, deletes).value
    {
      hide Names, Reaches, TargetsOf, Owed, Open, WellSettled;
      var targets := TargetsOf(criteria, edges, deletes);
      if targets.Some? {
        TargetsName(criteria, edges, deletes, env.reply.rows, other);
      }
      if targets.None? {
        owner.Opaque(env);
      } else if edges && deletes {
        owner.ReturnedOrFallback(targets.value, env);
      } else {
        owner.Named(targets.value, env);
      }
    }

    /** Query and Fetch: a write exactly when the final criteria carry an
        updating clause. */
    method Run(finalCriteria: seq<Criteria>, env: Env)
      requires Sound(owner.eng, owner.slot, owner.backend)
      requires UpdatingClause !in Flattened(finalCriteria) ==> env.reply.rows == {}
      requires env.reply.flushed <= owner.backend.uncommitted + env.reply.rows
      modifies owner.eng, owner.slot.scope, owner.backend
      ensures Sound(owner.eng, owner.slot, owner.backend)
      ensures owner.eng.scopes == old(owner.eng.scopes) && old(owner.eng.log) <= owner.eng.log
      ensures if UpdatingClause in Flattened(finalCriteria) then Fallback in owner.slot.scope.keys
              else owner.slot.scope.keys == old(owner.slot.scope.keys)
    {
      UpdatingClauseIsFound(finalCriteria);
      if HasUpdatingClause(finalCriteria) {
        owner.Opaque(env);
      } else {
        owner.backend.Execute(env.reply);
      }
    }
  }

  /** What a recognized query reaches is named by what is recorded for it. */
  lemma TargetsName(criteria: seq<Criteria>, edges: bool, deletes: bool, rows: set<Row>, other: (Criteria, Row) -> bool)
    requires TargetsOf(criteria, edges, deletes).Some?
    requires forall row | row in rows :: Reaches(criteria, edges, deletes, row, other)
    ensures NamesAll(TargetsOf(criteria, edges, deletes).value, rows)
  {
    forall row | row in rows
      ensures Names(TargetsOf(criteria, edges, deletes).value, row)
    {
      TargetsAreExact(criteria, edges, deletes, row, other);
    }
  }

  /** One thing a delegate does with one of the wrappers or queries it holds. */
  datatype Action =
    | Write(wrapper: nat, call: Call, env: Env)
    | Commit(wrapper: nat, reply: Reply)
    | Retarget(wrapper: nat)
    | Hold(wrapper: nat, edges: bool)
    | Narrow(query: nat, criterion: Criteria)
    | WriteThrough(query: nat, deletes: bool, env: Env, other: (Criteria, Row) -> bool)
    | RunThrough(query: nat, finalCriteria: seq<Criteria>, env: Env)

  /** The replies PostgreSQL can give to a call: it changes what such a call may, a
      failed statement of a transaction changes nothing, what a create that did not
      succeed has made nobody knows, and only uncommitted rows can become durable. */
  function Possible(call: Call, reply: Reply, backend: Backend): (r: Reply)
    reads backend
    ensures r.ending == reply.ending && r.flushed <= backend.uncommitted + r.rows
  {
    var changed := set row | row in reply.rows && MayChange(call, row);
    var byResult := StyleOf(call).ByResult? || StyleOf(call).ByResultOrFallback?;
    var rows :=
      if !byResult || reply.ending.Succeeds? then changed
      else if StyleOf(call).ByResult? && !backend.autocommit && reply.ending.Fails? then {}
      else reply.rows;
    Reply(reply.ending, rows, reply.flushed * (backend.uncommitted + rows))
  }

  /** What a call changes is named by what is recorded for it. */
  lemma CallNames(call: Call, rows: set<Row>)
    requires !StyleOf(call).ByFallback? && forall row | row in rows :: MayChange(call, row)
    ensures NamesAll(KeysOf(call), rows) && Fallback !in KeysOf(call)
    ensures StyleOf(call).NotAtAll? ==> rows == {}
  {
    forall row | row in rows
      ensures Names(KeysOf(call), row)
    {
      EveryRowIsRecorded(call, row);
    }
  }

  function PossibleCommit(reply: Reply, backend: Backend): (r: Reply)
    reads backend
    ensures r.ending == reply.ending && r.flushed <= backend.uncommitted
    ensures r.ending.Succeeds? ==> r.flushed == backend.uncommitted
  {
    Reply(reply.ending, {}, if reply.ending.Succeeds? then backend.uncommitted else reply.flushed * backend.uncommitted)
  }

  /** A call or a commit on one of the wrappers. True when it panicked. */
  method Perform(w: Observer, action: Action) returns (panicked: bool)
    requires Sound(w.eng, w.slot, w.backend) && (action.Write? || action.Commit?)
    modifies w.eng, w.slot, w.slot.scope, w.backend
    ensures if panicked then Unwinding(w.eng, w.slot, w.backend) else Sound(w.eng, w.slot, w.backend)
    ensures w.slot.scope == old(w.slot.scope) || fresh(w.slot.scope)
    ensures fresh(w.eng.scopes - old(w.eng.scopes)) && old(w.eng.log) <= w.eng.log
    ensures Plain(action) && Fallback !in old(w.slot.scope.keys) ==> Fallback !in w.slot.scope.keys
  {
    if action.Commit? {
      var possible := PossibleCommit(action.reply, w.backend);
      if w.backend.autocommit {
        w.CommitBatch(possible);
      } else {
        w.CommitTransaction(possible);
      }
      return action.reply.ending.Panics?;
    }
    var call, env := action.call, action.env;
    // Only a transaction's calls learn their keys from their results alone.
    var how := if StyleOf(call).ByResult? && w.backend.autocommit then ByResultOrFallback else StyleOf(call);
    var possible := Env(env.bump, Possible(call, env.reply, w.backend));
    if !how.ByFallback? {
      CallNames(call, set row | row in env.reply.rows && MayChange(call, row));
    }
    match how {
      case ByKey => w.Named(KeysOf(call), possible);
      case ByResult => w.Returned(KeysOf(call), possible);
      case ByResultOrFallback => w.ReturnedOrFallback(KeysOf(call), possible);
      case ByFallback => w.Opaque(possible);
      case NotAtAll => w.Execute(possible.reply);
    }
    panicked := env.reply.ending.Panics?;
  }

  /** A write, or a read that may write, through one of the queries. */
  method PerformThrough(q: ObservingQuery, action: Action) returns (panicked: bool)
    requires Sound(q.owner.eng, q.owner.slot, q.owner.backend) && (action.WriteThrough? || action.RunThrough?)
    modifies q.owner.eng, q.owner.slot.scope, q.owner.backend
    ensures if panicked then Unwinding(q.owner.eng, q.owner.slot, q.owner.backend)
            else Sound(q.owner.eng, q.owner.slot, q.owner.backend)
    ensures q.owner.eng.scopes == old(q.owner.eng.scopes) && old(q.owner.eng.log) <= q.owner.eng.log
    ensures Plain(action) ==> q.owner.slot.scope.keys == old(q.owner.slot.scope.keys)
  {
    var backend, env := q.owner.backend, action.env;
    if action.RunThrough? {
      var rows := if UpdatingClause in Flattened(action.finalCriteria) then env.reply.rows else {};
      var possible := Reply(env.reply.ending, rows, env.reply.flushed * (backend.uncommitted + rows));
      q.Run(action.finalCriteria, Env(env.bump, possible));
    } else {
      var rows := set row | row in env.reply.rows && Reaches(q.criteria, q.edges, action.deletes, row, action.other);
      var reached := Reply(env.reply.ending, rows, env.reply.flushed * (backend.uncommitted + rows));
      q.Write(action.deletes, Env(env.bump, reached), action.other);
    }
    panicked := env.reply.ending.Panics?;
  }

  /** Every wrapper and query of one driver call reaches the same slot. */
  ghost predicate SharesSlot(root: Observer, wrappers: seq<Observer>, queries: seq<ObservingQuery>) {
    && |wrappers| > 0
    && (forall w | w in wrappers :: w.eng == root.eng && w.slot == root.slot && w.backend == root.backend)
    && (forall q | q in queries :: q.owner in wrappers)
  }

  /** An action whose rows are all named: nothing about it calls for a fallback. */
  predicate Plain(action: Action) {
    match action
    case Write(_, call, env) => !StyleOf(call).ByFallback? && env.reply.ending.Succeeds? && !env.bump.BumpFailed?
    case Commit(_, reply) => reply.ending.Succeeds?
    case Retarget(_) => false
    case WriteThrough(_, _, _, _) => false
    case RunThrough(_, finalCriteria, _) => UpdatingClause !in Flattened(finalCriteria)
    case _ => true
  }

  /** One action of a delegate, whatever it is done with. */
  method Step(root: Observer, wrappers: seq<Observer>, queries: seq<ObservingQuery>, action: Action)
    returns (wrappers': seq<Observer>, queries': seq<ObservingQuery>, panicked: bool)
    requires SharesSlot(root, wrappers, queries) && Sound(root.eng, root.slot, root.backend)
    modifies root.eng, root.slot, root.slot.scope, root.backend, set q | q in queries
    ensures SharesSlot(root, wrappers', queries')
    ensures if panicked then Unwinding(root.eng, root.slot, root.backend) else Sound(root.eng, root.slot, root.backend)
    ensures root.slot.scope == old(root.slot.scope) || fresh(root.slot.scope)
    ensures fresh(root.eng.scopes - old(root.eng.scopes)) && old(root.eng.log) <= root.eng.log
    ensures Plain(action) && Fallback !in old(root.slot.scope.keys) ==> Fallback !in root.slot.scope.keys
    ensures fresh((set q | q in queries') - set q | q in queries)
  {
    wrappers', queries', panicked := wrappers, queries, false;
    if action.Write? || action.Commit? {
      panicked := Perform(wrappers[action.wrapper % |wrappers|], action);
    } else if action.Retarget? {
      var child := wrappers[action.wrapper % |wrappers|].WithGraph();
      wrappers' := wrappers + [child];
    } else if action.Hold? {
      var query := new ObservingQuery(wrappers[action.wrapper % |wrappers|], action.edges);
      queries' := queries + [query];
    } else if queries != [] {
      var query := queries[action.query % |queries|];
      if action.Narrow? {
        query.Filter(action.criterion);
      } else {
        panicked := PerformThrough(query, action);
      }
    }
  }

  /** Runs a delegate. It may write through any wrapper or query it was ever
      handed, in any order, before and after any commit of its own. */
  method RunDelegate(root: Observer, script: seq<Action>) returns (panicked: bool)
    requires Sound(root.eng, root.slot, root.backend)
    modifies root.eng, root.slot, root.slot.scope, root.backend
    ensures if panicked then Unwinding(root.eng, root.slot, root.backend) else Sound(root.eng, root.slot, root.backend)
    ensures root.slot.scope == old(root.slot.scope) || fresh(root.slot.scope)
    ensures fresh(root.eng.scopes - old(root.eng.scopes)) && old(root.eng.log) <= root.eng.log
    ensures (forall action | action in script :: Plain(action)) && Fallback !in old(root.slot.scope.keys) ==>
              Fallback !in root.slot.scope.keys
  {
    hide Plain, Sound, Unwinding;
    var wrappers: seq<Observer>, queries: seq<ObservingQuery> := [root], [];
    panicked := false;
    for i := 0 to |script|
      invariant SharesSlot(root, wrappers, queries)
      invariant fresh(set q | q in queries)
      invariant Sound(root.eng, root.slot, root.backend)
      invariant root.slot.scope == old(root.slot.scope) || fresh(root.slot.scope)
      invariant fresh(root.eng.scopes - old(root.eng.scopes)) && old(root.eng.log) <= root.eng.log
      invariant (forall action | action in script :: Plain(action)) && Fallback !in old(root.slot.scope.keys) ==>
                  Fallback !in root.slot.scope.keys
    {
      wrappers, queries, panicked := Step(root, wrappers, queries, script[i]);
      if panicked {
        return;
      }
    }
  }

  // ---- Transactions and batches ---------------------------------------------

  /** How a transaction's delegate itself ended, when no call of it panicked. */
  datatype DelegateEnding = ReturnsNil | ReturnsError | DelegatePanics

  /** The history ends with an Apply of exactly these keys. */
  predicate EndsApplying(log: seq<Event>, keys: set<Key>) {
    log != [] && log[|log| - 1].Applied? && log[|log| - 1].keys == keys
  }

  /** The history ends with an Apply that names nothing. */
  predicate EndsUnknown(log: seq<Event>) {
    log != [] && log[|log| - 1].Applied? && Fallback in log[|log| - 1].keys
  }

  predicate EndsAbandoned(log: seq<Event>) {
    log != [] && log[|log| - 1].Abandoned?
  }

  /** Settles a write whose outcome is unknown: the rebuild reloads whatever
      PostgreSQL actually holds. */
  method ApplyAsUnknown(eng: Engine, slot: Slot)
    requires Accounted(eng, slot)
    modifies eng, slot.scope
    ensures AllSettled(eng) && eng.scopes == old(eng.scopes) && old(eng.log) <= eng.log
    ensures EndsUnknown(eng.log)
  {
    slot.scope.RecordFallback();
    assert Accounted(eng, slot);
    ApplyWrite(eng, slot.scope);
  }

  /** Settles a WriteTransaction that failed. Only an error that arose after the
      delegate, with something written, has an unknown outcome. */
  method ResolveWriteTransactionFailure(eng: Engine, slot: Slot, delegateFailed: bool)
    requires Accounted(eng, slot)
    requires delegateFailed ==> Owed(eng.log) == {}
    requires !delegateFailed ==> Covers(slot.scope.keys, Owed(eng.log))
    modifies eng, slot.scope
    ensures AllSettled(eng) && eng.scopes == old(eng.scopes) && old(eng.log) <= eng.log
    ensures if !delegateFailed && (old(slot.scope.Watermark()).Some? || old(slot.scope.keys) != {}) then EndsUnknown(eng.log)
            else EndsAbandoned(eng.log)
  {
    if !delegateFailed && (slot.scope.watermarkBumped || slot.scope.keys != {}) {
      ApplyAsUnknown(eng, slot);
    } else {
      Abandon(eng, slot.scope);
    }
  }

  /** The root wrapper of a new driver call, with a scope of its own. */
  method Observe(eng: Engine, autocommit: bool) returns (observer: Observer)
    requires AllSettled(eng)
    modifies eng`scopes
    ensures fresh(observer) && fresh(observer.slot) && fresh(observer.slot.scope) && fresh(observer.backend)
    ensures fresh(eng.scopes - old(eng.scopes))
    ensures observer.eng == eng && observer.backend.autocommit == autocommit && observer.backend.uncommitted == {}
    ensures Sound(eng, observer.slot, observer.backend) && observer.slot.scope.keys == {}
  {
    var scope := eng.NewScope();
    var slot := new Slot(scope);
    var backend := new Backend(autocommit, eng);
    observer := new Observer(eng, slot, backend);
  }

  /** The embedded driver's own final commit, applied if it succeeded -- as what the
      scope names, and as nothing else. */
  method CommitAndSettle(eng: Engine, slot: Slot, backend: Backend, commit: Reply)
    requires Sound(eng, slot, backend) && !backend.autocommit
    modifies eng, slot.scope, backend
    ensures AllSettled(eng) && eng.scopes == old(eng.scopes) && old(eng.log) <= eng.log
    ensures commit.ending.Succeeds? ==> EndsApplying(eng.log, old(slot.scope.keys))
  {
    backend.Commit(PossibleCommit(commit, backend));
    assert Accounted(eng, slot) && Covers(slot.scope.keys, Owed(eng.log));
    if commit.ending.Succeeds? {
      ApplyWrite(eng, slot.scope);
    } else {
      ResolveWriteTransactionFailure(eng, slot, false);
    }
  }

  /** What follows a transaction's delegate: a rollback and an abandonment when
      it failed or panicked, otherwise the commit, and an Apply. */
  method FinishTransaction(eng: Engine, slot: Slot, backend: Backend, panicked: bool, ending: DelegateEnding, commit: Reply)
    returns (result: Ending)
    requires if panicked then Unwinding(eng, slot, backend) else Sound(eng, slot, backend)
    requires !backend.autocommit
    modifies eng, slot.scope, backend
    ensures AllSettled(eng) && eng.scopes == old(eng.scopes) && old(eng.log) <= eng.log
    ensures result == if panicked || ending.DelegatePanics? then Panics
                      else if ending.ReturnsError? && commit.ending.Succeeds? then Fails
                      else commit.ending
    ensures result.Succeeds? ==> EndsApplying(eng.log, old(slot.scope.keys))
  {
    if panicked || ending.DelegatePanics? {
      backend.RollBack();
      Abandon(eng, slot.scope);
      return Panics;
    }
    if ending.ReturnsError? {
      backend.RollBack();
      ResolveWriteTransactionFailure(eng, slot, true);
      return if commit.ending.Succeeds? then Fails else commit.ending;
    }
    CommitAndSettle(eng, slot, backend, commit);
    result := commit.ending;
  }

  /** A write transaction. `ran` is false when the embedded driver failed before
      it called the delegate at all. */
  method WriteTransaction(eng: Engine, ran: bool, script: seq<Action>, ending: DelegateEnding, commit: Reply)
    returns (result: Ending)
    requires AllSettled(eng)
    modifies eng
    ensures AllSettled(eng) && old(eng.log) <= eng.log
    ensures result.Succeeds? ==> ran && ending.ReturnsNil? && commit.ending.Succeeds?
    ensures ran && ending.DelegatePanics? ==> result.Panics?
    ensures commit.ending.Panics? ==> result.Panics?
    ensures result.Succeeds? && (forall action | action in script :: Plain(action)) ==>
              exists keys :: EndsApplying(eng.log, keys) && Fallback !in keys
  {
    if !ran {
      return if commit.ending.Panics? then Panics else Fails;
    }
    var observer := Observe(eng, false);
    var panicked := RunDelegate(observer, script);
    result := FinishTransaction(eng, observer.slot, observer.backend, panicked, ending, commit);
  }

  /** What follows a batch's delegate: the final commit unless it failed, and an
      Apply however it ended -- with a fallback when it panicked. */
  method FinishBatch(eng: Engine, slot: Slot, backend: Backend, panicked: bool, ending: DelegateEnding, commit: Reply)
    returns (result: Ending)
    requires if panicked then Unwinding(eng, slot, backend) else Sound(eng, slot, backend)
    requires backend.autocommit
    modifies eng, slot.scope, backend
    ensures AllSettled(eng) && eng.scopes == old(eng.scopes) && old(eng.log) <= eng.log
    ensures result == if panicked || ending.DelegatePanics? then Panics
                      else if ending.ReturnsError? && commit.ending.Succeeds? then Fails
                      else commit.ending
    ensures result.Succeeds? ==> EndsApplying(eng.log, old(slot.scope.keys))
  {
    if panicked || ending.DelegatePanics? {
      ApplyAsUnknown(eng, slot);
      return Panics;
    }
    if ending.ReturnsNil? {
      backend.Commit(PossibleCommit(commit, backend));
      assert Accounted(eng, slot) && Covers(slot.scope.keys, Owed(eng.log));
    }
    if commit.ending.Panics? {
      ApplyAsUnknown(eng, slot);
      return Panics;
    }
    ApplyWrite(eng, slot.scope);
    result := if ending.ReturnsError? then Fails else commit.ending;
  }

  /** A batch's chunks are durable as they flush, so its scope is always applied. */
  method BatchOperation(eng: Engine, script: seq<Action>, ending: DelegateEnding, commit: Reply)
    returns (result: Ending)
    requires AllSettled(eng)
    modifies eng
    ensures AllSettled(eng) && old(eng.log) <= eng.log
    ensures result.Succeeds? ==> ending.ReturnsNil? && commit.ending.Succeeds?
    ensures ending.DelegatePanics? ==> result.Panics?
    ensures result.Succeeds? && (forall action | action in script :: Plain(action)) ==>
              exists keys :: EndsApplying(eng.log, keys) && Fallback !in keys
  {
    var observer := Observe(eng, true);
    var panicked := RunDelegate(observer, script);
    result := FinishBatch(eng, observer.slot, observer.backend, panicked, ending, commit);
  }

  // ---- The other driver-level writes ----------------------------------------

  /** A driver-level write bumps at its very top. */
  method ObserveBumped(eng: Engine, autocommit: bool, bump: BumpResult) returns (observer: Observer)
    requires AllSettled(eng)
    modifies eng
    ensures fresh(observer) && fresh(observer.slot) && fresh(observer.slot.scope) && fresh(observer.backend)
    ensures observer.eng == eng && observer.backend.autocommit == autocommit && observer.backend.uncommitted == {}
    ensures Sound(eng, observer.slot, observer.backend) && Owed(eng.log) == {} && old(eng.log) <= eng.log
    ensures fresh(eng.scopes - old(eng.scopes))
    ensures !bump.BumpFailed? ==> observer.slot.scope.keys == {}
  {
    observer := Observe(eng, autocommit);
    observer.Bump(bump);
  }

  /** Settles Run. Reaching the commit is what separates a write known to have left
      nothing from one whose outcome is unknown. */
  method SettleRun(eng: Engine, slot: Slot, backend: Backend, reachedCommit: bool, commit: Reply)
    requires Unwinding(eng, slot, backend) && !backend.autocommit
    modifies eng, slot.scope, backend
    ensures AllSettled(eng) && eng.scopes == old(eng.scopes) && old(eng.log) <= eng.log
    ensures if reachedCommit then EndsUnknown(eng.log) else EndsAbandoned(eng.log)
  {
    if !reachedCommit {
      backend.RollBack();
      Abandon(eng, slot.scope);
    } else {
      backend.Commit(PossibleCommit(commit, backend));
      assert Accounted(eng, slot);
      ApplyAsUnknown(eng, slot);
    }
  }

  /** Run: one opaque statement in a transaction of the embedded driver. */
  method Run(eng: Engine, bump: BumpResult, statement: Reply, commit: Reply) returns (result: Ending)
    requires AllSettled(eng)
    modifies eng
    ensures AllSettled(eng) && old(eng.log) <= eng.log
    ensures if statement.ending.Succeeds? then EndsUnknown(eng.log) else EndsAbandoned(eng.log)
    ensures result == if statement.ending.Succeeds? then commit.ending else statement.ending
  {
    var observer := ObserveBumped(eng, false, bump);
    observer.backend.Execute(Reply(statement.ending, statement.rows, {}));
    SettleRun(eng, observer.slot, observer.backend, statement.ending.Succeeds?, commit);
    result := if statement.ending.Succeeds? then commit.ending else statement.ending;
  }

  // ---- Wiping the graph -----------------------------------------------------

  /** What the delegate that keeps part of a wiped graph does with the embedded
      driver's own transaction: nothing records it. */
  datatype RetainAction = RetainWrite(reply: Reply) | RetainCommit(reply: Reply)

  predicate Panicked(script: seq<RetainAction>) {
    exists action | action in script :: action.reply.ending.Panics?
  }

  /** The rows a delegate's own commits make durable, up to where it panics, with
      `pending` not yet committed. */
  function Committed(pending: set<Row>, script: seq<RetainAction>): set<Row>
    decreases |script|
  {
    if script == [] then {}
    else
      var reply := script[0].reply;
      var flushed := if script[0].RetainWrite? then {} else if reply.ending.Succeeds? then pending else reply.flushed * pending;
      var left := if script[0].RetainWrite? then pending + reply.rows else {};
      flushed + if reply.ending.Panics? then {} else Committed(left, script[1..])
  }

  /** A delegate that never commits makes nothing durable. */
  lemma {:induction false} NoCommitNothingCommitted(pending: set<Row>, script: seq<RetainAction>)
    requires forall action | action in script :: action.RetainWrite?
    ensures Committed(pending, script) == {}
    decreases |script|
  {
    if script != [] {
      assert script[0] in script && forall action | action in script[1..] :: action in script;
      NoCommitNothingCommitted(pending + script[0].reply.rows, script[1..]);
    }
  }

  /** One whose first commit is reached and succeeds makes all before it durable,
      the truncation included. */
  lemma {:induction false} FirstCommitCommits(pending: set<Row>, script: seq<RetainAction>, i: nat)
    requires i < |script| && script[i].RetainCommit? && script[i].reply.ending.Succeeds?
    requires forall k | 0 <= k < i :: script[k].RetainWrite? && !script[k].reply.ending.Panics?
    ensures pending <= Committed(pending, script)
    decreases i
  {
    if i > 0 {
      assert forall k | 0 <= k < i - 1 :: script[1..][k] == script[k + 1];
      FirstCommitCommits(pending + script[0].reply.rows, script[1..], i - 1);
    }
  }

  /** Runs the delegate on the unwrapped transaction. */
  method Retain(eng: Engine, slot: Slot, backend: Backend, script: seq<RetainAction>) returns (panicked: bool)
    requires backend.eng == eng && Accounted(eng, slot) && !backend.autocommit && Owed(eng.log) == {}
    modifies eng`log, backend
    ensures Accounted(eng, slot) && old(eng.log) <= eng.log && panicked == Panicked(script)
    ensures Owed(eng.log) == Committed(old(backend.uncommitted), script)
  {
    hide Open, WellSettled, Engine.Valid;
    for i := 0 to |script|
      invariant Accounted(eng, slot) && old(eng.log) <= eng.log && !Panicked(script[..i])
      invariant Owed(eng.log) + Committed(backend.uncommitted, script[i..]) == Committed(old(backend.uncommitted), script)
    {
      assert script[i..][1..] == script[i + 1..] && script[..i + 1] == script[..i] + [script[i]];
      var reply := script[i].reply;
      if script[i].RetainWrite? {
        backend.Execute(Reply(reply.ending, reply.rows, {}));
      } else {
        backend.Commit(PossibleCommit(reply, backend));
      }
      if reply.ending.Panics? {
        return true;
      }
    }
    assert script[..|script|] == script && script[|script|..] == [];
    panicked := false;
  }

  /** The source abandons the write although what `retain` committed is durable. */
  method AbandonWipe(eng: Engine, slot: Slot)
    requires Accounted(eng, slot)
    modifies eng, slot.scope
    ensures eng.Valid() && eng.scopes == old(eng.scopes) && old(eng.log) <= eng.log
    ensures Open(eng.log) == multiset{} && Owed(eng.log) == old(Owed(eng.log))
    ensures AllSettled(eng) <==> old(Owed(eng.log)) == {}
  {
    Append(eng.log, Abandoned(slot.scope.Watermark()));
    eng.ResolveAbandonedWrite(slot.scope);
  }

  /** Past the delegate, whatever the final commit does is applied as unknown. */
  method CommitWipe(eng: Engine, slot: Slot, backend: Backend, commit: Reply)
    requires backend.eng == eng && Accounted(eng, slot)
    modifies eng, slot.scope, backend
    ensures AllSettled(eng) && eng.scopes == old(eng.scopes) && old(eng.log) <= eng.log
  {
    backend.Commit(PossibleCommit(commit, backend));
    assert Accounted(eng, slot);
    ApplyAsUnknown(eng, slot);
  }

  /** WipeGraph: a truncation and then the caller's delegate, in a transaction of
      the embedded driver. What the delegate committed before it failed or panicked
      is durable and never applied; otherwise everything is settled. */
  method WipeGraph(eng: Engine, bump: BumpResult, truncation: Reply, script: seq<RetainAction>, ending: DelegateEnding,
                   commit: Reply)
    returns (result: Ending)
    requires AllSettled(eng)
    modifies eng
    ensures
      var reachedCommit := truncation.ending.Succeeds? && !Panicked(script) && ending.ReturnsNil?;
      var lost := if truncation.ending.Succeeds? && !reachedCommit then Committed(truncation.rows, script) else {};
      && (AllSettled(eng) <==> lost == {})
      && Owed(eng.log) == lost && Open(eng.log) == multiset{}
      && (result.Succeeds? ==> reachedCommit && commit.ending.Succeeds?)
    ensures eng.Valid() && old(eng.log) <= eng.log
  {
    hide Open, Owed, WellSettled, Engine.Valid, Committed, Panicked;
    var observer := ObserveBumped(eng, false, bump);
    var slot, backend := observer.slot, observer.backend;
    backend.Execute(Reply(truncation.ending, truncation.rows, {}));
    assert backend.uncommitted == truncation.rows;
    if !truncation.ending.Succeeds? {
      AbandonWipe(eng, slot);
      return truncation.ending;
    }
    var panicked := Retain(eng, slot, backend, script);
    if panicked || !ending.ReturnsNil? {
      assert Owed(eng.log) == Committed(truncation.rows, script);
      AbandonWipe(eng, slot);
      return if panicked || ending.DelegatePanics? then Panics else Fails;
    }
    CommitWipe(eng, slot, backend, commit);
    result := commit.ending;
  }

  /** A delegate that commits and then returns an error: the truncation is durable,
      and its scope has been abandoned. */
  method ACommittedWipeIsAbandoned(eng: Engine, bump: BumpResult, ending: DelegateEnding, truncated: set<Row>)
    requires AllSettled(eng) && !ending.ReturnsNil? && truncated != {}
    modifies eng
    ensures Owed(eng.log) == truncated && !AllSettled(eng)
  {
    var truncation, committing := Reply(Succeeds, truncated, {}), RetainCommit(Reply(Succeeds, {}, {}));
    var script := [committing];
    assert Committed(truncated, script) == truncated by {
      FirstCommitCommits(truncated, script, 0);
      assert script[1..] == [];
    }
    assert committing in script && !Panicked(script);
    var result := WipeGraph(eng, bump, truncation, script, ending, truncation);
  }

  /** An outcome known to be nothing is abandoned; any other is unknown. */
  method SettleByOutcome(eng: Engine, slot: Slot, nothing: bool)
    requires Accounted(eng, slot) && (nothing ==> Owed(eng.log) == {})
    modifies eng, slot.scope
    ensures AllSettled(eng) && eng.scopes == old(eng.scopes) && old(eng.log) <= eng.log
    ensures if nothing then EndsAbandoned(eng.log) else EndsUnknown(eng.log)
  {
    if nothing {
      Abandon(eng, slot.scope);
    } else {
      ApplyAsUnknown(eng, slot);
    }
  }

  /** SetDefaultGraph: its only effect is in this process, and an error proves
      there was none; a panic proves nothing. */
  method SetDefaultGraph(eng: Engine, bump: BumpResult, ending: Ending, retargeted: bool) returns (result: Ending)
    requires AllSettled(eng) && (ending.Fails? ==> !retargeted)
    modifies eng
    ensures AllSettled(eng) && old(eng.log) <= eng.log && result == ending
    ensures if ending.Fails? then EndsAbandoned(eng.log) else EndsUnknown(eng.log)
  {
    hide WellSettled, Open, Owed, Engine.Valid;
    var observer := ObserveBumped(eng, true, bump);
    if retargeted {
      observer.backend.Execute(Reply(ending, {Retargeting}, {Retargeting}));
    }
    assert Accounted(eng, observer.slot);
    SettleByOutcome(eng, observer.slot, ending.Fails?);
    result := ending;
  }

  /** Settles a delete by kinds. An error is an abandonment only when it provably
      arose before the statement was sent. */
  method SettleDelete(eng: Engine, slot: Slot, criteria: Key, ending: Ending, neverExecuted: bool)
    requires Accounted(eng, slot) && NamesAll({criteria}, Owed(eng.log))
    requires ending.Fails? && neverExecuted ==> Owed(eng.log) == {}
    modifies eng, slot.scope
    ensures AllSettled(eng) && eng.scopes == old(eng.scopes) && old(eng.log) <= eng.log
    ensures if ending.Succeeds? then EndsApplying(eng.log, old(slot.scope.keys) + {criteria})
            else if ending.Fails? && neverExecuted then EndsAbandoned(eng.log)
            else EndsUnknown(eng.log)
  {
    if ending.Succeeds? {
      slot.scope.Record({criteria});
      assert Accounted(eng, slot);
      ApplyWrite(eng, slot.scope);
    } else {
      SettleByOutcome(eng, slot, ending.Fails? && neverExecuted);
    }
  }

  /** The rows a delete by kinds removes: those whose kinds its criteria selects. */
  predicate DeletedFor(criteria: Key, row: Row) {
    match row
    case NodeChange(_, was, now) => criteria.NodeDelete? && was.Some? && now.None? && criteria.criteria.Matches(was.value)
    case EdgeChange(_, before, after) =>
      criteria.EdgeDelete? && before.Some? && after.None? && before.value.kind in criteria.kinds
    case Retargeting => false
  }

  lemma DeletedRowsAreNamed(criteria: Key, deleted: set<Row>)
    requires forall row | row in deleted :: DeletedFor(criteria, row)
    ensures NamesAll({criteria}, deleted)
  {
    forall row | row in deleted
      ensures Names({criteria}, row)
    {
      assert criteria in {criteria} && AnswersTo(row, criteria);
    }
  }

  /** DeleteNodesByKinds and DeleteRelationshipsByKinds: one autocommitted
      statement, whose criteria is on record only once it has succeeded. */
  method DeleteByKinds(eng: Engine, bump: BumpResult, criteria: Key, ending: Ending, deleted: set<Row>, neverExecuted: bool)
    returns (result: Ending)
    requires AllSettled(eng) && (neverExecuted ==> deleted == {})
    requires forall row | row in deleted :: DeletedFor(criteria, row)
    modifies eng
    ensures AllSettled(eng) && old(eng.log) <= eng.log && result == ending
    ensures ending.Succeeds? && !bump.BumpFailed? ==> EndsApplying(eng.log, {criteria})
    ensures !ending.Succeeds? ==> if ending.Fails? && neverExecuted then EndsAbandoned(eng.log) else EndsUnknown(eng.log)
  {
    hide WellSettled, Open, Owed, Engine.Valid;
    var observer := ObserveBumped(eng, true, bump);
    DeletedRowsAreNamed(criteria, deleted);
    if deleted != {} {
      observer.backend.Execute(Reply(ending, deleted, deleted));
    }
    assert Accounted(eng, observer.slot);
    SettleDelete(eng, observer.slot, criteria, ending, neverExecuted);
    result := ending;
  }
}
