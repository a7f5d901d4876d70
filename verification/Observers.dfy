/** The write wrappers a driver call hands out. They all share one slot that
    holds the call's current write scope, and a commit in the middle replaces
    what it holds. */
module Observers {
  import opened GraphStore
  import opened Replica
  import opened Engines
  import opened History

  /** Where the current write scope lives: one field, reached by every wrapper. */
  class Slot {
    var scope: WriteScope

    constructor (scope: WriteScope)
      ensures this.scope == scope
    {
      this.scope := scope;
    }
  }

  /** How a delegated call ended. */
  datatype Ending = Succeeds | Fails | Panics

  /** PostgreSQL's side of one delegated call: how it ended, the rows it changed,
      and the rows that may have become durable by the time it ended. */
  datatype Reply = Reply(ending: Ending, rows: set<Row>, flushed: set<Row>)

  /** Between two histories only rows became durable. */
  ghost predicate SameBumps(before: seq<Event>, after: seq<Event>) {
    && before <= after
    && Open(after) == Open(before)
    && (WellSettled(before) ==> WellSettled(after))
  }

  /** One transaction or batch of the embedded driver. A transaction's rows stay
      uncommitted until its commit; a batch's are durable as they flush. */
  class Backend {
    const autocommit: bool
    const eng: Engine
    var uncommitted: set<Row>

    constructor (autocommit: bool, eng: Engine)
      ensures this.autocommit == autocommit && this.eng == eng && uncommitted == {}
    {
      this.autocommit, this.eng, uncommitted := autocommit, eng, {};
    }

    /** Runs one statement. */
    method Execute(reply: Reply)
      requires reply.flushed <= uncommitted + reply.rows
      modifies this, eng`log
      ensures uncommitted == old(uncommitted) + reply.rows
      ensures Owed(eng.log) == if autocommit then Owed(old(eng.log)) + reply.flushed else Owed(old(eng.log))
      ensures SameBumps(old(eng.log), eng.log)
    {
      uncommitted := uncommitted + reply.rows;
      if autocommit {
        Append(eng.log, Durable(reply.flushed));
        eng.Note(Durable(reply.flushed));
      }
    }

    /** Commits. A commit that fails or panics may still have made rows durable;
        a batch keeps what it has not flushed, a transaction is over. */
    method Commit(reply: Reply)
      requires reply.ending.Succeeds? ==> reply.flushed == uncommitted
      requires reply.flushed <= uncommitted
      modifies this, eng`log
      ensures Owed(eng.log) == Owed(old(eng.log)) + reply.flushed
      ensures SameBumps(old(eng.log), eng.log)
      ensures uncommitted == if autocommit && !reply.ending.Succeeds? then old(uncommitted) else {}
    {
      Append(eng.log, Durable(reply.flushed));
      eng.Note(Durable(reply.flushed));
      if !autocommit || reply.ending.Succeeds? {
        uncommitted := {};
      }
    }

    /** A transaction whose delegate failed or panicked is rolled back. */
    method RollBack()
      requires !autocommit
      modifies this
      ensures uncommitted == {}
    {
      uncommitted := {};
    }
  }

  function OpenOf(counter: Option<nat>): multiset<nat> {
    if counter.Some? then multiset{counter.value} else multiset{}
  }

  /** The only open bump is the current scope's own. */
  ghost predicate Accounted(eng: Engine, slot: Slot)
    reads eng, eng.scopes, slot, slot.scope
  {
    && eng.Valid()
    && slot.scope in eng.scopes
    && WellSettled(eng.log)
    && Open(eng.log) == OpenOf(slot.scope.Watermark())
  }

  /** What holds even while a panic unwinds: beyond that, nothing of a
      transaction is durable and unapplied. */
  ghost predicate Unwinding(eng: Engine, slot: Slot, backend: Backend)
    reads eng, eng.scopes, slot, slot.scope, backend
  {
    backend.eng == eng && Accounted(eng, slot) && (!backend.autocommit ==> Owed(eng.log) == {})
  }

  /** What every wrapper relies on and keeps: the scope also covers every
      row that is durable and unapplied or still uncommitted. */
  ghost predicate Sound(eng: Engine, slot: Slot, backend: Backend)
    reads eng, eng.scopes, slot, slot.scope, backend
  {
    && Unwinding(eng, slot, backend)
    && Covers(slot.scope.keys, Owed(eng.log) + backend.uncommitted)
  }

  /** Nothing is owed and nothing is open: the call is fully settled. */
  ghost predicate AllSettled(eng: Engine)
    reads eng, eng.scopes
  {
    eng.Valid() && WellSettled(eng.log) && Open(eng.log) == multiset{} && Owed(eng.log) == {}
  }

  /** The environment of one wrapper call: how its eager bump ends, and how the
      call it delegates ends. */
  datatype Env = Env(bump: BumpResult, reply: Reply)

  /** Engine.Apply as the driver sees it: what its read-back comes to is not the
      driver's business, only that the write is accounted for. */
  method ApplyWrite(eng: Engine, scope: WriteScope)
    requires eng.Valid() && scope in eng.scopes
    requires WellSettled(eng.log) && Open(eng.log) == OpenOf(scope.Watermark())
    requires Covers(scope.keys, Owed(eng.log))
    modifies eng, scope
    ensures AllSettled(eng) && eng.scopes == old(eng.scopes)
    ensures eng.log == old(eng.log) + [Applied(old(scope.keys), old(scope.Watermark()))]
    ensures !scope.watermarkBumpFailed
  {
    var read: ReadOutcome := *;
    if read.Found? {
      read := read.(staged := true);
    }
    ghost var log, event := eng.log, Applied(scope.keys, scope.Watermark());
    Append(log, event);
    eng.Apply(scope, read, _ => true);
    assert eng.log == log + [event];
  }

  /** ResolveAbandonedWrite as the driver sees it: right only for a write that
      left nothing durable. */
  method Abandon(eng: Engine, scope: WriteScope)
    requires eng.Valid() && scope in eng.scopes
    requires WellSettled(eng.log) && Open(eng.log) == OpenOf(scope.Watermark())
    requires Owed(eng.log) == {}
    modifies eng, scope
    ensures AllSettled(eng) && eng.scopes == old(eng.scopes)
    ensures eng.log == old(eng.log) + [Abandoned(old(scope.Watermark()))]
    ensures !scope.watermarkBumpFailed
  {
    Append(eng.log, Abandoned(scope.Watermark()));
    eng.ResolveAbandonedWrite(scope);
  }

  /** Adds keys to the current scope, which changes nobody's account. */
  method RecordKeys(eng: Engine, slot: Slot, names: set<Key>)
    requires Accounted(eng, slot)
    modifies slot.scope`keys
    ensures Accounted(eng, slot) && slot.scope.keys == old(slot.scope.keys) + names
    ensures slot.scope.Watermark() == old(slot.scope.Watermark())
  {
    slot.scope.Record(names);
  }

  /** Bumps ahead of a write's effect. */
  method EnsureBumped(eng: Engine, scope: WriteScope, result: BumpResult)
    requires eng.Valid() && scope in eng.scopes
    requires WellSettled(eng.log) && Open(eng.log) == OpenOf(scope.Watermark())
    modifies eng`pgCounter, eng`inflightBumps, eng`dirtyGen, eng`log, scope
    ensures eng.Valid() && WellSettled(eng.log) && Open(eng.log) == OpenOf(scope.Watermark())
    ensures Owed(eng.log) == Owed(old(eng.log)) && old(eng.log) <= eng.log
    ensures old(scope.keys) <= scope.keys <= old(scope.keys) + {Fallback}
    ensures !result.BumpFailed? ==> scope.keys == old(scope.keys)
    ensures result.Advanced? ==> scope.Watermark().Some?
  {
    hide Engine.Valid, Engine.Marked, Owed, Open, WellSettled;
    ghost var log := eng.log;
    eng.EnsureBumped(scope, result);
    if eng.log != log {
      Append(log, Bumped(scope.watermark));
    }
  }

  /** The write side of one transaction, batch or query wrapper. */
  class Observer {
    const eng: Engine
    const slot: Slot
    const backend: Backend

    constructor (eng: Engine, slot: Slot, backend: Backend)
      ensures this.eng == eng && this.slot == slot && this.backend == backend
    {
      this.eng, this.slot, this.backend := eng, slot, backend;
    }

    method Bump(result: BumpResult)
      requires Unwinding(eng, slot, backend)
      modifies eng`pgCounter, eng`inflightBumps, eng`dirtyGen, eng`log
      modifies slot.scope
      ensures Unwinding(eng, slot, backend)
      ensures Owed(eng.log) == Owed(old(eng.log)) && old(eng.log) <= eng.log
      ensures old(slot.scope.keys) <= slot.scope.keys <= old(slot.scope.keys) + {Fallback}
      ensures !result.BumpFailed? ==> slot.scope.keys == old(slot.scope.keys)
    {
      EnsureBumped(eng, slot.scope, result);
    }

    /** Delegates one call: it resolves and bumps nothing. */
    method Execute(reply: Reply)
      requires Unwinding(eng, slot, backend) && reply.flushed <= backend.uncommitted + reply.rows
      modifies eng`log, backend
      ensures Unwinding(eng, slot, backend) && old(eng.log) <= eng.log
      ensures backend.uncommitted == old(backend.uncommitted) + reply.rows
      ensures Owed(eng.log) <= Owed(old(eng.log)) + reply.flushed
    {
      backend.Execute(reply);
    }

    /** A call whose keys are known before it runs: update, delete or create by
        known key. Its keys are on record before it is delegated. */
    method Named(names: set<Key>, env: Env)
      requires Sound(eng, slot, backend)
      requires NamesAll(names, env.reply.rows) && env.reply.flushed <= backend.uncommitted + env.reply.rows
      modifies eng, slot.scope, backend
      ensures Sound(eng, slot, backend) && eng.scopes == old(eng.scopes) && old(eng.log) <= eng.log
      ensures !env.bump.BumpFailed? ==> slot.scope.keys == old(slot.scope.keys) + names
    {
      hide Names, NamesAll, Owed, Open, WellSettled, Engine.Valid;
      ghost var rows := Owed(eng.log) + backend.uncommitted;
      Bump(env.bump);
      CoversLonger(old(slot.scope.keys), rows, slot.scope.keys);
      CoversMore(slot.scope.keys, names, rows, env.reply.rows);
      RecordKeys(eng, slot, names);
      Execute(env.reply);
      CoversFewer(slot.scope.keys, rows + env.reply.rows, Owed(eng.log) + backend.uncommitted);
    }

    /** A call whose keys only its result names, made in a transaction: a failed
        statement changed nothing, and a panic rolls the transaction back. */
    method Returned(names: set<Key>, env: Env)
      requires Sound(eng, slot, backend) && !backend.autocommit
      requires env.reply.ending.Succeeds? ==> NamesAll(names, env.reply.rows)
      requires env.reply.ending.Fails? ==> env.reply.rows == {}
      requires env.reply.flushed <= backend.uncommitted + env.reply.rows
      modifies eng, slot.scope, backend
      ensures if env.reply.ending.Panics? then Unwinding(eng, slot, backend) else Sound(eng, slot, backend)
      ensures eng.scopes == old(eng.scopes) && old(eng.log) <= eng.log
      ensures env.reply.ending.Succeeds? && !env.bump.BumpFailed? ==> slot.scope.keys == old(slot.scope.keys) + names
    {
      Bump(env.bump);
      Execute(env.reply);
      if env.reply.ending.Succeeds? {
        RecordKeys(eng, slot, names);
      }
    }

    /** A call recorded by its keys once it succeeded and as a fallback once it
        failed, since a failure may come after its rows are durable: a batch's
        bulk create, and a relationship delete by kinds. */
    method ReturnedOrFallback(names: set<Key>, env: Env)
      requires Sound(eng, slot, backend)
      requires env.reply.ending.Succeeds? ==> NamesAll(names, env.reply.rows)
      requires env.reply.flushed <= backend.uncommitted + env.reply.rows
      modifies eng, slot.scope, backend
      ensures if env.reply.ending.Panics? then Unwinding(eng, slot, backend) else Sound(eng, slot, backend)
      ensures eng.scopes == old(eng.scopes) && old(eng.log) <= eng.log
      ensures env.reply.ending.Succeeds? && !env.bump.BumpFailed? ==> slot.scope.keys == old(slot.scope.keys) + names
    {
      hide Names, NamesAll, Owed, Open, WellSettled, Engine.Valid;
      ghost var rows := Owed(eng.log) + backend.uncommitted;
      Bump(env.bump);
      CoversLonger(old(slot.scope.keys), rows, slot.scope.keys);
      Execute(env.reply);
      assert Unwinding(eng, slot, backend);
      match env.reply.ending
      case Succeeds =>
        CoversMore(slot.scope.keys, names, rows, env.reply.rows);
        CoversFewer(slot.scope.keys + names, rows + env.reply.rows, Owed(eng.log) + backend.uncommitted);
        RecordKeys(eng, slot, names);
      case Fails =>
        RecordKeys(eng, slot, {Fallback});
      case Panics =>
    }

    /** A call whose rows nothing here can name: raw SQL, mutating Cypher, an
        unrecognized criteria. */
    method Opaque(env: Env)
      requires Sound(eng, slot, backend)
      requires env.reply.flushed <= backend.uncommitted + env.reply.rows
      modifies eng, slot.scope, backend
      ensures Sound(eng, slot, backend) && Fallback in slot.scope.keys
      ensures eng.scopes == old(eng.scopes) && old(eng.log) <= eng.log
    {
      RecordKeys(eng, slot, {Fallback});
      Bump(env.bump);
      Execute(env.reply);
    }

    /** A retarget is a fallback; the wrapper it returns shares this one's slot. */
    method WithGraph() returns (child: Observer)
      requires Sound(eng, slot, backend)
      modifies slot.scope`keys
      ensures Sound(eng, slot, backend)
      ensures fresh(child) && child.eng == eng && child.slot == slot && child.backend == backend
    {
      RecordKeys(eng, slot, {Fallback});
      child := new Observer(eng, slot, backend);
    }

    /** Applies the current scope and puts a fresh one in its place. */
    method ApplyAndReplace()
      requires backend.eng == eng && Accounted(eng, slot)
      requires Covers(slot.scope.keys, Owed(eng.log))
      modifies eng, slot, slot.scope
      ensures Unwinding(eng, slot, backend) && Owed(eng.log) == {}
      ensures fresh(slot.scope) && slot.scope.keys == {} && slot.scope.Watermark() == None
      ensures fresh(eng.scopes - old(eng.scopes)) && old(eng.log) <= eng.log
    {
      ApplyWrite(eng, slot.scope);
      var next := eng.NewScope();
      slot.scope := next;
    }

    /** A transaction's commit in the middle of its delegate. Unless it
        succeeded its outcome is unknown, and the scope is applied as that. */
    method CommitTransaction(reply: Reply)
      requires Sound(eng, slot, backend) && !backend.autocommit
      requires reply.ending.Succeeds? ==> reply.flushed == backend.uncommitted
      requires reply.flushed <= backend.uncommitted
      modifies eng, slot, slot.scope, backend
      ensures Sound(eng, slot, backend) && fresh(slot.scope) && fresh(eng.scopes - old(eng.scopes))
      ensures old(eng.log) <= eng.log && slot.scope.keys == {}
    {
      backend.Commit(reply);
      assert Accounted(eng, slot) && Covers(slot.scope.keys, Owed(eng.log));
      if !reply.ending.Succeeds? {
        RecordKeys(eng, slot, {Fallback});
      }
      assert Accounted(eng, slot);
      ApplyAndReplace();
    }

    /** A batch's commit in the middle of its delegate. One that did not succeed
        applies nothing and keeps the scope: what it left buffered may still
        flush. */
    method CommitBatch(reply: Reply)
      requires Sound(eng, slot, backend) && backend.autocommit
      requires reply.ending.Succeeds? ==> reply.flushed == backend.uncommitted
      requires reply.flushed <= backend.uncommitted
      modifies eng, slot, slot.scope, backend
      ensures Sound(eng, slot, backend) && fresh(eng.scopes - old(eng.scopes)) && old(eng.log) <= eng.log
      ensures slot.scope == old(slot.scope) || fresh(slot.scope)
      ensures reply.ending.Succeeds? <==> fresh(slot.scope)
      ensures slot.scope.keys == if reply.ending.Succeeds? then {} else old(slot.scope.keys)
    {
      backend.Commit(reply);
      if reply.ending.Succeeds? {
        ApplyAndReplace();
      }
    }
  }
}
