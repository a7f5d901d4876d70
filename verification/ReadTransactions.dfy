/** Reads and writes made through one ReadTransaction call. The embedded driver
    opens no transaction for it, so its delegate may write, and each write is
    durable at once; what the engine may still answer depends on it. */
module ReadTransactions {
  import opened GraphStore
  import opened Engines
  import opened History
  import opened Observers
  import opened Recognizers

  // ---- What a call does, in order -------------------------------------------

  /** One thing seen during a call. `Began` is an invocation of the delegate,
      which the embedded driver may retry. */
  datatype ReadEvent = Began | Wrote | Retargeted | EngineServed | Delegated

  /** A wrapper of the current invocation has been moved to another graph. */
  predicate MovedAway(trace: seq<ReadEvent>) {
    if trace == [] then false
    else
      match trace[|trace| - 1]
      case Began => false
      case Retargeted => true
      case _ => MovedAway(trace[..|trace| - 1])
  }

  /** The engine served only what came before every write of the call and every
      retarget of the invocation. */
  predicate Safe(trace: seq<ReadEvent>) {
    trace == [] ||
    (var before := trace[..|trace| - 1];
     && Safe(before)
     && (trace[|trace| - 1].EngineServed? ==> Wrote !in before && !MovedAway(before)))
  }

  lemma Seen(trace: seq<ReadEvent>, event: ReadEvent)
    ensures Safe(trace + [event]) <==> Safe(trace) && (event.EngineServed? ==> Wrote !in trace && !MovedAway(trace))
    ensures MovedAway(trace + [event]) == (event.Retargeted? || (!event.Began? && MovedAway(trace)))
    ensures Wrote in trace + [event] <==> Wrote in trace || event.Wrote?
  {
    assert (trace + [event])[..|trace|] == trace;
  }

  /** Writing and reading move no wrapper away. */
  lemma Unmoved(trace: seq<ReadEvent>)
    ensures MovedAway(trace + [Wrote, Delegated]) == MovedAway(trace)
    ensures MovedAway(trace + [Delegated]) == MovedAway(trace)
    ensures MovedAway(trace + [EngineServed]) == MovedAway(trace)
  {
    Seen(trace, Wrote);
    Seen(trace + [Wrote], Delegated);
    assert trace + [Wrote] + [Delegated] == trace + [Wrote, Delegated];
    Seen(trace, Delegated);
    Seen(trace, EngineServed);
  }

  lemma {:induction false} MovedAwayLasts(trace: seq<ReadEvent>, i: nat)
    requires i < |trace| && trace[i].Retargeted?
    requires forall k | i < k < |trace| :: !trace[k].Began?
    ensures MovedAway(trace)
    decreases |trace|
  {
    var before := trace[..|trace| - 1];
    if i < |before| {
      MovedAwayLasts(before, i);
    }
  }

  /** What a safe trace means: a read the engine served is preceded by no write
      of the whole call, and by no retarget since the delegate last began. */
  lemma {:induction false} ServedReadsAreCurrent(trace: seq<ReadEvent>, i: nat, j: nat)
    requires Safe(trace) && i < j < |trace| && trace[j].EngineServed?
    ensures !trace[i].Wrote?
    ensures trace[i].Retargeted? ==> exists k | i < k < j :: trace[k].Began?
    decreases |trace|
  {
    var before := trace[..|trace| - 1];
    if j < |before| {
      ServedReadsAreCurrent(before, i, j);
      assert forall k | 0 <= k < |before| :: before[k] == trace[k];
    } else if trace[i].Retargeted? && forall k | i < k < j :: !trace[k].Began? {
      MovedAwayLasts(before, i);
    }
  }

  // ---- The writes of a call -------------------------------------------------

  /** Records a write none of whose keys are known, and bumps for it. */
  method RecordUnnamed(eng: Engine, scope: WriteScope, bump: BumpResult)
    requires eng.Valid() && scope in eng.scopes
    requires WellSettled(eng.log) && Open(eng.log) == OpenOf(scope.Watermark())
    modifies eng`pgCounter, eng`inflightBumps, eng`dirtyGen, eng`log, scope
    ensures eng.Valid() && WellSettled(eng.log) && Open(eng.log) == OpenOf(scope.Watermark())
    ensures old(eng.log) <= eng.log
    ensures Fallback in scope.keys && (bump.Advanced? ==> scope.Watermark().Some?)
  {
    scope.RecordFallback();
    EnsureBumped(eng, scope, bump);
  }

  /** The writes made through one call, shared by every wrapper it hands out and
      by every retry of its delegate. */
  class ReadWrites {
    const eng: Engine
    var scope: WriteScope?
    ghost const start: seq<Event>
    ghost var trace: seq<ReadEvent>

    constructor (eng: Engine)
      ensures this.eng == eng && scope == null && start == eng.log && trace == []
    {
      this.eng, scope := eng, null;
      start, trace := eng.log, [];
    }

    /** The writes' scope, once there is one, gives up naming keys, and its bump
        is the only one open. Before that the call has done nothing. */
    ghost predicate Accounted()
      reads this`scope, eng, eng.scopes
    {
      && eng.Valid() && WellSettled(eng.log) && start <= eng.log
      && (scope == null ==> eng.log == start && Open(start) == multiset{} && Owed(start) == {})
      && (scope != null ==> scope in eng.scopes && Fallback in scope.keys && Open(eng.log) == OpenOf(scope.Watermark()))
    }

    ghost predicate Sound()
      reads this, eng, eng.scopes
    {
      Accounted() && Safe(trace) && (scope != null <==> Wrote in trace)
    }

    predicate HasWritten()
      reads this`scope
    {
      scope != null
    }

    ghost method See(event: ReadEvent)
      requires Sound() && !event.Wrote?
      requires event.EngineServed? ==> Wrote !in trace && !MovedAway(trace)
      modifies this`trace
      ensures Sound() && trace == old(trace) + [event]
    {
      Seen(trace, event);
      trace := trace + [event];
    }

    ghost method SeeWrite()
      requires Accounted() && Safe(trace) && HasWritten()
      modifies this`trace
      ensures Sound() && trace == old(trace) + [Wrote]
    {
      Seen(trace, Wrote);
      trace := trace + [Wrote];
    }

    /** Records one write, ahead of its effect. */
    method Note(bump: BumpResult)
      requires Sound()
      modifies this, eng, if scope == null then {} else {scope}
      ensures Sound() && HasWritten() && trace == old(trace) + [Wrote]
      ensures bump.Advanced? ==> scope.Watermark().Some?
      ensures if old(scope) == null then fresh(scope) else scope == old(scope)
      ensures fresh(eng.scopes - old(eng.scopes))
    {
      if scope == null {
        scope := eng.NewScope();
      }
      RecordUnnamed(eng, scope, bump);
      SeeWrite();
    }

    /** PostgreSQL's side of a delegated call: only one already noted can have
        changed rows. */
    method Delegate(rows: set<Row>)
      requires Sound() && (rows != {} ==> HasWritten())
      modifies this`trace, eng`log
      ensures Sound() && trace == old(trace) + [Delegated]
      ensures eng.log == old(eng.log) + (if rows == {} then [] else [Durable(rows)])
    {
      if rows != {} {
        Append(eng.log, Durable(rows));
        eng.Note(Durable(rows));
      }
      See(Delegated);
    }

    /** Applies the noted writes, if there were any. */
    method Settle()
      requires Sound()
      modifies eng, if scope == null then {} else {scope}
      ensures AllSettled(eng)
      ensures scope == null ==> eng.log == start
      ensures scope != null ==>
                eng.log == old(eng.log) + [Applied(old(scope.keys), old(scope.Watermark()))] && Fallback in old(scope.keys)
    {
      if !HasWritten() {
        return;
      }
      ApplyWrite(eng, scope);
    }
  }

  // ---- Wrappers -------------------------------------------------------------

  /** Whether Cypher text parses as PostgreSQL's driver parses it, and if so
      whether it carries an updating clause. */
  datatype Parse = ParseError | NoQuery | ParserPanics | Parsed(updating: bool)

  /** Text PostgreSQL may change rows by. What does not parse here does not run there;
      of what makes the parser panic nothing is known. */
  predicate MayWrite(text: Parse) {
    text == Parsed(true) || text == ParserPanics
  }

  function ReadQueryMutates(text: Parse): bool {
    match text
    case ParserPanics => true
    case Parsed(updating) => updating
    case _ => false
  }

  class WrappedTransaction {
    const writes: ReadWrites
    var declined: bool

    constructor (writes: ReadWrites, declined: bool)
      ensures this.writes == writes && this.declined == declined
    {
      this.writes, this.declined := writes, declined;
    }

    predicate Serveable()
      reads this`declined, writes`scope
    {
      !declined && !writes.HasWritten()
    }

    /** This wrapper is declined once the invocation has moved away. */
    ghost predicate Sound()
      reads this`declined, writes, writes.eng, writes.eng.scopes
    {
      writes.Sound() && (MovedAway(writes.trace) ==> declined)
    }

    /** Retargets the wrapped transaction, which returns itself: the receiver is
        declined along with the wrapper returned. */
    method WithGraph() returns (child: WrappedTransaction)
      requires Sound()
      modifies this`declined, writes`trace
      ensures Sound() && declined
      ensures fresh(child) && child.writes == writes && child.declined
      ensures writes.trace == old(writes.trace) + [Retargeted]
    {
      Seen(writes.trace, Retargeted);
      writes.See(Retargeted);
      declined := true;
      child := new WrappedTransaction(writes, true);
    }

    /** CreateNode, UpdateNode, CreateRelationshipByIDs, UpdateRelationship and
        Raw. */
    method Write(bump: BumpResult, rows: set<Row>)
      requires Sound()
      modifies writes, writes.eng, if writes.scope == null then {} else {writes.scope}
      ensures Sound() && writes.HasWritten()
      ensures writes.trace == old(writes.trace) + [Wrote, Delegated]
      ensures MovedAway(writes.trace) == MovedAway(old(writes.trace))
      ensures if old(writes.scope) == null then fresh(writes.scope) else writes.scope == old(writes.scope)
      ensures fresh(writes.eng.scopes - old(writes.eng.scopes))
    {
      Unmoved(writes.trace);
      Seen(writes.trace, Wrote);
      Seen(writes.trace + [Wrote], Delegated);
      writes.Note(bump);
      writes.Delegate(rows);
      assert writes.trace == old(writes.trace) + [Wrote] + [Delegated];
    }

    /** Answers a read the engine has served, or delegates it. */
    method Read(served: bool)
      requires Sound() && (served ==> Serveable())
      modifies writes`trace
      ensures Sound() && writes.trace == old(writes.trace) + [if served then EngineServed else Delegated]
      ensures MovedAway(writes.trace) == MovedAway(old(writes.trace))
    {
      ghost var event := if served then EngineServed else Delegated;
      Seen(writes.trace, event);
      writes.See(event);
    }

    /** Cypher text. The engine plans no updating clause, so text it serves is no
        write; the rest is sniffed before it is delegated. */
    method Query(text: Parse, engineAnswers: bool, bump: BumpResult, rows: set<Row>) returns (served: bool)
      requires Sound() && (engineAnswers ==> text == Parsed(false))
      requires !MayWrite(text) ==> rows == {}
      modifies writes, writes.eng, if writes.scope == null then {} else {writes.scope}
      ensures Sound() && served == (old(Serveable()) && engineAnswers)
      ensures MovedAway(writes.trace) == MovedAway(old(writes.trace))
      ensures writes.trace == old(writes.trace) + if served then [EngineServed]
                                                  else if MayWrite(text) then [Wrote, Delegated]
                                                  else [Delegated]
      ensures old(writes.scope) == null && writes.scope != null ==> fresh(writes.scope)
      ensures old(writes.scope) != null ==> writes.scope == old(writes.scope)
      ensures fresh(writes.eng.scopes - old(writes.eng.scopes))
    {
      served := Serveable() && engineAnswers;
      if served || !ReadQueryMutates(text) {
        Read(served);
      } else {
        Write(bump, rows);
      }
    }
  }

  // ---- Recorded queries -----------------------------------------------------

  /** One clause PostgreSQL's query builder holds. */
  datatype Clause =
    | Where(criteria: Criteria)
    | Ordered(ascendingEdgeId: bool)
    | Skipped(count: int)
    | Limited(count: int)
    | Final(clauses: seq<Criteria>)

  /** The criteria a builder filters by, in order. */
  function Filters(built: seq<Clause>): seq<Criteria> {
    if built == [] then []
    else Filters(built[..|built| - 1]) + if built[|built| - 1].Where? then [built[|built| - 1].criteria] else []
  }

  lemma BuiltMore(built: seq<Clause>, clause: Clause)
    ensures Filters(built + [clause]) == Filters(built) + if clause.Where? then [clause.criteria] else []
  {
    assert (built + [clause])[..|built|] == built;
  }

  lemma {:induction false} OnlyFilters(built: seq<Clause>)
    requires forall clause | clause in built :: clause.Where?
    ensures |Filters(built)| == |built| && forall i | 0 <= i < |built| :: built[i] == Where(Filters(built)[i])
    decreases |built|
  {
    if built != [] {
      OnlyFilters(built[..|built| - 1]);
    }
  }

  /** A builder that holds filters only, one of them, holds just that one. */
  lemma OneFilter(built: seq<Clause>)
    requires (forall clause | clause in built :: clause.Where?) && |Filters(built)| == 1
    ensures built == [Where(Filters(built)[0])]
  {
    OnlyFilters(built);
  }

  lemma {:induction false} EveryFilterIsHeld(built: seq<Clause>)
    ensures forall clause | clause in built && clause.Where? :: clause.criteria in Filters(built)
    decreases |built|
  {
    if built != [] {
      EveryFilterIsHeld(built[..|built| - 1]);
      assert built == built[..|built| - 1] + [built[|built| - 1]];
    }
  }

  predicate HoldsFinal(built: seq<Clause>) {
    exists clause | clause in built :: clause.Final?
  }

  /** The builder asks for what `filter` admits, in edge-id order if `byEdgeId`,
      and for nothing else. */
  predicate Asks(built: seq<Clause>, filter: Criteria, byEdgeId: bool) {
    && Filters(built) == [filter]
    && (byEdgeId <==> Ordered(true) in built)
    && forall clause | clause in built :: clause == Where(filter) || clause == Ordered(true)
  }

  class RecordingNodeQuery {
    const tx: WrappedTransaction
    var criteria: seq<Criteria>
    var tainted: bool
    ghost var built: seq<Clause>

    constructor (tx: WrappedTransaction)
      ensures this.tx == tx && built == [] && Faithful() && !tainted
    {
      this.tx, criteria, tainted := tx, [], false;
      built := [];
    }

    /** The record holds every filter of the builder and, until it is tainted,
        the builder holds nothing else. */
    ghost predicate Faithful()
      reads this
    {
      criteria == Filters(built) && (!tainted ==> forall clause | clause in built :: clause.Where?)
    }

    predicate Answerable()
      reads this, tx`declined, tx.writes`scope
    {
      !tainted && tx.Serveable() && |criteria| == 1
    }

    ghost method Build(clause: Clause)
      requires criteria == Filters(built) + (if clause.Where? then [clause.criteria] else [])
      requires !tainted ==> clause.Where? && forall c | c in built :: c.Where?
      modifies this`built
      ensures Faithful() && built == old(built) + [clause]
    {
      BuiltMore(built, clause);
      built := built + [clause];
    }

    method Filter(criterion: Criteria)
      requires Faithful()
      modifies this`criteria, this`built
      ensures Faithful() && built == old(built) + [Where(criterion)]
    {
      criteria := criteria + [criterion];
      Build(Where(criterion));
    }

    /** OrderBy, Offset and Limit. */
    method Restrict(clause: Clause)
      requires Faithful() && (clause.Ordered? || clause.Skipped? || clause.Limited?)
      modifies this`tainted, this`built
      ensures Faithful() && built == old(built) + [clause]
    {
      tainted := true;
      Build(clause);
    }

    /** Update, Delete, and Query or Fetch with the caller's own final criteria:
        never served, and a write when they carry an updating clause. */
    method Run(finalCriteria: seq<Criteria>, bump: BumpResult, rows: set<Row>)
      requires Faithful() && tx.Sound()
      requires UpdatingClause !in Flattened(finalCriteria) ==> rows == {}
      modifies this`tainted, this`built
      modifies tx.writes, tx.writes.eng, if tx.writes.scope == null then {} else {tx.writes.scope}
      ensures Faithful() && tx.Sound() && tainted && built == old(built) + [Final(finalCriteria)]
      ensures tx.writes.trace == old(tx.writes.trace) +
                                 if HasUpdatingClause(finalCriteria) then [Wrote, Delegated] else [Delegated]
      ensures MovedAway(tx.writes.trace) == MovedAway(old(tx.writes.trace))
      ensures old(tx.writes.scope) == null && tx.writes.scope != null ==> fresh(tx.writes.scope)
      ensures old(tx.writes.scope) != null ==> tx.writes.scope == old(tx.writes.scope)
      ensures fresh(tx.writes.eng.scopes - old(tx.writes.eng.scopes))
    {
      hide ReadWrites.Sound, Flattened, MovedAway;
      tainted := true;
      Build(Final(finalCriteria));
      UpdatingClauseIsFound(finalCriteria);
      if HasUpdatingClause(finalCriteria) {
        tx.Write(bump, rows);
      } else {
        tx.Read(false);
      }
    }

    /** Count, FetchIDs and FetchKinds. What the engine is asked is exactly what
        the builder holds. */
    method Read(engineAnswers: bool) returns (served: bool)
      requires Faithful() && tx.Sound()
      modifies tx.writes`trace
      ensures Faithful() && tx.Sound() && built == old(built)
      ensures served == (old(Answerable()) && engineAnswers)
      ensures served ==> built == [Where(criteria[0])]
      ensures tx.writes.trace == old(tx.writes.trace) + [if served then EngineServed else Delegated]
      ensures MovedAway(tx.writes.trace) == MovedAway(old(tx.writes.trace))
    {
      served := Answerable() && engineAnswers;
      if served {
        OneFilter(built);
      }
      tx.Read(served);
    }
  }

  class RecordingRelationshipQuery {
    const tx: WrappedTransaction
    var criteria: seq<Criteria>
    var tainted: bool
    var orderByEdgeID: bool
    ghost var built: seq<Clause>

    constructor (tx: WrappedTransaction)
      ensures this.tx == tx && built == [] && Faithful() && !tainted
    {
      this.tx, criteria, tainted, orderByEdgeID := tx, [], false, false;
      built := [];
    }

    /** The record holds every filter of the builder and, until it is tainted,
        every clause but the final criteria of an earlier Query. */
    ghost predicate Faithful()
      reads this
    {
      && criteria == Filters(built)
      && (!tainted ==> forall clause | clause in built :: clause.Where? || clause.Final? || clause == Ordered(true))
      && (!tainted ==> (orderByEdgeID <==> Ordered(true) in built))
    }

    predicate Answerable()
      reads this, tx`declined, tx.writes`scope
    {
      !tainted && tx.Serveable() && |criteria| == 1
    }

    ghost method Build(clause: Clause)
      requires criteria == Filters(built) + (if clause.Where? then [clause.criteria] else [])
      requires !tainted ==> forall c | c in built + [clause] :: c.Where? || c.Final? || c == Ordered(true)
      requires !tainted ==> (orderByEdgeID <==> Ordered(true) in built + [clause])
      modifies this`built
      ensures Faithful() && built == old(built) + [clause]
    {
      BuiltMore(built, clause);
      built := built + [clause];
    }

    method Filter(criterion: Criteria)
      requires Faithful()
      modifies this`criteria, this`built
      ensures Faithful() && built == old(built) + [Where(criterion)]
    {
      criteria := criteria + [criterion];
      Build(Where(criterion));
    }

    method OrderBy(ascendingEdgeId: bool)
      requires Faithful()
      modifies this`tainted, this`orderByEdgeID, this`built
      ensures Faithful() && built == old(built) + [Ordered(ascendingEdgeId)]
    {
      if ascendingEdgeId {
        orderByEdgeID := true;
      } else {
        tainted := true;
      }
      Build(Ordered(ascendingEdgeId));
    }

    /** Offset and Limit. */
    method Restrict(clause: Clause)
      requires Faithful() && (clause.Skipped? || clause.Limited?)
      modifies this`tainted, this`built
      ensures Faithful() && built == old(built) + [clause]
    {
      tainted := true;
      Build(clause);
    }

    /** Update, Delete, and a Query whose final criteria carry an updating clause. */
    method Update(finalCriteria: seq<Criteria>, bump: BumpResult, rows: set<Row>)
      requires Faithful() && tx.Sound() && HasUpdatingClause(finalCriteria)
      modifies this`tainted, this`built
      modifies tx.writes, tx.writes.eng, if tx.writes.scope == null then {} else {tx.writes.scope}
      ensures Faithful() && tx.Sound() && tainted && built == old(built) + [Final(finalCriteria)]
      ensures tx.writes.trace == old(tx.writes.trace) + [Wrote, Delegated]
      ensures MovedAway(tx.writes.trace) == MovedAway(old(tx.writes.trace))
      ensures if old(tx.writes.scope) == null then fresh(tx.writes.scope) else tx.writes.scope == old(tx.writes.scope)
      ensures fresh(tx.writes.eng.scopes - old(tx.writes.eng.scopes))
    {
      hide ReadWrites.Sound;
      tainted := true;
      Build(Final(finalCriteria));
      tx.Write(bump, rows);
    }

    /** A Query that updates nothing: served as rows of the one filter, in edge-id
        order if that was asked for, or sent to PostgreSQL with its final criteria.
        What the engine is asked is what the builder holds, unless the final
        criteria of an earlier Query stayed there. */
    method QueryRows(finalCriteria: seq<Criteria>, engineAnswers: bool) returns (served: bool)
      requires Faithful() && tx.Sound()
      modifies this`built, tx.writes`trace
      ensures Faithful() && tx.Sound()
      ensures served == (old(Answerable()) && |finalCriteria| == 1 && engineAnswers)
      ensures built == if served then old(built) else old(built) + [Final(finalCriteria)]
      ensures served ==> (Asks(built, criteria[0], orderByEdgeID) <==> !HoldsFinal(built))
      ensures tx.writes.trace == old(tx.writes.trace) + [if served then EngineServed else Delegated]
      ensures MovedAway(tx.writes.trace) == MovedAway(old(tx.writes.trace))
    {
      hide ReadWrites.Sound;
      served := Answerable() && |finalCriteria| == 1 && engineAnswers;
      if !served {
        Build(Final(finalCriteria));
      } else {
        EveryFilterIsHeld(built);
        assert criteria == [criteria[0]];
      }
      tx.Read(served);
    }

    method Query(finalCriteria: seq<Criteria>, engineAnswers: bool, bump: BumpResult, rows: set<Row>) returns (served: bool)
      requires Faithful() && tx.Sound()
      requires UpdatingClause !in Flattened(finalCriteria) ==> rows == {}
      modifies this`tainted, this`built
      modifies tx.writes, tx.writes.eng, if tx.writes.scope == null then {} else {tx.writes.scope}
      ensures Faithful() && tx.Sound()
      ensures served == (old(Answerable()) && |finalCriteria| == 1 && engineAnswers && !HasUpdatingClause(finalCriteria))
      ensures tainted == (old(tainted) || HasUpdatingClause(finalCriteria))
      ensures !HasUpdatingClause(finalCriteria) ==> tx.writes.scope == old(tx.writes.scope)
      ensures built == if served then old(built) else old(built) + [Final(finalCriteria)]
      ensures served ==> (Asks(built, criteria[0], orderByEdgeID) <==> !HoldsFinal(built))
      ensures served ==> tx.writes.trace == old(tx.writes.trace) + [EngineServed]
      ensures HasUpdatingClause(finalCriteria) ==> tx.writes.trace == old(tx.writes.trace) + [Wrote, Delegated]
      ensures old(tx.writes.trace) <= tx.writes.trace
      ensures MovedAway(tx.writes.trace) == MovedAway(old(tx.writes.trace))
      ensures old(tx.writes.scope) == null && tx.writes.scope != null ==> fresh(tx.writes.scope)
      ensures old(tx.writes.scope) != null ==> tx.writes.scope == old(tx.writes.scope)
      ensures fresh(tx.writes.eng.scopes - old(tx.writes.eng.scopes))
    {
      hide ReadWrites.Sound, RecordingRelationshipQuery.Faithful;
      if HasUpdatingClause(finalCriteria) {
        Update(finalCriteria, bump, rows);
        served := false;
      } else {
        served := QueryRows(finalCriteria, engineAnswers);
      }
    }

    /** FetchAllShortestPaths, Count, FetchIDs, FetchTriples and FetchKinds. What
        the engine is asked is what the builder holds, unless the final criteria
        of an earlier Query stayed there. */
    method Read(engineAnswers: bool) returns (served: bool)
      requires Faithful() && tx.Sound()
      modifies tx.writes`trace
      ensures Faithful() && tx.Sound() && built == old(built)
      ensures served == (old(Answerable()) && !orderByEdgeID && engineAnswers)
      ensures served ==> (built == [Where(criteria[0])] <==> !HoldsFinal(built))
      ensures tx.writes.trace == old(tx.writes.trace) + [if served then EngineServed else Delegated]
      ensures MovedAway(tx.writes.trace) == MovedAway(old(tx.writes.trace))
    {
      served := Answerable() && !orderByEdgeID && engineAnswers;
      if served && !HoldsFinal(built) {
        OneFilter(built);
      }
      tx.Read(served);
    }
  }

  /** A relationship query does not taint itself when its Query goes to
      PostgreSQL, though the final criteria stay on the builder: a Count after it
      can be served from the filter alone. */
  method ACountMissesFinalCriteria(tx: WrappedTransaction, filter: Criteria, final: Criteria, bump: BumpResult)
    returns (query: RecordingRelationshipQuery, served: bool)
    requires tx.Sound() && tx.Serveable() && !HasUpdatingClause([final])
    modifies tx.writes, tx.writes.eng
    ensures served && query.built == [Where(filter), Final([final])]
  {
    query := QueriedOnce(tx, filter, final, bump);
    served := query.Read(true);
  }

  /** And so can the rows of a second Query. */
  method ASecondQueryMissesFinalCriteria(tx: WrappedTransaction, filter: Criteria, first: Criteria, second: Criteria,
                                         bump: BumpResult)
    returns (query: RecordingRelationshipQuery, served: bool)
    requires tx.Sound() && tx.Serveable() && !HasUpdatingClause([first]) && !HasUpdatingClause([second])
    modifies tx.writes, tx.writes.eng
    ensures served && query.built == [Where(filter), Final([first])]
  {
    query := QueriedOnce(tx, filter, first, bump);
    UpdatingClauseIsFound([second]);
    served := query.Query([second], true, bump, {});
  }

  /** A query with one filter whose first Query the engine did not answer. */
  method QueriedOnce(tx: WrappedTransaction, filter: Criteria, final: Criteria, bump: BumpResult)
    returns (query: RecordingRelationshipQuery)
    requires tx.Sound() && tx.Serveable() && !HasUpdatingClause([final])
    modifies tx.writes, tx.writes.eng
    ensures fresh(query) && query.tx == tx && query.Faithful() && query.Answerable() && !query.orderByEdgeID
    ensures tx.Sound() && query.built == [Where(filter), Final([final])]
  {
    hide ReadWrites.Sound;
    query := new RecordingRelationshipQuery(tx);
    query.Filter(filter);
    BuiltMore([], Where(filter));
    assert [] + [Where(filter)] == [Where(filter)];
    UpdatingClauseIsFound([final]);
    var served := query.Query([final], false, bump, {});
    BuiltMore([Where(filter)], Final([final]));
  }

  // ---- A whole call ---------------------------------------------------------

  /** One thing a delegate does with a wrapper or a query it was handed. */
  datatype ReadAction =
    | WriteVia(wrapper: nat, bump: BumpResult, rows: set<Row>)
    | QueryVia(wrapper: nat, text: Parse, engineAnswers: bool, bump: BumpResult, rows: set<Row>)
    | RetargetVia(wrapper: nat)
    | HoldNodes(wrapper: nat)
    | HoldRelationships(wrapper: nat)
    | OnNodes(query: nat, use: QueryUse)
    | OnRelationships(query: nat, use: QueryUse)

  datatype QueryUse =
    | FilterBy(criterion: Criteria)
    | OrderBy(ascendingEdgeId: bool)
    | Offset(count: int)
    | Finish(finalCriteria: seq<Criteria>, engineAnswers: bool, bump: BumpResult, rows: set<Row>)
    | Fetch(engineAnswers: bool)

  ghost function Handed(wrappers: seq<WrappedTransaction>, nodes: seq<RecordingNodeQuery>,
                        relationships: seq<RecordingRelationshipQuery>): set<object>
  {
    (set t | t in wrappers) + (set q | q in nodes) + (set q | q in relationships)
  }

  /** The wrappers of one invocation reach the call's writes; once any of them
      has moved away all are declined, and before that there is only one. */
  ghost predicate Wrapped(w: ReadWrites, moved: bool, wrappers: seq<WrappedTransaction>)
    reads set t | t in wrappers
  {
    && |wrappers| > 0
    && (forall t | t in wrappers :: t.writes == w && (moved ==> t.declined))
    && (!moved ==> |wrappers| == 1)
  }

  /** Its queries belong to those wrappers. */
  ghost predicate Queried(wrappers: seq<WrappedTransaction>, nodes: seq<RecordingNodeQuery>,
                          relationships: seq<RecordingRelationshipQuery>)
    reads Handed([], nodes, relationships)
  {
    && (forall q | q in nodes :: q.tx in wrappers && q.Faithful())
    && (forall q | q in relationships :: q.tx in wrappers && q.Faithful())
  }

  ghost predicate Handles(w: ReadWrites, wrappers: seq<WrappedTransaction>, nodes: seq<RecordingNodeQuery>,
                          relationships: seq<RecordingRelationshipQuery>)
    reads w, w.eng, w.eng.scopes, Handed(wrappers, nodes, relationships)
  {
    w.Sound() && Wrapped(w, MovedAway(w.trace), wrappers) && Queried(wrappers, nodes, relationships)
  }

  method ShapeNodes(query: RecordingNodeQuery, use: QueryUse)
    requires query.Faithful() && !use.Finish? && !use.Fetch?
    modifies query
    ensures query.Faithful()
  {
    if use.FilterBy? {
      query.Filter(use.criterion);
    } else if use.OrderBy? {
      query.Restrict(Ordered(use.ascendingEdgeId));
    } else {
      query.Restrict(Skipped(use.count));
    }
  }

  method UseNodes(query: RecordingNodeQuery, use: QueryUse)
    requires query.Faithful() && query.tx.Sound()
    modifies query, query.tx.writes, query.tx.writes.eng
    modifies if query.tx.writes.scope == null then {} else {query.tx.writes.scope}
    ensures query.Faithful() && query.tx.Sound() && old(query.tx.writes.trace) <= query.tx.writes.trace
    ensures MovedAway(query.tx.writes.trace) == MovedAway(old(query.tx.writes.trace))
    ensures query.tx.writes.scope == old(query.tx.writes.scope) || fresh(query.tx.writes.scope)
    ensures fresh(query.tx.writes.eng.scopes - old(query.tx.writes.eng.scopes))
  {
    if use.Finish? {
      var rows := if UpdatingClause in Flattened(use.finalCriteria) then use.rows else {};
      query.Run(use.finalCriteria, use.bump, rows);
    } else if use.Fetch? {
      var served := query.Read(use.engineAnswers);
    } else {
      ShapeNodes(query, use);
    }
  }

  method ShapeRelationships(query: RecordingRelationshipQuery, use: QueryUse)
    requires query.Faithful() && !use.Finish? && !use.Fetch?
    modifies query
    ensures query.Faithful()
  {
    if use.FilterBy? {
      query.Filter(use.criterion);
    } else if use.OrderBy? {
      query.OrderBy(use.ascendingEdgeId);
    } else {
      query.Restrict(Skipped(use.count));
    }
  }

  method UseRelationships(query: RecordingRelationshipQuery, use: QueryUse)
    requires query.Faithful() && query.tx.Sound()
    modifies query, query.tx.writes, query.tx.writes.eng
    modifies if query.tx.writes.scope == null then {} else {query.tx.writes.scope}
    ensures query.Faithful() && query.tx.Sound() && old(query.tx.writes.trace) <= query.tx.writes.trace
    ensures MovedAway(query.tx.writes.trace) == MovedAway(old(query.tx.writes.trace))
    ensures query.tx.writes.scope == old(query.tx.writes.scope) || fresh(query.tx.writes.scope)
    ensures fresh(query.tx.writes.eng.scopes - old(query.tx.writes.eng.scopes))
  {
    if use.Finish? {
      var rows := if UpdatingClause in Flattened(use.finalCriteria) then use.rows else {};
      var served := query.Query(use.finalCriteria, use.engineAnswers, use.bump, rows);
    } else if use.Fetch? {
      var served := query.Read(use.engineAnswers);
    } else {
      ShapeRelationships(query, use);
    }
  }

  /** A write, a text query or a retarget through one wrapper. */
  method UseWrapper(w: ReadWrites, wrappers: seq<WrappedTransaction>, tx: WrappedTransaction, action: ReadAction)
    returns (wrappers': seq<WrappedTransaction>)
    requires w.Sound() && Wrapped(w, MovedAway(w.trace), wrappers) && tx in wrappers
    requires action.WriteVia? || action.QueryVia? || action.RetargetVia?
    modifies w, w.eng, if w.scope == null then {} else {w.scope}
    modifies set t | t in wrappers
    ensures w.Sound() && Wrapped(w, MovedAway(w.trace), wrappers') && wrappers <= wrappers'
    ensures fresh((set t | t in wrappers') - set t | t in wrappers)
    ensures w.scope == old(w.scope) || fresh(w.scope)
    ensures fresh(w.eng.scopes - old(w.eng.scopes))
    ensures old(w.trace) <= w.trace
  {
    hide ReadWrites.Sound, RecordingNodeQuery.Faithful, RecordingRelationshipQuery.Faithful;
    wrappers' := wrappers;
    if action.WriteVia? {
      tx.Write(action.bump, action.rows);
    } else if action.QueryVia? {
      var rows := if MayWrite(action.text) then action.rows else {};
      var served := tx.Query(action.text, action.engineAnswers && action.text == Parsed(false), action.bump, rows);
    } else {
      Seen(w.trace, Retargeted);
      var child := tx.WithGraph();
      wrappers' := wrappers + [child];
    }
  }

  /** An action on a query, whatever wrapper it came from. */
  method UseQuery(w: ReadWrites, wrappers: seq<WrappedTransaction>, nodes: seq<RecordingNodeQuery>,
                  relationships: seq<RecordingRelationshipQuery>, action: ReadAction)
    requires Handles(w, wrappers, nodes, relationships) && (action.OnNodes? || action.OnRelationships?)
    modifies w, w.eng, if w.scope == null then {} else {w.scope}
    modifies Handed([], nodes, relationships)
    ensures w.Sound() && MovedAway(w.trace) == MovedAway(old(w.trace)) && Queried(wrappers, nodes, relationships)
    ensures old(w.trace) <= w.trace
    ensures w.scope == old(w.scope) || fresh(w.scope)
    ensures fresh(w.eng.scopes - old(w.eng.scopes))
  {
    hide ReadWrites.Sound, RecordingNodeQuery.Faithful, RecordingRelationshipQuery.Faithful;
    if action.OnNodes? {
      if nodes != [] {
        UseNodes(nodes[action.query % |nodes|], action.use);
      }
    } else if relationships != [] {
      UseRelationships(relationships[action.query % |relationships|], action.use);
    }
  }

  /** Nodes() or Relationships() on a wrapper. */
  method Hold(wrappers: seq<WrappedTransaction>, nodes: seq<RecordingNodeQuery>,
              relationships: seq<RecordingRelationshipQuery>, tx: WrappedTransaction, action: ReadAction)
    returns (nodes': seq<RecordingNodeQuery>, relationships': seq<RecordingRelationshipQuery>)
    requires Queried(wrappers, nodes, relationships) && tx in wrappers
    ensures Queried(wrappers, nodes', relationships')
    ensures fresh((set q | q in nodes') - set q | q in nodes)
    ensures fresh((set q | q in relationships') - set q | q in relationships)
  {
    nodes', relationships' := nodes, relationships;
    if action.HoldNodes? {
      var query := new RecordingNodeQuery(tx);
      nodes' := nodes + [query];
    } else {
      var query := new RecordingRelationshipQuery(tx);
      relationships' := relationships + [query];
    }
  }

  /** One action of a delegate, whatever it is done with. */
  method Step(w: ReadWrites, wrappers: seq<WrappedTransaction>, nodes: seq<RecordingNodeQuery>,
              relationships: seq<RecordingRelationshipQuery>, action: ReadAction)
    returns (wrappers': seq<WrappedTransaction>, nodes': seq<RecordingNodeQuery>,
             relationships': seq<RecordingRelationshipQuery>)
    requires Handles(w, wrappers, nodes, relationships)
    modifies w, w.eng, if w.scope == null then {} else {w.scope}
    modifies Handed(wrappers, nodes, relationships)
    ensures Handles(w, wrappers', nodes', relationships') && old(w.trace) <= w.trace
    ensures fresh(Handed(wrappers', nodes', relationships') - Handed(wrappers, nodes, relationships))
    ensures w.scope == old(w.scope) || fresh(w.scope)
    ensures fresh(w.eng.scopes - old(w.eng.scopes))
  {
    hide ReadWrites.Sound, RecordingNodeQuery.Faithful, RecordingRelationshipQuery.Faithful;
    wrappers', nodes', relationships' := wrappers, nodes, relationships;
    if action.HoldNodes? || action.HoldRelationships? {
      nodes', relationships' := Hold(wrappers, nodes, relationships, wrappers[action.wrapper % |wrappers|], action);
    } else if action.OnNodes? || action.OnRelationships? {
      UseQuery(w, wrappers, nodes, relationships, action);
    } else {
      wrappers' := UseWrapper(w, wrappers, wrappers[action.wrapper % |wrappers|], action);
      assert Queried(wrappers, nodes, relationships);
    }
  }

  /** One invocation of the delegate, up to where it returned or panicked. Its
      wrappers are its own; the writes are the call's. */
  method Invoke(w: ReadWrites, script: seq<ReadAction>)
    requires w.Sound()
    modifies w, w.eng, if w.scope == null then {} else {w.scope}
    ensures w.Sound() && old(w.trace) + [Began] <= w.trace
    ensures w.scope == old(w.scope) || fresh(w.scope)
    ensures fresh(w.eng.scopes - old(w.eng.scopes))
  {
    hide ReadWrites.Sound, RecordingNodeQuery.Faithful, RecordingRelationshipQuery.Faithful;
    Seen(w.trace, Began);
    w.See(Began);
    var root := new WrappedTransaction(w, false);
    var wrappers, nodes, relationships := [root], [], [];
    assert Handles(w, wrappers, nodes, relationships);
    for i := 0 to |script|
      invariant Handles(w, wrappers, nodes, relationships) && old(w.trace) + [Began] <= w.trace
      invariant fresh(Handed(wrappers, nodes, relationships))
      invariant w.scope == old(w.scope) || fresh(w.scope)
      invariant fresh(w.eng.scopes - old(w.eng.scopes))
    {
      wrappers, nodes, relationships := Step(w, wrappers, nodes, relationships, script[i]);
    }
  }

  /** A read transaction, its delegate invoked any number of times. However it
      ends, what it wrote is applied once, as a fallback, and a call that wrote
      nothing leaves no trace on the engine. */
  method ReadTransaction(eng: Engine, invocations: seq<seq<ReadAction>>) returns (w: ReadWrites)
    requires AllSettled(eng)
    modifies eng
    ensures AllSettled(eng) && old(eng.log) <= eng.log
    ensures Safe(w.trace)
    ensures Wrote !in w.trace ==> eng.log == old(eng.log)
    ensures Wrote in w.trace ==> |eng.log| > |old(eng.log)|
    ensures Wrote in w.trace ==> var last := eng.log[|eng.log| - 1]; last.Applied? && Fallback in last.keys
  {
    w := new ReadWrites(eng);
    for i := 0 to |invocations|
      invariant w.Sound() && fresh(w) && w.eng == eng && w.start == old(eng.log)
      invariant w.scope != null ==> fresh(w.scope)
      invariant fresh(eng.scopes - old(eng.scopes))
    {
      Invoke(w, invocations[i]);
    }
    w.Settle();
  }
}
