/** The engine's mutable side: the write scopes it is handed, the watermark and
    trust bookkeeping each of them settles, and Apply itself. */
module Engines {
  import opened GraphStore
  import opened Overlay
  import opened Replica

  /** One event of the history the write path must get right. */
  datatype Event =
    | Bumped(counter: nat)
    | Durable(rows: set<Row>)
    | Applied(keys: set<Key>, resolves: Option<nat>)
    | Abandoned(resolves: Option<nat>)

  /** Carries one write's change log and what became of its eager bump. */
  class WriteScope {
    var keys: set<Key>
    var watermark: nat
    var watermarkBumped: bool
    var watermarkBumpFailed: bool

    constructor ()
      ensures keys == {} && watermark == 0 && !watermarkBumped && !watermarkBumpFailed
    {
      keys := {};
      watermark, watermarkBumped, watermarkBumpFailed := 0, false, false;
    }

    method Record(names: set<Key>)
      modifies this`keys
      ensures keys == old(keys) + names
    {
      keys := keys + names;
    }

    method RecordFallback()
      modifies this`keys
      ensures keys == old(keys) + {Fallback}
    {
      keys := keys + {Fallback};
    }

    method SetWatermark(counter: nat)
      modifies this`watermark, this`watermarkBumped
      ensures watermark == counter && watermarkBumped
    {
      watermark, watermarkBumped := counter, true;
    }

    /** The counter of this scope's bump, if it succeeded. */
    function Watermark(): Option<nat>
      reads this`watermark, this`watermarkBumped
    {
      if watermarkBumped then Some(watermark) else None
    }

    /** Reports whether this call is the one that set the mark. */
    method MarkWatermarkBumpFailed() returns (first: bool)
      modifies this`watermarkBumpFailed
      ensures watermarkBumpFailed && first == !old(watermarkBumpFailed)
    {
      if watermarkBumpFailed {
        return false;
      }
      watermarkBumpFailed := true;
      return true;
    }

    /** Reports an unsettled bump failure, consuming it. */
    method TakeWatermarkBumpFailure() returns (failed: bool)
      modifies this`watermarkBumpFailed
      ensures !watermarkBumpFailed && failed == old(watermarkBumpFailed)
    {
      failed := watermarkBumpFailed;
      watermarkBumpFailed := false;
    }
  }

  datatype BumpResult = Advanced(others: nat) | BumpFailed | Unavailable

  /** What Apply's read-back and everything after it may come to. */
  datatype ReadOutcome =
    | ReadFailed
    | Unnameable
    | Found(rb: ReadBack, staged: bool, overLimit: bool)
    | Panicked(beforeEpoch: bool)

  /** The part of the engine queries are answered from. */
  datatype Status = Status(serving: bool, graph: Option<Graph>, epoch: nat)

  /** One whole Apply, nil scope (`changes` None) and recovered panic included:
      every path moves the epoch, and only a read-back that found everything
      changes the graph. */
  function ApplyEffect(enabled: bool, st: Status, changes: Option<Changes>, read: ReadOutcome): Status {
    var moved := st.(epoch := st.epoch + 1);
    if read == Panicked(true) then moved.(serving := false)
    else if read == Panicked(false) then Status(false, st.graph, st.epoch + 2)
    else
      var gate := if changes.None? then (if enabled then EnterFallback else Drop)
                  else ApplyGate(enabled, st.serving, st.graph.Some?, changes.value);
      match gate
      case Drop => moved
      case EnterFallback => moved.(serving := false)
      case ReadItBack =>
        match read
        case Found(rb, true, false) => moved.(graph := Some(Layer(st.graph.value, SegmentOf(st.graph.value, rb))))
        case _ => moved.(serving := false)
  }

  /** What to do about recovery once an adopting loop has cleared its flag. */
  datatype Relaunch = RelaunchNone | RelaunchRecovery | RelaunchTrust

  function RelaunchAfterAdoption(serving: bool, settledGen: nat, resolvedGen: nat): Relaunch {
    if !serving then RelaunchRecovery
    else if settledGen != resolvedGen then RelaunchTrust
    else RelaunchNone
  }

  class Engine {
    const enabled: bool
    var serving: bool
    var snap: Option<View>
    var applyEpoch: nat
    var fallbackRebuilding: bool
    var rebuildLoopStarts: nat

    var pgCounter: nat
    var inflightBumps: int
    var resolved: multiset<nat>

    var dirtyGen: nat
    var settledDirtyGen: nat
    var resolvedDirtyGen: nat

    /** Every scope whose bump was ever attempted, and everything that happened. */
    ghost var scopes: set<WriteScope>
    ghost var log: seq<Event>

    ghost function Marked(): set<WriteScope>
      reads this`scopes, scopes`watermarkBumpFailed
    {
      set s | s in scopes && s.watermarkBumpFailed
    }

    /** Failures noted less failures settled is the number of scopes carrying an
        unsettled one, and adoption never resolves more than has settled. */
    ghost predicate Valid()
      reads this`dirtyGen, this`settledDirtyGen, this`resolvedDirtyGen, this`scopes, scopes`watermarkBumpFailed
    {
      && dirtyGen == settledDirtyGen + |Marked()|
      && resolvedDirtyGen <= settledDirtyGen
    }

    function Current(): Status
      reads this`serving, this`snap, this`applyEpoch
    {
      Status(serving, if snap.Some? then Some(snap.value.Effective()) else None, applyEpoch)
    }

    constructor (enabled: bool, pgCounter: nat)
      ensures this.enabled == enabled && Valid() && scopes == {} && log == []
      ensures Current() == Status(true, None, 0)
      ensures this.pgCounter == pgCounter && inflightBumps == 0 && resolved == multiset{}
      ensures dirtyGen == 0 && !fallbackRebuilding
    {
      this.enabled := enabled;
      serving, snap, applyEpoch := true, None, 0;
      fallbackRebuilding, rebuildLoopStarts := false, 0;
      this.pgCounter, inflightBumps, resolved := pgCounter, 0, multiset{};
      dirtyGen, settledDirtyGen, resolvedDirtyGen := 0, 0, 0;
      scopes, log := {}, [];
    }

    ghost method Note(event: Event)
      modifies this`log
      ensures log == old(log) + [event]
    {
      log := log + [event];
    }

    /** A fresh scope for a write that is about to begin. */
    method NewScope() returns (scope: WriteScope)
      requires Valid()
      modifies this`scopes
      ensures Valid() && fresh(scope) && scopes == old(scopes) + {scope}
      ensures scope.keys == {} && scope.Watermark() == None && !scope.watermarkBumpFailed
    {
      scope := new WriteScope();
      scopes := scopes + {scope};
      assert Marked() == old(Marked());
    }

    // ---- Watermark and trust bookkeeping ------------------------------------

    /** Bumps the database's counter, which other writers move too. The bump is
        counted in flight before it can commit, and counted out when it fails. */
    method BumpWatermark(result: BumpResult) returns (counter: Option<nat>)
      modifies this`pgCounter, this`inflightBumps, this`log
      ensures counter.Some? <==> result.Advanced?
      ensures counter.Some? ==> counter.value == pgCounter == old(pgCounter) + 1 + result.others
      ensures inflightBumps == old(inflightBumps) + (if counter.Some? then 1 else 0)
      ensures log == if counter.Some? then old(log) + [Bumped(counter.value)] else old(log)
      ensures counter.None? ==> pgCounter == old(pgCounter)
    {
      if result.Unavailable? {
        return None;
      }
      inflightBumps := inflightBumps + 1;
      if result.BumpFailed? {
        inflightBumps := inflightBumps - 1;
        return None;
      }
      pgCounter := pgCounter + 1 + result.others;
      log := log + [Bumped(pgCounter)];
      counter := Some(pgCounter);
    }

    /** Opens a trust generation for a scope's failed bump, once per scope. */
    method NoteWatermarkBumpFailure(scope: WriteScope) returns (first: bool)
      requires Valid() && scope in scopes
      modifies this`dirtyGen, scope`watermarkBumpFailed
      ensures Valid() && scope.watermarkBumpFailed
      ensures first == !old(scope.watermarkBumpFailed)
      ensures dirtyGen == old(dirtyGen) + (if first then 1 else 0)
      ensures Marked() == old(Marked()) + {scope}
    {
      ghost var before := Marked();
      first := scope.MarkWatermarkBumpFailed();
      assert Marked() == before + {scope};
      if first {
        dirtyGen := dirtyGen + 1;
      }
    }

    /** Retires a scope's failure once its write's outcome is final. */
    method SettleWatermarkFailure(scope: WriteScope) returns (settled: bool)
      requires Valid() && scope in scopes
      modifies this`settledDirtyGen, scope`watermarkBumpFailed
      ensures Valid() && !scope.watermarkBumpFailed
      ensures settled == old(scope.watermarkBumpFailed)
      ensures settledDirtyGen == old(settledDirtyGen) + (if settled then 1 else 0)
      ensures Marked() == old(Marked()) - {scope}
    {
      ghost var before := Marked();
      settled := scope.TakeWatermarkBumpFailure();
      assert Marked() == before - {scope};
      if settled {
        settledDirtyGen := settledDirtyGen + 1;
      }
    }

    /** A failure that guards no write settles the instant it is noted. */
    method NoteSelfSettlingWatermarkFailure()
      requires Valid()
      modifies this`dirtyGen, this`settledDirtyGen
      ensures Valid() && Marked() == old(Marked())
      ensures dirtyGen == old(dirtyGen) + 1 && settledDirtyGen == old(settledDirtyGen) + 1
    {
      dirtyGen := dirtyGen + 1;
      settledDirtyGen := settledDirtyGen + 1;
    }

    method AdvanceWatermark(counter: nat)
      modifies this`resolved, this`inflightBumps
      ensures resolved == old(resolved) + multiset{counter}
      ensures inflightBumps == old(inflightBumps) - 1
    {
      resolved := resolved + multiset{counter};
      inflightBumps := inflightBumps - 1;
    }

    /** Bumps the counter for a scope's write, once per scope however often it
        is asked; a failed bump makes the scope carry a fallback. */
    method EnsureBumped(scope: WriteScope, result: BumpResult)
      requires Valid() && scope in scopes
      modifies this`pgCounter, this`inflightBumps, this`dirtyGen, this`log
      modifies scope`keys, scope`watermark, scope`watermarkBumped, scope`watermarkBumpFailed
      ensures Valid() && pgCounter >= old(pgCounter)
      ensures old(scope.Watermark()).Some? ==> scope.Watermark() == old(scope.Watermark()) && log == old(log)
      ensures old(scope.Watermark()).None? && scope.Watermark().None? ==> log == old(log)
      ensures old(scope.Watermark()).None? && scope.Watermark().Some? ==>
                scope.watermark > old(pgCounter) && log == old(log) + [Bumped(scope.watermark)]
      ensures scope.watermark <= pgCounter || !scope.watermarkBumped || old(scope.watermarkBumped)
      ensures scope.keys == old(scope.keys) + if dirtyGen == old(dirtyGen) then {} else {Fallback}
      ensures !result.BumpFailed? ==> scope.keys == old(scope.keys)
      ensures scope.watermarkBumped == (old(scope.watermarkBumped) || result.Advanced?)
      ensures scope.watermarkBumpFailed ==
              (old(scope.watermarkBumpFailed) || (result.BumpFailed? && !old(scope.watermarkBumped)))
      ensures dirtyGen == old(dirtyGen) + if scope.watermarkBumpFailed && !old(scope.watermarkBumpFailed) then 1 else 0
    {
      if scope.watermarkBumped {
        return;
      }
      var counter := BumpWatermark(result);
      if counter.Some? {
        scope.SetWatermark(counter.value);
        assert Marked() == old(Marked());
      } else if result.BumpFailed? {
        var first := NoteWatermarkBumpFailure(scope);
        if first {
          ghost var marked := Marked();
          scope.RecordFallback();
          assert Marked() == marked;
        }
      }
    }

    /** A scope's bump, if it succeeded, resolves. */
    method RetireBump(scope: WriteScope)
      modifies this`resolved, this`inflightBumps
      ensures resolved == old(resolved) + (if scope.Watermark().Some? then multiset{scope.watermark} else multiset{})
      ensures inflightBumps == old(inflightBumps) - (if scope.Watermark().Some? then 1 else 0)
    {
      if scope.watermarkBumped {
        AdvanceWatermark(scope.watermark);
      }
    }

    /** The bookkeeping both outcomes of a write share: its bump resolves, and a
        failed bump settles. */
    method SettleAccounts(scope: WriteScope)
      requires Valid() && scope in scopes
      modifies this`resolved, this`inflightBumps, this`settledDirtyGen, scope`watermarkBumpFailed
      modifies this`fallbackRebuilding, this`rebuildLoopStarts
      ensures Valid() && !scope.watermarkBumpFailed
      ensures resolved == old(resolved) + (if scope.Watermark().Some? then multiset{scope.watermark} else multiset{})
      ensures inflightBumps == old(inflightBumps) - (if scope.Watermark().Some? then 1 else 0)
      ensures old(fallbackRebuilding) ==> fallbackRebuilding
    {
      hide Engine.Valid, Engine.Marked;
      RetireBump(scope);
      var settled := SettleWatermarkFailure(scope);
      if settled {
        RequestTrustRebuild();
      }
    }

    /** Settles a write known to have left nothing behind, without an Apply. */
    method ResolveAbandonedWrite(scope: WriteScope)
      requires Valid() && scope in scopes
      modifies this`resolved, this`inflightBumps, this`settledDirtyGen, scope`watermarkBumpFailed
      modifies this`fallbackRebuilding, this`rebuildLoopStarts, this`log
      ensures Valid() && !scope.watermarkBumpFailed
      ensures log == old(log) + [Abandoned(scope.Watermark())]
      ensures resolved == old(resolved) + (if scope.Watermark().Some? then multiset{scope.watermark} else multiset{})
      ensures inflightBumps == old(inflightBumps) - (if scope.Watermark().Some? then 1 else 0)
    {
      log := log + [Abandoned(scope.Watermark())];
      SettleAccounts(scope);
    }

    // ---- Fallback -----------------------------------------------------------

    method ClaimRebuildLoop() returns (won: bool)
      modifies this`fallbackRebuilding, this`rebuildLoopStarts
      ensures won == (enabled && !old(fallbackRebuilding))
      ensures fallbackRebuilding == (old(fallbackRebuilding) || won)
      ensures rebuildLoopStarts == old(rebuildLoopStarts) + (if won then 1 else 0)
    {
      if !enabled {
        return false;
      }
      won := !fallbackRebuilding;
      if won {
        fallbackRebuilding := true;
        rebuildLoopStarts := rebuildLoopStarts + 1;
      }
    }

    method StartFallbackRebuild()
      modifies this`fallbackRebuilding, this`rebuildLoopStarts
      ensures enabled ==> fallbackRebuilding
      ensures !enabled ==> fallbackRebuilding == old(fallbackRebuilding)
    {
      var _ := ClaimRebuildLoop();
    }

    /** The rate limiter decides whether this request launches now. */
    method RequestTrustRebuild()
      modifies this`fallbackRebuilding, this`rebuildLoopStarts
      ensures old(fallbackRebuilding) ==> fallbackRebuilding
    {
      var launchNow: bool := *;
      if enabled && launchNow {
        StartFallbackRebuild();
      }
    }

    method EnterFallback()
      modifies this`serving, this`fallbackRebuilding, this`rebuildLoopStarts
      ensures !serving && (enabled ==> fallbackRebuilding)
    {
      serving := false;
      StartFallbackRebuild();
    }

    /** Publishes a rebuilt view unless an Apply has run since `epoch` was read. */
    method AdoptRebuiltView(view: View, epoch: nat, settledGen: nat) returns (adopted: bool)
      requires Valid() && settledGen <= settledDirtyGen
      modifies this`snap, this`serving, this`resolvedDirtyGen
      ensures Valid() && adopted == (old(applyEpoch) == epoch)
      ensures adopted ==> Current() == Status(true, Some(view.Effective()), epoch)
      ensures adopted ==> resolvedDirtyGen >= settledGen && resolvedDirtyGen >= old(resolvedDirtyGen)
      ensures !adopted ==> Current() == old(Current()) && resolvedDirtyGen == old(resolvedDirtyGen)
    {
      if applyEpoch != epoch {
        return false;
      }
      snap := Some(view);
      if settledGen > resolvedDirtyGen {
        resolvedDirtyGen := settledGen;
      }
      serving := true;
      return true;
    }

    /** Clears the rebuild flag, then relaunches if the engine has raced back
        into fallback, or a failure settled after the load began. */
    method FinishFallbackRebuild()
      modifies this`fallbackRebuilding, this`rebuildLoopStarts
      ensures enabled && !serving ==> fallbackRebuilding
      ensures serving && settledDirtyGen == resolvedDirtyGen ==> !fallbackRebuilding
    {
      fallbackRebuilding := false;
      match RelaunchAfterAdoption(serving, settledDirtyGen, resolvedDirtyGen)
      case RelaunchNone =>
      case RelaunchRecovery => StartFallbackRebuild();
      case RelaunchTrust => RequestTrustRebuild();
    }

    // ---- Apply --------------------------------------------------------------

    /** Replays one committed write. `read` is what PostgreSQL answers;
        `parses` decides which property bags can be staged. */
    method Apply(scope: WriteScope?, read: ReadOutcome, parses: string -> bool)
      requires Valid() && (scope != null ==> scope in scopes)
      requires read.Found? ==> (read.staged <==> forall n | n in read.rb.nodes :: parses(read.rb.nodes[n].props))
      modifies this`serving, this`snap, this`applyEpoch, this`fallbackRebuilding, this`rebuildLoopStarts
      modifies this`resolved, this`inflightBumps, this`settledDirtyGen, this`log
      modifies if scope != null then {scope} else {}
      ensures Valid()
      ensures Current() == ApplyEffect(enabled, old(Current()), if scope == null then None else Some(ChangesOf(old(scope.keys))), read)
      ensures scope != null ==> !scope.watermarkBumpFailed && scope.Watermark() == old(scope.Watermark())
      ensures log == if scope == null then old(log) else old(log) + [Applied(old(scope.keys), scope.Watermark())]
      ensures scope != null ==>
                resolved == old(resolved) + (if scope.Watermark().Some? then multiset{scope.watermark} else multiset{})
      ensures scope != null ==> inflightBumps == old(inflightBumps) - (if scope.Watermark().Some? then 1 else 0)
      ensures enabled && scope != null && Fallback in old(scope.keys) ==> fallbackRebuilding
      ensures enabled && old(serving) && old(snap).Some? && scope != null && old(scope.keys) != {} ==>
                && (serving <==> Fallback !in old(scope.keys) && read.Found? && read.staged && !read.overLimit)
                && (!serving ==> fallbackRebuilding)
    {
      if scope != null {
        EmptyChanges(scope.keys);
        log := log + [Applied(scope.keys, scope.Watermark())];
        SettleAccounts(scope);
      }
      ReplayOntoView(scope, read, parses);
    }

    /** Everything Apply does once the write's own bookkeeping is settled. */
    method ReplayOntoView(scope: WriteScope?, read: ReadOutcome, parses: string -> bool)
      requires Valid() && (scope != null ==> scope in scopes)
      requires read.Found? ==> (read.staged <==> forall n | n in read.rb.nodes :: parses(read.rb.nodes[n].props))
      modifies this`serving, this`snap, this`applyEpoch, this`fallbackRebuilding, this`rebuildLoopStarts
      modifies if scope != null then {scope} else {}
      ensures scope != null ==> scope.watermarkBumpFailed == old(scope.watermarkBumpFailed)
      ensures scope != null ==> scope.Watermark() == old(scope.Watermark())
      ensures scope != null ==>
                scope.keys == old(scope.keys) +
                              if enabled && old(serving) && old(snap).Some? && old(scope.keys) != {} && read.Unnameable? &&
                                 Fallback !in old(scope.keys) then {Fallback} else {}
      ensures Valid()
      ensures Current() == ApplyEffect(enabled, old(Current()), if scope == null then None else Some(ChangesOf(old(scope.keys))), read)
      ensures enabled && !serving && old(serving) ==> fallbackRebuilding
      ensures enabled && scope != null && Fallback in old(scope.keys) ==> fallbackRebuilding
    {
      hide Layer, SegmentOf, View.Effective;
      if read == Panicked(true) {
        FallBackOnApplyPanic();
        return;
      }
      applyEpoch := applyEpoch + 1;
      if read == Panicked(false) {
        FallBackOnApplyPanic();
        return;
      }
      if !enabled {
        return;
      }
      if scope == null || Fallback in scope.keys {
        EnterFallback();
        return;
      }
      EmptyChanges(scope.keys);
      if scope.keys == {} {
        return;
      }
      if !serving {
        StartFallbackRebuild();
        return;
      }
      if snap.None? {
        return;
      }
      if !read.Found? {
        if read.Unnameable? {
          scope.RecordFallback();
          assert Marked() == old(Marked());
        }
        EnterFallback();
        return;
      }
      var seg := BuildApplySegment(snap.value, read.rb, parses);
      if seg.None? || read.overLimit {
        EnterFallback();
        return;
      }
      WithSegmentLayers(snap.value, seg.value);
      snap := Some(snap.value.WithSegment(seg.value));
    }

    method FallBackOnApplyPanic()
      modifies this`applyEpoch, this`serving, this`fallbackRebuilding, this`rebuildLoopStarts
      ensures !serving && applyEpoch == old(applyEpoch) + 1 && (enabled ==> fallbackRebuilding)
    {
      applyEpoch := applyEpoch + 1;
      EnterFallback();
    }

    /** The two counters agree exactly when no scope carries a failure, and the
        settled one never passes the other. */
    lemma GenerationsAgreeWhenAllSettled()
      requires Valid()
      ensures settledDirtyGen <= dirtyGen
      ensures dirtyGen == settledDirtyGen <==> forall s | s in scopes :: !s.watermarkBumpFailed
    {
      assert forall s | s in scopes :: s.watermarkBumpFailed <==> s in Marked();
      if Marked() != {} {
        var s :| s in Marked();
      }
    }

    /** When every failure ever noted is resolved, none is unsettled and none
        has settled since the adopted load began. */
    lemma TrustLeavesNothingUnsettled()
      requires Valid() && resolvedDirtyGen == dirtyGen
      ensures forall s | s in scopes :: !s.watermarkBumpFailed
      ensures settledDirtyGen == resolvedDirtyGen
    {
      assert forall s | s in scopes && s.watermarkBumpFailed :: s in Marked();
      assert Marked() == {};
    }
  }

  function StatusOf(s: State): Status {
    Status(s.serving, s.view, s.epoch)
  }

  /** What a running Apply of the transition system comes to: its reads give a
      segment that can be laid over the view, or it fails. A panic before the
      epoch moved finds the epoch as if it had. */
  function Finished(running: State, read: ReadOutcome): State
    requires running.applying.Some? && running.view.Some?
  {
    match read
    case Found(rb, staged, overLimit) =>
      if staged && !overLimit then DoPublish(running.(applying := Some(running.applying.value.(rb := rb))))
      else DoFailApply(running, false)
    case Panicked(beforeEpoch) => DoFailApply(running, !beforeEpoch)
    case _ => DoFailApply(running, false)
  }

  /** Engine.Apply is the transition system's Apply: beginning one, then publishing
      or failing as its reads come out, has exactly ApplyEffect, for every outcome. */
  lemma ApplyIsTheTransition(s: State, scope: ScopeId, read: ReadOutcome)
    requires s.applying.None? && scope in s.pending
    ensures
      var begun := DoBeginApply(s, scope);
      var effect := ApplyEffect(s.enabled, StatusOf(s), Some(s.pending[scope]), read);
      if begun.applying.Some? then effect == StatusOf(Finished(begun, read))
      else if read.Panicked? then effect == StatusOf(DoFailApply(begun, !read.beforeEpoch))
      else effect == StatusOf(begun)
  {
    hide Layer, SegmentOf, AgendaOf;
  }

  /** No write is dropped: when an Apply of one that names anything leaves a serving
      engine with a view serving, its segment was staged, within the limit, and is
      laid over the view. */
  lemma AppliedOrNotServing(enabled: bool, st: Status, w: Changes, read: ReadOutcome)
    requires enabled && st.serving && st.graph.Some? && !w.Empty()
    ensures
      var after := ApplyEffect(enabled, st, Some(w), read);
      && after.epoch > st.epoch
      && (after.serving <==> !w.fallback && read.Found? && read.staged && !read.overLimit)
      && after.graph == if after.serving then Some(Layer(st.graph.value, SegmentOf(st.graph.value, read.rb))) else st.graph
  {
    hide Layer, SegmentOf;
  }

  // ---- A scope can be bumped and marked as failed ---------------------------

  predicate Advances(results: seq<BumpResult>) {
    exists j | 0 <= j < |results| :: results[j].Advanced?
  }

  /** Some call failed before the first one that advanced. */
  predicate FailsFirst(results: seq<BumpResult>) {
    exists i | 0 <= i < |results| :: results[i].BumpFailed? && !Advances(results[..i])
  }

  lemma OneMoreResult(results: seq<BumpResult>, k: nat)
    requires k < |results|
    ensures Advances(results[..k + 1]) <==> Advances(results[..k]) || results[k].Advanced?
    ensures FailsFirst(results[..k + 1]) <==> FailsFirst(results[..k]) || (results[k].BumpFailed? && !Advances(results[..k]))
  {
    var less, more := results[..k], results[..k + 1];
    assert more == less + [results[k]];
    assert more[k] == results[k] && more[..k] == less;
    assert forall i | 0 <= i < k :: more[i] == less[i] && more[..i] == less[..i];
  }

  /** The mutating calls of one write all ask for its scope's bump, with whatever
      results: the scope ends up both bumped and marked as failed if and only if
      a call failed before the first one that advanced the counter. */
  method EnsureBumpedEachTime(eng: Engine, results: seq<BumpResult>) returns (scope: WriteScope)
    requires eng.Valid()
    modifies eng
    ensures eng.Valid() && fresh(scope) && eng.scopes == old(eng.scopes) + {scope}
    ensures scope.watermarkBumped <==> Advances(results)
    ensures scope.watermarkBumpFailed <==> FailsFirst(results)
    ensures eng.dirtyGen == old(eng.dirtyGen) + if FailsFirst(results) then 1 else 0
    ensures eng.log == old(eng.log) + if Advances(results) then [Bumped(scope.watermark)] else []
    ensures scope.keys == if FailsFirst(results) then {Fallback} else {}
  {
    hide Engine.Valid, Engine.Marked, Advances, FailsFirst;
    scope := eng.NewScope();
    assert results[..0] == [];
    NoResults();
    for k := 0 to |results|
      invariant eng.Valid() && fresh(scope) && eng.scopes == old(eng.scopes) + {scope}
      invariant scope.watermarkBumped <==> Advances(results[..k])
      invariant scope.watermarkBumpFailed <==> FailsFirst(results[..k])
      invariant eng.dirtyGen == old(eng.dirtyGen) + if FailsFirst(results[..k]) then 1 else 0
      invariant eng.log == old(eng.log) + if Advances(results[..k]) then [Bumped(scope.watermark)] else []
      invariant scope.keys == if FailsFirst(results[..k]) then {Fallback} else {}
    {
      OneMoreResult(results, k);
      eng.EnsureBumped(scope, results[k]);
    }
    assert results[..|results|] == results;
  }

  lemma NoResults()
    ensures !Advances([]) && !FailsFirst([])
  {
  }

  /** Such a scope: its first bump failed, its second did not. */
  method ABumpedScopeIsMarkedAsFailed(eng: Engine) returns (scope: WriteScope)
    requires eng.Valid()
    modifies eng
    ensures scope.watermarkBumped && scope.watermarkBumpFailed
  {
    hide Engine.Valid, Engine.Marked;
    scope := eng.NewScope();
    eng.EnsureBumped(scope, BumpFailed);
    eng.EnsureBumped(scope, Advanced(0));
  }
}
