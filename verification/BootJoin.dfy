/** What the verdict on the counters is for: a file it covers is tracked by the
    buffered writes, whoever changed PostgreSQL since the file was taken. */
module BootJoin {
  import opened GraphStore
  import opened Tracking
  import opened Replica
  import opened Agreement
  import opened BootGap
  import opened FileBoot

  /** A commit made since the file was taken, and the counter it had bumped. */
  datatype Write = Write(counter: Uint64, changes: Changes, after: Database)

  /** These commits, one after the other, made PostgreSQL what it is now. */
  ghost predicate Chain(before: Database, writes: seq<Write>, now: Database)
    decreases |writes|
  {
    if writes == [] then before == now
    else Commits(before, writes[0].after, writes[0].changes) && Chain(writes[0].after, writes[1..], now)
  }

  /** What was observed under a write's counter was its scope, every commit of
      it included; a scope that was abandoned had none. */
  ghost predicate Told(history: seq<Observation>, writes: seq<Write>) {
    forall i, k | 0 <= i < |history| && 0 <= k < |writes| && CounterOf(history[i]) == Some(writes[k].counter) ::
      Includes(ChangesOf(if history[i].SawApplied? then history[i].keys else {}), writes[k].changes)
  }

  /** A write past the target is not lost either: it was observed, or is pending. */
  ghost predicate Accounted(write: Write, history: seq<Observation>, target: Uint64, pending: set<Changes>) {
    || write.counter <= target
    || (exists seen | seen in history :: CounterOf(seen) == Some(write.counter))
    || Absorbed(write.changes, pending)
  }

  ghost predicate AllCounted(entries: seq<Entry>) {
    forall entry | entry in entries :: entry.counter < TWO_TO_64
  }

  /** The change logs the replay will read back. */
  function Replayed(entries: seq<Entry>): set<Changes> {
    set entry | entry in entries && entry.keys.Some? :: ChangesOf(entry.keys.value)
  }

  /** Commits whose change logs all join `ws` keep a copy tracked by it. */
  lemma {:induction false} ChainKeepsTracks(copy: Graph, orphans: set<NodeId>, before: Database, writes: seq<Write>,
                                            now: Database, ws: set<Changes>) returns (orphans': set<NodeId>)
    requires Tracks(copy, orphans, before, ws) && Chain(before, writes, now)
    requires forall write | write in writes :: Absorbed(write.changes, ws)
    ensures Tracks(copy, orphans', now, ws)
    decreases |writes|
  {
    hide Tracks, Commits, NewOrphans;
    orphans' := orphans;
    if writes != [] {
      var w, after := writes[0].changes, writes[0].after;
      assert writes[0] in writes && forall write | write in writes[1..] :: write in writes;
      var merged :| merged in ws && Includes(merged, w);
      assert forall v | v in ws :: Includes(v, v);
      CommitWithMerged(copy, orphans, before, after, ws, w, ws, merged);
      orphans' := ChainKeepsTracks(copy, orphans + NewOrphans(copy, before, after, ws), after, writes[1..], now, ws);
    }
  }

  /** An observed write is replayed, or had changed nothing. */
  lemma ObservedIsReplayed(history: seq<Observation>, i: nat, writes: seq<Write>, k: nat)
    requires FirstDoubt(history) == Clean && Told(history, writes) && i < |history| && k < |writes|
    requires CounterOf(history[i]) == Some(writes[k].counter)
    ensures Absorbed(writes[k].changes, Replayed(Recorded(history)) + {NO_CHANGES})
  {
    hide FirstDoubt, Recorded;
    NoDoubtMeansAccounted(history, i);
    var keys := if history[i].SawApplied? then history[i].keys else {};
    assert Includes(ChangesOf(keys), writes[k].changes);
    if keys == {} {
      assert Includes(NO_CHANGES, writes[k].changes);
    } else {
      assert ChangesOf(keys) in Replayed(Recorded(history));
    }
  }

  /** Every commit since the file was taken had bumped a counter past the file's,
      and the verdict on the counters observed is a cover: then the file is wrong
      only where a buffered or a pending write will look again. */
  lemma CoveredFileIsTracked(before: Database, writes: seq<Write>, now: Database, history: seq<Observation>,
                             file: Uint64, target: Uint64, pending: set<Changes>) returns (orphans: set<NodeId>)
    requires before.Valid() && Chain(before, writes, now) && Told(history, writes)
    requires forall write | write in writes :: file < write.counter && Accounted(write, history, target, pending)
    requires FirstDoubt(history) == Clean && AllCounted(Recorded(history))
    requires Judge(file, target, multiset(CountersOf(Recorded(history)))) == Covered
    ensures Tracks(before.graph, orphans, now, Replayed(Recorded(history)) + pending)
  {
    hide Tracks, Judge, Recorded, FirstDoubt, Told, CountersOf, Chain;
    var ws := Replayed(Recorded(history)) + pending;
    forall k | 0 <= k < |writes|
      ensures Absorbed(writes[k].changes, ws + {NO_CHANGES})
    {
      if writes[k].counter <= target {
        var i := CoverMeansAllObserved(history, file, target, writes[k].counter);
        ObservedIsReplayed(history, i, writes, k);
      } else if !Absorbed(writes[k].changes, pending) {
        var seen :| seen in history && CounterOf(seen) == Some(writes[k].counter);
        var i :| 0 <= i < |history| && history[i] == seen;
        ObservedIsReplayed(history, i, writes, k);
      }
    }
    FreshCopyTracks(before, ws + {NO_CHANGES});
    orphans := ChainKeepsTracks(before.graph, {}, before, writes, now, ws + {NO_CHANGES});
    EmptyKeepsTracks(before.graph, orphans, now, ws + {NO_CHANGES}, NO_CHANGES, ws);
  }

  /** So adopting it is sound, and whatever runs on from there agrees with
      PostgreSQL once settled, up to orphans. */
  lemma CoveredFileAgrees(s: State, before: Database, writes: seq<Write>, history: seq<Observation>, file: Uint64,
                          target: Uint64, buffered: map<ScopeId, Changes>)
    returns (b: Boot)
    requires Inv(s) && s.enabled && s.serving && s.view.None? && s.applying.None?
    requires before.Valid() && Chain(before, writes, s.db) && Told(history, writes)
    requires forall write | write in writes :: file < write.counter && Accounted(write, history, target, s.pending.Values)
    requires FirstDoubt(history) == Clean && AllCounted(Recorded(history))
    requires Judge(file, target, multiset(CountersOf(Recorded(history)))) == Covered
    requires buffered.Values == Replayed(Recorded(history)) && buffered.Keys !! s.pending.Keys
    ensures b.s == s && b.file.Some? && b.file.value.copy == before.graph && b.file.value.buffered == buffered
    ensures CanBoot(b, AdoptFile)
    ensures forall steps, t | Run(BootDo(b, AdoptFile).s, steps, t) && t.Serves() && t.Settled() ::
              t.view.value.Visible() == t.db.graph.Visible() <==> t.orphans == {}
  {
    hide Tracks, Judge, Recorded, FirstDoubt, Told, CountersOf, Chain, Inv, Run;
    var orphans := CoveredFileIsTracked(before, writes, s.db, history, file, target, s.pending.Values);
    b := Boot(s, Some(File(before.graph, orphans, buffered)));
    assert Unreplayed(b) == Replayed(Recorded(history)) + s.pending.Values;
    AdoptFileKeepsInv(b);
    forall steps, t | Run(BootDo(b, AdoptFile).s, steps, t) && t.Serves() && t.Settled()
      ensures t.view.value.Visible() == t.db.graph.Visible() <==> t.orphans == {}
    {
      RunKeepsInv(BootDo(b, AdoptFile).s, steps, t);
      SettledAgreement(t);
    }
  }
}
