/** Booting from a saved snapshot although writes are applied meanwhile: the file
    stays tracked by the writes the boot buffer holds, so adopting it and
    replaying them is as good as any rebuild. */
module FileBoot {
  import opened GraphStore
  import opened Tracking
  import opened Replica
  import opened Agreement

  /** A file still being loaded, and the writes applied since without a view. */
  datatype File = File(copy: Graph, orphans: set<NodeId>, buffered: map<ScopeId, Changes>)

  datatype Boot = Boot(s: State, file: Option<File>)

  /** A step of the engine, or the adoption of the file. */
  datatype BootStep = Inner(step: Step) | AdoptFile

  ghost predicate CanBoot(b: Boot, step: BootStep) {
    match step
    case Inner(inner) =>
      && CanDo(b.s, inner)
      && (inner.Commit? && b.file.Some? ==> inner.scope !in b.file.value.buffered)
    case AdoptFile => b.file.Some? && b.s.enabled && b.s.applying.None?
  }

  /** What one step leaves of the file: a write it can replay is buffered, one it
      cannot rules the file out, and so does any view or fallback. */
  function FileAfter(b: Boot, step: Step, s': State): Option<File>
    requires b.file.Some? && (step.BeginApply? ==> step.scope in b.s.pending)
  {
    var file := b.file.value;
    match step
    case Commit(_, _, after) =>
      Some(file.(orphans := file.orphans + NewOrphans(file.copy, b.s.db, after, s'.pending.Values + file.buffered.Values)))
    case BeginApply(scope) =>
      var w := b.s.pending[scope];
      if w.fallback then None else if w.Empty() then b.file else Some(file.(buffered := file.buffered[scope := w]))
    case EndLoad(_) => if s'.view.Some? then None else b.file
    case FailApply(_) => None
    case Distrust => None
    case _ => b.file
  }

  /** Adopting puts the file in place and its buffered writes back among those to
      be applied: the replay is their Applies. */
  function BootDo(b: Boot, step: BootStep): Boot
    requires CanBoot(b, step)
  {
    match step
    case Inner(inner) =>
      var s' := Do(b.s, inner);
      Boot(s', if b.file.Some? then FileAfter(b, inner, s') else None)
    case AdoptFile =>
      var file := b.file.value;
      Boot(b.s.(view := Some(file.copy), orphans := file.orphans, pending := b.s.pending + file.buffered), None)
  }

  function Unreplayed(b: Boot): set<Changes>
    requires b.file.Some?
  {
    b.s.pending.Values + b.file.value.buffered.Values
  }

  /** The file is wrong only where a write still to be applied or replayed will
      look again. */
  ghost predicate BootInv(b: Boot) {
    && Inv(b.s)
    && (b.file.Some? ==>
          && b.s.view.None? && b.s.applying.None? && b.s.serving
          && b.s.pending.Keys !! b.file.value.buffered.Keys
          && Tracks(b.file.value.copy, b.file.value.orphans, b.s.db, Unreplayed(b)))
  }

  /** At boot nothing is pending, and a file there is holds what PostgreSQL does. */
  ghost predicate BootInit(b: Boot) {
    && Init(b.s)
    && (b.file.Some? ==> b.file.value.buffered == map[] && b.file.value.orphans == {} && b.file.value.copy == b.s.db.graph)
  }

  lemma BootBegins(b: Boot)
    requires BootInit(b)
    ensures BootInv(b)
  {
    if b.file.Some? {
      FreshCopyTracks(b.s.db, Unreplayed(b));
    }
  }

  /** More writes to come only cover more. */
  lemma TracksMore(copy: Graph, orphans: set<NodeId>, db: Database, ws: set<Changes>, ws': set<Changes>)
    requires Tracks(copy, orphans, db, ws) && ws <= ws'
    ensures Tracks(copy, orphans, db, ws')
  {
    forall n: NodeId
      ensures NodeTracked(copy, orphans, db, ws', n)
    {
      assert NodeTracked(copy, orphans, db, ws, n);
    }
    forall e: EdgeId
      ensures EdgeTracked(copy, db, ws', e)
    {
      assert EdgeTracked(copy, db, ws, e);
    }
  }

  lemma CommitKeepsFile(b: Boot, scope: ScopeId, w: Changes, after: Database)
    requires BootInv(b) && b.file.Some? && CanBoot(b, Inner(Commit(scope, w, after)))
    ensures
      var b' := BootDo(b, Inner(Commit(scope, w, after)));
      && b'.s.pending.Keys !! b'.file.value.buffered.Keys
      && Tracks(b'.file.value.copy, b'.file.value.orphans, b'.s.db, Unreplayed(b'))
  {
    hide Tracks, Inv, NewOrphans;
    var b' := BootDo(b, Inner(Commit(scope, w, after)));
    var file, merged := b.file.value, b'.s.pending[scope];
    assert b'.s.pending == b.s.pending[scope := merged];
    assert merged in b'.s.pending.Values;
    forall v | v in Unreplayed(b)
      ensures Absorbed(v, Unreplayed(b'))
    {
      if v in b.s.pending.Values {
        var k :| k in b.s.pending && b.s.pending[k] == v;
        assert b'.s.pending[k] in b'.s.pending.Values && Includes(b'.s.pending[k], v);
      } else {
        assert v in Unreplayed(b') && Includes(v, v);
      }
    }
    CommitWithMerged(file.copy, file.orphans, b.s.db, after, Unreplayed(b), w, Unreplayed(b'), merged);
  }

  lemma BeginApplyKeepsFile(b: Boot, scope: ScopeId)
    requires BootInv(b) && b.file.Some? && CanBoot(b, Inner(BeginApply(scope)))
    ensures
      var b' := BootDo(b, Inner(BeginApply(scope)));
      b'.file.Some? ==>
        && b'.s.view.None? && b'.s.applying.None? && b'.s.serving && b'.s.db == b.s.db
        && b'.s.pending.Keys !! b'.file.value.buffered.Keys
        && Tracks(b'.file.value.copy, b'.file.value.orphans, b'.s.db, Unreplayed(b'))
  {
    hide Tracks, Inv;
    var b' := BootDo(b, Inner(BeginApply(scope)));
    var file, w := b.file.value, b.s.pending[scope];
    if b'.file.Some? {
      assert b'.s.pending == b.s.pending - {scope};
      forall v | v in Unreplayed(b) && v != w
        ensures v in Unreplayed(b')
      {
        if v in b.s.pending.Values {
          var k :| k in b.s.pending && b.s.pending[k] == v;
          assert b'.s.pending[k] == v;
        } else {
          var k :| k in file.buffered && file.buffered[k] == v;
          assert b'.file.value.buffered[k] == v;
        }
      }
      if w.Empty() {
        EmptyKeepsTracks(file.copy, file.orphans, b.s.db, Unreplayed(b), w, Unreplayed(b'));
      } else {
        assert b'.file.value.buffered[scope] == w;
        TracksMore(file.copy, file.orphans, b.s.db, Unreplayed(b), Unreplayed(b'));
      }
    }
  }

  /** The buffered writes become ordinary pending ones, which cover the file in its
      place, and every load that may still be adopted as before. */
  lemma AdoptFileKeepsInv(b: Boot)
    requires BootInv(b) && CanBoot(b, AdoptFile)
    ensures BootInv(BootDo(b, AdoptFile))
  {
    hide Tracks;
    var s, file := b.s, b.file.value;
    var s' := BootDo(b, AdoptFile).s;
    forall v | v in Unreplayed(b)
      ensures v in s'.pending.Values
    {
      if v in s.pending.Values {
        var k :| k in s.pending && s.pending[k] == v;
        assert s'.pending[k] == v;
      } else {
        var k :| k in file.buffered && file.buffered[k] == v;
        assert s'.pending[k] == v;
      }
    }
    assert s'.Outstanding() == s'.pending.Values;
    TracksMore(file.copy, file.orphans, s.db, Unreplayed(b), s'.Outstanding());
    forall l | l in s'.loads
      ensures LoadSound(s', l)
    {
      assert LoadSound(s, l);
      if s.loads[l].Loaded? && s.loads[l].epoch == s.epoch {
        TracksMore(s.loads[l].copy, s.loads[l].orphans, s.db, s.pending.Values, s'.pending.Values);
      }
    }
  }

  lemma BootStepKeepsInv(b: Boot, step: BootStep)
    requires BootInv(b) && CanBoot(b, step)
    ensures BootInv(BootDo(b, step))
  {
    hide Tracks, Inv;
    match step
    case AdoptFile => AdoptFileKeepsInv(b);
    case Inner(inner) =>
      StepKeepsInv(b.s, inner);
      if b.file.Some? {
        if inner.Commit? {
          CommitKeepsFile(b, inner.scope, inner.changes, inner.after);
        } else if inner.BeginApply? {
          BeginApplyKeepsFile(b, inner.scope);
        }
      }
  }

  ghost predicate BootRun(b: Boot, steps: seq<BootStep>, c: Boot)
    decreases |steps|
  {
    if steps == [] then b == c
    else CanBoot(b, steps[0]) && BootRun(BootDo(b, steps[0]), steps[1..], c)
  }

  lemma {:induction false} BootRunKeepsInv(b: Boot, steps: seq<BootStep>, c: Boot)
    requires BootInv(b) && BootRun(b, steps, c)
    ensures BootInv(c)
    decreases |steps|
  {
    if steps != [] {
      BootStepKeepsInv(b, steps[0]);
      BootRunKeepsInv(BootDo(b, steps[0]), steps[1..], c);
    }
  }

  /** Replica agreement with a boot from the file in it: once everything is applied
      or replayed, a serving view shows exactly PostgreSQL's graph, up to orphans. */
  lemma BootedReplicaAgreement(b: Boot, steps: seq<BootStep>, c: Boot)
    requires BootInit(b) && BootRun(b, steps, c) && c.s.Serves() && c.s.Settled()
    ensures c.s.view.value.Visible() == c.s.db.graph.Visible() <==> c.s.orphans == {}
  {
    BootBegins(b);
    BootRunKeepsInv(b, steps, c);
    SettledAgreement(c.s);
  }
}
