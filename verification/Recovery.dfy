/** The fallback machine, step by atomic step: callers that enter fallback race
    with the one loop that may rebuild, adopt, clear its flag and recheck. */
module Recovery {
  import opened Engines

  type ThreadId = nat

  /** Where a goroutine stands. From AtTop to Adopted it is a rebuild loop and
      must hold the rebuild flag; Claiming is a caller of startFallbackRebuild
      just before its compare-and-swap. */
  datatype Pc =
    | Claiming
    | AtTop
    | Loading(epoch: nat)
    | LoadPanicked
    | ReclaimingOwn
    | Adopted
    | Rechecking
  {
    predicate Loops() {
      !Claiming? && !Rechecking?
    }
  }

  datatype State = State(enabled: bool, serving: bool, epoch: nat, rebuilding: bool, threads: map<ThreadId, Pc>)

  datatype Step =
    | ApplyPasses
    | ApplyTrips(thread: ThreadId)
    | Distrust(thread: ThreadId)
    | AskRebuild(thread: ThreadId)
    | Claim(thread: ThreadId)
    | BeginLoad(thread: ThreadId)
    | FailLoad(thread: ThreadId)
    | PanicLoad(thread: ThreadId)
    | EnterAfterPanic(thread: ThreadId)
    | ReclaimOwn(thread: ThreadId, second: ThreadId)
    | EndLoad(thread: ThreadId)
    | Clear(thread: ThreadId)
    | Recheck(thread: ThreadId, settledGen: nat, resolvedGen: nat, launch: bool)
    | AdoptOutside

  predicate At(s: State, t: ThreadId, pc: Pc) {
    t in s.threads && s.threads[t] == pc
  }

  predicate CanDo(s: State, step: Step) {
    match step
    case ApplyPasses => true
    case ApplyTrips(t) => t !in s.threads
    case Distrust(t) => t !in s.threads
    case AskRebuild(t) => t !in s.threads
    case Claim(t) => At(s, t, Claiming)
    case BeginLoad(t) => At(s, t, AtTop)
    case FailLoad(t) => t in s.threads && s.threads[t].Loading?
    case PanicLoad(t) => t in s.threads && s.threads[t].Loading?
    case EnterAfterPanic(t) => At(s, t, LoadPanicked)
    case ReclaimOwn(t, second) => At(s, t, ReclaimingOwn) && second != t
    case EndLoad(t) => t in s.threads && s.threads[t].Loading?
    case Clear(t) => At(s, t, Adopted)
    case Recheck(t, _, _, _) => At(s, t, Rechecking)
    case AdoptOutside => true
  }

  function Move(s: State, t: ThreadId, pc: Pc): State {
    s.(threads := s.threads[t := pc])
  }

  function Exit(s: State, t: ThreadId): State {
    s.(threads := s.threads - {t})
  }

  function Do(s: State, step: Step): State
    requires CanDo(s, step)
  {
    match step
    // An Apply moves the epoch; one that gives up enters fallback as well.
    case ApplyPasses => s.(epoch := s.epoch + 1)
    case ApplyTrips(t) => Move(s, t, Claiming).(epoch := s.epoch + 1, serving := false)
    // A panic of other background work enters fallback without an Apply.
    case Distrust(t) => Move(s, t, Claiming).(serving := false)
    // An Apply that finds fallback already entered, boot, or a trust launch.
    case AskRebuild(t) => Move(s, t, Claiming)
    case Claim(t) =>
      if s.enabled && !s.rebuilding then Move(s, t, AtTop).(rebuilding := true) else Exit(s, t)
    case BeginLoad(t) => Move(s, t, Loading(s.epoch))
    case FailLoad(t) => Move(s, t, AtTop)
    case PanicLoad(t) => Move(s, t, LoadPanicked)
    case EnterAfterPanic(t) => Move(s, t, ReclaimingOwn).(serving := false)
    // A loop's own enterFallback tries to claim too; winning would start a second loop.
    case ReclaimOwn(t, second) =>
      if s.enabled && !s.rebuilding then Move(Move(s, t, AtTop), second, AtTop).(rebuilding := true) else Move(s, t, AtTop)
    case EndLoad(t) =>
      if s.threads[t].epoch == s.epoch then Move(s, t, Adopted).(serving := true) else Move(s, t, AtTop)
    case Clear(t) => Move(s, t, Rechecking).(rebuilding := false)
    case Recheck(t, settledGen, resolvedGen, launch) =>
      (match RelaunchAfterAdoption(s.serving, settledGen, resolvedGen)
       case RelaunchNone => Exit(s, t)
       case RelaunchRecovery => Move(s, t, Claiming)
       case RelaunchTrust => if launch then Move(s, t, Claiming) else Exit(s, t))
    // A rebuild asked for by hand adopts without ever holding the flag.
    case AdoptOutside => s.(serving := true)
  }

  /** The flag is held exactly while one loop runs, and an engine in fallback has
      a loop, a caller about to claim, or a loop about to recheck. */
  ghost predicate Inv(s: State) {
    && (s.rebuilding <==> exists t | t in s.threads :: s.threads[t].Loops())
    && (forall t, u | t in s.threads && u in s.threads && s.threads[t].Loops() && s.threads[u].Loops() :: t == u)
    && (s.enabled && !s.serving ==> s.threads != map[])
    && (!s.enabled ==> !s.rebuilding)
  }

  ghost predicate Init(s: State) {
    s.serving && !s.rebuilding && s.threads == map[]
  }

  /** A goroutine that was a loop and still is, or was none and still is none,
      changes nothing about who holds the flag. */
  lemma MoveKeepsInv(s: State, t: ThreadId, pc: Pc, serving: bool, epoch: nat)
    requires Inv(s) && pc.Loops() == (t in s.threads && s.threads[t].Loops())
    ensures Inv(Move(s, t, pc).(serving := serving, epoch := epoch))
  {
    var s' := Move(s, t, pc).(serving := serving, epoch := epoch);
    assert t in s'.threads;
    if s.rebuilding {
      var u :| u in s.threads && s.threads[u].Loops();
      assert u in s'.threads && s'.threads[u].Loops();
    }
  }

  /** A goroutine that is no loop may exit when the engine serves, or when some
      loop holds the flag. */
  lemma ExitKeepsInv(s: State, t: ThreadId)
    requires Inv(s) && t in s.threads && !s.threads[t].Loops()
    requires !s.enabled || s.serving || s.rebuilding
    ensures Inv(Exit(s, t))
  {
    if s.rebuilding {
      var u :| u in s.threads && s.threads[u].Loops();
      assert u in Exit(s, t).threads;
    }
  }

  lemma StepKeepsInv(s: State, step: Step)
    requires Inv(s) && CanDo(s, step)
    ensures Inv(Do(s, step))
  {
    match step
    case ApplyPasses =>
    case ApplyTrips(t) => MoveKeepsInv(s, t, Claiming, false, s.epoch + 1);
    case Distrust(t) => MoveKeepsInv(s, t, Claiming, false, s.epoch);
    case AskRebuild(t) => MoveKeepsInv(s, t, Claiming, s.serving, s.epoch);
    case Claim(t) =>
      if s.enabled && !s.rebuilding {
        assert t in Do(s, step).threads;
      } else {
        ExitKeepsInv(s, t);
      }
    case BeginLoad(t) => MoveKeepsInv(s, t, Loading(s.epoch), s.serving, s.epoch);
    case FailLoad(t) => MoveKeepsInv(s, t, AtTop, s.serving, s.epoch);
    case PanicLoad(t) => MoveKeepsInv(s, t, LoadPanicked, s.serving, s.epoch);
    case EnterAfterPanic(t) => MoveKeepsInv(s, t, ReclaimingOwn, false, s.epoch);
    case ReclaimOwn(t, second) => MoveKeepsInv(s, t, AtTop, s.serving, s.epoch);
    case EndLoad(t) =>
      MoveKeepsInv(s, t, Adopted, true, s.epoch);
      MoveKeepsInv(s, t, AtTop, s.serving, s.epoch);
    case Clear(t) => assert t in Do(s, step).threads;
    case Recheck(t, settledGen, resolvedGen, launch) =>
      MoveKeepsInv(s, t, Claiming, s.serving, s.epoch);
      if s.serving {
        ExitKeepsInv(s, t);
      }
    case AdoptOutside =>
  }

  ghost predicate Run(s: State, steps: seq<Step>, t: State)
    decreases |steps|
  {
    if steps == [] then s == t else CanDo(s, steps[0]) && Run(Do(s, steps[0]), steps[1..], t)
  }

  lemma {:induction false} RunKeepsInv(s: State, steps: seq<Step>, t: State)
    requires Inv(s) && Run(s, steps, t)
    ensures Inv(t)
    decreases |steps|
  {
    if steps != [] {
      StepKeepsInv(s, steps[0]);
      RunKeepsInv(Do(s, steps[0]), steps[1..], t);
    }
  }

  /** At most one loop ever runs, and a loop that enters fallback for its own
      panic never starts a second one. */
  lemma OneLoopAtMost(s: State, steps: seq<Step>, t: State, a: ThreadId, b: ThreadId)
    requires Init(s) && Run(s, steps, t)
    requires a in t.threads && b in t.threads && t.threads[a].Loops() && t.threads[b].Loops()
    ensures a == b && t.rebuilding && t.enabled
  {
    RunKeepsInv(s, steps, t);
  }

  // ---- Recovery is always within reach --------------------------------------

  /** How many of its own steps a goroutine is away from adopting a rebuild. */
  function Distance(pc: Pc, epoch: nat): nat {
    match pc
    case Loading(began) => if began == epoch then 1 else 3
    case AtTop => 2
    case ReclaimingOwn => 3
    case LoadPanicked => 4
    case Claiming => 3
    case Rechecking => 4
    case Adopted => 5
  }

  /** What a goroutine does next while nothing goes wrong. */
  function Onward(t: ThreadId, pc: Pc): Step {
    match pc
    case Claiming => Claim(t)
    case AtTop => BeginLoad(t)
    case Loading(_) => EndLoad(t)
    case LoadPanicked => EnterAfterPanic(t)
    case ReclaimingOwn => ReclaimOwn(t, t + 1)
    case Adopted => Clear(t)
    case Rechecking => Recheck(t, 0, 0, false)
  }

  /** Goroutine `t` alone brings the engine back to serving, in at most the given
      number of steps. */
  ghost predicate Recovers(s: State, t: ThreadId, within: nat)
    decreases within
  {
    s.serving ||
    (&& within > 0 && t in s.threads
     && CanDo(s, Onward(t, s.threads[t]))
     && Recovers(Do(s, Onward(t, s.threads[t])), t, within - 1))
  }

  lemma {:induction false} GoroutineRecovers(s: State, t: ThreadId)
    requires Inv(s) && s.enabled && !s.serving && t in s.threads && (s.rebuilding ==> s.threads[t].Loops())
    ensures Recovers(s, t, Distance(s.threads[t], s.epoch))
    decreases Distance(s.threads[t], s.epoch)
  {
    var step := Onward(t, s.threads[t]);
    StepKeepsInv(s, step);
    if !Do(s, step).serving {
      GoroutineRecovers(Do(s, step), t);
      RecoversWithin(Do(s, step), t, Distance(Do(s, step).threads[t], s.epoch), Distance(s.threads[t], s.epoch) - 1);
    }
  }

  lemma {:induction false} RecoversWithin(s: State, t: ThreadId, within: nat, longer: nat)
    requires Recovers(s, t, within) && within <= longer
    ensures Recovers(s, t, longer)
    decreases within
  {
    if !s.serving {
      RecoversWithin(Do(s, Onward(t, s.threads[t])), t, within - 1, longer - 1);
    }
  }

  /** Recovery is never stranded: after any run, an enabled engine in fallback has
      a goroutine that gets it serving again in five steps of its own. */
  lemma NeverStranded(s: State, steps: seq<Step>, t: State) returns (thread: ThreadId)
    requires Init(s) && Run(s, steps, t) && t.enabled && !t.serving
    ensures thread in t.threads && (t.rebuilding ==> t.threads[thread].Loops())
    ensures Recovers(t, thread, 5)
  {
    RunKeepsInv(s, steps, t);
    if t.rebuilding {
      thread :| thread in t.threads && t.threads[thread].Loops();
    } else {
      thread :| thread in t.threads;
    }
    GoroutineRecovers(t, thread);
    RecoversWithin(t, thread, Distance(t.threads[thread], t.epoch), 5);
  }
}
