/** Hot reload of the agent runtime. */
module RuntimeReload {
  // Turns under a read lock, Apply and Shutdown handing runtimes over, as interleaved atomic steps of any
  // number of threads.

  import opened Counting
  import opened Wrappers

  type Rt = nat  // a runtime the factory built, by number

  // Where a thread stands. Turn: Pipeline.handle or RunTurn; Apply: Gateway.Apply with Pipeline.Reload;
  // Shut: Gateway.Shutdown with TakeRuntimeForShutdown.
  datatype Thread =
    | TurnWaiting
    | TurnHolding(rt: Option<Rt>)   // read lock held, p.rt read
    | TurnCalling(rt: Option<Rt>)   // inside a call on that runtime
    | ApplyWaiting
    | ApplyReady                    // applyMu held
    | ApplyBuilt(mine: Rt)          // the factory returned
    | ApplyFailed(mine: Rt)         // the channels failed
    | ApplyLocking(mine: Rt)
    | ApplyWriting(mine: Rt)        // write lock held
    | ApplySwapped(prev: Option<Rt>) // write lock held
    | ApplyUnlocked(prev: Option<Rt>)
    | ApplyClosing                  // nothing owned, applyMu still held
    | ShutLocking
    | ShutWriting                   // write lock held
    | ShutTaken(prev: Option<Rt>)    // write lock held
    | ShutUnlocked(prev: Option<Rt>)

  datatype State = State(
    threads: map<nat, Thread>,
    installed: Option<Rt>,       // p.rt
    writer: Option<nat>,         // holder of the write lock
    applying: Option<nat>,       // holder of applyMu
    built: nat,                  // runtimes built so far: 0 .. built - 1
    closed: multiset<Rt>)        // every Close call

  datatype Step =
    | Spawn(t: nat, thread: Thread)
    | ReadLock(t: nat)
    | Call(t: nat)
    | CallReturns(t: nat)
    | ReadUnlock(t: nat)
    | TakeApplyMu(t: nat)
    | AbortApply(t: nat)          // a failure before the factory has built anything
    | Build(t: nat)
    | ChannelsFail(t: nat)
    | CloseMine(t: nat)
    | ChannelsOk(t: nat)
    | WriteLock(t: nat)
    | Swap(t: nat)
    | WriteUnlock(t: nat)
    | CloseOld(t: nat)
    | DropApplyMu(t: nat)

  predicate Reading(th: Thread) {
    th.TurnHolding? || th.TurnCalling?
  }

  predicate Writing(th: Thread) {
    th.ApplyWriting? || th.ApplySwapped? || th.ShutWriting? || th.ShutTaken?
  }

  predicate HoldsApplyMu(th: Thread) {
    || th.ApplyReady? || th.ApplyBuilt? || th.ApplyFailed? || th.ApplyLocking? || th.ApplyWriting?
    || th.ApplySwapped? || th.ApplyUnlocked? || th.ApplyClosing?
  }

  /** The runtime an Apply or Shutdown step holds and must install or close. */
  predicate Owns(th: Thread, r: Rt) {
    match th
    case ApplyBuilt(mine) => mine == r
    case ApplyFailed(mine) => mine == r
    case ApplyLocking(mine) => mine == r
    case ApplyWriting(mine) => mine == r
    case ApplySwapped(prev) => prev == Some(r)
    case ApplyUnlocked(prev) => prev == Some(r)
    case ShutTaken(prev) => prev == Some(r)
    case ShutUnlocked(prev) => prev == Some(r)
    case _ => false
  }

  ghost predicate LockFree(s: State) {
    s.writer.None? && forall t :: t in s.threads ==> !Reading(s.threads[t])
  }

  ghost predicate Enabled(s: State, step: Step) {
    if step.Spawn? then
      step.t !in s.threads && (step.thread.TurnWaiting? || step.thread.ApplyWaiting? || step.thread.ShutLocking?)
    else
      step.t in s.threads &&
      var th := s.threads[step.t];
      match step
      case ReadLock(_) => th.TurnWaiting? && s.writer.None?
      case Call(_) => th.TurnHolding?
      case CallReturns(_) => th.TurnCalling?
      case ReadUnlock(_) => th.TurnHolding?
      case TakeApplyMu(_) => th.ApplyWaiting? && s.applying.None?
      case AbortApply(_) => th.ApplyReady?
      case Build(_) => th.ApplyReady?
      case ChannelsFail(_) => th.ApplyBuilt?
      case CloseMine(_) => th.ApplyFailed?
      case ChannelsOk(_) => th.ApplyBuilt?
      case WriteLock(_) => (th.ApplyLocking? || th.ShutLocking?) && LockFree(s)
      case Swap(_) => th.ApplyWriting? || th.ShutWriting?
      case WriteUnlock(_) => th.ApplySwapped? || th.ShutTaken?
      case CloseOld(_) => th.ApplyUnlocked? || th.ShutUnlocked?
      case DropApplyMu(_) => th.ApplyClosing?
  }

  function Ended(m: map<nat, Thread>, t: nat): (r: map<nat, Thread>)
    ensures r.Keys == m.Keys - {t}
    ensures forall u :: u in r ==> r[u] == m[u]
  {
    map u | u in m && u != t :: m[u]
  }

  function Closed(closed: multiset<Rt>, prev: Option<Rt>): multiset<Rt> {
    match prev
    case None => closed
    case Some(r) => closed + multiset{r}
  }

  ghost function Apply(s: State, step: Step): State
    requires Enabled(s, step)
  {
    var t := step.t;
    match step
    case Spawn(_, thread) => s.(threads := s.threads[t := thread])
    case ReadLock(_) => s.(threads := s.threads[t := TurnHolding(s.installed)])
    case Call(_) => s.(threads := s.threads[t := TurnCalling(s.threads[t].rt)])
    case CallReturns(_) => s.(threads := s.threads[t := TurnHolding(s.threads[t].rt)])
    case ReadUnlock(_) => s.(threads := Ended(s.threads, t))
    case TakeApplyMu(_) => s.(threads := s.threads[t := ApplyReady], applying := Some(t))
    case AbortApply(_) => s.(threads := s.threads[t := ApplyClosing])
    case Build(_) => s.(threads := s.threads[t := ApplyBuilt(s.built)], built := s.built + 1)
    case ChannelsFail(_) => s.(threads := s.threads[t := ApplyFailed(s.threads[t].mine)])
    case CloseMine(_) => s.(threads := s.threads[t := ApplyClosing], closed := s.closed + multiset{s.threads[t].mine})
    case ChannelsOk(_) => s.(threads := s.threads[t := ApplyLocking(s.threads[t].mine)])
    case WriteLock(_) =>
      s.(threads := s.threads[t := if s.threads[t].ApplyLocking? then ApplyWriting(s.threads[t].mine) else ShutWriting],
         writer := Some(t))
    case Swap(_) =>
      if s.threads[t].ApplyWriting? then
        s.(threads := s.threads[t := ApplySwapped(s.installed)], installed := Some(s.threads[t].mine))
      else
        s.(threads := s.threads[t := ShutTaken(s.installed)], installed := None)
    case WriteUnlock(_) =>
      s.(threads := s.threads[t := if s.threads[t].ApplySwapped? then ApplyUnlocked(s.threads[t].prev)
                                   else ShutUnlocked(s.threads[t].prev)],
         writer := None)
    case CloseOld(_) =>
      var closed := Closed(s.closed, s.threads[t].prev);
      if s.threads[t].ApplyUnlocked? then s.(threads := s.threads[t := ApplyClosing], closed := closed)
      else s.(threads := Ended(s.threads, t), closed := closed)
    case DropApplyMu(_) => s.(threads := Ended(s.threads, t), applying := None)
  }

  // ----- the locks -----

  /** The write lock excludes readers and other writers. */
  ghost predicate WriteLockOk(s: State) {
    && (forall t :: t in s.threads ==> (Writing(s.threads[t]) <==> s.writer == Some(t)))
    && (s.writer.Some? ==> forall t :: t in s.threads ==> !Reading(s.threads[t]))
  }

  /** One Apply at a time. */
  ghost predicate ApplyMuOk(s: State) {
    forall t :: t in s.threads ==> (HoldsApplyMu(s.threads[t]) <==> s.applying == Some(t))
  }

  /** While a turn holds the read lock, its runtime is the installed one. */
  ghost predicate TurnsCurrent(s: State) {
    forall t :: t in s.threads && Reading(s.threads[t]) ==> s.threads[t].rt == s.installed
  }

  /** No lock outlives the thread that holds it. */
  ghost predicate HoldersAlive(s: State) {
    && (s.writer.Some? ==> s.writer.value in s.threads)
    && (s.applying.Some? ==> s.applying.value in s.threads)
  }

  ghost predicate LocksOk(s: State) {
    WriteLockOk(s) && ApplyMuOk(s) && TurnsCurrent(s) && HoldersAlive(s)
  }

  lemma WriterMoves(s: State, step: Step)
    requires WriteLockOk(s) && HoldersAlive(s) && Enabled(s, step) && (step.WriteLock? || step.WriteUnlock?)
    ensures WriteLockOk(Apply(s, step))
  {
    hide HoldsApplyMu, Owns;
  }

  lemma WriterStays(s: State, step: Step)
    requires WriteLockOk(s) && HoldersAlive(s) && Enabled(s, step) && !step.WriteLock? && !step.WriteUnlock?
    ensures WriteLockOk(Apply(s, step))
  {
    hide HoldsApplyMu, Owns, Closed;
  }

  lemma WriteLockStep(s: State, step: Step)
    requires WriteLockOk(s) && HoldersAlive(s) && Enabled(s, step)
    ensures WriteLockOk(Apply(s, step))
  {
    hide WriteLockOk, HoldersAlive, Apply;
    if step.WriteLock? || step.WriteUnlock? {
      WriterMoves(s, step);
    } else {
      WriterStays(s, step);
    }
  }

  lemma ApplyMuStep(s: State, step: Step)
    requires ApplyMuOk(s) && HoldersAlive(s) && Enabled(s, step)
    ensures ApplyMuOk(Apply(s, step))
  {
  }

  lemma HoldersAliveStep(s: State, step: Step)
    requires WriteLockOk(s) && ApplyMuOk(s) && HoldersAlive(s) && Enabled(s, step)
    ensures HoldersAlive(Apply(s, step))
  {
  }

  lemma TurnsCurrentStep(s: State, step: Step)
    requires WriteLockOk(s) && TurnsCurrent(s) && Enabled(s, step)
    ensures TurnsCurrent(Apply(s, step))
  {
  }

  lemma LocksStep(s: State, step: Step)
    requires LocksOk(s) && Enabled(s, step)
    ensures LocksOk(Apply(s, step))
  {
    WriteLockStep(s, step);
    ApplyMuStep(s, step);
    HoldersAliveStep(s, step);
    TurnsCurrentStep(s, step);
  }

  // ----- ownership -----

  ghost function Owners(s: State, r: Rt): set<nat> {
    set t | t in s.threads && Owns(s.threads[t], r)
  }

  /** In how many places a runtime is: installed, held by an Apply or Shutdown step, or closed (per call). */
  ghost function Places(s: State, r: Rt): nat {
    One(s.installed == Some(r)) + |Owners(s, r)| + s.closed[r]
  }

  ghost predicate OwnedOnce(s: State) {
    forall r: Rt :: Places(s, r) == One(r < s.built)
  }

  /** A step changes the phase of one thread only. */
  lemma OwnersStep(s: State, step: Step, r: Rt)
    requires Enabled(s, step)
    ensures var t, s' := step.t, Apply(s, step);
            Owners(s', r) == (Owners(s, r) - {t}) + if t in s'.threads && Owns(s'.threads[t], r) then {t} else {}
    ensures step.t in Owners(s, r) <==> step.t in s.threads && Owns(s.threads[step.t], r)
  {
  }

  lemma OwnersCount(s: State, step: Step, r: Rt)
    requires Enabled(s, step)
    ensures var t, s' := step.t, Apply(s, step);
            |Owners(s', r)| + One(t in s.threads && Owns(s.threads[t], r))
            == |Owners(s, r)| + One(t in s'.threads && Owns(s'.threads[t], r))
  {
    OwnersStep(s, step, r);
    hide Owners, Apply, Owns, Enabled;
    var t, s' := step.t, Apply(s, step);
    SizeWith(Owners(s, r), t, t in s'.threads && Owns(s'.threads[t], r));
  }

  /** In how many places the step's own thread and the rest of the state have a runtime. */
  ghost function Held(s: State, t: nat, r: Rt): nat {
    One(s.installed == Some(r)) + One(t in s.threads && Owns(s.threads[t], r)) + s.closed[r]
  }

  /** A swap trades the installed runtime for the thread's own. */
  lemma SwapTrades(s: State, step: Step, r: Rt)
    requires Enabled(s, step) && step.Swap?
    ensures Held(Apply(s, step), step.t, r) == Held(s, step.t, r)
  {
    hide Reading, Writing, HoldsApplyMu, LockFree, Closed;
  }

  /** A close moves the thread's runtime, if it has one, to the closed ones. */
  lemma CloseMoves(s: State, step: Step, r: Rt)
    requires Enabled(s, step) && (step.CloseOld? || step.CloseMine?)
    ensures Held(Apply(s, step), step.t, r) == Held(s, step.t, r)
  {
    hide Reading, Writing, HoldsApplyMu, LockFree;
  }

  /** Every other step only changes the phase of a thread, and a build adds the runtime it returns. */
  lemma PhaseOnly(s: State, step: Step, r: Rt)
    requires Enabled(s, step) && !step.Swap? && !step.CloseOld? && !step.CloseMine?
    ensures Held(Apply(s, step), step.t, r) == Held(s, step.t, r) + One(step.Build? && r == s.built)
  {
    hide Reading, Writing, HoldsApplyMu, LockFree, Closed;
  }

  /** What the moving thread gives up, it installs, takes out, or closes; only the factory adds a place. */
  lemma HandOver(s: State, step: Step, r: Rt)
    requires Enabled(s, step)
    ensures Held(Apply(s, step), step.t, r) == Held(s, step.t, r) + One(step.Build? && r == s.built)
  {
    hide Apply, Held;
    if step.Swap? {
      SwapTrades(s, step, r);
    } else if step.CloseOld? || step.CloseMine? {
      CloseMoves(s, step, r);
    } else {
      PhaseOnly(s, step, r);
    }
  }

  lemma PlacesStep(s: State, step: Step, r: Rt)
    requires OwnedOnce(s) && Enabled(s, step)
    ensures Places(Apply(s, step), r) == One(r < Apply(s, step).built)
  {
    assert Places(s, r) == One(r < s.built);
    OwnersCount(s, step, r);
    HandOver(s, step, r);
  }

  lemma OwnedOnceStep(s: State, step: Step)
    requires OwnedOnce(s) && Enabled(s, step)
    ensures OwnedOnce(Apply(s, step))
  {
    forall r: Rt
      ensures Places(Apply(s, step), r) == One(r < Apply(s, step).built)
    {
      PlacesStep(s, step, r);
    }
  }

  // ----- whole runs -----

  ghost predicate Init(s: State) {
    s == State(map[], None, None, None, 0, multiset{})
  }

  ghost predicate Run(s: State, steps: seq<Step>, s': State)
    decreases |steps|
  {
    if steps == [] then s' == s
    else Enabled(s, steps[0]) && Run(Apply(s, steps[0]), steps[1..], s')
  }

  lemma {:induction false} RunsKeep(s: State, steps: seq<Step>, s': State)
    requires LocksOk(s) && OwnedOnce(s) && Run(s, steps, s')
    ensures LocksOk(s') && OwnedOnce(s')
    decreases |steps|
  {
    if steps != [] {
      LocksStep(s, steps[0]);
      OwnedOnceStep(s, steps[0]);
      RunsKeep(Apply(s, steps[0]), steps[1..], s');
    }
  }

  /** Over every interleaving of turns, reloads, failed reloads and shutdowns: no turn is inside a call on
      a closed runtime, and none holds anything but the installed runtime. */
  lemma NoCallOnClosedRuntime(s: State, steps: seq<Step>, s': State, t: nat)
    requires Init(s) && Run(s, steps, s')
    requires t in s'.threads && Reading(s'.threads[t])
    ensures s'.threads[t].rt == s'.installed
    ensures s'.installed.Some? ==> s'.installed.value !in s'.closed
  {
    InitOk(s);
    RunsKeep(s, steps, s');
    if s'.installed.Some? {
      assert Places(s', s'.installed.value) <= 1;
    }
  }

  lemma InitOk(s: State)
    requires Init(s)
    ensures LocksOk(s) && OwnedOnce(s)
  {
    forall r: Rt
      ensures Places(s, r) == 0
    {
      assert Owners(s, r) == {};
    }
  }

  /** Every runtime ever built is in exactly one place: installed, held by one Apply or Shutdown, or closed
      by exactly one Close. So nothing is closed twice, and when no thread is left nothing has leaked. */
  lemma EveryRuntimeHasOneOwner(s: State, steps: seq<Step>, s': State, r: Rt)
    requires Init(s) && Run(s, steps, s')
    ensures r in s'.closed || s'.installed == Some(r) || Owners(s', r) != {} ==> r < s'.built
    ensures r < s'.built ==> One(s'.installed == Some(r)) + |Owners(s', r)| + s'.closed[r] == 1
    ensures s'.closed[r] <= 1
    ensures s'.threads == map[] && r < s'.built && s'.installed != Some(r) ==> s'.closed[r] == 1
  {
    InitOk(s);
    RunsKeep(s, steps, s');
    assert Places(s', r) == One(r < s'.built);
    if s'.threads == map[] {
      assert Owners(s', r) == {};
    }
  }

  /** The drain: the installed runtime changes only while no turn is between its read lock and unlock,
      and by one thread at a time. */
  lemma SwapIsExclusive(s: State, steps: seq<Step>, s': State, step: Step)
    requires Init(s) && Run(s, steps, s') && Enabled(s', step)
    requires Apply(s', step).installed != s'.installed
    ensures step.Swap? && s'.writer == Some(step.t)
    ensures forall t :: t in s'.threads ==> !Reading(s'.threads[t]) && (Writing(s'.threads[t]) ==> t == step.t)
  {
    InitOk(s);
    RunsKeep(s, steps, s');
  }

  ghost predicate NoShutdown(s: State) {
    forall t :: t in s.threads ==>
      && !s.threads[t].ShutLocking? && !s.threads[t].ShutWriting?
      && !s.threads[t].ShutTaken? && !s.threads[t].ShutUnlocked?
  }

  /** Until a shutdown starts, a turn that begins after the first successful Apply finds a runtime. */
  lemma {:induction false} RuntimeStaysUntilShutdown(s: State, steps: seq<Step>, s': State)
    requires Run(s, steps, s') && NoShutdown(s) && s.installed.Some?
    requires forall i :: 0 <= i < |steps| ==> !(steps[i].Spawn? && steps[i].thread.ShutLocking?)
    ensures NoShutdown(s') && s'.installed.Some?
    decreases |steps|
  {
    if steps != [] {
      var s1 := Apply(s, steps[0]);
      forall t | t in s1.threads
        ensures !s1.threads[t].ShutLocking? && !s1.threads[t].ShutWriting? && !s1.threads[t].ShutTaken?
                && !s1.threads[t].ShutUnlocked?
      {
        assert t != steps[0].t ==> t in s.threads && s1.threads[t] == s.threads[t];
      }
      RuntimeStaysUntilShutdown(s1, steps[1..], s');
    }
  }

  // ----- reloads and turns go through -----

  /** An Apply that has the write lock installs its own runtime and takes the old one to close; a Shutdown leaves
      none. */
  lemma SwapInstalls(s: State, step: Step)
    requires Enabled(s, step) && step.Swap?
    ensures var th, s' := s.threads[step.t], Apply(s, step);
            if th.ApplyWriting? then s'.installed == Some(th.mine) && s'.threads[step.t] == ApplySwapped(s.installed)
            else s'.installed == None && s'.threads[step.t] == ShutTaken(s.installed)
  {
  }

  lemma {:induction false} Extend(s: State, steps: seq<Step>, mid: State, step: Step)
    requires Run(s, steps, mid) && Enabled(mid, step)
    ensures Run(s, steps + [step], Apply(mid, step))
    decreases |steps|
  {
    hide Apply, Enabled;
    if steps == [] {
      assert [] + [step] == [step] && [step][1..] == [];
      assert Run(Apply(mid, step), [], Apply(mid, step));
    } else {
      Extend(Apply(s, steps[0]), steps[1..], mid, step);
      assert (steps + [step])[1..] == steps[1..] + [step];
    }
  }

  /** While no lock is taken a new turn gets to its call, on the runtime that is installed. */
  lemma TurnCanCall(s: State, t: nat) returns (steps: seq<Step>, s': State)
    requires t !in s.threads && s.writer.None?
    ensures Run(s, steps, s') && s'.threads == s.threads[t := TurnCalling(s.installed)]
    ensures s'.installed == s.installed && s'.closed == s.closed
  {
    hide LockFree;
    var s1 := Apply(s, Spawn(t, TurnWaiting));
    var s2 := Apply(s1, ReadLock(t));
    s' := Apply(s2, Call(t));
    Extend(s, [], s, Spawn(t, TurnWaiting));
    Extend(s, [] + [Spawn(t, TurnWaiting)], s1, ReadLock(t));
    Extend(s, [] + [Spawn(t, TurnWaiting)] + [ReadLock(t)], s2, Call(t));
    steps := [] + [Spawn(t, TurnWaiting)] + [ReadLock(t)] + [Call(t)];
  }

  /** While no lock is taken a new Apply can run through: a new runtime is installed, and the one it replaces closed
      once. */
  lemma ReloadCanInstall(s: State, t: nat) returns (steps: seq<Step>, s': State)
    requires t !in s.threads && s.applying.None? && LockFree(s)
    ensures Run(s, steps, s') && s'.threads == s.threads && s'.applying.None? && s'.writer.None?
    ensures s'.installed == Some(s.built) && s'.built == s.built + 1 && s'.closed == Closed(s.closed, s.installed)
  {
    var mid;
    steps, mid := ReloadCanLock(s, t);
    var s1 := Apply(mid, Swap(t));
    var s2 := Apply(s1, WriteUnlock(t));
    var s3 := Apply(s2, CloseOld(t));
    s' := Apply(s3, DropApplyMu(t));
    Extend(s, steps, mid, Swap(t));
    Extend(s, steps + [Swap(t)], s1, WriteUnlock(t));
    Extend(s, steps + [Swap(t)] + [WriteUnlock(t)], s2, CloseOld(t));
    Extend(s, steps + [Swap(t)] + [WriteUnlock(t)] + [CloseOld(t)], s3, DropApplyMu(t));
    steps := steps + [Swap(t)] + [WriteUnlock(t)] + [CloseOld(t)] + [DropApplyMu(t)];
    assert s'.threads == s.threads;
  }

  lemma ReloadCanLock(s: State, t: nat) returns (steps: seq<Step>, s': State)
    requires t !in s.threads && s.applying.None? && LockFree(s)
    ensures Run(s, steps, s') && s' == s.(threads := s.threads[t := ApplyWriting(s.built)], writer := Some(t),
                                          applying := Some(t), built := s.built + 1)
  {
    var s1 := Apply(s, Spawn(t, ApplyWaiting));
    var s2 := Apply(s1, TakeApplyMu(t));
    var s3 := Apply(s2, Build(t));
    var s4 := Apply(s3, ChannelsOk(t));
    s' := Apply(s4, WriteLock(t));
    Extend(s, [], s, Spawn(t, ApplyWaiting));
    var a := [] + [Spawn(t, ApplyWaiting)];
    Extend(s, a, s1, TakeApplyMu(t));
    Extend(s, a + [TakeApplyMu(t)], s2, Build(t));
    Extend(s, a + [TakeApplyMu(t)] + [Build(t)], s3, ChannelsOk(t));
    Extend(s, a + [TakeApplyMu(t)] + [Build(t)] + [ChannelsOk(t)], s4, WriteLock(t));
    steps := a + [TakeApplyMu(t)] + [Build(t)] + [ChannelsOk(t)] + [WriteLock(t)];
    assert s'.threads == s.threads[t := ApplyWriting(s.built)];
  }

  /** An Apply whose channels fail can still run through: what it built is closed once, and nothing else changes. */
  lemma FailedReloadCanClose(s: State, t: nat) returns (steps: seq<Step>, s': State)
    requires t !in s.threads && s.applying.None?
    ensures Run(s, steps, s') && s'.threads == s.threads && s'.applying.None? && s'.writer == s.writer
    ensures s'.installed == s.installed && s'.built == s.built + 1 && s'.closed == s.closed + multiset{s.built}
  {
    var s1 := Apply(s, Spawn(t, ApplyWaiting));
    var s2 := Apply(s1, TakeApplyMu(t));
    var s3 := Apply(s2, Build(t));
    var s4 := Apply(s3, ChannelsFail(t));
    var s5 := Apply(s4, CloseMine(t));
    s' := Apply(s5, DropApplyMu(t));
    Extend(s, [], s, Spawn(t, ApplyWaiting));
    var a := [] + [Spawn(t, ApplyWaiting)];
    Extend(s, a, s1, TakeApplyMu(t));
    Extend(s, a + [TakeApplyMu(t)], s2, Build(t));
    var b := a + [TakeApplyMu(t)] + [Build(t)];
    Extend(s, b, s3, ChannelsFail(t));
    Extend(s, b + [ChannelsFail(t)], s4, CloseMine(t));
    Extend(s, b + [ChannelsFail(t)] + [CloseMine(t)], s5, DropApplyMu(t));
    steps := b + [ChannelsFail(t)] + [CloseMine(t)] + [DropApplyMu(t)];
    assert s'.threads == s.threads;
  }

  /** A calling turn can return and give its read lock back. */
  lemma TurnCanEnd(s: State, t: nat) returns (steps: seq<Step>, s': State)
    requires t in s.threads && s.threads[t].TurnCalling?
    ensures Run(s, steps, s') && s' == s.(threads := Ended(s.threads, t))
  {
    var s1 := Apply(s, CallReturns(t));
    s' := Apply(s1, ReadUnlock(t));
    Extend(s, [], s, CallReturns(t));
    Extend(s, [] + [CallReturns(t)], s1, ReadUnlock(t));
    steps := [] + [CallReturns(t)] + [ReadUnlock(t)];
    assert s'.threads == Ended(s.threads, t);
  }

  /** While no lock is taken a Shutdown can run through: no runtime is left, and the one there was is closed once. */
  lemma ShutdownCanClose(s: State, t: nat) returns (steps: seq<Step>, s': State)
    requires t !in s.threads && LockFree(s)
    ensures Run(s, steps, s') && s'.threads == s.threads && s'.writer.None? && s'.built == s.built
    ensures s'.installed.None? && s'.closed == Closed(s.closed, s.installed)
  {
    var s1 := Apply(s, Spawn(t, ShutLocking));
    var s2 := Apply(s1, WriteLock(t));
    var s3 := Apply(s2, Swap(t));
    var s4 := Apply(s3, WriteUnlock(t));
    s' := Apply(s4, CloseOld(t));
    Extend(s, [], s, Spawn(t, ShutLocking));
    var a := [] + [Spawn(t, ShutLocking)];
    Extend(s, a, s1, WriteLock(t));
    Extend(s, a + [WriteLock(t)], s2, Swap(t));
    Extend(s, a + [WriteLock(t)] + [Swap(t)], s3, WriteUnlock(t));
    Extend(s, a + [WriteLock(t)] + [Swap(t)] + [WriteUnlock(t)], s4, CloseOld(t));
    steps := a + [WriteLock(t)] + [Swap(t)] + [WriteUnlock(t)] + [CloseOld(t)];
    assert s'.threads == s.threads;
  }
}
