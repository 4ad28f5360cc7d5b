/** The cron scheduler, step by step. */
module CronProtocol {
  // Locked sections, lane, turns, crashes and restarts are interleaved atomic steps. Every step's effect on
  // the job table is the function its method in CronService is proved against.

  import opened Counting
  import opened Wrappers
  import opened CronSchedules
  import opened CronService

  // A firing goroutine: before validation, holding a lane slot, inside RunTurn,
  // back from RunTurn, and after its write-back (delivering).
  datatype Phase = Spawned | Holding | Running | Returned(outcome: Status) | Written

  datatype Flight = Flight(job: Job, phase: Phase)

  datatype State = State(
    jobs: seq<Job>,
    store: seq<Job>,
    flights: map<nat, Flight>,
    max: nat,                   // maxConcurrent
    ticket: nat,                // number of the next goroutine
    slots: nat,                 // lane slots taken
    alive: bool,                // the context is not cancelled
    used: set<string>,          // ids ever given out
    turns: map<string, nat>,    // RunTurn calls per id
    lost: map<string, nat>)     // pre-fire saves that failed, per id in the batch

  datatype Step =
    | CheckFire(now: int, renamed: bool)
    | BadPayload(t: nat, message: string, now: int, renamed: bool)
    | Acquire(t: nat)
    | AcquireFail(t: nat)
    | StartTurn(t: nat)
    | EndTurn(t: nat, outcome: Status)
    | WriteBack(t: nat, doneMs: int, renamed: bool)
    | Release(t: nat)
    | Add(id: string, sch: Schedule, payloadOk: bool, now: int, renamed: bool)
    | Remove(id: string, renamed: bool)
    | Enable(id: string, on: bool, now: int, renamed: bool)
    | Cancel
    | Restart(readable: bool, now: int, renamed: bool)  // a crash or a stop, then Start

  function Tally(m: map<string, nat>, id: string): nat {
    if id in m then m[id] else 0
  }

  function Without(m: map<nat, Flight>, t: nat): (r: map<nat, Flight>)
    ensures r.Keys == m.Keys - {t}
    ensures forall u :: u in r ==> r[u] == m[u]
  {
    map u | u in m && u != t :: m[u]
  }

  /** One new goroutine per due copy, numbered from ticket. */
  function Launch(m: map<nat, Flight>, ticket: nat, due: seq<Job>): (r: map<nat, Flight>)
    ensures forall u :: u in r <==> u in m || ticket <= u < ticket + |due|
    ensures forall u :: ticket <= u < ticket + |due| ==> r[u] == Flight(due[u - ticket], Spawned)
    ensures forall u :: u in m && !(ticket <= u < ticket + |due|) ==> r[u] == m[u]
  {
    if due == [] then m
    else
      var last := |due| - 1;
      Launch(m, ticket, due[..last])[ticket + last := Flight(due[last], Spawned)]
  }

  function TallyLost(lost: map<string, nat>, due: seq<Job>): (r: map<string, nat>)
    ensures forall id :: Tally(r, id) == Tally(lost, id) + if exists j :: j in due && j.id == id then 1 else 0
  {
    map id | id in lost.Keys + (set j | j in due :: j.id)
      :: Tally(lost, id) + if exists j :: j in due && j.id == id then 1 else 0
  }

  predicate InPhase(s: State, t: nat, phase: Phase) {
    t in s.flights && s.flights[t].phase == phase
  }

  predicate Enabled(tick: Ticker, s: State, step: Step) {
    match step
    case CheckFire(now, _) => now > 0
    case BadPayload(t, _, now, _) => InPhase(s, t, Spawned) && !s.flights[t].job.payloadOk && now > 0
    case Acquire(t) => InPhase(s, t, Spawned) && s.flights[t].job.payloadOk && s.slots < s.max
    case AcquireFail(t) => InPhase(s, t, Spawned) && s.flights[t].job.payloadOk && !s.alive
    case StartTurn(t) => InPhase(s, t, Holding)
    case EndTurn(t, _) => InPhase(s, t, Running)
    case WriteBack(t, doneMs, _) => t in s.flights && s.flights[t].phase.Returned? && doneMs > 0
    case Release(t) => InPhase(s, t, Written)
    case Add(id, sch, _, now, _) => now > 0 && id !in s.used && Admissible(tick, sch, now)
    case Remove(_, _) => true
    case Enable(_, _, now, _) => now > 0
    case Cancel => true
    case Restart(_, now, _) => now > 0
  }

  // ----- what a step does to each part of the state -----

  function TableAfter(tick: Ticker, s: State, step: Step): seq<Job>
    requires Enabled(tick, s, step)
  {
    match step
    case CheckFire(now, _) => FireTable(s.jobs, now)
    case BadPayload(t, message, now, _) => RejectTable(tick, s.jobs, s.flights[t].job.id, message, now)
    case WriteBack(t, doneMs, _) =>
      WriteBackTable(tick, s.jobs, s.flights[t].job.id, s.flights[t].phase.outcome, doneMs)
    case Add(id, sch, payloadOk, now, _) => s.jobs + [NewJob(tick, id, sch, payloadOk, now)]
    case Remove(id, _) => RemoveAt(s.jobs, IndexOfId(s.jobs, id))
    case Enable(id, on, now, _) => EnableTable(tick, s.jobs, id, on, now)
    case Restart(readable, now, _) => EnsureTable(tick, if readable then s.store else [], now)
    case _ => s.jobs
  }

  /** Whether the step writes the table to the store. */
  predicate Saves(s: State, step: Step) {
    match step
    case CheckFire(_, renamed) => renamed
    case BadPayload(_, _, _, renamed) => renamed
    case WriteBack(_, _, renamed) => renamed
    case Add(_, _, _, _, renamed) => renamed
    case Remove(id, renamed) => renamed && IndexOfId(s.jobs, id) >= 0
    case Enable(id, _, _, renamed) => renamed && IndexOfId(s.jobs, id) >= 0
    case Restart(_, _, renamed) => renamed
    case _ => false
  }

  function Moved(m: map<nat, Flight>, t: nat, phase: Phase): map<nat, Flight>
    requires t in m
  {
    m[t := m[t].(phase := phase)]
  }

  function FlightsAfter(tick: Ticker, s: State, step: Step): map<nat, Flight>
    requires Enabled(tick, s, step)
  {
    match step
    case CheckFire(now, _) => Launch(s.flights, s.ticket, DueJobs(s.jobs, now))
    case BadPayload(t, _, _, _) => Without(s.flights, t)
    case Acquire(t) => Moved(s.flights, t, Holding)
    case AcquireFail(t) => Without(s.flights, t)
    case StartTurn(t) => Moved(s.flights, t, Running)
    case EndTurn(t, outcome) => Moved(s.flights, t, Returned(outcome))
    case WriteBack(t, _, _) => Moved(s.flights, t, Written)
    case Release(t) => Without(s.flights, t)
    case Restart(_, _, _) => map[]
    case _ => s.flights
  }

  function SlotsAfter(s: State, step: Step): nat {
    match step
    case Acquire(_) => s.slots + 1
    case Release(_) => if s.slots > 0 then s.slots - 1 else 0
    case Restart(_, _, _) => 0
    case _ => s.slots
  }

  function Apply(tick: Ticker, s: State, step: Step): State
    requires Enabled(tick, s, step)
  {
    var jobs := TableAfter(tick, s, step);
    State(
      jobs,
      if Saves(s, step) then Persisted(jobs) else s.store,
      FlightsAfter(tick, s, step),
      s.max,
      if step.CheckFire? then s.ticket + |DueJobs(s.jobs, step.now)| else s.ticket,
      SlotsAfter(s, step),
      (match step
       case Cancel => false
       case Restart(_, _, _) => true
       case _ => s.alive),
      if step.Add? then s.used + {step.id} else s.used,
      if step.StartTurn? then
        var id := s.flights[step.t].job.id;
        s.turns[id := Tally(s.turns, id) + 1]
      else s.turns,
      if step.CheckFire? && !step.renamed then TallyLost(s.lost, DueJobs(s.jobs, step.now)) else s.lost)
  }

  // ----- well-formed tables -----

  ghost predicate DistinctIds(jobs: seq<Job>) {
    forall i, j :: 0 <= i < j < |jobs| ==> jobs[i].id != jobs[j].id
  }

  ghost predicate RecordOk(tick: Ticker, used: set<string>, j: Job) {
    && j.id in used
    && j.lastRun >= 0
    && (Live(tick, j.schedule) ==> j.nextRun >= 0)
  }

  ghost predicate TableOk(tick: Ticker, used: set<string>, jobs: seq<Job>) {
    && DistinctIds(jobs)
    && forall i :: 0 <= i < |jobs| ==> RecordOk(tick, used, jobs[i])
  }

  lemma ScheduledOk(tick: Ticker, j: Job, fromMs: int)
    requires fromMs > 0 && Live(tick, j.schedule)
    ensures Scheduled(tick, j, fromMs).nextRun > 0
  {
    assert Fires(tick, j.schedule, fromMs);
  }

  /** Every function that rewrites one record leaves it well formed. */
  lemma RewriteOk(tick: Ticker, used: set<string>, j: Job, now: int, outcome: Status, message: string, on: bool)
    requires RecordOk(tick, used, j) && now > 0
    ensures RecordOk(tick, used, Fired(j, now))
    ensures RecordOk(tick, used, Ensured(tick, j, now))
    ensures RecordOk(tick, used, Recorded(tick, j, outcome, now))
    ensures RecordOk(tick, used, Scheduled(tick, j.(status := Failed(message)), now))
    ensures RecordOk(tick, used, Switched(tick, j, on, now))
    ensures RecordOk(tick, used, j.(schedule := Reloaded(j.schedule)))
  {
    if Live(tick, j.schedule) {
      ScheduledOk(tick, j, Origin(j, now));
      ScheduledOk(tick, j.(lastRun := now, status := outcome), now);
      ScheduledOk(tick, j.(status := Failed(message)), now);
      ScheduledOk(tick, j.(enabled := true), Origin(j, now));
    }
    if Live(tick, Reloaded(j.schedule)) {
      ReloadedLive(tick, j.schedule);
    }
  }

  lemma PersistedOk(tick: Ticker, used: set<string>, jobs: seq<Job>)
    requires TableOk(tick, used, jobs)
    ensures TableOk(tick, used, Persisted(jobs))
  {
    forall i | 0 <= i < |jobs|
      ensures RecordOk(tick, used, Persisted(jobs)[i])
    {
      RewriteOk(tick, used, jobs[i], 1, NoStatus, "", true);
    }
  }

  lemma RewrittenOk(tick: Ticker, used: set<string>, before: seq<Job>, after: seq<Job>)
    requires TableOk(tick, used, before) && |after| == |before|
    requires forall i :: 0 <= i < |after| ==> after[i].id == before[i].id && RecordOk(tick, used, after[i])
    ensures TableOk(tick, used, after)
  {
  }

  lemma UpdatedOk(tick: Ticker, used: set<string>, jobs: seq<Job>, idx: int, j: Job)
    requires TableOk(tick, used, jobs) && 0 <= idx < |jobs|
    requires j.id == jobs[idx].id && RecordOk(tick, used, j)
    ensures TableOk(tick, used, jobs[idx := j])
  {
    RewrittenOk(tick, used, jobs, jobs[idx := j]);
  }

  lemma RemovedOk(tick: Ticker, used: set<string>, jobs: seq<Job>, idx: int)
    requires TableOk(tick, used, jobs) && -1 <= idx < |jobs|
    ensures TableOk(tick, used, RemoveAt(jobs, idx))
  {
  }

  lemma FiredOk(tick: Ticker, used: set<string>, jobs: seq<Job>, now: int)
    requires TableOk(tick, used, jobs) && now > 0
    ensures TableOk(tick, used, FireTable(jobs, now))
    ensures TableOk(tick, used, EnsureTable(tick, jobs, now))
  {
    forall i | 0 <= i < |jobs|
      ensures RecordOk(tick, used, Fired(jobs[i], now)) && RecordOk(tick, used, Ensured(tick, jobs[i], now))
    {
      RewriteOk(tick, used, jobs[i], now, NoStatus, "", true);
    }
    RewrittenOk(tick, used, jobs, FireTable(jobs, now));
    RewrittenOk(tick, used, jobs, EnsureTable(tick, jobs, now));
  }

  lemma AddedOk(tick: Ticker, used: set<string>, jobs: seq<Job>, id: string, sch: Schedule, payloadOk: bool, now: int)
    requires TableOk(tick, used, jobs) && now > 0 && id !in used && Admissible(tick, sch, now)
    ensures TableOk(tick, used + {id}, jobs + [NewJob(tick, id, sch, payloadOk, now)])
  {
    var j := NewJob(tick, id, sch, payloadOk, now);
    assert Live(tick, sch) ==> Fires(tick, sch, now);
    assert RecordOk(tick, used + {id}, j);
    forall i | 0 <= i < |jobs|
      ensures RecordOk(tick, used + {id}, jobs[i]) && jobs[i].id != id
    {
      assert RecordOk(tick, used, jobs[i]);
    }
  }

  lemma TableStepOk(tick: Ticker, s: State, step: Step)
    requires Enabled(tick, s, step)
    requires TableOk(tick, s.used, s.jobs) && TableOk(tick, s.used, s.store)
    ensures TableOk(tick, if step.Add? then s.used + {step.id} else s.used, TableAfter(tick, s, step))
  {
    match step {
      case CheckFire(now, _) => FiredOk(tick, s.used, s.jobs, now);
      case BadPayload(t, message, now, _) =>
        var idx := IndexOfId(s.jobs, s.flights[t].job.id);
        if idx >= 0 {
          RewriteOk(tick, s.used, s.jobs[idx], now, NoStatus, message, true);
          UpdatedOk(tick, s.used, s.jobs, idx, Scheduled(tick, s.jobs[idx].(status := Failed(message)), now));
        }
      case WriteBack(t, doneMs, _) =>
        var idx := IndexOfId(s.jobs, s.flights[t].job.id);
        RemovedOk(tick, s.used, s.jobs, idx);
        if idx >= 0 {
          var outcome := s.flights[t].phase.outcome;
          RewriteOk(tick, s.used, s.jobs[idx], doneMs, outcome, "", true);
          UpdatedOk(tick, s.used, s.jobs, idx, Recorded(tick, s.jobs[idx], outcome, doneMs));
        }
      case Add(id, sch, payloadOk, now, _) => AddedOk(tick, s.used, s.jobs, id, sch, payloadOk, now);
      case Remove(id, _) => RemovedOk(tick, s.used, s.jobs, IndexOfId(s.jobs, id));
      case Enable(id, on, now, _) =>
        var idx := IndexOfId(s.jobs, id);
        if idx >= 0 {
          RewriteOk(tick, s.used, s.jobs[idx], now, NoStatus, "", on);
          UpdatedOk(tick, s.used, s.jobs, idx, Switched(tick, s.jobs[idx], on, now));
        }
      case Restart(readable, now, _) => FiredOk(tick, s.used, if readable then s.store else [], now);
      case _ =>
    }
  }

  // ----- the lane -----

  ghost function Holders(m: map<nat, Flight>): set<nat> {
    set t | t in m && m[t].phase != Spawned
  }

  ghost function RunningTurns(m: map<nat, Flight>): set<nat> {
    set t | t in m && m[t].phase.Running?
  }

  lemma HoldersOf(m: map<nat, Flight>, t: nat, phase: Phase)
    requires t in m && phase != Spawned
    ensures Holders(Moved(m, t, phase)) == Holders(m) + {t}
    ensures Holders(Without(m, t)) == Holders(m) - {t}
  {
  }

  lemma HoldersOfLaunch(m: map<nat, Flight>, ticket: nat, due: seq<Job>)
    requires forall t :: t in m ==> t < ticket
    ensures Holders(Launch(m, ticket, due)) == Holders(m)
  {
  }

  /** Only an acquire and a release change who holds a slot, and a restart forgets everybody. */
  lemma HoldersStep(tick: Ticker, s: State, step: Step)
    requires Enabled(tick, s, step) && forall t :: t in s.flights ==> t < s.ticket
    ensures var before, after := Holders(s.flights), Holders(FlightsAfter(tick, s, step));
            && (step.Acquire? ==> after == before + {step.t} && step.t !in before)
            && (step.Release? ==> after == before - {step.t} && step.t in before)
            && (step.Restart? ==> after == {})
            && (!step.Acquire? && !step.Release? && !step.Restart? ==> after == before)
  {
    hide Launch, DueJobs;
    var before, after := Holders(s.flights), Holders(FlightsAfter(tick, s, step));
    match step {
      case CheckFire(now, _) => HoldersOfLaunch(s.flights, s.ticket, DueJobs(s.jobs, now));
      case BadPayload(t, _, _, _) => HoldersOf(s.flights, t, Running); assert before - {t} == before;
      case Acquire(t) => HoldersOf(s.flights, t, Holding);
      case AcquireFail(t) => HoldersOf(s.flights, t, Running); assert before - {t} == before;
      case StartTurn(t) => HoldersOf(s.flights, t, Running); assert before + {t} == before;
      case EndTurn(t, outcome) => HoldersOf(s.flights, t, Returned(outcome)); assert before + {t} == before;
      case WriteBack(t, _, _) => HoldersOf(s.flights, t, Written); assert before + {t} == before;
      case Release(t) => HoldersOf(s.flights, t, Written);
      case Restart(_, _, _) => assert after == {};
      case _ =>
    }
  }

  lemma LaneStep(tick: Ticker, s: State, step: Step)
    requires Enabled(tick, s, step)
    requires forall t :: t in s.flights ==> t < s.ticket
    requires s.slots == |Holders(s.flights)| <= s.max
    ensures SlotsAfter(s, step) == |Holders(FlightsAfter(tick, s, step))| <= s.max
  {
    hide FlightsAfter, Holders;
    HoldersStep(tick, s, step);
  }

  // ----- the invariant of every run -----

  ghost predicate Inv(tick: Ticker, s: State) {
    && TableOk(tick, s.used, s.jobs)
    && TableOk(tick, s.used, s.store)
    && (forall t :: t in s.flights ==> t < s.ticket && s.flights[t].job.id in s.used)
    && (forall id :: id !in s.used ==> Tally(s.turns, id) == 0)
    && s.slots == |Holders(s.flights)| <= s.max
  }

  lemma InvStep(tick: Ticker, s: State, step: Step)
    requires Inv(tick, s) && Enabled(tick, s, step)
    ensures Inv(tick, Apply(tick, s, step))
  {
    var s' := Apply(tick, s, step);
    LaneStep(tick, s, step);
    TableStepOk(tick, s, step);
    PersistedOk(tick, s'.used, s'.jobs);
    StoreOk(tick, s.used, s'.used, s.store);
    IdsStep(tick, s, step);
  }

  lemma StoreOk(tick: Ticker, used: set<string>, used': set<string>, store: seq<Job>)
    requires TableOk(tick, used, store) && used <= used'
    ensures TableOk(tick, used', store)
  {
    forall i | 0 <= i < |store|
      ensures RecordOk(tick, used', store[i])
    {
      assert RecordOk(tick, used, store[i]);
    }
  }

  lemma IdsStep(tick: Ticker, s: State, step: Step)
    requires Inv(tick, s) && Enabled(tick, s, step)
    ensures var s' := Apply(tick, s, step);
            && (forall t :: t in s'.flights ==> t < s'.ticket && s'.flights[t].job.id in s'.used)
            && (forall id :: id !in s'.used ==> Tally(s'.turns, id) == 0)
  {
    if step.CheckFire? {
      var due := DueJobs(s.jobs, step.now);
      forall k | 0 <= k < |due|
        ensures due[k].id in s.used
      {
        var i := DueOrigin(s.jobs, step.now, due[k]);
        assert RecordOk(tick, s.used, s.jobs[i]);
      }
    }
  }

  // ----- where a record of the new table comes from -----

  /** The step that rewrites this record, if the table function does more than carry it over. */
  ghost predicate Carried(tick: Ticker, s: State, step: Step, k: Job, j: Job) {
    || j == k
    || (step.CheckFire? && j == Fired(k, step.now))
    || (step.BadPayload? && step.t in s.flights && s.flights[step.t].job.id == k.id
        && j == Scheduled(tick, k.(status := Failed(step.message)), step.now))
    || (step.WriteBack? && step.t in s.flights && s.flights[step.t].job.id == k.id && s.flights[step.t].phase.Returned?
        && j == Recorded(tick, k, s.flights[step.t].phase.outcome, step.doneMs))
    || (step.Enable? && step.id == k.id && j == Switched(tick, k, step.on, step.now))
    || (step.Restart? && j == Ensured(tick, k, step.now))
  }

  function Before(s: State, step: Step): seq<Job> {
    if step.Restart? then if step.readable then s.store else [] else s.jobs
  }

  lemma RemovedOrigin(jobs: seq<Job>, idx: int, i: int) returns (k: int)
    requires -1 <= idx < |jobs| && 0 <= i < |RemoveAt(jobs, idx)|
    ensures 0 <= k < |jobs| && RemoveAt(jobs, idx)[i] == jobs[k]
  {
    k := if idx >= 0 && i >= idx then i + 1 else i;
  }

  lemma WriteBackOrigin(tick: Ticker, jobs: seq<Job>, id: string, outcome: Status, doneMs: int, i: int) returns (k: int)
    requires 0 <= i < |WriteBackTable(tick, jobs, id, outcome, doneMs)|
    ensures 0 <= k < |jobs|
    ensures var j := WriteBackTable(tick, jobs, id, outcome, doneMs)[i];
            j == jobs[k] || (jobs[k].id == id && j == Recorded(tick, jobs[k], outcome, doneMs))
  {
    var idx := IndexOfId(jobs, id);
    if idx >= 0 && jobs[idx].deleteAfterRun {
      k := RemovedOrigin(jobs, idx, i);
    } else {
      k := i;
    }
  }

  lemma RecordOrigin(tick: Ticker, s: State, step: Step, i: int) returns (k: int)
    requires Enabled(tick, s, step) && 0 <= i < |TableAfter(tick, s, step)|
    requires step.Add? ==> i < |s.jobs|
    ensures 0 <= k < |Before(s, step)|
    ensures Carried(tick, s, step, Before(s, step)[k], TableAfter(tick, s, step)[i])
  {
    match step {
      case WriteBack(t, doneMs, _) =>
        k := WriteBackOrigin(tick, s.jobs, s.flights[t].job.id, s.flights[t].phase.outcome, doneMs, i);
      case Remove(id, _) =>
        k := RemovedOrigin(s.jobs, IndexOfId(s.jobs, id), i);
      case _ =>
        k := i;
    }
  }

  // ----- firings in flight -----

  /** Between being copied into the due batch and the write-back. */
  ghost predicate Unwritten(m: map<nat, Flight>, t: nat, id: string) {
    t in m && m[t].job.id == id && !m[t].phase.Written?
  }

  ghost predicate InFlight(m: map<nat, Flight>, id: string) {
    exists t :: Unwritten(m, t, id)
  }

  /** The firing this step ends, if any. */
  ghost predicate Ends(step: Step, t: nat) {
    (step.BadPayload? || step.WriteBack? || step.AcquireFail?) && step.t == t
  }

  /** Firings end by their own step or a restart, and begin only in a due batch. */
  lemma FlightsStep(tick: Ticker, s: State, step: Step, t: nat, id: string)
    requires Enabled(tick, s, step) && forall u :: u in s.flights ==> u < s.ticket
    ensures Unwritten(s.flights, t, id) && !step.Restart? && !Ends(step, t) ==>
              Unwritten(FlightsAfter(tick, s, step), t, id)
    ensures Unwritten(FlightsAfter(tick, s, step), t, id) ==>
              || (Unwritten(s.flights, t, id) && !step.Restart? && !Ends(step, t))
              || (step.CheckFire? && s.ticket <= t < s.ticket + |DueJobs(s.jobs, step.now)|
                  && DueJobs(s.jobs, step.now)[t - s.ticket].id == id)
  {
  }

  /** Every copy in the batch comes from a due record. */
  lemma DueOrigin(jobs: seq<Job>, now: int, f: Job) returns (i: int)
    requires f in DueJobs(jobs, now)
    ensures 0 <= i < |jobs| && IsDue(jobs[i], now) && f == DueCopy(jobs[i])
  {
    var last := |jobs| - 1;
    if f in DueJobs(jobs[..last], now) {
      i := DueOrigin(jobs[..last], now, f);
    } else {
      i := last;
    }
  }

  lemma DueDistinct(jobs: seq<Job>, now: int)
    requires DistinctIds(jobs)
    ensures DistinctIds(DueJobs(jobs, now))
  {
    if jobs != [] {
      var init := jobs[..|jobs| - 1];
      DueDistinct(init, now);
      forall f | f in DueJobs(init, now)
        ensures f.id != jobs[|jobs| - 1].id
      {
        var i := DueOrigin(init, now, f);
        assert jobs[i].id != jobs[|jobs| - 1].id;
      }
    }
  }

  lemma DueComplete(jobs: seq<Job>, now: int, j: Job)
    requires j in jobs && IsDue(j, now)
    ensures DueCopy(j) in DueJobs(jobs, now)
  {
    var last := |jobs| - 1;
    if jobs[last] != j {
      assert j in jobs[..last];
      DueComplete(jobs[..last], now, j);
    }
  }

  // ----- never silently stalled -----

  /** Every enabled recurring job is on its way: scheduled, or being run. */
  ghost predicate NotStalled(tick: Ticker, s: State) {
    s.alive ==> forall j :: j in s.jobs && j.enabled && Live(tick, j.schedule) ==>
      j.nextRun > 0 || InFlight(s.flights, j.id)
  }

  ghost predicate Waiting(tick: Ticker, j: Job) {
    j.enabled && Live(tick, j.schedule) && j.nextRun <= 0
  }

  lemma RewritePlans(tick: Ticker, used: set<string>, j: Job, now: int, outcome: Status, message: string)
    requires RecordOk(tick, used, j) && now > 0
    ensures !Waiting(tick, Ensured(tick, j, now))
    ensures !Waiting(tick, Recorded(tick, j, outcome, now))
    ensures !Waiting(tick, Scheduled(tick, j.(status := Failed(message)), now))
    ensures forall on :: !Waiting(tick, Switched(tick, j, on, now))
    ensures Waiting(tick, Fired(j, now)) ==> IsDue(j, now) || Fired(j, now) == j
  {
    if Live(tick, j.schedule) {
      ScheduledOk(tick, j, Origin(j, now));
      ScheduledOk(tick, j.(lastRun := now, status := outcome), now);
      ScheduledOk(tick, j.(status := Failed(message)), now);
      ScheduledOk(tick, j.(enabled := true), Origin(j, now));
    }
  }

  /** A live enabled record without a next run was there before, untouched by a firing of its own, or is due now. */
  lemma TableProgress(tick: Ticker, s: State, step: Step, i: int)
    requires Enabled(tick, s, step) && TableOk(tick, s.used, s.jobs) && TableOk(tick, s.used, s.store)
    requires 0 <= i < |TableAfter(tick, s, step)| && Waiting(tick, TableAfter(tick, s, step)[i])
    ensures !step.Restart?
    ensures var j := TableAfter(tick, s, step)[i];
            || (j in s.jobs && ((step.BadPayload? || step.WriteBack?) ==> s.flights[step.t].job.id != j.id))
            || (step.CheckFire? && exists f :: f in DueJobs(s.jobs, step.now) && f.id == j.id)
  {
    var r := TableAfter(tick, s, step);
    match step {
      case CheckFire(now, _) =>
        RewritePlans(tick, s.used, s.jobs[i], now, NoStatus, "");
        if IsDue(s.jobs[i], now) {
          DueComplete(s.jobs, now, s.jobs[i]);
        }
      case BadPayload(t, message, now, _) =>
        var idx := IndexOfId(s.jobs, s.flights[t].job.id);
        if idx >= 0 { RewritePlans(tick, s.used, s.jobs[idx], now, NoStatus, message); }
        assert r[i] == s.jobs[i];
      case WriteBack(t, doneMs, renamed) => WriteBackProgress(tick, s, t, doneMs, renamed, i);
      case Add(id, sch, payloadOk, now, _) =>
        assert Waiting(tick, NewJob(tick, id, sch, payloadOk, now)) ==> Fires(tick, sch, now);
      case Enable(id, on, now, _) =>
        var idx := IndexOfId(s.jobs, id);
        if idx >= 0 { RewritePlans(tick, s.used, s.jobs[idx], now, NoStatus, ""); }
        assert r[i] == s.jobs[i];
      case Restart(readable, now, _) =>
        RewritePlans(tick, s.used, Before(s, step)[i], now, NoStatus, "");
      case _ =>
    }
  }

  lemma WriteBackProgress(tick: Ticker, s: State, t: nat, doneMs: int, renamed: bool, i: int)
    requires Enabled(tick, s, WriteBack(t, doneMs, renamed)) && TableOk(tick, s.used, s.jobs)
    requires 0 <= i < |TableAfter(tick, s, WriteBack(t, doneMs, renamed))|
    requires Waiting(tick, TableAfter(tick, s, WriteBack(t, doneMs, renamed))[i])
    ensures var j := TableAfter(tick, s, WriteBack(t, doneMs, renamed))[i];
            j in s.jobs && s.flights[t].job.id != j.id
  {
    var r := TableAfter(tick, s, WriteBack(t, doneMs, renamed));
    var idx := IndexOfId(s.jobs, s.flights[t].job.id);
    if idx >= 0 {
      RewritePlans(tick, s.used, s.jobs[idx], doneMs, s.flights[t].phase.outcome, "");
      if s.jobs[idx].deleteAfterRun {
        var k := if i < idx then i else i + 1;
        assert r[i] == s.jobs[k];
        assert s.jobs[k].id != s.jobs[idx].id;
      } else {
        assert r[i] == s.jobs[i];
        assert s.jobs[i].id != s.jobs[idx].id;
      }
    }
  }

  lemma StaysInFlight(tick: Ticker, s: State, step: Step, id: string)
    requires Enabled(tick, s, step) && (forall u :: u in s.flights ==> u < s.ticket)
    requires InFlight(s.flights, id) && !step.Restart? && !step.AcquireFail?
    requires step.BadPayload? || step.WriteBack? ==> s.flights[step.t].job.id != id
    ensures InFlight(FlightsAfter(tick, s, step), id)
  {
    var t: nat :| Unwritten(s.flights, t, id);
    FlightsStep(tick, s, step, t, id);
  }

  lemma LaunchedInFlight(tick: Ticker, s: State, step: Step, id: string)
    requires Enabled(tick, s, step) && step.CheckFire?
    requires exists f :: f in DueJobs(s.jobs, step.now) && f.id == id
    ensures InFlight(FlightsAfter(tick, s, step), id)
  {
    var due := DueJobs(s.jobs, step.now);
    var k :| 0 <= k < |due| && due[k].id == id;
    assert Unwritten(FlightsAfter(tick, s, step), s.ticket + k, id);
  }

  lemma RecordOnItsWay(tick: Ticker, s: State, step: Step, i: int)
    requires Inv(tick, s) && NotStalled(tick, s) && Enabled(tick, s, step) && Apply(tick, s, step).alive
    requires 0 <= i < |TableAfter(tick, s, step)| && Waiting(tick, TableAfter(tick, s, step)[i])
    ensures InFlight(FlightsAfter(tick, s, step), TableAfter(tick, s, step)[i].id)
  {
    var j := TableAfter(tick, s, step)[i];
    TableProgress(tick, s, step, i);
    if step.CheckFire? && exists f :: f in DueJobs(s.jobs, step.now) && f.id == j.id {
      LaunchedInFlight(tick, s, step, j.id);
    } else {
      StaysInFlight(tick, s, step, j.id);
    }
  }

  lemma NotStalledStep(tick: Ticker, s: State, step: Step)
    requires Inv(tick, s) && NotStalled(tick, s) && Enabled(tick, s, step)
    ensures NotStalled(tick, Apply(tick, s, step))
  {
    var jobs := TableAfter(tick, s, step);
    if Apply(tick, s, step).alive {
      forall i | 0 <= i < |jobs| && Waiting(tick, jobs[i])
        ensures InFlight(FlightsAfter(tick, s, step), jobs[i].id)
      {
        RecordOnItsWay(tick, s, step, i);
      }
    }
  }

  // ----- one firing at a time -----

  /** At most one unwritten firing of this id, and while there is one the table holds no next run for it. */
  ghost predicate Exclusive(s: State, id: string) {
    && (forall t, u :: Unwritten(s.flights, t, id) && Unwritten(s.flights, u, id) ==> t == u)
    && (InFlight(s.flights, id) ==> Unplanned(s.jobs, id))
  }

  ghost predicate Unplanned(jobs: seq<Job>, id: string) {
    forall j :: j in jobs && j.id == id ==> j.nextRun == 0
  }

  /** Switching a job on while it is in flight is the one step that can break exclusivity. */
  ghost predicate Polite(s: State, step: Step, id: string) {
    step.Enable? && step.on && step.id == id ==> !InFlight(s.flights, id)
  }

  /** Only a firing's own end, switching on, adding and restarting plan a next run. */
  lemma UnplannedStep(tick: Ticker, s: State, step: Step, id: string)
    requires Enabled(tick, s, step) && Unplanned(s.jobs, id)
    requires !(step.Enable? && step.on && step.id == id) && !(step.Add? && step.id == id) && !step.Restart?
    requires step.BadPayload? || step.WriteBack? ==> s.flights[step.t].job.id != id
    ensures Unplanned(TableAfter(tick, s, step), id)
  {
    var r := TableAfter(tick, s, step);
    forall j | j in r && j.id == id
      ensures j.nextRun == 0
    {
      var i :| 0 <= i < |r| && r[i] == j;
      if !(step.Add? && i == |s.jobs|) {
        var k := RecordOrigin(tick, s, step, i);
        assert s.jobs[k] in s.jobs;
      }
    }
  }

  lemma FiredUnplanned(jobs: seq<Job>, now: int, f: Job) returns (at: int)
    requires DistinctIds(jobs) && f in DueJobs(jobs, now)
    ensures Unplanned(FireTable(jobs, now), f.id)
    ensures 0 <= at < |jobs| && jobs[at].id == f.id && IsDue(jobs[at], now)
    ensures forall i :: 0 <= i < |jobs| && jobs[i].id == f.id ==> i == at
  {
    at := DueOrigin(jobs, now, f);
    forall k | k in FireTable(jobs, now) && k.id == f.id
      ensures k.nextRun == 0
    {
      var i :| 0 <= i < |jobs| && FireTable(jobs, now)[i] == k;
      assert jobs[i].id == jobs[at].id;
    }
  }

  /** A due batch that holds this id launches its only firing. */
  lemma ExclusiveFire(tick: Ticker, s: State, step: Step, f: Job)
    requires Inv(tick, s) && Exclusive(s, f.id) && Enabled(tick, s, step)
    requires step.CheckFire? && f in DueJobs(s.jobs, step.now)
    ensures Exclusive(Apply(tick, s, step), f.id)
  {
    var due, after := DueJobs(s.jobs, step.now), FlightsAfter(tick, s, step);
    DueDistinct(s.jobs, step.now);
    var at := FiredUnplanned(s.jobs, step.now, f);
    assert s.jobs[at] in s.jobs;
    forall t: nat | Unwritten(after, t, f.id)
      ensures s.ticket <= t < s.ticket + |due| && due[t - s.ticket].id == f.id
    {
      FlightsStep(tick, s, step, t, f.id);
    }
  }

  lemma ExclusiveOther(tick: Ticker, s: State, step: Step, id: string)
    requires Inv(tick, s) && Exclusive(s, id) && Enabled(tick, s, step) && Polite(s, step, id)
    requires step.CheckFire? ==> forall f :: f in DueJobs(s.jobs, step.now) ==> f.id != id
    ensures Exclusive(Apply(tick, s, step), id)
  {
    var after := FlightsAfter(tick, s, step);
    forall t: nat | Unwritten(after, t, id)
      ensures Unwritten(s.flights, t, id) && !step.Restart? && !Ends(step, t)
    {
      FlightsStep(tick, s, step, t, id);
    }
    if InFlight(after, id) {
      var t: nat :| Unwritten(after, t, id);
      assert InFlight(s.flights, id);
      if (step.BadPayload? || step.WriteBack?) && s.flights[step.t].job.id == id {
        assert Unwritten(s.flights, step.t, id);
        assert false;
      }
      AddedElsewhere(tick, s, step, id);
      UnplannedStep(tick, s, step, id);
    }
  }

  lemma AddedElsewhere(tick: Ticker, s: State, step: Step, id: string)
    requires Inv(tick, s) && Enabled(tick, s, step) && InFlight(s.flights, id)
    ensures !(step.Add? && step.id == id)
  {
  }

  lemma ExclusiveStep(tick: Ticker, s: State, step: Step, id: string)
    requires Inv(tick, s) && Exclusive(s, id) && Enabled(tick, s, step) && Polite(s, step, id)
    ensures Exclusive(Apply(tick, s, step), id)
  {
    if step.CheckFire? && exists f :: f in DueJobs(s.jobs, step.now) && f.id == id {
      var f :| f in DueJobs(s.jobs, step.now) && f.id == id;
      ExclusiveFire(tick, s, step, f);
    } else {
      ExclusiveOther(tick, s, step, id);
    }
  }

  // ----- one-shot jobs -----

  ghost predicate OnlyAt(jobs: seq<Job>, id: string) {
    forall j :: j in jobs && j.id == id ==> j.schedule.At?
  }

  ghost predicate Armed(jobs: seq<Job>, id: string) {
    exists j :: j in jobs && j.id == id && j.enabled
  }

  /** A firing whose turn is still to start. */
  ghost predicate Owes(m: map<nat, Flight>, t: nat, id: string) {
    t in m && m[t].job.id == id && (m[t].phase == Spawned || m[t].phase == Holding)
  }

  ghost predicate Owed(m: map<nat, Flight>, id: string) {
    exists t :: Owes(m, t, id)
  }

  /** The turns a one-shot job has had, may still owe, and could be armed for again, in memory and on disk. */
  ghost predicate OneShot(s: State, id: string) {
    && OnlyAt(s.jobs, id) && OnlyAt(s.store, id)
    && Tally(s.turns, id) + One(Owed(s.flights, id)) + One(Armed(s.jobs, id)) <= 1 + Tally(s.lost, id)
    && Tally(s.turns, id) + One(Owed(s.flights, id)) + One(Armed(s.store, id)) <= 1 + Tally(s.lost, id)
  }

  /** This id is never switched on again and, if it is added in this run, added as a one-shot. */
  ghost predicate KeepsOneShot(step: Step, id: string) {
    && !(step.Enable? && step.on && step.id == id)
    && (step.Add? && step.id == id ==> step.sch.At?)
  }

  ghost predicate AllKeep(steps: seq<Step>, id: string) {
    forall i :: 0 <= i < |steps| ==> KeepsOneShot(steps[i], id)
  }

  /** The record has this id's kind of schedule and is armed only if the older one was. */
  ghost predicate NoFresher(k: Job, j: Job) {
    j.id == k.id && (j.enabled ==> k.enabled) && (j.schedule.At? <==> k.schedule.At?)
  }

  /** No load, write-back or rejection arms a record or changes its kind of schedule. */
  ghost predicate NoArming(before: seq<Job>, after: seq<Job>, id: string) {
    forall j :: j in after && j.id == id ==> exists k :: k in before && NoFresher(k, j)
  }

  lemma NoArmingAt(before: seq<Job>, after: seq<Job>, id: string)
    requires forall i :: 0 <= i < |after| && after[i].id == id ==>
               exists k :: 0 <= k < |before| && NoFresher(before[k], after[i])
    ensures NoArming(before, after, id)
  {
    forall j | j in after && j.id == id
      ensures exists k :: k in before && NoFresher(k, j)
    {
      var i :| 0 <= i < |after| && after[i] == j;
      var k :| 0 <= k < |before| && NoFresher(before[k], after[i]);
      assert before[k] in before;
    }
  }

  lemma NoArmingCarries(before: seq<Job>, after: seq<Job>, id: string)
    requires NoArming(before, after, id) && OnlyAt(before, id)
    ensures OnlyAt(after, id)
    ensures Armed(after, id) ==> Armed(before, id)
  {
  }

  lemma NoArmingStep(tick: Ticker, s: State, step: Step, id: string)
    requires Enabled(tick, s, step) && KeepsOneShot(step, id) && !(step.Add? && step.id == id)
    ensures NoArming(Before(s, step), TableAfter(tick, s, step), id)
  {
    var before, after := Before(s, step), TableAfter(tick, s, step);
    forall i | 0 <= i < |after| && after[i].id == id
      ensures exists k :: 0 <= k < |before| && NoFresher(before[k], after[i])
    {
      var k := RecordOrigin(tick, s, step, i);
      assert NoFresher(before[k], after[i]);
    }
    NoArmingAt(before, after, id);
  }

  lemma NoArmingPersisted(jobs: seq<Job>, id: string)
    ensures NoArming(jobs, Persisted(jobs), id)
  {
    forall i | 0 <= i < |jobs|
      ensures NoFresher(jobs[i], Persisted(jobs)[i])
    {
    }
    NoArmingAt(jobs, Persisted(jobs), id);
  }

  /** Outside a due batch that holds this id, no step lets it owe a turn it did not owe. */
  lemma OwedStep(tick: Ticker, s: State, step: Step, id: string)
    requires Inv(tick, s) && Enabled(tick, s, step)
    requires step.CheckFire? ==> forall f :: f in DueJobs(s.jobs, step.now) ==> f.id != id
    ensures Owed(FlightsAfter(tick, s, step), id) ==> Owed(s.flights, id)
  {
    var after := FlightsAfter(tick, s, step);
    if Owed(after, id) {
      var t: nat :| Owes(after, t, id);
      assert Owes(s.flights, t, id);
    }
  }

  /** Starting a turn pays the one that was owed. */
  lemma OwedTurn(tick: Ticker, s: State, t: nat, id: string)
    requires Exclusive(s, id) && Enabled(tick, s, StartTurn(t)) && s.flights[t].job.id == id
    ensures Owed(s.flights, id) && !Owed(FlightsAfter(tick, s, StartTurn(t)), id)
  {
    assert Owes(s.flights, t, id) && Unwritten(s.flights, t, id);
    var after := FlightsAfter(tick, s, StartTurn(t));
    if Owed(after, id) {
      var u: nat :| Owes(after, u, id);
      assert Unwritten(s.flights, u, id);
      assert false;
    }
  }

  /** A due batch that holds this id disarms it, and found it owing nothing. */
  lemma FiredOnce(tick: Ticker, s: State, now: int, id: string)
    requires Inv(tick, s) && Exclusive(s, id) && OnlyAt(s.jobs, id)
    requires exists f :: f in DueJobs(s.jobs, now) && f.id == id
    ensures Armed(s.jobs, id) && !Armed(FireTable(s.jobs, now), id)
    ensures !Owed(s.flights, id)
  {
    var f :| f in DueJobs(s.jobs, now) && f.id == id;
    var at := FiredUnplanned(s.jobs, now, f);
    assert s.jobs[at] in s.jobs;
    forall k | k in FireTable(s.jobs, now) && k.id == id
      ensures !k.enabled
    {
      var i :| 0 <= i < |s.jobs| && FireTable(s.jobs, now)[i] == k;
      assert i == at;
    }
    if Owed(s.flights, id) {
      var t: nat :| Owes(s.flights, t, id);
      assert Unwritten(s.flights, t, id);
      assert false;
    }
  }

  lemma OneShotStep(tick: Ticker, s: State, step: Step, id: string)
    requires Inv(tick, s) && Exclusive(s, id) && OneShot(s, id)
    requires Enabled(tick, s, step) && KeepsOneShot(step, id)
    ensures OneShot(Apply(tick, s, step), id)
  {
    if step.Add? && step.id == id {
      OneShotAdded(tick, s, step, id);
    } else {
      OneShotTables(tick, s, step, id);
      OneShotCounts(tick, s, step, id);
    }
  }

  /** What the step does to the three counters of this id. */
  lemma OneShotCounts(tick: Ticker, s: State, step: Step, id: string)
    requires Inv(tick, s) && Exclusive(s, id) && OnlyAt(s.jobs, id) && Enabled(tick, s, step)
    ensures var s' := Apply(tick, s, step);
            var fired := step.CheckFire? && exists f :: f in DueJobs(s.jobs, step.now) && f.id == id;
            && Tally(s'.lost, id) == Tally(s.lost, id) + One(fired && !step.renamed)
            && Tally(s'.turns, id) + One(Owed(s'.flights, id)) <=
              Tally(s.turns, id) + One(Owed(s.flights, id)) + One(fired)
            && (fired ==> Armed(s.jobs, id) && !Armed(s'.jobs, id) && !Owed(s.flights, id))
  {
    if step.CheckFire? && exists f :: f in DueJobs(s.jobs, step.now) && f.id == id {
      FiredOnce(tick, s, step.now, id);
    } else {
      OwedStep(tick, s, step, id);
      if step.StartTurn? && s.flights[step.t].job.id == id {
        OwedTurn(tick, s, step.t, id);
      }
    }
  }

  lemma OneShotTables(tick: Ticker, s: State, step: Step, id: string)
    requires OneShot(s, id) && Enabled(tick, s, step) && KeepsOneShot(step, id) && !(step.Add? && step.id == id)
    ensures var s' := Apply(tick, s, step);
            && OnlyAt(s'.jobs, id) && OnlyAt(s'.store, id)
            && (Armed(s'.jobs, id) ==> Armed(s.jobs, id) || (step.Restart? && Armed(s.store, id)))
            && (Armed(s'.store, id) ==> if Saves(s, step) then Armed(s'.jobs, id) else Armed(s.store, id))
  {
    var jobs := TableAfter(tick, s, step);
    NoArmingStep(tick, s, step, id);
    NoArmingCarries(Before(s, step), jobs, id);
    NoArmingPersisted(jobs, id);
    NoArmingCarries(jobs, Persisted(jobs), id);
  }

  lemma OneShotAdded(tick: Ticker, s: State, step: Step, id: string)
    requires Inv(tick, s) && OneShot(s, id)
    requires Enabled(tick, s, step) && KeepsOneShot(step, id) && step.Add? && step.id == id
    ensures OneShot(Apply(tick, s, step), id)
  {
    var jobs := TableAfter(tick, s, step);
    AddedFresh(tick, s, id);
    NoArmingPersisted(jobs, id);
    NoArmingCarries(jobs, Persisted(jobs), id);
  }

  lemma AddedFresh(tick: Ticker, s: State, id: string)
    requires Inv(tick, s) && id !in s.used
    ensures forall j :: j in s.jobs || j in s.store ==> j.id != id
    ensures !Owed(s.flights, id) && Tally(s.turns, id) == 0
  {
    forall j | j in s.jobs
      ensures j.id != id
    {
      var i :| 0 <= i < |s.jobs| && s.jobs[i] == j;
      assert RecordOk(tick, s.used, s.jobs[i]);
    }
    forall j | j in s.store
      ensures j.id != id
    {
      var i :| 0 <= i < |s.store| && s.store[i] == j;
      assert RecordOk(tick, s.used, s.store[i]);
    }
  }

  // ----- whole runs -----

  /** A new process in front of a store it wrote itself. */
  ghost predicate Init(tick: Ticker, s: State) {
    && s.jobs == []
    && TableOk(tick, s.used, s.store)
    && s.flights == map[] && s.slots == 0
    && s.turns == map[] && s.lost == map[]
  }

  lemma InitOk(tick: Ticker, s: State, id: string)
    requires Init(tick, s)
    ensures Inv(tick, s) && NotStalled(tick, s) && Exclusive(s, id)
    ensures OnlyAt(s.store, id) ==> OneShot(s, id)
  {
    assert Holders(s.flights) == {};
    assert !InFlight(s.flights, id) && !Owed(s.flights, id);
  }

  ghost predicate Run(tick: Ticker, s: State, steps: seq<Step>, s': State)
    decreases |steps|
  {
    if steps == [] then s' == s
    else Enabled(tick, s, steps[0]) && Run(tick, Apply(tick, s, steps[0]), steps[1..], s')
  }

  lemma {:induction false} RunsKeepInv(tick: Ticker, s: State, steps: seq<Step>, s': State)
    requires Inv(tick, s) && NotStalled(tick, s) && Run(tick, s, steps, s')
    ensures Inv(tick, s') && NotStalled(tick, s') && s'.max == s.max
    decreases |steps|
  {
    if steps != [] {
      InvStep(tick, s, steps[0]);
      NotStalledStep(tick, s, steps[0]);
      RunsKeepInv(tick, Apply(tick, s, steps[0]), steps[1..], s');
    }
  }

  /** Over every run, with any crashes, failed saves, removals and switches: while the context lives no
      enabled recurring job is silently stalled; at most max turns run at once; a lane slot is taken
      exactly while some goroutine holds it, so all slots are back when none is past its acquire. */
  lemma RunsNeverStall(tick: Ticker, s: State, steps: seq<Step>, s': State)
    requires Init(tick, s) && Run(tick, s, steps, s')
    ensures s'.alive ==> forall j :: j in s'.jobs && j.enabled && Live(tick, j.schedule) ==>
                                       j.nextRun > 0 || InFlight(s'.flights, j.id)
    ensures |RunningTurns(s'.flights)| <= s.max
    ensures s'.slots == |Holders(s'.flights)|
  {
    InitOk(tick, s, "");
    RunsKeepInv(tick, s, steps, s');
    SubsetSize(RunningTurns(s'.flights), Holders(s'.flights));
  }

  ghost predicate PoliteRun(tick: Ticker, s: State, steps: seq<Step>, id: string)
    decreases |steps|
  {
    steps != [] && Enabled(tick, s, steps[0]) ==>
      Polite(s, steps[0], id) && PoliteRun(tick, Apply(tick, s, steps[0]), steps[1..], id)
  }

  lemma {:induction false} RunsKeepExclusive(tick: Ticker, s: State, steps: seq<Step>, s': State, id: string)
    requires Inv(tick, s) && Exclusive(s, id)
    requires Run(tick, s, steps, s') && PoliteRun(tick, s, steps, id)
    ensures Exclusive(s', id)
    decreases |steps|
  {
    if steps != [] {
      InvStep(tick, s, steps[0]);
      ExclusiveStep(tick, s, steps[0], id);
      RunsKeepExclusive(tick, Apply(tick, s, steps[0]), steps[1..], s', id);
    }
  }

  /** In every run in which nobody switches the job on while it is in flight, the job has at most one
      firing between its copy into the due batch and its write-back, and no next run meanwhile. */
  lemma RunsFireExclusively(tick: Ticker, s: State, steps: seq<Step>, s': State, id: string)
    requires Init(tick, s) && Run(tick, s, steps, s') && PoliteRun(tick, s, steps, id)
    ensures forall t, u :: Unwritten(s'.flights, t, id) && Unwritten(s'.flights, u, id) ==> t == u
    ensures forall j :: j in s'.jobs && j.id == id && InFlight(s'.flights, id) ==> j.nextRun == 0
  {
    InitOk(tick, s, id);
    RunsKeepExclusive(tick, s, steps, s', id);
  }

  lemma {:induction false} RunsKeepOneShot(tick: Ticker, s: State, steps: seq<Step>, s': State, id: string)
    requires Inv(tick, s) && Exclusive(s, id) && OneShot(s, id)
    requires Run(tick, s, steps, s') && AllKeep(steps, id)
    ensures OneShot(s', id)
    decreases |steps|
  {
    if steps != [] {
      InvStep(tick, s, steps[0]);
      ExclusiveStep(tick, s, steps[0], id);
      OneShotStep(tick, s, steps[0], id);
      assert AllKeep(steps[1..], id);
      RunsKeepOneShot(tick, Apply(tick, s, steps[0]), steps[1..], s', id);
    }
  }

  /** Over every run with crashes, reloads and failed saves, a one-shot job that is never switched on
      again has its turn started at most once more than there were failed pre-fire saves for it. */
  lemma RunsFireOneShotOnce(tick: Ticker, s: State, steps: seq<Step>, s': State, id: string)
    requires Init(tick, s) && OnlyAt(s.store, id)
    requires Run(tick, s, steps, s') && AllKeep(steps, id)
    ensures Tally(s'.turns, id) <= 1 + Tally(s'.lost, id)
  {
    InitOk(tick, s, id);
    RunsKeepOneShot(tick, s, steps, s', id);
  }

  // ----- both conditions are needed -----

  lemma SwitchedOnIsDue(tick: Ticker, jobs: seq<Job>, id: string, now: int, later: int) returns (f: Job)
    requires IndexOfId(jobs, id) >= 0 && Unplanned(jobs, id)
    requires var j := jobs[IndexOfId(jobs, id)];
             Fires(tick, j.schedule, Origin(j, now)) && later >= ComputeNext(tick, j.schedule, Origin(j, now)).value
    ensures f.id == id && f in DueJobs(EnableTable(tick, jobs, id, true, now), later)
  {
    var idx := IndexOfId(jobs, id);
    assert jobs[idx] in jobs;
    var table := EnableTable(tick, jobs, id, true, now);
    var j := Switched(tick, jobs[idx], true, now);
    assert table[idx] == j;
    DueComplete(table, later, j);
    f := DueCopy(j);
  }

  /** Switching a job on while it is in flight lets the next due check fire it a second time at once. */
  lemma EnableInFlightFiresTwice(tick: Ticker, s: State, id: string, now: int, later: int) returns (s': State)
    requires Inv(tick, s) && Exclusive(s, id) && InFlight(s.flights, id) && now > 0 && later > 0
    requires IndexOfId(s.jobs, id) >= 0
    requires var j := s.jobs[IndexOfId(s.jobs, id)];
             Fires(tick, j.schedule, Origin(j, now)) && later >= ComputeNext(tick, j.schedule, Origin(j, now)).value
    ensures Run(tick, s, [Enable(id, true, now, true), CheckFire(later, true)], s')
    ensures exists t: nat, u: nat :: t != u && Unwritten(s'.flights, t, id) && Unwritten(s'.flights, u, id)
  {
    var f := SwitchedOnIsDue(tick, s.jobs, id, now, later);
    var first, second := Enable(id, true, now, true), CheckFire(later, true);
    var s1 := Apply(tick, s, first);
    s' := Apply(tick, s1, second);
    RunOfTwo(tick, s, first, second);
    TwoUnwritten(tick, s1, second, f);
  }

  lemma TwoUnwritten(tick: Ticker, s: State, step: Step, f: Job)
    requires step.CheckFire? && Enabled(tick, s, step) && f in DueJobs(s.jobs, step.now)
    requires InFlight(s.flights, f.id) && forall t :: t in s.flights ==> t < s.ticket
    ensures exists t: nat, u: nat :: t != u && Unwritten(FlightsAfter(tick, s, step), t, f.id)
                                     && Unwritten(FlightsAfter(tick, s, step), u, f.id)
  {
    var t: nat :| Unwritten(s.flights, t, f.id);
    FlightsStep(tick, s, step, t, f.id);
    var due := DueJobs(s.jobs, step.now);
    var k :| 0 <= k < |due| && due[k] == f;
    assert Unwritten(FlightsAfter(tick, s, step), s.ticket + k, f.id);
  }

  lemma RunOfTwo(tick: Ticker, s: State, first: Step, second: Step)
    requires Enabled(tick, s, first) && Enabled(tick, Apply(tick, s, first), second)
    ensures Run(tick, s, [first, second], Apply(tick, Apply(tick, s, first), second))
  {
    assert [first, second][1..] == [second] && [second][1..] == [];
    assert Run(tick, Apply(tick, Apply(tick, s, first), second), [], Apply(tick, Apply(tick, s, first), second));
    assert Run(tick, Apply(tick, s, first), [second], Apply(tick, Apply(tick, s, first), second));
  }

  /** Some run without switching this job on leads from s to s'. */
  ghost predicate Reaches(tick: Ticker, s: State, s': State, id: string) {
    exists steps: seq<Step> :: Run(tick, s, steps, s') && AllKeep(steps, id)
  }

  lemma {:induction false} RunThen(tick: Ticker, s: State, steps: seq<Step>, s1: State, step: Step)
    requires Run(tick, s, steps, s1) && Enabled(tick, s1, step)
    ensures Run(tick, s, steps + [step], Apply(tick, s1, step))
    decreases |steps|
  {
    if steps == [] {
      assert [step][1..] == [] && steps + [step] == [step];
    } else {
      assert (steps + [step])[1..] == steps[1..] + [step];
      RunThen(tick, Apply(tick, s, steps[0]), steps[1..], s1, step);
    }
  }

  lemma ReachesThen(tick: Ticker, s: State, s1: State, step: Step, id: string)
    requires Reaches(tick, s, s1, id) && Enabled(tick, s1, step) && KeepsOneShot(step, id)
    ensures Reaches(tick, s, Apply(tick, s1, step), id)
  {
    var steps: seq<Step> :| Run(tick, s, steps, s1) && AllKeep(steps, id);
    RunThen(tick, s, steps, s1, step);
    assert AllKeep(steps + [step], id);
  }

  /** A process that was restarted, knows exactly this job and has no goroutines yet. */
  ghost predicate Restarted(s: State, j: Job) {
    s.jobs == [j] && s.store == [j] && s.flights == map[] && s.slots == 0
  }

  lemma FireAlone(tick: Ticker, s0: State, s: State, j: Job, now: int, renamed: bool) returns (s': State)
    requires Reaches(tick, s0, s, j.id) && Restarted(s, j) && j.schedule.At? && IsDue(j, now) && now > 0
    ensures Reaches(tick, s0, s', j.id)
    ensures s'.store == if renamed then Persisted([j.(enabled := false, nextRun := 0)]) else s.store
    ensures InPhase(s', s.ticket, Spawned) && s'.flights[s.ticket].job == DueCopy(j)
    ensures s'.turns == s.turns && s'.max == s.max && s'.slots == 0
    ensures Tally(s'.lost, j.id) == Tally(s.lost, j.id) + One(!renamed)
  {
    var step := CheckFire(now, renamed);
    var due := DueJobs(s.jobs, now);
    assert s.jobs[..0] == [] && DueJobs([], now) == [];
    assert due == [DueCopy(j)];
    assert due[0] in due;
    s' := Apply(tick, s, step);
    assert s'.jobs == [j.(enabled := false, nextRun := 0)];
    assert s'.flights[s.ticket] == Flight(due[s.ticket - s.ticket], Spawned);
    ReachesThen(tick, s0, s, step, j.id);
  }

  lemma AcquireAlone(tick: Ticker, s0: State, s: State, t: nat, id: string) returns (s': State)
    requires Reaches(tick, s0, s, id) && InPhase(s, t, Spawned) && s.flights[t].job.payloadOk && s.slots < s.max
    ensures Reaches(tick, s0, s', id) && InPhase(s', t, Holding) && s'.flights[t].job == s.flights[t].job
    ensures s'.turns == s.turns && s'.store == s.store && s'.max == s.max && s'.lost == s.lost
  {
    s' := Apply(tick, s, Acquire(t));
    ReachesThen(tick, s0, s, Acquire(t), id);
  }

  lemma TurnAlone(tick: Ticker, s0: State, s: State, t: nat) returns (s': State)
    requires InPhase(s, t, Holding) && Reaches(tick, s0, s, s.flights[t].job.id)
    ensures var id := s.flights[t].job.id;
            Reaches(tick, s0, s', id) && Tally(s'.turns, id) == Tally(s.turns, id) + 1
    ensures s'.store == s.store && s'.max == s.max && s'.lost == s.lost
  {
    s' := Apply(tick, s, StartTurn(t));
    ReachesThen(tick, s0, s, StartTurn(t), s.flights[t].job.id);
  }

  lemma RestartAlone(tick: Ticker, s0: State, s: State, j: Job, now: int) returns (s': State)
    requires Reaches(tick, s0, s, j.id) && s.store == [j] && j.enabled && j.nextRun > 0 && j.schedule.At? && now > 0
    ensures Reaches(tick, s0, s', j.id) && Restarted(s', j)
    ensures s'.turns == s.turns && s'.lost == s.lost && s'.max == s.max
  {
    var start := Restart(true, now, true);
    s' := Apply(tick, s, start);
    ReachesThen(tick, s0, s, start, j.id);
  }

  /** Restart, fire, acquire and start the turn of the only job. */
  lemma TurnOfOnlyJob(tick: Ticker, s0: State, s: State, j: Job, renamed: bool) returns (s': State)
    requires Reaches(tick, s0, s, j.id) && s.store == [j] && s.max > 0
    requires j.enabled && j.payloadOk && j.schedule.At? && j.nextRun > 0
    ensures Reaches(tick, s0, s', j.id) && s'.max == s.max && (!renamed ==> s'.store == [j])
    ensures Tally(s'.turns, j.id) == Tally(s.turns, j.id) + 1
    ensures Tally(s'.lost, j.id) == Tally(s.lost, j.id) + One(!renamed)
  {
    hide Reaches;
    var s1 := RestartAlone(tick, s0, s, j, j.nextRun);
    var s2 := FireAlone(tick, s0, s1, j, j.nextRun, renamed);
    var s3 := AcquireAlone(tick, s0, s2, s1.ticket, j.id);
    s' := TurnAlone(tick, s0, s3, s1.ticket);
  }

  /** Each failed pre-fire save lets one turn start, and after the crash the store still holds the job armed. */
  lemma {:induction false} LoseOften(tick: Ticker, s: State, j: Job, n: nat) returns (s': State)
    requires Init(tick, s) && s.max > 0 && s.store == [j]
    requires j.enabled && j.payloadOk && j.schedule.At? && j.nextRun > 0
    ensures Reaches(tick, s, s', j.id) && s'.store == [j] && s'.max == s.max
    ensures Tally(s'.turns, j.id) == n && Tally(s'.lost, j.id) == n
  {
    if n == 0 {
      s' := s;
      assert Run(tick, s, [], s) && AllKeep([], j.id);
    } else {
      hide Reaches;
      var s1 := LoseOften(tick, s, j, n - 1);
      s' := TurnOfOnlyJob(tick, s, s1, j, false);
    }
  }

  /** The bound is attained for every number of failures: n failed pre-fire saves, each followed by a crash, let
      a one-shot job start n + 1 turns. */
  lemma LostSavesFireAgain(tick: Ticker, s: State, j: Job, n: nat) returns (s': State)
    requires Init(tick, s) && s.max > 0 && s.store == [j]
    requires j.enabled && j.payloadOk && j.schedule.At? && j.nextRun > 0
    ensures Reaches(tick, s, s', j.id) && Tally(s'.turns, j.id) == n + 1 && Tally(s'.lost, j.id) == n
  {
    hide Reaches;
    var s1 := LoseOften(tick, s, j, n);
    s' := TurnOfOnlyJob(tick, s, s1, j, true);
  }
}
