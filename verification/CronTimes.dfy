/** When cron jobs run: no run fires one before its time, and what every operation plans. */
module CronTimes {
  import opened Wrappers
  import opened CronSchedules
  import opened CronService
  import opened CronProtocol

  // ----- what a plan is -----

  /** A next run as the schedule itself has it, counted from this time: a one-shot's own time if it is not over, the
      end of one interval in whole milliseconds, or what the expression library names; its error plans nothing. */
  predicate Planned(tick: Ticker, sch: Schedule, fromMs: int, before: int, next: int) {
    match sch
    case At(atMs) => next == if atMs < fromMs then 0 else atMs
    case Every(ns) =>
      if ns <= 0 then next == 0 else (next - fromMs) * 1_000_000 <= ns < (next - fromMs + 1) * 1_000_000
    case CronExpr(expr) => if tick(expr, fromMs).None? then next == before else Some(next) == tick(expr, fromMs)
  }

  lemma ScheduledPlans(tick: Ticker, j: Job, fromMs: int)
    ensures var r := Scheduled(tick, j, fromMs);
            Planned(tick, j.schedule, fromMs, j.nextRun, r.nextRun) && r == j.(nextRun := r.nextRun)
  {
  }

  /** Only the record at this place may differ. */
  predicate OthersKept(before: seq<Job>, after: seq<Job>, i: nat) {
    |after| == |before| && forall k :: 0 <= k < |before| && k != i ==> after[k] == before[k]
  }

  /** The write-back of a turn: the first record with the id notes the end and the outcome. A one-shot is switched
      off, a recurring job planned from the end of the turn; a job to be deleted goes. Without a record nothing
      changes. */
  lemma WriteBackMeans(tick: Ticker, jobs: seq<Job>, id: string, outcome: Status, doneMs: int, i: nat)
    ensures var r := WriteBackTable(tick, jobs, id, outcome, doneMs);
            && ((forall j :: j in jobs ==> j.id != id) ==> r == jobs)
            && (FirstWith(jobs, id, i) ==>
                 var j := jobs[i];
                 if j.deleteAfterRun then r == jobs[..i] + jobs[i + 1..]
                 else
                   && OthersKept(jobs, r, i)
                   && r[i] == j.(lastRun := doneMs, status := outcome, enabled := r[i].enabled, nextRun := r[i].nextRun)
                   && (j.schedule.At? ==> !r[i].enabled && r[i].nextRun == 0)
                   && (!j.schedule.At? ==>
                         r[i].enabled == j.enabled && Planned(tick, j.schedule, doneMs, j.nextRun, r[i].nextRun)))
  {
    var idx := IndexOfId(jobs, id);
    if idx >= 0 {
      assert jobs[idx] in jobs && (FirstWith(jobs, id, i) ==> i == idx);
      ScheduledPlans(tick, jobs[idx].(lastRun := doneMs, status := outcome), doneMs);
    }
  }

  /** A job with an invalid payload notes the error and is planned from now. */
  lemma RejectMeans(tick: Ticker, jobs: seq<Job>, id: string, message: string, now: int, i: nat)
    ensures var r := RejectTable(tick, jobs, id, message, now);
            && ((forall j :: j in jobs ==> j.id != id) ==> r == jobs)
            && (FirstWith(jobs, id, i) ==>
                 && OthersKept(jobs, r, i)
                 && r[i] == jobs[i].(status := Failed(message), nextRun := r[i].nextRun)
                 && Planned(tick, jobs[i].schedule, now, jobs[i].nextRun, r[i].nextRun))
  {
    var idx := IndexOfId(jobs, id);
    if idx >= 0 {
      assert jobs[idx] in jobs && (FirstWith(jobs, id, i) ==> i == idx);
      ScheduledPlans(tick, jobs[idx].(status := Failed(message)), now);
    }
  }

  /** Switching off drops the next run; switching on plans one, from the last run or from now, unless there is one. */
  lemma EnableMeans(tick: Ticker, jobs: seq<Job>, id: string, on: bool, now: int, i: nat)
    ensures var r := EnableTable(tick, jobs, id, on, now);
            && ((forall j :: j in jobs ==> j.id != id) ==> r == jobs)
            && (FirstWith(jobs, id, i) ==>
                 var j := jobs[i];
                 && OthersKept(jobs, r, i)
                 && r[i] == j.(enabled := on, nextRun := r[i].nextRun)
                 && (!on ==> r[i].nextRun == 0)
                 && (on && j.nextRun != 0 ==> r[i].nextRun == j.nextRun)
                 && (on && j.nextRun == 0 ==>
                       Planned(tick, j.schedule, if j.lastRun == 0 then now else j.lastRun, 0, r[i].nextRun)))
  {
    var idx := IndexOfId(jobs, id);
    if idx >= 0 {
      var j := jobs[idx];
      assert j in jobs && (FirstWith(jobs, id, i) ==> i == idx);
      ScheduledPlans(tick, j.(enabled := true), if j.lastRun == 0 then now else j.lastRun);
    }
  }

  /** Starting plans the enabled records without a next run, and touches no other. */
  lemma EnsureMeans(tick: Ticker, jobs: seq<Job>, now: int, i: nat)
    requires i < |jobs|
    ensures var j, r := jobs[i], EnsureTable(tick, jobs, now);
            && |r| == |jobs|
            && (!j.enabled || j.nextRun > 0 ==> r[i] == j)
            && (j.enabled && j.nextRun <= 0 ==>
                  && r[i] == j.(nextRun := r[i].nextRun)
                  && Planned(tick, j.schedule, if j.lastRun == 0 then now else j.lastRun, j.nextRun, r[i].nextRun))
  {
    ScheduledPlans(tick, jobs[i], if jobs[i].lastRun == 0 then now else jobs[i].lastRun);
  }

  /** A new job is enabled, has never run, and is planned from now. */
  lemma NewJobMeans(tick: Ticker, id: string, sch: Schedule, payloadOk: bool, now: int)
    requires Admissible(tick, sch, now)
    ensures var j := NewJob(tick, id, sch, payloadOk, now);
            && j == Job(id, true, sch, payloadOk, false, j.nextRun, 0, NoStatus)
            && Planned(tick, sch, now, 0, j.nextRun)
  {
    ScheduledPlans(tick, Job(id, true, sch, payloadOk, false, 0, 0, NoStatus), now);
  }

  // ----- what a restart finds -----

  /** The step's save went through. */
  predicate Renamed(step: Step) {
    match step
    case CheckFire(_, renamed) => renamed
    case BadPayload(_, _, _, renamed) => renamed
    case WriteBack(_, _, renamed) => renamed
    case Add(_, _, _, _, renamed) => renamed
    case Remove(_, renamed) => renamed
    case Enable(_, _, _, renamed) => renamed
    case Restart(_, _, renamed) => renamed
    case _ => false
  }

  /** What is acknowledged lasts: after a step that changed the table and saved it, a crash and a start that can read
      the store bring every record back, in order; only its schedule has lost what lies below a millisecond, and a
      record that is enabled without a next run is planned. */
  lemma AcknowledgedLasts(tick: Ticker, s: State, step: Step, now: int, renamed: bool, i: nat)
    requires Enabled(tick, s, step) && Renamed(step) && Apply(tick, s, step).jobs != s.jobs && now > 0
    ensures var s1 := Apply(tick, s, step);
            var s2 := Apply(tick, s1, Restart(true, now, renamed));
            && |s2.jobs| == |s1.jobs|
            && (i < |s1.jobs| ==>
                  var j, j2 := s1.jobs[i], s2.jobs[i];
                  && j2 == j.(schedule := j2.schedule, nextRun := j2.nextRun)
                  && (!j.schedule.Every? ==> j2.schedule == j.schedule)
                  && (j.schedule.Every? ==>
                        && j2.schedule.Every? && j2.schedule.intervalNs % 1_000_000 == 0
                        && -1_000_000 < j.schedule.intervalNs - j2.schedule.intervalNs < 1_000_000)
                  && (!j.enabled || j.nextRun > 0 ==> j2.nextRun == j.nextRun))
  {
    var s1 := Apply(tick, s, step);
    RenamedIsStored(tick, s, step);
    hide Apply, Enabled, Renamed;
    RestartLoads(tick, s1, now, renamed);
    if i < |s1.jobs| {
      EnsureMeans(tick, Persisted(s1.jobs), now, i);
    }
  }

  lemma RenamedIsStored(tick: Ticker, s: State, step: Step)
    requires Enabled(tick, s, step) && Renamed(step) && Apply(tick, s, step).jobs != s.jobs
    ensures Apply(tick, s, step).store == Persisted(Apply(tick, s, step).jobs)
  {
  }

  lemma RestartLoads(tick: Ticker, s: State, now: int, renamed: bool)
    requires now > 0
    ensures Enabled(tick, s, Restart(true, now, renamed))
    ensures Apply(tick, s, Restart(true, now, renamed)).jobs == EnsureTable(tick, s.store, now)
  {
  }

  /** Without a save that goes through the store stays what it was. */
  lemma UnsavedIsLost(tick: Ticker, s: State, step: Step)
    requires Enabled(tick, s, step) && !Renamed(step)
    ensures Apply(tick, s, step).store == s.store
  {
  }

  // ----- over runs -----

  /** A flight's record as the due check found it: enabled, and its next run not later than the check. */
  ghost predicate WasDue(s: State, step: Step, job: Job) {
    && step.CheckFire?
    && exists j :: j in s.jobs && CopyOf(job, j) && j.enabled && 0 < j.nextRun <= step.now
  }

  /** A step launches a goroutine for a due record or keeps the job of the one that is there. */
  lemma FlightOrigin(tick: Ticker, s: State, step: Step, t: nat)
    requires Enabled(tick, s, step) && t in FlightsAfter(tick, s, step)
    ensures var job := FlightsAfter(tick, s, step)[t].job;
            (t in s.flights && s.flights[t].job == job) || WasDue(s, step, job)
  {
    if step.CheckFire? && s.ticket <= t < s.ticket + |DueJobs(s.jobs, step.now)| {
      var at := DuePlaces(s.jobs, step.now);
      var k := t - s.ticket;
      assert at[k] in at;
      assert CopyOf(DueJobs(s.jobs, step.now)[k], s.jobs[at[k]]);
      assert s.jobs[at[k]] in s.jobs;
    }
  }

  /** Conversely a due check launches one goroutine for every record whose time has come. */
  lemma DueTakesOff(tick: Ticker, s: State, step: Step, i: nat) returns (t: nat)
    requires step.CheckFire? && Enabled(tick, s, step)
    requires i < |s.jobs| && s.jobs[i].enabled && 0 < s.jobs[i].nextRun <= step.now
    ensures t in FlightsAfter(tick, s, step) && FlightsAfter(tick, s, step)[t].phase.Spawned?
    ensures CopyOf(FlightsAfter(tick, s, step)[t].job, s.jobs[i])
  {
    var at := DuePlaces(s.jobs, step.now);
    assert i in at;
    var k :| 0 <= k < |at| && at[k] == i;
    t := s.ticket + k;
  }

  /** Every goroutine in any reachable state was launched by a due check of the run that found its record enabled and
      its next run not later than the check's own time. */
  lemma {:induction false} RunsFireOnTime(tick: Ticker, s: State, steps: seq<Step>, s': State, t: nat)
    returns (k: int, mid: State)
    requires Run(tick, s, steps, s') && t in s'.flights
    ensures k < 0 ==> t in s.flights && s.flights[t].job == s'.flights[t].job
    ensures k >= 0 ==> k < |steps| && Run(tick, s, steps[..k], mid) && WasDue(mid, steps[k], s'.flights[t].job)
    decreases |steps|
  {
    hide FlightsAfter, TableAfter, WasDue, Enabled;
    k, mid := -1, s;
    if steps != [] {
      var s1 := Apply(tick, s, steps[0]);
      k, mid := RunsFireOnTime(tick, s1, steps[1..], s', t);
      if k >= 0 {
        assert steps[1..][..k] == steps[1..k + 1] && steps[..k + 1][1..] == steps[1..k + 1];
        k := k + 1;
      } else {
        FlightOrigin(tick, s, steps[0], t);
        mid := s;
        if WasDue(s, steps[0], s'.flights[t].job) {
          k := 0;
        }
      }
    }
  }

  // ----- a due job can run -----

  /** While the lane has a free slot, a recurring job whose time has come can run from the due check to its release:
      one turn is had, its record notes the end, and the next run is planned from it. */
  lemma DueJobCanRun(tick: Ticker, s: State, i: nat, now: int, outcome: Status, doneMs: int)
    returns (steps: seq<Step>, s': State)
    requires Inv(tick, s) && i < |s.jobs| && s.slots < s.max && now > 0 && doneMs > 0
    requires var j := s.jobs[i];
             && j.enabled && 0 < j.nextRun <= now && j.payloadOk && !j.schedule.At? && !j.deleteAfterRun
    ensures Run(tick, s, steps, s') && |s'.jobs| == |s.jobs| && s'.slots == s.slots
    ensures Tally(s'.turns, s.jobs[i].id) == Tally(s.turns, s.jobs[i].id) + 1
    ensures var j, r := s.jobs[i], s'.jobs[i];
            && r == j.(lastRun := doneMs, status := outcome, nextRun := r.nextRun)
            && Planned(tick, j.schedule, doneMs, 0, r.nextRun)
    ensures s'.store == Persisted(s'.jobs)
  {
    var check := CheckFire(now, true);
    var t := DueTakesOff(tick, s, check, i);
    var s1 := Apply(tick, s, check);
    RunThen(tick, s, [], s, check);
    FiredKeeps(tick, s, check, i);
    var mid;
    steps, mid := SpawnedCanReturn(tick, s, [] + [check], s1, t, outcome);
    s' := FinishFlight(tick, s, steps, mid, t, i, doneMs);
    steps := steps + [WriteBack(t, doneMs, true)] + [Release(t)];
  }

  lemma FiredKeeps(tick: Ticker, s: State, step: Step, i: nat)
    requires Inv(tick, s) && step.CheckFire? && Enabled(tick, s, step) && i < |s.jobs|
    requires s.jobs[i].enabled && 0 < s.jobs[i].nextRun <= step.now && !s.jobs[i].schedule.At?
    ensures Apply(tick, s, step).jobs[i] == s.jobs[i].(nextRun := 0)
    ensures DistinctIds(Apply(tick, s, step).jobs)
  {
    FiredOk(tick, s.used, s.jobs, step.now);
    BatchIsOnTime(s.jobs, step.now);
  }

  lemma SpawnedCanReturn(tick: Ticker, s: State, before: seq<Step>, s1: State, t: nat, outcome: Status)
    returns (steps: seq<Step>, s': State)
    requires Run(tick, s, before, s1) && InPhase(s1, t, Spawned) && s1.flights[t].job.payloadOk && s1.slots < s1.max
    ensures Run(tick, s, steps, s') && s'.jobs == s1.jobs && s'.slots == s1.slots + 1
    ensures t in s'.flights && s'.flights[t] == Flight(s1.flights[t].job, Returned(outcome))
    ensures Tally(s'.turns, s1.flights[t].job.id) == Tally(s1.turns, s1.flights[t].job.id) + 1
  {
    hide Run;
    var s2 := Apply(tick, s1, Acquire(t));
    var s3 := Apply(tick, s2, StartTurn(t));
    s' := Apply(tick, s3, EndTurn(t, outcome));
    RunThen(tick, s, before, s1, Acquire(t));
    RunThen(tick, s, before + [Acquire(t)], s2, StartTurn(t));
    RunThen(tick, s, before + [Acquire(t)] + [StartTurn(t)], s3, EndTurn(t, outcome));
    steps := before + [Acquire(t)] + [StartTurn(t)] + [EndTurn(t, outcome)];
  }

  lemma FinishFlight(tick: Ticker, s: State, steps: seq<Step>, mid: State, t: nat, i: nat, doneMs: int)
    returns (s': State)
    requires Run(tick, s, steps, mid) && t in mid.flights && mid.flights[t].phase.Returned? && doneMs > 0
    requires i < |mid.jobs| && mid.jobs[i].id == mid.flights[t].job.id && DistinctIds(mid.jobs) && mid.slots > 0
    requires mid.jobs[i].nextRun == 0 && !mid.jobs[i].schedule.At? && !mid.jobs[i].deleteAfterRun
    ensures Run(tick, s, steps + [WriteBack(t, doneMs, true)] + [Release(t)], s')
    ensures |s'.jobs| == |mid.jobs| && s'.slots == mid.slots - 1 && s'.turns == mid.turns
    ensures var j, r := mid.jobs[i], s'.jobs[i];
            && r == j.(lastRun := doneMs, status := mid.flights[t].phase.outcome, nextRun := r.nextRun)
            && Planned(tick, j.schedule, doneMs, 0, r.nextRun)
    ensures s'.store == Persisted(s'.jobs)
  {
    hide Run, Planned, OthersKept;
    var id := mid.jobs[i].id;
    assert FirstWith(mid.jobs, id, i);
    WriteBackMeans(tick, mid.jobs, id, mid.flights[t].phase.outcome, doneMs, i);
    KeptLength(mid.jobs, WriteBackTable(tick, mid.jobs, id, mid.flights[t].phase.outcome, doneMs), i);
    var s1 := Apply(tick, mid, WriteBack(t, doneMs, true));
    s' := Apply(tick, s1, Release(t));
    RunThen(tick, s, steps, mid, WriteBack(t, doneMs, true));
    RunThen(tick, s, steps + [WriteBack(t, doneMs, true)], s1, Release(t));
  }

  lemma KeptLength(before: seq<Job>, after: seq<Job>, i: nat)
    ensures OthersKept(before, after, i) ==> |after| == |before|
  {
  }

  // ----- the plan every record carries -----

  function IntervalMs(ns: int): int {
    if ns > 0 then ns / NS_PER_MS else 0
  }

  /** A next run is the record's own plan: a one-shot's own time, an interval counted from no earlier than the last
      run, or a time the expression library named. */
  ghost predicate Timed(tick: Ticker, j: Job) {
    j.nextRun == 0 ||
    match j.schedule
    case At(atMs) => j.nextRun == atMs
    case Every(ns) => j.nextRun >= j.lastRun + IntervalMs(ns)
    case CronExpr(expr) => exists fromMs :: tick(expr, fromMs) == Some(j.nextRun)
  }

  /** In a table no record has run later than the clock says. */
  ghost predicate TimedTable(tick: Ticker, jobs: seq<Job>, clock: int) {
    forall j :: j in jobs ==> Timed(tick, j) && j.lastRun <= clock
  }

  ghost predicate TimedState(tick: Ticker, s: State, clock: int) {
    TimedTable(tick, s.jobs, clock) && TimedTable(tick, s.store, clock)
  }

  /** The time a step reads from its clock, if it reads one. */
  function TimeOf(step: Step): Option<int> {
    match step
    case CheckFire(now, _) => Some(now)
    case BadPayload(_, _, now, _) => Some(now)
    case WriteBack(_, doneMs, _) => Some(doneMs)
    case Add(_, _, _, now, _) => Some(now)
    case Enable(_, _, now, _) => Some(now)
    case Restart(_, now, _) => Some(now)
    case _ => None
  }

  function Later(clock: int, step: Step): int {
    if TimeOf(step).Some? then TimeOf(step).value else clock
  }

  /** The clock is never set back during the run. */
  ghost predicate Clocked(steps: seq<Step>, clock: int)
    decreases |steps|
  {
    steps == [] || (Later(clock, steps[0]) >= clock && Clocked(steps[1..], Later(clock, steps[0])))
  }

  /** Planning from no earlier than the last run keeps a record timed. */
  lemma ScheduledTimed(tick: Ticker, j: Job, fromMs: int)
    requires Timed(tick, j) || (j.schedule.Every? && j.nextRun != 0)
    requires fromMs >= j.lastRun
    ensures Timed(tick, Scheduled(tick, j, fromMs))
  {
    if j.schedule.CronExpr? && tick(j.schedule.expr, fromMs).Some? {
      assert tick(j.schedule.expr, fromMs) == Some(Scheduled(tick, j, fromMs).nextRun);
    }
  }

  lemma ReloadedTimed(tick: Ticker, j: Job)
    requires Timed(tick, j)
    ensures Timed(tick, j.(schedule := Reloaded(j.schedule)))
  {
  }

  /** What a step makes of one record keeps it timed. */
  lemma CarriedTimed(tick: Ticker, s: State, step: Step, k: Job, j: Job, clock: int)
    requires Carried(tick, s, step, k, j) && Enabled(tick, s, step)
    requires Timed(tick, k) && k.lastRun <= clock <= Later(clock, step)
    ensures Timed(tick, j) && j.lastRun <= Later(clock, step)
  {
    var now := Later(clock, step);
    match step {
      case WriteBack(t, doneMs, _) =>
        if !k.schedule.At? {
          ScheduledTimed(tick, k.(lastRun := doneMs, status := s.flights[t].phase.outcome), doneMs);
        }
      case BadPayload(_, message, _, _) =>
        ScheduledTimed(tick, k.(status := Failed(message)), now);
      case Enable(_, on, _, _) =>
        ScheduledTimed(tick, k.(enabled := true), if k.lastRun == 0 then now else k.lastRun);
      case Restart(_, _, _) =>
        ScheduledTimed(tick, k, if k.lastRun == 0 then now else k.lastRun);
      case _ =>
    }
  }

  lemma TableTimed(tick: Ticker, s: State, step: Step, clock: int)
    requires TimedState(tick, s, clock) && Enabled(tick, s, step) && Later(clock, step) >= clock >= 0
    ensures TimedTable(tick, TableAfter(tick, s, step), Later(clock, step))
  {
    hide Timed, Carried;
    var r := TableAfter(tick, s, step);
    forall j | j in r
      ensures Timed(tick, j) && j.lastRun <= Later(clock, step)
    {
      var i :| 0 <= i < |r| && r[i] == j;
      if step.Add? && i >= |s.jobs| {
        NewTimed(tick, step.id, step.sch, step.payloadOk, step.now);
      } else {
        var k := RecordOrigin(tick, s, step, i);
        assert Before(s, step)[k] in Before(s, step);
        CarriedTimed(tick, s, step, Before(s, step)[k], j, clock);
      }
    }
  }

  lemma NewTimed(tick: Ticker, id: string, sch: Schedule, payloadOk: bool, now: int)
    requires Admissible(tick, sch, now) && now > 0
    ensures Timed(tick, NewJob(tick, id, sch, payloadOk, now)) && NewJob(tick, id, sch, payloadOk, now).lastRun == 0
  {
    ScheduledTimed(tick, Job(id, true, sch, payloadOk, false, 0, 0, NoStatus), now);
  }

  lemma PersistedTimed(tick: Ticker, jobs: seq<Job>, clock: int)
    requires TimedTable(tick, jobs, clock)
    ensures TimedTable(tick, Persisted(jobs), clock)
  {
    hide Timed;
    forall j | j in Persisted(jobs)
      ensures Timed(tick, j) && j.lastRun <= clock
    {
      var i :| 0 <= i < |jobs| && Persisted(jobs)[i] == j;
      assert jobs[i] in jobs;
      ReloadedTimed(tick, jobs[i]);
    }
  }

  lemma TimedStep(tick: Ticker, s: State, step: Step, clock: int)
    requires TimedState(tick, s, clock) && Enabled(tick, s, step) && Later(clock, step) >= clock >= 0
    ensures TimedState(tick, Apply(tick, s, step), Later(clock, step))
  {
    hide Timed, TableAfter, FlightsAfter;
    TableTimed(tick, s, step, clock);
    PersistedTimed(tick, TableAfter(tick, s, step), Later(clock, step));
  }

  lemma {:induction false} RunsStayTimed(tick: Ticker, s: State, steps: seq<Step>, s': State, clock: int)
    requires Run(tick, s, steps, s') && TimedState(tick, s, clock) && clock >= 0 && Clocked(steps, clock)
    ensures exists later: int :: later >= clock && TimedState(tick, s', later)
    decreases |steps|
  {
    hide TimedState, Apply, Enabled;
    if steps != [] {
      TimedStep(tick, s, steps[0], clock);
      RunsStayTimed(tick, Apply(tick, s, steps[0]), steps[1..], s', Later(clock, steps[0]));
    }
  }

  lemma {:induction false} ClockedFront(steps: seq<Step>, clock: int, k: nat)
    requires Clocked(steps, clock) && k <= |steps|
    ensures Clocked(steps[..k], clock)
    decreases |steps|
  {
    if k > 0 {
      ClockedFront(steps[1..], Later(clock, steps[0]), k - 1);
      assert steps[..k][1..] == steps[1..][..k - 1];
    }
  }

  /** No job runs before its time, over every run whose clock is never set back: the check that launched a flight
      came no sooner than a one-shot's own time, than a whole interval after the end of the last turn on record, or
      than a time the expression library named. */
  lemma NeverEarly(tick: Ticker, s: State, steps: seq<Step>, s': State, clock: int, t: nat) returns (k: nat)
    requires Run(tick, s, steps, s') && TimedState(tick, s, clock) && clock >= 0 && Clocked(steps, clock)
    requires t in s'.flights && t !in s.flights
    ensures k < |steps| && steps[k].CheckFire?
    ensures var job, now := s'.flights[t].job, steps[k].now;
            && now >= job.nextRun > 0
            && match job.schedule
               case At(atMs) => now >= atMs
               case Every(ns) => now >= job.lastRun && (ns > 0 ==> (now - job.lastRun + 1) * NS_PER_MS > ns)
               case CronExpr(expr) => exists fromMs :: tick(expr, fromMs) == Some(job.nextRun)
  {
    hide Run;
    var at, mid := RunsFireOnTime(tick, s, steps, s', t);
    k := at;
    ClockedFront(steps, clock, k);
    RunsStayTimed(tick, s, steps[..k], mid, clock);
    var job := s'.flights[t].job;
    var j :| j in mid.jobs && CopyOf(job, j) && j.enabled && 0 < j.nextRun <= steps[k].now;
    assert Timed(tick, j);
  }
}
