/** Jobs whose interval the store lost: one below a millisecond comes back as zero. Such a record is never
    planned again, but a next run that is already stored stays due. */
module CronIntervals {

  import opened Counting
  import opened Wrappers
  import opened CronSchedules
  import opened CronService
  import opened CronProtocol

  predicate SpentRecord(j: Job) {
    j.schedule.Every? && j.schedule.intervalNs <= 0
  }

  /** Every record of this id has an interval that is not positive. */
  ghost predicate Spent(jobs: seq<Job>, id: string) {
    forall j :: j in jobs && j.id == id ==> SpentRecord(j)
  }

  ghost predicate Planned(jobs: seq<Job>, id: string) {
    exists j :: j in jobs && j.id == id && j.nextRun > 0
  }

  /** The id is known, has no positive interval left in memory or on disk. */
  ghost predicate SpentBoth(s: State, id: string) {
    id in s.used && Spent(s.jobs, id) && Spent(s.store, id)
  }

  ghost predicate PlannedAnywhere(s: State, id: string) {
    Planned(s.jobs, id) || Planned(s.store, id)
  }

  ghost predicate FiresJob(s: State, step: Step, id: string) {
    step.CheckFire? && exists f :: f in DueJobs(s.jobs, step.now) && f.id == id
  }

  /** How many due batches of a run hold this id. */
  ghost function Firings(tick: Ticker, s: State, steps: seq<Step>, id: string): nat
    decreases |steps|
  {
    if steps == [] || !Enabled(tick, s, steps[0]) then 0
    else One(FiresJob(s, steps[0], id)) + Firings(tick, Apply(tick, s, steps[0]), steps[1..], id)
  }

  // ----- saving an interval below one millisecond -----

  /** That is the form an interval below one millisecond is stored in, and the only positive one that is. */
  lemma SpentIffBelowMillisecond(j: Job)
    requires j.schedule.Every? && j.schedule.intervalNs > 0
    ensures SpentRecord(Persisted([j])[0]) <==> j.schedule.intervalNs < NS_PER_MS
    ensures Persisted([j])[0].nextRun == j.nextRun
  {
  }

  /** Such a job, added and then reloaded, is still due at the time it was added. */
  lemma ReloadedStillDue(tick: Ticker, id: string, ns: int, payloadOk: bool, now: int, later: int)
    requires 0 < ns < NS_PER_MS && 0 < now <= later
    ensures Admissible(tick, Every(ns), now)
    ensures var table := EnsureTable(tick, Persisted([NewJob(tick, id, Every(ns), payloadOk, now)]), later);
            |table| == 1 && SpentRecord(table[0]) && table[0].nextRun == now && IsDue(table[0], later)
  {
  }

  // ----- what a step does to a spent job -----

  /** The new record is as spent as the old one, and planned only if the old one was. */
  predicate NoPlanning(k: Job, j: Job) {
    j.id == k.id && (SpentRecord(k) ==> SpentRecord(j) && (j.nextRun > 0 ==> k.nextRun > 0))
  }

  lemma CarriedPlansNothing(tick: Ticker, s: State, step: Step, k: Job, j: Job)
    requires Carried(tick, s, step, k, j)
    ensures NoPlanning(k, j)
  {
  }

  lemma PersistedPlansNothing(jobs: seq<Job>, id: string)
    requires Spent(jobs, id)
    ensures Spent(Persisted(jobs), id) && (Planned(Persisted(jobs), id) ==> Planned(jobs, id))
  {
    forall j | j in Persisted(jobs) && j.id == id
      ensures SpentRecord(j) && (j.nextRun > 0 ==> Planned(jobs, id))
    {
      var i :| 0 <= i < |jobs| && Persisted(jobs)[i] == j;
      assert jobs[i] in jobs && SpentRecord(jobs[i]);
    }
  }

  /** No step plans a spent job or gives it its interval back. */
  lemma TablePlansNothing(tick: Ticker, s: State, step: Step, id: string)
    requires Enabled(tick, s, step) && id in s.used && Spent(Before(s, step), id)
    ensures Spent(TableAfter(tick, s, step), id)
    ensures Planned(TableAfter(tick, s, step), id) ==> Planned(Before(s, step), id)
  {
    hide Carried, NoPlanning;
    var before, after := Before(s, step), TableAfter(tick, s, step);
    forall j | j in after && j.id == id
      ensures SpentRecord(j) && (j.nextRun > 0 ==> Planned(before, id))
    {
      var i :| 0 <= i < |after| && after[i] == j;
      AddedLast(tick, s, step, i, id);
      var k := RecordOrigin(tick, s, step, i);
      CarriedPlansNothing(tick, s, step, before[k], j);
      NotPlannedByThis(before, k, j, id);
    }
  }

  lemma AddedLast(tick: Ticker, s: State, step: Step, i: nat, id: string)
    requires Enabled(tick, s, step) && id in s.used
    requires i < |TableAfter(tick, s, step)| && TableAfter(tick, s, step)[i].id == id
    ensures step.Add? ==> i < |s.jobs|
  {
  }

  lemma NotPlannedByThis(before: seq<Job>, k: int, j: Job, id: string)
    requires 0 <= k < |before| && NoPlanning(before[k], j) && j.id == id && Spent(before, id)
    ensures SpentRecord(j) && (j.nextRun > 0 ==> Planned(before, id))
  {
    assert before[k] in before;
  }

  /** A due batch holds only a planned job, and leaves it unplanned in the table it saves. */
  lemma FiringUnplans(tick: Ticker, s: State, step: Step, id: string)
    requires Inv(tick, s) && Enabled(tick, s, step) && FiresJob(s, step, id)
    ensures Planned(s.jobs, id) && !Planned(TableAfter(tick, s, step), id)
  {
    var f :| f in DueJobs(s.jobs, step.now) && f.id == id;
    var at := FiredUnplanned(s.jobs, step.now, f);
    assert s.jobs[at] in s.jobs;
  }

  lemma LostCounts(tick: Ticker, s: State, step: Step, id: string)
    requires Enabled(tick, s, step)
    ensures Tally(Apply(tick, s, step).lost, id)
         == Tally(s.lost, id) + One(FiresJob(s, step, id) && !step.renamed)
  {
    hide DueJobs, TableAfter, FlightsAfter;
  }

  /** One step of a spent job: a firing uses up the plan unless its save fails, and nothing brings a plan back. */
  lemma SpentStep(tick: Ticker, s: State, step: Step, id: string)
    requires Inv(tick, s) && SpentBoth(s, id) && Enabled(tick, s, step)
    ensures var s' := Apply(tick, s, step);
            && SpentBoth(s', id)
            && Tally(s'.lost, id) >= Tally(s.lost, id)
            && One(FiresJob(s, step, id)) + One(PlannedAnywhere(s', id)) + Tally(s.lost, id)
               <= One(PlannedAnywhere(s, id)) + Tally(s'.lost, id)
            && (!PlannedAnywhere(s, id) ==>
                  !FiresJob(s, step, id) && !PlannedAnywhere(s', id) && Tally(s'.lost, id) == Tally(s.lost, id))
  {
    hide Inv, Spent, Planned, FiresJob;
    NothingSpent(id);
    TablePlansNothing(tick, s, step, id);
    PersistedPlansNothing(TableAfter(tick, s, step), id);
    LostCounts(tick, s, step, id);
    if FiresJob(s, step, id) {
      FiringUnplans(tick, s, step, id);
      FiresOnCheck(s, step, id);
    }
  }

  lemma FiresOnCheck(s: State, step: Step, id: string)
    requires FiresJob(s, step, id)
    ensures step.CheckFire?
  {
  }

  lemma NothingSpent(id: string)
    ensures Spent([], id) && !Planned([], id)
  {
  }

  // ----- whole runs -----

  /** Over every run a job whose interval is lost fires at most once more, plus once for every pre-fire save of
      it that fails; and what is still planned afterwards counts against that. */
  lemma {:induction false} SpentFiresOnceMore(tick: Ticker, s: State, steps: seq<Step>, s': State, id: string)
    requires Inv(tick, s) && SpentBoth(s, id) && Run(tick, s, steps, s')
    ensures SpentBoth(s', id)
    ensures Firings(tick, s, steps, id) + One(PlannedAnywhere(s', id)) + Tally(s.lost, id)
         <= One(PlannedAnywhere(s, id)) + Tally(s'.lost, id)
    decreases |steps|
  {
    hide Inv, SpentBoth, PlannedAnywhere, FiresJob, Apply, Enabled;
    if steps != [] {
      InvStep(tick, s, steps[0]);
      SpentStep(tick, s, steps[0], id);
      SpentFiresOnceMore(tick, Apply(tick, s, steps[0]), steps[1..], s', id);
    }
  }

  /** Once no next run is left in memory or on disk it never fires again, whatever happens. */
  lemma {:induction false} UnplannedNeverFires(tick: Ticker, s: State, steps: seq<Step>, s': State, id: string)
    requires Inv(tick, s) && SpentBoth(s, id) && !PlannedAnywhere(s, id) && Run(tick, s, steps, s')
    ensures Firings(tick, s, steps, id) == 0 && !PlannedAnywhere(s', id)
    decreases |steps|
  {
    hide Inv, SpentBoth, PlannedAnywhere, FiresJob, Apply, Enabled;
    if steps != [] {
      InvStep(tick, s, steps[0]);
      SpentStep(tick, s, steps[0], id);
      UnplannedNeverFires(tick, Apply(tick, s, steps[0]), steps[1..], s', id);
    }
  }

  /** A stored next run is enough for a firing: load the store, switch the job on, and wait for its time. */
  lemma PlannedCanFire(tick: Ticker, s: State, id: string) returns (steps: seq<Step>, s': State)
    requires Init(tick, s) && Planned(s.store, id)
    ensures Run(tick, s, steps, s') && Firings(tick, s, steps, id) > 0
  {
    hide FlightsAfter, SlotsAfter, DueJobs, EnsureTable, EnableTable, FireTable, FiresJob;
    var j :| j in s.store && j.id == id && j.nextRun > 0;
    var now := j.nextRun;
    var load, on, fire := Restart(true, now, true), Enable(id, true, now, true), CheckFire(now, true);
    var s1 := Apply(tick, s, load);
    LoadedUnchanged(tick, s.store, j, now);
    FiredOk(tick, s.used, s.store, now);
    var s2 := Apply(tick, s1, on);
    SwitchedOn(tick, s1.jobs, j, now);
    s' := Apply(tick, s2, fire);
    DueIsFired(s2, j.(enabled := true), now);
    steps := [load, on, fire];
    ThreeSteps(tick, s, load, on, fire, id);
  }

  lemma DueIsFired(s: State, j: Job, now: int)
    requires j in s.jobs && IsDue(j, now)
    ensures FiresJob(s, CheckFire(now, true), j.id)
  {
    DueComplete(s.jobs, now, j);
    assert DueCopy(j).id == j.id;
  }

  lemma LoadedUnchanged(tick: Ticker, store: seq<Job>, j: Job, now: int)
    requires j in store && j.nextRun > 0
    ensures j in EnsureTable(tick, store, now)
  {
    var i :| 0 <= i < |store| && store[i] == j;
    assert EnsureTable(tick, store, now)[i] == j;
  }

  lemma SwitchedOn(tick: Ticker, jobs: seq<Job>, j: Job, now: int)
    requires DistinctIds(jobs) && j in jobs && j.nextRun > 0
    ensures j.(enabled := true) in EnableTable(tick, jobs, j.id, true, now)
  {
    var i :| 0 <= i < |jobs| && jobs[i] == j;
    var idx := IndexOfId(jobs, j.id);
    assert jobs[idx].id == j.id;
    assert idx == i;
    assert EnableTable(tick, jobs, j.id, true, now)[i] == j.(enabled := true);
  }

  lemma ThreeSteps(tick: Ticker, s: State, a: Step, b: Step, c: Step, id: string)
    requires Enabled(tick, s, a) && Enabled(tick, Apply(tick, s, a), b)
    requires var s2 := Apply(tick, Apply(tick, s, a), b); Enabled(tick, s2, c) && FiresJob(s2, c, id)
    ensures var s3 := Apply(tick, Apply(tick, Apply(tick, s, a), b), c);
            Run(tick, s, [a, b, c], s3) && Firings(tick, s, [a, b, c], id) > 0
  {
    hide Apply, Enabled, FiresJob;
    var s1 := Apply(tick, s, a);
    var s2 := Apply(tick, s1, b);
    var s3 := Apply(tick, s2, c);
    assert [a, b, c][1..] == [b, c] && [b, c][1..] == [c] && [c][1..] == [];
    assert Run(tick, s3, [], s3) && Run(tick, s2, [c], s3) && Run(tick, s1, [b, c], s3);
    assert Firings(tick, s2, [c], id) > 0 && Firings(tick, s1, [b, c], id) > 0;
  }

  ghost predicate CanFire(tick: Ticker, s: State, id: string) {
    exists steps: seq<Step>, s': State :: Run(tick, s, steps, s') && Firings(tick, s, steps, id) > 0
  }

  /** In front of a store it wrote itself, a service ever fires a job whose interval is lost exactly when the
      store holds a next run for it. */
  lemma FiresAgainIffPlanned(tick: Ticker, s: State, id: string)
    requires Init(tick, s) && id in s.used && Spent(s.store, id)
    ensures CanFire(tick, s, id) <==> Planned(s.store, id)
  {
    hide Run, Firings, Inv;
    InitOk(tick, s, id);
    if Planned(s.store, id) {
      var steps, s' := PlannedCanFire(tick, s, id);
    } else if CanFire(tick, s, id) {
      var steps: seq<Step>, s': State :| Run(tick, s, steps, s') && Firings(tick, s, steps, id) > 0;
      UnplannedNeverFires(tick, s, steps, s', id);
      assert false;
    }
  }
}
