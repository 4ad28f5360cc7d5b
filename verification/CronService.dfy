/** The cron service's job table: every section the service runs while it holds its mutex. */
module CronService {
  import opened Wrappers
  import opened CronSchedules
  import opened Text

  datatype Status = NoStatus | RanOk | Failed(message: string)

  datatype Job = Job(
    id: string,
    enabled: bool,
    schedule: Schedule,
    payloadOk: bool,
    deleteAfterRun: bool,
    nextRun: int,
    lastRun: int,
    status: Status)

  // ----- what each locked section does to the table -----

  predicate IsDue(j: Job, now: int) {
    j.enabled && j.nextRun > 0 && now >= j.nextRun
  }

  /** The copy that is handed to the firing goroutine. */
  function DueCopy(j: Job): Job {
    if j.schedule.At? then j.(enabled := false) else j
  }

  function DueJobs(jobs: seq<Job>, now: int): seq<Job> {
    if jobs == [] then []
    else
      var last := jobs[|jobs| - 1];
      DueJobs(jobs[..|jobs| - 1], now) + if IsDue(last, now) then [DueCopy(last)] else []
  }

  function Fired(j: Job, now: int): Job {
    if IsDue(j, now) then DueCopy(j).(nextRun := 0) else j
  }

  function FireTable(jobs: seq<Job>, now: int): (r: seq<Job>)
    ensures |r| == |jobs|
    ensures forall i :: 0 <= i < |jobs| ==> r[i] == Fired(jobs[i], now)
  {
    seq(|jobs|, i requires 0 <= i < |jobs| => Fired(jobs[i], now))
  }

  /** The place of the first record with this id. */
  predicate FirstWith(jobs: seq<Job>, id: string, i: nat) {
    i < |jobs| && jobs[i].id == id && forall k :: 0 <= k < i ==> jobs[k].id != id
  }

  // ----- the due batch in its own terms -----

  /** These are the places, in table order, of exactly the enabled records whose next run has come. */
  ghost predicate Selects(jobs: seq<Job>, now: int, at: seq<nat>) {
    && (forall k :: 0 <= k < |at| ==> at[k] < |jobs|)
    && (forall k, l :: 0 <= k < l < |at| ==> at[k] < at[l])
    && (forall i: nat :: i < |jobs| ==> (i in at <==> jobs[i].enabled && 0 < jobs[i].nextRun <= now))
  }

  /** The copy that is run: a one-shot is switched off first. */
  ghost predicate CopyOf(f: Job, j: Job) {
    f == j.(enabled := !j.schedule.At?)
  }

  /** The batch holds each record whose time has come, once and in table order; those records lose their next
      run, and all others are as before. */
  ghost predicate FiredOnTime(before: seq<Job>, now: int, due: seq<Job>, after: seq<Job>) {
    && |after| == |before|
    && exists at: seq<nat> ::
         && Selects(before, now, at) && |due| == |at|
         && (forall k :: 0 <= k < |at| ==> CopyOf(due[k], before[at[k]]))
         && (forall i: nat :: i < |before| && i in at ==>
               after[i] == before[i].(enabled := !before[i].schedule.At?, nextRun := 0))
         && (forall i: nat :: i < |before| && i !in at ==> after[i] == before[i])
  }

  lemma PlacesGrow(at: seq<nat>, last: nat)
    ensures forall i :: i in at + [last] <==> i in at || i == last
  {
  }

  lemma {:induction false} DuePlaces(jobs: seq<Job>, now: int) returns (at: seq<nat>)
    ensures Selects(jobs, now, at)
    ensures |DueJobs(jobs, now)| == |at|
    ensures forall k :: 0 <= k < |at| ==> CopyOf(DueJobs(jobs, now)[k], jobs[at[k]])
  {
    at := [];
    if jobs != [] {
      var last := |jobs| - 1;
      at := DuePlaces(jobs[..last], now);
      if jobs[last].enabled && 0 < jobs[last].nextRun <= now {
        PlacesGrow(at, last);
        at := at + [last];
      }
    }
  }

  /** What CheckAndFire hands out and leaves behind, without the functions it is computed by. */
  lemma BatchIsOnTime(jobs: seq<Job>, now: int)
    ensures FiredOnTime(jobs, now, DueJobs(jobs, now), FireTable(jobs, now))
  {
    var at := DuePlaces(jobs, now);
    assert forall i: nat :: i < |jobs| ==> FireTable(jobs, now)[i] == Fired(jobs[i], now);
  }

  /** Index of the first job with this id, or -1. */
  function IndexOfId(jobs: seq<Job>, id: string): (idx: int)
    ensures -1 <= idx < |jobs|
    ensures idx >= 0 ==> jobs[idx].id == id
    ensures idx < 0 ==> forall j :: j in jobs ==> j.id != id
    ensures forall k :: 0 <= k < |jobs| && k < idx ==> jobs[k].id != id
  {
    if jobs == [] then -1
    else if jobs[0].id == id then 0
    else
      var rest := IndexOfId(jobs[1..], id);
      if rest < 0 then -1 else rest + 1
  }

  function Origin(j: Job, now: int): int {
    if j.lastRun == 0 then now else j.lastRun
  }

  /** A failed computation is logged and leaves the job as it was. */
  function Scheduled(tick: Ticker, j: Job, fromMs: int): Job {
    match ComputeNext(tick, j.schedule, fromMs)
    case None => j
    case Some(next) => j.(nextRun := next)
  }

  function Ensured(tick: Ticker, j: Job, now: int): Job {
    if !j.enabled || j.nextRun > 0 then j else Scheduled(tick, j, Origin(j, now))
  }

  function EnsureTable(tick: Ticker, jobs: seq<Job>, now: int): (r: seq<Job>)
    ensures |r| == |jobs|
    ensures forall i :: 0 <= i < |jobs| ==> r[i] == Ensured(tick, jobs[i], now)
  {
    seq(|jobs|, i requires 0 <= i < |jobs| => Ensured(tick, jobs[i], now))
  }

  function RemoveAt(jobs: seq<Job>, idx: int): seq<Job>
    requires -1 <= idx < |jobs|
  {
    if idx < 0 then jobs else jobs[..idx] + jobs[idx + 1..]
  }

  function Recorded(tick: Ticker, j: Job, outcome: Status, doneMs: int): Job {
    var ran := j.(lastRun := doneMs, status := outcome);
    if j.schedule.At? then ran.(enabled := false, nextRun := 0)
    else Scheduled(tick, ran, doneMs)
  }

  function WriteBackTable(tick: Ticker, jobs: seq<Job>, id: string, outcome: Status, doneMs: int): seq<Job> {
    var idx := IndexOfId(jobs, id);
    if idx < 0 then jobs
    else if jobs[idx].deleteAfterRun then RemoveAt(jobs, idx)
    else jobs[idx := Recorded(tick, jobs[idx], outcome, doneMs)]
  }

  function RejectTable(tick: Ticker, jobs: seq<Job>, id: string, message: string, now: int): seq<Job> {
    var idx := IndexOfId(jobs, id);
    if idx < 0 then jobs
    else jobs[idx := Scheduled(tick, jobs[idx].(status := Failed(message)), now)]
  }

  function Switched(tick: Ticker, j: Job, on: bool, now: int): Job {
    if !on then j.(enabled := false, nextRun := 0)
    else if j.nextRun == 0 then Scheduled(tick, j.(enabled := true), Origin(j, now))
    else j.(enabled := true)
  }

  function EnableTable(tick: Ticker, jobs: seq<Job>, id: string, on: bool, now: int): seq<Job> {
    var idx := IndexOfId(jobs, id);
    if idx < 0 then jobs else jobs[idx := Switched(tick, jobs[idx], on, now)]
  }

  // The zero time.Time in Unix milliseconds.
  const ZERO_TIME_MS := -62_135_596_800_000

  /** Schedule.Validate; valid is the expression library's test. */
  predicate Validates(valid: string -> bool, sch: Schedule) {
    match sch
    case CronExpr(expr) => TrimSpace(expr) != [] && valid(TrimSpace(expr))
    case Every(ns) => ns > 0
    case At(atMs) => atMs != ZERO_TIME_MS
  }

  /** Refused are a blank or invalid expression, an interval that is not positive, and the zero time. */
  lemma ValidatesMeans(valid: string -> bool, sch: Schedule)
    ensures !Validates(valid, sch) <==>
              || (sch.CronExpr? && (AllSpace(sch.expr) || !valid(TrimSpace(sch.expr))))
              || (sch.Every? && sch.intervalNs <= 0)
              || (sch.At? && sch.atMs == -62_135_596_800_000)
  {
    if sch.CronExpr? {
      BlankIsAllSpace(sch.expr);
    }
  }

  /** A job with this schedule can get into the table, whatever the expression library calls valid. */
  predicate Admissible(tick: Ticker, sch: Schedule, now: int) {
    (sch.Every? ==> sch.intervalNs > 0) && ComputeNext(tick, sch, now).Some?
  }

  function NewJob(tick: Ticker, id: string, sch: Schedule, payloadOk: bool, now: int): Job
    requires Admissible(tick, sch, now)
  {
    Job(id, true, sch, payloadOk, false, ComputeNext(tick, sch, now).value, 0, NoStatus)
  }

  /** What the store file holds for a table: every schedule in its saved form. */
  function Persisted(jobs: seq<Job>): (r: seq<Job>)
    ensures |r| == |jobs|
    ensures forall i :: 0 <= i < |jobs| ==> r[i] == jobs[i].(schedule := Reloaded(jobs[i].schedule))
  {
    seq(|jobs|, i requires 0 <= i < |jobs| => jobs[i].(schedule := Reloaded(jobs[i].schedule)))
  }

  // ----- the service object -----

  class Service {
    var jobs: seq<Job>
    var store: seq<Job>
    const tick: Ticker

    constructor (tick: Ticker, store: seq<Job>)
      ensures this.tick == tick && this.store == store && jobs == []
    {
      this.tick := tick;
      this.store := store;
      this.jobs := [];
    }

    /** Writing to a temporary file and renaming it is all or nothing. */
    method SaveAtomic(renamed: bool)
      modifies this`store
      ensures store == if renamed then Persisted(jobs) else old(store)
    {
      if renamed {
        store := Persisted(jobs);
      }
    }

    method FindJobIndex(id: string) returns (idx: int)
      ensures idx == IndexOfId(jobs, id)
    {
      idx := 0;
      while idx < |jobs|
        invariant 0 <= idx <= |jobs|
        invariant forall k :: 0 <= k < idx ==> jobs[k].id != id
      {
        if jobs[idx].id == id {
          return;
        }
        idx := idx + 1;
      }
      idx := -1;
    }

    method EnsureNextRun(now: int)
      modifies this`jobs
      ensures jobs == EnsureTable(tick, old(jobs), now)
    {
      var i := 0;
      while i < |jobs|
        invariant 0 <= i <= |jobs| == |old(jobs)|
        invariant forall k :: 0 <= k < i ==> jobs[k] == Ensured(tick, old(jobs)[k], now)
        invariant forall k :: i <= k < |jobs| ==> jobs[k] == old(jobs)[k]
      {
        var j := jobs[i];
        if j.enabled && j.nextRun <= 0 {
          var fromMs := j.lastRun;
          if fromMs == 0 {
            fromMs := now;
          }
          var next := ComputeNext(tick, j.schedule, fromMs);
          if next.Some? {
            jobs := jobs[i := j.(nextRun := next.value)];
          }
        }
        i := i + 1;
      }
    }

    /** The loop's sleep in milliseconds: it never passes the earliest pending run. */
    method NextDelay(now: int) returns (delay: int)
      ensures delay >= 1
      ensures forall j :: j in jobs && j.enabled && j.nextRun > 0 ==>
                delay <= j.nextRun - now || delay == 1 >= j.nextRun - now
      ensures (exists j :: j in jobs && j.enabled && j.nextRun > 0 && now + delay >= j.nextRun)
              || (delay == 3_600_000 && forall j :: j in jobs ==> !(j.enabled && j.nextRun > 0))
    {
      var minRem := -1;
      ghost var who := 0;
      var i := 0;
      while i < |jobs|
        invariant 0 <= i <= |jobs|
        invariant minRem >= -1
        invariant forall k :: 0 <= k < i && jobs[k].enabled && jobs[k].nextRun > 0 ==>
                    minRem >= 0 && (minRem <= jobs[k].nextRun - now || minRem == 0)
        invariant minRem >= 0 ==> 0 <= who < i && jobs[who].enabled && jobs[who].nextRun > 0
                                  && now + minRem >= jobs[who].nextRun
        invariant minRem == 0 ==> 0 <= who < i && now >= jobs[who].nextRun
        invariant minRem < 0 ==> forall k :: 0 <= k < i ==> !(jobs[k].enabled && jobs[k].nextRun > 0)
        invariant minRem > 0 ==> forall k :: 0 <= k < i && jobs[k].enabled && jobs[k].nextRun > 0 ==>
                                  jobs[k].nextRun - now >= minRem
      {
        var j := jobs[i];
        if j.enabled && j.nextRun > 0 {
          var rem := j.nextRun - now;
          if rem < 0 {
            rem := 0;
          }
          if minRem < 0 || rem < minRem {
            minRem := rem;
            who := i;
          }
        }
        i := i + 1;
      }
      if minRem < 0 {
        return 3_600_000;
      }
      if minRem == 0 {
        return 1;
      }
      return minRem;
    }

    /** The locked part of checkAndFire. */
    method CheckAndFire(now: int, renamed: bool) returns (due: seq<Job>)
      modifies this
      ensures jobs == FireTable(old(jobs), now)
      ensures due == DueJobs(old(jobs), now)
      ensures FiredOnTime(old(jobs), now, due, jobs)
      ensures store == if renamed then Persisted(jobs) else old(store)
    {
      due := [];
      var i := 0;
      while i < |jobs|
        invariant 0 <= i <= |jobs| == |old(jobs)|
        invariant store == old(store)
        invariant forall k :: 0 <= k < i ==> jobs[k] == Fired(old(jobs)[k], now)
        invariant forall k :: i <= k < |jobs| ==> jobs[k] == old(jobs)[k]
        invariant due == DueJobs(old(jobs)[..i], now)
      {
        assert old(jobs)[..i + 1][..i] == old(jobs)[..i];
        if jobs[i].enabled && jobs[i].nextRun > 0 && now >= jobs[i].nextRun {
          if jobs[i].schedule.At? {
            jobs := jobs[i := jobs[i].(enabled := false)];
          }
          due := due + [jobs[i]];
          jobs := jobs[i := jobs[i].(nextRun := 0)];
        }
        i := i + 1;
      }
      assert old(jobs)[..i] == old(jobs);
      BatchIsOnTime(old(jobs), now);
      assert jobs == FireTable(old(jobs), now);
      SaveAtomic(renamed);
    }

    /** The locked part of fire after RunTurn has returned. */
    method WriteBack(id: string, outcome: Status, doneMs: int, renamed: bool)
      modifies this
      ensures jobs == WriteBackTable(tick, old(jobs), id, outcome, doneMs)
      ensures store == if renamed then Persisted(jobs) else old(store)
    {
      var idx := FindJobIndex(id);
      if idx < 0 {
        SaveAtomic(renamed);
        return;
      }
      jobs := jobs[idx := jobs[idx].(lastRun := doneMs)];
      jobs := jobs[idx := jobs[idx].(status := outcome)];
      if jobs[idx].schedule.At? {
        jobs := jobs[idx := jobs[idx].(enabled := false, nextRun := 0)];
      }
      if jobs[idx].deleteAfterRun {
        jobs := jobs[..idx] + jobs[idx + 1..];
      } else if !jobs[idx].schedule.At? {
        var next := ComputeNext(tick, jobs[idx].schedule, jobs[idx].lastRun);
        if next.Some? {
          jobs := jobs[idx := jobs[idx].(nextRun := next.value)];
        }
      }
      SaveAtomic(renamed);
    }

    /** fire's branch for an invalid payload. */
    method Reject(id: string, message: string, now: int, renamed: bool)
      modifies this
      ensures jobs == RejectTable(tick, old(jobs), id, message, now)
      ensures store == if renamed then Persisted(jobs) else old(store)
    {
      var idx := FindJobIndex(id);
      if idx >= 0 {
        jobs := jobs[idx := jobs[idx].(status := Failed(message))];
        var next := ComputeNext(tick, jobs[idx].schedule, now);
        if next.Some? {
          jobs := jobs[idx := jobs[idx].(nextRun := next.value)];
        }
      }
      SaveAtomic(renamed);
    }

    /** The table keeps the new job even when saving it fails and the caller gets an error. */
    method AddJob(valid: string -> bool, id: string, sch: Schedule, payloadOk: bool, now: int, renamed: bool)
      returns (r: Result<Job, string>)
      modifies this
      ensures !Validates(valid, sch) ==> r == Err("cron schedule") && jobs == old(jobs) && store == old(store)
      ensures Validates(valid, sch) && ComputeNext(tick, sch, now).None? ==>
                r == Err("cron expr") && jobs == old(jobs) && store == old(store)
      ensures Validates(valid, sch) && ComputeNext(tick, sch, now).Some? ==>
                && Admissible(tick, sch, now)
                && jobs == old(jobs) + [NewJob(tick, id, sch, payloadOk, now)]
                && store == (if renamed then Persisted(jobs) else old(store))
                && r == if renamed then Ok(NewJob(tick, id, sch, payloadOk, now)) else Err("save jobs")
    {
      if !Validates(valid, sch) {
        return Err("cron schedule");
      }
      var next := ComputeNext(tick, sch, now);
      if next.None? {
        return Err("cron expr");
      }
      jobs := jobs + [Job(id, true, sch, payloadOk, false, next.value, 0, NoStatus)];
      SaveAtomic(renamed);
      if !renamed {
        return Err("save jobs");
      }
      r := Ok(jobs[|jobs| - 1]);
    }

    method RemoveJob(id: string, renamed: bool) returns (removed: bool)
      modifies this
      ensures removed <==> exists j :: j in old(jobs) && j.id == id
      ensures jobs == RemoveAt(old(jobs), IndexOfId(old(jobs), id))
      ensures !removed ==> jobs == old(jobs)
      ensures removed ==> exists i: nat :: FirstWith(old(jobs), id, i) && jobs == old(jobs)[..i] + old(jobs)[i + 1..]
      ensures store == if removed && renamed then Persisted(jobs) else old(store)
    {
      removed := false;
      var i := 0;
      while i < |jobs|
        invariant 0 <= i <= |jobs|
        invariant jobs == old(jobs) && store == old(store)
        invariant forall k :: 0 <= k < i ==> jobs[k].id != id
      {
        if jobs[i].id == id {
          assert FirstWith(old(jobs), id, i);
          jobs := jobs[..i] + jobs[i + 1..];
          SaveAtomic(renamed);
          removed := true;
          return;
        }
        i := i + 1;
      }
    }

    /** Returns the job as it is after the switch. */
    method EnableJob(id: string, on: bool, now: int, renamed: bool) returns (r: Option<Job>)
      modifies this
      ensures jobs == EnableTable(tick, old(jobs), id, on, now)
      ensures r.None? ==> forall j :: j in old(jobs) ==> j.id != id
      ensures r.Some? ==> r.value.id == id && r.value in jobs && r.value.enabled == on
      ensures r == (var i := IndexOfId(old(jobs), id); if i < 0 then None else Some(jobs[i]))
      ensures store == if r.Some? && renamed then Persisted(jobs) else old(store)
    {
      r := None;
      var i := FindJobIndex(id);
      if i >= 0 {
        jobs := jobs[i := jobs[i].(enabled := on)];
        if on {
          if jobs[i].nextRun == 0 {
            var fromMs := jobs[i].lastRun;
            if fromMs == 0 {
              fromMs := now;
            }
            var next := ComputeNext(tick, jobs[i].schedule, fromMs);
            if next.Some? {
              jobs := jobs[i := jobs[i].(nextRun := next.value)];
            }
          }
        } else {
          jobs := jobs[i := jobs[i].(nextRun := 0)];
        }
        SaveAtomic(renamed);
        r := Some(jobs[i]);
      }
    }

    /** A store that cannot be read is only a warning: the table stays as it was, empty in a new service. */
    method Start(readable: bool, now: int, renamed: bool)
      modifies this
      ensures jobs == EnsureTable(tick, if readable then old(store) else old(jobs), now)
      ensures store == if renamed then Persisted(jobs) else old(store)
    {
      if readable {
        jobs := store;
      }
      EnsureNextRun(now);
      SaveAtomic(renamed);
    }
  }
}
