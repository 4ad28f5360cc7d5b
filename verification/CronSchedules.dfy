/** Schedules of cron jobs: when a job runs next, and what saving does to a schedule. */
module CronSchedules {
  import opened Wrappers

  // An "every" interval is a Go duration (nanoseconds); an "at" time only ever
  // takes part as Unix milliseconds.
  datatype Schedule =
    | CronExpr(expr: string)
    | Every(intervalNs: int)
    | At(atMs: int)

  const NS_PER_MS := 1_000_000

  // The cron expression library, as a partial function: None is its error.
  type Ticker = (string, int) -> Option<int>

  /** computeNextScheduleRun: None is an error, Some(0) a schedule that has no next run. */
  function ComputeNext(tick: Ticker, sch: Schedule, fromMs: int): Option<int> {
    match sch
    case CronExpr(expr) => tick(expr, fromMs)
    case Every(ns) => if ns <= 0 then Some(0) else Some(fromMs + ns / NS_PER_MS)
    case At(atMs) => if atMs >= fromMs then Some(atMs) else Some(0)
  }

  /** Duration.Milliseconds truncates towards zero. */
  function Milliseconds(ns: int): int {
    if ns >= 0 then ns / NS_PER_MS else -((-ns) / NS_PER_MS)
  }

  /** The schedule that comes back from the store after marshalSchedule and unmarshalSchedule. */
  function Reloaded(sch: Schedule): Schedule {
    match sch
    case CronExpr(expr) => sch
    case Every(ns) => Every(Milliseconds(ns) * NS_PER_MS)
    case At(atMs) => sch
  }

  /** A recurring schedule whose library call never fails and always names a real time. */
  ghost predicate Live(tick: Ticker, sch: Schedule) {
    && !sch.At?
    && forall fromMs | fromMs > 0 :: Fires(tick, sch, fromMs)
  }

  predicate Fires(tick: Ticker, sch: Schedule, fromMs: int) {
    var next := ComputeNext(tick, sch, fromMs);
    next.Some? && next.value > 0
  }

  /** Saving keeps the meaning of a schedule exactly when it is not a positive interval below
      one millisecond, which comes back as an interval of zero and gives no next run. */
  lemma ReloadKeepsMeaning(sch: Schedule)
    ensures (forall tick: Ticker, fromMs: int ::
               ComputeNext(tick, Reloaded(sch), fromMs) == ComputeNext(tick, sch, fromMs))
            <==> !(sch.Every? && 0 < sch.intervalNs < NS_PER_MS)
  {
    match sch {
      case CronExpr(_) =>
      case At(_) =>
      case Every(ns) =>
        if 0 < ns < NS_PER_MS {
          var tick: Ticker := (_, _) => None;
          assert ComputeNext(tick, Reloaded(sch), 1) != ComputeNext(tick, sch, 1);
        } else if ns >= NS_PER_MS {
          assert (ns / NS_PER_MS) * NS_PER_MS / NS_PER_MS == ns / NS_PER_MS;
        }
    }
  }

  /** A schedule that is live after a reload was live before it. */
  lemma ReloadedLive(tick: Ticker, sch: Schedule)
    requires Live(tick, Reloaded(sch))
    ensures Live(tick, sch)
  {
    forall fromMs | fromMs > 0
      ensures Fires(tick, sch, fromMs)
    {
      assert Fires(tick, Reloaded(sch), fromMs);
    }
  }
}
