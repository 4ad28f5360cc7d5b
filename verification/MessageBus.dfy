/** The message bus and its close. */
module MessageBus {
  // Any number of publishers, receivers and closers, as interleaved atomic steps.

  import opened Counting

  datatype Msg = Msg(channel: string, payload: string)

  // A queued message and the publishing goroutine it came from.
  datatype Entry = Entry(from: nat, msg: Msg)

  datatype Outcome = Sent | BusClosed | CtxDone | Invalid

  // A publishing or closing goroutine. late: Close had returned to somebody before the publish started.
  datatype Thread =
    | PubEntering(inbound: bool, msg: Msg, late: bool)
    | PubSelecting(inbound: bool, msg: Msg, late: bool)  // counted in the WaitGroup
    | PubFinishing(inbound: bool, msg: Msg, outcome: Outcome, late: bool)  // counted in the WaitGroup
    | PubReturned(inbound: bool, msg: Msg, outcome: Outcome, late: bool)
    | CloseEntering
    | CloseMarking     // running the once function
    | CloseWaiting
    | CloseInbound
    | CloseOutbound
    | CloseReturned

  datatype Queue = Queue(buf: seq<Entry>, open: bool, accepted: seq<Entry>, received: seq<Entry>)

  datatype Once = Fresh | Running(t: nat) | Over

  datatype State = State(
    threads: map<nat, Thread>,
    inbound: Queue,
    outbound: Queue,
    cap: nat,
    closed: bool,
    done: bool,
    wg: nat,
    once: Once,
    ended: set<nat>,  // publishers whose context has ended
    panics: nat)   // sends on a closed queue, second closes, a negative WaitGroup

  datatype Step =
    | StartPublish(t: nat, inbound: bool, msg: Msg)
    | StartClose(t: nat)
    | EndCtx(t: nat)
    | Enter(t: nat)
    | SelectCtx(t: nat)
    | SelectDone(t: nat)
    | SelectSend(t: nat)
    | Finish(t: nat)
    | Receive(inbound: bool)
    | OnceEnter(t: nat)
    | Mark(t: nat)
    | Drained(t: nat)
    | CloseIn(t: nat)
    | CloseOut(t: nat)

  /** Trimming the channel leaves something (the message is taken as already trimmed). */
  predicate WellFormed(m: Msg) {
    m.channel != ""
  }

  function QueueOf(s: State, inbound: bool): Queue {
    if inbound then s.inbound else s.outbound
  }

  function WithQueue(s: State, inbound: bool, q: Queue): State {
    if inbound then s.(inbound := q) else s.(outbound := q)
  }

  predicate Enabled(s: State, step: Step) {
    match step
    case StartPublish(t, _, _) => t !in s.threads
    case StartClose(t) => t !in s.threads
    case Enter(t) => t in s.threads && s.threads[t].PubEntering?
    case EndCtx(_) => true
    case SelectCtx(t) => t in s.threads && s.threads[t].PubSelecting? && t in s.ended
    case SelectDone(t) => t in s.threads && s.threads[t].PubSelecting? && s.done
    case SelectSend(t) =>
      t in s.threads && s.threads[t].PubSelecting? &&
      var q := QueueOf(s, s.threads[t].inbound);
      !q.open || |q.buf| < s.cap
    case Finish(t) => t in s.threads && s.threads[t].PubFinishing?
    case Receive(inbound) => QueueOf(s, inbound).buf != []
    case OnceEnter(t) => t in s.threads && s.threads[t].CloseEntering? && !s.once.Running?
    case Mark(t) => t in s.threads && s.threads[t].CloseMarking?
    case Drained(t) => t in s.threads && s.threads[t].CloseWaiting? && s.wg == 0
    case CloseIn(t) => t in s.threads && s.threads[t].CloseInbound?
    case CloseOut(t) => t in s.threads && s.threads[t].CloseOutbound?
  }

  function Put(s: State, t: nat, th: Thread): State {
    s.(threads := s.threads[t := th])
  }

  function Finished(th: Thread, outcome: Outcome): Thread
    requires th.PubSelecting?
  {
    PubFinishing(th.inbound, th.msg, outcome, th.late)
  }

  function Shut(s: State, inbound: bool): State {
    var q := QueueOf(s, inbound);
    if q.open then WithQueue(s, inbound, q.(open := false)) else s.(panics := s.panics + 1)
  }

  function Apply(s: State, step: Step): State
    requires Enabled(s, step)
  {
    match step
    case StartPublish(t, inbound, msg) =>
      var late := s.once.Over?;
      Put(s, t, if WellFormed(msg) then PubEntering(inbound, msg, late) else PubReturned(inbound, msg, Invalid, late))
    case StartClose(t) => Put(s, t, CloseEntering)
    case Enter(t) =>
      var th := s.threads[t];
      if s.closed then Put(s, t, PubReturned(th.inbound, th.msg, BusClosed, th.late))
      else Put(s, t, PubSelecting(th.inbound, th.msg, th.late)).(wg := s.wg + 1)
    case EndCtx(t) => s.(ended := s.ended + {t})
    case SelectCtx(t) => Put(s, t, Finished(s.threads[t], CtxDone))
    case SelectDone(t) => Put(s, t, Finished(s.threads[t], BusClosed))
    case SelectSend(t) =>
      var th := s.threads[t];
      var q := QueueOf(s, th.inbound);
      if q.open then
        var e := Entry(t, th.msg);
        Put(WithQueue(s, th.inbound, q.(buf := q.buf + [e], accepted := q.accepted + [e])),
            t, Finished(th, Sent))
      else s.(panics := s.panics + 1)
    case Finish(t) =>
      var th := s.threads[t];
      if s.wg == 0 then s.(panics := s.panics + 1)
      else Put(s, t, PubReturned(th.inbound, th.msg, th.outcome, th.late)).(wg := s.wg - 1)
    case Receive(inbound) =>
      var q := QueueOf(s, inbound);
      WithQueue(s, inbound, q.(buf := q.buf[1..], received := q.received + [q.buf[0]]))
    case OnceEnter(t) =>
      if s.once.Fresh? then Put(s, t, CloseMarking).(once := Running(t)) else Put(s, t, CloseReturned)
    case Mark(t) =>
      var s1 := Put(s, t, CloseWaiting).(closed := true, done := true);
      if s.done then s1.(panics := s.panics + 1) else s1
    case Drained(t) => Put(s, t, CloseInbound)
    case CloseIn(t) => Put(Shut(s, true), t, CloseOutbound)
    case CloseOut(t) => Put(Shut(s, false), t, CloseReturned).(once := Over)
  }

  // ----- the invariant -----

  predicate InFlight(th: Thread) {
    th.PubSelecting? || th.PubFinishing?
  }

  predicate Closing(th: Thread) {
    th.CloseMarking? || th.CloseWaiting? || th.CloseInbound? || th.CloseOutbound?
  }

  ghost function Publishers(m: map<nat, Thread>): set<nat> {
    set t | t in m && InFlight(m[t])
  }

  ghost predicate QueueOk(q: Queue, cap: nat) {
    q.received + q.buf == q.accepted && |q.buf| <= cap
  }

  /** Exactly the goroutine that runs the once function is closing. */
  ghost predicate CloserOk(s: State) {
    forall t :: t in s.threads ==> (Closing(s.threads[t]) <==> s.once == Running(t))
  }

  /** The once function's progress, and what it implies for everybody else. */
  ghost predicate CloseOk(s: State) {
    && CloserOk(s)
    && (s.once.Fresh? ==> !s.closed && s.inbound.open && s.outbound.open)
    && (s.once.Running? ==> s.once.t in s.threads
                            && var th := s.threads[s.once.t];
                               && (s.closed <==> !th.CloseMarking?)
                               && (th.CloseInbound? || th.CloseOutbound? ==> s.wg == 0)
                               && (s.inbound.open <==> !th.CloseOutbound?)
                               && s.outbound.open)
    && (s.once.Over? ==> s.closed && s.wg == 0 && !s.inbound.open && !s.outbound.open)
    && (s.done <==> s.closed)
    && s.panics == 0
  }

  /** What one goroutine may be, given whether Close is through: past Close only then, and a publish that
      started afterwards is refused for being late or for being malformed. An error has its cause: the bus is
      closed, or the context has ended. */
  predicate ThreadOk(th: Thread, finished: bool, closed: bool, ended: bool) {
    && (th.CloseReturned? ==> finished)
    && (th.PubEntering? || InFlight(th) ==> WellFormed(th.msg))
    && (th.PubEntering? && th.late ==> finished)
    && (InFlight(th) ==> !th.late)
    && (th.PubFinishing? ==> th.outcome != Invalid)
    && (th.PubReturned? ==> (th.outcome == Invalid <==> !WellFormed(th.msg)))
    && (th.PubReturned? && th.late ==> th.outcome == BusClosed || th.outcome == Invalid)
    && (th.PubFinishing? || th.PubReturned? ==>
          (th.outcome == BusClosed ==> closed) && (th.outcome == CtxDone ==> ended))
  }

  predicate ThreadAllowed(s: State, t: nat)
    requires t in s.threads
  {
    ThreadOk(s.threads[t], s.once.Over?, s.closed, t in s.ended)
  }

  ghost predicate LateOk(s: State) {
    forall t :: t in s.threads ==> ThreadAllowed(s, t)
  }

  ghost predicate Inv(s: State) {
    && s.wg == |Publishers(s.threads)|
    && QueueOk(s.inbound, s.cap) && QueueOk(s.outbound, s.cap)
    && CloseOk(s) && LateOk(s)
  }

  lemma InFlightCounted(s: State, t: nat)
    requires s.wg == |Publishers(s.threads)| && t in s.threads && InFlight(s.threads[t])
    ensures s.wg > 0
  {
    assert t in Publishers(s.threads);
  }

  lemma PublishersPut(m: map<nat, Thread>, t: nat, th: Thread)
    ensures Publishers(m[t := th]) == Publishers(m) - {t} + if InFlight(th) then {t} else {}
    ensures t in Publishers(m) <==> t in m && InFlight(m[t])
  {
  }

  ghost function Selecting(m: map<nat, Thread>): set<nat> {
    set t | t in m && m[t].PubSelecting?
  }

  lemma SelectingPut(m: map<nat, Thread>, t: nat, th: Thread)
    ensures Selecting(m[t := th]) == Selecting(m) - {t} + if th.PubSelecting? then {t} else {}
    ensures t in Selecting(m) <==> t in m && m[t].PubSelecting?
  {
  }

  lemma Counts(m: map<nat, Thread>, t: nat, th: Thread)
    ensures |Selecting(m[t := th])| + One(t in m && m[t].PubSelecting?) == |Selecting(m)| + One(th.PubSelecting?)
    ensures |Publishers(m[t := th])| + One(t in m && InFlight(m[t])) == |Publishers(m)| + One(InFlight(th))
  {
    SelectingPut(m, t, th);
    PublishersPut(m, t, th);
    CardinalityWithout(Selecting(m), t);
    CardinalityWithout(Publishers(m), t);
  }

  lemma CardinalityWithout(a: set<nat>, t: nat)
    ensures |a - {t}| + One(t in a) == |a| && t !in a - {t}
  {
    if t in a {
      assert a - {t} + {t} == a;
    } else {
      assert a - {t} == a;
    }
  }

  lemma WaitGroupStep(s: State, step: Step)
    requires Inv(s) && Enabled(s, step)
    ensures Apply(s, step).wg == |Publishers(Apply(s, step).threads)|
  {
    hide QueueOk, LateOk;
    if !step.Receive? && !step.EndCtx? {
      var t, s' := step.t, Apply(s, step);
      if t in s.threads && InFlight(s.threads[t]) {
        InFlightCounted(s, t);
      }
      assert s'.threads == s.threads[t := s'.threads[t]];
      Counts(s.threads, t, s'.threads[t]);
    }
  }

  lemma QueuesStep(s: State, step: Step)
    requires Inv(s) && Enabled(s, step)
    ensures QueueOk(Apply(s, step).inbound, s.cap) && QueueOk(Apply(s, step).outbound, s.cap)
  {
    hide LateOk, Publishers;
    match step {
      case SelectSend(t) =>
        var th := s.threads[t];
        var q := QueueOf(s, th.inbound);
        var e := Entry(t, th.msg);
        assert q.received + (q.buf + [e]) == (q.received + q.buf) + [e];
      case Receive(inbound) =>
        var q := QueueOf(s, inbound);
        assert q.received + [q.buf[0]] + q.buf[1..] == q.received + q.buf;
      case _ =>
    }
  }

  lemma CloserStep(s: State, step: Step)
    requires CloseOk(s) && Enabled(s, step)
    ensures CloserOk(Apply(s, step))
  {
  }

  predicate ByCloser(step: Step) {
    step.StartClose? || step.OnceEnter? || step.Mark? || step.Drained? || step.CloseIn? || step.CloseOut?
  }

  /** Publishers and receivers leave the gate alone; the WaitGroup is counted up only before it is marked. */
  lemma GateOfPublishers(s: State, step: Step)
    requires Inv(s) && Enabled(s, step) && !ByCloser(step) && CloserOk(Apply(s, step))
    ensures CloseOk(Apply(s, step))
  {
    if !step.Receive? && !step.EndCtx? && step.t in s.threads {
      assert Closing(s.threads[step.t]) <==> s.once == Running(step.t);
      if InFlight(s.threads[step.t]) {
        InFlightCounted(s, step.t);
      }
    }
    hide QueueOk, LateOk, Publishers, CloserOk;
  }

  lemma GateOfClosers(s: State, step: Step)
    requires Inv(s) && Enabled(s, step) && ByCloser(step) && CloserOk(Apply(s, step))
    ensures CloseOk(Apply(s, step))
  {
    assert step.t in s.threads ==> (Closing(s.threads[step.t]) <==> s.once == Running(step.t));
    hide QueueOk, LateOk, Publishers, CloserOk;
  }

  lemma CloseStep(s: State, step: Step)
    requires Inv(s) && Enabled(s, step)
    ensures CloseOk(Apply(s, step))
  {
    hide Apply, CloserOk, QueueOk, LateOk, Publishers;
    CloserStep(s, step);
    if ByCloser(step) {
      GateOfClosers(s, step);
    } else {
      GateOfPublishers(s, step);
    }
  }

  /** No step undoes the once function, the close, or the end of a context. */
  lemma FlagsGrow(s: State, step: Step)
    requires CloseOk(s) && Enabled(s, step)
    ensures (s.once.Over? ==> Apply(s, step).once.Over?) && (s.closed ==> Apply(s, step).closed)
    ensures s.ended <= Apply(s, step).ended
  {
  }

  /** The goroutine a step moves stays as it may be, and so do the others. */
  lemma LateMover(s: State, step: Step)
    requires CloseOk(s) && LateOk(s) && Enabled(s, step) && !step.Receive? && !step.EndCtx?
    ensures step.t in Apply(s, step).threads && ThreadAllowed(Apply(s, step), step.t)
  {
    assert step.t in s.threads ==> ThreadAllowed(s, step.t);
    hide LateOk;
  }

  lemma LateOther(s: State, step: Step, t: nat)
    requires LateOk(s) && Enabled(s, step) && t in Apply(s, step).threads
    requires step.Receive? || step.EndCtx? || t != step.t
    ensures t in s.threads && Apply(s, step).threads[t] == s.threads[t] && ThreadAllowed(s, t)
  {
    hide ThreadOk;
  }

  lemma LateThread(s: State, step: Step, t: nat)
    requires CloseOk(s) && LateOk(s) && Enabled(s, step) && t in Apply(s, step).threads
    ensures ThreadAllowed(Apply(s, step), t)
  {
    hide LateOk, CloseOk, Apply, Enabled;
    if step.Receive? || step.EndCtx? || t != step.t {
      FlagsGrow(s, step);
      LateOther(s, step, t);
    } else {
      LateMover(s, step);
    }
  }

  lemma LateStep(s: State, step: Step)
    requires Inv(s) && Enabled(s, step)
    ensures LateOk(Apply(s, step))
  {
    hide QueueOk, Publishers, CloseOk, Apply, Enabled;
    forall t | t in Apply(s, step).threads
      ensures ThreadAllowed(Apply(s, step), t)
    {
      LateThread(s, step, t);
    }
  }

  lemma InvStep(s: State, step: Step)
    requires Inv(s) && Enabled(s, step)
    ensures Inv(Apply(s, step)) && Apply(s, step).cap == s.cap
  {
    hide QueueOk, LateOk, CloseOk, Publishers;
    WaitGroupStep(s, step);
    QueuesStep(s, step);
    CloseStep(s, step);
    LateStep(s, step);
  }

  // ----- whole runs -----

  ghost predicate Init(s: State) {
    var empty := Queue([], true, [], []);
    s == State(map[], empty, empty, s.cap, false, false, 0, Fresh, {}, 0)
  }

  ghost predicate Run(s: State, steps: seq<Step>, s': State)
    decreases |steps|
  {
    if steps == [] then s' == s
    else Enabled(s, steps[0]) && Run(Apply(s, steps[0]), steps[1..], s')
  }

  lemma {:induction false} RunsKeepInv(s: State, steps: seq<Step>, s': State)
    requires Inv(s) && Run(s, steps, s')
    ensures Inv(s') && s'.cap == s.cap
    decreases |steps|
  {
    if steps != [] {
      InvStep(s, steps[0]);
      RunsKeepInv(Apply(s, steps[0]), steps[1..], s');
    }
  }

  /** Over any number of publishers, receivers and closers: nobody sends on a closed queue, closes a queue
      twice or drives the WaitGroup negative; what was received followed by what is buffered is what was
      accepted, in order and within capacity. */
  lemma BusIsSafe(s: State, steps: seq<Step>, s': State)
    requires Init(s) && Run(s, steps, s')
    ensures s'.panics == 0
    ensures s'.inbound.received + s'.inbound.buf == s'.inbound.accepted && |s'.inbound.buf| <= s.cap
    ensures s'.outbound.received + s'.outbound.buf == s'.outbound.accepted && |s'.outbound.buf| <= s.cap
  {
    assert Publishers(s.threads) == {};
    RunsKeepInv(s, steps, s');
  }

  /** Once Close has returned to anybody, both queues are closed and accept nothing more, and every publish
      that started later is still at the door or has returned: ErrBusClosed if its message was well formed. */
  lemma LatePublishIsRefused(s: State, steps: seq<Step>, s': State)
    requires Init(s) && Run(s, steps, s')
    requires exists t :: t in s'.threads && s'.threads[t].CloseReturned?
    ensures !s'.inbound.open && !s'.outbound.open && forall t :: t in s'.threads ==> !InFlight(s'.threads[t])
    ensures forall t :: t in s'.threads && s'.threads[t].PubReturned? && s'.threads[t].late ==>
                          s'.threads[t].outcome == if WellFormed(s'.threads[t].msg) then BusClosed else Invalid
    ensures forall t :: t in s'.threads && s'.threads[t].PubEntering? ==>
                          Apply(s', Enter(t)).threads[t]
                          == PubReturned(s'.threads[t].inbound, s'.threads[t].msg, BusClosed, s'.threads[t].late)
  {
    assert Publishers(s.threads) == {};
    RunsKeepInv(s, steps, s');
    forall t | t in s'.threads
      ensures !InFlight(s'.threads[t])
    {
      if InFlight(s'.threads[t]) {
        InFlightCounted(s', t);
      }
    }
  }

  // ----- accepted exactly when reported -----

  /** How often this goroutine's message was accepted. */
  function Times(accepted: seq<Entry>, t: nat): nat {
    if accepted == [] then 0
    else
      var last := |accepted| - 1;
      Times(accepted[..last], t) + if accepted[last].from == t then 1 else 0
  }

  lemma TimesAppend(accepted: seq<Entry>, e: Entry, t: nat)
    ensures Times(accepted + [e], t) == Times(accepted, t) + One(e.from == t)
  {
    assert (accepted + [e])[..|accepted|] == accepted;
  }

  predicate ReportsSent(th: Thread) {
    (th.PubFinishing? || th.PubReturned?) && th.outcome == Sent
  }

  /** The queue a goroutine publishes to holds its message as often as it has been sent, the other one never. */
  ghost predicate ExactlyOnce(s: State, t: nat) {
    && Times(s.inbound.accepted, t) == One(t in s.threads && ReportsSent(s.threads[t]) && s.threads[t].inbound)
    && Times(s.outbound.accepted, t) == One(t in s.threads && ReportsSent(s.threads[t]) && !s.threads[t].inbound)
    && (t in s.threads && ReportsSent(s.threads[t]) ==>
          Carries(QueueOf(s, s.threads[t].inbound).accepted, t, s.threads[t].msg))
  }

  /** Whatever was accepted from this goroutine is this message. */
  ghost predicate Carries(accepted: seq<Entry>, t: nat, msg: Msg) {
    forall e :: e in accepted && e.from == t ==> e.msg == msg
  }

  lemma {:induction false} NeverAccepted(accepted: seq<Entry>, t: nat)
    requires Times(accepted, t) == 0
    ensures forall e :: e in accepted ==> e.from != t
  {
    if accepted != [] {
      NeverAccepted(accepted[..|accepted| - 1], t);
    }
  }

  /** A send accepts the message of the goroutine that reports it. */
  lemma SendOnce(s: State, step: Step, t: nat)
    requires ExactlyOnce(s, t) && Enabled(s, step) && step.SelectSend?
    ensures ExactlyOnce(Apply(s, step), t)
  {
    hide Times;
    var th := s.threads[step.t];
    var accepted := QueueOf(s, th.inbound).accepted;
    TimesAppend(accepted, Entry(step.t, th.msg), t);
    if step.t == t {
      NeverAccepted(accepted, t);
    }
  }

  lemma ExactlyOnceStep(s: State, step: Step, t: nat)
    requires ExactlyOnce(s, t) && Enabled(s, step)
    ensures ExactlyOnce(Apply(s, step), t)
  {
    hide Times;
    if step.SelectSend? {
      SendOnce(s, step, t);
    }
  }

  lemma {:induction false} RunsKeepExactlyOnce(s: State, steps: seq<Step>, s': State, t: nat)
    requires Inv(s) && ExactlyOnce(s, t) && Run(s, steps, s')
    ensures ExactlyOnce(s', t)
    decreases |steps|
  {
    if steps != [] {
      InvStep(s, steps[0]);
      ExactlyOnceStep(s, steps[0], t);
      RunsKeepExactlyOnce(Apply(s, steps[0]), steps[1..], s', t);
    }
  }

  /** A publish that returned nil has had its message accepted exactly once, by its own queue; one that returned an
      error, never, not even when it raced with Close or with its own context. */
  lemma PublishIsExact(s: State, steps: seq<Step>, s': State, t: nat)
    requires Init(s) && Run(s, steps, s') && t in s'.threads && s'.threads[t].PubReturned?
    ensures var th := s'.threads[t];
            && Times(QueueOf(s', th.inbound).accepted, t) == (if th.outcome == Sent then 1 else 0)
            && Times(QueueOf(s', !th.inbound).accepted, t) == 0
            && (th.outcome == Sent ==> Carries(QueueOf(s', th.inbound).accepted, t, th.msg))
  {
    assert Publishers(s.threads) == {};
    RunsKeepExactlyOnce(s, steps, s', t);
  }

  /** An error has its cause: ErrBusClosed is answered only once done is closed, the context's error only once the
      context has ended, and a validation error only for a malformed message. */
  lemma ErrorsHaveCauses(s: State, steps: seq<Step>, s': State, t: nat)
    requires Init(s) && Run(s, steps, s') && t in s'.threads && s'.threads[t].PubReturned?
    ensures s'.threads[t].outcome == BusClosed ==> s'.done
    ensures s'.threads[t].outcome == CtxDone ==> t in s'.ended
    ensures s'.threads[t].outcome == Invalid <==> s'.threads[t].msg.channel == ""
  {
    assert Publishers(s.threads) == {};
    RunsKeepInv(s, steps, s');
    assert ThreadAllowed(s', t);
  }

  // ----- publishing works -----

  /** While the bus is open and its queue has room, a new publish of a well-formed message can run to success and
      leaves that message last in the queue. */
  lemma PublishCanSucceed(s: State, t: nat, inbound: bool, msg: Msg) returns (steps: seq<Step>, s': State)
    requires Inv(s) && s.once.Fresh? && t !in s.threads && WellFormed(msg) && |QueueOf(s, inbound).buf| < s.cap
    ensures Run(s, steps, s') && s'.threads.Keys == s.threads.Keys + {t}
    ensures s'.threads[t] == PubReturned(inbound, msg, Sent, false)
    ensures QueueOf(s', inbound).buf == QueueOf(s, inbound).buf + [Entry(t, msg)]
    ensures s'.wg == s.wg
  {
    hide Publishers, LateOk, QueueOk;
    var s1 := Apply(s, StartPublish(t, inbound, msg));
    var s2 := Apply(s1, Enter(t));
    var s3 := Apply(s2, SelectSend(t));
    s' := Apply(s3, Finish(t));
    steps := [StartPublish(t, inbound, msg), Enter(t), SelectSend(t), Finish(t)];
    FourSteps(s, steps[0], steps[1], steps[2], steps[3]);
  }

  /** What was accepted can be received, closed or not: from every reachable state the receivers alone can take all
      of it, and nothing else changes. */
  lemma {:induction false} AcceptedCanBeReceived(s: State, inbound: bool) returns (steps: seq<Step>, s': State)
    requires QueueOk(QueueOf(s, inbound), s.cap)
    ensures Run(s, steps, s') && forall step :: step in steps ==> step == Receive(inbound)
    ensures QueueOf(s', inbound).received == QueueOf(s, inbound).accepted && QueueOf(s', inbound).buf == []
    ensures s' == WithQueue(s, inbound, QueueOf(s', inbound))
    decreases |QueueOf(s, inbound).buf|
  {
    if QueueOf(s, inbound).buf == [] {
      steps, s' := [], s;
    } else {
      var step := Receive(inbound);
      var rest;
      rest, s' := AcceptedCanBeReceived(Apply(s, step), inbound);
      steps := [step] + rest;
      assert steps[1..] == rest;
    }
  }

  lemma FourSteps(s: State, a: Step, b: Step, c: Step, d: Step)
    requires Enabled(s, a) && Enabled(Apply(s, a), b) && Enabled(Apply(Apply(s, a), b), c)
    requires Enabled(Apply(Apply(Apply(s, a), b), c), d)
    ensures Run(s, [a, b, c, d], Apply(Apply(Apply(Apply(s, a), b), c), d))
  {
    hide Apply, Enabled;
    assert [a, b, c, d][1..] == [b, c, d] && [b, c, d][1..] == [c, d] && [c, d][1..] == [d] && [d][1..] == [];
    var s3 := Apply(Apply(Apply(s, a), b), c);
    assert Run(s3, [d], Apply(s3, d));
    assert Run(Apply(Apply(s, a), b), [c, d], Apply(s3, d));
    assert Run(Apply(s, a), [b, c, d], Apply(s3, d));
  }

  // ----- Close finishes -----

  function StepsLeft(th: Thread): nat {
    match th
    case CloseWaiting => 3
    case CloseInbound => 2
    case CloseOutbound => 1
    case _ => 0
  }

  /** What is left to do before the running Close can return: two steps for a selecting publisher, one for
      a finishing one, and the closer's own. */
  ghost function Left(s: State): nat {
    |Selecting(s.threads)| + |Publishers(s.threads)|
    + if s.once.Running? && s.once.t in s.threads then StepsLeft(s.threads[s.once.t]) else 0
  }

  ghost predicate Drives(s: State, step: Step) {
    && !step.Receive? && !step.EndCtx? && step.t in s.threads
    && (InFlight(s.threads[step.t]) || Closing(s.threads[step.t]))
  }

  /** Once done is closed, no step of anybody adds to what is left, and every step of an in-flight
      publisher or of the closer itself takes at least one away. */
  lemma LeftDecreases(s: State, step: Step)
    requires Inv(s) && s.done && Enabled(s, step)
    ensures Left(Apply(s, step)) <= Left(s)
    ensures Drives(s, step) ==> Left(Apply(s, step)) < Left(s)
  {
    var s' := Apply(s, step);
    if !step.Receive? && !step.EndCtx? {
      var t := step.t;
      if t in s.threads && InFlight(s.threads[t]) {
        InFlightCounted(s, t);
      }
      assert s'.threads == s.threads[t := s'.threads[t]];
      Counts(s.threads, t, s'.threads[t]);
    }
  }

  /** Close cannot get stuck: while its once function is running after done was closed, some in-flight
      publisher or the closer itself has a step to take. */
  lemma CloseCanMove(s: State) returns (step: Step)
    requires Inv(s) && s.done && s.once.Running?
    ensures Enabled(s, step) && Drives(s, step)
  {
    if s.wg > 0 {
      var t :| t in Publishers(s.threads);
      step := if s.threads[t].PubSelecting? then SelectDone(t) else Finish(t);
    } else {
      var t := s.once.t;
      step := match s.threads[t]
              case CloseWaiting => Drained(t)
              case CloseInbound => CloseIn(t)
              case _ => CloseOut(t);
    }
  }

  /** From every reachable state with done closed, the steps left bound how long the drive can take:
      there is a run of at most that many steps after which Close has returned. */
  lemma {:induction false} CloseFinishes(s: State) returns (steps: seq<Step>, s': State)
    requires Inv(s) && s.done
    ensures Run(s, steps, s') && |steps| <= Left(s) && s'.once.Over?
    decreases Left(s)
  {
    if s.once.Over? {
      steps, s' := [], s;
    } else {
      var step := CloseCanMove(s);
      LeftDecreases(s, step);
      InvStep(s, step);
      var s1 := Apply(s, step);
      var rest;
      rest, s' := CloseFinishes(s1);
      steps := [step] + rest;
      assert steps[1..] == rest;
    }
  }
}
