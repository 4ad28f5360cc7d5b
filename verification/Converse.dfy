/** The turn loop of a conversation. */
module Converse {
  // Fan-in of the sources, barge-in and one turn at a time, as interleaved steps; and the tee.

  datatype Event = SpeechStart | Utterance(text: string)

  // An event and the source it came from.
  datatype Tagged = Tagged(source: nat, event: Event)

  // What each source yields before it ends by itself, and how many sinks render each reply.
  datatype Config = Config(sources: seq<seq<Event>>, sinks: nat)

  // The goroutine of one source: how many events it has taken, whether it holds the last one unsent, whether it
  // returned.
  datatype Forwarder = Forwarder(pulled: nat, held: bool, done: bool)

  // Where the loop is. Cancelling is cancelTurn before an event is handled, Draining the wait after the
  // events end, Stopping cancelTurn after the context is done.
  datatype Loop =
    | Selecting | Cancelling(event: Event) | Spawning(next: nat) | Draining | Stopping | Returned(err: bool)

  datatype Render = Render(turn: nat, sink: nat)

  // The fan-in: the context, the forwarders, the channel, and every event the loop has taken from it.
  datatype Fan = Fan(ctxDone: bool, forwarders: seq<Forwarder>, buf: seq<Tagged>, closed: bool, received: seq<Tagged>)

  // The turns: the calls made, whether the last turn's cancel function is set, how many turns are cancelled,
  // the renders that were started and those that have not returned, and the wait group.
  datatype Turns = Turns(
    loop: Loop, calls: seq<string>, live: bool, cancelled: nat, started: seq<Render>, alive: set<Render>, wg: nat)

  datatype State = State(fan: Fan, turns: Turns)

  datatype Step =
    | CtxCancel
    | Pull(i: nat) | Push(i: nat) | Quit(i: nat) | SourceEnds(i: nat) | CloseEvents
    | Receive | SeeClosed | SeeCtx | Joined | Spawn
    | RenderReturns(r: Render)

  predicate Enabled(c: Config, s: State, step: Step) {
    var fan, loop := s.fan, s.turns.loop;
    match step
    case CtxCancel => true
    case Pull(i) =>
      i < |fan.forwarders| && i < |c.sources| &&
      var f := fan.forwarders[i];
      !f.done && !f.held && f.pulled < |c.sources[i]|
    case Push(i) =>
      i < |fan.forwarders| && !fan.forwarders[i].done && fan.forwarders[i].held && |fan.buf| < |c.sources|
    case Quit(i) => i < |fan.forwarders| && !fan.forwarders[i].done && fan.forwarders[i].held && fan.ctxDone
    case SourceEnds(i) =>
      i < |fan.forwarders| && i < |c.sources| &&
      var f := fan.forwarders[i];
      !f.done && !f.held && (f.pulled == |c.sources[i]| || fan.ctxDone)
    case CloseEvents => !fan.closed && forall i :: 0 <= i < |fan.forwarders| ==> fan.forwarders[i].done
    case Receive => loop.Selecting? && fan.buf != []
    case SeeClosed => loop.Selecting? && fan.buf == [] && fan.closed
    case SeeCtx => loop.Selecting? && fan.ctxDone
    case Joined => (loop.Cancelling? || loop.Draining? || loop.Stopping?) && s.turns.wg == 0
    case Spawn => loop.Spawning?
    case RenderReturns(r) => r in s.turns.alive
  }

  /** What the steps rely on: a held event has been pulled, a turn being spawned has been called. */
  ghost predicate Sane(c: Config, s: State) {
    && |s.fan.forwarders| == |c.sources|
    && (forall i :: 0 <= i < |s.fan.forwarders| && s.fan.forwarders[i].held ==>
          0 < s.fan.forwarders[i].pulled <= |c.sources[i]|)
    && (s.turns.loop.Spawning? ==> s.turns.calls != [])
    && (s.turns.alive != {} ==> s.turns.wg > 0)
  }

  function Put(fan: Fan, i: nat, f: Forwarder): Fan
    requires i < |fan.forwarders|
  {
    fan.(forwarders := fan.forwarders[i := f])
  }

  ghost function FanAfter(c: Config, s: State, step: Step): Fan
    requires Enabled(c, s, step) && Sane(c, s)
  {
    var fan := s.fan;
    match step
    case CtxCancel => fan.(ctxDone := true)
    case Pull(i) => Put(fan, i, fan.forwarders[i].(pulled := fan.forwarders[i].pulled + 1, held := true))
    case Push(i) =>
      var f := fan.forwarders[i];
      Put(fan, i, f.(held := false)).(buf := fan.buf + [Tagged(i, c.sources[i][f.pulled - 1])])
    case Quit(i) => Put(fan, i, fan.forwarders[i].(done := true))
    case SourceEnds(i) => Put(fan, i, fan.forwarders[i].(done := true))
    case CloseEvents => fan.(closed := true)
    case Receive => fan.(buf := fan.buf[1..], received := fan.received + [fan.buf[0]])
    case _ => fan
  }

  /** cancelTurn up to its wait. */
  function TurnCancelled(t: Turns): Turns {
    t.(live := false, cancelled := if t.live then t.cancelled + 1 else t.cancelled)
  }

  ghost function TurnsAfter(c: Config, s: State, step: Step): Turns
    requires Enabled(c, s, step) && Sane(c, s)
  {
    var t := s.turns;
    match step
    case Receive => TurnCancelled(t).(loop := Cancelling(s.fan.buf[0].event))
    case SeeClosed => t.(loop := Draining)
    case SeeCtx => TurnCancelled(t).(loop := Stopping)
    case Joined =>
      (match t.loop
       case Cancelling(Utterance(text)) => t.(calls := t.calls + [text], live := true, loop := Spawning(0))
       case Cancelling(SpeechStart) => t.(loop := Selecting)
       case Draining => TurnCancelled(t).(loop := Returned(false))
       case _ => t.(loop := Returned(true)))
    case Spawn =>
      if t.loop.next < c.sinks then
        var r := Render(|t.calls| - 1, t.loop.next);
        t.(started := t.started + [r], alive := t.alive + {r}, wg := t.wg + 1, loop := Spawning(t.loop.next + 1))
      else t.(loop := Selecting)
    case RenderReturns(r) => t.(alive := t.alive - {r}, wg := t.wg - 1)
    case _ => t
  }

  ghost function Apply(c: Config, s: State, step: Step): State
    requires Enabled(c, s, step) && Sane(c, s)
  {
    State(FanAfter(c, s, step), TurnsAfter(c, s, step))
  }

  // ----- the invariant -----

  function Spawned(c: Config, t: Turns): nat {
    if t.loop.Spawning? then t.loop.next else c.sinks
  }

  /** Only renders of the last turn are alive, the wait group counts them, and the earlier turns are cancelled. */
  ghost predicate TurnsOk(c: Config, t: Turns) {
    && t.wg == |t.alive|
    && (forall r :: r in t.alive ==> r.turn + 1 == |t.calls| && r.sink < Spawned(c, t))
    && t.cancelled + (if t.live then 1 else 0) == |t.calls|
    && (t.loop.Cancelling? || t.loop.Stopping? || t.loop.Returned? ==> !t.live)
    && (t.loop.Returned? ==> t.alive == {})
    && (t.loop.Spawning? ==> |t.calls| > 0 && t.loop.next <= c.sinks)
  }

  /** The renders of one turn on the first k sinks, and of the first n turns on all of them. */
  function Row(turn: nat, k: nat): seq<Render> {
    seq(k, i requires 0 <= i < k => Render(turn, i))
  }

  function Rows(n: nat, sinks: nat): seq<Render> {
    if n == 0 then [] else Rows(n - 1, sinks) + Row(n - 1, sinks)
  }

  /** Every call so far has been rendered by every sink, each once and in order, the last one as far as it got. */
  ghost predicate StartedOk(c: Config, t: Turns) {
    if t.loop.Spawning? then
      |t.calls| > 0 && t.loop.next <= c.sinks
      && t.started == Rows(|t.calls| - 1, c.sinks) + Row(|t.calls| - 1, t.loop.next)
    else t.started == Rows(|t.calls|, c.sinks)
  }

  lemma StartedStep(c: Config, s: State, step: Step)
    requires StartedOk(c, s.turns) && Sane(c, s) && Enabled(c, s, step)
    ensures StartedOk(c, TurnsAfter(c, s, step))
  {
    var t, t' := s.turns, TurnsAfter(c, s, step);
    if step.Spawn? && t.loop.next < c.sinks {
      var turn, k := |t.calls| - 1, t.loop.next;
      assert Row(turn, k) + [Render(turn, k)] == Row(turn, k + 1);
      assert Rows(turn, c.sinks) + Row(turn, k) + [Render(turn, k)]
          == Rows(turn, c.sinks) + (Row(turn, k) + [Render(turn, k)]);
    }
    if t'.loop.Spawning? && !t.loop.Spawning? {
      assert t'.started == Rows(|t.calls|, c.sinks) + Row(|t.calls|, 0);
    }
  }

  function Texts(events: seq<Tagged>): seq<string> {
    if events == [] then []
    else
      Texts(events[..|events| - 1]) +
      match events[|events| - 1].event
      case SpeechStart => []
      case Utterance(text) => [text]
  }

  /** Every consumed utterance has had its call, in order; the event at hand is next. */
  ghost predicate CallsOk(received: seq<Tagged>, loop: Loop, calls: seq<string>) {
    if loop.Cancelling? then
      received != [] && received[|received| - 1].event == loop.event && calls == Texts(received[..|received| - 1])
    else calls == Texts(received)
  }

  /** The events of one source, in order. */
  function Of(events: seq<Tagged>, i: nat): seq<Event> {
    if events == [] then []
    else
      var last := events[|events| - 1];
      Of(events[..|events| - 1], i) + if last.source == i then [last.event] else []
  }

  /** Passed on or buffered so far is what the source yielded, except for the event its forwarder holds. */
  ghost predicate SourceOk(c: Config, fan: Fan, i: nat)
    requires i < |fan.forwarders| && i < |c.sources|
  {
    var f := fan.forwarders[i];
    && f.pulled <= |c.sources[i]| && (f.held ==> f.pulled > 0)
    && Of(fan.received + fan.buf, i) == c.sources[i][..if f.held then f.pulled - 1 else f.pulled]
    && (f.done && !fan.ctxDone ==> !f.held && f.pulled == |c.sources[i]|)
    && (fan.closed ==> f.done)
  }

  ghost predicate FanOk(c: Config, fan: Fan) {
    && |fan.forwarders| == |c.sources|
    && |fan.buf| <= |c.sources|
    && (forall i: nat :: i < |fan.forwarders| ==> SourceOk(c, fan, i))
  }

  ghost predicate Inv(c: Config, s: State) {
    && TurnsOk(c, s.turns) && StartedOk(c, s.turns)
    && CallsOk(s.fan.received, s.turns.loop, s.turns.calls) && FanOk(c, s.fan)
    && (s.turns.loop.Draining? || s.turns.loop == Returned(false) ==> s.fan.closed && s.fan.buf == [])
  }

  lemma InvSane(c: Config, s: State)
    requires Inv(c, s)
    ensures Sane(c, s)
  {
    hide CallsOk, Of;
    forall i: nat | i < |s.fan.forwarders| && s.fan.forwarders[i].held
      ensures 0 < s.fan.forwarders[i].pulled <= |c.sources[i]|
    {
      assert SourceOk(c, s.fan, i);
    }
  }

  lemma TurnsStep(c: Config, s: State, step: Step)
    requires TurnsOk(c, s.turns) && Sane(c, s) && Enabled(c, s, step)
    ensures TurnsOk(c, TurnsAfter(c, s, step))
  {
    match step {
      case Joined =>
        assert s.turns.alive == {};
      case Spawn =>
        assert Render(|s.turns.calls| - 1, s.turns.loop.next) !in s.turns.alive;
      case _ =>
    }
  }

  lemma CallsStep(c: Config, s: State, step: Step)
    requires CallsOk(s.fan.received, s.turns.loop, s.turns.calls) && Sane(c, s) && Enabled(c, s, step)
    ensures CallsOk(FanAfter(c, s, step).received, TurnsAfter(c, s, step).loop, TurnsAfter(c, s, step).calls)
  {
    match step {
      case Receive =>
        assert (s.fan.received + [s.fan.buf[0]])[..|s.fan.received|] == s.fan.received;
      case _ =>
    }
  }

  lemma OfAppend(events: seq<Tagged>, e: Tagged, i: nat)
    ensures Of(events + [e], i) == Of(events, i) + if e.source == i then [e.event] else []
  {
    assert (events + [e])[..|events|] == events;
  }

  lemma SourceStep(c: Config, s: State, step: Step, i: nat)
    requires FanOk(c, s.fan) && Sane(c, s) && Enabled(c, s, step) && i < |s.fan.forwarders|
    ensures |FanAfter(c, s, step).forwarders| == |c.sources|
    ensures SourceOk(c, FanAfter(c, s, step), i)
  {
    hide Of;
    var fan := s.fan;
    assert SourceOk(c, fan, i);
    match step {
      case Push(k) =>
        var f := fan.forwarders[k];
        var e := Tagged(k, c.sources[k][f.pulled - 1]);
        OfAppend(fan.received + fan.buf, e, i);
        assert fan.received + (fan.buf + [e]) == (fan.received + fan.buf) + [e];
        assert c.sources[k][..f.pulled - 1] + [c.sources[k][f.pulled - 1]] == c.sources[k][..f.pulled];
      case Receive =>
        assert fan.received + [fan.buf[0]] + fan.buf[1..] == fan.received + fan.buf;
      case _ =>
    }
  }

  lemma FanStep(c: Config, s: State, step: Step)
    requires FanOk(c, s.fan) && Sane(c, s) && Enabled(c, s, step)
    ensures FanOk(c, FanAfter(c, s, step))
  {
    hide SourceOk;
    forall i: nat | i < |s.fan.forwarders|
      ensures |FanAfter(c, s, step).forwarders| == |c.sources| && SourceOk(c, FanAfter(c, s, step), i)
    {
      SourceStep(c, s, step, i);
    }
  }

  lemma EndStep(c: Config, s: State, step: Step)
    requires Inv(c, s) && Sane(c, s) && Enabled(c, s, step)
    ensures var s' := Apply(c, s, step);
            s'.turns.loop.Draining? || s'.turns.loop == Returned(false) ==> s'.fan.closed && s'.fan.buf == []
  {
    hide CallsOk, TurnsOk, StartedOk;
    if step.Push? {
      assert SourceOk(c, s.fan, step.i);
    }
  }

  /** Every step keeps the invariant. */
  lemma InvStep(c: Config, s: State, step: Step)
    requires Inv(c, s) && Enabled(c, s, step)
    ensures Sane(c, s) && Inv(c, Apply(c, s, step))
  {
    hide CallsOk, TurnsOk, StartedOk, FanOk, FanAfter, TurnsAfter;
    InvSane(c, s);
    TurnsStep(c, s, step);
    StartedStep(c, s, step);
    CallsStep(c, s, step);
    FanStep(c, s, step);
    EndStep(c, s, step);
  }

  // ----- runs -----

  function Initial(c: Config): State {
    State(
      Fan(false, seq(|c.sources|, _ => Forwarder(0, false, false)), [], false, []),
      Turns(Selecting, [], false, 0, [], {}, 0))
  }

  lemma InitialOk(c: Config)
    ensures Inv(c, Initial(c))
  {
  }

  // Being sane is no restriction: every reachable state is (InvSane).
  ghost predicate Run(c: Config, s: State, steps: seq<Step>, s': State)
    decreases |steps|
  {
    if steps == [] then s' == s
    else Sane(c, s) && Enabled(c, s, steps[0]) && Run(c, Apply(c, s, steps[0]), steps[1..], s')
  }

  ghost predicate Reachable(c: Config, s: State) {
    exists steps :: Run(c, Initial(c), steps, s)
  }

  lemma {:induction false} RunsKeepInv(c: Config, s: State, steps: seq<Step>, s': State)
    requires Inv(c, s) && Run(c, s, steps, s')
    ensures Inv(c, s')
    decreases |steps|
  {
    hide Inv, Enabled, Apply, Sane;
    if steps != [] {
      InvStep(c, s, steps[0]);
      RunsKeepInv(c, Apply(c, s, steps[0]), steps[1..], s');
    }
  }

  lemma ReachableOk(c: Config, s: State)
    requires Reachable(c, s)
    ensures Inv(c, s)
  {
    hide Inv, Run, Initial;
    InitialOk(c);
    var steps :| Run(c, Initial(c), steps, s);
    RunsKeepInv(c, Initial(c), steps, s);
  }

  predicate CallsAgent(s: State, step: Step) {
    step.Joined? && s.turns.loop.Cancelling? && s.turns.loop.event.Utterance?
  }

  /** Whenever the agent is called, every render of every earlier turn has returned and every earlier turn has
      been cancelled; the call is for the utterance just consumed. */
  lemma TurnsAreSerialised(c: Config, s: State, step: Step)
    requires Reachable(c, s) && Enabled(c, s, step) && CallsAgent(s, step)
    ensures s.turns.alive == {} && s.turns.cancelled == |s.turns.calls| && !s.turns.live
    ensures s.fan.received != [] && s.fan.received[|s.fan.received| - 1].event == s.turns.loop.event
    ensures Texts(s.fan.received) == s.turns.calls + [s.turns.loop.event.text]
  {
    hide Reachable;
    ReachableOk(c, s);
  }

  /** A render that is still alive belongs to the latest turn; once the next event is taken that turn is cancelled. */
  lemma AliveRendersAreLatest(c: Config, s: State, r: Render)
    requires Reachable(c, s) && r in s.turns.alive
    ensures r.turn + 1 == |s.turns.calls| && r.sink < c.sinks && !s.turns.loop.Returned?
    ensures s.turns.loop.Cancelling? || s.turns.loop.Stopping? ==> s.turns.cancelled == |s.turns.calls|
  {
    hide Reachable;
    ReachableOk(c, s);
  }

  /** The calls are the consumed utterances, each once, in order; between events none is missing. */
  lemma CallsAreTheUtterances(c: Config, s: State)
    requires Reachable(c, s)
    ensures s.turns.calls <= Texts(s.fan.received)
    ensures !s.turns.loop.Cancelling? ==> s.turns.calls == Texts(s.fan.received)
    ensures |Texts(s.fan.received)| <= |s.turns.calls| + 1
  {
    hide Reachable;
    ReachableOk(c, s);
  }

  /** The conversation returns only with no render alive and every turn cancelled. */
  lemma ReturnsWithNoRender(c: Config, s: State)
    requires Reachable(c, s) && s.turns.loop.Returned?
    ensures s.turns.alive == {} && s.turns.cancelled == |s.turns.calls|
  {
    hide Reachable;
    ReachableOk(c, s);
  }

  lemma {:induction false} OfPrefix(a: seq<Tagged>, b: seq<Tagged>, i: nat)
    ensures Of(a, i) <= Of(a + b, i)
    decreases |b|
  {
    if b == [] {
      assert a + b == a;
    } else {
      OfPrefix(a, b[..|b| - 1], i);
      OfAppend(a + b[..|b| - 1], b[|b| - 1], i);
      assert a + b == (a + b[..|b| - 1]) + [b[|b| - 1]];
    }
  }

  /** The event stream is an order-preserving merge of prefixes of the sources, never over its capacity. */
  lemma EventsMergeTheSources(c: Config, s: State, i: nat)
    requires Reachable(c, s) && i < |c.sources|
    ensures Of(s.fan.received, i) <= c.sources[i]
    ensures |s.fan.buf| <= |c.sources|
  {
    hide Reachable;
    ReachableOk(c, s);
    assert SourceOk(c, s.fan, i);
    OfPrefix(s.fan.received, s.fan.buf, i);
  }

  /** A conversation that ends without the context being done has consumed every event of every source. */
  lemma CleanReturnConsumesAll(c: Config, s: State, i: nat)
    requires Reachable(c, s) && s.turns.loop == Returned(false) && !s.fan.ctxDone && i < |c.sources|
    ensures Of(s.fan.received, i) == c.sources[i]
    ensures s.turns.calls == Texts(s.fan.received)
  {
    hide Reachable;
    ReachableOk(c, s);
    assert SourceOk(c, s.fan, i);
    assert s.fan.received + s.fan.buf == s.fan.received;
  }

  /** Between turns every sink has been given every reply, once and in order. */
  lemma EveryCallIsRendered(c: Config, s: State)
    requires Reachable(c, s) && !s.turns.loop.Spawning?
    ensures s.turns.started == Rows(|s.turns.calls|, c.sinks)
  {
    hide Reachable;
    ReachableOk(c, s);
  }

  // ----- a conversation can end -----

  /** A bound on the steps one event may take once it is in the channel. */
  function PerEvent(c: Config): nat {
    2 * c.sinks + 6
  }

  function SourceWork(c: Config, forwarders: seq<Forwarder>, i: nat): int
    requires i < |forwarders| && i < |c.sources|
  {
    var f := forwarders[i];
    (|c.sources[i]| - f.pulled) * (PerEvent(c) + 2)
    + (if f.held then PerEvent(c) + 1 else 0) + (if f.done then 0 else 1)
  }

  function SourcesWork(c: Config, forwarders: seq<Forwarder>, n: nat): int
    requires n <= |forwarders| && n <= |c.sources|
  {
    if n == 0 then 0 else SourcesWork(c, forwarders, n - 1) + SourceWork(c, forwarders, n - 1)
  }

  function LoopWork(c: Config, loop: Loop): int {
    match loop
    case Selecting => 3
    case Cancelling(_) => 2 * c.sinks + 5
    case Spawning(next) => 2 * (c.sinks - next) + 4
    case Draining => 2
    case Stopping => 2
    case Returned(_) => 0
  }

  function Work(c: Config, s: State): int
    requires |s.fan.forwarders| == |c.sources|
  {
    SourcesWork(c, s.fan.forwarders, |c.sources|) + |s.fan.buf| * PerEvent(c) + (if s.fan.closed then 0 else 1)
    + |s.turns.alive| + LoopWork(c, s.turns.loop)
  }

  lemma {:induction false} WorkOfOthers(c: Config, a: seq<Forwarder>, b: seq<Forwarder>, n: nat)
    requires n <= |c.sources| && n <= |a| && n <= |b| && forall i :: 0 <= i < n ==> a[i] == b[i]
    ensures SourcesWork(c, a, n) == SourcesWork(c, b, n)
  {
    if n > 0 {
      WorkOfOthers(c, a, b, n - 1);
    }
  }

  lemma {:induction false} WorkOfOne(c: Config, a: seq<Forwarder>, i: nat, f: Forwarder, n: nat)
    requires i < n <= |c.sources| && n <= |a|
    ensures SourcesWork(c, a[i := f], n) - SourcesWork(c, a, n) == SourceWork(c, a[i := f], i) - SourceWork(c, a, i)
  {
    hide SourceWork;
    if i == n - 1 {
      WorkOfOthers(c, a[i := f], a, i);
    } else {
      WorkOfOne(c, a, i, f, n - 1);
      SameSource(c, a[i := f], a, n - 1);
    }
  }

  lemma SameSource(c: Config, a: seq<Forwarder>, b: seq<Forwarder>, i: nat)
    requires i < |a| && i < |b| && i < |c.sources| && a[i] == b[i]
    ensures SourceWork(c, a, i) == SourceWork(c, b, i)
  {
  }

  lemma {:induction false} WorkNotNegative(c: Config, fan: Fan, n: nat)
    requires FanOk(c, fan) && n <= |c.sources|
    ensures SourcesWork(c, fan.forwarders, n) >= 0
  {
    if n > 0 {
      WorkNotNegative(c, fan, n - 1);
      assert SourceOk(c, fan, n - 1);
      hide SourceOk, FanOk;
      NotNegative(|c.sources[n - 1]| - fan.forwarders[n - 1].pulled, PerEvent(c) + 2);
    }
  }

  lemma NotNegative(a: int, b: int)
    requires a >= 0 && b >= 0
    ensures a * b >= 0
  {
  }

  /** The steps of a conversation nobody breaks off. */
  predicate Willing(step: Step) {
    !step.CtxCancel? && !step.Quit? && !step.SeeCtx?
  }

  /** What a forwarder that has not returned can do while the channel is empty. */
  function ForwarderStep(c: Config, s: State, i: nat): Step
    requires i < |c.sources| && i < |s.fan.forwarders|
  {
    var f := s.fan.forwarders[i];
    if f.held then Push(i) else if f.pulled < |c.sources[i]| then Pull(i) else SourceEnds(i)
  }

  lemma ForwarderEnabled(c: Config, s: State, i: nat)
    requires Inv(c, s) && s.fan.buf == [] && i < |c.sources| && !s.fan.forwarders[i].done
    ensures Sane(c, s) && Enabled(c, s, ForwarderStep(c, s, i))
    ensures s.fan.forwarders[i].pulled <= |c.sources[i]|
  {
    InvSane(c, s);
    assert SourceOk(c, s.fan, i);
  }

  lemma ForwarderMoves(c: Config, s: State, i: nat) returns (step: Step)
    requires Inv(c, s) && s.fan.buf == [] && i < |c.sources| && !s.fan.forwarders[i].done
    ensures Sane(c, s) && Enabled(c, s, step) && Willing(step) && Work(c, Apply(c, s, step)) < Work(c, s)
  {
    ForwarderEnabled(c, s, i);
    hide Inv, SourcesWork, SourceWork;
    step := ForwarderStep(c, s, i);
    var f := FanAfter(c, s, step).forwarders[i];
    assert FanAfter(c, s, step).forwarders == s.fan.forwarders[i := f];
    WorkOfOne(c, s.fan.forwarders, i, f, |c.sources|);
    OneSourceWorks(c, s, i, f);
  }

  /** Each of its steps takes more off its own work than it can add to the channel's. */
  lemma OneSourceWorks(c: Config, s: State, i: nat, f: Forwarder)
    requires i < |s.fan.forwarders| && i < |c.sources| && s.fan.forwarders[i].pulled <= |c.sources[i]|
    requires !s.fan.forwarders[i].done
    requires var g := s.fan.forwarders[i];
             f == if g.held then g.(held := false)
                  else if g.pulled < |c.sources[i]| then g.(pulled := g.pulled + 1, held := true) else g.(done := true)
    ensures SourceWork(c, s.fan.forwarders[i := f], i) - SourceWork(c, s.fan.forwarders, i)
         == if s.fan.forwarders[i].held then -(PerEvent(c) + 1) else -1
  {
    var left := |c.sources[i]| - s.fan.forwarders[i].pulled;
    assert (left - 1) * (PerEvent(c) + 2) == left * (PerEvent(c) + 2) - (PerEvent(c) + 2);
  }

  /** What the loop can do outside its wait for events. */
  lemma TurnMoves(c: Config, s: State) returns (step: Step)
    requires Inv(c, s) && !s.turns.loop.Selecting? && !s.turns.loop.Returned?
    ensures Sane(c, s) && Enabled(c, s, step) && Willing(step) && Work(c, Apply(c, s, step)) < Work(c, s)
    ensures Apply(c, s, step).fan == s.fan
  {
    InvSane(c, s);
    hide CallsOk, FanOk, StartedOk;
    if s.turns.loop.Spawning? {
      step := Spawn;
      assert s.turns.loop.next < c.sinks ==> Render(|s.turns.calls| - 1, s.turns.loop.next) !in s.turns.alive;
    } else if s.turns.wg == 0 {
      step := Joined;
    } else {
      assert s.turns.alive != {};
      var r :| r in s.turns.alive;
      step := RenderReturns(r);
    }
  }

  lemma SelectingMoves(c: Config, s: State) returns (step: Step)
    requires Inv(c, s) && s.turns.loop.Selecting?
    ensures Sane(c, s) && Enabled(c, s, step) && Willing(step) && Work(c, Apply(c, s, step)) < Work(c, s)
  {
    InvSane(c, s);
    if s.fan.buf != [] {
      step := Receive;
      assert |s.fan.buf| * PerEvent(c) == (|s.fan.buf| - 1) * PerEvent(c) + PerEvent(c);
    } else if s.fan.closed {
      step := SeeClosed;
    } else if i: nat :| i < |s.fan.forwarders| && !s.fan.forwarders[i].done {
      step := ForwarderMoves(c, s, i);
    } else {
      step := CloseEvents;
    }
  }

  /** From every reachable state in which nobody broke off, the conversation can go on to its end: some run returns
      without an error, having consumed every event of every source. */
  lemma {:induction false} ConversationCanEnd(c: Config, s: State) returns (steps: seq<Step>, s': State)
    requires Inv(c, s) && !s.turns.loop.Stopping? && s.turns.loop != Returned(true)
    ensures Run(c, s, steps, s') && s'.turns.loop == Returned(false) && s'.fan.ctxDone == s.fan.ctxDone
    ensures forall step :: step in steps ==> Willing(step)
    decreases WorkLeft(c, s)
  {
    hide Inv, Work, Apply, Enabled, Sane;
    if s.turns.loop.Returned? {
      steps, s' := [], s;
    } else {
      var step;
      if s.turns.loop.Selecting? {
        step := SelectingMoves(c, s);
      } else {
        step := TurnMoves(c, s);
      }
      InvStep(c, s, step);
      StaysWilling(c, s, step);
      WorkFalls(c, s, step);
      var more;
      more, s' := ConversationCanEnd(c, Apply(c, s, step));
      steps := [step] + more;
      assert steps[1..] == more;
    }
  }

  ghost function WorkLeft(c: Config, s: State): nat
    requires Inv(c, s)
  {
    WorkNotNegative(c, s.fan, |c.sources|);
    NotNegative(|s.fan.buf|, PerEvent(c));
    Work(c, s)
  }

  lemma WorkFalls(c: Config, s: State, step: Step)
    requires Inv(c, s) && Sane(c, s) && Enabled(c, s, step) && Inv(c, Apply(c, s, step))
    requires Work(c, Apply(c, s, step)) < Work(c, s)
    ensures WorkLeft(c, Apply(c, s, step)) < WorkLeft(c, s)
  {
    hide Inv, Work, Apply, Enabled, Sane;
  }

  lemma StaysWilling(c: Config, s: State, step: Step)
    requires Sane(c, s) && Enabled(c, s, step) && Willing(step) && !s.turns.loop.Stopping? && !s.turns.loop.Returned?
    ensures Apply(c, s, step).fan.ctxDone == s.fan.ctxDone && !Apply(c, s, step).turns.loop.Stopping?
    ensures Apply(c, s, step).turns.loop != Returned(true)
  {
  }

  // ----- a conversation can be broken off -----

  /** From every state in which the loop still runs, cancelling the context can bring it to return that error,
      without another event taken. */
  lemma CancelCanEnd(c: Config, s: State) returns (steps: seq<Step>, s': State)
    requires Inv(c, s) && !s.turns.loop.Draining? && !s.turns.loop.Returned?
    ensures Run(c, s, [CtxCancel] + steps, s') && s'.turns.loop == Returned(true)
    ensures s'.fan.received == s.fan.received
  {
    hide Inv, Apply, Enabled, Sane, Work;
    InvSane(c, s);
    CtxCancelled(c, s);
    InvStep(c, s, CtxCancel);
    steps, s' := CancelledEnds(c, Apply(c, s, CtxCancel));
    assert ([CtxCancel] + steps)[1..] == steps;
  }

  lemma CtxCancelled(c: Config, s: State)
    requires Sane(c, s)
    ensures Enabled(c, s, CtxCancel) && Apply(c, s, CtxCancel) == s.(fan := s.fan.(ctxDone := true))
  {
  }

  /** A step that ends a cancelled loop keeps it cancelled and takes no event. */
  predicate Ending(s: State, s': State) {
    s'.fan == s.fan && s'.fan.ctxDone && !s'.turns.loop.Draining? && s'.turns.loop != Returned(false)
  }

  lemma EndingMoves(c: Config, s: State) returns (step: Step)
    requires Inv(c, s) && s.fan.ctxDone && !s.turns.loop.Draining? && !s.turns.loop.Returned?
    ensures Sane(c, s) && Enabled(c, s, step) && Work(c, Apply(c, s, step)) < Work(c, s)
    ensures Ending(s, Apply(c, s, step))
  {
    if s.turns.loop.Selecting? {
      InvSane(c, s);
      step := SeeCtx;
    } else {
      step := TurnMoves(c, s);
    }
  }

  lemma {:induction false} CancelledEnds(c: Config, s: State) returns (steps: seq<Step>, s': State)
    requires Inv(c, s) && s.fan.ctxDone && !s.turns.loop.Draining? && s.turns.loop != Returned(false)
    ensures Run(c, s, steps, s') && s'.turns.loop == Returned(true) && s'.fan == s.fan
    decreases WorkLeft(c, s)
  {
    hide Inv, Work, Apply, Enabled, Sane;
    if s.turns.loop.Returned? {
      steps, s' := [], s;
    } else {
      var step := EndingMoves(c, s);
      InvStep(c, s, step);
      WorkFalls(c, s, step);
      var more;
      more, s' := CancelledEnds(c, Apply(c, s, step));
      steps := [step] + more;
      assert steps[1..] == more;
    }
  }

  ghost predicate FirstDone(s: State, n: nat) {
    n <= |s.fan.forwarders| && forall i :: 0 <= i < n ==> s.fan.forwarders[i].done
  }

  /** Once the context is done no goroutine of a source is stuck: all of them can return, whatever they hold and
      however full the channel is, and the channel is closed. */
  lemma {:induction false} SourcesCanQuit(c: Config, s: State, n: nat) returns (steps: seq<Step>, s': State)
    requires Inv(c, s) && s.fan.ctxDone && FirstDone(s, n)
    ensures Run(c, s, steps, s') && Inv(c, s') && FirstDone(s', |c.sources|) && s'.fan.closed
    ensures s'.turns == s.turns && s'.fan.received == s.fan.received && s'.fan.buf == s.fan.buf
    decreases |c.sources| - n, !s.fan.closed
  {
    hide Inv, Apply, Enabled, Sane;
    SourceCount(c, s);
    if n == |c.sources| && s.fan.closed {
      steps, s' := [], s;
    } else if n < |c.sources| && s.fan.forwarders[n].done {
      steps, s' := SourcesCanQuit(c, s, n + 1);
    } else {
      var step := QuittingMoves(c, s, n);
      InvStep(c, s, step);
      var more;
      more, s' := SourcesCanQuit(c, Apply(c, s, step), if n < |c.sources| then n + 1 else n);
      steps := [step] + more;
      assert steps[1..] == more;
    }
  }

  lemma SourceCount(c: Config, s: State)
    requires Inv(c, s)
    ensures |s.fan.forwarders| == |c.sources|
  {
  }

  lemma QuittingMoves(c: Config, s: State, n: nat) returns (step: Step)
    requires Inv(c, s) && s.fan.ctxDone && FirstDone(s, n)
    requires if n < |c.sources| then !s.fan.forwarders[n].done else !s.fan.closed
    ensures Sane(c, s) && Enabled(c, s, step)
    ensures var s' := Apply(c, s, step);
            && s'.turns == s.turns && s'.fan.received == s.fan.received && s'.fan.buf == s.fan.buf && s'.fan.ctxDone
            && (if n < |c.sources| then FirstDone(s', n + 1) else FirstDone(s', n) && s'.fan.closed)
  {
    InvSane(c, s);
    step := if n == |c.sources| then CloseEvents else if s.fan.forwarders[n].held then Quit(n) else SourceEnds(n);
  }

  // ----- the tee -----

  ghost predicate EvenlyTeed<T>(input: seq<T>, outs: seq<seq<T>>) {
    && (forall i :: 0 <= i < |outs| ==> outs[i] <= input)
    && (forall i, j :: 0 <= i < j < |outs| ==> |outs[j]| <= |outs[i]| <= |outs[j]| + 1)
  }

  /** The tee; ops is how many receives and sends happen before the context is cancelled. Every output is a
      prefix of the input, lengths do not increase by index and are at most one apart; without a cancellation
      every output is the whole input. */
  method Tee<T>(input: seq<T>, n: int, ops: nat) returns (outs: seq<seq<T>>, cancelled: bool)
    ensures |outs| == if n <= 0 then 0 else n
    ensures EvenlyTeed(input, outs)
    ensures !cancelled ==> forall i :: 0 <= i < |outs| ==> outs[i] == input
    ensures n > 0 ==> (cancelled <==> ops < |input| * (n + 1) + 1)
  {
    if n <= 0 {
      return [], false;
    }
    outs := seq(n, _ => []);
    var next, left := 0, ops;
    while true
      invariant 0 <= next <= |input| && |outs| == n && left >= 0
      invariant forall i :: 0 <= i < n ==> outs[i] == input[..next]
      invariant ops == left + next * (n + 1)
      decreases |input| - next
    {
      if left == 0 {
        EnoughOps(next, |input|, n);
        return outs, true;
      }
      if next == |input| {
        return outs, false;
      }
      left := left - 1;
      var v := input[next];
      var k := 0;
      while k < n
        invariant 0 <= k <= n && |outs| == n && left >= 0
        invariant forall i :: 0 <= i < k ==> outs[i] == input[..next + 1]
        invariant forall i :: k <= i < n ==> outs[i] == input[..next]
        invariant ops == left + k + 1 + next * (n + 1)
      {
        if left == 0 {
          EnoughOps(next + 1, |input|, n);
          assert (next + 1) * (n + 1) == next * (n + 1) + n + 1;
          return outs, true;
        }
        left := left - 1;
        outs := outs[k := outs[k] + [v]];
        k := k + 1;
      }
      assert (next + 1) * (n + 1) == next * (n + 1) + n + 1;
      next := next + 1;
    }
  }

  lemma {:induction false} EnoughOps(a: nat, b: nat, n: nat)
    requires a <= b
    ensures a * (n + 1) <= b * (n + 1)
    decreases b
  {
    if a < b {
      EnoughOps(a, b - 1, n);
      assert b * (n + 1) == (b - 1) * (n + 1) + (n + 1);
    }
  }
}
