/** The state behind a streamed reply. */
module StreamThrottle {
  // Cooldown, throttling, the two transient messages of a Telegram stream and its final send.

  import opened Wrappers

  const MS := 1_000_000
  const STATUS_MIN_GAP := 500 * MS
  const CONTENT_MIN_GAP := 1000 * MS
  const CONTENT_DRAFT_MIN_GAP := 400 * MS
  const STATUS_HEARTBEAT := 5000 * MS
  const DRAFT_MAX_RUNES := 4096

  // ----- the API as the state sees it -----

  // The API numbers its messages from one.
  type MessageId = id: int | id != 0 witness 1

  datatype Kind = Status | Content

  datatype What =
    | Placeholder(kind: Kind, text: string) | Edit(kind: Kind, id: int, text: string) | Draft(text: string)
    | Final(text: string) | Delete(id: int)

  // A refusal may carry a delay to wait for.
  datatype Outcome = Accepted(id: MessageId) | Refused(retryAfter: Option<nat>)

  // forced marks the flush that ends the stream.
  datatype Call = Call(what: What, at: int, forced: bool, outcome: Outcome)

  // One answer for each call, in order; render is the cursor and the HTML conversion.
  datatype Config = Config(useDraft: bool, showCard: bool, render: string -> string, answers: nat -> Outcome)

  function ContentGap(c: Config): int {
    if c.useDraft then CONTENT_DRAFT_MIN_GAP else CONTENT_MIN_GAP
  }

  // ----- the state, and what every operation makes of it -----

  datatype Msg = Msg(id: int, dirty: bool, lastEdit: Option<int>)

  const NEW_MSG := Msg(0, false, None)

  datatype State = State(
    cooldown: Option<int>, status: Msg, content: Msg, text: string, error: string, tool: string, log: seq<Call>)

  const INITIAL := State(None, NEW_MSG, NEW_MSG, "", "", "", [])

  predicate InCooldown(s: State, now: int) {
    s.cooldown.Some? && now < s.cooldown.value
  }

  function Raised(cooldown: Option<int>, now: int, outcome: Outcome): Option<int> {
    match outcome
    case Refused(Some(delay)) => if cooldown.None? || now + delay > cooldown.value then Some(now + delay) else cooldown
    case _ => cooldown
  }

  function Logged(c: Config, s: State, what: What, now: int, forced: bool): State {
    s.(log := s.log + [Call(what, now, forced, c.answers(|s.log|))])
  }

  /** One call of the API, with the cooldown its refusal may set. */
  function Called(c: Config, s: State, what: What, now: int, forced: bool): State {
    Logged(c, s, what, now, forced).(cooldown := Raised(s.cooldown, now, c.answers(|s.log|)))
  }

  function Get(s: State, kind: Kind): Msg {
    if kind.Status? then s.status else s.content
  }

  function Put(s: State, kind: Kind, m: Msg): State {
    if kind.Status? then s.(status := m) else s.(content := m)
  }

  function Due(m: Msg, now: int, gap: int): bool {
    m.lastEdit.None? || now - m.lastEdit.value >= gap
  }

  function Upserted(c: Config, s: State, kind: Kind, text: string, now: int, forced: bool): State {
    var m := Get(s, kind);
    if text == "" then s
    else if InCooldown(s, now) then Put(s, kind, m.(dirty := true))
    else
      var called := Called(c, s, if m.id == 0 then Placeholder(kind, text) else Edit(kind, m.id, text), now, forced);
      match c.answers(|s.log|)
      case Refused(_) => Put(called, kind, m.(dirty := true))
      case Accepted(id) => Put(called, kind, Msg(if m.id == 0 then id else m.id, false, Some(now)))
  }

  /** A draft holds the first 4096 runes. */
  function Truncated(text: string): string {
    if |text| <= DRAFT_MAX_RUNES then text else text[..DRAFT_MAX_RUNES]
  }

  function Flushed(c: Config, s: State, now: int, force: bool): State {
    if !s.content.dirty || (!force && !Due(s.content, now, ContentGap(c))) then s
    else
      var text := if s.text == "" then "" else c.render(s.text);
      if text == "" then s.(content := s.content.(dirty := false))
      else if InCooldown(s, now) then s
      else if c.useDraft then
        var called := Called(c, s, Draft(Truncated(text)), now, force);
        if c.answers(|s.log|).Refused? then called
        else called.(content := called.content.(lastEdit := Some(now), dirty := false))
      else Upserted(c, s, Content, text, now, force)
  }

  function StatusTried(c: Config, s: State, card: string, now: int): State {
    if !c.showCard then s
    else if InCooldown(s, now) || !Due(s.status, now, STATUS_MIN_GAP) then s.(status := s.status.(dirty := true))
    else Upserted(c, s, Status, card, now, false)
  }

  function StatusTicked(c: Config, s: State, card: string, now: int): State {
    if c.showCard && s.status.dirty && Due(s.status, now, STATUS_MIN_GAP) then Upserted(c, s, Status, card, now, false)
    else s
  }

  function HeartbeatTicked(c: Config, s: State, card: string, now: int): State {
    if c.showCard && s.status.id != 0 && !s.status.dirty && Due(s.status, now, STATUS_HEARTBEAT)
    then Upserted(c, s, Status, card, now, false)
    else s
  }

  function Ticked(c: Config, s: State, card: string, now: int, force: bool): State {
    if InCooldown(s, now) then s
    else HeartbeatTicked(c, Flushed(c, StatusTicked(c, s, card, now), now, force), card, now)
  }

  datatype Event =
    | IterationStart | BlockStart(tool: Option<string>) | BlockStop | Delta(json: bool, text: string)
    | ToolStart | ToolOutput(text: string) | ToolResult | ErrorEvent(text: string) | OtherEvent

  function Handled(c: Config, s: State, event: Event, card: string, now: int): State {
    match event
    case IterationStart => StatusTried(c, s.(text := ""), card, now)
    case BlockStart(tool) => s.(tool := if tool.Some? then tool.value else "")
    case BlockStop => s.(tool := "")
    case Delta(json, text) =>
      if (json && s.tool != "") || text == "" then s
      else
        var s := s.(text := s.text + text, content := s.content.(dirty := true));
        if c.useDraft then Flushed(c, s, now, false) else s
    case ToolStart => StatusTried(c, s, card, now)
    case ToolOutput(text) => if text == "" then s else StatusTried(c, s, card, now)
    case ToolResult => StatusTried(c, s, card, now)
    case ErrorEvent(text) => StatusTried(c, s.(error := text), card, now)
    case OtherEvent => s
  }

  // ----- the end of the stream -----

  function FinalText(s: State): string {
    if s.text != "" then s.text
    else if s.error != "" then "stream failed: " + s.error
    else "agent return null"
  }

  /** When waitCooldown returns, unless it is cut short. */
  function Waited(s: State, now: int): int {
    if InCooldown(s, now) then s.cooldown.value else now
  }

  function Deleted(c: Config, s: State, id: int, now: int): State {
    if id == 0 then s else Logged(c, s, Delete(id), now, false)
  }

  /** After the final send went through, at most the two transient messages are deleted. */
  function Cleaned(c: Config, s: State, now: int): State {
    Deleted(c, Deleted(c, s, s.status.id, now), s.content.id, now)
  }

  // How the environment takes part in the end: whether each wait is cut short, and how long the first send takes.
  datatype Ending = Ending(cutFirst: bool, took: nat, cutSecond: bool)

  function Finalized(c: Config, s: State, now: int, e: Ending): (State, bool) {
    var t1 := Waited(s, now);
    if t1 > now && e.cutFirst then (s, false)
    else
      var s1, outcome := Logged(c, s, Final(FinalText(s)), t1, false), c.answers(|s.log|);
      if outcome.Accepted? then (Cleaned(c, s1, t1), true)
      else if outcome.retryAfter.None? then (s1, false)
      else
        var now2 := t1 + e.took;
        var s2 := s1.(cooldown := Raised(s1.cooldown, now2, outcome));
        var t2 := Waited(s2, now2);
        if t2 > now2 && e.cutSecond then (s2, false)
        else
          var s3 := Logged(c, s2, Final(FinalText(s)), t2, false);
          if c.answers(|s2.log|).Accepted? then (Cleaned(c, s3, t2), true) else (s3, false)
  }

  // ----- the object -----

  class StreamState {
    const config: Config
    var cooldownUntil: Option<int>
    var statusMsg: Msg
    var contentMsg: Msg
    var textBuf: string
    var streamErr: string
    var blockToolID: string
    var log: seq<Call>

    function Current(): State
      reads this
    {
      State(cooldownUntil, statusMsg, contentMsg, textBuf, streamErr, blockToolID, log)
    }

    constructor (config: Config)
      ensures this.config == config && Current() == INITIAL
    {
      this.config := config;
      cooldownUntil, statusMsg, contentMsg := None, NEW_MSG, NEW_MSG;
      textBuf, streamErr, blockToolID, log := "", "", "", [];
    }

    predicate Cooling(now: int)
      reads this
      ensures Cooling(now) == InCooldown(Current(), now)
    {
      cooldownUntil.Some? && now < cooldownUntil.value
    }

    method SetCooldown(now: int, outcome: Outcome) returns (delayed: bool)
      modifies `cooldownUntil
      ensures cooldownUntil == Raised(old(cooldownUntil), now, outcome)
      ensures delayed == (outcome.Refused? && outcome.retryAfter.Some?)
    {
      if outcome.Accepted? || outcome.retryAfter.None? {
        return false;
      }
      var until := now + outcome.retryAfter.value;
      if cooldownUntil.None? || until > cooldownUntil.value {
        cooldownUntil := Some(until);
      }
      return true;
    }

    method Invoke(what: What, now: int, forced: bool) returns (outcome: Outcome)
      modifies `log
      ensures outcome == config.answers(|old(log)|)
      ensures Current() == Logged(config, old(Current()), what, now, forced)
    {
      outcome := config.answers(|log|);
      log := log + [Call(what, now, forced, outcome)];
    }

    method UpsertMessage(kind: Kind, text: string, now: int, forced: bool) returns (ok: bool)
      modifies this
      ensures Current() == Upserted(config, old(Current()), kind, text, now, forced)
      ensures ok ==> Get(Current(), kind).lastEdit == Some(now) && !Get(Current(), kind).dirty
    {
      if text == "" {
        return false;
      }
      var sm := if kind.Status? then statusMsg else contentMsg;
      if Cooling(now) {
        Store(kind, sm.(dirty := true));
        return false;
      }
      if sm.id == 0 {
        var outcome := Invoke(Placeholder(kind, text), now, forced);
        if outcome.Refused? {
          var _ := SetCooldown(now, outcome);
          Store(kind, sm.(dirty := true));
          return false;
        }
        sm := sm.(id := outcome.id);
      } else {
        var outcome := Invoke(Edit(kind, sm.id, text), now, forced);
        if outcome.Refused? {
          var _ := SetCooldown(now, outcome);
          Store(kind, sm.(dirty := true));
          return false;
        }
      }
      Store(kind, sm.(lastEdit := Some(now), dirty := false));
      return true;
    }

    method Store(kind: Kind, m: Msg)
      modifies `statusMsg, `contentMsg
      ensures Current() == Put(old(Current()), kind, m)
    {
      if kind.Status? {
        statusMsg := m;
      } else {
        contentMsg := m;
      }
    }

    method FlushContent(now: int, force: bool)
      modifies this
      ensures Current() == Flushed(config, old(Current()), now, force)
    {
      if !contentMsg.dirty {
        return;
      }
      if !force {
        var gap := ContentGap(config);
        if contentMsg.lastEdit.Some? && now - contentMsg.lastEdit.value < gap {
          return;
        }
      }
      var text := if textBuf == "" then "" else config.render(textBuf);
      if text == "" {
        contentMsg := contentMsg.(dirty := false);
        return;
      }
      if Cooling(now) {
        contentMsg := contentMsg.(dirty := true);
        return;
      }
      if config.useDraft {
        var outcome := Invoke(Draft(Truncated(text)), now, force);
        if outcome.Refused? {
          var _ := SetCooldown(now, outcome);
          contentMsg := contentMsg.(dirty := true);
          return;
        }
      } else {
        var ok := UpsertMessage(Content, text, now, force);
        if !ok {
          return;
        }
      }
      contentMsg := contentMsg.(lastEdit := Some(now), dirty := false);
    }

    method TryUpdateStatus(card: string, now: int)
      modifies this
      ensures Current() == StatusTried(config, old(Current()), card, now)
    {
      hide Upserted;
      if !config.showCard {
        return;
      }
      if Cooling(now) {
        statusMsg := statusMsg.(dirty := true);
        return;
      }
      if statusMsg.lastEdit.Some? && now - statusMsg.lastEdit.value < STATUS_MIN_GAP {
        statusMsg := statusMsg.(dirty := true);
        return;
      }
      var _ := UpsertMessage(Status, card, now, false);
    }

    method TickFlush(card: string, now: int, forceContent: bool)
      modifies this
      ensures Current() == Ticked(config, old(Current()), card, now, forceContent)
    {
      hide Upserted, Flushed;
      if Cooling(now) {
        return;
      }
      if config.showCard && statusMsg.dirty && Due(statusMsg, now, STATUS_MIN_GAP) {
        var _ := UpsertMessage(Status, card, now, false);
      }
      FlushContent(now, forceContent);
      if config.showCard && statusMsg.id != 0 && !statusMsg.dirty && Due(statusMsg, now, STATUS_HEARTBEAT) {
        var _ := UpsertMessage(Status, card, now, false);
      }
    }

    method HandleEvent(event: Event, card: string, now: int)
      modifies this
      ensures Current() == Handled(config, old(Current()), event, card, now)
    {
      hide Upserted, Flushed, StatusTried;
      match event {
        case IterationStart =>
          textBuf := "";
          TryUpdateStatus(card, now);
        case BlockStart(tool) =>
          blockToolID := if tool.Some? then tool.value else "";
        case BlockStop =>
          blockToolID := "";
        case Delta(json, text) =>
          if json && blockToolID != "" {
            return;
          }
          if text != "" {
            textBuf := textBuf + text;
            contentMsg := contentMsg.(dirty := true);
            if config.useDraft {
              FlushContent(now, false);
            }
          }
        case ToolStart =>
          TryUpdateStatus(card, now);
        case ToolOutput(text) =>
          if !config.showCard || text == "" {
            StatusOff(config, Current(), card, now);
            return;
          }
          TryUpdateStatus(card, now);
        case ToolResult =>
          TryUpdateStatus(card, now);
        case ErrorEvent(text) =>
          streamErr := text;
          TryUpdateStatus(card, now);
        case OtherEvent =>
      }
    }

    method FinalizeSend(now: int, e: Ending) returns (ok: bool)
      modifies this
      ensures (Current(), ok) == Finalized(config, old(Current()), now, e)
    {
      hide Cleaned;
      var finalText := textBuf;
      if finalText == "" {
        if streamErr != "" {
          finalText := "stream failed: " + streamErr;
        } else {
          finalText := "agent return null";
        }
      }
      var t := if Cooling(now) then cooldownUntil.value else now;
      if t > now && e.cutFirst {
        return false;
      }
      var outcome := Invoke(Final(finalText), t, false);
      if outcome.Refused? {
        var delayed := SetCooldown(t + e.took, outcome);
        if !delayed {
          return false;
        }
        t := t + e.took;
        if Cooling(t) {
          if e.cutSecond {
            return false;
          }
          t := cooldownUntil.value;
        }
        outcome := Invoke(Final(finalText), t, false);
        if outcome.Refused? {
          return false;
        }
      }
      DeleteMessages(t);
      return true;
    }

    method DeleteMessages(now: int)
      modifies `log
      ensures Current() == Cleaned(config, old(Current()), now)
    {
      if statusMsg.id != 0 {
        var _ := Invoke(Delete(statusMsg.id), now, false);
      }
      if contentMsg.id != 0 {
        var _ := Invoke(Delete(contentMsg.id), now, false);
      }
    }
  }

  lemma StatusOff(c: Config, s: State, card: string, now: int)
    ensures !c.showCard ==> StatusTried(c, s, card, now) == s
  {
  }

  // ----- the whole stream -----

  // card is the status card as it renders at that moment.
  datatype Input = Tick(at: int, card: string) | Got(event: Event, at: int, card: string)

  function Step(c: Config, s: State, input: Input): State {
    match input
    case Tick(at, card) => Ticked(c, s, card, at, false)
    case Got(event, at, card) => Handled(c, s, event, card, at)
  }

  function After(c: Config, inputs: seq<Input>): State {
    if inputs == [] then INITIAL else Step(c, After(c, inputs[..|inputs| - 1]), inputs[|inputs| - 1])
  }

  /** The state and the answer of a stream that is not cancelled while it runs. */
  function Ended(c: Config, inputs: seq<Input>, card: string, now: int, e: Ending): (State, bool) {
    Finalized(c, Ticked(c, After(c, inputs), card, now, true), now, e)
  }

  /** The text of every delta, whatever its kind. */
  function DeltaText(inputs: seq<Input>): string {
    if inputs == [] then ""
    else
      var last := inputs[|inputs| - 1];
      DeltaText(inputs[..|inputs| - 1]) + if last.Got? && last.event.Delta? then last.event.text else ""
  }

  /** A channel with streaming switched off waits for the last event and sends all of the text at once. */
  function SentWhole(c: Config, inputs: seq<Input>, now: int): (State, bool) {
    var text := DeltaText(inputs);
    if text == "" then (INITIAL, true)
    else (Logged(c, INITIAL, Final(text), now, false), c.answers(0).Accepted?)
  }

  /** With streaming off all of the text goes out in one final send, or nothing when there is none. */
  lemma WholeIsSentOnce(c: Config, inputs: seq<Input>, now: int)
    ensures var (s, ok) := SentWhole(c, inputs, now);
            && |s.log| == (if DeltaText(inputs) == "" then 0 else 1)
            && (s.log != [] ==> s.log[0].what == Final(DeltaText(inputs)))
            && (ok <==> forall call :: call in s.log ==> call.outcome.Accepted?)
  {
  }

  /** SendStream. chat is what the chat id parses to; cancelled says the context ended the select loop before the
      events did. */
  method SendStream(c: Config, hasBot: bool, chat: Option<int>, streaming: bool, inputs: seq<Input>, cancelled: bool,
      card: string, now: int, e: Ending)
    returns (st: StreamState, ok: bool)
    ensures fresh(st)
    ensures !hasBot || chat.None? ==> (st.Current(), ok) == (INITIAL, false)
    ensures hasBot && chat.Some? && !streaming ==> (st.Current(), ok) == SentWhole(c, inputs, now)
    ensures hasBot && chat.Some? && streaming && cancelled ==> (st.Current(), ok) == (After(c, inputs), false)
    ensures hasBot && chat.Some? && streaming && !cancelled ==> (st.Current(), ok) == Ended(c, inputs, card, now, e)
  {
    hide Ticked, Handled, Finalized;
    st := new StreamState(c);
    if !hasBot || chat.None? {
      return st, false;
    }
    var i := 0;
    if !streaming {
      var result := "";
      while i < |inputs|
        invariant 0 <= i <= |inputs| && result == DeltaText(inputs[..i])
      {
        assert inputs[..i + 1][..i] == inputs[..i];
        if inputs[i].Got? && inputs[i].event.Delta? {
          result := result + inputs[i].event.text;
        }
        i := i + 1;
      }
      assert inputs[..i] == inputs;
      if result == "" {
        return st, true;
      }
      var outcome := st.Invoke(Final(result), now, false);
      return st, outcome.Accepted?;
    }
    while i < |inputs|
      invariant 0 <= i <= |inputs|
      invariant fresh(st) && st.config == c && st.Current() == After(c, inputs[..i])
    {
      assert inputs[..i + 1][..i] == inputs[..i];
      match inputs[i] {
        case Tick(at, card) => st.TickFlush(card, at, false);
        case Got(event, at, card) => st.HandleEvent(event, card, at);
      }
      i := i + 1;
    }
    assert inputs[..i] == inputs;
    if cancelled {
      return st, false;
    }
    st.TickFlush(card, now, true);
    ok := st.FinalizeSend(now, e);
  }

  // ----- what every run keeps -----

  predicate Shows(call: Call, kind: Kind) {
    call.outcome.Accepted? &&
    match call.what
    case Placeholder(k, _) => k == kind
    case Edit(k, _, _) => k == kind
    case Draft(_) => kind == Content
    case _ => false
  }

  predicate Creates(call: Call, kind: Kind) {
    call.outcome.Accepted? && call.what.Placeholder? && call.what.kind == kind
  }

  function GapOf(c: Config, kind: Kind): int {
    if kind.Status? then STATUS_MIN_GAP else ContentGap(c)
  }

  /** After a refusal with a delay no message is sent, edited or drafted until the delay is over. */
  predicate Polite(log: seq<Call>) {
    forall i, j :: 0 <= i < j < |log| && !log[i].what.Delete? && !log[j].what.Delete?
      && log[i].outcome.Refused? && log[i].outcome.retryAfter.Some?
      ==> log[j].at >= log[i].at + log[i].outcome.retryAfter.value
  }

  predicate Covered(log: seq<Call>, cooldown: Option<int>) {
    forall i :: 0 <= i < |log| && log[i].outcome.Refused? && log[i].outcome.retryAfter.Some?
      ==> cooldown.Some? && log[i].at + log[i].outcome.retryAfter.value <= cooldown.value
  }

  predicate Before(log: seq<Call>, clock: int) {
    forall i :: 0 <= i < |log| ==> log[i].at <= clock
  }

  /** Successful updates of a message are its gap apart, except for the forced one that ends the stream. */
  predicate Spaced(c: Config, log: seq<Call>, kind: Kind) {
    forall i, j :: 0 <= i < j < |log| && Shows(log[i], kind) && Shows(log[j], kind) && !log[j].forced
      ==> log[j].at - log[i].at >= GapOf(c, kind)
  }

  predicate Known(log: seq<Call>, kind: Kind, lastEdit: Option<int>) {
    forall i :: 0 <= i < |log| && Shows(log[i], kind) ==> lastEdit.Some? && log[i].at <= lastEdit.value
  }

  predicate CreatedOnce(log: seq<Call>, kind: Kind) {
    forall i, j :: 0 <= i < |log| && 0 <= j < |log| && Creates(log[i], kind) && Creates(log[j], kind) ==> i == j
  }

  /** The message is the one created, and every edit of the kind addresses it. */
  predicate Owns(log: seq<Call>, kind: Kind, id: int) {
    && (forall i :: 0 <= i < |log| && Creates(log[i], kind) ==> log[i].outcome.id == id)
    && (forall i :: 0 <= i < |log| && log[i].what.Edit? && log[i].what.kind == kind ==> log[i].what.id == id && id != 0)
    && (id != 0 ==> exists i :: 0 <= i < |log| && Creates(log[i], kind))
  }

  /** While it streams it neither sends the final text nor deletes, and only content is ever forced. */
  predicate OnlyStreams(log: seq<Call>) {
    forall i :: 0 <= i < |log| ==>
      && !log[i].what.Final? && !log[i].what.Delete?
      && (log[i].forced ==> !Shows(log[i], Status))
  }

  ghost predicate KindInv(c: Config, log: seq<Call>, kind: Kind, id: int, lastEdit: Option<int>) {
    Spaced(c, log, kind) && Known(log, kind, lastEdit) && CreatedOnce(log, kind) && Owns(log, kind, id)
  }

  ghost predicate Inv(c: Config, s: State, clock: int) {
    && Polite(s.log) && Covered(s.log, s.cooldown) && Before(s.log, clock) && OnlyStreams(s.log)
    && KindInv(c, s.log, Status, s.status.id, s.status.lastEdit)
    && KindInv(c, s.log, Content, s.content.id, s.content.lastEdit)
  }

  lemma PoliteAppend(log: seq<Call>, cooldown: Option<int>, call: Call)
    requires Polite(log) && Covered(log, cooldown)
    requires !call.what.Delete? ==> cooldown.None? || call.at >= cooldown.value
    ensures Polite(log + [call])
    ensures Covered(log + [call], Raised(cooldown, call.at, call.outcome))
  {
  }

  lemma KindAppend(c: Config, log: seq<Call>, kind: Kind, m: Msg, call: Call, m': Msg)
    requires KindInv(c, log, kind, m.id, m.lastEdit) && Before(log, call.at)
    requires Shows(call, kind) && !call.forced ==> Due(m, call.at, GapOf(c, kind))
    requires m'.lastEdit == if Shows(call, kind) then Some(call.at) else m.lastEdit
    requires Creates(call, kind) ==> m.id == 0
    requires m'.id == if Creates(call, kind) then call.outcome.id else m.id
    requires call.what.Edit? && call.what.kind == kind ==> call.what.id == m.id && m.id != 0
    ensures KindInv(c, log + [call], kind, m'.id, m'.lastEdit)
  {
    SpacedAppend(c, log, kind, m, call);
    OwnsAppend(log, kind, m.id, call, m'.id);
    assert Known(log + [call], kind, m'.lastEdit);
  }

  lemma SpacedAppend(c: Config, log: seq<Call>, kind: Kind, m: Msg, call: Call)
    requires Spaced(c, log, kind) && Known(log, kind, m.lastEdit)
    requires Shows(call, kind) && !call.forced ==> Due(m, call.at, GapOf(c, kind))
    ensures Spaced(c, log + [call], kind)
  {
    hide Shows, GapOf;
  }

  lemma OwnsAppend(log: seq<Call>, kind: Kind, id: int, call: Call, id': int)
    requires CreatedOnce(log, kind) && Owns(log, kind, id)
    requires Creates(call, kind) ==> id == 0
    requires id' == if Creates(call, kind) then call.outcome.id else id
    requires call.what.Edit? && call.what.kind == kind ==> call.what.id == id && id != 0
    ensures CreatedOnce(log + [call], kind) && Owns(log + [call], kind, id')
  {
    var log' := log + [call];
    assert Creates(call, kind) ==> forall i :: 0 <= i < |log| ==> !Creates(log[i], kind);
    if id' != 0 {
      if Creates(call, kind) {
        assert Creates(log'[|log|], kind);
      } else {
        var i :| 0 <= i < |log| && Creates(log[i], kind);
        assert Creates(log'[i], kind);
      }
    }
  }

  /** What a call that streams does to the invariant. */
  lemma CallKeeps(c: Config, s: State, clock: int, call: Call, s': State)
    requires Inv(c, s, clock) && call.at >= clock && !InCooldown(s, call.at)
    requires !call.what.Final? && !call.what.Delete? && (call.forced ==> !Shows(call, Status))
    requires s'.log == s.log + [call] && s'.cooldown == Raised(s.cooldown, call.at, call.outcome)
    requires Fits(c, s, call, Status, s'.status) && Fits(c, s, call, Content, s'.content)
    ensures Inv(c, s', call.at)
  {
    hide Polite, Covered, KindInv, Shows, Creates, GapOf, Due, Raised, Before;
    BeforeLater(s.log, clock, call);
    PoliteAppend(s.log, s.cooldown, call);
    KindAppend(c, s.log, Status, s.status, call, s'.status);
    KindAppend(c, s.log, Content, s.content, call, s'.content);
  }

  lemma BeforeLater(log: seq<Call>, clock: int, call: Call)
    requires Before(log, clock) && clock <= call.at
    ensures Before(log, call.at) && Before(log + [call], call.at)
  {
  }

  /** How one call leaves the message of one kind. */
  predicate Fits(c: Config, s: State, call: Call, kind: Kind, m': Msg) {
    var m := Get(s, kind);
    && (Shows(call, kind) && !call.forced ==> Due(m, call.at, GapOf(c, kind)))
    && m'.lastEdit == (if Shows(call, kind) then Some(call.at) else m.lastEdit)
    && (Creates(call, kind) ==> m.id == 0)
    && m'.id == (if Creates(call, kind) then call.outcome.id else m.id)
    && (call.what.Edit? && call.what.kind == kind ==> call.what.id == m.id && m.id != 0)
  }

  /** Time passing and changes that touch neither the log nor the messages keep the invariant. */
  lemma QuietKeeps(c: Config, s: State, clock: int, s': State, now: int)
    requires Inv(c, s, clock) && now >= clock
    requires s'.log == s.log && s'.cooldown == s.cooldown
    requires s'.status.id == s.status.id && s'.status.lastEdit == s.status.lastEdit
    requires s'.content.id == s.content.id && s'.content.lastEdit == s.content.lastEdit
    ensures Inv(c, s', now)
  {
    hide Polite, Covered, KindInv, OnlyStreams;
  }

  lemma UpsertKeeps(c: Config, s: State, clock: int, kind: Kind, text: string, now: int, forced: bool)
    requires Inv(c, s, clock) && now >= clock
    requires Due(Get(s, kind), now, GapOf(c, kind)) || (forced && kind == Content)
    requires forced ==> kind == Content
    ensures Inv(c, Upserted(c, s, kind, text, now, forced), now)
  {
    hide Inv, Due, GapOf, Raised;
    var s' := Upserted(c, s, kind, text, now, forced);
    if text == "" || InCooldown(s, now) {
      QuietKeeps(c, s, clock, s', now);
    } else {
      var m := Get(s, kind);
      var call := Call(if m.id == 0 then Placeholder(kind, text) else Edit(kind, m.id, text), now, forced,
          c.answers(|s.log|));
      CallKeeps(c, s, clock, call, s');
    }
  }

  lemma FlushKeeps(c: Config, s: State, clock: int, now: int, force: bool)
    requires Inv(c, s, clock) && now >= clock
    ensures Inv(c, Flushed(c, s, now, force), now)
  {
    hide Inv, Raised;
    var s' := Flushed(c, s, now, force);
    var text := if s.text == "" then "" else c.render(s.text);
    if !s.content.dirty || (!force && !Due(s.content, now, ContentGap(c))) || text == "" || InCooldown(s, now) {
      QuietKeeps(c, s, clock, s', now);
    } else if c.useDraft {
      CallKeeps(c, s, clock, Call(Draft(Truncated(text)), now, force, c.answers(|s.log|)), s');
    } else {
      UpsertKeeps(c, s, clock, Content, text, now, force);
    }
  }

  lemma StatusKeeps(c: Config, s: State, clock: int, card: string, now: int)
    requires Inv(c, s, clock) && now >= clock
    ensures Inv(c, StatusTried(c, s, card, now), now)
    ensures Inv(c, StatusTicked(c, s, card, now), now)
    ensures Inv(c, HeartbeatTicked(c, s, card, now), now)
  {
    hide Inv, Upserted;
    QuietKeeps(c, s, clock, s, now);
    QuietKeeps(c, s, clock, s.(status := s.status.(dirty := true)), now);
    if Due(s.status, now, STATUS_MIN_GAP) {
      UpsertKeeps(c, s, clock, Status, card, now, false);
    }
  }

  lemma TickKeeps(c: Config, s: State, clock: int, card: string, now: int, force: bool)
    requires Inv(c, s, clock) && now >= clock
    ensures Inv(c, Ticked(c, s, card, now, force), now)
  {
    hide Inv, Upserted, Flushed, StatusTicked, HeartbeatTicked;
    if InCooldown(s, now) {
      QuietKeeps(c, s, clock, s, now);
    } else {
      StatusKeeps(c, s, clock, card, now);
      FlushKeeps(c, StatusTicked(c, s, card, now), now, now, force);
      StatusKeeps(c, Flushed(c, StatusTicked(c, s, card, now), now, force), now, card, now);
    }
  }

  lemma EventKeeps(c: Config, s: State, clock: int, event: Event, card: string, now: int)
    requires Inv(c, s, clock) && now >= clock
    ensures Inv(c, Handled(c, s, event, card, now), now)
  {
    hide Inv, Upserted, Flushed, StatusTried;
    QuietKeeps(c, s, clock, s, now);
    StatusKeeps(c, s, clock, card, now);
    match event {
      case IterationStart =>
        QuietKeeps(c, s, clock, s.(text := ""), now);
        StatusKeeps(c, s.(text := ""), now, card, now);
      case BlockStart(tool) =>
        QuietKeeps(c, s, clock, s.(tool := if tool.Some? then tool.value else ""), now);
      case BlockStop =>
        QuietKeeps(c, s, clock, s.(tool := ""), now);
      case Delta(_, text) =>
        var s' := s.(text := s.text + text, content := s.content.(dirty := true));
        QuietKeeps(c, s, clock, s', now);
        FlushKeeps(c, s', now, now, false);
      case ErrorEvent(text) =>
        QuietKeeps(c, s, clock, s.(error := text), now);
        StatusKeeps(c, s.(error := text), now, card, now);
      case _ =>
    }
  }

  ghost predicate InOrder(inputs: seq<Input>) {
    forall i, j :: 0 <= i < j < |inputs| ==> inputs[i].at <= inputs[j].at
  }

  predicate Over(inputs: seq<Input>, now: int) {
    inputs != [] ==> inputs[|inputs| - 1].at <= now
  }

  /** Every state of a stream keeps the invariant, whatever the events, the ticks and the answers. */
  lemma {:induction false} RunsKeepInv(c: Config, inputs: seq<Input>, now: int)
    requires InOrder(inputs) && Over(inputs, now)
    ensures Inv(c, After(c, inputs), now)
    decreases |inputs|
  {
    if inputs == [] {
      NothingHappenedYet(c, now);
    } else {
      hide Inv, Ticked, Handled;
      var front, last := inputs[..|inputs| - 1], inputs[|inputs| - 1];
      RunsKeepInv(c, front, last.at);
      OneStepKeeps(c, After(c, front), last.at, last);
      QuietKeeps(c, After(c, inputs), last.at, After(c, inputs), now);
    }
  }

  lemma NothingHappenedYet(c: Config, now: int)
    ensures Inv(c, INITIAL, now)
  {
  }

  lemma OneStepKeeps(c: Config, s: State, clock: int, input: Input)
    requires Inv(c, s, clock) && input.at >= clock
    ensures Inv(c, Step(c, s, input), input.at)
  {
    hide Inv, Ticked, Handled;
    match input {
      case Tick(at, card) => TickKeeps(c, s, clock, card, at, false);
      case Got(event, at, card) => EventKeeps(c, s, clock, event, card, at);
    }
  }

  // ----- what is shown -----

  /** Outside a cooldown. */
  predicate Free(s: State, now: int) {
    s.cooldown.None? || s.cooldown.value <= now
  }

  /** Never updated, or long enough ago. */
  predicate Ripe(m: Msg, now: int, gap: int) {
    m.lastEdit.None? || m.lastEdit.value + gap <= now
  }

  /** What there is to show: the text so far as it renders, in a draft its first 4096 runes. */
  function Display(c: Config, text: string): string {
    if text == "" then ""
    else if c.useDraft && |c.render(text)| > 4096 then c.render(text)[..4096]
    else c.render(text)
  }

  /** The call that brings a message to a text: a draft, a new message, or an edit of the one there is. */
  function Update(c: Config, kind: Kind, m: Msg, text: string): What {
    if kind.Content? && c.useDraft then Draft(text)
    else if m.id == 0 then Placeholder(kind, text)
    else Edit(kind, m.id, text)
  }

  function Latest(cooldown: Option<int>, until: int): int {
    if cooldown.Some? && cooldown.value >= until then cooldown.value else until
  }

  /** Exactly this call is made; an accepted one leaves the message clean and updated now, a refused one dirty, and
      the rest of the state is as it was. */
  predicate Updates(c: Config, s: State, s': State, kind: Kind, text: string, now: int, forced: bool) {
    var m, m', outcome := Get(s, kind), Get(s', kind), c.answers(|s.log|);
    && s'.log == s.log + [Call(Update(c, kind, m, text), now, forced, outcome)]
    && m'.dirty == outcome.Refused?
    && m'.lastEdit == (if outcome.Accepted? then Some(now) else m.lastEdit)
    && m'.id == (if outcome.Accepted? && Update(c, kind, m, text).Placeholder? then outcome.id else m.id)
    && s'.cooldown == (if outcome.Refused? && outcome.retryAfter.Some? then
                         Some(Latest(s.cooldown, now + outcome.retryAfter.value)) else s.cooldown)
    && (if kind.Status? then s'.content == s.content else s'.status == s.status)
    && s'.text == s.text && s'.error == s.error && s'.tool == s.tool
  }

  /** Dirty content that is due, or forced, is brought to the text outside a cooldown. Otherwise nothing is called,
      and it stops being dirty only when there is nothing to show. */
  lemma FlushShows(c: Config, s: State, now: int, force: bool)
    ensures var s', text := Flushed(c, s, now, force), Display(c, s.text);
            var gap := if c.useDraft then 400_000_000 else 1_000_000_000;
            var due := s.content.dirty && (force || Ripe(s.content, now, gap));
            if due && text != "" && Free(s, now) then Updates(c, s, s', Content, text, now, force)
            else s' == s.(content := s.content.(dirty := s.content.dirty && !(due && text == "")))
  {
  }

  /** A status change is shown at once when the card is on, half a second has gone by, and there is no cooldown;
      otherwise it is left for a later tick. */
  lemma StatusShows(c: Config, s: State, card: string, now: int)
    ensures var s' := StatusTried(c, s, card, now);
            if !c.showCard then s' == s
            else if !Free(s, now) || !Ripe(s.status, now, 500_000_000)
            then s' == s.(status := s.status.(dirty := true))
            else if card == "" then s' == s
            else Updates(c, s, s', Status, card, now, false)
  {
  }

  /** The two status updates of a tick: of a card left dirty, and of a clean one every five seconds. */
  lemma StatusTickShows(c: Config, s: State, card: string, now: int)
    requires Free(s, now)
    ensures var s' := StatusTicked(c, s, card, now);
            if c.showCard && s.status.dirty && Ripe(s.status, now, 500_000_000) && card != ""
            then Updates(c, s, s', Status, card, now, false) else s' == s
  {
  }

  lemma HeartbeatShows(c: Config, s: State, card: string, now: int)
    requires Free(s, now)
    ensures var s' := HeartbeatTicked(c, s, card, now);
            if c.showCard && s.status.id != 0 && !s.status.dirty && Ripe(s.status, now, 5_000_000_000) && card != ""
            then Updates(c, s, s', Status, card, now, false) else s' == s
  {
  }

  predicate Delays(outcome: Outcome) {
    outcome.Refused? && outcome.retryAfter.Some? && outcome.retryAfter.value > 0
  }

  /** A tick outside a cooldown updates dirty content that is due to the text as it renders now, unless the status
      update before it was refused with a delay. */
  lemma TickShowsContent(c: Config, s: State, card: string, now: int, force: bool)
    requires Free(s, now) && s.content.dirty && (force || Ripe(s.content, now, ContentGap(c)))
    requires Display(c, s.text) != ""
    ensures var s' := Ticked(c, s, card, now, force);
            var k := if c.showCard && s.status.dirty && Ripe(s.status, now, STATUS_MIN_GAP) && card != "" then 1 else 0;
            k == 0 || !Delays(c.answers(|s.log|)) ==>
              && |s'.log| > |s.log| + k
              && s'.log[|s.log| + k] == Call(Update(c, Content, s.content, Display(c, s.text)), now, force,
                                             c.answers(|s.log| + k))
              && (s'.content.dirty <==> c.answers(|s.log| + k).Refused?)
  {
    hide StatusTicked, Flushed, HeartbeatTicked;
    var s1 := StatusTicked(c, s, card, now);
    StatusTickShows(c, s, card, now);
    StatusCools(c, s, card, now);
    var s2 := Flushed(c, s1, now, force);
    FlushShows(c, s1, now, force);
    HeartbeatKeeps(c, s2, card, now);
  }

  /** A tick outside a cooldown repeats a clean status card that has stood for five seconds, unless an update of the
      content just before it was refused with a delay. */
  lemma TickBeats(c: Config, s: State, card: string, now: int, force: bool)
    requires Free(s, now) && c.showCard && s.status.id != 0 && !s.status.dirty && Ripe(s.status, now, 5_000_000_000)
    requires card != ""
    ensures var s' := Ticked(c, s, card, now, force);
            !s.content.dirty || !Delays(c.answers(|s.log|)) ==>
              |s'.log| > |s.log| && var last := s'.log[|s'.log| - 1];
              last.what == Edit(Status, s.status.id, card) && last.at == now
  {
    hide StatusTicked, Flushed, HeartbeatTicked;
    StatusTickShows(c, s, card, now);
    var s2 := Flushed(c, s, now, force);
    FlushShows(c, s, now, force);
    if !s.content.dirty || !Delays(c.answers(|s.log|)) {
      HeartbeatShows(c, s2, card, now);
    }
  }

  /** The events that speak of the turn's progress. */
  predicate Speaks(event: Event) {
    || event.IterationStart? || event.ToolStart? || event.ToolResult? || event.ErrorEvent?
    || (event.ToolOutput? && event.text != "")
  }

  /** An iteration's start forgets the text, an error is kept, and either, like any step of a tool, is told on the
      status card by the half-second rule. Nothing else touches the card. */
  lemma EventShows(c: Config, s: State, event: Event, card: string, now: int)
    ensures var s' := Handled(c, s, event, card, now);
            var told := s.(text := if event.IterationStart? then "" else s.text,
                           error := if event.ErrorEvent? then event.text else s.error);
            && (Speaks(event) && !c.showCard ==> s' == told)
            && (Speaks(event) && c.showCard && Free(s, now) && Ripe(s.status, now, 500_000_000) && card != "" ==>
                  Updates(c, told, s', Status, card, now, false))
            && (Speaks(event) && c.showCard && !(Free(s, now) && Ripe(s.status, now, 500_000_000)) ==>
                  s' == told.(status := s.status.(dirty := true)))
            && (!Speaks(event) ==> s'.status == s.status && s'.error == s.error)
  {
    hide StatusTried, Flushed;
    var told := s.(text := if event.IterationStart? then "" else s.text,
                   error := if event.ErrorEvent? then event.text else s.error);
    StatusShows(c, told, card, now);
    if event.Delta? {
      FlushShows(c, s.(text := s.text + event.text, content := s.content.(dirty := true)), now, false);
    }
  }

  /** A delta that is not empty, nor the input of a tool in JSON, is text to show; drafts are updated at once, by the
      0.4-second rule, messages by the next tick. */
  lemma DeltaShows(c: Config, s: State, json: bool, text: string, card: string, now: int)
    requires text != "" && (json ==> s.tool == "")
    ensures var s', told := Handled(c, s, Delta(json, text), card, now),
                            s.(text := s.text + text, content := s.content.(dirty := true));
            && (!c.useDraft ==> s' == told)
            && (c.useDraft && Ripe(s.content, now, 400_000_000) && Free(s, now) && Display(c, told.text) != "" ==>
                  Updates(c, told, s', Content, Display(c, told.text), now, false))
            && (c.useDraft && !(Ripe(s.content, now, 400_000_000) && Free(s, now)) && Display(c, told.text) != "" ==>
                  s' == told)
  {
    hide Flushed;
    FlushShows(c, s.(text := s.text + text, content := s.content.(dirty := true)), now, false);
  }

  lemma StatusCools(c: Config, s: State, card: string, now: int)
    requires Free(s, now)
    ensures !Delays(c.answers(|s.log|)) ==> Free(StatusTicked(c, s, card, now), now)
  {
  }

  lemma HeartbeatKeeps(c: Config, s: State, card: string, now: int)
    ensures s.log <= HeartbeatTicked(c, s, card, now).log && HeartbeatTicked(c, s, card, now).content == s.content
  {
  }

  function TextOf(call: Call): string {
    match call.what
    case Placeholder(_, text) => text
    case Edit(_, _, text) => text
    case Draft(text) => text
    case Final(text) => text
    case Delete(_) => ""
  }

  /** What the last accepted update of this kind says. */
  function LastShown(log: seq<Call>, kind: Kind): Option<string> {
    if log == [] then None
    else if Shows(log[|log| - 1], kind) then Some(TextOf(log[|log| - 1]))
    else LastShown(log[..|log| - 1], kind)
  }

  /** A clean message shows the text there is to show. */
  predicate CleanIsShown(c: Config, s: State) {
    s.content.dirty || Display(c, s.text) == "" || LastShown(s.log, Content) == Some(Display(c, s.text))
  }

  lemma LastShownAppend(log: seq<Call>, call: Call, kind: Kind)
    ensures LastShown(log + [call], kind) == if Shows(call, kind) then Some(TextOf(call)) else LastShown(log, kind)
  {
    assert (log + [call])[..|log|] == log;
  }

  lemma UpdateShows(c: Config, s: State, s': State, kind: Kind, text: string, now: int, forced: bool)
    requires Updates(c, s, s', kind, text, now, forced)
    ensures LastShown(s'.log, kind) == if c.answers(|s.log|).Accepted? then Some(text) else LastShown(s.log, kind)
    ensures LastShown(s'.log, if kind.Status? then Content else Status) ==
            LastShown(s.log, if kind.Status? then Content else Status)
  {
    hide LastShown;
    var call := s'.log[|s.log|];
    LastShownAppend(s.log, call, kind);
    LastShownAppend(s.log, call, if kind.Status? then Content else Status);
  }

  lemma StatusKeepsShown(c: Config, s: State, card: string, now: int)
    requires CleanIsShown(c, s)
    ensures CleanIsShown(c, StatusTried(c, s, card, now))
    ensures Free(s, now) ==> CleanIsShown(c, StatusTicked(c, s, card, now))
    ensures Free(s, now) ==> CleanIsShown(c, HeartbeatTicked(c, s, card, now))
  {
    hide StatusTried, StatusTicked, HeartbeatTicked, Updates, LastShown, Display, Free, Ripe;
    StatusShows(c, s, card, now);
    UpdateKeepsShown(c, s, StatusTried(c, s, card, now), card, now);
    if Free(s, now) {
      StatusTickShows(c, s, card, now);
      HeartbeatShows(c, s, card, now);
      UpdateKeepsShown(c, s, StatusTicked(c, s, card, now), card, now);
      UpdateKeepsShown(c, s, HeartbeatTicked(c, s, card, now), card, now);
    }
  }

  lemma UpdateKeepsShown(c: Config, s: State, s': State, card: string, now: int)
    requires CleanIsShown(c, s)
    ensures Updates(c, s, s', Status, card, now, false) ==> CleanIsShown(c, s')
  {
    hide LastShown, Display;
    if Updates(c, s, s', Status, card, now, false) {
      UpdateShows(c, s, s', Status, card, now, false);
    }
  }

  lemma FlushKeepsShown(c: Config, s: State, now: int, force: bool)
    requires CleanIsShown(c, s)
    ensures CleanIsShown(c, Flushed(c, s, now, force))
  {
    hide Flushed, LastShown, Display, Free, Ripe;
    var s', text := Flushed(c, s, now, force), Display(c, s.text);
    FlushShows(c, s, now, force);
    if Updates(c, s, s', Content, text, now, force) {
      UpdateShows(c, s, s', Content, text, now, force);
    }
  }

  lemma TickKeepsShown(c: Config, s: State, card: string, now: int, force: bool)
    requires CleanIsShown(c, s)
    ensures CleanIsShown(c, Ticked(c, s, card, now, force))
  {
    hide StatusTicked, Flushed, HeartbeatTicked, CleanIsShown;
    if !InCooldown(s, now) {
      var s1 := StatusTicked(c, s, card, now);
      var s2 := Flushed(c, s1, now, force);
      StatusKeepsShown(c, s, card, now);
      FlushKeepsShown(c, s1, now, force);
      BeatKeepsShown(c, s2, card, now);
    }
  }

  lemma BeatKeepsShown(c: Config, s: State, card: string, now: int)
    requires CleanIsShown(c, s)
    ensures CleanIsShown(c, HeartbeatTicked(c, s, card, now))
  {
    if Free(s, now) {
      StatusKeepsShown(c, s, card, now);
    }
  }

  lemma EventKeepsShown(c: Config, s: State, event: Event, card: string, now: int)
    requires CleanIsShown(c, s)
    ensures CleanIsShown(c, Handled(c, s, event, card, now))
  {
    hide StatusTried, Flushed, LastShown;
    StatusKeepsShown(c, s, card, now);
    match event {
      case IterationStart => StatusKeepsShown(c, s.(text := ""), card, now);
      case Delta(_, text) =>
        FlushKeepsShown(c, s.(text := s.text + text, content := s.content.(dirty := true)), now, false);
      case ErrorEvent(text) => StatusKeepsShown(c, s.(error := text), card, now);
      case _ =>
    }
  }

  /** Nothing is forgotten: in every state of a stream content that is not marked dirty is what the last accepted
      update shows, as it renders now. */
  lemma {:induction false} RunsShowWhenClean(c: Config, inputs: seq<Input>)
    ensures CleanIsShown(c, After(c, inputs))
  {
    hide CleanIsShown, Ticked, Handled;
    if inputs == [] {
      NothingToShow(c);
    } else {
      var front, last := inputs[..|inputs| - 1], inputs[|inputs| - 1];
      RunsShowWhenClean(c, front);
      match last {
        case Tick(at, card) => TickKeepsShown(c, After(c, front), card, at, false);
        case Got(event, at, card) => EventKeepsShown(c, After(c, front), event, card, at);
      }
    }
  }

  lemma NothingToShow(c: Config)
    ensures CleanIsShown(c, INITIAL)
  {
  }

  /** A card that was left dirty is clean again only once an accepted update shows it. */
  lemma DirtyCardIsShown(c: Config, s: State, input: Input)
    requires s.status.dirty && !Step(c, s, input).status.dirty
    ensures LastShown(Step(c, s, input).log, Status) == Some(input.card)
  {
    hide Flushed, StatusTried, StatusTicked, HeartbeatTicked, LastShown, Free, Ripe;
    match input {
      case Tick(at, card) =>
        TickClears(c, s, card, at, false);
      case Got(event, at, card) =>
        var s1 := match event
                  case IterationStart => s.(text := "")
                  case ErrorEvent(text) => s.(error := text)
                  case _ => s;
        TriedClears(c, s1, card, at);
        match event {
          case Delta(_, text) =>
            FlushKeepsStatus(c, s.(text := s.text + text, content := s.content.(dirty := true)), at, false);
          case _ =>
        }
    }
  }

  lemma TriedClears(c: Config, s: State, card: string, now: int)
    requires s.status.dirty
    ensures var s' := StatusTried(c, s, card, now); s'.status.dirty || LastShown(s'.log, Status) == Some(card)
  {
    hide StatusTried, LastShown, Free, Ripe;
    var s' := StatusTried(c, s, card, now);
    StatusShows(c, s, card, now);
    if Updates(c, s, s', Status, card, now, false) {
      UpdateShows(c, s, s', Status, card, now, false);
    }
  }

  lemma FlushKeepsStatus(c: Config, s: State, now: int, force: bool)
    ensures var s' := Flushed(c, s, now, force);
            s'.status == s.status && LastShown(s'.log, Status) == LastShown(s.log, Status)
  {
    hide Flushed, LastShown, Free, Ripe, Display;
    var s', text := Flushed(c, s, now, force), Display(c, s.text);
    FlushShows(c, s, now, force);
    if Updates(c, s, s', Content, text, now, force) {
      UpdateShows(c, s, s', Content, text, now, force);
    }
  }

  lemma TickClears(c: Config, s: State, card: string, now: int, force: bool)
    requires s.status.dirty
    ensures var s' := Ticked(c, s, card, now, force); s'.status.dirty || LastShown(s'.log, Status) == Some(card)
  {
    hide Flushed, StatusTicked, HeartbeatTicked, LastShown, Free, Ripe, InCooldown;
    if !InCooldown(s, now) {
      var s1 := StatusTicked(c, s, card, now);
      TickedClears(c, s, card, now);
      FlushKeepsStatus(c, s1, now, force);
      BeatShows(c, Flushed(c, s1, now, force), card, now);
    }
  }

  lemma TickedClears(c: Config, s: State, card: string, now: int)
    requires s.status.dirty && !InCooldown(s, now)
    ensures var s' := StatusTicked(c, s, card, now); s'.status.dirty || LastShown(s'.log, Status) == Some(card)
  {
    hide StatusTicked, LastShown, Ripe;
    var s' := StatusTicked(c, s, card, now);
    StatusTickShows(c, s, card, now);
    if Updates(c, s, s', Status, card, now, false) {
      UpdateShows(c, s, s', Status, card, now, false);
    }
  }

  lemma BeatShows(c: Config, s: State, card: string, now: int)
    ensures var s' := HeartbeatTicked(c, s, card, now);
            s'.status.dirty || (LastShown(s'.log, Status) == Some(card)
                                || (s'.status == s.status && LastShown(s'.log, Status) == LastShown(s.log, Status)))
  {
    hide LastShown, Ripe;
    var s' := HeartbeatTicked(c, s, card, now);
    if Free(s, now) {
      HeartbeatShows(c, s, card, now);
      if Updates(c, s, s', Status, card, now, false) {
        UpdateShows(c, s, s', Status, card, now, false);
      }
    }
  }

  /** A cooldown lasts no longer than was asked: its end is that of some refused call. */
  predicate Asked(s: State) {
    s.cooldown.None? ||
    exists i :: 0 <= i < |s.log| && s.log[i].outcome.Refused? && s.log[i].outcome.retryAfter.Some?
                && s.log[i].at + s.log[i].outcome.retryAfter.value == s.cooldown.value
  }

  lemma CallAsked(c: Config, s: State, what: What, now: int, forced: bool)
    requires Asked(s)
    ensures Asked(Called(c, s, what, now, forced))
  {
    var s' := Called(c, s, what, now, forced);
    assert s'.log[|s.log|] == Call(what, now, forced, c.answers(|s.log|));
    if s'.cooldown == s.cooldown && s.cooldown.Some? {
      var i :| 0 <= i < |s.log| && s.log[i].outcome.Refused? && s.log[i].outcome.retryAfter.Some?
               && s.log[i].at + s.log[i].outcome.retryAfter.value == s.cooldown.value;
      assert s'.log[i] == s.log[i];
    }
  }

  lemma UpsertAsked(c: Config, s: State, kind: Kind, text: string, now: int, forced: bool)
    requires Asked(s)
    ensures Asked(Upserted(c, s, kind, text, now, forced))
  {
    hide Called;
    var m := Get(s, kind);
    CallAsked(c, s, if m.id == 0 then Placeholder(kind, text) else Edit(kind, m.id, text), now, forced);
  }

  lemma UpdatesAsked(c: Config, s: State, card: string, now: int, force: bool)
    requires Asked(s)
    ensures Asked(StatusTried(c, s, card, now)) && Asked(StatusTicked(c, s, card, now))
    ensures Asked(HeartbeatTicked(c, s, card, now)) && Asked(Flushed(c, s, now, force))
  {
    hide Upserted, Called;
    var text := if s.text == "" then "" else c.render(s.text);
    UpsertAsked(c, s, Status, card, now, false);
    UpsertAsked(c, s, Content, text, now, force);
    CallAsked(c, s, Draft(Truncated(text)), now, force);
  }

  lemma {:induction false} RunsCoolAsAsked(c: Config, inputs: seq<Input>)
    ensures Asked(After(c, inputs))
  {
    hide Asked, StatusTried, StatusTicked, HeartbeatTicked, Flushed;
    if inputs == [] {
      NothingAsked();
    } else {
      var front, last := inputs[..|inputs| - 1], inputs[|inputs| - 1];
      RunsCoolAsAsked(c, front);
      StepAsked(c, After(c, front), last);
    }
  }

  lemma NothingAsked()
    ensures Asked(INITIAL)
  {
  }

  lemma StepAsked(c: Config, s: State, input: Input)
    requires Asked(s)
    ensures Asked(Step(c, s, input))
  {
    hide StatusTried, StatusTicked, HeartbeatTicked, Flushed;
    match input {
      case Tick(at, card) =>
        var s1 := StatusTicked(c, s, card, at);
        UpdatesAsked(c, s, card, at, false);
        UpdatesAsked(c, s1, card, at, false);
        UpdatesAsked(c, Flushed(c, s1, at, false), card, at, false);
      case Got(event, at, card) =>
        UpdatesAsked(c, s, card, at, false);
        match event {
          case IterationStart => UpdatesAsked(c, s.(text := ""), card, at, false);
          case Delta(_, text) =>
            UpdatesAsked(c, s.(text := s.text + text, content := s.content.(dirty := true)), card, at, false);
          case ErrorEvent(text) => UpdatesAsked(c, s.(error := text), card, at, false);
          case _ =>
        }
    }
  }

  // ----- the end -----

  function DeletesOf(s: State): seq<What> {
    (if s.status.id == 0 then [] else [Delete(s.status.id)]) +
      (if s.content.id == 0 then [] else [Delete(s.content.id)])
  }

  /** The end of a stream adds at most two sends of the final text and then, only once a send went through,
      one delete for each transient message that was created. */
  lemma EndingShape(c: Config, s: State, now: int, e: Ending) returns (sends: seq<Call>, deletes: seq<Call>)
    ensures Finalized(c, s, now, e).0.log == s.log + sends + deletes
    ensures |sends| <= 2 && forall i :: 0 <= i < |sends| ==> sends[i].what == Final(FinalText(s))
    ensures forall i :: 0 <= i < |sends| - 1 ==> sends[i].outcome.Refused? && sends[i].outcome.retryAfter.Some?
    ensures Finalized(c, s, now, e).1 <==> sends != [] && sends[|sends| - 1].outcome.Accepted?
    ensures |deletes| == if Finalized(c, s, now, e).1 then |DeletesOf(s)| else 0
    ensures forall i :: 0 <= i < |deletes| ==> deletes[i].what == DeletesOf(s)[i]
    ensures sends != [] ==> sends[0].at == Waited(s, now)
    ensures sends == [] <==> Waited(s, now) > now && e.cutFirst
    ensures |sends| == 1 && sends[0].outcome.Refused? && sends[0].outcome.retryAfter.Some? ==> e.cutSecond
    ensures |sends| == 2 ==>
            sends[1].at >= sends[0].at + sends[0].outcome.retryAfter.value && sends[1].at >= Waited(s, now)
  {
    hide FinalText;
    var t1 := Waited(s, now);
    sends, deletes := [], [];
    if !(t1 > now && e.cutFirst) {
      var outcome := c.answers(|s.log|);
      var s1 := Logged(c, s, Final(FinalText(s)), t1, false);
      sends := [s1.log[|s.log|]];
      if outcome.Accepted? {
        deletes := DeleteCalls(c, s1, t1);
      } else if outcome.retryAfter.Some? {
        var now2 := t1 + e.took;
        var s2 := s1.(cooldown := Raised(s1.cooldown, now2, outcome));
        var t2 := Waited(s2, now2);
        if !(t2 > now2 && e.cutSecond) {
          var s3 := Logged(c, s2, Final(FinalText(s)), t2, false);
          sends := sends + [s3.log[|s2.log|]];
          assert s3.log == s.log + sends;
          if c.answers(|s2.log|).Accepted? {
            deletes := DeleteCalls(c, s3, t2);
          }
        }
      }
    }
    assert s.log + sends + [] == s.log + sends;
  }

  lemma DeleteCalls(c: Config, s: State, now: int) returns (deletes: seq<Call>)
    ensures Cleaned(c, s, now).log == s.log + deletes
    ensures |deletes| == |DeletesOf(s)| && forall i :: 0 <= i < |deletes| ==> deletes[i].what == DeletesOf(s)[i]
  {
    deletes := Cleaned(c, s, now).log[|s.log|..];
  }

  lemma {:induction false} TailKeepsSpaced(c: Config, log: seq<Call>, tail: seq<Call>, kind: Kind)
    requires Spaced(c, log, kind) && CreatedOnce(log, kind)
    requires forall i :: 0 <= i < |tail| ==> tail[i].what.Final? || tail[i].what.Delete?
    ensures Spaced(c, log + tail, kind) && CreatedOnce(log + tail, kind)
  {
    forall i | |log| <= i < |log + tail|
      ensures !Shows((log + tail)[i], kind) && !Creates((log + tail)[i], kind)
    {
      assert (log + tail)[i] == tail[i - |log|];
    }
  }

  lemma TailKeepsPolite(log: seq<Call>, cooldown: Option<int>, sends: seq<Call>, deletes: seq<Call>)
    requires Polite(log) && Covered(log, cooldown)
    requires |sends| <= 2 && forall i :: 0 <= i < |sends| ==> cooldown.None? || sends[i].at >= cooldown.value
    requires |sends| == 2 ==> sends[0].outcome.Refused? && sends[0].outcome.retryAfter.Some? &&
                              sends[1].at >= sends[0].at + sends[0].outcome.retryAfter.value
    requires forall i :: 0 <= i < |deletes| ==> deletes[i].what.Delete?
    ensures Polite(log + sends + deletes)
  {
    var whole := log + sends + deletes;
    forall i, j | 0 <= i < j < |whole| && !whole[i].what.Delete? && !whole[j].what.Delete?
      && whole[i].outcome.Refused? && whole[i].outcome.retryAfter.Some?
      ensures whole[j].at >= whole[i].at + whole[i].outcome.retryAfter.value
    {
      assert j < |log| + |sends|;
      if j >= |log| {
        assert whole[j] == sends[j - |log|];
        if i < |log| {
          assert whole[i] == log[i];
        } else {
          assert i == |log| && j == |log| + 1 && whole[i] == sends[0];
        }
      } else {
        assert whole[i] == log[i] && whole[j] == log[j];
      }
    }
  }

  /** The log of any whole stream: no message is sent, edited or drafted inside a cooldown; successful updates
      keep their gaps, the forced one excepted; each transient message is created at most once. */
  lemma WholeStreamKeepsItsLimits(c: Config, inputs: seq<Input>, card: string, now: int, e: Ending)
    requires InOrder(inputs) && Over(inputs, now)
    ensures var log := Ended(c, inputs, card, now, e).0.log;
            && Polite(log) && Spaced(c, log, Status) && Spaced(c, log, Content)
            && CreatedOnce(log, Status) && CreatedOnce(log, Content)
  {
    hide Ticked, Polite, Covered, Spaced, CreatedOnce, Owns, Known, OnlyStreams, Before, Finalized;
    RunsKeepInv(c, inputs, now);
    var s := Ticked(c, After(c, inputs), card, now, true);
    TickKeeps(c, After(c, inputs), now, card, now, true);
    var sends, deletes := EndingShape(c, s, now, e);
    TailKeepsPolite(s.log, s.cooldown, sends, deletes);
    assert s.log + sends + deletes == s.log + (sends + deletes);
    TailKeepsSpaced(c, s.log, sends + deletes, Status);
    TailKeepsSpaced(c, s.log, sends + deletes, Content);
  }

  /** A transient message is deleted only behind a final send that went through, and it is the one created. */
  lemma DeletedOnlyAfterFinalSend(c: Config, inputs: seq<Input>, card: string, now: int, e: Ending, i: nat)
    returns (final: nat, created: nat)
    requires InOrder(inputs) && Over(inputs, now)
    requires i < |Ended(c, inputs, card, now, e).0.log| && Ended(c, inputs, card, now, e).0.log[i].what.Delete?
    ensures var log := Ended(c, inputs, card, now, e).0.log;
            && created < final < i && log[final].what.Final? && log[final].outcome.Accepted?
            && log[created].what.Placeholder? && log[created].outcome.Accepted?
            && log[created].outcome.id == log[i].what.id
    ensures Ended(c, inputs, card, now, e).1
  {
    hide Ticked, Polite, Covered, Spaced, CreatedOnce, Known, Before, Finalized, Waited, FinalText;
    RunsKeepInv(c, inputs, now);
    var s := Ticked(c, After(c, inputs), card, now, true);
    TickKeeps(c, After(c, inputs), now, card, now, true);
    var sends, deletes := EndingShape(c, s, now, e);
    var log := s.log + sends + deletes;
    assert forall k :: 0 <= k < |s.log| ==> log[k] == s.log[k];
    assert forall k :: |s.log| <= k < |s.log| + |sends| ==> log[k] == sends[k - |s.log|];
    assert i >= |s.log| + |sends|;
    var d := i - |s.log| - |sends|;
    assert log[i] == deletes[d];
    final := |s.log| + |sends| - 1;
    assert log[final] == sends[|sends| - 1];
    var kind := if deletes[d].what == Delete(s.status.id) && s.status.id != 0 then Status else Content;
    created := CreatedAt(c, s, now, kind);
    assert log[created] == s.log[created];
  }

  lemma CreatedAt(c: Config, s: State, clock: int, kind: Kind) returns (i: nat)
    requires Inv(c, s, clock) && Get(s, kind).id != 0
    ensures i < |s.log| && Creates(s.log[i], kind) && s.log[i].outcome.id == Get(s, kind).id
  {
    hide Polite, Covered, Spaced, CreatedOnce, Known, Before, OnlyStreams;
    i :| 0 <= i < |s.log| && Creates(s.log[i], kind);
  }

  // ----- the final text -----

  /** The tool block the inputs leave open. */
  function OpenTool(inputs: seq<Input>): string {
    if inputs == [] then ""
    else
      var last := inputs[|inputs| - 1];
      if last.Got? && last.event.BlockStart? then (if last.event.tool.Some? then last.event.tool.value else "")
      else if last.Got? && last.event.BlockStop? then ""
      else OpenTool(inputs[..|inputs| - 1])
  }

  /** The text deltas since the last iteration start, without the JSON input of an open tool block. */
  function TextSince(inputs: seq<Input>): string {
    if inputs == [] then ""
    else
      var front, last := inputs[..|inputs| - 1], inputs[|inputs| - 1];
      if last.Got? && last.event.IterationStart? then ""
      else if last.Got? && last.event.Delta? && !(last.event.json && OpenTool(front) != "") then
        TextSince(front) + last.event.text
      else TextSince(front)
  }

  function LastError(inputs: seq<Input>): string {
    if inputs == [] then ""
    else if inputs[|inputs| - 1].Got? && inputs[|inputs| - 1].event.ErrorEvent? then inputs[|inputs| - 1].event.text
    else LastError(inputs[..|inputs| - 1])
  }

  predicate SameText(s: State, s': State) {
    s'.text == s.text && s'.error == s.error && s'.tool == s.tool
  }

  lemma UpsertKeepsText(c: Config, s: State, kind: Kind, text: string, now: int, force: bool)
    ensures SameText(s, Upserted(c, s, kind, text, now, force))
  {
  }

  lemma UpdatesKeepText(c: Config, s: State, kind: Kind, text: string, card: string, now: int, force: bool)
    ensures SameText(s, Upserted(c, s, kind, text, now, force))
    ensures SameText(s, Flushed(c, s, now, force))
    ensures SameText(s, StatusTried(c, s, card, now)) && SameText(s, StatusTicked(c, s, card, now))
    ensures SameText(s, HeartbeatTicked(c, s, card, now))
  {
    hide Upserted, Due, InCooldown;
    UpsertKeepsText(c, s, kind, text, now, force);
    UpsertKeepsText(c, s, Content, if s.text == "" then "" else c.render(s.text), now, force);
    UpsertKeepsText(c, s, Status, card, now, false);
  }

  lemma TickKeepsText(c: Config, s: State, card: string, now: int, force: bool)
    ensures SameText(s, Ticked(c, s, card, now, force))
  {
    hide Flushed, StatusTicked, HeartbeatTicked;
    var s1 := StatusTicked(c, s, card, now);
    UpdatesKeepText(c, s, Status, card, card, now, force);
    UpdatesKeepText(c, s1, Status, card, card, now, force);
    UpdatesKeepText(c, Flushed(c, s1, now, force), Status, card, card, now, force);
  }

  /** Throttling, cooldowns and refusals never touch the text: it is exactly the deltas. */
  lemma {:induction false} TextIsTheDeltas(c: Config, inputs: seq<Input>)
    ensures After(c, inputs).text == TextSince(inputs)
    ensures After(c, inputs).error == LastError(inputs) && After(c, inputs).tool == OpenTool(inputs)
  {
    hide Ticked, Flushed, StatusTried;
    if inputs != [] {
      var front, last := inputs[..|inputs| - 1], inputs[|inputs| - 1];
      TextIsTheDeltas(c, front);
      var s := After(c, front);
      match last {
        case Tick(at, card) => TickKeepsText(c, s, card, at, false);
        case Got(event, at, card) => EventText(c, s, event, card, at);
      }
    }
  }

  lemma EventText(c: Config, s: State, event: Event, card: string, now: int)
    ensures var s' := Handled(c, s, event, card, now);
            && s'.text == (if event.IterationStart? then ""
                           else if event.Delta? && !(event.json && s.tool != "") then s.text + event.text
                           else s.text)
            && s'.error == (if event.ErrorEvent? then event.text else s.error)
            && s'.tool == (if event.BlockStop? then ""
                           else if event.BlockStart? then if event.tool.Some? then event.tool.value else ""
                           else s.tool)
  {
    hide Flushed, StatusTried;
    UpdatesKeepText(c, s, Status, card, card, now, false);
    match event {
      case IterationStart => UpdatesKeepText(c, s.(text := ""), Status, card, card, now, false);
      case Delta(_, text) =>
        assert s.text + "" == s.text;
        UpdatesKeepText(c, s.(text := s.text + text, content := s.content.(dirty := true)), Status, card, card,
            now, false);
      case ErrorEvent(text) => UpdatesKeepText(c, s.(error := text), Status, card, card, now, false);
      case _ =>
    }
  }

  /** What the final send carries: the deltas since the last iteration start, else the error, else a notice. */
  lemma FinalTextIsTheDeltas(c: Config, inputs: seq<Input>, card: string, now: int)
    ensures FinalText(Ticked(c, After(c, inputs), card, now, true)) ==
            if TextSince(inputs) != "" then TextSince(inputs)
            else if LastError(inputs) != "" then "stream failed: " + LastError(inputs)
            else "agent return null"
  {
    hide Ticked;
    TextIsTheDeltas(c, inputs);
    TickKeepsText(c, After(c, inputs), card, now, true);
  }

  /** With streaming on the final text is the end of what is sent with streaming off, and all of it when no
      iteration starts anew; JSON deltas carry their input elsewhere, and no text. */
  lemma {:induction false} StreamingKeepsTheEnd(inputs: seq<Input>)
    requires forall input :: input in inputs && input.Got? && input.event.Delta? && input.event.json ==>
               input.event.text == ""
    ensures var whole, end := DeltaText(inputs), TextSince(inputs);
            |end| <= |whole| && end == whole[|whole| - |end|..]
    ensures (forall input :: input in inputs && input.Got? ==> !input.event.IterationStart?) ==>
            TextSince(inputs) == DeltaText(inputs)
  {
    hide OpenTool;
    if inputs != [] {
      var front, last := inputs[..|inputs| - 1], inputs[|inputs| - 1];
      assert last in inputs && forall input :: input in front ==> input in inputs;
      StreamingKeepsTheEnd(front);
      assert TextSince(front) + "" == TextSince(front) && DeltaText(front) + "" == DeltaText(front);
    }
  }

  // ----- the cooldown -----

  predicate NotEarlier(a: Option<int>, b: Option<int>) {
    a.Some? ==> b.Some? && a.value <= b.value
  }

  /** No input ever moves the end of the cooldown to an earlier time. */
  lemma CooldownNeverDecreases(c: Config, s: State, input: Input)
    ensures NotEarlier(s.cooldown, Step(c, s, input).cooldown)
  {
    hide Upserted, Flushed;
    match input {
      case Tick(at, card) =>
        var s1 := StatusTicked(c, s, card, at);
        CooldownGrows(c, s, Status, card, at, false);
        CooldownGrows(c, s1, Status, card, at, false);
        CooldownGrows(c, Flushed(c, s1, at, false), Status, card, at, false);
      case Got(event, at, card) =>
        CooldownGrows(c, s, Status, card, at, false);
        match event {
          case IterationStart => CooldownGrows(c, s.(text := ""), Status, card, at, false);
          case Delta(_, text) =>
            CooldownGrows(c, s.(text := s.text + text, content := s.content.(dirty := true)), Status, card, at, false);
          case ErrorEvent(text) => CooldownGrows(c, s.(error := text), Status, card, at, false);
          case _ =>
        }
    }
  }

  lemma CooldownGrows(c: Config, s: State, kind: Kind, text: string, now: int, force: bool)
    ensures NotEarlier(s.cooldown, Upserted(c, s, kind, text, now, force).cooldown)
    ensures NotEarlier(s.cooldown, Flushed(c, s, now, force).cooldown)
  {
  }
}
