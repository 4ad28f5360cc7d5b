/** The webhook caches. */
module WebhookCaches {
  // Message ids seen and reply URLs, with a lazy garbage collection nobody can observe.

  import opened Wrappers
  import opened Text

  const SCAN_INTERVAL := 60 * 1_000_000_000
  const DEFAULT_MSG_TTL := 5 * 60 * 1_000_000_000
  const DEFAULT_REPLY_TTL := 60 * 60 * 1_000_000_000

  predicate ScanDue(lastGC: Option<int>, now: int) {
    lastGC.None? || now - lastGC.value >= SCAN_INTERVAL
  }

  // ----- message ids -----

  // One Seen call with a non-empty key: what it was asked, when, and what it answered.
  datatype Call = Call(key: string, at: int, seen: bool)

  /** When this key was last let through. */
  function LastAccepted(log: seq<Call>, key: string): Option<int> {
    if log == [] then None
    else
      var last := log[|log| - 1];
      if last.key == key && !last.seen then Some(last.at) else LastAccepted(log[..|log| - 1], key)
  }

  /** The rule: a duplicate is a key let through less than the time to live ago. */
  function IsDuplicate(log: seq<Call>, ttl: int, key: string, now: int): bool {
    var t := LastAccepted(log, key);
    t.Some? && now - t.value < ttl
  }

  lemma LastAcceptedAfterCall(log: seq<Call>, key: string, now: int)
    ensures forall k :: LastAccepted(log + [Call(key, now, true)], k) == LastAccepted(log, k)
    ensures forall k :: LastAccepted(log + [Call(key, now, false)], k) ==
                        if k == key then Some(now) else LastAccepted(log, k)
  {
    forall k
      ensures LastAccepted(log + [Call(key, now, true)], k) == LastAccepted(log, k)
      ensures LastAccepted(log + [Call(key, now, false)], k) == if k == key then Some(now) else LastAccepted(log, k)
    {
      LastAcceptedAppend(log, Call(key, now, true), k);
      LastAcceptedAppend(log, Call(key, now, false), k);
    }
  }

  lemma LastAcceptedAppend(log: seq<Call>, c: Call, key: string)
    ensures LastAccepted(log + [c], key) == if c.key == key && !c.seen then Some(c.at) else LastAccepted(log, key)
  {
    assert (log + [c])[..|log|] == log;
  }

  class MsgIDCache {
    var items: map<string, int>
    const ttl: int
    var lastGC: Option<int>
    ghost var log: seq<Call>
    ghost var clock: int

    ghost predicate Valid()
      reads this
    {
      && ttl > 0
      && "" !in items
      && (forall key :: key in items ==> LastAccepted(log, key) == Some(items[key] - ttl))
      && (forall key :: key !in items && LastAccepted(log, key).Some? ==> LastAccepted(log, key).value + ttl < clock)
      && (lastGC.Some? ==> lastGC.value <= clock && forall key :: key in items ==> items[key] >= lastGC.value)
    }

    constructor (ttl: int, ghost clock: int)
      ensures Valid() && log == [] && this.clock == clock
      ensures this.ttl == if ttl <= 0 then DEFAULT_MSG_TTL else ttl
    {
      this.ttl := if ttl <= 0 then DEFAULT_MSG_TTL else ttl;
      items := map[];
      lastGC := None;
      log := [];
      this.clock := clock;
    }

    /** Answers as if nothing were ever collected. */
    method Seen(key: string, now: int) returns (seen: bool)
      requires Valid() && now >= clock
      modifies this
      ensures Valid() && clock == now
      ensures key == "" ==> !seen && log == old(log)
      ensures key != "" ==> seen == IsDuplicate(old(log), ttl, key, now) && log == old(log) + [Call(key, now, seen)]
    {
      clock := now;
      if key == "" {
        return false;
      }
      hide LastAccepted;
      LastAcceptedAfterCall(log, key, now);
      if key in items {
        if now < items[key] {
          log := log + [Call(key, now, true)];
          return true;
        }
        items := items - {key};
      }
      items := items[key := now + ttl];
      log := log + [Call(key, now, false)];
      Gc(now);
      return false;
    }

    method Gc(now: int)
      requires Valid() && now == clock
      modifies this`items, this`lastGC
      ensures Valid()
      ensures var due := old(lastGC).None? || now - old(lastGC.value) >= 60_000_000_000;
              && lastGC == (if due then Some(now) else old(lastGC))
              && items == (if due then map key | key in old(items) && old(items)[key] >= now :: old(items)[key]
                           else old(items))
    {
      if ScanDue(lastGC, now) {
        var todo := items.Keys;
        while todo != {}
          invariant todo <= items.Keys <= old(items).Keys
          invariant forall key :: key in items ==> items[key] == old(items)[key]
          invariant forall key :: key in items && key !in todo ==> items[key] >= now
          invariant forall key :: key in old(items) && key !in items ==> old(items)[key] < now
          decreases todo
        {
          var key :| key in todo;
          todo := todo - {key};
          if now > items[key] {
            items := items - {key};
          }
        }
        lastGC := Some(now);
      }
    }
  }

  /** A log in which every answer follows the rule. */
  ghost predicate Explained(log: seq<Call>, ttl: int) {
    && (forall i :: 0 <= i < |log| ==> log[i].seen == IsDuplicate(log[..i], ttl, log[i].key, log[i].at))
    && (forall i, j :: 0 <= i < j < |log| ==> log[i].at <= log[j].at)
  }

  /** The last acceptance is at least as late as any one of them. */
  lemma {:induction false} LastAcceptedAfter(log: seq<Call>, i: nat)
    requires i < |log| && !log[i].seen
    requires forall a, b :: 0 <= a < b < |log| ==> log[a].at <= log[b].at
    ensures LastAccepted(log, log[i].key).Some? && log[i].at <= LastAccepted(log, log[i].key).value
    decreases |log|
  {
    var last := |log| - 1;
    if !(log[last].key == log[i].key && !log[last].seen) {
      LastAcceptedAfter(log[..last], i);
      assert log[..last][i] == log[i];
    }
  }

  /** Deduplication: the same key is never let through twice within the time to live. */
  lemma AcceptedFarApart(log: seq<Call>, ttl: int, i: nat, j: nat)
    requires Explained(log, ttl) && i < j < |log|
    requires log[i].key == log[j].key && !log[i].seen && !log[j].seen
    ensures log[j].at - log[i].at >= ttl
  {
    var before := log[..j];
    assert before[i] == log[i];
    LastAcceptedAfter(before, i);
  }

  /** Nothing is refused for good: a refusal always has an acceptance of its key less than the time to live before. */
  lemma {:induction false} LastAcceptedWitness(log: seq<Call>, key: string) returns (i: int)
    requires LastAccepted(log, key).Some?
    ensures 0 <= i < |log| && log[i] == Call(key, LastAccepted(log, key).value, false)
    decreases |log|
  {
    var last := |log| - 1;
    if log[last].key == key && !log[last].seen {
      i := last;
    } else {
      i := LastAcceptedWitness(log[..last], key);
    }
  }

  lemma RefusalHasCause(log: seq<Call>, ttl: int, j: nat) returns (i: int)
    requires Explained(log, ttl) && j < |log| && log[j].seen
    ensures 0 <= i < j && log[i].key == log[j].key && !log[i].seen && log[j].at - log[i].at < ttl
  {
    i := LastAcceptedWitness(log[..j], log[j].key);
  }

  /** Any calls at non-decreasing times produce an explained log, whatever the collector did meanwhile. */
  method ReplaySeen(ttl: int, keys: seq<string>, times: seq<int>) returns (log: seq<Call>)
    requires |keys| == |times| && ttl > 0
    requires forall i :: 0 <= i < |keys| ==> keys[i] != ""
    requires forall i, j :: 0 <= i < j < |times| ==> times[i] <= times[j]
    ensures |log| == |keys| && Explained(log, ttl)
    ensures forall i :: 0 <= i < |log| ==> log[i].key == keys[i] && log[i].at == times[i]
  {
    hide IsDuplicate, LastAccepted;
    log := [];
    if times == [] {
      return;
    }
    var cache := new MsgIDCache(ttl, times[0]);
    var i := 0;
    while i < |keys|
      invariant 0 <= i <= |keys| && |log| == i
      invariant fresh(cache) && cache.Valid() && cache.ttl == ttl && cache.log == log
      invariant forall k :: i <= k < |times| ==> cache.clock <= times[k]
      invariant forall k :: 0 <= k < i ==> log[k].key == keys[k] && log[k].at == times[k]
      invariant Explained(log, ttl)
    {
      var seen := cache.Seen(keys[i], times[i]);
      ExplainedAppend(log, ttl, Call(keys[i], times[i], seen));
      log := log + [Call(keys[i], times[i], seen)];
      i := i + 1;
    }
  }

  lemma ExplainedAppend(log: seq<Call>, ttl: int, c: Call)
    requires Explained(log, ttl) && c.seen == IsDuplicate(log, ttl, c.key, c.at)
    requires forall i :: 0 <= i < |log| ==> log[i].at <= c.at
    ensures Explained(log + [c], ttl)
  {
    var log' := log + [c];
    forall i | 0 <= i < |log'|
      ensures log'[i].seen == IsDuplicate(log'[..i], ttl, log'[i].key, log'[i].at)
    {
      assert log'[..i] == if i < |log| then log[..i] else log;
    }
  }

  // ----- reply URLs -----

  datatype Target = Target(url: string, expiresAt: int)

  // One effective Set call.
  datatype Setting = Setting(chat: string, url: string, at: int)

  function LastSet(log: seq<Setting>, chat: string): Option<Setting> {
    if log == [] then None
    else
      var last := log[|log| - 1];
      if last.chat == chat then Some(last) else LastSet(log[..|log| - 1], chat)
  }

  /** The rule: the last URL set for the chat, as long as it is no older than the time to live. */
  function Expected(log: seq<Setting>, ttl: int, chat: string, now: int): Option<string> {
    match LastSet(log, chat)
    case None => None
    case Some(s) => if now - s.at <= ttl then Some(s.url) else None
  }

  /** Without a setting for the chat there is no URL; the last one there is holds for the time to live. */
  lemma ExpectedMeans(log: seq<Setting>, ttl: int, chat: string, now: int, i: nat)
    ensures (forall k :: 0 <= k < |log| ==> log[k].chat != chat) ==> Expected(log, ttl, chat, now) == None
    ensures i < |log| && log[i].chat == chat && (forall k :: i < k < |log| ==> log[k].chat != chat) ==>
              Expected(log, ttl, chat, now) == if now - log[i].at <= ttl then Some(log[i].url) else None
  {
    hide LastSet;
    var j := LastSetAt(log, chat);
  }

  lemma {:induction false} LastSetAt(log: seq<Setting>, chat: string) returns (i: int)
    ensures -1 <= i < |log|
    ensures i < 0 ==> LastSet(log, chat).None? && forall k :: 0 <= k < |log| ==> log[k].chat != chat
    ensures i >= 0 ==> LastSet(log, chat) == Some(log[i]) && log[i].chat == chat
    ensures forall k :: i < k < |log| ==> log[k].chat != chat
    decreases |log|
  {
    i := -1;
    if log != [] {
      var last := |log| - 1;
      if log[last].chat == chat {
        i := last;
      } else {
        i := LastSetAt(log[..last], chat);
      }
    }
  }

  lemma LastSetAppend(log: seq<Setting>, s: Setting, chat: string)
    ensures LastSet(log + [s], chat) == if s.chat == chat then Some(s) else LastSet(log, chat)
  {
    assert (log + [s])[..|log|] == log;
  }

  class ReplyURLCache {
    var items: map<string, Target>
    const ttl: int
    var lastGC: Option<int>
    ghost var log: seq<Setting>
    ghost var clock: int

    ghost predicate Valid()
      reads this
    {
      && ttl > 0
      && (forall chat :: chat in items ==>
            LastSet(log, chat) == Some(Setting(chat, items[chat].url, items[chat].expiresAt - ttl)))
      && (forall chat :: chat !in items && LastSet(log, chat).Some? ==> LastSet(log, chat).value.at + ttl < clock)
      && (lastGC.Some? ==> lastGC.value <= clock && forall chat :: chat in items ==>
          items[chat].expiresAt >= lastGC.value)
    }

    constructor (ttl: int, ghost clock: int)
      ensures Valid() && log == [] && this.clock == clock
      ensures this.ttl == if ttl <= 0 then DEFAULT_REPLY_TTL else ttl
    {
      this.ttl := if ttl <= 0 then DEFAULT_REPLY_TTL else ttl;
      items := map[];
      lastGC := None;
      log := [];
      this.clock := clock;
    }

    method Set(chatID: string, replyURL: string, now: int)
      requires Valid() && now >= clock
      modifies this
      ensures Valid() && clock == now
      ensures log == if TrimSpace(chatID) == "" || TrimSpace(replyURL) == "" then old(log)
                     else old(log) + [Setting(TrimSpace(chatID), TrimSpace(replyURL), now)]
    {
      hide TrimSpace, TrimLeft, TrimRight;
      var chat, url := TrimSpace(chatID), TrimSpace(replyURL);
      clock := now;
      if chat == "" || url == "" {
        return;
      }
      ghost var s := Setting(chat, url, now);
      forall c
        ensures LastSet(log + [s], c) == if c == chat then Some(s) else LastSet(log, c)
      {
        LastSetAppend(log, s, c);
      }
      items := items[chat := Target(url, now + ttl)];
      log := log + [s];
      Gc(now);
    }

    /** Answers as if nothing were ever collected. */
    method Get(chatID: string, now: int) returns (r: Option<string>)
      requires Valid() && now >= clock
      modifies this
      ensures Valid() && clock == now && log == old(log)
      ensures r == if TrimSpace(chatID) == "" then None else Expected(log, ttl, TrimSpace(chatID), now)
    {
      hide TrimSpace, TrimLeft, TrimRight;
      var chat := TrimSpace(chatID);
      clock := now;
      if chat == "" || chat !in items {
        return None;
      }
      var target := items[chat];
      if now > target.expiresAt {
        items := items - {chat};
        return None;
      }
      Gc(now);
      return Some(target.url);
    }

    method Gc(now: int)
      requires Valid() && now == clock
      modifies this`items, this`lastGC
      ensures Valid()
      ensures var due := old(lastGC).None? || now - old(lastGC.value) >= 60_000_000_000;
              && lastGC == (if due then Some(now) else old(lastGC))
              && items == (if due then
                             map chat | chat in old(items) && old(items)[chat].expiresAt >= now :: old(items)[chat]
                           else old(items))
    {
      if ScanDue(lastGC, now) {
        var todo := items.Keys;
        while todo != {}
          invariant todo <= items.Keys <= old(items).Keys
          invariant forall chat :: chat in items ==> items[chat] == old(items)[chat]
          invariant forall chat :: chat in items && chat !in todo ==> items[chat].expiresAt >= now
          invariant forall chat :: chat in old(items) && chat !in items ==> old(items)[chat].expiresAt < now
          decreases todo
        {
          var chat :| chat in todo;
          todo := todo - {chat};
          if now > items[chat].expiresAt {
            items := items - {chat};
          }
        }
        lastGC := Some(now);
      }
    }
  }

  // ----- whole histories of the reply cache -----

  datatype ReplyOp = SetOp(chatID: string, url: string, at: int) | GetOp(chatID: string, at: int)

  /** What one call adds to the settings. */
  function Settled(log: seq<Setting>, op: ReplyOp): seq<Setting> {
    if op.GetOp? || TrimSpace(op.chatID) == "" || TrimSpace(op.url) == "" then log
    else log + [Setting(TrimSpace(op.chatID), TrimSpace(op.url), op.at)]
  }

  function SettingsOf(ops: seq<ReplyOp>): seq<Setting> {
    if ops == [] then [] else Settled(SettingsOf(ops[..|ops| - 1]), ops[|ops| - 1])
  }

  function ReplyAnswer(log: seq<Setting>, ttl: int, op: ReplyOp): Option<string> {
    if op.SetOp? || TrimSpace(op.chatID) == "" then None else Expected(log, ttl, TrimSpace(op.chatID), op.at)
  }

  function ReplyAnswers(ops: seq<ReplyOp>, ttl: int): seq<Option<string>> {
    if ops == [] then []
    else
      var before := ops[..|ops| - 1];
      ReplyAnswers(before, ttl) + [ReplyAnswer(SettingsOf(before), ttl, ops[|ops| - 1])]
  }

  method PerformReply(cache: ReplyURLCache, op: ReplyOp) returns (answer: Option<string>)
    requires cache.Valid() && op.at >= cache.clock
    modifies cache
    ensures cache.Valid() && cache.clock == op.at
    ensures answer == ReplyAnswer(old(cache.log), cache.ttl, op) && cache.log == Settled(old(cache.log), op)
  {
    hide TrimSpace, TrimLeft, TrimRight, Expected;
    if op.SetOp? {
      cache.Set(op.chatID, op.url, op.at);
      answer := None;
    } else {
      answer := cache.Get(op.chatID, op.at);
    }
  }

  /** Every Get in a run at non-decreasing times is answered from the Set calls before it alone. */
  method ReplayReplies(ttl: int, ops: seq<ReplyOp>) returns (answers: seq<Option<string>>)
    requires ttl > 0
    requires forall i, j :: 0 <= i < j < |ops| ==> ops[i].at <= ops[j].at
    ensures answers == ReplyAnswers(ops, ttl)
  {
    hide ReplyAnswer, Settled;
    answers := [];
    if ops == [] {
      return;
    }
    var cache := new ReplyURLCache(ttl, ops[0].at);
    var i := 0;
    while i < |ops|
      invariant 0 <= i <= |ops|
      invariant fresh(cache) && cache.Valid() && cache.ttl == ttl && cache.log == SettingsOf(ops[..i])
      invariant forall k :: i <= k < |ops| ==> cache.clock <= ops[k].at
      invariant answers == ReplyAnswers(ops[..i], ttl)
    {
      assert ops[..i + 1][..i] == ops[..i];
      var answer := PerformReply(cache, ops[i]);
      answers := answers + [answer];
      i := i + 1;
    }
    assert ops[..i] == ops;
  }
}
