/** The response-to-session table. */
module ResponseSessions {
  // Bounded, expiring, and equal to a simple reading of its history.

  import opened Counting
  import opened Wrappers
  import opened Text
  import opened SessionIds

  const TTL := 30 * 60 * 1_000_000_000
  const MAX_ENTRIES := 500
  const WEB := "web"

  datatype Entry = Entry(session: string, ts: int)

  // ----- the history the table answers from -----

  // A store, or a lookup that found its id.
  datatype Touch = Touch(id: string, session: string, ts: int)

  ghost predicate Ordered(log: seq<Touch>, clock: int) {
    && (forall i, j :: 0 <= i < j < |log| ==> log[i].ts < log[j].ts)
    && (forall i :: 0 <= i < |log| ==> log[i].ts <= clock)
  }

  /** Index of the id's last touch, or -1. */
  function LastTouch(log: seq<Touch>, id: string): (i: int)
    ensures -1 <= i < |log|
    ensures i >= 0 ==> log[i].id == id
    ensures forall k :: i < k < |log| ==> log[k].id != id
  {
    if log == [] then -1
    else if log[|log| - 1].id == id then |log| - 1
    else LastTouch(log[..|log| - 1], id)
  }

  /** The ids touched after this index. */
  function Since(log: seq<Touch>, i: int): set<string>
    requires -1 <= i
  {
    set k | i < k < |log| :: log[k].id
  }

  predicate Fresh(ts: int, now: int) {
    now - ts <= TTL
  }

  /** The exact rule: touched within the time to live, and fewer than 500 distinct other ids touched since. */
  function Remembered(log: seq<Touch>, id: string, now: int): Option<string> {
    var i := LastTouch(log, id);
    if i >= 0 && Fresh(log[i].ts, now) && |Since(log, i)| < MAX_ENTRIES then Some(log[i].session) else None
  }

  /** What was just stored for a peer is remembered for the time to live: the peer itself when it already starts so,
      else web- and the peer. */
  lemma StoredIsRemembered(log: seq<Touch>, id: string, peer: string, at: int, now: int)
    requires now - at <= TTL
    ensures Remembered(log + [Touch(id, ChatSessionID(WEB, peer), at)], id, now) ==
            Some(if HasPrefix(TrimSpace(peer), "web-") then TrimSpace(peer) else "web-" + TrimSpace(peer))
  {
    hide TrimSpace, ChatSessionID;
    var log' := log + [Touch(id, ChatSessionID(WEB, peer), at)];
    WebIdIs(peer);
    assert LastTouch(log', id) == |log|;
    assert Since(log', |log|) == {};
  }

  lemma WebIdIs(peer: string)
    ensures var p := TrimSpace(peer);
            ChatSessionID(WEB, peer) == if HasPrefix(p, "web-") then p else "web-" + p
  {
    hide TrimLeft, TrimRight, ChatSessionID, IsSpace;
    ChatIdMeans(WEB, peer);
    WebTrimmed();
    var id := ChatSessionID(WEB, peer);
    assert WEB + "-" == "web-";
    assert id[..0] == "" && (HasPrefix(id, "web-") ==> id == id[..4] + id[4..]);
  }

  lemma WebTrimmed()
    ensures TrimSpace(WEB) == WEB
  {
    hide TrimLeft, TrimRight, TrimSpace;
    assert Trimmed(WEB);
  }

  /** An id is remembered by its last touch: within the time to live, while fewer than 500 other ids were touched
      since. An id never touched is not. */
  lemma RememberedMeans(log: seq<Touch>, id: string, now: int, i: nat)
    ensures (forall t :: t in log ==> t.id != id) ==> Remembered(log, id, now) == None
    ensures i < |log| && log[i].id == id && (forall k :: i < k < |log| ==> log[k].id != id) ==>
              Remembered(log, id, now) ==
              if now - log[i].ts <= 30 * 60 * 1_000_000_000 && |set k | i < k < |log| :: log[k].id| < 500
              then Some(log[i].session) else None
  {
    var j := LastTouch(log, id);
    assert j >= 0 ==> log[j] in log;
    if i < |log| && log[i].id == id && forall k :: i < k < |log| ==> log[k].id != id {
      assert j == i;
    }
  }

  // ----- how the table represents it -----

  ghost predicate Held(log: seq<Touch>, id: string, e: Entry, clock: int) {
    var i := LastTouch(log, id);
    && i >= 0 && e == Entry(log[i].session, log[i].ts)
    && (Fresh(e.ts, clock) ==> |Since(log, i)| < MAX_ENTRIES)
  }

  ghost predicate Dropped(log: seq<Touch>, id: string, clock: int) {
    var i := LastTouch(log, id);
    i < 0 || !Fresh(log[i].ts, clock) || |Since(log, i)| >= MAX_ENTRIES
  }

  ghost predicate Represents(entries: map<string, Entry>, log: seq<Touch>, clock: int) {
    && Ordered(log, clock)
    && (forall id :: id in entries ==> Held(log, id, entries[id], clock))
    && (forall id :: id !in entries ==> Dropped(log, id, clock))
  }

  /** Strictly increasing clock: the next touch is later than all before it. */
  ghost predicate AllBefore(log: seq<Touch>, now: int) {
    forall i :: 0 <= i < |log| ==> log[i].ts < now
  }

  lemma LastTouchAppend(log: seq<Touch>, t: Touch, id: string)
    ensures LastTouch(log + [t], id) == if t.id == id then |log| else LastTouch(log, id)
  {
    assert (log + [t])[..|log|] == log;
  }

  lemma SinceAppend(log: seq<Touch>, t: Touch, i: int)
    requires -1 <= i < |log|
    ensures Since(log + [t], i) == Since(log, i) + {t.id}
  {
    forall x | x in Since(log, i) + {t.id}
      ensures x in Since(log + [t], i)
    {
      if x in Since(log, i) {
        var k :| i < k < |log| && log[k].id == x;
        assert (log + [t])[k].id == x;
      } else {
        assert (log + [t])[|log|].id == x;
      }
    }
  }

  /** Whatever was touched after a fresh table entry is still in the table, and younger. */
  lemma YoungerAreHeld(entries: map<string, Entry>, log: seq<Touch>, clock: int, x: string, y: string)
    requires Represents(entries, log, clock) && x in entries && Fresh(entries[x].ts, clock)
    requires y in Since(log, LastTouch(log, x))
    ensures y in entries && entries[y].ts > entries[x].ts && y != x
  {
    var i, j := LastTouch(log, x), LastTouch(log, y);
    var k :| i < k < |log| && log[k].id == y;
    assert j >= k;
    assert Since(log, j) <= Since(log, i) - {y};
    SubsetSize(Since(log, j), Since(log, i) - {y});
    assert !Dropped(log, y, clock);
  }

  lemma AllYoungerHeld(entries: map<string, Entry>, log: seq<Touch>, clock: int, x: string)
    requires Represents(entries, log, clock) && x in entries && Fresh(entries[x].ts, clock)
    ensures forall y :: y in Since(log, LastTouch(log, x)) ==>
              y in entries && entries[y].ts > entries[x].ts && y != x
  {
    forall y | y in Since(log, LastTouch(log, x))
      ensures y in entries && entries[y].ts > entries[x].ts && y != x
    {
      hide Represents, LastTouch, Since;
      YoungerAreHeld(entries, log, clock, x, y);
    }
  }

  /** And conversely a younger table entry was touched after it. */
  lemma HeldYoungerSince(entries: map<string, Entry>, log: seq<Touch>, clock: int, x: string, y: string)
    requires Represents(entries, log, clock) && x in entries && y in entries && entries[y].ts > entries[x].ts
    ensures y in Since(log, LastTouch(log, x))
  {
    var i, j := LastTouch(log, x), LastTouch(log, y);
    assert log[j].ts > log[i].ts;
    assert j > i;
  }

  /** Time passing only makes entries stale. */
  lemma RepresentsLater(entries: map<string, Entry>, log: seq<Touch>, clock: int, now: int)
    requires Represents(entries, log, clock) && clock < now
    ensures Represents(entries, log, now) && AllBefore(log, now)
  {
    forall id | id !in entries
      ensures Dropped(log, id, now)
    {
      assert Dropped(log, id, clock);
    }
  }

  lemma RepresentsWithout(entries: map<string, Entry>, log: seq<Touch>, now: int, id: string)
    requires Represents(entries, log, now) && (id in entries ==> !Fresh(entries[id].ts, now))
    ensures Represents(entries - {id}, log, now)
  {
    if id in entries {
      assert Held(log, id, entries[id], now);
    }
  }

  lemma NewcomerHeld(log: seq<Touch>, t: Touch)
    ensures Held(log + [t], t.id, Entry(t.session, t.ts), t.ts)
  {
    LastTouchAppend(log, t, t.id);
    assert Since(log + [t], |log|) == {};
  }

  /** An entry stays held when the touch leaves fewer than 500 ids touched since. */
  lemma HeldAppend(entries: map<string, Entry>, log: seq<Touch>, t: Touch, x: string)
    requires Represents(entries, log, t.ts) && x in entries && x != t.id
    requires Fresh(entries[x].ts, t.ts) ==> |Since(log, LastTouch(log, x)) + {t.id}| < MAX_ENTRIES
    ensures Held(log + [t], x, entries[x], t.ts)
  {
    hide Since, LastTouch, Ordered, Fresh;
    assert Held(log, x, entries[x], t.ts);
    LastTouchAppend(log, t, x);
    SinceAppend(log, t, LastTouch(log, x));
  }

  /** Touching an id in a table that stays within bounds. */
  lemma TouchKeeps(entries: map<string, Entry>, log: seq<Touch>, t: Touch)
    requires Represents(entries, log, t.ts) && AllBefore(log, t.ts)
    requires |entries[t.id := Entry(t.session, t.ts)]| <= MAX_ENTRIES
    ensures Represents(entries[t.id := Entry(t.session, t.ts)], log + [t], t.ts)
  {
    hide Held, Dropped, LastTouch, Since, Ordered;
    var after, log' := entries[t.id := Entry(t.session, t.ts)], log + [t];
    OrderedAppend(log, t, t.ts);
    forall x
      ensures x in after ==> Held(log', x, after[x], t.ts)
      ensures x !in after ==> Dropped(log', x, t.ts)
    {
      if x == t.id {
        NewcomerHeld(log, t);
      } else if x !in entries {
        OtherTouched(entries, log, t, x);
      } else {
        if Fresh(entries[x].ts, t.ts) {
          AllYoungerHeld(entries, log, t.ts, x);
          SubsetSize(Since(log, LastTouch(log, x)) + {t.id}, after.Keys - {x});
        }
        HeldAppend(entries, log, t, x);
      }
    }
  }

  lemma OtherTouched(entries: map<string, Entry>, log: seq<Touch>, t: Touch, x: string)
    requires Represents(entries, log, t.ts) && x != t.id
    ensures LastTouch(log, x) >= 0 ==> Since(log + [t], LastTouch(log, x)) == Since(log, LastTouch(log, x)) + {t.id}
    ensures x !in entries ==> Dropped(log + [t], x, t.ts)
  {
    LastTouchAppend(log, t, x);
    var i := LastTouch(log, x);
    if i >= 0 {
      SinceAppend(log, t, i);
      SubsetSize(Since(log, i), Since(log + [t], i));
    }
    if x !in entries {
      assert Dropped(log, x, t.ts);
    }
  }

  ghost predicate IsOldest(entries: map<string, Entry>, id: string) {
    id in entries && forall x :: x in entries && x != id ==> entries[id].ts < entries[x].ts
  }

  /** 500 ids were touched after the oldest of 501. */
  lemma OldestIsDropped(entries: map<string, Entry>, log: seq<Touch>, t: Touch, o: string)
    requires Represents(entries, log, t.ts) && AllBefore(log, t.ts)
    requires t.id !in entries && o in entries && |entries| == MAX_ENTRIES
    requires forall x :: x in entries && x != o ==> entries[o].ts < entries[x].ts
    ensures Dropped(log + [t], o, t.ts)
  {
    var i := LastTouch(log, o);
    LastTouchAppend(log, t, o);
    SinceAppend(log, t, i);
    var younger := entries.Keys - {o} + {t.id};
    forall y | y in younger
      ensures y in Since(log + [t], i)
    {
      if y != t.id { HeldYoungerSince(entries, log, t.ts, o, y); }
    }
    SubsetSize(younger, Since(log + [t], i));
  }

  /** The ids touched after any other entry of a full fresh table leave out the oldest and the entry itself. */
  lemma OthersStayHeld(entries: map<string, Entry>, log: seq<Touch>, t: Touch, o: string, x: string)
    requires Represents(entries, log, t.ts) && AllBefore(log, t.ts)
    requires t.id !in entries && o in entries && |entries| == MAX_ENTRIES
    requires x in entries && x != o && entries[o].ts < entries[x].ts && Fresh(entries[x].ts, t.ts)
    ensures Held(log + [t], x, entries[x], t.ts)
  {
    hide Represents, Held, LastTouch, Since, AllBefore;
    var since := Since(log, LastTouch(log, x));
    AllYoungerHeld(entries, log, t.ts, x);
    SizeWithout(entries.Keys, o, x);
    SubsetSize(since, entries.Keys - {o, x});
    HeldAppend(entries, log, t, x);
  }

  lemma OrderedAppend(log: seq<Touch>, t: Touch, clock: int)
    requires Ordered(log, clock) && AllBefore(log, t.ts)
    ensures Ordered(log + [t], t.ts)
  {
  }

  /** Touching a new id in a full table of fresh entries drops exactly the oldest of them. */
  lemma TouchEvicts(entries: map<string, Entry>, log: seq<Touch>, t: Touch, o: string)
    requires Represents(entries, log, t.ts) && AllBefore(log, t.ts)
    requires forall x :: x in entries ==> Fresh(entries[x].ts, t.ts)
    requires t.id !in entries && |entries| == MAX_ENTRIES
    requires IsOldest(entries[t.id := Entry(t.session, t.ts)], o)
    ensures Represents(entries[t.id := Entry(t.session, t.ts)] - {o}, log + [t], t.ts)
  {
    hide Held, Dropped, LastTouch, Since, Ordered, AllBefore, Fresh;
    NewcomerNotOldest(entries, log, t, o);
    OrderedAppend(log, t, t.ts);
    var after := entries[t.id := Entry(t.session, t.ts)] - {o};
    forall x
      ensures x in after ==> Held(log + [t], x, after[x], t.ts)
      ensures x !in after ==> Dropped(log + [t], x, t.ts)
    {
      if x == t.id {
        NewcomerHeld(log, t);
      } else if x == o {
        OldestIsDropped(entries, log, t, o);
      } else if x in entries {
        OthersStayHeld(entries, log, t, o, x);
      } else {
        OtherTouched(entries, log, t, x);
      }
    }
  }

  lemma NewcomerNotOldest(entries: map<string, Entry>, log: seq<Touch>, t: Touch, o: string)
    requires Represents(entries, log, t.ts) && AllBefore(log, t.ts) && t.id !in entries && |entries| > 0
    requires IsOldest(entries[t.id := Entry(t.session, t.ts)], o)
    ensures o in entries && forall x :: x in entries && x != o ==> entries[o].ts < entries[x].ts
  {
    var x :| x in entries.Keys;
    var m := entries[t.id := Entry(t.session, t.ts)];
    assert Held(log, x, entries[x], t.ts);
    assert x in m && m[x].ts == entries[x].ts < t.ts;
    forall y | y in entries && y != o
      ensures entries[o].ts < entries[y].ts
    {
      assert y in m && m[y] == entries[y];
    }
  }

  /** The table after a store: the oldest entry goes when the newcomer makes one too many. */
  lemma StoreKeeps(pruned: map<string, Entry>, log: seq<Touch>, t: Touch, after: map<string, Entry>)
    requires Represents(pruned, log, t.ts) && AllBefore(log, t.ts) && |pruned| <= MAX_ENTRIES
    requires forall x :: x in pruned ==> Fresh(pruned[x].ts, t.ts)
    requires Evicted(pruned[t.id := Entry(t.session, t.ts)], after)
    ensures Represents(after, log + [t], t.ts)
  {
    hide Represents, Fresh;
    var added := pruned[t.id := Entry(t.session, t.ts)];
    if |added| <= MAX_ENTRIES {
      TouchKeeps(pruned, log, t);
    } else {
      var o :| IsOldest(added, o) && after == added - {o};
      assert added.Keys == pruned.Keys + {t.id};
      TouchEvicts(pruned, log, t, o);
    }
  }

  /** A fresh entry is what the history remembers; without one it remembers nothing. */
  lemma AnswersAsRemembered(entries: map<string, Entry>, log: seq<Touch>, now: int, id: string)
    requires Represents(entries, log, now)
    ensures Remembered(log, id, now) ==
            if id in entries && Fresh(entries[id].ts, now) then Some(entries[id].session) else None
  {
    if id in entries {
      assert Held(log, id, entries[id], now);
    } else {
      assert Dropped(log, id, now);
    }
  }

  ghost predicate DistinctTimes(m: map<string, Entry>) {
    forall x, y :: x in m && y in m && x != y ==> m[x].ts != m[y].ts
  }

  /** What is left of a table that was at most one entry over. */
  ghost predicate Evicted(m: map<string, Entry>, after: map<string, Entry>) {
    if |m| <= MAX_ENTRIES then after == m else exists o :: IsOldest(m, o) && after == m - {o}
  }

  // ----- the table -----

  class Table {
    var entries: map<string, Entry>
    ghost var log: seq<Touch>
    ghost var clock: int

    ghost predicate Valid()
      reads this
    {
      && Represents(entries, log, clock)
      && |entries| <= MAX_ENTRIES
      && "" !in entries
    }

    constructor ()
      ensures Valid() && log == [] && clock == 0 && entries == map[]
    {
      entries := map[];
      log := [];
      clock := 0;
    }

    /** A lookup is answered exactly as the history says, and counts as a touch when it finds its id. */
    method Lookup(responseID: string, now: int) returns (r: Option<string>)
      requires Valid() && now > clock
      modifies this
      ensures Valid() && clock == now
      ensures r == if TrimSpace(responseID) == "" then None else Remembered(old(log), TrimSpace(responseID), now)
      ensures log == if r.Some? then old(log) + [Touch(TrimSpace(responseID), r.value, now)] else old(log)
    {
      hide TrimLeft, TrimRight, TrimSpace, Represents;
      var id := TrimSpace(responseID);
      RepresentsLater(entries, log, clock, now);
      clock := now;
      if id == "" {
        return None;
      }
      AnswersAsRemembered(entries, log, now, id);
      if id !in entries {
        return None;
      }
      var entry := entries[id];
      if now - entry.ts > TTL {
        RepresentsWithout(entries, log, now, id);
        entries := entries - {id};
        return None;
      }
      ghost var t := Touch(id, entry.session, now);
      ghost var touched := entries[id := Entry(entry.session, now)];
      assert touched.Keys == entries.Keys;
      TouchKeeps(entries, log, t);
      entries := entries - {id};
      entries := entries[id := Entry(entry.session, now)];
      assert entries == touched;
      log := log + [t];
      return Some(entry.session);
    }

    /** A store is a touch with the web channel's session id. */
    method Store(responseID: string, sessionID: string, now: int)
      requires Valid() && now > clock
      modifies this
      ensures Valid() && clock == now
      ensures log == if TrimSpace(responseID) == "" then old(log)
                     else old(log) + [Touch(TrimSpace(responseID), ChatSessionID(WEB, sessionID), now)]
    {
      hide TrimLeft, TrimRight, TrimSpace, ChatSessionID, Represents, Fresh, IsOldest, AllBefore;
      var id := TrimSpace(responseID);
      var session := ChatSessionID(WEB, sessionID);
      WebSessionNotEmpty(sessionID);
      RepresentsLater(entries, log, clock, now);
      if id == "" || session == "" {
        clock := now;
        return;
      }
      Prune(now);
      Insert(id, session, now);
      log := log + [Touch(id, session, now)];
      clock := now;
    }

    /** The delete, insert and evict of a store. */
    method Insert(id: string, session: string, now: int)
      requires Represents(entries, log, now) && AllBefore(log, now) && |entries| <= MAX_ENTRIES
      requires "" !in entries && id != ""
      requires forall x :: x in entries ==> Fresh(entries[x].ts, now)
      modifies this`entries
      ensures Represents(entries, log + [Touch(id, session, now)], now)
      ensures |entries| <= MAX_ENTRIES && "" !in entries
    {
      hide *;
      ghost var pruned, t := entries, Touch(id, session, now);
      entries := entries - {id};
      entries := entries[id := Entry(session, now)];
      assert entries == pruned[id := Entry(session, now)];
      assert entries.Keys == pruned.Keys + {id};
      NewcomerYoungest(pruned, log, t);
      Evict(now);
      StoreKeeps(pruned, log, t, entries);
    }

    method Prune(now: int)
      requires Represents(entries, log, now)
      modifies this`entries
      ensures entries.Keys <= old(entries).Keys && forall x :: x in entries ==> entries[x] == old(entries)[x]
      ensures forall x :: x in old(entries) ==> (x in entries <==> Fresh(old(entries)[x].ts, now))
      ensures Represents(entries, log, now)
      ensures |entries| <= |old(entries)|
    {
      hide Represents;
      var todo := entries.Keys;
      while todo != {}
        invariant todo <= entries.Keys <= old(entries).Keys
        invariant forall x :: x in entries ==> entries[x] == old(entries)[x]
        invariant forall x :: x in entries && x !in todo ==> Fresh(entries[x].ts, now)
        invariant forall x :: x in old(entries) && x !in entries ==> !Fresh(old(entries)[x].ts, now)
        invariant Represents(entries, log, now)
        decreases todo
      {
        var id :| id in todo;
        todo := todo - {id};
        if now - entries[id].ts > TTL {
          RepresentsWithout(entries, log, now, id);
          entries := entries - {id};
        }
      }
      SubsetSize(entries.Keys, old(entries).Keys);
    }

    /** Removes the oldest entries until the table fits; it was at most one over. */
    method Evict(ghost now: int)
      requires |entries| <= MAX_ENTRIES + 1 && "" !in entries
      requires DistinctTimes(entries)
      modifies this`entries
      ensures Evicted(old(entries), entries)
      ensures |entries| <= MAX_ENTRIES && "" !in entries
    {
      while |entries| > MAX_ENTRIES
        invariant "" !in entries
        invariant |old(entries)| <= MAX_ENTRIES ==> entries == old(entries)
        invariant |old(entries)| > MAX_ENTRIES ==>
                    entries == old(entries) || exists o :: IsOldest(old(entries), o) && entries == old(entries) - {o}
        invariant |entries| <= MAX_ENTRIES || entries == old(entries)
        decreases |entries|
      {
        var oldestID, oldest := "", 0;
        var todo := entries.Keys;
        while todo != {}
          invariant todo <= entries.Keys
          invariant oldestID == "" <==> todo == entries.Keys
          invariant oldestID != "" ==> oldestID in entries && oldestID !in todo && oldest == entries[oldestID].ts
          invariant oldestID != "" ==> forall x :: x in entries && x !in todo ==> oldest <= entries[x].ts
          decreases todo
        {
          var id :| id in todo;
          todo := todo - {id};
          if oldestID == "" || entries[id].ts < oldest {
            oldestID := id;
            oldest := entries[id].ts;
          }
        }
        assert IsOldest(entries, oldestID);
        if oldestID == "" {
          return;
        }
        assert (entries - {oldestID}).Keys == entries.Keys - {oldestID};
        entries := entries - {oldestID};
      }
    }
  }

  lemma WebSessionNotEmpty(sessionID: string)
    ensures ChatSessionID(WEB, sessionID) != ""
  {
    assert TrimSpace(WEB) == WEB;
  }

  /** With a strictly increasing clock no two entries share a time, and the newcomer is the youngest. */
  lemma NewcomerYoungest(entries: map<string, Entry>, log: seq<Touch>, t: Touch)
    requires Represents(entries, log, t.ts) && AllBefore(log, t.ts)
    ensures DistinctTimes(entries[t.id := Entry(t.session, t.ts)])
  {
    var m := entries[t.id := Entry(t.session, t.ts)];
    forall x, y | x in m && y in m && x != y
      ensures m[x].ts != m[y].ts
    {
      if x in entries && x != t.id { assert Held(log, x, entries[x], t.ts); }
      if y in entries && y != t.id { assert Held(log, y, entries[y], t.ts); }
    }
  }

  // ----- whole histories -----

  datatype Op = StoreOp(responseID: string, sessionID: string, at: int) | LookupOp(responseID: string, at: int)

  function Answer(log: seq<Touch>, op: Op): Option<string> {
    if op.StoreOp? || TrimSpace(op.responseID) == "" then None
    else Remembered(log, TrimSpace(op.responseID), op.at)
  }

  function Extended(log: seq<Touch>, op: Op): seq<Touch> {
    var id := TrimSpace(op.responseID);
    if id == "" then log
    else if op.StoreOp? then log + [Touch(id, ChatSessionID(WEB, op.sessionID), op.at)]
    else match Answer(log, op)
         case None => log
         case Some(session) => log + [Touch(id, session, op.at)]
  }

  function LogAfter(ops: seq<Op>): seq<Touch> {
    if ops == [] then [] else Extended(LogAfter(ops[..|ops| - 1]), ops[|ops| - 1])
  }

  /** What the history of the earlier calls says about every call. */
  function AnswersAfter(ops: seq<Op>): (answers: seq<Option<string>>)
    ensures |answers| == |ops|
  {
    if ops == [] then []
    else
      var before := ops[..|ops| - 1];
      AnswersAfter(before) + [Answer(LogAfter(before), ops[|ops| - 1])]
  }

  method Perform(table: Table, op: Op) returns (answer: Option<string>)
    requires table.Valid() && op.at > table.clock
    modifies table
    ensures table.Valid() && table.clock == op.at
    ensures answer == Answer(old(table.log), op) && table.log == Extended(old(table.log), op)
  {
    hide TrimLeft, TrimRight, TrimSpace, ChatSessionID, Remembered, Represents;
    if op.StoreOp? {
      table.Store(op.responseID, op.sessionID, op.at);
      answer := None;
    } else {
      answer := table.Lookup(op.responseID, op.at);
    }
  }

  /** A fresh table driven through any calls at strictly increasing times answers every lookup from the
      history of the calls before it, and never holds more than 500 entries. */
  method Replay(ops: seq<Op>) returns (answers: seq<Option<string>>, sizes: seq<nat>)
    requires forall i :: 0 <= i < |ops| ==> ops[i].at > 0
    requires forall i, j :: 0 <= i < j < |ops| ==> ops[i].at < ops[j].at
    ensures answers == AnswersAfter(ops)
    ensures |sizes| == |ops| && forall i :: 0 <= i < |sizes| ==> sizes[i] <= MAX_ENTRIES
  {
    hide Answer, Extended, Represents;
    var table := new Table();
    answers, sizes := [], [];
    var i := 0;
    while i < |ops|
      invariant 0 <= i <= |ops|
      invariant fresh(table) && table.Valid() && table.log == LogAfter(ops[..i])
      invariant forall k :: i <= k < |ops| ==> table.clock < ops[k].at
      invariant answers == AnswersAfter(ops[..i])
      invariant |sizes| == i && forall k :: 0 <= k < i ==> sizes[k] <= MAX_ENTRIES
    {
      assert ops[..i + 1][..i] == ops[..i];
      var answer := Perform(table, ops[i]);
      answers := answers + [answer];
      sizes := sizes + [|table.entries|];
      i := i + 1;
    }
    assert ops[..i] == ops;
  }
}
