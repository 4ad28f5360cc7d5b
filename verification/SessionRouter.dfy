/** The session router and the compaction that rotates it. */
module SessionRouter {
  import opened Wrappers
  import opened Text
  import opened SessionIds

  type Sessions = map<string, string>

  function Stored(m: Sessions, key: string): string {
    if key in m then TrimSpace(m[key]) else ""
  }

  /** The key's own session, else the fallback, else the one its route key names. */
  function ResolveIn(m: Sessions, key: string, fallback: string): string {
    var k, f := TrimSpace(key), TrimSpace(fallback);
    if Stored(m, k) != "" then Stored(m, k)
    else if f != "" then f
    else FromRouteKey(k)
  }

  function CurrentIn(m: Sessions, key: string): string {
    ResolveIn(m, key, FromRouteKey(key))
  }

  function RotatedFrom(m: Sessions, key: string): string {
    var k := TrimSpace(key);
    if Stored(m, k) != "" then Stored(m, k) else FromRouteKey(k)
  }

  function SetIn(m: Sessions, key: string, sessionID: string): Sessions {
    var k, id := TrimSpace(key), TrimSpace(sessionID);
    if k == "" then m
    else if id == "" || id == FromRouteKey(k) then m - {k}
    else m[k := id]
  }

  class Router {
    var sessions: Sessions
    const env: Externals

    constructor (env: Externals, sessions: Sessions)
      ensures this.env == env && this.sessions == sessions
    {
      this.env := env;
      this.sessions := sessions;
    }

    function Current(key: string): string
      reads this
    {
      CurrentIn(sessions, key)
    }

    /** A failed save is reported, but the rotation stays in memory. */
    method Rotate(key: string, nano: int, persisted: bool) returns (r: Result<(string, string), string>)
      modifies this`sessions
      ensures TrimSpace(key) == "" ==> r.Err? && sessions == old(sessions)
      ensures TrimSpace(key) != "" ==>
                var prev := RotatedFrom(old(sessions), key);
                var next := String(New(env, Rotated, prev, "", nano));
                && sessions == old(sessions)[TrimSpace(key) := next]
                && r == if persisted then Ok((prev, next)) else Err("persist")
    {
      var k := TrimSpace(key);
      if k == "" {
        return Err("session key is empty");
      }
      var defaultID := FromRouteKey(k);
      var prev := if k in sessions then TrimSpace(sessions[k]) else "";
      if prev == "" {
        prev := defaultID;
      }
      var next := String(New(env, Rotated, prev, "", nano));
      sessions := sessions[k := next];
      if !persisted {
        return Err("persist");
      }
      return Ok((prev, next));
    }

    method Set(key: string, sessionID: string, persisted: bool) returns (ok: bool)
      modifies this`sessions
      ensures sessions == SetIn(old(sessions), key, sessionID)
      ensures ok == (TrimSpace(key) == "" || persisted)
    {
      var k, id := TrimSpace(key), TrimSpace(sessionID);
      if k == "" {
        return true;
      }
      if id == "" || id == FromRouteKey(k) {
        sessions := sessions - {k};
      } else {
        sessions := sessions[k := id];
      }
      return persisted;
    }
  }

  // ----- what rotating and setting do to every key -----

  lemma TrimTwice(s: string)
    ensures TrimSpace(TrimSpace(s)) == TrimSpace(s)
    ensures FromRouteKey(TrimSpace(s)) == FromRouteKey(s)
  {
    hide TrimSpace, ChatSessionID;
  }

  /** What rotates is what was current. */
  lemma RotatesTheCurrent(m: Sessions, key: string)
    ensures RotatedFrom(m, key) == CurrentIn(m, key)
  {
    TrimTwice(key);
  }

  /** A key's current session is the one stored for it, else the one it names. */
  lemma CurrentIs(m: Sessions, key: string)
    ensures var k := TrimSpace(key);
            CurrentIn(m, key) == if Stored(m, k) != "" then Stored(m, k) else FromRouteKey(k)
  {
    hide TrimSpace, FromRouteKey;
    TrimTwice(key);
  }

  lemma CurrentAfterPut(m: Sessions, key: string, id: string, other: string)
    requires id != "" && Trimmed(id)
    ensures CurrentIn(m[TrimSpace(key) := id], other)
            == if TrimSpace(other) == TrimSpace(key) then id else CurrentIn(m, other)
  {
    hide TrimSpace, FromRouteKey, CurrentIn;
    CurrentIs(m, other);
    CurrentIs(m[TrimSpace(key) := id], other);
  }

  lemma CurrentAfterSet(m: Sessions, key: string, id: string, other: string)
    requires TrimSpace(key) != "" && Trimmed(id)
    ensures TrimSpace(other) != TrimSpace(key) ==> CurrentIn(SetIn(m, key, id), other) == CurrentIn(m, other)
    ensures TrimSpace(other) == TrimSpace(key) ==>
              CurrentIn(SetIn(m, key, id), other) == if id == "" then FromRouteKey(key) else id
  {
    hide TrimSpace, FromRouteKey, CurrentIn;
    TrimTwice(key);
    CurrentIs(m, other);
    CurrentIs(SetIn(m, key, id), other);
  }

  /** Moving a key to any new id and then Set of the id it rotated from restores the current session of every key. */
  lemma RotateThenSetRestores(m: Sessions, key: string, next: string, other: string)
    requires TrimSpace(key) != "" && next != "" && Trimmed(next)
    ensures var rotated := m[TrimSpace(key) := next];
            && CurrentIn(rotated, key) == next
            && CurrentIn(SetIn(rotated, key, RotatedFrom(m, key)), other) == CurrentIn(m, other)
  {
    hide TrimLeft, TrimRight, ChatSessionID, Index, FromRouteKey;
    RotatesTheCurrent(m, key);
    TrimTwice(key);
    TrimTwice(other);
    CurrentAfterPut(m, key, next, key);
    CurrentAfterPut(m, key, next, other);
    CurrentAfterSet(m[TrimSpace(key) := next], key, RotatedFrom(m, key), other);
    RouteKeyOfRest(key);
  }

  /** A non-empty key always names a non-empty session. */
  lemma RouteKeyOfRest(key: string)
    requires TrimSpace(key) != ""
    ensures FromRouteKey(key) != ""
  {
    hide TrimLeft, TrimRight;
    var k := TrimSpace(key);
    var i := Index(k, ":");
    if 0 < i < |k| - 1 {
      TrimmedStart(k, i);
      assert ChatSessionID(k[..i], k[i + 1..]) != "";
    }
  }

  lemma TrimmedStart(k: string, i: nat)
    requires Trimmed(k) && 0 < i <= |k|
    ensures TrimSpace(k[..i]) != ""
  {
    assert !IsSpace(k[..i][0]);
    assert TrimLeft(k[..i]) == k[..i];
    TrimRightKeepsFirst(k[..i]);
  }

  lemma {:induction false} TrimRightKeepsFirst(s: string)
    requires s != "" && !IsSpace(s[0])
    ensures TrimRight(s) != ""
    decreases |s|
  {
    if IsSpace(s[|s| - 1]) {
      TrimRightKeepsFirst(s[..|s| - 1]);
    }
  }

  // ----- compaction -----

  datatype ResponseMode = Ack | Summary

  datatype Reply = NotHandled | Failed | Acked | Summarised(text: string)

  /** The first action in the trail decides. */
  function FirstAction(trail: seq<Option<ResponseMode>>): (action: Option<ResponseMode>)
    ensures action.None? <==> forall i :: 0 <= i < |trail| ==> trail[i].None?
    ensures action.Some? ==>
              exists i :: 0 <= i < |trail| && trail[i] == action && forall j :: 0 <= j < i ==> trail[j].None?
  {
    if trail == [] then None
    else if trail[0].Some? then trail[0]
    else FirstAction(trail[1..])
  }

  /** Everything a compaction relies on, for all keys at once. */
  lemma CompactionRotates(env: Externals, m: Sessions, route: string, nano: int)
    requires TrimSpace(route) != "" && IsInt64(nano)
    ensures var prev := CurrentIn(m, route);
            var next := String(New(env, Rotated, prev, "", nano));
            var rotated := m[TrimSpace(route) := next];
            && prev == RotatedFrom(m, route) && TrimSpace(next) != ""
            && CurrentIn(rotated, route) == next
            && (forall key :: TrimSpace(key) != TrimSpace(route) ==> CurrentIn(rotated, key) == CurrentIn(m, key))
            && (forall key :: CurrentIn(SetIn(rotated, route, prev), key) == CurrentIn(m, key))
  {
    hide TrimLeft, TrimRight, ChatSessionID, Index, New, String, FromRouteKey, CurrentIn, SetIn;
    var prev := CurrentIn(m, route);
    var next := String(New(env, Rotated, prev, "", nano));
    RotatedTrimmed(env, prev, nano);
    RotatesTheCurrent(m, route);
    forall key
      ensures CurrentIn(SetIn(m[TrimSpace(route) := next], route, prev), key) == CurrentIn(m, key)
      ensures TrimSpace(key) != TrimSpace(route) ==> CurrentIn(m[TrimSpace(route) := next], key) == CurrentIn(m, key)
    {
      RotateThenSetRestores(m, route, next, key);
      CurrentAfterPut(m, route, next, key);
    }
    CurrentAfterPut(m, route, next, route);
  }

  /** When only this route can have moved, no key has moved exactly when the route has not. */
  lemma KeptUnlessMoved(m: Sessions, after: Sessions, route: string)
    requires forall key :: TrimSpace(key) != TrimSpace(route) ==> CurrentIn(after, key) == CurrentIn(m, key)
    ensures (forall key :: CurrentIn(after, key) == CurrentIn(m, key)) <==>
            CurrentIn(after, route) == CurrentIn(m, route)
  {
    forall key | TrimSpace(key) == TrimSpace(route)
      ensures CurrentIn(after, key) == CurrentIn(after, route) && CurrentIn(m, key) == CurrentIn(m, route)
    {
      CurrentIs(after, key);
      CurrentIs(after, route);
      CurrentIs(m, key);
      CurrentIs(m, route);
    }
  }

  class Handler {
    const router: Router
    var workspace: string

    constructor (router: Router, workspace: string)
      ensures this.router == router && this.workspace == workspace
    {
      this.router := router;
      this.workspace := workspace;
    }

    method ExtractPostAction(trail: seq<Option<ResponseMode>>) returns (action: Option<ResponseMode>)
      ensures action == FirstAction(trail)
    {
      var i := 0;
      while i < |trail|
        invariant 0 <= i <= |trail|
        invariant FirstAction(trail) == FirstAction(trail[i..])
      {
        if trail[i].Some? {
          return trail[i];
        }
        i := i + 1;
      }
      action := None;
    }

    /** HandlePostResponse. written is whether the seed file could be written. When seeding the new
        session fails, every key's current session is what it was before the compaction; when the rotation
        itself cannot be persisted, it stays: the route is left on the new session. */
    method HandlePostResponse(route: string, output: string, trail: seq<Option<ResponseMode>>, nano: int,
                              persisted: bool, written: bool, restored: bool) returns (reply: Reply)
      requires IsInt64(nano)
      modifies router`sessions
      ensures FirstAction(trail).None? ==> reply == NotHandled && unchanged(router)
      ensures FirstAction(trail).Some? && (TrimSpace(output) == "" || TrimSpace(route) == "") ==>
                reply == Failed && unchanged(router)
      ensures FirstAction(trail).Some? && TrimSpace(output) != "" && TrimSpace(route) != "" && persisted ==>
                && (reply == Failed <==> TrimSpace(workspace) == "" || !written)
                && (reply == Failed ==> forall key :: router.Current(key) == old(router.Current(key)))
                && (reply != Failed ==>
                      && router.Current(route) == String(New(router.env, Rotated, old(router.Current(route)), "", nano))
                      && (forall key :: TrimSpace(key) != TrimSpace(route) ==>
                          router.Current(key) == old(router.Current(key)))
                      && reply == if FirstAction(trail).value == Ack then Acked else Summarised(TrimSpace(output)))
      ensures FirstAction(trail).Some? && TrimSpace(output) != "" && TrimSpace(route) != "" ==>
                var next := String(New(router.env, Rotated, old(router.Current(route)), "", nano));
                && (!persisted ==>
                      && reply == Failed && router.Current(route) == next
                      && forall key :: TrimSpace(key) != TrimSpace(route) ==>
                        router.Current(key) == old(router.Current(key)))
                && (reply == Failed ==>
                      ((forall key :: router.Current(key) == old(router.Current(key)))
                       <==> persisted || next == old(router.Current(route))))
    {
      hide New, String, FromRouteKey, CurrentIn, SetIn, RotatedFrom, TrimSpace, TrimLeft, TrimRight;
      var action := ExtractPostAction(trail);
      if action.None? {
        return NotHandled;
      }
      var summary := TrimSpace(output);
      if summary == "" {
        return Failed;
      }
      ghost var before := router.sessions;
      var r := router.Rotate(route, nano, persisted);
      if r.Err? {
        if TrimSpace(route) != "" {
          CompactionRotates(router.env, before, route, nano);
          KeptUnlessMoved(before, router.sessions, route);
        }
        return Failed;
      }
      var (prev, next) := r.value;
      CompactionRotates(router.env, before, route, nano);
      if TrimSpace(workspace) == "" || TrimSpace(next) == "" || !written {
        var _ := router.Set(route, prev, restored);
        return Failed;
      }
      reply := if action.value == Ack then Acked else Summarised(summary);
    }
  }
}
