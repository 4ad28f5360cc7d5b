/** Session ids: how they are built, printed and parsed. */
module SessionIds {
  import opened Wrappers
  import opened Text

  datatype Kind = Chat | Cron | Heartbeat | Isolated | Rotated | Task

  datatype SessionID = SessionID(kind: Kind, owner: string, token: string)

  // uuid.Parse's verdict, and the sixteen hex digits New takes from SHA-256.
  datatype Externals = Externals(isUuid: string -> bool, hexHash: string -> string)

  function Prefixed(channel: string, peer: string): (id: string)
    requires Trimmed(channel) && Trimmed(peer)
    ensures Trimmed(id)
  {
    if channel == "" then peer
    else if HasPrefix(peer, channel + "-") then peer
    else
      var id := channel + "-" + peer;
      assert id[0] == channel[0] && id[|id| - 1] == if peer == "" then '-' else peer[|peer| - 1];
      id
  }

  /** ChatSessionID: the channel's prefix is added unless the peer already has it. */
  function ChatSessionID(channel: string, peer: string): (id: string)
    ensures Trimmed(id)
  {
    Prefixed(TrimSpace(channel), TrimSpace(peer))
  }

  /** FromRouteKey: a key of the form channel:peer. */
  function FromRouteKey(routeKey: string): (id: string)
    ensures Trimmed(id)
  {
    var key := TrimSpace(routeKey);
    var i := Index(key, ":");
    if 0 < i < |key| - 1 then ChatSessionID(key[..i], key[i + 1..]) else key
  }

  /** A peer that already carries its channel, and any peer without a channel, names its session; any other is put
      behind the channel and one dash. */
  lemma ChatIdMeans(channel: string, peer: string)
    ensures var c, p, id := TrimSpace(channel), TrimSpace(peer), ChatSessionID(channel, peer);
            && (c == "" || HasPrefix(p, c + "-") ==> id == p)
            && (c != "" && !HasPrefix(p, c + "-") ==>
                  |id| == |c| + 1 + |p| && HasPrefix(id, c + "-") && id[|c| + 1..] == p)
  {
    hide TrimSpace;
  }

  /** Two peers of one channel share a session only if they are the same, or one is the other with the channel. */
  lemma ChatIdsDiffer(channel: string, p: string, q: string)
    requires Trimmed(p) && Trimmed(q) && TrimSpace(channel) != ""
    ensures var c := TrimSpace(channel);
            ChatSessionID(channel, p) == ChatSessionID(channel, q) <==>
              || p == q
              || (!HasPrefix(q, c + "-") && p == c + "-" + q)
              || (!HasPrefix(p, c + "-") && q == c + "-" + p)
  {
    hide TrimSpace;
    ChatIdMeans(channel, p);
    ChatIdMeans(channel, q);
    var c := TrimSpace(channel);
    var x, y := ChatSessionID(channel, p), ChatSessionID(channel, q);
    assert HasPrefix(x, c + "-") && HasPrefix(y, c + "-");
    assert x == (c + "-") + x[|c| + 1..] && y == (c + "-") + y[|c| + 1..];
  }

  /** Adding the channel again changes nothing. */
  lemma ChatIdTwice(channel: string, peer: string)
    ensures ChatSessionID(channel, ChatSessionID(channel, peer)) == ChatSessionID(channel, peer)
  {
    hide TrimSpace, Prefixed;
    ChatIdMeans(channel, peer);
    ChatIdMeans(channel, ChatSessionID(channel, peer));
  }

  /** A route key names the chat session of what is before its first colon and what is behind it. */
  lemma RouteKeySplits(channel: string, peer: string)
    requires channel != "" && peer != "" && ':' !in channel && Trimmed(channel + ":" + peer)
    ensures FromRouteKey(channel + ":" + peer) == ChatSessionID(channel, peer)
  {
    hide Index, ChatSessionID, TrimLeft, TrimRight;
    var key := channel + ":" + peer;
    IndexOfChar(channel, ':', peer);
    assert key[..|channel|] == channel && key[|channel| + 1..] == peer;
  }

  /** A key without a colon, or with nothing before or behind the first one, is the session itself. */
  lemma RouteKeyWhole(key: string)
    requires Trimmed(key)
    requires ':' !in key || key[0] == ':' || ':' !in key[..|key| - 1]
    ensures FromRouteKey(key) == key
  {
    hide ChatSessionID, TrimLeft, TrimRight;
    var i := Index(key, ":");
    CharPlaces(key, ':');
    assert i >= 0 ==> key[i] == ':';
    assert 0 <= i < |key| - 1 ==> key[..|key| - 1][i] == key[i];
  }

  lemma RouteKeyTrims(key: string)
    ensures FromRouteKey(key) == FromRouteKey(TrimSpace(key))
  {
    hide ChatSessionID, TrimLeft, TrimRight, Index;
  }

  // ----- decimal numbers -----

  const MAX_INT64 := 0x7FFF_FFFF_FFFF_FFFF

  predicate IsInt64(n: int) {
    -MAX_INT64 - 1 <= n <= MAX_INT64
  }

  predicate IsDigit(c: char) {
    '0' <= c <= '9'
  }

  function Digit(n: nat): (c: char)
    requires n < 10
    ensures IsDigit(c) && c as int - '0' as int == n
  {
    ('0' as int + n) as char
  }

  /** strconv.FormatInt of a non-negative number. */
  function Decimal(n: nat): (s: string)
    ensures s != [] && forall i :: 0 <= i < |s| ==> IsDigit(s[i])
  {
    (if n < 10 then [] else Decimal(n / 10)) + [Digit(n % 10)]
  }

  function FormatInt(n: int): string {
    if n < 0 then "-" + Decimal(-n) else Decimal(n)
  }

  function DecimalValue(s: string): Option<nat> {
    if s == [] then Some(0)
    else
      var last := s[|s| - 1];
      match DecimalValue(s[..|s| - 1])
      case None => None
      case Some(v) => if IsDigit(last) then Some(v * 10 + (last as int - '0' as int)) else None
  }

  /** strconv.ParseInt in base 10 with 64 bits. */
  function ParseInt64(s: string): Option<int> {
    var negative := HasPrefix(s, "-");
    var digits := if negative || HasPrefix(s, "+") then s[1..] else s;
    if digits == [] then None
    else match DecimalValue(digits)
         case None => None
         case Some(v) =>
           var n: int := if negative then -(v as int) else v;
           if IsInt64(n) then Some(n) else None
  }

  lemma DecimalValueSnoc(s: string, c: char)
    requires DecimalValue(s).Some? && IsDigit(c)
    ensures DecimalValue(s + [c]) == Some(DecimalValue(s).value * 10 + (c as int - '0' as int))
  {
    assert (s + [c])[..|s|] == s;
  }

  lemma {:induction false} DecimalRoundTrip(n: nat)
    ensures DecimalValue(Decimal(n)) == Some(n)
  {
    if n >= 10 {
      DecimalRoundTrip(n / 10);
      DecimalValueSnoc(Decimal(n / 10), Digit(n % 10));
    } else {
      DecimalValueSnoc([], Digit(n));
    }
  }

  lemma DecimalLength(n: nat, digits: nat, bound: nat)
    requires digits > 0 && bound == Power10(digits) && n < bound
    ensures |Decimal(n)| <= digits
    decreases digits
  {
    if n >= 10 {
      assert digits > 1;
      DecimalLength(n / 10, digits - 1, Power10(digits - 1));
    }
  }

  function Power10(e: nat): nat {
    if e == 0 then 1 else 10 * Power10(e - 1)
  }

  lemma Power10Of19()
    ensures Power10(19) == 10_000_000_000_000_000_000
  {
    assert Power10(5) == 100_000;
    assert Power10(10) == 10_000_000_000;
    assert Power10(15) == 1_000_000_000_000_000;
  }

  lemma FormatIntParses(n: int)
    requires IsInt64(n)
    ensures ParseInt64(FormatInt(n)) == Some(n)
    ensures |FormatInt(n)| <= 20
    ensures FormatInt(n) != []
    ensures forall i :: 0 <= i < |FormatInt(n)| ==> FormatInt(n)[i] == '-' || IsDigit(FormatInt(n)[i])
  {
    hide Decimal, DecimalValue, Power10;
    var m := if n < 0 then -n else n;
    DecimalRoundTrip(m);
    Power10Of19();
    DecimalLength(m, 19, Power10(19));
    var s := Decimal(m);
    assert IsDigit(s[0]);
    if n < 0 {
      assert ("-" + s)[1..] == s;
    }
  }

  /** What ParseInt accepts starts neither with a colon nor with a space, and holds no colon or space at all. */
  lemma {:induction false} DecimalValueChars(s: string)
    requires DecimalValue(s).Some?
    ensures forall i :: 0 <= i < |s| ==> IsDigit(s[i])
    decreases |s|
  {
    if s != [] {
      DecimalValueChars(s[..|s| - 1]);
    }
  }

  lemma ParseIntChars(s: string)
    requires ParseInt64(s).Some?
    ensures s != [] && IsDigit(s[|s| - 1])
    ensures forall i :: 0 <= i < |s| ==> IsDigit(s[i]) || s[i] == '-' || s[i] == '+'
  {
    var digits := if HasPrefix(s, "-") || HasPrefix(s, "+") then s[1..] else s;
    DecimalValueChars(digits);
  }

  // ----- building, printing, parsing -----

  const ISOLATED := ":isolated:"
  const ROTATED := ":rotated:"
  const MAX_OWNER_BYTES := 80

  /** Length of a string in UTF-8 bytes. */
  function ByteLen(s: string): nat {
    if s == [] then 0
    else
      var u := s[|s| - 1] as int;
      ByteLen(s[..|s| - 1]) + if u < 0x80 then 1 else if u < 0x800 then 2 else if u < 0x1_0000 then 3 else 4
  }

  /** New: uuid is the fresh UUID and nano the clock, whichever the kind uses. */
  function New(env: Externals, kind: Kind, seed: string, uuid: string, nano: int): SessionID {
    var trimmed := TrimSpace(seed);
    var named := if trimmed == "" then "session" else trimmed;
    match kind
    case Cron => SessionID(Cron, trimmed, uuid)
    case Heartbeat => SessionID(Heartbeat, "", uuid)
    case Isolated => SessionID(Isolated, named, FormatInt(nano))
    case Rotated =>
      SessionID(Rotated, if ByteLen(named) > MAX_OWNER_BYTES then "r" + env.hexHash(named) else named, FormatInt(nano))
    case Task => SessionID(Task, "", uuid)
    case Chat => SessionID(Chat, trimmed, "")
  }

  function String(id: SessionID): string {
    match id.kind
    case Cron => "cron:" + id.owner + ":" + id.token
    case Heartbeat => "heartbeat:" + id.token
    case Task => "task:" + id.token
    case Isolated => id.owner + ISOLATED + id.token
    case Rotated => id.owner + ROTATED + id.token
    case Chat => id.owner
  }

  function ParseCron(env: Externals, rest: string): Result<SessionID, string> {
    var i := Index(rest, ":");
    if i < 1 || !env.isUuid(rest[i + 1..]) then Err("invalid cron session id")
    else Ok(SessionID(Cron, rest[..i], rest[i + 1..]))
  }

  function ParseToken(env: Externals, kind: Kind, token: string): Result<SessionID, string> {
    if env.isUuid(token) then Ok(SessionID(kind, "", token)) else Err("invalid session id")
  }

  function ParseSuffixed(kind: Kind, marker: string, s: string): (r: Result<SessionID, string>)
    requires Contains(s, marker)
    ensures r.Ok? ==> r.value.kind == kind
  {
    var i := Index(s, marker);
    if ParseInt64(s[i + |marker|..]).None? then Err("invalid session id")
    else Ok(SessionID(kind, s[..i], s[i + |marker|..]))
  }

  function ParseTrimmed(env: Externals, s: string): Result<SessionID, string> {
    if s == "" then Err("session id is empty")
    else if HasPrefix(s, "cron:") then ParseCron(env, s[5..])
    else if HasPrefix(s, "heartbeat:") then ParseToken(env, Heartbeat, s[10..])
    else if HasPrefix(s, "task:") then ParseToken(env, Task, s[5..])
    else if Contains(s, ISOLATED) then ParseSuffixed(Isolated, ISOLATED, s)
    else if Contains(s, ROTATED) then ParseSuffixed(Rotated, ROTATED, s)
    else Ok(SessionID(Chat, s, ""))
  }

  function Parse(env: Externals, raw: string): Result<SessionID, string> {
    ParseTrimmed(env, TrimSpace(raw))
  }

  // ----- when Parse undoes String -----

  /** The parts New fills in: a UUID (no surrounding space), a 64-bit decimal, or nothing. */
  ghost predicate Proper(env: Externals, id: SessionID) {
    match id.kind
    case Cron => env.isUuid(id.token) && id.token != "" && Trimmed(id.token)
    case Heartbeat => id.owner == "" && env.isUuid(id.token) && id.token != "" && Trimmed(id.token)
    case Task => id.owner == "" && env.isUuid(id.token) && id.token != "" && Trimmed(id.token)
    case Isolated => ParseInt64(id.token).Some?
    case Rotated => ParseInt64(id.token).Some?
    case Chat => id.token == ""
  }

  predicate ReservedStart(s: string) {
    HasPrefix(s, "cron:") || HasPrefix(s, "heartbeat:") || HasPrefix(s, "task:")
  }

  predicate Marked(s: string) {
    Contains(s, ISOLATED) || Contains(s, ROTATED)
  }

  /** Nothing a caller chose for the owner reads as another kind. The colon that follows an owner takes
      part: an owner may not even end in the beginning of a marker or be a bare reserved word. */
  predicate Readable(id: SessionID) {
    var owner := id.owner;
    match id.kind
    case Cron => owner != "" && ':' !in owner
    case Heartbeat => true
    case Task => true
    case Isolated =>
      (owner == "" || !IsSpace(owner[0])) && !ReservedStart(owner + ":") && !Contains(owner + ":", ISOLATED)
    case Rotated => (owner == "" || !IsSpace(owner[0])) && !ReservedStart(owner + ":") && !Marked(owner + ":")
    case Chat => owner != "" && Trimmed(owner) && !ReservedStart(owner) && !Marked(owner)
  }

  /** A word between two colons, like each marker and each reserved prefix read with its colon. */
  predicate ColonWord(w: string) {
    |w| >= 2 && w[|w| - 1] == ':' && forall i :: 0 < i < |w| - 1 ==> w[i] != ':'
  }

  /** An occurrence that begins inside the owner ends at the latest with the colon after it. */
  lemma OverlapAtColon(owner: string, rest: string, w: string, k: nat)
    requires ColonWord(w) && k < |owner| && rest != [] && rest[0] == ':'
    requires OccursAt(owner + rest, w, k)
    ensures k + |w| <= |owner| + 1
    ensures Contains(owner + ":", w)
  {
    var s, j := owner + rest, |owner| - k;
    if j < |w| {
      assert s[k..k + |w|][j] == s[|owner|] == ':';
      assert j == |w| - 1;
    }
    assert (owner + ":")[k..k + |w|] == s[k..k + |w|];
    assert OccursAt(owner + ":", w, k);
  }

  /** Conversely an occurrence in the owner and its colon is one in the whole string, inside the owner. */
  lemma OccursInOwner(owner: string, rest: string, w: string)
    requires ColonWord(w) && rest != [] && rest[0] == ':' && Contains(owner + ":", w)
    ensures 0 <= Index(owner + rest, w) < |owner|
  {
    hide Index;
    var short, long := owner + ":", owner + rest;
    var k := Index(short, w);
    assert short == long[..|owner| + 1];
    assert long[k..k + |w|] == short[k..k + |w|];
    assert OccursAt(long, w, k);
  }

  /** Where the marker is found: exactly at the join unless the owner brings one along. */
  lemma FirstMarker(owner: string, marker: string, token: string)
    requires ColonWord(marker) && marker[0] == ':'
    ensures var i := Index(owner + marker + token, marker);
            && 0 <= i <= |owner|
            && (i == |owner| <==> !Contains(owner + ":", marker))
  {
    var s := owner + marker + token;
    assert s == owner + (marker + token);
    assert s[|owner|..|owner| + |marker|] == marker;
    assert OccursAt(s, marker, |owner|);
    var i := Index(s, marker);
    if i < |owner| {
      OverlapAtColon(owner, marker + token, marker, i);
    }
    if Contains(owner + ":", marker) {
      OccursInOwner(owner, marker + token, marker);
    }
  }

  lemma StartsReserved(owner: string, rest: string)
    requires rest != [] && rest[0] == ':'
    ensures ReservedStart(owner + rest) <==> ReservedStart(owner + ":")
  {
    StartsWord(owner, rest, "cron:");
    StartsWord(owner, rest, "heartbeat:");
    StartsWord(owner, rest, "task:");
  }

  lemma StartsWord(owner: string, rest: string, w: string)
    requires rest != [] && rest[0] == ':' && ColonWord(w) && w[0] != ':'
    ensures HasPrefix(owner + rest, w) <==> HasPrefix(owner + ":", w)
  {
    var s := owner + rest;
    assert s[|owner|] == ':';
    if |owner| + 1 >= |w| {
      assert s[..|w|] == (owner + ":")[..|w|];
    } else {
      assert w[|owner|] != ':';
      assert !(w <= s);
    }
  }

  /** No isolated marker begins inside a rotated marker or the number after it. */
  lemma NoIsolatedAfter(token: string, k: nat)
    requires ParseInt64(token).Some?
    requires k + 2 <= |ROTATED + token|
    ensures !((ROTATED + token)[k] == ':' && (ROTATED + token)[k + 1] == 'i')
  {
    ParseIntChars(token);
    var s := ROTATED + token;
    if k >= 8 {
      assert s[k + 1] == token[k + 1 - 9];
    } else {
      assert s[k] == ROTATED[k] && s[k + 1] == ROTATED[k + 1];
    }
  }

  /** A rotated id holds an isolated marker only if its owner does. */
  lemma IsolatedInRotated(owner: string, token: string)
    requires ParseInt64(token).Some?
    ensures Contains(owner + ROTATED + token, ISOLATED) <==> Contains(owner + ":", ISOLATED)
  {
    hide Index, ParseInt64;
    var rest := ROTATED + token;
    var s := owner + rest;
    assert s == owner + ROTATED + token;
    if Contains(s, ISOLATED) {
      var k := Index(s, ISOLATED);
      var hit := s[k..k + 10];
      if k >= |owner| {
        assert hit == rest[k - |owner|..k - |owner| + 10];
        assert hit[0] == ISOLATED[0] && hit[1] == ISOLATED[1];
        NoIsolatedAfter(token, k - |owner|);
        assert false;
      }
      OverlapAtColon(owner, rest, ISOLATED, k);
    }
    if Contains(owner + ":", ISOLATED) {
      OccursInOwner(owner, rest, ISOLATED);
    }
  }

  lemma ReadsSuffixed(kind: Kind, owner: string, marker: string, token: string)
    requires ColonWord(marker) && marker[0] == ':' && ParseInt64(token).Some?
    ensures Contains(owner + marker + token, marker)
    ensures ParseSuffixed(kind, marker, owner + marker + token) == Ok(SessionID(kind, owner, token))
            <==> !Contains(owner + ":", marker)
  {
    hide Index, ParseInt64, ColonWord;
    var s := owner + marker + token;
    FirstMarker(owner, marker, token);
    var i := Index(s, marker);
    if i == |owner| {
      assert s[..i] == owner && s[i + |marker|..] == token;
    } else {
      assert |s[..i]| < |owner|;
    }
  }

  lemma ReadsCron(env: Externals, owner: string, token: string)
    requires env.isUuid(token)
    ensures ParseCron(env, owner + ":" + token) == Ok(SessionID(Cron, owner, token)) <==> owner != "" && ':' !in owner
  {
    var rest := owner + ":" + token;
    var i := Index(rest, ":");
    assert rest[|owner|..|owner| + 1] == ":";
    assert OccursAt(rest, ":", |owner|);
    if ':' in owner {
      var k :| 0 <= k < |owner| && owner[k] == ':';
      assert rest[k..k + 1] == ":";
      assert OccursAt(rest, ":", k);
      assert |rest[..i]| < |owner|;
    } else {
      assert rest[i..i + 1][0] == ':';
      assert forall k :: 0 <= k < |owner| ==> rest[k] == owner[k] != ':';
      assert rest[..i] == owner && rest[i + 1..] == token;
    }
  }

  lemma ReadsPrefixed(env: Externals, id: SessionID)
    requires (id.kind.Cron? || id.kind.Heartbeat? || id.kind.Task?) && Proper(env, id)
    ensures Parse(env, String(id)) == Ok(id) <==> Readable(id)
  {
    hide Index, ParseInt64, TrimRight, TrimLeft, TrimSpace, ParseCron, ParseSuffixed, Contains;
    var s := String(id);
    assert s[0] != ' ' && s[|s| - 1] == id.token[|id.token| - 1];
    assert Trimmed(s);
    match id.kind {
      case Cron =>
        assert s[5..] == id.owner + ":" + id.token && "cron:" <= s;
        ReadsCron(env, id.owner, id.token);
      case Heartbeat =>
        assert s[10..] == id.token && s[0] == 'h';
      case Task =>
        assert s[5..] == id.token && s[0] == 't';
    }
  }

  /** What ParseTrimmed finds in a string that starts with a reserved prefix, or does not. */
  lemma ReadsReserved(env: Externals, s: string)
    ensures ReservedStart(s) && ParseTrimmed(env, s).Ok? ==>
              var kind := ParseTrimmed(env, s).value.kind; kind.Cron? || kind.Heartbeat? || kind.Task?
    ensures s == "" ==> ParseTrimmed(env, s).Err?
    ensures !ReservedStart(s) && s != "" ==>
              ParseTrimmed(env, s) == if Contains(s, ISOLATED) then ParseSuffixed(Isolated, ISOLATED, s)
                                      else if Contains(s, ROTATED) then ParseSuffixed(Rotated, ROTATED, s)
                                      else Ok(SessionID(Chat, s, ""))
  {
  }

  lemma ReadsChat(env: Externals, id: SessionID)
    requires id.kind.Chat? && Proper(env, id)
    ensures Parse(env, String(id)) == Ok(id) <==> Readable(id)
  {
    hide Index, ParseInt64, TrimRight, TrimLeft, TrimSpace, ParseTrimmed, ParseSuffixed, ReservedStart, Contains;
    var s := TrimSpace(id.owner);
    ReadsReserved(env, s);
    if Trimmed(id.owner) {
      assert s == id.owner;
    }
  }

  /** The last character of an owner with a marker and a number is a digit. */
  lemma SuffixedTrimmed(owner: string, marker: string, token: string)
    requires ColonWord(marker) && marker[0] == ':' && ParseInt64(token).Some?
    ensures Trimmed(owner + marker + token) <==> owner == "" || !IsSpace(owner[0])
    ensures owner + marker + token != ""
  {
    ParseIntChars(token);
    var s := owner + marker + token;
    assert s[|s| - 1] == token[|token| - 1];
    assert s[0] == if owner == "" then ':' else owner[0];
  }

  /** Leading space of the owner is lost: no id that Parse returns begins with one. */
  lemma ParsedOwnerNotSpaced(env: Externals, s: string)
    requires Trimmed(s)
    ensures var r := ParseTrimmed(env, s);
            r.Ok? && (r.value.kind.Isolated? || r.value.kind.Rotated?) && r.value.owner != "" ==>
              !IsSpace(r.value.owner[0])
  {
    ReadsReserved(env, s);
  }

  lemma ReadsIsolated(env: Externals, id: SessionID)
    requires id.kind.Isolated? && Proper(env, id)
    ensures Parse(env, String(id)) == Ok(id) <==> Readable(id)
  {
    hide Index, ParseInt64, TrimRight, TrimLeft, TrimSpace, ParseTrimmed, ParseSuffixed, ReservedStart, Contains;
    var owner, token, s := id.owner, id.token, String(id);
    SuffixedTrimmed(owner, ISOLATED, token);
    ParsedOwnerNotSpaced(env, TrimSpace(s));
    ReadsReserved(env, s);
    assert s == owner + (ISOLATED + token);
    StartsReserved(owner, ISOLATED + token);
    ReadsSuffixed(Isolated, owner, ISOLATED, token);
  }

  lemma ReadsRotated(env: Externals, id: SessionID)
    requires id.kind.Rotated? && Proper(env, id)
    ensures Parse(env, String(id)) == Ok(id) <==> Readable(id)
  {
    hide Index, ParseInt64, TrimRight, TrimLeft, TrimSpace, ParseTrimmed, ParseSuffixed, ReservedStart, Contains;
    var owner, token, s := id.owner, id.token, String(id);
    SuffixedTrimmed(owner, ROTATED, token);
    ParsedOwnerNotSpaced(env, TrimSpace(s));
    ReadsReserved(env, s);
    assert s == owner + (ROTATED + token);
    StartsReserved(owner, ROTATED + token);
    IsolatedInRotated(owner, token);
    ReadsSuffixed(Rotated, owner, ROTATED, token);
  }

  /** Parse undoes String exactly for the readable ids. */
  lemma ParseUndoesString(env: Externals, id: SessionID)
    requires Proper(env, id)
    ensures Parse(env, String(id)) == Ok(id) <==> Readable(id)
  {
    match id.kind {
      case Isolated => ReadsIsolated(env, id);
      case Rotated => ReadsRotated(env, id);
      case Chat => ReadsChat(env, id);
      case _ => ReadsPrefixed(env, id);
    }
  }

  /** Readable ids of any two kinds never print alike. */
  lemma KindsNeverCollide(env: Externals, a: SessionID, b: SessionID)
    requires Proper(env, a) && Readable(a) && Proper(env, b) && Readable(b)
    requires String(a) == String(b)
    ensures a == b
  {
    ParseUndoesString(env, a);
    ParseUndoesString(env, b);
  }

  // ----- what else Parse promises -----

  /** The id prints as this text and carries the parts its kind needs. */
  ghost predicate PrintsAs(env: Externals, id: SessionID, s: string) {
    && String(id) == s
    && (id.kind.Cron? ==> id.owner != "" && ':' !in id.owner)
    && (id.kind.Cron? || id.kind.Heartbeat? || id.kind.Task? ==> env.isUuid(id.token))
    && (id.kind.Isolated? || id.kind.Rotated? ==> ParseInt64(id.token).Some?)
    && (id.kind.Heartbeat? || id.kind.Task? ==> id.owner == "") && (id.kind.Chat? ==> id.token == "")
  }

  /** Whatever Parse accepts prints back to what was parsed. */
  lemma StringUndoesParse(env: Externals, raw: string)
    requires Parse(env, raw).Ok?
    ensures TrimSpace(raw) != "" && PrintsAs(env, Parse(env, raw).value, TrimSpace(raw))
  {
    hide TrimSpace, ParseTrimmed, PrintsAs, ReservedStart;
    var s := TrimSpace(raw);
    ReadsReserved(env, s);
    if ReservedStart(s) {
      ReservedPrints(env, s);
    } else {
      MarkedPrints(env, s);
    }
  }

  lemma ReservedPrints(env: Externals, s: string)
    requires ReservedStart(s) && ParseTrimmed(env, s).Ok?
    ensures PrintsAs(env, ParseTrimmed(env, s).value, s)
  {
    hide ParseInt64, Index, ParseCron, ParseToken, ParseSuffixed, Contains, OccursAt, PrintsAs;
    if HasPrefix(s, "cron:") {
      assert s == "cron:" + s[5..];
      CronPrints(env, s[5..]);
      PrintedCron(env, ParseTrimmed(env, s).value, s[5..]);
    } else if HasPrefix(s, "heartbeat:") {
      assert s == "heartbeat:" + s[10..];
      TokenPrints(env, Heartbeat, s[10..]);
    } else {
      assert s == "task:" + s[5..];
      TokenPrints(env, Task, s[5..]);
    }
  }

  lemma PrintedCron(env: Externals, id: SessionID, rest: string)
    requires id.kind.Cron? && id.owner + ":" + id.token == rest && id.owner != "" && ':' !in id.owner
    requires env.isUuid(id.token)
    ensures PrintsAs(env, id, "cron:" + rest)
  {
    assert "cron:" + id.owner + ":" + id.token == "cron:" + rest;
  }

  lemma TokenPrints(env: Externals, kind: Kind, token: string)
    requires kind.Heartbeat? || kind.Task?
    ensures ParseToken(env, kind, token).Ok? ==>
              PrintsAs(env, ParseToken(env, kind, token).value, (if kind.Task? then "task:" else "heartbeat:") + token)
  {
  }

  lemma MarkedPrints(env: Externals, s: string)
    requires !ReservedStart(s) && ParseTrimmed(env, s).Ok?
    ensures PrintsAs(env, ParseTrimmed(env, s).value, s)
  {
    hide ParseInt64, ParseTrimmed, ParseSuffixed, Contains, ReservedStart;
    ReadsReserved(env, s);
    if Contains(s, ISOLATED) {
      SuffixedPrints(Isolated, ISOLATED, s);
    } else if Contains(s, ROTATED) {
      SuffixedPrints(Rotated, ROTATED, s);
    }
  }

  lemma CronPrints(env: Externals, rest: string)
    requires ParseCron(env, rest).Ok?
    ensures var id := ParseCron(env, rest).value;
            && id.kind.Cron? && id.owner + ":" + id.token == rest
            && id.owner != "" && ':' !in id.owner && env.isUuid(id.token)
  {
    var i := Index(rest, ":");
    CharPlaces(rest, ':');
    assert rest[i] == ':';
    forall k | 0 <= k < i
      ensures rest[k] != ':'
    {
      assert OccursAt(rest, ":", k) <==> rest[k] == ':';
    }
    assert rest == rest[..i] + ":" + rest[i + 1..];
  }

  lemma SuffixedPrints(kind: Kind, marker: string, s: string)
    requires Contains(s, marker) && ParseSuffixed(kind, marker, s).Ok?
    ensures var id := ParseSuffixed(kind, marker, s).value;
            id.kind == kind && id.owner + marker + id.token == s && ParseInt64(id.token).Some?
  {
    hide Index, ParseInt64;
    var i := Index(s, marker);
    assert OccursAt(s, marker, i);
    assert s == s[..i] + s[i..i + |marker|] + s[i + |marker|..];
  }

  /** Text that starts with no reserved prefix and holds no marker is a chat id. */
  lemma PlainTextIsChat(env: Externals, raw: string)
    requires TrimSpace(raw) != "" && !ReservedStart(TrimSpace(raw)) && !Marked(TrimSpace(raw))
    ensures Parse(env, raw) == Ok(SessionID(Chat, TrimSpace(raw), ""))
  {
    hide TrimSpace, Contains;
  }

  /** The parts New fills in for each kind. */
  lemma NewMeans(env: Externals, kind: Kind, seed: string, uuid: string, nano: int)
    requires IsInt64(nano)
    ensures var id, owner := New(env, kind, seed, uuid, nano), TrimSpace(seed);
            && id.kind == kind
            && (kind.Cron? || kind.Chat? ==> id.owner == owner)
            && (kind.Heartbeat? || kind.Task? ==> id.owner == "")
            && (kind.Isolated? ==> id.owner == if owner == "" then "session" else owner)
            && (kind.Rotated? && owner == "" ==> id.owner == "session")
            && (kind.Rotated? && owner != "" && ByteLen(owner) <= 80 ==> id.owner == owner)
            && (kind.Rotated? && owner != "" && ByteLen(owner) > 80 ==>
                  id.owner == "r" + env.hexHash(owner))
            && (kind.Cron? || kind.Heartbeat? || kind.Task? ==> id.token == uuid)
            && (kind.Isolated? || kind.Rotated? ==> ParseInt64(id.token) == Some(nano))
            && (kind.Chat? ==> id.token == "")
  {
    hide TrimSpace, ByteLen, ParseInt64, FormatInt;
    FormatIntParses(nano);
    ByteLenAscii("session");
  }

  // ----- rotation -----

  /** Rotating one id at two different times gives two different ids. */
  lemma RotationsDiffer(env: Externals, seed: string, nano: int, nano': int)
    requires IsInt64(nano) && IsInt64(nano') && nano != nano'
    ensures String(New(env, Rotated, seed, "", nano)) != String(New(env, Rotated, seed, "", nano'))
  {
    hide TrimSpace, ByteLen, ParseInt64, FormatInt;
    FormatIntParses(nano);
    FormatIntParses(nano');
    var a, b := New(env, Rotated, seed, "", nano), New(env, Rotated, seed, "", nano');
    assert a.owner == b.owner && a.token != b.token;
    assert String(a)[|a.owner| + 9..] == a.token && String(b)[|b.owner| + 9..] == b.token;
  }

  ghost predicate HashOk(env: Externals) {
    forall s: string :: |env.hexHash(s)| == 16 && forall i :: 0 <= i < 16 ==> env.hexHash(s)[i] in "0123456789abcdef"
  }

  lemma {:induction false} ByteLenJoin(a: string, b: string)
    ensures ByteLen(a + b) == ByteLen(a) + ByteLen(b)
    decreases |b|
  {
    if b == [] {
      assert a + b == a;
    } else {
      assert (a + b)[..|a + b| - 1] == a + b[..|b| - 1];
      ByteLenJoin(a, b[..|b| - 1]);
    }
  }

  lemma {:induction false} ByteLenAscii(s: string)
    requires forall i :: 0 <= i < |s| ==> s[i] as int < 0x80
    ensures ByteLen(s) == |s|
    decreases |s|
  {
    if s != [] {
      ByteLenAscii(s[..|s| - 1]);
    }
  }

  /** The owner a rotated id is given. */
  function RotatedOwner(env: Externals, seed: string): string {
    New(env, Rotated, seed, "", 0).owner
  }

  lemma RotatedOwnerBounded(env: Externals, seed: string)
    requires HashOk(env)
    ensures ByteLen(RotatedOwner(env, seed)) <= MAX_OWNER_BYTES
  {
    var trimmed := TrimSpace(seed);
    var named := if trimmed == "" then "session" else trimmed;
    if ByteLen(named) > MAX_OWNER_BYTES {
      var h := env.hexHash(named);
      ByteLenAscii("r");
      ByteLenAscii(h);
      ByteLenJoin("r", h);
    }
  }

  /** Whatever it is rotated from, even a chain of rotated ids, a rotated id fits in 80 + 9 + 20 bytes. */
  lemma RotatedIdIsBounded(env: Externals, seed: string, nano: int)
    requires HashOk(env) && IsInt64(nano)
    ensures ByteLen(String(New(env, Rotated, seed, "", nano))) <= 80 + 9 + 20
  {
    hide ByteLen, FormatInt, TrimSpace, Decimal;
    var owner, token := RotatedOwner(env, seed), FormatInt(nano);
    RotatedOwnerBounded(env, seed);
    FormatIntParses(nano);
    ByteLenAscii(token);
    ByteLenAscii(ROTATED);
    ByteLenJoin(owner + ROTATED, token);
    ByteLenJoin(owner, ROTATED);
  }

  lemma RotatedOwnerStart(env: Externals, seed: string)
    ensures RotatedOwner(env, seed) != "" && !IsSpace(RotatedOwner(env, seed)[0])
  {
    hide ByteLen, FormatInt, Decimal, TrimLeft, TrimRight, TrimSpace;
    var trimmed := TrimSpace(seed);
    if trimmed != "" {
      assert !IsSpace(trimmed[0]);
    }
  }

  lemma RotatedTrimmed(env: Externals, seed: string, nano: int)
    requires IsInt64(nano)
    ensures var s := String(New(env, Rotated, seed, "", nano)); s != "" && Trimmed(s)
  {
    hide ByteLen, FormatInt, Decimal, TrimLeft, TrimRight, TrimSpace, ParseInt64, Trimmed, IsSpace;
    var owner := RotatedOwner(env, seed);
    RotatedOwnerStart(env, seed);
    FormatIntParses(nano);
    SuffixedTrimmed(owner, ROTATED, FormatInt(nano));
  }

  lemma NoMarker(owner: string, w: string)
    requires ':' !in owner && ColonWord(w) && w[0] == ':'
    ensures !Contains(owner + ":", w)
  {
    var s := owner + ":";
    var k := Index(s, w);
    if k >= 0 {
      assert false;
    }
  }

  lemma NoColonReadable(owner: string, token: string)
    requires owner != "" && owner[0] == 'r' && ':' !in owner
    ensures Readable(SessionID(Rotated, owner, token))
  {
    var s := owner + ":";
    NoMarker(owner, ISOLATED);
    NoMarker(owner, ROTATED);
    assert s[0] == 'r';
  }

  lemma OwnerOfChain(env: Externals, first: string, nano: int)
    requires Trimmed(first) && first != "" && IsInt64(nano)
    ensures var second := New(env, Rotated, first, "", nano);
            && second.owner == (if ByteLen(first) > MAX_OWNER_BYTES then "r" + env.hexHash(first) else first)
            && second.kind.Rotated? && Proper(env, second)
  {
    hide ByteLen, FormatInt, ParseInt64;
    FormatIntParses(nano);
  }

  lemma OwnerWithMarker(owner: string, token: string)
    ensures Marked(owner + ROTATED + token + ":")
  {
    var s := owner + ROTATED + token + ":";
    assert s[|owner|..|owner| + 9] == ROTATED;
    assert OccursAt(s, ROTATED, |owner|);
  }

  /** A rotated id that is rotated again can be parsed back exactly when the first one was long enough
      to be hashed away. */
  lemma ChainedRotationReads(env: Externals, seed: string, nano: int, nano': int)
    requires HashOk(env) && IsInt64(nano) && IsInt64(nano')
    ensures var first := String(New(env, Rotated, seed, "", nano));
            var second := New(env, Rotated, first, "", nano');
            Parse(env, String(second)) == Ok(second) <==> ByteLen(first) > MAX_OWNER_BYTES
  {
    hide Index, ByteLen, ParseInt64, Parse, FormatInt, ReservedStart, TrimSpace;
    var owner := RotatedOwner(env, seed);
    var first := String(New(env, Rotated, seed, "", nano));
    var second := New(env, Rotated, first, "", nano');
    RotatedTrimmed(env, seed, nano);
    OwnerOfChain(env, first, nano');
    ParseUndoesString(env, second);
    if ByteLen(first) > MAX_OWNER_BYTES {
      HashHasNoColon(env, first);
      NoColonReadable(second.owner, second.token);
    } else {
      OwnerWithMarker(owner, FormatInt(nano));
    }
  }

  lemma HashHasNoColon(env: Externals, named: string)
    requires HashOk(env)
    ensures ':' !in "r" + env.hexHash(named)
  {
    var h := env.hexHash(named);
    forall c | c in "r" + h
      ensures c != ':'
    {
      var i :| 0 <= i < |"r" + h| && ("r" + h)[i] == c;
      assert i > 0 ==> h[i - 1] in "0123456789abcdef";
    }
  }
}
