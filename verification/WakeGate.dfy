/** The wake gate: matching a spoken phrase, and the conversation window around replies. */
module WakeGate {
  import opened Wrappers
  import opened Text

  const DEFAULT_WINDOW := 8_000_000_000

  // ----- tokens -----

  /** strings.Fields: the maximal runs without white space, pending being the run in progress. */
  function FieldsFrom(pending: string, s: string): seq<string>
    decreases |s|
  {
    if s == [] then Flushed(pending)
    else if IsSpace(s[0]) then Flushed(pending) + FieldsFrom("", s[1..])
    else FieldsFrom(pending + [s[0]], s[1..])
  }

  function Flushed(pending: string): seq<string> {
    if pending == "" then [] else [pending]
  }

  function Fields(s: string): seq<string> {
    FieldsFrom("", s)
  }

  predicate Solid(t: string) {
    t != "" && forall i :: 0 <= i < |t| ==> !IsSpace(t[i])
  }

  lemma {:induction false} FieldsAreSolid(pending: string, s: string)
    requires forall i :: 0 <= i < |pending| ==> !IsSpace(pending[i])
    ensures forall i :: 0 <= i < |FieldsFrom(pending, s)| ==> Solid(FieldsFrom(pending, s)[i])
    decreases |s|
  {
    hide IsSpace;
    if s != [] {
      if IsSpace(s[0]) {
        FieldsAreSolid("", s[1..]);
      } else {
        FieldsAreSolid(pending + [s[0]], s[1..]);
      }
    }
  }

  /** strings.Join with single spaces. */
  function Joined(tokens: seq<string>): string {
    if tokens == [] then "" else if |tokens| == 1 then tokens[0] else tokens[0] + " " + Joined(tokens[1..])
  }

  /** Tokens joined by spaces are the fields of the result. */
  lemma {:induction false} FieldsOfJoined(tokens: seq<string>)
    requires forall i :: 0 <= i < |tokens| ==> Solid(tokens[i])
    ensures Fields(Joined(tokens)) == tokens && Trimmed(Joined(tokens))
  {
    hide IsSpace, FieldsFrom;
    if tokens == [] {
      FieldsAtEnd("");
    } else {
      var t := tokens[0];
      assert "" + t == t;
      assert Solid(t);
      if |tokens| == 1 {
        FieldsSkipSolid("", t, "");
        assert t + "" == t;
        FieldsAtEnd(t);
        assert [t] == tokens;
      } else {
        var rest := Joined(tokens[1..]);
        FieldsOfJoined(tokens[1..]);
        FieldsSkipSolid("", t, " " + rest);
        assert t + (" " + rest) == Joined(tokens);
        FieldsAtSpace(t, rest);
        assert [t] + tokens[1..] == tokens;
        JoinedNotEmpty(tokens[1..]);
      }
    }
  }

  lemma {:induction false} JoinedNotEmpty(tokens: seq<string>)
    requires tokens != [] && forall i :: 0 <= i < |tokens| ==> Solid(tokens[i])
    ensures Joined(tokens) != ""
  {
    assert Solid(tokens[0]);
  }

  lemma FieldsAtEnd(pending: string)
    ensures FieldsFrom(pending, "") == Flushed(pending)
  {
  }

  lemma FieldsAtSpace(pending: string, rest: string)
    ensures FieldsFrom(pending, " " + rest) == Flushed(pending) + Fields(rest)
  {
    assert (" " + rest)[1..] == rest;
  }

  lemma {:induction false} FieldsSkipSolid(pending: string, t: string, rest: string)
    requires forall i :: 0 <= i < |t| ==> !IsSpace(t[i])
    ensures FieldsFrom(pending, t + rest) == FieldsFrom(pending + t, rest)
    decreases |t|
  {
    hide IsSpace;
    if t == [] {
      assert t + rest == rest && pending + t == pending;
    } else {
      FieldsSkipSolid(pending + [t[0]], t[1..], rest);
      assert (t + rest)[1..] == t[1..] + rest && pending + [t[0]] + t[1..] == pending + t;
    }
  }

  /** White space of any kind separates fields, and what lies on either side has its own. */
  lemma FieldsSplit(a: string, c: char, b: string)
    requires IsSpace(c)
    ensures Fields(a + [c] + b) == Fields(a) + Fields(b)
  {
    FieldsFromSplit("", a, c, b);
  }

  lemma {:induction false} FieldsFromSplit(pending: string, a: string, c: char, b: string)
    requires IsSpace(c)
    ensures FieldsFrom(pending, a + [c] + b) == FieldsFrom(pending, a) + Fields(b)
    decreases |a|
  {
    hide IsSpace;
    if a == "" {
      assert a + [c] + b == [c] + b && ([c] + b)[1..] == b;
    } else {
      assert (a + [c] + b)[1..] == a[1..] + [c] + b;
      if IsSpace(a[0]) {
        FieldsFromSplit("", a[1..], c, b);
        assert Flushed(pending) + (FieldsFrom("", a[1..]) + Fields(b))
            == (Flushed(pending) + FieldsFrom("", a[1..])) + Fields(b);
      } else {
        FieldsFromSplit(pending + [a[0]], a[1..], c, b);
      }
    }
  }

  /** Text without white space is one field. */
  lemma FieldsSolid(t: string)
    requires forall i :: 0 <= i < |t| ==> !IsSpace(t[i])
    ensures Fields(t) == if t == "" then [] else [t]
  {
    hide IsSpace, FieldsFrom;
    FieldsSkipSolid("", t, "");
    FieldsAtEnd(t);
    assert t + "" == t && "" + t == t;
  }

  // ----- normalising and matching -----

  /** unicode.ToLower, and unicode.IsLetter or unicode.IsDigit. */
  datatype Unicode = Unicode(lower: char -> char, spoken: char -> bool)

  /** No letter or digit is white space. */
  ghost predicate Sane(u: Unicode) {
    forall c :: u.spoken(c) ==> !IsSpace(c)
  }

  function NormalizeToken(u: Unicode, s: string): string {
    if s == [] then []
    else (if u.spoken(u.lower(s[0])) then [u.lower(s[0])] else []) + NormalizeToken(u, s[1..])
  }

  // ----- which letters a token speaks -----

  /** These are the places, in order, of exactly the characters that are letters or digits in lower case. */
  ghost predicate Picks(u: Unicode, s: string, at: seq<nat>) {
    && (forall k :: 0 <= k < |at| ==> at[k] < |s|)
    && (forall k, l :: 0 <= k < l < |at| ==> at[k] < at[l])
    && (forall i: nat :: i < |s| ==> (i in at <==> u.spoken(u.lower(s[i]))))
  }

  /** The word is what these characters are in lower case. */
  ghost predicate Speaks(u: Unicode, s: string, word: string) {
    exists at: seq<nat> ::
      Picks(u, s, at) && |word| == |at| && forall k :: 0 <= k < |at| ==> word[k] == u.lower(s[at[k]])
  }

  lemma {:induction false} NormalizeAdd(u: Unicode, a: string, b: string)
    ensures NormalizeToken(u, a + b) == NormalizeToken(u, a) + NormalizeToken(u, b)
  {
    if a == [] {
      assert a + b == b;
    } else {
      NormalizeAdd(u, a[1..], b);
      assert (a + b)[1..] == a[1..] + b;
      var first := if u.spoken(u.lower(a[0])) then [u.lower(a[0])] else [];
      assert first + (NormalizeToken(u, a[1..]) + NormalizeToken(u, b))
          == (first + NormalizeToken(u, a[1..])) + NormalizeToken(u, b);
    }
  }

  lemma {:induction false} PickedLetters(u: Unicode, s: string) returns (at: seq<nat>)
    ensures Picks(u, s, at) && |NormalizeToken(u, s)| == |at|
    ensures forall k :: 0 <= k < |at| ==> NormalizeToken(u, s)[k] == u.lower(s[at[k]])
    decreases |s|
  {
    at := [];
    if s != [] {
      var last := |s| - 1;
      at := PickedLetters(u, s[..last]);
      assert s == s[..last] + [s[last]];
      NormalizeAdd(u, s[..last], [s[last]]);
      OneLetter(u, s[last]);
      if u.spoken(u.lower(s[last])) {
        InLonger(at, last);
        at := at + [last];
      }
    }
  }

  lemma {:induction false} PicksUnique(u: Unicode, s: string, a: seq<nat>, b: seq<nat>)
    requires Picks(u, s, a) && Picks(u, s, b)
    ensures a == b
    decreases |s|
  {
    if s == [] {
    } else {
      var last := |s| - 1;
      if a != [] && a[|a| - 1] == last {
        LastPicked(u, s, a);
        LastPicked(u, s, b);
        PicksUnique(u, s[..last], a[..|a| - 1], b[..|b| - 1]);
      } else {
        assert last !in a;
        assert forall k :: 0 <= k < |b| ==> b[k] in b;
        PicksUnique(u, s[..last], a, b);
      }
    }
  }

  lemma InLonger(front: seq<nat>, last: nat)
    ensures forall i :: i in front + [last] <==> i in front || i == last
  {
  }

  lemma LastPicked(u: Unicode, s: string, at: seq<nat>)
    requires s != [] && Picks(u, s, at) && u.spoken(u.lower(s[|s| - 1]))
    ensures at != [] && at[|at| - 1] == |s| - 1 && Picks(u, s[..|s| - 1], at[..|at| - 1])
  {
    var last := |s| - 1;
    assert last in at;
    var k :| 0 <= k < |at| && at[k] == last;
    var front := at[..|at| - 1];
    assert at[|at| - 1] < |s| && forall i :: 0 <= i < |at| - 1 ==> at[i] < at[|at| - 1];
    assert at == front + [last];
    InLonger(front, last);
  }

  /** A token normalizes to exactly the word it speaks: its letters and digits in lower case, each one, in order. */
  lemma NormalizeSpeaks(u: Unicode, s: string, word: string)
    ensures Speaks(u, s, word) <==> word == NormalizeToken(u, s)
  {
    hide NormalizeToken;
    var at := PickedLetters(u, s);
    if Speaks(u, s, word) {
      var b: seq<nat> :|
        Picks(u, s, b) && |word| == |b| && forall k :: 0 <= k < |b| ==> word[k] == u.lower(s[b[k]]);
      PicksUnique(u, s, at, b);
    }
  }

  predicate HasLetter(u: Unicode, s: string) {
    exists i :: 0 <= i < |s| && u.spoken(u.lower(s[i]))
  }

  lemma LetterNormalizes(u: Unicode, s: string)
    ensures HasLetter(u, s) <==> NormalizeToken(u, s) != ""
  {
    var at := PickedLetters(u, s);
    if at != [] {
      assert at[0] in at;
    }
  }

  /** Both speak the same word. */
  ghost predicate SpeakAlike(u: Unicode, a: string, b: string) {
    exists word: string :: Speaks(u, a, word) && Speaks(u, b, word)
  }

  lemma AlikeIff(u: Unicode, a: string, b: string)
    ensures SpeakAlike(u, a, b) <==> NormalizeToken(u, a) == NormalizeToken(u, b)
  {
    hide NormalizeToken, Speaks;
    NormalizeSpeaks(u, a, NormalizeToken(u, a));
    NormalizeSpeaks(u, b, NormalizeToken(u, a));
    if SpeakAlike(u, a, b) {
      var word: string :| Speaks(u, a, word) && Speaks(u, b, word);
      NormalizeSpeaks(u, a, word);
      NormalizeSpeaks(u, b, word);
    }
  }

  /** The normalized tokens, without the ones nothing is left of. */
  function NormalizeTokens(u: Unicode, tokens: seq<string>): seq<string> {
    if tokens == [] then []
    else Flushed(NormalizeToken(u, tokens[0])) + NormalizeTokens(u, tokens[1..])
  }

  method NormalizeWake(u: Unicode, s: string) returns (r: string)
    ensures r == Joined(NormalizeTokens(u, Fields(s)))
  {
    hide Fields, Joined, NormalizeToken, NormalizeTokens;
    var tokens := Fields(s);
    var out: seq<string> := [];
    var i := 0;
    assert [] + NormalizeTokens(u, tokens) == NormalizeTokens(u, tokens) && tokens[0..] == tokens;
    while i < |tokens|
      invariant 0 <= i <= |tokens|
      invariant out + NormalizeTokens(u, tokens[i..]) == NormalizeTokens(u, tokens)
    {
      NormalizeOneMore(u, tokens, i);
      var n := NormalizeToken(u, tokens[i]);
      assert out + (Flushed(n) + NormalizeTokens(u, tokens[i + 1..])) ==
        (out + Flushed(n)) + NormalizeTokens(u, tokens[i + 1..]);
      if n != "" {
        out := out + [n];
      } else {
        assert out + [] == out;
      }
      i := i + 1;
    }
    NormalizeNone(u);
    assert tokens[i..] == [];
    assert out + [] == out;
    return Joined(out);
  }

  lemma NormalizeOneMore(u: Unicode, tokens: seq<string>, i: nat)
    requires i < |tokens|
    ensures NormalizeTokens(u, tokens[i..]) ==
            Flushed(NormalizeToken(u, tokens[i])) + NormalizeTokens(u, tokens[i + 1..])
  {
    hide NormalizeToken;
    assert tokens[i..][0] == tokens[i] && tokens[i..][1..] == tokens[i + 1..];
  }

  lemma NormalizeNone(u: Unicode)
    ensures NormalizeTokens(u, []) == []
  {
  }

  lemma {:induction false} NormalizedIsSpoken(u: Unicode, s: string)
    requires Sane(u)
    ensures NormalizeToken(u, s) == "" || Solid(NormalizeToken(u, s))
  {
    hide IsSpace;
    if s != [] {
      NormalizedIsSpoken(u, s[1..]);
    }
  }

  lemma {:induction false} NormalizedTokensSolid(u: Unicode, tokens: seq<string>)
    requires Sane(u)
    ensures forall i :: 0 <= i < |NormalizeTokens(u, tokens)| ==> Solid(NormalizeTokens(u, tokens)[i])
  {
    hide IsSpace, NormalizeToken;
    if tokens != [] {
      NormalizedIsSpoken(u, tokens[0]);
      NormalizedTokensSolid(u, tokens[1..]);
    }
  }

  /** The leading original tokens normalize, one by one, to the phrase. */
  predicate LeadsWith(u: Unicode, tokens: seq<string>, phraseTokens: seq<string>) {
    |phraseTokens| <= |tokens| && forall i :: 0 <= i < |phraseTokens| ==>
      NormalizeToken(u, tokens[i]) == phraseTokens[i]
  }

  predicate Wakes(u: Unicode, utterance: string, phrase: string) {
    Fields(phrase) != [] && LeadsWith(u, Fields(utterance), Fields(phrase))
  }

  function Remainder(u: Unicode, utterance: string, phrase: string): string
    requires Wakes(u, utterance, phrase)
  {
    TrimSpace(Joined(Fields(utterance)[|Fields(phrase)|..]))
  }

  method MatchWake(u: Unicode, utterance: string, phrase: string) returns (remainder: string, matched: bool)
    ensures matched == Wakes(u, utterance, phrase)
    ensures remainder == if matched then Remainder(u, utterance, phrase) else ""
  {
    hide FieldsFrom, TrimSpace, NormalizeToken;
    var phraseTokens := Fields(phrase);
    if |phraseTokens| == 0 {
      return "", false;
    }
    var origTokens := Fields(utterance);
    if |origTokens| < |phraseTokens| {
      return "", false;
    }
    var i := 0;
    while i < |phraseTokens|
      invariant 0 <= i <= |phraseTokens|
      invariant forall k :: 0 <= k < i ==> NormalizeToken(u, origTokens[k]) == phraseTokens[k]
    {
      if NormalizeToken(u, origTokens[i]) != phraseTokens[i] {
        return "", false;
      }
      i := i + 1;
    }
    return TrimSpace(Joined(origTokens[|phraseTokens|..])), true;
  }

  /** Matching compares original tokens by position. So it finds the phrase at the front of the normalized
      utterance exactly when none of the tokens it spans is lost in normalizing: a lone dash between the words
      of the phrase prevents the match although normalizing drops it. */
  lemma {:induction false} LeadsWithIff(u: Unicode, tokens: seq<string>, phraseTokens: seq<string>)
    requires forall i :: 0 <= i < |phraseTokens| ==> phraseTokens[i] != ""
    ensures LeadsWith(u, tokens, phraseTokens) <==>
            && phraseTokens <= NormalizeTokens(u, tokens)
            && |phraseTokens| <= |tokens|
            && forall i :: 0 <= i < |phraseTokens| ==> NormalizeToken(u, tokens[i]) != ""
    decreases |tokens|
  {
    hide NormalizeToken;
    if phraseTokens != [] && tokens != [] {
      var n, rest := NormalizeToken(u, tokens[0]), tokens[1..];
      LeadsWithIff(u, rest, phraseTokens[1..]);
      assert LeadsWith(u, tokens, phraseTokens) ==> LeadsWith(u, rest, phraseTokens[1..]);
      if n == phraseTokens[0] {
        var later := NormalizeTokens(u, rest);
        assert NormalizeTokens(u, tokens) == [n] + later;
        assert phraseTokens == [n] + phraseTokens[1..];
        assert phraseTokens <= [n] + later <==> phraseTokens[1..] <= later;
        assert LeadsWith(u, rest, phraseTokens[1..]) ==> LeadsWith(u, tokens, phraseTokens) by {
          if LeadsWith(u, rest, phraseTokens[1..]) {
            forall i | 0 <= i < |phraseTokens|
              ensures NormalizeToken(u, tokens[i]) == phraseTokens[i]
            {
              if i > 0 {
                assert rest[i - 1] == tokens[i] && phraseTokens[1..][i - 1] == phraseTokens[i];
              }
            }
          }
        }
        assert forall i :: 0 <= i < |phraseTokens| - 1 && i < |rest| ==> rest[i] == tokens[i + 1];
      }
    }
  }

  /** The configured phrase in its normalized form. */
  function Phrase(u: Unicode, configured: string): string {
    Joined(NormalizeTokens(u, Fields(configured)))
  }

  /** When an utterance wakes the gate, for any configured phrase; and what it leaves as the command: the
      original tokens behind the phrase, casing and all. */
  lemma WakesIff(u: Unicode, utterance: string, configured: string)
    requires Sane(u)
    ensures var phrase, words := Phrase(u, configured), NormalizeTokens(u, Fields(configured));
            var tokens := Fields(utterance);
            && (Wakes(u, utterance, phrase) <==>
                && words != [] && words <= NormalizeTokens(u, tokens) && |words| <= |tokens|
                && forall i :: 0 <= i < |words| ==> NormalizeToken(u, tokens[i]) != "")
            && (Wakes(u, utterance, phrase) ==> Fields(Remainder(u, utterance, phrase)) == tokens[|words|..])
  {
    hide FieldsFrom, TrimSpace, NormalizeToken, Joined, NormalizeTokens, LeadsWith;
    var words, tokens := NormalizeTokens(u, Fields(configured)), Fields(utterance);
    NormalizedTokensSolid(u, Fields(configured));
    FieldsOfJoined(words);
    LeadsWithIff(u, tokens, words);
    FieldsAreSolid("", utterance);
    if Wakes(u, utterance, Phrase(u, configured)) {
      LeadsNoLonger(u, tokens, words);
      FieldsOfJoined(tokens[|words|..]);
    }
  }

  lemma LeadsNoLonger(u: Unicode, tokens: seq<string>, words: seq<string>)
    requires LeadsWith(u, tokens, words)
    ensures |words| <= |tokens|
  {
  }

  /** The tokens with a letter or digit, in order. */
  function Spoken(u: Unicode, tokens: seq<string>): (r: seq<string>)
    ensures forall t :: t in r ==> HasLetter(u, t)
  {
    if tokens == [] then []
    else (if HasLetter(u, tokens[0]) then [tokens[0]] else []) + Spoken(u, tokens[1..])
  }

  lemma {:induction false} SpokenNormalize(u: Unicode, tokens: seq<string>)
    ensures |NormalizeTokens(u, tokens)| == |Spoken(u, tokens)|
    ensures forall i :: 0 <= i < |Spoken(u, tokens)| ==>
              NormalizeTokens(u, tokens)[i] == NormalizeToken(u, Spoken(u, tokens)[i])
  {
    hide NormalizeToken, HasLetter;
    if tokens != [] {
      SpokenNormalize(u, tokens[1..]);
      LetterNormalizes(u, tokens[0]);
    }
  }

  /** Waking by what is said: the tokens of the configured phrase that hold a letter or digit are spoken alike, one
      by one, by the leading tokens of the utterance. */
  lemma WakesByLetters(u: Unicode, utterance: string, configured: string)
    requires Sane(u)
    ensures var phrase, tokens := Spoken(u, Fields(configured)), Fields(utterance);
            Wakes(u, utterance, Phrase(u, configured)) <==>
              && phrase != [] && |phrase| <= |tokens|
              && forall i :: 0 <= i < |phrase| ==> SpeakAlike(u, tokens[i], phrase[i])
  {
    hide Fields, NormalizeToken, Joined, NormalizeTokens, SpeakAlike, HasLetter, Spoken;
    var words, phrase := NormalizeTokens(u, Fields(configured)), Spoken(u, Fields(configured));
    var tokens := Fields(utterance);
    NormalizedTokensSolid(u, Fields(configured));
    FieldsOfJoined(words);
    SpokenNormalize(u, Fields(configured));
    forall i | 0 <= i < |phrase| && i < |tokens|
      ensures SpeakAlike(u, tokens[i], phrase[i]) <==> NormalizeToken(u, tokens[i]) == words[i]
    {
      AlikeIff(u, tokens[i], phrase[i]);
    }
  }

  /** The phrase leads the normalized utterance, and the utterance does not wake the gate: the leading tokens
      that are compared are the ones before normalization. */
  lemma LoneDashPreventsWaking()
    ensures var u := Unicode((c: char) => c, (c: char) => 'a' <= c <= 'z');
            && Phrase(u, "o k") == "o k"
            && NormalizeTokens(u, Fields("o - k")) == Fields(Phrase(u, "o k"))
            && !Wakes(u, "o - k", Phrase(u, "o k"))
  {
    var u := Unicode((c: char) => c, (c: char) => 'a' <= c <= 'z');
    OneLetter(u, 'o');
    OneLetter(u, '-');
    OneLetter(u, 'k');
    var words, tokens := ["o", "k"], ["o", "-", "k"];
    assert words[1..] == ["k"] && tokens[1..] == ["-", "k"] && ["-", "k"][1..] == ["k"] && ["k"][1..] == [];
    assert Joined(words) == "o k" && Joined(tokens) == "o - k";
    FieldsOfJoined(words);
    FieldsOfJoined(tokens);
    assert NormalizeTokens(u, ["k"]) == ["k"] && NormalizeTokens(u, ["-", "k"]) == ["k"];
    assert NormalizeTokens(u, words) == words && NormalizeTokens(u, tokens) == words;
    assert NormalizeToken(u, tokens[1]) != words[1];
  }

  lemma OneLetter(u: Unicode, c: char)
    ensures NormalizeToken(u, [c]) == if u.spoken(u.lower(c)) then [u.lower(c)] else []
  {
    assert [c][1..] == [];
  }

  // ----- the gate as a state machine -----

  datatype Event = SpeechStart | Utterance(text: string) | Other

  // What the loop receives: its own timer, the end of a reply, or an event of the wrapped source.
  datatype Input = TimerFired(at: int) | ReplyDone(at: int) | Heard(event: Event, at: int)

  // timer is the time at which the armed timer goes off.
  datatype State = State(active: bool, awaitingReply: bool, timer: Option<int>)

  const DORMANT := State(false, false, None)

  datatype Config = Config(u: Unicode, phrase: string, window: int)

  /** The gate for a configured phrase; a phrase with nothing to say in it leaves the source ungated. */
  function NewWakeGate(u: Unicode, configured: string, window: int): Option<Config> {
    if Phrase(u, configured) == "" then None
    else Some(Config(u, Phrase(u, configured), if window <= 0 then DEFAULT_WINDOW else window))
  }

  /** There is a gate exactly when some token of the phrase is spoken; its phrase is those tokens, its
      window the configured one, or eight seconds. */
  lemma GateHasPhrase(u: Unicode, configured: string, window: int)
    requires Sane(u)
    ensures var words, gate := NormalizeTokens(u, Fields(configured)), NewWakeGate(u, configured, window);
            && (gate.Some? <==> words != [])
            && (gate.Some? ==> Fields(gate.value.phrase) == words
                               && gate.value.window == if window > 0 then window else 8_000_000_000)
  {
    hide FieldsFrom, NormalizeToken, NormalizeTokens;
    var words := NormalizeTokens(u, Fields(configured));
    NormalizedTokensSolid(u, Fields(configured));
    FieldsOfJoined(words);
    if words != [] {
      JoinedNotEmpty(words);
    }
  }

  /** A timer goes off only while armed, and not before its time. */
  predicate Possible(st: State, input: Input) {
    input.TimerFired? ==> st.timer.Some? && input.at >= st.timer.value
  }

  function Next(g: Config, st: State, input: Input): State {
    match input
    case TimerFired(at) => State(false, false, None)
    case ReplyDone(at) => if st.active then st.(awaitingReply := false, timer := Some(at + g.window)) else st
    case Heard(event, at) =>
      if event.Utterance? && (st.active || Wakes(g.u, event.text, g.phrase))
      then State(true, true, None)
      else st
  }

  /** What the loop forwards. */
  function Forwarded(g: Config, st: State, input: Input): Option<Event> {
    match input
    case Heard(SpeechStart, _) => if st.active then Some(SpeechStart) else None
    case Heard(Utterance(text), _) =>
      if st.active then Some(Utterance(text))
      else if Wakes(g.u, text, g.phrase) then
        var remainder := Remainder(g.u, text, g.phrase);
        Some(Utterance(if remainder == "" then TrimSpace(text) else remainder))
      else None
    case _ => None
  }

  function After(g: Config, inputs: seq<Input>): State {
    if inputs == [] then DORMANT else Next(g, After(g, inputs[..|inputs| - 1]), inputs[|inputs| - 1])
  }

  ghost predicate Run(g: Config, inputs: seq<Input>) {
    forall i :: 0 <= i < |inputs| ==> Possible(After(g, inputs[..i]), inputs[i])
  }

  function Outputs(g: Config, inputs: seq<Input>): seq<Event> {
    if inputs == [] then []
    else
      var front := inputs[..|inputs| - 1];
      Outputs(g, front) +
      match Forwarded(g, After(g, front), inputs[|inputs| - 1])
      case None => []
      case Some(event) => [event]
  }

  /** The gate is dormant, waiting for a reply, or in a window with its timer running; nothing else. */
  predicate Consistent(st: State) {
    && (st.timer.Some? <==> st.active && !st.awaitingReply)
    && (st.awaitingReply ==> st.active)
  }

  lemma {:induction false} RunsAreConsistent(g: Config, inputs: seq<Input>)
    ensures Consistent(After(g, inputs))
  {
    hide Wakes;
    if inputs != [] {
      RunsAreConsistent(g, inputs[..|inputs| - 1]);
    }
  }

  class Gate {
    const config: Config
    var active: bool
    var awaitingReply: bool
    var timer: Option<int>

    function Current(): State
      reads this
    {
      State(active, awaitingReply, timer)
    }

    constructor (config: Config)
      ensures this.config == config && Current() == DORMANT
    {
      this.config := config;
      active, awaitingReply, timer := false, false, None;
    }

    /** One event of the wrapped source. */
    method Step(ev: Event, now: int) returns (out: Option<Event>)
      modifies this
      ensures Current() == Next(config, old(Current()), Heard(ev, now))
      ensures out == Forwarded(config, old(Current()), Heard(ev, now))
    {
      hide Fields, LeadsWith, TrimSpace, Joined;
      match ev {
        case SpeechStart =>
          if !active {
            return None;
          }
          return Some(ev);
        case Utterance(text) =>
          if active {
            awaitingReply := true;
            timer := None;
            return Some(ev);
          }
          var remainder, matched := MatchWake(config.u, text, config.phrase);
          if !matched {
            return None;
          }
          active := true;
          awaitingReply := true;
          timer := None;
          var prompt := remainder;
          if prompt == "" {
            prompt := TrimSpace(text);
          }
          return Some(Utterance(prompt));
        case Other =>
          return None;
      }
    }
  }

  /** The Listen loop until the source closes or the context is cancelled; sends is how many forwards go
      through before that. */
  method Listen(config: Config, inputs: seq<Input>, sends: nat) returns (out: seq<Event>)
    requires Run(config, inputs)
    ensures out <= Outputs(config, inputs)
    ensures |out| == if |Outputs(config, inputs)| <= sends then |Outputs(config, inputs)| else sends
  {
    hide Next, Forwarded;
    var gate := new Gate(config);
    out := [];
    var i := 0;
    while i < |inputs|
      invariant 0 <= i <= |inputs|
      invariant fresh(gate) && gate.config == config
      invariant gate.Current() == After(config, inputs[..i])
      invariant out == Outputs(config, inputs[..i]) && |out| <= sends
    {
      assert inputs[..i + 1][..i] == inputs[..i];
      var forwarded := Receive(gate, inputs[i]);
      if forwarded.Some? {
        if |out| >= sends {
          OutputsGrow(config, inputs, i + 1);
          return;
        }
        out := out + [forwarded.value];
      }
      i := i + 1;
    }
    assert inputs[..i] == inputs;
  }

  method Receive(gate: Gate, input: Input) returns (out: Option<Event>)
    modifies gate
    ensures gate.Current() == Next(gate.config, old(gate.Current()), input)
    ensures out == Forwarded(gate.config, old(gate.Current()), input)
  {
    hide Wakes;
    match input {
      case TimerFired(_) =>
        gate.active := false;
        gate.awaitingReply := false;
        gate.timer := None;
        return None;
      case ReplyDone(at) =>
        if gate.active {
          gate.awaitingReply := false;
          gate.timer := Some(at + gate.config.window);
        }
        return None;
      case Heard(event, at) =>
        out := gate.Step(event, at);
    }
  }

  lemma {:induction false} OutputsGrow(g: Config, inputs: seq<Input>, i: nat)
    requires i <= |inputs|
    ensures Outputs(g, inputs[..i]) <= Outputs(g, inputs)
    decreases |inputs|
  {
    hide Forwarded;
    if i < |inputs| {
      OutputsGrow(g, inputs[..|inputs| - 1], i);
      assert inputs[..|inputs| - 1][..i] == inputs[..i];
    } else {
      assert inputs[..i] == inputs;
    }
  }

  // ----- what every run keeps -----

  predicate StartsTurn(g: Config, inputs: seq<Input>, i: nat)
    requires i < |inputs|
  {
    Forwarded(g, After(g, inputs[..i]), inputs[i]).Some?
      && Forwarded(g, After(g, inputs[..i]), inputs[i]).value.Utterance?
  }

  lemma AfterOne(g: Config, inputs: seq<Input>, i: nat)
    requires i < |inputs|
    ensures After(g, inputs[..i + 1]) == Next(g, After(g, inputs[..i]), inputs[i])
  {
    assert inputs[..i + 1][..i] == inputs[..i];
  }

  /** Once an utterance is forwarded the gate stays awake, awaiting the reply, until the reply is done. */
  lemma {:induction false} AwaitsItsReply(g: Config, inputs: seq<Input>, i: nat, j: nat)
    requires Run(g, inputs) && i < j <= |inputs| && StartsTurn(g, inputs, i)
    requires forall k :: i < k < j ==> !inputs[k].ReplyDone?
    ensures After(g, inputs[..j]).active && After(g, inputs[..j]).awaitingReply
    decreases j
  {
    hide Wakes, Next, Forwarded, After;
    AfterOne(g, inputs, j - 1);
    if j > i + 1 {
      AwaitsItsReply(g, inputs, i, j - 1);
      RunsAreConsistent(g, inputs[..j - 1]);
      StaysAwaiting(g, After(g, inputs[..j - 1]), inputs[j - 1]);
    } else {
      TurnAwaits(g, After(g, inputs[..i]), inputs[i]);
    }
  }

  lemma TurnAwaits(g: Config, st: State, input: Input)
    requires Forwarded(g, st, input).Some? && Forwarded(g, st, input).value.Utterance?
    ensures Next(g, st, input).active && Next(g, st, input).awaitingReply
  {
    hide Wakes;
  }

  lemma StaysAwaiting(g: Config, st: State, input: Input)
    requires Consistent(st) && st.awaitingReply && Possible(st, input) && !input.ReplyDone?
    ensures Next(g, st, input).active && Next(g, st, input).awaitingReply
  {
    hide Wakes;
  }

  /** An armed timer was armed by the last reply to end, with no utterance heard since. */
  lemma {:induction false} TimerHasReply(g: Config, inputs: seq<Input>) returns (k: int)
    requires After(g, inputs).timer.Some?
    ensures 0 <= k < |inputs| && inputs[k].ReplyDone? && After(g, inputs).timer == Some(inputs[k].at + g.window)
    ensures forall m :: k < m < |inputs| ==> inputs[m].Heard? && !inputs[m].event.Utterance?
    ensures After(g, inputs[..k]).active
    decreases |inputs|
  {
    hide Wakes;
    var last := |inputs| - 1;
    RunsAreConsistent(g, inputs[..last]);
    if inputs[last].ReplyDone? && After(g, inputs[..last]).active {
      k := last;
    } else {
      k := TimerHasReply(g, inputs[..last]);
      assert inputs[..last][..k] == inputs[..k];
    }
  }

  /** The gate goes dormant only by its timer: a full window after a reply that ended while it was awake, with
      no utterance heard and no reply ended in between. */
  lemma GoesDormantAfterSilence(g: Config, inputs: seq<Input>, j: nat) returns (k: int)
    requires Run(g, inputs) && j < |inputs|
    requires After(g, inputs[..j]).active && !After(g, inputs[..j + 1]).active
    ensures inputs[j].TimerFired?
    ensures 0 <= k < j && inputs[k].ReplyDone? && inputs[j].at >= inputs[k].at + g.window
    ensures forall m :: k < m < j ==> inputs[m].Heard? && !inputs[m].event.Utterance?
  {
    hide Wakes;
    AfterOne(g, inputs, j);
    assert Possible(After(g, inputs[..j]), inputs[j]);
    k := TimerHasReply(g, inputs[..j]);
    assert inputs[..j][k] == inputs[k];
    assert forall m :: k < m < j ==> inputs[..j][m] == inputs[m];
  }

  /** Nothing is invented and nothing leaks: an output is the event just heard, unless the gate was dormant;
      then it is the command of an utterance that leads with the phrase. While awake no utterance is held back. */
  lemma ForwardsExactly(g: Config, st: State, input: Input)
    ensures st.active && input.Heard? && !input.event.Other? ==> Forwarded(g, st, input) == Some(input.event)
    ensures !st.active && Forwarded(g, st, input).Some? ==>
              && input.Heard? && input.event.Utterance? && Wakes(g.u, input.event.text, g.phrase)
              && Next(g, st, input).active
    ensures !input.Heard? || input.event.Other? ==> Forwarded(g, st, input).None?
    ensures !st.active && Next(g, st, input).active ==> Forwarded(g, st, input).Some?
  {
    hide Wakes, TrimSpace;
  }

  /** What each input does: the timer ends the conversation, a reply done while awake starts the window, and an
      utterance that is awake or wakes stops the timer until its reply; nothing else changes anything. */
  lemma InputMeans(g: Config, st: State, input: Input)
    ensures input.TimerFired? ==> !Next(g, st, input).active && Next(g, st, input).timer.None?
    ensures input.ReplyDone? && st.active ==> Next(g, st, input) == State(true, false, Some(input.at + g.window))
    ensures input.ReplyDone? && !st.active ==> Next(g, st, input) == st
    ensures input.Heard? && !input.event.Utterance? ==> Next(g, st, input) == st
    ensures input.Heard? && input.event.Utterance? ==>
              Next(g, st, input) ==
              if st.active || Wakes(g.u, input.event.text, g.phrase) then State(true, true, None) else st
  {
    hide Wakes;
  }

  /** The command is made of the tokens behind the phrase; a phrase alone is passed on as it was said. */
  lemma ActivationSaysTheRest(g: Config, st: State, text: string, at: int)
    requires !st.active && Wakes(g.u, text, g.phrase)
    ensures var out := Forwarded(g, st, Heard(Utterance(text), at));
            && out.Some? && out.value.Utterance?
            && Fields(out.value.text) ==
               if |Fields(text)| > |Fields(g.phrase)| then Fields(text)[|Fields(g.phrase)|..] else Fields(text)
  {
    hide FieldsFrom, Joined, LeadsWith, TrimSpace;
    LeadsNoLonger(g.u, Fields(text), Fields(g.phrase));
    var rest := Fields(text)[|Fields(g.phrase)|..];
    FieldsAreSolid("", text);
    FieldsOfJoined(rest);
    TrimmedKept(Joined(rest));
    if rest == [] {
      FieldsOfTrimmed(text);
      JoinedNothing();
    } else {
      JoinedNotEmpty(rest);
    }
  }

  lemma JoinedNothing()
    ensures Joined([]) == ""
  {
  }

  lemma TrimmedKept(s: string)
    requires Trimmed(s)
    ensures TrimSpace(s) == s
  {
    hide TrimLeft, TrimRight;
  }

  /** Trimming changes no field. */
  lemma FieldsOfTrimmed(s: string)
    ensures Fields(TrimSpace(s)) == Fields(s)
  {
    FieldsOfLeft(s);
    FieldsOfRight(TrimLeft(s));
  }

  lemma {:induction false} FieldsOfLeft(s: string)
    ensures Fields(TrimLeft(s)) == Fields(s)
  {
    hide IsSpace;
    if s != "" && IsSpace(s[0]) {
      FieldsOfLeft(s[1..]);
    }
  }

  lemma {:induction false} FieldsOfRight(s: string)
    ensures Fields(TrimRight(s)) == Fields(s)
    decreases |s|
  {
    hide IsSpace, FieldsFrom;
    if s != "" && IsSpace(s[|s| - 1]) {
      var front := s[..|s| - 1];
      FieldsOfRight(front);
      FieldsSplit(front, s[|s| - 1], "");
      FieldsAtEnd("");
      assert s == front + [s[|s| - 1]] + "";
    }
  }

  /** The command an activating utterance is turned into is never blank. */
  lemma ActivationHasPrompt(g: Config, text: string)
    requires Wakes(g.u, text, g.phrase)
    ensures var out := Forwarded(g, DORMANT, Heard(Utterance(text), 0));
            out.Some? && out.value.Utterance? && out.value.text != "" && Trimmed(out.value.text)
  {
    hide LeadsWith, Joined, FieldsFrom, Trimmed;
    if TrimSpace(text) == "" {
      BlankHasNoFields(text);
      LeadsNoLonger(g.u, Fields(text), Fields(g.phrase));
    }
  }

  lemma {:induction false} BlankHasNoFields(s: string)
    requires TrimSpace(s) == ""
    ensures Fields(s) == []
  {
    hide IsSpace;
    BlankIsSpace(s);
    AllSpaceNoFields(s);
  }

  lemma BlankIsSpace(s: string)
    requires TrimSpace(s) == ""
    ensures forall i :: 0 <= i < |s| ==> IsSpace(s[i])
  {
    var l := TrimLeft(s);
    if l != [] {
      RightKeepsFirst(l);
    }
    LeftDropsSpace(s);
  }

  lemma {:induction false} RightKeepsFirst(s: string)
    requires s != [] && !IsSpace(s[0])
    ensures TrimRight(s) != []
    decreases |s|
  {
    hide IsSpace;
    if IsSpace(s[|s| - 1]) {
      RightKeepsFirst(s[..|s| - 1]);
    }
  }

  lemma {:induction false} LeftDropsSpace(s: string)
    ensures forall i :: 0 <= i < |s| - |TrimLeft(s)| ==> IsSpace(s[i])
  {
    hide IsSpace;
    if s != [] && IsSpace(s[0]) {
      LeftDropsSpace(s[1..]);
      assert forall i :: 0 < i < |s| ==> s[i] == s[1..][i - 1];
    }
  }

  lemma {:induction false} AllSpaceNoFields(s: string)
    requires forall i :: 0 <= i < |s| ==> IsSpace(s[i])
    ensures Fields(s) == []
  {
    hide IsSpace;
    if s != [] {
      assert IsSpace(s[0]);
      AllSpaceNoFields(s[1..]);
    }
  }
}
