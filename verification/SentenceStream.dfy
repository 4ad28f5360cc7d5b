/** Sentences out of a stream of text deltas, and aligned PCM out of a stream of chunks. */
module SentenceStream {
  import opened Text

  const MAX_FRAGMENT := 800

  // ----- one call of TakeCompleteSentences -----

  predicate Stop(c: char) {
    c == '.' || c == '!' || c == '?'
  }

  /** A sentence ends after position i: a stop there, then white space or the end of the text. */
  predicate EndsAt(s: string, i: int) {
    0 <= i < |s| && Stop(s[i]) && (i + 1 == |s| || IsSpace(s[i + 1]))
  }

  /** Just behind the first sentence end, or -1. */
  function FindEnd(s: string): (end: int)
    ensures end == -1 || (0 < end <= |s| && EndsAt(s, end - 1))
    ensures forall k :: EndsAt(s, k) ==> 0 < end <= k + 1
  {
    if s == [] then -1
    else if EndsAt(s, 0) then 1
    else
      var r := FindEnd(s[1..]);
      assert forall k :: k > 0 && EndsAt(s, k) ==> EndsAt(s[1..], k - 1);
      if r < 0 then -1 else r + 1
  }

  method FindSentenceEndIndex(s: string) returns (end: int)
    ensures end == FindEnd(s)
  {
    var i := 0;
    while i < |s|
      invariant 0 <= i <= |s|
      invariant forall k :: 0 <= k < i ==> !EndsAt(s, k)
    {
      if Stop(s[i]) {
        var after := i + 1;
        if after >= |s| {
          assert EndsAt(s, i);
          return after;
        }
        if IsSpace(s[after]) {
          assert EndsAt(s, i);
          return after;
        }
      }
      i := i + 1;
    }
    return -1;
  }

  /** Behind the first white space, or the length of the text. */
  function NextSpace(s: string): (k: int)
    ensures 0 <= k <= |s|
    ensures k < |s| ==> k > 0 && IsSpace(s[k - 1])
    ensures forall j :: 0 <= j < k - 1 ==> !IsSpace(s[j])
  {
    if s == [] then 0 else if IsSpace(s[0]) then 1 else 1 + NextSpace(s[1..])
  }

  /** Behind the first white space at or after max runes, or the length of the text. */
  function CutBehind(s: string, max: nat): (cut: int)
    ensures 0 <= cut <= |s|
    ensures cut >= max || cut == |s|
  {
    if |s| <= max then |s| else max + NextSpace(s[max..])
  }

  method TruncateToMaxRunes(s: string, max: nat) returns (cut: int)
    ensures cut == CutBehind(s, max)
  {
    var i, n := 0, 0;
    while n < max && i < |s|
      invariant 0 <= i == n <= max && i <= |s|
    {
      i := i + 1;
      n := n + 1;
    }
    while i < |s|
      invariant 0 <= i <= |s|
      invariant |s| <= max ==> i == |s|
      invariant |s| > max ==> i >= max && max + NextSpace(s[max..]) == i + NextSpace(s[i..])
    {
      if IsSpace(s[i]) {
        return i + 1;
      }
      i := i + 1;
    }
    return |s|;
  }

  predicate Cutset(c: char) {
    c == ' ' || c == '\t' || c == '\n' || c == '\r'
  }

  /** strings.TrimLeft(s, " \t\n\r"). */
  function TrimCutset(s: string): (r: string)
    ensures |r| <= |s| && r == s[|s| - |r|..]
  {
    if s != [] && Cutset(s[0]) then TrimCutset(s[1..]) else s
  }

  function InkOf(c: char): string {
    if IsSpace(c) then [] else [c]
  }

  /** The text with all white space removed. */
  function Ink(s: string): string {
    if s == [] then [] else InkOf(s[0]) + Ink(s[1..])
  }

  lemma {:induction false} InkConcat(a: string, b: string)
    ensures Ink(a + b) == Ink(a) + Ink(b)
  {
    hide InkOf;
    if a == [] {
      assert a + b == b;
      assert [] + Ink(b) == Ink(b);
    } else {
      InkConcat(a[1..], b);
      assert (a + b)[1..] == a[1..] + b;
      Regroup(InkOf(a[0]), Ink(a[1..]), Ink(b), Ink(a[1..] + b));
    }
  }

  lemma Regroup<T>(a: seq<T>, b: seq<T>, c: seq<T>, d: seq<T>)
    requires b + c == d
    ensures (a + b) + c == a + d
  {
    assert (a + b) + c == a + (b + c);
  }

  lemma {:induction false} InkTrimLeft(s: string)
    ensures Ink(TrimLeft(s)) == Ink(s)
  {
    if s != [] && IsSpace(s[0]) {
      InkTrimLeft(s[1..]);
    }
  }

  lemma {:induction false} InkTrimRight(s: string)
    ensures Ink(TrimRight(s)) == Ink(s)
  {
    if s != [] && IsSpace(s[|s| - 1]) {
      var front := s[..|s| - 1];
      InkTrimRight(front);
      InkConcat(front, s[|s| - 1..]);
      assert front + s[|s| - 1..] == s;
      assert Ink(s[|s| - 1..]) == [];
    }
  }

  lemma InkTrimSpace(s: string)
    ensures Ink(TrimSpace(s)) == Ink(s)
  {
    InkTrimLeft(s);
    InkTrimRight(TrimLeft(s));
  }

  lemma CutsetIsSpace(c: char)
    requires Cutset(c)
    ensures IsSpace(c)
  {
  }

  lemma {:induction false} InkTrimCutset(s: string)
    ensures Ink(TrimCutset(s)) == Ink(s)
  {
    hide Cutset, IsSpace;
    if s != [] && Cutset(s[0]) {
      CutsetIsSpace(s[0]);
      InkTrimCutset(s[1..]);
      assert [] + Ink(s[1..]) == Ink(s[1..]);
    }
  }

  function Kept(piece: string): seq<string> {
    if TrimSpace(piece) == "" then [] else [TrimSpace(piece)]
  }

  /** The complete sentences a text begins with, and what follows them. */
  function Sentences(s: string): (r: (seq<string>, string))
    ensures |r.1| <= |s|
    decreases |s|
  {
    var end := FindEnd(s);
    if end < 0 then ([], s)
    else
      var later := Sentences(s[end..]);
      (Kept(s[..end]) + later.0, later.1)
  }

  /** What one call takes out of the buffer, and what it leaves. */
  function Taken(buf: string): (seq<string>, string) {
    var (out, s) := Sentences(buf);
    if |s| >= MAX_FRAGMENT then
      var cut := CutBehind(s, MAX_FRAGMENT);
      (out + Kept(s[..cut]), TrimCutset(s[cut..]))
    else (out, s)
  }

  method TakeCompleteSentences(buf: string) returns (out: seq<string>, rest: string)
    ensures (out, rest) == Taken(buf)
  {
    hide TrimSpace, FindEnd, CutBehind, TrimCutset, Sentences;
    var s := buf;
    out := [];
    assert [] + Sentences(s).0 == Sentences(s).0;
    while true
      invariant Sentences(buf).0 == out + Sentences(s).0 && Sentences(buf).1 == Sentences(s).1
      decreases |s|
    {
      SentencesUnfold(s);
      var end := FindSentenceEndIndex(s);
      if end < 0 {
        assert out + [] == out;
        break;
      }
      var sent := TrimSpace(s[..end]);
      assert (out + Kept(s[..end])) + Sentences(s[end..]).0 == out + (Kept(s[..end]) + Sentences(s[end..]).0);
      s := s[end..];
      if sent != "" {
        out := out + [sent];
      } else {
        assert out + [] == out;
      }
    }
    SentencesUnfold(s);
    assert Sentences(buf) == (out, s);
    if |s| >= MAX_FRAGMENT {
      var cut := TruncateToMaxRunes(s, MAX_FRAGMENT);
      var sent := TrimSpace(s[..cut]);
      s := TrimCutset(s[cut..]);
      if sent != "" {
        out := out + [sent];
      } else {
        assert out + [] == out;
      }
    }
    rest := s;
  }

  lemma SentencesUnfold(s: string)
    ensures FindEnd(s) < 0 ==> Sentences(s) == ([], s)
    ensures FindEnd(s) > 0 ==>
              Sentences(s) == (Kept(s[..FindEnd(s)]) + Sentences(s[FindEnd(s)..]).0, Sentences(s[FindEnd(s)..]).1)
  {
    hide FindEnd, Kept;
  }

  predicate Fragment(s: string) {
    s != "" && Trimmed(s)
  }

  predicate NoSentenceEnd(s: string) {
    forall k :: 0 <= k < |s| ==> !EndsAt(s, k)
  }

  /** The ink of the text is split between the sentences and what follows, in order. */
  lemma {:induction false} SentencesKeepInk(s: string)
    ensures Ink(Join(Sentences(s).0)) + Ink(Sentences(s).1) == Ink(s)
    ensures NoSentenceEnd(Sentences(s).1)
    ensures forall f :: f in Sentences(s).0 ==> Fragment(f)
    decreases |s|
  {
    hide TrimSpace, Trimmed, IsSpace, Ink, Join, Kept;
    var end := FindEnd(s);
    if end < 0 {
      InkOfNothing();
    } else {
      var later := Sentences(s[end..]);
      SentencesKeepInk(s[end..]);
      KeptInk(s[..end]);
      InkConcat(s[..end], s[end..]);
      assert s[..end] + s[end..] == s;
      InkOfJoin(Kept(s[..end]), later.0);
      Regroup(Ink(s[..end]), Ink(Join(later.0)), Ink(later.1), Ink(s[end..]));
    }
  }

  lemma KeptInk(piece: string)
    ensures Ink(Join(Kept(piece))) == Ink(piece)
    ensures forall f :: f in Kept(piece) ==> Fragment(f)
  {
    hide TrimSpace, Ink, Join, IsSpace;
    InkTrimSpace(piece);
    InkOfNothing();
    var t := TrimSpace(piece);
    if t != "" {
      var none: seq<string> := [];
      JoinAppend(none, t);
      JoinFew(t);
      assert none + [t] == [t] && Join(none) + t == t;
      assert Kept(piece) == [t];
    } else {
      assert Kept(piece) == [];
    }
  }

  lemma InkOfJoin(a: seq<string>, b: seq<string>)
    ensures Ink(Join(a + b)) == Ink(Join(a)) + Ink(Join(b))
  {
    JoinAdd(a, b);
    InkConcat(Join(a), Join(b));
  }

  /** One call: the ink of the buffer is split between the fragments and the remainder, in order; the
      remainder holds no sentence end, and a buffer that stayed long gave up at least 800 runes. */
  lemma TakenKeepsInk(buf: string)
    ensures Ink(Join(Taken(buf).0)) + Ink(Taken(buf).1) == Ink(buf)
    ensures NoSentenceEnd(Taken(buf).1)
    ensures forall f :: f in Taken(buf).0 ==> Fragment(f)
    ensures |Taken(buf).1| < MAX_FRAGMENT || |Taken(buf).1| + MAX_FRAGMENT <= |buf|
  {
    hide TrimSpace, Trimmed, IsSpace, Ink, Join, Sentences, EndsAt, NoSentenceEnd, TrimCutset, Kept;
    SentencesKeepInk(buf);
    var (out, s) := Sentences(buf);
    if |s| >= MAX_FRAGMENT {
      var cut := CutBehind(s, MAX_FRAGMENT);
      KeptInk(s[..cut]);
      InkOfJoin(out, Kept(s[..cut]));
      InkConcat(s[..cut], s[cut..]);
      assert s[..cut] + s[cut..] == s;
      var rest := TrimCutset(s[cut..]);
      InkTrimCutset(s[cut..]);
      Regroup(Ink(Join(out)), Ink(s[..cut]), Ink(rest), Ink(s));
      TailHasNoEnd(s, cut);
      TailHasNoEnd(s[cut..], |s[cut..]| - |rest|);
    }
  }

  lemma InkOfNothing()
    ensures Ink(Join([])) == [] && Ink([]) == []
  {
    JoinFew<char>([]);
  }

  lemma TailHasNoEnd(s: string, i: nat)
    requires i <= |s| && NoSentenceEnd(s)
    ensures NoSentenceEnd(s[i..])
  {
    forall k | 0 <= k < |s[i..]|
      ensures !EndsAt(s[i..], k)
    {
      assert !EndsAt(s, k + i);
    }
  }

  /** FlushRemainder: the trimmed remainder, the buffer being emptied. */
  method FlushRemainder(buf: string) returns (tail: string, rest: string)
    ensures Kept(buf) == (if tail == "" then [] else [tail]) && rest == ""
  {
    return TrimSpace(buf), "";
  }

  // ----- where the fragments end -----

  /** A stop at the end of the fragment and no sentence end before it. */
  predicate OneSentence(f: string) {
    f != "" && f[|f| - 1] in ".!?" && forall k :: 0 <= k < |f| - 1 && f[k] in ".!?" ==> !IsSpace(f[k + 1])
  }

  /** Each fragment taken for a sentence is one sentence. */
  lemma {:induction false} SentencesEndOnce(s: string)
    ensures forall f :: f in Sentences(s).0 ==> OneSentence(f)
    decreases |s|
  {
    hide TrimSpace, IsSpace, OneSentence;
    var end := FindEnd(s);
    if end >= 0 {
      SentencesEndOnce(s[end..]);
      FirstIsOne(s, end);
    }
  }

  lemma FirstIsOne(s: string, end: int)
    requires 0 < end <= |s| && EndsAt(s, end - 1) && forall k :: EndsAt(s, k) ==> end <= k + 1
    ensures Kept(s[..end]) == [TrimSpace(s[..end])] && OneSentence(TrimSpace(s[..end]))
  {
    hide IsSpace, TrimSpace, OneSentence;
    var piece := s[..end];
    StopIsNoSpace(piece[end - 1]);
    TailTrimmed(piece);
    var f := TrimSpace(piece);
    assert f == s[end - |f|..end];
    TailIsOne(s, end - |f|, end);
  }

  /** Trimming a text that does not end with white space only shortens its front. */
  lemma TailTrimmed(s: string)
    requires s != "" && !IsSpace(s[|s| - 1])
    ensures var f := TrimSpace(s); 0 < |f| <= |s| && f == s[|s| - |f|..]
  {
    hide IsSpace, TrimLeft, TrimRight;
    LeftKeepsLast(s);
    RightKeeps(TrimLeft(s));
  }

  lemma RightKeeps(s: string)
    requires s != "" && !IsSpace(s[|s| - 1])
    ensures TrimRight(s) == s
  {
    hide IsSpace;
  }

  lemma TailIsOne(s: string, j: nat, end: nat)
    requires j < end <= |s| && EndsAt(s, end - 1) && forall k :: EndsAt(s, k) ==> end <= k + 1
    ensures OneSentence(s[j..end])
  {
    hide IsSpace;
    var f := s[j..end];
    StopListed(f[|f| - 1]);
    forall k | 0 <= k < |f| - 1 && f[k] in ".!?"
      ensures !IsSpace(f[k + 1])
    {
      StopListed(f[k]);
      assert f[k] == s[j + k] && f[k + 1] == s[j + k + 1];
      assert !EndsAt(s, j + k);
    }
  }

  lemma StopListed(c: char)
    ensures Stop(c) <==> c in ".!?"
  {
    var all := ".!?";
    assert all[0] == '.' && all[1] == '!' && all[2] == '?';
  }

  lemma StopIsNoSpace(c: char)
    requires Stop(c)
    ensures !IsSpace(c)
  {
  }

  lemma {:induction false} LeftKeepsLast(s: string)
    requires s != "" && !IsSpace(s[|s| - 1])
    ensures TrimLeft(s) != "" && TrimLeft(s)[|TrimLeft(s)| - 1] == s[|s| - 1]
  {
    hide IsSpace;
    if IsSpace(s[0]) {
      LeftKeepsLast(s[1..]);
    }
  }

  /** Just behind the first white space at or after max runes, or the whole text when there is none. */
  predicate CutsAt(s: string, max: nat, cut: int) {
    if exists j :: max <= j < |s| && IsSpace(s[j]) then
      max < cut <= |s| && IsSpace(s[cut - 1]) && forall j :: max <= j < cut - 1 ==> !IsSpace(s[j])
    else cut == |s|
  }

  lemma CutBehindCuts(s: string, max: nat)
    ensures CutsAt(s, max, CutBehind(s, max))
  {
    hide IsSpace;
    if |s| > max {
      var rest := s[max..];
      var k := NextSpace(rest);
      assert forall j :: max <= j < |s| ==> s[j] == rest[j - max];
      NextSpaceFinds(rest);
    }
  }

  lemma {:induction false} NextSpaceFinds(s: string)
    requires s != ""
    ensures (exists j :: 0 <= j < |s| && IsSpace(s[j])) <==> IsSpace(s[NextSpace(s) - 1])
    ensures 0 < NextSpace(s) <= |s|
  {
    hide IsSpace;
    if !IsSpace(s[0]) && |s| > 1 {
      NextSpaceFinds(s[1..]);
      assert forall j :: 0 < j < |s| ==> s[j] == s[1..][j - 1];
      assert forall j :: 0 <= j < |s| - 1 ==> s[1..][j] == s[j + 1];
    }
  }

  /** Nothing that stays in the buffer is a complete sentence: no stop in it has a white space or the end behind it. */
  lemma NoSentenceStays(buf: string)
    ensures var rest := Taken(buf).1;
            forall k :: 0 <= k < |rest| && rest[k] in ".!?" ==> k + 1 < |rest| && !IsSpace(rest[k + 1])
  {
    hide Taken, IsSpace, Ink, Join, Fragment;
    var rest := Taken(buf).1;
    TakenKeepsInk(buf);
    forall k | 0 <= k < |rest| && rest[k] in ".!?"
      ensures k + 1 < |rest| && !IsSpace(rest[k + 1])
    {
      StopListed(rest[k]);
      assert !EndsAt(rest, k);
    }
  }

  /** What is left when no sentence is complete stays, and from 800 runes on gives up a front part that ends with a
      white space, and the blanks behind it. */
  lemma RemainderMeans(buf: string) returns (cut: int)
    ensures var (sentences, rest) := Sentences(buf);
            && (|rest| < 800 ==> Taken(buf) == (sentences, rest))
            && (|rest| >= 800 ==>
                  && CutsAt(rest, 800, cut) && 0 <= cut <= |rest|
                  && Taken(buf).0 == sentences + (if TrimSpace(rest[..cut]) == "" then [] else [TrimSpace(rest[..cut])])
                  && Strips(rest[cut..], Taken(buf).1))
  {
    hide TrimSpace, IsSpace, Sentences, CutsAt, Strips;
    var rest := Sentences(buf).1;
    cut := CutBehind(rest, MAX_FRAGMENT);
    CutBehindCuts(rest, MAX_FRAGMENT);
    CutsetStrips(rest[cut..]);
  }

  /** Blanks, tabs and line ends are taken off the front, and nothing else. */
  predicate Strips(s: string, r: string) {
    && |r| <= |s| && r == s[|s| - |r|..]
    && (forall i :: 0 <= i < |s| - |r| ==> Cutset(s[i]))
    && (r != "" ==> !Cutset(r[0]))
  }

  lemma {:induction false} CutsetStrips(s: string)
    ensures Strips(s, TrimCutset(s))
  {
    hide Cutset, Strips;
    if s != "" && Cutset(s[0]) {
      CutsetStrips(s[1..]);
      StripsOneMore(s, TrimCutset(s[1..]));
    } else {
      StripsNothing(s);
    }
  }

  lemma StripsNothing(s: string)
    requires s == "" || !Cutset(s[0])
    ensures Strips(s, s)
  {
  }

  lemma StripsOneMore(s: string, r: string)
    requires s != "" && Cutset(s[0]) && Strips(s[1..], r)
    ensures Strips(s, r)
  {
    hide Cutset;
    forall i | 0 <= i < |s| - |r|
      ensures Cutset(s[i])
    {
      assert i > 0 ==> s[1..][i - 1] == s[i];
    }
  }

  // ----- the whole stream -----

  /** The fragments sent so far and the buffer, after these deltas. */
  function After(deltas: seq<string>): (seq<string>, string) {
    if deltas == [] then ([], "")
    else
      var (out, buf) := After(deltas[..|deltas| - 1]);
      var (sents, rest) := Taken(buf + deltas[|deltas| - 1]);
      (out + sents, rest)
  }

  /** Everything a stream of deltas is turned into. */
  function AllFragments(deltas: seq<string>): seq<string> {
    After(deltas).0 + Kept(After(deltas).1)
  }

  function Upto<T>(s: seq<T>, n: nat): seq<T> {
    if |s| <= n then s else s[..n]
  }

  /** Sentencize; sends is how many sends go through before the context is cancelled. */
  method Sentencize(deltas: seq<string>, sends: nat) returns (out: seq<string>)
    ensures out == Upto(AllFragments(deltas), sends)
  {
    hide TrimSpace, Taken, Kept;
    var buf, i := "", 0;
    out := [];
    while i < |deltas|
      invariant 0 <= i <= |deltas|
      invariant (out, buf) == After(deltas[..i]) && |out| <= sends
    {
      assert deltas[..i + 1][..i] == deltas[..i];
      var sents, rest := TakeCompleteSentences(buf + deltas[i]);
      buf := rest;
      var j := 0;
      ghost var base := out;
      while j < |sents|
        invariant 0 <= j <= |sents|
        invariant out == base + sents[..j] && |out| <= sends
      {
        if |out| >= sends {
          AfterGrows(deltas, i + 1);
          return;
        }
        out := out + [sents[j]];
        j := j + 1;
      }
      assert sents[..j] == sents;
      i := i + 1;
    }
    assert deltas[..i] == deltas;
    var tail, _ := FlushRemainder(buf);
    if tail != "" && |out| < sends {
      out := out + [tail];
    }
  }

  lemma {:induction false} AfterGrows(deltas: seq<string>, i: nat)
    requires i <= |deltas|
    ensures After(deltas[..i]).0 <= After(deltas).0
    decreases |deltas|
  {
    hide Taken;
    if i < |deltas| {
      var front := deltas[..|deltas| - 1];
      AfterGrows(front, i);
      assert front[..i] == deltas[..i];
    } else {
      assert deltas[..i] == deltas;
    }
  }

  /** Nothing is lost, repeated or reordered: without white space the fragments are the deltas. Between
      deltas the buffer holds no sentence end. */
  lemma {:induction false} AfterKeepsInk(deltas: seq<string>)
    ensures Ink(Join(After(deltas).0)) + Ink(After(deltas).1) == Ink(Join(deltas))
    ensures NoSentenceEnd(After(deltas).1)
    ensures forall f :: f in After(deltas).0 ==> Fragment(f)
  {
    hide Taken, Ink, Join, Fragment, NoSentenceEnd;
    if deltas == [] {
      InkOfNothing();
      assert NoSentenceEnd("") by { NothingEnds(); }
    } else {
      var front, delta := deltas[..|deltas| - 1], deltas[|deltas| - 1];
      AfterKeepsInk(front);
      var (out, buf) := After(front);
      var (sents, rest) := Taken(buf + delta);
      TakenKeepsInk(buf + delta);
      InkConcat(buf, delta);
      JoinAppend(front, delta);
      assert front + [delta] == deltas;
      InkConcat(Join(front), delta);
      InkOfJoin(out, sents);
      Regroup(Ink(Join(out)), Ink(Join(sents)), Ink(rest), Ink(buf + delta));
      Regroup(Ink(Join(out)), Ink(buf), Ink(delta), Ink(buf + delta));
    }
  }

  lemma NothingEnds()
    ensures NoSentenceEnd("")
  {
  }

  lemma FragmentsKeepInk(deltas: seq<string>)
    ensures Ink(Join(AllFragments(deltas))) == Ink(Join(deltas))
    ensures forall f :: f in AllFragments(deltas) ==> Fragment(f)
  {
    hide Taken, Ink, Join, Fragment, Kept;
    AfterKeepsInk(deltas);
    KeptInk(After(deltas).1);
    InkOfJoin(After(deltas).0, Kept(After(deltas).1));
  }

  /** With deltas of at most 800 runes the buffer always stays under 800. */
  lemma {:induction false} BufferStaysShort(deltas: seq<string>)
    requires forall d :: d in deltas ==> |d| <= 800
    ensures |After(deltas).1| < 800
  {
    hide Taken;
    if deltas != [] {
      var front, delta := deltas[..|deltas| - 1], deltas[|deltas| - 1];
      BufferStaysShort(front);
      TakenKeepsInk(After(front).1 + delta);
    }
  }

  // ----- aligned PCM -----

  predicate Aligned(chunk: seq<byte>) {
    chunk != [] && |chunk| % 2 == 0
  }

  /** How many chunks are received when the context is seen cancelled before receive number receives. */
  function Received(chunks: seq<seq<byte>>, receives: nat): nat {
    if receives < |chunks| then receives else |chunks|
  }

  lemma JoinFront(chunks: seq<seq<byte>>, i: nat, n: nat)
    requires i <= n <= |chunks|
    ensures Join(chunks[..i]) <= Join(chunks[..n])
  {
    JoinPrefix(chunks[..n], i);
    assert chunks[..n][..i] == chunks[..i];
  }

  /** All received but for at most one byte has been sent. */
  lemma AllButOne(sent: seq<byte>, pending: seq<byte>, taken: seq<byte>)
    requires sent + pending == taken && |pending| <= 1 && |sent| % 2 == 0
    ensures sent <= taken && |sent| == |taken| / 2 * 2 && |sent| + 2 > |taken|
  {
  }

  /** A chunk that could not be sent leaves at least two bytes unsent. */
  lemma ChunkUnsent(sent: seq<byte>, whole: seq<byte>, upto: seq<byte>, taken: seq<byte>)
    requires sent + whole == upto && upto <= taken && |whole| >= 2
    ensures sent <= taken && |sent| + 2 <= |taken|
  {
    assert sent <= upto;
  }

  /** emitAlignedPCM. At most sends sends go through, and receives receives, before the context is seen
      cancelled; receives == |chunks| is a cancellation seen where the end of the input would be. The chunks are
      the received input cut to an even length, or less of it when a send is cancelled; the outcome is a
      cancellation exactly when a receive or a send saw one. */
  method EmitAlignedPCM(chunks: seq<seq<byte>>, sends: nat, receives: nat)
    returns (out: seq<seq<byte>>, cancelled: bool)
    ensures forall c :: c in out ==> Aligned(c)
    ensures |out| <= sends && Join(out) <= Join(chunks)
    ensures var taken := Join(chunks[..Received(chunks, receives)]);
            && Join(out) <= taken
            && (|Join(out)| == |taken| / 2 * 2 || (|out| == sends && |Join(out)| + 2 <= |taken|))
            && (cancelled <==> receives <= |chunks| || |Join(out)| + 2 <= |taken|)
  {
    hide Join;
    ghost var n := Received(chunks, receives);
    var pending: seq<byte>, i := [], 0;
    out, cancelled := [], false;
    JoinFew<byte>([]);
    JoinPrefix(chunks, n);
    while i < |chunks| && i < receives
      invariant 0 <= i <= n && |pending| <= 1 && |out| <= sends
      invariant Join(out) + pending == Join(chunks[..i]) && |Join(out)| % 2 == 0
      invariant forall c :: c in out ==> Aligned(c)
    {
      JoinOneMore(chunks, i);
      var chunk := chunks[i];
      i := i + 1;
      if |chunk| == 0 {
        continue;
      }
      if |pending| > 0 {
        chunk := pending + chunk;
        pending := [];
      }
      ghost var whole := chunk;
      assert Join(out) + whole == Join(chunks[..i]);
      if |chunk| % 2 != 0 {
        pending := [chunk[|chunk| - 1]];
        chunk := chunk[..|chunk| - 1];
      }
      assert chunk + pending == whole;
      if |chunk| == 0 {
        continue;
      }
      if |out| >= sends {
        cancelled := true;
        JoinFront(chunks, i, n);
        ChunkUnsent(Join(out), whole, Join(chunks[..i]), Join(chunks[..n]));
        return;
      }
      JoinAppend(out, chunk);
      assert (Join(out) + chunk) + pending == Join(out) + whole;
      out := out + [chunk];
    }
    AllButOne(Join(out), pending, Join(chunks[..n]));
    cancelled := i >= receives;
  }
}
