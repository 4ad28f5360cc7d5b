/** Byte chunking and truncation of UTF-8 text, and the chunking loop of the Telegram Send. */
module Utf8Chunks {
  import opened Text
  import opened Wrappers

  const NEWLINE: byte := 10

  // ----- UTF-8, sections 3 and 4 of RFC 3629 -----

  predicate IsTail(b: byte) {
    0x80 <= b <= 0xBF
  }

  /** utf8.RuneStart. */
  predicate RuneStart(b: byte) {
    !IsTail(b)
  }

  predicate Tails(s: seq<byte>, n: nat) {
    n < |s| && forall i :: 1 <= i <= n ==> IsTail(s[i])
  }

  /** Length of the well-formed octet sequence s begins with; 0 when it begins with none. */
  function RuneWidth(s: seq<byte>): (w: nat)
    ensures w <= 4 && w <= |s|
    ensures w > 0 ==> RuneStart(s[0]) && Tails(s, w - 1)
  {
    if s == [] then 0
    else if s[0] <= 0x7F then 1
    else if 0xC2 <= s[0] <= 0xDF && Tails(s, 1) then 2
    else if 0xE0 <= s[0] <= 0xEF && Tails(s, 2)
            && (s[0] == 0xE0 ==> s[1] >= 0xA0) && (s[0] == 0xED ==> s[1] <= 0x9F) then 3
    else if 0xF0 <= s[0] <= 0xF4 && Tails(s, 3)
            && (s[0] == 0xF0 ==> s[1] >= 0x90) && (s[0] == 0xF4 ==> s[1] <= 0x8F) then 4
    else 0
  }

  predicate ValidUtf8(s: seq<byte>) {
    s == [] || (RuneWidth(s) > 0 && ValidUtf8(s[RuneWidth(s)..]))
  }

  /** No rune of s is wider than n bytes. */
  predicate RunesFit(s: seq<byte>, n: int) {
    s == [] || RuneWidth(s) == 0 || (RuneWidth(s) <= n && RunesFit(s[RuneWidth(s)..], n))
  }

  lemma WidthOfPrefix(s: seq<byte>, k: nat)
    requires 0 < RuneWidth(s) <= k <= |s|
    ensures RuneWidth(s[..k]) == RuneWidth(s)
  {
  }

  /** A byte that starts a rune is a place where valid text can be cut into two valid texts. */
  lemma {:induction false} CutAtStart(s: seq<byte>, k: nat)
    requires ValidUtf8(s) && k < |s| && RuneStart(s[k])
    ensures ValidUtf8(s[..k]) && ValidUtf8(s[k..])
    ensures forall n :: RunesFit(s, n) ==> RunesFit(s[k..], n)
  {
    hide RuneWidth;
    var w := RuneWidth(s);
    if k == 0 {
      assert s[0..] == s;
    } else {
      assert k >= w;
      WidthOfPrefix(s, k);
      CutAtStart(s[w..], k - w);
      assert s[w..][..k - w] == s[..k][w..] && s[w..][k - w..] == s[k..];
    }
  }

  /** Conversely, cutting valid text so that the front part is valid cuts it where a rune starts. */
  lemma {:induction false} ValidCutIsStart(s: seq<byte>, k: nat)
    requires ValidUtf8(s) && k < |s| && ValidUtf8(s[..k])
    ensures RuneStart(s[k])
  {
    if k > 0 {
      var w := RuneWidth(s);
      SameWidth(s, k);
      assert s[w..][..k - w] == s[..k][w..];
      ValidCutIsStart(s[w..], k - w);
    }
  }

  lemma SameWidth(s: seq<byte>, k: nat)
    requires k <= |s| && RuneWidth(s[..k]) > 0
    ensures RuneWidth(s) == RuneWidth(s[..k])
  {
  }

  /** Some rune starts at or at most n - 1 bytes before any position, when no rune is wider than n. */
  lemma {:induction false} StartNearby(s: seq<byte>, k: nat, n: nat) returns (j: nat)
    requires ValidUtf8(s) && RunesFit(s, n) && k < |s|
    ensures k - n < j <= k && RuneStart(s[j])
  {
    hide RuneWidth;
    var w := RuneWidth(s);
    if k < w {
      j := 0;
    } else {
      j := StartNearby(s[w..], k - w, n);
      j := j + w;
    }
  }

  lemma {:induction false} FourFits(s: seq<byte>, n: int)
    requires n >= 4
    ensures RunesFit(s, n)
  {
    hide RuneWidth;
    if s != [] && RuneWidth(s) > 0 {
      FourFits(s[RuneWidth(s)..], n);
    }
  }

  lemma {:induction false} ValidConcat(a: seq<byte>, b: seq<byte>, n: int)
    requires ValidUtf8(a) && ValidUtf8(b)
    ensures ValidUtf8(a + b)
    ensures RunesFit(a, n) && RunesFit(b, n) ==> RunesFit(a + b, n)
  {
    hide RuneWidth;
    if a == [] {
      assert a + b == b;
    } else {
      var w := RuneWidth(a);
      assert (a + b)[..|a|] == a;
      SameWidth(a + b, |a|);
      ValidConcat(a[w..], b, n);
      assert (a + b)[w..] == a[w..] + b;
    }
  }

  /** In text of at most n bytes no rune is wider than n. */
  lemma {:induction false} ShortFits(s: seq<byte>, n: int)
    requires |s| <= n
    ensures RunesFit(s, n)
  {
    hide RuneWidth;
    if s != [] && RuneWidth(s) > 0 {
      ShortFits(s[RuneWidth(s)..], n);
    }
  }

  // ----- valid text is encoded scalar values -----

  /** A Unicode scalar value. */
  predicate Scalar(u: int) {
    0 <= u < 0xD800 || 0xE000 <= u < 0x110000
  }

  /** Its octets, section 3 of RFC 3629. */
  function Encoded(u: int): seq<byte>
    requires Scalar(u)
  {
    if u < 0x80 then [u]
    else if u < 0x800 then [0xC0 + u / 64, 0x80 + u % 64]
    else if u < 0x10000 then [0xE0 + u / 4096, 0x80 + u / 64 % 64, 0x80 + u % 64]
    else [0xF0 + u / 262144, 0x80 + u / 4096 % 64, 0x80 + u / 64 % 64, 0x80 + u % 64]
  }

  lemma EncodedIsRune(u: int, more: seq<byte>)
    requires Scalar(u)
    ensures RuneWidth(Encoded(u) + more) == |Encoded(u)| > 0 && (Encoded(u) + more)[..|Encoded(u)|] == Encoded(u)
  {
    hide Encoded, RuneWidth, Tails;
    var e := Encoded(u);
    EncodedShape(u);
    assert forall i :: 0 <= i < |e| ==> (e + more)[i] == e[i];
    ShapeIsRune(e, more);
  }

  /** What sets the octet sequences of each length apart, section 4 of RFC 3629. */
  predicate RuneShape(e: seq<byte>) {
    || (|e| == 1 && e[0] <= 0x7F)
    || (|e| == 2 && 0xC2 <= e[0] <= 0xDF && IsTail(e[1]))
    || (|e| == 3 && 0xE0 <= e[0] <= 0xEF && IsTail(e[1]) && IsTail(e[2])
        && (e[0] == 0xE0 ==> e[1] >= 0xA0) && (e[0] == 0xED ==> e[1] <= 0x9F))
    || (|e| == 4 && 0xF0 <= e[0] <= 0xF4 && IsTail(e[1]) && IsTail(e[2]) && IsTail(e[3])
        && (e[0] == 0xF0 ==> e[1] >= 0x90) && (e[0] == 0xF4 ==> e[1] <= 0x8F))
  }

  lemma ShapeIsRune(e: seq<byte>, more: seq<byte>)
    requires RuneShape(e)
    ensures RuneWidth(e + more) == |e|
  {
    var s := e + more;
    assert forall i :: 0 <= i < |e| ==> s[i] == e[i];
  }

  lemma EncodedShape(u: int)
    requires Scalar(u)
    ensures RuneShape(Encoded(u))
  {
    if u >= 0x10000 {
      assert u / 4096 == (u / 262144) * 64 + u / 4096 % 64;
    } else if u >= 0x800 {
      assert u / 64 == (u / 4096) * 64 + u / 64 % 64;
    }
  }

  /** And every rune is the encoding of one. */
  lemma RuneIsEncoded(s: seq<byte>) returns (u: int)
    requires RuneWidth(s) > 0
    ensures Scalar(u) && s[..RuneWidth(s)] == Encoded(u)
  {
    var w := RuneWidth(s);
    var a: int := s[0];
    if w == 1 {
      u := a;
    } else {
      var b: int := s[1];
      if w == 2 {
        u := (a - 0xC0) * 64 + (b - 0x80);
        SixBits(a - 0xC0, b - 0x80);
      } else {
        var c: int := s[2];
        if w == 3 {
          u := ThreeOctets(a, b, c);
        } else {
          u := FourOctets(a, b, c, s[3]);
        }
        assert s[..w] == Encoded(u);
      }
    }
  }

  lemma ThreeOctets(a: int, b: int, c: int) returns (u: int)
    requires 0xE0 <= a <= 0xEF && 0x80 <= b <= 0xBF && 0x80 <= c <= 0xBF
    requires (a == 0xE0 ==> b >= 0xA0) && (a == 0xED ==> b <= 0x9F)
    ensures Scalar(u) && Encoded(u) == [a as byte, b as byte, c as byte]
  {
    var high := (a - 0xE0) * 64 + (b - 0x80);
    u := high * 64 + (c - 0x80);
    SixBits(a - 0xE0, b - 0x80);
    SixBits(high, c - 0x80);
    assert u / 4096 == u / 64 / 64;
  }

  lemma FourOctets(a: int, b: int, c: int, d: int) returns (u: int)
    requires 0xF0 <= a <= 0xF4 && 0x80 <= b <= 0xBF && 0x80 <= c <= 0xBF && 0x80 <= d <= 0xBF
    requires (a == 0xF0 ==> b >= 0x90) && (a == 0xF4 ==> b <= 0x8F)
    ensures Scalar(u) && Encoded(u) == [a as byte, b as byte, c as byte, d as byte]
  {
    var high := (a - 0xF0) * 64 + (b - 0x80);
    var mid := high * 64 + (c - 0x80);
    u := mid * 64 + (d - 0x80);
    SixBits(a - 0xF0, b - 0x80);
    SixBits(high, c - 0x80);
    SixBits(mid, d - 0x80);
    assert u / 4096 == u / 64 / 64 && u / 262144 == u / 64 / 64 / 64;
  }

  lemma SixBits(high: int, low: int)
    requires 0 <= high && 0 <= low < 64
    ensures (high * 64 + low) / 64 == high && (high * 64 + low) % 64 == low
  {
  }

  function EncodedAll(us: seq<int>): seq<byte>
    requires forall u :: u in us ==> Scalar(u)
  {
    if us == [] then [] else Encoded(us[0]) + EncodedAll(us[1..])
  }

  /** Valid text is exactly the encodings of scalar values, one after the other. */
  lemma {:induction false} ValidIsEncoded(s: seq<byte>) returns (us: seq<int>)
    requires ValidUtf8(s)
    ensures (forall u :: u in us ==> Scalar(u)) && s == EncodedAll(us)
    decreases |s|
  {
    hide RuneWidth, Encoded, Scalar;
    us := [];
    if s != [] {
      var u := RuneIsEncoded(s);
      var more := ValidIsEncoded(s[RuneWidth(s)..]);
      us := [u] + more;
      assert us[1..] == more && s == s[..RuneWidth(s)] + s[RuneWidth(s)..];
    }
  }

  lemma {:induction false} EncodedIsValid(us: seq<int>)
    requires forall u :: u in us ==> Scalar(u)
    ensures ValidUtf8(EncodedAll(us))
  {
    hide RuneWidth, Encoded, Scalar;
    if us != [] {
      EncodedIsRune(us[0], EncodedAll(us[1..]));
      EncodedIsValid(us[1..]);
      assert EncodedAll(us)[|Encoded(us[0])|..] == EncodedAll(us[1..]);
    }
  }

  // ----- the rune-aligned cut -----

  function CutFrom(s: seq<byte>, i: int, maxBytes: int): int
    requires maxBytes < |s| && i <= maxBytes
    decreases i
  {
    if i <= 0 then maxBytes else if RuneStart(s[i]) then i else CutFrom(s, i - 1, maxBytes)
  }

  function Cut(s: seq<byte>, maxBytes: int): int {
    if maxBytes >= |s| then |s| else CutFrom(s, maxBytes, maxBytes)
  }

  method RuneAlignedCut(s: seq<byte>, maxBytes: int) returns (cut: int)
    ensures cut == Cut(s, maxBytes)
  {
    if maxBytes >= |s| {
      return |s|;
    }
    var i := maxBytes;
    while i > 0
      invariant i <= maxBytes
      invariant CutFrom(s, i, maxBytes) == Cut(s, maxBytes)
    {
      if RuneStart(s[i]) {
        return i;
      }
      i := i - 1;
    }
    return maxBytes;
  }

  lemma {:induction false} CutFromFinds(s: seq<byte>, i: int, maxBytes: int, j: int)
    requires 0 < j <= i <= maxBytes < |s| && RuneStart(s[j])
    ensures j <= CutFrom(s, i, maxBytes) <= i && RuneStart(s[CutFrom(s, i, maxBytes)])
    decreases i
  {
    if !RuneStart(s[i]) {
      CutFromFinds(s, i - 1, maxBytes, j);
    }
  }

  lemma {:induction false} CutFromInRange(s: seq<byte>, i: int, maxBytes: int)
    requires 0 < maxBytes < |s| && i <= maxBytes
    ensures 0 < CutFrom(s, i, maxBytes) <= maxBytes
    decreases i
  {
    if 0 < i && !RuneStart(s[i]) {
      CutFromInRange(s, i - 1, maxBytes);
    }
  }

  /** When the first rune fits, the cut is the longest valid front part of at most maxBytes bytes, and at most one
      rune short of the limit. */
  lemma CutIsLongestValidPrefix(s: seq<byte>, maxBytes: int)
    requires ValidUtf8(s) && 0 < maxBytes && RuneWidth(s) <= maxBytes
    ensures 0 <= Cut(s, maxBytes) <= |s| && Cut(s, maxBytes) <= maxBytes
    ensures ValidUtf8(s[..Cut(s, maxBytes)]) && ValidUtf8(s[Cut(s, maxBytes)..])
    ensures forall k: nat :: k <= |s| && k <= maxBytes && ValidUtf8(s[..k]) ==> k <= Cut(s, maxBytes)
    ensures maxBytes < |s| ==> Cut(s, maxBytes) > 0 && Cut(s, maxBytes) >= maxBytes - 3
  {
    if maxBytes >= |s| {
      assert s[..|s|] == s;
    } else {
      var w := RuneWidth(s);
      assert RuneStart(s[w..][0]);
      CutFromFinds(s, maxBytes, maxBytes, w);
      var c := Cut(s, maxBytes);
      CutAtStart(s, c);
      forall k: nat | k <= maxBytes && ValidUtf8(s[..k])
        ensures k <= c
      {
        ValidCutIsStart(s, k);
        if k > 0 {
          CutFromFinds(s, maxBytes, maxBytes, k);
        }
      }
      if maxBytes > 3 {
        FourFits(s, 4);
        var j4 := StartNearby(s, maxBytes, 4);
        CutFromFinds(s, maxBytes, maxBytes, j4);
      }
    }
  }

  // ----- chunking -----

  /** Where the chunking loop cuts: at the last newline that leaves a non-empty chunk, else at a rune boundary. */
  function NextCut(s: seq<byte>, maxBytes: int): (k: int)
    requires 0 < maxBytes < |s|
    ensures 0 < k <= maxBytes
  {
    var split := LastIndexOf(s[..maxBytes], NEWLINE);
    CutFromInRange(s, maxBytes, maxBytes);
    if split > 0 then split else Cut(s, maxBytes)
  }

  function Pieces(s: seq<byte>, maxBytes: int): seq<seq<byte>>
    requires maxBytes > 0
    decreases |s|
  {
    if |s| > maxBytes then
      var k := NextCut(s, maxBytes);
      [s[..k]] + Pieces(s[k..], maxBytes)
    else if s != [] then [s] else []
  }

  function Chunks(s: seq<byte>, maxBytes: int): seq<seq<byte>> {
    if maxBytes <= 0 || |s| <= maxBytes then [s] else Pieces(s, maxBytes)
  }

  method ChunkBytes(s: seq<byte>, maxBytes: int) returns (chunks: seq<seq<byte>>)
    ensures chunks == Chunks(s, maxBytes)
  {
    if maxBytes <= 0 || |s| <= maxBytes {
      return [s];
    }
    chunks := [];
    var rest := s;
    while |rest| > maxBytes
      invariant chunks + Pieces(rest, maxBytes) == Pieces(s, maxBytes)
      decreases |rest|
    {
      var split := LastIndexOf(rest[..maxBytes], NEWLINE);
      if split > 0 {
        chunks := chunks + [rest[..split]];
        rest := rest[split..];
        continue;
      }
      split := RuneAlignedCut(rest, maxBytes);
      CutFromInRange(rest, maxBytes, maxBytes);
      chunks := chunks + [rest[..split]];
      rest := rest[split..];
    }
    if rest != [] {
      chunks := chunks + [rest];
    }
  }

  /** Nothing is lost, repeated or reordered, whatever the bytes and the limit. */
  lemma {:induction false} PiecesRejoin(s: seq<byte>, maxBytes: int)
    requires maxBytes > 0
    ensures Join(Pieces(s, maxBytes)) == s
    decreases |s|
  {
    if |s| > maxBytes {
      PiecesRejoin(s[NextCut(s, maxBytes)..], maxBytes);
    }
  }

  lemma ChunksRejoin(s: seq<byte>, maxBytes: int)
    ensures Join(Chunks(s, maxBytes)) == s
  {
    if maxBytes > 0 && |s| > maxBytes {
      PiecesRejoin(s, maxBytes);
    } else {
      JoinFew(s);
    }
  }

  lemma {:induction false} PiecesInLimit(s: seq<byte>, maxBytes: int)
    requires maxBytes > 0
    ensures forall c :: c in Pieces(s, maxBytes) ==> 0 < |c| <= maxBytes
    decreases |s|
  {
    if |s| > maxBytes {
      PiecesInLimit(s[NextCut(s, maxBytes)..], maxBytes);
    }
  }

  /** No chunk is empty or over the limit. */
  lemma ChunksInLimit(s: seq<byte>, maxBytes: int)
    requires maxBytes > 0 && s != []
    ensures forall c :: c in Chunks(s, maxBytes) ==> 0 < |c| <= maxBytes
  {
    PiecesInLimit(s, maxBytes);
  }

  lemma {:induction false} PiecesValid(s: seq<byte>, maxBytes: int)
    requires maxBytes > 0 && ValidUtf8(s) && RunesFit(s, maxBytes)
    ensures forall c :: c in Pieces(s, maxBytes) ==> ValidUtf8(c)
    decreases |s|
  {
    hide ValidUtf8, RunesFit, RuneWidth;
    if |s| > maxBytes {
      NextCutIsStart(s, maxBytes);
      var k := NextCut(s, maxBytes);
      CutAtStart(s, k);
      PiecesValid(s[k..], maxBytes);
    }
  }

  lemma NextCutIsStart(s: seq<byte>, maxBytes: int)
    requires ValidUtf8(s) && 0 < maxBytes < |s| && RunesFit(s, maxBytes)
    ensures RuneStart(s[NextCut(s, maxBytes)])
    ensures NextCut(s, maxBytes) == Cut(s, maxBytes) ==> NextCut(s, maxBytes) >= maxBytes - 3
  {
    hide ValidUtf8, RuneWidth;
    CutIsLongestValidPrefix(s, maxBytes);
    ValidCutIsStart(s, Cut(s, maxBytes));
  }

  lemma {:induction false} ValidPartsFit(parts: seq<seq<byte>>, n: int)
    requires forall c :: c in parts ==> ValidUtf8(c) && |c| <= n
    ensures ValidUtf8(Join(parts)) && RunesFit(Join(parts), n)
  {
    if parts != [] {
      ValidPartsFit(parts[1..], n);
      ShortFits(parts[0], n);
      ValidConcat(parts[0], Join(parts[1..]), n);
    }
  }

  /** Chunking splits no rune exactly when every rune fits in a chunk. */
  lemma ChunksSplitNoRune(s: seq<byte>, maxBytes: int)
    requires ValidUtf8(s) && maxBytes > 0
    ensures (forall c :: c in Chunks(s, maxBytes) ==> ValidUtf8(c)) <==> |s| <= maxBytes || RunesFit(s, maxBytes)
  {
    if |s| > maxBytes {
      if RunesFit(s, maxBytes) {
        PiecesValid(s, maxBytes);
      }
      if forall c :: c in Chunks(s, maxBytes) ==> ValidUtf8(c) {
        PiecesInLimit(s, maxBytes);
        ValidPartsFit(Chunks(s, maxBytes), maxBytes);
        PiecesRejoin(s, maxBytes);
      }
    }
  }

  /** With room for four bytes every chunk of valid text is valid text. */
  lemma ChunksAreValid(s: seq<byte>, maxBytes: int)
    requires ValidUtf8(s) && maxBytes >= 4
    ensures forall c :: c in Chunks(s, maxBytes) ==> ValidUtf8(c)
  {
    FourFits(s, maxBytes);
    ChunksSplitNoRune(s, maxBytes);
  }

  /** With less room the promise does fail: a two-byte rune is split when the limit is one. */
  lemma SmallLimitSplitsRune()
    ensures ValidUtf8([0xC3, 0xA9]) && Chunks([0xC3, 0xA9], 1) == [[0xC3], [0xA9]] && !ValidUtf8([0xC3])
  {
    var s: seq<byte> := [0xC3, 0xA9];
    assert RuneWidth(s) == 2 && s[2..] == [];
    assert s[..1] == [0xC3] && s[1..] == [0xA9];
    assert LastIndexOf(s[..1], NEWLINE) < 0;
    assert Pieces(s[1..], 1) == [[0xA9]];
  }

  /** No place behind k and up to the limit, which it includes or not. */
  predicate LastIn(s: seq<byte>, k: int, hi: int, newline: bool)
    requires hi <= |s|
  {
    0 < k < hi && Marks(s, k, newline) && forall j :: k < j < hi ==> !Marks(s, j, newline)
  }

  /** A newline, or a byte that starts a rune. */
  predicate Marks(s: seq<byte>, j: int, newline: bool)
    requires 0 <= j < |s|
  {
    if newline then s[j] == NEWLINE else !(0x80 <= s[j] < 0xC0)
  }

  predicate MarkedBelow(s: seq<byte>, hi: int, newline: bool)
    requires hi <= |s|
  {
    exists j :: 0 < j < hi && Marks(s, j, newline)
  }

  /** Where a chunk of longer text ends: at the last newline below the limit; without one, before the last byte up to
      the limit that starts a rune; without one, at the limit. */
  predicate CutWell(rest: seq<byte>, k: int, maxBytes: int)
    requires 0 < maxBytes < |rest|
  {
    if MarkedBelow(rest, maxBytes, true) then LastIn(rest, k, maxBytes, true)
    else if MarkedBelow(rest, maxBytes + 1, false) then LastIn(rest, k, maxBytes + 1, false)
    else k == maxBytes
  }

  lemma NextCutWell(s: seq<byte>, maxBytes: int)
    requires 0 < maxBytes < |s|
    ensures CutWell(s, NextCut(s, maxBytes), maxBytes)
  {
    var window := s[..maxBytes];
    var split := LastIndexOf(window, NEWLINE);
    assert forall j :: 0 <= j < maxBytes ==> window[j] == s[j];
    if split > 0 {
      assert Marks(s, split, true);
    } else {
      assert !MarkedBelow(s, maxBytes, true);
      CutFromLast(s, maxBytes, maxBytes);
    }
  }

  lemma {:induction false} CutFromLast(s: seq<byte>, i: int, maxBytes: int)
    requires 0 <= i <= maxBytes < |s|
    requires forall j :: i < j <= maxBytes ==> !Marks(s, j, false)
    ensures var k := CutFrom(s, i, maxBytes);
            if MarkedBelow(s, maxBytes + 1, false) then LastIn(s, k, maxBytes + 1, false) else k == maxBytes
    decreases i
  {
    if i > 0 {
      if RuneStart(s[i]) {
        assert Marks(s, i, false);
      } else {
        CutFromLast(s, i - 1, maxBytes);
      }
    }
  }

  /** Every chunk but the last is cut well from what is left, and the last is what is left within the limit. */
  lemma {:induction false} ChunksCutWell(s: seq<byte>, maxBytes: int, i: nat)
    requires maxBytes > 0 && i < |Pieces(s, maxBytes)|
    ensures var chunk, rest := Pieces(s, maxBytes)[i], Join(Pieces(s, maxBytes)[i..]);
            && (i + 1 == |Pieces(s, maxBytes)| <==> |rest| <= maxBytes)
            && (|rest| <= maxBytes ==> chunk == rest)
            && (|rest| > maxBytes ==> CutWell(rest, |chunk|, maxBytes))
    decreases |s|
  {
    hide NextCut, CutWell, Join;
    PiecesRejoin(s, maxBytes);
    assert Pieces(s, maxBytes)[0..] == Pieces(s, maxBytes);
    PiecesUnfold(s, maxBytes);
    if |s| > maxBytes {
      var rest := s[NextCut(s, maxBytes)..];
      if i == 0 {
        NextCutWell(s, maxBytes);
        SomePieces(rest, maxBytes);
      } else {
        ChunksCutWell(rest, maxBytes, i - 1);
        assert Pieces(s, maxBytes)[i..] == Pieces(rest, maxBytes)[i - 1..];
      }
    } else {
      assert Pieces(s, maxBytes) == [s];
    }
  }

  lemma SomePieces(s: seq<byte>, maxBytes: int)
    requires maxBytes > 0 && s != []
    ensures Pieces(s, maxBytes) != []
  {
  }

  /** Two cuts in a row make at least maxBytes - 2 bytes of progress. */
  lemma TwoCutsProgress(s: seq<byte>, maxBytes: int)
    requires ValidUtf8(s) && 4 <= maxBytes < |s|
    requires |s[NextCut(s, maxBytes)..]| > maxBytes
    ensures NextCut(s, maxBytes) + NextCut(s[NextCut(s, maxBytes)..], maxBytes) >= maxBytes - 2
  {
    hide ValidUtf8, RunesFit, RuneWidth, Cut;
    FourFits(s, maxBytes);
    NextCutIsStart(s, maxBytes);
    var k := NextCut(s, maxBytes);
    var rest := s[k..];
    CutAtStart(s, k);
    NextCutIsStart(rest, maxBytes);
    var split, next := LastIndexOf(s[..maxBytes], NEWLINE), LastIndexOf(rest[..maxBytes], NEWLINE);
    if split > 0 && next > 0 && k + next < maxBytes {
      assert s[..maxBytes][k + next] == rest[..maxBytes][next];
    }
  }

  /** Consecutive chunks other than the last total at least maxBytes - 2 bytes. */
  lemma {:induction false} ConsecutiveChunks(s: seq<byte>, maxBytes: int, i: nat)
    requires ValidUtf8(s) && maxBytes >= 4 && i + 2 < |Pieces(s, maxBytes)|
    ensures |Pieces(s, maxBytes)[i]| + |Pieces(s, maxBytes)[i + 1]| >= maxBytes - 2
    decreases |s|
  {
    hide ValidUtf8, RunesFit, RuneWidth, NextCut;
    FourFits(s, maxBytes);
    NextCutIsStart(s, maxBytes);
    var k := NextCut(s, maxBytes);
    CutAtStart(s, k);
    var rest := s[k..];
    if i == 0 {
      assert |rest| > maxBytes;
      TwoCutsProgress(s, maxBytes);
    } else {
      ConsecutiveChunks(rest, maxBytes, i - 1);
    }
  }

  /** So the number of chunks is linear in the length of the text. */
  lemma {:induction false} ChunkCount(s: seq<byte>, maxBytes: int)
    requires ValidUtf8(s) && maxBytes >= 4
    ensures (|Chunks(s, maxBytes)| - 1) / 2 * (maxBytes - 2) <= |s|
    decreases |s|
  {
    hide ValidUtf8, RunesFit, RuneWidth, NextCut, Pieces;
    PiecesUnfold(s, maxBytes);
    if |s| > maxBytes {
      var k := NextCut(s, maxBytes);
      var rest := s[k..];
      RestIsValid(s, maxBytes);
      PiecesUnfold(rest, maxBytes);
      if |rest| > maxBytes {
        TwoCutsProgress(s, maxBytes);
        RestIsValid(rest, maxBytes);
        var rest2 := rest[NextCut(rest, maxBytes)..];
        PiecesUnfold(rest2, maxBytes);
        ChunkCount(rest2, maxBytes);
        TwoMore(|Pieces(rest2, maxBytes)|, maxBytes - 2);
      }
    }
  }

  lemma PiecesUnfold(s: seq<byte>, maxBytes: int)
    requires maxBytes > 0
    ensures |s| > maxBytes ==>
              Pieces(s, maxBytes) == [s[..NextCut(s, maxBytes)]] + Pieces(s[NextCut(s, maxBytes)..], maxBytes)
    ensures 0 < |s| <= maxBytes ==> Pieces(s, maxBytes) == [s]
  {
    hide NextCut;
  }

  lemma RestIsValid(s: seq<byte>, maxBytes: int)
    requires ValidUtf8(s) && 4 <= maxBytes < |s|
    ensures ValidUtf8(s[NextCut(s, maxBytes)..])
  {
    hide ValidUtf8, RunesFit, RuneWidth, NextCut;
    FourFits(s, maxBytes);
    NextCutIsStart(s, maxBytes);
    CutAtStart(s, NextCut(s, maxBytes));
  }

  lemma TwoMore(n: int, m: int)
    ensures (n + 1) / 2 * m == (n - 1) / 2 * m + m
  {
    assert (n + 1) / 2 == (n - 1) / 2 + 1;
  }

  // ----- truncation -----

  const REPLACEMENT: seq<byte> := [0xEF, 0xBF, 0xBD]

  /** How many bytes one step of decoding consumes: a rune, or a single byte that starts none. */
  function Step(s: seq<byte>): (n: nat)
    requires s != []
    ensures 0 < n <= |s|
  {
    if RuneWidth(s) > 0 then RuneWidth(s) else 1
  }

  /** The runes of s, each as its encoding; a byte that decodes to none becomes U+FFFD. */
  function Runes(s: seq<byte>): (runes: seq<seq<byte>>)
    ensures forall r :: r in runes ==> r != []
  {
    if s == [] then []
    else [if RuneWidth(s) > 0 then s[..RuneWidth(s)] else REPLACEMENT] + Runes(s[Step(s)..])
  }

  /** Behind valid text, a byte that starts no rune is one replacement character, and decoding goes on behind it. */
  lemma {:induction false} BadByteIsReplaced(a: seq<byte>, b: seq<byte>)
    requires ValidUtf8(a) && b != [] && RuneWidth(b) == 0
    ensures Runes(a + b) == Runes(a) + [[0xEF, 0xBF, 0xBD]] + Runes(b[1..])
  {
    hide RuneWidth, RunesFit, Runes;
    if a == [] {
      assert a + b == b;
      SomeRunes(a);
      FirstIsBad(b);
    } else {
      var w := RuneWidth(a);
      assert (a + b)[..|a|] == a;
      SameWidth(a + b, |a|);
      assert (a + b)[..w] == a[..w] && (a + b)[w..] == a[w..] + b;
      BadByteIsReplaced(a[w..], b);
      FirstIsRune(a);
      FirstIsRune(a + b);
      var bad, later := [[0xEF, 0xBF, 0xBD]], Runes(b[1..]);
      assert [a[..w]] + (Runes(a[w..]) + bad + later) == ([a[..w]] + Runes(a[w..])) + bad + later;
    }
  }

  lemma FirstIsRune(s: seq<byte>)
    requires RuneWidth(s) > 0
    ensures Runes(s) == [s[..RuneWidth(s)]] + Runes(s[RuneWidth(s)..])
  {
    hide RuneWidth;
  }

  lemma FirstIsBad(b: seq<byte>)
    requires b != [] && RuneWidth(b) == 0
    ensures Runes(b) == [[0xEF, 0xBF, 0xBD]] + Runes(b[1..])
  {
    hide RuneWidth;
  }

  /** TruncateBytes keeps as many whole runes as fit. */
  method TruncateBytes(s: seq<byte>, maxBytes: int) returns (r: seq<byte>)
    ensures maxBytes <= 0 || |s| <= maxBytes ==> r == s
    ensures 0 < maxBytes < |s| ==>
              exists i: nat :: i < |Runes(s)| && r == Join(Runes(s)[..i])
                               && |r| <= maxBytes < |Join(Runes(s)[..i + 1])|
  {
    if maxBytes <= 0 || |s| <= maxBytes {
      return s;
    }
    var runes := Runes(s);
    var bytesCount := 0;
    var i := 0;
    while i < |runes|
      invariant 0 <= i <= |runes|
      invariant bytesCount == |Join(runes[..i])| <= maxBytes
    {
      JoinOneMore(runes, i);
      if bytesCount + |runes[i]| > maxBytes {
        return Join(runes[..i]);
      }
      bytesCount := bytesCount + |runes[i]|;
      i := i + 1;
    }
    assert runes[..i] == runes;
    RunesNotShorter(s);
    assert false;
  }

  lemma {:induction false} RunesNotShorter(s: seq<byte>)
    ensures |Join(Runes(s))| >= |s|
  {
    hide RuneWidth;
    if s != [] {
      RunesNotShorter(s[Step(s)..]);
    }
  }

  /** In valid text the runes are the text, so the kept part is a prefix of it that is valid text. */
  lemma {:induction false} FirstRunesArePrefix(s: seq<byte>, i: nat)
    requires ValidUtf8(s) && i <= |Runes(s)|
    ensures Join(Runes(s)[..i]) <= s && ValidUtf8(Join(Runes(s)[..i]))
    ensures i == |Runes(s)| ==> Join(Runes(s)[..i]) == s
  {
    hide RuneWidth, Join, Runes, RunesFit;
    if i == 0 {
      JoinFew<byte>([]);
      NoRunes(s);
    } else {
      SomeRunes(s);
      var w := RuneWidth(s);
      FrontOfRunes(s, i);
      FirstRunesArePrefix(s[w..], i - 1);
      var kept := Join(Runes(s[w..])[..i - 1]);
      FirstRuneIsValid(s);
      ValidConcat(s[..w], kept, 0);
      assert s == s[..w] + s[w..];
    }
  }

  lemma NoRunes(s: seq<byte>)
    ensures |Runes(s)| == 0 ==> s == []
  {
  }

  lemma SomeRunes(s: seq<byte>)
    ensures |Runes(s)| > 0 ==> s != []
  {
  }

  lemma FrontOfRunes(s: seq<byte>, i: nat)
    requires s != [] && RuneWidth(s) > 0 && 0 < i <= |Runes(s)|
    ensures |Runes(s)| == |Runes(s[RuneWidth(s)..])| + 1
    ensures Join(Runes(s)[..i]) == s[..RuneWidth(s)] + Join(Runes(s[RuneWidth(s)..])[..i - 1])
  {
    hide RuneWidth;
    var w := RuneWidth(s);
    assert Runes(s) == [s[..w]] + Runes(s[w..]);
    assert Runes(s)[..i][1..] == Runes(s[w..])[..i - 1];
  }

  lemma FirstRuneIsValid(s: seq<byte>)
    requires RuneWidth(s) > 0
    ensures ValidUtf8(s[..RuneWidth(s)])
  {
    hide RuneWidth;
    var w := RuneWidth(s);
    WidthOfPrefix(s, w);
    assert s[..w][w..] == [];
  }

  /** No rune boundary lies strictly inside a rune. */
  lemma {:induction false} KeptRunes(s: seq<byte>, i: nat, c: nat)
    requires ValidUtf8(s) && s != [] && i < |Runes(s)| && c <= |s| && ValidUtf8(s[..c])
    requires c < |Join(Runes(s)[..i + 1])|
    ensures c <= |Join(Runes(s)[..i])|
  {
    hide RuneWidth;
    var w := RuneWidth(s);
    FrontOfRunes(s, i + 1);
    if c > 0 {
      SameWidth(s, c);
      assert s[..c][w..] == s[w..][..c - w];
      if i > 0 {
        FrontOfRunes(s, i);
        KeptRunes(s[w..], i - 1, c - w);
      }
    }
  }

  /** For valid text what TruncateBytes keeps is the rune-aligned cut, exactly when the first rune fits. */
  lemma TruncationIsTheCut(s: seq<byte>, maxBytes: int, i: nat)
    requires ValidUtf8(s) && 0 < maxBytes < |s| && i < |Runes(s)|
    requires |Join(Runes(s)[..i])| <= maxBytes < |Join(Runes(s)[..i + 1])|
    ensures 0 < Cut(s, maxBytes) <= maxBytes
    ensures Join(Runes(s)[..i]) == s[..Cut(s, maxBytes)] <==> RuneWidth(s) <= maxBytes
  {
    hide CutFrom, RuneWidth, RunesFit, Join, Runes;
    CutFromInRange(s, maxBytes, maxBytes);
    if RuneWidth(s) <= maxBytes {
      CutIsLongestValidPrefix(s, maxBytes);
      FirstRunesArePrefix(s, i);
      assert s[..|Join(Runes(s)[..i])|] == Join(Runes(s)[..i]);
      KeptRunes(s, i, Cut(s, maxBytes));
    } else if i > 0 {
      FrontOfRunes(s, i);
      assert false;
    } else {
      JoinFew<byte>([]);
      assert Runes(s)[..0] == [];
    }
  }

  // ----- the Telegram Send loop -----

  const TELEGRAM_MAX := 4000

  datatype Message = Html(text: seq<byte>) | Plain(text: seq<byte>)

  function AsHtml(chunks: seq<seq<byte>>): (msgs: seq<Message>)
    ensures |msgs| == |chunks|
  {
    if chunks == [] then [] else [Html(chunks[0])] + AsHtml(chunks[1..])
  }

  /** The messages that reach the chat: HTML chunks until one is refused, then the plain content in one message. */
  function Delivered(chunks: seq<seq<byte>>, plain: seq<byte>, n: nat, accepts: nat -> bool): seq<Message> {
    if chunks == [] then []
    else if accepts(n) then [Html(chunks[0])] + Delivered(chunks[1..], plain, n + 1, accepts)
    else if accepts(n + 1) then [Plain(plain)]
    else []
  }

  function SendOk(chunks: seq<seq<byte>>, n: nat, accepts: nat -> bool): bool {
    chunks == [] || (if accepts(n) then SendOk(chunks[1..], n + 1, accepts) else accepts(n + 1))
  }

  /** Send after the placeholder: accepts(n) is whether the n-th message sent to the API is accepted. */
  method SendChunks(html: seq<byte>, plain: seq<byte>, accepts: nat -> bool) returns (delivered: seq<Message>, ok: bool)
    ensures delivered == Delivered(Pieces(html, TELEGRAM_MAX), plain, 0, accepts)
    ensures ok == SendOk(Pieces(html, TELEGRAM_MAX), 0, accepts)
  {
    hide Pieces, CutFrom, LastIndexOf, RuneStart;
    delivered := [];
    var content, n := html, 0;
    NothingToSend();
    assert [] + Delivered(Pieces(html, TELEGRAM_MAX), plain, 0, accepts) ==
      Delivered(Pieces(html, TELEGRAM_MAX), plain, 0, accepts);
    while |content| > 0
      invariant n >= 0
      invariant delivered + Delivered(Pieces(content, TELEGRAM_MAX), plain, n, accepts)
             == Delivered(Pieces(html, TELEGRAM_MAX), plain, 0, accepts)
      invariant SendOk(Pieces(content, TELEGRAM_MAX), n, accepts) == SendOk(Pieces(html, TELEGRAM_MAX), 0, accepts)
      decreases |content|
    {
      var chunk := content;
      if |chunk| > TELEGRAM_MAX {
        var idx := LastIndexOf(chunk[..TELEGRAM_MAX], NEWLINE);
        if idx > 0 {
          chunk := chunk[..idx];
        } else {
          var cut := RuneAlignedCut(chunk, TELEGRAM_MAX);
          CutFromInRange(chunk, TELEGRAM_MAX, TELEGRAM_MAX);
          chunk := chunk[..cut];
        }
      }
      PiecesHead(content, chunk);
      content := content[|chunk|..];
      assert ([chunk] + Pieces(content, TELEGRAM_MAX))[1..] == Pieces(content, TELEGRAM_MAX);
      if !accepts(n) {
        if accepts(n + 1) {
          return delivered + [Plain(plain)], true;
        }
        return delivered, false;
      }
      ghost var later := Delivered(Pieces(content, TELEGRAM_MAX), plain, n + 1, accepts);
      assert delivered + ([Html(chunk)] + later) == (delivered + [Html(chunk)]) + later;
      delivered := delivered + [Html(chunk)];
      n := n + 1;
    }
    assert delivered + [] == delivered;
    return delivered, true;
  }

  lemma NothingToSend()
    ensures Pieces([], TELEGRAM_MAX) == []
  {
  }

  // How Send ends.
  datatype Sent = NoBot | BadChatId | Edited | Chunked(ok: bool)

  /** Send. chat is what the chat id parses to, placeholder the metadata's placeholder id when it holds a number. A
      placeholder whose edit succeeds takes the whole message; otherwise the content is sent in chunks. */
  method Send(hasBot: bool, chat: Option<int>, placeholder: Option<int>, html: seq<byte>, plain: seq<byte>,
      editAccepted: bool, accepts: nat -> bool)
    returns (sent: Sent, delivered: seq<Message>)
    ensures sent.NoBot? <==> !hasBot
    ensures sent.BadChatId? <==> hasBot && chat.None?
    ensures sent.Edited? <==> hasBot && chat.Some? && placeholder !in {None, Some(0)} && editAccepted
    ensures sent.Chunked? ==> sent.ok == SendOk(Pieces(html, TELEGRAM_MAX), 0, accepts)
    ensures delivered == if sent.Chunked? then Delivered(Pieces(html, TELEGRAM_MAX), plain, 0, accepts) else []
  {
    delivered := [];
    if !hasBot {
      return NoBot, delivered;
    }
    if chat.None? {
      return BadChatId, delivered;
    }
    if placeholder.Some? && placeholder.value != 0 {
      if editAccepted {
        return Edited, delivered;
      }
    }
    var ok;
    delivered, ok := SendChunks(html, plain, accepts);
    sent := Chunked(ok);
  }

  lemma PiecesHead(content: seq<byte>, chunk: seq<byte>)
    requires content != []
    requires if |content| > TELEGRAM_MAX then chunk == content[..NextCut(content, TELEGRAM_MAX)] else chunk == content
    ensures |chunk| <= |content|
    ensures Pieces(content, TELEGRAM_MAX) == [chunk] + Pieces(content[|chunk|..], TELEGRAM_MAX)
  {
    hide NextCut;
  }

  /** When every message is accepted, Send delivers exactly what ChunkBytes cuts; empty content sends nothing. */
  lemma {:induction false} SendEmitsChunks(html: seq<byte>, plain: seq<byte>, accepts: nat -> bool)
    requires forall n :: accepts(n)
    ensures html != [] ==>
            Delivered(Pieces(html, TELEGRAM_MAX), plain, 0, accepts) == AsHtml(Chunks(html, TELEGRAM_MAX))
    ensures html == [] ==>
            Delivered(Pieces(html, TELEGRAM_MAX), plain, 0, accepts) == [] && Chunks(html, TELEGRAM_MAX) == [[]]
    ensures SendOk(Pieces(html, TELEGRAM_MAX), 0, accepts)
  {
    AllDelivered(Pieces(html, TELEGRAM_MAX), plain, 0, accepts);
  }

  lemma {:induction false} AllDelivered(chunks: seq<seq<byte>>, plain: seq<byte>, n: nat, accepts: nat -> bool)
    requires forall k :: n <= k ==> accepts(k)
    ensures Delivered(chunks, plain, n, accepts) == AsHtml(chunks) && SendOk(chunks, n, accepts)
    decreases |chunks|
  {
    if chunks != [] {
      AllDelivered(chunks[1..], plain, n + 1, accepts);
    }
  }

  /** A refused chunk is replaced by the whole plain content, after the chunks that were accepted. */
  lemma {:induction false} RefusedChunkFallsBack(chunks: seq<seq<byte>>, plain: seq<byte>, n: nat,
      accepts: nat -> bool, i: nat)
    requires i < |chunks| && !accepts(n + i) && forall k :: n <= k < n + i ==> accepts(k)
    ensures Delivered(chunks, plain, n, accepts)
         == AsHtml(chunks[..i]) + if accepts(n + i + 1) then [Plain(plain)] else []
    ensures SendOk(chunks, n, accepts) == accepts(n + i + 1)
    decreases |chunks|
  {
    if i > 0 {
      RefusedChunkFallsBack(chunks[1..], plain, n + 1, accepts, i - 1);
      assert chunks[1..][..i - 1] == chunks[..i][1..];
    }
  }
}
