/** The encrypted WeCom envelope. */
module WeComFraming {
  // PKCS#7 padding, the length-prefixed frame, and both directions.

  import opened Text
  import opened Wrappers

  type bytes = seq<byte>

  const AES_BLOCK := 16
  const PAD_BLOCK := 32
  const HEADER := 20
  const UINT32 := 0x1_0000_0000

  datatype Error =
    | EmptyKey | BadKeyEncoding | BadKeyLength | BadEncoding | BadBlockSize
    | BadPaddedLength | BadPadLength | BadPadBytes
    | TooShort | BadMessageLength | ReceiveIdMismatch | NoRandom

  // ----- PKCS#7, section 6.3 of RFC 5652 -----

  function Padding(n: nat, blockSize: int): (p: int)
    requires blockSize > 0
    ensures 1 <= p <= blockSize && (n + p) % blockSize == 0
  {
    PaddingFills(n, blockSize);
    blockSize - n % blockSize
  }

  lemma PaddingFills(n: nat, blockSize: int)
    requires blockSize > 0
    ensures (n + (blockSize - n % blockSize)) % blockSize == 0
  {
    var q := n / blockSize;
    assert n + (blockSize - n % blockSize) == blockSize * (q + 1);
    MultipleMod(blockSize, q + 1);
  }

  lemma MultipleMod(m: int, q: int)
    requires m > 0
    ensures (m * q) % m == 0
  {
    ModUnique(m * q, m, q, 0);
  }

  lemma ModUnique(n: int, m: int, q: int, r: int)
    requires m > 0 && n == m * q + r && 0 <= r < m
    ensures n % m == r && n / m == q
  {
    var q', r' := n / m, n % m;
    assert n == m * q' + r';
    if q' > q {
      MulStep(m, q, q');
    } else if q' < q {
      MulStep(m, q', q);
    }
  }

  lemma {:induction false} MulStep(m: int, a: int, b: int)
    requires m > 0 && a < b
    ensures m * a + m <= m * b
    decreases b - a
  {
    assert m * b == m * (b - 1) + m;
    if a < b - 1 {
      MulStep(m, a, b - 1);
    }
  }

  function Repeat(b: byte, n: nat): (s: bytes)
    ensures |s| == n && forall i :: 0 <= i < n ==> s[i] == b
  {
    seq(n, _ => b)
  }

  /** pkcs7Pad: the pad byte is the padding truncated to eight bits. */
  function Pad(src: bytes, blockSize: int): bytes
    requires blockSize > 0
  {
    src + Repeat(Padding(|src|, blockSize) % 256, Padding(|src|, blockSize))
  }

  /** Padding fills up whole blocks with at least one byte, each naming how many there are. */
  lemma PadMeans(src: bytes, blockSize: int)
    requires 0 < blockSize <= 255
    ensures var r := Pad(src, blockSize);
            var p := |r| - |src|;
            && 1 <= p <= blockSize && |r| % blockSize == 0 && r[..|src|] == src
            && forall i :: |src| <= i < |r| ==> r[i] == p
  {
  }

  predicate EndsPadded(data: bytes, padLen: int) {
    0 <= padLen <= |data| && forall i :: |data| - padLen <= i < |data| ==> data[i] == padLen
  }

  function Unpadded(data: bytes, blockSize: int): Result<bytes, Error>
    requires blockSize > 0
  {
    if |data| == 0 || |data| % blockSize != 0 then Err(BadPaddedLength)
    else
      var padLen := data[|data| - 1];
      if padLen == 0 || padLen > blockSize || padLen > |data| then Err(BadPadLength)
      else if !EndsPadded(data, padLen) then Err(BadPadBytes)
      else Ok(data[..|data| - padLen])
  }

  method Unpad(data: bytes, blockSize: int) returns (r: Result<bytes, Error>)
    requires blockSize > 0
    ensures r == Unpadded(data, blockSize)
  {
    if |data| == 0 || |data| % blockSize != 0 {
      return Err(BadPaddedLength);
    }
    var padLen := data[|data| - 1];
    if padLen == 0 || padLen > blockSize || padLen > |data| {
      return Err(BadPadLength);
    }
    var i := |data| - padLen;
    while i < |data|
      invariant |data| - padLen <= i <= |data|
      invariant forall k :: |data| - padLen <= k < i ==> data[k] == padLen
    {
      if data[i] != padLen {
        return Err(BadPadBytes);
      }
      i := i + 1;
    }
    return Ok(data[..|data| - padLen]);
  }

  /** Removing p bytes from whole blocks leaves text whose padding is p again. */
  lemma PaddingBack(n: nat, p: int, blockSize: int)
    requires 1 <= p <= blockSize && p <= n && n % blockSize == 0
    ensures Padding(n - p, blockSize) == p
  {
    var q := n / blockSize;
    assert n == blockSize * q;
    if p == blockSize {
      assert n - p == blockSize * (q - 1) + 0;
      ModUnique(n - p, blockSize, q - 1, 0);
    } else {
      assert n - p == blockSize * (q - 1) + (blockSize - p);
      ModUnique(n - p, blockSize, q - 1, blockSize - p);
    }
  }

  /** Unpadding undoes padding and accepts nothing else, as long as a block fits in the pad byte. */
  lemma UnpadIffPad(data: bytes, x: bytes, blockSize: int)
    requires 0 < blockSize <= 255
    ensures Unpadded(data, blockSize) == Ok(x) <==> Pad(x, blockSize) == data
  {
    if Unpadded(data, blockSize) == Ok(x) {
      var padLen := data[|data| - 1];
      PaddingBack(|data|, padLen, blockSize);
      assert Pad(x, blockSize) == data;
    }
    if Pad(x, blockSize) == data {
      var p := Padding(|x|, blockSize);
      assert data[|data| - 1] == p;
      assert data[..|data| - p] == x;
    }
  }

  /** In general a padded text unpads to itself exactly when its padding fits in a byte. */
  lemma PadThenUnpad(x: bytes, blockSize: int)
    requires blockSize > 0
    ensures Unpadded(Pad(x, blockSize), blockSize) == Ok(x) <==> Padding(|x|, blockSize) <= 255
  {
    var p := Padding(|x|, blockSize);
    var data := Pad(x, blockSize);
    assert data[|data| - 1] == p % 256;
    if p <= 255 {
      assert data[..|data| - p] == x;
    } else if Unpadded(data, blockSize).Ok? {
      assert |Unpadded(data, blockSize).value| == |data| - p % 256;
    }
  }

  // ----- the frame -----

  /** binary.BigEndian.PutUint32 of the length cut to 32 bits. */
  function PutUint32(n: nat): (b: bytes)
    ensures |b| == 4
  {
    var m := n % UINT32;
    [m / 0x1000000, m / 0x10000 % 256, m / 0x100 % 256, m % 256]
  }

  function Uint32(b: bytes): (n: nat)
    requires |b| == 4
    ensures n < UINT32
  {
    (b[0] as int) * 0x1000000 + (b[1] as int) * 0x10000 + (b[2] as int) * 0x100 + b[3]
  }

  lemma Uint32RoundTrip(n: nat)
    ensures Uint32(PutUint32(n)) == n % UINT32
  {
    var m := n % UINT32;
    assert m == m / 0x100 * 0x100 + m % 0x100;
    assert m / 0x100 == m / 0x10000 * 0x100 + m / 0x100 % 0x100;
    assert m / 0x10000 == m / 0x1000000 * 0x100 + m / 0x10000 % 0x100;
  }

  lemma PutUint32RoundTrip(b: bytes)
    requires |b| == 4
    ensures PutUint32(Uint32(b)) == b
  {
    var n := Uint32(b);
    assert n % UINT32 == n;
    assert n / 0x100 == (b[0] as int) * 0x10000 + (b[1] as int) * 0x100 + b[2];
    assert n / 0x10000 == (b[0] as int) * 0x100 + b[1];
    assert n / 0x1000000 == b[0];
  }

  function Frame(random: bytes, msg: bytes, receiveID: bytes): bytes {
    random + PutUint32(|msg|) + msg + receiveID
  }

  function Unframed(plain: bytes): Result<(bytes, bytes), Error> {
    if |plain| < HEADER then Err(TooShort)
    else
      var msgLen := Uint32(plain[16..20]);
      if HEADER + msgLen > |plain| then Err(BadMessageLength)
      else Ok((plain[HEADER..HEADER + msgLen], plain[HEADER + msgLen..]))
  }

  /** A frame is read back as (msg, id) exactly when it is the frame of msg and id under some 16 random bytes. */
  lemma UnframedIff(plain: bytes, msg: bytes, id: bytes)
    ensures Unframed(plain) == Ok((msg, id)) <==>
            |msg| < UINT32 && |plain| >= 16 && plain == Frame(plain[..16], msg, id)
  {
    hide Uint32, PutUint32;
    if |plain| >= HEADER {
      var b := plain[16..20];
      if Unframed(plain) == Ok((msg, id)) {
        PutUint32RoundTrip(b);
        assert plain == plain[..16] + b + msg + id;
      }
      if |msg| < UINT32 && plain == Frame(plain[..16], msg, id) {
        assert b == PutUint32(|msg|);
        Uint32RoundTrip(|msg|);
        assert plain[HEADER..HEADER + |msg|] == msg && plain[HEADER + |msg|..] == id;
      }
    }
  }

  /** A message too long for its header comes back cut. */
  lemma LongMessageIsCut(random: bytes, msg: bytes, id: bytes)
    requires |random| == 16
    ensures Unframed(Frame(random, msg, id)) == Ok((msg, id)) <==> |msg| < UINT32
  {
    var plain := Frame(random, msg, id);
    assert plain[..16] == random;
    UnframedIff(plain, msg, id);
  }

  /** Where the parts of a frame are: 16 random bytes, four of length, the message, and the id to the end. */
  lemma FrameLayout(random: bytes, msg: bytes, id: bytes)
    requires |random| == 16
    ensures var plain := Frame(random, msg, id);
            && |plain| == 20 + |msg| + |id| && plain[..16] == random
            && plain[20..20 + |msg|] == msg && plain[20 + |msg|..] == id
    ensures forall n: nat :: |msg| == n < UINT32 ==>
              Frame(random, msg, id)[16..20] == [(n / 0x1000000) as byte, (n / 0x10000 % 0x100) as byte,
                                                 (n / 0x100 % 0x100) as byte, (n % 0x100) as byte]
  {
    var plain := Frame(random, msg, id);
    assert plain[16..20] == PutUint32(|msg|);
  }

  /** Four bytes are read with the most significant one first. */
  lemma BigEndian(a: bytes, b: bytes)
    requires |a| == |b| == 4
    ensures (a[0] < b[0] ==> Uint32(a) < Uint32(b))
    ensures (a[0] == b[0] && a[1] < b[1] ==> Uint32(a) < Uint32(b))
    ensures (a[..2] == b[..2] && a[2] < b[2] ==> Uint32(a) < Uint32(b))
    ensures (a[..3] == b[..3] && a[3] < b[3] ==> Uint32(a) < Uint32(b))
    ensures Uint32([0, 0, 0, a[3]]) == a[3] as int
  {
    assert a[..2] == b[..2] ==> a[..2][0] == b[..2][0] && a[..2][1] == b[..2][1];
    assert a[..3] == b[..3] ==> a[..3][0] == b[..3][0] && a[..3][1] == b[..3][1] && a[..3][2] == b[..3][2];
  }

  // ----- the library parts -----

  /** Base64, AES in CBC mode under a key and the key's own first bytes, and strings.TrimSpace. */
  datatype Library = Library(
    encode: bytes -> bytes,
    decode: bytes -> Option<bytes>,
    encryptBlocks: (bytes, bytes) -> bytes,
    decryptBlocks: (bytes, bytes) -> bytes,
    trim: bytes -> bytes)

  /** What the libraries promise: both codecs are inverse pairs and the cipher keeps whole blocks whole. */
  ghost predicate Sound(lib: Library) {
    && (forall x :: lib.decode(lib.encode(x)) == Some(x))
    && (forall key, x :: |lib.encryptBlocks(key, x)| == |x| && lib.decryptBlocks(key, lib.encryptBlocks(key, x)) == x)
    && (forall key, x :: |lib.decryptBlocks(key, x)| == |x| && lib.encryptBlocks(key, lib.decryptBlocks(key, x)) == x)
  }

  const EQUALS: byte := 61

  function DecodeAESKey(lib: Library, encodingAESKey: bytes): Result<bytes, Error> {
    var trimmed := lib.trim(encodingAESKey);
    if trimmed == [] then Err(EmptyKey)
    else
      var withPadding := if trimmed[|trimmed| - 1] == EQUALS then trimmed else trimmed + [EQUALS];
      match lib.decode(withPadding)
      case None => Err(BadKeyEncoding)
      case Some(aesKey) => if |aesKey| != 32 then Err(BadKeyLength) else Ok(aesKey)
  }

  /** A key with its padding sign and the same key without it are one, and only 32 bytes are a key. */
  lemma KeyMeans(lib: Library, text: bytes)
    requires lib.trim(text) == text && lib.trim(text + [EQUALS]) == text + [EQUALS]
    requires text != [] && text[|text| - 1] != EQUALS
    ensures DecodeAESKey(lib, text) == DecodeAESKey(lib, text + [EQUALS])
    ensures forall key :: DecodeAESKey(lib, text) == Ok(key) <==>
                            lib.decode(text + [EQUALS]) == Some(key) && |key| == 32
  {
  }

  // ----- both directions -----

  method Encrypt(lib: Library, encodingAESKey: bytes, receiveID: bytes, plaintext: bytes, random16: Option<bytes>)
    returns (r: Result<bytes, Error>)
    ensures DecodeAESKey(lib, encodingAESKey).Err? ==> r == Err(DecodeAESKey(lib, encodingAESKey).error)
    ensures DecodeAESKey(lib, encodingAESKey).Ok? && random16.None? ==> r == Err(NoRandom)
    ensures DecodeAESKey(lib, encodingAESKey).Ok? && random16.Some? ==>
              r == Ok(Sealed(lib, DecodeAESKey(lib, encodingAESKey).value, random16.value, plaintext, receiveID))
  {
    var key := DecodeAESKey(lib, encodingAESKey);
    if key.Err? {
      return Err(key.error);
    }
    if random16.None? {
      return Err(NoRandom);
    }
    var raw: bytes := [];
    raw := raw + random16.value;
    raw := raw + PutUint32(|plaintext|);
    raw := raw + plaintext;
    raw := raw + receiveID;
    assert raw == Frame(random16.value, plaintext, receiveID);
    return Ok(lib.encode(lib.encryptBlocks(key.value, Pad(raw, PAD_BLOCK))));
  }

  function Sealed(lib: Library, key: bytes, random: bytes, msg: bytes, id: bytes): bytes {
    lib.encode(lib.encryptBlocks(key, Pad(Frame(random, msg, id), PAD_BLOCK)))
  }

  predicate IdAccepted(lib: Library, expected: bytes, id: bytes) {
    lib.trim(expected) == [] || lib.trim(expected) == id
  }

  function Opened(lib: Library, key: bytes, expected: bytes, raw: bytes): Result<(bytes, bytes), Error> {
    if |raw| == 0 || |raw| % AES_BLOCK != 0 then Err(BadBlockSize)
    else
      match Unpadded(lib.decryptBlocks(key, raw), PAD_BLOCK)
      case Err(e) => Err(e)
      case Ok(plain) =>
        match Unframed(plain)
        case Err(e) => Err(e)
        case Ok(parts) => if IdAccepted(lib, expected, parts.1) then Ok(parts) else Err(ReceiveIdMismatch)
  }

  method Decrypt(lib: Library, encodingAESKey: bytes, expectedReceiveID: bytes, encrypted: bytes)
    returns (r: Result<(bytes, bytes), Error>)
    ensures DecodeAESKey(lib, encodingAESKey).Err? ==> r == Err(DecodeAESKey(lib, encodingAESKey).error)
    ensures DecodeAESKey(lib, encodingAESKey).Ok? ==>
              r == match lib.decode(encrypted)
                   case None => Err(BadEncoding)
                   case Some(raw) => Opened(lib, DecodeAESKey(lib, encodingAESKey).value, expectedReceiveID, raw)
  {
    hide Unpadded;
    var key := DecodeAESKey(lib, encodingAESKey);
    if key.Err? {
      return Err(key.error);
    }
    var raw := lib.decode(encrypted);
    if raw.None? {
      return Err(BadEncoding);
    }
    if |raw.value| == 0 || |raw.value| % AES_BLOCK != 0 {
      return Err(BadBlockSize);
    }
    var unpadded := Unpad(lib.decryptBlocks(key.value, raw.value), PAD_BLOCK);
    if unpadded.Err? {
      return Err(unpadded.error);
    }
    var plain := unpadded.value;
    if |plain| < HEADER {
      return Err(TooShort);
    }
    var msgLen := Uint32(plain[16..20]);
    if HEADER + msgLen > |plain| {
      return Err(BadMessageLength);
    }
    var msg, receiveID := plain[HEADER..HEADER + msgLen], plain[HEADER + msgLen..];
    var exp := lib.trim(expectedReceiveID);
    if exp != [] && receiveID != exp {
      return Err(ReceiveIdMismatch);
    }
    return Ok((msg, receiveID));
  }

  /** Decryption accepts an envelope as (msg, id) exactly when it encrypts the padded frame of msg and id,
      and the expected id is blank or this id. */
  lemma OpenedIff(lib: Library, key: bytes, expected: bytes, raw: bytes, msg: bytes, id: bytes)
    requires Sound(lib)
    ensures Opened(lib, key, expected, raw) == Ok((msg, id)) <==>
            && |msg| < UINT32 && IdAccepted(lib, expected, id)
            && exists random: bytes ::
                 |random| == 16 && raw == lib.encryptBlocks(key, Pad(Frame(random, msg, id), PAD_BLOCK))
  {
    hide Unpadded, Unframed, Pad, Frame;
    var data := lib.decryptBlocks(key, raw);
    if Opened(lib, key, expected, raw) == Ok((msg, id)) {
      var plain := Unpadded(data, PAD_BLOCK).value;
      UnpadIffPad(data, plain, PAD_BLOCK);
      UnframedIff(plain, msg, id);
      assert |plain[..16]| == 16 && raw == lib.encryptBlocks(key, Pad(Frame(plain[..16], msg, id), PAD_BLOCK));
    }
    if random: bytes :|
      |random| == 16 && raw == lib.encryptBlocks(key, Pad(Frame(random, msg, id), PAD_BLOCK)) &&
      |msg| < UINT32 && IdAccepted(lib, expected, id)
    {
      OpensWhatWasSealed(lib, key, random, msg, id, expected);
    }
  }

  /** What was sealed is whole blocks of padding around a frame that reads back. */
  lemma SealedUnframes(lib: Library, key: bytes, random: bytes, msg: bytes, id: bytes)
    requires Sound(lib) && |random| == 16
    ensures var raw := lib.encryptBlocks(key, Pad(Frame(random, msg, id), PAD_BLOCK));
            && |raw| > 0 && |raw| % AES_BLOCK == 0
            && Unpadded(lib.decryptBlocks(key, raw), PAD_BLOCK) == Ok(Frame(random, msg, id))
            && (Unframed(Frame(random, msg, id)) == Ok((msg, id)) <==> |msg| < UINT32)
  {
    hide Unpadded, Unframed, Frame, Pad;
    var plain := Frame(random, msg, id);
    UnpadIffPad(Pad(plain, PAD_BLOCK), plain, PAD_BLOCK);
    LongMessageIsCut(random, msg, id);
    PaddedIsWhole(plain);
  }

  lemma PaddedIsWhole(plain: bytes)
    ensures var padded := Pad(plain, PAD_BLOCK); |padded| > 0 && |padded| % AES_BLOCK == 0
  {
    var n := |Pad(plain, PAD_BLOCK)|;
    assert n % 32 == 0 && n == n / 32 * 32;
    MultipleMod(16, n / 32 * 2);
  }

  /** The round trip: what was sealed opens to the same message and id exactly when the length fits the
      header and the id is accepted. */
  lemma OpensWhatWasSealed(lib: Library, key: bytes, random: bytes, msg: bytes, id: bytes, expected: bytes)
    requires Sound(lib) && |random| == 16
    ensures var raw := lib.encryptBlocks(key, Pad(Frame(random, msg, id), PAD_BLOCK));
            && lib.decode(Sealed(lib, key, random, msg, id)) == Some(raw)
            && (Opened(lib, key, expected, raw) == Ok((msg, id)) <==> |msg| < UINT32 && IdAccepted(lib, expected, id))
  {
    hide Unpadded, Unframed, Pad, Frame;
    SealedUnframes(lib, key, random, msg, id);
  }

  /** An envelope for somebody else is refused: when an id is expected it must be the one that was sealed. */
  lemma OtherReceiverIsRefused(lib: Library, key: bytes, random: bytes, msg: bytes, id: bytes, expected: bytes)
    requires Sound(lib) && |random| == 16 && |msg| < UINT32
    ensures Opened(lib, key, expected, lib.encryptBlocks(key, Pad(Frame(random, msg, id), PAD_BLOCK))) ==
            if lib.trim(expected) != [] && lib.trim(expected) != id then Err(ReceiveIdMismatch) else Ok((msg, id))
  {
    hide Unpadded, Unframed, Pad, Frame;
    SealedUnframes(lib, key, random, msg, id);
  }
}
