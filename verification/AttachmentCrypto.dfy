/** The simple, one-shot reading of an encrypted attachment body
    (src/history_attachment.rs): block chaining, padding, sealing and the
    outcome that a complete body deserves.  The streaming code is proved against
    these definitions in the modules that follow.

    Block encryption, HMAC-SHA256 and SHA-256 are parameters: nothing is assumed
    of them but their output lengths and that decryption inverts encryption. */
module AttachmentCrypto {
  import opened Basics

  datatype Result<+T> = Ok(value: T) | Err(error: Failure)

  datatype Failure =
    | BodyTooLarge(expectedMax: nat)
    | BadMac
    | DigestMismatch
    | BadPadding
    | PlaintextTooShort(declared: nat)
    | PlaintextHashMismatch

  const BLOCK := 16
  const IV_LENGTH := 16
  const MAC_LENGTH := 32
  const MIN_BODY_BYTES := IV_LENGTH + 16 + MAC_LENGTH
  const CHUNK_BYTES := 64 * 1024

  datatype Primitives = Primitives(
    encryptBlock: (Bytes, Bytes) -> Bytes,
    decryptBlock: (Bytes, Bytes) -> Bytes,
    hmac: (Bytes, Bytes) -> Bytes,
    sha256: Bytes -> Bytes)
  {
    ghost predicate Sound() {
      && (forall k: Bytes, b: Bytes :: |b| == BLOCK ==> |decryptBlock(k, b)| == BLOCK)
      && (forall k: Bytes, b: Bytes :: |b| == BLOCK ==> |encryptBlock(k, b)| == BLOCK)
      && (forall k: Bytes, b: Bytes :: |b| == BLOCK ==> decryptBlock(k, encryptBlock(k, b)) == b)
      && (forall k: Bytes, m: Bytes :: |hmac(k, m)| == MAC_LENGTH)
      && (forall m: Bytes :: |sha256(m)| == MAC_LENGTH)
    }
  }

  datatype Face = Face(
    aesKey: Bytes,
    macKey: Bytes,
    digest: Option<Bytes>,
    plaintextHash: Option<Bytes>,
    plaintextSize: nat)

  // ---------------------------------------------------------------- chaining

  function Xor(a: Bytes, b: Bytes): (r: Bytes)
    requires |a| == |b|
    ensures |r| == |a|
  {
    seq(|a|, i requires 0 <= i < |a| => a[i] ^ b[i])
  }

  lemma XorCancels(a: Bytes, b: Bytes)
    requires |a| == |b|
    ensures Xor(Xor(a, b), b) == a
  {
    forall i | 0 <= i < |a|
      ensures Xor(Xor(a, b), b)[i] == a[i]
    {
      assert (a[i] ^ b[i]) ^ b[i] == a[i];
    }
  }

  /** Cipher block chaining, section 6.2 of NIST SP 800-38A; `prev` is the IV or
      the ciphertext block before `ct`. */
  function CbcDecrypt(p: Primitives, key: Bytes, prev: Bytes, ct: Bytes): (r: Bytes)
    requires |prev| == BLOCK && forall k: Bytes, b: Bytes :: |b| == BLOCK ==> |p.decryptBlock(k, b)| == BLOCK
    ensures |r| == |ct| - |ct| % BLOCK
    decreases |ct|
  {
    if |ct| < BLOCK then []
    else Xor(p.decryptBlock(key, ct[..BLOCK]), prev) + CbcDecrypt(p, key, ct[..BLOCK], ct[BLOCK..])
  }

  function CbcEncrypt(p: Primitives, key: Bytes, prev: Bytes, pt: Bytes): (r: Bytes)
    requires |prev| == BLOCK && forall k: Bytes, b: Bytes :: |b| == BLOCK ==> |p.encryptBlock(k, b)| == BLOCK
    ensures |r| == |pt| - |pt| % BLOCK
    decreases |pt|
  {
    if |pt| < BLOCK then []
    else
      var c := p.encryptBlock(key, Xor(pt[..BLOCK], prev));
      c + CbcEncrypt(p, key, c, pt[BLOCK..])
  }

  lemma {:induction false} CbcRoundTrip(p: Primitives, key: Bytes, prev: Bytes, pt: Bytes)
    requires p.Sound() && |prev| == BLOCK && |pt| % BLOCK == 0
    ensures CbcDecrypt(p, key, prev, CbcEncrypt(p, key, prev, pt)) == pt
    decreases |pt|
  {
    if |pt| >= BLOCK {
      var x := Xor(pt[..BLOCK], prev);
      var c := p.encryptBlock(key, x);
      var rest := CbcEncrypt(p, key, c, pt[BLOCK..]);
      SplitFirst(c, rest);
      assert c[..BLOCK] == c && c[BLOCK..] + rest == rest;
      assert p.decryptBlock(key, c) == x;
      XorCancels(pt[..BLOCK], prev);
      CbcRoundTrip(p, key, c, pt[BLOCK..]);
      assert pt == pt[..BLOCK] + pt[BLOCK..];
    }
  }

  /** The chaining value after the whole blocks `ct` have gone through the cipher. */
  function ChainAfter(prev: Bytes, ct: Bytes): (r: Bytes)
    requires |prev| == BLOCK
    ensures |r| == BLOCK
  {
    if |ct| < BLOCK then prev else ct[|ct| - BLOCK..]
  }

  lemma ChainAfterTail(prev: Bytes, a: Bytes)
    requires |prev| == BLOCK && (|a| == BLOCK || |a| >= 2 * BLOCK)
    ensures ChainAfter(a[..BLOCK], a[BLOCK..]) == ChainAfter(prev, a)
  {
    if |a| == BLOCK {
      assert a[..BLOCK] == a;
    } else {
      assert a[BLOCK..][|a| - 2 * BLOCK..] == a[|a| - BLOCK..];
    }
  }

  lemma SplitFirst(a: Bytes, b: Bytes)
    requires |a| >= BLOCK
    ensures (a + b)[..BLOCK] == a[..BLOCK] && (a + b)[BLOCK..] == a[BLOCK..] + b
  {
  }

  /** Decryption of a concatenation, cut at a block boundary. */
  lemma {:induction false} CbcDecryptConcat(p: Primitives, key: Bytes, prev: Bytes, a: Bytes, b: Bytes)
    requires p.Sound() && |prev| == BLOCK && |a| % BLOCK == 0
    ensures CbcDecrypt(p, key, prev, a + b)
         == CbcDecrypt(p, key, prev, a) + CbcDecrypt(p, key, ChainAfter(prev, a), b)
    decreases |a|
  {
    if |a| == 0 {
      assert a + b == b;
    } else {
      hide ChainAfter, Xor;
      SplitFirst(a, b);
      ChainAfterTail(prev, a);
      CbcDecryptConcat(p, key, a[..BLOCK], a[BLOCK..], b);
    }
  }

  // ----------------------------------------------------------------- padding

  function PadByte(n: nat): (b: bv8)
    requires 1 <= n <= BLOCK
    ensures b as int == n
  {
    match n
    case 1 => 1 case 2 => 2 case 3 => 3 case 4 => 4
    case 5 => 5 case 6 => 6 case 7 => 7 case 8 => 8
    case 9 => 9 case 10 => 10 case 11 => 11 case 12 => 12
    case 13 => 13 case 14 => 14 case 15 => 15 case _ => 16
  }

  /** The padding of section 6.3 of RFC 5652 for sixteen-byte blocks. */
  function Pad(pt: Bytes): (r: Bytes)
    ensures |r| == (1 + |pt| / BLOCK) * BLOCK
  {
    var n := BLOCK - |pt| % BLOCK;
    pt + seq(n, _ => PadByte(n))
  }

  /** The last `n` bytes all have the value `n`. */
  predicate ProperPadding(b: Bytes, n: nat)
  {
    1 <= n <= BLOCK && n <= |b| && forall i | |b| - n <= i < |b| :: b[i] as int == n
  }

  function LastByte(b: Bytes): (n: nat)
    requires b != []
  {
    b[|b| - 1] as int
  }

  function Unpad(b: Bytes): (r: Option<Bytes>)
  {
    if b != [] && ProperPadding(b, LastByte(b)) then Some(b[..|b| - LastByte(b)]) else None
  }

  lemma PadThenUnpad(m: Bytes)
    ensures Unpad(Pad(m)) == Some(m)
  {
    hide PadByte;
    var n := BLOCK - |m| % BLOCK;
    var b := Pad(m);
    assert forall i | |m| <= i < |b| :: b[i] == PadByte(n);
    assert b[..|b| - n] == m;
  }

  lemma SameByte(x: bv8, y: bv8)
    requires x as int == y as int
    ensures x == y
  {
    assert (x as int) as bv8 == x && (y as int) as bv8 == y;
  }

  lemma UnpadThenPad(b: Bytes)
    requires |b| % BLOCK == 0 && Unpad(b).Some?
    ensures b == Pad(Unpad(b).value)
  {
    hide PadByte;
    var k := LastByte(b);
    var m := b[..|b| - k];
    assert BLOCK - |m| % BLOCK == k;
    forall i | |b| - k <= i < |b| ensures b[i] == PadByte(k) {
      SameByte(b[i], PadByte(k));
    }
    assert b[|b| - k..] == seq(k, _ => PadByte(k));
    assert b == m + b[|b| - k..];
  }

  /** Unpadding succeeds exactly on padded messages and gives back the message. */
  lemma UnpadInvertsPad(b: Bytes, m: Bytes)
    requires |b| % BLOCK == 0
    ensures Unpad(b) == Some(m) <==> b == Pad(m)
  {
    hide Pad, Unpad;
    PadThenUnpad(m);
    if Unpad(b).Some? {
      UnpadThenPad(b);
    }
  }

  // ----------------------------------------------------------------- sealing

  ghost predicate IsPowerOfTwo(n: nat)
  {
    n == 1 || (n > 1 && n % 2 == 0 && IsPowerOfTwo(n / 2))
  }

  function DoubleUntil(power: nat, n: nat): (r: nat)
    requires power > 0
    ensures r >= n && r >= power
    ensures r == power || r / 2 < n
    decreases n - power
  {
    if power >= n then power else DoubleUntil(2 * power, n)
  }

  lemma {:induction false} DoubleUntilPower(power: nat, n: nat)
    requires IsPowerOfTwo(power)
    ensures IsPowerOfTwo(DoubleUntil(power, n))
    decreases n - power
  {
    if power < n {
      DoubleUntilPower(2 * power, n);
    }
  }

  /** The least power of two that is at least `n`. */
  function NextPowerOfTwo(n: nat): (r: nat)
    ensures n <= r && IsPowerOfTwo(r) && (r == 1 || r / 2 < n)
  {
    DoubleUntilPower(1, n);
    DoubleUntil(1, n)
  }

  function BodyMaxBytes(plaintextSize: nat): (r: nat)
  {
    IV_LENGTH + (1 + NextPowerOfTwo(plaintextSize) / BLOCK) * BLOCK + MAC_LENGTH
  }

  /** What the sender puts on the wire: log padding with zeros, block padding,
      chaining under `iv`, the IV in front and the MAC of all that behind. */
  function Seal(p: Primitives, aesKey: Bytes, macKey: Bytes, iv: Bytes, plaintext: Bytes): (r: Bytes)
    requires |iv| == IV_LENGTH && forall k: Bytes, b: Bytes :: |b| == BLOCK ==> |p.encryptBlock(k, b)| == BLOCK
  {
    var logPadded := plaintext + seq(NextPowerOfTwo(|plaintext|) - |plaintext|, _ => 0 as bv8);
    var front := iv + CbcEncrypt(p, aesKey, iv, Pad(logPadded));
    front + p.hmac(macKey, front)
  }

  // ------------------------------------------------------ one-shot reference

  function Take(n: nat, b: Bytes): Bytes
  {
    if n < |b| then b[..n] else b
  }

  /** A ciphertext region read in one go: decrypt every block, check the padding,
      keep the first `plaintextSize` bytes, compare their hash. */
  function OpenRegion(p: Primitives, face: Face, iv: Bytes, region: Bytes): (r: Result<Bytes>)
    requires p.Sound() && |iv| == IV_LENGTH
    ensures r.Ok? ==> |r.value| == face.plaintextSize
  {
    if |region| == 0 || |region| % BLOCK != 0 then Err(BadPadding)
    else match Unpad(CbcDecrypt(p, face.aesKey, iv, region)) {
      case None => Err(BadPadding)
      case Some(message) =>
        if |message| < face.plaintextSize then Err(PlaintextTooShort(face.plaintextSize))
        else if face.plaintextHash.Some? && p.sha256(Take(face.plaintextSize, message)) != face.plaintextHash.value
        then Err(PlaintextHashMismatch)
        else Ok(Take(face.plaintextSize, message))
    }
  }

  /** A whole body on disk: too short or misaligned bodies are padding errors. */
  function OpenBody(p: Primitives, face: Face, body: Bytes): (r: Result<Bytes>)
    requires p.Sound()
  {
    if |body| < MIN_BODY_BYTES || (|body| - IV_LENGTH - MAC_LENGTH) % BLOCK != 0 then Err(BadPadding)
    else OpenRegion(p, face, body[..IV_LENGTH], body[IV_LENGTH..|body| - MAC_LENGTH])
  }

  /** The verdict that a complete received body deserves, gate by gate. */
  function Verdict(p: Primitives, face: Face, body: Bytes): (r: Result<Bytes>)
    requires p.Sound()
  {
    var max := BodyMaxBytes(face.plaintextSize);
    if |body| > max then Err(BodyTooLarge(max))
    else if |body| < MIN_BODY_BYTES then Err(BadMac)
    else if p.hmac(face.macKey, body[..|body| - MAC_LENGTH]) != body[|body| - MAC_LENGTH..] then Err(BadMac)
    else if face.digest.Some? && p.sha256(body) != face.digest.value then Err(DigestMismatch)
    else OpenBody(p, face, body)
  }

  // --------------------------------------------------------------- theorems

  /** A sealed body is exactly as long as the cap that the receiver derives from
      the declared size. */
  lemma SealedLength(p: Primitives, aesKey: Bytes, macKey: Bytes, iv: Bytes, plaintext: Bytes)
    requires p.Sound() && |iv| == IV_LENGTH
    ensures |Seal(p, aesKey, macKey, iv, plaintext)| == BodyMaxBytes(|plaintext|)
  {
    var logPadded := plaintext + seq(NextPowerOfTwo(|plaintext|) - |plaintext|, _ => 0 as bv8);
    assert |Pad(logPadded)| % BLOCK == 0;
  }

  /** Sealing is inverted by the receiver's gates, for every plaintext, key and IV. */
  lemma SealThenOpen(p: Primitives, face: Face, iv: Bytes, plaintext: Bytes)
    requires p.Sound() && |iv| == IV_LENGTH
    requires face.plaintextSize == |plaintext|
    requires face.digest.Some? ==> face.digest.value == p.sha256(Seal(p, face.aesKey, face.macKey, iv, plaintext))
    requires face.plaintextHash.Some? ==> face.plaintextHash.value == p.sha256(plaintext)
    ensures Verdict(p, face, Seal(p, face.aesKey, face.macKey, iv, plaintext)) == Ok(plaintext)
  {
    hide CbcDecrypt, CbcEncrypt, Unpad, BodyMaxBytes, NextPowerOfTwo;
    var logPadded := plaintext + seq(NextPowerOfTwo(|plaintext|) - |plaintext|, _ => 0 as bv8);
    var padded := Pad(logPadded);
    var ct := CbcEncrypt(p, face.aesKey, iv, padded);
    var front := iv + ct;
    var body := Seal(p, face.aesKey, face.macKey, iv, plaintext);
    SealedLength(p, face.aesKey, face.macKey, iv, plaintext);
    assert body[..|body| - MAC_LENGTH] == front;
    assert body[|body| - MAC_LENGTH..] == p.hmac(face.macKey, front);
    assert body[..IV_LENGTH] == iv;
    assert body[IV_LENGTH..|body| - MAC_LENGTH] == ct;
    CbcRoundTrip(p, face.aesKey, iv, padded);
    UnpadInvertsPad(padded, logPadded);
    assert Take(|plaintext|, logPadded) == plaintext;
  }

  /** Nothing unauthenticated comes out: an accepted body carries its own MAC, the
      declared digest and hash, and a plaintext of exactly the declared size. */
  lemma AcceptedBodyIsAuthentic(p: Primitives, face: Face, body: Bytes)
    requires p.Sound() && Verdict(p, face, body).Ok?
    ensures MIN_BODY_BYTES <= |body| <= BodyMaxBytes(face.plaintextSize)
    ensures p.hmac(face.macKey, body[..|body| - MAC_LENGTH]) == body[|body| - MAC_LENGTH..]
    ensures face.digest.Some? ==> p.sha256(body) == face.digest.value
    ensures |Verdict(p, face, body).value| == face.plaintextSize
    ensures face.plaintextHash.Some? ==> p.sha256(Verdict(p, face, body).value) == face.plaintextHash.value
    ensures exists tail :: CbcDecrypt(p, face.aesKey, body[..IV_LENGTH], body[IV_LENGTH..|body| - MAC_LENGTH])
                        == Pad(Verdict(p, face, body).value + tail)
  {
    var plain := CbcDecrypt(p, face.aesKey, body[..IV_LENGTH], body[IV_LENGTH..|body| - MAC_LENGTH]);
    var message := Unpad(plain).value;
    UnpadInvertsPad(plain, message);
    assert message == Verdict(p, face, body).value + message[face.plaintextSize..];
  }

  // ------------------------------------------------- what each answer means

  ghost predicate CarriesItsMac(p: Primitives, face: Face, body: Bytes)
    requires |body| >= MAC_LENGTH
  {
    p.hmac(face.macKey, body[..|body| - MAC_LENGTH]) == body[|body| - MAC_LENGTH..]
  }

  /** Within the size limits, behind its own MAC, with the expected digest. */
  ghost predicate Authentic(p: Primitives, face: Face, body: Bytes)
  {
    && MIN_BODY_BYTES <= |body| <= BodyMaxBytes(face.plaintextSize)
    && CarriesItsMac(p, face, body)
    && (face.digest.Some? ==> p.sha256(body) == face.digest.value)
  }

  /** The part between IV and MAC is whole blocks and decrypts to `message`, padded. */
  ghost predicate Carries(p: Primitives, face: Face, body: Bytes, message: Bytes)
    requires p.Sound()
  {
    && |body| >= MIN_BODY_BYTES && (|body| - IV_LENGTH - MAC_LENGTH) % BLOCK == 0
    && CbcDecrypt(p, face.aesKey, body[..IV_LENGTH], body[IV_LENGTH..|body| - MAC_LENGTH]) == Pad(message)
  }

  ghost predicate HashAgrees(p: Primitives, face: Face, plaintext: Bytes)
  {
    face.plaintextHash.Some? ==> p.sha256(plaintext) == face.plaintextHash.value
  }

  /** `plaintext` has the declared size and hash and leads the message, whatever follows it. */
  ghost predicate Delivers(p: Primitives, face: Face, body: Bytes, plaintext: Bytes)
    requires p.Sound()
  {
    && |plaintext| == face.plaintextSize && HashAgrees(p, face, plaintext)
    && exists tail :: Carries(p, face, body, plaintext + tail)
  }

  lemma OneMessage(p: Primitives, face: Face, body: Bytes, m: Bytes)
    requires p.Sound() && |body| >= MIN_BODY_BYTES && (|body| - IV_LENGTH - MAC_LENGTH) % BLOCK == 0
    ensures Carries(p, face, body, m)
      <==> Unpad(CbcDecrypt(p, face.aesKey, body[..IV_LENGTH], body[IV_LENGTH..|body| - MAC_LENGTH])) == Some(m)
  {
    hide CbcDecrypt, Pad, Unpad;
    UnpadInvertsPad(CbcDecrypt(p, face.aesKey, body[..IV_LENGTH], body[IV_LENGTH..|body| - MAC_LENGTH]), m);
  }

  /** The reading of an authentic body: which plaintext, and which failure otherwise. */
  lemma OpenBodyIsExact(p: Primitives, face: Face, body: Bytes)
    requires p.Sound() && |body| >= MIN_BODY_BYTES
    ensures forall plaintext :: OpenBody(p, face, body) == Ok(plaintext) <==> Delivers(p, face, body, plaintext)
    ensures OpenBody(p, face, body) == Err(BadPadding) <==> forall m :: !Carries(p, face, body, m)
    ensures OpenBody(p, face, body) == Err(PlaintextTooShort(face.plaintextSize))
      <==> exists m :: Carries(p, face, body, m) && |m| < face.plaintextSize
    ensures OpenBody(p, face, body) == Err(PlaintextHashMismatch)
      <==> exists m :: Carries(p, face, body, m) && |m| >= face.plaintextSize
                       && !HashAgrees(p, face, m[..face.plaintextSize])
  {
    hide CbcDecrypt, Pad, Unpad, Carries;
    if (|body| - IV_LENGTH - MAC_LENGTH) % BLOCK != 0 {
      forall m ensures !Carries(p, face, body, m) {
        Misaligned(p, face, body, m);
      }
    } else {
      var got := Unpad(CbcDecrypt(p, face.aesKey, body[..IV_LENGTH], body[IV_LENGTH..|body| - MAC_LENGTH]));
      forall m ensures Carries(p, face, body, m) <==> got == Some(m) {
        OneMessage(p, face, body, m);
      }
      if got.Some? && |got.value| >= face.plaintextSize {
        var kept := Take(face.plaintextSize, got.value);
        assert got.value == kept + got.value[face.plaintextSize..];
        assert kept == got.value[..face.plaintextSize];
        forall plaintext
          ensures (exists tail :: Carries(p, face, body, plaintext + tail)) && |plaintext| == face.plaintextSize
            <==> plaintext == kept
        {
          OneBeginning(p, face, body, got.value, plaintext);
        }
      }
    }
  }

  lemma Misaligned(p: Primitives, face: Face, body: Bytes, m: Bytes)
    requires p.Sound() && |body| >= MIN_BODY_BYTES && (|body| - IV_LENGTH - MAC_LENGTH) % BLOCK != 0
    ensures !Carries(p, face, body, m)
  {
  }

  lemma OneBeginning(p: Primitives, face: Face, body: Bytes, message: Bytes, plaintext: Bytes)
    requires p.Sound() && |message| >= face.plaintextSize
    requires forall m :: Carries(p, face, body, m) <==> m == message
    ensures ((exists tail :: Carries(p, face, body, plaintext + tail)) && |plaintext| == face.plaintextSize)
      <==> plaintext == message[..face.plaintextSize]
  {
    hide Carries;
    if plaintext == message[..face.plaintextSize] {
      assert message == plaintext + message[face.plaintextSize..];
    }
  }

  /** Every answer has its exact condition on the body alone. */
  lemma VerdictIsExact(p: Primitives, face: Face, body: Bytes)
    requires p.Sound()
    ensures Verdict(p, face, body) == Err(BodyTooLarge(BodyMaxBytes(face.plaintextSize)))
      <==> |body| > BodyMaxBytes(face.plaintextSize)
    ensures Verdict(p, face, body) == Err(BadMac)
      <==> |body| <= BodyMaxBytes(face.plaintextSize)
           && (|body| < MIN_BODY_BYTES || !CarriesItsMac(p, face, body))
    ensures Verdict(p, face, body) == Err(DigestMismatch)
      <==> face.digest.Some? && p.sha256(body) != face.digest.value && Authentic(p, face.(digest := None), body)
    ensures Verdict(p, face, body) == Err(BadPadding)
      <==> Authentic(p, face, body) && forall m :: !Carries(p, face, body, m)
    ensures Verdict(p, face, body) == Err(PlaintextTooShort(face.plaintextSize))
      <==> Authentic(p, face, body) && exists m :: Carries(p, face, body, m) && |m| < face.plaintextSize
    ensures Verdict(p, face, body) == Err(PlaintextHashMismatch)
      <==> Authentic(p, face, body) && exists m :: Carries(p, face, body, m) && |m| >= face.plaintextSize
                                                   && !HashAgrees(p, face, m[..face.plaintextSize])
    ensures forall plaintext ::
      Verdict(p, face, body) == Ok(plaintext) <==> Authentic(p, face, body) && Delivers(p, face, body, plaintext)
  {
    hide CbcDecrypt, Unpad, Carries, Delivers, HashAgrees;
    if Authentic(p, face, body) {
      OpenBodyIsExact(p, face, body);
    }
  }
}
