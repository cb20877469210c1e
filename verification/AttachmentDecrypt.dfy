/** The decrypt pass and the download chain around it
    (src/history_attachment.rs, src/supervisor.rs): the temporary file is read
    back in pieces of whatever size the reads return, decrypted block by block
    behind a one-block carry, trimmed to the declared size and hashed.

    A read schedule says how many bytes each read returns at most; an answer of
    zero is end of file.  Everything is proved for every schedule. */
module AttachmentDecrypt {
  import opened Basics
  import opened AttachmentCrypto
  import opened AttachmentSink

  type Schedule = nat -> nat

  /** The plaintext side: written bytes, hashed bytes and their count. */
  class PlainWriter {
    var written: Bytes
    var hashed: Bytes
    var kept: nat
    const size: nat

    ghost predicate Valid()
      reads this
    {
      written == hashed && kept == |written| <= size
    }

    constructor (size: nat)
      ensures Valid() && written == [] && this.size == size
    {
      written, hashed, kept := [], [], 0;
      this.size := size;
    }

    method Emit(bytes: Bytes)
      requires Valid()
      modifies this
      ensures Valid()
      ensures written == Take(size, old(written) + bytes)
    {
      if kept >= size {
        return;
      }
      var within := Min(size - kept, |bytes|);
      written := written + bytes[..within];
      hashed := hashed + bytes[..within];
      kept := kept + within;
    }
  }

  lemma TakeAgain(n: nat, a: Bytes, b: Bytes)
    ensures Take(n, Take(n, a) + b) == Take(n, a + b)
  {
  }

  lemma CbcOneBlock(p: Primitives, key: Bytes, prev: Bytes, block: Bytes)
    requires p.Sound() && |prev| == BLOCK && |block| == BLOCK
    ensures CbcDecrypt(p, key, prev, block) == Xor(p.decryptBlock(key, block), prev)
    ensures ChainAfter(prev, block) == block
  {
    assert block[..BLOCK] == block && block[BLOCK..] == [];
  }

  lemma LastBlock(a: Bytes, b: Bytes)
    requires |b| >= BLOCK
    ensures (a + b)[|a + b| - BLOCK..] == b[|b| - BLOCK..]
  {
  }

  lemma ChainAfterConcat(prev: Bytes, a: Bytes, b: Bytes)
    requires |prev| == BLOCK && |a| % BLOCK == 0 && |b| % BLOCK == 0
    ensures ChainAfter(ChainAfter(prev, a), b) == ChainAfter(prev, a + b)
  {
    if |b| == 0 {
      assert a + b == a;
    } else {
      LastBlock(a, b);
    }
  }

  lemma CbcStep(p: Primitives, key: Bytes, prev: Bytes, a: Bytes, block: Bytes)
    requires p.Sound() && |prev| == BLOCK && |a| % BLOCK == 0 && |block| == BLOCK
    ensures CbcDecrypt(p, key, prev, a + block)
         == CbcDecrypt(p, key, prev, a) + Xor(p.decryptBlock(key, block), ChainAfter(prev, a))
    ensures ChainAfter(prev, a + block) == block
  {
    CbcDecryptConcat(p, key, prev, a, block);
    CbcOneBlock(p, key, ChainAfter(prev, a), block);
    ChainAfterConcat(prev, a, block);
  }

  /** Block after block through the cipher, carrying the chaining value. */
  method DecryptBlocks(p: Primitives, key: Bytes, prev: Bytes, blocks: Bytes)
    returns (plain: Bytes, chain: Bytes)
    requires p.Sound() && |prev| == BLOCK && |blocks| % BLOCK == 0
    ensures plain == CbcDecrypt(p, key, prev, blocks)
    ensures chain == ChainAfter(prev, blocks)
  {
    plain, chain := [], prev;
    var at := 0;
    while at < |blocks|
      invariant 0 <= at <= |blocks| && at % BLOCK == 0
      invariant plain == CbcDecrypt(p, key, prev, blocks[..at])
      invariant chain == ChainAfter(prev, blocks[..at])
    {
      var block := blocks[at..at + BLOCK];
      CbcStep(p, key, prev, blocks[..at], block);
      assert blocks[..at + BLOCK] == blocks[..at] + block;
      plain := plain + Xor(p.decryptBlock(key, block), chain);
      chain := block;
      at := at + BLOCK;
    }
    assert blocks[..at] == blocks;
  }

  lemma TakeConcat(a: Bytes, b: Bytes, n: nat)
    requires n <= |b|
    ensures (a + b)[..|a| + n] == a + b[..n]
  {
  }

  /** The padding of a message lies in its last block. */
  lemma UnpadLastBlock(front: Bytes, last: Bytes)
    requires |last| == BLOCK
    ensures Unpad(last).None? ==> Unpad(front + last).None?
    ensures Unpad(last).Some? ==> Unpad(front + last) == Some(front + Unpad(last).value)
  {
    var b := front + last;
    assert LastByte(b) == LastByte(last);
    var n := LastByte(last);
    hide LastByte;
    if 1 <= n <= BLOCK {
      PaddingMoves(front, last, n);
      TakeConcat(front, last, BLOCK - n);
    }
  }

  lemma PaddingMoves(front: Bytes, last: Bytes, n: nat)
    requires |last| == BLOCK
    ensures ProperPadding(front + last, n) <==> ProperPadding(last, n)
  {
    var b := front + last;
    assert forall i | 0 <= i < BLOCK :: last[i] == b[|front| + i];
    assert forall i | |front| <= i < |b| :: b[i] == last[i - |front|];
  }

  method StripPadding(last: Bytes) returns (tail: Option<Bytes>)
    requires |last| == BLOCK
    ensures tail == Unpad(last)
  {
    var pad := last[BLOCK - 1] as int;
    if pad == 0 || pad > BLOCK || exists i | BLOCK - pad <= i < BLOCK :: last[i] as int != pad {
      return None;
    }
    tail := Some(last[..BLOCK - pad]);
  }

  /** Where the pass stands after `seen`: all of it but the carry is decrypted, and
      the carry is one whole block and a fragment unless less than that was seen. */
  ghost predicate Underway(p: Primitives, face: Face, iv: Bytes, seen: Bytes,
                           carry: Bytes, chain: Bytes, written: Bytes)
    requires p.Sound() && |iv| == BLOCK
  {
    && |carry| <= |seen|
    && |carry| < 2 * BLOCK && (|carry| < BLOCK ==> |carry| == |seen|)
    && var done := |seen| - |carry|;
    && done % BLOCK == 0
    && carry == seen[done..]
    && chain == ChainAfter(iv, seen[..done])
    && written == Take(face.plaintextSize, CbcDecrypt(p, face.aesKey, iv, seen[..done]))
  }

  lemma UnderwayStart(p: Primitives, face: Face, iv: Bytes)
    requires p.Sound() && |iv| == BLOCK
    ensures Underway(p, face, iv, [], [], iv, [])
  {
  }

  /** Decrypting the first `byteCount` bytes of the extended carry keeps the books. */
  lemma UnderwayStep(p: Primitives, face: Face, iv: Bytes, seen: Bytes, carry: Bytes, chain: Bytes,
                     written: Bytes, piece: Bytes, byteCount: nat)
    requires p.Sound() && |iv| == BLOCK
    requires Underway(p, face, iv, seen, carry, chain, written)
    requires byteCount % BLOCK == 0 && byteCount + BLOCK <= |carry + piece| < byteCount + 2 * BLOCK
    ensures var blocks := (carry + piece)[..byteCount];
      Underway(p, face, iv, seen + piece, (carry + piece)[byteCount..], ChainAfter(chain, blocks),
               Take(face.plaintextSize, written + CbcDecrypt(p, face.aesKey, chain, blocks)))
  {
    var all, done := seen + piece, |seen| - |carry|;
    var blocks := (carry + piece)[..byteCount];
    assert all[..done] == seen[..done];
    assert all[..done + byteCount] == all[..done] + blocks;
    assert all[done + byteCount..] == (carry + piece)[byteCount..];
    CbcDecryptConcat(p, face.aesKey, iv, all[..done], blocks);
    ChainAfterConcat(iv, all[..done], blocks);
    TakeAgain(face.plaintextSize, CbcDecrypt(p, face.aesKey, iv, all[..done]),
              CbcDecrypt(p, face.aesKey, chain, blocks));
  }

  lemma UnderwayWait(p: Primitives, face: Face, iv: Bytes, seen: Bytes, carry: Bytes, chain: Bytes,
                     written: Bytes, piece: Bytes)
    requires p.Sound() && |iv| == BLOCK
    requires Underway(p, face, iv, seen, carry, chain, written) && |carry + piece| < 2 * BLOCK
    ensures Underway(p, face, iv, seen + piece, carry + piece, chain, written)
  {
    assert (seen + piece)[..|seen| - |carry|] == seen[..|seen| - |carry|];
    assert (seen + piece)[|seen| - |carry|..] == carry + piece;
  }

  /** Another piece: decrypt every complete block of the carry but the last one. */
  method Absorb(p: Primitives, face: Face, iv: Bytes, ghost seen: Bytes,
                carry0: Bytes, chain0: Bytes, piece: Bytes, writer: PlainWriter)
    returns (carry: Bytes, chain: Bytes)
    requires p.Sound() && |iv| == BLOCK && writer.Valid() && writer.size == face.plaintextSize
    requires Underway(p, face, iv, seen, carry0, chain0, writer.written)
    modifies writer
    ensures writer.Valid()
    ensures Underway(p, face, iv, seen + piece, carry, chain, writer.written)
  {
    carry, chain := carry0 + piece, chain0;
    var complete := |carry| / BLOCK;
    var decryptable := if complete == 0 then 0 else complete - 1;
    if decryptable > 0 {
      var byteCount := decryptable * BLOCK;
      UnderwayStep(p, face, iv, seen, carry0, chain0, writer.written, piece, byteCount);
      var plain;
      plain, chain := DecryptBlocks(p, face.aesKey, chain, carry[..byteCount]);
      writer.Emit(plain);
      carry := carry[byteCount..];
    } else {
      UnderwayWait(p, face, iv, seen, carry0, chain0, writer.written, piece);
    }
  }

  lemma UnpadAppendedBlock(p: Primitives, key: Bytes, iv: Bytes, a: Bytes, block: Bytes)
    requires p.Sound() && |iv| == BLOCK && |a| % BLOCK == 0 && |block| == BLOCK
    ensures var whole := Unpad(CbcDecrypt(p, key, iv, a + block));
      var tail := Unpad(Xor(p.decryptBlock(key, block), ChainAfter(iv, a)));
      if tail.None? then whole.None? else whole == Some(CbcDecrypt(p, key, iv, a) + tail.value)
  {
    CbcStep(p, key, iv, a, block);
    UnpadLastBlock(CbcDecrypt(p, key, iv, a), Xor(p.decryptBlock(key, block), ChainAfter(iv, a)));
  }

  /** The one-shot reading of a region whose last block is the carry. */
  lemma OpenLastBlock(p: Primitives, face: Face, iv: Bytes, seen: Bytes, carry: Bytes, chain: Bytes,
                      written: Bytes)
    requires p.Sound() && |iv| == BLOCK && |carry| == BLOCK
    requires Underway(p, face, iv, seen, carry, chain, written)
    ensures var whole := Unpad(CbcDecrypt(p, face.aesKey, iv, seen));
      var tail := Unpad(Xor(p.decryptBlock(face.aesKey, carry), chain));
      if tail.None? then whole.None?
      else whole.Some? && Take(face.plaintextSize, whole.value) == Take(face.plaintextSize, written + tail.value)
  {
    var done := |seen| - BLOCK;
    assert seen == seen[..done] + carry;
    UnpadAppendedBlock(p, face.aesKey, iv, seen[..done], carry);
    var tail := Unpad(Xor(p.decryptBlock(face.aesKey, carry), chain));
    if tail.Some? {
      TakeAgain(face.plaintextSize, CbcDecrypt(p, face.aesKey, iv, seen[..done]), tail.value);
    }
  }

  lemma CarryLength(p: Primitives, face: Face, iv: Bytes, seen: Bytes, carry: Bytes, chain: Bytes,
                    written: Bytes)
    requires p.Sound() && |iv| == BLOCK
    requires Underway(p, face, iv, seen, carry, chain, written)
    ensures |carry| < 2 * BLOCK
    ensures |carry| == BLOCK <==> |seen| != 0 && |seen| % BLOCK == 0
  {
    AlignedLength(|seen|, |carry|);
  }

  lemma AlignedLength(total: nat, tail: nat)
    requires tail <= total && (total - tail) % BLOCK == 0
    requires tail < 2 * BLOCK && (tail < BLOCK ==> tail == total)
    ensures tail == BLOCK <==> total != 0 && total % BLOCK == 0
  {
  }

  /** What a pass must leave behind, given the one-shot reading. */
  ghost predicate Answers(r: Result<nat>, out: Bytes, reference: Result<Bytes>)
  {
    match reference
    case Ok(plaintext) => r == Ok(|plaintext|) && out == plaintext
    case Err(e) => r == Err(e)
  }

  /** The final block of the pass: padding, trim, length and hash, in that order. */
  method CloseRegion(p: Primitives, face: Face, iv: Bytes, ghost seen: Bytes,
                     carry: Bytes, chain: Bytes, writer: PlainWriter)
    returns (r: Result<nat>)
    requires p.Sound() && |iv| == BLOCK && writer.Valid() && writer.size == face.plaintextSize
    requires Underway(p, face, iv, seen, carry, chain, writer.written)
    modifies writer
    ensures Answers(r, writer.written, OpenRegion(p, face, iv, seen))
  {
    CarryLength(p, face, iv, seen, carry, chain, writer.written);
    if |carry| != BLOCK {
      return Err(BadPadding);
    }
    OpenLastBlock(p, face, iv, seen, carry, chain, writer.written);
    var tail := StripPadding(Xor(p.decryptBlock(face.aesKey, carry), chain));
    if tail.None? {
      return Err(BadPadding);
    }
    writer.Emit(tail.value);
    if writer.kept < face.plaintextSize {
      return Err(PlaintextTooShort(face.plaintextSize));
    }
    if face.plaintextHash.Some? {
      var same := ConstantTimeEq(p.sha256(writer.hashed), face.plaintextHash.value);
      if !same {
        return Err(PlaintextHashMismatch);
      }
    }
    r := Ok(writer.kept);
  }

  /** The loop: whatever sizes the reads return, the answer is the one-shot reading of
      the `got` bytes they delivered, which is everything unless some read came back
      empty.  `peak` is the largest the carry ever was. */
  method DecryptRegion(p: Primitives, face: Face, iv: Bytes, region: Bytes, schedule: Schedule)
    returns (r: Result<nat>, out: Bytes, got: nat, ghost peak: nat)
    requires p.Sound() && |iv| == BLOCK
    ensures got <= |region| && Answers(r, out, OpenRegion(p, face, iv, region[..got]))
    ensures got == |region| || exists i: nat :: schedule(i) == 0
    ensures peak <= CHUNK_BYTES + 31
  {
    hide Underway, Answers, OpenRegion;
    var left := |region|;
    var writer := new PlainWriter(face.plaintextSize);
    var carry, chain: Bytes := [], iv;
    var call := 0;
    ghost var seen: Bytes := [];
    peak := 0;
    UnderwayStart(p, face, iv);
    while true
      invariant fresh(writer) && writer.Valid() && writer.size == face.plaintextSize
      invariant 0 <= left <= |region| && seen == region[..|region| - left]
      invariant Underway(p, face, iv, seen, carry, chain, writer.written)
      invariant peak <= CHUNK_BYTES + 31
      decreases left
    {
      var want := Min(left, CHUNK_BYTES);
      if want == 0 {
        break;
      }
      var read := Min(schedule(call), want);
      if read == 0 {
        break;
      }
      var at := |region| - left;
      var piece := region[at..at + read];
      assert region[..at + read] == seen + piece;
      CarryLength(p, face, iv, seen, carry, chain, writer.written);
      peak := if |carry| + |piece| > peak then |carry| + |piece| else peak;
      carry, chain := Absorb(p, face, iv, seen, carry, chain, piece, writer);
      seen := seen + piece;
      left, call := left - read, call + 1;
    }
    r := CloseRegion(p, face, iv, seen, carry, chain, writer);
    out, got := writer.written, |region| - left;
  }

  /** The decrypt pass.  For every body and every schedule it answers as the one-shot
      reading of the bytes it was given, and of the whole body when no read comes
      back empty. */
  method DecryptToFile(p: Primitives, face: Face, body: Bytes, schedule: Schedule)
    returns (r: Result<nat>, out: Bytes, got: nat, ghost peak: nat)
    requires p.Sound()
    ensures |body| < MIN_BODY_BYTES || (|body| - IV_LENGTH - MAC_LENGTH) % BLOCK != 0
      ==> r == Err(BadPadding)
    ensures |body| >= MIN_BODY_BYTES && (|body| - IV_LENGTH - MAC_LENGTH) % BLOCK == 0
      ==> got <= |body| - IV_LENGTH - MAC_LENGTH
          && Answers(r, out, OpenRegion(p, face, body[..IV_LENGTH], body[IV_LENGTH..IV_LENGTH + got]))
    ensures (forall i: nat :: schedule(i) > 0) ==> Answers(r, out, OpenBody(p, face, body))
    ensures r.Ok? ==> r.value == |out| == face.plaintextSize
    ensures peak <= CHUNK_BYTES + 31
  {
    if |body| < MIN_BODY_BYTES || (|body| - IV_LENGTH - MAC_LENGTH) % BLOCK != 0 {
      return Err(BadPadding), [], 0, 0;
    }
    var region := body[IV_LENGTH..|body| - MAC_LENGTH];
    r, out, got, peak := DecryptRegion(p, face, body[..IV_LENGTH], region, schedule);
    assert body[IV_LENGTH..IV_LENGTH + got] == region[..got];
    assert region[..|region|] == region;
  }

  /** The whole chain: receive, close, verify, decrypt.  Whatever the network did to
      the chunking and the file system to the reads, the answer is the verdict on
      the concatenated body, and each answer has its exact condition on that body. */
  method Download(p: Primitives, face: Face, chunks: seq<Bytes>, schedule: Schedule)
    returns (r: Result<nat>, out: Bytes)
    requires p.Sound() && forall i: nat :: schedule(i) > 0
    ensures Answers(r, out, Verdict(p, face, Concat(chunks)))
    ensures r == Err(BodyTooLarge(BodyMaxBytes(face.plaintextSize)))
      <==> |Concat(chunks)| > BodyMaxBytes(face.plaintextSize)
    ensures r == Err(BadMac)
      <==> |Concat(chunks)| <= BodyMaxBytes(face.plaintextSize)
           && (|Concat(chunks)| < MIN_BODY_BYTES || !CarriesItsMac(p, face, Concat(chunks)))
    ensures r == Err(DigestMismatch)
      <==> face.digest.Some? && p.sha256(Concat(chunks)) != face.digest.value
           && Authentic(p, face.(digest := None), Concat(chunks))
    ensures r == Err(BadPadding)
      <==> Authentic(p, face, Concat(chunks)) && forall m :: !Carries(p, face, Concat(chunks), m)
    ensures r == Err(PlaintextTooShort(face.plaintextSize))
      <==> Authentic(p, face, Concat(chunks))
           && exists m :: Carries(p, face, Concat(chunks), m) && |m| < face.plaintextSize
    ensures r == Err(PlaintextHashMismatch)
      <==> Authentic(p, face, Concat(chunks))
           && exists m :: Carries(p, face, Concat(chunks), m) && |m| >= face.plaintextSize
                          && !HashAgrees(p, face, m[..face.plaintextSize])
    ensures forall plaintext ::
      r == Ok(|plaintext|) && out == plaintext
      <==> Authentic(p, face, Concat(chunks)) && Delivers(p, face, Concat(chunks), plaintext)
  {
    hide CarriesItsMac, Authentic, Carries, Delivers, HashAgrees, OpenBody;
    VerdictIsExact(p, face, Concat(chunks));
    out := [];
    var sink := new BodySink(BodyMaxBytes(face.plaintextSize));
    sink.SetMacKey(face.macKey);
    var received := PushAll(sink, chunks);
    if received.Err? {
      return Err(received.error), out;
    }
    var finished := sink.Finish(p);
    if finished.Err? {
      return Err(finished.error), out;
    }
    var verified := VerifyCiphertext(finished.value, face);
    if verified.Err? {
      return Err(verified.error), out;
    }
    ghost var got, peak;
    r, out, got, peak := DecryptToFile(p, face, sink.file, schedule);
  }

  /** End to end: a sealed attachment comes out as it went in, for every plaintext,
      every chunking and every schedule of non-empty reads. */
  method DownloadSealed(p: Primitives, face: Face, iv: Bytes, plaintext: Bytes,
                        chunks: seq<Bytes>, schedule: Schedule)
    returns (r: Result<nat>, out: Bytes)
    requires p.Sound() && |iv| == IV_LENGTH && forall i: nat :: schedule(i) > 0
    requires Concat(chunks) == Seal(p, face.aesKey, face.macKey, iv, plaintext)
    requires face.plaintextSize == |plaintext|
    requires face.digest.Some? ==> face.digest.value == p.sha256(Concat(chunks))
    requires face.plaintextHash.Some? ==> face.plaintextHash.value == p.sha256(plaintext)
    ensures r == Ok(|plaintext|) && out == plaintext
  {
    SealThenOpen(p, face, iv, plaintext);
    r, out := Download(p, face, chunks, schedule);
  }
}
