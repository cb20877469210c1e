/** The streaming sink for one ciphertext body (src/history_attachment.rs):
    bytes go to a temporary file and to the body digest at once, and to the MAC
    only when thirty-two later bytes have been seen.

    A running hash is modelled by the bytes it has been fed; finalising it is the
    hash function of those bytes. */
module AttachmentSink {
  import opened Basics
  import opened AttachmentCrypto

  function Concat(chunks: seq<Bytes>): Bytes
  {
    if chunks == [] then [] else Concat(chunks[..|chunks| - 1]) + chunks[|chunks| - 1]
  }

  /** Accumulated length never shrinks when more chunks arrive. */
  lemma {:induction false} ConcatMonotone(chunks: seq<Bytes>, k: nat)
    requires k <= |chunks|
    ensures |Concat(chunks[..k])| <= |Concat(chunks)|
    decreases |chunks|
  {
    if k < |chunks| {
      assert chunks[..|chunks| - 1][..k] == chunks[..k];
      ConcatMonotone(chunks[..|chunks| - 1], k);
    } else {
      assert chunks[..k] == chunks;
    }
  }

  datatype FinishedBody = FinishedBody(digest: Bytes, mac: Bytes, macCheck: Bytes)

  class BodySink {
    var file: Bytes
    var digestInput: Bytes
    var macKey: Bytes
    var macInput: Bytes
    const holdback: array<bv8>
    var holdbackLen: nat
    var total: nat
    const max: nat

    /** What the file, the digest, the MAC and the holdback know of the stream. */
    ghost predicate Valid()
      reads this, holdback
    {
      && holdback.Length == MAC_LENGTH
      && total == |file| <= max
      && digestInput == file
      && holdbackLen == Min(MAC_LENGTH, total)
      && macInput + holdback[..holdbackLen] == file
    }

    constructor (max: nat)
      ensures Valid() && fresh(holdback)
      ensures file == [] && this.max == max
    {
      file, digestInput, macInput, macKey := [], [], [], seq(32, _ => 0 as bv8);
      holdback := new bv8[MAC_LENGTH](_ => 0 as bv8);
      holdbackLen, total := 0, 0;
      this.max := max;
    }

    /** Keying restarts the MAC, which is harmless exactly while nothing has left
        the holdback. */
    method SetMacKey(key: Bytes)
      requires Valid()
      modifies this`macKey, this`macInput
      ensures macKey == key && macInput == []
      ensures Valid() <==> old(macInput) == []
    {
      macKey, macInput := key, [];
    }

    /** One streamed chunk: the oldest held bytes move on to the MAC, the newest
        thirty-two stay held.  A refused chunk changes nothing. */
    method Push(chunk: Bytes) returns (r: Result<()>)
      requires Valid()
      modifies this`file, this`digestInput, this`macInput, this`holdbackLen, this`total, holdback
      ensures Valid()
      ensures r.Ok? <==> old(total) + |chunk| <= max
      ensures r.Ok? ==> file == old(file) + chunk
      ensures r.Err? ==> r.error == BodyTooLarge(max)
      ensures r.Err? ==> unchanged(this) && unchanged(holdback)
    {
      if total + |chunk| > max {
        return Err(BodyTooLarge(max));
      }
      var rest := chunk;
      if holdbackLen < MAC_LENGTH {
        var take := Min(MAC_LENGTH - holdbackLen, |rest|);
        forall i | 0 <= i < take {
          holdback[holdbackLen + i] := rest[i];
        }
        assert holdback[..holdbackLen] == old(holdback[..holdbackLen]);
        assert holdback[..holdbackLen + take] == old(holdback[..holdbackLen]) + chunk[..take];
        holdbackLen := holdbackLen + take;
        rest := rest[take..];
      }
      ghost var fed := |chunk| - |rest|;
      assert rest == chunk[fed..];
      assert macInput + holdback[..holdbackLen] == file + chunk[..fed];
      if rest != [] {
        assert holdback[..holdbackLen] == holdback[..];
        Shift(rest);
        assert holdback[..holdbackLen] == holdback[..];
      }
      assert file + chunk == (file + chunk[..fed]) + rest;
      digestInput := digestInput + chunk;
      file := file + chunk;
      total := total + |chunk|;
      r := Ok(());
    }

    /** The full holdback slides over `rest`. */
    method Shift(rest: Bytes)
      requires holdback.Length == MAC_LENGTH
      modifies this`macInput, holdback
      ensures macInput + holdback[..] == old(macInput + holdback[..]) + rest
    {
      ghost var before := holdback[..];
      if |rest| >= MAC_LENGTH {
        macInput := macInput + holdback[..];
        var cut := |rest| - MAC_LENGTH;
        macInput := macInput + rest[..cut];
        forall i | 0 <= i < MAC_LENGTH {
          holdback[i] := rest[cut + i];
        }
        assert holdback[..] == rest[cut..];
        assert rest == rest[..cut] + rest[cut..];
      } else {
        macInput := macInput + holdback[..|rest|];
        SlideOver(rest);
        assert before == before[..|rest|] + before[|rest|..];
      }
    }

    /** The held bytes move forward to make room for a short `rest` at the end. */
    method SlideOver(rest: Bytes)
      requires holdback.Length == MAC_LENGTH && |rest| < MAC_LENGTH
      modifies holdback
      ensures holdback[..] == old(holdback[..])[|rest|..] + rest
    {
      var keep := MAC_LENGTH - |rest|;
      forall i | 0 <= i < keep {
        holdback[i] := holdback[i + |rest|];
      }
      assert holdback[..keep] == old(holdback[..])[|rest|..];
      forall i | 0 <= i < |rest| {
        holdback[keep + i] := rest[i];
      }
      assert holdback[..keep] == old(holdback[..])[|rest|..];
      assert holdback[keep..] == rest;
      assert holdback[..] == holdback[..keep] + holdback[keep..];
    }

    method Finish(p: Primitives) returns (r: Result<FinishedBody>)
      requires Valid()
      ensures |file| < MIN_BODY_BYTES ==> r == Err(BadMac)
      ensures |file| >= MIN_BODY_BYTES ==> r == Ok(FinishedBody(
        p.sha256(file), file[|file| - MAC_LENGTH..], p.hmac(macKey, file[..|file| - MAC_LENGTH])))
    {
      if total < MIN_BODY_BYTES {
        return Err(BadMac);
      }
      assert holdback[..holdbackLen] == holdback[..] == file[|file| - MAC_LENGTH..];
      assert macInput == file[..|file| - MAC_LENGTH];
      return Ok(FinishedBody(p.sha256(digestInput), holdback[..], p.hmac(macKey, macInput)));
    }
  }

  /** Feeding a whole stream: the sink accepts it exactly when its total length is
      within the cap, however it is cut into chunks. */
  method PushAll(sink: BodySink, chunks: seq<Bytes>) returns (r: Result<()>)
    requires sink.Valid() && sink.file == []
    modifies sink`file, sink`digestInput, sink`macInput, sink`holdbackLen, sink`total, sink.holdback
    ensures sink.Valid()
    ensures r.Ok? <==> |Concat(chunks)| <= sink.max
    ensures r.Ok? ==> sink.file == Concat(chunks)
    ensures r.Err? ==> r.error == BodyTooLarge(sink.max)
  {
    for i := 0 to |chunks|
      invariant sink.Valid() && sink.file == Concat(chunks[..i])
    {
      assert chunks[..i + 1][..i] == chunks[..i];
      r := sink.Push(chunks[i]);
      if r.Err? {
        ConcatMonotone(chunks, i + 1);
        return;
      }
    }
    assert chunks[..|chunks|] == chunks;
    r := Ok(());
  }

  /** Compares without leaving early; the answer is plain equality. */
  method ConstantTimeEq(a: Bytes, b: Bytes) returns (same: bool)
    ensures same <==> a == b
  {
    if |a| != |b| {
      return false;
    }
    var diff: bv8 := 0;
    for i := 0 to |a|
      invariant diff == 0 <==> a[..i] == b[..i]
    {
      assert a[..i + 1] == a[..i] + [a[i]] && b[..i + 1] == b[..i] + [b[i]];
      OrXorZero(diff, a[i], b[i]);
      diff := diff | (a[i] ^ b[i]);
    }
    assert a[..|a|] == a && b[..|b|] == b;
    same := diff == 0;
  }

  lemma OrXorZero(d: bv8, x: bv8, y: bv8)
    ensures d | (x ^ y) == 0 <==> d == 0 && x == y
  {
  }

  /** The ciphertext gates in order: MAC first, digest when the face carries one. */
  method VerifyCiphertext(body: FinishedBody, face: Face) returns (r: Result<()>)
    ensures r == if body.macCheck != body.mac then Err(BadMac)
                 else if face.digest.Some? && body.digest != face.digest.value then Err(DigestMismatch)
                 else Ok(())
  {
    var same := ConstantTimeEq(body.macCheck, body.mac);
    if !same {
      return Err(BadMac);
    }
    if face.digest.Some? {
      same := ConstantTimeEq(body.digest, face.digest.value);
      if !same {
        return Err(DigestMismatch);
      }
    }
    r := Ok(());
  }
}
