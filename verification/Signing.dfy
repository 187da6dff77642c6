/**
 Message Digest signing and verification (section 4.3 of RFC 3931). The sender patches
 the digest into the last octets; the verifier rebuilds the zeroed message by encoding
 the decoded AVPs again. HMAC is any function with the right output length.
 */
module Signing {
  import opened Prelude
  import opened AvpCodec
  import opened MessageCodec

  datatype DigestHash = HmacMd5 | HmacSha1

  function HashByte(hash: DigestHash): Byte { if hash.HmacMd5? then 0 else 1 }

  function DigestSize(hash: DigestHash): nat { if hash.HmacMd5? then 16 else 20 }

  type Hmac = f: (DigestHash, Bytes, Bytes) -> Bytes | forall h, k, b :: |f(h, k, b)| == DigestSize(h)
    ghost witness (h: DigestHash, k: Bytes, b: Bytes) => Zeros(DigestSize(h))

  function ComputeMessageDigest(hmac: Hmac, hash: DigestHash, secret: Bytes, zeroed: Bytes): Result<Bytes> {
    if secret == [] then Failure else Success(hmac(hash, secret, [1] + zeroed))
  }

  function VerifyMessageDigest(hmac: Hmac, hash: DigestHash, secret: Bytes, zeroed: Bytes, received: Bytes): Result<bool> {
    var expected :- ComputeMessageDigest(hmac, hash, secret, zeroed);
    Success(expected == received)
  }

  function MessageDigestAvp(hash: DigestHash, digest: Bytes): Avp {
    Avp(MESSAGE_DIGEST, [HashByte(hash)] + digest, true, false, VENDOR_IETF)
  }

  function Placeholder(hash: DigestHash): Avp { MessageDigestAvp(hash, Zeros(DigestSize(hash))) }

  predicate IsDigest(a: Avp) { Matches(a, MESSAGE_DIGEST) }

  function EncodeSigned(hmac: Hmac, m: ControlMessage, hash: DigestHash, secret: Bytes): Result<Bytes> {
    var zeroed :- ToWire(m.(avps := m.avps + [Placeholder(hash)]));
    var digest :- ComputeMessageDigest(hmac, hash, secret, zeroed);
    if |zeroed| < DigestSize(hash) then Failure
    else Success(zeroed[..|zeroed| - DigestSize(hash)] + digest)
  }

  /** The AVPs with every Message Digest AVP replaced by an all-zero one. */
  function ZeroDigests(avps: seq<Avp>, hash: DigestHash): seq<Avp> {
    seq(|avps|, i requires 0 <= i < |avps| => if IsDigest(avps[i]) then Placeholder(hash) else avps[i])
  }

  method BuildZeroedAvps(avps: seq<Avp>, hash: DigestHash) returns (zeroed: seq<Avp>)
    ensures zeroed == ZeroDigests(avps, hash)
  {
    zeroed := [];
    for i := 0 to |avps|
      invariant zeroed == ZeroDigests(avps, hash)[..i]
    {
      if IsDigest(avps[i]) {
        zeroed := zeroed + [Placeholder(hash)];
      } else {
        zeroed := zeroed + [avps[i]];
      }
    }
  }

  /** The octets the verifier runs the HMAC over. */
  function Rebuilt(m: ControlMessage, hash: DigestHash): Result<Bytes> {
    ToWire(m.(avps := ZeroDigests(m.avps, hash)))
  }

  function DecodeAndVerify(hmac: Hmac, buf: Bytes, hash: DigestHash, secret: Bytes): Result<ControlMessage> {
    var m :- FromWire(buf);
    match Find(m.avps, MESSAGE_DIGEST)
    case None => Failure
    case Some(digest) =>
      if |digest.value| < 1 then Failure
      else if digest.value[0] != HashByte(hash) then Failure
      else if |digest.value| != 1 + DigestSize(hash) then Failure
      else
        var rebuilt :- Rebuilt(m, hash);
        var ok :- VerifyMessageDigest(hmac, hash, secret, rebuilt, digest.value[1..]);
        if ok then Success(m) else Failure
  }

  // ---- positions of the digest octets ----------------------------------------

  /** k is the place of the first Message Digest AVP, and it has the size the hash asks for. */
  ghost predicate FirstDigest(avps: seq<Avp>, k: nat, hash: DigestHash) {
    && k < |avps| && IsDigest(avps[k])
    && (forall i :: 0 <= i < k ==> !IsDigest(avps[i]))
    && |avps[k].value| == 1 + DigestSize(hash) && avps[k].value[0] == HashByte(hash)
  }

  /** Where the digest octets of AVP k start in the message. */
  ghost function DigestOffset(avps: seq<Avp>, k: nat): nat
    requires k <= |avps| && EncodeAll(avps[..k], NoSecret, None).Success?
  {
    HEADER_LEN + |EncodeAll(avps[..k], NoSecret, None).value| + AVP_HEADER_LEN + 1
  }

  ghost predicate DigestAt(buf: Bytes, m: ControlMessage, k: nat, hash: DigestHash, start: nat) {
    && k <= |m.avps| && EncodeAll(m.avps[..k], NoSecret, None).Success?
    && start == DigestOffset(m.avps, k)
    && start + DigestSize(hash) <= |buf|
  }

  /** buf with other octets where the digest of AVP k is. */
  ghost function Patched(buf: Bytes, start: nat, digest: Bytes): (r: Bytes)
    requires start + |digest| <= |buf|
    ensures |r| == |buf|
  {
    buf[..start] + digest + buf[start + |digest|..]
  }

  lemma EncodeAllOne(a: Avp)
    ensures EncodeAll([a], NoSecret, None) == Encode(a, NoSecret, None)
  {
    hide Encode;
    assert EncodeAll([a][1..], NoSecret, None) == Success([]);
    var e := Encode(a, NoSecret, None);
    assert e.Success? ==> e.value + [] == e.value;
  }

  lemma EncodeAllNothing()
    ensures EncodeAll([], NoSecret, None) == Success([])
  {
  }

  lemma EncodeAllThree(avps: seq<Avp>, k: nat)
    requires k < |avps| && EncodeAll(avps, NoSecret, None).Success?
    ensures EncodeAll(avps[..k], NoSecret, None).Success?
    ensures EncodeAll(avps[k + 1..], NoSecret, None).Success?
    ensures Encode(avps[k], NoSecret, None).Success?
    ensures EncodeAll(avps, NoSecret, None).value == EncodeAll(avps[..k], NoSecret, None).value
                                                    + Encode(avps[k], NoSecret, None).value
                                                    + EncodeAll(avps[k + 1..], NoSecret, None).value
  {
    hide EncodeAll, Encode;
    assert avps == avps[..k] + ([avps[k]] + avps[k + 1..]);
    EncodeAllConcat(avps[..k], [avps[k]] + avps[k + 1..], NoSecret, None);
    EncodeAllConcat([avps[k]], avps[k + 1..], NoSecret, None);
    EncodeAllOne(avps[k]);
  }

  lemma EncodeAllReplace(avps: seq<Avp>, k: nat, a: Avp)
    requires k < |avps| && EncodeAll(avps, NoSecret, None).Success? && Encode(a, NoSecret, None).Success?
    ensures EncodeAll(avps[k := a], NoSecret, None).Success?
  {
    hide EncodeAll, Encode;
    EncodeAllSucceeds(avps, NoSecret, None);
    EncodeSucceeds(a, NoSecret, None);
    EncodeAllSucceeds(avps[k := a], NoSecret, None);
  }

  ghost function DigestReplaced(a: Avp, hash: DigestHash, digest: Bytes): Avp {
    a.(value := [HashByte(hash)] + digest)
  }

  ghost function DigestHead(a: Avp, hash: DigestHash): Bytes
    requires 0 <= a.vendorId <= 0xFFFF && 0 <= a.attributeType <= 0xFFFF
  {
    Header(a.mandatory, false, AVP_HEADER_LEN + 1 + DigestSize(hash), a.vendorId, a.attributeType) + [HashByte(hash)]
  }

  lemma EncodeDigest(a: Avp, hash: DigestHash, digest: Bytes)
    requires IsDigest(a) && !a.hidden && |digest| == DigestSize(hash) && a.value == [HashByte(hash)] + digest
    ensures Encode(a, NoSecret, None) == Success(DigestHead(a, hash) + digest)
  {
    hide Header;
    var head := Header(a.mandatory, false, AVP_HEADER_LEN + 1 + |digest|, a.vendorId, a.attributeType);
    assert head + ([HashByte(hash)] + digest) == head + [HashByte(hash)] + digest;
  }

  /** The body around the digest octets of AVP k. */
  lemma BodyAround(m: ControlMessage, k: nat, hash: DigestHash)
    requires ToWire(m).Success? && FirstDigest(m.avps, k, hash)
    ensures EncodeAll(m.avps[..k], NoSecret, None).Success? && EncodeAll(m.avps[k + 1..], NoSecret, None).Success?
    ensures EncodeAll(m.avps, NoSecret, None)
            == Success(EncodeAll(m.avps[..k], NoSecret, None).value + DigestHead(m.avps[k], hash)
                       + m.avps[k].value[1..] + EncodeAll(m.avps[k + 1..], NoSecret, None).value)
    ensures k + 1 == |m.avps| ==> EncodeAll(m.avps[k + 1..], NoSecret, None).value == []
  {
    hide EncodeAll, Encode, MessageHeader, DigestHead;
    EncodeAllThree(m.avps, k);
    ToWireHidesNothing(m);
    var digest := m.avps[k].value[1..];
    assert m.avps[k].value == [HashByte(hash)] + digest;
    EncodeDigest(m.avps[k], hash, digest);
    var pre := EncodeAll(m.avps[..k], NoSecret, None).value;
    var head := DigestHead(m.avps[k], hash);
    assert pre + (head + digest) == pre + head + digest;
    if k + 1 == |m.avps| {
      assert m.avps[k + 1..] == [];
      EncodeAllNothing();
    }
  }

  /** Putting another digest into AVP k changes the digest octets of the message and no others. */
  lemma PatchIsReplacement(buf: Bytes, m: ControlMessage, k: nat, hash: DigestHash, digest: Bytes)
    requires ToWire(m) == Success(buf) && FirstDigest(m.avps, k, hash) && |digest| == DigestSize(hash)
    ensures k <= |m.avps| && EncodeAll(m.avps[..k], NoSecret, None).Success?
    ensures DigestAt(buf, m, k, hash, DigestOffset(m.avps, k))
    ensures buf[DigestOffset(m.avps, k)..DigestOffset(m.avps, k) + |digest|] == m.avps[k].value[1..]
    ensures k + 1 == |m.avps| ==> DigestOffset(m.avps, k) + |digest| == |buf|
    ensures ToWire(m.(avps := m.avps[k := DigestReplaced(m.avps[k], hash, digest)]))
            == Success(Patched(buf, DigestOffset(m.avps, k), digest))
  {
    hide EncodeAll, MessageHeader, Header, Encode;
    BodyAround(m, k, hash);
    ToWireHidesNothing(m);
    var b := DigestReplaced(m.avps[k], hash, digest);
    var other := m.(avps := m.avps[k := b]);
    EncodeDigest(b, hash, digest);
    EncodeAllReplace(m.avps, k, b);
    EncodeAllThree(other.avps, k);
    assert other.avps[..k] == m.avps[..k] && other.avps[k + 1..] == m.avps[k + 1..];
    assert DigestHead(b, hash) == DigestHead(m.avps[k], hash);
    var pre := EncodeAll(m.avps[..k], NoSecret, None).value;
    var post := EncodeAll(m.avps[k + 1..], NoSecret, None).value;
    var front := MessageHeader(|buf|, m.ccid, m.ns, m.nr) + pre + DigestHead(b, hash);
    assert |front| == DigestOffset(m.avps, k);
    assert buf == front + m.avps[k].value[1..] + post;
    assert ToWire(other).value == front + digest + post;
    assert Patched(buf, |front|, digest) == front + digest + post;
  }

  // ---- signing, then verifying -----------------------------------------------

  ghost predicate NoDigest(avps: seq<Avp>) { forall i :: 0 <= i < |avps| ==> !IsDigest(avps[i]) }

  lemma SignedWire(hmac: Hmac, m: ControlMessage, hash: DigestHash, secret: Bytes)
    requires NoDigest(m.avps) && EncodeSigned(hmac, m, hash, secret).Success?
    ensures var zeroed := ToWire(m.(avps := m.avps + [Placeholder(hash)]));
            && zeroed.Success?
            && ToWire(m.(avps := m.avps + [MessageDigestAvp(hash, hmac(hash, secret, [1] + zeroed.value))]))
               == EncodeSigned(hmac, m, hash, secret)
  {
    hide EncodeMessage, EncodeAll;
    var k := |m.avps|;
    var stub := m.(avps := m.avps + [Placeholder(hash)]);
    var zeroed := ToWire(stub).value;
    var digest := hmac(hash, secret, [1] + zeroed);
    PatchIsReplacement(zeroed, stub, k, hash, digest);
    var start := DigestOffset(stub.avps, k);
    assert stub.avps[k := DigestReplaced(stub.avps[k], hash, digest)] == m.avps + [MessageDigestAvp(hash, digest)];
    assert Patched(zeroed, start, digest) == zeroed[..|zeroed| - |digest|] + digest;
  }

  /**
   A message without Message Digest AVPs can be signed exactly when it encodes and leaves
   room for the digest AVP; the verifier accepts the result and returns the same CCID, Ns, Nr
   and AVPs, with the digest AVP appended.
   */
  lemma SignVerifyRoundTrip(hmac: Hmac, m: ControlMessage, hash: DigestHash, secret: Bytes)
    requires NoDigest(m.avps) && secret != []
    ensures EncodeSigned(hmac, m, hash, secret).Success?
            <==> ToWire(m).Success? && |ToWire(m).value| + AVP_HEADER_LEN + 1 + DigestSize(hash) <= MAX_MESSAGE_LEN
    ensures EncodeSigned(hmac, m, hash, secret).Success? ==>
              var zeroed := ToWire(m.(avps := m.avps + [Placeholder(hash)])).value;
              DecodeAndVerify(hmac, EncodeSigned(hmac, m, hash, secret).value, hash, secret)
              == Success(m.(avps := m.avps + [MessageDigestAvp(hash, hmac(hash, secret, [1] + zeroed))]))
  {
    hide EncodeAll, MessageHeader;
    EncodeAllConcat(m.avps, [Placeholder(hash)], NoSecret, None);
    EncodeAllOne(Placeholder(hash));
    if EncodeSigned(hmac, m, hash, secret).Success? {
      hide EncodeMessage;
      SignedWire(hmac, m, hash, secret);
      var wire := EncodeSigned(hmac, m, hash, secret).value;
      var zeroed := ToWire(m.(avps := m.avps + [Placeholder(hash)])).value;
      var digest := MessageDigestAvp(hash, hmac(hash, secret, [1] + zeroed));
      var signed := m.(avps := m.avps + [digest]);
      WireIsCanonical(signed, wire);
      var k := FindFirst(signed.avps, MESSAGE_DIGEST);
      assert k == |m.avps| by {
        assert forall i :: 0 <= i < |m.avps| ==> signed.avps[i] == m.avps[i] && !IsDigest(m.avps[i]);
        assert IsDigest(signed.avps[|m.avps|]);
      }
      assert ZeroDigests(signed.avps, hash) == m.avps + [Placeholder(hash)];
    }
  }

  // ---- what the verifier feeds to the HMAC -----------------------------------

  /**
   The rebuilt octets are the received ones with the first digest zeroed exactly when that
   AVP has its M bit set and every further Message Digest AVP is already the placeholder.
   */
  lemma RebuildIsExact(buf: Bytes, m: ControlMessage, k: nat, hash: DigestHash)
    requires FromWire(buf) == Success(m) && FirstDigest(m.avps, k, hash)
    ensures EncodeAll(m.avps[..k], NoSecret, None).Success?
    ensures DigestAt(buf, m, k, hash, DigestOffset(m.avps, k))
    ensures buf[DigestOffset(m.avps, k)..DigestOffset(m.avps, k) + DigestSize(hash)] == m.avps[k].value[1..]
    ensures Rebuilt(m, hash) == Success(Patched(buf, DigestOffset(m.avps, k), Zeros(DigestSize(hash))))
            <==> m.avps[k].mandatory && forall j :: k < j < |m.avps| && IsDigest(m.avps[j]) ==> m.avps[j] == Placeholder(hash)
  {
    hide EncodeMessage, DecodeMessage, EncodeAll;
    WireIsCanonical(m, buf);
    ToWireHidesNothing(m);
    var zeros := Zeros(DigestSize(hash));
    PatchIsReplacement(buf, m, k, hash, zeros);
    var patched := Patched(buf, DigestOffset(m.avps, k), zeros);
    var replaced := m.avps[k := DigestReplaced(m.avps[k], hash, zeros)];
    var rebuilt := ZeroDigests(m.avps, hash);
    WireIsCanonical(m.(avps := replaced), patched);
    WireIsCanonical(m.(avps := rebuilt), patched);
    assert Rebuilt(m, hash) == Success(patched) <==> rebuilt == replaced;
    assert DigestReplaced(m.avps[k], hash, zeros) == Placeholder(hash) <==> m.avps[k].mandatory;
    if rebuilt == replaced {
      assert rebuilt[k] == replaced[k];
      forall j | k < j < |m.avps| && IsDigest(m.avps[j]) ensures m.avps[j] == Placeholder(hash) {
        assert rebuilt[j] == replaced[j];
      }
    }
  }

  /**
   With one Message Digest AVP, wherever it stands, its M bit set, and of the right size
   and hash type, a buffer is accepted exactly when the digest octets in it are the HMAC of the
   buffer with those octets zeroed.
   */
  lemma AcceptedExactlyWhenAuthentic(hmac: Hmac, buf: Bytes, m: ControlMessage, k: nat, hash: DigestHash, secret: Bytes)
    requires FromWire(buf) == Success(m) && FirstDigest(m.avps, k, hash) && secret != []
    requires m.avps[k].mandatory && forall j :: k < j < |m.avps| ==> !IsDigest(m.avps[j])
    ensures EncodeAll(m.avps[..k], NoSecret, None).Success?
    ensures var start := DigestOffset(m.avps, k);
            var size := DigestSize(hash);
            && start + size <= |buf|
            && (DecodeAndVerify(hmac, buf, hash, secret) == Success(m)
                <==> buf[start..start + size] == hmac(hash, secret, [1] + Patched(buf, start, Zeros(size))))
    ensures DecodeAndVerify(hmac, buf, hash, secret).Success? ==> DecodeAndVerify(hmac, buf, hash, secret) == Success(m)
  {
    hide EncodeMessage, DecodeMessage, EncodeAll;
    RebuildIsExact(buf, m, k, hash);
    var first := FindFirst(m.avps, MESSAGE_DIGEST);
    assert first == k;
  }

  /**
   Whatever the buffer, it is accepted exactly when its first Message Digest AVP is of the
   expected hash type and size and holds the HMAC of the rebuilt octets.
   */
  lemma VerifiedExactly(hmac: Hmac, buf: Bytes, m: ControlMessage, hash: DigestHash, secret: Bytes)
    requires FromWire(buf) == Success(m) && secret != []
    ensures DecodeAndVerify(hmac, buf, hash, secret) == Success(m) <==> exists k :: DigestHolds(hmac, m, hash, secret, k)
    ensures DecodeAndVerify(hmac, buf, hash, secret).Success? ==> DecodeAndVerify(hmac, buf, hash, secret) == Success(m)
  {
    hide FromWire, ToWire, Rebuilt;
    var first := FindFirst(m.avps, MESSAGE_DIGEST);
    if DecodeAndVerify(hmac, buf, hash, secret).Success? {
      assert DigestHolds(hmac, m, hash, secret, first);
    }
    if k :| DigestHolds(hmac, m, hash, secret, k) {
      assert first == k;
    }
  }

  ghost predicate DigestHolds(hmac: Hmac, m: ControlMessage, hash: DigestHash, secret: Bytes, k: nat) {
    FirstDigest(m.avps, k, hash) && Rebuilt(m, hash).Success? && m.avps[k].value[1..] == hmac(hash, secret, [1] + Rebuilt(m, hash).value)
  }

  /**
   What tick and ack_only put on the wire carries no digest, and a verifier never accepts
   it: under a password, retransmissions and bare acknowledgements are lost.
   */
  lemma UnsignedNeverVerifies(hmac: Hmac, m: ControlMessage, buf: Bytes, hash: DigestHash, secret: Bytes)
    requires ToWire(m) == Success(buf) && NoDigest(m.avps)
    ensures DecodeAndVerify(hmac, buf, hash, secret).Failure?
  {
    hide EncodeMessage, DecodeMessage;
    WireIsCanonical(m, buf);
    var k := FindFirst(m.avps, MESSAGE_DIGEST);
  }
}
