/** Octet by octet, what the encoders write (sections 3.2.1, 4.3, 5.1 and 5.3 of RFC 3931). */
module Layout {
  import opened Prelude
  import opened AvpCodec
  import opened MessageCodec
  import opened Signing
  import opened TypedMessages

  lemma TwoOctets(n: U16)
    ensures Pack(n, 2) == [n / 256, n % 256]
  {
    WordSizes();
    PackStep(n, 2);
    PackStep(n / 256, 1);
    assert Pack(n / 256 / 256, 0) == [];
  }

  lemma FourOctets(n: U32)
    ensures Pack(n, 4) == [n / 0x100_0000, n / 0x1_0000 % 256, n / 256 % 256, n % 256]
  {
    PackStep(n, 4);
    PackStep(n / 256, 3);
    PackStep(n / 256 / 256, 2);
    PackStep(n / 256 / 256 / 256, 1);
    assert Pack(n / 256 / 256 / 256 / 256, 0) == [];
    assert n / 256 / 256 == n / 0x1_0000 && n / 256 / 256 / 256 == n / 0x100_0000;
  }

  /** Flags and version, total length, CCID, Ns and Nr, then the AVPs. */
  lemma MessageLayout(m: ControlMessage, buf: Bytes)
    requires ToWire(m) == Success(buf)
    ensures 12 <= |buf| <= 0xFFFF && buf[0] == 0xC8 && buf[1] == 3
    ensures buf[2] == |buf| / 256 && buf[3] == |buf| % 256
    ensures buf[4..8] == [m.ccid / 0x100_0000, m.ccid / 0x1_0000 % 256, m.ccid / 256 % 256, m.ccid % 256]
    ensures buf[8] == m.ns / 256 && buf[9] == m.ns % 256 && buf[10] == m.nr / 256 && buf[11] == m.nr % 256
    ensures EncodeAll(m.avps, NoSecret, None) == Success(buf[12..])
  {
    hide EncodeAll, Pack;
    var body := EncodeAll(m.avps, NoSecret, None).value;
    TwoOctets(|buf|);
    FourOctets(m.ccid);
    TwoOctets(m.ns);
    TwoOctets(m.nr);
    var h := [0xC8, 3] + [|buf| / 256, |buf| % 256]
             + [m.ccid / 0x100_0000, m.ccid / 0x1_0000 % 256, m.ccid / 256 % 256, m.ccid % 256]
             + [m.ns / 256, m.ns % 256] + [m.nr / 256, m.nr % 256];
    assert buf == h + body;
    assert buf[12..] == body;
    assert buf[4..8] == h[4..8];
  }

  /** M and H bits, ten bits of length, vendor, type, then the value or what hides it. */
  lemma AvpLayout(a: Avp, key: Keying, vector: Option<Bytes>, b: Bytes)
    requires Encode(a, key, vector) == Success(b)
    ensures 6 <= |b| <= 1023
    ensures b[0] == (if a.mandatory then 0x80 else 0) + (if a.hidden then 0x40 else 0) + |b| / 256 && b[1] == |b| % 256
    ensures b[2] == a.vendorId / 256 && b[3] == a.vendorId % 256 && b[4] == a.attributeType / 256 && b[5] == a.attributeType % 256
    ensures if a.hidden then key.Shared? && vector.Some? && HideValue(a.attributeType, a.value, key, vector.value) == Success(b[6..])
            else b[6..] == a.value
  {
    hide Header, HideValue, Pack;
    EncodeSucceeds(a, key, vector);
    HeaderLayout(a.mandatory, a.hidden, |b|, a.vendorId, a.attributeType);
    var h := Header(a.mandatory, a.hidden, |b|, a.vendorId, a.attributeType);
    assert b[..6] == h;
    assert forall i :: 0 <= i < 6 ==> b[i] == h[i];
  }

  lemma HeaderLayout(mandatory: bool, hidden: bool, length: nat, vendorId: U16, attr: U16)
    requires length <= 1023
    ensures Header(mandatory, hidden, length, vendorId, attr)
            == [(if mandatory then 0x80 else 0) + (if hidden then 0x40 else 0) + length / 256, length % 256,
                vendorId / 256, vendorId % 256, attr / 256, attr % 256]
  {
    hide Pack;
    TwoOctets(vendorId);
    TwoOctets(attr);
  }

  /** Behind the mask of the keystream: the length in two octets, the value, and zeros to the next multiple of 16. */
  lemma HiddenLayout(attr: U16, value: Bytes, key: Keying, vector: Bytes, hidden: Bytes)
    requires key.Shared? && HideValue(attr, value, key, vector) == Success(hidden)
    ensures |hidden| % 16 == 0 && 2 + |value| <= |hidden| < 18 + |value|
    ensures Xor(hidden, Keystream(key, attr, vector, |hidden|)) == [|value| / 256, |value| % 256] + value + Zeros(|hidden| - 2 - |value|)
  {
    hide Pack, Xor, Keystream, Zeros;
    TwoOctets(|value|);
    var body := HiddenBody(value);
    XorInvolutive(body, Keystream(key, attr, vector, |body|));
  }

  /** The mask is a chain of MD5 blocks: of attribute type, secret and vector first, then each of the secret and the block before. */
  lemma KeystreamChain(key: Keying, attr: U16, vector: Bytes, length: nat, k: nat)
    requires key.Shared? && 16 * (k + 1) <= length
    ensures var ks := Keystream(key, attr, vector, length);
            && (k == 0 ==> ks[..16] == key.md5([attr / 256, attr % 256] + key.secret + vector))
            && (k > 0 ==> ks[16 * k..16 * (k + 1)] == key.md5(key.secret + ks[16 * (k - 1)..16 * k]))
  {
    TwoOctets(attr);
    var ks := Keystream(key, attr, vector, length);
    BlockAt(key, attr, vector, length, k);
    if k == 0 {
      assert ks[16 * k..16 * (k + 1)] == ks[..16];
    } else {
      BlockAt(key, attr, vector, length, k - 1);
    }
  }

  lemma BlockAt(key: Keying, attr: U16, vector: Bytes, length: nat, k: nat)
    requires key.Shared? && 16 * (k + 1) <= length
    ensures Keystream(key, attr, vector, length)[16 * k..16 * (k + 1)] == KeystreamBlock(key, attr, vector, k)
  {
    hide KeystreamBlock;
    var ks := Keystream(key, attr, vector, length);
    forall i | 0 <= i < 16 ensures ks[16 * k + i] == KeystreamBlock(key, attr, vector, k)[i] {
      assert (16 * k + i) / 16 == k && (16 * k + i) % 16 == i;
    }
  }

  /** A signed message ends with the digest AVP: its hash type, 0 for MD5 and 1 for SHA-1, and the HMAC of 1 and the message with zeros in place of the HMAC. */
  lemma SignedLayout(hmac: Hmac, m: ControlMessage, hash: DigestHash, secret: Bytes, buf: Bytes)
    requires EncodeSigned(hmac, m, hash, secret) == Success(buf)
    ensures var size := if hash.HmacMd5? then 16 else 20;
            && size + 7 <= |buf|
            && buf[|buf| - size..] == hmac(hash, secret, [1] + (buf[..|buf| - size] + Zeros(size)))
            && buf[|buf| - size - 1] == (if hash.HmacMd5? then 0 else 1)
            && buf[|buf| - size - 7] == 0x80 && buf[|buf| - size - 6] == size + 7
            && buf[|buf| - size - 5..|buf| - size - 1] == [0, 0, 0, 59]
  {
    hide EncodeAll, Encode, MessageHeader, ToWire;
    var stub := m.(avps := m.avps + [Placeholder(hash)]);
    var zeroed := ToWire(stub).value;
    StubTail(m, hash, zeroed);
    var size := DigestSize(hash);
    assert |buf| == |zeroed| && buf[..|buf| - size] == zeroed[..|buf| - size];
    assert buf[..|buf| - size] + Zeros(size) == zeroed;
    var tail := zeroed[|zeroed| - size - 7..|zeroed| - size];
    assert forall i :: 0 <= i < 7 ==> buf[|buf| - size - 7 + i] == tail[i];
    assert buf[|buf| - size - 5..|buf| - size - 1] == tail[2..6];
  }

  lemma StubTail(m: ControlMessage, hash: DigestHash, zeroed: Bytes)
    requires ToWire(m.(avps := m.avps + [Placeholder(hash)])) == Success(zeroed)
    ensures var size := DigestSize(hash);
            && size + 7 <= |zeroed| && zeroed[|zeroed| - size..] == Zeros(size)
            && zeroed[|zeroed| - size - 7..|zeroed| - size] == [0x80, size + 7, 0, 0, 0, 59, HashByte(hash)]
  {
    hide EncodeAll, Encode, MessageHeader, Header;
    var a := Placeholder(hash);
    var size := DigestSize(hash);
    EncodeAllConcat(m.avps, [a], NoSecret, None);
    EncodeAllOne(a);
    var b := Encode(a, NoSecret, None).value;
    AvpLayout(a, NoSecret, None, b);
    assert |b| == size + 7 by { EncodePlain(a, NoSecret, None); }
    assert b[6..] == a.value;
    assert b == [0x80, size + 7, 0, 0, 0, 59, HashByte(hash)] + Zeros(size) by {
      assert b == b[..6] + b[6..];
      assert b[..6] == [b[0], b[1], b[2], b[3], b[4], b[5]];
    }
    var front := zeroed[..|zeroed| - |b|];
    assert zeroed == front + b;
  }

  /** The HELLO of the keepalive, all twenty octets. */
  lemma HelloOctets(ccid: U32, ns: U16, nr: U16)
    ensures ToWire(ControlMessage(ccid, ns, nr, BuildBare(HELLO)))
            == Success([0xC8, 3, 0, 20] + Pack(ccid, 4) + Pack(ns, 2) + Pack(nr, 2) + [0x80, 8, 0, 0, 0, 0, 0, 6])
  {
    hide Header, MessageHeader, Encode;
    var m := ControlMessage(ccid, ns, nr, BuildBare(HELLO));
    var a := Avp(0, Pack(6, 2), true, false, 0);
    TwoOctets(6);
    TwoOctets(20);
    FourOctets(ccid);
    TwoOctets(ns);
    TwoOctets(nr);
    assert BuildBare(HELLO) == [a] by {
      assert [RequiredNumber(MESSAGE_TYPE, HELLO, 2)][1..] == [];
      assert Collect([RequiredNumber(MESSAGE_TYPE, HELLO, 2)][1..]) == [];
    }
    EncodeAllOne(a);
    EncodePlain(a, NoSecret, None);
    var b := Encode(a, NoSecret, None).value;
    AvpLayout(a, NoSecret, None, b);
    assert b == [0x80, 8, 0, 0, 0, 0, 0, 6] by {
      assert b == b[..6] + b[6..];
      assert b[..6] == [b[0], b[1], b[2], b[3], b[4], b[5]];
    }
    BareEncodes(m, HELLO);
    var buf := ToWire(m).value;
    MessageLayout(m, buf);
    assert buf[12..] == b;
    assert buf == buf[..4] + buf[4..8] + buf[8..10] + buf[10..12] + buf[12..];
    assert buf[..4] == [buf[0], buf[1], buf[2], buf[3]];
    assert buf[8..10] == [buf[8], buf[9]] && buf[10..12] == [buf[10], buf[11]];
  }

  /** An IETF AVP of this type number is there with this value, or absent when there is none; the M bit is as given. */
  ghost predicate Shown(m: seq<Avp>, number: int, value: Option<Bytes>, mandatory: bool) {
    Find(m, number) == match value case None => None case Some(v) => Some(Avp(number, v, mandatory, false, 0))
  }

  function Octets(n: Option<nat>, width: nat): Option<Bytes> { if n.None? then None else Some(Pack(n.value, width)) }

  /** Capabilities stand in the order given, two octets each. */
  lemma {:induction false} CapabilityOctets(types: seq<U16>, i: nat)
    requires i < |types|
    ensures |PackCapabilities(types)| == 2 * |types| && PackCapabilities(types)[2 * i..2 * i + 2] == [types[i] / 256, types[i] % 256]
  {
    CapabilitiesSurvive(types);
    TwoOctets(types[0]);
    var b := PackCapabilities(types);
    if i == 0 {
      assert b[..2] == Pack(types[0], 2);
    } else {
      CapabilityOctets(types[1..], i - 1);
      assert b[2 * i..2 * i + 2] == PackCapabilities(types[1..])[2 * (i - 1)..2 * (i - 1) + 2];
    }
  }

  /** SCCRQ and SCCRP, by the numbers of section 5.4 of RFC 3931. */
  lemma SccrxNumbers(messageType: U16, args: SccrxArgs)
    ensures var m := BuildSccrx(messageType, args);
            && Shown(m, 0, Some(Pack(messageType, 2)), true) && Shown(m, 60, Some(Pack(args.routerId, 4)), true)
            && Shown(m, 61, Some(Pack(args.assignedCcid, 4)), true) && Shown(m, 62, Some(PackCapabilities(args.pwCapabilities)), true)
            && Shown(m, 7, Some(args.hostName), true) && Shown(m, 10, Some(Pack(args.receiveWindow, 2)), true)
            && Shown(m, 8, args.vendorName, false) && Shown(m, 6, Octets(args.firmwareRevision, 2), false)
            && Shown(m, 73, args.authNonce, true)
  {
    hide Find, Collect, Pack, PackCapabilities;
    var slots := SccrxSlots(messageType, args);
    FindEach(slots, SCCRX_ATTRS);
    assert forall k :: 0 <= k < 9 ==> Find(BuildSccrx(messageType, args), SCCRX_ATTRS[k]) == slots[k];
    assert SCCRX_ATTRS[0] == 0 && SCCRX_ATTRS[1] == 60 && SCCRX_ATTRS[2] == 61 && SCCRX_ATTRS[3] == 62 && SCCRX_ATTRS[4] == 7;
    assert SCCRX_ATTRS[5] == 10 && SCCRX_ATTRS[6] == 8 && SCCRX_ATTRS[7] == 6 && SCCRX_ATTRS[8] == 73;
  }

  /** ICRQ, ICRP and ICCN, likewise. */
  lemma SessionNumbers(messageType: U16, args: SessionArgs)
    ensures var m := BuildSession(messageType, args);
            && Shown(m, 0, Some(Pack(messageType, 2)), true) && Shown(m, 63, Some(Pack(args.localSid, 4)), true)
            && Shown(m, 64, Some(Pack(args.remoteSid, 4)), true) && Shown(m, 68, Octets(args.pseudowireType, 2), true)
            && Shown(m, 69, Some(Pack(args.l2SpecificSublayer, 2)), true) && Shown(m, 70, Some(Pack(args.dataSequencing, 2)), true)
            && Shown(m, 71, Some(Pack(args.circuitStatus, 2)), true) && Shown(m, 66, args.remoteEndId, true)
            && Shown(m, 65, args.assignedCookie, true)
            && Shown(m, 74, Octets(args.txConnectSpeed, 8), true) && Shown(m, 75, Octets(args.rxConnectSpeed, 8), true)
  {
    hide Find, BuildSession, Pack;
    SessionFound(messageType, args);
  }

  /** StopCCN and CDN, likewise. */
  lemma TeardownNumbers(ccid: U32, local: U32, remote: U32, info: ResultInfo)
    ensures var m := BuildStopCcn(ccid, info);
            Shown(m, 0, Some(Pack(4, 2)), true) && Shown(m, 61, Some(Pack(ccid, 4)), true) && Shown(m, 1, Some(ResultOctets(info)), true)
    ensures var m := BuildCdn(local, remote, info);
            && Shown(m, 0, Some(Pack(14, 2)), true) && Shown(m, 63, Some(Pack(local, 4)), true) && Shown(m, 64, Some(Pack(remote, 4)), true)
            && Shown(m, 1, Some(ResultOctets(info)), true)
  {
    hide Find, Collect, Pack;
    var stop, cdn := StopCcnSlots(ccid, info), CdnSlots(local, remote, info);
    FindEach(stop, STOPCCN_ATTRS);
    FindEach(cdn, CDN_ATTRS);
    assert forall k :: 0 <= k < 3 ==> Find(BuildStopCcn(ccid, info), STOPCCN_ATTRS[k]) == stop[k];
    assert forall k :: 0 <= k < 4 ==> Find(BuildCdn(local, remote, info), CDN_ATTRS[k]) == cdn[k];
    assert STOPCCN_ATTRS[0] == 0 && STOPCCN_ATTRS[1] == 61 && STOPCCN_ATTRS[2] == 1;
    assert CDN_ATTRS[0] == 0 && CDN_ATTRS[1] == 63 && CDN_ATTRS[2] == 64 && CDN_ATTRS[3] == 1;
  }

  function ResultOctets(info: ResultInfo): Bytes {
    match info
    case Bare(result) => Pack(result, 2)
    case WithError(result, error, message) => Pack(result, 2) + Pack(error, 2) + message
  }

  /** The message types and result codes as they stand in their AVPs (sections 3.1 and 5.4.2 of RFC 3931). */
  lemma CodeOctets()
    ensures Pack(SCCRQ, 2) == [0, 1] && Pack(SCCRP, 2) == [0, 2] && Pack(SCCCN, 2) == [0, 3] && Pack(STOPCCN, 2) == [0, 4] && Pack(HELLO, 2) == [0, 6]
    ensures Pack(ICRQ, 2) == [0, 10] && Pack(ICRP, 2) == [0, 11] && Pack(ICCN, 2) == [0, 12] && Pack(CDN, 2) == [0, 14]
    ensures Pack(GENERAL_ERROR, 2) == [0, 2] && Pack(ADMIN_SHUTDOWN, 2) == [0, 6]
  {
    TwoOctets(SCCRQ);
    TwoOctets(SCCRP);
    TwoOctets(SCCCN);
    TwoOctets(STOPCCN);
    TwoOctets(HELLO);
    TwoOctets(ICRQ);
    TwoOctets(ICRP);
    TwoOctets(ICCN);
    TwoOctets(CDN);
  }
}
