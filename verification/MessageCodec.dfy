/** Control-message framing (section 3.2.1 of RFC 3931) and 16-bit sequence arithmetic. */
module MessageCodec {
  import opened Prelude
  import opened AvpCodec

  const HEADER_LEN := 12
  const VERSION := 3
  const CTRL_FLAGS := 0xC8
  const MAX_MESSAGE_LEN := 0xFFFF
  const SEQ_MODULUS := 0x1_0000

  datatype ControlMessage = ControlMessage(ccid: int, ns: int, nr: int, avps: seq<Avp>) {
    predicate IsZlb() { avps == [] }

    predicate FieldsInRange() {
      0 <= ccid <= 0xFFFF_FFFF && 0 <= ns <= 0xFFFF && 0 <= nr <= 0xFFFF
    }
  }

  function MessageHeader(totalLen: U16, ccid: U32, ns: U16, nr: U16): (h: Bytes)
    ensures |h| == HEADER_LEN
  {
    [CTRL_FLAGS, VERSION] + Pack(totalLen, 2) + Pack(ccid, 4) + Pack(ns, 2) + Pack(nr, 2)
  }

  function EncodeMessage(m: ControlMessage, key: Keying, vector: Option<Bytes>): Result<Bytes> {
    if !m.FieldsInRange() then Failure
    else
      var body :- EncodeAll(m.avps, key, vector);
      var totalLen := HEADER_LEN + |body|;
      if totalLen > MAX_MESSAGE_LEN then Failure
      else Success(MessageHeader(totalLen, m.ccid, m.ns, m.nr) + body)
  }

  function DecodeMessage(buf: Bytes, key: Keying): Result<ControlMessage> {
    if |buf| < HEADER_LEN then Failure
    else if buf[0] != CTRL_FLAGS then Failure
    else if buf[1] / 16 != 0 then Failure
    else if buf[1] % 16 != VERSION then Failure
    else if Unpack(buf[2..4]) != |buf| then Failure
    else
      var avps :- DecodeFrom(buf, HEADER_LEN, key, None);
      Success(ControlMessage(Unpack(buf[4..8]), Unpack(buf[8..10]), Unpack(buf[10..12]), avps))
  }

  /** encode() and decode() without a shared secret, as the reliable-delivery layer calls them. */
  function ToWire(m: ControlMessage): Result<Bytes> { EncodeMessage(m, NoSecret, None) }

  function FromWire(buf: Bytes): Result<ControlMessage> { DecodeMessage(buf, NoSecret) }

  lemma HeaderSlices(buf: Bytes, totalLen: U16, ccid: U32, ns: U16, nr: U16)
    requires |buf| >= HEADER_LEN && buf[..HEADER_LEN] == MessageHeader(totalLen, ccid, ns, nr)
    ensures buf[0] == CTRL_FLAGS && buf[1] == VERSION
    ensures Unpack(buf[2..4]) == totalLen && Unpack(buf[4..8]) == ccid
    ensures Unpack(buf[8..10]) == ns && Unpack(buf[10..12]) == nr
  {
    hide Pack, Unpack;
    var h := MessageHeader(totalLen, ccid, ns, nr);
    assert buf[2..4] == h[2..4] == Pack(totalLen, 2);
    assert buf[4..8] == h[4..8] == Pack(ccid, 4);
    assert buf[8..10] == h[8..10] == Pack(ns, 2);
    assert buf[10..12] == h[10..12] == Pack(nr, 2);
    WordSizes();
    UnpackPack(totalLen, 2);
    UnpackPack(ccid, 4);
    UnpackPack(ns, 2);
    UnpackPack(nr, 2);
    assert buf[0] == h[0] && buf[1] == h[1];
  }

  lemma SlicesHeader(buf: Bytes)
    requires HEADER_LEN <= |buf| && buf[0] == CTRL_FLAGS && buf[1] / 16 == 0 && buf[1] % 16 == VERSION
    ensures Unpack(buf[2..4]) <= 0xFFFF && Unpack(buf[4..8]) <= 0xFFFF_FFFF
    ensures Unpack(buf[8..10]) <= 0xFFFF && Unpack(buf[10..12]) <= 0xFFFF
    ensures MessageHeader(Unpack(buf[2..4]), Unpack(buf[4..8]), Unpack(buf[8..10]), Unpack(buf[10..12])) == buf[..HEADER_LEN]
  {
    hide Pack, Unpack;
    WordSizes();
    PackUnpack(buf[2..4]);
    PackUnpack(buf[4..8]);
    PackUnpack(buf[8..10]);
    PackUnpack(buf[10..12]);
    assert buf[1] == VERSION;
    assert buf[..HEADER_LEN] == [buf[0], buf[1]] + buf[2..4] + buf[4..8] + buf[8..10] + buf[10..12];
  }

  /**
   Decoding undoes encoding, hidden AVPs included, whenever each hidden AVP's most
   recent Random Vector AVP carries the vector the encoder used.
   */
  lemma DecodeEncodedMessage(m: ControlMessage, key: Keying, vector: Option<Bytes>)
    requires EncodeMessage(m, key, vector).Success? && VectorsMatch(m.avps, vector)
    ensures DecodeMessage(EncodeMessage(m, key, vector).value, key) == Success(m)
  {
    hide EncodeAll, DecodeFrom, MessageHeader, VectorsMatch;
    var buf := EncodeMessage(m, key, vector).value;
    var body := EncodeAll(m.avps, key, vector).value;
    HeaderSlices(buf, HEADER_LEN + |body|, m.ccid, m.ns, m.nr);
    assert buf[HEADER_LEN..] == body;
    assert m.avps[0..] == m.avps;
    DecodeFromEncoded(buf, HEADER_LEN, m.avps, 0, key, vector);
  }

  /** Whatever is accepted with nothing hidden in it is what the encoder writes for it. */
  lemma EncodeDecodedMessage(buf: Bytes, key: Keying)
    requires DecodeMessage(buf, key).Success? && NoneHidden(DecodeMessage(buf, key).value.avps)
    ensures ToWire(DecodeMessage(buf, key).value) == Success(buf)
  {
    hide EncodeAll, DecodeFrom, MessageHeader;
    SlicesHeader(buf);
    EncodeDecodedFrom(buf, HEADER_LEN, key, None);
    assert buf[..HEADER_LEN] + buf[HEADER_LEN..] == buf;
  }

  lemma ToWireHidesNothing(m: ControlMessage)
    requires ToWire(m).Success?
    ensures NoneHidden(m.avps)
  {
    hide EncodeAll;
    EncodeAllSucceeds(m.avps, NoSecret, None);
  }

  /**
   Without a secret, encode and decode are two directions of one bijection: a buffer
   is accepted as m exactly when it is the encoding of m.
   */
  lemma WireIsCanonical(m: ControlMessage, buf: Bytes)
    ensures ToWire(m) == Success(buf) <==> FromWire(buf) == Success(m)
  {
    hide EncodeMessage, DecodeMessage;
    if ToWire(m) == Success(buf) {
      ToWireHidesNothing(m);
      DecodeEncodedMessage(m, NoSecret, None);
    }
    if FromWire(buf) == Success(m) {
      FromWireHidesNothing(buf);
      EncodeDecodedMessage(buf, NoSecret);
    }
  }

  lemma FromWireHidesNothing(buf: Bytes)
    requires FromWire(buf).Success?
    ensures NoneHidden(FromWire(buf).value.avps)
  {
    hide DecodeFrom;
    PlainDecodingHidesNothing(buf, HEADER_LEN, None);
  }

  /**
   An accepted body splits into AVPs in one way only, the one decode returns: any list
   whose joined encodings are the body is that list, and it has at most (len - 12) / 6
   elements.
   */
  lemma SplitsOneWay(buf: Bytes, avps: seq<Avp>)
    requires FromWire(buf).Success?
    ensures EncodeAll(avps, NoSecret, None) == Success(buf[HEADER_LEN..]) <==> avps == FromWire(buf).value.avps
    ensures |FromWire(buf).value.avps| <= (|buf| - HEADER_LEN) / AVP_HEADER_LEN
  {
    hide EncodeAll, DecodeFrom;
    PlainDecodingHidesNothing(buf, HEADER_LEN, None);
    EncodeDecodedFrom(buf, HEADER_LEN, NoSecret, None);
    EncodeAllSucceeds(FromWire(buf).value.avps, NoSecret, None);
    if EncodeAll(avps, NoSecret, None) == Success(buf[HEADER_LEN..]) {
      EncodeAllSucceeds(avps, NoSecret, None);
      assert avps[0..] == avps;
      DecodeFromEncoded(buf, HEADER_LEN, avps, 0, NoSecret, None);
    }
  }

  /** Changing nr within its 16 bits never makes a message unencodable. */
  lemma RestampedEncodes(m: ControlMessage, nr: U16)
    requires ToWire(m).Success?
    ensures ToWire(m.(nr := nr)).Success?
  {
  }

  // ---- sequence numbers ------------------------------------------------------

  function SeqDelta(a: int, b: int): int {
    var diff := (a - b) % SEQ_MODULUS;
    if diff >= 0x8000 then diff - SEQ_MODULUS else diff
  }

  /** The 16 bits of position i that a header carries. */
  function Low16(i: int): U16 { i % SEQ_MODULUS }

  function SeqAdvance(s: int): U16 { Low16(s + 1) }

  lemma SeqAdvanceLow(i: int)
    ensures SeqAdvance(Low16(i)) == Low16(i + 1)
  {
  }

  /** The 16-bit distance is the real distance exactly inside half a turn. */
  lemma SeqDeltaExact(i: int, j: int)
    ensures SeqDelta(Low16(i), Low16(j)) == i - j <==> -0x8000 <= i - j < 0x8000
  {
    assert (i % SEQ_MODULUS - j % SEQ_MODULUS) % SEQ_MODULUS == (i - j) % SEQ_MODULUS;
  }
}
