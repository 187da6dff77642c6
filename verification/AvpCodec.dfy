/**
 AVP wire format (section 5.1 of RFC 3931): header, value, and the hidden-AVP
 path with its MD5 keystream (section 5.3 of RFC 3931).
 MD5 itself is any function to 16 octets.
 */
module AvpCodec {
  import opened Prelude

  const VENDOR_IETF := 0
  const AVP_HEADER_LEN := 6
  const AVP_MAX_LEN := 0x03FF
  const MD5_BLOCK := 16

  // Attribute types
  const MESSAGE_TYPE := 0
  const RESULT_CODE := 1
  const FIRMWARE_REVISION := 6
  const HOST_NAME := 7
  const VENDOR_NAME := 8
  const RECEIVE_WINDOW_SIZE := 10
  const RANDOM_VECTOR := 36
  const MESSAGE_DIGEST := 59
  const ROUTER_ID := 60
  const ASSIGNED_CONTROL_CONNECTION_ID := 61
  const PSEUDOWIRE_CAPABILITIES_LIST := 62
  const LOCAL_SESSION_ID := 63
  const REMOTE_SESSION_ID := 64
  const ASSIGNED_COOKIE := 65
  const REMOTE_END_ID := 66
  const PSEUDOWIRE_TYPE := 68
  const L2_SPECIFIC_SUBLAYER := 69
  const DATA_SEQUENCING := 70
  const CIRCUIT_STATUS := 71
  const CTL_MSG_AUTH_NONCE := 73
  const TX_CONNECT_SPEED := 74
  const RX_CONNECT_SPEED := 75

  datatype Avp = Avp(attributeType: int, value: Bytes, mandatory: bool, hidden: bool, vendorId: int)

  type Md5 = f: Bytes -> Bytes | forall b :: |f(b)| == MD5_BLOCK ghost witness (b: Bytes) => Zeros(MD5_BLOCK)

  /** The shared_secret argument of encode and decode, with the hash it is used with. */
  datatype Keying = NoSecret | Shared(md5: Md5, secret: Bytes)

  // ---- keystream -----------------------------------------------------------

  function KeystreamBlock(key: Keying, attr: U16, vector: Bytes, n: nat): (block: Bytes)
    requires key.Shared?
    ensures |block| == MD5_BLOCK
  {
    if n == 0 then key.md5(Pack(attr, 2) + key.secret + vector)
    else key.md5(key.secret + KeystreamBlock(key, attr, vector, n - 1))
  }

  /** The first `length` octets of the chained blocks. */
  function Keystream(key: Keying, attr: U16, vector: Bytes, length: nat): (ks: Bytes)
    requires key.Shared?
    ensures |ks| == length
  {
    seq(length, i requires 0 <= i < length => KeystreamBlock(key, attr, vector, i / MD5_BLOCK)[i % MD5_BLOCK])
  }

  lemma KeystreamPrefix(key: Keying, attr: U16, vector: Bytes, shorter: nat, longer: nat)
    requires key.Shared? && shorter <= longer
    ensures Keystream(key, attr, vector, longer)[..shorter] == Keystream(key, attr, vector, shorter)
  {
  }

  lemma KeystreamGrows(key: Keying, attr: U16, vector: Bytes, n: nat)
    requires key.Shared?
    ensures Keystream(key, attr, vector, MD5_BLOCK * n) + KeystreamBlock(key, attr, vector, n)
            == Keystream(key, attr, vector, MD5_BLOCK * (n + 1))
  {
    hide KeystreamBlock;
    var longer := Keystream(key, attr, vector, MD5_BLOCK * (n + 1));
    KeystreamPrefix(key, attr, vector, MD5_BLOCK * n, MD5_BLOCK * (n + 1));
    forall i | 0 <= i < MD5_BLOCK ensures longer[MD5_BLOCK * n + i] == KeystreamBlock(key, attr, vector, n)[i] {
      assert (MD5_BLOCK * n + i) / MD5_BLOCK == n && (MD5_BLOCK * n + i) % MD5_BLOCK == i;
    }
    assert longer[MD5_BLOCK * n..] == KeystreamBlock(key, attr, vector, n);
  }

  method GenerateKeystream(key: Keying, attr: U16, vector: Bytes, length: int) returns (r: Bytes)
    requires key.Shared?
    ensures r == Keystream(key, attr, vector, if length <= 0 then 0 else length)
  {
    hide Keystream;
    if length <= 0 {
      return [];
    }
    var prev := key.md5(Pack(attr, 2) + key.secret + vector);
    var ks := prev;
    ghost var n := 0;
    KeystreamGrows(key, attr, vector, 0);
    assert Keystream(key, attr, vector, 0) + prev == prev;
    while |ks| < length
      invariant prev == KeystreamBlock(key, attr, vector, n)
      invariant ks == Keystream(key, attr, vector, MD5_BLOCK * (n + 1))
      decreases length - |ks|
    {
      prev := key.md5(key.secret + prev);
      n := n + 1;
      KeystreamGrows(key, attr, vector, n);
      ks := ks + prev;
    }
    KeystreamPrefix(key, attr, vector, length, |ks|);
    r := ks[..length];
  }

  // ---- hidden values -------------------------------------------------------

  /** Padding octets that complete the last MD5 block. */
  function PadLength(n: nat): nat { (MD5_BLOCK - n % MD5_BLOCK) % MD5_BLOCK }

  /** Original length, value, and padding to the MD5 block. */
  function HiddenBody(plaintext: Bytes): (body: Bytes)
    requires |plaintext| <= 0xFFFF
    ensures |body| % MD5_BLOCK == 0 && 2 + |plaintext| <= |body| < 2 + |plaintext| + MD5_BLOCK
  {
    var body := Pack(|plaintext|, 2) + plaintext;
    body + Zeros(PadLength(|body|))
  }

  function HideValue(attr: U16, plaintext: Bytes, key: Keying, vector: Bytes): Result<Bytes>
    requires key.Shared?
  {
    if |plaintext| > 0xFFFF then Failure
    else
      var body := HiddenBody(plaintext);
      Success(Xor(body, Keystream(key, attr, vector, |body|)))
  }

  function UnhideValue(attr: U16, ciphertext: Bytes, key: Keying, vector: Bytes): Result<Bytes>
    requires key.Shared?
  {
    if |ciphertext| < MD5_BLOCK || |ciphertext| % MD5_BLOCK != 0 then Failure
    else
      var body := Xor(ciphertext, Keystream(key, attr, vector, |ciphertext|));
      var originalLen := Unpack(body[..2]);
      if 2 + originalLen > |body| then Failure else Success(body[2..2 + originalLen])
  }

  lemma UnhideHide(attr: U16, plaintext: Bytes, key: Keying, vector: Bytes)
    requires key.Shared? && |plaintext| <= 0xFFFF
    ensures HideValue(attr, plaintext, key, vector).Success?
    ensures UnhideValue(attr, HideValue(attr, plaintext, key, vector).value, key, vector) == Success(plaintext)
  {
    hide Keystream, Pack, Unpack, Xor;
    var body := HiddenBody(plaintext);
    XorInvolutive(body, Keystream(key, attr, vector, |body|));
    WordSizes();
    UnpackPack(|plaintext|, 2);
    assert body[..2] == Pack(|plaintext|, 2);
    assert body[2..2 + |plaintext|] == plaintext;
  }

  /** Zero padding up to the block size, and no further. */
  predicate ZeroPadded(body: Bytes, plaintext: Bytes)
    requires 2 + |plaintext| <= |body|
  {
    |body| < 2 + |plaintext| + MD5_BLOCK && body[2 + |plaintext|..] == Zeros(|body| - 2 - |plaintext|)
  }

  lemma PadLengthUnique(n: nat, total: nat)
    requires n <= total && total % MD5_BLOCK == 0
    ensures total < n + MD5_BLOCK <==> total - n == PadLength(n)
  {
  }

  lemma HiddenBodyUnique(body: Bytes, plaintext: Bytes)
    requires |body| % MD5_BLOCK == 0 && |plaintext| <= 0xFFFF && 2 + |plaintext| <= |body|
    requires body[..2] == Pack(|plaintext|, 2) && body[2..2 + |plaintext|] == plaintext
    ensures HiddenBody(plaintext) == body <==> ZeroPadded(body, plaintext)
  {
    hide Pack, PadLength, Zeros;
    var n := 2 + |plaintext|;
    var front := Pack(|plaintext|, 2) + plaintext;
    PadLengthUnique(n, |body|);
    var tail := body[n..];
    assert body == front + tail;
    assert HiddenBody(plaintext) == front + Zeros(PadLength(n));
    assert (front + Zeros(PadLength(n)))[n..] == Zeros(PadLength(n));
  }

  /**
   Hiding again what was unhidden gives the same ciphertext exactly when the sender
   padded with zeros, and with no more of them than the block size asks for.
   */
  lemma HideUnhide(attr: U16, ciphertext: Bytes, key: Keying, vector: Bytes)
    requires key.Shared? && UnhideValue(attr, ciphertext, key, vector).Success?
    ensures var plaintext := UnhideValue(attr, ciphertext, key, vector).value;
            var body := Xor(ciphertext, Keystream(key, attr, vector, |ciphertext|));
            HideValue(attr, plaintext, key, vector) == Success(ciphertext) <==> ZeroPadded(body, plaintext)
  {
    var ks := Keystream(key, attr, vector, |ciphertext|);
    var body := Xor(ciphertext, ks);
    var plaintext := UnhideValue(attr, ciphertext, key, vector).value;
    XorInvolutive(ciphertext, ks);
    PackUnpack(body[..2]);
    WordSizes();
    HiddenBodyUnique(body, plaintext);
    var again := HiddenBody(plaintext);
    XorInvolutive(again, Keystream(key, attr, vector, |again|));
  }

  // ---- one AVP -------------------------------------------------------------

  function Header(mandatory: bool, hidden: bool, totalLen: int, vendorId: U16, attr: U16): (h: Bytes)
    requires 0 <= totalLen <= AVP_MAX_LEN
    ensures |h| == AVP_HEADER_LEN
  {
    [(if mandatory then 128 else 0) + (if hidden then 64 else 0) + totalLen / 256, totalLen % 256]
    + Pack(vendorId, 2) + Pack(attr, 2)
  }

  function Encode(a: Avp, key: Keying, vector: Option<Bytes>): Result<Bytes> {
    if !(0 <= a.vendorId <= 0xFFFF) || !(0 <= a.attributeType <= 0xFFFF) then Failure
    else
      var field :- if !a.hidden then Success(a.value)
                   else if key.NoSecret? || vector.None? then Failure
                   else HideValue(a.attributeType, a.value, key, vector.value);
      var totalLen := AVP_HEADER_LEN + |field|;
      if totalLen > AVP_MAX_LEN then Failure
      else Success(Header(a.mandatory, a.hidden, totalLen, a.vendorId, a.attributeType) + field)
  }

  datatype HeaderFields = HeaderFields(mandatory: bool, hidden: bool, totalLen: nat, vendorId: U16, attr: U16)

  /** The six header octets; the reserved bits must be clear. */
  function ParseHeader(h: Bytes): Result<HeaderFields>
    requires |h| == AVP_HEADER_LEN
  {
    var b0: int := h[0];
    var b1: int := h[1];
    if (b0 / 4) % 16 != 0 then Failure
    else
      WordSizes();
      PackUnpack(h[2..4]);
      PackUnpack(h[4..6]);
      Success(HeaderFields(b0 / 128 == 1, (b0 / 64) % 2 == 1, (b0 % 4) * 256 + b1, Unpack(h[2..4]), Unpack(h[4..6])))
  }

  function DecodeOne(buf: Bytes, offset: nat, key: Keying, vector: Option<Bytes>): (r: Result<(Avp, nat)>)
    ensures r.Success? ==> offset + AVP_HEADER_LEN <= r.value.1 <= |buf|
  {
    if |buf| - offset < AVP_HEADER_LEN then Failure
    else
      var h :- ParseHeader(buf[offset..offset + AVP_HEADER_LEN]);
      if h.totalLen < AVP_HEADER_LEN then Failure
      else if offset + h.totalLen > |buf| then Failure
      else
        var field := buf[offset + AVP_HEADER_LEN..offset + h.totalLen];
        var value :- if !h.hidden then Success(field)
                     else if key.NoSecret? || vector.None? then Failure
                     else UnhideValue(h.attr, field, key, vector.value);
        Success((Avp(h.attr, value, h.mandatory, h.hidden, h.vendorId), offset + h.totalLen))
  }

  lemma HeaderBits(mandatory: bool, hidden: bool, high: nat)
    requires high < 4
    ensures var b0 := (if mandatory then 128 else 0) + (if hidden then 64 else 0) + high;
            (b0 / 4) % 16 == 0 && (b0 / 128 == 1 <==> mandatory) && ((b0 / 64) % 2 == 1 <==> hidden) && b0 % 4 == high
  {
  }

  lemma ParseHeaderOf(mandatory: bool, hidden: bool, totalLen: int, vendorId: U16, attr: U16)
    requires 0 <= totalLen <= AVP_MAX_LEN
    ensures ParseHeader(Header(mandatory, hidden, totalLen, vendorId, attr))
            == Success(HeaderFields(mandatory, hidden, totalLen, vendorId, attr))
  {
    hide Pack, Unpack;
    var h := Header(mandatory, hidden, totalLen, vendorId, attr);
    HeaderBits(mandatory, hidden, totalLen / 256);
    assert h[2..4] == Pack(vendorId, 2) && h[4..6] == Pack(attr, 2);
    WordSizes();
    UnpackPack(vendorId, 2);
    UnpackPack(attr, 2);
  }

  lemma HeaderOfParse(h: Bytes)
    requires |h| == AVP_HEADER_LEN && ParseHeader(h).Success?
    ensures var f := ParseHeader(h).value;
            f.totalLen <= AVP_MAX_LEN && Header(f.mandatory, f.hidden, f.totalLen, f.vendorId, f.attr) == h
  {
    hide Pack, Unpack;
    PackUnpack(h[2..4]);
    PackUnpack(h[4..6]);
    var b0: int := h[0];
    var b1: int := h[1];
    var totalLen := (b0 % 4) * 256 + b1;
    assert totalLen / 256 == b0 % 4 && totalLen % 256 == b1;
    assert b0 == 128 * (b0 / 128) + 64 * ((b0 / 64) % 2) + 4 * ((b0 / 4) % 16) + b0 % 4;
    assert h == [h[0], h[1]] + h[2..4] + h[4..6];
  }

  /** What the encoder accepts: in particular a hidden value of at most 1006 octets. */
  predicate Encodable(a: Avp, key: Keying, vector: Option<Bytes>) {
    && 0 <= a.vendorId <= 0xFFFF
    && 0 <= a.attributeType <= 0xFFFF
    && (if a.hidden then key.Shared? && vector.Some? && |a.value| <= 1006 else |a.value| <= 1017)
  }

  lemma EncodeSucceeds(a: Avp, key: Keying, vector: Option<Bytes>)
    ensures Encode(a, key, vector).Success? <==> Encodable(a, key, vector)
    ensures Encode(a, key, vector).Success? ==> AVP_HEADER_LEN <= |Encode(a, key, vector).value| <= AVP_MAX_LEN
  {
    hide Header, Xor, Keystream, Pack;
  }

  /** Decoding at the place where an AVP was written returns that AVP and the place after it. */
  lemma DecodeEncoded(buf: Bytes, offset: nat, a: Avp, key: Keying, vector: Option<Bytes>)
    requires Encode(a, key, vector).Success?
    requires var e := Encode(a, key, vector).value; offset + |e| <= |buf| && buf[offset..offset + |e|] == e
    ensures DecodeOne(buf, offset, key, vector) == Success((a, offset + |Encode(a, key, vector).value|))
  {
    hide Header, ParseHeader, HideValue, UnhideValue, Pack, Unpack, Keystream;
    var e := Encode(a, key, vector).value;
    assert buf[offset..offset + 6] == e[..6] == Header(a.mandatory, a.hidden, |e|, a.vendorId, a.attributeType);
    assert buf[offset + 6..offset + |e|] == e[6..];
    ParseHeaderOf(a.mandatory, a.hidden, |e|, a.vendorId, a.attributeType);
    if a.hidden {
      assert |a.value| <= 0xFFFF by { EncodeSucceeds(a, key, vector); }
      UnhideHide(a.attributeType, a.value, key, vector.value);
    }
  }

  lemma VectorIrrelevant(a: Avp, key: Keying, v: Option<Bytes>, w: Option<Bytes>)
    requires !a.hidden || v == w
    ensures Encode(a, key, v) == Encode(a, key, w)
  {
  }

  lemma SliceJoin<X>(s: seq<X>, i: nat, j: nat, k: nat)
    requires i <= j <= k <= |s|
    ensures s[i..j] + s[j..k] == s[i..k]
  {
  }

  lemma DecodedParts(buf: Bytes, offset: nat, a: Avp, next: nat, key: Keying, vector: Option<Bytes>)
    requires DecodeOne(buf, offset, key, vector) == Success((a, next)) && !a.hidden
    ensures offset + AVP_HEADER_LEN <= next <= |buf|
    ensures HeadOf(buf[offset..offset + AVP_HEADER_LEN], buf[offset + AVP_HEADER_LEN..next], a)
  {
    hide ParseHeader, UnhideValue;
  }

  /** head and field are the two parts of a plain AVP. */
  ghost predicate HeadOf(head: Bytes, field: Bytes, a: Avp) {
    && |head| == AVP_HEADER_LEN && ParseHeader(head).Success?
    && var f := ParseHeader(head).value;
       !f.hidden && f.totalLen == AVP_HEADER_LEN + |field| && a == Avp(f.attr, field, f.mandatory, false, f.vendorId)
  }

  lemma EncodePlain(a: Avp, k: Keying, v: Option<Bytes>)
    requires !a.hidden && 0 <= a.vendorId <= 0xFFFF && 0 <= a.attributeType <= 0xFFFF && AVP_HEADER_LEN + |a.value| <= AVP_MAX_LEN
    ensures Encode(a, k, v) == Success(Header(a.mandatory, false, AVP_HEADER_LEN + |a.value|, a.vendorId, a.attributeType) + a.value)
  {
    hide Header;
  }

  lemma JoinedEncodes(head: Bytes, field: Bytes, a: Avp, k: Keying, v: Option<Bytes>)
    requires HeadOf(head, field, a)
    ensures Encode(a, k, v) == Success(head + field)
  {
    hide Header, ParseHeader, Encode;
    HeaderOfParse(head);
    EncodePlain(a, k, v);
  }

  /** A decoded AVP that was not hidden re-encodes to the octets it came from. */
  lemma EncodeDecoded(buf: Bytes, offset: nat, a: Avp, next: nat, key: Keying, vector: Option<Bytes>, k: Keying, v: Option<Bytes>)
    requires DecodeOne(buf, offset, key, vector) == Success((a, next)) && !a.hidden
    ensures offset <= next <= |buf| && Encode(a, k, v) == Success(buf[offset..next])
  {
    hide Encode, DecodeOne, HeadOf;
    DecodedParts(buf, offset, a, next, key, vector);
    var head, field := buf[offset..offset + AVP_HEADER_LEN], buf[offset + AVP_HEADER_LEN..next];
    JoinedEncodes(head, field, a, k, v);
    SliceJoin(buf, offset, offset + AVP_HEADER_LEN, next);
  }

  // ---- sequences of AVPs ---------------------------------------------------

  predicate IsVector(a: Avp) { a.vendorId == VENDOR_IETF && a.attributeType == RANDOM_VECTOR }

  function NextVector(vector: Option<Bytes>, a: Avp): Option<Bytes> {
    if IsVector(a) then Some(a.value) else vector
  }

  /** decode_sequence from `pos` on, with the Random Vector seen so far. */
  function DecodeFrom(buf: Bytes, pos: nat, key: Keying, vector: Option<Bytes>): Result<seq<Avp>>
    decreases |buf| - pos
  {
    if pos >= |buf| then Success([])
    else
      var (a, next) :- DecodeOne(buf, pos, key, vector);
      var rest :- DecodeFrom(buf, next, key, NextVector(vector, a));
      Success([a] + rest)
  }

  function Prefixed<T>(front: seq<T>, r: Result<seq<T>>): Result<seq<T>> {
    match r case Success(rest) => Success(front + rest) case Failure => Failure
  }

  lemma PrefixedNothing<T>(r: Result<seq<T>>)
    ensures Prefixed([], r) == r
  {
    assert r.Success? ==> [] + r.value == r.value;
  }

  lemma PrefixedAll<T>(front: seq<T>)
    ensures Prefixed(front, Success([])) == Success(front)
  {
    assert front + [] == front;
  }

  lemma PrefixedNext(front: seq<Avp>, buf: Bytes, pos: nat, key: Keying, vector: Option<Bytes>, a: Avp, next: nat)
    requires pos < |buf| && DecodeOne(buf, pos, key, vector) == Success((a, next))
    ensures Prefixed(front, DecodeFrom(buf, pos, key, vector))
            == Prefixed(front + [a], DecodeFrom(buf, next, key, NextVector(vector, a)))
  {
    hide DecodeOne, NextVector;
    var rest := DecodeFrom(buf, next, key, NextVector(vector, a));
    assert rest.Success? ==> front + ([a] + rest.value) == front + [a] + rest.value;
  }

  method DecodeSequence(buf: Bytes, offset: nat, key: Keying) returns (r: Result<seq<Avp>>)
    ensures r == DecodeFrom(buf, offset, key, None)
  {
    hide DecodeOne;
    var result: seq<Avp> := [];
    var vector := None;
    var pos := offset;
    PrefixedNothing(DecodeFrom(buf, offset, key, None));
    while pos < |buf|
      invariant DecodeFrom(buf, offset, key, None) == Prefixed(result, DecodeFrom(buf, pos, key, vector))
      decreases |buf| - pos
    {
      var one := DecodeOne(buf, pos, key, vector);
      if one.Failure? {
        return Failure;
      }
      var (a, next) := one.value;
      PrefixedNext(result, buf, pos, key, vector, a, next);
      pos := next;
      if IsVector(a) {
        vector := Some(a.value);
      }
      result := result + [a];
    }
    PrefixedAll(result);
    r := Success(result);
  }

  /** The joined encodings of a message body. */
  function EncodeAll(avps: seq<Avp>, key: Keying, vector: Option<Bytes>): Result<Bytes> {
    if avps == [] then Success([])
    else
      var first :- Encode(avps[0], key, vector);
      var rest :- EncodeAll(avps[1..], key, vector);
      Success(first + rest)
  }

  /** The value of the last Random Vector AVP among the first n. */
  function VectorAt(avps: seq<Avp>, n: nat): Option<Bytes>
    requires n <= |avps|
  {
    if n == 0 then None else NextVector(VectorAt(avps, n - 1), avps[n - 1])
  }

  /** Each hidden AVP follows, most recently, a Random Vector AVP with the encoder's vector. */
  ghost predicate VectorsMatch(avps: seq<Avp>, vector: Option<Bytes>) {
    forall i :: 0 <= i < |avps| && avps[i].hidden ==> VectorAt(avps, i) == vector
  }

  ghost predicate NoneHidden(avps: seq<Avp>) {
    forall i :: 0 <= i < |avps| ==> !avps[i].hidden
  }

  lemma {:induction false} EncodeAllConcat(left: seq<Avp>, right: seq<Avp>, key: Keying, vector: Option<Bytes>)
    ensures EncodeAll(left + right, key, vector) ==
            match EncodeAll(left, key, vector)
            case Failure => Failure
            case Success(l) => Prefixed(l, EncodeAll(right, key, vector))
  {
    hide Encode;
    if left == [] {
      assert left + right == right;
      var r := EncodeAll(right, key, vector);
      assert r.Success? ==> [] + r.value == r.value;
    } else {
      assert (left + right)[1..] == left[1..] + right;
      EncodeAllConcat(left[1..], right, key, vector);
      var first := Encode(left[0], key, vector);
      var l := EncodeAll(left[1..], key, vector);
      var r := EncodeAll(right, key, vector);
      if first.Success? && l.Success? && r.Success? {
        assert first.value + (l.value + r.value) == first.value + l.value + r.value;
      }
    }
  }

  lemma {:induction false} EncodeAllSucceeds(avps: seq<Avp>, key: Keying, vector: Option<Bytes>)
    ensures EncodeAll(avps, key, vector).Success? <==> forall i :: 0 <= i < |avps| ==> Encodable(avps[i], key, vector)
    ensures EncodeAll(avps, key, vector).Success? ==> AVP_HEADER_LEN * |avps| <= |EncodeAll(avps, key, vector).value|
  {
    if avps != [] {
      EncodeSucceeds(avps[0], key, vector);
      EncodeAllSucceeds(avps[1..], key, vector);
      assert forall i :: 1 <= i < |avps| ==> avps[i] == avps[1..][i - 1];
      assert forall i :: 0 <= i < |avps| - 1 ==> avps[1..][i] == avps[i + 1];
    }
  }

  lemma DecodeFromOne(buf: Bytes, pos: nat, key: Keying, vector: Option<Bytes>, a: Avp, next: nat, rest: seq<Avp>)
    requires pos < |buf| && DecodeOne(buf, pos, key, vector) == Success((a, next))
    requires DecodeFrom(buf, next, key, NextVector(vector, a)) == Success(rest)
    ensures DecodeFrom(buf, pos, key, vector) == Success([a] + rest)
  {
    hide DecodeOne, NextVector;
  }

  lemma DecodeFromFirst(buf: Bytes, pos: nat, key: Keying, vector: Option<Bytes>)
    requires pos < |buf| && DecodeFrom(buf, pos, key, vector).Success?
    ensures DecodeOne(buf, pos, key, vector).Success?
    ensures var (a, next) := DecodeOne(buf, pos, key, vector).value;
            && DecodeFrom(buf, next, key, NextVector(vector, a)).Success?
            && DecodeFrom(buf, pos, key, vector).value == [a] + DecodeFrom(buf, next, key, NextVector(vector, a)).value
  {
    hide DecodeOne, NextVector;
  }

  lemma EncodeAllFirst(avps: seq<Avp>, key: Keying, vector: Option<Bytes>)
    requires avps != [] && EncodeAll(avps, key, vector).Success?
    ensures Encode(avps[0], key, vector).Success? && EncodeAll(avps[1..], key, vector).Success?
    ensures EncodeAll(avps, key, vector).value == Encode(avps[0], key, vector).value + EncodeAll(avps[1..], key, vector).value
  {
    hide Encode;
  }

  lemma SplitTail(buf: Bytes, pos: nat, front: Bytes, rest: Bytes)
    requires pos <= |buf| && buf[pos..] == front + rest
    ensures pos + |front| <= |buf| && buf[pos..pos + |front|] == front && buf[pos + |front|..] == rest
  {
    assert buf[pos..pos + |front|] == buf[pos..][..|front|];
    assert buf[pos + |front|..] == buf[pos..][|front|..];
  }

  /** IETF vendor, type 36. */
  ghost predicate RandomVector(a: Avp) { a.vendorId == 0 && a.attributeType == 36 }

  /** Place j holds the last Random Vector AVP before place n, with value v. */
  ghost predicate LastVector(avps: seq<Avp>, n: nat, j: int, v: Bytes) {
    0 <= j < n <= |avps| && RandomVector(avps[j]) && avps[j].value == v && forall i :: j < i < n ==> !RandomVector(avps[i])
  }

  lemma VectorStep(avps: seq<Avp>, n: nat)
    requires 0 < n <= |avps|
    ensures VectorAt(avps, n) == if RandomVector(avps[n - 1]) then Some(avps[n - 1].value) else VectorAt(avps, n - 1)
  {
    var before := VectorAt(avps, n - 1);
    assert VectorAt(avps, n) == NextVector(before, avps[n - 1]);
  }

  lemma NoVectorYet(avps: seq<Avp>)
    ensures VectorAt(avps, 0) == None
  {
  }

  /** The vector in force at place n is the last one before it, if there is any. */
  lemma {:induction false} VectorIsLatest(avps: seq<Avp>, n: nat)
    requires n <= |avps|
    ensures VectorAt(avps, n).None? ==> forall i :: 0 <= i < n ==> !RandomVector(avps[i])
    ensures VectorAt(avps, n).Some? ==> exists j :: LastVector(avps, n, j, VectorAt(avps, n).value)
  {
    hide VectorAt, RandomVector;
    if n == 0 {
      NoVectorYet(avps);
    } else {
      VectorStep(avps, n);
      VectorIsLatest(avps, n - 1);
      if RandomVector(avps[n - 1]) {
        assert LastVector(avps, n, n - 1, avps[n - 1].value);
      } else if VectorAt(avps, n - 1).Some? {
        var v := VectorAt(avps, n - 1).value;
        var j :| LastVector(avps, n - 1, j, v);
        assert LastVector(avps, n, j, v);
      }
    }
  }

  lemma VectorSeen(avps: seq<Avp>, k: nat, vector: Option<Bytes>)
    requires k < |avps| && VectorsMatch(avps, vector)
    ensures avps[k].hidden ==> VectorAt(avps, k) == vector
    ensures VectorAt(avps, k + 1) == NextVector(VectorAt(avps, k), avps[k])
  {
  }

  /** One AVP at pos and what the rest decodes to. */
  lemma DecodeStep(buf: Bytes, pos: nat, a: Avp, tail: Bytes, rest: seq<Avp>, key: Keying, vector: Option<Bytes>, seen: Option<Bytes>)
    requires Encode(a, key, vector).Success? && (a.hidden ==> seen == vector)
    requires pos <= |buf| && buf[pos..] == Encode(a, key, vector).value + tail
    requires DecodeFrom(buf, pos + |Encode(a, key, vector).value|, key, NextVector(seen, a)) == Success(rest)
    ensures DecodeFrom(buf, pos, key, seen) == Success([a] + rest)
  {
    hide Encode, DecodeOne, DecodeFrom, NextVector;
    var e := Encode(a, key, vector).value;
    EncodeSucceeds(a, key, vector);
    SplitTail(buf, pos, e, tail);
    VectorIrrelevant(a, key, seen, vector);
    DecodeEncoded(buf, pos, a, key, seen);
    DecodeFromOne(buf, pos, key, seen, a, pos + |e|, rest);
  }

  lemma DecodeNothing(buf: Bytes, pos: nat, key: Keying, vector: Option<Bytes>, seen: Option<Bytes>)
    requires pos <= |buf| && EncodeAll([], key, vector).Success? && buf[pos..] == EncodeAll([], key, vector).value
    ensures DecodeFrom(buf, pos, key, seen) == Success([])
  {
  }

  lemma {:induction false} DecodeFromEncoded(buf: Bytes, pos: nat, avps: seq<Avp>, k: nat, key: Keying, vector: Option<Bytes>)
    requires k <= |avps| && VectorsMatch(avps, vector)
    requires EncodeAll(avps[k..], key, vector).Success?
    requires pos <= |buf| && buf[pos..] == EncodeAll(avps[k..], key, vector).value
    ensures DecodeFrom(buf, pos, key, VectorAt(avps, k)) == Success(avps[k..])
    decreases |avps| - k
  {
    hide Encode, DecodeOne, DecodeFrom, EncodeAll, NextVector, VectorsMatch, VectorAt;
    if k == |avps| {
      assert avps[k..] == [];
      DecodeNothing(buf, pos, key, vector, VectorAt(avps, k));
    } else {
      var a, rest := avps[k], avps[k + 1..];
      assert avps[k..][0] == a && avps[k..][1..] == rest;
      EncodeAllFirst(avps[k..], key, vector);
      var e, tail := Encode(a, key, vector).value, EncodeAll(rest, key, vector).value;
      SplitTail(buf, pos, e, tail);
      VectorSeen(avps, k, vector);
      DecodeFromEncoded(buf, pos + |e|, avps, k + 1, key, vector);
      DecodeStep(buf, pos, a, tail, rest, key, vector, VectorAt(avps, k));
      assert [a] + rest == avps[k..];
    }
  }

  /** With nothing hidden, the body is the one encoding of what it decodes to. */
  lemma {:induction false} EncodeDecodedFrom(buf: Bytes, pos: nat, key: Keying, vector: Option<Bytes>)
    requires pos <= |buf|
    requires DecodeFrom(buf, pos, key, vector).Success?
    requires NoneHidden(DecodeFrom(buf, pos, key, vector).value)
    ensures EncodeAll(DecodeFrom(buf, pos, key, vector).value, NoSecret, None) == Success(buf[pos..])
    decreases |buf| - pos
  {
    hide Encode, DecodeOne, NextVector;
    if pos < |buf| {
      hide DecodeFrom;
      DecodeFromFirst(buf, pos, key, vector);
      var all := DecodeFrom(buf, pos, key, vector).value;
      var (a, next) := DecodeOne(buf, pos, key, vector).value;
      var rest := DecodeFrom(buf, next, key, NextVector(vector, a)).value;
      assert all[0] == a && all[1..] == rest;
      assert forall i :: 0 <= i < |rest| ==> rest[i] == all[i + 1];
      EncodeDecoded(buf, pos, a, next, key, vector, NoSecret, None);
      EncodeDecodedFrom(buf, next, key, NextVector(vector, a));
      assert buf[pos..next] + buf[next..] == buf[pos..];
    }
  }

  lemma {:induction false} PlainDecodingHidesNothing(buf: Bytes, pos: nat, vector: Option<Bytes>)
    requires DecodeFrom(buf, pos, NoSecret, vector).Success?
    ensures NoneHidden(DecodeFrom(buf, pos, NoSecret, vector).value)
    decreases |buf| - pos
  {
    if pos < |buf| {
      var (a, next) := DecodeOne(buf, pos, NoSecret, vector).value;
      PlainDecodingHidesNothing(buf, next, NextVector(vector, a));
    }
  }

  // ---- find_avp ------------------------------------------------------------

  predicate Matches(a: Avp, attr: int) { a.vendorId == VENDOR_IETF && a.attributeType == attr }

  function Find(avps: seq<Avp>, attr: int): Option<Avp> {
    if avps == [] then None
    else if Matches(avps[0], attr) then Some(avps[0])
    else Find(avps[1..], attr)
  }

  method FindAvp(avps: seq<Avp>, attr: int) returns (r: Option<Avp>)
    ensures r == Find(avps, attr)
    ensures r.None? <==> forall i :: 0 <= i < |avps| ==> !Matches(avps[i], attr)
  {
    for i := 0 to |avps|
      invariant Find(avps, attr) == Find(avps[i..], attr)
      invariant forall j :: 0 <= j < i ==> !Matches(avps[j], attr)
    {
      if Matches(avps[i], attr) {
        return Some(avps[i]);
      }
      assert avps[i..][1..] == avps[i + 1..];
    }
    r := None;
  }

  lemma {:induction false} FindConcat(left: seq<Avp>, right: seq<Avp>, attr: int)
    ensures Find(left + right, attr) == if Find(left, attr).Some? then Find(left, attr) else Find(right, attr)
  {
    if left == [] {
      assert left + right == right;
    } else {
      assert (left + right)[1..] == left[1..] + right;
      FindConcat(left[1..], right, attr);
    }
  }

  /** The first match, by position. */
  lemma {:induction false} FindFirst(avps: seq<Avp>, attr: int) returns (k: nat)
    ensures k <= |avps|
    ensures forall i :: 0 <= i < k ==> !Matches(avps[i], attr)
    ensures if k < |avps| then Matches(avps[k], attr) && Find(avps, attr) == Some(avps[k]) else Find(avps, attr) == None
  {
    k := 0;
    while k < |avps| && !Matches(avps[k], attr)
      invariant k <= |avps| && Find(avps, attr) == Find(avps[k..], attr)
      invariant forall i :: 0 <= i < k ==> !Matches(avps[i], attr)
    {
      assert avps[k..][1..] == avps[k + 1..];
      k := k + 1;
    }
  }
}
