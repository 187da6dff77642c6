/**
 Typed control messages: the AVP lists the daemon builds (section 6 of RFC 3931) and the
 parsers that read them back. Arguments outside their wire width are excluded by type.
 */
module TypedMessages {
  import opened Prelude
  import opened AvpCodec
  import opened MessageCodec

  const SCCRQ := 1
  const SCCRP := 2
  const SCCCN := 3
  const STOPCCN := 4
  const HELLO := 6
  const ICRQ := 10
  const ICRP := 11
  const ICCN := 12
  const CDN := 14

  const ETHERNET_VLAN := 4
  const ETHERNET := 5

  const GENERAL_ERROR := 2
  const ADMIN_SHUTDOWN := 6

  type Capabilities = c: seq<U16> | c != [] witness [ETHERNET]
  type Nonce = b: Bytes | b != [] witness [0]
  type Cookie = b: Bytes | |b| == 0 || |b| == 4 || |b| == 8

  // ---- building ----------------------------------------------------------------

  function Required(attr: U16, value: Bytes): Option<Avp> {
    Some(Avp(attr, value, true, false, VENDOR_IETF))
  }

  function RequiredNumber(attr: U16, n: nat, width: nat): Option<Avp> { Required(attr, Pack(n, width)) }

  function OptionalValue(attr: U16, value: Option<Bytes>, mandatory: bool): Option<Avp> {
    if value.None? then None else Some(Avp(attr, value.value, mandatory, false, VENDOR_IETF))
  }

  function Optional16(attr: U16, n: Option<U16>, mandatory: bool): Option<Avp> {
    if n.None? then None else Some(Avp(attr, Pack(n.value, 2), mandatory, false, VENDOR_IETF))
  }

  function Optional64(attr: U16, n: Option<U64>): Option<Avp> {
    if n.None? then None else Some(Avp(attr, Pack(n.value, 8), true, false, VENDOR_IETF))
  }

  /** The AVPs that are there, in order. */
  function Collect(slots: seq<Option<Avp>>): seq<Avp> {
    if slots == [] then []
    else (if slots[0].Some? then [slots[0].value] else []) + Collect(slots[1..])
  }

  function PackCapabilities(types: seq<U16>): Bytes {
    if types == [] then [] else Pack(types[0], 2) + PackCapabilities(types[1..])
  }

  datatype SccrxArgs = SccrxArgs(
    routerId: U32, assignedCcid: U32, hostName: Bytes, pwCapabilities: Capabilities, receiveWindow: U16,
    vendorName: Option<Bytes>, firmwareRevision: Option<U16>, authNonce: Option<Nonce>)

  /** SCCRQ and SCCRP carry the same AVPs. */
  function BuildSccrx(messageType: U16, args: SccrxArgs): seq<Avp> { Collect(SccrxSlots(messageType, args)) }

  function SccrxSlots(messageType: U16, args: SccrxArgs): seq<Option<Avp>> {
    [
      RequiredNumber(MESSAGE_TYPE, messageType, 2),
      RequiredNumber(ROUTER_ID, args.routerId, 4),
      RequiredNumber(ASSIGNED_CONTROL_CONNECTION_ID, args.assignedCcid, 4),
      Required(PSEUDOWIRE_CAPABILITIES_LIST, PackCapabilities(args.pwCapabilities)),
      Required(HOST_NAME, args.hostName),
      RequiredNumber(RECEIVE_WINDOW_SIZE, args.receiveWindow, 2),
      OptionalValue(VENDOR_NAME, args.vendorName, false),
      Optional16(FIRMWARE_REVISION, args.firmwareRevision, false),
      OptionalValue(CTL_MSG_AUTH_NONCE, args.authNonce, true)]
  }

  /** SCCCN and HELLO carry the Message Type only. */
  function BuildBare(messageType: U16): seq<Avp> { Collect([RequiredNumber(MESSAGE_TYPE, messageType, 2)]) }

  /** An error message needs an error code. */
  datatype ResultInfo = Bare(result: U16) | WithError(result: U16, error: U16, message: Bytes) {
    function Pack'(): Bytes {
      if Bare? then Pack(result, 2) else Pack(result, 2) + Pack(error, 2) + message
    }
  }

  function BuildStopCcn(assignedCcid: U32, info: ResultInfo): seq<Avp> { Collect(StopCcnSlots(assignedCcid, info)) }

  function StopCcnSlots(assignedCcid: U32, info: ResultInfo): seq<Option<Avp>> {
    [
      RequiredNumber(MESSAGE_TYPE, STOPCCN, 2),
      RequiredNumber(ASSIGNED_CONTROL_CONNECTION_ID, assignedCcid, 4),
      Required(RESULT_CODE, info.Pack'())]
  }

  /** The AVPs ICRQ, ICRP and ICCN draw from; what a message leaves out is None. */
  datatype SessionArgs = SessionArgs(
    localSid: U32, remoteSid: U32, pseudowireType: Option<U16>,
    l2SpecificSublayer: U16, dataSequencing: U16, circuitStatus: U16,
    remoteEndId: Option<Bytes>, assignedCookie: Option<Cookie>,
    txConnectSpeed: Option<U64>, rxConnectSpeed: Option<U64>)

  function BuildSession(messageType: U16, args: SessionArgs): seq<Avp> { Collect(SessionSlots(messageType, args)) }

  function SessionSlots(messageType: U16, args: SessionArgs): seq<Option<Avp>> {
    [
      RequiredNumber(MESSAGE_TYPE, messageType, 2),
      RequiredNumber(LOCAL_SESSION_ID, args.localSid, 4),
      RequiredNumber(REMOTE_SESSION_ID, args.remoteSid, 4),
      Optional16(PSEUDOWIRE_TYPE, args.pseudowireType, true),
      RequiredNumber(L2_SPECIFIC_SUBLAYER, args.l2SpecificSublayer, 2),
      RequiredNumber(DATA_SEQUENCING, args.dataSequencing, 2),
      RequiredNumber(CIRCUIT_STATUS, args.circuitStatus, 2),
      OptionalValue(REMOTE_END_ID, args.remoteEndId, true),
      OptionalValue(ASSIGNED_COOKIE, args.assignedCookie, true),
      Optional64(TX_CONNECT_SPEED, args.txConnectSpeed),
      Optional64(RX_CONNECT_SPEED, args.rxConnectSpeed)]
  }

  function BuildCdn(localSid: U32, remoteSid: U32, info: ResultInfo): seq<Avp> { Collect(CdnSlots(localSid, remoteSid, info)) }

  function CdnSlots(localSid: U32, remoteSid: U32, info: ResultInfo): seq<Option<Avp>> {
    [
      RequiredNumber(MESSAGE_TYPE, CDN, 2),
      RequiredNumber(LOCAL_SESSION_ID, localSid, 4),
      RequiredNumber(REMOTE_SESSION_ID, remoteSid, 4),
      Required(RESULT_CODE, info.Pack'())]
  }

  // ---- parsing -----------------------------------------------------------------

  function Number16(a: Avp): Result<U16> {
    if |a.value| != 2 then Failure else WordSizes(); PackUnpack(a.value); Success(Unpack(a.value))
  }

  function Number32(a: Avp): Result<U32> {
    if |a.value| != 4 then Failure else WordSizes(); PackUnpack(a.value); Success(Unpack(a.value))
  }

  function Number64(a: Avp): Result<U64> {
    if |a.value| != 8 then Failure else WordSizes(); PackUnpack(a.value); Success(Unpack(a.value))
  }

  /** What the AVP decodes to, or None when there is no AVP. */
  function IfPresent<T>(a: Option<Avp>, decode: Avp -> Result<T>): Result<Option<T>> {
    if a.None? then Success(None)
    else
      var v :- decode(a.value);
      Success(Some(v))
  }

  function IfMissing<T>(a: Option<Avp>): Result<Avp> {
    if a.None? then Failure else Success(a.value)
  }

  function UnpackCapabilities(b: Bytes): seq<U16>
    requires |b| % 2 == 0
  {
    if b == [] then []
    else
      WordSizes();
      PackUnpack(b[..2]);
      [Unpack(b[..2])] + UnpackCapabilities(b[2..])
  }

  function DecodeCapabilities(a: Avp): Result<seq<U16>> {
    if |a.value| < 2 || |a.value| % 2 != 0 then Failure else Success(UnpackCapabilities(a.value))
  }

  function DecodeNonce(a: Avp): Result<Bytes> { if |a.value| < 1 then Failure else Success(a.value) }

  function DecodeCookie(a: Avp): Result<Cookie> {
    if |a.value| == 0 || |a.value| == 4 || |a.value| == 8 then Success(a.value) else Failure
  }

  function DecodeValue(a: Avp): Result<Bytes> { Success(a.value) }

  datatype ResultFields = ResultFields(result: U16, error: Option<U16>, message: Bytes)

  function DecodeResultCode(a: Avp): Result<ResultFields> {
    var v := a.value;
    if |v| < 2 then Failure
    else
      WordSizes();
      PackUnpack(v[..2]);
      if |v| < 4 then Success(ResultFields(Unpack(v[..2]), None, []))
      else
        PackUnpack(v[2..4]);
        Success(ResultFields(Unpack(v[..2]), Some(Unpack(v[2..4])), v[4..]))
  }

  function GetMessageType(avps: seq<Avp>): Result<Option<U16>> {
    IfPresent(Find(avps, MESSAGE_TYPE), Number16)
  }

  datatype SccrxFields = SccrxFields(
    routerId: U32, assignedCcid: U32, hostName: Bytes, pwCapabilities: seq<U16>,
    receiveWindow: Option<U16>, authNonce: Option<Bytes>)

  function ParseSccrx(avps: seq<Avp>): Result<SccrxFields> {
    var router :- IfMissing<Avp>(Find(avps, ROUTER_ID));
    var ccid :- IfMissing<Avp>(Find(avps, ASSIGNED_CONTROL_CONNECTION_ID));
    var host :- IfMissing<Avp>(Find(avps, HOST_NAME));
    var caps :- IfMissing<Avp>(Find(avps, PSEUDOWIRE_CAPABILITIES_LIST));
    var routerId :- Number32(router);
    var assignedCcid :- Number32(ccid);
    var pwCapabilities :- DecodeCapabilities(caps);
    var receiveWindow :- IfPresent(Find(avps, RECEIVE_WINDOW_SIZE), Number16);
    var authNonce :- IfPresent(Find(avps, CTL_MSG_AUTH_NONCE), DecodeNonce);
    Success(SccrxFields(routerId, assignedCcid, host.value, pwCapabilities, receiveWindow, authNonce))
  }

  datatype StopCcnFields = StopCcnFields(assignedCcid: U32, info: ResultFields)

  function ParseStopCcn(avps: seq<Avp>): Result<StopCcnFields> {
    var ccid :- IfMissing<Avp>(Find(avps, ASSIGNED_CONTROL_CONNECTION_ID));
    var code :- IfMissing<Avp>(Find(avps, RESULT_CODE));
    var info :- DecodeResultCode(code);
    var assignedCcid :- Number32(ccid);
    Success(StopCcnFields(assignedCcid, info))
  }

  datatype SessionFields = SessionFields(
    localSid: U32, remoteSid: U32, pseudowireType: Option<U16>, l2SpecificSublayer: Option<U16>,
    dataSequencing: Option<U16>, circuitStatus: Option<U16>, assignedCookie: Option<Cookie>,
    remoteEndId: Option<Bytes>, txConnectSpeed: Option<U64>, rxConnectSpeed: Option<U64>)

  function OrZero(n: Option<U32>): U32 { if n.None? then 0 else n.value }

  function ParseSession(avps: seq<Avp>): Result<SessionFields> {
    var local :- IfMissing<Avp>(Find(avps, LOCAL_SESSION_ID));
    var localSid :- Number32(local);
    var remoteSid :- IfPresent(Find(avps, REMOTE_SESSION_ID), Number32);
    var pseudowireType :- IfPresent(Find(avps, PSEUDOWIRE_TYPE), Number16);
    var l2SpecificSublayer :- IfPresent(Find(avps, L2_SPECIFIC_SUBLAYER), Number16);
    var dataSequencing :- IfPresent(Find(avps, DATA_SEQUENCING), Number16);
    var circuitStatus :- IfPresent(Find(avps, CIRCUIT_STATUS), Number16);
    var assignedCookie :- IfPresent(Find(avps, ASSIGNED_COOKIE), DecodeCookie);
    var remoteEndId :- IfPresent(Find(avps, REMOTE_END_ID), DecodeValue);
    var txConnectSpeed :- IfPresent(Find(avps, TX_CONNECT_SPEED), Number64);
    var rxConnectSpeed :- IfPresent(Find(avps, RX_CONNECT_SPEED), Number64);
    Success(SessionFields(localSid, OrZero(remoteSid), pseudowireType, l2SpecificSublayer, dataSequencing,
                          circuitStatus, assignedCookie, remoteEndId, txConnectSpeed, rxConnectSpeed))
  }

  datatype CdnFields = CdnFields(localSid: U32, remoteSid: U32, info: ResultFields)

  function ParseCdn(avps: seq<Avp>): Result<CdnFields> {
    var local :- IfMissing<Avp>(Find(avps, LOCAL_SESSION_ID));
    var code :- IfMissing<Avp>(Find(avps, RESULT_CODE));
    var info :- DecodeResultCode(code);
    var localSid :- Number32(local);
    var remoteSid :- IfPresent(Find(avps, REMOTE_SESSION_ID), Number32);
    Success(CdnFields(localSid, OrZero(remoteSid), info))
  }

  // ---- every field comes back --------------------------------------------------

  /** Slot i holds nothing, or an IETF AVP of type attrs[i]. */
  ghost predicate Keyed(slots: seq<Option<Avp>>, attrs: seq<int>) {
    |slots| == |attrs| && forall i :: 0 <= i < |slots| && slots[i].Some? ==> Matches(slots[i].value, attrs[i])
  }

  ghost predicate Distinct(attrs: seq<int>) {
    forall i, j :: 0 <= i < j < |attrs| ==> attrs[i] != attrs[j]
  }

  lemma {:induction false} FindMissing(slots: seq<Option<Avp>>, attrs: seq<int>, attr: int)
    requires Keyed(slots, attrs) && attr !in attrs
    ensures Find(Collect(slots), attr) == None
  {
    if slots != [] {
      assert forall i :: 0 <= i < |slots| - 1 ==> slots[1..][i] == slots[i + 1] && attrs[1..][i] == attrs[i + 1];
      FindMissing(slots[1..], attrs[1..], attr);
      FindConcat(if slots[0].Some? then [slots[0].value] else [], Collect(slots[1..]), attr);
    }
  }

  lemma {:induction false} FindCollected(slots: seq<Option<Avp>>, attrs: seq<int>, k: nat)
    requires Keyed(slots, attrs) && Distinct(attrs) && k < |slots|
    ensures Find(Collect(slots), attrs[k]) == slots[k]
  {
    assert forall i :: 0 <= i < |slots| - 1 ==> slots[1..][i] == slots[i + 1] && attrs[1..][i] == attrs[i + 1];
    FindConcat(if slots[0].Some? then [slots[0].value] else [], Collect(slots[1..]), attrs[k]);
    if k > 0 {
      FindCollected(slots[1..], attrs[1..], k - 1);
    } else if slots[0].None? {
      FindMissing(slots[1..], attrs[1..], attrs[0]);
    }
  }

  lemma FindEach(slots: seq<Option<Avp>>, attrs: seq<int>)
    requires Keyed(slots, attrs) && Distinct(attrs)
    ensures forall k :: 0 <= k < |slots| ==> Find(Collect(slots), attrs[k]) == slots[k]
    ensures forall attr :: attr !in attrs ==> Find(Collect(slots), attr) == None
  {
    forall k | 0 <= k < |slots| ensures Find(Collect(slots), attrs[k]) == slots[k] {
      FindCollected(slots, attrs, k);
    }
    forall attr | attr !in attrs ensures Find(Collect(slots), attr) == None {
      FindMissing(slots, attrs, attr);
    }
  }

  lemma {:induction false} CapabilitiesSurvive(types: seq<U16>)
    ensures |PackCapabilities(types)| == 2 * |types|
    ensures UnpackCapabilities(PackCapabilities(types)) == types
  {
    if types != [] {
      CapabilitiesSurvive(types[1..]);
      WordSizes();
      UnpackPack(types[0], 2);
      var b := PackCapabilities(types);
      assert b[..2] == Pack(types[0], 2) && b[2..] == PackCapabilities(types[1..]);
    }
  }

  lemma NumbersSurvive16(attr: int, n: U16, mandatory: bool)
    ensures Number16(Avp(attr, Pack(n, 2), mandatory, false, VENDOR_IETF)) == Success(n)
  {
    WordSizes();
    UnpackPack(n, 2);
  }

  lemma NumbersSurvive32(attr: int, n: U32)
    ensures Number32(Avp(attr, Pack(n, 4), true, false, VENDOR_IETF)) == Success(n)
  {
    WordSizes();
    UnpackPack(n, 4);
  }

  lemma NumbersSurvive64(attr: int, n: U64)
    ensures Number64(Avp(attr, Pack(n, 8), true, false, VENDOR_IETF)) == Success(n)
  {
    WordSizes();
    UnpackPack(n, 8);
  }

  ghost function Fields(info: ResultInfo): ResultFields {
    if info.Bare? then ResultFields(info.result, None, [])
    else ResultFields(info.result, Some(info.error), info.message)
  }

  lemma ResultSurvives(a: Avp, info: ResultInfo)
    requires a.value == info.Pack'()
    ensures DecodeResultCode(a) == Success(Fields(info))
  {
    WordSizes();
    UnpackPack(info.result, 2);
    assert a.value[..2] == Pack(info.result, 2);
    if info.WithError? {
      UnpackPack(info.error, 2);
      assert a.value[2..4] == Pack(info.error, 2) && a.value[4..] == info.message;
    }
  }

  ghost const SCCRX_ATTRS: seq<int> :=
    [MESSAGE_TYPE, ROUTER_ID, ASSIGNED_CONTROL_CONNECTION_ID, PSEUDOWIRE_CAPABILITIES_LIST, HOST_NAME,
     RECEIVE_WINDOW_SIZE, VENDOR_NAME, FIRMWARE_REVISION, CTL_MSG_AUTH_NONCE]

  ghost const STOPCCN_ATTRS: seq<int> := [MESSAGE_TYPE, ASSIGNED_CONTROL_CONNECTION_ID, RESULT_CODE]

  ghost const SESSION_ATTRS: seq<int> :=
    [MESSAGE_TYPE, LOCAL_SESSION_ID, REMOTE_SESSION_ID, PSEUDOWIRE_TYPE, L2_SPECIFIC_SUBLAYER, DATA_SEQUENCING,
     CIRCUIT_STATUS, REMOTE_END_ID, ASSIGNED_COOKIE, TX_CONNECT_SPEED, RX_CONNECT_SPEED]

  ghost const CDN_ATTRS: seq<int> := [MESSAGE_TYPE, LOCAL_SESSION_ID, REMOTE_SESSION_ID, RESULT_CODE]

  lemma SccrxFound(messageType: U16, args: SccrxArgs)
    ensures var slots, avps := SccrxSlots(messageType, args), BuildSccrx(messageType, args);
            && Find(avps, MESSAGE_TYPE) == slots[0] && Find(avps, ROUTER_ID) == slots[1]
            && Find(avps, ASSIGNED_CONTROL_CONNECTION_ID) == slots[2]
            && Find(avps, PSEUDOWIRE_CAPABILITIES_LIST) == slots[3] && Find(avps, HOST_NAME) == slots[4]
            && Find(avps, RECEIVE_WINDOW_SIZE) == slots[5] && Find(avps, CTL_MSG_AUTH_NONCE) == slots[8]
  {
    hide Find, Collect, Pack;
    var slots := SccrxSlots(messageType, args);
    FindEach(slots, SCCRX_ATTRS);
    assert SCCRX_ATTRS[0] == MESSAGE_TYPE && SCCRX_ATTRS[1] == ROUTER_ID && SCCRX_ATTRS[2] == ASSIGNED_CONTROL_CONNECTION_ID;
    assert SCCRX_ATTRS[3] == PSEUDOWIRE_CAPABILITIES_LIST && SCCRX_ATTRS[4] == HOST_NAME;
    assert SCCRX_ATTRS[5] == RECEIVE_WINDOW_SIZE && SCCRX_ATTRS[8] == CTL_MSG_AUTH_NONCE;
  }

  lemma SccrxSurvives(messageType: U16, args: SccrxArgs)
    ensures GetMessageType(BuildSccrx(messageType, args)) == Success(Some(messageType))
    ensures ParseSccrx(BuildSccrx(messageType, args))
            == Success(SccrxFields(args.routerId, args.assignedCcid, args.hostName, args.pwCapabilities,
                                   Some(args.receiveWindow), args.authNonce))
  {
    hide Find, Collect, Pack, Unpack, Number16, Number32, BuildSccrx, UnpackCapabilities, PackCapabilities;
    SccrxFound(messageType, args);
    NumbersSurvive16(MESSAGE_TYPE, messageType, true);
    NumbersSurvive32(ROUTER_ID, args.routerId);
    NumbersSurvive32(ASSIGNED_CONTROL_CONNECTION_ID, args.assignedCcid);
    NumbersSurvive16(RECEIVE_WINDOW_SIZE, args.receiveWindow, true);
    CapabilitiesSurvive(args.pwCapabilities);
  }

  lemma BareSurvives(messageType: U16)
    ensures GetMessageType(BuildBare(messageType)) == Success(Some(messageType))
  {
    NumbersSurvive16(MESSAGE_TYPE, messageType, true);
    FindCollected([RequiredNumber(MESSAGE_TYPE, messageType, 2)], [MESSAGE_TYPE], 0);
  }

  lemma StopCcnSurvives(assignedCcid: U32, info: ResultInfo)
    ensures GetMessageType(BuildStopCcn(assignedCcid, info)) == Success(Some(STOPCCN))
    ensures ParseStopCcn(BuildStopCcn(assignedCcid, info)) == Success(StopCcnFields(assignedCcid, Fields(info)))
  {
    hide Find, Collect, Pack, Unpack, Number16, Number32, DecodeResultCode;
    var slots := StopCcnSlots(assignedCcid, info);
    FindEach(slots, STOPCCN_ATTRS);
    assert STOPCCN_ATTRS[0] == MESSAGE_TYPE && STOPCCN_ATTRS[1] == ASSIGNED_CONTROL_CONNECTION_ID && STOPCCN_ATTRS[2] == RESULT_CODE;
    NumbersSurvive16(MESSAGE_TYPE, STOPCCN, true);
    NumbersSurvive32(ASSIGNED_CONTROL_CONNECTION_ID, assignedCcid);
    ResultSurvives(slots[2].value, info);
  }

  lemma SessionFound(messageType: U16, args: SessionArgs)
    ensures var slots, avps := SessionSlots(messageType, args), BuildSession(messageType, args);
            && Find(avps, MESSAGE_TYPE) == slots[0] && Find(avps, LOCAL_SESSION_ID) == slots[1]
            && Find(avps, REMOTE_SESSION_ID) == slots[2] && Find(avps, PSEUDOWIRE_TYPE) == slots[3]
            && Find(avps, L2_SPECIFIC_SUBLAYER) == slots[4] && Find(avps, DATA_SEQUENCING) == slots[5]
            && Find(avps, CIRCUIT_STATUS) == slots[6] && Find(avps, REMOTE_END_ID) == slots[7]
            && Find(avps, ASSIGNED_COOKIE) == slots[8] && Find(avps, TX_CONNECT_SPEED) == slots[9]
            && Find(avps, RX_CONNECT_SPEED) == slots[10]
            && Find(avps, ASSIGNED_CONTROL_CONNECTION_ID) == None
  {
    hide Find, Collect, Pack;
    var slots := SessionSlots(messageType, args);
    FindEach(slots, SESSION_ATTRS);
    assert SESSION_ATTRS[0] == MESSAGE_TYPE && SESSION_ATTRS[1] == LOCAL_SESSION_ID && SESSION_ATTRS[2] == REMOTE_SESSION_ID;
    assert SESSION_ATTRS[3] == PSEUDOWIRE_TYPE && SESSION_ATTRS[4] == L2_SPECIFIC_SUBLAYER && SESSION_ATTRS[5] == DATA_SEQUENCING;
    assert SESSION_ATTRS[6] == CIRCUIT_STATUS && SESSION_ATTRS[7] == REMOTE_END_ID && SESSION_ATTRS[8] == ASSIGNED_COOKIE;
    assert SESSION_ATTRS[9] == TX_CONNECT_SPEED && SESSION_ATTRS[10] == RX_CONNECT_SPEED;
    assert ASSIGNED_CONTROL_CONNECTION_ID !in SESSION_ATTRS;
  }

  lemma SessionSurvives(messageType: U16, args: SessionArgs)
    ensures GetMessageType(BuildSession(messageType, args)) == Success(Some(messageType))
    ensures ParseSession(BuildSession(messageType, args))
            == Success(SessionFields(args.localSid, args.remoteSid, args.pseudowireType, Some(args.l2SpecificSublayer),
                                     Some(args.dataSequencing), Some(args.circuitStatus), args.assignedCookie,
                                     args.remoteEndId, args.txConnectSpeed, args.rxConnectSpeed))
  {
    hide Find, Collect, Pack, Unpack, Number16, Number32, Number64, BuildSession;
    SessionFound(messageType, args);
    NumbersSurvive16(MESSAGE_TYPE, messageType, true);
    NumbersSurvive32(LOCAL_SESSION_ID, args.localSid);
    NumbersSurvive32(REMOTE_SESSION_ID, args.remoteSid);
    NumbersSurvive16(L2_SPECIFIC_SUBLAYER, args.l2SpecificSublayer, true);
    NumbersSurvive16(DATA_SEQUENCING, args.dataSequencing, true);
    NumbersSurvive16(CIRCUIT_STATUS, args.circuitStatus, true);
    if args.pseudowireType.Some? { NumbersSurvive16(PSEUDOWIRE_TYPE, args.pseudowireType.value, true); }
    if args.txConnectSpeed.Some? { NumbersSurvive64(TX_CONNECT_SPEED, args.txConnectSpeed.value); }
    if args.rxConnectSpeed.Some? { NumbersSurvive64(RX_CONNECT_SPEED, args.rxConnectSpeed.value); }
  }

  lemma CdnSurvives(localSid: U32, remoteSid: U32, info: ResultInfo)
    ensures GetMessageType(BuildCdn(localSid, remoteSid, info)) == Success(Some(CDN))
    ensures ParseCdn(BuildCdn(localSid, remoteSid, info)) == Success(CdnFields(localSid, remoteSid, Fields(info)))
    ensures Find(BuildCdn(localSid, remoteSid, info), ASSIGNED_COOKIE) == None
    ensures Find(BuildCdn(localSid, remoteSid, info), ASSIGNED_CONTROL_CONNECTION_ID) == None
  {
    hide Find, Collect, Pack, Unpack, Number16, Number32, DecodeResultCode;
    var slots := CdnSlots(localSid, remoteSid, info);
    FindEach(slots, CDN_ATTRS);
    assert CDN_ATTRS[0] == MESSAGE_TYPE && CDN_ATTRS[1] == LOCAL_SESSION_ID && CDN_ATTRS[2] == REMOTE_SESSION_ID && CDN_ATTRS[3] == RESULT_CODE;
    NumbersSurvive16(MESSAGE_TYPE, CDN, true);
    NumbersSurvive32(LOCAL_SESSION_ID, localSid);
    NumbersSurvive32(REMOTE_SESSION_ID, remoteSid);
    ResultSurvives(slots[3].value, info);
  }

  /** Each typed message, framed and put on the wire, parses back to the values it was built from. */
  lemma TypedMessagesSurviveWire(m: ControlMessage, buf: Bytes)
    requires ToWire(m) == Success(buf)
    ensures FromWire(buf) == Success(m)
    ensures forall t: U16, args: SccrxArgs :: m.avps == BuildSccrx(t, args) ==>
              && GetMessageType(FromWire(buf).value.avps) == Success(Some(t))
              && ParseSccrx(FromWire(buf).value.avps)
                 == Success(SccrxFields(args.routerId, args.assignedCcid, args.hostName, args.pwCapabilities,
                                        Some(args.receiveWindow), args.authNonce))
    ensures forall t: U16, args: SessionArgs :: m.avps == BuildSession(t, args) ==>
              && GetMessageType(FromWire(buf).value.avps) == Success(Some(t))
              && ParseSession(FromWire(buf).value.avps)
                 == Success(SessionFields(args.localSid, args.remoteSid, args.pseudowireType,
                                          Some(args.l2SpecificSublayer), Some(args.dataSequencing), Some(args.circuitStatus),
                                          args.assignedCookie, args.remoteEndId, args.txConnectSpeed, args.rxConnectSpeed))
    ensures forall ccid: U32, info :: m.avps == BuildStopCcn(ccid, info) ==>
              ParseStopCcn(FromWire(buf).value.avps) == Success(StopCcnFields(ccid, Fields(info)))
    ensures forall local: U32, remote: U32, info :: m.avps == BuildCdn(local, remote, info) ==>
              ParseCdn(FromWire(buf).value.avps) == Success(CdnFields(local, remote, Fields(info)))
  {
    hide ToWire, FromWire, BuildSccrx, BuildSession, BuildStopCcn, BuildCdn, ParseSccrx, ParseSession, ParseStopCcn, ParseCdn, GetMessageType;
    WireIsCanonical(m, buf);
    forall t: U16, args: SccrxArgs | m.avps == BuildSccrx(t, args) { SccrxSurvives(t, args); }
    forall t: U16, args: SessionArgs | m.avps == BuildSession(t, args) { SessionSurvives(t, args); }
    forall ccid: U32, info | m.avps == BuildStopCcn(ccid, info) { StopCcnSurvives(ccid, info); }
    forall local: U32, remote: U32, info | m.avps == BuildCdn(local, remote, info) { CdnSurvives(local, remote, info); }
  }

  // ---- exactly when parsing fails ----------------------------------------------

  ghost predicate Sized(a: Option<Avp>, n: nat) { a.Some? && |a.value.value| == n }

  ghost predicate SizedOrNone(a: Option<Avp>, n: nat) { a.None? || |a.value.value| == n }

  ghost predicate AtLeast(a: Option<Avp>, n: nat) { a.Some? && |a.value.value| >= n }

  /** The Message Type is unreadable only when it is there and not two octets. */
  lemma MessageTypeReadsExactly(avps: seq<Avp>)
    ensures GetMessageType(avps).Success? <==> SizedOrNone(Find(avps, MESSAGE_TYPE), 2)
    ensures GetMessageType(avps) == Success(None) <==> Find(avps, MESSAGE_TYPE).None?
  {
    hide Find;
  }

  lemma SccrxParsesExactly(avps: seq<Avp>)
    ensures ParseSccrx(avps).Success? <==>
            && Sized(Find(avps, ROUTER_ID), 4) && Sized(Find(avps, ASSIGNED_CONTROL_CONNECTION_ID), 4) && Find(avps, HOST_NAME).Some?
            && AtLeast(Find(avps, PSEUDOWIRE_CAPABILITIES_LIST), 2) && |Find(avps, PSEUDOWIRE_CAPABILITIES_LIST).value.value| % 2 == 0
            && SizedOrNone(Find(avps, RECEIVE_WINDOW_SIZE), 2)
            && (Find(avps, CTL_MSG_AUTH_NONCE).None? || AtLeast(Find(avps, CTL_MSG_AUTH_NONCE), 1))
  {
    hide Find, Unpack, UnpackCapabilities;
  }

  lemma TeardownParsesExactly(avps: seq<Avp>)
    ensures ParseStopCcn(avps).Success? <==> Sized(Find(avps, ASSIGNED_CONTROL_CONNECTION_ID), 4) && AtLeast(Find(avps, RESULT_CODE), 2)
    ensures ParseCdn(avps).Success? <==>
            Sized(Find(avps, LOCAL_SESSION_ID), 4) && AtLeast(Find(avps, RESULT_CODE), 2) && SizedOrNone(Find(avps, REMOTE_SESSION_ID), 4)
  {
    hide Find, Unpack;
  }

  lemma SessionParsesExactly(avps: seq<Avp>)
    ensures ParseSession(avps).Success? <==>
            && Sized(Find(avps, LOCAL_SESSION_ID), 4) && SizedOrNone(Find(avps, REMOTE_SESSION_ID), 4)
            && SizedOrNone(Find(avps, PSEUDOWIRE_TYPE), 2) && SizedOrNone(Find(avps, L2_SPECIFIC_SUBLAYER), 2)
            && SizedOrNone(Find(avps, DATA_SEQUENCING), 2) && SizedOrNone(Find(avps, CIRCUIT_STATUS), 2)
            && SizedOrNone(Find(avps, TX_CONNECT_SPEED), 8) && SizedOrNone(Find(avps, RX_CONNECT_SPEED), 8)
            && (SizedOrNone(Find(avps, ASSIGNED_COOKIE), 0) || Sized(Find(avps, ASSIGNED_COOKIE), 4) || Sized(Find(avps, ASSIGNED_COOKIE), 8))
  {
    hide Find, Unpack;
  }

  /** What is left out reads as None, the Remote Session ID as 0; what is there does not. */
  lemma OptionalFieldsRead(avps: seq<Avp>)
    ensures ParseSession(avps).Success? ==>
              var f := ParseSession(avps).value;
              && (Find(avps, REMOTE_SESSION_ID).None? ==> f.remoteSid == 0)
              && (f.pseudowireType.None? <==> Find(avps, PSEUDOWIRE_TYPE).None?) && (f.circuitStatus.None? <==> Find(avps, CIRCUIT_STATUS).None?)
              && (f.l2SpecificSublayer.None? <==> Find(avps, L2_SPECIFIC_SUBLAYER).None?)
              && (f.dataSequencing.None? <==> Find(avps, DATA_SEQUENCING).None?)
              && (f.assignedCookie.None? <==> Find(avps, ASSIGNED_COOKIE).None?) && (f.remoteEndId.None? <==> Find(avps, REMOTE_END_ID).None?)
              && (f.txConnectSpeed.None? <==> Find(avps, TX_CONNECT_SPEED).None?) && (f.rxConnectSpeed.None? <==> Find(avps, RX_CONNECT_SPEED).None?)
    ensures ParseCdn(avps).Success? && Find(avps, REMOTE_SESSION_ID).None? ==> ParseCdn(avps).value.remoteSid == 0
  {
    hide Find, Unpack;
  }

  // ---- which of them fit -------------------------------------------------------

  ghost predicate Fits(slot: Option<Avp>) { slot.Some? ==> Encodable(slot.value, NoSecret, None) }

  lemma {:induction false} CollectedEncode(slots: seq<Option<Avp>>)
    ensures EncodeAll(Collect(slots), NoSecret, None).Success? <==> forall i :: 0 <= i < |slots| ==> Fits(slots[i])
    ensures EncodeAll(Collect(slots), NoSecret, None).Success? ==>
              |EncodeAll(Collect(slots), NoSecret, None).value| <= AVP_MAX_LEN * |slots|
  {
    hide Encode, Encodable;
    if slots != [] {
      CollectedEncode(slots[1..]);
      assert forall i :: 0 <= i < |slots| - 1 ==> slots[1..][i] == slots[i + 1];
      assert forall i :: 1 <= i < |slots| ==> slots[i] == slots[1..][i - 1];
      if slots[0].Some? {
        EncodeSucceeds(slots[0].value, NoSecret, None);
        assert Collect(slots)[1..] == Collect(slots[1..]);
      } else {
        assert Collect(slots) == Collect(slots[1..]);
      }
    }
  }

  /** An SCCRQ or SCCRP can be sent exactly when each variable-length value fits one AVP. */
  lemma SccrxEncodes(m: ControlMessage, messageType: U16, args: SccrxArgs)
    requires m.FieldsInRange() && m.avps == BuildSccrx(messageType, args)
    ensures ToWire(m).Success? <==>
            && |args.hostName| <= 1017 && |args.pwCapabilities| <= 508
            && (args.vendorName.Some? ==> |args.vendorName.value| <= 1017)
            && (args.authNonce.Some? ==> |args.authNonce.value| <= 1017)
  {
    hide EncodeAll, Collect, Pack, PackCapabilities;
    var slots := SccrxSlots(messageType, args);
    CollectedEncode(slots);
    CapabilitiesSurvive(args.pwCapabilities);
    assert |slots| == 9;
    assert ToWire(m).Success? <==> forall i :: 0 <= i < |slots| ==> Fits(slots[i]);
    assert (forall i :: 0 <= i < |slots| ==> Fits(slots[i])) <==>
           Fits(slots[3]) && Fits(slots[4]) && Fits(slots[6]) && Fits(slots[8]);
  }

  /** A session message can be sent exactly when the Remote End ID fits one AVP. */
  lemma SessionEncodes(m: ControlMessage, messageType: U16, args: SessionArgs)
    requires m.FieldsInRange() && m.avps == BuildSession(messageType, args)
    ensures ToWire(m).Success? <==> (args.remoteEndId.Some? ==> |args.remoteEndId.value| <= 1017)
  {
    hide EncodeAll, Collect, Pack;
    var slots := SessionSlots(messageType, args);
    CollectedEncode(slots);
    assert |slots| == 11;
    assert (forall i :: 0 <= i < |slots| ==> Fits(slots[i])) <==> Fits(slots[7]);
  }

  /** StopCCN and CDN can be sent exactly when the error text, if any, leaves room for both codes. */
  lemma TeardownEncodes(m: ControlMessage, ccid: U32, local: U32, remote: U32, info: ResultInfo)
    requires m.FieldsInRange()
    requires m.avps == BuildStopCcn(ccid, info) || m.avps == BuildCdn(local, remote, info)
    ensures ToWire(m).Success? <==> (info.WithError? ==> |info.message| <= 1013)
  {
    hide EncodeAll, Collect, Pack;
    var stop, cdn := StopCcnSlots(ccid, info), CdnSlots(local, remote, info);
    CollectedEncode(stop);
    CollectedEncode(cdn);
    assert |stop| == 3 && |cdn| == 4;
    assert (forall i :: 0 <= i < |stop| ==> Fits(stop[i])) <==> Fits(stop[2]);
    assert (forall i :: 0 <= i < |cdn| ==> Fits(cdn[i])) <==> Fits(cdn[3]);
  }

  /** SCCCN and HELLO can always be sent. */
  lemma BareEncodes(m: ControlMessage, messageType: U16)
    requires m.FieldsInRange() && m.avps == BuildBare(messageType)
    ensures ToWire(m).Success?
  {
    hide EncodeAll, Collect, Pack;
    CollectedEncode([RequiredNumber(MESSAGE_TYPE, messageType, 2)]);
  }
}
