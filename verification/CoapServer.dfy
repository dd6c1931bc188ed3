/**
 The CoAP server session of coap_server.c: reassembly of blocks into USP records.

 Functions on the value Session give the meaning of each operation; CoapServerObject.ServerSession is the
 object the source updates in place, each method proved to do what its function says.
 */
module CoapServer {
  import opened CommonDefs
  import opened CoapCodec

  const MAX_USP_MSG_LEN := 5 * 1024 * 1024

  const CLASS_REQUEST := 0
  const CLASS_SUCCESS := 2
  const CLASS_CLIENT_ERROR := 4
  const METHOD_GET := 1
  const METHOD_POST := 2
  const CODE_CHANGED := 4
  const CODE_CONTENT := 5
  const CODE_CONTINUE := 31

  /** Fixed properties of the server, and the foreign functions it calls. */
  datatype Config = Config(
    resource: bytes,           // listen_resource
    wellKnown: bytes,          // the path ".well-known/core"
    rxSize: nat,               // COAP_CLIENT_PAYLOAD_RX_SIZE
    queryOk: bytes -> bool,    // ParseCoapUriQuery
    unpacks: bytes -> bool     // usp_record__record__unpack
  ) {
    predicate Valid() {
      ValidBlockSize(rxSize)
    }
  }

  /** What COAP_GetErrMessage returns: the contents of a C string buffer */
  type ErrMessage = t: bytes | |t| < COAP_ERR_MESSAGE_SIZE

  const COAP_ERR_MESSAGE_SIZE := 256

  /** What the outside world decides while one PDU is handled. */
  datatype Env = Env(sendOk: bool, replyToOk: bool, text: ErrMessage)

  datatype Response = Response(mid: nat, pdu: bytes)

  /** The fields of coap_server_session_t that reassembly uses. */
  datatype Session = Session(buf: bytes, count: nat, blockSize: nat, token: bytes, last: Option<Response>)

  /** InitCoapSession */
  const FRESH := Session([], 0, 0, [], None)

  /** FreeReceivedUspRecord */
  function FreeRecord(s: Session): Session {
    s.(buf := [], count := 0, blockSize := 0)
  }

  datatype Handled = Handled(s: Session, flags: set<Action>)

  /** AppendCoapPayload; no flags means the payload was appended. */
  function Append(s: Session, p: Pdu): Handled {
    if |s.buf| + |p.payload| > MAX_USP_MSG_LEN then Handled(s, {SendAck, TooLarge})
    else Handled(s.(buf := s.buf + p.payload, count := s.count + 1), {})
  }

  predicate WrongContent(p: Pdu) {
    p.contentFormat.Some? && p.contentFormat.value != OCTET_STREAM
  }

  function CompleteUnless(more: bool): set<Action> {
    if more then {SendAck} else {SendAck, UspRecordComplete}
  }

  /** HandleFirstCoapBlock */
  function HandleFirst(cfg: Config, s: Session, p: Pdu): Handled {
    if WrongContent(p) then Handled(s, {SendAck, BadContent})
    else if p.uriPath != Some(cfg.resource) then Handled(s, {SendAck, NotFound})
    else if p.uriQuery.None? then Handled(s, {SendAck, BadRequest})
    else if p.size1.Some? && p.size1.value > MAX_USP_MSG_LEN then Handled(s, {SendAck, TooLarge})
    else
      var s1 := s.(token := p.token);
      if p.block1.None? then
        var a := Append(s1, p);
        if a.flags != {} then a else Handled(a.s, CompleteUnless(false))
      else
        var b := p.block1.value;
        if b.num != 0 then Handled(s1, {SendAck, Incomplete})
        else if |p.token| == 0 then Handled(s1, {SendRst})
        else if b.more && |p.payload| != b.size then Handled(s1, {SendAck, Incomplete})
        else
          var a := Append(s1.(blockSize := b.size, count := 0), p);
          if a.flags != {} then a else Handled(a.s, CompleteUnless(b.more))
  }

  /** HandleSubsequentCoapBlock */
  function HandleSubsequent(cfg: Config, s: Session, p: Pdu): Handled {
    if p.token != s.token then HandleFirst(cfg, s, p)
    else if WrongContent(p) then Handled(s, {SendAck, BadContent})
    else if p.uriPath.Some? && p.uriPath.value != cfg.resource then Handled(s, {SendAck, NotFound})
    else if p.uriQuery.None? then Handled(s, {SendAck, BadRequest})
    else if p.block1.None? then Handled(s, {SendAck, BadRequest})
    else
      var b := p.block1.value;
      if |p.payload| > b.size then Handled(s, {SendAck, BadRequest})
      else if b.more && |p.payload| != b.size then Handled(s, {SendAck, BadRequest})
      else if b.size > s.blockSize then Handled(s, {SendAck, Incomplete})
      else
        var s1 := s.(blockSize := b.size);
        if b.num < s.count then Handled(s1, {SendAck})
        else if b.num > s.count then Handled(s1, {SendAck, Incomplete})
        else
          var a := Append(s1, p);
          if a.flags != {} then a else Handled(a.s, CompleteUnless(b.more))
  }

  /** A POST of (part of) a record: the first or a later block, then the unpacking check. */
  function HandleBlock(cfg: Config, s: Session, p: Pdu): Handled {
    var h := if s.count == 0 then HandleFirst(cfg, s, p) else HandleSubsequent(cfg, s, p);
    if UspRecordComplete in h.flags && !cfg.unpacks(h.s.buf) then Handled(h.s, {SendAck, BadRequest}) else h
  }

  /** CalcCoapServerActions */
  function Actions(cfg: Config, s: Session, p: Pdu): Handled {
    if s.last.Some? && p.hdr.mid == s.last.value.mid then Handled(s, {ResendLastResponse})
    else if p.hdr.pduType.Reset? then Handled(s, {ResetState})
    else if !p.hdr.pduType.Confirmable? then Handled(s, {SendRst})
    else if p.hdr.cls != CLASS_REQUEST then Handled(s, {SendRst})
    else if p.hdr.code == METHOD_GET && p.uriPath == Some(cfg.wellKnown) then Handled(s, {SendAck, WellKnown})
    else if p.hdr.code != METHOD_POST then Handled(s, {SendAck, BadMethod})
    else HandleBlock(cfg, s, p)
  }

  // ---------------------------------------------------------------- responses

  /** The response code of CalcCoapClassForAck */
  function AckCode(hasBlock: bool, flags: set<Action>): (code: nat)
    ensures code < 32
  {
    if BadRequest in flags then 0
    else if BadOption in flags then 2
    else if NotFound in flags then 4
    else if BadMethod in flags then 5
    else if Incomplete in flags then 8
    else if TooLarge in flags then 13
    else if BadContent in flags then 15
    else if WellKnown in flags then CODE_CONTENT
    else if UspRecordComplete in flags then CODE_CHANGED
    else if hasBlock then CODE_CONTINUE
    else CODE_CONTENT
  }

  function AckHeader(p: Pdu, flags: set<Action>): (h: Header)
    requires |p.token| <= MAX_COAP_TOKEN_SIZE && p.hdr.Valid()
    ensures Encodable(h, p.token)
  {
    Header(Acknowledgement, |p.token|, if IndicatesError(flags) then CLASS_CLIENT_ERROR else CLASS_SUCCESS,
           AckCode(p.block1.Some?, flags), p.hdr.mid)
  }

  /** The sizes a Block1 option can announce: the seven sizes, or 2048 for the reserved code. */
  predicate Parseable(p: Pdu) {
    && p.hdr.Valid() && |p.token| <= MAX_COAP_TOKEN_SIZE
    && (p.block1.Some? ==> var b := p.block1.value;
          b.num < 0x10_0000 && (ValidBlockSize(b.size) || b.size == 2048))
  }

  function AckOptions(cfg: Config, p: Pdu, flags: set<Action>): (o: seq<Opt>)
    requires cfg.Valid() && Parseable(p)
    ensures AllWritable(0, o)
  {
    if WellKnown in flags then [Opt(CONTENT_FORMAT, [40])]
    else if IndicatesError(flags) then []
    else
      (if p.block1.Some? && p.block1.value.more then
         var b := p.block1.value;
         [Opt(BLOCK1, EncodeBlock(Block(b.num, b.more, Min(cfg.rxSize, b.size))))]
       else [])
      + LimitOption(flags)
  }

  /** The Size1 option that is to tell the sender the largest record accepted */
  function LimitOption(flags: set<Action>): seq<Opt> {
    if TooLarge in flags then [Opt(SIZE1, Store(4, MAX_USP_MSG_LEN))] else []
  }

  /** The Size1 option is never written: the flag that asks for it is an error, and errors carry no options. */
  lemma NoSize1InAck(cfg: Config, p: Pdu, flags: set<Action>)
    requires cfg.Valid() && Parseable(p)
    ensures forall o :: o in AckOptions(cfg, p, flags) ==> o.num != SIZE1
    ensures !IndicatesError(flags) ==> LimitOption(flags) == []
  {
  }

  /** WriteCoapAck; text is what COAP_GetErrMessage returns. */
  function WriteAck(cfg: Config, p: Pdu, flags: set<Action>, text: bytes): bytes
    requires cfg.Valid() && Parseable(p)
  {
    EncodePdu(AckHeader(p, flags), p.token, AckOptions(cfg, p, flags),
              if IndicatesError(flags) || WellKnown in flags then Some(text) else None)
  }

  /** COAP_WriteRst */
  function WriteRst(mid: nat, token: bytes): bytes
    requires mid < 0x1_0000 && |token| <= MAX_COAP_TOKEN_SIZE
  {
    EncodePdu(Header(Reset, |token|, 0, 0, mid), token, [], None)
  }

  // ---------------------------------------------------------------- one received datagram

  datatype Step = Step(s: Session, sent: Option<bytes>, posted: Option<bytes>)

  function Sent(env: Env, pdu: bytes): Option<bytes> {
    if env.sendOk then Some(pdu) else None
  }

  /** The actions of ReceiveCoapBlock, in its order, given the flags. */
  function Act(cfg: Config, s: Session, p: Pdu, flags: set<Action>, env: Env): Step
    requires cfg.Valid() && Parseable(p)
  {
    var ack := WriteAck(cfg, p, flags, env.text);
    var sent :=
      if SendRst in flags then Sent(env, WriteRst(p.hdr.mid, p.token))
      else if ResendLastResponse in flags && s.last.Some? then Sent(env, s.last.value.pdu)
      else if SendAck in flags then Sent(env, ack)
      else None;
    var s1 := if SendAck in flags then s.(last := Some(Response(p.hdr.mid, ack))) else s;
    var posts := UspRecordComplete in flags && env.replyToOk;
    var reset :=
      || SendRst in flags || ResetState in flags
      || (ResendLastResponse in flags && !env.sendOk)
      || (SendAck in flags && (!env.sendOk || IndicatesError(flags)));
    Step(if posts || reset then FreeRecord(s1) else s1, sent, if posts then Some(s.buf) else None)
  }

  /** ReceiveCoapBlock on one datagram */
  function Receive(cfg: Config, s: Session, data: bytes, env: Env): Step
    requires cfg.Valid()
  {
    var r := ParsePdu(data, cfg.queryOk);
    ParsedIsParseable(data, cfg.queryOk);
    if r.flags != {} then Act(cfg, s, r.pdu, r.flags, env)
    else
      var h := Actions(cfg, s, r.pdu);
      Act(cfg, h.s, r.pdu, h.flags, env)
  }

  lemma {:induction false} OptionListParseable(opts: seq<Opt>, p: Pdu, queryOk: bytes -> bool)
    requires Parseable(p)
    ensures Parseable(ParseOptionList(opts, p, queryOk).pdu)
    decreases |opts|
  {
    if opts == [] {
    } else {
      OptionListParseable(opts[1..], ParseOption(opts[0], p, queryOk).pdu, queryOk);
    }
  }

  lemma {:induction false} OptionsParseable(buf: bytes, cur: nat, p: Pdu, queryOk: bytes -> bool)
    requires Parseable(p)
    ensures Parseable(ParseOptions(buf, cur, p, queryOk).0.pdu)
    decreases |buf|
  {
    hide WalkOption;
    if buf != [] && buf[0] != END_MARKER {
      var w := WalkOption(buf, cur);
      if w.Some? {
        OptionsParseable(w.value.rest, w.value.opt.num, ParseOption(w.value.opt, p, queryOk).pdu, queryOk);
      }
    }
  }

  lemma ParsedIsParseable(data: bytes, queryOk: bytes -> bool)
    ensures Parseable(ParsePdu(data, queryOk).pdu)
  {
    hide ParseOptions, DecodeHeader, Version;
    if |data| >= COAP_HEADER_SIZE {
      var h := DecodeHeader(data[..COAP_HEADER_SIZE]);
      var body := data[COAP_HEADER_SIZE..];
      if h.tokenSize <= MAX_COAP_TOKEN_SIZE && h.tokenSize <= |body| {
        OptionsParseable(body[h.tokenSize..], 0, EmptyPdu(h).(token := body[..h.tokenSize]), queryOk);
      }
    }
  }
}
