/**
 What the CoAP server answers to each datagram, and when it takes a block or hands a record over: said of the datagram
 as it parses and of the answer as it is read, not of the functions in between.
 */
module CoapServerReplies {
  import opened CommonDefs
  import opened CoapCodec
  import opened CoapServer
  import B = CoapBlockPdu
  import CoapServerProofs

  // ---------------------------------------------------------------- what a datagram asks for

  /** A confirmable POST that is not a repetition of the PDU answered last */
  predicate IsPost(s: Session, p: Pdu) {
    && (s.last.Some? ==> p.hdr.mid != s.last.value.mid)
    && p.hdr.pduType.Confirmable? && p.hdr.cls == CLASS_REQUEST && p.hdr.code == METHOD_POST
  }

  /** It begins a record: nothing was received yet, or it carries another token. */
  predicate Starts(s: Session, p: Pdu) {
    s.count == 0 || p.token != s.token
  }

  predicate RightContent(p: Pdu) {
    p.contentFormat == None || p.contentFormat == Some(OCTET_STREAM)
  }

  predicate RightPath(cfg: Config, s: Session, p: Pdu) {
    p.uriPath == Some(cfg.resource) || (p.uriPath == None && !Starts(s, p))
  }

  predicate IsLast(p: Pdu) {
    p.block1.None? || !p.block1.value.more
  }

  /** The block number that comes next */
  function NextNumber(s: Session, p: Pdu): nat {
    if Starts(s, p) then 0 else s.count
  }

  predicate RoomFor(s: Session, p: Pdu) {
    |s.buf| + |p.payload| <= MAX_USP_MSG_LEN
  }

  /** The Block1 option of a first block: it may be missing; a block with others behind it is full. */
  predicate FirstBlock(p: Pdu) {
    p.block1.Some? ==>
      && p.block1.value.num == 0 && p.token != []
      && (p.block1.value.more ==> |p.payload| == p.block1.value.size)
  }

  /** The Block1 option of a later block: no larger than before, never overfull, and full if others come behind it. */
  predicate LaterBlock(s: Session, p: Pdu) {
    && p.block1.Some? && p.block1.value.size <= s.blockSize && |p.payload| <= p.block1.value.size
    && (p.block1.value.more ==> |p.payload| == p.block1.value.size)
  }

  /** The datagram is a block that the server takes. */
  predicate Taken(cfg: Config, s: Session, p: Pdu) {
    && IsPost(s, p) && RightContent(p) && RightPath(cfg, s, p) && p.uriQuery.Some? && RoomFor(s, p)
    && if Starts(s, p) then FirstBlock(p) && (p.size1.Some? ==> p.size1.value <= MAX_USP_MSG_LEN)
       else LaterBlock(s, p) && p.block1.value.num == s.count
  }

  /** The datagram is a block the server has already, sent again under a new message id. */
  predicate HadAlready(cfg: Config, s: Session, p: Pdu) {
    && IsPost(s, p) && RightContent(p) && RightPath(cfg, s, p) && p.uriQuery.Some?
    && !Starts(s, p) && LaterBlock(s, p) && p.block1.value.num < s.count
  }

  // ---------------------------------------------------------------- what the answer says

  /** The answer is read as the ACK of p with this class and code. */
  predicate Acked(p: Pdu, sent: Option<bytes>, cls: nat, code: nat, read: bytes -> bool) {
    sent.Some? &&
      var r := ParsePdu(sent.value, read);
      r.flags == {} && r.pdu.hdr == Header(Acknowledgement, |p.token|, cls, code, p.hdr.mid) && r.pdu.token == p.token
  }

  predicate WasReset(p: Pdu, sent: Option<bytes>, read: bytes -> bool) {
    sent.Some? &&
      var r := ParsePdu(sent.value, read);
      r.flags == {} && r.pdu.hdr == Header(Reset, |p.token|, 0, 0, p.hdr.mid) && r.pdu.token == p.token
  }

  /** Nothing is handed over, and nothing of a record is kept. */
  predicate Dropped(t: Step) {
    t.posted.None? && t.s.buf == [] && t.s.count == 0 && t.s.blockSize == 0
  }

  /** An ACK of class 4 with this code, carrying the text of the error */
  predicate Refused(p: Pdu, t: Step, code: nat, env: Env, read: bytes -> bool) {
    && Dropped(t) && Acked(p, t.sent, 4, code, read) && ParsePdu(t.sent.value, read).pdu.payload == env.text
    && ParsePdu(t.sent.value, read).pdu.block1 == None
    && t.s.last == Some(Response(p.hdr.mid, t.sent.value))
  }

  predicate ResetByPeer(p: Pdu, t: Step, read: bytes -> bool) {
    Dropped(t) && WasReset(p, t.sent, read)
  }

  // ---------------------------------------------------------------- from flags to answers

  lemma Answered(cfg: Config, s: Session, p: Pdu, flags: set<Action>, env: Env, read: bytes -> bool)
    requires cfg.Valid() && Parseable(p) && SendAck in flags && SendRst !in flags && ResendLastResponse !in flags
    requires env.sendOk
    ensures var t := Act(cfg, s, p, flags, env);
      && Acked(p, t.sent, if IndicatesError(flags) then 4 else 2, AckCode(p.block1.Some?, flags), read)
      && B.AckMatches(cfg, p, flags, ParsePdu(t.sent.value, read).pdu)
      && (IndicatesError(flags) || WellKnown in flags ==> ParsePdu(t.sent.value, read).pdu.payload == env.text)
      && (WellKnown in flags ==> ParsePdu(t.sent.value, read).pdu.contentFormat == Some(40))
      && t.s.last == Some(Response(p.hdr.mid, t.sent.value))
  {
    hide ParsePdu, EncodePdu, AckOptions, AckCode;
    B.AckParses(cfg, p, flags, env.text, read);
  }

  lemma ErrorAnswered(cfg: Config, s: Session, p: Pdu, flag: Action, env: Env, read: bytes -> bool)
    requires cfg.Valid() && Parseable(p) && IndicatesError({flag}) && env.sendOk
    ensures Refused(p, Act(cfg, s, p, {SendAck, flag}, env), AckCode(false, {SendAck, flag}), env, read)
  {
    hide ParsePdu, EncodePdu, WriteAck, WriteRst;
    Answered(cfg, s, p, {SendAck, flag}, env, read);
  }

  lemma ResetAnswered(cfg: Config, s: Session, p: Pdu, env: Env, read: bytes -> bool)
    requires cfg.Valid() && Parseable(p) && env.sendOk
    ensures ResetByPeer(p, Act(cfg, s, p, {SendRst}, env), read)
  {
    hide ParsePdu, EncodePdu, WriteAck;
    B.RstParses(p.hdr.mid, p.token, read);
  }

  // ---------------------------------------------------------------- blocks that are taken

  /** The session after the block was taken and before anything is sent */
  function WithBlock(s: Session, p: Pdu): Session {
    s.(buf := s.buf + p.payload, count := (if p.block1.Some? then NextNumber(s, p) else s.count) + 1,
       token := if Starts(s, p) then p.token else s.token,
       blockSize := if p.block1.Some? then p.block1.value.size else s.blockSize)
  }

  lemma TakenActions(cfg: Config, s: Session, p: Pdu)
    requires Taken(cfg, s, p)
    ensures Actions(cfg, s, p) == Handled(WithBlock(s, p),
        if !IsLast(p) then {SendAck} else if cfg.unpacks(s.buf + p.payload) then {SendAck, UspRecordComplete}
        else {SendAck, BadRequest})
  {
  }

  lemma NotTakenActions(cfg: Config, s: Session, p: Pdu)
    requires !Taken(cfg, s, p)
    ensures UspRecordComplete !in Actions(cfg, s, p).flags
  {
  }

  lemma HadAlreadyActions(cfg: Config, s: Session, p: Pdu)
    requires HadAlready(cfg, s, p)
    ensures Actions(cfg, s, p) == Handled(s.(blockSize := p.block1.value.size), {SendAck})
  {
  }

  /**
   For every session and datagram: bytes are handed over if and only if the datagram is a confirmable POST that the
   server takes as the last block, the assembled bytes unpack and the reply-to is accepted; and it is these bytes.
   */
  lemma PostedExactly(cfg: Config, s: Session, data: bytes, env: Env)
    requires cfg.Valid()
    ensures var r := ParsePdu(data, cfg.queryOk);
      var t := Receive(cfg, s, data, env);
      && (t.posted.Some? <==>
            && r.flags == {} && Taken(cfg, s, r.pdu) && IsLast(r.pdu) && cfg.unpacks(s.buf + r.pdu.payload)
            && env.replyToOk)
      && (t.posted.Some? ==> t.posted.value == s.buf + r.pdu.payload && t.s.buf == [] && t.s.count == 0)
  {
    hide ParsePdu, WriteAck, WriteRst, Actions, Taken, IsLast, WithBlock;
    var r := ParsePdu(data, cfg.queryOk);
    ParsedIsParseable(data, cfg.queryOk);
    CoapServerProofs.FlagsConsistent(cfg, s, data);
    NothingPostedUnparsed(data, cfg.queryOk);
    if r.flags == {} {
      if Taken(cfg, s, r.pdu) {
        TakenActions(cfg, s, r.pdu);
        BufferWithBlock(s, r.pdu);
      } else {
        NotTakenActions(cfg, s, r.pdu);
      }
    }
  }

  lemma BufferWithBlock(s: Session, p: Pdu)
    ensures WithBlock(s, p).buf == s.buf + p.payload
  {
  }

  lemma {:induction false} OptionsPostNothing(buf: bytes, cur: nat, p: Pdu, queryOk: bytes -> bool)
    ensures UspRecordComplete !in ParseOptions(buf, cur, p, queryOk).0.flags
    decreases |buf|
  {
    hide WalkOption;
    if buf != [] && buf[0] != END_MARKER {
      var w := WalkOption(buf, cur);
      if w.Some? {
        OptionsPostNothing(w.value.rest, w.value.opt.num, ParseOption(w.value.opt, p, queryOk).pdu, queryOk);
      }
    }
  }

  lemma NothingPostedUnparsed(data: bytes, queryOk: bytes -> bool)
    ensures UspRecordComplete !in ParsePdu(data, queryOk).flags
  {
    hide ParseOptions, DecodeHeader, Version;
    if |data| >= COAP_HEADER_SIZE {
      var h := DecodeHeader(data[..COAP_HEADER_SIZE]);
      var body := data[COAP_HEADER_SIZE..];
      if h.tokenSize <= |body| {
        OptionsPostNothing(body[h.tokenSize..], 0, EmptyPdu(h).(token := body[..h.tokenSize]), queryOk);
      }
    }
  }

  /** The session with its saved response put aside */
  function Unsaved(s: Session): Session {
    s.(last := None)
  }

  /**
   A block that is taken is appended and answered: 2.31 asks for the next one with the size the server wants, 2.04 tells
   that the record is complete, and 4.00 that what was assembled does not unpack, of which nothing is kept.
   */
  lemma TakenAnswers(cfg: Config, s: Session, data: bytes, env: Env, read: bytes -> bool)
    requires cfg.Valid() && env.sendOk
    requires var r := ParsePdu(data, cfg.queryOk); r.flags == {} && Taken(cfg, s, r.pdu)
    ensures var p := ParsePdu(data, cfg.queryOk).pdu;
      var t := Receive(cfg, s, data, env);
      var all := s.buf + p.payload;
      if !IsLast(p) then
        && Acked(p, t.sent, 2, 31, read) && Unsaved(t.s) == Unsaved(WithBlock(s, p))
        && t.s.last == Some(Response(p.hdr.mid, t.sent.value))
        && ParsePdu(t.sent.value, read).pdu.block1 ==
           Some(Block(p.block1.value.num, true, Min(cfg.rxSize, p.block1.value.size)))
      else if cfg.unpacks(all) then
        && Acked(p, t.sent, 2, 4, read) && t.s.last == Some(Response(p.hdr.mid, t.sent.value))
        && ParsePdu(t.sent.value, read).pdu.block1 == None
      else Refused(p, t, 0, env, read)
  {
    hide ParsePdu, WriteAck, WriteRst, Actions, Taken, EncodePdu, Acked, EncodeBlock;
    var p := ParsePdu(data, cfg.queryOk).pdu;
    ParsedIsParseable(data, cfg.queryOk);
    TakenActions(cfg, s, p);
    var h := Actions(cfg, s, p);
    Answered(cfg, h.s, p, h.flags, env, read);
  }

  /** A block the server has already is acknowledged again, and nothing of the record changes. */
  lemma HadAlreadyAnswers(cfg: Config, s: Session, data: bytes, env: Env, read: bytes -> bool)
    requires cfg.Valid() && env.sendOk
    requires var r := ParsePdu(data, cfg.queryOk); r.flags == {} && HadAlready(cfg, s, r.pdu)
    ensures var p := ParsePdu(data, cfg.queryOk).pdu;
      var t := Receive(cfg, s, data, env);
      && Acked(p, t.sent, 2, 31, read) && t.posted.None?
      && ParsePdu(t.sent.value, read).pdu.block1 ==
         (if p.block1.value.more then Some(Block(p.block1.value.num, true, Min(cfg.rxSize, p.block1.value.size)))
          else None)
      && t.s.buf == s.buf && t.s.count == s.count && t.s.token == s.token
  {
    hide ParsePdu, WriteAck, WriteRst, Actions, EncodePdu, EncodeBlock;
    var p := ParsePdu(data, cfg.queryOk).pdu;
    ParsedIsParseable(data, cfg.queryOk);
    HadAlreadyActions(cfg, s, p);
    var h := Actions(cfg, s, p);
    Answered(cfg, h.s, p, h.flags, env, read);
  }

  // ---------------------------------------------------------------- blocks that are refused

  /** Everything about a first block but its Block1 option and the room for it */
  predicate StartFine(cfg: Config, s: Session, p: Pdu) {
    && RightContent(p) && p.uriPath == Some(cfg.resource) && p.uriQuery.Some?
    && (p.size1.Some? ==> p.size1.value <= MAX_USP_MSG_LEN)
  }

  /** Why a block that begins a record is refused, and with which code; each of these excludes those before it. */
  predicate StartRefused(cfg: Config, s: Session, p: Pdu, code: nat) {
    match code
    case 15 => !RightContent(p)
    case 4 => RightContent(p) && p.uriPath != Some(cfg.resource)
    case 0 => RightContent(p) && p.uriPath == Some(cfg.resource) && p.uriQuery.None?
    case 13 =>
      && RightContent(p) && p.uriPath == Some(cfg.resource) && p.uriQuery.Some?
      && (|| (p.size1.Some? && p.size1.value > MAX_USP_MSG_LEN)
          || (StartFine(cfg, s, p) && FirstBlock(p) && !RoomFor(s, p)))
    case 8 =>
      && StartFine(cfg, s, p) && p.block1.Some?
      && (p.block1.value.num != 0 || (p.token != [] && !FirstBlock(p)))
    case _ => false
  }

  /** Why a later block is refused */
  predicate LaterRefused(cfg: Config, s: Session, p: Pdu, code: nat) {
    var fine := RightContent(p) && RightPath(cfg, s, p);
    match code
    case 15 => !RightContent(p)
    case 4 => RightContent(p) && !RightPath(cfg, s, p)
    case 0 =>
      && fine
      && (|| p.uriQuery.None? || p.block1.None? || |p.payload| > p.block1.value.size
          || (p.block1.value.more && |p.payload| != p.block1.value.size))
    case 8 =>
      && fine && p.uriQuery.Some? && p.block1.Some? && |p.payload| <= p.block1.value.size
      && (p.block1.value.more ==> |p.payload| == p.block1.value.size)
      && (p.block1.value.size > s.blockSize || p.block1.value.num > s.count)
    case 13 => fine && p.uriQuery.Some? && LaterBlock(s, p) && p.block1.value.num == s.count && !RoomFor(s, p)
    case _ => false
  }

  lemma RefusedActions(cfg: Config, s: Session, p: Pdu, code: nat) returns (flag: Action)
    requires IsPost(s, p)
    requires if Starts(s, p) then StartRefused(cfg, s, p, code) else LaterRefused(cfg, s, p, code)
    ensures IndicatesError({flag}) && Actions(cfg, s, p).flags == {SendAck, flag}
    ensures AckCode(false, {SendAck, flag}) == code
  {
    flag :=
      if code == 15 then BadContent else if code == 4 then NotFound else if code == 0 then BadRequest
      else if code == 13 then TooLarge else Incomplete;
  }

  /** A refused block is answered with class 4 and the code of the reason, and nothing of the record is kept. */
  lemma RefusedAnswers(cfg: Config, s: Session, data: bytes, env: Env, code: nat, read: bytes -> bool)
    requires cfg.Valid() && env.sendOk
    requires var r := ParsePdu(data, cfg.queryOk);
      && r.flags == {} && IsPost(s, r.pdu)
      && if Starts(s, r.pdu) then StartRefused(cfg, s, r.pdu, code) else LaterRefused(cfg, s, r.pdu, code)
    ensures Refused(ParsePdu(data, cfg.queryOk).pdu, Receive(cfg, s, data, env), code, env, read)
  {
    hide ParsePdu, WriteAck, WriteRst, Actions, StartRefused, LaterRefused, AckCode, Act, Refused;
    var p := ParsePdu(data, cfg.queryOk).pdu;
    ParsedIsParseable(data, cfg.queryOk);
    var flag := RefusedActions(cfg, s, p, code);
    ErrorAnswered(cfg, Actions(cfg, s, p).s, p, flag, env, read);
  }

  /** A first block with a Block1 option needs a token. */
  predicate LacksToken(cfg: Config, s: Session, p: Pdu) {
    Starts(s, p) && StartFine(cfg, s, p) && p.block1.Some? && p.block1.value.num == 0 && p.token == []
  }

  /** Every POST is taken, was taken before, is refused for one of these reasons, or lacks a token. */
  lemma PostDecided(cfg: Config, s: Session, p: Pdu) returns (code: nat)
    requires IsPost(s, p)
    ensures || Taken(cfg, s, p) || HadAlready(cfg, s, p) || LacksToken(cfg, s, p)
            || if Starts(s, p) then StartRefused(cfg, s, p, code) else LaterRefused(cfg, s, p, code)
  {
    if !RightContent(p) {
      code := 15;
    } else if !RightPath(cfg, s, p) {
      code := 4;
    } else if p.uriQuery.None? {
      code := 0;
    } else if Starts(s, p) {
      code := if StartFine(cfg, s, p) && !FirstBlock(p) then 8 else 13;
    } else {
      var full := p.block1.Some? && |p.payload| <= p.block1.value.size
        && (p.block1.value.more ==> |p.payload| == p.block1.value.size);
      code := if !full then 0 else if LaterBlock(s, p) && p.block1.value.num == s.count then 13 else 8;
    }
  }

  // ---------------------------------------------------------------- everything else

  lemma OtherActions(cfg: Config, s: Session, p: Pdu)
    requires s.last.Some? ==> p.hdr.mid != s.last.value.mid
    ensures var f := Actions(cfg, s, p).flags;
      && (p.hdr.pduType.Reset? ==> f == {ResetState})
      && (p.hdr.pduType.Acknowledgement? || p.hdr.pduType.NonConfirmable? ==> f == {SendRst})
      && (p.hdr.pduType.Confirmable? && p.hdr.cls != 0 ==> f == {SendRst})
      && (p.hdr.pduType.Confirmable? && p.hdr.cls == 0 && p.hdr.code != 2 ==>
            f == if p.hdr.code == 1 && p.uriPath == Some(cfg.wellKnown) then {SendAck, WellKnown}
                 else {SendAck, BadMethod})
      && (IsPost(s, p) && LacksToken(cfg, s, p) ==> f == {SendRst})
      && (!IsPost(s, p) ==> Actions(cfg, s, p).s == s)
  {
  }

  /**
   What is no POST: a repetition gets the saved answer again, a RST nothing, a request for the resources 2.05 with their
   description, another method 4.05, and everything else, as well as a Block1 option without a token, a RST.
   */
  lemma OthersAnswered(cfg: Config, s: Session, data: bytes, env: Env, read: bytes -> bool)
    requires cfg.Valid() && env.sendOk && ParsePdu(data, cfg.queryOk).flags == {}
    ensures var p := ParsePdu(data, cfg.queryOk).pdu;
      var t := Receive(cfg, s, data, env);
      if s.last.Some? && p.hdr.mid == s.last.value.mid then
        t == CoapServer.Step(s, Some(s.last.value.pdu), None)
      else
        && (p.hdr.pduType.Reset? ==> Dropped(t) && t.sent.None?)
        && (!p.hdr.pduType.Reset? && !(p.hdr.pduType.Confirmable? && p.hdr.cls == 0) ==> ResetByPeer(p, t, read))
        && (p.hdr.pduType.Confirmable? && p.hdr.cls == 0 && p.hdr.code != 2 ==>
              if p.hdr.code == 1 && p.uriPath == Some(cfg.wellKnown) then
                && Acked(p, t.sent, 2, 5, read) && t.posted.None? && t.s.buf == s.buf && t.s.count == s.count
                && ParsePdu(t.sent.value, read).pdu.payload == env.text
                && ParsePdu(t.sent.value, read).pdu.contentFormat == Some(40)
              else Refused(p, t, 5, env, read))
        && (IsPost(s, p) && LacksToken(cfg, s, p) ==> ResetByPeer(p, t, read))
  {
    hide ParsePdu, WriteAck, WriteRst, Actions, EncodePdu, AckOptions, Refused, ResetByPeer, LacksToken, Acked;
    var p := ParsePdu(data, cfg.queryOk).pdu;
    ParsedIsParseable(data, cfg.queryOk);
    if s.last.Some? && p.hdr.mid == s.last.value.mid {
      RepeatedActions(cfg, s, p);
    } else {
      OtherActions(cfg, s, p);
      var h := Actions(cfg, s, p);
      if h.flags == {SendRst} {
        ResetAnswered(cfg, h.s, p, env, read);
      } else if h.flags == {SendAck, BadMethod} {
        ErrorAnswered(cfg, h.s, p, BadMethod, env, read);
      } else if h.flags == {SendAck, WellKnown} {
        Answered(cfg, h.s, p, h.flags, env, read);
      }
    }
  }

  lemma RepeatedActions(cfg: Config, s: Session, p: Pdu)
    requires s.last.Some? && p.hdr.mid == s.last.value.mid
    ensures Actions(cfg, s, p) == Handled(s, {ResendLastResponse})
  {
  }

  /** The parser refuses a datagram with a RST or for an option, or ignores one shorter than a header. */
  lemma {:induction false} OptionsRefuse(buf: bytes, cur: nat, p: Pdu, queryOk: bytes -> bool)
    ensures ParseOptions(buf, cur, p, queryOk).0.flags in {{}, {SendRst}, {SendAck, BadOption}}
    decreases |buf|
  {
    hide WalkOption;
    if buf != [] && buf[0] != END_MARKER {
      var w := WalkOption(buf, cur);
      if w.Some? {
        OptionsRefuse(w.value.rest, w.value.opt.num, ParseOption(w.value.opt, p, queryOk).pdu, queryOk);
      }
    }
  }

  lemma ParserRefuses(data: bytes, queryOk: bytes -> bool)
    ensures ParsePdu(data, queryOk).flags in {{}, {SendRst}, {SendAck, BadOption}, {IgnorePdu}}
    ensures ParsePdu(data, queryOk).flags == {IgnorePdu} <==> |data| < 4
  {
    hide ParseOptions, DecodeHeader, Version;
    if |data| >= COAP_HEADER_SIZE {
      var h := DecodeHeader(data[..COAP_HEADER_SIZE]);
      var body := data[COAP_HEADER_SIZE..];
      if h.tokenSize <= |body| {
        OptionsRefuse(body[h.tokenSize..], 0, EmptyPdu(h).(token := body[..h.tokenSize]), queryOk);
      }
    }
  }

  /** A datagram the parser refuses: nothing for one shorter than a header, 4.02 for an option, otherwise a RST. */
  lemma UnparsedAnswers(cfg: Config, s: Session, data: bytes, env: Env, read: bytes -> bool)
    requires cfg.Valid() && env.sendOk && ParsePdu(data, cfg.queryOk).flags != {}
    ensures var r := ParsePdu(data, cfg.queryOk);
      var t := Receive(cfg, s, data, env);
      if |data| < 4 then t == CoapServer.Step(s, None, None)
      else if SendAck in r.flags then Refused(r.pdu, t, 2, env, read)
      else ResetByPeer(r.pdu, t, read)
  {
    hide ParsePdu, WriteAck, WriteRst, EncodePdu, AckOptions, Refused, ResetByPeer;
    var r := ParsePdu(data, cfg.queryOk);
    ParsedIsParseable(data, cfg.queryOk);
    ParserRefuses(data, cfg.queryOk);
    if r.flags == {SendRst} {
      ResetAnswered(cfg, s, r.pdu, env, read);
    } else if r.flags == {SendAck, BadOption} {
      ErrorAnswered(cfg, s, r.pdu, BadOption, env, read);
    }
  }

  /** When the answer cannot be sent, nothing of the record is kept. */
  lemma UnsentDrops(cfg: Config, s: Session, data: bytes, env: Env)
    requires cfg.Valid() && !env.sendOk && (Receive(cfg, s, data, env.(sendOk := true)).sent.Some?)
    ensures var t := Receive(cfg, s, data, env); t.sent.None? && t.s.buf == [] && t.s.count == 0
  {
    hide ParsePdu, WriteAck, WriteRst, Actions;
    CoapServerProofs.FlagsConsistent(cfg, s, data);
  }
}
