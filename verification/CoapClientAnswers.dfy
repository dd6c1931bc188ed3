/**
 What the CoAP client does with each datagram it receives: said of the datagram as it parses and of the block the client
 waits to have acknowledged.
 */
module CoapClientAnswers {
  import opened CommonDefs
  import opened CoapCodec
  import opened CoapClient
  import CoapServer
  import R = CoapServerReplies

  // ---------------------------------------------------------------- what a datagram means to the client

  /** An ACK of the PDU sent last */
  predicate AcksLast(c: Client, p: Pdu) {
    p.hdr.pduType.Acknowledgement? && p.token == c.token && p.hdr.mid == c.mid
  }

  /** The block sent last is the last one of the record. */
  predicate AtEnd(c: Client)
    requires c.queue != []
  {
    |c.queue[0].payload| <= c.bytesSent + c.blockSize
  }

  /** 2.31 for the block sent last, when there are more */
  predicate AsksNext(c: Client, p: Pdu) {
    && AcksLast(c, p) && p.hdr.cls == 2 && p.hdr.code == 31 && c.queue != [] && !AtEnd(c)
    && p.block1.Some? && p.block1.value.num == c.curBlock
  }

  /** 2.04 for the last block, or any class but success */
  predicate EndsRecord(c: Client, p: Pdu) {
    AcksLast(c, p) && (p.hdr.cls != 2 || (p.hdr.code == 4 && c.queue != [] && AtEnd(c)))
  }

  /** An ACK of an earlier PDU of the record, or a success while nothing is being sent */
  predicate Stale(c: Client, p: Pdu) {
    && p.hdr.pduType.Acknowledgement? && p.token == c.token
    && (p.hdr.mid != c.mid || (p.hdr.cls == 2 && (p.hdr.code == 4 || p.hdr.code == 31) && c.queue == []))
  }

  /** The server has lost its place: a RST, or 2.31 for the last block or without the number of the block sent. */
  predicate StartsOver(c: Client, p: Pdu) {
    || p.hdr.pduType.Reset?
    || (AcksLast(c, p) && p.hdr.cls == 2 && p.hdr.code == 31 && c.queue != []
        && (AtEnd(c) || p.block1.None? || p.block1.value.num != c.curBlock))
  }

  /** Not an ACK, one with another token, an unknown success, or 2.04 with blocks still to send */
  predicate Confuses(c: Client, p: Pdu) {
    || p.hdr.pduType.Confirmable? || p.hdr.pduType.NonConfirmable?
    || (p.hdr.pduType.Acknowledgement? && p.token != c.token)
    || (AcksLast(c, p) && p.hdr.cls == 2 && p.hdr.code != 4 && p.hdr.code != 31)
    || (AcksLast(c, p) && p.hdr.cls == 2 && p.hdr.code == 4 && c.queue != [] && !AtEnd(c))
  }

  /** The client with the next block to send, of the size the server wants if that is smaller */
  function AtNextBlock(c: Client, p: Pdu, e: Env): Client
    requires p.block1.Some?
  {
    c.(curBlock := c.curBlock + 1, bytesSent := c.bytesSent + c.blockSize, mid := NextMid(c.mid), ackMs := e.ackMs,
       retrans := 0, blockSize := if p.block1.value.size < c.blockSize then p.block1.value.size else c.blockSize)
  }

  // ---------------------------------------------------------------- what the client does

  lemma ActionsOf(c: Client, p: Pdu)
    ensures AckActions(c, p) ==
            if StartsOver(c, p) then ResetState
            else if Confuses(c, p) then SendRst
            else if Stale(c, p) then IgnorePdu
            else if EndsRecord(c, p) then SendNextUspRecord
            else SendNextBlock
    ensures !StartsOver(c, p) && !Confuses(c, p) && !Stale(c, p) && !EndsRecord(c, p) ==> AsksNext(c, p)
  {
  }

  /**
   Every datagram that parses is of exactly one of the five kinds, and decides what the client does: it sends the next
   block, starts the next record, does nothing, starts the record over later, or does so after sending a RST.
   */
  lemma AnswersExactly(cfg: Config, c: Client, data: bytes, env: nat -> Env)
    requires cfg.Valid() && Valid(c) && c.sock.Some? && ParsePdu(data, cfg.queryOk).flags == {}
    ensures var p := ParsePdu(data, cfg.queryOk).pdu;
      var o := HandleAck(cfg, c, Data(data), env);
      if AsksNext(c, p) then
        && !EndsRecord(c, p) && !Stale(c, p) && !StartsOver(c, p) && !Confuses(c, p)
        && Sending(AtNextBlock(c, p, env(0))) && o == SendBlock(cfg, AtNextBlock(c, p, env(0)), false, env, 0)
      else if EndsRecord(c, p) then
        !Stale(c, p) && !StartsOver(c, p) && !Confuses(c, p) && o == StartNext(cfg, c, env, 0)
      else if Stale(c, p) then
        !StartsOver(c, p) && !Confuses(c, p) && o == Running(c, None, None)
      else if StartsOver(c, p) then
        !Confuses(c, p) && o == RetryLater(cfg, c, false, env, 0)
      else
        var mid := NextMid(c.mid);
        && Confuses(c, p) && |p.token| <= MAX_COAP_TOKEN_SIZE
        && o == WithRst(RetryLater(cfg, c.(mid := mid), false, env, 0), CoapServer.WriteRst(mid, p.token))
  {
    hide ParsePdu, SendBlock, StartNext, RetryLater, AckActions, Confuses, Stale, StartsOver, EndsRecord, EncodePdu;
    var p := ParsePdu(data, cfg.queryOk).pdu;
    CoapServer.ParsedIsParseable(data, cfg.queryOk);
    ActionsOf(c, p);
    OneKind(c, p);
  }

  lemma OneKind(c: Client, p: Pdu)
    ensures AsksNext(c, p) ==> !EndsRecord(c, p) && !Stale(c, p) && !StartsOver(c, p) && !Confuses(c, p)
    ensures EndsRecord(c, p) ==> !Stale(c, p) && !StartsOver(c, p) && !Confuses(c, p)
    ensures Stale(c, p) ==> !StartsOver(c, p) && !Confuses(c, p)
    ensures StartsOver(c, p) ==> !Confuses(c, p)
  {
  }

  /** A datagram the parser refuses is answered with a RST, and one shorter than a header with nothing. */
  lemma UnparsedExactly(cfg: Config, c: Client, data: bytes, env: nat -> Env)
    requires cfg.Valid() && Valid(c) && c.sock.Some? && ParsePdu(data, cfg.queryOk).flags != {}
    ensures var token, mid := ParsePdu(data, cfg.queryOk).pdu.token, NextMid(c.mid);
      var o := HandleAck(cfg, c, Data(data), env);
      if |data| < 4 then o == Running(c, None, None)
      else
        && |token| <= MAX_COAP_TOKEN_SIZE
        && o == WithRst(RetryLater(cfg, c.(mid := mid), false, env, 0), CoapServer.WriteRst(mid, token))
  {
    hide ParsePdu, RetryLater, EncodePdu;
    CoapServer.ParsedIsParseable(data, cfg.queryOk);
    R.ParserRefuses(data, cfg.queryOk);
  }

  /** When the next block can be written and sent, it is, and its ACK timer runs. */
  lemma NextBlockSent(cfg: Config, c: Client, data: bytes, env: nat -> Env)
    requires cfg.Valid() && Valid(c) && c.sock.Some? && env(0).sendOk
    requires var r := ParsePdu(data, cfg.queryOk);
      && r.flags == {} && AsksNext(c, r.pdu) && Sending(AtNextBlock(c, r.pdu, env(0)))
      && WriteBlock(cfg, AtNextBlock(c, r.pdu, env(0))).Some?
    ensures var d := AtNextBlock(c, ParsePdu(data, cfg.queryOk).pdu, env(0));
      var o := HandleAck(cfg, c, Data(data), env);
      o.Running? && o.rst.None? && o.sent == WriteBlock(cfg, d) && o.c.ackTime.Some?
      && o.c == d.(ackTime := o.c.ackTime)
  {
    hide ParsePdu, WriteBlock, RetryLater, HandleAck;
    AnswersExactly(cfg, c, data, env);
  }

  /** Every trace of the peer is gone, and no timer runs. */
  predicate Disconnected(c: Client, d: Client) {
    && d.sock.None? && d.peerAddr == 0 && d.peerPort == 0xFFFF && d.query == [] && d.token == [0, 0, 0, 0]
    && d.mid == 0 && d.curBlock == 0 && d.blockSize == 0 && d.bytesSent == 0 && d.retrans == 0 && d.ackMs == 0
    && d.ackTime.None? && d.reconnTime.None? && d.linger.None?
    && d.queue == c.queue && d.socks == c.socks && d.enc == c.enc && d.reconns == c.reconns && d.reconnMs == c.reconnMs
  }

  /** When the peer closes: with nothing to send the client is disconnected, otherwise it is a failure as any other. */
  lemma ClosedExactly(cfg: Config, c: Client, env: nat -> Env)
    requires cfg.Valid() && Valid(c) && c.sock.Some?
    ensures var o := HandleAck(cfg, c, Closed, env);
      if c.queue == [] then o.Running? && o.sent.None? && o.rst.None? && Disconnected(c, o.c)
      else o == RetryLater(cfg, c, false, env, 0)
    ensures HandleAck(cfg, c, Nothing, env) == Running(c, None, None)
  {
    hide RetryLater;
  }
}
