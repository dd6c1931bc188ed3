/**
 The CoAP server session as the object the source updates in place. Each method is proved to do what the
 function of the same operation in CoapServer says.
 */
module CoapServerObject {
  import opened CommonDefs
  import opened CoapCodec
  import S = CoapServer
  import CoapServerProofs
  import CoapWire

  const INVALID := -1

  class ServerSession {
    var buf: bytes
    var count: nat
    var blockSize: nat
    var token: bytes
    var lastMid: int
    var lastPdu: bytes

    /** The session's fields as a value; last_response.message_id is INVALID until a response was saved. */
    ghost function Value(): S.Session
      reads this
      requires Valid()
    {
      S.Session(buf, count, blockSize, token, if lastMid == INVALID then None else Some(S.Response(lastMid, lastPdu)))
    }

    ghost predicate Valid()
      reads this
    {
      lastMid >= INVALID
    }

    /** InitCoapSession */
    constructor ()
      ensures Valid() && Value() == S.FRESH
    {
      buf, count, blockSize, token := [], 0, 0, [];
      lastMid, lastPdu := INVALID, [];
    }

    method FreeRecord()
      requires Valid()
      modifies this
      ensures Valid() && Value() == S.FreeRecord(old(Value()))
    {
      buf := [];
      count := 0;
      blockSize := 0;
    }

    method AppendPayload(p: Pdu) returns (flags: set<Action>)
      requires Valid()
      modifies this
      ensures Valid() && S.Handled(Value(), flags) == S.Append(old(Value()), p)
    {
      var newLen := |buf| + |p.payload|;
      if newLen > S.MAX_USP_MSG_LEN {
        return {SendAck, TooLarge};
      }
      buf := buf + p.payload;
      count := count + 1;
      flags := {};
    }

    method HandleFirst(cfg: S.Config, p: Pdu) returns (flags: set<Action>)
      requires Valid()
      modifies this
      ensures Valid() && S.Handled(Value(), flags) == S.HandleFirst(cfg, old(Value()), p)
    {
      flags := {SendAck, UspRecordComplete};
      if p.contentFormat.Some? && p.contentFormat.value != OCTET_STREAM {
        return {SendAck, BadContent};
      }
      if p.uriPath.None? || p.uriPath.value != cfg.resource {
        return {SendAck, NotFound};
      }
      if p.uriQuery.None? {
        return {SendAck, BadRequest};
      }
      if p.size1.Some? && p.size1.value > S.MAX_USP_MSG_LEN {
        return {SendAck, TooLarge};
      }
      token := p.token;
      if p.block1.Some? {
        var b := p.block1.value;
        if b.num != 0 {
          return {SendAck, Incomplete};
        }
        if |p.token| == 0 {
          return {SendRst};
        }
        if b.more && |p.payload| != b.size {
          return {SendAck, Incomplete};
        }
        blockSize := b.size;
        count := 0;
        if b.more {
          flags := flags - {UspRecordComplete};
        }
      }
      var temp := AppendPayload(p);
      if temp != {} {
        return temp;
      }
    }

    method HandleSubsequent(cfg: S.Config, p: Pdu) returns (flags: set<Action>)
      requires Valid()
      modifies this
      ensures Valid() && S.Handled(Value(), flags) == S.HandleSubsequent(cfg, old(Value()), p)
    {
      hide S.HandleFirst;
      flags := {SendAck, UspRecordComplete};
      if p.token != token {
        flags := HandleFirst(cfg, p);
        return;
      }
      if p.contentFormat.Some? && p.contentFormat.value != OCTET_STREAM {
        return {SendAck, BadContent};
      }
      if p.uriPath.Some? && p.uriPath.value != cfg.resource {
        return {SendAck, NotFound};
      }
      if p.uriQuery.None? {
        return {SendAck, BadRequest};
      }
      if p.block1.None? {
        return {SendAck, BadRequest};
      }
      var b := p.block1.value;
      if |p.payload| > b.size {
        return {SendAck, BadRequest};
      }
      if b.more && |p.payload| != b.size {
        return {SendAck, BadRequest};
      }
      if b.size > blockSize {
        return {SendAck, Incomplete};
      }
      if b.size != blockSize {
        blockSize := b.size;
      }
      if b.num < count {
        return {SendAck};
      }
      if b.num > count {
        return {SendAck, Incomplete};
      }
      var temp := AppendPayload(p);
      if temp != {} {
        return temp;
      }
      if b.more {
        flags := flags - {UspRecordComplete};
      }
    }

    /** CalcCoapServerActions */
    method CalcActions(cfg: S.Config, p: Pdu) returns (flags: set<Action>)
      requires Valid()
      modifies this
      ensures Valid() && S.Handled(Value(), flags) == S.Actions(cfg, old(Value()), p)
    {
      hide S.HandleFirst, S.HandleSubsequent;
      if p.hdr.mid == lastMid {
        return {ResendLastResponse};
      }
      if p.hdr.pduType.Reset? {
        return {ResetState};
      }
      if p.hdr.pduType.Acknowledgement? || p.hdr.pduType.NonConfirmable? {
        return {SendRst};
      }
      if p.hdr.cls != S.CLASS_REQUEST {
        return {SendRst};
      }
      if p.hdr.code == S.METHOD_GET && p.uriPath == Some(cfg.wellKnown) {
        return {SendAck, WellKnown};
      }
      if p.hdr.code != S.METHOD_POST {
        return {SendAck, BadMethod};
      }
      if count == 0 {
        flags := HandleFirst(cfg, p);
      } else {
        flags := HandleSubsequent(cfg, p);
      }
      if UspRecordComplete in flags {
        if !cfg.unpacks(buf) {
          flags := {SendAck, BadRequest};
        }
      }
    }

    /** ReceiveCoapBlock: sent is the response given to the socket, posted the record handed over. */
    method Receive(cfg: S.Config, data: bytes, env: S.Env) returns (sent: Option<bytes>, posted: Option<bytes>)
      requires Valid() && cfg.Valid()
      modifies this
      ensures Valid() && S.Step(Value(), sent, posted) == S.Receive(cfg, old(Value()), data, env)
    {
      hide ParsePdu, S.Actions, S.WriteAck, S.WriteRst;
      sent, posted := None, None;
      var r := CoapWire.Parse(data, cfg.queryOk);
      S.ParsedIsParseable(data, cfg.queryOk);
      var p, flags := r.pdu, r.flags;
      if flags == {} {
        flags := CalcActions(cfg, p);
      }
      FlagsExclusive(cfg, old(Value()), data);
      var reset, pdu := ResetState in flags, new byte[MAX_COAP_PDU_SIZE];
      if SendRst in flags {
        var len := WriteRst(p.hdr.mid, p.token, pdu);
        sent := S.Sent(env, pdu[..len]);
        reset := true;
      }
      if ResendLastResponse in flags {
        sent := S.Sent(env, lastPdu);
        if !env.sendOk {
          reset := true;
        }
      }
      if SendAck in flags {
        var len := WriteAck(cfg, p, flags, env.text, pdu);
        lastMid, lastPdu := p.hdr.mid, pdu[..len];
        sent := S.Sent(env, lastPdu);
        if !env.sendOk || IndicatesError(flags) {
          reset := true;
        }
      }
      if UspRecordComplete in flags {
        if env.replyToOk {
          posted := Some(buf);
          FreeRecord();
        }
      }
      if reset {
        FreeRecord();
      }
    }
  }

  /** WriteCoapAck: what it writes always fits the buffer. */
  method WriteAck(cfg: S.Config, p: Pdu, flags: set<Action>, text: S.ErrMessage, buf: array<byte>) returns (len: nat)
    requires cfg.Valid() && S.Parseable(p) && buf.Length == MAX_COAP_PDU_SIZE
    modifies buf
    ensures len <= buf.Length && buf[..len] == S.WriteAck(cfg, p, flags, text)
  {
    hide EncodeHeader, EncodeOption, Store, EncodeBlock;
    var h := S.AckHeader(p, flags);
    ghost var start := EncodeHeader(h) + p.token;
    len := CoapWire.WriteHeader(h, p.token, buf);
    NoOptionsAreWritten(start);
    if IndicatesError(flags) || WellKnown in flags {
      if WellKnown in flags {
        var ok;
        ok, len := CoapWire.WriteOption(CONTENT_FORMAT, [40], buf, len, 0);
        OneOptionIsWritten(Opt(CONTENT_FORMAT, [40]));
      }
      ghost var written := buf[..len];
      len := CoapWire.Put(buf, len, [END_MARKER]);
      len := CoapWire.Put(buf, len, text);
      ConcatAssoc(written, [END_MARKER], text);
      return;
    }
    if p.block1.Some? && p.block1.value.more {
      var b := p.block1.value;
      var value := CoapWire.CalcBlockOption(Block(b.num, b.more, Min(cfg.rxSize, b.size)));
      var ok;
      ok, len := CoapWire.WriteOption(BLOCK1, value, buf, len, 0);
      OneOptionIsWritten(Opt(BLOCK1, value));
    }
    S.NoSize1InAck(cfg, p, flags);
    ghost var written := buf[..len];
    var ok;
    ok, len := CoapWire.WriteOptions(S.LimitOption(flags), buf, len, BLOCK1);
    NoOptionsAreWritten(written);
    BlockOptionAlone(cfg, p, flags, start);
  }

  lemma NoOptionsAreWritten(start: bytes)
    ensures AllWritable(0, []) && EncodeOptions(0, []) == [] && start + [] == start && ValuesSize([]) == 0
    ensures EncodeOptions(BLOCK1, []) == []
  {
  }

  lemma OneOptionIsWritten(o: Opt)
    requires Writable(0, o)
    ensures AllWritable(0, [o]) && EncodeOptions(0, [o]) == EncodeOption(0, o)
  {
    assert [o][1..] == [];
    assert EncodeOptions(o.num, []) == [];
    assert EncodeOption(0, o) + [] == EncodeOption(0, o);
  }

  lemma BlockOptionAlone(cfg: S.Config, p: Pdu, flags: set<Action>, start: bytes)
    requires cfg.Valid() && S.Parseable(p) && !IndicatesError(flags) && WellKnown !in flags
    ensures var o := S.AckOptions(cfg, p, flags);
      && (if p.block1.Some? && p.block1.value.more then
            var b := p.block1.value;
            o == [Opt(BLOCK1, EncodeBlock(Block(b.num, b.more, Min(cfg.rxSize, b.size))))]
          else o == [])
      && start + EncodeOptions(0, o) + [] == start + EncodeOptions(0, o)
  {
    assert S.LimitOption(flags) == [];
  }

  /** COAP_WriteRst */
  method WriteRst(mid: nat, token: bytes, buf: array<byte>) returns (len: nat)
    requires mid < 0x1_0000 && |token| <= MAX_COAP_TOKEN_SIZE && buf.Length == MAX_COAP_PDU_SIZE
    modifies buf
    ensures len <= buf.Length && buf[..len] == S.WriteRst(mid, token)
  {
    hide EncodeHeader;
    var h := Header(Reset, |token|, 0, 0, mid);
    len := CoapWire.WriteHeader(h, token, buf);
    NoOptionsAreWritten(EncodeHeader(h) + token);
  }

  /** At most one response is sent for a datagram, and a saved response is resent only if there is one. */
  lemma FlagsExclusive(cfg: S.Config, s: S.Session, data: bytes)
    ensures var r := ParsePdu(data, cfg.queryOk);
      var f := if r.flags != {} then r.flags else S.Actions(cfg, s, r.pdu).flags;
      && !(SendAck in f && SendRst in f)
      && (ResendLastResponse in f ==> SendAck !in f && SendRst !in f && s.last.Some? && S.Actions(cfg, s, r.pdu).s == s)
  {
    hide ParsePdu;
    CoapServerProofs.FlagsConsistent(cfg, s, data);
    NoResendFromParser(data, cfg.queryOk);
  }

  lemma {:induction false} NoResendInOptions(buf: bytes, cur: nat, p: Pdu, queryOk: bytes -> bool)
    ensures ResendLastResponse !in ParseOptions(buf, cur, p, queryOk).0.flags
    decreases |buf|
  {
    hide WalkOption;
    if buf != [] && buf[0] != END_MARKER {
      var w := WalkOption(buf, cur);
      if w.Some? {
        NoResendInOptions(w.value.rest, w.value.opt.num, ParseOption(w.value.opt, p, queryOk).pdu, queryOk);
      }
    }
  }

  lemma NoResendFromParser(data: bytes, queryOk: bytes -> bool)
    ensures ResendLastResponse !in ParsePdu(data, queryOk).flags
  {
    hide ParseOptions, DecodeHeader, Version;
    if |data| >= COAP_HEADER_SIZE {
      var h := DecodeHeader(data[..COAP_HEADER_SIZE]);
      var body := data[COAP_HEADER_SIZE..];
      if h.tokenSize <= |body| {
        NoResendInOptions(body[h.tokenSize..], 0, EmptyPdu(h).(token := body[..h.tokenSize]), queryOk);
      }
    }
  }
}
