/**
 What holds of a CoAP server session for every sequence of datagrams.
 */
module CoapServerProofs {
  import opened CommonDefs
  import opened CoapCodec
  import opened CoapServer

  // ---------------------------------------------------------------- flags

  /** The two assertions ReceiveCoapBlock makes about its action flags. */
  predicate Consistent(flags: set<Action>) {
    && !(SendAck in flags && SendRst in flags)
    && (UspRecordComplete in flags ==>
          && SendRst !in flags && !IndicatesError(flags) && WellKnown !in flags
          && ResendLastResponse !in flags && ResetState !in flags)
  }

  lemma {:induction false} OptionsConsistent(buf: bytes, cur: nat, p: Pdu, queryOk: bytes -> bool)
    ensures Consistent(ParseOptions(buf, cur, p, queryOk).0.flags)
    decreases |buf|
  {
    hide WalkOption;
    if buf != [] && buf[0] != END_MARKER {
      var w := WalkOption(buf, cur);
      if w.Some? {
        OptionsConsistent(w.value.rest, w.value.opt.num, ParseOption(w.value.opt, p, queryOk).pdu, queryOk);
      }
    }
  }

  /** The flags acted on for any datagram never contradict each other, so neither assertion can fail. */
  lemma FlagsConsistent(cfg: Config, s: Session, data: bytes)
    ensures var r := ParsePdu(data, cfg.queryOk);
      Consistent(r.flags) && Consistent(Actions(cfg, s, r.pdu).flags)
  {
    hide ParseOptions, DecodeHeader, Version;
    if |data| >= COAP_HEADER_SIZE {
      var h := DecodeHeader(data[..COAP_HEADER_SIZE]);
      var body := data[COAP_HEADER_SIZE..];
      if h.tokenSize <= |body| {
        OptionsConsistent(body[h.tokenSize..], 0, EmptyPdu(h).(token := body[..h.tokenSize]), cfg.queryOk);
      }
    }
  }

  // ---------------------------------------------------------------- the buffer

  lemma HandledBuffer(cfg: Config, s: Session, p: Pdu)
    requires |s.buf| <= MAX_USP_MSG_LEN
    ensures var r := Actions(cfg, s, p);
      (r.s.buf == s.buf || r.s.buf == s.buf + p.payload) && |r.s.buf| <= MAX_USP_MSG_LEN && r.s.last == s.last
  {
  }

  /** Every datagram leaves the buffer as it was, extends it by exactly its payload, or empties it. */
  lemma BufferStep(cfg: Config, s: Session, data: bytes, env: Env)
    requires cfg.Valid() && |s.buf| <= MAX_USP_MSG_LEN
    ensures var t := Receive(cfg, s, data, env);
      && (t.s.buf == s.buf || t.s.buf == s.buf + ParsePdu(data, cfg.queryOk).pdu.payload || t.s.buf == [])
      && |t.s.buf| <= MAX_USP_MSG_LEN
      && (t.posted.Some? ==> |t.posted.value| <= MAX_USP_MSG_LEN)
  {
    hide ParsePdu, WriteAck, WriteRst, Actions;
    var r := ParsePdu(data, cfg.queryOk);
    ParsedIsParseable(data, cfg.queryOk);
    HandledBuffer(cfg, s, r.pdu);
  }

  // ---------------------------------------------------------------- reassembly

  /** The payloads of the PDUs at the given positions, one after the other. */
  function Payloads(pdus: seq<Pdu>, idx: seq<nat>): bytes
    requires forall i :: 0 <= i < |idx| ==> idx[i] < |pdus|
  {
    if idx == [] then [] else Payloads(pdus, idx[..|idx| - 1]) + pdus[idx[|idx| - 1]].payload
  }

  /** The session holds blocks 0 .. count-1 of one transfer, taken in order from the PDUs received. */
  predicate Reassembled(s: Session, pdus: seq<Pdu>, idx: seq<nat>) {
    && |idx| == s.count && Increasing(idx)
    && (forall i :: 0 <= i < |idx| ==>
          idx[i] < |pdus| && pdus[idx[i]].block1.Some? && pdus[idx[i]].block1.value.num == i
            && pdus[idx[i]].token == s.token)
    && s.buf == Payloads(pdus, idx)
  }

  lemma {:induction false} PayloadsGrow(pdus: seq<Pdu>, more: seq<Pdu>, idx: seq<nat>)
    requires forall i :: 0 <= i < |idx| ==> idx[i] < |pdus|
    ensures Payloads(pdus + more, idx) == Payloads(pdus, idx)
    decreases |idx|
  {
    if idx == [] {
    } else {
      PayloadsGrow(pdus, more, idx[..|idx| - 1]);
    }
  }

  lemma PayloadsSnoc(pdus: seq<Pdu>, idx: seq<nat>, k: nat)
    requires k < |pdus| && forall i :: 0 <= i < |idx| ==> idx[i] < |pdus|
    ensures Payloads(pdus, idx + [k]) == Payloads(pdus, idx) + pdus[k].payload
  {
    var idx' := idx + [k];
    assert idx'[..|idx'| - 1] == idx;
  }

  /** Adding a PDU to the history leaves the session reassembled from the same positions. */
  lemma StillReassembled(s: Session, pdus: seq<Pdu>, idx: seq<nat>, p: Pdu)
    requires Reassembled(s, pdus, idx)
    ensures Reassembled(s, pdus + [p], idx)
  {
    PayloadsGrow(pdus, [p], idx);
  }

  /** Taking the PDU as the next block. */
  lemma TakesBlock(s: Session, t: Session, pdus: seq<Pdu>, idx: seq<nat>, p: Pdu)
    requires Reassembled(s, pdus, idx) && p.block1.Some? && p.block1.value.num == s.count
    requires t.count == s.count + 1 && t.token == p.token && (s.count > 0 ==> t.token == s.token)
    requires t.buf == s.buf + p.payload
    ensures Reassembled(t, pdus + [p], idx + [|pdus|])
  {
    hide Payloads;
    PayloadsGrow(pdus, [p], idx);
    var all := pdus + [p];
    assert forall i :: 0 <= i < |idx| ==> all[idx[i]] == pdus[idx[i]];
    PayloadsSnoc(all, idx, |pdus|);
    assert all[|pdus|] == p;
  }

  /** The transfer the session is in the middle of, if any, is the one this PDU belongs to. */
  predicate SameTransfer(s: Session, p: Pdu) {
    s.count > 0 ==> p.token == s.token
  }

  /** What handling a block PDU of the same transfer leads to, before the flags are acted on. */
  lemma HandledReassembled(cfg: Config, s: Session, pdus: seq<Pdu>, idx: seq<nat>, p: Pdu) returns (idx': seq<nat>)
    requires Reassembled(s, pdus, idx) && SameTransfer(s, p)
    ensures var r := Actions(cfg, s, p);
      || Reassembled(r.s, pdus + [p], idx')
      || UspRecordComplete in r.flags || IndicatesError(r.flags)
  {
    hide Reassembled;
    var r := Actions(cfg, s, p);
    idx' := idx;
    StillReassembled(s, pdus, idx, p);
    if r.s == s || UspRecordComplete in r.flags || IndicatesError(r.flags) {
    } else if r.s.buf == s.buf && r.s.count == s.count {
      SameBlocks(s, r.s, pdus + [p], idx);
    } else {
      EmptyReassembled(s, pdus, idx);
      idx' := idx + [|pdus|];
      TakesBlock(s, r.s, pdus, idx, p);
    }
  }

  lemma SameBlocks(s: Session, t: Session, pdus: seq<Pdu>, idx: seq<nat>)
    requires Reassembled(s, pdus, idx) && t.buf == s.buf && t.count == s.count && (s.count > 0 ==> t.token == s.token)
    ensures Reassembled(t, pdus, idx)
  {
  }

  lemma EmptyReassembled(s: Session, pdus: seq<Pdu>, idx: seq<nat>)
    requires Reassembled(s, pdus, idx)
    ensures s.count == 0 ==> s.buf == []
  {
  }

  /** One datagram: the session stays reassembled, from one more block, the same blocks or none. */
  lemma StepReassembles(cfg: Config, s: Session, pdus: seq<Pdu>, idx: seq<nat>, data: bytes, env: Env)
    returns (idx': seq<nat>)
    requires cfg.Valid() && Reassembled(s, pdus, idx) && env.replyToOk
    requires SameTransfer(s, ParsePdu(data, cfg.queryOk).pdu)
    ensures Reassembled(Receive(cfg, s, data, env).s, pdus + [ParsePdu(data, cfg.queryOk).pdu], idx')
  {
    hide ParsePdu, WriteAck, WriteRst, Actions, Reassembled;
    var r := ParsePdu(data, cfg.queryOk);
    ParsedIsParseable(data, cfg.queryOk);
    StillReassembled(s, pdus, idx, r.pdu);
    var t := Receive(cfg, s, data, env).s;
    if t.buf == [] && t.count == 0 {
      idx' := [];
      assert Reassembled(t, pdus + [r.pdu], []) by { NothingReassembled(t, pdus + [r.pdu]); }
    } else if r.flags != {} {
      idx' := idx;
      SameBlocks(s, t, pdus + [r.pdu], idx);
    } else {
      idx' := HandledReassembled(cfg, s, pdus, idx, r.pdu);
      var h := Actions(cfg, s, r.pdu);
      FlagsActed(cfg, s, r.pdu);
      SameBlocks(h.s, t, pdus + [r.pdu], idx');
    }
  }

  lemma NothingReassembled(s: Session, pdus: seq<Pdu>)
    requires s.buf == [] && s.count == 0
    ensures Reassembled(s, pdus, [])
  {
  }

  /** An error is always carried by an ACK, and so resets the session. */
  lemma FlagsActed(cfg: Config, s: Session, p: Pdu)
    ensures var f := Actions(cfg, s, p).flags; IndicatesError(f) ==> SendAck in f
  {
  }

  /** The sessions and PDUs of a run from a fresh session. */
  predicate IsRun(cfg: Config, ss: seq<Session>, datas: seq<bytes>, envs: seq<Env>)
    requires cfg.Valid()
  {
    && |ss| == |datas| + 1 == |envs| + 1 && ss[0] == FRESH
    && forall i :: 0 <= i < |datas| ==> ss[i + 1] == Receive(cfg, ss[i], datas[i], envs[i]).s
  }

  function Pdus(cfg: Config, datas: seq<bytes>): seq<Pdu> {
    seq(|datas|, i requires 0 <= i < |datas| => ParsePdu(datas[i], cfg.queryOk).pdu)
  }

  /**
   Over every run in which no transfer is interrupted by another and every reply-to is accepted, the buffer is
   at all times the concatenation of blocks 0 .. count-1, taken in order from what was received.
   */
  lemma {:induction false} BufferIsBlocks(cfg: Config, ss: seq<Session>, datas: seq<bytes>, envs: seq<Env>, n: nat)
    returns (idx: seq<nat>)
    requires cfg.Valid() && IsRun(cfg, ss, datas, envs) && n <= |datas|
    requires forall i :: 0 <= i < n ==> envs[i].replyToOk && SameTransfer(ss[i], ParsePdu(datas[i], cfg.queryOk).pdu)
    ensures Reassembled(ss[n], Pdus(cfg, datas[..n]), idx)
  {
    hide ParsePdu, Receive;
    if n == 0 {
      idx := [];
    } else {
      var before := BufferIsBlocks(cfg, ss, datas, envs, n - 1);
      var p := ParsePdu(datas[n - 1], cfg.queryOk).pdu;
      idx := StepReassembles(cfg, ss[n - 1], Pdus(cfg, datas[..n - 1]), before, datas[n - 1], envs[n - 1]);
      assert Pdus(cfg, datas[..n]) == Pdus(cfg, datas[..n - 1]) + [p];
    }
  }

  // ---------------------------------------------------------------- why both hypotheses are needed

  /**
   A PDU with another token starts a new record without clearing the buffer. If its only block is accepted, the
   record handed over is its payload exactly when nothing was left of the interrupted transfer.
   */
  lemma InterruptedExactly(cfg: Config, s: Session, p: Pdu, env: Env)
    requires cfg.Valid() && Parseable(p) && s.count > 0 && p.token != s.token && env.replyToOk
    requires UspRecordComplete in HandleBlock(cfg, s, p).flags
    ensures var t := Act(cfg, HandleBlock(cfg, s, p).s, p, HandleBlock(cfg, s, p).flags, env);
      t.posted == Some(s.buf + p.payload) && (t.posted == Some(p.payload) <==> s.buf == [])
  {
    hide WriteAck, WriteRst;
    assert |s.buf + p.payload| == |s.buf| + |p.payload|;
    if s.buf == [] {
      assert s.buf + p.payload == p.payload;
    }
  }

  /**
   A complete record whose reply-to is refused is not handed over; the buffer is cleared all the same exactly
   when the ACK could not be sent.
   */
  lemma RefusedReplyExactly(cfg: Config, s: Session, p: Pdu, env: Env)
    requires cfg.Valid() && Parseable(p) && !env.replyToOk
    requires UspRecordComplete in HandleBlock(cfg, s, p).flags
    ensures var h := HandleBlock(cfg, s, p);
      var t := Act(cfg, h.s, p, h.flags, env);
      && t.posted.None?
      && (t.s.buf == h.s.buf && t.s.count == h.s.count > 0 <==> env.sendOk)
  {
    hide WriteAck, WriteRst;
  }

  // ---------------------------------------------------------------- block sizes that have a code

  /**
   For every datagram, the Block1 option of the ACK is written with one of the seven sizes from 16 to 1024, also
   where the datagram announces the reserved code: the client is never told a size above its own.
   */
  lemma AckSizeHasCode(cfg: Config, data: bytes)
    requires cfg.Valid()
    ensures var p := ParsePdu(data, cfg.queryOk).pdu;
      p.block1.Some? ==>
        var size := Min(cfg.rxSize, p.block1.value.size);
        ValidBlockSize(size) && 16 <= size <= 1024 && size <= p.block1.value.size
  {
    hide ParsePdu;
    ParsedIsParseable(data, cfg.queryOk);
  }
}
