/**
 What holds of the CoAP client in every run: it is never left without a timer, its call cycle ends,
 retries and waits are bounded, and the send queue keeps order.
 */
module CoapClientProofs {
  import opened CommonDefs
  import opened CoapCodec
  import opened CoapClient

  /** A record in the queue always has a timer that will act on it, and lingering means the queue is empty. */
  predicate NotStranded(c: Client) {
    && (c.queue != [] ==>
          (c.sock.Some? && c.ackTime.Some?) || (c.sock.None? && c.reconnTime.Some?))
    && (c.linger.Some? ==> c.queue == [])
  }

  /** What every operation keeps, whether or not the client may connect. */
  predicate Sound(c: Client) {
    Valid(c) && (c.linger.Some? ==> c.queue == [])
  }

  /** What the functions that may close and reopen the socket leave behind. */
  predicate Settled(cfg: Config, o: Outcome)
    requires cfg.Valid()
  {
    o.Running? ==>
      && Sound(o.c)
      && (o.sent.Some? ==> o.c.sock.Some? && o.c.ackTime.Some? && Sending(o.c) && o.sent == WriteBlock(cfg, o.c))
  }

  predicate Unstranded(o: Outcome) {
    o.Running? ==> NotStranded(o.c)
  }

  lemma {:induction false} RetryLaterSettles(cfg: Config, c: Client, zeroDelay: bool, env: nat -> Env, k: nat)
    requires cfg.Valid()
    ensures Settled(cfg, RetryLater(cfg, c, zeroDelay, env, k)) && Unstranded(RetryLater(cfg, c, zeroDelay, env, k))
    decreases |c.queue|, 1
  {
    hide WriteBlock, StartRecord;
    var c1 := Stop(c).(reconns := c.reconns + 1);
    if c1.reconns >= MAX_COAP_RECONNECTS && c1.queue != [] {
      StartRecordSettles(cfg, c1.(queue := c1.queue[1..]), false, env, k + 1);
    }
  }

  lemma {:induction false} StartRecordSettles(cfg: Config, c: Client, retry: bool, env: nat -> Env, k: nat)
    requires cfg.Valid() && Startable(c) && (retry ==> c.sock.None?)
    ensures Settled(cfg, StartRecord(cfg, c, retry, env, k))
    ensures (c.sock.Some? ==> env(k).allowed) ==> Unstranded(StartRecord(cfg, c, retry, env, k))
    decreases |c.queue|, 4
  {
    hide WriteBlock, RetryLater, SendFirst;
    var e := env(k);
    var c1 := Cleared(c, retry, e);
    if c1.queue != [] && e.allowed {
      if e.addr.None? {
        RetryLaterSettles(cfg, c1, false, env, k);
      } else {
        var c2 := (if SamePeer(c1, e.addr.value) then c1 else Stop(c1)).(ackMs := e.ackMs, retrans := 0);
        if c2.sock.Some? {
          SendFirstSettles(cfg, c2, env, k);
        } else {
          SendFirstSettles(cfg, Connected(c2, e.addr.value), env, k);
          RetryLaterSettles(cfg, Connected(c2, e.addr.value), false, env, k);
        }
      }
    }
  }

  lemma {:induction false} SendFirstSettles(cfg: Config, c: Client, env: nat -> Env, k: nat)
    requires cfg.Valid() && c.queue != [] && c.sock.Some? && c.sock.value < c.socks && c.linger.None?
    ensures Settled(cfg, SendFirst(cfg, c, env, k)) && Unstranded(SendFirst(cfg, c, env, k))
    decreases |c.queue|, 3
  {
    hide WriteBlock, RetryLater, SendBlock;
    var c1 := FirstBlock(cfg, c, env(k));
    RetryLaterSettles(cfg, c1, false, env, k);
    if env(k).query.Some? {
      SendBlockSettles(cfg, c1.(query := env(k).query.value), false, env, k);
    }
  }

  lemma {:induction false} SendBlockSettles(cfg: Config, c: Client, zeroDelay: bool, env: nat -> Env, k: nat)
    requires cfg.Valid() && Sending(c) && c.sock.Some? && c.sock.value < c.socks && c.linger.None?
    ensures Settled(cfg, SendBlock(cfg, c, zeroDelay, env, k)) && Unstranded(SendBlock(cfg, c, zeroDelay, env, k))
    decreases |c.queue|, 2
  {
    hide RetryLater, BlockOptions, EncodePdu, BlockPayload, PduSize, AllWritable;
    var c1 := c.(ackTime := Some(env(k).now + Quot(c.ackMs, 1000)));
    RetryLaterSettles(cfg, c1, zeroDelay, env, k);
    assert WriteBlock(cfg, c1) == WriteBlock(cfg, c) by { WriteIgnoresTimers(cfg, c, c1); }
  }

  /** The PDU depends only on the record, the block state and the peer. */
  lemma WriteIgnoresTimers(cfg: Config, c: Client, d: Client)
    requires Sending(c) && Sending(d)
    requires c.queue[0] == d.queue[0] && c.mid == d.mid && c.token == d.token && c.query == d.query
    requires c.curBlock == d.curBlock && c.blockSize == d.blockSize && c.bytesSent == d.bytesSent
    requires c.peerAddr == d.peerAddr
    ensures WriteBlock(cfg, c) == WriteBlock(cfg, d)
  {
    hide EncodePdu, AllWritable, EncodeBlock, PathOptions;
    assert MoreBlocks(c) == MoreBlocks(d) && BlockPayload(c) == BlockPayload(d);
    if cfg.addrText(c.peerAddr).Some? {
      assert BlockOptions(cfg, c) == BlockOptions(cfg, d);
    }
  }

  /** What StartSendingCoapUspRecord may be called with. */
  predicate Startable(c: Client) {
    c.mid < 0x1_0000 && |c.token| == 4 && (c.sock.Some? ==> ValidBlockSize(c.blockSize) && c.sock.value < c.socks)
  }

  // ---------------------------------------------------------------- never stranded

  lemma HandleAckSettles(cfg: Config, c: Client, rx: Received, env: nat -> Env)
    requires cfg.Valid() && Sound(c) && c.sock.Some?
    ensures Settled(cfg, HandleAck(cfg, c, rx, env))
    ensures NotStranded(c) && env(0).allowed ==> Unstranded(HandleAck(cfg, c, rx, env))
  {
    hide WriteBlock, RetryLater, SendBlock, StartRecord, ParsePdu, EncodePdu;
    RetryLaterSettles(cfg, c, false, env, 0);
    if rx.Data? {
      var r := ParsePdu(rx.data, cfg.queryOk);
      CoapServer.ParsedIsParseable(rx.data, cfg.queryOk);
      RetryLaterSettles(cfg, c.(mid := NextMid(c.mid)), false, env, 0);
      if c.queue != [] {
        StartRecordSettles(cfg, c.(queue := c.queue[1..]), false, env, 0);
        if r.flags == {} && AckActions(c, r.pdu) == SendNextBlock {
          SendBlockSettles(cfg, NextBlock(c, r.pdu.block1.value.size, env(0)), false, env, 0);
        }
      }
    }
  }

  lemma HandleNoAckSettles(cfg: Config, c: Client, env: nat -> Env)
    requires cfg.Valid() && Sound(c) && c.sock.Some? && c.ackTime.Some?
    ensures Settled(cfg, HandleNoAck(cfg, c, env))
    ensures env(0).allowed ==> Unstranded(HandleNoAck(cfg, c, env))
  {
    hide WriteBlock, RetryLater, SendBlock, StartRecord;
    var c1 := c.(retrans := c.retrans + 1, reconns := c.reconns + 1);
    StartRecordSettles(cfg, c1.(queue := c1.queue[1..]), false, env, 0);
    RetryLaterSettles(cfg, c1, true, env, 0);
    SendBlockSettles(cfg, c1.(ackMs := 2 * c1.ackMs), false, env, 0);
  }

  lemma StepSettles(cfg: Config, c: Client, ev: Event, env: nat -> Env)
    requires cfg.Valid() && Sound(c) && Enabled(c, ev)
    ensures Settled(cfg, Step(cfg, c, ev, env))
    ensures NotStranded(c) && (c.sock.Some? ==> env(0).allowed) ==> Unstranded(Step(cfg, c, ev, env))
  {
    hide WriteBlock, HandleAck, HandleNoAck, StartRecord;
    match ev
    case Queued(item) =>
      var c1 := c.(queue := RemoveExpired(c.queue, env(0).now) + [item]);
      StartRecordSettles(cfg, c1, false, env, 0);
    case Rx(rx) => HandleAckSettles(cfg, c, rx, env);
    case AckTimer => HandleNoAckSettles(cfg, c, env);
    case ReconnectTimer => StartRecordSettles(cfg, c, true, env, 0);
    case _ =>
  }

  /** The states of a run that no assertion ended; step i is event evs[i] with the outcomes envs[i]. */
  predicate IsRun(cfg: Config, cs: seq<Client>, evs: seq<Event>, envs: seq<nat -> Env>)
    requires cfg.Valid()
  {
    && |cs| == |evs| + 1 == |envs| + 1
    && forall i :: 0 <= i < |evs| ==> StepTo(cfg, cs[i], evs[i], envs[i], cs[i + 1])
  }

  predicate StepTo(cfg: Config, c: Client, ev: Event, env: nat -> Env, d: Client)
    requires cfg.Valid()
  {
    Valid(c) && Enabled(c, ev) && Step(cfg, c, ev, env).Running? && Step(cfg, c, ev, env).c == d
  }

  /** Once the client has a socket it was allowed to connect, and this is not taken back. */
  predicate PermissionKept(cs: seq<Client>, envs: seq<nat -> Env>)
    requires |cs| == |envs| + 1
  {
    forall i :: 0 <= i < |envs| && cs[i].sock.Some? ==> envs[i](0).allowed
  }

  /** In every reachable state the client is not stranded. */
  lemma {:induction false} NeverStranded(cfg: Config, cs: seq<Client>, evs: seq<Event>, envs: seq<nat -> Env>, i: nat)
    requires cfg.Valid() && IsRun(cfg, cs, evs, envs) && PermissionKept(cs, envs)
    requires exists mid: nat, ms :: mid < 0x1_0000 && cs[0] == Initial(mid, ms)
    requires i < |cs|
    ensures Valid(cs[i]) && NotStranded(cs[i])
  {
    if i == 0 {
    } else {
      NeverStranded(cfg, cs, evs, envs, i - 1);
      assert StepTo(cfg, cs[i - 1], evs[i - 1], envs[i - 1], cs[i]);
      StepSettles(cfg, cs[i - 1], evs[i - 1], envs[i - 1]);
    }
  }

  /**
   The permission is exactly what is needed: starting a record leaves the client stranded if and only if it
   is refused while the socket is open and a record is waiting.
   */
  lemma StrandedExactly(cfg: Config, c: Client, retry: bool, env: nat -> Env, k: nat)
    requires cfg.Valid() && Startable(c) && (retry ==> c.sock.None?) && StartRecord(cfg, c, retry, env, k).Running?
    ensures !NotStranded(StartRecord(cfg, c, retry, env, k).c) <==>
            c.sock.Some? && c.queue != [] && !env(k).allowed
  {
    hide RetryLater, SendFirst;
    StartRecordSettles(cfg, c, retry, env, k);
  }

  // ---------------------------------------------------------------- staying on one socket

  /** The client after the first block of the record now at the head of its queue was written and sent. */
  predicate FreshRecord(cfg: Config, c: Client, d: Client)
    requires cfg.Valid()
  {
    && d.queue != [] && d.mid == NextMid(c.mid) && d.curBlock == 0 && d.bytesSent == 0
    && d.blockSize == cfg.txSize && |d.token| == 4 && d.retrans == 0 && d.ackTime.Some?
    && d.enc == c.enc
  }

  /**
   If no socket was closed, either the next record was started on the same socket or nothing was sent: because the
   queue ran empty, or because the client may not connect.
   */
  predicate OnSameSocket(cfg: Config, c: Client, o: Outcome, allowed: bool)
    requires cfg.Valid()
  {
    o.Running? && c.sock.Some? && o.c.sock == c.sock ==>
      && o.c.socks == c.socks && (allowed ==> (o.sent.None? <==> o.c.queue == []))
      && if o.sent.None? then o.c.mid == c.mid && o.c.token == c.token && o.c.ackTime.None?
         else FreshRecord(cfg, c, o.c)
  }

  lemma {:induction false} RetryLaterLeavesSocket(cfg: Config, c: Client, zeroDelay: bool, env: nat -> Env, k: nat)
    requires cfg.Valid()
    ensures var o := RetryLater(cfg, c, zeroDelay, env, k);
      o.Running? ==> o.rst.None? && o.c.socks >= c.socks && (o.c.sock.Some? ==> o.c.sock.value >= c.socks)
    decreases |c.queue|, 1
  {
    hide StartRecord;
    var c1 := Stop(c).(reconns := c.reconns + 1);
    if c1.reconns >= MAX_COAP_RECONNECTS && c1.queue != [] {
      StartRecordSocket(cfg, c1.(queue := c1.queue[1..]), false, env, k + 1);
    }
  }

  lemma {:induction false} StartRecordSocket(cfg: Config, c: Client, retry: bool, env: nat -> Env, k: nat)
    requires cfg.Valid() && Startable(c)
    ensures var o := StartRecord(cfg, c, retry, env, k);
      && (o.Running? ==> o.rst.None? && o.c.socks >= c.socks)
      && (o.Running? && o.c.sock.Some? ==> o.c.sock == c.sock || o.c.sock.value >= c.socks)
      && OnSameSocket(cfg, c, o, env(k).allowed)
    decreases |c.queue|, 4
  {
    hide RetryLater, SendFirst;
    var e := env(k);
    var c1 := Cleared(c, retry, e);
    if c1.queue != [] && e.allowed {
      if e.addr.None? {
        RetryLaterLeavesSocket(cfg, c1, false, env, k);
      } else {
        var c2 := (if SamePeer(c1, e.addr.value) then c1 else Stop(c1)).(ackMs := e.ackMs, retrans := 0);
        if c2.sock.Some? {
          SendFirstSocket(cfg, c2, env, k);
        } else if e.connectOk {
          SendFirstSocket(cfg, Connected(c2, e.addr.value), env, k);
        } else {
          RetryLaterLeavesSocket(cfg, Connected(c2, e.addr.value), false, env, k);
        }
      }
    }
  }

  lemma {:induction false} SendFirstSocket(cfg: Config, c: Client, env: nat -> Env, k: nat)
    requires cfg.Valid() && c.queue != []
    ensures var o := SendFirst(cfg, c, env, k);
      && (o.Running? ==> o.rst.None? && o.c.socks >= c.socks)
      && (o.Running? && o.c.sock.Some? ==>
            || o.c.sock.value >= c.socks
            || (o.c.sock == c.sock && o.sent.Some? && o.c.socks == c.socks && o.c.retrans == c.retrans
                && FreshRecord(cfg, c, o.c.(retrans := 0))))
    decreases |c.queue|, 3
  {
    hide RetryLater, WriteBlock;
    var c1 := FirstBlock(cfg, c, env(k));
    RetryLaterLeavesSocket(cfg, c1, false, env, k);
    if env(k).query.Some? {
      var c2 := c1.(query := env(k).query.value);
      RetryLaterLeavesSocket(cfg, c2.(ackTime := Some(env(k).now + Quot(c2.ackMs, 1000))), false, env, k);
    }
  }

  // ---------------------------------------------------------------- retransmission of one block

  function Pow2(n: nat): nat {
    if n == 0 then 1 else 2 * Pow2(n - 1)
  }

  /** The client is waiting for the ACK of the same block: same socket, same message id, a record in the queue. */
  predicate SameBlock(c: Client, d: Client) {
    && c.sock.Some? && d.sock == c.sock && d.mid == c.mid && c.queue != [] && d.queue != []
    && c.ackTime.Some? && d.ackTime.Some?
  }

  /** A step that keeps the block either repeats its PDU, doubling the wait, or sends nothing. */
  lemma StepSameBlock(cfg: Config, c: Client, ev: Event, env: nat -> Env)
    requires cfg.Valid() && Sound(c) && Enabled(c, ev)
    requires Step(cfg, c, ev, env).Running? && SameBlock(c, Step(cfg, c, ev, env).c)
    ensures var o := Step(cfg, c, ev, env);
      if ev.AckTimer? then
        && !c.enc && c.retrans + 1 < COAP_MAX_RETRANSMIT
        && o.c.retrans == c.retrans + 1 && o.c.ackMs == 2 * c.ackMs && o.sent == WriteBlock(cfg, c)
      else
        o.c.retrans == c.retrans && o.c.ackMs == c.ackMs && o.sent.None?
  {
    hide WriteBlock, RetryLater, StartRecord, ParsePdu, EncodePdu;
    var o := Step(cfg, c, ev, env);
    match ev
    case AckTimer =>
      var c1 := c.(retrans := c.retrans + 1, reconns := c.reconns + 1);
      var c2 := c1.(ackMs := 2 * c1.ackMs);
      StartRecordSocket(cfg, c1.(queue := c1.queue[1..]), false, env, 0);
      RetryLaterLeavesSocket(cfg, c1, true, env, 0);
      RetryLaterLeavesSocket(cfg, c2.(ackTime := Some(env(0).now + Quot(c2.ackMs, 1000))), false, env, 0);
      WriteIgnoresTimers(cfg, c, c2);
    case Rx(rx) => AckSameBlock(cfg, c, rx, env);
    case Queued(item) =>
    case _ =>
  }

  lemma AckSameBlock(cfg: Config, c: Client, rx: Received, env: nat -> Env)
    requires cfg.Valid() && Sound(c) && c.sock.Some?
    requires HandleAck(cfg, c, rx, env).Running? && SameBlock(c, HandleAck(cfg, c, rx, env).c)
    ensures HandleAck(cfg, c, rx, env) == Running(c, None, None)
  {
    hide WriteBlock, RetryLater, StartRecord, ParsePdu, EncodePdu;
    RetryLaterLeavesSocket(cfg, c, false, env, 0);
    StartRecordSocket(cfg, c.(queue := c.queue[1..]), false, env, 0);
    if rx.Data? {
      var r := ParsePdu(rx.data, cfg.queryOk);
      CoapServer.ParsedIsParseable(rx.data, cfg.queryOk);
      RetryLaterLeavesSocket(cfg, c.(mid := NextMid(c.mid)), false, env, 0);
      if r.flags == {} && AckActions(c, r.pdu) == SendNextBlock {
        var d := NextBlock(c, r.pdu.block1.value.size, env(0));
        RetryLaterLeavesSocket(cfg, d.(ackTime := Some(env(0).now + Quot(d.ackMs, 1000))), false, env, 0);
      }
    }
  }

  function CountTimeouts(evs: seq<Event>): nat {
    if evs == [] then 0 else CountTimeouts(evs[..|evs| - 1]) + (if evs[|evs| - 1].AckTimer? then 1 else 0)
  }

  /** The milliseconds waited for the ACKs that did not come. */
  function Waited(cs: seq<Client>, evs: seq<Event>): nat
    requires |cs| == |evs| + 1
  {
    if evs == [] then 0
    else
      var n := |evs| - 1;
      Waited(cs[..n + 1], evs[..n]) + (if evs[n].AckTimer? then cs[n].ackMs else 0)
  }

  /**
   From the first time a block is sent until it is acknowledged or given up, over every run: it is sent once
   plus once per timeout, at most COAP_MAX_RETRANSMIT times in all; each wait is twice the one before; and the
   total wait is initial * (2^n - 1) after n timeouts.
   */
  lemma {:induction false} RetransmissionBounded(cfg: Config, cs: seq<Client>, evs: seq<Event>, envs: seq<nat -> Env>)
    requires cfg.Valid() && IsRun(cfg, cs, evs, envs) && Sound(cs[0]) && cs[0].retrans == 0
    requires forall i :: 0 <= i < |evs| ==> SameBlock(cs[i], cs[i + 1])
    ensures var d, n := cs[|cs| - 1], CountTimeouts(evs);
      && Sound(d) && n < COAP_MAX_RETRANSMIT && d.retrans == n
      && d.ackMs == cs[0].ackMs * Pow2(n)
      && Waited(cs, evs) == cs[0].ackMs * (Pow2(n) - 1)
    decreases |evs|
  {
    hide Step;
    if evs == [] {
    } else {
      var n := |evs| - 1;
      var ds, es, vs := cs[..n + 1], evs[..n], envs[..n];
      assert IsRun(cfg, ds, es, vs) by {
        forall i | 0 <= i < n ensures StepTo(cfg, ds[i], es[i], vs[i], ds[i + 1]) {
          assert StepTo(cfg, cs[i], evs[i], envs[i], cs[i + 1]);
        }
      }
      forall i | 0 <= i < n ensures SameBlock(ds[i], ds[i + 1]) {
        assert SameBlock(cs[i], cs[i + 1]);
      }
      RetransmissionBounded(cfg, ds, es, vs);
      assert StepTo(cfg, cs[n], evs[n], envs[n], cs[n + 1]);
      assert SameBlock(cs[n], cs[n + 1]);
      StepSameBlock(cfg, cs[n], evs[n], envs[n]);
      StepSettles(cfg, cs[n], evs[n], envs[n]);
      Doubling(cs[0].ackMs, CountTimeouts(es));
    }
  }

  lemma Doubling(ms: nat, n: nat)
    ensures ms * Pow2(n + 1) == 2 * (ms * Pow2(n))
    ensures ms * (Pow2(n + 1) - 1) == ms * (Pow2(n) - 1) + ms * Pow2(n)
  {
    var p: int := Pow2(n);
    assert ms * (2 * p) == 2 * (ms * p);
    assert ms * (2 * p - 1) == ms * (2 * p) - ms && ms * (p - 1) == ms * p - ms;
  }

  // ---------------------------------------------------------------- the assertion in FreeCoapSendItem

  /**
   While the queue is empty, a received datagram ends the program (FreeCoapSendItem has nothing to free) if and
   only if it is an ACK of the last PDU, token and message id, whose class is not success.
   */
  lemma IdleEndsExactly(cfg: Config, c: Client, data: bytes, env: nat -> Env)
    requires cfg.Valid() && Valid(c) && c.sock.Some? && c.queue == []
    ensures HandleAck(cfg, c, Data(data), env).Ended? <==>
      var r := ParsePdu(data, cfg.queryOk);
      && r.flags == {} && r.pdu.hdr.pduType.Acknowledgement? && r.pdu.token == c.token && r.pdu.hdr.mid == c.mid
      && r.pdu.hdr.cls != CoapServer.CLASS_SUCCESS
  {
    hide ParsePdu, EncodePdu;
    CoapServer.ParsedIsParseable(data, cfg.queryOk);
  }

  // ---------------------------------------------------------------- what is sent on a new socket

  /** If anything was sent, it is the first block of the record at the head of the queue. */
  predicate SentFirst(cfg: Config, o: Outcome) {
    o.Running? && o.sent.Some? ==> o.c.curBlock == 0 && o.c.bytesSent == 0 && o.c.blockSize == cfg.txSize
  }

  lemma {:induction false} RetryLaterSendsFirst(cfg: Config, c: Client, zeroDelay: bool, env: nat -> Env, k: nat)
    requires cfg.Valid()
    ensures SentFirst(cfg, RetryLater(cfg, c, zeroDelay, env, k))
    decreases |c.queue|, 1
  {
    hide StartRecord;
    var c1 := Stop(c).(reconns := c.reconns + 1);
    if c1.reconns >= MAX_COAP_RECONNECTS && c1.queue != [] {
      StartRecordSendsFirst(cfg, c1.(queue := c1.queue[1..]), false, env, k + 1);
    }
  }

  lemma {:induction false} StartRecordSendsFirst(cfg: Config, c: Client, retry: bool, env: nat -> Env, k: nat)
    requires cfg.Valid()
    ensures SentFirst(cfg, StartRecord(cfg, c, retry, env, k))
    decreases |c.queue|, 4
  {
    hide RetryLater, SendFirst;
    var e := env(k);
    var c1 := Cleared(c, retry, e);
    if c1.queue != [] && e.allowed {
      RetryLaterSendsFirst(cfg, c1, false, env, k);
      if e.addr.Some? {
        var c2 := (if SamePeer(c1, e.addr.value) then c1 else Stop(c1)).(ackMs := e.ackMs, retrans := 0);
        SendFirstSendsFirst(cfg, c2, env, k);
        SendFirstSendsFirst(cfg, Connected(c2, e.addr.value), env, k);
        RetryLaterSendsFirst(cfg, Connected(c2, e.addr.value), false, env, k);
      }
    }
  }

  lemma {:induction false} SendFirstSendsFirst(cfg: Config, c: Client, env: nat -> Env, k: nat)
    requires cfg.Valid() && c.queue != []
    ensures SentFirst(cfg, SendFirst(cfg, c, env, k))
    decreases |c.queue|, 3
  {
    hide RetryLater, WriteBlock;
    var c1 := FirstBlock(cfg, c, env(k));
    RetryLaterSendsFirst(cfg, c1, false, env, k);
    if env(k).query.Some? {
      var c2 := c1.(query := env(k).query.value);
      RetryLaterSendsFirst(cfg, c2.(ackTime := Some(env(k).now + Quot(c2.ackMs, 1000))), false, env, k);
    }
  }

  // ---------------------------------------------------------------- block sizes that have a code

  /** In every reachable state, whether or not the client may connect. */
  lemma {:induction false} AlwaysSound(cfg: Config, cs: seq<Client>, evs: seq<Event>, envs: seq<nat -> Env>, i: nat)
    requires cfg.Valid() && IsRun(cfg, cs, evs, envs) && i < |cs|
    requires exists mid: nat, ms :: mid < 0x1_0000 && cs[0] == Initial(mid, ms)
    ensures Sound(cs[i])
  {
    hide Step;
    if i == 0 {
    } else {
      AlwaysSound(cfg, cs, evs, envs, i - 1);
      assert StepTo(cfg, cs[i - 1], evs[i - 1], envs[i - 1], cs[i]);
      StepSettles(cfg, cs[i - 1], evs[i - 1], envs[i - 1]);
    }
  }

  /** The sizes with which a step may come to write a block: of a first block, of a repeated one, of the next one */
  predicate MayWrite(cfg: Config, c: Client, ev: Event, size: nat) {
    || size == cfg.txSize
    || (ev.AckTimer? && size == c.blockSize)
    || (ev.Rx? && ev.rx.Data? && AcksBlock(cfg, c, ev.rx.data)
        && size == Min(c.blockSize, ParsePdu(ev.rx.data, cfg.queryOk).pdu.block1.value.size))
  }

  predicate AcksBlock(cfg: Config, c: Client, data: bytes) {
    var r := ParsePdu(data, cfg.queryOk);
    r.flags == {} && AckActions(c, r.pdu) == SendNextBlock && r.pdu.block1.Some?
  }

  lemma StepWrites(cfg: Config, c: Client, ev: Event, env: nat -> Env)
    requires cfg.Valid() && Sound(c) && Enabled(c, ev)
    ensures var o := Step(cfg, c, ev, env); o.Running? && o.sent.Some? ==> MayWrite(cfg, c, ev, o.c.blockSize)
  {
    hide WriteBlock, RetryLater, StartRecord, ParsePdu, EncodePdu;
    match ev
    case Queued(item) =>
      StartRecordSendsFirst(cfg, c.(queue := RemoveExpired(c.queue, env(0).now) + [item]), false, env, 0);
    case Rx(rx) =>
      RetryLaterSendsFirst(cfg, c, false, env, 0);
      RetryLaterSendsFirst(cfg, c.(mid := NextMid(c.mid)), false, env, 0);
      if c.queue != [] {
        StartRecordSendsFirst(cfg, c.(queue := c.queue[1..]), false, env, 0);
      }
      if rx.Data? && AcksBlock(cfg, c, rx.data) {
        var d := NextBlock(c, ParsePdu(rx.data, cfg.queryOk).pdu.block1.value.size, env(0));
        RetryLaterSendsFirst(cfg, d.(ackTime := Some(env(0).now + Quot(d.ackMs, 1000))), false, env, 0);
      }
    case AckTimer =>
      var c1 := c.(retrans := c.retrans + 1, reconns := c.reconns + 1);
      var c2 := c1.(ackMs := 2 * c1.ackMs);
      StartRecordSendsFirst(cfg, c1.(queue := c1.queue[1..]), false, env, 0);
      RetryLaterSendsFirst(cfg, c1, true, env, 0);
      RetryLaterSendsFirst(cfg, c2.(ackTime := Some(env(0).now + Quot(c2.ackMs, 1000))), false, env, 0);
    case ReconnectTimer => StartRecordSendsFirst(cfg, c, true, env, 0);
    case _ =>
  }

  /**
   In every run, whether or not the client may connect, a Block1 option is written with one of the seven sizes from
   16 to 1024, so that the size always has a code; and the size in the PDU sent is one of those.
   */
  lemma SizesHaveCodes(cfg: Config, cs: seq<Client>, evs: seq<Event>, envs: seq<nat -> Env>, i: nat, size: nat)
    requires cfg.Valid() && IsRun(cfg, cs, evs, envs) && i < |evs|
    requires exists mid: nat, ms :: mid < 0x1_0000 && cs[0] == Initial(mid, ms)
    ensures StepTo(cfg, cs[i], evs[i], envs[i], cs[i + 1])
    ensures MayWrite(cfg, cs[i], evs[i], size) ==> ValidBlockSize(size) && 16 <= size <= 1024
    ensures var o := Step(cfg, cs[i], evs[i], envs[i]);
      o.sent.Some? ==> Sending(o.c) && o.sent == WriteBlock(cfg, o.c) && MayWrite(cfg, cs[i], evs[i], o.c.blockSize)
  {
    hide Step, ParsePdu, WriteBlock;
    AlwaysSound(cfg, cs, evs, envs, i);
    assert StepTo(cfg, cs[i], evs[i], envs[i], cs[i + 1]);
    StepSettles(cfg, cs[i], evs[i], envs[i]);
    StepWrites(cfg, cs[i], evs[i], envs[i]);
    if evs[i].Rx? && evs[i].rx.Data? {
      CoapServer.ParsedIsParseable(evs[i].rx.data, cfg.queryOk);
    }
  }
}
