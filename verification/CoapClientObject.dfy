/**
 The CoAP client as the object the source updates in place. Each method is proved to do what the function of
 the same operation in CoapClient says; the decreases clauses show that the cycle of calls between starting,
 connecting, sending and retrying ends for every outcome of the outside world.
 */
module CoapClientObject {
  import opened CommonDefs
  import opened CoapCodec
  import C = CoapClient
  import S = CoapServer
  import P = CoapClientProofs
  import CoapServerObject
  import CoapWire

  /** A record is dropped, retried after a failure, or simply started. */
  datatype StartMode = SendCurrent | SendNext | RetryCurrent

  /** The fields of coap_client_t beside the queue, grouped by what they describe. */
  datatype Connection = Connection(sock: Option<nat>, socks: nat, peerAddr: nat, peerPort: nat, enc: bool)
  datatype BlockState = BlockState(mid: nat, token: bytes, query: bytes, curBlock: nat, blockSize: nat, bytesSent: nat)
  datatype Timers = Timers(
    ackMs: nat, ackTime: Option<int>, retrans: nat, reconnMs: nat, reconnTime: Option<int>, reconns: nat,
      linger: Option<int>)

  class SendClient {
    var queue: seq<C.Item>
    var conn: Connection
    var block: BlockState
    var timers: Timers

    function Value(): C.Client
      reads this
    {
      C.Client(queue, conn.sock, conn.socks, conn.peerAddr, conn.peerPort, conn.enc,
               block.mid, block.token, block.query, block.curBlock, block.blockSize, block.bytesSent,
               timers.ackMs, timers.ackTime, timers.retrans,
               timers.reconnMs, timers.reconnTime, timers.reconns, timers.linger)
    }

    /** The object and the PDU it sent are what the outcome says; after Ended nothing is claimed. */
    ghost predicate Is(o: C.Outcome, ended: bool, sent: Option<bytes>)
      reads this
    {
      ended == o.Ended? && (!ended ==> Value() == o.c && sent == o.sent)
    }

    /** COAP_CLIENT_Start */
    constructor (firstMid: nat, firstReconnMs: nat)
      ensures Value() == C.Initial(firstMid, firstReconnMs)
    {
      queue := [];
      conn := Connection(None, 0, 0, 0, false);
      block := BlockState(firstMid, [0, 0, 0, 0], [], 0, 0, 0);
      timers := Timers(0, Some(0), 0, firstReconnMs, None, 0, None);
    }

    /** StopSendingToController */
    method Stop()
      modifies this
      ensures Value() == C.Stop(old(Value()))
    {
      conn := conn.(sock := None, peerAddr := 0, peerPort := C.NO_PORT);
      block := BlockState(0, [0, 0, 0, 0], [], 0, 0, 0);
      timers := timers.(retrans := 0, ackMs := 0, ackTime := None, reconnTime := None, linger := None);
    }

    /** RemoveExpiredCoapMessages: items behind the head are unlinked as the loop meets them. */
    method RemoveExpired(now: int)
      modifies `queue
      ensures queue == C.RemoveExpired(old(queue), now)
    {
      if queue == [] {
        return;
      }
      ghost var all, done := queue, 1;
      ghost var kept: seq<C.Item> := [];
      assert all[1..1] == [] && queue == [all[0]] + kept + all[1..];
      var i := 1;
      while i < |queue|
        invariant 1 <= done <= |all| && kept == C.Unexpired(all[1..done], now)
        invariant i == 1 + |kept| && queue == [all[0]] + kept + all[done..]
        decreases |queue| - i
      {
        assert queue[i] == all[done];
        Advance(all, done, kept, now);
        if now > queue[i].expiry {
          queue := queue[..i] + queue[i + 1..];
        } else {
          i := i + 1;
          kept := kept + [all[done]];
        }
        done := done + 1;
      }
      assert all[1..done] == all[1..];
      assert queue == [all[0]] + kept;
    }

    /** IsUspRecordInCoapQueue */
    method InQueue(payload: bytes) returns (found: bool)
      ensures found == C.InQueue(queue, payload)
    {
      var i := 0;
      while i < |queue|
        invariant 0 <= i <= |queue|
        invariant forall j :: 0 <= j < i ==> queue[j].payload != payload
      {
        if queue[i].payload == payload {
          return true;
        }
        i := i + 1;
      }
      found := false;
    }

    /** RetryClientSendLater, in attempt k */
    method RetryLater(cfg: C.Config, zeroDelay: bool, env: nat -> C.Env, k: nat)
      returns (ended: bool, sent: Option<bytes>)
      requires cfg.Valid()
      modifies this
      ensures Is(C.RetryLater(cfg, old(Value()), zeroDelay, env, k), ended, sent)
      decreases |queue|, 1
    {
      hide C.StartRecord;
      ended, sent := false, None;
      Stop();
      timers := timers.(reconns := timers.reconns + 1);
      if timers.reconns >= C.MAX_COAP_RECONNECTS {
        ended, sent := StartSending(cfg, SendNext, env, k + 1);
        return;
      }
      if queue != [] {
        var timeout := Quot(timers.reconnMs, 1000);
        if zeroDelay && timers.reconns == 2 {
          timeout := 0;
        }
        timers := timers.(reconnTime := Some(env(k).now + timeout), reconnMs := 2 * timers.reconnMs);
      }
    }

    /** StartSendingCoapUspRecord, in attempt k */
    method StartSending(cfg: C.Config, mode: StartMode, env: nat -> C.Env, k: nat)
      returns (ended: bool, sent: Option<bytes>)
      requires cfg.Valid()
      modifies this
      ensures Is(match mode
                 case SendCurrent => C.StartRecord(cfg, old(Value()), false, env, k)
                 case RetryCurrent => C.StartRecord(cfg, old(Value()), true, env, k)
                 case SendNext => C.StartNext(cfg, old(Value()), env, k), ended, sent)
      decreases |queue|, if mode.SendNext? then 0 else 5
    {
      hide C.RetryLater, C.StartAt;
      ended, sent := false, None;
      var e := env(k);
      if mode.SendNext? {
        if queue == [] {
          return true, None;
        }
        queue := queue[1..];
      }
      timers := timers.(ackTime := None, reconnTime := None, linger := None);
      if !mode.RetryCurrent? {
        timers := timers.(reconns := 0, reconnMs := e.reconnMs);
      }
      RemoveExpired(e.now);
      if queue == [] {
        timers := timers.(linger := Some(e.now + C.COAP_CLIENT_LINGER_PERIOD));
        return;
      }
      if !e.allowed {
        timers := timers.(reconnTime := Some(e.now + C.CAN_MTP_CONNECT_RETRY_TIME));
        return;
      }
      if e.addr.None? {
        ended, sent := RetryLater(cfg, false, env, k);
        return;
      }
      ended, sent := StartAt(cfg, e.addr.value, env, k);
    }

    /** The rest of StartSendingCoapUspRecord, with ClientConnectToController */
    method StartAt(cfg: C.Config, addr: nat, env: nat -> C.Env, k: nat) returns (ended: bool, sent: Option<bytes>)
      requires cfg.Valid() && queue != []
      modifies this
      ensures Is(C.StartAt(cfg, old(Value()), addr, env, k), ended, sent)
      decreases |queue|, 4
    {
      hide C.RetryLater, C.SendFirst;
      var e := env(k);
      var item := queue[0];
      if addr != conn.peerAddr || item.port != conn.peerPort || item.enc != conn.enc || item.resetHint {
        Stop();
      }
      timers := timers.(ackMs := e.ackMs, retrans := 0);
      if conn.sock.None? {
        conn := Connection(Some(conn.socks), conn.socks + 1, addr, Rem(item.port, 0x1_0000), item.enc);
        if !e.connectOk {
          ended, sent := RetryLater(cfg, false, env, k);
          return;
        }
      }
      ended, sent := SendFirst(cfg, env, k);
    }

    /** SendFirstCoapBlock */
    method SendFirst(cfg: C.Config, env: nat -> C.Env, k: nat) returns (ended: bool, sent: Option<bytes>)
      requires cfg.Valid() && queue != []
      modifies this
      ensures Is(C.SendFirst(cfg, old(Value()), env, k), ended, sent)
      decreases |queue|, 3
    {
      hide C.RetryLater, C.SendBlock;
      var e := env(k);
      block := BlockState(C.NextMid(block.mid), Store(4, e.token), block.query, 0, cfg.txSize, 0);
      if e.query.None? {
        ended, sent := RetryLater(cfg, false, env, k);
        return;
      }
      block := block.(query := e.query.value);
      ended, sent := SendBlock(cfg, env, k);
    }

    /** WriteCoapBlock: fills the buffer from the left; 0 where the source gives up or an assertion fails. */
    method WriteBlock(cfg: C.Config, buf: array<byte>) returns (len: nat)
      requires C.Sending(Value()) && buf.Length == MAX_COAP_PDU_SIZE
      modifies buf
      ensures len == 0 <==> C.WriteBlock(cfg, Value()).None?
      ensures len > 0 ==> len <= buf.Length && C.WriteBlock(cfg, Value()) == Some(buf[..len])
    {
      hide EncodeOptions, AllWritable, ValuesSize, EncodeHeader, C.PathOptions, EncodeBlock, C.BlockPayload;
      ghost var c := Value();
      if cfg.addrText(conn.peerAddr).None? || C.PduSize(cfg, Value()) > MAX_COAP_PDU_SIZE {
        return 0;
      }
      var item := queue[0];
      var remaining := |item.payload| - block.bytesSent;
      var more := remaining > block.blockSize;
      var option := CoapWire.CalcBlockOption(Block(block.curBlock, more, block.blockSize));
      var head := [Opt(URI_HOST, cfg.addrText(conn.peerAddr).value), Opt(URI_PORT, Store(2, item.port))];
      var paths := C.PathOptions(item.resource);
      var rest := [Opt(CONTENT_FORMAT, [OCTET_STREAM]), Opt(URI_QUERY, block.query),
                   Opt(BLOCK1, option),
                   Opt(SIZE1, Store(2, |item.payload|))];
      ghost var start := EncodeHeader(C.BlockHeader(c)) + c.token;
      assert C.BlockOptions(cfg, c) == head + paths + rest;
      CoapWire.OptionsAppend(0, head + paths, rest);
      CoapWire.OptionsAppend(0, head, paths);
      var last1, last2 := CoapWire.LastNum(0, head), CoapWire.LastNum(0, head + paths);
      assert last2 == CoapWire.LastNum(last1, paths);
      var p := CoapWire.WriteHeader(C.BlockHeader(Value()), block.token, buf);
      var ok;
      ok, p := CoapWire.WriteOptions(head, buf, p, 0);
      if !ok {
        return 0;
      }
      ok, p := CoapWire.WriteOptions(paths, buf, p, last1);
      if !ok {
        return 0;
      }
      ok, p := CoapWire.WriteOptions(rest, buf, p, last2);
      if !ok {
        return 0;
      }
      Joined(start, EncodeOptions(0, head), EncodeOptions(last1, paths), EncodeOptions(last2, rest));
      p := CoapWire.Put(buf, p, [END_MARKER]);
      len := CoapWire.Put(buf, p, C.BlockPayload(Value()));
      ConcatAssoc(start + EncodeOptions(0, head + paths + rest), [END_MARKER], C.BlockPayload(c));
    }

    /** SendCoapBlock, and RetryClientSendLater if it failed */
    method SendBlock(cfg: C.Config, env: nat -> C.Env, k: nat) returns (ended: bool, sent: Option<bytes>)
      requires cfg.Valid() && C.Sending(Value())
      modifies this
      ensures Is(C.SendBlock(cfg, old(Value()), false, env, k), ended, sent)
      decreases |queue|, 2
    {
      hide C.RetryLater, C.WriteBlock;
      ended, sent := false, None;
      var buf := new byte[MAX_COAP_PDU_SIZE];
      var len := WriteBlock(cfg, buf);
      if len == 0 {
        return true, None;
      }
      timers := timers.(ackTime := Some(env(k).now + Quot(timers.ackMs, 1000)));
      if env(k).sendOk {
        sent := Some(buf[..len]);
      } else {
        ended, sent := RetryLater(cfg, false, env, k);
      }
    }

    /** The part of HandleCoapAck that answers with a RST and gives up the socket. */
    method ResetPeer(cfg: C.Config, token: bytes, env: nat -> C.Env)
      returns (ended: bool, rst: Option<bytes>, sent: Option<bytes>)
      requires cfg.Valid() && |token| <= MAX_COAP_TOKEN_SIZE
      modifies this
      ensures var c := old(Value()); var mid := C.NextMid(c.mid);
        && Is(C.RetryLater(cfg, c.(mid := mid), false, env, 0), ended, sent)
        && rst == Some(S.WriteRst(mid, token))
    {
      hide C.RetryLater, S.WriteRst, EncodePdu;
      block := block.(mid := C.NextMid(block.mid));
      var pdu := new byte[MAX_COAP_PDU_SIZE];
      var len := CoapServerObject.WriteRst(block.mid, token, pdu);
      rst := Some(pdu[..len]);
      ended, sent := RetryLater(cfg, false, env, 0);
    }

    /** HandleCoapAck; rst is the RST it may send before giving up the socket. */
    method HandleAck(cfg: C.Config, rx: C.Received, env: nat -> C.Env)
      returns (ended: bool, rst: Option<bytes>, sent: Option<bytes>)
      requires cfg.Valid() && C.Valid(Value()) && conn.sock.Some?
      modifies this
      ensures Is(C.HandleAck(cfg, old(Value()), rx, env), ended, sent)
      ensures !ended ==> rst == C.HandleAck(cfg, old(Value()), rx, env).rst
    {
      hide C.RetryLater, C.SendBlock, C.StartRecord, C.Stop, ParsePdu, S.WriteRst, EncodePdu;
      ended, rst, sent := false, None, None;
      RetryHasNoRst(cfg, Value(), env);
      if rx.Closed? {
        if queue == [] {
          Stop();
        } else {
          ended, sent := RetryLater(cfg, false, env, 0);
        }
        return;
      }
      if rx.Nothing? {
        return;
      }
      var r := CoapWire.Parse(rx.data, cfg.queryOk);
      S.ParsedIsParseable(rx.data, cfg.queryOk);
      var flags := r.flags;
      if flags == {} {
        flags := {C.AckActions(Value(), r.pdu)};
      }
      if SendRst in flags || IndicatesError(flags) {
        ended, rst, sent := ResetPeer(cfg, r.pdu.token, env);
        return;
      }
      if r.flags != {} {
        return;
      }
      if ResetState in flags {
        ended, sent := RetryLater(cfg, false, env, 0);
        return;
      }
      if SendNextBlock in flags {
        block := block.(curBlock := block.curBlock + 1, bytesSent := block.bytesSent + block.blockSize,
                        mid := C.NextMid(block.mid), blockSize := Min(block.blockSize, r.pdu.block1.value.size));
        timers := timers.(ackMs := env(0).ackMs, retrans := 0);
        SendHasNoRst(cfg, Value(), env);
        ended, sent := SendBlock(cfg, env, 0);
        return;
      }
      if SendNextUspRecord in flags {
        NextHasNoRst(cfg, Value(), env);
        ended, sent := StartSending(cfg, SendNext, env, 0);
        return;
      }
    }

    /** HandleNoCoapAck */
    method HandleNoAck(cfg: C.Config, env: nat -> C.Env) returns (ended: bool, sent: Option<bytes>)
      requires cfg.Valid() && C.Valid(Value()) && conn.sock.Some? && timers.ackTime.Some?
      modifies this
      ensures Is(C.HandleNoAck(cfg, old(Value()), env), ended, sent)
    {
      hide C.RetryLater, C.SendBlock, C.StartRecord;
      timers := timers.(retrans := timers.retrans + 1, reconns := timers.reconns + 1);
      if timers.retrans >= C.COAP_MAX_RETRANSMIT {
        ended, sent := StartSending(cfg, SendNext, env, 0);
        return;
      }
      if conn.enc {
        ended, sent := RetryLater(cfg, true, env, 0);
        return;
      }
      timers := timers.(ackMs := 2 * timers.ackMs);
      ended, sent := SendBlock(cfg, env, 0);
    }

    /** COAP_CLIENT_QueueBinaryMessage */
    method QueueMessage(cfg: C.Config, item: C.Item, env: nat -> C.Env) returns (ended: bool, sent: Option<bytes>)
      requires cfg.Valid()
      modifies this
      ensures Is(C.Queue(cfg, old(Value()), item, env), ended, sent)
    {
      hide C.StartRecord;
      ended, sent := false, None;
      var duplicate := InQueue(item.payload);
      if duplicate {
        return;
      }
      RemoveExpired(env(0).now);
      queue := queue + [item];
      if |queue| == 1 {
        ended, sent := StartSending(cfg, SendCurrent, env, 0);
      }
    }
  }

  lemma Joined(a: bytes, b: bytes, c: bytes, d: bytes)
    ensures a + b + c + d == a + (b + c + d)
  {
  }

  /** One turn of the expiry loop: the item at position done is unlinked or kept. */
  lemma Advance(all: seq<C.Item>, done: nat, kept: seq<C.Item>, now: int)
    requires 1 <= done < |all| && kept == C.Unexpired(all[1..done], now)
    ensures C.Unexpired(all[1..done + 1], now) == if now > all[done].expiry then kept else kept + [all[done]]
    ensures var q, i := [all[0]] + kept + all[done..], 1 + |kept|;
      && q[..i] + q[i + 1..] == [all[0]] + kept + all[done + 1..]
      && q == [all[0]] + (kept + [all[done]]) + all[done + 1..]
  {
    UnexpiredSnoc(all[1..done], all[done], now);
    assert all[1..done + 1] == all[1..done] + [all[done]];
    assert all[done..] == [all[done]] + all[done + 1..];
    Unlinked([all[0]], kept, all[done], all[done + 1..]);
  }

  lemma Unlinked(a: seq<C.Item>, b: seq<C.Item>, x: C.Item, c: seq<C.Item>)
    ensures var q, i := a + b + ([x] + c), |a| + |b|;
      q[..i] + q[i + 1..] == a + b + c && q == a + (b + [x]) + c
  {
  }

  lemma {:induction false} UnexpiredSnoc(q: seq<C.Item>, x: C.Item, now: int)
    ensures C.Unexpired(q + [x], now) == C.Unexpired(q, now) + (if now > x.expiry then [] else [x])
  {
    if q == [] {
      assert q + [x] == [x] && [x][1..] == [];
    } else {
      assert (q + [x])[1..] == q[1..] + [x];
      UnexpiredSnoc(q[1..], x, now);
      var kept := if now > q[0].expiry then [] else [q[0]];
      var last := if now > x.expiry then [] else [x];
      assert kept + (C.Unexpired(q[1..], now) + last) == kept + C.Unexpired(q[1..], now) + last;
    }
  }

  lemma RetryHasNoRst(cfg: C.Config, c: C.Client, env: nat -> C.Env)
    requires cfg.Valid()
    ensures C.RetryLater(cfg, c, false, env, 0).Running? ==> C.RetryLater(cfg, c, false, env, 0).rst.None?
  {
    hide C.RetryLater;
    P.RetryLaterLeavesSocket(cfg, c, false, env, 0);
  }

  lemma SendHasNoRst(cfg: C.Config, c: C.Client, env: nat -> C.Env)
    requires cfg.Valid() && C.Sending(c)
    ensures C.SendBlock(cfg, c, false, env, 0).Running? ==> C.SendBlock(cfg, c, false, env, 0).rst.None?
  {
    hide C.RetryLater, C.WriteBlock;
    RetryHasNoRst(cfg, c.(ackTime := Some(env(0).now + Quot(c.ackMs, 1000))), env);
  }

  lemma NextHasNoRst(cfg: C.Config, c: C.Client, env: nat -> C.Env)
    requires cfg.Valid() && P.Startable(c)
    ensures C.StartNext(cfg, c, env, 0).Running? ==> C.StartNext(cfg, c, env, 0).rst.None?
  {
    hide C.StartRecord;
    if c.queue != [] {
      P.StartRecordSocket(cfg, c.(queue := c.queue[1..]), false, env, 0);
    }
  }
}
