/**
 When a failed assertion ends the CoAP client: with records that fit a PDU, in one case only.
 */
module CoapClientEnds {
  import opened CommonDefs
  import opened CoapCodec
  import opened CoapClient
  import P = CoapClientProofs
  import Q = CoapClientQueue
  import A = CoapClientAnswers
  import D = CoapDelivery
  import CoapServer

  /** How long the text of an address and a reply-to can be */
  datatype Lengths = Lengths(host: nat, query: nat)

  /** Every address has a text no longer than that. */
  ghost predicate Addressed(cfg: Config, n: Lengths) {
    forall a: nat :: cfg.addrText(a).Some? && 0 < |cfg.addrText(a).value| <= n.host
  }

  ghost predicate Queried(env: nat -> Env, n: Lengths) {
    forall k: nat :: env(k).query.Some? ==> 0 < |env(k).query.value| <= n.query
  }

  /** The options of the record leave room for a full block, whatever the address and the reply-to. */
  predicate Roomy(cfg: Config, n: Lengths, item: Item) {
    && n.host < 268 && n.query < 268
    && (forall i :: 0 <= i < |item.resource| ==> 0 < |item.resource[i]| < 268)
    && n.host + n.query + D.Total(item.resource) + 3 * |item.resource| + cfg.txSize + 35 <= MAX_COAP_PDU_SIZE
  }

  predicate AllRoomy(cfg: Config, n: Lengths, q: seq<Item>) {
    forall x :: x in q ==> Roomy(cfg, n, x)
  }

  /** Every record in the queue is such a record, and on an open socket each of its blocks can be written. */
  predicate Fitting(cfg: Config, n: Lengths, c: Client) {
    AllRoomy(cfg, n, c.queue) && (c.sock.Some? ==> 0 < |c.query| <= n.query && c.blockSize <= cfg.txSize)
  }

  predicate GoesOn(cfg: Config, n: Lengths, o: Outcome) {
    o.Running? && Fitting(cfg, n, o.c)
  }

  lemma RoomyFits(cfg: Config, n: Lengths, c: Client)
    requires cfg.Valid() && Addressed(cfg, n) && Sending(c) && AllRoomy(cfg, n, c.queue)
    requires 0 < |c.query| <= n.query && c.blockSize <= cfg.txSize
    ensures WriteBlock(cfg, c).Some?
  {
    hide WriteBlock;
    assert c.queue[0] in c.queue;
    assert cfg.addrText(c.peerAddr).Some?;
    D.BlockWritten(cfg, c);
  }

  lemma RoomyTail(cfg: Config, n: Lengths, q: seq<Item>, now: int)
    requires AllRoomy(cfg, n, q)
    ensures AllRoomy(cfg, n, RemoveExpired(q, now))
    ensures q != [] ==> AllRoomy(cfg, n, q[1..])
  {
    hide Roomy;
    if q != [] {
      Q.UnexpiredSubSeq(q[1..], now);
    }
  }

  lemma {:induction false} RetryLaterRuns(
    cfg: Config, n: Lengths, c: Client, zeroDelay: bool, env: nat -> Env, k: nat)
    requires cfg.Valid() && Addressed(cfg, n) && Queried(env, n) && AllRoomy(cfg, n, c.queue)
    requires c.queue != [] || c.reconns + 1 < MAX_COAP_RECONNECTS
    ensures GoesOn(cfg, n, RetryLater(cfg, c, zeroDelay, env, k))
    decreases |c.queue|, 1
  {
    hide StartRecord, AllRoomy, Addressed, Queried;
    var c1 := Stop(c).(reconns := c.reconns + 1);
    if c1.reconns >= MAX_COAP_RECONNECTS {
      RoomyTail(cfg, n, c.queue, 0);
      StartRecordRuns(cfg, n, c1.(queue := c1.queue[1..]), false, env, k + 1);
    }
  }

  lemma {:induction false} StartRecordRuns(
    cfg: Config, n: Lengths, c: Client, retry: bool, env: nat -> Env, k: nat)
    requires cfg.Valid() && Addressed(cfg, n) && Queried(env, n) && Fitting(cfg, n, c)
    requires c.sock.Some? ==> c.sock.value < c.socks
    ensures GoesOn(cfg, n, StartRecord(cfg, c, retry, env, k))
    decreases |c.queue|, 5
  {
    hide RetryLater, StartAt, AllRoomy, Addressed, Queried;
    var e := env(k);
    var c1 := Cleared(c, retry, e);
    RoomyTail(cfg, n, c.queue, e.now);
    if c1.queue != [] && e.allowed {
      if e.addr.None? {
        RetryLaterRuns(cfg, n, c1, false, env, k);
      } else {
        StartAtRuns(cfg, n, c1, e.addr.value, env, k);
      }
    }
  }

  lemma {:induction false} StartAtRuns(cfg: Config, n: Lengths, c: Client, addr: nat, env: nat -> Env, k: nat)
    requires cfg.Valid() && Addressed(cfg, n) && Queried(env, n) && AllRoomy(cfg, n, c.queue) && c.queue != []
    requires c.sock.Some? ==> c.sock.value < c.socks
    ensures GoesOn(cfg, n, StartAt(cfg, c, addr, env, k))
    decreases |c.queue|, 4
  {
    hide RetryLater, SendFirst, AllRoomy, Addressed, Queried, GoesOn;
    var c1 := (if SamePeer(c, addr) then c else Stop(c)).(ackMs := env(k).ackMs, retrans := 0);
    var c2 := Connected(c1, addr);
    if c1.sock.Some? {
      SendFirstRuns(cfg, n, c1, env, k);
    } else if env(k).connectOk {
      SendFirstRuns(cfg, n, c2, env, k);
    } else {
      RetryLaterRuns(cfg, n, c2, false, env, k);
    }
  }

  lemma {:induction false} SendFirstRuns(cfg: Config, n: Lengths, c: Client, env: nat -> Env, k: nat)
    requires cfg.Valid() && Addressed(cfg, n) && Queried(env, n) && AllRoomy(cfg, n, c.queue) && c.queue != []
    ensures GoesOn(cfg, n, SendFirst(cfg, c, env, k))
    decreases |c.queue|, 3
  {
    hide RetryLater, SendBlock, AllRoomy, Addressed, GoesOn;
    var c1 := FirstBlock(cfg, c, env(k));
    if env(k).query.None? {
      RetryLaterRuns(cfg, n, c1, false, env, k);
    } else {
      SendBlockRuns(cfg, n, c1.(query := env(k).query.value), false, env, k);
    }
  }

  lemma {:induction false} SendBlockRuns(
    cfg: Config, n: Lengths, c: Client, zeroDelay: bool, env: nat -> Env, k: nat)
    requires cfg.Valid() && Addressed(cfg, n) && Queried(env, n) && AllRoomy(cfg, n, c.queue)
    requires Sending(c) && 0 < |c.query| <= n.query && c.blockSize <= cfg.txSize
    ensures GoesOn(cfg, n, SendBlock(cfg, c, zeroDelay, env, k))
    decreases |c.queue|, 2
  {
    hide RetryLater, WriteBlock, AllRoomy, Addressed, Queried;
    RoomyFits(cfg, n, c);
    if !env(k).sendOk {
      RetryLaterRuns(cfg, n, c.(ackTime := Some(env(k).now + Quot(c.ackMs, 1000))), zeroDelay, env, k);
    }
  }

  // ---------------------------------------------------------------- one step

  /** A failure reported for the PDU sent last, when nothing is being sent */
  predicate FailsIdle(cfg: Config, c: Client, ev: Event) {
    && ev.Rx? && ev.rx.Data? && c.queue == []
    && var r := ParsePdu(ev.rx.data, cfg.queryOk);
      r.flags == {} && A.AcksLast(c, r.pdu) && r.pdu.hdr.cls != CoapServer.CLASS_SUCCESS
  }

  /** A step ends the client if and only if it is that; otherwise all records go on fitting. */
  lemma StepEndsExactly(cfg: Config, n: Lengths, c: Client, ev: Event, env: nat -> Env)
    requires cfg.Valid() && Addressed(cfg, n) && Queried(env, n) && P.Sound(c) && Fitting(cfg, n, c) && Enabled(c, ev)
    requires ev.Queued? ==> Roomy(cfg, n, ev.item)
    ensures Step(cfg, c, ev, env).Ended? <==> FailsIdle(cfg, c, ev)
    ensures Step(cfg, c, ev, env).Running? ==> Fitting(cfg, n, Step(cfg, c, ev, env).c)
  {
    hide Addressed, Queried, StartRecord, HandleAck, HandleNoAck, Roomy, ParsePdu, RemoveExpired;
    RoomyTail(cfg, n, c.queue, env(0).now);
    match ev
    case Queued(item) =>
      StartRecordRuns(cfg, n, c.(queue := RemoveExpired(c.queue, env(0).now) + [item]), false, env, 0);
    case Rx(rx) => AckEndsExactly(cfg, n, c, rx, env);
    case AckTimer => NoAckRuns(cfg, n, c, env);
    case ReconnectTimer => StartRecordRuns(cfg, n, c, true, env, 0);
    case _ =>
  }

  lemma NoAckRuns(cfg: Config, n: Lengths, c: Client, env: nat -> Env)
    requires cfg.Valid() && Addressed(cfg, n) && Queried(env, n) && P.Sound(c) && Fitting(cfg, n, c)
    requires c.sock.Some? && c.ackTime.Some?
    ensures GoesOn(cfg, n, HandleNoAck(cfg, c, env))
  {
    hide Addressed, Queried, AllRoomy, StartRecord, RetryLater, SendBlock, GoesOn;
    var c1 := c.(retrans := c.retrans + 1, reconns := c.reconns + 1);
    RoomyTail(cfg, n, c.queue, 0);
    StartRecordRuns(cfg, n, c1.(queue := c1.queue[1..]), false, env, 0);
    RetryLaterRuns(cfg, n, c1, true, env, 0);
    SendBlockRuns(cfg, n, c1.(ackMs := 2 * c1.ackMs), false, env, 0);
  }

  lemma AckEndsExactly(cfg: Config, n: Lengths, c: Client, rx: Received, env: nat -> Env)
    requires cfg.Valid() && Addressed(cfg, n) && Queried(env, n) && P.Sound(c) && Fitting(cfg, n, c) && c.sock.Some?
    ensures HandleAck(cfg, c, rx, env).Ended? <==> FailsIdle(cfg, c, Rx(rx))
    ensures HandleAck(cfg, c, rx, env).Running? ==> Fitting(cfg, n, HandleAck(cfg, c, rx, env).c)
  {
    hide Addressed, Queried, AllRoomy, StartRecord, RetryLater, SendBlock, HandleAck, ParsePdu;
    RoomyTail(cfg, n, c.queue, 0);
    RetryLaterRuns(cfg, n, c, false, env, 0);
    match rx
    case Data(data) =>
      var r := ParsePdu(data, cfg.queryOk);
      RetryLaterRuns(cfg, n, c.(mid := NextMid(c.mid)), false, env, 0);
      if r.flags != {} {
        A.UnparsedExactly(cfg, c, data, env);
      } else {
        A.AnswersExactly(cfg, c, data, env);
        if A.AsksNext(c, r.pdu) {
          SendBlockRuns(cfg, n, A.AtNextBlock(c, r.pdu, env(0)), false, env, 0);
        } else if A.EndsRecord(c, r.pdu) && c.queue != [] {
          StartRecordRuns(cfg, n, c.(queue := c.queue[1..]), false, env, 0);
        }
      }
    case _ =>
      A.ClosedExactly(cfg, c, env);
  }

  // ---------------------------------------------------------------- over runs

  ghost predicate FitRun(cfg: Config, n: Lengths, evs: seq<Event>, envs: seq<nat -> Env>) {
    && (forall i :: 0 <= i < |evs| && evs[i].Queued? ==> Roomy(cfg, n, evs[i].item))
    && (forall i :: 0 <= i < |envs| ==> Queried(envs[i], n))
  }

  lemma {:induction false} AlwaysFitting(
    cfg: Config, n: Lengths, cs: seq<Client>, evs: seq<Event>, envs: seq<nat -> Env>, i: nat)
    requires cfg.Valid() && Addressed(cfg, n) && P.IsRun(cfg, cs, evs, envs) && FitRun(cfg, n, evs, envs) && i < |cs|
    requires exists mid: nat, ms :: mid < 0x1_0000 && cs[0] == Initial(mid, ms)
    ensures P.Sound(cs[i]) && Fitting(cfg, n, cs[i])
  {
    hide Step, Addressed, Queried, Roomy;
    P.AlwaysSound(cfg, cs, evs, envs, i);
    if i == 0 {
    } else {
      AlwaysFitting(cfg, n, cs, evs, envs, i - 1);
      assert P.StepTo(cfg, cs[i - 1], evs[i - 1], envs[i - 1], cs[i]);
      StepEndsExactly(cfg, n, cs[i - 1], evs[i - 1], envs[i - 1]);
    }
  }

  /**
   In every reachable state, whatever was queued, received, refused or lost before: the next step ends the client if and
   only if it receives an ACK of its last PDU that is no success while its queue is empty.
   */
  lemma EndsExactly(
    cfg: Config, n: Lengths, cs: seq<Client>, evs: seq<Event>, envs: seq<nat -> Env>, ev: Event, env: nat -> Env)
    requires cfg.Valid() && Addressed(cfg, n) && P.IsRun(cfg, cs, evs, envs) && FitRun(cfg, n, evs, envs)
    requires exists mid: nat, ms :: mid < 0x1_0000 && cs[0] == Initial(mid, ms)
    requires Enabled(cs[|evs|], ev) && Queried(env, n) && (ev.Queued? ==> Roomy(cfg, n, ev.item))
    ensures Valid(cs[|evs|])
    ensures Step(cfg, cs[|evs|], ev, env).Ended? <==> FailsIdle(cfg, cs[|evs|], ev)
  {
    hide Step, Addressed, Queried, Roomy;
    AlwaysFitting(cfg, n, cs, evs, envs, |evs|);
    StepEndsExactly(cfg, n, cs[|evs|], ev, env);
  }
}
