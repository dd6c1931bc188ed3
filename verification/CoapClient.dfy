/**
 The CoAP client of coap_client.c: one queue of USP records sent block by block to a controller.

 Functions on the value Client give the meaning of each operation, for every outcome of the clock,
 name lookup, connection, sending and random numbers (an Env per attempt to start a record).
 */
module CoapClient {
  import opened CommonDefs
  import opened CoapCodec
  import CoapServer

  const COAP_MAX_RETRANSMIT := 4
  const MAX_COAP_RECONNECTS := COAP_MAX_RETRANSMIT
  const COAP_CLIENT_LINGER_PERIOD := 300
  const CAN_MTP_CONNECT_RETRY_TIME := 7 * 24 * 60 * 60
  const MAX_OPTION_HEADER_SIZE := 3
  const NO_PORT := 0xFFFF

  /** coap_send_item_t. The resource is already split at '/' and percent decoded. */
  datatype Item = Item(payload: bytes, port: nat, enc: bool, resource: seq<bytes>, resetHint: bool, expiry: int)

  /** Fixed properties of the client, and the foreign functions it calls. */
  datatype Config = Config(
    txSize: nat,                        // COAP_CLIENT_PAYLOAD_TX_SIZE
    addrText: nat -> Option<bytes>,     // nu_ipaddr_to_str
    queryOk: bytes -> bool              // ParseCoapUriQuery
  ) {
    predicate Valid() {
      ValidBlockSize(txSize)
    }
  }

  /** What the outside world decides during one attempt to start sending a record. */
  datatype Env = Env(
    now: int, allowed: bool, addr: Option<nat>, connectOk: bool, query: Option<bytes>, sendOk: bool,
    token: nat, ackMs: nat, reconnMs: nat)

  /**
   coap_client_t. An open socket carries a number (socks counts those ever opened), so that two sockets
   can be told apart; a time of INVALID_TIME is None.
   */
  datatype Client = Client(
    queue: seq<Item>, sock: Option<nat>, socks: nat, peerAddr: nat, peerPort: nat, enc: bool,
    mid: nat, token: bytes, query: bytes, curBlock: nat, blockSize: nat, bytesSent: nat,
    ackMs: nat, ackTime: Option<int>, retrans: nat,
    reconnMs: nat, reconnTime: Option<int>, reconns: nat, linger: Option<int>)

  function NextMid(mid: nat): (m: nat)
    ensures m < 0x1_0000 && m != mid && (mid < 0x1_0000 ==> m == (mid + 1) % 0x1_0000)
  {
    if mid >= 0xFFFF then 0 else mid + 1
  }

  // ---------------------------------------------------------------- writing a block

  predicate MoreBlocks(c: Client)
    requires c.queue != []
  {
    |c.queue[0].payload| - c.bytesSent > c.blockSize
  }

  /** The part of the record the current block carries. */
  function BlockPayload(c: Client): bytes
    requires c.queue != [] && c.bytesSent <= |c.queue[0].payload|
  {
    if MoreBlocks(c) then c.queue[0].payload[c.bytesSent..c.bytesSent + c.blockSize]
    else c.queue[0].payload[c.bytesSent..]
  }

  function PathOptions(segments: seq<bytes>): seq<Opt> {
    if segments == [] then [] else [Opt(URI_PATH, segments[0])] + PathOptions(segments[1..])
  }

  function BlockOptions(cfg: Config, c: Client): seq<Opt>
    requires c.queue != [] && ValidBlockSize(c.blockSize) && cfg.addrText(c.peerAddr).Some?
  {
    var item := c.queue[0];
    [Opt(URI_HOST, cfg.addrText(c.peerAddr).value), Opt(URI_PORT, Store(2, item.port))]
    + PathOptions(item.resource)
    + [Opt(CONTENT_FORMAT, [OCTET_STREAM]), Opt(URI_QUERY, c.query),
       Opt(BLOCK1, EncodeBlock(Block(c.curBlock, MoreBlocks(c), c.blockSize))),
       Opt(SIZE1, Store(2, |item.payload|))]
  }

  /** The size WriteCoapBlock computes before it writes anything. */
  function PduSize(cfg: Config, c: Client): nat
    requires c.queue != [] && ValidBlockSize(c.blockSize) && cfg.addrText(c.peerAddr).Some?
    requires c.bytesSent <= |c.queue[0].payload|
  {
    var opts := BlockOptions(cfg, c);
    COAP_HEADER_SIZE + |c.token| + |opts| * MAX_OPTION_HEADER_SIZE + ValuesSize(opts) + 1 + |BlockPayload(c)|
  }

  /** The state WriteCoapBlock is called in: a record in the queue and a block of it to send. */
  predicate Sending(c: Client) {
    && c.queue != [] && ValidBlockSize(c.blockSize) && c.bytesSent <= |c.queue[0].payload|
    && c.mid < 0x1_0000 && |c.token| == 4
  }

  function BlockHeader(c: Client): (h: Header)
    requires c.mid < 0x1_0000
    ensures h.Valid()
  {
    Header(Confirmable, 4, CoapServer.CLASS_REQUEST, CoapServer.METHOD_POST, c.mid)
  }

  /** WriteCoapBlock; None where the source fails an assertion: no address text, no room, an option too long. */
  function WriteBlock(cfg: Config, c: Client): Option<bytes>
    requires Sending(c)
  {
    if cfg.addrText(c.peerAddr).None? then None
    else if PduSize(cfg, c) > MAX_COAP_PDU_SIZE then None
    else if !AllWritable(0, BlockOptions(cfg, c)) then None
    else Some(EncodePdu(BlockHeader(c), c.token, BlockOptions(cfg, c), Some(BlockPayload(c))))
  }

  // ---------------------------------------------------------------- the send queue

  function Unexpired(q: seq<Item>, now: int): seq<Item> {
    if q == [] then []
    else (if now > q[0].expiry then [] else [q[0]]) + Unexpired(q[1..], now)
  }

  /** RemoveExpiredCoapMessages: the head is being sent, so it stays. */
  function RemoveExpired(q: seq<Item>, now: int): (r: seq<Item>)
    ensures |r| <= |q| && (q == [] <==> r == []) && (q != [] ==> r[0] == q[0])
  {
    if q == [] then [] else
    UnexpiredShorter(q[1..], now);
    [q[0]] + Unexpired(q[1..], now)
  }

  lemma {:induction false} UnexpiredShorter(q: seq<Item>, now: int)
    ensures |Unexpired(q, now)| <= |q|
  {
    if q == [] {
    } else {
      UnexpiredShorter(q[1..], now);
    }
  }

  // ---------------------------------------------------------------- starting, retrying and stopping

  /** Ended is a failed assertion; rst and sent are the PDUs given to the socket, sent on the new c.sock. */
  datatype Outcome = Ended | Running(c: Client, rst: Option<bytes>, sent: Option<bytes>)

  /** StopSendingToController */
  function Stop(c: Client): Client {
    c.(sock := None, peerAddr := 0, peerPort := NO_PORT, query := [], retrans := 0, ackMs := 0,
       token := [0, 0, 0, 0], mid := 0, curBlock := 0, blockSize := 0, bytesSent := 0,
       ackTime := None, reconnTime := None, linger := None)
  }

  /** RetryClientSendLater, in attempt k */
  function RetryLater(cfg: Config, c: Client, zeroDelay: bool, env: nat -> Env, k: nat): Outcome
    requires cfg.Valid()
    decreases |c.queue|, 1
  {
    var c1 := Stop(c).(reconns := c.reconns + 1);
    if c1.reconns >= MAX_COAP_RECONNECTS then StartNext(cfg, c1, env, k + 1)
    else if c1.queue == [] then Running(c1, None, None)
    else
      var delay := if zeroDelay && c1.reconns == 2 then 0 else Quot(c1.reconnMs, 1000);
      Running(c1.(reconnTime := Some(env(k).now + delay), reconnMs := 2 * c1.reconnMs), None, None)
  }

  /** StartSendingCoapUspRecord with SEND_NEXT: the head of the queue is dropped first. */
  function StartNext(cfg: Config, c: Client, env: nat -> Env, k: nat): Outcome
    requires cfg.Valid()
    decreases |c.queue|, 0
  {
    if c.queue == [] then Ended
    else StartRecord(cfg, c.(queue := c.queue[1..]), false, env, k)
  }

  /** The fields StartSendingCoapUspRecord clears before it looks at the queue. */
  function Cleared(c: Client, retry: bool, e: Env): Client {
    var c1 := c.(ackTime := None, reconnTime := None, linger := None, queue := RemoveExpired(c.queue, e.now));
    if retry then c1 else c1.(reconns := 0, reconnMs := e.reconnMs)
  }

  predicate SamePeer(c: Client, addr: nat)
    requires c.queue != []
  {
    addr == c.peerAddr && c.queue[0].port == c.peerPort && c.queue[0].enc == c.enc && !c.queue[0].resetHint
  }

  /** A new socket for the record at the head of the queue. */
  function Connected(c: Client, addr: nat): Client
    requires c.queue != []
  {
    c.(sock := Some(c.socks), socks := c.socks + 1,
       peerAddr := addr, peerPort := Rem(c.queue[0].port, 0x1_0000), enc := c.queue[0].enc)
  }

  /** StartSendingCoapUspRecord with SEND_CURRENT, or RETRY_CURRENT when retry is set */
  function StartRecord(cfg: Config, c: Client, retry: bool, env: nat -> Env, k: nat): Outcome
    requires cfg.Valid()
    decreases |c.queue|, 5
  {
    var e := env(k);
    var c1 := Cleared(c, retry, e);
    if c1.queue == [] then Running(c1.(linger := Some(e.now + COAP_CLIENT_LINGER_PERIOD)), None, None)
    else if !e.allowed then Running(c1.(reconnTime := Some(e.now + CAN_MTP_CONNECT_RETRY_TIME)), None, None)
    else if e.addr.None? then RetryLater(cfg, c1, false, env, k)
    else StartAt(cfg, c1, e.addr.value, env, k)
  }

  /** The rest of StartSendingCoapUspRecord once the controller's address is known. */
  function StartAt(cfg: Config, c: Client, addr: nat, env: nat -> Env, k: nat): Outcome
    requires cfg.Valid() && c.queue != []
    decreases |c.queue|, 4
  {
    var e := env(k);
    var c1 := (if SamePeer(c, addr) then c else Stop(c)).(ackMs := e.ackMs, retrans := 0);
    if c1.sock.Some? then SendFirst(cfg, c1, env, k)
    else
      var c2 := Connected(c1, addr);
      if e.connectOk then SendFirst(cfg, c2, env, k) else RetryLater(cfg, c2, false, env, k)
  }

  function FirstBlock(cfg: Config, c: Client, e: Env): Client {
    c.(token := Store(4, e.token), mid := NextMid(c.mid), curBlock := 0, blockSize := cfg.txSize, bytesSent := 0)
  }

  /** SendFirstCoapBlock */
  function SendFirst(cfg: Config, c: Client, env: nat -> Env, k: nat): Outcome
    requires cfg.Valid() && c.queue != []
    decreases |c.queue|, 3
  {
    var c1 := FirstBlock(cfg, c, env(k));
    if env(k).query.None? then RetryLater(cfg, c1, false, env, k)
    else SendBlock(cfg, c1.(query := env(k).query.value), false, env, k)
  }

  /** SendCoapBlock, followed by RetryClientSendLater if the PDU could not be sent */
  function SendBlock(cfg: Config, c: Client, zeroDelay: bool, env: nat -> Env, k: nat): Outcome
    requires cfg.Valid() && Sending(c)
    decreases |c.queue|, 2
  {
    var pdu := WriteBlock(cfg, c);
    if pdu.None? then Ended
    else
      var c1 := c.(ackTime := Some(env(k).now + Quot(c.ackMs, 1000)));
      if env(k).sendOk then Running(c1, None, pdu) else RetryLater(cfg, c1, zeroDelay, env, k)
  }

  // ---------------------------------------------------------------- events

  /** What every operation leaves behind: on an open socket a block can always be written again. */
  predicate Valid(c: Client) {
    && c.mid < 0x1_0000 && |c.token| == 4
    && (c.sock.Some? ==> ValidBlockSize(c.blockSize) && c.sock.value < c.socks)
    && (c.sock.Some? && c.ackTime.Some? ==> c.queue != [] && c.bytesSent <= |c.queue[0].payload|)
    && (c.sock.Some? && c.queue == [] ==> c.reconns == 0)
  }

  datatype Received = Closed | Nothing | Data(data: bytes)

  predicate SentLastBlock(c: Client)
    requires c.queue != []
  {
    c.bytesSent + c.blockSize >= |c.queue[0].payload|
  }

  /** CalcCoapClientActions */
  function AckActions(c: Client, p: Pdu): Action {
    if p.hdr.pduType.Reset? then ResetState
    else if !p.hdr.pduType.Acknowledgement? then SendRst
    else if p.token != c.token then SendRst
    else if p.hdr.mid != c.mid then IgnorePdu
    else if p.hdr.cls != CoapServer.CLASS_SUCCESS then SendNextUspRecord
    else if p.hdr.code != CoapServer.CODE_CHANGED && p.hdr.code != CoapServer.CODE_CONTINUE then SendRst
    else if c.queue == [] then IgnorePdu
    else if p.hdr.code == CoapServer.CODE_CHANGED then
      if SentLastBlock(c) then SendNextUspRecord else SendRst
    else if SentLastBlock(c) then ResetState
    else if p.block1.None? then ResetState
    else if p.block1.value.num != c.curBlock then ResetState
    else SendNextBlock
  }

  /** The fields HandleCoapAck updates before it sends the next block. */
  function NextBlock(c: Client, ackedSize: nat, e: Env): Client {
    c.(curBlock := c.curBlock + 1, bytesSent := c.bytesSent + c.blockSize, mid := NextMid(c.mid),
       ackMs := e.ackMs, retrans := 0, blockSize := Min(c.blockSize, ackedSize))
  }

  function WithRst(o: Outcome, rst: bytes): Outcome {
    if o.Ended? then o else o.(rst := Some(rst))
  }

  /** HandleCoapAck */
  function HandleAck(cfg: Config, c: Client, rx: Received, env: nat -> Env): Outcome
    requires cfg.Valid() && Valid(c) && c.sock.Some?
  {
    match rx
    case Closed =>
      if c.queue == [] then Running(Stop(c), None, None) else RetryLater(cfg, c, false, env, 0)
    case Nothing => Running(c, None, None)
    case Data(data) =>
      var r := ParsePdu(data, cfg.queryOk);
      CoapServer.ParsedIsParseable(data, cfg.queryOk);
      var action :=
        if r.flags == {} then AckActions(c, r.pdu)
        else if SendRst in r.flags || CoapCodec.IndicatesError(r.flags) then SendRst
        else IgnorePdu;
      match action
      case SendRst =>
        var mid := NextMid(c.mid);
        WithRst(RetryLater(cfg, c.(mid := mid), false, env, 0), CoapServer.WriteRst(mid, r.pdu.token))
      case ResetState => RetryLater(cfg, c, false, env, 0)
      case SendNextBlock =>
        var c1 := NextBlock(c, r.pdu.block1.value.size, env(0));
        SendBlock(cfg, c1, false, env, 0)
      case SendNextUspRecord => StartNext(cfg, c, env, 0)
      case _ => Running(c, None, None)
  }

  /** HandleNoCoapAck */
  function HandleNoAck(cfg: Config, c: Client, env: nat -> Env): Outcome
    requires cfg.Valid() && Valid(c) && c.sock.Some? && c.ackTime.Some?
  {
    var c1 := c.(retrans := c.retrans + 1, reconns := c.reconns + 1);
    if c1.retrans >= COAP_MAX_RETRANSMIT then StartNext(cfg, c1, env, 0)
    else if c1.enc then RetryLater(cfg, c1, true, env, 0)
    else SendBlock(cfg, c1.(ackMs := 2 * c1.ackMs), false, env, 0)
  }

  predicate InQueue(q: seq<Item>, payload: bytes) {
    exists i :: 0 <= i < |q| && q[i].payload == payload
  }

  /** COAP_CLIENT_QueueBinaryMessage */
  function Queue(cfg: Config, c: Client, item: Item, env: nat -> Env): Outcome
    requires cfg.Valid()
  {
    if InQueue(c.queue, item.payload) then Running(c, None, None)
    else
      var c1 := c.(queue := RemoveExpired(c.queue, env(0).now) + [item]);
      if |c1.queue| == 1 then StartRecord(cfg, c1, false, env, 0) else Running(c1, None, None)
  }

  /** The entry points of the source, one atomic step each. A timer can fire at any time while it is armed. */
  datatype Event = Queued(item: Item) | Rx(rx: Received) | AckTimer | LingerTimer | ReconnectTimer | AllowConnect

  predicate Enabled(c: Client, ev: Event) {
    match ev
    case Queued(_) => true
    case Rx(_) => c.sock.Some?
    case AckTimer => c.sock.Some? && c.ackTime.Some?
    case LingerTimer => c.sock.Some? && c.linger.Some?
    case ReconnectTimer => c.sock.None? && c.reconnTime.Some?
    case AllowConnect => true
  }

  function Step(cfg: Config, c: Client, ev: Event, env: nat -> Env): Outcome
    requires cfg.Valid() && Valid(c) && Enabled(c, ev)
  {
    match ev
    case Queued(item) => Queue(cfg, c, item, env)
    case Rx(rx) => HandleAck(cfg, c, rx, env)
    case AckTimer => HandleNoAck(cfg, c, env)
    case LingerTimer => Running(Stop(c), None, None)
    case ReconnectTimer => StartRecord(cfg, c, true, env, 0)
    case AllowConnect =>
      Running(if c.reconnTime.Some? then c.(reconnTime := Some(env(0).now)) else c, None, None)
  }

  /** COAP_CLIENT_Start: the timers other than the reconnect and linger timers are still zero. */
  function Initial(mid: nat, reconnMs: nat): Client {
    Client([], None, 0, 0, 0, false, mid, [0, 0, 0, 0], [], 0, 0, 0, 0, Some(0), 0, reconnMs, None, 0, None)
  }
}
