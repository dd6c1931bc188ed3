/**
 Runs in which the code does less than one would expect: one for each exact condition stated elsewhere, from the states
 the source starts in.
 */
module CoapExamples {
  import opened CommonDefs
  import opened CoapCodec
  import opened CoapChannels
  import opened CoapProtocol
  import C = CoapClient
  import S = CoapServer
  import P = CoapClientProofs
  import W = CoapBlockPdu
  import E = CoapEndToEnd
  import SP = CoapServerProofs

  // ---------------------------------------------------------------- one client, one server, short records

  const PATH: bytes := [97]

  function ClientSide(): C.Config {
    C.Config(16, _ => Some([49]), _ => true)
  }

  /** A server whose resource is the one the client asks for, or another. */
  function Sides(found: bool): Setup {
    Setup(ClientSide(), S.Config(if found then PATH else [98], [99], 16, _ => true, _ => true), 0)
  }

  function Record(x: bytes): C.Item {
    C.Item(x, 5683, false, [PATH], false, 1000)
  }

  /** Lookup, connection and sending succeed; the client may or may not connect. */
  function World(allowed: bool): nat -> C.Env {
    _ => C.Env(0, allowed, Some(7), true, Some([113]), true, 1, 2000, 5)
  }

  /** The same with the token of a second record */
  function Again(): nat -> C.Env {
    _ => World(true)(0).(token := 2)
  }

  const REPLY := S.Env(true, true, [])

  /** The client right after it sent the first block of the first record in its queue. */
  function Sent(queue: seq<C.Item>): C.Client {
    SentAs(queue, 1)
  }

  /** The same with this message id, and a token made from the same number */
  function SentAs(queue: seq<C.Item>, id: nat): C.Client {
    C.Client(queue, Some(0), 1, 7, 5683, false, id, Store(4, id), [113], 0, 16, 0, 2000, Some(2), 0, 5, None, 0, None)
  }

  lemma Writes(queue: seq<C.Item>, x: bytes, id: nat)
    requires queue != [] && queue[0] == Record(x) && id < 0x1_0000
    ensures C.Sending(SentAs(queue, id)) && C.WriteBlock(ClientSide(), SentAs(queue, id)).Some?
    ensures W.WellFormed(ClientSide(), SentAs(queue, id), Sides(true).scfg.queryOk)
  {
    hide Store, EncodeBlock;
    var c := SentAs(queue, id);
    var opts := C.BlockOptions(ClientSide(), c);
    assert C.PathOptions([PATH]) == [Opt(URI_PATH, PATH)] by {
      assert [PATH][1..] == [];
      assert C.PathOptions([]) == [];
    }
    assert |opts| == 7;
    FewOptions(opts);
  }

  /** Seven short options with ascending numbers can be written, and are short together. */
  lemma FewOptions(opts: seq<Opt>)
    requires |opts| == 7 && forall i :: 0 <= i < 7 ==> |opts[i].val| <= 3 && opts[i].num < 268
    requires forall i :: 0 <= i < 6 ==> opts[i].num <= opts[i + 1].num
    ensures AllWritable(0, opts) && ValuesSize(opts) <= 21
  {
    WritableFrom(opts, 0, 0);
    assert opts[0..] == opts;
  }

  lemma {:induction false} WritableFrom(opts: seq<Opt>, i: nat, last: nat)
    requires i <= |opts| && (forall j :: 0 <= j < |opts| ==> |opts[j].val| <= 3 && opts[j].num < 268)
    requires forall j :: 0 <= j < |opts| - 1 ==> opts[j].num <= opts[j + 1].num
    requires i < |opts| ==> last <= opts[i].num
    ensures AllWritable(last, opts[i..]) && ValuesSize(opts[i..]) <= 3 * (|opts| - i)
    decreases |opts| - i
  {
    if i == |opts| {
    } else {
      WritableFrom(opts, i + 1, opts[i].num);
      assert opts[i..][1..] == opts[i + 1..];
    }
  }

  /** Queueing the first record on a new client opens the socket and sends the record's only block. */
  lemma FirstRecord(found: bool, x: bytes)
    ensures C.Sending(Sent([Record(x)])) && C.WriteBlock(ClientSide(), Sent([Record(x)])).Some?
    ensures C.Queue(ClientSide(), C.Initial(0, 5), Record(x), World(true)) ==
            C.Running(Sent([Record(x)]), None, C.WriteBlock(ClientSide(), Sent([Record(x)])))
    ensures Init(Sides(found), Start(found, x))
  {
    hide Store, C.WriteBlock, C.Stop, C.StartAt;
    var c0 := C.Initial(0, 5).(queue := [Record(x)]);
    Writes([Record(x)], x, 1);
    assert C.RemoveExpired([], 0) + [Record(x)] == [Record(x)];
    assert C.RemoveExpired([Record(x)], 0) == [Record(x)] by { assert [Record(x)][1..] == []; }
    Connects(x);
    var o := C.StartRecord(ClientSide(), c0, false, World(true), 0);
    assert o == C.Running(Sent([Record(x)]), None, C.WriteBlock(ClientSide(), Sent([Record(x)])));
    E.NewSocketIsInit(Sides(found), c0, false, World(true));
  }

  lemma Connects(x: bytes)
    ensures C.Sending(Sent([Record(x)]))
    ensures var c := C.Initial(0, 5).(queue := [Record(x)], ackTime := None);
      C.StartAt(ClientSide(), c, 7, World(true), 0) ==
      C.Running(Sent([Record(x)]), None, C.WriteBlock(ClientSide(), Sent([Record(x)])))
  {
    hide Store, C.WriteBlock;
    var c := C.Initial(0, 5).(queue := [Record(x)], ackTime := None);
    Writes([Record(x)], x, 1);
    var d := Sent([Record(x)]).(ackTime := None);
    P.WriteIgnoresTimers(ClientSide(), d, Sent([Record(x)]));
    assert Rem(5683, 0x1_0000) == 5683 && Quot(2000, 1000) == 2;
    var e := World(true)(0);
    var c2 := C.Connected(C.Stop(c).(ackMs := 2000, retrans := 0), 7);
    assert C.FirstBlock(ClientSide(), c2, e).(query := [113]) == d;
    assert C.SendBlock(ClientSide(), d, false, World(true), 0) ==
           C.Running(Sent([Record(x)]), None, C.WriteBlock(ClientSide(), d));
    assert C.SendFirst(ClientSide(), c2, World(true), 0) == C.SendBlock(ClientSide(), d, false, World(true), 0);
  }

  function Start(found: bool, x: bytes): Net
    requires C.Sending(Sent([Record(x)])) && C.WriteBlock(ClientSide(), Sent([Record(x)])).Some?
  {
    var c := Sent([Record(x)]);
    Net(c, S.FRESH, [C.WriteBlock(ClientSide(), c).value], [], Payloads(c.queue), [c.queue[0].payload], [])
  }

  // ---------------------------------------------------------------- the server's answer

  function Flags(found: bool): set<Action> {
    if found then {SendAck, UspRecordComplete} else {SendAck, NotFound}
  }

  /** The ACK of the client's only block */
  function Answer(found: bool, queue: seq<C.Item>): bytes
    requires C.Sending(Sent(queue)) && S.Parseable(W.BlockPdu(Sent(queue)))
  {
    S.WriteAck(Sides(found).scfg, W.BlockPdu(Sent(queue)), Flags(found), [])
  }

  /** A server that knows the resource accepts the record; another answers with an error. */
  lemma ServerAnswers(found: bool, queue: seq<C.Item>, x: bytes)
    requires queue != [] && queue[0] == Record(x) && |x| <= 16
    ensures C.Sending(Sent(queue)) && C.WriteBlock(ClientSide(), Sent(queue)).Some?
        && S.Parseable(W.BlockPdu(Sent(queue)))
    ensures var t := S.Receive(Sides(found).scfg, S.FRESH, C.WriteBlock(ClientSide(), Sent(queue)).value, REPLY);
      t.sent == Some(Answer(found, queue)) && t.posted == if found then Some(x) else None
  {
    hide ParsePdu, S.WriteAck, C.WriteBlock, Store, Convert;
    var c, cfg := Sent(queue), Sides(found).scfg;
    Writes(queue, x, 1);
    W.BlockParses(ClientSide(), c, cfg.queryOk);
    S.ParsedIsParseable(C.WriteBlock(ClientSide(), c).value, cfg.queryOk);
    var p := W.BlockPdu(c);
    assert p.uriPath == Some(PATH) by { PathIs(); }
    assert p.size1.value < 0x1_0000 by {
      ConvertBound(Store(2, |x|));
      Pow256Small();
    }
    assert p.payload == x;
    assert [] + x == x;
    assert S.Actions(cfg, S.FRESH, p).flags == Flags(found);
  }

  lemma PathIs()
    ensures W.JoinPath(None, [PATH]) == Some(PATH)
  {
    assert [PATH][1..] == [];
    assert CString(PATH) == PATH by {
      assert PATH[1..] == [];
      assert CString([]) == [];
    }
    assert W.JoinPath(Some(PATH), []) == Some(PATH);
  }

  /** What the client reads out of it */
  lemma AnswerReads(found: bool, queue: seq<C.Item>, x: bytes)
    requires queue != [] && queue[0] == Record(x) && |x| <= 16
    ensures C.Sending(Sent(queue)) && S.Parseable(W.BlockPdu(Sent(queue)))
    ensures var r := ParsePdu(Answer(found, queue), ClientSide().queryOk);
      && r.flags == {} && r.pdu.hdr.pduType.Acknowledgement? && r.pdu.token == Store(4, 1) && r.pdu.hdr.mid == 1
      && r.pdu.hdr.cls == (if found then S.CLASS_SUCCESS else S.CLASS_CLIENT_ERROR)
      && (found ==> r.pdu.hdr.code == S.CODE_CHANGED)
  {
    hide ParsePdu, S.WriteAck, C.WriteBlock, Store, Convert;
    ServerAnswers(found, queue, x);
    W.AckParses(Sides(found).scfg, W.BlockPdu(Sent(queue)), Flags(found), [], ClientSide().queryOk);
  }

  // ---------------------------------------------------------------- a repeated error ends the client

  /** The queue has run empty, and the socket lingers. */
  function Lingering(): C.Client {
    Sent([]).(ackTime := None, linger := Some(300))
  }

  lemma ErrorEmptiesQueue(x: bytes)
    requires |x| <= 16
    ensures C.Sending(Sent([Record(x)])) && S.Parseable(W.BlockPdu(Sent([Record(x)])))
    ensures C.Valid(Sent([Record(x)]))
    ensures C.HandleAck(ClientSide(), Sent([Record(x)]), C.Data(Answer(false, [Record(x)])), World(true)) ==
            C.Running(Lingering(), None, None)
  {
    hide ParsePdu, S.WriteAck, Store;
    AnswerReads(false, [Record(x)], x);
    var c := Sent([Record(x)]);
    assert C.RemoveExpired([Record(x)][1..], 0) == [];
    assert C.StartRecord(ClientSide(), c.(queue := []), false, World(true), 0) == C.Running(Lingering(), None, None);
    assert [Record(x)][1..] == [];
    assert C.StartNext(ClientSide(), c, World(true), 0) == C.Running(Lingering(), None, None);
  }

  // ---------------------------------------------------------------- steps the runs are made of

  /** The server takes the client's block, the only datagram on its way, and answers it. */
  lemma AnswerStep(found: bool, n: Net, x: bytes)
    requires |x| <= 16 && C.Sending(Sent([Record(x)])) && C.WriteBlock(ClientSide(), Sent([Record(x)])).Some?
    requires S.Parseable(W.BlockPdu(Sent([Record(x)])))
    requires n.server == S.FRESH && n.toServer == [C.WriteBlock(ClientSide(), Sent([Record(x)])).value]
    requires n.toClient == [] && n.posted == []
    ensures var t := S.Receive(Sides(found).scfg, S.FRESH, n.toServer[0], REPLY);
      E.IsStep(Sides(found), n, DeliverToServer(false, REPLY),
               n.(server := t.s, toServer := [], toClient := [Answer(found, [Record(x)])],
                  posted := if found then [x] else []))
  {
    hide ParsePdu, S.WriteAck, S.Receive, C.WriteBlock, Store;
    ServerAnswers(found, [Record(x)], x);
    var ack := Answer(found, [Record(x)]);
    assert n.toClient + [ack] == [ack] && n.toServer[1..] == [] && n.posted + [x] == [x] && n.posted + [] == [];
  }

  /** A datagram arrives at the client, and will arrive again; nothing is sent. */
  lemma ArrivalStep(u: Setup, n: Net, env: nat -> C.Env, d: C.Client)
    requires u.Valid() && C.Valid(n.client) && n.client.sock == Some(u.sock) && n.toClient != []
    requires C.HandleAck(u.ccfg, n.client, C.Data(n.toClient[0]), env) == C.Running(d, None, None)
    ensures E.IsStep(u, n, DeliverToClient(true, env), n.(client := d))
  {
    hide C.HandleAck;
    assert n.toServer + [] + [] == n.toServer && n.started + [] == n.started;
  }

  /**
   A record the server refuses, whose error ACK arrives twice: the first ends the record, the second finds the queue
   empty and ends the program.
   */
  lemma RepeatedErrorEndsClient(x: bytes) returns (ns: seq<Net>, evs: seq<Event>, last: Event)
    requires |x| <= 16
    ensures E.IsRun(Sides(false), ns, evs) && E.Permitted(evs)
    ensures Enabled(Sides(false), ns[|evs|], last) && Allowed(Sides(false), ns[|evs|], last)
    ensures Next(Sides(false), ns[|evs|], last) == None
  {
    hide ParsePdu, S.WriteAck, S.Receive, C.HandleAck, C.WriteBlock, Store, Init, Next, Allowed, Enabled;
    var u, q := Sides(false), [Record(x)];
    FirstRecord(false, x);
    ErrorEmptiesQueue(x);
    var n0, ack := Start(false, x), Answer(false, q);
    evs := [DeliverToServer(false, REPLY), DeliverToClient(true, World(true))];
    last := DeliverToClient(true, World(true));
    AnswerStep(false, n0, x);
    var n1 := n0.(server := S.Receive(u.scfg, S.FRESH, n0.toServer[0], REPLY).s, toServer := [], toClient := [ack]);
    ArrivalStep(u, n1, World(true), Lingering());
    var n2 := n1.(client := Lingering());
    ns := [n0, n1, n2];
    assert E.IsStep(u, ns[0], evs[0], ns[1]) && E.IsStep(u, ns[1], evs[1], ns[2]);
    LastErrorEnds(n2, x);
  }

  lemma LastErrorEnds(n: Net, x: bytes)
    requires |x| <= 16 && C.Sending(Sent([Record(x)])) && S.Parseable(W.BlockPdu(Sent([Record(x)])))
    requires n.client == Lingering() && n.toClient == [Answer(false, [Record(x)])]
    ensures var u, ev := Sides(false), DeliverToClient(true, World(true));
      Enabled(u, n, ev) && Allowed(u, n, ev) && Next(u, n, ev) == None
  {
    hide ParsePdu, S.WriteAck, C.HandleAck, Store;
    AnswerReads(false, [Record(x)], x);
    P.IdleEndsExactly(ClientSide(), Lingering(), n.toClient[0], World(true));
  }

  // ---------------------------------------------------------------- a record dropped unsent

  /** The second record is next, but the client may not connect: no timer is armed on the open socket. */
  function Stranded(y: bytes): C.Client {
    Sent([Record(y)]).(ackTime := None, reconnTime := Some(C.CAN_MTP_CONNECT_RETRY_TIME))
  }

  lemma SecondRecordJoins(x: bytes, y: bytes)
    requires x != y
    ensures C.Queue(ClientSide(), Sent([Record(x)]), Record(y), World(true)) ==
            C.Running(Sent([Record(x), Record(y)]), None, None)
  {
    hide Store;
    assert [Record(x)][1..] == [];
    assert C.RemoveExpired([Record(x)], 0) == [Record(x)];
    assert [Record(x)] + [Record(y)] == [Record(x), Record(y)];
  }

  lemma ChangedStrands(x: bytes, y: bytes)
    requires |x| <= 16 && |y| <= 16
    ensures C.Sending(Sent([Record(x)])) && S.Parseable(W.BlockPdu(Sent([Record(x)])))
    ensures C.Valid(Sent([Record(x), Record(y)])) && C.Valid(Stranded(y))
    ensures var ack := C.Data(Answer(true, [Record(x)]));
      && C.HandleAck(ClientSide(), Sent([Record(x), Record(y)]), ack, World(false)) ==
         C.Running(Stranded(y), None, None)
      && C.HandleAck(ClientSide(), Stranded(y), ack, World(true)) == C.Running(Lingering(), None, None)
      && E.TakesAsChanged(Sides(true), Stranded(y), ack.data)
  {
    hide ParsePdu, S.WriteAck, Store;
    AnswerReads(true, [Record(x)], x);
    var c, d := Sent([Record(x), Record(y)]), Stranded(y);
    assert c.queue[1..] == [Record(y)] && d.queue[1..] == [];
    assert C.RemoveExpired([Record(y)], 0) == [Record(y)] by { assert [Record(y)][1..] == []; }
    assert C.StartRecord(ClientSide(), c.(queue := [Record(y)]), false, World(false), 0) == C.Running(d, None, None);
    assert C.StartRecord(ClientSide(), d.(queue := []), false, World(true), 0) == C.Running(Lingering(), None, None);
    assert C.StartNext(ClientSide(), c, World(false), 0) == C.Running(d, None, None);
    assert C.StartNext(ClientSide(), d, World(true), 0) == C.Running(Lingering(), None, None);
  }

  /**
   Two short records, and the permission to connect withdrawn when the first has been acknowledged: the client is
   stranded, and a repeated ACK of the first record makes it drop the second as sent. Only the first was started, and
   only the first is posted.
   */
  lemma WithdrawnDropsUnsent(x: bytes, y: bytes) returns (ns: seq<Net>, evs: seq<Event>)
    requires x != y && |x| <= 16 && |y| <= 16
    ensures E.IsRun(Sides(true), ns, evs) && |evs| == 4
    ensures !P.NotStranded(ns[3].client) && ns[3].toClient != []
    ensures E.TakesAsChanged(Sides(true), ns[3].client, ns[3].toClient[0])
    ensures ns[3].client.queue == [Record(y)] && ns[4].client.queue == []
    ensures ns[4].queued == [x, y] && ns[4].started == [x] && ns[4].posted == [x]
  {
    hide ParsePdu, S.WriteAck, S.Receive, C.HandleAck, C.WriteBlock, Store, Init, Next, Allowed, Enabled,
         E.TakesAsChanged;
    var u, q := Sides(true), [Record(x)];
    FirstRecord(true, x);
    ChangedStrands(x, y);
    var n0, ack := Start(true, x), Answer(true, q);
    evs := [ClientEvent(C.Queued(Record(y)), World(true)), DeliverToServer(false, REPLY),
            DeliverToClient(true, World(false)), DeliverToClient(true, World(true))];
    JoinStep(n0, x, y);
    var n1 := n0.(client := Sent([Record(x), Record(y)]), queued := [x, y]);
    AnswerStep(true, n1, x);
    var n2 := n1.(server := S.Receive(u.scfg, S.FRESH, n1.toServer[0], REPLY).s, toServer := [], toClient := [ack],
                  posted := [x]);
    ArrivalStep(u, n2, World(false), Stranded(y));
    var n3 := n2.(client := Stranded(y));
    ArrivalStep(u, n3, World(true), Lingering());
    ns := [n0, n1, n2, n3, n3.(client := Lingering())];
    assert E.IsStep(u, ns[0], evs[0], ns[1]) && E.IsStep(u, ns[1], evs[1], ns[2]);
    assert E.IsStep(u, ns[2], evs[2], ns[3]) && E.IsStep(u, ns[3], evs[3], ns[4]);
  }

  lemma JoinStep(n: Net, x: bytes, y: bytes)
    requires x != y && n.client == Sent([Record(x)]) && n.queued == Payloads([Record(x)])
    ensures E.IsStep(Sides(true), n, ClientEvent(C.Queued(Record(y)), World(true)),
                     n.(client := Sent([Record(x), Record(y)]), queued := [x, y]))
  {
    hide C.Queue, Store;
    SecondRecordJoins(x, y);
    assert Payloads([Record(x)]) + [y] == [x, y];
    assert n.toServer + [] + [] == n.toServer && n.started + [] == n.started;
  }

  // ---------------------------------------------------------------- a record abandoned on an open socket

  /** A timeout: the block is sent again and the wait is doubled. */
  function Tick(c: C.Client): C.Client {
    c.(retrans := c.retrans + 1, reconns := c.reconns + 1, ackMs := 2 * c.ackMs,
       ackTime := Some(Quot(2 * c.ackMs, 1000)))
  }

  /** The client after k timeouts */
  function Waiting(queue: seq<C.Item>, k: nat): (c: C.Client)
    ensures c == Sent(queue).(retrans := k, reconns := k, ackMs := c.ackMs, ackTime := c.ackTime) && c.ackTime.Some?
  {
    if k == 0 then Sent(queue) else Tick(Waiting(queue, k - 1))
  }

  lemma TimeoutRepeats(n: Net, queue: seq<C.Item>, x: bytes, k: nat)
    requires queue != [] && queue[0] == Record(x) && n.client == Waiting(queue, k) && k < 3
    ensures C.Sending(Sent(queue)) && C.WriteBlock(ClientSide(), Sent(queue)).Some?
    ensures E.IsStep(Sides(true), n, ClientEvent(C.AckTimer, World(true)),
                     n.(client := Waiting(queue, k + 1),
                        toServer := n.toServer + [C.WriteBlock(ClientSide(), Sent(queue)).value]))
  {
    hide C.WriteBlock, Store, C.RetryLater, C.StartRecord;
    Writes(queue, x, 1);
    var c := Waiting(queue, k);
    var d := c.(retrans := k + 1, reconns := k + 1, ackMs := 2 * c.ackMs);
    P.WriteIgnoresTimers(ClientSide(), d, Sent(queue));
    assert C.HandleNoAck(ClientSide(), c, World(true)) ==
           C.Running(Tick(c), None, C.WriteBlock(ClientSide(), Sent(queue)));
    assert n.queued + [] == n.queued && n.started + [] == n.started && n.toServer + [] == n.toServer;
  }

  /** The fourth timeout: the record is dropped, and the next one is started on the same socket. */
  lemma TimeoutAbandons(n: Net, a: bytes, b: bytes)
    requires n.client == Waiting([Record(a), Record(b)], 3)
    ensures var c := SentAs([Record(b)], 2);
      && C.Sending(c) && C.WriteBlock(ClientSide(), c).Some?
      && Enabled(Sides(true), n, ClientEvent(C.AckTimer, Again()))
      && Next(Sides(true), n, ClientEvent(C.AckTimer, Again())) ==
         Some(n.(client := c, toServer := n.toServer + [C.WriteBlock(ClientSide(), c).value],
           started := n.started + [b]))
  {
    hide C.WriteBlock, Store, C.RetryLater, C.StartRecord;
    Writes([Record(b)], b, 2);
    var c, e := Waiting([Record(a), Record(b)], 3), SentAs([Record(b)], 2);
    assert c.queue[1..] == [Record(b)];
    var d := c.(retrans := 4, reconns := 4, queue := [Record(b)]);
    StartsSecond(d, b);
    assert C.StartNext(ClientSide(), c.(retrans := 4, reconns := 4), Again(), 0) ==
           C.StartRecord(ClientSide(), d, false, Again(), 0);
    assert n.queued + [] == n.queued && n.toServer + [] == n.toServer;
  }

  lemma StartsSecond(d: C.Client, b: bytes)
    requires d == Sent([Record(b)]).(retrans := d.retrans, reconns := d.reconns, ackMs := d.ackMs, ackTime := d.ackTime)
    ensures C.Sending(SentAs([Record(b)], 2))
    ensures C.StartRecord(ClientSide(), d, false, Again(), 0) ==
            C.Running(SentAs([Record(b)], 2), None, C.WriteBlock(ClientSide(), SentAs([Record(b)], 2)))
  {
    hide C.WriteBlock, Store, C.RetryLater;
    Writes([Record(b)], b, 2);
    assert C.RemoveExpired([Record(b)], 0) == [Record(b)] by { assert [Record(b)][1..] == []; }
    var c1 := C.Cleared(d, false, Again()(0));
    var e := SentAs([Record(b)], 2);
    var c2 := c1.(ackMs := 2000, retrans := 0);
    assert C.FirstBlock(ClientSide(), c2, Again()(0)).(query := [113]) == e.(ackTime := None);
    P.WriteIgnoresTimers(ClientSide(), e.(ackTime := None), e);
    assert Quot(2000, 1000) == 2;
    assert C.SendBlock(ClientSide(), e.(ackTime := None), false, Again(), 0) ==
           C.Running(e, None, C.WriteBlock(ClientSide(), e));
    assert C.SendFirst(ClientSide(), c2, Again(), 0) ==
           C.SendBlock(ClientSide(), e.(ackTime := None), false, Again(), 0);
    assert C.StartAt(ClientSide(), c1, 7, Again(), 0) == C.SendFirst(ClientSide(), c2, Again(), 0);
  }

  /** The PDU of a first block, as the server reads it */
  lemma ServerReads(queue: seq<C.Item>, x: bytes, id: nat)
    requires queue != [] && queue[0] == Record(x) && id < 0x1_0000
    ensures C.Sending(SentAs(queue, id)) && C.WriteBlock(ClientSide(), SentAs(queue, id)).Some?
    ensures var p := W.BlockPdu(SentAs(queue, id));
      && ParsePdu(C.WriteBlock(ClientSide(), SentAs(queue, id)).value, Sides(true).scfg.queryOk) == Parsed({}, p)
      && S.Parseable(p) && p.token == Store(4, id)
      && p.hdr == Header(Confirmable, 4, S.CLASS_REQUEST, S.METHOD_POST, id)
      && p.uriPath == Some(PATH) && p.uriQuery.Some? && p.contentFormat == Some(OCTET_STREAM as nat)
      && p.size1.Some? && p.size1.value < 0x1_0000 && p.block1 == Some(Block(0, |x| > 16, 16))
      && p.payload == if |x| > 16 then x[..16] else x
  {
    hide ParsePdu, C.WriteBlock, Store, Convert, W.QueryText;
    var c := SentAs(queue, id);
    Writes(queue, x, id);
    W.BlockParses(ClientSide(), c, Sides(true).scfg.queryOk);
    S.ParsedIsParseable(C.WriteBlock(ClientSide(), c).value, Sides(true).scfg.queryOk);
    PathIs();
    ConvertBound(Store(2, |x|));
    Pow256Small();
  }

  /** The session that holds the first block of the record a, answered with ack */
  function Holding(a: bytes, ack: bytes): S.Session
    requires |a| > 16
  {
    S.Session(a[..16], 1, 16, Store(4, 1), Some(S.Response(1, ack)))
  }

  lemma FirstBlockHeld(queue: seq<C.Item>, a: bytes) returns (ack: bytes)
    requires queue != [] && queue[0] == Record(a) && |a| > 16
    ensures C.Sending(Sent(queue)) && C.WriteBlock(ClientSide(), Sent(queue)).Some?
    ensures S.Receive(Sides(true).scfg, S.FRESH, C.WriteBlock(ClientSide(), Sent(queue)).value, REPLY) ==
            S.Step(Holding(a, ack), Some(ack), None)
  {
    hide ParsePdu, C.WriteBlock, Store, S.WriteAck, S.WriteRst;
    ServerReads(queue, a, 1);
    ack := S.WriteAck(Sides(true).scfg, W.BlockPdu(Sent(queue)), {SendAck}, []);
    assert [] + a[..16] == a[..16];
  }

  lemma TokensDiffer()
    ensures Store(4, 1) != Store(4, 2)
  {
    StoreConvert(4, 1);
    StoreConvert(4, 2);
  }

  /** A short record arriving behind the held block is handed over together with it. */
  lemma SecondRecordMixes(a: bytes, ack: bytes, b: bytes) returns (t: S.Step)
    requires |a| > 16 && |b| <= 16
    ensures C.Sending(SentAs([Record(b)], 2)) && C.WriteBlock(ClientSide(), SentAs([Record(b)], 2)).Some?
    ensures var pdu := C.WriteBlock(ClientSide(), SentAs([Record(b)], 2)).value;
      t == S.Receive(Sides(true).scfg, Holding(a, ack), pdu, REPLY)
    ensures t.posted == Some(a[..16] + b) && t.sent.Some?
  {
    hide ParsePdu, C.WriteBlock, Store, S.WriteAck, S.WriteRst;
    ServerReads([Record(b)], b, 2);
    TokensDiffer();
    t := S.Receive(Sides(true).scfg, Holding(a, ack), C.WriteBlock(ClientSide(), SentAs([Record(b)], 2)).value, REPLY);
  }

  /** One event of the joined system, whether or not the end-to-end theorem allows it */
  predicate Happens(u: Setup, n: Net, ev: Event, n': Net)
    requires u.Valid()
  {
    Enabled(u, n, ev) && Next(u, n, ev) == Some(n')
  }

  /**
   A record a of more than a block, and a short record b behind it. The first block of a arrives, but no ACK comes back;
   after four timeouts the client drops a and starts b on the same socket. Every event but the last timeout is one the
   end-to-end theorem allows, and the server hands over the first block of a followed by b, which is neither record
   unless b happens to be the rest of a.
   */
  lemma AbandonedMixes(a: bytes, b: bytes) returns (ns: seq<Net>, evs: seq<Event>)
    requires |a| > 16 && |b| <= 16
    ensures |ns| == |evs| + 1 == 11 && Init(Sides(true), ns[0])
    ensures forall i :: 0 <= i < 10 ==> Happens(Sides(true), ns[i], evs[i], ns[i + 1])
    ensures forall i :: 0 <= i < 10 && i != 5 ==> E.IsStep(Sides(true), ns[i], evs[i], ns[i + 1])
    ensures ns[10].queued == [a, b] && ns[10].posted == [a[..16] + b]
    ensures ns[10].posted[0] in ns[10].queued <==> b == a[16..]
  {
    hide Next, Allowed, Enabled, Init, C.WriteBlock, Store, S.Receive, Waiting;
    var q := [Record(a), Record(b)];
    FirstRecord(true, a);
    var n0 := Start(true, a);
    JoinStep(n0, a, b);
    var n1 := n0.(client := Waiting(q, 0), queued := [a, b]);
    assert Waiting(q, 0) == Sent(q) by { WaitingStarts(q); }
    var ack := FirstBlockHeld([Record(a)], a);
    HeldStep(n1, a, ack);
    var d1 := n0.toServer[0];
    var n2 := n1.(server := Holding(a, ack), toServer := [], toClient := [ack]);
    SamePdu(a, b);
    TimeoutRepeats(n2, q, a, 0);
    var n3 := n2.(client := Waiting(q, 1), toServer := [] + [d1]);
    TimeoutRepeats(n3, q, a, 1);
    var n4 := n3.(client := Waiting(q, 2), toServer := n3.toServer + [d1]);
    TimeoutRepeats(n4, q, a, 2);
    var n5 := n4.(client := Waiting(q, 3), toServer := n4.toServer + [d1]);
    TimeoutAbandons(n5, a, b);
    var d2 := C.WriteBlock(ClientSide(), SentAs([Record(b)], 2)).value;
    var n6 := n5.(client := SentAs([Record(b)], 2), toServer := n5.toServer + [d2], started := n5.started + [b]);
    assert n6.toServer == [d1, d1, d1, d2];
    var n9 := n6.(toServer := [d2]);
    var n7, n8 := n6.(toServer := [d1, d1, d2]), n6.(toServer := [d1, d2]);
    LossStep(n6, [d1, d1, d2]);
    LossStep(n7, [d1, d2]);
    LossStep(n8, [d2]);
    var t := SecondRecordMixes(a, ack, b);
    MixStep(n9, t);
    var n10 := n9.(server := t.s, toServer := [], toClient := n9.toClient + [t.sent.value], posted := [t.posted.value]);
    ns := [n0, n1, n2, n3, n4, n5, n6, n7, n8, n9, n10];
    var timeout := ClientEvent(C.AckTimer, World(true));
    evs := [ClientEvent(C.Queued(Record(b)), World(true)), DeliverToServer(false, REPLY), timeout, timeout, timeout,
            ClientEvent(C.AckTimer, Again()), LoseToServer(0), LoseToServer(0), LoseToServer(0),
            DeliverToServer(false, REPLY)];
    NeitherRecord(a, b);
  }

  lemma WaitingStarts(queue: seq<C.Item>)
    ensures Waiting(queue, 0) == Sent(queue)
  {
  }

  /** The client's PDU does not depend on the records behind the first. */
  lemma SamePdu(a: bytes, b: bytes)
    ensures C.Sending(Sent([Record(a)])) && C.Sending(Sent([Record(a), Record(b)]))
    ensures C.WriteBlock(ClientSide(), Sent([Record(a)])) == C.WriteBlock(ClientSide(), Sent([Record(a), Record(b)]))
  {
    hide C.WriteBlock, Store;
    Writes([Record(a)], a, 1);
    Writes([Record(a), Record(b)], a, 1);
    P.WriteIgnoresTimers(ClientSide(), Sent([Record(a)]), Sent([Record(a), Record(b)]));
  }

  lemma HeldStep(n: Net, a: bytes, ack: bytes)
    requires |a| > 16 && n.server == S.FRESH && |n.toServer| == 1 && n.toClient == []
    requires S.Receive(Sides(true).scfg, S.FRESH, n.toServer[0], REPLY) == S.Step(Holding(a, ack), Some(ack), None)
    ensures E.IsStep(Sides(true), n, DeliverToServer(false, REPLY),
                     n.(server := Holding(a, ack), toServer := [], toClient := [ack]))
  {
    hide S.Receive, Store;
    assert n.toServer[1..] == [] && n.toClient + [ack] == [ack] && n.posted + [] == n.posted;
  }

  lemma LossStep(n: Net, rest: seq<bytes>)
    requires n.toServer != [] && n.toServer[1..] == rest
    ensures E.IsStep(Sides(true), n, LoseToServer(0), n.(toServer := rest))
  {
    assert Without(n.toServer, 0) == rest;
  }

  lemma MixStep(n: Net, t: S.Step)
    requires |n.toServer| == 1 && n.posted == [] && t.sent.Some? && t.posted.Some?
    requires t == S.Receive(Sides(true).scfg, n.server, n.toServer[0], REPLY)
    ensures E.IsStep(Sides(true), n, DeliverToServer(false, REPLY),
                     n.(server := t.s, toServer := [], toClient := n.toClient + [t.sent.value],
                        posted := [t.posted.value]))
  {
    hide S.Receive;
    assert n.toServer[1..] == [] && n.posted + [t.posted.value] == [t.posted.value];
  }

  lemma NeitherRecord(a: bytes, b: bytes)
    requires |a| > 16 && |b| <= 16
    ensures a[..16] + b in [a, b] <==> b == a[16..]
  {
    assert a == a[..16] + a[16..];
    if b == a[16..] {
      assert [a, b][0] == a[..16] + b;
    } else {
      assert |a[..16] + b| == 16 + |b|;
      assert (a[..16] + b)[16..] == b;
    }
  }

  // ---------------------------------------------------------------- a refused reply-to

  const REFUSED := S.Env(true, false, [])

  /** A record whose reply-to is refused stays in the buffer, */
  lemma RefusedStays(x: bytes) returns (t: S.Step)
    requires |x| <= 16
    ensures C.Sending(Sent([Record(x)])) && C.WriteBlock(ClientSide(), Sent([Record(x)])).Some?
    ensures t == S.Receive(Sides(true).scfg, S.FRESH, C.WriteBlock(ClientSide(), Sent([Record(x)])).value, REFUSED)
    ensures t.posted.None? && t.s.buf == x && t.s.count == 1 && t.s.token == Store(4, 1)
    ensures t.s.last.Some? && t.s.last.value.mid == 1
  {
    hide ParsePdu, C.WriteBlock, Store, S.WriteAck, S.WriteRst;
    ServerReads([Record(x)], x, 1);
    assert [] + x == x;
    t := S.Receive(Sides(true).scfg, S.FRESH, C.WriteBlock(ClientSide(), Sent([Record(x)])).value, REFUSED);
  }

  /** and the next record, whose reply-to is accepted, is handed over with it in front. */
  lemma RefusedReplyMixes(x: bytes, y: bytes) returns (ss: seq<S.Session>, datas: seq<bytes>, envs: seq<S.Env>)
    requires |x| <= 16 && |y| <= 16
    ensures SP.IsRun(Sides(true).scfg, ss, datas, envs) && |datas| == 2 && envs == [REFUSED, REPLY]
    ensures S.Receive(Sides(true).scfg, ss[0], datas[0], REFUSED).posted == None
    ensures S.Receive(Sides(true).scfg, ss[1], datas[1], REPLY).posted == Some(x + y)
  {
    hide ParsePdu, C.WriteBlock, Store, S.Receive;
    var t := RefusedStays(x);
    var u := NextMixes(t.s, x, y);
    envs := [REFUSED, REPLY];
    datas := [C.WriteBlock(ClientSide(), Sent([Record(x)])).value,
              C.WriteBlock(ClientSide(), SentAs([Record(y)], 2)).value];
    ss := [S.FRESH, t.s, u.s];
  }

  lemma NextMixes(s: S.Session, x: bytes, y: bytes) returns (t: S.Step)
    requires |x| <= 16 && |y| <= 16 && s.buf == x && s.count == 1 && s.token == Store(4, 1)
    requires s.last.Some? && s.last.value.mid == 1
    ensures C.Sending(SentAs([Record(y)], 2)) && C.WriteBlock(ClientSide(), SentAs([Record(y)], 2)).Some?
    ensures t == S.Receive(Sides(true).scfg, s, C.WriteBlock(ClientSide(), SentAs([Record(y)], 2)).value, REPLY)
    ensures t.posted == Some(x + y)
  {
    hide ParsePdu, C.WriteBlock, Store, S.WriteAck, S.WriteRst;
    ServerReads([Record(y)], y, 2);
    TokensDiffer();
    t := S.Receive(Sides(true).scfg, s, C.WriteBlock(ClientSide(), SentAs([Record(y)], 2)).value, REPLY);
  }
}
