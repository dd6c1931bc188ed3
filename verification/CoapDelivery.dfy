/**
 What block-wise transfer delivers when nothing goes wrong: with no loss and every send succeeding, every record in the
 queue is handed over, in order, after as many exchanges as it has blocks.
 */
module CoapDelivery {
  import opened CommonDefs
  import opened CoapCodec
  import opened CoapChannels
  import opened CoapProtocol
  import C = CoapClient
  import S = CoapServer
  import P = CoapClientProofs
  import Q = CoapClientQueue
  import W = CoapBlockPdu
  import R = CoapServerReplies
  import A = CoapClientAnswers

  // ---------------------------------------------------------------- blocks that can be written

  function Total(segments: seq<bytes>): nat {
    if segments == [] then 0 else |segments[0]| + Total(segments[1..])
  }

  /** Every option has a length that can be written, and with a full block the PDU fits the buffer. */
  predicate Fits(cfg: C.Config, peer: nat, item: C.Item, query: bytes) {
    var host := cfg.addrText(peer);
    && host.Some? && 0 < |host.value| < 268 && 0 < |query| < 268
    && (forall i :: 0 <= i < |item.resource| ==> 0 < |item.resource[i]| < 268)
    && |host.value| + |query| + Total(item.resource) + 3 * |item.resource| + cfg.txSize + 35 <= MAX_COAP_PDU_SIZE
  }

  lemma {:induction false} ValuesAppend(a: seq<Opt>, b: seq<Opt>)
    ensures ValuesSize(a + b) == ValuesSize(a) + ValuesSize(b)
  {
    if a == [] {
      assert a + b == b;
    } else {
      assert (a + b)[1..] == a[1..] + b;
      ValuesAppend(a[1..], b);
    }
  }

  lemma {:induction false} PathSizes(segments: seq<bytes>)
    ensures |C.PathOptions(segments)| == |segments| && ValuesSize(C.PathOptions(segments)) == Total(segments)
  {
    if segments == [] {
    } else {
      PathSizes(segments[1..]);
      assert C.PathOptions(segments)[1..] == C.PathOptions(segments[1..]);
    }
  }

  lemma {:induction false} PathWritable(last: nat, segments: seq<bytes>, rest: seq<Opt>)
    requires last == 7 || last == 11
    requires forall i :: 0 <= i < |segments| ==> |segments[i]| < 268
    requires AllWritable(7, rest) && AllWritable(11, rest)
    ensures AllWritable(last, C.PathOptions(segments) + rest)
    decreases |segments|
  {
    var opts := C.PathOptions(segments) + rest;
    if segments == [] {
      assert opts == rest;
    } else {
      assert opts[0] == Opt(URI_PATH, segments[0]);
      assert opts[1..] == C.PathOptions(segments[1..]) + rest;
      PathWritable(11, segments[1..], rest);
    }
  }

  lemma OptionInFront(last: nat, o: Opt, rest: seq<Opt>)
    ensures Writable(last, o) && AllWritable(o.num, rest) ==> AllWritable(last, [o] + rest)
    ensures ValuesSize([o] + rest) == |o.val| + ValuesSize(rest)
  {
    assert ([o] + rest)[1..] == rest;
  }

  lemma NoOptions(last: nat)
    ensures AllWritable(last, []) && ValuesSize([]) == 0
  {
  }

  lemma FourWritable(last: nat, a: bytes, b: bytes, c: bytes, d: bytes)
    requires last <= 12 && |a| < 268 && |b| < 268 && |c| < 268 && |d| < 268
    ensures AllWritable(last, [Opt(CONTENT_FORMAT, a), Opt(URI_QUERY, b), Opt(BLOCK1, c), Opt(SIZE1, d)])
    ensures ValuesSize([Opt(CONTENT_FORMAT, a), Opt(URI_QUERY, b), Opt(BLOCK1, c), Opt(SIZE1, d)]) ==
            |a| + |b| + |c| + |d|
  {
    hide AllWritable, ValuesSize;
    var o := [Opt(CONTENT_FORMAT, a), Opt(URI_QUERY, b), Opt(BLOCK1, c), Opt(SIZE1, d)];
    NoOptions(SIZE1);
    OptionInFront(BLOCK1, o[3], []);
    OptionInFront(URI_QUERY, o[2], [o[3]]);
    OptionInFront(CONTENT_FORMAT, o[1], [o[2], o[3]]);
    OptionInFront(last, o[0], [o[1], o[2], o[3]]);
    assert [o[3]] + [] == [o[3]] && [o[2]] + [o[3]] == [o[2], o[3]] && [o[1]] + [o[2], o[3]] == [o[1], o[2], o[3]];
    assert o == [o[0]] + [o[1], o[2], o[3]];
  }

  /** So every block of the record can be written. */
  lemma BlockWritten(cfg: C.Config, c: Client)
    requires cfg.Valid() && C.Sending(c) && c.blockSize <= cfg.txSize
    requires Fits(cfg, c.peerAddr, c.queue[0], c.query)
    ensures C.WriteBlock(cfg, c).Some?
  {
    hide EncodePdu, EncodeBlock, AllWritable, ValuesSize, Store;
    var item, host := c.queue[0], cfg.addrText(c.peerAddr).value;
    var block := EncodeBlock(Block(c.curBlock, C.MoreBlocks(c), c.blockSize));
    var head := [Opt(URI_HOST, host), Opt(URI_PORT, Store(2, item.port))];
    var paths := C.PathOptions(item.resource);
    var four := [Opt(CONTENT_FORMAT, [OCTET_STREAM]), Opt(URI_QUERY, c.query), Opt(BLOCK1, block),
                 Opt(SIZE1, Store(2, |item.payload|))];
    FourWritable(7, [OCTET_STREAM], c.query, block, Store(2, |item.payload|));
    FourWritable(11, [OCTET_STREAM], c.query, block, Store(2, |item.payload|));
    PathWritable(7, item.resource, four);
    HeadWritable(host, Store(2, item.port), paths + four);
    PathSizes(item.resource);
    ValuesAppend(head + paths, four);
    ValuesAppend(head, paths);
    assert C.BlockOptions(cfg, c) == head + paths + four == head + (paths + four);
  }

  lemma HeadWritable(host: bytes, port: bytes, rest: seq<Opt>)
    requires |host| < 268 && |port| < 268 && AllWritable(7, rest)
    ensures var head := [Opt(URI_HOST, host), Opt(URI_PORT, port)];
      AllWritable(0, head + rest) && ValuesSize(head) == |host| + |port|
  {
    hide AllWritable, ValuesSize;
    var a, b := Opt(URI_HOST, host), Opt(URI_PORT, port);
    OptionInFront(URI_HOST, b, rest);
    OptionInFront(0, a, [b] + rest);
    assert [a] + ([b] + rest) == [a, b] + rest;
    NoOptions(URI_PORT);
    OptionInFront(URI_HOST, b, []);
    OptionInFront(0, a, [b]);
    assert [b] + [] == [b] && [a] + [b] == [a, b];
  }

  // ---------------------------------------------------------------- exchanges

  /** The server gets what is next in its channel. */
  function ServerTurn(u: Setup, n: Net, senv: S.Env): Option<Net>
    requires u.Valid()
  {
    if n.toServer == [] then None else Next(u, n, DeliverToServer(false, senv))
  }

  /** The client gets what is next in its channel. */
  function ClientReads(u: Setup, n: Net, env: nat -> C.Env): Option<Net>
    requires u.Valid()
  {
    if !Enabled(u, n, DeliverToClient(false, env)) then None else Next(u, n, DeliverToClient(false, env))
  }

  /** One datagram to the server and one back, each delivered once */
  function Exchange(u: Setup, n: Net, senv: S.Env, env: nat -> C.Env): Option<Net>
    requires u.Valid()
  {
    var m := ServerTurn(u, n, senv);
    if m.None? then None else ClientReads(u, m.value, env)
  }

  type ServerEnvs = nat -> S.Env
  type ClientEnvs = nat -> nat -> C.Env

  /** k exchanges, the first with the outcomes numbered j */
  function Exchanges(u: Setup, n: Net, j: nat, k: nat, senv: ServerEnvs, env: ClientEnvs): Option<Net>
    requires u.Valid()
    decreases k
  {
    if k == 0 then Some(n) else
    var m := Exchange(u, n, senv(j), env(j));
    if m.None? then None else Exchanges(u, m.value, j + 1, k - 1, senv, env)
  }

  lemma {:induction false} ExchangesJoin(u: Setup, n: Net, j: nat, k: nat, l: nat, senv: ServerEnvs, env: ClientEnvs)
    requires u.Valid()
    ensures var m := Exchanges(u, n, j, k, senv, env);
      Exchanges(u, n, j, k + l, senv, env) == if m.None? then None else Exchanges(u, m.value, j + k, l, senv, env)
    decreases k
  {
    hide Exchange;
    if k == 0 {
    } else {
      assert j + 1 + (k - 1) == j + k && k + l - 1 == (k - 1) + l;
      var m := Exchange(u, n, senv(j), env(j));
      if m.Some? {
        ExchangesJoin(u, m.value, j + 1, k - 1, l, senv, env);
      }
    }
  }

  /** The number of blocks of so many bytes: one of the first size, and the rest of the second */
  function Blocks(left: nat, size: nat, next: nat): (k: nat)
    requires size > 0 && next > 0
    ensures k > 0
    decreases left
  {
    if left <= size then 1 else 1 + Blocks(left - size, next, next)
  }

  // ---------------------------------------------------------------- a record under way

  /** The server accepts this record from this client: its resource, its options, its length and its contents. */
  predicate Welcome(u: Setup, peer: nat, item: C.Item, query: bytes) {
    && Fits(u.ccfg, peer, item, query) && u.scfg.queryOk(W.QueryText(query))
    && W.JoinPath(None, item.resource) == Some(u.scfg.resource)
    && |item.payload| <= S.MAX_USP_MSG_LEN && u.scfg.unpacks(item.payload)
  }

  /** The client waits for the ACK of a block that is on its way, and the server holds the record up to that block. */
  predicate Underway(u: Setup, n: Net)
    requires u.Valid()
  {
    var c, s := n.client, n.server;
    && Live(u, n) && C.Valid(c) && C.Sending(c) && c.ackTime.Some? && c.blockSize <= u.ccfg.txSize
    && C.WriteBlock(u.ccfg, c).Some? && n.toServer == [C.WriteBlock(u.ccfg, c).value] && n.toClient == []
    && 16 * c.curBlock <= c.bytesSent && (c.curBlock == 0 <==> c.bytesSent == 0)
    && s.buf == c.queue[0].payload[..c.bytesSent] && s.count == c.curBlock
    && (s.count > 0 ==> s.token == c.token && c.blockSize <= s.blockSize)
    && (s.last.Some? ==> s.last.value.mid != c.mid)
    && Welcome(u, c.peerAddr, c.queue[0], c.query)
  }

  /** The client goes on with the same record at the same peer. */
  predicate SameTransfer(c: Client, d: Client) {
    && d.queue == c.queue && d.peerAddr == c.peerAddr && d.peerPort == c.peerPort && d.enc == c.enc
    && d.query == c.query && d.token == c.token && d.sock == c.sock && d.socks == c.socks
  }

  lemma UnderwayReads(u: Setup, n: Net)
    requires u.Valid() && Underway(u, n)
    ensures n.client.curBlock < 0x10_0000
    ensures ParsePdu(n.toServer[0], u.scfg.queryOk) == Parsed({}, W.BlockPdu(n.client))
    ensures R.Taken(u.scfg, n.server, W.BlockPdu(n.client))
    ensures n.server.buf + W.BlockPdu(n.client).payload ==
            if C.MoreBlocks(n.client) then
              n.client.queue[0].payload[..n.client.bytesSent + n.client.blockSize]
            else n.client.queue[0].payload
  {
    hide ParsePdu, W.JoinPath, C.WriteBlock, W.QueryText, Store, Convert;
    var c := n.client;
    W.BlockParses(u.ccfg, c, u.scfg.queryOk);
    SizeIsSmall(|c.queue[0].payload|);
    TwoParts(c.queue[0].payload, c.bytesSent, c.blockSize);
  }

  lemma SizeIsSmall(n: nat)
    ensures Convert(Store(2, n)) < 0x1_0000
  {
    ConvertBound(Store(2, n));
    Pow256Small();
  }

  lemma TwoParts(record: bytes, off: nat, size: nat)
    requires off <= |record|
    ensures off + size <= |record| ==> record[..off] + record[off..off + size] == record[..off + size]
    ensures record[..off] + record[off..] == record
  {
  }

  // ---------------------------------------------------------------- one exchange

  /** What the server does with a block that is on its way. */
  lemma ServerAnswers(u: Setup, n: Net, senv: S.Env)
    requires u.Valid() && Underway(u, n) && senv.sendOk && senv.replyToOk
    ensures var c, p := n.client, W.BlockPdu(n.client);
      var t := S.Receive(u.scfg, n.server, n.toServer[0], senv);
      && t.sent.Some? && t.s.last.Some? && t.s.last.value.mid == c.mid
      && var a := ParsePdu(t.sent.value, u.ccfg.queryOk).pdu;
        && ParsePdu(t.sent.value, u.ccfg.queryOk).flags == {}
        && if C.MoreBlocks(c) then
             && a.hdr == Header(Acknowledgement, 4, 2, 31, c.mid) && a.token == c.token && t.posted.None?
             && a.block1 == Some(Block(c.curBlock, true, Min(u.scfg.rxSize, c.blockSize)))
             && t.s.buf == c.queue[0].payload[..c.bytesSent + c.blockSize] && t.s.count == c.curBlock + 1
             && t.s.token == c.token && t.s.blockSize == c.blockSize
           else
             && a.hdr == Header(Acknowledgement, 4, 2, 4, c.mid) && a.token == c.token
             && t.posted == Some(c.queue[0].payload) && t.s.buf == [] && t.s.count == 0
  {
    hide ParsePdu, W.JoinPath, C.WriteBlock, W.QueryText, Store, Convert, S.Receive, R.Taken;
    UnderwayReads(u, n);
    R.TakenAnswers(u.scfg, n.server, n.toServer[0], senv, u.ccfg.queryOk);
    R.PostedExactly(u.scfg, n.server, n.toServer[0], senv);
  }

  /** The net after the server's turn: its answer is on its way. */
  lemma ServerTurnIs(u: Setup, n: Net, senv: S.Env)
    requires u.Valid() && Underway(u, n) && senv.sendOk && senv.replyToOk
    ensures var t := S.Receive(u.scfg, n.server, n.toServer[0], senv);
      ServerTurn(u, n, senv) == Some(n.(server := t.s, toServer := [], toClient := Listed(t.sent),
                                        posted := n.posted + Listed(t.posted)))
  {
    hide S.Receive, C.WriteBlock;
    assert n.toServer[1..] == [] && [] + Listed(S.Receive(u.scfg, n.server, n.toServer[0], senv).sent) ==
      Listed(S.Receive(u.scfg, n.server, n.toServer[0], senv).sent);
  }

  /** The next block of a record, ready to be written */
  lemma NextReady(u: Setup, n: Net, p: Pdu, e: C.Env)
    requires u.Valid() && Underway(u, n) && C.MoreBlocks(n.client)
    requires p.block1 == Some(Block(n.client.curBlock, true, Min(u.scfg.rxSize, n.client.blockSize)))
    ensures var d := A.AtNextBlock(n.client, p, e);
      && C.Sending(d) && d.blockSize == Min(n.client.blockSize, u.scfg.rxSize) && C.WriteBlock(u.ccfg, d).Some?
      && 16 * d.curBlock <= d.bytesSent && d.curBlock > 0 && d.bytesSent > 0
  {
    hide C.WriteBlock, Fits;
    var d := A.AtNextBlock(n.client, p, e);
    BlockWritten(u.ccfg, d);
  }

  /** A block with others behind it: after one exchange the next one is on its way, of the size the server wants. */
  lemma OneBlock(u: Setup, n: Net, senv: S.Env, env: nat -> C.Env)
    requires u.Valid() && Underway(u, n) && C.MoreBlocks(n.client)
    requires senv.sendOk && senv.replyToOk && env(0).sendOk
    ensures var r := Exchange(u, n, senv, env);
      && r.Some? && Underway(u, r.value) && SameTransfer(n.client, r.value.client) && r.value.posted == n.posted
      && r.value.client.bytesSent == n.client.bytesSent + n.client.blockSize
      && r.value.client.blockSize == Min(n.client.blockSize, u.scfg.rxSize)
  {
    hide ParsePdu, W.JoinPath, C.WriteBlock, S.Receive, Fits, W.BlockPdu, EncodePdu;
    var c := n.client;
    var t := S.Receive(u.scfg, n.server, n.toServer[0], senv);
    ServerAnswers(u, n, senv);
    ServerTurnIs(u, n, senv);
    var ack := t.sent.value;
    var m := n.(server := t.s, toServer := [], toClient := [ack]);
    assert n.posted + [] == n.posted;
    assert ServerTurn(u, n, senv) == Some(m);
    var p := ParsePdu(ack, u.ccfg.queryOk).pdu;
    NextReady(u, n, p, env(0));
    A.NextBlockSent(u.ccfg, c, ack, env);
    var d := A.AtNextBlock(c, p, env(0));
    BlockGoes(u, m, ack, d, env);
    var e := C.HandleAck(u.ccfg, c, C.Data(ack), env).c;
    P.WriteIgnoresTimers(u.ccfg, d, e);
  }

  /** The client's turn, when it sends the next block */
  lemma BlockGoes(u: Setup, m: Net, ack: bytes, d: Client, env: nat -> C.Env)
    requires u.Valid() && Live(u, m) && C.Valid(m.client) && m.toClient == [ack] && m.toServer == []
    requires var o := C.HandleAck(u.ccfg, m.client, C.Data(ack), env);
      && o.Running? && o.rst.None? && C.Sending(d) && o.sent == C.WriteBlock(u.ccfg, d) && o.sent.Some?
      && o.c == d.(ackTime := o.c.ackTime)
    requires d.curBlock > 0 && d.sock == m.client.sock
    ensures var r := ClientReads(u, m, env);
      var o := C.HandleAck(u.ccfg, m.client, C.Data(ack), env);
      r == Some(m.(client := o.c, toServer := [C.WriteBlock(u.ccfg, d).value], toClient := []))
  {
    hide C.HandleAck, C.WriteBlock, C.Sending;
    assert m.toClient[1..] == [] && m.started + [] == m.started;
    var pdu := C.WriteBlock(u.ccfg, d).value;
    assert [] + [] + [pdu] == [pdu];
  }

  // ---------------------------------------------------------------- one record

  /** In every exchange the server can send its answer and accepts the reply-to, and the client can send. */
  ghost predicate AllSent(senv: ServerEnvs, env: ClientEnvs) {
    forall x :: senv(x).sendOk && senv(x).replyToOk && env(x)(0).sendOk
  }

  /** The blocks that the client has still to have acknowledged, the one on its way included */
  function BlocksLeft(u: Setup, c: Client): nat {
    if !C.Sending(c) || !u.Valid() then 0
    else Blocks(|c.queue[0].payload| - c.bytesSent, c.blockSize, Min(c.blockSize, u.scfg.rxSize))
  }

  /** The server's next turn hands over what is posted then; and r, if the client is not ended, has the rest queued. */
  predicate HandedOver(u: Setup, b: Net, senv: S.Env, r: Option<Net>, posted: seq<bytes>, behind: seq<C.Item>)
    requires u.Valid()
  {
    && ServerTurn(u, b, senv).Some? && ServerTurn(u, b, senv).value.posted == posted
    && (r.Some? ==> r.value.posted == posted && Q.SubSeq(r.value.client.queue, behind))
    && (behind == [] ==> r.Some? && r.value.client.queue == [])
  }

  /** All blocks of a record but the last */
  lemma {:induction false} BlocksGo(u: Setup, n: Net, j: nat, senv: ServerEnvs, env: ClientEnvs) returns (b: Net)
    requires u.Valid() && Underway(u, n) && AllSent(senv, env)
    ensures var c := n.client;
      var k := BlocksLeft(u, c);
      && k > 0 && Exchanges(u, n, j, k - 1, senv, env) == Some(b)
      && Underway(u, b) && SameTransfer(c, b.client) && !C.MoreBlocks(b.client) && b.posted == n.posted
    decreases |n.client.queue[0].payload| - n.client.bytesSent
  {
    hide Exchange, Fits, C.WriteBlock, W.JoinPath;
    var c := n.client;
    if C.MoreBlocks(c) {
      OneBlock(u, n, senv(j), env(j));
      var m := Exchange(u, n, senv(j), env(j)).value;
      b := BlocksGo(u, m, j + 1, senv, env);
    } else {
      b := n;
    }
  }

  /** The last block: the server hands the record over, and the client goes on to the next record. */
  lemma LastBlock(u: Setup, n: Net, senv: S.Env, env: nat -> C.Env)
    requires u.Valid() && Underway(u, n) && !C.MoreBlocks(n.client) && senv.sendOk && senv.replyToOk
    ensures var r := ServerTurn(u, n, senv);
      && r.Some? && r.value.posted == n.posted + [n.client.queue[0].payload] && r.value.toServer == []
      && r.value.client == n.client && r.value.server.buf == [] && r.value.server.count == 0
      && r.value.server.last.Some? && r.value.server.last.value.mid == n.client.mid
      && var o := C.StartNext(u.ccfg, n.client, env, 0);
        ClientReads(u, r.value, env) ==
        if o.Ended? then None else Some(ClientTurn(u, r.value.(toClient := []), o))
  {
    hide ParsePdu, W.JoinPath, C.WriteBlock, S.Receive, Fits, W.BlockPdu, EncodePdu, C.StartNext, C.HandleAck;
    var c := n.client;
    var t := S.Receive(u.scfg, n.server, n.toServer[0], senv);
    ServerAnswers(u, n, senv);
    ServerTurnIs(u, n, senv);
    var ack := t.sent.value;
    assert Popped([ack], false) == [];
    A.AnswersExactly(u.ccfg, c, ack, env);
  }

  /**
   Whatever is in the queue behind it: a record under way is handed over, byte for byte, after as many exchanges as it
   has blocks, the first of the size it has and the others no larger than the server wants; and then it is out of the
   queue, unless the start of the next record ends the client.
   */
  lemma RecordDelivered(u: Setup, n: Net, j: nat, senv: ServerEnvs, env: ClientEnvs) returns (b: Net)
    requires u.Valid() && Underway(u, n) && AllSent(senv, env)
    ensures var c := n.client;
      var k := BlocksLeft(u, c);
      && k > 0 && Exchanges(u, n, j, k - 1, senv, env) == Some(b) && b.posted == n.posted
      && HandedOver(u, b, senv(j + (k - 1)), Exchanges(u, n, j, k, senv, env), n.posted + [c.queue[0].payload],
                    c.queue[1..])
  {
    hide ServerTurn, ClientReads, Underway, Fits, C.WriteBlock, C.StartRecord, Q.SubSeq, W.JoinPath;
    var c := n.client;
    UnderwayQueue(u, n);
    var k := BlocksLeft(u, c);
    b := BlocksGo(u, n, j, senv, env);
    var x := j + (k - 1);
    LastBlock(u, b, senv(x), env(x));
    ExchangesJoin(u, n, j, k - 1, 1, senv, env);
    OneExchange(u, b, x, senv, env);
    StartLeaves(u.ccfg, b.client, env(x));
  }

  lemma UnderwayQueue(u: Setup, n: Net)
    requires u.Valid() && Underway(u, n)
    ensures C.Sending(n.client) && BlocksLeft(u, n.client) > 0
  {
  }

  lemma OneExchange(u: Setup, n: Net, j: nat, senv: ServerEnvs, env: ClientEnvs)
    requires u.Valid()
    ensures Exchanges(u, n, j, 1, senv, env) == Exchange(u, n, senv(j), env(j))
  {
    hide Exchange;
    var m := Exchange(u, n, senv(j), env(j));
    assert m.Some? ==> Exchanges(u, m.value, j + 1, 0, senv, env) == m;
  }

  /** Going on to the next record takes the head out of the queue; with nothing behind it the client lingers. */
  lemma StartLeaves(cfg: C.Config, c: Client, env: nat -> C.Env)
    requires cfg.Valid() && c.queue != []
    ensures var o := C.StartNext(cfg, c, env, 0);
      && (o.Running? ==> Q.SubSeq(o.c.queue, c.queue[1..]))
      && (|c.queue| == 1 ==> o.Running? && o.c.queue == [] && o.c.linger.Some?)
  {
    hide Q.SubSeq, Q.AfterDrops, C.RetryLater, C.StartAt;
    var m := Q.StartRecordQueue(cfg, c.(queue := c.queue[1..]), false, env, 0);
    Q.AfterDropsSubSeq(c.queue[1..], env, 0, m);
  }

  // ---------------------------------------------------------------- every record in the queue

  /** The record can be sent to the peer at once, on the socket that is open, and the server accepts it. */
  predicate Ready(u: Setup, c: Client, item: C.Item, e: C.Env) {
    && e.query.Some? && Welcome(u, c.peerAddr, item, e.query.value) && e.now <= item.expiry
    && item.port == c.peerPort && item.enc == c.enc && !item.resetHint
  }

  /** The client may connect, finds the same peer, and all records behind the head can be sent to it. */
  predicate Good(u: Setup, c: Client, e: C.Env) {
    && e.sendOk && e.allowed && e.addr == Some(c.peerAddr)
    && forall i :: 1 <= i < |c.queue| ==> Ready(u, c, c.queue[i], e)
  }

  ghost predicate AllGood(u: Setup, c: Client, senv: ServerEnvs, env: ClientEnvs) {
    forall x :: Good(u, c, env(x)(0)) && senv(x).sendOk && senv(x).replyToOk
  }

  lemma GoodTail(u: Setup, c: Client, d: Client, senv: ServerEnvs, env: ClientEnvs)
    requires AllGood(u, c, senv, env) && c.queue != [] && d.queue == c.queue[1..]
    requires d.peerAddr == c.peerAddr && d.peerPort == c.peerPort && d.enc == c.enc
    ensures AllGood(u, d, senv, env) && AllSent(senv, env)
  {
    hide Welcome;
    forall x ensures Good(u, d, env(x)(0)) && senv(x).sendOk && senv(x).replyToOk {
      assert Good(u, c, env(x)(0));
      forall i | 1 <= i < |d.queue| ensures Ready(u, d, d.queue[i], env(x)(0)) {
        assert Ready(u, c, c.queue[i + 1], env(x)(0));
      }
    }
  }

  lemma {:induction false} NoneExpired(q: seq<C.Item>, now: int)
    requires forall i :: 0 <= i < |q| ==> now <= q[i].expiry
    ensures C.Unexpired(q, now) == q
  {
    if q == [] {
    } else {
      NoneExpired(q[1..], now);
    }
  }

  /** The client after it sent the first block of the record at the head of the queue */
  predicate SentFirst(u: Setup, c: Client, o: C.Outcome, query: bytes)
    requires u.Valid()
  {
    && o.Running? && o.rst.None? && C.Valid(o.c) && C.Sending(o.c) && o.c.ackTime.Some?
    && o.sent == C.WriteBlock(u.ccfg, o.c) && o.sent.Some?
    && o.c.queue == c.queue && o.c.sock == c.sock && o.c.peerAddr == c.peerAddr && o.c.peerPort == c.peerPort
    && o.c.enc == c.enc && o.c.mid == C.NextMid(c.mid) && o.c.query == query && o.c.socks == c.socks
    && o.c.linger.None?
    && o.c.curBlock == 0 && o.c.bytesSent == 0 && o.c.blockSize == u.ccfg.txSize
  }

  lemma SendsFirst(u: Setup, c: Client, env: nat -> C.Env)
    requires u.Valid() && c.sock.Some? && c.sock.value < c.socks && c.queue != [] && c.linger.None?
    requires env(0).sendOk && env(0).query.Some? && Fits(u.ccfg, c.peerAddr, c.queue[0], env(0).query.value)
    ensures SentFirst(u, c, C.SendFirst(u.ccfg, c, env, 0), env(0).query.value)
  {
    hide C.WriteBlock, Fits, C.SendBlock, Store;
    var e := env(0);
    var c2 := C.FirstBlock(u.ccfg, c, e).(query := e.query.value);
    assert C.SendFirst(u.ccfg, c, env, 0) == C.SendBlock(u.ccfg, c2, false, env, 0);
    BlockWritten(u.ccfg, c2);
    BlockSent(u.ccfg, c2, env);
  }

  lemma BlockSent(cfg: C.Config, c: Client, env: nat -> C.Env)
    requires cfg.Valid() && C.Sending(c) && C.WriteBlock(cfg, c).Some? && env(0).sendOk
    ensures var o := C.SendBlock(cfg, c, false, env, 0);
      && o.Running? && o.rst.None? && o.c.ackTime.Some? && o.c == c.(ackTime := o.c.ackTime)
      && C.Sending(o.c) && o.sent == C.WriteBlock(cfg, o.c) && o.sent.Some?
  {
    hide C.WriteBlock, C.RetryLater;
    P.WriteIgnoresTimers(cfg, c, c.(ackTime := Some(env(0).now + Quot(c.ackMs, 1000))));
  }

  /** The first block of the record at the head is sent on the socket that is open. */
  lemma StartsHere(u: Setup, c: Client, env: nat -> C.Env)
    requires u.Valid() && P.Startable(c) && c.sock.Some? && c.queue != []
    requires env(0).sendOk && env(0).allowed && env(0).addr == Some(c.peerAddr) && env(0).query.Some?
    requires forall i :: 0 <= i < |c.queue| ==> Ready(u, c, c.queue[i], env(0))
    ensures SentFirst(u, c, C.StartRecord(u.ccfg, c, false, env, 0), env(0).query.value)
  {
    hide C.WriteBlock, Fits, W.JoinPath, W.QueryText, C.RetryLater, C.SendFirst, C.Unexpired;
    var e := env(0);
    assert Ready(u, c, c.queue[0], e);
    forall i | 0 <= i < |c.queue[1..]| ensures e.now <= c.queue[1..][i].expiry {
      assert Ready(u, c, c.queue[i + 1], e);
    }
    NoneExpired(c.queue[1..], e.now);
    assert C.RemoveExpired(c.queue, e.now) == c.queue;
    var c1 := C.Cleared(c, false, e).(ackMs := e.ackMs, retrans := 0);
    SendsFirst(u, c1, env);
  }

  /** The next record is under way when the one before is out of the queue. */
  lemma NextUnderway(u: Setup, b: Net, senv: S.Env, env: nat -> C.Env)
    requires u.Valid() && Underway(u, b) && !C.MoreBlocks(b.client) && |b.client.queue| > 1
    requires senv.sendOk && senv.replyToOk && Good(u, b.client, env(0))
    ensures var r := Exchange(u, b, senv, env);
      && r.Some? && Underway(u, r.value) && r.value.posted == b.posted + [b.client.queue[0].payload]
      && r.value.client.queue == b.client.queue[1..] && r.value.client.bytesSent == 0
      && r.value.client.blockSize == u.ccfg.txSize && r.value.client.peerAddr == b.client.peerAddr
      && r.value.client.peerPort == b.client.peerPort && r.value.client.enc == b.client.enc
  {
    hide C.WriteBlock, C.StartRecord, ServerTurn, Fits, W.JoinPath;
    var c := b.client;
    var d := c.(queue := c.queue[1..]);
    LastBlock(u, b, senv, env);
    forall i | 0 <= i < |d.queue| ensures Ready(u, d, d.queue[i], env(0)) {
      assert Ready(u, c, c.queue[i + 1], env(0));
    }
    if d.queue != [] {
      assert Ready(u, d, d.queue[0], env(0));
    }
    StartsHere(u, d, env);
    assert Ready(u, d, d.queue[0], env(0));
    var o := C.StartRecord(u.ccfg, d, false, env, 0);
    assert [] + [] + [o.sent.value] == [o.sent.value];
  }

  /** The blocks of all these records, each begun anew */
  function TotalBlocks(u: Setup, items: seq<C.Item>): nat
    requires u.Valid()
  {
    if items == [] then 0
    else
      Blocks(|items[0].payload|, u.ccfg.txSize, Min(u.ccfg.txSize, u.scfg.rxSize)) + TotalBlocks(u, items[1..])
  }

  /**
   From any record that is just begun: every record in the queue is handed over, byte for byte and in order, after as
   many exchanges as all of them have blocks; and then the queue is empty and the client lingers.
   */
  lemma {:induction false} AllDelivered(u: Setup, n: Net, j: nat, senv: ServerEnvs, env: ClientEnvs) returns (r: Net)
    requires u.Valid() && Underway(u, n) && AllGood(u, n.client, senv, env)
    requires n.client.bytesSent == 0 && n.client.blockSize == u.ccfg.txSize
    ensures Exchanges(u, n, j, TotalBlocks(u, n.client.queue), senv, env) == Some(r)
    ensures r.posted == n.posted + Payloads(n.client.queue) && r.client.queue == []
    decreases |n.client.queue|
  {
    hide Exchange, Underway, Good, Fits, C.WriteBlock, W.JoinPath, HandedOver;
    var c, q := n.client, n.client.queue;
    UnderwayQueue(u, n);
    GoodSends(u, c, senv, env);
    var k := BlocksLeft(u, c);
    var b := BlocksGo(u, n, j, senv, env);
    ExchangesJoin(u, n, j, k - 1, 1, senv, env);
    OneExchange(u, b, j + (k - 1), senv, env);
    assert Payloads(q) == [q[0].payload] + Payloads(q[1..]);
    if |q| == 1 {
      var last := RecordDelivered(u, n, j, senv, env);
      assert q[1..] == [] && TotalBlocks(u, []) == 0;
      HandedLast(u, last, senv(j + (k - 1)), Exchanges(u, n, j, k, senv, env), n.posted + [q[0].payload]);
      r := Exchanges(u, n, j, k, senv, env).value;
    } else {
      GoodSame(u, c, b.client, env(j + (k - 1))(0), senv, env);
      NextUnderway(u, b, senv(j + (k - 1)), env(j + (k - 1)));
      var m := Exchange(u, b, senv(j + (k - 1)), env(j + (k - 1))).value;
      GoodTail(u, c, m.client, senv, env);
      r := AllDelivered(u, m, j + k, senv, env);
      ExchangesJoin(u, n, j, k, TotalBlocks(u, q[1..]), senv, env);
      assert n.posted + [q[0].payload] + Payloads(q[1..]) == n.posted + Payloads(q);
    }
  }

  lemma HandedLast(u: Setup, b: Net, senv: S.Env, r: Option<Net>, posted: seq<bytes>)
    requires u.Valid() && HandedOver(u, b, senv, r, posted, [])
    ensures r.Some? && r.value.posted == posted && r.value.client.queue == []
  {
  }

  lemma GoodSends(u: Setup, c: Client, senv: ServerEnvs, env: ClientEnvs)
    requires AllGood(u, c, senv, env)
    ensures AllSent(senv, env)
  {
    forall x ensures senv(x).sendOk && senv(x).replyToOk && env(x)(0).sendOk {
      assert Good(u, c, env(x)(0));
    }
  }

  lemma GoodSame(u: Setup, c: Client, d: Client, e: C.Env, senv: ServerEnvs, env: ClientEnvs)
    requires AllGood(u, c, senv, env) && SameTransfer(c, d) && exists x :: e == env(x)(0)
    ensures Good(u, d, e)
  {
    hide Welcome;
    var x :| e == env(x)(0);
    assert Good(u, c, env(x)(0));
  }

  /**
   From the state right after the client opened its socket, with the record at the head and all those behind it fit to
   be sent to this peer and accepted by the server, nothing lost and every send succeeding: each record in the queue is
   handed over, in order, after as many exchanges as they have blocks, and the queue is empty.
   */
  lemma Delivery(u: Setup, n: Net, senv: ServerEnvs, env: ClientEnvs) returns (r: Net)
    requires u.Valid() && Init(u, n) && Welcome(u, n.client.peerAddr, n.client.queue[0], n.client.query)
    requires AllGood(u, n.client, senv, env)
    ensures Exchanges(u, n, 0, TotalBlocks(u, n.client.queue), senv, env) == Some(r)
    ensures r.posted == Payloads(n.client.queue) && r.client.queue == []
  {
    hide Welcome, Good, C.WriteBlock;
    assert Underway(u, n);
    r := AllDelivered(u, n, 0, senv, env);
    assert [] + Payloads(n.client.queue) == Payloads(n.client.queue);
  }

  // ---------------------------------------------------------------- from the start of the client

  /** To another peer, or without a socket: the client connects, and the first block is sent on the new socket. */
  lemma ConnectsFirst(u: Setup, c: Client, addr: nat, env: nat -> C.Env)
    requires u.Valid() && P.Startable(c) && c.queue != []
    requires env(0).sendOk && env(0).allowed && env(0).addr == Some(addr) && env(0).connectOk && env(0).query.Some?
    requires Fits(u.ccfg, addr, c.queue[0], env(0).query.value)
    requires c.sock.None? || addr != c.peerAddr || c.queue[0].port != c.peerPort || c.queue[0].enc != c.enc
             || c.queue[0].resetHint
    ensures var o := C.StartRecord(u.ccfg, c, false, env, 0);
      && o.Running? && o.c.sock == Some(c.socks) && o.c.socks == c.socks + 1 && o.c.peerAddr == addr
      && o.c.peerPort == Rem(c.queue[0].port, 0x1_0000) && o.c.enc == c.queue[0].enc
      && o.c.curBlock == 0 && o.c.bytesSent == 0 && o.c.blockSize == u.ccfg.txSize && o.c.query == env(0).query.value
      && C.Sending(o.c) && C.Valid(o.c) && o.c.linger.None? && o.c.ackTime.Some?
      && o.sent == C.WriteBlock(u.ccfg, o.c) && o.sent.Some? && o.rst.None?
      && o.c.queue == C.RemoveExpired(c.queue, env(0).now)
  {
    hide C.WriteBlock, Fits, C.RetryLater, C.SendFirst, C.RemoveExpired;
    var e := env(0);
    var c1 := C.Cleared(c, false, e);
    HeadStays(c.queue, e.now);
    var c2 := (if C.SamePeer(c1, addr) then c1 else C.Stop(c1)).(ackMs := e.ackMs, retrans := 0);
    var c3 := C.Connected(c2, addr);
    SendsFirst(u, c3, env);
  }

  lemma HeadStays(q: seq<C.Item>, now: int)
    requires q != []
    ensures C.RemoveExpired(q, now) != [] && C.RemoveExpired(q, now)[0] == q[0]
  {
  }

  /** A record queued at a client that was just started opens a socket, which is where the theorems begin. */
  lemma FirstRecordOpens(u: Setup, mid: nat, ms: nat, item: C.Item, addr: nat, env: nat -> C.Env)
    requires u.Valid() && u.sock == 0 && mid < 0x1_0000
    requires env(0).sendOk && env(0).allowed && env(0).addr == Some(addr) && env(0).connectOk && env(0).query.Some?
    requires Welcome(u, addr, item, env(0).query.value)
    ensures var o := C.Step(u.ccfg, C.Initial(mid, ms), C.Queued(item), env);
      && o.Running? && o.sent.Some? && o.c.queue == [item] && o.c.peerAddr == addr
      && o.c.query == env(0).query.value
      && Init(u, Net(o.c, S.FRESH, [o.sent.value], [], [item.payload], [item.payload], []))
  {
    hide C.WriteBlock, C.StartRecord, Fits, W.JoinPath;
    var c := C.Initial(mid, ms);
    assert C.RemoveExpired([], env(0).now) + [item] == [item];
    var d := c.(queue := [item]);
    ConnectsFirst(u, d, addr, env);
    assert [item][1..] == [];
    assert C.RemoveExpired([item], env(0).now) == [item];
    assert Payloads([item]) == [item.payload];
  }
}
