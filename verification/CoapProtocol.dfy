/**
 The client and the server joined by two channels that keep order but may lose and repeat datagrams:
 block-wise transfer of USP records on one client socket and one server session, and the invariant of every run.
 */
module CoapProtocol {
  import opened CommonDefs
  import opened CoapCodec
  import opened CoapChannels
  import C = CoapClient
  import S = CoapServer
  import P = CoapClientProofs
  import W = CoapBlockPdu

  type Client = C.Client

  // ---------------------------------------------------------------- the joined system

  /**
   The last three fields are histories: the records that entered the send queue (those in it when the socket was
   opened and those queued since), the records whose first block was sent on this socket, and the records handed to
   the data model thread, each in order.
   */
  datatype Net = Net(
    client: Client, server: S.Session, toServer: seq<bytes>, toClient: seq<bytes>,
    queued: seq<bytes>, started: seq<bytes>, posted: seq<bytes>)

  /** The parameters of a run: both configurations and the number of the client's socket. */
  datatype Setup = Setup(ccfg: C.Config, scfg: S.Config, sock: nat) {
    predicate Valid() {
      ccfg.Valid() && scfg.Valid()
    }
  }

  /** Deliver takes the head of a channel, leaving it there if it will be repeated. */
  datatype Event =
    | ClientEvent(ev: C.Event, env: nat -> C.Env)
    | DeliverToClient(repeated: bool, env: nat -> C.Env)
    | DeliverToServer(repeated: bool, senv: S.Env)
    | LoseToClient(i: nat)
    | LoseToServer(i: nat)

  predicate Live(u: Setup, n: Net) {
    n.client.sock == Some(u.sock)
  }

  function Listed(o: Option<bytes>): seq<bytes> {
    if o.Some? then [o.value] else []
  }

  /** True if the client's last PDU is the first block of a record, not a repetition of an earlier PDU. */
  predicate StartsRecord(u: Setup, c: Client, o: C.Outcome) {
    o.Running? && o.c.sock == Some(u.sock) && o.sent.Some? && o.c.curBlock == 0 && o.c.mid != c.mid && o.c.queue != []
  }

  /** PDUs written to the socket enter the channel; those written to another socket do not. */
  function ClientTurn(u: Setup, n: Net, o: C.Outcome): Net
    requires o.Running?
  {
    n.(client := o.c,
       toServer := n.toServer + Listed(o.rst) + (if o.c.sock == Some(u.sock) then Listed(o.sent) else []),
       started := n.started + (if StartsRecord(u, n.client, o) then [o.c.queue[0].payload] else []))
  }

  /** The record that enters the queue with an event: one that is not in it yet */
  function Joins(c: Client, e: C.Event): seq<bytes> {
    if e.Queued? && !C.InQueue(c.queue, e.item.payload) then [e.item.payload] else []
  }

  predicate Enabled(u: Setup, n: Net, ev: Event) {
    match ev
    case ClientEvent(e, _) =>
      C.Valid(n.client) && Live(u, n) && C.Enabled(n.client, e) && !(e.Rx? && e.rx.Data?)
    case DeliverToClient(_, _) => C.Valid(n.client) && Live(u, n) && n.toClient != []
    case DeliverToServer(_, _) => n.toServer != []
    case LoseToClient(i) => i < |n.toClient|
    case LoseToServer(i) => i < |n.toServer|
  }

  /** The next state, or None where a failed assertion in the client ends the run. */
  function Next(u: Setup, n: Net, ev: Event): Option<Net>
    requires u.Valid() && Enabled(u, n, ev)
  {
    match ev
    case ClientEvent(e, env) =>
      var o := C.Step(u.ccfg, n.client, e, env);
      if o.Ended? then None else Some(ClientTurn(u, n.(queued := n.queued + Joins(n.client, e)), o))
    case DeliverToClient(repeated, env) =>
      var o := C.Step(u.ccfg, n.client, C.Rx(C.Data(n.toClient[0])), env);
      if o.Ended? then None
      else Some(ClientTurn(u, n.(toClient := Popped(n.toClient, repeated)), o))
    case DeliverToServer(repeated, senv) =>
      var t := S.Receive(u.scfg, n.server, n.toServer[0], senv);
      Some(n.(server := t.s, toServer := Popped(n.toServer, repeated),
              toClient := n.toClient + Listed(t.sent), posted := n.posted + Listed(t.posted)))
    case LoseToClient(i) => Some(n.(toClient := Without(n.toClient, i)))
    case LoseToServer(i) => Some(n.(toServer := Without(n.toServer, i)))
  }

  // ---------------------------------------------------------------- the hypotheses

  /**
   The runs the theorem speaks of: every reply-to is accepted, and a record is not abandoned, for want of an ACK, on a
   socket that stays open.
   */
  predicate Allowed(u: Setup, n: Net, ev: Event)
    requires u.Valid() && Enabled(u, n, ev)
  {
    match ev
    case ClientEvent(e, env) =>
      var o := C.Step(u.ccfg, n.client, e, env);
      e.AckTimer? && o.Running? && o.c.sock == Some(u.sock) ==> n.client.retrans + 1 < C.COAP_MAX_RETRANSMIT
    case DeliverToServer(_, senv) => senv.replyToOk
    case _ => true
  }

  function Payloads(q: seq<C.Item>): seq<bytes> {
    seq(|q|, i requires 0 <= i < |q| => q[i].payload)
  }

  /** The state right after the client opened its socket and sent the first block on it. */
  predicate Init(u: Setup, n: Net)
    requires u.Valid()
  {
    var c := n.client;
    && Live(u, n) && P.Sound(c) && C.Sending(c) && c.ackTime.Some?
    && c.curBlock == 0 && c.bytesSent == 0 && c.blockSize == u.ccfg.txSize
    && C.WriteBlock(u.ccfg, c).Some?
    && n == Net(c, S.FRESH, [C.WriteBlock(u.ccfg, c).value], [], Payloads(c.queue), [c.queue[0].payload], [])
  }

  // ---------------------------------------------------------------- the PDUs on the way

  /**
   A block PDU sent on this socket: its bytes, what they are meant to say, and which part of which record it carries.
   */
  datatype Entry = Entry(pdu: bytes, parsed: Pdu, rec: nat, off: nat)

  predicate HasBlock(e: Entry) {
    e.parsed.block1.Some?
  }

  function Blk(e: Entry): Block
    requires HasBlock(e)
  {
    e.parsed.block1.value
  }

  /** The entry carries bytes off.. of the record, as many as its block size or to the end. */
  predicate Carries(e: Entry, record: bytes)
    requires HasBlock(e)
  {
    var b := Blk(e);
    && e.off <= |record|
    && b.more == (|record| - e.off > b.size)
    && e.parsed.payload == if b.more then record[e.off..e.off + b.size] else record[e.off..]
  }

  /** The server reads the PDU as it was meant. */
  predicate Reads(u: Setup, e: Entry) {
    ParsePdu(e.pdu, u.scfg.queryOk) == Parsed({}, e.parsed)
  }

  /** The server refuses the PDU for its options, with these flags. */
  predicate Refused(u: Setup, e: Entry, flags: set<Action>) {
    var r := ParsePdu(e.pdu, u.scfg.queryOk);
    r.flags == flags && r.pdu.hdr == e.parsed.hdr && r.pdu.token == e.parsed.token
  }

  /** A PDU the server answers with a RST, whatever its state */
  predicate Unreadable(u: Setup, e: Entry) {
    Refused(u, e, {SendRst})
  }

  /** A PDU the server answers with an error, whatever its state */
  predicate BadOptions(u: Setup, e: Entry) {
    Refused(u, e, {SendAck, BadOption})
  }

  predicate EntryOk(u: Setup, e: Entry, started: seq<bytes>) {
    var p := e.parsed;
    && (Reads(u, e) || Unreadable(u, e) || BadOptions(u, e))
    && p.hdr.Valid() && p.hdr.pduType.Confirmable? && p.hdr.cls == S.CLASS_REQUEST && p.hdr.code == S.METHOD_POST
    && |p.token| == 4
    && HasBlock(e) && ValidBlockSize(Blk(e).size) && Blk(e).num < 0x10_0000
    && (Blk(e).num == 0 <==> e.off == 0) && Blk(e).num * 16 <= e.off
    && p.size1.Some? && p.size1.value < 0x1_0000
    && e.rec < |started| && Carries(e, started[e.rec])
  }

  /** e2 is the PDU the client sends once it is done with e1: the next block, or a later record. */
  predicate Follows(e1: Entry, e2: Entry)
    requires HasBlock(e1) && HasBlock(e2)
  {
    var b1, b2 := Blk(e1), Blk(e2);
    && e2.parsed.hdr.mid == C.NextMid(e1.parsed.hdr.mid)
    && if b2.num == 0 then e1.rec < e2.rec
       else e1.rec == e2.rec && b1.more && b2.num == b1.num + 1 && e2.off == e1.off + b1.size
            && b2.size <= b1.size && e2.parsed.token == e1.parsed.token
  }

  /** ack acknowledges e: it carries e's message id and token. */
  predicate AckOf(u: Setup, ack: bytes, e: Entry) {
    var r := ParsePdu(ack, u.ccfg.queryOk);
    && r.flags == {} && r.pdu.hdr.pduType.Acknowledgement?
    && r.pdu.token == e.parsed.token && r.pdu.hdr.mid == e.parsed.hdr.mid
  }

  predicate IsReset(u: Setup, d: bytes) {
    var r := ParsePdu(d, u.ccfg.queryOk);
    r.flags == {} && r.pdu.hdr.pduType.Reset?
  }

  datatype Verdict = Rejected | Accepted | Continued

  /** What the ACK says, and what it therefore means; idx are the records accepted so far. */
  predicate AckSays(u: Setup, ack: bytes, e: Entry, v: Verdict, idx: seq<nat>)
    requires HasBlock(e)
  {
    var a := ParsePdu(ack, u.ccfg.queryOk).pdu;
    var b := Blk(e);
    && AckOf(u, ack, e)
    && match v
       case Rejected => a.hdr.cls == S.CLASS_CLIENT_ERROR
       case Accepted =>
         && a.hdr.cls == S.CLASS_SUCCESS && a.hdr.code == S.CODE_CHANGED
         && !b.more && idx != [] && idx[|idx| - 1] == e.rec
       case Continued =>
         && a.hdr.cls == S.CLASS_SUCCESS && a.hdr.code == S.CODE_CONTINUE
         && b.more && e.off + b.size <= S.MAX_USP_MSG_LEN
         && a.block1 == Some(Block(b.num, true, Min(u.scfg.rxSize, b.size)))
  }

  // ---------------------------------------------------------------- the invariant

  /**
   Proof-only history: what each side saw last and what the server made of it, whether ACKs of the PDU before may still
   be on their way, and which records were accepted.
   */
  datatype History = History(
    cli: Entry, srv: Option<Entry>, verdict: Verdict, older: bool, prev: Entry, rst: Option<bytes>, idx: seq<nat>)

  /** The records xs are some of the records ys, in order, none twice. */
  predicate InOrder(xs: seq<bytes>, ys: seq<bytes>, idx: seq<nat>) {
    && |idx| == |xs| && Increasing(idx)
    && forall i :: 0 <= i < |idx| ==> idx[i] < |ys| && xs[i] == ys[idx[i]]
  }

  /** Every accepted record is before e's, or is e's own once its last block was accepted. */
  predicate AcceptedUpTo(e: Entry, idx: seq<nat>)
    requires HasBlock(e)
  {
    forall i :: 0 <= i < |idx| ==> idx[i] <= e.rec && (Blk(e).more ==> idx[i] < e.rec)
  }

  predicate Empty(s: S.Session) {
    s.buf == [] && s.count == 0
  }

  /** The buffer holds the record up to and including e. */
  predicate InSync(s: S.Session, e: Entry, started: seq<bytes>)
    requires HasBlock(e) && e.rec < |started|
  {
    var b := Blk(e);
    && b.more && s.count == b.num + 1 && s.token == e.parsed.token && s.blockSize == b.size
    && e.off + b.size <= |started[e.rec]| && s.buf == started[e.rec][..e.off + b.size]
  }

  predicate ServerOk(u: Setup, s: S.Session, h: History, started: seq<bytes>) {
    match h.srv
    case None => Empty(s) && s.last.None? && h.idx == []
    case Some(e) =>
      && EntryOk(u, e, started) && (Reads(u, e) || (BadOptions(u, e) && h.verdict.Rejected?))
      && s.last.Some? && s.last.value.mid == e.parsed.hdr.mid
      && AckSays(u, s.last.value.pdu, e, h.verdict, h.idx)
      && AcceptedUpTo(e, h.idx)
      && (Empty(s) || (InSync(s, e, started) && h.verdict.Continued?))
  }

  /** The PDU the server will answer next, if it has not answered it yet. */
  predicate Unseen(h: History) {
    h.srv != Some(h.cli)
  }

  /** The client has sent e, the latest block of the latest record, and waits for its ACK. */
  predicate Awaiting(u: Setup, c: Client, e: Entry, started: seq<bytes>) {
    && C.Sending(c) && c.curBlock < 0x10_0000
    && C.WriteBlock(u.ccfg, c) == Some(e.pdu) && W.BlockPdu(c) == e.parsed
    && c.bytesSent == e.off && e.rec + 1 == |started| && started[e.rec] == c.queue[0].payload
  }

  /** Without its ACK timer the client waits for nothing: its last PDU has been answered for good. */
  predicate ClientOk(u: Setup, n: Net, h: History) {
    var c := n.client;
    && P.Sound(c) && c.mid == h.cli.parsed.hdr.mid && c.token == h.cli.parsed.token
    && if c.ackTime.Some? then Awaiting(u, c, h.cli, n.started)
       else !Unseen(h) && !h.older && !h.verdict.Continued?
  }

  function ServerPhases(h: History): seq<Phase> {
    (if h.srv.Some? && Unseen(h) then [iset{h.srv.value.pdu}] else []) + [iset{h.cli.pdu}] + RstPhase(h.rst)
  }

  function RstPhase(rst: Option<bytes>): seq<Phase> {
    if rst.Some? then [iset{rst.value}] else []
  }

  /** ACKs of e; a RST may come with any of them */
  ghost function AcksOf(u: Setup, e: Entry): Phase {
    iset d: bytes | IsReset(u, d) || AckOf(u, d, e)
  }

  /** The answers to the PDU the server saw last */
  ghost function Answers(u: Setup, h: History): Phase {
    iset d: bytes |
      IsReset(u, d) || (h.srv.Some? && HasBlock(h.srv.value) && AckSays(u, d, h.srv.value, h.verdict, h.idx))
  }

  ghost function ClientPhases(u: Setup, h: History): seq<Phase> {
    (if h.older && !Unseen(h) then [AcksOf(u, h.prev)] else []) + [Answers(u, h)]
  }

  ghost predicate Inv(u: Setup, n: Net, h: History)
    requires u.Valid()
  {
    && EntryOk(u, h.cli, n.started)
    && ServerOk(u, n.server, h, n.started)
    && (h.srv.Some? && Unseen(h) ==> Follows(h.srv.value, h.cli))
    && (Unseen(h) && Blk(h.cli).num == 0 ==> Empty(n.server))
    && InOrder(n.posted, n.started, h.idx)
    && Phased(n.toServer, ServerPhases(h))
    && (h.rst.Some? ==> RstAfter(u, h.rst.value, h.cli))
    && (h.older && !Unseen(h) ==> HasBlock(h.prev) && Follows(h.prev, h.cli))
    && (Live(u, n) ==> h.rst.None? && ClientOk(u, n, h) && Phased(n.toClient, ClientPhases(u, h)))
  }

  /** A RST the client sends when it gives up the socket; its message id is one past the client's. */
  predicate RstAfter(u: Setup, rst: bytes, e: Entry) {
    var r := ParsePdu(rst, u.scfg.queryOk);
    r.flags == {} && r.pdu.hdr.pduType.Reset? && r.pdu.hdr.mid == C.NextMid(e.parsed.hdr.mid)
  }

  // ---------------------------------------------------------------- the server takes a new block

  /** The server state in which e is the block it expects, or in which it holds nothing. */
  predicate Expects(s: S.Session, e: Entry, started: seq<bytes>)
    requires HasBlock(e) && e.rec < |started|
  {
    || Empty(s)
    || (&& s.count == Blk(e).num > 0 && s.token == e.parsed.token && Blk(e).size <= s.blockSize
        && e.off <= |started[e.rec]| && s.buf == started[e.rec][..e.off])
  }

  /** The flags and the buffer a new block leads to, by verdict. */
  predicate Verdicted(r: S.Handled, e: Entry, started: seq<bytes>, v: Verdict)
    requires HasBlock(e) && e.rec < |started|
  {
    match v
    case Rejected => Rejection(r.flags)
    case Accepted => r.flags == {SendAck, UspRecordComplete} && !Blk(e).more && r.s.buf == started[e.rec]
    case Continued => r.flags == {SendAck} && InSync(r.s, e, started) && |r.s.buf| <= S.MAX_USP_MSG_LEN
  }

  /** Taking e's bytes onto the record's first e.off bytes. */
  lemma CarriedBytes(e: Entry, record: bytes)
    requires HasBlock(e) && Carries(e, record)
    ensures Blk(e).more ==> |e.parsed.payload| == Blk(e).size
    ensures !Blk(e).more ==> |e.parsed.payload| <= Blk(e).size
    ensures record[..e.off] + e.parsed.payload == if Blk(e).more then record[..e.off + Blk(e).size] else record
  {
  }

  lemma HandleNewBlock(u: Setup, s: S.Session, e: Entry, started: seq<bytes>) returns (v: Verdict)
    requires u.Valid() && EntryOk(u, e, started) && Expects(s, e, started)
    ensures Verdicted(S.HandleBlock(u.scfg, s, e.parsed), e, started, v)
    ensures S.HandleBlock(u.scfg, s, e.parsed).s.last == s.last
  {
    hide ParsePdu, Reads, Refused, S.HandleBlock;
    var r := S.HandleBlock(u.scfg, s, e.parsed);
    var record := started[e.rec];
    CarriedBytes(e, record);
    HandledBlock(u.scfg, s, e.parsed);
    if IndicatesError(r.flags) {
      v := Rejected;
    } else {
      assert record[..0] == [];
      assert s.buf == record[..e.off];
      v := if Blk(e).more then Continued else Accepted;
    }
  }

  predicate Rejection(flags: set<Action>) {
    && SendAck in flags && IndicatesError(flags)
    && SendRst !in flags && ResendLastResponse !in flags && UspRecordComplete !in flags && WellKnown !in flags
  }

  /** A block of the right size that is next, or that finds the server holding nothing: rejected or appended */
  lemma HandledBlock(cfg: S.Config, s: S.Session, p: Pdu)
    requires p.block1.Some? && p.token != [] && |p.payload| <= p.block1.value.size
    requires p.block1.value.more ==> |p.payload| == p.block1.value.size
    requires s.count == 0 || (s.count == p.block1.value.num && s.token == p.token)
    ensures var r := S.HandleBlock(cfg, s, p);
      && r.s.last == s.last
      && if IndicatesError(r.flags) then Rejection(r.flags)
         else
           && r.flags == (if p.block1.value.more then {SendAck} else {SendAck, UspRecordComplete})
           && r.s.buf == s.buf + p.payload && |r.s.buf| <= S.MAX_USP_MSG_LEN && r.s.count == p.block1.value.num + 1
           && r.s.token == p.token && r.s.blockSize == p.block1.value.size
           && (s.count == 0 ==> p.block1.value.num == 0)
  {
  }

  lemma FollowsExpects(u: Setup, s: S.Session, h: History, started: seq<bytes>)
    requires HasBlock(h.cli) && h.cli.rec < |started| && ServerOk(u, s, h, started)
    requires h.srv.Some? ==> Follows(h.srv.value, h.cli)
    requires Blk(h.cli).num == 0 ==> Empty(s)
    ensures Expects(s, h.cli, started)
  {
    hide ParsePdu, AckSays, Reads, Refused;
  }

  function WithAccepted(idx: seq<nat>, e: Entry, v: Verdict): seq<nat> {
    if v.Accepted? then idx + [e.rec] else idx
  }

  /** ReceiveCoapBlock on a new block: what is saved, sent and posted. */
  predicate Taken(u: Setup, t: S.Step, e: Entry, started: seq<bytes>, env: S.Env, v: Verdict, idx: seq<nat>)
    requires HasBlock(e) && e.rec < |started|
  {
    && t.s.last.Some? && t.s.last.value.mid == e.parsed.hdr.mid
    && t.sent == S.Sent(env, t.s.last.value.pdu)
    && AckSays(u, t.s.last.value.pdu, e, v, WithAccepted(idx, e, v))
    && t.posted == (if v.Accepted? then Some(started[e.rec]) else None)
    && (Empty(t.s) || (InSync(t.s, e, started) && v.Continued?))
  }

  lemma ServerActs(u: Setup, r: S.Handled, e: Entry, started: seq<bytes>, env: S.Env, v: Verdict, idx: seq<nat>)
    requires u.Valid() && EntryOk(u, e, started) && Verdicted(r, e, started, v) && env.replyToOk
    requires S.Parseable(e.parsed)
    ensures Taken(u, S.Act(u.scfg, r.s, e.parsed, r.flags, env), e, started, env, v, idx)
  {
    hide ParsePdu, S.WriteAck, Carries, Reads, Refused;
    W.AckParses(u.scfg, e.parsed, r.flags, env.text, u.ccfg.queryOk);
    var t := S.Act(u.scfg, r.s, e.parsed, r.flags, env);
    assert t.s.last == Some(S.Response(e.parsed.hdr.mid, S.WriteAck(u.scfg, e.parsed, r.flags, env.text)));
    assert AckSays(u, t.s.last.value.pdu, e, v, WithAccepted(idx, e, v));
  }

  lemma ServerTakes(u: Setup, s: S.Session, e: Entry, started: seq<bytes>, env: S.Env, idx: seq<nat>)
    returns (v: Verdict)
    requires u.Valid() && EntryOk(u, e, started) && Expects(s, e, started) && env.replyToOk && Reads(u, e)
    requires s.last.Some? ==> s.last.value.mid != e.parsed.hdr.mid
    ensures Taken(u, S.Receive(u.scfg, s, e.pdu, env), e, started, env, v, idx)
  {
    hide ParsePdu, S.HandleBlock, S.Act, AckSays, Refused;
    v := HandleNewBlock(u, s, e, started);
    S.ParsedIsParseable(e.pdu, u.scfg.queryOk);
    ServerActs(u, S.HandleBlock(u.scfg, s, e.parsed), e, started, env, v, idx);
  }

  /** A PDU whose options are refused is answered with an error each time it arrives. */
  lemma ServerRefuses(u: Setup, s: S.Session, e: Entry, started: seq<bytes>, env: S.Env, idx: seq<nat>)
    requires u.Valid() && EntryOk(u, e, started) && BadOptions(u, e)
    ensures Taken(u, S.Receive(u.scfg, s, e.pdu, env), e, started, env, Rejected, idx)
    ensures Empty(S.Receive(u.scfg, s, e.pdu, env).s)
  {
    hide ParsePdu, S.WriteAck, Carries, Reads, S.HandleBlock, Unreadable;
    var r := ParsePdu(e.pdu, u.scfg.queryOk);
    S.ParsedIsParseable(e.pdu, u.scfg.queryOk);
    W.AckParses(u.scfg, r.pdu, r.flags, env.text, u.ccfg.queryOk);
  }

  /** A PDU that cannot be read gets a RST, and the record being received is dropped. */
  lemma ServerResets(u: Setup, s: S.Session, e: Entry, env: S.Env)
    requires u.Valid() && Unreadable(u, e) && e.parsed.hdr.Valid() && |e.parsed.token| == 4
    ensures var rst := S.WriteRst(e.parsed.hdr.mid, e.parsed.token);
      S.Receive(u.scfg, s, e.pdu, env) == S.Step(S.FreeRecord(s), S.Sent(env, rst), None) && IsReset(u, rst)
  {
    hide ParsePdu, S.WriteAck, S.WriteRst, S.HandleBlock;
    W.RstParses(e.parsed.hdr.mid, e.parsed.token, u.ccfg.queryOk);
  }

  /** A repeated block gets the saved response again and leaves the session alone, unless sending fails. */
  lemma ServerRepeats(u: Setup, s: S.Session, e: Entry, started: seq<bytes>, env: S.Env)
    requires u.Valid() && EntryOk(u, e, started) && s.last.Some? && s.last.value.mid == e.parsed.hdr.mid && Reads(u, e)
    ensures S.Receive(u.scfg, s, e.pdu, env) ==
            S.Step(if env.sendOk then s else S.FreeRecord(s), S.Sent(env, s.last.value.pdu), None)
  {
    hide ParsePdu, S.WriteAck, Carries, S.HandleBlock, Refused;
  }

  lemma ServerReset(u: Setup, s: S.Session, rst: bytes, e: Entry, env: S.Env)
    requires u.Valid() && RstAfter(u, rst, e)
    requires s.last.Some? ==> s.last.value.mid != C.NextMid(e.parsed.hdr.mid)
    ensures S.Receive(u.scfg, s, rst, env) == S.Step(S.FreeRecord(s), None, None)
  {
    hide ParsePdu, S.WriteAck, S.HandleBlock;
  }

  // ---------------------------------------------------------------- steps of the server

  /** An answer that a step of the server adds to its channel. */
  lemma AnswerSent(u: Setup, ch: seq<bytes>, h: History, sent: Option<bytes>)
    requires Phased(ch, ClientPhases(u, h)) && (sent.Some? ==> sent.value in Answers(u, h))
    ensures Phased(ch + Listed(sent), ClientPhases(u, h))
  {
    hide Phased;
    assert ch + [] == ch;
    if sent.Some? {
      PhasedAppend(ch, ClientPhases(u, h), sent.value);
    }
  }

  /** A copy of the PDU the server saw last. */
  lemma {:induction false} DeliverRepeat(u: Setup, n: Net, h: History, ev: Event, e: Entry)
    requires u.Valid() && Inv(u, n, h) && ev.DeliverToServer? && n.toServer != []
    requires h.srv == Some(e) && n.toServer[0] == e.pdu
    ensures Inv(u, Next(u, n, ev).value, h)
  {
    hide ParsePdu, Phased, EntryOk, AckSays, Follows, InOrder, RstAfter, AckOf, Awaiting, S.Receive, Reads,
         Refused, ClientPhases;
    UnfoldEntry(u, e, n.started);
    PhasedPop(n.toServer, ServerPhases(h), ev.repeated);
    var n' := Next(u, n, ev).value;
    var t := S.Receive(u.scfg, n.server, e.pdu, ev.senv);
    if Reads(u, e) {
      ServerRepeats(u, n.server, e, n.started, ev.senv);
    } else {
      ServerRefuses(u, n.server, e, n.started, ev.senv, h.idx);
    }
    assert t.posted.None? && n'.posted == n.posted;
    if Live(u, n) {
      AnswerSent(u, n.toClient, h, t.sent);
    }
  }

  lemma AcceptedExtends(e: Entry, srv: Option<Entry>, idx: seq<nat>, v: Verdict, posted: seq<bytes>,
    started: seq<bytes>)
    requires HasBlock(e) && e.rec < |started| && InOrder(posted, started, idx)
    requires srv.Some? ==> HasBlock(srv.value) && Follows(srv.value, e) && AcceptedUpTo(srv.value, idx)
    requires srv.None? ==> idx == []
    requires v.Accepted? ==> !Blk(e).more
    ensures AcceptedUpTo(e, WithAccepted(idx, e, v))
    ensures InOrder(posted + Listed(if v.Accepted? then Some(started[e.rec]) else None), started, WithAccepted(idx,
        e, v))
  {
  }

  /** The history after the server took the client's PDU. */
  function Took(h: History, v: Verdict): History {
    h.(srv := Some(h.cli), verdict := v, idx := WithAccepted(h.idx, h.cli, v),
       older := h.srv.Some?, prev := if h.srv.Some? then h.srv.value else h.prev)
  }

  /** What was an answer before is an older ACK now, and the new answer comes behind it. */
  lemma TookPhases(u: Setup, ch: seq<bytes>, h: History, v: Verdict, sent: Option<bytes>)
    requires Unseen(h) && Phased(ch, ClientPhases(u, h)) && (sent.Some? ==> sent.value in Answers(u, Took(h, v)))
    ensures Phased(ch + Listed(sent), ClientPhases(u, Took(h, v)))
  {
    hide Phased, AckSays, AckOf, IsReset;
    var h' := Took(h, v);
    assert ClientPhases(u, h) == [Answers(u, h)];
    if h.srv.Some? {
      AnswersAreAcks(u, h);
      PhasedMore(ch, [Answers(u, h)], [AcksOf(u, h.srv.value)]);
      PhasedWiden(ch, [AcksOf(u, h.srv.value)], Answers(u, h'));
      assert ClientPhases(u, h') == [AcksOf(u, h.srv.value)] + [Answers(u, h')];
    } else {
      PhasedMore(ch, [Answers(u, h)], [Answers(u, h')]);
      assert ClientPhases(u, h') == [Answers(u, h')];
    }
    AnswerSent(u, ch, h', sent);
  }

  lemma AnswersAreAcks(u: Setup, h: History)
    requires h.srv.Some?
    ensures Answers(u, h) <= AcksOf(u, h.srv.value)
  {
    hide ParsePdu;
  }

  /** The first copy of the client's PDU, answered with an ACK. */
  lemma {:induction false} DeliverNew(u: Setup, n: Net, h: History, ev: Event) returns (h': History)
    requires u.Valid() && Inv(u, n, h) && ev.DeliverToServer? && n.toServer != [] && ev.senv.replyToOk
    requires Unseen(h) && n.toServer[0] == h.cli.pdu && (h.srv.Some? ==> n.toServer[0] != h.srv.value.pdu)
    requires Reads(u, h.cli) || BadOptions(u, h.cli)
    ensures Inv(u, Next(u, n, ev).value, h')
  {
    hide ParsePdu, Phased, EntryOk, RstAfter, Awaiting, S.Receive, AckSays, Reads, BadOptions, ClientPhases, Answers;
    var e := h.cli;
    UnfoldEntry(u, e, n.started);
    if h.srv.Some? {
      UnfoldEntry(u, h.srv.value, n.started);
    }
    FollowsExpects(u, n.server, h, n.started);
    var v := Rejected;
    if Reads(u, e) {
      v := ServerTakes(u, n.server, e, n.started, ev.senv, h.idx);
    } else {
      ServerRefuses(u, n.server, e, n.started, ev.senv, h.idx);
    }
    h' := Took(h, v);
    var n' := Next(u, n, ev).value;
    AcceptedIsLast(u, n'.server.last.value.pdu, e, v, h'.idx);
    AcceptedExtends(e, h.srv, h.idx, v, n.posted, n.started);
    assert ServerOk(u, n'.server, h', n.started);
    SeenPhases(n.toServer, h, h', ev.repeated);
    if Live(u, n) {
      AnswerIs(u, h', n'.server.last.value.pdu);
      TookPhases(u, n.toClient, h, v, S.Receive(u.scfg, n.server, e.pdu, ev.senv).sent);
    }
  }

  lemma AcceptedIsLast(u: Setup, ack: bytes, e: Entry, v: Verdict, idx: seq<nat>)
    requires HasBlock(e) && AckSays(u, ack, e, v, idx)
    ensures v.Accepted? ==> !Blk(e).more
  {
    hide ParsePdu;
  }

  lemma AnswerIs(u: Setup, h: History, ack: bytes)
    requires h.srv.Some? && HasBlock(h.srv.value) && AckSays(u, ack, h.srv.value, h.verdict, h.idx)
    ensures ack in Answers(u, h)
  {
    hide AckSays, IsReset;
  }

  lemma UnfoldEntry(u: Setup, e: Entry, started: seq<bytes>)
    requires EntryOk(u, e, started)
    ensures HasBlock(e) && e.rec < |started| && e.parsed.hdr.Valid() && |e.parsed.token| == 4
    ensures Reads(u, e) || Unreadable(u, e) || BadOptions(u, e)
  {
    hide Reads, Refused;
  }

  /** Once the client's PDU is at the head, no older PDU is behind it. */
  lemma SeenPhases(ch: seq<bytes>, h: History, h': History, repeated: bool)
    requires ch != [] && Phased(ch, ServerPhases(h)) && Unseen(h) && ch[0] == h.cli.pdu
    requires h.srv.Some? ==> ch[0] != h.srv.value.pdu
    requires h'.cli == h.cli && h'.srv == Some(h.cli) && h'.rst == h.rst
    ensures Phased(Popped(ch, repeated), ServerPhases(h'))
  {
    hide Phased;
    var xs := [iset{h.cli.pdu}] + RstPhase(h.rst);
    assert ServerPhases(h') == xs;
    if h.srv.Some? {
      var x := iset{h.srv.value.pdu};
      assert ServerPhases(h) == [x] + xs;
      PhasedPast(ch, x, xs);
    } else {
      assert ServerPhases(h) == xs;
    }
    PhasedPop(ch, xs, repeated);
  }

  /** A copy of the client's PDU that the server cannot read: it stays unseen, and a RST goes back. */
  lemma {:induction false} DeliverUnread(u: Setup, n: Net, h: History, ev: Event)
    requires u.Valid() && Inv(u, n, h) && ev.DeliverToServer? && n.toServer != []
    requires Unseen(h) && n.toServer[0] == h.cli.pdu && Unreadable(u, h.cli)
    ensures Inv(u, Next(u, n, ev).value, h)
  {
    hide ParsePdu, Phased, EntryOk, AckSays, InOrder, AckOf, Awaiting, S.Receive, S.WriteRst, Reads, Refused,
         RstAfter, ClientPhases;
    UnfoldEntry(u, h.cli, n.started);
    ServerResets(u, n.server, h.cli, ev.senv);
    PhasedPop(n.toServer, ServerPhases(h), ev.repeated);
    var t := S.Receive(u.scfg, n.server, h.cli.pdu, ev.senv);
    var n' := Next(u, n, ev).value;
    assert n'.posted == n.posted;
    if Live(u, n) {
      AnswerSent(u, n.toClient, h, t.sent);
    }
  }

  /** A RST of the client, after which nothing else arrives. */
  lemma {:induction false} DeliverRst(u: Setup, n: Net, h: History, ev: Event)
    requires u.Valid() && Inv(u, n, h) && ev.DeliverToServer? && n.toServer != []
    requires h.rst == Some(n.toServer[0])
    ensures Inv(u, Next(u, n, ev).value, h)
  {
    hide ParsePdu, Phased, AckSays, InOrder, AckOf, Awaiting, S.Receive, Reads, Refused, ClientPhases;
    assert n.server.last.Some? ==> n.server.last.value.mid != C.NextMid(h.cli.parsed.hdr.mid);
    ServerReset(u, n.server, n.toServer[0], h.cli, ev.senv);
    PhasedPop(n.toServer, ServerPhases(h), ev.repeated);
    var n' := Next(u, n, ev).value;
    assert n'.posted == n.posted && n'.toClient == n.toClient;
  }

  lemma DeliverToServerKeeps(u: Setup, n: Net, h: History, ev: Event) returns (h': History)
    requires u.Valid() && Inv(u, n, h) && ev.DeliverToServer? && n.toServer != [] && ev.senv.replyToOk
    ensures Inv(u, Next(u, n, ev).value, h')
  {
    hide ParsePdu, Phased, EntryOk, ServerOk, ClientOk, RstAfter, AckOf, Follows, InOrder, S.Receive, Reads,
         Refused, ClientPhases;
    var d := n.toServer[0];
    UnfoldEntry(u, h.cli, n.started);
    var i := PhasedHead(n.toServer, ServerPhases(h));
    h' := h;
    if h.srv.Some? && d == h.srv.value.pdu {
      DeliverRepeat(u, n, h, ev, h.srv.value);
    } else if d == h.cli.pdu {
      assert Unseen(h);
      if Unreadable(u, h.cli) {
        DeliverUnread(u, n, h, ev);
      } else {
        h' := DeliverNew(u, n, h, ev);
      }
    } else {
      assert h.rst == Some(d);
      DeliverRst(u, n, h, ev);
    }
  }

  // ---------------------------------------------------------------- steps of the client

  /** The client closed the socket, possibly after a RST; what is in the channel is all that will be. */
  lemma {:induction false} ClientLeaves(u: Setup, n: Net, h: History, o: C.Outcome, toClient: seq<bytes>)
    requires u.Valid() && Inv(u, n, h) && Live(u, n) && o.Running? && o.c.sock != Some(u.sock)
    requires o.rst.Some? ==> RstAfter(u, o.rst.value, h.cli)
    ensures Inv(u, ClientTurn(u, n.(toClient := toClient), o), h.(rst := o.rst))
  {
    hide ParsePdu, Phased, EntryOk, AckSays, InOrder, AckOf, Awaiting, RstAfter, Follows, Reads, Refused;
    var n' := ClientTurn(u, n.(toClient := toClient), o);
    var h' := h.(rst := o.rst);
    assert n'.started == n.started;
    if o.rst.Some? {
      PhasedSend(n.toServer, ServerPhases(h), iset{o.rst.value}, o.rst.value);
      assert ServerPhases(h') == ServerPhases(h) + [iset{o.rst.value}];
      assert n'.toServer == n.toServer + [o.rst.value];
    } else {
      assert n'.toServer == n.toServer;
    }
  }

  /** The client keeps waiting for an ACK of the same PDU, or keeps waiting for nothing. */
  lemma {:induction false} ClientStays(u: Setup, n: Net, h: History, o: C.Outcome, toClient: seq<bytes>)
    requires u.Valid() && Inv(u, n, h) && Live(u, n) && o.Running? && o.c.sock == Some(u.sock)
    requires o.rst.None? && (o.sent.Some? ==> o.sent.value == h.cli.pdu) && o.c.mid == n.client.mid
    requires Phased(toClient, ClientPhases(u, h))
    requires ClientOk(u, n.(client := o.c), h)
    ensures Inv(u, ClientTurn(u, n.(toClient := toClient), o), h)
  {
    hide ParsePdu, Phased, EntryOk, AckSays, InOrder, AckOf, Awaiting, RstAfter, Follows, Reads, Refused, ClientPhases;
    var n' := ClientTurn(u, n.(toClient := toClient), o);
    assert n'.started == n.started;
    if o.sent.Some? {
      PhasedAppend(n.toServer, ServerPhases(h), h.cli.pdu);
      assert n'.toServer == n.toServer + [h.cli.pdu];
    } else {
      assert n'.toServer == n.toServer;
    }
  }

  /** The entry of the block the client has just written. */
  function EntryOf(u: Setup, c: Client, rec: nat): Entry
    requires C.Sending(c) && C.WriteBlock(u.ccfg, c).Some?
  {
    Entry(C.WriteBlock(u.ccfg, c).value, W.BlockPdu(c), rec, c.bytesSent)
  }

  lemma NewEntryOk(u: Setup, c: Client, started: seq<bytes>)
    requires u.Valid() && C.Sending(c) && C.WriteBlock(u.ccfg, c).Some?
    requires started != [] && started[|started| - 1] == c.queue[0].payload
    requires c.curBlock < 0x10_0000 && (c.curBlock == 0 <==> c.bytesSent == 0) && c.curBlock * 16 <= c.bytesSent
    ensures var e := EntryOf(u, c, |started| - 1); EntryOk(u, e, started) && Awaiting(u, c, e, started)
  {
    hide ParsePdu, C.WriteBlock, Store, Convert, W.JoinPath, W.QueryText, C.BlockPayload, Carries;
    var e := EntryOf(u, c, |started| - 1);
    assert Reads(u, e) || Unreadable(u, e) || BadOptions(u, e) by { W.BlockReads(u.ccfg, c, u.scfg.queryOk); }
    assert e.parsed.size1.value < 0x1_0000 by {
      ConvertBound(Store(2, |c.queue[0].payload|));
      Pow256Small();
    }
    BlockCarries(u, c, |started| - 1);
  }

  lemma BlockCarries(u: Setup, c: Client, rec: nat)
    requires C.Sending(c) && C.WriteBlock(u.ccfg, c).Some?
    ensures Carries(EntryOf(u, c, rec), c.queue[0].payload)
  {
    hide C.WriteBlock, Store, Convert, W.JoinPath, W.QueryText;
  }

  lemma StartedGrows(u: Setup, n: Net, h: History, started: seq<bytes>)
    requires u.Valid() && Inv(u, n, h) && n.started <= started
    ensures EntryOk(u, h.cli, started) && ServerOk(u, n.server, h, started) && InOrder(n.posted, started, h.idx)
  {
    hide ParsePdu, Phased, AckSays, Follows, ClientOk, RstAfter, Reads, Refused;
  }

  /** The client, having had its PDU acknowledged, sends the next one. */
  lemma {:induction false} ClientAdvances(u: Setup, n: Net, h: History, o: C.Outcome, toClient: seq<bytes>)
    returns (h': History)
    requires u.Valid() && Inv(u, n, h) && Live(u, n) && o.Running? && o.c.sock == Some(u.sock)
    requires !Unseen(h) && Phased(toClient, [Answers(u, h)])
    requires o.rst.None? && P.Sound(o.c) && C.Sending(o.c) && o.sent.Some? && o.c.ackTime.Some?
    requires o.sent == C.WriteBlock(u.ccfg, o.c)
    requires var n' := ClientTurn(u, n, o);
      && n'.started != [] && n'.started[|n'.started| - 1] == o.c.queue[0].payload
      && Follows(h.cli, EntryOf(u, o.c, |n'.started| - 1))
    requires o.c.curBlock < 0x10_0000 && (o.c.curBlock == 0 <==> o.c.bytesSent == 0)
    requires o.c.curBlock * 16 <= o.c.bytesSent
    requires o.c.curBlock == 0 ==> Empty(n.server)
    ensures Inv(u, ClientTurn(u, n.(toClient := toClient), o), h')
  {
    hide ParsePdu, Phased, AckSays, RstAfter, C.WriteBlock, Carries, InSync, Reads, Refused;
    var n' := ClientTurn(u, n.(toClient := toClient), o);
    NewEntryOk(u, o.c, n'.started);
    StartedGrows(u, n, h, n'.started);
    var e := EntryOf(u, o.c, |n'.started| - 1);
    h' := h.(cli := e, older := false);
    assert ServerPhases(h) == [iset{h.cli.pdu}];
    assert ServerPhases(h') == [iset{h.cli.pdu}] + [iset{e.pdu}];
    PhasedSend(n.toServer, [iset{h.cli.pdu}], iset{e.pdu}, e.pdu);
    assert n'.toServer == n.toServer + [e.pdu];
    assert ClientPhases(u, h') == [Answers(u, h)];
  }

  /** The history once older ACKs can no longer arrive. */
  lemma OnlyAnswers(u: Setup, n: Net, h: History, toClient: seq<bytes>)
    requires u.Valid() && Inv(u, n, h) && Live(u, n) && !Unseen(h) && Phased(toClient, [Answers(u, h)])
    ensures Inv(u, n.(toClient := toClient), h.(older := false))
  {
    hide ParsePdu, Phased, EntryOk, AckSays, InOrder, Awaiting, RstAfter, Follows, Reads, Refused;
    var h' := h.(older := false);
    assert ClientPhases(u, h') == [Answers(u, h)];
    assert ServerPhases(h') == ServerPhases(h);
  }

  /** The next record is started, or not: StartSendingCoapUspRecord on the open socket. */
  lemma {:induction false} ClientStarts(
    u: Setup, n: Net, h: History, c: Client, o: C.Outcome, env: nat -> C.Env, toClient: seq<bytes>)
    returns (h': History)
    requires u.Valid() && Inv(u, n, h) && Live(u, n)
    requires P.Startable(c) && c.sock == n.client.sock && c.socks == n.client.socks
    requires c.mid == n.client.mid && c.token == n.client.token
    requires o == C.StartRecord(u.ccfg, c, false, env, 0) && o.Running?
    requires !Unseen(h) && Phased(toClient, [Answers(u, h)]) && !h.verdict.Continued?
    ensures Inv(u, ClientTurn(u, n.(toClient := toClient), o), h')
  {
    hide ParsePdu, Phased, AckSays, RstAfter, C.WriteBlock, C.StartRecord, Carries, InSync, EntryOk, Awaiting,
         Reads, Refused;
    P.StartRecordSettles(u.ccfg, c, false, env, 0);
    P.StartRecordSocket(u.ccfg, c, false, env, 0);
    if o.c.sock != Some(u.sock) {
      h' := h.(rst := o.rst);
      ClientLeaves(u, n, h, o, toClient);
    } else if o.sent.None? {
      h' := h.(older := false);
      OnlyAnswers(u, n, h, toClient);
      var m := n.(toClient := toClient);
      assert m.(toClient := toClient) == m;
      ClientStays(u, m, h', o, toClient);
    } else {
      assert o.c.queue[0].payload == (n.started + [o.c.queue[0].payload])[|n.started|];
      assert Follows(h.cli, EntryOf(u, o.c, |n.started|)) by { UnfoldEntry(u, h.cli, n.started); }
      h' := ClientAdvances(u, n, h, o, toClient);
    }
  }

  /** An ACK for an earlier PDU is ignored, or makes the client give up the socket. */
  lemma {:induction false} StaleAck(
    u: Setup, n: Net, h: History, ack: bytes, e: Entry, env: nat -> C.Env, toClient: seq<bytes>) returns (h': History)
    requires u.Valid() && Inv(u, n, h) && Live(u, n)
    requires HasBlock(e) && HasBlock(h.cli) && AckOf(u, ack, e) && Follows(e, h.cli)
    requires Phased(toClient, ClientPhases(u, h))
    requires C.HandleAck(u.ccfg, n.client, C.Data(ack), env).Running?
    ensures Inv(u, ClientTurn(u, n.(toClient := toClient), C.HandleAck(u.ccfg, n.client, C.Data(ack), env)), h')
  {
    hide ParsePdu, Phased, AckSays, C.RetryLater, C.StartRecord, C.SendBlock, S.WriteRst, EntryOk, ServerOk,
         Awaiting, InOrder, ClientPhases;
    var c := n.client;
    var o := C.HandleAck(u.ccfg, c, C.Data(ack), env);
    var p := ParsePdu(ack, u.ccfg.queryOk).pdu;
    S.ParsedIsParseable(ack, u.ccfg.queryOk);
    if p.token != c.token {
      h' := h.(rst := o.rst);
      GivesUpWithRst(u, n, h, ack, env, toClient);
    } else {
      h' := h;
      assert n.(client := c) == n;
      ClientStays(u, n, h, o, toClient);
    }
  }

  /** An ACK that does not fit makes the client send a RST and give up the socket. */
  lemma GivesUpWithRst(u: Setup, n: Net, h: History, ack: bytes, env: nat -> C.Env, toClient: seq<bytes>)
    requires u.Valid() && Inv(u, n, h) && Live(u, n)
    requires var r := ParsePdu(ack, u.ccfg.queryOk); r.flags == {} && C.AckActions(n.client, r.pdu) == SendRst
    requires C.HandleAck(u.ccfg, n.client, C.Data(ack), env).Running?
    ensures var o := C.HandleAck(u.ccfg, n.client, C.Data(ack), env);
      Inv(u, ClientTurn(u, n.(toClient := toClient), o), h.(rst := o.rst))
  {
    hide ParsePdu, Phased, AckSays, C.RetryLater, C.StartRecord, C.SendBlock, S.WriteRst, EntryOk, ServerOk,
         Awaiting, InOrder, ClientPhases, C.AckActions;
    var c := n.client;
    var o := C.HandleAck(u.ccfg, c, C.Data(ack), env);
    var p := ParsePdu(ack, u.ccfg.queryOk).pdu;
    S.ParsedIsParseable(ack, u.ccfg.queryOk);
    var mid := C.NextMid(c.mid);
    P.RetryLaterLeavesSocket(u.ccfg, c.(mid := mid), false, env, 0);
    W.RstParses(mid, p.token, u.scfg.queryOk);
    ClientLeaves(u, n, h, o, toClient);
  }

  /** A RST makes the client give up the socket. */
  lemma ResetArrives(u: Setup, n: Net, h: History, d: bytes, env: nat -> C.Env, toClient: seq<bytes>)
    requires u.Valid() && Inv(u, n, h) && Live(u, n) && IsReset(u, d)
    requires C.HandleAck(u.ccfg, n.client, C.Data(d), env).Running?
    ensures var o := C.HandleAck(u.ccfg, n.client, C.Data(d), env);
      Inv(u, ClientTurn(u, n.(toClient := toClient), o), h.(rst := o.rst))
  {
    hide ParsePdu, Phased, AckSays, C.RetryLater, C.StartRecord, C.SendBlock, S.WriteRst, EntryOk, ServerOk,
         Awaiting, InOrder, ClientPhases;
    var o := C.HandleAck(u.ccfg, n.client, C.Data(d), env);
    P.RetryLaterLeavesSocket(u.ccfg, n.client, false, env, 0);
    ClientLeaves(u, n, h, o, toClient);
  }

  /** After a NextBlock, the client is ready to send the following block of the same record. */
  lemma NextBlockReady(u: Setup, c: Client, e: Entry, started: seq<bytes>, size: nat, env: C.Env)
    requires u.Valid() && Awaiting(u, c, e, started) && EntryOk(u, e, started)
    requires Blk(e).more && e.off + Blk(e).size <= S.MAX_USP_MSG_LEN && ValidBlockSize(size)
    ensures var d := C.NextBlock(c, size, env);
      && C.Sending(d) && d.curBlock < 0x10_0000 && d.curBlock > 0 && d.bytesSent > 0
      && d.curBlock * 16 <= d.bytesSent && d.queue[0].payload == started[e.rec]
      && d.mid == C.NextMid(e.parsed.hdr.mid) && d.token == e.parsed.token && d.curBlock == Blk(e).num + 1
      && d.bytesSent == e.off + Blk(e).size && d.blockSize <= Blk(e).size
  {
    hide ParsePdu, C.WriteBlock, Store, Convert, Reads, Refused;
  }

  /** The ACK the client waits for, saying that it should send the next block. */
  lemma {:induction false} ContinueAck(u: Setup, n: Net, h: History, ack: bytes, env: nat -> C.Env,
    toClient: seq<bytes>)
    returns (h': History)
    requires u.Valid() && Inv(u, n, h) && Live(u, n) && !Unseen(h) && n.client.ackTime.Some?
    requires HasBlock(h.cli) && AckSays(u, ack, h.cli, h.verdict, h.idx) && h.verdict.Continued?
    requires Phased(toClient, [Answers(u, h)])
    requires C.HandleAck(u.ccfg, n.client, C.Data(ack), env).Running?
    ensures Inv(u, ClientTurn(u, n.(toClient := toClient), C.HandleAck(u.ccfg, n.client, C.Data(ack), env)), h')
  {
    hide ParsePdu, Phased, C.RetryLater, C.StartRecord, S.WriteRst, C.WriteBlock, InOrder, Carries, InSync, Reads,
         Refused, Answers;
    var c := n.client;
    var o := C.HandleAck(u.ccfg, c, C.Data(ack), env);
    var p := ParsePdu(ack, u.ccfg.queryOk).pdu;
    S.ParsedIsParseable(ack, u.ccfg.queryOk);
    assert C.AckActions(c, p) == SendNextBlock;
    var size := p.block1.value.size;
    NextBlockReady(u, c, h.cli, n.started, size, env(0));
    h' := SendNext(u, n, h, C.NextBlock(c, size, env(0)), env, toClient);
  }

  /** Sending the block d of the record under way. */
  lemma {:induction false} SendNext(u: Setup, n: Net, h: History, d: Client, env: nat -> C.Env, toClient: seq<bytes>)
    returns (h': History)
    requires u.Valid() && Inv(u, n, h) && Live(u, n) && !Unseen(h)
    requires C.Sending(d) && 0 < d.curBlock < 0x10_0000 && 0 < d.bytesSent && d.curBlock * 16 <= d.bytesSent
    requires d.sock == n.client.sock && d.socks == n.client.socks && n.client.sock.value < d.socks && d.linger.None?
    requires n.started != [] && h.cli.rec == |n.started| - 1 && d.queue[0].payload == n.started[h.cli.rec]
    requires HasBlock(h.cli) && Blk(h.cli).more && d.token == h.cli.parsed.token && d.curBlock == Blk(h.cli).num + 1
    requires d.mid == C.NextMid(h.cli.parsed.hdr.mid)
    requires d.bytesSent == h.cli.off + Blk(h.cli).size && d.blockSize <= Blk(h.cli).size
    requires Phased(toClient, [Answers(u, h)])
    requires C.SendBlock(u.ccfg, d, false, env, 0).Running?
    ensures Inv(u, ClientTurn(u, n.(toClient := toClient), C.SendBlock(u.ccfg, d, false, env, 0)), h')
  {
    hide ParsePdu, Phased, C.RetryLater, C.WriteBlock, InOrder, Carries, InSync, EntryOk, ServerOk, ClientOk, AckSays,
         RstAfter, S.WriteRst, Store, Convert, Reads, Refused, Answers, ClientPhases;
    var o := C.SendBlock(u.ccfg, d, false, env, 0);
    P.SendBlockSettles(u.ccfg, d, false, env, 0);
    P.RetryLaterLeavesSocket(u.ccfg, d.(ackTime := Some(env(0).now + Quot(d.ackMs, 1000))), false, env, 0);
    if o.c.sock != Some(u.sock) {
      h' := h.(rst := o.rst);
      ClientLeaves(u, n, h, o, toClient);
    } else {
      assert ClientTurn(u, n, o).started == n.started;
      h' := ClientAdvances(u, n, h, o, toClient);
    }
  }

  /**
   The answer that ends a record. The client that waits for it starts the next record; a client that waits for nothing
   ignores it, starts the next record or gives up the socket, or ends the run.
   */
  lemma {:induction false} FinalAck(u: Setup, n: Net, h: History, ack: bytes, env: nat -> C.Env, toClient: seq<bytes>)
    returns (h': History)
    requires u.Valid() && Inv(u, n, h) && Live(u, n) && !Unseen(h)
    requires HasBlock(h.cli) && AckSays(u, ack, h.cli, h.verdict, h.idx) && !h.verdict.Continued?
    requires Phased(toClient, [Answers(u, h)])
    requires C.HandleAck(u.ccfg, n.client, C.Data(ack), env).Running?
    ensures Inv(u, ClientTurn(u, n.(toClient := toClient), C.HandleAck(u.ccfg, n.client, C.Data(ack), env)), h')
  {
    hide ParsePdu, Phased, C.RetryLater, C.StartRecord, S.WriteRst, C.WriteBlock, InOrder, Carries, InSync, Reads,
         Refused, Answers, ClientPhases, EntryOk;
    var c := n.client;
    var o := C.HandleAck(u.ccfg, c, C.Data(ack), env);
    var p := ParsePdu(ack, u.ccfg.queryOk).pdu;
    S.ParsedIsParseable(ack, u.ccfg.queryOk);
    var act := C.AckActions(c, p);
    if act == SendNextUspRecord {
      h' := ClientStarts(u, n, h, c.(queue := c.queue[1..]), o, env, toClient);
    } else if act == SendRst {
      h' := h.(rst := o.rst);
      GivesUpWithRst(u, n, h, ack, env, toClient);
    } else {
      assert act == IgnorePdu;
      h' := h.(older := false);
      OnlyAnswers(u, n, h, toClient);
      var m := n.(toClient := toClient);
      assert m.(toClient := toClient) == m && m.(client := c) == m;
      ClientStays(u, m, h', o, toClient);
    }
  }

  /** What a datagram for the client can be. */
  lemma ClientReads(u: Setup, n: Net, h: History, repeated: bool)
    requires u.Valid() && Inv(u, n, h) && Live(u, n) && n.toClient != []
    ensures var d := n.toClient[0];
      || IsReset(u, d)
      || (Unseen(h) && h.srv.Some? && HasBlock(h.srv.value) && AckOf(u, d, h.srv.value))
      || (!Unseen(h) && h.older && AckOf(u, d, h.prev))
      || (!Unseen(h) && HasBlock(h.cli) && AckSays(u, d, h.cli, h.verdict, h.idx)
          && Phased(Popped(n.toClient, repeated), [Answers(u, h)]))
    ensures Phased(Popped(n.toClient, repeated), ClientPhases(u, h))
  {
    hide ParsePdu, Phased, EntryOk, ServerOk, ClientOk, InOrder, RstAfter, Follows;
    var d, a := n.toClient[0], Answers(u, h);
    var i := PhasedHead(n.toClient, ClientPhases(u, h));
    PhasedPop(n.toClient, ClientPhases(u, h), repeated);
    if !Unseen(h) && !IsReset(u, d) && !(h.older && AckOf(u, d, h.prev)) {
      if h.older {
        assert ClientPhases(u, h) == [AcksOf(u, h.prev)] + [a];
        PhasedPast(n.toClient, AcksOf(u, h.prev), [a]);
        PhasedPop(n.toClient, [a], repeated);
      } else {
        assert ClientPhases(u, h) == [a];
      }
    }
  }

  lemma {:induction false} DeliverToClientKeeps(u: Setup, n: Net, h: History, ev: Event) returns (h': History)
    requires u.Valid() && Inv(u, n, h) && ev.DeliverToClient? && Enabled(u, n, ev)
    requires Next(u, n, ev).Some?
    ensures Inv(u, Next(u, n, ev).value, h')
  {
    hide ParsePdu, Phased, C.HandleAck, EntryOk, AckSays, AckOf, Awaiting, RstAfter, InOrder, S.WriteRst,
         C.WriteBlock, Carries, InSync,
         Reads, Refused, Answers, ClientPhases, IsReset;
    var d := n.toClient[0];
    var rest := Popped(n.toClient, ev.repeated);
    ClientReads(u, n, h, ev.repeated);
    UnfoldEntry(u, h.cli, n.started);
    if IsReset(u, d) {
      h' := h.(rst := C.HandleAck(u.ccfg, n.client, C.Data(d), ev.env).rst);
      ResetArrives(u, n, h, d, ev.env, rest);
    } else if Unseen(h) {
      h' := StaleAck(u, n, h, d, h.srv.value, ev.env, rest);
    } else if h.older && AckOf(u, d, h.prev) {
      h' := StaleAck(u, n, h, d, h.prev, ev.env, rest);
    } else if h.verdict.Continued? {
      h' := ContinueAck(u, n, h, d, ev.env, rest);
    } else {
      h' := FinalAck(u, n, h, d, ev.env, rest);
    }
  }

  // ---------------------------------------------------------------- other events

  /** The ACK timer: the same PDU again, or the socket is given up. */
  lemma {:induction false} TimeoutKeeps(u: Setup, n: Net, h: History, env: nat -> C.Env) returns (h': History)
    requires u.Valid() && Inv(u, n, h) && Live(u, n) && n.client.ackTime.Some?
    requires C.HandleNoAck(u.ccfg, n.client, env).Running?
    requires C.HandleNoAck(u.ccfg, n.client, env).c.sock == Some(u.sock) ==>
        n.client.retrans + 1 < C.COAP_MAX_RETRANSMIT
    ensures Inv(u, ClientTurn(u, n, C.HandleNoAck(u.ccfg, n.client, env)), h')
  {
    hide ParsePdu, Phased, C.HandleNoAck, C.WriteBlock, EntryOk, ServerOk, InOrder, RstAfter, Reads, Refused,
         ClientPhases;
    var c := n.client;
    var o := C.HandleNoAck(u.ccfg, c, env);
    assert n.(toClient := n.toClient) == n;
    RepeatsOrLeaves(u, c, env);
    if o.c.sock != Some(u.sock) {
      h' := h.(rst := o.rst);
      ClientLeaves(u, n, h, o, n.toClient);
    } else {
      h' := h;
      SameBlock(u, c, o.c, h.cli, n.started);
      ClientStays(u, n, h, o, n.toClient);
    }
  }

  /** A timeout that does not end the record on its socket closes the socket, or sends the block again. */
  lemma RepeatsOrLeaves(u: Setup, c: Client, env: nat -> C.Env)
    requires u.Valid() && P.Sound(c) && c.sock == Some(u.sock) && c.ackTime.Some? && C.Sending(c)
    requires C.HandleNoAck(u.ccfg, c, env).Running?
    requires C.HandleNoAck(u.ccfg, c, env).c.sock == c.sock ==> c.retrans + 1 < C.COAP_MAX_RETRANSMIT
    ensures var o := C.HandleNoAck(u.ccfg, c, env);
      && o.rst.None?
      && (o.c.sock == c.sock ==>
            && P.Sound(o.c) && C.Sending(o.c) && o.sent == C.WriteBlock(u.ccfg, c) && SameSending(c, o.c)
            && o.c.ackTime.Some?)
  {
    hide C.RetryLater, C.StartRecord, C.WriteBlock;
    P.HandleNoAckSettles(u.ccfg, c, env);
    var c1 := c.(retrans := c.retrans + 1, reconns := c.reconns + 1);
    var c2 := c1.(ackMs := 2 * c1.ackMs);
    P.StartRecordSocket(u.ccfg, c1.(queue := c1.queue[1..]), false, env, 0);
    P.RetryLaterLeavesSocket(u.ccfg, c1, true, env, 0);
    P.RetryLaterLeavesSocket(u.ccfg, c2.(ackTime := Some(env(0).now + Quot(c2.ackMs, 1000))), false, env, 0);
    P.WriteIgnoresTimers(u.ccfg, c, c2);
  }

  /** Two clients that are sending the same block. */
  predicate SameSending(c: Client, d: Client) {
    && c.queue != [] && d.queue != [] && c.queue[0] == d.queue[0]
    && c.mid == d.mid && c.token == d.token && c.query == d.query
    && c.curBlock == d.curBlock && c.blockSize == d.blockSize && c.bytesSent == d.bytesSent
    && c.peerAddr == d.peerAddr
  }

  lemma SameBlock(u: Setup, c: Client, d: Client, e: Entry, started: seq<bytes>)
    requires Awaiting(u, c, e, started) && C.Sending(d) && SameSending(c, d)
    ensures Awaiting(u, d, e, started)
  {
    hide C.WriteBlock, Store, Convert, EncodeHeader;
    P.WriteIgnoresTimers(u.ccfg, c, d);
  }

  /** The history of what was queued plays no part. */
  lemma AnyQueued(u: Setup, n: Net, h: History, queued: seq<bytes>)
    requires u.Valid() && Inv(u, n, h)
    ensures Inv(u, n.(queued := queued), h)
  {
    hide ParsePdu, Phased, EntryOk, ServerOk, InOrder, RstAfter, Awaiting, ClientPhases;
  }

  /** A record is queued: behind others, or it is the first and is started. */
  lemma {:induction false} QueuedKeeps(u: Setup, n: Net, h: History, item: C.Item, env: nat -> C.Env)
    returns (h': History)
    requires u.Valid() && Inv(u, n, h) && Live(u, n) && C.Queue(u.ccfg, n.client, item, env).Running?
    ensures Inv(u, ClientTurn(u, n, C.Queue(u.ccfg, n.client, item, env)), h')
  {
    hide ParsePdu, Phased, C.StartRecord, C.WriteBlock, EntryOk, InOrder, RstAfter, Reads, Refused, AckSays,
         ServerOk, Answers, ClientPhases;
    var c := n.client;
    var o := C.Queue(u.ccfg, c, item, env);
    P.StepSettles(u.ccfg, c, C.Queued(item), env);
    assert n.(toClient := n.toClient) == n;
    if c.queue == [] {
      var c1 := c.(queue := [item]);
      if C.InQueue(c.queue, item.payload) {
        assert false;
      }
      assert C.RemoveExpired(c.queue, env(0).now) + [item] == [item];
      OnlyAnswersLeft(u, n, h);
      h' := ClientStarts(u, n, h, c1, o, env, n.toClient);
    } else {
      h' := h;
      if c.ackTime.Some? {
        SameBlock(u, c, o.c, h.cli, n.started);
      }
      ClientStays(u, n, h, o, n.toClient);
    }
  }

  lemma OnlyAnswersLeft(u: Setup, n: Net, h: History)
    requires u.Valid() && Inv(u, n, h) && Live(u, n) && n.client.ackTime.None?
    ensures Phased(n.toClient, [Answers(u, h)])
  {
    hide Phased, EntryOk, ServerOk, InOrder, RstAfter, Answers;
    assert ClientPhases(u, h) == [Answers(u, h)];
  }

  lemma {:induction false} ClientEventKeeps(u: Setup, n: Net, h: History, ev: Event) returns (h': History)
    requires u.Valid() && Inv(u, n, h) && ev.ClientEvent? && Enabled(u, n, ev) && Allowed(u, n, ev)
    requires Next(u, n, ev).Some?
    ensures Inv(u, Next(u, n, ev).value, h')
  {
    hide ParsePdu, Phased, C.RetryLater, C.StartRecord, C.WriteBlock, EntryOk, ServerOk, InOrder, RstAfter,
         C.HandleNoAck,
         C.Queue, Reads, Refused, ClientPhases;
    var c := n.client;
    var m := n.(queued := n.queued + Joins(c, ev.ev));
    var o := C.Step(u.ccfg, c, ev.ev, ev.env);
    AnyQueued(u, n, h, m.queued);
    assert m.(toClient := m.toClient) == m;
    match ev.ev
    case Queued(item) => h' := QueuedKeeps(u, m, h, item, ev.env);
    case AckTimer => h' := TimeoutKeeps(u, m, h, ev.env);
    case LingerTimer =>
      h' := h.(rst := None);
      ClientLeaves(u, m, h, o, m.toClient);
    case ReconnectTimer =>
      assert false;
    case Rx(rx) =>
      if rx.Closed? {
        P.RetryLaterLeavesSocket(u.ccfg, c, false, ev.env, 0);
        h' := h.(rst := None);
        ClientLeaves(u, m, h, o, m.toClient);
      } else {
        h' := h;
        assert m.(client := c) == m;
        ClientStays(u, m, h, o, m.toClient);
      }
    case AllowConnect =>
      h' := h;
      P.StepSettles(u.ccfg, c, ev.ev, ev.env);
      if c.ackTime.Some? {
        SameBlock(u, c, o.c, h.cli, m.started);
      }
      ClientStays(u, m, h, o, m.toClient);
  }

  lemma LossKeeps(u: Setup, n: Net, h: History, ev: Event)
    requires u.Valid() && Inv(u, n, h) && (ev.LoseToClient? || ev.LoseToServer?) && Enabled(u, n, ev)
    ensures Inv(u, Next(u, n, ev).value, h)
  {
    hide ParsePdu, Phased, EntryOk, ServerOk, InOrder, RstAfter, Awaiting, ClientPhases;
    if ev.LoseToClient? {
      if Live(u, n) {
        PhasedWithout(n.toClient, ClientPhases(u, h), ev.i);
      }
    } else {
      PhasedWithout(n.toServer, ServerPhases(h), ev.i);
    }
  }

  /** Every event of the joined system keeps the invariant. */
  lemma StepKeeps(u: Setup, n: Net, h: History, ev: Event) returns (h': History)
    requires u.Valid() && Inv(u, n, h) && Enabled(u, n, ev) && Allowed(u, n, ev) && Next(u, n, ev).Some?
    ensures Inv(u, Next(u, n, ev).value, h')
  {
    hide Inv, Next, Allowed;
    match ev
    case ClientEvent(_, _) => h' := ClientEventKeeps(u, n, h, ev);
    case DeliverToClient(_, _) => h' := DeliverToClientKeeps(u, n, h, ev);
    case DeliverToServer(_, senv) =>
      assert senv.replyToOk by { AllowedReply(u, n, ev); }
      h' := DeliverToServerKeeps(u, n, h, ev);
    case _ =>
      h' := h;
      LossKeeps(u, n, h, ev);
  }

  lemma AllowedReply(u: Setup, n: Net, ev: Event)
    requires u.Valid() && Enabled(u, n, ev) && Allowed(u, n, ev) && ev.DeliverToServer?
    ensures ev.senv.replyToOk
  {
  }

  lemma InitHolds(u: Setup, n: Net) returns (h: History)
    requires u.Valid() && Init(u, n)
    ensures Inv(u, n, h)
  {
    hide ParsePdu, C.WriteBlock, Carries, Reads, Refused;
    var c := n.client;
    NewEntryOk(u, c, n.started);
    var e := EntryOf(u, c, 0);
    h := History(e, None, Rejected, false, e, None, []);
    assert ServerPhases(h) == [iset{e.pdu}];
    assert n.toServer[1..] == [];
    assert Phased([], [iset{e.pdu}]);
    assert Phased(n.toServer, ServerPhases(h)) && Phased(n.toClient, ClientPhases(u, h));
    assert ClientOk(u, n, h);
  }
}
