/**
 The end-to-end theorem of block-wise transfer: what every run of the joined client and server delivers, in terms of the
 records that entered the client's send queue.
 */
module CoapEndToEnd {
  import opened CommonDefs
  import opened CoapCodec
  import opened CoapChannels
  import opened CoapProtocol
  import C = CoapClient
  import S = CoapServer
  import P = CoapClientProofs
  import Q = CoapClientQueue

  // ---------------------------------------------------------------- places in the queue

  /** Proof-only: where in the history of the queue each started record and each record still queued is. */
  datatype Places = Places(starts: seq<nat>, queue: seq<nat>)

  function Last(s: seq<nat>): nat
    requires s != []
  {
    s[|s| - 1]
  }

  /** Records are started in the order they were queued; a record the client waits to start comes after all of them. */
  predicate Placed(u: Setup, n: Net, g: Places) {
    && InOrder(n.started, n.queued, g.starts)
    && (Live(u, n) ==>
          && InOrder(Payloads(n.client.queue), n.queued, g.queue) && g.starts != []
          && (n.client.queue != [] ==>
                && Last(g.starts) <= g.queue[0]
                && (n.client.ackTime.None? ==> Last(g.starts) < g.queue[0])))
  }

  lemma PayloadsTail(q: seq<C.Item>)
    requires q != []
    ensures Payloads(q)[1..] == Payloads(q[1..]) && Payloads(q)[0] == q[0].payload
  {
  }

  lemma InOrderTail(q: seq<C.Item>, queued: seq<bytes>, pos: seq<nat>)
    requires q != [] && InOrder(Payloads(q), queued, pos)
    ensures InOrder(Payloads(q[1..]), queued, pos[1..]) && forall i :: 0 <= i < |pos[1..]| ==> pos[0] < pos[1..][i]
  {
    PayloadsTail(q);
  }

  /** The places of a selection of the queue. */
  lemma {:induction false} Select(r: seq<C.Item>, q: seq<C.Item>, queued: seq<bytes>, pos: seq<nat>)
    returns (places: seq<nat>)
    requires Q.SubSeq(r, q) && InOrder(Payloads(q), queued, pos)
    ensures InOrder(Payloads(r), queued, places) && forall x :: x in places ==> x in pos
    decreases |q|
  {
    if r == [] {
      places := [];
    } else {
      InOrderTail(q, queued, pos);
      if r[0] == q[0] && Q.SubSeq(r[1..], q[1..]) {
        var rest := Select(r[1..], q[1..], queued, pos[1..]);
        places := [pos[0]] + rest;
        PayloadsTail(r);
        SelectHead(r, q, queued, pos, rest);
      } else {
        places := Select(r, q[1..], queued, pos[1..]);
      }
    }
  }

  lemma SelectHead(r: seq<C.Item>, q: seq<C.Item>, queued: seq<bytes>, pos: seq<nat>, rest: seq<nat>)
    requires r != [] && q != [] && r[0] == q[0] && InOrder(Payloads(q), queued, pos)
    requires InOrder(Payloads(r[1..]), queued, rest) && forall x :: x in rest ==> x in pos[1..]
    requires forall i :: 0 <= i < |pos[1..]| ==> pos[0] < pos[1..][i]
    ensures InOrder(Payloads(r), queued, [pos[0]] + rest)
  {
    var p, places := Payloads(r), [pos[0]] + rest;
    PayloadsTail(r);
    PayloadsTail(q);
    forall i, j | 0 <= i < j < |places| ensures places[i] < places[j] {
      assert places[j] == rest[j - 1] && rest[j - 1] in pos[1..];
      assert i > 0 ==> places[i] == rest[i - 1];
    }
    forall i | 0 <= i < |places| ensures places[i] < |queued| && p[i] == queued[places[i]] {
      assert i > 0 ==> places[i] == rest[i - 1] && p[i] == p[1..][i - 1];
    }
  }

  lemma InOrderGrows(xs: seq<bytes>, ys: seq<bytes>, idx: seq<nat>, more: seq<bytes>)
    requires InOrder(xs, ys, idx)
    ensures InOrder(xs, ys + more, idx)
  {
  }

  lemma InOrderSnoc(xs: seq<bytes>, ys: seq<bytes>, idx: seq<nat>, x: bytes, k: nat)
    requires InOrder(xs, ys, idx) && k < |ys| && ys[k] == x && (idx != [] ==> Last(idx) < k)
    ensures InOrder(xs + [x], ys, idx + [k])
  {
    assert forall i :: 0 <= i < |idx| ==> idx[i] <= Last(idx);
  }

  lemma InOrderTrans(xs: seq<bytes>, ys: seq<bytes>, zs: seq<bytes>, idx: seq<nat>, places: seq<nat>)
    requires InOrder(xs, ys, idx) && InOrder(ys, zs, places)
    ensures InOrder(xs, zs, seq(|idx|, i requires 0 <= i < |idx| => places[idx[i]]))
  {
  }

  // ---------------------------------------------------------------- one step

  /** The queue with the record that joins it, and its places. */
  lemma EnteredPlaces(q: seq<C.Item>, queued: seq<bytes>, pos: seq<nat>, c: Client, e: C.Event, ch: Q.Change)
    returns (entered: seq<nat>)
    requires c.queue == q && InOrder(Payloads(q), queued, pos) && Q.CanMake(q, e, ch)
    ensures InOrder(Payloads(Q.Entered(q, ch)), queued + Joins(c, e), entered)
    ensures q != [] ==> entered != [] && entered[0] == pos[0]
    ensures q == [] ==> forall x :: x in entered ==> x == |queued|
  {
    InOrderGrows(Payloads(q), queued, pos, Joins(c, e));
    entered := pos;
    if ch.Joined? {
      entered := pos + [|queued|];
      var ys, item := queued + [ch.item.payload], ch.item;
      assert Joins(c, e) == [item.payload];
      assert Payloads(q + [item]) == Payloads(q) + [item.payload];
      assert pos != [] ==> Last(pos) < |queued|;
      InOrderSnoc(Payloads(q), ys, pos, item.payload, |queued|);
    } else {
      assert Joins(c, e) == [];
      assert queued + [] == queued;
    }
  }

  lemma FirstPlace(places: seq<nat>, pos: seq<nat>)
    requires Increasing(pos) && forall x :: x in places ==> x in pos
    ensures places != [] ==> pos != [] && places[0] >= pos[0]
  {
    if places != [] {
      assert places[0] in pos;
    }
  }

  /** A step of the client that stays on its socket. */
  lemma StayingPlaces(u: Setup, n: Net, g: Places, e: C.Event, env: nat -> C.Env, toClient: seq<bytes>)
    returns (g': Places)
    requires u.Valid() && Placed(u, n, g) && Live(u, n) && P.Sound(n.client) && C.Enabled(n.client, e)
    requires var o := C.Step(u.ccfg, n.client, e, env); o.Running? && o.c.sock == n.client.sock
    ensures var m := n.(queued := n.queued + Joins(n.client, e), toClient := toClient);
      Placed(u, ClientTurn(u, m, C.Step(u.ccfg, n.client, e, env)), g')
  {
    hide C.Step, Q.SubSeq, Q.QueueAfter;
    var c := n.client;
    var o := C.Step(u.ccfg, c, e, env);
    var ch := Q.StepQueue(u.ccfg, c, e, env);
    var more := Joins(c, e);
    var entered := EnteredPlaces(c.queue, n.queued, g.queue, c, e, ch);
    Q.ChangeSubSeq(c.queue, ch, env);
    InOrderGrows(n.started, n.queued, g.starts, more);
    assert n.started + [] == n.started;
    assert Last(g.starts) < |n.queued|;
    if Q.KeepsHead(c.queue, ch) {
      var places := Select(o.c.queue, Q.Entered(c.queue, ch), n.queued + more, entered);
      FirstPlace(places, entered);
      g' := Places(g.starts, places);
      assert !StartsRecord(u, c, o);
      HeadKept(c.queue, ch, env);
    } else {
      InOrderGrows(Payloads(c.queue), n.queued, g.queue, more);
      var places := NewHead(c.queue, ch, env, n.queued + more, g.queue, entered);
      assert places != [] ==> Last(g.starts) < places[0];
      if StartsRecord(u, c, o) {
        assert Payloads(o.c.queue)[0] == o.c.queue[0].payload;
        InOrderSnoc(n.started, n.queued + more, g.starts, o.c.queue[0].payload, places[0]);
        g' := Places(g.starts + [places[0]], places);
        assert Last(g'.starts) == places[0];
        StartWaits(u, c, e, env);
      } else {
        g' := Places(g.starts, places);
      }
    }
  }

  /** When the head goes, what is left comes behind its place; a record that joins an empty queue comes behind all. */
  lemma NewHead(q: seq<C.Item>, ch: Q.Change, env: nat -> C.Env, queued: seq<bytes>, pos: seq<nat>, entered: seq<nat>)
    returns (places: seq<nat>)
    requires !Q.KeepsHead(q, ch) && !ch.Restarted? && InOrder(Payloads(q), queued, pos)
    requires InOrder(Payloads(Q.Entered(q, ch)), queued, entered)
    ensures InOrder(Payloads(Q.QueueAfter(q, ch, env)), queued, places)
    ensures places != [] && q != [] ==> pos[0] < places[0]
    ensures places != [] && q == [] ==> places[0] in entered
  {
    hide Q.SubSeq, Q.AfterDrops;
    var r := Q.QueueAfter(q, ch, env);
    if q == [] {
      Q.ChangeSubSeq(q, ch, env);
      places := Select(r, Q.Entered(q, ch), queued, entered);
    } else {
      Q.ChangeLosesHead(q, ch, env);
      InOrderTail(q, queued, pos);
      places := Select(r, q[1..], queued, pos[1..]);
      assert places != [] ==> places[0] in pos[1..];
    }
  }

  lemma HeadKept(q: seq<C.Item>, ch: Q.Change, env: nat -> C.Env)
    requires Q.KeepsHead(q, ch)
    ensures Q.QueueAfter(q, ch, env) != [] ==> q != []
  {
  }

  /** A record that is sent is waited for. */
  lemma StartWaits(u: Setup, c: Client, e: C.Event, env: nat -> C.Env)
    requires u.Valid() && P.Sound(c) && C.Enabled(c, e)
    ensures var o := C.Step(u.ccfg, c, e, env); o.Running? && o.sent.Some? ==> o.c.ackTime.Some?
  {
    hide C.Step, C.WriteBlock;
    P.StepSettles(u.ccfg, c, e, env);
  }

  lemma StepPlaces(u: Setup, n: Net, g: Places, ev: Event) returns (g': Places)
    requires u.Valid() && Placed(u, n, g) && (Live(u, n) ==> P.Sound(n.client)) && Enabled(u, n, ev)
    requires Next(u, n, ev).Some?
    ensures Placed(u, Next(u, n, ev).value, g')
  {
    hide C.Step, S.Receive;
    g' := g;
    assert n.queued + [] == n.queued && n.started + [] == n.started;
    if ev.ClientEvent? || ev.DeliverToClient? {
      var e := if ev.ClientEvent? then ev.ev else C.Rx(C.Data(n.toClient[0]));
      var toClient := if ev.ClientEvent? then n.toClient else Popped(n.toClient, ev.repeated);
      var o := C.Step(u.ccfg, n.client, e, ev.env);
      var m := n.(queued := n.queued + Joins(n.client, e), toClient := toClient);
      assert ev.ClientEvent? ==> m == n.(queued := n.queued + Joins(n.client, e));
      assert ev.DeliverToClient? ==> m == n.(toClient := toClient);
      assert Next(u, n, ev) == Some(ClientTurn(u, m, o));
      if o.c.sock == n.client.sock {
        g' := StayingPlaces(u, n, g, e, ev.env, toClient);
      } else {
        InOrderGrows(n.started, n.queued, g.starts, Joins(n.client, e));
      }
    }
  }

  lemma InitPlaces(u: Setup, n: Net) returns (g: Places)
    requires u.Valid() && Init(u, n)
    ensures Placed(u, n, g)
  {
    hide C.WriteBlock;
    var q := n.client.queue;
    g := Places([0], seq(|q|, i => i));
    assert Payloads(q)[0] == q[0].payload;
  }

  // ---------------------------------------------------------------- the theorem

  predicate IsStep(u: Setup, n: Net, ev: Event, n': Net)
    requires u.Valid()
  {
    Enabled(u, n, ev) && Allowed(u, n, ev) && Next(u, n, ev) == Some(n')
  }

  predicate IsRun(u: Setup, ns: seq<Net>, evs: seq<Event>)
    requires u.Valid()
  {
    && |ns| == |evs| + 1 && Init(u, ns[0])
    && forall i :: 0 <= i < |evs| ==> IsStep(u, ns[i], evs[i], ns[i + 1])
  }

  lemma {:induction false} InvHolds(u: Setup, ns: seq<Net>, evs: seq<Event>, i: nat) returns (h: History, g: Places)
    requires u.Valid() && IsRun(u, ns, evs) && i < |ns|
    ensures Inv(u, ns[i], h) && Placed(u, ns[i], g)
  {
    hide Inv, Next, Allowed, Init, Placed;
    if i == 0 {
      h := InitHolds(u, ns[0]);
      g := InitPlaces(u, ns[0]);
    } else {
      var k, f := InvHolds(u, ns, evs, i - 1);
      assert IsStep(u, ns[i - 1], evs[i - 1], ns[i]);
      h := StepKeeps(u, ns[i - 1], k, evs[i - 1]);
      SoundWhileLive(u, ns[i - 1], k);
      g := StepPlaces(u, ns[i - 1], f, evs[i - 1]);
    }
  }

  lemma SoundWhileLive(u: Setup, n: Net, h: History)
    requires u.Valid() && Inv(u, n, h)
    ensures Live(u, n) ==> P.Sound(n.client)
  {
    hide EntryOk, ServerOk, InOrder, Phased, Awaiting, RstAfter;
  }

  /** The client takes the datagram as a 'Changed' response to the record at the head of its queue. */
  predicate TakesAsChanged(u: Setup, c: Client, data: bytes) {
    var r := ParsePdu(data, u.ccfg.queryOk);
    && r.flags == {} && c.queue != [] && r.pdu.hdr.cls == S.CLASS_SUCCESS
    && C.AckActions(c, r.pdu) == SendNextUspRecord
  }

  /**
   End to end, in every state of every run: the records the server posted are records of the client's send queue, byte
   for byte, in queue order and none twice, and so are the records the client started; and when a client that waits for
   an ACK takes one as 'Changed', the record it is sending, the latest it started, has already been posted.
   */
  lemma EndToEnd(u: Setup, ns: seq<Net>, evs: seq<Event>, i: nat) returns (idx: seq<nat>, starts: seq<nat>)
    requires u.Valid() && IsRun(u, ns, evs) && i < |ns|
    ensures InOrder(ns[i].posted, ns[i].queued, idx) && InOrder(ns[i].started, ns[i].queued, starts)
    ensures Live(u, ns[i]) && ns[i].client.ackTime.Some? && ns[i].toClient != [] &&
            TakesAsChanged(u, ns[i].client, ns[i].toClient[0]) ==>
      && idx != [] && starts != [] && Last(idx) == Last(starts)
      && ns[i].posted[|idx| - 1] == ns[i].client.queue[0].payload == ns[i].started[|starts| - 1]
  {
    hide Phased, Next, Allowed, Init, Carries, InSync, C.WriteBlock, Follows, Inv, IsRun, TakesAsChanged;
    var h, g := InvHolds(u, ns, evs, i);
    var n := ns[i];
    starts := g.starts;
    PostedInOrder(u, n, h);
    InOrderTrans(n.posted, n.started, n.queued, h.idx, g.starts);
    idx := seq(|h.idx|, i requires 0 <= i < |h.idx| => g.starts[h.idx[i]]);
    if Live(u, n) && n.client.ackTime.Some? && n.toClient != [] && TakesAsChanged(u, n.client, n.toClient[0]) {
      ChangedIsAccepted(u, n, h);
    }
  }

  lemma PostedInOrder(u: Setup, n: Net, h: History)
    requires u.Valid() && Inv(u, n, h)
    ensures InOrder(n.posted, n.started, h.idx)
  {
    hide InOrder, EntryOk, ServerOk, Phased, ClientOk, RstAfter;
  }

  lemma ChangedIsAccepted(u: Setup, n: Net, h: History)
    requires u.Valid() && Inv(u, n, h) && Live(u, n) && n.client.ackTime.Some?
    requires n.toClient != [] && TakesAsChanged(u, n.client, n.toClient[0])
    ensures h.idx != [] && Last(h.idx) == |n.started| - 1 && n.started != []
    ensures |n.posted| == |h.idx| && n.posted[|h.idx| - 1] == n.client.queue[0].payload == n.started[|n.started| - 1]
  {
    hide ParsePdu, Phased, Carries, InSync, C.WriteBlock, Reads, Refused;
    UnfoldEntry(u, h.cli, n.started);
    ClientReads(u, n, h, false);
    assert !Unseen(h) && h.verdict.Accepted?;
  }

  // ---------------------------------------------------------------- the permission to connect

  /** The client may connect whenever it looks. */
  predicate Permitted(evs: seq<Event>) {
    forall i :: 0 <= i < |evs| ==>
      && (evs[i].ClientEvent? ==> evs[i].env(0).allowed)
      && (evs[i].DeliverToClient? ==> evs[i].env(0).allowed)
  }

  lemma {:induction false} AlwaysWaiting(u: Setup, ns: seq<Net>, evs: seq<Event>, i: nat)
    requires u.Valid() && IsRun(u, ns, evs) && Permitted(evs) && i < |ns|
    ensures Live(u, ns[i]) ==> P.NotStranded(ns[i].client)
  {
    hide Init, Inv, Next, Allowed, Placed;
    if i == 0 {
      InitWaits(u, ns[0]);
    } else {
      AlwaysWaiting(u, ns, evs, i - 1);
      assert IsStep(u, ns[i - 1], evs[i - 1], ns[i]);
      var h, g := InvHolds(u, ns, evs, i - 1);
      SoundWhileLive(u, ns[i - 1], h);
      assert evs[i - 1].ClientEvent? || evs[i - 1].DeliverToClient? ==> evs[i - 1].env(0).allowed;
      WaitingStep(u, ns[i - 1], evs[i - 1]);
    }
  }

  lemma InitWaits(u: Setup, n: Net)
    requires u.Valid() && Init(u, n)
    ensures P.NotStranded(n.client)
  {
    hide C.WriteBlock;
  }

  lemma WaitingStep(u: Setup, n: Net, ev: Event)
    requires u.Valid() && Enabled(u, n, ev) && Next(u, n, ev).Some? && (Live(u, n) ==> P.Sound(n.client))
    requires Live(u, n) ==> P.NotStranded(n.client)
    requires ev.ClientEvent? || ev.DeliverToClient? ==> ev.env(0).allowed
    ensures Live(u, Next(u, n, ev).value) ==> P.NotStranded(Next(u, n, ev).value.client)
  {
    hide C.Step, S.Receive;
    if ev.ClientEvent? {
      P.StepSettles(u.ccfg, n.client, ev.ev, ev.env);
    } else if ev.DeliverToClient? {
      P.StepSettles(u.ccfg, n.client, C.Rx(C.Data(n.toClient[0])), ev.env);
    }
  }

  /** While the client may connect, 'Changed' is only ever taken for a record that has been posted. */
  lemma ChangedMeansPosted(u: Setup, ns: seq<Net>, evs: seq<Event>, i: nat)
    requires u.Valid() && IsRun(u, ns, evs) && Permitted(evs) && i < |ns|
    requires Live(u, ns[i]) && ns[i].toClient != [] && TakesAsChanged(u, ns[i].client, ns[i].toClient[0])
    ensures ns[i].posted != [] && ns[i].posted[|ns[i].posted| - 1] == ns[i].client.queue[0].payload
  {
    hide IsRun, C.AckActions;
    AlwaysWaiting(u, ns, evs, i);
    var idx, starts := EndToEnd(u, ns, evs, i);
  }

  /**
   Without the permission it is not. A client on an open socket that waits for nothing, but has a record in its queue,
   has never started that record; and it takes a repeated 'Changed' of the record before for it, dropping it as sent,
   if and only if it is no longer than what the last block of that record reached.
   */
  lemma WithdrawnExactly(u: Setup, ns: seq<Net>, evs: seq<Event>, i: nat, ack: Pdu)
    returns (starts: seq<nat>, place: nat)
    requires u.Valid() && IsRun(u, ns, evs) && i < |ns| && Live(u, ns[i])
    requires ns[i].client.ackTime.None? && ns[i].client.queue != []
    requires ns[i].toClient != [] && ParsePdu(ns[i].toClient[0], u.ccfg.queryOk) == Parsed({}, ack)
    requires ack.hdr.pduType.Acknowledgement? && ack.hdr.cls == S.CLASS_SUCCESS && ack.hdr.code == S.CODE_CHANGED
    ensures InOrder(ns[i].started, ns[i].queued, starts) && starts != [] && Last(starts) < place < |ns[i].queued|
    ensures ns[i].queued[place] == ns[i].client.queue[0].payload
    ensures var c := ns[i].client;
      TakesAsChanged(u, c, ns[i].toClient[0]) <==>
        ack.token == c.token && ack.hdr.mid == c.mid && c.bytesSent + c.blockSize >= |c.queue[0].payload|
  {
    hide IsRun, Inv, ParsePdu;
    var h, g := InvHolds(u, ns, evs, i);
    starts, place := g.starts, g.queue[0];
    assert Payloads(ns[i].client.queue)[0] == ns[i].client.queue[0].payload;
  }

  // ---------------------------------------------------------------- where runs start

  /** Runs start where the source starts them: whenever the client starts a record on a socket it has just opened. */
  lemma NewSocketIsInit(u: Setup, c: Client, retry: bool, env: nat -> C.Env)
    requires u.Valid() && P.Startable(c) && c.sock.None?
    requires var o := C.StartRecord(u.ccfg, c, retry, env, 0);
      o.Running? && o.sent.Some? && o.c.sock == Some(u.sock)
    ensures var o := C.StartRecord(u.ccfg, c, retry, env, 0);
      && o.c.queue != []
      && Init(u, Net(o.c, S.FRESH, [o.sent.value], [], Payloads(o.c.queue), [o.c.queue[0].payload], []))
  {
    hide C.StartRecord, C.WriteBlock;
    P.StartRecordSettles(u.ccfg, c, retry, env, 0);
    P.StartRecordSendsFirst(u.ccfg, c, retry, env, 0);
  }
}
