/**
 The send queue and the retry counters of the CoAP client over whole runs.
 */
module CoapClientQueue {
  import opened CommonDefs
  import opened CoapCodec
  import opened CoapClient
  import P = CoapClientProofs

  // ---------------------------------------------------------------- order of the queue

  /** r keeps the order of q and leaves some items out. */
  predicate SubSeq(r: seq<Item>, q: seq<Item>)
    decreases |q|
  {
    if r == [] then true
    else if q == [] then false
    else (r[0] == q[0] && SubSeq(r[1..], q[1..])) || SubSeq(r, q[1..])
  }

  predicate Distinct(q: seq<Item>) {
    forall i, j :: 0 <= i < j < |q| ==> q[i].payload != q[j].payload
  }

  /** The queue after an attempt to start its head and m drops of the head, each followed by another attempt. */
  function AfterDrops(q: seq<Item>, env: nat -> Env, k: nat, m: nat): seq<Item>
    decreases m
  {
    var r := RemoveExpired(q, env(k).now);
    if m == 0 || r == [] then r else AfterDrops(r[1..], env, k + 1, m - 1)
  }

  /** Each of the m drops really drops the head. */
  predicate DropsMade(q: seq<Item>, env: nat -> Env, k: nat, m: nat)
    decreases m
  {
    m == 0 || (q != [] && DropsMade(RemoveExpired(q, env(k).now)[1..], env, k + 1, m - 1))
  }

  /** So the number of drops, and with it the number of times the clock was read, shows in the queue that is left. */
  lemma {:induction false} DropsUnique(q: seq<Item>, env: nat -> Env, k: nat, m: nat, n: nat)
    requires DropsMade(q, env, k, m) && DropsMade(q, env, k, n)
    requires AfterDrops(q, env, k, m) == AfterDrops(q, env, k, n)
    ensures m == n
    decreases m
  {
    if q != [] {
      var r := RemoveExpired(q, env(k).now);
      if m > 0 && n > 0 {
        DropsUnique(r[1..], env, k + 1, m - 1, n - 1);
      } else if m > 0 {
        DropsShorten(r[1..], env, k + 1, m - 1);
      } else if n > 0 {
        DropsShorten(r[1..], env, k + 1, n - 1);
      }
    }
  }

  lemma {:induction false} DropsShorten(q: seq<Item>, env: nat -> Env, k: nat, m: nat)
    requires DropsMade(q, env, k, m)
    ensures |AfterDrops(q, env, k, m)| + m <= |q|
    decreases m
  {
    if m > 0 {
      DropsShorten(RemoveExpired(q, env(k).now)[1..], env, k + 1, m - 1);
    }
  }

  // ---------------------------------------------------------------- what an attempt leaves

  /** The ACK timer is armed for the wait ackMs from now on, in whole seconds. */
  predicate Armed(c: Client, now: int) {
    c.ackTime.Some? && 1000 * (c.ackTime.value - now) <= c.ackMs < 1000 * (c.ackTime.value - now + 1)
  }

  /** The reconnect timer is armed for the wait, in whole seconds, and the next wait is twice as long. */
  predicate RetryArmed(c: Client, now: int, wait: nat, zeroDelay: bool) {
    && c.reconnTime.Some? && c.reconnMs == 2 * wait && c.sock.None? && c.ackTime.None? && c.linger.None?
    && if zeroDelay && c.reconns == 2 then c.reconnTime.value == now
       else 1000 * (c.reconnTime.value - now) <= wait < 1000 * (c.reconnTime.value - now + 1)
  }

  lemma ArmsSeconds(now: int, ms: nat, t: int)
    ensures t == now + Quot(ms, 1000) <==> 1000 * (t - now) <= ms < 1000 * (t - now + 1)
  {
    QuotRemIsDivMod(ms, 1000);
  }

  /** The failures of a record so far, and the wait before its next retry */
  datatype Retries = Retries(failures: nat, wait: nat)

  function Pending(c: Client): Retries {
    Retries(c.reconns, c.reconnMs)
  }

  /** A record that is tried for the first time */
  function Anew(env: nat -> Env, k: nat): Retries {
    Retries(0, env(k).reconnMs)
  }

  /** The attempt k to start a record sent its first block, found none, may not connect, or failed once more. */
  predicate Started(o: Outcome, env: nat -> Env, k: nat, r: Retries) {
    o.Running? ==>
      var c, now := o.c, env(k).now;
      if o.sent.Some? then
        && Armed(c, now) && c.ackMs == env(k).ackMs && c.reconnTime.None? && c.linger.None?
        && Pending(c) == r && c.sock.Some?
      else if c.queue == [] then c.linger == Some(now + 300) && c.reconnTime.None? && c.ackTime.None?
      else if !env(k).allowed then
        c.reconnTime == Some(now + 7 * 24 * 60 * 60) && c.ackTime.None? && c.linger.None? && Pending(c) == r
      else RetryArmed(c, now, r.wait, false) && c.reconns == r.failures + 1
  }

  /** Items leave only from the head, or by expiry behind it: m drops explain every outcome of starting a record. */
  lemma {:induction false} StartRecordQueue(cfg: Config, c: Client, retry: bool, env: nat -> Env, k: nat)
    returns (m: nat)
    requires cfg.Valid()
    ensures var o := StartRecord(cfg, c, retry, env, k);
      o.Running? ==> o.c.queue == AfterDrops(c.queue, env, k, m) && DropsMade(c.queue, env, k, m)
    ensures Started(StartRecord(cfg, c, retry, env, k), env, k + m,
                    if retry && m == 0 then Pending(c) else Anew(env, k + m))
    ensures m <= 1 && (m == 1 ==> retry && c.reconns + 1 >= MAX_COAP_RECONNECTS)
    decreases |c.queue|, 5
  {
    hide RetryLater, StartAt, Armed, RetryArmed;
    var e := env(k);
    var c1 := Cleared(c, retry, e);
    m := 0;
    if c1.queue != [] && e.allowed {
      if e.addr.None? {
        m := RetryLaterQueue(cfg, c1, false, env, k);
      } else {
        m := StartAtQueue(cfg, c1, e.addr.value, env, k);
      }
    }
  }

  lemma {:induction false} StartAtQueue(cfg: Config, c: Client, addr: nat, env: nat -> Env, k: nat) returns (m: nat)
    requires cfg.Valid() && c.queue != []
    ensures var o := StartAt(cfg, c, addr, env, k);
      o.Running? ==> o.c.queue == Dropped(c.queue, env, k, m) && HeadDropsMade(c.queue, env, k, m)
    ensures env(k).allowed && c.reconnTime.None? && c.linger.None? ==>
              Started(StartAt(cfg, c, addr, env, k), env, k + m, if m == 0 then Pending(c) else Anew(env, k + m))
    ensures m <= 1 && (m == 1 ==> c.reconns + 1 >= MAX_COAP_RECONNECTS)
    decreases |c.queue|, 4
  {
    hide RetryLater, SendFirst, Armed;
    var c1 := (if SamePeer(c, addr) then c else Stop(c)).(ackMs := env(k).ackMs, retrans := 0);
    var c2 := Connected(c1, addr);
    if c1.sock.Some? {
      m := SendFirstQueue(cfg, c1, env, k);
    } else if env(k).connectOk {
      m := SendFirstQueue(cfg, c2, env, k);
    } else {
      m := RetryLaterQueue(cfg, c2, false, env, k);
    }
  }

  /** RetryLater and SendFirst leave the queue alone, or drop m items, the first being its head. */
  function Dropped(q: seq<Item>, env: nat -> Env, k: nat, m: nat): seq<Item> {
    if m == 0 || q == [] then q else AfterDrops(q[1..], env, k + 1, m - 1)
  }

  predicate HeadDropsMade(q: seq<Item>, env: nat -> Env, k: nat, m: nat) {
    m == 0 || (q != [] && DropsMade(q[1..], env, k + 1, m - 1))
  }

  lemma {:induction false} RetryLaterQueue(cfg: Config, c: Client, zeroDelay: bool, env: nat -> Env, k: nat)
    returns (m: nat)
    requires cfg.Valid()
    ensures var o := RetryLater(cfg, c, zeroDelay, env, k);
      o.Running? ==>
        && o.c.queue == Dropped(c.queue, env, k, m) && HeadDropsMade(c.queue, env, k, m)
        && (m == 0 ==> o.c.sock.None? && o.sent.None?)
        && (m == 0 && c.queue != [] ==>
              o.c.reconns == c.reconns + 1 < MAX_COAP_RECONNECTS
              && RetryArmed(o.c, env(k).now, c.reconnMs, zeroDelay))
    ensures m > 0 ==> Started(RetryLater(cfg, c, zeroDelay, env, k), env, k + m, Anew(env, k + m))
    ensures m <= 1 && (m == 1 ==> c.reconns + 1 >= MAX_COAP_RECONNECTS)
    decreases |c.queue|, 1
  {
    hide StartRecord, Armed, Started;
    m := 0;
    ArmsSeconds(env(k).now, c.reconnMs, env(k).now + Quot(c.reconnMs, 1000));
    var c1 := Stop(c).(reconns := c.reconns + 1);
    if c1.reconns >= MAX_COAP_RECONNECTS && c1.queue != [] {
      m := StartRecordQueue(cfg, c1.(queue := c1.queue[1..]), false, env, k + 1);
      m := m + 1;
    }
  }

  lemma {:induction false} SendFirstQueue(cfg: Config, c: Client, env: nat -> Env, k: nat) returns (m: nat)
    requires cfg.Valid() && c.queue != []
    ensures var o := SendFirst(cfg, c, env, k);
      o.Running? ==> o.c.queue == Dropped(c.queue, env, k, m) && HeadDropsMade(c.queue, env, k, m)
    ensures env(k).allowed && c.sock.Some? && c.ackMs == env(k).ackMs && c.reconnTime.None? && c.linger.None? ==>
              Started(SendFirst(cfg, c, env, k), env, k + m, if m == 0 then Pending(c) else Anew(env, k + m))
    ensures m <= 1 && (m == 1 ==> c.reconns + 1 >= MAX_COAP_RECONNECTS)
    decreases |c.queue|, 3
  {
    hide WriteBlock, RetryLater;
    var c1 := FirstBlock(cfg, c, env(k));
    if env(k).query.None? {
      m := RetryLaterQueue(cfg, c1, false, env, k);
    } else {
      var c2 := c1.(query := env(k).query.value);
      m := SendBlockQueue(cfg, c2, false, env, k);
    }
  }

  lemma {:induction false} SendBlockQueue(cfg: Config, c: Client, zeroDelay: bool, env: nat -> Env, k: nat)
    returns (m: nat)
    requires cfg.Valid() && Sending(c)
    ensures var o := SendBlock(cfg, c, zeroDelay, env, k);
      o.Running? ==>
        && o.c.queue == Dropped(c.queue, env, k, m) && HeadDropsMade(c.queue, env, k, m)
        && (m == 0 ==>
              || (o.c.reconns == c.reconns && o.c.sock == c.sock && o.c.mid == c.mid && o.c.curBlock == c.curBlock
                  && o.sent.Some? && Armed(o.c, env(k).now) && o.c.ackMs == c.ackMs && o.c.reconnTime == c.reconnTime
                  && o.c.linger == c.linger && o.c.reconnMs == c.reconnMs)
              || (o.c.reconns == c.reconns + 1 < MAX_COAP_RECONNECTS && o.c.sock.None? && o.sent.None?
                  && RetryArmed(o.c, env(k).now, c.reconnMs, zeroDelay)))
    ensures m > 0 ==> Started(SendBlock(cfg, c, zeroDelay, env, k), env, k + m, Anew(env, k + m))
    ensures m <= 1 && (m == 1 ==> c.reconns + 1 >= MAX_COAP_RECONNECTS)
    decreases |c.queue|, 2
  {
    hide WriteBlock, RetryLater, Started, RetryArmed;
    m := 0;
    ArmsSeconds(env(k).now, c.ackMs, env(k).now + Quot(c.ackMs, 1000));
    if WriteBlock(cfg, c).Some? && !env(k).sendOk {
      m := RetryLaterQueue(cfg, c.(ackTime := Some(env(k).now + Quot(c.ackMs, 1000))), zeroDelay, env, k);
    }
  }

  // ---------------------------------------------------------------- what that means for the items

  lemma {:induction false} SubSeqRefl(q: seq<Item>)
    ensures SubSeq(q, q)
  {
    if q == [] {
    } else {
      SubSeqRefl(q[1..]);
    }
  }

  lemma {:induction false} SubSeqTrans(a: seq<Item>, b: seq<Item>, c: seq<Item>)
    requires SubSeq(a, b) && SubSeq(b, c)
    ensures SubSeq(a, c)
    decreases |c|
  {
    if a == [] {
    } else {
      if SubSeq(b, c[1..]) {
        SubSeqTrans(a, b, c[1..]);
      } else if a[0] == b[0] && SubSeq(a[1..], b[1..]) {
        SubSeqTrans(a[1..], b[1..], c[1..]);
      } else {
        SubSeqTrans(a, b[1..], c[1..]);
      }
    }
  }

  lemma {:induction false} SubSeqTail(r: seq<Item>, q: seq<Item>)
    requires r != [] && SubSeq(r, q)
    ensures SubSeq(r[1..], q)
    decreases |q|
  {
    if !(r[0] == q[0] && SubSeq(r[1..], q[1..])) {
      SubSeqTail(r, q[1..]);
    }
  }

  lemma {:induction false} UnexpiredSubSeq(q: seq<Item>, now: int)
    ensures SubSeq(Unexpired(q, now), q)
    ensures forall x :: x in Unexpired(q, now) <==> x in q && now <= x.expiry
  {
    if q == [] {
    } else {
      UnexpiredSubSeq(q[1..], now);
      var r := Unexpired(q[1..], now);
      if now <= q[0].expiry {
        assert ([q[0]] + r)[1..] == r;
      } else {
        assert [] + r == r;
      }
    }
  }

  /** Expiry yields the head followed by exactly the unexpired rest, in order. */
  lemma ExpiryExact(q: seq<Item>, now: int)
    requires q != []
    ensures var r := RemoveExpired(q, now);
      && r[0] == q[0] && SubSeq(r, q) && SubSeq(r[1..], q[1..])
      && forall x :: x in r[1..] <==> x in q[1..] && now <= x.expiry
  {
    UnexpiredSubSeq(q[1..], now);
    assert RemoveExpired(q, now)[1..] == Unexpired(q[1..], now);
  }

  lemma {:induction false} AfterDropsSubSeq(q: seq<Item>, env: nat -> Env, k: nat, m: nat)
    ensures SubSeq(AfterDrops(q, env, k, m), q)
    ensures m > 0 && q != [] ==> SubSeq(AfterDrops(q, env, k, m), q[1..])
    decreases m
  {
    hide SubSeq, RemoveExpired;
    var r := RemoveExpired(q, env(k).now);
    SubSeqRefl(q);
    if q == [] {
      return;
    }
    ExpiryExact(q, env(k).now);
    if m == 0 {
    } else {
      AfterDropsSubSeq(r[1..], env, k + 1, m - 1);
      var d := AfterDrops(r[1..], env, k + 1, m - 1);
      SubSeqTrans(d, r[1..], q[1..]);
      SubSeqBehind(d, q);
    }
  }

  lemma SubSeqBehind(r: seq<Item>, q: seq<Item>)
    requires q != [] && SubSeq(r, q[1..])
    ensures SubSeq(r, q)
  {
  }

  lemma {:induction false} SubSeqMember(r: seq<Item>, q: seq<Item>, i: nat)
    requires SubSeq(r, q) && i < |r|
    ensures exists j :: 0 <= j < |q| && q[j] == r[i]
    decreases |q|
  {
    if r[0] == q[0] && SubSeq(r[1..], q[1..]) {
      if i > 0 {
        SubSeqMember(r[1..], q[1..], i - 1);
        var j :| 0 <= j < |q[1..]| && q[1..][j] == r[1..][i - 1];
        assert q[j + 1] == r[i];
      }
    } else {
      SubSeqMember(r, q[1..], i);
      var j :| 0 <= j < |q[1..]| && q[1..][j] == r[i];
      assert q[j + 1] == r[i];
    }
  }

  lemma {:induction false} SubSeqDistinct(r: seq<Item>, q: seq<Item>)
    requires SubSeq(r, q) && Distinct(q)
    ensures Distinct(r)
    decreases |q|
  {
    if r == [] {
    } else {
      if r[0] == q[0] && SubSeq(r[1..], q[1..]) {
        SubSeqDistinct(r[1..], q[1..]);
        forall i, j | 0 <= i < j < |r| ensures r[i].payload != r[j].payload {
          if i == 0 {
            SubSeqMember(r[1..], q[1..], j - 1);
            var l :| 0 <= l < |q[1..]| && q[1..][l] == r[1..][j - 1];
            assert q[l + 1].payload == r[j].payload;
          } else {
            assert r[1..][i - 1].payload != r[1..][j - 1].payload;
          }
        }
      } else {
        SubSeqDistinct(r, q[1..]);
      }
    }
  }

  lemma {:induction false} SubSeqGrows(r: seq<Item>, q: seq<Item>, x: Item)
    requires SubSeq(r, q)
    ensures SubSeq(r, q + [x]) && SubSeq(r + [x], q + [x])
    decreases |q|
  {
    if q == [] {
      assert r + [x] == [x] && q + [x] == [x];
      SubSeqRefl([x]);
    } else {
      assert (q + [x])[1..] == q[1..] + [x];
      if r != [] && r[0] == q[0] && SubSeq(r[1..], q[1..]) {
        SubSeqGrows(r[1..], q[1..], x);
        assert (r + [x])[1..] == r[1..] + [x];
      } else {
        SubSeqGrows(r, q[1..], x);
      }
    }
  }

  lemma DroppedSubSeq(q: seq<Item>, env: nat -> Env, k: nat, m: nat)
    ensures SubSeq(Dropped(q, env, k, m), q)
    ensures m > 0 && q != [] ==> SubSeq(Dropped(q, env, k, m), q[1..])
  {
    hide AfterDrops;
    SubSeqRefl(q);
    if m > 0 && q != [] {
      AfterDropsSubSeq(q[1..], env, k + 1, m - 1);
    }
  }

  // ---------------------------------------------------------------- one step

  /** The record an event offers to the queue. */
  function Offered(ev: Event): seq<Item> {
    if ev.Queued? then [ev.item] else []
  }

  /** How a step can change the queue; m counts the drops of the head that follow. */
  datatype Change = Untouched | Joined(item: Item, m: nat) | Failed(m: nat) | Advanced(m: nat) | Restarted(m: nat)

  /**
   The queue after each change. A new record goes behind the unexpired others, or is started if it is alone; after a
   failure or an attempt to start the head, the head may be dropped, and the next one, each after expiry behind it.
   */
  function QueueAfter(q: seq<Item>, ch: Change, env: nat -> Env): seq<Item> {
    match ch
    case Untouched => q
    case Joined(item, m) =>
      if q == [] then AfterDrops([item], env, 0, m) else RemoveExpired(q, env(0).now) + [item]
    case Failed(m) => Dropped(q, env, 0, m)
    case Advanced(m) => if q == [] then [] else AfterDrops(q[1..], env, 0, m)
    case Restarted(m) => AfterDrops(q, env, 0, m)
  }

  /** All the drops of a change are made. */
  predicate Made(q: seq<Item>, ch: Change, env: nat -> Env) {
    match ch
    case Untouched => true
    case Joined(item, m) => if q == [] then DropsMade([item], env, 0, m) else m == 0
    case Failed(m) => HeadDropsMade(q, env, 0, m)
    case Advanced(m) => if q == [] then m == 0 else DropsMade(q[1..], env, 0, m)
    case Restarted(m) => DropsMade(q, env, 0, m)
  }

  /** The attempts of the change that read the clock: from the first (a failure comes before any) up to the m-th drop */
  function FirstReading(ch: Change): nat {
    if ch.Failed? then 1 else 0
  }

  function ReadingsEnd(ch: Change): nat {
    if ch.Untouched? then 0 else ch.m + 1
  }

  /** The queue the change starts from: with the new record behind it, if there is one. */
  function Entered(q: seq<Item>, ch: Change): seq<Item> {
    if ch.Joined? then q + [ch.item] else q
  }

  /** The changes an event can make: a record already queued is refused, and only a record that is not joins. */
  predicate CanMake(q: seq<Item>, ev: Event, ch: Change) {
    match ev
    case Queued(item) => if InQueue(q, item.payload) then ch.Untouched? else ch.Joined? && ch.item == item
    case Rx(_) => ch.Untouched? || ch.Failed? || ch.Advanced?
    case AckTimer => ch.Failed? || ch.Advanced?
    case ReconnectTimer => ch.Restarted?
    case _ => ch.Untouched?
  }

  /** The changes that leave the head of the queue where it is. */
  predicate KeepsHead(q: seq<Item>, ch: Change) {
    ch.Untouched? || ch == Failed(0) || (ch.Joined? && q != [])
  }

  /** On a socket that stays open, no record is started, and a client that waits for an ACK goes on doing so. */
  predicate SameRecord(c: Client, o: Outcome) {
    o.Running? && c.sock.Some? && o.c.sock == c.sock ==>
      && (o.sent.None? || o.c.mid == c.mid || o.c.curBlock > 0)
      && (o.c.ackTime.None? ==> c.ackTime.None?)
  }

  /**
   The timers after a change. Whenever a PDU was sent, the ACK timer is armed from the clock reading of the attempt that
   sent it; a failed attempt arms the reconnect timer and doubles the next wait; an empty queue lingers.
   */
  predicate TimesAfter(c: Client, o: Outcome, ch: Change, zeroDelay: bool, env: nat -> Env) {
    o.Running? ==>
      && (o.sent.Some? ==> !ch.Untouched? && o.c.sock.Some? && Armed(o.c, env(ch.m).now))
      && match ch
         case Untouched => o.c.reconnMs == c.reconnMs && o.c.reconns == c.reconns
         case Joined(_, m) =>
           if c.queue == [] then Started(o, env, m, Anew(env, m))
           else o == Running(c.(queue := o.c.queue), None, None)
         case Failed(m) =>
           if m > 0 then Started(o, env, m, Anew(env, m))
           else if o.sent.None? && c.queue != [] then
             RetryArmed(o.c, env(0).now, c.reconnMs, zeroDelay) && c.reconns < o.c.reconns
           else c.queue != [] ==> o.c.reconnMs == c.reconnMs
         case Advanced(m) => Started(o, env, m, Anew(env, m))
         case Restarted(m) => Started(o, env, m, if m == 0 then Pending(c) else Anew(env, m))
  }

  /** The limits at which a record is given up: none before, and always then. */
  predicate AtLimits(c: Client, ev: Event, ch: Change) {
    && (ev.AckTimer? ==> (ch.Advanced? <==> c.retrans + 1 >= COAP_MAX_RETRANSMIT))
    && (ch.Failed? && ch.m > 0 ==> c.reconns + (if ev.AckTimer? then 2 else 1) >= MAX_COAP_RECONNECTS)
    && (ch.Restarted? && ch.m > 0 ==> c.reconns + 1 >= MAX_COAP_RECONNECTS)
    && (ch.Joined? || ch.Advanced? ==> ch.m == 0)
  }

  /** One step changes the queue in one of these ways, exactly; a record is started only when the head changes. */
  lemma StepQueue(cfg: Config, c: Client, ev: Event, env: nat -> Env) returns (ch: Change)
    requires cfg.Valid() && Valid(c) && Enabled(c, ev)
    ensures var o := Step(cfg, c, ev, env);
      o.Running? ==> CanMake(c.queue, ev, ch) && o.c.queue == QueueAfter(c.queue, ch, env) && Made(c.queue, ch, env)
    ensures KeepsHead(c.queue, ch) ==> SameRecord(c, Step(cfg, c, ev, env))
    ensures TimesAfter(c, Step(cfg, c, ev, env), ch, ev.AckTimer? && c.enc, env)
    ensures Step(cfg, c, ev, env).Running? ==> AtLimits(c, ev, ch)
  {
    hide WriteBlock, RetryLater, StartRecord, SendBlock, HandleAck, HandleNoAck, AfterDrops, Dropped, RetryArmed;
    match ev
    case Queued(item) =>
      ch := QueuedQueue(cfg, c, item, env);
    case Rx(rx) =>
      ch := AckQueue(cfg, c, rx, env);
    case AckTimer =>
      ch := NoAckQueue(cfg, c, env);
    case ReconnectTimer =>
      var m := StartRecordQueue(cfg, c, true, env, 0);
      ch := Restarted(m);
    case _ =>
      ch := Untouched;
  }

  lemma QueuedQueue(cfg: Config, c: Client, item: Item, env: nat -> Env) returns (ch: Change)
    requires cfg.Valid()
    ensures var o := Queue(cfg, c, item, env);
      o.Running? ==>
        CanMake(c.queue, Queued(item), ch) && o.c.queue == QueueAfter(c.queue, ch, env) && Made(c.queue, ch, env)
    ensures KeepsHead(c.queue, ch) ==> SameRecord(c, Queue(cfg, c, item, env))
    ensures TimesAfter(c, Queue(cfg, c, item, env), ch, false, env) && AtLimits(c, Queued(item), ch)
  {
    hide StartRecord, AfterDrops, RetryArmed;
    ch := Untouched;
    if !InQueue(c.queue, item.payload) {
      ch := Joined(item, 0);
      if c.queue == [] {
        assert RemoveExpired(c.queue, env(0).now) + [item] == [item];
        var m := StartRecordQueue(cfg, c.(queue := [item]), false, env, 0);
        ch := Joined(item, m);
      }
    }
  }

  lemma NoAckQueue(cfg: Config, c: Client, env: nat -> Env) returns (ch: Change)
    requires cfg.Valid() && Valid(c) && c.sock.Some? && c.ackTime.Some?
    ensures var o := HandleNoAck(cfg, c, env);
      o.Running? ==>
        (ch.Failed? || ch.Advanced?) && o.c.queue == QueueAfter(c.queue, ch, env) && Made(c.queue, ch, env)
    ensures var o := HandleNoAck(cfg, c, env);
      o.Running? && ch == Failed(0) ==>
        c.reconns < o.c.reconns && (o.c.sock.None? ==> o.c.reconns < MAX_COAP_RECONNECTS)
    ensures ch == Failed(0) ==> SameRecord(c, HandleNoAck(cfg, c, env))
    ensures TimesAfter(c, HandleNoAck(cfg, c, env), ch, c.enc, env) && AtLimits(c, AckTimer, ch)
  {
    hide WriteBlock, RetryLater, StartRecord, SendBlock, AfterDrops, RetryArmed;
    var c1 := c.(retrans := c.retrans + 1, reconns := c.reconns + 1);
    if c1.retrans >= COAP_MAX_RETRANSMIT {
      var m := StartRecordQueue(cfg, c1.(queue := c1.queue[1..]), false, env, 0);
      ch := Advanced(m);
    } else if c1.enc {
      var m := RetryLaterQueue(cfg, c1, true, env, 0);
      ch := Failed(m);
    } else {
      var m := SendBlockQueue(cfg, c1.(ackMs := 2 * c1.ackMs), false, env, 0);
      ch := Failed(m);
    }
  }

  /** What an ACK may do to the queue and the failure count. */
  predicate AckEffect(c: Client, o: Outcome, ch: Change, env: nat -> Env) {
    o.Running? ==>
      && (ch.Untouched? || ch.Failed? || ch.Advanced?)
      && o.c.queue == QueueAfter(c.queue, ch, env) && Made(c.queue, ch, env)
      && (c.queue != [] && (ch.Untouched? || ch == Failed(0)) ==>
            c.reconns <= o.c.reconns && (o.c.sock.None? ==> c.reconns < o.c.reconns < MAX_COAP_RECONNECTS))
      && (ch.Untouched? || ch == Failed(0) ==> SameRecord(c, o))
      && TimesAfter(c, o, ch, false, env)
      && (ch.Failed? && ch.m > 0 ==> c.reconns + 1 >= MAX_COAP_RECONNECTS) && (ch.Advanced? ==> ch.m == 0)
  }

  lemma RetryEffect(cfg: Config, c: Client, env: nat -> Env) returns (ch: Change)
    requires cfg.Valid()
    ensures AckEffect(c, RetryLater(cfg, c, false, env, 0), ch, env) && ch.Failed?
    ensures var o := RetryLater(cfg, c, false, env, 0); o.Running? && ch == Failed(0) ==> o.c.sock.None?
  {
    hide RetryLater, Dropped;
    var m := RetryLaterQueue(cfg, c, false, env, 0);
    ch := Failed(m);
  }

  lemma NextRecordEffect(cfg: Config, c: Client, env: nat -> Env) returns (ch: Change)
    requires cfg.Valid()
    ensures AckEffect(c, StartNext(cfg, c, env, 0), ch, env)
  {
    hide StartRecord, AfterDrops;
    ch := Advanced(0);
    if c.queue != [] {
      var m := StartRecordQueue(cfg, c.(queue := c.queue[1..]), false, env, 0);
      ch := Advanced(m);
    }
  }

  lemma NextBlockEffect(cfg: Config, c: Client, d: Client, env: nat -> Env) returns (ch: Change)
    requires cfg.Valid() && Sending(d) && d.queue == c.queue && d.reconns == c.reconns && d.sock.Some?
    requires d.curBlock > 0 && d.reconnMs == c.reconnMs
    ensures AckEffect(c, SendBlock(cfg, d, false, env, 0), ch, env)
  {
    hide SendBlock, Dropped;
    var m := SendBlockQueue(cfg, d, false, env, 0);
    ch := Failed(m);
  }

  lemma AckQueue(cfg: Config, c: Client, rx: Received, env: nat -> Env) returns (ch: Change)
    requires cfg.Valid() && Valid(c) && c.sock.Some?
    ensures AckEffect(c, HandleAck(cfg, c, rx, env), ch, env)
  {
    hide RetryLater, StartNext, SendBlock, ParsePdu, EncodePdu, QueueAfter;
    var retry := RetryEffect(cfg, c, env);
    ch := Untouched;
    UntouchedQueue(c, env);
    match rx
    case Closed => ch := if c.queue == [] then Untouched else retry;
    case Nothing =>
    case Data(data) =>
      var r := ParsePdu(data, cfg.queryOk);
      CoapServer.ParsedIsParseable(data, cfg.queryOk);
      var refused := r.flags != {} && (SendRst in r.flags || IndicatesError(r.flags));
      var action := if r.flags == {} then AckActions(c, r.pdu) else if refused then SendRst else IgnorePdu;
      if action == SendRst {
        ch := RetryEffect(cfg, c.(mid := NextMid(c.mid)), env);
      } else if action == ResetState {
        ch := retry;
      } else if action == SendNextBlock {
        ch := NextBlockEffect(cfg, c, NextBlock(c, r.pdu.block1.value.size, env(0)), env);
      } else if action == SendNextUspRecord {
        ch := NextRecordEffect(cfg, c, env);
      }
  }

  lemma UntouchedQueue(c: Client, env: nat -> Env)
    ensures QueueAfter(c.queue, Untouched, env) == c.queue
  {
  }

  // ---------------------------------------------------------------- what a change does to the items

  lemma ChangeSubSeq(q: seq<Item>, ch: Change, env: nat -> Env)
    ensures SubSeq(QueueAfter(q, ch, env), Entered(q, ch))
  {
    hide AfterDrops, Dropped, SubSeq;
    SubSeqRefl(q);
    match ch
    case Untouched =>
    case Joined(item, m) =>
      if q == [] {
        assert q + [item] == [item];
        AfterDropsSubSeq([item], env, 0, m);
      } else {
        ExpiryExact(q, env(0).now);
        SubSeqGrows(RemoveExpired(q, env(0).now), q, item);
      }
    case Failed(m) => DroppedSubSeq(q, env, 0, m);
    case Advanced(m) => if q != [] { DropOneSubSeq(q, env, 0, m); }
    case Restarted(m) => AfterDropsSubSeq(q, env, 0, m);
  }

  /** A change that is not a mere failure loses the head, for good or because the next record was started. */
  lemma ChangeLosesHead(q: seq<Item>, ch: Change, env: nat -> Env)
    requires q != [] && ((ch.Failed? && ch.m > 0) || ch.Advanced?)
    ensures SubSeq(QueueAfter(q, ch, env), q[1..])
  {
    hide AfterDrops, Dropped, SubSeq;
    if ch.Failed? {
      DroppedSubSeq(q, env, 0, ch.m);
    } else {
      DropOneSubSeq(q, env, 0, ch.m);
    }
  }

  lemma DropOneSubSeq(q: seq<Item>, env: nat -> Env, k: nat, m: nat)
    requires q != []
    ensures SubSeq(AfterDrops(q[1..], env, k, m), q[1..]) && SubSeq(AfterDrops(q[1..], env, k, m), q)
  {
    hide AfterDrops;
    AfterDropsSubSeq(q[1..], env, k, m);
    var r := AfterDrops(q[1..], env, k, m);
    if r != [] {
      assert SubSeq(r, q);
    }
  }

  lemma EnteredDistinct(q: seq<Item>, ev: Event, ch: Change)
    requires Distinct(q) && CanMake(q, ev, ch)
    ensures Distinct(Entered(q, ch))
  {
  }

  /** One of the clock readings lo to hi - 1 is past the expiry time of x. */
  predicate Expires(x: Item, env: nat -> Env, lo: nat, hi: nat) {
    exists k: nat :: lo <= k < hi && env(k).now > x.expiry
  }

  /** No item of q that comes before position i is in r. */
  predicate AllGone(q: seq<Item>, i: nat, r: seq<Item>) {
    forall j :: 0 <= j < i && j < |q| ==> q[j] !in r
  }

  /** Whatever is missing in r had expired, or was at the head: everything in front of it is missing too. */
  predicate LeavesInTurn(q: seq<Item>, r: seq<Item>, env: nat -> Env, lo: nat, hi: nat) {
    forall i :: 0 <= i < |q| && q[i] !in r ==> Expires(q[i], env, lo, hi) || AllGone(q, i, r)
  }

  lemma ExpiryLeaves(q: seq<Item>, env: nat -> Env, k: nat, hi: nat, i: nat)
    requires i < |q| && q[i] !in RemoveExpired(q, env(k).now) && k < hi
    ensures Expires(q[i], env, k, hi)
  {
    UnexpiredSubSeq(q[1..], env(k).now);
    assert i > 0 ==> q[i] == q[1..][i - 1];
    assert q[i] in q[1..];
  }

  lemma SubSeqIn(r: seq<Item>, q: seq<Item>, x: Item)
    requires SubSeq(r, q) && x in r
    ensures x in q
  {
    var i :| 0 <= i < |r| && r[i] == x;
    SubSeqMember(r, q, i);
  }

  /** The positions of a selection keep their order. */
  lemma {:induction false} SubSeqOrder(r: seq<Item>, q: seq<Item>, i: nat, j: nat)
    requires SubSeq(r, q) && Distinct(q) && i < |r| && j < |q| && r[i] == q[j]
    ensures forall l :: 0 <= l < j && q[l] in r ==> q[l] in r[..i]
    decreases |q|
  {
    SubSeqDistinct(r, q);
    if r[0] == q[0] && SubSeq(r[1..], q[1..]) {
      if j > 0 {
        assert i > 0;
        SubSeqOrder(r[1..], q[1..], i - 1, j - 1);
        forall l | 0 <= l < j && q[l] in r ensures q[l] in r[..i] {
          if l == 0 {
            assert r[..i][0] == q[0];
          } else {
            assert q[l] == q[1..][l - 1] && q[l] != r[0];
            assert q[l] in r[1..];
            assert q[l] in r[1..][..i - 1];
            assert r[1..][..i - 1] == r[..i][1..];
          }
        }
      }
    } else {
      HeadOutside(r, q);
      assert j > 0 && q[1..][j - 1] == r[i];
      SubSeqOrder(r, q[1..], i, j - 1);
      forall l | 0 <= l < j && q[l] in r ensures q[l] in r[..i] {
        assert l > 0 && q[l] == q[1..][l - 1];
      }
    }
  }

  lemma HeadOutside(r: seq<Item>, q: seq<Item>)
    requires q != [] && Distinct(q) && SubSeq(r, q[1..])
    ensures q[0] !in r
  {
    forall j | 0 <= j < |q[1..]| ensures q[1..][j] != q[0] {
      assert q[j + 1].payload != q[0].payload;
    }
    if q[0] in r {
      SubSeqIn(r, q[1..], q[0]);
      assert false;
    }
  }

  lemma {:induction false} AfterDropsLeaves(q: seq<Item>, env: nat -> Env, k: nat, m: nat)
    requires Distinct(q)
    ensures LeavesInTurn(q, AfterDrops(q, env, k, m), env, k, k + m + 1)
    decreases m
  {
    hide SubSeq, RemoveExpired, Expires;
    var r, s := RemoveExpired(q, env(k).now), AfterDrops(q, env, k, m);
    if q == [] {
    } else if m == 0 {
      forall i | 0 <= i < |q| && q[i] !in s ensures Expires(q[i], env, k, k + 1) {
        ExpiryLeaves(q, env, k, k + 1, i);
      }
    } else {
      ExpiryExact(q, env(k).now);
      SubSeqDistinct(r, q);
      TailDistinct(r);
      AfterDropsLeaves(r[1..], env, k + 1, m - 1);
      AfterDropsSubSeq(r[1..], env, k + 1, m - 1);
      forall i | 0 <= i < |q| && q[i] !in s ensures Expires(q[i], env, k, k + m + 1) || AllGone(q, i, s) {
        DropLeaves(q, r, s, env, k, k + m + 1, i);
      }
    }
  }

  lemma TailDistinct(q: seq<Item>)
    requires q != [] && Distinct(q)
    ensures Distinct(q[1..])
  {
    forall i, j | 0 <= i < j < |q[1..]| ensures q[1..][i].payload != q[1..][j].payload {
      assert q[i + 1].payload != q[j + 1].payload;
    }
  }

  lemma ExpiresEarlier(x: Item, env: nat -> Env, k: nat, hi: nat)
    ensures Expires(x, env, k + 1, hi) ==> Expires(x, env, k, hi)
  {
  }

  /** The head of r is dropped and the rest of r leaves in turn. */
  lemma DropLeaves(q: seq<Item>, r: seq<Item>, s: seq<Item>, env: nat -> Env, k: nat, hi: nat, i: nat)
    requires q != [] && Distinct(q) && r == RemoveExpired(q, env(k).now) && SubSeq(r, q) && Distinct(r)
    requires SubSeq(s, r[1..]) && LeavesInTurn(r[1..], s, env, k + 1, hi) && i < |q| && q[i] !in s && k < hi
    ensures Expires(q[i], env, k, hi) || AllGone(q, i, s)
  {
    hide RemoveExpired, SubSeq, Distinct, Expires;
    ExpiresEarlier(q[i], env, k, hi);
    if q[i] !in r {
      ExpiryLeaves(q, env, k, hi, i);
    } else if !Expires(q[i], env, k, hi) {
      var p :| 0 <= p < |r| && r[p] == q[i];
      SubSeqOrder(r, q, p, i);
      HeadOutside(s, r);
      assert p > 0 ==> r[1..][p - 1] == q[i] && AllGone(r[1..], p - 1, s);
      forall j | 0 <= j < i ensures q[j] !in s {
        if q[j] in r {
          assert q[j] in r[..p];
          var l :| 0 <= l < p && r[l] == q[j];
          assert l > 0 ==> r[1..][l - 1] == q[j];
        } else if q[j] in s {
          SubSeqIn(s, r[1..], q[j]);
          assert false;
        }
      }
    }
  }

  /** Under every change an item leaves only from the head or because it expired when the clock was read. */
  lemma ChangeLeaves(q: seq<Item>, ch: Change, env: nat -> Env)
    requires Distinct(Entered(q, ch)) && Distinct(q) && Made(q, ch, env)
    ensures LeavesInTurn(Entered(q, ch), QueueAfter(q, ch, env), env, FirstReading(ch), ReadingsEnd(ch))
  {
    hide AfterDrops, DropsMade, LeavesInTurn, RemoveExpired, Distinct;
    NoneLeaves(q, env, FirstReading(ch), ReadingsEnd(ch));
    match ch
    case Untouched =>
    case Joined(item, m) =>
      if q == [] {
        assert q + [item] == [item];
        AfterDropsLeaves([item], env, 0, m);
      } else {
        JoinedLeaves(q, item, env);
      }
    case Failed(m) =>
      if m > 0 && q != [] {
        HeadDropLeaves(q, env, 1, m - 1);
      }
    case Advanced(m) =>
      if q != [] {
        HeadDropLeaves(q, env, 0, m);
      }
    case Restarted(m) => AfterDropsLeaves(q, env, 0, m);
  }

  lemma NoneLeaves(q: seq<Item>, env: nat -> Env, lo: nat, hi: nat)
    ensures LeavesInTurn(q, q, env, lo, hi)
  {
  }

  lemma JoinedLeaves(q: seq<Item>, item: Item, env: nat -> Env)
    ensures LeavesInTurn(q + [item], RemoveExpired(q, env(0).now) + [item], env, 0, 1)
  {
    hide RemoveExpired, Expires, AllGone;
    var e, r := q + [item], RemoveExpired(q, env(0).now) + [item];
    forall i | 0 <= i < |e| && e[i] !in r ensures Expires(e[i], env, 0, 1) {
      assert item in r;
      assert i < |q| && e[i] == q[i];
      ExpiryLeaves(q, env, 0, 1, i);
    }
  }

  lemma HeadDropLeaves(q: seq<Item>, env: nat -> Env, k: nat, m: nat)
    requires q != [] && Distinct(q)
    ensures LeavesInTurn(q, AfterDrops(q[1..], env, k, m), env, k, k + m + 1)
  {
    hide AfterDrops, SubSeq, Expires;
    var s := AfterDrops(q[1..], env, k, m);
    TailDistinct(q);
    AfterDropsLeaves(q[1..], env, k, m);
    AfterDropsSubSeq(q[1..], env, k, m);
    HeadOutside(s, q);
    forall i | 0 <= i < |q| && q[i] !in s ensures Expires(q[i], env, k, k + m + 1) || AllGone(q, i, s) {
      if i > 0 {
        assert q[1..][i - 1] == q[i];
        if !Expires(q[i], env, k, k + m + 1) {
          assert AllGone(q[1..], i - 1, s);
          forall j | 0 <= j < i ensures q[j] !in s {
            assert j > 0 ==> q[j] == q[1..][j - 1];
          }
        }
      }
    }
  }

  // ---------------------------------------------------------------- over runs

  function ItemsOffered(evs: seq<Event>): seq<Item> {
    if evs == [] then [] else ItemsOffered(evs[..|evs| - 1]) + Offered(evs[|evs| - 1])
  }

  /** A queue without equal records stays so. */
  lemma {:induction false} StaysDistinct(cfg: Config, cs: seq<Client>, evs: seq<Event>, envs: seq<nat -> Env>, i: nat)
    requires cfg.Valid() && P.IsRun(cfg, cs, evs, envs) && Distinct(cs[0].queue) && i < |cs|
    ensures Distinct(cs[i].queue)
  {
    hide SubSeq, Step, QueueAfter, Made;
    if i == 0 {
    } else {
      StaysDistinct(cfg, cs, evs, envs, i - 1);
      assert P.StepTo(cfg, cs[i - 1], evs[i - 1], envs[i - 1], cs[i]);
      var q := cs[i - 1].queue;
      var ch := StepQueue(cfg, cs[i - 1], evs[i - 1], envs[i - 1]);
      ChangeSubSeq(q, ch, envs[i - 1]);
      EnteredDistinct(q, evs[i - 1], ch);
      SubSeqDistinct(cs[i].queue, Entered(q, ch));
    }
  }

  /** In every reachable state the queue holds records in the order they were offered, no two with equal bytes. */
  lemma {:induction false} QueueKeepsOrder(cfg: Config, cs: seq<Client>, evs: seq<Event>, envs: seq<nat -> Env>, i: nat)
    requires cfg.Valid() && P.IsRun(cfg, cs, evs, envs) && cs[0].queue == [] && i < |cs|
    ensures SubSeq(cs[i].queue, ItemsOffered(evs[..i])) && Distinct(cs[i].queue)
  {
    hide SubSeq, Step, QueueAfter;
    if i == 0 {
      SubSeqRefl([]);
      assert evs[..0] == [];
    } else {
      QueueKeepsOrder(cfg, cs, evs, envs, i - 1);
      assert P.StepTo(cfg, cs[i - 1], evs[i - 1], envs[i - 1], cs[i]);
      var q, ev := cs[i - 1].queue, evs[i - 1];
      var ch := StepQueue(cfg, cs[i - 1], ev, envs[i - 1]);
      ChangeSubSeq(q, ch, envs[i - 1]);
      StaysDistinct(cfg, cs, evs, envs, i);
      assert evs[..i][..i - 1] == evs[..i - 1];
      EnteredOffered(q, ItemsOffered(evs[..i - 1]), ev, ch);
      SubSeqTrans(cs[i].queue, Entered(q, ch), ItemsOffered(evs[..i]));
    }
  }

  lemma EnteredOffered(q: seq<Item>, before: seq<Item>, ev: Event, ch: Change)
    requires SubSeq(q, before) && CanMake(q, ev, ch)
    ensures SubSeq(Entered(q, ch), before + Offered(ev))
  {
    hide SubSeq;
    assert before + [] == before;
    if ev.Queued? {
      SubSeqGrows(q, before, ev.item);
    }
  }

  /** The change ch is what event ev makes of queue q, and r is what it leaves. */
  predicate Makes(q: seq<Item>, ev: Event, ch: Change, env: nat -> Env, r: seq<Item>) {
    CanMake(q, ev, ch) && Made(q, ch, env) && r == QueueAfter(q, ch, env)
  }

  /** The change takes x out of q, leaving r: expired at a time it read, or with everything that was in front of it. */
  predicate TakenOut(q: seq<Item>, ch: Change, env: nat -> Env, r: seq<Item>, x: Item) {
    && x in q && x !in r
    && (Expires(x, env, FirstReading(ch), ReadingsEnd(ch)) ||
        exists p :: 0 <= p < |q| && q[p] == x && AllGone(q, p, r))
  }

  /**
   Over every run: an item that is in the queue at one time and not at a later one was taken out by some step s in
   between, either expired by a clock reading of that step or from the head, that is, together with everything still
   in front of it.
   */
  lemma {:induction false} LeavesOnlyInTurn(
    cfg: Config, cs: seq<Client>, evs: seq<Event>, envs: seq<nat -> Env>, a: nat, b: nat, x: Item)
    returns (s: nat, ch: Change)
    requires cfg.Valid() && P.IsRun(cfg, cs, evs, envs) && cs[0].queue == [] && a <= b < |cs|
    requires x in cs[a].queue && x !in cs[b].queue
    ensures a <= s < b && Makes(cs[s].queue, evs[s], ch, envs[s], cs[s + 1].queue)
    ensures TakenOut(cs[s].queue, ch, envs[s], cs[s + 1].queue, x)
    decreases b - a
  {
    hide Step, Makes, TakenOut;
    if x !in cs[a + 1].queue {
      s := a;
      ch := StepLeaves(cfg, cs, evs, envs, a, x);
    } else {
      s, ch := LeavesOnlyInTurn(cfg, cs, evs, envs, a + 1, b, x);
    }
  }

  lemma StepLeaves(cfg: Config, cs: seq<Client>, evs: seq<Event>, envs: seq<nat -> Env>, s: nat, x: Item)
    returns (ch: Change)
    requires cfg.Valid() && P.IsRun(cfg, cs, evs, envs) && cs[0].queue == [] && s < |evs|
    requires x in cs[s].queue && x !in cs[s + 1].queue
    ensures Makes(cs[s].queue, evs[s], ch, envs[s], cs[s + 1].queue)
    ensures TakenOut(cs[s].queue, ch, envs[s], cs[s + 1].queue, x)
  {
    hide SubSeq, Step, QueueAfter, Expires, Made;
    var q, r, env := cs[s].queue, cs[s + 1].queue, envs[s];
    QueueKeepsOrder(cfg, cs, evs, envs, s);
    assert P.StepTo(cfg, cs[s], evs[s], env, cs[s + 1]);
    ch := StepQueue(cfg, cs[s], evs[s], env);
    EnteredDistinct(q, evs[s], ch);
    ChangeLeaves(q, ch, env);
    var e := Entered(q, ch);
    var p :| 0 <= p < |q| && q[p] == x;
    assert e[p] == x;
    if !Expires(x, env, FirstReading(ch), ReadingsEnd(ch)) {
      assert AllGone(e, p, r);
      assert AllGone(q, p, r) by {
        forall j | 0 <= j < p ensures q[j] !in r {
          assert e[j] == q[j];
        }
      }
    }
  }

  // ---------------------------------------------------------------- retries are bounded

  /** The step kept the record at the head of the queue. */
  predicate SameHead(c: Client, d: Client) {
    c.queue != [] && d.queue != [] && c.queue[0].payload == d.queue[0].payload
  }

  /** The step was a failed attempt: the client is left to connect again later, with one more failure counted. */
  predicate Retried(c: Client, d: Client) {
    d.sock.None? && c.reconns < d.reconns
  }

  lemma HeadLost(r: seq<Item>, q: seq<Item>)
    requires q != [] && Distinct(q) && SubSeq(r, q[1..])
    ensures r != [] ==> r[0].payload != q[0].payload
  {
    if r != [] {
      SubSeqMember(r, q[1..], 0);
      var j :| 0 <= j < |q[1..]| && q[1..][j] == r[0];
      assert q[j + 1] == r[0];
    }
  }

  lemma HeadKept(q: seq<Item>, ch: Change, env: nat -> Env)
    requires q != [] && Distinct(q) && (ch.Untouched? || ch.Failed? || ch.Advanced?)
    ensures var r := QueueAfter(q, ch, env);
      r != [] && r[0].payload == q[0].payload ==> ch.Untouched? || ch == Failed(0)
  {
    hide QueueAfter, SubSeq;
    if !ch.Untouched? && ch != Failed(0) {
      ChangeLosesHead(q, ch, env);
      HeadLost(QueueAfter(q, ch, env), q);
    }
  }

  /** A restart after which the head is the same dropped nothing. */
  lemma RestartKept(q: seq<Item>, m: nat, env: nat -> Env)
    requires q != [] && Distinct(q)
    ensures var r := QueueAfter(q, Restarted(m), env); r != [] && r[0].payload == q[0].payload ==> m == 0
  {
    hide AfterDrops, SubSeq;
    AfterDropsSubSeq(q, env, 0, m);
    if m > 0 {
      HeadLost(AfterDrops(q, env, 0, m), q);
    }
  }

  /** While the record stays, its failure count never falls, and a failed attempt leaves it below the limit. */
  lemma StepRetries(cfg: Config, c: Client, ev: Event, env: nat -> Env)
    requires cfg.Valid() && Valid(c) && Enabled(c, ev) && Distinct(c.queue)
    ensures var o := Step(cfg, c, ev, env);
      o.Running? && SameHead(c, o.c) ==>
        c.reconns <= o.c.reconns && (Retried(c, o.c) ==> o.c.reconns < MAX_COAP_RECONNECTS)
  {
    hide WriteBlock, RetryLater, StartRecord, SendBlock, HandleAck, HandleNoAck, AfterDrops, Dropped, SubSeq;
    var o := Step(cfg, c, ev, env);
    if o.Running? && SameHead(c, o.c) {
      match ev
      case Rx(rx) =>
        var ch := AckQueue(cfg, c, rx, env);
        HeadKept(c.queue, ch, env);
      case AckTimer =>
        var ch := NoAckQueue(cfg, c, env);
        HeadKept(c.queue, ch, env);
      case ReconnectTimer => RestartRetries(cfg, c, env);
      case _ =>
    }
  }

  lemma RestartRetries(cfg: Config, c: Client, env: nat -> Env)
    requires cfg.Valid() && Distinct(c.queue)
    ensures var o := StartRecord(cfg, c, true, env, 0);
      o.Running? && SameHead(c, o.c) ==>
        c.reconns <= o.c.reconns && (Retried(c, o.c) ==> o.c.reconns < MAX_COAP_RECONNECTS)
  {
    hide RetryLater, SendFirst, SubSeq, Unexpired;
    var e := env(0);
    var c1 := Cleared(c, true, e);
    if c1.queue != [] && e.allowed {
      ExpiryExact(c.queue, e.now);
      SubSeqDistinct(c1.queue, c.queue);
      RetryRetries(cfg, c1, env);
      if e.addr.Some? {
        var c2 := (if SamePeer(c1, e.addr.value) then c1 else Stop(c1)).(ackMs := e.ackMs, retrans := 0);
        var c3 := Connected(c2, e.addr.value);
        RetryRetries(cfg, c3, env);
        SendFirstRetries(cfg, c2, env);
        SendFirstRetries(cfg, c3, env);
      }
    }
  }

  lemma SendFirstRetries(cfg: Config, c: Client, env: nat -> Env)
    requires cfg.Valid() && Distinct(c.queue) && c.queue != []
    ensures var o := SendFirst(cfg, c, env, 0);
      o.Running? && SameHead(c, o.c) ==>
        c.reconns <= o.c.reconns && (Retried(c, o.c) ==> o.c.reconns < MAX_COAP_RECONNECTS)
  {
    hide WriteBlock, RetryLater, AfterDrops, Dropped, SubSeq;
    var c1 := FirstBlock(cfg, c, env(0));
    RetryRetries(cfg, c1, env);
    if env(0).query.Some? {
      var c2 := c1.(query := env(0).query.value);
      RetryRetries(cfg, c2.(ackTime := Some(env(0).now + Quot(c2.ackMs, 1000))), env);
    }
  }

  lemma RetryRetries(cfg: Config, c: Client, env: nat -> Env)
    requires cfg.Valid() && Distinct(c.queue)
    ensures var o := RetryLater(cfg, c, false, env, 0);
      o.Running? && SameHead(c, o.c) ==> c.reconns < o.c.reconns < MAX_COAP_RECONNECTS
  {
    hide RetryLater, AfterDrops, SubSeq;
    var m := RetryLaterQueue(cfg, c, false, env, 0);
    if m > 0 && c.queue != [] {
      DroppedSubSeq(c.queue, env, 0, m);
      if RetryLater(cfg, c, false, env, 0).Running? {
        HeadLost(RetryLater(cfg, c, false, env, 0).c.queue, c.queue);
      }
    }
  }

  function CountRetries(cs: seq<Client>): nat {
    if |cs| < 2 then 0
    else CountRetries(cs[..|cs| - 1]) + (if Retried(cs[|cs| - 2], cs[|cs| - 1]) then 1 else 0)
  }

  /** However long a record stays at the head of the queue, it is retried fewer than MAX_COAP_RECONNECTS times. */
  lemma {:induction false} RetriesBounded(cfg: Config, cs: seq<Client>, evs: seq<Event>, envs: seq<nat -> Env>)
    requires cfg.Valid() && P.IsRun(cfg, cs, evs, envs) && Distinct(cs[0].queue)
    requires forall i :: 0 <= i < |evs| ==> SameHead(cs[i], cs[i + 1])
    ensures CountRetries(cs) < MAX_COAP_RECONNECTS
    ensures cs[0].reconns + CountRetries(cs) <= cs[|cs| - 1].reconns
    decreases |evs|
  {
    hide Step;
    if evs == [] {
    } else {
      var n := |evs|;
      var ds := cs[..n];
      assert P.IsRun(cfg, ds, evs[..n - 1], envs[..n - 1]) by {
        forall i | 0 <= i < n - 1 ensures P.StepTo(cfg, ds[i], evs[..n - 1][i], envs[..n - 1][i], ds[i + 1]) {
          assert P.StepTo(cfg, cs[i], evs[i], envs[i], cs[i + 1]);
        }
      }
      forall i | 0 <= i < n - 1 ensures SameHead(ds[i], ds[i + 1]) {
        assert SameHead(cs[i], cs[i + 1]);
      }
      RetriesBounded(cfg, ds, evs[..n - 1], envs[..n - 1]);
      assert P.StepTo(cfg, cs[n - 1], evs[n - 1], envs[n - 1], cs[n]);
      assert SameHead(cs[n - 1], cs[n]);
      StaysDistinct(cfg, cs, evs, envs, n - 1);
      StepRetries(cfg, cs[n - 1], evs[n - 1], envs[n - 1]);
      assert cs[..|cs| - 1] == ds;
    }
  }
}
