/**
 The times for which the CoAP client arms its timers, over whole runs: the waits for ACKs and between retries.
 */
module CoapClientTimers {
  import opened CommonDefs
  import opened CoapCodec
  import opened CoapClient
  import P = CoapClientProofs
  import Q = CoapClientQueue

  // ---------------------------------------------------------------- the wait for an ACK

  /**
   After every step that sent a PDU, whatever was dropped before, the ACK timer is armed for the current wait from the
   clock reading of the attempt that sent it.
   */
  lemma StepArms(cfg: Config, c: Client, ev: Event, env: nat -> Env) returns (ch: Q.Change)
    requires cfg.Valid() && Valid(c) && Enabled(c, ev)
    ensures var o := Step(cfg, c, ev, env);
      && (o.Running? ==> o.c.queue == Q.QueueAfter(c.queue, ch, env) && Q.Made(c.queue, ch, env))
      && (o.Running? && o.sent.Some? ==>
            && !ch.Untouched? && o.c.ackTime.Some?
            && var wait := o.c.ackTime.value - env(ch.m).now; 1000 * wait <= o.c.ackMs < 1000 * (wait + 1))
  {
    hide Step, Q.QueueAfter, Q.Made;
    ch := Q.StepQueue(cfg, c, ev, env);
  }

  /** A step that goes on waiting for the same block leaves its timer alone, or repeats the block and arms it anew. */
  lemma StaysArmed(cfg: Config, c: Client, ev: Event, env: nat -> Env)
    requires cfg.Valid() && P.Sound(c) && Enabled(c, ev)
    requires Step(cfg, c, ev, env).Running? && P.SameBlock(c, Step(cfg, c, ev, env).c)
    ensures var o := Step(cfg, c, ev, env);
      if ev.AckTimer? then Q.Armed(o.c, env(0).now) else o.c.ackTime == c.ackTime
  {
    hide WriteBlock, RetryLater, StartRecord, ParsePdu, EncodePdu;
    match ev
    case AckTimer =>
      P.StepSameBlock(cfg, c, ev, env);
      var d := c.(retrans := c.retrans + 1, reconns := c.reconns + 1, ackMs := 2 * c.ackMs);
      P.RetryLaterLeavesSocket(cfg, d.(ackTime := Some(env(0).now + Quot(d.ackMs, 1000))), false, env, 0);
      Q.ArmsSeconds(env(0).now, d.ackMs, env(0).now + Quot(d.ackMs, 1000));
    case Rx(rx) => P.AckSameBlock(cfg, c, rx, env);
    case _ =>
  }

  /** The clock when the block was last sent: at first, or at the last timeout */
  function LastSent(start: int, evs: seq<Event>, envs: seq<nat -> Env>): int
    requires |evs| == |envs|
  {
    if evs == [] then start
    else
      var n := |evs| - 1;
      if evs[n].AckTimer? then envs[n](0).now else LastSent(start, evs[..n], envs[..n])
  }

  /** The seconds from each sending of the block to the time its timer was armed for, over those that ran out. */
  function ArmedTotal(start: int, cs: seq<Client>, evs: seq<Event>, envs: seq<nat -> Env>): int
    requires |cs| == |evs| + 1 == |envs| + 1
  {
    if evs == [] then 0
    else
      var n := |evs| - 1;
      ArmedTotal(start, cs[..n + 1], evs[..n], envs[..n])
      + if !evs[n].AckTimer? || cs[n].ackTime.None? then 0
        else cs[n].ackTime.value - LastSent(start, evs[..n], envs[..n])
  }

  /**
   RetransmissionBounded over the armed times: from a block sent at the time start and waiting for its ACK, the waits
   for which the timer was armed and which ran out add up to initial * (2^n - 1) milliseconds, each in whole seconds.
   */
  lemma {:induction false} ArmedTimesBounded(
    cfg: Config, cs: seq<Client>, evs: seq<Event>, envs: seq<nat -> Env>, start: int)
    requires cfg.Valid() && P.IsRun(cfg, cs, evs, envs) && P.Sound(cs[0]) && cs[0].retrans == 0
    requires Q.Armed(cs[0], start)
    requires forall i :: 0 <= i < |evs| ==> P.SameBlock(cs[i], cs[i + 1])
    ensures var n := P.CountTimeouts(evs);
      var total, ms := ArmedTotal(start, cs, evs, envs), cs[0].ackMs * (P.Pow2(n) - 1);
      n < COAP_MAX_RETRANSMIT && 1000 * total <= ms <= 1000 * total + 999 * n
    ensures Q.Armed(cs[|cs| - 1], LastSent(start, evs, envs)) && P.Sound(cs[|cs| - 1])
    decreases |evs|
  {
    hide Step, P.Sound, Enabled;
    if evs == [] {
    } else {
      var n := |evs| - 1;
      var ds, es, vs := cs[..n + 1], evs[..n], envs[..n];
      forall i | 0 <= i < n
        ensures P.StepTo(cfg, ds[i], es[i], vs[i], ds[i + 1]) && P.SameBlock(ds[i], ds[i + 1])
      {
        assert P.StepTo(cfg, cs[i], evs[i], envs[i], cs[i + 1]);
        assert P.SameBlock(cs[i], cs[i + 1]);
      }
      ArmedTimesBounded(cfg, ds, es, vs, start);
      P.RetransmissionBounded(cfg, ds, es, vs);
      P.RetransmissionBounded(cfg, cs, evs, envs);
      assert P.StepTo(cfg, cs[n], evs[n], envs[n], cs[n + 1]);
      assert P.SameBlock(cs[n], cs[n + 1]);
      StaysArmed(cfg, cs[n], evs[n], envs[n]);
      P.StepSameBlock(cfg, cs[n], evs[n], envs[n]);
      P.Doubling(cs[0].ackMs, P.CountTimeouts(es));
    }
  }

  /** The timeout after COAP_MAX_RETRANSMIT - 1 others gives the record up; none before it does. */
  lemma GivenUpExactly(cfg: Config, cs: seq<Client>, evs: seq<Event>, envs: seq<nat -> Env>)
    requires cfg.Valid() && P.IsRun(cfg, cs, evs, envs) && P.Sound(cs[0]) && cs[0].retrans == 0
    requires evs != [] && evs[|evs| - 1].AckTimer?
    requires forall i :: 0 <= i < |evs| - 1 ==> P.SameBlock(cs[i], cs[i + 1])
    ensures var n := |evs| - 1;
      var c, d, env := cs[n], cs[n + 1], envs[n];
      && c.queue != [] && P.StepTo(cfg, c, AckTimer, env, d)
      && if P.CountTimeouts(evs[..n]) == COAP_MAX_RETRANSMIT - 1 then Q.SubSeq(d.queue, c.queue[1..])
         else if c.enc then c.reconns + 2 < MAX_COAP_RECONNECTS ==> d.queue == c.queue && d.sock.None?
         else env(0).sendOk ==>
           d.queue == c.queue && d.mid == c.mid && d.sock == c.sock
           && Step(cfg, c, AckTimer, env).sent == WriteBlock(cfg, c)
  {
    hide Step, P.Sound, Enabled, Q.SubSeq;
    var n := |evs| - 1;
    var ds, es, vs := cs[..n + 1], evs[..n], envs[..n];
    forall i | 0 <= i < n
      ensures P.StepTo(cfg, ds[i], es[i], vs[i], ds[i + 1]) && P.SameBlock(ds[i], ds[i + 1])
    {
      assert P.StepTo(cfg, cs[i], evs[i], envs[i], cs[i + 1]);
      assert P.SameBlock(cs[i], cs[i + 1]);
    }
    P.RetransmissionBounded(cfg, ds, es, vs);
    assert P.StepTo(cfg, cs[n], evs[n], envs[n], cs[n + 1]);
    Timeout(cfg, cs[n], envs[n]);
  }

  lemma Timeout(cfg: Config, c: Client, env: nat -> Env)
    requires cfg.Valid() && Valid(c) && Enabled(c, AckTimer) && Step(cfg, c, AckTimer, env).Running?
    ensures var o := Step(cfg, c, AckTimer, env);
      && c.queue != []
      && if c.retrans + 1 >= COAP_MAX_RETRANSMIT then Q.SubSeq(o.c.queue, c.queue[1..])
         else if c.enc then c.reconns + 2 < MAX_COAP_RECONNECTS ==> o.c.queue == c.queue && o.c.sock.None?
         else env(0).sendOk ==>
           o.c.queue == c.queue && o.c.mid == c.mid && o.c.sock == c.sock && o.sent == WriteBlock(cfg, c)
  {
    hide WriteBlock, StartRecord, RetryLater, Q.SubSeq, Q.AfterDrops;
    var c1 := c.(retrans := c.retrans + 1, reconns := c.reconns + 1);
    if c1.retrans >= COAP_MAX_RETRANSMIT {
      var m := Q.StartRecordQueue(cfg, c1.(queue := c1.queue[1..]), false, env, 0);
      Q.AfterDropsSubSeq(c.queue[1..], env, 0, m);
    } else if c.enc {
      var m := Q.RetryLaterQueue(cfg, c1, true, env, 0);
    } else {
      P.WriteIgnoresTimers(cfg, c, c1.(ackMs := 2 * c1.ackMs));
    }
  }

  // ---------------------------------------------------------------- the wait between retries

  /** While the record stays, a failed attempt waits for the current time and doubles it; nothing else changes it. */
  lemma StepRetryWait(cfg: Config, c: Client, ev: Event, env: nat -> Env)
    requires cfg.Valid() && Valid(c) && Enabled(c, ev) && Q.Distinct(c.queue)
    requires Step(cfg, c, ev, env).Running? && Q.SameHead(c, Step(cfg, c, ev, env).c)
    ensures var d := Step(cfg, c, ev, env).c;
      if Q.Retried(c, d) then Q.RetryArmed(d, env(0).now, c.reconnMs, ev.AckTimer? && c.enc)
      else d.reconnMs == c.reconnMs
  {
    hide Step, Q.QueueAfter, Q.Made, Q.Distinct;
    var o := Step(cfg, c, ev, env);
    var ch := Q.StepQueue(cfg, c, ev, env);
    if ch.Restarted? {
      Q.RestartKept(c.queue, ch.m, env);
    } else if !ch.Joined? {
      Q.HeadKept(c.queue, ch, env);
    }
  }

  /** If the last step was a retry, it was armed for initial * 2^n after n retries before it. */
  predicate LastRetryArmed(cs: seq<Client>, evs: seq<Event>, envs: seq<nat -> Env>)
    requires |cs| == |evs| + 1 == |envs| + 1 && evs != []
  {
    var n := |evs| - 1;
    var before := cs[..n + 1];
    Q.Retried(cs[n], cs[n + 1]) ==>
      Q.RetryArmed(cs[n + 1], envs[n](0).now, cs[0].reconnMs * P.Pow2(Q.CountRetries(before)),
                   evs[n].AckTimer? && cs[n].enc)
  }

  /**
   However long a record stays at the head: the wait before the next retry is initial * 2^n after n of them, and each
   retry was armed for the wait before it, in whole seconds (at once for the first after a timeout with encryption).
   */
  lemma {:induction false} RetryWaitsDouble(cfg: Config, cs: seq<Client>, evs: seq<Event>, envs: seq<nat -> Env>)
    requires cfg.Valid() && P.IsRun(cfg, cs, evs, envs) && Q.Distinct(cs[0].queue)
    requires forall i :: 0 <= i < |evs| ==> Q.SameHead(cs[i], cs[i + 1])
    ensures cs[|cs| - 1].reconnMs == cs[0].reconnMs * P.Pow2(Q.CountRetries(cs))
    ensures evs != [] ==> LastRetryArmed(cs, evs, envs)
    decreases |evs|
  {
    hide Step, Q.Distinct, Q.SameHead, Q.Retried;
    if evs == [] {
    } else {
      var n := |evs| - 1;
      var ds, es, vs := cs[..n + 1], evs[..n], envs[..n];
      forall i | 0 <= i < n
        ensures P.StepTo(cfg, ds[i], es[i], vs[i], ds[i + 1]) && Q.SameHead(ds[i], ds[i + 1])
      {
        assert P.StepTo(cfg, cs[i], evs[i], envs[i], cs[i + 1]);
        assert Q.SameHead(cs[i], cs[i + 1]);
      }
      RetryWaitsDouble(cfg, ds, es, vs);
      assert P.StepTo(cfg, cs[n], evs[n], envs[n], cs[n + 1]);
      assert Q.SameHead(cs[n], cs[n + 1]);
      Q.StaysDistinct(cfg, cs, evs, envs, n);
      StepRetryWait(cfg, cs[n], evs[n], envs[n]);
      P.Doubling(cs[0].reconnMs, Q.CountRetries(ds));
      assert cs[..|cs| - 1] == ds;
    }
  }

  /** When lingering ends the socket is closed; when connecting becomes possible a pending retry is due at once. */
  lemma TimersEnd(cfg: Config, c: Client, env: nat -> Env)
    requires cfg.Valid() && P.Sound(c)
    ensures Enabled(c, LingerTimer) ==>
              var o := Step(cfg, c, LingerTimer, env);
              o.Running? && o.sent.None? && o.c.sock.None? && o.c.queue == [] && o.c.linger.None? && o.c.ackTime.None?
    ensures var o := Step(cfg, c, AllowConnect, env);
      o.Running? && o.sent.None? && o.c.sock == c.sock && o.c.queue == c.queue
      && o.c.reconnTime == if c.reconnTime.Some? then Some(env(0).now) else None
  {
  }
}
