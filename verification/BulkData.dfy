/**
 Scheduling and retained reports of device_bulkdata.c: the reporting grid, the retry decision and the buffer
 of reports that have not been sent yet.
 */
module BulkData {
  import opened CommonDefs

  const MAX_RETAINED := 3    // BULKDATA_MAX_RETAINED_FAILED_REPORTS

  // ---------------------------------------------------------------- the reporting grid

  /** C's % on time_t: the remainder takes the sign of the dividend. */
  function TruncMod(a: int, d: int): int
    requires d > 0
  {
    if a >= 0 then a % d else -((-a) % d)
  }

  /** bulkdata_calc_waittime_to_next_reporting_interval */
  function GridWait(now: int, interval: int, reference: int): int
    requires interval > 0
  {
    var wait := interval - TruncMod(now - reference, interval);
    if wait > interval then wait - interval else wait
  }

  /** now + w is an instant of the reporting grid. */
  ghost predicate OnGrid(t: int, interval: int, reference: int)
    requires interval > 0
  {
    exists k: int :: t - reference == k * interval
  }

  lemma NegativeRemainder(a: int, d: int)
    requires d > 0
    ensures TruncMod(a, d) == a - d * (if a >= 0 then a / d else -((-a) / d))
    ensures -d < TruncMod(a, d) < d && (a >= 0 ==> TruncMod(a, d) >= 0) && (a < 0 ==> TruncMod(a, d) <= 0)
  {
    if a < 0 {
      var b := -a;
      assert b == d * (b / d) + b % d;
    }
  }

  /** The wait is the one in 1..interval that ends on the grid, also for a reference in the future. */
  lemma GridWaitExact(now: int, interval: int, reference: int, w: int)
    requires interval > 0 && 1 <= w <= interval
    ensures w == GridWait(now, interval, reference) <==> OnGrid(now + w, interval, reference)
    ensures 1 <= GridWait(now, interval, reference) <= interval
  {
    var a, g := now - reference, GridWait(now, interval, reference);
    NegativeRemainder(a, interval);
    var q := if a >= 0 then a / interval else -((-a) / interval);
    var k := if interval - TruncMod(a, interval) > interval then q else q + 1;
    assert a + g == k * interval;
    if OnGrid(now + w, interval, reference) {
      var j :| now + w - reference == j * interval;
      MulDistributes(j, k, interval);
      if j > k { MulAtLeast(j - k, interval); }
      if j < k { MulAtLeast(k - j, interval); MulDistributes(k, j, interval); }
    }
  }

  // ---------------------------------------------------------------- the profile

  datatype Report = Report(collectionTime: int, contents: string)

  /** The part of bulkdata_profile_t that changes while the profile runs. */
  datatype Profile = Profile(reports: seq<Report>, retryCount: nat)

  /** bulkdata_drop_oldest_retained_reports, when there are more than limit */
  function KeepNewest(reports: seq<Report>, limit: nat): (r: seq<Report>)
    ensures |r| == Min(|reports|, limit)
  {
    if |reports| > limit then reports[|reports| - limit..] else reports
  }

  /** The two ends of a resync: how long to wait, and the retry count afterwards. */
  datatype Resync = Resync(wait: int, retryCount: nat)

  /** bulkdata_calc_waittime_to_next_send; retryWait is what RETRY_WAIT_Calculate returns */
  function NextSend(retryCount: nat, gridWait: int, retryWait: nat): Resync {
    if retryCount != 0 && retryWait < gridWait then Resync(retryWait, retryCount) else Resync(gridWait, 0)
  }

  /**
   After every resync the retry count is zero exactly when the wait ends on the next grid instant; otherwise the
   wait is for a retry and ends before that instant. A retry is pending afterwards if and only if one was pending
   before and comes first.
   */
  lemma ResyncExact(retryCount: nat, retryWait: nat, now: int, interval: int, reference: int)
    requires interval > 0
    ensures var r := NextSend(retryCount, GridWait(now, interval, reference), retryWait);
      && (r.retryCount == 0 <==> 1 <= r.wait <= interval && OnGrid(now + r.wait, interval, reference))
      && (r.retryCount != 0 <==> retryCount != 0 && retryWait < GridWait(now, interval, reference))
      && (r.retryCount != 0 ==> r.retryCount == retryCount && r.wait == retryWait)
  {
    var g := GridWait(now, interval, reference);
    var r := NextSend(retryCount, g, retryWait);
    GridWaitExact(now, interval, reference, g);
    if 1 <= r.wait <= interval {
      GridWaitExact(now, interval, reference, r.wait);
    }
  }

  /**
   Fire: the profile's timer, with the configured limit and the report collected (None if collecting failed).
   Result: the transfer ended; the profile is resynced. Stop: the retained reports are cleared.
   */
  datatype Event =
    | Fire(limit: nat, report: Option<Report>)
    | Result(success: bool, retryEnabled: bool, gridWait: int, retryWait: nat)
    | Stop

  function Step(p: Profile, ev: Event): Profile {
    match ev
    case Fire(limit, report) =>
      if p.retryCount != 0 then p
      else
        var kept := KeepNewest(p.reports, limit);
        p.(reports := if report.Some? then kept + [report.value] else kept)
    case Result(success, retryEnabled, gridWait, retryWait) =>
      var q := if success then Profile([], 0)
               else p.(retryCount := if retryEnabled then p.retryCount + 1 else p.retryCount);
      q.(retryCount := NextSend(q.retryCount, gridWait, retryWait).retryCount)
    case Stop => Profile([], 0)
  }

  predicate ValidEvent(ev: Event) {
    ev.Fire? ==> ev.limit <= MAX_RETAINED
  }

  /** The reports collected since the retained reports were last cleared. */
  function Collected(p: Profile, before: seq<Report>, ev: Event): seq<Report> {
    match ev
    case Fire(_, report) => if p.retryCount == 0 && report.Some? then before + [report.value] else before
    case Result(success, _, _, _) => if success then [] else before
    case Stop => []
  }

  predicate IsSuffix(r: seq<Report>, all: seq<Report>) {
    |r| <= |all| && r == all[|all| - |r|..]
  }

  predicate IsRun(ps: seq<Profile>, hs: seq<seq<Report>>, evs: seq<Event>) {
    && |ps| == |hs| == |evs| + 1 && ps[0] == Profile([], 0) && hs[0] == []
    && forall i :: 0 <= i < |evs| ==>
         ValidEvent(evs[i]) && ps[i + 1] == Step(ps[i], evs[i]) && hs[i + 1] == Collected(ps[i], hs[i], evs[i])
  }

  lemma SuffixOfSuffix(all: seq<Report>, n: nat, m: nat)
    requires m <= n <= |all|
    ensures all[|all| - n..][n - m..] == all[|all| - m..]
  {
  }

  lemma SuffixSnoc(r: seq<Report>, all: seq<Report>, x: Report)
    requires IsSuffix(r, all)
    ensures IsSuffix(r + [x], all + [x])
  {
    assert (all + [x])[|all| - |r|..] == all[|all| - |r|..] + [x];
  }

  lemma StepKeeps(p: Profile, all: seq<Report>, ev: Event)
    requires IsSuffix(p.reports, all) && |p.reports| <= MAX_RETAINED + 1 && ValidEvent(ev)
    ensures IsSuffix(Step(p, ev).reports, Collected(p, all, ev)) && |Step(p, ev).reports| <= MAX_RETAINED + 1
    ensures ev.Fire? && p.retryCount == 0 ==>
              |Step(p, ev).reports| == Min(|p.reports|, ev.limit) + if ev.report.Some? then 1 else 0
  {
    if ev.Fire? && p.retryCount == 0 {
      var kept := KeepNewest(p.reports, ev.limit);
      SuffixOfSuffix(all, |p.reports|, |kept|);
      if ev.report.Some? {
        SuffixSnoc(kept, all, ev.report.value);
      }
    }
  }

  /**
   Over every run of timer fires, results and limit changes, the retained reports are the newest of those
   collected since the last clear, oldest first, never more than the array holds. A timer fire without a retry
   pending keeps as many as the current limit allows and adds the one collected, if any.
   */
  lemma {:induction false} RetainedIsNewest(ps: seq<Profile>, hs: seq<seq<Report>>, evs: seq<Event>, i: nat)
    requires IsRun(ps, hs, evs) && i < |ps|
    ensures IsSuffix(ps[i].reports, hs[i]) && |ps[i].reports| <= MAX_RETAINED + 1
    ensures i > 0 && evs[i - 1].Fire? && ps[i - 1].retryCount == 0 ==>
              |ps[i].reports| == Min(|ps[i - 1].reports|, evs[i - 1].limit) + if evs[i - 1].report.Some? then 1 else 0
  {
    if i == 0 {
    } else {
      RetainedIsNewest(ps, hs, evs, i - 1);
      StepKeeps(ps[i - 1], hs[i - 1], evs[i - 1]);
    }
  }

  /** The timer fires with this limit and a report is collected. */
  predicate Collects(ev: Event, limit: nat) {
    ev.Fire? ==> ev.limit == limit && ev.report.Some?
  }

  /** With one limit throughout, what is retained is exactly the newest limit + 1 reports, or all there are. */
  lemma {:induction false} RetainedCount(ps: seq<Profile>, hs: seq<seq<Report>>, evs: seq<Event>, limit: nat, i: nat)
    requires IsRun(ps, hs, evs) && i < |ps| && forall j :: 0 <= j < i ==> Collects(evs[j], limit)
    ensures |ps[i].reports| == Min(|hs[i]|, limit + 1)
  {
    if i == 0 {
    } else {
      RetainedCount(ps, hs, evs, limit, i - 1);
      assert Collects(evs[i - 1], limit);
    }
  }

  // ---------------------------------------------------------------- retries

  /** While a transfer is retried: the timer fires, or a transfer fails and its retry comes before the next interval. */
  predicate Retrying(ev: Event) {
    ev.Fire? || (ev.Result? && !ev.success && ev.retryEnabled && ev.retryWait < ev.gridWait)
  }

  function Failures(evs: seq<Event>): nat {
    if evs == [] then 0 else Failures(evs[..|evs| - 1]) + if evs[|evs| - 1].Result? then 1 else 0
  }

  /**
   From a failed transfer on, for as long as each failure's retry comes before the next reporting interval: every
   failure counts, and every retry sends the same reports, none collected and none dropped.
   */
  lemma {:induction false} RetriesSendTheSame(ps: seq<Profile>, hs: seq<seq<Report>>, evs: seq<Event>, i: nat, j: nat)
    requires IsRun(ps, hs, evs) && i <= j < |ps|
    requires evs[i..j] != [] ==> evs[i].Result?
    requires forall k :: i <= k < j ==> Retrying(evs[k])
    ensures ps[j] == ps[i].(retryCount := ps[i].retryCount + Failures(evs[i..j]))
    decreases j
  {
    if i == j {
      assert evs[i..j] == [];
    } else {
      assert evs[i..j][..j - 1 - i] == evs[i..j - 1];
      RetriesSendTheSame(ps, hs, evs, i, j - 1);
      assert Retrying(evs[j - 1]);
      if j - 1 > i {
        FailuresPositive(evs[i..j - 1]);
      }
    }
  }

  lemma {:induction false} FailuresPositive(evs: seq<Event>)
    requires evs != [] && evs[0].Result?
    ensures Failures(evs) > 0
    decreases |evs|
  {
    if |evs| > 1 {
      FailuresPositive(evs[..|evs| - 1]);
    }
  }

  // ---------------------------------------------------------------- the buffer in place

  /** bulkdata_profile_t: an array of reports of which the first num are retained. */
  class ProfileBuffer {
    const reports: array<Report>
    var num: nat
    var retryCount: nat

    ghost predicate Valid()
      reads this
    {
      reports.Length == MAX_RETAINED + 1 && num <= reports.Length
    }

    ghost function Value(): Profile
      reads this, reports
      requires Valid()
    {
      Profile(reports[..num], retryCount)
    }

    constructor ()
      ensures Valid() && Value() == Profile([], 0) && fresh(reports)
    {
      reports := new Report[MAX_RETAINED + 1](_ => Report(0, ""));
      num, retryCount := 0, 0;
    }

    /** bulkdata_drop_oldest_retained_reports: the newest reports are moved down in place. */
    method DropOldest(keep: nat)
      requires Valid() && keep < num
      modifies this`num, reports
      ensures Valid() && num == keep
      ensures reports[..num] == old(reports[..num])[old(num) - keep..]
    {
      var dropped := num - keep;
      ghost var was := reports[..num];
      var i := 0;
      while i < keep
        invariant 0 <= i <= keep && num == dropped + keep == |was|
        invariant forall j :: 0 <= j < i ==> reports[j] == was[j + dropped]
        invariant forall j :: i <= j < num ==> reports[j] == was[j]
      {
        reports[i] := reports[i + dropped];
        i := i + 1;
      }
      num := keep;
    }

    method Append(report: Report)
      requires Valid() && num <= MAX_RETAINED
      modifies this`num, reports
      ensures Valid() && num == old(num) + 1 && reports[..num] == old(reports[..num]) + [report]
    {
      reports[num] := report;
      num := num + 1;
    }

    /** The report-append part of bulkdata_process_profile_http */
    method Fire(limit: nat, report: Option<Report>)
      requires Valid() && limit <= MAX_RETAINED
      modifies this, reports
      ensures Valid()
      ensures Value() == Step(old(Value()), Event.Fire(limit, report))
    {
      if retryCount != 0 {
        return;
      }
      ghost var was := reports[..num];
      if num > limit {
        DropOldest(limit);
      }
      assert reports[..num] == KeepNewest(was, limit);
      if report.Some? {
        Append(report.value);
      }
    }

    /** bulkdata_clear_retained_reports */
    method Clear()
      requires Valid()
      modifies this, reports
      ensures Valid() && Value() == Profile([], 0)
    {
      var i := 0;
      while i < num
        invariant Valid()
      {
        reports[i] := Report(0, "");
        i := i + 1;
      }
      num := 0;
      retryCount := 0;
    }

    /**
     DEVICE_BULKDATA_NotifyTransferResult with bulkdata_resync_profile; wait is the time until the next send. A failure
     with retries enabled is retried if the retry comes before the next interval; without them a pending retry stays
     under the same condition. Otherwise the next send is the one of the reporting grid.
     */
    method NotifyResult(success: bool, retryEnabled: bool, now: int, interval: int, reference: int, retryWait: nat)
      returns (wait: int)
      requires Valid() && interval > 0
      modifies this, reports
      ensures Valid()
      ensures Value() ==
              Step(old(Value()), Result(success, retryEnabled, GridWait(now, interval, reference), retryWait))
      ensures retryCount == 0 <==> 1 <= wait <= interval && OnGrid(now + wait, interval, reference)
      ensures var grid := GridWait(now, interval, reference);
        var count := if success then 0 else if retryEnabled then old(retryCount) + 1 else old(retryCount);
        && (count > 0 && retryWait < grid ==> retryCount == count && wait == retryWait)
        && (count == 0 || retryWait >= grid ==> retryCount == 0 && wait == grid)
    {
      if success {
        Clear();
      } else if retryEnabled {
        retryCount := retryCount + 1;
      }
      ResyncExact(retryCount, retryWait, now, interval, reference);
      wait := GridWait(now, interval, reference);
      if retryCount != 0 {
        if retryWait < wait {
          wait := retryWait;
        } else {
          retryCount := 0;
        }
      }
    }
  }
}
