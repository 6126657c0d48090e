/** Successive check cycles of one service. The job's check lock is held for a
    whole cycle, so the cycles of a service run one after another: a run is the
    sequential composition of Cycle over a sequence of probe inputs. */
module ServiceRuns {
  import opened Wrappers
  import opened Status
  import opened Logging
  import opened ServiceCycle

  /** The inputs of one cycle: probe outcome, elapsed time, alert delivery outcome. */
  datatype Tick = Tick(probe: Outcome<string>, elapsedMs: nat, delivery: Outcome<string>)

  /** The health after a sequence of cycles, with every event they emitted in order. */
  function Run(p: Policy, name: string, h: Health, ticks: seq<Tick>): CycleResult {
    if ticks == [] then CycleResult(h, [])
    else
      var prev := Run(p, name, h, ticks[..|ticks| - 1]);
      var t := ticks[|ticks| - 1];
      var c := Cycle(p, name, prev.health, t.probe, t.elapsedMs, t.delivery);
      CycleResult(c.health, prev.events + c.events)
  }

  /** How many of the ticks carry a failed probe. */
  function Failures(ticks: seq<Tick>): nat {
    if ticks == [] then 0
    else Failures(ticks[..|ticks| - 1]) + (if ticks[|ticks| - 1].probe.Fail? then 1 else 0)
  }

  /** The latencies the successful ticks record, in order. */
  function PassLatencies(ticks: seq<Tick>): seq<nat> {
    if ticks == [] then []
    else
      var t := ticks[|ticks| - 1];
      PassLatencies(ticks[..|ticks| - 1]) + (if t.probe.Pass? then [t.elapsedMs % U32_LIMIT] else [])
  }

  predicate AllFail(ticks: seq<Tick>) {
    forall i :: 0 <= i < |ticks| ==> ticks[i].probe.Fail?
  }

  lemma AllFailPrefix(ticks: seq<Tick>, n: nat)
    requires AllFail(ticks) && n <= |ticks|
    ensures AllFail(ticks[..n])
  {
    forall i | 0 <= i < n ensures ticks[..n][i].probe.Fail? {
      assert ticks[..n][i] == ticks[i];
    }
  }

  /** After any non-empty run the status is HEALTHY or UNHEALTHY, "healthy
      implies no current failures" still holds, and the total grew by exactly
      the number of failed probes: serialised cycles neither lose nor double
      count a failure. */
  lemma {:induction false} RunInvariant(p: Policy, name: string, h: Health, ticks: seq<Tick>)
    requires Coherent(h)
    ensures var r := Run(p, name, h, ticks).health;
      && Coherent(r)
      && (ticks != [] ==> r.status == HEALTHY || r.status == UNHEALTHY)
      && r.failsTot == h.failsTot + Failures(ticks)
  {
    if ticks != [] {
      var init := ticks[..|ticks| - 1];
      RunInvariant(p, name, h, init);
      var t := ticks[|ticks| - 1];
      CyclePreservesInvariant(p, name, Run(p, name, h, init).health, t.probe, t.elapsedMs, t.delivery);
    }
  }

  /** Failed probes leave the history alone; successful ones record their
      latency, so the history is the recorded latencies pushed through Record. */
  lemma {:induction false} RunLatencies(p: Policy, name: string, h: Health, ticks: seq<Tick>)
    ensures Run(p, name, h, ticks).health.lats == RecordAll(h.lats, p.latsMaxTrack, PassLatencies(ticks))
  {
    if ticks != [] {
      var init := ticks[..|ticks| - 1];
      RunLatencies(p, name, h, init);
      var t := ticks[|ticks| - 1];
      if t.probe.Pass? {
        var xs := PassLatencies(init) + [t.elapsedMs % U32_LIMIT];
        assert xs[..|xs| - 1] == PassLatencies(init);
      } else {
        assert PassLatencies(ticks) == PassLatencies(init);
      }
    }
  }

  /** With a positive capacity K the history after a run is the last K of the
      latencies ever recorded; with capacity 0 it is all of them. */
  lemma HistoryAfterRun(p: Policy, name: string, h: Health, ticks: seq<Tick>)
    requires p.latsMaxTrack > 0 ==> |h.lats| <= p.latsMaxTrack
    ensures p.latsMaxTrack > 0 ==>
      Run(p, name, h, ticks).health.lats == LastN(h.lats + PassLatencies(ticks), p.latsMaxTrack)
    ensures p.latsMaxTrack == 0 ==>
      Run(p, name, h, ticks).health.lats == h.lats + PassLatencies(ticks)
  {
    RunLatencies(p, name, h, ticks);
    if p.latsMaxTrack > 0 {
      RecordAllKeepsLastN(h.lats, p.latsMaxTrack, PassLatencies(ticks));
    } else {
      RecordAllUnbounded(h.lats, PassLatencies(ticks));
    }
  }

  /** A run of k failed probes from a current count c: both counters grow by k,
      the history is unchanged, nothing is logged at INFO, no pass alert is
      sent, and the fail alert is sent once if the run passes through the
      count N (c <= N < c + k), otherwise never. */
  lemma {:induction false} FailureRun(p: Policy, name: string, h: Health, ticks: seq<Tick>)
    requires AllFail(ticks)
    ensures var r := Run(p, name, h, ticks);
      && r.health.failsCur == h.failsCur + |ticks|
      && r.health.failsTot == h.failsTot + |ticks|
      && r.health.lats == h.lats
      && (ticks != [] ==> r.health.status == UNHEALTHY)
      && (ticks == [] ==> r.health == h)
      && AlertCount(r.events, FailAlert)
         == (if p.hasFailAlert && p.failsCntToAlert > 0
                && h.failsCur <= p.failsCntToAlert < h.failsCur + |ticks| then 1 else 0)
      && AlertCount(r.events, PassAlert) == 0
      && LogCount(r.events, INFO) == 0
  {
    if ticks != [] {
      var init := ticks[..|ticks| - 1];
      AllFailPrefix(ticks, |ticks| - 1);
      FailureRun(p, name, h, init);
      var prev := Run(p, name, h, init);
      var t := ticks[|ticks| - 1];
      assert t.probe.Fail?;
      CycleOnFailure(p, name, prev.health, t.probe.error, t.elapsedMs, t.delivery);
      var c := Cycle(p, name, prev.health, t.probe, t.elapsedMs, t.delivery);
      AlertCountAppend(prev.events, c.events, FailAlert);
      AlertCountAppend(prev.events, c.events, PassAlert);
      LogCountAppend(prev.events, c.events, INFO);
    }
  }

  /** From a service with no current failures, k consecutive failed probes send
      the fail alert iff one is configured, N > 0 and k > N: the alert goes
      out on failure N + 1, not on failure N, and never when N = 0. */
  lemma FailAlertOnFailureAfterThreshold(p: Policy, name: string, h: Health, ticks: seq<Tick>)
    requires h.failsCur == 0 && AllFail(ticks)
    ensures AlertCount(Run(p, name, h, ticks).events, FailAlert)
         == (if p.hasFailAlert && p.failsCntToAlert > 0 && |ticks| > p.failsCntToAlert then 1 else 0)
    ensures p.hasFailAlert && p.failsCntToAlert > 0 && |ticks| > p.failsCntToAlert ==>
      && AlertCount(Run(p, name, h, ticks[..p.failsCntToAlert]).events, FailAlert) == 0
      && AlertCount(Run(p, name, h, ticks[..p.failsCntToAlert + 1]).events, FailAlert) == 1
  {
    FailureRun(p, name, h, ticks);
    if p.hasFailAlert && p.failsCntToAlert > 0 && |ticks| > p.failsCntToAlert {
      var n := p.failsCntToAlert;
      var before, upTo := ticks[..n], ticks[..n + 1];
      assert |before| == n && |upTo| == n + 1;
      AllFailPrefix(ticks, n);
      AllFailPrefix(ticks, n + 1);
      FailureRun(p, name, h, before);
      FailureRun(p, name, h, upTo);
    }
  }

  /** With threshold 0 no run of any kind ever sends the fail alert. */
  lemma {:induction false} ThresholdZeroNeverSendsFailAlert(p: Policy, name: string, h: Health, ticks: seq<Tick>)
    requires p.failsCntToAlert == 0
    ensures AlertCount(Run(p, name, h, ticks).events, FailAlert) == 0
  {
    if ticks != [] {
      var init := ticks[..|ticks| - 1];
      ThresholdZeroNeverSendsFailAlert(p, name, h, init);
      var prev := Run(p, name, h, init);
      var t := ticks[|ticks| - 1];
      var c := Cycle(p, name, prev.health, t.probe, t.elapsedMs, t.delivery);
      AlertCountAppend(prev.events, c.events, FailAlert);
      match t.probe {
        case Fail(e) => CycleOnFailure(p, name, prev.health, e, t.elapsedMs, t.delivery);
        case Pass =>
          if prev.health.status == HEALTHY {
            CycleOnSuccessWhenHealthy(p, name, prev.health, t.elapsedMs, t.delivery);
          } else {
            CycleOnRecovery(p, name, prev.health, t.elapsedMs, t.delivery);
          }
      }
    }
  }

  /** k >= 1 failed probes from a service with no current failures, then one
      success: what the two alerts do over the whole episode. */
  lemma FailuresThenRecovery(p: Policy, name: string, h: Health, fails: seq<Tick>, t: Tick)
    requires h.failsCur == 0 && |fails| > 0 && AllFail(fails) && t.probe.Pass?
    ensures var r := Run(p, name, h, fails + [t]);
      && r.health.status == HEALTHY && r.health.failsCur == 0
      && r.health.failsTot == h.failsTot + |fails|
      && AlertCount(r.events, FailAlert)
         == (if p.hasFailAlert && p.failsCntToAlert > 0 && |fails| > p.failsCntToAlert then 1 else 0)
      && AlertCount(r.events, PassAlert)
         == (if p.hasPassAlert && |fails| >= p.failsCntToAlert then 1 else 0)
      && LogCount(r.events, INFO) == 1
  {
    var ticks := fails + [t];
    assert ticks[..|ticks| - 1] == fails;
    FailureRun(p, name, h, fails);
    var prev := Run(p, name, h, fails);
    CycleOnRecovery(p, name, prev.health, t.elapsedMs, t.delivery);
    var c := Cycle(p, name, prev.health, t.probe, t.elapsedMs, t.delivery);
    AlertCountAppend(prev.events, c.events, FailAlert);
    AlertCountAppend(prev.events, c.events, PassAlert);
    LogCountAppend(prev.events, c.events, INFO);
  }

  /** Exactly N failures and then a success, N > 0, both alerts configured: the
      fail alert was never sent, yet the pass alert is. */
  lemma PassAlertWithoutFailAlert(p: Policy, name: string, h: Health, fails: seq<Tick>, t: Tick)
    requires p.hasPassAlert && p.hasFailAlert && p.failsCntToAlert > 0
    requires h.failsCur == 0 && |fails| == p.failsCntToAlert && AllFail(fails) && t.probe.Pass?
    ensures AlertCount(Run(p, name, h, fails + [t]).events, FailAlert) == 0
    ensures AlertCount(Run(p, name, h, fails + [t]).events, PassAlert) == 1
  {
    FailuresThenRecovery(p, name, h, fails, t);
  }

  /** More than N failures, N > 0, then a success: one fail alert, one pass alert. */
  lemma AlertedEpisodeSendsOneOfEach(p: Policy, name: string, h: Health, fails: seq<Tick>, t: Tick)
    requires p.hasPassAlert && p.hasFailAlert && p.failsCntToAlert > 0
    requires h.failsCur == 0 && |fails| > p.failsCntToAlert && AllFail(fails) && t.probe.Pass?
    ensures AlertCount(Run(p, name, h, fails + [t]).events, FailAlert) == 1
    ensures AlertCount(Run(p, name, h, fails + [t]).events, PassAlert) == 1
  {
    FailuresThenRecovery(p, name, h, fails, t);
  }

  /** Fewer than N failures, then a success: neither alert is sent. */
  lemma ShortEpisodeSendsNoAlert(p: Policy, name: string, h: Health, fails: seq<Tick>, t: Tick)
    requires h.failsCur == 0 && 0 < |fails| < p.failsCntToAlert && AllFail(fails) && t.probe.Pass?
    ensures AlertCount(Run(p, name, h, fails + [t]).events, FailAlert) == 0
    ensures AlertCount(Run(p, name, h, fails + [t]).events, PassAlert) == 0
  {
    FailuresThenRecovery(p, name, h, fails, t);
  }

  /** Threshold 0: any recovery after at least one failure sends the pass alert,
      while the fail alert is never sent. */
  lemma ThresholdZeroRecoverySendsPassAlert(p: Policy, name: string, h: Health, fails: seq<Tick>, t: Tick)
    requires p.hasPassAlert && p.failsCntToAlert == 0
    requires h.failsCur == 0 && |fails| > 0 && AllFail(fails) && t.probe.Pass?
    ensures AlertCount(Run(p, name, h, fails + [t]).events, FailAlert) == 0
    ensures AlertCount(Run(p, name, h, fails + [t]).events, PassAlert) == 1
  {
    FailuresThenRecovery(p, name, h, fails, t);
  }

  /** Threshold 3, both alerts configured, from a fresh service: three failures
      leave the counters at 3 and the status UNHEALTHY with no fail alert sent;
      the following success sends the pass alert and resets the counter. */
  lemma ThreeFailuresThenSuccessWithThresholdThree(name: string, e: string, ms: nat)
    ensures var p := Policy(10, 3, true, true);
      var h := Health(INIT, 0, 0, []);
      var fails := [Tick(Fail(e), ms, Pass), Tick(Fail(e), ms, Pass), Tick(Fail(e), ms, Pass)];
      var mid := Run(p, name, h, fails);
      var end := Run(p, name, h, fails + [Tick(Pass, ms, Pass)]);
      && mid.health == Health(UNHEALTHY, 3, 3, [])
      && AlertCount(mid.events, FailAlert) == 0
      && AlertCount(mid.events, PassAlert) == 0
      && end.health == Health(HEALTHY, 0, 3, [ms % U32_LIMIT])
      && AlertCount(end.events, FailAlert) == 0
      && AlertCount(end.events, PassAlert) == 1
  {
    var p := Policy(10, 3, true, true);
    var h := Health(INIT, 0, 0, []);
    var fails := [Tick(Fail(e), ms, Pass), Tick(Fail(e), ms, Pass), Tick(Fail(e), ms, Pass)];
    FailureRun(p, name, h, fails);
    FailuresThenRecovery(p, name, h, fails, Tick(Pass, ms, Pass));
    var ticks := fails + [Tick(Pass, ms, Pass)];
    assert ticks[..|ticks| - 1] == fails;
    RunLatencies(p, name, h, ticks);
  }
}
