/** The check cycle of one service (src/service/model.rs:119-216) as a function on
    values: the health record before, the probe outcome and the measured time give
    the health record after and the log lines and alerts emitted. The class in
    ServiceModel runs the same cycle in place and is proved equal to it. */
module ServiceCycle {
  import opened Wrappers
  import opened Status
  import opened Logging

  /** Latencies are stored as u32; `as_millis() as u32` keeps the low 32 bits. */
  const U32_LIMIT: nat := 0x1_0000_0000

  datatype AlertKind = PassAlert | FailAlert

  /** What a cycle emits: a request to the logger (which may still gate it), or
      the execution of one of the service's alerts. */
  datatype Event = Logged(level: LogLevel, message: string) | AlertSent(kind: AlertKind)

  /** The mutable part of a service: its status, the two failure counters of its
      check and its latency history, oldest first. */
  datatype Health = Health(status: ServiceStatus, failsCur: nat, failsTot: nat, lats: seq<nat>)

  /** The fixed part: history capacity (0 = unbounded), the fail threshold N,
      and whether a pass and a fail alert are configured. */
  datatype Policy = Policy(latsMaxTrack: nat, failsCntToAlert: nat, hasPassAlert: bool, hasFailAlert: bool)

  datatype CycleResult = CycleResult(health: Health, events: seq<Event>)

  /** A healthy service has no current failures. */
  ghost predicate Coherent(h: Health) {
    h.status == HEALTHY ==> h.failsCur == 0
  }

  /** The guard of the fail alert, taken before the counter is incremented. */
  predicate FailAlertDue(p: Policy, failsCur: nat) {
    p.hasFailAlert && p.failsCntToAlert > 0 && failsCur == p.failsCntToAlert
  }

  /** The guard of the pass alert on a recovery. */
  predicate PassAlertDue(p: Policy, failsCur: nat) {
    p.hasPassAlert
    && ((p.failsCntToAlert < 1 && failsCur > 0)
        || (p.failsCntToAlert > 0 && failsCur >= p.failsCntToAlert))
  }

  /** Appends one latency and, with a positive capacity that is now exceeded,
      evicts the oldest one. */
  function Record(lats: seq<nat>, maxTrack: nat, lat: nat): (r: seq<nat>)
    ensures |r| == if maxTrack > 0 && |lats| + 1 > maxTrack then |lats| else |lats| + 1
    ensures r == (lats + [lat])[|lats| + 1 - |r|..]
    ensures r[|r| - 1] == lat
    ensures maxTrack > 0 && |lats| <= maxTrack ==> |r| <= maxTrack
  {
    var pushed := lats + [lat];
    if maxTrack > 0 && |pushed| > maxTrack then pushed[1..] else pushed
  }

  /** The ERROR line logged when executing an alert failed. */
  function AlertFailureLine(kind: AlertKind, name: string, e: string): string {
    var what := if kind == FailAlert then "fail alert" else "healthyalert";
    "Unable to run " + what + " for " + name + ": " + e
  }

  /** Runs one alert: it is sent, and a failed delivery is logged. */
  function AlertEvents(kind: AlertKind, name: string, delivery: Outcome<string>): seq<Event> {
    match delivery
    case Pass => [AlertSent(kind)]
    case Fail(e) => [AlertSent(kind), Logged(ERROR, AlertFailureLine(kind, name, e))]
  }

  /** One cycle of the job body. `probe` is what `check.exec()` returned,
      `elapsedMs` the time the probe took and `delivery` what executing an
      alert returns, should one be executed. */
  function Cycle(p: Policy, name: string, h: Health, probe: Outcome<string>,
                 elapsedMs: nat, delivery: Outcome<string>): (r: CycleResult)
    ensures r.health.status == HEALTHY <==> probe.Pass?
    ensures r.health.status == UNHEALTHY <==> probe.Fail?
    ensures r.health.failsTot == h.failsTot + (if probe.Fail? then 1 else 0)
  {
    match probe
    case Fail(e) => OnFailure(p, name, h, e, delivery)
    case Pass => OnSuccess(p, name, h, elapsedMs % U32_LIMIT, delivery)
  }

  /** The failure branch of a cycle: the first failure of an episode is logged,
      the alert goes out when the pre-increment count equals the threshold. */
  function OnFailure(p: Policy, name: string, h: Health, e: string, delivery: Outcome<string>): (r: CycleResult)
    ensures r.health == Health(UNHEALTHY, h.failsCur + 1, h.failsTot + 1, h.lats)
    ensures r.events == [] <==> h.failsCur > 0 && !FailAlertDue(p, h.failsCur)
    ensures |r.events| <= 3
  {
    var firstLog := if h.failsCur == 0
      then [Logged(ERROR, "Unable to run check for " + name + ": " + e)] else [];
    var alert := if FailAlertDue(p, h.failsCur) then AlertEvents(FailAlert, name, delivery) else [];
    CycleResult(Health(UNHEALTHY, h.failsCur + 1, h.failsTot + 1, h.lats), firstLog + alert)
  }

  /** The success branch of a cycle: the latency is recorded; a service that
      was not healthy is announced healthy, may send the pass alert and has its
      current failure count reset. */
  function OnSuccess(p: Policy, name: string, h: Health, lat: nat, delivery: Outcome<string>): (r: CycleResult)
    ensures r.health.status == HEALTHY && r.health.failsTot == h.failsTot
    ensures r.health.lats == Record(h.lats, p.latsMaxTrack, lat)
    ensures r.health.failsCur == if h.status == HEALTHY then h.failsCur else 0
    ensures r.events == [] <==> h.status == HEALTHY
  {
    var lats := Record(h.lats, p.latsMaxTrack, lat);
    if h.status == HEALTHY then
      CycleResult(Health(HEALTHY, h.failsCur, h.failsTot, lats), [])
    else
      CycleResult(Health(HEALTHY, 0, h.failsTot, lats), RecoveryEvents(p, name, h.failsCur, delivery))
  }

  /** What a service that becomes healthy again emits: the INFO line, then the
      pass alert when it is due for `failsCur` failures. */
  function RecoveryEvents(p: Policy, name: string, failsCur: nat, delivery: Outcome<string>): (r: seq<Event>)
    ensures 1 <= |r| <= 3 && r[0] == Logged(INFO, name + " is now healthy!")
    ensures |r| > 1 <==> PassAlertDue(p, failsCur)
    ensures PassAlertDue(p, failsCur) ==> r[1] == AlertSent(PassAlert)
  {
    var alert := if PassAlertDue(p, failsCur) then AlertEvents(PassAlert, name, delivery) else [];
    [Logged(INFO, name + " is now healthy!")] + alert
  }

  /** How many alerts of one kind a sequence of events contains. */
  function AlertCount(events: seq<Event>, kind: AlertKind): nat {
    if events == [] then 0
    else (if events[0] == AlertSent(kind) then 1 else 0) + AlertCount(events[1..], kind)
  }

  lemma {:induction false} AlertCountAppend(a: seq<Event>, b: seq<Event>, kind: AlertKind)
    ensures AlertCount(a + b, kind) == AlertCount(a, kind) + AlertCount(b, kind)
  {
    if a != [] {
      assert (a + b)[0] == a[0] && (a + b)[1..] == a[1..] + b;
      AlertCountAppend(a[1..], b, kind);
    } else {
      assert a + b == b;
    }
  }

  /** How many log requests at one level a sequence of events contains. */
  function LogCount(events: seq<Event>, level: LogLevel): nat {
    if events == [] then 0
    else (if events[0].Logged? && events[0].level == level then 1 else 0) + LogCount(events[1..], level)
  }

  // ---------------------------------------------------------------------------
  // One cycle

  /** An executed alert counts once, under its own kind, and logs nothing at INFO. */
  lemma AlertEventsCounts(kind: AlertKind, name: string, delivery: Outcome<string>)
    ensures AlertCount(AlertEvents(kind, name, delivery), kind) == 1
    ensures AlertCount(AlertEvents(kind, name, delivery), if kind == PassAlert then FailAlert else PassAlert) == 0
    ensures LogCount(AlertEvents(kind, name, delivery), INFO) == 0
    ensures LogCount(AlertEvents(kind, name, delivery), ERROR) == if delivery.Fail? then 1 else 0
    ensures delivery.Fail? ==>
      AlertEvents(kind, name, delivery)[1] == Logged(ERROR, AlertFailureLine(kind, name, delivery.error))
  {
    var other := if kind == PassAlert then FailAlert else PassAlert;
    CountsOfOne(AlertSent(kind), kind, INFO);
    CountsOfOne(AlertSent(kind), other, INFO);
    CountsOfOne(AlertSent(kind), other, ERROR);
    if delivery.Fail? {
      var line := Logged(ERROR, AlertFailureLine(kind, name, delivery.error));
      assert AlertEvents(kind, name, delivery) == [AlertSent(kind)] + [line];
      CountsOfOne(line, kind, INFO);
      CountsOfOne(line, other, INFO);
      AlertCountAppend([AlertSent(kind)], [line], kind);
      AlertCountAppend([AlertSent(kind)], [line], other);
      LogCountAppend([AlertSent(kind)], [line], INFO);
      CountsOfOne(line, kind, ERROR);
      LogCountAppend([AlertSent(kind)], [line], ERROR);
    }
  }

  lemma CountsOfOne(x: Event, kind: AlertKind, level: LogLevel)
    ensures AlertCount([x], kind) == if x == AlertSent(kind) then 1 else 0
    ensures LogCount([x], level) == if x.Logged? && x.level == level then 1 else 0
  {
    assert [x][1..] == [];
  }

  /** A failed probe: both counters grow by one, the status is UNHEALTHY, the
      history is untouched, the ERROR line is logged only on the first failure
      of a run, no pass alert is sent and the fail alert is sent exactly when
      its guard holds on the counter before the increment. */
  lemma CycleOnFailure(p: Policy, name: string, h: Health, e: string, elapsedMs: nat, delivery: Outcome<string>)
    ensures var r := Cycle(p, name, h, Fail(e), elapsedMs, delivery);
      && r.health == Health(UNHEALTHY, h.failsCur + 1, h.failsTot + 1, h.lats)
      && (Logged(ERROR, "Unable to run check for " + name + ": " + e) in r.events <==> h.failsCur == 0)
      && AlertCount(r.events, FailAlert)
         == (if p.hasFailAlert && p.failsCntToAlert > 0 && h.failsCur == p.failsCntToAlert then 1 else 0)
      && AlertCount(r.events, PassAlert) == 0
      && LogCount(r.events, INFO) == 0
  {
    var r := Cycle(p, name, h, Fail(e), elapsedMs, delivery);
    var checkLine := Logged(ERROR, "Unable to run check for " + name + ": " + e);
    var firstLog := if h.failsCur == 0 then [checkLine] else [];
    var alert := if FailAlertDue(p, h.failsCur) then AlertEvents(FailAlert, name, delivery) else [];
    assert r.events == firstLog + alert;
    AlertCountAppend(firstLog, alert, FailAlert);
    AlertCountAppend(firstLog, alert, PassAlert);
    LogCountAppend(firstLog, alert, INFO);
    if alert != [] {
      AlertEventsCounts(FailAlert, name, delivery);
      if delivery.Fail? {
        var alertLine := AlertFailureLine(FailAlert, name, delivery.error);
        assert alertLine[14] == 'f' && checkLine.message[14] == 'c';
      }
      assert checkLine !in alert;
    }
    if firstLog != [] {
      assert firstLog[1..] == [];
    }
  }

  lemma {:induction false} LogCountAppend(a: seq<Event>, b: seq<Event>, level: LogLevel)
    ensures LogCount(a + b, level) == LogCount(a, level) + LogCount(b, level)
  {
    if a != [] {
      assert (a + b)[0] == a[0] && (a + b)[1..] == a[1..] + b;
      LogCountAppend(a[1..], b, level);
    } else {
      assert a + b == b;
    }
  }

  /** A successful probe of an already healthy service only records the latency:
      no log line, no alert, counters unchanged. */
  lemma CycleOnSuccessWhenHealthy(p: Policy, name: string, h: Health, elapsedMs: nat, delivery: Outcome<string>)
    requires h.status == HEALTHY
    ensures var r := Cycle(p, name, h, Pass, elapsedMs, delivery);
      && r.events == []
      && r.health.status == HEALTHY
      && r.health.failsCur == h.failsCur && r.health.failsTot == h.failsTot
      && r.health.lats == Record(h.lats, p.latsMaxTrack, elapsedMs % U32_LIMIT)
  {
  }

  /** A successful probe of a service that was not healthy: the INFO line is
      logged, the pass alert is sent exactly when its guard holds on the
      failure counter, and the counter is then reset. */
  lemma CycleOnRecovery(p: Policy, name: string, h: Health, elapsedMs: nat, delivery: Outcome<string>)
    requires h.status != HEALTHY
    ensures var r := Cycle(p, name, h, Pass, elapsedMs, delivery);
      && r.events[0] == Logged(INFO, name + " is now healthy!")
      && LogCount(r.events, INFO) == 1
      && AlertCount(r.events, PassAlert)
         == (if p.hasPassAlert && ((p.failsCntToAlert == 0 && h.failsCur > 0)
                                   || (p.failsCntToAlert > 0 && h.failsCur >= p.failsCntToAlert))
             then 1 else 0)
      && AlertCount(r.events, FailAlert) == 0
      && r.health == Health(HEALTHY, 0, h.failsTot, Record(h.lats, p.latsMaxTrack, elapsedMs % U32_LIMIT))
  {
    var r := Cycle(p, name, h, Pass, elapsedMs, delivery);
    var info := [Logged(INFO, name + " is now healthy!")];
    var alert := if PassAlertDue(p, h.failsCur) then AlertEvents(PassAlert, name, delivery) else [];
    assert r.events == info + alert;
    AlertCountAppend(info, alert, FailAlert);
    AlertCountAppend(info, alert, PassAlert);
    LogCountAppend(info, alert, INFO);
    CountsOfOne(info[0], PassAlert, INFO);
    CountsOfOne(info[0], FailAlert, INFO);
    if alert != [] {
      AlertEventsCounts(PassAlert, name, delivery);
    }
  }

  /** Every cycle ends HEALTHY or UNHEALTHY (CHECKING is always overwritten),
      keeps "healthy implies no current failures", and never lowers the total. */
  lemma CyclePreservesInvariant(p: Policy, name: string, h: Health, probe: Outcome<string>,
                                elapsedMs: nat, delivery: Outcome<string>)
    requires Coherent(h)
    ensures var r := Cycle(p, name, h, probe, elapsedMs, delivery).health;
      && (r.status == HEALTHY || r.status == UNHEALTHY)
      && Coherent(r)
      && r.failsTot >= h.failsTot
  {
  }

  // ---------------------------------------------------------------------------
  // The latency history

  /** The last `k` elements of `s` (all of them when there are fewer). */
  function LastN(s: seq<nat>, k: nat): (r: seq<nat>)
    ensures |r| <= k && |r| <= |s| && r == s[|s| - |r|..]
    ensures |s| >= k ==> |r| == k
  {
    if |s| <= k then s else s[|s| - k..]
  }

  /** Records a sequence of latencies one after another. */
  function RecordAll(lats: seq<nat>, maxTrack: nat, xs: seq<nat>): seq<nat> {
    if xs == [] then lats
    else Record(RecordAll(lats, maxTrack, xs[..|xs| - 1]), maxTrack, xs[|xs| - 1])
  }

  lemma RecordLastN(s: seq<nat>, k: nat, x: nat)
    requires k > 0
    ensures Record(LastN(s, k), k, x) == LastN(s + [x], k)
  {
    if |s| > k {
      assert (s[|s| - k..] + [x])[1..] == (s + [x])[|s| + 1 - k..];
    }
  }

  /** With a positive capacity K the history holds the last K recorded values,
      in the order they were recorded. */
  lemma {:induction false} RecordAllKeepsLastN(lats: seq<nat>, k: nat, xs: seq<nat>)
    requires k > 0 && |lats| <= k
    ensures RecordAll(lats, k, xs) == LastN(lats + xs, k)
  {
    if xs == [] {
      assert lats + xs == lats;
    } else {
      var init, last := xs[..|xs| - 1], xs[|xs| - 1];
      var prev := RecordAll(lats, k, init);
      RecordAllKeepsLastN(lats, k, init);
      RecordLastN(lats + init, k, last);
      AppendLast(lats, xs);
      assert RecordAll(lats, k, xs) == Record(prev, k, last);
    }
  }

  lemma AppendLast(lats: seq<nat>, xs: seq<nat>)
    requires xs != []
    ensures (lats + xs[..|xs| - 1]) + [xs[|xs| - 1]] == lats + xs
  {
    assert xs == xs[..|xs| - 1] + [xs[|xs| - 1]];
  }

  /** With capacity 0 nothing is ever evicted. */
  lemma {:induction false} RecordAllUnbounded(lats: seq<nat>, xs: seq<nat>)
    ensures RecordAll(lats, 0, xs) == lats + xs
  {
    if xs != [] {
      RecordAllUnbounded(lats, xs[..|xs| - 1]);
      assert lats + xs[..|xs| - 1] + [xs[|xs| - 1]] == lats + xs;
    }
  }

  /** Capacity 5 and seven distinct latencies: the 3rd to 7th remain, in order. */
  lemma WindowOfFiveAfterSeven(xs: seq<nat>)
    requires |xs| == 7
    ensures RecordAll([], 5, xs) == xs[2..]
  {
    RecordAllKeepsLastN([], 5, xs);
    assert [] + xs == xs;
  }

  // ---------------------------------------------------------------------------
  // The latency queries

  function Sum(s: seq<nat>): nat {
    if s == [] then 0 else s[0] + Sum(s[1..])
  }

  /** `iter().min()` on a non-empty history. */
  function SeqMin(s: seq<nat>): (r: nat)
    requires |s| > 0
    ensures r in s && forall i :: 0 <= i < |s| ==> r <= s[i]
  {
    if |s| == 1 then s[0]
    else var m := SeqMin(s[1..]); if s[0] <= m then s[0] else m
  }

  /** `iter().max()` on a non-empty history. */
  function SeqMax(s: seq<nat>): (r: nat)
    requires |s| > 0
    ensures r in s && forall i :: 0 <= i < |s| ==> s[i] <= r
  {
    if |s| == 1 then s[0]
    else var m := SeqMax(s[1..]); if s[0] >= m then s[0] else m
  }

  lemma {:induction false} SumBounds(s: seq<nat>, lo: nat, hi: nat)
    requires forall i :: 0 <= i < |s| ==> lo <= s[i] <= hi
    ensures |s| * lo <= Sum(s) <= |s| * hi
  {
    if s != [] {
      SumBounds(s[1..], lo, hi);
      assert |s| * lo == lo + (|s| - 1) * lo;
      assert |s| * hi == hi + (|s| - 1) * hi;
    }
  }

  lemma DivBounds(a: nat, n: nat, lo: nat, hi: nat)
    requires n > 0 && n * lo <= a <= n * hi
    ensures lo <= a / n <= hi
  {
    var q := a / n;
    assert n * q <= a < n * (q + 1);
    MulCancel(n, lo, q + 1);
    MulCancel(n, q, hi + 1);
  }

  /** The quotient is the floor of the exact ratio. */
  lemma FloorDiv(a: nat, n: nat)
    requires n > 0
    ensures (a / n) * n <= a < (a / n + 1) * n
  {
    assert a == (a / n) * n + a % n;
  }

  lemma MulCancel(n: nat, x: nat, y: nat)
    requires n * x < n * y
    ensures x < y
  {
  }

  /** The floor of the mean lies between the smallest and the largest latency. */
  lemma AverageBetweenMinAndMax(s: seq<nat>)
    requires |s| > 0
    ensures SeqMin(s) <= Sum(s) / |s| <= SeqMax(s)
  {
    SumBounds(s, SeqMin(s), SeqMax(s));
    DivBounds(Sum(s), |s|, SeqMin(s), SeqMax(s));
  }
}
