/** A monitored service (src/service/model.rs, src/service/status.rs): its status,
    its latency history and its check, updated in place by the check cycle. */
module ServiceModel {
  import opened Wrappers
  import opened Status
  import opened Logging
  import opened ServiceCycle
  import CheckHttp
  import CheckModel

  /** The alert kinds; today only a Discord webhook. How an alert is delivered
      is not modelled: the cycle is told whether delivery succeeded. */
  datatype AlertType = Discord(webhookUrl: string, timeout: nat, contentBasic: string, contentRaw: Option<string>)

  datatype Alert = Alert(alertType: AlertType)

  class Service {
    var status: ServiceStatus
    const name: string
    /** History capacity; 0 means unbounded. */
    const latsMaxTrack: nat
    /** Recent probe latencies in milliseconds, oldest first. */
    var lats: seq<nat>
    /** The fail threshold N. */
    const failsCntToAlert: nat
    const check: CheckModel.Check
    const alertPass: Option<Alert>
    const alertFail: Option<Alert>

    /** The history never exceeds a positive capacity and holds u32 values. */
    ghost predicate Valid()
      reads this
    {
      && (latsMaxTrack > 0 ==> |lats| <= latsMaxTrack)
      && forall i :: 0 <= i < |lats| ==> lats[i] < U32_LIMIT
    }

    /** The state the check cycle changes, as a value. */
    function State(): Health
      reads this, check
    {
      Health(status, check.failsCur, check.failsTot, lats)
    }

    /** The configuration the check cycle reads, as a value. */
    function Settings(): Policy {
      Policy(latsMaxTrack, failsCntToAlert, alertPass.Some?, alertFail.Some?)
    }

    /** `Service::new`: status INIT, empty history, threshold 3 and capacity 10
        unless given. */
    constructor (name: string, check: CheckModel.Check, alertPass: Option<Alert>, alertFail: Option<Alert>,
                 failsCntToAlert: Option<nat>, latsMaxTrack: Option<nat>)
      ensures Valid()
      ensures status == INIT && lats == []
      ensures this.name == name && this.check == check
      ensures this.alertPass == alertPass && this.alertFail == alertFail
      ensures this.latsMaxTrack == (if latsMaxTrack.Some? then latsMaxTrack.value else 10)
      ensures this.failsCntToAlert == (if failsCntToAlert.Some? then failsCntToAlert.value else 3)
    {
      status := INIT;
      this.name := name;
      this.latsMaxTrack := latsMaxTrack.GetOr(10);
      lats := [];
      this.check := check;
      this.alertPass := alertPass;
      this.alertFail := alertFail;
      this.failsCntToAlert := failsCntToAlert.GetOr(3);
    }

    /** `get_status`: reads the status and changes nothing. */
    method GetStatus() returns (s: ServiceStatus)
      ensures s == status
    {
      s := status;
    }

    /** `set_status`: replaces the status and nothing else. It does not touch
        the counters, so setting HEALTHY while failures are being counted
        leaves a state the check cycle never produces. */
    method SetStatus(s: ServiceStatus)
      modifies this
      ensures status == s
      ensures lats == old(lats)
      ensures Coherent(State()) <==> (s != HEALTHY || check.failsCur == 0)
    {
      status := s;
    }

    /** `lat_min`: nothing for an empty history, else its smallest value. */
    function LatMin(): (r: Option<nat>)
      reads this
      ensures r.None? <==> lats == []
      ensures r.Some? ==> r.value in lats && forall i :: 0 <= i < |lats| ==> r.value <= lats[i]
    {
      if lats == [] then None else Some(SeqMin(lats))
    }

    /** `lat_max`: nothing for an empty history, else its largest value. */
    function LatMax(): (r: Option<nat>)
      reads this
      ensures r.None? <==> lats == []
      ensures r.Some? ==> r.value in lats && forall i :: 0 <= i < |lats| ==> lats[i] <= r.value
    {
      if lats == [] then None else Some(SeqMax(lats))
    }

    /** `lat_avg`: nothing for an empty history, else the floor of the mean,
        which lies between the minimum and the maximum. */
    function LatAvg(): (r: Option<nat>)
      reads this
      ensures r.None? <==> lats == []
      ensures r.Some? ==> r.value * |lats| <= Sum(lats) < (r.value + 1) * |lats|
      ensures r.Some? ==> LatMin().value <= r.value <= LatMax().value
    {
      if lats == [] then None
      else
        AverageBetweenMinAndMax(lats);
        FloorDiv(Sum(lats), |lats|);
        Some(Sum(lats) / |lats|)
    }

    /** `lat_last`: nothing for an empty history, else the newest value. */
    function LatLast(): (r: Option<nat>)
      reads this
      ensures r.None? <==> lats == []
      ensures r.Some? ==> r.value == lats[|lats| - 1]
    {
      if |lats| == 0 then None else Some(lats[|lats| - 1])
    }

    /** The latency step of a successful cycle (src/service/model.rs:167-177):
        push, then evict the oldest entry when a positive capacity is exceeded. */
    method RecordLatency(lat: nat)
      requires Valid() && lat < U32_LIMIT
      modifies this`lats
      ensures Valid()
      ensures lats == Record(old(lats), latsMaxTrack, lat)
    {
      lats := lats + [lat];
      assert forall i :: 0 <= i < |lats| ==> lats[i] < U32_LIMIT;
      if latsMaxTrack > 0 && |lats| > latsMaxTrack {
        lats := lats[1..];
      }
    }

    /** The failure branch of the cycle (src/service/model.rs:132-164): logs
        the first failure of an episode, sends the fail alert when the
        pre-increment count equals the threshold, then marks the service
        unhealthy and counts the failure. */
    method HandleFailure(e: string, delivery: Outcome<string>) returns (events: seq<Event>)
      requires Valid()
      modifies this, check
      ensures Valid()
      ensures var r := OnFailure(Settings(), name, old(State()), e, delivery);
        State() == r.health && events == r.events
      ensures check.cron == old(check.cron) && check.checkType == old(check.checkType)
    {
      events := [];
      if check.failsCur == 0 {
        events := events + [Logged(ERROR, "Unable to run check for " + name + ": " + e)];
      }
      if alertFail.Some? && failsCntToAlert > 0 && check.failsCur == failsCntToAlert {
        events := events + AlertEvents(FailAlert, name, delivery);
      }
      status := UNHEALTHY;
      check.failsCur := check.failsCur + 1;
      check.failsTot := check.failsTot + 1;
    }

    /** The success branch of the cycle (src/service/model.rs:165-215), given
        the status the service had before the cycle marked it as checking. */
    method HandleSuccess(oldStatus: ServiceStatus, lat: nat, delivery: Outcome<string>)
      returns (events: seq<Event>)
      requires Valid() && lat < U32_LIMIT
      modifies this, check
      ensures Valid()
      ensures var r := OnSuccess(Settings(), name, old(State()).(status := oldStatus), lat, delivery);
        State() == r.health && events == r.events
      ensures check.cron == old(check.cron) && check.checkType == old(check.checkType)
    {
      RecordLatency(lat);
      status := HEALTHY;
      if oldStatus == HEALTHY {
        return [];
      }
      events := AnnounceRecovery(delivery);
    }

    /** A service that was not healthy has passed (src/service/model.rs:190-214):
        the INFO line, the pass alert when it is due, and the current failure
        count reset. */
    method AnnounceRecovery(delivery: Outcome<string>) returns (events: seq<Event>)
      modifies check
      ensures events == RecoveryEvents(Settings(), name, old(check.failsCur), delivery)
      ensures check.failsCur == 0 && check.failsTot == old(check.failsTot)
      ensures check.cron == old(check.cron) && check.checkType == old(check.checkType)
    {
      events := [Logged(INFO, name + " is now healthy!")];
      if alertPass.Some?
         && ((failsCntToAlert < 1 && check.failsCur > 0)
             || (failsCntToAlert > 0 && check.failsCur >= failsCntToAlert))
      {
        events := events + AlertEvents(PassAlert, name, delivery);
      }
      check.failsCur := 0;
    }

    /** One run of the scheduled job (src/service/model.rs:119-216). `reply` is
        what the probe's request produced, `elapsedMs` the time it took and
        `delivery` what executing an alert returns. The new state and the
        events are those of the Cycle function. */
    method RunCheckCycle(reply: CheckHttp.HttpReply, elapsedMs: nat, delivery: Outcome<string>)
      returns (events: seq<Event>)
      requires Valid()
      modifies this, check
      ensures Valid()
      ensures var r := Cycle(Settings(), name, old(State()), CheckHttp.ReplyOutcome(reply), elapsedMs, delivery);
        State() == r.health && events == r.events
      ensures status == HEALTHY || status == UNHEALTHY
      ensures old(Coherent(State())) ==> Coherent(State())
      ensures check.cron == old(check.cron) && check.checkType == old(check.checkType)
    {
      ghost var before := State();
      if Coherent(before) {
        CyclePreservesInvariant(Settings(), name, before, CheckHttp.ReplyOutcome(reply), elapsedMs, delivery);
      }
      var oldStatus := status;
      status := CHECKING;
      var res := check.Exec(reply);
      match res {
        case Fail(e) =>
          events := HandleFailure(e, delivery);
        case Pass =>
          events := HandleSuccess(oldStatus, elapsedMs % U32_LIMIT, delivery);
      }
    }
  }
}
