/** A service's probe with its failure counters (src/check/model.rs). */
module CheckModel {
  import opened Wrappers
  import CheckHttp

  /** The probe kinds; today only HTTP. */
  datatype CheckType = Http(http: CheckHttp.HttpCheck)

  class Check {
    var cron: string
    var checkType: CheckType
    /** Failures over the whole run. */
    var failsTot: nat
    /** Failures since the last success. */
    var failsCur: nat

    /** `Check::new`: keeps the schedule and probe, starts both counters at zero. */
    constructor (cron: string, checkType: CheckType)
      ensures this.cron == cron && this.checkType == checkType
      ensures failsTot == 0 && failsCur == 0
    {
      this.cron := cron;
      this.checkType := checkType;
      failsTot := 0;
      failsCur := 0;
    }

    /** `Check::exec`: dispatches to the probe of its kind and changes nothing. */
    method Exec(reply: CheckHttp.HttpReply) returns (r: Outcome<string>)
      ensures r == CheckHttp.ReplyOutcome(reply)
    {
      match checkType {
        case Http(http) => r := http.Exec(reply);
      }
    }
  }
}
