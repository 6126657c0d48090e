/** The health status of a service (src/service/status.rs). */
module Status {

  datatype ServiceStatus = INIT | HEALTHY | CHECKING | UNHEALTHY

  /** `ServiceStatus::as_str`: the label shown in the service listing. */
  function AsStr(s: ServiceStatus): (r: string)
    ensures s == INIT <==> r == "Init"
    ensures s == HEALTHY <==> r == "Healthy"
    ensures s == CHECKING <==> r == "Checking"
    ensures s == UNHEALTHY <==> r == "Unhealthy"
  {
    match s
    case INIT => "Init"
    case HEALTHY => "Healthy"
    case CHECKING => "Checking"
    case UNHEALTHY => "Unhealthy"
  }

  /** Different statuses are shown with different labels. */
  lemma AsStrInjective(s: ServiceStatus, t: ServiceStatus)
    ensures AsStr(s) == AsStr(t) ==> s == t
  {
  }
}
