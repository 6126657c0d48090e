/** The shared table of service states keyed by uid (src/service/state.rs). */
module ServiceStates {
  import opened Status

  datatype ServiceState = ServiceState(uid: string, status: ServiceStatus)

  /** The map behind `SharedState`; the read-write lock around it is not modelled. */
  class SharedState {
    var entries: map<string, ServiceState>

    constructor (entries: map<string, ServiceState>)
      ensures this.entries == entries
    {
      this.entries := entries;
    }
  }

  /** The table after setting the status of entry `uid`, if there is one. */
  function WithStatus(m: map<string, ServiceState>, uid: string, status: ServiceStatus)
    : (r: map<string, ServiceState>)
    ensures r.Keys == m.Keys
    ensures uid in m ==> r[uid] == ServiceState(m[uid].uid, status)
    ensures forall k :: k in m && k != uid ==> r[k] == m[k]
    ensures uid !in m ==> r == m
  {
    if uid in m then m[uid := m[uid].(status := status)] else m
  }

  /** `ServiceState::set_state`: updates the entry in place; an unknown uid
      changes nothing and inserts nothing. */
  method SetState(state: SharedState, uid: string, status: ServiceStatus)
    modifies state
    ensures state.entries == WithStatus(old(state.entries), uid, status)
  {
    if uid in state.entries {
      var service := state.entries[uid];
      state.entries := state.entries[uid := service.(status := status)];
    }
  }

  /** Setting a status and reading it back gives that status. */
  lemma SetThenRead(m: map<string, ServiceState>, uid: string, status: ServiceStatus, again: ServiceStatus)
    requires uid in m
    ensures WithStatus(m, uid, status)[uid].status == status
    ensures WithStatus(WithStatus(m, uid, again), uid, status) == WithStatus(m, uid, status)
  {
  }
}
