/** How the listen thread lends the worker's socket to the heartbeat thread while it re-registers. */
module Handoff {

  /** The listen loop: look at `reregistering`, raise `listen_suspended`, wait, lower it, or receive. */
  datatype Listen = Top | Suspending | Parked | Resuming | Receiving

  /** The heartbeat loop: sleep, look at `needs_reregister`, raise `reregistering`, wait for the listen
      thread to park, run `discovery_register`, lower `reregistering`. */
  datatype Heartbeat = Sleeping | Raising | Awaiting | Registering | Lowering | Beating

  datatype State = State(reregistering: bool, suspended: bool, needs: bool, listen: Listen, heartbeat: Heartbeat)

  /** One access to a shared flag by either thread; `evicted` and `ok` are what the network decides. */
  datatype Event = ListenStep(evicted: bool) | HeartbeatStep(ok: bool)

  predicate Init(s: State) {
    !s.reregistering && !s.suspended && s.listen == Top && s.heartbeat == Sleeping
  }

  function OnListen(s: State, evicted: bool): State {
    match s.listen
    case Top => s.(listen := if s.reregistering then Suspending else Receiving)
    case Suspending => s.(suspended := true, listen := Parked)
    case Parked => if s.reregistering then s else s.(listen := Resuming)
    case Resuming => s.(suspended := false, listen := Top)
    case Receiving => s.(needs := s.needs || evicted, listen := Top)
  }

  function OnHeartbeat(s: State, ok: bool): State {
    match s.heartbeat
    case Sleeping => s.(heartbeat := if s.needs then Raising else Beating)
    case Raising => s.(reregistering := true, heartbeat := Awaiting)
    case Awaiting => if s.suspended then s.(heartbeat := Registering) else s
    case Registering => s.(needs := s.needs && !ok, heartbeat := Lowering)
    case Lowering => s.(reregistering := false, heartbeat := if s.needs then Sleeping else Beating)
    case Beating => s.(heartbeat := Sleeping)
  }

  function Step(s: State, e: Event): State {
    match e
    case ListenStep(evicted) => OnListen(s, evicted)
    case HeartbeatStep(ok) => OnHeartbeat(s, ok)
  }

  ghost predicate IsRun(states: seq<State>, events: seq<Event>) {
    && |states| == |events| + 1 && Init(states[0])
    && forall i {:trigger events[i]} | 0 <= i < |events| :: states[i + 1] == Step(states[i], events[i])
  }

  /** A raised `listen_suspended`, stale or not, means the listen thread has not looked at
      `reregistering` since; and it is raised for as long as the heartbeat thread may register. */
  predicate Inv(s: State) {
    && (s.suspended <==> s.listen == Parked || s.listen == Resuming)
    && (s.reregistering <==> s.heartbeat == Awaiting || s.heartbeat == Registering || s.heartbeat == Lowering)
    && (s.heartbeat == Registering ==> s.listen != Receiving)
  }

  lemma {:induction false} RunInv(states: seq<State>, events: seq<Event>, i: nat)
    requires IsRun(states, events) && i < |states|
    ensures Inv(states[i])
    decreases i
  {
    if i > 0 {
      var j := i - 1;
      RunInv(states, events, j);
      assert states[j + 1] == Step(states[j], events[j]);
    }
  }

  /** In every interleaving, over any number of failed and successful re-registrations, the listen thread
      is never in `rpc_recv` while the heartbeat thread is inside `discovery_register`. */
  lemma NeverBothReceive(states: seq<State>, events: seq<Event>, i: nat)
    requires IsRun(states, events) && i < |states|
    ensures !(states[i].listen == Receiving && states[i].heartbeat == Registering)
  {
    RunInv(states, events, i);
  }

  /** The case the invariant is about does arise: after a failed attempt the heartbeat thread can start
      the next one on a `listen_suspended` that the listen thread is just about to lower. */
  lemma StaleSuspension() returns (states: seq<State>, events: seq<Event>)
    ensures IsRun(states, events)
    ensures var s := states[|events|]; s.heartbeat == Registering && s.listen == Top && !s.suspended && s.reregistering
  {
    var l, h := ListenStep(true), HeartbeatStep(false);
    var s0 := State(false, false, false, Top, Sleeping);
    var s1, s2 := State(false, false, false, Receiving, Sleeping), State(false, false, true, Top, Sleeping);
    var s3, s4 := State(false, false, true, Top, Raising), State(true, false, true, Top, Awaiting);
    var s5, s6 := State(true, false, true, Suspending, Awaiting), State(true, true, true, Parked, Awaiting);
    var s7, s8 := State(true, true, true, Parked, Registering), State(true, true, true, Parked, Lowering);
    var s9, s10 := State(false, true, true, Parked, Sleeping), State(false, true, true, Resuming, Sleeping);
    var s11, s12 := State(false, true, true, Resuming, Raising), State(true, true, true, Resuming, Awaiting);
    var s13, s14 := State(true, true, true, Resuming, Registering), State(true, false, true, Top, Registering);
    events := [l, l, h, h, l, l, h, h, h, l, h, h, h, l];
    states := [s0, s1, s2, s3, s4, s5, s6, s7, s8, s9, s10, s11, s12, s13, s14];
  }
}
