/** Which workers have passed the RAM probe: not every ACTIVE one, and exactly when every one has. */
module RegistryProbe {
  import opened Registry
  import opened RegistryLaws

  /** The id in slot `k` has answered its probe by state `n`: a CAP_ACK has activated the slot since an
      AUTH_HELLO last took it. */
  function Answered(cfg: Config, states: seq<seq<Entry>>, events: seq<Timed>, n: nat, k: nat): bool
    requires n <= |events| < |states|
  {
    n > 0 &&
    match events[n - 1].event
    case Hello(info, _, _) => HelloSlot(cfg, states[n - 1], info) != k && Answered(cfg, states, events, n - 1, k)
    case CapAck(src, ack) => AckSlot(cfg, states[n - 1], src, ack) == k || Answered(cfg, states, events, n - 1, k)
    case _ => Answered(cfg, states, events, n - 1, k)
  }

  /** An expiry pass at `now` makes the PENDING entry `e` SUSPECTED. */
  predicate Slips(e: Entry, now: Clock) {
    e.id != 0 && e.state == Pending && SUSPECTED_TIMEOUT < Age(now, e.lastSeen) <= EXPIRED_TIMEOUT
  }

  predicate SlipsAt(states: seq<seq<Entry>>, events: seq<Timed>, i: nat, k: nat)
    requires i < |events| && i < |states|
  {
    events[i].event == Tick && k < |states[i]| && Slips(states[i][k], events[i].now)
  }

  /** A slot that is in use and trusted. */
  predicate Trusted(e: Entry) {
    e.id != 0 && (e.state == Active || e.state == Suspected)
  }

  /** An entry and whether its probe has been answered. */
  predicate Earned(e: Entry, answered: bool) {
    Trusted(e) ==> answered
  }

  predicate Waiting(e: Entry, answered: bool) {
    e.id != 0 && e.state == Pending ==> !answered
  }

  /** What one event does to one slot, as far as the probe goes. */
  lemma SlotStep(cfg: Config, states: seq<seq<Entry>>, events: seq<Timed>, i: nat, k: nat)
    requires IsRun(cfg, states, events) && i < |events| && k < |states[i]|
    ensures |states[i + 1]| == |states[i]|
    ensures var was, now := states[i][k], states[i + 1][k];
            var before, after := Answered(cfg, states, events, i, k), Answered(cfg, states, events, i + 1, k);
            && (Waiting(was, before) ==> Waiting(now, after))
            && (Earned(was, before) && !SlipsAt(states, events, i, k) ==> Earned(now, after))
            && (Waiting(was, before) && SlipsAt(states, events, i, k) ==> !Earned(now, after))
  {
    assert StepsAt(cfg, states, events, i);
  }

  lemma {:induction false} WaitingNow(cfg: Config, states: seq<seq<Entry>>, events: seq<Timed>, n: nat, k: nat)
    requires IsRun(cfg, states, events) && n < |states| && k < |states[0]|
    ensures |states[n]| == |states[0]| && Waiting(states[n][k], Answered(cfg, states, events, n, k))
    decreases n
  {
    if n > 0 {
      WaitingNow(cfg, states, events, n - 1, k);
      SlotStep(cfg, states, events, n - 1, k);
    }
  }

  /** In every run every ACTIVE or SUSPECTED worker of slot `k` has answered its probe, at every point up
      to `n`, if and only if no expiry pass before that found the slot PENDING and silent for longer than
      the first timeout but not the second. */
  lemma {:induction false} EarnedIff(cfg: Config, states: seq<seq<Entry>>, events: seq<Timed>, n: nat, k: nat)
    requires IsRun(cfg, states, events) && n < |states| && k < |states[0]|
    ensures (forall i | 0 <= i <= n :: EarnedAt(cfg, states, events, i, k)) <==>
            (forall i | 0 <= i < n :: !SlipsAt(states, events, i, k))
    decreases n
  {
    WaitingNow(cfg, states, events, n, k);
    if n > 0 {
      EarnedIff(cfg, states, events, n - 1, k);
      WaitingNow(cfg, states, events, n - 1, k);
      SlotStep(cfg, states, events, n - 1, k);
      assert (forall i | 0 <= i <= n :: EarnedAt(cfg, states, events, i, k)) <==>
             (forall i | 0 <= i <= n - 1 :: EarnedAt(cfg, states, events, i, k)) && EarnedAt(cfg, states, events, n, k);
      assert (forall i | 0 <= i < n :: !SlipsAt(states, events, i, k)) <==>
             (forall i | 0 <= i < n - 1 :: !SlipsAt(states, events, i, k)) && !SlipsAt(states, events, n - 1, k);
      assert EarnedAt(cfg, states, events, n - 1, k) == Earned(states[n - 1][k], Answered(cfg, states, events, n - 1, k));
    } else {
      assert EarnedAt(cfg, states, events, 0, k);
    }
  }

  predicate EarnedAt(cfg: Config, states: seq<seq<Entry>>, events: seq<Timed>, i: nat, k: nat)
    requires i <= |events| < |states|
  {
    k < |states[i]| ==> Earned(states[i][k], Answered(cfg, states, events, i, k))
  }

  /** Any PENDING slot that slips is ACTIVE after its next heartbeat. */
  lemma SlipsThrough(cfg: Config, r: seq<Entry>, before: Clock, k: nat, tick: Clock, beat: Clock)
    requires Healthy(r, before) && k < |r| && Slips(r[k], tick)
    ensures var r' := Step(cfg, Step(cfg, r, Timed(tick, Tick)), Timed(beat, Heartbeat(r[k].id)));
            r'[k].state == Active && r'[k].id == r[k].id
  {
    var r1 := Step(cfg, r, Timed(tick, Tick));
    FindIdMisses(r1, r[k].id, 0, k);
    var j := FindId(r1, r[k].id, 0);
    assert r[j].id == r[k].id;
  }

  /** A worker that never answers its probe becomes ACTIVE with the first heartbeat after it was suspected. */
  lemma ActiveUnprobed() returns (states: seq<seq<Entry>>, events: seq<Timed>)
    ensures IsRun(Trusting(), states, events) && states[0] == Empty()
    ensures events == [Greeting(2), Timed(500, Tick), Timed(500, Heartbeat(2))]
    ensures |states[3]| > 0 && IsActive(states[3][0]) && !Answered(Trusting(), states, events, 3, 0)
  {
    events := [Greeting(2), Timed(500, Tick), Timed(500, Heartbeat(2))];
    var cfg, r0 := Trusting(), Empty();
    var r1 := Step(cfg, r0, events[0]);
    FirstFree(r0, 2, 0);
    assert r1 == r0[0 := Probed(2, Pending, Addr(0, 0), Addr(0, 0))];
    var r2 := Step(cfg, r1, events[1]);
    var r3 := Step(cfg, r2, events[2]);
    HealthyStep(cfg, r0, 0, events[0]);
    SlipsThrough(cfg, r1, 0, 0, 500, 500);
    states := [r0, r1, r2, r3];
    forall i | 0 <= i < 3 ensures StepsAt(cfg, states, events, i) {
      assert i == 0 || i == 1 || i == 2;
    }
    assert !Answered(cfg, states, events, 0, 0) && !Answered(cfg, states, events, 1, 0) && !Answered(cfg, states, events, 2, 0);
  }
}
