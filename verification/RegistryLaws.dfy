/** What every history of the registry keeps, and what its ring pointers mean. */
module RegistryLaws {
  import opened Registry

  // ----- Histories -----

  datatype Event =
    | Hello(info: Info, nonce: nat, seed: nat)
    | CapAck(src: Addr, ack: Ack)
    | Heartbeat(id: nat)
    | Tick

  datatype Timed = Timed(now: Clock, event: Event)

  function Step(cfg: Config, r: seq<Entry>, e: Timed): (r': seq<Entry>)
    ensures |r'| == |r|
  {
    match e.event
    case Hello(info, nonce, seed) => OnHello(cfg, r, info, e.now, nonce, seed)
    case CapAck(src, ack) => OnAck(cfg, r, src, ack, e.now)
    case Heartbeat(id) => OnHeartbeat(r, id, e.now)
    case Tick => OnExpire(r, e.now)
  }

  /** A run from empty slots under a clock that does not go back. */
  ghost predicate IsRun(cfg: Config, states: seq<seq<Entry>>, events: seq<Timed>) {
    && |states| == |events| + 1
    && (forall k | 0 <= k < |states[0]| :: states[0][k].id == 0)
    && forall i {:trigger StepsAt(cfg, states, events, i)} | 0 <= i < |events| :: StepsAt(cfg, states, events, i)
  }

  predicate StepsAt(cfg: Config, states: seq<seq<Entry>>, events: seq<Timed>, i: nat)
    requires i < |events| && |states| == |events| + 1
  {
    states[i + 1] == Step(cfg, states[i], events[i]) && (i > 0 ==> events[i - 1].now <= events[i].now)
  }

  // ----- Lifecycle -----

  ghost predicate Healthy(r: seq<Entry>, now: Clock) {
    && (forall i, j | 0 <= i < j < |r| && r[i].id != 0 :: r[i].id != r[j].id)
    && (forall i | 0 <= i < |r| && r[i].id != 0 ::
          r[i].lastSeen <= now && (r[i].state == Suspected ==> now - r[i].lastSeen > SUSPECTED_TIMEOUT))
  }

  /** Only an AUTH_HELLO gives a slot a new id, and only if no slot has it. */
  lemma HealthyHello(cfg: Config, r: seq<Entry>, before: Clock, now: Clock, info: Info, nonce: nat, seed: nat)
    requires Healthy(r, before) && before <= now
    ensures Healthy(OnHello(cfg, r, info, now, nonce, seed), now)
  {
    var k := HelloSlot(cfg, r, info);
    var r' := OnHello(cfg, r, info, now, nonce, seed);
    if k >= 0 {
      assert forall i | 0 <= i < |r| && i != k :: r'[i] == r[i];
      forall i | 0 <= i < |r| && i != k && info.id != 0 ensures r[i].id != info.id {
        FindIdMisses(r, info.id, 0, i);
      }
    }
  }

  lemma HealthyAck(cfg: Config, r: seq<Entry>, before: Clock, now: Clock, src: Addr, ack: Ack)
    requires Healthy(r, before) && before <= now
    ensures Healthy(OnAck(cfg, r, src, ack, now), now)
  {
    var k := AckSlot(cfg, r, src, ack);
    var r' := OnAck(cfg, r, src, ack, now);
    assert forall i | 0 <= i < |r| && i != k ::
        r'[i].id == r[i].id && r'[i].state == r[i].state && r'[i].lastSeen == r[i].lastSeen;
  }

  lemma HealthyStep(cfg: Config, r: seq<Entry>, before: Clock, e: Timed)
    requires Healthy(r, before) && before <= e.now
    ensures Healthy(Step(cfg, r, e), e.now)
  {
    match e.event
    case Hello(info, nonce, seed) => HealthyHello(cfg, r, before, e.now, info, nonce, seed);
    case CapAck(src, ack) => HealthyAck(cfg, r, before, e.now, src, ack);
    case Heartbeat(id) =>
    case Tick =>
  }

  /** In every state of every run: worker ids stay unique, and a SUSPECTED worker has been silent
      for longer than the timeout. */
  lemma {:induction false} RunHealthy(cfg: Config, states: seq<seq<Entry>>, events: seq<Timed>, i: nat)
    requires IsRun(cfg, states, events) && i < |states|
    ensures Healthy(states[i], if i == 0 then 0 else events[i - 1].now)
    decreases i
  {
    if i > 0 {
      RunHealthy(cfg, states, events, i - 1);
      assert StepsAt(cfg, states, events, i - 1);
      HealthyNext(cfg, states[i - 1], states[i], if i == 1 then 0 else events[i - 2].now, events[i - 1]);
    }
  }

  lemma HealthyNext(cfg: Config, r: seq<Entry>, r': seq<Entry>, before: Clock, e: Timed)
    requires Healthy(r, before) && before <= e.now && r' == Step(cfg, r, e)
    ensures Healthy(r', e.now)
  {
    HealthyStep(cfg, r, before, e);
  }

  /** Right after an expiry pass nobody has been silent longer than its state allows. */
  lemma AfterTick(cfg: Config, states: seq<seq<Entry>>, events: seq<Timed>, i: nat, k: nat)
    requires IsRun(cfg, states, events) && i < |events| && events[i].event == Tick
    requires k < |states[i + 1]| && states[i + 1][k].id != 0
    ensures var e := states[i + 1][k];
            var silence := events[i].now - e.lastSeen;
            && (e.state == Pending || e.state == Active ==> 0 <= silence <= SUSPECTED_TIMEOUT)
            && (e.state == Suspected ==> SUSPECTED_TIMEOUT < silence <= EXPIRED_TIMEOUT)
  {
    RunHealthy(cfg, states, events, i + 1);
    assert StepsAt(cfg, states, events, i);
  }

  /** EXPIRED is left only by an AUTH_HELLO with the right commitment; ACTIVE is entered only from
      PENDING by a CAP_ACK that answers the probe, or from SUSPECTED by a heartbeat. */
  lemma Transitions(cfg: Config, r: seq<Entry>, e: Timed, k: nat)
    requires k < |r|
    ensures var was, now := r[k], Step(cfg, r, e)[k];
            && (was.state == Expired && now.state != Expired ==>
                  && e.event.Hello? && e.event.info.psk == cfg.commitment
                  && now.state == Pending && now.id == e.event.info.id && now.addr == e.event.info.addr)
            && (was.state != Active && now.state == Active ==>
                  || (&& e.event.CapAck? && was.state == Pending && e.event.src == was.addr
                      && e.event.ack == Ack(was.nonce, was.checksum, cfg.identity(was.nonce)))
                  || (e.event.Heartbeat? && was.state == Suspected && e.event.id == was.id))
  {
    var p := if e.event.CapAck? then AckSlot(cfg, r, e.event.src, e.event.ack) else -1;
    assert p >= 0 ==> e.event.ack == Ack(r[p].nonce, r[p].checksum, cfg.identity(r[p].nonce));
  }

  /** A repeated AUTH_HELLO never changes the registry again, whatever it draws, and it is answered as
      the first one was if and only if that one did not fail for want of entropy after taking a slot. */
  lemma HelloRepeats(cfg: Config, r: seq<Entry>, info: Info, now: Clock, nonce: nat, seed: nat,
                     now': Clock, nonce': nat, seed': nat)
    ensures var r' := OnHello(cfg, r, info, now, nonce, seed);
            && OnHello(cfg, r', info, now', nonce', seed') == r'
            && (HelloReply(cfg, r', info, nonce', seed') == HelloReply(cfg, r, info, nonce, seed) <==>
                (HelloSlot(cfg, r, info) >= 0 ==> nonce != 0 && seed != 0))
  {
    var k, r' := HelloSlot(cfg, r, info), OnHello(cfg, r, info, now, nonce, seed);
    if k >= 0 {
      FindIdMisses(r', info.id, 0, k);
      var j := FindId(r', info.id, 0);
      FindIdMisses(r, info.id, 0, j);
      assert j == k;
    }
  }

  /** The registry as the master starts it, and one in which everybody holds the key. */
  function Empty(): (r: seq<Entry>)
    ensures |r| == MAX_WORKERS
  {
    seq(MAX_WORKERS, _ => Entry(0, Addr(0, 0), Pending, 0, 0, 0, 0, 0, Addr(0, 0), Addr(0, 0)))
  }

  function NoIdentity(nonce: nat): Digest { [] }

  function NoChecksum(seed: nat, pages: nat): nat { 0 }

  function Trusting(): Config {
    Config(Addr(1, 1), [], NoIdentity, NoChecksum)
  }

  /** Such a hello: the entropy draw of the first fails, and the repeat is answered with a probe. */
  lemma HelloRefusedThenProbed() returns (info: Info)
    ensures var r' := OnHello(Trusting(), Empty(), info, 0, 0, 7);
            && HelloReply(Trusting(), Empty(), info, 0, 7) == SystemErr
            && HelloReply(Trusting(), r', info, 7, 7) == Probe(0, 0, 0)
  {
    info := Info(1, Addr(2, 2), 0, []);
    FirstFree(Empty(), 1, 0);
    var r' := OnHello(Trusting(), Empty(), info, 0, 0, 7);
    assert r'[0].id == 1 && r'[0].state == Pending;
  }

  // ----- Ring pointers -----

  /** The ACTIVE slot with address `a` at or after `i`, or -1. */
  function ActiveAt(r: seq<Entry>, a: Addr, i: nat): (k: int)
    requires i <= |r|
    ensures k != -1 ==> i <= k < |r| && IsActive(r[k]) && r[k].addr == a
    ensures k == -1 ==> forall j | i <= j < |r| && IsActive(r[j]) :: r[j].addr != a
    decreases |r| - i
  {
    if i == |r| then -1 else if IsActive(r[i]) && r[i].addr == a then i else ActiveAt(r, a, i + 1)
  }

  /** The slots met, and the address reached, by following next pointers from `a`. */
  function Walk(r: seq<Entry>, master: Addr, a: Addr, fuel: nat): (seq<nat>, Addr)
    decreases fuel
  {
    var i := ActiveAt(r, a, 0);
    if a == master || i == -1 || fuel == 0 then ([], a)
    else
      var (rest, end) := Walk(r, master, r[i].next, fuel - 1);
      ([i] + rest, end)
  }

  /** The slots of `order` can be found by address, and each one's next is the one after it. */
  predicate Chained(r: seq<Entry>, master: Addr, order: seq<nat>) {
    forall k | 0 <= k < |order| :: order[k] < |r| && ChainedAt(r, master, order, k)
  }

  predicate ChainedAt(r: seq<Entry>, master: Addr, order: seq<nat>, k: nat)
    requires k < |order| && order[k] < |r|
  {
    && r[order[k]].addr != master && ActiveAt(r, r[order[k]].addr, 0) == order[k]
    && (k == |order| - 1 ==> r[order[k]].next == master)
    && (k < |order| - 1 ==> order[k + 1] < |r| && r[order[k]].next == r[order[k + 1]].addr)
  }

  lemma StitchedChained(r: seq<Entry>, master: Addr, order: seq<nat>, k: nat)
    requires Stitched(r, master) && Distinct(r, master) && IsOrder(r, order) && k < |order|
    ensures order[k] < |r| && ChainedAt(r, master, order, k)
  {
    OrderNeighbours(r, order, k);
    var i := order[k];
    assert r[i].next == NextLink(r, master, i);
  }

  lemma {:induction false} WalkFrom(r: seq<Entry>, master: Addr, order: seq<nat>, k: nat, fuel: nat)
    requires Chained(r, master, order) && k < |order| && |order| - k <= fuel
    ensures Walk(r, master, r[order[k]].addr, fuel) == (order[k..], master)
    decreases |order| - k
  {
    assert ChainedAt(r, master, order, k);
    if k < |order| - 1 {
      WalkFrom(r, master, order, k + 1, fuel - 1);
      assert order[k..] == [order[k]] + order[k + 1..];
    } else {
      assert order[k..] == [order[k]] + [];
    }
  }

  lemma {:induction false} OrderLength(r: seq<Entry>, n: nat)
    requires n <= |r|
    ensures |Order(r, n)| <= n
    decreases n
  {
    if n > 0 { OrderLength(r, n - 1); }
  }

  /** Which slots are ACTIVE and at which address decides all links. */
  lemma LinksSame(r: seq<Entry>, r': seq<Entry>, master: Addr, i: nat)
    requires |r| == |r'| && i < |r|
    requires forall j | 0 <= j < |r| :: (IsActive(r[j]) <==> IsActive(r'[j])) && r[j].addr == r'[j].addr
    ensures PrevLink(r, master, i) == PrevLink(r', master, i)
    ensures NextLink(r, master, i) == NextLink(r', master, i)
  {
  }

  lemma RestitchIsStitched(r: seq<Entry>, master: Addr)
    ensures Stitched(Restitch(r, master), master)
  {
    var r' := Restitch(r, master);
    forall i | 0 <= i < |r| && IsActive(r[i])
      ensures r'[i].prev == PrevLink(r', master, i) && r'[i].next == NextLink(r', master, i)
    {
      LinksSame(r, r', master, i);
    }
  }

  /** After `discovery_restitch_ring`, following next from the first ACTIVE slot visits every ACTIVE
      slot once, in slot order, and ends at the master. */
  lemma RestitchedWalk(r: seq<Entry>, master: Addr)
    requires Distinct(r, master) && Order(r, |r|) != []
    ensures var order := Order(r, |r|);
            Walk(Restitch(r, master), master, r[order[0]].addr, |r|) == (order, master)
  {
    var order := Order(r, |r|);
    OrderLength(r, |r|);
    RestitchChains(r, master);
    WalkFrom(Restitch(r, master), master, order, 0, |r|);
    assert order[0..] == order;
  }

  lemma RestitchChains(r: seq<Entry>, master: Addr)
    requires Distinct(r, master)
    ensures var order, r' := Order(r, |r|), Restitch(r, master);
            forall k {:trigger ChainedAt(r', master, order, k)} | 0 <= k < |order| ::
              order[k] < |r'| && ChainedAt(r', master, order, k)
  {
    var order, r' := Order(r, |r|), Restitch(r, master);
    RestitchIsStitched(r, master);
    forall k | 0 <= k < |order| ensures order[k] < |r'| && ChainedAt(r', master, order, k) {
      StitchedChained(r', master, order, k);
    }
  }

  /** prev inverts next. */
  lemma PrevInvertsNext(r: seq<Entry>, master: Addr, i: nat, j: nat)
    requires Distinct(r, master) && i < |r| && j < |r| && IsActive(r[i]) && IsActive(r[j])
    ensures var r' := Restitch(r, master); r'[i].next == r[j].addr <==> r'[j].prev == r[i].addr
  {
    var a, b := FirstActive(r, i + 1), LastActive(r, 0, j);
    assert a == j <==> b == i;
  }

  /** The only slot that names the master as next, the one `master_ring_tail` finds, is the last. */
  lemma TailIsLast(r: seq<Entry>, master: Addr, order: seq<nat>, k: nat)
    requires Distinct(r, master) && IsOrder(r, order) && k < |order|
    ensures Restitch(r, master)[order[k]].next == master <==> k == |order| - 1
  {
    OrderNeighbours(r, order, k);
    NextIsMaster(r, master, order[k]);
  }

  lemma NextIsMaster(r: seq<Entry>, master: Addr, i: nat)
    requires Distinct(r, master) && i < |r| && IsActive(r[i])
    ensures Restitch(r, master)[i].next == master <==> FirstActive(r, i + 1) == -1
  {
  }

  // ----- The incremental stitch -----

  /** `slot` has just been activated in a table that was stitched before. */
  predicate JustActivated(r: seq<Entry>, master: Addr, slot: nat) {
    && slot < |r| && IsActive(r[slot]) && Distinct(r, master)
    && Stitched(r[slot := r[slot].(state := Pending)], master)
  }

  /** The incremental stitch of `handle_cap_ack` agrees with full recomputation exactly when the
      new slot lies above every ACTIVE one. */
  lemma InsertAgrees(r: seq<Entry>, master: Addr, slot: nat)
    requires JustActivated(r, master, slot)
    ensures Insert(r, master, slot) == Restitch(r, master) <==>
            forall j | 0 <= j < |r| && IsActive(r[j]) :: j <= slot
  {
    var r' := Insert(r, master, slot);
    if forall j | 0 <= j < |r| && IsActive(r[j]) :: j <= slot {
      InsertAbove(r, master, slot);
    } else {
      var q := FirstActive(r, slot + 1);
      InsertBelow(r, master, slot, q);
    }
  }

  lemma InsertAbove(r: seq<Entry>, master: Addr, slot: nat)
    requires JustActivated(r, master, slot)
    requires forall j | 0 <= j < |r| && IsActive(r[j]) :: j <= slot
    ensures Insert(r, master, slot) == Restitch(r, master)
  {
    var r', goal := Insert(r, master, slot), Restitch(r, master);
    forall i | 0 <= i < |r| ensures r'[i] == goal[i] {
      InsertAboveAt(r, master, slot, i);
    }
  }

  /** The links the older workers had before `slot` was activated above them. */
  lemma LinksBefore(r: seq<Entry>, master: Addr, slot: nat, i: nat)
    requires slot < |r| && Stitched(r[slot := r[slot].(state := Pending)], master)
    requires forall j | 0 <= j < |r| && IsActive(r[j]) :: j <= slot
    requires i < slot && IsActive(r[i])
    ensures r[i].prev == PrevLink(r, master, i)
    ensures r[i].next == if i == LastActive(r, 0, slot) then master else NextLink(r, master, i)
  {
    var r0 := r[slot := r[slot].(state := Pending)];
    assert r0[i] == r[i];
    LastActiveSame(r, r0, i);
    FirstBefore(r, r0, slot, i);
  }

  lemma FirstBefore(r: seq<Entry>, r0: seq<Entry>, slot: nat, i: nat)
    requires i < slot < |r| == |r0| && IsActive(r[i]) && !IsActive(r0[slot])
    requires forall j | 0 <= j < |r| && j != slot :: r0[j] == r[j]
    requires forall j | 0 <= j < |r| && IsActive(r[j]) :: j <= slot
    ensures FirstActive(r0, i + 1) == if i == LastActive(r, 0, slot) then -1 else FirstActive(r, i + 1)
    ensures FirstActive(r0, i + 1) != slot
  {
    var p := LastActive(r, 0, slot);
    if i < p {
      FirstActiveSame(r, r0, i + 1, p);
    } else {
      LastBefore(r, r0, slot, i);
    }
  }

  /** Before the slot was activated nothing followed the one below it. */
  lemma LastBefore(r: seq<Entry>, r0: seq<Entry>, slot: nat, i: nat)
    requires i < slot < |r| == |r0| && !IsActive(r0[slot]) && LastActive(r, 0, slot) <= i
    requires forall j | 0 <= j < |r| && j != slot :: r0[j] == r[j]
    requires forall j | 0 <= j < |r| && IsActive(r[j]) :: j <= slot
    ensures FirstActive(r0, i + 1) == -1
  {
    forall j | i < j < |r| ensures !IsActive(r0[j]) {
      assert j != slot ==> r0[j] == r[j];
    }
    NoneAfter(r0, i + 1);
  }

  lemma NoneAfter(r: seq<Entry>, lo: nat)
    requires lo <= |r| && forall j | lo <= j < |r| :: !IsActive(r[j])
    ensures FirstActive(r, lo) == -1
  {
  }

  lemma {:induction false} LastActiveSame(r: seq<Entry>, r': seq<Entry>, hi: nat)
    requires hi <= |r| == |r'| && forall j | 0 <= j < hi :: r[j] == r'[j]
    ensures LastActive(r, 0, hi) == LastActive(r', 0, hi)
    decreases hi
  {
    if hi > 0 { LastActiveSame(r, r', hi - 1); }
  }

  lemma {:induction false} FirstActiveSame(r: seq<Entry>, r': seq<Entry>, lo: nat, p: nat)
    requires lo <= p < |r| == |r'| && IsActive(r[p]) && forall j | 0 <= j <= p :: r[j] == r'[j]
    ensures lo <= FirstActive(r, lo) == FirstActive(r', lo) <= p
    decreases p - lo
  {
    if lo < p { FirstActiveSame(r, r', lo + 1, p); }
  }

  lemma InsertAboveAt(r: seq<Entry>, master: Addr, slot: nat, i: nat)
    requires slot < |r| && IsActive(r[slot]) && i < |r|
    requires Stitched(r[slot := r[slot].(state := Pending)], master)
    requires forall j | 0 <= j < |r| && IsActive(r[j]) :: j <= slot
    ensures Insert(r, master, slot)[i] == Restitch(r, master)[i]
  {
    var p := LastActive(r, 0, slot);
    assert LastActive(r, slot + 1, |r|) == -1 && FirstActive(r, slot + 1) == -1;
    if p >= 0 {
      LinksBefore(r, master, slot, p);
      assert FirstActive(r, p + 1) == slot;
    }
    if i < slot && IsActive(r[i]) {
      LinksBefore(r, master, slot, i);
    }
  }

  lemma InsertBelow(r: seq<Entry>, master: Addr, slot: nat, q: nat)
    requires JustActivated(r, master, slot)
    requires q == FirstActive(r, slot + 1)
    ensures Insert(r, master, slot)[q].prev != Restitch(r, master)[q].prev
  {
    var r0 := r[slot := r[slot].(state := Pending)];
    assert LastActive(r, 0, q) == slot;
    assert r0[q] == r[q];
    assert r[q].prev == PrevLink(r0, master, q) != r[slot].addr;
  }

  /** Nobody leaves ACTIVE, and only a CAP_ACK for a registered slot above all ACTIVE ones enters it. */
  ghost predicate InOrder(cfg: Config, r: seq<Entry>, e: Timed, r': seq<Entry>)
    requires |r| == |r'|
  {
    && Distinct(r', cfg.master)
    && (forall k | 0 <= k < |r| && IsActive(r[k]) :: IsActive(r'[k]))
    && (forall k | 0 <= k < |r| && IsActive(r'[k]) && !IsActive(r[k]) ::
          e.event.CapAck? && forall j | 0 <= j < |r| && IsActive(r[j]) :: j < k)
    && (e.event.CapAck? ==>
          var k := AckSlot(cfg, r, e.event.src, e.event.ack); k >= 0 ==> r[k].id != 0)
  }

  ghost predicate AllInOrder(cfg: Config, states: seq<seq<Entry>>, events: seq<Timed>)
    requires IsRun(cfg, states, events)
  {
    forall j {:trigger StepsAt(cfg, states, events, j)} | 0 <= j < |events| ::
      StepsAt(cfg, states, events, j) && InOrder(cfg, states[j], events[j], states[j + 1])
  }

  /** Putting the freshly activated slot back to PENDING leaves the others' links as they were. */
  lemma StitchedBefore(r: seq<Entry>, master: Addr, slot: nat, now: Clock)
    requires Stitched(r, master) && slot < |r| && !IsActive(r[slot])
    ensures var mid := r[slot := r[slot].(lastSeen := now, state := Active)];
            Stitched(mid[slot := mid[slot].(state := Pending)], master)
  {
    var mid := r[slot := r[slot].(lastSeen := now, state := Active)];
    var r0 := mid[slot := mid[slot].(state := Pending)];
    forall i | 0 <= i < |r| && IsActive(r0[i])
      ensures r0[i].prev == PrevLink(r0, master, i) && r0[i].next == NextLink(r0, master, i)
    {
      LinksSame(r, r0, master, i);
    }
  }

  lemma InOrderStep(cfg: Config, r: seq<Entry>, e: Timed, r': seq<Entry>)
    requires r' == Step(cfg, r, e) && Stitched(r, cfg.master) && InOrder(cfg, r, e, r')
    ensures Stitched(r', cfg.master)
  {
    var slot := if e.event.CapAck? then AckSlot(cfg, r, e.event.src, e.event.ack) else -1;
    if slot >= 0 {
      ActivationStitched(cfg, r, e, r', slot);
    } else {
      forall i | 0 <= i < |r| && IsActive(r'[i])
        ensures r'[i].prev == PrevLink(r', cfg.master, i) && r'[i].next == NextLink(r', cfg.master, i)
      {
        OthersKeep(cfg, r, e, r', i);
      }
    }
  }

  lemma ActivationStitched(cfg: Config, r: seq<Entry>, e: Timed, r': seq<Entry>, slot: nat)
    requires r' == Step(cfg, r, e) && Stitched(r, cfg.master) && InOrder(cfg, r, e, r')
    requires e.event.CapAck? && slot == AckSlot(cfg, r, e.event.src, e.event.ack)
    ensures Stitched(r', cfg.master)
  {
    var mid := r[slot := r[slot].(lastSeen := e.now, state := Active)];
    assert r' == Insert(mid, cfg.master, slot);
    assert IsActive(r'[slot]) && !IsActive(r[slot]);
    StitchedBefore(r, cfg.master, slot, e.now);
    InsertAgrees(mid, cfg.master, slot);
    RestitchIsStitched(mid, cfg.master);
  }

  /** Apart from an activation, no event moves an ACTIVE worker or its pointers. */
  lemma OthersKeep(cfg: Config, r: seq<Entry>, e: Timed, r': seq<Entry>, i: nat)
    requires r' == Step(cfg, r, e) && InOrder(cfg, r, e, r') && i < |r| && IsActive(r'[i])
    requires e.event.CapAck? ==> AckSlot(cfg, r, e.event.src, e.event.ack) < 0
    ensures && r'[i].prev == r[i].prev && r'[i].next == r[i].next && IsActive(r[i])
            && PrevLink(r', cfg.master, i) == PrevLink(r, cfg.master, i)
            && NextLink(r', cfg.master, i) == NextLink(r, cfg.master, i)
  {
  }

  /** In every history whose slots activate in increasing order and never leave ACTIVE, the
      pointers registration built are the ones `discovery_restitch_ring` would compute. */
  lemma {:induction false} IncrementalIsRestitched(cfg: Config, states: seq<seq<Entry>>, events: seq<Timed>, i: nat)
    requires IsRun(cfg, states, events) && i < |states| && AllInOrder(cfg, states, events)
    ensures Restitch(states[i], cfg.master) == states[i]
    decreases i
  {
    StitchedAlong(cfg, states, events, i);
  }

  lemma NoneStitched(r: seq<Entry>, master: Addr)
    requires forall k | 0 <= k < |r| :: r[k].id == 0
    ensures Stitched(r, master)
  {
  }

  lemma {:induction false} StitchedAlong(cfg: Config, states: seq<seq<Entry>>, events: seq<Timed>, i: nat)
    requires IsRun(cfg, states, events) && i < |states| && AllInOrder(cfg, states, events)
    ensures Stitched(states[i], cfg.master)
    decreases i
  {
    if i == 0 {
      NoneStitched(states[0], cfg.master);
    } else {
      var j := i - 1;
      StitchedAlong(cfg, states, events, j);
      assert StepsAt(cfg, states, events, j);
      InOrderStep(cfg, states[j], events[j], states[j + 1]);
    }
  }

  // ----- A ring the incremental stitch gets wrong -----

  /** The entry of worker `id`, at address `(id, id)`, that has answered hello `id` of the run below. */
  function Probed(id: nat, state: Status, prev: Addr, next: Addr): Entry {
    Entry(id, Addr(id, id), state, 0, 7, 0, 7, 1, prev, next)
  }

  function Greeting(id: nat): Timed {
    Timed(0, Hello(Info(id, Addr(id, id), 0, []), 7, 7))
  }

  function Answering(id: nat): Timed {
    Timed(0, CapAck(Addr(id, id), Ack(7, 0, [])))
  }

  lemma TwoHellos(r1: seq<Entry>, r2: seq<Entry>)
    requires r1 == Step(Trusting(), Empty(), Greeting(2)) && r2 == Step(Trusting(), r1, Greeting(3))
    ensures r1 == Empty()[0 := Probed(2, Pending, Addr(0, 0), Addr(0, 0))]
    ensures r2 == r1[1 := Probed(3, Pending, Addr(0, 0), Addr(0, 0))]
  {
    FirstFree(Empty(), 2, 0);
    assert r1 == Empty()[0 := Probed(2, Pending, Addr(0, 0), Addr(0, 0))];
    FirstFree(r1, 3, 1);
  }

  lemma FirstFree(r: seq<Entry>, id: nat, k: nat)
    requires k < 2 <= |r| && r[k].id == 0 && (k == 1 ==> r[0].id != 0 && r[0].state != Expired)
    requires forall i | 0 <= i < |r| :: r[i].id != id
    ensures FindId(r, id, 0) == -1 && FindFree(r, 0) == k
  {
    assert FindFree(r, k) == k;
  }

  lemma TwoAcks(r2: seq<Entry>, r3: seq<Entry>, r4: seq<Entry>)
    requires r2 == Empty()[0 := Probed(2, Pending, Addr(0, 0), Addr(0, 0))][1 := Probed(3, Pending, Addr(0, 0), Addr(0, 0))]
    requires r3 == Step(Trusting(), r2, Answering(3)) && r4 == Step(Trusting(), r3, Answering(2))
    ensures |r4| == MAX_WORKERS && r4[0] == Probed(2, Active, Addr(3, 3), Addr(1, 1))
    ensures r4[1] == Probed(3, Active, Addr(1, 1), Addr(2, 2))
    ensures forall i | 2 <= i < MAX_WORKERS :: r4[i] == Empty()[i]
  {
    assert FindAddr(r2, Addr(3, 3), 1) == 1;
    assert r3 == r2[1 := Probed(3, Active, Addr(1, 1), Addr(1, 1))];
    assert FindAddr(r3, Addr(2, 2), 0) == 0;
    var r := r3[0 := r3[0].(lastSeen := 0, state := Active)];
    assert IsActive(r[1]) && forall i | 2 <= i < MAX_WORKERS :: r[i] == Empty()[i];
    assert LastActive(r, 1, |r|) == 1;
    assert PrevActive(r, 0) == 1;
  }

  lemma RestitchDiffers(r: seq<Entry>, master: Addr)
    requires r != [] && IsActive(r[0]) && r[0].prev != master
    ensures Restitch(r, master) != r
  {
    assert LastActive(r, 0, 0) == -1;
    assert Restitch(r, master)[0].prev == master;
  }

  lemma FourSteps(cfg: Config, states: seq<seq<Entry>>, events: seq<Timed>)
    requires |states| == 5 && |events| == 4 && forall k | 0 <= k < |states[0]| :: states[0][k].id == 0
    requires states[1] == Step(cfg, states[0], events[0]) && states[2] == Step(cfg, states[1], events[1])
    requires states[3] == Step(cfg, states[2], events[2]) && states[4] == Step(cfg, states[3], events[3])
    requires events[0].now == events[1].now == events[2].now == events[3].now
    ensures IsRun(cfg, states, events)
  {
    forall i | 0 <= i < |events| ensures StepsAt(cfg, states, events, i) {
      assert i == 0 || i == 1 || i == 2 || i == 3;
    }
  }

  /** Two workers register and the second one answers the probe first. The ring of the incremental stitch
      then runs against the slot order, and a full restitch changes it. */
  lemma OutOfOrder() returns (states: seq<seq<Entry>>, events: seq<Timed>)
    ensures IsRun(Trusting(), states, events) && states[0] == Empty()
    ensures events == [Greeting(2), Greeting(3), Answering(3), Answering(2)]
    ensures Restitch(states[4], Trusting().master) != states[4]
  {
    events := [Greeting(2), Greeting(3), Answering(3), Answering(2)];
    var cfg, r0 := Trusting(), Empty();
    var r1 := Step(cfg, r0, Greeting(2));
    var r2 := Step(cfg, r1, Greeting(3));
    var r3 := Step(cfg, r2, Answering(3));
    var r4 := Step(cfg, r3, Answering(2));
    states := [r0, r1, r2, r3, r4];
    FourSteps(cfg, states, events);
    TwoHellos(r1, r2);
    TwoAcks(r2, r3, r4);
    RestitchDiffers(r4, cfg.master);
  }
}
