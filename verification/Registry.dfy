/** The master's worker registry: soft-state lifecycle and ring pointers. */
module Registry {

  const MAX_WORKERS := 16
  const SUSPECTED_TIMEOUT := 400
  const EXPIRED_TIMEOUT := 800
  const PROBE_CEILING := 32 * 1024 * 1024
  const PAGE := 4096

  type Clock = t: int | 0 <= t < 0x1_0000_0000
  type Digest = seq<bv8>

  datatype Addr = Addr(ip: nat, port: nat)
  datatype Status = Pending | Active | Suspected | Expired
  datatype Info = Info(id: nat, addr: Addr, ram: nat, psk: Digest)
  datatype Ack = Ack(nonce: nat, checksum: nat, identity: Digest)

  datatype Entry = Entry(
    id: nat, addr: Addr, state: Status, lastSeen: Clock,
    nonce: nat, checksum: nat, seed: nat, pages: nat,
    prev: Addr, next: Addr)

  /** The master's own address and what it expects of a holder of the pre-shared key. */
  datatype Config = Config(master: Addr, commitment: Digest, identity: nat -> Digest, checksum: (nat, nat) -> nat)

  datatype Reply =
    | Success | GarbageArgs | SystemErr
    | Probe(nonce: nat, seed: nat, pages: nat)
    | Neighbours(prev: Addr, next: Addr)

  predicate IsActive(e: Entry) {
    e.id != 0 && e.state == Active
  }

  // ----- Searches -----

  /** The last ACTIVE slot in `[lo, hi)`, or -1. */
  function LastActive(r: seq<Entry>, lo: nat, hi: nat): (i: int)
    requires lo <= hi <= |r|
    ensures i == -1 || (lo <= i < hi && IsActive(r[i]))
    ensures forall j | lo <= j < hi && IsActive(r[j]) :: j <= i
  {
    if lo == hi then -1 else if IsActive(r[hi - 1]) then hi - 1 else LastActive(r, lo, hi - 1)
  }

  /** The first ACTIVE slot in `[lo, |r|)`, or -1. */
  function FirstActive(r: seq<Entry>, lo: nat): (i: int)
    requires lo <= |r|
    ensures i == -1 || (lo <= i < |r| && IsActive(r[i]))
    ensures i == -1 ==> forall j | lo <= j < |r| :: !IsActive(r[j])
    ensures i != -1 ==> forall j | lo <= j < i :: !IsActive(r[j])
    decreases |r| - lo
  {
    if lo == |r| then -1 else if IsActive(r[lo]) then lo else FirstActive(r, lo + 1)
  }

  /** What the backward walk of `find_prev_active_worker` finds: below first, then wrapping. */
  function PrevActive(r: seq<Entry>, slot: nat): int
    requires slot < |r|
  {
    var below := LastActive(r, 0, slot);
    if below >= 0 then below else LastActive(r, slot + 1, |r|)
  }

  /** The ACTIVE slots among the first `n`, in slot order. */
  function Order(r: seq<Entry>, n: nat): (order: seq<nat>)
    requires n <= |r|
    ensures forall k | 0 <= k < |order| :: order[k] < n && IsActive(r[order[k]])
    ensures forall j, k | 0 <= j < k < |order| :: order[j] < order[k]
    ensures forall i | 0 <= i < n && IsActive(r[i]) :: i in order
  {
    if n == 0 then []
    else if IsActive(r[n - 1]) then
      var order := Order(r, n - 1) + [n - 1];
      assert n - 1 == order[|order| - 1];
      order
    else Order(r, n - 1)
  }

  // ----- Ring pointers -----

  function PrevLink(r: seq<Entry>, master: Addr, i: nat): Addr
    requires i < |r|
  {
    var j := LastActive(r, 0, i);
    if j == -1 then master else r[j].addr
  }

  function NextLink(r: seq<Entry>, master: Addr, i: nat): Addr
    requires i < |r|
  {
    var j := FirstActive(r, i + 1);
    if j == -1 then master else r[j].addr
  }

  /** Every ACTIVE slot points at its ACTIVE neighbours in slot order, the ends at the master. */
  predicate Stitched(r: seq<Entry>, master: Addr) {
    forall i | 0 <= i < |r| && IsActive(r[i]) :: r[i].prev == PrevLink(r, master, i) && r[i].next == NextLink(r, master, i)
  }

  function Restitch(r: seq<Entry>, master: Addr): (r': seq<Entry>)
    ensures |r'| == |r|
    ensures forall i | 0 <= i < |r| :: r'[i] == if IsActive(r[i])
              then r[i].(prev := PrevLink(r, master, i), next := NextLink(r, master, i)) else r[i]
  {
    seq(|r|, i requires 0 <= i < |r| =>
      if IsActive(r[i]) then r[i].(prev := PrevLink(r, master, i), next := NextLink(r, master, i)) else r[i])
  }

  /** ACTIVE workers have addresses of their own, and none has the master's. */
  predicate Distinct(r: seq<Entry>, master: Addr) {
    && (forall i | 0 <= i < |r| && IsActive(r[i]) :: r[i].addr != master)
    && (forall i, j | 0 <= i < j < |r| && IsActive(r[i]) && IsActive(r[j]) :: r[i].addr != r[j].addr)
  }

  /** What `handle_cap_ack` does to the pointers when it activates a slot. */
  function Insert(r: seq<Entry>, master: Addr, slot: nat): (r': seq<Entry>)
    requires slot < |r|
    ensures |r'| == |r| && forall i | 0 <= i < |r| :: r'[i] == r[i].(prev := r'[i].prev, next := r'[i].next)
  {
    var p := PrevActive(r, slot);
    if p < 0 then r[slot := r[slot].(prev := master, next := master)]
    else
      var joined := r[slot].(prev := r[p].addr, next := r[p].next);
      r[p := r[p].(next := r[slot].addr)][slot := joined]
  }

  // ----- Handlers as functions of the table -----

  function FindId(r: seq<Entry>, id: nat, i: nat): (k: int)
    requires i <= |r|
    ensures k == -1 || (i <= k < |r| && r[k].id == id)
    decreases |r| - i
  {
    if i == |r| then -1 else if r[i].id == id then i else FindId(r, id, i + 1)
  }

  lemma {:induction false} FindIdMisses(r: seq<Entry>, id: nat, i: nat, j: nat)
    requires i <= j < |r|
    ensures r[j].id == id ==> i <= FindId(r, id, i) <= j
    decreases |r| - i
  {
    if i < j && r[i].id != id { FindIdMisses(r, id, i + 1, j); }
  }

  function FindAddr(r: seq<Entry>, a: Addr, i: nat): (k: int)
    requires i <= |r|
    ensures k == -1 || (i <= k < |r| && r[k].addr == a)
    decreases |r| - i
  {
    if i == |r| then -1 else if r[i].addr == a then i else FindAddr(r, a, i + 1)
  }

  function FindFree(r: seq<Entry>, i: nat): (k: int)
    requires i <= |r|
    ensures k == -1 || (i <= k < |r| && (r[k].state == Expired || r[k].id == 0))
    decreases |r| - i
  {
    if i == |r| then -1 else if r[i].state == Expired || r[i].id == 0 then i else FindFree(r, i + 1)
  }

  /** The slot an AUTH_HELLO registers in, or -1 when it is refused or already registered. */
  function HelloSlot(cfg: Config, r: seq<Entry>, info: Info): (k: int)
    ensures -1 <= k < |r|
  {
    if info.psk != cfg.commitment then -1
    else
      var k := FindId(r, info.id, 0);
      if k >= 0 then (if r[k].state == Expired then k else -1) else FindFree(r, 0)
  }

  function ProbePages(ram: nat): (pages: nat)
    ensures 1 <= pages && pages * PAGE <= PROBE_CEILING && (ram >= PAGE ==> pages * PAGE <= ram)
  {
    var bytes := if ram < PROBE_CEILING then ram else PROBE_CEILING;
    if bytes / PAGE == 0 then 1 else bytes / PAGE
  }

  /** `nonce` and `seed` are the two entropy draws; zero means a failed one. */
  function OnHello(cfg: Config, r: seq<Entry>, info: Info, now: Clock, nonce: nat, seed: nat): (r': seq<Entry>)
    ensures |r'| == |r|
  {
    var k := HelloSlot(cfg, r, info);
    if k < 0 then r
    else
      var e := r[k].(id := info.id, addr := info.addr, lastSeen := now, state := Pending);
      if nonce == 0 || seed == 0 then r[k := e]
      else
        var pages := ProbePages(info.ram);
        r[k := e.(nonce := nonce, checksum := cfg.checksum(seed, pages), seed := seed, pages := pages)]
  }

  /** The answer to a well-formed AUTH_HELLO: the probe on record, or why there is none. */
  function HelloReply(cfg: Config, r: seq<Entry>, info: Info, nonce: nat, seed: nat): Reply {
    var k := FindId(r, info.id, 0);
    if info.psk != cfg.commitment then GarbageArgs
    else if k >= 0 && r[k].state != Expired then Probe(r[k].nonce, r[k].seed, r[k].pages)
    else if (k < 0 && FindFree(r, 0) < 0) || nonce == 0 || seed == 0 then SystemErr
    else Probe(nonce, seed, ProbePages(info.ram))
  }

  /** The PENDING slot a CAP_ACK completes, or -1. */
  function AckSlot(cfg: Config, r: seq<Entry>, src: Addr, ack: Ack): (k: int)
    ensures -1 <= k < |r|
  {
    var k := FindAddr(r, src, 0);
    if k >= 0 && r[k].state == Pending && ack.nonce == r[k].nonce && ack.checksum == r[k].checksum
       && ack.identity == cfg.identity(r[k].nonce)
    then k else -1
  }

  function OnAck(cfg: Config, r: seq<Entry>, src: Addr, ack: Ack, now: Clock): (r': seq<Entry>)
    ensures |r'| == |r|
  {
    var k := AckSlot(cfg, r, src, ack);
    if k < 0 then r else Insert(r[k := r[k].(lastSeen := now, state := Active)], cfg.master, k)
  }

  function OnHeartbeat(r: seq<Entry>, id: nat, now: Clock): (r': seq<Entry>)
    ensures |r'| == |r|
  {
    var k := FindId(r, id, 0);
    if k < 0 then r
    else r[k := r[k].(lastSeen := now, state := if r[k].state == Suspected then Active else r[k].state)]
  }

  /** The subtraction is on 32-bit clocks. */
  function Age(now: Clock, lastSeen: Clock): nat {
    if lastSeen <= now then now - lastSeen else now - lastSeen + 0x1_0000_0000
  }

  function Aged(e: Entry, now: Clock): Entry {
    if e.id == 0 || e.state == Expired then e
    else if Age(now, e.lastSeen) > EXPIRED_TIMEOUT then e.(state := Expired)
    else if Age(now, e.lastSeen) > SUSPECTED_TIMEOUT then e.(state := Suspected)
    else e
  }

  function OnExpire(r: seq<Entry>, now: Clock): (r': seq<Entry>)
    ensures |r'| == |r| && forall i | 0 <= i < |r| :: r'[i] == Aged(r[i], now)
  {
    seq(|r|, i requires 0 <= i < |r| => Aged(r[i], now))
  }

  // ----- The program -----

  /** `registry[]` and the code that updates it in place. */
  class Master {
    const cfg: Config
    var slots: array<Entry>

    ghost predicate Valid()
      reads this
    {
      slots.Length == MAX_WORKERS
    }

    /** Zero-initialised storage: id 0, state PENDING. */
    constructor (c: Config)
      ensures Valid() && fresh(slots) && cfg == c
      ensures forall i | 0 <= i < MAX_WORKERS ::
                slots[i] == Entry(0, Addr(0, 0), Pending, 0, 0, 0, 0, 0, Addr(0, 0), Addr(0, 0))
    {
      cfg := c;
      slots := new Entry[MAX_WORKERS](_ => Entry(0, Addr(0, 0), Pending, 0, 0, 0, 0, 0, Addr(0, 0), Addr(0, 0)));
    }

    /** `short` says that the payload is not of the expected length; a zero draw is a failed one. */
    method HandleHello(short: bool, info: Info, now: Clock, nonce: nat, seed: nat) returns (reply: Reply)
      requires Valid()
      modifies slots
      ensures slots[..] == if short then old(slots[..]) else OnHello(cfg, old(slots[..]), info, now, nonce, seed)
      ensures reply == if short then GarbageArgs else HelloReply(cfg, old(slots[..]), info, nonce, seed)
    {
      if short {
        return GarbageArgs;
      }
      if info.psk != cfg.commitment {
        return GarbageArgs;
      }
      ghost var r := slots[..];
      var existing := Find(info.id);
      if existing >= 0 && slots[existing].state != Expired {
        return Probe(slots[existing].nonce, slots[existing].seed, slots[existing].pages);
      }
      var slot := existing;
      if existing < 0 {
        slot := FreeSlot();
        if slot < 0 {
          return SystemErr;
        }
      }
      slots[slot] := slots[slot].(id := info.id, addr := info.addr, lastSeen := now, state := Pending);
      if nonce == 0 || seed == 0 {
        return SystemErr;
      }
      var bytes := if info.ram < PROBE_CEILING then info.ram else PROBE_CEILING;
      var pages := bytes / PAGE;
      if pages == 0 {
        pages := 1;
      }
      slots[slot] := slots[slot].(seed := seed, pages := pages, nonce := nonce, checksum := cfg.checksum(seed, pages));
      reply := Probe(nonce, seed, pages);
    }

    method HandleAck(short: bool, ack: Ack, src: Addr, now: Clock) returns (reply: Reply)
      requires Valid()
      modifies slots
      ensures slots[..] == if short then old(slots[..]) else OnAck(cfg, old(slots[..]), src, ack, now)
      ensures reply.Neighbours? <==> !short && AckSlot(cfg, old(slots[..]), src, ack) >= 0
      ensures reply.Neighbours? ==>
                var k := AckSlot(cfg, old(slots[..]), src, ack);
                reply == Neighbours(slots[k].prev, slots[k].next)
      ensures reply == SystemErr <==>
                !short && var k := FindAddr(old(slots[..]), src, 0); k < 0 || old(slots[..])[k].state != Pending
      ensures reply.Neighbours? || reply == GarbageArgs || reply == SystemErr
    {
      if short {
        return GarbageArgs;
      }
      var slot := FindByAddr(src);
      if slot < 0 || slots[slot].state != Pending {
        return SystemErr;
      }
      if ack.nonce != slots[slot].nonce {
        return GarbageArgs;
      }
      if ack.checksum != slots[slot].checksum {
        return GarbageArgs;
      }
      if ack.identity != cfg.identity(slots[slot].nonce) {
        return GarbageArgs;
      }
      slots[slot] := slots[slot].(lastSeen := now, state := Active);
      var prevSlot := FindPrevActive(slot);
      var prev, next := cfg.master, cfg.master;
      if prevSlot >= 0 {
        prev, next := slots[prevSlot].addr, slots[prevSlot].next;
        slots[prevSlot] := slots[prevSlot].(next := slots[slot].addr);
      }
      slots[slot] := slots[slot].(prev := prev, next := next);
      reply := Neighbours(prev, next);
    }

    method HandleHeartbeat(short: bool, id: nat, now: Clock) returns (reply: Reply)
      requires Valid()
      modifies slots
      ensures slots[..] == if short then old(slots[..]) else OnHeartbeat(old(slots[..]), id, now)
      ensures reply == Success <==>
                !short && FindId(old(slots[..]), id, 0) >= 0 && old(slots[..])[FindId(old(slots[..]), id, 0)].state != Expired
      ensures (reply == GarbageArgs <==> short) && (reply == Success || reply == GarbageArgs || reply == SystemErr)
    {
      if short {
        return GarbageArgs;
      }
      var slot := Find(id);
      if slot < 0 {
        return SystemErr;
      }
      slots[slot] := slots[slot].(lastSeen := now);
      if slots[slot].state == Suspected {
        slots[slot] := slots[slot].(state := Active);
      } else if slots[slot].state == Expired {
        return SystemErr;
      }
      reply := Success;
    }

    method ExpireWorkers(now: Clock) returns (evicted: seq<nat>)
      requires Valid()
      modifies slots
      ensures slots[..] == OnExpire(old(slots[..]), now)
      ensures forall i :: i in evicted <==>
                0 <= i < MAX_WORKERS && old(slots[..])[i].state != Expired && slots[i].state == Expired
      ensures forall j, k | 0 <= j < k < |evicted| :: evicted[j] < evicted[k]
    {
      evicted := [];
      for i := 0 to MAX_WORKERS
        invariant forall j | 0 <= j < i :: slots[j] == Aged(old(slots[j]), now)
        invariant forall j | i <= j < MAX_WORKERS :: slots[j] == old(slots[j])
        invariant forall j :: j in evicted <==> 0 <= j < i && old(slots[j]).state != Expired && slots[j].state == Expired
        invariant forall j, k | 0 <= j < k < |evicted| :: evicted[j] < evicted[k]
        invariant forall j | 0 <= j < |evicted| :: evicted[j] < i
      {
        if slots[i].id == 0 || slots[i].state == Expired {
          continue;
        }
        var age := (now - slots[i].lastSeen) % 0x1_0000_0000;
        if age > EXPIRED_TIMEOUT {
          slots[i] := slots[i].(state := Expired);
          evicted := evicted + [i];
        } else if age > SUSPECTED_TIMEOUT && slots[i].state != Suspected {
          slots[i] := slots[i].(state := Suspected);
        }
      }
    }

    method Find(id: nat) returns (k: int)
      requires Valid()
      ensures k == FindId(slots[..], id, 0)
    {
      for i := 0 to MAX_WORKERS
        invariant FindId(slots[..], id, 0) == FindId(slots[..], id, i)
      {
        if slots[i].id == id {
          return i;
        }
      }
      k := -1;
    }

    method FindByAddr(a: Addr) returns (k: int)
      requires Valid()
      ensures k == FindAddr(slots[..], a, 0)
    {
      for i := 0 to MAX_WORKERS
        invariant FindAddr(slots[..], a, 0) == FindAddr(slots[..], a, i)
      {
        if slots[i].addr == a {
          return i;
        }
      }
      k := -1;
    }

    method FreeSlot() returns (k: int)
      requires Valid()
      ensures k == FindFree(slots[..], 0)
    {
      for i := 0 to MAX_WORKERS
        invariant FindFree(slots[..], 0) == FindFree(slots[..], i)
      {
        if slots[i].state == Expired || slots[i].id == 0 {
          return i;
        }
      }
      k := -1;
    }

    /** Walks backwards from `slot`, wrapping round. */
    method FindPrevActive(slot: nat) returns (k: int)
      requires Valid() && slot < MAX_WORKERS
      ensures k == PrevActive(slots[..], slot)
    {
      for offset := 1 to MAX_WORKERS
        invariant if offset <= slot + 1
                  then LastActive(slots[..], 0, slot) == LastActive(slots[..], 0, slot - offset + 1)
                  else LastActive(slots[..], 0, slot) == -1 &&
                       LastActive(slots[..], slot + 1, slots.Length) ==
                       LastActive(slots[..], slot + 1, slot - offset + 1 + slots.Length)
      {
        var i := (slot - offset + MAX_WORKERS) % MAX_WORKERS;
        if IsActive(slots[i]) {
          return i;
        }
      }
      k := -1;
    }

    method RingOrder() returns (order: seq<nat>)
      requires Valid()
      ensures order == Order(slots[..], slots.Length)
    {
      order := [];
      for i := 0 to MAX_WORKERS
        invariant order == Order(slots[..], i)
      {
        if IsActive(slots[i]) {
          order := order + [i];
        }
      }
    }

    method RestitchRing() returns (n: nat)
      requires Valid()
      modifies slots
      ensures slots[..] == Restitch(old(slots[..]), cfg.master)
      ensures n == |Order(old(slots[..]), slots.Length)|
    {
      var order := RingOrder();
      ghost var goal := Restitch(slots[..], cfg.master);
      assert IsOrder(slots[..], order);
      forall k | 0 <= k < |order| ensures goal[order[k]] == Linked(slots[..], cfg.master, order, k) {
        OrderNeighbours(slots[..], order, k);
      }
      RelinkAll(order, goal);
      n := |order|;
    }

    method RelinkAll(order: seq<nat>, ghost goal: seq<Entry>)
      requires Valid() && Half(slots[..], slots[..], goal, order, 0) && SamePlaces(slots[..], goal)
      requires forall j | 0 <= j < |order| :: order[j] < slots.Length
      requires forall i, j | 0 <= i < j < |order| :: order[i] != order[j]
      requires forall k | 0 <= k < |order| :: goal[order[k]] == Linked(slots[..], cfg.master, order, k)
      requires forall i | 0 <= i < slots.Length && i !in order :: goal[i] == slots[i]
      modifies slots
      ensures slots[..] == goal
    {
      ghost var r := slots[..];
      for k := 0 to |order|
        invariant Half(slots[..], r, goal, order, k)
      {
        ghost var before := slots[..];
        HalfStep(before, r, goal, order, k);
        LinkedSame(r, before, cfg.master, order, k);
        Relink(order, k);
        assert slots[..] == before[order[k] := goal[order[k]]];
      }
      assert order[..|order|] == order;
    }

    method Relink(order: seq<nat>, k: nat)
      requires Valid() && k < |order|
      requires forall j | 0 <= j < |order| :: order[j] < slots.Length
      requires forall i, j | 0 <= i < j < |order| :: order[i] != order[j]
      modifies slots
      ensures forall i | 0 <= i < slots.Length && i != order[k] :: slots[i] == old(slots[i])
      ensures slots[order[k]] == Linked(old(slots[..]), cfg.master, order, k)
    {
      var slot := order[k];
      if k == 0 {
        slots[slot] := slots[slot].(prev := cfg.master);
      } else {
        slots[slot] := slots[slot].(prev := slots[order[k - 1]].addr);
      }
      if k == |order| - 1 {
        slots[slot] := slots[slot].(next := cfg.master);
      } else {
        slots[slot] := slots[slot].(next := slots[order[k + 1]].addr);
      }
    }

    /** `master_ring_tail`: the ACTIVE worker whose next hop is the master. */
    method RingTail() returns (k: int)
      requires Valid()
      ensures k == -1 ==> forall i | 0 <= i < MAX_WORKERS :: !(IsActive(slots[i]) && slots[i].next == cfg.master)
      ensures k != -1 ==> 0 <= k < MAX_WORKERS && IsActive(slots[k]) && slots[k].next == cfg.master
                          && forall i | 0 <= i < k :: !(IsActive(slots[i]) && slots[i].next == cfg.master)
    {
      for i := 0 to MAX_WORKERS
        invariant forall j | 0 <= j < i :: !(IsActive(slots[j]) && slots[j].next == cfg.master)
      {
        if IsActive(slots[i]) && slots[i].next == cfg.master {
          return i;
        }
      }
      k := -1;
    }
  }

  predicate IsOrder(r: seq<Entry>, order: seq<nat>) {
    && (forall k | 0 <= k < |order| :: order[k] < |r| && IsActive(r[order[k]]))
    && (forall j, k | 0 <= j < k < |order| :: order[j] < order[k])
    && (forall i | 0 <= i < |r| && IsActive(r[i]) :: i in order)
  }

  lemma Gap(r: seq<Entry>, order: seq<nat>, k: nat, i: nat)
    requires IsOrder(r, order) && k <= |order| && i < |r|
    requires k == 0 || order[k - 1] < i
    requires k == |order| || i < order[k]
    ensures !IsActive(r[i])
  {
  }

  /** Slot `order[k]` linked to its neighbours in the list. */
  function Linked(r: seq<Entry>, master: Addr, order: seq<nat>, k: nat): Entry
    requires k < |order| && forall j | 0 <= j < |order| :: order[j] < |r|
  {
    r[order[k]].(prev := if k == 0 then master else r[order[k - 1]].addr,
                 next := if k == |order| - 1 then master else r[order[k + 1]].addr)
  }

  ghost predicate SamePlaces(r: seq<Entry>, r': seq<Entry>) {
    |r| == |r'| && forall i | 0 <= i < |r| :: r'[i].addr == r[i].addr
  }

  /** The first `k` listed slots are as in `goal`, the others as in `r`. */
  ghost predicate Half(now: seq<Entry>, r: seq<Entry>, goal: seq<Entry>, order: seq<nat>, k: nat)
    requires k <= |order|
  {
    |now| == |r| == |goal| && forall i | 0 <= i < |r| :: now[i] == if i in order[..k] then goal[i] else r[i]
  }

  lemma HalfStep(now: seq<Entry>, r: seq<Entry>, goal: seq<Entry>, order: seq<nat>, k: nat)
    requires k < |order| && Half(now, r, goal, order, k) && SamePlaces(r, goal) && order[k] < |r|
    requires forall i, j | 0 <= i < j < |order| :: order[i] != order[j]
    ensures now[order[k]] == r[order[k]] && SamePlaces(r, now)
    ensures Half(now[order[k] := goal[order[k]]], r, goal, order, k + 1)
  {
    assert order[..k + 1] == order[..k] + [order[k]];
  }

  lemma LinkedSame(r: seq<Entry>, r': seq<Entry>, master: Addr, order: seq<nat>, k: nat)
    requires |r| == |r'| && k < |order| && forall j | 0 <= j < |order| :: order[j] < |r|
    requires r[order[k]] == r'[order[k]] && SamePlaces(r, r')
    ensures Linked(r, master, order, k) == Linked(r', master, order, k)
  {
  }

  /** In the ordered list of ACTIVE slots, list neighbours are ACTIVE neighbours. */
  lemma OrderNeighbours(r: seq<Entry>, order: seq<nat>, k: nat)
    requires IsOrder(r, order) && k < |order|
    ensures LastActive(r, 0, order[k]) == if k == 0 then -1 else order[k - 1]
    ensures FirstActive(r, order[k] + 1) == if k == |order| - 1 then -1 else order[k + 1]
  {
    forall i | 0 <= i < order[k] && (k > 0 ==> order[k - 1] < i) ensures !IsActive(r[i]) {
      Gap(r, order, k, i);
    }
    forall i | order[k] < i < |r| && (k < |order| - 1 ==> i < order[k + 1]) ensures !IsActive(r[i]) {
      Gap(r, order, k + 1, i);
    }
  }
}
