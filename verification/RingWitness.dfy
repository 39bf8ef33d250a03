/** Sessions of every ring size generate to the end. The steps are lemmas about reachable states that keep
    all premises of a stable session but a given one. */
module RingWitness {
  import opened Llama
  import opened LayerSplit
  import opened RingProtocol

  // ----- Runs that may break one premise -----

  /** The premise that a run is free to break. */
  datatype Lapse = NoLapse | TwiceAssigned | LateAssigned | WrongLink

  predicate Allowed(s: State, e: Event, lapse: Lapse) {
    && (NotReassigned(s, e) || lapse == TwiceAssigned)
    && (OwnAssignment(s, e) || lapse == LateAssigned)
    && (RightLink(s, e) || lapse == WrongLink)
  }

  ghost predicate IsWalk(c: Config, states: seq<State>, events: seq<Event>, lapse: Lapse) {
    && |states| == |events| + 1 && Init(states[0])
    && forall i | 0 <= i < |events| ::
         && Enabled(c, states[i], events[i]) && Allowed(states[i], events[i], lapse)
         && states[i + 1] == Apply(c, states[i], events[i])
  }

  ghost predicate Ends(c: Config, states: seq<State>, events: seq<Event>, s: State, lapse: Lapse) {
    IsWalk(c, states, events, lapse) && states[|events|] == s
  }

  ghost predicate Reachable(c: Config, s: State, lapse: Lapse) {
    exists states, events :: Ends(c, states, events, s, lapse)
  }

  lemma Begin(c: Config, s: State, lapse: Lapse)
    requires Init(s)
    ensures Reachable(c, s, lapse)
  {
    assert Ends(c, [s], [], s, lapse);
  }

  lemma Onward(c: Config, s: State, e: Event, lapse: Lapse) returns (t: State)
    requires Reachable(c, s, lapse) && Enabled(c, s, e) && Allowed(s, e, lapse)
    ensures t == Apply(c, s, e) && Reachable(c, t, lapse)
  {
    t := Apply(c, s, e);
    var states, events :| Ends(c, states, events, s, lapse);
    var states', events' := states + [t], events + [e];
    forall i | 0 <= i < |events'|
      ensures Enabled(c, states'[i], events'[i]) && Allowed(states'[i], events'[i], lapse)
      ensures states'[i + 1] == Apply(c, states'[i], events'[i])
    {
      if i < |events| {
        assert events'[i] == events[i] && states'[i] == states[i] && states'[i + 1] == states[i + 1];
      }
    }
    assert Ends(c, states', events', t, lapse);
  }

  // ----- One worker -----

  function At(s: State, k: nat, w: Worker): State
    requires k < |s.workers|
  {
    s.(workers := s.workers[k := w])
  }

  /** A step of worker `k` that no premise is about. */
  lemma Steps(c: Config, s: State, k: nat, w: Worker, e: Event, lapse: Lapse) returns (t: State)
    requires Reachable(c, s, lapse) && Enabled(c, s, e) && k < |s.workers| && Apply(c, s, e) == At(s, k, w)
    requires !e.DeliverAssign? && !e.CommitStaged? && !e.ReceiveFinal?
    ensures Reachable(c, t, lapse) && t == At(s, k, w)
  {
    t := Onward(c, s, e, lapse);
  }

  /** From the network into the mailbox. */
  lemma Taken(c: Config, s: State, k: nat, p: Packet, lapse: Lapse) returns (t: State)
    requires Reachable(c, s, lapse) && k < |s.workers| && p in s.hops && p.dst == Node(k)
    requires s.workers[k].staged.None? && Decodes(s.workers[k], p.hop) && Accepts(s.workers[k], p)
    requires Allowed(At(s, k, s.workers[k].(staged := Some(p))), CommitStaged(k), lapse)
    ensures Reachable(c, t, lapse)
    ensures t == At(s, k, s.workers[k].(mailbox := Some(p.hop), lastSeq := p.hop.seqNo))
  {
    t := Steps(c, s, k, s.workers[k].(staged := Some(p)), Stage(k, p), lapse);
    t := Onward(c, t, CommitStaged(k), lapse);
  }

  /** From the mailbox to the inference thread's own copy. */
  lemma Picked(c: Config, s: State, k: nat, h: Hop, lapse: Lapse) returns (t: State)
    requires Reachable(c, s, lapse) && k < |s.workers|
    requires var w := s.workers[k]; w.pc == Top && w.pending.None? && w.ready && w.mailbox == Some(h)
    ensures Reachable(c, t, lapse) && t == At(s, k, s.workers[k].(mailbox := None, pc := Computing(h)))
  {
    t := Steps(c, s, k, s.workers[k].(pc := Past), AtTop(k), lapse);
    t := Drained(c, t, k, h, lapse);
  }

  lemma Drained(c: Config, s: State, k: nat, h: Hop, lapse: Lapse) returns (t: State)
    requires Reachable(c, s, lapse) && k < |s.workers|
    requires var w := s.workers[k]; w.pc == Past && w.ready && w.mailbox == Some(h)
    ensures Reachable(c, t, lapse) && t == At(s, k, s.workers[k].(mailbox := None, pc := Computing(h)))
  {
    var w := s.workers[k];
    t := Steps(c, s, k, w.(pc := Draining), AtPast(k), lapse);
    t := Steps(c, t, k, w.(mailbox := None, pc := Computing(h)), Drain(k), lapse);
  }

  /** The shard after it has run the hop, and what it makes of the activation. */
  function RanShard(c: Config, sh: Shard, h: Hop): Shard
    requires HasPosition(sh.cache, h.pos)
  {
    Shard(sh.asg, CacheOf(c.m, sh.asg.start, sh.cache, h.x, h.pos), h.seqNo)
  }

  function OutHop(c: Config, w: Worker, h: Hop): Hop
    requires CanRun(c, w, h)
  {
    var sh := w.shard.value;
    h.(x := OutOf(c.m, sh.asg.start, sh.cache, h.x, h.pos), final := h.final || w.next == Master)
  }

  /** Running the hop and sending the result to the next worker. */
  lemma Ran(c: Config, s: State, k: nat, lapse: Lapse) returns (t: State)
    requires Reachable(c, s, lapse) && k < |s.workers|
    requires s.workers[k].pc.Computing? && CanRun(c, s.workers[k], s.workers[k].pc.h)
    ensures Reachable(c, t, lapse)
    ensures var w := s.workers[k];
            t == At(s, k, w.(pc := Top, shard := Some(RanShard(c, w.shard.value, w.pc.h))))
                 .(hops := s.hops + {Packet(Node(k), w.next, OutHop(c, w, w.pc.h))})
  {
    t := Steps(c, s, k, OnCompute(c, s.workers[k]), Compute(k), lapse);
    t := SendsOn(c, t, k, lapse);
  }

  lemma SendsOn(c: Config, s: State, k: nat, lapse: Lapse) returns (t: State)
    requires Reachable(c, s, lapse) && k < |s.workers| && s.workers[k].pc.Sending?
    ensures Reachable(c, t, lapse)
    ensures var w := s.workers[k];
            t == At(s, k, w.(pc := Top))
                 .(hops := s.hops + {Packet(Node(k), w.next, w.pc.h.(final := w.pc.h.final || w.next == Master))})
  {
    t := Onward(c, s, Send(k), lapse);
  }

  /** A hop through worker `k`: it is received, run and sent on. */
  lemma PassOn(c: Config, s: State, k: nat, p: Packet, lapse: Lapse) returns (t: State)
    requires Reachable(c, s, lapse) && k < |s.workers| && p in s.hops && p.dst == Node(k)
    requires var w := s.workers[k];
             w.pc == Top && w.pending.None? && w.staged.None? && Decodes(w, p.hop) && Accepts(w, p) && CanRun(c, w, p.hop)
    requires Allowed(At(s, k, s.workers[k].(staged := Some(p))), CommitStaged(k), lapse)
    ensures Reachable(c, t, lapse)
    ensures var w := s.workers[k];
            t == At(s, k, w.(lastSeq := p.hop.seqNo, shard := Some(RanShard(c, w.shard.value, p.hop))))
                 .(hops := s.hops + {Packet(Node(k), w.next, OutHop(c, w, p.hop))})
  {
    t := Taken(c, s, k, p, lapse);
    t := Picked(c, t, k, p.hop, lapse);
    t := Ran(c, t, k, lapse);
  }

  function Zeros(c: Config, a: Assignment): Shard
    requires a.start <= a.end
  {
    Shard(a, seq(a.end - a.start, _ => seq(c.cap, _ => c.m.zeroRow)), 0)
  }

  /** An assignment that has arrived is loaded. */
  lemma Loads(c: Config, s: State, k: nat, a: Assignment, lapse: Lapse) returns (t: State)
    requires Reachable(c, s, lapse) && k < |s.workers| && a.start <= a.end
    requires s.workers[k].pc == Top && s.workers[k].pending == Some(a)
    ensures Reachable(c, t, lapse)
    ensures t == At(s, k, s.workers[k].(pending := None, ready := true, session := a.session, shard := Some(Zeros(c, a))))
  {
    var w := s.workers[k].(pending := None, ready := false, shard := None, pc := Loading(a));
    t := Steps(c, s, k, w, AtTop(k), lapse);
    t := Announces(c, t, k, a, lapse);
  }

  lemma Announces(c: Config, s: State, k: nat, a: Assignment, lapse: Lapse) returns (t: State)
    requires Reachable(c, s, lapse) && k < |s.workers| && a.start <= a.end && s.workers[k].pc == Loading(a)
    ensures Reachable(c, t, lapse)
    ensures t == At(s, k, s.workers[k].(ready := true, session := a.session, shard := Some(Zeros(c, a)), pc := Top))
  {
    var w := s.workers[k].(session := a.session, shard := Some(Zeros(c, a)), pc := Announcing);
    t := Steps(c, s, k, w, Load(k, true), lapse);
    t := Steps(c, t, k, w.(ready := true, pc := Top), Announce(k), lapse);
  }

  // ----- A token round the ring -----

  /** The ring is made of the first workers, in order. */
  predicate Plain(s: State) {
    |s.cut| == |s.ring| + 1 && 1 <= |s.ring| <= |s.workers| && forall k | 0 <= k < |s.ring| :: s.ring[k] == k
  }

  /** Worker `k` of the ring, idle, with its own shard. */
  predicate Waits(c: Config, s: State, k: nat)
    requires Plain(s) && k < |s.ring|
  {
    var w := s.workers[k];
    && w == Worker(PrevOf(s, k), NextOf(s, k), s.session, true, w.lastSeq, Some(AsgOf(s, k)), None, None, None, w.shard, Top)
    && w.lastSeq <= s.gSeq && w.shard.Some? && w.shard.value.asg == AsgOf(s, k)
    && forall i | 0 <= i < |w.shard.value.cache| :: |w.shard.value.cache[i]| == c.cap
  }

  /** A token is due and nothing is under way. */
  ghost predicate Due(c: Config, s: State) {
    && Plain(s) && s.phase == Generating && !s.done && s.final == None && s.toks != [] && |s.toks| <= c.cap
    && forall k {:trigger Waits(c, s, k)} | 0 <= k < |s.ring| :: Waits(c, s, k)
  }

  function CacheAt(s: State, k: nat): Cache
    requires k < |s.workers| && s.workers[k].shard.Some?
  {
    s.workers[k].shard.value.cache
  }

  /** The caches of the ring, in order. */
  ghost function Caches(c: Config, s: State): (r: seq<Cache>)
    requires Due(c, s)
    ensures |r| == |s.ring| && RoomyRing(r, c.cap)
    ensures forall k | 0 <= k < |s.ring| :: Waits(c, s, k) && r[k] == CacheAt(s, k)
  {
    var r := seq(|s.ring|, k requires 0 <= k < |s.ring| => assert Waits(c, s, k); CacheAt(s, k));
    assert RoomyRing(r, c.cap) by {
      forall k | 0 <= k < |r| ensures Roomy(r[k], c.cap) {
        assert Waits(c, s, k) && r[k] == CacheAt(s, k);
      }
    }
    r
  }

  /** What the shards make of the token that is due, up to worker `k`. */
  ghost function Answer(c: Config, s: State, k: nat): Vec
    requires Due(c, s) && k <= |s.ring|
  {
    RingAct(c.m, s.cut, Caches(c, s), c.cap, c.m.embed(s.toks[|s.toks| - 1]), |s.toks| - 1, k)
  }

  /** The packet that is about to enter worker `k`, or the master. */
  ghost function InFlight(c: Config, s: State, k: nat): Packet
    requires Due(c, s) && k <= |s.ring|
  {
    Packet(if k == 0 then Master else Node(k - 1), if k == |s.ring| then Master else Node(k),
           Hop(s.session, s.gSeq + 1, |s.toks| - 1, k == |s.ring|, Answer(c, s, k)))
  }

  /** The token due in `s` has been sent and has been through the workers before `k`. */
  ghost predicate OnItsWay(c: Config, s: State, t: State, k: nat)
    requires Due(c, s) && k <= |s.ring|
  {
    && |t.workers| == |s.workers|
    && t == s.(gSeq := s.gSeq + 1, waiting := Some(s.gSeq + 1), workers := t.workers, hops := t.hops)
    && InFlight(c, s, k) in t.hops
    && (forall j | k <= j < |s.workers| :: t.workers[j] == s.workers[j])
    && forall j {:trigger Waits(c, t, j)} | 0 <= j < |s.ring| :: Waits(c, t, j)
  }

  lemma Sets(c: Config, s: State, lapse: Lapse) returns (t: State)
    requires Reachable(c, s, lapse) && Due(c, s)
    ensures Reachable(c, t, lapse) && OnItsWay(c, s, t, 0)
  {
    t := Onward(c, s, SendToken, lapse);
    forall j | 0 <= j < |s.ring| ensures Waits(c, t, j) {
      assert Waits(c, s, j);
    }
  }

  lemma Passes(c: Config, s: State, t: State, k: nat, lapse: Lapse) returns (u: State)
    requires Due(c, s) && k < |s.ring| && Reachable(c, t, lapse) && OnItsWay(c, s, t, k)
    ensures Reachable(c, u, lapse) && OnItsWay(c, s, u, k + 1)
  {
    var p := InFlight(c, s, k);
    OutIsNext(c, s, t, k);
    MayTake(c, t, k, p, lapse);
    u := PassOn(c, t, k, p, lapse);
    forall j | 0 <= j < |s.ring| ensures Waits(c, u, j) {
      assert Waits(c, t, j);
    }
  }

  /** Worker `k` can run what is in flight to it, and what it sends is in flight to the next one. */
  lemma OutIsNext(c: Config, s: State, t: State, k: nat)
    requires Due(c, s) && k < |s.ring| && OnItsWay(c, s, t, k)
    ensures Plain(t) && Waits(c, t, k)
    ensures var w, p := t.workers[k], InFlight(c, s, k);
            && Decodes(w, p.hop) && Accepts(w, p) && CanRun(c, w, p.hop)
            && Packet(Node(k), w.next, OutHop(c, w, p.hop)) == InFlight(c, s, k + 1)
  {
    assert Waits(c, s, k) && Waits(c, t, k);
    assert Caches(c, s)[k] == CacheAt(s, k);
  }

  /** What an idle ring member accepts, it may accept. */
  lemma MayTake(c: Config, s: State, k: nat, p: Packet, lapse: Lapse)
    requires Plain(s) && k < |s.ring| && Waits(c, s, k)
    ensures Allowed(At(s, k, s.workers[k].(staged := Some(p))), CommitStaged(k), lapse)
  {
  }

  lemma Travels(c: Config, s: State, t: State, lapse: Lapse) returns (u: State)
    requires Due(c, s) && Reachable(c, t, lapse) && OnItsWay(c, s, t, 0)
    ensures Reachable(c, u, lapse) && OnItsWay(c, s, u, |s.ring|)
  {
    u := t;
    for k := 0 to |s.ring|
      invariant Reachable(c, u, lapse) && OnItsWay(c, s, u, k)
    {
      u := Passes(c, s, u, k, lapse);
    }
  }

  /** What a round leaves as it was. */
  predicate SameRing(s: State, t: State) {
    t.ring == s.ring && t.cut == s.cut && t.session == s.session && t.base == s.base && t.assigns == s.assigns
  }

  /** One whole round: the token goes round the ring and what the shards make of it is committed. */
  lemma Round(c: Config, s: State, lapse: Lapse) returns (t: State)
    requires Reachable(c, s, lapse) && Due(c, s)
    ensures Reachable(c, t, lapse) && SameRing(s, t) && t.gSeq == s.gSeq + 1 && |t.workers| == |s.workers|
    ensures t.log == s.log + [Entry(s.toks, Answer(c, s, |s.ring|))]
    ensures var next := NextToken(c, |s.toks| - 1, Answer(c, s, |s.ring|));
            if next == 1 || |s.toks| >= c.steps then t.done && t.toks == s.toks else !t.done && t.toks == s.toks + [next]
    ensures !t.done && |t.toks| <= c.cap ==> Due(c, t)
  {
    t := Sets(c, s, lapse);
    t := Travels(c, s, t, lapse);
    var u := t;
    var p := InFlight(c, s, |s.ring|);
    t := Onward(c, t, ReceiveFinal(p, p.src), lapse);
    t := Onward(c, t, UseFinal, lapse);
    forall k | 0 <= k < |s.ring| ensures Waits(c, t, k) {
      assert Waits(c, u, k);
    }
  }

  lemma {:induction false} Finishes(c: Config, s: State) returns (t: State)
    requires Reachable(c, s, NoLapse) && Due(c, s) && |s.toks| <= c.steps <= c.cap
    ensures Reachable(c, t, NoLapse) && SameRing(s, t)
    ensures t.done && t.log != [] && t.log[|t.log| - 1].toks == t.toks
    decreases c.steps - |s.toks|
  {
    t := Round(c, s, NoLapse);
    if !t.done {
      t := Finishes(c, t);
    }
  }

  // ----- Opening a session -----

  /** Worker `k` of the ring, linked and idle, whatever it has served before. */
  predicate IsIdle(s: State, k: nat)
    requires Plain(s) && k < |s.ring|
  {
    var w := s.workers[k];
    && w == Worker(PrevOf(s, k), NextOf(s, k), w.session, w.ready, w.lastSeq, w.latest, w.pending, None, None, w.shard, Top)
    && w.lastSeq <= s.base
  }

  predicate IsSent(s: State, k: nat)
    requires Plain(s) && k < |s.ring|
  {
    (k, AsgOf(s, k)) in s.assigns
  }

  predicate IsAssigned(s: State, k: nat)
    requires Plain(s) && k < |s.ring|
  {
    var w, a := s.workers[k], AsgOf(s, k);
    w == Worker(PrevOf(s, k), NextOf(s, k), w.session, false, 0, Some(a), Some(a), None, None, w.shard, Top) && Got(s, k)
  }

  /** An idle worker that has loaded `a` and run nothing. */
  function Loaded(c: Config, a: Assignment, prev: Addr, next: Addr): Worker
    requires a.start <= a.end
  {
    Worker(prev, next, a.session, true, 0, Some(a), None, None, None, Some(Zeros(c, a)), Top)
  }

  predicate IsLoaded(c: Config, s: State, k: nat)
    requires Plain(s) && k < |s.ring| && s.cut[k] <= s.cut[k + 1]
  {
    s.workers[k] == Loaded(c, AsgOf(s, k), PrevOf(s, k), NextOf(s, k))
  }

  lemma {:induction false} AllAssigned(c: Config, s: State, k: nat, lapse: Lapse) returns (t: State)
    requires Reachable(c, s, lapse) && Plain(s) && k <= |s.ring|
    requires forall j {:trigger IsSent(s, j)} | 0 <= j < |s.ring| :: IsSent(s, j)
    requires forall j {:trigger IsAssigned(s, j)} | 0 <= j < k :: IsAssigned(s, j)
    requires forall j {:trigger IsIdle(s, j)} | k <= j < |s.ring| :: IsIdle(s, j)
    ensures Reachable(c, t, lapse) && |t.workers| == |s.workers| && t == s.(workers := t.workers, acks := t.acks)
    ensures forall j {:trigger IsAssigned(t, j)} | 0 <= j < |t.ring| :: IsAssigned(t, j)
    decreases |s.ring| - k
  {
    t := s;
    if k < |s.ring| {
      assert IsIdle(s, k) && IsSent(s, k);
      t := Onward(c, s, DeliverAssign(k, AsgOf(s, k)), lapse);
      forall j | 0 <= j < |s.ring| ensures IsSent(t, j) {
        assert IsSent(s, j);
      }
      forall j | 0 <= j <= k ensures IsAssigned(t, j) {
        if j < k { assert IsAssigned(s, j); }
      }
      forall j | k < j < |s.ring| ensures IsIdle(t, j) {
        assert IsIdle(s, j);
      }
      t := AllAssigned(c, t, k + 1, lapse);
    }
  }

  lemma {:induction false} AllLoaded(c: Config, s: State, k: nat, lapse: Lapse) returns (t: State)
    requires Reachable(c, s, lapse) && Plain(s) && k <= |s.ring| && forall j | 0 <= j < |s.ring| :: s.cut[j] <= s.cut[j + 1]
    requires forall j {:trigger IsLoaded(c, s, j)} | 0 <= j < k :: IsLoaded(c, s, j)
    requires forall j {:trigger IsAssigned(s, j)} | k <= j < |s.ring| :: IsAssigned(s, j)
    ensures Reachable(c, t, lapse) && |t.workers| == |s.workers| && t == s.(workers := t.workers)
    ensures forall j {:trigger IsLoaded(c, t, j)} | 0 <= j < |t.ring| :: IsLoaded(c, t, j)
    decreases |s.ring| - k
  {
    t := s;
    if k < |s.ring| {
      assert IsAssigned(s, k);
      t := Loads(c, s, k, AsgOf(s, k), lapse);
      forall j | 0 <= j <= k ensures IsLoaded(c, t, j) {
        if j < k { assert IsLoaded(c, s, j); }
      }
      forall j | k < j < |s.ring| ensures IsAssigned(t, j) {
        assert IsAssigned(s, j);
      }
      t := AllLoaded(c, t, k + 1, lapse);
    }
  }

  /** A session has begun over idle workers. */
  ghost predicate Begun(c: Config, s: State) {
    && Plain(s) && s.phase == Linking && IsCut(s.cut, c.m.nLayers) && s.final == None && !s.done
    && forall k {:trigger IsIdle(s, k)} | 0 <= k < |s.ring| :: IsIdle(s, k)
  }

  lemma Launched(c: Config, s: State, lapse: Lapse) returns (t: State)
    requires Reachable(c, s, lapse) && Begun(c, s)
    ensures Reachable(c, t, lapse) && t == s.(phase := Assigning, assigns := t.assigns, acks := t.acks, workers := t.workers)
    ensures s.assigns <= t.assigns && |t.workers| == |s.workers|
    ensures forall k {:trigger IsAssigned(t, k)} | 0 <= k < |t.ring| :: IsAssigned(t, k) && IsSent(t, k)
  {
    t := Onward(c, s, Launch, lapse);
    forall k | 0 <= k < |s.ring| ensures IsSent(t, k) && IsIdle(t, k) {
      assert IsIdle(s, k);
      assert (s.ring[k], AsgOf(s, k)) in t.assigns;
    }
    var u := t;
    t := AllAssigned(c, t, 0, lapse);
    forall k | 0 <= k < |s.ring| ensures IsSent(t, k) {
      assert IsSent(u, k);
    }
  }

  lemma Started(c: Config, s: State, lapse: Lapse) returns (t: State)
    requires Reachable(c, s, lapse) && Plain(s) && s.phase == Assigning && c.prompt != []
    requires forall k {:trigger IsAssigned(s, k)} | 0 <= k < |s.ring| :: IsAssigned(s, k)
    ensures Reachable(c, t, lapse) && t == s.(phase := Generating, toks := [c.prompt[0]], done := c.steps == 0)
    ensures forall k {:trigger IsAssigned(t, k)} | 0 <= k < |t.ring| :: IsAssigned(t, k)
  {
    forall k | 0 <= k < |s.ring| ensures Got(s, k) {
      assert IsAssigned(s, k);
    }
    t := Onward(c, s, StartGeneration, lapse);
    forall k | 0 <= k < |s.ring| ensures IsAssigned(t, k) {
      assert IsAssigned(s, k);
    }
  }

  lemma Opened(c: Config, s: State, lapse: Lapse) returns (t: State)
    requires Reachable(c, s, lapse) && Begun(c, s) && c.prompt != [] && 1 <= c.steps && 1 <= c.cap
    ensures Reachable(c, t, lapse) && Due(c, t) && t.toks == [c.prompt[0]]
    ensures t == s.(phase := t.phase, toks := t.toks, workers := t.workers, assigns := t.assigns, acks := t.acks)
    ensures s.assigns <= t.assigns && |t.workers| == |s.workers|
    ensures forall k | 0 <= k < |t.ring| :: t.cut[k] <= t.cut[k + 1] && IsLoaded(c, t, k) && IsSent(t, k)
  {
    var u := Launched(c, s, lapse);
    t := Started(c, u, lapse);
    t := AllLoaded(c, t, 0, lapse);
    forall k | 0 <= k < |t.ring| ensures Waits(c, t, k) && IsSent(t, k) {
      assert IsLoaded(c, t, k) && IsAssigned(u, k);
    }
  }

  function UpTo(n: nat): (r: seq<nat>)
    ensures |r| == n && forall k | 0 <= k < n :: r[k] == k
  {
    seq(n, k => k)
  }

  /** The first session, over the first `n` workers of `all`. */
  lemma First(c: Config, n: nat, all: seq<Worker>, lapse: Lapse) returns (t: State)
    requires 1 <= n <= c.m.nLayers && n <= |all|
    requires forall k | 0 <= k < |all| :: all[k] == Worker(all[k].prev, all[k].next, 0, false, 0, None, None, None, None, None, Top)
    requires forall k | 0 <= k < n :: all[k].prev == (if k == 0 then Master else Node(k - 1))
    requires forall k | 0 <= k < n :: all[k].next == (if k == n - 1 then Master else Node(k + 1))
    ensures Reachable(c, t, lapse) && Begun(c, t) && t.ring == UpTo(n) && t.cut == Cut(c.m.nLayers, n) && t.workers == all
    ensures t.session == 1 && t.gSeq == t.base == 0 && t.log == []
  {
    var s := State(all, {}, {}, {}, 0, 0, 0, [], [], Linking, [], None, None, false, []);
    Begin(c, s, lapse);
    CutIsCut(c.m.nLayers, n);
    t := Onward(c, s, BeginSession(1, UpTo(n)), lapse);
    forall k | 0 <= k < n ensures IsIdle(t, k) {
      assert t.workers[k] == all[k];
    }
  }

  /** `n` workers linked in a ring. */
  function Linked(n: nat): (all: seq<Worker>)
    ensures |all| == n
  {
    seq(n, k requires 0 <= k => Worker(if k == 0 then Master else Node(k - 1), if k == n - 1 then Master else Node(k + 1),
                                       0, false, 0, None, None, None, None, None, Top))
  }

  /** For every model, worker count, prompt and step limit that fits the cache there is a stable session that
      generates to the end, so what is proved about committed activations is about something. */
  lemma SessionFinishes(c: Config, n: nat) returns (states: seq<State>, events: seq<Event>)
    requires 1 <= n <= c.m.nLayers && c.prompt != [] && 1 <= c.steps <= c.cap
    ensures IsRun(c, states, events)
    ensures var t := states[|events|];
            |t.ring| == n && t.done && t.log != [] && t.log[|t.log| - 1].toks == t.toks
  {
    var s := First(c, n, Linked(n), NoLapse);
    s := Opened(c, s, NoLapse);
    s := Finishes(c, s);
    states, events := RunTo(c, s);
  }

  lemma RunTo(c: Config, s: State) returns (states: seq<State>, events: seq<Event>)
    requires Reachable(c, s, NoLapse)
    ensures IsRun(c, states, events) && states[|events|] == s
  {
    states, events :| Ends(c, states, events, s, NoLapse);
  }
}
