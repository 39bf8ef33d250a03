/** Every activation the master uses in a stable session is the one the single node computes. */
module RingSafety {
  import opened Llama
  import opened LayerSplit
  import opened RingProtocol

  // ----- What a hop of the current session carries -----

  ghost predicate Shape(c: Config, s: State) {
    && IsRing(s, s.ring)
    && s.base <= s.gSeq
    && (s.ring != [] ==> IsCut(s.cut, c.m.nLayers) && |s.cut| == |s.ring| + 1)
    && (s.phase != Linking ==> s.ring != [])
    && (s.phase == Generating <==> s.toks != [])
    && (s.phase != Generating ==> s.gSeq == s.base)
  }

  function W(s: State, k: nat): Worker
    requires IsRing(s, s.ring) && k < |s.ring|
  {
    s.workers[s.ring[k]]
  }

  /** The sequence number tells what a hop is about. */
  ghost predicate SeqOk(s: State, h: Hop) {
    && h.seqNo <= s.gSeq
    && (IsNew(s, h) ==> h.pos < |s.toks| && (s.waiting == Some(h.seqNo) ==> h.pos == |s.toks| - 1))
  }

  /** Worker `k` has run this session's hops and its rows are right for the first `n` positions. */
  ghost predicate RowsOk(c: Config, s: State, k: nat, n: nat)
    requires Shape(c, s) && k < |s.ring|
  {
    && n <= |s.toks| && W(s, k).shard.Some?
    && var sh := W(s, k).shard.value;
       sh.asg == AsgOf(s, k) && sh.ran > s.base && RowsRight(c.m, s.toks, s.cut[k], sh.cache, n)
  }

  /** Position `p` has been through the workers before `k`; all earlier positions through all of them. */
  ghost predicate Front(c: Config, s: State, k: nat, p: nat)
    requires Shape(c, s)
  {
    forall j | 0 <= j < |s.ring| :: Reached(c, s, k, p, j)
  }

  ghost predicate Reached(c: Config, s: State, k: nat, p: nat, j: nat)
    requires Shape(c, s) && j < |s.ring|
  {
    if j < k then RowsOk(c, s, j, p + 1) else p > 0 ==> RowsOk(c, s, j, p)
  }

  /** A hop of the current session that is about to enter layer `s.cut[k]`. */
  ghost predicate Entering(c: Config, s: State, k: nat, h: Hop)
    requires Shape(c, s)
  {
    && s.ring != [] && k <= |s.ring|
    && h.pos < |s.toks| && h.x == Act(c.m, s.toks, s.cut[k], h.pos) && Front(c, s, k, h.pos)
  }

  /** A hop held at worker `id`, before (`d == 0`) or after (`d == 1`) its layers. */
  ghost predicate HopAt(c: Config, s: State, id: nat, d: nat, h: Hop)
    requires Shape(c, s)
  {
    && SeqOk(s, h)
    && (IsNew(s, h) ==> forall k | 0 <= k < |s.ring| && s.ring[k] == id :: Entering(c, s, k + d, h))
  }

  /** What a packet carries is known from its sender, wherever it was sent. */
  ghost predicate PacketOk(c: Config, s: State, p: Packet)
    requires Shape(c, s)
  {
    match p.src
    case Master =>
      SeqOk(s, p.hop) && (IsNew(s, p.hop) ==> s.ring != [] && p.dst == Node(s.ring[0]) && Entering(c, s, 0, p.hop))
    case Node(id) => HopAt(c, s, id, 1, p.hop)
  }

  // ----- Workers -----

  ghost predicate Sane(c: Config, s: State, w: Worker) {
    && w.lastSeq <= s.gSeq
    && (w.ready ==> w.shard.Some? && !w.pc.Loading? && w.pc != Announcing)
    && (w.ready && w.pending.Some? ==> w.pc == Top)
    && (w.pc == Draining ==> w.mailbox.Some?)
    && (w.pc.Loading? ==> w.shard.None?)
    && (w.pc == Draining || w.pc.Computing? || w.pc == Announcing ==> w.shard.Some?)
    && (w.pending.Some? ==> w.latest == w.pending)
    && (w.pending.None? && w.pc.Loading? ==> w.latest == Some(w.pc.asg))
    && (w.pending.None? && w.shard.Some? ==> w.latest == Some(w.shard.value.asg))
    && (w.shard.Some? ==>
          var sh := w.shard.value;
          && sh.ran <= s.gSeq && sh.asg.start <= sh.asg.end && |sh.cache| == sh.asg.end - sh.asg.start
          && forall i | 0 <= i < |sh.cache| :: |sh.cache[i]| == c.cap)
  }

  ghost predicate HopsOk(c: Config, s: State, id: nat)
    requires Shape(c, s) && id < |s.workers|
  {
    var w := s.workers[id];
    && (w.staged.Some? ==> w.staged.value.dst == Node(id) && PacketOk(c, s, w.staged.value))
    && (w.mailbox.Some? ==> HopAt(c, s, id, 0, w.mailbox.value))
    && (w.pc.Computing? ==> HopAt(c, s, id, 0, w.pc.h))
    && (w.pc.Sending? ==> HopAt(c, s, id, 1, w.pc.h))
  }

  predicate HoldsNew(s: State, w: Worker) {
    || (w.mailbox.Some? && IsNew(s, w.mailbox.value))
    || ((w.pc.Computing? || w.pc.Sending?) && IsNew(s, w.pc.h))
  }

  predicate HoldsOld(s: State, w: Worker) {
    || (w.mailbox.Some? && !IsNew(s, w.mailbox.value))
    || (w.pc.Computing? && !IsNew(s, w.pc.h))
  }

  /** What holds of a ring member: once it has accepted a hop of the session it keeps its own shard, and
      once it has run one it holds none of an earlier session. */
  ghost predicate Member(c: Config, s: State, k: nat)
    requires Shape(c, s) && k < |s.ring|
  {
    var w := W(s, k);
    && (HoldsNew(s, w) ==> w.lastSeq > s.base)
    && (w.lastSeq > s.base ==> w.latest == Some(AsgOf(s, k)) && (w.mailbox.Some? ==> IsNew(s, w.mailbox.value)))
    && (w.pending.Some? && (w.pc == Past || w.pc == Draining) && w.mailbox.Some? ==> !IsNew(s, w.mailbox.value))
    && (w.pending.Some? && w.pc.Computing? ==> !IsNew(s, w.pc.h))
    && (w.shard.Some? && w.shard.value.ran > s.base ==> w.lastSeq > s.base && w.pending.None? && !HoldsOld(s, w))
  }

  // ----- Master -----

  /** Each token is the prompt's, or what the single node would pick next. */
  ghost predicate Generated(c: Config, toks: seq<nat>) {
    && toks != [] && c.prompt != [] && toks[0] == c.prompt[0]
    && forall i {:trigger Follows(c, toks, i)} | 0 <= i < |toks| - 1 :: Follows(c, toks, i)
  }

  ghost predicate Follows(c: Config, toks: seq<nat>, i: nat)
    requires i + 1 < |toks|
  {
    toks[i + 1] == NextToken(c, i, Act(c.m, toks, c.m.nLayers, i))
  }

  ghost predicate EntryOk(c: Config, e: Entry) {
    && Generated(c, e.toks) && e.x == Act(c.m, e.toks, c.m.nLayers, |e.toks| - 1)
  }

  ghost predicate MasterOk(c: Config, s: State) {
    && (s.toks != [] ==> Generated(c, s.toks))
    && (s.final.Some? ==> s.toks != [] && s.final.value == Act(c.m, s.toks, c.m.nLayers, |s.toks| - 1))
    && (s.waiting.Some? ==> s.phase == Generating && s.base < s.waiting.value <= s.gSeq)
    && forall i | 0 <= i < |s.log| :: EntryOk(c, s.log[i])
  }

  /** Every worker has served all positions before the current one; and the current one too,
      once its final activation is back. */
  ghost predicate Served(c: Config, s: State)
    requires Shape(c, s)
  {
    && (s.toks != [] ==> Front(c, s, 0, |s.toks| - 1))
    && (s.final.Some? ==> s.toks != [] && Front(c, s, |s.ring|, |s.toks| - 1))
  }

  ghost predicate WorkerOk(c: Config, s: State, id: nat)
    requires Shape(c, s) && id < |s.workers|
  {
    Sane(c, s, s.workers[id]) && HopsOk(c, s, id)
  }

  ghost predicate Inv(c: Config, s: State) {
    && Shape(c, s) && MasterOk(c, s) && Served(c, s)
    && (forall p | p in s.hops :: PacketOk(c, s, p))
    && (forall id | 0 <= id < |s.workers| :: WorkerOk(c, s, id))
    && (forall k | 0 <= k < |s.ring| :: Member(c, s, k))
  }

  // ----- Frames -----

  /** Nothing the meaning of a hop depends on has been lost. */
  ghost predicate Keeps(c: Config, s: State, t: State)
    requires Shape(c, s) && Shape(c, t)
  {
    && t.session == s.session && t.ring == s.ring && t.cut == s.cut && t.base == s.base
    && s.gSeq <= t.gSeq && s.toks <= t.toks
    && ((t.waiting == s.waiting && t.toks == s.toks) || t.waiting.None? || t.waiting.value > s.gSeq)
    && forall k, n | 0 <= k < |s.ring| && 1 <= n && RowsOk(c, s, k, n) :: RowsOk(c, t, k, n)
  }

  lemma KeepsFront(c: Config, s: State, t: State, k: nat, p: nat)
    requires Shape(c, s) && Shape(c, t) && Keeps(c, s, t)
    requires Front(c, s, k, p)
    ensures Front(c, t, k, p)
  {
    forall j | 0 <= j < |s.ring| ensures Reached(c, t, k, p, j) {
      assert Reached(c, s, k, p, j);
    }
  }

  lemma KeepsServed(c: Config, s: State, t: State)
    requires Shape(c, s) && Shape(c, t) && Keeps(c, s, t) && Served(c, s)
    requires t.toks == s.toks && t.final == s.final
    ensures Served(c, t)
  {
    if s.toks != [] { KeepsFront(c, s, t, 0, |s.toks| - 1); }
    if s.final.Some? { KeepsFront(c, s, t, |s.ring|, |s.toks| - 1); }
  }

  lemma KeepsEntering(c: Config, s: State, t: State, k: nat, h: Hop)
    requires Shape(c, s) && Shape(c, t) && Keeps(c, s, t)
    requires Entering(c, s, k, h)
    ensures Entering(c, t, k, h)
  {
    ActExtend(c.m, s.toks, t.toks[|s.toks|..], s.cut[k], h.pos);
    assert s.toks + t.toks[|s.toks|..] == t.toks;
    KeepsFront(c, s, t, k, h.pos);
  }

  lemma KeepsHopAt(c: Config, s: State, t: State, id: nat, d: nat, h: Hop)
    requires Shape(c, s) && Shape(c, t) && Keeps(c, s, t)
    requires HopAt(c, s, id, d, h)
    ensures HopAt(c, t, id, d, h)
  {
    forall k | IsNew(s, h) && 0 <= k < |s.ring| && s.ring[k] == id ensures Entering(c, t, k + d, h) {
      KeepsEntering(c, s, t, k + d, h);
    }
  }

  lemma KeepsPacket(c: Config, s: State, t: State, p: Packet)
    requires Shape(c, s) && Shape(c, t) && Keeps(c, s, t)
    requires PacketOk(c, s, p)
    ensures PacketOk(c, t, p)
  {
    match p.src
    case Master => if IsNew(s, p.hop) { KeepsEntering(c, s, t, 0, p.hop); }
    case Node(id) => KeepsHopAt(c, s, t, id, 1, p.hop);
  }

  lemma KeepsHopsOk(c: Config, s: State, t: State, id: nat)
    requires Shape(c, s) && Shape(c, t) && Keeps(c, s, t)
    requires id < |s.workers| && id < |t.workers| && t.workers[id] == s.workers[id] && HopsOk(c, s, id)
    ensures HopsOk(c, t, id)
  {
    var w := s.workers[id];
    if w.staged.Some? { KeepsPacket(c, s, t, w.staged.value); }
    if w.mailbox.Some? { KeepsHopAt(c, s, t, id, 0, w.mailbox.value); }
    if w.pc.Computing? { KeepsHopAt(c, s, t, id, 0, w.pc.h); }
    if w.pc.Sending? { KeepsHopAt(c, s, t, id, 1, w.pc.h); }
  }

  lemma SameShards(c: Config, s: State, t: State)
    requires Shape(c, s) && Shape(c, t)
    requires t.session == s.session && t.ring == s.ring && t.cut == s.cut && t.base == s.base
    requires s.gSeq <= t.gSeq && s.toks <= t.toks
    requires (t.waiting == s.waiting && t.toks == s.toks) || t.waiting.None? || t.waiting.value > s.gSeq
    requires forall k | 0 <= k < |s.ring| :: W(t, k).shard == W(s, k).shard
    ensures Keeps(c, s, t)
  {
    forall k, n | 0 <= k < |s.ring| && 1 <= n && RowsOk(c, s, k, n) ensures RowsOk(c, t, k, n) {
      assert W(t, k).shard == W(s, k).shard;
      RowsRightExtend(c, s.toks, t.toks, s.cut[k], W(s, k).shard.value.cache, n);
    }
  }

  lemma RowsRightExtend(c: Config, toks: seq<nat>, toks': seq<nat>, base: nat, cache: Cache, n: nat)
    requires toks <= toks' && n <= |toks| && RowsRight(c.m, toks, base, cache, n)
    ensures RowsRight(c.m, toks', base, cache, n)
  {
    assert toks + toks'[|toks|..] == toks';
    forall i | 0 <= i < |cache| ensures cache[i][..n] == Rows(c.m, toks', base + i, n) {
      RowsExtend(c.m, toks, toks'[|toks|..], base + i, n);
    }
  }

  /** `t` differs from `s` at worker `id` only. */
  predicate OnlyAt(s: State, t: State, id: nat) {
    && id < |s.workers| == |t.workers|
    && t == s.(workers := s.workers[id := t.workers[id]], acks := t.acks)
  }

  lemma OthersOk(c: Config, s: State, t: State, id: nat)
    requires Inv(c, s) && OnlyAt(s, t, id) && Shape(c, t) && Keeps(c, s, t)
    requires WorkerOk(c, t, id)
    requires forall k | 0 <= k < |s.ring| && s.ring[k] == id :: Member(c, t, k)
    ensures Inv(c, t)
  {
    KeepsServed(c, s, t);
    forall p | p in t.hops ensures PacketOk(c, t, p) {
      KeepsPacket(c, s, t, p);
    }
    forall i | 0 <= i < |s.workers| ensures WorkerOk(c, t, i) {
      if i != id {
        assert WorkerOk(c, s, i);
        KeepsHopsOk(c, s, t, i);
      }
    }
    forall k | 0 <= k < |s.ring| ensures Member(c, t, k) {
      if s.ring[k] != id {
        assert Member(c, s, k);
        assert W(t, k) == W(s, k);
      }
    }
  }

  /** A step of one worker that leaves its shard alone. */
  lemma UpdateWorker(c: Config, s: State, id: nat, w: Worker) returns (t: State)
    requires Inv(c, s) && id < |s.workers|
    requires w.shard == s.workers[id].shard
    ensures t == s.(workers := s.workers[id := w])
    ensures OnlyAt(s, t, id) && Shape(c, t) && Keeps(c, s, t)
  {
    t := s.(workers := s.workers[id := w]);
    SameShards(c, s, t);
  }

  /** A step of the master or the network that leaves all workers alone. */
  lemma MasterStep(c: Config, s: State, t: State)
    requires Inv(c, s) && Shape(c, t) && Keeps(c, s, t) && MasterOk(c, t) && Served(c, t)
    requires t.workers == s.workers
    requires forall p | p in t.hops :: p in s.hops || PacketOk(c, t, p)
    ensures Inv(c, t)
  {
    forall p | p in t.hops ensures PacketOk(c, t, p) {
      if p in s.hops { KeepsPacket(c, s, t, p); }
    }
    forall id | 0 <= id < |s.workers| ensures WorkerOk(c, t, id) {
      assert WorkerOk(c, s, id);
      KeepsHopsOk(c, s, t, id);
    }
    forall k | 0 <= k < |s.ring| ensures Member(c, t, k) {
      assert Member(c, s, k);
    }
  }

  // ----- Steps of the master -----

  lemma BeginStep(c: Config, s: State, session: nat, ring: seq<nat>)
    requires Inv(c, s) && Enabled(c, s, BeginSession(session, ring))
    ensures Inv(c, Apply(c, s, BeginSession(session, ring)))
  {
    var t := Apply(c, s, BeginSession(session, ring));
    CutIsCut(c.m.nLayers, |ring|);
    forall p | p in t.hops ensures PacketOk(c, t, p) {
      assert PacketOk(c, s, p);
    }
    forall id | 0 <= id < |t.workers| ensures WorkerOk(c, t, id) {
      assert WorkerOk(c, s, id);
    }
    forall k | 0 <= k < |t.ring| ensures Member(c, t, k) {
      assert WorkerOk(c, s, t.ring[k]);
    }
  }

  lemma LaunchStep(c: Config, s: State)
    requires Inv(c, s) && Enabled(c, s, Launch)
    ensures Inv(c, Apply(c, s, Launch))
  {
    var t := Apply(c, s, Launch);
    SameShards(c, s, t);
    forall p | p in t.hops ensures PacketOk(c, t, p) {
      KeepsPacket(c, s, t, p);
    }
    forall id | 0 <= id < |t.workers| ensures WorkerOk(c, t, id) {
      assert WorkerOk(c, s, id);
      KeepsHopsOk(c, s, t, id);
    }
    forall k | 0 <= k < |t.ring| ensures Member(c, t, k) {
      assert Member(c, s, k);
    }
  }

  lemma StartStep(c: Config, s: State)
    requires Inv(c, s) && Enabled(c, s, StartGeneration)
    ensures Inv(c, Apply(c, s, StartGeneration))
  {
    var t := Apply(c, s, StartGeneration);
    assert SameSession(s, t);
    SameShards(c, s, t);
    forall p | p in t.hops ensures PacketOk(c, t, p) {
      KeepsPacket(c, s, t, p);
    }
    forall id | 0 <= id < |t.workers| ensures WorkerOk(c, t, id) {
      assert WorkerOk(c, s, id);
      KeepsHopsOk(c, s, t, id);
    }
    forall k | 0 <= k < |t.ring| ensures Member(c, t, k) {
      assert Member(c, s, k);
    }
  }

  predicate SameSession(s: State, t: State) {
    t.session == s.session && t.ring == s.ring && t.cut == s.cut && t.base == s.base
  }

  lemma SendTokenStep(c: Config, s: State)
    requires Inv(c, s) && Enabled(c, s, SendToken)
    ensures Inv(c, Apply(c, s, SendToken))
  {
    var t := Apply(c, s, SendToken);
    SameShards(c, s, t);
    KeepsServed(c, s, t);
    var pos := |s.toks| - 1;
    var p := Packet(Master, Node(s.ring[0]), Hop(s.session, s.gSeq + 1, pos, false, c.m.embed(s.toks[pos])));
    assert PacketOk(c, t, p);
    MasterStep(c, s, t);
  }

  /** A hop the master accepts has been through every layer. */
  lemma FinalIsThrough(c: Config, s: State, p: Packet, tail: Addr)
    requires Inv(c, s) && Enabled(c, s, ReceiveFinal(p, tail)) && RightLink(s, ReceiveFinal(p, tail))
    ensures s.toks != [] && p.hop.x == Act(c.m, s.toks, c.m.nLayers, |s.toks| - 1)
    ensures Front(c, s, |s.ring|, |s.toks| - 1)
  {
    assert PacketOk(c, s, p);
    var k :| 0 <= k < |s.ring| && p.src == Node(s.ring[k]) && k + 1 == |s.ring|;
    assert Entering(c, s, k + 1, p.hop);
  }

  lemma ReceiveStep(c: Config, s: State, p: Packet, tail: Addr)
    requires Inv(c, s) && Enabled(c, s, ReceiveFinal(p, tail)) && RightLink(s, ReceiveFinal(p, tail))
    ensures Inv(c, Apply(c, s, ReceiveFinal(p, tail)))
  {
    var t := Apply(c, s, ReceiveFinal(p, tail));
    SameShards(c, s, t);
    FinalIsThrough(c, s, p, tail);
    ReceiveServes(c, s, t, p.hop.x);
    MasterStep(c, s, t);
  }

  lemma ReceiveServes(c: Config, s: State, t: State, x: Vec)
    requires Shape(c, s) && Shape(c, t) && Keeps(c, s, t) && MasterOk(c, s) && t == s.(final := Some(x))
    requires s.toks != [] && x == Act(c.m, s.toks, c.m.nLayers, |s.toks| - 1)
    requires Served(c, s) && Front(c, s, |s.ring|, |s.toks| - 1)
    ensures MasterOk(c, t) && Served(c, t)
  {
    KeepsFront(c, s, t, 0, |s.toks| - 1);
    KeepsFront(c, s, t, |s.ring|, |s.toks| - 1);
  }

  lemma UseStep(c: Config, s: State)
    requires Inv(c, s) && Enabled(c, s, UseFinal)
    ensures Inv(c, Apply(c, s, UseFinal))
  {
    var t := Apply(c, s, UseFinal);
    assert s.toks <= t.toks;
    SameShards(c, s, t);
    UseLogs(c, s, t);
    UseServes(c, s, t);
    MasterStep(c, s, t);
  }

  /** What is logged is right, and so is the token chosen next. */
  lemma UseLogs(c: Config, s: State, t: State)
    requires MasterOk(c, s) && Enabled(c, s, UseFinal) && t == Apply(c, s, UseFinal)
    ensures MasterOk(c, t)
  {
    assert EntryOk(c, Entry(s.toks, s.final.value));
    if t.toks != s.toks { GeneratedStep(c, s.toks); }
  }

  lemma UseServes(c: Config, s: State, t: State)
    requires Shape(c, s) && Shape(c, t) && Keeps(c, s, t) && Served(c, s)
    requires Enabled(c, s, UseFinal) && t == Apply(c, s, UseFinal)
    ensures Served(c, t)
  {
    var p := |s.toks| - 1;
    KeepsFront(c, s, t, 0, p);
    KeepsFront(c, s, t, |s.ring|, p);
    if t.toks != s.toks { FrontAdvance(c, t, p); }
  }

  lemma FrontAdvance(c: Config, s: State, p: nat)
    requires Shape(c, s) && Front(c, s, |s.ring|, p)
    ensures Front(c, s, 0, p + 1)
  {
    var q := p + 1;
    forall j | 0 <= j < |s.ring| ensures Reached(c, s, 0, q, j) {
      assert Reached(c, s, |s.ring|, p, j);
    }
  }

  lemma FollowsStill(c: Config, toks: seq<nat>, next: nat, i: nat)
    requires i + 1 < |toks| && Follows(c, toks, i)
    ensures Follows(c, toks + [next], i)
  {
    ActExtend(c.m, toks, [next], c.m.nLayers, i);
  }

  lemma GeneratedStep(c: Config, toks: seq<nat>)
    requires Generated(c, toks)
    ensures var p := |toks| - 1;
            Generated(c, toks + [NextToken(c, p, Act(c.m, toks, c.m.nLayers, p))])
  {
    var p := |toks| - 1;
    var next := NextToken(c, p, Act(c.m, toks, c.m.nLayers, p));
    var toks' := toks + [next];
    forall i | 0 <= i < |toks'| - 1 ensures Follows(c, toks', i) {
      if i < p {
        assert Follows(c, toks, i);
        FollowsStill(c, toks, next, i);
      } else {
        ActExtend(c.m, toks, [next], c.m.nLayers, p);
      }
    }
  }

  // ----- Steps of a worker that leave its shard alone -----

  lemma SetNeighborStep(c: Config, s: State, id: nat, prev: Addr, next: Addr)
    requires Inv(c, s) && Enabled(c, s, SetNeighbor(id, prev, next))
    ensures Inv(c, Apply(c, s, SetNeighbor(id, prev, next)))
  {
    var t := UpdateWorker(c, s, id, s.workers[id].(prev := prev, next := next));
    assert WorkerOk(c, s, id);
    KeepsHopsAtWorker(c, s, t, id);
    forall k | 0 <= k < |s.ring| && s.ring[k] == id ensures Member(c, t, k) {
      assert Member(c, s, k);
    }
    OthersOk(c, s, t, id);
  }

  lemma DeliverStep(c: Config, s: State, id: nat, a: Assignment)
    requires Inv(c, s) && Enabled(c, s, DeliverAssign(id, a)) && NotReassigned(s, DeliverAssign(id, a))
    ensures Inv(c, Apply(c, s, DeliverAssign(id, a)))
  {
    var t := Apply(c, s, DeliverAssign(id, a));
    SameShards(c, s, t);
    assert WorkerOk(c, s, id);
    KeepsHopsAtWorker(c, s, t, id);
    forall k | 0 <= k < |s.ring| && s.ring[k] == id ensures Member(c, t, k) {
      assert Member(c, s, k);
    }
    OthersOk(c, s, t, id);
  }

  /** The hops a worker still holds after a step of its own are still in order. */
  lemma KeepsHopsAtWorker(c: Config, s: State, t: State, id: nat)
    requires Shape(c, s) && Shape(c, t) && Keeps(c, s, t)
    requires id < |s.workers| && id < |t.workers| && HopsOk(c, s, id)
    requires t.workers[id].staged.None? || t.workers[id].staged == s.workers[id].staged
    requires t.workers[id].mailbox.None? || t.workers[id].mailbox == s.workers[id].mailbox
    requires t.workers[id].pc == s.workers[id].pc || !(t.workers[id].pc.Computing? || t.workers[id].pc.Sending?)
    ensures HopsOk(c, t, id)
  {
    var w := t.workers[id];
    if w.staged.Some? { KeepsPacket(c, s, t, w.staged.value); }
    if w.mailbox.Some? { KeepsHopAt(c, s, t, id, 0, w.mailbox.value); }
    if w.pc.Computing? { KeepsHopAt(c, s, t, id, 0, w.pc.h); }
    if w.pc.Sending? { KeepsHopAt(c, s, t, id, 1, w.pc.h); }
  }

  lemma StageStep(c: Config, s: State, id: nat, p: Packet)
    requires Inv(c, s) && Enabled(c, s, Stage(id, p))
    ensures Inv(c, Apply(c, s, Stage(id, p)))
  {
    var t := UpdateWorker(c, s, id, s.workers[id].(staged := Some(p)));
    assert WorkerOk(c, s, id);
    KeepsPacket(c, s, t, p);
    var w := s.workers[id];
    if w.mailbox.Some? { KeepsHopAt(c, s, t, id, 0, w.mailbox.value); }
    if w.pc.Computing? { KeepsHopAt(c, s, t, id, 0, w.pc.h); }
    if w.pc.Sending? { KeepsHopAt(c, s, t, id, 1, w.pc.h); }
    forall k | 0 <= k < |s.ring| && s.ring[k] == id ensures Member(c, t, k) {
      assert Member(c, s, k);
    }
    OthersOk(c, s, t, id);
  }

  /** A hop of an old session cannot follow one of the current session into the mailbox: its
      sequence number is too small. */
  lemma CommitMember(c: Config, s: State, t: State, k: nat)
    requires Shape(c, s) && Shape(c, t) && k < |s.ring| && W(s, k).staged.Some?
    requires t == s.(workers := s.workers[s.ring[k] := OnStaged(W(s, k))])
    requires WorkerOk(c, s, s.ring[k]) && Member(c, s, k) && OwnAssignment(s, CommitStaged(s.ring[k]))
    ensures Member(c, t, k)
  {
  }

  /** Over a link that is right at either end, a hop of the session reaches the worker whose layers come next. */
  lemma AcceptsOwn(c: Config, s: State, id: nat)
    requires Inv(c, s) && id < |s.workers| && s.workers[id].staged.Some? && RightLink(s, CommitStaged(id))
    requires Accepts(s.workers[id], s.workers[id].staged.value)
    ensures HopAt(c, s, id, 0, s.workers[id].staged.value.hop)
  {
    assert WorkerOk(c, s, id);
    var p := s.workers[id].staged.value;
    forall k | IsNew(s, p.hop) && 0 <= k < |s.ring| && s.ring[k] == id ensures Entering(c, s, k + 0, p.hop) {
      assert TakesNew(s, k);
      if p.src != Master {
        var j :| 0 <= j < |s.ring| && p.src == Node(s.ring[j]) && j + 1 == k;
        assert Entering(c, s, j + 1, p.hop);
      }
    }
  }

  lemma CommitStep(c: Config, s: State, id: nat)
    requires Inv(c, s) && Enabled(c, s, CommitStaged(id)) && Stable(s, CommitStaged(id))
    ensures Inv(c, Apply(c, s, CommitStaged(id)))
  {
    var w := s.workers[id];
    var t := UpdateWorker(c, s, id, OnStaged(w));
    assert WorkerOk(c, s, id);
    forall k | 0 <= k < |s.ring| && s.ring[k] == id ensures Member(c, t, k) {
      assert Member(c, s, k);
      CommitMember(c, s, t, k);
    }
    if Accepts(w, w.staged.value) {
      AcceptsOwn(c, s, id);
      KeepsHopAt(c, s, t, id, 0, w.staged.value.hop);
    } else if w.mailbox.Some? {
      KeepsHopAt(c, s, t, id, 0, w.mailbox.value);
    }
    if w.pc.Computing? { KeepsHopAt(c, s, t, id, 0, w.pc.h); }
    if w.pc.Sending? { KeepsHopAt(c, s, t, id, 1, w.pc.h); }
    assert WorkerOk(c, t, id);
    OthersOk(c, s, t, id);
  }

  lemma PastStep(c: Config, s: State, id: nat)
    requires Inv(c, s) && Enabled(c, s, AtPast(id))
    ensures Inv(c, Apply(c, s, AtPast(id)))
  {
    var t := UpdateWorker(c, s, id, OnPast(s.workers[id]));
    assert WorkerOk(c, s, id);
    KeepsHopsAtWorker(c, s, t, id);
    forall k | 0 <= k < |s.ring| && s.ring[k] == id ensures Member(c, t, k) {
      assert Member(c, s, k);
    }
    OthersOk(c, s, t, id);
  }

  lemma DrainStep(c: Config, s: State, id: nat)
    requires Inv(c, s) && Enabled(c, s, Drain(id))
    ensures Inv(c, Apply(c, s, Drain(id)))
  {
    var w := s.workers[id];
    var t := UpdateWorker(c, s, id, OnDrain(w));
    assert WorkerOk(c, s, id);
    if w.staged.Some? { KeepsPacket(c, s, t, w.staged.value); }
    KeepsHopAt(c, s, t, id, 0, w.mailbox.value);
    forall k | 0 <= k < |s.ring| && s.ring[k] == id ensures Member(c, t, k) {
      assert Member(c, s, k);
    }
    OthersOk(c, s, t, id);
  }

  lemma AnnounceStep(c: Config, s: State, id: nat)
    requires Inv(c, s) && Enabled(c, s, Announce(id))
    ensures Inv(c, Apply(c, s, Announce(id)))
  {
    var t := UpdateWorker(c, s, id, OnAnnounce(s.workers[id]));
    assert WorkerOk(c, s, id);
    KeepsHopsAtWorker(c, s, t, id);
    forall k | 0 <= k < |s.ring| && s.ring[k] == id ensures Member(c, t, k) {
      assert Member(c, s, k);
    }
    OthersOk(c, s, t, id);
  }

  /** What a ring member sends is about to enter the layers after its own. */
  lemma SentPacket(c: Config, s: State, id: nat) returns (p: Packet)
    requires Inv(c, s) && Enabled(c, s, Send(id))
    ensures var w := s.workers[id];
            p == Packet(Node(id), w.next, w.pc.h.(final := w.pc.h.final || w.next == Master))
    ensures PacketOk(c, s, p)
  {
    var w := s.workers[id];
    p := Packet(Node(id), w.next, w.pc.h.(final := w.pc.h.final || w.next == Master));
    assert WorkerOk(c, s, id);
    forall k | IsNew(s, p.hop) && 0 <= k < |s.ring| && s.ring[k] == id ensures Entering(c, s, k + 1, p.hop) {
      assert Entering(c, s, k + 1, w.pc.h);
    }
  }

  lemma AddPacket(c: Config, s: State, p: Packet)
    requires Inv(c, s) && PacketOk(c, s, p)
    ensures Inv(c, s.(hops := s.hops + {p}))
  {
    var t := s.(hops := s.hops + {p});
    SameShards(c, s, t);
    KeepsServed(c, s, t);
    KeepsPacket(c, s, t, p);
    MasterStep(c, s, t);
  }

  lemma SendStep(c: Config, s: State, id: nat)
    requires Inv(c, s) && Enabled(c, s, Send(id))
    ensures Inv(c, Apply(c, s, Send(id)))
  {
    var p := SentPacket(c, s, id);
    var u := s.(hops := s.hops + {p});
    AddPacket(c, s, p);
    var t := UpdateWorker(c, u, id, u.workers[id].(pc := Top));
    assert WorkerOk(c, u, id);
    KeepsHopsAtWorker(c, u, t, id);
    forall k | 0 <= k < |u.ring| && u.ring[k] == id ensures Member(c, t, k) {
      assert Member(c, u, k);
    }
    OthersOk(c, u, t, id);
  }

  // ----- Steps that change a shard -----

  lemma KeepsAt(c: Config, s: State, t: State, id: nat)
    requires Shape(c, s) && Shape(c, t) && OnlyAt(s, t, id)
    requires forall k, n | 0 <= k < |s.ring| && s.ring[k] == id && 1 <= n && RowsOk(c, s, k, n) :: RowsOk(c, t, k, n)
    ensures Keeps(c, s, t)
  {
    forall k, n | 0 <= k < |s.ring| && 1 <= n && RowsOk(c, s, k, n) ensures RowsOk(c, t, k, n) {
      assert s.ring[k] != id ==> W(t, k) == W(s, k);
    }
  }

  /** While an assignment is pending or being loaded, no hop of this session has been run here. */
  lemma NoRowsYet(c: Config, s: State, k: nat, n: nat)
    requires Inv(c, s) && k < |s.ring| && 1 <= n
    requires W(s, k).pending.Some? || W(s, k).pc.Loading?
    ensures !RowsOk(c, s, k, n)
  {
    assert WorkerOk(c, s, s.ring[k]);
    assert Member(c, s, k);
  }

  lemma TopStep(c: Config, s: State, id: nat)
    requires Inv(c, s) && Enabled(c, s, AtTop(id))
    ensures Inv(c, Apply(c, s, AtTop(id)))
  {
    var t := Apply(c, s, AtTop(id));
    forall k, n | 0 <= k < |s.ring| && s.ring[k] == id && 1 <= n && RowsOk(c, s, k, n) ensures RowsOk(c, t, k, n) {
      if s.workers[id].pending.Some? { NoRowsYet(c, s, k, n); }
    }
    KeepsAt(c, s, t, id);
    assert WorkerOk(c, s, id);
    KeepsHopsAtWorker(c, s, t, id);
    forall k | 0 <= k < |s.ring| && s.ring[k] == id ensures Member(c, t, k) {
      TopMember(c, s, t, k);
    }
    OthersOk(c, s, t, id);
  }

  lemma TopMember(c: Config, s: State, t: State, k: nat)
    requires Shape(c, s) && Shape(c, t) && k < |s.ring| && W(s, k).pc == Top
    requires t == s.(workers := s.workers[s.ring[k] := OnTop(W(s, k))])
    requires Member(c, s, k)
    ensures Member(c, t, k)
  {
  }

  lemma LoadStep(c: Config, s: State, id: nat, ok: bool)
    requires Inv(c, s) && Enabled(c, s, Load(id, ok))
    ensures Inv(c, Apply(c, s, Load(id, ok)))
  {
    var t := Apply(c, s, Load(id, ok));
    forall k, n | 0 <= k < |s.ring| && s.ring[k] == id && 1 <= n ensures !RowsOk(c, s, k, n) {
      NoRowsYet(c, s, k, n);
    }
    KeepsAt(c, s, t, id);
    assert WorkerOk(c, s, id);
    KeepsHopsAtWorker(c, s, t, id);
    forall k | 0 <= k < |s.ring| && s.ring[k] == id ensures Member(c, t, k) {
      assert Member(c, s, k);
      LoadMember(c, s, t, k, ok);
    }
    OthersOk(c, s, t, id);
  }

  lemma LoadMember(c: Config, s: State, t: State, k: nat, ok: bool)
    requires Shape(c, s) && Shape(c, t) && k < |s.ring| && W(s, k).pc.Loading?
    requires t == s.(workers := s.workers[s.ring[k] := OnLoad(c, W(s, k), ok)])
    requires Member(c, s, k) && Sane(c, s, W(s, k))
    ensures Member(c, t, k)
  {
  }

  /** A hop of the current session runs on the shard of the current session, with right rows. */
  lemma RunsOnOwnShard(c: Config, s: State, k: nat)
    requires Inv(c, s) && k < |s.ring|
    requires W(s, k).pc.Computing? && IsNew(s, W(s, k).pc.h)
    ensures s.phase == Generating && W(s, k).shard.Some? && W(s, k).shard.value.asg == AsgOf(s, k)
    ensures Entering(c, s, k, W(s, k).pc.h)
    ensures var h, sh := W(s, k).pc.h, W(s, k).shard.value;
            RowsRight(c.m, s.toks, s.cut[k], sh.cache, h.pos) && |sh.cache| == s.cut[k + 1] - s.cut[k]
  {
    assert WorkerOk(c, s, s.ring[k]);
    assert Member(c, s, k);
    var h := W(s, k).pc.h;
    assert HopAt(c, s, s.ring[k], 0, h);
    assert Entering(c, s, k + 0, h);
    assert Reached(c, s, k, h.pos, k);
  }

  /** Running a hop of the current session keeps every row that was right and adds one. */
  lemma RunNew(c: Config, s: State, t: State, k: nat)
    requires Inv(c, s) && k < |s.ring| && W(s, k).pc.Computing? && IsNew(s, W(s, k).pc.h)
    requires CanRun(c, W(s, k), W(s, k).pc.h)
    requires t == s.(workers := s.workers[s.ring[k] := OnCompute(c, W(s, k))])
    ensures Shape(c, t) && RowsOk(c, t, k, W(s, k).pc.h.pos + 1)
    ensures W(t, k).pc.h.x == Act(c.m, s.toks, s.cut[k + 1], W(s, k).pc.h.pos)
  {
    RunsOnOwnShard(c, s, k);
    var h, sh := W(s, k).pc.h, W(s, k).shard.value;
    RunRight(c.m, s.toks, s.cut[k], sh.cache, h.x, h.pos);
  }

  lemma RunNewKeeps(c: Config, s: State, t: State, k: nat, n: nat)
    requires Inv(c, s) && k < |s.ring| && W(s, k).pc.Computing? && IsNew(s, W(s, k).pc.h)
    requires CanRun(c, W(s, k), W(s, k).pc.h)
    requires t == s.(workers := s.workers[s.ring[k] := OnCompute(c, W(s, k))])
    requires 1 <= n && RowsOk(c, s, k, n)
    ensures Shape(c, t) && RowsOk(c, t, k, n)
  {
    RunNew(c, s, t, k);
    RunsOnOwnShard(c, s, k);
    var h, sh := W(s, k).pc.h, W(s, k).shard.value;
    if n <= h.pos + 1 {
      RowsRightMono(c.m, s.toks, s.cut[k], W(t, k).shard.value.cache, h.pos + 1, n);
    } else {
      RerunKeepsRows(c.m, s.toks, s.cut[k], sh.cache, h.x, h.pos, n);
    }
  }

  lemma FrontNext(c: Config, s: State, k: nat, p: nat)
    requires Shape(c, s) && k < |s.ring| && Front(c, s, k, p) && RowsOk(c, s, k, p + 1)
    ensures Front(c, s, k + 1, p)
  {
    var k' := k + 1;
    forall j | 0 <= j < |s.ring| ensures Reached(c, s, k', p, j) {
      assert Reached(c, s, k, p, j);
    }
  }

  /** Running a hop of an old session on the new shard spoils no row anybody relies on: no hop of
      the current session has been run there yet. */
  lemma RunOld(c: Config, s: State, id: nat, k: nat, n: nat)
    requires Inv(c, s) && id < |s.workers| && k < |s.ring| && s.ring[k] == id
    requires s.workers[id].pc.Computing? && !IsNew(s, s.workers[id].pc.h)
    requires 1 <= n
    ensures !RowsOk(c, s, k, n)
  {
    assert Member(c, s, k);
  }

  lemma ComputeMember(c: Config, s: State, t: State, k: nat)
    requires Inv(c, s) && Shape(c, t) && k < |s.ring| && W(s, k).pc.Computing?
    requires t == s.(workers := s.workers[s.ring[k] := OnCompute(c, W(s, k))])
    ensures Member(c, t, k)
  {
    assert WorkerOk(c, s, s.ring[k]);
    assert Member(c, s, k);
  }

  lemma ComputeSane(c: Config, s: State, w: Worker)
    requires Sane(c, s, w) && w.pc.Computing? && SeqOk(s, w.pc.h)
    ensures Sane(c, s, OnCompute(c, w))
  {
  }

  /** The result of a hop enters the next worker's layers. */
  lemma ComputeOut(c: Config, s: State, t: State, id: nat)
    requires Inv(c, s) && Enabled(c, s, Compute(id)) && t == Apply(c, s, Compute(id))
    requires Shape(c, t) && Keeps(c, s, t) && CanRun(c, s.workers[id], s.workers[id].pc.h)
    ensures HopAt(c, t, id, 1, t.workers[id].pc.h)
  {
    assert WorkerOk(c, s, id);
    var h, h' := s.workers[id].pc.h, t.workers[id].pc.h;
    forall k | 0 <= k < |s.ring| && s.ring[k] == id && IsNew(s, h) ensures Entering(c, t, k + 1, h') {
      ComputeEnters(c, s, t, k);
    }
  }

  lemma ComputeEnters(c: Config, s: State, t: State, k: nat)
    requires Inv(c, s) && k < |s.ring| && W(s, k).pc.Computing? && IsNew(s, W(s, k).pc.h)
    requires CanRun(c, W(s, k), W(s, k).pc.h) && t == s.(workers := s.workers[s.ring[k] := OnCompute(c, W(s, k))])
    requires Shape(c, t) && Keeps(c, s, t)
    ensures Entering(c, t, k + 1, W(t, k).pc.h)
  {
    var h := W(s, k).pc.h;
    RunNew(c, s, t, k);
    RunsOnOwnShard(c, s, k);
    KeepsEntering(c, s, t, k, h);
    FrontNext(c, t, k, h.pos);
  }

  lemma ComputeHops(c: Config, s: State, t: State, id: nat)
    requires Inv(c, s) && Enabled(c, s, Compute(id)) && t == Apply(c, s, Compute(id))
    requires Shape(c, t) && Keeps(c, s, t)
    ensures WorkerOk(c, t, id)
  {
    assert WorkerOk(c, s, id);
    var w := s.workers[id];
    ComputeSane(c, s, w);
    assert Sane(c, t, t.workers[id]);
    if w.staged.Some? { KeepsPacket(c, s, t, w.staged.value); }
    if w.mailbox.Some? { KeepsHopAt(c, s, t, id, 0, w.mailbox.value); }
    if CanRun(c, w, w.pc.h) { ComputeOut(c, s, t, id); }
  }

  lemma ComputeStep(c: Config, s: State, id: nat)
    requires Inv(c, s) && Enabled(c, s, Compute(id))
    ensures Inv(c, Apply(c, s, Compute(id)))
  {
    var t := Apply(c, s, Compute(id));
    var w := s.workers[id];
    forall k, n | 0 <= k < |s.ring| && s.ring[k] == id && 1 <= n && RowsOk(c, s, k, n) ensures RowsOk(c, t, k, n) {
      if !IsNew(s, w.pc.h) {
        RunOld(c, s, id, k, n);
      } else if CanRun(c, w, w.pc.h) {
        RunNewKeeps(c, s, t, k, n);
      }
    }
    KeepsAt(c, s, t, id);
    ComputeHops(c, s, t, id);
    forall k | 0 <= k < |s.ring| && s.ring[k] == id ensures Member(c, t, k) {
      ComputeMember(c, s, t, k);
    }
    OthersOk(c, s, t, id);
  }

  // ----- Whole runs -----

  lemma InvStep(c: Config, s: State, e: Event)
    requires Inv(c, s) && Enabled(c, s, e) && Stable(s, e)
    ensures Inv(c, Apply(c, s, e))
  {
    match e
    case BeginSession(session, ring) => BeginStep(c, s, session, ring);
    case SetNeighbor(id, prev, next) => SetNeighborStep(c, s, id, prev, next);
    case Launch => LaunchStep(c, s);
    case DeliverAssign(id, a) => DeliverStep(c, s, id, a);
    case StartGeneration => StartStep(c, s);
    case SendToken => SendTokenStep(c, s);
    case Stage(id, p) => StageStep(c, s, id, p);
    case CommitStaged(id) => CommitStep(c, s, id);
    case AtTop(id) => TopStep(c, s, id);
    case AtPast(id) => PastStep(c, s, id);
    case Drain(id) => DrainStep(c, s, id);
    case Load(id, ok) => LoadStep(c, s, id, ok);
    case Announce(id) => AnnounceStep(c, s, id);
    case Compute(id) => ComputeStep(c, s, id);
    case Send(id) => SendStep(c, s, id);
    case ReceiveFinal(p, tail) => ReceiveStep(c, s, p, tail);
    case UseFinal => UseStep(c, s);
  }

  lemma {:induction false} InvHolds(c: Config, states: seq<State>, events: seq<Event>, i: nat)
    requires IsRun(c, states, events) && i < |states|
    ensures Inv(c, states[i])
    decreases i
  {
    if i > 0 {
      InvHolds(c, states, events, i - 1);
      InvStep(c, states[i - 1], events[i - 1]);
    }
  }

  /** Whatever the network does, and however many sessions were restarted before: each activation
      the master used is the one the single node has after all layers for the same tokens, and the
      tokens are the ones the single node generates from the prompt. */
  lemma CommittedIsSingleNode(c: Config, states: seq<State>, events: seq<Event>, i: nat, j: nat)
    requires IsRun(c, states, events) && i < |states| && j < |states[i].log|
    ensures var e := states[i].log[j];
            && Generated(c, e.toks)
            && e.x == Act(c.m, e.toks, c.m.nLayers, |e.toks| - 1)
  {
    InvHolds(c, states, events, i);
    assert EntryOk(c, states[i].log[j]);
  }

  /** Greedy generation is deterministic, so two runs (or a run and the single node) that got as
      far have the same tokens. */
  lemma {:induction false} GeneratedUnique(c: Config, a: seq<nat>, b: seq<nat>, n: nat)
    requires Generated(c, a) && Generated(c, b) && n <= |a| && n <= |b|
    ensures a[..n] == b[..n]
    decreases n
  {
    if n >= 2 {
      GeneratedUnique(c, a, b, n - 1);
      assert Follows(c, a, n - 2) && Follows(c, b, n - 2);
      var pre := a[..n - 1];
      assert a == pre + a[n - 1..] && b == pre + b[n - 1..];
      ActExtend(c.m, pre, a[n - 1..], c.m.nLayers, n - 2);
      ActExtend(c.m, pre, b[n - 1..], c.m.nLayers, n - 2);
      assert a[..n] == pre + [a[n - 2 + 1]] && b[..n] == pre + [b[n - 2 + 1]];
    }
  }
}
