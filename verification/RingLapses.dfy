/** Why each premise of a stable session is there: a run that keeps the other two and in which the master
    commits an activation that is not the single node's. */
module RingLapses {
  import opened Llama
  import opened LayerSplit
  import opened RingProtocol
  import opened RingWitness

  function OneEmbed(token: nat): Vec { Vec([1]) }

  function AlwaysFive(x: Vec): nat { 5 }

  // ----- An assignment that comes again -----

  /** At position 1 this layer repeats what position 0 left in the cache. */
  function Recall(l: nat, rows: seq<Row>, x: Vec, pos: nat): (Vec, Row) {
    (if pos == 1 && |rows| == 1 then Vec(rows[0].key) else x, Row(x.floats, []))
  }

  function RecallConfig(): Config {
    Config(Model(1, Row([], []), OneEmbed, Recall), 2, [2, 3], 5, AlwaysFive)
  }

  /** The assignment arrives again between two tokens and the shard is loaded afresh. */
  lemma Reloaded(c: Config, s: State) returns (t: State)
    requires Reachable(c, s, TwiceAssigned) && Due(c, s) && |s.ring| == 1 && IsSent(s, 0) && s.cut[0] <= s.cut[1]
    ensures Reachable(c, t, TwiceAssigned) && Due(c, t) && t.toks == s.toks && t.log == s.log && |t.ring| == 1
    ensures t.cut == s.cut && Waits(c, t, 0) && CacheAt(t, 0) == Zeros(c, AsgOf(t, 0)).cache
  {
    assert Waits(c, s, 0);
    t := Onward(c, s, DeliverAssign(0, AsgOf(s, 0)), TwiceAssigned);
    t := Loads(c, t, 0, AsgOf(s, 0), TwiceAssigned);
    assert Waits(c, t, 0);
  }

  lemma ForgetfulAnswer(s: State)
    requires Due(RecallConfig(), s) && s.toks == [2, 3] && |s.ring| == 1 && s.cut == [0, 1]
    requires Waits(RecallConfig(), s, 0) && CacheAt(s, 0) == Zeros(RecallConfig(), AsgOf(s, 0)).cache
    ensures Answer(RecallConfig(), s, 1) == Vec([])
  {
    var c := RecallConfig();
    var cache := Caches(c, s)[0];
    assert cache == CacheAt(s, 0) && |cache| == 1 && cache[0][0] == Row([], []);
    assert cache[0][..1] == [Row([], [])];
    assert RingAct(c.m, s.cut, Caches(c, s), c.cap, Vec([1]), 1, 0) == Vec([1]);
    assert Through(c.m, 0, cache, Vec([1]), 1, 0) == Vec([1]);
  }

  lemma SingleNodeAnswer()
    ensures Act(RecallConfig().m, [2, 3], 1, 1) == Vec([1])
  {
    var m := RecallConfig().m;
    assert Rows(m, [2, 3], 0, 0) == [] && Act(m, [2, 3], 0, 0) == Vec([1]) && Act(m, [2, 3], 0, 1) == Vec([1]);
    assert Rows(m, [2, 3], 0, 1) == [Row([1], [])];
  }

  /** One assignment redelivered after a served hop, and the next activation committed is wrong. */
  lemma RedeliveryBreaks() returns (c: Config, t: State)
    ensures Reachable(c, t, TwiceAssigned) && |t.log| == 2 && |t.log[1].toks| == 2
    ensures t.log[1].x != Act(c.m, t.log[1].toks, c.m.nLayers, 1)
  {
    c := RecallConfig();
    var s := First(c, 1, Linked(1), TwiceAssigned);
    StartEnds(1, 1);
    assert s.cut == [0, 1];
    s := Opened(c, s, TwiceAssigned);
    t := Round(c, s, TwiceAssigned);
    assert IsSent(t, 0) by { assert IsSent(s, 0); }
    t := Reloaded(c, t);
    ForgetfulAnswer(t);
    t := Round(c, t, TwiceAssigned);
    SingleNodeAnswer();
  }

  // ----- A model that counts the layers it has been through -----

  function Grow(l: nat, rows: seq<Row>, x: Vec, pos: nat): (Vec, Row) {
    (Vec(x.floats + [1]), Row([], []))
  }

  function GrowConfig(layers: nat): Config {
    Config(Model(layers, Row([], []), OneEmbed, Grow), 1, [2], 5, AlwaysFive)
  }

  lemma {:induction false} ThroughGrows(n: nat, base: nat, cache: Cache, x: Vec, pos: nat, k: nat)
    requires HasPosition(cache, pos) && k <= |cache|
    ensures |Through(GrowConfig(n).m, base, cache, x, pos, k).floats| == |x.floats| + k
    decreases k
  {
    if k > 0 { ThroughGrows(n, base, cache, x, pos, k - 1); }
  }

  lemma {:induction false} ActGrows(n: nat, toks: seq<nat>, l: nat)
    requires toks != []
    ensures |Act(GrowConfig(n).m, toks, l, 0).floats| == 1 + l
    decreases l
  {
    if l > 0 { ActGrows(n, toks, l - 1); }
  }

  /** The packet of a token that is due in a ring of this model has an activation of length 1. */
  lemma SentToken(n: nat, s: State, lapse: Lapse) returns (t: State, p: Packet)
    requires Reachable(GrowConfig(n), s, lapse) && s.phase == Generating && |s.ring| >= 1 && !s.done && s.final == None
    requires |s.toks| == 1
    ensures p == Packet(Master, Node(s.ring[0]), Hop(s.session, s.gSeq + 1, 0, false, Vec([1])))
    ensures Reachable(GrowConfig(n), t, lapse)
    ensures t == s.(gSeq := s.gSeq + 1, waiting := Some(s.gSeq + 1), hops := s.hops + {p})
  {
    t := Onward(GrowConfig(n), s, SendToken, lapse);
    p := Packet(Master, Node(s.ring[0]), Hop(s.session, s.gSeq + 1, 0, false, Vec([1])));
  }

  /** The master takes the answer and uses it. */
  lemma Committed(n: nat, s: State, p: Packet, lapse: Lapse) returns (t: State)
    requires Reachable(GrowConfig(n), s, lapse) && s.phase == Generating && s.toks != []
    requires p in s.hops && p.dst == Master && p.hop.session == s.session && p.hop.final && s.waiting == Some(p.hop.seqNo)
    requires RightLink(s, ReceiveFinal(p, p.src))
    ensures Reachable(GrowConfig(n), t, lapse) && t.log == s.log + [Entry(s.toks, p.hop.x)]
  {
    t := Onward(GrowConfig(n), s, ReceiveFinal(p, p.src), lapse);
    t := Onward(GrowConfig(n), t, UseFinal, lapse);
  }

  // ----- An assignment of an earlier session that comes late -----

  /** Session 1 is loaded by two workers, and its first token does not come back. */
  lemma TokenLost() returns (t: State)
    ensures Reachable(GrowConfig(2), t, LateAssigned) && |t.workers| == 2 && t.session == 1 && t.log == [] && t.gSeq == 1
    ensures (0, Assignment(1, 0, 1)) in t.assigns
    ensures t.workers[0] == Loaded(GrowConfig(2), Assignment(1, 0, 1), Master, Node(1))
  {
    var c := GrowConfig(2);
    var s := First(c, 2, Linked(2), LateAssigned);
    assert Cut(2, 2) == [0, 1, 2];
    s := Opened(c, s, LateAssigned);
    assert IsLoaded(c, s, 0) && IsSent(s, 0);
    var p;
    t, p := SentToken(2, s, LateAssigned);
  }

  /** Session 2 is re-formed without worker 1, so that worker 0 owns both layers. */
  lemma TwoSessions() returns (t: State)
    ensures Reachable(GrowConfig(2), t, LateAssigned) && Due(GrowConfig(2), t) && t.ring == [0] && t.cut == [0, 2]
    ensures (0, Assignment(1, 0, 1)) in t.assigns && t.session == 2 && |t.toks| == 1 && t.log == []
    ensures t.workers[0] == Loaded(GrowConfig(2), Assignment(2, 0, 2), Master, Master)
  {
    var c := GrowConfig(2);
    var s := TokenLost();
    CutIsCut(2, 1);
    s := Onward(c, s, BeginSession(2, [0]), LateAssigned);
    s := Onward(c, s, SetNeighbor(0, Master, Master), LateAssigned);
    assert s.cut == [0, 2];
    assert IsIdle(s, 0);
    t := Opened(c, s, LateAssigned);
    assert IsLoaded(c, t, 0);
  }

  /** A duplicate of the old assignment arrives after its own, and then a hop of the session, which still decodes. */
  lemma LateArrived(s: State, p: Packet) returns (t: State)
    requires Reachable(GrowConfig(2), s, LateAssigned) && Plain(s) && s.ring == [0]
    requires s.workers[0] == Loaded(GrowConfig(2), Assignment(2, 0, 2), Master, Master)
    requires (0, Assignment(1, 0, 1)) in s.assigns
    requires p in s.hops && p.dst == Node(0) && p.hop.session == 2
    ensures Reachable(GrowConfig(2), t, LateAssigned)
    ensures t == At(s, 0, OnAssign(s.workers[0], Assignment(1, 0, 1)).(staged := Some(p))).(acks := t.acks)
  {
    var c, a := GrowConfig(2), Assignment(1, 0, 1);
    t := Onward(c, s, DeliverAssign(0, a), LateAssigned);
    t := Steps(c, t, 0, t.workers[0].(staged := Some(p)), Stage(0, p), LateAssigned);
  }

  /** The old shard is loaded before the hop is accepted. */
  lemma LateLoaded(s: State, p: Packet) returns (t: State)
    requires Reachable(GrowConfig(2), s, LateAssigned) && |s.workers| >= 1 && p.src == Master && p.hop.seqNo > 0
    requires s.workers[0] ==
             OnAssign(Loaded(GrowConfig(2), Assignment(2, 0, 2), Master, Master), Assignment(1, 0, 1)).(staged := Some(p))
    ensures Reachable(GrowConfig(2), t, LateAssigned)
    ensures t == At(s, 0, Loaded(GrowConfig(2), Assignment(1, 0, 1), Master, Master)
                          .(mailbox := Some(p.hop), lastSeq := p.hop.seqNo))
  {
    t := Loads(GrowConfig(2), s, 0, Assignment(1, 0, 1), LateAssigned);
    t := Onward(GrowConfig(2), t, CommitStaged(0), LateAssigned);
  }

  /** An assignment of another session that arrives last, and the activation committed has been through the
      layers of that session only. */
  lemma LateAssignmentBreaks() returns (c: Config, t: State)
    ensures Reachable(c, t, LateAssigned) && |t.log| == 1 && |t.log[0].toks| == 1
    ensures t.log[0].x != Act(c.m, t.log[0].toks, c.m.nLayers, 0)
  {
    c := GrowConfig(2);
    var s := TwoSessions();
    var u, p := SentToken(2, s, LateAssigned);
    u := LateArrived(u, p);
    u := LateLoaded(u, p);
    u := Picked(c, u, 0, p.hop, LateAssigned);
    var w := u.workers[0];
    u := Ran(c, u, 0, LateAssigned);
    var q := Packet(Node(0), Master, OutHop(c, w, p.hop));
    ThroughGrows(2, 0, w.shard.value.cache, p.hop.x, 0, 1);
    t := Committed(2, u, q, LateAssigned);
    ActGrows(2, s.toks, 2);
  }

  // ----- A link that is wrong at both ends -----

  lemma RingOfThree() returns (t: State)
    ensures Reachable(GrowConfig(3), t, WrongLink) && Due(GrowConfig(3), t) && t.ring == [0, 1, 2] && |t.workers| == 3
    ensures |t.toks| == 1 && t.log == [] && t.gSeq == t.base == 0 && t.session == 1 && t.cut == [0, 1, 2, 3]
    ensures t.workers[0] == Loaded(GrowConfig(3), Assignment(1, 0, 1), Master, Node(1))
    ensures t.workers[2] == Loaded(GrowConfig(3), Assignment(1, 2, 3), Node(1), Master)
  {
    var c := GrowConfig(3);
    var s := First(c, 3, Linked(3), WrongLink);
    assert Cut(3, 3) == [0, 1, 2, 3];
    t := Opened(c, s, WrongLink);
    assert IsLoaded(c, t, 0) && IsLoaded(c, t, 2);
  }

  /** Workers 0 and 2 of a ring of three agree that 2 follows 0. */
  lemma Shortcut() returns (t: State)
    ensures Reachable(GrowConfig(3), t, WrongLink) && Plain(t) && t.ring == [0, 1, 2] && |t.workers| == 3
    ensures t.phase == Generating && !t.done && t.final == None && |t.toks| == 1 && t.log == []
    ensures t.gSeq == t.base == 0 && t.session == 1 && t.cut == [0, 1, 2, 3]
    ensures t.workers[0] == Loaded(GrowConfig(3), Assignment(1, 0, 1), Master, Node(2))
    ensures t.workers[2] == Loaded(GrowConfig(3), Assignment(1, 2, 3), Node(0), Master)
  {
    var s := RingOfThree();
    t := Onward(GrowConfig(3), s, SetNeighbor(0, Master, Node(2)), WrongLink);
    t := Onward(GrowConfig(3), t, SetNeighbor(2, Node(0), Master), WrongLink);
  }

  /** A hop of one float through a worker that has one layer. */
  lemma OneLayer(s: State, k: nat, p: Packet, a: Assignment, prev: Addr, next: Addr) returns (t: State, q: Packet)
    requires Reachable(GrowConfig(3), s, WrongLink) && Plain(s) && k < |s.ring| && AsgOf(s, k) == a && a.start + 1 == a.end
    requires s.workers[k] == Loaded(GrowConfig(3), a, prev, next)
    requires p in s.hops && p.dst == Node(k) && (p.src == prev || p.src == Master)
    requires p.hop.session == a.session && p.hop.seqNo > 0 && p.hop.pos == 0
    ensures Reachable(GrowConfig(3), t, WrongLink) && t == s.(workers := t.workers, hops := s.hops + {q})
    ensures |t.workers| == |s.workers| && forall j | 0 <= j < |s.workers| && j != k :: t.workers[j] == s.workers[j]
    ensures q == Packet(Node(k), next, p.hop.(x := q.hop.x, final := p.hop.final || next == Master))
    ensures |q.hop.x.floats| == |p.hop.x.floats| + 1
  {
    var w := s.workers[k];
    q := Packet(Node(k), next, OutHop(GrowConfig(3), w, p.hop));
    ThroughGrows(3, a.start, w.shard.value.cache, p.hop.x, 0, 1);
    t := PassOn(GrowConfig(3), s, k, p, WrongLink);
  }

  /** Over such a link the activation committed has missed a worker. */
  lemma WrongLinkBreaks() returns (c: Config, t: State)
    ensures Reachable(c, t, WrongLink) && |t.log| == 1 && |t.log[0].toks| == 1
    ensures t.log[0].x != Act(c.m, t.log[0].toks, c.m.nLayers, 0)
  {
    c := GrowConfig(3);
    var s := Shortcut();
    var u, p := SentToken(3, s, WrongLink);
    u, p := OneLayer(u, 0, p, Assignment(1, 0, 1), Master, Node(2));
    u, p := OneLayer(u, 2, p, Assignment(1, 2, 3), Node(0), Master);
    t := Committed(3, u, p, WrongLink);
    ActGrows(3, s.toks, 3);
  }
}
