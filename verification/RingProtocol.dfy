/** The DistInf ring as a state machine. The master drives one generation session after another;
    every worker runs a listen thread and an inference thread; datagrams may be lost, duplicated,
    delayed and reordered, so the network is the set of everything ever sent and any element of it
    may be delivered at any time, any number of times. */
module RingProtocol {
  import opened Llama
  import opened LayerSplit

  datatype Option<T> = None | Some(value: T)

  // ----- Data -----

  datatype Addr = Master | Node(id: nat)

  /** The fields of `infer_hop_t` the ring acts on, with the activation they precede. */
  datatype Hop = Hop(session: nat, seqNo: nat, pos: nat, final: bool, x: Vec)

  datatype Packet = Packet(src: Addr, dst: Addr, hop: Hop)

  datatype Assignment = Assignment(session: nat, start: nat, end: nat)

  /** A resident shard. `ran` records the sequence number of the last hop run on it, 0 for none. */
  datatype Shard = Shard(asg: Assignment, cache: Cache, ran: nat)

  /** Where the inference thread is in its loop. */
  datatype Pc =
    | Top                        // about to test have_assignment
    | Past                       // have_assignment was clear, about to test have_hop && ready
    | Draining                   // that test succeeded, about to take the mutex
    | Computing(h: Hop)          // holds its private copy
    | Sending(h: Hop)            // shard_forward done
    | Loading(asg: Assignment)   // fetching weights
    | Announcing                 // session is set, ready is not

  /** `latest` is the assignment received last, `pending` the same while it has not been picked up;
      `staged` is the datagram the listen thread has decoded and not yet committed or dropped. */
  datatype Worker = Worker(
    prev: Addr, next: Addr,
    session: nat, ready: bool, lastSeq: nat,
    latest: Option<Assignment>, pending: Option<Assignment>,
    staged: Option<Packet>,
    mailbox: Option<Hop>,
    shard: Option<Shard>,
    pc: Pc)

  datatype Phase = Linking | Assigning | Generating

  /** An activation the master used, with the tokens sent up to then. */
  datatype Entry = Entry(toks: seq<nat>, x: Vec)

  /** `pick` is the classifier followed by greedy sampling; `cap` is the KV capacity. */
  datatype Config = Config(m: Model, cap: nat, prompt: seq<nat>, steps: nat, pick: Vec -> nat)

  datatype State = State(
    workers: seq<Worker>,
    hops: set<Packet>,
    assigns: set<(nat, Assignment)>, acks: set<(nat, Assignment)>,
    gSeq: nat,
    session: nat, base: nat, ring: seq<nat>, cut: seq<nat>, phase: Phase,
    toks: seq<nat>, waiting: Option<nat>, final: Option<Vec>, done: bool,
    log: seq<Entry>)

  // ----- The inference and listen threads of one worker -----

  /** PROC_ASSIGN_LAYERS in `worker_inference_hook`. */
  function OnAssign(w: Worker, a: Assignment): Worker {
    w.(latest := Some(a), pending := Some(a), ready := false, lastSeq := 0)
  }

  /** `infer_decode_hop` tests the session only when one is set. */
  predicate Decodes(w: Worker, h: Hop) {
    w.session == 0 || h.session == w.session
  }

  predicate Accepts(w: Worker, p: Packet) {
    w.ready && (p.src == w.prev || p.src == Master) && p.hop.seqNo > w.lastSeq && w.mailbox.None?
  }

  /** The rest of the hook: readiness, source, replay, mailbox. */
  function OnStaged(w: Worker): Worker
    requires w.staged.Some?
  {
    var p := w.staged.value;
    if Accepts(w, p) then w.(staged := None, mailbox := Some(p.hop), lastSeq := p.hop.seqNo)
    else w.(staged := None)
  }

  function OnTop(w: Worker): Worker {
    if w.pending.Some? then
      w.(pending := None, ready := false, shard := None, pc := Loading(w.pending.value))
    else w.(pc := Past)
  }

  function OnPast(w: Worker): Worker {
    if w.mailbox.Some? && w.ready then w.(pc := Draining) else w.(pc := Top)
  }

  function OnDrain(w: Worker): Worker {
    if w.mailbox.Some? then w.(mailbox := None, pc := Computing(w.mailbox.value)) else w.(pc := Top)
  }

  /** `shard_load` starts from a zeroed cache; on failure the worker stays out of the ring. */
  function OnLoad(c: Config, w: Worker, ok: bool): Worker
    requires w.pc.Loading?
  {
    var a := w.pc.asg;
    if ok && a.start <= a.end then
      var cache := seq(a.end - a.start, _ => seq(c.cap, _ => c.m.zeroRow));
      w.(shard := Some(Shard(a, cache, 0)), session := a.session, pc := Announcing)
    else w.(pc := Top)
  }

  function OnAnnounce(w: Worker): Worker {
    w.(ready := true, pc := Top)
  }

  /** `shard_forward` refuses a missing shard and a position beyond the cache. */
  predicate CanRun(c: Config, w: Worker, h: Hop) {
    w.shard.Some? && h.pos < c.cap && HasPosition(w.shard.value.cache, h.pos)
  }

  function OnCompute(c: Config, w: Worker): Worker
    requires w.pc.Computing?
  {
    var h := w.pc.h;
    if CanRun(c, w, h) then
      var sh := w.shard.value;
      var cache := CacheOf(c.m, sh.asg.start, sh.cache, h.x, h.pos);
      var x := OutOf(c.m, sh.asg.start, sh.cache, h.x, h.pos);
      w.(shard := Some(Shard(sh.asg, cache, h.seqNo)), pc := Sending(h.(x := x)))
    else w.(pc := Top)
  }

  // ----- The whole system -----

  datatype Event =
    | BeginSession(session: nat, ring: seq<nat>)
    | SetNeighbor(id: nat, prev: Addr, next: Addr)
    | Launch
    | DeliverAssign(id: nat, asg: Assignment)
    | StartGeneration
    | SendToken
    | Stage(id: nat, p: Packet)
    | CommitStaged(id: nat)
    | AtTop(id: nat)
    | AtPast(id: nat)
    | Drain(id: nat)
    | Load(id: nat, ok: bool)
    | Announce(id: nat)
    | Compute(id: nat)
    | Send(id: nat)
    | ReceiveFinal(p: Packet, tail: Addr)
    | UseFinal

  /** The neighbours `discovery_restitch_ring` gives the k-th worker of the ring. */
  function PrevOf(s: State, k: nat): Addr
    requires k < |s.ring|
  {
    if k == 0 then Master else Node(s.ring[k - 1])
  }

  function NextOf(s: State, k: nat): Addr
    requires k < |s.ring|
  {
    if k == |s.ring| - 1 then Master else Node(s.ring[k + 1])
  }

  function AsgOf(s: State, k: nat): Assignment
    requires k < |s.ring| && |s.cut| == |s.ring| + 1
  {
    Assignment(s.session, s.cut[k], s.cut[k + 1])
  }

  predicate IsRing(s: State, ring: seq<nat>) {
    && (forall k | 0 <= k < |ring| :: ring[k] < |s.workers|)
    && (forall j, k | 0 <= j < k < |ring| :: ring[j] != ring[k])
  }

  predicate Got(s: State, k: nat)
    requires k < |s.ring| && |s.cut| == |s.ring| + 1
  {
    (s.ring[k], AsgOf(s, k)) in s.acks
  }

  function NextToken(c: Config, pos: nat, x: Vec): nat {
    if pos + 1 < |c.prompt| then c.prompt[pos + 1] else c.pick(x)
  }

  /** What the code itself requires before a step. */
  predicate Enabled(c: Config, s: State, e: Event) {
    match e
    case BeginSession(session, ring) =>
      session != 0 && 1 <= |ring| <= c.m.nLayers && IsRing(s, ring)
    case SetNeighbor(id, _, _) => id < |s.workers|
    case Launch => s.phase == Linking && |s.ring| >= 1 && |s.cut| == |s.ring| + 1
    case DeliverAssign(id, a) =>
      id < |s.workers| && (id, a) in s.assigns && s.workers[id].staged.None?
    case StartGeneration =>
      s.phase == Assigning && |s.cut| == |s.ring| + 1 && c.prompt != [] && forall k | 0 <= k < |s.ring| :: Got(s, k)
    case SendToken => s.phase == Generating && |s.ring| >= 1 && !s.done && s.final.None? && s.toks != []
    case Stage(id, p) =>
      id < |s.workers| && p in s.hops && p.dst == Node(id) && s.workers[id].staged.None? && Decodes(s.workers[id], p.hop)
    case CommitStaged(id) => id < |s.workers| && s.workers[id].staged.Some?
    case AtTop(id) => id < |s.workers| && s.workers[id].pc == Top
    case AtPast(id) => id < |s.workers| && s.workers[id].pc == Past
    case Drain(id) => id < |s.workers| && s.workers[id].pc == Draining
    case Load(id, _) => id < |s.workers| && s.workers[id].pc.Loading?
    case Announce(id) => id < |s.workers| && s.workers[id].pc == Announcing
    case Compute(id) => id < |s.workers| && s.workers[id].pc.Computing?
    case Send(id) => id < |s.workers| && s.workers[id].pc.Sending?
    case ReceiveFinal(p, tail) =>
      && p in s.hops && p.dst == Master && p.src == tail
      && p.hop.session == s.session && p.hop.final && s.waiting == Some(p.hop.seqNo)
    case UseFinal => s.phase == Generating && s.final.Some? && s.toks != []
  }

  // ----- The premises of a stable session -----

  /** The hop was sent in the current session: sequence numbers start above `base`. */
  predicate IsNew(s: State, h: Hop) {
    h.seqNo > s.base
  }

  /** Worker `ring[k]` is about to accept a hop of the current session. */
  predicate TakesNew(s: State, k: nat)
    requires k < |s.ring| && s.ring[k] < |s.workers|
  {
    var w := s.workers[s.ring[k]];
    w.staged.Some? && IsNew(s, w.staged.value.hop) && Accepts(w, w.staged.value)
  }

  /** The sender's end of the link was right: the master, or a ring member that sent to its successor. */
  predicate SentAhead(s: State, p: Packet) {
    p.src == Master || exists k :: 0 <= k < |s.ring| && p.src == Node(s.ring[k]) && p.dst == NextOf(s, k)
  }

  /** No assignment reaches a ring member that has accepted a hop of the session. */
  predicate NotReassigned(s: State, e: Event) {
    e.DeliverAssign? && e.id < |s.workers| ==>
      forall k | 0 <= k < |s.ring| && s.ring[k] == e.id :: s.workers[e.id].lastSeq <= s.base
  }

  /** A ring member that accepts a hop of the session has received its own assignment last. */
  predicate OwnAssignment(s: State, e: Event) {
    e.CommitStaged? && e.id < |s.workers| && |s.cut| == |s.ring| + 1 ==>
      forall k | 0 <= k < |s.ring| && s.ring[k] == e.id && TakesNew(s, k) ::
        s.workers[e.id].latest == Some(AsgOf(s, k))
  }

  /** No hop of the session is accepted over a link that is wrong at both ends. The master's end is the
      address it takes for the tail of the ring. */
  predicate RightLink(s: State, e: Event) {
    match e
    case CommitStaged(id) =>
      id < |s.workers| ==>
        forall k | 0 <= k < |s.ring| && s.ring[k] == id && TakesNew(s, k) ::
          SentAhead(s, s.workers[id].staged.value) || s.workers[id].prev == PrevOf(s, k)
    case ReceiveFinal(p, tail) => s.ring != [] ==> SentAhead(s, p) || tail == Node(s.ring[|s.ring| - 1])
    case _ => true
  }

  /** The events of a stable session. */
  predicate Stable(s: State, e: Event) {
    NotReassigned(s, e) && OwnAssignment(s, e) && RightLink(s, e)
  }

  function Apply(c: Config, s: State, e: Event): State
    requires Enabled(c, s, e)
  {
    match e
    case BeginSession(session, ring) =>
      s.(session := session, base := s.gSeq,
         ring := ring, cut := Cut(c.m.nLayers, |ring|), phase := Linking,
         toks := [], waiting := None, final := None, done := false)
    case SetNeighbor(id, prev, next) => s.(workers := s.workers[id := s.workers[id].(prev := prev, next := next)])
    case Launch =>
      s.(phase := Assigning, assigns := s.assigns + set k | 0 <= k < |s.ring| :: (s.ring[k], AsgOf(s, k)))
    case DeliverAssign(id, a) =>
      s.(workers := s.workers[id := OnAssign(s.workers[id], a)], acks := s.acks + {(id, a)})
    case StartGeneration => s.(phase := Generating, toks := [c.prompt[0]], done := c.steps == 0)
    case SendToken =>
      var pos := |s.toks| - 1;
      var h := Hop(s.session, s.gSeq + 1, pos, false, c.m.embed(s.toks[pos]));
      s.(gSeq := s.gSeq + 1, waiting := Some(s.gSeq + 1), hops := s.hops + {Packet(Master, Node(s.ring[0]), h)})
    case Stage(id, p) => s.(workers := s.workers[id := s.workers[id].(staged := Some(p))])
    case CommitStaged(id) => s.(workers := s.workers[id := OnStaged(s.workers[id])])
    case AtTop(id) => s.(workers := s.workers[id := OnTop(s.workers[id])])
    case AtPast(id) => s.(workers := s.workers[id := OnPast(s.workers[id])])
    case Drain(id) => s.(workers := s.workers[id := OnDrain(s.workers[id])])
    case Load(id, ok) => s.(workers := s.workers[id := OnLoad(c, s.workers[id], ok)])
    case Announce(id) => s.(workers := s.workers[id := OnAnnounce(s.workers[id])])
    case Compute(id) => s.(workers := s.workers[id := OnCompute(c, s.workers[id])])
    case Send(id) =>
      var w := s.workers[id];
      var h := w.pc.h.(final := w.pc.h.final || w.next == Master);
      s.(workers := s.workers[id := w.(pc := Top)], hops := s.hops + {Packet(Node(id), w.next, h)})
    case ReceiveFinal(p, _) => s.(final := Some(p.hop.x))
    case UseFinal =>
      var next := NextToken(c, |s.toks| - 1, s.final.value);
      var log := s.log + [Entry(s.toks, s.final.value)];
      if next == 1 || |s.toks| >= c.steps then s.(log := log, final := None, waiting := None, done := true)
      else s.(log := log, final := None, waiting := None, toks := s.toks + [next])
  }

  predicate Init(s: State) {
    && s.hops == {} && s.assigns == {} && s.acks == {} && s.gSeq == 0
    && s.session == 0 && s.base == 0 && s.ring == [] && s.cut == [] && s.phase == Linking
    && s.toks == [] && s.waiting == None && s.final == None && !s.done && s.log == []
    && forall id | 0 <= id < |s.workers| ::
         var w := s.workers[id];
         && w.session == 0 && !w.ready && w.lastSeq == 0 && w.latest.None? && w.pending.None? && w.staged.None?
         && w.mailbox.None? && w.shard.None? && w.pc == Top
  }

  /** The states of a run, one more than its events. */
  ghost predicate IsRun(c: Config, states: seq<State>, events: seq<Event>) {
    && |states| == |events| + 1 && Init(states[0])
    && forall i | 0 <= i < |events| ::
         && Enabled(c, states[i], events[i]) && Stable(states[i], events[i])
         && states[i + 1] == Apply(c, states[i], events[i])
  }
}
