/** The one-slot mailbox between the listen thread and the inference thread, one memory access at a time. */
module Mailbox {

  const HOP_WORDS := 7
  const SEQ := 1
  const N_FLOATS := 4
  const MAX_FLOATS := 1024

  /** A hop as the listen thread has decoded it: header words and activation. */
  datatype Msg = Msg(hop: seq<int>, floats: seq<int>)

  predicate WellFormed(m: Msg) {
    |m.hop| == HOP_WORDS && m.hop[N_FLOATS] == |m.floats| && |m.floats| <= MAX_FLOATS
  }

  /** Where `worker_inference_hook` stands: taking the lock, looking at the flag, copying the activation
      and the header word by word, raising the flag, unlocking. */
  datatype Listen = Receiving | Locking(m: Msg) | Looking(m: Msg) | Floats(m: Msg, n: nat) | Header(m: Msg, n: nat)
                  | Numbering(m: Msg) | Raising(m: Msg) | Unlocking

  /** Where the hop branch of `inference_thread` stands. */
  datatype Infer = Polling | Acquiring | Rechecking | TakingHeader(n: nat) | TakingFloats(n: nat) | Lowering | Releasing

  /** Shared memory, both threads' own state, and two histories: what has been committed, with the number
      of the assignment it was committed under, and what has been drained. */
  datatype State = State(
    mutex: bool, haveHop: bool, hop: seq<int>, activation: seq<int>, lastSeq: int,
    listen: Listen, infer: Infer, h: seq<int>, compute: seq<int>,
    epoch: nat, committed: seq<Entry>, drained: seq<Msg>)

  datatype Entry = Entry(epoch: nat, m: Msg)

  datatype Event = Arrive(m: Msg) | Assign | ListenStep | InferStep(ready: bool)

  ghost predicate Init(s: State) {
    && !s.mutex && !s.haveHop && s.listen == Receiving && s.infer == Polling && s.lastSeq == 0
    && |s.hop| == |s.h| == HOP_WORDS && |s.activation| == |s.compute| == MAX_FLOATS
    && s.epoch == 0 && s.committed == [] && s.drained == []
  }

  // ----- Steps -----

  /** An assignment resets the sequence check; a hop goes on only if its number is new. */
  function OnArrive(s: State, m: Msg): State {
    if s.listen == Receiving && WellFormed(m) && m.hop[SEQ] > s.lastSeq then s.(listen := Locking(m)) else s
  }

  function OnAssign(s: State): State {
    if s.listen == Receiving then s.(lastSeq := 0, epoch := s.epoch + 1) else s
  }

  function OnListen(s: State): State
    requires Sized(s)
  {
    match s.listen
    case Receiving => s
    case Locking(m) => if s.mutex then s else s.(mutex := true, listen := Looking(m))
    case Looking(m) => s.(listen := if s.haveHop then Unlocking else Floats(m, 0))
    case Floats(m, n) =>
      if n < |m.floats| then s.(activation := s.activation[n := m.floats[n]], listen := Floats(m, n + 1))
      else s.(listen := Header(m, 0))
    case Header(m, n) =>
      if n < HOP_WORDS then s.(hop := s.hop[n := m.hop[n]], listen := Header(m, n + 1)) else s.(listen := Numbering(m))
    case Numbering(m) => s.(lastSeq := m.hop[SEQ], listen := Raising(m))
    case Raising(m) => s.(haveHop := true, listen := Unlocking, committed := s.committed + [Entry(s.epoch, m)])
    case Unlocking => s.(mutex := false, listen := Receiving)
  }

  function OnInfer(s: State, ready: bool): State
    requires Sized(s)
  {
    match s.infer
    case Polling => if s.haveHop && ready then s.(infer := Acquiring) else s
    case Acquiring => if s.mutex then s else s.(mutex := true, infer := Rechecking)
    case Rechecking => s.(infer := if s.haveHop then TakingHeader(0) else Releasing)
    case TakingHeader(n) =>
      if n < HOP_WORDS then s.(h := s.h[n := s.hop[n]], infer := TakingHeader(n + 1)) else s.(infer := TakingFloats(0))
    case TakingFloats(n) =>
      if n < s.h[N_FLOATS] && n < MAX_FLOATS then s.(compute := s.compute[n := s.activation[n]], infer := TakingFloats(n + 1))
      else s.(infer := Lowering)
    case Lowering => s.(haveHop := false, infer := Releasing, drained := s.drained + [Taken(s)])
    case Releasing => s.(mutex := false, infer := Polling)
  }

  /** What the inference thread has in its own buffers. */
  function Taken(s: State): Msg
    requires Sized(s)
  {
    Msg(s.h, if 0 <= s.h[N_FLOATS] <= MAX_FLOATS then s.compute[..s.h[N_FLOATS]] else s.compute)
  }

  predicate Sized(s: State) {
    && |s.hop| == |s.h| == HOP_WORDS && |s.activation| == |s.compute| == MAX_FLOATS
    && match s.listen
       case Receiving => true
       case Unlocking => true
       case Floats(m, n) => WellFormed(m) && n <= |m.floats|
       case Header(m, n) => WellFormed(m) && n <= HOP_WORDS
       case Locking(m) => WellFormed(m)
       case Looking(m) => WellFormed(m)
       case Numbering(m) => WellFormed(m)
       case Raising(m) => WellFormed(m)
  }

  function Step(s: State, e: Event): (t: State)
    requires Sized(s)
    ensures Sized(t)
  {
    match e
    case Arrive(m) => OnArrive(s, m)
    case Assign => OnAssign(s)
    case ListenStep => OnListen(s)
    case InferStep(ready) => OnInfer(s, ready)
  }

  /** Any interleaving of arrivals, assignments and single accesses of either thread. */
  ghost predicate IsRun(states: seq<State>, events: seq<Event>) {
    && |states| == |events| + 1 && Init(states[0])
    && forall i {:trigger events[i]} | 0 <= i < |events| :: Sized(states[i]) && states[i + 1] == Step(states[i], events[i])
  }

  // ----- Invariant -----

  predicate ListenHolds(s: State) {
    !s.listen.Receiving? && !s.listen.Locking?
  }

  predicate InferHolds(s: State) {
    !s.infer.Polling? && !s.infer.Acquiring?
  }

  /** The mailbox holds this message, whole. */
  predicate Posted(s: State, m: Msg) {
    WellFormed(m) && |s.activation| == MAX_FLOATS && s.hop == m.hop && s.activation[..|m.floats|] == m.floats
  }

  predicate Messages(s: State) {
    && |s.drained| <= |s.committed| && (forall i | 0 <= i < |s.drained| :: s.drained[i] == s.committed[i].m)
    && if s.haveHop then |s.committed| == |s.drained| + 1 && Posted(s, s.committed[|s.drained|].m)
       else |s.committed| == |s.drained|
  }

  /** How far each thread's copying has come. */
  predicate Copying(s: State)
    requires Sized(s)
  {
    && (match s.listen
        case Floats(m, n) => !s.haveHop && s.activation[..n] == m.floats[..n]
        case Header(m, n) => !s.haveHop && s.activation[..|m.floats|] == m.floats && s.hop[..n] == m.hop[..n]
        case Numbering(m) => !s.haveHop && Posted(s, m)
        case Raising(m) => !s.haveHop && Posted(s, m)
        case _ => true)
    && (match s.infer
        case TakingHeader(n) => s.haveHop && n <= HOP_WORDS && s.h[..n] == s.hop[..n]
        case TakingFloats(n) => s.haveHop && s.h == s.hop && n <= MAX_FLOATS && s.compute[..n] == s.activation[..n]
        case Lowering => s.haveHop && s.h == s.hop && 0 <= s.h[N_FLOATS] <= MAX_FLOATS
                         && s.compute[..s.h[N_FLOATS]] == s.activation[..s.h[N_FLOATS]]
        case _ => true)
  }

  /** Sequence numbers rise within an assignment, and the check has seen them all. */
  predicate Rising(s: State) {
    && (forall i | 0 <= i < |s.committed| :: WellFormed(s.committed[i].m) && s.committed[i].epoch <= s.epoch)
    && (forall i | 0 <= i < |s.committed| && s.committed[i].epoch == s.epoch :: s.committed[i].m.hop[SEQ] <= s.lastSeq)
    && (forall i, j | 0 <= i < j < |s.committed| && s.committed[i].epoch == s.committed[j].epoch ::
          s.committed[i].m.hop[SEQ] < s.committed[j].m.hop[SEQ])
  }

  predicate Pending(s: State) {
    match s.listen
    case Receiving => true
    case Unlocking => true
    case Raising(m) => WellFormed(m) && s.lastSeq == m.hop[SEQ]
                       && forall i | 0 <= i < |s.committed| && s.committed[i].epoch == s.epoch ::
                            |s.committed[i].m.hop| == HOP_WORDS && s.committed[i].m.hop[SEQ] < m.hop[SEQ]
    case _ => WellFormed(s.listen.m) && s.listen.m.hop[SEQ] > s.lastSeq
  }

  predicate Inv(s: State) {
    Sized(s) && Exclusive(s) && Messages(s) && Copying(s) && Rising(s) && Pending(s)
  }

  lemma InitInv(s: State)
    requires Init(s)
    ensures Inv(s)
  {
  }

  predicate Exclusive(s: State) {
    (s.mutex <==> ListenHolds(s) || InferHolds(s)) && !(ListenHolds(s) && InferHolds(s))
  }

  /** While the listen thread copies or posts a message. */
  lemma ListenCopies(s: State)
    requires Inv(s)
    ensures var t := OnListen(s); Exclusive(t) && Messages(t) && Copying(t)
  {
    var t := OnListen(s);
    match s.listen
    case Floats(m, n) => assert n < |m.floats| ==> t.activation[..n + 1] == s.activation[..n] + [m.floats[n]];
    case Header(m, n) => assert n < HOP_WORDS ==> t.hop[..n + 1] == s.hop[..n] + [m.hop[n]];
    case _ =>
  }

  lemma ListenNumbers(s: State)
    requires Inv(s)
    ensures Rising(OnListen(s)) && Pending(OnListen(s))
  {
    ListenRises(s);
    ListenPends(s);
  }

  lemma ListenRises(s: State)
    requires Sized(s) && Rising(s) && Pending(s)
    ensures Rising(OnListen(s))
  {
  }

  lemma ListenPends(s: State)
    requires Sized(s) && Rising(s) && Pending(s)
    ensures Pending(OnListen(s))
  {
  }

  lemma ListenKeeps(s: State)
    requires Inv(s)
    ensures Inv(OnListen(s))
  {
    ListenCopies(s);
    ListenNumbers(s);
  }

  lemma InferCopies(s: State, ready: bool)
    requires Inv(s)
    ensures var t := OnInfer(s, ready); Exclusive(t) && Copying(t)
  {
    var t := OnInfer(s, ready);
    match s.infer
    case TakingHeader(n) => assert n < HOP_WORDS ==> t.h[..n + 1] == s.h[..n] + [s.hop[n]];
    case TakingFloats(n) =>
      assert n < MAX_FLOATS ==> t == s.(infer := Lowering) || t.compute[..n + 1] == s.compute[..n] + [s.activation[n]];
    case _ =>
  }

  /** What the inference thread drains is the one message it has not drained yet. */
  lemma InferDrains(s: State, ready: bool)
    requires Inv(s)
    ensures Messages(OnInfer(s, ready))
  {
    if s.infer == Lowering {
      var m := s.committed[|s.drained|].m;
      assert Taken(s) == m;
    }
  }

  /** The inference thread touches nothing the numbering depends on. */
  lemma InferNumbers(s: State, ready: bool)
    requires Sized(s) && Rising(s) && Pending(s)
    ensures Rising(OnInfer(s, ready)) && Pending(OnInfer(s, ready))
  {
    var t := OnInfer(s, ready);
    assert t.committed == s.committed && t.epoch == s.epoch && t.lastSeq == s.lastSeq && t.listen == s.listen;
  }

  lemma InferKeeps(s: State, ready: bool)
    requires Inv(s)
    ensures Inv(OnInfer(s, ready))
  {
    InferNumbers(s, ready);
    InferCopies(s, ready);
    InferDrains(s, ready);
  }

  lemma StepKeeps(s: State, e: Event)
    requires Inv(s)
    ensures Inv(Step(s, e))
  {
    match e
    case Arrive(m) =>
    case Assign =>
    case ListenStep => ListenKeeps(s);
    case InferStep(ready) => InferKeeps(s, ready);
  }

  lemma {:induction false} RunInv(states: seq<State>, events: seq<Event>, i: nat)
    requires IsRun(states, events) && i < |states|
    ensures Inv(states[i])
    decreases i
  {
    if i == 0 {
      InitInv(states[0]);
    } else {
      var j := i - 1;
      RunInv(states, events, j);
      StepKeeps(states[j], events[j]);
      assert states[j + 1] == Step(states[j], events[j]);
    }
  }

  /** In every interleaving: what the inference thread has drained is, message by message and whole, the
      beginning of what the listen thread committed, at most one message behind; and the accepted
      sequence numbers strictly increase between assignments. */
  lemma DrainedInOrder(states: seq<State>, events: seq<Event>, i: nat)
    requires IsRun(states, events) && i < |states|
    ensures var s := states[i];
            && |s.drained| <= |s.committed| <= |s.drained| + 1
            && (forall k | 0 <= k < |s.drained| :: s.drained[k] == s.committed[k].m)
            && forall j, k | 0 <= j < k < |s.committed| && s.committed[j].epoch == s.committed[k].epoch ::
                 && WellFormed(s.committed[j].m) && WellFormed(s.committed[k].m)
                 && s.committed[j].m.hop[SEQ] < s.committed[k].m.hop[SEQ]
  {
    RunInv(states, events, i);
  }
}
