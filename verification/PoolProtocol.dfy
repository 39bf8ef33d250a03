/** The flags between `matmul` and its pool, one access at a time, over any number of calls. */
module PoolProtocol {
  import opened MatmulPool

  /** One product of a `d` by `n` matrix, row after row in `w`, and the vector `x`. */
  datatype Call = Call(x: seq<real>, w: seq<real>, n: nat, d: nat)

  predicate Fits(c: Call) {
    c.n <= |c.x| && c.d * c.n <= |c.w| && c.d > 0
  }

  lemma RowFits(c: Call, i: nat)
    requires Fits(c) && i < c.d
    ensures 0 <= i * c.n && i * c.n + c.n <= |c.w|
  {
    Scale(i + 1, c.d, c.n);
    assert (i + 1) * c.n == i * c.n + c.n;
  }

  /** Row `i` of the product, as the unrolled loop computes it. */
  function Value(c: Call, i: nat): real {
    if Fits(c) && i < c.d then
      RowFits(c, i);
      Dot(c.w, i * c.n, c.x, c.n)
    else 0.0
  }

  /** The branch without the pool: one row after the other, one product after the other. */
  method MatmulPlain(xout: array<real>, c: Call)
    requires Fits(c) && xout.Length == c.d
    modifies xout
    ensures forall i | 0 <= i < c.d :: xout[i] == Value(c, i)
  {
    for i := 0 to c.d
      invariant forall k | 0 <= k < i :: xout[k] == Value(c, k)
    {
      RowFits(c, i);
      var val := 0.0;
      for j := 0 to c.n
        invariant val == Dot(c.w, i * c.n, c.x, j)
      {
        val := val + c.w[i * c.n + j] * c.x[j];
      }
      xout[i] := val;
    }
  }

  /** What a pool worker does with a work item. */
  method RunItem(xout: array<real>, c: Call, start: nat, end: nat)
    requires Fits(c) && xout.Length == c.d && start <= end <= c.d
    modifies xout
    ensures forall i | 0 <= i < c.d :: xout[i] == if start <= i < end then Value(c, i) else old(xout[i])
  {
    for i := start to end
      invariant forall k | 0 <= k < c.d :: xout[k] == if start <= k < i then Value(c, k) else old(xout[k])
    {
      RowFits(c, i);
      var dot := DotUnrolled(c.w, i * c.n, c.x, c.n);
      xout[i] := dot;
    }
  }

  /** How the rows are split: thread `t < active` gets rows `start[t]` up to `end[t]`, so that row `i`
      belongs to thread `owner[i]`. */
  datatype Plan = Plan(active: nat, start: seq<nat>, end: seq<nat>, owner: seq<nat>)

  function PlanFor(d: nat, threads: nat): Plan
    requires d > 0 && threads > 0
  {
    var active := ActiveThreads(d, threads);
    Plan(active,
         seq(active, t requires 0 <= t => StartRow(d, threads, t)), seq(active, t requires 0 <= t => EndRow(d, threads, t)),
         seq(d, i requires 0 <= i => OwnerOf(d, threads, i)))
  }

  predicate OwnAt(p: Plan, t: nat, i: nat)
    requires t < |p.start| && t < |p.end| && i < |p.owner|
  {
    p.start[t] <= i < p.end[t] <==> p.owner[i] == t
  }

  /** Every row has exactly one owner. */
  ghost predicate Splits(p: Plan, threads: nat, d: nat) {
    && |p.start| == |p.end| == p.active <= threads && |p.owner| == d
    && (forall t | 0 <= t < p.active :: p.end[t] <= d)
    && (forall i | 0 <= i < d :: p.owner[i] < p.active)
    && (forall t, i {:trigger OwnAt(p, t, i)} | 0 <= t < p.active && 0 <= i < d :: OwnAt(p, t, i))
  }

  lemma PlanSplits(d: nat, threads: nat)
    requires d > 0 && threads > 0
    ensures Splits(PlanFor(d, threads), threads, d)
  {
    var p := PlanFor(d, threads);
    forall i | 0 <= i < d ensures p.owner[i] < p.active {
      RowOwner(d, threads, i, 0);
    }
    forall t, i | 0 <= t < p.active && 0 <= i < d ensures OwnAt(p, t, i) {
      RowOwner(d, threads, i, t);
    }
  }

  datatype Item = Item(call: Call, start: nat, end: nat)

  /** A worker waits for `work_ready`, writes its rows, raises `work_done` and only then lowers `work_ready`. */
  datatype WorkerPc = Spinning | Row(i: nat) | Finishing | Clearing
  datatype Worker = Worker(ready: bool, done: bool, item: Item, pc: WorkerPc)

  /** For each thread in turn the caller fills the work item, lowers `work_done` and raises `work_ready`;
      then it waits for each `work_done`. */
  datatype MainPc = Idle | Fill(t: nat) | Reset(t: nat) | Signal(t: nat) | Wait(t: nat)

  /** `out` is the result of the call at hand and `writes` counts the stores into each of its rows. */
  datatype State = State(threads: nat, eval: (Call, nat) -> real, call: Call, plan: Plan, main: MainPc, workers: seq<Worker>,
                         out: seq<real>, writes: seq<nat>, returned: seq<Result>)

  datatype Result = Result(call: Call, out: seq<real>, writes: seq<nat>)

  datatype Event = Begin(c: Call) | MainStep | WorkerStep(k: nat)

  ghost predicate Shape(s: State) {
    && |s.workers| == s.threads > 0
    && (s.main != Idle ==> |s.out| == |s.writes| == s.call.d && Splits(s.plan, s.threads, s.call.d))
    && match s.main
       case Idle => true
       case Fill(t) => t <= s.plan.active
       case Reset(t) => t < s.plan.active
       case Signal(t) => t < s.plan.active
       case Wait(t) => t <= s.plan.active
  }

  function ItemFor(s: State, k: nat): Item
    requires k < |s.plan.start| && k < |s.plan.end|
  {
    Item(s.call, s.plan.start[k], s.plan.end[k])
  }

  function OnBegin(s: State, c: Call): State {
    if s.main == Idle && s.threads > 0 && c.d >= SMALL
    then s.(call := c, plan := PlanFor(c.d, s.threads), out := seq(c.d, _ => 0.0), writes := seq(c.d, _ => 0), main := Fill(0))
    else s
  }

  ghost function OnMain(s: State): State
    requires Shape(s)
  {
    match s.main
    case Idle => s
    case Fill(t) =>
      if t == s.plan.active then s.(main := Wait(0))
      else s.(workers := s.workers[t := s.workers[t].(item := ItemFor(s, t))], main := Reset(t))
    case Reset(t) => s.(workers := s.workers[t := s.workers[t].(done := false)], main := Signal(t))
    case Signal(t) => s.(workers := s.workers[t := s.workers[t].(ready := true)], main := Fill(t + 1))
    case Wait(t) =>
      if t == s.plan.active then s.(main := Idle, returned := s.returned + [Result(s.call, s.out, s.writes)])
      else if s.workers[t].done then s.(main := Wait(t + 1))
      else s
  }

  ghost function OnWorker(s: State, k: nat): State
    requires Shape(s) && k < s.threads
  {
    var w := s.workers[k];
    match w.pc
    case Spinning => s.(workers := s.workers[k := w.(pc := if w.ready then Row(w.item.start) else Spinning)])
    case Row(i) =>
      if i >= w.item.end then s.(workers := s.workers[k := w.(pc := Finishing)])
      else
        var t := s.(workers := s.workers[k := w.(pc := Row(i + 1))]);
        if i < |s.out| && i < |s.writes|
        then t.(out := s.out[i := s.eval(w.item.call, i)], writes := s.writes[i := s.writes[i] + 1])
        else t
    case Finishing => s.(workers := s.workers[k := w.(done := true, pc := Clearing)])
    case Clearing => s.(workers := s.workers[k := w.(ready := false, pc := Spinning)])
  }

  ghost function Step(s: State, e: Event): State
    requires Shape(s)
  {
    match e
    case Begin(c) => OnBegin(s, c)
    case MainStep => OnMain(s)
    case WorkerStep(k) => if k < s.threads then OnWorker(s, k) else s
  }

  ghost predicate Init(s: State) {
    && |s.workers| == s.threads > 0 && s.main == Idle && s.returned == []
    && forall k | 0 <= k < s.threads :: s.workers[k].pc == Spinning && !s.workers[k].ready && !s.workers[k].done
  }

  ghost predicate IsRun(states: seq<State>, events: seq<Event>) {
    && |states| == |events| + 1 && Init(states[0])
    && forall i {:trigger events[i]} | 0 <= i < |events| :: Shape(states[i]) && states[i + 1] == Step(states[i], events[i])
  }

  // ----- Invariant -----

  /** Not working, and not about to start. */
  predicate Quiet(w: Worker) {
    w.pc == Clearing || (w.pc == Spinning && !w.ready)
  }

  /** The caller has handed thread `k` its part of the call at hand. */
  predicate Dispatched(s: State, k: nat) {
    match s.main
    case Idle => false
    case Fill(t) => k < t
    case Reset(t) => k < t
    case Signal(t) => k < t
    case Wait(_) => k < s.plan.active
  }

  ghost predicate WorkerOk(s: State, k: nat)
    requires Shape(s) && k < s.threads
  {
    var w := s.workers[k];
    && (w.pc != Spinning ==> w.ready)
    && if !Dispatched(s, k) then
      && Quiet(w) && (s.main == Reset(k) ==> w.item == ItemFor(s, k))
      && (s.main == Signal(k) ==> w.item == ItemFor(s, k) && !w.done)
    else
      && w.item == ItemFor(s, k)
      && match w.pc
         case Spinning => w.done ==> !w.ready
         case Row(i) => !w.done && w.item.start <= i
         case Finishing => !w.done
         case Clearing => true
  }

  /** Whether the owner of row `i` has written it during this call. */
  ghost predicate Written(s: State, i: nat)
    requires Shape(s) && s.main != Idle && i < s.call.d
  {
    var k := s.plan.owner[i];
    Dispatched(s, k) && Passed(s.workers[k], i)
  }

  /** Whether a worker that has been given row `i` is past it. */
  predicate Passed(w: Worker, i: nat) {
    match w.pc
    case Row(j) => i < j
    case Finishing => true
    case _ => w.done
  }

  ghost predicate RowOk(s: State, i: nat)
    requires Shape(s) && s.main != Idle && i < s.call.d
  {
    if Written(s, i) then s.out[i] == s.eval(s.call, i) && s.writes[i] == 1 else s.writes[i] == 0
  }

  ghost predicate ResultOk(eval: (Call, nat) -> real, r: Result) {
    && |r.out| == |r.writes| == r.call.d
    && forall i | 0 <= i < r.call.d :: r.out[i] == eval(r.call, i) && r.writes[i] == 1
  }

  ghost predicate Inv(s: State) {
    && Shape(s) && (forall k | 0 <= k < s.threads :: WorkerOk(s, k))
    && (s.main != Idle ==> forall i | 0 <= i < s.call.d :: RowOk(s, i))
    && (s.main.Wait? ==> forall k | 0 <= k < s.main.t :: s.workers[k].done)
    && (forall j | 0 <= j < |s.returned| :: ResultOk(s.eval, s.returned[j]))
  }

  lemma BeginKeeps(s: State, c: Call)
    requires Inv(s)
    ensures Inv(OnBegin(s, c))
  {
    if s.main == Idle && c.d >= SMALL {
      PlanSplits(c.d, s.threads);
      var t := OnBegin(s, c);
      forall k | 0 <= k < s.threads ensures WorkerOk(t, k) {
        assert WorkerOk(s, k);
      }
    }
  }

  lemma MainKeeps(s: State)
    requires Inv(s)
    ensures Inv(OnMain(s))
  {
    var t := OnMain(s);
    MainShape(s);
    forall k | 0 <= k < s.threads ensures WorkerOk(t, k) {
      assert WorkerOk(s, k);
    }
    if t.main != Idle {
      forall i | 0 <= i < t.call.d ensures RowOk(t, i) {
        assert RowOk(s, i) && WorkerOk(s, s.plan.owner[i]);
      }
    }
    if s.main.Wait? && t.main == Idle {
      MainReturns(s);
    }
  }

  lemma MainShape(s: State)
    requires Inv(s)
    ensures Shape(OnMain(s))
  {
  }

  /** When every flag has been seen, every row has been written. */
  lemma MainReturns(s: State)
    requires Inv(s) && s.main == Wait(s.plan.active)
    ensures ResultOk(s.eval, Result(s.call, s.out, s.writes))
  {
    forall i | 0 <= i < s.call.d ensures s.out[i] == s.eval(s.call, i) && s.writes[i] == 1 {
      assert RowOk(s, i) && WorkerOk(s, s.plan.owner[i]);
    }
  }

  lemma WorkerKeeps(s: State, k: nat)
    requires Inv(s) && k < s.threads
    ensures Inv(OnWorker(s, k))
  {
    var t := OnWorker(s, k);
    WorkerShape(s, k);
    forall j | 0 <= j < s.threads ensures WorkerOk(t, j) {
      WorkerStays(s, k, j);
    }
    if t.main != Idle {
      forall i | 0 <= i < t.call.d ensures RowOk(t, i) {
        WorkerRow(s, k, i);
      }
    }
  }

  lemma WorkerShape(s: State, k: nat)
    requires Inv(s) && k < s.threads
    ensures Shape(OnWorker(s, k))
  {
  }

  lemma WorkerStays(s: State, k: nat, j: nat)
    requires Inv(s) && k < s.threads && j < s.threads && Shape(OnWorker(s, k))
    ensures WorkerOk(OnWorker(s, k), j)
  {
    assert WorkerOk(s, k) && WorkerOk(s, j);
  }

  lemma WorkerRow(s: State, k: nat, i: nat)
    requires Inv(s) && k < s.threads && s.main != Idle && i < s.call.d
    ensures Shape(OnWorker(s, k)) && RowOk(OnWorker(s, k), i)
  {
    assert WorkerOk(s, k) && RowOk(s, i);
    if k < s.plan.active {
      assert OwnAt(s.plan, k, i);
      var pc := s.workers[k].pc;
      if pc.Row? && pc.i < s.call.d {
        assert OwnAt(s.plan, k, pc.i);
      }
    }
  }

  lemma StepKeeps(s: State, e: Event)
    requires Inv(s)
    ensures Inv(Step(s, e)) && Step(s, e).eval == s.eval
  {
    match e
    case Begin(c) => BeginKeeps(s, c);
    case MainStep => MainKeeps(s);
    case WorkerStep(k) => if k < s.threads { WorkerKeeps(s, k); }
  }

  lemma {:induction false} RunInv(states: seq<State>, events: seq<Event>, i: nat)
    requires IsRun(states, events) && i < |states|
    ensures Inv(states[i]) && states[i].eval == states[0].eval
    decreases i
  {
    if i > 0 {
      var j := i - 1;
      RunInv(states, events, j);
      StepKeeps(states[j], events[j]);
      assert states[j + 1] == Step(states[j], events[j]);
    }
  }

  /** In every interleaving: each call that returns has every row written exactly once, with the plain
      dot product. */
  lemma ReturnedCorrect(states: seq<State>, events: seq<Event>, i: nat, j: nat)
    requires IsRun(states, events) && states[0].eval == Value && i < |states| && j < |states[i].returned|
    ensures ResultOk(Value, states[i].returned[j])
  {
    RunInv(states, events, i);
  }
}
