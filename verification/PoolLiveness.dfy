/** When a call to `matmul` can still return. A worker raises `work_done` before it lowers `work_ready`, so
    the next call can raise `work_ready` in between and have it lowered again: that dispatch is lost. */
module PoolLiveness {
  import opened MatmulPool
  import opened PoolProtocol

  /** Worker `k` has been handed its part, is back in its wait and will never say it is done. */
  predicate Lost(s: State, k: nat) {
    && k < |s.workers| && k < s.plan.active && Dispatched(s, k)
    && s.workers[k].pc == Spinning && !s.workers[k].ready && !s.workers[k].done
  }

  /** Lost, or about to be: it has been handed its part while it still had to lower `work_ready`. */
  predicate Doomed(s: State, k: nat) {
    || Lost(s, k)
    || (k < |s.workers| && k < s.plan.active && Dispatched(s, k) && s.workers[k].pc == Clearing && !s.workers[k].done)
  }

  // ----- A lost dispatch stays lost -----

  lemma LostStays(s: State, k: nat, e: Event)
    requires Inv(s) && Lost(s, k)
    ensures Lost(Step(s, e), k) && Step(s, e).returned == s.returned
  {
    assert WorkerOk(s, k);
  }

  lemma DoomedStays(s: State, k: nat, e: Event)
    requires Inv(s) && Doomed(s, k)
    ensures Doomed(Step(s, e), k) && Step(s, e).returned == s.returned
    ensures e == WorkerStep(k) ==> Lost(Step(s, e), k)
  {
    assert WorkerOk(s, k);
  }

  /** Signalling a thread whose `work_ready` is still up loses the dispatch. */
  lemma SignalLoses(s: State, k: nat)
    requires Inv(s) && s.main == Signal(k) && s.workers[k].ready
    ensures Doomed(Step(s, MainStep), k)
    ensures Inv(Step(s, MainStep)) && Lost(Step(Step(s, MainStep), WorkerStep(k)), k)
  {
    assert WorkerOk(s, k);
    StepKeeps(s, MainStep);
    DoomedStays(Step(s, MainStep), k, WorkerStep(k));
  }

  /** Nothing else does. */
  lemma OnlySignalLoses(s: State, k: nat, e: Event)
    requires Inv(s) && !Doomed(s, k) && Doomed(Step(s, e), k)
    ensures e == MainStep && s.main == Signal(k) && s.workers[k].ready
  {
    assert WorkerOk(s, k);
  }

  /** The step from state `i` raises a flag that the worker still has to lower. */
  predicate Overlaps(states: seq<State>, events: seq<Event>, i: nat)
    requires i < |events| && i < |states|
  {
    events[i] == MainStep && states[i].main.Signal? && states[i].main.t < |states[i].workers| && states[i].workers[states[i].main.t].ready
  }

  /** In every run: a worker is doomed at some point if and only if some earlier step raised a flag that
      was still up. */
  lemma LostIffOverlap(states: seq<State>, events: seq<Event>, n: nat)
    requires IsRun(states, events) && n < |states|
    ensures (exists k :: Doomed(states[n], k)) <==> (exists i :: 0 <= i < n && Overlaps(states, events, i))
  {
    if k :| Doomed(states[n], k) {
      var i := FirstDoomed(states, events, n, k);
      assert Overlaps(states, events, i);
    }
    if i :| 0 <= i < n && Overlaps(states, events, i) {
      RunInv(states, events, i);
      var k := states[i].main.t;
      assert states[i + 1] == Step(states[i], events[i]);
      SignalLoses(states[i], k);
      NeverReturns(states, events, i + 1, n, k);
    }
  }

  lemma {:induction false} FirstDoomed(states: seq<State>, events: seq<Event>, n: nat, k: nat) returns (i: nat)
    requires IsRun(states, events) && n < |states| && Doomed(states[n], k)
    ensures i < n && Overlaps(states, events, i) && states[i].main.t == k
    decreases n
  {
    RunInv(states, events, 0);
    if n > 0 {
      var j := n - 1;
      assert states[j + 1] == Step(states[j], events[j]);
      RunInv(states, events, j);
      if Doomed(states[j], k) {
        i := FirstDoomed(states, events, j, k);
      } else {
        OnlySignalLoses(states[j], k, events[j]);
        i := j;
      }
    }
  }

  /** From then on the caller never returns, whatever the schedule. */
  lemma {:induction false} NeverReturns(states: seq<State>, events: seq<Event>, i: nat, n: nat, k: nat)
    requires IsRun(states, events) && i <= n < |states| && Doomed(states[i], k)
    ensures Doomed(states[n], k) && states[n].returned == states[i].returned
    decreases n
  {
    if i < n {
      var j := n - 1;
      NeverReturns(states, events, i, j, k);
      RunInv(states, events, j);
      assert states[j + 1] == Step(states[j], events[j]);
      DoomedStays(states[j], k, events[j]);
    }
  }

  // ----- Everything else can return -----

  /** The state after a sequence of events. */
  ghost function After(s: State, events: seq<Event>): (t: State)
    requires Inv(s)
    ensures Inv(t)
    decreases |events|
  {
    if events == [] then s
    else
      StepKeeps(s, events[0]);
      After(Step(s, events[0]), events[1..])
  }

  lemma {:induction false} AfterBoth(s: State, first: seq<Event>, second: seq<Event>)
    requires Inv(s)
    ensures After(s, first + second) == After(After(s, first), second)
    decreases |first|
  {
    if first == [] {
      assert first + second == second;
    } else {
      StepKeeps(s, first[0]);
      assert (first + second)[1..] == first[1..] + second;
      AfterBoth(Step(s, first[0]), first[1..], second);
    }
  }

  ghost predicate CanReturn(s: State)
    requires Inv(s)
  {
    exists events :: |After(s, events).returned| > |s.returned|
  }

  lemma {:induction false} DoomedAfter(s: State, events: seq<Event>, k: nat)
    requires Inv(s) && Doomed(s, k)
    ensures After(s, events).returned == s.returned
    decreases |events|
  {
    if events != [] {
      StepKeeps(s, events[0]);
      DoomedStays(s, k, events[0]);
      DoomedAfter(Step(s, events[0]), events[1..], k);
    }
  }

  /** Steps the caller has left. */
  function MainLeft(s: State): int {
    match s.main
    case Idle => 0
    case Fill(t) => 3 * (s.plan.active - t) + s.plan.active + 2
    case Reset(t) => 3 * (s.plan.active - t) + s.plan.active + 1
    case Signal(t) => 3 * (s.plan.active - t) + s.plan.active
    case Wait(t) => s.plan.active - t + 1
  }

  function RowsFrom(i: nat, end: nat): nat {
    if i < end then end - i else 0
  }

  /** Steps worker `w` has left with its work item; `last` is 1 to count the one that lowers the flag, else 0. */
  function WorkLeft(w: Worker, last: nat): nat {
    match w.pc
    case Spinning => if w.ready then RowsFrom(w.item.start, w.item.end) + 3 + last else 0
    case Row(i) => RowsFrom(i, w.item.end) + 2 + last
    case Finishing => 1 + last
    case Clearing => last
  }

  function AllLeft(ws: seq<Worker>, last: nat): nat {
    if ws == [] then 0 else AllLeft(ws[..|ws| - 1], last) + WorkLeft(ws[|ws| - 1], last)
  }

  lemma {:induction false} LessLeft(ws: seq<Worker>, k: nat, w: Worker, last: nat)
    requires k < |ws|
    ensures AllLeft(ws[k := w], last) == AllLeft(ws, last) + WorkLeft(w, last) - WorkLeft(ws[k], last)
    decreases |ws|
  {
    var n := |ws| - 1;
    if k < n {
      assert ws[k := w][..n] == ws[..n][k := w];
      LessLeft(ws[..n], k, w, last);
    } else {
      assert ws[k := w][..n] == ws[..n];
    }
  }

  lemma {:induction false} SomeLeft(ws: seq<Worker>, last: nat) returns (k: nat)
    requires AllLeft(ws, last) > 0
    ensures k < |ws| && WorkLeft(ws[k], last) > 0
    decreases |ws|
  {
    k := |ws| - 1;
    if WorkLeft(ws[k], last) == 0 {
      k := SomeLeft(ws[..k], last);
    }
  }

  lemma {:induction false} NoneLeft(ws: seq<Worker>, last: nat, k: nat)
    requires AllLeft(ws, last) == 0 && k < |ws|
    ensures WorkLeft(ws[k], last) == 0
    decreases |ws|
  {
    if k < |ws| - 1 {
      NoneLeft(ws[..|ws| - 1], last, k);
    }
  }

  /** Nobody is doomed; and, unless lowering the flags is counted too, nobody still to be signalled has
      its flag up. */
  predicate CalmAt(s: State, last: nat, k: nat)
    requires k < |s.workers|
  {
    !Doomed(s, k) && (last == 0 && !Dispatched(s, k) ==> s.workers[k].pc == Spinning && !s.workers[k].ready)
  }

  ghost predicate Calm(s: State, last: nat) {
    last <= 1 && forall k | 0 <= k < |s.workers| :: CalmAt(s, last, k)
  }

  /** Nobody has lowered its flag during the call at hand. */
  ghost predicate Held(s: State) {
    forall k | 0 <= k < |s.workers| && Dispatched(s, k) :: s.workers[k].pc == Spinning ==> s.workers[k].ready
  }

  lemma WorkerMoves(s: State, last: nat, k: nat)
    requires Inv(s) && s.main != Idle && Calm(s, last) && k < s.threads && WorkLeft(s.workers[k], last) > 0
    ensures var t := Step(s, WorkerStep(k));
            && Inv(t) && Calm(t, last) && (last == 0 && Held(s) ==> Held(t))
            && t.main == s.main && t.plan == s.plan && t.threads == s.threads && t.returned == s.returned
            && AllLeft(t.workers, last) < AllLeft(s.workers, last)
  {
    var t := Step(s, WorkerStep(k));
    StepKeeps(s, WorkerStep(k));
    WorkerLess(s, last, k);
    forall j | 0 <= j < |t.workers| ensures CalmAt(t, last, j) {
      WorkerCalm(s, last, k, j);
    }
  }

  lemma WorkerLess(s: State, last: nat, k: nat)
    requires Shape(s) && k < s.threads && WorkLeft(s.workers[k], last) > 0
    ensures AllLeft(Step(s, WorkerStep(k)).workers, last) < AllLeft(s.workers, last)
  {
    WorkerShorter(s, last, k);
    LessLeft(s.workers, k, Step(s, WorkerStep(k)).workers[k], last);
  }

  lemma WorkerShorter(s: State, last: nat, k: nat)
    requires Shape(s) && k < s.threads
    ensures var ws := Step(s, WorkerStep(k)).workers;
            && |ws| == |s.workers| && ws == s.workers[k := ws[k]]
            && (WorkLeft(s.workers[k], last) > 0 ==> WorkLeft(ws[k], last) < WorkLeft(s.workers[k], last))
  {
  }

  lemma WorkerCalm(s: State, last: nat, k: nat, j: nat)
    requires Inv(s) && s.main != Idle && Calm(s, last) && k < s.threads && j < s.threads && WorkLeft(s.workers[k], last) > 0
    ensures var t := Step(s, WorkerStep(k)); |t.workers| == s.threads && CalmAt(t, last, j)
  {
    assert WorkerOk(s, k) && CalmAt(s, last, k) && CalmAt(s, last, j);
  }

  lemma MainMoves(s: State, last: nat)
    requires Inv(s) && s.main != Idle && Calm(s, last) && AllLeft(s.workers, last) == 0
    ensures var t := Step(s, MainStep);
            && Inv(t) && t.threads == s.threads && 0 <= MainLeft(t) < MainLeft(s)
            && if t.main == Idle then s.main == Wait(s.plan.active) && |t.returned| == |s.returned| + 1 && t.workers == s.workers
               else Calm(t, last) && (last == 0 && Held(s) ==> Held(t)) && t.returned == s.returned && t.plan == s.plan
  {
    var t := Step(s, MainStep);
    StepKeeps(s, MainStep);
    if s.main.Wait? && s.main.t < s.plan.active {
      NoneLeft(s.workers, last, s.main.t);
      assert CalmAt(s, last, s.main.t);
    }
    if t.main != Idle {
      forall k | 0 <= k < |t.workers| ensures CalmAt(t, last, k) {
        assert CalmAt(s, last, k) && WorkerOk(s, k);
        NoneLeft(s.workers, last, k);
      }
    }
  }

  /** From a calm state a schedule exists in which the call returns, the workers all still about to lower
      their flags if that is not counted and none of them did before. */
  lemma {:induction false} Complete(s: State, last: nat) returns (events: seq<Event>)
    requires Inv(s) && s.main != Idle && Calm(s, last)
    ensures var t := After(s, events);
            && t.main == Idle && |t.returned| == |s.returned| + 1 && t.threads == s.threads
            && (last == 0 && Held(s) ==> forall k | 0 <= k < s.plan.active && k < |t.workers| :: t.workers[k].pc == Clearing)
    decreases MainLeft(s), AllLeft(s.workers, last)
  {
    if AllLeft(s.workers, last) > 0 {
      var k := SomeLeft(s.workers, last);
      WorkerMoves(s, last, k);
      var rest := Complete(Step(s, WorkerStep(k)), last);
      events := [WorkerStep(k)] + rest;
    } else {
      MainMoves(s, last);
      var t := Step(s, MainStep);
      if t.main == Idle {
        events := [MainStep];
        assert After(s, events) == After(t, []);
        forall k | 0 <= k < s.plan.active && k < |t.workers| && last == 0 && Held(s) ensures t.workers[k].pc == Clearing {
          NoneLeft(s.workers, last, k);
          assert Dispatched(s, k);
        }
      } else {
        var rest := Complete(t, last);
        events := [MainStep] + rest;
      }
    }
  }

  /** A call in progress can still return if and only if no worker is doomed. */
  lemma ReturnsIff(s: State)
    requires Inv(s) && s.main != Idle
    ensures CanReturn(s) <==> forall k | 0 <= k < s.threads :: !Doomed(s, k)
  {
    if k :| 0 <= k < s.threads && Doomed(s, k) {
      forall events ensures After(s, events).returned == s.returned {
        DoomedAfter(s, events, k);
      }
    } else {
      forall k | 0 <= k < |s.workers| ensures CalmAt(s, 1, k) {
        assert !Doomed(s, k);
      }
      var events := Complete(s, 1);
      assert |After(s, events).returned| > |s.returned|;
    }
  }

  // ----- Fair runs -----

  /** An endless run. */
  datatype Endless = Endless(state: nat -> State, event: nat -> Event)

  ghost predicate MovesAt(r: Endless, i: nat) {
    Shape(r.state(i)) && r.state(i + 1) == Step(r.state(i), r.event(i))
  }

  ghost predicate Recurs(r: Endless, e: Event, i: nat) {
    exists j: nat :: i <= j && r.event(j) == e
  }

  /** The caller and each worker take a step again and again. */
  ghost predicate IsFair(r: Endless) {
    && Init(r.state(0)) && (forall i: nat {:trigger MovesAt(r, i)} :: MovesAt(r, i))
    && forall e, i: nat {:trigger Recurs(r, e, i)} :: e == MainStep || (e.WorkerStep? && e.k < r.state(0).threads) ==> Recurs(r, e, i)
  }

  ghost predicate OverlapsAt(r: Endless, i: nat) {
    && r.event(i) == MainStep && r.state(i).main.Signal? && r.state(i).main.t < |r.state(i).workers|
    && r.state(i).workers[r.state(i).main.t].ready
  }

  ghost predicate IdleAfter(r: Endless, i: nat) {
    exists n: nat :: i <= n && r.state(n).main == Idle
  }

  lemma {:induction false} FairInv(r: Endless, i: nat)
    requires IsFair(r)
    ensures Inv(r.state(i)) && r.state(i).threads == r.state(0).threads
    decreases i
  {
    if i > 0 {
      FairInv(r, i - 1);
      assert MovesAt(r, i - 1);
      StepKeeps(r.state(i - 1), r.event(i - 1));
    }
  }

  /** Closer to the return: the caller has fewer steps left, or as many and the workers fewer. */
  predicate Less(t: State, s: State) {
    0 <= MainLeft(t) < MainLeft(s) || (MainLeft(t) == MainLeft(s) && AllLeft(t.workers, 1) < AllLeft(s.workers, 1))
  }

  /** No step of a call in progress undoes another. */
  lemma EveryStepAdvances(s: State, e: Event)
    requires Inv(s) && s.main != Idle
    ensures Step(s, e) == s || Less(Step(s, e), s)
  {
    if e.WorkerStep? && e.k < s.threads {
      if WorkLeft(s.workers[e.k], 1) > 0 {
        WorkerLess(s, 1, e.k);
      } else {
        assert Step(s, e).workers == s.workers;
      }
    }
  }

  /** Without an overlap nobody becomes doomed. */
  lemma StaysCalm(r: Endless, i: nat)
    requires IsFair(r) && Calm(r.state(i), 1) && !OverlapsAt(r, i)
    ensures MovesAt(r, i) && Inv(r.state(i)) && Inv(r.state(i + 1)) && Calm(r.state(i + 1), 1)
  {
    FairInv(r, i);
    FairInv(r, i + 1);
    assert MovesAt(r, i);
    var s, t := r.state(i), r.state(i + 1);
    forall k | 0 <= k < |t.workers| ensures CalmAt(t, 1, k) {
      assert CalmAt(s, 1, k);
      if Doomed(t, k) {
        OnlySignalLoses(s, k, r.event(i));
      }
    }
  }

  /** The step that is due in a calm state: it is always there, and it advances the call. */
  predicate Due(s: State, e: Event) {
    match e
    case WorkerStep(k) => k < |s.workers| && WorkLeft(s.workers[k], 1) > 0
    case MainStep => AllLeft(s.workers, 1) == 0
    case Begin(_) => false
  }

  lemma DueAdvances(s: State, e: Event)
    requires Inv(s) && s.main != Idle && Calm(s, 1) && Due(s, e)
    ensures Step(s, e) != s
  {
    if e == MainStep {
      MainMoves(s, 1);
    } else {
      WorkerMoves(s, 1, e.k);
    }
  }

  lemma NextDue(r: Endless, i: nat) returns (j: nat)
    requires IsFair(r)
    ensures i <= j && Due(r.state(i), r.event(j))
  {
    FairInv(r, i);
    var s, e := r.state(i), MainStep;
    if AllLeft(s.workers, 1) > 0 {
      var k := SomeLeft(s.workers, 1);
      e := WorkerStep(k);
    }
    assert Recurs(r, e, i);
    j :| i <= j && r.event(j) == e;
  }

  /** Each step keeps the same step due, or leaves less to do. */
  lemma KeepsDue(r: Endless, i: nat, j: nat) returns (j': nat)
    requires IsFair(r) && Inv(r.state(i)) && Calm(r.state(i), 1) && !OverlapsAt(r, i) && r.state(i).main != Idle
    requires i <= j && Due(r.state(i), r.event(j))
    ensures Inv(r.state(i + 1)) && Calm(r.state(i + 1), 1) && i < j' && Due(r.state(i + 1), r.event(j'))
    ensures (j' == j && r.state(i + 1) == r.state(i)) || Less(r.state(i + 1), r.state(i))
  {
    StaysCalm(r, i);
    EveryStepAdvances(r.state(i), r.event(i));
    if r.state(i + 1) == r.state(i) {
      j' := j;
      if i == j {
        DueAdvances(r.state(i), r.event(i));
      }
    } else {
      j' := NextDue(r, i + 1);
    }
  }

  lemma {:induction false} Eventually(r: Endless, i: nat, j: nat) returns (n: nat)
    requires IsFair(r) && Inv(r.state(i)) && Calm(r.state(i), 1) && forall m: nat | i <= m :: !OverlapsAt(r, m)
    requires i <= j && Due(r.state(i), r.event(j))
    ensures i <= n && r.state(n).main == Idle
    decreases MainLeft(r.state(i)), AllLeft(r.state(i).workers, 1), j - i
  {
    n := i;
    if r.state(i).main != Idle {
      var j' := KeepsDue(r, i, j);
      n := Eventually(r, i + 1, j');
    }
  }

  lemma {:induction false} DoomedForever(r: Endless, i: nat, n: nat, k: nat)
    requires IsFair(r) && i <= n && Doomed(r.state(i), k)
    ensures Doomed(r.state(n), k)
    decreases n
  {
    if i < n {
      DoomedForever(r, i, n - 1, k);
      FairInv(r, n - 1);
      assert MovesAt(r, n - 1);
      DoomedStays(r.state(n - 1), k, r.event(n - 1));
    }
  }

  lemma {:induction false} CalmSoFar(r: Endless, i: nat)
    requires IsFair(r) && forall m: nat :: !OverlapsAt(r, m)
    ensures Calm(r.state(i), 1)
    decreases i
  {
    if i == 0 {
      assert forall k | 0 <= k < |r.state(0).workers| :: CalmAt(r.state(0), 1, k);
    } else {
      CalmSoFar(r, i - 1);
      StaysCalm(r, i - 1);
    }
  }

  /** In every fair endless run: every call returns if and only if no flag is ever raised while it is still up. */
  lemma FairReturnsIff(r: Endless)
    requires IsFair(r)
    ensures (forall i: nat :: IdleAfter(r, i)) <==> (forall i: nat :: !OverlapsAt(r, i))
  {
    if i: nat :| OverlapsAt(r, i) {
      var k := r.state(i).main.t;
      FairInv(r, i);
      assert MovesAt(r, i);
      SignalLoses(r.state(i), k);
      forall n: nat | i + 1 <= n ensures r.state(n).main != Idle {
        DoomedForever(r, i + 1, n, k);
      }
      assert !IdleAfter(r, i + 1);
    } else {
      forall i: nat ensures IdleAfter(r, i) {
        CalmSoFar(r, i);
        FairInv(r, i);
        var j := NextDue(r, i);
        var n := Eventually(r, i, j);
      }
    }
  }

  // ----- A run that loses a dispatch -----

  /** The states passed through. */
  ghost function Trace(s: State, events: seq<Event>): (states: seq<State>)
    requires Inv(s)
    ensures |states| == |events| + 1 && states[0] == s
    decreases |events|
  {
    if events == [] then [s]
    else
      StepKeeps(s, events[0]);
      [s] + Trace(Step(s, events[0]), events[1..])
  }

  lemma {:induction false} TraceRuns(s: State, events: seq<Event>, i: nat)
    requires Inv(s) && i <= |events|
    ensures Trace(s, events)[i] == After(s, events[..i])
    ensures i < |events| ==> Trace(s, events)[i + 1] == Step(After(s, events[..i]), events[i])
    decreases i
  {
    if i == 0 {
      assert events[..i] == [];
    } else {
      StepKeeps(s, events[0]);
      assert events[..i][1..] == events[1..][..i - 1];
      TraceRuns(Step(s, events[0]), events[1..], i - 1);
    }
  }

  lemma TraceIsRun(s: State, events: seq<Event>)
    requires Init(s)
    ensures Inv(s) && IsRun(Trace(s, events), events)
  {
    var states := Trace(s, events);
    forall i | 0 <= i < |events| ensures Shape(states[i]) && states[i + 1] == Step(states[i], events[i]) {
      TraceRuns(s, events, i);
    }
    assert forall i {:trigger events[i]} | 0 <= i < |events| :: Shape(states[i]) && states[i + 1] == Step(states[i], events[i]);
  }

  /** A caller at `main`, with thread 0 still to lower its flag. */
  ghost predicate Late(s: State, main: MainPc) {
    Inv(s) && s.main == main && s.workers[0].pc == Clearing
  }

  lemma LateBegins(s: State, c: Call)
    requires Late(s, Idle) && c.d >= SMALL
    ensures var t := Step(s, Begin(c)); Late(t, Fill(0)) && t.plan.active > 0 && t.call == c && t.returned == s.returned
  {
    StepKeeps(s, Begin(c));
    var t := Step(s, Begin(c));
    assert t.plan.owner[0] < t.plan.active;
  }

  lemma LateMoves(s: State)
    requires Late(s, s.main) && (s.main == Fill(0) || s.main == Reset(0)) && s.plan.active > 0
    ensures var t := Step(s, MainStep);
            && Late(t, if s.main == Fill(0) then Reset(0) else Signal(0))
            && t.plan == s.plan && t.call == s.call && t.returned == s.returned
  {
    StepKeeps(s, MainStep);
  }

  /** A call that finds thread 0 about to lower its flag can lose it. */
  lemma SecondCall(s: State, c: Call) returns (events: seq<Event>)
    requires Late(s, Idle) && c.d >= SMALL
    ensures var t := After(s, events); Lost(t, 0) && t.call == c && t.returned == s.returned
  {
    var s1 := Step(s, Begin(c));
    LateBegins(s, c);
    var s2 := Step(s1, MainStep);
    LateMoves(s1);
    var s3 := Step(s2, MainStep);
    LateMoves(s2);
    var rest := LateSignals(s3);
    events := [Begin(c), MainStep, MainStep] + rest;
    assert events[1..] == [MainStep, MainStep] + rest && events[2..] == [MainStep] + rest && events[3..] == rest;
    AfterStep(s, events);
    AfterStep(s1, events[1..]);
    AfterStep(s2, events[2..]);
  }

  lemma LateSignals(s: State) returns (events: seq<Event>)
    requires Late(s, Signal(0))
    ensures var t := After(s, events); Lost(t, 0) && t.call == s.call && t.returned == s.returned
  {
    assert WorkerOk(s, 0);
    SignalLoses(s, 0);
    events := [MainStep, WorkerStep(0)];
    var t := Step(s, MainStep);
    AfterStep(s, events);
    AfterStep(t, [WorkerStep(0)]);
    StepKeeps(t, WorkerStep(0));
    assert After(Step(t, WorkerStep(0)), []) == Step(t, WorkerStep(0));
  }

  lemma AfterStep(s: State, events: seq<Event>)
    requires Inv(s) && events != []
    ensures Inv(Step(s, events[0])) && After(s, events) == After(Step(s, events[0]), events[1..])
  {
    StepKeeps(s, events[0]);
  }

  /** However many threads, and whatever the two products: a run of two calls exists in which the first
      returns and the second loses its dispatch to thread 0. */
  lemma TwoCallsCanLose(s: State, c1: Call, c2: Call) returns (states: seq<State>, events: seq<Event>)
    requires Init(s) && c1.d >= SMALL && c2.d >= SMALL
    ensures IsRun(states, events) && states[0] == s && Lost(states[|events|], 0)
    ensures |states[|events|].returned| == 1 && states[|events|].call == c2
  {
    var first := FirstCall(s, c1);
    var second := SecondCall(After(s, first), c2);
    events := first + second;
    AfterBoth(s, first, second);
    assert events[..|events|] == events;
    states := Trace(s, events);
    TraceRuns(s, events, |events|);
    TraceIsRun(s, events);
  }

  lemma FirstCall(s: State, c: Call) returns (events: seq<Event>)
    requires Init(s) && c.d >= SMALL
    ensures Inv(s) && Late(After(s, events), Idle) && |After(s, events).returned| == 1
  {
    var t := Step(s, Begin(c));
    StepKeeps(s, Begin(c));
    assert t.plan.owner[0] < t.plan.active;
    var rest := Complete(t, 0);
    events := [Begin(c)] + rest;
    AfterStep(s, events);
    assert events[1..] == rest;
  }
}
