/** The bounded-concurrency uptime fetch: one worker per endpoint and window, at most eight past the
    semaphore, any interleaving of their steps with the spawning loop. */
module FillUptime {
  import opened Base
  import opened Gatus

  const WORKERS := 8
  const WINDOWS: seq<Window> := [Day, Week, Month]

  /** Where one worker is; `v` is what its fetch returned (None is an error). */
  datatype Worker =
    | Unspawned
    | Fetching
    | Fetched(v: Option<real>)
    | Writing(v: Option<real>)    // holds the mutex
    | Exiting(v: Option<real>)    // about to leave the semaphore
    | Leaving(v: Option<real>)    // about to call Done on the wait group
    | Finished(v: Option<real>)

  datatype State = State(
    workers: seq<Worker>, next: nat, added: bool, slots: nat, pending: nat, lock: Option<nat>,
    uptime: seq<Option<map<Window, real>>>, returned: bool)

  function Endpoint(k: nat): nat { k / 3 }

  function WindowOf(k: nat): Window { WINDOWS[k % 3] }

  function Start(endpoints: nat): State
  {
    State(seq(3 * endpoints, _ => Unspawned), 0, false, 0, 0, None, seq(endpoints, _ => None), false)
  }

  datatype Step =
    | Add                             // wg.Add(1)
    | Acquire                         // sem <- struct{}{}, go
    | Answer(k: nat, v: Option<real>)
    | Lock(k: nat)
    | Write(k: nat)
    | Release(k: nat)                 // <-sem
    | Done(k: nat)                    // wg.Done()
    | Return                          // wg.Wait() returns

  predicate Shaped(s: State)
  {
    |s.workers| == 3 * |s.uptime| && s.next <= |s.workers|
  }

  predicate Enabled(s: State, step: Step)
  {
    match step
    case Add => s.next < |s.workers| && !s.added
    case Acquire => s.added && s.slots < WORKERS && s.next < |s.workers|
    case Answer(k, v) => k < |s.workers| && s.workers[k].Fetching?
    case Lock(k) => k < |s.workers| && s.workers[k].Fetched? && s.lock.None?
    case Write(k) => k < |s.workers| && s.workers[k].Writing?
    case Release(k) => k < |s.workers| && s.workers[k].Exiting? && s.slots > 0
    case Done(k) => k < |s.workers| && s.workers[k].Leaving? && s.pending > 0
    case Return => s.next == |s.workers| && !s.added && s.pending == 0 && !s.returned
  }

  function Put(u: Option<map<Window, real>>, w: Window, v: real): Option<map<Window, real>>
  {
    Some((if u.None? then map[] else u.value)[w := v])
  }

  function Next(s: State, step: Step): State
    requires Shaped(s) && Enabled(s, step)
  {
    match step
    case Add => s.(added := true, pending := s.pending + 1)
    case Acquire => s.(added := false, slots := s.slots + 1, next := s.next + 1,
      workers := s.workers[s.next := Fetching])
    case Answer(k, v) => s.(workers := s.workers[k := if v.None? then Exiting(None) else Fetched(v)])
    case Lock(k) => s.(lock := Some(k), workers := s.workers[k := Writing(s.workers[k].v)])
    case Write(k) =>
      var v := s.workers[k].v;
      s.(lock := None, workers := s.workers[k := Exiting(v)],
         uptime := if v.None? then s.uptime
                   else s.uptime[Endpoint(k) := Put(s.uptime[Endpoint(k)], WindowOf(k), v.value)])
    case Release(k) => s.(slots := s.slots - 1, workers := s.workers[k := Leaving(s.workers[k].v)])
    case Done(k) => s.(pending := s.pending - 1, workers := s.workers[k := Finished(s.workers[k].v)])
    case Return => s.(returned := true)
  }

  // ---- sums over the workers

  function Sum(f: Worker -> nat, q: seq<Worker>): nat
  {
    if q == [] then 0 else f(q[0]) + Sum(f, q[1..])
  }

  lemma {:induction false} SumUpdate(f: Worker -> nat, q: seq<Worker>, k: nat, w: Worker)
    requires k < |q|
    ensures Sum(f, q[k := w]) + f(q[k]) == Sum(f, q) + f(w)
  {
    if k > 0 {
      SumUpdate(f, q[1..], k - 1, w);
      assert q[k := w][1..] == q[1..][k - 1 := w];
    } else {
      assert q[k := w][1..] == q[1..];
    }
  }

  lemma {:induction false} SumZero(f: Worker -> nat, q: seq<Worker>)
    ensures Sum(f, q) == 0 <==> forall k | 0 <= k < |q| :: f(q[k]) == 0
  {
    if q != [] {
      SumZero(f, q[1..]);
      assert forall k | 1 <= k < |q| :: q[1..][k - 1] == q[k];
    }
  }

  lemma {:induction false} SumLess(f: Worker -> nat, g: Worker -> nat, q: seq<Worker>)
    requires forall w :: f(w) <= g(w)
    ensures Sum(f, q) <= Sum(g, q)
  {
    if q != [] { SumLess(f, g, q[1..]); }
  }

  /** A fetch is in flight. */
  function InFlight(w: Worker): nat { if w.Fetching? then 1 else 0 }

  /** Holds a semaphore slot. */
  function HoldsSlot(w: Worker): nat
  {
    if w.Fetching? || w.Fetched? || w.Writing? || w.Exiting? then 1 else 0
  }

  function HoldsWait(w: Worker): nat { if w.Leaving? then 1 else HoldsSlot(w) }

  /** Steps the worker has left. */
  function Left(w: Worker): nat
  {
    match w
    case Unspawned => 8
    case Fetching => 5
    case Fetched(_) => 4
    case Writing(_) => 3
    case Exiting(_) => 2
    case Leaving(_) => 1
    case Finished(_) => 0
  }

  function Measure(s: State): int
  {
    Sum(Left, s.workers) - (if s.added then 1 else 0) + (if s.returned then 0 else 1)
  }

  // ---- the invariant

  predicate Written(w: Worker) { (w.Exiting? || w.Leaving? || w.Finished?) && w.v.Some? }

  /** An endpoint's map holds exactly the windows whose worker has written, with what it fetched. */
  ghost predicate Recorded(s: State)
    requires Shaped(s)
  {
    forall k | 0 <= k < |s.workers| ::
      && (Written(s.workers[k]) <==> s.uptime[Endpoint(k)].Some? && WindowOf(k) in s.uptime[Endpoint(k)].value)
      && (Written(s.workers[k]) ==> s.uptime[Endpoint(k)].value[WindowOf(k)] == s.workers[k].v.value)
  }

  /** A map exists only once something was written in it. */
  ghost predicate NoEmptyMaps(s: State)
  {
    forall e | 0 <= e < |s.uptime| && s.uptime[e].Some? :: s.uptime[e].value != map[]
  }

  /** The semaphore and the wait group count the workers that hold them. */
  ghost predicate Counted(s: State)
  {
    && s.slots == Sum(HoldsSlot, s.workers) <= WORKERS
    && s.pending == Sum(HoldsWait, s.workers) + (if s.added then 1 else 0)
    && (s.returned ==> s.next == |s.workers| && s.pending == 0 && !s.added)
  }

  /** Workers are spawned in order, one at most writes, and only what was fetched is written. */
  ghost predicate Staged(s: State)
  {
    && (s.added ==> s.next < |s.workers|)
    && (forall k | 0 <= k < |s.workers| :: s.workers[k].Unspawned? <==> s.next <= k)
    && (forall k | 0 <= k < |s.workers| :: s.workers[k].Writing? <==> s.lock == Some(k))
    && (s.lock.Some? ==> s.lock.value < |s.workers|)
    && (forall k | 0 <= k < |s.workers| && (s.workers[k].Fetched? || s.workers[k].Writing?) :: s.workers[k].v.Some?)
  }

  ghost predicate Inv(s: State)
  {
    Shaped(s) && Counted(s) && Staged(s) && Recorded(s) && NoEmptyMaps(s)
  }

  lemma {:induction false} SumConstant(f: Worker -> nat, q: seq<Worker>)
    requires forall k | 0 <= k < |q| :: f(q[k]) == 0
    ensures Sum(f, q) == 0
  {
    SumZero(f, q);
  }

  lemma StartInv(endpoints: nat)
    ensures Inv(Start(endpoints))
  {
    SumConstant(HoldsSlot, Start(endpoints).workers);
    SumConstant(HoldsWait, Start(endpoints).workers);
  }

  /** The windows of one endpoint are written under different keys. */
  lemma OneCell(j: nat, k: nat)
    ensures j == k <==> Endpoint(j) == Endpoint(k) && WindowOf(j) == WindowOf(k)
  {
    assert WindowOf(j) == WindowOf(k) <==> j % 3 == k % 3 by {
      assert WINDOWS[0] == Day && WINDOWS[1] == Week && WINDOWS[2] == Month;
    }
  }

  function Moved(s: State, step: Step): nat
  {
    match step
    case Answer(k, _) => k case Lock(k) => k case Write(k) => k case Release(k) => k case Done(k) => k
    case _ => s.next
  }

  lemma SumsMove(s: State, step: Step)
    requires Shaped(s) && Enabled(s, step) && !step.Add? && !step.Return?
    ensures var k, s' := Moved(s, step), Next(s, step);
            && k < |s.workers| && s'.workers == s.workers[k := s'.workers[k]]
            && Sum(HoldsSlot, s'.workers) + HoldsSlot(s.workers[k]) ==
               Sum(HoldsSlot, s.workers) + HoldsSlot(s'.workers[k])
            && Sum(HoldsWait, s'.workers) + HoldsWait(s.workers[k]) ==
               Sum(HoldsWait, s.workers) + HoldsWait(s'.workers[k])
            && Sum(Left, s'.workers) + Left(s.workers[k]) == Sum(Left, s.workers) + Left(s'.workers[k])
  {
    var k, s' := Moved(s, step), Next(s, step);
    SumUpdate(HoldsSlot, s.workers, k, s'.workers[k]);
    SumUpdate(HoldsWait, s.workers, k, s'.workers[k]);
    SumUpdate(Left, s.workers, k, s'.workers[k]);
  }

  lemma WriteRecords(s: State, k: nat)
    requires Inv(s) && Enabled(s, Write(k))
    ensures var s' := Next(s, Write(k)); Shaped(s') && Recorded(s') && NoEmptyMaps(s')
  {
    forall j | 0 <= j < |s.workers| ensures j == k <==> Endpoint(j) == Endpoint(k) && WindowOf(j) == WindowOf(k) {
      OneCell(j, k);
    }
    var u := Next(s, Write(k)).uptime[Endpoint(k)];
    assert WindowOf(k) in u.value;
  }

  lemma OtherRecords(s: State, step: Step)
    requires Inv(s) && Enabled(s, step) && !step.Write?
    ensures var s' := Next(s, step); Shaped(s') && Recorded(s') && NoEmptyMaps(s')
  {
    var s' := Next(s, step);
    assert s'.uptime == s.uptime;
    assert forall k | 0 <= k < |s.workers| :: Written(s'.workers[k]) <==> Written(s.workers[k]);
    assert forall k | 0 <= k < |s.workers| && Written(s.workers[k]) :: s'.workers[k].v == s.workers[k].v;
  }

  lemma StepRecords(s: State, step: Step)
    requires Inv(s) && Enabled(s, step)
    ensures var s' := Next(s, step); Shaped(s') && Recorded(s') && NoEmptyMaps(s')
  {
    if step.Write? {
      WriteRecords(s, step.k);
    } else {
      OtherRecords(s, step);
    }
  }

  lemma StepStages(s: State, step: Step)
    requires Shaped(s) && Staged(s) && Enabled(s, step)
    ensures Staged(Next(s, step))
  {
  }

  lemma StepCounts(s: State, step: Step)
    requires Inv(s) && Enabled(s, step)
    ensures Counted(Next(s, step)) && Measure(Next(s, step)) < Measure(s)
  {
    if !step.Add? && !step.Return? { SumsMove(s, step); }
  }

  /** Every step keeps the invariant and leaves less to do. */
  lemma StepInv(s: State, step: Step)
    requires Inv(s) && Enabled(s, step)
    ensures Inv(Next(s, step)) && Measure(Next(s, step)) < Measure(s)
  {
    StepRecords(s, step);
    StepStages(s, step);
    StepCounts(s, step);
  }

  // ---- every interleaving

  ghost predicate Run(s: State, steps: seq<Step>)
    decreases |steps|
  {
    steps == [] || (Shaped(s) && Enabled(s, steps[0]) && Run(Next(s, steps[0]), steps[1..]))
  }

  ghost function After(s: State, steps: seq<Step>): State
    requires Run(s, steps)
    decreases |steps|
  {
    if steps == [] then s else After(Next(s, steps[0]), steps[1..])
  }

  /** At most eight fetches are in flight. */
  lemma InFlightBound(s: State)
    requires Inv(s)
    ensures Sum(InFlight, s.workers) <= 8
  {
    SumLess(InFlight, HoldsSlot, s.workers);
  }

  /** The next worker is let in exactly while fewer than eight hold a slot, so eight fetches can run at once. */
  lemma LetsInUpToEight(s: State)
    requires Inv(s) && s.added
    ensures Enabled(s, Acquire) <==> Sum(HoldsSlot, s.workers) < 8
  {
  }

  /** Until the call returns, some step can be taken. */
  lemma NeverStuck(s: State)
    requires Inv(s) && !s.returned
    ensures exists step :: Enabled(s, step)
  {
    if k :| 0 <= k < |s.workers| && HoldsWait(s.workers[k]) > 0 {
      assert s.slots > 0 || s.workers[k].Leaving? by { SumZero(HoldsSlot, s.workers); }
      assert s.pending > 0 by { SumZero(HoldsWait, s.workers); }
      match s.workers[k]
      case Fetching => assert Enabled(s, Answer(k, None));
      case Fetched(_) =>
        if s.lock.None? { assert Enabled(s, Lock(k)); } else { assert Enabled(s, Write(s.lock.value)); }
      case Writing(_) => assert Enabled(s, Write(k));
      case Exiting(_) => assert Enabled(s, Release(k));
      case Leaving(_) => assert Enabled(s, Done(k));
    } else {
      SumZero(HoldsWait, s.workers);
      SumZero(HoldsSlot, s.workers);
      if s.added { assert Enabled(s, Acquire); }
      else if s.next < |s.workers| { assert Enabled(s, Add); }
      else { assert Enabled(s, Return); }
    }
  }

  /** Every run is bounded, keeps the invariant, and so keeps at most eight fetches in flight. */
  lemma {:induction false} RunIsBounded(s: State, steps: seq<Step>)
    requires Inv(s) && Run(s, steps)
    ensures Inv(After(s, steps)) && |steps| <= Measure(s) - Measure(After(s, steps))
    ensures Sum(InFlight, After(s, steps).workers) <= 8
    decreases |steps|
  {
    if steps == [] {
    } else {
      StepInv(s, steps[0]);
      RunIsBounded(Next(s, steps[0]), steps[1..]);
    }
    InFlightBound(After(s, steps));
  }

  // ---- what the run's fetches answered

  /** The worker's fetch has not answered yet. */
  predicate Awaiting(w: Worker)
  {
    w.Unspawned? || w.Fetching?
  }

  /** One step: the worker's answer is taken when it comes, and never changes or comes again. */
  lemma StepAnswers(s: State, step: Step, k: nat)
    requires Inv(s) && Enabled(s, step) && k < |s.workers|
    ensures var w, w' := s.workers[k], Next(s, step).workers[k];
            && (!Awaiting(w) ==> !Awaiting(w') && w'.v == w.v && !(step.Answer? && step.k == k))
            && (Awaiting(w) ==> (Awaiting(w') <==> !(step.Answer? && step.k == k)))
            && (step.Answer? && step.k == k ==> w'.v == step.v)
  {
  }

  /** Over a run: a worker that has answered keeps its answer and gives no other; one that answers during the
      run ends with that answer, and gave no other. */
  lemma {:induction false} RunAnswers(s: State, steps: seq<Step>, k: nat)
    requires Inv(s) && Run(s, steps) && k < |s.workers|
    ensures k < |After(s, steps).workers|
    ensures var w, t := s.workers[k], After(s, steps).workers[k];
            && (!Awaiting(w) ==> !Awaiting(t) && t.v == w.v && forall v :: Answer(k, v) !in steps)
            && (Awaiting(w) && Awaiting(t) ==> forall v :: Answer(k, v) !in steps)
            && (Awaiting(w) && !Awaiting(t) ==> forall v :: Answer(k, v) in steps <==> v == t.v)
    decreases |steps|
  {
    if steps != [] {
      var s' := Next(s, steps[0]);
      StepInv(s, steps[0]);
      StepAnswers(s, steps[0], k);
      RunAnswers(s', steps[1..], k);
      assert forall v :: Answer(k, v) in steps <==> Answer(k, v) == steps[0] || Answer(k, v) in steps[1..];
    }
  }

  /** What an endpoint's map holds for a worker's window. */
  function Held(s: State, k: nat): Option<real>
    requires Shaped(s) && k < |s.workers|
  {
    var u := s.uptime[Endpoint(k)];
    if u.Some? && WindowOf(k) in u.value then Some(u.value[WindowOf(k)]) else None
  }

  lemma FinishedHolds(s: State, k: nat)
    requires Inv(s) && k < |s.workers| && s.workers[k].Finished?
    ensures Held(s, k) == s.workers[k].v
  {
  }

  lemma AllFinished(endpoints: nat, steps: seq<Step>)
    requires Run(Start(endpoints), steps) && After(Start(endpoints), steps).returned
    ensures var s := After(Start(endpoints), steps);
            && Inv(s) && |s.workers| == 3 * |s.uptime| == 3 * endpoints && |steps| <= 24 * endpoints + 1
            && forall k | 0 <= k < |s.workers| :: s.workers[k].Finished?
  {
    StartInv(endpoints);
    RunIsBounded(Start(endpoints), steps);
    KeepsSize(Start(endpoints), steps);
    StartMeasure(endpoints);
    var s := After(Start(endpoints), steps);
    SumZero(HoldsWait, s.workers);
    MeasureNonNegative(s);
  }

  /** When the call returns, every fetch of every window has answered, once; each endpoint's map holds exactly
      the windows whose fetch succeeded, with what it answered; and there is no map where none did. */
  lemma ReturnsExactly(endpoints: nat, steps: seq<Step>)
    requires Run(Start(endpoints), steps) && After(Start(endpoints), steps).returned
    ensures var s := After(Start(endpoints), steps);
            && Shaped(s) && |s.workers| == 3 * |s.uptime| == 3 * endpoints && |steps| <= 24 * endpoints + 1
            && NoEmptyMaps(s)
            && forall k, v | 0 <= k < 3 * endpoints :: Answer(k, v) in steps <==> v == Held(s, k)
  {
    AllFinished(endpoints, steps);
    StartInv(endpoints);
    var s := After(Start(endpoints), steps);
    forall k, v | 0 <= k < 3 * endpoints ensures Answer(k, v) in steps <==> v == Held(s, k) {
      RunAnswers(Start(endpoints), steps, k);
      FinishedHolds(s, k);
    }
  }

  lemma {:induction false} KeepsSize(s: State, steps: seq<Step>)
    requires Run(s, steps)
    ensures |After(s, steps).uptime| == |s.uptime| && |After(s, steps).workers| == |s.workers|
    decreases |steps|
  {
    if steps != [] { KeepsSize(Next(s, steps[0]), steps[1..]); }
  }

  lemma MeasureNonNegative(s: State)
    requires Inv(s)
    ensures Measure(s) >= 0
  {
    if s.added { SumZero(Left, s.workers); }
  }

  lemma {:induction false} SumAll(f: Worker -> nat, q: seq<Worker>, c: nat)
    requires forall k | 0 <= k < |q| :: f(q[k]) == c
    ensures Sum(f, q) == c * |q|
  {
    if q != [] { SumAll(f, q[1..], c); }
  }

  lemma StartMeasure(endpoints: nat)
    ensures Measure(Start(endpoints)) == 24 * endpoints + 1
  {
    SumAll(Left, Start(endpoints).workers, 8);
  }

  /** Whatever the interleavings, two completed calls whose fetches answered alike return the same maps. */
  lemma Confluence(endpoints: nat, steps1: seq<Step>, steps2: seq<Step>)
    requires Run(Start(endpoints), steps1) && After(Start(endpoints), steps1).returned
    requires Run(Start(endpoints), steps2) && After(Start(endpoints), steps2).returned
    requires forall k, v | 0 <= k < 3 * endpoints :: Answer(k, v) in steps1 <==> Answer(k, v) in steps2
    ensures After(Start(endpoints), steps1).uptime == After(Start(endpoints), steps2).uptime
  {
    var s1, s2 := After(Start(endpoints), steps1), After(Start(endpoints), steps2);
    ReturnsExactly(endpoints, steps1);
    ReturnsExactly(endpoints, steps2);
    forall k | 0 <= k < 3 * endpoints ensures Held(s1, k) == Held(s2, k) {
      assert Answer(k, Held(s1, k)) in steps1;
      assert Answer(k, Held(s1, k)) in steps2;
    }
    forall e | 0 <= e < endpoints ensures s1.uptime[e] == s2.uptime[e] {
      SameCells(s1, s2, e);
    }
  }

  /** The worker of an endpoint's window. */
  function Cell(e: nat, w: Window): (k: nat)
    ensures Endpoint(k) == e && WindowOf(k) == w && 3 * e <= k < 3 * e + 3
  {
    3 * e + (match w case Day => 0 case Week => 1 case Month => 2)
  }

  lemma SameCells(s1: State, s2: State, e: nat)
    requires Shaped(s1) && Shaped(s2) && NoEmptyMaps(s1) && NoEmptyMaps(s2) && e < |s1.uptime| == |s2.uptime|
    requires forall k | 3 * e <= k < 3 * e + 3 :: Held(s1, k) == Held(s2, k)
    ensures s1.uptime[e] == s2.uptime[e]
  {
    var u1, u2 := s1.uptime[e], s2.uptime[e];
    forall w: Window
      ensures (u1.Some? && w in u1.value) <==> (u2.Some? && w in u2.value)
      ensures u1.Some? && w in u1.value ==> u1.value[w] == u2.value[w]
    {
      assert Held(s1, Cell(e, w)) == Held(s2, Cell(e, w));
    }
    if u2.Some? {
      var w :| w in u2.value;
      assert u1.Some?;
    }
    if u1.Some? {
      var w :| w in u1.value;
      assert u1.value == u2.value;
    }
  }
}
