/** What holds over every run of session operations: the slide throttle, the life of a session,
    and that sweeping is never noticed. */
module SessionRuns {
  import opened Base
  import opened Ordering
  import opened SessionSpec
  import opened SessionRefinement
  import T = SessionTable

  // ---- the life of a session

  ghost predicate InOrder(m: Sessions)
  {
    forall t | t in m :: m[t].createdAt <= m[t].lastSeenAt < m[t].expiresAt
  }

  /** Whatever the clock does, a session was created before it was last seen, and expires after. */
  lemma {:induction false} AlwaysInOrder(m: Sessions, users: set<Id>, ops: seq<Op>)
    requires DistinctHandles(m) && InOrder(m) && FreshRun(m, users, ops)
    ensures InOrder(After(m, users, ops))
    decreases |ops|
  {
    if ops == [] {
    } else {
      AlwaysInOrder(MemStep(m, ops[0]).0, users, ops[1..]);
    }
  }

  ghost function After(m: Sessions, users: set<Id>, ops: seq<Op>): (m': Sessions)
    requires DistinctHandles(m) && FreshRun(m, users, ops)
    ensures DistinctHandles(m')
    decreases |ops|
  {
    if ops == [] then m else After(MemStep(m, ops[0]).0, users, ops[1..])
  }

  // ---- the slide throttle

  /** The times at which a run writes to session `t`, from any number of concurrent requests: each
      request's Lookup and Touch are separate operations, in any interleaving. */
  ghost function Writes(m: Sessions, users: set<Id>, ops: seq<Op>, t: Token): seq<int>
    requires DistinctHandles(m) && FreshRun(m, users, ops)
    decreases |ops|
  {
    if ops == [] then []
    else
      var (m', r) := MemStep(m, ops[0]);
      (if t in m && t in m' && m'[t] != m[t] then [m'[t].lastSeenAt] else []) + Writes(m', users, ops[1..], t)
  }

  ghost predicate Spaced(from: int, times: seq<int>)
    decreases |times|
  {
    times == [] || (times[0] >= from + 60_000_000_000 && Spaced(times[0], times[1..]))
  }

  /** Consecutive writes to a session, its creation included, are a minute apart. */
  lemma {:induction false} WritesAreThrottled(m: Sessions, users: set<Id>, ops: seq<Op>, t: Token)
    requires DistinctHandles(m) && FreshRun(m, users, ops) && t in m
    requires forall i | 0 <= i < |ops| && ops[i].CreateOp? :: ops[i].token != t
    ensures Spaced(m[t].lastSeenAt, Writes(m, users, ops, t))
    decreases |ops|
  {
    if ops == [] {
    } else {
      var m' := MemStep(m, ops[0]).0;
      if t in m' {
        assert m'[t] != m[t] ==> ops[0].TouchOp? && TouchDue(m[t].lastSeenAt, m'[t].lastSeenAt);
        WritesAreThrottled(m', users, ops[1..], t);
        var rest := Writes(m', users, ops[1..], t);
        assert ([m'[t].lastSeenAt] + rest)[1..] == rest && [] + rest == rest;
      } else {
        NoWritesWhenGone(m', users, ops[1..], t);
      }
    }
  }

  lemma {:induction false} NoWritesWhenGone(m: Sessions, users: set<Id>, ops: seq<Op>, t: Token)
    requires DistinctHandles(m) && FreshRun(m, users, ops) && t !in m
    requires forall i | 0 <= i < |ops| && ops[i].CreateOp? :: ops[i].token != t
    ensures Writes(m, users, ops, t) == []
    decreases |ops|
  {
    if ops == [] {
    } else {
      NoWritesWhenGone(MemStep(m, ops[0]).0, users, ops[1..], t);
    }
  }

  lemma {:induction false} SpacedWindow(from: int, times: seq<int>, lo: int, hi: int)
    requires Spaced(from, times) && lo <= hi
    ensures var n := |Filter(x => lo <= x <= hi, times)|;
            (n - 1) * TOUCH_INTERVAL <= hi - lo && (from >= lo ==> n * TOUCH_INTERVAL <= hi - from || n == 0)
    decreases |times|
  {
    if times == [] {
    } else {
      SpacedWindow(times[0], times[1..], lo, hi);
    }
  }

  /** A window of length `width` holds at most one write to a session for each minute, and one more. */
  lemma WindowBound(m: Sessions, users: set<Id>, ops: seq<Op>, t: Token, start: int, width: nat)
    requires DistinctHandles(m) && FreshRun(m, users, ops) && t in m
    requires forall i | 0 <= i < |ops| && ops[i].CreateOp? :: ops[i].token != t
    ensures |Filter(x => start <= x <= start + width, Writes(m, users, ops, t))| <= width / 60_000_000_000 + 1
  {
    WritesAreThrottled(m, users, ops, t);
    SpacedWindow(m[t].lastSeenAt, Writes(m, users, ops, t), start, start + width);
    Fits(|Filter(x => start <= x <= start + width, Writes(m, users, ops, t))|, width);
  }

  lemma Fits(n: nat, width: nat)
    requires (n - 1) * TOUCH_INTERVAL <= width
    ensures n <= width / TOUCH_INTERVAL + 1
  {
  }

  // ---- one clock that never goes back

  function Clock(op: Op, now: int): int
  {
    match op
    case CreateOp(_, _, _, _, _, clock) => ClockNow(clock)
    case LookupOp(_, clock) => ClockNow(clock)
    case TouchOp(_, _, clock) => ClockNow(clock)
    case ListOp(_, clock) => ClockNow(clock)
    case SweepOp(clock) => ClockNow(clock)
    case DestroyOp(_) => now
    case RevokeOp(_, _) => now
  }

  ghost predicate Monotone(now: int, ops: seq<Op>)
    decreases |ops|
  {
    ops == [] || (Clock(ops[0], now) >= now && Monotone(Clock(ops[0], now), ops[1..]))
  }

  ghost predicate Dead(m: Sessions, t: Token, now: int)
  {
    t in m ==> !Live(m[t], now)
  }

  /** Once expired, revoked or destroyed, a session never answers again. */
  lemma {:induction false} DeadStaysDead(m: Sessions, users: set<Id>, ops: seq<Op>, now: int, t: Token)
    requires DistinctHandles(m) && FreshRun(m, users, ops) && Monotone(now, ops) && Dead(m, t, now)
    requires forall i | 0 <= i < |ops| && ops[i].CreateOp? :: ops[i].token != t
    ensures Writes(m, users, ops, t) == []
    ensures forall i | 0 <= i < |ops| && ops[i].LookupOp? && ops[i].token == t :: MemRun(m, users, ops)[i] == NotFound
    decreases |ops|
  {
    if ops == [] {
    } else {
      var now' := Clock(ops[0], now);
      var (m', r) := MemStep(m, ops[0]);
      assert Dead(m', t, now') && (t in m && t in m' ==> m'[t] == m[t]);
      DeadStaysDead(m', users, ops[1..], now', t);
      assert MemRun(m, users, ops) == [r] + MemRun(m', users, ops[1..]);
    }
  }

  // ---- sweeping

  /** `m2` is `m1` without some sessions that have expired. */
  ghost predicate Swept(m1: Sessions, m2: Sessions, now: int)
  {
    && (forall t | t in m2 :: t in m1 && m1[t] == m2[t])
    && (forall t | t in m1 && t !in m2 :: !Live(m1[t], now))
  }

  /** What a caller sees of an operation: all of the answer, but for a sweep nothing, and for a
      revoke only whether it ended a live session. */
  ghost function Observed(m: Sessions, op: Op, now: int): seq<Answer>
    requires DistinctHandles(m)
  {
    match op
    case SweepOp(_) => []
    case RevokeOp(userID, handle) => [Slid(exists t | t in Named(m, userID, handle) :: Live(m[t], now))]
    case _ => [MemStep(m, op).1]
  }

  lemma SweptState(m1: Sessions, m2: Sessions, users: set<Id>, op: Op, now: int)
    requires DistinctHandles(m1) && Swept(m1, m2, now) && Fresh(m1, users, op) && Clock(op, now) >= now
    ensures DistinctHandles(m2) && Fresh(m2, users, op)
    ensures Swept(MemStep(m1, op).0, MemStep(m2, op).0, Clock(op, now))
  {
  }

  lemma SweptAnswer(m1: Sessions, m2: Sessions, op: Op, now: int)
    requires DistinctHandles(m1) && DistinctHandles(m2) && Swept(m1, m2, now) && Clock(op, now) >= now
    ensures Observed(m1, op, now) == Observed(m2, op, now)
  {
    if op.ListOp? {
      assert LiveOf(m1, op.userID, Clock(op, now)) == LiveOf(m2, op.userID, Clock(op, now));
    }
    if op.RevokeOp? {
      forall t | t in Named(m1, op.userID, op.handle) && Live(m1[t], now)
        ensures t in Named(m2, op.userID, op.handle)
      {
      }
    }
  }

  lemma SweptStep(m1: Sessions, m2: Sessions, users: set<Id>, op: Op, now: int)
    requires DistinctHandles(m1) && Swept(m1, m2, now) && Fresh(m1, users, op) && Clock(op, now) >= now
    ensures DistinctHandles(m2) && Fresh(m2, users, op)
    ensures Swept(MemStep(m1, op).0, MemStep(m2, op).0, Clock(op, now))
    ensures Observed(m1, op, now) == Observed(m2, op, now)
  {
    SweptState(m1, m2, users, op, now);
    SweptAnswer(m1, m2, op, now);
  }

  lemma SweptFurther(m1: Sessions, m2: Sessions, clock: int, now: int)
    requires DistinctHandles(m2) && Swept(m1, m2, now) && ClockNow(clock) >= now
    ensures Swept(m1, DeleteExpired(m2, clock).0, ClockNow(clock)) && DistinctHandles(DeleteExpired(m2, clock).0)
  {
  }

  /** A run with some extra sweeps marked in it. */
  datatype Step = Both(op: Op) | Sweep(clock: int)

  function StepClock(step: Step, now: int): int
  {
    if step.Both? then Clock(step.op, now) else ClockNow(step.clock)
  }

  /** The sessions after a step, when the extra sweeps do or do not happen. */
  function StepSessions(m: Sessions, step: Step, sweeping: bool): Sessions
    requires DistinctHandles(m)
  {
    if step.Both? then MemStep(m, step.op).0
    else if sweeping then DeleteExpired(m, step.clock).0 else m
  }

  ghost predicate FreshSteps(m: Sessions, users: set<Id>, steps: seq<Step>, sweeping: bool)
    decreases |steps|
  {
    DistinctHandles(m) &&
    (steps == [] ||
     ((steps[0].Both? ==> Fresh(m, users, steps[0].op)) &&
      FreshSteps(StepSessions(m, steps[0], sweeping), users, steps[1..], sweeping)))
  }

  ghost predicate MonotoneSteps(now: int, steps: seq<Step>)
    decreases |steps|
  {
    steps == [] || (StepClock(steps[0], now) >= now && MonotoneSteps(StepClock(steps[0], now), steps[1..]))
  }

  ghost function Watch(m: Sessions, users: set<Id>, steps: seq<Step>, now: int, sweeping: bool): seq<Answer>
    requires FreshSteps(m, users, steps, sweeping)
    decreases |steps|
  {
    if steps == [] then []
    else
      var now' := StepClock(steps[0], now);
      (if steps[0].Both? then Observed(m, steps[0].op, now') else [])
      + Watch(StepSessions(m, steps[0], sweeping), users, steps[1..], now', sweeping)
  }

  /** Sweeps added anywhere to a run change nothing that any caller observes, in any later step. */
  lemma {:induction false} SweepsAreInvisible(m1: Sessions, m2: Sessions, users: set<Id>, steps: seq<Step>, now: int)
    requires Swept(m1, m2, now) && FreshSteps(m1, users, steps, false) && MonotoneSteps(now, steps)
    ensures FreshSteps(m2, users, steps, true)
    ensures Watch(m1, users, steps, now, false) == Watch(m2, users, steps, now, true)
    decreases |steps|
  {
    if steps == [] {
    } else {
      if steps[0].Both? {
        SweptStep(m1, m2, users, steps[0].op, now);
      } else {
        SweptFurther(m1, m2, steps[0].clock, now);
      }
      SweepsAreInvisible(StepSessions(m1, steps[0], false), StepSessions(m2, steps[0], true), users, steps[1..],
                         StepClock(steps[0], now));
    }
  }

  /** The one visible trace of a sweep: revoking a handle answers differently exactly when it names
      sessions that had expired and were all swept. */
  lemma RevokeException(m1: Sessions, m2: Sessions, userID: Id, handle: nat, now: int)
    requires Swept(m1, m2, now)
    ensures RevokeByHandle(m1, userID, handle).1 != RevokeByHandle(m2, userID, handle).1 <==>
            Named(m1, userID, handle) != {} && Named(m1, userID, handle) !! m2.Keys
    ensures RevokeByHandle(m1, userID, handle).1 != RevokeByHandle(m2, userID, handle).1 ==>
            forall t | t in Named(m1, userID, handle) :: !Live(m1[t], now)
  {
    var n1, n2 := Named(m1, userID, handle), Named(m2, userID, handle);
    assert n2 <= n1;
    if n1 != {} && n2 == {} {
      assert forall t | t in n1 && t in m2 :: t in n2;
    }
    if n2 != {} {
      var t :| t in n2;
      assert t in n1 && t in m2.Keys;
    }
  }

  /** The session contract for revoking: it succeeds when the handle names a live session of the user. */
  ghost predicate RevokeContract(m: Sessions, userID: Id, handle: nat, now: int)
  {
    RevokeByHandle(m, userID, handle).1 == Done <==> exists t | t in Named(m, userID, handle) :: Live(m[t], now)
  }

  /** It holds exactly when the handle names no expired session. */
  lemma RevokeContractExactly(m: Sessions, userID: Id, handle: nat, now: int)
    requires DistinctHandles(m)
    ensures RevokeContract(m, userID, handle, now) <==> forall t | t in Named(m, userID, handle) :: Live(m[t], now)
  {
    forall t, u | t in Named(m, userID, handle) && u in Named(m, userID, handle) ensures t == u {}
    if Named(m, userID, handle) != {} {
      var t :| t in Named(m, userID, handle);
      assert Live(m[t], now) <==> exists u | u in Named(m, userID, handle) :: Live(m[u], now);
    }
  }

  /** The table store's revoke meets it under the same condition on its rows. */
  lemma TableRevokeContractExactly(m: Sessions, userID: Id, handle: nat, now: int)
    requires Sound(m)
    ensures (T.RevokeByHandle(TableOf(m), userID, handle).1 == Done <==>
               exists r | r in TableOf(m) && r.userID == userID && r.handle == handle :: r.expiresAt > now)
            <==> forall r | r in TableOf(m) && r.userID == userID && r.handle == handle :: r.expiresAt > now
  {
    RevokeRefines(m, userID, handle);
    RevokeContractExactly(m, userID, handle, now);
    forall t | t in Named(m, userID, handle) ensures RowOf(t, m[t]) in TableOf(m) {}
  }

  /** It can fail: an expired session that no sweep has removed is revoked with success, by either store. */
  lemma ExpiredCanBeRevoked()
    ensures var m := map["t" := Session(5, 0, 0, 0, ADULT_LIFETIME, [], false)];
            && DistinctHandles(m) && Lookup(m, "t", ADULT_LIFETIME) == NotFound
            && RevokeByHandle(m, 0, 5).1 == Done && T.RevokeByHandle(TableOf(m), 0, 5).1 == Done
            && !RevokeContract(m, 0, 5, ADULT_LIFETIME)
  {
    var m := map["t" := Session(5, 0, 0, 0, ADULT_LIFETIME, [], false)];
    assert "t" in Named(m, 0, 5);
    assert forall t | t in Named(m, 0, 5) :: t == "t" && !Live(m[t], ADULT_LIFETIME);
    RevokeContractExactly(m, 0, 5, ADULT_LIFETIME);
    RevokeRefines(m, 0, 5);
  }

  // ---- where the sessions went

  datatype Tally = Tally(created: nat, destroyed: nat, revoked: nat, swept: nat)

  /** One more operation, and its answer, on a tally. */
  function Counted(c: Tally, m: Sessions, op: Op, r: Answer): Tally
  {
    match op
    case CreateOp(_, _, _, _, _, _) => c.(created := c.created + if r.Created? then 1 else 0)
    case DestroyOp(token) => c.(destroyed := c.destroyed + if token in m then 1 else 0)
    case RevokeOp(_, _) => c.(revoked := c.revoked + if r.Done? then 1 else 0)
    case SweepOp(_) => c.(swept := c.swept + if r.Deleted? then r.count else 0)
    case _ => c
  }

  ghost function Count(m: Sessions, users: set<Id>, ops: seq<Op>): Tally
    requires DistinctHandles(m) && FreshRun(m, users, ops)
    decreases |ops|
  {
    if ops == [] then Tally(0, 0, 0, 0)
    else
      var (m', r) := MemStep(m, ops[0]);
      Counted(Count(m', users, ops[1..]), m, ops[0], r)
  }

  lemma RemoveCount(m: Sessions, gone: set<Token>)
    requires gone <= m.Keys
    ensures |m - gone| == |m| - |gone|
  {
    assert (m - gone).Keys == m.Keys - gone;
    assert |m.Keys - gone| == |m.Keys| - |gone|;
  }

  lemma DestroyCount(m: Sessions, token: Token)
    ensures |Destroy(m, token)| == |m| - if token in m then 1 else 0
  {
    if token in m {
      RemoveCount(m, {token});
    } else {
      assert m - {token} == m;
    }
  }

  lemma RevokeCount(m: Sessions, userID: Id, handle: nat)
    requires DistinctHandles(m)
    ensures var (m', r) := RevokeByHandle(m, userID, handle); |m'| == |m| - if r.Done? then 1 else 0
  {
    var gone := Named(m, userID, handle);
    RemoveCount(m, gone);
    if gone != {} {
      var t :| t in gone;
      assert gone == {t};
    }
  }

  lemma TouchCount(m: Sessions, token: Token, lifetime: int, clock: int)
    ensures |Touch(m, token, lifetime, clock).0| == |m|
  {
    assert Touch(m, token, lifetime, clock).0.Keys == m.Keys;
  }

  lemma CreateCount(m: Sessions, users: set<Id>, op: Op)
    requires op.CreateOp? && Fresh(m, users, op) && DistinctHandles(m)
    ensures var (m', r) := MemStep(m, op); |m'| == |m| + if r.Created? then 1 else 0
  {
    var (m', r) := MemStep(m, op);
    if r.Created? {
      assert m'.Keys == m.Keys + {op.token};
    }
  }

  function Change(m: Sessions, op: Op, r: Answer): int
  {
    match op
    case CreateOp(_, _, _, _, _, _) => if r.Created? then 1 else 0
    case DestroyOp(token) => if token in m then -1 else 0
    case RevokeOp(_, _) => if r.Done? then -1 else 0
    case SweepOp(_) => if r.Deleted? then 0 - (r.count as int) else 0
    case _ => 0
  }

  lemma StepCount(m: Sessions, users: set<Id>, op: Op)
    requires DistinctHandles(m) && Fresh(m, users, op)
    ensures var (m', r) := MemStep(m, op); |m'| == |m| + Change(m, op, r)
  {
    match op
    case CreateOp(_, _, _, _, _, _) => CreateCount(m, users, op);
    case DestroyOp(token) => DestroyCount(m, token);
    case RevokeOp(userID, handle) => RevokeCount(m, userID, handle);
    case SweepOp(clock) => RemoveCount(m, Expired(m, ClockNow(clock)));
    case TouchOp(token, lifetime, clock) => TouchCount(m, token, lifetime, clock);
    case _ =>
  }

  /** What a tally says of the number stored. */
  function Net(c: Tally): int
  {
    c.created - c.destroyed - c.revoked - c.swept
  }

  lemma CountedNet(c: Tally, m: Sessions, op: Op, r: Answer)
    ensures Net(Counted(c, m, op, r)) == Net(c) + Change(m, op, r)
  {
  }

  /** No session is lost or invented: what was created is stored, destroyed, revoked or swept. */
  lemma {:induction false} Conservation(m: Sessions, users: set<Id>, ops: seq<Op>)
    requires DistinctHandles(m) && FreshRun(m, users, ops)
    ensures var c := Count(m, users, ops);
            |m| + c.created == |After(m, users, ops)| + c.destroyed + c.revoked + c.swept
    decreases |ops|
  {
    if ops == [] {
    } else {
      StepCount(m, users, ops[0]);
      var (m', r) := MemStep(m, ops[0]);
      CountedNet(Count(m', users, ops[1..]), m, ops[0], r);
      Conservation(m', users, ops[1..]);
    }
  }
}
