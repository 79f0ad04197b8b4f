/** The in-memory store and the table store answer every run of operations alike. */
module SessionRefinement {
  import opened Base
  import opened Ordering
  import opened SessionSpec
  import T = SessionTable
  import UserAgent

  datatype Op =
    | CreateOp(token: Token, handle: nat, userID: Id, lifetime: int, userAgent: UserAgent.Bytes, clock: int)
    | LookupOp(token: Token, clock: int)
    | TouchOp(token: Token, lifetime: int, clock: int)
    | DestroyOp(token: Token)
    | ListOp(userID: Id, clock: int)
    | RevokeOp(userID: Id, handle: nat)
    | SweepOp(clock: int)

  /** Tokens and handles are random, so a created one is new; the user exists. */
  ghost predicate Fresh(m: Sessions, users: set<Id>, op: Op)
  {
    op.CreateOp? ==>
      op.token != "" && op.token !in m && op.userID in users && forall t | t in m :: m[t].handle != op.handle
  }

  predicate WholeMicros(op: Op)
  {
    op.CreateOp? || op.TouchOp? ==> op.lifetime % MICROSECOND == 0
  }

  function MemStep(m: Sessions, op: Op): (Sessions, Answer)
    requires DistinctHandles(m)
  {
    match op
    case CreateOp(token, handle, userID, lifetime, userAgent, clock) =>
      Create(m, token, handle, userID, lifetime, userAgent, clock)
    case LookupOp(token, clock) => (m, Lookup(m, token, clock))
    case TouchOp(token, lifetime, clock) => Touch(m, token, lifetime, clock)
    case DestroyOp(token) => (Destroy(m, token), Done)
    case ListOp(userID, clock) => (m, Listed(ListForUser(m, userID, clock)))
    case RevokeOp(userID, handle) => RevokeByHandle(m, userID, handle)
    case SweepOp(clock) => DeleteExpired(m, clock)
  }

  function TableStep(rows: T.Table, users: set<Id>, op: Op): (T.Table, Answer)
    requires T.Keyed(rows)
  {
    match op
    case CreateOp(token, handle, userID, lifetime, userAgent, clock) =>
      T.Create(rows, users, token, handle, userID, lifetime, userAgent, clock)
    case LookupOp(token, clock) => (rows, T.Lookup(rows, token, clock))
    case TouchOp(token, lifetime, clock) => T.Touch(rows, token, lifetime, clock)
    case DestroyOp(token) => (T.Destroy(rows, token), Done)
    case ListOp(userID, clock) => (rows, Listed(T.ListForUser(rows, userID, clock)))
    case RevokeOp(userID, handle) => T.RevokeByHandle(rows, userID, handle)
    case SweepOp(clock) => T.DeleteExpired(rows, clock)
  }

  /** What holds of the sessions of every run: expiries are whole microseconds, nothing stored is due. */
  ghost predicate Sound(m: Sessions)
  {
    && DistinctHandles(m)
    && "" !in m
    && forall t | t in m :: !m[t].touchDue && m[t].expiresAt % MICROSECOND == 0
  }

  function RowOf(t: Token, s: Session): T.Row
  {
    T.Row(t, s.handle, s.userID, s.createdAt, s.lastSeenAt, s.expiresAt, s.userAgent)
  }

  function TableOf(m: Sessions): T.Table
  {
    set t | t in m :: RowOf(t, m[t])
  }

  lemma TableOfKeyed(m: Sessions)
    requires DistinctHandles(m)
    ensures T.Keyed(TableOf(m))
  {
  }

  /** Rows and tokens correspond one to one. */
  lemma {:induction false} CountRows(m: Sessions, ts: set<Token>, rows: T.Table)
    requires ts <= m.Keys && rows == set t | t in ts :: RowOf(t, m[t])
    ensures |rows| == |ts|
  {
    if ts != {} {
      var t :| t in ts;
      var rest := set u | u in ts - {t} :: RowOf(u, m[u]);
      assert rows == rest + {RowOf(t, m[t])};
      CountRows(m, ts - {t}, rest);
    }
  }

  lemma MicrosOfWhole(clock: int, lifetime: int)
    requires lifetime % MICROSECOND == 0
    ensures ClockNow(clock) % MICROSECOND == 0
    ensures (ClockNow(clock) + lifetime) % MICROSECOND == 0
    ensures Micros(ClockNow(clock) + lifetime) == ClockNow(clock) + lifetime
  {
  }

  lemma CreateRefines(m: Sessions, users: set<Id>, op: Op)
    requires Sound(m) && op.CreateOp? && Fresh(m, users, op) && WholeMicros(op)
    ensures var (m', r) := MemStep(m, op);
            Sound(m') && T.Keyed(TableOf(m)) && TableStep(TableOf(m), users, op) == (TableOf(m'), r)
  {
    TableOfKeyed(m);
    MicrosOfWhole(op.clock, op.lifetime);
    var (m', r) := MemStep(m, op);
    if op.lifetime > 0 {
      var s := m'[op.token];
      assert TableOf(m') == TableOf(m) + {RowOf(op.token, s)} by {
        assert forall t | t in m' :: t == op.token || (t in m && m'[t] == m[t]);
        assert forall t | t in m :: t in m' && m'[t] == m[t];
        assert op.token in m';
      }
    }
  }

  lemma LookupRefines(m: Sessions, token: Token, clock: int)
    requires Sound(m)
    ensures T.Keyed(TableOf(m)) && T.Lookup(TableOf(m), token, clock) == Lookup(m, token, clock)
  {
    TableOfKeyed(m);
    var hit := T.WithHash(TableOf(m), token, ClockNow(clock));
    if token in m && Live(m[token], ClockNow(clock)) {
      assert RowOf(token, m[token]) in hit;
      assert forall r | r in hit :: r == RowOf(token, m[token]);
    } else {
      assert hit == {};
    }
  }

  lemma UpdateRow(m: Sessions, token: Token, s: Session)
    requires token in m
    ensures TableOf(m[token := s]) == TableOf(m) - {RowOf(token, m[token])} + {RowOf(token, s)}
  {
    var m' := m[token := s];
    assert forall t | t in m && t != token :: m'[t] == m[t];
    assert token in m';
  }

  lemma TouchableRows(m: Sessions, token: Token, now: int)
    requires DistinctHandles(m)
    ensures T.Touchable(TableOf(m), token, now) == if Slides(m, token, now) then {RowOf(token, m[token])} else {}
  {
    if Slides(m, token, now) { assert RowOf(token, m[token]) in TableOf(m); }
  }

  lemma TouchSound(m: Sessions, token: Token, lifetime: int, clock: int)
    requires Sound(m) && lifetime % MICROSECOND == 0
    ensures Sound(Touch(m, token, lifetime, clock).0)
  {
    MicrosOfWhole(clock, lifetime);
  }

  lemma RewrittenRow(row: T.Row, now: int, expiry: int)
    ensures T.Rewrite({row}, now, expiry) == {row.(lastSeenAt := now, expiresAt := expiry)}
    ensures T.Rewrite({}, now, expiry) == {}
  {
  }

  lemma TouchAtRefines(m: Sessions, token: Token, now: int, expiry: int)
    requires DistinctHandles(m)
    ensures var (m', r) := TouchAt(m, token, now, expiry);
            T.TouchAt(TableOf(m), token, now, expiry) == (TableOf(m'), r)
  {
    TouchableRows(m, token, now);
    if Slides(m, token, now) {
      RewrittenRow(RowOf(token, m[token]), now, expiry);
      UpdateRow(m, token, m[token].(lastSeenAt := now, expiresAt := expiry));
    } else {
      RewrittenRow(T.Row("", 0, 0, 0, 0, 0, []), now, expiry);
      assert TableOf(m) - {} + {} == TableOf(m);
    }
  }

  lemma TouchRefines(m: Sessions, token: Token, lifetime: int, clock: int)
    requires Sound(m) && lifetime % MICROSECOND == 0
    ensures var (m', r) := Touch(m, token, lifetime, clock);
            T.Touch(TableOf(m), token, lifetime, clock) == (TableOf(m'), r)
  {
    MicrosOfWhole(clock, lifetime);
    TouchAtRefines(m, token, ClockNow(clock), ClockNow(clock) + lifetime);
  }

  lemma DeleteRefines(m: Sessions, gone: set<Token>, rows: T.Table)
    requires gone <= m.Keys && rows == set t | t in gone :: RowOf(t, m[t])
    ensures TableOf(m - gone) == TableOf(m) - rows && |rows| == |gone|
  {
    CountRows(m, gone, rows);
    assert forall t | t in m - gone :: t in m && (m - gone)[t] == m[t];
    assert forall t | t in m && t !in gone :: t in m - gone;
  }

  /** The rows of a user's live sessions, as the query reads them. */
  function Scanned(m: Sessions, userID: Id, now: int): seq<Session>
    requires Sound(m)
  {
    TableOfKeyed(m);
    T.RowOrderIsTotal(TableOf(m), userID, now);
    T.ScanAll(Arrange(T.OfUser(TableOf(m), userID, now), T.RowBefore), now)
  }

  lemma ScanAscends(q: seq<T.Row>, now: int)
    requires Ascending(T.RowBefore, q)
    ensures Ascending(LessRecent, T.ScanAll(q, now))
  {
    var out := T.ScanAll(q, now);
    forall i, j | 0 <= i < j < |out| ensures LessRecent(out[i], out[j]) {
      assert T.RowBefore(q[i], q[j]);
    }
  }

  lemma ScannedIsLive(m: Sessions, userID: Id, now: int, s: Session)
    requires Sound(m) && s in Scanned(m, userID, now)
    ensures s in LiveOf(m, userID, now)
  {
    TableOfKeyed(m);
    T.RowOrderIsTotal(TableOf(m), userID, now);
    var q := Arrange(T.OfUser(TableOf(m), userID, now), T.RowBefore);
    var i :| 0 <= i < |q| && T.ScanAll(q, now)[i] == s;
    assert q[i] in T.OfUser(TableOf(m), userID, now);
    var t :| t in m && q[i] == RowOf(t, m[t]);
    assert s == Seen(m[t], now);
  }

  lemma LiveIsScanned(m: Sessions, userID: Id, now: int, s: Session)
    requires Sound(m) && s in LiveOf(m, userID, now)
    ensures s in Scanned(m, userID, now)
  {
    TableOfKeyed(m);
    T.RowOrderIsTotal(TableOf(m), userID, now);
    var t :| t in m && m[t].userID == userID && Live(m[t], now) && s == Seen(m[t], now);
    var q := Arrange(T.OfUser(TableOf(m), userID, now), T.RowBefore);
    assert RowOf(t, m[t]) in T.OfUser(TableOf(m), userID, now);
    var i :| 0 <= i < |q| && q[i] == RowOf(t, m[t]);
    assert T.ScanAll(q, now)[i] == s;
  }

  /** Reading the rows of a query, in order, gives the live sessions, most recent first. */
  lemma ScanIsListing(m: Sessions, userID: Id, now: int)
    requires Sound(m)
    ensures Listing(Scanned(m, userID, now), LiveOf(m, userID, now), LessRecent)
  {
    TableOfKeyed(m);
    T.RowOrderIsTotal(TableOf(m), userID, now);
    ScanAscends(Arrange(T.OfUser(TableOf(m), userID, now), T.RowBefore), now);
    forall s | s in Scanned(m, userID, now) ensures s in LiveOf(m, userID, now) { ScannedIsLive(m, userID, now, s); }
    forall s | s in LiveOf(m, userID, now) ensures s in Scanned(m, userID, now) { LiveIsScanned(m, userID, now, s); }
  }

  lemma ListRefines(m: Sessions, userID: Id, clock: int)
    requires Sound(m)
    ensures T.Keyed(TableOf(m)) && T.ListForUser(TableOf(m), userID, clock) == ListForUser(m, userID, clock)
  {
    var now := ClockNow(clock);
    TableOfKeyed(m);
    ScanIsListing(m, userID, now);
    RecentIsTotal(m, userID, now);
    ListingUnique(Arrange(LiveOf(m, userID, now), LessRecent), Scanned(m, userID, now), LiveOf(m, userID, now),
                  LessRecent, LessRecent);
  }

  lemma DestroyRefines(m: Sessions, token: Token)
    requires Sound(m)
    ensures T.Destroy(TableOf(m), token) == TableOf(Destroy(m, token))
  {
    var gone := m.Keys * {token};
    var rows := set t | t in gone :: RowOf(t, m[t]);
    DeleteRefines(m, gone, rows);
    assert m - {token} == m - gone;
  }

  lemma RevokeRefines(m: Sessions, userID: Id, handle: nat)
    requires Sound(m)
    ensures var (m', r) := RevokeByHandle(m, userID, handle);
            T.RevokeByHandle(TableOf(m), userID, handle) == (TableOf(m'), r)
  {
    var gone := Named(m, userID, handle);
    var rows := set t | t in gone :: RowOf(t, m[t]);
    DeleteRefines(m, gone, rows);
    assert m - {} == m;
    assert (set q | q in TableOf(m) && q.userID == userID && q.handle == handle) == rows;
  }

  lemma SweepRefines(m: Sessions, clock: int)
    requires Sound(m)
    ensures var (m', r) := DeleteExpired(m, clock);
            T.DeleteExpired(TableOf(m), clock) == (TableOf(m'), r)
  {
    var gone := Expired(m, ClockNow(clock));
    var rows := set t | t in gone :: RowOf(t, m[t]);
    DeleteRefines(m, gone, rows);
    assert (set q | q in TableOf(m) && q.expiresAt <= ClockNow(clock)) == rows;
  }

  /** One step of the table store is the same step of the map. */
  lemma StepRefines(m: Sessions, users: set<Id>, op: Op)
    requires Sound(m) && Fresh(m, users, op) && WholeMicros(op)
    ensures var (m', r) := MemStep(m, op);
            Sound(m') && T.Keyed(TableOf(m)) && TableStep(TableOf(m), users, op) == (TableOf(m'), r)
  {
    TableOfKeyed(m);
    match op
    case CreateOp(_, _, _, _, _, _) => CreateRefines(m, users, op);
    case LookupOp(token, clock) => LookupRefines(m, token, clock);
    case TouchOp(token, lifetime, clock) =>
      TouchSound(m, token, lifetime, clock);
      TouchRefines(m, token, lifetime, clock);
    case DestroyOp(token) => DestroyRefines(m, token);
    case ListOp(userID, clock) => ListRefines(m, userID, clock);
    case RevokeOp(userID, handle) => RevokeRefines(m, userID, handle);
    case SweepOp(clock) => SweepRefines(m, clock);
  }

  // ---- runs

  ghost predicate FreshRun(m: Sessions, users: set<Id>, ops: seq<Op>)
    requires DistinctHandles(m)
    decreases |ops|
  {
    ops == [] ||
    (Fresh(m, users, ops[0]) && DistinctHandles(MemStep(m, ops[0]).0) &&
      FreshRun(MemStep(m, ops[0]).0, users, ops[1..]))
  }

  ghost function MemRun(m: Sessions, users: set<Id>, ops: seq<Op>): (answers: seq<Answer>)
    requires DistinctHandles(m) && FreshRun(m, users, ops)
    ensures |answers| == |ops|
    decreases |ops|
  {
    if ops == [] then []
    else var (m', r) := MemStep(m, ops[0]); [r] + MemRun(m', users, ops[1..])
  }

  ghost predicate TableRun(rows: T.Table, users: set<Id>, ops: seq<Op>, answers: seq<Answer>)
    decreases |ops|
  {
    if ops == [] then answers == []
    else
      T.Keyed(rows) && answers != [] &&
      var (rows', r) := TableStep(rows, users, ops[0]);
      answers[0] == r && TableRun(rows', users, ops[1..], answers[1..])
  }

  /** Every run of either store from the same sessions gives the same answers. */
  lemma {:induction false} StoresAgree(m: Sessions, users: set<Id>, ops: seq<Op>)
    requires Sound(m) && FreshRun(m, users, ops) && forall i | 0 <= i < |ops| :: WholeMicros(ops[i])
    ensures TableRun(TableOf(m), users, ops, MemRun(m, users, ops))
    decreases |ops|
  {
    if ops == [] {
    } else {
      StepRefines(m, users, ops[0]);
      StoresAgree(MemStep(m, ops[0]).0, users, ops[1..]);
      var (m', r) := MemStep(m, ops[0]);
      assert MemRun(m, users, ops)[1..] == MemRun(m', users, ops[1..]);
    }
  }

  /** The role lifetimes are whole microseconds, so the service itself is within the agreement. */
  lemma LifetimesAreWhole(role: Role)
    ensures Lifetime(role) > TOUCH_INTERVAL && Lifetime(role) % MICROSECOND == 0
    ensures role != Kid ==> Lifetime(role) < Lifetime(Kid)
  {
  }

  /** A created session's expiry differs between the stores for exactly the other lifetimes: the
      column truncates it, so the table store ends such a session up to a microsecond early. */
  lemma AgreeExactlyOnWholeMicros(lifetime: int, users: set<Id>, userID: Id, token: Token, handle: nat)
    requires lifetime > 0 && userID in users && token != ""
    ensures (forall created: int, looked: int ::
               var op := CreateOp(token, handle, userID, lifetime, [], created);
               Lookup(MemStep(map[], op).0, token, looked)
               == T.Lookup(TableStep({}, users, op).0, token, looked))
            <==> lifetime % MICROSECOND == 0
  {
    if lifetime % MICROSECOND == 0 {
      forall created: int, looked: int
        ensures var op := CreateOp(token, handle, userID, lifetime, [], created);
                Lookup(MemStep(map[], op).0, token, looked) == T.Lookup(TableStep({}, users, op).0, token, looked)
      {
        var op := CreateOp(token, handle, userID, lifetime, [], created);
        assert TableOf(map[]) == {};
        CreateRefines(map[], users, op);
        LookupRefines(MemStep(map[], op).0, token, looked);
      }
    } else {
      var op := CreateOp(token, handle, userID, lifetime, [], 0);
      var m := MemStep(map[], op).0;
      assert Live(m[token], ClockNow(lifetime));
      var rows := TableStep({}, users, op).0;
      assert forall r | r in rows :: r.expiresAt == Micros(lifetime);
      assert T.WithHash(rows, token, ClockNow(lifetime)) == {};
      assert Lookup(m, token, lifetime) != T.Lookup(rows, token, lifetime);
    }
  }
}
