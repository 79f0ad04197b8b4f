/** What is stored of a session, when it slides, and in what order a user's sessions are listed. */
module StoredSessions {
  import opened Base
  import opened SessionSpec
  import opened SessionRefinement
  import SessionRuns
  import UserAgent

  // ---- the stored User-Agent

  /** What a TEXT column takes and the cap allows. */
  ghost predicate Storable(ua: UserAgent.Bytes)
  {
    UserAgent.ValidUtf8(ua) && 0 !in ua && |ua| <= 512
  }

  ghost predicate AllStorable(m: Sessions)
  {
    forall t | t in m :: Storable(m[t].userAgent)
  }

  lemma StepStorable(m: Sessions, op: Op)
    requires DistinctHandles(m) && AllStorable(m)
    ensures AllStorable(MemStep(m, op).0)
  {
    if op.CreateOp? { UserAgent.SanitizeIsStorable(op.userAgent); }
  }

  /** Whatever clients send, over any run every stored User-Agent is valid UTF-8 without NUL of at most 512 bytes,
      in the map and in the table. */
  lemma {:induction false} AgentsStayStorable(m: Sessions, users: set<Id>, ops: seq<Op>)
    requires DistinctHandles(m) && AllStorable(m) && FreshRun(m, users, ops)
    ensures AllStorable(SessionRuns.After(m, users, ops))
    ensures forall r | r in TableOf(SessionRuns.After(m, users, ops)) :: Storable(r.userAgent)
    decreases |ops|
  {
    if ops != [] {
      StepStorable(m, ops[0]);
      AgentsStayStorable(MemStep(m, ops[0]).0, users, ops[1..]);
    }
  }

  /** A created session is the account's, begins at the clock's microsecond, lives as long as it was given, and
      holds the client's User-Agent cleaned, which is as it came when that can be stored. */
  lemma CreatedSession(m: Sessions, users: set<Id>, op: Op)
    requires DistinctHandles(m) && op.CreateOp? && Fresh(m, users, op) && op.lifetime > 0
    ensures var (m', r) := MemStep(m, op);
            && m'.Keys == m.Keys + {op.token} && (forall t | t in m :: m'[t] == m[t])
            && r.Created? && r.token == op.token && r.session == m'[op.token]
            && var s := m'[op.token];
               && s.userID == op.userID && s.handle == op.handle
               && s.createdAt == s.lastSeenAt && 0 <= op.clock - s.createdAt < 1_000 && s.createdAt % 1_000 == 0
               && s.expiresAt - s.createdAt == op.lifetime && !s.touchDue
               && s.userAgent == UserAgent.Sanitize(op.userAgent)
               && (Storable(op.userAgent) ==> s.userAgent == op.userAgent)
  {
    if Storable(op.userAgent) { UserAgent.SanitizeKeepsStorable(op.userAgent); }
  }

  // ---- the slide

  const MINUTE := 60_000_000_000

  /** A touch slides exactly a session that has not expired and was last seen a minute ago or more; a lookup says
      so beforehand; and a slid session has its whole lifetime before it again. */
  lemma SlidesAfterAMinute(m: Sessions, token: Token, lifetime: int, clock: int)
    requires lifetime > 0 && token != ""
    ensures var now := ClockNow(clock);
            var (m', r) := Touch(m, token, lifetime, clock);
            var slides := token in m && now < m[token].expiresAt && now - m[token].lastSeenAt >= MINUTE;
            && (Lookup(m, token, clock).Found? <==> token in m && now < m[token].expiresAt)
            && (Lookup(m, token, clock).Found? ==>
                  Lookup(m, token, clock).session == m[token].(touchDue := slides))
            && r == Slid(slides) && (!slides ==> m' == m)
            && (slides ==> m' == m[token := m[token].(lastSeenAt := now, expiresAt := now + lifetime)])
  {
  }

  /** Thirty days for an adult, 180 for a kid, each longer than the minute. */
  lemma LifetimesInUse(role: Role)
    ensures Lifetime(role) == (if role == Kid then 180 else 30) * 24 * 60 * MINUTE
  {
  }

  // ---- what ends a session

  /** A sign-out ends the session of its token, a revocation the user's own session with that handle, a sweep those
      that have expired; every other session stands as it was. */
  lemma EndsExactly(m: Sessions, op: Op)
    requires DistinctHandles(m) && (op.DestroyOp? || op.RevokeOp? || op.SweepOp?)
    ensures var (m', r) := MemStep(m, op);
            && (forall t :: t in m' <==> t in m && !Ends(m[t], t, op)) && (forall t | t in m' :: m'[t] == m[t])
            && (op.RevokeOp? ==> (r == Done <==> exists t :: t in m && Ends(m[t], t, op)))
            && (op.RevokeOp? && r != Done ==> r == NotFound)
  {
    if op.RevokeOp? {
      assert forall t :: t in Named(m, op.userID, op.handle) <==> t in m && Ends(m[t], t, op);
    }
  }

  predicate Ends(s: Session, t: Token, op: Op)
  {
    match op
    case DestroyOp(token) => t == token
    case RevokeOp(userID, handle) => s.userID == userID && s.handle == handle
    case SweepOp(clock) => s.expiresAt <= ClockNow(clock)
    case _ => false
  }

  // ---- the listing

  /** The more recently seen comes first; of two seen at once, the newer; of two created at once, by handle. */
  ghost predicate Recency(a: Session, b: Session)
  {
    && a.lastSeenAt >= b.lastSeenAt
    && (a.lastSeenAt == b.lastSeenAt ==> a.createdAt >= b.createdAt)
    && (a.lastSeenAt == b.lastSeenAt && a.createdAt == b.createdAt ==> a.handle < b.handle)
  }

  /** A user's sessions are listed most recently seen first: all that have not expired, each once. */
  lemma MostRecentFirst(m: Sessions, userID: Id, clock: int)
    requires DistinctHandles(m)
    ensures var q := ListForUser(m, userID, clock);
            && (forall i, j | 0 <= i < j < |q| :: Recency(q[i], q[j]))
            && (forall s :: s in q <==> exists t :: t in m && m[t].userID == userID &&
                                          ClockNow(clock) < m[t].expiresAt && s == Seen(m[t], ClockNow(clock)))
  {
    RecentIsTotal(m, userID, ClockNow(clock));
    var q := ListForUser(m, userID, clock);
    forall i, j | 0 <= i < j < |q| ensures Recency(q[i], q[j]) {
      assert LessRecent(q[i], q[j]);
    }
    forall s ensures s in q <==> exists t :: t in m && m[t].userID == userID &&
                                   ClockNow(clock) < m[t].expiresAt && s == Seen(m[t], ClockNow(clock)) {
      assert s in q <==> s in LiveOf(m, userID, ClockNow(clock));
    }
  }
}
