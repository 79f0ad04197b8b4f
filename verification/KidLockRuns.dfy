/** The kid write lock while the household goes on: between the kid's requests other accounts make any store
    calls, which may change or delete the kid's account, and the poller publishes. */
module KidLockRuns {
  import opened Base
  import opened Schema
  import opened Statements
  import opened Server
  import opened KidLock
  import StoreInvariant
  import KidTwins
  import KidUnseen
  import KidRuns
  import S = SessionSpec
  import G = Gatus

  /** The kid's own request, a store call of someone else, or a new snapshot. */
  datatype Event = Own(req: Request) | Others(op: StoreInvariant.Op) | Poll(snap: G.Snapshot)

  function Step(s: KidRuns.Side, e: Event): KidRuns.Side
  {
    match e
    case Own(req) => s.(db := Handle(s.db, s.snap, req).0)
    case Others(op) => s.(db := StoreInvariant.Apply(s.db, op).0)
    case Poll(snap) => s.(snap := snap)
  }

  /** What the first `n` events make of a service. */
  function At(s: KidRuns.Side, events: seq<Event>, n: nat): KidRuns.Side
    requires n <= |events|
    decreases n
  {
    if n == 0 then s else At(Step(s, events[0]), events[1..], n - 1)
  }

  /** The kid's requests carry tokens of `mine`, which are given to no one else; ids are not given out twice. */
  ghost predicate Admissible(db: Db, u: Id, mine: set<S.Token>, e: Event)
  {
    match e
    case Own(req) => req.token in mine
    case Others(op) =>
      && StoreInvariant.Fresh(db, op)
      && (op.Account? && (op.a.CreateUserOp? || op.a.CreateKidOp?) ==> op.a.id != u)
      && (op.Session? && op.o.CreateSessionOp? && op.o.token in mine ==> op.o.user == u)
    case Poll(_) => true
  }

  ghost predicate AdmissibleRun(s: KidRuns.Side, u: Id, mine: set<S.Token>, events: seq<Event>)
    decreases |events|
  {
    events == [] || (Admissible(s.db, u, mine, events[0]) && AdmissibleRun(Step(s, events[0]), u, mine, events[1..]))
  }

  /** The account, if it still exists, is a kid's, and the tokens are no one else's. */
  ghost predicate Locked(db: Db, u: Id, mine: set<S.Token>)
  {
    && Inv(db) && (u in db.users ==> IsKid(db, u))
    && forall t | t in mine :: OwnToken(db, u, t)
  }

  /** What the lock lets one request do, by the allow-list at that moment; a deleted account does nothing. */
  ghost predicate Confined(s: KidRuns.Side, u: Id, req: Request)
  {
    var (db', reply) := Handle(s.db, s.snap, req);
    && (if u in s.db.users then OnlyOwn(s.db, db', u, {req.token}) else db' == s.db)
    && (Guarded(Class(req.route)) ==>
          reply.status == if u in s.db.users && S.Lookup(s.db.sessions, req.token, req.clock).Found? then 403 else 401)
  }

  lemma DeletedDoesNothing(s: KidRuns.Side, u: Id, mine: set<S.Token>, req: Request)
    requires Locked(s.db, u, mine) && req.token in mine && u !in s.db.users
    ensures req.token !in s.db.sessions && Handle(s.db, s.snap, req).0 == s.db && Confined(s, u, req)
  {
    assert s.db.sessions - {req.token} == s.db.sessions;
  }

  lemma RequestConfined(s: KidRuns.Side, u: Id, mine: set<S.Token>, req: Request)
    requires Locked(s.db, u, mine) && req.token in mine
    ensures Confined(s, u, req)
  {
    if u in s.db.users {
      StepOnlyOwn(s.db, s.snap, u, req);
      if Guarded(Class(req.route)) { GuardedAnswers403(s.db, s.snap, u, req); }
    } else {
      DeletedDoesNothing(s, u, mine, req);
    }
  }

  lemma RequestKeepsLock(s: KidRuns.Side, u: Id, mine: set<S.Token>, req: Request)
    requires Locked(s.db, u, mine) && req.token in mine
    ensures Locked(Handle(s.db, s.snap, req).0, u, mine)
  {
    if u in s.db.users {
      StepOnlyOwn(s.db, s.snap, u, req);
      KidRuns.HandleKeepsInv(s.db, s.snap, u, req);
    } else {
      DeletedDoesNothing(s, u, mine, req);
    }
  }

  /** No store call changes the role of an account that stays. */
  lemma AccountKeepsRole(db: Db, op: StoreInvariant.AccountOp, u: Id)
    requires (op.CreateUserOp? || op.CreateKidOp?) ==> op.id != u
    ensures var d := StoreInvariant.ApplyAccount(db, op).0;
            u in d.users ==> u in db.users && d.users[u].role == db.users[u].role
  {
  }

  lemma AccountKeepsSessions(db: Db, op: StoreInvariant.AccountOp)
    ensures var d := StoreInvariant.ApplyAccount(db, op).0;
            forall t | t in d.sessions :: t in db.sessions && d.sessions[t] == db.sessions[t]
  {
  }

  lemma SessionKeepsOwners(db: Db, op: StoreInvariant.SessionOp, t: S.Token, u: Id)
    requires OwnToken(db, u, t) && (op.CreateSessionOp? && op.token == t ==> op.user == u)
    ensures OwnToken(StoreInvariant.ApplySession(db, op).0, u, t)
  {
  }

  lemma CallKeepsTokens(db: Db, u: Id, mine: set<S.Token>, op: StoreInvariant.Op)
    requires (forall t | t in mine :: OwnToken(db, u, t)) && Admissible(db, u, mine, Others(op))
    ensures forall t | t in mine :: OwnToken(StoreInvariant.Apply(db, op).0, u, t)
  {
    match op
    case Account(a) => AccountKeepsSessions(db, a);
    case Catalog(c) => KidTwins.CatalogKeepsAccounts(db, c);
    case Section(o) => KidTwins.SectionKeepsAccounts(db, o);
    case Session(o) => forall t | t in mine ensures OwnToken(StoreInvariant.Apply(db, op).0, u, t) {
      SessionKeepsOwners(db, o, t, u);
    }
  }

  lemma CallKeepsRole(db: Db, u: Id, mine: set<S.Token>, op: StoreInvariant.Op)
    requires Admissible(db, u, mine, Others(op))
    ensures var d := StoreInvariant.Apply(db, op).0;
            u in d.users ==> u in db.users && d.users[u].role == db.users[u].role
  {
    match op
    case Account(a) => AccountKeepsRole(db, a, u);
    case Catalog(c) => KidTwins.CatalogKeepsAccounts(db, c);
    case Section(o) => KidTwins.SectionKeepsAccounts(db, o);
    case Session(o) => KidUnseen.SessionsOnlyWritten(db, o);
  }

  lemma StepKeepsLock(s: KidRuns.Side, u: Id, mine: set<S.Token>, e: Event)
    requires Locked(s.db, u, mine) && Admissible(s.db, u, mine, e)
    ensures Locked(Step(s, e).db, u, mine)
  {
    match e
    case Own(req) => RequestKeepsLock(s, u, mine, req);
    case Others(op) =>
      StoreInvariant.OpInv(s.db, op);
      CallKeepsRole(s.db, u, mine, op);
      CallKeepsTokens(s.db, u, mine, op);
    case Poll(_) =>
  }

  /** Every request of the run is confined by the allow-list the kid has at that moment, and the account, while
      it exists, stays a kid's. */
  lemma {:induction false} LockHoldsThroughout(s: KidRuns.Side, u: Id, mine: set<S.Token>, events: seq<Event>, i: nat)
    requires Locked(s.db, u, mine) && AdmissibleRun(s, u, mine, events) && i < |events|
    ensures Locked(At(s, events, i).db, u, mine)
    ensures At(s, events, i + 1) == Step(At(s, events, i), events[i])
    ensures events[i].Own? ==> Confined(At(s, events, i), u, events[i].req)
    decreases i
  {
    if i > 0 {
      StepKeepsLock(s, u, mine, events[0]);
      LockHoldsThroughout(Step(s, events[0]), u, mine, events[1..], i - 1);
    } else if events[0].Own? {
      RequestConfined(s, u, mine, events[0].req);
    }
  }
}
