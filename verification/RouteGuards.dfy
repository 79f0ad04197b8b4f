/** Who each route serves, route by route: what an account is refused, what an admin's and an adult's request
    does to the store, and what is left after a logout. */
module RouteGuards {
  import opened Base
  import opened Schema
  import opened Statements
  import opened Server
  import StoreInvariant
  import S = SessionSpec
  import G = Gatus

  /** The token names a stored session of the account that has not expired. */
  ghost predicate SignedIn(db: Db, token: S.Token, clock: int, u: Id)
  {
    token != "" && token in db.sessions && db.sessions[token].userID == u && u in db.users &&
    S.ClockNow(clock) < db.sessions[token].expiresAt
  }

  /** At most the slide of the token's session has happened. */
  ghost predicate OnlySlid(db: Db, d: Db, token: S.Token)
  {
    && d == db.(sessions := d.sessions) && d.sessions.Keys == db.sessions.Keys
    && forall t | t in db.sessions ::
         if t == token then
           d.sessions[t].(lastSeenAt := db.sessions[t].lastSeenAt, expiresAt := db.sessions[t].expiresAt) ==
             db.sessions[t]
         else d.sessions[t] == db.sessions[t]
  }

  /** The routes that an account of this role is refused. */
  predicate Barred(role: Role, route: Route)
  {
    match route
    case AdminRoute(_) => role != Admin
    case PutCollapsed(_) => role != Admin && role != Adult
    case PutLayout(_) => role != Admin && role != Adult
    case GetLibrary => role != Admin && role != Adult
    case PostRefresh => role != Admin && role != Adult
    case _ => false
  }

  lemma CallerIsSignedIn(db: Db, token: S.Token, clock: int)
    ensures var (d, who, _) := CurrentUser(db, token, clock);
            && OnlySlid(db, d, token)
            && (who.Some? ==> SignedIn(db, token, clock, who.value))
            && (who.None? ==> d == db && forall u :: !SignedIn(db, token, clock, u))
  {
  }

  /** Without a live session every route but logout answers 401 and changes nothing. */
  lemma StrangerIsRefused(db: Db, snap: G.Snapshot, req: Request)
    requires !req.route.Logout? && forall u :: !SignedIn(db, req.token, req.clock, u)
    ensures var (db', reply) := Handle(db, snap, req);
            reply.status == 401 && reply.body == NoBody && db' == db
  {
    CallerIsSignedIn(db, req.token, req.clock);
  }

  /** A signed-in account is answered 403 exactly on the routes its role is barred from, PATCH /api/me aside, and
      such a request changes nothing but its session's slide. */
  lemma BarredExactly(db: Db, snap: G.Snapshot, req: Request, u: Id)
    requires SignedIn(db, req.token, req.clock, u) && !req.route.Logout?
    ensures var (db', reply) := Handle(db, snap, req);
            && (Barred(db.users[u].role, req.route) ==>
                  reply.status == 403 && reply.body == NoBody && OnlySlid(db, db', req.token))
            && (!Barred(db.users[u].role, req.route) && !req.route.PatchMe? ==> reply.status != 403)
            && reply.status != 401
  {
    CallerIsSignedIn(db, req.token, req.clock);
  }

  /** The admin-only routes, for whoever is not an admin: 401 or 403, and nothing is written. */
  lemma AdminRoutesNeedAdmin(db: Db, snap: G.Snapshot, req: Request)
    requires req.route.AdminRoute?
    requires forall u | SignedIn(db, req.token, req.clock, u) :: db.users[u].role != Admin
    ensures var (db', reply) := Handle(db, snap, req);
            && (reply.status == 401 || reply.status == 403) && reply.body == NoBody
            && db' == db.(sessions := db'.sessions) && OnlySlid(db, db', req.token)
  {
    if u :| SignedIn(db, req.token, req.clock, u) {
      BarredExactly(db, snap, req, u);
    } else {
      StrangerIsRefused(db, snap, req);
      CallerIsSignedIn(db, req.token, req.clock);
    }
  }

  /** An admin's request on an admin-only route is its store call, and the answer is the call's outcome. */
  lemma AdminRouteIsItsCall(db: Db, snap: G.Snapshot, req: Request, u: Id)
    requires SignedIn(db, req.token, req.clock, u) && db.users[u].role == Admin && req.route.AdminRoute?
    ensures exists d :: OnlySlid(db, d, req.token) &&
              var (db', reply) := Handle(db, snap, req);
              && (db', reply.body) == (StoreInvariant.Apply(d, req.route.op).0,
                                       Outcome(StoreInvariant.Apply(d, req.route.op).1))
              && (reply.status == 200 <==> StoreInvariant.Apply(d, req.route.op).1 == Ok)
  {
    CallerIsSignedIn(db, req.token, req.clock);
    var d := CurrentUser(db, req.token, req.clock).0;
    assert OnlySlid(db, d, req.token);
  }

  /** The routes closed to kids, for an admin or an adult: each makes its store call for the caller. */
  lemma AdultRouteIsItsCall(db: Db, snap: G.Snapshot, req: Request, u: Id)
    requires SignedIn(db, req.token, req.clock, u) && (db.users[u].role == Admin || db.users[u].role == Adult)
    requires req.route.PutCollapsed? || req.route.PutLayout? || req.route.GetLibrary? || req.route.PostRefresh?
    ensures exists d :: OnlySlid(db, d, req.token) &&
              var (db', reply) := Handle(db, snap, req);
              && (req.route.PutCollapsed? ==> db' == SetCollapsed(d, u, req.route.ids).0 && reply.status == 204)
              && (req.route.PutLayout? ==>
                    db' == SetLayout(d, u, req.route.ids).0 &&
                    (reply.status == 204 <==> SetLayout(d, u, req.route.ids).1 == Ok))
              && (req.route.GetLibrary? || req.route.PostRefresh? ==> db' == d && reply.status == 200)
  {
    CallerIsSignedIn(db, req.token, req.clock);
    var d := CurrentUser(db, req.token, req.clock).0;
    assert OnlySlid(db, d, req.token);
  }

  /** Each read answers a signed-in account 200 with its own body, and writes nothing past the slide. */
  lemma ReadsAnswered(db: Db, snap: G.Snapshot, req: Request, u: Id)
    requires SignedIn(db, req.token, req.clock, u)
    ensures var d := CurrentUser(db, req.token, req.clock).0;
            var (db', reply) := Handle(db, snap, req);
            && OnlySlid(db, d, req.token)
            && (req.route.GetServices? ==>
                  db' == d && reply.status == 200 && reply.body == Services(ServicesBody(d, snap, u)))
            && (req.route.GetCategories? ==>
                  db' == d && reply.status == 200 && reply.body == Categories(CategoriesBody(d, u)))
            && (req.route.GetCollapsed? ==>
                  db' == d && reply.status == 200 && reply.body == CollapsedIds(CollapsedBody(d, u)))
            && (req.route.GetStatus? ==>
                  db' == d && reply.status == 200 && reply.body == Statuses(snap.asOf, StatusBody(d, snap, u)))
            && (req.route.GetMe? ==> db' == d && reply.status == 200 && reply.body == Me(u, db.users[u]))
  {
    CallerIsSignedIn(db, req.token, req.clock);
  }

  /** The routes that write the caller's own rows do so for the caller, with the cookie of the slide. */
  lemma OwnWritesAnswered(db: Db, snap: G.Snapshot, req: Request, u: Id)
    requires SignedIn(db, req.token, req.clock, u)
    ensures var (d, _, cookie) := CurrentUser(db, req.token, req.clock);
            var (db', reply) := Handle(db, snap, req);
            && OnlySlid(db, d, req.token) && (!req.route.Logout? ==> reply.cookie == cookie)
            && (req.route.PatchMe? ==> (db', reply.status, reply.body) == ServePatchMe(d, u, req.route.patch))
            && (req.route.PostFavorite? ==>
                  (db', reply.status, reply.body) == ServePostFavorite(d, u, req.route.service))
            && (req.route.DeleteFavorite? ==>
                  (db', reply.status, reply.body) == ServeDeleteFavorite(d, u, req.route.service))
            && (req.route.GetIcon? ==>
                  (db', reply.status, reply.body) == ServeFiltered(d, snap, u, req.route))
  {
    CallerIsSignedIn(db, req.token, req.clock);
  }

  /** A logout answers 204, clears the cookie, and ends the session it was sent with: the token signs no one in
      from then on, every other route refuses it, and every other session stands. */
  lemma LogoutEndsSession(db: Db, snap: G.Snapshot, req: Request, later: Request)
    requires req.route.Logout? && later.token == req.token && !later.route.Logout?
    ensures var (db', reply) := Handle(db, snap, req);
            && reply == Reply(204, NoBody, Clear) && db' == db.(sessions := db'.sessions)
            && req.token !in db'.sessions
            && (forall t | t != req.token :: t in db'.sessions <==> t in db.sessions)
            && (forall t | t in db'.sessions :: db'.sessions[t] == db.sessions[t])
            && Handle(db', snap, later).1.status == 401 && Handle(db', snap, later).0 == db'
  {
    var db' := Handle(db, snap, req).0;
    StrangerIsRefused(db', snap, later);
  }
}
