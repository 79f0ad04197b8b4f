/** Kid non-interference over whole runs: two services whose databases and Gatus snapshots agree on
    a kid's view give the same answers to every sequence of the kid's requests, however many calls
    that do not touch the kid either of them serves in between. */
module KidRuns {
  import opened Base
  import opened Schema
  import opened Statements
  import opened Listings
  import opened Server
  import opened KidLock
  import opened KidIsolation
  import opened KidUnseen
  import opened KidGrants
  import opened KidTwins
  import MigratedStore
  import StoreInvariant
  import S = SessionSpec
  import G = Gatus

  // ---- the caller

  lemma SameLookup(db1: Db, db2: Db, kid: Id, token: S.Token)
    requires OwnToken(db1, kid, token) && OwnToken(db2, kid, token) && OwnSessions(db1, kid) == OwnSessions(db2, kid)
    ensures token in db1.sessions <==> token in db2.sessions
    ensures token in db1.sessions ==> db1.sessions[token] == db2.sessions[token]
  {
    assert token in db1.sessions <==> token in OwnSessions(db1, kid);
    assert token in db2.sessions <==> token in OwnSessions(db2, kid);
    if token in db1.sessions { assert OwnSessions(db1, kid)[token] == OwnSessions(db2, kid)[token]; }
  }

  /** A slide rewrites at most the session's own row, the same way for the same row and user. */
  lemma CallerSlides(db: Db, token: S.Token, clock: int)
    ensures var d := CurrentUser(db, token, clock).0;
            && d == db.(sessions := d.sessions)
            && (d.sessions == db.sessions
                || (token in db.sessions && token in d.sessions && d.sessions == db.sessions[token := d.sessions[token]]
                    && d.sessions[token].userID == db.sessions[token].userID))
  {
  }

  lemma SameTouch(m1: S.Sessions, m2: S.Sessions, token: S.Token, lifetime: int, clock: int)
    requires token in m1 && token in m2 && m1[token] == m2[token]
    ensures S.Lookup(m1, token, clock) == S.Lookup(m2, token, clock)
    ensures var (m1', r1) := S.Touch(m1, token, lifetime, clock);
            var (m2', r2) := S.Touch(m2, token, lifetime, clock);
            r1 == r2 && token in m1' && token in m2' && m1'[token] == m2'[token]
  {
  }

  lemma SameSlide(db1: Db, db2: Db, kid: Id, token: S.Token, clock: int)
    requires token in db1.sessions && token in db2.sessions && db1.sessions[token] == db2.sessions[token]
    requires db1.sessions[token].userID == kid && kid in db1.users && kid in db2.users &&
             db1.users[kid] == db2.users[kid]
    ensures var (d1, who1, cookie1) := CurrentUser(db1, token, clock);
            var (d2, who2, cookie2) := CurrentUser(db2, token, clock);
            && who1 == who2 && (who1.Some? ==> who1 == Some(kid)) && cookie1 == cookie2
            && token in d1.sessions && token in d2.sessions && d1.sessions[token] == d2.sessions[token]
  {
    var lifetime := S.Lifetime(db1.users[kid].role);
    SameTouch(db1.sessions, db2.sessions, token, lifetime, clock);
    assert S.Lookup(db1.sessions, token, clock).Found? ==> S.Lookup(db1.sessions, token, clock).session.userID == kid;
  }

  lemma SameCaller(db1: Db, db2: Db, kid: Id, token: S.Token, clock: int)
    requires OwnToken(db1, kid, token) && OwnToken(db2, kid, token) && OwnSessions(db1, kid) == OwnSessions(db2, kid)
    requires kid in db1.users && kid in db2.users && db1.users[kid] == db2.users[kid]
    ensures var (d1, who1, cookie1) := CurrentUser(db1, token, clock);
            var (d2, who2, cookie2) := CurrentUser(db2, token, clock);
            && who1 == who2 && (who1.Some? ==> who1 == Some(kid)) && cookie1 == cookie2
            && OwnSessions(d1, kid) == OwnSessions(d2, kid)
  {
    SameLookup(db1, db2, kid, token);
    CallerSlides(db1, token, clock);
    CallerSlides(db2, token, clock);
    if token in db1.sessions {
      SameSlide(db1, db2, kid, token, clock);
      SlidOwn(db1, CurrentUser(db1, token, clock).0, kid, token);
      SlidOwn(db2, CurrentUser(db2, token, clock).0, kid, token);
    }
  }

  /** A slide rewrites the one row in the view too. */
  lemma SlidOwn(db: Db, d: Db, kid: Id, token: S.Token)
    requires token in db.sessions && token in d.sessions && d.sessions == db.sessions[token := d.sessions[token]]
    requires db.sessions[token].userID == kid && d.sessions[token].userID == kid
    ensures OwnSessions(d, kid) == OwnSessions(db, kid)[token := d.sessions[token]]
  {
  }

  // ---- views after a write

  ghost predicate SameView(db1: Db, snap1: G.Snapshot, db2: Db, snap2: G.Snapshot, kid: Id)
  {
    ViewOf(db1, snap1, kid) == ViewOf(db2, snap2, kid)
  }

  lemma ViewWithFavorites(db: Db, favorites: set<(Id, Id)>, snap: G.Snapshot, kid: Id)
    ensures ViewOf(db.(favorites := favorites), snap, kid)
            == ViewOf(db, snap, kid).(favorites := OwnFavorites(db.(favorites := favorites), kid))
  {
    var db' := db.(favorites := favorites);
    assert AllowList(db', kid) == AllowList(db, kid);
    assert OwnServices(db', kid) == OwnServices(db, kid);
    assert OwnIcons(db', kid) == OwnIcons(db, kid);
    assert OwnLayout(db', kid) == OwnLayout(db, kid);
  }

  lemma FavoriteWritten(db: Db, kid: Id, s: Id)
    requires s in AllowList(db, kid)
    ensures OwnFavorites(db.(favorites := db.favorites + {(kid, s)}), kid) == OwnFavorites(db, kid) + {s}
    ensures OwnFavorites(db.(favorites := db.favorites - {(kid, s)}), kid) == OwnFavorites(db, kid) - {s}
  {
    var up, down := db.(favorites := db.favorites + {(kid, s)}), db.(favorites := db.favorites - {(kid, s)});
    assert AllowList(up, kid) == AllowList(db, kid) == AllowList(down, kid);
  }

  // ---- one request

  /** What the two sides agree on before and after each step. */
  ghost predicate Agree(db1: Db, snap1: G.Snapshot, db2: Db, snap2: G.Snapshot, kid: Id)
  {
    KidDb(db1, kid) && KidDb(db2, kid) && SameView(db1, snap1, db2, snap2, kid)
  }

  lemma SameFavoriteWrite(db1: Db, snap1: G.Snapshot, db2: Db, snap2: G.Snapshot, kid: Id, s: Id)
    requires SameView(db1, snap1, db2, snap2, kid) && s in AllowList(db1, kid) && s in AllowList(db2, kid)
    ensures SameView(db1.(favorites := db1.favorites + {(kid, s)}), snap1,
            db2.(favorites := db2.favorites + {(kid, s)}), snap2, kid)
    ensures SameView(db1.(favorites := db1.favorites - {(kid, s)}), snap1,
            db2.(favorites := db2.favorites - {(kid, s)}), snap2, kid)
  {
    FavoriteWritten(db1, kid, s);
    FavoriteWritten(db2, kid, s);
    ViewWithFavorites(db1, db1.favorites + {(kid, s)}, snap1, kid);
    ViewWithFavorites(db2, db2.favorites + {(kid, s)}, snap2, kid);
    ViewWithFavorites(db1, db1.favorites - {(kid, s)}, snap1, kid);
    ViewWithFavorites(db2, db2.favorites - {(kid, s)}, snap2, kid);
  }

  lemma SameMeWrite(db1: Db, snap1: G.Snapshot, db2: Db, snap2: G.Snapshot, kid: Id, p: MePatch)
    requires SameView(db1, snap1, db2, snap2, kid) && kid in db1.users && kid in db2.users
    ensures var (d1, status1, body1) := ServePatchMe(db1, kid, p);
            var (d2, status2, body2) := ServePatchMe(db2, kid, p);
            status1 == status2 && body1 == body2 && SameView(d1, snap1, d2, snap2, kid)
  {
    assert db1.users[kid] == db2.users[kid];
    ViewWithUser(db1, PatchedMe(db1.users[kid], p), snap1, kid);
    ViewWithUser(db2, PatchedMe(db2.users[kid], p), snap2, kid);
  }

  lemma SameFavoriteCalls(db1: Db, snap1: G.Snapshot, db2: Db, snap2: G.Snapshot, kid: Id, s: Id)
    requires SameView(db1, snap1, db2, snap2, kid) && IsKid(db1, kid) && IsKid(db2, kid)
    requires AllowList(db1, kid) == AllowList(db2, kid)
    ensures var (d1, status1, body1) := ServePostFavorite(db1, kid, s);
            var (d2, status2, body2) := ServePostFavorite(db2, kid, s);
            status1 == status2 && body1 == body2 && SameView(d1, snap1, d2, snap2, kid)
    ensures var (d1, status1, body1) := ServeDeleteFavorite(db1, kid, s);
            var (d2, status2, body2) := ServeDeleteFavorite(db2, kid, s);
            status1 == status2 && body1 == body2 && SameView(d1, snap1, d2, snap2, kid)
  {
    KidReads(db1, kid, s);
    KidReads(db2, kid, s);
    if s in AllowList(db1, kid) { SameFavoriteWrite(db1, snap1, db2, snap2, kid, s); }
  }

  lemma SameRead(db1: Db, snap1: G.Snapshot, db2: Db, snap2: G.Snapshot, kid: Id, route: Route)
    requires Confined(db1, kid) && Confined(db2, kid) && SameView(db1, snap1, db2, snap2, kid)
    requires kid in db1.users && kid in db2.users
    requires Class(route).KidFiltered? && !route.PostFavorite? && !route.DeleteFavorite?
    ensures ServeFiltered(db1, snap1, kid, route).1 == ServeFiltered(db2, snap2, kid, route).1
    ensures ServeFiltered(db1, snap1, kid, route).2 == ServeFiltered(db2, snap2, kid, route).2
  {
    SameOrder(db1, db2, kid);
    match route
    case GetServices => SameServicesBody(db1, snap1, db2, snap2, kid);
    case GetCategories => SameCategoriesBody(db1, db2, kid);
    case GetCollapsed => CollapsedIsOwn(db1, kid); CollapsedIsOwn(db2, kid);
    case GetStatus => SameStatusBody(db1, snap1, db2, snap2, kid);
    case GetIcon(s, v, _) => SameIconBody(db1, db2, kid, s, v);
  }

  lemma FilteredReadsOnly(db: Db, snap: G.Snapshot, kid: Id, route: Route)
    requires kid in db.users && Class(route).KidFiltered? && !route.PostFavorite? && !route.DeleteFavorite?
    ensures ServeFiltered(db, snap, kid, route).0 == db
  {
  }

  lemma SameFiltered(db1: Db, snap1: G.Snapshot, db2: Db, snap2: G.Snapshot, kid: Id, route: Route)
    requires Confined(db1, kid) && Confined(db2, kid) && SameView(db1, snap1, db2, snap2, kid)
    requires IsKid(db1, kid) && IsKid(db2, kid) && Class(route).KidFiltered?
    ensures var (d1, status1, body1) := ServeFiltered(db1, snap1, kid, route);
            var (d2, status2, body2) := ServeFiltered(db2, snap2, kid, route);
            status1 == status2 && body1 == body2 && SameView(d1, snap1, d2, snap2, kid)
  {
    SameOrder(db1, db2, kid);
    match route
    case PostFavorite(s) => SameFavoriteCalls(db1, snap1, db2, snap2, kid, s);
    case DeleteFavorite(s) => SameFavoriteCalls(db1, snap1, db2, snap2, kid, s);
    case _ =>
      SameRead(db1, snap1, db2, snap2, kid, route);
      FilteredReadsOnly(db1, snap1, kid, route);
      FilteredReadsOnly(db2, snap2, kid, route);
  }

  lemma SameServe(db1: Db, snap1: G.Snapshot, db2: Db, snap2: G.Snapshot, kid: Id, route: Route)
    requires Confined(db1, kid) && Confined(db2, kid) && SameView(db1, snap1, db2, snap2, kid)
    requires IsKid(db1, kid) && IsKid(db2, kid) && !Guarded(Class(route)) && !route.Logout?
    ensures var (d1, status1, body1) := Serve(db1, snap1, kid, route);
            var (d2, status2, body2) := Serve(db2, snap2, kid, route);
            status1 == status2 && body1 == body2 && SameView(d1, snap1, d2, snap2, kid)
  {
    if Class(route).KidFiltered? {
      SameFiltered(db1, snap1, db2, snap2, kid, route);
    } else if route.PatchMe? {
      SameMeWrite(db1, snap1, db2, snap2, kid, route.patch);
    } else {
      assert db1.users[kid] == db2.users[kid];
    }
  }

  lemma KidReads(db: Db, kid: Id, s: Id)
    requires IsKid(db, kid)
    ensures Allows(VisibleServiceIDs(db, kid), s) <==> s in AllowList(db, kid)
  {
  }

  // ---- the invariant through a request

  lemma CallerKeepsInv(db: Db, token: S.Token, clock: int)
    requires Inv(db)
    ensures Inv(CurrentUser(db, token, clock).0)
  {
    var d := CurrentUser(db, token, clock).0;
    if d != db {
      StoreInvariant.SlideInv(db, token, S.Lifetime(db.users[db.sessions[token].userID].role), clock);
    }
  }

  lemma FavoriteKeepsInv(db: Db, kid: Id, s: Id)
    requires KidDb(db, kid)
    ensures KidDb(ServePostFavorite(db, kid, s).0, kid) && KidDb(ServeDeleteFavorite(db, kid, s).0, kid)
  {
    StoreInvariant.FavoriteInv(db, kid, s);
  }

  lemma PatchServed(db: Db, snap: G.Snapshot, kid: Id, p: MePatch)
    requires kid in db.users
    ensures Serve(db, snap, kid, PatchMe(p)) == ServePatchMe(db, kid, p)
  {
  }

  lemma FavoriteServed(db: Db, snap: G.Snapshot, kid: Id, s: Id)
    requires kid in db.users
    ensures Serve(db, snap, kid, PostFavorite(s)) == ServePostFavorite(db, kid, s)
    ensures Serve(db, snap, kid, DeleteFavorite(s)) == ServeDeleteFavorite(db, kid, s)
  {
  }

  lemma PatchServedInv(db: Db, snap: G.Snapshot, kid: Id, p: MePatch)
    requires KidDb(db, kid)
    ensures KidDb(Serve(db, snap, kid, PatchMe(p)).0, kid)
  {
    PatchServed(db, snap, kid, p);
    PatchKeepsInv(db, kid, p);
  }

  lemma FavoriteServedInv(db: Db, snap: G.Snapshot, kid: Id, s: Id)
    requires KidDb(db, kid)
    ensures KidDb(Serve(db, snap, kid, PostFavorite(s)).0, kid) && KidDb(Serve(db, snap, kid, DeleteFavorite(s)).0, kid)
  {
    FavoriteServed(db, snap, kid, s);
    FavoriteKeepsInv(db, kid, s);
  }

  lemma ServeKeepsInv(db: Db, snap: G.Snapshot, kid: Id, route: Route)
    requires KidDb(db, kid) && !Guarded(Class(route)) && !route.Logout?
    ensures KidDb(Serve(db, snap, kid, route).0, kid)
  {
    match route
    case PatchMe(p) => PatchServedInv(db, snap, kid, p);
    case PostFavorite(s) => FavoriteServedInv(db, snap, kid, s);
    case DeleteFavorite(s) => FavoriteServedInv(db, snap, kid, s);
    case _ => ReadsNothingWritten(db, snap, kid, route);
  }

  lemma PatchKeepsInv(db: Db, kid: Id, p: MePatch)
    requires KidDb(db, kid)
    ensures KidDb(ServePatchMe(db, kid, p).0, kid)
  {
    var d := ServePatchMe(db, kid, p).0;
    if d != db {
      assert Credentialed(db.users[kid]);
      StoreInvariant.UpdateUserInv(db, kid, d.users[kid]);
    }
  }

  lemma LogoutKeepsInv(db: Db, token: S.Token)
    requires Inv(db)
    ensures Inv(db.(sessions := S.Destroy(db.sessions, token)))
  {
    StoreInvariant.DropSessionsInv(db, {token});
  }

  lemma CallerIsKid(db: Db, kid: Id, token: S.Token, clock: int)
    requires OwnToken(db, kid, token)
    ensures var (d, who, _) := CurrentUser(db, token, clock);
            d.users == db.users && (who.Some? ==> who == Some(kid) && kid in d.users)
  {
  }

  lemma CallerStaysKid(db: Db, kid: Id, token: S.Token, clock: int)
    requires KidDb(db, kid) && OwnToken(db, kid, token)
    ensures var (d, who, _) := CurrentUser(db, token, clock);
            KidDb(d, kid) && (who.Some? ==> who == Some(kid))
  {
    CallerKeepsInv(db, token, clock);
    CallerIsKid(db, kid, token, clock);
  }

  lemma AnswerKeepsInv(db: Db, snap: G.Snapshot, kid: Id, who: Option<Id>, cookie: Cookie, route: Route)
    requires KidDb(db, kid) && (who.Some? ==> who == Some(kid)) && !route.Logout?
    ensures KidDb(Answer(db, snap, who, cookie, route).0, kid)
  {
    if who.Some? && !Guarded(Class(route)) { ServeKeepsInv(db, snap, kid, route); }
  }

  lemma HandleKeepsInv(db: Db, snap: G.Snapshot, kid: Id, req: Request)
    requires KidDb(db, kid) && OwnToken(db, kid, req.token)
    ensures KidDb(Handle(db, snap, req).0, kid)
  {
    if req.route.Logout? {
      LogoutKeepsInv(db, req.token);
    } else {
      var (d, who, cookie) := CurrentUser(db, req.token, req.clock);
      CallerStaysKid(db, kid, req.token, req.clock);
      AnswerKeepsInv(d, snap, kid, who, cookie, req.route);
    }
  }

  lemma SameAfterCaller(db1: Db, snap1: G.Snapshot, db2: Db, snap2: G.Snapshot, kid: Id, token: S.Token, clock: int)
    requires SameView(db1, snap1, db2, snap2, kid) && IsKid(db1, kid) && IsKid(db2, kid)
    requires OwnToken(db1, kid, token) && OwnToken(db2, kid, token)
    ensures var (d1, who1, cookie1) := CurrentUser(db1, token, clock);
            var (d2, who2, cookie2) := CurrentUser(db2, token, clock);
            && who1 == who2 && (who1.Some? ==> who1 == Some(kid)) && cookie1 == cookie2
            && SameView(d1, snap1, d2, snap2, kid) && d1.users == db1.users && d2.users == db2.users
  {
    assert db1.users[kid] == db2.users[kid];
    SameCaller(db1, db2, kid, token, clock);
    CurrentUserOnlySlides(db1, kid, token, clock);
    CurrentUserOnlySlides(db2, kid, token, clock);
    ViewWithSessions(db1, CurrentUser(db1, token, clock).0.sessions, snap1, kid);
    ViewWithSessions(db2, CurrentUser(db2, token, clock).0.sessions, snap2, kid);
  }

  lemma DestroyedOwn(db: Db, kid: Id, token: S.Token)
    ensures OwnSessions(db.(sessions := S.Destroy(db.sessions, token)), kid) == OwnSessions(db, kid) - {token}
  {
  }

  lemma SameLogout(db1: Db, snap1: G.Snapshot, db2: Db, snap2: G.Snapshot, kid: Id, token: S.Token)
    requires SameView(db1, snap1, db2, snap2, kid)
    ensures SameView(db1.(sessions := S.Destroy(db1.sessions, token)), snap1,
            db2.(sessions := S.Destroy(db2.sessions, token)), snap2, kid)
  {
    ViewWithSessions(db1, S.Destroy(db1.sessions, token), snap1, kid);
    ViewWithSessions(db2, S.Destroy(db2.sessions, token), snap2, kid);
    DestroyedOwn(db1, kid, token);
    DestroyedOwn(db2, kid, token);
  }

  /** One request of the kid, on any route: the same reply on both sides, and views still the same. */
  lemma SameAnswer(db1: Db, snap1: G.Snapshot, db2: Db, snap2: G.Snapshot, kid: Id, who: Option<Id>, cookie: Cookie,
                   route: Route)
    requires Confined(db1, kid) && Confined(db2, kid) && SameView(db1, snap1, db2, snap2, kid)
    requires IsKid(db1, kid) && IsKid(db2, kid) && (who.Some? ==> who == Some(kid)) && !route.Logout?
    ensures Answer(db1, snap1, who, cookie, route).1 == Answer(db2, snap2, who, cookie, route).1
    ensures SameView(Answer(db1, snap1, who, cookie, route).0, snap1,
                     Answer(db2, snap2, who, cookie, route).0, snap2, kid)
  {
    if who.Some? && !Guarded(Class(route)) {
      SameServe(db1, snap1, db2, snap2, kid, route);
    }
  }

  lemma CallerIsConfined(db: Db, kid: Id, token: S.Token, clock: int)
    requires Confined(db, kid)
    ensures Confined(CurrentUser(db, token, clock).0, kid)
  {
    CallerSlides(db, token, clock);
    SlideConfined(db, CurrentUser(db, token, clock).0.sessions, kid);
  }

  lemma SameReply(db1: Db, snap1: G.Snapshot, db2: Db, snap2: G.Snapshot, kid: Id, req: Request)
    requires Confined(db1, kid) && Confined(db2, kid) && SameView(db1, snap1, db2, snap2, kid)
    requires IsKid(db1, kid) && IsKid(db2, kid)
    requires OwnToken(db1, kid, req.token) && OwnToken(db2, kid, req.token)
    ensures Handle(db1, snap1, req).1 == Handle(db2, snap2, req).1
    ensures SameView(Handle(db1, snap1, req).0, snap1, Handle(db2, snap2, req).0, snap2, kid)
  {
    if req.route.Logout? {
      SameLogout(db1, snap1, db2, snap2, kid, req.token);
    } else {
      var (d1, who, cookie) := CurrentUser(db1, req.token, req.clock);
      var d2 := CurrentUser(db2, req.token, req.clock).0;
      SameAfterCaller(db1, snap1, db2, snap2, kid, req.token, req.clock);
      CallerIsConfined(db1, kid, req.token, req.clock);
      CallerIsConfined(db2, kid, req.token, req.clock);
      SameAnswer(d1, snap1, d2, snap2, kid, who, cookie, req.route);
    }
  }

  lemma SlideConfined(db: Db, m: S.Sessions, kid: Id)
    requires Confined(db, kid)
    ensures Confined(db.(sessions := m), kid)
  {
    var db' := db.(sessions := m);
    assert AllowList(db', kid) == AllowList(db, kid) && VisibleShared(db', kid) == VisibleShared(db, kid);
    assert OwnServices(db', kid) == OwnServices(db, kid);
  }

  // ---- runs

  /** The kid asks both sides; one side serves a call on its own; an admin of each gives the kid the same
      allow-list, edits an allowed service alike, or makes some other equal call on what the kid sees; either
      side restarts; both take a new snapshot; or each serves a call of its own that leaves the kid one view. */
  datatype Event =
    | Ask(req: Request)
    | Call1(op: StoreInvariant.Op) | Call2(op: StoreInvariant.Op)
    | Grant(ids: seq<Id>)
    | Edit(id: Id, owner1: Id, owner2: Id, patch: ServicePatch)
    | Twin(op1: StoreInvariant.Op, op2: StoreInvariant.Op)
    | Restarts(boot1: Option<Boot>, boot2: Option<Boot>)
    | Poll(snap1: G.Snapshot, snap2: G.Snapshot)
    | Regrant(op1: StoreInvariant.Op, op2: StoreInvariant.Op)

  datatype Side = Side(db: Db, snap: G.Snapshot)

  /** A call that does not touch the kid, with new random ids. */
  ghost predicate Apart(side: Side, kid: Id, op: StoreInvariant.Op)
  {
    StoreInvariant.Fresh(side.db, op) && !Touches(side.db, kid, op)
  }

  /** Requests carry the kid's own token. Equal calls are accepted by both sides or by neither, and the rows that a
      grant or an edit brings into view agree; restarts leave the allowed services the same sources; snapshots
      agree on the time and on the kid's services. */
  ghost predicate Admissible(a: Side, b: Side, kid: Id, e: Event)
  {
    match e
    case Ask(req) => OwnToken(a.db, kid, req.token) && OwnToken(b.db, kid, req.token)
    case Call1(op) => Apart(a, kid, op)
    case Call2(op) => Apart(b, kid, op)
    case Grant(ids) =>
      && (SetKidServices(a.db, kid, ids).1 == Ok <==> SetKidServices(b.db, kid, ids).1 == Ok)
      && (SetKidServices(a.db, kid, ids).1 == Ok ==> RowsAgree(a.db, a.snap, b.db, b.snap, kid, Members(ids)))
    case Edit(id, owner1, owner2, patch) =>
      && id in AllowList(a.db, kid)
      && (UpdateService(a.db, id, owner1, patch).1 == Ok <==> UpdateService(b.db, id, owner2, patch).1 == Ok)
      && (UpdateService(a.db, id, owner1, patch).1 == Ok ==> EditAgrees(a.db, a.snap, b.db, b.snap, kid, patch))
    case Twin(op1, op2) =>
      StoreInvariant.Fresh(a.db, op1) && StoreInvariant.Fresh(b.db, op2) && Twins(a.db, op1, b.db, op2, kid)
    case Restarts(boot1, boot2) => SourcesAgree(a.db, boot1, b.db, boot2, AllowList(a.db, kid))
    case Regrant(op1, op2) =>
      && StoreInvariant.Fresh(a.db, op1) && StoreInvariant.Fresh(b.db, op2)
      && IsKid(Step1(a, kid, e).db, kid) && IsKid(Step2(b, kid, e).db, kid)
      && SameView(Step1(a, kid, e).db, a.snap, Step2(b, kid, e).db, b.snap, kid)
    case Poll(snap1, snap2) =>
      snap1.asOf == snap2.asOf && OwnStatuses(a.db, snap1, kid) == OwnStatuses(b.db, snap2, kid)
  }

  function Step1(a: Side, kid: Id, e: Event): Side
  {
    match e
    case Ask(req) => a.(db := Handle(a.db, a.snap, req).0)
    case Call1(op) => a.(db := StoreInvariant.Apply(a.db, op).0)
    case Grant(ids) => a.(db := SetKidServices(a.db, kid, ids).0)
    case Edit(id, owner1, _, patch) => a.(db := UpdateService(a.db, id, owner1, patch).0)
    case Twin(op1, _) => a.(db := StoreInvariant.Apply(a.db, op1).0)
    case Restarts(boot1, _) => a.(db := Rebooted(a.db, boot1))
    case Regrant(op1, _) => a.(db := StoreInvariant.Apply(a.db, op1).0)
    case Poll(snap1, _) => a.(snap := snap1)
    case _ => a
  }

  function Step2(b: Side, kid: Id, e: Event): Side
  {
    match e
    case Ask(req) => b.(db := Handle(b.db, b.snap, req).0)
    case Call2(op) => b.(db := StoreInvariant.Apply(b.db, op).0)
    case Grant(ids) => b.(db := SetKidServices(b.db, kid, ids).0)
    case Edit(id, _, owner2, patch) => b.(db := UpdateService(b.db, id, owner2, patch).0)
    case Twin(_, op2) => b.(db := StoreInvariant.Apply(b.db, op2).0)
    case Restarts(_, boot2) => b.(db := Rebooted(b.db, boot2))
    case Regrant(_, op2) => b.(db := StoreInvariant.Apply(b.db, op2).0)
    case Poll(_, snap2) => b.(snap := snap2)
    case _ => b
  }

  ghost predicate AdmissibleRun(a: Side, b: Side, kid: Id, events: seq<Event>)
    decreases |events|
  {
    events == [] ||
    (Admissible(a, b, kid, events[0]) &&
      AdmissibleRun(Step1(a, kid, events[0]), Step2(b, kid, events[0]), kid, events[1..]))
  }

  function Replies1(a: Side, kid: Id, events: seq<Event>): seq<Reply>
    decreases |events|
  {
    if events == [] then []
    else
      (if events[0].Ask? then [Handle(a.db, a.snap, events[0].req).1] else []) +
      Replies1(Step1(a, kid, events[0]), kid, events[1..])
  }

  function Replies2(b: Side, kid: Id, events: seq<Event>): seq<Reply>
    decreases |events|
  {
    if events == [] then []
    else
      (if events[0].Ask? then [Handle(b.db, b.snap, events[0].req).1] else []) +
      Replies2(Step2(b, kid, events[0]), kid, events[1..])
  }

  lemma CallKeepsAgreement(side: Side, kid: Id, op: StoreInvariant.Op)
    requires KidDb(side.db, kid) && Apart(side, kid, op)
    ensures var d := StoreInvariant.Apply(side.db, op).0;
            KidDb(d, kid) && ViewOf(d, side.snap, kid) == ViewOf(side.db, side.snap, kid)
  {
    StoreInvariant.OpInv(side.db, op);
    UnseenCall(side.db, side.snap, op, kid);
    var d := StoreInvariant.Apply(side.db, op).0;
    assert ViewOf(d, side.snap, kid).user == ViewOf(side.db, side.snap, kid).user;
  }

  lemma GrantKeepsKid(db: Db, kid: Id, ids: seq<Id>)
    requires KidDb(db, kid)
    ensures KidDb(SetKidServices(db, kid, ids).0, kid)
    ensures SetKidServices(db, kid, ids).1 != Ok ==> SetKidServices(db, kid, ids).0 == db
  {
    StoreInvariant.SetKidServicesInv(db, kid, ids);
  }

  lemma EditKeepsUsers(db: Db, id: Id, owner: Id, patch: ServicePatch)
    ensures UpdateService(db, id, owner, patch).0.users == db.users
    ensures UpdateService(db, id, owner, patch).1 != Ok ==> UpdateService(db, id, owner, patch).0 == db
  {
  }

  lemma EditKeepsKid(db: Db, kid: Id, id: Id, owner: Id, patch: ServicePatch)
    requires KidDb(db, kid)
    ensures KidDb(UpdateService(db, id, owner, patch).0, kid)
    ensures UpdateService(db, id, owner, patch).1 != Ok ==> UpdateService(db, id, owner, patch).0 == db
  {
    StoreInvariant.UpdateServiceInv(db, id, owner, patch);
    EditKeepsUsers(db, id, owner, patch);
  }

  lemma RestartKeepsKid(db: Db, kid: Id, boot: Option<Boot>)
    requires KidDb(db, kid)
    ensures KidDb(Rebooted(db, boot), kid)
  {
    if boot.Some? { MigratedStore.RestartKeepsInv(db, boot.value.pick, boot.value.entries); }
  }

  lemma GrantKeepsAgreement(a: Side, b: Side, kid: Id, ids: seq<Id>)
    requires Agree(a.db, a.snap, b.db, b.snap, kid) && Admissible(a, b, kid, Grant(ids))
    ensures Agree(SetKidServices(a.db, kid, ids).0, a.snap, SetKidServices(b.db, kid, ids).0, b.snap, kid)
  {
    GrantKeepsKid(a.db, kid, ids);
    GrantKeepsKid(b.db, kid, ids);
    if SetKidServices(a.db, kid, ids).1 == Ok { GrantKeepsView(a.db, a.snap, b.db, b.snap, kid, ids); }
  }

  lemma EditKeepsAgreement(a: Side, b: Side, kid: Id, id: Id, owner1: Id, owner2: Id, patch: ServicePatch)
    requires Agree(a.db, a.snap, b.db, b.snap, kid) && Admissible(a, b, kid, Edit(id, owner1, owner2, patch))
    ensures Agree(UpdateService(a.db, id, owner1, patch).0, a.snap,
                  UpdateService(b.db, id, owner2, patch).0, b.snap, kid)
  {
    EditKeepsKid(a.db, kid, id, owner1, patch);
    EditKeepsKid(b.db, kid, id, owner2, patch);
    if UpdateService(a.db, id, owner1, patch).1 == Ok {
      EditKeepsView(a.db, a.snap, b.db, b.snap, kid, id, owner1, owner2, patch);
    }
  }

  lemma TwinsKeepAgreement(a: Side, b: Side, kid: Id, op1: StoreInvariant.Op, op2: StoreInvariant.Op)
    requires Agree(a.db, a.snap, b.db, b.snap, kid) && Admissible(a, b, kid, Twin(op1, op2))
    ensures Agree(StoreInvariant.Apply(a.db, op1).0, a.snap, StoreInvariant.Apply(b.db, op2).0, b.snap, kid)
  {
    StoreInvariant.OpInv(a.db, op1);
    StoreInvariant.OpInv(b.db, op2);
    TwinStaysKid(a.db, op1, kid);
    PairedBoth(op1, op2, kid);
    TwinStaysKid(b.db, op2, kid);
    TwinsKeepView(a.db, a.snap, op1, b.db, b.snap, op2, kid);
  }

  lemma RestartsKeepAgreement(a: Side, b: Side, kid: Id, boot1: Option<Boot>, boot2: Option<Boot>)
    requires Agree(a.db, a.snap, b.db, b.snap, kid) && Admissible(a, b, kid, Restarts(boot1, boot2))
    ensures Agree(Rebooted(a.db, boot1), a.snap, Rebooted(b.db, boot2), b.snap, kid)
  {
    RestartKeepsKid(a.db, kid, boot1);
    RestartKeepsKid(b.db, kid, boot2);
    RestartKeepsView(a.db, a.snap, b.db, b.snap, kid, boot1, boot2);
  }

  lemma EventKeepsAgreement(a: Side, b: Side, kid: Id, e: Event)
    requires Agree(a.db, a.snap, b.db, b.snap, kid) && Admissible(a, b, kid, e)
    ensures Agree(Step1(a, kid, e).db, Step1(a, kid, e).snap, Step2(b, kid, e).db, Step2(b, kid, e).snap, kid)
    ensures e.Ask? ==> Handle(a.db, a.snap, e.req).1 == Handle(b.db, b.snap, e.req).1
  {
    match e
    case Ask(req) =>
      KidIsConfined(a.db, kid);
      KidIsConfined(b.db, kid);
      SameReply(a.db, a.snap, b.db, b.snap, kid, req);
      HandleKeepsInv(a.db, a.snap, kid, req);
      HandleKeepsInv(b.db, b.snap, kid, req);
    case Call1(op) => CallKeepsAgreement(a, kid, op);
    case Call2(op) => CallKeepsAgreement(b, kid, op);
    case Grant(ids) => GrantKeepsAgreement(a, b, kid, ids);
    case Edit(id, owner1, owner2, patch) => EditKeepsAgreement(a, b, kid, id, owner1, owner2, patch);
    case Twin(op1, op2) => TwinsKeepAgreement(a, b, kid, op1, op2);
    case Restarts(boot1, boot2) => RestartsKeepAgreement(a, b, kid, boot1, boot2);
    case Regrant(op1, op2) =>
      StoreInvariant.OpInv(a.db, op1);
      StoreInvariant.OpInv(b.db, op2);
    case Poll(_, _) =>
  }

  /** Non-interference: the kid cannot tell two such runs apart. */
  lemma {:induction false} KidCannotTell(a: Side, b: Side, kid: Id, events: seq<Event>)
    requires Agree(a.db, a.snap, b.db, b.snap, kid) && AdmissibleRun(a, b, kid, events)
    ensures Replies1(a, kid, events) == Replies2(b, kid, events)
    decreases |events|
  {
    if events != [] {
      EventKeepsAgreement(a, b, kid, events[0]);
      KidCannotTell(Step1(a, kid, events[0]), Step2(b, kid, events[0]), kid, events[1..]);
    }
  }
}
