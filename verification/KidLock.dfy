/** The kid write lock: over any run of requests with its own tokens, an account that is neither
    admin nor user changes only its theme, its favorites on services it may see, and its own
    session rows. */
module KidLock {
  import opened Base
  import opened Schema
  import opened Listings
  import opened Server
  import S = SessionSpec
  import G = Gatus

  /** `db'` differs from `db` only where the lock lets `u`, using `tokens`, write. */
  ghost predicate OnlyOwn(db: Db, db': Db, u: Id, tokens: set<S.Token>)
  {
    && db' == db.(users := db'.users, favorites := db'.favorites, sessions := db'.sessions)
    && ThemeOnly(db.users, db'.users, u)
    && FavoritesOnly(db.favorites, db'.favorites, u, AllowList(db, u))
    && SessionsOnly(db.sessions, db'.sessions, tokens)
  }

  ghost predicate ThemeOnly(users: map<Id, User>, users': map<Id, User>, u: Id)
  {
    u in users && u in users' && users' == users[u := users[u].(theme := users'[u].theme)]
  }

  ghost predicate FavoritesOnly(favorites: set<(Id, Id)>, favorites': set<(Id, Id)>, u: Id, allowed: set<Id>)
  {
    forall f | f in (favorites - favorites') + (favorites' - favorites) :: f.0 == u && f.1 in allowed
  }

  /** Rows of other tokens stand; the rest may slide or go, but none appears or changes hands. */
  ghost predicate SessionsOnly(m: S.Sessions, m': S.Sessions, tokens: set<S.Token>)
  {
    && (forall t | t in m && t !in tokens :: t in m' && m'[t] == m[t])
    && (forall t | t in m' :: t in m && m'[t].userID == m[t].userID && m'[t].handle == m[t].handle
                              && m'[t].createdAt == m[t].createdAt && m'[t].userAgent == m[t].userAgent)
  }

  ghost predicate OwnToken(db: Db, u: Id, token: S.Token)
  {
    token in db.sessions ==> db.sessions[token].userID == u
  }

  lemma CurrentUserOnlySlides(db: Db, u: Id, token: S.Token, clock: int)
    requires OwnToken(db, u, token)
    ensures var (d, who, cookie) := CurrentUser(db, token, clock);
            && d == db.(sessions := d.sessions) && SessionsOnly(db.sessions, d.sessions, {token})
            && (who.Some? ==> who == Some(u) && u in db.users)
            && (who.Some? <==> S.Lookup(db.sessions, token, clock).Found? && u in db.users)
  {
  }

  lemma PatchMeChangesTheme(db: Db, u: Id, p: MePatch)
    requires u in db.users && !IsAdult(db, u)
    ensures var d := ServePatchMe(db, u, p).0;
            && d == db.(users := d.users) && ThemeOnly(db.users, d.users, u)
            && (p.otherKeys ==> ServePatchMe(db, u, p) == (db, 403, NoBody))
  {
    assert db.users == db.users[u := db.users[u].(theme := db.users[u].theme)];
  }

  lemma FavoriteOnlyOwn(db: Db, u: Id, s: Id)
    requires u in db.users && !IsAdult(db, u)
    ensures OnlyOwn(db, ServePostFavorite(db, u, s).0, u, {}) && OnlyOwn(db, ServeDeleteFavorite(db, u, s).0, u, {})
  {
    assert db.users == db.users[u := db.users[u].(theme := db.users[u].theme)];
  }

  lemma SameIsOnlyOwn(db: Db, u: Id)
    requires u in db.users
    ensures OnlyOwn(db, db, u, {})
  {
    assert db.users == db.users[u := db.users[u].(theme := db.users[u].theme)];
  }

  lemma ReadsNothingWritten(db: Db, snap: G.Snapshot, u: Id, route: Route)
    requires u in db.users && !Guarded(Class(route)) && !route.Logout?
    requires !route.PatchMe? && !route.PostFavorite? && !route.DeleteFavorite?
    ensures Serve(db, snap, u, route).0 == db
  {
  }

  lemma ServeOnlyOwn(db: Db, snap: G.Snapshot, u: Id, route: Route)
    requires u in db.users && !IsAdult(db, u) && !Guarded(Class(route)) && !route.Logout?
    ensures OnlyOwn(db, Serve(db, snap, u, route).0, u, {})
  {
    match route
    case PatchMe(p) => PatchMeChangesTheme(db, u, p);
    case PostFavorite(s) => FavoriteOnlyOwn(db, u, s);
    case DeleteFavorite(s) => FavoriteOnlyOwn(db, u, s);
    case _ =>
      ReadsNothingWritten(db, snap, u, route);
      SameIsOnlyOwn(db, u);
  }

  lemma AnswerOnlyOwn(db: Db, snap: G.Snapshot, u: Id, who: Option<Id>, cookie: Cookie, route: Route)
    requires u in db.users && !IsAdult(db, u) && (who.Some? ==> who == Some(u)) && !route.Logout?
    ensures OnlyOwn(db, Answer(db, snap, who, cookie, route).0, u, {})
  {
    SameIsOnlyOwn(db, u);
    if who.Some? && !Guarded(Class(route)) {
      ServeOnlyOwn(db, snap, u, route);
    }
  }

  lemma SessionsAreOwn(db: Db, m: S.Sessions, u: Id, tokens: set<S.Token>)
    requires u in db.users && SessionsOnly(db.sessions, m, tokens)
    ensures OnlyOwn(db, db.(sessions := m), u, tokens)
  {
    assert db.users == db.users[u := db.users[u].(theme := db.users[u].theme)];
  }

  /** One request of a non-adult account, on any route that needs a session. */
  lemma StepOnlyOwn(db: Db, snap: G.Snapshot, u: Id, req: Request)
    requires u in db.users && !IsAdult(db, u) && OwnToken(db, u, req.token)
    ensures OnlyOwn(db, Handle(db, snap, req).0, u, {req.token})
  {
    if req.route.Logout? {
      SessionsAreOwn(db, S.Destroy(db.sessions, req.token), u, {req.token});
    } else {
      CurrentUserOnlySlides(db, u, req.token, req.clock);
      var (d, who, cookie) := CurrentUser(db, req.token, req.clock);
      SessionsAreOwn(db, d.sessions, u, {req.token});
      AnswerOnlyOwn(d, snap, u, who, cookie, req.route);
      OnlyOwnTransitive(db, d, Handle(db, snap, req).0, u, {req.token}, {});
      assert {req.token} + {} == {req.token};
    }
  }

  /** Every guarded route answers 403 to a live session of such an account, whatever the route would do. */
  lemma GuardedAnswers403(db: Db, snap: G.Snapshot, u: Id, req: Request)
    requires u in db.users && !IsAdult(db, u) && OwnToken(db, u, req.token) && Guarded(Class(req.route))
    ensures var (db', reply) := Handle(db, snap, req);
            && reply.status == (if S.Lookup(db.sessions, req.token, req.clock).Found? then 403 else 401)
            && reply.body == NoBody && db' == db.(sessions := db'.sessions)
  {
    CurrentUserOnlySlides(db, u, req.token, req.clock);
  }

  lemma OnlyOwnTransitive(a: Db, b: Db, c: Db, u: Id, s: set<S.Token>, t: set<S.Token>)
    requires OnlyOwn(a, b, u, s) && OnlyOwn(b, c, u, t)
    ensures OnlyOwn(a, c, u, s + t)
  {
    assert AllowList(a, u) == AllowList(b, u);
    FavoritesTransitive(a.favorites, b.favorites, c.favorites, u, AllowList(a, u));
    SessionsTransitive(a.sessions, b.sessions, c.sessions, s, t);
  }

  lemma FavoritesTransitive(a: set<(Id, Id)>, b: set<(Id, Id)>, c: set<(Id, Id)>, u: Id, allowed: set<Id>)
    requires FavoritesOnly(a, b, u, allowed) && FavoritesOnly(b, c, u, allowed)
    ensures FavoritesOnly(a, c, u, allowed)
  {
    assert (a - c) + (c - a) <= (a - b) + (b - a) + (b - c) + (c - b);
  }

  lemma SessionsTransitive(a: S.Sessions, b: S.Sessions, c: S.Sessions, s: set<S.Token>, t: set<S.Token>)
    requires SessionsOnly(a, b, s) && SessionsOnly(b, c, t)
    ensures SessionsOnly(a, c, s + t)
  {
  }

  function Tokens(reqs: seq<Request>): set<S.Token>
  {
    set i | 0 <= i < |reqs| :: reqs[i].token
  }

  function After(db: Db, snap: G.Snapshot, reqs: seq<Request>): Db
    decreases |reqs|
  {
    if reqs == [] then db else After(Handle(db, snap, reqs[0]).0, snap, reqs[1..])
  }

  /** The lock over a whole run of requests. */
  lemma {:induction false} RunOnlyOwn(db: Db, snap: G.Snapshot, u: Id, reqs: seq<Request>)
    requires u in db.users && !IsAdult(db, u)
    requires forall i | 0 <= i < |reqs| :: OwnToken(db, u, reqs[i].token)
    ensures OnlyOwn(db, After(db, snap, reqs), u, Tokens(reqs))
    decreases |reqs|
  {
    if reqs == [] {
      assert db.users == db.users[u := db.users[u].(theme := db.users[u].theme)];
    } else {
      var d := Handle(db, snap, reqs[0]).0;
      StepOnlyOwn(db, snap, u, reqs[0]);
      RunOnlyOwn(d, snap, u, reqs[1..]);
      OnlyOwnTransitive(db, d, After(db, snap, reqs), u, {reqs[0].token}, Tokens(reqs[1..]));
      TokensCons(reqs);
    }
  }

  lemma TokensCons(reqs: seq<Request>)
    requires reqs != []
    ensures Tokens(reqs) == {reqs[0].token} + Tokens(reqs[1..])
  {
    forall t | t in Tokens(reqs) ensures t in {reqs[0].token} + Tokens(reqs[1..]) {
      var i :| 0 <= i < |reqs| && reqs[i].token == t;
      if i > 0 { assert reqs[1..][i - 1].token == t; }
    }
    forall t | t in Tokens(reqs[1..]) ensures t in Tokens(reqs) {
      var i :| 0 <= i < |reqs| - 1 && reqs[1..][i].token == t;
      assert reqs[i + 1].token == t;
    }
  }
}
