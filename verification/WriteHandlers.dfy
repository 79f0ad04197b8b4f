/** The handlers of a user's own state as they run, store call by store call, on the database they change. */
module WriteHandlers {
  import opened Base
  import opened Schema
  import opened Statements
  import opened Listings
  import opened Server
  import S = SessionSpec
  import UserAgent

  function WithUser(db: Db, u: Id, user: User): Db
  {
    db.(users := db.users[u := user])
  }

  /** One store call, where the preference is given. */
  function Saved(user: User, pref: Option<Pref>): User
  {
    if pref.Some? then WithPref(user, pref.value) else user
  }

  function ThemeOf(p: MePatch): Option<Pref> { if p.theme.Given? then Some(ThemePref(p.theme.value)) else None }

  function DensityOf(p: MePatch): Option<Pref> { if p.density.Given? then Some(DensityPref(p.density.value)) else None }

  function HealthBarOf(p: MePatch): Option<Pref>
  {
    if p.healthBar.Some? then Some(HealthBarPref(p.healthBar.value)) else None
  }

  function UptimeOf(p: MePatch): Option<Pref> { if p.uptime.Some? then Some(UptimePref(p.uptime.value)) else None }

  lemma SavedInTurn(user: User, p: MePatch)
    ensures Saved(Saved(Saved(Saved(user, ThemeOf(p)), DensityOf(p)), HealthBarOf(p)), UptimeOf(p)) ==
            PatchedMe(user, p)
  {
  }

  lemma Overwritten(db: Db, u: Id, a: User, b: User)
    ensures WithUser(WithUser(db, u, a), u, b) == WithUser(db, u, b)
  {
    assert db.users[u := a][u := b] == db.users[u := b];
  }

  class Api {
    var db: Db

    constructor (db: Db)
      ensures this.db == db
    {
      this.db := db;
    }

    /** Lookup, then the user, then the slide. */
    method CurrentUser(token: S.Token, clock: int) returns (who: Option<Id>, cookie: Cookie)
      modifies this
      ensures (db, who, cookie) == Server.CurrentUser(old(db), token, clock)
      ensures db == old(db).(sessions := db.sessions) && db.sessions.Keys == old(db).sessions.Keys
      ensures forall t | t in db.sessions && t != token :: db.sessions[t] == old(db).sessions[t]
      ensures who.Some? ==> token in db.sessions && db.sessions[token].userID == who.value && who.value in db.users
    {
      var found := S.Lookup(db.sessions, token, clock);
      if !found.Found? {
        return None, Keep;
      }
      var sess := found.session;
      if sess.userID !in db.users {
        return None, Keep;
      }
      cookie := Keep;
      if sess.touchDue {
        var lifetime := S.Lifetime(db.users[sess.userID].role);
        var (m, r) := S.Touch(db.sessions, token, lifetime, clock);
        db := db.(sessions := m);
        if r == S.Slid(true) {
          cookie := Issue(token, lifetime / S.SECOND);
        }
      }
      return Some(sess.userID), cookie;
    }

    /** Checks the whole body, then saves one preference after the other. */
    method PatchMe(u: Id, p: MePatch) returns (status: int, body: Body)
      requires u in db.users
      modifies this
      ensures (db, status, body) == ServePatchMe(old(db), u, p)
    {
      if !IsAdultRole(db.users[u].role) && (p.otherKeys || !p.density.Absent? || p.healthBar.Some? || p.uptime.Some?) {
        return 403, NoBody;
      }
      if p.theme.Absent? && p.density.Absent? && p.healthBar.None? && p.uptime.None? {
        return 400, NoBody;
      }
      if p.theme.Invalid? || p.density.Invalid? {
        return 400, NoBody;
      }
      SavePrefs(u, p);
      return 200, Me(u, db.users[u]);
    }

    /** One store call for each preference that is given. */
    method SavePrefs(u: Id, p: MePatch)
      requires u in db.users
      modifies this
      ensures db == WithUser(old(db), u, PatchedMe(old(db).users[u], p))
    {
      ghost var start, user := db, db.users[u];
      ghost var u1 := Saved(user, ThemeOf(p));
      ghost var u2 := Saved(u1, DensityOf(p));
      ghost var u3 := Saved(u2, HealthBarOf(p));
      SavedInTurn(user, p);
      Save(u, ThemeOf(p));
      Save(u, DensityOf(p));
      Overwritten(start, u, u1, u2);
      Save(u, HealthBarOf(p));
      Overwritten(start, u, u2, u3);
      Save(u, UptimeOf(p));
      Overwritten(start, u, u3, Saved(u3, UptimeOf(p)));
    }

    method Save(u: Id, pref: Option<Pref>)
      requires u in db.users
      modifies this
      ensures db == WithUser(old(db), u, Saved(old(db).users[u], pref))
    {
      if pref.Some? {
        var (d, err) := SetPref(db, u, pref.value);
        db := d;
      } else {
        assert db.users == db.users[u := db.users[u]];
      }
    }

    method AddFavorite(u: Id, s: Id) returns (status: int)
      modifies this
      ensures (db, status, NoBody) == ServePostFavorite(old(db), u, s)
      ensures status == (if Allows(VisibleServiceIDs(old(db), u), s) && u in old(db).users && s in old(db).services
                         then 204 else 404)
      ensures db == if status == 204 then old(db).(favorites := old(db).favorites + {(u, s)}) else old(db)
    {
      if !Allows(VisibleServiceIDs(db, u), s) {
        return 404;
      }
      if u !in db.users || s !in db.services {
        return 404;    // foreign key
      }
      db := db.(favorites := db.favorites + {(u, s)});
      return 204;
    }

    method RemoveFavorite(u: Id, s: Id) returns (status: int)
      modifies this
      ensures (db, status, NoBody) == ServeDeleteFavorite(old(db), u, s)
      ensures status == (if Allows(VisibleServiceIDs(old(db), u), s) then 204 else 404)
      ensures db == if status == 204 then old(db).(favorites := old(db).favorites - {(u, s)}) else old(db)
    {
      if !Allows(VisibleServiceIDs(db, u), s) {
        return 404;
      }
      db := db.(favorites := db.favorites - {(u, s)});
      return 204;
    }

    /** Signs `u` in: creates the session, then ends the one the browser carried, if that can be done.
        `createFails` and `destroyFails` are the store's errors. */
    method StartSession(u: Id, token: S.Token, handle: nat, carried: Option<S.Token>, userAgent: UserAgent.Bytes,
                        clock: int,
                        createFails: bool, destroyFails: bool) returns (ok: bool, cookie: Cookie)
      requires u in db.users && token !in db.sessions
      modifies this
      ensures ok == !createFails && (!ok ==> db == old(db) && cookie == Keep)
      ensures ok ==> var lifetime := S.Lifetime(old(db).users[u].role);
                     && cookie == Issue(token, lifetime / S.SECOND)
                     && token in db.sessions && db.sessions[token].userID == u
                     && db.sessions[token].expiresAt == S.ClockNow(clock) + lifetime
      ensures ok && !destroyFails && carried.Some? && carried.value != token && carried.value != "" ==>
                carried.value !in db.sessions
      ensures forall t | t in old(db).sessions && Some(t) != carried ::
                t in db.sessions && db.sessions[t] == old(db).sessions[t]
      ensures forall t | t in db.sessions && t != token ::
                t in old(db).sessions && db.sessions[t] == old(db).sessions[t]
      ensures db == old(db).(sessions := db.sessions)
    {
      var lifetime := S.Lifetime(db.users[u].role);
      if createFails {
        return false, Keep;
      }
      db := db.(sessions := S.Create(db.sessions, token, handle, u, lifetime, userAgent, clock).0);
      if carried.Some? && carried.value != "" && carried.value != token && !destroyFails {
        db := db.(sessions := S.Destroy(db.sessions, carried.value));
      }
      return true, Issue(token, lifetime / S.SECOND);
    }
  }
}
