/** What a saved change means for what is read afterwards, and for whom it means nothing. */
module ReadBacks {
  import opened Base
  import opened Schema
  import opened Statements
  import opened Listings
  import opened Server
  import S = SessionSpec
  import G = Gatus

  /** A live session slides when it was last seen a minute ago or more, to its account's full lifetime from now; the
      cookie is re-issued exactly then, for exactly as long: 180 days for a kid, 30 for anyone else. */
  lemma CookieFollowsSession(db: Db, token: S.Token, clock: int)
    ensures var (d, who, cookie) := CurrentUser(db, token, clock);
            && (cookie.Issue? <==> d != db)
            && (cookie.Issue? <==> who.Some? && S.ClockNow(clock) - db.sessions[token].lastSeenAt >= 60_000_000_000)
            && (cookie.Issue? ==> cookie.token == token && token in d.sessions
                                  && cookie.maxAge == (if db.users[who.value].role == Kid then 180 else 30) * 24 * 3600
                                  && d.sessions[token].lastSeenAt == S.ClockNow(clock)
                                  && d.sessions[token].expiresAt == S.ClockNow(clock) + cookie.maxAge * 1_000_000_000)
            && !cookie.Clear?
  {
    var (d, who, cookie) := CurrentUser(db, token, clock);
    if cookie.Issue? {
      assert d.sessions[token].lastSeenAt != db.sessions[token].lastSeenAt;
    }
  }

  /** A saved PATCH /api/me is what GET /api/me then shows, field by field; a refused one changes nothing. */
  lemma PatchMeReadsBack(db: Db, snap: G.Snapshot, u: Id, p: MePatch)
    requires u in db.users
    ensures var (db', status, body) := ServePatchMe(db, u, p);
            && (status != 200 ==> db' == db)
            && (status == 200 ==>
                  u in db'.users && body == Serve(db', snap, u, GetMe).2 && body.Me? &&
                  var was, now := db.users[u], body.user;
                  && (if p.theme.Given? then now.theme == p.theme.value else now.theme == was.theme)
                  && (if p.density.Given? then now.density == p.density.value else now.density == was.density)
                  && now.showHealthBar == (if p.healthBar.Some? then p.healthBar.value else was.showHealthBar)
                  && (if p.uptime.Some? then now.showUptime == p.uptime.value else now.showUptime == was.showUptime))
            && forall v | v in db.users && v != u ::
                 v in db'.users && Serve(db', snap, v, GetMe).2 == Serve(db, snap, v, GetMe).2
  {
  }

  /** PATCH /api/me is refused 403 exactly when it names anything but the theme for an account that is no grown-up's,
      400 exactly when it then gives nothing or a value outside its field's choices, and saved otherwise. */
  lemma PatchMeAnswers(db: Db, u: Id, p: MePatch)
    requires u in db.users
    ensures var status := ServePatchMe(db, u, p).1;
            var grown := db.users[u].role == Admin || db.users[u].role == Adult;
            var more := p.otherKeys || p.density.Given? || p.density.Invalid? || p.healthBar.Some? || p.uptime.Some?;
            var given := p.theme.Given? || p.density.Given? || p.healthBar.Some? || p.uptime.Some?;
            && (status == 403 <==> !grown && more)
            && (status == 400 <==> (grown || !more) && (p.theme.Invalid? || p.density.Invalid? || !given))
            && (status == 200 <==> (grown || !more) && given && !p.theme.Invalid? && !p.density.Invalid?)
  {
  }

  /** A marked favorite shows on that viewer's tile of that service, and on no other tile of anyone. */
  lemma FavoriteReadsBack(db: Db, snap: G.Snapshot, u: Id, s: Id)
    requires u in db.users && s in db.services
    ensures var (db', status, _) := ServePostFavorite(db, u, s);
            && status == (if Allows(VisibleServiceIDs(db, u), s) then 204 else 404)
            && db'.services == db.services
            && (status == 204 ==> TileOf(db', snap, u, s).favorite)
            && forall v, t | t in db.services && (status != 204 || v != u || t != s) ::
                 TileOf(db', snap, v, t) == TileOf(db, snap, v, t)
  {
  }

  /** Unmarking it takes back exactly what marking it did. */
  lemma FavoriteUndone(db: Db, snap: G.Snapshot, u: Id, s: Id)
    requires u in db.users && s in db.services && Allows(VisibleServiceIDs(db, u), s)
    ensures var marked := ServePostFavorite(db, u, s).0;
            var (unmarked, status, _) := ServeDeleteFavorite(marked, u, s);
            && status == 204 && unmarked.services == db.services && !TileOf(unmarked, snap, u, s).favorite
            && ((u, s) !in db.favorites ==> unmarked == db)
  {
    var marked := ServePostFavorite(db, u, s).0;
    assert VisibleServiceIDs(marked, u) == VisibleServiceIDs(db, u) by {
      assert AllowList(marked, u) == AllowList(db, u);
    }
    if (u, s) !in db.favorites {
      assert db.favorites + {(u, s)} - {(u, s)} == db.favorites;
    }
  }

  /** A saved collapse set reads back as the given ids that name live categories, and no one else's changes. */
  lemma CollapsedReadsBack(db: Db, u: Id, ids: seq<Id>, v: Id)
    requires IsAdult(db, u) && IsAdult(db, v) && v != u
    ensures var (db', err) := SetCollapsed(db, u, ids);
            && err == Ok
            && (forall c :: c in CollapsedBody(db', u) <==> c in ids && c in db.categories)
            && CollapsedBody(db', v) == CollapsedBody(db, v)
  {
    var db' := SetCollapsed(db, u, ids).0;
    forall c ensures c in CollapsedShown(db', u) <==> c in ids && c in db.categories {
      assert c in CollapsedShown(db', u) <==> (u, c) in db'.collapsed by {
        if c in CollapsedShown(db', u) {
          var p :| p in db'.collapsed && p.0 == u && p.1 == c;
          assert p == (u, c);
        }
        if (u, c) in db'.collapsed { assert (u, c).1 == c; }
      }
      assert (u, c) in LiveSections(db, u, ids) <==> c in ids && c in db.categories;
    }
    OthersCollapsed(db, u, ids, v);
  }

  lemma OthersCollapsed(db: Db, u: Id, ids: seq<Id>, v: Id)
    requires IsAdult(db, u) && IsAdult(db, v) && v != u
    ensures CollapsedShown(SetCollapsed(db, u, ids).0, v) == CollapsedShown(db, v)
  {
    var db' := SetCollapsed(db, u, ids).0;
    assert forall p: (Id, Id) | p.0 == v :: p in db'.collapsed <==> p in db.collapsed;
  }

  /** A saved service edit shows on its tile, field by field, and on no other tile. */
  lemma EditReadsBack(db: Db, snap: G.Snapshot, id: Id, owner: Id, p: ServicePatch, viewer: Id)
    requires UpdateService(db, id, owner, p).1 == Ok
    ensures var db' := UpdateService(db, id, owner, p).0;
            id in db.services && db'.services.Keys == db.services.Keys &&
            var was, now := TileOf(db, snap, viewer, id), TileOf(db', snap, viewer, id);
            && Shows(p.slug, was.slug, now.slug) && Shows(p.name, was.name, now.name)
            && Shows(p.description, was.description, now.description) && Shows(p.url, was.url, now.url)
            && Shows(p.icon, was.icon, now.icon) && Shows(p.gatusKey, was.gatusKey, now.gatusKey)
            && Shows(p.category, was.category, now.category) && Shows(p.click, was.click, now.click)
            && now.favorite == was.favorite && now.source == was.source
            && now.iconLight == was.iconLight && now.iconDark == was.iconDark
            && (now.category.Some? && p.category.Some? ==> now.categoryName.Some?)
    ensures var db' := UpdateService(db, id, owner, p).0;
            forall t | t in db.services && t != id ::
                t in db'.services && TileOf(db', snap, viewer, t) == TileOf(db, snap, viewer, t)
  {
  }

  predicate Shows<T(==)>(given: Option<T>, was: T, now: T)
  {
    now == if given.Some? then given.value else was
  }

  function RowOf(db: Db, c: Id): CategoryRow
    requires c in db.categories
  {
    CategoryRowsOf(db, [c])[0]
  }

  /** A saved category width shows on its row, and on no other row. */
  lemma WidthReadsBack(db: Db, id: Id, owner: Id, width: int, c: Id)
    requires c in db.categories
    ensures var (db', err) := SetCategoryWidth(db, id, owner, width);
            && c in db'.categories && (err == Ok <==> OwnsCategory(db, owner, id) && width in {3, 4, 6, 12})
            && RowOf(db', c) == if err == Ok && c == id then RowOf(db, c).(width := width) else RowOf(db, c)
  {
  }

  /** So does a saved name, unless another of the owner's categories has it. */
  lemma RenameReadsBack(db: Db, id: Id, owner: Id, name: string, c: Id)
    requires c in db.categories
    ensures var (db', err) := RenameCategory(db, id, owner, name);
            && c in db'.categories && (err == Ok <==> OwnsCategory(db, owner, id) && !HasName(db, id, owner, name))
            && RowOf(db', c) == if err == Ok && c == id then RowOf(db, c).(name := name) else RowOf(db, c)
  {
  }
}
