/** What the catalog reads answer, said of the rows: who sees which entries, in what order, and with what in them. */
module Responses {
  import opened Base
  import opened Schema
  import opened Statements
  import opened Listings
  import opened Server
  import Orders
  import G = Gatus

  /** An admin or an adult. */
  predicate GrownUp(db: Db, u: Id)
  {
    u in db.users && (db.users[u].role == Admin || db.users[u].role == Adult)
  }

  /** A service of the shared catalog that the account may see. */
  ghost predicate MaySee(db: Db, u: Id, s: Id)
  {
    s in db.services && SharedOwner(db.users) == Some(db.services[s].owner) && (GrownUp(db, u) || (u, s) in db.allowed)
  }

  lemma VisibleMeans(db: Db, u: Id, s: Id)
    ensures s in VisibleShared(db, u) <==> MaySee(db, u, s)
  {
  }

  /** A tile holds its service's own columns, the viewer's mark, which icons are stored, and the name of the
      category it is in. */
  ghost predicate TileShows(db: Db, u: Id, t: Tile)
  {
    && t.id in db.services
    && var sv := db.services[t.id];
       && t.slug == sv.slug && t.name == sv.name && t.description == sv.description && t.url == sv.url
       && t.icon == sv.icon && t.gatusKey == sv.gatusKey && t.click == sv.click && t.source == sv.source
       && t.category == sv.category
       && (t.favorite <==> (u, t.id) in db.favorites)
       && (t.iconLight <==> (t.id, LightIcon) in db.icons) && (t.iconDark <==> (t.id, DarkIcon) in db.icons)
       && (sv.category.None? ==> t.categoryName == None)
       && (sv.category.Some? && sv.category.value in db.categories ==>
             t.categoryName == Some(db.categories[sv.category.value].name))
  }

  lemma {:induction false} TilesShow(db: Db, snap: G.Snapshot, u: Id, q: seq<Id>)
    requires forall i | 0 <= i < |q| :: q[i] in db.services
    ensures |Tiles(db, snap, u, q)| == |q|
    ensures forall i | 0 <= i < |q| :: Tiles(db, snap, u, q)[i].id == q[i] && TileShows(db, u, Tiles(db, snap, u, q)[i])
  {
    if q != [] { TilesShow(db, snap, u, q[1..]); }
  }

  lemma VisibleListed(db: Db, u: Id)
    ensures var q := InOrder(db, u, VisibleShared(db, u));
            && (forall s :: s in q <==> MaySee(db, u, s))
            && (forall i | 0 <= i < |q| :: MaySee(db, u, q[i]))
            && (forall i, j | 0 <= i < j < |q| :: q[i] != q[j] && Orders.ComesFirst(db, u, q[i], q[j]))
  {
    var q := InOrder(db, u, VisibleShared(db, u));
    Orders.InOrderByPlaceThenName(db, u, VisibleShared(db, u));
    ServiceOrderTotal(db, u, VisibleShared(db, u));
    forall s ensures s in q <==> MaySee(db, u, s) { VisibleMeans(db, u, s); }
    forall i | 0 <= i < |q| ensures MaySee(db, u, q[i]) { assert q[i] in q; }
    forall i, j | 0 <= i < j < |q| ensures q[i] != q[j] { assert ServiceBefore(db, u, q[i], q[j]); }
  }

  /** GET /api/services: a tile for each service the account may see and for no other, each once; what it placed
      first, by place, and the rest by name; each tile with its service's own data. */
  lemma ServicesAnswered(db: Db, snap: G.Snapshot, u: Id)
    ensures var body := ServicesBody(db, snap, u);
            && (forall s :: MaySee(db, u, s) <==> exists i :: 0 <= i < |body| && body[i].id == s)
            && (forall i | 0 <= i < |body| :: TileShows(db, u, body[i]))
            && (forall i, j | 0 <= i < j < |body| ::
                  body[i].id != body[j].id && Orders.ComesFirst(db, u, body[i].id, body[j].id))
  {
    var q, body := InOrder(db, u, VisibleShared(db, u)), ServicesBody(db, snap, u);
    VisibleListed(db, u);
    TilesShow(db, snap, u, q);
    forall s | MaySee(db, u, s) ensures exists i :: 0 <= i < |body| && body[i].id == s {
      var i :| 0 <= i < |q| && q[i] == s;
      assert body[i].id == s;
    }
  }

  /** A category of the shared catalog that the account sees: any for a grown-up, else one that holds a service it
      may see. */
  ghost predicate MaySeeCategory(db: Db, u: Id, c: Id)
  {
    && c in db.categories && SharedOwner(db.users) == Some(db.categories[c].owner)
    && (GrownUp(db, u) || HoldsVisible(db, u, c))
  }

  ghost predicate HoldsVisible(db: Db, u: Id, c: Id)
  {
    exists s :: MaySee(db, u, s) && db.services[s].category == Some(c)
  }

  lemma VisibleCategoryMeans(db: Db, u: Id, c: Id)
    ensures c in VisibleCategories(db, u) <==> HoldsVisible(db, u, c)
  {
    if c in VisibleCategories(db, u) {
      var s :| s in VisibleShared(db, u) && db.services[s].category == Some(c);
      VisibleMeans(db, u, s);
    }
    if HoldsVisible(db, u, c) {
      var s :| MaySee(db, u, s) && db.services[s].category == Some(c);
      VisibleMeans(db, u, s);
    }
  }

  ghost predicate RowShows(db: Db, r: CategoryRow)
  {
    r.id in db.categories && r.name == db.categories[r.id].name && r.sortIndex == db.categories[r.id].sortIndex &&
    r.width == db.categories[r.id].width
  }

  lemma {:induction false} RowsShow(db: Db, q: seq<Id>)
    requires forall i | 0 <= i < |q| :: q[i] in db.categories
    ensures |CategoryRowsOf(db, q)| == |q|
    ensures forall i | 0 <= i < |q| :: CategoryRowsOf(db, q)[i].id == q[i] && RowShows(db, CategoryRowsOf(db, q)[i])
  {
    if q != [] { RowsShow(db, q[1..]); }
  }

  /** GET /api/categories: a row for each category the account sees and for no other, by sort_index. */
  lemma CategoriesAnswered(db: Db, u: Id)
    ensures var body := CategoriesBody(db, u);
            && (forall c :: MaySeeCategory(db, u, c) <==> exists i :: 0 <= i < |body| && body[i].id == c)
            && (forall i | 0 <= i < |body| :: RowShows(db, body[i]))
            && (forall i, j | 0 <= i < j < |body| ::
                  body[i].id != body[j].id && body[i].sortIndex <= body[j].sortIndex)
  {
    var q, body := CategoriesInOrder(db, ShownCategories(db, u)), CategoriesBody(db, u);
    assert forall i | 0 <= i < |q| :: q[i] in q;
    RowsShow(db, q);
    forall c ensures MaySeeCategory(db, u, c) <==> exists i :: 0 <= i < |body| && body[i].id == c {
      VisibleCategoryMeans(db, u, c);
      assert c in q <==> c in ShownCategories(db, u);
      if c in q { var i :| 0 <= i < |q| && q[i] == c; assert body[i].id == c; }
    }
    forall i, j | 0 <= i < j < |body| ensures q[i] != q[j] && body[i].sortIndex <= body[j].sortIndex {
      assert CategoryBefore(db, q[i], q[j]);
    }
  }

  /** GET /api/me/collapsed-categories: the account's own marks, but to a kid only on what it sees; by id. */
  lemma CollapsedAnswered(db: Db, u: Id)
    ensures var body := CollapsedBody(db, u);
            && (forall c :: c in body <==> (u, c) in db.collapsed && (GrownUp(db, u) || HoldsVisible(db, u, c)))
            && (forall i, j | 0 <= i < j < |body| :: body[i] < body[j])
  {
    var less := (a: Id, b: Id) => a < b;
    forall c ensures c in CollapsedShown(db, u) <==>
                     (u, c) in db.collapsed && (GrownUp(db, u) || HoldsVisible(db, u, c)) {
      VisibleCategoryMeans(db, u, c);
      if c in CollapsedShown(db, u) {
        var p :| p in db.collapsed && p.0 == u && p.1 == c && (IsAdult(db, u) || c in VisibleCategories(db, u));
        assert p == (u, c);
      }
      if (u, c) in db.collapsed { assert (u, c).1 == c; }
    }
    var body := CollapsedBody(db, u);
    forall i, j | 0 <= i < j < |body| ensures body[i] < body[j] { assert less(body[i], body[j]); }
  }

  // ---- icons

  /** The answer of GET /api/services/{id}/icon/{variant}. */
  function IconAnswer(db: Db, snap: G.Snapshot, u: Id, s: Id, v: Variant, etag: string): (int, Body)
    requires u in db.users
  {
    var r := ServeFiltered(db, snap, u, GetIcon(s, v, etag));
    (r.1, r.2)
  }

  lemma SameShared(db: Db, d: Db, u: Id)
    requires d == db.(icons := d.icons)
    ensures forall s :: Allows(VisibleServiceIDs(d, u), s) && s in SharedServices(d) <==> MaySee(db, u, s)
  {
  }

  /** An uploaded icon is what whoever may see the service is then sent, under its variant, or 304 to a caller that
      has it; a deleted one is not found; to anyone else neither ever is; and no other icon's answer changes. */
  lemma IconReadsBack(db: Db, snap: G.Snapshot, u: Id, s: Id, owner: Id, v: Variant, icon: Icon, etag: string)
    requires u in db.users && OwnsService(db, owner, s)
    ensures IconAnswer(PutIcon(db, s, owner, v, icon).0, snap, u, s, v, etag) ==
            if !MaySee(db, u, s) then (404, NoBody) else if etag == icon.etag then (304, NoBody) else (200, Png(icon))
    ensures IconAnswer(DeleteIcon(db, s, owner, v).0, snap, u, s, v, etag) == (404, NoBody)
    ensures forall t: Id, w: Variant | (t, w) != (s, v) ::
              var was := IconAnswer(db, snap, u, t, w, etag);
              && IconAnswer(PutIcon(db, s, owner, v, icon).0, snap, u, t, w, etag) == was
              && IconAnswer(DeleteIcon(db, s, owner, v).0, snap, u, t, w, etag) == was
  {
    SameShared(db, PutIcon(db, s, owner, v, icon).0, u);
    SameShared(db, DeleteIcon(db, s, owner, v).0, u);
  }
}
