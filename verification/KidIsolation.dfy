/** Kid non-interference: what a kid session is answered, now and later, depends only on the kid's
    view: its own row, allow-list, allowed services with their categories, icons and Gatus entries,
    and its favorites, layout, collapsed sections and sessions on them. */
module KidIsolation {
  import opened Base
  import opened Ordering
  import opened Schema
  import opened Statements
  import opened Listings
  import opened Server
  import S = SessionSpec
  import G = Gatus

  // ---- the view

  function OwnServices(db: Db, kid: Id): map<Id, Service>
  {
    map s | s in AllowList(db, kid) :: db.services[s].(owner := 0)
  }

  function CategoryIds(services: map<Id, Service>): set<Id>
  {
    set s | s in services && services[s].category.Some? :: services[s].category.value
  }

  function OwnCategories(db: Db, kid: Id): map<Id, Category>
  {
    map c | c in CategoryIds(OwnServices(db, kid)) && c in db.categories :: db.categories[c].(owner := 0)
  }

  function OwnIcons(db: Db, kid: Id): map<(Id, Variant), Icon>
  {
    map i | i in db.icons && i.0 in AllowList(db, kid) :: db.icons[i]
  }

  function OwnFavorites(db: Db, kid: Id): set<Id>
  {
    set s | s in AllowList(db, kid) && (kid, s) in db.favorites
  }

  function OwnLayout(db: Db, kid: Id): map<Id, int>
  {
    map s | s in AllowList(db, kid) && (kid, s) in db.layout :: db.layout[(kid, s)]
  }

  function OwnCollapsed(db: Db, kid: Id): set<Id>
  {
    set c | c in CategoryIds(OwnServices(db, kid)) && (kid, c) in db.collapsed
  }

  function OwnSessions(db: Db, kid: Id): S.Sessions
  {
    map t | t in db.sessions && db.sessions[t].userID == kid :: db.sessions[t]
  }

  function Keys(services: map<Id, Service>): set<string>
  {
    set s | s in services && services[s].gatusKey != "" :: services[s].gatusKey
  }

  function OwnStatuses(db: Db, snap: G.Snapshot, kid: Id): map<string, G.EndpointStatus>
  {
    map k | k in snap.statuses && k in Keys(OwnServices(db, kid)) :: snap.statuses[k]
  }

  datatype View = View(
    user: Option<User>, services: map<Id, Service>, categories: map<Id, Category>, icons: map<(Id, Variant), Icon>,
    favorites: set<Id>, layout: map<Id, int>, collapsed: set<Id>, sessions: S.Sessions,
    statuses: map<string, G.EndpointStatus>, asOf: int)

  function ViewOf(db: Db, snap: G.Snapshot, kid: Id): View
  {
    View(if kid in db.users then Some(db.users[kid]) else None,
         OwnServices(db, kid), OwnCategories(db, kid), OwnIcons(db, kid), OwnFavorites(db, kid), OwnLayout(db, kid),
         OwnCollapsed(db, kid), OwnSessions(db, kid), OwnStatuses(db, snap, kid), snap.asOf)
  }

  /** A kid's database: the invariant, and the kid is one. */
  ghost predicate KidDb(db: Db, kid: Id)
  {
    Inv(db) && IsKid(db, kid)
  }

  // ---- one database against its view

  predicate CategoryHere(db: Db, c: Id)
  {
    c in db.categories && SharedOwner(db.users) == Some(db.categories[c].owner)
  }

  /** What the invariant gives for a kid: its services and their categories are the shared catalog's. */
  lemma AllowedIsShared(db: Db, kid: Id)
    requires KidDb(db, kid)
    ensures !IsAdult(db, kid)
    ensures AllowList(db, kid) <= SharedServices(db)
    ensures forall s | s in AllowList(db, kid) && db.services[s].category.Some? ::
              CategoryHere(db, db.services[s].category.value)
  {
    forall s | s in AllowList(db, kid)
      ensures s in SharedServices(db)
      ensures db.services[s].category.Some? ==> CategoryHere(db, db.services[s].category.value)
    {
      assert (kid, s) in db.allowed;
      assert ServiceRef(db.services[s], db.users.Keys, db.categories, db.library.Keys);
    }
  }

  /** A kid's view lies in the shared catalog: the rest of the invariant is not needed below. */
  ghost predicate Confined(db: Db, kid: Id)
  {
    && !IsAdult(db, kid)
    && VisibleShared(db, kid) == AllowList(db, kid)
    && VisibleCategories(db, kid) == CategoryIds(OwnServices(db, kid))
    && ShownCategories(db, kid) == OwnCategories(db, kid).Keys
    && AllowedKeys(db, kid) == Keys(OwnServices(db, kid))
  }

  lemma OwnServiceRows(db: Db, kid: Id)
    ensures OwnServices(db, kid).Keys == AllowList(db, kid)
    ensures CategoryIds(OwnServices(db, kid))
            == set s | s in AllowList(db, kid) && db.services[s].category.Some? :: db.services[s].category.value
    ensures Keys(OwnServices(db, kid))
            == set s | s in AllowList(db, kid) && db.services[s].gatusKey != "" :: db.services[s].gatusKey
  {
    var own := OwnServices(db, kid);
    assert forall s | s in own ::
             own[s].category == db.services[s].category && own[s].gatusKey == db.services[s].gatusKey;
    assert forall s | s in AllowList(db, kid) :: s in own;
  }

  lemma VisibleIsAllowed(db: Db, kid: Id)
    requires !IsAdult(db, kid) && AllowList(db, kid) <= SharedServices(db)
    ensures VisibleShared(db, kid) == AllowList(db, kid)
  {
  }

  lemma KidIsConfined(db: Db, kid: Id)
    requires KidDb(db, kid)
    ensures Confined(db, kid)
  {
    AllowedIsShared(db, kid);
    ConfinedSets(db, kid);
  }

  lemma ConfinedSets(db: Db, kid: Id)
    requires !IsAdult(db, kid) && AllowList(db, kid) <= SharedServices(db)
    requires forall s | s in AllowList(db, kid) && db.services[s].category.Some? ::
               CategoryHere(db, db.services[s].category.value)
    ensures Confined(db, kid)
  {
    VisibleIsAllowed(db, kid);
    OwnServiceRows(db, kid);
    assert forall c | c in CategoryIds(OwnServices(db, kid)) :: CategoryHere(db, c);
    assert ShownCategories(db, kid) == CategoryIds(OwnServices(db, kid));
    assert OwnCategories(db, kid).Keys == CategoryIds(OwnServices(db, kid));
  }

  // ---- two databases with one view

  lemma SameRow(db1: Db, db2: Db, kid: Id, s: Id)
    requires OwnServices(db1, kid) == OwnServices(db2, kid) && s in AllowList(db1, kid)
    ensures s in AllowList(db2, kid) && db1.services[s].(owner := 0) == db2.services[s].(owner := 0)
  {
    assert s in OwnServices(db1, kid) && OwnServices(db1, kid)[s] == OwnServices(db2, kid)[s];
  }

  lemma SameFavorite(db1: Db, db2: Db, kid: Id, s: Id)
    requires OwnFavorites(db1, kid) == OwnFavorites(db2, kid) && s in AllowList(db1, kid) && s in AllowList(db2, kid)
    ensures (kid, s) in db1.favorites <==> (kid, s) in db2.favorites
  {
    assert (kid, s) in db1.favorites <==> s in OwnFavorites(db1, kid);
    assert (kid, s) in db2.favorites <==> s in OwnFavorites(db2, kid);
  }

  lemma SamePlace(db1: Db, db2: Db, kid: Id, s: Id)
    requires OwnLayout(db1, kid) == OwnLayout(db2, kid) && s in AllowList(db1, kid) && s in AllowList(db2, kid)
    ensures Place(db1, kid, s) == Place(db2, kid, s)
  {
    assert Place(db1, kid, s).Some? <==> s in OwnLayout(db1, kid);
    assert Place(db2, kid, s).Some? <==> s in OwnLayout(db2, kid);
    if s in OwnLayout(db1, kid) { assert OwnLayout(db1, kid)[s] == OwnLayout(db2, kid)[s]; }
  }

  /** The parts of a view that the catalog reads use. */
  ghost predicate SameCatalog(db1: Db, snap1: G.Snapshot, db2: Db, snap2: G.Snapshot, kid: Id)
  {
    && OwnServices(db1, kid) == OwnServices(db2, kid) && OwnCategories(db1, kid) == OwnCategories(db2, kid)
    && OwnIcons(db1, kid) == OwnIcons(db2, kid) && OwnFavorites(db1, kid) == OwnFavorites(db2, kid)
    && OwnLayout(db1, kid) == OwnLayout(db2, kid) && OwnStatuses(db1, snap1, kid) == OwnStatuses(db2, snap2, kid)
  }

  lemma TileFromParts(db1: Db, snap1: G.Snapshot, db2: Db, snap2: G.Snapshot, kid: Id, s: Id)
    requires s in db1.services && s in db2.services && db1.services[s].(owner := 0) == db2.services[s].(owner := 0)
    requires (kid, s) in db1.favorites <==> (kid, s) in db2.favorites
    requires forall v: Variant :: (s, v) in db1.icons <==> (s, v) in db2.icons
    requires var c := db1.services[s].category;
             c.Some? ==> (c.value in db1.categories <==> c.value in db2.categories)
                         && (c.value in db1.categories ==>
                               db1.categories[c.value].(owner := 0) == db2.categories[c.value].(owner := 0))
    requires var k := db1.services[s].gatusKey;
             k != "" ==> (k in snap1.statuses <==> k in snap2.statuses)
                         && (k in snap1.statuses ==> snap1.statuses[k] == snap2.statuses[k])
    ensures TileOf(db1, snap1, kid, s) == TileOf(db2, snap2, kid, s)
  {
    var sv1, sv2 := db1.services[s], db2.services[s];
    assert sv1.(owner := 0) == sv2.(owner := 0);
    assert sv1.category.Some? && sv1.category.value in db1.categories ==>
        db1.categories[sv1.category.value].(owner := 0).name == db2.categories[sv1.category.value].(owner := 0).name;
    SameStatusFields(snap1, snap2, sv1.gatusKey);
  }

  lemma SameTile(db1: Db, snap1: G.Snapshot, db2: Db, snap2: G.Snapshot, kid: Id, s: Id)
    requires SameCatalog(db1, snap1, db2, snap2, kid) && s in AllowList(db1, kid)
    ensures s in AllowList(db2, kid) && TileOf(db1, snap1, kid, s) == TileOf(db2, snap2, kid, s)
  {
    SameRow(db1, db2, kid, s);
    SameFavorite(db1, db2, kid, s);
    SameIcons(db1, db2, kid, s);
    if db1.services[s].category.Some? { SameCategory(db1, db2, kid, s); }
    SameStatus(db1, snap1, db2, snap2, kid, s);
    TileFromParts(db1, snap1, db2, snap2, kid, s);
  }

  lemma SameStatusFields(snap1: G.Snapshot, snap2: G.Snapshot, k: string)
    requires k != "" ==> (k in snap1.statuses <==> k in snap2.statuses)
                         && (k in snap1.statuses ==> snap1.statuses[k] == snap2.statuses[k])
    ensures StatusFor(snap1, k) == StatusFor(snap2, k) && UptimeChecks(snap1, k) == UptimeChecks(snap2, k)
    ensures UptimeWindows(snap1, k) == UptimeWindows(snap2, k) &&
            G.ResponseTimeMs(snap1, k) == G.ResponseTimeMs(snap2, k)
  {
  }

  lemma SameIcons(db1: Db, db2: Db, kid: Id, s: Id)
    requires OwnIcons(db1, kid) == OwnIcons(db2, kid) && s in AllowList(db1, kid) && s in AllowList(db2, kid)
    ensures forall v: Variant ::
              ((s, v) in db1.icons <==> (s, v) in db2.icons) &&
                ((s, v) in db1.icons ==> db1.icons[(s, v)] == db2.icons[(s, v)])
  {
    forall v: Variant
      ensures ((s, v) in db1.icons <==> (s, v) in db2.icons) &&
              ((s, v) in db1.icons ==> db1.icons[(s, v)] == db2.icons[(s, v)])
    {
      assert (s, v) in db1.icons <==> (s, v) in OwnIcons(db1, kid);
      assert (s, v) in db2.icons <==> (s, v) in OwnIcons(db2, kid);
    }
  }

  lemma SameCategory(db1: Db, db2: Db, kid: Id, s: Id)
    requires OwnServices(db1, kid) == OwnServices(db2, kid) && OwnCategories(db1, kid) == OwnCategories(db2, kid)
    requires s in AllowList(db1, kid) && db1.services[s].category.Some?
    ensures var c := db1.services[s].category.value;
            (c in db1.categories <==> c in db2.categories) &&
            (c in db1.categories ==> db1.categories[c].(owner := 0) == db2.categories[c].(owner := 0))
  {
    var c := db1.services[s].category.value;
    assert OwnServices(db1, kid)[s].category == Some(c);
    assert c in CategoryIds(OwnServices(db1, kid));
    assert c in db1.categories <==> c in OwnCategories(db1, kid);
    assert c in db2.categories <==> c in OwnCategories(db2, kid);
    if c in db1.categories { assert OwnCategories(db1, kid)[c] == OwnCategories(db2, kid)[c]; }
  }

  lemma SameStatus(db1: Db, snap1: G.Snapshot, db2: Db, snap2: G.Snapshot, kid: Id, s: Id)
    requires OwnServices(db1, kid) == OwnServices(db2, kid) &&
             OwnStatuses(db1, snap1, kid) == OwnStatuses(db2, snap2, kid)
    requires s in AllowList(db1, kid)
    ensures var k := db1.services[s].gatusKey;
            k != "" ==> (k in snap1.statuses <==> k in snap2.statuses)
                        && (k in snap1.statuses ==> snap1.statuses[k] == snap2.statuses[k])
  {
    var k := db1.services[s].gatusKey;
    if k != "" {
      assert OwnServices(db1, kid)[s].gatusKey == k;
      assert k in Keys(OwnServices(db1, kid)) && k in Keys(OwnServices(db2, kid));
      assert k in snap1.statuses <==> k in OwnStatuses(db1, snap1, kid);
      assert k in snap2.statuses <==> k in OwnStatuses(db2, snap2, kid);
      if k in snap1.statuses { assert OwnStatuses(db1, snap1, kid)[k] == OwnStatuses(db2, snap2, kid)[k]; }
    }
  }

  // ---- every kid-filtered body

  lemma SameOrder(db1: Db, db2: Db, kid: Id)
    requires OwnServices(db1, kid) == OwnServices(db2, kid) && OwnLayout(db1, kid) == OwnLayout(db2, kid)
    ensures AllowList(db1, kid) == AllowList(db2, kid)
    ensures InOrder(db1, kid, AllowList(db1, kid)) == InOrder(db2, kid, AllowList(db2, kid))
  {
    var s := AllowList(db1, kid);
    OwnServiceRows(db1, kid);
    OwnServiceRows(db2, kid);
    forall a | a in s ensures Place(db1, kid, a) == Place(db2, kid, a) && Name(db1, a) == Name(db2, a) {
      SameRow(db1, db2, kid, a);
      assert db1.services[a].(owner := 0).name == db2.services[a].(owner := 0).name;
      SamePlace(db1, db2, kid, a);
    }
    SameKeys(db1, db2, kid, s);
  }

  lemma SameKeys(db1: Db, db2: Db, viewer: Id, s: set<Id>)
    requires forall a | a in s :: Place(db1, viewer, a) == Place(db2, viewer, a) && Name(db1, a) == Name(db2, a)
    ensures InOrder(db1, viewer, s) == InOrder(db2, viewer, s)
  {
    ServiceOrderTotal(db1, viewer, s);
    ServiceOrderTotal(db2, viewer, s);
    ArrangeCongruent(s, ServiceOrder(db1, viewer), ServiceOrder(db2, viewer));
  }

  lemma {:induction false} SameTiles(db1: Db, snap1: G.Snapshot, db2: Db, snap2: G.Snapshot, kid: Id, q: seq<Id>)
    requires SameCatalog(db1, snap1, db2, snap2, kid)
    requires forall i | 0 <= i < |q| :: q[i] in AllowList(db1, kid) && q[i] in AllowList(db2, kid)
    ensures Tiles(db1, snap1, kid, q) == Tiles(db2, snap2, kid, q)
  {
    if q != [] {
      SameTile(db1, snap1, db2, snap2, kid, q[0]);
      SameTiles(db1, snap1, db2, snap2, kid, q[1..]);
    }
  }

  lemma SameServicesBody(db1: Db, snap1: G.Snapshot, db2: Db, snap2: G.Snapshot, kid: Id)
    requires Confined(db1, kid) && Confined(db2, kid) && SameCatalog(db1, snap1, db2, snap2, kid)
    ensures ServicesBody(db1, snap1, kid) == ServicesBody(db2, snap2, kid)
  {
    SameOrder(db1, db2, kid);
    var q := InOrder(db1, kid, AllowList(db1, kid));
    assert forall i | 0 <= i < |q| :: q[i] in q;
    SameTiles(db1, snap1, db2, snap2, kid, q);
  }

  lemma {:induction false} SameRows(db1: Db, db2: Db, q: seq<Id>)
    requires forall i | 0 <= i < |q| ::
               q[i] in db1.categories && q[i] in db2.categories &&
               db1.categories[q[i]].(owner := 0) == db2.categories[q[i]].(owner := 0)
    ensures CategoryRowsOf(db1, q) == CategoryRowsOf(db2, q)
  {
    if q != [] {
      var c1, c2 := db1.categories[q[0]], db2.categories[q[0]];
      assert c1.(owner := 0) == c2.(owner := 0);
      SameRows(db1, db2, q[1..]);
    }
  }

  lemma SameCategoryRow(db1: Db, db2: Db, kid: Id, c: Id)
    requires OwnCategories(db1, kid) == OwnCategories(db2, kid) && c in OwnCategories(db1, kid)
    ensures c in db1.categories && c in db2.categories &&
            db1.categories[c].(owner := 0) == db2.categories[c].(owner := 0)
  {
    assert OwnCategories(db1, kid)[c] == OwnCategories(db2, kid)[c];
  }

  lemma SameCategoryOrder(db1: Db, db2: Db, s: set<Id>)
    requires s <= db1.categories.Keys && s <= db2.categories.Keys
    requires forall c | c in s :: db1.categories[c].sortIndex == db2.categories[c].sortIndex
    ensures CategoriesInOrder(db1, s) == CategoriesInOrder(db2, s)
  {
    ArrangeCongruent(s, (a, b) => CategoryBefore(db1, a, b), (a, b) => CategoryBefore(db2, a, b));
  }

  lemma SameCategoriesBody(db1: Db, db2: Db, kid: Id)
    requires Confined(db1, kid) && Confined(db2, kid) && OwnCategories(db1, kid) == OwnCategories(db2, kid)
    ensures CategoriesBody(db1, kid) == CategoriesBody(db2, kid)
  {
    var shown := OwnCategories(db1, kid).Keys;
    forall c | c in shown
      ensures c in db1.categories && c in db2.categories &&
              db1.categories[c].(owner := 0) == db2.categories[c].(owner := 0)
      ensures db1.categories[c].sortIndex == db2.categories[c].sortIndex
    {
      SameCategoryRow(db1, db2, kid, c);
      assert db1.categories[c].(owner := 0).sortIndex == db2.categories[c].(owner := 0).sortIndex;
    }
    SameCategoryOrder(db1, db2, shown);
    var q := CategoriesInOrder(db1, shown);
    assert forall i | 0 <= i < |q| :: q[i] in q;
    SameRows(db1, db2, q);
  }

  lemma CollapsedIsOwn(db: Db, kid: Id)
    requires Confined(db, kid)
    ensures CollapsedShown(db, kid) == OwnCollapsed(db, kid)
  {
    forall p | p in db.collapsed && p.0 == kid ensures p == (kid, p.1) {}
    forall c | c in OwnCollapsed(db, kid) ensures c in CollapsedShown(db, kid) {
      assert (kid, c) in db.collapsed && (kid, c).1 == c;
    }
  }

  lemma SameStatusBody(db1: Db, snap1: G.Snapshot, db2: Db, snap2: G.Snapshot, kid: Id)
    requires Confined(db1, kid) && Confined(db2, kid) && OwnStatuses(db1, snap1, kid) == OwnStatuses(db2, snap2, kid)
    ensures StatusBody(db1, snap1, kid) == StatusBody(db2, snap2, kid)
  {
    StatusIsOwn(db1, snap1, kid);
    StatusIsOwn(db2, snap2, kid);
  }

  lemma StatusIsOwn(db: Db, snap: G.Snapshot, kid: Id)
    requires Confined(db, kid)
    ensures StatusBody(db, snap, kid) == StatusesIn(OwnStatuses(db, snap, kid))
  {
  }

  function StatusesIn(own: map<string, G.EndpointStatus>): map<string, G.Status>
  {
    map k | k in own :: own[k].status
  }

  lemma SameIconBody(db1: Db, db2: Db, kid: Id, s: Id, v: Variant)
    requires Confined(db1, kid) && Confined(db2, kid)
    requires AllowList(db1, kid) == AllowList(db2, kid) && OwnIcons(db1, kid) == OwnIcons(db2, kid)
    ensures IconBody(db1, kid, s, v) == IconBody(db2, kid, s, v)
  {
    if s in AllowList(db1, kid) {
      assert s in VisibleShared(db1, kid) && s in VisibleShared(db2, kid);
      SameIcons(db1, db2, kid, s);
    }
  }
}
