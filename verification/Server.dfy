/** The HTTP layer: what each route answers and changes for the session it is called with. */
module Server {
  import opened Base
  import opened Ordering
  import opened Schema
  import opened Statements
  import opened Listings
  import StoreInvariant
  import S = SessionSpec
  import G = Gatus

  // ---- what the catalog reads return

  datatype Badge = NotMonitored | Reported(status: G.Status)

  function StatusFor(snap: G.Snapshot, key: string): Badge
  {
    if key == "" then NotMonitored
    else if key in snap.statuses then Reported(snap.statuses[key].status)
    else Reported(G.Unknown)
  }

  function UptimeChecks(snap: G.Snapshot, key: string): seq<G.CheckResult>
  {
    if key == "" || key !in snap.statuses then [] else snap.statuses[key].results
  }

  function UptimeWindows(snap: G.Snapshot, key: string): map<G.Window, real>
  {
    if key == "" || key !in snap.statuses || snap.statuses[key].uptime.None? then map[]
    else snap.statuses[key].uptime.value
  }

  /** One service as the catalog list shows it to a viewer. */
  datatype Tile = Tile(
    id: Id, slug: string, name: string, description: string, url: string, icon: string, status: Badge,
    favorite: bool, iconLight: bool, iconDark: bool, category: Option<Id>, categoryName: Option<string>,
    source: Option<Id>, click: ClickAction, gatusKey: string,
    checks: seq<G.CheckResult>, windows: map<G.Window, real>, responseTimeMs: Option<int>)

  function TileOf(db: Db, snap: G.Snapshot, viewer: Id, s: Id): Tile
    requires s in db.services
  {
    var sv := db.services[s];
    Tile(s, sv.slug, sv.name, sv.description, sv.url, sv.icon, StatusFor(snap, sv.gatusKey),
         (viewer, s) in db.favorites, (s, LightIcon) in db.icons, (s, DarkIcon) in db.icons,
         sv.category,
         if sv.category.Some? && sv.category.value in db.categories then Some(db.categories[sv.category.value].name)
         else None,
         sv.source, sv.click, sv.gatusKey,
         UptimeChecks(snap, sv.gatusKey), UptimeWindows(snap, sv.gatusKey), G.ResponseTimeMs(snap, sv.gatusKey))
  }

  function Tiles(db: Db, snap: G.Snapshot, viewer: Id, q: seq<Id>): seq<Tile>
    requires forall i | 0 <= i < |q| :: q[i] in db.services
  {
    if q == [] then [] else [TileOf(db, snap, viewer, q[0])] + Tiles(db, snap, viewer, q[1..])
  }

  /** GET /api/services: the services the viewer may see, in the viewer's order. */
  function ServicesBody(db: Db, snap: G.Snapshot, u: Id): seq<Tile>
  {
    assert forall s | s in VisibleShared(db, u) :: s in db.services;
    Tiles(db, snap, u, InOrder(db, u, VisibleShared(db, u)))
  }

  datatype CategoryRow = CategoryRow(id: Id, name: string, sortIndex: int, width: int)

  function CategoryRowsOf(db: Db, q: seq<Id>): seq<CategoryRow>
    requires forall i | 0 <= i < |q| :: q[i] in db.categories
  {
    if q == [] then []
    else
      var c := db.categories[q[0]];
      [CategoryRow(q[0], c.name, c.sortIndex, c.width)] + CategoryRowsOf(db, q[1..])
  }

  /** The categories holding a service the user may see. */
  function VisibleCategories(db: Db, u: Id): set<Id>
  {
    set s | s in VisibleShared(db, u) && db.services[s].category.Some? :: db.services[s].category.value
  }

  predicate IsAdult(db: Db, u: Id)
  {
    u in db.users && IsAdultRole(db.users[u].role)
  }

  function ShownCategories(db: Db, u: Id): set<Id>
  {
    set c | c in db.categories && SharedOwner(db.users) == Some(db.categories[c].owner)
            && (IsAdult(db, u) || c in VisibleCategories(db, u))
  }

  /** GET /api/categories */
  function CategoriesBody(db: Db, u: Id): seq<CategoryRow>
  {
    CategoryRowsOf(db, CategoriesInOrder(db, ShownCategories(db, u)))
  }

  function CollapsedShown(db: Db, u: Id): set<Id>
  {
    set p | p in db.collapsed && p.0 == u && (IsAdult(db, u) || p.1 in VisibleCategories(db, u)) :: p.1
  }

  /** GET /api/me/collapsed-categories, ordered by id */
  function CollapsedBody(db: Db, u: Id): seq<Id>
  {
    Arrange(CollapsedShown(db, u), (a: Id, b: Id) => a < b)
  }

  function AllowedKeys(db: Db, u: Id): set<string>
  {
    set s | s in VisibleShared(db, u) && db.services[s].gatusKey != "" :: db.services[s].gatusKey
  }

  /** GET /api/status: the statuses of the keys the user may know. */
  function StatusBody(db: Db, snap: G.Snapshot, u: Id): map<string, G.Status>
  {
    map k | k in snap.statuses && (IsAdult(db, u) || k in AllowedKeys(db, u)) :: snap.statuses[k].status
  }

  /** GET /api/services/{id}/icon/{variant}: read from the shared catalog, for whoever may see it. */
  function IconBody(db: Db, u: Id, s: Id, v: Variant): Option<Icon>
  {
    if Allows(VisibleServiceIDs(db, u), s) && s in SharedServices(db) && (s, v) in db.icons then Some(db.icons[(s, v)])
    else None
  }

  // ---- requests

  /** A PATCH /api/me body. A field present with a value outside its enum is `Invalid`. */
  datatype Field<T> = Absent | Invalid | Given(value: T)

  datatype MePatch = MePatch(
    theme: Field<Theme>, density: Field<Density>, healthBar: Option<bool>, uptime: Option<bool>,
    otherKeys: bool)   // the body has a key besides themePref, whatever its value

  datatype Route =
    // kid-filtered
    | GetServices | GetCategories | GetCollapsed | GetIcon(service: Id, variant: Variant, ifNoneMatch: string)
    | PostFavorite(service: Id) | DeleteFavorite(service: Id) | GetStatus
    // catalog-free
    | Logout | GetMe | PatchMe(patch: MePatch)
    // kid-forbidden
    | PutCollapsed(ids: seq<Id>) | PutLayout(ids: seq<Id>) | GetLibrary | PostRefresh
    // admin-only: the store call the handler makes
    | AdminRoute(op: StoreInvariant.Op)

  datatype RouteClass = CatalogFree | KidFiltered | KidForbidden | AdminOnly

  function Class(r: Route): RouteClass
  {
    match r
    case GetServices => KidFiltered
    case GetCategories => KidFiltered
    case GetCollapsed => KidFiltered
    case GetIcon(_, _, _) => KidFiltered
    case PostFavorite(_) => KidFiltered
    case DeleteFavorite(_) => KidFiltered
    case GetStatus => KidFiltered
    case Logout => CatalogFree
    case GetMe => CatalogFree
    case PatchMe(_) => CatalogFree
    case PutCollapsed(_) => KidForbidden
    case PutLayout(_) => KidForbidden
    case GetLibrary => KidForbidden
    case PostRefresh => KidForbidden
    case AdminRoute(_) => AdminOnly
  }

  /** router.handle puts requireNotKid in front of these. */
  predicate Guarded(c: RouteClass)
  {
    c.KidForbidden? || c.AdminOnly?
  }

  datatype Request = Request(token: S.Token, clock: int, route: Route)

  datatype Cookie = Keep | Issue(token: S.Token, maxAge: int) | Clear

  datatype Body =
    | NoBody
    | Services(tiles: seq<Tile>)
    | Categories(rows: seq<CategoryRow>)
    | CollapsedIds(ids: seq<Id>)
    | Png(icon: Icon)
    | Statuses(asOf: int, statuses: map<string, G.Status>)
    | Me(id: Id, user: User)
    | Outcome(err: Err)

  datatype Reply = Reply(status: int, body: Body, cookie: Cookie)

  /** Resolves the session cookie to its user, sliding the session when it is due. */
  function CurrentUser(db: Db, token: S.Token, clock: int): (Db, Option<Id>, Cookie)
  {
    match S.Lookup(db.sessions, token, clock)
    case Found(sess) =>
      if sess.userID !in db.users then (db, None, Keep)
      else if !sess.touchDue then (db, Some(sess.userID), Keep)
      else
        var lifetime := S.Lifetime(db.users[sess.userID].role);
        var (m, r) := S.Touch(db.sessions, token, lifetime, clock);
        (db.(sessions := m), Some(sess.userID), if r == S.Slid(true) then Issue(token, lifetime / S.SECOND) else Keep)
    case _ => (db, None, Keep)
  }

  function PatchedMe(u: User, p: MePatch): User
  {
    var u1 := if p.theme.Given? then u.(theme := p.theme.value) else u;
    var u2 := if p.density.Given? then u1.(density := p.density.value) else u1;
    var u3 := if p.healthBar.Some? then u2.(showHealthBar := p.healthBar.value) else u2;
    if p.uptime.Some? then u3.(showUptime := p.uptime.value) else u3
  }

  function ServePatchMe(db: Db, u: Id, p: MePatch): (Db, int, Body)
    requires u in db.users
  {
    if !IsAdult(db, u) && (p.otherKeys || !p.density.Absent? || p.healthBar.Some? || p.uptime.Some?) then
      (db, 403, NoBody)
    else if p.theme.Absent? && p.density.Absent? && p.healthBar.None? && p.uptime.None? then (db, 400, NoBody)
    else if p.theme.Invalid? || p.density.Invalid? then (db, 400, NoBody)
    else
      var user := PatchedMe(db.users[u], p);
      (db.(users := db.users[u := user]), 200, Me(u, user))
  }

  /** The kid-filtered handlers. */
  function ServeFiltered(db: Db, snap: G.Snapshot, u: Id, route: Route): (Db, int, Body)
    requires u in db.users && Class(route).KidFiltered?
  {
    match route
    case GetServices => (db, 200, Services(ServicesBody(db, snap, u)))
    case GetCategories => (db, 200, Categories(CategoriesBody(db, u)))
    case GetCollapsed => (db, 200, CollapsedIds(CollapsedBody(db, u)))
    case GetStatus => (db, 200, Statuses(snap.asOf, StatusBody(db, snap, u)))
    case GetIcon(s, v, etag) =>
      var icon := IconBody(db, u, s, v);
      if icon.None? then (db, 404, NoBody)
      else if etag == icon.value.etag then (db, 304, NoBody)
      else (db, 200, Png(icon.value))
    case PostFavorite(s) => ServePostFavorite(db, u, s)
    case DeleteFavorite(s) => ServeDeleteFavorite(db, u, s)
  }

  function ServePostFavorite(db: Db, u: Id, s: Id): (Db, int, Body)
  {
    if !Allows(VisibleServiceIDs(db, u), s) then (db, 404, NoBody)
    else
      var (d, err) := AddFavorite(db, u, s);
      (d, if err.Ok? then 204 else 404, NoBody)
  }

  function ServeDeleteFavorite(db: Db, u: Id, s: Id): (Db, int, Body)
  {
    if !Allows(VisibleServiceIDs(db, u), s) then (db, 404, NoBody) else (RemoveFavorite(db, u, s).0, 204, NoBody)
  }

  /** The handlers that only adults reach. */
  function ServeGuarded(db: Db, u: Id, route: Route): (Db, int, Body)
    requires Guarded(Class(route))
  {
    match route
    case PutCollapsed(ids) =>
      var (d, err) := SetCollapsed(db, u, ids);
      (d, if err.Ok? then 204 else 500, Outcome(err))
    case PutLayout(ids) =>
      var (d, err) := SetLayout(db, u, ids);
      (d, if err.Ok? then 204 else if err.NotFound? then 404 else 500, Outcome(err))
    case GetLibrary => (db, 200, NoBody)
    case PostRefresh => (db, 200, NoBody)
    case AdminRoute(op) =>
      var (d, err) := StoreInvariant.Apply(db, op);
      (d, if err.Ok? then 200 else 400, Outcome(err))
  }

  /** What a handler does once the caller is known and the route's class admits it. */
  function Serve(db: Db, snap: G.Snapshot, u: Id, route: Route): (Db, int, Body)
    requires u in db.users && !route.Logout?
  {
    if Guarded(Class(route)) then ServeGuarded(db, u, route)
    else if Class(route).KidFiltered? then ServeFiltered(db, snap, u, route)
    else if route.PatchMe? then ServePatchMe(db, u, route.patch)
    else (db, 200, Me(u, db.users[u]))
  }

  /** The route classes' guards, in front of the handler. */
  function Answer(db: Db, snap: G.Snapshot, who: Option<Id>, cookie: Cookie, route: Route): (Db, Reply)
    requires (who.Some? ==> who.value in db.users) && !route.Logout?
  {
    if who.None? then (db, Reply(401, NoBody, cookie))
    else
      var role := db.users[who.value].role;
      if Guarded(Class(route)) && !IsAdultRole(role) then (db, Reply(403, NoBody, cookie))
      else if Class(route).AdminOnly? && !role.Admin? then (db, Reply(403, NoBody, cookie))
      else
        var (d, status, body) := Serve(db, snap, who.value, route);
        (d, Reply(status, body, cookie))
  }

  function Handle(db: Db, snap: G.Snapshot, req: Request): (Db, Reply)
  {
    if req.route.Logout? then (db.(sessions := S.Destroy(db.sessions, req.token)), Reply(204, NoBody, Clear))
    else
      var (d, who, cookie) := CurrentUser(db, req.token, req.clock);
      Answer(d, snap, who, cookie, req.route)
  }
}
