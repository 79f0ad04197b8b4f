/** Every store method keeps the invariant of the tables, so every reachable database satisfies it. */
module StoreInvariant {
  import opened Base
  import opened Schema
  import opened Statements
  import S = SessionSpec
  import UserAgent

  /** One call of a store method. An `id` of a creating call is the new row's random id. */
  datatype AccountOp =
    | CreateUserOp(id: Id, email: string, hash: string, role: Role)
    | CreateKidOp(id: Id, name: string, color: string)
    | UpdateKidOp(id: Id, newName: Option<string>, newColor: Option<string>)
    | DeleteKidOp(id: Id)
    | SetPrefOp(id: Id, pref: Pref)
    | SetKidServicesOp(id: Id, ids: seq<Id>)
    | SetUptimeDefaultOp(show: bool)

  datatype CatalogOp =
    | CreateServiceOp(id: Id, service: Service)
    | UpdateServiceOp(id: Id, owner: Id, patch: ServicePatch)
    | DeleteServiceOp(id: Id, owner: Id)
    | PutIconOp(id: Id, owner: Id, variant: Variant, icon: Icon)
    | DeleteIconOp(id: Id, owner: Id, variant: Variant)
    | AddFromLibraryOp(id: Id, owner: Id, offerId: Id, category: Option<Id>)
    | CreateOfferOp(id: Id, offer: Offer)
    | UpdateOfferOp(id: Id, offer: Offer)
    | DeleteOfferOp(id: Id)

  datatype SectionOp =
    | CreateCategoryOp(id: Id, owner: Id, name: string)
    | RenameCategoryOp(id: Id, owner: Id, name: string)
    | SetCategoryWidthOp(id: Id, owner: Id, width: int)
    | SetCategoryOrderOp(owner: Id, ids: seq<Id>)
    | DeleteCategoryOp(id: Id, owner: Id)
    | SetLayoutOp(user: Id, ids: seq<Id>)
    | SetCollapsedOp(user: Id, ids: seq<Id>)
    | AddFavoriteOp(user: Id, id: Id)
    | RemoveFavoriteOp(user: Id, id: Id)

  datatype SessionOp =
    | CreateSessionOp(token: S.Token, handle: nat, user: Id, lifetime: int, userAgent: UserAgent.Bytes, clock: int)
    | TouchOp(token: S.Token, lifetime: int, clock: int)
    | DestroyOp(token: S.Token)
    | RevokeOp(user: Id, handle: nat)
    | SweepOp(clock: int)

  datatype Op = Account(a: AccountOp) | Catalog(c: CatalogOp) | Section(s: SectionOp) | Session(o: SessionOp)

  function ApplyAccount(db: Db, op: AccountOp): (Db, Err)
  {
    match op
    case CreateUserOp(id, email, hash, role) => CreateUser(db, id, email, hash, role)
    case CreateKidOp(id, name, color) => CreateKid(db, id, name, color)
    case UpdateKidOp(id, name, color) => UpdateKid(db, id, name, color)
    case DeleteKidOp(id) => DeleteKid(db, id)
    case SetPrefOp(id, pref) => SetPref(db, id, pref)
    case SetKidServicesOp(id, ids) => SetKidServices(db, id, ids)
    case SetUptimeDefaultOp(show) => (db.(uptimeDefault := Some(show)), Ok)
  }

  function ApplyCatalog(db: Db, op: CatalogOp): (Db, Err)
  {
    match op
    case CreateServiceOp(id, service) => CreateService(db, id, service)
    case UpdateServiceOp(id, owner, patch) => UpdateService(db, id, owner, patch)
    case DeleteServiceOp(id, owner) => DeleteService(db, id, owner)
    case PutIconOp(id, owner, variant, icon) => PutIcon(db, id, owner, variant, icon)
    case DeleteIconOp(id, owner, variant) => DeleteIcon(db, id, owner, variant)
    case AddFromLibraryOp(id, owner, offerId, category) => AddFromLibrary(db, id, owner, offerId, category)
    case CreateOfferOp(id, offer) => CreateOffer(db, id, offer)
    case UpdateOfferOp(id, offer) => UpdateOffer(db, id, offer)
    case DeleteOfferOp(id) => DeleteOffer(db, id)
  }

  function ApplySection(db: Db, op: SectionOp): (Db, Err)
  {
    match op
    case CreateCategoryOp(id, owner, name) => CreateCategory(db, id, owner, name)
    case RenameCategoryOp(id, owner, name) => RenameCategory(db, id, owner, name)
    case SetCategoryWidthOp(id, owner, width) => SetCategoryWidth(db, id, owner, width)
    case SetCategoryOrderOp(owner, ids) => SetCategoryOrder(db, owner, ids)
    case DeleteCategoryOp(id, owner) => DeleteCategory(db, id, owner)
    case SetLayoutOp(user, ids) => SetLayout(db, user, ids)
    case SetCollapsedOp(user, ids) => SetCollapsed(db, user, ids)
    case AddFavoriteOp(user, id) => AddFavorite(db, user, id)
    case RemoveFavoriteOp(user, id) => RemoveFavorite(db, user, id)
  }

  function ApplySession(db: Db, op: SessionOp): (Db, Err)
  {
    match op
    case CreateSessionOp(token, handle, user, lifetime, ua, clock) =>
      CreateSession(db, token, handle, user, lifetime, ua, clock)
    case TouchOp(token, lifetime, clock) => (Slide(db, token, lifetime, clock), Ok)
    case DestroyOp(token) => (db.(sessions := S.Destroy(db.sessions, token)), Ok)
    case RevokeOp(user, handle) => (db.(sessions := S.RevokeByHandle(db.sessions, user, handle).0), Ok)
    case SweepOp(clock) => (db.(sessions := S.DeleteExpired(db.sessions, clock).0), Ok)
  }

  function Apply(db: Db, op: Op): (Db, Err)
  {
    match op
    case Account(a) => ApplyAccount(db, a)
    case Catalog(c) => ApplyCatalog(db, c)
    case Section(s) => ApplySection(db, s)
    case Session(o) => ApplySession(db, o)
  }

  /** Random ids, tokens and handles are new. */
  ghost predicate Fresh(db: Db, op: Op)
  {
    match op
    case Account(a) => FreshAccount(db, a)
    case Catalog(c) => FreshCatalog(db, c)
    case Section(s) => s.CreateCategoryOp? ==> s.id !in db.categories
    case Session(o) => FreshSession(db, o)
  }

  predicate FreshAccount(db: Db, op: AccountOp)
  {
    op.CreateUserOp? || op.CreateKidOp? ==> op.id !in db.users
  }

  predicate FreshCatalog(db: Db, op: CatalogOp)
  {
    && (op.CreateServiceOp? || op.AddFromLibraryOp? ==> op.id !in db.services)
    && (op.CreateOfferOp? ==> op.id !in db.library)
  }

  ghost predicate FreshSession(db: Db, op: SessionOp)
  {
    op.CreateSessionOp? ==>
      op.token != "" && op.token !in db.sessions && forall t | t in db.sessions :: db.sessions[t].handle != op.handle
  }

  // ---- the owner of the shared catalog

  lemma OwnerUnmoved(users: map<Id, User>, users': map<Id, User>)
    requires Admins(users') == Admins(users)
    requires forall a | a in Admins(users) :: users'[a].createdAt == users[a].createdAt
    ensures SharedOwner(users') == SharedOwner(users)
  {
    var q := SharedOwner(users);
    OwnerIsOldestAdmin(users, 0);
    OwnerIsOldestAdmin(users', 0);
    if q.Some? { OwnerStands(users, users'); }
  }

  ghost predicate OwnerKept(db: Db, db': Db)
  {
    SharedOwner(db.users).Some? ==> SharedOwner(db'.users) == SharedOwner(db.users)
  }

  // ---- one kind of change at a time

  lemma WithoutServicesInv(db: Db, gone: set<Id>)
    requires Inv(db)
    ensures Inv(WithoutServices(db, gone))
  {
  }

  lemma UncategorizedRefs(services: map<Id, Service>, users: set<Id>, categories: map<Id, Category>, library: set<Id>,
                          gone: set<Id>)
    requires ServiceRefs(services, users, categories, library)
    ensures ServiceRefs(UncategorizedAll(services, gone), users, categories - gone, library)
  {
    forall s | s in services ensures ServiceRef(Uncategorized(services[s], gone), users, categories - gone, library) {
      assert ServiceRef(services[s], users, categories, library);
    }
  }

  /** Rows rewritten without changing id, owner or slug keep slugs unique and allow-lists in the catalog. */
  lemma SameOwners(services: map<Id, Service>, services': map<Id, Service>, allowed: set<(Id, Id)>, kids: set<Id>,
                   owner: Option<Id>)
    requires services'.Keys == services.Keys
    requires forall s | s in services ::
               services'[s].owner == services[s].owner && services'[s].slug == services[s].slug
    requires UniqueSlugs(services) && AllowLists(allowed, kids, services, owner)
    ensures UniqueSlugs(services') && AllowLists(allowed, kids, services', owner)
  {
  }

  lemma FewerCategories(categories: map<Id, Category>, users: set<Id>, gone: set<Id>)
    requires CategoryRows(categories, users) && UniqueNames(categories)
    ensures CategoryRows(categories - gone, users) && UniqueNames(categories - gone)
  {
  }

  lemma FewerLinks(pairs: set<(Id, Id)>, left: set<Id>, right: map<Id, Category>, gone: set<Id>)
    requires Links(pairs, left, right.Keys)
    ensures Links((set p | p in pairs && p.1 !in gone), left, (right - gone).Keys)
  {
  }

  lemma UncategorizedOwners(services: map<Id, Service>, gone: set<Id>, allowed: set<(Id, Id)>, kids: set<Id>,
                            owner: Option<Id>)
    requires UniqueSlugs(services) && AllowLists(allowed, kids, services, owner)
    ensures UncategorizedAll(services, gone).Keys == services.Keys
    ensures UniqueSlugs(UncategorizedAll(services, gone)) &&
            AllowLists(allowed, kids, UncategorizedAll(services, gone), owner)
  {
    SameOwners(services, UncategorizedAll(services, gone), allowed, kids, owner);
  }

  /** Every service survives, changed at most in its category: cleared where that is gone, else as it was. The
      collapse marks on what is gone go too, and nothing else changes. */
  ghost predicate OnlyUncategorized(db: Db, db': Db, gone: set<Id>)
  {
    && db'.services.Keys == db.services.Keys
    && (forall s | s in db.services ::
          && db'.services[s].(category := db.services[s].category) == db.services[s]
          && (db'.services[s].category.None? <==>
                db.services[s].category.None? || db.services[s].category.value in gone)
          && (db'.services[s].category.Some? ==> db'.services[s].category == db.services[s].category))
    && (forall c :: c in db'.categories <==> c in db.categories && c !in gone)
    && (forall c | c in db'.categories :: db'.categories[c] == db.categories[c])
    && (forall p :: p in db'.collapsed <==> p in db.collapsed && p.1 !in gone)
    && db'.(services := db.services, categories := db.categories, collapsed := db.collapsed) == db
  }

  lemma UncategorizesOnly(db: Db, gone: set<Id>)
    ensures OnlyUncategorized(db, WithoutCategories(db, gone), gone)
  {
  }

  lemma WithoutCategoriesInv(db: Db, gone: set<Id>)
    requires Inv(db)
    ensures Inv(WithoutCategories(db, gone)) && OnlyUncategorized(db, WithoutCategories(db, gone), gone)
  {
    UncategorizesOnly(db, gone);
    UncategorizedRefs(db.services, db.users.Keys, db.categories, db.library.Keys, gone);
    UncategorizedOwners(db.services, gone, db.allowed, Kids(db.users), SharedOwner(db.users));
    FewerCategories(db.categories, db.users.Keys, gone);
    FewerLinks(db.collapsed, db.users.Keys, db.categories, gone);
  }

  lemma FewerRows(users: map<Id, User>, now: nat, gone: Id)
    requires Credentials(users) && CreatedInOrder(users, now) && UniqueUsers(users)
    ensures var kept := map u | u in users && u != gone :: users[u];
            Credentials(kept) && CreatedInOrder(kept, now) && UniqueUsers(kept)
  {
  }

  lemma FewerRoles(users: map<Id, User>, gone: Id)
    requires gone !in Admins(users)
    ensures var kept := map u | u in users && u != gone :: users[u];
            kept.Keys == users.Keys - {gone} && Kids(kept) == Kids(users) - {gone} &&
              SharedOwner(kept) == SharedOwner(users)
  {
    OwnerUnmoved(users, map u | u in users && u != gone :: users[u]);
  }

  lemma NotOwned(services: map<Id, Service>, categories: map<Id, Category>, users: set<Id>, library: set<Id>, gone: Id)
    requires ServiceRefs(services, users, categories, library) && CategoryRows(categories, users)
    requires forall s | s in services :: services[s].owner != gone
    requires forall c | c in categories :: categories[c].owner != gone
    ensures ServiceRefs(services, users - {gone}, categories, library) && CategoryRows(categories, users - {gone})
  {
  }

  lemma LinksWithout(pairs: set<(Id, Id)>, left: set<Id>, right: set<Id>, gone: Id)
    requires Links(pairs, left, right)
    ensures Links((set p | p in pairs && p.0 != gone), left - {gone}, right)
  {
  }

  /** Once nothing is owned by a user, its own rows may go and the user with them. */
  lemma WithoutOwnRowsInv(db: Db, kid: Id)
    requires Inv(db) && IsKid(db, kid)
    requires forall s | s in db.services :: db.services[s].owner != kid
    requires forall c | c in db.categories :: db.categories[c].owner != kid
    ensures Inv(WithoutOwnRows(db, kid)) && OwnerKept(db, WithoutOwnRows(db, kid))
  {
    var db' := WithoutOwnRows(db, kid);
    FewerRows(db.users, db.now, kid);
    FewerRoles(db.users, kid);
    NotOwned(db.services, db.categories, db.users.Keys, db.library.Keys, kid);
    LinksWithout(db.favorites, db.users.Keys, db.services.Keys, kid);
    LinksWithout(db.layout.Keys, db.users.Keys, db.services.Keys, kid);
    LinksWithout(db.collapsed, db.users.Keys, db.categories.Keys, kid);
    assert db'.layout.Keys == set l | l in db.layout.Keys && l.0 != kid;
  }

  lemma OwnsNothing(db: Db, kid: Id)
    ensures var d := WithoutCategories(WithoutServices(db, ServicesOf(db, kid)), CategoriesOf(db, kid));
            && (forall s | s in d.services :: d.services[s].owner != kid)
            && (forall c | c in d.categories :: d.categories[c].owner != kid) && d.users == db.users
  {
  }

  lemma WithoutKidInv(db: Db, kid: Id)
    requires Inv(db) && IsKid(db, kid)
    ensures Inv(WithoutUser(db, kid)) && OwnerKept(db, WithoutUser(db, kid))
  {
    var d := WithoutServices(db, ServicesOf(db, kid));
    WithoutServicesInv(db, ServicesOf(db, kid));
    WithoutCategoriesInv(d, CategoriesOf(db, kid));
    OwnsNothing(db, kid);
    WithoutOwnRowsInv(WithoutCategories(d, CategoriesOf(db, kid)), kid);
  }

  lemma UnlinkedRefs(services: map<Id, Service>, users: set<Id>, categories: map<Id, Category>, library: map<Id, Offer>,
                     offer: Id)
    requires ServiceRefs(services, users, categories, library.Keys)
    ensures ServiceRefs(UnlinkedAll(services, offer), users, categories, (library - {offer}).Keys)
  {
    forall s | s in services
      ensures ServiceRef(Unlinked(services[s], offer), users, categories, (library - {offer}).Keys)
    {
      assert ServiceRef(services[s], users, categories, library.Keys);
    }
  }

  lemma UnlinkedOwners(services: map<Id, Service>, offer: Id, allowed: set<(Id, Id)>, kids: set<Id>, owner: Option<Id>)
    requires UniqueSlugs(services) && AllowLists(allowed, kids, services, owner)
    ensures UnlinkedAll(services, offer).Keys == services.Keys
    ensures UniqueSlugs(UnlinkedAll(services, offer)) && AllowLists(allowed, kids, UnlinkedAll(services, offer), owner)
  {
    SameOwners(services, UnlinkedAll(services, offer), allowed, kids, owner);
  }

  lemma WithoutOfferInv(db: Db, offer: Id)
    requires Inv(db)
    ensures Inv(WithoutOffer(db, offer))
  {
    UnlinkedRefs(db.services, db.users.Keys, db.categories, db.library, offer);
    UnlinkedOwners(db.services, offer, db.allowed, Kids(db.users), SharedOwner(db.users));
  }

  /** A wider users table keeps every reference into it. */
  lemma MoreUserRefs(services: map<Id, Service>, categories: map<Id, Category>, library: set<Id>, users: set<Id>,
                     users': set<Id>)
    requires ServiceRefs(services, users, categories, library) && CategoryRows(categories, users) && users <= users'
    ensures ServiceRefs(services, users', categories, library) && CategoryRows(categories, users')
  {
    forall s | s in services ensures ServiceRef(services[s], users', categories, library) {
      assert ServiceRef(services[s], users, categories, library);
    }
  }

  lemma MoreUsers(db: Db, users: set<Id>)
    requires Inv(db) && db.users.Keys <= users
    ensures ServiceRefs(db.services, users, db.categories, db.library.Keys) && CategoryRows(db.categories, users)
    ensures Links(db.favorites, users, db.services.Keys) && Links(db.layout.Keys, users, db.services.Keys)
    ensures Links(db.collapsed, users, db.categories.Keys) && SessionRefs(db.sessions, users)
  {
    MoreUserRefs(db.services, db.categories, db.library.Keys, db.users.Keys, users);
  }

  lemma AddedRow(users: map<Id, User>, now: nat, id: Id, u: User)
    requires Credentials(users) && CreatedInOrder(users, now) && UniqueUsers(users)
    requires id !in users && u.createdAt == now && Credentialed(u)
    requires KeysFree(users, u)
    ensures Credentials(users[id := u]) && CreatedInOrder(users[id := u], now + 1) && UniqueUsers(users[id := u])
  {
  }

  lemma AddedRoles(users: map<Id, User>, now: nat, id: Id, u: User)
    requires CreatedInOrder(users, now) && id !in users && u.createdAt == now
    ensures Kids(users) <= Kids(users[id := u])
    ensures SharedOwner(users).Some? ==> SharedOwner(users[id := u]) == SharedOwner(users)
  {
    if SharedOwner(users).Some? { OwnerStands(users, users[id := u]); }
  }

  lemma WiderAllowLists(allowed: set<(Id, Id)>, kids: set<Id>, services: map<Id, Service>, owner: Option<Id>,
                        kids': set<Id>, owner': Option<Id>)
    requires AllowLists(allowed, kids, services, owner) && kids <= kids' && (owner.Some? ==> owner' == owner)
    ensures AllowLists(allowed, kids', services, owner')
  {
  }

  /** No other user has the email, or the kid name. */
  predicate KeysFree(users: map<Id, User>, u: User)
  {
    && (EmailKey(u).Some? ==> forall v | v in users :: EmailKey(users[v]) != EmailKey(u))
    && (KidKey(u).Some? ==> forall v | v in users :: KidKey(users[v]) != KidKey(u))
  }

  lemma NamesFree(db: Db, id: Id, u: User)
    requires id !in db.users
    requires u.email.Some? ==> !HasEmail(db, u.email.value)
    requires u.role.Kid? && u.displayName.Some? ==> !HasKidName(db, id, u.displayName.value)
    ensures KeysFree(db.users, u)
  {
  }

  lemma AddUserRefs(db: Db, id: Id, u: User)
    requires Inv(db)
    ensures var d := AddUser(db, id, u);
            && ServiceRefs(d.services, d.users.Keys, d.categories, d.library.Keys) &&
               CategoryRows(d.categories, d.users.Keys)
            && Links(d.favorites, d.users.Keys, d.services.Keys) && Links(d.layout.Keys, d.users.Keys, d.services.Keys)
            && Links(d.collapsed, d.users.Keys, d.categories.Keys) && SessionRefs(d.sessions, d.users.Keys)
  {
    MoreUsers(db, db.users[id := u].Keys);
  }

  lemma AddUserRows(db: Db, id: Id, u: User)
    requires Inv(db) && id !in db.users && u.createdAt == db.now && Credentialed(u) && KeysFree(db.users, u)
    ensures var d := AddUser(db, id, u);
            && Credentials(d.users) && CreatedInOrder(d.users, d.now) && UniqueUsers(d.users)
            && AllowLists(d.allowed, Kids(d.users), d.services, SharedOwner(d.users)) && OwnerKept(db, d)
  {
    var users' := db.users[id := u];
    AddedRow(db.users, db.now, id, u);
    AddedRoles(db.users, db.now, id, u);
    WiderAllowLists(db.allowed, Kids(db.users), db.services, SharedOwner(db.users), Kids(users'), SharedOwner(users'));
  }

  lemma AddUserInv(db: Db, id: Id, u: User)
    requires Inv(db) && id !in db.users && u.createdAt == db.now && Credentialed(u) && KeysFree(db.users, u)
    ensures Inv(AddUser(db, id, u)) && OwnerKept(db, AddUser(db, id, u))
  {
    AddUserRefs(db, id, u);
    AddUserRows(db, id, u);
  }

  lemma UpdatedRow(users: map<Id, User>, now: nat, id: Id, u: User)
    requires Credentials(users) && CreatedInOrder(users, now) && UniqueUsers(users)
    requires id in users && u.createdAt == users[id].createdAt && Credentialed(u)
    requires EmailKey(u) == EmailKey(users[id])
    requires KidKey(u).Some? ==> forall v | v in users && v != id :: KidKey(users[v]) != KidKey(u)
    ensures Credentials(users[id := u]) && CreatedInOrder(users[id := u], now) && UniqueUsers(users[id := u])
  {
  }

  lemma UpdatedRoles(users: map<Id, User>, id: Id, u: User)
    requires id in users && u.createdAt == users[id].createdAt && u.role == users[id].role
    ensures users[id := u].Keys == users.Keys && Kids(users[id := u]) == Kids(users)
    ensures SharedOwner(users[id := u]) == SharedOwner(users)
  {
    OwnerUnmoved(users, users[id := u]);
  }

  lemma UpdateUserInv(db: Db, id: Id, u: User)
    requires Inv(db) && id in db.users && u.createdAt == db.users[id].createdAt && u.role == db.users[id].role &&
             Credentialed(u)
    requires EmailKey(u) == EmailKey(db.users[id])
    requires KidKey(u) != KidKey(db.users[id]) && u.role.Kid? ==> !HasKidName(db, id, u.displayName.value)
    ensures Inv(db.(users := db.users[id := u])) && OwnerKept(db, db.(users := db.users[id := u]))
  {
    if KidKey(u).Some? {
      forall v | v in db.users && v != id ensures KidKey(db.users[v]) != KidKey(u) {
        assert KidKey(u) == KidKey(db.users[id]) || KidKey(u) == Some(Fold(u.displayName.value));
      }
    }
    UpdatedRow(db.users, db.now, id, u);
    UpdatedRoles(db.users, id, u);
  }

  lemma PutServiceInv(db: Db, id: Id, s: Service)
    requires Inv(db) && ServiceRef(s, db.users.Keys, db.categories, db.library.Keys) &&
             !HasSlug(db, id, s.owner, s.slug)
    requires id in db.services ==> db.services[id].owner == s.owner
    ensures Inv(db.(services := db.services[id := s]))
  {
    var services' := db.services[id := s];
    forall t | t in services' ensures ServiceRef(services'[t], db.users.Keys, db.categories, db.library.Keys) {
      if t != id { assert ServiceRef(db.services[t], db.users.Keys, db.categories, db.library.Keys); }
    }
    PutSlug(db, id, s);
    assert db.services.Keys <= services'.Keys;
  }

  lemma PutSlug(db: Db, id: Id, s: Service)
    requires UniqueSlugs(db.services) && !HasSlug(db, id, s.owner, s.slug)
    ensures UniqueSlugs(db.services[id := s])
  {
  }

  lemma PutCategoryRefs(services: map<Id, Service>, users: set<Id>, categories: map<Id, Category>, library: set<Id>,
                        id: Id, c: Category)
    requires ServiceRefs(services, users, categories, library)
    requires id in categories ==> categories[id].owner == c.owner
    ensures ServiceRefs(services, users, categories[id := c], library)
  {
    forall s | s in services ensures ServiceRef(services[s], users, categories[id := c], library) {
      assert ServiceRef(services[s], users, categories, library);
    }
  }

  lemma PutName(db: Db, id: Id, c: Category)
    requires UniqueNames(db.categories) && !HasName(db, id, c.owner, c.name)
    ensures UniqueNames(db.categories[id := c])
  {
  }

  lemma PutCategoryInv(db: Db, id: Id, c: Category)
    requires Inv(db) && c.owner in db.users && !HasName(db, id, c.owner, c.name) && ValidSpan(c.width)
    requires id in db.categories ==> db.categories[id].owner == c.owner
    ensures Inv(db.(categories := db.categories[id := c]))
  {
    PutCategoryRefs(db.services, db.users.Keys, db.categories, db.library.Keys, id, c);
    PutName(db, id, c);
    assert db.categories.Keys <= db.categories[id := c].Keys;
  }

  lemma ReindexInv(db: Db, ids: seq<Id>)
    requires Inv(db)
    ensures Inv(db.(categories := Reindexed(db.categories, ids)))
  {
    var categories' := Reindexed(db.categories, ids);
    assert categories'.Keys == db.categories.Keys;
    forall s | s in db.services ensures ServiceRef(db.services[s], db.users.Keys, categories', db.library.Keys) {
      assert ServiceRef(db.services[s], db.users.Keys, db.categories, db.library.Keys);
    }
    ReindexedNames(db.categories, db.users.Keys, ids);
  }

  lemma ReindexedNames(categories: map<Id, Category>, users: set<Id>, ids: seq<Id>)
    requires CategoryRows(categories, users) && UniqueNames(categories)
    ensures CategoryRows(Reindexed(categories, ids), users) && UniqueNames(Reindexed(categories, ids))
  {
  }

  /** SetLayout accepts exactly the lists of distinct existing services. */
  lemma {:induction false} LayoutAccepts(db: Db, ids: seq<Id>, before: set<Id>)
    ensures LayoutError(db, ids, before) == Ok <==>
            Distinct(ids) && forall x | x in ids :: x in db.services && x !in before
    decreases |ids|
  {
    if ids != [] {
      LayoutAccepts(db, ids[1..], before + {ids[0]});
      DistinctTail(ids);
      assert ids == [ids[0]] + ids[1..];
    }
  }

  lemma DistinctTail(ids: seq<Id>)
    requires ids != []
    ensures Distinct(ids) <==> Distinct(ids[1..]) && ids[0] !in ids[1..]
  {
    if Distinct(ids) {
      forall x | x in ids[1..] ensures x != ids[0] {
        var k :| 0 <= k < |ids| - 1 && ids[1..][k] == x;
        assert ids[k + 1] == x;
      }
    }
    if Distinct(ids[1..]) && ids[0] !in ids[1..] {
      forall i, j | 0 <= i < j < |ids| ensures ids[i] != ids[j] {
        assert ids[j] == ids[1..][j - 1];
        if i > 0 { assert ids[i] == ids[1..][i - 1]; }
      }
    }
  }

  lemma PlacedInv(db: Db, u: Id, ids: seq<Id>)
    requires Inv(db) && LayoutError(db, ids, {}) == Ok && (u in db.users || ids == [])
    ensures Inv(db.(layout := Placed(db.layout, u, ids)))
  {
    LayoutAccepts(db, ids, {});
    assert Links(Placed(db.layout, u, ids).Keys, db.users.Keys, db.services.Keys);
  }

  lemma NewAllowList(allowed: set<(Id, Id)>, kids: set<Id>, services: map<Id, Service>, owner: Option<Id>, kid: Id,
                     ids: set<Id>)
    requires AllowLists(allowed, kids, services, owner) && kid in kids
    requires forall s | s in ids :: s in services && owner == Some(services[s].owner)
    ensures AllowLists((set a | a in allowed && a.0 != kid) + Pairs(kid, ids), kids, services, owner)
  {
  }

  lemma SessionsInv(db: Db, m: S.Sessions)
    requires Inv(db) && S.DistinctHandles(m) && SessionRefs(m, db.users.Keys)
    ensures Inv(db.(sessions := m))
  {
  }

  // ---- every method

  lemma CreateUserInv(db: Db, id: Id, email: string, hash: string, role: Role)
    requires Inv(db) && id !in db.users
    ensures Inv(CreateUser(db, id, email, hash, role).0) && OwnerKept(db, CreateUser(db, id, email, hash, role).0)
  {
    var (db', err) := CreateUser(db, id, email, hash, role);
    if err.Ok? {
      NamesFree(db, id, db'.users[id]);
      AddUserInv(db, id, db'.users[id]);
    }
  }

  lemma CreateKidInv(db: Db, id: Id, name: string, color: string)
    requires Inv(db) && id !in db.users
    ensures Inv(CreateKid(db, id, name, color).0) && OwnerKept(db, CreateKid(db, id, name, color).0)
  {
    var (db', err) := CreateKid(db, id, name, color);
    if err.Ok? {
      NamesFree(db, id, db'.users[id]);
      AddUserInv(db, id, db'.users[id]);
    }
  }

  lemma UpdateKidInv(db: Db, id: Id, name: Option<string>, color: Option<string>)
    requires Inv(db)
    ensures Inv(UpdateKid(db, id, name, color).0) && OwnerKept(db, UpdateKid(db, id, name, color).0)
  {
    var (db', err) := UpdateKid(db, id, name, color);
    if err.Ok? {
      assert Credentialed(db.users[id]);
      UpdateUserInv(db, id, db'.users[id]);
    }
  }

  lemma SetPrefInv(db: Db, id: Id, p: Pref)
    requires Inv(db)
    ensures Inv(SetPref(db, id, p).0) && OwnerKept(db, SetPref(db, id, p).0)
  {
    if id in db.users {
      assert Credentialed(db.users[id]);
      UpdateUserInv(db, id, WithPref(db.users[id], p));
    }
  }

  lemma SetKidServicesInv(db: Db, kid: Id, ids: seq<Id>)
    requires Inv(db)
    ensures Inv(SetKidServices(db, kid, ids).0) && SetKidServices(db, kid, ids).0.users == db.users
  {
    if SetKidServices(db, kid, ids).1.Ok? {
      NewAllowList(db.allowed, Kids(db.users), db.services, SharedOwner(db.users), kid, Members(ids));
    }
  }

  lemma CreateServiceInv(db: Db, id: Id, sv: Service)
    requires Inv(db) && id !in db.services
    ensures Inv(CreateService(db, id, sv).0)
  {
    if CreateService(db, id, sv).1.Ok? { PutServiceInv(db, id, sv.(category := None, source := None)); }
  }

  lemma PatchKeepsSlugFree(db: Db, id: Id, owner: Id, p: ServicePatch)
    requires UniqueSlugs(db.services) && OwnsService(db, owner, id)
    requires p.slug.Some? ==> !HasSlug(db, id, owner, p.slug.value)
    ensures !HasSlug(db, id, owner, Patched(db.services[id], p).slug)
  {
  }

  lemma UpdateServiceInv(db: Db, id: Id, owner: Id, p: ServicePatch)
    requires Inv(db)
    ensures Inv(UpdateService(db, id, owner, p).0)
  {
    if UpdateService(db, id, owner, p).1.Ok? {
      assert ServiceRef(db.services[id], db.users.Keys, db.categories, db.library.Keys);
      PatchKeepsSlugFree(db, id, owner, p);
      PutServiceInv(db, id, Patched(db.services[id], p));
    }
  }

  lemma AddFromLibraryInv(db: Db, id: Id, owner: Id, offer: Id, category: Option<Id>)
    requires Inv(db) && id !in db.services
    ensures Inv(AddFromLibrary(db, id, owner, offer, category).0)
  {
    var (db', err) := AddFromLibrary(db, id, owner, offer, category);
    if err.Ok? {
      assert forall s | s in db.services && db.services[s].owner == owner ::
               db.services[s].slug in TakenSlugs(db, owner);
      PutServiceInv(db, id, db'.services[id]);
    }
  }

  lemma MoreOffers(db: Db, library: map<Id, Offer>)
    requires Inv(db) && db.library.Keys <= library.Keys
    ensures Inv(db.(library := library))
  {
    forall s | s in db.services ensures ServiceRef(db.services[s], db.users.Keys, db.categories, library.Keys) {
      assert ServiceRef(db.services[s], db.users.Keys, db.categories, db.library.Keys);
    }
  }

  lemma IconsInv(db: Db, icons: map<(Id, Variant), Icon>)
    requires Inv(db) && IconRefs(icons, db.services.Keys)
    ensures Inv(db.(icons := icons))
  {
  }

  lemma FavoritesInv(db: Db, favorites: set<(Id, Id)>)
    requires Inv(db) && Links(favorites, db.users.Keys, db.services.Keys)
    ensures Inv(db.(favorites := favorites))
  {
  }

  lemma CollapsedInv(db: Db, u: Id, ids: seq<Id>)
    requires Inv(db)
    ensures Inv(SetCollapsed(db, u, ids).0)
  {
    var (db', err) := SetCollapsed(db, u, ids);
    assert Links(db'.collapsed, db.users.Keys, db.categories.Keys);
  }

  lemma CreateCategoryInv(db: Db, id: Id, owner: Id, name: string)
    requires Inv(db) && id !in db.categories
    ensures Inv(CreateCategory(db, id, owner, name).0)
  {
    var (db', err) := CreateCategory(db, id, owner, name);
    if err.Ok? { PutCategoryInv(db, id, db'.categories[id]); }
  }

  lemma RenameCategoryInv(db: Db, id: Id, owner: Id, name: string)
    requires Inv(db)
    ensures Inv(RenameCategory(db, id, owner, name).0)
  {
    if RenameCategory(db, id, owner, name).1.Ok? { PutCategoryInv(db, id, db.categories[id].(name := name)); }
  }

  lemma SetCategoryWidthInv(db: Db, id: Id, owner: Id, width: int)
    requires Inv(db)
    ensures Inv(SetCategoryWidth(db, id, owner, width).0)
  {
    if SetCategoryWidth(db, id, owner, width).1.Ok? {
      assert !HasName(db, id, owner, db.categories[id].name);
      PutCategoryInv(db, id, db.categories[id].(width := width));
    }
  }

  /** A session operation leaves only sessions of existing users, with distinct handles. */
  lemma SessionsKept(m: S.Sessions, users: set<Id>, gone: set<S.Token>)
    requires SessionRefs(m, users) && S.DistinctHandles(m)
    ensures SessionRefs(m - gone, users) && S.DistinctHandles(m - gone)
  {
  }

  lemma SessionCreated(m: S.Sessions, users: set<Id>, token: S.Token, s: S.Session)
    requires SessionRefs(m, users) && S.DistinctHandles(m) && s.userID in users
    requires forall t | t in m && t != token :: m[t].handle != s.handle
    ensures SessionRefs(m[token := s], users) && S.DistinctHandles(m[token := s])
  {
  }

  lemma CreateSessionInv(db: Db, token: S.Token, handle: nat, user: Id, lifetime: int, ua: UserAgent.Bytes, clock: int)
    requires Inv(db) && forall t | t in db.sessions :: db.sessions[t].handle != handle
    ensures Inv(CreateSession(db, token, handle, user, lifetime, ua, clock).0)
  {
    if user in db.users && lifetime > 0 {
      var s := S.NewSession(handle, user, lifetime, ua, S.ClockNow(clock));
      SessionCreated(db.sessions, db.users.Keys, token, s);
      SessionsInv(db, db.sessions[token := s]);
    }
  }

  lemma SlideInv(db: Db, token: S.Token, lifetime: int, clock: int)
    requires Inv(db)
    ensures Inv(Slide(db, token, lifetime, clock))
  {
    var m := S.Touch(db.sessions, token, lifetime, clock).0;
    if m != db.sessions {
      assert m == db.sessions[token := m[token]];
      SessionCreated(db.sessions, db.users.Keys, token, m[token]);
      SessionsInv(db, m);
    }
  }

  lemma DropSessionsInv(db: Db, gone: set<S.Token>)
    requires Inv(db)
    ensures Inv(db.(sessions := db.sessions - gone))
  {
    SessionsKept(db.sessions, db.users.Keys, gone);
    SessionsInv(db, db.sessions - gone);
  }

  lemma RevokeInv(db: Db, user: Id, handle: nat)
    requires Inv(db)
    ensures Inv(db.(sessions := S.RevokeByHandle(db.sessions, user, handle).0))
  {
    if S.Named(db.sessions, user, handle) != {} { DropSessionsInv(db, S.Named(db.sessions, user, handle)); }
  }

  lemma SessionOpInv(db: Db, op: SessionOp)
    requires Inv(db) && FreshSession(db, op)
    ensures Inv(ApplySession(db, op).0)
  {
    match op
    case CreateSessionOp(token, handle, user, lifetime, ua, clock) =>
      CreateSessionInv(db, token, handle, user, lifetime, ua, clock);
    case TouchOp(token, lifetime, clock) => SlideInv(db, token, lifetime, clock);
    case DestroyOp(token) => DropSessionsInv(db, {token});
    case RevokeOp(user, handle) => RevokeInv(db, user, handle);
    case SweepOp(clock) => DropSessionsInv(db, S.Expired(db.sessions, S.ClockNow(clock)));
  }

  lemma PutIconInv(db: Db, s: Id, owner: Id, v: Variant, icon: Icon)
    requires Inv(db)
    ensures Inv(PutIcon(db, s, owner, v, icon).0) && Inv(DeleteIcon(db, s, owner, v).0)
  {
    IconsInv(db, db.icons - {(s, v)});
    if OwnsService(db, owner, s) { IconsInv(db, db.icons[(s, v) := icon]); }
  }

  lemma FavoriteInv(db: Db, u: Id, s: Id)
    requires Inv(db)
    ensures Inv(AddFavorite(db, u, s).0) && Inv(RemoveFavorite(db, u, s).0)
  {
    FavoritesInv(db, db.favorites - {(u, s)});
    if u in db.users && s in db.services { FavoritesInv(db, db.favorites + {(u, s)}); }
  }

  lemma OfferInv(db: Db, id: Id, offer: Offer)
    requires Inv(db)
    ensures Inv(CreateOffer(db, id, offer).0) && Inv(UpdateOffer(db, id, offer).0)
  {
    MoreOffers(db, db.library[id := offer]);
  }

  lemma SetLayoutInv(db: Db, u: Id, ids: seq<Id>)
    requires Inv(db)
    ensures Inv(SetLayout(db, u, ids).0)
  {
    if SetLayout(db, u, ids).1.Ok? { PlacedInv(db, u, ids); }
  }

  lemma DeleteServiceInv(db: Db, id: Id, owner: Id)
    requires Inv(db)
    ensures Inv(DeleteService(db, id, owner).0)
  {
    WithoutServicesInv(db, {id});
  }

  lemma DeleteOfferInv(db: Db, id: Id)
    requires Inv(db)
    ensures Inv(DeleteOffer(db, id).0)
  {
    WithoutOfferInv(db, id);
  }

  lemma DeleteCategoryInv(db: Db, id: Id, owner: Id)
    requires Inv(db)
    ensures Inv(DeleteCategory(db, id, owner).0)
  {
    WithoutCategoriesInv(db, {id});
  }

  lemma SetCategoryOrderInv(db: Db, owner: Id, ids: seq<Id>)
    requires Inv(db)
    ensures Inv(SetCategoryOrder(db, owner, ids).0)
  {
    ReindexInv(db, ids);
  }

  lemma AccountOpInv(db: Db, op: AccountOp)
    requires Inv(db) && FreshAccount(db, op)
    ensures Inv(ApplyAccount(db, op).0) && OwnerKept(db, ApplyAccount(db, op).0)
  {
    match op
    case CreateUserOp(id, email, hash, role) => CreateUserInv(db, id, email, hash, role);
    case CreateKidOp(id, name, color) => CreateKidInv(db, id, name, color);
    case UpdateKidOp(id, name, color) => UpdateKidInv(db, id, name, color);
    case DeleteKidOp(id) => if IsKid(db, id) { WithoutKidInv(db, id); }
    case SetPrefOp(id, p) => SetPrefInv(db, id, p);
    case SetKidServicesOp(kid, ids) => SetKidServicesInv(db, kid, ids);
    case SetUptimeDefaultOp(_) =>
  }

  lemma CatalogOpInv(db: Db, op: CatalogOp)
    requires Inv(db) && FreshCatalog(db, op)
    ensures Inv(ApplyCatalog(db, op).0)
  {
    match op
    case CreateServiceOp(id, sv) => CreateServiceInv(db, id, sv);
    case UpdateServiceOp(id, owner, p) => UpdateServiceInv(db, id, owner, p);
    case DeleteServiceOp(id, owner) => DeleteServiceInv(db, id, owner);
    case AddFromLibraryOp(id, owner, offer, category) => AddFromLibraryInv(db, id, owner, offer, category);
    case DeleteOfferOp(id) => DeleteOfferInv(db, id);
    case CreateOfferOp(id, offer) => OfferInv(db, id, offer);
    case UpdateOfferOp(id, offer) => OfferInv(db, id, offer);
    case PutIconOp(s, owner, v, icon) => PutIconInv(db, s, owner, v, icon);
    case DeleteIconOp(s, owner, v) => PutIconInv(db, s, owner, v, Icon([], ""));
  }

  lemma SectionOpInv(db: Db, op: SectionOp)
    requires Inv(db) && (op.CreateCategoryOp? ==> op.id !in db.categories)
    ensures Inv(ApplySection(db, op).0)
  {
    match op
    case CreateCategoryOp(id, owner, name) => CreateCategoryInv(db, id, owner, name);
    case RenameCategoryOp(id, owner, name) => RenameCategoryInv(db, id, owner, name);
    case SetCategoryWidthOp(id, owner, width) => SetCategoryWidthInv(db, id, owner, width);
    case SetCategoryOrderOp(owner, ids) => SetCategoryOrderInv(db, owner, ids);
    case DeleteCategoryOp(id, owner) => DeleteCategoryInv(db, id, owner);
    case SetLayoutOp(u, ids) => SetLayoutInv(db, u, ids);
    case SetCollapsedOp(u, ids) => CollapsedInv(db, u, ids);
    case AddFavoriteOp(u, s) => FavoriteInv(db, u, s);
    case RemoveFavoriteOp(u, s) => FavoriteInv(db, u, s);
  }

  lemma CatalogKeepsUsers(db: Db, c: CatalogOp)
    ensures ApplyCatalog(db, c).0.users == db.users
  {
  }

  lemma SectionKeepsUsers(db: Db, s: SectionOp)
    ensures ApplySection(db, s).0.users == db.users
  {
  }

  lemma SessionKeepsUsers(db: Db, o: SessionOp)
    ensures ApplySession(db, o).0.users == db.users
  {
  }

  /** Every store method keeps the invariant. */
  lemma OpInv(db: Db, op: Op)
    requires Inv(db) && Fresh(db, op)
    ensures Inv(Apply(db, op).0)
  {
    match op
    case Account(a) => AccountOpInv(db, a);
    case Catalog(c) => CatalogOpInv(db, c);
    case Section(s) => SectionOpInv(db, s);
    case Session(o) => SessionOpInv(db, o);
  }

  /** Once there is a shared owner, no method changes who it is. */
  lemma OwnerNeverChanges(db: Db, op: Op)
    requires Inv(db) && Fresh(db, op)
    ensures OwnerKept(db, Apply(db, op).0)
  {
    match op
    case Account(a) => AccountOpInv(db, a);
    case Catalog(c) => CatalogKeepsUsers(db, c);
    case Section(s) => SectionKeepsUsers(db, s);
    case Session(o) => SessionKeepsUsers(db, o);
  }

  // ---- every run

  ghost predicate FreshRun(db: Db, ops: seq<Op>)
    decreases |ops|
  {
    ops == [] || (Fresh(db, ops[0]) && FreshRun(Apply(db, ops[0]).0, ops[1..]))
  }

  function After(db: Db, ops: seq<Op>): Db
    decreases |ops|
  {
    if ops == [] then db else After(Apply(db, ops[0]).0, ops[1..])
  }

  const EMPTY := Db(map[], map[], map[], map[], {}, map[], map[], {}, {}, map[], None, 0)

  /** Whatever calls are made, in whatever order, no reference dangles, credentials are missing
      exactly for kids, only kids hold allow-lists and only of the shared catalog, a service's
      category is its owner's, and a shared owner, once there is one, stays. */
  lemma {:induction false} ReachableInv(db: Db, ops: seq<Op>)
    requires Inv(db) && FreshRun(db, ops)
    ensures Inv(After(db, ops))
    ensures OwnerKept(db, After(db, ops))
    decreases |ops|
  {
    if ops != [] {
      OpInv(db, ops[0]);
      OwnerNeverChanges(db, ops[0]);
      ReachableInv(Apply(db, ops[0]).0, ops[1..]);
    }
  }

  lemma EmptyInv()
    ensures Inv(EMPTY)
  {
  }

  /** Every database reachable from the empty one by store methods satisfies the invariant. */
  lemma ReachableFromEmpty(ops: seq<Op>)
    requires FreshRun(EMPTY, ops)
    ensures Inv(After(EMPTY, ops))
  {
    EmptyInv();
    ReachableInv(EMPTY, ops);
  }
}
