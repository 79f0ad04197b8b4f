/** Which store calls a kid cannot notice: all but those on its own account, its allowed services
    and the categories holding them. */
module KidUnseen {
  import opened Base
  import opened Schema
  import opened Statements
  import opened Listings
  import opened StoreInvariant
  import opened KidIsolation
  import S = SessionSpec
  import G = Gatus

  function OwnCategoryIds(db: Db, kid: Id): set<Id>
  {
    CategoryIds(OwnServices(db, kid))
  }

  /** The call is on the kid, on a service it may see, or on a category holding one. */
  ghost predicate Touches(db: Db, kid: Id, op: Op)
  {
    match op
    case Account(a) => !a.SetUptimeDefaultOp? && a.id == kid
    case Catalog(c) =>
      if c.CreateOfferOp? || c.UpdateOfferOp? then false
      else if c.DeleteOfferOp? then exists s | s in AllowList(db, kid) :: db.services[s].source == Some(c.id)
      else c.id in AllowList(db, kid)
    case Section(c) =>
      (match c
       case CreateCategoryOp(_, _, _) => false
       case RenameCategoryOp(id, _, _) => id in OwnCategoryIds(db, kid)
       case SetCategoryWidthOp(id, _, _) => id in OwnCategoryIds(db, kid)
       case DeleteCategoryOp(id, _) => id in OwnCategoryIds(db, kid)
       case SetCategoryOrderOp(_, ids) => exists id | id in ids :: id in OwnCategoryIds(db, kid)
       case SetLayoutOp(user, _) => user == kid
       case SetCollapsedOp(user, _) => user == kid
       case AddFavoriteOp(user, _) => user == kid
       case RemoveFavoriteOp(user, _) => user == kid)
    case Session(o) =>
      (match o
       case CreateSessionOp(_, _, user, _, _, _) => user == kid
       case TouchOp(token, _, _) => token in OwnSessions(db, kid)
       case DestroyOp(token) => token in OwnSessions(db, kid)
       case RevokeOp(user, _) => user == kid
       case SweepOp(clock) => exists t | t in OwnSessions(db, kid) :: !S.Live(db.sessions[t], S.ClockNow(clock)))
  }

  /** Nothing in the kid's view differs. */
  ghost predicate Undisturbed(db: Db, db': Db, kid: Id)
  {
    && SameAccount(db, db', kid)
    && SameServices(db, db', kid)
    && SameSections(db, db', kid)
  }

  ghost predicate SameAccount(db: Db, db': Db, kid: Id)
  {
    && kid in db.users && kid in db'.users && db'.users[kid] == db.users[kid]
    && (forall t | t in db.sessions && db.sessions[t].userID == kid ::
         t in db'.sessions && db'.sessions[t] == db.sessions[t])
    && (forall t | t in db'.sessions && db'.sessions[t].userID == kid ::
         t in db.sessions && db.sessions[t] == db'.sessions[t])
  }

  ghost predicate SameServices(db: Db, db': Db, kid: Id)
  {
    && AllowList(db', kid) == AllowList(db, kid)
    && (forall s | s in AllowList(db, kid) :: s in db'.services && db'.services[s] == db.services[s])
    && (forall s, v: Variant | s in AllowList(db, kid) ::
          ((s, v) in db'.icons <==> (s, v) in db.icons) &&
            ((s, v) in db.icons ==> db'.icons[(s, v)] == db.icons[(s, v)]))
    && (forall s | s in AllowList(db, kid) :: (kid, s) in db'.favorites <==> (kid, s) in db.favorites)
    && (forall s | s in AllowList(db, kid) :: Place(db', kid, s) == Place(db, kid, s))
  }

  ghost predicate SameSections(db: Db, db': Db, kid: Id)
  {
    && (forall c | c in OwnCategoryIds(db, kid) ::
          (c in db'.categories <==> c in db.categories) &&
            (c in db.categories ==> db'.categories[c] == db.categories[c]))
    && (forall c | c in OwnCategoryIds(db, kid) :: (kid, c) in db'.collapsed <==> (kid, c) in db.collapsed)
  }

  lemma UndisturbedServices(db: Db, db': Db, kid: Id)
    requires SameServices(db, db', kid)
    ensures OwnServices(db', kid) == OwnServices(db, kid) && OwnFavorites(db', kid) == OwnFavorites(db, kid)
  {
  }

  lemma UndisturbedIcons(db: Db, db': Db, kid: Id)
    requires SameServices(db, db', kid)
    ensures OwnIcons(db', kid) == OwnIcons(db, kid)
  {
    forall i | i in db.icons && i.0 in AllowList(db, kid) ensures i in db'.icons && db'.icons[i] == db.icons[i] {
      assert i == (i.0, i.1);
    }
    forall i | i in db'.icons && i.0 in AllowList(db, kid) ensures i in db.icons {
      assert i == (i.0, i.1);
    }
  }

  lemma UndisturbedLayout(db: Db, db': Db, kid: Id)
    requires SameServices(db, db', kid)
    ensures OwnLayout(db', kid) == OwnLayout(db, kid)
  {
    forall s | s in AllowList(db, kid)
      ensures (kid, s) in db'.layout <==> (kid, s) in db.layout
      ensures (kid, s) in db.layout ==> db'.layout[(kid, s)] == db.layout[(kid, s)]
    {
      assert Place(db', kid, s) == Place(db, kid, s);
    }
  }

  lemma UndisturbedSections(db: Db, db': Db, kid: Id)
    requires SameSections(db, db', kid) && OwnServices(db', kid) == OwnServices(db, kid)
    ensures OwnCategories(db', kid) == OwnCategories(db, kid) && OwnCollapsed(db', kid) == OwnCollapsed(db, kid)
  {
  }

  lemma UndisturbedView(db: Db, db': Db, snap: G.Snapshot, kid: Id)
    requires Undisturbed(db, db', kid)
    ensures ViewOf(db', snap, kid) == ViewOf(db, snap, kid)
  {
    UndisturbedServices(db, db', kid);
    UndisturbedIcons(db, db', kid);
    UndisturbedLayout(db, db', kid);
    UndisturbedSections(db, db', kid);
    assert OwnSessions(db', kid) == OwnSessions(db, kid);
    assert OwnStatuses(db', snap, kid) == OwnStatuses(db, snap, kid);
  }

  // ---- call by call

  lemma UserRowUnseen(db: Db, id: Id, u: User, now: nat, kid: Id)
    requires kid in db.users && id != kid
    ensures Undisturbed(db, db.(users := db.users[id := u], now := now), kid)
  {
  }

  lemma AllowedUnseen(db: Db, allowed: set<(Id, Id)>, kid: Id)
    requires kid in db.users && forall x: Id :: (kid, x) in allowed <==> (kid, x) in db.allowed
    ensures Undisturbed(db, db.(allowed := allowed), kid)
  {
    assert AllowList(db.(allowed := allowed), kid) == AllowList(db, kid);
  }

  lemma UnchangedUnseen(db: Db, kid: Id)
    requires kid in db.users
    ensures Undisturbed(db, db, kid)
  {
  }

  lemma OtherListUnseen(db: Db, other: Id, ids: seq<Id>, kid: Id)
    requires kid in db.users && other != kid
    ensures Undisturbed(db, SetKidServices(db, other, ids).0, kid)
  {
    UnchangedUnseen(db, kid);
    AllowedUnseen(db, (set a | a in db.allowed && a.0 != other) + Pairs(other, Members(ids)), kid);
  }

  /** An allowed service and its category belong to the shared owner, so no kid's deletion takes them. */
  lemma OtherKidOwnsNone(db: Db, other: Id, kid: Id)
    requires KidDb(db, kid) && IsKid(db, other)
    ensures forall s | s in AllowList(db, kid) :: db.services[s].owner != other
    ensures forall c | c in OwnCategoryIds(db, kid) :: c in db.categories && db.categories[c].owner != other
  {
    AllowedIsShared(db, kid);
    OwnerIsAdmin(db.users);
    OwnServiceRows(db, kid);
  }

  lemma OwnerIsAdmin(users: map<Id, User>)
    ensures SharedOwner(users).Some? ==>
              SharedOwner(users).value in users && users[SharedOwner(users).value].role.Admin?
  {
    if SharedOwner(users).Some? { OwnerIsOldestAdmin(users, SharedOwner(users).value); }
  }

  lemma ServicesGoneUnseen(db: Db, gone: set<Id>, kid: Id)
    requires kid in db.users && gone !! AllowList(db, kid)
    ensures Undisturbed(db, WithoutServices(db, gone), kid)
  {
    assert AllowList(WithoutServices(db, gone), kid) == AllowList(db, kid);
  }

  lemma CategoriesGoneUnseen(db: Db, gone: set<Id>, kid: Id)
    requires kid in db.users && gone !! OwnCategoryIds(db, kid)
    ensures Undisturbed(db, WithoutCategories(db, gone), kid)
  {
    var db' := WithoutCategories(db, gone);
    assert AllowList(db', kid) == AllowList(db, kid);
    OwnServiceRows(db, kid);
    forall s | s in AllowList(db, kid) ensures db'.services[s] == db.services[s] {
      assert db.services[s].category.Some? ==> db.services[s].category.value in OwnCategoryIds(db, kid);
    }
  }

  lemma OwnRowsGoneUnseen(db: Db, other: Id, kid: Id)
    requires kid in db.users && other != kid
    ensures Undisturbed(db, WithoutOwnRows(db, other), kid)
  {
    assert AllowList(WithoutOwnRows(db, other), kid) == AllowList(db, kid);
  }

  lemma OthersServicesGone(db: Db, snap: G.Snapshot, other: Id, kid: Id)
    requires KidDb(db, kid) && IsKid(db, other)
    ensures var d := WithoutServices(db, ServicesOf(db, other));
            && ViewOf(d, snap, kid) == ViewOf(db, snap, kid) && kid in d.users
            && CategoriesOf(d, other) !! OwnCategoryIds(d, kid) && CategoriesOf(d, other) == CategoriesOf(db, other)
  {
    OtherKidOwnsNone(db, other, kid);
    var d := WithoutServices(db, ServicesOf(db, other));
    ServicesGoneUnseen(db, ServicesOf(db, other), kid);
    UndisturbedView(db, d, snap, kid);
    UndisturbedServices(db, d, kid);
  }

  lemma CategoriesGoneView(db: Db, snap: G.Snapshot, gone: set<Id>, kid: Id)
    requires kid in db.users && gone !! OwnCategoryIds(db, kid)
    ensures ViewOf(WithoutCategories(db, gone), snap, kid) == ViewOf(db, snap, kid)
  {
    CategoriesGoneUnseen(db, gone, kid);
    UndisturbedView(db, WithoutCategories(db, gone), snap, kid);
  }

  lemma OwnRowsGoneView(db: Db, snap: G.Snapshot, other: Id, kid: Id)
    requires kid in db.users && other != kid
    ensures ViewOf(WithoutOwnRows(db, other), snap, kid) == ViewOf(db, snap, kid)
  {
    OwnRowsGoneUnseen(db, other, kid);
    UndisturbedView(db, WithoutOwnRows(db, other), snap, kid);
  }

  lemma OtherKidGoneUnseen(db: Db, snap: G.Snapshot, other: Id, kid: Id)
    requires KidDb(db, kid) && IsKid(db, other) && other != kid
    ensures ViewOf(DeleteKid(db, other).0, snap, kid) == ViewOf(db, snap, kid)
  {
    var d1 := WithoutServices(db, ServicesOf(db, other));
    OthersServicesGone(db, snap, other, kid);
    CategoriesGoneView(d1, snap, CategoriesOf(db, other), kid);
    OwnRowsGoneView(WithoutCategories(d1, CategoriesOf(db, other)), snap, other, kid);
  }

  lemma NewUserUnseen(db: Db, id: Id, email: string, hash: string, role: Role, kid: Id)
    requires kid in db.users && id != kid
    ensures Undisturbed(db, CreateUser(db, id, email, hash, role).0, kid)
  {
    UnchangedUnseen(db, kid);
    var d := CreateUser(db, id, email, hash, role).0;
    if d != db { UserRowUnseen(db, id, d.users[id], db.now + 1, kid); }
  }

  lemma NewKidUnseen(db: Db, id: Id, name: string, color: string, kid: Id)
    requires kid in db.users && id != kid
    ensures Undisturbed(db, CreateKid(db, id, name, color).0, kid)
  {
    UnchangedUnseen(db, kid);
    var d := CreateKid(db, id, name, color).0;
    if d != db { UserRowUnseen(db, id, d.users[id], db.now + 1, kid); }
  }

  lemma OtherAccountUnseen(db: Db, id: Id, name: Option<string>, color: Option<string>, pref: Pref, kid: Id)
    requires kid in db.users && id != kid
    ensures Undisturbed(db, UpdateKid(db, id, name, color).0, kid) && Undisturbed(db, SetPref(db, id, pref).0, kid)
  {
    UnchangedUnseen(db, kid);
    var d1, d2 := UpdateKid(db, id, name, color).0, SetPref(db, id, pref).0;
    if id in db.users {
      UserRowUnseen(db, id, d1.users[id], db.now, kid);
      UserRowUnseen(db, id, d2.users[id], db.now, kid);
      assert d1 == db || d1 == db.(users := db.users[id := d1.users[id]], now := db.now);
      assert d2 == db.(users := db.users[id := d2.users[id]], now := db.now);
    }
  }

  lemma DefaultUnseen(db: Db, show: bool, kid: Id)
    requires kid in db.users
    ensures Undisturbed(db, db.(uptimeDefault := Some(show)), kid)
  {
    assert AllowList(db.(uptimeDefault := Some(show)), kid) == AllowList(db, kid);
  }

  lemma AccountUnseen(db: Db, snap: G.Snapshot, op: AccountOp, kid: Id)
    requires KidDb(db, kid) && FreshAccount(db, op) && !Touches(db, kid, Account(op))
    ensures ViewOf(ApplyAccount(db, op).0, snap, kid) == ViewOf(db, snap, kid)
  {
    var db' := ApplyAccount(db, op).0;
    match op
    case CreateUserOp(id, email, hash, role) =>
      NewUserUnseen(db, id, email, hash, role, kid); UndisturbedView(db, db', snap, kid);
    case CreateKidOp(id, name, color) =>
      NewKidUnseen(db, id, name, color, kid); UndisturbedView(db, db', snap, kid);
    case UpdateKidOp(id, name, color) =>
      OtherAccountUnseen(db, id, name, color, HealthBarPref(true), kid); UndisturbedView(db, db', snap, kid);
    case SetPrefOp(id, pref) =>
      OtherAccountUnseen(db, id, None, None, pref, kid); UndisturbedView(db, db', snap, kid);
    case DeleteKidOp(id) => if IsKid(db, id) { OtherKidGoneUnseen(db, snap, id, kid); }
    case SetKidServicesOp(id, ids) => OtherListUnseen(db, id, ids, kid); UndisturbedView(db, db', snap, kid);
    case SetUptimeDefaultOp(show) => DefaultUnseen(db, show, kid); UndisturbedView(db, db', snap, kid);
  }

  lemma ServiceRowUnseen(db: Db, id: Id, s: Service, kid: Id)
    requires kid in db.users && id !in AllowList(db, kid) && (kid, id) !in db.allowed
    ensures Undisturbed(db, db.(services := db.services[id := s]), kid)
  {
    assert AllowList(db.(services := db.services[id := s]), kid) == AllowList(db, kid);
  }

  lemma OfferGoneUnseen(db: Db, offer: Id, kid: Id)
    requires kid in db.users && forall s | s in AllowList(db, kid) :: db.services[s].source != Some(offer)
    ensures Undisturbed(db, WithoutOffer(db, offer), kid)
  {
    assert AllowList(WithoutOffer(db, offer), kid) == AllowList(db, kid);
  }

  lemma NoListedStranger(db: Db, id: Id, kid: Id)
    requires Inv(db) && id !in AllowList(db, kid)
    ensures (kid, id) !in db.allowed
  {
  }

  lemma IconsUnseen(db: Db, icons: map<(Id, Variant), Icon>, id: Id, kid: Id)
    requires kid in db.users && id !in AllowList(db, kid)
    requires forall s, v: Variant | s != id ::
               ((s, v) in icons <==> (s, v) in db.icons) &&
                 ((s, v) in icons && (s, v) in db.icons ==> icons[(s, v)] == db.icons[(s, v)])
    ensures Undisturbed(db, db.(icons := icons), kid)
  {
    assert AllowList(db.(icons := icons), kid) == AllowList(db, kid);
  }

  lemma CreateServiceUnseen(db: Db, id: Id, sv: Service, kid: Id)
    requires Inv(db) && kid in db.users && id !in db.services
    ensures Undisturbed(db, CreateService(db, id, sv).0, kid)
  {
    NoListedStranger(db, id, kid);
    UnchangedUnseen(db, kid);
    ServiceRowUnseen(db, id, sv.(category := None, source := None), kid);
  }

  lemma UpdateServiceUnseen(db: Db, id: Id, owner: Id, p: ServicePatch, kid: Id)
    requires Inv(db) && kid in db.users && id !in AllowList(db, kid)
    ensures Undisturbed(db, UpdateService(db, id, owner, p).0, kid)
  {
    NoListedStranger(db, id, kid);
    UnchangedUnseen(db, kid);
    if id in db.services { ServiceRowUnseen(db, id, Patched(db.services[id], p), kid); }
  }

  lemma AddFromLibraryUnseen(db: Db, id: Id, owner: Id, offer: Id, category: Option<Id>, kid: Id)
    requires Inv(db) && kid in db.users && id !in db.services
    ensures Undisturbed(db, AddFromLibrary(db, id, owner, offer, category).0, kid)
  {
    NoListedStranger(db, id, kid);
    UnchangedUnseen(db, kid);
    var db' := AddFromLibrary(db, id, owner, offer, category).0;
    if db' != db { ServiceRowUnseen(db, id, db'.services[id], kid); }
  }

  lemma IconCallsUnseen(db: Db, id: Id, owner: Id, v: Variant, icon: Icon, kid: Id)
    requires kid in db.users && id !in AllowList(db, kid)
    ensures Undisturbed(db, PutIcon(db, id, owner, v, icon).0, kid) &&
            Undisturbed(db, DeleteIcon(db, id, owner, v).0, kid)
  {
    UnchangedUnseen(db, kid);
    IconsUnseen(db, db.icons[(id, v) := icon], id, kid);
    IconsUnseen(db, db.icons - {(id, v)}, id, kid);
  }

  lemma OfferCallsUnseen(db: Db, id: Id, offer: Offer, kid: Id)
    requires kid in db.users
    ensures Undisturbed(db, CreateOffer(db, id, offer).0, kid) && Undisturbed(db, UpdateOffer(db, id, offer).0, kid)
  {
    UnchangedUnseen(db, kid);
    LibraryUnseen(db, db.library[id := offer], kid);
  }

  lemma DeleteServiceUnseen(db: Db, id: Id, owner: Id, kid: Id)
    requires kid in db.users && id !in AllowList(db, kid)
    ensures Undisturbed(db, DeleteService(db, id, owner).0, kid)
  {
    UnchangedUnseen(db, kid);
    ServicesGoneUnseen(db, {id}, kid);
  }

  lemma OfferOpUndisturbed(db: Db, op: CatalogOp, kid: Id)
    requires kid in db.users && (op.CreateOfferOp? || op.UpdateOfferOp? || op.DeleteOfferOp?)
    requires op.DeleteOfferOp? ==> forall s | s in AllowList(db, kid) :: db.services[s].source != Some(op.id)
    ensures Undisturbed(db, ApplyCatalog(db, op).0, kid)
  {
    match op
    case CreateOfferOp(id, offer) => OfferCallsUnseen(db, id, offer, kid);
    case UpdateOfferOp(id, offer) => OfferCallsUnseen(db, id, offer, kid);
    case DeleteOfferOp(id) => OfferGoneUnseen(db, id, kid);
  }

  lemma IconOpUndisturbed(db: Db, op: CatalogOp, kid: Id)
    requires kid in db.users && (op.PutIconOp? || op.DeleteIconOp?) && op.id !in AllowList(db, kid)
    ensures Undisturbed(db, ApplyCatalog(db, op).0, kid)
  {
    match op
    case PutIconOp(id, owner, v, icon) => IconCallsUnseen(db, id, owner, v, icon, kid);
    case DeleteIconOp(id, owner, v) => IconCallsUnseen(db, id, owner, v, Icon([], ""), kid);
  }

  lemma ServiceOpUndisturbed(db: Db, op: CatalogOp, kid: Id)
    requires KidDb(db, kid) && FreshCatalog(db, op) && !Touches(db, kid, Catalog(op))
    requires op.CreateServiceOp? || op.UpdateServiceOp? || op.DeleteServiceOp? || op.AddFromLibraryOp?
    ensures Undisturbed(db, ApplyCatalog(db, op).0, kid)
  {
    match op
    case CreateServiceOp(id, sv) => CreateServiceUnseen(db, id, sv, kid);
    case UpdateServiceOp(id, owner, p) => UpdateServiceUnseen(db, id, owner, p, kid);
    case DeleteServiceOp(id, owner) => DeleteServiceUnseen(db, id, owner, kid);
    case AddFromLibraryOp(id, owner, offer, category) => AddFromLibraryUnseen(db, id, owner, offer, category, kid);
  }

  lemma CatalogUndisturbed(db: Db, op: CatalogOp, kid: Id)
    requires KidDb(db, kid) && FreshCatalog(db, op) && !Touches(db, kid, Catalog(op))
    ensures Undisturbed(db, ApplyCatalog(db, op).0, kid)
  {
    if op.PutIconOp? || op.DeleteIconOp? {
      IconOpUndisturbed(db, op, kid);
    } else if op.CreateOfferOp? || op.UpdateOfferOp? || op.DeleteOfferOp? {
      OfferOpUndisturbed(db, op, kid);
    } else {
      ServiceOpUndisturbed(db, op, kid);
    }
  }

  lemma LibraryUnseen(db: Db, library: map<Id, Offer>, kid: Id)
    requires kid in db.users
    ensures Undisturbed(db, db.(library := library), kid)
  {
    assert AllowList(db.(library := library), kid) == AllowList(db, kid);
  }

  lemma CategoryRowsUnseen(db: Db, categories: map<Id, Category>, kid: Id)
    requires kid in db.users
    requires forall c | c in OwnCategoryIds(db, kid) ::
               c in db.categories && c in categories && categories[c] == db.categories[c]
    ensures Undisturbed(db, db.(categories := categories), kid)
  {
    assert AllowList(db.(categories := categories), kid) == AllowList(db, kid);
  }

  lemma PersonalUnseen(db: Db, favorites: set<(Id, Id)>, layout: map<(Id, Id), int>, collapsed: set<(Id, Id)>, kid: Id)
    requires kid in db.users
    requires forall x: Id :: (kid, x) in favorites <==> (kid, x) in db.favorites
    requires forall x: Id :: (kid, x) in layout <==> (kid, x) in db.layout
    requires forall x: Id :: (kid, x) in layout && (kid, x) in db.layout ==> layout[(kid, x)] == db.layout[(kid, x)]
    requires forall x: Id :: (kid, x) in collapsed <==> (kid, x) in db.collapsed
    ensures Undisturbed(db, db.(favorites := favorites, layout := layout, collapsed := collapsed), kid)
  {
    assert AllowList(db.(favorites := favorites, layout := layout, collapsed := collapsed), kid) == AllowList(db, kid);
  }

  lemma NewCategoryUnseen(db: Db, id: Id, owner: Id, name: string, kid: Id)
    requires kid in db.users && id !in OwnCategoryIds(db, kid)
    requires forall c | c in OwnCategoryIds(db, kid) :: c in db.categories
    ensures Undisturbed(db, CreateCategory(db, id, owner, name).0, kid)
  {
    UnchangedUnseen(db, kid);
    CategoryRowsUnseen(db, CreateCategory(db, id, owner, name).0.categories, kid);
  }

  lemma RenameCategoryUnseen(db: Db, id: Id, owner: Id, name: string, kid: Id)
    requires kid in db.users && id !in OwnCategoryIds(db, kid)
    requires forall c | c in OwnCategoryIds(db, kid) :: c in db.categories
    ensures Undisturbed(db, RenameCategory(db, id, owner, name).0, kid)
  {
    UnchangedUnseen(db, kid);
    CategoryRowsUnseen(db, RenameCategory(db, id, owner, name).0.categories, kid);
  }

  lemma CategoryWidthUnseen(db: Db, id: Id, owner: Id, width: int, kid: Id)
    requires kid in db.users && id !in OwnCategoryIds(db, kid)
    requires forall c | c in OwnCategoryIds(db, kid) :: c in db.categories
    ensures Undisturbed(db, SetCategoryWidth(db, id, owner, width).0, kid)
  {
    UnchangedUnseen(db, kid);
    CategoryRowsUnseen(db, SetCategoryWidth(db, id, owner, width).0.categories, kid);
  }

  lemma DeleteCategoryUnseen(db: Db, id: Id, owner: Id, kid: Id)
    requires kid in db.users && id !in OwnCategoryIds(db, kid)
    ensures Undisturbed(db, DeleteCategory(db, id, owner).0, kid)
  {
    UnchangedUnseen(db, kid);
    CategoriesGoneUnseen(db, {id}, kid);
  }

  lemma OrderCallUnseen(db: Db, owner: Id, ids: seq<Id>, kid: Id)
    requires kid in db.users && forall c | c in OwnCategoryIds(db, kid) :: c in db.categories && c !in ids
    ensures Undisturbed(db, SetCategoryOrder(db, owner, ids).0, kid)
  {
    UnchangedUnseen(db, kid);
    CategoryRowsUnseen(db, Reindexed(db.categories, ids), kid);
  }

  lemma OthersLayoutUnseen(db: Db, user: Id, ids: seq<Id>, kid: Id)
    requires kid in db.users && user != kid
    ensures Undisturbed(db, SetLayout(db, user, ids).0, kid)
  {
    UnchangedUnseen(db, kid);
    PersonalUnseen(db, db.favorites, Placed(db.layout, user, ids), db.collapsed, kid);
  }

  lemma OthersCollapsedUnseen(db: Db, user: Id, ids: seq<Id>, kid: Id)
    requires kid in db.users && user != kid
    ensures Undisturbed(db, SetCollapsed(db, user, ids).0, kid)
  {
    UnchangedUnseen(db, kid);
    PersonalUnseen(db, db.favorites, db.layout, SetCollapsed(db, user, ids).0.collapsed, kid);
  }

  lemma OthersFavoriteUnseen(db: Db, user: Id, id: Id, kid: Id)
    requires kid in db.users && user != kid
    ensures Undisturbed(db, AddFavorite(db, user, id).0, kid) && Undisturbed(db, RemoveFavorite(db, user, id).0, kid)
  {
    UnchangedUnseen(db, kid);
    PersonalUnseen(db, db.favorites + {(user, id)}, db.layout, db.collapsed, kid);
    PersonalUnseen(db, db.favorites - {(user, id)}, db.layout, db.collapsed, kid);
  }

  ghost predicate OwnSectionsExist(db: Db, kid: Id)
  {
    forall c | c in OwnCategoryIds(db, kid) :: c in db.categories
  }

  lemma SectionUnseen(db: Db, op: SectionOp, kid: Id)
    requires kid in db.users && OwnSectionsExist(db, kid)
    requires (op.CreateCategoryOp? ==> op.id !in db.categories) && !Touches(db, kid, Section(op))
    ensures Undisturbed(db, ApplySection(db, op).0, kid)
  {
    match op
    case CreateCategoryOp(id, owner, name) => NewCategoryUnseen(db, id, owner, name, kid);
    case RenameCategoryOp(id, owner, name) => RenameCategoryUnseen(db, id, owner, name, kid);
    case SetCategoryWidthOp(id, owner, width) => CategoryWidthUnseen(db, id, owner, width, kid);
    case DeleteCategoryOp(id, owner) => DeleteCategoryUnseen(db, id, owner, kid);
    case SetCategoryOrderOp(owner, ids) => OrderCallUnseen(db, owner, ids, kid);
    case SetLayoutOp(user, ids) => OthersLayoutUnseen(db, user, ids, kid);
    case SetCollapsedOp(user, ids) => OthersCollapsedUnseen(db, user, ids, kid);
    case AddFavoriteOp(user, id) => OthersFavoriteUnseen(db, user, id, kid);
    case RemoveFavoriteOp(user, id) => OthersFavoriteUnseen(db, user, id, kid);
  }

  lemma SectionUndisturbed(db: Db, op: SectionOp, kid: Id)
    requires KidDb(db, kid) && (op.CreateCategoryOp? ==> op.id !in db.categories) && !Touches(db, kid, Section(op))
    ensures Undisturbed(db, ApplySection(db, op).0, kid)
  {
    OwnCategoriesExist(db, kid);
    SectionUnseen(db, op, kid);
  }

  lemma OwnCategoriesExist(db: Db, kid: Id)
    requires KidDb(db, kid)
    ensures OwnSectionsExist(db, kid)
  {
    AllowedIsShared(db, kid);
    OwnServiceRows(db, kid);
  }

  lemma OthersSessionsUnseen(db: Db, m: S.Sessions, kid: Id)
    requires kid in db.users
    requires OthersOnly(db.sessions, m, kid)
    ensures Undisturbed(db, db.(sessions := m), kid)
  {
    assert AllowList(db.(sessions := m), kid) == AllowList(db, kid);
  }

  ghost predicate OthersOnly(m: S.Sessions, m': S.Sessions, kid: Id)
  {
    && (forall t | t in m && m[t].userID == kid :: t in m' && m'[t] == m[t])
    && (forall t | t in m' && m'[t].userID == kid :: t in m && m[t] == m'[t])
  }

  lemma SessionOthersOnly(db: Db, op: SessionOp, kid: Id)
    requires FreshSession(db, op) && !Touches(db, kid, Session(op))
    ensures OthersOnly(db.sessions, ApplySession(db, op).0.sessions, kid)
  {
  }

  lemma SessionUndisturbed(db: Db, op: SessionOp, kid: Id)
    requires KidDb(db, kid) && FreshSession(db, op) && !Touches(db, kid, Session(op))
    ensures Undisturbed(db, ApplySession(db, op).0, kid)
  {
    SessionOthersOnly(db, op, kid);
    OthersSessionsUnseen(db, ApplySession(db, op).0.sessions, kid);
    SessionsOnlyWritten(db, op);
  }

  lemma SessionsOnlyWritten(db: Db, op: SessionOp)
    ensures ApplySession(db, op).0 == db.(sessions := ApplySession(db, op).0.sessions)
  {
  }

  /** A call that does not touch the kid leaves its whole view as it was. */
  lemma UnseenCall(db: Db, snap: G.Snapshot, op: Op, kid: Id)
    requires KidDb(db, kid) && Fresh(db, op) && !Touches(db, kid, op)
    ensures ViewOf(Apply(db, op).0, snap, kid) == ViewOf(db, snap, kid)
  {
    match op
    case Account(a) => AccountUnseen(db, snap, a, kid);
    case Catalog(c) => CatalogUndisturbed(db, c, kid); UndisturbedView(db, Apply(db, op).0, snap, kid);
    case Section(s) => SectionUndisturbed(db, s, kid); UndisturbedView(db, Apply(db, op).0, snap, kid);
    case Session(o) => SessionUndisturbed(db, o, kid); UndisturbedView(db, Apply(db, op).0, snap, kid);
  }
}
