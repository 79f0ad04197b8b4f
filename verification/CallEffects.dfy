/** What each accepted store call writes, row by row and field by field, and what it leaves alone. */
module CallEffects {
  import opened Base
  import opened Ordering
  import opened Schema
  import opened Statements
  import opened StoreInvariant
  import Slug

  // ---- copying an offer

  /** The copy of an offer: its own name, url, icon and description, for the user, under the category asked for;
      and nothing else in any table changes. */
  lemma AddedRowIsOffer(db: Db, id: Id, owner: Id, offer: Id, category: Option<Id>)
    requires AddFromLibrary(db, id, owner, offer, category).1 == Ok && id !in db.services
    ensures offer in db.library && (category.Some? ==> OwnsCategory(db, owner, category.value))
    ensures var d, o := AddFromLibrary(db, id, owner, offer, category).0, db.library[offer];
            && d == db.(services := d.services) && d.services.Keys == db.services.Keys + {id}
            && (forall s | s in db.services :: d.services[s] == db.services[s])
            && var row := d.services[id];
               && row.owner == owner && row.category == category && row.source == Some(offer)
               && row.name == o.name && row.url == o.url && row.icon == o.icon && row.description == o.description
               && row.gatusKey == "" && row.click == NewTab
  {
  }

  /** While the owner has no service with the offer's slug, the copy gets that slug, without a number. */
  lemma FreeSlugIsKept(db: Db, id: Id, owner: Id, offer: Id, category: Option<Id>)
    requires AddFromLibrary(db, id, owner, offer, category).1 == Ok && id !in db.services
    requires forall s | s in db.services && db.services[s].owner == owner ::
               db.services[s].slug != Slug.Base(db.library[offer].name)
    ensures AddFromLibrary(db, id, owner, offer, category).0.services[id].slug == Slug.Base(db.library[offer].name)
    ensures Slug.SlugOf(db.library[offer].name) != "" ==>
              Slug.Base(db.library[offer].name) == Slug.SlugOf(db.library[offer].name)
    ensures Slug.SlugOf(db.library[offer].name) == "" ==> Slug.Base(db.library[offer].name) == "app"
  {
    var base := Slug.Base(db.library[offer].name);
    assert Slug.Candidate(base, 1) == base && base !in TakenSlugs(db, owner);
  }

  // ---- accounts

  ghost predicate OtherUsersStand(db: Db, d: Db, id: Id)
  {
    forall u | u != id :: (u in d.users <==> u in db.users) && (u in db.users ==> d.users[u] == db.users[u])
  }

  lemma RefusedAccountCall(db: Db, op: AccountOp)
    requires ApplyAccount(db, op).1 != Ok
    ensures ApplyAccount(db, op).0 == db
  {
  }

  /** A new account starts with the catalog's defaults, an adult with its credentials, a kid with its name and
      color and without any. */
  lemma NewAccountRow(db: Db, op: AccountOp)
    requires (op.CreateUserOp? || op.CreateKidOp?) && ApplyAccount(db, op).1 == Ok
    ensures var d := ApplyAccount(db, op).0;
            && d == db.(users := d.users, now := db.now + 1) && OtherUsersStand(db, d, op.id) && op.id in d.users
            && var u := d.users[op.id];
               && u.createdAt == db.now && u.theme == System
               && u.showUptime == (db.uptimeDefault != Some(false))
               && (op.CreateUserOp? ==>
                     && u.email == Some(op.email) && u.passwordHash == Some(op.hash) && u.role == op.role
                     && (op.role == Admin || op.role == Adult)
                     && u.displayName == None && u.avatarColor == None && u.density == Compact && u.showHealthBar)
               && (op.CreateKidOp? ==>
                     && u.email == None && u.passwordHash == None && u.role == Kid
                     && u.displayName == Some(op.name) && u.avatarColor == Some(op.color)
                     && u.density == Large && !u.showHealthBar)
  {
  }

  /** An edit of an account's row writes the given fields and no other, in no other row. */
  lemma AccountRowEdited(db: Db, op: AccountOp)
    requires (op.UpdateKidOp? || op.SetPrefOp?) && ApplyAccount(db, op).1 == Ok
    ensures var d := ApplyAccount(db, op).0;
            && d == db.(users := d.users) && OtherUsersStand(db, d, op.id) && op.id in db.users && op.id in d.users
            && var was, u := db.users[op.id], d.users[op.id];
               && (op.UpdateKidOp? ==>
                     && was.role == Kid
                     && u.displayName == (if op.newName.Some? then op.newName else was.displayName)
                     && u.avatarColor == (if op.newColor.Some? then op.newColor else was.avatarColor)
                     && u.(displayName := was.displayName, avatarColor := was.avatarColor) == was)
               && (op.SetPrefOp? ==>
                     && u.theme == (if op.pref.ThemePref? then op.pref.theme else was.theme)
                     && u.density == (if op.pref.DensityPref? then op.pref.density else was.density)
                     && u.showHealthBar == (if op.pref.HealthBarPref? then op.pref.show else was.showHealthBar)
                     && u.showUptime == (if op.pref.UptimePref? then op.pref.show else was.showUptime)
                     && u.(theme := was.theme, density := was.density, showHealthBar := was.showHealthBar,
                           showUptime := was.showUptime) == was)
  {
  }

  /** A saved uptime default is what every account created under it starts with, and changes no account there is. */
  lemma DefaultSaved(db: Db, show: bool, op: AccountOp)
    requires op.CreateUserOp? || op.CreateKidOp?
    ensures var (d, err) := ApplyAccount(db, SetUptimeDefaultOp(show));
            && err == Ok && d == db.(uptimeDefault := d.uptimeDefault)
            && (ApplyAccount(d, op).1 == Ok ==>
                  op.id in ApplyAccount(d, op).0.users && ApplyAccount(d, op).0.users[op.id].showUptime == show)
  {
  }

  /** Deleting a kid takes the kid and what belongs to it; every other account keeps all it has. */
  lemma DeletedKidLeavesOthers(db: Db, id: Id)
    requires Inv(db) && DeleteKid(db, id).1 == Ok
    ensures IsKid(db, id)
    ensures var d := DeleteKid(db, id).0;
            && id !in d.users && OtherUsersStand(db, d, id)
            && (forall s :: s in d.services <==> s in db.services && db.services[s].owner != id)
            && (forall s | s in d.services :: d.services[s] == db.services[s])
            && (forall c :: c in d.categories <==> c in db.categories && db.categories[c].owner != id)
            && (forall c | c in d.categories :: d.categories[c] == db.categories[c])
            && (forall t :: t in d.sessions <==> t in db.sessions && db.sessions[t].userID != id)
            && (forall t | t in d.sessions :: d.sessions[t] == db.sessions[t])
            && d.library == db.library && d.uptimeDefault == db.uptimeDefault
  {
    var d := DeleteKid(db, id).0;
    forall s | s in d.services ensures d.services[s] == db.services[s] {
      assert ServiceRef(db.services[s], db.users.Keys, db.categories, db.library.Keys);
    }
  }

  /** And of the marks, exactly the kid's own and those on what it owned. */
  lemma DeletedKidsMarks(db: Db, id: Id)
    requires Inv(db) && DeleteKid(db, id).1 == Ok
    ensures var d := DeleteKid(db, id).0;
            && (forall u, s :: (u, s) in d.favorites <==> (u, s) in db.favorites && u != id && s in d.services)
            && (forall u, s :: (u, s) in d.layout <==> (u, s) in db.layout && u != id && s in d.services)
            && (forall l | l in d.layout :: d.layout[l] == db.layout[l])
            && (forall u, s :: (u, s) in d.allowed <==> (u, s) in db.allowed && u != id && s in d.services)
            && (forall u, c :: (u, c) in d.collapsed <==> (u, c) in db.collapsed && u != id && c in d.categories)
            && (forall s, v: Variant :: (s, v) in d.icons <==> (s, v) in db.icons && s in d.services)
            && (forall i | i in d.icons :: d.icons[i] == db.icons[i])
  {
    var d := DeleteKid(db, id).0;
    forall u, s ensures (u, s) in d.favorites <==> (u, s) in db.favorites && u != id && s in d.services {
      if (u, s) in db.favorites { assert (u, s).1 in db.services; }
    }
    forall u, s ensures (u, s) in d.layout <==> (u, s) in db.layout && u != id && s in d.services {
      if (u, s) in db.layout { assert (u, s) in db.layout.Keys && (u, s).1 in db.services; }
    }
    forall u, s ensures (u, s) in d.allowed <==> (u, s) in db.allowed && u != id && s in d.services {
      if (u, s) in db.allowed { assert (u, s).1 in db.services; }
    }
    forall u, c ensures (u, c) in d.collapsed <==> (u, c) in db.collapsed && u != id && c in d.categories {
      if (u, c) in db.collapsed { assert (u, c).1 in db.categories; }
    }
    forall s, v: Variant ensures (s, v) in d.icons <==> (s, v) in db.icons && s in d.services {
      if (s, v) in db.icons { assert (s, v).0 in db.services; }
    }
  }

  // ---- services, icons, offers

  /** A created service holds what was given, in no category and from no offer. */
  lemma NewServiceRow(db: Db, id: Id, sv: Service)
    requires CreateService(db, id, sv).1 == Ok && id !in db.services
    ensures var d := CreateService(db, id, sv).0;
            && d == db.(services := d.services) && d.services.Keys == db.services.Keys + {id}
            && (forall s | s in db.services :: d.services[s] == db.services[s])
            && var row := d.services[id];
               && row.owner == sv.owner && row.slug == sv.slug && row.name == sv.name && row.url == sv.url
               && row.description == sv.description && row.icon == sv.icon && row.gatusKey == sv.gatusKey
               && row.click == sv.click && row.category == None && row.source == None
  {
  }

  /** An icon is put, or dropped, under its own service and variant only. */
  lemma IconWritten(db: Db, s: Id, owner: Id, v: Variant, icon: Icon)
    ensures var (d, err) := PutIcon(db, s, owner, v, icon);
            && (err == Ok <==> s in db.services && db.services[s].owner == owner) && (err != Ok ==> d == db)
            && d == db.(icons := d.icons) && (err == Ok ==> (s, v) in d.icons && d.icons[(s, v)] == icon)
            && forall i | i != (s, v) ::
                 (i in d.icons <==> i in db.icons) && (i in db.icons ==> d.icons[i] == db.icons[i])
    ensures var (d, err) := DeleteIcon(db, s, owner, v);
            && (err == Ok <==> s in db.services && db.services[s].owner == owner) && (err != Ok ==> d == db)
            && d == db.(icons := d.icons) && (err == Ok ==> (s, v) !in d.icons)
            && forall i | i != (s, v) ::
                 (i in d.icons <==> i in db.icons) && (i in db.icons ==> d.icons[i] == db.icons[i])
  {
  }

  /** Deleting a service takes exactly it, its icons, and every mark on it. */
  lemma DeletedService(db: Db, id: Id, owner: Id)
    ensures var (d, err) := DeleteService(db, id, owner);
            && (err == Ok <==> id in db.services && db.services[id].owner == owner) && (err != Ok ==> d == db)
            && d == db.(services := d.services, favorites := d.favorites, layout := d.layout, icons := d.icons,
                        allowed := d.allowed)
            && (err == Ok ==> id !in d.services)
            && (forall s | s != id ::
                  (s in d.services <==> s in db.services) && (s in db.services ==> d.services[s] == db.services[s]))
            && (forall f :: f in d.favorites <==> f in db.favorites && (err != Ok || f.1 != id))
            && (forall l :: l in d.layout <==> l in db.layout && (err != Ok || l.1 != id))
            && (forall l | l in d.layout :: d.layout[l] == db.layout[l])
            && (forall i :: i in d.icons <==> i in db.icons && (err != Ok || i.0 != id))
            && (forall i | i in d.icons :: d.icons[i] == db.icons[i])
            && (forall a :: a in d.allowed <==> a in db.allowed && (err != Ok || a.1 != id))
  {
  }

  /** The library's calls write one offer; deleting one only clears the source of what was copied from it. */
  lemma OfferWritten(db: Db, op: CatalogOp)
    requires op.CreateOfferOp? || op.UpdateOfferOp? || op.DeleteOfferOp?
    ensures var (d, err) := ApplyCatalog(db, op);
            && (err == Ok <==> !op.UpdateOfferOp? || op.id in db.library) && (err != Ok ==> d == db)
            && d == db.(library := d.library, services := d.services) && d.services.Keys == db.services.Keys
            && (err == Ok && !op.DeleteOfferOp? ==> op.id in d.library && d.library[op.id] == op.offer)
            && (op.DeleteOfferOp? ==> op.id !in d.library)
            && (forall o | o != op.id ::
                  (o in d.library <==> o in db.library) && (o in db.library ==> d.library[o] == db.library[o]))
            && (forall s | s in db.services ::
                  && d.services[s] == db.services[s].(source := d.services[s].source)
                  && d.services[s].source == (if op.DeleteOfferOp? && db.services[s].source == Some(op.id) then None
                                              else db.services[s].source))
  {
  }

  /** An edit is accepted exactly for the owner's own service, under the owner's own category, and a slug that no
      other service of the owner has; what it writes is ReadBacks.EditReadsBack. */
  lemma EditAccepted(db: Db, id: Id, owner: Id, p: ServicePatch)
    ensures var (d, err) := UpdateService(db, id, owner, p);
            && (err == Ok <==>
                  && id in db.services && db.services[id].owner == owner
                  && (p.category.Some? && p.category.value.Some? ==>
                        p.category.value.value in db.categories && db.categories[p.category.value.value].owner == owner)
                  && (p.slug.Some? ==> forall s | s in db.services && db.services[s].owner == owner && s != id ::
                                         db.services[s].slug != p.slug.value))
            && (err != Ok ==> d == db)
            && d == db.(services := d.services)
            && (id in d.services ==> d.services[id].owner == db.services[id].owner)
  {
  }

  // ---- categories and personal rows

  /** A created category holds its owner and name, spans 6 of 12 columns, and is numbered 0 or one past the owner's
      highest; every other stands. */
  lemma NewCategoryRow(db: Db, id: Id, owner: Id, name: string)
    requires CreateCategory(db, id, owner, name).1 == Ok && id !in db.categories
    ensures var d := CreateCategory(db, id, owner, name).0;
            && d == db.(categories := d.categories) && d.categories.Keys == db.categories.Keys + {id}
            && (forall c | c in db.categories :: d.categories[c] == db.categories[c])
            && d.categories[id].owner == owner && d.categories[id].name == name && d.categories[id].width == 6
            && (if forall c | c in db.categories :: db.categories[c].owner != owner then d.categories[id].sortIndex == 0
                else
                  (exists c | c in db.categories && db.categories[c].owner == owner ::
                     d.categories[id].sortIndex == db.categories[c].sortIndex + 1)
                  && forall c | c in db.categories && db.categories[c].owner == owner ::
                       db.categories[c].sortIndex < d.categories[id].sortIndex)
  {
    NextIndexMeans(db.categories, CategoriesOf(db, owner));
  }

  lemma NextIndexMeans(cats: map<Id, Category>, among: set<Id>)
    requires among <= cats.Keys
    ensures among == {} ==> NextIndex(cats, among) == 0
    ensures among != {} ==> exists c | c in among :: NextIndex(cats, among) == cats[c].sortIndex + 1
  {
    if among != {} {
      var q := Arrange(among, (a, b) => ByIndexDown(cats, a, b));
      var c :| c in among;
      assert c in q && q[0] in q;
      assert NextIndex(cats, among) == cats[q[0]].sortIndex + 1;
    }
  }

  /** A user's own rows are written for that user alone. */
  lemma PersonalRowsWritten(db: Db, op: SectionOp)
    requires op.SetLayoutOp? || op.SetCollapsedOp? || op.AddFavoriteOp? || op.RemoveFavoriteOp?
    ensures var (d, err) := ApplySection(db, op);
            && (err != Ok ==> d == db)
            && d == db.(layout := d.layout, collapsed := d.collapsed, favorites := d.favorites)
            && (!op.SetLayoutOp? ==> d.layout == db.layout) && (!op.SetCollapsedOp? ==> d.collapsed == db.collapsed)
            && (op.SetLayoutOp? || op.SetCollapsedOp? ==> d.favorites == db.favorites)
            && (forall l: (Id, Id) | l.0 != op.user :: (l in d.layout <==> l in db.layout)
                                             && (l in db.layout ==> d.layout[l] == db.layout[l]))
            && (forall c: (Id, Id) | c.0 != op.user :: c in d.collapsed <==> c in db.collapsed)
            && (forall f: (Id, Id) | f.0 != op.user :: f in d.favorites <==> f in db.favorites)
            && (op.AddFavoriteOp? && err == Ok ==> d.favorites == db.favorites + {(op.user, op.id)})
            && (op.RemoveFavoriteOp? ==> err == Ok && d.favorites == db.favorites - {(op.user, op.id)})
  {
  }

  // ---- one owner's calls and another's rows

  /** The account in whose name a catalog or category call is made. */
  function CallerOf(op: Op): Option<Id>
  {
    match op
    case Catalog(CreateServiceOp(_, service)) => Some(service.owner)
    case Catalog(UpdateServiceOp(_, owner, _)) => Some(owner)
    case Catalog(DeleteServiceOp(_, owner)) => Some(owner)
    case Catalog(PutIconOp(_, owner, _, _)) => Some(owner)
    case Catalog(DeleteIconOp(_, owner, _)) => Some(owner)
    case Catalog(AddFromLibraryOp(_, owner, _, _)) => Some(owner)
    case Section(CreateCategoryOp(_, owner, _)) => Some(owner)
    case Section(RenameCategoryOp(_, owner, _)) => Some(owner)
    case Section(SetCategoryWidthOp(_, owner, _)) => Some(owner)
    case Section(SetCategoryOrderOp(owner, _)) => Some(owner)
    case Section(DeleteCategoryOp(_, owner)) => Some(owner)
    case _ => None
  }

  /** The rows of everyone but `owner`: services with their icons and all marks on them, and categories. */
  ghost predicate OthersStand(db: Db, d: Db, owner: Id)
  {
    && d.users == db.users && d.sessions == db.sessions && d.library == db.library
    && d.uptimeDefault == db.uptimeDefault
    && (forall s | s in db.services && db.services[s].owner != owner ::
          && s in d.services && d.services[s] == db.services[s]
          && (forall v: Variant ::
                ((s, v) in d.icons <==> (s, v) in db.icons) &&
                  ((s, v) in db.icons ==> d.icons[(s, v)] == db.icons[(s, v)]))
          && (forall u: Id ::
                && ((u, s) in d.favorites <==> (u, s) in db.favorites)
                && ((u, s) in d.allowed <==> (u, s) in db.allowed)
                && ((u, s) in d.layout <==> (u, s) in db.layout)
                && ((u, s) in db.layout ==> d.layout[(u, s)] == db.layout[(u, s)])))
    && (forall c | c in db.categories && db.categories[c].owner != owner ::
          c in d.categories && d.categories[c] == db.categories[c]
          && forall u: Id :: (u, c) in d.collapsed <==> (u, c) in db.collapsed)
  }

  lemma OwnServiceWritten(db: Db, d: Db, id: Id, owner: Id)
    requires d == db.(services := d.services) && (id in db.services ==> db.services[id].owner == owner)
    requires forall s | s in db.services && s != id :: s in d.services && d.services[s] == db.services[s]
    ensures OthersStand(db, d, owner)
  {
  }

  lemma OwnIconsWritten(db: Db, d: Db, id: Id, v: Variant, owner: Id)
    requires d == db.(icons := d.icons) && (id in db.services && db.services[id].owner != owner ==> d == db)
    requires forall i | i != (id, v) ::
               (i in d.icons <==> i in db.icons) && (i in db.icons ==> d.icons[i] == db.icons[i])
    ensures OthersStand(db, d, owner)
  {
    forall s, w: Variant | s in db.services && db.services[s].owner != owner
      ensures ((s, w) in d.icons <==> (s, w) in db.icons) &&
              ((s, w) in db.icons ==> d.icons[(s, w)] == db.icons[(s, w)])
    {
      if s != id { assert (s, w) != (id, v); }
    }
  }

  lemma OwnServiceGone(db: Db, id: Id, owner: Id)
    requires id in db.services && db.services[id].owner == owner
    ensures OthersStand(db, WithoutServices(db, {id}), owner)
  {
  }

  lemma OwnCategoriesWritten(db: Db, d: Db, owner: Id)
    requires OwnCategoriesOnly(db, d, owner)
    ensures OthersStand(db, d, owner)
  {
  }

  lemma OwnCategoryTaken(db: Db, d: Db, id: Id, owner: Id)
    requires d == db.(services := d.services, categories := d.categories, collapsed := d.collapsed)
    requires id in db.categories && db.categories[id].owner == owner
    requires forall s | s in db.services && db.services[s].owner != owner ::
               s in d.services && d.services[s] == db.services[s]
    requires forall c | c in db.categories && c != id :: c in d.categories && d.categories[c] == db.categories[c]
    requires forall p: (Id, Id) | p.1 != id :: p in d.collapsed <==> p in db.collapsed
    ensures OthersStand(db, d, owner)
  {
  }

  /** A category that goes takes no other owner's service with it: theirs are in other categories. */
  lemma ElsewhereCategorized(db: Db, id: Id, owner: Id, s: Id)
    requires Inv(db) && id in db.categories && db.categories[id].owner == owner
    requires s in db.services && db.services[s].owner != owner
    ensures db.services[s].category != Some(id)
  {
    assert ServiceRef(db.services[s], db.users.Keys, db.categories, db.library.Keys);
  }

  lemma OwnCategoryGone(db: Db, d: Db, id: Id, owner: Id)
    requires Inv(db) && id in db.categories && db.categories[id].owner == owner && d == WithoutCategories(db, {id})
    ensures OthersStand(db, d, owner)
  {
    forall s | s in db.services && db.services[s].owner != owner
      ensures s in d.services && d.services[s] == db.services[s]
    {
      ElsewhereCategorized(db, id, owner, s);
    }
    OwnCategoryTaken(db, d, id, owner);
  }

  lemma SameStands(db: Db, owner: Id)
    ensures OthersStand(db, db, owner)
  {
  }

  lemma ServiceCallStands(db: Db, op: CatalogOp, d: Db, owner: Id)
    requires FreshCatalog(db, op) && CallerOf(Catalog(op)) == Some(owner) && d == ApplyCatalog(db, op).0
    requires op.CreateServiceOp? || op.UpdateServiceOp? || op.AddFromLibraryOp?
    ensures OthersStand(db, d, owner)
  {
    SameStands(db, owner);
    if d != db { OwnServiceWritten(db, d, op.id, owner); }
  }

  lemma IconCallStands(db: Db, op: CatalogOp, d: Db, owner: Id)
    requires CallerOf(Catalog(op)) == Some(owner) && d == ApplyCatalog(db, op).0
    requires op.PutIconOp? || op.DeleteIconOp?
    ensures OthersStand(db, d, owner)
  {
    IconWritten(db, op.id, owner, op.variant, if op.PutIconOp? then op.icon else Icon([], ""));
    OwnIconsWritten(db, d, op.id, op.variant, owner);
  }

  lemma DeleteCallStands(db: Db, id: Id, d: Db, owner: Id)
    requires d == DeleteService(db, id, owner).0
    ensures OthersStand(db, d, owner)
  {
    SameStands(db, owner);
    if d != db { OwnServiceGone(db, id, owner); }
  }

  lemma CatalogLeavesOthers(db: Db, op: CatalogOp, d: Db, owner: Id)
    requires FreshCatalog(db, op) && CallerOf(Catalog(op)) == Some(owner) && d == ApplyCatalog(db, op).0
    ensures OthersStand(db, d, owner)
  {
    if op.PutIconOp? || op.DeleteIconOp? {
      IconCallStands(db, op, d, owner);
    } else if op.DeleteServiceOp? {
      DeleteCallStands(db, op.id, d, owner);
    } else {
      ServiceCallStands(db, op, d, owner);
    }
  }

  /** Only categories are written, and only the owner's. */
  ghost predicate OwnCategoriesOnly(db: Db, d: Db, owner: Id)
  {
    && d == db.(categories := d.categories)
    && forall c | c in db.categories && db.categories[c].owner != owner ::
         c in d.categories && d.categories[c] == db.categories[c]
  }

  lemma CategoryRowCalls(db: Db, id: Id, owner: Id, name: string, width: int)
    ensures id !in db.categories ==> OwnCategoriesOnly(db, CreateCategory(db, id, owner, name).0, owner)
    ensures OwnCategoriesOnly(db, RenameCategory(db, id, owner, name).0, owner)
    ensures OwnCategoriesOnly(db, SetCategoryWidth(db, id, owner, width).0, owner)
  {
  }

  lemma CategoryCallWrites(db: Db, op: SectionOp, d: Db, owner: Id)
    requires CallerOf(Section(op)) == Some(owner) && !op.DeleteCategoryOp? && d == ApplySection(db, op).0
    requires op.CreateCategoryOp? ==> op.id !in db.categories
    ensures OwnCategoriesOnly(db, d, owner)
  {
    match op
    case SetCategoryOrderOp(_, ids) => OrderLeavesOthers(db, owner, ids);
    case CreateCategoryOp(id, _, name) => CategoryRowCalls(db, id, owner, name, 0);
    case RenameCategoryOp(id, _, name) => CategoryRowCalls(db, id, owner, name, 0);
    case SetCategoryWidthOp(id, _, width) => CategoryRowCalls(db, id, owner, "", width);
  }

  lemma OrderLeavesOthers(db: Db, owner: Id, ids: seq<Id>)
    ensures OwnCategoriesOnly(db, SetCategoryOrder(db, owner, ids).0, owner)
  {
    if Members(ids) <= CategoriesOf(db, owner) {
      forall c | c in ids ensures c in CategoriesOf(db, owner) { assert c in Members(ids); }
    }
  }

  lemma DeleteCategoryStands(db: Db, id: Id, d: Db, owner: Id)
    requires Inv(db) && d == DeleteCategory(db, id, owner).0
    ensures OthersStand(db, d, owner)
  {
    SameStands(db, owner);
    if OwnsCategory(db, owner, id) { OwnCategoryGone(db, d, id, owner); }
  }

  lemma SectionLeavesOthers(db: Db, op: SectionOp, d: Db, owner: Id)
    requires Inv(db) && (op.CreateCategoryOp? ==> op.id !in db.categories)
    requires CallerOf(Section(op)) == Some(owner) && d == ApplySection(db, op).0
    ensures OthersStand(db, d, owner)
  {
    if op.DeleteCategoryOp? {
      DeleteCategoryStands(db, op.id, d, owner);
    } else {
      CategoryCallWrites(db, op, d, owner);
      OwnCategoriesWritten(db, d, owner);
    }
  }

  /** Whatever ids it is given, a call in one owner's name leaves every other owner's rows as they were. */
  lemma OthersRowsStand(db: Db, op: Op)
    requires Inv(db) && Fresh(db, op) && CallerOf(op).Some?
    ensures OthersStand(db, Apply(db, op).0, CallerOf(op).value)
  {
    var d, owner := Apply(db, op).0, CallerOf(op).value;
    if op.Catalog? { CatalogLeavesOthers(db, op.c, d, owner); } else { SectionLeavesOthers(db, op.s, d, owner); }
  }
}
