/** The store's own tables are a migrated database: a restart never refuses them and keeps their
    invariant; StoreRuns puts boots between any two store operations. */
module MigratedStore {
  import opened Base
  import opened Schema
  import T = Tables
  import M = Migrations
  import B = BootStability

  function UserRow(u: User): T.User
  {
    T.User(u.role, u.createdAt, u.email, u.passwordHash, u.displayName, Some(u.showUptime))
  }

  function ServiceRow(s: Service): T.Service
  {
    T.Service(s.slug, s.name, s.url, s.icon, s.description, s.category, Some(s.owner), s.source)
  }

  function ServiceRows(services: map<Id, Service>): map<Id, T.Service>
  {
    map s | s in services :: ServiceRow(services[s])
  }

  /** grid_width_legacy is not part of the store's model; `legacy` supplies it. */
  function CategoryRow(c: Category, legacy: Option<int>): T.Category
  {
    T.Category(c.name, Some(c.owner), Some(c.width), legacy)
  }

  function Legacy(saved: map<Id, int>, c: Id): Option<int>
  {
    if c in saved then Some(saved[c]) else None
  }

  function UserRows(users: map<Id, User>): map<Id, T.User>
  {
    map u | u in users :: UserRow(users[u])
  }

  function SectionRows(categories: map<Id, Category>, saved: map<Id, int>): map<Id, T.Category>
  {
    map c | c in categories :: CategoryRow(categories[c], Legacy(saved, c))
  }

  function Lift(db: Db, saved: map<Id, int>): T.State
  {
    T.State(
      T.UserTable(UserRows(db.users), true, false, true, true, true, true, false),
      T.ServiceTable(ServiceRows(db.services), true, true, true, false, true),
      T.CategoryTable(SectionRows(db.categories, saved), true, true, true, false, true, true, 6, None, true, true),
      db.library, db.uptimeDefault)
  }

  lemma LiftedUsersHold(db: Db, saved: map<Id, int>)
    requires Credentials(db.users) && UniqueUsers(db.users)
    ensures T.UsersHold(Lift(db, saved).users)
  {
    var rows := Lift(db, saved).users.rows;
    assert forall u | u in rows :: T.KidName(rows[u]) == KidKey(db.users[u]);
  }

  lemma LiftedServicesHold(db: Db, saved: map<Id, int>)
    requires ServiceRefs(db.services, db.users.Keys, db.categories, db.library.Keys) && UniqueSlugs(db.services)
    ensures var st := Lift(db, saved);
            T.ServicesHold(st.services, st.users.rows.Keys, st.categories.rows.Keys, st.library.Keys)
  {
    var st := Lift(db, saved);
    assert forall s | s in st.services.rows ::
             ServiceRef(db.services[s], db.users.Keys, db.categories, db.library.Keys);
  }

  lemma LiftedCategoriesHold(db: Db, saved: map<Id, int>)
    requires CategoryRows(db.categories, db.users.Keys) && UniqueNames(db.categories)
    ensures var st := Lift(db, saved);
            T.CategoriesHold(st.categories, st.users.rows.Keys)
  {
  }

  /** Whatever the store's operations have made of the tables, every constraint holds of them. */
  lemma StoreIsMigrated(db: Db, saved: map<Id, int>)
    requires Inv(db)
    ensures B.Settled(Lift(db, saved)) && T.Migrated(Lift(db, saved))
  {
    LiftedUsersHold(db, saved);
    LiftedServicesHold(db, saved);
    LiftedCategoriesHold(db, saved);
  }

  function Sourced(services: map<Id, Service>, library: map<Id, Offer>, pick: map<Id, Id>): map<Id, Service>
  {
    map s | s in services ::
        services[s].(source := M.WiredRow(ServiceRow(services[s]), library, M.Wish(pick, s)).source)
  }

  /** A restart, seen by the store. */
  function Restarted(db: Db, pick: map<Id, Id>, entries: seq<M.Entry>): Db
  {
    db.(services := Sourced(db.services, db.library, pick),
        library := if db.library == map[] then M.SeededOffers(entries) else db.library)
  }

  lemma WiredIsSourced(services: map<Id, Service>, library: map<Id, Offer>, pick: map<Id, Id>)
    ensures M.Wired(ServiceRows(services), library, pick) == ServiceRows(Sourced(services, library, pick))
  {
  }

  /** A boot of the running release succeeds on the store's tables and does to them what Restarted says. */
  lemma BootIsRestart(db: Db, saved: map<Id, int>, pick: map<Id, Id>, entries: seq<M.Entry>)
    requires Inv(db)
    ensures M.Boot(Lift(db, saved), pick, entries) == Some(Lift(Restarted(db, pick, entries), saved))
  {
    StoreIsMigrated(db, saved);
    B.MigratedAgain(Lift(db, saved), pick);
    WiredIsSourced(db.services, db.library, pick);
  }

  lemma SourcedRefs(services: map<Id, Service>, users: set<Id>, categories: map<Id, Category>, library: map<Id, Offer>,
                    library': set<Id>, pick: map<Id, Id>)
    requires ServiceRefs(services, users, categories, library.Keys) && library.Keys <= library'
    ensures ServiceRefs(Sourced(services, library, pick), users, categories, library')
  {
    forall s | s in services ensures ServiceRef(Sourced(services, library, pick)[s], users, categories, library') {
      assert ServiceRef(services[s], users, categories, library.Keys);
    }
  }

  lemma SourcedRest(services: map<Id, Service>, library: map<Id, Offer>, pick: map<Id, Id>,
                    allowed: set<(Id, Id)>, kids: set<Id>, owner: Option<Id>)
    requires AllowLists(allowed, kids, services, owner) && UniqueSlugs(services)
    ensures AllowLists(allowed, kids, Sourced(services, library, pick), owner) &&
            UniqueSlugs(Sourced(services, library, pick))
    ensures Sourced(services, library, pick).Keys == services.Keys
  {
    var services' := Sourced(services, library, pick);
    assert forall s | s in services' ::
             services'[s].owner == services[s].owner && services'[s].slug == services[s].slug;
  }

  /** A restart keeps the store's invariant. */
  lemma RestartKeepsInv(db: Db, pick: map<Id, Id>, entries: seq<M.Entry>)
    requires Inv(db)
    ensures Inv(Restarted(db, pick, entries))
  {
    SourcedRefs(db.services, db.users.Keys, db.categories, db.library, Restarted(db, pick, entries).library.Keys, pick);
    SourcedRest(db.services, db.library, pick, db.allowed, Kids(db.users), SharedOwner(db.users));
  }

  // ---- every migrated database is a store's

  function UserOf(t: T.UserTable, u: Id): User
    requires T.UsersHold(t) && t.uptimeColumn && u in t.rows
  {
    var row := t.rows[u];
    assert T.UserHolds(t, row);
    User(row.email, row.passwordHash, row.role, row.createdAt, row.displayName, None, System, Compact, true,
         row.showUptime.value)
  }

  function UsersOf(t: T.UserTable): map<Id, User>
    requires T.UsersHold(t) && t.uptimeColumn
  {
    map u | u in t.rows :: UserOf(t, u)
  }

  function ServiceOf(row: T.Service): Service
  {
    Service(if row.owner.Some? then row.owner.value else 0, row.slug, row.name, row.description, row.url, row.icon, "",
            row.category, row.source, NewTab)
  }

  function ServicesFrom(rows: map<Id, T.Service>): map<Id, Service>
  {
    map s | s in rows :: ServiceOf(rows[s])
  }

  function CategoryOf(row: T.Category): Category
  {
    Category(if row.owner.Some? then row.owner.value else 0, row.name, 0,
      if row.width.Some? then row.width.value else 0)
  }

  function CategoriesFrom(rows: map<Id, T.Category>): map<Id, Category>
  {
    map c | c in rows :: CategoryOf(rows[c])
  }

  function SavedWidths(rows: map<Id, T.Category>): map<Id, int>
  {
    map c | c in rows && rows[c].legacy.Some? :: rows[c].legacy.value
  }

  /** A store's database with the given tables; what the migration tables do not record takes its default. */
  function StoreOf(st: T.State, now: nat): Db
    requires B.Settled(st) && T.Migrated(st)
  {
    Db(UsersOf(st.users), ServicesFrom(st.services.rows), CategoriesFrom(st.categories.rows), st.library,
       {}, map[], map[], {}, {}, map[], st.setting, now)
  }

  /** Emails and creation times are distinct, and the latter are past. */
  ghost predicate AccountsApart(rows: map<Id, T.User>, now: nat)
  {
    && (forall u | u in rows :: rows[u].createdAt < now)
    && (forall u, v | u in rows && v in rows
                      && (rows[u].createdAt == rows[v].createdAt
                          || (rows[u].email.Some? && rows[v].email.Some?
                              && Fold(rows[u].email.value) == Fold(rows[v].email.value))) :: u == v)
  }

  /** A service's category has the service's owner. */
  ghost predicate CategoriesOwned(services: map<Id, T.Service>, categories: map<Id, T.Category>)
  {
    forall s | s in services && services[s].category.Some? ::
      services[s].category.value in categories && categories[services[s].category.value].owner == services[s].owner
  }

  /** What the store keeps beyond the constraints. */
  ghost predicate StoreKeeps(st: T.State, now: nat)
  {
    AccountsApart(st.users.rows, now) && CategoriesOwned(st.services.rows, st.categories.rows)
  }

  lemma UsersFromHold(t: T.UserTable, now: nat)
    requires T.UsersHold(t) && t.uptimeColumn && t.kidCheck && t.kidNames && AccountsApart(t.rows, now)
    ensures Credentials(UsersOf(t)) && CreatedInOrder(UsersOf(t), now) && UniqueUsers(UsersOf(t))
  {
    var users := UsersOf(t);
    forall u | u in users
      ensures Credentialed(users[u]) && KidKey(users[u]) == T.KidName(t.rows[u])
    {
      assert T.UserHolds(t, t.rows[u]);
    }
  }

  lemma CategoriesFromHold(t: T.CategoryTable, users: set<Id>)
    requires T.CategoriesHold(t, users) && t.ownerNotNull && t.ownNames && t.widthColumn && t.spans
    ensures CategoryRows(CategoriesFrom(t.rows), users) && UniqueNames(CategoriesFrom(t.rows))
  {
    var categories := CategoriesFrom(t.rows);
    forall c | c in categories
      ensures t.rows[c].owner == Some(categories[c].owner) && categories[c].owner in users &&
              ValidSpan(categories[c].width)
    {
      assert T.CategoryHolds(t, t.rows[c], users);
    }
  }

  lemma ServicesFromHold(t: T.ServiceTable, users: set<Id>, categories: map<Id, T.Category>, library: set<Id>)
    requires T.ServicesHold(t, users, categories.Keys, library) && t.ownerNotNull && t.ownSlugs
    requires CategoriesOwned(t.rows, categories)
    ensures ServiceRefs(ServicesFrom(t.rows), users, CategoriesFrom(categories), library) &&
            UniqueSlugs(ServicesFrom(t.rows))
  {
    var services := ServicesFrom(t.rows);
    forall s | s in services
      ensures t.rows[s].owner == Some(services[s].owner)
      ensures ServiceRef(services[s], users, CategoriesFrom(categories), library)
    {
      assert T.ServiceHolds(t, t.rows[s], users, categories.Keys, library);
    }
  }

  lemma StoreOfInv(st: T.State, now: nat)
    requires B.Settled(st) && T.Migrated(st) && StoreKeeps(st, now)
    ensures Inv(StoreOf(st, now))
  {
    UsersFromHold(st.users, now);
    CategoriesFromHold(st.categories, st.users.rows.Keys);
    ServicesFromHold(st.services, st.users.rows.Keys, st.categories.rows, st.library.Keys);
    var db := StoreOf(st, now);
    assert db.users.Keys == st.users.rows.Keys;
  }

  lemma LiftedBackUsers(t: T.UserTable)
    requires T.UsersHold(t) && t.uptimeColumn
    ensures UserRows(UsersOf(t)) == t.rows
  {
    forall u | u in t.rows ensures UserRow(UsersOf(t)[u]) == t.rows[u] {
      assert T.UserHolds(t, t.rows[u]);
    }
  }

  lemma LiftedBackServices(t: T.ServiceTable, users: set<Id>, categories: set<Id>, library: set<Id>)
    requires T.ServicesHold(t, users, categories, library) && t.ownerNotNull
    ensures ServiceRows(ServicesFrom(t.rows)) == t.rows
  {
    forall s | s in t.rows ensures ServiceRow(ServicesFrom(t.rows)[s]) == t.rows[s] {
      assert T.ServiceHolds(t, t.rows[s], users, categories, library);
    }
  }

  lemma LiftedBackCategories(t: T.CategoryTable, users: set<Id>)
    requires T.CategoriesHold(t, users) && t.ownerNotNull && t.widthColumn
    ensures var back := CategoriesFrom(t.rows);
            SectionRows(back, SavedWidths(t.rows)) == t.rows
  {
    var back := CategoriesFrom(t.rows);
    forall c | c in t.rows ensures CategoryRow(back[c], Legacy(SavedWidths(t.rows), c)) == t.rows[c] {
      assert T.CategoryHolds(t, t.rows[c], users);
    }
  }

  /** Every migrated database that keeps what the store keeps is the tables of a store's database. */
  lemma MigratedIsStores(st: T.State, now: nat)
    requires B.Settled(st) && T.Migrated(st) && StoreKeeps(st, now)
    ensures Inv(StoreOf(st, now)) && Lift(StoreOf(st, now), SavedWidths(st.categories.rows)) == st
  {
    StoreOfInv(st, now);
    LiftedBackUsers(st.users);
    LiftedBackServices(st.services, st.users.rows.Keys, st.categories.rows.Keys, st.library.Keys);
    LiftedBackCategories(st.categories, st.users.rows.Keys);
  }
}
