/** The database as boots of every release have left it: each table's rows, and which of its columns
    and constraints exist. A column that does not exist yet holds None in every row. */
module Tables {
  import opened Base
  import opened Ordering
  import Schema

  datatype User = User(
    role: Role, createdAt: nat, email: Option<string>, passwordHash: Option<string>,
    displayName: Option<string>, showUptime: Option<bool>)

  datatype Service = Service(
    slug: string, name: string, url: string, icon: string, description: string,
    category: Option<Id>, owner: Option<Id>, source: Option<Id>)

  datatype Category = Category(name: string, owner: Option<Id>, width: Option<int>, legacy: Option<int>)

  datatype UserTable = UserTable(
    rows: map<Id, User>,
    created: bool,
    credentialsNotNull: bool,   // email and password_hash NOT NULL
    kidRole: bool,              // users_role_check admits 'kid'
    kidCheck: bool,             // users_kid_credentials_check
    kidNames: bool,             // users_kid_name_key
    uptimeColumn: bool,
    uptimeDefault: bool)        // DEFAULT TRUE on show_uptime_display

  datatype ServiceTable = ServiceTable(
    rows: map<Id, Service>,
    created: bool,
    ownerColumns: bool,         // user_id and source_library_id
    ownerNotNull: bool,
    globalSlugs: bool,          // services_slug_key
    ownSlugs: bool)             // services_user_slug_key

  datatype CategoryTable = CategoryTable(
    rows: map<Id, Category>,
    created: bool,
    ownerColumn: bool,
    ownerNotNull: bool,
    globalNames: bool,          // categories_name_key
    ownNames: bool,             // categories_user_name_key
    widthColumn: bool,
    widthDefault: int,
    widthMax: Option<int>,      // categories_grid_width_check: BETWEEN 1 AND widthMax
    spans: bool,                // categories_grid_width_span_check
    legacyColumn: bool)

  /** `setting` is system_settings.show_uptime_display, if the row exists. */
  datatype State = State(
    users: UserTable, services: ServiceTable, categories: CategoryTable,
    library: map<Id, Schema.Offer>, setting: Option<bool>)

  const NO_USERS := UserTable(map[], false, false, false, false, false, false, false)
  const NO_SERVICES := ServiceTable(map[], false, false, false, false, false)
  const NO_CATEGORIES := CategoryTable(map[], false, false, false, false, false, false, 0, None, false, false)
  const EMPTY := State(NO_USERS, NO_SERVICES, NO_CATEGORIES, map[], None)

  // ---- what the constraints that exist say of the rows

  predicate KidCredentials(u: User)
  {
    if u.role.Kid? then u.email.None? && u.passwordHash.None? && u.displayName.Some?
    else u.email.Some? && u.passwordHash.Some?
  }

  predicate UserHolds(t: UserTable, u: User)
  {
    && (u.role.Admin? || u.role.Adult? || (u.role.Kid? && t.kidRole))
    && (t.credentialsNotNull ==> u.email.Some? && u.passwordHash.Some?)
    && (t.kidCheck ==> KidCredentials(u))
    && (t.uptimeColumn <==> u.showUptime.Some?)
  }

  function KidName(u: User): Option<string>
  {
    if u.role.Kid? && u.displayName.Some? then Some(Schema.Fold(u.displayName.value)) else None
  }

  predicate UsersHold(t: UserTable)
  {
    && (!t.created ==> t.rows == map[])
    && (forall u | u in t.rows :: UserHolds(t, t.rows[u]))
    && (t.kidNames ==> forall u, v | u in t.rows && v in t.rows && KidName(t.rows[u]).Some?
                                     && KidName(t.rows[u]) == KidName(t.rows[v]) :: u == v)
  }

  predicate ServiceHolds(t: ServiceTable, s: Service, users: set<Id>, categories: set<Id>, library: set<Id>)
  {
    && (s.owner.Some? ==> t.ownerColumns && s.owner.value in users)
    && (t.ownerNotNull ==> s.owner.Some?)
    && (s.source.Some? ==> t.ownerColumns && s.source.value in library)
    && (s.category.Some? ==> s.category.value in categories)
  }

  predicate GlobalSlugs(rows: map<Id, Service>)
  {
    forall s, t | s in rows && t in rows && rows[s].slug == rows[t].slug :: s == t
  }

  /** A unique index never compares NULLs equal. */
  predicate OwnSlugs(rows: map<Id, Service>)
  {
    forall s, t | s in rows && t in rows && rows[s].owner.Some? && rows[s].owner == rows[t].owner
                  && rows[s].slug == rows[t].slug :: s == t
  }

  predicate ServicesHold(t: ServiceTable, users: set<Id>, categories: set<Id>, library: set<Id>)
  {
    && (!t.created ==> t.rows == map[])
    && (forall s | s in t.rows :: ServiceHolds(t, t.rows[s], users, categories, library))
    && (t.globalSlugs ==> GlobalSlugs(t.rows))
    && (t.ownSlugs ==> OwnSlugs(t.rows))
  }

  predicate CategoryHolds(t: CategoryTable, c: Category, users: set<Id>)
  {
    && (c.owner.Some? ==> t.ownerColumn && c.owner.value in users)
    && (t.ownerNotNull ==> c.owner.Some?)
    && (t.widthColumn <==> c.width.Some?)
    && (t.widthColumn && t.widthMax.Some? ==> 1 <= c.width.value <= t.widthMax.value)
    && (t.widthColumn && t.spans ==> Schema.ValidSpan(c.width.value))
    && (c.legacy.Some? ==> t.legacyColumn)
  }

  predicate GlobalNames(rows: map<Id, Category>)
  {
    forall c, d | c in rows && d in rows && rows[c].name == rows[d].name :: c == d
  }

  predicate OwnNames(rows: map<Id, Category>)
  {
    forall c, d | c in rows && d in rows && rows[c].owner.Some? && rows[c].owner == rows[d].owner
                  && rows[c].name == rows[d].name :: c == d
  }

  predicate CategoriesHold(t: CategoryTable, users: set<Id>)
  {
    && (!t.created ==> t.rows == map[])
    && (forall c | c in t.rows :: CategoryHolds(t, t.rows[c], users))
    && (t.globalNames ==> GlobalNames(t.rows))
    && (t.ownNames ==> OwnNames(t.rows))
  }

  /** Every constraint that exists holds. PostgreSQL refuses a statement that would break this. */
  predicate Holds(st: State)
  {
    && UsersHold(st.users)
    && ServicesHold(st.services, st.users.rows.Keys, st.categories.rows.Keys, st.library.Keys)
    && CategoriesHold(st.categories, st.users.rows.Keys)
  }

  // ---- which columns and constraints occur together between transactions

  predicate UsersAtRest(t: UserTable)
  {
    && t.kidCheck == t.kidRole == t.kidNames
    && (t.created && !t.kidCheck ==> t.credentialsNotNull)
    && (t.kidCheck ==> t.created && !t.credentialsNotNull)
    && (t.uptimeColumn ==> t.created) && !t.uptimeDefault
  }

  predicate ServicesAtRest(t: ServiceTable)
  {
    && t.ownerColumns == t.ownerNotNull == t.ownSlugs
    && t.globalSlugs == (t.created && !t.ownerColumns)
    && (t.ownerColumns ==> t.created)
  }

  predicate CategoriesAtRest(t: CategoryTable)
  {
    && t.ownerColumn == t.ownerNotNull == t.ownNames
    && t.globalNames == (t.created && !t.ownerColumn)
    && (t.ownerColumn ==> t.created)
    && (t.widthColumn ==> t.ownerColumn)
    && t.spans == t.legacyColumn
    && (t.spans ==> t.widthColumn && t.widthMax == None && t.widthDefault == 6)
    && (t.widthColumn && !t.spans ==> (t.widthMax == Some(6) || t.widthMax == Some(8)) && t.widthDefault == 3)
    && (!t.widthColumn ==> t.widthMax == None)
  }

  /** A schema that boots of some releases, and 0013's down migration, can leave. */
  predicate AtRest(st: State)
  {
    && UsersAtRest(st.users) && ServicesAtRest(st.services) && CategoriesAtRest(st.categories)
    && (st.services.created ==> st.users.created)
    && (st.categories.created ==> st.services.created)
    && (st.services.ownerColumns <==> st.categories.ownerColumn)
  }

  /** Every migration has run. */
  predicate Migrated(st: State)
  {
    && AtRest(st)
    && st.users.kidCheck && st.users.uptimeColumn
    && st.categories.spans && st.services.ownerColumns
  }

  // ---- the first admin

  function Admins(users: map<Id, User>): set<Id>
  {
    set u | u in users && users[u].role.Admin?
  }

  predicate Older(users: map<Id, User>, a: Id, b: Id)
  {
    a in users && b in users &&
    (users[a].createdAt < users[b].createdAt || (users[a].createdAt == users[b].createdAt && a < b))
  }

  /** SELECT id FROM users WHERE role = 'admin' ORDER BY created_at, id LIMIT 1 */
  function FirstAdmin(users: map<Id, User>): (o: Option<Id>)
    ensures o.None? <==> Admins(users) == {}
    ensures o.Some? ==> o.value in Admins(users) && forall a | a in Admins(users) && a != o.value ::
              Older(users, o.value, a)
  {
    if Admins(users) == {} then None
    else
      var less := (a: Id, b: Id) => Older(users, a, b);
      var q := Arrange(Admins(users), less);
      assert q != [] by { var a :| a in Admins(users); assert a in q; }
      FirstIsLeast(q, Admins(users), less);
      Some(q[0])
  }
}
