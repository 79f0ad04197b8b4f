/** Store operations with restarts between them: what every such run keeps, and that the widths and uptime
    preferences it ends with are the ones people last chose through the store's methods. */
module StoreRuns {
  import opened Base
  import opened Schema
  import opened Statements
  import opened StoreInvariant
  import opened MigratedStore
  import Listings
  import M = Migrations
  import T = Tables
  import B = BootStability
  import R = BootRuns

  /** One call of a store method, or a restart of the service. */
  datatype Event = Call(op: Op) | Restart(pick: map<Id, Id>, entries: seq<M.Entry>)

  function Do(db: Db, e: Event): Db
  {
    match e
    case Call(op) => Apply(db, op).0
    case Restart(pick, entries) => Restarted(db, pick, entries)
  }

  function DoAll(db: Db, events: seq<Event>): Db
    decreases |events|
  {
    if events == [] then db else DoAll(Do(db, events[0]), events[1..])
  }

  /** The id of a category, or a user, that a call creates. */
  function NewCategory(e: Event): Option<Id>
  {
    if e.Call? && e.op.Section? && e.op.s.CreateCategoryOp? then Some(e.op.s.id) else None
  }

  function NewUser(e: Event): Option<Id>
  {
    if e.Call? && e.op.Account? && (e.op.a.CreateUserOp? || e.op.a.CreateKidOp?) then Some(e.op.a.id) else None
  }

  ghost predicate FreshEvent(db: Db, e: Event, cats: set<Id>, users: set<Id>)
  {
    && (e.Call? ==> Fresh(db, e.op))
    && (NewCategory(e).Some? ==> NewCategory(e).value !in cats)
    && (NewUser(e).Some? ==> NewUser(e).value !in users)
  }

  /** Random ids are new, and never given out twice: `cats` and `users` are those given out so far. */
  ghost predicate FreshEvents(db: Db, events: seq<Event>, cats: set<Id>, users: set<Id>)
    decreases |events|
  {
    && db.categories.Keys <= cats && db.users.Keys <= users
    && (events != [] ==>
          var db' := Do(db, events[0]);
          && FreshEvent(db, events[0], cats, users)
          && FreshEvents(db', events[1..], cats + db'.categories.Keys, users + db'.users.Keys))
  }

  // ---- what every run with restarts keeps

  lemma EventInv(db: Db, e: Event)
    requires Inv(db) && (e.Call? ==> Fresh(db, e.op))
    ensures Inv(Do(db, e)) && OwnerKept(db, Do(db, e))
  {
    match e
    case Call(op) => OpInv(db, op); OwnerNeverChanges(db, op);
    case Restart(pick, entries) => RestartKeepsInv(db, pick, entries);
  }

  /** Store operations in any order with restarts between any two of them keep the invariant and the owner. */
  lemma {:induction false} RunKeepsInv(db: Db, events: seq<Event>, cats: set<Id>, users: set<Id>)
    requires Inv(db) && FreshEvents(db, events, cats, users)
    ensures Inv(DoAll(db, events)) && OwnerKept(db, DoAll(db, events))
    decreases |events|
  {
    if events != [] {
      var db' := Do(db, events[0]);
      EventInv(db, events[0]);
      RunKeepsInv(db', events[1..], cats + db'.categories.Keys, users + db'.users.Keys);
    }
  }

  /** What the invariant says in the store's own terms. */
  ghost predicate Sound(db: Db)
  {
    && (forall u | u in db.users ::
          (db.users[u].role.Kid? <==> db.users[u].email.None?) &&
            (db.users[u].role.Kid? <==> db.users[u].passwordHash.None?))
    && (forall a | a in db.allowed :: IsKid(db, a.0) && a.1 in SharedServices(db))
    && (forall k | IsKid(db, k) ::
          Listings.VisibleServiceIDs(db, k) == Some(set s | s in Listings.KidServiceIDs(db, k)))
    && (forall s | s in db.services && db.services[s].category.Some? ::
          OwnsCategory(db, db.services[s].owner, db.services[s].category.value))
    && (forall t | t in db.sessions :: db.sessions[t].userID in db.users)
    && SoundRows(db) && SoundNames(db)
  }

  /** No row refers to one that does not exist, and every width is a span. */
  ghost predicate SoundRows(db: Db)
  {
    && (forall f | f in db.favorites :: f.0 in db.users && f.1 in db.services)
    && (forall l | l in db.layout :: l.0 in db.users && l.1 in db.services)
    && (forall c | c in db.collapsed :: c.0 in db.users && c.1 in db.categories)
    && (forall i | i in db.icons :: i.0 in db.services)
    && (forall s | s in db.services ::
          db.services[s].owner in db.users &&
          (db.services[s].source.Some? ==> db.services[s].source.value in db.library))
    && (forall c | c in db.categories ::
          db.categories[c].owner in db.users && db.categories[c].width in {3, 4, 6, 12})
  }

  /** Emails and kids' names differ in more than case; an owner's slugs and category names differ; handles differ. */
  ghost predicate SoundNames(db: Db)
  {
    && (forall u, v | u in db.users && v in db.users && db.users[u].email.Some? && db.users[v].email.Some? && u != v ::
          !SameText(db.users[u].email.value, db.users[v].email.value))
    && (forall u, v | IsKid(db, u) && IsKid(db, v) && u != v ::
          && db.users[u].displayName.Some? && db.users[v].displayName.Some?
          && !SameText(db.users[u].displayName.value, db.users[v].displayName.value))
    && (forall s, t | s in db.services && t in db.services && s != t && db.services[s].owner == db.services[t].owner ::
          db.services[s].slug != db.services[t].slug)
    && (forall c, d | c in db.categories && d in db.categories && c != d
                      && db.categories[c].owner == db.categories[d].owner ::
          db.categories[c].name != db.categories[d].name)
    && (forall t, u | t in db.sessions && u in db.sessions && t != u :: db.sessions[t].handle != db.sessions[u].handle)
  }

  lemma InvSoundRows(db: Db)
    requires Inv(db)
    ensures SoundRows(db)
  {
    forall s | s in db.services
      ensures db.services[s].owner in db.users
      ensures db.services[s].source.Some? ==> db.services[s].source.value in db.library
    {
      assert ServiceRef(db.services[s], db.users.Keys, db.categories, db.library.Keys);
    }
    assert forall l | l in db.layout :: l in db.layout.Keys;
  }

  lemma InvSoundNames(db: Db)
    requires Inv(db)
    ensures SoundNames(db)
  {
    forall u, v | u in db.users && v in db.users && db.users[u].email.Some? && db.users[v].email.Some? && u != v
      ensures !SameText(db.users[u].email.value, db.users[v].email.value)
    {
      FoldIsCaseless(db.users[u].email.value, db.users[v].email.value);
      assert EmailKey(db.users[u]) != EmailKey(db.users[v]);
    }
    forall u, v | IsKid(db, u) && IsKid(db, v) && u != v
      ensures db.users[u].displayName.Some? && db.users[v].displayName.Some?
      ensures !SameText(db.users[u].displayName.value, db.users[v].displayName.value)
    {
      assert Credentialed(db.users[u]) && Credentialed(db.users[v]);
      FoldIsCaseless(db.users[u].displayName.value, db.users[v].displayName.value);
      assert KidKey(db.users[u]) != KidKey(db.users[v]);
    }
  }

  lemma InvIsSound(db: Db)
    requires Inv(db)
    ensures Sound(db)
  {
    InvSoundRows(db);
    InvSoundNames(db);
    forall k | IsKid(db, k)
      ensures Listings.VisibleServiceIDs(db, k) == Some(set s | s in Listings.KidServiceIDs(db, k))
    {
      Listings.AdminSeesWhatKidSees(db, k);
    }
    forall u | u in db.users
      ensures (db.users[u].role.Kid? <==> db.users[u].email.None?) &&
              (db.users[u].role.Kid? <==> db.users[u].passwordHash.None?)
    {
      assert Credentialed(db.users[u]);
    }
    forall s | s in db.services && db.services[s].category.Some?
      ensures OwnsCategory(db, db.services[s].owner, db.services[s].category.value)
    {
      assert ServiceRef(db.services[s], db.users.Keys, db.categories, db.library.Keys);
    }
  }

  /** Every database reachable from the empty one by store operations is sound: credentials are missing exactly
      for kids, allow-lists belong to kids and lie in the shared catalog, and nothing dangles. */
  lemma ReachableIsSoundByCalls(ops: seq<Op>)
    requires FreshRun(EMPTY, ops)
    ensures Sound(StoreInvariant.After(EMPTY, ops))
  {
    ReachableFromEmpty(ops);
    InvIsSound(StoreInvariant.After(EMPTY, ops));
  }

  /** So is every one reachable with restarts in between. */
  lemma ReachableIsSound(events: seq<Event>, cats: set<Id>, users: set<Id>)
    requires FreshEvents(EMPTY, events, cats, users)
    ensures Inv(DoAll(EMPTY, events)) && Sound(DoAll(EMPTY, events))
  {
    EmptyInv();
    RunKeepsInv(EMPTY, events, cats, users);
    InvIsSound(DoAll(EMPTY, events));
  }

  // ---- a store operation is an edit

  /** The width a call sets. */
  function SpansOf(db: Db, op: Op): map<Id, int>
  {
    if op.Section? && op.s.SetCategoryWidthOp? && Apply(db, op).1 == Ok then map[op.s.id := op.s.width] else map[]
  }

  /** The uptime preference a call saves. */
  function UptimesOf(db: Db, op: Op): map<Id, bool>
  {
    if op.Account? && op.a.SetPrefOp? && op.a.pref.UptimePref? &&
      Apply(db, op).1 == Ok then map[op.a.id := op.a.pref.show]
    else map[]
  }

  /** Every width is the one set, the one there was, or the default of a created category. */
  ghost predicate WidthsFollow(cats: map<Id, Category>, cats': map<Id, Category>, spans: map<Id, int>)
  {
    && spans.Keys <= cats'.Keys
    && forall c | c in cats' ::
         cats'[c].width == if c in spans then spans[c] else if c in cats then cats[c].width else DEFAULT_SPAN
  }

  ghost predicate UptimesFollow(users: map<Id, User>, users': map<Id, User>, uptimes: map<Id, bool>, byDefault: bool)
  {
    && uptimes.Keys <= users'.Keys
    && forall u | u in users' ::
         users'[u].showUptime ==
           if u in uptimes then uptimes[u] else if u in users then users[u].showUptime else byDefault
  }

  lemma SameWidths(cats: map<Id, Category>)
    ensures WidthsFollow(cats, cats, map[])
  {
  }

  lemma CreatedWidth(db: Db, id: Id, owner: Id, name: string)
    requires id !in db.categories
    ensures WidthsFollow(db.categories, CreateCategory(db, id, owner, name).0.categories, map[])
  {
  }

  lemma RenamedWidth(db: Db, id: Id, owner: Id, name: string)
    ensures WidthsFollow(db.categories, RenameCategory(db, id, owner, name).0.categories, map[])
  {
  }

  lemma SetWidth(db: Db, id: Id, owner: Id, width: int)
    ensures var (db', err) := SetCategoryWidth(db, id, owner, width);
            WidthsFollow(db.categories, db'.categories, if err == Ok then map[id := width] else map[])
  {
  }

  lemma ReorderedWidths(db: Db, owner: Id, ids: seq<Id>)
    ensures WidthsFollow(db.categories, SetCategoryOrder(db, owner, ids).0.categories, map[])
  {
    assert Reindexed(db.categories, ids).Keys == db.categories.Keys;
  }

  lemma PersonalKeepsCategories(db: Db, s: SectionOp)
    requires s.SetLayoutOp? || s.SetCollapsedOp? || s.AddFavoriteOp? || s.RemoveFavoriteOp?
    ensures ApplySection(db, s).0.categories == db.categories
  {
  }

  lemma SectionWidths(db: Db, s: SectionOp)
    requires s.CreateCategoryOp? ==> s.id !in db.categories
    ensures WidthsFollow(db.categories, ApplySection(db, s).0.categories, SpansOf(db, Section(s)))
  {
    match s
    case CreateCategoryOp(id, owner, name) => CreatedWidth(db, id, owner, name);
    case RenameCategoryOp(id, owner, name) => RenamedWidth(db, id, owner, name);
    case SetCategoryWidthOp(id, owner, width) => SetWidth(db, id, owner, width);
    case SetCategoryOrderOp(owner, ids) => ReorderedWidths(db, owner, ids);
    case DeleteCategoryOp(id, owner) => GoneWidths(db, {id}); SameWidths(db.categories);
    case _ => PersonalKeepsCategories(db, s); SameWidths(db.categories);
  }

  lemma GoneWidths(db: Db, gone: set<Id>)
    ensures WidthsFollow(db.categories, WithoutCategories(db, gone).categories, map[])
  {
  }

  lemma AccountWidths(db: Db, a: AccountOp)
    ensures WidthsFollow(db.categories, ApplyAccount(db, a).0.categories, map[])
  {
    if a.DeleteKidOp? && IsKid(db, a.id) {
      GoneWidths(WithoutServices(db, ServicesOf(db, a.id)), CategoriesOf(db, a.id));
    }
  }

  lemma CatalogKeepsCategories(db: Db, c: CatalogOp)
    ensures ApplyCatalog(db, c).0.categories == db.categories
  {
  }

  lemma SessionKeepsCategories(db: Db, o: SessionOp)
    ensures ApplySession(db, o).0.categories == db.categories
  {
  }

  lemma OpWidths(db: Db, op: Op)
    requires Fresh(db, op)
    ensures WidthsFollow(db.categories, Apply(db, op).0.categories, SpansOf(db, op))
  {
    match op
    case Account(a) => AccountWidths(db, a);
    case Section(s) => SectionWidths(db, s);
    case Catalog(c) => CatalogKeepsCategories(db, c); SameWidths(db.categories);
    case Session(o) => SessionKeepsCategories(db, o); SameWidths(db.categories);
  }

  lemma CreatedUptime(users: map<Id, User>, id: Id, u: User, byDefault: bool)
    requires id !in users && u.showUptime == byDefault
    ensures UptimesFollow(users, users[id := u], map[], byDefault)
  {
  }

  lemma RewrittenUptime(users: map<Id, User>, id: Id, u: User, byDefault: bool)
    requires id in users && u.showUptime == users[id].showUptime
    ensures UptimesFollow(users, users[id := u], map[], byDefault)
  {
  }

  lemma CreatedUserUptime(db: Db, id: Id, email: string, hash: string, role: Role)
    requires id !in db.users
    ensures UptimesFollow(db.users, CreateUser(db, id, email, hash, role).0.users, map[], DefaultUptime(db))
  {
    var (db', err) := CreateUser(db, id, email, hash, role);
    SameUptimes(db.users, DefaultUptime(db));
    if err == Ok { CreatedUptime(db.users, id, db'.users[id], DefaultUptime(db)); }
  }

  lemma CreatedKidUptime(db: Db, id: Id, name: string, color: string)
    requires id !in db.users
    ensures UptimesFollow(db.users, CreateKid(db, id, name, color).0.users, map[], DefaultUptime(db))
  {
    var (db', err) := CreateKid(db, id, name, color);
    SameUptimes(db.users, DefaultUptime(db));
    if err == Ok { CreatedUptime(db.users, id, db'.users[id], DefaultUptime(db)); }
  }

  lemma UpdatedKidUptime(db: Db, id: Id, name: Option<string>, color: Option<string>)
    ensures UptimesFollow(db.users, UpdateKid(db, id, name, color).0.users, map[], DefaultUptime(db))
  {
    var (db', err) := UpdateKid(db, id, name, color);
    SameUptimes(db.users, DefaultUptime(db));
    if err == Ok { RewrittenUptime(db.users, id, db'.users[id], DefaultUptime(db)); }
  }

  lemma KidServicesKeepUsers(db: Db, id: Id, ids: seq<Id>)
    ensures SetKidServices(db, id, ids).0.users == db.users
  {
  }

  lemma DeletedKidUptime(db: Db, id: Id)
    ensures UptimesFollow(db.users, DeleteKid(db, id).0.users, map[], DefaultUptime(db))
  {
  }

  lemma SavedUptime(db: Db, id: Id, p: Pref)
    ensures var (db', err) := SetPref(db, id, p);
            UptimesFollow(db.users, db'.users, if p.UptimePref? &&
              err == Ok then map[id := p.show] else map[], DefaultUptime(db))
  {
  }

  lemma SameUptimes(users: map<Id, User>, byDefault: bool)
    ensures UptimesFollow(users, users, map[], byDefault)
  {
  }

  lemma AccountUptimes(db: Db, a: AccountOp)
    requires FreshAccount(db, a)
    ensures UptimesFollow(db.users, ApplyAccount(db, a).0.users, UptimesOf(db, Account(a)), DefaultUptime(db))
  {
    match a
    case CreateUserOp(id, email, hash, role) => CreatedUserUptime(db, id, email, hash, role);
    case CreateKidOp(id, name, color) => CreatedKidUptime(db, id, name, color);
    case UpdateKidOp(id, name, color) => UpdatedKidUptime(db, id, name, color);
    case DeleteKidOp(id) => DeletedKidUptime(db, id);
    case SetPrefOp(id, p) => SavedUptime(db, id, p);
    case SetKidServicesOp(id, ids) => KidServicesKeepUsers(db, id, ids); SameUptimes(db.users, DefaultUptime(db));
    case SetUptimeDefaultOp(_) => SameUptimes(db.users, DefaultUptime(db));
  }

  lemma OpUptimes(db: Db, op: Op)
    requires Fresh(db, op)
    ensures UptimesFollow(db.users, Apply(db, op).0.users, UptimesOf(db, op), DefaultUptime(db))
  {
    match op
    case Account(a) => AccountUptimes(db, a);
    case Catalog(c) => CatalogKeepsUsers(db, c);
    case Section(s) => SectionKeepsUsers(db, s);
    case Session(o) => SessionKeepsUsers(db, o);
  }

  /** A call creates at most the category, and the user, it is given an id for. */
  lemma OpBirths(db: Db, op: Op)
    ensures forall c | c in Apply(db, op).0.categories && c !in db.categories :: NewCategory(Call(op)) == Some(c)
    ensures forall u | u in Apply(db, op).0.users && u !in db.users :: NewUser(Call(op)) == Some(u)
  {
    match op
    case Account(a) => AccountBirths(db, a);
    case Section(s) => SectionKeepsUsers(db, s); SectionBirths(db, s);
    case Catalog(c) => CatalogKeepsUsers(db, c); CatalogKeepsCategories(db, c);
    case Session(o) => SessionKeepsUsers(db, o); SessionKeepsCategories(db, o);
  }

  lemma AccountBirths(db: Db, a: AccountOp)
    ensures ApplyAccount(db, a).0.categories.Keys <= db.categories.Keys
    ensures forall u | u in ApplyAccount(db, a).0.users && u !in db.users :: NewUser(Call(Account(a))) == Some(u)
  {
  }

  lemma SectionBirths(db: Db, s: SectionOp)
    ensures forall c | c in ApplySection(db, s).0.categories && c !in db.categories ::
              NewCategory(Call(Section(s))) == Some(c)
  {
  }

  lemma LiftedWidths(db: Db, db': Db, saved: map<Id, int>, spans: map<Id, int>)
    requires WidthsFollow(db.categories, db'.categories, spans)
    requires forall c | c in db'.categories && c !in db.categories :: c !in saved
    ensures var next := Lift(db', saved).categories.rows;
            && spans.Keys <= next.Keys
            && forall c | c in next :: R.CategoryWritten(Lift(db, saved).categories, next, spans, c)
  {
  }

  lemma LiftedUptimes(db: Db, db': Db, saved: map<Id, int>, uptimes: map<Id, bool>)
    requires UptimesFollow(db.users, db'.users, uptimes, DefaultUptime(db))
    ensures var next := Lift(db', saved).users.rows;
            && uptimes.Keys <= next.Keys
            && forall u | u in next :: R.UserWritten(Lift(db, saved).users, Lift(db, saved).setting, next, uptimes, u)
  {
  }

  lemma LiftedHolds(db: Db, db': Db, saved: map<Id, int>)
    requires Inv(db')
    ensures var st, next := Lift(db, saved), Lift(db', saved);
            && T.Holds(next)
            && next.users == st.users.(rows := next.users.rows)
            && next.services == st.services.(rows := next.services.rows)
            && next.categories == st.categories.(rows := next.categories.rows)
  {
    StoreIsMigrated(db', saved);
  }

  /** Every store operation is a legal edit of the migrated tables: it names a width exactly when it is an
      accepted SetCategoryWidth, and an uptime preference exactly when it is a saved one. */
  lemma OpIsLegalEdit(db: Db, saved: map<Id, int>, op: Op)
    requires Inv(db) && Fresh(db, op) && (NewCategory(Call(op)).Some? ==> NewCategory(Call(op)).value !in saved)
    ensures R.LegalEdit(Lift(db, saved), Lift(Apply(db, op).0, saved), SpansOf(db, op), UptimesOf(db, op))
    ensures SpansOf(db, op) != map[] <==> op.Section? && op.s.SetCategoryWidthOp? && Apply(db, op).1 == Ok
    ensures UptimesOf(db, op) != map[] <==>
            op.Account? && op.a.SetPrefOp? && op.a.pref.UptimePref? && Apply(db, op).1 == Ok
  {
    var db' := Apply(db, op).0;
    OpInv(db, op);
    LiftedHolds(db, db', saved);
    EditFollows(db, saved, op);
    NamesExactly(db, op);
  }

  lemma EditFollows(db: Db, saved: map<Id, int>, op: Op)
    requires Fresh(db, op) && (NewCategory(Call(op)).Some? ==> NewCategory(Call(op)).value !in saved)
    ensures var st, next := Lift(db, saved), Lift(Apply(db, op).0, saved);
            && SpansOf(db, op).Keys <= next.categories.rows.Keys && UptimesOf(db, op).Keys <= next.users.rows.Keys
            && (forall c | c in next.categories.rows ::
                  R.CategoryWritten(st.categories, next.categories.rows, SpansOf(db, op), c))
            && (forall u | u in next.users.rows ::
                  R.UserWritten(st.users, st.setting, next.users.rows, UptimesOf(db, op), u))
  {
    var db' := Apply(db, op).0;
    OpWidths(db, op);
    OpUptimes(db, op);
    OpBirths(db, op);
    LiftedWidths(db, db', saved, SpansOf(db, op));
    LiftedUptimes(db, db', saved, UptimesOf(db, op));
  }

  lemma NamesExactly(db: Db, op: Op)
    ensures SpansOf(db, op) != map[] <==> op.Section? && op.s.SetCategoryWidthOp? && Apply(db, op).1 == Ok
    ensures UptimesOf(db, op) != map[] <==>
            op.Account? && op.a.SetPrefOp? && op.a.pref.UptimePref? && Apply(db, op).1 == Ok
  {
    if op.Section? && op.s.SetCategoryWidthOp? && Apply(db, op).1 == Ok { assert op.s.id in SpansOf(db, op); }
    if op.Account? && op.a.SetPrefOp? && op.a.pref.UptimePref? && Apply(db, op).1 == Ok {
      assert op.a.id in UptimesOf(db, op);
    }
  }

  // ---- runs of the store are runs of boots and edits

  function EventOf(db: Db, saved: map<Id, int>, e: Event): R.Event
  {
    match e
    case Call(op) => R.Edited(Lift(Apply(db, op).0, saved), SpansOf(db, op), UptimesOf(db, op))
    case Restart(pick, entries) => R.Booted(pick, entries)
  }

  function EventsOf(db: Db, saved: map<Id, int>, events: seq<Event>): seq<R.Event>
    decreases |events|
  {
    if events == [] then [] else [EventOf(db, saved, events[0])] + EventsOf(Do(db, events[0]), saved, events[1..])
  }

  lemma BirthsFit(db: Db, saved: map<Id, int>, op: Op, cats: set<Id>, users: set<Id>)
    requires FreshEvent(db, Call(op), cats, users)
    ensures R.NewRows(Lift(db, saved), Lift(Apply(db, op).0, saved), cats, users)
  {
    OpBirths(db, op);
    LiftedKeys(db, saved);
    LiftedKeys(Apply(db, op).0, saved);
  }

  lemma CallFits(db: Db, saved: map<Id, int>, op: Op, cats: set<Id>, users: set<Id>)
    requires Inv(db) && saved.Keys <= cats && FreshEvent(db, Call(op), cats, users)
    ensures R.LegalEvent(Lift(db, saved), EventOf(db, saved, Call(op)), cats, users)
  {
    OpIsLegalEdit(db, saved, op);
    BirthsFit(db, saved, op, cats, users);
  }

  lemma RestartFits(db: Db, saved: map<Id, int>, pick: map<Id, Id>, entries: seq<M.Entry>)
    requires Inv(db)
    ensures R.AfterEvent(Lift(db, saved), R.Booted(pick, entries)) == Lift(Restarted(db, pick, entries), saved)
  {
    BootIsRestart(db, saved, pick, entries);
  }

  lemma EventFits(db: Db, saved: map<Id, int>, e: Event, cats: set<Id>, users: set<Id>)
    requires Inv(db) && saved.Keys <= cats && FreshEvent(db, e, cats, users)
    ensures R.LegalEvent(Lift(db, saved), EventOf(db, saved, e), cats, users)
    ensures R.AfterEvent(Lift(db, saved), EventOf(db, saved, e)) == Lift(Do(db, e), saved)
  {
    match e
    case Call(op) => CallFits(db, saved, op, cats, users);
    case Restart(pick, entries) => RestartFits(db, saved, pick, entries);
  }

  lemma LiftedKeys(db: Db, saved: map<Id, int>)
    ensures Lift(db, saved).categories.rows.Keys == db.categories.Keys &&
            Lift(db, saved).users.rows.Keys == db.users.Keys
  {
  }

  ghost predicate Fits(db: Db, saved: map<Id, int>, events: seq<Event>, cats: set<Id>, users: set<Id>)
  {
    && R.LegalRun(Lift(db, saved), EventsOf(db, saved, events), cats, users)
    && R.RunEvents(Lift(db, saved), EventsOf(db, saved, events)) == Lift(DoAll(db, events), saved)
  }

  lemma NoEventsFit(db: Db, saved: map<Id, int>, cats: set<Id>, users: set<Id>)
    requires db.categories.Keys <= cats && db.users.Keys <= users
    ensures Fits(db, saved, [], cats, users)
  {
    LiftedKeys(db, saved);
  }

  lemma FitsCons(db: Db, saved: map<Id, int>, events: seq<Event>, cats: set<Id>, users: set<Id>)
    requires events != [] && db.categories.Keys <= cats && db.users.Keys <= users
    requires R.LegalEvent(Lift(db, saved), EventOf(db, saved, events[0]), cats, users)
    requires R.AfterEvent(Lift(db, saved), EventOf(db, saved, events[0])) == Lift(Do(db, events[0]), saved)
    requires var db' := Do(db, events[0]);
             Fits(db', saved, events[1..], cats + db'.categories.Keys, users + db'.users.Keys)
    ensures Fits(db, saved, events, cats, users)
  {
    var db' := Do(db, events[0]);
    LiftedKeys(db, saved);
    LiftedKeys(db', saved);
    R.RunCons(Lift(db, saved), EventOf(db, saved, events[0]), EventsOf(db', saved, events[1..]), cats, users);
  }

  /** Lifting commutes with runs: the store's run is a legal run of boots and edits of its tables. */
  lemma {:induction false} RunFits(db: Db, saved: map<Id, int>, events: seq<Event>, cats: set<Id>, users: set<Id>)
    requires Inv(db) && saved.Keys <= cats && FreshEvents(db, events, cats, users)
    ensures Fits(db, saved, events, cats, users)
    decreases |events|
  {
    if events == [] {
      NoEventsFit(db, saved, cats, users);
    } else {
      var db' := Do(db, events[0]);
      FirstEvent(db, events, cats, users);
      EventInv(db, events[0]);
      EventFits(db, saved, events[0], cats, users);
      RunFits(db', saved, events[1..], cats + db'.categories.Keys, users + db'.users.Keys);
      FitsCons(db, saved, events, cats, users);
    }
  }

  lemma FirstEvent(db: Db, events: seq<Event>, cats: set<Id>, users: set<Id>)
    requires events != [] && FreshEvents(db, events, cats, users)
    ensures db.categories.Keys <= cats && db.users.Keys <= users && FreshEvent(db, events[0], cats, users)
    ensures var db' := Do(db, events[0]);
            FreshEvents(db', events[1..], cats + db'.categories.Keys, users + db'.users.Keys)
  {
  }

  // ---- what people chose, in the store's terms

  /** The width an accepted SetCategoryWidth gives the category. */
  function WidthSet(db: Db, e: Event, c: Id): Option<int>
  {
    if e.Call? && e.op.Section? && e.op.s.SetCategoryWidthOp? && e.op.s.id == c &&
      Apply(db, e.op).1 == Ok then Some(e.op.s.width)
    else None
  }

  function LastWidth(db: Db, events: seq<Event>, c: Id): Option<int>
    decreases |events|
  {
    if events == [] then None
    else
      var later := LastWidth(Do(db, events[0]), events[1..], c);
      if later.Some? then later else WidthSet(db, events[0], c)
  }

  /** The uptime preference the user saves. */
  function UptimeSaved(db: Db, e: Event, u: Id): Option<bool>
  {
    if e.Call? && e.op.Account? && e.op.a.SetPrefOp? && e.op.a.id == u && e.op.a.pref.UptimePref? &&
      Apply(db, e.op).1 == Ok
    then Some(e.op.a.pref.show)
    else None
  }

  function LastUptime(db: Db, events: seq<Event>, u: Id): Option<bool>
    decreases |events|
  {
    if events == [] then None
    else
      var later := LastUptime(Do(db, events[0]), events[1..], u);
      if later.Some? then later else UptimeSaved(db, events[0], u)
  }

  /** The admin's default at the call that creates the account. */
  function DefaultWhenCreated(db: Db, events: seq<Event>, u: Id): bool
    decreases |events|
  {
    if events == [] || u in Do(db, events[0]).users then DefaultUptime(db)
    else DefaultWhenCreated(Do(db, events[0]), events[1..], u)
  }

  lemma {:induction false} LastsAgree(db: Db, saved: map<Id, int>, events: seq<Event>, id: Id)
    ensures R.LastSpan(EventsOf(db, saved, events), id) == LastWidth(db, events, id)
    ensures R.LastUptime(EventsOf(db, saved, events), id) == LastUptime(db, events, id)
    decreases |events|
  {
    if events != [] {
      var rest := EventsOf(Do(db, events[0]), saved, events[1..]);
      LastsAgree(Do(db, events[0]), saved, events[1..], id);
      R.LastSpanFirst(EventOf(db, saved, events[0]), rest, id);
      R.LastUptimeFirst(EventOf(db, saved, events[0]), rest, id);
    }
  }

  lemma {:induction false} BirthsAgree(db: Db, saved: map<Id, int>, events: seq<Event>, cats: set<Id>, users: set<Id>,
                                       u: Id)
    requires Inv(db) && saved.Keys <= cats && FreshEvents(db, events, cats, users)
    ensures R.DefaultAtBirth(Lift(db, saved), EventsOf(db, saved, events), u) == DefaultWhenCreated(db, events, u)
    decreases |events|
  {
    if events != [] {
      var e, db' := events[0], Do(db, events[0]);
      FirstEvent(db, events, cats, users);
      EventInv(db, e);
      EventFits(db, saved, e, cats, users);
      LiftedKeys(db', saved);
      BirthsAgree(db', saved, events[1..], cats + db'.categories.Keys, users + db'.users.Keys, u);
      R.BirthCons(Lift(db, saved), EventOf(db, saved, e), EventsOf(db', saved, events[1..]), u);
    }
  }

  /** Over any run of store operations and restarts, a width is the last one an accepted SetCategoryWidth gave,
      else the one there was, else 6, and always a span of the grid. */
  lemma WidthOverStoreRuns(db: Db, events: seq<Event>, cats: set<Id>, users: set<Id>, c: Id)
    requires Inv(db) && FreshEvents(db, events, cats, users) && c in DoAll(db, events).categories
    ensures var width := DoAll(db, events).categories[c].width;
            && width in {3, 4, 6, 12}
            && width == (if LastWidth(db, events, c).Some? then LastWidth(db, events, c).value
                         else if c in db.categories then db.categories[c].width else 6)
  {
    RunFits(db, map[], events, cats, users);
    RunKeepsInv(db, events, cats, users);
    StoreIsMigrated(db, map[]);
    LastsAgree(db, map[], events, c);
    R.WidthIsLastSpan(Lift(db, map[]), EventsOf(db, map[], events), cats, users, c);
  }

  /** Over any such run, an uptime preference is the last one the user saved, else the one there was, else the
      admin's default when the account was created. */
  lemma UptimeOverStoreRuns(db: Db, events: seq<Event>, cats: set<Id>, users: set<Id>, u: Id)
    requires Inv(db) && FreshEvents(db, events, cats, users) && u in DoAll(db, events).users
    ensures DoAll(db, events).users[u].showUptime ==
            if LastUptime(db, events, u).Some? then LastUptime(db, events, u).value
            else if u in db.users then db.users[u].showUptime else DefaultWhenCreated(db, events, u)
  {
    RunFits(db, map[], events, cats, users);
    StoreIsMigrated(db, map[]);
    LastsAgree(db, map[], events, u);
    BirthsAgree(db, map[], events, cats, users, u);
    R.UptimeIsLastChoice(Lift(db, map[]), EventsOf(db, map[], events), cats, users, u);
  }

  // ---- from an older release

  /** Before 0007 gave rows their owners, only the accounts have to be apart. */
  lemma OldKeepsStore(st: T.State, now: nat)
    requires B.Settled(st) && !st.services.ownerColumns && AccountsApart(st.users.rows, now)
    ensures StoreKeeps(st, now)
  {
    forall s | s in st.services.rows && st.services.rows[s].category.Some?
      ensures st.services.rows[s].category.value in st.categories.rows
      ensures st.categories.rows[st.services.rows[s].category.value].owner == st.services.rows[s].owner
    {
      assert T.ServiceHolds(st.services, st.services.rows[s], st.users.rows.Keys, st.categories.rows.Keys,
                            st.library.Keys);
      assert T.CategoryHolds(st.categories, st.categories.rows[st.services.rows[s].category.value],
                             st.users.rows.Keys);
    }
  }

  lemma BootKeepsAccounts(st: T.State, pick: map<Id, Id>, entries: seq<M.Entry>, now: nat)
    requires B.Settled(st) && !B.Ownerless(st) && AccountsApart(st.users.rows, now)
    ensures M.Boot(st, pick, entries).Some? && AccountsApart(M.Boot(st, pick, entries).value.users.rows, now)
  {
    R.FirstBoot(st, pick, entries);
    R.FirstBootKeys(st, pick, entries);
    var rows := M.Boot(st, pick, entries).value.users.rows;
    assert B.Tabled(st).users.rows == st.users.rows;
    assert forall u | u in rows ::
             rows[u].createdAt == st.users.rows[u].createdAt && rows[u].email == st.users.rows[u].email;
  }

  /** The owner 0007 leaves a row with. */
  function OwnerAfter(users: map<Id, T.User>, owner: Option<Id>): Option<Id>
  {
    if owner.None? then T.FirstAdmin(users) else owner
  }

  lemma CategoryHandedOver(st: T.State, pick: map<Id, Id>, entries: seq<M.Entry>, c: Id)
    requires B.Settled(st) && !B.Ownerless(st) && c in st.categories.rows
    ensures M.Boot(st, pick, entries).Some? && c in M.Boot(st, pick, entries).value.categories.rows
    ensures M.Boot(st, pick, entries).value.categories.rows[c].owner ==
            OwnerAfter(st.users.rows, st.categories.rows[c].owner)
  {
    R.FirstBootCategories(st, pick, entries);
  }

  lemma ServiceHandedOver(st: T.State, pick: map<Id, Id>, entries: seq<M.Entry>, s: Id)
    requires B.Settled(st) && !B.Ownerless(st) && M.Boot(st, pick, entries).Some?
    requires s in M.Boot(st, pick, entries).value.services.rows
    ensures s in st.services.rows
    ensures var row := M.Boot(st, pick, entries).value.services.rows[s];
            row.category == st.services.rows[s].category
            && row.owner == OwnerAfter(st.users.rows, st.services.rows[s].owner)
  {
    B.MigratedCatalog(st, pick);
    assert M.Boot(st, pick, entries).value.services == M.Migrate(st, pick).value.services;
  }

  /** The boot hands unowned categories and services to one and the same admin. */
  lemma BootKeepsCategories(st: T.State, pick: map<Id, Id>, entries: seq<M.Entry>)
    requires B.Settled(st) && !B.Ownerless(st) && CategoriesOwned(st.services.rows, st.categories.rows)
    ensures M.Boot(st, pick, entries).Some?
    ensures var b := M.Boot(st, pick, entries).value; CategoriesOwned(b.services.rows, b.categories.rows)
  {
    R.FirstBootKeys(st, pick, entries);
    var b := M.Boot(st, pick, entries).value;
    forall s | s in b.services.rows && b.services.rows[s].category.Some?
      ensures b.services.rows[s].category.value in b.categories.rows
      ensures b.categories.rows[b.services.rows[s].category.value].owner == b.services.rows[s].owner
    {
      ServiceHandedOver(st, pick, entries, s);
      CategoryHandedOver(st, pick, entries, st.services.rows[s].category.value);
    }
  }

  /** An older database whose accounts are apart boots into the tables of a store's database. */
  lemma UpgradeIsStores(st: T.State, pick: map<Id, Id>, entries: seq<M.Entry>, now: nat)
    requires B.Settled(st) && !B.Ownerless(st) && StoreKeeps(st, now)
    ensures M.Boot(st, pick, entries).Some?
    ensures var b := M.Boot(st, pick, entries).value;
            && B.Settled(b) && T.Migrated(b) && StoreKeeps(b, now)
            && Inv(StoreOf(b, now)) && Lift(StoreOf(b, now), SavedWidths(b.categories.rows)) == b
  {
    R.FirstBoot(st, pick, entries);
    BootKeepsAccounts(st, pick, entries, now);
    BootKeepsCategories(st, pick, entries);
    MigratedIsStores(M.Boot(st, pick, entries).value, now);
  }

  /** The store's database that an older database boots into, and the widths its upgrade saved. */
  function Upgraded(st: T.State, pick: map<Id, Id>, entries: seq<M.Entry>, now: nat): (db: Db)
    requires B.Settled(st) && !B.Ownerless(st) && StoreKeeps(st, now)
    ensures M.Boot(st, pick, entries) == Some(Lift(db, SavedAt(st, pick, entries))) && Inv(db)
  {
    UpgradeIsStores(st, pick, entries, now);
    StoreOf(M.Boot(st, pick, entries).value, now)
  }

  function SavedAt(st: T.State, pick: map<Id, Id>, entries: seq<M.Entry>): map<Id, int>
  {
    var b := M.Boot(st, pick, entries);
    if b.Some? then SavedWidths(b.value.categories.rows) else map[]
  }

  /** For any store's database whose tables the first boot left. */
  lemma WidthsSinceUpgrade(st: T.State, pick: map<Id, Id>, entries: seq<M.Entry>, db: Db, saved: map<Id, int>,
                             events: seq<Event>, cats: set<Id>, users: set<Id>, c: Id)
    requires B.Settled(st) && !B.Ownerless(st) && !st.categories.spans
    requires M.Boot(st, pick, entries) == Some(Lift(db, saved))
    requires Inv(db) && saved.Keys <= cats && FreshEvents(db, events, cats, users) && c in DoAll(db, events).categories
    ensures var width := DoAll(db, events).categories[c].width;
            Some(width) == (if LastWidth(db, events, c).Some? then LastWidth(db, events, c)
                            else if c !in st.categories.rows then Some(6)
                            else if R.OldWidth(st.categories, c).None? then None
                            else Some(M.SpanOf(R.OldWidth(st.categories, c).value)))
    ensures var reverted := M.Down0013(Lift(DoAll(db, events), saved));
            && reverted.Some? && c in reverted.value.categories.rows
            && reverted.value.categories.rows[c].width ==
                 if c in st.categories.rows then R.OldWidth(st.categories, c) else Some(3)
  {
    RunFits(db, saved, events, cats, users);
    LastsAgree(db, saved, events, c);
    R.WidthOverRuns(st, pick, entries, EventsOf(db, saved, events), cats, users, c);
    R.RevertRestores(st, pick, entries, EventsOf(db, saved, events), cats, users);
  }

  lemma UptimeSinceUpgrade(st: T.State, pick: map<Id, Id>, entries: seq<M.Entry>, db: Db, saved: map<Id, int>,
                          events: seq<Event>, cats: set<Id>, users: set<Id>, u: Id)
    requires B.Settled(st) && !B.Ownerless(st) && !st.users.uptimeColumn
    requires M.Boot(st, pick, entries) == Some(Lift(db, saved))
    requires Inv(db) && saved.Keys <= cats && FreshEvents(db, events, cats, users) && u in DoAll(db, events).users
    ensures DoAll(db, events).users[u].showUptime ==
            if LastUptime(db, events, u).Some? then LastUptime(db, events, u).value
            else if u in st.users.rows then st.setting != Some(false) else DefaultWhenCreated(db, events, u)
  {
    RunFits(db, saved, events, cats, users);
    LastsAgree(db, saved, events, u);
    BirthsAgree(db, saved, events, cats, users, u);
    R.UptimeOverRuns(st, pick, entries, EventsOf(db, saved, events), cats, users, u);
  }

  /** From an older database, through its first boot, over any store operations and restarts: what no one chose
      since is the remapped original, and reverting 0013 still brings every old width back. */
  lemma UpgradeThenStoreRuns(st: T.State, pick: map<Id, Id>, entries: seq<M.Entry>, now: nat, events: seq<Event>,
                             cats: set<Id>, users: set<Id>, c: Id)
    requires B.Settled(st) && !B.Ownerless(st) && StoreKeeps(st, now) && !st.categories.spans
    requires var db := Upgraded(st, pick, entries, now);
             FreshEvents(db, events, cats, users) && c in DoAll(db, events).categories
    ensures var db := Upgraded(st, pick, entries, now);
            Some(DoAll(db, events).categories[c].width) ==
              (if LastWidth(db, events, c).Some? then LastWidth(db, events, c)
               else if c !in st.categories.rows then Some(6)
               else if R.OldWidth(st.categories, c).None? then None
               else Some(M.SpanOf(R.OldWidth(st.categories, c).value)))
    ensures var db := Upgraded(st, pick, entries, now);
            var reverted := M.Down0013(Lift(DoAll(db, events), SavedAt(st, pick, entries)));
            && reverted.Some? && c in reverted.value.categories.rows
            && reverted.value.categories.rows[c].width ==
                 if c in st.categories.rows then R.OldWidth(st.categories, c) else Some(3)
  {
    var db := Upgraded(st, pick, entries, now);
    WidthsSinceUpgrade(st, pick, entries, db, SavedAt(st, pick, entries), events, cats, users, c);
  }

  lemma UpgradeThenUptime(st: T.State, pick: map<Id, Id>, entries: seq<M.Entry>, now: nat, events: seq<Event>,
                          cats: set<Id>, users: set<Id>, u: Id)
    requires B.Settled(st) && !B.Ownerless(st) && StoreKeeps(st, now) && !st.users.uptimeColumn
    requires var db := Upgraded(st, pick, entries, now);
             FreshEvents(db, events, cats, users) && u in DoAll(db, events).users
    ensures var db := Upgraded(st, pick, entries, now);
            DoAll(db, events).users[u].showUptime ==
            if LastUptime(db, events, u).Some? then LastUptime(db, events, u).value
            else if u in st.users.rows then st.setting != Some(false) else DefaultWhenCreated(db, events, u)
  {
    var db := Upgraded(st, pick, entries, now);
    UptimeSinceUpgrade(st, pick, entries, db, SavedAt(st, pick, entries), events, cats, users, u);
  }
}
