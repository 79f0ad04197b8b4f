/** What a boot does to a database that earlier boots, of this or an older release, have left behind. */
module BootStability {
  import opened Base
  import opened Ordering
  import opened Tables
  import opened Migrations
  import Schema

  /** Rows that no user owns yet: a catalog from before the per-user cutover. */
  predicate HasUnowned(st: State)
  {
    UnownedService(st.services.rows) || UnownedCategory(st.categories.rows)
  }

  predicate UnownedService(rows: map<Id, Service>)
  {
    exists s | s in rows :: rows[s].owner.None?
  }

  predicate UnownedCategory(rows: map<Id, Category>)
  {
    exists c | c in rows :: rows[c].owner.None?
  }

  /** What 0007 cannot repair. */
  predicate Ownerless(st: State)
  {
    HasUnowned(st) && Admins(st.users.rows) == {}
  }

  predicate Settled(st: State)
  {
    Holds(st) && AtRest(st)
  }

  function Then(st: Option<State>, file: File, pick: map<Id, Id>): Option<State>
  {
    if st.None? then None else Apply(file, st.value, pick)
  }

  // ---- 0001, 0004

  function Tabled(st: State): State
  {
    WithCategoryTable(WithBaseTables(st))
  }

  lemma AfterTables(st: State)
    requires Settled(st)
    ensures M0001(st).Some? && M0004(M0001(st).value) == Some(Tabled(st))
    ensures Settled(Tabled(st)) && AllCreated(Tabled(st)) && (Ownerless(Tabled(st)) <==> Ownerless(st))
  {
  }

  // ---- 0007

  predicate AllCreated(st: State)
  {
    st.users.created && st.services.created && st.categories.created
  }

  lemma OwnedServicesHold(t: ServiceTable, owner: Option<Id>, users: set<Id>, categories: set<Id>, library: set<Id>)
    requires ServicesHold(t, users, categories, library) && t.ownerColumns
    requires owner.Some? ==> owner.value in users
    requires t.ownSlugs ==> t.ownerNotNull
    ensures ServicesHold(t.(rows := OwnedServices(t.rows, owner)), users, categories, library)
  {
    var rows := OwnedServices(t.rows, owner);
    if t.ownerNotNull {
      assert rows == t.rows;
    } else {
      assert forall s | s in rows :: rows[s].slug == t.rows[s].slug;
    }
  }

  lemma WiredServicesHold(t: ServiceTable, library: map<Id, Schema.Offer>, pick: map<Id, Id>, users: set<Id>,
                          categories: set<Id>)
    requires ServicesHold(t, users, categories, library.Keys) && t.ownerColumns
    ensures ServicesHold(t.(rows := Wired(t.rows, library, pick)), users, categories, library.Keys)
  {
    var rows := Wired(t.rows, library, pick);
    assert forall s | s in rows :: rows[s].slug == t.rows[s].slug && rows[s].owner == t.rows[s].owner;
  }

  lemma OwnedCategoriesHold(t: CategoryTable, owner: Option<Id>, users: set<Id>)
    requires CategoriesHold(t, users) && t.ownerColumn
    requires owner.Some? ==> owner.value in users
    requires t.ownNames ==> t.ownerNotNull
    ensures CategoriesHold(t.(rows := OwnedCategories(t.rows, owner)), users)
  {
    var rows := OwnedCategories(t.rows, owner);
    if t.ownerNotNull {
      assert rows == t.rows;
    } else {
      assert forall c | c in rows :: rows[c] == t.rows[c].(owner := rows[c].owner);
    }
  }

  lemma MoreOffersHold(t: ServiceTable, users: set<Id>, categories: set<Id>, library: set<Id>, library': set<Id>)
    requires ServicesHold(t, users, categories, library) && library <= library'
    ensures ServicesHold(t, users, categories, library')
  {
  }

  lemma CutoverHolds(st: State, pick: map<Id, Id>)
    requires Settled(st) && AllCreated(st)
    ensures Holds(Cutover(st, pick))
  {
    var a := WithOwnerColumns(st);
    assert Holds(a);
    var library := SeededFromServices(a.library, a.services.rows, a.categories.rows);
    MoreOffersHold(a.services, a.users.rows.Keys, a.categories.rows.Keys, a.library.Keys, library.Keys);
    var owner := FirstAdmin(a.users.rows);
    OwnedServicesHold(a.services, owner, a.users.rows.Keys, a.categories.rows.Keys, library.Keys);
    OwnedCategoriesHold(a.categories, owner, a.users.rows.Keys);
    var owned := OwnedServices(a.services.rows, owner);
    var owned' := OwnedCategories(a.categories.rows, owner);
    assert owned'.Keys == a.categories.rows.Keys;
    WiredServicesHold(a.services.(rows := owned), library, pick, a.users.rows.Keys, a.categories.rows.Keys);
  }

  /** Slugs unique in the whole table are unique per owner. */
  lemma ServicesEnforced(t: ServiceTable, users: set<Id>, categories: set<Id>, library: set<Id>)
    requires ServicesHold(t, users, categories, library) && (t.globalSlugs || t.ownSlugs)
    ensures ServicesHold(t.(ownerNotNull := true, globalSlugs := false, ownSlugs := true), users, categories, library)
            <==> !UnownedService(t.rows)
  {
    var t' := t.(ownerNotNull := true, globalSlugs := false, ownSlugs := true);
    assert OwnSlugs(t.rows);
    if ServicesHold(t', users, categories, library) {
      forall s | s in t.rows ensures t.rows[s].owner.Some? {
        assert ServiceHolds(t', t'.rows[s], users, categories, library);
      }
    }
  }

  lemma CategoriesEnforced(t: CategoryTable, users: set<Id>)
    requires CategoriesHold(t, users) && (t.globalNames || t.ownNames)
    ensures CategoriesHold(t.(ownerNotNull := true, globalNames := false, ownNames := true), users)
            <==> !UnownedCategory(t.rows)
  {
    var t' := t.(ownerNotNull := true, globalNames := false, ownNames := true);
    assert OwnNames(t.rows);
    if CategoriesHold(t', users) {
      forall c | c in t.rows ensures t.rows[c].owner.Some? {
        assert CategoryHolds(t', t'.rows[c], users);
      }
    }
  }

  lemma ServicesLeftUnowned(rows: map<Id, Service>, owner: Option<Id>, library: map<Id, Schema.Offer>,
                            pick: map<Id, Id>)
    ensures UnownedService(Wired(OwnedServices(rows, owner), library, pick)) <==> UnownedService(rows) && owner.None?
  {
    var rows' := Wired(OwnedServices(rows, owner), library, pick);
    assert forall s | s in rows :: s in rows' && (rows'[s].owner.None? <==> rows[s].owner.None? && owner.None?);
  }

  lemma CategoriesLeftUnowned(rows: map<Id, Category>, owner: Option<Id>)
    ensures UnownedCategory(OwnedCategories(rows, owner)) <==> UnownedCategory(rows) && owner.None?
  {
    var rows' := OwnedCategories(rows, owner);
    assert forall c | c in rows :: c in rows' && (rows'[c].owner.None? <==> rows[c].owner.None? && owner.None?);
  }

  /** 0007 is refused exactly when rows without an owner meet a database without an admin. */
  lemma CutoverAborts(st: State, pick: map<Id, Id>)
    requires Settled(st) && AllCreated(st)
    ensures M0007(st, pick).None? <==> Ownerless(st)
  {
    CutoverHolds(st, pick);
    var done := Cutover(st, pick);
    ServicesLeftUnowned(st.services.rows, FirstAdmin(st.users.rows), done.library, pick);
    CategoriesLeftUnowned(st.categories.rows, FirstAdmin(st.users.rows));
    ServicesEnforced(done.services, done.users.rows.Keys, done.categories.rows.Keys, done.library.Keys);
    CategoriesEnforced(done.categories, done.users.rows.Keys);
  }

  lemma AfterCutover(st: State, pick: map<Id, Id>)
    requires Settled(st) && AllCreated(st) && !Ownerless(st)
    ensures M0007(st, pick) == Some(Enforced(Cutover(st, pick)))
    ensures var done := Enforced(Cutover(st, pick));
            Settled(done) && AllCreated(done) && done.services.ownerColumns && done.users == st.users &&
              done.setting == st.setting
  {
    CutoverAborts(st, pick);
  }

  function OnlyWired(st: State, pick: map<Id, Id>): State
  {
    st.(services := st.services.(rows := Wired(st.services.rows, st.library, pick)))
  }

  /** Once every row has an owner, 0007 does no more than wire sources. */
  lemma CutoverAgain(st: State, pick: map<Id, Id>)
    requires Settled(st) && st.services.ownerColumns
    ensures Enforced(Cutover(st, pick)) == OnlyWired(st, pick) && !Ownerless(st)
  {
    var owner := FirstAdmin(st.users.rows);
    assert OwnedServices(st.services.rows, owner) == st.services.rows;
    assert OwnedCategories(st.categories.rows, owner) == st.categories.rows;
    assert Unowned(st.services.rows) == {};
    assert SeededFromServices(st.library, st.services.rows, st.categories.rows) == st.library;
  }

  // ---- 0008, 0009, 0013

  /** What 0008, 0009 and 0013 make of the categories table. */
  function Spanned(t: CategoryTable): CategoryTable
  {
    if t.spans then t
    else WithSpanCheck(WithSpans(WithoutMax(WithLegacy(WithEightWidths(WithWidth(t))))))
  }

  predicate CategoriesSettled(t: CategoryTable, users: set<Id>)
  {
    CategoriesHold(t, users) && CategoriesAtRest(t) && t.ownerColumn
  }

  lemma WidthAdded(t: CategoryTable, users: set<Id>)
    requires CategoriesSettled(t, users)
    ensures CategoriesSettled(WithWidth(t), users) && WithWidth(t).widthColumn
  {
    var t' := WithWidth(t);
    assert forall c | c in t'.rows :: t'.rows[c].name == t.rows[c].name && t'.rows[c].owner == t.rows[c].owner;
  }

  lemma WidthWidened(t: CategoryTable, users: set<Id>)
    requires CategoriesSettled(t, users) && t.widthColumn
    ensures CategoriesSettled(WithEightWidths(t), users)
  {
  }

  lemma WidthSpanned(t: CategoryTable, users: set<Id>)
    requires CategoriesSettled(t, users) && t.widthColumn && !t.spans
    ensures CategoriesHold(WithSpans(WithoutMax(WithLegacy(t))), users)
    ensures CategoriesSettled(WithSpanCheck(WithSpans(WithoutMax(WithLegacy(t)))), users)
  {
    var t' := WithSpans(WithoutMax(WithLegacy(t)));
    assert forall c | c in t'.rows :: t'.rows[c].name == t.rows[c].name && t'.rows[c].owner == t.rows[c].owner;
    assert forall c | c in t'.rows :: Schema.ValidSpan(t'.rows[c].width.value);
  }

  lemma AfterWidths(st: State, pick: map<Id, Id>)
    requires Settled(st) && st.services.ownerColumns
    ensures Then(Then(Then(Some(st), File0008, pick), File0009, pick), File0013, pick)
            == Some(st.(categories := Spanned(st.categories)))
    ensures Settled(st.(categories := Spanned(st.categories)))
  {
    var users := st.users.rows.Keys;
    var wide := WithWidth(st.categories);
    WidthAdded(st.categories, users);
    assert wide.rows.Keys == st.categories.rows.Keys;
    var wider := WithEightWidths(wide);
    WidthWidened(wide, users);
    if !st.categories.spans {
      WidthSpanned(wider, users);
    }
  }

  // ---- 0016, 0018

  function Uptimed(t: UserTable, setting: Option<bool>): UserTable
  {
    if t.uptimeColumn then t else WithUptime(WithUptimeColumn(t), UptimeDefault(setting))
  }

  function Admitting(t: UserTable): UserTable
  {
    if t.kidCheck then t else WithKids(t).(kidNames := true)
  }

  lemma UptimeAdded(t: UserTable, setting: Option<bool>)
    requires UsersHold(t) && UsersAtRest(t) && t.created
    ensures UsersHold(Uptimed(t, setting)) && UsersAtRest(Uptimed(t, setting)) && Uptimed(t, setting).uptimeColumn
    ensures Uptimed(t, setting).rows.Keys == t.rows.Keys
  {
    var t' := Uptimed(t, setting);
    assert forall u | u in t'.rows :: KidName(t'.rows[u]) == KidName(t.rows[u]);
  }

  lemma KidsAdmitted(t: UserTable)
    requires UsersHold(t) && UsersAtRest(t) && t.created
    ensures UsersHold(Admitting(t)) && UsersAtRest(Admitting(t)) && Admitting(t).kidCheck && Admitting(t).rows == t.rows
    ensures !t.kidCheck ==> UsersHold(WithKids(t))
  {
    assert !t.kidCheck ==> forall u | u in t.rows :: UserHolds(t, t.rows[u]) && !t.rows[u].role.Kid?;
  }

  lemma AfterUsers(st: State, pick: map<Id, Id>)
    requires Settled(st) && st.users.created
    ensures Then(Then(Some(st), File0016, pick), File0018, pick) ==
            Some(st.(users := Admitting(Uptimed(st.users, st.setting))))
    ensures Settled(st.(users := Admitting(Uptimed(st.users, st.setting))))
  {
    UptimeAdded(st.users, st.setting);
    KidsAdmitted(Uptimed(st.users, st.setting));
  }

  // ---- the whole migration

  function Finished(st: State): State
  {
    st.(categories := Spanned(st.categories), users := Admitting(Uptimed(st.users, st.setting)))
  }

  /** The files, one after the other. */
  lemma MigrateUnrolled(st: State, pick: map<Id, Id>)
    ensures Migrate(st, pick) ==
      Then(Then(Then(Then(Then(Then(Then(Then(
        Some(st), File0001, pick), File0004, pick), File0007, pick), File0008, pick),
                     File0009, pick), File0013, pick), File0016, pick), File0018, pick)
  {
    var s1 := Then(Some(st), File0001, pick);
    var s2 := Then(s1, File0004, pick);
    var s3 := Then(s2, File0007, pick);
    var s4 := Then(s3, File0008, pick);
    var s5 := Then(s4, File0009, pick);
    var s6 := Then(s5, File0013, pick);
    var s7 := Then(s6, File0016, pick);
    assert FILES[0..] == FILES;
    ApplySuffix(0, Some(st), pick);
    ApplySuffix(1, s1, pick);
    ApplySuffix(2, s2, pick);
    ApplySuffix(3, s3, pick);
    ApplySuffix(4, s4, pick);
    ApplySuffix(5, s5, pick);
    ApplySuffix(6, s6, pick);
    ApplySuffix(7, s7, pick);
    ApplySuffix(8, Then(s7, File0018, pick), pick);
  }

  function ThenAll(st: Option<State>, files: seq<File>, pick: map<Id, Id>): Option<State>
  {
    if st.None? then None else ApplyAll(files, st.value, pick)
  }

  lemma {:induction false} ApplySuffix(i: nat, st: Option<State>, pick: map<Id, Id>)
    requires i <= 8
    ensures ThenAll(st, FILES[i..], pick) ==
            if i == 8 then st else ThenAll(Then(st, FILES[i], pick), FILES[i + 1..], pick)
  {
    if i < 8 {
      assert FILES[i..][0] == FILES[i] && FILES[i..][1..] == FILES[i + 1..];
    }
  }

  lemma UsersFinish(t: UserTable, setting: Option<bool>)
    requires UsersHold(t) && UsersAtRest(t) && t.created
    ensures Admitting(Uptimed(t, setting)).kidCheck && Admitting(Uptimed(t, setting)).uptimeColumn
  {
  }

  lemma MigrateFinishes(st: State, pick: map<Id, Id>)
    requires Settled(st) && AllCreated(st) && st.services.ownerColumns
    ensures Then(Then(Then(Then(Then(Some(st), File0008, pick), File0009, pick), File0013, pick), File0016, pick),
            File0018, pick)
            == Some(Finished(st))
    ensures Settled(Finished(st)) && Migrated(Finished(st))
  {
    var spanned := st.(categories := Spanned(st.categories));
    AfterWidths(st, pick);
    AfterUsers(spanned, pick);
    UsersFinish(st.users, st.setting);
  }

  lemma MigrateCutsOver(st: State, pick: map<Id, Id>)
    requires Settled(st)
    ensures Then(Then(Then(Some(st), File0001, pick), File0004, pick), File0007, pick)
            == if Ownerless(st) then None else Some(Enforced(Cutover(Tabled(st), pick)))
  {
    AfterTables(st);
    CutoverAborts(Tabled(st), pick);
    if !Ownerless(st) {
      AfterCutover(Tabled(st), pick);
    }
  }

  /** A boot's migration aborts exactly when there are rows no user owns and no admin to own them. */
  lemma MigrateAborts(st: State, pick: map<Id, Id>)
    requires Settled(st)
    ensures Migrate(st, pick) == if Ownerless(st) then None else Some(Finished(Enforced(Cutover(Tabled(st), pick))))
    ensures !Ownerless(st) ==> Settled(Migrate(st, pick).value) && Migrated(Migrate(st, pick).value)
  {
    MigrateUnrolled(st, pick);
    MigrateCutsOver(st, pick);
    if !Ownerless(st) {
      AfterTables(st);
      AfterCutover(Tabled(st), pick);
      MigrateFinishes(Enforced(Cutover(Tabled(st), pick)), pick);
    }
  }

  /** The first boot hands every unowned row to the oldest admin, mints an offer from each unowned
      service while the library is empty, links the service to an offer with its name and url, and
      changes no other column of it. */
  lemma CutoverKeepsServices(st: State, pick: map<Id, Id>, s: Id)
    requires s in st.services.rows
    ensures var done, row := Cutover(st, pick), st.services.rows[s];
            && done.services.rows.Keys == st.services.rows.Keys
            && var row' := done.services.rows[s];
               && row' == row.(owner := row'.owner, source := row'.source)
               && (row.owner.Some? ==> row'.owner == row.owner)
               && (row.owner.None? ==> row'.owner == FirstAdmin(st.users.rows))
               && (row.owner.None? ==>
                     if row'.owner.Some? then OldestAdmin(st.users.rows, row'.owner.value)
                     else forall a | a in st.users.rows :: st.users.rows[a].role != Admin)
               && (st.library == map[] && row.owner.None? && row.source.None? ==>
                     row'.source.Some? && row'.source.value in done.library
                     && done.library[row'.source.value].name == row.name &&
                        done.library[row'.source.value].url == row.url)
  {
    var done := Cutover(st, pick);
    HandedOver(st.services.rows, FirstAdmin(st.users.rows), done.library, pick, s);
    FirstAdminIsOldest(st.users.rows);
    if st.library == map[] && st.services.rows[s].owner.None? {
      assert s in Unowned(st.services.rows);
      assert done.library[s] == OfferFrom(st.services.rows, st.categories.rows, s);
    }
  }

  /** An admin that no other admin was created before; of two created at once, the one with the smaller id. */
  predicate OldestAdmin(users: map<Id, User>, o: Id)
  {
    && o in users && users[o].role == Admin
    && forall a | a in users && users[a].role == Admin ::
         users[o].createdAt <= users[a].createdAt && (users[o].createdAt == users[a].createdAt ==> o <= a)
  }

  lemma FirstAdminIsOldest(users: map<Id, User>)
    ensures var o := FirstAdmin(users);
            if o.Some? then OldestAdmin(users, o.value) else forall a | a in users :: users[a].role != Admin
  {
    assert forall a | a in users && users[a].role == Admin :: a in Admins(users);
  }

  lemma HandedOver(rows: map<Id, Service>, owner: Option<Id>, library: map<Id, Schema.Offer>, pick: map<Id, Id>, s: Id)
    requires s in rows
    ensures Wired(OwnedServices(rows, owner), library, pick).Keys == rows.Keys
    ensures var row, row' := rows[s], Wired(OwnedServices(rows, owner), library, pick)[s];
            && row' == row.(owner := if row.owner.None? then owner else row.owner, source := row'.source)
            && (row.source.None? && row'.source.None? ==>
                  forall o | o in library :: library[o].name != row.name || library[o].url != row.url)
            && (row.source.None? && row'.source.Some? ==>
                  row'.source.value in library && library[row'.source.value].name == row.name &&
                    library[row'.source.value].url == row.url)
  {
    WiringTouchesOnlySources(OwnedServices(rows, owner), library, pick, s);
    var row' := Wired(OwnedServices(rows, owner), library, pick)[s];
    if rows[s].source.None? && row'.source.Some? {
      assert row'.source != OwnedServices(rows, owner)[s].source;
    }
  }

  /** The offer has the service's name, url, icon and description, and suggests its category by name. */
  predicate Offers(st: State, s: Id, o: Schema.Offer)
    requires s in st.services.rows
  {
    var row := st.services.rows[s];
    && o.name == row.name && o.url == row.url && o.icon == row.icon && o.description == row.description
    && (row.category.None? ==> o.suggested == "")
    && (row.category.Some? && row.category.value in st.categories.rows ==>
          o.suggested == st.categories.rows[row.category.value].name)
  }

  /** The seed's offers are its entries in their order, each suggesting its group with a capital initial. */
  lemma SeedOffersEntries(entries: seq<Entry>)
    ensures var library := SeededOffers(entries);
            && (forall i :: i in library <==> 0 <= i < |entries|)
            && forall i | 0 <= i < |entries| ::
                 var o, e := library[i], entries[i];
                 && o.name == e.name && o.url == e.url && o.icon == e.icon && o.description == e.description
                 && o.sortIndex == i && |o.suggested| == |e.description|
                 && (forall k | 1 <= k < |e.description| :: o.suggested[k] == e.description[k])
                 && (e.description != "" ==>
                       o.suggested[0] == (if 'a' <= e.description[0] <= 'z'
                                          then (e.description[0] as int - 32) as char else e.description[0]))
  {
  }

  /** The offers the first boot mints: one for each unowned service, listed by name. */
  lemma CutoverMintsOffers(st: State, pick: map<Id, Id>, s: Id, t: Id)
    requires st.library == map[]
    requires s in Unowned(st.services.rows) && t in Unowned(st.services.rows) && s != t
    ensures var library := Cutover(st, pick).library;
            && |library| == |Unowned(st.services.rows)| && s in library && t in library
            && library[s].sortIndex != library[t].sortIndex
            && (TextLess(st.services.rows[s].name, st.services.rows[t].name) ==>
                 library[s].sortIndex < library[t].sortIndex)
            && Offers(st, s, library[s])
  {
    var rows := st.services.rows;
    var library := Cutover(st, pick).library;
    assert library.Keys == Unowned(rows);
    ListedBeforeTotal(rows, s, t);
    if ListedBefore(rows, s, t) { RankRises(rows, s, t); } else { RankRises(rows, t, s); }
  }

  lemma ListedBeforeTotal(rows: map<Id, Service>, s: Id, t: Id)
    requires s in rows && t in rows && s != t
    ensures ListedBefore(rows, s, t) != ListedBefore(rows, t, s)
    ensures TextLess(rows[s].name, rows[t].name) ==> ListedBefore(rows, s, t)
  {
    TextLessTotal(rows[s].name, rows[t].name);
  }

  lemma RankRises(rows: map<Id, Service>, s: Id, t: Id)
    requires s in Unowned(rows) && t in Unowned(rows) && ListedBefore(rows, s, t)
    ensures Rank(rows, s) < Rank(rows, t)
  {
    var below := set u | u in Unowned(rows) && ListedBefore(rows, u, s);
    var below' := set u | u in Unowned(rows) && ListedBefore(rows, u, t);
    TextLessTotal(rows[s].name, rows[s].name);
    forall u | u in below ensures u in below' {
      if TextLess(rows[u].name, rows[s].name) && TextLess(rows[s].name, rows[t].name) {
        TextLessTransitive(rows[u].name, rows[s].name, rows[t].name);
      }
    }
    assert s in below' && s !in below;
    SubsetIsSmaller(below, below', s);
  }

  lemma SubsetIsSmaller(a: set<Id>, b: set<Id>, x: Id)
    requires a <= b && x in b && x !in a
    ensures |a| < |b|
  {
    assert |b - a| == |b| - |a|;
    assert x in b - a;
  }

  // ---- booting a migrated database

  /** On a migrated database a boot's migration changes nothing but sources. */
  lemma MigratedAgain(st: State, pick: map<Id, Id>)
    requires Settled(st) && Migrated(st)
    ensures Migrate(st, pick) == Some(OnlyWired(st, pick))
  {
    MigrateAborts(st, pick);
    CutoverAgain(st, pick);
  }

  /** A source changes only from NULL, and only to an offer with the service's name and url. */
  lemma WiringTouchesOnlySources(rows: map<Id, Service>, library: map<Id, Schema.Offer>, pick: map<Id, Id>, s: Id)
    requires s in rows
    ensures Wired(rows, library, pick).Keys == rows.Keys
    ensures var row, row' := rows[s], Wired(rows, library, pick)[s];
            && row' == row.(source := row'.source)
            && (row.source.Some? ==> row' == row)
            && (row'.source != row.source ==>
                  row'.source.value in library && library[row'.source.value].name == row.name &&
                    library[row'.source.value].url == row.url)
            && (row'.source.None? ==>
                  forall o | o in library :: library[o].name != row.name || library[o].url != row.url)
  {
    assert forall o :: o in Matches(library, rows[s].name, rows[s].url) <==>
                       o in library && library[o].name == rows[s].name && library[o].url == rows[s].url;
  }

  lemma WiredTwice(rows: map<Id, Service>, library: map<Id, Schema.Offer>, pick: map<Id, Id>, pick': map<Id, Id>)
    ensures Wired(Wired(rows, library, pick), library, pick') == Wired(rows, library, pick)
  {
  }

  /** Migrating twice is migrating once, whichever offers the joins meet. */
  lemma MigrateTwice(st: State, pick: map<Id, Id>, pick': map<Id, Id>)
    requires Settled(st) && !Ownerless(st)
    ensures Migrate(st, pick).Some? && Migrate(Migrate(st, pick).value, pick') == Migrate(st, pick)
  {
    MigrateAborts(st, pick);
    var done := Migrate(st, pick).value;
    MigratedAgain(done, pick');
    WiredTwice(OwnedServices(Tabled(st).services.rows, FirstAdmin(st.users.rows)), done.library, pick, pick');
  }

  lemma SeedSettles(st: State, entries: seq<Entry>)
    requires Settled(st)
    ensures Settled(SeedLibraryIfEmpty(st, entries))
  {
    if st.library == map[] {
      MoreOffersHold(st.services, st.users.rows.Keys, st.categories.rows.Keys, {}, SeededOffers(entries).Keys);
    }
  }

  predicate Stocked(st: State, entries: seq<Entry>)
  {
    Settled(st) && Migrated(st) && (st.library == map[] ==> entries == [])
  }

  lemma BootStocks(st: State, pick: map<Id, Id>, entries: seq<Entry>)
    requires Settled(st) && !Ownerless(st)
    ensures Boot(st, pick, entries).Some? && Stocked(Boot(st, pick, entries).value, entries)
  {
    MigrateAborts(st, pick);
    var m := Migrate(st, pick).value;
    SeedSettles(m, entries);
    if m.library == map[] && entries != [] {
      assert 0 in SeededOffers(entries);
    }
  }

  lemma BootStocked(st: State, pick: map<Id, Id>, entries: seq<Entry>)
    requires Stocked(st, entries)
    ensures Boot(st, pick, entries) == Some(OnlyWired(st, pick))
  {
    MigratedAgain(st, pick);
    if st.library == map[] {
      assert SeededOffers(entries) == map[];
    }
  }

  /** Migrate and seed reach a fixed point after at most two boots. */
  lemma TwoBootsSettle(st: State, entries: seq<Entry>, p: map<Id, Id>, q: map<Id, Id>, r: map<Id, Id>)
    requires Settled(st) && !Ownerless(st)
    ensures Boot(st, p, entries).Some? && Boot(Boot(st, p, entries).value, q, entries).Some?
    ensures var b := Boot(Boot(st, p, entries).value, q, entries);
            Boot(b.value, r, entries) == b
  {
    BootStocks(st, p, entries);
    var a := Boot(st, p, entries).value;
    BootStocked(a, q, entries);
    StepSettles(a, Booting(q, entries));
    BootStocked(OnlyWired(a, q), r, entries);
    WiredTwice(a.services.rows, a.library, q, r);
  }

  // ---- when re-running is a no-op, and when one boot is enough

  /** No service without a source has an offer with its name and url. */
  predicate NothingToWire(rows: map<Id, Service>, library: map<Id, Schema.Offer>)
  {
    forall s | s in rows && rows[s].source.None? :: Matches(library, rows[s].name, rows[s].url) == {}
  }

  lemma WiringIsNothing(rows: map<Id, Service>, library: map<Id, Schema.Offer>, pick: map<Id, Id>)
    ensures Wired(rows, library, pick) == rows <==> NothingToWire(rows, library)
  {
    var rows' := Wired(rows, library, pick);
    if rows' == rows {
      forall s | s in rows && rows[s].source.None? ensures Matches(library, rows[s].name, rows[s].url) == {} {
        assert rows'[s] == WiredRow(rows[s], library, Wish(pick, s));
      }
    }
  }

  /** Re-running the migrations is the promised no-op exactly on a migrated database in which no service
      without a source has an offer with its name and url. */
  lemma RerunIsNoOpExactly(st: State, pick: map<Id, Id>)
    requires Settled(st)
    ensures Migrate(st, pick) == Some(st) <==> Migrated(st) && NothingToWire(st.services.rows, st.library)
  {
    MigrateAborts(st, pick);
    if Migrated(st) {
      MigratedAgain(st, pick);
      WiringIsNothing(st.services.rows, st.library, pick);
    }
  }

  /** A migrated database with one admin, who owns one service without a source. */
  function Household(library: map<Id, Schema.Offer>): State
  {
    var admin := User(Admin, 0, Some("a"), Some("h"), None, Some(true));
    var wiki := Service("wiki", "Wiki", "w", "", "", None, Some(0), None);
    State(UserTable(map[0 := admin], true, false, true, true, true, true, false),
          ServiceTable(map[0 := wiki], true, true, true, false, true),
          CategoryTable(map[], true, true, true, false, true, true, 6, None, true, true),
          library, None)
  }

  lemma HouseholdSettled(library: map<Id, Schema.Offer>)
    ensures Settled(Household(library)) && Migrated(Household(library)) && !Ownerless(Household(library))
  {
    assert 0 in Admins(Household(library).users.rows);
  }

  /** It can fail to be one: an offer was added after the service it describes. */
  lemma RerunCanWire()
    ensures var st := Household(map[7 := Schema.Offer("Wiki", "w", "", "", "", 0)]);
            Settled(st) && Migrated(st) && Migrate(st, map[]).Some? && Migrate(st, map[]) != Some(st)
  {
    var st := Household(map[7 := Schema.Offer("Wiki", "w", "", "", "", 0)]);
    HouseholdSettled(st.library);
    MigrateAborts(st, map[]);
    RerunIsNoOpExactly(st, map[]);
    assert 7 in Matches(st.library, "Wiki", "w");
    assert 0 in st.services.rows && st.services.rows[0].source.None?;
  }

  /** Some entry of the seed has the name and url of some service. */
  predicate SeedDescribesOne(rows: map<Id, Service>, entries: seq<Entry>)
  {
    exists s, i | s in rows && 0 <= i < |entries| :: entries[i].name == rows[s].name && entries[i].url == rows[s].url
  }

  lemma BootedAgain(a: State, q: map<Id, Id>, entries: seq<Entry>)
    requires Stocked(a, entries)
    ensures Boot(a, q, entries) == Some(a) <==> NothingToWire(a.services.rows, a.library)
  {
    BootStocked(a, q, entries);
    WiringIsNothing(a.services.rows, a.library, q);
  }

  lemma WiredHasNothingLeft(rows: map<Id, Service>, library: map<Id, Schema.Offer>, pick: map<Id, Id>)
    ensures NothingToWire(Wired(rows, library, pick), library)
  {
  }

  lemma TabledRows(st: State)
    requires Settled(st)
    ensures Tabled(st).services.rows == st.services.rows && Tabled(st).categories.rows == st.categories.rows
    ensures Tabled(st).users.rows == st.users.rows && Tabled(st).library == st.library
  {
  }

  lemma CutoverCatalog(st: State, t: State, p: map<Id, Id>)
    requires t.services.rows == st.services.rows && t.categories.rows == st.categories.rows
    requires t.users.rows == st.users.rows && t.library == st.library
    ensures var done := Finished(Enforced(Cutover(t, p)));
            && done.library == SeededFromServices(st.library, st.services.rows, st.categories.rows)
            && done.services.rows == Wired(OwnedServices(st.services.rows, FirstAdmin(st.users.rows)), done.library, p)
  {
  }

  /** The library and the services as a first boot's migration leaves them. */
  lemma MigratedCatalog(st: State, p: map<Id, Id>)
    requires Settled(st) && !Ownerless(st)
    ensures Migrate(st, p).Some?
    ensures var library := SeededFromServices(st.library, st.services.rows, st.categories.rows);
            && Migrate(st, p).value.library == library
            && Migrate(st, p).value.services.rows ==
                 Wired(OwnedServices(st.services.rows, FirstAdmin(st.users.rows)), library, p)
  {
    MigrateAborts(st, p);
    TabledRows(st);
    CutoverCatalog(st, Tabled(st), p);
  }

  lemma MintsIffUnowned(library: map<Id, Schema.Offer>, services: map<Id, Service>, categories: map<Id, Category>)
    ensures SeededFromServices(library, services, categories) == map[] <==>
            library == map[] && !UnownedService(services)
  {
    if library == map[] && UnownedService(services) {
      var s :| s in services && services[s].owner.None?;
      assert s in SeededFromServices(library, services, categories);
    }
    if library == map[] && !UnownedService(services) {
      assert Unowned(services) == {};
    }
  }

  lemma SeedMatches(rows: map<Id, Service>, entries: seq<Entry>)
    requires forall s | s in rows :: rows[s].source.None?
    ensures NothingToWire(rows, SeededOffers(entries)) <==> !SeedDescribesOne(rows, entries)
  {
    if SeedDescribesOne(rows, entries) {
      var s, i :| s in rows && 0 <= i < |entries| && entries[i].name == rows[s].name && entries[i].url == rows[s].url;
      assert i in Matches(SeededOffers(entries), rows[s].name, rows[s].url);
    }
    if !SeedDescribesOne(rows, entries) {
      forall s | s in rows ensures Matches(SeededOffers(entries), rows[s].name, rows[s].url) == {} {
      }
    }
  }

  /** With no offer and no unowned service, the migration leaves every service as it was. */
  lemma NothingToMint(rows: map<Id, Service>, owner: Option<Id>, p: map<Id, Id>)
    requires !UnownedService(rows) && forall s | s in rows :: rows[s].source.None?
    ensures Wired(OwnedServices(rows, owner), map[], p) == rows
  {
    assert OwnedServices(rows, owner) == rows;
    assert NothingToWire(rows, map[]);
    WiringIsNothing(rows, map[], p);
  }

  lemma NoOfferNoSource(st: State)
    requires Holds(st) && st.library == map[]
    ensures forall s | s in st.services.rows :: st.services.rows[s].source.None?
  {
    forall s | s in st.services.rows ensures st.services.rows[s].source.None? {
      assert ServiceHolds(st.services, st.services.rows[s], st.users.rows.Keys, st.categories.rows.Keys,
             st.library.Keys);
    }
  }

  /** One boot is enough exactly unless the library is empty, every service has an owner, and the seed
      describes one of them: then the second boot links it. */
  lemma OneBootIsEnoughExactly(st: State, entries: seq<Entry>, p: map<Id, Id>, q: map<Id, Id>)
    requires Settled(st) && !Ownerless(st)
    ensures Boot(st, p, entries).Some?
    ensures Boot(Boot(st, p, entries).value, q, entries) == Boot(st, p, entries) <==>
            !(st.library == map[] && !UnownedService(st.services.rows) && SeedDescribesOne(st.services.rows, entries))
  {
    BootStocks(st, p, entries);
    var a := Boot(st, p, entries).value;
    BootedAgain(a, q, entries);
    MigratedCatalog(st, p);
    MintsIffUnowned(st.library, st.services.rows, st.categories.rows);
    WiredHasNothingLeft(OwnedServices(st.services.rows, FirstAdmin(st.users.rows)), Migrate(st, p).value.library, p);
    if Migrate(st, p).value.library == map[] {
      NoOfferNoSource(st);
      NothingToMint(st.services.rows, FirstAdmin(st.users.rows), p);
      SeedMatches(st.services.rows, entries);
    }
  }

  /** Such a database exists. */
  lemma OneBootIsNotEnough()
    ensures var st, entries := Household(map[]), [Entry("Wiki", "w", "", "")];
            && Settled(st) && Migrated(st) && Boot(st, map[], entries).Some?
            && Boot(Boot(st, map[], entries).value, map[], entries) != Boot(st, map[], entries)
  {
    var st, entries := Household(map[]), [Entry("Wiki", "w", "", "")];
    HouseholdSettled(map[]);
    OneBootIsEnoughExactly(st, entries, map[], map[]);
    assert 0 in st.services.rows;
    assert entries[0].name == st.services.rows[0].name && entries[0].url == st.services.rows[0].url;
  }

  // ---- runs

  /** What can happen to the database: a boot of this release, a transaction that writes any rows the
      constraints allow, or an operator reverting 0013. */
  datatype Step =
    | Booting(pick: map<Id, Id>, entries: seq<Entry>)
    | Writing(users: map<Id, User>, services: map<Id, Service>, categories: map<Id, Category>,
              library: map<Id, Schema.Offer>, setting: Option<bool>)
    | Reverting

  /** None when the step is refused. */
  function Try(st: State, step: Step): Option<State>
  {
    match step
    case Booting(pick, entries) => Boot(st, pick, entries)
    case Writing(users, services, categories, library, setting) =>
      Checked(State(st.users.(rows := users), st.services.(rows := services), st.categories.(rows := categories),
                    library, setting))
    case Reverting => Down0013(st)
  }

  function After(st: State, step: Step): State
  {
    if Try(st, step).None? then st else Try(st, step).value
  }

  function Run(st: State, steps: seq<Step>): State
    decreases |steps|
  {
    if steps == [] then st else Run(After(st, steps[0]), steps[1..])
  }

  predicate NoBootAborts(st: State, steps: seq<Step>)
    decreases |steps|
  {
    steps == [] || ((steps[0].Booting? ==> Try(st, steps[0]).Some?) && NoBootAborts(After(st, steps[0]), steps[1..]))
  }

  lemma DespannedSettles(t: CategoryTable, users: set<Id>)
    requires CategoriesSettled(t, users) && t.spans && CategoriesHold(Despanned(t), users)
    ensures CategoriesSettled(Despanned(t), users)
  {
  }

  lemma StepSettles(st: State, step: Step)
    requires Settled(st) && st.services.ownerColumns
    ensures Settled(After(st, step)) && After(st, step).services.ownerColumns
    ensures step.Booting? ==> Try(st, step).Some?
  {
    match step {
      case Booting(pick, entries) =>
        CutoverAgain(st, pick);
        MigrateAborts(st, pick);
        SeedSettles(Migrate(st, pick).value, entries);
      case Writing(users, services, categories, library, setting) =>
      case Reverting =>
        if Down0013(st).Some? {
          DespannedSettles(st.categories, st.users.rows.Keys);
        }
    }
  }

  /** After one successful boot, no later boot aborts, whatever is written or reverted in between. */
  lemma {:induction false} BootsNeverAbort(st: State, steps: seq<Step>)
    requires Settled(st) && st.services.ownerColumns
    ensures NoBootAborts(st, steps) && Settled(Run(st, steps))
    decreases |steps|
  {
    if steps != [] {
      StepSettles(st, steps[0]);
      BootsNeverAbort(After(st, steps[0]), steps[1..]);
    }
  }

  /** The first boot decides: the run has no aborted boot exactly when the database it finds is not an
      unowned catalog without an admin. */
  lemma FirstBootDecides(st: State, pick: map<Id, Id>, entries: seq<Entry>, steps: seq<Step>)
    requires Settled(st)
    ensures NoBootAborts(st, [Booting(pick, entries)] + steps) || Ownerless(st)
    ensures NoBootAborts(st, [Booting(pick, entries)] + steps) ==> !Ownerless(st)
  {
    var all := [Booting(pick, entries)] + steps;
    assert all[0] == Booting(pick, entries) && all[1..] == steps;
    MigrateAborts(st, pick);
    if !Ownerless(st) {
      SeedSettles(Migrate(st, pick).value, entries);
      BootsNeverAbort(After(st, all[0]), steps);
    }
  }

  /** An empty database, and one from before the cutover that has an admin, boot for good. */
  lemma FreshAndOldBoot(st: State, pick: map<Id, Id>, entries: seq<Entry>, steps: seq<Step>)
    requires st == EMPTY || (Settled(st) && Admins(st.users.rows) != {})
    ensures NoBootAborts(st, [Booting(pick, entries)] + steps)
  {
    FirstBootDecides(st, pick, entries, steps);
  }
}
