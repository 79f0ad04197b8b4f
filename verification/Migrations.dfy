/** Store.Migrate: the migrations as statements on the tables, run in one transaction at every boot.
    A statement that would break a constraint aborts the boot and leaves the tables as they were. */
module Migrations {
  import opened Base
  import opened Ordering
  import opened Tables
  import Schema

  /** None once a statement has been refused. */
  function Checked(st: State): Option<State>
  {
    if Holds(st) then Some(st) else None
  }

  // ---- 0001 and 0004: tables

  function WithBaseTables(st: State): State
  {
    st.(users := if st.users.created then st.users else NO_USERS.(created := true, credentialsNotNull := true),
        services := if st.services.created then st.services else NO_SERVICES.(created := true, globalSlugs := true))
  }

  function WithCategoryTable(st: State): State
  {
    st.(categories := if st.categories.created then st.categories
                      else NO_CATEGORIES.(created := true, globalNames := true))
  }

  // ---- 0007: one shared catalog becomes rows with owners

  function Unowned(rows: map<Id, Service>): set<Id>
  {
    set s | s in rows && rows[s].owner.None?
  }

  predicate ListedBefore(rows: map<Id, Service>, a: Id, b: Id)
  {
    a in rows && b in rows && (TextLess(rows[a].name, rows[b].name) || (rows[a].name == rows[b].name && a < b))
  }

  function Rank(rows: map<Id, Service>, s: Id): nat
  {
    |set t | t in Unowned(rows) && ListedBefore(rows, t, s)|
  }

  function OfferFrom(services: map<Id, Service>, categories: map<Id, Category>, s: Id): Schema.Offer
    requires s in services
  {
    var row := services[s];
    Schema.Offer(row.name, row.url, row.icon, row.description,
                 if row.category.Some? && row.category.value in categories then categories[row.category.value].name
                 else "",
                 Rank(services, s))
  }

  /** One offer per unowned service, while the library is empty. An offer takes the id of the service it
      is copied from, which is fresh among offers. */
  function SeededFromServices(library: map<Id, Schema.Offer>, services: map<Id, Service>, categories: map<Id, Category>)
    : map<Id, Schema.Offer>
  {
    if library != map[] then library else map s | s in Unowned(services) :: OfferFrom(services, categories, s)
  }

  function OwnedServices(rows: map<Id, Service>, owner: Option<Id>): map<Id, Service>
  {
    map s | s in rows :: if rows[s].owner.None? then rows[s].(owner := owner) else rows[s]
  }

  function OwnedCategories(rows: map<Id, Category>, owner: Option<Id>): map<Id, Category>
  {
    map c | c in rows :: if rows[c].owner.None? then rows[c].(owner := owner) else rows[c]
  }

  function Matches(library: map<Id, Schema.Offer>, name: string, url: string): set<Id>
  {
    set o | o in library && library[o].name == name && library[o].url == url
  }

  /** UPDATE ... FROM joins with whichever matching offer it meets; `wish` says which, where it matches. */
  function Joined(offers: set<Id>, wish: Option<Id>): (o: Option<Id>)
    ensures o.None? <==> offers == {}
    ensures o.Some? ==> o.value in offers
    ensures wish.Some? && wish.value in offers ==> o == wish
  {
    if offers == {} then None
    else if wish.Some? && wish.value in offers then wish
    else
      LeastExists(offers, (a: Id, b: Id) => a < b);
      var o :| o in offers && forall p | p in offers && p != o :: ((a: Id, b: Id) => a < b)(o, p);
      Some(o)
  }

  function WiredRow(s: Service, library: map<Id, Schema.Offer>, wish: Option<Id>): Service
  {
    if s.source.None? then s.(source := Joined(Matches(library, s.name, s.url), wish)) else s
  }

  function Wish(pick: map<Id, Id>, s: Id): Option<Id>
  {
    if s in pick then Some(pick[s]) else None
  }

  function Wired(rows: map<Id, Service>, library: map<Id, Schema.Offer>, pick: map<Id, Id>): map<Id, Service>
  {
    map s | s in rows :: WiredRow(rows[s], library, Wish(pick, s))
  }

  // ---- 0008, 0009, 0013: category widths

  function AtDefaultWidth(rows: map<Id, Category>): map<Id, Category>
  {
    map c | c in rows :: rows[c].(width := Some(3))
  }

  function WithWidth(t: CategoryTable): CategoryTable
  {
    if t.widthColumn then t
    else t.(widthColumn := true, widthDefault := 3, widthMax := Some(6),
            rows := AtDefaultWidth(t.rows))
  }

  function WithEightWidths(t: CategoryTable): CategoryTable
  {
    if t.spans then t else t.(widthMax := Some(8))
  }

  function SpanOf(width: int): int
  {
    match width
    case 1 => 3
    case 2 => 4
    case 3 => 6
    case 4 => 6
    case 5 => 12
    case _ => 12
  }

  function SpannedRow(c: Category): Category
  {
    if c.legacy.None? && c.width.Some? then c.(legacy := c.width, width := Some(SpanOf(c.width.value))) else c
  }

  function WithLegacy(t: CategoryTable): CategoryTable
  {
    t.(legacyColumn := true)
  }

  function WithoutMax(t: CategoryTable): CategoryTable
  {
    t.(widthMax := None)
  }

  function WithSpans(t: CategoryTable): CategoryTable
  {
    t.(rows := map c | c in t.rows :: SpannedRow(t.rows[c]))
  }

  function WithSpanCheck(t: CategoryTable): CategoryTable
  {
    t.(spans := true, widthDefault := 6)
  }

  /** 0013's down migration: the saved widths come back, and rows without one get the old default. It fails
      where there is no grid_width_legacy column to read. */
  function Despanned(t: CategoryTable): CategoryTable
  {
    t.(spans := false, legacyColumn := false, widthDefault := 3, widthMax := Some(8),
       rows := map c | c in t.rows ::
                 t.rows[c].(width := if t.rows[c].legacy.Some? then t.rows[c].legacy else Some(3), legacy := None))
  }

  function Down0013(st: State): Option<State>
  {
    if st.categories.legacyColumn then Checked(st.(categories := Despanned(st.categories))) else None
  }

  // ---- 0016: the uptime preference

  function UptimeDefault(setting: Option<bool>): bool
  {
    if setting.Some? then setting.value else true
  }

  function Showing(rows: map<Id, User>, show: bool): map<Id, User>
  {
    map u | u in rows :: rows[u].(showUptime := Some(show))
  }

  function WithUptimeColumn(t: UserTable): UserTable
  {
    t.(uptimeColumn := true, uptimeDefault := true, rows := Showing(t.rows, true))
  }

  function WithUptime(t: UserTable, show: bool): UserTable
  {
    t.(uptimeDefault := false, rows := Showing(t.rows, show))
  }

  // ---- 0018: kid accounts

  function WithKids(t: UserTable): UserTable
  {
    t.(kidRole := true, credentialsNotNull := false, kidCheck := true)
  }

  // ---- the migrations

  function M0001(st: State): Option<State>
  {
    Checked(WithBaseTables(st))
  }

  function M0004(st: State): Option<State>
  {
    Checked(WithCategoryTable(st))
  }

  function WithOwnerColumns(st: State): State
  {
    st.(services := st.services.(ownerColumns := true), categories := st.categories.(ownerColumn := true))
  }

  /** Steps 1 to 5b of 0007: seed the library, assign the unowned rows, wire the sources. */
  function Cutover(st: State, pick: map<Id, Id>): State
  {
    var a := WithOwnerColumns(st);
    var b := a.(library := SeededFromServices(a.library, a.services.rows, a.categories.rows));
    var owner := FirstAdmin(b.users.rows);
    var c := b.(services := b.services.(rows := OwnedServices(b.services.rows, owner)),
                categories := b.categories.(rows := OwnedCategories(b.categories.rows, owner)));
    c.(services := c.services.(rows := Wired(c.services.rows, c.library, pick)))
  }

  /** Step 6 of 0007: owners become mandatory, and names unique per owner. */
  function Enforced(st: State): State
  {
    st.(services := st.services.(ownerNotNull := true, globalSlugs := false, ownSlugs := true),
        categories := st.categories.(ownerNotNull := true, globalNames := false, ownNames := true))
  }

  function M0007(st: State, pick: map<Id, Id>): Option<State>
  {
    var done := Cutover(st, pick);
    if !Holds(done) then None else Checked(Enforced(done))
  }

  function M0008(st: State): Option<State>
  {
    Checked(st.(categories := WithWidth(st.categories)))
  }

  function M0009(st: State): Option<State>
  {
    Checked(st.(categories := WithEightWidths(st.categories)))
  }

  function M0013(st: State): Option<State>
  {
    var a := st.(categories := WithLegacy(st.categories));
    if a.categories.spans then Checked(a)
    else
      var b := a.(categories := WithSpans(WithoutMax(a.categories)));
      if !Holds(b) then None else Checked(b.(categories := WithSpanCheck(b.categories)))
  }

  function M0016(st: State): Option<State>
  {
    if st.users.uptimeColumn then Checked(st)
    else Checked(st.(users := WithUptime(WithUptimeColumn(st.users), UptimeDefault(st.setting))))
  }

  function M0018(st: State): Option<State>
  {
    var a := if st.users.kidCheck then st else st.(users := WithKids(st.users));
    if !Holds(a) then None else Checked(a.(users := a.users.(kidNames := true)))
  }

  datatype File = File0001 | File0004 | File0007 | File0008 | File0009 | File0013 | File0016 | File0018

  /** The embedded *.up.sql files, sorted by name. */
  const FILES := [File0001, File0004, File0007, File0008, File0009, File0013, File0016, File0018]

  function Apply(file: File, st: State, pick: map<Id, Id>): Option<State>
  {
    match file
    case File0001 => M0001(st)
    case File0004 => M0004(st)
    case File0007 => M0007(st, pick)
    case File0008 => M0008(st)
    case File0009 => M0009(st)
    case File0013 => M0013(st)
    case File0016 => M0016(st)
    case File0018 => M0018(st)
  }

  /** None when some file is refused. */
  function ApplyAll(files: seq<File>, st: State, pick: map<Id, Id>): Option<State>
  {
    if files == [] then Some(st)
    else
      var next := Apply(files[0], st, pick);
      if next.None? then None else ApplyAll(files[1..], next.value, pick)
  }

  function Migrate(st: State, pick: map<Id, Id>): Option<State>
  {
    ApplyAll(FILES, st, pick)
  }

  // ---- SeedLibraryIfEmpty

  datatype Entry = Entry(name: string, url: string, icon: string, description: string)

  function Upper(c: char): char
  {
    if 'a' <= c <= 'z' then (c as int - 32) as char else c
  }

  function SuggestedCategory(group: string): string
  {
    if group == "" then "" else [Upper(group[0])] + group[1..]
  }

  /** Entry i becomes the offer with id i: fresh, as the library holds no row. */
  function SeededOffers(entries: seq<Entry>): map<Id, Schema.Offer>
  {
    map i | 0 <= i < |entries| ::
      Schema.Offer(entries[i].name, entries[i].url, entries[i].icon, entries[i].description,
                   SuggestedCategory(entries[i].description), i)
  }

  function SeedLibraryIfEmpty(st: State, entries: seq<Entry>): State
  {
    if st.library != map[] then st else st.(library := SeededOffers(entries))
  }

  /** main: migrate, then seed. None when the migration aborts. */
  function Boot(st: State, pick: map<Id, Id>, entries: seq<Entry>): Option<State>
  {
    var m := Migrate(st, pick);
    if m.None? then None else Some(SeedLibraryIfEmpty(m.value, entries))
  }
}
