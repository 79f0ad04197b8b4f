/** The data migrations happen once: over any run of boots and edits, widths and uptime preferences are
    the ones people last chose, and 0013 can still be reverted. */
module BootRuns {
  import opened Base
  import opened Tables
  import opened Migrations
  import opened BootStability
  import Schema

  /** A boot, or a committed transaction of the service: `spans` are the widths it sets with
      SetCategoryWidth, `uptimes` the preferences users set for themselves. */
  datatype Event =
    | Booted(pick: map<Id, Id>, entries: seq<Entry>)
    | Edited(next: State, spans: map<Id, int>, uptimes: map<Id, bool>)

  function AfterEvent(st: State, e: Event): State
  {
    match e
    case Booted(pick, entries) => After(st, Booting(pick, entries))
    case Edited(next, _, _) => next
  }

  /** INSERT INTO categories leaves grid_width to the column's default; nothing writes grid_width_legacy. */
  predicate CategoryWritten(t: CategoryTable, next: map<Id, Category>, spans: map<Id, int>, c: Id)
    requires c in next
  {
    && next[c].width == (if c in spans then Some(spans[c]) else if c in t.rows then t.rows[c].width
                         else Some(t.widthDefault))
    && next[c].legacy == (if c in t.rows then t.rows[c].legacy else None)
  }

  /** INSERT INTO users copies the admin's default of that moment. */
  predicate UserWritten(t: UserTable, setting: Option<bool>, next: map<Id, User>, uptimes: map<Id, bool>, u: Id)
    requires u in next
  {
    next[u].showUptime ==
      if u in uptimes then Some(uptimes[u]) else if u in t.rows then t.rows[u].showUptime
      else Some(UptimeDefault(setting))
  }

  /** An edit the constraints accept, which names only rows it leaves in place. */
  predicate LegalEdit(st: State, next: State, spans: map<Id, int>, uptimes: map<Id, bool>)
  {
    && Holds(next)
    && next.users == st.users.(rows := next.users.rows)
    && next.services == st.services.(rows := next.services.rows)
    && next.categories == st.categories.(rows := next.categories.rows)
    && spans.Keys <= next.categories.rows.Keys && uptimes.Keys <= next.users.rows.Keys
    && (forall c | c in next.categories.rows :: CategoryWritten(st.categories, next.categories.rows, spans, c))
    && (forall u | u in next.users.rows :: UserWritten(st.users, st.setting, next.users.rows, uptimes, u))
  }

  predicate NewRows(st: State, next: State, cats: set<Id>, users: set<Id>)
  {
    && (forall c | c in next.categories.rows && c !in st.categories.rows :: c !in cats)
    && (forall u | u in next.users.rows && u !in st.users.rows :: u !in users)
  }

  predicate LegalEvent(st: State, e: Event, cats: set<Id>, users: set<Id>)
  {
    e.Booted? || (LegalEdit(st, e.next, e.spans, e.uptimes) && NewRows(st, e.next, cats, users))
  }

  /** A run in which an id is never given out twice; `cats` and `users` are those given out so far. */
  predicate LegalRun(st: State, events: seq<Event>, cats: set<Id>, users: set<Id>)
    decreases |events|
  {
    && st.categories.rows.Keys <= cats && st.users.rows.Keys <= users
    && (events != [] ==>
          var st' := AfterEvent(st, events[0]);
          && LegalEvent(st, events[0], cats, users)
          && LegalRun(st', events[1..], cats + st'.categories.rows.Keys, users + st'.users.rows.Keys))
  }

  function RunEvents(st: State, events: seq<Event>): State
    decreases |events|
  {
    if events == [] then st else RunEvents(AfterEvent(st, events[0]), events[1..])
  }

  // ---- what people chose

  /** The last width an admin gave the category. */
  function LastSpan(events: seq<Event>, c: Id): Option<int>
    decreases |events|
  {
    if events == [] then None
    else
      var e := events[|events| - 1];
      if e.Edited? && c in e.spans then Some(e.spans[c]) else LastSpan(events[..|events| - 1], c)
  }

  /** The last preference the user saved. */
  function LastUptime(events: seq<Event>, u: Id): Option<bool>
    decreases |events|
  {
    if events == [] then None
    else
      var e := events[|events| - 1];
      if e.Edited? && u in e.uptimes then Some(e.uptimes[u]) else LastUptime(events[..|events| - 1], u)
  }

  /** The admin's default when the account first appears in the run. */
  function DefaultAtBirth(st: State, events: seq<Event>, u: Id): bool
    decreases |events|
  {
    if events == [] || u in AfterEvent(st, events[0]).users.rows then UptimeDefault(st.setting)
    else DefaultAtBirth(AfterEvent(st, events[0]), events[1..], u)
  }

  lemma {:induction false} LastSpanFirst(e: Event, events: seq<Event>, c: Id)
    ensures LastSpan([e] + events, c) ==
            if LastSpan(events, c).Some? then LastSpan(events, c)
            else if e.Edited? && c in e.spans then Some(e.spans[c]) else None
    decreases |events|
  {
    var all := [e] + events;
    if events == [] {
      assert all == [e] && all[..0] == [];
    } else {
      assert all[..|all| - 1] == [e] + events[..|events| - 1];
      LastSpanFirst(e, events[..|events| - 1], c);
    }
  }

  lemma {:induction false} LastUptimeFirst(e: Event, events: seq<Event>, u: Id)
    ensures LastUptime([e] + events, u) ==
            if LastUptime(events, u).Some? then LastUptime(events, u)
            else if e.Edited? && u in e.uptimes then Some(e.uptimes[u]) else None
    decreases |events|
  {
    var all := [e] + events;
    if events == [] {
      assert all == [e] && all[..0] == [];
    } else {
      assert all[..|all| - 1] == [e] + events[..|events| - 1];
      LastUptimeFirst(e, events[..|events| - 1], u);
    }
  }

  lemma RunCons(st: State, e: Event, rest: seq<Event>, cats: set<Id>, users: set<Id>)
    requires st.categories.rows.Keys <= cats && st.users.rows.Keys <= users && LegalEvent(st, e, cats, users)
    requires var st' := AfterEvent(st, e);
             LegalRun(st', rest, cats + st'.categories.rows.Keys, users + st'.users.rows.Keys)
    ensures LegalRun(st, [e] + rest, cats, users)
    ensures RunEvents(st, [e] + rest) == RunEvents(AfterEvent(st, e), rest)
  {
    assert ([e] + rest)[0] == e && ([e] + rest)[1..] == rest;
  }

  lemma BirthCons(st: State, e: Event, rest: seq<Event>, u: Id)
    ensures DefaultAtBirth(st, [e] + rest, u) ==
            if u in AfterEvent(st, e).users.rows then UptimeDefault(st.setting)
            else DefaultAtBirth(AfterEvent(st, e), rest, u)
  {
    assert ([e] + rest)[0] == e && ([e] + rest)[1..] == rest;
  }

  // ---- runs of a migrated database

  predicate Ready(st: State)
  {
    Settled(st) && Migrated(st)
  }

  /** A boot leaves categories, users and the setting alone. */
  lemma EventKeepsReady(st: State, e: Event, cats: set<Id>, users: set<Id>)
    requires Ready(st) && LegalEvent(st, e, cats, users)
    ensures Ready(AfterEvent(st, e))
    ensures e.Booted? ==> var st' := AfterEvent(st, e);
                          st'.categories == st.categories && st'.users == st.users && st'.setting == st.setting
  {
    if e.Booted? {
      StepSettles(st, Booting(e.pick, e.entries));
      MigratedAgain(st, e.pick);
    }
  }

  /** An id that is given out is never born later. */
  lemma {:induction false} NotReborn(st: State, events: seq<Event>, cats: set<Id>, users: set<Id>)
    requires LegalRun(st, events, cats, users) && Ready(st)
    ensures Ready(RunEvents(st, events))
    ensures forall c | c in cats && c !in st.categories.rows :: c !in RunEvents(st, events).categories.rows
    ensures forall u | u in users && u !in st.users.rows :: u !in RunEvents(st, events).users.rows
    decreases |events|
  {
    if events != [] {
      var st' := AfterEvent(st, events[0]);
      EventKeepsReady(st, events[0], cats, users);
      NotReborn(st', events[1..], cats + st'.categories.rows.Keys, users + st'.users.rows.Keys);
    }
  }

  lemma WidthStep(st: State, e: Event, cats: set<Id>, users: set<Id>, c: Id)
    requires Ready(st) && LegalEvent(st, e, cats, users) && c in AfterEvent(st, e).categories.rows
    ensures var row := AfterEvent(st, e).categories.rows[c];
            && row.width == (if e.Edited? && c in e.spans then Some(e.spans[c])
                             else if c in st.categories.rows then st.categories.rows[c].width else Some(6))
            && row.legacy == (if c in st.categories.rows then st.categories.rows[c].legacy else None)
  {
    EventKeepsReady(st, e, cats, users);
    if e.Edited? {
      assert CategoryWritten(st.categories, e.next.categories.rows, e.spans, c);
    }
  }

  /** A category's width is the last one an admin set, else the one it had, else the default; its saved
      old width never changes. */
  lemma {:induction false} WidthIsLastSpan(st: State, events: seq<Event>, cats: set<Id>, users: set<Id>, c: Id)
    requires LegalRun(st, events, cats, users) && Ready(st)
    requires c in RunEvents(st, events).categories.rows
    ensures var row := RunEvents(st, events).categories.rows[c];
            && row.width == (if LastSpan(events, c).Some? then LastSpan(events, c)
                             else if c in st.categories.rows then st.categories.rows[c].width else Some(6))
            && row.legacy == (if c in st.categories.rows then st.categories.rows[c].legacy else None)
    decreases |events|
  {
    if events != [] {
      var e := events[0];
      var st' := AfterEvent(st, e);
      EventKeepsReady(st, e, cats, users);
      WidthIsLastSpan(st', events[1..], cats + st'.categories.rows.Keys, users + st'.users.rows.Keys, c);
      NotReborn(st', events[1..], cats + st'.categories.rows.Keys, users + st'.users.rows.Keys);
      assert events == [e] + events[1..];
      LastSpanFirst(e, events[1..], c);
      if c in st'.categories.rows { WidthStep(st, e, cats, users, c); }
    }
  }

  lemma {:induction false} UptimeIsLastChoice(st: State, events: seq<Event>, cats: set<Id>, users: set<Id>, u: Id)
    requires LegalRun(st, events, cats, users) && Ready(st)
    requires u in RunEvents(st, events).users.rows
    ensures RunEvents(st, events).users.rows[u].showUptime ==
            if LastUptime(events, u).Some? then LastUptime(events, u)
            else if u in st.users.rows then st.users.rows[u].showUptime else Some(DefaultAtBirth(st, events, u))
    decreases |events|
  {
    if events != [] {
      var e := events[0];
      var st' := AfterEvent(st, e);
      EventKeepsReady(st, e, cats, users);
      UptimeIsLastChoice(st', events[1..], cats + st'.categories.rows.Keys, users + st'.users.rows.Keys, u);
      NotReborn(st', events[1..], cats + st'.categories.rows.Keys, users + st'.users.rows.Keys);
      assert events == [e] + events[1..];
      LastUptimeFirst(e, events[1..], u);
      if u in st'.users.rows && e.Edited? {
        assert UserWritten(st.users, st.setting, st'.users.rows, e.uptimes, u);
      }
    }
  }

  // ---- from the first boot on

  /** The width a category had before 0013: the one saved, or the default 0008 gives it. */
  function OldWidth(t: CategoryTable, c: Id): Option<int>
    requires c in t.rows
  {
    if t.widthColumn then t.rows[c].width else Some(3)
  }

  lemma FirstBoot(st: State, pick: map<Id, Id>, entries: seq<Entry>)
    requires Settled(st) && !Ownerless(st)
    ensures Boot(st, pick, entries).Some? && Ready(Boot(st, pick, entries).value)
    ensures var a := Boot(st, pick, entries).value;
            && a.categories == Spanned(Enforced(Cutover(Tabled(st), pick)).categories)
            && a.users == Admitting(Uptimed(Tabled(st).users, st.setting)) && a.setting == st.setting
  {
    BootStocks(st, pick, entries);
    MigrateAborts(st, pick);
  }

  /** The categories table as 0007 leaves it. */
  function CutCategories(st: State): CategoryTable
  {
    var t := Tabled(st).categories;
    t.(ownerColumn := true, ownerNotNull := true, globalNames := false, ownNames := true,
       rows := OwnedCategories(t.rows, FirstAdmin(st.users.rows)))
  }

  lemma CutKeepsWidths(st: State)
    requires Settled(st)
    ensures var t := CutCategories(st);
            && t.rows.Keys == st.categories.rows.Keys
            && t.spans == st.categories.spans && t.widthColumn == st.categories.widthColumn
            && forall c | c in t.rows :: t.rows[c] == st.categories.rows[c].(owner := t.rows[c].owner)
  {
  }

  lemma SpannedWidths(t: CategoryTable, users: set<Id>, c: Id)
    requires CategoriesHold(t, users) && CategoriesAtRest(t) && c in t.rows
    ensures Spanned(t).rows.Keys == t.rows.Keys
    ensures var row := Spanned(t).rows[c];
            if t.spans then row == t.rows[c]
            else OldWidth(t, c).Some? && 1 <= OldWidth(t, c).value <= 8
                 && row.width == Some(SpanOf(OldWidth(t, c).value)) && row.legacy == OldWidth(t, c)
  {
    assert CategoryHolds(t, t.rows[c], users);
  }

  lemma FirstBootCategories(st: State, pick: map<Id, Id>, entries: seq<Entry>)
    requires Settled(st) && !Ownerless(st)
    ensures Boot(st, pick, entries).Some? && Boot(st, pick, entries).value.categories == Spanned(CutCategories(st))
    ensures CategoriesHold(CutCategories(st), st.users.rows.Keys) && CategoriesAtRest(CutCategories(st))
  {
    FirstBoot(st, pick, entries);
    AfterTables(st);
    AfterCutover(Tabled(st), pick);
    assert Tabled(st).users.rows == st.users.rows;
    assert Enforced(Cutover(Tabled(st), pick)).categories == CutCategories(st);
  }

  lemma FirstBootWidths(st: State, pick: map<Id, Id>, entries: seq<Entry>, c: Id)
    requires Settled(st) && !Ownerless(st) && c in st.categories.rows
    ensures Boot(st, pick, entries).Some? && c in Boot(st, pick, entries).value.categories.rows
    ensures var row := Boot(st, pick, entries).value.categories.rows[c];
            if st.categories.spans then row.width == st.categories.rows[c].width &&
              row.legacy == st.categories.rows[c].legacy
            else OldWidth(st.categories, c).Some? && 1 <= OldWidth(st.categories, c).value <= 8
                 && row.width == Some(SpanOf(OldWidth(st.categories, c).value)) &&
                    row.legacy == OldWidth(st.categories, c)
  {
    FirstBootCategories(st, pick, entries);
    CutKeepsWidths(st);
    SpannedWidths(CutCategories(st), st.users.rows.Keys, c);
  }

  lemma FirstBootUsers(st: State)
    ensures var t := Admitting(Uptimed(Tabled(st).users, st.setting));
            && t.rows.Keys == Tabled(st).users.rows.Keys
            && forall u | u in t.rows :: t.rows[u].showUptime ==
                 if Tabled(st).users.uptimeColumn then Tabled(st).users.rows[u].showUptime
                 else Some(UptimeDefault(st.setting))
  {
  }

  lemma FirstBootKeys(st: State, pick: map<Id, Id>, entries: seq<Entry>)
    requires Settled(st) && !Ownerless(st)
    ensures Boot(st, pick, entries).Some?
    ensures Boot(st, pick, entries).value.categories.rows.Keys == st.categories.rows.Keys
    ensures Boot(st, pick, entries).value.users.rows.Keys == st.users.rows.Keys
  {
    FirstBoot(st, pick, entries);
    FirstBootCategories(st, pick, entries);
    FirstBootUsers(st);
    CutKeepsWidths(st);
    assert Tabled(st).users.rows == st.users.rows;
  }

  lemma ServicesKept(rows: map<Id, Service>, owner: Option<Id>, library: map<Id, Schema.Offer>, pick: map<Id, Id>)
    ensures var rows' := Wired(OwnedServices(rows, owner), library, pick);
            && rows'.Keys == rows.Keys
            && forall s | s in rows :: rows'[s] == rows[s].(owner := rows'[s].owner, source := rows'[s].source)
                 && (rows[s].owner.Some? ==> rows'[s].owner == rows[s].owner)
                 && (rows[s].source.Some? ==> rows'[s].source == rows[s].source)
  {
  }

  lemma BootKeepsServices(st: State, pick: map<Id, Id>, entries: seq<Entry>)
    requires Settled(st) && !Ownerless(st)
    ensures Boot(st, pick, entries).Some?
    ensures var rows, rows' := st.services.rows, Boot(st, pick, entries).value.services.rows;
            && rows'.Keys == rows.Keys
            && forall s | s in rows :: rows'[s] == rows[s].(owner := rows'[s].owner, source := rows'[s].source)
                 && (rows[s].owner.Some? ==> rows'[s].owner == rows[s].owner)
                 && (rows[s].source.Some? ==> rows'[s].source == rows[s].source)
  {
    MigratedCatalog(st, pick);
    ServicesKept(st.services.rows, FirstAdmin(st.users.rows),
                 SeededFromServices(st.library, st.services.rows, st.categories.rows), pick);
    assert Boot(st, pick, entries).value.services == Migrate(st, pick).value.services;
  }

  lemma SpannedKeeps(t: CategoryTable)
    ensures Spanned(t).rows.Keys == t.rows.Keys
    ensures forall c | c in t.rows ::
              Spanned(t).rows[c] == t.rows[c].(width := Spanned(t).rows[c].width, legacy := Spanned(t).rows[c].legacy)
  {
  }

  lemma BootKeepsCategories(st: State, pick: map<Id, Id>, entries: seq<Entry>)
    requires Settled(st) && !Ownerless(st)
    ensures Boot(st, pick, entries).Some?
    ensures var rows, rows' := st.categories.rows, Boot(st, pick, entries).value.categories.rows;
            && rows'.Keys == rows.Keys
            && forall c | c in rows ::
                 && rows'[c] == rows[c].(owner := rows'[c].owner, width := rows'[c].width, legacy := rows'[c].legacy)
                 && (rows[c].owner.Some? ==> rows'[c].owner == rows[c].owner)
  {
    FirstBootCategories(st, pick, entries);
    CutKeepsWidths(st);
    CutKeepsOwners(st);
    SpannedKeeps(CutCategories(st));
  }

  lemma CutKeepsOwners(st: State)
    requires Settled(st)
    ensures forall c | c in st.categories.rows ::
              && c in CutCategories(st).rows
              && CutCategories(st).rows[c] == st.categories.rows[c].(owner := CutCategories(st).rows[c].owner)
              && (st.categories.rows[c].owner.Some? ==>
                    CutCategories(st).rows[c].owner == st.categories.rows[c].owner)
  {
  }

  lemma BootKeepsUsers(st: State, pick: map<Id, Id>, entries: seq<Entry>)
    requires Settled(st) && !Ownerless(st)
    ensures Boot(st, pick, entries).Some?
    ensures var rows, rows' := st.users.rows, Boot(st, pick, entries).value.users.rows;
            && rows'.Keys == rows.Keys
            && forall u | u in rows :: rows'[u] == rows[u].(showUptime := rows'[u].showUptime)
  {
    FirstBoot(st, pick, entries);
    FirstBootKeys(st, pick, entries);
    assert Tabled(st).users.rows == st.users.rows;
  }

  /** No boot loses a row or a column's data: of an account only the uptime preference may be filled in, of a service
      only a missing owner or source, of a category only a missing owner and the width with its saved original; the
      offers there were and the admin's setting stand. */
  lemma BootLosesNothing(st: State, pick: map<Id, Id>, entries: seq<Entry>)
    requires Settled(st) && !Ownerless(st)
    ensures Boot(st, pick, entries).Some?
    ensures var b := Boot(st, pick, entries).value;
            && b.users.rows.Keys == st.users.rows.Keys && b.services.rows.Keys == st.services.rows.Keys
            && b.categories.rows.Keys == st.categories.rows.Keys
            && (forall u | u in st.users.rows ::
                  b.users.rows[u] == st.users.rows[u].(showUptime := b.users.rows[u].showUptime))
            && (forall s | s in st.services.rows ::
                  b.services.rows[s] ==
                    st.services.rows[s].(owner := b.services.rows[s].owner, source := b.services.rows[s].source))
            && (forall s | s in st.services.rows && st.services.rows[s].owner.Some? ::
                  b.services.rows[s].owner == st.services.rows[s].owner)
            && (forall s | s in st.services.rows && st.services.rows[s].source.Some? ::
                  b.services.rows[s].source == st.services.rows[s].source)
            && (forall c | c in st.categories.rows ::
                  b.categories.rows[c] ==
                    st.categories.rows[c].(owner := b.categories.rows[c].owner, width := b.categories.rows[c].width,
                                           legacy := b.categories.rows[c].legacy))
            && (forall c | c in st.categories.rows && st.categories.rows[c].owner.Some? ::
                  b.categories.rows[c].owner == st.categories.rows[c].owner)
            && (st.library != map[] ==> b.library == st.library) && b.setting == st.setting
  {
    BootKeepsUsers(st, pick, entries);
    BootKeepsServices(st, pick, entries);
    BootKeepsCategories(st, pick, entries);
    FirstBoot(st, pick, entries);
    MigratedCatalog(st, pick);
  }

  /** 0013's remap gives an old width, counted in sixths of the row, the span nearest to it in twelfths. */
  lemma RemapIsNearest(width: int, span: int)
    requires 1 <= width <= 8 && span in {3, 4, 6, 12} && span != SpanOf(width)
    ensures SpanOf(width) in {3, 4, 6, 12} && Distance(SpanOf(width), 2 * width) < Distance(span, 2 * width)
  {
  }

  function Distance(a: int, b: int): nat
  {
    if a < b then b - a else a - b
  }

  /** Over any run that starts with a boot, a category's width is the last span an admin set, else the
      remapped original, else 6, and always a span of the 12-column grid. */
  lemma WidthOverRuns(st: State, pick: map<Id, Id>, entries: seq<Entry>, events: seq<Event>, cats: set<Id>,
                      users: set<Id>, c: Id)
    requires Settled(st) && !Ownerless(st) && Boot(st, pick, entries).Some?
    requires LegalRun(Boot(st, pick, entries).value, events, cats, users)
    requires c in RunEvents(Boot(st, pick, entries).value, events).categories.rows
    ensures var row := RunEvents(Boot(st, pick, entries).value, events).categories.rows[c];
            && row.width.Some? && row.width.value in {3, 4, 6, 12}
            && row.width == (if LastSpan(events, c).Some? then LastSpan(events, c)
                             else if c !in st.categories.rows then Some(6)
                             else if st.categories.spans then st.categories.rows[c].width
                             else if OldWidth(st.categories, c).None? then None
                             else Some(SpanOf(OldWidth(st.categories, c).value)))
  {
    var a := Boot(st, pick, entries).value;
    FirstBoot(st, pick, entries);
    FirstBootKeys(st, pick, entries);
    WidthIsLastSpan(a, events, cats, users, c);
    NotReborn(a, events, cats, users);
    if c in st.categories.rows {
      FirstBootWidths(st, pick, entries, c);
    }
    var last := RunEvents(a, events);
    assert CategoryHolds(last.categories, last.categories.rows[c], last.users.rows.Keys);
  }

  /** 0013's down migration succeeds when the saved widths are old widths, and brings them back. */
  lemma RevertHolds(st: State)
    requires Ready(st)
    requires forall c | c in st.categories.rows && st.categories.rows[c].legacy.Some? ::
               1 <= st.categories.rows[c].legacy.value <= 8
    ensures Down0013(st).Some?
    ensures Down0013(st).value.categories.rows.Keys == st.categories.rows.Keys
    ensures forall c | c in st.categories.rows ::
              Down0013(st).value.categories.rows[c].width ==
                if st.categories.rows[c].legacy.Some? then st.categories.rows[c].legacy else Some(3)
  {
    DespannedHolds(st.categories, st.users.rows.Keys);
    assert Despanned(st.categories).rows.Keys == st.categories.rows.Keys;
  }

  /** 0013 up, any later boots and edits, then down: every category from before has its old width back,
      and every newer one the old default. */
  lemma RevertRestores(st: State, pick: map<Id, Id>, entries: seq<Entry>, events: seq<Event>, cats: set<Id>,
                       users: set<Id>)
    requires Settled(st) && !Ownerless(st) && !st.categories.spans && Boot(st, pick, entries).Some?
    requires LegalRun(Boot(st, pick, entries).value, events, cats, users)
    ensures var last := RunEvents(Boot(st, pick, entries).value, events);
            && Down0013(last).Some?
            && Down0013(last).value.categories.rows.Keys == last.categories.rows.Keys
            && forall c | c in last.categories.rows ::
                 Down0013(last).value.categories.rows[c].width ==
                   if c in st.categories.rows then OldWidth(st.categories, c) else Some(3)
  {
    var a := Boot(st, pick, entries).value;
    var last := RunEvents(a, events);
    FirstBoot(st, pick, entries);
    FirstBootKeys(st, pick, entries);
    NotReborn(a, events, cats, users);
    forall c | c in last.categories.rows
      ensures last.categories.rows[c].legacy == (if c in st.categories.rows then OldWidth(st.categories, c) else None)
      ensures last.categories.rows[c].legacy.Some? ==> 1 <= last.categories.rows[c].legacy.value <= 8
    {
      LegacyIsOldWidth(st, pick, entries, events, cats, users, c);
    }
    RevertHolds(last);
  }

  lemma LegacyIsOldWidth(st: State, pick: map<Id, Id>, entries: seq<Entry>, events: seq<Event>, cats: set<Id>,
                         users: set<Id>, c: Id)
    requires Settled(st) && !Ownerless(st) && !st.categories.spans && Boot(st, pick, entries).Some?
    requires LegalRun(Boot(st, pick, entries).value, events, cats, users)
    requires c in RunEvents(Boot(st, pick, entries).value, events).categories.rows
    ensures var row := RunEvents(Boot(st, pick, entries).value, events).categories.rows[c];
            && row.legacy == (if c in st.categories.rows then OldWidth(st.categories, c) else None)
            && (row.legacy.Some? ==> 1 <= row.legacy.value <= 8)
  {
    FirstBoot(st, pick, entries);
    FirstBootKeys(st, pick, entries);
    WidthIsLastSpan(Boot(st, pick, entries).value, events, cats, users, c);
    if c in st.categories.rows {
      FirstBootWidths(st, pick, entries, c);
    }
  }

  lemma DespannedHolds(t: CategoryTable, users: set<Id>)
    requires CategoriesSettled(t, users) && t.spans
    requires forall c | c in t.rows && t.rows[c].legacy.Some? :: 1 <= t.rows[c].legacy.value <= 8
    ensures CategoriesHold(Despanned(t), users)
  {
    var rows := Despanned(t).rows;
    assert forall c | c in rows :: rows[c] == t.rows[c].(width := rows[c].width, legacy := rows[c].legacy);
  }

  /** Over any run that starts with a boot, a user's uptime preference is the last one they saved, else
      the admin's default when the column was added, or when the account was created. */
  lemma UptimeOverRuns(st: State, pick: map<Id, Id>, entries: seq<Entry>, events: seq<Event>, cats: set<Id>,
                       users: set<Id>, u: Id)
    requires Settled(st) && !Ownerless(st) && Boot(st, pick, entries).Some?
    requires LegalRun(Boot(st, pick, entries).value, events, cats, users)
    requires u in RunEvents(Boot(st, pick, entries).value, events).users.rows
    ensures var a := Boot(st, pick, entries).value;
            RunEvents(a, events).users.rows[u].showUptime ==
              if LastUptime(events, u).Some? then LastUptime(events, u)
              else if u !in st.users.rows then Some(DefaultAtBirth(a, events, u))
              else if st.users.uptimeColumn then st.users.rows[u].showUptime
              else Some(st.setting != Some(false))
  {
    assert UptimeDefault(st.setting) == (st.setting != Some(false));
    var a := Boot(st, pick, entries).value;
    FirstBoot(st, pick, entries);
    FirstBootKeys(st, pick, entries);
    UptimeIsLastChoice(a, events, cats, users, u);
  }
}
