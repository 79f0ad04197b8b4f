/** Store.Migrate and Store.SeedLibraryIfEmpty as they run: statement after statement on the tables, in
    one transaction that commits whole or rolls back. */
module Migrator {
  import opened Base
  import opened Tables
  import opened Migrations
  import Schema

  class Store {
    var users: UserTable
    var services: ServiceTable
    var categories: CategoryTable
    var library: map<Id, Schema.Offer>
    var setting: Option<bool>

    constructor (st: State)
      ensures Now() == st
    {
      users, services, categories, library, setting := st.users, st.services, st.categories, st.library, st.setting;
    }

    function Now(): State
      reads this
    {
      State(users, services, categories, library, setting)
    }

    /** What a transaction came to: None if a constraint refused a statement. */
    function Outcome(ok: bool): Option<State>
      reads this
    {
      if ok then Some(Now()) else None
    }

    method Init() returns (ok: bool)
      modifies this
      ensures Outcome(ok) == M0001(old(Now()))
    {
      if !users.created {
        users := NO_USERS.(created := true, credentialsNotNull := true);
      }
      if !services.created {
        services := NO_SERVICES.(created := true, globalSlugs := true);
      }
      ok := Holds(Now());
    }

    method AddCategories() returns (ok: bool)
      modifies this
      ensures Outcome(ok) == M0004(old(Now()))
    {
      if !categories.created {
        categories := NO_CATEGORIES.(created := true, globalNames := true);
      }
      ok := Holds(Now());
    }

    /** 0007, steps 1 to 5b. */
    method AssignOwners(pick: map<Id, Id>)
      modifies this
      ensures Now() == Cutover(old(Now()), pick)
    {
      services := services.(ownerColumns := true);
      categories := categories.(ownerColumn := true);
      if library == map[] {
        library := map s | s in Unowned(services.rows) :: OfferFrom(services.rows, categories.rows, s);
      }
      assert library == SeededFromServices(old(library), old(services).rows, old(categories).rows);
      var owner := FirstAdmin(users.rows);
      services := services.(rows := OwnedServices(services.rows, owner));
      categories := categories.(rows := OwnedCategories(categories.rows, owner));
      services := services.(rows := Wired(services.rows, library, pick));
    }

    /** 0007, step 6. */
    method EnforceOwners()
      modifies this
      ensures Now() == Enforced(old(Now()))
    {
      services := services.(ownerNotNull := true);
      categories := categories.(ownerNotNull := true);
      services := services.(globalSlugs := false);
      categories := categories.(globalNames := false);
      services := services.(ownSlugs := true);
      categories := categories.(ownNames := true);
    }

    method PerUserDashboards(pick: map<Id, Id>) returns (ok: bool)
      modifies this
      ensures Outcome(ok) == M0007(old(Now()), pick)
    {
      AssignOwners(pick);
      ok := Holds(Now());
      if ok {
        EnforceOwners();
        ok := Holds(Now());
      }
    }

    method AddGridWidth() returns (ok: bool)
      modifies this
      ensures Outcome(ok) == M0008(old(Now()))
      ensures users == old(users) && services == old(services) && library == old(library) && setting == old(setting)
      ensures categories.widthColumn && categories.rows.Keys == old(categories).rows.Keys
      ensures forall c | c in categories.rows :: categories.rows[c] ==
                if old(categories).widthColumn then old(categories).rows[c]
                else old(categories).rows[c].(width := Some(3))
    {
      if !categories.widthColumn {
        categories := categories.(widthColumn := true, widthDefault := 3, widthMax := Some(6),
                                  rows := AtDefaultWidth(categories.rows));
      }
      ok := Holds(Now());
    }

    method WidenGridWidth() returns (ok: bool)
      modifies this
      ensures Outcome(ok) == M0009(old(Now()))
    {
      if !categories.spans {
        categories := categories.(widthMax := None);
        categories := categories.(widthMax := Some(8));
      }
      ok := Holds(Now());
    }

    /** 0013's remap: the old widths are saved, and the spans that replace them. */
    method RemapWidths()
      modifies this`categories
      ensures categories == WithSpans(WithoutMax(old(categories)))
    {
      categories := categories.(widthMax := None);
      categories := categories.(rows := map c | c in categories.rows :: SpannedRow(categories.rows[c]));
    }

    method TwelveColumns() returns (ok: bool)
      modifies this
      ensures Outcome(ok) == M0013(old(Now()))
    {
      categories := categories.(legacyColumn := true);
      if !categories.spans {
        RemapWidths();
        ok := Holds(Now());
        if !ok {
          return;
        }
        categories := categories.(spans := true);
        categories := categories.(widthDefault := 6);
      }
      ok := Holds(Now());
    }

    /** 0016's column, filled from the admin's setting. */
    method SeedUptime()
      modifies this`users
      ensures users == WithUptime(WithUptimeColumn(old(users)), UptimeDefault(setting))
    {
      users := users.(uptimeColumn := true, uptimeDefault := true, rows := Showing(users.rows, true));
      users := users.(rows := Showing(users.rows, UptimeDefault(setting)));
      users := users.(uptimeDefault := false);
    }

    method PerUserUptime() returns (ok: bool)
      modifies this
      ensures Outcome(ok) == M0016(old(Now()))
    {
      if !users.uptimeColumn {
        SeedUptime();
      }
      ok := Holds(Now());
    }

    method KidAccounts() returns (ok: bool)
      modifies this
      ensures Outcome(ok) == M0018(old(Now()))
    {
      if !users.kidCheck {
        users := users.(kidRole := true);
        users := users.(credentialsNotNull := false);
        users := users.(kidCheck := true);
      }
      ok := Holds(Now());
      if !ok {
        return;
      }
      users := users.(kidNames := true);
      ok := Holds(Now());
    }

    method Execute(file: File, pick: map<Id, Id>) returns (ok: bool)
      modifies this
      ensures Outcome(ok) == Apply(file, old(Now()), pick)
    {
      match file {
        case File0001 => ok := Init();
        case File0004 => ok := AddCategories();
        case File0007 => ok := PerUserDashboards(pick);
        case File0008 => ok := AddGridWidth();
        case File0009 => ok := WidenGridWidth();
        case File0013 => ok := TwelveColumns();
        case File0016 => ok := PerUserUptime();
        case File0018 => ok := KidAccounts();
      }
    }

    /** All files in one transaction: commits the migrated tables, or rolls every one of them back. */
    method Migrate(pick: map<Id, Id>) returns (ok: bool)
      modifies this
      ensures Outcome(ok) == Migrations.Migrate(old(Now()), pick)
      ensures !ok ==> Now() == old(Now())
    {
      var before := Now();
      for i := 0 to |FILES|
        invariant Migrations.Migrate(before, pick) == ApplyAll(FILES[i..], Now(), pick)
      {
        assert FILES[i..][0] == FILES[i] && FILES[i..][1..] == FILES[i + 1..];
        ok := Execute(FILES[i], pick);
        if !ok {
          users, services, categories, library, setting :=
            before.users, before.services, before.categories, before.library, before.setting;
          return;
        }
      }
      return true;
    }

    /** Inserts the seed's entries in order, when the library holds no offer. */
    method SeedLibraryIfEmpty(entries: seq<Entry>) returns (count: nat)
      modifies this`library
      ensures Now() == Migrations.SeedLibraryIfEmpty(old(Now()), entries)
      ensures count == if old(library) == map[] then |entries| else 0
    {
      if library != map[] {
        return 0;
      }
      for i := 0 to |entries|
        invariant library == SeededOffers(entries[..i])
      {
        var e := entries[i];
        var suggested := SuggestedCategory(e.description);
        library := library[i := Schema.Offer(e.name, e.url, e.icon, e.description, suggested, i)];
        assert entries[..i + 1][..i] == entries[..i];
      }
      assert entries[..|entries|] == entries;
      return |entries|;
    }
  }
}
