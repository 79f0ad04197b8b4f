/** The kid-filtered read handlers as they run: list in order, then keep what the caller may see.
    Each is proved to answer what Server's filter-then-list bodies say. */
module Handlers {
  import opened Base
  import opened Ordering
  import opened Schema
  import opened Statements
  import opened Listings
  import opened Server
  import G = Gatus

  lemma {:induction false} TilesSnoc(db: Db, snap: G.Snapshot, viewer: Id, q: seq<Id>, s: Id)
    requires s in db.services && forall i | 0 <= i < |q| :: q[i] in db.services
    ensures Tiles(db, snap, viewer, q + [s]) == Tiles(db, snap, viewer, q) + [TileOf(db, snap, viewer, s)]
  {
    if q == [] {
      assert q + [s] == [s];
    } else {
      assert (q + [s])[1..] == q[1..] + [s];
      TilesSnoc(db, snap, viewer, q[1..], s);
    }
  }

  lemma {:induction false} RowsSnoc(db: Db, q: seq<Id>, c: Id)
    requires c in db.categories && forall i | 0 <= i < |q| :: q[i] in db.categories
    ensures var k := db.categories[c];
            CategoryRowsOf(db, q + [c]) == CategoryRowsOf(db, q) + [CategoryRow(c, k.name, k.sortIndex, k.width)]
  {
    if q == [] {
      assert q + [c] == [c];
    } else {
      assert (q + [c])[1..] == q[1..] + [c];
      RowsSnoc(db, q[1..], c);
    }
  }

  /** The services of a listing that the user may see. */
  function Kept(db: Db, u: Id, svcs: seq<Id>): seq<Id>
  {
    Filter(s => Allows(VisibleServiceIDs(db, u), s), svcs)
  }

  lemma KeptSnoc(db: Db, u: Id, svcs: seq<Id>, s: Id)
    ensures Kept(db, u, svcs + [s]) == Kept(db, u, svcs) + if Allows(VisibleServiceIDs(db, u), s) then [s] else []
  {
    FilterSnoc(s => Allows(VisibleServiceIDs(db, u), s), svcs, s);
  }

  lemma KeptWhole(db: Db, u: Id, svcs: seq<Id>)
    requires VisibleServiceIDs(db, u).None?
    ensures Kept(db, u, svcs) == svcs
  {
    KeepAll(svcs, s => Allows(VisibleServiceIDs(db, u), s));
  }

  /** Listing the whole catalog and keeping the visible is listing the visible. */
  lemma VisibleInOrder(db: Db, owner: Id, u: Id)
    requires SharedOwner(db.users) == Some(owner)
    ensures Kept(db, u, ListServices(db, owner, u)) == InOrder(db, u, VisibleShared(db, u))
  {
    ServiceOrderTotal(db, u, ServicesOf(db, owner));
    ServiceOrderTotal(db, u, VisibleShared(db, u));
    assert ServicesOf(db, owner) == SharedServices(db);
    FilterArrange(s => Allows(VisibleServiceIDs(db, u), s), ServicesOf(db, owner), ServiceOrder(db, u),
                  VisibleShared(db, u), ServiceOrder(db, u));
  }

  lemma ListedAreShared(db: Db, owner: Id, u: Id)
    requires SharedOwner(db.users) == Some(owner)
    ensures forall s :: s in ListServices(db, owner, u) <==> s in SharedServices(db)
  {
    ServiceOrderTotal(db, u, ServicesOf(db, owner));
    assert ServicesOf(db, owner) == SharedServices(db);
  }

  /** The categories that the listed services are in. */
  function CategoriesAmong(db: Db, svcs: seq<Id>): set<Id>
  {
    set s | s in svcs && s in db.services && db.services[s].category.Some? :: db.services[s].category.value
  }

  lemma OneMoreAmong(db: Db, svcs: seq<Id>, s: Id)
    requires s in db.services
    ensures CategoriesAmong(db, svcs + [s]) ==
            CategoriesAmong(db, svcs) +
            if db.services[s].category.Some? then {db.services[s].category.value} else {}
  {
    var more := CategoriesAmong(db, svcs + [s]);
    assert s in svcs + [s];
    forall c | c in CategoriesAmong(db, svcs) ensures c in more {
      var t :| t in svcs && t in db.services && db.services[t].category == Some(c);
      assert t in svcs + [s];
    }
  }

  lemma AmongVisible(db: Db, u: Id, svcs: seq<Id>)
    requires svcs == InOrder(db, u, VisibleShared(db, u))
    ensures CategoriesAmong(db, svcs) == VisibleCategories(db, u)
  {
    assert forall s :: s in svcs <==> s in VisibleShared(db, u);
  }

  lemma VisibleAreServices(db: Db, u: Id, svcs: seq<Id>)
    requires svcs == InOrder(db, u, VisibleShared(db, u))
    ensures forall i | 0 <= i < |svcs| :: svcs[i] in db.services
  {
    assert forall i | 0 <= i < |svcs| :: svcs[i] in svcs;
  }

  lemma NoOwnerNothingShared(db: Db, u: Id)
    requires SharedOwner(db.users).None?
    ensures VisibleShared(db, u) == {} && ShownCategories(db, u) == {}
  {
  }

  class Api {
    const db: Db
    const snap: G.Snapshot

    constructor (db: Db, snap: G.Snapshot)
      ensures this.db == db && this.snap == snap
    {
      this.db := db;
      this.snap := snap;
    }

    /** Lists the owner's services in the user's order and keeps those the user may see. */
    method VisibleCatalog(owner: Id, u: Id) returns (out: seq<Id>)
      requires SharedOwner(db.users) == Some(owner)
      ensures out == InOrder(db, u, VisibleShared(db, u))
    {
      var vis := VisibleServiceIDs(db, u);
      var svcs := ListServices(db, owner, u);
      VisibleInOrder(db, owner, u);
      if vis.None? {
        KeptWhole(db, u, svcs);
        return svcs;
      }
      out := [];
      for i := 0 to |svcs|
        invariant out == Kept(db, u, svcs[..i])
      {
        assert svcs[..i + 1] == svcs[..i] + [svcs[i]];
        KeptSnoc(db, u, svcs[..i], svcs[i]);
        if Allows(vis, svcs[i]) {
          out := out + [svcs[i]];
        }
      }
      assert svcs[..|svcs|] == svcs;
    }

    /** The tiles of a listing, one after the other. */
    method TilesOf(u: Id, svcs: seq<Id>) returns (out: seq<Tile>)
      requires forall i | 0 <= i < |svcs| :: svcs[i] in db.services
      ensures out == Tiles(db, snap, u, svcs)
    {
      out := [];
      for i := 0 to |svcs|
        invariant out == Tiles(db, snap, u, svcs[..i])
      {
        TilesSnoc(db, snap, u, svcs[..i], svcs[i]);
        assert svcs[..i + 1] == svcs[..i] + [svcs[i]];
        out := out + [TileOf(db, snap, u, svcs[i])];
      }
      assert svcs[..|svcs|] == svcs;
    }

    method GetServices(u: Id) returns (out: seq<Tile>)
      ensures out == ServicesBody(db, snap, u)
    {
      var owner := SharedOwner(db.users);
      if owner.None? {
        NoOwnerNothingShared(db, u);
        return [];
      }
      var svcs := VisibleCatalog(owner.value, u);
      VisibleAreServices(db, u, svcs);
      out := TilesOf(u, svcs);
    }

    /** None is every category, for an adult. */
    method VisibleCategoryIDs(owner: Id, u: Id) returns (ids: Option<set<Id>>)
      requires SharedOwner(db.users) == Some(owner)
      ensures ids == if IsAdult(db, u) then None else Some(VisibleCategories(db, u))
    {
      if VisibleServiceIDs(db, u).None? {
        return None;
      }
      var svcs := VisibleCatalog(owner, u);
      VisibleAreServices(db, u, svcs);
      var found: set<Id> := {};
      for i := 0 to |svcs|
        invariant found == CategoriesAmong(db, svcs[..i])
      {
        var c := db.services[svcs[i]].category;
        OneMoreAmong(db, svcs[..i], svcs[i]);
        assert svcs[..i + 1] == svcs[..i] + [svcs[i]];
        if c.Some? {
          found := found + {c.value};
        }
      }
      assert svcs[..|svcs|] == svcs;
      AmongVisible(db, u, svcs);
      return Some(found);
    }

    /** The rows of the categories of a listing that are visible. */
    method RowsOf(cats: seq<Id>, visible: Option<set<Id>>) returns (out: seq<CategoryRow>)
      requires forall c | c in cats :: c in db.categories
      ensures forall c | c in Filter(c => visible.None? || c in visible.value, cats) :: c in db.categories
      ensures out == CategoryRowsOf(db, Filter(c => visible.None? || c in visible.value, cats))
    {
      ghost var kept: seq<Id> := [];
      out := [];
      for i := 0 to |cats|
        invariant kept == Filter(c => visible.None? || c in visible.value, cats[..i])
        invariant forall c | c in kept :: c in db.categories
        invariant out == CategoryRowsOf(db, kept)
      {
        var c := cats[i];
        assert cats[..i + 1] == cats[..i] + [c];
        FilterSnoc(c => visible.None? || c in visible.value, cats[..i], c);
        if visible.None? || c in visible.value {
          RowsSnoc(db, kept, c);
          kept := kept + [c];
          out := out + [CategoryRow(c, db.categories[c].name, db.categories[c].sortIndex, db.categories[c].width)];
        }
      }
      assert cats[..|cats|] == cats;
    }

    method GetCategories(u: Id) returns (out: seq<CategoryRow>)
      ensures out == CategoriesBody(db, u)
    {
      var owner := SharedOwner(db.users);
      if owner.None? {
        NoOwnerNothingShared(db, u);
        return [];
      }
      var cats := ListCategories(db, owner.value);
      var visibleCats := VisibleCategoryIDs(owner.value, u);
      ShownInOrder(db, owner.value, u, visibleCats);
      out := RowsOf(cats, visibleCats);
    }

    method GetCollapsed(u: Id) returns (ids: seq<Id>)
      ensures ids == CollapsedBody(db, u)
    {
      var mine := set p | p in db.collapsed && p.0 == u :: p.1;
      ids := Arrange(mine, (a: Id, b: Id) => a < b);
      if VisibleServiceIDs(db, u).None? {
        assert mine == CollapsedShown(db, u);
        return ids;
      }
      var owner := SharedOwner(db.users);
      if owner.None? {
        NoOwnerNothingShared(db, u);
        assert CollapsedShown(db, u) == {};
        return [];
      }
      var visibleCats := VisibleCategoryIDs(owner.value, u);
      var kept: seq<Id> := [];
      for i := 0 to |ids|
        invariant kept == Filter(c => c in visibleCats.value, ids[..i])
      {
        assert ids[..i + 1] == ids[..i] + [ids[i]];
        FilterSnoc(c => c in visibleCats.value, ids[..i], ids[i]);
        if ids[i] in visibleCats.value {
          kept := kept + [ids[i]];
        }
      }
      assert ids[..|ids|] == ids;
      assert forall c :: c in CollapsedShown(db, u) <==> c in mine && c in visibleCats.value;
      FilterArrange(c => c in visibleCats.value, mine, (a: Id, b: Id) => a < b, CollapsedShown(db, u),
        (a: Id, b: Id) => a < b);
      return kept;
    }

    /** The keys of the services of a listing that the caller may see. */
    method KeysOf(svcs: seq<Id>, vis: Option<set<Id>>) returns (keys: set<string>)
      requires forall s | s in svcs :: s in db.services
      ensures keys == set s | s in svcs && Allows(vis, s) && db.services[s].gatusKey != "" :: db.services[s].gatusKey
    {
      keys := {};
      for i := 0 to |svcs|
        invariant keys == set s | s in svcs[..i] && Allows(vis, s) && db.services[s].gatusKey != "" ::
                    db.services[s].gatusKey
      {
        assert svcs[..i + 1] == svcs[..i] + [svcs[i]];
        var key := db.services[svcs[i]].gatusKey;
        if key != "" && Allows(vis, svcs[i]) {
          keys := keys + {key};
        }
      }
      assert svcs[..|svcs|] == svcs;
    }

    method AllowedGatusKeys(u: Id) returns (keys: set<string>)
      ensures keys == AllowedKeys(db, u)
    {
      var owner := SharedOwner(db.users);
      if owner.None? {
        NoOwnerNothingShared(db, u);
        return {};
      }
      ListedAreShared(db, owner.value, u);
      var svcs := ListServices(db, owner.value, u);
      keys := KeysOf(svcs, VisibleServiceIDs(db, u));
    }

    method GetStatus(u: Id) returns (statuses: map<string, G.Status>)
      ensures statuses == StatusBody(db, snap, u)
    {
      var adult := VisibleServiceIDs(db, u).None?;
      var allowedKeys: set<string> := {};
      if !adult {
        allowedKeys := AllowedGatusKeys(u);
      }
      statuses := map[];
      var rest := snap.statuses.Keys;
      while rest != {}
        invariant rest <= snap.statuses.Keys
        invariant statuses == map k | k in snap.statuses.Keys - rest && (adult || k in allowedKeys) ::
                    snap.statuses[k].status
      {
        var k :| k in rest;
        if adult || k in allowedKeys {
          statuses := statuses[k := snap.statuses[k].status];
        }
        rest := rest - {k};
      }
    }
  }

  lemma {:induction false} KeepAll<T>(q: seq<T>, p: T -> bool)
    requires forall x | x in q :: p(x)
    ensures Filter(p, q) == q
  {
    if q != [] {
      assert q[0] in q && q == [q[0]] + q[1..];
      KeepAll(q[1..], p);
    }
  }

  lemma ShownInOrder(db: Db, owner: Id, u: Id, visible: Option<set<Id>>)
    requires SharedOwner(db.users) == Some(owner)
    requires visible == if IsAdult(db, u) then None else Some(VisibleCategories(db, u))
    ensures Filter(c => visible.None? || c in visible.value, ListCategories(db, owner))
            == CategoriesInOrder(db, ShownCategories(db, u))
  {
    FilterArrange(c => visible.None? || c in visible.value, CategoriesOf(db, owner), (a, b) => CategoryBefore(db, a, b),
                  ShownCategories(db, u), (a, b) => CategoryBefore(db, a, b));
  }
}
