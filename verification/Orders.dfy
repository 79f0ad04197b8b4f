/** What saving an order means for the lists read back: personal layouts and category order. */
module Orders {
  import opened Base
  import opened Ordering
  import opened Schema
  import opened Statements
  import opened Listings
  import Slug
  import StoreInvariant

  function ByName(db: Db, s: set<Id>): (q: seq<Id>)
    ensures Listing(q, s, (a, b) => NameBefore(db, a, b))
  {
    NameOrderTotal(db, s);
    Arrange(s, (a, b) => NameBefore(db, a, b))
  }

  function PlacedBy(db: Db, viewer: Id, s: set<Id>): set<Id>
  {
    set x | x in s && Place(db, viewer, x).Some?
  }

  /** The list is what the viewer placed, in place order, and then the rest by name. */
  lemma ListingSplits(db: Db, viewer: Id, s: set<Id>)
    ensures InOrder(db, viewer, s) ==
            InOrder(db, viewer, PlacedBy(db, viewer, s)) + ByName(db, s - PlacedBy(db, viewer, s))
  {
    var placed := PlacedBy(db, viewer, s);
    var p, q := InOrder(db, viewer, placed), ByName(db, s - placed);
    var less := ServiceOrder(db, viewer);
    forall i, j | 0 <= i < j < |p + q| ensures less((p + q)[i], (p + q)[j]) {
      var a, b := (p + q)[i], (p + q)[j];
      assert a in p || a in q;
      assert b in p || b in q;
      if i < |p| && j >= |p| {
        assert a in placed && b !in placed && b in s - placed;
      } else if i >= |p| {
        assert NameBefore(db, q[i - |p|], q[j - |p|]);
        assert a in s - placed && b in s - placed;
      }
    }
    ServiceOrderTotal(db, viewer, s);
    ListingUnique(InOrder(db, viewer, s), p + q, s, less, less);
  }

  /** What a listing's order is, said of its rows: what the viewer placed comes first, by place; what shares its
      place, and what has none, comes by name; and equal names by id. */
  ghost predicate ComesFirst(db: Db, viewer: Id, a: Id, b: Id)
    requires a in db.services && b in db.services
  {
    && ((viewer, b) in db.layout ==>
          (viewer, a) in db.layout && db.layout[(viewer, a)] <= db.layout[(viewer, b)])
    && (((viewer, a) in db.layout <==> (viewer, b) in db.layout)
        && ((viewer, a) in db.layout ==> db.layout[(viewer, a)] == db.layout[(viewer, b)]) ==>
          InNameOrder(db, a, b))
  }

  ghost predicate InNameOrder(db: Db, a: Id, b: Id)
    requires a in db.services && b in db.services
  {
    TextLess(db.services[a].name, db.services[b].name) || (db.services[a].name == db.services[b].name && a < b)
  }

  /** ListServices answers the owner's services, each once, what the viewer placed first and the rest by name. */
  lemma ListedByPlaceThenName(db: Db, owner: Id, viewer: Id)
    ensures var q := ListServices(db, owner, viewer);
            && (forall s :: s in q <==> s in db.services && db.services[s].owner == owner)
            && (forall i, j | 0 <= i < j < |q| ::
                  q[i] in db.services && q[j] in db.services && ComesFirst(db, viewer, q[i], q[j]))
  {
    InOrderByPlaceThenName(db, viewer, ServicesOf(db, owner));
  }

  /** So is every listing of services for a viewer. */
  lemma InOrderByPlaceThenName(db: Db, viewer: Id, s: set<Id>)
    requires s <= db.services.Keys
    ensures var q := InOrder(db, viewer, s);
            forall i, j | 0 <= i < j < |q| ::
              q[i] in db.services && q[j] in db.services && ComesFirst(db, viewer, q[i], q[j])
  {
    var q := InOrder(db, viewer, s);
    forall i, j | 0 <= i < j < |q|
      ensures q[i] in db.services && q[j] in db.services && ComesFirst(db, viewer, q[i], q[j])
    {
      assert q[i] in q && q[j] in q;
      assert ServiceBefore(db, viewer, q[i], q[j]);
    }
  }

  /** An admin reads a kid's list by name. */
  lemma KidListByName(db: Db, kid: Id)
    ensures var q := KidServiceIDs(db, kid);
            && (forall s :: s in q <==> s in SharedServices(db) && (kid, s) in db.allowed)
            && (forall i, j | 0 <= i < j < |q| ::
                  q[i] in db.services && q[j] in db.services && InNameOrder(db, q[i], q[j]))
  {
    var q := KidServiceIDs(db, kid);
    forall i, j | 0 <= i < j < |q| ensures q[i] in db.services && q[j] in db.services && InNameOrder(db, q[i], q[j]) {
      assert q[i] in q && q[j] in q;
      assert NameBefore(db, q[i], q[j]);
    }
  }

  /** SetLayout succeeds exactly on distinct ids that all name services, and places the user's services at their
      positions in the list and nowhere else; otherwise nothing changes. */
  lemma SetLayoutAccepts(db: Db, u: Id, ids: seq<Id>)
    requires u in db.users
    ensures SetLayout(db, u, ids).1 == Ok <==> Distinct(ids) && Members(ids) <= db.services.Keys
    ensures SetLayout(db, u, ids).1 != Ok ==> SetLayout(db, u, ids).0 == db
    ensures SetLayout(db, u, ids).1 == Ok ==>
              var d := SetLayout(db, u, ids).0;
              && (forall s :: (u, s) in d.layout <==> s in ids)
              && (forall i | 0 <= i < |ids| :: d.layout[(u, ids[i])] == i)
  {
    StoreInvariant.LayoutAccepts(db, ids, {});
    assert forall s | s in ids :: s in Members(ids);
    if SetLayout(db, u, ids).1 == Ok { PlacedAt(db.layout, u, ids); }
  }

  lemma PlacedAt(layout: map<(Id, Id), int>, u: Id, ids: seq<Id>)
    requires Distinct(ids)
    ensures var placed := Placed(layout, u, ids);
            && (forall s :: (u, s) in placed <==> s in ids)
            && (forall i | 0 <= i < |ids| :: placed[(u, ids[i])] == i)
  {
    forall i | 0 <= i < |ids| ensures IndexOf(ids, ids[i]) == i {
    }
    forall s ensures (u, s) in Placed(layout, u, ids) <==> s in ids {
      if s in ids { assert (u, s) in (set t | t in ids :: (u, t)); }
    }
  }

  /** After a saved layout, the owner's services come back in the saved order, then the rest by name. */
  lemma LayoutRoundTrip(db: Db, u: Id, ids: seq<Id>, owner: Id)
    requires u in db.users && SetLayout(db, u, ids).1 == Ok
    ensures ListServices(SetLayout(db, u, ids).0, owner, u)
            == Filter(s => s in ServicesOf(db, owner), ids) + ByName(db, ServicesOf(db, owner) - Members(ids))
  {
    var db' := SetLayout(db, u, ids).0;
    SetLayoutAccepts(db, u, ids);
    var owned := ServicesOf(db, owner);
    var placed := PlacedBy(db', u, owned);
    forall s: Id ensures Place(db', u, s) == if s in ids then Some(IndexOf(ids, s)) else None {
      assert (u, s) in db'.layout <==> s in ids;
    }
    assert placed == owned * Members(ids);
    ListingSplits(db', u, owned);
    PlacedInOrder(db', u, ids, owned);
    assert owned - placed == owned - Members(ids);
    SameNames(db, db', owned - placed);
  }

  lemma SameNames(db: Db, db': Db, s: set<Id>)
    requires forall x | x in s :: Name(db, x) == Name(db', x)
    ensures ByName(db, s) == ByName(db', s)
  {
    NameOrderTotal(db, s);
    NameOrderTotal(db', s);
    ArrangeCongruent(s, (a, b) => NameBefore(db, a, b), (a, b) => NameBefore(db', a, b));
  }

  lemma PlacedInOrder(db: Db, u: Id, ids: seq<Id>, owned: set<Id>)
    requires Distinct(ids)
    requires forall s: Id :: Place(db, u, s) == if s in ids then Some(IndexOf(ids, s)) else None
    ensures InOrder(db, u, owned * Members(ids)) == Filter(s => s in owned, ids)
  {
    var less := ServiceOrder(db, u);
    forall i, j | 0 <= i < j < |ids| ensures less(ids[i], ids[j]) {
      assert IndexOf(ids, ids[i]) == i && IndexOf(ids, ids[j]) == j;
    }
    FilterAscending(s => s in owned, ids, less);
    var q := Filter(s => s in owned, ids);
    forall x: Id ensures x in q <==> x in owned * Members(ids) { FilterElements(s => s in owned, ids, x); }
    ServiceOrderTotal(db, u, owned * Members(ids));
    ListingUnique(InOrder(db, u, owned * Members(ids)), q, owned * Members(ids), less, less);
  }

  /** Deleting a service takes it out of every viewer's list and moves nothing else. */
  lemma DeletionKeepsOrder(db: Db, id: Id, admin: Id, owner: Id, viewer: Id)
    requires OwnsService(db, admin, id)
    ensures ListServices(DeleteService(db, id, admin).0, owner, viewer) ==
            Filter(s => s != id, ListServices(db, owner, viewer))
  {
    var db' := DeleteService(db, id, admin).0;
    ServiceOrderTotal(db, viewer, ServicesOf(db, owner));
    ServiceOrderTotal(db', viewer, ServicesOf(db', owner));
    FilterArrange(s => s != id, ServicesOf(db, owner), ServiceOrder(db, viewer), ServicesOf(db', owner),
      ServiceOrder(db', viewer));
  }

  /** Adding an unplaced service to a set leaves what is placed as it was. */
  lemma PlacedStand(db: Db, db': Db, viewer: Id, s: set<Id>, id: Id)
    requires id !in s && Place(db', viewer, id).None?
    requires forall x | x in s :: Place(db', viewer, x) == Place(db, viewer, x) && Name(db', x) == Name(db, x)
    ensures PlacedBy(db', viewer, s + {id}) == PlacedBy(db, viewer, s)
    ensures InOrder(db', viewer, PlacedBy(db, viewer, s)) == InOrder(db, viewer, PlacedBy(db, viewer, s))
  {
    var placed := PlacedBy(db, viewer, s);
    ServiceOrderTotal(db, viewer, placed);
    ServiceOrderTotal(db', viewer, placed);
    ArrangeCongruent(placed, ServiceOrder(db, viewer), ServiceOrder(db', viewer));
  }

  lemma CreatedUnplaced(db: Db, id: Id, sv: Service, viewer: Id)
    requires Links(db.layout.Keys, db.users.Keys, db.services.Keys) && id !in db.services &&
             CreateService(db, id, sv).1 == Ok
    ensures var db' := CreateService(db, id, sv).0;
            && ServicesOf(db', sv.owner) == ServicesOf(db, sv.owner) + {id} && Place(db', viewer, id).None?
            && forall x | x in ServicesOf(db, sv.owner) ::
                 Place(db', viewer, x) == Place(db, viewer, x) && Name(db', x) == Name(db, x)
  {
  }

  /** A new service joins the owner's unplaced tail by name; what any viewer placed stays in front. */
  lemma NewServiceJoinsTail(db: Db, id: Id, sv: Service, viewer: Id)
    requires Links(db.layout.Keys, db.users.Keys, db.services.Keys) && id !in db.services &&
             CreateService(db, id, sv).1 == Ok
    ensures var db' := CreateService(db, id, sv).0;
            var placed := PlacedBy(db, viewer, ServicesOf(db, sv.owner));
            ListServices(db', sv.owner, viewer)
            == InOrder(db, viewer, placed) + ByName(db', ServicesOf(db, sv.owner) - placed + {id})
  {
    var db' := CreateService(db, id, sv).0;
    var owned := ServicesOf(db, sv.owner);
    var placed := PlacedBy(db, viewer, owned);
    CreatedUnplaced(db, id, sv, viewer);
    PlacedStand(db, db', viewer, owned, id);
    ListingSplits(db', viewer, owned + {id});
    assert owned + {id} - placed == owned - placed + {id};
  }

  // ---- categories

  lemma LastInOrder(q: seq<Id>, s: set<Id>, id: Id, less: (Id, Id) -> bool)
    requires Listing(q, s, less) && id !in s && !less(id, id) && forall x | x in s :: less(x, id) && !less(id, x)
    ensures Listing(q + [id], s + {id}, less)
  {
    forall i, j | 0 <= i < j < |q + [id]| ensures less((q + [id])[i], (q + [id])[j]) {
      assert q[i] in s;
    }
  }

  lemma CategoryOrderTotal(db: Db, s: set<Id>)
    requires s <= db.categories.Keys
    ensures StrictTotal((a: Id, b: Id) => CategoryBefore(db, a, b), s)
  {
  }

  /** Categories come by sort_index, equal ones by id. */
  lemma CategoriesByIndex(db: Db, owner: Id)
    ensures var q := ListCategories(db, owner);
            && (forall c :: c in q <==> c in db.categories && db.categories[c].owner == owner)
            && (forall i, j | 0 <= i < j < |q| ::
                  && q[i] in db.categories && q[j] in db.categories
                  && db.categories[q[i]].sortIndex <= db.categories[q[j]].sortIndex
                  && (db.categories[q[i]].sortIndex == db.categories[q[j]].sortIndex ==> q[i] < q[j]))
  {
    var q := ListCategories(db, owner);
    forall i, j | 0 <= i < j < |q| ensures CategoryBefore(db, q[i], q[j]) {
    }
  }

  /** A new category lists strictly last for its owner. */
  lemma NewCategoryIsLast(db: Db, id: Id, owner: Id, name: string)
    requires id !in db.categories && CreateCategory(db, id, owner, name).1 == Ok
    ensures var db' := CreateCategory(db, id, owner, name).0;
            && ListCategories(db', owner) == ListCategories(db, owner) + [id]
            && forall c | c in CategoriesOf(db, owner) :: db'.categories[c].sortIndex < db'.categories[id].sortIndex
  {
    var db' := CreateCategory(db, id, owner, name).0;
    var cats := CategoriesOf(db, owner);
    assert CategoriesOf(db', owner) == cats + {id};
    var less, less' := (a: Id, b: Id) => CategoryBefore(db, a, b), (a: Id, b: Id) => CategoryBefore(db', a, b);
    CategoryOrderTotal(db, cats);
    CategoryOrderTotal(db', cats);
    CategoryOrderTotal(db', cats + {id});
    ArrangeCongruent(cats, less, less');
    LastInOrder(Arrange(cats, less'), cats, id, less');
    ListingUnique(ListCategories(db', owner), Arrange(cats, less') + [id], cats + {id}, less', less');
  }

  lemma ReindexedAscends(db: Db, db': Db, ids: seq<Id>)
    requires Distinct(ids) && db'.categories == Reindexed(db.categories, ids)
    requires forall c | c in ids :: c in db.categories
    ensures Ascending((a: Id, b: Id) => CategoryBefore(db', a, b), ids)
  {
    forall i, j | 0 <= i < j < |ids| ensures CategoryBefore(db', ids[i], ids[j]) {
      assert ids[i] in ids && ids[j] in ids;
      assert LastIndexOf(ids, ids[i]) == i && LastIndexOf(ids, ids[j]) == j;
    }
  }

  lemma ReindexedOwners(db: Db, owner: Id, ids: seq<Id>)
    requires Members(ids) <= CategoriesOf(db, owner)
    ensures CategoriesOf(SetCategoryOrder(db, owner, ids).0, owner) == CategoriesOf(db, owner)
  {
  }

  /** Saving any order of all of an owner's categories makes them list in that order, numbered from 0. */
  lemma CategoryOrderRoundTrip(db: Db, owner: Id, ids: seq<Id>)
    requires Distinct(ids) && Members(ids) == CategoriesOf(db, owner)
    ensures SetCategoryOrder(db, owner, ids).1 == Ok
    ensures ListCategories(SetCategoryOrder(db, owner, ids).0, owner) == ids
    ensures forall i | 0 <= i < |ids| ::
              ids[i] in db.categories && ids[i] in SetCategoryOrder(db, owner, ids).0.categories
              && SetCategoryOrder(db, owner, ids).0.categories[ids[i]] == db.categories[ids[i]].(sortIndex := i)
  {
    var db' := SetCategoryOrder(db, owner, ids).0;
    var cats := CategoriesOf(db, owner);
    ReindexedOwners(db, owner, ids);
    assert forall c :: c in ids <==> c in Members(ids);
    ReindexedAscends(db, db', ids);
    forall i | 0 <= i < |ids| ensures ids[i] in cats && LastIndexOf(ids, ids[i]) == i {
      assert ids[i] in Members(ids);
    }
    var less := (a: Id, b: Id) => CategoryBefore(db', a, b);
    CategoryOrderTotal(db', cats);
    ListingUnique(ListCategories(db', owner), ids, cats, less, less);
  }

  /** An id that is not the owner's leaves every category as it was. */
  lemma ForeignIdChangesNothing(db: Db, owner: Id, ids: seq<Id>)
    ensures SetCategoryOrder(db, owner, ids).1 == Ok <==> forall c | c in ids :: c in CategoriesOf(db, owner)
    ensures SetCategoryOrder(db, owner, ids).1 != Ok ==> SetCategoryOrder(db, owner, ids).0 == db
  {
    assert forall c | c in ids :: c in Members(ids);
  }

  // ---- slugs

  /** `slug` is the free candidate with the smallest number. */
  ghost predicate SmallestFree(slug: string, base: string, taken: set<string>)
  {
    exists k :: 1 <= k <= 1000 && slug == Slug.Candidate(base, k) && slug !in taken &&
                (forall j | 1 <= j < k :: Slug.Candidate(base, j) in taken)
  }

  /** AddFromLibrary takes the smallest free candidate, and fails only when all are taken. */
  lemma AddTakesSmallestFree(db: Db, id: Id, owner: Id, offer: Id, category: Option<Id>)
    requires owner in db.users && offer in db.library && id !in db.services
    requires category.Some? ==> OwnsCategory(db, owner, category.value)
    ensures var (db', err) := AddFromLibrary(db, id, owner, offer, category);
            var base := Slug.Base(db.library[offer].name);
            && (err == Ok || err == SlugTaken)
            && (err == SlugTaken <==> forall i | 1 <= i <= 1000 :: Slug.Candidate(base, i) in TakenSlugs(db, owner))
            && (err == Ok ==> id in db'.services && SmallestFree(db'.services[id].slug, base, TakenSlugs(db, owner)))
  {
    var base := Slug.Base(db.library[offer].name);
    var k := FreeCandidate(db, owner, base, 1);
    if k != 0 { assert AddFromLibrary(db, id, owner, offer, category).0.services[id].slug == Slug.Candidate(base, k); }
  }

  lemma {:induction false} TakenCount(db: Db, owned: set<Id>, slugs: set<string>)
    requires owned <= db.services.Keys && slugs == set s | s in owned :: db.services[s].slug
    ensures |slugs| <= |owned|
  {
    if owned != {} {
      var s :| s in owned;
      var rest := set t | t in owned - {s} :: db.services[t].slug;
      TakenCount(db, owned - {s}, rest);
      assert slugs == rest + {db.services[s].slug};
    }
  }

  /** An owner with fewer than 1000 services can always add one more offer. */
  lemma AddAlwaysSucceeds(db: Db, id: Id, owner: Id, offer: Id, category: Option<Id>)
    requires owner in db.users && offer in db.library && id !in db.services
    requires category.Some? ==> OwnsCategory(db, owner, category.value)
    requires |ServicesOf(db, owner)| < 1000
    ensures AddFromLibrary(db, id, owner, offer, category).1 == Ok
  {
    var taken := TakenSlugs(db, owner);
    assert taken == set s | s in ServicesOf(db, owner) :: db.services[s].slug;
    TakenCount(db, ServicesOf(db, owner), taken);
    Slug.SomeCandidateFree(Slug.Base(db.library[offer].name), taken);
    AddTakesSmallestFree(db, id, owner, offer, category);
  }
}
