/** The catalog's queries: who owns it, who sees which services, and in what order they come. */
module Listings {
  import opened Base
  import opened Ordering
  import opened Schema
  import opened Statements

  /** The sort key of a service row for one viewer. */
  datatype Key = Key(place: Option<int>, name: string, id: Id)

  /** ORDER BY sort_index NULLS LAST, name; ties by id */
  predicate KeyLess(a: Key, b: Key)
  {
    if a.place != b.place then a.place.Some? && (b.place.None? || a.place.value < b.place.value)
    else if a.name != b.name then TextLess(a.name, b.name)
    else a.id < b.id
  }

  lemma KeyLessTotal(a: Key, b: Key, c: Key)
    ensures !KeyLess(a, a)
    ensures a.id != b.id ==> KeyLess(a, b) || KeyLess(b, a)
    ensures KeyLess(a, b) && KeyLess(b, c) ==> KeyLess(a, c)
  {
    TextLessTotal(a.name, b.name);
    if TextLess(a.name, b.name) && TextLess(b.name, c.name) { TextLessTransitive(a.name, b.name, c.name); }
  }

  /** Where `viewer` placed a service, if anywhere. */
  function Place(db: Db, viewer: Id, s: Id): Option<int>
  {
    if (viewer, s) in db.layout then Some(db.layout[(viewer, s)]) else None
  }

  function Name(db: Db, s: Id): string
  {
    if s in db.services then db.services[s].name else ""
  }

  predicate ServiceBefore(db: Db, viewer: Id, a: Id, b: Id)
  {
    KeyLess(Key(Place(db, viewer, a), Name(db, a), a), Key(Place(db, viewer, b), Name(db, b), b))
  }

  function ServiceOrder(db: Db, viewer: Id): (Id, Id) -> bool
  {
    (a: Id, b: Id) => ServiceBefore(db, viewer, a, b)
  }

  lemma ServiceOrderTotal(db: Db, viewer: Id, s: set<Id>)
    ensures StrictTotal(ServiceOrder(db, viewer), s)
  {
    forall a, b, c | a in s && b in s && c in s
      ensures !ServiceBefore(db, viewer, a, a)
      ensures a != b ==> ServiceBefore(db, viewer, a, b) || ServiceBefore(db, viewer, b, a)
      ensures ServiceBefore(db, viewer, a, b) && ServiceBefore(db, viewer, b, c) ==> ServiceBefore(db, viewer, a, c)
    {
      KeyLessTotal(Key(Place(db, viewer, a), Name(db, a), a), Key(Place(db, viewer, b), Name(db, b), b),
                   Key(Place(db, viewer, c), Name(db, c), c));
    }
  }

  /** The ids of a set of services in the viewer's order. */
  function InOrder(db: Db, viewer: Id, s: set<Id>): (q: seq<Id>)
    ensures Listing(q, s, ServiceOrder(db, viewer))
  {
    ServiceOrderTotal(db, viewer, s);
    Arrange(s, ServiceOrder(db, viewer))
  }

  /** storage.ListServices */
  function ListServices(db: Db, owner: Id, viewer: Id): seq<Id>
  {
    InOrder(db, viewer, ServicesOf(db, owner))
  }

  predicate CategoryBefore(db: Db, a: Id, b: Id)
  {
    a in db.categories && b in db.categories &&
    (db.categories[a].sortIndex < db.categories[b].sortIndex
     || (db.categories[a].sortIndex == db.categories[b].sortIndex && a < b))
  }

  /** A set of categories by sort_index. */
  function CategoriesInOrder(db: Db, s: set<Id>): (q: seq<Id>)
    requires s <= db.categories.Keys
    ensures Listing(q, s, (a, b) => CategoryBefore(db, a, b))
  {
    Arrange(s, (a, b) => CategoryBefore(db, a, b))
  }

  function ListCategories(db: Db, owner: Id): seq<Id>
  {
    CategoriesInOrder(db, CategoriesOf(db, owner))
  }

  // ---- visibility

  /** VisibleServiceIDs: None is everything; anyone but an adult gets the allow-list. */
  function VisibleServiceIDs(db: Db, u: Id): Option<set<Id>>
  {
    if u in db.users && IsAdultRole(db.users[u].role) then None
    else Some(AllowList(db, u))
  }

  function AllowList(db: Db, u: Id): set<Id>
  {
    set s | s in db.services && (u, s) in db.allowed
  }

  predicate Allows(vis: Option<set<Id>>, s: Id)
  {
    vis.None? || s in vis.value
  }

  /** The shared catalog's services a user may see. */
  function VisibleShared(db: Db, u: Id): set<Id>
  {
    set s | s in SharedServices(db) && Allows(VisibleServiceIDs(db, u), s)
  }

  /** The admin's read of a kid's list: within the shared catalog, by name. */
  function KidServiceIDs(db: Db, kid: Id): seq<Id>
  {
    var s := set s | s in SharedServices(db) && (kid, s) in db.allowed;
    NameOrderTotal(db, s);
    Arrange(s, (a, b) => NameBefore(db, a, b))
  }

  predicate NameBefore(db: Db, a: Id, b: Id)
  {
    KeyLess(Key(None, Name(db, a), a), Key(None, Name(db, b), b))
  }

  lemma NameOrderTotal(db: Db, s: set<Id>)
    ensures StrictTotal((a, b) => NameBefore(db, a, b), s)
  {
    forall a, b, c | a in s && b in s && c in s
      ensures !NameBefore(db, a, a)
      ensures a != b ==> NameBefore(db, a, b) || NameBefore(db, b, a)
      ensures NameBefore(db, a, b) && NameBefore(db, b, c) ==> NameBefore(db, a, c)
    {
      KeyLessTotal(Key(None, Name(db, a), a), Key(None, Name(db, b), b), Key(None, Name(db, c), c));
    }
  }

  /** What an admin sees of a kid's list is exactly what the kid may see. */
  lemma AdminSeesWhatKidSees(db: Db, kid: Id)
    requires Inv(db) && IsKid(db, kid)
    ensures VisibleServiceIDs(db, kid) == Some(set s | s in KidServiceIDs(db, kid))
    ensures VisibleServiceIDs(db, kid) == Some(set a | a in db.allowed && a.0 == kid :: a.1)
    ensures VisibleShared(db, kid) == VisibleServiceIDs(db, kid).value
  {
    var vis := VisibleServiceIDs(db, kid).value;
    assert vis == set s | s in SharedServices(db) && (kid, s) in db.allowed;
    assert vis == set s | s in KidServiceIDs(db, kid);
    assert forall a | a in db.allowed && a.0 == kid :: a == (kid, a.1);
    assert forall s | s in vis :: (kid, s).1 == s;
    assert vis == set a | a in db.allowed && a.0 == kid :: a.1;
  }

  lemma StoredList(db: Db, kid: Id, ids: seq<Id>)
    requires SetKidServices(db, kid, ids).1 == Ok
    ensures AllowList(SetKidServices(db, kid, ids).0, kid) == Members(ids)
  {
    var db' := SetKidServices(db, kid, ids).0;
    forall s ensures s in AllowList(db', kid) <==> s in Members(ids) {
      assert (kid, s) in db'.allowed <==> s in Members(ids);
    }
  }

  lemma OthersListStands(db: Db, kid: Id, ids: seq<Id>, k: Id)
    requires k != kid
    ensures VisibleServiceIDs(SetKidServices(db, kid, ids).0, k) == VisibleServiceIDs(db, k)
  {
    var db' := SetKidServices(db, kid, ids).0;
    assert forall s: Id :: (k, s) in db'.allowed <==> (k, s) in db.allowed;
    assert AllowList(db', k) == AllowList(db, k);
  }

  /** SetKidServices stores exactly the list it is given, or refuses it and stores nothing. */
  lemma SetKidServicesExact(db: Db, kid: Id, ids: seq<Id>)
    requires Inv(db) && IsKid(db, kid)
    ensures var (db', err) := SetKidServices(db, kid, ids);
            && (err == Ok <==> Members(ids) <= SharedServices(db)) && (err != Ok ==> err == UnknownService && db' == db)
            && (err == Ok ==> VisibleServiceIDs(db', kid) == Some(Members(ids))
                              && forall k | k != kid :: VisibleServiceIDs(db', k) == VisibleServiceIDs(db, k))
  {
    var (db', err) := SetKidServices(db, kid, ids);
    if err == Ok {
      StoredList(db, kid, ids);
      forall k | k != kid ensures VisibleServiceIDs(db', k) == VisibleServiceIDs(db, k) {
        OthersListStands(db, kid, ids, k);
      }
    }
  }
}
