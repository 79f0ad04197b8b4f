/** The store methods that run several statements or loop. A transaction works on its own copy of
    the tables, which becomes the database at commit and is dropped on an early return. */
module Store {
  import opened Base
  import opened Schema
  import opened Statements
  import opened Listings
  import Slug

  class Database {
    var db: Db

    constructor (db: Db)
      ensures this.db == db
    {
      this.db := db;
    }

    method SetLayout(user: Id, orderedIDs: seq<Id>) returns (err: Err)
      modifies this
      ensures (db, err) == Statements.SetLayout(old(db), user, orderedIDs)
    {
      var tx := db;
      tx := tx.(layout := (map l | l in tx.layout && l.0 != user :: tx.layout[l]));
      assert tx.layout == Placed(db.layout, user, orderedIDs[..0]);
      assert Members(orderedIDs[..0]) == {} && orderedIDs[0..] == orderedIDs;
      for i := 0 to |orderedIDs|
        invariant i > 0 ==> user in db.users
        invariant tx == db.(layout := Placed(db.layout, user, orderedIDs[..i]))
        invariant LayoutError(db, orderedIDs, {}) == LayoutError(db, orderedIDs[i..], Members(orderedIDs[..i]))
        invariant db == old(db)
      {
        var id := orderedIDs[i];
        // INSERT ... SELECT ... WHERE EXISTS (the service)
        if id !in tx.services {
          return NotFound;
        }
        if user !in tx.users {
          return NotFound;    // foreign key
        }
        assert (user, id) in tx.layout <==> id in Members(orderedIDs[..i]);
        if (user, id) in tx.layout {
          return Internal;    // primary key
        }
        PlacedSnoc(db.layout, user, orderedIDs[..i], id);
        assert orderedIDs[..i + 1] == orderedIDs[..i] + [id];
        assert Members(orderedIDs[..i + 1]) == Members(orderedIDs[..i]) + {id};
        assert orderedIDs[i..][1..] == orderedIDs[i + 1..];
        tx := tx.(layout := tx.layout[(user, id) := i]);
      }
      assert orderedIDs[..|orderedIDs|] == orderedIDs;
      db := tx;
      return Ok;
    }

    method SetCategoryOrder(user: Id, orderedIDs: seq<Id>) returns (err: Err)
      modifies this
      ensures (db, err) == Statements.SetCategoryOrder(old(db), user, orderedIDs)
    {
      var tx := db;
      assert tx.categories == Reindexed(db.categories, orderedIDs[..0]);
      for i := 0 to |orderedIDs|
        invariant tx == db.(categories := Reindexed(db.categories, orderedIDs[..i]))
        invariant forall c | c in orderedIDs[..i] :: OwnsCategory(db, user, c)
        invariant db == old(db)
      {
        var id := orderedIDs[i];
        if !OwnsCategory(tx, user, id) {
          assert id in Members(orderedIDs) && id !in CategoriesOf(db, user);
          return NotFound;
        }
        ReindexedSnoc(db.categories, orderedIDs[..i], id);
        assert orderedIDs[..i + 1] == orderedIDs[..i] + [id];
        tx := tx.(categories := tx.categories[id := tx.categories[id].(sortIndex := i)]);
      }
      assert orderedIDs[..|orderedIDs|] == orderedIDs;
      db := tx;
      return Ok;
    }

    method SetKidServices(kidID: Id, serviceIDs: seq<Id>) returns (err: Err)
      modifies this
      ensures (db, err) == Statements.SetKidServices(old(db), kidID, serviceIDs)
    {
      var tx := db;
      if !IsKid(tx, kidID) {
        return NotFound;
      }
      var uniq := Unique(serviceIDs);
      // SELECT count(*) FROM services WHERE id = ANY (...) AND user_id = the shared owner
      var found := set s | s in SharedServices(tx) && s in uniq;
      assert found == SharedServices(tx) * Members(uniq);
      CountMeansAll(Members(uniq), SharedServices(tx), found);
      var known := |found|;
      if known != |uniq| {
        return UnknownService;
      }
      tx := tx.(allowed := (set a | a in tx.allowed && a.0 != kidID));
      var live := set s | s in tx.services && s in uniq;
      assert live == Members(uniq) by { assert SharedServices(db) <= tx.services.Keys; }
      tx := tx.(allowed := tx.allowed + Pairs(kidID, live));
      db := tx;
      return Ok;
    }

    /** The ids without repeats, in order of first appearance. */
    static method Unique(serviceIDs: seq<Id>) returns (uniq: seq<Id>)
      ensures Members(uniq) == Members(serviceIDs) && |uniq| == |Members(uniq)|
    {
      uniq := [];
      var seen: set<Id> := {};
      for i := 0 to |serviceIDs|
        invariant seen == Members(serviceIDs[..i]) == Members(uniq) && |uniq| == |seen|
      {
        var id := serviceIDs[i];
        assert serviceIDs[..i + 1] == serviceIDs[..i] + [id];
        if id !in seen {
          seen := seen + {id};
          uniq := uniq + [id];
        }
      }
      assert serviceIDs[..|serviceIDs|] == serviceIDs;
    }

    method SetCollapsedCategories(user: Id, categoryIDs: seq<Id>) returns (err: Err)
      modifies this
      ensures (db, err) == Statements.SetCollapsed(old(db), user, categoryIDs)
    {
      var tx := db;
      tx := tx.(collapsed := (set c | c in tx.collapsed && c.0 != user));
      var rows := LiveSections(tx, user, categoryIDs);
      assert rows == LiveSections(db, user, categoryIDs);
      if user !in tx.users && rows != {} {
        return Internal;    // foreign key
      }
      tx := tx.(collapsed := tx.collapsed + rows);
      db := tx;
      return Ok;
    }

    /** `id` is the new row's random id. */
    method AddFromLibrary(id: Id, user: Id, libraryID: Id, category: Option<Id>) returns (err: Err)
      modifies this
      ensures (db, err) == Statements.AddFromLibrary(old(db), id, user, libraryID, category)
    {
      if libraryID !in db.library {
        return NotFound;
      }
      var off := db.library[libraryID];
      if category.Some? && !OwnsCategory(db, user, category.value) {
        return CategoryNotFound;
      }
      var base := Slug.Builder.Slugify(off.name);
      if base == "" {
        base := "app";
      }
      var i := 1;
      while i <= 1000
        invariant 1 <= i <= 1001
        invariant db == old(db)
        invariant FreeCandidate(db, user, base, 1) == FreeCandidate(db, user, base, i)
      {
        var slug := Slug.Candidate(base, i);
        // INSERT; a slug collision tries the next suffix
        if slug !in TakenSlugs(db, user) {
          if user !in db.users {
            return Internal;    // foreign key
          }
          db := db.(services := db.services[id :=
            Service(user, slug, off.name, off.description, off.url, off.icon, "", category, Some(libraryID), NewTab)]);
          return Ok;
        }
        i := i + 1;
      }
      return SlugTaken;
    }

    /** None is everything, for an adult. */
    method VisibleServiceIDs(user: Id) returns (visible: Option<set<Id>>)
      requires user in db.users && forall a | a in db.allowed :: a.1 in db.services
      ensures visible == Listings.VisibleServiceIDs(db, user)
    {
      if IsAdultRole(db.users[user].role) {
        return None;
      }
      var ids: set<Id> := {};
      var rows := set a | a in db.allowed && a.0 == user;
      var rest := rows;
      while rest != {}
        invariant rest <= rows
        invariant ids == set a | a in rows - rest :: a.1
      {
        var a :| a in rest;
        ids := ids + {a.1};
        rest := rest - {a};
      }
      assert rows - rest == rows;
      AllowListRows(db, user, rows);
      return Some(ids);
    }
  }

  lemma AllowListRows(db: Db, user: Id, rows: set<(Id, Id)>)
    requires rows == set a | a in db.allowed && a.0 == user
    requires forall a | a in db.allowed :: a.1 in db.services
    ensures AllowList(db, user) == set a | a in rows :: a.1
  {
    assert forall a | a in rows :: a == (user, a.1);
    assert forall s | s in AllowList(db, user) :: (user, s) in rows && (user, s).1 == s;
  }

  lemma PlacedSnoc(layout: map<(Id, Id), int>, user: Id, ids: seq<Id>, id: Id)
    requires id !in ids
    ensures Placed(layout, user, ids + [id]) == Placed(layout, user, ids)[(user, id) := |ids|]
  {
    forall s | s in ids + [id] ensures IndexOf(ids + [id], s) == if s in ids then IndexOf(ids, s) else |ids| {
      IndexSnoc(ids, id, s);
    }
  }

  lemma {:induction false} IndexSnoc(ids: seq<Id>, id: Id, s: Id)
    requires id !in ids && s in ids + [id]
    ensures IndexOf(ids + [id], s) == if s in ids then IndexOf(ids, s) else |ids|
  {
    if ids != [] && ids[0] != s {
      assert (ids + [id])[1..] == ids[1..] + [id];
      IndexSnoc(ids[1..], id, s);
    }
  }

  lemma ReindexedSnoc(cats: map<Id, Category>, ids: seq<Id>, id: Id)
    requires id in cats
    ensures Reindexed(cats, ids + [id]) == Reindexed(cats, ids)[id := Reindexed(cats, ids)[id].(sortIndex := |ids|)]
  {
    assert (ids + [id])[..|ids|] == ids;
  }

  /** A subset counted in full is all there: the count of matches equals the size exactly then. */
  lemma CountMeansAll(asked: set<Id>, known: set<Id>, found: set<Id>)
    requires found == known * asked
    ensures |found| == |asked| <==> asked <= known
  {
    if asked <= known {
      assert found == asked;
    } else {
      var x :| x in asked && x !in known;
      assert found <= asked - {x};
      Slug.SubsetSize(found, asked - {x});
    }
  }
}
