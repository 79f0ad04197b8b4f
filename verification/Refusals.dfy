/** A name conflict is reported exactly when the write would break a unique index. */
module Refusals {
  import opened Base
  import opened Schema
  import opened Statements

  lemma EmailRefusedExactly(db: Db, id: Id, email: string, hash: string, role: Role, row: User)
    requires UniqueUsers(db.users) && id !in db.users && IsAdultRole(role)
    requires row.email == Some(email) && !row.role.Kid?
    ensures CreateUser(db, id, email, hash, role).1 == EmailTaken <==> !UniqueUsers(db.users[id := row])
    ensures CreateUser(db, id, email, hash, role).1 in {Ok, EmailTaken}
  {
    var users := db.users[id := row];
    if HasEmail(db, email) {
      var u :| u in db.users && EmailKey(db.users[u]) == Some(Fold(email));
      assert EmailKey(users[u]) == EmailKey(users[id]);
    }
  }

  lemma KidNameRefusedExactly(db: Db, id: Id, name: string, color: string, row: User)
    requires UniqueUsers(db.users) && id !in db.users
    requires row.role.Kid? && row.displayName == Some(name) && row.email.None?
    ensures CreateKid(db, id, name, color).1 == KidNameTaken <==> !UniqueUsers(db.users[id := row])
    ensures CreateKid(db, id, name, color).1 in {Ok, KidNameTaken}
  {
    var users := db.users[id := row];
    if HasKidName(db, id, name) {
      var u :| u in db.users && u != id && KidKey(db.users[u]) == Some(Fold(name));
      assert KidKey(users[u]) == KidKey(users[id]);
    }
  }

  lemma KidRenameRefusedExactly(db: Db, id: Id, name: string, color: Option<string>)
    requires UniqueUsers(db.users) && IsKid(db, id) && db.users[id].email.None?
    ensures UpdateKid(db, id, Some(name), color).1 == KidNameTaken <==>
            !UniqueUsers(db.users[id := db.users[id].(displayName := Some(name))])
  {
    var users := db.users[id := db.users[id].(displayName := Some(name))];
    if HasKidName(db, id, name) {
      var u :| u in db.users && u != id && KidKey(db.users[u]) == Some(Fold(name));
      assert KidKey(users[u]) == KidKey(users[id]);
    }
  }

  /** An account's email, and a kid's name, are taken when another has them up to the case of letters. */
  lemma TakenIgnoringCase(db: Db, id: Id, text: string, other: string, role: Role)
    requires IsAdultRole(role)
    ensures CreateUser(db, id, text, other, role).1 == EmailTaken <==>
            exists u :: u in db.users && db.users[u].email.Some? && SameText(db.users[u].email.value, text)
    ensures CreateKid(db, id, text, other).1 == KidNameTaken <==>
            exists u :: IsKid(db, u) && u != id && db.users[u].displayName.Some? &&
                        SameText(db.users[u].displayName.value, text)
  {
    forall u | u in db.users && db.users[u].email.Some?
      ensures EmailKey(db.users[u]) == Some(Fold(text)) <==> SameText(db.users[u].email.value, text)
    {
      FoldIsCaseless(db.users[u].email.value, text);
    }
    forall u | u in db.users && db.users[u].displayName.Some?
      ensures Fold(db.users[u].displayName.value) == Fold(text) <==> SameText(db.users[u].displayName.value, text)
    {
      FoldIsCaseless(db.users[u].displayName.value, text);
    }
    if CreateUser(db, id, text, other, role).1 == EmailTaken {
      var u :| u in db.users && EmailKey(db.users[u]) == Some(Fold(text));
    }
    if CreateKid(db, id, text, other).1 == KidNameTaken {
      var u :| u in db.users && u != id && KidKey(db.users[u]) == Some(Fold(text));
      assert IsKid(db, u);
    }
  }

  lemma SlugRefusedExactly(db: Db, id: Id, sv: Service)
    requires UniqueSlugs(db.services) && id !in db.services
    ensures CreateService(db, id, sv).1 == SlugTaken <==> !UniqueSlugs(db.services[id := sv])
  {
    var services := db.services[id := sv];
    if HasSlug(db, id, sv.owner, sv.slug) {
      var s :| s in db.services && s != id && db.services[s].owner == sv.owner && db.services[s].slug == sv.slug;
      assert services[s].slug == services[id].slug;
    }
  }

  lemma NewSlugRefusedExactly(db: Db, id: Id, owner: Id, p: ServicePatch)
    requires UniqueSlugs(db.services) && OwnsService(db, owner, id) && p.slug.Some?
    requires p.category.Some? && p.category.value.Some? ==> OwnsCategory(db, owner, p.category.value.value)
    ensures UpdateService(db, id, owner, p).1 == SlugTaken <==>
            !UniqueSlugs(db.services[id := Patched(db.services[id], p)])
  {
    var services := db.services[id := Patched(db.services[id], p)];
    if HasSlug(db, id, owner, p.slug.value) {
      var s :| s in db.services && s != id && db.services[s].owner == owner && db.services[s].slug == p.slug.value;
      assert services[s].slug == services[id].slug;
    }
  }

  lemma CategoryNameRefusedExactly(db: Db, id: Id, owner: Id, name: string, row: Category)
    requires UniqueNames(db.categories) && id !in db.categories && row.owner == owner && row.name == name
    ensures CreateCategory(db, id, owner, name).1 == NameTaken <==> !UniqueNames(db.categories[id := row])
  {
    var categories := db.categories[id := row];
    if HasName(db, id, owner, name) {
      var c :| c in db.categories && c != id && db.categories[c].owner == owner && db.categories[c].name == name;
      assert categories[c].name == categories[id].name;
    }
  }

  lemma RenameRefusedExactly(db: Db, id: Id, owner: Id, name: string)
    requires UniqueNames(db.categories) && OwnsCategory(db, owner, id)
    ensures RenameCategory(db, id, owner, name).1 == NameTaken <==>
            !UniqueNames(db.categories[id := db.categories[id].(name := name)])
  {
    var categories := db.categories[id := db.categories[id].(name := name)];
    if HasName(db, id, owner, name) {
      var c :| c in db.categories && c != id && db.categories[c].owner == owner && db.categories[c].name == name;
      assert categories[c].name == categories[id].name;
    }
  }
}
