/** The tables of the fully migrated database, and what its rows always satisfy. */
module Schema {
  import opened Base
  import opened Ordering
  import SessionSpec

  datatype Theme = System | Light | Dark
  datatype Density = Large | Compact | List
  datatype ClickAction = NewTab | SameTab | Iframe
  datatype Variant = LightIcon | DarkIcon

  datatype User = User(
    email: Option<string>, passwordHash: Option<string>, role: Role, createdAt: nat,
    displayName: Option<string>, avatarColor: Option<string>,
    theme: Theme, density: Density, showHealthBar: bool, showUptime: bool)

  /** `gatusKey` is "" for NULL, as every read coalesces it. */
  datatype Service = Service(
    owner: Id, slug: string, name: string, description: string, url: string, icon: string,
    gatusKey: string, category: Option<Id>, source: Option<Id>, click: ClickAction)

  datatype Category = Category(owner: Id, name: string, sortIndex: int, width: int)

  datatype Offer = Offer(name: string, url: string, icon: string, description: string, suggested: string,
    sortIndex: int)

  datatype Icon = Icon(bytes: seq<int>, etag: string)

  /** `now` is later than every users.created_at; `uptimeDefault` is the admin's setting, if saved. */
  datatype Db = Db(
    users: map<Id, User>,
    services: map<Id, Service>,
    categories: map<Id, Category>,
    library: map<Id, Offer>,
    favorites: set<(Id, Id)>,           // user, service
    layout: map<(Id, Id), int>,         // user, service
    icons: map<(Id, Variant), Icon>,    // service
    allowed: set<(Id, Id)>,             // kid, service
    collapsed: set<(Id, Id)>,           // user, category
    sessions: SessionSpec.Sessions,
    uptimeDefault: Option<bool>,
    now: nat)

  datatype Err =
    | Ok | NotFound | EmailTaken | SlugTaken | NameTaken | CategoryNotFound | KidNameTaken | UnknownService
    | Internal   // a constraint violation no caller maps

  predicate ValidSpan(w: int)
  {
    w == 3 || w == 4 || w == 6 || w == 12
  }

  /** Case folding of CITEXT and lower(), on ASCII letters. */
  function Fold(s: string): string
  {
    if s == [] then []
    else [if 'A' <= s[0] <= 'Z' then (s[0] as int + 32) as char else s[0]] + Fold(s[1..])
  }

  /** The same text but for the case of ASCII letters. */
  ghost predicate SameText(a: string, b: string)
  {
    |a| == |b| && forall i | 0 <= i < |a| :: SameLetter(a[i], b[i])
  }

  predicate SameLetter(a: char, b: char)
  {
    || a == b
    || ('A' <= a <= 'Z' && b as int == a as int + 32)
    || ('A' <= b <= 'Z' && a as int == b as int + 32)
  }

  lemma {:induction false} FoldIsCaseless(a: string, b: string)
    ensures Fold(a) == Fold(b) <==> SameText(a, b)
  {
    if a != [] && b != [] {
      FoldIsCaseless(a[1..], b[1..]);
      assert Fold(a)[1..] == Fold(a[1..]) && Fold(b)[1..] == Fold(b[1..]);
      assert Fold(a) == [Fold(a)[0]] + Fold(a)[1..] && Fold(b) == [Fold(b)[0]] + Fold(b)[1..];
      assert Fold(a)[0] == Fold(b)[0] <==> SameLetter(a[0], b[0]);
      if SameText(a, b) {
        assert SameText(a[1..], b[1..]);
      }
      if Fold(a) == Fold(b) {
        forall i | 0 <= i < |a| ensures SameLetter(a[i], b[i]) {
          if i > 0 { assert a[i] == a[1..][i - 1] && b[i] == b[1..][i - 1]; }
        }
      }
    }
  }

  // ---- the shared catalog

  function Admins(users: map<Id, User>): set<Id>
  {
    set u | u in users && users[u].role.Admin?
  }

  predicate Older(users: map<Id, User>, a: Id, b: Id)
  {
    a in users && b in users &&
    (users[a].createdAt < users[b].createdAt || (users[a].createdAt == users[b].createdAt && a < b))
  }

  /** SELECT id FROM users WHERE role = 'admin' ORDER BY created_at, id LIMIT 1 */
  function SharedOwner(users: map<Id, User>): Option<Id>
  {
    var q := Arrange(Admins(users), (a, b) => Older(users, a, b));
    if q == [] then None else Some(q[0])
  }

  // ---- what always holds

  /** A service's owner, category and offer exist, and the category belongs to the same owner. */
  ghost predicate ServiceRefs(services: map<Id, Service>, users: set<Id>, categories: map<Id, Category>,
                              library: set<Id>)
  {
    forall s | s in services :: ServiceRef(services[s], users, categories, library)
  }

  predicate ServiceRef(s: Service, users: set<Id>, categories: map<Id, Category>, library: set<Id>)
  {
    && s.owner in users
    && (s.category.Some? ==> s.category.value in categories && categories[s.category.value].owner == s.owner)
    && (s.source.Some? ==> s.source.value in library)
  }

  /** A category's owner exists, and its width is a span of the 12-column grid. */
  ghost predicate CategoryRows(categories: map<Id, Category>, users: set<Id>)
  {
    forall c | c in categories :: categories[c].owner in users && ValidSpan(categories[c].width)
  }

  /** Both columns of a link table refer to rows that exist. */
  ghost predicate Links(pairs: set<(Id, Id)>, left: set<Id>, right: set<Id>)
  {
    forall p | p in pairs :: p.0 in left && p.1 in right
  }

  ghost predicate IconRefs(icons: map<(Id, Variant), Icon>, services: set<Id>)
  {
    forall i | i in icons :: i.0 in services
  }

  ghost predicate SessionRefs(sessions: SessionSpec.Sessions, users: set<Id>)
  {
    forall t | t in sessions :: sessions[t].userID in users
  }

  /** Credentials are missing exactly for a kid, which always has a name. */
  ghost predicate Credentials(users: map<Id, User>)
  {
    forall u | u in users :: Credentialed(users[u])
  }

  predicate Credentialed(u: User)
  {
    && (u.role.Kid? <==> u.email.None?) && (u.role.Kid? <==> u.passwordHash.None?)
    && (u.role.Kid? ==> u.displayName.Some?) && !u.role.OtherRole?
  }

  ghost predicate CreatedInOrder(users: map<Id, User>, now: nat)
  {
    && (forall u | u in users :: users[u].createdAt < now)
    && (forall u, v | u in users && v in users && users[u].createdAt == users[v].createdAt :: u == v)
  }

  function Kids(users: map<Id, User>): set<Id>
  {
    set u | u in users && users[u].role.Kid?
  }

  /** Only kids hold allow-lists, and only of services of the shared catalog's owner. */
  ghost predicate AllowLists(allowed: set<(Id, Id)>, kids: set<Id>, services: map<Id, Service>, owner: Option<Id>)
  {
    forall a | a in allowed :: a.0 in kids && a.1 in services && owner == Some(services[a.1].owner)
  }

  ghost predicate UniqueSlugs(services: map<Id, Service>)
  {
    forall s, t | s in services && t in services && services[s].owner == services[t].owner
                  && services[s].slug == services[t].slug :: s == t
  }

  ghost predicate UniqueNames(categories: map<Id, Category>)
  {
    forall c, d | c in categories && d in categories && categories[c].owner == categories[d].owner
                  && categories[c].name == categories[d].name :: c == d
  }

  function EmailKey(u: User): Option<string>
  {
    if u.email.None? then None else Some(Fold(u.email.value))
  }

  function KidKey(u: User): Option<string>
  {
    if !u.role.Kid? || u.displayName.None? then None else Some(Fold(u.displayName.value))
  }

  ghost predicate UniqueUsers(users: map<Id, User>)
  {
    && (forall u, v | u in users && v in users && EmailKey(users[u]).Some? &&
       EmailKey(users[u]) == EmailKey(users[v]) :: u == v)
    && (forall u, v | u in users && v in users && KidKey(users[u]).Some? && KidKey(users[u]) == KidKey(users[v]) ::
         u == v)
  }

  ghost predicate Inv(db: Db)
  {
    && ServiceRefs(db.services, db.users.Keys, db.categories, db.library.Keys)
    && CategoryRows(db.categories, db.users.Keys)
    && Links(db.favorites, db.users.Keys, db.services.Keys)
    && Links(db.layout.Keys, db.users.Keys, db.services.Keys)
    && Links(db.collapsed, db.users.Keys, db.categories.Keys)
    && IconRefs(db.icons, db.services.Keys)
    && SessionRefs(db.sessions, db.users.Keys)
    && Credentials(db.users) && CreatedInOrder(db.users, db.now) && UniqueUsers(db.users)
    && AllowLists(db.allowed, Kids(db.users), db.services, SharedOwner(db.users))
    && UniqueSlugs(db.services) && UniqueNames(db.categories)
    && SessionSpec.DistinctHandles(db.sessions)
  }

  // ---- the shared owner

  /** An admin that no other admin was created before; of two created at once, the one with the smaller id. */
  predicate OldestAdmin(users: map<Id, User>, o: Id)
  {
    && o in users && users[o].role == Admin
    && forall a | a in users && users[a].role == Admin ::
         users[o].createdAt <= users[a].createdAt && (users[o].createdAt == users[a].createdAt ==> o <= a)
  }

  lemma OwnerIsOldestAdmin(users: map<Id, User>, o: Id)
    ensures SharedOwner(users) == Some(o) <==>
            o in Admins(users) && forall a | a in Admins(users) && a != o :: Older(users, o, a)
    ensures SharedOwner(users) == None <==> Admins(users) == {}
  {
    var less := (a, b) => Older(users, a, b);
    var q := Arrange(Admins(users), less);
    if q != [] { FirstIsLeast(q, Admins(users), less); }
    if Admins(users) != {} {
      var a :| a in Admins(users);
      assert a in q;
    }
  }

  /** The shared catalog's owner, said of the rows. */
  lemma OwnerMeans(users: map<Id, User>, o: Id)
    ensures SharedOwner(users) == Some(o) <==> OldestAdmin(users, o)
    ensures SharedOwner(users) == None <==> forall a | a in users :: users[a].role != Admin
  {
    OwnerIsOldestAdmin(users, o);
    assert forall a :: a in Admins(users) <==> a in users && users[a].role == Admin;
    if OldestAdmin(users, o) {
      forall a | a in Admins(users) && a != o ensures Older(users, o, a) {
        assert users[a].role == Admin;
      }
    }
    if SharedOwner(users) == Some(o) {
      forall a | a in users && users[a].role == Admin
        ensures users[o].createdAt <= users[a].createdAt && (users[o].createdAt == users[a].createdAt ==> o <= a)
      {
        assert a in Admins(users);
      }
    }
  }

  /** The owner stands while admins keep their role and creation time and new ones come later. */
  lemma OwnerStands(users: map<Id, User>, users': map<Id, User>)
    requires SharedOwner(users).Some?
    requires forall u | u in Admins(users) :: u in Admins(users') && users'[u].createdAt == users[u].createdAt
    requires forall u, a | u in Admins(users') && u !in Admins(users) && a in Admins(users) ::
               users[a].createdAt < users'[u].createdAt
    ensures SharedOwner(users') == SharedOwner(users)
  {
    var o := SharedOwner(users).value;
    OwnerIsOldestAdmin(users, o);
    OwnerIsOldestAdmin(users', o);
  }
}
