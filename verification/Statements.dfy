/** The effect of each store method on the tables. A method is one transaction: it takes effect
    completely or returns an error and leaves the tables as they were. */
module Statements {
  import opened Base
  import opened Ordering
  import opened Schema
  import S = SessionSpec
  import Slug
  import UserAgent

  // ---- foreign keys: ON DELETE CASCADE and ON DELETE SET NULL

  function WithoutServices(db: Db, gone: set<Id>): Db
  {
    db.(services := (map s | s in db.services && s !in gone :: db.services[s]),
        favorites := (set f | f in db.favorites && f.1 !in gone),
        layout := (map l | l in db.layout && l.1 !in gone :: db.layout[l]),
        icons := (map i | i in db.icons && i.0 !in gone :: db.icons[i]),
        allowed := (set a | a in db.allowed && a.1 !in gone))
  }

  function Uncategorized(s: Service, gone: set<Id>): Service
  {
    if s.category.Some? && s.category.value in gone then s.(category := None) else s
  }

  function UncategorizedAll(services: map<Id, Service>, gone: set<Id>): map<Id, Service>
  {
    map s | s in services :: Uncategorized(services[s], gone)
  }

  function WithoutCategories(db: Db, gone: set<Id>): Db
  {
    db.(categories := db.categories - gone,
        services := UncategorizedAll(db.services, gone),
        collapsed := (set c | c in db.collapsed && c.1 !in gone))
  }

  function ServicesOf(db: Db, owner: Id): set<Id>
  {
    set s | s in db.services && db.services[s].owner == owner
  }

  function CategoriesOf(db: Db, owner: Id): set<Id>
  {
    set c | c in db.categories && db.categories[c].owner == owner
  }

  function WithoutOwnRows(db: Db, user: Id): Db
  {
    db.(users := (map u | u in db.users && u != user :: db.users[u]),
        favorites := (set f | f in db.favorites && f.0 != user),
        layout := (map l | l in db.layout && l.0 != user :: db.layout[l]),
        allowed := (set a | a in db.allowed && a.0 != user),
        collapsed := (set c | c in db.collapsed && c.0 != user),
        sessions := (map t | t in db.sessions && db.sessions[t].userID != user :: db.sessions[t]))
  }

  /** Deletes a user with everything that refers to it. */
  function WithoutUser(db: Db, user: Id): Db
  {
    WithoutOwnRows(WithoutCategories(WithoutServices(db, ServicesOf(db, user)), CategoriesOf(db, user)), user)
  }

  function Unlinked(s: Service, offer: Id): Service
  {
    if s.source == Some(offer) then s.(source := None) else s
  }

  function UnlinkedAll(services: map<Id, Service>, offer: Id): map<Id, Service>
  {
    map s | s in services :: Unlinked(services[s], offer)
  }

  function WithoutOffer(db: Db, offer: Id): Db
  {
    db.(library := db.library - {offer}, services := UnlinkedAll(db.services, offer))
  }

  // ---- users

  function DefaultUptime(db: Db): bool
  {
    if db.uptimeDefault.Some? then db.uptimeDefault.value else true
  }

  function AddUser(db: Db, id: Id, u: User): Db
  {
    db.(users := db.users[id := u], now := db.now + 1)
  }

  predicate HasEmail(db: Db, email: string)
  {
    exists u | u in db.users :: EmailKey(db.users[u]) == Some(Fold(email))
  }

  predicate HasKidName(db: Db, id: Id, name: string)
  {
    exists u | u in db.users :: u != id && KidKey(db.users[u]) == Some(Fold(name))
  }

  function CreateUser(db: Db, id: Id, email: string, hash: string, role: Role): (Db, Err)
  {
    if !IsAdultRole(role) then (db, Internal)
    else if HasEmail(db, email) then (db, EmailTaken)
    else
      var u := User(Some(email), Some(hash), role, db.now, None, None, System, Compact, true, DefaultUptime(db));
      (AddUser(db, id, u), Ok)
  }

  function CreateKid(db: Db, id: Id, name: string, color: string): (Db, Err)
  {
    if HasKidName(db, id, name) then (db, KidNameTaken)
    else
      var u := User(None, None, Kid, db.now, Some(name), Some(color), System, Large, false, DefaultUptime(db));
      (AddUser(db, id, u), Ok)
  }

  predicate IsKid(db: Db, id: Id)
  {
    id in db.users && db.users[id].role.Kid?
  }

  function UpdateKid(db: Db, id: Id, name: Option<string>, color: Option<string>): (Db, Err)
  {
    if !IsKid(db, id) then (db, NotFound)
    else if name.Some? && HasKidName(db, id, name.value) then (db, KidNameTaken)
    else
      var u := db.users[id];
      (db.(users := db.users[id := u.(displayName := if name.Some? then name else u.displayName,
                                      avatarColor := if color.Some? then color else u.avatarColor)]), Ok)
  }

  function DeleteKid(db: Db, id: Id): (Db, Err)
  {
    if IsKid(db, id) then (WithoutUser(db, id), Ok) else (db, NotFound)
  }

  /** One personal preference; the handler writes only the session's own user. */
  datatype Pref =
    ThemePref(theme: Theme) | DensityPref(density: Density) | HealthBarPref(show: bool) | UptimePref(show: bool)

  function WithPref(u: User, p: Pref): User
  {
    match p
    case ThemePref(theme) => u.(theme := theme)
    case DensityPref(density) => u.(density := density)
    case HealthBarPref(show) => u.(showHealthBar := show)
    case UptimePref(show) => u.(showUptime := show)
  }

  function SetPref(db: Db, id: Id, p: Pref): (Db, Err)
  {
    if id in db.users then (db.(users := db.users[id := WithPref(db.users[id], p)]), Ok) else (db, NotFound)
  }

  // ---- allow-lists

  function SharedServices(db: Db): set<Id>
  {
    set s | s in db.services && SharedOwner(db.users) == Some(db.services[s].owner)
  }

  function Members(ids: seq<Id>): set<Id>
  {
    set x | x in ids
  }

  function Pairs(kid: Id, services: set<Id>): set<(Id, Id)>
  {
    set s | s in services :: (kid, s)
  }

  function SetKidServices(db: Db, kid: Id, ids: seq<Id>): (Db, Err)
  {
    if !IsKid(db, kid) then (db, NotFound)
    else if !(Members(ids) <= SharedServices(db)) then (db, UnknownService)
    else (db.(allowed := (set a | a in db.allowed && a.0 != kid) + Pairs(kid, Members(ids))), Ok)
  }

  // ---- services

  predicate HasSlug(db: Db, id: Id, owner: Id, slug: string)
  {
    exists s | s in db.services :: s != id && db.services[s].owner == owner && db.services[s].slug == slug
  }

  function CreateService(db: Db, id: Id, sv: Service): (Db, Err)
  {
    var row := sv.(category := None, source := None);
    if HasSlug(db, id, sv.owner, sv.slug) then (db, SlugTaken)
    else if sv.owner !in db.users then (db, Internal)
    else (db.(services := db.services[id := row]), Ok)
  }

  /** A field that is None stays; `category` is three-state: unset, cleared, or assigned. */
  datatype ServicePatch = ServicePatch(
    slug: Option<string>, name: Option<string>, description: Option<string>, url: Option<string>, icon: Option<string>,
    gatusKey: Option<string>, category: Option<Option<Id>>, click: Option<ClickAction>)

  function Or<T>(o: Option<T>, d: T): T { if o.Some? then o.value else d }

  function Patched(s: Service, p: ServicePatch): Service
  {
    s.(slug := Or(p.slug, s.slug), name := Or(p.name, s.name), description := Or(p.description, s.description),
       url := Or(p.url, s.url), icon := Or(p.icon, s.icon), gatusKey := Or(p.gatusKey, s.gatusKey),
       category := Or(p.category, s.category), click := Or(p.click, s.click))
  }

  predicate OwnsCategory(db: Db, owner: Id, c: Id)
  {
    c in db.categories && db.categories[c].owner == owner
  }

  predicate OwnsService(db: Db, owner: Id, s: Id)
  {
    s in db.services && db.services[s].owner == owner
  }

  function UpdateService(db: Db, id: Id, owner: Id, p: ServicePatch): (Db, Err)
  {
    if p.category.Some? && p.category.value.Some? && !OwnsCategory(db, owner, p.category.value.value) then
      (db, CategoryNotFound)
    else if !OwnsService(db, owner, id) then (db, NotFound)
    else if p.slug.Some? && HasSlug(db, id, owner, p.slug.value) then (db, SlugTaken)
    else (db.(services := db.services[id := Patched(db.services[id], p)]), Ok)
  }

  function DeleteService(db: Db, id: Id, owner: Id): (Db, Err)
  {
    if OwnsService(db, owner, id) then (WithoutServices(db, {id}), Ok) else (db, NotFound)
  }

  function PutIcon(db: Db, s: Id, owner: Id, v: Variant, icon: Icon): (Db, Err)
  {
    if OwnsService(db, owner, s) then (db.(icons := db.icons[(s, v) := icon]), Ok) else (db, NotFound)
  }

  function DeleteIcon(db: Db, s: Id, owner: Id, v: Variant): (Db, Err)
  {
    if OwnsService(db, owner, s) then (db.(icons := db.icons - {(s, v)}), Ok) else (db, NotFound)
  }

  // ---- favorites, layout, collapsed sections

  function AddFavorite(db: Db, u: Id, s: Id): (Db, Err)
  {
    if u in db.users && s in db.services then (db.(favorites := db.favorites + {(u, s)}), Ok) else (db, NotFound)
  }

  function RemoveFavorite(db: Db, u: Id, s: Id): (Db, Err)
  {
    (db.(favorites := db.favorites - {(u, s)}), Ok)
  }

  predicate Distinct(ids: seq<Id>)
  {
    forall i, j | 0 <= i < j < |ids| :: ids[i] != ids[j]
  }

  function IndexOf(ids: seq<Id>, x: Id): (k: nat)
    requires x in ids
    ensures k < |ids| && ids[k] == x && forall i | 0 <= i < k :: ids[i] != x
  {
    if ids[0] == x then 0 else 1 + IndexOf(ids[1..], x)
  }

  /** `user`'s placements replaced by the positions of `ids`. */
  function Placed(layout: map<(Id, Id), int>, user: Id, ids: seq<Id>): map<(Id, Id), int>
  {
    map l | l in (set k | k in layout && k.0 != user) + (set s | s in ids :: (user, s)) ::
      if l.0 == user && l.1 in ids then IndexOf(ids, l.1) else if l in layout then layout[l] else 0
  }

  /** The error of the first id that cannot be placed: an unknown one, or one placed before. */
  function LayoutError(db: Db, ids: seq<Id>, before: set<Id>): Err
  {
    if ids == [] then Ok
    else if ids[0] !in db.services then NotFound
    else if ids[0] in before then Internal
    else LayoutError(db, ids[1..], before + {ids[0]})
  }

  function SetLayout(db: Db, u: Id, ids: seq<Id>): (Db, Err)
  {
    if u !in db.users && ids != [] then (db, NotFound)
    else if LayoutError(db, ids, {}) != Ok then (db, LayoutError(db, ids, {}))
    else (db.(layout := Placed(db.layout, u, ids)), Ok)
  }

  /** The ids that name a live category; the others are dropped. */
  function LiveSections(db: Db, u: Id, ids: seq<Id>): set<(Id, Id)>
  {
    set c | c in db.categories && c in ids :: (u, c)
  }

  function SetCollapsed(db: Db, u: Id, ids: seq<Id>): (Db, Err)
  {
    var kept := LiveSections(db, u, ids);
    if u !in db.users && kept != {} then (db, Internal)
    else (db.(collapsed := (set c | c in db.collapsed && c.0 != u) + kept), Ok)
  }

  // ---- categories

  predicate HasName(db: Db, id: Id, owner: Id, name: string)
  {
    exists c | c in db.categories :: c != id && db.categories[c].owner == owner && db.categories[c].name == name
  }

  /** COALESCE(max(sort_index) + 1, 0) over the given categories. */
  function NextIndex(cats: map<Id, Category>, among: set<Id>): (n: int)
    requires among <= cats.Keys
    ensures forall c | c in among :: cats[c].sortIndex < n
    ensures n == 0 || among != {}
  {
    if among == {} then 0
    else
      var q := Arrange(among, (a, b) => ByIndexDown(cats, a, b));
      FirstIsLeast(q, among, (a, b) => ByIndexDown(cats, a, b));
      cats[q[0]].sortIndex + 1
  }

  predicate ByIndexDown(cats: map<Id, Category>, a: Id, b: Id)
  {
    a in cats && b in cats &&
      (cats[a].sortIndex > cats[b].sortIndex || (cats[a].sortIndex == cats[b].sortIndex && a < b))
  }

  const DEFAULT_SPAN := 6

  function CreateCategory(db: Db, id: Id, owner: Id, name: string): (Db, Err)
  {
    if HasName(db, id, owner, name) then (db, NameTaken)
    else if owner !in db.users then (db, Internal)
    else
      var sortIndex := NextIndex(db.categories, CategoriesOf(db, owner));
      (db.(categories := db.categories[id := Category(owner, name, sortIndex, DEFAULT_SPAN)]),
       Ok)
  }

  function RenameCategory(db: Db, id: Id, owner: Id, name: string): (Db, Err)
  {
    if !OwnsCategory(db, owner, id) then (db, NotFound)
    else if HasName(db, id, owner, name) then (db, NameTaken)
    else (db.(categories := db.categories[id := db.categories[id].(name := name)]), Ok)
  }

  function SetCategoryWidth(db: Db, id: Id, owner: Id, width: int): (Db, Err)
  {
    if !OwnsCategory(db, owner, id) then (db, NotFound)
    else if !ValidSpan(width) then (db, Internal)
    else (db.(categories := db.categories[id := db.categories[id].(width := width)]), Ok)
  }

  /** The last position of `x` in `ids`. */
  function LastIndexOf(ids: seq<Id>, x: Id): (k: nat)
    requires x in ids
    ensures k < |ids| && ids[k] == x && forall i | k < i < |ids| :: ids[i] != x
  {
    if ids[|ids| - 1] == x then |ids| - 1 else LastIndexOf(ids[..|ids| - 1], x)
  }

  function Reindexed(cats: map<Id, Category>, ids: seq<Id>): map<Id, Category>
  {
    map c | c in cats :: if c in ids then cats[c].(sortIndex := LastIndexOf(ids, c)) else cats[c]
  }

  function SetCategoryOrder(db: Db, owner: Id, ids: seq<Id>): (Db, Err)
  {
    if !(Members(ids) <= CategoriesOf(db, owner)) then (db, NotFound)
    else (db.(categories := Reindexed(db.categories, ids)), Ok)
  }

  function DeleteCategory(db: Db, id: Id, owner: Id): (Db, Err)
  {
    if OwnsCategory(db, owner, id) then (WithoutCategories(db, {id}), Ok) else (db, Ok)
  }

  // ---- the App Library

  function CreateOffer(db: Db, id: Id, offer: Offer): (Db, Err)
  {
    (db.(library := db.library[id := offer]), Ok)
  }

  function UpdateOffer(db: Db, id: Id, offer: Offer): (Db, Err)
  {
    if id in db.library then (db.(library := db.library[id := offer]), Ok) else (db, NotFound)
  }

  function DeleteOffer(db: Db, id: Id): (Db, Err)
  {
    (WithoutOffer(db, id), Ok)
  }

  function TakenSlugs(db: Db, owner: Id): set<string>
  {
    set s | s in db.services && db.services[s].owner == owner :: db.services[s].slug
  }

  /** The smallest free candidate from the `i`th on, or 0. */
  function FreeCandidate(db: Db, owner: Id, base: string, i: nat): (k: nat)
    requires 1 <= i <= Slug.MAX_CANDIDATES + 1
    ensures k == 0 ==> forall j | i <= j <= Slug.MAX_CANDIDATES :: Slug.Candidate(base, j) in TakenSlugs(db, owner)
    ensures k != 0 ==> i <= k <= Slug.MAX_CANDIDATES && Slug.Candidate(base, k) !in TakenSlugs(db, owner)
                       && forall j | i <= j < k :: Slug.Candidate(base, j) in TakenSlugs(db, owner)
    decreases Slug.MAX_CANDIDATES + 1 - i
  {
    if i > Slug.MAX_CANDIDATES then 0
    else if Slug.Candidate(base, i) !in TakenSlugs(db, owner) then i
    else FreeCandidate(db, owner, base, i + 1)
  }

  function AddFromLibrary(db: Db, id: Id, owner: Id, offer: Id, category: Option<Id>): (Db, Err)
  {
    if offer !in db.library then (db, NotFound)
    else if category.Some? && !OwnsCategory(db, owner, category.value) then (db, CategoryNotFound)
    else
      var o := db.library[offer];
      var base := Slug.Base(o.name);
      var k := FreeCandidate(db, owner, base, 1);
      if k == 0 then (db, SlugTaken)
      else if owner !in db.users then (db, Internal)
      else
        (db.(services := db.services[id :=
              Service(owner, Slug.Candidate(base, k), o.name, o.description, o.url, o.icon, "", category, Some(offer),
                NewTab)]),
         Ok)
  }

  // ---- sessions

  function CreateSession(db: Db, token: S.Token, handle: nat, user: Id, lifetime: int, ua: UserAgent.Bytes,
                         clock: int): (Db, Err)
  {
    if user !in db.users || lifetime <= 0 then (db, Internal)
    else (db.(sessions := S.Create(db.sessions, token, handle, user, lifetime, ua, clock).0), Ok)
  }

  function Slide(db: Db, token: S.Token, lifetime: int, clock: int): Db
  {
    db.(sessions := S.Touch(db.sessions, token, lifetime, clock).0)
  }
}
