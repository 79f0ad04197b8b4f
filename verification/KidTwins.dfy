/** Equal calls on a kid's services, categories, sessions or account: made on two databases with one view of
    the kid, they leave one view. */
module KidTwins {
  import opened Base
  import opened Schema
  import opened Statements
  import opened Listings
  import opened StoreInvariant
  import opened KidIsolation
  import opened KidGrants
  import KidUnseen
  import S = SessionSpec
  import G = Gatus

  // ---- which calls are equal

  /** The call without the caller's identity, which is each side's own admin. */
  function Anonymous(op: Op): Op
  {
    match op
    case Catalog(DeleteServiceOp(id, _)) => Catalog(DeleteServiceOp(id, 0))
    case Catalog(PutIconOp(id, _, variant, icon)) => Catalog(PutIconOp(id, 0, variant, icon))
    case Catalog(DeleteIconOp(id, _, variant)) => Catalog(DeleteIconOp(id, 0, variant))
    case Section(RenameCategoryOp(id, _, name)) => Section(RenameCategoryOp(id, 0, name))
    case Section(SetCategoryWidthOp(id, _, width)) => Section(SetCategoryWidthOp(id, 0, width))
    case Section(SetCategoryOrderOp(_, ids)) => Section(SetCategoryOrderOp(0, ids))
    case Section(DeleteCategoryOp(id, _)) => Section(DeleteCategoryOp(id, 0))
    case _ => op
  }

  /** Calls that can change what the kid sees, besides a new allow-list and an edit of a service. */
  predicate Paired(op: Op, kid: Id)
  {
    match op
    case Account(a) => (a.UpdateKidOp? || a.SetPrefOp?) && a.id == kid
    case Catalog(c) => c.DeleteServiceOp? || c.PutIconOp? || c.DeleteIconOp? || c.DeleteOfferOp?
    case Section(s) => s.RenameCategoryOp? || s.SetCategoryWidthOp? || s.SetCategoryOrderOp? || s.DeleteCategoryOp?
    case Session(o) => (o.CreateSessionOp? || o.RevokeOp?) ==> o.user == kid
  }

  /** The call is accepted. Deleting a category that is not the caller's is accepted and does nothing. */
  predicate TakesEffect(db: Db, op: Op)
  {
    Apply(db, op).1 == Ok &&
    (op.Section? && op.s.DeleteCategoryOp? ==> OwnsCategory(db, op.s.owner, op.s.id))
  }

  predicate Twins(db1: Db, op1: Op, db2: Db, op2: Op, kid: Id)
  {
    && Paired(op1, kid) && Anonymous(op1) == Anonymous(op2)
    && (TakesEffect(db1, op1) <==> TakesEffect(db2, op2))
  }

  lemma PairedBoth(op1: Op, op2: Op, kid: Id)
    requires Paired(op1, kid) && Anonymous(op1) == Anonymous(op2)
    ensures Paired(op2, kid)
  {
  }

  // ---- from rows to views

  lemma ViewStands(db1: Db, snap1: G.Snapshot, d1: Db, db2: Db, snap2: G.Snapshot, d2: Db, kid: Id, list: set<Id>)
    requires ViewOf(db1, snap1, kid) == ViewOf(db2, snap2, kid) && kid in db1.users && kid in db2.users
    requires d1.users == db1.users && d1.sessions == db1.sessions && AllowList(d1, kid) == list
    requires d2.users == db2.users && d2.sessions == db2.sessions && AllowList(d2, kid) == list
    requires RowsAgree(d1, snap1, d2, snap2, kid, list)
    ensures ViewOf(d1, snap1, kid) == ViewOf(d2, snap2, kid)
  {
    var v1, v2 := ViewOf(db1, snap1, kid), ViewOf(db2, snap2, kid);
    assert v1.user == v2.user && v1.sessions == v2.sessions && v1.asOf == v2.asOf;
    SessionsStand(db1, d1, kid);
    SessionsStand(db2, d2, kid);
    ViewFromRows(d1, snap1, d2, snap2, kid, list);
  }

  // ---- categories

  lemma CategoriesRewritten(db1: Db, snap1: G.Snapshot, d1: Db, db2: Db, snap2: G.Snapshot, d2: Db, kid: Id)
    requires ViewOf(db1, snap1, kid) == ViewOf(db2, snap2, kid) && kid in db1.users && kid in db2.users
    requires d1 == db1.(categories := d1.categories) && d2 == db2.(categories := d2.categories)
    requires forall c :: SameSection(db1, db2, kid, c) ==> SameSection(d1, d2, kid, c)
    ensures ViewOf(d1, snap1, kid) == ViewOf(d2, snap2, kid)
  {
    RowsFromView(db1, snap1, db2, snap2, kid);
    var list := AllowList(db1, kid);
    assert AllowList(d1, kid) == list && AllowList(d2, kid) == AllowList(db2, kid);
    assert forall s | s in list :: Place(d1, kid, s) == Place(db1, kid, s) && Place(d2, kid, s) == Place(db2, kid, s);
    ViewStands(db1, snap1, d1, db2, snap2, d2, kid, list);
  }

  /** What a rename, a width or an order makes of a category. */
  function Rewritten(s: SectionOp, c: Id, row: Category): Category
  {
    if s.RenameCategoryOp? && s.id == c then row.(name := s.name)
    else if s.SetCategoryWidthOp? && s.id == c then row.(width := s.width)
    else if s.SetCategoryOrderOp? && c in s.ids then row.(sortIndex := LastIndexOf(s.ids, c))
    else row
  }

  function RewrittenAll(db: Db, s: SectionOp): Db
  {
    db.(categories := map c | c in db.categories :: Rewritten(s, c, db.categories[c]))
  }

  lemma RewrittenAlike(s1: SectionOp, s2: SectionOp, c: Id, row1: Category, row2: Category)
    requires Anonymous(Section(s1)) == Anonymous(Section(s2)) && row1.(owner := 0) == row2.(owner := 0)
    ensures Rewritten(s1, c, row1).(owner := 0) == Rewritten(s2, c, row2).(owner := 0)
  {
    assert row1 == row2.(owner := row1.owner) by { assert row1.(owner := 0).(owner := row1.owner) == row1; }
  }

  /** A rename, a width or an order, of categories the kid sees or not. */
  lemma SectionTwins(db1: Db, snap1: G.Snapshot, d1: Db, s1: SectionOp, db2: Db, snap2: G.Snapshot, d2: Db,
                     s2: SectionOp, kid: Id)
    requires ViewOf(db1, snap1, kid) == ViewOf(db2, snap2, kid) && kid in db1.users && kid in db2.users
    requires Anonymous(Section(s1)) == Anonymous(Section(s2))
    requires d1 == RewrittenAll(db1, s1) && d2 == RewrittenAll(db2, s2)
    ensures ViewOf(d1, snap1, kid) == ViewOf(d2, snap2, kid)
  {
    forall c | SameSection(db1, db2, kid, c) ensures SameSection(d1, d2, kid, c) {
      if c in db1.categories { RewrittenAlike(s1, s2, c, db1.categories[c], db2.categories[c]); }
    }
    CategoriesRewritten(db1, snap1, d1, db2, snap2, d2, kid);
  }

  lemma UncategorizedAlike(s1: Service, s2: Service, gone: set<Id>)
    requires s1.(owner := 0) == s2.(owner := 0)
    ensures Uncategorized(s1, gone).(owner := 0) == Uncategorized(s2, gone).(owner := 0)
  {
    assert s1 == s2.(owner := s1.owner) by { assert s1.(owner := 0).(owner := s1.owner) == s1; }
  }

  lemma CategoriesGoneMarks(db1: Db, db2: Db, kid: Id, list: set<Id>, gone: set<Id>)
    requires SameMarks(db1, db2, kid, list)
    ensures SameMarks(WithoutCategories(db1, gone), WithoutCategories(db2, gone), kid, list)
  {
    var d1, d2 := WithoutCategories(db1, gone), WithoutCategories(db2, gone);
    assert forall s | s in list :: Place(d1, kid, s) == Place(db1, kid, s) && Place(d2, kid, s) == Place(db2, kid, s);
  }

  lemma SectionWithout(db1: Db, db2: Db, kid: Id, c: Id, gone: set<Id>)
    requires SameSection(db1, db2, kid, c)
    ensures SameSection(WithoutCategories(db1, gone), WithoutCategories(db2, gone), kid, c)
  {
  }

  lemma CategoriesGoneRows(db1: Db, snap1: G.Snapshot, db2: Db, snap2: G.Snapshot, kid: Id, list: set<Id>,
                           gone: set<Id>)
    requires RowsAgree(db1, snap1, db2, snap2, kid, list)
    ensures RowsAgree(WithoutCategories(db1, gone), snap1, WithoutCategories(db2, gone), snap2, kid, list)
  {
    var d1, d2 := WithoutCategories(db1, gone), WithoutCategories(db2, gone);
    CategoriesGoneMarks(db1, db2, kid, list, gone);
    forall s | s in list
      ensures d1.services[s].(owner := 0) == d2.services[s].(owner := 0)
      ensures d1.services[s].gatusKey == db1.services[s].gatusKey
      ensures d1.services[s].category.Some? ==> SameSection(d1, d2, kid, d1.services[s].category.value)
    {
      UncategorizedAlike(db1.services[s], db2.services[s], gone);
      if d1.services[s].category.Some? { SectionWithout(db1, db2, kid, d1.services[s].category.value, gone); }
    }
  }

  lemma AllowedStand(db: Db, kid: Id, gone: set<Id>)
    ensures AllowList(WithoutCategories(db, gone), kid) == AllowList(db, kid)
  {
  }

  lemma CategoryGoneTwins(db1: Db, snap1: G.Snapshot, d1: Db, db2: Db, snap2: G.Snapshot, d2: Db, kid: Id,
                          gone: set<Id>)
    requires ViewOf(db1, snap1, kid) == ViewOf(db2, snap2, kid) && kid in db1.users && kid in db2.users
    requires d1 == WithoutCategories(db1, gone) && d2 == WithoutCategories(db2, gone)
    ensures ViewOf(d1, snap1, kid) == ViewOf(d2, snap2, kid)
  {
    RowsFromView(db1, snap1, db2, snap2, kid);
    AllowedStand(db1, kid, gone);
    AllowedStand(db2, kid, gone);
    CategoriesGoneRows(db1, snap1, db2, snap2, kid, AllowList(db1, kid), gone);
    ViewStands(db1, snap1, d1, db2, snap2, d2, kid, AllowList(db1, kid));
  }

  // ---- services, icons, offers

  lemma ServicesGoneRows(db1: Db, snap1: G.Snapshot, db2: Db, snap2: G.Snapshot, kid: Id, list: set<Id>, gone: set<Id>)
    requires RowsAgree(db1, snap1, db2, snap2, kid, list)
    ensures RowsAgree(WithoutServices(db1, gone), snap1, WithoutServices(db2, gone), snap2, kid, list - gone)
  {
    var d1, d2 := WithoutServices(db1, gone), WithoutServices(db2, gone);
    assert forall s | s in list - gone ::
             Place(d1, kid, s) == Place(db1, kid, s) && Place(d2, kid, s) == Place(db2, kid, s);
    forall s | s in list - gone && d1.services[s].category.Some?
      ensures SameSection(d1, d2, kid, d1.services[s].category.value)
    {
      assert SameSection(db1, db2, kid, db1.services[s].category.value);
    }
  }

  lemma AllowedAfter(db: Db, kid: Id, gone: set<Id>)
    ensures AllowList(WithoutServices(db, gone), kid) == AllowList(db, kid) - gone
  {
    var d := WithoutServices(db, gone);
    assert forall s :: s in d.services && (kid, s) in d.allowed <==>
                       s in db.services && (kid, s) in db.allowed && s !in gone;
  }

  lemma ServiceGoneTwins(db1: Db, snap1: G.Snapshot, d1: Db, db2: Db, snap2: G.Snapshot, d2: Db, kid: Id, gone: set<Id>)
    requires ViewOf(db1, snap1, kid) == ViewOf(db2, snap2, kid) && kid in db1.users && kid in db2.users
    requires d1 == WithoutServices(db1, gone) && d2 == WithoutServices(db2, gone)
    ensures ViewOf(d1, snap1, kid) == ViewOf(d2, snap2, kid)
  {
    RowsFromView(db1, snap1, db2, snap2, kid);
    AllowedAfter(db1, kid, gone);
    AllowedAfter(db2, kid, gone);
    ServicesGoneRows(db1, snap1, db2, snap2, kid, AllowList(db1, kid), gone);
    ViewStands(db1, snap1, d1, db2, snap2, d2, kid, AllowList(db1, kid) - gone);
  }

  ghost predicate SameIcon(db1: Db, db2: Db, i: (Id, Variant))
  {
    (i in db1.icons <==> i in db2.icons) && (i in db1.icons ==> db1.icons[i] == db2.icons[i])
  }

  lemma IconRows(db1: Db, snap1: G.Snapshot, d1: Db, db2: Db, snap2: G.Snapshot, d2: Db, kid: Id, list: set<Id>)
    requires RowsAgree(db1, snap1, db2, snap2, kid, list)
    requires d1 == db1.(icons := d1.icons) && d2 == db2.(icons := d2.icons)
    requires forall i | SameIcon(db1, db2, i) :: SameIcon(d1, d2, i)
    ensures RowsAgree(d1, snap1, d2, snap2, kid, list)
  {
    forall s, v: Variant | s in list ensures SameIcon(d1, d2, (s, v)) {
      assert SameIcon(db1, db2, (s, v));
    }
    assert forall s | s in list :: Place(d1, kid, s) == Place(db1, kid, s) && Place(d2, kid, s) == Place(db2, kid, s);
    assert forall c :: SameSection(db1, db2, kid, c) ==> SameSection(d1, d2, kid, c);
  }

  lemma IconTwins(db1: Db, snap1: G.Snapshot, d1: Db, db2: Db, snap2: G.Snapshot, d2: Db, kid: Id)
    requires ViewOf(db1, snap1, kid) == ViewOf(db2, snap2, kid) && kid in db1.users && kid in db2.users
    requires d1 == db1.(icons := d1.icons) && d2 == db2.(icons := d2.icons)
    requires forall i | SameIcon(db1, db2, i) :: SameIcon(d1, d2, i)
    ensures ViewOf(d1, snap1, kid) == ViewOf(d2, snap2, kid)
  {
    RowsFromView(db1, snap1, db2, snap2, kid);
    var list := AllowList(db1, kid);
    assert AllowList(d1, kid) == list && AllowList(d2, kid) == AllowList(db2, kid);
    IconRows(db1, snap1, d1, db2, snap2, d2, kid, list);
    ViewStands(db1, snap1, d1, db2, snap2, d2, kid, list);
  }

  lemma UnlinkedAlike(s1: Service, s2: Service, offer: Id)
    requires s1.(owner := 0) == s2.(owner := 0)
    ensures Unlinked(s1, offer).(owner := 0) == Unlinked(s2, offer).(owner := 0)
  {
    assert s1 == s2.(owner := s1.owner) by { assert s1.(owner := 0).(owner := s1.owner) == s1; }
  }

  lemma OfferGoneRows(db1: Db, snap1: G.Snapshot, db2: Db, snap2: G.Snapshot, kid: Id, list: set<Id>, offer: Id)
    requires RowsAgree(db1, snap1, db2, snap2, kid, list)
    ensures RowsAgree(WithoutOffer(db1, offer), snap1, WithoutOffer(db2, offer), snap2, kid, list)
  {
    var d1, d2 := WithoutOffer(db1, offer), WithoutOffer(db2, offer);
    ServicesElsewhere(db1, d1, db2, d2, kid, list);
    forall s | s in list
      ensures d1.services[s].(owner := 0) == d2.services[s].(owner := 0)
      ensures d1.services[s].category == db1.services[s].category && d1.services[s].gatusKey == db1.services[s].gatusKey
    {
      UnlinkedAlike(db1.services[s], db2.services[s], offer);
    }
  }

  lemma OfferGoneTwins(db1: Db, snap1: G.Snapshot, d1: Db, db2: Db, snap2: G.Snapshot, d2: Db, kid: Id, offer: Id)
    requires ViewOf(db1, snap1, kid) == ViewOf(db2, snap2, kid) && kid in db1.users && kid in db2.users
    requires d1 == WithoutOffer(db1, offer) && d2 == WithoutOffer(db2, offer)
    ensures ViewOf(d1, snap1, kid) == ViewOf(d2, snap2, kid)
  {
    var list := AllowList(db1, kid);
    RowsFromView(db1, snap1, db2, snap2, kid);
    assert AllowList(d1, kid) == list && AllowList(d2, kid) == AllowList(db2, kid);
    OfferGoneRows(db1, snap1, db2, snap2, kid, list, offer);
    ViewStands(db1, snap1, d1, db2, snap2, d2, kid, list);
  }

  // ---- calls on the catalog

  lemma ServiceDeleted(db: Db, id: Id, owner: Id)
    requires ApplyCatalog(db, DeleteServiceOp(id, owner)).1 == Ok
    ensures ApplyCatalog(db, DeleteServiceOp(id, owner)).0 == WithoutServices(db, {id})
  {
  }

  lemma IconEffect(db: Db, c: CatalogOp)
    requires ApplyCatalog(db, c).1 == Ok
    ensures c.PutIconOp? ==> ApplyCatalog(db, c).0 == db.(icons := db.icons[(c.id, c.variant) := c.icon])
    ensures c.DeleteIconOp? ==> ApplyCatalog(db, c).0 == db.(icons := db.icons - {(c.id, c.variant)})
  {
  }

  lemma IconsFollow(db1: Db, d1: Db, c1: CatalogOp, db2: Db, d2: Db, c2: CatalogOp)
    requires (c1.PutIconOp? || c1.DeleteIconOp?) && Anonymous(Catalog(c1)) == Anonymous(Catalog(c2))
    requires ApplyCatalog(db1, c1) == (d1, Ok) && ApplyCatalog(db2, c2) == (d2, Ok)
    ensures d1 == db1.(icons := d1.icons) && d2 == db2.(icons := d2.icons)
    ensures forall i | SameIcon(db1, db2, i) :: SameIcon(d1, d2, i)
  {
    IconEffect(db1, c1);
    IconEffect(db2, c2);
  }

  lemma RewriteEffect(db: Db, s: SectionOp)
    requires s.RenameCategoryOp? || s.SetCategoryWidthOp? || s.SetCategoryOrderOp?
    requires ApplySection(db, s).1 == Ok
    ensures ApplySection(db, s).0 == RewrittenAll(db, s)
  {
    assert ApplySection(db, s).0.categories == RewrittenAll(db, s).categories;
  }

  lemma CatalogTwins(db1: Db, snap1: G.Snapshot, d1: Db, c1: CatalogOp, db2: Db, snap2: G.Snapshot, d2: Db,
                     c2: CatalogOp, kid: Id)
    requires ViewOf(db1, snap1, kid) == ViewOf(db2, snap2, kid) && kid in db1.users && kid in db2.users
    requires Paired(Catalog(c1), kid) && Anonymous(Catalog(c1)) == Anonymous(Catalog(c2))
    requires ApplyCatalog(db1, c1) == (d1, Ok) && ApplyCatalog(db2, c2) == (d2, Ok)
    ensures ViewOf(d1, snap1, kid) == ViewOf(d2, snap2, kid)
  {
    if c1.PutIconOp? || c1.DeleteIconOp? {
      IconsFollow(db1, d1, c1, db2, d2, c2);
      IconTwins(db1, snap1, d1, db2, snap2, d2, kid);
    } else if c1.DeleteServiceOp? {
      ServiceDeleted(db1, c1.id, c1.owner);
      ServiceDeleted(db2, c2.id, c2.owner);
      ServiceGoneTwins(db1, snap1, d1, db2, snap2, d2, kid, {c1.id});
    } else {
      OfferGoneTwins(db1, snap1, d1, db2, snap2, d2, kid, c1.id);
    }
  }

  lemma CategoryDeleted(db: Db, id: Id, owner: Id)
    requires OwnsCategory(db, owner, id)
    ensures ApplySection(db, DeleteCategoryOp(id, owner)).0 == WithoutCategories(db, {id})
  {
  }

  lemma CategoryTwins(db1: Db, snap1: G.Snapshot, d1: Db, s1: SectionOp, db2: Db, snap2: G.Snapshot, d2: Db,
                      s2: SectionOp, kid: Id)
    requires ViewOf(db1, snap1, kid) == ViewOf(db2, snap2, kid) && kid in db1.users && kid in db2.users
    requires Paired(Section(s1), kid) && Anonymous(Section(s1)) == Anonymous(Section(s2))
    requires TakesEffect(db1, Section(s1)) && TakesEffect(db2, Section(s2))
    requires d1 == ApplySection(db1, s1).0 && d2 == ApplySection(db2, s2).0
    ensures ViewOf(d1, snap1, kid) == ViewOf(d2, snap2, kid)
  {
    if s1.DeleteCategoryOp? {
      CategoryDeleted(db1, s1.id, s1.owner);
      CategoryDeleted(db2, s2.id, s2.owner);
      CategoryGoneTwins(db1, snap1, d1, db2, snap2, d2, kid, {s1.id});
    } else {
      RewriteEffect(db1, s1);
      RewriteEffect(db2, s2);
      SectionTwins(db1, snap1, d1, s1, db2, snap2, d2, s2, kid);
    }
  }

  // ---- sessions

  /** What a session call does to a set of stored sessions. */
  function SessionsAfter(m: S.Sessions, op: SessionOp): S.Sessions
  {
    match op
    case CreateSessionOp(token, handle, user, lifetime, ua, clock) =>
      S.Create(m, token, handle, user, lifetime, ua, clock).0
    case TouchOp(token, lifetime, clock) => S.Touch(m, token, lifetime, clock).0
    case DestroyOp(token) => S.Destroy(m, token)
    case RevokeOp(user, handle) => S.RevokeByHandle(m, user, handle).0
    case SweepOp(clock) => S.DeleteExpired(m, clock).0
  }

  /** On the kid's own sessions a call does what it does to the whole table. */
  lemma OwnSessionsFollow(db: Db, op: SessionOp, kid: Id)
    requires FreshSession(db, op) && Paired(Session(op), kid) && TakesEffect(db, Session(op))
    ensures OwnSessions(ApplySession(db, op).0, kid) == SessionsAfter(OwnSessions(db, kid), op)
  {
    var own := OwnSessions(db, kid);
    match op
    case CreateSessionOp(token, handle, user, lifetime, ua, clock) =>
      OwnRowWritten(db, kid, token, S.NewSession(handle, user, lifetime, ua, S.ClockNow(clock)));
    case TouchOp(token, lifetime, clock) => OwnTouched(db, kid, token, lifetime, clock);
    case DestroyOp(token) =>
    case RevokeOp(user, handle) => RevokedOwn(db, user, handle, kid);
    case SweepOp(clock) => OwnSwept(db, kid, clock);
  }

  lemma OwnRowWritten(db: Db, kid: Id, token: S.Token, sess: S.Session)
    requires sess.userID == kid
    ensures OwnSessions(db.(sessions := db.sessions[token := sess]), kid) == OwnSessions(db, kid)[token := sess]
  {
  }

  lemma OwnTouched(db: Db, kid: Id, token: S.Token, lifetime: int, clock: int)
    ensures OwnSessions(db.(sessions := S.Touch(db.sessions, token, lifetime, clock).0), kid) ==
            S.Touch(OwnSessions(db, kid), token, lifetime, clock).0
  {
  }

  lemma OwnSwept(db: Db, kid: Id, clock: int)
    ensures OwnSessions(db.(sessions := S.DeleteExpired(db.sessions, clock).0), kid) ==
            S.DeleteExpired(OwnSessions(db, kid), clock).0
  {
  }

  lemma RevokedOwn(db: Db, user: Id, handle: nat, kid: Id)
    requires user == kid
    ensures S.Named(OwnSessions(db, kid), user, handle) == S.Named(db.sessions, user, handle)
  {
  }

  lemma ViewWithSessions(db: Db, m: S.Sessions, snap: G.Snapshot, kid: Id)
    ensures ViewOf(db.(sessions := m), snap, kid)
            == ViewOf(db, snap, kid).(sessions := OwnSessions(db.(sessions := m), kid))
  {
    assert AllowList(db.(sessions := m), kid) == AllowList(db, kid);
    assert OwnServices(db.(sessions := m), kid) == OwnServices(db, kid);
    assert OwnIcons(db.(sessions := m), kid) == OwnIcons(db, kid);
    assert OwnLayout(db.(sessions := m), kid) == OwnLayout(db, kid);
  }

  lemma SessionTwins(db1: Db, snap1: G.Snapshot, d1: Db, db2: Db, snap2: G.Snapshot, d2: Db, kid: Id, op: SessionOp)
    requires ViewOf(db1, snap1, kid) == ViewOf(db2, snap2, kid) && Paired(Session(op), kid)
    requires FreshSession(db1, op) && FreshSession(db2, op)
    requires TakesEffect(db1, Session(op)) && TakesEffect(db2, Session(op))
    requires d1 == ApplySession(db1, op).0 && d2 == ApplySession(db2, op).0
    ensures ViewOf(d1, snap1, kid) == ViewOf(d2, snap2, kid)
  {
    OwnSessionsFollow(db1, op, kid);
    OwnSessionsFollow(db2, op, kid);
    KidUnseen.SessionsOnlyWritten(db1, op);
    KidUnseen.SessionsOnlyWritten(db2, op);
    ViewWithSessions(db1, d1.sessions, snap1, kid);
    ViewWithSessions(db2, d2.sessions, snap2, kid);
  }

  // ---- the account

  lemma ViewWithUser(db: Db, user: User, snap: G.Snapshot, kid: Id)
    ensures ViewOf(db.(users := db.users[kid := user]), snap, kid) == ViewOf(db, snap, kid).(user := Some(user))
  {
    var db' := db.(users := db.users[kid := user]);
    assert AllowList(db', kid) == AllowList(db, kid);
    assert OwnServices(db', kid) == OwnServices(db, kid);
    assert OwnIcons(db', kid) == OwnIcons(db, kid);
    assert OwnLayout(db', kid) == OwnLayout(db, kid);
  }

  /** What an accepted call makes of the account's row. */
  function Renewed(u: User, op: AccountOp): User
  {
    match op
    case UpdateKidOp(_, name, color) =>
      u.(displayName := if name.Some? then name else u.displayName,
         avatarColor := if color.Some? then color else u.avatarColor)
    case SetPrefOp(_, pref) => WithPref(u, pref)
    case _ => u
  }

  lemma AccountEffect(db: Db, op: AccountOp, kid: Id)
    requires Paired(Account(op), kid) && TakesEffect(db, Account(op))
    ensures kid in db.users && ApplyAccount(db, op).0 == db.(users := db.users[kid := Renewed(db.users[kid], op)])
  {
  }

  lemma AccountTwins(db1: Db, snap1: G.Snapshot, d1: Db, db2: Db, snap2: G.Snapshot, d2: Db, kid: Id, op: AccountOp)
    requires ViewOf(db1, snap1, kid) == ViewOf(db2, snap2, kid) && Paired(Account(op), kid)
    requires TakesEffect(db1, Account(op)) && TakesEffect(db2, Account(op))
    requires d1 == ApplyAccount(db1, op).0 && d2 == ApplyAccount(db2, op).0
    ensures ViewOf(d1, snap1, kid) == ViewOf(d2, snap2, kid)
  {
    AccountEffect(db1, op, kid);
    AccountEffect(db2, op, kid);
    assert db1.users[kid] == db2.users[kid];
    ViewWithUser(db1, Renewed(db1.users[kid], op), snap1, kid);
    ViewWithUser(db2, Renewed(db1.users[kid], op), snap2, kid);
  }

  // ---- any pair

  lemma RefusedChangesNothing(db: Db, op: Op, kid: Id)
    requires Paired(op, kid) && !TakesEffect(db, op)
    ensures Apply(db, op).0 == db
  {
  }

  lemma OwnTwins(db1: Db, snap1: G.Snapshot, d1: Db, db2: Db, snap2: G.Snapshot, d2: Db, kid: Id, op: Op)
    requires ViewOf(db1, snap1, kid) == ViewOf(db2, snap2, kid)
    requires Fresh(db1, op) && Fresh(db2, op) && Paired(op, kid) && (op.Account? || op.Session?)
    requires TakesEffect(db1, op) && TakesEffect(db2, op) && d1 == Apply(db1, op).0 && d2 == Apply(db2, op).0
    ensures ViewOf(d1, snap1, kid) == ViewOf(d2, snap2, kid)
  {
    if op.Account? {
      AccountTwins(db1, snap1, d1, db2, snap2, d2, kid, op.a);
    } else {
      SessionTwins(db1, snap1, d1, db2, snap2, d2, kid, op.o);
    }
  }

  /** Equal calls, accepted on both sides or refused on both, keep one view of the kid. */
  lemma TwinsKeepView(db1: Db, snap1: G.Snapshot, op1: Op, db2: Db, snap2: G.Snapshot, op2: Op, kid: Id)
    requires ViewOf(db1, snap1, kid) == ViewOf(db2, snap2, kid) && kid in db1.users && kid in db2.users
    requires Fresh(db1, op1) && Fresh(db2, op2) && Twins(db1, op1, db2, op2, kid)
    ensures ViewOf(Apply(db1, op1).0, snap1, kid) == ViewOf(Apply(db2, op2).0, snap2, kid)
  {
    var d1, d2 := Apply(db1, op1).0, Apply(db2, op2).0;
    if !TakesEffect(db1, op1) {
      RefusedChangesNothing(db1, op1, kid);
      RefusedChangesNothing(db2, op2, kid);
    } else if op1.Catalog? {
      CatalogTwins(db1, snap1, d1, op1.c, db2, snap2, d2, op2.c, kid);
    } else if op1.Section? {
      CategoryTwins(db1, snap1, d1, op1.s, db2, snap2, d2, op2.s, kid);
    } else {
      OwnTwins(db1, snap1, d1, db2, snap2, d2, kid, op1);
    }
  }

  lemma CatalogKeepsAccounts(db: Db, op: CatalogOp)
    ensures var d := ApplyCatalog(db, op).0; d.users == db.users && d.sessions == db.sessions
  {
  }

  lemma SectionKeepsAccounts(db: Db, op: SectionOp)
    ensures var d := ApplySection(db, op).0; d.users == db.users && d.sessions == db.sessions
  {
  }

  lemma TwinStaysKid(db: Db, op: Op, kid: Id)
    requires IsKid(db, kid) && Paired(op, kid)
    ensures IsKid(Apply(db, op).0, kid)
  {
    match op
    case Account(_) =>
    case Catalog(c) => CatalogKeepsAccounts(db, c);
    case Section(s) => SectionKeepsAccounts(db, s);
    case Session(o) => KidUnseen.SessionsOnlyWritten(db, o);
  }
}
