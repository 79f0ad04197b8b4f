/** Changes of what a kid may see: when the rows that come into view agree on two databases, the kid's views
    agree after the change. */
module KidGrants {
  import opened Base
  import opened Schema
  import opened Statements
  import opened Listings
  import opened KidIsolation
  import MigratedStore
  import M = Migrations
  import G = Gatus

  // ---- views, row by row

  ghost predicate SameServiceRows(db1: Db, db2: Db, list: set<Id>)
  {
    forall s | s in list ::
      s in db1.services && s in db2.services && db1.services[s].(owner := 0) == db2.services[s].(owner := 0)
  }

  /** A category, and the kid's mark on it. */
  ghost predicate SameSection(db1: Db, db2: Db, kid: Id, c: Id)
  {
    && (c in db1.categories <==> c in db2.categories)
    && (c in db1.categories ==> db1.categories[c].(owner := 0) == db2.categories[c].(owner := 0))
    && ((kid, c) in db1.collapsed <==> (kid, c) in db2.collapsed)
  }

  ghost predicate SameSectionRows(db1: Db, db2: Db, kid: Id, list: set<Id>)
  {
    forall s | s in list && s in db1.services && db1.services[s].category.Some? ::
      SameSection(db1, db2, kid, db1.services[s].category.value)
  }

  ghost predicate SameEndpoint(snap1: G.Snapshot, snap2: G.Snapshot, k: string)
  {
    (k in snap1.statuses <==> k in snap2.statuses) && (k in snap1.statuses ==> snap1.statuses[k] == snap2.statuses[k])
  }

  ghost predicate SameEndpoints(db1: Db, snap1: G.Snapshot, snap2: G.Snapshot, list: set<Id>)
  {
    forall s | s in list && s in db1.services && db1.services[s].gatusKey != "" ::
      SameEndpoint(snap1, snap2, db1.services[s].gatusKey)
  }

  /** Icons, favorites and places of the listed services. */
  ghost predicate SameMarks(db1: Db, db2: Db, kid: Id, list: set<Id>)
  {
    && (forall s, v: Variant | s in list ::
          ((s, v) in db1.icons <==> (s, v) in db2.icons) &&
            ((s, v) in db1.icons ==> db1.icons[(s, v)] == db2.icons[(s, v)]))
    && (forall s | s in list :: (kid, s) in db1.favorites <==> (kid, s) in db2.favorites)
    && (forall s | s in list :: Place(db1, kid, s) == Place(db2, kid, s))
  }

  /** Everything a kid would be shown of the listed services is the same in both. */
  ghost predicate RowsAgree(db1: Db, snap1: G.Snapshot, db2: Db, snap2: G.Snapshot, kid: Id, list: set<Id>)
  {
    && SameServiceRows(db1, db2, list) && SameSectionRows(db1, db2, kid, list)
    && SameEndpoints(db1, snap1, snap2, list) && SameMarks(db1, db2, kid, list)
  }

  lemma SameIconViews(db1: Db, db2: Db, kid: Id, list: set<Id>)
    requires AllowList(db1, kid) == list == AllowList(db2, kid) && SameMarks(db1, db2, kid, list)
    ensures OwnIcons(db1, kid) == OwnIcons(db2, kid) && OwnFavorites(db1, kid) == OwnFavorites(db2, kid)
  {
    forall i | i in db1.icons && i.0 in list ensures i in db2.icons && db1.icons[i] == db2.icons[i] {
      assert i == (i.0, i.1);
    }
    forall i | i in db2.icons && i.0 in list ensures i in db1.icons {
      assert i == (i.0, i.1);
    }
  }

  lemma SameLayoutViews(db1: Db, db2: Db, kid: Id, list: set<Id>)
    requires AllowList(db1, kid) == list == AllowList(db2, kid) && SameMarks(db1, db2, kid, list)
    ensures OwnLayout(db1, kid) == OwnLayout(db2, kid)
  {
    forall s | s in list ensures (kid, s) in db1.layout <==> (kid, s) in db2.layout {
      assert Place(db1, kid, s) == Place(db2, kid, s);
    }
  }

  lemma SameServiceViews(db1: Db, db2: Db, kid: Id, list: set<Id>)
    requires AllowList(db1, kid) == list == AllowList(db2, kid) && SameServiceRows(db1, db2, list)
    ensures OwnServices(db1, kid) == OwnServices(db2, kid)
  {
  }

  lemma SameSectionViews(db1: Db, db2: Db, kid: Id, list: set<Id>)
    requires AllowList(db1, kid) == list == AllowList(db2, kid)
    requires OwnServices(db1, kid) == OwnServices(db2, kid) && SameSectionRows(db1, db2, kid, list)
    ensures OwnCategories(db1, kid) == OwnCategories(db2, kid) && OwnCollapsed(db1, kid) == OwnCollapsed(db2, kid)
  {
    forall c | c in CategoryIds(OwnServices(db1, kid)) ensures SameSection(db1, db2, kid, c) {
      var s :| s in OwnServices(db1, kid) && OwnServices(db1, kid)[s].category == Some(c);
      assert db1.services[s].category == Some(c);
    }
  }

  lemma SameStatusViews(db1: Db, snap1: G.Snapshot, db2: Db, snap2: G.Snapshot, kid: Id, list: set<Id>)
    requires AllowList(db1, kid) == list == AllowList(db2, kid)
    requires OwnServices(db1, kid) == OwnServices(db2, kid) && SameEndpoints(db1, snap1, snap2, list)
    ensures OwnStatuses(db1, snap1, kid) == OwnStatuses(db2, snap2, kid)
  {
    forall k | k in Keys(OwnServices(db1, kid)) ensures SameEndpoint(snap1, snap2, k) {
      var s :| s in OwnServices(db1, kid) && OwnServices(db1, kid)[s].gatusKey == k && k != "";
      assert db1.services[s].gatusKey == k;
    }
  }

  /** Two databases with one account row, equal sessions and agreeing rows have one view. */
  lemma ViewFromRows(db1: Db, snap1: G.Snapshot, db2: Db, snap2: G.Snapshot, kid: Id, list: set<Id>)
    requires AllowList(db1, kid) == list == AllowList(db2, kid) && RowsAgree(db1, snap1, db2, snap2, kid, list)
    requires kid in db1.users && kid in db2.users && db1.users[kid] == db2.users[kid]
    requires OwnSessions(db1, kid) == OwnSessions(db2, kid) && snap1.asOf == snap2.asOf
    ensures ViewOf(db1, snap1, kid) == ViewOf(db2, snap2, kid)
  {
    SameServiceViews(db1, db2, kid, list);
    SameSectionViews(db1, db2, kid, list);
    SameStatusViews(db1, snap1, db2, snap2, kid, list);
    SameIconViews(db1, db2, kid, list);
    SameLayoutViews(db1, db2, kid, list);
  }

  lemma SectionFromView(db1: Db, db2: Db, kid: Id, s: Id)
    requires OwnServices(db1, kid) == OwnServices(db2, kid) && OwnCategories(db1, kid) == OwnCategories(db2, kid)
    requires OwnCollapsed(db1, kid) == OwnCollapsed(db2, kid)
    requires s in AllowList(db1, kid) && db1.services[s].category.Some?
    ensures SameSection(db1, db2, kid, db1.services[s].category.value)
  {
    var c := db1.services[s].category.value;
    SameCategory(db1, db2, kid, s);
    assert OwnServices(db1, kid)[s].category == Some(c);
    assert c in CategoryIds(OwnServices(db1, kid));
    assert (kid, c) in db1.collapsed <==> c in OwnCollapsed(db1, kid);
    assert (kid, c) in db2.collapsed <==> c in OwnCollapsed(db2, kid);
  }

  /** One view means one allow-list, and agreeing rows on it. */
  lemma RowsFromView(db1: Db, snap1: G.Snapshot, db2: Db, snap2: G.Snapshot, kid: Id)
    requires ViewOf(db1, snap1, kid) == ViewOf(db2, snap2, kid)
    ensures AllowList(db1, kid) == AllowList(db2, kid)
    ensures RowsAgree(db1, snap1, db2, snap2, kid, AllowList(db1, kid))
  {
    var v1, v2 := ViewOf(db1, snap1, kid), ViewOf(db2, snap2, kid);
    assert v1.services == v2.services && v1.categories == v2.categories && v1.icons == v2.icons;
    assert v1.favorites == v2.favorites && v1.layout == v2.layout && v1.collapsed == v2.collapsed &&
           v1.statuses == v2.statuses;
    SameOrder(db1, db2, kid);
    forall s | s in AllowList(db1, kid)
      ensures s in db1.services && s in db2.services && db1.services[s].(owner := 0) == db2.services[s].(owner := 0)
      ensures db1.services[s].category.Some? ==> SameSection(db1, db2, kid, db1.services[s].category.value)
      ensures db1.services[s].gatusKey != "" ==> SameEndpoint(snap1, snap2, db1.services[s].gatusKey)
    {
      SameRow(db1, db2, kid, s);
      if db1.services[s].category.Some? { SectionFromView(db1, db2, kid, s); }
      SameStatus(db1, snap1, db2, snap2, kid, s);
    }
    MarksFromView(db1, db2, kid);
  }

  lemma MarksFromView(db1: Db, db2: Db, kid: Id)
    requires AllowList(db1, kid) == AllowList(db2, kid) && OwnIcons(db1, kid) == OwnIcons(db2, kid)
    requires OwnFavorites(db1, kid) == OwnFavorites(db2, kid) && OwnLayout(db1, kid) == OwnLayout(db2, kid)
    ensures SameMarks(db1, db2, kid, AllowList(db1, kid))
  {
    forall s | s in AllowList(db1, kid)
      ensures (kid, s) in db1.favorites <==> (kid, s) in db2.favorites
      ensures Place(db1, kid, s) == Place(db2, kid, s)
      ensures forall v: Variant ::
                ((s, v) in db1.icons <==> (s, v) in db2.icons) &&
                  ((s, v) in db1.icons ==> db1.icons[(s, v)] == db2.icons[(s, v)])
    {
      SameFavorite(db1, db2, kid, s);
      SamePlace(db1, db2, kid, s);
      SameIcons(db1, db2, kid, s);
    }
  }

  // ---- a new allow-list

  lemma Granted(db: Db, kid: Id, ids: seq<Id>)
    requires SetKidServices(db, kid, ids).1 == Ok
    ensures var db' := SetKidServices(db, kid, ids).0;
            && db' == db.(allowed := db'.allowed) && AllowList(db', kid) == Members(ids)
  {
    StoredList(db, kid, ids);
  }

  lemma SessionsStand(db: Db, db': Db, kid: Id)
    requires db'.sessions == db.sessions
    ensures OwnSessions(db', kid) == OwnSessions(db, kid)
  {
  }

  /** The same list saved on both sides keeps one view, when the rows that come into view agree. */
  lemma GrantKeepsView(db1: Db, snap1: G.Snapshot, db2: Db, snap2: G.Snapshot, kid: Id, ids: seq<Id>)
    requires ViewOf(db1, snap1, kid) == ViewOf(db2, snap2, kid)
    requires SetKidServices(db1, kid, ids).1 == Ok && SetKidServices(db2, kid, ids).1 == Ok
    requires RowsAgree(db1, snap1, db2, snap2, kid, Members(ids))
    ensures ViewOf(SetKidServices(db1, kid, ids).0, snap1, kid) == ViewOf(SetKidServices(db2, kid, ids).0, snap2, kid)
  {
    var d1, d2 := SetKidServices(db1, kid, ids).0, SetKidServices(db2, kid, ids).0;
    var v1, v2 := ViewOf(db1, snap1, kid), ViewOf(db2, snap2, kid);
    assert v1.user == v2.user && v1.sessions == v2.sessions && v1.asOf == v2.asOf;
    Granted(db1, kid, ids);
    Granted(db2, kid, ids);
    SessionsStand(db1, d1, kid);
    SessionsStand(db2, d2, kid);
    AllowedElsewhere(db1, d1, snap1, db2, d2, snap2, kid, Members(ids));
    ViewFromRows(d1, snap1, d2, snap2, kid, Members(ids));
  }

  lemma AllowedElsewhere(db1: Db, d1: Db, snap1: G.Snapshot, db2: Db, d2: Db, snap2: G.Snapshot, kid: Id, list: set<Id>)
    requires d1 == db1.(allowed := d1.allowed) && d2 == db2.(allowed := d2.allowed)
    requires RowsAgree(db1, snap1, db2, snap2, kid, list)
    ensures RowsAgree(d1, snap1, d2, snap2, kid, list)
  {
    assert forall s | s in list :: Place(d1, kid, s) == Place(db1, kid, s) && Place(d2, kid, s) == Place(db2, kid, s);
    forall s | s in list && s in d1.services && d1.services[s].category.Some?
      ensures SameSection(d1, d2, kid, d1.services[s].category.value)
    {
      assert SameSection(db1, db2, kid, db1.services[s].category.value);
    }
  }

  // ---- an edit of an allowed service

  /** The category and the endpoint an edit brings into view agree. */
  ghost predicate EditAgrees(db1: Db, snap1: G.Snapshot, db2: Db, snap2: G.Snapshot, kid: Id, p: ServicePatch)
  {
    && (p.category.Some? && p.category.value.Some? ==> SameSection(db1, db2, kid, p.category.value.value))
    && (p.gatusKey.Some? && p.gatusKey.value != "" ==> SameEndpoint(snap1, snap2, p.gatusKey.value))
  }

  lemma ServicesElsewhere(db1: Db, d1: Db, db2: Db, d2: Db, kid: Id, list: set<Id>)
    requires d1 == db1.(services := d1.services, library := d1.library)
    requires d2 == db2.(services := d2.services, library := d2.library)
    requires SameMarks(db1, db2, kid, list)
    ensures SameMarks(d1, d2, kid, list)
    ensures forall c :: SameSection(db1, db2, kid, c) ==> SameSection(d1, d2, kid, c)
  {
    assert forall s | s in list :: Place(d1, kid, s) == Place(db1, kid, s) && Place(d2, kid, s) == Place(db2, kid, s);
  }

  lemma EditedRows(db1: Db, snap1: G.Snapshot, db2: Db, snap2: G.Snapshot, kid: Id, id: Id, p: ServicePatch,
                   list: set<Id>)
    requires RowsAgree(db1, snap1, db2, snap2, kid, list) && EditAgrees(db1, snap1, db2, snap2, kid, p) && id in list
    ensures var d1 := db1.(services := db1.services[id := Patched(db1.services[id], p)]);
            var d2 := db2.(services := db2.services[id := Patched(db2.services[id], p)]);
            RowsAgree(d1, snap1, d2, snap2, kid, list)
  {
    var d1 := db1.(services := db1.services[id := Patched(db1.services[id], p)]);
    var d2 := db2.(services := db2.services[id := Patched(db2.services[id], p)]);
    ServicesElsewhere(db1, d1, db2, d2, kid, list);
    PatchedAlike(db1.services[id], db2.services[id], p);
    forall s | s in list && d1.services[s].category.Some?
      ensures SameSection(d1, d2, kid, d1.services[s].category.value)
    {
      var c := d1.services[s].category.value;
      assert SameSection(db1, db2, kid, c);
    }
  }

  lemma PatchedAlike(s1: Service, s2: Service, p: ServicePatch)
    requires s1.(owner := 0) == s2.(owner := 0)
    ensures Patched(s1, p).(owner := 0) == Patched(s2, p).(owner := 0)
  {
    assert s1 == s2.(owner := s1.owner) by {
      assert s1.(owner := 0).(owner := s1.owner) == s1;
    }
  }

  lemma Edited(db: Db, kid: Id, id: Id, owner: Id, p: ServicePatch)
    requires UpdateService(db, id, owner, p).1 == Ok
    ensures var d := UpdateService(db, id, owner, p).0;
            && id in db.services && d == db.(services := db.services[id := Patched(db.services[id], p)])
            && AllowList(d, kid) == AllowList(db, kid)
  {
  }

  /** The same edit of an allowed service on both sides keeps one view, when what it brings into view agrees. */
  lemma EditKeepsView(db1: Db, snap1: G.Snapshot, db2: Db, snap2: G.Snapshot, kid: Id, id: Id, owner1: Id, owner2: Id,
                      p: ServicePatch)
    requires ViewOf(db1, snap1, kid) == ViewOf(db2, snap2, kid) && id in AllowList(db1, kid)
    requires kid in db1.users && kid in db2.users
    requires UpdateService(db1, id, owner1, p).1 == Ok && UpdateService(db2, id, owner2, p).1 == Ok
    requires EditAgrees(db1, snap1, db2, snap2, kid, p)
    ensures ViewOf(UpdateService(db1, id, owner1, p).0, snap1, kid) ==
            ViewOf(UpdateService(db2, id, owner2, p).0, snap2, kid)
  {
    var d1, d2 := UpdateService(db1, id, owner1, p).0, UpdateService(db2, id, owner2, p).0;
    var v1, v2 := ViewOf(db1, snap1, kid), ViewOf(db2, snap2, kid);
    assert v1.user == v2.user && v1.sessions == v2.sessions && v1.asOf == v2.asOf;
    RowsFromView(db1, snap1, db2, snap2, kid);
    Edited(db1, kid, id, owner1, p);
    Edited(db2, kid, id, owner2, p);
    EditedRows(db1, snap1, db2, snap2, kid, id, p, AllowList(db1, kid));
    SessionsStand(db1, d1, kid);
    SessionsStand(db2, d2, kid);
    ViewFromRows(d1, snap1, d2, snap2, kid, AllowList(db1, kid));
  }

  // ---- restarts

  /** A restart of one side, or none. */
  datatype Boot = Boot(pick: map<Id, Id>, entries: seq<M.Entry>)

  function Rebooted(db: Db, boot: Option<Boot>): Db
  {
    if boot.None? then db else MigratedStore.Restarted(db, boot.value.pick, boot.value.entries)
  }

  /** The restarts leave the allowed services with the same sources. */
  ghost predicate SourcesAgree(db1: Db, boot1: Option<Boot>, db2: Db, boot2: Option<Boot>, list: set<Id>)
  {
    forall s | s in list && s in db1.services && s in db2.services ::
      Rebooted(db1, boot1).services[s].source == Rebooted(db2, boot2).services[s].source
  }

  lemma RebootedRows(db: Db, boot: Option<Boot>)
    ensures var d := Rebooted(db, boot);
            && d == db.(services := d.services, library := d.library) && d.services.Keys == db.services.Keys
            && forall s | s in db.services :: d.services[s] == db.services[s].(source := d.services[s].source)
  {
  }

  lemma ResourcedAlike(a1: Service, a2: Service, b1: Service, b2: Service)
    requires a1.(owner := 0) == a2.(owner := 0) && b1.source == b2.source
    requires b1 == a1.(source := b1.source) && b2 == a2.(source := b2.source)
    ensures b1.(owner := 0) == b2.(owner := 0) && b1.category == a1.category && b1.gatusKey == a1.gatusKey
  {
    assert a1.(owner := 0).(source := b1.source) == a2.(owner := 0).(source := b1.source);
  }

  /** Restarts on either side keep one view when they leave the allowed services with the same sources. */
  lemma RestartKeepsView(db1: Db, snap1: G.Snapshot, db2: Db, snap2: G.Snapshot, kid: Id, boot1: Option<Boot>,
                         boot2: Option<Boot>)
    requires ViewOf(db1, snap1, kid) == ViewOf(db2, snap2, kid) && kid in db1.users && kid in db2.users
    requires SourcesAgree(db1, boot1, db2, boot2, AllowList(db1, kid))
    ensures ViewOf(Rebooted(db1, boot1), snap1, kid) == ViewOf(Rebooted(db2, boot2), snap2, kid)
  {
    var d1, d2 := Rebooted(db1, boot1), Rebooted(db2, boot2);
    var list := AllowList(db1, kid);
    var v1, v2 := ViewOf(db1, snap1, kid), ViewOf(db2, snap2, kid);
    assert v1.user == v2.user && v1.sessions == v2.sessions && v1.asOf == v2.asOf;
    RowsFromView(db1, snap1, db2, snap2, kid);
    RebootedRows(db1, boot1);
    RebootedRows(db2, boot2);
    RestartedRows(db1, snap1, d1, db2, snap2, d2, kid, list);
    SessionsStand(db1, d1, kid);
    SessionsStand(db2, d2, kid);
    assert AllowList(d1, kid) == AllowList(db1, kid) && AllowList(d2, kid) == AllowList(db2, kid);
    ViewFromRows(d1, snap1, d2, snap2, kid, list);
  }

  lemma RestartedRows(db1: Db, snap1: G.Snapshot, d1: Db, db2: Db, snap2: G.Snapshot, d2: Db, kid: Id, list: set<Id>)
    requires RowsAgree(db1, snap1, db2, snap2, kid, list)
    requires d1 == db1.(services := d1.services, library := d1.library) && d1.services.Keys == db1.services.Keys
    requires d2 == db2.(services := d2.services, library := d2.library) && d2.services.Keys == db2.services.Keys
    requires forall s | s in list :: d1.services[s] == db1.services[s].(source := d1.services[s].source)
    requires forall s | s in list :: d2.services[s] == db2.services[s].(source := d2.services[s].source)
    requires forall s | s in list :: d1.services[s].source == d2.services[s].source
    ensures RowsAgree(d1, snap1, d2, snap2, kid, list)
  {
    ServicesElsewhere(db1, d1, db2, d2, kid, list);
    forall s | s in list
      ensures d1.services[s].(owner := 0) == d2.services[s].(owner := 0)
      ensures d1.services[s].category == db1.services[s].category && d1.services[s].gatusKey == db1.services[s].gatusKey
    {
      ResourcedAlike(db1.services[s], db2.services[s], d1.services[s], d2.services[s]);
    }
  }

  lemma StaysUnsourced(db: Db, boot: Boot, s: Id)
    requires s in db.services
    requires db.services[s].source.None? ==> M.Matches(db.library, db.services[s].name, db.services[s].url) == {}
    ensures s in Rebooted(db, Some(boot)).services
    ensures Rebooted(db, Some(boot)).services[s].source == db.services[s].source
  {
  }

  /** A restart of one side alone is unseen when no allowed service is waiting for a source. */
  lemma LoneRestartAgrees(db1: Db, db2: Db, kid: Id, boot: Boot)
    requires OwnServices(db1, kid) == OwnServices(db2, kid)
    requires forall s | s in AllowList(db1, kid) && db1.services[s].source.None? ::
               M.Matches(db1.library, db1.services[s].name, db1.services[s].url) == {}
    ensures SourcesAgree(db1, Some(boot), db2, None, AllowList(db1, kid))
  {
    forall s | s in AllowList(db1, kid) && s in db2.services
      ensures Rebooted(db1, Some(boot)).services[s].source == Rebooted(db2, None).services[s].source
    {
      StaysUnsourced(db1, boot, s);
      SameRow(db1, db2, kid, s);
      assert db1.services[s].(owner := 0).source == db2.services[s].(owner := 0).source;
    }
  }
}
