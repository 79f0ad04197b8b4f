/** One poll from end to end: the payload's derivation, the uptime fetches, the published snapshot, and the
    tile a viewer is shown of it. */
module PollToTile {
  import opened Base
  import opened Schema
  import opened Gatus
  import opened Server
  import F = FillUptime

  /** The endpoints with the uptime maps that fillUptime returned. */
  function Filled(fetched: seq<EndpointStatus>, uptime: seq<Option<map<Window, real>>>): (out: seq<EndpointStatus>)
    requires |uptime| == |fetched|
    ensures |out| == |fetched| && forall i | 0 <= i < |out| :: out[i] == fetched[i].(uptime := uptime[i])
  {
    seq(|fetched|, i requires 0 <= i < |fetched| => fetched[i].(uptime := uptime[i]))
  }

  /** A tile's badge and its response time agree with a threshold of `ms`. */
  predicate Agrees(t: Tile, ms: nat)
  {
    && (t.status == Reported(Degraded) ==> t.responseTimeMs.Some? && t.responseTimeMs.value >= ms)
    && (t.status == Reported(Up) && ms > 0 && t.responseTimeMs.Some? ==> t.responseTimeMs.value <= ms)
    && (t.status == Reported(Unknown) || t.status == NotMonitored ==> t.responseTimeMs.None?)
  }

  lemma EndpointAgrees(r: Report, es: EndpointStatus, ms: nat, snap: Snapshot)
    requires FetchedFrom(es, r, ms * MILLISECOND)
    requires r.key != "" && r.key in snap.statuses && snap.statuses[r.key].results == es.results
    ensures var time := ResponseTimeMs(snap, r.key);
            && (es.status == Degraded ==> time.Some? && time.value >= ms)
            && (es.status == Up && ms > 0 && time.Some? ==> time.value <= ms)
            && (es.status == Unknown ==> time.None?)
  {
    TimeMatchesBadge(r, es, ms, snap);
  }

  lemma ShownIsFetched(all: seq<EndpointStatus>, snap: Snapshot, now: int, key: string) returns (i: nat)
    requires Published(snap, all, now) && key in snap.statuses
    ensures i < |all| && all[i] == snap.statuses[key] && all[i].key == key
  {
    i :| 0 <= i < |all| && all[i] == snap.statuses[key];
  }

  /** Whatever was reported, and whatever the uptime fetches left, no tile shown of the published snapshot
      contradicts itself. */
  lemma TilesAgree(reports: seq<Report>, ms: nat, fetched: seq<EndpointStatus>, uptime: seq<Option<map<Window, real>>>,
                   now: int, snap: Snapshot, db: Db, viewer: Id, s: Id)
    requires |fetched| == |reports| == |uptime|
    requires forall i | 0 <= i < |fetched| :: FetchedFrom(fetched[i], reports[i], ms * MILLISECOND)
    requires Published(snap, Filled(fetched, uptime), now)
    requires s in db.services
    ensures Agrees(TileOf(db, snap, viewer, s), ms)
  {
    var key := db.services[s].gatusKey;
    if key != "" && key in snap.statuses {
      var i := ShownIsFetched(Filled(fetched, uptime), snap, now, key);
      EndpointAgrees(reports[i], fetched[i], ms, snap);
    }
  }

  /** The windows are those that the fetches answered for endpoint `i`, each with its answer. */
  ghost predicate AnsweredAs(steps: seq<F.Step>, i: nat, windows: map<Window, real>)
  {
    forall w, v :: F.Answer(F.Cell(i, w), v) in steps <==> v == (if w in windows then Some(windows[w]) else None)
  }

  /** The uptime windows a tile shows: those the fetches answered for its endpoint, the last one reported under
      its key; none for a tile without a reported endpoint. */
  ghost predicate ShowsFetched(t: Tile, reports: seq<Report>, steps: seq<F.Step>)
  {
    if t.gatusKey == "" || !(exists i | 0 <= i < |reports| :: reports[i].key == t.gatusKey) then t.windows == map[]
    else exists i | 0 <= i < |reports| && LastUnder(reports, i, t.gatusKey) :: AnsweredAs(steps, i, t.windows)
  }

  ghost predicate LastUnder(reports: seq<Report>, i: nat, key: string)
  {
    i < |reports| && reports[i].key == key && forall j | i < j < |reports| :: reports[j].key != key
  }

  lemma {:induction false} LastExists(reports: seq<Report>, key: string, n: nat) returns (i: nat)
    requires n < |reports| && reports[n].key == key
    ensures LastUnder(reports, i, key)
    decreases |reports| - n
  {
    if j :| n < j < |reports| && reports[j].key == key {
      i := LastExists(reports, key, j);
    } else {
      i := n;
    }
  }

  /** The windows a tile takes from an endpoint's uptime map. */
  function Windows(u: Option<map<Window, real>>): map<Window, real>
  {
    if u.Some? then u.value else map[]
  }

  /** What fillUptime left for an endpoint are its windows' answers. */
  lemma CellsAnswered(endpoints: nat, steps: seq<F.Step>, i: nat)
    requires F.Run(F.Start(endpoints), steps) && F.After(F.Start(endpoints), steps).returned && i < endpoints
    ensures i < |F.After(F.Start(endpoints), steps).uptime|
    ensures AnsweredAs(steps, i, Windows(F.After(F.Start(endpoints), steps).uptime[i]))
  {
    F.ReturnsExactly(endpoints, steps);
    var after := F.After(F.Start(endpoints), steps);
    var shown := Windows(after.uptime[i]);
    forall w, v
      ensures F.Answer(F.Cell(i, w), v) in steps <==> v == (if w in shown then Some(shown[w]) else None)
    {
      assert F.Answer(F.Cell(i, w), v) in steps <==> v == F.Held(after, F.Cell(i, w));
    }
  }

  lemma TileWindows(db: Db, snap: Snapshot, viewer: Id, s: Id)
    requires s in db.services
    ensures var t, key := TileOf(db, snap, viewer, s), db.services[s].gatusKey;
            && t.gatusKey == key
            && t.windows == if key != "" && key in snap.statuses then Windows(snap.statuses[key].uptime) else map[]
  {
  }

  /** The published status under a reported key is the last endpoint's, with the windows it was left with. */
  lemma LastPublished(reports: seq<Report>, fetched: seq<EndpointStatus>, uptime: seq<Option<map<Window, real>>>,
                      now: int, snap: Snapshot, i: nat, key: string)
    requires |fetched| == |reports| == |uptime|
    requires forall j | 0 <= j < |fetched| :: fetched[j].key == reports[j].key
    requires Published(snap, Filled(fetched, uptime), now) && LastUnder(reports, i, key)
    ensures key in snap.statuses && snap.statuses[key] == fetched[i].(uptime := uptime[i])
  {
    var all := Filled(fetched, uptime);
    assert forall j | i < j < |all| :: all[j].key == reports[j].key;
    assert snap.statuses[all[i].key] == all[i];
  }

  lemma OnlyReported(reports: seq<Report>, fetched: seq<EndpointStatus>, uptime: seq<Option<map<Window, real>>>,
                     now: int, snap: Snapshot, key: string)
    requires |fetched| == |reports| == |uptime|
    requires forall j | 0 <= j < |fetched| :: fetched[j].key == reports[j].key
    requires Published(snap, Filled(fetched, uptime), now)
    requires key in snap.statuses
    ensures exists i | 0 <= i < |reports| :: reports[i].key == key
  {
    var i := ShownIsFetched(Filled(fetched, uptime), snap, now, key);
    assert reports[i].key == key;
  }

  /** A tile of the published snapshot shows the windows that were answered for its endpoint. */
  lemma WindowsFetched(reports: seq<Report>, fetched: seq<EndpointStatus>, uptime: seq<Option<map<Window, real>>>,
                       steps: seq<F.Step>, now: int, snap: Snapshot, db: Db, viewer: Id, s: Id)
    requires |fetched| == |reports| == |uptime|
    requires forall j | 0 <= j < |fetched| :: fetched[j].key == reports[j].key
    requires forall i | 0 <= i < |uptime| :: AnsweredAs(steps, i, Windows(uptime[i]))
    requires Published(snap, Filled(fetched, uptime), now)
    requires s in db.services
    ensures ShowsFetched(TileOf(db, snap, viewer, s), reports, steps)
  {
    var key := db.services[s].gatusKey;
    TileWindows(db, snap, viewer, s);
    if n :| 0 <= n < |reports| && reports[n].key == key {
      if key != "" {
        var i := LastExists(reports, key, n);
        LastPublished(reports, fetched, uptime, now, snap, i, key);
        assert AnsweredAs(steps, i, Windows(uptime[i]));
      }
    } else if key in snap.statuses {
      OnlyReported(reports, fetched, uptime, now, snap, key);
    }
  }

  // ---- the badge, the checks and the time

  /** A key is among those reported. */
  ghost predicate IsReported(reports: seq<Report>, key: string)
  {
    exists i | 0 <= i < |reports| :: reports[i].key == key
  }

  /** Unknown before the first check; down when the last one failed; degraded when it succeeded but took longer than
      the threshold, unless that is 0; else up. */
  ghost predicate ShowsHealth(r: Report, ms: nat, status: Status)
  {
    if r.results == [] then status == Unknown
    else
      var last := r.results[|r.results| - 1];
      if !last.success then status == Down
      else if ms > 0 && last.duration > ms * 1_000_000 then status == Degraded
      else status == Up
  }

  /** What a report's own latest check gives: the badge, the last 20 checks, and its whole milliseconds. */
  ghost predicate FromReport(r: Report, ms: nat, badge: Badge, checks: seq<CheckResult>, time: Option<int>)
  {
    && badge.Reported? && ShowsHealth(r, ms, badge.status) && LatestWindow(checks, r.results)
    && time == if r.results == [] || r.results[|r.results| - 1].duration <= 0 then None
               else Some(r.results[|r.results| - 1].duration / 1_000_000)
  }

  /** A tile shows its endpoint's report, the last one under its key; an endpoint that was not reported is unknown,
      and a service without one is not monitored. */
  ghost predicate ShowsReport(t: Tile, reports: seq<Report>, ms: nat)
  {
    if t.gatusKey == "" then t.status == NotMonitored && t.checks == [] && t.responseTimeMs == None
    else if !IsReported(reports, t.gatusKey) then
      t.status == Reported(Unknown) && t.checks == [] && t.responseTimeMs == None
    else
      exists i | 0 <= i < |reports| && LastUnder(reports, i, t.gatusKey) ::
        FromReport(reports[i], ms, t.status, t.checks, t.responseTimeMs)
  }

  lemma FetchedHealth(r: Report, es: EndpointStatus, ms: nat)
    requires FetchedFrom(es, r, ms * MILLISECOND)
    ensures ShowsHealth(r, ms, es.status)
  {
  }

  lemma EndpointShown(r: Report, es: EndpointStatus, ms: nat, snap: Snapshot, key: string)
    requires FetchedFrom(es, r, ms * MILLISECOND) && key != "" && key in snap.statuses
    requires snap.statuses[key].status == es.status && snap.statuses[key].results == es.results
    ensures FromReport(r, ms, StatusFor(snap, key), UptimeChecks(snap, key), ResponseTimeMs(snap, key))
  {
    FetchedHealth(r, es, ms);
    if es.results != [] { assert es.results[|es.results| - 1] == r.results[|r.results| - 1]; }
  }

  lemma TileStatus(db: Db, snap: Snapshot, viewer: Id, s: Id)
    requires s in db.services
    ensures var t, key := TileOf(db, snap, viewer, s), db.services[s].gatusKey;
            && t.gatusKey == key && t.status == StatusFor(snap, key) && t.checks == UptimeChecks(snap, key)
            && t.responseTimeMs == ResponseTimeMs(snap, key)
  {
  }

  /** Of the published snapshot every tile shows its endpoint's report. */
  lemma ReportShown(reports: seq<Report>, ms: nat, fetched: seq<EndpointStatus>,
                    uptime: seq<Option<map<Window, real>>>, now: int, snap: Snapshot, db: Db, viewer: Id, s: Id)
    requires |fetched| == |reports| == |uptime|
    requires forall i | 0 <= i < |fetched| :: FetchedFrom(fetched[i], reports[i], ms * MILLISECOND)
    requires Published(snap, Filled(fetched, uptime), now) && s in db.services
    ensures ShowsReport(TileOf(db, snap, viewer, s), reports, ms)
  {
    var key := db.services[s].gatusKey;
    TileStatus(db, snap, viewer, s);
    if n :| 0 <= n < |reports| && reports[n].key == key {
      if key != "" {
        var i := LastExists(reports, key, n);
        LastPublished(reports, fetched, uptime, now, snap, i, key);
        EndpointShown(reports[i], fetched[i], ms, snap, key);
      }
    } else if key in snap.statuses {
      OnlyReported(reports, fetched, uptime, now, snap, key);
    }
  }

  /** GET /api/status names exactly the reported keys that the caller may know, each with its report's badge. */
  lemma StatusesShown(reports: seq<Report>, ms: nat, fetched: seq<EndpointStatus>,
                      uptime: seq<Option<map<Window, real>>>, now: int, snap: Snapshot, db: Db, u: Id, key: string)
    requires |fetched| == |reports| == |uptime|
    requires forall i | 0 <= i < |fetched| :: FetchedFrom(fetched[i], reports[i], ms * MILLISECOND)
    requires Published(snap, Filled(fetched, uptime), now)
    ensures var body := StatusBody(db, snap, u);
            && (key in body <==> IsReported(reports, key) && (IsAdult(db, u) || key in AllowedKeys(db, u)))
            && (key in body ==> exists i | 0 <= i < |reports| && LastUnder(reports, i, key) ::
                  ShowsHealth(reports[i], ms, body[key]))
  {
    if n :| 0 <= n < |reports| && reports[n].key == key {
      var i := LastExists(reports, key, n);
      LastPublished(reports, fetched, uptime, now, snap, i, key);
      FetchedHealth(reports[i], fetched[i], ms);
    } else if key in snap.statuses {
      OnlyReported(reports, fetched, uptime, now, snap, key);
    }
  }

  /** A poll after the admin saved a threshold: every tile shown until the next poll shows the badge that its
      endpoint's report has under it, the report's checks and time, and the uptime windows fetched. `steps` is the
      order in which the uptime workers ran, and `uptime` what they left. */
  method PollOnce(client: Client, poller: Poller, ms: nat, reports: seq<Report>, ghost steps: seq<F.Step>,
                  uptime: seq<Option<map<Window, real>>>, now: int)
    requires F.Run(F.Start(|reports|), steps) && F.After(F.Start(|reports|), steps).returned
    requires uptime == F.After(F.Start(|reports|), steps).uptime
    modifies client, poller
    ensures client.degradedAfter == ms * MILLISECOND && poller.snapshot.asOf == now
    ensures forall i | 0 <= i < |reports| :: reports[i].key in poller.snapshot.statuses
    ensures forall db: Db, viewer: Id, s: Id | s in db.services :: Agrees(TileOf(db, poller.snapshot, viewer, s), ms)
    ensures forall db: Db, viewer: Id, s: Id | s in db.services ::
              ShowsFetched(TileOf(db, poller.snapshot, viewer, s), reports, steps)
    ensures forall db: Db, viewer: Id, s: Id | s in db.services ::
              ShowsReport(TileOf(db, poller.snapshot, viewer, s), reports, ms)
  {
    client.SetDegradedAfter(ms * MILLISECOND);
    var fetched := client.FetchAll(reports);
    F.KeepsSize(F.Start(|reports|), steps);
    var filled := Filled(fetched, uptime);
    poller.Poll(Some(filled), now);
    forall i | 0 <= i < |reports| ensures reports[i].key in poller.snapshot.statuses {
      assert filled[i].key == reports[i].key;
    }
    forall db: Db, viewer: Id, s: Id | s in db.services ensures Agrees(TileOf(db, poller.snapshot, viewer, s), ms) {
      TilesAgree(reports, ms, fetched, uptime, now, poller.snapshot, db, viewer, s);
    }
    forall i | 0 <= i < |uptime| ensures AnsweredAs(steps, i, Windows(uptime[i])) {
      CellsAnswered(|reports|, steps, i);
    }
    forall db: Db, viewer: Id, s: Id | s in db.services
      ensures ShowsFetched(TileOf(db, poller.snapshot, viewer, s), reports, steps)
    {
      WindowsFetched(reports, fetched, uptime, steps, now, poller.snapshot, db, viewer, s);
    }
    forall db: Db, viewer: Id, s: Id | s in db.services
      ensures ShowsReport(TileOf(db, poller.snapshot, viewer, s), reports, ms)
    {
      ReportShown(reports, ms, fetched, uptime, now, poller.snapshot, db, viewer, s);
    }
  }
}
