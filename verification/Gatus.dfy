/** The Gatus poller: the status derived from an endpoint's history, the history kept, and the
    published snapshot. Durations are nanoseconds. */
module Gatus {
  import opened Base

  const MAX_RESULTS := 20
  const MILLISECOND := 1_000_000

  datatype Status = Up | Down | Degraded | Unknown

  datatype Window = Day | Week | Month

  datatype CheckResult = CheckResult(success: bool, timestamp: int, duration: int)

  /** One endpoint as Gatus reports it, its results oldest first. */
  datatype Report = Report(key: string, results: seq<CheckResult>)

  datatype EndpointStatus = EndpointStatus(
    key: string, status: Status, lastResultAt: int, results: seq<CheckResult>, uptime: Option<map<Window, real>>)

  datatype Snapshot = Snapshot(asOf: int, statuses: map<string, EndpointStatus>)

  /** The badge, from the latest check alone. */
  ghost predicate Badge(r: Report, degradedAfter: int, status: Status)
  {
    if r.results == [] then status == Unknown
    else
      var last := r.results[|r.results| - 1];
      && (status == Down <==> !last.success)
      && (status == Degraded <==> last.success && degradedAfter > 0 && last.duration > degradedAfter)
      && status != Unknown
  }

  /** `kept` is the most recent results, at most 20, in order. */
  ghost predicate LatestWindow(kept: seq<CheckResult>, all: seq<CheckResult>)
  {
    && |kept| == (if |all| <= 20 then |all| else 20)
    && kept == all[|all| - |kept|..]
  }

  class Client {
    var degradedAfter: int

    constructor ()
      ensures degradedAfter == 1000 * MILLISECOND
    {
      degradedAfter := 1000 * MILLISECOND;
    }

    method SetDegradedAfter(d: int)
      modifies this
      ensures degradedAfter == d
    {
      degradedAfter := d;
    }

    /** `reports` is the decoded payload. */
    method FetchAll(reports: seq<Report>) returns (out: seq<EndpointStatus>)
      ensures |out| == |reports|
      ensures forall i | 0 <= i < |out| :: FetchedFrom(out[i], reports[i], degradedAfter)
    {
      out := [];
      for i := 0 to |reports|
        invariant |out| == i && forall k | 0 <= k < i :: FetchedFrom(out[k], reports[k], degradedAfter)
      {
        var e := reports[i];
        var es := EndpointStatus(e.key, Unknown, 0, [], None);
        var n := |e.results|;
        if n > 0 {
          var last := e.results[n - 1];
          es := es.(lastResultAt := last.timestamp);
          if !last.success {
            es := es.(status := Down);
          } else if degradedAfter > 0 && last.duration > 0 && last.duration > degradedAfter {
            es := es.(status := Degraded);
          } else {
            es := es.(status := Up);
          }
          var start := 0;
          if n > MAX_RESULTS {
            start := n - MAX_RESULTS;
          }
          var kept: seq<CheckResult> := [];
          for j := start to n
            invariant kept == e.results[start..j]
          {
            kept := kept + [e.results[j]];
          }
          assert LatestWindow(kept, e.results);
          es := es.(results := kept);
        }
        assert FetchedFrom(es, e, degradedAfter);
        out := out + [es];
      }
    }
  }

  ghost predicate FetchedFrom(es: EndpointStatus, r: Report, degradedAfter: int)
  {
    && es.key == r.key
    && Badge(r, degradedAfter, es.status)
    && LatestWindow(es.results, r.results)
    && (r.results != [] ==> es.lastResultAt == r.results[|r.results| - 1].timestamp)
    && es.uptime == None
  }

  /** The latest check's whole milliseconds, or nothing when no duration is known. */
  function ResponseTimeMs(snap: Snapshot, gatusKey: string): Option<int>
  {
    if gatusKey == "" || gatusKey !in snap.statuses || snap.statuses[gatusKey].results == [] then None
    else
      var results := snap.statuses[gatusKey].results;
      var last := results[|results| - 1];
      if last.duration <= 0 then None else Some(last.duration / MILLISECOND)
  }

  /** The milliseconds a tile shows never contradict its badge, whatever the threshold in ms. */
  lemma TimeMatchesBadge(r: Report, es: EndpointStatus, thresholdMs: nat, snap: Snapshot)
    requires FetchedFrom(es, r, thresholdMs * MILLISECOND)
    requires r.key != "" && r.key in snap.statuses && snap.statuses[r.key].results == es.results
    ensures es.status == Degraded ==>
              ResponseTimeMs(snap, r.key).Some? && ResponseTimeMs(snap, r.key).value >= thresholdMs
    ensures es.status == Up && thresholdMs > 0 && ResponseTimeMs(snap, r.key).Some? ==>
              ResponseTimeMs(snap, r.key).value <= thresholdMs
  {
    if es.results != [] {
      assert es.results[|es.results| - 1] == r.results[|r.results| - 1];
    }
  }

  /** The snapshot holds exactly the endpoints under their keys, the last one of a repeated key. */
  ghost predicate Published(snap: Snapshot, all: seq<EndpointStatus>, now: int)
  {
    && snap.asOf == now
    && (forall k | k in snap.statuses :: snap.statuses[k].key == k && snap.statuses[k] in all)
    && (forall i | 0 <= i < |all| ::
          all[i].key in snap.statuses &&
          ((forall j | i < j < |all| :: all[j].key != all[i].key) ==> snap.statuses[all[i].key] == all[i]))
  }

  class Poller {
    var snapshot: Snapshot

    constructor (now: int)
      ensures snapshot == Snapshot(now, map[])
    {
      snapshot := Snapshot(now, map[]);
    }

    /** Builds the snapshot to publish; `statuses` is absent when Gatus could not be reached. */
    static method Fetch(statuses: Option<seq<EndpointStatus>>, now: int) returns (snap: Snapshot, ok: bool)
      ensures ok == statuses.Some?
      ensures if ok then Published(snap, statuses.value, now) else snap == Snapshot(now, map[])
    {
      snap := Snapshot(now, map[]);
      if statuses.None? {
        return snap, false;
      }
      var all := statuses.value;
      for i := 0 to |all|
        invariant snap.asOf == now
        invariant forall k | k in snap.statuses :: snap.statuses[k].key == k && snap.statuses[k] in all
        invariant forall p | 0 <= p < i ::
                    all[p].key in snap.statuses &&
                    ((forall j | p < j < i :: all[j].key != all[p].key) ==> snap.statuses[all[p].key] == all[p])
      {
        snap := snap.(statuses := snap.statuses[all[i].key := all[i]]);
      }
      ok := true;
    }

    /** A scheduled poll publishes what it fetched, an empty snapshot included. */
    method Poll(statuses: Option<seq<EndpointStatus>>, now: int)
      modifies this
      ensures if statuses.Some? then Published(snapshot, statuses.value, now) else snapshot == Snapshot(now, map[])
    {
      var snap, _ := Fetch(statuses, now);
      snapshot := snap;
    }

    /** A manual poll that fails leaves the published snapshot standing. */
    method PollNow(statuses: Option<seq<EndpointStatus>>, now: int) returns (snap: Snapshot, ok: bool)
      modifies this
      ensures ok == statuses.Some? && snap == snapshot
      ensures !ok ==> snapshot == old(snapshot)
      ensures ok ==> Published(snapshot, statuses.value, now)
    {
      snap, ok := Fetch(statuses, now);
      if !ok {
        return snapshot, false;
      }
      snapshot := snap;
    }
  }
}
