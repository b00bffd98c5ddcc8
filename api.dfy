/** The sync engine (services/api.ts): building the outgoing payload, sending
    one report and marking it synced on success, a best-effort pass over all
    unsynced reports, and the health probe. The network is an input: `server`
    answers each POSTed payload, and `failingUpdates` names the ids whose
    `markReportAsSynced` the persistence layer rejects. */
module Api {
  import opened Wrappers
  import opened Database

  datatype Response = Response(ok: bool, status: int, bodyParses: bool)

  /** What `fetch` does: reject (network failure, timeout) or resolve with a response. */
  datatype Fetch = Rejected | Resolved(response: Response)

  datatype SendError =
    | NetworkError            // `fetch` rejected
    | HttpError(status: int)  // the response was not ok
    | BadBody                 // `response.json()` rejected
    | StoreFailed(cause: StoreError)

  const PhotoMarker := "photo_uploaded"

  /** The request body of `sendReport`: the report with a present photo
      replaced by a marker. */
  function ToPayload(report: Report): (p: Report)
    ensures p.(photo := report.photo) == report
    ensures p.photo.Some? <==> Truthy(report.photo)
    ensures p.photo.Some? ==> p.photo.value == PhotoMarker
  {
    report.(photo := if Truthy(report.photo) then Some(PhotoMarker) else None)
  }

  /** `checkServerHealth`: never fails; any rejection collapses to false. */
  function CheckServerHealth(probe: Fetch): (healthy: bool)
    ensures healthy ==> probe.Resolved?
    ensures probe.Resolved? ==> (healthy <==> probe.response.ok)
  {
    match probe
    case Rejected => false
    case Resolved(response) => response.ok
  }

  /** The remote endpoint as the client affects it: the body of every POST
      issued, in the order issued. Every POST reaches this log whatever the
      answer, since the server may have stored a report it then failed to
      confirm. */
  class Network {
    var posted: seq<Report>

    constructor ()
      ensures posted == []
    {
      posted := [];
    }
  }

  /** The request bodies of sending each report of `rs`, in order. */
  function Payloads(rs: seq<Report>): seq<Report>
  {
    if rs == [] then [] else [ToPayload(rs[0])] + Payloads(rs[1..])
  }

  /** Sending one batch after another posts the first batch's bodies, then
      the second's. */
  lemma {:induction false} PayloadsAppend(a: seq<Report>, b: seq<Report>)
    ensures Payloads(a + b) == Payloads(a) + Payloads(b)
  {
    if a == [] {
      assert a + b == b;
    } else {
      assert (a + b)[1..] == a[1..] + b;
      PayloadsAppend(a[1..], b);
    }
  }

  /** The server accepted the payload and its body was read. */
  predicate Delivered(report: Report, server: Report -> Fetch)
  {
    var answer := server(ToPayload(report));
    answer.Resolved? && answer.response.ok && answer.response.bodyParses
  }

  /** Sending this report ends with its record marked synced. */
  predicate MarksSynced(report: Report, server: Report -> Fetch, failingUpdates: set<string>)
  {
    Delivered(report, server) && Truthy(report.id) && report.id.value !in failingUpdates
  }

  /** The table after one `sendReport` of `report`. */
  function SendEffect(t: Table, report: Report, server: Report -> Fetch, failingUpdates: set<string>): Table
  {
    if MarksSynced(report, server, failingUpdates) then MarkedSynced(t, report.id.value) else t
  }

  /** `sendReport`: POST the payload; a rejection, a non-ok status or an
      unreadable body is rethrown and marks nothing; after success the record
      is marked only when the report has an id. */
  method SendReport(store: ReportStore, net: Network, report: Report, server: Report -> Fetch, failingUpdates: set<string>)
    returns (r: Outcome<SendError>)
    requires store.Valid()
    modifies store, net
    ensures store.Valid()
    ensures net.posted == old(net.posted) + [ToPayload(report)]
    ensures server(ToPayload(report)).Rejected? ==> r == Fail(NetworkError)
    ensures server(ToPayload(report)).Resolved? && !server(ToPayload(report)).response.ok ==>
      r == Fail(HttpError(server(ToPayload(report)).response.status))
    ensures (server(ToPayload(report)).Resolved? && server(ToPayload(report)).response.ok
             && !server(ToPayload(report)).response.bodyParses) ==> r == Fail(BadBody)
    ensures Delivered(report, server) && Truthy(report.id) && report.id.value in failingUpdates ==>
      r == Fail(StoreFailed(IoFailure))
    ensures r.Pass? <==> Delivered(report, server) && !(Truthy(report.id) && report.id.value in failingUpdates)
    ensures r.Fail? ==> store.reports == old(store.reports)
    ensures store.reports == SendEffect(old(store.reports), report, server, failingUpdates)
    ensures OnlySyncedAdvances(old(store.reports), store.reports)
  {
    var payload := ToPayload(report);
    net.posted := net.posted + [payload];
    var answer := server(payload);
    if answer.Rejected? {
      return Fail(NetworkError);
    }
    if !answer.response.ok {
      return Fail(HttpError(answer.response.status));
    }
    if !answer.response.bodyParses {
      return Fail(BadBody);
    }
    if Truthy(report.id) {
      var marked := store.MarkReportAsSynced(report.id.value, report.id.value in failingUpdates);
      if marked.Fail? {
        return Fail(StoreFailed(marked.error));
      }
    }
    r := Pass;
  }

  /** The table after sending each report of `rs` in turn, failures ignored. */
  ghost function MarkAll(t: Table, rs: seq<Report>, server: Report -> Fetch, failingUpdates: set<string>): Table
    decreases |rs|
  {
    if rs == [] then t
    else SendEffect(MarkAll(t, rs[..|rs| - 1], server, failingUpdates), rs[|rs| - 1], server, failingUpdates)
  }

  /** Some attempt in `rs` marks the record stored under `k`. */
  ghost predicate MarkedBy(rs: seq<Report>, k: string, server: Report -> Fetch, failingUpdates: set<string>)
  {
    exists i :: 0 <= i < |rs| && rs[i].id == Some(k) && MarksSynced(rs[i], server, failingUpdates)
  }

  /** The specification of one pass: every unsynced record whose send
      succeeds becomes synced; every other record is left as it was. */
  ghost function SyncPass(t: Table, server: Report -> Fetch, failingUpdates: set<string>): Table
  {
    map k | k in t ::
      if t[k].synced == Some(false) && MarksSynced(t[k], server, failingUpdates)
      then t[k].(synced := Some(true)) else t[k]
  }

  /** Sending a batch raises exactly the flags of the records some attempt
      marks, whatever else the batch holds. */
  lemma {:induction false} MarkAllRaisesMarked(t: Table, rs: seq<Report>, server: Report -> Fetch, failingUpdates: set<string>)
    ensures MarkAll(t, rs, server, failingUpdates) ==
      map k | k in t ::
        if MarkedBy(rs, k, server, failingUpdates) then t[k].(synced := Some(true)) else t[k]
    decreases |rs|
  {
    var want := map k | k in t ::
      if MarkedBy(rs, k, server, failingUpdates) then t[k].(synced := Some(true)) else t[k];
    if rs == [] {
      assert MarkAll(t, rs, server, failingUpdates) == want;
    } else {
      var init, last := rs[..|rs| - 1], rs[|rs| - 1];
      MarkAllRaisesMarked(t, init, server, failingUpdates);
      var before := MarkAll(t, init, server, failingUpdates);
      forall k | k in t
        ensures MarkedBy(rs, k, server, failingUpdates) <==>
          MarkedBy(init, k, server, failingUpdates) || (last.id == Some(k) && MarksSynced(last, server, failingUpdates))
      {
        if MarkedBy(rs, k, server, failingUpdates) {
          var i :| 0 <= i < |rs| && rs[i].id == Some(k) && MarksSynced(rs[i], server, failingUpdates);
          if i < |rs| - 1 {
            assert init[i] == rs[i];
          }
        }
        if MarkedBy(init, k, server, failingUpdates) {
          var i :| 0 <= i < |init| && init[i].id == Some(k) && MarksSynced(init[i], server, failingUpdates);
          assert rs[i] == init[i];
        }
      }
      assert MarkAll(t, rs, server, failingUpdates) == SendEffect(before, last, server, failingUpdates);
    }
  }

  /** The order of the attempts does not matter: any two batches holding
      the same reports leave the same table. */
  lemma MarkAllOrderIndependent(t: Table, rs1: seq<Report>, rs2: seq<Report>, server: Report -> Fetch, failingUpdates: set<string>)
    requires forall r :: r in rs1 <==> r in rs2
    ensures MarkAll(t, rs1, server, failingUpdates) == MarkAll(t, rs2, server, failingUpdates)
  {
    MarkAllRaisesMarked(t, rs1, server, failingUpdates);
    MarkAllRaisesMarked(t, rs2, server, failingUpdates);
    forall k | k in t
      ensures MarkedBy(rs1, k, server, failingUpdates) <==> MarkedBy(rs2, k, server, failingUpdates)
    {
      if MarkedBy(rs1, k, server, failingUpdates) {
        var i :| 0 <= i < |rs1| && rs1[i].id == Some(k) && MarksSynced(rs1[i], server, failingUpdates);
        assert rs1[i] in rs2;
      }
      if MarkedBy(rs2, k, server, failingUpdates) {
        var i :| 0 <= i < |rs2| && rs2[i].id == Some(k) && MarksSynced(rs2[i], server, failingUpdates);
        assert rs2[i] in rs1;
      }
    }
  }

  /** Sending every record of the unsynced snapshot, in any order, performs
      exactly the pass the specification describes. */
  lemma SnapshotPassIsSyncPass(t: Table, rs: seq<Report>, server: Report -> Fetch, failingUpdates: set<string>)
    requires WellFormed(t)
    requires Enumerates(rs, Unsynced(t))
    ensures MarkAll(t, rs, server, failingUpdates) == SyncPass(t, server, failingUpdates)
  {
    MarkAllRaisesMarked(t, rs, server, failingUpdates);
    forall k | k in t
      ensures MarkedBy(rs, k, server, failingUpdates) <==>
        t[k].synced == Some(false) && MarksSynced(t[k], server, failingUpdates)
    {
      if MarkedBy(rs, k, server, failingUpdates) {
        var i :| 0 <= i < |rs| && rs[i].id == Some(k) && MarksSynced(rs[i], server, failingUpdates);
        UnsyncedIsFilter(t, rs[i]);
        var k' :| k' in t && t[k'] == rs[i];
        assert k' == k;
      }
      if t[k].synced == Some(false) && MarksSynced(t[k], server, failingUpdates) {
        UnsyncedIsFilter(t, t[k]);
        var i :| 0 <= i < |rs| && rs[i] == t[k];
      }
    }
  }

  /** After a pass the records still pending are exactly the unsynced ones
      whose attempt failed, unchanged; nothing else changed but flags. */
  lemma SyncPassLeavesFailures(t: Table, server: Report -> Fetch, failingUpdates: set<string>)
    requires WellFormed(t)
    ensures var after := SyncPass(t, server, failingUpdates);
      && after.Keys == t.Keys
      && WellFormed(after)
      && OnlySyncedAdvances(t, after)
      && Unsynced(after) == map k | k in Unsynced(t) && !MarksSynced(t[k], server, failingUpdates) :: t[k]
  {
  }

  /** A second pass with the same answers changes nothing more. */
  lemma SyncPassIdempotent(t: Table, server: Report -> Fetch, failingUpdates: set<string>)
    requires WellFormed(t)
    ensures SyncPass(SyncPass(t, server, failingUpdates), server, failingUpdates) == SyncPass(t, server, failingUpdates)
  {
  }

  /** The `Promise.allSettled` join, run one attempt after another: sends
      each report of the batch once and swallows every failure. */
  method SendAll(store: ReportStore, net: Network, batch: seq<Report>, server: Report -> Fetch, failingUpdates: set<string>)
    requires store.Valid()
    modifies store, net
    ensures store.Valid()
    ensures net.posted == old(net.posted) + Payloads(batch)
    ensures store.reports == MarkAll(old(store.reports), batch, server, failingUpdates)
  {
    ghost var t0, p0 := store.reports, net.posted;
    var i := 0;
    while i < |batch|
      invariant 0 <= i <= |batch|
      invariant store.Valid()
      invariant net.posted == p0 + Payloads(batch[..i])
      invariant store.reports == MarkAll(t0, batch[..i], server, failingUpdates)
    {
      assert batch[..i + 1][..i] == batch[..i];
      assert batch[..i + 1] == batch[..i] + [batch[i]];
      PayloadsAppend(batch[..i], [batch[i]]);
      var _ := SendReport(store, net, batch[i], server, failingUpdates);
      i := i + 1;
    }
    assert batch[..i] == batch;
  }

  /** `syncPendingReports`: offline, nothing is read or sent; otherwise every
      unsynced record is sent once, individual failures are swallowed, and a
      failed read ends the pass quietly. Returns the reports handed to
      `sendReport`; the network receives exactly their payloads. */
  method SyncPendingReports(store: ReportStore, net: Network, online: bool, readFault: bool,
                            server: Report -> Fetch, failingUpdates: set<string>)
    returns (attempted: seq<Report>)
    requires store.Valid()
    modifies store, net
    ensures store.Valid()
    ensures net.posted == old(net.posted) + Payloads(attempted)
    ensures !online || readFault ==> attempted == [] && store.reports == old(store.reports)
    ensures online && !readFault ==> Enumerates(attempted, Unsynced(old(store.reports)))
    ensures store.reports == if online && !readFault then SyncPass(old(store.reports), server, failingUpdates)
                             else old(store.reports)
    ensures OnlySyncedAdvances(old(store.reports), store.reports)
  {
    attempted := [];
    assert Payloads(attempted) == [];
    if !online {
      return;
    }
    ghost var t0 := store.reports;
    var unsynced := store.GetUnsyncedReports(readFault);
    if unsynced.Failure? {
      return;
    }
    var snapshot := unsynced.value;
    SyncPassLeavesFailures(t0, server, failingUpdates);
    SnapshotPassIsSyncPass(t0, snapshot, server, failingUpdates);
    if |snapshot| == 0 {
      return;
    }
    SendAll(store, net, snapshot, server, failingUpdates);
    attempted := snapshot;
  }
}
