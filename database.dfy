/** The local report store: one table of reports keyed by `id`, each with a
    `synced` flag (services/database.ts). The table is the store's only state;
    every operation may be rejected by the persistence layer, which the model
    receives as an input (`ioFault`). */
module Database {
  import opened Wrappers

  datatype Location = Location(latitude: real, longitude: real, accuracy: real)

  /** A lost-or-found report. `kind` is the source's `type` field ("lost" or
      "found"); optional fields are `Option`s. */
  datatype Report = Report(
    id: Option<string>,
    kind: string,
    title: string,
    description: string,
    contactInfo: Option<string>,
    location: Option<Location>,
    photo: Option<string>,
    timestamp: string,
    synced: Option<bool>)

  /** The `reports` table: primary key to stored record. */
  type Table = map<string, Report>

  datatype StoreError =
    | IoFailure              // the persistence layer rejected the call (quota, corruption, ...)
    | KeyExists(key: string) // `add` of a key that is already stored

  /** JavaScript truthiness of an optional string: absent and "" are both false. */
  predicate Truthy(s: Option<string>)
  {
    s.Some? && s.value != ""
  }

  /** Every stored record sits under its own id and carries a synced flag. */
  ghost predicate WellFormed(t: Table)
  {
    forall k :: k in t ==> t[k].id == Some(k) && t[k].synced.Some?
  }

  /** The primary key `add` uses: the report's own id, or the key the
      auto-increment would generate when the report has none. */
  function KeyOf(report: Report, generatedKey: string): string
  {
    if report.id.Some? then report.id.value else generatedKey
  }

  /** The record `saveReport` writes: the report under `key`, unsynced. */
  function AsStored(report: Report, key: string): Report
  {
    report.(id := Some(key), synced := Some(false))
  }

  /** The stored records whose `synced` flag is false. */
  function Unsynced(t: Table): Table
  {
    map k | k in t && t[k].synced == Some(false) :: t[k]
  }

  /** The table after `update(id, {synced: true})`; a missing key is a no-op. */
  function MarkedSynced(t: Table, id: string): Table
  {
    if id in t then t[id := t[id].(synced := Some(true))] else t
  }

  /** What every store operation promises about records it does not remove:
      only the synced flag may change, and only from false to true (never
      from true to false). */
  ghost predicate OnlySyncedAdvances(before: Table, after: Table)
  {
    forall k :: k in before && k in after ==>
      && after[k] == before[k].(synced := after[k].synced)
      && (before[k].synced == Some(true) ==> after[k].synced == Some(true))
  }

  /** `rs` lists every record of `t` exactly once (order unspecified, as
      for `toArray` over the table). */
  ghost predicate Enumerates(rs: seq<Report>, t: Table)
  {
    && |rs| == |t|
    && (forall i :: 0 <= i < |rs| ==> rs[i] in t.Values)
    && (forall k :: k in t ==> t[k] in rs)
    && (forall i, j :: 0 <= i < j < |rs| ==> rs[i] != rs[j])
  }

  /** Reads the records of a table into an array, one by one. */
  method ListRecords(t: Table) returns (rs: seq<Report>)
    requires WellFormed(t)
    ensures Enumerates(rs, t)
  {
    rs := [];
    var pending := t.Keys;
    while pending != {}
      invariant pending <= t.Keys
      invariant |rs| + |pending| == |t.Keys|
      invariant forall i :: 0 <= i < |rs| ==>
        rs[i].id.Some? && rs[i].id.value in t.Keys - pending && t[rs[i].id.value] == rs[i]
      invariant forall k :: k in t.Keys - pending ==> t[k] in rs
      invariant forall i, j :: 0 <= i < j < |rs| ==> rs[i] != rs[j]
      decreases pending
    {
      var k :| k in pending;
      rs := rs + [t[k]];
      pending := pending - {k};
    }
  }

  /** The unsynced subset is exactly the stored records whose flag is false. */
  lemma UnsyncedIsFilter(t: Table, r: Report)
    requires WellFormed(t)
    ensures r in Unsynced(t).Values <==> r in t.Values && r.synced == Some(false)
    ensures WellFormed(Unsynced(t))
  {
    if r in t.Values && r.synced == Some(false) {
      var k := r.id.value;
      assert k in t && t[k] == r;
      assert Unsynced(t)[k] == r;
    }
  }

  /** Marking changes exactly one flag, keeps the table well formed and never
      lowers a flag. */
  lemma MarkedSyncedChangesOnlyFlag(t: Table, id: string)
    requires WellFormed(t)
    ensures var t' := MarkedSynced(t, id);
      && t'.Keys == t.Keys
      && WellFormed(t')
      && OnlySyncedAdvances(t, t')
      && (id in t ==> t'[id].synced == Some(true))
      && (forall k :: k in t && k != id ==> t'[k] == t[k])
  {
  }

  class ReportStore {
    var reports: Table

    ghost predicate Valid()
      reads this
    {
      WellFormed(reports)
    }

    /** Opens the database, which holds whatever earlier sessions left in
        it (empty the first time). */
    constructor (persisted: Table)
      requires WellFormed(persisted)
      ensures Valid() && reports == persisted
    {
      reports := persisted;
    }

    /** `saveReport`: inserts (never overwrites) the report with its flag
        forced to false; a rejected write is rethrown and changes nothing. */
    method SaveReport(report: Report, generatedKey: string, ioFault: bool) returns (r: Outcome<StoreError>)
      requires Valid()
      modifies this
      ensures Valid()
      ensures var key := KeyOf(report, generatedKey);
        && (ioFault ==> r == Fail(IoFailure))
        && (!ioFault && key in old(reports) ==> r == Fail(KeyExists(key)))
        && (!ioFault && key !in old(reports) ==> r == Pass)
        && (r.Pass? ==> reports == old(reports)[key := AsStored(report, key)])
        && (r.Pass? ==> reports[key].synced == Some(false) && reports[key].(synced := report.synced, id := report.id) == report)
        && (r.Fail? ==> reports == old(reports))
      ensures OnlySyncedAdvances(old(reports), reports)
    {
      var key := KeyOf(report, generatedKey);
      if ioFault {
        return Fail(IoFailure);
      }
      if key in reports {
        return Fail(KeyExists(key));
      }
      reports := reports[key := AsStored(report, key)];
      r := Pass;
    }

    /** `getAllReports`: every stored record, the table untouched. */
    method GetAllReports(ioFault: bool) returns (r: Result<seq<Report>, StoreError>)
      requires Valid()
      ensures ioFault <==> r.Failure?
      ensures r.Success? ==> Enumerates(r.value, reports)
    {
      if ioFault {
        return Failure(IoFailure);
      }
      var rs := ListRecords(reports);
      r := Success(rs);
    }

    /** `getUnsyncedReports`: exactly the stored records whose flag is false. */
    method GetUnsyncedReports(ioFault: bool) returns (r: Result<seq<Report>, StoreError>)
      requires Valid()
      ensures ioFault <==> r.Failure?
      ensures r.Success? ==> Enumerates(r.value, Unsynced(reports))
      ensures r.Success? ==> forall i :: 0 <= i < |r.value| ==> r.value[i] in reports.Values && r.value[i].synced == Some(false)
    {
      if ioFault {
        return Failure(IoFailure);
      }
      var pending := Unsynced(reports);
      forall r | r in reports.Values ensures r in pending.Values <==> r.synced == Some(false) {
        UnsyncedIsFilter(reports, r);
      }
      var rs := ListRecords(pending);
      r := Success(rs);
    }

    /** `markReportAsSynced`: raises the flag of the record with that id; a
        missing id is not an error. */
    method MarkReportAsSynced(id: string, ioFault: bool) returns (r: Outcome<StoreError>)
      requires Valid()
      modifies this
      ensures Valid()
      ensures r.Fail? <==> ioFault
      ensures ioFault ==> r == Fail(IoFailure)
      ensures r.Pass? ==> reports == MarkedSynced(old(reports), id)
      ensures r.Fail? ==> reports == old(reports)
      ensures OnlySyncedAdvances(old(reports), reports)
    {
      if ioFault {
        return Fail(IoFailure);
      }
      MarkedSyncedChangesOnlyFlag(reports, id);
      reports := MarkedSynced(reports, id);
      r := Pass;
    }

    /** `deleteReport`: removes the record with that id and nothing else;
        deleting an absent id succeeds and changes nothing. */
    method DeleteReport(id: string, ioFault: bool) returns (r: Outcome<StoreError>)
      requires Valid()
      modifies this
      ensures Valid()
      ensures r.Fail? <==> ioFault
      ensures ioFault ==> r == Fail(IoFailure)
      ensures r.Pass? ==> reports == old(reports) - {id}
      ensures r.Pass? && id !in old(reports) ==> reports == old(reports)
      ensures r.Fail? ==> reports == old(reports)
      ensures OnlySyncedAdvances(old(reports), reports)
    {
      if ioFault {
        return Fail(IoFailure);
      }
      reports := reports - {id};
      r := Pass;
    }

    /** `clearAllReports`: empties the table. */
    method ClearAllReports(ioFault: bool) returns (r: Outcome<StoreError>)
      requires Valid()
      modifies this
      ensures Valid()
      ensures r.Fail? <==> ioFault
      ensures ioFault ==> r == Fail(IoFailure)
      ensures r.Pass? ==> reports == map[]
      ensures r.Fail? ==> reports == old(reports)
      ensures OnlySyncedAdvances(old(reports), reports)
    {
      if ioFault {
        return Fail(IoFailure);
      }
      reports := map[];
      r := Pass;
    }
  }

  /** Deleting the same id twice leaves the table of deleting it once. */
  lemma DeleteIdempotent(t: Table, id: string)
    ensures (t - {id}) - {id} == t - {id}
    ensures id !in t - {id}
    ensures forall k :: k in t && k != id ==> k in t - {id} && (t - {id})[k] == t[k]
  {
  }
}
