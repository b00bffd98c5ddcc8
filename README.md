# FoundIt local-first report store, modelled in Dafny

FoundIt is a browser client for lost-and-found reports. A report has a type (lost or found), a title, a description, optional contact details, an optional location and an optional photo. It is saved first in a local IndexedDB table and then synced, best effort, to a remote endpoint. This project models the three parts of the client that hold logic and proves their contracts:

- `database.dfy`, module `Database`. This is the local store: one table of `Report` records keyed by `id`, each with a `synced` flag. `ReportStore` is a class whose `reports: map<string, Report>` field is updated in place by `SaveReport`, `MarkReportAsSynced`, `DeleteReport` and `ClearAllReports`. `GetAllReports` and `GetUnsyncedReports` read the table without changing it.
- `api.dfy`, module `Api`. This is the sync engine. `Network` is the log of every POST body the client issues, in order; `SendReport` appends to it where the request is made. `ToPayload` builds the request body, in which a photo becomes the marker `"photo_uploaded"`. `SendReport` posts one report and marks it synced on success. `SyncPendingReports` runs one best-effort pass over the unsynced snapshot. `CheckServerHealth` is the health probe.
- `report_form.dfy`, module `Form`. This is the submission handler, `ReportForm.HandleSubmit`. It validates the form, builds the record, saves it locally, sends it only when online, and resets the form only after a successful save.
- `wrappers.dfy` holds `Option`, `Result` and `Outcome`. `Option` stands for JavaScript's `undefined`/`null` fields. `Result` and `Outcome` stand for a promise that resolves or rejects.

Everything outside the program is a model input:

- Each store call takes `ioFault`, which says whether IndexedDB rejects the call.
- The network is a function `server: Report -> Fetch`. It is applied to the payload and says whether `fetch` rejects or which response it gets: `ok`, the status, and whether the body parses.
- `failingUpdates` is the set of ids whose `markReportAsSynced` is rejected.
- `navigator.onLine`, `new Date().toISOString()` and `Date.now().toString()` are parameters.

Each store method that writes states its whole new table in terms of the old one: `SaveReport` adds the `AsStored` record, `MarkReportAsSynced` gives `MarkedSynced` of the old table, `DeleteReport` removes the id, and `ClearAllReports` leaves the empty map. The read `GetUnsyncedReports` is specified by the filter `Unsynced`. Each method also ensures `OnlySyncedAdvances`, so no operation edits a surviving record except to raise its `synced` flag from false to true.

The sync pass is proved in three layers:

1. `SendAll` leaves the table `MarkAll(old, batch)`.
2. `MarkAllRaisesMarked` describes `MarkAll` for any batch: exactly the records that some attempt marks get their flag raised. `MarkAllOrderIndependent` follows from it: two batches holding the same reports, in any order, leave the same table.
3. `SnapshotPassIsSyncPass` shows that the unsynced snapshot gives `SyncPass`. `SyncPassLeavesFailures` shows that after a pass the pending records are exactly the unsynced ones whose attempt failed.

The model follows the code in these places:

- JavaScript truthiness is kept. `report.photo ? … : undefined` drops an empty-string photo. `if (report.id)` does not mark a report whose id is `""`.
- `saveReport` uses `add`, so saving a key that is already stored fails and leaves the table unchanged. One consequence: two submissions in the same millisecond get the same `Date.now()` id, and the second one ends with status `"error"` and keeps its draft.
- The record that `handleSubmit` passes to `sendReport` is the form's own object, not the stored copy. So its payload carries no `synced` field (`synced == None`).

## Model

| member | source | states |
|---|---|---|
| `Database.ListRecords` | services/database.ts:48 | `toArray` over a table yields every stored record exactly once and nothing else (length, membership both ways, no duplicates) |
| `Database.UnsyncedIsFilter` | services/database.ts:57 | a record is in the unsynced subset iff it is stored and its `synced` is false; the subset is itself a well-formed table |
| `Database.MarkedSyncedChangesOnlyFlag` | services/database.ts:66 | `update(id, {synced: true})` keeps the key set, raises the flag of `id` if stored, leaves every other record and every other field unchanged, and never lowers a flag |
| `Database.DeleteIdempotent` | services/database.ts:75 | deleting an id twice gives the same table as deleting it once; only that id goes |
| `Database.ReportStore.constructor` | services/database.ts:19-30 | opening the database yields the table persisted by earlier sessions (empty the first time), unsynced records included |
| `Database.ReportStore.SaveReport` | services/database.ts:33-44 | inserts the report under its id with `synced = false` whatever flag it carried and every other field copied; a stored key (`add`, not `put`) or a rejected write fails and leaves the table unchanged |
| `Database.ReportStore.GetAllReports` | services/database.ts:46-53 | on success returns every stored record exactly once; a read failure is rethrown; the table is not modified |
| `Database.ReportStore.GetUnsyncedReports` | services/database.ts:55-62 | on success returns exactly the stored records whose `synced` is false, each once; a read failure is rethrown |
| `Database.ReportStore.MarkReportAsSynced` | services/database.ts:64-71 | sets `synced = true` on that id only (absent id: no change, no error); a rejected update is rethrown and changes nothing; flags never go from true to false |
| `Database.ReportStore.DeleteReport` | services/database.ts:73-81 | removes exactly the record with that id; an absent id succeeds with the table unchanged; a rejected delete is rethrown and changes nothing |
| `Database.ReportStore.ClearAllReports` | services/database.ts:83-91 | leaves the table empty, or unchanged when the clear is rejected |
| `Api.ToPayload` | services/api.ts:9-14 | the payload copies every field except `photo`; it carries a photo iff the report has a non-empty one, and that photo is the marker `"photo_uploaded"` |
| `Api.CheckServerHealth` | services/api.ts:74-85 | returns a boolean on every probe: false whenever `fetch` rejects, otherwise `response.ok` |
| `Api.SendReport` | services/api.ts:6-39 | exactly one POST, of the payload, is issued whatever the answer; a rejected fetch, a non-ok status (with that status) or an unreadable body fails with that cause and marks nothing; success marks the record only when the id is truthy; a rejected mark is rethrown as a storage failure; it succeeds iff delivered and the mark (if any) succeeded |
| `Api.SendAll` | services/api.ts:57-66 | attempting every report of the batch once, swallowing each failure, posts the batch's payloads in order and leaves the table `MarkAll` of the batch |
| `Api.PayloadsAppend` | services/api.ts:57-66 | the bodies posted for one batch followed by another are the first batch's payloads followed by the second's, which is how the per-report fetches of a pass add up |
| `Api.MarkAllRaisesMarked` | services/api.ts:57-66 | a batch of attempts raises the flag of exactly the records some attempt marks synced and changes nothing else |
| `Api.MarkAllOrderIndependent` | services/api.ts:57-66 | two batches holding the same reports, in any order, leave the same table, so the outcome does not depend on which attempt settles first |
| `Api.SnapshotPassIsSyncPass` | services/api.ts:48-66 | attempting each record of the unsynced snapshot once gives exactly the pass specification: unsynced records whose send succeeds become synced, the rest stay as they were |
| `Api.SyncPassLeavesFailures` | services/api.ts:57-66 | after a pass the still-unsynced records are exactly the unsynced records whose attempt failed, unchanged; keys are kept and flags only rise |
| `Api.SyncPassIdempotent` | services/api.ts:41-71 | a second pass with the same server answers changes nothing more |
| `Api.SyncPendingReports` | services/api.ts:41-71 | offline or after a failed read: nothing is posted and nothing changes; otherwise the posted bodies are exactly the payloads of the unsynced records, each once (none when there are none), the table becomes the pass specification, and no failure escapes |
| `Form.ReportForm.constructor` | components/report-form.tsx:25-34 | the form starts empty: empty fields, no location, no photo, not submitting, status idle |
| `Form.ReportForm.HandleSubmit` | components/report-form.tsx:40-86 | an incomplete form only alerts; otherwise the saved record is the fields plus location, photo, timestamp and id; a failed save posts nothing, sets `"error"` and keeps the draft; a successful save posts exactly the record's payload when online and nothing when offline, sets `"success"` even if the send fails and resets the form; `isSubmitting` ends false |

## Left out

- IndexedDB and Dexie internals: the table is a `map`, and the key the `++id` auto-increment would generate for a report without an id is the input `generatedKey`. IndexedDB does not index boolean values, so the query `where("synced").equals(false)` (services/database.ts:57) may find nothing at run time. The model gives the filter as written.
- The order in which `toArray` returns records (primary-key order) is not modelled: the read results are specified as listings in an unspecified order.
- `fetch`, HTTP, `JSON.stringify` and `response.json()` are replaced by the `server` answer for each payload. The model assumes every `fetch` settles. The health probe passes `timeout: 5000` (services/api.ts:78), which is not a `fetch` option and is ignored, so the real probe has no timeout and a request that never settles is outside the model.
- `Promise.allSettled` runs its attempts concurrently. The model runs them one after another, and `MarkAllOrderIndependent` shows that the order does not change the result. Interleavings with other store writes during a pass are not modelled.
- `console.*` logging and `alert` are left out. The alert is modelled only as the `alerted` result of `HandleSubmit`.
- Form.ReportForm.HandleSubmit: the transient state while the save is awaited (`isSubmitting` true, status `"idle"`, button disabled) is not observable in the model, because the method has no suspension points. Only the state on exit is stated.
- The connectivity trigger in app/page.tsx, which calls `syncPendingReports()` on the `online` event, is not part of this model. Neither are the online indicator (components/online-status.tsx) and tab handling.
- Camera and geolocation capture (components/camera-capture.tsx, components/location-capture.tsx) are not part of this model. Location coordinates are carried as opaque `real` values, and the photo as an opaque string.
- The reports list (components/reports-list.tsx) is not part of this model. It only sorts by date and filters for display.
- Id uniqueness across submissions in the same millisecond is not assumed. A colliding save fails, as `add` does.
