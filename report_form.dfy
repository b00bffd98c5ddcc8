/** The submission handler of the report form (components/report-form.tsx):
    validate, build the record, save it locally, send it only when online,
    and reset the form only after a successful save. The connectivity flag,
    the clock readings, the store's and the network's answers are inputs. */
module Form {
  import opened Wrappers
  import opened Database
  import opened Api

  /** The text fields of the form; `kind` is the selected report type. */
  datatype FormData = FormData(kind: string, title: string, description: string, contactInfo: string)

  const EmptyForm := FormData("", "", "", "")

  datatype SubmitStatus = Idle | Success | Error

  /** The required fields are all non-empty. */
  predicate Complete(f: FormData)
  {
    f.kind != "" && f.title != "" && f.description != ""
  }

  /** The record a submission saves and sends: the form fields, the captured
      location and photo, the creation time and an id taken from the clock. */
  function BuildReport(f: FormData, location: Option<Location>, photo: Option<string>,
                       timestamp: string, id: string): Report
  {
    Report(Some(id), f.kind, f.title, f.description, Some(f.contactInfo), location, photo, timestamp, None)
  }

  class ReportForm {
    var formData: FormData
    var location: Option<Location>
    var photo: Option<string>
    var isSubmitting: bool
    var submitStatus: SubmitStatus
    const store: ReportStore
    const network: Network

    ghost predicate Valid()
      reads this, store
    {
      store.Valid()
    }

    constructor (store: ReportStore, network: Network)
      requires store.Valid()
      ensures Valid() && this.store == store && this.network == network
      ensures formData == EmptyForm && location == None && photo == None
      ensures !isSubmitting && submitStatus == Idle
    {
      this.store := store;
      this.network := network;
      formData := EmptyForm;
      location := None;
      photo := None;
      isSubmitting := false;
      submitStatus := Idle;
    }

    /** `handleSubmit`. `isoTime` is `new Date().toISOString()` and `nowMillis`
        is `Date.now().toString()`; `saveFault` says whether the persistence
        layer rejects the write. Returns whether the alert was shown and the
        report handed to `sendReport`, if any. */
    method HandleSubmit(online: bool, isoTime: string, nowMillis: string, saveFault: bool,
                        server: Report -> Fetch, failingUpdates: set<string>)
      returns (alerted: bool, sent: Option<Report>)
      requires Valid()
      modifies this, store, network
      ensures Valid()
      // An incomplete form stops at the alert: nothing saved, sent or changed.
      ensures alerted <==> !Complete(old(formData))
      ensures alerted ==> sent == None && store.reports == old(store.reports) && network.posted == old(network.posted)
      ensures alerted ==> formData == old(formData) && location == old(location) && photo == old(photo)
                          && isSubmitting == old(isSubmitting) && submitStatus == old(submitStatus)
      // Every path past validation ends with the button enabled again.
      ensures !alerted ==> !isSubmitting
      ensures !alerted ==>
        var report := BuildReport(old(formData), old(location), old(photo), isoTime, nowMillis);
        var saved := !saveFault && nowMillis !in old(store.reports);
        var afterSave := old(store.reports)[nowMillis := AsStored(report, nowMillis)];
        && (saved ==>
              // Success whether or not the send worked; the form is reset.
              && submitStatus == SubmitStatus.Success
              && formData == EmptyForm && location == None && photo == None
              && sent == (if online then Some(report) else None)
              && network.posted == old(network.posted) + (if online then [ToPayload(report)] else [])
              && store.reports == (if online then SendEffect(afterSave, report, server, failingUpdates) else afterSave))
        && (!saved ==>
              // A failed save sends nothing and keeps the draft.
              && submitStatus == Error
              && formData == old(formData) && location == old(location) && photo == old(photo)
              && sent == None
              && network.posted == old(network.posted)
              && store.reports == old(store.reports))
      ensures OnlySyncedAdvances(old(store.reports), store.reports)
    {
      sent := None;
      if !Complete(formData) {
        return true, None;
      }
      alerted := false;
      isSubmitting := true;
      submitStatus := Idle;

      var report := BuildReport(formData, location, photo, isoTime, nowMillis);
      var saveResult := store.SaveReport(report, nowMillis, saveFault);
      if saveResult.Pass? {
        if online {
          sent := Some(report);
          // A failed send is not an error for the user: the record stays local.
          var _ := SendReport(store, network, report, server, failingUpdates);
          submitStatus := SubmitStatus.Success;
        } else {
          submitStatus := SubmitStatus.Success;
        }
        formData := EmptyForm;
        location := None;
        photo := None;
      } else {
        submitStatus := Error;
      }
      isSubmitting := false;
    }
  }
}
