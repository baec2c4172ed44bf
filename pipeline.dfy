/**
 * The report loop over the stored events: every event added by this run
 * gets its viewer data aggregated, its email decision taken and its
 * template arguments built; a start time that cannot be derived raises and
 * ends the run.
 */
module Pipeline {
  import opened Wrappers
  import opened Viewers
  import opened Collect
  import opened Merge
  import opened Report
  import opened Notify

  /** What the script produces for one new event. */
  datatype EventReport = EventReport(eventId: string, collected: Collected, emailed: bool, args: TemplateArgs)

  /** The stored event at `index` is the one whose record at `failure.index` raised. */
  datatype EventFailure = EventFailure(index: nat, failure: RecordFailure)

  /**
   * `rep` is the report of event `e`: its data is collected from the
   * event's records, the email is sent exactly when the name does not
   * mention "Social Media", and the template receives the event's header
   * and the charts and totals of that data.
   */
  predicate Reported(rep: EventReport, e: StoredEvent, classify: Classifier) {
    && rep.eventId == e.eventId
    && Gathered(rep.collected, e.viewerInfo, classify)
    && |rep.collected.startTimes| == |e.viewerInfo|
    && (forall j :: 0 <= j < |e.viewerInfo| ==> StartClock(e.viewerInfo[j]) == Success(rep.collected.startTimes[j]))
    && rep.emailed == ShouldEmail(e.name)
    && Complete(rep.collected)
    && rep.args == RenderArgs(e, rep.collected)
  }

  /** Every record of the event has a derivable start time. */
  predicate Reportable(e: StoredEvent) {
    AllStart(e.viewerInfo, StartClock)
  }

  /** The body of the report loop for one new event. */
  method ReportEvent(e: StoredEvent, classify: Classifier) returns (r: Result<EventReport, RecordFailure>)
    ensures r.Success? <==> Reportable(e)
    ensures r.Failure? ==>
      && r.error.index < |e.viewerInfo|
      && StartClock(e.viewerInfo[r.error.index]) == Failure(r.error.error)
      && AllStart(e.viewerInfo[..r.error.index], StartClock)
    ensures r.Success? ==> Reported(r.value, e, classify)
  {
    var c :- CollectViewers(e.viewerInfo, classify);
    GatheredComplete(c, e.viewerInfo, classify);
    var emailed := ShouldEmail(e.name);
    r := Success(EventReport(e.eventId, c, emailed, RenderArgs(e, c)));
  }

  lemma NewOnlyStep(es: seq<StoredEvent>, i: nat, newUuids: seq<string>)
    requires i < |es|
    ensures NewOnly(es[..i + 1], newUuids) ==
      NewOnly(es[..i], newUuids) + (if es[i].eventId in newUuids then [es[i]] else [])
  {
    assert es[..i + 1][..i] == es[..i];
  }

  /**
   * The loop over `data["events"]` that skips every event not added by
   * this run. Either every new event is reported, in store order, or the
   * run stops at the first new event with a record whose start time cannot
   * be derived, and names that event's first such record.
   */
  method ReportNewEvents(events: seq<StoredEvent>, newUuids: seq<string>, classify: Classifier)
    returns (r: Result<seq<EventReport>, EventFailure>)
    ensures r.Success? <==> forall e :: e in NewOnly(events, newUuids) ==> Reportable(e)
    ensures r.Success? ==>
      var todo := NewOnly(events, newUuids);
      |r.value| == |todo| && forall j :: 0 <= j < |todo| ==> Reported(r.value[j], todo[j], classify)
    ensures r.Failure? ==>
      var k := r.error.index;
      && k < |events|
      && events[k].eventId in newUuids
      && r.error.failure.index < |events[k].viewerInfo|
      && StartClock(events[k].viewerInfo[r.error.failure.index]) == Failure(r.error.failure.error)
      && AllStart(events[k].viewerInfo[..r.error.failure.index], StartClock)
      && forall e :: e in NewOnly(events[..k], newUuids) ==> Reportable(e)
  {
    var reports := [];
    var i := 0;
    while i < |events|
      invariant 0 <= i <= |events|
      invariant |reports| == |NewOnly(events[..i], newUuids)|
      invariant forall j :: 0 <= j < |reports| ==> Reported(reports[j], NewOnly(events[..i], newUuids)[j], classify)
      invariant forall e :: e in NewOnly(events[..i], newUuids) ==> Reportable(e)
    {
      var event := events[i];
      NewOnlyStep(events, i, newUuids);
      if event.eventId !in newUuids {
        i := i + 1;
        continue;
      }
      var rep := ReportEvent(event, classify);
      if rep.Failure? {
        NewOnlyMembers(events, newUuids);
        NewOnlyMembers(events[..i + 1], newUuids);
        assert event in NewOnly(events[..i + 1], newUuids);
        NewOnlyPrefix(events, i + 1, newUuids);
        return Failure(EventFailure(i, rep.error));
      }
      reports := reports + [rep.value];
      i := i + 1;
    }
    assert events[..i] == events;
    r := Success(reports);
  }

  /** Every new event of a prefix of the store is a new event of the store. */
  lemma {:induction false} NewOnlyPrefix(es: seq<StoredEvent>, i: nat, newUuids: seq<string>)
    requires i <= |es|
    ensures forall e :: e in NewOnly(es[..i], newUuids) ==> e in NewOnly(es, newUuids)
  {
    NewOnlyMembers(es[..i], newUuids);
    NewOnlyMembers(es, newUuids);
    forall e | e in NewOnly(es[..i], newUuids) ensures e in NewOnly(es, newUuids) {
      assert e in es[..i];
    }
  }
}
