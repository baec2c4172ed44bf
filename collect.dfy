/**
 * The per-event aggregation loop: one pass over the viewer export that
 * appends every record to its city, resolution, OS and browser bucket and
 * collects the client ids, IP addresses, watch times and derived start
 * times in record order.
 */
module Collect {
  import opened Wrappers
  import opened Seqs
  import opened Viewers
  import opened Grouping
  import opened Clock

  /** Everything the loop leaves behind for one event. */
  datatype Collected = Collected(
    cityLevel: Groups,
    resolutionLevel: Groups,
    osLevel: Groups,
    browserLevel: Groups,
    clientIds: seq<string>,
    ips: seq<string>,
    watchTimes: seq<int>,
    startTimes: seq<string>)

  /** The record at `index` is the first whose start time cannot be derived. */
  datatype RecordFailure = RecordFailure(index: nat, error: TimeError)

  /**
   * The "%H:%M:%S" text of one viewing's start time, or why deriving it
   * raises.
   */
  function StartClock(v: ViewerRecord): (r: Result<string, TimeError>)
    ensures r.Success? <==> StartTime(v.timestamp, v.watchTimeMinutes).Success?
    ensures r.Failure? ==> StartTime(v.timestamp, v.watchTimeMinutes) == Failure(r.error)
    ensures r.Success? ==> |r.value| == 8
  {
    var t :- StartTime(v.timestamp, v.watchTimeMinutes);
    Success(FormatClock(t))
  }

  /** A per-record start-time derivation; the report uses `StartClock`. */
  type Derivation = ViewerRecord -> Result<string, TimeError>

  /** Every record of `vs` has a derivable start time. */
  predicate AllStart(vs: seq<ViewerRecord>, derive: Derivation) {
    forall j :: 0 <= j < |vs| ==> derive(vs[j]).Success?
  }

  /** `watch_times` after the loop: one entry per record, in record order. */
  function WatchTimes(vs: seq<ViewerRecord>): (r: seq<int>)
    ensures |r| == |vs| && forall j :: 0 <= j < |vs| ==> r[j] == vs[j].watchTimeMinutes
  {
    if |vs| == 0 then [] else WatchTimes(vs[..|vs| - 1]) + [vs[|vs| - 1].watchTimeMinutes]
  }

  /** `times` lists the start times `derive` gives the records of `vs`, in record order. */
  predicate Derived(vs: seq<ViewerRecord>, times: seq<string>, derive: Derivation) {
    |vs| == |times| &&
    (|vs| == 0 || (Derived(vs[..|vs| - 1], times[..|vs| - 1], derive) && derive(vs[|vs| - 1]) == Success(times[|vs| - 1])))
  }

  lemma DerivedStep(vs: seq<ViewerRecord>, i: nat, times: seq<string>, derive: Derivation, t: string)
    requires i < |vs| && Derived(vs[..i], times, derive) && derive(vs[i]) == Success(t)
    ensures Derived(vs[..i + 1], times + [t], derive)
  {
    assert vs[..i + 1][..i] == vs[..i] && (times + [t])[..i] == times;
  }

  /** Entry by entry, `Derived` says each listed time is the record's derived start time. */
  lemma {:induction false} DerivedAll(vs: seq<ViewerRecord>, times: seq<string>, derive: Derivation)
    requires Derived(vs, times, derive)
    ensures |times| == |vs| && forall j :: 0 <= j < |vs| ==> derive(vs[j]) == Success(times[j])
    ensures AllStart(vs, derive)
  {
    if |vs| > 0 {
      var n := |vs| - 1;
      DerivedAll(vs[..n], times[..n], derive);
      assert forall j :: 0 <= j < n ==> vs[..n][j] == vs[j] && times[..n][j] == times[j];
    }
  }

  /** A failing record after a run of derivable ones is the first failure. */
  lemma FirstFailure(vs: seq<ViewerRecord>, i: nat, times: seq<string>, derive: Derivation)
    requires i < |vs| && Derived(vs[..i], times, derive) && derive(vs[i]).Failure?
    ensures AllStart(vs[..i], derive) && !AllStart(vs, derive)
  {
    DerivedAll(vs[..i], times, derive);
  }

  /**
   * `c` holds what the loop leaves after all of `vs`: each bucket map is the
   * grouping of the records along its dimension, and each list holds one
   * entry per record, in record order.
   */
  predicate Gathered(c: Collected, vs: seq<ViewerRecord>, classify: Classifier) {
    && c.cityLevel == GroupBy(vs, City, classify)
    && c.resolutionLevel == GroupBy(vs, Resolution, classify)
    && c.osLevel == GroupBy(vs, Os, classify)
    && c.browserLevel == GroupBy(vs, Browser, classify)
    && c.clientIds == IdsOf(vs, ClientId)
    && c.ips == IdsOf(vs, IpAddress)
    && c.watchTimes == WatchTimes(vs)
  }

  /** The three record-order lists grow by one entry per record. */
  lemma ListsSnoc(vs: seq<ViewerRecord>, v: ViewerRecord)
    ensures IdsOf(vs + [v], ClientId) == IdsOf(vs, ClientId) + [v.clientId]
    ensures IdsOf(vs + [v], IpAddress) == IdsOf(vs, IpAddress) + [v.ipAddress]
    ensures WatchTimes(vs + [v]) == WatchTimes(vs) + [v.watchTimeMinutes]
  {
    assert (vs + [v])[..|vs|] == vs;
  }

  /**
   * The body of the loop for one record whose start time is `clock`: the
   * record goes into its four buckets and its fields onto the four lists.
   */
  method Visit(acc: Collected, ghost vs: seq<ViewerRecord>, i: nat, v: ViewerRecord, clock: string, classify: Classifier)
    returns (next: Collected)
    requires i < |vs| && vs[i] == v && Gathered(acc, vs[..i], classify)
    ensures Gathered(next, vs[..i + 1], classify) && next.startTimes == acc.startTimes + [clock]
  {
    ghost var done := vs[..i];
    assert vs[..i + 1] == done + [v];
    var cityLevel := Place(acc.cityLevel, done, v, City, classify);
    var resolutionLevel := Place(acc.resolutionLevel, done, v, Resolution, classify);
    var osLevel := Place(acc.osLevel, done, v, Os, classify);
    var browserLevel := Place(acc.browserLevel, done, v, Browser, classify);
    ListsSnoc(done, v);
    next := Collected(cityLevel, resolutionLevel, osLevel, browserLevel,
      acc.clientIds + [v.clientId], acc.ips + [v.ipAddress], acc.watchTimes + [v.watchTimeMinutes],
      acc.startTimes + [clock]);
  }

  /**
   * The loop over `event["viewer_info"]`. The first record whose start time
   * cannot be derived raises in the script and ends the run; the model
   * reports that record's index and the reason. Otherwise every bucket map
   * is the grouping of all records along its dimension and every list holds
   * one entry per record, in record order.
   */
  method CollectViewers(viewers: seq<ViewerRecord>, classify: Classifier) returns (r: Result<Collected, RecordFailure>)
    ensures r.Success? <==> AllStart(viewers, StartClock)
    ensures r.Failure? ==>
      && r.error.index < |viewers|
      && StartClock(viewers[r.error.index]) == Failure(r.error.error)
      && AllStart(viewers[..r.error.index], StartClock)
    ensures r.Success? ==> Gathered(r.value, viewers, classify)
    ensures r.Success? ==>
      && |r.value.startTimes| == |viewers|
      && forall j :: 0 <= j < |viewers| ==> StartClock(viewers[j]) == Success(r.value.startTimes[j])
  {
    var acc := Collected(NoGroups(), NoGroups(), NoGroups(), NoGroups(), [], [], [], []);
    var i := 0;
    while i < |viewers|
      invariant 0 <= i <= |viewers|
      invariant Derived(viewers[..i], acc.startTimes, StartClock)
      invariant Gathered(acc, viewers[..i], classify)
    {
      var v := viewers[i];
      var clock := StartClock(v);
      if clock.Failure? {
        FirstFailure(viewers, i, acc.startTimes, StartClock);
        return Failure(RecordFailure(i, clock.error));
      }
      DerivedStep(viewers, i, acc.startTimes, StartClock, clock.value);
      acc := Visit(acc, viewers, i, v, clock.value, classify);
      i := i + 1;
    }
    assert viewers[..i] == viewers;
    DerivedAll(viewers, acc.startTimes, StartClock);
    r := Success(acc);
  }
}
