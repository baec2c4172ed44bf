/**
 * The data `render_html_report` hands to the HTML template for one event:
 * the event's header fields, six charts and the two distinct totals.
 */
module Report {
  import opened Seqs
  import opened Viewers
  import opened Grouping
  import opened Ranking
  import opened Collect
  import opened Merge

  /** A chart of the template: a bar chart of a ranked series, or the watch-time histogram. */
  datatype Chart =
    | Bar(title: string, x: seq<string>, y: seq<nat>)
    | Histogram(title: string, values: seq<int>)

  /** The counts of a series (a chart's `y`). */
  function CountsOf(ps: seq<Pair>): (r: seq<nat>)
    ensures |r| == |ps| && forall j :: 0 <= j < |ps| ==> r[j] == ps[j].count
  {
    seq(|ps|, j requires 0 <= j < |ps| => ps[j].count)
  }

  /** The pairs of equally long label and count lists, position by position. */
  function Zip(xs: seq<string>, ys: seq<nat>): (ps: seq<Pair>)
    requires |xs| == |ys|
    ensures |ps| == |xs| && forall j :: 0 <= j < |xs| ==> ps[j] == Pair(xs[j], ys[j])
  {
    seq(|xs|, j requires 0 <= j < |xs| => Pair(xs[j], ys[j]))
  }

  /** The two projections of a series lose nothing: zipped back they give the series. */
  lemma ZipProjections(ps: seq<Pair>)
    ensures Zip(LabelsOf(ps), CountsOf(ps)) == ps
  {
  }

  /** Projecting zipped lists gives the lists back. */
  lemma ProjectZip(xs: seq<string>, ys: seq<nat>)
    requires |xs| == |ys|
    ensures LabelsOf(Zip(xs, ys)) == xs && CountsOf(Zip(xs, ys)) == ys
  {
  }

  /** A bar chart of a ranked series: `x` holds the labels and `y` the counts. */
  function BarOf(title: string, ps: seq<Pair>): Chart {
    Bar(title, LabelsOf(ps), CountsOf(ps))
  }

  /** The x and y lists of a bar chart are as long as its series and zip back to it. */
  lemma BarOfSpec(title: string, ps: seq<Pair>)
    ensures var ch := BarOf(title, ps);
      && ch.Bar? && ch.title == title
      && |ch.x| == |ps| && |ch.y| == |ps|
      && Zip(ch.x, ch.y) == ps
  {
    ZipProjections(ps);
  }

  /** All four bucket maps of the collected data are keyed. */
  predicate Complete(c: Collected) {
    Keyed(c.cityLevel) && Keyed(c.resolutionLevel) && Keyed(c.osLevel) && Keyed(c.browserLevel)
  }

  /** Data collected from the records is complete. */
  lemma GatheredComplete(c: Collected, vs: seq<ViewerRecord>, classify: Classifier)
    requires Gathered(c, vs, classify)
    ensures Complete(c)
  {
    GroupByValid(vs, City, classify);
    GroupByValid(vs, Resolution, classify);
    GroupByValid(vs, Os, classify);
    GroupByValid(vs, Browser, classify);
  }

  /** The title of a bar chart and the dimension and identity its series ranks by. */
  datatype Axis = Axis(title: string, dim: Dimension, id: Identity)

  /** The five bar charts of the report, in the template's order. */
  const Bars: seq<Axis> := [
    Axis("Unique Clients Per City", City, ClientId),
    Axis("Unique IPs Per City", City, IpAddress),
    Axis("Unique Clients Per Resolution", Resolution, ClientId),
    Axis("Unique Clients Per OS", Os, ClientId),
    Axis("Unique Clients Per Browser", Browser, ClientId)]

  /** The title of the watch-time histogram. */
  const HistogramTitle: string := "Watch Times (mins)"

  /** The bucket map of the collected data along a dimension. */
  function Level(c: Collected, d: Dimension): Groups {
    match d
    case City => c.cityLevel
    case Resolution => c.resolutionLevel
    case Os => c.osLevel
    case Browser => c.browserLevel
  }

  /** The data collected from `vs` holds the grouping of `vs` along each dimension. */
  lemma LevelGathered(c: Collected, vs: seq<ViewerRecord>, classify: Classifier, d: Dimension)
    requires Gathered(c, vs, classify)
    ensures Level(c, d) == GroupBy(vs, d, classify) && Keyed(Level(c, d))
  {
    GroupByValid(vs, d, classify);
  }

  /** The five ranked series as bar charts, then the histogram of the watch times. */
  function Charts(c: Collected): seq<Chart>
    requires Complete(c)
  {
    seq(|Bars|, i requires 0 <= i < |Bars| => BarOf(Bars[i].title, Series(Level(c, Bars[i].dim), Bars[i].id)))
    + [Histogram(HistogramTitle, c.watchTimes)]
  }

  /** Six charts with the template's titles, in the template's order. */
  lemma ChartTitles(c: Collected)
    requires Complete(c)
    ensures |Charts(c)| == 6
    ensures forall i :: 0 <= i < 5 ==> Charts(c)[i].Bar? && Charts(c)[i].title == Bars[i].title
    ensures Charts(c)[5] == Histogram("Watch Times (mins)", c.watchTimes)
  {
  }

  /**
   * For data collected from the records `vs`, chart `i < 5` is the bar
   * chart of the ranking of the grouping of `vs` along its dimension,
   * counted by its identity, and the last chart is the histogram of the
   * watch times, one per record.
   */
  lemma ChartsSpec(c: Collected, vs: seq<ViewerRecord>, classify: Classifier, i: nat)
    requires Gathered(c, vs, classify) && i < 5
    ensures Complete(c)
    ensures var ch := Charts(c)[i];
      ch.Bar? && Zip(ch.x, ch.y) == Series(GroupBy(vs, Bars[i].dim, classify), Bars[i].id)
    ensures Charts(c)[5] == Histogram(HistogramTitle, WatchTimes(vs))
  {
    GatheredComplete(c, vs, classify);
    LevelGathered(c, vs, classify, Bars[i].dim);
    var ps := Series(GroupBy(vs, Bars[i].dim, classify), Bars[i].id);
    assert Charts(c)[i] == BarOf(Bars[i].title, ps);
    BarOfSpec(Bars[i].title, ps);
  }

  /**
   * Each bar chart of data collected from `vs` lists every key of its
   * dimension once, with counts never increasing from left to right, and
   * the count under a label is the number of distinct identities among the
   * records with that key.
   */
  lemma BarChartSpec(c: Collected, vs: seq<ViewerRecord>, classify: Classifier, i: nat)
    requires Gathered(c, vs, classify) && i < 5
    ensures Complete(c)
    ensures var d, m, ch := Bars[i].dim, Bars[i].id, Charts(c)[i];
      && ch.Bar?
      && |ch.x| == |ch.y|
      && multiset(ch.x) == multiset(FirstSeen(KeysOf(vs, d, classify)))
      && (forall j, l :: 0 <= j < l < |ch.y| ==> ch.y[j] >= ch.y[l])
      && (forall j :: 0 <= j < |ch.x| ==> ch.y[j] == |IdentitiesWith(vs, d, classify, ch.x[j], m)|)
  {
    var d, m := Bars[i].dim, Bars[i].id;
    GatheredComplete(c, vs, classify);
    LevelGathered(c, vs, classify, d);
    var g := GroupBy(vs, d, classify);
    var ps := Series(g, m);
    var ch := Charts(c)[i];
    assert ch == BarOf(Bars[i].title, ps);
    BarFacts(vs, d, classify, m, ps);
  }

  /** The facts about one ranked series that its bar chart displays. */
  lemma BarFacts(vs: seq<ViewerRecord>, d: Dimension, classify: Classifier, m: Identity, ps: seq<Pair>)
    requires Keyed(GroupBy(vs, d, classify)) && ps == Series(GroupBy(vs, d, classify), m)
    ensures multiset(LabelsOf(ps)) == multiset(FirstSeen(KeysOf(vs, d, classify)))
    ensures forall j, l :: 0 <= j < l < |ps| ==> ps[j].count >= ps[l].count
    ensures forall j :: 0 <= j < |ps| ==> ps[j].count == |IdentitiesWith(vs, d, classify, ps[j].name, m)|
  {
    SeriesLabels(vs, d, classify, m);
    RankSorted(Tally(GroupBy(vs, d, classify), m));
    SeriesCounts(vs, d, classify, m);
    forall j | 0 <= j < |ps| ensures ps[j].count == |IdentitiesWith(vs, d, classify, ps[j].name, m)| {
      assert ps[j] in ps;
    }
  }

  /** The keyword arguments of `template.render`. */
  datatype TemplateArgs = TemplateArgs(
    name: string,
    startTime: string,
    eventId: string,
    charts: seq<Chart>,
    distinctIps: nat,
    distinctClients: nat)

  /** The distinct totals: `len(set(ips))` and `len(set(client_ids))`. */
  function DistinctIps(c: Collected): nat {
    |Elems(c.ips)|
  }

  function DistinctClients(c: Collected): nat {
    |Elems(c.clientIds)|
  }

  /**
   * The distinct totals count the distinct IP addresses and client ids of
   * all records: at most one per record, at least one when there is a record.
   */
  lemma DistinctTotalsSpec(c: Collected, vs: seq<ViewerRecord>, classify: Classifier)
    requires Gathered(c, vs, classify)
    ensures DistinctIps(c) == |Identities(vs, IpAddress)|
    ensures DistinctClients(c) == |Identities(vs, ClientId)|
    ensures DistinctIps(c) <= |vs| && DistinctClients(c) <= |vs|
    ensures |vs| > 0 ==> DistinctIps(c) >= 1 && DistinctClients(c) >= 1
  {
    ElemsIdsOf(vs, IpAddress);
    ElemsIdsOf(vs, ClientId);
    DistinctCountBounds(vs, IpAddress);
    DistinctCountBounds(vs, ClientId);
  }

  /**
   * A further record whose client id and IP address both occur already
   * changes neither distinct total.
   */
  lemma DistinctTotalsDuplicate(c: Collected, c': Collected, vs: seq<ViewerRecord>, v: ViewerRecord, classify: Classifier)
    requires Gathered(c, vs, classify) && Gathered(c', vs + [v], classify)
    requires exists w :: w in vs && w.clientId == v.clientId
    requires exists w :: w in vs && w.ipAddress == v.ipAddress
    ensures DistinctClients(c') == DistinctClients(c)
    ensures DistinctIps(c') == DistinctIps(c)
  {
    var w :| w in vs && w.clientId == v.clientId;
    var u :| u in vs && u.ipAddress == v.ipAddress;
    assert w in vs && IdOf(ClientId, w) == IdOf(ClientId, v);
    assert u in vs && IdOf(IpAddress, u) == IdOf(IpAddress, v);
    DistinctCountDuplicate(vs, v, ClientId);
    DistinctCountDuplicate(vs, v, IpAddress);
  }

  /**
   * `render_html_report` as written: the template's `start_time` and
   * `event_id` both receive the event's name.
   */
  function RenderArgsAsWritten(e: StoredEvent, c: Collected): TemplateArgs
    requires Complete(c)
  {
    TemplateArgs(e.name, e.name, e.name, Charts(c), DistinctIps(c), DistinctClients(c))
  }

  /**
   * As written, the report shows the event's start time and id only when
   * they happen to equal its name.
   */
  lemma RenderArgsAsWrittenMislabels(e: StoredEvent, c: Collected)
    requires Complete(c)
    ensures RenderArgsAsWritten(e, c).startTime == e.startTime <==> e.name == e.startTime
    ensures RenderArgsAsWritten(e, c).eventId == e.eventId <==> e.name == e.eventId
  {
  }

  /** An event for which the report as written shows the wrong start time and id. */
  lemma RenderArgsAsWrittenCounterexample(c: Collected)
    requires Complete(c)
    ensures var e := StoredEvent("4f2a", "2024-03-01T18:00:00Z", "Sunday Service", PublicInfo(0, 0), []);
      RenderArgsAsWritten(e, c).startTime != e.startTime &&
      RenderArgsAsWritten(e, c).eventId != e.eventId
  {
    var e := StoredEvent("4f2a", "2024-03-01T18:00:00Z", "Sunday Service", PublicInfo(0, 0), []);
    assert e.name[0] != e.startTime[0] && e.name[0] != e.eventId[0];
  }

  /** The template arguments with each header field taken from its own key of the event. */
  function RenderArgs(e: StoredEvent, c: Collected): (r: TemplateArgs)
    requires Complete(c)
    ensures r.name == e.name && r.startTime == e.startTime && r.eventId == e.eventId
    ensures r.charts == Charts(c) && r.distinctIps == DistinctIps(c) && r.distinctClients == DistinctClients(c)
  {
    TemplateArgs(e.name, e.startTime, e.eventId, Charts(c), DistinctIps(c), DistinctClients(c))
  }

  /** The corrected arguments and the arguments as written differ only in the two header fields. */
  lemma RenderArgsCorrects(e: StoredEvent, c: Collected)
    requires Complete(c)
    ensures RenderArgs(e, c) == RenderArgsAsWritten(e, c).(startTime := e.startTime, eventId := e.eventId)
  {
  }
}
