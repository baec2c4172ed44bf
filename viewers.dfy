/**
 * One viewer-export record and the four dimension keys derived from it
 * (the city, resolution, OS and browser buckets of the report).
 */
module Viewers {
  import opened Wrappers

  /** The two families the user-agent classifier reports for an agent string. */
  datatype UaFamilies = UaFamilies(os: string, browser: string)

  /**
   * The user-agent classifier (ua_parser's rule table), taken as a total
   * function from the raw agent string to its families.
   */
  type Classifier = string -> UaFamilies

  /**
   * One entry of an event's viewer export. `city` and `state` are `None`
   * when the export holds a JSON null there; the model's records always
   * carry every field the aggregation loop reads.
   */
  datatype ViewerRecord = ViewerRecord(
    clientId: string,
    ipAddress: string,
    city: Option<string>,
    state: Option<string>,
    resolution: string,
    userAgent: string,
    watchTimeMinutes: int,
    timestamp: string)

  /** The four axes the viewers are grouped along. */
  datatype Dimension = City | Resolution | Os | Browser

  /** The identity whose distinct values a bucket's count is taken over. */
  datatype Identity = ClientId | IpAddress

  /** How an f-string renders a JSON string or null. */
  function Show(v: Option<string>): (r: string)
    ensures v.Some? ==> r == v.value
    ensures v.None? ==> r == "None"
  {
    match v
    case Some(s) => s
    case None => "None"
  }

  /** The bucket key of viewer `v` along dimension `d`. */
  function Key(d: Dimension, v: ViewerRecord, classify: Classifier): string {
    match d
    case City => Show(v.city) + ", " + Show(v.state)
    case Resolution => "_" + v.resolution
    case Os => classify(v.userAgent).os
    case Browser => classify(v.userAgent).browser
  }

  /**
   * The keys are built verbatim: the city key is the city, a comma and a
   * space, then the state; the resolution key is the resolution behind an
   * underscore; the OS and browser keys are the classifier's families.
   */
  lemma KeyShape(v: ViewerRecord, classify: Classifier)
    ensures var c, s, k := Show(v.city), Show(v.state), Key(City, v, classify);
      |k| == |c| + 2 + |s| && k[..|c|] == c && k[|c|..|c| + 2] == ", " && k[|c| + 2..] == s
    ensures var k := Key(Resolution, v, classify);
      |k| == |v.resolution| + 1 && k[0] == '_' && k[1..] == v.resolution
    ensures Key(Os, v, classify) == classify(v.userAgent).os
    ensures Key(Browser, v, classify) == classify(v.userAgent).browser
  {
  }

  /** The identity value of `v` that a count is taken over. */
  function IdOf(m: Identity, v: ViewerRecord): string {
    match m
    case ClientId => v.clientId
    case IpAddress => v.ipAddress
  }

  /** The identity values of a list of records, in record order. */
  function IdsOf(vs: seq<ViewerRecord>, m: Identity): (r: seq<string>)
    ensures |r| == |vs| && forall j :: 0 <= j < |vs| ==> r[j] == IdOf(m, vs[j])
  {
    seq(|vs|, j requires 0 <= j < |vs| => IdOf(m, vs[j]))
  }

  /** Two viewers share a resolution bucket exactly when their resolutions are equal. */
  lemma ResolutionKeyInjective(a: ViewerRecord, b: ViewerRecord, classify: Classifier)
    ensures Key(Resolution, a, classify) == Key(Resolution, b, classify) <==> a.resolution == b.resolution
  {
    KeyShape(a, classify);
    KeyShape(b, classify);
  }

  /**
   * The city key is not injective: a comma inside a city or state name can
   * make two different places share one bucket.
   */
  lemma CityKeyCollides(classify: Classifier)
    ensures
      var a := ViewerRecord("c", "i", Some("Paris, TX"), Some("US"), "r", "u", 0, "t");
      var b := ViewerRecord("c", "i", Some("Paris"), Some("TX, US"), "r", "u", 0, "t");
      a.city != b.city && Key(City, a, classify) == Key(City, b, classify)
  {
  }
}
