/**
 * The grouping of viewer records into buckets keyed by a dimension: the
 * `collections.defaultdict(list)` maps `city_level`, `resolution_level`,
 * `os_level` and `browser_level`, with Python's insertion-ordered keys
 * made explicit.
 */
module Grouping {
  import opened Seqs
  import opened Viewers

  /**
   * An insertion-ordered map from a bucket key to the records appended
   * under it; `keys` is the iteration order of the dictionary.
   */
  datatype Groups = Groups(keys: seq<string>, members: map<string, seq<ViewerRecord>>)

  /** The key list holds each key once and exactly the keys of the map. */
  ghost predicate Valid(g: Groups) {
    Distinct(g.keys) && forall k :: k in g.members <==> k in g.keys
  }

  /** Every listed key has a bucket. */
  predicate Keyed(g: Groups) {
    forall k :: k in g.keys ==> k in g.members
  }

  /** A fresh `collections.defaultdict(list)`: no keys, no buckets. */
  function NoGroups(): Groups {
    Groups([], map[])
  }

  /**
   * `level[k].append(v)` on a defaultdict(list): a missing key gets an empty
   * list first and goes to the end of the iteration order.
   */
  function Append(g: Groups, k: string, v: ViewerRecord): Groups {
    if k in g.members then Groups(g.keys, g.members[k := g.members[k] + [v]])
    else Groups(g.keys + [k], g.members[k := [v]])
  }

  /**
   * Appending puts `v` at the end of the bucket of `k` (a new, empty bucket
   * when `k` is new), leaves every other bucket alone, and adds `k` to the
   * end of the key order exactly when it is new.
   */
  lemma AppendSpec(g: Groups, k: string, v: ViewerRecord)
    ensures var r := Append(g, k, v);
      && (Valid(g) ==> Valid(r))
      && k in r.members && r.members[k] == (if k in g.members then g.members[k] else []) + [v]
      && (forall k' :: k' in g.members && k' != k ==> k' in r.members && r.members[k'] == g.members[k'])
      && r.members.Keys == g.members.Keys + {k}
      && r.keys == if k in g.members then g.keys else g.keys + [k]
  {
  }

  /** The buckets after appending every record of `rs`, in order, under its key along `d`. */
  function GroupBy(rs: seq<ViewerRecord>, d: Dimension, classify: Classifier): Groups {
    if |rs| == 0 then NoGroups()
    else
      var n := |rs| - 1;
      Append(GroupBy(rs[..n], d, classify), Key(d, rs[n], classify), rs[n])
  }

  /** Every grouping keeps its key list and its map in step. */
  lemma {:induction false} GroupByValid(rs: seq<ViewerRecord>, d: Dimension, classify: Classifier)
    ensures Valid(GroupBy(rs, d, classify))
  {
    if |rs| > 0 {
      var n := |rs| - 1;
      GroupByValid(rs[..n], d, classify);
      AppendSpec(GroupBy(rs[..n], d, classify), Key(d, rs[n], classify), rs[n]);
    }
  }

  /** Grouping one more record appends it under its key. */
  lemma GroupBySnoc(rs: seq<ViewerRecord>, v: ViewerRecord, d: Dimension, classify: Classifier)
    ensures GroupBy(rs + [v], d, classify) == Append(GroupBy(rs, d, classify), Key(d, v, classify), v)
  {
    assert (rs + [v])[..|rs|] == rs;
  }

  /**
   * One `level[key].append(info)` step of the aggregation loop: after the
   * records `rs`, the next record goes under its key along `d`.
   */
  method Place(g: Groups, ghost rs: seq<ViewerRecord>, v: ViewerRecord, d: Dimension, classify: Classifier) returns (r: Groups)
    requires g == GroupBy(rs, d, classify)
    ensures r == GroupBy(rs + [v], d, classify)
  {
    GroupBySnoc(rs, v, d, classify);
    r := Append(g, Key(d, v, classify), v);
  }

  /** The key of each record along `d`, in record order. */
  function KeysOf(rs: seq<ViewerRecord>, d: Dimension, classify: Classifier): (ks: seq<string>)
    ensures |ks| == |rs| && forall j :: 0 <= j < |rs| ==> ks[j] == Key(d, rs[j], classify)
  {
    seq(|rs|, j requires 0 <= j < |rs| => Key(d, rs[j], classify))
  }

  /** The records of `rs` whose key along `d` is `k`, in record order. */
  function Having(rs: seq<ViewerRecord>, d: Dimension, classify: Classifier, k: string): (r: seq<ViewerRecord>)
    ensures |r| <= |rs|
    ensures forall x :: x in r <==> x in rs && Key(d, x, classify) == k
  {
    if |rs| == 0 then []
    else
      var n := |rs| - 1;
      assert rs == rs[..n] + [rs[n]];
      Having(rs[..n], d, classify, k) + (if Key(d, rs[n], classify) == k then [rs[n]] else [])
  }

  /**
   * The bucket keys are the records' keys, each once, in the order in which
   * they are first seen.
   */
  lemma {:induction false} GroupByKeys(rs: seq<ViewerRecord>, d: Dimension, classify: Classifier)
    ensures GroupBy(rs, d, classify).keys == FirstSeen(KeysOf(rs, d, classify))
  {
    if |rs| > 0 {
      var n := |rs| - 1;
      var ks := KeysOf(rs, d, classify);
      GroupByKeys(rs[..n], d, classify);
      KeysOfPrefix(rs, d, classify);
      GroupByKeysStep(rs, d, classify);
      FirstSeenStep(ks);
    }
  }

  lemma KeysOfPrefix(rs: seq<ViewerRecord>, d: Dimension, classify: Classifier)
    requires |rs| > 0
    ensures KeysOf(rs, d, classify)[..|rs| - 1] == KeysOf(rs[..|rs| - 1], d, classify)
    ensures KeysOf(rs, d, classify)[|rs| - 1] == Key(d, rs[|rs| - 1], classify)
  {
  }

  lemma GroupByKeysStep(rs: seq<ViewerRecord>, d: Dimension, classify: Classifier)
    requires |rs| > 0
    ensures var prev := GroupBy(rs[..|rs| - 1], d, classify).keys;
      var k := Key(d, rs[|rs| - 1], classify);
      GroupBy(rs, d, classify).keys == if k in prev then prev else prev + [k]
  {
    var n := |rs| - 1;
    GroupByValid(rs[..n], d, classify);
    AppendSpec(GroupBy(rs[..n], d, classify), Key(d, rs[n], classify), rs[n]);
  }

  /** Each bucket holds exactly the records with its key, in record order. */
  lemma {:induction false} GroupByMembers(rs: seq<ViewerRecord>, d: Dimension, classify: Classifier, k: string)
    requires k in GroupBy(rs, d, classify).members
    ensures GroupBy(rs, d, classify).members[k] == Having(rs, d, classify, k)
  {
    var n := |rs| - 1;
    var prev := GroupBy(rs[..n], d, classify);
    AppendSpec(prev, Key(d, rs[n], classify), rs[n]);
    if k in prev.members {
      GroupByMembers(rs[..n], d, classify, k);
    } else {
      assert Key(d, rs[n], classify) == k;
      HavingNone(rs[..n], d, classify, k);
    }
  }

  /** A key under which nothing was appended has no records. */
  lemma {:induction false} HavingNone(rs: seq<ViewerRecord>, d: Dimension, classify: Classifier, k: string)
    requires k !in GroupBy(rs, d, classify).members
    ensures Having(rs, d, classify, k) == []
  {
    if |rs| > 0 {
      var n := |rs| - 1;
      AppendSpec(GroupBy(rs[..n], d, classify), Key(d, rs[n], classify), rs[n]);
      HavingNone(rs[..n], d, classify, k);
    }
  }

  /** The sum of the sizes of the buckets listed in `keys`. */
  function SizeSum(keys: seq<string>, m: map<string, seq<ViewerRecord>>): nat
    requires forall k :: k in keys ==> k in m
  {
    if |keys| == 0 then 0
    else SizeSum(keys[..|keys| - 1], m) + |m[keys[|keys| - 1]]|
  }

  lemma {:induction false} SizeSumOther(keys: seq<string>, m: map<string, seq<ViewerRecord>>, k: string, b: seq<ViewerRecord>)
    requires forall k' :: k' in keys ==> k' in m
    requires k !in keys
    ensures SizeSum(keys, m[k := b]) == SizeSum(keys, m)
  {
    if |keys| > 0 {
      SizeSumOther(keys[..|keys| - 1], m, k, b);
    }
  }

  lemma {:induction false} SizeSumGrow(keys: seq<string>, m: map<string, seq<ViewerRecord>>, k: string, v: ViewerRecord)
    requires forall k' :: k' in keys ==> k' in m
    requires k in keys && Distinct(keys)
    ensures SizeSum(keys, m[k := m[k] + [v]]) == SizeSum(keys, m) + 1
  {
    var n := |keys| - 1;
    if keys[n] == k {
      assert k !in keys[..n];
      SizeSumOther(keys[..n], m, k, m[k] + [v]);
    } else {
      SizeSumGrow(keys[..n], m, k, v);
    }
  }

  /**
   * No record is dropped or counted twice: the bucket sizes of a dimension
   * add up to the number of records.
   */
  lemma {:induction false} GroupByTotal(rs: seq<ViewerRecord>, d: Dimension, classify: Classifier)
    ensures var g := GroupBy(rs, d, classify); Valid(g) && SizeSum(g.keys, g.members) == |rs|
  {
    GroupByValid(rs, d, classify);
    if |rs| > 0 {
      var n := |rs| - 1;
      var prev := GroupBy(rs[..n], d, classify);
      var k := Key(d, rs[n], classify);
      AppendSpec(prev, k, rs[n]);
      GroupByTotal(rs[..n], d, classify);
      if k in prev.members {
        SizeSumGrow(prev.keys, prev.members, k, rs[n]);
      } else {
        SizeSumOther(prev.keys, prev.members, k, [rs[n]]);
      }
    }
  }

  /** Every record is in the bucket of its own key. */
  lemma GroupByPlaces(rs: seq<ViewerRecord>, d: Dimension, classify: Classifier, j: nat)
    requires j < |rs|
    ensures var g := GroupBy(rs, d, classify);
      var k := Key(d, rs[j], classify);
      k in g.members && rs[j] in g.members[k]
  {
    var g := GroupBy(rs, d, classify);
    var k := Key(d, rs[j], classify);
    GroupByKeys(rs, d, classify);
    GroupByValid(rs, d, classify);
    assert KeysOf(rs, d, classify)[j] == k;
    assert k in g.keys;
    GroupByMembers(rs, d, classify, k);
  }

  /** A key is only created by appending a record under it, so no bucket is empty. */
  lemma {:induction false} GroupByNonEmpty(rs: seq<ViewerRecord>, d: Dimension, classify: Classifier, k: string)
    requires k in GroupBy(rs, d, classify).members
    ensures |GroupBy(rs, d, classify).members[k]| > 0
  {
    assert |rs| > 0;
    var n := |rs| - 1;
    var prev := GroupBy(rs[..n], d, classify);
    AppendSpec(prev, Key(d, rs[n], classify), rs[n]);
    if k != Key(d, rs[n], classify) {
      GroupByNonEmpty(rs[..n], d, classify, k);
    }
  }
}
