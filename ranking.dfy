/**
 * The ranked series of the report: one `(label, count)` pair per bucket,
 * the count being the number of distinct identities in the bucket, sorted
 * by decreasing count with Python's stable `sorted(..., key=lambda x: -x[1])`.
 */
module Ranking {
  import opened Seqs
  import opened Viewers
  import opened Grouping

  /** One entry of a ranked series: a bucket label and its distinct count. */
  datatype Pair = Pair(name: string, count: nat)

  /** `len(set(v[identity] for v in viewer_list))`. */
  function DistinctCount(vs: seq<ViewerRecord>, m: Identity): nat {
    |Elems(IdsOf(vs, m))|
  }

  /** A non-empty bucket counts between one and its number of records. */
  lemma DistinctCountBounds(vs: seq<ViewerRecord>, m: Identity)
    ensures DistinctCount(vs, m) <= |vs|
    ensures |vs| > 0 ==> DistinctCount(vs, m) >= 1
  {
    ElemsBounds(IdsOf(vs, m));
  }

  /** A record whose identity the bucket already holds does not change its count. */
  lemma DistinctCountDuplicate(vs: seq<ViewerRecord>, v: ViewerRecord, m: Identity)
    requires exists w :: w in vs && IdOf(m, w) == IdOf(m, v)
    ensures DistinctCount(vs + [v], m) == DistinctCount(vs, m)
  {
    var w :| w in vs && IdOf(m, w) == IdOf(m, v);
    var j :| 0 <= j < |vs| && vs[j] == w;
    assert IdsOf(vs, m)[j] == IdOf(m, v);
    assert IdsOf(vs + [v], m) == IdsOf(vs, m) + [IdOf(m, v)];
    ElemsDuplicate(IdsOf(vs, m), IdOf(m, v));
  }

  /**
   * The unsorted comprehension `[(key, len(set(...))) for key, viewer_list
   * in level.items()]`: one pair per key, in the dictionary's key order.
   */
  function Tally(g: Groups, m: Identity): (ps: seq<Pair>)
    requires Keyed(g)
    ensures |ps| == |g.keys|
    ensures forall j :: 0 <= j < |ps| ==>
      ps[j].name == g.keys[j] && ps[j].count == DistinctCount(g.members[g.keys[j]], m)
  {
    seq(|g.keys|, j requires 0 <= j < |g.keys| => Pair(g.keys[j], DistinctCount(g.members[g.keys[j]], m)))
  }

  /** The labels of a series (a chart's `x`). */
  function LabelsOf(ps: seq<Pair>): (r: seq<string>)
    ensures |r| == |ps| && forall j :: 0 <= j < |ps| ==> r[j] == ps[j].name
  {
    seq(|ps|, j requires 0 <= j < |ps| => ps[j].name)
  }

  /** Counts never exceed bucket sizes, and no key of a grouping counts zero. */
  lemma TallyBounds(rs: seq<ViewerRecord>, d: Dimension, classify: Classifier, m: Identity)
    ensures var g := GroupBy(rs, d, classify);
      Valid(g) &&
      forall j :: 0 <= j < |g.keys| ==>
        1 <= Tally(g, m)[j].count <= |g.members[g.keys[j]]|
  {
    var g := GroupBy(rs, d, classify);
    GroupByValid(rs, d, classify);
    forall j | 0 <= j < |g.keys|
      ensures 1 <= Tally(g, m)[j].count <= |g.members[g.keys[j]]|
    {
      GroupByNonEmpty(rs, d, classify, g.keys[j]);
      DistinctCountBounds(g.members[g.keys[j]], m);
    }
  }

  /** The labels of the unsorted series are the grouping's keys, first-seen order. */
  lemma TallyLabels(rs: seq<ViewerRecord>, d: Dimension, classify: Classifier, m: Identity)
    ensures var g := GroupBy(rs, d, classify);
      Valid(g) && LabelsOf(Tally(g, m)) == FirstSeen(KeysOf(rs, d, classify))
  {
    var g := GroupBy(rs, d, classify);
    GroupByValid(rs, d, classify);
    GroupByKeys(rs, d, classify);
    assert LabelsOf(Tally(g, m)) == g.keys;
  }

  /** The distinct identities of all records of `vs`. */
  function Identities(vs: seq<ViewerRecord>, m: Identity): set<string> {
    set r | r in vs :: IdOf(m, r)
  }

  /** `set(...)` of a record-order identity list is the set of identities of the records. */
  lemma ElemsIdsOf(vs: seq<ViewerRecord>, m: Identity)
    ensures Elems(IdsOf(vs, m)) == Identities(vs, m)
  {
    var ids := IdsOf(vs, m);
    forall x | x in Elems(ids) ensures x in Identities(vs, m) {
      var i :| 0 <= i < |ids| && ids[i] == x;
      assert vs[i] in vs;
    }
    forall x | x in Identities(vs, m) ensures x in Elems(ids) {
      var r :| r in vs && IdOf(m, r) == x;
      var i :| 0 <= i < |vs| && vs[i] == r;
      assert ids[i] == x;
    }
  }

  /**
   * The distinct identities among all records whose key along `d` is `k`:
   * a reference for a bucket's count that does not go through the buckets.
   */
  function IdentitiesWith(rs: seq<ViewerRecord>, d: Dimension, classify: Classifier, k: string, m: Identity): set<string> {
    set r | r in rs && Key(d, r, classify) == k :: IdOf(m, r)
  }

  lemma HavingIdentities(rs: seq<ViewerRecord>, d: Dimension, classify: Classifier, k: string, m: Identity)
    ensures Elems(IdsOf(Having(rs, d, classify, k), m)) == IdentitiesWith(rs, d, classify, k, m)
  {
    var h := Having(rs, d, classify, k);
    var ids := IdsOf(h, m);
    forall x | x in Elems(ids) ensures x in IdentitiesWith(rs, d, classify, k, m) {
      var i :| 0 <= i < |ids| && ids[i] == x;
      assert h[i] in h;
    }
    forall x | x in IdentitiesWith(rs, d, classify, k, m) ensures x in Elems(ids) {
      var r :| r in rs && Key(d, r, classify) == k && IdOf(m, r) == x;
      assert r in h;
      var i :| 0 <= i < |h| && h[i] == r;
      assert ids[i] == x;
    }
  }

  /** A bucket's distinct count is the number of distinct identities among the records with its key. */
  lemma TallyCounts(rs: seq<ViewerRecord>, d: Dimension, classify: Classifier, m: Identity, j: nat)
    requires var g := GroupBy(rs, d, classify); j < |g.keys| && Keyed(g)
    ensures var g := GroupBy(rs, d, classify);
      Tally(g, m)[j].count == |IdentitiesWith(rs, d, classify, g.keys[j], m)|
  {
    var g := GroupBy(rs, d, classify);
    var k := g.keys[j];
    GroupByMembers(rs, d, classify, k);
    HavingIdentities(rs, d, classify, k, m);
  }

  /**
   * Adding a record that repeats the key and the identity of a record
   * already seen leaves the unsorted series, and so every ranked series
   * built from it, unchanged.
   */
  lemma TallyDuplicate(rs: seq<ViewerRecord>, v: ViewerRecord, d: Dimension, classify: Classifier, m: Identity)
    requires exists w :: w in rs && Key(d, w, classify) == Key(d, v, classify) && IdOf(m, w) == IdOf(m, v)
    ensures Valid(GroupBy(rs, d, classify)) && Valid(GroupBy(rs + [v], d, classify))
    ensures Tally(GroupBy(rs + [v], d, classify), m) == Tally(GroupBy(rs, d, classify), m)
  {
    var g := GroupBy(rs, d, classify);
    var k := Key(d, v, classify);
    GroupByValid(rs, d, classify);
    GroupByValid(rs + [v], d, classify);
    var w :| w in rs && Key(d, w, classify) == k && IdOf(m, w) == IdOf(m, v);
    var j :| 0 <= j < |rs| && rs[j] == w;
    GroupByPlaces(rs, d, classify, j);
    GroupBySnoc(rs, v, d, classify);
    AppendSpec(g, k, v);
    DistinctCountDuplicate(g.members[k], v, m);
  }

  // ------------------------------------------------------------- ordering

  /** Counts never increase along the series. */
  ghost predicate NonIncreasing(ps: seq<Pair>) {
    forall i, j :: 0 <= i < j < |ps| ==> ps[i].count >= ps[j].count
  }

  /**
   * Insertion of `x` into a series sorted by decreasing count, after every
   * pair whose count is at least `x`'s: the step of a stable sort.
   */
  function Insert(x: Pair, s: seq<Pair>): seq<Pair> {
    if |s| == 0 then [x]
    else if s[0].count >= x.count then [s[0]] + Insert(x, s[1..])
    else [x] + s
  }

  /**
   * `sorted(ps, key=lambda p: -p.count)`: Python's stable sort by
   * decreasing count, as an insertion sort in list order.
   */
  function Rank(ps: seq<Pair>): seq<Pair> {
    if |ps| == 0 then []
    else Insert(ps[|ps| - 1], Rank(ps[..|ps| - 1]))
  }

  /** The pairs of `ps` whose count is `c`, in their order in `ps`. */
  function WithCount(ps: seq<Pair>, c: nat): seq<Pair> {
    if |ps| == 0 then []
    else (if ps[0].count == c then [ps[0]] else []) + WithCount(ps[1..], c)
  }

  lemma {:induction false} WithCountConcat(a: seq<Pair>, b: seq<Pair>, c: nat)
    ensures WithCount(a + b, c) == WithCount(a, c) + WithCount(b, c)
  {
    if |a| > 0 {
      assert (a + b)[0] == a[0] && (a + b)[1..] == a[1..] + b;
      WithCountConcat(a[1..], b, c);
    } else {
      assert a + b == b;
    }
  }

  lemma {:induction false} WithCountNone(ps: seq<Pair>, c: nat)
    requires forall j :: 0 <= j < |ps| ==> ps[j].count != c
    ensures WithCount(ps, c) == []
  {
    if |ps| > 0 {
      WithCountNone(ps[1..], c);
    }
  }

  /** Insertion adds `x` to the pairs and loses none. */
  lemma {:induction false} InsertPermutes(x: Pair, s: seq<Pair>)
    ensures multiset(Insert(x, s)) == multiset(s) + multiset{x}
  {
    if |s| > 0 && s[0].count >= x.count {
      InsertPermutes(x, s[1..]);
      assert s == [s[0]] + s[1..];
    }
  }

  lemma LabelsCons(a: Pair, t: seq<Pair>)
    ensures LabelsOf([a] + t) == [a.name] + LabelsOf(t)
  {
  }

  /** Insertion adds the label of `x` to the labels and loses none. */
  lemma {:induction false} InsertLabels(x: Pair, s: seq<Pair>)
    ensures multiset(LabelsOf(Insert(x, s))) == multiset(LabelsOf(s)) + multiset{x.name}
  {
    if |s| == 0 {
      assert LabelsOf([x]) == [x.name];
    } else if s[0].count >= x.count {
      InsertLabels(x, s[1..]);
      LabelsCons(s[0], Insert(x, s[1..]));
      LabelsCons(s[0], s[1..]);
      assert s == [s[0]] + s[1..];
    } else {
      LabelsCons(x, s);
    }
  }

  /** Every pair of an insertion is `x` or a pair of `s`. */
  lemma {:induction false} InsertMembers(x: Pair, s: seq<Pair>)
    ensures forall y :: y in Insert(x, s) ==> y == x || y in s
  {
    InsertPermutes(x, s);
    forall y | y in Insert(x, s) ensures y == x || y in s {
      assert y in multiset(Insert(x, s));
    }
  }

  lemma {:induction false} InsertSorted(x: Pair, s: seq<Pair>)
    requires NonIncreasing(s)
    ensures NonIncreasing(Insert(x, s))
  {
    if |s| > 0 && s[0].count >= x.count {
      var t := Insert(x, s[1..]);
      InsertSorted(x, s[1..]);
      InsertMembers(x, s[1..]);
      var u := [s[0]] + t;
      forall i, j | 0 <= i < j < |u| ensures u[i].count >= u[j].count {
        assert u[j] == t[j - 1] && u[j] in t;
        if i > 0 {
          assert u[i] == t[i - 1];
        }
      }
    }
  }

  /** Insertion appends `x` to the pairs of its own count and leaves the others in place. */
  lemma {:induction false} InsertWithCount(x: Pair, s: seq<Pair>, c: nat)
    requires NonIncreasing(s)
    ensures WithCount(Insert(x, s), c) == WithCount(s, c) + (if x.count == c then [x] else [])
  {
    var hx := if x.count == c then [x] else [];
    if |s| == 0 {
      assert Insert(x, s) == [x];
      assert WithCount([x], c) == hx + WithCount([], c);
    } else if s[0].count >= x.count {
      var h0 := if s[0].count == c then [s[0]] else [];
      var tail := s[1..];
      assert NonIncreasing(tail) by {
        forall i, j | 0 <= i < j < |tail| ensures tail[i].count >= tail[j].count {
          assert tail[i] == s[i + 1] && tail[j] == s[j + 1];
        }
      }
      InsertWithCount(x, tail, c);
      var u := Insert(x, s);
      assert u == [s[0]] + Insert(x, tail);
      assert u[0] == s[0] && u[1..] == Insert(x, tail);
      calc {
        WithCount(u, c);
        h0 + WithCount(Insert(x, tail), c);
        h0 + (WithCount(tail, c) + hx);
        (h0 + WithCount(tail, c)) + hx;
        WithCount(s, c) + hx;
      }
    } else {
      var u := Insert(x, s);
      assert u == [x] + s;
      assert u[0] == x && u[1..] == s;
      if x.count == c {
        forall j | 0 <= j < |s| ensures s[j].count != c {
          assert s[0].count >= s[j].count;
        }
        WithCountNone(s, c);
        assert WithCount(u, c) == [x] + [];
      }
    }
  }

  /** The ranked series is sorted by decreasing count. */
  lemma {:induction false} RankSorted(ps: seq<Pair>)
    ensures NonIncreasing(Rank(ps))
  {
    if |ps| > 0 {
      var n := |ps| - 1;
      RankSorted(ps[..n]);
      InsertSorted(ps[n], Rank(ps[..n]));
    }
  }

  /** The ranked series holds exactly the input pairs. */
  lemma {:induction false} RankPermutes(ps: seq<Pair>)
    ensures multiset(Rank(ps)) == multiset(ps)
  {
    if |ps| > 0 {
      var n := |ps| - 1;
      RankPermutes(ps[..n]);
      InsertPermutes(ps[n], Rank(ps[..n]));
      assert ps == ps[..n] + [ps[n]];
    }
  }

  /** The ranked series holds exactly the input labels. */
  lemma {:induction false} RankLabels(ps: seq<Pair>)
    ensures multiset(LabelsOf(Rank(ps))) == multiset(LabelsOf(ps))
  {
    if |ps| > 0 {
      var n := |ps| - 1;
      RankLabels(ps[..n]);
      InsertLabels(ps[n], Rank(ps[..n]));
      assert LabelsOf(ps) == LabelsOf(ps[..n]) + [ps[n].name];
    }
  }

  /** Stability: among equal counts the ranked series keeps the input order. */
  lemma {:induction false} RankStable(ps: seq<Pair>, c: nat)
    ensures WithCount(Rank(ps), c) == WithCount(ps, c)
  {
    if |ps| > 0 {
      var n := |ps| - 1;
      var x := ps[n];
      RankStable(ps[..n], c);
      RankSorted(ps[..n]);
      InsertWithCount(x, Rank(ps[..n]), c);
      assert ps == ps[..n] + [x];
      WithCountConcat(ps[..n], [x], c);
      assert WithCount([x], c) == if x.count == c then [x] else [];
    }
  }

  /** Inserting a pair no larger than every count of a series puts it at the end. */
  lemma {:induction false} InsertLast(x: Pair, s: seq<Pair>)
    requires forall j :: 0 <= j < |s| ==> s[j].count >= x.count
    ensures Insert(x, s) == s + [x]
  {
    if |s| > 0 {
      InsertLast(x, s[1..]);
      assert s == [s[0]] + s[1..];
    }
  }

  /** A series already sorted by decreasing count is its own ranking. */
  lemma {:induction false} RankOfSorted(ps: seq<Pair>)
    requires NonIncreasing(ps)
    ensures Rank(ps) == ps
  {
    if |ps| > 0 {
      var n := |ps| - 1;
      RankOfSorted(ps[..n]);
      InsertLast(ps[n], ps[..n]);
      assert ps == ps[..n] + [ps[n]];
    }
  }

  /** Ranking a ranked series again gives the same series. */
  lemma RankIdempotent(ps: seq<Pair>)
    ensures Rank(Rank(ps)) == Rank(ps)
  {
    RankSorted(ps);
    RankOfSorted(Rank(ps));
  }

  /** A pair is kept by `WithCount` exactly when it has that count. */
  lemma {:induction false} WithCountMembers(ps: seq<Pair>, c: nat)
    ensures forall y :: y in WithCount(ps, c) <==> y in ps && y.count == c
  {
    if |ps| > 0 {
      WithCountMembers(ps[1..], c);
      assert ps == [ps[0]] + ps[1..];
    }
  }

  /**
   * Sortedness and stability determine a series: two series sorted by
   * decreasing count that agree on the order of every count class are equal.
   */
  lemma {:induction false} SortedUnique(a: seq<Pair>, b: seq<Pair>)
    requires NonIncreasing(a) && NonIncreasing(b)
    requires forall c :: WithCount(a, c) == WithCount(b, c)
    ensures a == b
  {
    if |a| == 0 && |b| == 0 {
    } else if |a| == 0 {
      WithCountMembers(b, b[0].count);
      assert false;
    } else if |b| == 0 {
      WithCountMembers(a, a[0].count);
      assert false;
    } else {
      var ca, cb := a[0].count, b[0].count;
      WithCountMembers(a, ca);
      WithCountMembers(b, ca);
      WithCountMembers(a, cb);
      WithCountMembers(b, cb);
      assert a[0] in WithCount(b, ca);
      assert b[0] in WithCount(a, cb);
      assert ca == cb;
      assert WithCount(a, ca)[0] == a[0] && WithCount(b, ca)[0] == b[0];
      var ta, tb := a[1..], b[1..];
      assert NonIncreasing(ta) by {
        forall i, j | 0 <= i < j < |ta| ensures ta[i].count >= ta[j].count {
          assert ta[i] == a[i + 1] && ta[j] == a[j + 1];
        }
      }
      assert NonIncreasing(tb) by {
        forall i, j | 0 <= i < j < |tb| ensures tb[i].count >= tb[j].count {
          assert tb[i] == b[i + 1] && tb[j] == b[j + 1];
        }
      }
      assert a[0] == b[0];
      forall c ensures WithCount(ta, c) == WithCount(tb, c) {
        var h := if ca == c then [a[0]] else [];
        var w := WithCount(a, c);
        assert w == h + WithCount(ta, c) && w[|h|..] == WithCount(ta, c);
        assert WithCount(b, c) == h + WithCount(tb, c) && w[|h|..] == WithCount(tb, c);
      }
      SortedUnique(ta, tb);
      assert a == [a[0]] + ta && b == [b[0]] + tb;
    }
  }

  /**
   * The ranking is the only series that is sorted by decreasing count and
   * keeps the input order among equal counts: what a stable sort promises.
   */
  lemma RankUnique(ps: seq<Pair>, t: seq<Pair>)
    requires NonIncreasing(t)
    requires forall c :: WithCount(t, c) == WithCount(ps, c)
    ensures t == Rank(ps)
  {
    RankSorted(ps);
    forall c ensures WithCount(t, c) == WithCount(Rank(ps), c) {
      RankStable(ps, c);
    }
    SortedUnique(t, Rank(ps));
  }

  /**
   * One ranked series of the report: the buckets of `g` counted by
   * identity `m` and sorted by decreasing count.
   */
  function Series(g: Groups, m: Identity): seq<Pair>
    requires Keyed(g)
  {
    Rank(Tally(g, m))
  }

  /**
   * The ranked series of a grouping is a permutation of its unsorted pairs,
   * sorted by decreasing count and stable among equal counts; every label
   * is a key of the grouping and no count is zero or larger than its bucket.
   */
  lemma SeriesSpec(rs: seq<ViewerRecord>, d: Dimension, classify: Classifier, m: Identity)
    ensures var g := GroupBy(rs, d, classify);
      && Valid(g)
      && NonIncreasing(Series(g, m))
      && multiset(Series(g, m)) == multiset(Tally(g, m))
      && (forall c :: WithCount(Series(g, m), c) == WithCount(Tally(g, m), c))
      && (forall p :: p in Series(g, m) ==>
            p.name in g.members && 1 <= p.count <= |g.members[p.name]|)
  {
    var g := GroupBy(rs, d, classify);
    GroupByValid(rs, d, classify);
    var t := Tally(g, m);
    RankSorted(t);
    RankPermutes(t);
    forall c ensures WithCount(Series(g, m), c) == WithCount(t, c) {
      RankStable(t, c);
    }
    TallyBounds(rs, d, classify, m);
    forall p | p in Series(g, m) ensures p.name in g.members && 1 <= p.count <= |g.members[p.name]| {
      assert p in multiset(t);
      var j :| 0 <= j < |t| && t[j] == p;
    }
  }

  /**
   * Every pair of a ranked series counts the distinct identities among the
   * records with its label as key.
   */
  lemma SeriesCounts(rs: seq<ViewerRecord>, d: Dimension, classify: Classifier, m: Identity)
    ensures var g := GroupBy(rs, d, classify);
      && Valid(g)
      && forall p :: p in Series(g, m) ==> p.count == |IdentitiesWith(rs, d, classify, p.name, m)|
  {
    var g := GroupBy(rs, d, classify);
    GroupByValid(rs, d, classify);
    var t := Tally(g, m);
    RankPermutes(t);
    forall p | p in Series(g, m) ensures p.count == |IdentitiesWith(rs, d, classify, p.name, m)| {
      assert p in multiset(t);
      var j :| 0 <= j < |t| && t[j] == p;
      TallyCounts(rs, d, classify, m, j);
    }
  }

  /** The labels of a ranked series are the grouping's keys, each once, in some order. */
  lemma SeriesLabels(rs: seq<ViewerRecord>, d: Dimension, classify: Classifier, m: Identity)
    ensures var g := GroupBy(rs, d, classify);
      Valid(g) && multiset(LabelsOf(Series(g, m))) == multiset(FirstSeen(KeysOf(rs, d, classify)))
  {
    var g := GroupBy(rs, d, classify);
    TallyLabels(rs, d, classify, m);
    RankLabels(Tally(g, m));
  }
}
