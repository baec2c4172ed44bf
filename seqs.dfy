/** Sequence helpers shared by the grouping, ranking and merge models. */
module Seqs {

  /** No element occurs twice. */
  ghost predicate Distinct<T>(s: seq<T>) {
    forall i, j :: 0 <= i < j < |s| ==> s[i] != s[j]
  }

  /** The set of elements of `s` (Python's `set(s)`). */
  function Elems<T>(s: seq<T>): set<T> {
    set x | x in s
  }

  /** Index of the first occurrence of `x` in `s`, or `|s|` when there is none. */
  function FirstIndex<T(==)>(s: seq<T>, x: T): (i: nat)
    ensures i <= |s|
    ensures i < |s| <==> x in s
    ensures i < |s| ==> s[i] == x
    ensures forall j :: 0 <= j < i ==> s[j] != x
  {
    if |s| == 0 then 0
    else if s[0] == x then 0
    else 1 + FirstIndex(s[1..], x)
  }

  lemma {:induction false} FirstIndexSnoc<T>(s: seq<T>, x: T, y: T)
    requires y in s
    ensures FirstIndex(s + [x], y) == FirstIndex(s, y)
  {
    var i := FirstIndex(s, y);
    var t := s + [x];
    assert t[i] == y;
    assert forall j :: 0 <= j < i ==> t[j] != y;
    FirstIndexIsFirst(t, y, i);
  }

  /** Any index holding `y` with no earlier `y` is the first index. */
  lemma {:induction false} FirstIndexIsFirst<T>(s: seq<T>, y: T, i: nat)
    requires i < |s| && s[i] == y
    requires forall j :: 0 <= j < i ==> s[j] != y
    ensures FirstIndex(s, y) == i
  {
    if i > 0 {
      FirstIndexIsFirst(s[1..], y, i - 1);
    }
  }

  /**
   * The elements of `xs` that are not in `known`, each once, in the order
   * in which they first occur in `xs`: the result of appending each
   * element of `xs` to a list after checking that neither `known` nor the
   * list holds it yet.
   */
  function Fresh<T(==,!new)>(known: seq<T>, xs: seq<T>): (r: seq<T>)
    ensures Distinct(r)
    ensures forall y :: y in r <==> y in xs && y !in known
  {
    if |xs| == 0 then []
    else
      var p := Fresh(known, xs[..|xs| - 1]);
      var x := xs[|xs| - 1];
      if x in known || x in p then p else p + [x]
  }

  /** Distinct-by-construction lists keep the order in which elements first occur in `xs`. */
  ghost predicate FirstSeenOrder<T>(r: seq<T>, xs: seq<T>) {
    forall i, j :: 0 <= i < j < |r| ==> FirstIndex(xs, r[i]) < FirstIndex(xs, r[j])
  }

  /** `Fresh` lists its elements in the order of their first occurrence in `xs`. */
  lemma {:induction false} FreshOrder<T(!new)>(known: seq<T>, xs: seq<T>)
    ensures FirstSeenOrder(Fresh(known, xs), xs)
  {
    if |xs| > 0 {
      var init := xs[..|xs| - 1];
      var x := xs[|xs| - 1];
      var p := Fresh(known, init);
      FreshOrder(known, init);
      assert xs == init + [x];
      forall y | y in p ensures FirstIndex(xs, y) == FirstIndex(init, y) {
        FirstIndexSnoc(init, x, y);
      }
      var r := Fresh(known, xs);
      forall i, j | 0 <= i < j < |r| ensures FirstIndex(xs, r[i]) < FirstIndex(xs, r[j]) {
        assert r[i] == p[i] && p[i] in init;
        assert FirstIndex(xs, r[i]) == FirstIndex(init, p[i]) < |init|;
        if j < |p| {
          assert r[j] == p[j];
          assert FirstIndex(xs, r[j]) == FirstIndex(init, p[j]);
        } else {
          assert r[j] == x && x !in init;
          FirstIndexIsFirst(xs, x, |init|);
        }
      }
    }
  }

  /** `Fresh` with nothing known: the distinct elements of `xs` in first-seen order. */
  function FirstSeen<T(==,!new)>(xs: seq<T>): (r: seq<T>)
    ensures Distinct(r)
    ensures forall y :: y in r <==> y in xs
  {
    Fresh([], xs)
  }

  lemma FirstSeenStep<T(!new)>(xs: seq<T>)
    requires |xs| > 0
    ensures var p := FirstSeen(xs[..|xs| - 1]);
      FirstSeen(xs) == if xs[|xs| - 1] in p then p else p + [xs[|xs| - 1]]
  {
  }

  /** Python's `len(set(xs))` is at most `len(xs)`, and at least 1 for a non-empty list. */
  lemma {:induction false} ElemsBounds<T>(s: seq<T>)
    ensures |Elems(s)| <= |s|
    ensures |s| > 0 ==> |Elems(s)| >= 1
  {
    if |s| > 0 {
      var init := s[..|s| - 1];
      ElemsBounds(init);
      assert s == init + [s[|s| - 1]];
      assert Elems(s) == Elems(init) + {s[|s| - 1]};
      assert s[0] in Elems(s);
    }
  }

  /** Appending a value already present leaves `set(xs)` unchanged. */
  lemma ElemsDuplicate<T>(s: seq<T>, x: T)
    requires x in s
    ensures Elems(s + [x]) == Elems(s)
  {
  }
}
