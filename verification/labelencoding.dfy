/**
 * scikit-learn's `LabelEncoder` as the training command uses it: `fit` keeps
 * the sorted distinct user ids (`np.unique`), `transform` maps an id to its
 * position in that list, `inverse_transform` maps a position back and raises
 * for a position it never produced.
 */
module LabelEncoding {
  import opened Wrappers

  predicate StrictlyIncreasing(s: seq<nat>) {
    forall i, j :: 0 <= i < j < |s| ==> s[i] < s[j]
  }

  /** Adds `x` to a strictly increasing list, keeping it strictly increasing. */
  function InsertSorted(s: seq<nat>, x: nat): (r: seq<nat>)
    requires StrictlyIncreasing(s)
    ensures StrictlyIncreasing(r)
    ensures forall y :: y in r <==> y in s || y == x
  {
    if s == [] then [x]
    else if x < s[0] then [x] + s
    else if x == s[0] then s
    else
      var rest := InsertSorted(s[1..], x);
      assert forall y :: y in s <==> y == s[0] || y in s[1..] by {
        assert s == [s[0]] + s[1..];
      }
      assert forall i :: 0 <= i < |rest| ==> s[0] < rest[i] by {
        assert forall i :: 0 <= i < |s| - 1 ==> s[1..][i] == s[i + 1];
        assert forall i :: 0 <= i < |rest| ==> rest[i] in rest;
      }
      ConsIncreasing(s[0], rest);
      [s[0]] + rest
  }

  lemma ConsIncreasing(x: nat, s: seq<nat>)
    requires StrictlyIncreasing(s)
    requires forall i :: 0 <= i < |s| ==> x < s[i]
    ensures StrictlyIncreasing([x] + s)
  {
    var r := [x] + s;
    forall i, j | 0 <= i < j < |r|
      ensures r[i] < r[j]
    {
      assert r[j] == s[j - 1];
      if i > 0 {
        assert r[i] == s[i - 1];
      }
    }
  }

  /** `np.unique(xs)`: the distinct values of `xs`, in increasing order. */
  function Unique(xs: seq<nat>): (r: seq<nat>)
    ensures StrictlyIncreasing(r)
    ensures forall y :: y in r <==> y in xs
  {
    if xs == [] then []
    else
      var init := xs[..|xs| - 1];
      assert forall y :: y in xs <==> y in init || y == xs[|xs| - 1] by {
        assert xs == init + [xs[|xs| - 1]];
      }
      InsertSorted(Unique(init), xs[|xs| - 1])
  }

  /** Python's `set(xs)`. */
  function SetOf(xs: seq<nat>): (r: set<nat>)
    ensures forall y :: y in r <==> y in xs
  {
    if xs == [] then {}
    else
      var init := xs[..|xs| - 1];
      assert xs == init + [xs[|xs| - 1]];
      SetOf(init) + {xs[|xs| - 1]}
  }

  /** A list without repeats has as many elements as the set of its elements. */
  lemma {:induction false} DistinctCardinality(s: seq<nat>)
    requires StrictlyIncreasing(s)
    ensures |SetOf(s)| == |s|
  {
    if s != [] {
      var init := s[..|s| - 1];
      var last := s[|s| - 1];
      assert StrictlyIncreasing(init);
      DistinctCardinality(init);
      assert last !in SetOf(init) by {
        assert forall i :: 0 <= i < |init| ==> init[i] < last;
      }
    }
  }

  /** `len(set(user_ids))` equals the number of classes the encoder keeps. */
  lemma UniqueCount(xs: seq<nat>)
    ensures |Unique(xs)| == |SetOf(xs)|
  {
    DistinctCardinality(Unique(xs));
    assert SetOf(Unique(xs)) == SetOf(xs);
  }

  /** A list whose values are all one value has exactly one class; every entry is that value. */
  lemma SingleClass(xs: seq<nat>)
    requires |xs| > 0 && |Unique(xs)| == 1
    ensures forall i :: 0 <= i < |xs| ==> xs[i] == xs[0]
  {
    var u := Unique(xs);
    forall i | 0 <= i < |xs|
      ensures xs[i] == xs[0]
    {
      assert xs[i] in u && xs[0] in u;
    }
  }

  /** Position of `x` in a list that holds it. */
  function IndexOf(s: seq<nat>, x: nat): (i: nat)
    requires x in s
    ensures i < |s| && s[i] == x
  {
    if s[0] == x then 0 else 1 + IndexOf(s[1..], x)
  }

  /** `transform`: an id seen by `fit` becomes its position among the classes. */
  function Encode(classes: seq<nat>, x: nat): (k: nat)
    requires x in classes
    ensures k < |classes| && classes[k] == x
  {
    IndexOf(classes, x)
  }

  /** `inverse_transform`: `None` stands for the ValueError raised on a label it never produced. */
  function Decode(classes: seq<nat>, k: int): (r: Option<nat>)
    ensures r.Some? <==> 0 <= k < |classes|
    ensures r.Some? ==> r.value in classes
  {
    if 0 <= k < |classes| then Some(classes[k]) else None
  }

  /** Decoding an encoded id gives the id back. */
  lemma DecodeEncode(classes: seq<nat>, x: nat)
    requires x in classes
    ensures Decode(classes, Encode(classes, x)) == Some(x)
  {
  }

  /** Encoding a decoded label gives the label back: the encoding is a bijection onto 0..K-1. */
  lemma EncodeDecode(classes: seq<nat>, k: nat)
    requires StrictlyIncreasing(classes) && k < |classes|
    ensures Encode(classes, classes[k]) == k
  {
  }

  /** `transform` over a whole list of ids. */
  function EncodeAll(classes: seq<nat>, xs: seq<nat>): (ks: seq<nat>)
    requires forall i :: 0 <= i < |xs| ==> xs[i] in classes
    ensures |ks| == |xs|
    ensures forall i :: 0 <= i < |ks| ==> ks[i] < |classes| && Decode(classes, ks[i]) == Some(xs[i])
  {
    if xs == [] then []
    else [Encode(classes, xs[0])] + EncodeAll(classes, xs[1..])
  }

  /** `fit_transform(user_ids)`: the fitted classes and the dense labels 0..K-1. */
  function FitTransform(ids: seq<nat>): (r: (seq<nat>, seq<nat>))
    ensures StrictlyIncreasing(r.0)
    ensures forall y :: y in r.0 <==> y in ids
    ensures |r.1| == |ids|
    ensures forall i :: 0 <= i < |ids| ==> r.1[i] < |r.0| && Decode(r.0, r.1[i]) == Some(ids[i])
  {
    var classes := Unique(ids);
    assert forall i :: 0 <= i < |ids| ==> ids[i] in classes;
    (classes, EncodeAll(classes, ids))
  }
}
