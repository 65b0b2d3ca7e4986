/**
 * Walking a sequence in order and keeping the values a selector picks out of
 * some of its elements: the shape of every extraction loop in the core.
 */
module Filtering {
  import opened Wrappers

  /** The values `f` picks out of `xs`, in the order of `xs`. */
  function FilterMap<A, B>(xs: seq<A>, f: A -> Option<B>): (r: seq<B>)
    ensures |r| <= |xs|
  {
    if |xs| == 0 then []
    else
      var n := |xs| - 1;
      match f(xs[n])
      case Some(y) => FilterMap(xs[..n], f) + [y]
      case None => FilterMap(xs[..n], f)
  }

  /** The positions of `xs` whose element `f` picks, in increasing order. */
  function Picked<A, B>(xs: seq<A>, f: A -> Option<B>): (ix: seq<nat>)
    ensures forall j :: 0 <= j < |ix| ==> ix[j] < |xs|
  {
    if |xs| == 0 then []
    else
      var n := |xs| - 1;
      Picked(xs[..n], f) + (if f(xs[n]).Some? then [n] else [])
  }

  /** Extending the input by one element extends the output by at most that element's value. */
  lemma FilterMapSnoc<A, B>(xs: seq<A>, x: A, f: A -> Option<B>)
    ensures FilterMap(xs + [x], f) == FilterMap(xs, f) + (if f(x).Some? then [f(x).value] else [])
  {
    assert (xs + [x])[..|xs|] == xs;
  }

  lemma {:induction false} PickedLength<A, B>(xs: seq<A>, f: A -> Option<B>)
    ensures |FilterMap(xs, f)| == |Picked(xs, f)|
  {
    if |xs| > 0 {
      PickedLength(xs[..|xs| - 1], f);
    }
  }

  lemma {:induction false} PickedValueAt<A, B>(xs: seq<A>, f: A -> Option<B>, j: nat)
    requires j < |Picked(xs, f)|
    ensures |FilterMap(xs, f)| == |Picked(xs, f)|
    ensures f(xs[Picked(xs, f)[j]]) == Some(FilterMap(xs, f)[j])
  {
    PickedLength(xs, f);
    var n := |xs| - 1;
    var pre := xs[..n];
    PickedLength(pre, f);
    if j < |Picked(pre, f)| {
      PickedValueAt(pre, f, j);
      assert Picked(xs, f)[j] == Picked(pre, f)[j];
      assert FilterMap(xs, f)[j] == FilterMap(pre, f)[j];
      assert xs[Picked(pre, f)[j]] == pre[Picked(pre, f)[j]];
    }
  }

  lemma {:induction false} PickedValues<A, B>(xs: seq<A>, f: A -> Option<B>)
    ensures |FilterMap(xs, f)| == |Picked(xs, f)|
    ensures forall j :: 0 <= j < |Picked(xs, f)| ==> f(xs[Picked(xs, f)[j]]) == Some(FilterMap(xs, f)[j])
  {
    PickedLength(xs, f);
    forall j | 0 <= j < |Picked(xs, f)|
      ensures f(xs[Picked(xs, f)[j]]) == Some(FilterMap(xs, f)[j])
    {
      PickedValueAt(xs, f, j);
    }
  }

  lemma {:induction false} PickedIncreasing<A, B>(xs: seq<A>, f: A -> Option<B>)
    ensures forall i, j :: 0 <= i < j < |Picked(xs, f)| ==> Picked(xs, f)[i] < Picked(xs, f)[j]
  {
    if |xs| > 0 {
      PickedIncreasing(xs[..|xs| - 1], f);
    }
  }

  lemma {:induction false} PickedComplete<A, B>(xs: seq<A>, f: A -> Option<B>)
    ensures forall k :: 0 <= k < |xs| ==> (f(xs[k]).Some? <==> k in Picked(xs, f))
  {
    if |xs| > 0 {
      var n := |xs| - 1;
      var pre := xs[..n];
      PickedComplete(pre, f);
      assert forall k :: 0 <= k < n ==> xs[k] == pre[k];
    }
  }

  /** One position: it is picked exactly when it is a position of `xs` whose element `f` picks. */
  lemma {:induction false} PickedAt<A, B>(xs: seq<A>, f: A -> Option<B>, k: nat)
    ensures k in Picked(xs, f) <==> k < |xs| && f(xs[k]).Some?
  {
    if |xs| > 0 {
      var n := |xs| - 1;
      var pre := xs[..n];
      PickedAt(pre, f, k);
      if k < n {
        assert xs[k] == pre[k];
      }
    }
  }

  /**
   * The output is exactly the picked values, position by position, of the
   * elements `f` picks, in increasing position order; no other element is
   * represented and no value is added.
   */
  lemma {:induction false} FilterMapSpec<A, B>(xs: seq<A>, f: A -> Option<B>)
    ensures |FilterMap(xs, f)| == |Picked(xs, f)|
    ensures forall j :: 0 <= j < |Picked(xs, f)| ==> f(xs[Picked(xs, f)[j]]) == Some(FilterMap(xs, f)[j])
    ensures forall i, j :: 0 <= i < j < |Picked(xs, f)| ==> Picked(xs, f)[i] < Picked(xs, f)[j]
    ensures forall k :: 0 <= k < |xs| ==> (f(xs[k]).Some? <==> k in Picked(xs, f))
  {
    PickedValues(xs, f);
    PickedIncreasing(xs, f);
    PickedComplete(xs, f);
  }

  /** Nothing is extracted exactly when no element is picked. */
  lemma {:induction false} FilterMapEmpty<A, B>(xs: seq<A>, f: A -> Option<B>)
    ensures FilterMap(xs, f) == [] <==> forall k :: 0 <= k < |xs| ==> f(xs[k]).None?
  {
    FilterMapSpec(xs, f);
    if FilterMap(xs, f) != [] {
      var k := Picked(xs, f)[0];
      assert f(xs[k]).Some?;
    }
  }

  /** When every element is picked, the output is the picked value of each element, in order. */
  lemma {:induction false} FilterMapTotal<A, B>(xs: seq<A>, f: A -> Option<B>)
    requires forall k :: 0 <= k < |xs| ==> f(xs[k]).Some?
    ensures |FilterMap(xs, f)| == |xs|
    ensures forall k :: 0 <= k < |xs| ==> FilterMap(xs, f)[k] == f(xs[k]).value
  {
    if |xs| > 0 {
      var n := |xs| - 1;
      assert forall k :: 0 <= k < n ==> xs[..n][k] == xs[k];
      FilterMapTotal(xs[..n], f);
    }
  }
}
