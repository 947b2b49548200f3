/** Small generic helpers shared by the modules of the model. */
module Wrappers {
  /** The optional result of the source's functions that return `False` instead of a value. */
  datatype Option<+T> = None | Some(value: T)

  /** Concatenation of sequences is associative. */
  lemma AppendAssoc<T>(a: seq<T>, b: seq<T>, c: seq<T>)
    ensures (a + b) + c == a + (b + c)
  {
  }

  /** f applied to every element of xs, in order (a loop that appends f(x) for every x). */
  function MapSeq<A, B>(xs: seq<A>, f: A -> B): (r: seq<B>)
    ensures |r| == |xs|
    ensures forall k :: 0 <= k < |xs| ==> r[k] == f(xs[k])
  {
    if xs == [] then [] else MapSeq(xs[..|xs| - 1], f) + [f(xs[|xs| - 1])]
  }

  /** The values f yields on xs, in order, skipping the elements where it yields None. */
  function FilterMap<A, B>(xs: seq<A>, f: A -> Option<B>): seq<B>
  {
    if xs == [] then []
    else
      FilterMap(xs[..|xs| - 1], f) +
      match f(xs[|xs| - 1])
      case Some(y) => [y]
      case None => []
  }

  /** The sequences f yields on xs, concatenated in order. */
  function FlatMap<A, B>(xs: seq<A>, f: A -> seq<B>): seq<B>
  {
    if xs == [] then [] else FlatMap(xs[..|xs| - 1], f) + f(xs[|xs| - 1])
  }

  /** Extending the prefix of xs by one element appends what f yields on it. */
  lemma FlatMapPrefix<A, B>(xs: seq<A>, i: int, f: A -> seq<B>)
    requires 0 <= i < |xs|
    ensures FlatMap(xs[..i + 1], f) == FlatMap(xs[..i], f) + f(xs[i])
  {
    assert xs[..i + 1][..i] == xs[..i];
  }

  /** Extending the prefix of xs by one element appends f's value on it, if any. */
  lemma FilterMapPrefix<A, B>(xs: seq<A>, i: int, f: A -> Option<B>)
    requires 0 <= i < |xs|
    ensures FilterMap(xs[..i + 1], f) == FilterMap(xs[..i], f) + if f(xs[i]).Some? then [f(xs[i]).value] else []
  {
    assert xs[..i + 1][..i] == xs[..i];
  }

  /** Mapping xs extended by x appends f(x). */
  lemma MapSeqSnoc<A, B>(xs: seq<A>, x: A, f: A -> B)
    ensures MapSeq(xs + [x], f) == MapSeq(xs, f) + [f(x)]
  {
    assert (xs + [x])[..|xs|] == xs;
  }

  /** Mapping distributes over concatenation. */
  lemma {:induction false} MapSeqAppend<A, B>(xs: seq<A>, ys: seq<A>, f: A -> B)
    ensures MapSeq(xs + ys, f) == MapSeq(xs, f) + MapSeq(ys, f)
  {
    var r := MapSeq(xs + ys, f);
    var q := MapSeq(xs, f) + MapSeq(ys, f);
    assert |r| == |q|;
    forall k | 0 <= k < |r|
      ensures r[k] == q[k]
    {
      if k < |xs| {
        assert (xs + ys)[k] == xs[k];
      } else {
        assert (xs + ys)[k] == ys[k - |xs|];
      }
    }
  }

  /** y is kept exactly when f yields it on some element. */
  lemma {:induction false} FilterMapMembers<A, B>(xs: seq<A>, f: A -> Option<B>)
    ensures forall y :: y in FilterMap(xs, f) <==> exists j :: 0 <= j < |xs| && f(xs[j]) == Some(y)
  {
    if xs != [] {
      var front := xs[..|xs| - 1];
      FilterMapMembers(front, f);
      forall y
        ensures y in FilterMap(xs, f) <==> exists j :: 0 <= j < |xs| && f(xs[j]) == Some(y)
      {
        if exists j :: 0 <= j < |xs| && f(xs[j]) == Some(y) {
          var j :| 0 <= j < |xs| && f(xs[j]) == Some(y);
          if j < |front| {
            assert front[j] == xs[j];
          }
        }
        if y in FilterMap(front, f) {
          var j :| 0 <= j < |front| && f(front[j]) == Some(y);
          assert xs[j] == front[j];
        }
      }
    }
  }

  /** y is in the concatenation exactly when it is in what f yields on some element. */
  lemma {:induction false} FlatMapMembers<A, B>(xs: seq<A>, f: A -> seq<B>)
    ensures forall y :: y in FlatMap(xs, f) <==> exists j :: 0 <= j < |xs| && y in f(xs[j])
  {
    if xs != [] {
      var front := xs[..|xs| - 1];
      FlatMapMembers(front, f);
      forall y
        ensures y in FlatMap(xs, f) <==> exists j :: 0 <= j < |xs| && y in f(xs[j])
      {
        if exists j :: 0 <= j < |xs| && y in f(xs[j]) {
          var j :| 0 <= j < |xs| && y in f(xs[j]);
          if j < |front| {
            assert front[j] == xs[j];
          }
        }
        if y in FlatMap(front, f) {
          var j :| 0 <= j < |front| && y in f(front[j]);
          assert xs[j] == front[j];
        }
      }
    }
  }
}
