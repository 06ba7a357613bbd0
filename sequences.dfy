/**
 * Filter-map over a sequence (Rust's `filter_map(..).collect()` shape), with
 * the indices of the elements it keeps, and the facts that it keeps exactly
 * the elements that yield a value, in order.
 */
module Sequences {
  import opened Wrappers

  /** The values `f` yields on the elements of `xs`, in order, skipping `None`. */
  function FilterMap<T, U>(xs: seq<T>, f: T -> Option<U>): seq<U>
  {
    if xs == [] then []
    else (if f(xs[0]).Some? then [f(xs[0]).value] else []) + FilterMap(xs[1..], f)
  }

  /**
   * The positions, counted from `base`, of the elements on which `f` yields a
   * value, in increasing order.
   */
  ghost function KeptFrom<T, U>(xs: seq<T>, f: T -> Option<U>, base: nat): seq<nat>
  {
    if xs == [] then []
    else (if f(xs[0]).Some? then [base] else []) + KeptFrom(xs[1..], f, base + 1)
  }

  /** The indices, in increasing order, of the elements on which `f` yields a value. */
  ghost function Kept<T, U>(xs: seq<T>, f: T -> Option<U>): seq<nat>
  {
    KeptFrom(xs, f, 0)
  }

  /** Filter-map distributes over concatenation. */
  lemma {:induction false} FilterMapAppend<T, U>(xs: seq<T>, ys: seq<T>, f: T -> Option<U>)
    ensures FilterMap(xs + ys, f) == FilterMap(xs, f) + FilterMap(ys, f)
  {
    if xs == [] {
      assert xs + ys == ys;
    } else {
      var zs := xs + ys;
      assert zs[0] == xs[0];
      assert zs[1..] == xs[1..] + ys;
      FilterMapAppend(xs[1..], ys, f);
      var head := if f(xs[0]).Some? then [f(xs[0]).value] else [];
      assert FilterMap(zs, f) == head + FilterMap(xs[1..] + ys, f);
      assert FilterMap(xs, f) == head + FilterMap(xs[1..], f);
    }
  }

  /** As many positions are kept as there are outputs. */
  lemma {:induction false} KeptFromLength<T, U>(xs: seq<T>, f: T -> Option<U>, base: nat)
    ensures |KeptFrom(xs, f, base)| == |FilterMap(xs, f)|
  {
    if xs != [] {
      KeptFromLength(xs[1..], f, base + 1);
    }
  }

  /**
   * The k-th kept position lies within `xs` (counted from `base`), and the
   * k-th output is what `f` yields on the element there.
   */
  lemma {:induction false} KeptFromAt<T, U>(xs: seq<T>, f: T -> Option<U>, base: nat, k: nat)
    requires k < |FilterMap(xs, f)|
    ensures k < |KeptFrom(xs, f, base)|
    ensures base <= KeptFrom(xs, f, base)[k] < base + |xs|
    ensures f(xs[KeptFrom(xs, f, base)[k] - base]) == Some(FilterMap(xs, f)[k])
  {
    KeptFromLength(xs, f, base);
    var rest := KeptFrom(xs[1..], f, base + 1);
    var tail := FilterMap(xs[1..], f);
    if f(xs[0]).Some? {
      assert KeptFrom(xs, f, base) == [base] + rest;
      assert FilterMap(xs, f) == [f(xs[0]).value] + tail;
      if k > 0 {
        KeptFromAt(xs[1..], f, base + 1, k - 1);
        assert xs[rest[k - 1] - base] == xs[1..][rest[k - 1] - (base + 1)];
      }
    } else {
      assert KeptFrom(xs, f, base) == rest;
      assert FilterMap(xs, f) == tail;
      KeptFromAt(xs[1..], f, base + 1, k);
      assert xs[rest[k] - base] == xs[1..][rest[k] - (base + 1)];
    }
  }

  /** The k-th output is what `f` yields on the k-th kept element. */
  lemma FilterMapKept<T, U>(xs: seq<T>, f: T -> Option<U>)
    ensures |Kept(xs, f)| == |FilterMap(xs, f)|
    ensures forall k :: 0 <= k < |Kept(xs, f)| ==>
      Kept(xs, f)[k] < |xs| && f(xs[Kept(xs, f)[k]]) == Some(FilterMap(xs, f)[k])
  {
    KeptFromLength(xs, f, 0);
    forall k | 0 <= k < |Kept(xs, f)|
      ensures Kept(xs, f)[k] < |xs| && f(xs[Kept(xs, f)[k]]) == Some(FilterMap(xs, f)[k])
    {
      KeptFromAt(xs, f, 0, k);
    }
  }

  /** Two kept positions come in the order of the outputs they belong to. */
  lemma {:induction false} KeptFromOrdered<T, U>(xs: seq<T>, f: T -> Option<U>, base: nat, k: nat, l: nat)
    requires k < l < |KeptFrom(xs, f, base)|
    ensures KeptFrom(xs, f, base)[k] < KeptFrom(xs, f, base)[l]
  {
    var rest := KeptFrom(xs[1..], f, base + 1);
    KeptFromLength(xs[1..], f, base + 1);
    if f(xs[0]).Some? {
      assert KeptFrom(xs, f, base) == [base] + rest;
      if k > 0 {
        KeptFromOrdered(xs[1..], f, base + 1, k - 1, l - 1);
      } else {
        KeptFromAt(xs[1..], f, base + 1, l - 1);
      }
    } else {
      assert KeptFrom(xs, f, base) == rest;
      KeptFromOrdered(xs[1..], f, base + 1, k, l);
    }
  }

  /** The kept indices are strictly increasing: outputs keep the input order. */
  lemma KeptIncreasing<T, U>(xs: seq<T>, f: T -> Option<U>)
    ensures forall k, l :: 0 <= k < l < |Kept(xs, f)| ==> Kept(xs, f)[k] < Kept(xs, f)[l]
  {
    forall k, l | 0 <= k < l < |Kept(xs, f)|
      ensures Kept(xs, f)[k] < Kept(xs, f)[l]
    {
      KeptFromOrdered(xs, f, 0, k, l);
    }
  }

  /** Every element on which `f` yields a value has its position kept. */
  lemma {:induction false} KeptFromComplete<T, U>(xs: seq<T>, f: T -> Option<U>, base: nat, j: nat)
    requires j < |xs| && f(xs[j]).Some?
    ensures base + j in KeptFrom(xs, f, base)
  {
    var rest := KeptFrom(xs[1..], f, base + 1);
    var head: seq<nat> := if f(xs[0]).Some? then [base] else [];
    assert KeptFrom(xs, f, base) == head + rest;
    if j > 0 {
      assert xs[1..][j - 1] == xs[j];
      KeptFromComplete(xs[1..], f, base + 1, j - 1);
      assert base + j in rest;
    }
  }

  /** Every element on which `f` yields a value is kept. */
  lemma KeptComplete<T, U>(xs: seq<T>, f: T -> Option<U>, j: nat)
    requires j < |xs| && f(xs[j]).Some?
    ensures j in Kept(xs, f)
  {
    KeptFromComplete(xs, f, 0, j);
  }
}
