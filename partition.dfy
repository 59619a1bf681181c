/** np.partition(xs, k)[k]: the value at index k (0-based) of xs in sorted
    order, characterised by counting: at most k values lie below it and more
    than k lie at or below it. */
module Partition {
  import opened Extrema

  function CountBelow(xs: seq<real>, x: real): (r: nat)
    ensures r <= |xs|
    decreases |xs|
  {
    if xs == [] then 0 else CountBelow(xs[..|xs| - 1], x) + (if xs[|xs| - 1] < x then 1 else 0)
  }

  function CountAtMost(xs: seq<real>, x: real): (r: nat)
    ensures r <= |xs|
    decreases |xs|
  {
    if xs == [] then 0 else CountAtMost(xs[..|xs| - 1], x) + (if xs[|xs| - 1] <= x then 1 else 0)
  }

  /** The values other than x, in order. */
  function Without(xs: seq<real>, x: real): (r: seq<real>)
    ensures forall y :: y in r <==> y in xs && y != x
    decreases |xs|
  {
    if xs == [] then []
    else Without(xs[..|xs| - 1], x) + (if xs[|xs| - 1] == x then [] else [xs[|xs| - 1]])
  }

  lemma {:induction false} WithoutLength(xs: seq<real>, x: real)
    ensures |Without(xs, x)| == |xs| - CountAtMost(xs, x) + CountBelow(xs, x)
    decreases |xs|
  {
    if xs != [] {
      WithoutLength(xs[..|xs| - 1], x);
    }
  }

  /** Below a value above the minimum m, the counts of xs are those of xs
      without m plus the copies of m. */
  lemma {:induction false} CountsAboveMin(xs: seq<real>, m: real, x: real)
    requires forall i :: 0 <= i < |xs| ==> m <= xs[i]
    requires m < x
    ensures CountBelow(xs, x) == CountBelow(Without(xs, m), x) + CountAtMost(xs, m)
    ensures CountAtMost(xs, x) == CountAtMost(Without(xs, m), x) + CountAtMost(xs, m)
    decreases |xs|
  {
    if xs != [] {
      var init := xs[..|xs| - 1];
      var e := xs[|xs| - 1];
      assert forall i :: 0 <= i < |init| ==> init[i] == xs[i];
      CountsAboveMin(init, m, x);
      assert m <= e;
      if e != m {
        assert Without(xs, m) == Without(init, m) + [e];
        assert CountAtMost(xs, m) == CountAtMost(init, m);
        CountsSnoc(Without(init, m), e, x);
      } else {
        assert Without(init, m) + [] == Without(init, m);
        assert Without(xs, m) == Without(init, m);
      }
    }
  }

  lemma CountsSnoc(w: seq<real>, e: real, x: real)
    ensures CountBelow(w + [e], x) == CountBelow(w, x) + (if e < x then 1 else 0)
    ensures CountAtMost(w + [e], x) == CountAtMost(w, x) + (if e <= x then 1 else 0)
  {
    assert (w + [e])[..|w|] == w;
  }

  lemma {:induction false} CountBelowAppend(xs: seq<real>, ys: seq<real>, x: real)
    ensures CountBelow(xs + ys, x) == CountBelow(xs, x) + CountBelow(ys, x)
    decreases |ys|
  {
    if ys == [] {
      assert xs + ys == xs;
    } else {
      var init := ys[..|ys| - 1];
      assert (xs + ys)[..|xs + ys| - 1] == xs + init;
      assert (xs + ys)[|xs + ys| - 1] == ys[|ys| - 1];
      CountBelowAppend(xs, init, x);
    }
  }

  lemma {:induction false} NoneBelowMin(xs: seq<real>, m: real)
    requires forall i :: 0 <= i < |xs| ==> m <= xs[i]
    ensures CountBelow(xs, m) == 0
    decreases |xs|
  {
    if xs != [] {
      var init := xs[..|xs| - 1];
      assert forall i :: 0 <= i < |init| ==> init[i] == xs[i];
      NoneBelowMin(init, m);
    }
  }

  lemma {:induction false} MemberCounted(xs: seq<real>, x: real)
    requires x in xs
    ensures CountAtMost(xs, x) > CountBelow(xs, x)
    decreases |xs|
  {
    var init := xs[..|xs| - 1];
    if xs[|xs| - 1] != x {
      assert x in init;
      MemberCounted(init, x);
    } else if init != [] {
      CountsBelowAtMost(init, x);
    }
  }

  lemma {:induction false} CountsBelowAtMost(xs: seq<real>, x: real)
    ensures CountBelow(xs, x) <= CountAtMost(xs, x)
    decreases |xs|
  {
    if xs != [] {
      CountsBelowAtMost(xs[..|xs| - 1], x);
    }
  }

  /** The k-th smallest value: the smallest one if it has more than k
      copies, else the (k - copies)-th smallest of the others. */
  function Kth(xs: seq<real>, k: nat): (r: real)
    requires k < |xs|
    decreases |xs|
  {
    var m := MinReal(xs);
    var c := CountAtMost(xs, m);
    if k < c then m
    else
      NoneBelowMin(xs, m);
      MemberCounted(xs, m);
      WithoutLength(xs, m);
      Kth(Without(xs, m), k - c)
  }

  /** The k-th smallest value is one of the values, at most k values lie
      below it and more than k at or below it, the order statistic sorting
      would put at index k. */
  lemma {:induction false} KthCounts(xs: seq<real>, k: nat)
    requires k < |xs|
    ensures Kth(xs, k) in xs
    ensures CountBelow(xs, Kth(xs, k)) <= k < CountAtMost(xs, Kth(xs, k))
    decreases |xs|
  {
    var m := MinReal(xs);
    var c := CountAtMost(xs, m);
    NoneBelowMin(xs, m);
    if k >= c {
      MemberCounted(xs, m);
      WithoutLength(xs, m);
      var w := Without(xs, m);
      KthCounts(w, k - c);
      var x := Kth(w, k - c);
      assert m < x;
      CountsAboveMin(xs, m, x);
    }
  }

  /** The counted characterisation fixes the value: two values that both
      satisfy it are equal. */
  lemma KthUnique(xs: seq<real>, k: nat, x: real, y: real)
    requires x in xs && y in xs
    requires CountBelow(xs, x) <= k < CountAtMost(xs, x)
    requires CountBelow(xs, y) <= k < CountAtMost(xs, y)
    ensures x == y
  {
    if x < y {
      AtMostBelow(xs, x, y);
    } else if y < x {
      AtMostBelow(xs, y, x);
    }
  }

  lemma {:induction false} AtMostBelow(xs: seq<real>, x: real, y: real)
    requires x < y
    ensures CountAtMost(xs, x) <= CountBelow(xs, y)
    decreases |xs|
  {
    if xs != [] {
      AtMostBelow(xs[..|xs| - 1], x, y);
    }
  }
}
