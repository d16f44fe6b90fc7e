/** Small definitions shared by all the machines: optional values, sums and unions over a
    sequence of components, and the subsequence relation. */
module Common {

  datatype Option<+T> = None | Some(value: T)

  function Tally(b: bool): nat { if b then 1 else 0 }

  /** The sum of a weight over all the elements of a sequence. */
  function SumOf<T>(xs: seq<T>, weight: T -> nat): nat {
    if xs == [] then 0 else SumOf(xs[..|xs| - 1], weight) + weight(xs[|xs| - 1])
  }

  lemma {:induction false} SumUpdate<T>(xs: seq<T>, i: nat, x: T, weight: T -> nat)
    requires i < |xs|
    ensures SumOf(xs[i := x], weight) + weight(xs[i]) == SumOf(xs, weight) + weight(x)
  {
    var n := |xs| - 1;
    if i == n {
      assert xs[i := x][..n] == xs[..n];
    } else {
      assert xs[i := x][..n] == xs[..n][i := x];
      SumUpdate(xs[..n], i, x, weight);
    }
  }

  lemma SumAppend<T>(xs: seq<T>, x: T, weight: T -> nat)
    ensures SumOf(xs + [x], weight) == SumOf(xs, weight) + weight(x)
  {
    assert (xs + [x])[..|xs|] == xs;
  }

  lemma {:induction false} SumOfTail<T>(xs: seq<T>, weight: T -> nat)
    requires xs != []
    ensures SumOf(xs, weight) == weight(xs[0]) + SumOf(xs[1..], weight)
  {
    if |xs| > 1 {
      var n := |xs| - 1;
      SumOfTail(xs[..n], weight);
      assert xs[1..][..n - 1] == xs[..n][1..];
    }
  }

  /** A sequence whose every element weighs nothing sums to zero, and conversely. */
  lemma {:induction false} SumZero<T>(xs: seq<T>, weight: T -> nat)
    ensures SumOf(xs, weight) == 0 <==> forall i :: 0 <= i < |xs| ==> weight(xs[i]) == 0
  {
    if xs != [] {
      var n := |xs| - 1;
      SumZero(xs[..n], weight);
      assert forall i :: 0 <= i < n ==> xs[..n][i] == xs[i];
    }
  }

  lemma {:induction false} SumAtLeast<T>(xs: seq<T>, i: nat, weight: T -> nat)
    requires i < |xs|
    ensures weight(xs[i]) <= SumOf(xs, weight)
  {
    var n := |xs| - 1;
    if i < n {
      SumAtLeast(xs[..n], i, weight);
    }
  }

  lemma {:induction false} SumAtLeastTwo<T>(xs: seq<T>, i: nat, j: nat, weight: T -> nat)
    requires i < j < |xs|
    ensures weight(xs[i]) + weight(xs[j]) <= SumOf(xs, weight)
  {
    var n := |xs| - 1;
    if j < n {
      SumAtLeastTwo(xs[..n], i, j, weight);
    } else {
      SumAtLeast(xs[..n], i, weight);
    }
  }

  /** xs is obtained from ys by leaving elements out, keeping the order. */
  predicate IsSubseq<T(==)>(xs: seq<T>, ys: seq<T>) {
    xs == [] ||
    (ys != [] &&
     (IsSubseq(xs, ys[..|ys| - 1]) ||
      (xs[|xs| - 1] == ys[|ys| - 1] && IsSubseq(xs[..|xs| - 1], ys[..|ys| - 1]))))
  }

  lemma SubseqSkip<T>(xs: seq<T>, ys: seq<T>, y: T)
    requires IsSubseq(xs, ys)
    ensures IsSubseq(xs, ys + [y])
  {
    assert (ys + [y])[..|ys|] == ys;
  }

  lemma SubseqExtend<T>(xs: seq<T>, ys: seq<T>, y: T)
    requires IsSubseq(xs, ys)
    ensures IsSubseq(xs + [y], ys + [y])
  {
    assert (ys + [y])[..|ys|] == ys;
    assert (xs + [y])[..|xs|] == xs;
  }

  lemma {:induction false} SubseqDrop<T>(xs: seq<T>, x: T, ys: seq<T>)
    requires IsSubseq(xs + [x], ys)
    ensures IsSubseq(xs, ys)
  {
    if xs != [] {
      var n := |ys| - 1;
      assert ys == ys[..n] + [ys[n]];
      assert (xs + [x])[..|xs|] == xs;
      if IsSubseq(xs + [x], ys[..n]) {
        SubseqDrop(xs, x, ys[..n]);
      }
      SubseqSkip(xs, ys[..n], ys[n]);
    }
  }
}
