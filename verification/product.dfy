/** The ordered Cartesian product of two sequences, as produced by two nested
    `for` loops (or `itertools.product`): the first sequence varies slowest. */
module Product {

  import opened Seqs

  /** `x` paired with every element of `ys`, in order. */
  function Row<A, B>(x: A, ys: seq<B>): (r: seq<(A, B)>)
    ensures |r| == |ys|
    ensures forall j :: 0 <= j < |ys| ==> r[j] == (x, ys[j])
  {
    seq(|ys|, j requires 0 <= j < |ys| => (x, ys[j]))
  }

  function Pairs<A, B>(xs: seq<A>, ys: seq<B>): seq<(A, B)>
  {
    if |xs| == 0 then [] else Pairs(xs[..|xs| - 1], ys) + Row(xs[|xs| - 1], ys)
  }

  lemma MulStep(i: nat, n: nat, j: nat)
    ensures i * n + n + j == (i + 1) * n + j
  {
  }

  lemma {:induction false} MulMono(i: nat, k: nat, n: nat)
    requires i < k
    ensures i * n + n <= k * n
  {
    assert k * n == (i + 1) * n + (k - i - 1) * n;
  }

  lemma {:induction false} PairsLength<A, B>(xs: seq<A>, ys: seq<B>)
    ensures |Pairs(xs, ys)| == |xs| * |ys|
  {
    if |xs| > 0 {
      PairsLength(xs[..|xs| - 1], ys);
      MulStep(|xs| - 1, |ys|, 0);
    }
  }

  /** The pair (xs[i], ys[j]) sits at position i * |ys| + j. */
  lemma {:induction false} PairAt<A, B>(xs: seq<A>, ys: seq<B>, i: nat, j: nat)
    requires i < |xs| && j < |ys|
    ensures i * |ys| + j < |Pairs(xs, ys)| && Pairs(xs, ys)[i * |ys| + j] == (xs[i], ys[j])
  {
    var init := xs[..|xs| - 1];
    PairsLength(init, ys);
    if i < |init| {
      PairAt(init, ys, i, j);
      MulMono(i, |init|, |ys|);
      assert init[i] == xs[i];
    }
  }

  /** Every pair of the product comes from the two inputs, and every
      combination of the inputs occurs in the product. */
  lemma {:induction false} PairsMembership<A, B>(xs: seq<A>, ys: seq<B>, x: A, y: B)
    ensures (x, y) in Pairs(xs, ys) <==> x in xs && y in ys
  {
    if |xs| > 0 {
      var init := xs[..|xs| - 1];
      PairsMembership(init, ys, x, y);
      assert xs == init + [xs[|xs| - 1]];
      if (x, y) in Row(xs[|xs| - 1], ys) {
        var j :| 0 <= j < |ys| && Row(xs[|xs| - 1], ys)[j] == (x, y);
      }
      if x == xs[|xs| - 1] && y in ys {
        var j :| 0 <= j < |ys| && ys[j] == y;
        assert Row(xs[|xs| - 1], ys)[j] == (x, y);
      }
    }
  }

  /** Distinct inputs give a product in which every pair occurs exactly once. */
  lemma {:induction false} PairsDistinct<A, B>(xs: seq<A>, ys: seq<B>)
    requires Distinct(xs) && Distinct(ys)
    ensures Distinct(Pairs(xs, ys))
  {
    if |xs| > 0 {
      var init := xs[..|xs| - 1];
      var last := xs[|xs| - 1];
      PairsDistinct(init, ys);
      var a := Pairs(init, ys);
      var b := Row(last, ys);
      forall i, j | 0 <= i < j < |a + b|
        ensures (a + b)[i] != (a + b)[j]
      {
        if i < |a| && j >= |a| {
          var q := (a + b)[j];
          assert q == b[j - |a|];
          assert q.0 == last;
          if (a + b)[i] == q {
            assert q in a;
            PairsMembership(init, ys, q.0, q.1);
            assert false;
          }
        }
      }
    }
  }

  /** Appending to the outer sequence appends one row to the product. */
  lemma PairsSnoc<A, B>(xs: seq<A>, x: A, ys: seq<B>)
    ensures Pairs(xs + [x], ys) == Pairs(xs, ys) + Row(x, ys)
  {
    assert (xs + [x])[..|xs|] == xs;
  }

  lemma {:induction false} RowCount<A, B>(a: A, ys: seq<B>, x: A, y: B)
    ensures Count(Row(a, ys), (x, y)) == if a == x then Count(ys, y) else 0
  {
    if |ys| > 0 {
      var init := ys[..|ys| - 1];
      RowCount(a, init, x, y);
      assert Row(a, ys)[..|ys| - 1] == Row(a, init);
    }
  }

  lemma AddMul(c: nat, d: nat, n: nat)
    ensures c * n + d * n == (c + d) * n
  {
  }

  /** A pair occurs in the product as often as its first component occurs in
      the first input times as often as its second occurs in the second. */
  lemma {:induction false} PairsCount<A, B>(xs: seq<A>, ys: seq<B>, x: A, y: B)
    ensures Count(Pairs(xs, ys), (x, y)) == Count(xs, x) * Count(ys, y)
  {
    if |xs| > 0 {
      var init := xs[..|xs| - 1];
      var last := xs[|xs| - 1];
      PairsCount(init, ys, x, y);
      CountAppend(Pairs(init, ys), Row(last, ys), (x, y));
      RowCount(last, ys, x, y);
      AddMul(Count(init, x), if last == x then 1 else 0, Count(ys, y));
    }
  }
}
