/** permute and transpose of LoraTorchTensor. */
module LoraPermute {
  import opened Text
  import opened Tensors
  import opened Lora
  import opened LoraIndex
  import opened LoraShape

  // ----- Dense tensors

  predicate InDims(dims: seq<int>, n: nat) {
    forall i :: 0 <= i < |dims| ==> OkSingle(dims[i], n)
  }

  /** Negative dimensions count from the end. */
  function Wrapped(dims: seq<int>, n: nat): (w: seq<int>)
    ensures |w| == |dims|
  {
    seq(|dims|, i requires 0 <= i < |dims| => if dims[i] < 0 then dims[i] + n else dims[i])
  }

  /** Every dimension occurs exactly once. */
  predicate IsPerm(w: seq<int>) {
    && (forall i :: 0 <= i < |w| ==> 0 <= w[i] < |w|)
    && (forall i, j :: 0 <= i < j < |w| ==> w[i] != w[j])
    && (forall d :: 0 <= d < |w| ==> d in w)
  }

  function Pos(w: seq<int>, d: int): (i: nat)
    requires d in w
    ensures i < |w| && w[i] == d
  {
    if w[0] == d then 0 else 1 + Pos(w[1..], d)
  }

  /** The index in the original of the element at `ix` of the permuted tensor. */
  function Moved(w: seq<int>, ix: Ix): (r: Ix)
    requires IsPerm(w) && |ix| == |w|
    ensures |r| == |w|
  {
    seq(|w|, d requires 0 <= d < |w| => ix[Pos(w, d)])
  }

  function PermutedShape(w: seq<int>, s: Shape): (r: Shape)
    requires IsPerm(w) && |s| == |w|
    ensures |r| == |w|
  {
    seq(|w|, i requires 0 <= i < |w| => s[w[i]])
  }

  function PermuteBy(t: Tensor, w: seq<int>): (r: Tensor)
    requires IsPerm(w) && |w| == |t.shape|
    ensures r.Valid() && r.shape == PermutedShape(w, t.shape)
  {
    Make(PermutedShape(w, t.shape), ix => if |ix| == |w| then At(t, Moved(w, ix)) else 0.0)
  }

  function PermuteDense(t: Tensor, dims: seq<int>): (r: Option<Tensor>)
    ensures r.Some? ==> r.value.Valid()
  {
    var n := |t.shape|;
    var w := Wrapped(dims, n);
    if |dims| == n && InDims(dims, n) && IsPerm(w) then Some(PermuteBy(t, w)) else None
  }

  lemma MovedInRange(w: seq<int>, s: Shape, ix: Ix)
    requires IsPerm(w) && |s| == |w| && InRange(PermutedShape(w, s), ix)
    ensures InRange(s, Moved(w, ix))
  {
    forall d | 0 <= d < |w|
      ensures Moved(w, ix)[d] < s[d]
    {
      var i := Pos(w, d);
      assert PermutedShape(w, s)[i] == s[w[i]];
    }
  }

  lemma PermutedAt(t: Tensor, dims: seq<int>, ix: Ix)
    requires PermuteDense(t, dims).Some? && InRange(PermuteDense(t, dims).value.shape, ix)
    ensures var w := Wrapped(dims, |t.shape|);
            && IsPerm(w) && |ix| == |w| == |t.shape|
            && PermuteDense(t, dims).value.shape == PermutedShape(w, t.shape)
            && At(PermuteDense(t, dims).value, ix) == At(t, Moved(w, ix))
  {
    hide At, IsPerm, Moved;
    var n := |t.shape|;
    var w := Wrapped(dims, n);
    MakeAt(PermutedShape(w, t.shape), ix => if |ix| == |w| then At(t, Moved(w, ix)) else 0.0, ix);
  }

  lemma PermutedIs(t: Tensor, dims: seq<int>)
    ensures var w := Wrapped(dims, |t.shape|);
            && (PermuteDense(t, dims).Some? <==> |dims| == |t.shape| && InDims(dims, |t.shape|) && IsPerm(w))
            && (PermuteDense(t, dims).Some? ==> PermuteDense(t, dims).value.shape == PermutedShape(w, t.shape))
  {
    hide IsPerm, InDims;
  }

  // ----- permute

  /** The code counts all dimensions from the end. */
  function FromEnd(dims: seq<int>, n: nat): (r: seq<int>)
    ensures |r| == |dims|
  {
    seq(|dims|, i requires 0 <= i < |dims| => if dims[i] >= 0 then dims[i] - n else dims[i])
  }

  function Permute(l: Factored, dims: seq<int>): Option<Factored>
    requires Built(l)
  {
    var n := |ShapeOf(l)|;
    var ds := FromEnd(dims, n);
    if dims == [] then None
    else if Last(ds) == -1 then
      if AllOne(Batch(l.A.shape)) then Both(Some(l.A), PermuteDense(l.B, ds)) else None
    else if n == 2 && |ds| >= 2 && Last(ds) == -2 && ds[|ds| - 2] == -1 then
      Both(PermuteDense(l.B, ds), PermuteDense(l.A, ds))
    else None
  }

  /** A permutation that leaves the last dimension where it is. */
  lemma MovedLast(w: seq<int>, y: Ix, k: nat)
    requires IsPerm(w) && w != [] && Last(w) == |w| - 1 && |y| == |w| - 1
    ensures Moved(w, y + [k]) == Front(Moved(w, y + [0])) + [k]
  {
    var n := |w|;
    var a, b := Moved(w, y + [k]), Front(Moved(w, y + [0])) + [k];
    assert Pos(w, n - 1) == n - 1;
    forall d | 0 <= d < n
      ensures a[d] == b[d]
    {
      if d < n - 1 {
        assert Pos(w, d) < n - 1;
      }
    }
  }

  lemma PermutedLast(w: seq<int>, s: Shape, n: nat)
    requires IsPerm(w) && w != [] && Last(w) == |w| - 1 && |s| == |w| - 1
    ensures PermutedShape(w, s + [n]) == Front(PermutedShape(w, s + [0])) + [n]
  {
    var k := |w|;
    forall i | 0 <= i < k
      ensures PermutedShape(w, s + [n])[i] == (Front(PermutedShape(w, s + [0])) + [n])[i]
    {
      if i < k - 1 {
        assert w[i] < k - 1;
      }
    }
  }

  lemma WrappedEnd(dims: seq<int>, n: nat)
    ensures InDims(dims, n) ==> Wrapped(FromEnd(dims, n), n) == Wrapped(dims, n) && InDims(FromEnd(dims, n), n)
  {
  }

  lemma LastWrapped(ds: seq<int>, n: nat)
    requires ds != [] && Last(ds) == -1
    ensures Last(Wrapped(ds, n)) == n - 1
  {
  }

  /** The last dimension stays: the result, and the leading shape of the permuted product. */
  lemma RowsPermuted(l: Factored, ds: seq<int>)
    requires WellFormed(l) && AllOne(Batch(l.A.shape)) && PermuteDense(l.B, ds).Some? && ds != [] && Last(ds) == -1
    ensures var m, w := Factored(l.A, PermuteDense(l.B, ds).value), Wrapped(ds, |l.B.shape|);
            && New(m.A, m.B) == Some(m) && WellFormed(m) && Rank(m) == Rank(l)
            && IsPerm(w) && |w| == |l.B.shape| && Last(w) == |w| - 1
            && PermuteDense(Dense(l), ds).Some? && PermuteDense(Dense(l), ds).value.shape == ShapeOf(m)
            && ShapeOf(m) == PermutedShape(w, ShapeOf(l))
  {
    hide IsPerm, InDims, Dense, PermuteDense, PermutedShape, Wrapped;
    var w, f := Wrapped(ds, |l.B.shape|), Front(l.B.shape);
    DenseShape(l);
    Shapes(l);
    Rejoin(l.B.shape);
    PermutedIs(l.B, ds);
    PermutedIs(Dense(l), ds);
    LastWrapped(ds, |l.B.shape|);
    PermutedLast(w, f, Rank(l));
    PermutedLast(w, f, Cols(l));
  }

  lemma RowMoved(l: Factored, w: seq<int>, m: Factored, y: Ix, q: nat)
    requires WellFormed(l) && IsPerm(w) && |w| == |l.B.shape| && Last(w) == |w| - 1
    requires InRange(PermutedShape(w, ShapeOf(l)), y + [q])
    ensures |y| == |w| - 1 && q < Cols(l)
    ensures InRange(Front(l.B.shape), Front(Moved(w, y + [0])))
  {
    hide IsPerm, InRange, Moved;
    var f := Front(l.B.shape);
    LengthInRange(PermutedShape(w, ShapeOf(l)), y + [q]);
    MovedInRange(w, ShapeOf(l), y + [q]);
    MovedLast(w, y, q);
    InRangeSnoc(f, Cols(l), Front(Moved(w, y + [0])), q);
  }

  lemma RowElement(l: Factored, ds: seq<int>, y: Ix, q: nat)
    requires WellFormed(l) && AllOne(Batch(l.A.shape)) && PermuteDense(l.B, ds).Some? && ds != [] && Last(ds) == -1
    requires WellFormed(Factored(l.A, PermuteDense(l.B, ds).value))
    requires InRange(ShapeOf(Factored(l.A, PermuteDense(l.B, ds).value)), y + [q])
    ensures var g := PermuteDense(Dense(l), ds);
            g.Some? && At(Dense(Factored(l.A, PermuteDense(l.B, ds).value)), y + [q]) == At(g.value, y + [q])
  {
    hide At, InRange, Dense, Elem, Zeros, AllOne, IsPerm, InDims, PermuteDense, PermutedShape, Wrapped, Moved, Fits, Term;
    RowsPermuted(l, ds);
    var m, w := Factored(l.A, PermuteDense(l.B, ds).value), Wrapped(ds, |l.B.shape|);
    DenseShape(l);
    RowMoved(l, w, m, y, q);
    var x := Front(Moved(w, y + [0]));
    PermutedAt(Dense(l), ds, y + [q]);
    MovedLast(w, y, q);
    LengthInRange(ShapeOf(m), y + [q]);
    InRangeSnoc(Front(m.B.shape), Cols(m), y, q);
    forall k: nat | k < Rank(l)
      ensures Term(l, x, k, q) == Term(m, y, k, q)
    {
      PermutedTerm(l, ds, y, k, q);
    }
    RowsAgree(l, x, q, m, y, q);
  }

  lemma PermutedTerm(l: Factored, ds: seq<int>, y: Ix, k: nat, q: nat)
    requires WellFormed(l) && PermuteDense(l.B, ds).Some? && ds != [] && Last(ds) == -1
    requires var m := Factored(l.A, PermuteDense(l.B, ds).value);
             WellFormed(m) && Rank(m) == Rank(l) && InRange(Front(m.B.shape), y) && k < Rank(l)
    ensures var m, w := Factored(l.A, PermuteDense(l.B, ds).value), Wrapped(ds, |l.B.shape|);
            IsPerm(w) && |y| == |w| - 1 && Term(l, Front(Moved(w, y + [0])), k, q) == Term(m, y, k, q)
  {
    hide At, InRange, Zeros, IsPerm, InDims, PermuteDense, PermutedShape, Wrapped, Moved, Fits;
    var m, w := Factored(l.A, PermuteDense(l.B, ds).value), Wrapped(ds, |l.B.shape|);
    Rejoin(m.B.shape);
    InRangeSnoc(Front(m.B.shape), Rank(m), y, k);
    PermutedAt(l.B, ds, y + [k]);
    LastWrapped(ds, |l.B.shape|);
    MovedLast(w, y, k);
  }

  lemma RowsExact(l: Factored, ds: seq<int>)
    requires WellFormed(l) && AllOne(Batch(l.A.shape)) && PermuteDense(l.B, ds).Some? && ds != [] && Last(ds) == -1
    ensures var m := Factored(l.A, PermuteDense(l.B, ds).value);
            New(m.A, m.B) == Some(m) && WellFormed(m) && PermuteDense(Dense(l), ds) == Some(Dense(m))
  {
    hide At, InRange, Dense, Elem, AllOne, PermuteDense, Wrapped, IsPerm, Fits;
    RowsPermuted(l, ds);
    var m := Factored(l.A, PermuteDense(l.B, ds).value);
    var t, u := Dense(m), PermuteDense(Dense(l), ds).value;
    DenseShape(m);
    forall ix: Ix | InRange(t.shape, ix)
      ensures At(t, ix) == At(u, ix)
    {
      LengthInRange(t.shape, ix);
      Rejoin(ix);
      RowElement(l, ds, Front(ix), Last(ix));
    }
    Extensional(t, u);
  }

  // ----- The transposed matrix

  lemma SwapTwo()
    ensures IsPerm([1, 0]) && Wrapped([-1, -2], 2) == [1, 0] && InDims([-1, -2], 2)
  {
    var w := [1, 0];
    assert w[0] == 1 && w[1] == 0;
  }

  lemma SwapMoves(i: nat, j: nat)
    ensures IsPerm([1, 0]) && Moved([1, 0], [i, j]) == [j, i] && PermutedShape([1, 0], [i, j]) == [j, i]
  {
    SwapTwo();
    var w := [1, 0];
    assert w[0] == 1 && w[1] == 0;
    assert Pos(w, 1) == 0 && Pos(w, 0) == 1;
  }

  lemma SwapDense(t: Tensor)
    requires |t.shape| == 2
    ensures var g := PermuteDense(t, [-1, -2]);
            && g.Some? && g.value.Valid() && g.value.shape == [t.shape[1], t.shape[0]]
  {
    hide PermuteDense, IsPerm, Wrapped, InDims;
    SwapTwo();
    PermutedIs(t, [-1, -2]);
    SwapMoves(t.shape[0], t.shape[1]);
    assert t.shape == [t.shape[0], t.shape[1]];
  }

  lemma SwapAt(t: Tensor, i: nat, j: nat)
    requires |t.shape| == 2 && i < t.shape[1] && j < t.shape[0]
    ensures PermuteDense(t, [-1, -2]).Some? && At(PermuteDense(t, [-1, -2]).value, [i, j]) == At(t, [j, i])
  {
    hide PermuteDense, IsPerm, Wrapped, InDims, At, Moved;
    SwapTwo();
    SwapDense(t);
    SwapMoves(i, j);
    PermutedAt(t, [-1, -2], [i, j]);
  }

  function Flipped(l: Factored): Factored
    requires |l.A.shape| == |l.B.shape| == 2
  {
    SwapDense(l.A);
    SwapDense(l.B);
    Factored(PermuteDense(l.B, [-1, -2]).value, PermuteDense(l.A, [-1, -2]).value)
  }

  lemma FlippedFits(l: Factored)
    requires WellFormed(l) && |l.A.shape| == 2
    ensures var m := Flipped(l);
            && New(m.A, m.B) == Some(m) && WellFormed(m) && Rank(m) == Rank(l)
            && ShapeOf(m) == [Cols(l), Rows(l)] && ShapeOf(l) == [Rows(l), Cols(l)]
            && Front(m.B.shape) == [Cols(l)] && Cols(m) == Rows(l) && Front(l.B.shape) == [Rows(l)]
            && AllOne(Batch(l.A.shape)) && AllOne(Batch(m.A.shape))
  {
    hide PermuteDense;
    SwapDense(l.A);
    SwapDense(l.B);
  }

  lemma OneRow(n: nat, i: nat)
    requires i < n
    ensures InRange([n], [i])
  {
  }

  lemma FlippedAt(l: Factored, i: nat, j: nat)
    requires WellFormed(l) && |l.A.shape| == 2 && i < Cols(l) && j < Rows(l)
    ensures WellFormed(Flipped(l)) && At(Dense(Flipped(l)), [i, j]) == At(Dense(l), [j, i])
  {
    hide At, Dense, Elem, PermuteDense, Flipped, InRange, Fits, AllOne;
    FlippedFits(l);
    var m := Flipped(l);
    OneRow(Cols(l), i);
    OneRow(Rows(l), j);
    forall k: nat | k < Rank(l)
      ensures Term(l, [j], k, i) == Term(m, [i], k, j)
    {
      FlippedTerm(l, i, j, k);
    }
    RowsAgree(l, [j], i, m, [i], j);
    assert [i] + [j] == [i, j] && [j] + [i] == [j, i];
  }

  lemma FlippedTerm(l: Factored, i: nat, j: nat, k: nat)
    requires WellFormed(l) && |l.A.shape| == 2 && i < Cols(l) && j < Rows(l) && k < Rank(l)
    ensures At(Flipped(l).B, [i] + [k]) == At(l.A, Zeros(0) + [k] + [i])
    ensures At(Flipped(l).A, Zeros(0) + [k] + [j]) == At(l.B, [j] + [k])
  {
    hide At, PermuteDense;
    SwapAt(l.A, i, k);
    SwapAt(l.B, k, j);
    assert Zeros(0) + [k] + [i] == [k, i] && Zeros(0) + [k] + [j] == [k, j];
    assert [i] + [k] == [i, k] && [j] + [k] == [j, k];
  }

  lemma FlipExact(l: Factored)
    requires WellFormed(l) && |l.A.shape| == 2
    ensures var m := Flipped(l);
            New(m.A, m.B) == Some(m) && WellFormed(m) && PermuteDense(Dense(l), [-1, -2]) == Some(Dense(m))
  {
    hide At, Dense, Elem, PermuteDense, Flipped, Fits, AllOne;
    FlippedFits(l);
    DenseShape(l);
    var m := Flipped(l);
    DenseShape(m);
    SwapDense(Dense(l));
    var t, u := Dense(m), PermuteDense(Dense(l), [-1, -2]).value;
    forall ix: Ix | InRange(t.shape, ix)
      ensures At(t, ix) == At(u, ix)
    {
      assert ix == [ix[0], ix[1]];
      FlippedAt(l, ix[0], ix[1]);
      SwapAt(Dense(l), ix[0], ix[1]);
    }
    Extensional(t, u);
  }

  // ----- All of permute

  lemma PermuteEnds(l: Factored, dims: seq<int>)
    requires WellFormed(l) && Built(l) && Permute(l, dims).Some?
    ensures WellFormed(Permute(l, dims).value)
    ensures PermuteDense(Dense(l), FromEnd(dims, |l.A.shape|)) == Some(Dense(Permute(l, dims).value))
  {
    hide Dense, PermuteDense, AllOne, Fits, FromEnd, Flipped;
    var n := |l.A.shape|;
    assert |ShapeOf(l)| == n;
    var ds := FromEnd(dims, n);
    if Last(ds) == -1 {
      RowsExact(l, ds);
    } else {
      PermutedIs(l.B, ds);
      assert ds == [-1, -2];
      FlipExact(l);
      FlippedIs(l);
    }
  }

  lemma FlippedIs(l: Factored)
    requires |l.A.shape| == |l.B.shape| == 2
    ensures PermuteDense(l.A, [-1, -2]) == Some(Flipped(l).B) && PermuteDense(l.B, [-1, -2]) == Some(Flipped(l).A)
  {
    SwapDense(l.A);
    SwapDense(l.B);
  }

  lemma SameFromEnd(t: Tensor, dims: seq<int>)
    ensures PermuteDense(t, dims) == if InDims(dims, |t.shape|) then PermuteDense(t, FromEnd(dims, |t.shape|)) else None
  {
    hide InDims, IsPerm, Wrapped, FromEnd, PermuteBy;
    WrappedEnd(dims, |t.shape|);
  }

  /** The permutation keeps the last dimension, and A has no batch to permute; or the pair is a transposed matrix. */
  predicate Permutable(l: Factored, ds: seq<int>)
    requires |l.A.shape| >= 2
  {
    (ds != [] && Last(ds) == -1 && AllOne(Batch(l.A.shape))) || ds == [-1, -2]
  }

  lemma SameDims(l: Factored, ds: seq<int>)
    requires WellFormed(l)
    ensures PermuteDense(Dense(l), ds).Some? <==> PermuteDense(l.B, ds).Some?
    ensures PermuteDense(Dense(l), ds).Some? ==> |ds| == |l.A.shape| >= 2
  {
    hide IsPerm, InDims, PermuteDense, Dense, Fits;
    DenseShape(l);
    PermutedIs(l.B, ds);
    PermutedIs(Dense(l), ds);
  }

  lemma PermuteAccepted(l: Factored, dims: seq<int>)
    requires WellFormed(l) && Built(l)
    ensures var ds := FromEnd(dims, |l.A.shape|);
            Permute(l, dims).Some? <==> PermuteDense(Dense(l), ds).Some? && Permutable(l, ds)
  {
    hide Dense, PermuteDense, AllOne, Fits, FromEnd;
    var n := |l.A.shape|;
    assert |ShapeOf(l)| == n;
    var ds := FromEnd(dims, n);
    SameDims(l, ds);
    if PermuteDense(l.B, ds).Some? && ds != [] && Last(ds) == -1 && AllOne(Batch(l.A.shape)) {
      RowsExact(l, ds);
    }
    if n == 2 && |ds| >= 2 && Last(ds) == -2 && ds[|ds| - 2] == -1 {
      assert PermuteDense(l.B, ds).Some? ==> ds == [-1, -2];
      FlipExact(l);
      FlippedIs(l);
    }
    assert ds == [-1, -2] && PermuteDense(l.B, ds).Some? ==> n == 2 && |ds| >= 2 && Last(ds) == -2 && ds[|ds| - 2] == -1;
  }

  /** The condition in PyTorch's own numbering. */
  lemma PermutableIs(l: Factored, dims: seq<int>)
    requires WellFormed(l) && InDims(dims, |l.A.shape|) && PermuteDense(Dense(l), dims).Some?
    ensures var n := |l.A.shape|;
            && dims != []
            && (Permutable(l, FromEnd(dims, n)) <==> n == 2 || (Last(Wrapped(dims, n)) == n - 1 && AllOne(Batch(l.A.shape))))
  {
    hide Dense, Fits, AllOne, IsPerm;
    DenseShape(l);
    PermutedIs(Dense(l), dims);
    var n := |l.A.shape|;
    if n == 2 {
      NoneAllOne(Batch(l.A.shape));
      OrdersOfTwo(dims);
    }
  }

  lemma NoneAllOne(s: Shape)
    requires s == []
    ensures AllOne(s)
  {
  }

  lemma OrdersOfTwo(dims: seq<int>)
    requires |dims| == 2 && InDims(dims, 2) && IsPerm(Wrapped(dims, 2))
    ensures FromEnd(dims, 2) == [-2, -1] || FromEnd(dims, 2) == [-1, -2]
  {
    var w, ds := Wrapped(dims, 2), FromEnd(dims, 2);
    assert w[0] != w[1];
    assert ds == [ds[0], ds[1]];
  }

  /** Main result on permute: it is accepted exactly if PyTorch takes the dimensions, counted from the end, for the product,
      and they keep the last one while A has no batch, or transpose a matrix. It then is that permutation of the product,
      provided its dimensions exist; one that does not is refused by PyTorch for the product. */
  lemma PermuteExact(l: Factored, dims: seq<int>)
    requires WellFormed(l)
    ensures Built(l)
    ensures var ds := FromEnd(dims, |l.A.shape|);
            Permute(l, dims).Some? <==> PermuteDense(Dense(l), ds).Some? && Permutable(l, ds)
    ensures var n := |l.A.shape|;
            InDims(dims, n) ==>
              (Permute(l, dims).Some? <==>
                 && PermuteDense(Dense(l), dims).Some? && dims != []
                 && (n == 2 || (Last(Wrapped(dims, n)) == n - 1 && AllOne(Batch(l.A.shape)))))
    ensures Permute(l, dims).Some? ==>
              var m := Permute(l, dims).value;
              && WellFormed(m)
              && PermuteDense(Dense(l), FromEnd(dims, |l.A.shape|)) == Some(Dense(m))
              && PermuteDense(Dense(l), dims) == if InDims(dims, |l.A.shape|) then Some(Dense(m)) else None
  {
    hide Dense, Permute, Built, Fits, InDims, PermuteDense, FromEnd, Permutable, AllOne;
    WellFormedIsBuilt(l);
    DenseShape(l);
    PermuteAccepted(l, dims);
    SameFromEnd(Dense(l), dims);
    if InDims(dims, |l.A.shape|) && PermuteDense(Dense(l), dims).Some? {
      PermutableIs(l, dims);
    }
    if Permute(l, dims).Some? {
      PermuteEnds(l, dims);
    }
  }

  // ----- transpose

  function Swapped<T>(s: seq<T>, i: nat, j: nat): (r: seq<T>)
    requires i < |s| && j < |s|
    ensures |r| == |s|
  {
    s[i := s[j]][j := s[i]]
  }

  function Exchange(t: Tensor, i: nat, j: nat): (r: Tensor)
    requires i < |t.shape| && j < |t.shape|
    ensures r.Valid() && r.shape == Swapped(t.shape, i, j)
  {
    var n := |t.shape|;
    Make(Swapped(t.shape, i, j), ix => if |ix| == n then At(t, Swapped(ix, i, j)) else 0.0)
  }

  lemma ExchangeAt(t: Tensor, i: nat, j: nat, ix: Ix)
    requires i < |t.shape| && j < |t.shape| && InRange(Swapped(t.shape, i, j), ix)
    ensures |ix| == |t.shape| && At(Exchange(t, i, j), ix) == At(t, Swapped(ix, i, j))
  {
    hide At, Swapped;
    var n := |t.shape|;
    MakeAt(Swapped(t.shape, i, j), ix => if |ix| == n then At(t, Swapped(ix, i, j)) else 0.0, ix);
  }

  /** PyTorch's transpose: exchange two dimensions. */
  function TransposeDense(t: Tensor, d0: int, d1: int): Option<Tensor> {
    var n := |t.shape|;
    if OkSingle(d0, n) && OkSingle(d1, n) then Some(Exchange(t, Norm(d0, n), Norm(d1, n))) else None
  }

  function Identity(n: nat): (r: seq<int>)
    ensures |r| == n
  {
    seq(n, i requires 0 <= i < n => i)
  }

  function Transpose(l: Factored, d0: int, d1: int): Option<Factored>
    requires Built(l)
  {
    var n := |ShapeOf(l)|;
    if OkSingle(d0, n) && OkSingle(d1, n) then Permute(l, Swapped(Identity(n), Norm(d0, n), Norm(d1, n))) else None
  }

  lemma SwapIsPerm(n: nat, i: nat, j: nat)
    requires i < n && j < n
    ensures var w := Swapped(Identity(n), i, j); IsPerm(w) && InDims(w, n) && Wrapped(w, n) == w
  {
    var w := Swapped(Identity(n), i, j);
    forall d | 0 <= d < n
      ensures d in w
    {
      assert w[if d == i then j else if d == j then i else d] == d;
    }
  }

  lemma SwapMoved<T>(s: seq<T>, i: nat, j: nat, w: seq<int>)
    requires i < |s| && j < |s| && w == Swapped(Identity(|s|), i, j)
    ensures forall d :: 0 <= d < |s| ==> 0 <= w[d] < |s| && Swapped(s, i, j)[d] == s[w[d]]
  {
  }

  lemma SwapPos(n: nat, i: nat, j: nat, d: nat)
    requires i < n && j < n && d < n
    ensures var w := Swapped(Identity(n), i, j); d in w && Pos(w, d) == w[d]
  {
    var w := Swapped(Identity(n), i, j);
    SwapIsPerm(n, i, j);
    var e := w[d];
    assert w[e] == d;
    var p := Pos(w, d);
    assert w[p] == w[e];
  }

  lemma SwapShape(s: Shape, i: nat, j: nat, w: seq<int>)
    requires i < |s| && j < |s| && w == Swapped(Identity(|s|), i, j) && IsPerm(w)
    ensures PermutedShape(w, s) == Swapped(s, i, j)
  {
    hide IsPerm, Swapped, Identity;
    SwapMoved(s, i, j, w);
  }

  /** Permuting by the exchanged list of dimensions is exchanging the dimensions. */
  lemma SwapIsTranspose(t: Tensor, i: nat, j: nat)
    requires t.Valid() && i < |t.shape| && j < |t.shape|
    ensures PermuteDense(t, Swapped(Identity(|t.shape|), i, j)) == Some(Exchange(t, i, j))
  {
    hide IsPerm, InDims, Wrapped, At, Swapped, Identity, Moved, PermuteDense, Exchange, PermutedShape, InRange;
    var n := |t.shape|;
    var w := Swapped(Identity(n), i, j);
    SwapIsPerm(n, i, j);
    PermutedIs(t, w);
    SwapShape(t.shape, i, j, w);
    var g, h := PermuteDense(t, w).value, Exchange(t, i, j);
    forall ix: Ix | InRange(g.shape, ix)
      ensures At(g, ix) == At(h, ix)
    {
      PermutedAt(t, w, ix);
      MovedIsSwapped(w, ix, i, j);
      ExchangeAt(t, i, j, ix);
    }
    Extensional(g, h);
  }

  lemma MovedIsSwapped(w: seq<int>, ix: Ix, i: nat, j: nat)
    requires i < |ix| && j < |ix| && w == Swapped(Identity(|ix|), i, j) && IsPerm(w)
    ensures Moved(w, ix) == Swapped(ix, i, j)
  {
    hide IsPerm, Swapped, Identity;
    SwapMoved(ix, i, j, w);
    forall d | 0 <= d < |ix|
      ensures Moved(w, ix)[d] == Swapped(ix, i, j)[d]
    {
      SwapPos(|ix|, i, j, d);
    }
  }

  /** A matrix, or a pair whose A has no batch while the last dimension stays. */
  predicate Transposable(l: Factored, d0: int, d1: int)
    requires |l.A.shape| >= 2 && OkSingle(d0, |l.A.shape|) && OkSingle(d1, |l.A.shape|)
  {
    var n := |l.A.shape|;
    n == 2 || (AllOne(Batch(l.A.shape)) && (Norm(d0, n) == Norm(d1, n) || (Norm(d0, n) < n - 1 && Norm(d1, n) < n - 1)))
  }

  lemma LastOfSwap(n: nat, i: nat, j: nat)
    requires i < n && j < n
    ensures Last(Swapped(Identity(n), i, j)) == n - 1 <==> i == j || (i < n - 1 && j < n - 1)
  {
  }

  /** Main result on transpose: it is accepted for the dimensions that exist, if they are not the last one of a batched
      pair and A has no batch, or if the pair is a matrix; and it is the transpose of the product. */
  lemma TransposeExact(l: Factored, d0: int, d1: int)
    requires WellFormed(l)
    ensures Built(l)
    ensures Transpose(l, d0, d1).Some? <==> TransposeDense(Dense(l), d0, d1).Some? && Transposable(l, d0, d1)
    ensures Transpose(l, d0, d1).Some? ==>
              var m := Transpose(l, d0, d1).value;
              WellFormed(m) && TransposeDense(Dense(l), d0, d1) == Some(Dense(m))
  {
    hide Dense, Permute, Built, Swapped, Identity, PermuteDense, Exchange, Fits, FromEnd, AllOne;
    WellFormedIsBuilt(l);
    DenseShape(l);
    var n := |l.A.shape|;
    if OkSingle(d0, n) && OkSingle(d1, n) {
      var i, j := Norm(d0, n), Norm(d1, n);
      SwapIsPerm(n, i, j);
      LastOfSwap(n, i, j);
      PermuteExact(l, Swapped(Identity(n), i, j));
      SwapIsTranspose(Dense(l), i, j);
    }
  }
}
