/** Indexing a LoraTorchTensor with a tuple, the place its source marks "make sure this is correct". */
module LoraTuple {
  import opened Text
  import opened Tensors
  import opened Lora
  import opened LoraIndex

  /** The batch indices for factor A: numbers are reduced to its extent, slices are dropped. */
  function ForA(a: Shape, xs: seq<Index>): (r: seq<Index>)
    requires |xs| == |a| && forall i :: 0 <= i < |a| && xs[i].Single? ==> a[i] > 0
    ensures |r| == |a|
  {
    seq(|a|, i requires 0 <= i < |a| => if xs[i].Single? then Single(xs[i].i % a[i]) else Span(ALL))
  }

  /** A tuple without ellipsis that covers all dimensions. */
  function GetFull(l: Factored, xs: seq<Index>): Option<Factored>
    requires Built(l) && |xs| == |l.A.shape|
  {
    var n, a := |xs|, Batch(l.A.shape);
    if exists i :: 0 <= i < n - 2 && xs[i].Single? && a[i] == 0 then None
    else Both(Get(l.A, ForA(a, xs[..n - 2]) + [Span(ALL)] + [xs[n - 1]]), Get(l.B, xs[..n - 1]))
  }

  predicate DimSafe(a: nat, b: nat, x: Index) {
    x.Span? && x.s.step > 0 ==> a == 1 || Len(x.s, b) == b
  }

  /** Every batch dimension that A has is taken whole, or by number. */
  predicate BatchSafe(a: Shape, b: Shape, xs: seq<Index>)
    requires |a| == |b| == |xs|
  {
    forall i :: 0 <= i < |a| ==> DimSafe(a[i], b[i], xs[i])
  }

  // ----- One dimension

  /** A slice that takes as many elements as there are takes them in order. */
  lemma FullSlice(s: Slice, n: nat, m: nat)
    requires s.step > 0 && Len(s, n) == n && m < n
    ensures Pick(s, n, m) == m
  {
    var a, b, k := First(s, n), Stop(s, n), s.step;
    CeilTight(b - a, k, n);
  }

  lemma Expand(n: int, k: int)
    ensures (n - 1) * (k - 1) == n * k - n - k + 1
  {
  }

  lemma NotBoth(u: nat, v: nat)
    requires u * v <= 0
    ensures u == 0 || v == 0
  {
  }

  lemma CeilTight(d: int, k: int, n: nat)
    requires k > 0 && 0 < d <= n && (d + k - 1) / k == n
    ensures d == n && (n == 1 || k == 1)
  {
    var x := d + k - 1;
    assert x / k * k + x % k == x;
    Expand(n, k);
    NotBoth(n - 1, k - 1);
  }

  function OneForA(a: nat, x: Index): Index
    requires x.Single? ==> a > 0
  {
    if x.Single? then Single(x.i % a) else Span(ALL)
  }

  lemma OneAgrees(a: nat, b: nat, x: Index)
    requires Fits(a, b) && OkIndex(x, b)
    ensures x.Single? ==> a > 0
    ensures OkIndex(OneForA(a, x), a)
    ensures DimSafe(a, b, x) <==> Agree(a, b, OneForA(a, x), x)
    ensures x.Span? ==> (DimSafe(a, b, x) <==> Fits(a, Len(x.s, b)))
  {
    hide Len, Pick;
    match x {
      case Single(i) =>
        ModIsNorm(i, b);
      case Span(s) =>
        TakeAll(a, 0);
        if DimSafe(a, b, x) {
          forall m: nat | m < Len(s, b)
            ensures Pick(ALL, a, if Len(ALL, a) == 1 then 0 else m) == if a == 1 then 0 else Pick(s, b, m)
          {
            TakeAll(a, if Len(ALL, a) == 1 then 0 else m);
            if a != 1 {
              FullSlice(s, b, m);
            }
          }
          assert SpansAgree(a, b, ALL, s);
        }
    }
  }

  lemma ModIsNorm(i: int, n: nat)
    requires OkSingle(i, n)
    ensures n > 0 && i % n == Norm(i, n)
  {
    if i < 0 {
      assert (i + n) % n == i + n;
    }
  }

  // ----- The batch

  lemma ForASnoc(a: Shape, xs: seq<Index>, n: nat, x: Index)
    requires |xs| == |a| && (forall i :: 0 <= i < |a| && xs[i].Single? ==> a[i] > 0) && (x.Single? ==> n > 0)
    ensures forall i :: 0 <= i < |a| + 1 && (xs + [x])[i].Single? ==> (a + [n])[i] > 0
    ensures ForA(a + [n], xs + [x]) == ForA(a, xs) + [OneForA(n, x)]
  {
    hide OneForA;
    forall i | 0 <= i < |a| + 1 && (xs + [x])[i].Single?
      ensures (a + [n])[i] > 0
    {
      if i < |a| {
        assert xs[i].Single?;
      }
    }
    var r := ForA(a + [n], xs + [x]);
    assert r[|a|] == OneForA(n, x) by { OneForAIs(n, x); }
    assert forall i :: 0 <= i < |a| ==> r[i] == ForA(a, xs)[i];
  }

  lemma OneForAIs(n: nat, x: Index)
    requires x.Single? ==> n > 0
    ensures OneForA(n, x) == if x.Single? then Single(x.i % n) else Span(ALL)
  {
  }

  /** What holds of the batch indices for both factors. */
  predicate Folded(a: Shape, b: Shape, xs: seq<Index>)
    requires |a| == |b| == |xs|
  {
    && (forall i :: 0 <= i < |a| && xs[i].Single? ==> a[i] > 0)
    && OkIndices(a, ForA(a, xs)) && OkIndices(b, xs)
    && |OutShape(a, ForA(a, xs))| == |OutShape(b, xs)|
    && (BatchSafe(a, b, xs) <==> AllFit(OutShape(a, ForA(a, xs)), OutShape(b, xs)))
    && (BatchSafe(a, b, xs) ==> AllAgree(a, b, ForA(a, xs), xs))
  }

  lemma FitSnoc(s: Shape, t: Shape, m: nat, n: nat)
    requires |s| == |t|
    ensures AllFit(s + [m], t + [n]) <==> AllFit(s, t) && Fits(m, n)
  {
    hide Fits;
    var u, v := s + [m], t + [n];
    assert u[|s|] == m && v[|s|] == n;
    if AllFit(u, v) {
      assert forall i :: 0 <= i < |s| ==> u[i] == s[i] && v[i] == t[i];
    }
  }

  lemma SafeSnoc(a: Shape, b: Shape, xs: seq<Index>, m: nat, n: nat, x: Index)
    requires |a| == |b| == |xs|
    ensures BatchSafe(a + [m], b + [n], xs + [x]) <==> BatchSafe(a, b, xs) && DimSafe(m, n, x)
  {
    hide DimSafe;
    var u, v, ys := a + [m], b + [n], xs + [x];
    assert u[|a|] == m && v[|a|] == n && ys[|a|] == x;
    if BatchSafe(u, v, ys) {
      assert forall i :: 0 <= i < |a| ==> u[i] == a[i] && v[i] == b[i] && ys[i] == xs[i];
    }
  }

  lemma AgreeSnoc(a: Shape, b: Shape, xs: seq<Index>, ys: seq<Index>, m: nat, n: nat, x: Index, y: Index)
    requires OkIndices(a, xs) && OkIndices(b, ys) && OkIndex(x, m) && OkIndex(y, n)
    requires AllAgree(a, b, xs, ys) && Agree(m, n, x, y)
    ensures OkIndices(a + [m], xs + [x]) && OkIndices(b + [n], ys + [y])
    ensures AllAgree(a + [m], b + [n], xs + [x], ys + [y])
  {
    hide Agree, OkIndex;
    OkSnoc(a, xs, m, x);
    OkSnoc(b, ys, n, y);
    forall i | 0 <= i < |a| + 1
      ensures Agree((a + [m])[i], (b + [n])[i], (xs + [x])[i], (ys + [y])[i])
    {
      if i < |a| {
        assert Agree(a[i], b[i], xs[i], ys[i]);
      }
    }
  }

  lemma FoldedSnoc(a: Shape, b: Shape, xs: seq<Index>, m: nat, n: nat, x: Index)
    requires |a| == |b| == |xs| && Folded(a, b, xs) && Fits(m, n) && OkIndex(x, n)
    ensures Folded(a + [m], b + [n], xs + [x])
  {
    hide ForA, OkIndices, BatchSafe, AllFit, AllAgree, OutShape, DimSafe, Agree, Len;
    OneAgrees(m, n, x);
    ForASnoc(a, xs, m, x);
    var ys := ForA(a, xs);
    OutSnoc(a, ys, m, OneForA(m, x));
    OutSnoc(b, xs, n, x);
    SafeSnoc(a, b, xs, m, n, x);
    TakeAll(m, 0);
    if x.Span? {
      FitSnoc(OutShape(a, ys), OutShape(b, xs), m, Len(x.s, n));
    } else {
      SingleIsSafe(m, n, x);
    }
    if BatchSafe(a, b, xs) && DimSafe(m, n, x) {
      AgreeSnoc(a, b, ys, xs, m, n, OneForA(m, x), x);
    }
  }

  lemma SingleIsSafe(m: nat, n: nat, x: Index)
    requires x.Single?
    ensures DimSafe(m, n, x)
  {
  }

  lemma {:induction false} FoldBatch(a: Shape, b: Shape, xs: seq<Index>)
    requires |a| == |b| == |xs| && AllFit(a, b) && OkIndices(b, xs)
    ensures Folded(a, b, xs)
    decreases |a|
  {
    if a == [] {
      assert ForA(a, xs) == [];
    } else {
      hide Folded, OkIndices, Fits, OkIndex;
      OkFront(b, xs);
      assert Fits(Last(a), Last(b));
      assert AllFit(Front(a), Front(b));
      FoldBatch(Front(a), Front(b), Front(xs));
      FoldedSnoc(Front(a), Front(b), Front(xs), Last(a), Last(b), Last(xs));
      Rejoin(a);
      Rejoin(b);
      Rejoin(xs);
    }
  }

  // ----- All dimensions

  lemma SplitTuple(l: Factored, xs: seq<Index>)
    requires WellFormed(l) && |xs| == |l.A.shape|
    ensures var n := |xs|; xs == xs[..n - 2] + [xs[n - 2]] + [xs[n - 1]]
    ensures var n := |xs|; Get(l.B, xs[..n - 1]) == Get(l.B, xs[..n - 2] + [xs[n - 2]] + [Span(ALL)])
    ensures var n := |xs|;
            OkIndices(ShapeOf(l), xs) <==>
            OkIndices(Batch(l.B.shape), xs[..n - 2]) && OkIndex(xs[n - 2], Rows(l)) && OkIndex(xs[n - 1], Cols(l))
  {
    hide Get, OkIndices, OkIndex, Pad;
    var n := |xs|;
    var batch, r, c := xs[..n - 2], xs[n - 2], xs[n - 1];
    assert xs == batch + [r] + [c] && xs[..n - 1] == batch + [r];
    Shapes(l);
    OkSnoc(Batch(l.B.shape), batch, Rows(l), r);
    OkSnoc(Batch(l.B.shape) + [Rows(l)], batch + [r], Cols(l), c);
    GetPadded(l.B, xs[..n - 1]);
    PadIs(xs[..n - 1], n);
    assert Fulls(1) == [Span(ALL)];
  }

  /** Two more dimensions, indexed in any way. */
  lemma TwoMoreLength(t: Tensor, s: Shape, xs: seq<Index>, m: nat, n: nat, x: Index, y: Index)
    requires t.shape == s + [m] + [n] && OkIndices(s, xs)
    ensures var g := Get(t, xs + [x] + [y]);
            && (g.Some? <==> OkIndex(x, m) && OkIndex(y, n))
            && (g.Some? ==> |g.value.shape| == |OutShape(s, xs)| + (if x.Span? then 1 else 0) + (if y.Span? then 1 else 0))
  {
    hide Len, OkIndices, OkIndex, OutShape, Pad, Make;
    assert |xs| == |s| by { OkLength(s, xs); }
    OkSnoc(s, xs, m, x);
    OkSnoc(s + [m], xs + [x], n, y);
    PadNothing(xs + [x] + [y]);
    if OkIndex(x, m) && OkIndex(y, n) {
      OutSnoc(s, xs, m, x);
      OutSnoc(s + [m], xs + [x], n, y);
      GetShape(t, xs + [x] + [y]);
      SpanOrSingle(x, m);
      SpanOrSingle(y, n);
    }
  }

  lemma SpanOrSingle(x: Index, n: nat)
    requires OkIndex(x, n)
    ensures x.Span? || x.Single?
  {
  }

  lemma OkLength(s: Shape, xs: seq<Index>)
    requires OkIndices(s, xs)
    ensures |xs| == |s|
  {
  }

  lemma PadNothing(xs: seq<Index>)
    ensures Pad(xs, |xs|) == xs
  {
  }

  lemma GetIsOk(t: Tensor, xs: seq<Index>)
    requires |xs| == |t.shape|
    ensures Get(t, xs).Some? <==> OkIndices(t.shape, xs)
  {
  }

  /** The factored result stands for the indexed product. */
  predicate Right(l: Factored, m: Option<Factored>, xs: seq<Index>)
    requires WellFormed(l)
  {
    m.Some? && WellFormed(m.value) && Get(Dense(l), xs) == Some(Dense(m.value))
  }

  /** Batch indices that B accepts. */
  lemma TupleParts(l: Factored, xs: seq<Index>)
    requires WellFormed(l) && |xs| == |l.A.shape| && OkIndices(Batch(l.B.shape), xs[..|xs| - 2])
    ensures Built(l)
    ensures var n, a := |xs|, Batch(l.A.shape);
            && Folded(a, Batch(l.B.shape), xs[..n - 2])
            && GetFull(l, xs) == Both(Get(l.A, ForA(a, xs[..n - 2]) + [Span(ALL)] + [xs[n - 1]]),
                                      Get(l.B, xs[..n - 2] + [xs[n - 2]] + [Span(ALL)]))
  {
    hide Get, OkIndices, OkIndex, Pad, New, ForA, AllAgree, BatchSafe, AllFit, OutShape, Built;
    WellFormedIsBuilt(l);
    BatchesFit(l);
    var n, a := |xs|, Batch(l.A.shape);
    FoldBatch(a, Batch(l.B.shape), xs[..n - 2]);
    SplitTuple(l, xs);
    assert forall i :: 0 <= i < n - 2 ==> xs[..n - 2][i] == xs[i];
  }

  lemma BatchNotOk(l: Factored, xs: seq<Index>)
    requires WellFormed(l) && |xs| == |l.A.shape| && !OkIndices(Batch(l.B.shape), xs[..|xs| - 2])
    ensures Built(l) && GetFull(l, xs).None? && !OkIndices(ShapeOf(l), xs)
  {
    hide Get, OkIndices, OkIndex, Pad, New, ForA, AllAgree, BatchSafe, AllFit, OutShape, Built;
    WellFormedIsBuilt(l);
    SplitTuple(l, xs);
    Shapes(l);
    var n := |xs|;
    var batch, r := xs[..n - 2], xs[n - 2];
    OkSnoc(Batch(l.B.shape), batch, Rows(l), r);
    OkSnoc(Batch(l.B.shape) + [Rows(l)], batch + [r], Rank(l), Span(ALL));
    GetIsOk(l.B, batch + [r] + [Span(ALL)]);
  }

  lemma SpansExact(l: Factored, xs: seq<Index>)
    requires WellFormed(l) && |xs| == |l.A.shape| && OkIndices(ShapeOf(l), xs) && xs[|xs| - 2].Span? && xs[|xs| - 1].Span?
    ensures Built(l) && GetFull(l, xs).Some?
    ensures Right(l, GetFull(l, xs), xs) <==> BatchSafe(Batch(l.A.shape), Batch(l.B.shape), xs[..|xs| - 2])
  {
    hide Get, OkIndices, Pad, New, ForA, AllAgree, BatchSafe, AllFit, OutShape, Built, GetFull, Dense;
    var n, a, b := |xs|, Batch(l.A.shape), Batch(l.B.shape);
    SplitTuple(l, xs);
    TupleParts(l, xs);
    var batch, r, c := xs[..n - 2], xs[n - 2].s, xs[n - 1].s;
    var xa := ForA(a, batch);
    assert GetFull(l, xs) == BothIndexed(l, xa, batch, r, c);
    IndexedShapes(l, xa, batch, r, c);
    IndexedFits(l, xa, batch, r, c);
    if BatchSafe(a, b, batch) {
      IndexBoth(l, xa, batch, r, c);
    }
  }

  lemma NotBothSpans(l: Factored, xs: seq<Index>)
    requires WellFormed(l) && |xs| == |l.A.shape| && OkIndices(ShapeOf(l), xs) && !(xs[|xs| - 2].Span? && xs[|xs| - 1].Span?)
    ensures Built(l) && !Right(l, GetFull(l, xs), xs)
  {
    hide Get, OkIndices, Pad, ForA, AllAgree, BatchSafe, AllFit, OutShape, Built, GetFull, Dense;
    var n, a, b := |xs|, Batch(l.A.shape), Batch(l.B.shape);
    SplitTuple(l, xs);
    TupleParts(l, xs);
    Shapes(l);
    DenseShape(l);
    var batch, r, c := xs[..n - 2], xs[n - 2], xs[n - 1];
    TwoMoreLength(l.A, a, ForA(a, batch), Rank(l), Cols(l), Span(ALL), c);
    TwoMoreLength(l.B, b, batch, Rows(l), Rank(l), r, Span(ALL));
    TwoMoreLength(Dense(l), b, batch, Rows(l), Cols(l), r, c);
    var m := GetFull(l, xs);
    if m.Some? && WellFormed(m.value) {
      DenseShape(m.value);
    }
  }

  lemma MatrixNotOk(l: Factored, xs: seq<Index>)
    requires WellFormed(l) && |xs| == |l.A.shape| && OkIndices(Batch(l.B.shape), xs[..|xs| - 2])
    requires !(OkIndex(xs[|xs| - 2], Rows(l)) && OkIndex(xs[|xs| - 1], Cols(l)))
    ensures Built(l) && GetFull(l, xs).None? && !OkIndices(ShapeOf(l), xs)
  {
    hide Get, OkIndices, Pad, ForA, AllAgree, BatchSafe, AllFit, OutShape, Built, GetFull, OkIndex;
    var n, a, b := |xs|, Batch(l.A.shape), Batch(l.B.shape);
    SplitTuple(l, xs);
    TupleParts(l, xs);
    Shapes(l);
    var batch, r, c := xs[..n - 2], xs[n - 2], xs[n - 1];
    TwoMoreLength(l.A, a, ForA(a, batch), Rank(l), Cols(l), Span(ALL), c);
    TwoMoreLength(l.B, b, batch, Rows(l), Rank(l), r, Span(ALL));
  }

  /** Main result on tuples: the result stands for the indexed product if and only if PyTorch accepts the tuple for the
      product, rows and columns are sliced rather than picked, and every batch dimension that A has is taken whole or by
      number. With rows and columns sliced, the tuple is accepted exactly if PyTorch accepts it for the product. */
  lemma TupleExact(l: Factored, xs: seq<Index>)
    requires WellFormed(l) && |xs| == |l.A.shape|
    ensures Built(l)
    ensures Right(l, GetFull(l, xs), xs) <==>
            && OkIndices(ShapeOf(l), xs) && xs[|xs| - 2].Span? && xs[|xs| - 1].Span?
            && BatchSafe(Batch(l.A.shape), Batch(l.B.shape), xs[..|xs| - 2])
    ensures xs[|xs| - 2].Span? && xs[|xs| - 1].Span? ==> (GetFull(l, xs).Some? <==> OkIndices(ShapeOf(l), xs))
  {
    hide Get, OkIndices, OkIndex, BatchSafe, Built, GetFull, Dense, Right;
    WellFormedIsBuilt(l);
    SplitTuple(l, xs);
    if !OkIndices(Batch(l.B.shape), xs[..|xs| - 2]) {
      BatchNotOk(l, xs);
      NothingIsNotRight(l, xs);
    } else if !(OkIndex(xs[|xs| - 2], Rows(l)) && OkIndex(xs[|xs| - 1], Cols(l))) {
      MatrixNotOk(l, xs);
      NothingIsNotRight(l, xs);
    } else if xs[|xs| - 2].Span? && xs[|xs| - 1].Span? {
      SpansExact(l, xs);
    } else {
      NotBothSpans(l, xs);
    }
  }

  lemma NothingIsNotRight(l: Factored, xs: seq<Index>)
    requires WellFormed(l)
    ensures !Right(l, None, xs)
  {
  }

  // ----- Ellipsis

  /** Every ellipsis becomes `w` full slices. */
  function ExpandDots(xs: seq<Index>, w: nat): seq<Index> {
    if xs == [] then [] else (if xs[0].Dots? then Fulls(w) else [xs[0]]) + ExpandDots(xs[1..], w)
  }

  /** The indices that the code reads for `n` dimensions: a trailing ellipsis is dropped, any other one becomes as many
      full slices as there are other entries, and missing dimensions are taken whole. */
  function CodeList(xs: seq<Index>, n: nat): (r: Option<seq<Index>>)
    ensures r.Some? ==> |r.value| == n
    decreases |xs|
  {
    if xs == [] then None
    else if Last(xs).Dots? then CodeList(Front(xs), n)
    else
      var all := Pad(ExpandDots(xs, |xs| - 1), n);
      if |all| != n then None else Some(all)
  }

  /** self[(...)]. */
  function GetTuple(l: Factored, xs: seq<Index>): Option<Factored>
    requires Built(l)
  {
    match CodeList(xs, |l.A.shape|)
    case None => None
    case Some(all) => GetFull(l, all)
  }

  predicate NoDots(xs: seq<Index>) {
    forall i :: 0 <= i < |xs| ==> !xs[i].Dots?
  }

  /** How PyTorch fills in one ellipsis, between `pre` and `post`, for `n` dimensions. */
  function Filled(pre: seq<Index>, post: seq<Index>, n: nat): seq<Index>
    requires |pre| + |post| <= n
  {
    pre + Fulls(n - |pre| - |post|) + post
  }

  lemma {:induction false} ExpandNoDots(xs: seq<Index>, w: nat)
    requires NoDots(xs)
    ensures ExpandDots(xs, w) == xs
  {
    if xs != [] {
      assert !xs[0].Dots?;
      assert NoDots(xs[1..]);
      ExpandNoDots(xs[1..], w);
    }
  }

  lemma ExpandStep(x: Index, xs: seq<Index>, w: nat)
    ensures ExpandDots([x] + xs, w) == (if x.Dots? then Fulls(w) else [x]) + ExpandDots(xs, w)
  {
    assert ([x] + xs)[1..] == xs;
  }

  lemma HeadTail(x: Index, xs: seq<Index>, m: seq<Index>, post: seq<Index>)
    ensures [x] + (xs + m + post) == [x] + xs + m + post
  {
  }

  lemma {:induction false} ExpandOne(pre: seq<Index>, post: seq<Index>, w: nat)
    requires NoDots(pre) && NoDots(post)
    ensures ExpandDots(pre + [Dots] + post, w) == pre + Fulls(w) + post
  {
    hide Fulls, ExpandDots;
    if pre == [] {
      assert pre + [Dots] + post == [Dots] + post && pre + Fulls(w) + post == Fulls(w) + post;
      ExpandStep(Dots, post, w);
      ExpandNoDots(post, w);
    } else {
      var x, xs := pre[0], pre[1..];
      assert !x.Dots? && NoDots(xs) && pre == [x] + xs;
      HeadTail(x, xs, [Dots], post);
      HeadTail(x, xs, Fulls(w), post);
      ExpandStep(x, xs + [Dots] + post, w);
      ExpandOne(xs, post, w);
    }
  }

  predicate AllFull(xs: seq<Index>) {
    forall i :: 0 <= i < |xs| ==> xs[i] == Span(ALL)
  }

  /** Full slices commute with a list only if there are none of them or the list consists of them. */
  lemma FullsCommute(xs: seq<Index>, q: nat)
    ensures Fulls(q) + xs == xs + Fulls(q) <==> q == 0 || AllFull(xs)
  {
    var l, r := Fulls(q) + xs, xs + Fulls(q);
    if l == r && q > 0 {
      CommutesFull(xs, q, |xs|);
    }
    if AllFull(xs) {
      assert forall i :: 0 <= i < |xs| + q ==> l[i] == Span(ALL) && r[i] == Span(ALL);
    }
  }

  lemma {:induction false} CommutesFull(xs: seq<Index>, q: nat, k: nat)
    requires Fulls(q) + xs == xs + Fulls(q) && q > 0 && k <= |xs|
    ensures AllFull(xs[..k])
    decreases k
  {
    if k > 0 {
      CommutesFull(xs, q, k - 1);
      var i := k - 1;
      assert xs[i] == (xs + Fulls(q))[i] == (Fulls(q) + xs)[i];
      if i >= q {
        assert (Fulls(q) + xs)[i] == xs[i - q] == xs[..k - 1][i - q];
      }
      assert forall j :: 0 <= j < k - 1 ==> xs[..k][j] == xs[..k - 1][j];
    }
  }

  lemma {:induction false} FullsAdd(m: nat, n: nat)
    ensures Fulls(m) + Fulls(n) == Fulls(m + n)
  {
  }

  /** The indices that PyTorch reads for `n` dimensions: one ellipsis stands for the dimensions that are missing. */
  function TorchList(xs: seq<Index>, n: nat): (r: Option<seq<Index>>)
    ensures r.Some? ==> |r.value| == n
  {
    var k := DotsAt(xs, 0);
    if k == |xs| then if |xs| <= n then Some(Pad(xs, n)) else None
    else if NoDots(xs[k + 1..]) && |xs| - 1 <= n then Some(Filled(xs[..k], xs[k + 1..], n))
    else None
  }

  function DotsAt(xs: seq<Index>, i: nat): (k: nat)
    requires i <= |xs|
    ensures i <= k <= |xs| && (k < |xs| ==> xs[k].Dots?)
    ensures forall j :: i <= j < k ==> !xs[j].Dots?
    decreases |xs| - i
  {
    if i == |xs| || xs[i].Dots? then i else DotsAt(xs, i + 1)
  }

  lemma DotsSplit(pre: seq<Index>, post: seq<Index>, n: nat)
    requires NoDots(pre) && NoDots(post)
    ensures TorchList(pre + [Dots] + post, n) == if |pre| + |post| <= n then Some(Filled(pre, post, n)) else None
  {
    hide Filled;
    var xs := pre + [Dots] + post;
    var k := DotsAt(xs, 0);
    assert xs[|pre|] == Dots;
    assert forall j :: 0 <= j < |pre| ==> xs[j] == pre[j];
    assert k == |pre|;
    assert xs[..k] == pre && xs[k + 1..] == post;
  }

  /** A tuple without ellipsis: what PyTorch reads. */
  lemma PlainTuple(xs: seq<Index>, n: nat)
    requires NoDots(xs) && xs != []
    ensures CodeList(xs, n) == TorchList(xs, n) == if |xs| <= n then Some(Pad(xs, n)) else None
  {
    assert !xs[|xs| - 1].Dots?;
    ExpandNoDots(xs, |xs| - 1);
    assert DotsAt(xs, 0) == |xs|;
  }

  /** A trailing ellipsis changes nothing; PyTorch reads the same. Alone, it is refused here and not there. */
  lemma TrailingDots(xs: seq<Index>, n: nat)
    requires NoDots(xs) && xs != []
    ensures CodeList(xs + [Dots], n) == TorchList(xs + [Dots], n) == CodeList(xs, n)
    ensures CodeList([Dots], n) == None && TorchList([Dots], n) == Some(Fulls(n))
  {
    hide Pad, Fulls, ExpandDots;
    FrontLast(xs, Dots);
    PlainTuple(xs, n);
    assert xs + [Dots] + [] == xs + [Dots];
    DotsSplit(xs, [], n);
    if |xs| <= n {
      PadIs(xs, n);
      assert Filled(xs, [], n) == xs + Fulls(n - |xs|);
    }
    LoneDots(n);
  }

  lemma LoneDots(n: nat)
    ensures CodeList([Dots], n) == None && TorchList([Dots], n) == Some(Fulls(n))
  {
    hide Pad, Fulls, ExpandDots;
    assert [] + [Dots] + [] == [Dots];
    DotsSplit([], [], n);
    assert Filled([], [], n) == Fulls(n);
  }

  /** An ellipsis that is not the last entry: with more than half as many other entries as dimensions the code refuses;
      otherwise it reads a list of indices that is PyTorch's if and only if the other entries are exactly half as many as
      the dimensions or everything behind the ellipsis is a full slice. */
  lemma InnerDots(pre: seq<Index>, post: seq<Index>, n: nat)
    requires NoDots(pre) && NoDots(post) && post != []
    ensures var w, xs := |pre| + |post|, pre + [Dots] + post;
            var read := pre + Fulls(w) + post + Fulls(if 2 * w <= n then n - 2 * w else 0);
            && CodeList(xs, n) == (if 2 * w <= n then Some(read) else None)
            && (w <= n ==> (CodeList(xs, n) == TorchList(xs, n) <==> 2 * w == n || (2 * w < n && AllFull(post))))
  {
    hide Fulls, ExpandDots, TorchList;
    var xs, w := pre + [Dots] + post, |pre| + |post|;
    assert Last(xs) == post[|post| - 1];
    ExpandOne(pre, post, w);
    DotsSplit(pre, post, n);
    var list := pre + Fulls(w) + post;
    if 2 * w <= n {
      var q := n - 2 * w;
      PadIs(list, n);
      FullsCommute(post, q);
      FullsAdd(w, q);
      SameMiddle(pre + Fulls(w), post + Fulls(q), Fulls(q) + post);
      assert list + Fulls(q) == (pre + Fulls(w)) + (post + Fulls(q));
      assert Filled(pre, post, n) == (pre + Fulls(w)) + (Fulls(q) + post) by {
        assert pre + (Fulls(w) + Fulls(q)) + post == (pre + Fulls(w)) + (Fulls(q) + post);
      }
    }
  }

  lemma SameMiddle(p: seq<Index>, a: seq<Index>, b: seq<Index>)
    ensures p + a == p + b <==> a == b
  {
    assert (p + a)[|p|..] == a && (p + b)[|p|..] == b;
  }

  /** self[..., s] on three dimensions slices the rows; PyTorch slices the columns. */
  lemma LastColumnsMissed(l: Factored, s: Slice)
    requires WellFormed(l) && |l.A.shape| == 3 && s.step > 0
    ensures Built(l) && GetTuple(l, [Dots, Span(s)]).Some?
    ensures var m := GetTuple(l, [Dots, Span(s)]).value;
            WellFormed(m) && ShapeOf(m) == [l.B.shape[0], Len(s, Rows(l)), Cols(l)]
    ensures TorchList([Dots, Span(s)], 3).Some?
    ensures var g := Get(Dense(l), TorchList([Dots, Span(s)], 3).value);
            g.Some? && g.value.shape == [l.B.shape[0], Rows(l), Len(s, Cols(l))]
  {
    hide Get, Dense, Len, GetFull, CodeList, TorchList, Built, AllFit;
    WellFormedIsBuilt(l);
    var b := l.B.shape[0];
    var xs := [Span(ALL)] + [Span(s)] + [Span(ALL)];
    InnerDots([], [Span(s)], 3);
    DotsSplit([], [Span(s)], 3);
    assert [] + [Dots] + [Span(s)] == [Dots, Span(s)];
    assert [] + Fulls(1) + [Span(s)] + Fulls(1) == xs;
    assert Filled([], [Span(s)], 3) == [Span(ALL)] + [Span(ALL)] + [Span(s)];
    Shapes(l);
    DenseShape(l);
    assert Batch(l.B.shape) == [b];
    ThreeSlices(Dense(l), b, Rows(l), Cols(l), ALL, s);
    ThreeSlices(Dense(l), b, Rows(l), Cols(l), s, ALL);
    TakeAll(Rows(l), 0);
    TakeAll(Cols(l), 0);
    TakeAll(b, 0);
    assert DimSafe(l.A.shape[0], b, Span(ALL));
    TupleExact(l, xs);
    DenseShape(GetFull(l, xs).value);
  }

  lemma ThreeSlices(t: Tensor, b: nat, m: nat, n: nat, x: Slice, y: Slice)
    requires t.shape == [b] + [m] + [n] && x.step > 0 && y.step > 0
    ensures var xs := [Span(ALL)] + [Span(x)] + [Span(y)];
            && OkIndices(t.shape, xs)
            && Get(t, xs).Some? && Get(t, xs).value.shape == [b, Len(x, m), Len(y, n)]
  {
    hide Get, Len, OutShape, OkIndices;
    NothingToIndex();
    NoSource();
    assert [] + [b] == [b] && [] + [Span(ALL)] == [Span(ALL)];
    OutSnoc([], [], b, Span(ALL));
    TakeAll(b, 0);
    TwoMore([b], [Span(ALL)], m, n, x, y);
    GetShape(t, [Span(ALL)] + [Span(x)] + [Span(y)]);
  }
}
