/** LoraTorchTensor of convert_lora_to_gguf.py: a pair of factors that stands for the product of the two. */
module Lora {
  import opened Text
  import opened Tensors

  function SumTo(n: nat, f: nat -> real): real {
    if n == 0 then 0.0 else SumTo(n - 1, f) + f(n - 1)
  }

  lemma SumEqual(n: nat, f: nat -> real, g: nat -> real)
    requires forall k: nat :: k < n ==> f(k) == g(k)
    ensures SumTo(n, f) == SumTo(n, g)
  {
  }

  datatype Factored = Factored(A: Tensor, B: Tensor)

  /** The constructor; `None` stands for a raised exception throughout. */
  function New(a: Tensor, b: Tensor): Option<Factored> {
    var n := |a.shape|;
    if n == |b.shape| && n >= 2 && a.shape[n - 2] == b.shape[n - 1] then Some(Factored(a, b)) else None
  }

  function Rank(l: Factored): nat
    requires l.B.shape != []
  {
    Last(l.B.shape)
  }

  function Batch(s: Shape): Shape
    requires |s| >= 2
  {
    s[..|s| - 2]
  }

  function Rows(l: Factored): nat
    requires |l.B.shape| >= 2
  {
    l.B.shape[|l.B.shape| - 2]
  }

  function Cols(l: Factored): nat
    requires |l.A.shape| >= 2
  {
    Last(l.A.shape)
  }

  /** The `shape` property. */
  function ShapeOf(l: Factored): Shape
    requires |l.A.shape| >= 2 && |l.B.shape| >= 2
  {
    Front(l.B.shape) + [Cols(l)]
  }

  /** Extents that broadcast to the second one. */
  predicate Fits(a: nat, b: nat) { a == 1 || a == b }

  /** The factors are those of one batched product, of the shape that `shape` claims, and there is something to sum. */
  predicate WellFormed(l: Factored) {
    var n := |l.A.shape|;
    && l.A.Valid() && l.B.Valid()
    && n == |l.B.shape| && n >= 2 && l.A.shape[n - 2] == l.B.shape[n - 1] > 0
    && forall i :: 0 <= i < n - 2 ==> Fits(l.A.shape[i], l.B.shape[i])
  }

  /** Broadcasting: a batch index as it applies to factor A. */
  function Project(a: Shape, ix: Ix): (r: Ix)
    requires |a| == |ix|
    ensures |r| == |a|
  {
    seq(|a|, i requires 0 <= i < |a| => if a[i] == 1 then 0 else ix[i])
  }

  /** One element of the product B A. */
  function Elem(l: Factored, b: Ix, r: nat, c: nat): real
    requires |l.A.shape| == |l.B.shape| == |b| + 2
  {
    SumTo(Rank(l), (k: nat) => At(l.B, b + [r, k]) * At(l.A, Project(Batch(l.A.shape), b) + [k, c]))
  }

  /** The tensor that the pair stands for. */
  function Dense(l: Factored): Tensor
    requires WellFormed(l)
  {
    var n := |l.A.shape|;
    Make(ShapeOf(l), ix => if |ix| == n then Elem(l, Batch(ix), ix[n - 2], ix[n - 1]) else 0.0)
  }

  lemma Shapes(l: Factored)
    requires WellFormed(l)
    ensures l.A.shape == Batch(l.A.shape) + [Rank(l)] + [Cols(l)]
    ensures l.B.shape == Batch(l.B.shape) + [Rows(l)] + [Rank(l)]
    ensures ShapeOf(l) == Batch(l.B.shape) + [Rows(l)] + [Cols(l)]
    ensures |Batch(l.A.shape)| == |Batch(l.B.shape)|
  {
  }

  lemma DenseAt(l: Factored, b: Ix, r: nat, c: nat)
    requires WellFormed(l) && InRange(ShapeOf(l), b + [r] + [c])
    ensures |b| + 2 == |l.A.shape| && At(Dense(l), b + [r] + [c]) == Elem(l, b, r, c)
  {
    hide At, Elem;
    var n, ix := |l.A.shape|, b + [r] + [c];
    MakeAt(ShapeOf(l), ix => if |ix| == n then Elem(l, Batch(ix), ix[n - 2], ix[n - 1]) else 0.0, ix);
    assert Batch(ix) == b;
  }

  // ----- Indexing both factors

  predicate SpansAgree(a: nat, b: nat, s: Slice, t: Slice)
    requires s.step > 0 && t.step > 0
  {
    && Fits(Len(s, a), Len(t, b))
    && forall m: nat :: m < Len(t, b) ==> Pick(s, a, if Len(s, a) == 1 then 0 else m) == if a == 1 then 0 else Pick(t, b, m)
  }

  /** Indices for one batch dimension of A and of B that select the same. */
  predicate Agree(a: nat, b: nat, x: Index, y: Index)
    requires OkIndex(x, a) && OkIndex(y, b)
  {
    match (x, y)
    case (Single(i), Single(j)) => Norm(i, a) == if a == 1 then 0 else Norm(j, b)
    case (Span(s), Span(t)) => SpansAgree(a, b, s, t)
    case _ => false
  }

  predicate AllAgree(a: Shape, b: Shape, xs: seq<Index>, ys: seq<Index>)
    requires OkIndices(a, xs) && OkIndices(b, ys)
  {
    |a| == |b| && forall i :: 0 <= i < |a| ==> Agree(a[i], b[i], xs[i], ys[i])
  }

  predicate AllFit(a: Shape, b: Shape) {
    |a| == |b| && forall i :: 0 <= i < |a| ==> Fits(a[i], b[i])
  }

  lemma ProjectSnoc(a: Shape, ix: Ix, n: nat, j: nat)
    requires |a| == |ix|
    ensures Project(a + [n], ix + [j]) == Project(a, ix) + [if n == 1 then 0 else j]
  {
  }

  lemma AgreeFront(a: Shape, b: Shape, xs: seq<Index>, ys: seq<Index>)
    requires OkIndices(a, xs) && OkIndices(b, ys) && AllAgree(a, b, xs, ys) && a != []
    ensures OkIndices(Front(a), Front(xs)) && OkIndices(Front(b), Front(ys)) && OkIndex(Last(xs), Last(a)) && OkIndex(Last(ys), Last(b))
    ensures AllAgree(Front(a), Front(b), Front(xs), Front(ys)) && Agree(Last(a), Last(b), Last(xs), Last(ys))
  {
    hide Agree, OkIndex;
    OkFront(a, xs);
    OkFront(b, ys);
    forall i | 0 <= i < |a| - 1
      ensures Agree(Front(a)[i], Front(b)[i], Front(xs)[i], Front(ys)[i])
    {
      assert Agree(a[i], b[i], xs[i], ys[i]);
    }
  }

  /** Agreeing indices keep the extents compatible. */
  lemma {:induction false} BatchFits(a: Shape, b: Shape, xs: seq<Index>, ys: seq<Index>)
    requires OkIndices(a, xs) && OkIndices(b, ys) && AllAgree(a, b, xs, ys)
    ensures AllFit(OutShape(a, xs), OutShape(b, ys))
  {
    hide AllAgree, OkIndices;
    AgreeLength(a, b, xs, ys);
    if a != [] {
      AgreeFront(a, b, xs, ys);
      BatchFits(Front(a), Front(b), Front(xs), Front(ys));
    }
  }

  lemma AgreeLength(a: Shape, b: Shape, xs: seq<Index>, ys: seq<Index>)
    requires OkIndices(a, xs) && OkIndices(b, ys) && AllAgree(a, b, xs, ys)
    ensures |a| == |b| == |xs| == |ys|
  {
  }

  /** Broadcasting commutes with the indices. */
  predicate Commutes(a: Shape, b: Shape, xs: seq<Index>, ys: seq<Index>, j: Ix)
    requires OkIndices(a, xs) && OkIndices(b, ys)
  {
    var s, t := OutShape(a, xs), OutShape(b, ys);
    && |s| == |t| == |j| && |a| == |b|
    && InRange(s, Project(s, j))
    && Source(a, xs, Project(s, j)) == Project(a, Source(b, ys, j))
  }

  lemma CommutesSingle(a: Shape, b: Shape, xs: seq<Index>, ys: seq<Index>, j: Ix, m: nat, n: nat, x: int, y: int)
    requires OkIndices(a, xs) && OkIndices(b, ys) && Commutes(a, b, xs, ys, j)
    requires OkSingle(x, m) && OkSingle(y, n) && Agree(m, n, Single(x), Single(y))
    ensures OkIndices(a + [m], xs + [Single(x)]) && OkIndices(b + [n], ys + [Single(y)])
    ensures Commutes(a + [m], b + [n], xs + [Single(x)], ys + [Single(y)], j)
  {
    hide InRange, Project, OkIndices;
    OutSnoc(a, xs, m, Single(x));
    OutSnoc(b, ys, n, Single(y));
    FrontLast(a, m);
    FrontLast(b, n);
    FrontLast(xs, Single(x));
    FrontLast(ys, Single(y));
    ProjectSnoc(a, Source(b, ys, j), m, Norm(y, n));
  }

  lemma CommutesSpan(a: Shape, b: Shape, xs: seq<Index>, ys: seq<Index>, j: Ix, m: nat, n: nat, x: Slice, y: Slice, q: nat)
    requires OkIndices(a, xs) && OkIndices(b, ys) && Commutes(a, b, xs, ys, j)
    requires x.step > 0 && y.step > 0 && Agree(m, n, Span(x), Span(y)) && q < Len(y, n)
    ensures OkIndices(a + [m], xs + [Span(x)]) && OkIndices(b + [n], ys + [Span(y)])
    ensures Commutes(a + [m], b + [n], xs + [Span(x)], ys + [Span(y)], j + [q])
  {
    hide InRange, Project, OkIndices, Len, Pick;
    var s, t := OutShape(a, xs), OutShape(b, ys);
    var p := if Len(x, m) == 1 then 0 else q;
    SourceSnoc(a, xs, m, x, Project(s, j), p);
    SourceSnoc(b, ys, n, y, j, q);
    ProjectSnoc(s, j, Len(x, m), q);
    ProjectSnoc(a, Source(b, ys, j), m, Pick(y, n, q));
    assert p < Len(x, m);
    InRangeSnoc(s, Len(x, m), Project(s, j), p);
  }

  lemma Rejoin<T>(s: seq<T>)
    requires s != []
    ensures Front(s) + [Last(s)] == s
  {
  }

  lemma NothingToIndex()
    ensures OkIndices([], []) && Commutes([], [], [], [], [])
  {
  }

  lemma {:induction false} BatchSource(a: Shape, b: Shape, xs: seq<Index>, ys: seq<Index>, j: Ix)
    requires OkIndices(a, xs) && OkIndices(b, ys) && AllAgree(a, b, xs, ys) && InRange(OutShape(b, ys), j)
    ensures Commutes(a, b, xs, ys, j)
  {
    hide AllAgree, OkIndices, InRange, Project, Len, Pick, Norm, Commutes, Source;
    AgreeLength(a, b, xs, ys);
    LengthInRange(OutShape(b, ys), j);
    if a == [] {
      NothingToIndex();
    } else {
      AgreeFront(a, b, xs, ys);
      Rejoin(a);
      Rejoin(b);
      Rejoin(xs);
      Rejoin(ys);
      match Last(ys) {
        case Single(i) =>
          BatchSource(Front(a), Front(b), Front(xs), Front(ys), j);
          CommutesSingle(Front(a), Front(b), Front(xs), Front(ys), j, Last(a), Last(b), Last(xs).i, i);
        case Span(t) =>
          OutSnoc(Front(b), Front(ys), Last(b), Last(ys));
          Rejoin(j);
          InRangeSnoc(OutShape(Front(b), Front(ys)), Len(t, Last(b)), Front(j), Last(j));
          BatchSource(Front(a), Front(b), Front(xs), Front(ys), Front(j));
          CommutesSpan(Front(a), Front(b), Front(xs), Front(ys), Front(j), Last(a), Last(b), Last(xs).s, t, Last(j));
      }
    }
  }

  /** Two more dimensions, both sliced. */
  lemma TwoMore(s: Shape, xs: seq<Index>, m: nat, n: nat, x: Slice, y: Slice)
    requires OkIndices(s, xs) && x.step > 0 && y.step > 0
    ensures OkIndices(s + [m] + [n], xs + [Span(x)] + [Span(y)])
    ensures OutShape(s + [m] + [n], xs + [Span(x)] + [Span(y)]) == OutShape(s, xs) + [Len(x, m)] + [Len(y, n)]
  {
    hide Len, OkIndices, OutShape;
    OutSnoc(s, xs, m, Span(x));
    OutSnoc(s + [m], xs + [Span(x)], n, Span(y));
  }

  lemma TwoMoreAt(t: Tensor, s: Shape, xs: seq<Index>, m: nat, n: nat, x: Slice, y: Slice, j: Ix, p: nat, q: nat)
    requires t.shape == s + [m] + [n] && OkIndices(s, xs) && x.step > 0 && y.step > 0
    requires InRange(OutShape(s, xs), j) && p < Len(x, m) && q < Len(y, n)
    ensures var g := Get(t, xs + [Span(x)] + [Span(y)]);
            g.Some? && At(g.value, j + [p] + [q]) == At(t, Source(s, xs, j) + [Pick(x, m, p)] + [Pick(y, n, q)])
    ensures InRange(t.shape, Source(s, xs, j) + [Pick(x, m, p)] + [Pick(y, n, q)])
  {
    hide Len, Pick, OkIndices, OutShape, InRange, At, Get, Source;
    TwoMore(s, xs, m, n, x, y);
    LengthInRange(OutShape(s, xs), j);
    OutSnoc(s, xs, m, Span(x));
    SourceSnoc(s, xs, m, x, j, p);
    SourceSnoc(s + [m], xs + [Span(x)], n, y, j + [p], q);
    InRangeSnoc(OutShape(s, xs), Len(x, m), j, p);
    InRangeSnoc(OutShape(s, xs) + [Len(x, m)], Len(y, n), j + [p], q);
    GetAt(t, xs + [Span(x)] + [Span(y)], j + [p] + [q]);
    SourceInRange(t.shape, xs + [Span(x)] + [Span(y)], j + [p] + [q]);
  }

  function BothIndexed(l: Factored, xa: seq<Index>, xb: seq<Index>, r: Slice, c: Slice): Option<Factored> {
    var a, b := Get(l.A, xa + [Span(ALL)] + [Span(c)]), Get(l.B, xb + [Span(r)] + [Span(ALL)]);
    if a.None? || b.None? then None else New(a.value, b.value)
  }

  predicate CanIndex(l: Factored, xa: seq<Index>, xb: seq<Index>, r: Slice, c: Slice) {
    && WellFormed(l) && r.step > 0 && c.step > 0
    && OkIndices(Batch(l.A.shape), xa) && OkIndices(Batch(l.B.shape), xb)
  }

  lemma GetShape(t: Tensor, xs: seq<Index>)
    requires OkIndices(t.shape, xs)
    ensures Get(t, xs).Some? && Get(t, xs).value.shape == OutShape(t.shape, xs) && Get(t, xs).value.Valid()
  {
  }

  lemma IndexedShapes(l: Factored, xa: seq<Index>, xb: seq<Index>, r: Slice, c: Slice)
    requires CanIndex(l, xa, xb, r, c)
    ensures var m := BothIndexed(l, xa, xb, r, c);
            && m.Some? == (|OutShape(Batch(l.A.shape), xa)| == |OutShape(Batch(l.B.shape), xb)|)
            && (m.Some? ==>
                  && m.value.A.Valid() && m.value.B.Valid()
                  && m.value.A.shape == OutShape(Batch(l.A.shape), xa) + [Rank(l)] + [Len(c, Cols(l))]
                  && m.value.B.shape == OutShape(Batch(l.B.shape), xb) + [Len(r, Rows(l))] + [Rank(l)])
  {
    hide Len, OkIndices, OutShape, Get;
    Shapes(l);
    TakeAll(Rank(l), 0);
    TwoMore(Batch(l.A.shape), xa, Rank(l), Cols(l), ALL, c);
    TwoMore(Batch(l.B.shape), xb, Rows(l), Rank(l), r, ALL);
    GetShape(l.A, xa + [Span(ALL)] + [Span(c)]);
    GetShape(l.B, xb + [Span(r)] + [Span(ALL)]);
  }

  lemma BatchOf(s: Shape, m: nat, n: nat)
    ensures Batch(s + [m] + [n]) == s
  {
  }

  /** The indexed pair is one product exactly if its batch extents fit. */
  lemma IndexedFits(l: Factored, xa: seq<Index>, xb: seq<Index>, r: Slice, c: Slice)
    requires CanIndex(l, xa, xb, r, c) && BothIndexed(l, xa, xb, r, c).Some?
    ensures WellFormed(BothIndexed(l, xa, xb, r, c).value) <==> AllFit(OutShape(Batch(l.A.shape), xa), OutShape(Batch(l.B.shape), xb))
  {
    hide Len, OkIndices, OutShape, BothIndexed, Fits;
    IndexedShapes(l, xa, xb, r, c);
    var m := BothIndexed(l, xa, xb, r, c).value;
    var s, t := OutShape(Batch(l.A.shape), xa), OutShape(Batch(l.B.shape), xb);
    assert forall i :: 0 <= i < |s| ==> m.A.shape[i] == s[i];
    assert forall i :: 0 <= i < |t| ==> m.B.shape[i] == t[i];
  }

  lemma AppendTwo(s: Ix, a: nat, b: nat)
    ensures s + [a] + [b] == s + [a, b]
  {
  }

  /** One term of the product. */
  lemma TermIndexed(l: Factored, xa: seq<Index>, xb: seq<Index>, r: Slice, c: Slice, j: Ix, p: nat, q: nat, k: nat)
    requires CanIndex(l, xa, xb, r, c) && AllAgree(Batch(l.A.shape), Batch(l.B.shape), xa, xb)
    requires InRange(OutShape(Batch(l.B.shape), xb), j) && p < Len(r, Rows(l)) && q < Len(c, Cols(l)) && k < Rank(l)
    requires BothIndexed(l, xa, xb, r, c).Some? && |OutShape(Batch(l.A.shape), xa)| == |j|
    ensures var m := BothIndexed(l, xa, xb, r, c).value;
            var b := Source(Batch(l.B.shape), xb, j);
            && |b| == |Batch(l.A.shape)|
            && At(m.B, j + [p, k]) == At(l.B, b + [Pick(r, Rows(l), p), k])
            && At(m.A, Project(OutShape(Batch(l.A.shape), xa), j) + [k, q])
               == At(l.A, Project(Batch(l.A.shape), b) + [k, Pick(c, Cols(l), q)])
  {
    hide Len, Pick, OkIndices, OutShape, InRange, At, Get, Source, Project, AllAgree;
    Shapes(l);
    TakeAll(Rank(l), k);
    BatchSource(Batch(l.A.shape), Batch(l.B.shape), xa, xb, j);
    var i := Project(OutShape(Batch(l.A.shape), xa), j);
    TwoMoreAt(l.B, Batch(l.B.shape), xb, Rows(l), Rank(l), r, ALL, j, p, k);
    TwoMoreAt(l.A, Batch(l.A.shape), xa, Rank(l), Cols(l), ALL, c, i, k, q);
    var b := Source(Batch(l.B.shape), xb, j);
    AppendTwo(j, p, k);
    AppendTwo(i, k, q);
    AppendTwo(b, Pick(r, Rows(l), p), k);
    AppendTwo(Project(Batch(l.A.shape), b), k, Pick(c, Cols(l), q));
  }

  lemma ElemIndexed(l: Factored, xa: seq<Index>, xb: seq<Index>, r: Slice, c: Slice, j: Ix, p: nat, q: nat)
    requires CanIndex(l, xa, xb, r, c) && AllAgree(Batch(l.A.shape), Batch(l.B.shape), xa, xb)
    requires InRange(OutShape(Batch(l.B.shape), xb), j) && p < Len(r, Rows(l)) && q < Len(c, Cols(l))
    requires BothIndexed(l, xa, xb, r, c).Some? && |OutShape(Batch(l.A.shape), xa)| == |j|
    ensures var m := BothIndexed(l, xa, xb, r, c).value;
            && |m.A.shape| == |m.B.shape| == |j| + 2
            && |Source(Batch(l.B.shape), xb, j)| + 2 == |l.A.shape|
            && Elem(m, j, p, q) == Elem(l, Source(Batch(l.B.shape), xb, j), Pick(r, Rows(l), p), Pick(c, Cols(l), q))
  {
    hide Len, Pick, OkIndices, OutShape, InRange, At, Get, Source, Project, AllAgree, BothIndexed;
    IndexedShapes(l, xa, xb, r, c);
    LengthInRange(OutShape(Batch(l.B.shape), xb), j);
    var m := BothIndexed(l, xa, xb, r, c).value;
    var b := Source(Batch(l.B.shape), xb, j);
    BatchOf(OutShape(Batch(l.A.shape), xa), Rank(l), Len(c, Cols(l)));
    var f := (k: nat) => At(m.B, j + [p, k]) * At(m.A, Project(Batch(m.A.shape), j) + [k, q]);
    var g := (k: nat) => At(l.B, b + [Pick(r, Rows(l), p), k]) * At(l.A, Project(Batch(l.A.shape), b) + [k, Pick(c, Cols(l), q)]);
    forall k: nat | k < Rank(l)
      ensures f(k) == g(k)
    {
      TermIndexed(l, xa, xb, r, c, j, p, q, k);
    }
    SumEqual(Rank(l), f, g);
    assert Elem(m, j, p, q) == SumTo(Rank(l), f);
    assert Elem(l, b, Pick(r, Rows(l), p), Pick(c, Cols(l), q)) == SumTo(Rank(l), g);
  }

  lemma DenseShape(l: Factored)
    requires WellFormed(l)
    ensures Dense(l).Valid() && Dense(l).shape == ShapeOf(l)
  {
  }

  lemma SplitTwo(s: Shape, m: nat, n: nat, ix: Ix) returns (j: Ix, p: nat, q: nat)
    requires InRange(s + [m] + [n], ix)
    ensures ix == j + [p] + [q] && InRange(s, j) && p < m && q < n
  {
    q, p, j := Last(ix), Last(Front(ix)), Front(Front(ix));
    assert ix == j + [p] + [q];
    InRangeSnoc(s + [m], n, j + [p], q);
    InRangeSnoc(s, m, j, p);
  }

  /** The heart of all indexing: if the batch indices of the two factors agree, indexing the factors is indexing
      the product. */
  lemma IndexBoth(l: Factored, xa: seq<Index>, xb: seq<Index>, r: Slice, c: Slice)
    requires CanIndex(l, xa, xb, r, c) && AllAgree(Batch(l.A.shape), Batch(l.B.shape), xa, xb)
    ensures var m := BothIndexed(l, xa, xb, r, c);
            && m.Some? && WellFormed(m.value)
            && Get(Dense(l), xb + [Span(r)] + [Span(c)]) == Some(Dense(m.value))
  {
    hide Len, Pick, OkIndices, OutShape, InRange, At, Get, Source, Elem, Dense, AllAgree, BothIndexed, Fits;
    BatchFits(Batch(l.A.shape), Batch(l.B.shape), xa, xb);
    IndexedShapes(l, xa, xb, r, c);
    IndexedFits(l, xa, xb, r, c);
    var m := BothIndexed(l, xa, xb, r, c).value;
    Shapes(l);
    DenseShape(l);
    DenseShape(m);
    var xs := xb + [Span(r)] + [Span(c)];
    TwoMore(Batch(l.B.shape), xb, Rows(l), Cols(l), r, c);
    GetShape(Dense(l), xs);
    var t, u := Get(Dense(l), xs).value, Dense(m);
    assert u.shape == OutShape(Batch(l.B.shape), xb) + [Len(r, Rows(l))] + [Len(c, Cols(l))];
    forall ix | InRange(u.shape, ix)
      ensures At(t, ix) == At(u, ix)
    {
      var j, p, q := SplitTwo(OutShape(Batch(l.B.shape), xb), Len(r, Rows(l)), Len(c, Cols(l)), ix);
      ElemAgrees(l, xa, xb, r, c, j, p, q);
    }
    Extensional(t, u);
  }

  lemma ElemAgrees(l: Factored, xa: seq<Index>, xb: seq<Index>, r: Slice, c: Slice, j: Ix, p: nat, q: nat)
    requires CanIndex(l, xa, xb, r, c) && AllAgree(Batch(l.A.shape), Batch(l.B.shape), xa, xb)
    requires BothIndexed(l, xa, xb, r, c).Some? && WellFormed(BothIndexed(l, xa, xb, r, c).value)
    requires InRange(OutShape(Batch(l.B.shape), xb), j) && p < Len(r, Rows(l)) && q < Len(c, Cols(l))
    ensures var g := Get(Dense(l), xb + [Span(r)] + [Span(c)]);
            g.Some? && At(g.value, j + [p] + [q]) == At(Dense(BothIndexed(l, xa, xb, r, c).value), j + [p] + [q])
  {
    hide Len, Pick, OkIndices, OutShape, InRange, At, Get, Source, Elem, Dense, AllAgree, BothIndexed, Fits;
    BatchFits(Batch(l.A.shape), Batch(l.B.shape), xa, xb);
    LengthInRange(OutShape(Batch(l.B.shape), xb), j);
    IndexedShapes(l, xa, xb, r, c);
    var m := BothIndexed(l, xa, xb, r, c).value;
    Shapes(l);
    DenseShape(l);
    var s := OutShape(Batch(l.B.shape), xb);
    TwoMoreAt(Dense(l), Batch(l.B.shape), xb, Rows(l), Cols(l), r, c, j, p, q);
    DenseAt(l, Source(Batch(l.B.shape), xb, j), Pick(r, Rows(l), p), Pick(c, Cols(l), q));
    ElemIndexed(l, xa, xb, r, c, j, p, q);
    InRangeSnoc(s, Len(r, Rows(l)), j, p);
    InRangeSnoc(s + [Len(r, Rows(l))], Len(c, Cols(l)), j + [p], q);
    assert ShapeOf(m) == s + [Len(r, Rows(l))] + [Len(c, Cols(l))];
    DenseAt(m, j, p, q);
  }
}
