/** reshape, permute and transpose of LoraTorchTensor. */
module LoraShape {
  import opened Text
  import opened Tensors
  import opened Lora
  import opened LoraIndex

  // ----- Shapes given as integers, with -1 for "whatever is left"

  function ProdInt(dims: seq<int>): int {
    if dims == [] then 1 else ProdInt(Front(dims)) * Last(dims)
  }

  /** `dims` with every -1 replaced. */
  function With(dims: seq<int>, q: int): (r: seq<int>)
    ensures |r| == |dims|
  {
    seq(|dims|, i requires 0 <= i < |dims| => if dims[i] == -1 then q else dims[i])
  }

  predicate Whole(dims: seq<int>) {
    forall i :: 0 <= i < |dims| ==> dims[i] >= 0
  }

  function AsShape(dims: seq<int>): (s: Shape)
    requires Whole(dims)
    ensures |s| == |dims| && s == dims
  {
    seq(|dims|, i requires 0 <= i < |dims| => dims[i] as nat)
  }

  predicate OneGap(dims: seq<int>) {
    forall i, j :: 0 <= i < j < |dims| ==> dims[i] != -1 || dims[j] != -1
  }

  /** The shape that PyTorch's reshape makes of `dims` for a tensor of `count` elements. */
  function Resolve(dims: seq<int>, count: nat): Option<seq<int>> {
    if exists i :: 0 <= i < |dims| && dims[i] < -1 then None
    else if -1 !in dims then if ProdInt(dims) == count then Some(dims) else None
    else if !OneGap(dims) then None
    else
      var p := ProdInt(With(dims, 1));
      if p > 0 && count % p == 0 then Some(With(dims, count / p)) else None
  }

  function ReshapeDense(t: Tensor, dims: seq<int>): Option<Tensor> {
    match Resolve(dims, Prod(t.shape))
    case None => None
    case Some(s) => if Whole(s) then Some(Tensor(AsShape(s), t.data)) else None
  }

  lemma ProdIntIs(s: Shape)
    ensures ProdInt(s) == Prod(s)
  {
    if s != [] {
      ProdIntIs(Front(s));
    }
  }

  function Ones(n: nat): (r: Shape)
    ensures |r| == n
  {
    seq(n, i requires 0 <= i < n => 1)
  }

  /** The shape with its -1 worked out by the code itself. */
  function Expanded(dims: seq<int>, count: nat): Option<seq<int>> {
    if -1 !in dims then Some(dims)
    else
      var p := ProdInt(With(dims, 1));
      if p == 0 || count % p != 0 then None else Some(With(dims, count / p))
  }

  function Reshape(l: Factored, dims: seq<int>): Option<Factored>
    requires Built(l)
  {
    var shape := ShapeOf(l);
    if |dims| < 2 then None
    else
      match Expanded(dims, Prod(shape))
      case None => None
      case Some(new_) =>
        if Last(new_) != Last(shape) then None
        else Both(ReshapeDense(l.A, Ones(|new_| - 2) + [Rank(l)] + [Last(shape)]), ReshapeDense(l.B, Front(new_) + [Rank(l)]))
  }

  // ----- Same data under another shape

  lemma FlatSnoc(s: Shape, n: nat, ix: Ix, k: nat)
    requires |s| == |ix|
    ensures Flat(s + [n], ix + [k]) == Flat(s, ix) * n + k
  {
    FrontLast(s, n);
    FrontLast(ix, k);
  }

  lemma ProdSnoc(s: Shape, n: nat)
    ensures Prod(s + [n]) == Prod(s) * n
  {
    FrontLast(s, n);
  }

  /** Regrouping the leading dimensions moves an element to the place with the same address. */
  lemma Regroup(t: Tensor, u: Tensor, s: Shape, s': Shape, n: nat, x: Ix, y: Ix, k: nat)
    requires t.shape == s + [n] && u == Tensor(s' + [n], t.data) && t.Valid() && u.Valid()
    requires InRange(s, x) && InRange(s', y) && Flat(s, x) == Flat(s', y) && k < n
    ensures At(u, y + [k]) == At(t, x + [k])
  {
    hide At, Flat, InRange;
    InRangeSnoc(s, n, x, k);
    InRangeSnoc(s', n, y, k);
    LengthInRange(s, x);
    LengthInRange(s', y);
    FlatSnoc(s, n, x, k);
    FlatSnoc(s', n, y, k);
    AtFlat(t, x + [k]);
    AtFlat(u, y + [k]);
  }

  predicate AllOne(s: Shape) {
    forall i :: 0 <= i < |s| ==> s[i] == 1
  }

  function Zeros(n: nat): (r: Ix)
    ensures |r| == n
  {
    seq(n, i requires 0 <= i < n => 0)
  }

  lemma {:induction false} OnesFlat(s: Shape)
    requires AllOne(s)
    ensures InRange(s, Zeros(|s|)) && Flat(s, Zeros(|s|)) == 0 && Prod(s) == 1
  {
    if s != [] {
      OnesFlat(Front(s));
      assert Front(Zeros(|s|)) == Zeros(|s| - 1);
    }
  }

  lemma ProjectOnes(s: Shape, ix: Ix)
    requires AllOne(s) && |s| == |ix|
    ensures Project(s, ix) == Zeros(|s|)
  {
  }

  lemma ProdOne(s: Shape)
    requires Prod(s) == 1
    ensures AllOne(s)
  {
    if s != [] {
      FactorsOfOne(Prod(Front(s)), Last(s));
      ProdOne(Front(s));
      forall i | 0 <= i < |s|
        ensures s[i] == 1
      {
        if i < |s| - 1 {
          assert s[i] == Front(s)[i];
        }
      }
    }
  }

  lemma FactorsOfOne(a: nat, b: nat)
    requires a * b == 1
    ensures a == 1 && b == 1
  {
    if a > 1 && b >= 1 {
      MulMono(2, a, b);
    }
  }

  // ----- reshape

  lemma ProdIntWhole(dims: seq<int>)
    requires Whole(dims)
    ensures ProdInt(dims) >= 0
  {
    assert dims == AsShape(dims);
    ProdIntIs(AsShape(dims));
  }

  lemma QuotientWhole(dims: seq<int>, count: nat)
    requires (forall i :: 0 <= i < |dims| ==> dims[i] >= -1) && ProdInt(With(dims, 1)) != 0
    ensures ProdInt(With(dims, 1)) > 0 && Whole(With(dims, count / ProdInt(With(dims, 1))))
  {
    ProdIntWhole(With(dims, 1));
  }

  lemma NegativeRefused(t: Tensor, dims: seq<int>, i: nat)
    requires i < |dims| && dims[i] < -1
    ensures ReshapeDense(t, dims).None?
  {
  }

  lemma WholeReshape(t: Tensor, dims: seq<int>)
    requires Whole(dims)
    ensures ReshapeDense(t, dims) == if Prod(AsShape(dims)) == Prod(t.shape) then Some(Tensor(AsShape(dims), t.data)) else None
  {
    assert dims == AsShape(dims);
    ProdIntIs(AsShape(dims));
    assert -1 !in dims;
  }

  /** What the code makes of `dims` has no negative entry, or PyTorch refuses it. */
  lemma NewIsWhole(t: Tensor, dims: seq<int>, count: nat, r: nat)
    requires dims != [] && Expanded(dims, count).Some? && Last(Expanded(dims, count).value) >= 0
    requires ReshapeDense(t, Front(Expanded(dims, count).value) + [r]).Some?
    ensures Whole(Expanded(dims, count).value)
  {
    hide ReshapeDense, ProdInt;
    var new_ := Expanded(dims, count).value;
    var n := |dims|;
    forall i | 0 <= i < n
      ensures dims[i] >= -1
    {
      if dims[i] < -1 {
        assert new_[i] == dims[i];
        NegativeRefused(t, Front(new_) + [r], i);
      }
    }
    if -1 in dims {
      QuotientWhole(dims, count);
    }
  }

  lemma CancelRight(a: nat, b: nat, n: nat)
    requires n > 0 && a * n == b * n
    ensures a == b
  {
    MulMono(a + 1, b, n);
    MulMono(b + 1, a, n);
  }

  lemma FrontShape(l: Factored)
    requires WellFormed(l)
    ensures l.B.shape == Front(l.B.shape) + [Rank(l)] && ShapeOf(l) == Front(l.B.shape) + [Cols(l)]
    ensures l.A.shape == (Batch(l.A.shape) + [Rank(l)]) + [Cols(l)]
    ensures Prod(l.B.shape) == Prod(Front(l.B.shape)) * Rank(l)
    ensures Prod(l.A.shape) == Prod(Batch(l.A.shape)) * Rank(l) * Cols(l)
  {
    hide Prod;
    Rejoin(l.B.shape);
    Shapes(l);
    ProdSnoc(Front(l.B.shape), Rank(l));
    ProdSnoc(Batch(l.A.shape), Rank(l));
    ProdSnoc(Batch(l.A.shape) + [Rank(l)], Cols(l));
  }

  /** The reshaped pair: the same data, A without batch, B with the new leading dimensions. */
  function Reshaped(l: Factored, s: Shape): Factored
    requires WellFormed(l) && s != []
  {
    Factored(Tensor(Ones(|s| - 1) + [Rank(l)] + [Cols(l)], l.A.data), Tensor(s + [Rank(l)], l.B.data))
  }

  lemma OnesAreOne(n: nat)
    ensures AllOne(Ones(n))
  {
  }

  /** What an accepted reshape returns. */
  lemma ReshapeIs(l: Factored, dims: seq<int>) returns (s: Shape)
    requires WellFormed(l) && Built(l) && Reshape(l, dims).Some?
    ensures |dims| >= 2 && s != [] && Expanded(dims, Prod(ShapeOf(l))) == Some(s + [Cols(l)])
    ensures Reshape(l, dims) == Some(Reshaped(l, s))
    ensures Prod(s) == Prod(Front(l.B.shape)) && (Cols(l) > 0 ==> AllOne(Batch(l.A.shape)))
    ensures Rank(l) * Cols(l) == Prod(l.A.shape)
  {
    hide ReshapeDense, Prod, Expanded, AllOne, Ones;
    var shape := ShapeOf(l);
    var new_ := Expanded(dims, Prod(shape)).value;
    NewIsWhole(l.B, dims, Prod(shape), Rank(l));
    s := AsShape(Front(new_));
    Rejoin(new_);
    var k := |new_| - 2;
    assert Whole(Front(new_) + [Rank(l)]);
    WholeReshape(l.B, Front(new_) + [Rank(l)]);
    var sa := Ones(k) + [Rank(l)] + [Cols(l)];
    WholeReshape(l.A, sa);
    assert AsShape(sa) == sa;
    FrontShape(l);
    ProdSnoc(s, Rank(l));
    CancelRight(Prod(s), Prod(Front(l.B.shape)), Rank(l));
    OnesAreOne(k);
    OnesFlat(Ones(k));
    ProdSnoc(Ones(k), Rank(l));
    ProdSnoc(Ones(k) + [Rank(l)], Cols(l));
    if Cols(l) > 0 {
      CancelRight(Prod(Batch(l.A.shape)) * Rank(l), Rank(l), Cols(l));
      CancelRight(Prod(Batch(l.A.shape)), 1, Rank(l));
      ProdOne(Batch(l.A.shape));
    }
  }

  lemma ReshapedFits(l: Factored, s: Shape)
    requires WellFormed(l) && s != [] && Prod(s) == Prod(Front(l.B.shape)) && Rank(l) * Cols(l) == Prod(l.A.shape)
    ensures WellFormed(Reshaped(l, s)) && ShapeOf(Reshaped(l, s)) == s + [Cols(l)]
    ensures Prod(ShapeOf(l)) == Prod(s + [Cols(l)])
  {
    hide Prod;
    FrontShape(l);
    var k := |s| - 1;
    OnesAreOne(k);
    OnesFlat(Ones(k));
    ProdSnoc(Ones(k), Rank(l));
    ProdSnoc(Ones(k) + [Rank(l)], Cols(l));
    ProdSnoc(s, Rank(l));
    ProdSnoc(s, Cols(l));
    ProdSnoc(Front(l.B.shape), Cols(l));
  }

  /** An element of A, whose batch extents are all one. */
  lemma SameInA(l: Factored, s: Shape, k: nat, q: nat)
    requires WellFormed(l) && s != [] && Prod(s) == Prod(Front(l.B.shape)) && Rank(l) * Cols(l) == Prod(l.A.shape)
    requires AllOne(Batch(l.A.shape)) && k < Rank(l) && q < Cols(l)
    ensures At(Reshaped(l, s).A, Zeros(|s| - 1) + [k] + [q]) == At(l.A, Zeros(|l.A.shape| - 2) + [k] + [q])
  {
    hide Prod, At, Flat, InRange, Zeros, Ones;
    var a, b := Batch(l.A.shape), Ones(|s| - 1);
    ReshapedFits(l, s);
    FrontShape(l);
    OnesAreOne(|s| - 1);
    OnesFlat(a);
    OnesFlat(b);
    InRangeSnoc(a, Rank(l), Zeros(|a|), k);
    InRangeSnoc(b, Rank(l), Zeros(|b|), k);
    FlatSnoc(a, Rank(l), Zeros(|a|), k);
    FlatSnoc(b, Rank(l), Zeros(|b|), k);
    Regroup(l.A, Reshaped(l, s).A, a + [Rank(l)], b + [Rank(l)], Cols(l), Zeros(|a|) + [k], Zeros(|b|) + [k], q);
  }

  lemma SameInB(l: Factored, s: Shape, x: Ix, y: Ix, k: nat)
    requires WellFormed(l) && s != [] && Prod(s) == Prod(Front(l.B.shape)) && Rank(l) * Cols(l) == Prod(l.A.shape)
    requires InRange(Front(l.B.shape), x) && InRange(s, y) && Flat(Front(l.B.shape), x) == Flat(s, y) && k < Rank(l)
    ensures At(Reshaped(l, s).B, y + [k]) == At(l.B, x + [k])
  {
    hide Prod, At, Flat, InRange;
    ReshapedFits(l, s);
    FrontShape(l);
    Regroup(l.B, Reshaped(l, s).B, Front(l.B.shape), s, Rank(l), x, y, k);
  }

  /** An element of the product by its leading index. */
  lemma DenseRow(l: Factored, x: Ix, q: nat)
    requires WellFormed(l) && InRange(Front(l.B.shape), x) && q < Cols(l)
    ensures x != [] && |x| == |l.A.shape| - 1 && InRange(ShapeOf(l), x + [q])
    ensures At(Dense(l), x + [q]) == Elem(l, Front(x), Last(x), q)
  {
    hide At, Elem, Dense, InRange;
    LengthInRange(Front(l.B.shape), x);
    FrontShape(l);
    InRangeSnoc(Front(l.B.shape), Cols(l), x, q);
    Rejoin(x);
    DenseAt(l, Front(x), Last(x), q);
  }

  lemma ElemRow(l: Factored, x: Ix, q: nat, f: nat -> real)
    requires WellFormed(l) && |x| == |l.A.shape| - 1 && AllOne(Batch(l.A.shape))
    requires forall k: nat :: k < Rank(l) ==> f(k) == At(l.B, x + [k]) * At(l.A, Zeros(|l.A.shape| - 2) + [k] + [q])
    ensures Elem(l, Front(x), Last(x), q) == SumTo(Rank(l), f)
  {
    hide At, Zeros, Project, AllOne;
    var b, r := Front(x), Last(x);
    ProjectOnes(Batch(l.A.shape), b);
    var g := (k: nat) => At(l.B, b + [r, k]) * At(l.A, Project(Batch(l.A.shape), b) + [k, q]);
    forall k: nat | k < Rank(l)
      ensures f(k) == g(k)
    {
      Rejoin(x);
      AppendTwo(b, r, k);
      AppendTwo(Zeros(|l.A.shape| - 2), k, q);
    }
    SumEqual(Rank(l), f, g);
    assert Elem(l, b, r, q) == SumTo(Rank(l), g);
  }

  function Term(l: Factored, x: Ix, k: nat, q: nat): real
    requires |l.A.shape| >= 2
  {
    At(l.B, x + [k]) * At(l.A, Zeros(|l.A.shape| - 2) + [k] + [q])
  }

  /** Two elements of two products are equal when their terms are. */
  lemma RowsAgree(l: Factored, x: Ix, p: nat, m: Factored, y: Ix, q: nat)
    requires WellFormed(l) && InRange(Front(l.B.shape), x) && p < Cols(l) && AllOne(Batch(l.A.shape))
    requires WellFormed(m) && InRange(Front(m.B.shape), y) && q < Cols(m) && AllOne(Batch(m.A.shape))
    requires Rank(l) == Rank(m) && forall k: nat :: k < Rank(l) ==> Term(l, x, k, p) == Term(m, y, k, q)
    ensures InRange(ShapeOf(l), x + [p]) && InRange(ShapeOf(m), y + [q])
    ensures At(Dense(l), x + [p]) == At(Dense(m), y + [q])
  {
    hide At, Elem, Dense, InRange, AllOne, Zeros, Fits;
    DenseRow(l, x, p);
    DenseRow(m, y, q);
    var f := (k: nat) => Term(l, x, k, p);
    ElemRow(l, x, p, f);
    ElemRow(m, y, q, f);
  }

  lemma ReshapedAt(l: Factored, s: Shape, y: Ix, q: nat)
    requires WellFormed(l) && s != [] && Prod(s) == Prod(Front(l.B.shape)) && Rank(l) * Cols(l) == Prod(l.A.shape)
    requires AllOne(Batch(l.A.shape)) && InRange(s, y) && q < Cols(l)
    ensures WellFormed(Reshaped(l, s))
    ensures At(Dense(Reshaped(l, s)), y + [q]) == At(Tensor(s + [Cols(l)], Dense(l).data), y + [q])
  {
    hide Prod, At, Flat, InRange, Dense, Elem, Zeros, Unflat, Reshaped, AllOne, Fits;
    var m, f := Reshaped(l, s), Front(l.B.shape);
    ReshapedFits(l, s);
    ReshapedParts(l, s);
    UnflatFlat(s, y);
    FlatUnflat(f, Flat(s, y));
    var x := Unflat(f, Flat(s, y));
    FrontShape(l);
    DenseShape(l);
    forall k: nat | k < Rank(l)
      ensures Term(l, x, k, q) == Term(m, y, k, q)
    {
      SameInB(l, s, x, y, k);
      SameInA(l, s, k, q);
    }
    RowsAgree(l, x, q, m, y, q);
    Regroup(Dense(l), Tensor(s + [Cols(l)], Dense(l).data), f, s, Cols(l), x, y, q);
  }

  lemma ReshapedParts(l: Factored, s: Shape)
    requires WellFormed(l) && s != []
    ensures var m := Reshaped(l, s);
            && |m.A.shape| == |m.B.shape| == |s| + 1 && Front(m.B.shape) == s && Rank(m) == Rank(l) && Cols(m) == Cols(l)
            && AllOne(Batch(m.A.shape))
  {
  }

  /** The new shape, its -1 worked out, keeps the last dimension, and A has no batch (or nothing in it). */
  predicate Reshapable(l: Factored, dims: seq<int>)
    requires |l.A.shape| >= 2 && |l.B.shape| >= 2
  {
    var e := Expanded(dims, Prod(ShapeOf(l)));
    && |dims| >= 2 && e.Some? && Whole(e.value) && Last(e.value) == Cols(l)
    && Prod(AsShape(Front(e.value))) == Prod(Front(ShapeOf(l)))
    && (AllOne(Batch(l.A.shape)) || Cols(l) == 0)
  }

  lemma ReshapeAccepted(l: Factored, dims: seq<int>)
    requires WellFormed(l) && Built(l) && Reshapable(l, dims)
    ensures Reshape(l, dims).Some?
  {
    hide ReshapeDense, Prod, Expanded, AllOne, Ones, Fits;
    ExpandedLength(dims, Prod(ShapeOf(l)));
    var new_ := Expanded(dims, Prod(ShapeOf(l))).value;
    var s, k := AsShape(Front(new_)), |new_| - 2;
    FrontShape(l);
    assert Front(ShapeOf(l)) == Front(l.B.shape) by { FrontLast(Front(l.B.shape), Cols(l)); }
    WholeReshape(l.B, Front(new_) + [Rank(l)]);
    assert AsShape(Front(new_) + [Rank(l)]) == s + [Rank(l)];
    ProdSnoc(s, Rank(l));
    var sa := Ones(k) + [Rank(l)] + [Cols(l)];
    WholeReshape(l.A, sa);
    assert AsShape(sa) == sa;
    OnesAreOne(k);
    OnesFlat(Ones(k));
    ProdSnoc(Ones(k), Rank(l));
    ProdSnoc(Ones(k) + [Rank(l)], Cols(l));
    if AllOne(Batch(l.A.shape)) {
      OnesFlat(Batch(l.A.shape));
    }
  }

  lemma AcceptedIsReshapable(l: Factored, dims: seq<int>, s: Shape)
    requires WellFormed(l) && s != [] && |dims| >= 2 && Expanded(dims, Prod(ShapeOf(l))) == Some(s + [Cols(l)])
    requires Prod(s) == Prod(Front(l.B.shape)) && (Cols(l) > 0 ==> AllOne(Batch(l.A.shape)))
    ensures Reshapable(l, dims)
  {
    hide Prod, Expanded, AllOne, Fits;
    FrontLast(s, Cols(l));
    FrontLast(Front(l.B.shape), Cols(l));
  }

  lemma ExpandedLength(dims: seq<int>, count: nat)
    ensures Expanded(dims, count).Some? ==> |Expanded(dims, count).value| == |dims|
  {
  }

  lemma NoGap(dims: seq<int>, q: int)
    requires -1 !in dims
    ensures With(dims, q) == dims
  {
  }

  lemma WithSplit(dims: seq<int>, q: int)
    requires dims != []
    ensures With(dims, q) != [] && Front(With(dims, q)) == With(Front(dims), q)
    ensures Last(With(dims, q)) == if Last(dims) == -1 then q else Last(dims)
  {
  }

  lemma LoneGap(dims: seq<int>)
    requires OneGap(dims) && dims != []
    ensures OneGap(Front(dims)) && (Last(dims) == -1 ==> -1 !in Front(dims))
    ensures -1 in dims && Last(dims) != -1 ==> -1 in Front(dims)
  {
    if -1 in Front(dims) {
      var i :| 0 <= i < |dims| - 1 && dims[i] == -1;
    }
    if -1 in dims && Last(dims) != -1 {
      var i :| 0 <= i < |dims| && dims[i] == -1;
      assert Front(dims)[i] == -1;
    }
  }

  /** One -1 stands for one factor. */
  lemma {:induction false} GapProduct(dims: seq<int>, q: int)
    requires OneGap(dims) && -1 in dims
    ensures ProdInt(With(dims, q)) == ProdInt(With(dims, 1)) * q
    decreases |dims|
  {
    hide With, OneGap;
    LoneGap(dims);
    WithSplit(dims, q);
    WithSplit(dims, 1);
    if Last(dims) == -1 {
      NoGap(Front(dims), q);
      NoGap(Front(dims), 1);
    } else {
      GapProduct(Front(dims), q);
      MulSwap(ProdInt(With(Front(dims), 1)), q, Last(dims));
    }
  }

  lemma MulSwap(a: int, b: int, c: int)
    ensures a * b * c == a * c * b
  {
  }

  /** What PyTorch makes of a shape with at most one -1 is what the code works out. */
  lemma ResolvedIs(t: Tensor, dims: seq<int>)
    requires OneGap(dims) && ReshapeDense(t, dims).Some?
    ensures var s := ReshapeDense(t, dims).value.shape;
            Expanded(dims, Prod(t.shape)) == Some(s) && Prod(s) == Prod(t.shape)
  {
    hide Prod, ProdInt, OneGap;
    var s := ReshapeDense(t, dims).value.shape;
    ProdIntIs(s);
    if -1 in dims {
      var p, count := ProdInt(With(dims, 1)), Prod(t.shape);
      GapProduct(dims, count / p);
      assert p * (count / p) == count;
    }
  }

  /** Where there are columns and at most one -1, PyTorch's own answer for the product decides. */
  lemma ReshapableIs(l: Factored, dims: seq<int>)
    requires WellFormed(l) && OneGap(dims) && Cols(l) > 0
    ensures Reshapable(l, dims) <==>
            && |dims| >= 2 && AllOne(Batch(l.A.shape))
            && ReshapeDense(Dense(l), dims).Some? && LastIs(ReshapeDense(Dense(l), dims).value.shape, Cols(l))
  {
    hide Prod, Expanded, ReshapeDense, OneGap, Dense, Fits, AllOne;
    DenseShape(l);
    var shape := ShapeOf(l);
    FrontLast(Front(l.B.shape), Cols(l));
    ExpandedLength(dims, Prod(shape));
    if Reshapable(l, dims) {
      var s := AsShape(Expanded(dims, Prod(shape)).value);
      Rejoin(s);
      ProdSnoc(Front(s), Cols(l));
      ProdSnoc(Front(shape), Cols(l));
      DenseResolves(Dense(l), dims, s);
    } else if |dims| >= 2 && ReshapeDense(Dense(l), dims).Some? && LastIs(ReshapeDense(Dense(l), dims).value.shape, Cols(l)) {
      var s := ReshapeDense(Dense(l), dims).value.shape;
      ResolvedIs(Dense(l), dims);
      Rejoin(s);
      Rejoin(shape);
      ProdSnoc(Front(s), Cols(l));
      ProdSnoc(Front(shape), Cols(l));
      CancelRight(Prod(Front(s)), Prod(Front(shape)), Cols(l));
    }
  }

  predicate LastIs(s: Shape, n: nat) {
    s != [] && Last(s) == n
  }

  /** Main result on reshape: it is accepted exactly if the new shape keeps the last dimension and the number of rows and A
      has no batch; and whatever is accepted, including a shape with a -1, keeps the product and only gives it the new shape. */
  lemma ReshapeExact(l: Factored, dims: seq<int>)
    requires WellFormed(l)
    ensures Built(l)
    ensures Reshape(l, dims).Some? <==> Reshapable(l, dims)
    ensures OneGap(dims) && Cols(l) > 0 ==>
              (Reshape(l, dims).Some? <==>
                 && |dims| >= 2 && AllOne(Batch(l.A.shape))
                 && ReshapeDense(Dense(l), dims).Some? && LastIs(ReshapeDense(Dense(l), dims).value.shape, Cols(l)))
    ensures Reshape(l, dims).Some? ==>
              var m := Reshape(l, dims).value;
              && WellFormed(m)
              && Dense(m) == Tensor(ShapeOf(m), Dense(l).data)
              && Expanded(dims, Prod(ShapeOf(l))) == Some(ShapeOf(m))
              && (OneGap(dims) ==> ReshapeDense(Dense(l), dims) == Some(Dense(m)))
  {
    hide Prod, At, Dense, Elem, Reshape, Reshaped, Fits, AllOne, Built, Expanded, ReshapeDense, InRange, OneGap, Reshapable;
    WellFormedIsBuilt(l);
    if Reshapable(l, dims) {
      ReshapeAccepted(l, dims);
    }
    if OneGap(dims) && Cols(l) > 0 {
      ReshapableIs(l, dims);
    }
    if Reshape(l, dims).Some? {
      var s := ReshapeIs(l, dims);
      AcceptedIsReshapable(l, dims, s);
      ReshapedFits(l, s);
      var m, t := Reshaped(l, s), Tensor(s + [Cols(l)], Dense(l).data);
      DenseShape(l);
      DenseShape(m);
      forall ix: Ix | InRange(t.shape, ix)
        ensures At(Dense(m), ix) == At(t, ix)
      {
        LengthInRange(t.shape, ix);
        Rejoin(ix);
        InRangeSnoc(s, Cols(l), Front(ix), Last(ix));
        ReshapedAt(l, s, Front(ix), Last(ix));
      }
      Extensional(Dense(m), t);
      if OneGap(dims) {
        DenseResolves(Dense(l), dims, s + [Cols(l)]);
      }
    }
  }

  lemma DenseResolves(t: Tensor, dims: seq<int>, s: Shape)
    requires Expanded(dims, Prod(t.shape)) == Some(s) && Prod(s) == Prod(t.shape) && OneGap(dims)
    ensures ReshapeDense(t, dims) == Some(Tensor(s, t.data))
  {
    hide Prod, ProdInt;
    ProdIntIs(s);
    assert AsShape(s) == s;
    forall i | 0 <= i < |dims|
      ensures dims[i] >= -1
    {
      assert s[i] >= 0;
    }
    if -1 in dims {
      QuotientWhole(dims, Prod(t.shape));
    }
  }
}
