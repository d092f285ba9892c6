/** torch.stack and torch.cat of LoraTorchTensors along dimension 0. */
module LoraJoin {
  import opened Text
  import opened Tensors
  import opened Lora
  import opened LoraIndex
  import opened LoraShape

  // ----- Dense tensors

  function StackDense(ts: seq<Tensor>): (r: Option<Tensor>)
    ensures r.Some? ==> ts != [] && r.value.Valid() && r.value.shape == [|ts|] + ts[0].shape
    ensures r.Some? <==> ts != [] && forall i :: 0 <= i < |ts| ==> ts[i].shape == ts[0].shape
  {
    if ts == [] || exists i :: 0 <= i < |ts| && ts[i].shape != ts[0].shape then None
    else Some(Make([|ts|] + ts[0].shape, ix => if |ix| > 0 && ix[0] < |ts| then At(ts[ix[0]], ix[1..]) else 0.0))
  }

  lemma ConsInRange(n: nat, s: Shape, i: nat, y: Ix)
    ensures InRange([n] + s, [i] + y) <==> i < n && InRange(s, y)
  {
    var t, z := [n] + s, [i] + y;
    if InRange(t, z) {
      assert z[0] < t[0];
      forall k | 0 <= k < |s|
        ensures y[k] < s[k]
      {
        assert z[k + 1] < t[k + 1];
      }
    }
    if i < n && InRange(s, y) {
      forall k | 0 <= k < |t|
        ensures z[k] < t[k]
      {
        if k > 0 {
          assert y[k - 1] < s[k - 1];
        }
      }
    }
  }

  lemma StackAt(ts: seq<Tensor>, i: nat, y: Ix)
    requires StackDense(ts).Some? && i < |ts| && InRange(ts[0].shape, y)
    ensures At(StackDense(ts).value, [i] + y) == At(ts[i], y)
  {
    hide At;
    ConsInRange(|ts|, ts[0].shape, i, y);
    MakeAt([|ts|] + ts[0].shape, ix => if |ix| > 0 && ix[0] < |ts| then At(ts[ix[0]], ix[1..]) else 0.0, [i] + y);
    assert ([i] + y)[1..] == y;
  }

  function Total(es: seq<nat>): nat {
    if es == [] then 0 else es[0] + Total(es[1..])
  }

  /** The piece that entry `i` of a concatenation comes from, and its place there. */
  function Owner(es: seq<nat>, i: nat): (r: (nat, nat))
    requires i < Total(es)
    ensures r.0 < |es| && r.1 < es[r.0]
  {
    if i < es[0] then (0, i)
    else
      var o := Owner(es[1..], i - es[0]);
      (o.0 + 1, o.1)
  }

  function Extents(ts: seq<Tensor>): (r: seq<nat>)
    ensures |r| == |ts|
  {
    seq(|ts|, i requires 0 <= i < |ts| => if ts[i].shape == [] then 0 else ts[i].shape[0])
  }

  /** The pieces agree in everything but the first dimension. */
  predicate Joinable(ts: seq<Tensor>) {
    && ts != []
    && (forall i :: 0 <= i < |ts| ==> ts[i].shape != [])
    && forall i :: 0 <= i < |ts| ==> ts[i].shape[1..] == ts[0].shape[1..]
  }

  function Joined(ts: seq<Tensor>): (r: Tensor)
    requires Joinable(ts)
    ensures r.Valid() && r.shape == [Total(Extents(ts))] + ts[0].shape[1..]
  {
    var es := Extents(ts);
    Make([Total(es)] + ts[0].shape[1..],
         ix => if |ix| > 0 && ix[0] < Total(es) then At(ts[Owner(es, ix[0]).0], [Owner(es, ix[0]).1] + ix[1..]) else 0.0)
  }

  function CatDense(ts: seq<Tensor>): Option<Tensor> {
    if Joinable(ts) then Some(Joined(ts)) else None
  }

  lemma JoinedAt(ts: seq<Tensor>, i: nat, y: Ix)
    requires Joinable(ts) && i < Total(Extents(ts)) && InRange(ts[0].shape[1..], y)
    ensures var o := Owner(Extents(ts), i); At(Joined(ts), [i] + y) == At(ts[o.0], [o.1] + y)
  {
    hide At, Owner, Total;
    var es, s := Extents(ts), ts[0].shape[1..];
    ConsInRange(Total(es), s, i, y);
    MakeAt([Total(es)] + s,
           ix => if |ix| > 0 && ix[0] < Total(es) then At(ts[Owner(es, ix[0]).0], [Owner(es, ix[0]).1] + ix[1..]) else 0.0, [i] + y);
    assert ([i] + y)[1..] == y;
  }

  // ----- The factored operations

  function As(ls: seq<Factored>): (r: seq<Tensor>)
    ensures |r| == |ls|
  {
    seq(|ls|, i requires 0 <= i < |ls| => ls[i].A)
  }

  function Bs(ls: seq<Factored>): (r: seq<Tensor>)
    ensures |r| == |ls|
  {
    seq(|ls|, i requires 0 <= i < |ls| => ls[i].B)
  }

  predicate AllWellFormed(ls: seq<Factored>) {
    forall i :: 0 <= i < |ls| ==> WellFormed(ls[i])
  }

  function Denses(ls: seq<Factored>): (r: seq<Tensor>)
    requires AllWellFormed(ls)
    ensures |r| == |ls|
  {
    seq(|ls|, i requires 0 <= i < |ls| => Dense(ls[i]))
  }

  function Stack(ls: seq<Factored>): Option<Factored> {
    Both(StackDense(As(ls)), StackDense(Bs(ls)))
  }

  function Cat(ls: seq<Factored>): Option<Factored>
    requires ls != [] ==> Built(ls[0])
  {
    if ls == [] then None
    else if |ShapeOf(ls[0])| > 2 then Both(CatDense(As(ls)), CatDense(Bs(ls)))
    else if forall i :: 1 <= i < |ls| ==> ls[i].A == ls[0].A then Both(Some(ls[0].A), CatDense(Bs(ls)))
    else None
  }

  // ----- Products with a leading dimension

  lemma ProjectCons(n: nat, a: Shape, i: nat, b: Ix)
    requires |a| == |b| && i < n
    ensures Project([n] + a, [i] + b) == [i] + Project(a, b)
  {
    var p := Project([n] + a, [i] + b);
    assert p[0] == i;
    assert forall k :: 0 <= k < |a| ==> p[k + 1] == Project(a, b)[k];
  }

  lemma ProjectInRange(a: Shape, b: Shape, ix: Ix)
    requires AllFit(a, b) && InRange(b, ix)
    ensures InRange(a, Project(a, ix))
  {
  }

  lemma ConsFit(n: nat, m: nat, a: Shape, b: Shape)
    ensures AllFit([n] + a, [m] + b) <==> Fits(n, m) && AllFit(a, b)
  {
    hide Fits;
    var s, t := [n] + a, [m] + b;
    if AllFit(s, t) {
      assert Fits(s[0], t[0]);
      forall k | 0 <= k < |a|
        ensures Fits(a[k], b[k])
      {
        assert Fits(s[k + 1], t[k + 1]);
      }
    }
    if Fits(n, m) && AllFit(a, b) {
      forall k | 0 <= k < |s|
        ensures Fits(s[k], t[k])
      {
        if k > 0 {
          assert Fits(a[k - 1], b[k - 1]);
        }
      }
    }
  }

  lemma ElemIs(l: Factored, b: Ix, r: nat, c: nat, p: Ix, f: nat -> real)
    requires |l.A.shape| == |l.B.shape| == |b| + 2 && Project(Batch(l.A.shape), b) == p
    requires forall k: nat :: k < Rank(l) ==> f(k) == At(l.B, b + [r, k]) * At(l.A, p + [k, c])
    ensures Elem(l, b, r, c) == SumTo(Rank(l), f)
  {
    hide At, Project;
    var g := (k: nat) => At(l.B, b + [r, k]) * At(l.A, Project(Batch(l.A.shape), b) + [k, c]);
    SumEqual(Rank(l), f, g);
    assert Elem(l, b, r, c) == SumTo(Rank(l), g);
  }

  /** Two elements of two products are equal when their terms are. */
  lemma ElemsAgree(l: Factored, b: Ix, p: Ix, m: Factored, d: Ix, q: Ix, r: nat, c: nat)
    requires |l.A.shape| == |l.B.shape| == |b| + 2 && Project(Batch(l.A.shape), b) == p
    requires |m.A.shape| == |m.B.shape| == |d| + 2 && Project(Batch(m.A.shape), d) == q
    requires Rank(l) == Rank(m)
    requires forall k: nat :: k < Rank(l) ==>
               At(l.B, b + [r, k]) * At(l.A, p + [k, c]) == At(m.B, d + [r, k]) * At(m.A, q + [k, c])
    ensures Elem(l, b, r, c) == Elem(m, d, r, c)
  {
    hide At, Project, Elem;
    var f := (k: nat) => At(l.B, b + [r, k]) * At(l.A, p + [k, c]);
    ElemIs(l, b, r, c, p, f);
    ElemIs(m, d, r, c, q, f);
  }

  lemma ConsTwo(i: nat, b: Ix, r: nat, k: nat)
    ensures [i] + b + [r, k] == [i] + (b + [r, k])
  {
  }

  // ----- stack

  lemma StackedShapes(ls: seq<Factored>)
    requires AllWellFormed(ls) && Stack(ls).Some?
    ensures ls != []
    ensures var m, l := Stack(ls).value, ls[0];
            && m == Factored(StackDense(As(ls)).value, StackDense(Bs(ls)).value)
            && m.A.shape == [|ls|] + l.A.shape && m.B.shape == [|ls|] + l.B.shape
            && WellFormed(m) && Rank(m) == Rank(l)
            && Batch(m.A.shape) == [|ls|] + Batch(l.A.shape)
            && ShapeOf(m) == [|ls|] + ShapeOf(l)
            && forall i :: 0 <= i < |ls| ==> ls[i].A.shape == l.A.shape && ls[i].B.shape == l.B.shape
  {
    hide StackDense;
    var m, l := Stack(ls).value, ls[0];
    assert As(ls)[0] == l.A && Bs(ls)[0] == l.B;
    forall i | 0 <= i < |ls|
      ensures ls[i].A.shape == l.A.shape && ls[i].B.shape == l.B.shape
    {
      assert As(ls)[i] == ls[i].A && Bs(ls)[i] == ls[i].B;
    }
    assert WellFormed(l);
    assert forall i :: 1 <= i < |m.A.shape| ==> m.A.shape[i] == l.A.shape[i - 1] && m.B.shape[i] == l.B.shape[i - 1];
  }

  lemma StackedElem(ls: seq<Factored>, i: nat, b: Ix, r: nat, c: nat)
    requires AllWellFormed(ls) && Stack(ls).Some? && i < |ls|
    requires InRange(Batch(ls[i].B.shape), b) && r < Rows(ls[i]) && c < Cols(ls[i])
    ensures var m := Stack(ls).value;
            |m.A.shape| == |m.B.shape| == |b| + 3 && Elem(m, [i] + b, r, c) == Elem(ls[i], b, r, c)
  {
    hide At, Stack, StackDense, Project, InRange, AllWellFormed, Fits, As, Bs;
    StackedShapes(ls);
    var m, l := Stack(ls).value, ls[i];
    assert WellFormed(l) by { OneWellFormed(ls, i); }
    var a := Batch(l.A.shape);
    LengthInRange(Batch(l.B.shape), b);
    var p := Project(a, b);
    ProjectCons(|ls|, a, i, b);
    forall k: nat | k < Rank(m)
      ensures At(m.B, [i] + b + [r, k]) * At(m.A, [i] + p + [k, c]) == At(l.B, b + [r, k]) * At(l.A, p + [k, c])
    {
      StackedTerm(ls, i, b, r, c, k);
    }
    ElemsAgree(m, [i] + b, [i] + p, l, b, p, r, c);
  }

  lemma OneWellFormed(ls: seq<Factored>, i: nat)
    requires AllWellFormed(ls) && i < |ls|
    ensures WellFormed(ls[i])
  {
  }

  /** The element of B and the element of A in one term of the product. */
  lemma TermInRange(l: Factored, b: Ix, r: nat, c: nat, k: nat)
    requires WellFormed(l) && InRange(Batch(l.B.shape), b) && r < Rows(l) && c < Cols(l) && k < Rank(l)
    ensures |b| == |Batch(l.A.shape)|
    ensures InRange(l.B.shape, b + [r, k]) && InRange(l.A.shape, Project(Batch(l.A.shape), b) + [k, c])
  {
    hide InRange, Project, Fits;
    LengthInRange(Batch(l.B.shape), b);
    Shapes(l);
    BatchesFit(l);
    var p := Project(Batch(l.A.shape), b);
    ProjectInRange(Batch(l.A.shape), Batch(l.B.shape), b);
    InRangeSnoc(Batch(l.B.shape), Rows(l), b, r);
    InRangeSnoc(Batch(l.B.shape) + [Rows(l)], Rank(l), b + [r], k);
    InRangeSnoc(Batch(l.A.shape), Rank(l), p, k);
    InRangeSnoc(Batch(l.A.shape) + [Rank(l)], Cols(l), p + [k], c);
    AppendTwo(b, r, k);
    AppendTwo(p, k, c);
  }

  lemma StackedTerm(ls: seq<Factored>, i: nat, b: Ix, r: nat, c: nat, k: nat)
    requires AllWellFormed(ls) && Stack(ls).Some? && i < |ls|
    requires InRange(Batch(ls[i].B.shape), b) && r < Rows(ls[i]) && c < Cols(ls[i]) && k < Rank(ls[i])
    ensures |b| == |Batch(ls[i].A.shape)|
    ensures var m, p := Stack(ls).value, Project(Batch(ls[i].A.shape), b);
            && At(m.B, [i] + b + [r, k]) == At(ls[i].B, b + [r, k])
            && At(m.A, [i] + p + [k, c]) == At(ls[i].A, p + [k, c])
  {
    hide At, Stack, StackDense, Project, InRange, AllWellFormed, Fits;
    StackedShapes(ls);
    OneWellFormed(ls, i);
    TermInRange(ls[i], b, r, c, k);
    var p := Project(Batch(ls[i].A.shape), b);
    ConsTwo(i, b, r, k);
    ConsTwo(i, p, k, c);
    StackAt(Bs(ls), i, b + [r, k]);
    StackAt(As(ls), i, p + [k, c]);
  }

  lemma SplitLead(n: nat, s: Shape, m: nat, k: nat, ix: Ix) returns (i: nat, b: Ix, r: nat, c: nat)
    requires InRange([n] + (s + [m] + [k]), ix)
    ensures ix == [i] + (b + [r] + [c]) && i < n && InRange(s, b) && r < m && c < k
    ensures ix == [i] + b + [r] + [c] && InRange(s + [m] + [k], b + [r] + [c])
  {
    i := ix[0];
    assert ix == [i] + ix[1..];
    ConsInRange(n, s + [m] + [k], i, ix[1..]);
    b, r, c := SplitTwo(s, m, k, ix[1..]);
  }

  lemma StackedAt(ls: seq<Factored>, i: nat, b: Ix, r: nat, c: nat)
    requires AllWellFormed(ls) && Stack(ls).Some? && WellFormed(Stack(ls).value) && i < |ls|
    requires InRange(ShapeOf(ls[i]), b + [r] + [c]) && InRange(ShapeOf(Stack(ls).value), [i] + b + [r] + [c])
    requires InRange(Batch(ls[i].B.shape), b) && r < Rows(ls[i]) && c < Cols(ls[i])
    ensures At(Dense(Stack(ls).value), [i] + b + [r] + [c]) == At(Dense(ls[i]), b + [r] + [c])
  {
    hide At, Stack, StackDense, Project, InRange, AllWellFormed, Fits, Dense, Elem;
    OneWellFormed(ls, i);
    DenseAt(Stack(ls).value, [i] + b, r, c);
    DenseAt(ls[i], b, r, c);
    StackedElem(ls, i, b, r, c);
  }

  /** The pairs have one rank and one batch of A. */
  predicate OneRank(ls: seq<Factored>)
    requires AllWellFormed(ls)
  {
    forall i :: 0 <= i < |ls| ==> Rank(ls[i]) == Rank(ls[0]) && Batch(ls[i].A.shape) == Batch(ls[0].A.shape)
  }

  /** Equal products with equal ranks and batches are pairs of equal factors, in shape. */
  lemma SameFactors(l: Factored, m: Factored)
    requires WellFormed(l) && WellFormed(m)
    ensures l.A.shape == m.A.shape && l.B.shape == m.B.shape <==>
              ShapeOf(l) == ShapeOf(m) && Rank(l) == Rank(m) && Batch(l.A.shape) == Batch(m.A.shape)
  {
    hide Fits;
    Shapes(l);
    Shapes(m);
    Rejoin(l.B.shape);
    Rejoin(m.B.shape);
    FrontLast(Front(l.B.shape), Cols(l));
    FrontLast(Front(m.B.shape), Cols(m));
  }

  lemma StackAccepted(ls: seq<Factored>)
    requires AllWellFormed(ls)
    ensures Stack(ls).Some? <==> StackDense(Denses(ls)).Some? && OneRank(ls)
  {
    hide Fits, Dense, StackDense;
    forall i | 0 <= i < |ls|
      ensures As(ls)[i].shape == As(ls)[0].shape && Bs(ls)[i].shape == Bs(ls)[0].shape <==>
              Denses(ls)[i].shape == Denses(ls)[0].shape && Rank(ls[i]) == Rank(ls[0]) && Batch(ls[i].A.shape) == Batch(ls[0].A.shape)
    {
      SameFactors(ls[i], ls[0]);
      DenseShape(ls[i]);
      DenseShape(ls[0]);
    }
    if ls != [] {
      WellFormedIsBuilt(ls[0]);
      if StackDense(As(ls)).Some? && StackDense(Bs(ls)).Some? {
        StackedIsBuilt(ls[0], StackDense(As(ls)).value, StackDense(Bs(ls)).value, |ls|);
      }
    }
  }

  lemma StackedIsBuilt(l: Factored, a: Tensor, b: Tensor, n: nat)
    requires Built(l) && a.shape == [n] + l.A.shape && b.shape == [n] + l.B.shape
    ensures New(a, b).Some?
  {
    assert a.shape[|a.shape| - 2] == l.A.shape[|l.A.shape| - 2] && b.shape[|b.shape| - 1] == l.B.shape[|l.B.shape| - 1];
  }

  /** Stacking the factors is accepted exactly if PyTorch stacks the products and the pairs have one rank and one batch of A;
      it is stacking the products. */
  lemma StackExact(ls: seq<Factored>)
    requires AllWellFormed(ls)
    ensures Stack(ls).Some? <==> StackDense(Denses(ls)).Some? && OneRank(ls)
    ensures Stack(ls).Some? ==> WellFormed(Stack(ls).value) && StackDense(Denses(ls)) == Some(Dense(Stack(ls).value))
  {
    hide At, Stack, StackDense, Project, InRange, Fits, Dense, Elem, WellFormed, OneRank;
    StackAccepted(ls);
    if Stack(ls).Some? {
      StackedShapes(ls);
      var m, l, ds := Stack(ls).value, ls[0], Denses(ls);
      StackedDense(ls);
      var t, u := StackDense(ds).value, Dense(m);
      DenseShape(m);
      forall ix: Ix | InRange(t.shape, ix)
        ensures At(t, ix) == At(u, ix)
      {
        Shapes(l);
        var i, b, r, c := SplitLead(|ls|, Batch(l.B.shape), Rows(l), Cols(l), ix);
        StackedShapes(ls);
        StackAt(ds, i, b + [r] + [c]);
        SameShape(ls, i);
        StackedAt(ls, i, b, r, c);
      }
      Extensional(t, u);
    }
  }

  lemma SameShape(ls: seq<Factored>, i: nat)
    requires AllWellFormed(ls) && i < |ls| && ls[i].A.shape == ls[0].A.shape && ls[i].B.shape == ls[0].B.shape
    ensures ShapeOf(ls[i]) == ShapeOf(ls[0]) && Rows(ls[i]) == Rows(ls[0]) && Cols(ls[i]) == Cols(ls[0])
  {
  }

  lemma StackedDense(ls: seq<Factored>)
    requires AllWellFormed(ls) && Stack(ls).Some? && ls != []
    ensures StackDense(Denses(ls)).Some? && StackDense(Denses(ls)).value.Valid()
    ensures StackDense(Denses(ls)).value.shape == [|ls|] + ShapeOf(ls[0]) && Denses(ls)[0].shape == ShapeOf(ls[0])
  {
    hide At, Stack, Fits, Dense, Elem;
    StackedShapes(ls);
    var ds := Denses(ls);
    forall i | 0 <= i < |ls|
      ensures ds[i].shape == ShapeOf(ls[0])
    {
      DenseShape(ls[i]);
      SameShape(ls, i);
    }
  }

  // ----- cat of tensors with a batch

  /** Factor A has the leading dimension in full in every piece. */
  predicate InStep(ls: seq<Factored>)
    requires AllWellFormed(ls)
  {
    forall i :: 0 <= i < |ls| ==> ls[i].A.shape[0] == ls[i].B.shape[0]
  }

  predicate Batched(ls: seq<Factored>) {
    AllWellFormed(ls) && ls != [] && |ls[0].A.shape| > 2 && Cat(ls).Some?
  }

  lemma TailShape(l: Factored)
    requires WellFormed(l) && |l.A.shape| > 2
    ensures l.A.shape == [l.A.shape[0]] + l.A.shape[1..] && l.B.shape == [l.B.shape[0]] + l.B.shape[1..]
    ensures Batch(l.A.shape) == [l.A.shape[0]] + Batch(l.A.shape[1..]) && Batch(l.B.shape) == [l.B.shape[0]] + Batch(l.B.shape[1..])
    ensures ShapeOf(l) == [l.B.shape[0]] + ShapeOf(l)[1..]
    ensures ShapeOf(l)[1..] == Batch(l.B.shape[1..]) + [Rows(l)] + [Cols(l)]
  {
  }

  lemma CatParts(ls: seq<Factored>)
    requires Batched(ls)
    ensures Joinable(As(ls)) && Joinable(Bs(ls))
    ensures Cat(ls) == Some(Factored(Joined(As(ls)), Joined(Bs(ls))))
    ensures forall i :: 0 <= i < |ls| ==>
              && |ls[i].A.shape| == |ls[i].B.shape| == |ls[0].A.shape|
              && ls[i].A.shape[1..] == ls[0].A.shape[1..] && ls[i].B.shape[1..] == ls[0].B.shape[1..]
  {
    hide Joined;
    assert WellFormed(ls[0]);
    forall i | 0 <= i < |ls|
      ensures |ls[i].A.shape| == |ls[i].B.shape| == |ls[0].A.shape|
      ensures ls[i].A.shape[1..] == ls[0].A.shape[1..] && ls[i].B.shape[1..] == ls[0].B.shape[1..]
    {
      assert As(ls)[i] == ls[i].A && Bs(ls)[i] == ls[i].B && As(ls)[0] == ls[0].A && Bs(ls)[0] == ls[0].B;
      assert |ls[i].A.shape[1..]| == |ls[0].A.shape[1..]| && |ls[i].B.shape[1..]| == |ls[0].B.shape[1..]|;
    }
  }

  lemma PieceTail(ls: seq<Factored>, i: nat)
    requires Batched(ls) && i < |ls|
    ensures WellFormed(ls[i]) && WellFormed(ls[0]) && |ls[i].A.shape| > 2
    ensures ls[i].A.shape[1..] == ls[0].A.shape[1..] && ls[i].B.shape[1..] == ls[0].B.shape[1..]
    ensures Rank(ls[i]) == Rank(ls[0]) && Rows(ls[i]) == Rows(ls[0]) && Cols(ls[i]) == Cols(ls[0])
    ensures ShapeOf(ls[i])[1..] == ShapeOf(ls[0])[1..]
  {
    hide Cat, Fits;
    CatParts(ls);
    OneWellFormed(ls, i);
    OneWellFormed(ls, 0);
    var l, l0 := ls[i], ls[0];
    LastOfTail(l.A.shape, l0.A.shape);
    LastOfTail(l.B.shape, l0.B.shape);
    TailShape(l);
    TailShape(l0);
  }

  lemma LastOfTail(s: Shape, t: Shape)
    requires |s| == |t| > 2 && s[1..] == t[1..]
    ensures Last(s) == Last(t) && s[|s| - 2] == t[|t| - 2]
  {
    assert s[1..][|s| - 2] == t[1..][|s| - 2] && s[1..][|s| - 3] == t[1..][|s| - 3];
  }

  /** The concatenated pair is one product exactly if its leading extents fit. */
  lemma CatFits(ls: seq<Factored>)
    requires Batched(ls)
    ensures Joinable(As(ls)) && Joinable(Bs(ls))
    ensures var m, l, n, k := Cat(ls).value, ls[0], Total(Extents(As(ls))), Total(Extents(Bs(ls)));
            && WellFormed(l)
            && m.A.shape == [n] + l.A.shape[1..] && m.B.shape == [k] + l.B.shape[1..]
            && (WellFormed(m) <==> Fits(n, k))
            && Rank(m) == Rank(l) && Batch(m.A.shape) == [n] + Batch(l.A.shape[1..])
            && ShapeOf(m) == [k] + ShapeOf(l)[1..]
  {
    hide Cat, Fits, Total, Extents, Joined, Joinable;
    CatParts(ls);
    OneWellFormed(ls, 0);
    var m, l, n, k := Cat(ls).value, ls[0], Total(Extents(As(ls))), Total(Extents(Bs(ls)));
    assert As(ls)[0] == l.A && Bs(ls)[0] == l.B;
    OtherExtents(l, m, n, k);
  }

  lemma OtherExtents(l: Factored, m: Factored, n: nat, k: nat)
    requires WellFormed(l) && |l.A.shape| > 2 && m.A.Valid() && m.B.Valid()
    requires m.A.shape == [n] + l.A.shape[1..] && m.B.shape == [k] + l.B.shape[1..]
    ensures WellFormed(m) <==> Fits(n, k)
    ensures Rank(m) == Rank(l) && Batch(m.A.shape) == [n] + Batch(l.A.shape[1..])
    ensures ShapeOf(m) == [k] + ShapeOf(l)[1..]
  {
    hide WellFormed, Fits, AllFit, Tensor.Valid;
    TwoLonger(l);
    TailShape(l);
    BatchesFit(l);
    var a, b := Batch(l.A.shape[1..]), Batch(l.B.shape[1..]);
    ConsFit(l.A.shape[0], l.B.shape[0], a, b);
    ConsFit(n, k, a, b);
    LastOfTail(m.A.shape, l.A.shape);
    LastOfTail(m.B.shape, l.B.shape);
    assert Batch(m.A.shape) == [n] + a && Batch(m.B.shape) == [k] + b;
    WellFormedByBatch(m);
  }

  lemma TwoLonger(l: Factored)
    requires WellFormed(l)
    ensures var n := |l.A.shape|; n == |l.B.shape| >= 2 && l.A.shape[n - 2] == Rank(l) > 0
  {
  }

  lemma WellFormedByBatch(m: Factored)
    requires m.A.Valid() && m.B.Valid() && |m.A.shape| == |m.B.shape| >= 2
    ensures WellFormed(m) <==> m.A.shape[|m.A.shape| - 2] == Rank(m) > 0 && AllFit(Batch(m.A.shape), Batch(m.B.shape))
  {
    hide Fits;
    assert forall i :: 0 <= i < |m.A.shape| - 2 ==> Batch(m.A.shape)[i] == m.A.shape[i] && Batch(m.B.shape)[i] == m.B.shape[i];
  }

  lemma SameExtents(ls: seq<Factored>)
    requires Batched(ls) && InStep(ls)
    ensures Joinable(As(ls)) && Joinable(Bs(ls)) && Extents(As(ls)) == Extents(Bs(ls))
  {
    hide Cat;
    CatParts(ls);
  }

  /** The place of entry `i` of the concatenation. */
  ghost predicate Place(ls: seq<Factored>, i: nat, o: nat, j: nat)
    requires Batched(ls) && InStep(ls)
  {
    SameExtents(ls);
    i < Total(Extents(Bs(ls))) && Owner(Extents(Bs(ls)), i) == (o, j)
  }

  lemma PlaceIs(ls: seq<Factored>, i: nat, o: nat, j: nat)
    requires Batched(ls) && InStep(ls) && Place(ls, i, o, j)
    ensures o < |ls| && j < ls[o].A.shape[0] == ls[o].B.shape[0]
  {
    hide Cat, Owner;
    SameExtents(ls);
  }

  lemma CatTerm(ls: seq<Factored>, i: nat, o: nat, j: nat, b: Ix, r: nat, c: nat, k: nat)
    requires Batched(ls) && InStep(ls) && Place(ls, i, o, j) && o < |ls|
    requires InRange(Batch(ls[o].B.shape), [j] + b) && r < Rows(ls[o]) && c < Cols(ls[o]) && k < Rank(ls[o])
    requires |b| == |ls[o].A.shape| - 3
    ensures var m, p := Cat(ls).value, Project(Batch(ls[o].A.shape[1..]), b);
            && At(m.B, [i] + b + [r, k]) == At(ls[o].B, [j] + b + [r, k])
            && At(m.A, [i] + p + [k, c]) == At(ls[o].A, [j] + p + [k, c])
  {
    hide At, Cat, Project, InRange, Fits, Joined, Owner, Joinable, AllWellFormed;
    SameExtents(ls);
    CatParts(ls);
    PlaceIs(ls, i, o, j);
    PieceTail(ls, o);
    var l := ls[o];
    TailShape(l);
    var a := Batch(l.A.shape[1..]);
    var p := Project(a, b);
    ProjectCons(l.A.shape[0], a, j, b);
    TermInRange(l, [j] + b, r, c, k);
    ConsTwo(j, b, r, k);
    ConsTwo(j, p, k, c);
    ConsTwo(i, b, r, k);
    ConsTwo(i, p, k, c);
    ConsInRange(l.B.shape[0], l.B.shape[1..], j, b + [r, k]);
    ConsInRange(l.A.shape[0], l.A.shape[1..], j, p + [k, c]);
    assert As(ls)[0] == ls[0].A && Bs(ls)[0] == ls[0].B;
    JoinedAt(Bs(ls), i, b + [r, k]);
    JoinedAt(As(ls), i, p + [k, c]);
  }

  lemma CatElem(ls: seq<Factored>, i: nat, o: nat, j: nat, b: Ix, r: nat, c: nat)
    requires Batched(ls) && InStep(ls) && Place(ls, i, o, j) && o < |ls|
    requires InRange(Batch(ls[o].B.shape), [j] + b) && r < Rows(ls[o]) && c < Cols(ls[o])
    ensures var m, l := Cat(ls).value, ls[o];
            && |m.A.shape| == |m.B.shape| == |l.A.shape| == |l.B.shape| == |b| + 3
            && Elem(m, [i] + b, r, c) == Elem(l, [j] + b, r, c)
  {
    hide At, Cat, Project, InRange, Fits, Joined, Owner, AllWellFormed, Joinable, Extents, Total, InStep, Elem;
    SameExtents(ls);
    CatFits(ls);
    PlaceIs(ls, i, o, j);
    PieceTail(ls, o);
    LengthInRange(Batch(ls[o].B.shape), [j] + b);
    var m, l := Cat(ls).value, ls[o];
    TailShape(l);
    var a := Batch(l.A.shape[1..]);
    var p := Project(a, b);
    ProjectCons(l.A.shape[0], a, j, b);
    ProjectCons(Total(Extents(As(ls))), a, i, b);
    forall k: nat | k < Rank(m)
      ensures At(m.B, [i] + b + [r, k]) * At(m.A, [i] + p + [k, c]) == At(l.B, [j] + b + [r, k]) * At(l.A, [j] + p + [k, c])
    {
      CatTerm(ls, i, o, j, b, r, c, k);
    }
    ElemsAgree(m, [i] + b, [i] + p, l, [j] + b, [j] + p, r, c);
  }

  lemma JoinableFrom(ts: seq<Tensor>, es: seq<nat>, tail: Shape)
    requires ts != [] && |es| == |ts|
    requires forall i :: 0 <= i < |ts| ==> ts[i].shape != [] && ts[i].shape[0] == es[i] && ts[i].shape[1..] == tail
    ensures Joinable(ts) && Extents(ts) == es
  {
  }

  lemma CatDenseShapes(ls: seq<Factored>)
    requires Batched(ls)
    ensures Joinable(Denses(ls)) && Joinable(Bs(ls)) && Extents(Denses(ls)) == Extents(Bs(ls))
    ensures WellFormed(ls[0]) && Denses(ls)[0].shape[1..] == ShapeOf(ls[0])[1..]
  {
    hide Cat, Fits, Dense, Joinable, Joined, WellFormed;
    var ds, es := Denses(ls), Extents(Bs(ls));
    PieceTail(ls, 0);
    CatParts(ls);
    assert |ShapeOf(ls[0])| > 1 by { TailShape(ls[0]); }
    forall i | 0 <= i < |ls|
      ensures ds[i].shape != [] && ds[i].shape[0] == es[i] && ds[i].shape[1..] == ShapeOf(ls[0])[1..]
    {
      PieceDense(ls, i);
    }
    JoinableFrom(ds, es, ShapeOf(ls[0])[1..]);
  }

  lemma PieceDense(ls: seq<Factored>, i: nat)
    requires Batched(ls) && i < |ls|
    ensures WellFormed(ls[0]) && |ShapeOf(ls[0])| > 1
    ensures var d := Denses(ls)[i];
            d.shape != [] && d.shape[0] == Extents(Bs(ls))[i] && d.shape[1..] == ShapeOf(ls[0])[1..]
  {
    hide Cat, Fits, Dense, Joinable;
    PieceTail(ls, i);
    TailShape(ls[i]);
    TailShape(ls[0]);
    OneDense(ls, i);
  }

  lemma OneDense(ls: seq<Factored>, i: nat)
    requires AllWellFormed(ls) && i < |ls|
    ensures WellFormed(ls[i]) && Denses(ls)[i] == Dense(ls[i]) && Dense(ls[i]).shape == ShapeOf(ls[i])
  {
    DenseShape(ls[i]);
  }

  lemma CatAt(ls: seq<Factored>, i: nat, b: Ix, r: nat, c: nat)
    requires Batched(ls) && InStep(ls) && WellFormed(Cat(ls).value) && WellFormed(ls[0])
    requires Joinable(Denses(ls)) && i < Total(Extents(Denses(ls)))
    requires InRange(ShapeOf(ls[0])[1..], b + [r] + [c]) && InRange(ShapeOf(Cat(ls).value), [i] + b + [r] + [c])
    ensures At(Dense(Cat(ls).value), [i] + b + [r] + [c]) == At(Joined(Denses(ls)), [i] + (b + [r] + [c]))
  {
    hide At, Cat, InRange, Fits, Joined, Owner, Dense, Elem, Total, InStep, Joinable, Extents;
    CatDenseShapes(ls);
    SameExtents(ls);
    var ds := Denses(ls);
    var o := Owner(Extents(ds), i);
    assert Place(ls, i, o.0, o.1);
    PlaceIs(ls, i, o.0, o.1);
    JoinedAt(ds, i, b + [r] + [c]);
    PieceTail(ls, o.0);
    var l, j := ls[o.0], o.1;
    OneDense(ls, o.0);
    TailShape(l);
    ConsInRange(l.B.shape[0], ShapeOf(l)[1..], j, b + [r] + [c]);
    assert [j] + b + [r] + [c] == [j] + (b + [r] + [c]);
    Shapes(l);
    InRangeSnoc(Batch(l.B.shape) + [Rows(l)], Cols(l), [j] + b + [r], c);
    InRangeSnoc(Batch(l.B.shape), Rows(l), [j] + b, r);
    DenseAt(l, [j] + b, r, c);
    CatElem(ls, i, o.0, j, b, r, c);
    DenseAt(Cat(ls).value, [i] + b, r, c);
  }

  lemma CatInStep(ls: seq<Factored>)
    requires Batched(ls) && InStep(ls)
    ensures WellFormed(Cat(ls).value) && CatDense(Denses(ls)) == Some(Dense(Cat(ls).value))
  {
    hide At, Cat, InRange, Fits, Joined, Owner, Dense, Elem, Total, InStep, Joinable, Extents;
    SameExtents(ls);
    CatFits(ls);
    CatDenseShapes(ls);
    FitsSelf(Total(Extents(Bs(ls))));
    var m, l, ds := Cat(ls).value, ls[0], Denses(ls);
    DenseShape(m);
    var t, u := Dense(m), Joined(ds);
    PieceTail(ls, 0);
    TailShape(l);
    forall ix: Ix | InRange(t.shape, ix)
      ensures At(t, ix) == At(u, ix)
    {
      var i, b, r, c := SplitLead(Total(Extents(ds)), Batch(l.B.shape[1..]), Rows(l), Cols(l), ix);
      CatAt(ls, i, b, r, c);
    }
    Extensional(t, u);
  }

  lemma FitsSelf(n: nat)
    ensures Fits(n, n)
  {
  }

  // ----- When it is not in step

  lemma JoinedOne(t: Tensor)
    requires t.Valid() && t.shape != []
    ensures Joinable([t]) && Joined([t]) == t
  {
    hide At, InRange, Joined;
    var n, s := t.shape[0], t.shape[1..];
    assert Extents([t]) == [n];
    OneTotal(n);
    var u := Joined([t]);
    assert t.shape == [n] + s;
    forall ix: Ix | InRange(u.shape, ix)
      ensures At(u, ix) == At(t, ix)
    {
      LengthInRange(u.shape, ix);
      var i, y := ix[0], ix[1..];
      assert ix == [i] + y;
      ConsInRange(n, s, i, y);
      JoinedAt([t], i, y);
    }
    Extensional(u, t);
  }

  lemma OneTotal(n: nat)
    ensures Total([n]) == n
  {
    assert [n][1..] == [];
  }

  /** Extents of A that are positive and at most those of B add up to the same only if they are the same. */
  lemma {:induction false} TotalsDiffer(a: seq<nat>, b: seq<nat>)
    requires |a| == |b| && forall i :: 0 <= i < |a| ==> 0 < a[i] <= b[i]
    ensures |a| <= Total(a) <= Total(b)
    ensures Total(a) == Total(b) ==> a == b
  {
    if a != [] {
      TotalsDiffer(a[1..], b[1..]);
      assert Total(a) == Total(b) ==> a[1..] == b[1..] && a[0] == b[0];
      assert a == [a[0]] + a[1..] && b == [b[0]] + b[1..];
    }
  }

  lemma OutOfStep(ls: seq<Factored>)
    requires Batched(ls) && WellFormed(Cat(ls).value) && forall i :: 0 <= i < |ls| ==> WellFormed(ls[i]) && ls[i].B.shape[0] > 0
    ensures InStep(ls) || |ls| == 1
  {
    hide Cat, Joined, Joinable;
    CatFits(ls);
    var a, b := Extents(As(ls)), Extents(Bs(ls));
    forall i | 0 <= i < |ls|
      ensures a[i] == ls[i].A.shape[0] && b[i] == ls[i].B.shape[0] && 0 < a[i] <= b[i]
    {
      PieceTail(ls, i);
      assert Fits(ls[i].A.shape[0], ls[i].B.shape[0]);
    }
    TotalsDiffer(a, b);
  }

  lemma CatOne(ls: seq<Factored>)
    requires Batched(ls) && |ls| == 1
    ensures Cat(ls) == Some(ls[0]) && CatDense(Denses(ls)) == Some(Dense(ls[0]))
  {
    hide Joined, Joinable, Cat, Dense, CatDense;
    CatParts(ls);
    var l := ls[0];
    assert As(ls) == [l.A] && Bs(ls) == [l.B] && Denses(ls) == [Dense(l)];
    JoinedOne(l.A);
    JoinedOne(l.B);
    DenseShape(l);
    JoinedOne(Dense(l));
    CatIs([Dense(l)]);
  }

  lemma CatIs(ts: seq<Tensor>)
    requires Joinable(ts)
    ensures CatDense(ts) == Some(Joined(ts))
  {
  }

  /** Concatenating batched pairs without empty pieces is concatenating the products if and only if A has the leading
      dimension in full everywhere, or there is one piece only. */
  lemma CatExact(ls: seq<Factored>)
    requires Batched(ls) && forall i :: 0 <= i < |ls| ==> WellFormed(ls[i]) && ls[i].B.shape[0] > 0
    ensures WellFormed(Cat(ls).value) && CatDense(Denses(ls)) == Some(Dense(Cat(ls).value)) <==> InStep(ls) || |ls| == 1
  {
    hide Cat, Dense, CatDense, InStep, Fits;
    if InStep(ls) {
      CatInStep(ls);
    } else if |ls| == 1 {
      CatOne(ls);
      OneWellFormed(ls, 0);
    } else if WellFormed(Cat(ls).value) {
      OutOfStep(ls);
    }
  }

  // ----- cat of matrices

  predicate Matrices(ls: seq<Factored>) {
    AllWellFormed(ls) && ls != [] && |ls[0].A.shape| == 2 && Cat(ls).Some?
  }

  lemma MatrixParts(ls: seq<Factored>)
    requires Matrices(ls)
    ensures WellFormed(ls[0]) && Joinable(Bs(ls)) && Cat(ls) == Some(Factored(ls[0].A, Joined(Bs(ls))))
    ensures forall i :: 0 <= i < |ls| ==>
              && WellFormed(ls[i]) && ls[i].A == ls[0].A && |ls[i].B.shape| == 2 && Rank(ls[i]) == Rank(ls[0])
              && Bs(ls)[i] == ls[i].B
  {
    hide Joined, Fits;
    assert WellFormed(ls[0]);
    forall i | 0 <= i < |ls|
      ensures WellFormed(ls[i]) && ls[i].A == ls[0].A && |ls[i].B.shape| == 2 && Rank(ls[i]) == Rank(ls[0]) && Bs(ls)[i] == ls[i].B
    {
      OneWellFormed(ls, i);
    }
  }

  lemma MatrixFits(ls: seq<Factored>)
    requires Matrices(ls)
    ensures Joinable(Bs(ls)) && WellFormed(ls[0])
    ensures var m, n := Cat(ls).value, Total(Extents(Bs(ls)));
            && WellFormed(m) && Rank(m) == Rank(ls[0]) && ShapeOf(m) == [n, Cols(ls[0])] && Front(m.B.shape) == [n]
            && Batch(m.A.shape) == []
  {
    hide Joined, Cat, Total, Extents, Matrices, Joinable;
    MatrixParts(ls);
    var l := ls[0];
    assert l.B.shape[1..] == [Rank(l)];
    assert Bs(ls)[0] == l.B;
  }

  lemma MatrixDenses(ls: seq<Factored>)
    requires Matrices(ls)
    ensures WellFormed(ls[0]) && Joinable(Denses(ls)) && Extents(Denses(ls)) == Extents(Bs(ls))
    ensures Denses(ls)[0].shape[1..] == [Cols(ls[0])]
  {
    hide Cat, Fits, Dense, Joinable, Joined;
    MatrixParts(ls);
    var ds, es := Denses(ls), Extents(Bs(ls));
    forall i | 0 <= i < |ls|
      ensures ds[i].shape != [] && ds[i].shape[0] == es[i] && ds[i].shape[1..] == [Cols(ls[0])]
    {
      OneDense(ls, i);
    }
    JoinableFrom(ds, es, [Cols(ls[0])]);
  }

  lemma MatrixAt(ls: seq<Factored>, i: nat, c: nat)
    requires Matrices(ls) && WellFormed(ls[0]) && WellFormed(Cat(ls).value)
    requires i < Total(Extents(Bs(ls))) && c < Cols(ls[0])
    ensures Joinable(Denses(ls)) && At(Dense(Cat(ls).value), [i] + [c]) == At(Joined(Denses(ls)), [i] + [c])
  {
    hide Cat, Fits, Dense, Joinable, Joined, At, Elem, InRange, Owner, Total, Extents, Matrices;
    MatrixParts(ls);
    MatrixFits(ls);
    MatrixDenses(ls);
    var m, ds, es := Cat(ls).value, Denses(ls), Extents(Bs(ls));
    var o := Owner(es, i);
    var l, j := ls[o.0], o.1;
    ExtentIs(ls, o.0);
    SingleInRange(Cols(ls[0]), c);
    JoinedAt(ds, i, [c]);
    OneDense(ls, o.0);
    SingleInRange(Rows(l), j);
    SingleInRange(Total(es), i);
    NoBatch(l);
    NoBatch(m);
    forall k: nat | k < Rank(m)
      ensures Term(l, [j], k, c) == Term(m, [i], k, c)
    {
      SingleInRange(Rank(l), k);
      assert Bs(ls)[0].shape[1..] == [Rank(ls[0])];
      JoinedAt(Bs(ls), i, [k]);
    }
    RowsAgree(l, [j], c, m, [i], c);
  }

  lemma NoBatch(l: Factored)
    requires |l.A.shape| == 2
    ensures AllOne(Batch(l.A.shape))
  {
  }

  lemma SingleInRange(n: nat, i: nat)
    requires i < n
    ensures InRange([n], [i])
  {
  }

  lemma ExtentIs(ls: seq<Factored>, o: nat)
    requires o < |ls| && |ls[o].B.shape| == 2
    ensures Extents(Bs(ls))[o] == Rows(ls[o]) && Front(ls[o].B.shape) == [Rows(ls[o])]
  {
  }

  /** Concatenating matrices that share factor A is concatenating the products, whenever it is accepted. */
  lemma MatrixCatExact(ls: seq<Factored>)
    requires Matrices(ls)
    ensures WellFormed(Cat(ls).value) && CatDense(Denses(ls)) == Some(Dense(Cat(ls).value))
  {
    hide Cat, Fits, Dense, Joinable, Joined, At, Elem, Owner, Total, Extents;
    MatrixFits(ls);
    MatrixDenses(ls);
    var m, ds, n := Cat(ls).value, Denses(ls), Total(Extents(Bs(ls)));
    DenseShape(m);
    var t, u := Dense(m), Joined(ds);
    assert u.shape == [n, Cols(ls[0])];
    forall ix: Ix | InRange(t.shape, ix)
      ensures At(t, ix) == At(u, ix)
    {
      assert ix == [ix[0]] + [ix[1]];
      MatrixAt(ls, ix[0], ix[1]);
    }
    Extensional(t, u);
    CatIs(ds);
  }

  // ----- When cat is accepted

  /** Batched pairs agree in what is not joined; matrices share A. */
  predicate Alike(ls: seq<Factored>)
    requires AllWellFormed(ls) && ls != []
  {
    if |ls[0].A.shape| > 2 then
      forall i :: 0 <= i < |ls| ==> ls[i].A.shape[1..] == ls[0].A.shape[1..]
    else forall i :: 0 <= i < |ls| ==> ls[i].A == ls[0].A
  }

  lemma SameTail(l: Factored, m: Factored)
    requires WellFormed(l) && WellFormed(m) && |l.A.shape| > 2 && l.A.shape[1..] == m.A.shape[1..]
    ensures |l.A.shape| == |m.A.shape|
    ensures l.B.shape[1..] == m.B.shape[1..] <==> ShapeOf(l)[1..] == ShapeOf(m)[1..]
  {
    hide Fits;
    assert |l.A.shape[1..]| == |m.A.shape[1..]|;
    LastOfTail(l.A.shape, m.A.shape);
    TailOfShape(l);
    TailOfShape(m);
    var n := |l.A.shape|;
    assert l.A.shape[n - 2] == Rank(l) && m.A.shape[n - 2] == Rank(m);
    FrontLast(Front(l.B.shape)[1..], Cols(l));
    FrontLast(Front(m.B.shape)[1..], Cols(m));
    FrontLast(Front(l.B.shape)[1..], Rank(l));
    FrontLast(Front(m.B.shape)[1..], Rank(m));
  }

  lemma TailOfShape(l: Factored)
    requires WellFormed(l) && |l.A.shape| > 2
    ensures ShapeOf(l)[1..] == Front(l.B.shape)[1..] + [Cols(l)] && l.B.shape[1..] == Front(l.B.shape)[1..] + [Rank(l)]
  {
    hide Fits;
  }

  lemma BatchedAccepted(ls: seq<Factored>)
    requires AllWellFormed(ls) && ls != [] && |ls[0].A.shape| > 2 && Built(ls[0])
    ensures Cat(ls).Some? <==> CatDense(Denses(ls)).Some? && Alike(ls)
  {
    hide Fits, Dense, Joined;
    forall i | 0 <= i < |ls|
      ensures Denses(ls)[i].shape == ShapeOf(ls[i]) && As(ls)[i] == ls[i].A && Bs(ls)[i] == ls[i].B
    {
      DenseShape(ls[i]);
    }
    forall i | 0 <= i < |ls| && ls[i].A.shape[1..] == ls[0].A.shape[1..]
      ensures ls[i].B.shape[1..] == ls[0].B.shape[1..] <==> ShapeOf(ls[i])[1..] == ShapeOf(ls[0])[1..]
    {
      SameTail(ls[i], ls[0]);
    }
    if Joinable(As(ls)) && Joinable(Bs(ls)) {
      JoinedIsBuilt(ls[0], Joined(As(ls)), Joined(Bs(ls)));
    }
  }

  lemma JoinedIsBuilt(l: Factored, a: Tensor, b: Tensor)
    requires Built(l) && |l.A.shape| > 2
    requires a.shape != [] && b.shape != [] && a.shape[1..] == l.A.shape[1..] && b.shape[1..] == l.B.shape[1..]
    ensures New(a, b).Some?
  {
    assert |a.shape| == |l.A.shape| && |b.shape| == |l.B.shape|;
    LastOfTail(a.shape, l.A.shape);
    LastOfTail(b.shape, l.B.shape);
  }

  lemma MatricesAccepted(ls: seq<Factored>)
    requires AllWellFormed(ls) && ls != [] && |ls[0].A.shape| == 2 && Built(ls[0])
    ensures Cat(ls).Some? <==> CatDense(Denses(ls)).Some? && Alike(ls)
  {
    hide Fits, Dense, Joined;
    if Alike(ls) {
      forall i | 0 <= i < |ls|
        ensures Denses(ls)[i].shape == ShapeOf(ls[i]) && Bs(ls)[i] == ls[i].B
        ensures ls[i].B.shape != [] && ls[i].B.shape[1..] == [Rank(ls[0])] && ShapeOf(ls[i])[1..] == [Cols(ls[0])]
      {
        DenseShape(ls[i]);
      }
    }
  }

  /** Joining the factors is accepted exactly if PyTorch joins the products and the pairs are alike. */
  lemma CatAccepted(ls: seq<Factored>)
    requires AllWellFormed(ls) && ls != []
    ensures Built(ls[0])
    ensures Cat(ls).Some? <==> CatDense(Denses(ls)).Some? && Alike(ls)
  {
    hide Fits, Cat, Alike, CatDense;
    WellFormedIsBuilt(ls[0]);
    if |ls[0].A.shape| > 2 { BatchedAccepted(ls); } else { MatricesAccepted(ls); }
  }
}
