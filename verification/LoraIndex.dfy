/** `__getitem__` of LoraTorchTensor, and exactly when indexing the factors is indexing the product. */
module LoraIndex {
  import opened Text
  import opened Tensors
  import opened Lora

  // ----- Padding

  function Fulls(n: nat): (r: seq<Index>)
    ensures |r| == n
  {
    seq(n, i requires 0 <= i < n => Span(ALL))
  }

  lemma {:induction false} PadIs(xs: seq<Index>, n: nat)
    requires |xs| <= n
    ensures Pad(xs, n) == xs + Fulls(n - |xs|)
    decreases n - |xs|
  {
    if |xs| < n {
      PadIs(xs + [Span(ALL)], n);
      assert [Span(ALL)] + Fulls(n - |xs| - 1) == Fulls(n - |xs|);
    } else {
      assert Fulls(0) == [];
    }
  }

  lemma FullsSnoc(n: nat)
    ensures Fulls(n + 2) == Fulls(n) + [Span(ALL)] + [Span(ALL)]
  {
  }

  /** The two matrix dimensions are behind the batch. */
  lemma PadTwo(xs: seq<Index>, n: nat)
    requires |xs| + 2 <= n
    ensures Pad(xs, n) == Pad(xs, n - 2) + [Span(ALL)] + [Span(ALL)]
  {
    hide Pad, Fulls;
    PadIs(xs, n);
    PadIs(xs, n - 2);
    FullsSnoc(n - 2 - |xs|);
  }

  lemma GetPadded(t: Tensor, xs: seq<Index>)
    requires |xs| <= |t.shape|
    ensures Get(t, xs) == Get(t, Pad(xs, |t.shape|))
  {
    var all := Pad(xs, |t.shape|);
    assert Pad(all, |t.shape|) == all;
  }

  // ----- self[i] and self[a:b:c]

  /** What the constructor checks. */
  predicate Built(l: Factored) {
    New(l.A, l.B) == Some(l)
  }

  function Both(a: Option<Tensor>, b: Option<Tensor>): Option<Factored> {
    if a.None? || b.None? then None else New(a.value, b.value)
  }

  function GetInt(l: Factored, i: int): Option<Factored>
    requires Built(l)
  {
    if |ShapeOf(l)| > 2 then Both(Get(l.A, [Single(i)]), Get(l.B, [Single(i)])) else None
  }

  function GetSlice(l: Factored, s: Slice): Option<Factored>
    requires Built(l)
  {
    if |ShapeOf(l)| > 2 then Both(Get(l.A, [Span(s)]), Get(l.B, [Span(s)]))
    else Both(Some(l.A), Get(l.B, [Span(s)]))
  }

  lemma WellFormedIsBuilt(l: Factored)
    requires WellFormed(l)
    ensures Built(l)
  {
  }

  lemma FullAgrees(a: nat, b: nat)
    requires Fits(a, b)
    ensures Agree(a, b, Span(ALL), Span(ALL))
  {
    TakeAll(a, 0);
    TakeAll(b, 0);
  }

  lemma OkPadded(s: Shape, x: Index)
    requires s != []
    ensures OkIndices(s, Pad([x], |s|)) <==> OkIndex(x, s[0])
  {
    hide Pad, OkIndex;
    PadIs([x], |s|);
    var all := Pad([x], |s|);
    assert all[0] == x;
    forall i | 1 <= i < |s|
      ensures OkIndex(all[i], s[i])
    {
      assert all[i] == Span(ALL);
      FullIsOk(s[i]);
    }
  }

  lemma FullIsOk(n: nat)
    ensures OkIndex(Span(ALL), n)
  {
  }

  /** An index for the first batch dimension only, the same one for both factors. */
  lemma FirstAgrees(a: Shape, b: Shape, x: Index)
    requires |a| == |b| && a != [] && AllFit(a, b) && OkIndex(x, a[0]) && OkIndex(x, b[0]) && Agree(a[0], b[0], x, x)
    ensures OkIndices(a, Pad([x], |a|)) && OkIndices(b, Pad([x], |b|))
    ensures AllAgree(a, b, Pad([x], |a|), Pad([x], |b|))
  {
    hide Pad, OkIndex, OkIndices, Agree, Fits;
    OkPadded(a, x);
    OkPadded(b, x);
    PadIs([x], |a|);
    var all := Pad([x], |a|);
    forall i | 0 <= i < |a|
      ensures OkIndex(all[i], a[i]) && OkIndex(all[i], b[i]) && Agree(a[i], b[i], all[i], all[i])
    {
      if i == 0 {
        assert all[0] == x;
      } else {
        assert all[i] == Span(ALL);
        FullIsOk(a[i]);
        FullIsOk(b[i]);
        FullAgrees(a[i], b[i]);
      }
    }
    AgreeAll(a, b, all);
  }

  lemma AgreeAll(a: Shape, b: Shape, xs: seq<Index>)
    requires |a| == |b| && OkIndices(a, xs) && OkIndices(b, xs)
    requires forall i :: 0 <= i < |a| ==> OkIndex(xs[i], a[i]) && OkIndex(xs[i], b[i]) && Agree(a[i], b[i], xs[i], xs[i])
    ensures AllAgree(a, b, xs, xs)
  {
  }

  lemma BatchesFit(l: Factored)
    requires WellFormed(l)
    ensures AllFit(Batch(l.A.shape), Batch(l.B.shape))
  {
  }

  /** Indexing the first dimension of both factors, in terms of the general form. */
  lemma FirstOfBoth(l: Factored, x: Index)
    requires WellFormed(l) && |l.A.shape| > 2
    ensures var xs := Pad([x], |l.A.shape| - 2);
            && Both(Get(l.A, [x]), Get(l.B, [x])) == BothIndexed(l, xs, xs, ALL, ALL)
            && Get(Dense(l), [x]) == Get(Dense(l), xs + [Span(ALL)] + [Span(ALL)])
  {
    hide Pad, Get, New;
    DenseShape(l);
    Shapes(l);
    PadTwo([x], |l.A.shape|);
    GetPadded(l.A, [x]);
    GetPadded(l.B, [x]);
    GetPadded(Dense(l), [x]);
  }

  /** self[i] is accepted for exactly the indices that both factors have, and then it is right. */
  lemma IntExact(l: Factored, i: int)
    requires WellFormed(l)
    ensures Built(l)
    ensures GetInt(l, i).Some? <==> |l.A.shape| > 2 && OkSingle(i, l.A.shape[0]) && OkSingle(i, l.B.shape[0])
    ensures GetInt(l, i).Some? ==>
              WellFormed(GetInt(l, i).value) && Get(Dense(l), [Single(i)]) == Some(Dense(GetInt(l, i).value))
  {
    hide Pad, Get, Dense, BothIndexed, Fits, Elem;
    if |l.A.shape| > 2 {
      var xs := Pad([Single(i)], |l.A.shape| - 2);
      FirstOfBoth(l, Single(i));
      if OkSingle(i, l.A.shape[0]) && OkSingle(i, l.B.shape[0]) {
        BatchesFit(l);
        SingleAgrees(l.A.shape[0], l.B.shape[0], i);
        FirstAgrees(Batch(l.A.shape), Batch(l.B.shape), Single(i));
        IndexBoth(l, xs, xs, ALL, ALL);
      } else {
        NotOk(l.A, Single(i));
        NotOk(l.B, Single(i));
      }
    }
  }

  lemma SingleAgrees(a: nat, b: nat, i: int)
    requires Fits(a, b) && OkSingle(i, a) && OkSingle(i, b)
    ensures Agree(a, b, Single(i), Single(i))
  {
  }

  lemma NotOk(t: Tensor, x: Index)
    requires t.shape != []
    ensures Get(t, [x]).Some? <==> OkIndex(x, t.shape[0])
  {
    OkPadded(t.shape, x);
  }

  /** When a slice of the leading dimension keeps factor A in step: A has the dimension in full, or is broadcast and
      the slice still takes its only entry, or nothing is left anyway. */
  predicate SliceFits(a: nat, b: nat, s: Slice)
    requires s.step > 0
  {
    a == b || Len(s, 1) == 1 || Len(s, b) == 0
  }

  lemma LenOfOne(s: Slice)
    requires s.step > 0
    ensures Len(s, 1) <= 1
  {
    if Len(s, 1) >= 1 {
      assert (1 - First(s, 1) + s.step - 1) / s.step <= 1;
    }
  }

  lemma SpanAgrees(a: nat, b: nat, s: Slice)
    requires Fits(a, b) && s.step > 0
    ensures SliceFits(a, b, s) <==> Fits(Len(s, a), Len(s, b))
    ensures SliceFits(a, b, s) <==> Agree(a, b, Span(s), Span(s))
  {
    hide Len, Pick;
    LenOfOne(s);
    if SliceFits(a, b, s) {
      if Len(s, 1) == 1 {
        PickInRange(s, 1, 0);
      }
      forall m: nat | m < Len(s, b)
        ensures Pick(s, a, if Len(s, a) == 1 then 0 else m) == if a == 1 then 0 else Pick(s, b, m)
      {
        PickInRange(s, b, m);
      }
    }
  }

  lemma PadSnoc(x: Index, n: nat)
    requires n > 0
    ensures Pad([x], n + 1) == Pad([x], n) + [Span(ALL)] && |Pad([x], n)| == n
  {
    hide Pad;
    PadIs([x], n);
    PadIs([x], n + 1);
    assert Fulls(n) == Fulls(n - 1) + [Span(ALL)];
  }

  lemma FirstExtentSnoc(f: Shape, n: nat, x: Slice)
    requires f != [] && x.step > 0 && OkIndices(f, Pad([Span(x)], |f|))
    requires OutShape(f, Pad([Span(x)], |f|)) == [Len(x, f[0])] + f[1..]
    ensures OkIndices(f + [n], Pad([Span(x)], |f| + 1))
    ensures OutShape(f + [n], Pad([Span(x)], |f| + 1)) == [Len(x, f[0])] + (f + [n])[1..]
  {
    hide Len, Pad, OkIndices, OutShape;
    PadSnoc(Span(x), |f|);
    TakeAll(n, 0);
    FullIsOk(n);
    OutSnoc(f, Pad([Span(x)], |f|), n, Span(ALL));
    assert (f + [n])[1..] == f[1..] + [n];
  }

  lemma {:induction false} FirstExtent(s: Shape, x: Slice)
    requires s != [] && x.step > 0
    ensures OkIndices(s, Pad([Span(x)], |s|))
    ensures OutShape(s, Pad([Span(x)], |s|)) == [Len(x, s[0])] + s[1..]
    decreases |s|
  {
    hide Len, OkIndices, OutShape;
    if |s| == 1 {
      assert s == [] + [s[0]] && Pad([Span(x)], 1) == [] + [Span(x)];
      NothingToIndex();
      OutSnoc([], [], s[0], Span(x));
      NoSource();
    } else {
      FirstExtent(Front(s), x);
      FirstExtentSnoc(Front(s), Last(s), x);
      Rejoin(s);
    }
  }

  lemma FitsAfterFirst(a: Shape, b: Shape, m: nat, n: nat)
    requires |a| == |b| && a != [] && AllFit(a, b)
    ensures AllFit([m] + a[1..], [n] + b[1..]) <==> Fits(m, n)
  {
    hide Fits;
    var s, t := [m] + a[1..], [n] + b[1..];
    assert forall i :: 1 <= i < |a| ==> s[i] == a[i] && t[i] == b[i];
    assert s[0] == m && t[0] == n;
  }

  /** self[a:b:c] is accepted for every positive step; the result stands for the slice of the product if and only if
      the leading dimension stays in step. */
  lemma SliceExact(l: Factored, s: Slice)
    requires WellFormed(l)
    ensures Built(l)
    ensures GetSlice(l, s).Some? <==> s.step > 0
    ensures s.step > 0 ==>
              var r := GetSlice(l, s).value;
              (WellFormed(r) && Get(Dense(l), [Span(s)]) == Some(Dense(r))
               <==> |l.A.shape| == 2 || SliceFits(l.A.shape[0], l.B.shape[0], s))
  {
    hide Pad, Get, Dense, BothIndexed, Fits, Elem, Len, New, SliceFits, Built;
    WellFormedIsBuilt(l);
    if s.step <= 0 {
      NotOk(l.A, Span(s));
      NotOk(l.B, Span(s));
    } else if |l.A.shape| == 2 {
      RowSlice(l, s);
    } else {
      var xs := Pad([Span(s)], |l.A.shape| - 2);
      var a, b := Batch(l.A.shape), Batch(l.B.shape);
      FirstOfBoth(l, Span(s));
      BatchesFit(l);
      SpanAgrees(a[0], b[0], s);
      FirstExtent(a, s);
      FirstExtent(b, s);
      FitsAfterFirst(a, b, Len(s, a[0]), Len(s, b[0]));
      SomeWhenSliced(l, s, xs);
      IndexedFits(l, xs, xs, ALL, ALL);
      if SliceFits(a[0], b[0], s) {
        FirstAgrees(a, b, Span(s));
        IndexBoth(l, xs, xs, ALL, ALL);
      }
    }
  }

  lemma SomeWhenSliced(l: Factored, s: Slice, xs: seq<Index>)
    requires WellFormed(l) && |l.A.shape| > 2 && s.step > 0 && xs == Pad([Span(s)], |l.A.shape| - 2)
    ensures CanIndex(l, xs, xs, ALL, ALL) && BothIndexed(l, xs, xs, ALL, ALL).Some?
  {
    hide Pad, Get, OkIndices, OutShape, Len, BothIndexed;
    FirstExtent(Batch(l.A.shape), s);
    FirstExtent(Batch(l.B.shape), s);
    IndexedShapes(l, xs, xs, ALL, ALL);
  }

  /** Two dimensions: the rows of the product are those of B. */
  lemma RowSlice(l: Factored, s: Slice)
    requires WellFormed(l) && |l.A.shape| == 2 && s.step > 0
    ensures Built(l)
    ensures var r := GetSlice(l, s);
            r.Some? && WellFormed(r.value) && Get(Dense(l), [Span(s)]) == Some(Dense(r.value))
  {
    hide Get, Dense, Elem, Len, New, Built;
    WellFormedIsBuilt(l);
    Shapes(l);
    DenseShape(l);
    PadTwoDims(s);
    GetPadded(l.B, [Span(s)]);
    GetPadded(Dense(l), [Span(s)]);
    GetAll(l.A);
    NothingToIndex();
    assert Batch(l.A.shape) == [] && Batch(l.B.shape) == [];
    IndexBoth(l, [], [], s, ALL);
    assert [] + [Span(ALL)] + [Span(ALL)] == [Span(ALL), Span(ALL)];
    assert [] + [Span(s)] + [Span(ALL)] == [Span(s), Span(ALL)];
  }

  lemma PadTwoDims(s: Slice)
    ensures Pad([Span(s)], 2) == [Span(s), Span(ALL)]
  {
    PadIs([Span(s)], 2);
  }

  /** Taking everything changes nothing. */
  lemma GetAll(t: Tensor)
    requires t.Valid() && |t.shape| == 2
    ensures Get(t, [Span(ALL), Span(ALL)]) == Some(t)
  {
    hide Get, At, Len, Pick, Source;
    var xs := [] + [Span(ALL)] + [Span(ALL)];
    var m, n := t.shape[0], t.shape[1];
    assert xs == [Span(ALL), Span(ALL)] && t.shape == [] + [m] + [n];
    NothingToIndex();
    TwoMore([], [], m, n, ALL, ALL);
    TakeAll(m, 0);
    TakeAll(n, 0);
    GetShape(t, xs);
    var u := Get(t, xs).value;
    assert u.shape == t.shape;
    forall ix | InRange(u.shape, ix)
      ensures At(u, ix) == At(t, ix)
    {
      var j, p, q := SplitTwo([], m, n, ix);
      TakeAll(m, p);
      TakeAll(n, q);
      TwoMoreAt(t, [], [], m, n, ALL, ALL, j, p, q);
      assert j == [];
      NoSource();
    }
    Extensional(u, t);
  }

  lemma NoSource()
    ensures OkIndices([], []) && |OutShape([], [])| == 0 && Source([], [], []) == []
  {
  }
}
