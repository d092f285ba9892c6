/** Dense tensors as PyTorch lays them out (row-major), with the indexing, reshaping and permuting that
    convert_lora_to_gguf.py applies to them. They are the reference for the factored tensors. */
module Tensors {
  import opened Text

  type Shape = seq<nat>
  type Ix = seq<nat>

  function Prod(s: Shape): nat {
    if s == [] then 1 else Prod(Front(s)) * Last(s)
  }

  predicate InRange(s: Shape, ix: Ix) {
    |ix| == |s| && forall i :: 0 <= i < |s| ==> ix[i] < s[i]
  }

  // ----- Row-major addresses

  function Flat(s: Shape, ix: Ix): nat
    requires |ix| == |s|
  {
    if s == [] then 0 else Flat(Front(s), Front(ix)) * Last(s) + Last(ix)
  }

  lemma FlatStep(f: nat, p: nat, c: nat, n: nat)
    requires f < p && c < n
    ensures f * n + c < p * n && (f * n + c) / n == f && (f * n + c) % n == c
  {
    assert (f + 1) * n <= p * n;
    assert f * n + c == n * f + c;
    DivModUnique(f * n + c, n, f, c);
  }

  lemma MulMono(a: nat, b: nat, n: nat)
    ensures a <= b ==> a * n <= b * n
  {
  }

  lemma DivModUnique(x: nat, n: nat, q: nat, r: nat)
    requires r < n && x == q * n + r
    ensures x / n == q && x % n == r
  {
    var a := x / n;
    assert x == a * n + x % n;
    MulMono(a + 1, q, n);
    MulMono(q + 1, a, n);
  }

  lemma InRangeSplit(s: Shape, ix: Ix)
    requires s != [] && |ix| == |s|
    ensures InRange(s, ix) <==> InRange(Front(s), Front(ix)) && Last(ix) < Last(s)
  {
    if InRange(Front(s), Front(ix)) && Last(ix) < Last(s) {
      forall i | 0 <= i < |s|
        ensures ix[i] < s[i]
      {
        if i < |s| - 1 {
          assert Front(ix)[i] < Front(s)[i];
        }
      }
    }
  }

  lemma {:induction false} FlatBound(s: Shape, ix: Ix)
    requires InRange(s, ix)
    ensures Flat(s, ix) < Prod(s)
  {
    if s != [] {
      InRangeSplit(s, ix);
      FlatBound(Front(s), Front(ix));
      FlatStep(Flat(Front(s), Front(ix)), Prod(Front(s)), Last(ix), Last(s));
    }
  }

  lemma DivBound(n: nat, p: nat, c: nat)
    requires n < p * c
    ensures c > 0 && n / c < p
  {
  }

  /** The multi-index of an address. */
  function Unflat(s: Shape, n: nat): (ix: Ix)
    requires n < Prod(s)
    ensures |ix| == |s|
  {
    if s == [] then []
    else
      DivBound(n, Prod(Front(s)), Last(s));
      Unflat(Front(s), n / Last(s)) + [n % Last(s)]
  }

  lemma {:induction false} FlatUnflat(s: Shape, n: nat)
    requires n < Prod(s)
    ensures InRange(s, Unflat(s, n)) && Flat(s, Unflat(s, n)) == n
  {
    if s != [] {
      hide InRange;
      var c, f := Last(s), Front(s);
      DivBound(n, Prod(f), c);
      FlatUnflat(f, n / c);
      FrontLast(Unflat(f, n / c), n % c);
      InRangeSplit(s, Unflat(s, n));
      DivMod(n, c);
    }
  }

  lemma DivMod(n: nat, c: nat)
    requires c > 0
    ensures n / c * c + n % c == n && n % c < c
  {
  }

  lemma {:induction false} UnflatFlat(s: Shape, ix: Ix)
    requires InRange(s, ix)
    ensures Flat(s, ix) < Prod(s) && Unflat(s, Flat(s, ix)) == ix
  {
    FlatBound(s, ix);
    if s != [] {
      InRangeSplit(s, ix);
      FlatBound(Front(s), Front(ix));
      FlatStep(Flat(Front(s), Front(ix)), Prod(Front(s)), Last(ix), Last(s));
      UnflatFlat(Front(s), Front(ix));
      assert Front(ix) + [Last(ix)] == ix;
    }
  }

  // ----- Tensors

  datatype Tensor = Tensor(shape: Shape, data: seq<real>) {
    predicate Valid() { |data| == Prod(shape) }
  }

  function At(t: Tensor, ix: Ix): real {
    if InRange(t.shape, ix) && Flat(t.shape, ix) < |t.data| then t.data[Flat(t.shape, ix)] else 0.0
  }

  function Make(s: Shape, f: Ix -> real): (t: Tensor)
    ensures t.Valid() && t.shape == s
  {
    Tensor(s, seq(Prod(s), n requires 0 <= n < Prod(s) => f(Unflat(s, n))))
  }

  lemma MakeAt(s: Shape, f: Ix -> real, ix: Ix)
    requires InRange(s, ix)
    ensures At(Make(s, f), ix) == f(ix)
  {
    UnflatFlat(s, ix);
  }

  /** A tensor is determined by its shape and its elements. */
  lemma Extensional(t: Tensor, u: Tensor)
    requires t.Valid() && u.Valid() && t.shape == u.shape
    requires forall ix :: InRange(t.shape, ix) ==> At(t, ix) == At(u, ix)
    ensures t == u
  {
    hide At;
    forall n | 0 <= n < |t.data|
      ensures t.data[n] == u.data[n]
    {
      FlatUnflat(t.shape, n);
      AtFlat(t, Unflat(t.shape, n));
      AtFlat(u, Unflat(t.shape, n));
    }
  }

  lemma AtFlat(t: Tensor, ix: Ix)
    requires t.Valid() && InRange(t.shape, ix)
    ensures Flat(t.shape, ix) < |t.data| && At(t, ix) == t.data[Flat(t.shape, ix)]
  {
    FlatBound(t.shape, ix);
  }

  // ----- Indexing

  datatype Slice = Slice(start: Option<int>, stop: Option<int>, step: int)

  const ALL := Slice(None, None, 1)

  datatype Index = Single(i: int) | Span(s: Slice) | Dots

  /** A bound of a slice: negative ones count from the end, all are clamped. */
  function Clamp(i: int, n: nat): (r: nat)
    ensures r <= n
  {
    var j := if i < 0 then i + n else i;
    if j < 0 then 0 else if j > n then n else j
  }

  function First(s: Slice, n: nat): (r: nat)
    ensures r <= n
  {
    if s.start.None? then 0 else Clamp(s.start.value, n)
  }

  function Stop(s: Slice, n: nat): (r: nat)
    ensures r <= n
  {
    if s.stop.None? then n else Clamp(s.stop.value, n)
  }

  /** The number of elements a slice takes from `n`. */
  function Len(s: Slice, n: nat): nat
    requires s.step > 0
  {
    var a, b := First(s, n), Stop(s, n);
    if b <= a then 0 else (b - a + s.step - 1) / s.step
  }

  function Pick(s: Slice, n: nat, j: nat): nat
    requires s.step > 0
  {
    First(s, n) + s.step * j
  }

  lemma CeilBound(d: int, k: int, j: nat)
    requires k > 0 && 0 < d && j < (d + k - 1) / k
    ensures k * j < d
  {
    var q := (d + k - 1) / k;
    assert q * k <= d + k - 1;
    MulMono(j + 1, q, k);
    assert (j + 1) * k == k * j + k;
  }

  lemma PickInRange(s: Slice, n: nat, j: nat)
    requires s.step > 0 && j < Len(s, n)
    ensures Pick(s, n, j) < n
  {
    var d, k := Stop(s, n) - First(s, n), s.step;
    CeilBound(d, k, j);
  }

  predicate OkSingle(i: int, n: nat) { 0 <= i + n && i < n }

  function Norm(i: int, n: nat): (r: nat)
    requires OkSingle(i, n)
    ensures r < n
  {
    if i < 0 then i + n else i
  }

  /** What PyTorch accepts for one dimension of extent `n`. */
  predicate OkIndex(x: Index, n: nat) {
    match x
    case Single(i) => OkSingle(i, n)
    case Span(s) => s.step > 0
    case Dots => false
  }

  predicate OkIndices(s: Shape, xs: seq<Index>) {
    |xs| == |s| && forall i :: 0 <= i < |s| ==> OkIndex(xs[i], s[i])
  }

  function OutShape(s: Shape, xs: seq<Index>): Shape
    requires OkIndices(s, xs)
  {
    if s == [] then []
    else
      OkFront(s, xs);
      var init := OutShape(Front(s), Front(xs));
      match Last(xs)
      case Single(i) => init
      case Span(sl) => init + [Len(sl, Last(s))]
  }

  lemma OkFront(s: Shape, xs: seq<Index>)
    requires OkIndices(s, xs) && s != []
    ensures OkIndices(Front(s), Front(xs)) && OkIndex(Last(xs), Last(s))
  {
    forall i | 0 <= i < |s| - 1
      ensures OkIndex(Front(xs)[i], Front(s)[i])
    {
      assert OkIndex(xs[i], s[i]);
    }
  }

  /** Where an element of the result comes from. */
  function Source(s: Shape, xs: seq<Index>, ix: Ix): (r: Ix)
    requires OkIndices(s, xs) && |ix| == |OutShape(s, xs)|
    ensures |r| == |s|
  {
    if s == [] then []
    else
      OkFront(s, xs);
      match Last(xs)
      case Single(i) => Source(Front(s), Front(xs), ix) + [Norm(i, Last(s))]
      case Span(sl) => Source(Front(s), Front(xs), Front(ix)) + [Pick(sl, Last(s), Last(ix))]
  }

  lemma {:induction false} SourceInRange(s: Shape, xs: seq<Index>, ix: Ix)
    requires OkIndices(s, xs) && InRange(OutShape(s, xs), ix)
    ensures InRange(s, Source(s, xs, ix))
  {
    hide InRange;
    if s != [] {
      OkFront(s, xs);
      var out := OutShape(s, xs);
      LengthInRange(out, ix);
      var r := Source(s, xs, ix);
      match Last(xs) {
        case Single(i) => SourceInRange(Front(s), Front(xs), ix);
        case Span(sl) =>
          InRangeSplit(out, ix);
          assert Front(out) == OutShape(Front(s), Front(xs));
          SourceInRange(Front(s), Front(xs), Front(ix));
          PickInRange(sl, Last(s), Last(ix));
      }
      assert Front(r) + [Last(r)] == r;
      SourceFront(s, xs, ix);
      InRangeSplit(s, r);
    } else {
      NoDims();
    }
  }

  lemma NoDims()
    ensures InRange([], [])
  {
  }

  lemma LengthInRange(s: Shape, ix: Ix)
    requires InRange(s, ix)
    ensures |ix| == |s|
  {
  }

  lemma SourceFront(s: Shape, xs: seq<Index>, ix: Ix)
    requires OkIndices(s, xs) && |ix| == |OutShape(s, xs)| && s != []
    ensures OkIndices(Front(s), Front(xs))
    ensures match Last(xs)
            case Single(i) => Front(Source(s, xs, ix)) == Source(Front(s), Front(xs), ix)
            case Span(sl) => Front(Source(s, xs, ix)) == Source(Front(s), Front(xs), Front(ix))
  {
    OkFront(s, xs);
  }

  /** Indices for the leading dimensions; the rest is taken whole. */
  function Pad(xs: seq<Index>, n: nat): (r: seq<Index>)
    ensures |xs| <= n ==> |r| == n
    decreases n - |xs|
  {
    if |xs| >= n then xs else Pad(xs + [Span(ALL)], n)
  }

  /** PyTorch's basic indexing without ellipsis; `None` is an IndexError or ValueError. */
  function Get(t: Tensor, xs: seq<Index>): (r: Option<Tensor>)
    ensures r.Some? ==> r.value.Valid()
  {
    var all := Pad(xs, |t.shape|);
    if |xs| > |t.shape| || !OkIndices(t.shape, all) then None
    else
      var s := OutShape(t.shape, all);
      Some(Make(s, ix => if |ix| == |s| then At(t, Source(t.shape, all, ix)) else 0.0))
  }

  lemma GetAt(t: Tensor, xs: seq<Index>, ix: Ix)
    requires OkIndices(t.shape, xs) && InRange(OutShape(t.shape, xs), ix)
    ensures Get(t, xs).Some? && Get(t, xs).value.shape == OutShape(t.shape, xs)
    ensures At(Get(t, xs).value, ix) == At(t, Source(t.shape, xs, ix))
  {
    hide At;
    var s := OutShape(t.shape, xs);
    MakeAt(s, ix => if |ix| == |s| then At(t, Source(t.shape, xs, ix)) else 0.0, ix);
  }

  // ----- One more dimension

  lemma OkSnoc(s: Shape, xs: seq<Index>, n: nat, x: Index)
    requires |xs| == |s|
    ensures OkIndices(s + [n], xs + [x]) <==> OkIndices(s, xs) && OkIndex(x, n)
  {
    var t, ys := s + [n], xs + [x];
    FrontLast(s, n);
    FrontLast(xs, x);
    if OkIndices(t, ys) {
      OkFront(t, ys);
    }
  }

  lemma SourceSnoc(s: Shape, xs: seq<Index>, n: nat, sl: Slice, ix: Ix, j: nat)
    requires OkIndices(s, xs) && sl.step > 0 && |ix| == |OutShape(s, xs)|
    ensures OkIndices(s + [n], xs + [Span(sl)])
    ensures OutShape(s + [n], xs + [Span(sl)]) == OutShape(s, xs) + [Len(sl, n)]
    ensures Source(s + [n], xs + [Span(sl)], ix + [j]) == Source(s, xs, ix) + [Pick(sl, n, j)]
  {
    hide Len, Pick;
    OkSnoc(s, xs, n, Span(sl));
    FrontLast(s, n);
    FrontLast(xs, Span(sl));
    FrontLast(ix, j);
  }

  lemma OutSnoc(s: Shape, xs: seq<Index>, n: nat, x: Index)
    requires OkIndices(s, xs) && OkIndex(x, n)
    ensures OkIndices(s + [n], xs + [x])
    ensures OutShape(s + [n], xs + [x]) == if x.Single? then OutShape(s, xs) else OutShape(s, xs) + [Len(x.s, n)]
  {
    hide Len;
    OkSnoc(s, xs, n, x);
    FrontLast(s, n);
    FrontLast(xs, x);
  }

  lemma TakeAll(n: nat, j: nat)
    ensures Len(ALL, n) == n && Pick(ALL, n, j) == j
  {
  }

  lemma InRangeSnoc(s: Shape, n: nat, ix: Ix, j: nat)
    ensures InRange(s + [n], ix + [j]) <==> InRange(s, ix) && j < n
  {
    FrontLast(s, n);
    FrontLast(ix, j);
    if |ix| == |s| {
      InRangeSplit(s + [n], ix + [j]);
    }
  }
}
