/** Chains of operations on LoraTorchTensors, as the model converters apply them. */
module LoraProgram {
  import opened Text
  import opened Tensors
  import opened Lora
  import opened LoraIndex
  import opened LoraTuple
  import opened LoraShape
  import opened LoraPermute
  import opened LoraJoin

  /** One operation on values computed before, which it names by their number. */
  datatype Op =
    | AtInt(src: nat, i: int)
    | AtSlice(src: nat, s: Slice)
    | AtTuple(src: nat, xs: seq<Index>)
    | ToShape(src: nat, dims: seq<int>)
    | ToOrder(src: nat, dims: seq<int>)
    | Exchanged(src: nat, d0: int, d1: int)
    | Stacked(srcs: seq<nat>)
    | Concatenated(srcs: seq<nat>)

  predicate Known(op: Op, n: nat) {
    match op
    case Stacked(srcs) => forall i :: 0 <= i < |srcs| ==> srcs[i] < n
    case Concatenated(srcs) => forall i :: 0 <= i < |srcs| ==> srcs[i] < n
    case _ => op.src < n
  }

  function Chosen<T>(env: seq<T>, srcs: seq<nat>): (r: seq<T>)
    requires forall i :: 0 <= i < |srcs| ==> srcs[i] < |env|
    ensures |r| == |srcs|
  {
    seq(|srcs|, i requires 0 <= i < |srcs| => env[srcs[i]])
  }

  predicate AllBuilt(env: seq<Factored>) {
    forall i :: 0 <= i < |env| ==> Built(env[i])
  }

  /** One operation on the factors; `None` is an exception. */
  function Step(env: seq<Factored>, op: Op): Option<Factored>
    requires AllBuilt(env)
  {
    if !Known(op, |env|) then None
    else
      match op
      case AtInt(k, i) => GetInt(env[k], i)
      case AtSlice(k, s) => GetSlice(env[k], s)
      case AtTuple(k, xs) => GetTuple(env[k], xs)
      case ToShape(k, dims) => Reshape(env[k], dims)
      case ToOrder(k, dims) => Permute(env[k], dims)
      case Exchanged(k, d0, d1) => Transpose(env[k], d0, d1)
      case Stacked(srcs) => Stack(Chosen(env, srcs))
      case Concatenated(srcs) => Cat(Chosen(env, srcs))
  }

  /** The same operation on dense tensors. */
  function StepDense(env: seq<Tensor>, op: Op): Option<Tensor> {
    if !Known(op, |env|) then None
    else
      match op
      case AtInt(k, i) => Get(env[k], [Single(i)])
      case AtSlice(k, s) => Get(env[k], [Span(s)])
      case AtTuple(k, xs) =>
        var list := TorchList(xs, |env[k].shape|);
        if list.None? then None else Get(env[k], list.value)
      case ToShape(k, dims) => ReshapeDense(env[k], dims)
      case ToOrder(k, dims) => PermuteDense(env[k], dims)
      case Exchanged(k, d0, d1) => TransposeDense(env[k], d0, d1)
      case Stacked(srcs) => StackDense(Chosen(env, srcs))
      case Concatenated(srcs) => CatDense(Chosen(env, srcs))
  }

  /** Rows and columns are sliced, and every batch dimension that A has is taken whole or by number. */
  predicate TupleSafe(l: Factored, xs: seq<Index>)
    requires Built(l)
  {
    var list := CodeList(xs, |l.A.shape|);
    && list.Some? && list == TorchList(xs, |l.A.shape|)
    && OkIndices(ShapeOf(l), list.value)
    && list.value[|l.A.shape| - 2].Span? && list.value[|l.A.shape| - 1].Span?
    && BatchSafe(Batch(l.A.shape), Batch(l.B.shape), list.value[..|l.A.shape| - 2])
  }

  /** What a caller has to see to. */
  predicate Safe(env: seq<Factored>, op: Op)
    requires AllBuilt(env) && Known(op, |env|)
  {
    match op
    case AtInt(k, i) => true
    case AtSlice(k, s) =>
      s.step > 0 ==> |env[k].A.shape| == 2 || SliceFits(env[k].A.shape[0], env[k].B.shape[0], s)
    case AtTuple(k, xs) => TupleSafe(env[k], xs)
    case ToShape(k, dims) => OneGap(dims)
    case ToOrder(k, dims) => InDims(dims, |env[k].A.shape|)
    case Exchanged(k, d0, d1) => true
    case Stacked(srcs) => true
    case Concatenated(srcs) =>
      |srcs| > 1 && |env[srcs[0]].A.shape| > 2 ==>
        forall i :: 0 <= i < |srcs| ==> env[srcs[i]].A.shape[0] == env[srcs[i]].B.shape[0]
  }

  /** When an operation that is used safely is accepted: PyTorch takes it for the products, and the pairs allow it. */
  predicate Takes(env: seq<Factored>, op: Op)
    requires AllWellFormed(env) && Known(op, |env|)
  {
    match op
    case AtInt(k, i) => |env[k].A.shape| > 2 && OkSingle(i, env[k].A.shape[0]) && OkSingle(i, env[k].B.shape[0])
    case AtSlice(_, s) => s.step > 0
    case AtTuple(_, _) => true
    case ToShape(k, dims) => Reshapable(env[k], dims)
    case ToOrder(k, dims) =>
      var ds := FromEnd(dims, |env[k].A.shape|);
      PermuteDense(Dense(env[k]), ds).Some? && Permutable(env[k], ds)
    case Exchanged(k, d0, d1) => TransposeDense(Dense(env[k]), d0, d1).Some? && Transposable(env[k], d0, d1)
    case Stacked(srcs) =>
      ChosenWellFormed(env, srcs);
      StackDense(Denses(Chosen(env, srcs))).Some? && OneRank(Chosen(env, srcs))
    case Concatenated(srcs) =>
      ChosenWellFormed(env, srcs);
      srcs != [] && CatDense(Denses(Chosen(env, srcs))).Some? && Alike(Chosen(env, srcs))
  }

  lemma ChosenWellFormed(env: seq<Factored>, srcs: seq<nat>)
    requires AllWellFormed(env) && forall i :: 0 <= i < |srcs| ==> srcs[i] < |env|
    ensures AllWellFormed(Chosen(env, srcs))
  {
    hide WellFormed;
  }

  lemma AllAreBuilt(env: seq<Factored>)
    requires AllWellFormed(env)
    ensures AllBuilt(env)
  {
    hide WellFormed, Built;
    forall i | 0 <= i < |env|
      ensures Built(env[i])
    {
      WellFormedIsBuilt(env[i]);
    }
  }

  lemma TupleStep(l: Factored, xs: seq<Index>)
    requires WellFormed(l) && Built(l) && TupleSafe(l, xs)
    ensures Right(l, GetTuple(l, xs), TorchList(xs, |l.A.shape|).value)
  {
    hide GetFull, Right, BatchSafe, CodeList, TorchList;
    TupleExact(l, CodeList(xs, |l.A.shape|).value);
  }

  lemma ChosenDenses(env: seq<Factored>, srcs: seq<nat>)
    requires AllWellFormed(env) && forall i :: 0 <= i < |srcs| ==> srcs[i] < |env|
    ensures AllWellFormed(Chosen(env, srcs)) && Denses(Chosen(env, srcs)) == Chosen(Denses(env), srcs)
  {
    hide WellFormed, Dense;
  }

  lemma CatStep(ls: seq<Factored>)
    requires AllWellFormed(ls) && ls != [] && Built(ls[0]) && Cat(ls).Some?
    requires |ls| > 1 && |ls[0].A.shape| > 2 ==> InStep(ls)
    ensures WellFormed(Cat(ls).value) && CatDense(Denses(ls)) == Some(Dense(Cat(ls).value))
  {
    hide Cat, Dense, CatDense, InStep;
    OneWellFormed(ls, 0);
    if |ls[0].A.shape| == 2 {
      MatrixCatExact(ls);
    } else if |ls| == 1 {
      CatOne(ls);
    } else {
      CatInStep(ls);
    }
  }

  lemma NothingToJoin(ls: seq<Factored>)
    requires ls == []
    ensures Cat(ls).None?
  {
  }

  /** Which operations are accepted. */
  lemma StepAccepted(env: seq<Factored>, op: Op)
    requires AllWellFormed(env) && AllBuilt(env) && Known(op, |env|) && Safe(env, op)
    ensures Step(env, op).Some? <==> Takes(env, op)
  {
    hide Dense, Get, GetInt, GetSlice, GetTuple, Reshape, Permute, Transpose, Stack, Cat, WellFormed, Permutable,
         ReshapeDense, PermuteDense, TransposeDense, StackDense, CatDense, TupleSafe, TorchList, OneGap, InDims, Reshapable, Transposable;
    match op {
      case Stacked(srcs) =>
        ChosenWellFormed(env, srcs);
        StackExact(Chosen(env, srcs));
      case Concatenated(srcs) =>
        ChosenWellFormed(env, srcs);
        if srcs == [] { NothingToJoin(Chosen(env, srcs)); } else { CatAccepted(Chosen(env, srcs)); }
      case AtInt(k, i) => IntExact(env[k], i);
      case AtSlice(k, s) => SliceExact(env[k], s);
      case AtTuple(k, xs) => TupleStep(env[k], xs);
      case ToShape(k, dims) => ReshapeExact(env[k], dims);
      case ToOrder(k, dims) => PermuteExact(env[k], dims);
      case Exchanged(k, d0, d1) => TransposeExact(env[k], d0, d1);
    }
  }

  /** Every accepted operation that is used safely does to the product what it does to the pair. */
  lemma StepPreserves(env: seq<Factored>, op: Op)
    requires AllWellFormed(env) && AllBuilt(env) && Known(op, |env|) && Safe(env, op)
    ensures Step(env, op).Some? ==>
              WellFormed(Step(env, op).value) && StepDense(Denses(env), op) == Some(Dense(Step(env, op).value))
  {
    hide Built, Dense, AllBuilt, Get, GetInt, GetSlice, GetTuple, Reshape, Permute, Transpose, Stack, Cat, WellFormed,
         ReshapeDense, PermuteDense, TransposeDense, StackDense, CatDense, TupleSafe, TorchList, OneGap, InDims;
    if Step(env, op).Some? {
      match op {
        case Stacked(srcs) =>
          ChosenDenses(env, srcs);
          StackExact(Chosen(env, srcs));
        case Concatenated(srcs) =>
          ChosenDenses(env, srcs);
          CatSources(env, srcs);
          CatStep(Chosen(env, srcs));
        case _ =>
          OneStep(env[op.src], op, env);
      }
    }
  }

  lemma CatSources(env: seq<Factored>, srcs: seq<nat>)
    requires AllWellFormed(env) && AllBuilt(env) && Known(Concatenated(srcs), |env|) && Safe(env, Concatenated(srcs))
    requires Cat(Chosen(env, srcs)).Some?
    ensures var ls := Chosen(env, srcs);
            && AllWellFormed(ls) && ls != [] && Built(ls[0])
            && (|ls| > 1 && |ls[0].A.shape| > 2 ==> InStep(ls))
  {
    hide WellFormed, Built;
    ChosenDenses(env, srcs);
  }

  lemma DenseDims(l: Factored)
    requires WellFormed(l)
    ensures |Dense(l).shape| == |l.A.shape|
  {
  }

  lemma OneStep(l: Factored, op: Op, env: seq<Factored>)
    requires AllWellFormed(env) && AllBuilt(env) && Known(op, |env|) && Safe(env, op)
    requires !op.Stacked? && !op.Concatenated? && l == env[op.src] && Step(env, op).Some?
    ensures WellFormed(Step(env, op).value) && StepDense(Denses(env), op) == Some(Dense(Step(env, op).value))
  {
    hide Built, Dense, AllBuilt, Get, GetInt, GetSlice, GetTuple, Reshape, Permute, Transpose, WellFormed,
         ReshapeDense, PermuteDense, TransposeDense, TupleSafe, TorchList, OneGap, InDims, SliceFits;
    OneWellFormed(env, op.src);
    WellFormedIsBuilt(l);
    DenseDims(l);
    assert Denses(env)[op.src] == Dense(l);
    match op {
      case AtInt(k, i) => IntExact(l, i);
      case AtSlice(k, s) => SliceExact(l, s);
      case AtTuple(k, xs) =>
        TupleStep(l, xs);
        TorchSafe(l, xs);
      case ToShape(k, dims) => ReshapeExact(l, dims);
      case ToOrder(k, dims) => PermuteExact(l, dims);
      case Exchanged(k, d0, d1) => TransposeExact(l, d0, d1);
    }
  }

  lemma TorchSafe(l: Factored, xs: seq<Index>)
    requires Built(l) && TupleSafe(l, xs)
    ensures TorchList(xs, |l.A.shape|).Some?
  {
    hide TorchList, CodeList;
  }

  // ----- Whole chains

  /** Every operation adds its result to the values. */
  function Run(env: seq<Factored>, ops: seq<Op>): Option<seq<Factored>>
    decreases |ops|
  {
    if ops == [] then Some(env)
    else if !AllBuilt(env) || Step(env, ops[0]).None? then None
    else Run(env + [Step(env, ops[0]).value], ops[1..])
  }

  function RunDense(env: seq<Tensor>, ops: seq<Op>): Option<seq<Tensor>>
    decreases |ops|
  {
    if ops == [] then Some(env)
    else if StepDense(env, ops[0]).None? then None
    else RunDense(env + [StepDense(env, ops[0]).value], ops[1..])
  }

  /** Every operation of the chain is used safely on what it finds. */
  predicate SafeRun(env: seq<Factored>, ops: seq<Op>)
    decreases |ops|
  {
    ops != [] && AllBuilt(env) ==>
      && (Known(ops[0], |env|) ==> Safe(env, ops[0]))
      && (Step(env, ops[0]).Some? ==> SafeRun(env + [Step(env, ops[0]).value], ops[1..]))
  }

  /** Every operation of the chain is accepted on what it finds. */
  predicate TakesRun(env: seq<Factored>, ops: seq<Op>)
    requires AllWellFormed(env)
    decreases |ops|
  {
    ops == []
    || (&& Known(ops[0], |env|) && Takes(env, ops[0])
        && (AllBuilt(env) && Step(env, ops[0]).Some? && WellFormed(Step(env, ops[0]).value) ==>
              TakesRun(env + [Step(env, ops[0]).value], ops[1..])))
  }

  lemma OneMore(env: seq<Factored>, m: Factored)
    requires AllWellFormed(env) && WellFormed(m)
    ensures AllWellFormed(env + [m]) && Denses(env + [m]) == Denses(env) + [Dense(m)]
  {
    hide WellFormed, Dense;
  }

  /** Main result: let a chain of slices, indices, reshapes, permutations, stacks and concatenations be used safely at each
      step. It is accepted exactly if every operation is, and every pair it computes stands for the tensor that the same chain
      computes from the products. */
  lemma {:induction false} ChainPreserves(env: seq<Factored>, ops: seq<Op>)
    requires AllWellFormed(env) && SafeRun(env, ops)
    ensures Run(env, ops).Some? <==> TakesRun(env, ops)
    ensures Run(env, ops).Some? ==>
              && AllWellFormed(Run(env, ops).value)
              && RunDense(Denses(env), ops) == Some(Denses(Run(env, ops).value))
    decreases |ops|
  {
    hide WellFormed, Dense, Built, Safe, Step, StepDense, AllBuilt, Denses, Takes;
    if ops != [] {
      AllAreBuilt(env);
      KnownWhenAccepted(env, ops[0]);
      if Known(ops[0], |env|) {
        StepAccepted(env, ops[0]);
      }
      if Step(env, ops[0]).Some? {
        StepPreserves(env, ops[0]);
        var m := Step(env, ops[0]).value;
        OneMore(env, m);
        ChainPreserves(env + [m], ops[1..]);
      }
    }
  }

  lemma KnownWhenAccepted(env: seq<Factored>, op: Op)
    requires AllBuilt(env)
    ensures Step(env, op).Some? ==> Known(op, |env|)
  {
  }
}
