/**
 The typing rules of the source language: when each primitive has a value, and the shape of that
 value, in terms of the operands' shapes alone.
 */
module JaxprShapes {
  import opened Wrappers
  import opened Grids
  import opened Linear
  import opened Jaxpr

  function Without(shape: seq<nat>, axis: nat): seq<nat>
    requires axis < |shape|
  {
    shape[..axis] + shape[axis + 1..]
  }

  /** Strictly increasing axes of a shape. */
  predicate AxesOf(axes: seq<nat>, shape: seq<nat>) {
    && (forall i :: 0 <= i < |axes| ==> axes[i] < |shape|)
    && (forall i, j :: 0 <= i < j < |axes| ==> axes[i] < axes[j])
  }

  /** The extents at place i and beyond whose axis is not among the given ones. */
  function Kept(shape: seq<nat>, axes: seq<nat>, i: nat): seq<nat>
    requires i <= |shape|
    decreases |shape| - i
  {
    if i == |shape| then [] else (if i in axes then [] else [shape[i]]) + Kept(shape, axes, i + 1)
  }

  predicate Permutes(perm: seq<nat>, n: nat) {
    && |perm| == n && (forall i :: 0 <= i < n ==> perm[i] < n)
    && forall i, j :: 0 <= i < j < n ==> perm[i] != perm[j]
  }

  /** Contraction: equal extents on the contracted axes, and the free axes of both in order. */
  lemma DotShape(a: Tensor, b: Tensor, lc: nat, rc: nat)
    requires (a.rank <= 2 || lc == a.rank - 1) && b.rank <= 2
    ensures EvalDot(a, b, lc, rc).Some? <==> lc < a.rank && rc < b.rank && Shape(a)[lc] == Shape(b)[rc]
    ensures EvalDot(a, b, lc, rc).Some? ==>
      Shape(EvalDot(a, b, lc, rc).value) == Without(Shape(a), lc) + Without(Shape(b), rc)
  {
    hide Product, RowReshape;
    if lc < a.rank && rc < b.rank {
      DotExtents(a, b, lc, rc);
    }
  }

  lemma DotExtents(a: Tensor, b: Tensor, lc: nat, rc: nat)
    requires (a.rank <= 2 || lc == a.rank - 1) && b.rank <= 2 && lc < a.rank && rc < b.rank
    ensures LeftOperand(a, lc).Some? && LeftOperand(a, lc).value.c == Shape(a)[lc]
    ensures RightOperand(b, rc).Some? && RightOperand(b, rc).value.r == Shape(b)[rc]
    ensures a.rank == 2 ==> LeftOperand(a, lc).value.r == Shape(a)[1 - lc]
    ensures b.rank == 2 ==> RightOperand(b, rc).value.c == Shape(b)[1 - rc]
  {
  }

  /** Reshape: the same number of entries. */
  lemma ReshapeShape(t: Tensor, sizes: seq<nat>)
    ensures EvalReshape(t, sizes).Some? <==> Prod(Shape(t)) == Prod(sizes)
    ensures EvalReshape(t, sizes).Some? ==> Shape(EvalReshape(t, sizes).value) == sizes
  {
    hide RowReshape, Prod;
    ShapeSize(sizes);
    ShapeSize(Shape(t));
    ShapeGrid(t);
  }

  /** The grid of a tensor is that of its shape. */
  lemma ShapeGrid(t: Tensor)
    ensures t.g.r == Rows(Shape(t)) && t.g.c == Cols(Shape(t))
  {
    assert t.rank > 2 ==> Shape(t)[..|Shape(t)| - 1] == t.lead;
  }

  /** Entrywise operations: equal shapes keep theirs, and a scalar takes the other's. */
  lemma BinaryShape(S: Scalars, op: BinOp, a: Tensor, b: Tensor)
    ensures Shape(a) == Shape(b) ==> EvalBinary(S, op, a, b).Some? && Shape(EvalBinary(S, op, a, b).value) == Shape(a)
    ensures Shape(b) == [] ==> EvalBinary(S, op, a, b).Some? && Shape(EvalBinary(S, op, a, b).value) == Shape(a)
    ensures Shape(a) == [] ==> EvalBinary(S, op, a, b).Some? && Shape(EvalBinary(S, op, a, b).value) == Shape(b)
  {
    hide Broadcast, BinScalar;
    ShapeGrid(a);
    ShapeGrid(b);
    if Shape(a) == Shape(b) && a.rank > 2 {
      assert Shape(a)[..a.rank - 1] == a.lead && Shape(b)[..b.rank - 1] == b.lead;
    }
  }

  /** Squeeze: axes of extent 1 are dropped. */
  lemma SqueezeShape(t: Tensor, axes: seq<nat>)
    requires t.rank <= 2
    ensures EvalSqueeze(t, axes).Some? <==> AxesOf(axes, Shape(t)) && forall i :: 0 <= i < |axes| ==> Shape(t)[axes[i]] == 1
    ensures EvalSqueeze(t, axes).Some? ==> Shape(EvalSqueeze(t, axes).value) == Kept(Shape(t), axes, 0)
  {
    hide Flip, AxesOf, Kept;
    AxesUpToTwo(axes, Shape(t));
    KeptUpToTwo(Shape(t), axes);
    ExtentsOne(t, axes);
  }

  lemma ExtentsOne(t: Tensor, axes: seq<nat>)
    requires t.rank <= 2
    ensures AxesOf(axes, Shape(t)) ==>
      ((forall i :: 0 <= i < |axes| ==> Shape(t)[axes[i]] == 1) <==>
       (0 in axes ==> (if t.rank == 1 then t.g.c else t.g.r) == 1) && (1 in axes ==> t.g.c == 1))
  {
    hide Kept;
    AxesUpToTwo(axes, Shape(t));
    if AxesOf(axes, Shape(t)) {
      if axes == [0, 1] {
        assert axes[0] == 0 && axes[1] == 1;
      } else if |axes| > 0 {
        assert axes == [axes[0]];
      }
    }
  }

  lemma FewAxes(axes: seq<nat>, shape: seq<nat>)
    requires AxesOf(axes, shape) && |shape| <= 2
    ensures |axes| <= 2
  {
    if |axes| > 2 {
      AxisAtLeast(axes, shape, 2);
    }
  }

  lemma {:induction false} AxisAtLeast(axes: seq<nat>, shape: seq<nat>, i: nat)
    requires AxesOf(axes, shape) && i < |axes|
    ensures i <= axes[i] < |shape|
  {
    if i > 0 {
      AxisAtLeast(axes, shape, i - 1);
    }
  }

  lemma AxesUpToTwo(axes: seq<nat>, shape: seq<nat>)
    requires |shape| <= 2
    ensures AxesOf(axes, shape) <==>
      axes == [] || (axes == [0] && |shape| >= 1) || (axes == [1] && |shape| == 2) || (axes == [0, 1] && |shape| == 2)
  {
    if AxesOf(axes, shape) {
      FewAxes(axes, shape);
      assert |axes| == 1 ==> axes == [axes[0]];
      assert |axes| == 2 ==> axes == [axes[0], axes[1]];
    }
  }

  lemma KeptUpToTwo(shape: seq<nat>, axes: seq<nat>)
    requires |shape| <= 2
    ensures |shape| == 0 ==> Kept(shape, axes, 0) == []
    ensures |shape| == 1 ==> Kept(shape, axes, 0) == if 0 in axes then [] else [shape[0]]
    ensures |shape| == 2 ==> Kept(shape, axes, 0) == (if 0 in axes then [] else [shape[0]]) + (if 1 in axes then [] else [shape[1]])
  {
    if |shape| == 1 {
      assert Kept(shape, axes, 1) == [];
    } else if |shape| == 2 {
      assert Kept(shape, axes, 2) == [];
      assert Kept(shape, axes, 1) == if 1 in axes then [] else [shape[1]];
    }
  }

  /** Transpose: any permutation of the axes. */
  lemma TransposeShape(t: Tensor, perm: seq<nat>)
    requires t.rank <= 2
    ensures EvalTranspose(t, perm).Some? <==> Permutes(perm, t.rank)
    ensures EvalTranspose(t, perm).Some? ==>
      |Shape(EvalTranspose(t, perm).value)| == t.rank && forall i :: 0 <= i < t.rank ==> Shape(EvalTranspose(t, perm).value)[i] == Shape(t)[perm[i]]
  {
    hide Flip;
    if Permutes(perm, t.rank) {
      assert t.rank == 1 ==> perm == [perm[0]];
      assert t.rank == 2 ==> perm == [perm[0], perm[1]] && perm[0] != perm[1];
    }
  }

  /** Slice: bounds in order on every axis. */
  lemma SliceShape(t: Tensor, start: seq<nat>, limit: seq<nat>)
    requires 1 <= t.rank <= 2
    ensures EvalSlice(t, start, limit).Some? <==>
      |start| == |limit| == t.rank && forall i :: 0 <= i < t.rank ==> start[i] <= limit[i] <= Shape(t)[i]
    ensures EvalSlice(t, start, limit).Some? ==>
      forall i :: 0 <= i < t.rank ==> Shape(EvalSlice(t, start, limit).value)[i] == limit[i] - start[i]
  {
    hide Window;
  }

  /** Broadcast: the operand's axes are mapped in order, each to an axis of its extent, or repeated. */
  lemma BroadcastShape(t: Tensor, shape: seq<nat>, dims: seq<nat>)
    requires t.rank <= 2 && |shape| <= 2
    ensures EvalBroadcast(t, shape, dims).Some? <==>
      |dims| == t.rank && AxesOf(dims, shape) && Mapped(t, shape, dims)
    ensures EvalBroadcast(t, shape, dims).Some? ==> Shape(EvalBroadcast(t, shape, dims).value) == shape
  {
    hide Flip, Stretch, AxesOf;
    AxesUpToTwo(dims, shape);
    assert |shape| == 1 ==> shape == [shape[0]];
    assert |shape| == 2 ==> shape == [shape[0], shape[1]];
    if t.rank == 1 && |dims| == 1 {
      assert Mapped(t, shape, dims) <==> dims[0] < |shape| && (t.g.c == 1 || t.g.c == shape[dims[0]]);
    } else if t.rank == 2 && dims == [0, 1] && |shape| == 2 {
      assert dims[0] == 0 && dims[1] == 1;
      assert Mapped(t, shape, dims) <==> (t.g.r == 1 || t.g.r == shape[0]) && (t.g.c == 1 || t.g.c == shape[1]);
    }
  }

  /** The mapped axes fit. */
  predicate Mapped(t: Tensor, shape: seq<nat>, dims: seq<nat>)
    requires |dims| == t.rank
  {
    forall i :: 0 <= i < |dims| ==> dims[i] < |shape| && (Shape(t)[i] == 1 || Shape(t)[i] == shape[dims[i]])
  }

  function SumAt(ts: seq<Tensor>, dim: nat): nat
    requires forall k :: 0 <= k < |ts| ==> dim < ts[k].rank
  {
    if |ts| == 0 then 0 else Shape(ts[0])[dim] + SumAt(ts[1..], dim)
  }

  /** Concatenation: equal ranks, and equal extents on all axes but one, which is added up. */
  lemma ConcatenateShape(ts: seq<Tensor>, dim: nat)
    requires |ts| > 0 && ts[0].rank <= 2
    ensures EvalConcatenate(ts, dim).Some? <==>
      && dim < ts[0].rank && (forall k :: 0 <= k < |ts| ==> ts[k].rank == ts[0].rank)
      && forall k, i :: 0 <= k < |ts| && 0 <= i < ts[0].rank && i != dim ==> Shape(ts[k])[i] == Shape(ts[0])[i]
    ensures EvalConcatenate(ts, dim).Some? ==>
      var s := Shape(EvalConcatenate(ts, dim).value);
      |s| == ts[0].rank && s[dim] == SumAt(ts, dim) && forall i :: 0 <= i < |s| && i != dim ==> s[i] == Shape(ts[0])[i]
  {
    hide Stack, Beside, SumAt;
    if dim < ts[0].rank && forall k :: 0 <= k < |ts| ==> ts[k].rank == ts[0].rank {
      ConcatenateSides(ts, dim);
      if dim == ts[0].rank - 1 {
        if SameRows(Sheets(ts)) {
          BesideSum(ts, dim);
        }
      } else if SameCols(Sheets(ts)) {
        StackSum(ts, dim);
      }
    }
  }

  lemma ConcatenateSides(ts: seq<Tensor>, dim: nat)
    requires |ts| > 0 && dim < ts[0].rank <= 2 && forall k :: 0 <= k < |ts| ==> ts[k].rank == ts[0].rank
    ensures (forall k, i :: 0 <= k < |ts| && 0 <= i < ts[0].rank && i != dim ==> Shape(ts[k])[i] == Shape(ts[0])[i])
       <==> if dim == ts[0].rank - 1 then SameRows(Sheets(ts)) else SameCols(Sheets(ts))
  {
    if dim == 1 && !SameRows(Sheets(ts)) {
      var k :| 0 <= k < |ts| && Sheets(ts)[k].r != Sheets(ts)[0].r;
      assert Shape(ts[k])[0] != Shape(ts[0])[0];
    }
    if dim == 0 && ts[0].rank == 2 && !SameCols(Sheets(ts)) {
      var k :| 0 <= k < |ts| && Sheets(ts)[k].c != Sheets(ts)[0].c;
      assert Shape(ts[k])[1] != Shape(ts[0])[1];
    }
  }

  lemma {:induction false} StackSum(ts: seq<Tensor>, dim: nat)
    requires |ts| > 0 && dim == 0 && (forall k :: 0 <= k < |ts| ==> ts[k].rank == 2) && SameCols(Sheets(ts))
    ensures Stack(Sheets(ts)).r == SumAt(ts, dim)
  {
    assert Sheets(ts)[1..] == Sheets(ts[1..]);
    if |ts| == 1 {
      assert SumAt(ts[1..], dim) == 0;
    } else {
      StackSum(ts[1..], dim);
    }
  }

  lemma {:induction false} BesideSum(ts: seq<Tensor>, dim: nat)
    requires |ts| > 0 && 1 <= ts[0].rank <= 2 && dim == ts[0].rank - 1
    requires (forall k :: 0 <= k < |ts| ==> ts[k].rank == ts[0].rank) && SameRows(Sheets(ts))
    ensures Beside(Sheets(ts)).c == SumAt(ts, dim)
  {
    FlippedSum(ts, dim);
  }

  lemma {:induction false} FlippedSum(ts: seq<Tensor>, dim: nat)
    requires |ts| > 0 && 1 <= ts[0].rank <= 2 && dim == ts[0].rank - 1
    requires (forall k :: 0 <= k < |ts| ==> ts[k].rank == ts[0].rank) && SameRows(Sheets(ts))
    ensures Stack(FlipAll(Sheets(ts))).r == SumAt(ts, dim)
  {
    assert FlipAll(Sheets(ts))[1..] == FlipAll(Sheets(ts[1..]));
    if |ts| == 1 {
      assert SumAt(ts[1..], dim) == 0;
    } else {
      FlippedSum(ts[1..], dim);
    }
  }

  /** Literals have their values, and every primitive takes its number of operands, unbatched and unstrided. */
  lemma Operands(S: Scalars, env: Env, x: real, b: bool, t: Tensor, u: Tensor)
    ensures Read(env, Lit(x)) == Some(Num(Scalar(x))) && Read(env, LitFlag(b)) == Some(Flag(b))
    ensures forall op :: EvalNumeric(S, Unary(op), [t]).Some?
    ensures forall y :: EvalNumeric(S, IntegerPow(y), [t]).Some?
    ensures EvalNumeric(S, ConvertElementType, [t]) == Some(t)
    ensures forall op :: EvalNumeric(S, Binary(op), [t, u]) == EvalBinary(S, op, t, u)
    ensures forall lc, rc :: EvalNumeric(S, DotGeneral(lc, rc, false), [t, u]) == EvalDot(t, u, lc, rc)
    ensures forall sizes :: EvalNumeric(S, Reshape(sizes), [t]) == EvalReshape(t, sizes)
    ensures forall shape, dims :: EvalNumeric(S, BroadcastInDim(shape, dims), [t]) == EvalBroadcast(t, shape, dims)
    ensures forall axes :: EvalNumeric(S, Squeeze(axes), [t]) == EvalSqueeze(t, axes)
    ensures forall perm :: EvalNumeric(S, Transpose(perm), [t]) == EvalTranspose(t, perm)
    ensures forall start, limit :: EvalNumeric(S, Slice(start, limit, false), [t]) == EvalSlice(t, start, limit)
    ensures forall dim :: EvalNumeric(S, Concatenate(dim), [t, u]) == EvalConcatenate([t, u], dim)
  {
    hide EvalBinary, EvalDot, EvalReshape, EvalBroadcast, EvalSqueeze, EvalTranspose, EvalSlice, EvalConcatenate;
  }

  /** A select takes its first case on false and its second on true. */
  lemma SelectPicks(S: Scalars, b: bool, t: Tensor, u: Tensor)
    requires Shape(t) == Shape(u)
    ensures EvalPrim(S, SelectN, [Flag(b), Num(t), Num(u)]) == Some(Num(if b then u else t))
  {
  }
}
