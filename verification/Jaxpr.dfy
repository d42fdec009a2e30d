/**
 The source language of both exporters: jaxprs over tensors, with nested calls, and their
 evaluator. Scalar functions that no shape depends on are parameters. A tensor of rank above two
 is a matrix of its last axis; entrywise operations, reshapes and contractions with a matrix or a
 vector have a meaning on it.
 */
module Jaxpr {
  import opened Wrappers
  import opened Grids
  import opened Linear

  datatype UnOp = Neg | Tanh | Logistic | Exp | Log | Sqrt | Sin | Cos | Tan
  datatype BinOp = AddOp | SubOp | MulOp | DivOp | MaxOp | PowOp

  datatype Scalars = Scalars(un: (UnOp, real) -> real, div: (real, real) -> real, pow: (real, real) -> real)

  function BinScalar(S: Scalars, op: BinOp, x: real, y: real): real {
    match op
    case AddOp => x + y
    case SubOp => x - y
    case MulOp => x * y
    case DivOp => S.div(x, y)
    case MaxOp => if x < y then y else x
    case PowOp => S.pow(x, y)
  }

  /** The arithmetic that is not a parameter: subtraction undoes addition, the maximum is the larger operand. */
  lemma ScalarLaws(S: Scalars, x: real, y: real)
    ensures BinScalar(S, AddOp, x, y) == BinScalar(S, AddOp, y, x) && BinScalar(S, AddOp, x, 0.0) == x
    ensures BinScalar(S, SubOp, BinScalar(S, AddOp, x, y), y) == x && BinScalar(S, SubOp, x, 0.0) == x
    ensures BinScalar(S, MulOp, x, BinScalar(S, AddOp, y, 1.0)) == BinScalar(S, AddOp, BinScalar(S, MulOp, x, y), x)
    ensures BinScalar(S, MaxOp, x, y) >= x && BinScalar(S, MaxOp, x, y) >= y && BinScalar(S, MaxOp, x, y) in {x, y}
    ensures BinScalar(S, DivOp, x, y) == S.div(x, y) && BinScalar(S, PowOp, x, y) == S.pow(x, y)
  {
  }

  function Scalarwise(S: Scalars, op: BinOp): (real, real) -> real {
    (x, y) => BinScalar(S, op, x, y)
  }

  /** x to the integer power y, by repeated multiplication. */
  function IntPow(S: Scalars, x: real, y: int): real
    decreases if y < 0 then -y + 1 else y
  {
    if y < 0 then S.div(1.0, IntPow(S, x, -y))
    else if y == 0 then 1.0
    else if y == 1 then x
    else IntPow(S, x, y - 1) * x
  }

  /** The floating-point power function agrees with integer powers. */
  ghost predicate PowLaw(S: Scalars) {
    forall x: real, y: int :: S.pow(x, y as real) == IntPow(S, x, y)
  }

  lemma {:induction false} IntPowByDivision(S: Scalars, T: Scalars, x: real, y: int)
    requires S.div == T.div
    ensures IntPow(S, x, y) == IntPow(T, x, y)
    decreases if y < 0 then -y + 1 else y
  {
    if y < 0 {
      IntPowByDivision(S, T, x, -y);
    } else if y > 1 {
      IntPowByDivision(S, T, x, y - 1);
    }
  }

  /** Whatever division does, some power function agrees with it. */
  lemma PowLawMet(S: Scalars) returns (T: Scalars)
    ensures PowLaw(T) && T.un == S.un && T.div == S.div
  {
    T := S.(pow := (x, y: real) => IntPow(S, x, y.Floor));
    forall x: real, y: int ensures T.pow(x, y as real) == IntPow(T, x, y) {
      IntPowByDivision(S, T, x, y);
    }
  }

  // ---------------------------------------------------------------- tensors

  /** The number of entries of a shape. */
  function Prod(shape: seq<nat>): nat {
    if |shape| == 0 then 1 else Prod(shape[..|shape| - 1]) * shape[|shape| - 1]
  }

  /**
   A tensor of rank 0 is a single cell and one of rank 1 a single row; one of rank above two has
   its last axis for columns and the others, in row-major order, for rows.
   */
  datatype RawTensor = Tensor(rank: nat, g: Grid<real>, lead: seq<nat> := [])

  predicate Shaped(t: RawTensor) {
    && (t.rank == 0 ==> IsCell(t.g))
    && (t.rank == 1 ==> t.g.r == 1)
    && (if t.rank <= 2 then t.lead == [] else |t.lead| == t.rank - 1 && Prod(t.lead) == t.g.r)
  }

  type Tensor = t: RawTensor | Shaped(t) witness Tensor(0, Cell(0.0))

  function Shape(t: Tensor): (shape: seq<nat>)
    ensures |shape| == t.rank
  {
    if t.rank == 0 then [] else if t.rank == 1 then [t.g.c] else if t.rank == 2 then [t.g.r, t.g.c] else t.lead + [t.g.c]
  }

  /** The grid that holds a tensor of a shape. */
  function Rows(shape: seq<nat>): nat {
    if |shape| <= 1 then 1 else if |shape| == 2 then shape[0] else Prod(shape[..|shape| - 1])
  }

  function Cols(shape: seq<nat>): nat {
    if |shape| == 0 then 1 else shape[|shape| - 1]
  }

  function Shaping(shape: seq<nat>, g: Grid<real>): (t: Tensor)
    requires g.r == Rows(shape) && g.c == Cols(shape)
    ensures Shape(t) == shape && t.g == g && t.rank == |shape|
  {
    var t := Tensor(|shape|, g, if |shape| <= 2 then [] else shape[..|shape| - 1]);
    assert |shape| > 0 ==> shape == shape[..|shape| - 1] + [shape[|shape| - 1]];
    assert |shape| == 2 ==> shape == [shape[0], shape[1]];
    t
  }

  lemma ShapeSize(shape: seq<nat>)
    ensures Rows(shape) * Cols(shape) == Prod(shape)
  {
    if |shape| == 1 {
      assert Prod(shape[..0]) == 1;
    } else if |shape| == 2 {
      assert shape[..1] == [shape[0]] && shape[..1][..0] == [];
      assert Prod(shape[..1]) == Prod(shape[..1][..0]) * shape[0];
    }
  }

  function Scalar(x: real): Tensor {
    Tensor(0, Cell(x))
  }

  function Column<T>(g: Grid<T>, j: nat): (v: seq<T>)
    requires j < g.c
    ensures |v| == g.r && forall i :: 0 <= i < g.r ==> v[i] == g.at[i][j]
  {
    seq(g.r, i requires 0 <= i < g.r => g.at[i][j])
  }

  function Product(a: Grid<real>, b: Grid<real>): (m: Grid<real>)
    requires a.c == b.r
    ensures m.r == a.r && m.c == b.c
    ensures forall i, j :: 0 <= i < m.r && 0 <= j < m.c ==> m.at[i][j] == Dot(a.at[i], Column(b, j))
  {
    Grid(a.r, b.c, seq(a.r, i requires 0 <= i < a.r => seq(b.c, j requires 0 <= j < b.c => Dot(a.at[i], Column(b, j)))))
  }

  // ---------------------------------------------------------------- primitives

  datatype Prim =
    | Unary(un: UnOp)
    | Binary(bin: BinOp)
    | IntegerPow(y: int)
    | DotGeneral(lc: nat, rc: nat, batched: bool)
    | ConvertElementType
    | Reshape(newSizes: seq<nat>)
    | BroadcastInDim(shape: seq<nat>, dims: seq<nat>)
    | Squeeze(axes: seq<nat>)
    | Concatenate(dim: nat)
    | Transpose(perm: seq<nat>)
    | Slice(start: seq<nat>, limit: seq<nat>, strided: bool)
    | SelectN
    | Other(name: string)

  datatype Value = Num(t: Tensor) | Flag(b: bool)

  function ValueShape(v: Value): seq<nat> {
    if v.Num? then Shape(v.t) else []
  }

  /** The leading axes agree, or one operand is a row or a scalar. */
  predicate LeadsFit(a: Tensor, b: Tensor) {
    a.lead == b.lead || (b.lead == [] && b.g.r == 1) || (a.lead == [] && a.g.r == 1)
  }

  function Entrywise(S: Scalars, op: BinOp, a: Tensor, b: Tensor): Tensor
    requires LeadsFit(a, b) && Compatible(a.g, b.g)
  {
    Tensor(Max(a.rank, b.rank), Broadcast(Scalarwise(S, op), a.g, b.g), if |a.lead| > 0 then a.lead else b.lead)
  }

  function EvalBinary(S: Scalars, op: BinOp, a: Tensor, b: Tensor): Option<Tensor> {
    if (a.rank == b.rank || a.rank == 0 || b.rank == 0) && LeadsFit(a, b) && Compatible(a.g, b.g) then
      Some(Entrywise(S, op, a, b))
    else None
  }

  /** The operand with its contracted axis as columns. */
  function LeftOperand(a: Tensor, lc: nat): Option<Grid<real>> {
    if a.rank == 0 || lc >= a.rank || (a.rank > 2 && lc != a.rank - 1) then None
    else Some(if a.rank == 2 && lc == 0 then Flip(a.g) else a.g)
  }

  /** The operand with its contracted axis as rows. */
  function RightOperand(b: Tensor, rc: nat): Option<Grid<real>> {
    if b.rank == 0 || b.rank > 2 || rc >= b.rank then None
    else Some(if b.rank == 1 || rc == 1 then Flip(b.g) else b.g)
  }

  /** A product as a tensor: the free axes of a, then that of a matrix on the right. */
  function Contracted(a: Tensor, m: Grid<real>, rank: nat): Tensor
    requires a.rank > 0 && 1 <= rank <= 2 && (rank == 1 ==> m.c == 1)
    requires m.r == a.g.r || a.rank == 2
  {
    if rank == 2 then Tensor(a.rank, m, a.lead)
    else if a.rank == 1 then Tensor(0, m)
    else if a.rank == 2 then Tensor(1, Flip(m))
    else
      ShapeSize(a.lead);
      Shaping(a.lead, RowReshape(m, Rows(a.lead), Cols(a.lead)))
  }

  /** Contraction of axis lc of a with axis rc of b: the free axes of a, then those of b. */
  function EvalDot(a: Tensor, b: Tensor, lc: nat, rc: nat): Option<Tensor> {
    var l :- LeftOperand(a, lc);
    var r :- RightOperand(b, rc);
    if l.c != r.r then None
    else Some(Contracted(a, Product(l, r), b.rank))
  }

  function EvalReshape(t: Tensor, sizes: seq<nat>): Option<Tensor> {
    if Size(t.g) == Rows(sizes) * Cols(sizes) then Some(Shaping(sizes, RowReshape(t.g, Rows(sizes), Cols(sizes)))) else None
  }

  /** The operand laid along the axes of the result it is mapped to. */
  function Laid(t: Tensor, shape: seq<nat>, dims: seq<nat>): Option<Grid<real>> {
    if |shape| > 2 || |dims| != t.rank then None
    else if t.rank == 0 then Some(t.g)
    else if t.rank == 1 && |shape| == 2 && dims == [0] then Some(Flip(t.g))
    else if t.rank == 1 && dims == [|shape| - 1] then Some(t.g)
    else if t.rank == 2 && |shape| == 2 && dims == [0, 1] then Some(t.g)
    else None
  }

  function EvalBroadcast(t: Tensor, shape: seq<nat>, dims: seq<nat>): Option<Tensor> {
    var g :- Laid(t, shape, dims);
    if Fits(g.r, Rows(shape)) && Fits(g.c, Cols(shape)) then
      Some(Tensor(|shape|, Stretch(g, Rows(shape), Cols(shape))))
    else None
  }

  function EvalSqueeze(t: Tensor, axes: seq<nat>): Option<Tensor> {
    if axes == [] then Some(t)
    else if t.rank == 2 && axes == [0] && t.g.r == 1 then Some(Tensor(1, t.g))
    else if t.rank == 2 && axes == [1] && t.g.c == 1 then Some(Tensor(1, Flip(t.g)))
    else if t.rank == 2 && axes == [0, 1] && IsCell(t.g) then Some(Tensor(0, t.g))
    else if t.rank == 1 && axes == [0] && t.g.c == 1 then Some(Tensor(0, t.g))
    else None
  }

  function Sheets(ts: seq<Tensor>): (gs: seq<Grid<real>>)
    ensures |gs| == |ts| && forall k :: 0 <= k < |ts| ==> gs[k] == ts[k].g
  {
    seq(|ts|, k requires 0 <= k < |ts| => ts[k].g)
  }

  predicate SameRank(ts: seq<Tensor>) {
    |ts| > 0 && forall k :: 0 <= k < |ts| ==> ts[k].rank == ts[0].rank
  }

  predicate SameRows<T>(gs: seq<Grid<T>>) {
    |gs| > 0 && forall k :: 0 <= k < |gs| ==> gs[k].r == gs[0].r
  }

  predicate SameCols<T>(gs: seq<Grid<T>>) {
    |gs| > 0 && forall k :: 0 <= k < |gs| ==> gs[k].c == gs[0].c
  }

  function EvalConcatenate(ts: seq<Tensor>, dim: nat): Option<Tensor> {
    if !SameRank(ts) || dim >= ts[0].rank || ts[0].rank > 2 then None
    else if dim == ts[0].rank - 1 then
      if SameRows(Sheets(ts)) then Some(Tensor(ts[0].rank, Beside(Sheets(ts)))) else None
    else
      if SameCols(Sheets(ts)) then Some(Tensor(2, Stack(Sheets(ts)))) else None
  }

  function EvalTranspose(t: Tensor, perm: seq<nat>): Option<Tensor> {
    if t.rank == 2 && perm == [1, 0] then Some(Tensor(2, Flip(t.g)))
    else if (t.rank == 0 && perm == []) || (t.rank == 1 && perm == [0]) || (t.rank == 2 && perm == [0, 1]) then Some(t)
    else None
  }

  function EvalSlice(t: Tensor, start: seq<nat>, limit: seq<nat>): Option<Tensor> {
    if t.rank == 1 && |start| == |limit| == 1 && start[0] <= limit[0] <= t.g.c then
      Some(Tensor(1, Window(t.g, 0, 1, start[0], limit[0])))
    else if t.rank == 2 && |start| == |limit| == 2 && start[0] <= limit[0] <= t.g.r && start[1] <= limit[1] <= t.g.c then
      Some(Tensor(2, Window(t.g, start[0], limit[0], start[1], limit[1])))
    else None
  }

  function Numbers(vs: seq<Value>): Option<seq<Tensor>> {
    if |vs| == 0 then Some([])
    else if vs[0].Flag? then None
    else
      var rest :- Numbers(vs[1..]);
      Some([vs[0].t] + rest)
  }

  function EvalNumeric(S: Scalars, p: Prim, ts: seq<Tensor>): Option<Tensor> {
    match p
    case Unary(op) =>
      if |ts| == 1 then Some(ts[0].(g := Map(x => S.un(op, x), ts[0].g))) else None
    case Binary(op) =>
      if |ts| == 2 then EvalBinary(S, op, ts[0], ts[1]) else None
    case IntegerPow(y) =>
      if |ts| == 1 then Some(ts[0].(g := Map(x => IntPow(S, x, y), ts[0].g))) else None
    case DotGeneral(lc, rc, batched) =>
      if |ts| == 2 && !batched then EvalDot(ts[0], ts[1], lc, rc) else None
    case ConvertElementType =>
      if |ts| == 1 then Some(ts[0]) else None
    case Reshape(sizes) =>
      if |ts| == 1 then EvalReshape(ts[0], sizes) else None
    case BroadcastInDim(shape, dims) =>
      if |ts| == 1 then EvalBroadcast(ts[0], shape, dims) else None
    case Squeeze(axes) =>
      if |ts| == 1 then EvalSqueeze(ts[0], axes) else None
    case Concatenate(dim) =>
      EvalConcatenate(ts, dim)
    case Transpose(perm) =>
      if |ts| == 1 then EvalTranspose(ts[0], perm) else None
    case Slice(start, limit, strided) =>
      if |ts| == 1 && !strided then EvalSlice(ts[0], start, limit) else None
    case SelectN => None
    case Other(_) => None
  }

  /** select_n picks case 1 on true and case 0 on false. */
  function EvalPrim(S: Scalars, p: Prim, args: seq<Value>): Option<Value> {
    if p.SelectN? then
      if |args| == 3 && args[0].Flag? && args[1].Num? && args[2].Num? && Shape(args[1].t) == Shape(args[2].t) then
        Some(if args[0].b then args[2] else args[1])
      else None
    else
      var ts :- Numbers(args);
      var t :- EvalNumeric(S, p, ts);
      Some(Num(t))
  }

  // ---------------------------------------------------------------- programs

  type Var = nat

  datatype Atom = Lit(x: real) | LitFlag(b: bool) | V(id: Var)

  datatype CallKind = Pjit | Jit | ClosedCall | CustomJvp | CustomVjp

  /** A primitive application with the shapes of its operands, or a call of a closed program. */
  datatype Eqn =
    | Op(p: Prim, ins: seq<Atom>, shapes: seq<seq<nat>>, out: Var)
    | Call(kind: CallKind, body: Program, consts: seq<Tensor>, ins: seq<Atom>, outs: seq<Var>)

  datatype Program = Program(constvars: seq<Var>, invars: seq<Var>, eqns: seq<Eqn>, outs: seq<Atom>)

  type Env = map<Var, Value>

  function Read(env: Env, a: Atom): Option<Value> {
    match a
    case Lit(x) => Some(Num(Scalar(x)))
    case LitFlag(b) => Some(Flag(b))
    case V(id) => if id in env then Some(env[id]) else None
  }

  function ReadAll(env: Env, atoms: seq<Atom>): (r: Option<seq<Value>>)
    ensures r.Some? ==> |r.value| == |atoms|
    ensures r.Some? ==> forall k :: 0 <= k < |atoms| ==> Read(env, atoms[k]) == Some(r.value[k])
  {
    if |atoms| == 0 then Some([])
    else
      var v :- Read(env, atoms[0]);
      var vs :- ReadAll(env, atoms[1..]);
      Some([v] + vs)
  }

  /** Binds variables to values pairwise, later ones winning. */
  function Bind<T>(env: map<Var, T>, vars: seq<Var>, vals: seq<T>): map<Var, T>
    decreases |vars|
  {
    if |vars| == 0 || |vals| == 0 then env else Bind(env[vars[0] := vals[0]], vars[1..], vals[1..])
  }

  function AsValues(ts: seq<Tensor>): (vs: seq<Value>)
    ensures |vs| == |ts| && forall k :: 0 <= k < |ts| ==> vs[k] == Num(ts[k])
  {
    seq(|ts|, k requires 0 <= k < |ts| => Num(ts[k]))
  }

  function ShapesOf(vs: seq<Value>): (shapes: seq<seq<nat>>)
    ensures |shapes| == |vs| && forall k :: 0 <= k < |vs| ==> shapes[k] == ValueShape(vs[k])
  {
    seq(|vs|, k requires 0 <= k < |vs| => ValueShape(vs[k]))
  }

  function EvalEqn(S: Scalars, eqn: Eqn, env: Env): Option<Env>
    decreases eqn, 0
  {
    var args :- ReadAll(env, eqn.ins);
    match eqn
    case Op(p, _, shapes, out) =>
      if ShapesOf(args) != shapes then None
      else
        var v :- EvalPrim(S, p, args);
        Some(env[out := v])
    case Call(_, body, consts, _, outs) =>
      var results :- Eval(S, body, consts, args);
      if |results| != |outs| then None else Some(Bind(env, outs, results))
  }

  function EvalEqns(S: Scalars, eqns: seq<Eqn>, env: Env): Option<Env>
    decreases eqns, 1
  {
    if |eqns| == 0 then Some(env)
    else
      var env' :- EvalEqn(S, eqns[0], env);
      EvalEqns(S, eqns[1..], env')
  }

  /** A program sees only its own constants and arguments. */
  function Eval(S: Scalars, prog: Program, consts: seq<Tensor>, args: seq<Value>): Option<seq<Value>>
    decreases prog, 2
  {
    if |consts| != |prog.constvars| || |args| != |prog.invars| then None
    else
      var env :- EvalEqns(S, prog.eqns, Bind(Bind(map[], prog.invars, args), prog.constvars, AsValues(consts)));
      ReadAll(env, prog.outs)
  }
}
