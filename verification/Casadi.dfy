/**
 The CasADi translator. A CasADi value is a two-dimensional grid of scalar expressions; a
 rank-1 JAX value is a column. Handlers work on operand grids and the translator threads an
 environment through nested equation lists.
 */
module Casadi {
  import opened Wrappers
  import opened Grids
  import opened Jaxpr

  datatype Expr =
    | Sym(input: nat, row: nat, col: nat)
    | Const(x: real)
    | Un(uop: UnOp, e: Expr)
    | Bin(bop: BinOp, a: Expr, b: Expr)

  type Sheet = Grid<Expr>

  /** An operand: a symbolic matrix, or a Python bool known while translating. */
  datatype CaValue = Sx(g: Sheet) | Static(b: bool)

  // ---------------------------------------------------------------- CasADi's matrix operations

  function Scaled(op: BinOp, a: Expr, g: Sheet): Sheet {
    Map(e => Bin(op, a, e), g)
  }

  /** Entrywise operation: a 1 by 1 operand is lifted, otherwise the sizes must agree. */
  function CaBinary(op: BinOp, a: Sheet, b: Sheet): Option<Sheet> {
    if IsCell(a) then Some(Map(e => Bin(op, a.at[0][0], e), b))
    else if IsCell(b) then Some(Map(e => Bin(op, e, b.at[0][0]), a))
    else if a.r == b.r && a.c == b.c then Some(Zip((x, y) => Bin(op, x, y), a, b))
    else None
  }

  function DotExpr(xs: seq<Expr>, ys: seq<Expr>): Expr
    requires |xs| == |ys|
  {
    if |xs| == 0 then Const(0.0) else Bin(AddOp, Bin(MulOp, xs[0], ys[0]), DotExpr(xs[1..], ys[1..]))
  }

  /** The matrix product; with a 1 by 1 operand CasADi multiplies by a scalar. */
  function CaProduct(a: Sheet, b: Sheet): Option<Sheet> {
    if IsCell(a) || IsCell(b) then CaBinary(MulOp, a, b)
    else if a.c == b.r then
      Some(Grid(a.r, b.c, seq(a.r, i requires 0 <= i < a.r => seq(b.c, j requires 0 <= j < b.c => DotExpr(a.at[i], Column(b, j))))))
    else None
  }

  function RepMat(g: Sheet, m: nat, n: nat): Option<Sheet> {
    if g.r > 0 && g.c > 0 then Some(Tile(g, m, n)) else None
  }

  /** One operand brought to rows by cols; a zero extent cannot be divided into. */
  function TileTo(g: Sheet, rows: nat, cols: nat): Option<Sheet> {
    if g.r == rows && g.c == cols then Some(g)
    else if g.r == 0 || g.c == 0 then None
    else Some(Tile(g, rows / g.r, cols / g.c))
  }

  /** Reconciles two operands for an entrywise operation, column against row in particular. */
  function Reconcile(a: Sheet, b: Sheet): Option<(Sheet, Sheet)> {
    if IsCell(a) || IsCell(b) || (a.r == b.r && a.c == b.c) then Some((a, b))
    else
      var rows, cols := Max(a.r, b.r), Max(a.c, b.c);
      var a' :- TileTo(a, rows, cols);
      var b' :- TileTo(b, rows, cols);
      Some((a', b'))
  }

  function Arith(op: BinOp, a: Sheet, b: Sheet): Option<Sheet> {
    var ab :- Reconcile(a, b);
    CaBinary(op, ab.0, ab.1)
  }

  // ---------------------------------------------------------------- handlers

  function HandlePow(g: Sheet, y: int): Option<Sheet> {
    if y == 2 then CaBinary(MulOp, g, g)
    else if y == 3 then
      var square :- CaBinary(MulOp, g, g);
      CaBinary(MulOp, square, g)
    else Some(Map(e => Bin(PowOp, e, Const(y as real)), g))
  }

  function HandleBroadcast(x: Sheet, shape: seq<nat>, dims: seq<nat>): Option<Sheet> {
    if |dims| == 0 then
      if |shape| == 0 || shape == [1] || shape == [1, 1] then Some(x)
      else RepMat(x, shape[0], if |shape| == 2 then shape[1] else 1)
    else if |shape| <= 1 then Some(x)
    else if |shape| == 2 && dims == [0] then
      if shape[1] == 1 then Some(x) else RepMat(x, 1, shape[1])
    else if |shape| == 2 && dims == [1] then
      if shape[0] == 1 then Some(Flip(x)) else RepMat(Flip(x), shape[0], 1)
    else None
  }

  function HandleReshape(x: Sheet, sizes: seq<nat>): Option<Sheet> {
    if |sizes| == 0 then Some(x)
    else if |sizes| == 1 then
      if Size(x) == sizes[0] * 1 then Some(ColReshape(x, sizes[0], 1)) else None
    else if |sizes| == 2 then
      if Size(x) == sizes[0] * sizes[1] then Some(ColReshape(x, sizes[0], sizes[1])) else None
    else None
  }

  function HandleDot(a: Sheet, b: Sheet, lc: nat): Option<Sheet> {
    if lc == 0 then CaProduct(Flip(a), b) else CaProduct(a, b)
  }

  function HandleConcatenate(xs: seq<Sheet>, dim: nat): Option<Sheet> {
    if dim == 0 then if SameCols(xs) then Some(Stack(xs)) else None
    else if dim == 1 then if SameRows(xs) then Some(Beside(xs)) else None
    else None
  }

  function HandleTranspose(x: Sheet, perm: seq<nat>): Option<Sheet> {
    if perm == [1, 0] then Some(Flip(x))
    else if perm == [0] || perm == [0, 1] then Some(x)
    else None
  }

  /** One index slices the rows of a column, two slice rows and columns. */
  function HandleSlice(x: Sheet, start: seq<nat>, limit: seq<nat>): Option<Sheet> {
    if |start| == |limit| == 1 && x.c == 1 && start[0] <= limit[0] <= x.r then
      Some(Window(x, start[0], limit[0], 0, 1))
    else if |start| == |limit| == 2 && start[0] <= limit[0] <= x.r && start[1] <= limit[1] <= x.c then
      Some(Window(x, start[0], limit[0], start[1], limit[1]))
    else None
  }

  function Sheets(xs: seq<CaValue>): (r: Option<seq<Sheet>>)
    ensures r.Some? ==> |r.value| == |xs| && forall k :: 0 <= k < |xs| ==> xs[k] == Sx(r.value[k])
  {
    if |xs| == 0 then Some([])
    else if xs[0].Static? then None
    else
      var rest :- Sheets(xs[1..]);
      Some([xs[0].g] + rest)
  }

  function HandleNumeric(p: Prim, xs: seq<Sheet>): Option<Sheet> {
    match p
    case Unary(op) =>
      if |xs| < 1 || op.Tanh? || op.Logistic? then None else Some(Map(e => Un(op, e), xs[0]))
    case Binary(op) =>
      if |xs| < 2 || op.MaxOp? then None
      else if op.PowOp? then CaBinary(PowOp, xs[0], xs[1])
      else Arith(op, xs[0], xs[1])
    case IntegerPow(y) => if |xs| < 1 then None else HandlePow(xs[0], y)
    case DotGeneral(lc, _, batched) => if |xs| < 2 || batched then None else HandleDot(xs[0], xs[1], lc)
    case ConvertElementType => if |xs| < 1 then None else Some(xs[0])
    case Reshape(sizes) => if |xs| < 1 then None else HandleReshape(xs[0], sizes)
    case BroadcastInDim(shape, dims) => if |xs| < 1 then None else HandleBroadcast(xs[0], shape, dims)
    case Squeeze(_) => if |xs| < 1 then None else Some(xs[0])
    case Concatenate(dim) => HandleConcatenate(xs, dim)
    case Transpose(perm) => if |xs| < 1 then None else HandleTranspose(xs[0], perm)
    case Slice(start, limit, strided) => if |xs| < 1 || strided then None else HandleSlice(xs[0], start, limit)
    case SelectN => None
    case Other(_) => None
  }

  /** A static predicate folds a select away; a traced one is a coverage error. */
  function Handle(p: Prim, xs: seq<CaValue>): Option<CaValue> {
    if p.SelectN? then
      if |xs| < 3 || xs[0].Sx? then None else Some(if xs[0].b then xs[2] else xs[1])
    else
      var gs :- Sheets(xs);
      var g :- HandleNumeric(p, gs);
      Some(Sx(g))
  }

  // ---------------------------------------------------------------- the translator

  type CaEnv = map<Var, CaValue>

  function Resolve(env: CaEnv, a: Atom): Option<CaValue> {
    match a
    case Lit(x) => Some(Sx(Cell(Const(x))))
    case LitFlag(b) => Some(Static(b))
    case V(id) => if id in env then Some(env[id]) else None
  }

  function ResolveAll(env: CaEnv, atoms: seq<Atom>): (r: Option<seq<CaValue>>)
    ensures r.Some? ==> |r.value| == |atoms|
    ensures r.Some? ==> forall k :: 0 <= k < |atoms| ==> Resolve(env, atoms[k]) == Some(r.value[k])
  {
    if |atoms| == 0 then Some([])
    else
      var v :- Resolve(env, atoms[0]);
      var vs :- ResolveAll(env, atoms[1..]);
      Some([v] + vs)
  }

  /** A jit is transparent: its body runs in a copy of the environment, and its constants are not bound. */
  function TranslateEqn(env: CaEnv, eqn: Eqn): Option<CaEnv>
    decreases eqn, 0
  {
    var args :- ResolveAll(env, eqn.ins);
    match eqn
    case Op(p, _, _, out) =>
      var v :- Handle(p, args);
      Some(env[out := v])
    case Call(kind, body, _, _, outs) =>
      if !(kind.Pjit? || kind.Jit?) then None
      else
        var inner :- TranslateEqns(Bind(env, body.invars, args), body.eqns);
        var results :- ResolveAll(inner, body.outs);
        Some(Bind(env, outs, results))
  }

  function TranslateEqns(env: CaEnv, eqns: seq<Eqn>): Option<CaEnv>
    decreases eqns, 1
  {
    if |eqns| == 0 then Some(env)
    else
      var env' :- TranslateEqn(env, eqns[0]);
      TranslateEqns(env', eqns[1..])
  }

  /** The 2-D form of a tensor: rank 1 is a column. */
  function ColumnForm(t: Tensor): Grid<real> {
    if t.rank == 1 then Flip(t.g) else t.g
  }

  function Lifted(t: Tensor): Sheet {
    Map(x => Const(x), ColumnForm(t))
  }

  function Symbols(i: nat, shape: seq<nat>): (g: Sheet)
    requires |shape| <= 2
    ensures g.r == (if |shape| == 0 then 1 else shape[0]) && g.c == (if |shape| == 2 then shape[1] else 1)
    ensures forall a, b :: 0 <= a < g.r && 0 <= b < g.c ==> g.at[a][b] == Sym(i, a, b)
  {
    Tabulate(if |shape| == 0 then 1 else shape[0], if |shape| == 2 then shape[1] else 1, (a: nat, b: nat) => Sym(i, a, b))
  }

  predicate Flat2(shapes: seq<seq<nat>>) {
    forall i :: 0 <= i < |shapes| ==> |shapes[i]| <= 2
  }

  function InputValues(shapes: seq<seq<nat>>): (vs: seq<CaValue>)
    requires Flat2(shapes)
    ensures |vs| == |shapes| && forall i :: 0 <= i < |shapes| ==> vs[i] == Sx(Symbols(i, shapes[i]))
  {
    seq(|shapes|, i requires 0 <= i < |shapes| => Sx(Symbols(i, shapes[i])))
  }

  function ConstValues(consts: seq<Tensor>): (vs: seq<CaValue>)
    ensures |vs| == |consts| && forall i :: 0 <= i < |consts| ==> vs[i] == Sx(Lifted(consts[i]))
  {
    seq(|consts|, i requires 0 <= i < |consts| => Sx(Lifted(consts[i])))
  }

  function ShapesOfTensors(ts: seq<Tensor>): (shapes: seq<seq<nat>>)
    ensures |shapes| == |ts| && forall k :: 0 <= k < |ts| ==> shapes[k] == Shape(ts[k])
  {
    seq(|ts|, k requires 0 <= k < |ts| => Shape(ts[k]))
  }

  /** CasADi has matrices only. */
  predicate Matrices(ts: seq<Tensor>) {
    forall i :: 0 <= i < |ts| ==> ts[i].rank <= 2
  }

  /** The output expressions of a program; None is a coverage error. */
  function Translate(prog: Program, consts: seq<Tensor>, shapes: seq<seq<nat>>): Option<seq<CaValue>> {
    if !Flat2(shapes) || !Matrices(consts) then None
    else
      var env0 := Bind(Bind(map[], prog.invars, InputValues(shapes)), prog.constvars, ConstValues(consts));
      var env :- TranslateEqns(env0, prog.eqns);
      ResolveAll(env, prog.outs)
  }

  // ---------------------------------------------------------------- the translator in its own form

  /** Translates a list of equations, updating the environment one equation at a time. */
  method TranslateList(env0: CaEnv, eqns: seq<Eqn>) returns (r: Option<CaEnv>)
    ensures r == TranslateEqns(env0, eqns)
    decreases eqns, 1
  {
    var env: CaEnv := env0;
    assert eqns[0..] == eqns;
    for k := 0 to |eqns|
      invariant TranslateEqns(env0, eqns) == TranslateEqns(env, eqns[k..])
    {
      assert eqns[k..][0] == eqns[k] && eqns[k..][1..] == eqns[k + 1..];
      var next := TranslateOne(env, eqns[k]);
      if next.None? {
        return None;
      }
      env := next.value;
    }
    return Some(env);
  }

  method TranslateOne(env: CaEnv, eqn: Eqn) returns (r: Option<CaEnv>)
    ensures r == TranslateEqn(env, eqn)
    decreases eqn, 0
  {
    var args := ResolveAll(env, eqn.ins);
    if args.None? {
      return None;
    }
    match eqn
    case Op(p, _, _, out) =>
      var v := Handle(p, args.value);
      return if v.None? then None else Some(env[out := v.value]);
    case Call(kind, body, _, _, outs) =>
      if kind != Pjit && kind != Jit {
        return None;
      }
      var inner := TranslateList(Bind(env, body.invars, args.value), body.eqns);
      if inner.None? {
        return None;
      }
      var results := ResolveAll(inner.value, body.outs);
      return if results.None? then None else Some(Bind(env, outs, results.value));
  }
}
