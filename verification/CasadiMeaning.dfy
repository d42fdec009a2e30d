/**
 The translator preserves meaning: each bound variable holds the 2-D form of its JAX value,
 so the translated function equals the source on all inputs. The fragment is static, and
 `CasadiExact` shows that outside it no accepted primitive is translated correctly.
 */
module CasadiMeaning {
  import opened Wrappers
  import opened Grids
  import opened Linear
  import opened Jaxpr
  import opened Casadi
  import CasadiCoverage

  /** The number a scalar expression stands for at the given inputs. */
  function Ev(S: Scalars, inp: seq<Grid<real>>, e: Expr): real {
    match e
    case Sym(i, r, c) => if i < |inp| && r < inp[i].r && c < inp[i].c then inp[i].at[r][c] else 0.0
    case Const(x) => x
    case Un(op, a) => S.un(op, Ev(S, inp, a))
    case Bin(op, a, b) => BinScalar(S, op, Ev(S, inp, a), Ev(S, inp, b))
  }

  function Evaluator(S: Scalars, inp: seq<Grid<real>>): Expr -> real {
    e => Ev(S, inp, e)
  }

  function EvGrid(S: Scalars, inp: seq<Grid<real>>, g: Sheet): (h: Grid<real>)
    ensures h.r == g.r && h.c == g.c
    ensures forall i, j :: 0 <= i < g.r && 0 <= j < g.c ==> h.at[i][j] == Ev(S, inp, g.at[i][j])
  {
    Map(Evaluator(S, inp), g)
  }

  /** x holds the value v. */
  predicate Holds(S: Scalars, inp: seq<Grid<real>>, v: Value, x: CaValue) {
    match v
    case Num(t) => x.Sx? && SheetHolds(S, inp, t, x.g)
    case Flag(b) => x == Static(b)
  }

  predicate SheetHolds(S: Scalars, inp: seq<Grid<real>>, t: Tensor, g: Sheet) {
    t.rank <= 2 && EvGrid(S, inp, g) == ColumnForm(t)
  }

  // ---------------------------------------------------------------- the fragment

  /** Rows and columns of the 2-D form of a shape. */
  function FormRows(shape: seq<nat>): nat {
    if |shape| == 0 then 1 else shape[0]
  }

  function FormCols(shape: seq<nat>): nat {
    if |shape| == 2 then shape[1] else 1
  }

  /** A single row or column, or nothing: row-major and column-major order coincide. */
  predicate Thin(r: nat, c: nat) {
    r <= 1 || c <= 1
  }

  /** The reshapes on which the two orders agree. */
  predicate OrdersAgree(r: nat, c: nat, r': nat, c': nat) {
    (Thin(r, c) && Thin(r', c')) || (r == r' && c == c')
  }

  /** The rank-1 operands the handler places correctly: no unit extent is to be repeated along its own axis. */
  predicate OwnExtent(operand: seq<nat>, shape: seq<nat>, dims: seq<nat>) {
    |operand| == |dims| == 1 && dims[0] < |shape| ==> operand[0] == shape[dims[0]]
  }

  /** The contractions for which the handler's product, blind to the second axis, is the right one. */
  predicate DotFits(a: seq<nat>, b: seq<nat>, lc: nat, rc: nat) {
    if |b| != 2 then true
    else if |a| == 1 then b[1] == 1
    else if |a| == 2 && rc == 1 then b[0] == b[1] && (b[0] <= 1 || a[if lc == 0 then 1 else 0] == 0)
    else true
  }

  predicate FragmentPrim(p: Prim, shapes: seq<seq<nat>>) {
    match p
    case Binary(_) => true
    case DotGeneral(lc, rc, _) =>
      |shapes| == 2 && DotFits(shapes[0], shapes[1], lc, rc)
    case Reshape(sizes) =>
      |shapes| == 1 && OrdersAgree(FormRows(shapes[0]), FormCols(shapes[0]), FormRows(sizes), FormCols(sizes))
    case BroadcastInDim(shape, dims) =>
      |shapes| == 1 && OwnExtent(shapes[0], shape, dims)
    case Squeeze(axes) =>
      |shapes| == 1 && (axes == [0] && |shapes[0]| == 2 ==> shapes[0][1] == 1)
    case _ => true
  }

  function VarSet(vars: seq<Var>): set<Var> {
    set v | v in vars
  }

  /** The variables an equation binds. */
  function Outs(eqn: Eqn): set<Var> {
    if eqn.Op? then {eqn.out} else VarSet(eqn.outs)
  }

  /** The primitives are in the fragment, and no inner program's constant is a variable of its surroundings. */
  predicate FragmentEqn(eqn: Eqn, scope: set<Var>)
    decreases eqn, 0
  {
    match eqn
    case Op(p, _, shapes, _) => FragmentPrim(p, shapes)
    case Call(_, body, _, _, _) =>
      var inner := scope + VarSet(body.invars);
      VarSet(body.constvars) !! inner && FragmentEqns(body.eqns, inner)
  }

  predicate FragmentEqns(eqns: seq<Eqn>, scope: set<Var>)
    decreases eqns, 1
  {
    |eqns| > 0 ==> FragmentEqn(eqns[0], scope) && FragmentEqns(eqns[1..], scope + Outs(eqns[0]))
  }

  predicate Fragment(prog: Program) {
    FragmentEqns(prog.eqns, VarSet(prog.invars) + VarSet(prog.constvars))
  }

  // ---------------------------------------------------------------- entrywise operations

  lemma CaBinaryEntry(op: BinOp, a: Sheet, b: Sheet, i: nat, j: nat)
    requires CaBinary(op, a, b).Some?
    ensures Compatible(a, b) && CaBinary(op, a, b).value.r == Join(a.r, b.r) && CaBinary(op, a, b).value.c == Join(a.c, b.c)
    ensures i < Join(a.r, b.r) && j < Join(a.c, b.c) ==>
              CaBinary(op, a, b).value.at[i][j] == Bin(op, a.at[Index(i, a.r)][Index(j, a.c)], b.at[Index(i, b.r)][Index(j, b.c)])
  {
  }

  lemma CaBinaryMeans(S: Scalars, inp: seq<Grid<real>>, op: BinOp, a: Sheet, b: Sheet)
    requires CaBinary(op, a, b).Some?
    ensures Compatible(EvGrid(S, inp, a), EvGrid(S, inp, b))
    ensures EvGrid(S, inp, CaBinary(op, a, b).value) == Broadcast(Scalarwise(S, op), EvGrid(S, inp, a), EvGrid(S, inp, b))
  {
    hide CaBinary, Broadcast, BinScalar;
    var A, B, G := EvGrid(S, inp, a), EvGrid(S, inp, b), EvGrid(S, inp, CaBinary(op, a, b).value);
    CaBinaryEntry(op, a, b, 0, 0);
    forall i, j | 0 <= i < G.r && 0 <= j < G.c
      ensures G.at[i][j] == Broadcast(Scalarwise(S, op), A, B).at[i][j]
    {
      CaBinaryEntry(op, a, b, i, j);
    }
    SameEntries(G, Broadcast(Scalarwise(S, op), A, B));
  }

  lemma TileDivides(m: nat, n: nat)
    requires m > 0 && Fits(m, n)
    ensures m * (n / m) == n && forall i :: 0 <= i < n ==> i % m == Index(i, m)
  {
  }

  lemma StretchBroadcast<A, B, C>(f: (A, B) -> C, a: Grid<A>, b: Grid<B>)
    requires Compatible(a, b) && Fits(a.r, Max(a.r, b.r)) && Fits(b.r, Max(a.r, b.r))
    requires Fits(a.c, Max(a.c, b.c)) && Fits(b.c, Max(a.c, b.c))
    ensures Broadcast(f, a, b) == Broadcast(f, Stretch(a, Max(a.r, b.r), Max(a.c, b.c)), Stretch(b, Max(a.r, b.r), Max(a.c, b.c)))
  {
    hide Broadcast, Stretch;
    var a', b' := Stretch(a, Max(a.r, b.r), Max(a.c, b.c)), Stretch(b, Max(a.r, b.r), Max(a.c, b.c));
    var G, H := Broadcast(f, a, b), Broadcast(f, a', b');
    forall i, j | 0 <= i < G.r && 0 <= j < G.c ensures G.at[i][j] == H.at[i][j] {
      assert H.at[i][j] == f(a'.at[Index(i, a'.r)][Index(j, a'.c)], b'.at[Index(i, b'.r)][Index(j, b'.c)]);
    }
    SameEntries(G, H);
  }

  /** Tiling two compatible operands to a common size is stretching them. */
  lemma ReconcileMeans(S: Scalars, inp: seq<Grid<real>>, op: BinOp, a: Sheet, b: Sheet)
    requires Compatible(a, b) && Arith(op, a, b).Some?
    ensures EvGrid(S, inp, Arith(op, a, b).value) == Broadcast(Scalarwise(S, op), EvGrid(S, inp, a), EvGrid(S, inp, b))
  {
    hide CaBinary, Broadcast, BinScalar, EvGrid, Stretch, TileTo;
    EvSize(S, inp, a);
    EvSize(S, inp, b);
    if IsCell(a) || IsCell(b) || (a.r == b.r && a.c == b.c) {
      CaBinaryMeans(S, inp, op, a, b);
    } else {
      var rows, cols := Max(a.r, b.r), Max(a.c, b.c);
      var a', b' := TileTo(a, rows, cols).value, TileTo(b, rows, cols).value;
      TileToPositive(a, rows, cols);
      TileToPositive(b, rows, cols);
      TileToMeans(S, inp, a, rows, cols);
      TileToMeans(S, inp, b, rows, cols);
      CaBinaryMeans(S, inp, op, a', b');
      StretchBroadcast(Scalarwise(S, op), EvGrid(S, inp, a), EvGrid(S, inp, b));
    }
  }

  /** A tiling that succeeds had positive extents, or nothing to do. */
  lemma TileToPositive(g: Sheet, rows: nat, cols: nat)
    ensures TileTo(g, rows, cols).Some? <==> (g.r > 0 && g.c > 0) || (g.r == rows && g.c == cols)
  {
  }

  lemma TileToMeans(S: Scalars, inp: seq<Grid<real>>, g: Sheet, rows: nat, cols: nat)
    requires TileTo(g, rows, cols).Some? && Fits(g.r, rows) && Fits(g.c, cols)
    ensures EvGrid(S, inp, TileTo(g, rows, cols).value) == Stretch(EvGrid(S, inp, g), rows, cols)
  {
    if g.r != rows || g.c != cols {
      TileDivides(g.r, rows);
      TileDivides(g.c, cols);
    }
    SameEntries(EvGrid(S, inp, TileTo(g, rows, cols).value), Stretch(EvGrid(S, inp, g), rows, cols));
  }

  lemma BinaryForm(S: Scalars, op: BinOp, a: Tensor, b: Tensor)
    requires EvalBinary(S, op, a, b).Some?
    ensures Compatible(ColumnForm(a), ColumnForm(b))
    requires a.rank <= 2 && b.rank <= 2
    ensures EvalBinary(S, op, a, b).value.rank <= 2
    ensures ColumnForm(EvalBinary(S, op, a, b).value) == Broadcast(Scalarwise(S, op), ColumnForm(a), ColumnForm(b))
  {
    hide BinScalar, Broadcast, Flip;
    FlipBroadcast(Scalarwise(S, op), a.g, b.g);
    SameEntriesOfCell(a.g);
    SameEntriesOfCell(b.g);
  }

  lemma SameEntriesOfCell<T>(g: Grid<T>)
    ensures IsCell(g) ==> Flip(g) == g
  {
    if IsCell(g) {
      SameEntries(Flip(g), g);
    }
  }

  lemma ArithMeans(S: Scalars, inp: seq<Grid<real>>, op: BinOp, a: Tensor, b: Tensor, x: Sheet, y: Sheet)
    requires SheetHolds(S, inp, a, x) && SheetHolds(S, inp, b, y)
    requires EvalBinary(S, op, a, b).Some? && Arith(op, x, y).Some?
    ensures SheetHolds(S, inp, EvalBinary(S, op, a, b).value, Arith(op, x, y).value)
  {
    hide EvalBinary, Arith, Broadcast, ColumnForm, EvGrid;
    BinaryForm(S, op, a, b);
    ReconcileMeans(S, inp, op, x, y);
  }

  lemma PowMeans(S: Scalars, inp: seq<Grid<real>>, a: Tensor, b: Tensor, x: Sheet, y: Sheet)
    requires SheetHolds(S, inp, a, x) && SheetHolds(S, inp, b, y)
    requires EvalBinary(S, PowOp, a, b).Some? && CaBinary(PowOp, x, y).Some?
    ensures SheetHolds(S, inp, EvalBinary(S, PowOp, a, b).value, CaBinary(PowOp, x, y).value)
  {
    hide EvalBinary, CaBinary, Broadcast, ColumnForm, EvGrid;
    BinaryForm(S, PowOp, a, b);
    CaBinaryMeans(S, inp, PowOp, x, y);
  }

  lemma IntegerPowMeans(S: Scalars, inp: seq<Grid<real>>, a: Tensor, y: int, x: Sheet)
    requires PowLaw(S) && SheetHolds(S, inp, a, x) && HandlePow(x, y).Some?
    ensures SheetHolds(S, inp, a.(g := Map(z => IntPow(S, z, y), a.g)), HandlePow(x, y).value)
  {
    hide EvGrid, HandlePow, IntPow, BinScalar;
    var t: Tensor := a.(g := Map(z => IntPow(S, z, y), a.g));
    var g := HandlePow(x, y).value;
    HandlePowEntries(S, inp, y, x);
    SheetEntries(S, inp, x);
    SheetEntries(S, inp, g);
    forall i, j | 0 <= i < g.r && 0 <= j < g.c ensures EvGrid(S, inp, g).at[i][j] == ColumnForm(t).at[i][j] {
      assert Ev(S, inp, x.at[i][j]) == ColumnForm(a).at[i][j];
    }
    SameEntries(EvGrid(S, inp, g), ColumnForm(t));
  }

  lemma SheetEntries(S: Scalars, inp: seq<Grid<real>>, g: Sheet)
    ensures EvGrid(S, inp, g).r == g.r && EvGrid(S, inp, g).c == g.c
    ensures forall i, j :: 0 <= i < g.r && 0 <= j < g.c ==> EvGrid(S, inp, g).at[i][j] == Ev(S, inp, g.at[i][j])
  {
  }

  /** The handler multiplies out squares and cubes and leaves other powers to pow. */
  lemma HandlePowEntries(S: Scalars, inp: seq<Grid<real>>, y: int, x: Sheet)
    requires PowLaw(S) && HandlePow(x, y).Some?
    ensures HandlePow(x, y).value.r == x.r && HandlePow(x, y).value.c == x.c
    ensures forall i, j :: 0 <= i < x.r && 0 <= j < x.c ==>
              Ev(S, inp, HandlePow(x, y).value.at[i][j]) == IntPow(S, Ev(S, inp, x.at[i][j]), y)
  {
    hide IntPow;
    var g := HandlePow(x, y).value;
    forall i, j | 0 <= i < x.r && 0 <= j < x.c ensures Ev(S, inp, g.at[i][j]) == IntPow(S, Ev(S, inp, x.at[i][j]), y) {
      var v := Ev(S, inp, x.at[i][j]);
      SmallPowers(S, v);
      if y == 2 {
        assert g.at[i][j] == Bin(MulOp, x.at[i][j], x.at[i][j]);
      } else if y == 3 {
        assert g.at[i][j] == Bin(MulOp, Bin(MulOp, x.at[i][j], x.at[i][j]), x.at[i][j]);
      } else {
        assert g.at[i][j] == Bin(PowOp, x.at[i][j], Const(y as real));
        assert S.pow(v, y as real) == IntPow(S, v, y);
      }
    }
  }

  lemma SmallPowers(S: Scalars, v: real)
    ensures IntPow(S, v, 2) == v * v && IntPow(S, v, 3) == (v * v) * v
  {
    assert IntPow(S, v, 1) == v;
    assert IntPow(S, v, 2) == IntPow(S, v, 1) * v;
  }

  lemma UnaryMeans(S: Scalars, inp: seq<Grid<real>>, op: UnOp, a: Tensor, x: Sheet)
    requires SheetHolds(S, inp, a, x)
    ensures SheetHolds(S, inp, a.(g := Map(z => S.un(op, z), a.g)), Map(e => Un(op, e), x))
  {
    var t: Tensor := a.(g := Map(z => S.un(op, z), a.g));
    var g := Map(e => Un(op, e), x);
    forall i, j | 0 <= i < g.r && 0 <= j < g.c ensures EvGrid(S, inp, g).at[i][j] == ColumnForm(t).at[i][j] {
      assert Ev(S, inp, x.at[i][j]) == EvGrid(S, inp, x).at[i][j] == ColumnForm(a).at[i][j];
    }
    SameEntries(EvGrid(S, inp, g), ColumnForm(t));
  }

  // ---------------------------------------------------------------- products

  function EvSeq(S: Scalars, inp: seq<Grid<real>>, xs: seq<Expr>): (ys: seq<real>)
    ensures |ys| == |xs| && forall k :: 0 <= k < |xs| ==> ys[k] == Ev(S, inp, xs[k])
  {
    seq(|xs|, k requires 0 <= k < |xs| => Ev(S, inp, xs[k]))
  }

  lemma {:induction false} DotExprMeans(S: Scalars, inp: seq<Grid<real>>, xs: seq<Expr>, ys: seq<Expr>)
    requires |xs| == |ys|
    ensures Ev(S, inp, DotExpr(xs, ys)) == Dot(EvSeq(S, inp, xs), EvSeq(S, inp, ys))
  {
    if |xs| > 0 {
      DotExprMeans(S, inp, xs[1..], ys[1..]);
      assert EvSeq(S, inp, xs)[1..] == EvSeq(S, inp, xs[1..]) && EvSeq(S, inp, ys)[1..] == EvSeq(S, inp, ys[1..]);
    }
  }

  /** A product with a 1 by 1 operand is the matrix product when the inner extent is 1. */
  lemma ScalarProduct(S: Scalars, A: Grid<real>, B: Grid<real>)
    requires A.c == B.r == 1 && (IsCell(A) || IsCell(B))
    ensures Broadcast(Scalarwise(S, MulOp), A, B) == Product(A, B)
  {
    hide Broadcast, Product;
    var G, H := Broadcast(Scalarwise(S, MulOp), A, B), Product(A, B);
    forall i, j | 0 <= i < G.r && 0 <= j < G.c ensures G.at[i][j] == H.at[i][j] {
      DotSingle(A.at[i], Column(B, j));
      assert H.at[i][j] == A.at[i][0] * B.at[0][j] == Scalarwise(S, MulOp)(A.at[i][0], B.at[0][j]);
      assert Index(i, A.r) == i && Index(0, B.r) == 0 && Index(j, B.c) == j && Index(j, A.c) == 0 && Index(i, B.r) == 0;
      assert G.at[i][j] == Scalarwise(S, MulOp)(A.at[Index(i, A.r)][Index(j, A.c)], B.at[Index(i, B.r)][Index(j, B.c)]);
    }
    SameEntries(G, H);
  }

  lemma ProductEntry(S: Scalars, inp: seq<Grid<real>>, a: Sheet, b: Sheet, i: nat, j: nat)
    requires a.c == b.r && i < a.r && j < b.c
    ensures Ev(S, inp, DotExpr(a.at[i], Column(b, j))) == Product(EvGrid(S, inp, a), EvGrid(S, inp, b)).at[i][j]
  {
    hide DotExpr, Ev, BinScalar, Product;
    DotExprMeans(S, inp, a.at[i], Column(b, j));
    assert EvSeq(S, inp, a.at[i]) == EvGrid(S, inp, a).at[i];
    assert EvSeq(S, inp, Column(b, j)) == Column(EvGrid(S, inp, b), j);
  }

  /** When the inner extents agree, CasADi's product is the matrix product, scalars included. */
  lemma ProductMeans(S: Scalars, inp: seq<Grid<real>>, a: Sheet, b: Sheet)
    requires a.c == b.r
    ensures CaProduct(a, b).Some?
    ensures EvGrid(S, inp, CaProduct(a, b).value) == Product(EvGrid(S, inp, a), EvGrid(S, inp, b))
  {
    hide DotExpr, Ev, BinScalar, Broadcast;
    var A, B := EvGrid(S, inp, a), EvGrid(S, inp, b);
    if IsCell(a) || IsCell(b) {
      CaBinaryMeans(S, inp, MulOp, a, b);
      ScalarProduct(S, A, B);
    } else {
      var G := EvGrid(S, inp, CaProduct(a, b).value);
      forall i, j | 0 <= i < a.r && 0 <= j < b.c ensures G.at[i][j] == Product(A, B).at[i][j] {
        ProductEntry(S, inp, a, b, i, j);
      }
      SameEntries(G, Product(A, B));
    }
  }

  lemma DotSingle(x: Vec, y: Vec)
    requires |x| == |y| == 1
    ensures Dot(x, y) == x[0] * y[0]
  {
    assert Dot(x[1..], y[1..]) == 0.0;
  }

  lemma EvFlip(S: Scalars, inp: seq<Grid<real>>, g: Sheet)
    ensures EvGrid(S, inp, Flip(g)) == Flip(EvGrid(S, inp, g))
  {
    MapFlip(Evaluator(S, inp), g);
  }

  /** A square second operand may stand for its transpose only when it has one entry or meets no row. */
  lemma TransposedOperand(l: Grid<real>, b: Grid<real>)
    requires l.c == b.c && b.r == b.c && (b.r <= 1 || l.r == 0)
    ensures Product(l, Flip(b)) == Product(l, b)
  {
    if l.r == 0 {
      SameEntries(Product(l, Flip(b)), Product(l, b));
    } else {
      SameEntries(Flip(b), b);
    }
  }

  /** A one-entry vector scales a column that the contraction would have flipped twice. */
  lemma ScaledColumn(S: Scalars, l: Grid<real>, b: Grid<real>)
    requires IsCell(l) && b.c == 1
    ensures Flip(Product(l, Flip(b))) == Broadcast(Scalarwise(S, MulOp), l, b)
  {
    hide Broadcast, Product, Flip;
    ScalarProduct(S, l, Flip(b));
    FlipBroadcast(Scalarwise(S, MulOp), l, Flip(b));
    FlipFlip(b);
    SameEntriesOfCell(l);
  }

  lemma DotMeans(S: Scalars, inp: seq<Grid<real>>, a: Tensor, b: Tensor, lc: nat, rc: nat, x: Sheet, y: Sheet)
    requires SheetHolds(S, inp, a, x) && SheetHolds(S, inp, b, y)
    requires EvalDot(a, b, lc, rc).Some? && HandleDot(x, y, lc).Some?
    requires DotFits(Shape(a), Shape(b), lc, rc)
    ensures SheetHolds(S, inp, EvalDot(a, b, lc, rc).value, HandleDot(x, y, lc).value)
  {
    hide EvGrid, Product, CaProduct;
    var l, r := LeftOperand(a, lc).value, RightOperand(b, rc).value;
    var x' := if lc == 0 then Flip(x) else x;
    EvFlip(S, inp, x);
    FlipFlip(a.g);
    assert EvGrid(S, inp, x') == l && EvGrid(S, inp, y) == ColumnForm(b);
    EvSize(S, inp, x');
    EvSize(S, inp, y);
    if a.rank == 1 && b.rank == 2 && rc == 1 {
      ScaledColumn(S, l, b.g);
      CellTimes(S, inp, x', y);
    } else {
      if b.rank == 2 && rc == 1 {
        TransposedOperand(l, b.g);
      }
      ProductMeans(S, inp, x', y);
      var m := Product(l, r);
      ProductSize(l, r);
      FlipFlip(m);
      SameEntriesOfCell(m);
    }
  }

  lemma CellTimes(S: Scalars, inp: seq<Grid<real>>, a: Sheet, b: Sheet)
    requires IsCell(a)
    ensures CaProduct(a, b).Some? && EvGrid(S, inp, CaProduct(a, b).value).c == b.c
    ensures EvGrid(S, inp, CaProduct(a, b).value) == Broadcast(Scalarwise(S, MulOp), EvGrid(S, inp, a), EvGrid(S, inp, b))
  {
    CaBinaryMeans(S, inp, MulOp, a, b);
  }

  lemma EvSize(S: Scalars, inp: seq<Grid<real>>, g: Sheet)
    ensures EvGrid(S, inp, g).r == g.r && EvGrid(S, inp, g).c == g.c
  {
  }

  lemma ProductSize(a: Grid<real>, b: Grid<real>)
    requires a.c == b.r
    ensures Product(a, b).r == a.r && Product(a, b).c == b.c
  {
  }

  // ---------------------------------------------------------------- shape operations

  lemma {:induction false} ThinFlat<T>(g: Grid<T>)
    requires g.c == 1
    ensures Entries(g) == Entries(Flip(g))
  {
    var h := Flip(g);
    forall n | 0 <= n < g.r ensures Entries(g)[n] == Entries(h)[n] {
      EntryAt(g, n);
      EntryAt(h, n);
      assert n / g.r == 0 && n % g.r == n && n / 1 == n && n % 1 == 0;
    }
    assert Size(g) == g.r == Size(h);
  }

  /** On thin grids, and on grids that keep their size, both orders give the same reshape. */
  lemma OrdersAgreeMeans<T>(g: Grid<T>, r: nat, c: nat)
    requires Size(g) == r * c && OrdersAgree(g.r, g.c, r, c)
    ensures ColReshape(g, r, c) == RowReshape(g, r, c)
  {
    if g.r == r && g.c == c {
      ChopFlat(g.at, g.c);
      ChopFlat(Flip(g).at, g.r);
      FlipFlip(g);
    } else {
      var h := Flip(g);
      ThinEntries(g);
      var a, b := RowReshape(h, c, r), RowReshape(g, r, c);
      assert Entries(a) == Entries(h) && Entries(b) == Entries(g) by {
        FlatChop(Entries(h), c, r);
        FlatChop(Entries(g), r, c);
      }
      ThinEntries(a);
      SameByEntries(Flip(a), b);
    }
  }

  lemma ThinEntries<T>(g: Grid<T>)
    requires Thin(g.r, g.c)
    ensures Entries(g) == Entries(Flip(g))
  {
    if Size(g) == 0 {
      assert Size(Flip(g)) == 0;
    } else if g.c == 1 {
      ThinFlat(g);
    } else {
      ThinFlat(Flip(g));
      FlipFlip(g);
    }
  }

  lemma SameByEntries<T>(g: Grid<T>, h: Grid<T>)
    requires g.r == h.r && g.c == h.c && Entries(g) == Entries(h)
    ensures g == h
  {
    ChopFlat(g.at, g.c);
    ChopFlat(h.at, h.c);
  }

  /** A reshape keeps the row-major order of the entries of the 2-D form. */
  lemma ReshapeForm(a: Tensor, sizes: seq<nat>)
    requires EvalReshape(a, sizes).Some? && a.rank <= 2 && |sizes| <= 2
    ensures EvalReshape(a, sizes).value.rank <= 2
    ensures Size(ColumnForm(a)) == FormRows(sizes) * FormCols(sizes)
    ensures ColumnForm(EvalReshape(a, sizes).value) == RowReshape(ColumnForm(a), FormRows(sizes), FormCols(sizes))
  {
    var r, c, F, t := FormRows(sizes), FormCols(sizes), ColumnForm(a), EvalReshape(a, sizes).value;
    FormSize(a);
    assert Rows(sizes) * Cols(sizes) == r * c;
    FormEntries(a);
    assert Entries(t.g) == Entries(a.g) by { FlatChop(Entries(a.g), Rows(sizes), Cols(sizes)); }
    FormEntries(t);
    FlatChop(Entries(F), r, c);
    SameByEntries(RowReshape(F, r, c), ColumnForm(t));
  }

  lemma ReshapeMeans(S: Scalars, inp: seq<Grid<real>>, a: Tensor, sizes: seq<nat>, x: Sheet)
    requires SheetHolds(S, inp, a, x) && EvalReshape(a, sizes).Some? && HandleReshape(x, sizes).Some?
    requires OrdersAgree(FormRows(Shape(a)), FormCols(Shape(a)), FormRows(sizes), FormCols(sizes))
    ensures SheetHolds(S, inp, EvalReshape(a, sizes).value, HandleReshape(x, sizes).value)
  {
    hide EvGrid, RowReshape, ColReshape, EvalReshape, Entries;
    var r, c, F := FormRows(sizes), FormCols(sizes), ColumnForm(a);
    EvSize(S, inp, x);
    ReshapeForm(a, sizes);
    if |sizes| == 0 {
      UnitFactors(F.r, F.c);
      CellReshape(F);
    } else {
      EvColReshape(S, inp, x, r, c);
      OrdersAgreeMeans(F, r, c);
    }
  }

  lemma UnitFactors(r: nat, c: nat)
    requires r * c == 1
    ensures r == 1 && c == 1
  {
  }

  lemma CellReshape<T>(g: Grid<T>)
    requires IsCell(g)
    ensures RowReshape(g, 1, 1) == g
  {
    FlatChop(Entries(g), 1, 1);
    SameByEntries(RowReshape(g, 1, 1), g);
  }

  lemma FormSize(a: Tensor)
    ensures Size(ColumnForm(a)) == Size(a.g)
  {
  }

  lemma FormEntries(a: Tensor)
    ensures Entries(ColumnForm(a)) == Entries(a.g)
  {
    if a.rank == 1 {
      ThinEntries(a.g);
    }
  }

  lemma EvColReshape(S: Scalars, inp: seq<Grid<real>>, g: Sheet, r: nat, c: nat)
    requires Size(g) == r * c
    ensures EvGrid(S, inp, ColReshape(g, r, c)) == ColReshape(EvGrid(S, inp, g), r, c)
  {
    assert Size(Flip(g)) == c * r;
    EvFlip(S, inp, g);
    MapReshape(Evaluator(S, inp), Flip(g), c, r);
    EvFlip(S, inp, RowReshape(Flip(g), c, r));
  }

  lemma UnitRepeat(k: nat, m: nat)
    requires k > 0 && (m == 1 || k == 1)
    ensures Fits(k, k * m) && forall i :: 0 <= i < k * m ==> i % k == Index(i, k)
  {
    assert m == 1 ==> k * m == k;
  }

  /** Tiling a unit extent is stretching it. */
  lemma TileIsStretch<T>(g: Grid<T>, m: nat, n: nat)
    requires g.r > 0 && g.c > 0 && (m == 1 || g.r == 1) && (n == 1 || g.c == 1)
    ensures Fits(g.r, g.r * m) && Fits(g.c, g.c * n) && Tile(g, m, n) == Stretch(g, g.r * m, g.c * n)
  {
    hide Tile, Stretch;
    UnitRepeat(g.r, m);
    UnitRepeat(g.c, n);
    var r, c := g.r * m, g.c * n;
    forall i, j | 0 <= i < r && 0 <= j < c ensures Tile(g, m, n).at[i][j] == Stretch(g, r, c).at[i][j] {
      assert i % g.r == Index(i, g.r) && j % g.c == Index(j, g.c);
    }
    SameEntries(Tile(g, m, n), Stretch(g, g.r * m, g.c * n));
  }

  lemma StretchToItself<T>(g: Grid<T>)
    ensures Stretch(g, g.r, g.c) == g
  {
    SameEntries(Stretch(g, g.r, g.c), g);
  }

  /** The operand laid along the axes of a two-dimensional result: a row when mapped to axis 1. */
  function LaidForm<T>(g: Grid<T>, shape: seq<nat>, dims: seq<nat>): Grid<T> {
    if |shape| == 2 && dims == [1] then Flip(g) else g
  }

  lemma HandlerStretches(a: Tensor, shape: seq<nat>, dims: seq<nat>, x: Sheet)
    requires x.r == ColumnForm(a).r && x.c == ColumnForm(a).c && OwnExtent(Shape(a), shape, dims)
    requires EvalBroadcast(a, shape, dims).Some? && HandleBroadcast(x, shape, dims).Some?
    ensures Fits(LaidForm(x, shape, dims).r, FormRows(shape)) && Fits(LaidForm(x, shape, dims).c, FormCols(shape))
    ensures HandleBroadcast(x, shape, dims).value == Stretch(LaidForm(x, shape, dims), FormRows(shape), FormCols(shape))
  {
    hide Tile, Stretch, Flip;
    StretchToItself(x);
    StretchToItself(Flip(x));
    if |dims| == 0 {
      TileIsStretch(x, FormRows(shape), FormCols(shape));
    } else if |shape| == 2 && x.r > 0 {
      TileIsStretch(x, 1, shape[1]);
      TileIsStretch(Flip(x), shape[0], 1);
    }
  }

  lemma BroadcastForm(a: Tensor, shape: seq<nat>, dims: seq<nat>)
    requires EvalBroadcast(a, shape, dims).Some? && (a.rank == 2 ==> |shape| != 2)
    ensures Fits(LaidForm(ColumnForm(a), shape, dims).r, FormRows(shape)) && Fits(LaidForm(ColumnForm(a), shape, dims).c, FormCols(shape))
    ensures ColumnForm(EvalBroadcast(a, shape, dims).value) == Stretch(LaidForm(ColumnForm(a), shape, dims), FormRows(shape), FormCols(shape))
  {
    hide Stretch, Flip;
    var g := Laid(a, shape, dims).value;
    FlipFlip(a.g);
    SameEntriesOfCell(a.g);
    FlipStretch(g, Rows(shape), Cols(shape));
  }

  lemma FlipStretch<T>(g: Grid<T>, r: nat, c: nat)
    requires Fits(g.r, r) && Fits(g.c, c)
    ensures Flip(Stretch(g, r, c)) == Stretch(Flip(g), c, r)
  {
    SameEntries(Flip(Stretch(g, r, c)), Stretch(Flip(g), c, r));
  }

  lemma BroadcastMeans(S: Scalars, inp: seq<Grid<real>>, a: Tensor, shape: seq<nat>, dims: seq<nat>, x: Sheet)
    requires SheetHolds(S, inp, a, x) && OwnExtent(Shape(a), shape, dims)
    requires EvalBroadcast(a, shape, dims).Some? && HandleBroadcast(x, shape, dims).Some?
    ensures SheetHolds(S, inp, EvalBroadcast(a, shape, dims).value, HandleBroadcast(x, shape, dims).value)
  {
    hide EvGrid, Stretch, Flip;
    EvSize(S, inp, x);
    HandlerStretches(a, shape, dims, x);
    BroadcastForm(a, shape, dims);
    EvFlip(S, inp, x);
    var l := LaidForm(x, shape, dims);
    EvIsMap(S, inp, l);
    EvIsMap(S, inp, Stretch(l, FormRows(shape), FormCols(shape)));
    MapStretch(Evaluator(S, inp), l, FormRows(shape), FormCols(shape));
  }

  lemma SqueezeMeans(S: Scalars, inp: seq<Grid<real>>, a: Tensor, axes: seq<nat>, x: Sheet)
    requires SheetHolds(S, inp, a, x) && EvalSqueeze(a, axes).Some?
    requires axes == [0] && a.rank == 2 ==> a.g.c == 1
    ensures SheetHolds(S, inp, EvalSqueeze(a, axes).value, x)
  {
    FlipFlip(a.g);
    SameEntriesOfCell(a.g);
  }

  lemma TransposeMeans(S: Scalars, inp: seq<Grid<real>>, a: Tensor, perm: seq<nat>, x: Sheet)
    requires SheetHolds(S, inp, a, x) && EvalTranspose(a, perm).Some? && HandleTranspose(x, perm).Some?
    ensures SheetHolds(S, inp, EvalTranspose(a, perm).value, HandleTranspose(x, perm).value)
  {
    EvFlip(S, inp, x);
  }

  lemma SliceMeans(S: Scalars, inp: seq<Grid<real>>, a: Tensor, start: seq<nat>, limit: seq<nat>, x: Sheet)
    requires SheetHolds(S, inp, a, x) && EvalSlice(a, start, limit).Some? && HandleSlice(x, start, limit).Some?
    ensures SheetHolds(S, inp, EvalSlice(a, start, limit).value, HandleSlice(x, start, limit).value)
  {
    hide EvGrid, Window;
    EvSize(S, inp, x);
    if a.rank == 1 {
      MapWindow(Evaluator(S, inp), x, start[0], limit[0], 0, 1);
      FlipWindow(a.g, 0, 1, start[0], limit[0]);
    } else {
      MapWindow(Evaluator(S, inp), x, start[0], limit[0], start[1], limit[1]);
    }
    EvIsMap(S, inp, x);
    EvIsMap(S, inp, HandleSlice(x, start, limit).value);
  }

  lemma EvIsMap(S: Scalars, inp: seq<Grid<real>>, g: Sheet)
    ensures EvGrid(S, inp, g) == Map(Evaluator(S, inp), g)
  {
  }

  /** The sheets hold the tensors one by one. */
  predicate AllHold(S: Scalars, inp: seq<Grid<real>>, ts: seq<Tensor>, gs: seq<Sheet>) {
    |ts| == |gs| && forall k :: 0 <= k < |ts| ==> SheetHolds(S, inp, ts[k], gs[k])
  }

  lemma ConcatenateMeans(S: Scalars, inp: seq<Grid<real>>, ts: seq<Tensor>, dim: nat, gs: seq<Sheet>)
    requires AllHold(S, inp, ts, gs) && EvalConcatenate(ts, dim).Some? && HandleConcatenate(gs, dim).Some?
    ensures SheetHolds(S, inp, EvalConcatenate(ts, dim).value, HandleConcatenate(gs, dim).value)
  {
    var f := Evaluator(S, inp);
    var As := Jaxpr.Sheets(ts);
    forall k | 0 <= k < |ts| ensures Map(f, gs[k]) == if ts[0].rank == 1 then Flip(As[k]) else As[k] {
      assert SheetHolds(S, inp, ts[k], gs[k]) && ts[k].rank == ts[0].rank;
    }
    if ts[0].rank == 1 {
      MapStack(f, gs);
      assert MapAll(f, gs) == FlipAll(As);
      FlipFlip(Stack(FlipAll(As)));
    } else if dim == 1 {
      MapBeside(f, gs);
      assert MapAll(f, gs) == As;
    } else {
      MapStack(f, gs);
      assert MapAll(f, gs) == As;
    }
  }

  // ---------------------------------------------------------------- all handlers

  lemma HandleNumericMeans(S: Scalars, inp: seq<Grid<real>>, p: Prim, ts: seq<Tensor>, shapes: seq<seq<nat>>, gs: seq<Sheet>)
    requires PowLaw(S) && AllHold(S, inp, ts, gs)
    requires |shapes| == |ts| && forall k :: 0 <= k < |ts| ==> shapes[k] == Shape(ts[k])
    requires FragmentPrim(p, shapes) && EvalNumeric(S, p, ts).Some? && HandleNumeric(p, gs).Some?
    ensures SheetHolds(S, inp, EvalNumeric(S, p, ts).value, HandleNumeric(p, gs).value)
  {
    hide SheetHolds, PowLaw, EvalBinary, EvalDot, EvalReshape, EvalBroadcast, EvalSqueeze, EvalConcatenate, EvalTranspose, EvalSlice,
         Arith, CaBinary, HandleDot, HandleReshape, HandleBroadcast, HandleConcatenate, HandleTranspose, HandleSlice, HandlePow;
    match p
    case Unary(op) => UnaryMeans(S, inp, op, ts[0], gs[0]);
    case Binary(op) =>
      if op.PowOp? {
        PowMeans(S, inp, ts[0], ts[1], gs[0], gs[1]);
      } else {
        ArithMeans(S, inp, op, ts[0], ts[1], gs[0], gs[1]);
      }
    case IntegerPow(y) => IntegerPowMeans(S, inp, ts[0], y, gs[0]);
    case DotGeneral(lc, rc, _) => DotMeans(S, inp, ts[0], ts[1], lc, rc, gs[0], gs[1]);
    case ConvertElementType =>
    case Reshape(sizes) => ReshapeMeans(S, inp, ts[0], sizes, gs[0]);
    case BroadcastInDim(shape, dims) => BroadcastMeans(S, inp, ts[0], shape, dims, gs[0]);
    case Squeeze(axes) => SqueezeMeans(S, inp, ts[0], axes, gs[0]);
    case Concatenate(dim) => ConcatenateMeans(S, inp, ts, dim, gs);
    case Transpose(perm) => TransposeMeans(S, inp, ts[0], perm, gs[0]);
    case Slice(start, limit, _) => SliceMeans(S, inp, ts[0], start, limit, gs[0]);
  }

  /** The values hold one by one. */
  predicate ValuesHold(S: Scalars, inp: seq<Grid<real>>, vs: seq<Value>, xs: seq<CaValue>) {
    |vs| == |xs| && forall k :: 0 <= k < |vs| ==> Holds(S, inp, vs[k], xs[k])
  }

  lemma {:induction false} NumbersHold(S: Scalars, inp: seq<Grid<real>>, vs: seq<Value>, xs: seq<CaValue>)
    requires ValuesHold(S, inp, vs, xs) && Numbers(vs).Some? && Casadi.Sheets(xs).Some?
    ensures AllHold(S, inp, Numbers(vs).value, Casadi.Sheets(xs).value)
    ensures |Numbers(vs).value| == |vs| && forall k :: 0 <= k < |vs| ==> vs[k] == Num(Numbers(vs).value[k])
  {
    hide SheetHolds, Holds;
    if |vs| > 0 {
      assert Holds(S, inp, vs[0], xs[0]);
      HoldsSheet(S, inp, vs[0].t, xs[0]);
      NumbersHold(S, inp, vs[1..], xs[1..]);
      ConsHold(S, inp, vs[0].t, xs[0].g, Numbers(vs[1..]).value, Casadi.Sheets(xs[1..]).value);
    }
  }

  lemma ConsHold(S: Scalars, inp: seq<Grid<real>>, t: Tensor, g: Sheet, ts: seq<Tensor>, gs: seq<Sheet>)
    requires SheetHolds(S, inp, t, g) && AllHold(S, inp, ts, gs)
    ensures AllHold(S, inp, [t] + ts, [g] + gs)
  {
    hide SheetHolds;
  }

  lemma HoldsSheet(S: Scalars, inp: seq<Grid<real>>, t: Tensor, x: CaValue)
    ensures Holds(S, inp, Num(t), x) <==> x.Sx? && SheetHolds(S, inp, t, x.g)
  {
  }

  lemma HandleMeans(S: Scalars, inp: seq<Grid<real>>, p: Prim, vs: seq<Value>, xs: seq<CaValue>)
    requires PowLaw(S) && ValuesHold(S, inp, vs, xs) && FragmentPrim(p, ShapesOf(vs))
    requires EvalPrim(S, p, vs).Some? && Handle(p, xs).Some?
    ensures Holds(S, inp, EvalPrim(S, p, vs).value, Handle(p, xs).value)
  {
    hide EvalNumeric, HandleNumeric, PowLaw, FragmentPrim, SheetHolds;
    if p.SelectN? {
      assert Holds(S, inp, vs[0], xs[0]) && Holds(S, inp, vs[1], xs[1]) && Holds(S, inp, vs[2], xs[2]);
    } else {
      NumbersHold(S, inp, vs, xs);
      var ts, gs := Numbers(vs).value, Casadi.Sheets(xs).value;
      HandleNumericMeans(S, inp, p, ts, ShapesOf(vs), gs);
      HoldsSheet(S, inp, EvalNumeric(S, p, ts).value, Sx(HandleNumeric(p, gs).value));
    }
  }

  // ---------------------------------------------------------------- the translator

  /** Every variable bound on both sides holds its value. */
  ghost predicate EnvHolds(S: Scalars, inp: seq<Grid<real>>, jenv: Env, env: CaEnv) {
    forall v :: v in jenv && v in env ==> Holds(S, inp, jenv[v], env[v])
  }

  lemma {:induction false} ResolveAllHolds(S: Scalars, inp: seq<Grid<real>>, jenv: Env, env: CaEnv, atoms: seq<Atom>)
    requires EnvHolds(S, inp, jenv, env) && ReadAll(jenv, atoms).Some? && ResolveAll(env, atoms).Some?
    ensures ValuesHold(S, inp, ReadAll(jenv, atoms).value, ResolveAll(env, atoms).value)
  {
    hide Holds;
    if |atoms| > 0 {
      ResolveHolds(S, inp, jenv, env, atoms[0]);
      ResolveAllHolds(S, inp, jenv, env, atoms[1..]);
    }
  }

  lemma ResolveHolds(S: Scalars, inp: seq<Grid<real>>, jenv: Env, env: CaEnv, a: Atom)
    requires EnvHolds(S, inp, jenv, env) && Read(jenv, a).Some? && Resolve(env, a).Some?
    ensures Holds(S, inp, Read(jenv, a).value, Resolve(env, a).value)
  {
    if a.Lit? {
      SameEntries(EvGrid(S, inp, Cell(Const(a.x))), Cell(a.x));
    }
  }

  lemma {:induction false} BindHolds(S: Scalars, inp: seq<Grid<real>>, jenv: Env, env: CaEnv, vars: seq<Var>, vs: seq<Value>, xs: seq<CaValue>)
    requires EnvHolds(S, inp, jenv, env) && ValuesHold(S, inp, vs, xs)
    ensures EnvHolds(S, inp, Bind(jenv, vars, vs), Bind(env, vars, xs))
    decreases |vars|
  {
    hide Holds;
    if |vars| > 0 && |vs| > 0 {
      BindHolds(S, inp, jenv[vars[0] := vs[0]], env[vars[0] := xs[0]], vars[1..], vs[1..], xs[1..]);
    }
  }

  lemma {:induction false} BindKeys<T>(env: map<Var, T>, vars: seq<Var>, vals: seq<T>)
    ensures Bind(env, vars, vals).Keys <= env.Keys + VarSet(vars)
    decreases |vars|
  {
    if |vars| > 0 && |vals| > 0 {
      BindKeys(env[vars[0] := vals[0]], vars[1..], vals[1..]);
      assert forall v :: v in vars[1..] ==> v in vars;
    }
  }

  /** Constants the translator does not bind change nothing. */
  lemma {:induction false} UnboundConsts(S: Scalars, inp: seq<Grid<real>>, jenv: Env, env: CaEnv, vars: seq<Var>, vs: seq<Value>)
    requires EnvHolds(S, inp, jenv, env) && VarSet(vars) !! env.Keys
    ensures EnvHolds(S, inp, Bind(jenv, vars, vs), env)
    decreases |vars|
  {
    hide Holds;
    if |vars| > 0 && |vs| > 0 {
      assert vars[0] in VarSet(vars);
      assert VarSet(vars[1..]) <= VarSet(vars);
      UnboundConsts(S, inp, jenv[vars[0] := vs[0]], env, vars[1..], vs[1..]);
    }
  }

  lemma {:induction false} TranslateEqnMeans(S: Scalars, inp: seq<Grid<real>>, jenv: Env, env: CaEnv, eqn: Eqn, scope: set<Var>)
    requires PowLaw(S) && EnvHolds(S, inp, jenv, env) && FragmentEqn(eqn, scope) && env.Keys <= scope
    requires EvalEqn(S, eqn, jenv).Some? && TranslateEqn(env, eqn).Some?
    ensures EnvHolds(S, inp, EvalEqn(S, eqn, jenv).value, TranslateEqn(env, eqn).value)
    ensures TranslateEqn(env, eqn).value.Keys <= scope + Outs(eqn)
    decreases eqn, 0
  {
    hide Holds, PowLaw, EvalPrim, Handle, FragmentPrim;
    ResolveAllHolds(S, inp, jenv, env, eqn.ins);
    var vs, xs := ReadAll(jenv, eqn.ins).value, ResolveAll(env, eqn.ins).value;
    match eqn
    case Op(p, _, _, _) => HandleMeans(S, inp, p, vs, xs);
    case Call(_, body, consts, _, outs) =>
      var start0, env1 := Bind(map[], body.invars, vs), Bind(env, body.invars, xs);
      var start := Bind(start0, body.constvars, AsValues(consts));
      BindHolds(S, inp, map[], env, body.invars, vs, xs);
      BindKeys(env, body.invars, xs);
      UnboundConsts(S, inp, start0, env1, body.constvars, AsValues(consts));
      TranslateEqnsMeans(S, inp, start, env1, body.eqns, scope + VarSet(body.invars));
      var jinner, inner := EvalEqns(S, body.eqns, start).value, TranslateEqns(env1, body.eqns).value;
      ResolveAllHolds(S, inp, jinner, inner, body.outs);
      BindHolds(S, inp, jenv, env, outs, ReadAll(jinner, body.outs).value, ResolveAll(inner, body.outs).value);
      BindKeys(env, outs, ResolveAll(inner, body.outs).value);
  }

  lemma {:induction false} TranslateEqnsMeans(S: Scalars, inp: seq<Grid<real>>, jenv: Env, env: CaEnv, eqns: seq<Eqn>, scope: set<Var>)
    requires PowLaw(S) && EnvHolds(S, inp, jenv, env) && FragmentEqns(eqns, scope) && env.Keys <= scope
    requires EvalEqns(S, eqns, jenv).Some? && TranslateEqns(env, eqns).Some?
    ensures EnvHolds(S, inp, EvalEqns(S, eqns, jenv).value, TranslateEqns(env, eqns).value)
    decreases eqns, 1
  {
    hide EnvHolds, PowLaw;
    if |eqns| > 0 {
      TranslateEqnMeans(S, inp, jenv, env, eqns[0], scope);
      TranslateEqnsMeans(S, inp, EvalEqn(S, eqns[0], jenv).value, TranslateEqn(env, eqns[0]).value, eqns[1..], scope + Outs(eqns[0]));
    }
  }

  // ---------------------------------------------------------------- the translated function

  function Forms(ts: seq<Tensor>): (gs: seq<Grid<real>>)
    ensures |gs| == |ts| && forall k :: 0 <= k < |ts| ==> gs[k] == ColumnForm(ts[k])
  {
    seq(|ts|, k requires 0 <= k < |ts| => ColumnForm(ts[k]))
  }

  /** A raw CasADi output as an array of the program's output shape. */
  function Restore(g: Grid<real>, shape: seq<nat>): Option<Tensor> {
    if |shape| <= 2 && Size(g) == Rows(shape) * Cols(shape) then
      Some(Tensor(|shape|, RowReshape(g, Rows(shape), Cols(shape))))
    else None
  }

  /** Calling the translated function on numbers: evaluate each output and restore its shape. */
  function Invoke(S: Scalars, outs: seq<CaValue>, inp: seq<Grid<real>>, shapes: seq<seq<nat>>): Option<seq<Tensor>>
    requires |outs| == |shapes|
  {
    if |outs| == 0 then Some([])
    else if outs[0].Static? then None
    else
      var t :- Restore(EvGrid(S, inp, outs[0].g), shapes[0]);
      var rest :- Invoke(S, outs[1..], inp, shapes[1..]);
      Some([t] + rest)
  }

  lemma RestoreForm(t: Tensor)
    requires t.rank <= 2
    ensures Restore(ColumnForm(t), Shape(t)) == Some(t)
  {
    var r, c := Rows(Shape(t)), Cols(Shape(t));
    assert r == t.g.r && c == t.g.c;
    FormSize(t);
    FormEntries(t);
    FlatChop(Entries(ColumnForm(t)), r, c);
    SameByEntries(RowReshape(ColumnForm(t), r, c), t.g);
  }

  lemma {:induction false} InvokeMeans(S: Scalars, outs: seq<CaValue>, inp: seq<Grid<real>>, ts: seq<Tensor>)
    requires ValuesHold(S, inp, AsValues(ts), outs)
    ensures Invoke(S, outs, inp, ShapesOfTensors(ts)) == Some(ts)
  {
    hide Restore;
    if |ts| > 0 {
      assert Holds(S, inp, AsValues(ts)[0], outs[0]);
      RestoreForm(ts[0]);
      assert ValuesHold(S, inp, AsValues(ts[1..]), outs[1..]) by {
        assert AsValues(ts)[1..] == AsValues(ts[1..]);
        forall k | 0 <= k < |ts| - 1 ensures Holds(S, inp, AsValues(ts[1..])[k], outs[1..][k]) {
          assert Holds(S, inp, AsValues(ts)[k + 1], outs[k + 1]);
        }
      }
      InvokeMeans(S, outs[1..], inp, ts[1..]);
      assert ShapesOfTensors(ts)[1..] == ShapesOfTensors(ts[1..]);
      assert [ts[0]] + ts[1..] == ts;
    }
  }

  lemma InputsHold(S: Scalars, ts: seq<Tensor>)
    requires Flat2(ShapesOfTensors(ts))
    ensures ValuesHold(S, Forms(ts), AsValues(ts), InputValues(ShapesOfTensors(ts)))
  {
    forall k | 0 <= k < |ts|
      ensures Holds(S, Forms(ts), AsValues(ts)[k], InputValues(ShapesOfTensors(ts))[k])
    {
      assert |ShapesOfTensors(ts)[k]| <= 2;
      SameEntries(EvGrid(S, Forms(ts), Symbols(k, Shape(ts[k]))), ColumnForm(ts[k]));
    }
  }

  lemma ConstsHold(S: Scalars, inp: seq<Grid<real>>, consts: seq<Tensor>)
    requires Matrices(consts)
    ensures ValuesHold(S, inp, AsValues(consts), ConstValues(consts))
  {
    forall k | 0 <= k < |consts| ensures Holds(S, inp, AsValues(consts)[k], ConstValues(consts)[k]) {
      SameEntries(EvGrid(S, inp, Lifted(consts[k])), ColumnForm(consts[k]));
    }
  }

  /** The translated function equals the source program on all inputs of the traced shapes. */
  lemma TranslateMeansProgram(S: Scalars, prog: Program, consts: seq<Tensor>, ts: seq<Tensor>, results: seq<Tensor>)
    requires PowLaw(S) && Fragment(prog)
    requires Translate(prog, consts, ShapesOfTensors(ts)).Some?
    requires Eval(S, prog, consts, AsValues(ts)) == Some(AsValues(results))
    ensures |Translate(prog, consts, ShapesOfTensors(ts)).value| == |results|
    ensures Invoke(S, Translate(prog, consts, ShapesOfTensors(ts)).value, Forms(ts), ShapesOfTensors(results)) == Some(results)
  {
    hide Holds, PowLaw, EvalEqns, TranslateEqns, Invoke;
    var inp, shapes := Forms(ts), ShapesOfTensors(ts);
    InputsHold(S, ts);
    ConstsHold(S, inp, consts);
    BindHolds(S, inp, map[], map[], prog.invars, AsValues(ts), InputValues(shapes));
    var jenv0, env0 := Bind(map[], prog.invars, AsValues(ts)), Bind(map[], prog.invars, InputValues(shapes));
    BindHolds(S, inp, jenv0, env0, prog.constvars, AsValues(consts), ConstValues(consts));
    var jenv1, env1 := Bind(jenv0, prog.constvars, AsValues(consts)), Bind(env0, prog.constvars, ConstValues(consts));
    BindKeys(map[], prog.invars, InputValues(shapes));
    BindKeys(env0, prog.constvars, ConstValues(consts));
    TranslateEqnsMeans(S, inp, jenv1, env1, prog.eqns, VarSet(prog.invars) + VarSet(prog.constvars));
    ResolveAllHolds(S, inp, EvalEqns(S, prog.eqns, jenv1).value, TranslateEqns(env1, prog.eqns).value, prog.outs);
    InvokeMeans(S, Translate(prog, consts, shapes).value, inp, results);
  }

  // ---------------------------------------------------------------- the whole translation

  method BindPairwise<T>(env0: map<Var, T>, vars: seq<Var>, vals: seq<T>) returns (env: map<Var, T>)
    ensures env == Bind(env0, vars, vals)
  {
    env := env0;
    assert vars[0..] == vars && vals[0..] == vals;
    var k := 0;
    while k < |vars| && k < |vals|
      invariant k <= |vars| && k <= |vals|
      invariant Bind(env0, vars, vals) == Bind(env, vars[k..], vals[k..])
    {
      assert vars[k..][0] == vars[k] && vars[k..][1..] == vars[k + 1..];
      assert vals[k..][0] == vals[k] && vals[k..][1..] == vals[k + 1..];
      env := env[vars[k] := vals[k]];
      k := k + 1;
    }
  }

  /** The translator from end to end: it takes the accepted programs, and its function is the source program, on all inputs of the traced shapes. */
  method TranslateProgram(prog: Program, consts: seq<Tensor>, shapes: seq<seq<nat>>) returns (r: Option<seq<CaValue>>)
    ensures r == Translate(prog, consts, shapes)
    ensures r.Some? <==> CasadiCoverage.Accepted(prog, ShapesOfTensors(consts), shapes)
    ensures r.Some? && Fragment(prog) ==> forall S, ts, results ::
      PowLaw(S) && ShapesOfTensors(ts) == shapes && Eval(S, prog, consts, AsValues(ts)) == Some(AsValues(results)) ==>
        |r.value| == |results| && Invoke(S, r.value, Forms(ts), ShapesOfTensors(results)) == Some(results)
  {
    hide PowLaw, Eval, Fragment, Invoke, TranslateEqns, CasadiCoverage.Accepted;
    CasadiCoverage.TranslateAccepts(prog, consts, shapes);
    if !Flat2(shapes) || !Matrices(consts) {
      return None;
    }
    var env := BindPairwise(map[], prog.invars, InputValues(shapes));
    env := BindPairwise(env, prog.constvars, ConstValues(consts));
    var final := TranslateList(env, prog.eqns);
    if final.None? {
      return None;
    }
    r := ResolveAll(final.value, prog.outs);
    if r.Some? && Fragment(prog) {
      TranslationMeans(prog, consts, shapes);
    }
  }

  lemma TranslationMeans(prog: Program, consts: seq<Tensor>, shapes: seq<seq<nat>>)
    requires Fragment(prog) && Translate(prog, consts, shapes).Some?
    ensures var r := Translate(prog, consts, shapes).value;
      forall S, ts, results ::
        PowLaw(S) && ShapesOfTensors(ts) == shapes && Eval(S, prog, consts, AsValues(ts)) == Some(AsValues(results)) ==>
          |r| == |results| && Invoke(S, r, Forms(ts), ShapesOfTensors(results)) == Some(results)
  {
    hide Translate, PowLaw, Eval, Fragment, Invoke;
    var r := Translate(prog, consts, shapes).value;
    forall S, ts, results | PowLaw(S) && ShapesOfTensors(ts) == shapes && Eval(S, prog, consts, AsValues(ts)) == Some(AsValues(results))
      ensures |r| == |results| && Invoke(S, r, Forms(ts), ShapesOfTensors(results)) == Some(results)
    {
      TranslateMeansProgram(S, prog, consts, ts, results);
    }
  }

  // ---------------------------------------------------------------- unbound constants

  /** x => jit(const 1), whose inner constant has the name of the argument. */
  const SHADOWED := Program([], [0], [Call(Jit, Program([0], [1], [], [V(0)]), [Scalar(1.0)], [V(0)], [2])], [V(2)])

  lemma BindOne<T>(env: map<Var, T>, x: Var, v: T)
    ensures Bind(env, [x], [v]) == env[x := v] && Bind(env, [], []) == env
  {
    assert [x][1..] == [] && [v][1..] == [];
    assert Bind(env[x := v], [], []) == env[x := v];
  }

  lemma ReadOne(jenv: Env, env: CaEnv, x: Var)
    requires x in jenv && x in env
    ensures ReadAll(jenv, [V(x)]) == Some([jenv[x]]) && ResolveAll(env, [V(x)]) == Some([env[x]])
  {
    assert [V(x)][1..] == [];
    assert ReadAll(jenv, []) == Some([]) && ResolveAll(env, []) == Some([]);
    assert [jenv[x]] + [] == [jenv[x]] && [env[x]] + [] == [env[x]];
  }

  lemma ShadowedValue(S: Scalars, x: real)
    ensures Eval(S, SHADOWED, [], [Num(Scalar(x))]) == Some([Num(Scalar(1.0))])
  {
    hide ReadAll, Bind;
    var call, body := SHADOWED.eqns[0], SHADOWED.eqns[0].body;
    var v, one := Num(Scalar(x)), Num(Scalar(1.0));
    var jenv: Env, inner: Env := map[0 := v], map[1 := v, 0 := one];
    BindOne(map[], 0, v);
    BindOne(jenv, 2, one);
    BindOne(map[], 1, v);
    BindOne(map[1 := v], 0, one);
    assert map[][0 := v] == jenv && map[][1 := v] == map[1 := v] && map[1 := v][0 := one] == inner;
    assert AsValues([]) == [] && AsValues([Scalar(1.0)]) == [one];
    BindOne(jenv, 0, v);
    ReadOne(jenv, map[0 := Static(true)], 0);
    ReadOne(inner, map[0 := Static(true)], 0);
    ReadOne(jenv[2 := one], map[2 := Static(true)], 2);
    assert Eval(S, body, [Scalar(1.0)], [v]) == Some([one]);
    assert EvalEqn(S, call, jenv) == Some(jenv[2 := one]);
    assert SHADOWED.eqns[1..] == [];
    assert EvalEqns(S, SHADOWED.eqns, jenv) == Some(jenv[2 := one]);
  }

  lemma ShadowedEqn(sym: CaValue)
    ensures TranslateEqn(map[0 := sym], SHADOWED.eqns[0]) == Some(map[0 := sym, 2 := sym])
  {
    hide ResolveAll, Bind;
    var env: CaEnv := map[0 := sym];
    BindOne(env, 1, sym);
    BindOne(env, 2, sym);
    ReadOne(map[0 := Flag(true)], env, 0);
    ReadOne(map[0 := Flag(true)], env[1 := sym], 0);
    assert env[2 := sym] == map[0 := sym, 2 := sym];
  }

  lemma ShadowedTranslation(sym: CaValue)
    requires sym == Sx(Symbols(0, []))
    ensures Translate(SHADOWED, [], [[]]) == Some([sym])
  {
    hide ResolveAll, Bind, TranslateEqn, Symbols;
    var env: CaEnv, last: CaEnv := map[0 := sym], map[0 := sym, 2 := sym];
    assert InputValues([[]]) == [sym] && ConstValues([]) == [];
    BindOne(map[], 0, sym);
    BindOne(env, 0, sym);
    assert map[][0 := sym] == env;
    ReadOne(map[2 := Flag(true)], last, 2);
    ShadowedEqn(sym);
    assert SHADOWED.eqns[1..] == [];
    assert TranslateEqns(env, SHADOWED.eqns) == Some(last);
  }

  /** The translator leaves an inner constant unbound: here the argument takes its place, right for 1 only. */
  lemma InnerConstShadowed(S: Scalars, x: real)
    ensures Eval(S, SHADOWED, [], AsValues([Scalar(x)])) == Some(AsValues([Scalar(1.0)]))
    ensures Translate(SHADOWED, [], [[]]).Some? && |Translate(SHADOWED, [], [[]]).value| == 1
    ensures Invoke(S, Translate(SHADOWED, [], [[]]).value, Forms([Scalar(x)]), [[]]) == Some([Scalar(x)])
  {
    hide Invoke, Eval, Translate;
    var ts, sym := [Scalar(x)], Sx(Symbols(0, []));
    assert AsValues(ts) == [Num(Scalar(x))] && AsValues([Scalar(1.0)]) == [Num(Scalar(1.0))];
    ShadowedValue(S, x);
    ShadowedTranslation(sym);
    InputsHold(S, ts);
    assert ShapesOfTensors(ts) == [[]] && InputValues([[]]) == [sym];
    InvokeMeans(S, [sym], Forms(ts), ts);
  }
}
