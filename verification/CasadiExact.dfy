/**
 The fragment of CasadiMeaning is exact: a primitive that JAX and the handler both accept is
 translated correctly for all operand values if and only if its parameters and operand shapes
 lie in the fragment. Each excluded case has operands that show the difference.
 */
module CasadiExact {
  import opened Wrappers
  import opened Grids
  import opened Linear
  import opened Jaxpr
  import opened Casadi
  import opened CasadiMeaning

  function SymbolSheets(shapes: seq<seq<nat>>): (gs: seq<Sheet>)
    requires Flat2(shapes)
    ensures |gs| == |shapes| && forall i :: 0 <= i < |shapes| ==> gs[i] == Symbols(i, shapes[i])
  {
    seq(|shapes|, i requires 0 <= i < |shapes| => Symbols(i, shapes[i]))
  }

  /** JAX types the application at these operand shapes. */
  ghost predicate Typed(S: Scalars, p: Prim, shapes: seq<seq<nat>>) {
    forall ts {:trigger ShapesOfTensors(ts)} :: ShapesOfTensors(ts) == shapes ==> EvalNumeric(S, p, ts).Some?
  }

  /** The handler accepts traced operands of these shapes. */
  predicate Handled(p: Prim, shapes: seq<seq<nat>>) {
    Flat2(shapes) && HandleNumeric(p, SymbolSheets(shapes)).Some?
  }

  /** The handler's expression, evaluated at the operands, is the primitive's value. */
  predicate RightAt(S: Scalars, p: Prim, shapes: seq<seq<nat>>, ts: seq<Tensor>) {
    && Handled(p, shapes)
    && EvalNumeric(S, p, ts).Some?
    && SheetHolds(S, Forms(ts), EvalNumeric(S, p, ts).value, HandleNumeric(p, SymbolSheets(shapes)).value)
  }

  ghost predicate Right(S: Scalars, p: Prim, shapes: seq<seq<nat>>) {
    forall ts {:trigger ShapesOfTensors(ts)} :: ShapesOfTensors(ts) == shapes ==> RightAt(S, p, shapes, ts)
  }

  // ---------------------------------------------------------------- operands that show a difference

  function Filled(shape: seq<nat>, f: (nat, nat) -> real): (t: Tensor)
    requires |shape| <= 2
    ensures Shape(t) == shape && t.rank == |shape|
    ensures t.g.r == Rows(shape) && t.g.c == Cols(shape)
    ensures forall i, j :: 0 <= i < t.g.r && 0 <= j < t.g.c ==> t.g.at[i][j] == f(i, j)
  {
    Tensor(|shape|, Tabulate(Rows(shape), Cols(shape), f))
  }

  function Blank(shape: seq<nat>): (t: Tensor)
    requires |shape| <= 2
    ensures Shape(t) == shape && t.rank == |shape|
  {
    Filled(shape, (i, j) => 0.0)
  }

  lemma SizesDiffer(S: Scalars, inp: seq<Grid<real>>, t: Tensor, g: Sheet)
    requires ColumnForm(t).r != g.r || ColumnForm(t).c != g.c
    ensures !SheetHolds(S, inp, t, g)
  {
    EvSize(S, inp, g);
  }

  lemma OneShape(t: Tensor)
    ensures ShapesOfTensors([t]) == [Shape(t)]
  {
  }

  lemma TwoShapes(a: Tensor, b: Tensor)
    ensures ShapesOfTensors([a, b]) == [Shape(a), Shape(b)]
  {
  }

  /** A squeezed row stays a row. */
  lemma SqueezeWrong(S: Scalars, axes: seq<nat>, shape: seq<nat>) returns (t: Tensor)
    requires Typed(S, Squeeze(axes), [shape]) && Handled(Squeeze(axes), [shape]) && !FragmentPrim(Squeeze(axes), [shape])
    ensures Shape(t) == shape && !RightAt(S, Squeeze(axes), [shape], [t])
  {
    t := Blank(shape);
    OneShape(t);
    SizesDiffer(S, Forms([t]), EvalSqueeze(t, axes).value, Symbols(0, shape));
  }

  lemma BroadcastExtents(t: Tensor, target: seq<nat>, dims: seq<nat>)
    requires EvalBroadcast(t, target, dims).Some?
    ensures |target| <= 2 && |dims| == t.rank
    ensures ColumnForm(EvalBroadcast(t, target, dims).value).r == FormRows(target)
    ensures ColumnForm(EvalBroadcast(t, target, dims).value).c == FormCols(target)
    ensures t.rank == 1 && |target| == 1 ==> dims == [0] && Fits(t.g.c, target[0])
    ensures t.rank == 1 && |target| == 2 ==> (dims == [0] && Fits(t.g.c, target[0])) || (dims == [1] && Fits(t.g.c, target[1]))
    ensures t.rank == 1 ==> |target| > 0
  {
    hide Stretch, Flip;
    assert |dims| > 0 ==> dims[0] >= 0;
  }

  /** A unit extent is not repeated along its own axis. */
  lemma BroadcastWrong(S: Scalars, target: seq<nat>, dims: seq<nat>, shape: seq<nat>) returns (t: Tensor)
    requires Typed(S, BroadcastInDim(target, dims), [shape]) && Handled(BroadcastInDim(target, dims), [shape])
    requires !FragmentPrim(BroadcastInDim(target, dims), [shape])
    ensures Shape(t) == shape && !RightAt(S, BroadcastInDim(target, dims), [shape], [t])
  {
    hide EvalBroadcast, SheetHolds, ColumnForm;
    t := Blank(shape);
    OneShape(t);
    assert EvalNumeric(S, BroadcastInDim(target, dims), [t]).Some?;
    BroadcastExtents(t, target, dims);
    SizesDiffer(S, Forms([t]), EvalBroadcast(t, target, dims).value, HandleBroadcast(Symbols(0, shape), target, dims).value);
  }

  // ---------------------------------------------------------------- reshape

  /** The row and the column of the second entry in row-major order. */
  function SecondRow(c: nat): nat {
    if c > 1 then 0 else 1
  }

  function SecondCol(c: nat): nat {
    if c > 1 then 1 else 0
  }

  /** The entry at a row-major place. */
  function RowOrder<T>(g: Grid<T>, q: nat): T
    requires q < g.r * g.c
  {
    PlaceBounds(q, g.r, g.c);
    g.at[q / g.c][q % g.c]
  }

  /** The entry at a column-major place. */
  function ColOrder<T>(g: Grid<T>, q: nat): T
    requires q < g.c * g.r
  {
    PlaceBounds(q, g.c, g.r);
    g.at[q % g.r][q / g.r]
  }

  lemma RowReshapeAt<T>(g: Grid<T>, r: nat, c: nat, i: nat, j: nat)
    requires Size(g) == r * c && i < r && j < c
    ensures i * c + j < g.r * g.c && RowReshape(g, r, c).at[i][j] == RowOrder(g, i * c + j)
  {
    hide Entries, Flat, Chop;
    ChopAt(Entries(g), r, c, i, j);
    EntryAt(g, i * c + j);
  }

  /** Column-major reshape keeps column-major places. */
  lemma ColReshapeAt<T>(g: Grid<T>, r: nat, c: nat, i: nat, j: nat)
    requires Size(g) == r * c && i < r && j < c
    ensures j * r + i < g.c * g.r && ColReshape(g, r, c).at[i][j] == ColOrder(g, j * r + i)
  {
    hide RowReshape, RowOrder;
    var h := Flip(g);
    assert Size(h) == c * r;
    RowReshapeAt(h, c, r, j, i);
    assert RowOrder(h, j * r + i) == ColOrder(g, j * r + i) by { OrdersFlip(g, j * r + i); }
  }

  lemma OrdersFlip<T>(g: Grid<T>, q: nat)
    requires q < g.c * g.r
    ensures RowOrder(Flip(g), q) == ColOrder(g, q)
  {
    PlaceBounds(q, g.c, g.r);
  }

  /** The second entry tells the two orders apart whenever they do not agree. */
  lemma OrdersDiffer(g: Grid<real>, r: nat, c: nat)
    requires Size(g) == r * c && !OrdersAgree(g.r, g.c, r, c)
    requires forall i, j :: 0 <= i < g.r && 0 <= j < g.c ==> g.at[i][j] == Second(g.c)(i, j)
    ensures ColReshape(g, r, c) != RowReshape(g, r, c)
  {
    hide ColReshape, RowReshape, Second, OrdersAgree;
    var i, j := SecondRow(c), SecondCol(c);
    SecondFits(g.r, g.c, r, c);
    RowReshapeAt(g, r, c, i, j);
    ColReshapeAt(g, r, c, i, j);
    SecondPlace(g.r, g.c, r, c);
    PlaceBounds(1, g.r, g.c);
    PlaceBounds(j * r + i, g.c, g.r);
    SecondIs(g.c, 1 / g.c, 1 % g.c);
    SecondIs(g.c, (j * r + i) % g.r, (j * r + i) / g.r);
  }

  lemma SecondIs(c: nat, i: nat, j: nat)
    ensures Second(c)(i, j) == if i == SecondRow(c) && j == SecondCol(c) then 1.0 else 0.0
  {
  }

  lemma SecondFits(r0: nat, c0: nat, r: nat, c: nat)
    requires r0 * c0 == r * c && !OrdersAgree(r0, c0, r, c)
    ensures r * c > 1 && r0 > 0 && c0 > 0 && SecondRow(c) < r && SecondCol(c) < c
  {
    if r0 > 1 && c0 > 1 {
      assert r0 * c0 >= 2 * c0;
    } else {
      assert r * c >= 2 * c;
    }
    assert r * c > 1;
  }

  lemma SameFactor(r0: nat, c0: nat, r: nat, c: nat)
    requires r0 > 0 && r0 * c0 == r * c
    ensures r == r0 ==> c == c0
  {
    LargerProduct(r0, c0, c);
    LargerProduct(r0, c, c0);
  }

  lemma LargerProduct(r: nat, a: nat, b: nat)
    requires r > 0
    ensures a < b ==> r * a < r * b
  {
    if a < b {
      assert r * (b - a) > 0;
    }
  }

  /** Row-major place 1 is the second entry; the column-major place is elsewhere. */
  lemma SecondPlace(r0: nat, c0: nat, r: nat, c: nat)
    requires r0 * c0 == r * c && !OrdersAgree(r0, c0, r, c) && r0 > 0 && c0 > 0 && SecondRow(c) < r && SecondCol(c) < c
    ensures SecondRow(c) * c + SecondCol(c) == 1 && 1 / c0 == SecondRow(c0) && 1 % c0 == SecondCol(c0)
    ensures !((SecondCol(c) * r + SecondRow(c)) % r0 == SecondRow(c0) && (SecondCol(c) * r + SecondRow(c)) / r0 == SecondCol(c0))
  {
    var q := if c > 1 then r else 1;
    assert q == SecondCol(c) * r + SecondRow(c);
    SameFactor(r0, c0, r, c);
    if c0 > 1 {
      assert 1 / c0 == 0 && 1 % c0 == 1;
      assert q != r0;
      assert q % r0 == 0 && q / r0 == 1 ==> q == r0;
    } else {
      assert q == r > 1;
      assert q / r0 == 0 ==> q % r0 == q;
    }
  }

  function Second(c: nat): (nat, nat) -> real {
    (i, j) => if i == SecondRow(c) && j == SecondCol(c) then 1.0 else 0.0
  }

  /** The operand of a given shape whose 2-D form marks the second entry. */
  function Marked(shape: seq<nat>): (t: Tensor)
    requires |shape| <= 2
    ensures Shape(t) == shape
    ensures forall i, j :: 0 <= i < ColumnForm(t).r && 0 <= j < ColumnForm(t).c ==> ColumnForm(t).at[i][j] == Second(ColumnForm(t).c)(i, j)
  {
    Filled(shape, if |shape| == 1 then (i: nat, j: nat) => Second(1)(j, i) else Second(Cols(shape)))
  }

  lemma ReshapeWrong(S: Scalars, sizes: seq<nat>, shape: seq<nat>) returns (t: Tensor)
    requires Typed(S, Reshape(sizes), [shape]) && Handled(Reshape(sizes), [shape]) && !FragmentPrim(Reshape(sizes), [shape])
    ensures Shape(t) == shape && !RightAt(S, Reshape(sizes), [shape], [t])
  {
    hide ColReshape, RowReshape, EvGrid, EvalReshape, HandleReshape, ColumnForm, OrdersAgree;
    assert |shape| <= 2 by { assert [shape][0] == shape; }
    t := Marked(shape);
    OneShape(t);
    var r, c := FormRows(sizes), FormCols(sizes);
    var F, x := ColumnForm(t), Symbols(0, shape);
    FormExtents(t);
    assert EvalNumeric(S, Reshape(sizes), [t]).Some?;
    HandledReshape(sizes, shape);
    ReshapeForm(t, sizes);
    OrdersDiffer(F, r, c);
    SymbolsHold(S, shape, t);
    EvColReshape(S, Forms([t]), x, r, c);
    HandleReshapeIs(x, sizes);
  }

  lemma HandledReshape(sizes: seq<nat>, shape: seq<nat>)
    requires Handled(Reshape(sizes), [shape])
    ensures |sizes| <= 2
  {
    hide ColReshape;
  }

  lemma FormExtents(t: Tensor)
    requires t.rank <= 2
    ensures ColumnForm(t).r == FormRows(Shape(t)) && ColumnForm(t).c == FormCols(Shape(t))
  {
  }

  lemma HandleReshapeIs(x: Sheet, sizes: seq<nat>)
    requires |sizes| <= 2 && Size(x) == FormRows(sizes) * FormCols(sizes)
    ensures HandleReshape(x, sizes) == Some(ColReshape(x, FormRows(sizes), FormCols(sizes)))
  {
    if |sizes| == 0 {
      UnitFactors(x.r, x.c);
      CellReshape(Flip(x));
      FlipFlip(x);
    }
  }

  lemma SymbolsHold(S: Scalars, shape: seq<nat>, t: Tensor)
    requires |shape| <= 2 && Shape(t) == shape
    ensures EvGrid(S, Forms([t]), Symbols(0, shape)) == ColumnForm(t)
  {
    SameEntries(EvGrid(S, Forms([t]), Symbols(0, shape)), ColumnForm(t));
  }

  // ---------------------------------------------------------------- contraction

  /** The first row of ones that a second operand's asymmetry is read with. */
  function FirstColumn(): (nat, nat) -> real {
    (i, j) => if j == 0 then 1.0 else 0.0
  }

  function Corner(): (nat, nat) -> real {
    (i, j) => if i == 0 && j == 1 then 1.0 else 0.0
  }

  /** The contraction of the second axis of a square operand differs from that of the first. */
  lemma TransposeMatters(l: Grid<real>, b: Grid<real>)
    requires l.c == b.c == b.r && b.r >= 2 && l.r > 0
    requires forall i, j :: 0 <= i < l.r && 0 <= j < l.c ==> l.at[i][j] == FirstColumn()(i, j)
    requires forall i, j :: 0 <= i < b.r && 0 <= j < b.c ==> b.at[i][j] == Corner()(i, j)
    ensures Product(l, Flip(b)) != Product(l, b)
  {
    assert l.at[0] == Unit(l.c, 0);
    DotUnit(Column(b, 1), 0);
    DotUnit(Column(Flip(b), 1), 0);
    DotComm(l.at[0], Column(b, 1));
    DotComm(l.at[0], Column(Flip(b), 1));
    assert Product(l, b).at[0][1] == 1.0 && Product(l, Flip(b)).at[0][1] == 0.0;
  }

  /** The operand whose contracted form has ones in its first column. */
  function LeftWitness(shape: seq<nat>, lc: nat): (t: Tensor)
    requires |shape| == 2
    ensures Shape(t) == shape && t.rank == 2
  {
    Filled(shape, if lc == 0 then (i: nat, j: nat) => FirstColumn()(j, i) else FirstColumn())
  }

  lemma LeftWitnessForm(shape: seq<nat>, lc: nat)
    requires |shape| == 2 && lc <= 1
    ensures LeftOperand(LeftWitness(shape, lc), lc).Some?
    ensures forall i, j :: 0 <= i < LeftOperand(LeftWitness(shape, lc), lc).value.r && 0 <= j < LeftOperand(LeftWitness(shape, lc), lc).value.c ==>
              LeftOperand(LeftWitness(shape, lc), lc).value.at[i][j] == FirstColumn()(i, j)
  {
  }

  lemma RightDot(S: Scalars, lc: nat, rc: nat, sa: seq<nat>, sb: seq<nat>, a: Tensor, b: Tensor)
    requires RightAt(S, DotGeneral(lc, rc, false), [sa, sb], [a, b])
    ensures |sa| <= 2 && |sb| <= 2 && EvalDot(a, b, lc, rc).Some? && HandleDot(Symbols(0, sa), Symbols(1, sb), lc).Some?
    ensures SheetHolds(S, Forms([a, b]), EvalDot(a, b, lc, rc).value, HandleDot(Symbols(0, sa), Symbols(1, sb), lc).value)
  {
    hide SheetHolds, EvalDot, HandleDot;
    assert [sa, sb][0] == sa && [sa, sb][1] == sb;
  }

  lemma SquareDot(a: Tensor, b: Tensor, lc: nat)
    requires a.rank == b.rank == 2 && lc <= 1 && LeftOperand(a, lc).value.c == b.g.c
    ensures EvalDot(a, b, lc, 1) == Some(Tensor(2, Product(LeftOperand(a, lc).value, Flip(b.g))))
  {
    hide Product, Flip;
  }

  lemma SquareHandle(S: Scalars, inp: seq<Grid<real>>, x: Sheet, y: Sheet, lc: nat, l: Grid<real>, b: Grid<real>)
    requires EvGrid(S, inp, if lc == 0 then Flip(x) else x) == l && EvGrid(S, inp, y) == b && l.c == b.r
    ensures HandleDot(x, y, lc).Some? && EvGrid(S, inp, HandleDot(x, y, lc).value) == Product(l, b)
  {
    hide EvGrid, Product, CaProduct;
    EvSize(S, inp, if lc == 0 then Flip(x) else x);
    EvSize(S, inp, y);
    ProductMeans(S, inp, if lc == 0 then Flip(x) else x, y);
  }

  /** A wrong contraction of a square operand shows in the values. */
  lemma DotWrongSquare(S: Scalars, lc: nat, sa: seq<nat>, sb: seq<nat>) returns (a: Tensor, b: Tensor)
    requires |sa| == |sb| == 2 && lc <= 1 && sb[0] == sb[1] >= 2 && sa[1 - lc] > 0 && sa[lc] == sb[1]
    ensures Shape(a) == sa && Shape(b) == sb && !RightAt(S, DotGeneral(lc, 1, false), [sa, sb], [a, b])
  {
    hide EvGrid, Product, HandleDot, EvalDot, RightAt, FirstColumn, Corner, LeftWitness, Flip, Shape;
    a, b := LeftWitness(sa, lc), Filled(sb, Corner());
    LeftWitnessForm(sa, lc);
    var l := LeftOperand(a, lc).value;
    var inp, x, y := Forms([a, b]), Symbols(0, sa), Symbols(1, sb);
    TwoSymbolsHold(S, a, b);
    EvFlip(S, inp, x);
    SquareDot(a, b, lc);
    SquareHandle(S, inp, x, y, lc, l, b.g);
    TransposeMatters(l, b.g);
    if RightAt(S, DotGeneral(lc, 1, false), [sa, sb], [a, b]) {
      RightDot(S, lc, 1, sa, sb, a, b);
    }
  }

  lemma TwoSymbolsHold(S: Scalars, a: Tensor, b: Tensor)
    requires a.rank <= 2 && b.rank <= 2
    ensures EvGrid(S, Forms([a, b]), Symbols(0, Shape(a))) == ColumnForm(a)
    ensures EvGrid(S, Forms([a, b]), Symbols(1, Shape(b))) == ColumnForm(b)
  {
    SameEntries(EvGrid(S, Forms([a, b]), Symbols(0, Shape(a))), ColumnForm(a));
    SameEntries(EvGrid(S, Forms([a, b]), Symbols(1, Shape(b))), ColumnForm(b));
  }

  lemma HandledDot(lc: nat, rc: nat, sa: seq<nat>, sb: seq<nat>)
    requires |sa| <= 2 && |sb| <= 2 && Handled(DotGeneral(lc, rc, false), [sa, sb])
    ensures HandleDot(Symbols(0, sa), Symbols(1, sb), lc).Some?
  {
    hide HandleDot;
    assert [sa, sb][0] == sa && [sa, sb][1] == sb;
  }

  /** The size of the 2-D form of a contraction with a matrix. */
  lemma DotFormSize(a: Tensor, b: Tensor, lc: nat, rc: nat)
    requires EvalDot(a, b, lc, rc).Some? && a.rank <= 2 && b.rank == 2
    ensures ColumnForm(EvalDot(a, b, lc, rc).value).r == if a.rank == 1 then Shape(b)[1 - rc] else Shape(a)[1 - lc]
    ensures ColumnForm(EvalDot(a, b, lc, rc).value).c == if a.rank == 1 then 1 else Shape(b)[1 - rc]
  {
    hide Product;
  }

  lemma HandleDotSize(x: Sheet, y: Sheet, lc: nat)
    requires HandleDot(x, y, lc).Some?
    ensures var l := if lc == 0 then Flip(x) else x; var g := HandleDot(x, y, lc).value;
      if IsCell(l) then g.r == y.r && g.c == y.c
      else if IsCell(y) then g.r == l.r && g.c == l.c
      else l.c == y.r && g.r == l.r && g.c == y.c
  {
  }

  /** The other wrong contractions show in the size of the result. */
  lemma DotWrongSize(S: Scalars, lc: nat, rc: nat, sa: seq<nat>, sb: seq<nat>) returns (a: Tensor, b: Tensor)
    requires |sa| <= 2 && |sb| <= 2 && Handled(DotGeneral(lc, rc, false), [sa, sb])
    requires EvalDot(Blank(sa), Blank(sb), lc, rc).Some? && !DotFits(sa, sb, lc, rc)
    requires |sa| == 1 || sb[0] != sb[1]
    ensures Shape(a) == sa && Shape(b) == sb && !RightAt(S, DotGeneral(lc, rc, false), [sa, sb], [a, b])
  {
    hide EvGrid, Product, RightAt, SheetHolds, EvalDot, HandleDot, ColumnForm, Handled;
    HandledDot(lc, rc, sa, sb);
    a, b := Blank(sa), Blank(sb);
    DotExtents(a, b, lc, rc);
    DotFormSize(a, b, lc, rc);
    HandleDotSize(Symbols(0, sa), Symbols(1, sb), lc);
    if RightAt(S, DotGeneral(lc, rc, false), [sa, sb], [a, b]) {
      RightDot(S, lc, rc, sa, sb, a, b);
    }
    SizesDiffer(S, Forms([a, b]), EvalDot(a, b, lc, rc).value, HandleDot(Symbols(0, sa), Symbols(1, sb), lc).value);
  }

  lemma HandledRanks(p: Prim, sa: seq<nat>, sb: seq<nat>)
    requires Handled(p, [sa, sb])
    ensures |sa| <= 2 && |sb| <= 2
  {
    assert [sa, sb][0] == sa && [sa, sb][1] == sb;
  }

  lemma TypedDot(S: Scalars, lc: nat, rc: nat, sa: seq<nat>, sb: seq<nat>)
    requires Typed(S, DotGeneral(lc, rc, false), [sa, sb]) && |sa| <= 2 && |sb| <= 2
    ensures EvalDot(Blank(sa), Blank(sb), lc, rc).Some?
  {
    hide EvalDot;
    TwoShapes(Blank(sa), Blank(sb));
    assert EvalNumeric(S, DotGeneral(lc, rc, false), [Blank(sa), Blank(sb)]).Some?;
  }

  lemma DotExtents(a: Tensor, b: Tensor, lc: nat, rc: nat)
    requires EvalDot(a, b, lc, rc).Some?
    ensures lc < |Shape(a)| && rc < |Shape(b)| && Shape(a)[lc] == Shape(b)[rc]
  {
    hide Product, Flip;
  }

  lemma DotWrong(S: Scalars, lc: nat, rc: nat, sa: seq<nat>, sb: seq<nat>) returns (a: Tensor, b: Tensor)
    requires Typed(S, DotGeneral(lc, rc, false), [sa, sb]) && Handled(DotGeneral(lc, rc, false), [sa, sb])
    requires !FragmentPrim(DotGeneral(lc, rc, false), [sa, sb])
    ensures Shape(a) == sa && Shape(b) == sb && !RightAt(S, DotGeneral(lc, rc, false), [sa, sb], [a, b])
  {
    hide EvGrid, Product, HandleDot, CaProduct, RightAt, Handled, Typed, EvalDot;
    HandledRanks(DotGeneral(lc, rc, false), sa, sb);
    TypedDot(S, lc, rc, sa, sb);
    DotExtents(Blank(sa), Blank(sb), lc, rc);
    if |sa| == 1 || sb[0] != sb[1] {
      a, b := DotWrongSize(S, lc, rc, sa, sb);
    } else {
      a, b := DotWrongSquare(S, lc, sa, sb);
    }
  }

  // ---------------------------------------------------------------- the exact fragment

  /** Outside the fragment there are operands on which the translation is wrong. */
  lemma OutsideWrong(S: Scalars, p: Prim, shapes: seq<seq<nat>>) returns (ts: seq<Tensor>)
    requires Typed(S, p, shapes) && Handled(p, shapes) && !FragmentPrim(p, shapes)
    ensures ShapesOfTensors(ts) == shapes && !RightAt(S, p, shapes, ts)
  {
    hide RightAt, Typed, Handled, FragmentPrim, Shape;
    BlanksShape(S, p, shapes);
    FourPrimitives(p, shapes);
    if p.DotGeneral? {
      ts := TwoOperandsWrong(S, p, shapes);
    } else {
      assert shapes == [shapes[0]];
      var t := OneOperandWrong(S, p, shapes[0]);
      ts := [t];
      OneShape(t);
    }
  }

  lemma TwoOperandsWrong(S: Scalars, p: Prim, shapes: seq<seq<nat>>) returns (ts: seq<Tensor>)
    requires Typed(S, p, shapes) && Handled(p, shapes) && !FragmentPrim(p, shapes)
    requires p.DotGeneral? && !p.batched && |shapes| == 2
    ensures ShapesOfTensors(ts) == shapes && !RightAt(S, p, shapes, ts)
  {
    hide RightAt, Typed, Handled, FragmentPrim, Shape;
    assert shapes == [shapes[0], shapes[1]] && p == DotGeneral(p.lc, p.rc, false);
    var a, b := DotWrong(S, p.lc, p.rc, shapes[0], shapes[1]);
    ts := [a, b];
    TwoShapes(a, b);
  }

  lemma OneOperandWrong(S: Scalars, p: Prim, shape: seq<nat>) returns (t: Tensor)
    requires Typed(S, p, [shape]) && Handled(p, [shape]) && !FragmentPrim(p, [shape]) && !p.DotGeneral?
    ensures Shape(t) == shape && !RightAt(S, p, [shape], [t])
  {
    hide RightAt, Typed, Handled, Shape, OwnExtent, OrdersAgree;
    match p
    case Reshape(sizes) => t := ReshapeWrong(S, sizes, shape);
    case BroadcastInDim(target, dims) => t := BroadcastWrong(S, target, dims, shape);
    case Squeeze(axes) => t := SqueezeWrong(S, axes, shape);
  }

  function Blanks(shapes: seq<seq<nat>>): (ts: seq<Tensor>)
    requires Flat2(shapes)
    ensures |ts| == |shapes| && forall k :: 0 <= k < |ts| ==> ts[k] == Blank(shapes[k])
  {
    seq(|shapes|, k requires 0 <= k < |shapes| => Blank(shapes[k]))
  }

  lemma FourPrimitives(p: Prim, shapes: seq<seq<nat>>)
    ensures !FragmentPrim(p, shapes) ==> p.DotGeneral? || p.Reshape? || p.BroadcastInDim? || p.Squeeze?
  {
  }

  lemma BlanksShape(S: Scalars, p: Prim, shapes: seq<seq<nat>>)
    requires Typed(S, p, shapes) && Handled(p, shapes)
    ensures EvalNumeric(S, p, Blanks(shapes)).Some?
    ensures p.DotGeneral? ==> !p.batched && |shapes| == 2
    ensures p.Reshape? || p.BroadcastInDim? || p.Squeeze? ==> |shapes| == 1
  {
    hide EvalDot, EvalReshape, EvalBroadcast, EvalSqueeze, EvalBinary, EvalConcatenate, EvalTranspose, EvalSlice, HandleNumeric;
    assert ShapesOfTensors(Blanks(shapes)) == shapes;
  }

  lemma InsideRight(S: Scalars, p: Prim, shapes: seq<seq<nat>>, ts: seq<Tensor>)
    requires PowLaw(S) && Handled(p, shapes) && FragmentPrim(p, shapes)
    requires ShapesOfTensors(ts) == shapes && EvalNumeric(S, p, ts).Some?
    ensures RightAt(S, p, shapes, ts)
  {
    hide HandleNumeric, EvalNumeric, FragmentPrim, PowLaw, SheetHolds;
    forall k | 0 <= k < |ts| ensures SheetHolds(S, Forms(ts), ts[k], SymbolSheets(shapes)[k]) {
      assert |shapes[k]| <= 2;
      SymbolSheetHolds(S, ts, k);
    }
    HandleNumericMeans(S, Forms(ts), p, ts, shapes, SymbolSheets(shapes));
  }

  lemma SymbolSheetHolds(S: Scalars, ts: seq<Tensor>, k: nat)
    requires k < |ts| && ts[k].rank <= 2
    ensures SheetHolds(S, Forms(ts), ts[k], Symbols(k, Shape(ts[k])))
  {
    SameEntries(EvGrid(S, Forms(ts), Symbols(k, Shape(ts[k]))), ColumnForm(ts[k]));
  }

  /** A typed and handled application is translated correctly on all operands exactly when it is in the fragment. */
  lemma FragmentIsExact(S: Scalars, p: Prim, shapes: seq<seq<nat>>)
    requires PowLaw(S) && Typed(S, p, shapes) && Handled(p, shapes)
    ensures Right(S, p, shapes) <==> FragmentPrim(p, shapes)
  {
    hide Handled, FragmentPrim, RightAt, EvalNumeric, PowLaw;
    if FragmentPrim(p, shapes) {
      forall ts {:trigger ShapesOfTensors(ts)} | ShapesOfTensors(ts) == shapes ensures RightAt(S, p, shapes, ts) {
        InsideRight(S, p, shapes, ts);
      }
    } else {
      var ts := OutsideWrong(S, p, shapes);
    }
  }
}
