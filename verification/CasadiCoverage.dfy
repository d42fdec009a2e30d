/**
 Which programs the CasADi translator accepts: a static predicate on the program and the sizes of
 its inputs and constants, and the proof that translation succeeds exactly when it holds. It
 tracks nothing but sizes, and the predicates known while translating.
 */
module CasadiCoverage {
  import opened Wrappers
  import opened Grids
  import opened Jaxpr
  import opened Casadi

  /** What is known of a value before the function is called: the size of its matrix, or its truth. */
  datatype Kind = Matrix(r: nat, c: nat) | Known(b: bool)

  const UNARY: set<UnOp> := {Neg, Exp, Log, Sqrt, Sin, Cos, Tan}
  const TILED: set<BinOp> := {AddOp, SubOp, MulOp, DivOp}
  const CELL := Matrix(1, 1)

  predicate Divides(m: nat, n: nat) {
    m > 0 && n % m == 0
  }

  /** One extent is a multiple of the other, and neither is 0. */
  predicate Repeats(m: nat, n: nat) {
    m > 0 && n > 0 && (Divides(m, n) || Divides(n, m))
  }

  /** A scalar goes with everything, equal sizes go together. */
  predicate Aligned(a: Kind, b: Kind) {
    a == CELL || b == CELL || a == b
  }

  predicate Tiles(a: Kind, b: Kind)
    requires a.Matrix? && b.Matrix?
  {
    Repeats(a.r, b.r) && Repeats(a.c, b.c)
  }

  predicate Nonempty(a: Kind)
    requires a.Matrix?
  {
    a.r > 0 && a.c > 0
  }

  function Turned(a: Kind): Kind
    requires a.Matrix?
  {
    Matrix(a.c, a.r)
  }

  predicate AllMatrices(ks: seq<Kind>) {
    forall i :: 0 <= i < |ks| ==> ks[i].Matrix?
  }

  /** The shapes a scalar is passed through to. */
  predicate ScalarShape(shape: seq<nat>) {
    shape == [] || shape == [1] || shape == [1, 1]
  }

  /** The left operand of a contraction, its contracted axis last. */
  function Left(a: Kind, lc: nat): Kind
    requires a.Matrix?
  {
    if lc == 0 then Turned(a) else a
  }

  /** The primitives and parameter forms that have a handler, for operands of these kinds. */
  predicate Accepts(p: Prim, ks: seq<Kind>) {
    match p
    case SelectN => |ks| >= 3 && ks[0].Known?
    case Unary(op) => op in UNARY && |ks| >= 1 && AllMatrices(ks)
    case Binary(op) =>
      && |ks| >= 2 && AllMatrices(ks)
      && (Aligned(ks[0], ks[1]) || Tiles(ks[0], ks[1]))
      && (if op.PowOp? then Aligned(ks[0], ks[1]) else op in TILED)
    case IntegerPow(_) => |ks| >= 1 && AllMatrices(ks)
    case ConvertElementType => |ks| >= 1 && AllMatrices(ks)
    case Squeeze(_) => |ks| >= 1 && AllMatrices(ks)
    case DotGeneral(lc, _, batched) =>
      && |ks| >= 2 && AllMatrices(ks) && !batched
      && (Left(ks[0], lc) == CELL || ks[1] == CELL || Left(ks[0], lc).c == ks[1].r)
    case Reshape(sizes) =>
      && |ks| >= 1 && AllMatrices(ks) && |sizes| <= 2
      && (sizes == [] || ks[0].r * ks[0].c == sizes[0] * (if |sizes| == 2 then sizes[1] else 1))
    case BroadcastInDim(shape, dims) =>
      && |ks| >= 1 && AllMatrices(ks)
      && (if dims == [] then ScalarShape(shape) || Nonempty(ks[0])
          else |shape| <= 1 || (|shape| == 2 && (dims == [0] || dims == [1]) && (shape[1 - dims[0]] == 1 || Nonempty(ks[0]))))
    case Concatenate(dim) =>
      && |ks| >= 1 && AllMatrices(ks)
      && ((dim == 0 && forall i :: 0 <= i < |ks| ==> ks[i].c == ks[0].c) || (dim == 1 && forall i :: 0 <= i < |ks| ==> ks[i].r == ks[0].r))
    case Transpose(perm) => |ks| >= 1 && AllMatrices(ks) && (perm == [0] || perm == [0, 1] || perm == [1, 0])
    case Slice(start, limit, strided) =>
      && |ks| >= 1 && AllMatrices(ks) && !strided && |start| == |limit| && 1 <= |start| <= 2
      && start[0] <= limit[0] <= ks[0].r
      && (if |start| == 1 then ks[0].c == 1 else start[1] <= limit[1] <= ks[0].c)
    case Other(_) => false
  }

  function SumRows(ks: seq<Kind>): nat
    requires AllMatrices(ks)
  {
    if |ks| == 0 then 0 else ks[0].r + SumRows(ks[1..])
  }

  function SumCols(ks: seq<Kind>): nat
    requires AllMatrices(ks)
  {
    if |ks| == 0 then 0 else ks[0].c + SumCols(ks[1..])
  }

  /** The larger of two sizes that go together. */
  function Common(a: Kind, b: Kind): Kind
    requires a.Matrix? && b.Matrix?
  {
    if a == CELL then b else if b == CELL then a else Matrix(Max(a.r, b.r), Max(a.c, b.c))
  }

  /** The kind of the result. */
  function Yields(p: Prim, ks: seq<Kind>): Kind
    requires Accepts(p, ks)
  {
    match p
    case SelectN => if ks[0].b then ks[2] else ks[1]
    case Binary(_) => Common(ks[0], ks[1])
    case DotGeneral(lc, _, _) =>
      var l := Left(ks[0], lc);
      if l == CELL then ks[1] else if ks[1] == CELL then l else Matrix(l.r, ks[1].c)
    case Reshape(sizes) => if sizes == [] then ks[0] else Matrix(sizes[0], if |sizes| == 2 then sizes[1] else 1)
    case BroadcastInDim(shape, dims) =>
      if dims == [] then
        if ScalarShape(shape) then ks[0] else Matrix(shape[0] * ks[0].r, (if |shape| == 2 then shape[1] else 1) * ks[0].c)
      else if |shape| <= 1 then ks[0]
      else if dims == [0] then Matrix(ks[0].r, shape[1] * ks[0].c)
      else Matrix(shape[0] * ks[0].c, ks[0].r)
    case Concatenate(dim) => if dim == 0 then Matrix(SumRows(ks), ks[0].c) else Matrix(ks[0].r, SumCols(ks))
    case Transpose(perm) => if perm == [1, 0] then Turned(ks[0]) else ks[0]
    case Slice(start, limit, _) => Matrix(limit[0] - start[0], if |start| == 1 then 1 else limit[1] - start[1])
    case _ => ks[0]
  }

  // ---------------------------------------------------------------- programs

  type Kinds = map<Var, Kind>

  predicate InScope(env: Kinds, atoms: seq<Atom>) {
    forall i :: 0 <= i < |atoms| && atoms[i].V? ==> atoms[i].id in env
  }

  function KindOf(env: Kinds, a: Atom): Kind
    requires a.V? ==> a.id in env
  {
    match a
    case Lit(_) => CELL
    case LitFlag(b) => Known(b)
    case V(id) => env[id]
  }

  function KindsOf(env: Kinds, atoms: seq<Atom>): (ks: seq<Kind>)
    requires InScope(env, atoms)
    ensures |ks| == |atoms| && forall i :: 0 <= i < |atoms| ==> ks[i] == KindOf(env, atoms[i])
  {
    seq(|atoms|, i requires 0 <= i < |atoms| => KindOf(env, atoms[i]))
  }

  /** A primitive is accepted for its operands' kinds, or a jit whose body is; the body's constants are not in scope. */
  predicate AcceptsEqn(env: Kinds, eqn: Eqn)
    decreases eqn, 0
  {
    InScope(env, eqn.ins) &&
    match eqn
    case Op(p, ins, _, _) => Accepts(p, KindsOf(env, ins))
    case Call(kind, body, _, ins, _) =>
      var inner := Bind(env, body.invars, KindsOf(env, ins));
      && (kind.Pjit? || kind.Jit?)
      && AcceptsEqns(inner, body.eqns)
      && InScope(AfterAll(inner, body.eqns), body.outs)
  }

  predicate AcceptsEqns(env: Kinds, eqns: seq<Eqn>)
    decreases eqns, 2
  {
    |eqns| > 0 ==> AcceptsEqn(env, eqns[0]) && AcceptsEqns(After(env, eqns[0]), eqns[1..])
  }

  /** The kinds after an accepted equation. */
  function After(env: Kinds, eqn: Eqn): Kinds
    requires AcceptsEqn(env, eqn)
    decreases eqn, 1
  {
    match eqn
    case Op(p, ins, _, out) => env[out := Yields(p, KindsOf(env, ins))]
    case Call(_, body, _, ins, outs) =>
      Bind(env, outs, KindsOf(AfterAll(Bind(env, body.invars, KindsOf(env, ins)), body.eqns), body.outs))
  }

  function AfterAll(env: Kinds, eqns: seq<Eqn>): Kinds
    requires AcceptsEqns(env, eqns)
    decreases eqns, 3
  {
    if |eqns| == 0 then env else AfterAll(After(env, eqns[0]), eqns[1..])
  }

  /** A vector is a column. */
  function MatrixOf(shape: seq<nat>): Kind {
    Matrix(if |shape| == 0 then 1 else shape[0], if |shape| == 2 then shape[1] else 1)
  }

  function MatrixKinds(shapes: seq<seq<nat>>): (ks: seq<Kind>)
    ensures |ks| == |shapes| && forall i :: 0 <= i < |ks| ==> ks[i] == MatrixOf(shapes[i])
  {
    seq(|shapes|, i requires 0 <= i < |shapes| => MatrixOf(shapes[i]))
  }

  predicate Accepted(prog: Program, consts: seq<seq<nat>>, shapes: seq<seq<nat>>) {
    && (forall i :: 0 <= i < |shapes| ==> |shapes[i]| <= 2)
    && (forall i :: 0 <= i < |consts| ==> |consts[i]| <= 2)
    && var env := Bind(Bind(map[], prog.invars, MatrixKinds(shapes)), prog.constvars, MatrixKinds(consts));
      AcceptsEqns(env, prog.eqns) && InScope(AfterAll(env, prog.eqns), prog.outs)
  }

  // ---------------------------------------------------------------- handlers against their acceptance

  function KindIn(x: CaValue): Kind {
    match x
    case Sx(g) => Matrix(g.r, g.c)
    case Static(b) => Known(b)
  }

  function SheetKind(g: Sheet): Kind {
    Matrix(g.r, g.c)
  }

  function KindsAll(xs: seq<CaValue>): (ks: seq<Kind>)
    ensures |ks| == |xs| && forall i :: 0 <= i < |ks| ==> ks[i] == KindIn(xs[i])
  {
    seq(|xs|, i requires 0 <= i < |xs| => KindIn(xs[i]))
  }

  function SheetKinds(gs: seq<Sheet>): (ks: seq<Kind>)
    ensures |ks| == |gs| && AllMatrices(ks) && forall i :: 0 <= i < |ks| ==> ks[i] == SheetKind(gs[i])
  {
    seq(|gs|, i requires 0 <= i < |gs| => SheetKind(gs[i]))
  }

  lemma CaBinaryAccepts(op: BinOp, a: Sheet, b: Sheet)
    ensures CaBinary(op, a, b).Some? <==> Aligned(SheetKind(a), SheetKind(b))
    ensures CaBinary(op, a, b).Some? ==> SheetKind(CaBinary(op, a, b).value) == Common(SheetKind(a), SheetKind(b))
  {
  }

  /** Copies make up an extent exactly when they divide it. */
  lemma WholeCopies(m: nat, n: nat)
    requires 0 < m
    ensures m * (n / m) == n <==> Divides(m, n)
    ensures m <= n ==> m <= m * (n / m) <= n
  {
    assert n == n / m * m + n % m;
    if m <= n {
      assert n / m >= 1;
      NoLess(n / m, m);
    }
  }

  lemma NoLess(k: nat, m: nat)
    requires k >= 1
    ensures m <= m * k
  {
  }

  lemma DividesLarger(m: nat, n: nat)
    requires 0 < m < n
    ensures !Divides(n, m)
  {
    assert m % n == m;
  }

  /** Tiling both operands to the larger extents succeeds exactly when extents repeat. */
  lemma TilesAccept(a: Sheet, b: Sheet)
    requires !Aligned(SheetKind(a), SheetKind(b))
    ensures var rows, cols := Max(a.r, b.r), Max(a.c, b.c);
      var x, y := TileTo(a, rows, cols), TileTo(b, rows, cols);
      x.Some? && y.Some? && Aligned(SheetKind(x.value), SheetKind(y.value)) <==> Tiles(SheetKind(a), SheetKind(b))
    ensures var rows, cols := Max(a.r, b.r), Max(a.c, b.c);
      var x, y := TileTo(a, rows, cols), TileTo(b, rows, cols);
      Tiles(SheetKind(a), SheetKind(b)) ==> SheetKind(x.value) == SheetKind(y.value) == Matrix(rows, cols)
  {
    hide Divides;
    var rows, cols := Max(a.r, b.r), Max(a.c, b.c);
    if a.r > 0 && a.c > 0 && b.r > 0 && b.c > 0 {
      ExtentTiles(a.r, b.r);
      ExtentTiles(a.c, b.c);
      ExtentTiles(b.r, a.r);
      ExtentTiles(b.c, a.c);
      TiledSize(a, rows, cols);
      TiledSize(b, rows, cols);
    }
  }

  lemma ExtentTiles(m: nat, n: nat)
    requires m > 0 && n > 0
    ensures m * (Max(m, n) / m) == Max(m, n) <==> n <= m || Divides(m, n)
    ensures m <= m * (Max(m, n) / m) <= Max(m, n)
    ensures Repeats(m, n) <==> m == n || (m < n && Divides(m, n)) || (n < m && Divides(n, m))
  {
    WholeCopies(m, Max(m, n));
    WholeCopies(m, m);
    if m < n {
      DividesLarger(m, n);
    } else if n < m {
      DividesLarger(n, m);
      assert Divides(m, m);
    } else {
      assert Divides(m, m);
    }
  }

  lemma TiledSize(a: Sheet, rows: nat, cols: nat)
    requires a.r > 0 && a.c > 0 && a.r <= rows && a.c <= cols
    ensures TileTo(a, rows, cols).Some?
    ensures TileTo(a, rows, cols).value.r == a.r * (rows / a.r) && TileTo(a, rows, cols).value.c == a.c * (cols / a.c)
  {
    WholeCopies(a.r, rows);
    WholeCopies(a.c, cols);
    assert Divides(a.r, a.r) && Divides(a.c, a.c);
  }

  lemma ArithAccepts(op: BinOp, a: Sheet, b: Sheet)
    ensures var ka, kb := SheetKind(a), SheetKind(b);
      && (Arith(op, a, b).Some? <==> Aligned(ka, kb) || Tiles(ka, kb))
      && (Arith(op, a, b).Some? ==> SheetKind(Arith(op, a, b).value) == Common(ka, kb))
  {
    hide CaBinary, TileTo, Tiles;
    var ka, kb := SheetKind(a), SheetKind(b);
    CaBinaryAccepts(op, a, b);
    if !Aligned(ka, kb) {
      TilesAccept(a, b);
      var rows, cols := Max(a.r, b.r), Max(a.c, b.c);
      var x, y := TileTo(a, rows, cols), TileTo(b, rows, cols);
      if x.Some? && y.Some? {
        CaBinaryAccepts(op, x.value, y.value);
      }
    }
  }

  lemma PowAccepts(g: Sheet, y: int)
    ensures HandlePow(g, y).Some? && SheetKind(HandlePow(g, y).value) == SheetKind(g)
  {
    hide CaBinary;
    CaBinaryAccepts(MulOp, g, g);
    if y == 3 {
      CaBinaryAccepts(MulOp, CaBinary(MulOp, g, g).value, g);
    }
  }

  lemma DotAccepts(lc: nat, a: Sheet, b: Sheet)
    ensures var ks := [SheetKind(a), SheetKind(b)];
      && (HandleDot(a, b, lc).Some? <==> Accepts(DotGeneral(lc, 0, false), ks))
      && (HandleDot(a, b, lc).Some? ==> SheetKind(HandleDot(a, b, lc).value) == Yields(DotGeneral(lc, 0, false), ks))
  {
    var l := if lc == 0 then Flip(a) else a;
    CaBinaryAccepts(MulOp, l, b);
  }

  lemma ReshapeAccepts(x: Sheet, sizes: seq<nat>)
    ensures var ks := [SheetKind(x)];
      && (HandleReshape(x, sizes).Some? <==> Accepts(Reshape(sizes), ks))
      && (HandleReshape(x, sizes).Some? ==> SheetKind(HandleReshape(x, sizes).value) == Yields(Reshape(sizes), ks))
  {
    hide ColReshape;
  }

  lemma BroadcastAccepts(x: Sheet, shape: seq<nat>, dims: seq<nat>)
    ensures var ks := [SheetKind(x)];
      && (HandleBroadcast(x, shape, dims).Some? <==> Accepts(BroadcastInDim(shape, dims), ks))
      && (HandleBroadcast(x, shape, dims).Some? ==> SheetKind(HandleBroadcast(x, shape, dims).value) == Yields(BroadcastInDim(shape, dims), ks))
  {
    hide Tile, Flip;
  }

  lemma {:induction false} StackSize(gs: seq<Sheet>)
    requires SameCols(gs)
    ensures Stack(gs).r == SumRows(SheetKinds(gs))
  {
    if |gs| == 1 {
      assert SheetKinds(gs)[1..] == [];
    } else {
      StackSize(gs[1..]);
      assert SheetKinds(gs)[1..] == SheetKinds(gs[1..]);
    }
  }

  lemma {:induction false} FlippedSum(gs: seq<Sheet>)
    ensures SumRows(SheetKinds(FlipAll(gs))) == SumCols(SheetKinds(gs))
  {
    if |gs| > 0 {
      FlippedSum(gs[1..]);
      assert SheetKinds(FlipAll(gs))[1..] == SheetKinds(FlipAll(gs[1..])) && SheetKinds(gs)[1..] == SheetKinds(gs[1..]);
    }
  }

  lemma ConcatenateAccepts(gs: seq<Sheet>, dim: nat)
    ensures var ks := SheetKinds(gs);
      && (HandleConcatenate(gs, dim).Some? <==> Accepts(Concatenate(dim), ks))
      && (HandleConcatenate(gs, dim).Some? ==> SheetKind(HandleConcatenate(gs, dim).value) == Yields(Concatenate(dim), ks))
  {
    hide Stack, SumRows, SumCols;
    if dim == 0 && SameCols(gs) {
      StackSize(gs);
    }
    if dim == 1 && SameRows(gs) {
      StackSize(FlipAll(gs));
      FlippedSum(gs);
    }
  }

  lemma TransposeSliceAccept(x: Sheet, perm: seq<nat>, start: seq<nat>, limit: seq<nat>)
    ensures var ks := [SheetKind(x)];
      && (HandleTranspose(x, perm).Some? <==> Accepts(Transpose(perm), ks))
      && (HandleTranspose(x, perm).Some? ==> SheetKind(HandleTranspose(x, perm).value) == Yields(Transpose(perm), ks))
      && (HandleSlice(x, start, limit).Some? <==> Accepts(Slice(start, limit, false), ks))
      && (HandleSlice(x, start, limit).Some? ==> SheetKind(HandleSlice(x, start, limit).value) == Yields(Slice(start, limit, false), ks))
  {
    hide Window, Flip;
  }

  /** Acceptance looks at no operand but the first, and at most the second. */
  lemma FirstOnly(p: Prim, ks: seq<Kind>)
    requires AllMatrices(ks) && |ks| >= 1
    ensures p.Reshape? || p.BroadcastInDim? || p.Transpose? || p.Slice? ==>
      (Accepts(p, ks) <==> Accepts(p, [ks[0]])) && (Accepts(p, ks) ==> Yields(p, ks) == Yields(p, [ks[0]]))
    ensures p.DotGeneral? && |ks| >= 2 ==>
      (Accepts(p, ks) <==> !p.batched && Accepts(DotGeneral(p.lc, 0, false), [ks[0], ks[1]]))
      && (Accepts(p, ks) ==> Yields(p, ks) == Yields(DotGeneral(p.lc, 0, false), [ks[0], ks[1]]))
  {
  }

  lemma HandleNumericAccepts(p: Prim, gs: seq<Sheet>)
    requires !p.SelectN?
    ensures HandleNumeric(p, gs).Some? <==> Accepts(p, SheetKinds(gs))
    ensures HandleNumeric(p, gs).Some? ==> SheetKind(HandleNumeric(p, gs).value) == Yields(p, SheetKinds(gs))
  {
    hide Arith, CaBinary, HandlePow, HandleDot, HandleReshape, HandleBroadcast, HandleConcatenate, HandleTranspose, HandleSlice;
    var ks := SheetKinds(gs);
    if |gs| >= 1 {
      FirstOnly(p, ks);
    }
    match p
    case Unary(_) =>
    case Binary(op) =>
      if |gs| >= 2 {
        ArithAccepts(op, gs[0], gs[1]);
        CaBinaryAccepts(op, gs[0], gs[1]);
      }
    case IntegerPow(y) => if |gs| >= 1 { PowAccepts(gs[0], y); }
    case DotGeneral(lc, _, _) => if |gs| >= 2 { DotAccepts(lc, gs[0], gs[1]); }
    case ConvertElementType =>
    case Reshape(sizes) => if |gs| >= 1 { ReshapeAccepts(gs[0], sizes); }
    case BroadcastInDim(shape, dims) => if |gs| >= 1 { BroadcastAccepts(gs[0], shape, dims); }
    case Squeeze(_) =>
    case Concatenate(dim) => ConcatenateAccepts(gs, dim);
    case Transpose(perm) => if |gs| >= 1 { TransposeSliceAccept(gs[0], perm, [], []); }
    case Slice(start, limit, _) => if |gs| >= 1 { TransposeSliceAccept(gs[0], [], start, limit); }
    case Other(_) =>
  }

  lemma {:induction false} SheetsAccept(xs: seq<CaValue>)
    ensures Casadi.Sheets(xs).Some? <==> AllMatrices(KindsAll(xs))
    ensures Casadi.Sheets(xs).Some? ==> SheetKinds(Casadi.Sheets(xs).value) == KindsAll(xs)
  {
    if |xs| > 0 {
      SheetsAccept(xs[1..]);
      assert KindsAll(xs)[1..] == KindsAll(xs[1..]);
      assert forall i :: 0 < i < |xs| ==> KindsAll(xs)[i] == KindsAll(xs[1..])[i - 1];
    }
  }

  /** A handler succeeds exactly on accepted operands, with a result of the kind foreseen. */
  lemma HandleAccepts(p: Prim, xs: seq<CaValue>)
    ensures Handle(p, xs).Some? <==> Accepts(p, KindsAll(xs))
    ensures Handle(p, xs).Some? ==> KindIn(Handle(p, xs).value) == Yields(p, KindsAll(xs))
  {
    hide HandleNumeric;
    if !p.SelectN? {
      SheetsAccept(xs);
      MatricesNeeded(p, KindsAll(xs));
      if Casadi.Sheets(xs).Some? {
        HandleNumericAccepts(p, Casadi.Sheets(xs).value);
      }
    }
  }

  lemma MatricesNeeded(p: Prim, ks: seq<Kind>)
    ensures !p.SelectN? && Accepts(p, ks) ==> AllMatrices(ks)
  {
  }

  // ---------------------------------------------------------------- the translator against acceptance

  function KindsIn(env: CaEnv): (ks: Kinds)
    ensures ks.Keys == env.Keys && forall v :: v in env ==> ks[v] == KindIn(env[v])
  {
    map v | v in env :: KindIn(env[v])
  }

  lemma {:induction false} ResolveAccepts(env: CaEnv, atoms: seq<Atom>)
    ensures Casadi.ResolveAll(env, atoms).Some? <==> InScope(KindsIn(env), atoms)
    ensures Casadi.ResolveAll(env, atoms).Some? ==> KindsAll(Casadi.ResolveAll(env, atoms).value) == KindsOf(KindsIn(env), atoms)
  {
    if |atoms| > 0 {
      ResolveAccepts(env, atoms[1..]);
      assert forall i :: 0 < i < |atoms| ==> atoms[i] == atoms[1..][i - 1];
    }
  }

  lemma {:induction false} BindKinds(env: CaEnv, vars: seq<Var>, xs: seq<CaValue>)
    ensures KindsIn(Bind(env, vars, xs)) == Bind(KindsIn(env), vars, KindsAll(xs))
    decreases |vars|
  {
    if |vars| > 0 && |xs| > 0 {
      BindKinds(env[vars[0] := xs[0]], vars[1..], xs[1..]);
      assert KindsAll(xs)[1..] == KindsAll(xs[1..]);
      assert KindsIn(env[vars[0] := xs[0]]) == KindsIn(env)[vars[0] := KindIn(xs[0])];
    }
  }

  lemma {:induction false} EqnAccepts(env: CaEnv, eqn: Eqn)
    ensures TranslateEqn(env, eqn).Some? <==> AcceptsEqn(KindsIn(env), eqn)
    ensures TranslateEqn(env, eqn).Some? ==> KindsIn(TranslateEqn(env, eqn).value) == After(KindsIn(env), eqn)
    decreases eqn, 0
  {
    hide Handle, Accepts, Yields, InScope, Casadi.ResolveAll, Bind;
    ResolveAccepts(env, eqn.ins);
    var args := Casadi.ResolveAll(env, eqn.ins);
    if args.Some? {
      match eqn
      case Op(p, _, _, out) =>
        HandleAccepts(p, args.value);
        if Handle(p, args.value).Some? {
          assert KindsIn(env[out := Handle(p, args.value).value]) == KindsIn(env)[out := KindIn(Handle(p, args.value).value)];
        }
      case Call(kind, body, _, _, outs) =>
        var inner := Bind(env, body.invars, args.value);
        BindKinds(env, body.invars, args.value);
        EqnsAccept(inner, body.eqns);
        var final := TranslateEqns(inner, body.eqns);
        if final.Some? {
          ResolveAccepts(final.value, body.outs);
          var results := Casadi.ResolveAll(final.value, body.outs);
          if results.Some? {
            BindKinds(env, outs, results.value);
          }
        }
    }
  }

  lemma {:induction false} EqnsAccept(env: CaEnv, eqns: seq<Eqn>)
    ensures TranslateEqns(env, eqns).Some? <==> AcceptsEqns(KindsIn(env), eqns)
    ensures TranslateEqns(env, eqns).Some? ==> KindsIn(TranslateEqns(env, eqns).value) == AfterAll(KindsIn(env), eqns)
    decreases eqns, 1
  {
    hide TranslateEqn, AcceptsEqn, After;
    if |eqns| > 0 {
      EqnAccepts(env, eqns[0]);
      if TranslateEqn(env, eqns[0]).Some? {
        EqnsAccept(TranslateEqn(env, eqns[0]).value, eqns[1..]);
      }
    }
  }

  lemma InputKinds(shapes: seq<seq<nat>>)
    requires Flat2(shapes)
    ensures KindsAll(InputValues(shapes)) == MatrixKinds(shapes)
  {
  }

  lemma ConstKinds(consts: seq<Tensor>)
    requires Matrices(consts)
    ensures KindsAll(ConstValues(consts)) == MatrixKinds(ShapesOfTensors(consts))
  {
    forall i | 0 <= i < |consts| ensures KindIn(ConstValues(consts)[i]) == MatrixOf(Shape(consts[i])) {
    }
  }

  lemma ConstRanks(consts: seq<Tensor>)
    ensures var shapes := ShapesOfTensors(consts);
      Matrices(consts) <==> forall i :: 0 <= i < |shapes| ==> |shapes[i]| <= 2
  {
    var shapes := ShapesOfTensors(consts);
    forall i | 0 <= i < |consts| ensures |shapes[i]| == consts[i].rank {
    }
  }

  /** Translation succeeds exactly on accepted programs. */
  lemma TranslateAccepts(prog: Program, consts: seq<Tensor>, shapes: seq<seq<nat>>)
    ensures Translate(prog, consts, shapes).Some? <==> Accepted(prog, ShapesOfTensors(consts), shapes)
  {
    hide TranslateEqns, AcceptsEqns, AfterAll, InScope, Casadi.ResolveAll, Bind;
    ConstRanks(consts);
    if Flat2(shapes) && Matrices(consts) {
      InputKinds(shapes);
      ConstKinds(consts);
      var env0 := Bind(map[], prog.invars, InputValues(shapes));
      var env := Bind(env0, prog.constvars, ConstValues(consts));
      BindKinds(map[], prog.invars, InputValues(shapes));
      assert KindsIn(map[]) == map[];
      BindKinds(env0, prog.constvars, ConstValues(consts));
      EqnsAccept(env, prog.eqns);
      var final := TranslateEqns(env, prog.eqns);
      if final.Some? {
        ResolveAccepts(final.value, prog.outs);
      }
    }
  }
}
