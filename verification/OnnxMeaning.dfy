/**
 The exporter preserves meaning: for every nested program it accepts, running the flat graph
 gives what evaluating the program gives. The conditions on the program are static and are
 shown to be the exact ones, primitive by primitive.
 */
module OnnxMeaning {
  import opened Wrappers
  import opened Decimal
  import opened Grids
  import opened Linear
  import opened Jaxpr
  import opened OnnxGraph
  import opened OnnxEmit

  // ---------------------------------------------------------------- the fragment

  /** dot_general contracts the last axis of its left operand or one that may stand for it, and a reshape
      asks for an extent 0 only where the operand has one. `MatMulExact` and `ReshapeExact` show both exact. */
  predicate StandardPrim(p: Prim, shapes: seq<seq<nat>>) {
    match p
    case DotGeneral(lc, _, _) => |shapes| == 2 && (lc == |shapes[0]| - 1 || MayContract(lc, shapes[0], shapes[1]))
    case Reshape(sizes) => |shapes| > 0 && ZerosKept(shapes[0], sizes)
    case _ => true
  }

  predicate MayContract(lc: nat, a: seq<nat>, b: seq<nat>) {
    lc == 0 && |a| == 2 && ContractsEither(a[0], a[1], |b| == 1, if |b| == 2 then b[1] else 0)
  }

  predicate StandardEqn(eqn: Eqn)
    decreases eqn, 0
  {
    match eqn
    case Op(p, _, shapes, _) => StandardPrim(p, shapes)
    case Call(_, body, _, _, _) => Standard(body)
  }

  predicate StandardEqns(eqns: seq<Eqn>)
    decreases eqns, 1
  {
    |eqns| > 0 ==> StandardEqn(eqns[0]) && StandardEqns(eqns[1..])
  }

  predicate Standard(prog: Program)
    decreases prog, 2
  {
    StandardEqns(prog.eqns)
  }

  // ---------------------------------------------------------------- the values of a graph under construction

  function Vals(S: Scalars, e: Emit, inp: Store): Option<Store> {
    RunNodes(S, e.nodes, Load(inp, e.inits))
  }

  ghost predicate Runs(S: Scalars, e: Emit, rim: Rim, inp: Store) {
    Good(e, rim) && inp.Keys == rim.inputs && Vals(S, e, inp).Some?
  }

  ghost predicate Extends(v: Store, w: Store) {
    forall k :: k in v ==> k in w && w[k] == v[k]
  }

  /** Name x carries tensor t. */
  predicate Carries(vals: Store, x: string, t: Tensor) {
    x in vals && vals[x] == Float(t)
  }

  /** Every variable bound to a tensor has a name that carries it. */
  ghost predicate Agree(jenv: Env, env: Names, vals: Store) {
    forall v :: v in jenv && jenv[v].Num? ==> v in env && Carries(vals, env[v], jenv[v].t)
  }

  lemma ValsKeys(S: Scalars, e: Emit, rim: Rim, inp: Store)
    requires Runs(S, e, rim, inp)
    ensures Vals(S, e, inp).value.Keys <= Known(e, rim)
  {
    LoadKeys(inp, e.inits);
    RunKeys(S, e.nodes, Load(inp, e.inits));
  }

  lemma AddInitVals(S: Scalars, e: Emit, rim: Rim, inp: Store, stem: string, value: GraphValue)
    requires Runs(S, e, rim, inp) && IsStem(stem)
    ensures var s := AddInit(e, stem, value); var vals := Vals(S, e, inp).value;
      Runs(S, s.e, rim, inp) && Vals(S, s.e, inp) == Some(vals[s.v := value]) && Extends(vals, vals[s.v := value])
  {
    hide Good, IsStem, FreshName, RunNode;
    var s := AddInit(e, stem, value);
    AddInitGood(e, rim, stem, value);
    LoadKeys(inp, e.inits);
    LoadAppend(inp, e.inits, Init(s.v, value));
    RunExtended(S, e.nodes, Load(inp, e.inits), s.v, value);
    ValsKeys(S, e, rim, inp);
  }

  lemma AddNodeVals(S: Scalars, e: Emit, rim: Rim, inp: Store, op: OpType, xs: seq<string>, r: GraphValue)
    requires Runs(S, e, rim, inp) && op != IdentityN
    requires Fetch(Vals(S, e, inp).value, xs).Some?
    requires RunNode(S, op, Fetch(Vals(S, e, inp).value, xs).value) == Some(r)
    ensures var s := AddNode(e, op, xs); var vals := Vals(S, e, inp).value;
      Runs(S, s.e, rim, inp) && Vals(S, s.e, inp) == Some(vals[s.v := r]) && Extends(vals, vals[s.v := r])
  {
    hide Good, FreshName, RunNode;
    var s := AddNode(e, op, xs);
    ValsKeys(S, e, rim, inp);
    FetchedKnown(Vals(S, e, inp).value, xs);
    AddNodeGood(e, rim, op, xs);
    RunAppend(S, e.nodes, Node(op, xs, s.v), Load(inp, e.inits));
  }

  lemma FetchedKnown(vals: Store, xs: seq<string>)
    requires Fetch(vals, xs).Some?
    ensures forall x :: x in xs ==> x in vals
  {
  }

  lemma {:induction false} FetchFloats(vals: Store, xs: seq<string>, ts: seq<Tensor>)
    requires |xs| == |ts| && forall k :: 0 <= k < |xs| ==> Carries(vals, xs[k], ts[k])
    ensures Fetch(vals, xs) == Some(Floats(ts))
  {
    if |xs| > 0 {
      FetchFloats(vals, xs[1..], ts[1..]);
      assert [Floats(ts)[0]] + Floats(ts[1..]) == Floats(ts);
    }
  }

  lemma FetchOne(vals: Store, x: string)
    requires x in vals
    ensures Fetch(vals, [x]) == Some([vals[x]])
  {
    assert Fetch(vals, []) == Some([]);
    assert [x][1..] == [] && [vals[x]] + [] == [vals[x]];
  }

  lemma FetchTwo(vals: Store, x: string, y: string)
    requires x in vals && y in vals
    ensures Fetch(vals, [x, y]) == Some([vals[x], vals[y]])
  {
    FetchOne(vals, y);
    assert [x, y][1..] == [y] && [vals[x]] + [vals[y]] == [vals[x], vals[y]];
  }

  function Floats(ts: seq<Tensor>): (vs: seq<GraphValue>)
    ensures |vs| == |ts| && forall k :: 0 <= k < |ts| ==> vs[k] == Float(ts[k])
  {
    seq(|ts|, k requires 0 <= k < |ts| => Float(ts[k]))
  }

  // ---------------------------------------------------------------- handlers

  /** Emitting one node over tensors ts. */
  lemma NodeMeans(S: Scalars, e: Emit, rim: Rim, inp: Store, op: OpType, xs: seq<string>, ts: seq<Tensor>, t: Tensor)
    requires Runs(S, e, rim, inp) && op != IdentityN
    requires |xs| == |ts| && forall k :: 0 <= k < |xs| ==> Carries(Vals(S, e, inp).value, xs[k], ts[k])
    requires RunNode(S, op, Floats(ts)) == Some(Float(t))
    ensures var s := AddNode(e, op, xs);
      && Runs(S, s.e, rim, inp) && Extends(Vals(S, e, inp).value, Vals(S, s.e, inp).value)
      && Carries(Vals(S, s.e, inp).value, s.v, t)
  {
    hide Good, RunNode, Vals;
    FetchFloats(Vals(S, e, inp).value, xs, ts);
    AddNodeVals(S, e, rim, inp, op, xs, Float(t));
  }

  /** Emitting a constant and a node that reads it last. */
  lemma ConstNodeMeans(S: Scalars, e: Emit, rim: Rim, inp: Store, stem: string, c: GraphValue,
                       op: OpType, x: string, a: Tensor, t: Tensor)
    requires Runs(S, e, rim, inp) && op != IdentityN && IsStem(stem)
    requires Carries(Vals(S, e, inp).value, x, a)
    requires RunNode(S, op, [Float(a), c]) == Some(Float(t))
    ensures var i := AddInit(e, stem, c); var s := AddNode(i.e, op, [x, i.v]);
      && Runs(S, s.e, rim, inp) && Extends(Vals(S, e, inp).value, Vals(S, s.e, inp).value)
      && Carries(Vals(S, s.e, inp).value, s.v, t)
  {
    hide Good, RunNode, Vals, IsStem;
    AddInitVals(S, e, rim, inp, stem, c);
    var i := AddInit(e, stem, c);
    var vals := Vals(S, i.e, inp).value;
    assert vals[x] == Float(a) && vals[i.v] == c;
    FetchTwo(vals, x, i.v);
    AddNodeVals(S, i.e, rim, inp, op, [x, i.v], Float(t));
  }

  lemma HandleMeans(S: Scalars, e: Emit, rim: Rim, inp: Store, p: Prim, xs: seq<string>, ts: seq<Tensor>,
                    shapes: seq<seq<nat>>, t: Tensor)
    requires PowLaw(S) && Runs(S, e, rim, inp)
    requires |xs| == |ts| == |shapes| && forall k :: 0 <= k < |ts| ==> shapes[k] == Shape(ts[k])
    requires forall k :: 0 <= k < |xs| ==> Carries(Vals(S, e, inp).value, xs[k], ts[k])
    requires StandardPrim(p, shapes) && EvalNumeric(S, p, ts) == Some(t) && Handle(e, p, xs).Some?
    ensures var h := Handle(e, p, xs).value;
      && Runs(S, h.e, rim, inp) && Extends(Vals(S, e, inp).value, Vals(S, h.e, inp).value)
      && Carries(Vals(S, h.e, inp).value, h.v, t)
  {
    hide Good, Vals, PowLaw, AddNode, AddInit, RunUnary, RunBinary, RunMatMul, RunReshape, EvalBinary, EvalDot, EvalReshape;
    match p
    case Unary(op) =>
      UnaryMeans(S, op, ts[0]);
      NodeMeans(S, e, rim, inp, UnaryType(op).value, [xs[0]], [ts[0]], t);
    case Binary(op) =>
      BinaryMeans(S, op, ts[0], ts[1]);
      NodeMeans(S, e, rim, inp, BinaryType(op).value, [xs[0], xs[1]], [ts[0], ts[1]], t);
    case IntegerPow(y) =>
      PowIsIntegerPow(S, ts[0], y);
      ConstNodeMeans(S, e, rim, inp, "pow_exp", Float(Scalar(y as real)), PowN, xs[0], ts[0], t);
    case DotGeneral(lc, _, _) =>
      MatMulMeans(S, ts[0], ts[1], lc);
      NodeMeans(S, e, rim, inp, MatMulN, [xs[0], xs[1]], [ts[0], ts[1]], t);
    case ConvertElementType =>
    case Reshape(sizes) =>
      ReshapeMeans(S, ts[0], sizes);
      ConstNodeMeans(S, e, rim, inp, "reshape_shape", Extents(sizes), ReshapeN, xs[0], ts[0], t);
  }

  lemma UnaryMeans(S: Scalars, op: UnOp, a: Tensor)
    requires UnaryType(op).Some?
    ensures RunNode(S, UnaryType(op).value, Floats([a])) == Some(Float(a.(g := Map(x => S.un(op, x), a.g))))
  {
  }

  lemma BinaryMeans(S: Scalars, op: BinOp, a: Tensor, b: Tensor)
    requires BinaryType(op).Some? && EvalBinary(S, op, a, b).Some?
    ensures RunNode(S, BinaryType(op).value, Floats([a, b])) == Some(Float(EvalBinary(S, op, a, b).value))
  {
  }

  lemma MatMulMeans(S: Scalars, a: Tensor, b: Tensor, lc: nat)
    requires lc == |Shape(a)| - 1 || MayContract(lc, Shape(a), Shape(b))
    requires EvalDot(a, b, lc, 0).Some?
    ensures RunNode(S, MatMulN, Floats([a, b])) == Some(Float(EvalDot(a, b, lc, 0).value))
  {
    hide Product, Flip;
    if lc == |Shape(a)| - 1 {
      MatMulIsDot(a, b, lc);
    } else {
      ContractsEitherRight(a, b, a.g.r, a.g.c, if b.rank == 2 then b.g.c else 0, b.rank == 1);
    }
  }

  lemma ReshapeMeans(S: Scalars, a: Tensor, sizes: seq<nat>)
    requires ZerosKept(Shape(a), sizes) && EvalReshape(a, sizes).Some?
    ensures RunNode(S, ReshapeN, [Float(a), Extents(sizes)]) == Some(Float(EvalReshape(a, sizes).value))
  {
    ReshapeExact(a, sizes);
  }

  // ---------------------------------------------------------------- reading and binding

  lemma AgreeExtends(jenv: Env, env: Names, vals: Store, vals': Store)
    requires Agree(jenv, env, vals) && Extends(vals, vals')
    ensures Agree(jenv, env, vals')
  {
  }

  lemma ExtendsTrans(u: Store, v: Store, w: Store)
    requires Extends(u, v) && Extends(v, w)
    ensures Extends(u, w)
  {
  }

  lemma ResolveMeans(S: Scalars, e: Emit, rim: Rim, inp: Store, jenv: Env, env: Names, a: Atom)
    requires Runs(S, e, rim, inp) && Agree(jenv, env, Vals(S, e, inp).value)
    requires Read(jenv, a).Some? && Resolve(e, env, a).Some?
    ensures var x := Resolve(e, env, a).value; var v := Read(jenv, a).value;
      && Runs(S, x.e, rim, inp) && Extends(Vals(S, e, inp).value, Vals(S, x.e, inp).value)
      && (v.Num? ==> Carries(Vals(S, x.e, inp).value, x.v, v.t))
  {
    hide Good, Vals;
    match a
    case Lit(x) => AddInitVals(S, e, rim, inp, "lit", Float(Scalar(x)));
    case LitFlag(b) => AddInitVals(S, e, rim, inp, "lit", Float(Scalar(if b then 1.0 else 0.0)));
    case V(id) =>
  }

  /** Names xs carry those of the values vs that are tensors. */
  ghost predicate AllCarry(vals: Store, xs: seq<string>, vs: seq<Value>) {
    |xs| == |vs| && forall k :: 0 <= k < |vs| && vs[k].Num? ==> Carries(vals, xs[k], vs[k].t)
  }

  lemma ExtendsSelf(v: Store)
    ensures Extends(v, v) && AllCarry(v, [], [])
  {
  }

  lemma ConsCarry(vals: Store, vals': Store, x: string, v: Value, xs: seq<string>, vs: seq<Value>)
    requires (v.Num? ==> Carries(vals, x, v.t)) && Extends(vals, vals') && AllCarry(vals', xs, vs)
    ensures AllCarry(vals', [x] + xs, [v] + vs)
  {
  }

  lemma CarriesExtends(vals: Store, vals': Store, x: string, t: Tensor)
    requires Carries(vals, x, t) && Extends(vals, vals')
    ensures Carries(vals', x, t)
  {
  }

  lemma {:induction false} ResolveAllMeans(S: Scalars, e: Emit, rim: Rim, inp: Store, jenv: Env, env: Names, atoms: seq<Atom>)
    requires Runs(S, e, rim, inp) && Agree(jenv, env, Vals(S, e, inp).value)
    requires ReadAll(jenv, atoms).Some? && ResolveAll(e, env, atoms).Some?
    ensures var xs := ResolveAll(e, env, atoms).value;
      && Runs(S, xs.e, rim, inp) && Extends(Vals(S, e, inp).value, Vals(S, xs.e, inp).value)
      && AllCarry(Vals(S, xs.e, inp).value, xs.v, ReadAll(jenv, atoms).value)
    decreases |atoms|
  {
    hide Good, Vals, Resolve, Agree, Extends, Carries, AllCarry, Read;
    if |atoms| == 0 {
      ExtendsSelf(Vals(S, e, inp).value);
    } else {
      ResolveMeans(S, e, rim, inp, jenv, env, atoms[0]);
      var x := Resolve(e, env, atoms[0]).value;
      AgreeExtends(jenv, env, Vals(S, e, inp).value, Vals(S, x.e, inp).value);
      ResolveAllMeans(S, x.e, rim, inp, jenv, env, atoms[1..]);
      var xs := ResolveAll(x.e, env, atoms[1..]).value;
      ExtendsTrans(Vals(S, e, inp).value, Vals(S, x.e, inp).value, Vals(S, xs.e, inp).value);
      ConsCarry(Vals(S, x.e, inp).value, Vals(S, xs.e, inp).value, x.v, Read(jenv, atoms[0]).value,
                xs.v, ReadAll(jenv, atoms[1..]).value);
    }
  }

  lemma {:induction false} BindAgree(jenv: Env, env: Names, vals: Store, vars: seq<Var>, vs: seq<Value>, xs: seq<string>)
    requires Agree(jenv, env, vals) && AllCarry(vals, xs, vs)
    ensures Agree(Bind(jenv, vars, vs), Bind(env, vars, xs), vals)
    decreases |vars|
  {
    if |vars| > 0 && |vs| > 0 {
      BindAgree(jenv[vars[0] := vs[0]], env[vars[0] := xs[0]], vals, vars[1..], vs[1..], xs[1..]);
    }
  }

  lemma {:induction false} BindConstsMeans(S: Scalars, e: Emit, rim: Rim, inp: Store, jenv: Env, env: Names,
                                           vars: seq<Var>, consts: seq<Tensor>)
    requires Runs(S, e, rim, inp) && Agree(jenv, env, Vals(S, e, inp).value)
    ensures var s := BindConsts(e, env, vars, consts);
      && Runs(S, s.e, rim, inp) && Extends(Vals(S, e, inp).value, Vals(S, s.e, inp).value)
      && Agree(Bind(jenv, vars, AsValues(consts)), s.v, Vals(S, s.e, inp).value)
    decreases |vars|
  {
    hide Good, Vals;
    if |vars| > 0 && |consts| > 0 {
      AddInitVals(S, e, rim, inp, "param", Float(consts[0]));
      var c := AddInit(e, "param", Float(consts[0]));
      assert AsValues(consts)[1..] == AsValues(consts[1..]);
      BindConstsMeans(S, c.e, rim, inp, jenv[vars[0] := Num(consts[0])], env[vars[0] := c.v], vars[1..], consts[1..]);
    }
  }

  lemma {:induction false} OutputsCarry(jenv: Env, env: Names, vals: Store, atoms: seq<Atom>)
    requires Agree(jenv, env, vals) && ReadAll(jenv, atoms).Some? && OutputsIn(env, atoms).Some?
    ensures AllCarry(vals, OutputsIn(env, atoms).value, ReadAll(jenv, atoms).value)
  {
    if |atoms| > 0 {
      OutputsCarry(jenv, env, vals, atoms[1..]);
    }
  }

  lemma {:induction false} NumbersAre(vs: seq<Value>)
    requires Numbers(vs).Some?
    ensures |Numbers(vs).value| == |vs|
    ensures forall k :: 0 <= k < |vs| ==> vs[k] == Num(Numbers(vs).value[k])
  {
    if |vs| > 0 {
      NumbersAre(vs[1..]);
    }
  }

  // ---------------------------------------------------------------- the walk

  ghost predicate Means(S: Scalars, e: Emit, rim: Rim, inp: Store, jenv: Env, s: Step<Names>) {
    && Runs(S, e, rim, inp) && Runs(S, s.e, rim, inp)
    && Extends(Vals(S, e, inp).value, Vals(S, s.e, inp).value)
    && Agree(jenv, s.v, Vals(S, s.e, inp).value)
  }

  lemma OpMeans(S: Scalars, e: Emit, rim: Rim, inp: Store, jenv: Env, env: Names,
                p: Prim, ins: seq<Atom>, shapes: seq<seq<nat>>, out: Var)
    requires PowLaw(S) && Runs(S, e, rim, inp) && Agree(jenv, env, Vals(S, e, inp).value)
    requires StandardPrim(p, shapes)
    requires EvalEqn(S, Op(p, ins, shapes, out), jenv).Some? && WalkEqn(e, env, Op(p, ins, shapes, out)).Some?
    ensures Means(S, e, rim, inp, EvalEqn(S, Op(p, ins, shapes, out), jenv).value, WalkEqn(e, env, Op(p, ins, shapes, out)).value)
  {
    hide Good, Vals, StandardPrim, EvalNumeric, Handle, PowLaw, Resolve, Read;
    ResolveAllMeans(S, e, rim, inp, jenv, env, ins);
    var vs, xs := ReadAll(jenv, ins).value, ResolveAll(e, env, ins).value;
    AgreeExtends(jenv, env, Vals(S, e, inp).value, Vals(S, xs.e, inp).value);
    if p.SelectN? {
      NoSelect(xs.e, p, xs.v);
    } else {
      NumbersAre(vs);
      var ts := Numbers(vs).value;
      var t := EvalNumeric(S, p, ts).value;
      HandleMeans(S, xs.e, rim, inp, p, xs.v, ts, shapes, t);
      var h := Handle(xs.e, p, xs.v).value;
      AgreeExtends(jenv, env, Vals(S, xs.e, inp).value, Vals(S, h.e, inp).value);
      ExtendsTrans(Vals(S, e, inp).value, Vals(S, xs.e, inp).value, Vals(S, h.e, inp).value);
    }
  }

  lemma NoSelect(e: Emit, p: Prim, xs: seq<string>)
    requires p.SelectN?
    ensures Handle(e, p, xs).None?
  {
  }

  lemma {:induction false} WalkEqnMeans(S: Scalars, e: Emit, rim: Rim, inp: Store, jenv: Env, env: Names, eqn: Eqn)
    requires PowLaw(S) && Runs(S, e, rim, inp) && Agree(jenv, env, Vals(S, e, inp).value)
    requires StandardEqn(eqn) && EvalEqn(S, eqn, jenv).Some? && WalkEqn(e, env, eqn).Some?
    ensures Means(S, e, rim, inp, EvalEqn(S, eqn, jenv).value, WalkEqn(e, env, eqn).value)
    decreases eqn, 0
  {
    match eqn
    case Op(p, ins, shapes, out) => OpMeans(S, e, rim, inp, jenv, env, p, ins, shapes, out);
    case Call(kind, body, consts, ins, outs) =>
      hide Good, Vals, PowLaw, Resolve, Read;
      var vs := ReadAll(jenv, ins).value;
      var results := Eval(S, body, consts, vs).value;
      assert ins[..Min(|ins|, |body.invars|)] == ins;
      ResolveAllMeans(S, e, rim, inp, jenv, env, ins);
      var xs := ResolveAll(e, env, ins).value;
      var vals := Vals(S, xs.e, inp).value;
      BindAgree(map[], env, vals, body.invars, vs, xs.v);
      WalkMeans(S, xs.e, rim, inp, Bind(map[], body.invars, vs), Bind(env, body.invars, xs.v), body, consts);
      var sub := Walk(xs.e, Bind(env, body.invars, xs.v), body, consts).value;
      var inner := EvalEqns(S, body.eqns, Bind(Bind(map[], body.invars, vs), body.constvars, AsValues(consts))).value;
      var vals' := Vals(S, sub.e, inp).value;
      assert body.outs[..Min(|outs|, |body.outs|)] == body.outs;
      OutputsCarry(inner, sub.v, vals', body.outs);
      ExtendsTrans(Vals(S, e, inp).value, vals, vals');
      AgreeExtends(jenv, env, Vals(S, e, inp).value, vals');
      BindAgree(jenv, env, vals', outs, results, OutputsIn(sub.v, body.outs).value);
  }

  lemma {:induction false} WalkEqnsMeans(S: Scalars, e: Emit, rim: Rim, inp: Store, jenv: Env, env: Names, eqns: seq<Eqn>)
    requires PowLaw(S) && Runs(S, e, rim, inp) && Agree(jenv, env, Vals(S, e, inp).value)
    requires StandardEqns(eqns) && EvalEqns(S, eqns, jenv).Some? && WalkEqns(e, env, eqns).Some?
    ensures Means(S, e, rim, inp, EvalEqns(S, eqns, jenv).value, WalkEqns(e, env, eqns).value)
    decreases eqns, 1
  {
    hide Good, Vals, PowLaw;
    if |eqns| > 0 {
      WalkEqnMeans(S, e, rim, inp, jenv, env, eqns[0]);
      var s := WalkEqn(e, env, eqns[0]).value;
      WalkEqnsMeans(S, s.e, rim, inp, EvalEqn(S, eqns[0], jenv).value, s.v, eqns[1..]);
      ExtendsTrans(Vals(S, e, inp).value, Vals(S, s.e, inp).value, Vals(S, WalkEqns(e, env, eqns).value.e, inp).value);
    }
  }

  lemma {:induction false} WalkMeans(S: Scalars, e: Emit, rim: Rim, inp: Store, jenv: Env, env: Names,
                                     prog: Program, consts: seq<Tensor>)
    requires PowLaw(S) && Runs(S, e, rim, inp) && Agree(jenv, env, Vals(S, e, inp).value)
    requires Standard(prog) && Walk(e, env, prog, consts).Some?
    requires EvalEqns(S, prog.eqns, Bind(jenv, prog.constvars, AsValues(consts))).Some?
    ensures Means(S, e, rim, inp, EvalEqns(S, prog.eqns, Bind(jenv, prog.constvars, AsValues(consts))).value,
                  Walk(e, env, prog, consts).value)
    decreases prog, 2
  {
    hide Good, Vals, PowLaw;
    BindConstsMeans(S, e, rim, inp, jenv, env, prog.constvars, consts);
    var s := BindConsts(e, env, prog.constvars, consts);
    WalkEqnsMeans(S, s.e, rim, inp, Bind(jenv, prog.constvars, AsValues(consts)), s.v, prog.eqns);
    ExtendsTrans(Vals(S, e, inp).value, Vals(S, s.e, inp).value, Vals(S, Walk(e, env, prog, consts).value.e, inp).value);
  }

  // ---------------------------------------------------------------- the whole graph

  lemma TieVals(S: Scalars, e: Emit, rim: Rim, inp: Store, src: string, out: string)
    requires Runs(S, e, rim, inp) && src in Vals(S, e, inp).value && out !in Known(e, rim)
    requires !IsStem(StemOf(out)) && out !in rim.outputs
    ensures var e' := e.(nodes := e.nodes + [Node(IdentityN, [src], out)]); var vals := Vals(S, e, inp).value;
      && Runs(S, e', rim.(outputs := rim.outputs + {out}), inp)
      && Vals(S, e', inp) == Some(vals[out := vals[src]]) && Extends(vals, vals[out := vals[src]])
  {
    hide Good, IsStem, StemOf, FreshName, RunNodes, Load;
    var vals := Vals(S, e, inp).value;
    ValsKeys(S, e, rim, inp);
    TieGood(e, rim, src, out);
    RunAppend(S, e.nodes, Node(IdentityN, [src], out), Load(inp, e.inits));
    RunIdentity(S, vals, src, out);
  }

  lemma RunIdentity(S: Scalars, vals: Store, src: string, out: string)
    requires src in vals
    ensures RunNodes(S, [Node(IdentityN, [src], out)], vals) == Some(vals[out := vals[src]])
  {
    FetchOne(vals, src);
    assert RunNodes(S, [], vals[out := vals[src]]) == Some(vals[out := vals[src]]);
    assert [Node(IdentityN, [src], out)][1..] == [];
  }

  /** No name known so far is one of the outputs still to be tied. */
  ghost predicate Untied(e: Emit, rim: Rim, name: string, i: nat) {
    forall j :: i <= j ==> FreshName(OutputStem(name), j) !in Known(e, rim) && FreshName(OutputStem(name), j) !in rim.outputs
  }

  lemma GoodUntied(e: Emit, rim: Rim, name: string, i: nat)
    requires Good(e, rim) && Free(rim, name, i)
    ensures Untied(e, rim, name, i)
  {
    forall j | i <= j ensures FreshName(OutputStem(name), j) !in Known(e, rim) {
      OutputNotStem(name, j);
      assert !Generated(e, FreshName(OutputStem(name), j));
    }
  }

  /** The builder after output i has been tied to the value of atom a. */
  function Tied(e: Emit, env: Names, name: string, i: nat, a: Atom): Option<Emit> {
    var src :- Resolve(e, env, a);
    Some(src.e.(nodes := src.e.nodes + [Node(IdentityN, [src.v], FreshName(OutputStem(name), i))]))
  }

  lemma TieOne(S: Scalars, e: Emit, rim: Rim, inp: Store, jenv: Env, env: Names, name: string, i: nat, a: Atom, t: Tensor)
    requires Runs(S, e, rim, inp) && Agree(jenv, env, Vals(S, e, inp).value) && Free(rim, name, i)
    requires Read(jenv, a) == Some(Num(t)) && Tied(e, env, name, i, a).Some?
    ensures var e' := Tied(e, env, name, i, a).value; var out := FreshName(OutputStem(name), i);
      var rim' := rim.(outputs := rim.outputs + {out});
      && Runs(S, e', rim', inp) && Free(rim', name, i + 1)
      && Extends(Vals(S, e, inp).value, Vals(S, e', inp).value) && Carries(Vals(S, e', inp).value, out, t)
      && Agree(jenv, env, Vals(S, e', inp).value)
  {
    hide Good, Vals, FreshName, OutputStem, IsStem, StemOf, Known, Resolve;
    ResolveMeans(S, e, rim, inp, jenv, env, a);
    var src := Resolve(e, env, a).value;
    var out := FreshName(OutputStem(name), i);
    GoodUntied(src.e, rim, name, i);
    OutputNotStem(name, i);
    TieVals(S, src.e, rim, inp, src.v, out);
    forall j | i + 1 <= j ensures FreshName(OutputStem(name), j) != out {
      FreshApart(OutputStem(name), i, OutputStem(name), j);
    }
    var e' := Tied(e, env, name, i, a).value;
    ExtendsTrans(Vals(S, e, inp).value, Vals(S, src.e, inp).value, Vals(S, e', inp).value);
    AgreeExtends(jenv, env, Vals(S, e, inp).value, Vals(S, e', inp).value);
  }

  /** The atoms have the tensors ts for values. */
  predicate Yields(jenv: Env, atoms: seq<Atom>, ts: seq<Tensor>) {
    |atoms| == |ts| && forall k :: 0 <= k < |ts| ==> Read(jenv, atoms[k]) == Some(Num(ts[k]))
  }

  lemma {:induction false} TieMeans(S: Scalars, e: Emit, rim: Rim, inp: Store, jenv: Env, env: Names,
                                    name: string, i: nat, outs: seq<Atom>, ts: seq<Tensor>)
    requires Runs(S, e, rim, inp) && Agree(jenv, env, Vals(S, e, inp).value) && Free(rim, name, i)
    requires TieOutputs(e, env, name, i, outs).Some? && Yields(jenv, outs, ts)
    ensures var end := Vals(S, TieOutputs(e, env, name, i, outs).value, inp);
      && end.Some? && Extends(Vals(S, e, inp).value, end.value)
      && forall k :: 0 <= k < |ts| ==> Carries(end.value, FreshName(OutputStem(name), i + k), ts[k])
    decreases |outs|
  {
    hide Good, Vals, FreshName, OutputStem, Free, Resolve, Read, Agree, Extends, Carries;
    if |outs| == 0 {
      ExtendsSelf(Vals(S, e, inp).value);
    } else {
      TieOne(S, e, rim, inp, jenv, env, name, i, outs[0], ts[0]);
      var e' := Tied(e, env, name, i, outs[0]).value;
      var rim' := rim.(outputs := rim.outputs + {FreshName(OutputStem(name), i)});
      TieMeans(S, e', rim', inp, jenv, env, name, i + 1, outs[1..], ts[1..]);
      var end := Vals(S, TieOutputs(e, env, name, i, outs).value, inp).value;
      ExtendsTrans(Vals(S, e, inp).value, Vals(S, e', inp).value, end);
      CarriesExtends(Vals(S, e', inp).value, end, FreshName(OutputStem(name), i), ts[0]);
      forall k | 0 <= k < |ts| ensures Carries(end, FreshName(OutputStem(name), i + k), ts[k]) {
        if k > 0 {
          assert Carries(end, FreshName(OutputStem(name), i + 1 + (k - 1)), ts[1..][k - 1]);
        }
      }
    }
  }

  lemma {:induction false} SupplyMeans(names: seq<string>, ts: seq<Tensor>)
    requires |names| == |ts| && Distinct(names)
    ensures Supply(names, ts).Keys == SetOf(names)
    ensures forall k :: 0 <= k < |names| ==> Carries(Supply(names, ts), names[k], ts[k])
    decreases |names|
  {
    hide SetOf;
    if |names| == 0 {
      assert SetOf(names) == {} by { EmptySet(names); }
    } else {
      var n := |names| - 1;
      SupplyMeans(names[..n], ts[..n]);
      assert names == names[..n] + [names[n]];
      Appended(names[..n], names[n]);
      forall k | 0 <= k < n ensures Carries(Supply(names, ts), names[k], ts[k]) {
        assert Carries(Supply(names[..n], ts[..n]), names[..n][k], ts[..n][k]);
      }
    }
  }

  lemma EmptySet(names: seq<string>)
    requires |names| == 0
    ensures SetOf(names) == {}
  {
  }

  /** Running the exported graph gives what evaluating the program gives. */
  lemma ExportMeansProgram(S: Scalars, name: string, prog: Program, consts: seq<Tensor>, ts: seq<Tensor>, results: seq<Tensor>)
    requires PowLaw(S) && Standard(prog) && Export(name, prog, consts).Some?
    requires Eval(S, prog, consts, AsValues(ts)) == Some(AsValues(results))
    ensures Run(S, Export(name, prog, consts).value, ts) == Some(Floats(results))
  {
    hide Walk, TieOutputs, Good, StemOf, FreshName, Free, Distinct, SetOf, PowLaw, Standard, RunNodes, Supply;
    var g := Export(name, prog, consts).value;
    var rim := Rim(SetOf(g.inputs), {});
    InputsApart(name, |prog.invars|);
    SupplyMeans(g.inputs, ts);
    var inp := Supply(g.inputs, ts);
    EmptyRuns(S, rim, inp);
    BindAgree(map[], map[], inp, prog.invars, AsValues(ts), g.inputs);
    var env := Bind(map[], prog.invars, g.inputs);
    WalkMeans(S, EMPTY, rim, inp, Bind(map[], prog.invars, AsValues(ts)), env, prog, consts);
    var w := Walk(EMPTY, env, prog, consts).value;
    var jenv := EvalEqns(S, prog.eqns, Bind(Bind(map[], prog.invars, AsValues(ts)), prog.constvars, AsValues(consts))).value;
    TieMeans(S, w.e, rim, inp, jenv, w.v, name, 0, prog.outs, results);
    FetchFloats(Vals(S, TieOutputs(w.e, w.v, name, 0, prog.outs).value, inp).value, g.outputs, results);
  }

  lemma EmptyRuns(S: Scalars, rim: Rim, inp: Store)
    requires Good(EMPTY, rim) && inp.Keys == rim.inputs
    ensures Runs(S, EMPTY, rim, inp) && Vals(S, EMPTY, inp) == Some(inp)
  {
  }
}
