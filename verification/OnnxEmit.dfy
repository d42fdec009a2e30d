/**
 What the policy exporter emits, as functions of the builder's contents: fresh names, one
 handler per primitive, and the walk over nested equation lists. `WalkGood` keeps the names in
 order and `ExportValid` shows that every graph is in single-assignment form and topologically sorted.
 */
module OnnxEmit {
  import opened Wrappers
  import opened Decimal
  import opened Grids
  import opened Jaxpr
  import opened OnnxGraph

  // ---------------------------------------------------------------- names

  function Lower(op: OpType): string {
    match op
    case AddN => "add"
    case SubN => "sub"
    case MulN => "mul"
    case DivN => "div"
    case MaxN => "max"
    case TanhN => "tanh"
    case SigmoidN => "sigmoid"
    case ExpN => "exp"
    case LogN => "log"
    case SqrtN => "sqrt"
    case NegN => "neg"
    case PowN => "pow"
    case MatMulN => "matmul"
    case ReshapeN => "reshape"
    case IdentityN => "identity"
  }

  /** The operator as a node names it. */
  function OpName(op: OpType): string {
    match op
    case AddN => "Add"
    case SubN => "Sub"
    case MulN => "Mul"
    case DivN => "Div"
    case MaxN => "Max"
    case TanhN => "Tanh"
    case SigmoidN => "Sigmoid"
    case ExpN => "Exp"
    case LogN => "Log"
    case SqrtN => "Sqrt"
    case NegN => "Neg"
    case PowN => "Pow"
    case MatMulN => "MatMul"
    case ReshapeN => "Reshape"
    case IdentityN => "Identity"
  }

  function LowerCase(c: char): char {
    if 'A' <= c <= 'Z' then c + 32 as char else c
  }

  /** The stem of a node's output is the operator's name in lower case. */
  lemma LowerIs(op: OpType)
    ensures |Lower(op)| == |OpName(op)| && forall i :: 0 <= i < |OpName(op)| ==> Lower(op)[i] == LowerCase(OpName(op)[i])
  {
  }

  predicate IsStem(s: string) {
    s == "param" || s == "lit" || s == "pow_exp" || s == "reshape_shape" || exists op :: s == Lower(op)
  }

  function FreshName(stem: string, n: nat): string {
    stem + "_" + Numeral(n)
  }

  /** The base name of graph inputs, which are called name_in_0, name_in_1, ... */
  function InputStem(name: string): string {
    name + "_in"
  }

  function OutputStem(name: string): string {
    name + "_out"
  }

  function NamesFrom(stem: string, n: nat): (names: seq<string>)
    ensures |names| == n && forall i :: 0 <= i < n ==> names[i] == FreshName(stem, i)
  {
    seq(n, i requires 0 <= i < n => FreshName(stem, i))
  }

  /** The place of the last underscore, -1 if there is none. */
  function LastBar(s: string): (k: int)
    ensures -1 <= k < |s|
  {
    if |s| == 0 then -1 else if s[|s| - 1] == '_' then |s| - 1 else LastBar(s[..|s| - 1])
  }

  function StemOf(s: string): string {
    if LastBar(s) < 0 then "" else s[..LastBar(s)]
  }

  function TailOf(s: string): string {
    s[LastBar(s) + 1..]
  }

  lemma {:induction false} LastBarBefore(stem: string, tail: string)
    requires forall i :: 0 <= i < |tail| ==> tail[i] != '_'
    ensures LastBar(stem + "_" + tail) == |stem|
  {
    var s := stem + "_" + tail;
    if |tail| == 0 {
      assert s[|s| - 1] == '_';
    } else {
      var t := tail[..|tail| - 1];
      assert s[|s| - 1] == tail[|tail| - 1];
      assert s[..|s| - 1] == stem + "_" + t;
      LastBarBefore(stem, t);
    }
  }

  /** A generated name can be taken apart again. */
  lemma SplitFresh(stem: string, n: nat)
    ensures StemOf(FreshName(stem, n)) == stem && TailOf(FreshName(stem, n)) == Numeral(n)
  {
    LastBarBefore(stem, Numeral(n));
  }

  lemma FreshInjective(stem: string, m: nat, stem': string, n: nat)
    requires FreshName(stem, m) == FreshName(stem', n)
    ensures stem == stem' && m == n
  {
    SplitFresh(stem, m);
    SplitFresh(stem', n);
    NumeralInjective(m, n);
  }

  lemma FreshApart(stem: string, m: nat, stem': string, n: nat)
    requires stem != stem' || m != n
    ensures FreshName(stem, m) != FreshName(stem', n)
  {
    if FreshName(stem, m) == FreshName(stem', n) {
      FreshInjective(stem, m, stem', n);
    }
  }

  lemma StemsApart(name: string)
    ensures InputStem(name) != OutputStem(name)
  {
    assert |InputStem(name)| != |OutputStem(name)|;
  }

  lemma EndsDifferently(name: string, s: string)
    requires IsStem(s)
    ensures s != InputStem(name) && s != OutputStem(name)
  {
    var i, o := InputStem(name), OutputStem(name);
    assert |i| >= 3 && i[|i| - 1] == 'n' && i[|i| - 2] == 'i' && i[|i| - 3] == '_';
    assert |o| >= 4 && o[|o| - 1] == 't' && o[|o| - 2] == 'u' && o[|o| - 3] == 'o';
    assert |s| >= 3 && !(s[|s| - 1] == 'n' && s[|s| - 2] == 'i' && s[|s| - 3] == '_')
      && !(s[|s| - 1] == 't' && s[|s| - 2] == 'u' && s[|s| - 3] == 'o');
  }

  // ---------------------------------------------------------------- the builder

  datatype Emit = Emit(nodes: seq<Node>, inits: seq<Init>, opTypes: set<OpType>, counter: nat)

  /** The builder after a step, and what the step returns. */
  datatype Step<+T> = Step(e: Emit, v: T)

  const EMPTY := Emit([], [], {}, 0)

  function AddInit(e: Emit, stem: string, value: GraphValue): Step<string> {
    var name := FreshName(stem, e.counter + 1);
    Step(e.(inits := e.inits + [Init(name, value)], counter := e.counter + 1), name)
  }

  function AddNode(e: Emit, op: OpType, inputs: seq<string>): Step<string> {
    var out := FreshName(Lower(op), e.counter + 1);
    Step(e.(nodes := e.nodes + [Node(op, inputs, out)], opTypes := e.opTypes + {op}, counter := e.counter + 1), out)
  }

  // ---------------------------------------------------------------- handlers

  function UnaryType(op: UnOp): Option<OpType> {
    match op
    case Neg => Some(NegN)
    case Tanh => Some(TanhN)
    case Logistic => Some(SigmoidN)
    case Exp => Some(ExpN)
    case Log => Some(LogN)
    case Sqrt => Some(SqrtN)
    case _ => None
  }

  function BinaryType(op: BinOp): Option<OpType> {
    match op
    case AddOp => Some(AddN)
    case SubOp => Some(SubN)
    case MulOp => Some(MulN)
    case DivOp => Some(DivN)
    case MaxOp => Some(MaxN)
    case PowOp => None
  }

  /** The node or nodes of one primitive; None is a coverage error. */
  function Handle(e: Emit, p: Prim, xs: seq<string>): Option<Step<string>> {
    match p
    case Unary(op) =>
      var t :- UnaryType(op);
      if |xs| < 1 then None else Some(AddNode(e, t, [xs[0]]))
    case Binary(op) =>
      var t :- BinaryType(op);
      if |xs| < 2 then None else Some(AddNode(e, t, [xs[0], xs[1]]))
    case IntegerPow(y) =>
      if |xs| < 1 then None
      else
        var c := AddInit(e, "pow_exp", Float(Scalar(y as real)));
        Some(AddNode(c.e, PowN, [xs[0], c.v]))
    case DotGeneral(lc, rc, batched) =>
      if |xs| < 2 || batched || rc != 0 then None else Some(AddNode(e, MatMulN, [xs[0], xs[1]]))
    case ConvertElementType =>
      if |xs| < 1 then None else Some(Step(e, xs[0]))
    case Reshape(sizes) =>
      if |xs| < 1 then None
      else
        var c := AddInit(e, "reshape_shape", Extents(sizes));
        Some(AddNode(c.e, ReshapeN, [xs[0], c.v]))
    case _ => None
  }

  // ---------------------------------------------------------------- the walk

  type Names = map<Var, string>

  function Resolve(e: Emit, env: Names, a: Atom): Option<Step<string>> {
    match a
    case Lit(x) => Some(AddInit(e, "lit", Float(Scalar(x))))
    case LitFlag(b) => Some(AddInit(e, "lit", Float(Scalar(if b then 1.0 else 0.0))))
    case V(id) => if id in env then Some(Step(e, env[id])) else None
  }

  function ResolveAll(e: Emit, env: Names, atoms: seq<Atom>): (r: Option<Step<seq<string>>>)
    ensures r.Some? ==> |r.value.v| == |atoms|
    decreases |atoms|
  {
    if |atoms| == 0 then Some(Step(e, []))
    else
      var x :- Resolve(e, env, atoms[0]);
      var xs :- ResolveAll(x.e, env, atoms[1..]);
      Some(Step(xs.e, [x.v] + xs.v))
  }

  function BindConsts(e: Emit, env: Names, vars: seq<Var>, consts: seq<Tensor>): Step<Names>
    decreases |vars|
  {
    if |vars| == 0 || |consts| == 0 then Step(e, env)
    else
      var c := AddInit(e, "param", Float(consts[0]));
      BindConsts(c.e, env[vars[0] := c.v], vars[1..], consts[1..])
  }

  /** The names of a sub-program's outputs; a literal output is a failure. */
  function OutputsIn(env: Names, atoms: seq<Atom>): (r: Option<seq<string>>)
    ensures r.Some? ==> |r.value| == |atoms|
  {
    if |atoms| == 0 then Some([])
    else if !(atoms[0].V? && atoms[0].id in env) then None
    else
      var rest :- OutputsIn(env, atoms[1..]);
      Some([env[atoms[0].id]] + rest)
  }

  function Min(m: nat, n: nat): nat {
    if m < n then m else n
  }

  function WalkEqn(e: Emit, env: Names, eqn: Eqn): Option<Step<Names>>
    decreases eqn, 0
  {
    match eqn
    case Op(p, ins, _, out) =>
      var xs :- ResolveAll(e, env, ins);
      var h :- Handle(xs.e, p, xs.v);
      Some(Step(h.e, env[out := h.v]))
    case Call(_, body, consts, ins, outs) =>
      var xs :- ResolveAll(e, env, ins[..Min(|ins|, |body.invars|)]);
      var sub :- Walk(xs.e, Bind(env, body.invars, xs.v), body, consts);
      var names :- OutputsIn(sub.v, body.outs[..Min(|outs|, |body.outs|)]);
      Some(Step(sub.e, Bind(env, outs, names)))
  }

  function WalkEqns(e: Emit, env: Names, eqns: seq<Eqn>): Option<Step<Names>>
    decreases eqns, 1
  {
    if |eqns| == 0 then Some(Step(e, env))
    else
      var s :- WalkEqn(e, env, eqns[0]);
      WalkEqns(s.e, s.v, eqns[1..])
  }

  function Walk(e: Emit, env: Names, prog: Program, consts: seq<Tensor>): Option<Step<Names>>
    decreases prog, 2
  {
    var s := BindConsts(e, env, prog.constvars, consts);
    WalkEqns(s.e, s.v, prog.eqns)
  }

  /** Ties the graph outputs i, i + 1, ... to the tensors that carry them. */
  function TieOutputs(e: Emit, env: Names, name: string, i: nat, outs: seq<Atom>): Option<Emit>
    decreases |outs|
  {
    if |outs| == 0 then Some(e)
    else
      var src :- Resolve(e, env, outs[0]);
      var node := Node(IdentityN, [src.v], FreshName(OutputStem(name), i));
      TieOutputs(src.e.(nodes := src.e.nodes + [node]), env, name, i + 1, outs[1..])
  }

  function GraphOf(e: Emit, name: string, prog: Program): Graph {
    Graph(NamesFrom(InputStem(name), |prog.invars|), e.inits, e.nodes, NamesFrom(OutputStem(name), |prog.outs|))
  }

  function Export(name: string, prog: Program, consts: seq<Tensor>): Option<Graph> {
    var w :- Walk(EMPTY, Bind(map[], prog.invars, NamesFrom(InputStem(name), |prog.invars|)), prog, consts);
    var e :- TieOutputs(w.e, w.v, name, 0, prog.outs);
    Some(GraphOf(e, name, prog))
  }

  // ---------------------------------------------------------------- the names stay good

  /** A name the builder may have generated by now. */
  predicate Generated(e: Emit, s: string) {
    IsStem(StemOf(s)) && exists n :: 1 <= n <= e.counter && TailOf(s) == Numeral(n)
  }

  function SetOf(names: seq<string>): set<string> {
    set x | x in names
  }

  /** The names given from outside: the graph inputs, and the graph outputs tied so far. */
  datatype Rim = Rim(inputs: set<string>, outputs: set<string>)

  function Known(e: Emit, rim: Rim): set<string> {
    rim.inputs + SetOf(InitNames(e.inits)) + SetOf(NodeOutputs(e.nodes))
  }

  ghost predicate AllGenerated(e: Emit, names: seq<string>) {
    forall s :: s in names ==> Generated(e, s)
  }

  ghost predicate Good(e: Emit, rim: Rim) {
    && rim.inputs !! rim.outputs && (forall s :: s in rim.inputs + rim.outputs ==> !IsStem(StemOf(s)))
    && AllGenerated(e, InitNames(e.inits))
    && (forall s :: s in NodeOutputs(e.nodes) ==> s in rim.outputs || Generated(e, s))
    && Distinct(InitNames(e.inits)) && Distinct(NodeOutputs(e.nodes))
    && SetOf(InitNames(e.inits)) !! SetOf(NodeOutputs(e.nodes))
    && (forall k :: 0 <= k < |e.nodes| ==> Reads(e, rim, k))
    && e.opTypes == set n | n in e.nodes && n.op != IdentityN :: n.op
  }

  /** Node k reads only inputs, initializers and outputs of nodes before it. */
  ghost predicate Reads(e: Emit, rim: Rim, k: nat)
    requires k < |e.nodes|
  {
    forall s :: s in e.nodes[k].inputs ==> s in Known(e.(nodes := e.nodes[..k]), rim)
  }

  ghost predicate EnvKnown(env: Names, known: set<string>) {
    forall v :: v in env ==> env[v] in known
  }

  lemma StillGenerated(e: Emit, e': Emit, names: seq<string>)
    requires e.counter <= e'.counter
    ensures forall s :: s in names && Generated(e, s) ==> Generated(e', s)
  {
    forall s | s in names && Generated(e, s) ensures Generated(e', s) {
      var n :| 1 <= n <= e.counter && TailOf(s) == Numeral(n);
    }
  }

  lemma NewName(e: Emit, rim: Rim, stem: string)
    requires Good(e, rim) && IsStem(stem)
    ensures FreshName(stem, e.counter + 1) !in Known(e, rim)
    ensures Generated(e.(counter := e.counter + 1), FreshName(stem, e.counter + 1))
  {
    var x := FreshName(stem, e.counter + 1);
    SplitFresh(stem, e.counter + 1);
    forall s | s in Known(e, rim) ensures s != x {
      if s !in rim.inputs + rim.outputs {
        assert Generated(e, s);
        var n :| 1 <= n <= e.counter && TailOf(s) == Numeral(n);
        if s == x {
          NumeralInjective(n, e.counter + 1);
        }
      }
    }
  }

  lemma Appended(names: seq<string>, x: string)
    ensures SetOf(names + [x]) == SetOf(names) + {x}
    ensures Distinct(names) && x !in names ==> Distinct(names + [x])
  {
  }

  lemma AddInitGood(e: Emit, rim: Rim, stem: string, value: GraphValue)
    requires Good(e, rim) && IsStem(stem)
    ensures var s := AddInit(e, stem, value);
      Good(s.e, rim) && s.v !in Known(e, rim) && Known(s.e, rim) == Known(e, rim) + {s.v}
  {
    hide Generated, SetOf, Distinct, IsStem, FreshName, StemOf;
    var s := AddInit(e, stem, value);
    NewName(e, rim, stem);
    assert InitNames(s.e.inits) == InitNames(e.inits) + [s.v];
    Appended(InitNames(e.inits), s.v);
    InSet(InitNames(e.inits), s.v);
    StillGenerated(e, s.e, InitNames(e.inits));
    StillGenerated(e, s.e, NodeOutputs(e.nodes));
    SameGenerated(e.(counter := e.counter + 1), s.e, s.v);
    forall k | 0 <= k < |s.e.nodes| ensures Reads(s.e, rim, k) {
      assert Reads(e, rim, k);
    }
  }

  lemma InSet(names: seq<string>, x: string)
    ensures x in names <==> x in SetOf(names)
  {
  }

  lemma SameGenerated(e: Emit, e': Emit, s: string)
    requires e.counter == e'.counter
    ensures Generated(e, s) <==> Generated(e', s)
  {
  }

  lemma AddNodeGood(e: Emit, rim: Rim, op: OpType, xs: seq<string>)
    requires Good(e, rim) && op != IdentityN && forall x :: x in xs ==> x in Known(e, rim)
    ensures var s := AddNode(e, op, xs);
      Good(s.e, rim) && s.v !in Known(e, rim) && Known(s.e, rim) == Known(e, rim) + {s.v}
  {
    hide Generated, SetOf, Distinct, FreshName, StemOf;
    var s := AddNode(e, op, xs);
    NewName(e, rim, Lower(op));
    assert NodeOutputs(s.e.nodes) == NodeOutputs(e.nodes) + [s.v];
    Appended(NodeOutputs(e.nodes), s.v);
    InSet(NodeOutputs(e.nodes), s.v);
    StillGenerated(e, s.e, InitNames(e.inits));
    StillGenerated(e, s.e, NodeOutputs(e.nodes));
    SameGenerated(e.(counter := e.counter + 1), s.e, s.v);
    forall k | 0 <= k < |s.e.nodes| ensures Reads(s.e, rim, k) {
      if k < |e.nodes| {
        assert Reads(e, rim, k);
        assert s.e.nodes[..k] == e.nodes[..k];
      } else {
        assert s.e.nodes[..k] == e.nodes;
      }
    }
  }

  lemma HandleGood(e: Emit, rim: Rim, p: Prim, xs: seq<string>)
    requires Good(e, rim) && Handle(e, p, xs).Some?
    requires forall x :: x in xs ==> x in Known(e, rim)
    ensures var h := Handle(e, p, xs).value;
      Good(h.e, rim) && Known(e, rim) <= Known(h.e, rim) && h.v in Known(h.e, rim)
  {
    hide Good, Known;
    match p
    case Unary(op) => AddNodeGood(e, rim, UnaryType(op).value, [xs[0]]);
    case Binary(op) => AddNodeGood(e, rim, BinaryType(op).value, [xs[0], xs[1]]);
    case IntegerPow(y) =>
      AddInitGood(e, rim, "pow_exp", Float(Scalar(y as real)));
      var c := AddInit(e, "pow_exp", Float(Scalar(y as real)));
      AddNodeGood(c.e, rim, PowN, [xs[0], c.v]);
    case DotGeneral(_, _, _) => AddNodeGood(e, rim, MatMulN, [xs[0], xs[1]]);
    case ConvertElementType =>
    case Reshape(sizes) =>
      AddInitGood(e, rim, "reshape_shape", Extents(sizes));
      var c := AddInit(e, "reshape_shape", Extents(sizes));
      AddNodeGood(c.e, rim, ReshapeN, [xs[0], c.v]);
  }

  lemma ResolveGood(e: Emit, rim: Rim, env: Names, a: Atom)
    requires Good(e, rim) && EnvKnown(env, Known(e, rim)) && Resolve(e, env, a).Some?
    ensures var x := Resolve(e, env, a).value;
      Good(x.e, rim) && Known(e, rim) <= Known(x.e, rim) && x.v in Known(x.e, rim)
  {
    match a
    case Lit(x) => AddInitGood(e, rim, "lit", Float(Scalar(x)));
    case LitFlag(b) => AddInitGood(e, rim, "lit", Float(Scalar(if b then 1.0 else 0.0)));
    case V(id) =>
  }

  lemma {:induction false} ResolveAllGood(e: Emit, rim: Rim, env: Names, atoms: seq<Atom>)
    requires Good(e, rim) && EnvKnown(env, Known(e, rim)) && ResolveAll(e, env, atoms).Some?
    ensures var xs := ResolveAll(e, env, atoms).value;
      && Good(xs.e, rim) && Known(e, rim) <= Known(xs.e, rim)
      && forall x :: x in xs.v ==> x in Known(xs.e, rim)
    decreases |atoms|
  {
    hide Good, Known;
    if |atoms| > 0 {
      ResolveGood(e, rim, env, atoms[0]);
      ResolveAllGood(Resolve(e, env, atoms[0]).value.e, rim, env, atoms[1..]);
    }
  }

  lemma {:induction false} BindConstsGood(e: Emit, rim: Rim, env: Names, vars: seq<Var>, consts: seq<Tensor>)
    requires Good(e, rim) && EnvKnown(env, Known(e, rim))
    ensures var s := BindConsts(e, env, vars, consts);
      Good(s.e, rim) && Known(e, rim) <= Known(s.e, rim) && EnvKnown(s.v, Known(s.e, rim))
    decreases |vars|
  {
    hide Good, Known;
    if |vars| > 0 && |consts| > 0 {
      AddInitGood(e, rim, "param", Float(consts[0]));
      var c := AddInit(e, "param", Float(consts[0]));
      BindConstsGood(c.e, rim, env[vars[0] := c.v], vars[1..], consts[1..]);
    }
  }

  lemma {:induction false} BindKnown(env: Names, vars: seq<Var>, names: seq<string>, known: set<string>)
    requires EnvKnown(env, known) && forall x :: x in names ==> x in known
    ensures EnvKnown(Bind(env, vars, names), known)
    decreases |vars|
  {
    if |vars| > 0 && |names| > 0 {
      BindKnown(env[vars[0] := names[0]], vars[1..], names[1..], known);
    }
  }

  lemma {:induction false} OutputsKnown(env: Names, atoms: seq<Atom>, known: set<string>)
    requires EnvKnown(env, known) && OutputsIn(env, atoms).Some?
    ensures forall x :: x in OutputsIn(env, atoms).value ==> x in known
  {
    if |atoms| > 0 {
      OutputsKnown(env, atoms[1..], known);
    }
  }

  ghost predicate Grows(e: Emit, rim: Rim, s: Step<Names>) {
    Good(s.e, rim) && Known(e, rim) <= Known(s.e, rim) && EnvKnown(s.v, Known(s.e, rim))
  }

  lemma {:induction false} WalkEqnGood(e: Emit, rim: Rim, env: Names, eqn: Eqn)
    requires Good(e, rim) && EnvKnown(env, Known(e, rim)) && WalkEqn(e, env, eqn).Some?
    ensures Grows(e, rim, WalkEqn(e, env, eqn).value)
    decreases eqn, 0
  {
    hide Good, Known;
    match eqn
    case Op(p, ins, _, out) =>
      ResolveAllGood(e, rim, env, ins);
      var xs := ResolveAll(e, env, ins).value;
      HandleGood(xs.e, rim, p, xs.v);
    case Call(_, body, consts, ins, outs) =>
      var args := ins[..Min(|ins|, |body.invars|)];
      ResolveAllGood(e, rim, env, args);
      var xs := ResolveAll(e, env, args).value;
      BindKnown(env, body.invars, xs.v, Known(xs.e, rim));
      WalkGood(xs.e, rim, Bind(env, body.invars, xs.v), body, consts);
      var sub := Walk(xs.e, Bind(env, body.invars, xs.v), body, consts).value;
      var results := body.outs[..Min(|outs|, |body.outs|)];
      OutputsKnown(sub.v, results, Known(sub.e, rim));
      BindKnown(env, outs, OutputsIn(sub.v, results).value, Known(sub.e, rim));
  }

  lemma {:induction false} WalkEqnsGood(e: Emit, rim: Rim, env: Names, eqns: seq<Eqn>)
    requires Good(e, rim) && EnvKnown(env, Known(e, rim)) && WalkEqns(e, env, eqns).Some?
    ensures Grows(e, rim, WalkEqns(e, env, eqns).value)
    decreases eqns, 1
  {
    hide Good, Known;
    if |eqns| > 0 {
      WalkEqnGood(e, rim, env, eqns[0]);
      var s := WalkEqn(e, env, eqns[0]).value;
      WalkEqnsGood(s.e, rim, s.v, eqns[1..]);
    }
  }

  lemma {:induction false} WalkGood(e: Emit, rim: Rim, env: Names, prog: Program, consts: seq<Tensor>)
    requires Good(e, rim) && EnvKnown(env, Known(e, rim)) && Walk(e, env, prog, consts).Some?
    ensures Grows(e, rim, Walk(e, env, prog, consts).value)
    decreases prog, 2
  {
    hide Good, Known;
    BindConstsGood(e, rim, env, prog.constvars, consts);
    var s := BindConsts(e, env, prog.constvars, consts);
    WalkEqnsGood(s.e, rim, s.v, prog.eqns);
  }

  // ---------------------------------------------------------------- the whole graph

  lemma TieGood(e: Emit, rim: Rim, src: string, out: string)
    requires Good(e, rim) && src in Known(e, rim) && !IsStem(StemOf(out))
    requires out !in rim.inputs && out !in rim.outputs
    ensures var e' := e.(nodes := e.nodes + [Node(IdentityN, [src], out)]);
      Good(e', rim.(outputs := rim.outputs + {out})) && Known(e', rim) == Known(e, rim) + {out}
  {
    hide SetOf, Distinct, StemOf, IsStem;
    var node := Node(IdentityN, [src], out);
    var e' := e.(nodes := e.nodes + [node]);
    assert NodeOutputs(e'.nodes) == NodeOutputs(e.nodes) + [out];
    Appended(NodeOutputs(e.nodes), out);
    InSet(NodeOutputs(e.nodes), out);
    InSet(InitNames(e.inits), out);
    assert !Generated(e, out);
    forall k | 0 <= k < |e'.nodes| ensures Reads(e', rim.(outputs := rim.outputs + {out}), k) {
      if k < |e.nodes| {
        assert Reads(e, rim, k);
        assert e'.nodes[..k] == e.nodes[..k];
      } else {
        assert e'.nodes[..k] == e.nodes;
      }
    }
    StillGenerated(e, e', InitNames(e.inits));
    StillGenerated(e, e', NodeOutputs(e.nodes));
    assert e'.opTypes == set n | n in e'.nodes && n.op != IdentityN :: n.op;
  }

  /** Output names from i on are still free. */
  ghost predicate Free(rim: Rim, name: string, i: nat) {
    forall j :: i <= j ==> FreshName(OutputStem(name), j) !in rim.inputs && FreshName(OutputStem(name), j) !in rim.outputs
  }

  lemma {:induction false} TieOutputsGood(e: Emit, rim: Rim, env: Names, name: string, i: nat, outs: seq<Atom>)
    returns (rim': Rim)
    requires Good(e, rim) && EnvKnown(env, Known(e, rim)) && Free(rim, name, i)
    requires TieOutputs(e, env, name, i, outs).Some?
    ensures rim'.inputs == rim.inputs && Good(TieOutputs(e, env, name, i, outs).value, rim')
    decreases |outs|
  {
    hide Good, Known, FreshName, OutputStem, IsStem, StemOf;
    if |outs| == 0 {
      rim' := rim;
    } else {
      ResolveGood(e, rim, env, outs[0]);
      var src := Resolve(e, env, outs[0]).value;
      var out := FreshName(OutputStem(name), i);
      OutputNotStem(name, i);
      TieGood(src.e, rim, src.v, out);
      var e' := src.e.(nodes := src.e.nodes + [Node(IdentityN, [src.v], out)]);
      forall j | i + 1 <= j ensures FreshName(OutputStem(name), j) != out {
        FreshApart(OutputStem(name), i, OutputStem(name), j);
      }
      KnownIgnoresOutputs(e', rim, rim.(outputs := rim.outputs + {out}));
      rim' := TieOutputsGood(e', rim.(outputs := rim.outputs + {out}), env, name, i + 1, outs[1..]);
    }
  }

  lemma KnownIgnoresOutputs(e: Emit, r1: Rim, r2: Rim)
    requires r1.inputs == r2.inputs
    ensures Known(e, r1) == Known(e, r2)
  {
  }

  lemma OutputNotStem(name: string, i: nat)
    ensures !IsStem(StemOf(FreshName(OutputStem(name), i))) && !IsStem(StemOf(FreshName(InputStem(name), i)))
  {
    SplitFresh(OutputStem(name), i);
    SplitFresh(InputStem(name), i);
    if IsStem(OutputStem(name)) {
      EndsDifferently(name, OutputStem(name));
    }
    if IsStem(InputStem(name)) {
      EndsDifferently(name, InputStem(name));
    }
  }

  lemma InputsApart(name: string, n: nat)
    ensures var rim := Rim(SetOf(NamesFrom(InputStem(name), n)), {});
      Good(EMPTY, rim) && Free(rim, name, 0) && Distinct(NamesFrom(InputStem(name), n))
  {
    var names := NamesFrom(InputStem(name), n);
    forall s | s in names ensures !IsStem(StemOf(s)) {
      var i :| 0 <= i < n && names[i] == s;
      OutputNotStem(name, i);
    }
    forall i, j | 0 <= i < n && j >= 0 ensures FreshName(OutputStem(name), j) != names[i] {
      StemsApart(name);
      FreshApart(OutputStem(name), j, InputStem(name), i);
    }
    forall i, j | 0 <= i < j < n ensures names[i] != names[j] {
      FreshApart(InputStem(name), i, InputStem(name), j);
    }
  }

  /** Every exported graph is in single-assignment form and topologically sorted. */
  lemma ExportValid(name: string, prog: Program, consts: seq<Tensor>)
    requires Export(name, prog, consts).Some?
    ensures SingleAssignment(Export(name, prog, consts).value) && Sorted(Export(name, prog, consts).value)
  {
    hide Walk, TieOutputs, Good, StemOf, FreshName, Free, Sorted, SingleAssignment, Distinct, SetOf;
    var g := Export(name, prog, consts).value;
    var rim := Rim(SetOf(g.inputs), {});
    InputsApart(name, |prog.invars|);
    var env := Bind(map[], prog.invars, g.inputs);
    InputsKnown(g.inputs);
    BindKnown(map[], prog.invars, g.inputs, Known(EMPTY, rim));
    WalkGood(EMPTY, rim, env, prog, consts);
    var w := Walk(EMPTY, env, prog, consts).value;
    var rim' := TieOutputsGood(w.e, rim, w.v, name, 0, prog.outs);
    GoodGraph(TieOutputs(w.e, w.v, name, 0, prog.outs).value, rim', g);
  }

  lemma InputsKnown(names: seq<string>)
    ensures forall x :: x in names ==> x in Known(EMPTY, Rim(SetOf(names), {}))
  {
  }

  lemma GoodGraph(e: Emit, rim: Rim, g: Graph)
    requires Good(e, rim) && rim.inputs == SetOf(g.inputs) && Distinct(g.inputs)
    requires g.inits == e.inits && g.nodes == e.nodes
    ensures SingleAssignment(g) && Sorted(g)
  {
    var a, b, c := g.inputs, InitNames(e.inits), NodeOutputs(e.nodes);
    forall s | s in b ensures s !in a {
      assert Generated(e, s) && (s in a ==> s in rim.inputs);
    }
    forall s | s in c ensures s !in a && s !in b {
      assert (s in rim.outputs || Generated(e, s)) && (s in a ==> s in rim.inputs);
      assert s in SetOf(c) && (s in b ==> s in SetOf(b));
    }
    DistinctConcat(a, b);
    DistinctConcat(a + b, c);
    forall k | 0 <= k < |g.nodes|
      ensures forall s :: s in g.nodes[k].inputs ==>
        s in g.inputs || s in InitNames(g.inits) || s in NodeOutputs(g.nodes[..k])
    {
      assert Reads(e, rim, k);
    }
  }

  lemma DistinctConcat(a: seq<string>, b: seq<string>)
    requires Distinct(a) && Distinct(b) && forall s :: s in b ==> s !in a
    ensures Distinct(a + b)
  {
    var c := a + b;
    forall i, j | 0 <= i < j < |c| ensures c[i] != c[j] {
      if i < |a| <= j {
        assert b[j - |a|] in b;
      }
    }
  }
}
