/**
 The exporter in its own form: a builder that counts names and accumulates nodes and
 initializers, and a walk that emits into it while it updates an environment.
 */
module OnnxBuilder {
  import opened Wrappers
  import opened Jaxpr
  import opened OnnxGraph
  import opened OnnxEmit
  import opened OnnxMeaning
  import opened OnnxCoverage

  function Prefixed(xs: seq<string>, r: Option<Step<seq<string>>>): Option<Step<seq<string>>> {
    if r.None? then None else Some(Step(r.value.e, xs + r.value.v))
  }

  lemma PrefixNone(r: Option<Step<seq<string>>>)
    ensures Prefixed([], r) == r
  {
    if r.Some? {
      assert [] + r.value.v == r.value.v;
    }
  }

  lemma PrefixOne(xs: seq<string>, x: string, r: Option<Step<seq<string>>>)
    ensures Prefixed(xs + [x], r) == Prefixed(xs, Prefixed([x], r))
  {
    if r.Some? {
      assert xs + [x] + r.value.v == xs + ([x] + r.value.v);
    }
  }

  class Builder {
    var nodes: seq<Node>
    var initializers: seq<Init>
    var opTypes: set<OpType>
    var counter: nat

    function State(): Emit
      reads this
    {
      Emit(nodes, initializers, opTypes, counter)
    }

    constructor ()
      ensures State() == EMPTY
    {
      nodes, initializers, opTypes, counter := [], [], {}, 0;
    }

    method Fresh(stem: string) returns (name: string)
      modifies this`counter
      ensures counter == old(counter) + 1 && name == FreshName(stem, counter)
    {
      counter := counter + 1;
      name := FreshName(stem, counter);
    }

    method Const(value: GraphValue, stem: string) returns (name: string)
      modifies this
      ensures Step(State(), name) == AddInit(old(State()), stem, value)
    {
      name := Fresh(stem);
      initializers := initializers + [Init(name, value)];
    }

    method Append(op: OpType, inputs: seq<string>) returns (out: string)
      modifies this
      ensures Step(State(), out) == AddNode(old(State()), op, inputs)
    {
      out := Fresh(Lower(op));
      nodes := nodes + [Node(op, inputs, out)];
      opTypes := opTypes + {op};
    }

    /** Dispatches one primitive; None is a coverage error. */
    method Dispatch(p: Prim, xs: seq<string>) returns (r: Option<string>)
      modifies this
      ensures r.Some? <==> Handle(old(State()), p, xs).Some?
      ensures r.Some? ==> Handle(old(State()), p, xs) == Some(Step(State(), r.value))
    {
      match p
      case Unary(op) =>
        if UnaryType(op).None? || |xs| < 1 {
          return None;
        }
        var out := Append(UnaryType(op).value, [xs[0]]);
        return Some(out);
      case Binary(op) =>
        if BinaryType(op).None? || |xs| < 2 {
          return None;
        }
        var out := Append(BinaryType(op).value, [xs[0], xs[1]]);
        return Some(out);
      case IntegerPow(y) =>
        if |xs| < 1 {
          return None;
        }
        var exponent := Const(Float(Scalar(y as real)), "pow_exp");
        var out := Append(PowN, [xs[0], exponent]);
        return Some(out);
      case DotGeneral(_, rc, batched) =>
        if |xs| < 2 || batched || rc != 0 {
          return None;
        }
        var out := Append(MatMulN, [xs[0], xs[1]]);
        return Some(out);
      case ConvertElementType =>
        return if |xs| < 1 then None else Some(xs[0]);
      case Reshape(sizes) =>
        if |xs| < 1 {
          return None;
        }
        var shape := Const(Extents(sizes), "reshape_shape");
        var out := Append(ReshapeN, [xs[0], shape]);
        return Some(out);
      case _ =>
        return None;
    }

    method Name(env: Names, a: Atom) returns (r: Option<string>)
      modifies this
      ensures r.Some? <==> Resolve(old(State()), env, a).Some?
      ensures r.Some? ==> Resolve(old(State()), env, a) == Some(Step(State(), r.value))
    {
      match a
      case Lit(x) =>
        var name := Const(Float(Scalar(x)), "lit");
        return Some(name);
      case LitFlag(b) =>
        var name := Const(Float(Scalar(if b then 1.0 else 0.0)), "lit");
        return Some(name);
      case V(id) =>
        return if id in env then Some(env[id]) else None;
    }

    method NameAll(env: Names, atoms: seq<Atom>) returns (r: Option<seq<string>>)
      modifies this
      ensures r.Some? <==> ResolveAll(old(State()), env, atoms).Some?
      ensures r.Some? ==> ResolveAll(old(State()), env, atoms) == Some(Step(State(), r.value))
    {
      var xs: seq<string> := [];
      PrefixNone(ResolveAll(State(), env, atoms));
      assert atoms[0..] == atoms;
      for k := 0 to |atoms|
        invariant |xs| == k
        invariant ResolveAll(old(State()), env, atoms) == Prefixed(xs, ResolveAll(State(), env, atoms[k..]))
      {
        hide Resolve;
        ghost var before := State();
        var x := Name(env, atoms[k]);
        assert atoms[k..][0] == atoms[k] && atoms[k..][1..] == atoms[k + 1..];
        if x.None? {
          return None;
        }
        PrefixOne(xs, x.value, ResolveAll(State(), env, atoms[k + 1..]));
        xs := xs + [x.value];
      }
      assert atoms[|atoms|..] == [] && xs + [] == xs;
      return Some(xs);
    }

    /** Binds the constants of a program to initializers. */
    method BindParams(env0: Names, vars: seq<Var>, consts: seq<Tensor>) returns (env: Names)
      modifies this
      ensures Step(State(), env) == BindConsts(old(State()), env0, vars, consts)
    {
      env := env0;
      assert vars[0..] == vars && consts[0..] == consts;
      for k := 0 to Min(|vars|, |consts|)
        invariant BindConsts(old(State()), env0, vars, consts) == BindConsts(State(), env, vars[k..], consts[k..])
      {
        assert vars[k..][1..] == vars[k + 1..] && consts[k..][1..] == consts[k + 1..];
        var name := Const(Float(consts[k]), "param");
        env := env[vars[k] := name];
      }
    }

    /** Emits one equation, recursing into the body of a call. */
    method WalkOne(env: Names, eqn: Eqn) returns (r: Option<Names>)
      modifies this
      ensures r.Some? <==> WalkEqn(old(State()), env, eqn).Some?
      ensures r.Some? ==> WalkEqn(old(State()), env, eqn) == Some(Step(State(), r.value))
      decreases eqn, 0
    {
      match eqn
      case Op(p, ins, _, out) =>
        var xs := NameAll(env, ins);
        if xs.None? {
          return None;
        }
        var name := Dispatch(p, xs.value);
        if name.None? {
          return None;
        }
        return Some(env[out := name.value]);
      case Call(_, body, consts, ins, outs) =>
        var xs := NameAll(env, ins[..Min(|ins|, |body.invars|)]);
        if xs.None? {
          return None;
        }
        var sub := Walk(Bind(env, body.invars, xs.value), body, consts);
        if sub.None? {
          return None;
        }
        var names := OutputsIn(sub.value, body.outs[..Min(|outs|, |body.outs|)]);
        if names.None? {
          return None;
        }
        return Some(Bind(env, outs, names.value));
    }

    /** Walks a program, emitting its equations; the result is the updated environment. */
    method Walk(env0: Names, prog: Program, consts: seq<Tensor>) returns (r: Option<Names>)
      modifies this
      ensures r.Some? <==> OnnxEmit.Walk(old(State()), env0, prog, consts).Some?
      ensures r.Some? ==> OnnxEmit.Walk(old(State()), env0, prog, consts) == Some(Step(State(), r.value))
      decreases prog, 2
    {
      hide WalkEqn;
      var env := BindParams(env0, prog.constvars, consts);
      assert prog.eqns[0..] == prog.eqns;
      for k := 0 to |prog.eqns|
        invariant OnnxEmit.Walk(old(State()), env0, prog, consts) == WalkEqns(State(), env, prog.eqns[k..])
      {
        assert prog.eqns[k..][0] == prog.eqns[k] && prog.eqns[k..][1..] == prog.eqns[k + 1..];
        var next := WalkOne(env, prog.eqns[k]);
        if next.None? {
          return None;
        }
        env := next.value;
      }
      return Some(env);
    }

    method Tie(env: Names, name: string, outs: seq<Atom>) returns (ok: bool)
      modifies this
      ensures ok <==> TieOutputs(old(State()), env, name, 0, outs).Some?
      ensures ok ==> TieOutputs(old(State()), env, name, 0, outs) == Some(State())
    {
      for i := 0 to |outs|
        invariant TieOutputs(old(State()), env, name, 0, outs) == TieOutputs(State(), env, name, i, outs[i..])
      {
        assert outs[i..][0] == outs[i] && outs[i..][1..] == outs[i + 1..];
        var src := Name(env, outs[i]);
        if src.None? {
          return false;
        }
        nodes := nodes + [Node(IdentityN, [src.value], FreshName(OutputStem(name), i))];
      }
      return true;
    }
  }

  /** The graph of a covered program; for others the exporter raises. An exported graph is in single-assignment
      form, topologically sorted, and computes what the program computes. */
  method ExportPolicy(name: string, prog: Program, consts: seq<Tensor>) returns (r: Option<Graph>)
    ensures r == Export(name, prog, consts)
    ensures r.Some? <==> Covered(prog, |consts|)
    ensures r.Some? ==> SingleAssignment(r.value) && Sorted(r.value)
    ensures r.Some? && Standard(prog) ==> forall S, ts, results ::
      PowLaw(S) && Eval(S, prog, consts, AsValues(ts)) == Some(AsValues(results)) ==>
        Run(S, r.value, ts) == Some(Floats(results))
  {
    hide Standard, PowLaw, SingleAssignment, Sorted, Run, Eval, Covered;
    ExportCovers(name, prog, consts);
    var b := new Builder();
    var inputs := NamesFrom(InputStem(name), |prog.invars|);
    var env := b.Walk(Bind(map[], prog.invars, inputs), prog, consts);
    if env.None? {
      return None;
    }
    var tied := b.Tie(env.value, name, prog.outs);
    if !tied {
      return None;
    }
    r := Some(Graph(inputs, b.initializers, b.nodes, NamesFrom(OutputStem(name), |prog.outs|)));
    ExportValid(name, prog, consts);
    if Standard(prog) {
      forall S, ts, results | PowLaw(S) && Eval(S, prog, consts, AsValues(ts)) == Some(AsValues(results))
        ensures Run(S, r.value, ts) == Some(Floats(results))
      {
        ExportMeansProgram(S, name, prog, consts, ts, results);
      }
    }
  }
}
