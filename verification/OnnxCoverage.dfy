/**
 Which programs the policy exporter accepts: a static predicate on the program, and the proof that
 the walk succeeds exactly on the programs that satisfy it.
 */
module OnnxCoverage {
  import opened Wrappers
  import opened Jaxpr
  import opened OnnxGraph
  import opened OnnxEmit

  /** The registered entrywise primitives. */
  const UNARY: set<UnOp> := {Tanh, Logistic, Exp, Log, Sqrt, Neg}
  const BINARY: set<BinOp> := {AddOp, SubOp, MulOp, DivOp, MaxOp}

  /** A registered primitive with enough operands; contractions unbatched and along axis 0 of the right operand. */
  predicate CoveredPrim(p: Prim, operands: nat) {
    match p
    case Unary(op) => op in UNARY && operands >= 1
    case Binary(op) => op in BINARY && operands >= 2
    case IntegerPow(_) => operands >= 1
    case DotGeneral(_, rc, batched) => rc == 0 && !batched && operands >= 2
    case ConvertElementType => operands >= 1
    case Reshape(_) => operands >= 1
    case _ => false
  }

  predicate InScope(atoms: seq<Atom>, scope: set<Var>) {
    forall i :: 0 <= i < |atoms| && atoms[i].V? ==> atoms[i].id in scope
  }

  /** Variables, and no literals. */
  predicate VarsInScope(atoms: seq<Atom>, scope: set<Var>) {
    forall i :: 0 <= i < |atoms| ==> atoms[i].V? && atoms[i].id in scope
  }

  /** The variables that a binding of vars to n values binds. */
  function Bound(vars: seq<Var>, n: nat): set<Var> {
    set i | 0 <= i < |vars| && i < n :: vars[i]
  }

  /** The variables in scope after an equation. */
  function After(eqn: Eqn, scope: set<Var>): set<Var> {
    match eqn
    case Op(_, _, _, out) => scope + {out}
    case Call(_, body, _, _, outs) => scope + Bound(outs, |body.outs|)
  }

  function AfterAll(eqns: seq<Eqn>, scope: set<Var>): set<Var>
    decreases |eqns|
  {
    if |eqns| == 0 then scope else AfterAll(eqns[1..], After(eqns[0], scope))
  }

  /** In scope in the body of a call: everything around it, its parameters and its constants. */
  function Inside(body: Program, consts: nat, operands: nat, scope: set<Var>): set<Var> {
    scope + Bound(body.invars, operands) + Bound(body.constvars, consts)
  }

  predicate CoveredEqn(eqn: Eqn, scope: set<Var>)
    decreases eqn, 0
  {
    match eqn
    case Op(p, ins, _, _) => CoveredPrim(p, |ins|) && InScope(ins, scope)
    case Call(_, body, consts, ins, outs) =>
      var inside := Inside(body, |consts|, |ins|, scope);
      && InScope(ins[..Min(|ins|, |body.invars|)], scope)
      && CoveredEqns(body.eqns, inside)
      && VarsInScope(body.outs[..Min(|outs|, |body.outs|)], AfterAll(body.eqns, inside))
  }

  predicate CoveredEqns(eqns: seq<Eqn>, scope: set<Var>)
    decreases eqns, 1
  {
    |eqns| > 0 ==> CoveredEqn(eqns[0], scope) && CoveredEqns(eqns[1..], After(eqns[0], scope))
  }

  /** Every variable is in scope where it is read, every primitive is covered, and no call returns a literal. */
  predicate Covered(prog: Program, consts: nat) {
    var scope := Bound(prog.invars, |prog.invars|) + Bound(prog.constvars, consts);
    CoveredEqns(prog.eqns, scope) && InScope(prog.outs, AfterAll(prog.eqns, scope))
  }

  // ---------------------------------------------------------------- against the walk

  lemma HandleCovers(e: Emit, p: Prim, xs: seq<string>)
    ensures Handle(e, p, xs).Some? <==> CoveredPrim(p, |xs|)
  {
  }

  lemma {:induction false} ResolveAllCovers(e: Emit, env: Names, atoms: seq<Atom>)
    ensures ResolveAll(e, env, atoms).Some? <==> InScope(atoms, env.Keys)
    decreases |atoms|
  {
    if |atoms| > 0 {
      var x := Resolve(e, env, atoms[0]);
      if x.Some? {
        ResolveAllCovers(x.value.e, env, atoms[1..]);
        assert forall i :: 0 < i < |atoms| ==> atoms[i] == atoms[1..][i - 1];
      }
    }
  }

  lemma {:induction false} OutputsCover(env: Names, atoms: seq<Atom>)
    ensures OutputsIn(env, atoms).Some? <==> VarsInScope(atoms, env.Keys)
  {
    if |atoms| > 0 {
      OutputsCover(env, atoms[1..]);
      assert forall i :: 0 < i < |atoms| ==> atoms[i] == atoms[1..][i - 1];
    }
  }

  lemma BoundFirst(vars: seq<Var>, n: nat)
    requires |vars| > 0 && n > 0
    ensures Bound(vars, n) == {vars[0]} + Bound(vars[1..], n - 1)
  {
    forall v | v in Bound(vars, n) ensures v in {vars[0]} + Bound(vars[1..], n - 1) {
      var i :| 0 <= i < |vars| && i < n && v == vars[i];
      if i > 0 {
        assert v == vars[1..][i - 1];
      }
    }
    forall v | v in Bound(vars[1..], n - 1) ensures v in Bound(vars, n) {
      var i :| 0 <= i < |vars[1..]| && i < n - 1 && v == vars[1..][i];
      assert v == vars[i + 1];
    }
  }

  lemma {:induction false} BindScope(env: Names, vars: seq<Var>, names: seq<string>)
    ensures Bind(env, vars, names).Keys == env.Keys + Bound(vars, |names|)
    decreases |vars|
  {
    if |vars| > 0 && |names| > 0 {
      BindScope(env[vars[0] := names[0]], vars[1..], names[1..]);
      BoundFirst(vars, |names|);
    }
  }

  lemma {:induction false} BindConstsScope(e: Emit, env: Names, vars: seq<Var>, consts: seq<Tensor>)
    ensures BindConsts(e, env, vars, consts).v.Keys == env.Keys + Bound(vars, |consts|)
    decreases |vars|
  {
    if |vars| > 0 && |consts| > 0 {
      var c := AddInit(e, "param", Float(consts[0]));
      BindConstsScope(c.e, env[vars[0] := c.v], vars[1..], consts[1..]);
      BoundFirst(vars, |consts|);
    }
  }

  lemma BoundMin(vars: seq<Var>, m: nat)
    ensures Bound(vars, Min(|vars|, m)) == Bound(vars, m)
    ensures Bound(vars, Min(m, |vars|)) == Bound(vars, m)
  {
  }

  lemma {:induction false} WalkEqnCovers(e: Emit, env: Names, eqn: Eqn)
    ensures WalkEqn(e, env, eqn).Some? <==> CoveredEqn(eqn, env.Keys)
    ensures WalkEqn(e, env, eqn).Some? ==> WalkEqn(e, env, eqn).value.v.Keys == After(eqn, env.Keys)
    decreases eqn, 0
  {
    hide Handle, CoveredPrim, InScope, VarsInScope, Bound, AfterAll;
    match eqn
    case Op(p, ins, _, _) =>
      ResolveAllCovers(e, env, ins);
      var xs := ResolveAll(e, env, ins);
      if xs.Some? {
        HandleCovers(xs.value.e, p, xs.value.v);
      }
    case Call(_, body, consts, ins, outs) =>
      var operands := ins[..Min(|ins|, |body.invars|)];
      ResolveAllCovers(e, env, operands);
      var xs := ResolveAll(e, env, operands);
      if xs.Some? {
        var inner := Bind(env, body.invars, xs.value.v);
        BindScope(env, body.invars, xs.value.v);
        BoundMin(body.invars, |ins|);
        WalkCovers(xs.value.e, inner, body, consts);
        var sub := Walk(xs.value.e, inner, body, consts);
        if sub.Some? {
          var results := body.outs[..Min(|outs|, |body.outs|)];
          OutputsCover(sub.value.v, results);
          var names := OutputsIn(sub.value.v, results);
          if names.Some? {
            BindScope(env, outs, names.value);
            BoundMin(outs, |body.outs|);
          }
        }
      }
  }

  lemma {:induction false} WalkEqnsCovers(e: Emit, env: Names, eqns: seq<Eqn>)
    ensures WalkEqns(e, env, eqns).Some? <==> CoveredEqns(eqns, env.Keys)
    ensures WalkEqns(e, env, eqns).Some? ==> WalkEqns(e, env, eqns).value.v.Keys == AfterAll(eqns, env.Keys)
    decreases eqns, 1
  {
    hide WalkEqn, CoveredEqn, After;
    if |eqns| > 0 {
      WalkEqnCovers(e, env, eqns[0]);
      var s := WalkEqn(e, env, eqns[0]);
      if s.Some? {
        WalkEqnsCovers(s.value.e, s.value.v, eqns[1..]);
      }
    }
  }

  lemma {:induction false} WalkCovers(e: Emit, env: Names, prog: Program, consts: seq<Tensor>)
    ensures var scope := env.Keys + Bound(prog.constvars, |consts|);
      && (Walk(e, env, prog, consts).Some? <==> CoveredEqns(prog.eqns, scope))
      && (Walk(e, env, prog, consts).Some? ==> Walk(e, env, prog, consts).value.v.Keys == AfterAll(prog.eqns, scope))
    decreases prog, 2
  {
    hide CoveredEqns, WalkEqns, AfterAll;
    var s := BindConsts(e, env, prog.constvars, consts);
    BindConstsScope(e, env, prog.constvars, consts);
    WalkEqnsCovers(s.e, s.v, prog.eqns);
  }

  lemma {:induction false} TieCovers(e: Emit, env: Names, name: string, i: nat, outs: seq<Atom>)
    ensures TieOutputs(e, env, name, i, outs).Some? <==> InScope(outs, env.Keys)
    decreases |outs|
  {
    if |outs| > 0 {
      var src := Resolve(e, env, outs[0]);
      if src.Some? {
        var node := Node(IdentityN, [src.value.v], FreshName(OutputStem(name), i));
        TieCovers(src.value.e.(nodes := src.value.e.nodes + [node]), env, name, i + 1, outs[1..]);
        assert forall k :: 0 < k < |outs| ==> outs[k] == outs[1..][k - 1];
      }
    }
  }

  /** The exporter accepts exactly the covered programs, whatever the graph is called. */
  lemma ExportCovers(name: string, prog: Program, consts: seq<Tensor>)
    ensures Export(name, prog, consts).Some? <==> Covered(prog, |consts|)
  {
    hide Walk, CoveredEqns, AfterAll, InScope;
    var names := NamesFrom(InputStem(name), |prog.invars|);
    var env := Bind(map[], prog.invars, names);
    BindScope(map[], prog.invars, names);
    assert env.Keys == Bound(prog.invars, |prog.invars|);
    WalkCovers(EMPTY, env, prog, consts);
    var w := Walk(EMPTY, env, prog, consts);
    if w.Some? {
      TieCovers(w.value.e, w.value.v, name, 0, prog.outs);
    }
  }
}
