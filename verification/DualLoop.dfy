/**
 The emitted dual-path loop: solve, run the policy, combine, clamp, report, advance the plant.
 The solver and the plant are parameters; either may fail.
 */
module DualLoop {
  import opened Wrappers
  import opened Grids
  import opened Composition
  import opened DualPath

  /** The generated program: the plan's numbers and flags as literals, the mode not among them. */
  datatype Program = Program(
    stateLo: Vec,
    stateHi: Vec,
    inputLo: Vec,
    inputHi: Vec,
    onTimeout: bool,
    onBreach: bool,
    net: seq<CLayer>,
    initial: Vec,
    seedIndex: nat,
    seedStep: real)

  function Generate(p: Plan, ls: seq<Layer>, initial: Vec, seedIndex: nat, seedStep: real): Program {
    var e := p.envelope;
    Program(e.stateLower, e.stateUpper, e.inputLower, e.inputUpper, p.onTimeout, p.onBreach, EmitMlp(ls), initial, seedIndex, seedStep)
  }

  type Solver = Vec -> Option<Vec>
  type Plant = (Vec, Vec) -> Option<Vec>

  ghost predicate Sized(mpc: Solver, plant: Plant, nx: nat, nu: nat) {
    && (forall x :: mpc(x).Some? ==> |mpc(x).value| == nu)
    && (forall x, u :: plant(x, u).Some? ==> |plant(x, u).value| == nx)
  }

  /** A reported cycle. */
  datatype Row = Row(step: nat, x: Vec, cmd: Vec)

  datatype Run = Run(code: int, rows: seq<Row>)

  function Prepend(rows: seq<Row>, run: Run): Run {
    Run(run.code, rows + run.rows)
  }

  lemma PrependTwice(a: seq<Row>, b: seq<Row>, run: Run)
    ensures Prepend(a, Prepend(b, run)) == Prepend(a + b, run)
  {
    assert a + (b + run.rows) == (a + b) + run.rows;
  }

  lemma PrependNothing(rows: seq<Row>, run: Run)
    ensures Prepend(rows, Run(0, [])) == Run(0, rows) && Prepend(rows, Run(1, [])) == Run(1, rows)
    ensures Prepend([], run) == run && rows + [] == rows
  {
    assert [] + run.rows == run.rows;
  }

  predicate Forced(from: int, i: nat) {
    0 <= from <= i
  }

  /** One cycle as the reference composes it: network output into the arbiter; a dimension error cannot occur. */
  function CycleCommand(tanh: real -> real, p: Plan, ls: seq<Layer>, m: Vec, x: Vec, timedOut: bool): Vec
    requires ValidPlan(p) && Chained(|x|, ls)
  {
    var d := Arbitrate(p, m, Forward(tanh, ls, x), x, timedOut);
    if d.Success? then d.value.command else []
  }

  /** The reference closed loop from cycle i on; a failing solver or plant ends it with code 1. */
  function Reference(tanh: real -> real, p: Plan, ls: seq<Layer>, mpc: Solver, plant: Plant, from: int, x: Vec, i: nat, n: nat): Run
    requires ValidPlan(p) && Sized(mpc, plant, |x|, |p.envelope.inputLower|) && Chained(|x|, ls)
    decreases n - i
  {
    if i >= n then Run(0, [])
    else if mpc(x).None? then Run(1, [])
    else
      var cmd := CycleCommand(tanh, p, ls, mpc(x).value, x, Forced(from, i));
      if plant(x, cmd).None? then Run(1, [Row(i, x, cmd)])
      else
        var rest := Reference(tanh, p, ls, mpc, plant, from, plant(x, cmd).value, i + 1, n);
        Prepend([Row(i, x, cmd)], rest)
  }

  function Offset(g: Program, seed: int): real {
    g.seedStep * (seed as real)
  }

  /** The initial state, perturbed by the seed. */
  function Seeded(g: Program, seed: int): (x: Vec)
    requires g.seedIndex < |g.initial|
    ensures |x| == |g.initial|
  {
    g.initial[g.seedIndex := g.initial[g.seedIndex] + Offset(g, seed)]
  }

  /** A seed moves one entry of the initial state by a step each. */
  lemma SeedSteps(g: Program, seed: int, i: nat)
    requires g.seedIndex < |g.initial| && i < |g.initial|
    ensures Seeded(g, 0) == g.initial
    ensures i != g.seedIndex ==> Seeded(g, seed)[i] == g.initial[i]
    ensures Seeded(g, seed + 1)[g.seedIndex] == Seeded(g, seed)[g.seedIndex] + g.seedStep
  {
    assert g.seedStep * ((seed + 1) as real) == g.seedStep * (seed as real) + g.seedStep;
  }

  // ---------------------------------------------------------------- the emitted functions

  method StateWithin(x: array<real>, lo: Vec, hi: Vec) returns (ok: bool)
    requires x.Length == |lo| == |hi|
    ensures ok <==> Inside(x[..], lo, hi)
  {
    for i := 0 to x.Length
      invariant forall k :: 0 <= k < i ==> lo[k] <= x[k] <= hi[k]
    {
      if x[i] < lo[i] || x[i] > hi[i] {
        assert x[..][i] == x[i];
        return false;
      }
    }
    return true;
  }

  method ClampInput(u: array<real>, lo: Vec, hi: Vec)
    requires u.Length == |lo| == |hi|
    modifies u
    ensures u[..] == Clamp(old(u[..]), lo, hi)
  {
    for j := 0 to u.Length
      invariant forall k :: 0 <= k < j ==> u[k] == Clip(old(u[..])[k], lo[k], hi[k])
      invariant forall k :: j <= k < u.Length ==> u[k] == old(u[..])[k]
    {
      if u[j] < lo[j] {
        u[j] := lo[j];
      }
      if u[j] > hi[j] {
        u[j] := hi[j];
      }
    }
  }

  /** The combination, written to cmd and clamped: fall back to the solver's control, or add the policy's to it. */
  method Combine(g: Program, uMpc: array<real>, uPol: array<real>, x: array<real>, cmd: array<real>, timedOut: bool, ghost p: Plan)
    requires ValidPlan(p) && g.stateLo == p.envelope.stateLower && g.stateHi == p.envelope.stateUpper
    requires g.inputLo == p.envelope.inputLower && g.inputHi == p.envelope.inputUpper && g.onTimeout == p.onTimeout && g.onBreach == p.onBreach
    requires uMpc.Length == uPol.Length == cmd.Length == |g.inputLo| && x.Length == |g.stateLo|
    requires cmd != uMpc && cmd != uPol && cmd != x
    modifies cmd
    ensures Arbitrate(p.(mode := Residual), uMpc[..], uPol[..], x[..], timedOut).Success?
    ensures cmd[..] == Arbitrate(p.(mode := Residual), uMpc[..], uPol[..], x[..], timedOut).value.command
  {
    var within := StateWithin(x, g.stateLo, g.stateHi);
    if (timedOut && g.onTimeout) || (!within && g.onBreach) {
      for j := 0 to cmd.Length
        invariant forall k :: 0 <= k < j ==> cmd[k] == uMpc[k]
      {
        cmd[j] := uMpc[j];
      }
      assert cmd[..] == uMpc[..];
    } else {
      for j := 0 to cmd.Length
        invariant forall k :: 0 <= k < j ==> cmd[k] == uMpc[k] + uPol[k]
      {
        cmd[j] := uMpc[j] + uPol[j];
      }
      assert cmd[..] == Sum(uMpc[..], uPol[..]);
    }
    ClampInput(cmd, g.inputLo, g.inputHi);
  }

  method CopyInto(v: Vec, a: array<real>)
    requires |v| == a.Length
    modifies a
    ensures a[..] == v
  {
    for i := 0 to |v|
      invariant forall k :: 0 <= k < i ==> a[k] == v[k]
    {
      a[i] := v[i];
    }
  }

  /** The initial state and the seed's perturbation. */
  method Start(g: Program, seed: int, x: array<real>)
    requires x.Length == |g.initial| && g.seedIndex < |g.initial|
    modifies x
    ensures x[..] == Seeded(g, seed)
  {
    CopyInto(g.initial, x);
    ghost var v := x[..];
    assert x[g.seedIndex] == v[g.seedIndex];
    x[g.seedIndex] := x[g.seedIndex] + Offset(g, seed);
    assert x[..] == v[g.seedIndex := v[g.seedIndex] + Offset(g, seed)];
  }

  /** One cycle of the emitted loop: its report, if the solver succeeded, and the next state, if the plant did. */
  method OneCycle(tanh: real -> real, g: Program, mpc: Solver, plant: Plant, x: array<real>, uMpc: array<real>, uPol: array<real>, cmd: array<real>,
                  i: nat, from: int, ghost p: Plan, ghost ls: seq<Layer>)
    returns (row: seq<Row>, ok: bool)
    requires ValidPlan(p) && g == Generate(p, ls, g.initial, g.seedIndex, g.seedStep)
    requires x.Length == |g.stateLo| <= BUFFER && uMpc.Length == uPol.Length == cmd.Length == |g.inputLo|
    requires x != uMpc && x != uPol && x != cmd && uMpc != uPol && uMpc != cmd && uPol != cmd
    requires Chained(x.Length, ls) && Narrow(ls) && OutputWidth(x.Length, ls) == |g.inputLo|
    requires Sized(mpc, plant, x.Length, |g.inputLo|)
    modifies x, uMpc, uPol, cmd
    ensures mpc(old(x[..])).None? ==> row == [] && !ok
    ensures mpc(old(x[..])).Some? ==>
      var command := CycleCommand(tanh, p.(mode := Residual), ls, mpc(old(x[..])).value, old(x[..]), Forced(from, i));
      && row == [Row(i, old(x[..]), command)]
      && ok == plant(old(x[..]), command).Some?
      && (ok ==> x[..] == plant(old(x[..]), command).value)
  {
    hide Arbitrate, Forward, EmitMlp, Inside;
    ghost var x0 := x[..];
    var m := mpc(x[..]);
    if m.None? {
      return [], false;
    }
    CopyInto(m.value, uMpc);
    JxPolicy(tanh, g.net, x, uPol, ls);
    var timedOut := from >= 0 && i >= from;
    Combine(g, uMpc, uPol, x, cmd, timedOut, p);
    assert cmd[..] == CycleCommand(tanh, p.(mode := Residual), ls, m.value, x0, Forced(from, i));
    row := [Row(i, x[..], cmd[..])];
    var next := plant(x[..], cmd[..]);
    if next.None? {
      return row, false;
    }
    CopyInto(next.value, x);
    return row, true;
  }

  /**
   The emitted main. For every plan it is the reference loop of the plan in residual mode,
   command for command, whatever the solver, the plant, the seed and the forced timeouts.
   */
  method RunProgram(tanh: real -> real, g: Program, mpc: Solver, plant: Plant, steps: int, seed: int, from: int, ghost p: Plan, ghost ls: seq<Layer>)
    returns (run: Run)
    requires ValidPlan(p) && g == Generate(p, ls, g.initial, g.seedIndex, g.seedStep)
    requires |g.initial| == |g.stateLo| <= BUFFER && g.seedIndex < |g.initial|
    requires Chained(|g.initial|, ls) && Narrow(ls) && OutputWidth(|g.initial|, ls) == |g.inputLo|
    requires Sized(mpc, plant, |g.initial|, |g.inputLo|)
    ensures !(1 <= steps <= 100000) ==> run == Run(2, [])
    ensures 1 <= steps <= 100000 ==> run == Reference(tanh, p.(mode := Residual), ls, mpc, plant, from, Seeded(g, seed), 0, steps)
  {
    hide Reference, Seeded, EmitMlp, Prepend, CycleCommand, Chained, Narrow, OutputWidth, Sized;
    if steps < 1 || steps > 100000 {
      return Run(2, []);
    }
    var nx, nu := |g.initial|, |g.inputLo|;
    var x := new real[nx];
    Start(g, seed, x);
    var uMpc, uPol, cmd := new real[nu], new real[nu], new real[nu];
    var rows: seq<Row> := [];
    ghost var q := p.(mode := Residual);
    ghost var all := Reference(tanh, q, ls, mpc, plant, from, x[..], 0, steps);
    PrependNothing([], all);
    for i := 0 to steps
      invariant Prepend(rows, Reference(tanh, q, ls, mpc, plant, from, x[..], i, steps)) == all
    {
      ReferenceStep(tanh, q, ls, mpc, plant, from, x[..], i, steps);
      var row, ok := OneCycle(tanh, g, mpc, plant, x, uMpc, uPol, cmd, i, from, p, ls);
      PrependTwice(rows, row, Reference(tanh, q, ls, mpc, plant, from, x[..], i + 1, steps));
      PrependTwice(rows, row, Run(1, []));
      PrependNothing(rows, all);
      rows := rows + row;
      if !ok {
        PrependNothing(rows, all);
        return Run(1, rows);
      }
    }
    ReferenceEnds(tanh, q, ls, mpc, plant, from, x[..], steps);
    PrependNothing(rows, all);
    return Run(0, rows);
  }

  lemma {:induction false} ReferenceStep(tanh: real -> real, p: Plan, ls: seq<Layer>, mpc: Solver, plant: Plant, from: int, x: Vec, i: nat, n: nat)
    requires ValidPlan(p) && Sized(mpc, plant, |x|, |p.envelope.inputLower|) && Chained(|x|, ls) && i < n
    ensures mpc(x).None? ==> Reference(tanh, p, ls, mpc, plant, from, x, i, n) == Run(1, [])
    ensures mpc(x).Some? ==>
      var cmd := CycleCommand(tanh, p, ls, mpc(x).value, x, Forced(from, i));
      && (plant(x, cmd).None? ==> Reference(tanh, p, ls, mpc, plant, from, x, i, n) == Prepend([Row(i, x, cmd)], Run(1, [])))
      && (plant(x, cmd).Some? ==>
            Reference(tanh, p, ls, mpc, plant, from, x, i, n)
            == Prepend([Row(i, x, cmd)], Reference(tanh, p, ls, mpc, plant, from, plant(x, cmd).value, i + 1, n)))
  {
  }

  lemma ReferenceEnds(tanh: real -> real, p: Plan, ls: seq<Layer>, mpc: Solver, plant: Plant, from: int, x: Vec, n: nat)
    requires ValidPlan(p) && Sized(mpc, plant, |x|, |p.envelope.inputLower|) && Chained(|x|, ls)
    ensures Reference(tanh, p, ls, mpc, plant, from, x, n, n) == Run(0, [])
  {
  }

  // ---------------------------------------------------------------- what every run keeps

  /** Every command of every run lies in the actuator box, and the steps are numbered in order. */
  lemma {:induction false} CommandsInside(tanh: real -> real, p: Plan, ls: seq<Layer>, mpc: Solver, plant: Plant, from: int, x: Vec, i: nat, n: nat)
    requires ValidPlan(p) && Sized(mpc, plant, |x|, |p.envelope.inputLower|) && Chained(|x|, ls) && i <= n
    requires |x| == |p.envelope.stateLower| && OutputWidth(|x|, ls) == |p.envelope.inputLower|
    ensures var run := Reference(tanh, p, ls, mpc, plant, from, x, i, n);
      && |run.rows| <= n - i && (run.code == 0 ==> |run.rows| == n - i)
      && forall k :: 0 <= k < |run.rows| ==>
           run.rows[k].step == i + k && Inside(run.rows[k].cmd, p.envelope.inputLower, p.envelope.inputUpper)
    decreases n - i
  {
    hide Arbitrate, Inside;
    if i < n {
      ReferenceStep(tanh, p, ls, mpc, plant, from, x, i, n);
      if mpc(x).Some? {
        var m := mpc(x).value;
        var cmd := CycleCommand(tanh, p, ls, m, x, Forced(from, i));
        ArbitrateMeaning(p, m, Forward(tanh, ls, x), x, Forced(from, i));
        if plant(x, cmd).Some? {
          CommandsInside(tanh, p, ls, mpc, plant, from, plant(x, cmd).value, i + 1, n);
        }
      }
    }
  }

  /** From the forced step on, with the timeout fallback on, every command is the solver's, clamped. */
  lemma {:induction false} ForcedFallback(tanh: real -> real, p: Plan, ls: seq<Layer>, mpc: Solver, plant: Plant, from: nat, x: Vec, i: nat, n: nat, k: nat)
    requires ValidPlan(p) && Sized(mpc, plant, |x|, |p.envelope.inputLower|) && Chained(|x|, ls)
    requires |x| == |p.envelope.stateLower| && OutputWidth(|x|, ls) == |p.envelope.inputLower| && p.onTimeout
    requires i + k >= from && k < |Reference(tanh, p, ls, mpc, plant, from, x, i, n).rows|
    ensures var row := Reference(tanh, p, ls, mpc, plant, from, x, i, n).rows[k];
      mpc(row.x).Some? && |mpc(row.x).value| == |p.envelope.inputLower|
      && row.cmd == Clamp(mpc(row.x).value, p.envelope.inputLower, p.envelope.inputUpper)
    decreases k
  {
    if k > 0 {
      var cmd := CycleCommand(tanh, p, ls, mpc(x).value, x, Forced(from, i));
      ForcedFallback(tanh, p, ls, mpc, plant, from, plant(x, cmd).value, i + 1, n, k - 1);
    }
  }

  // ---------------------------------------------------------------- the mode that is not emitted

  predicate Degenerate(e: Envelope)
    requires |e.inputLower| == |e.inputUpper|
  {
    forall j :: 0 <= j < |e.inputLower| ==> e.inputLower[j] == e.inputUpper[j]
  }

  predicate SameDecision(p: Plan, mpc: Vec, policy: Vec, state: Vec, timedOut: bool)
    requires ValidPlan(p)
  {
    var d, r := Arbitrate(p, mpc, policy, state, timedOut), Arbitrate(p.(mode := Residual), mpc, policy, state, timedOut);
    d.Success? && r.Success? ==> d.value.command == r.value.command
  }

  function Zeros(n: nat): (z: Vec)
    ensures |z| == n && forall i :: 0 <= i < n ==> z[i] == 0.0
  {
    seq(n, i => 0.0)
  }

  /**
   The generator ignores the mode. Its program decides as the arbiter does on all inputs exactly
   for residual plans and for plans whose actuator box is a single point.
   */
  lemma ModeMatters(p: Plan)
    requires ValidPlan(p)
    ensures (forall mpc, policy, state, timedOut {:trigger SameDecision(p, mpc, policy, state, timedOut)} ::
               SameDecision(p, mpc, policy, state, timedOut)) <==> p.mode.Residual? || Degenerate(p.envelope)
  {
    var e := p.envelope;
    if p.mode.Residual? {
      assert p.(mode := Residual) == p;
    } else if Degenerate(e) {
      forall mpc, policy, state, timedOut ensures SameDecision(p, mpc, policy, state, timedOut) {
        PointDecision(p, mpc, policy, state, timedOut);
      }
    } else {
      var j :| 0 <= j < |e.inputLower| && e.inputLower[j] != e.inputUpper[j];
      var mpc := Zeros(|e.inputLower|)[j := e.inputUpper[j] - e.inputLower[j]];
      var policy := Zeros(|e.inputLower|)[j := e.inputLower[j]];
      assert Inside(e.stateLower, e.stateLower, e.stateUpper);
      var d := Arbitrate(p, mpc, policy, e.stateLower, false).value;
      var r := Arbitrate(p.(mode := Residual), mpc, policy, e.stateLower, false).value;
      assert d.command[j] == e.inputLower[j] && r.command[j] == e.inputUpper[j];
      assert !SameDecision(p, mpc, policy, e.stateLower, false);
    }
  }

  lemma PointDecision(p: Plan, mpc: Vec, policy: Vec, state: Vec, timedOut: bool)
    requires ValidPlan(p) && Degenerate(p.envelope)
    ensures SameDecision(p, mpc, policy, state, timedOut)
  {
    var e := p.envelope;
    ArbitrateMeaning(p, mpc, policy, state, timedOut);
    ArbitrateMeaning(p.(mode := Residual), mpc, policy, state, timedOut);
    var d, r := Arbitrate(p, mpc, policy, state, timedOut), Arbitrate(p.(mode := Residual), mpc, policy, state, timedOut);
    if d.Success? {
      assert d.value.command == e.inputLower && r.value.command == e.inputLower;
    }
  }
}
