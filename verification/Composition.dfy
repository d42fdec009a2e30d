/**
 The dual-path composition plan: two rates, an arbitration mode and a safety envelope, and the
 reference arbiter that decides one control command.
 */
module Composition {
  import opened Wrappers
  import Words

  type Vec = seq<real>

  datatype Mode = Residual | PolicyPrimary

  /** State box and actuator box. */
  datatype Envelope = Envelope(name: string, stateLower: Vec, stateUpper: Vec, inputLower: Vec, inputUpper: Vec)

  datatype Plan = Plan(
    name: string,
    mpcPeriod: nat,
    policyPeriod: nat,
    mode: Mode,
    envelope: Envelope,
    onTimeout: bool,
    onBreach: bool)

  predicate Below(a: Vec, b: Vec) {
    |a| == |b| && forall i :: 0 <= i < |a| ==> a[i] <= b[i]
  }

  /** What the envelope's validator accepts. */
  predicate ValidEnvelope(e: Envelope) {
    Below(e.stateLower, e.stateUpper) && Below(e.inputLower, e.inputUpper)
  }

  /** What the plan's validators accept. */
  predicate ValidPlan(p: Plan) {
    && ValidEnvelope(p.envelope)
    && 0 < p.mpcPeriod <= p.policyPeriod
    && p.policyPeriod % p.mpcPeriod == 0
  }

  /** Every multiple of every positive period is a valid policy period. */
  lemma MultiplesValid(p: Plan, m: nat, d: nat)
    requires ValidEnvelope(p.envelope) && m > 0 && d > 0
    ensures ValidPlan(p.(mpcPeriod := m, policyPeriod := d * m))
  {
    assert d * m == m + (d - 1) * m && (d - 1) * m >= 0;
    Words.DivisionUnique(d * m, m, d, 0);
  }

  /** How many control cycles pass for one of the policy. */
  function Decimation(p: Plan): (d: nat)
    requires ValidPlan(p)
    ensures d > 0 && p.policyPeriod == d * p.mpcPeriod
  {
    var d := p.policyPeriod / p.mpcPeriod;
    assert p.policyPeriod == d * p.mpcPeriod + p.policyPeriod % p.mpcPeriod;
    assert d == 0 ==> d * p.mpcPeriod == 0;
    d
  }

  predicate PolicyDue(p: Plan, cycle: nat)
    requires ValidPlan(p)
  {
    cycle % Decimation(p) == 0
  }

  /** The policy is due at every cycle, as a loop without rates assumes, exactly when the two periods are equal. */
  lemma AlwaysDueIff(p: Plan)
    requires ValidPlan(p)
    ensures (forall cycle: nat :: PolicyDue(p, cycle)) <==> p.policyPeriod == p.mpcPeriod
  {
    var d := Decimation(p);
    if d == 1 {
      forall cycle: nat ensures PolicyDue(p, cycle) {
      }
    } else {
      assert 1 % d == 1;
      assert !PolicyDue(p, 1);
      assert d * p.mpcPeriod == p.mpcPeriod + (d - 1) * p.mpcPeriod && (d - 1) * p.mpcPeriod > 0 by {
        Positive(d - 1, p.mpcPeriod);
      }
    }
  }

  lemma Positive(a: nat, b: nat)
    requires a > 0 && b > 0
    ensures a * b > 0
  {
  }

  /** x lies in the box, and has its dimension. */
  predicate Inside(x: Vec, lower: Vec, upper: Vec) {
    Below(lower, x) && Below(x, upper)
  }

  /** Raises to the lower limit, then lowers to the upper one. */
  function Clip(x: real, lower: real, upper: real): real {
    var y := if x < lower then lower else x;
    if y > upper then upper else y
  }

  function Clamp(x: Vec, lower: Vec, upper: Vec): (y: Vec)
    requires |x| == |lower| == |upper|
    ensures |y| == |x| && forall i :: 0 <= i < |x| ==> y[i] == Clip(x[i], lower[i], upper[i])
  {
    seq(|x|, i requires 0 <= i < |x| => Clip(x[i], lower[i], upper[i]))
  }

  function Sum(x: Vec, y: Vec): (z: Vec)
    requires |x| == |y|
    ensures |z| == |x| && forall i :: 0 <= i < |x| ==> z[i] == x[i] + y[i]
  {
    seq(|x|, i requires 0 <= i < |x| => x[i] + y[i])
  }

  datatype Reason = Timeout | Breach

  /** reason is None on the dual path. */
  datatype Decision = Decision(command: Vec, reason: Option<Reason>, clamped: bool)

  /** The reference arbiter; a dimension mismatch is an error. */
  function Arbitrate(p: Plan, mpc: Vec, policy: Vec, state: Vec, timedOut: bool): Result<Decision>
    requires ValidPlan(p)
  {
    var e := p.envelope;
    if |mpc| != |e.inputLower| || |policy| != |e.inputLower| || |state| != |e.stateLower| then Failure
    else if timedOut && p.onTimeout then
      Success(Decision(Clamp(mpc, e.inputLower, e.inputUpper), Some(Timeout), false))
    else if !Inside(state, e.stateLower, e.stateUpper) && p.onBreach then
      Success(Decision(Clamp(mpc, e.inputLower, e.inputUpper), Some(Breach), false))
    else
      var wanted := if p.mode.Residual? then Sum(mpc, policy) else policy;
      var command := Clamp(wanted, e.inputLower, e.inputUpper);
      Success(Decision(command, None, command != wanted))
  }

  function Distance(x: real, y: real): real {
    if x < y then y - x else x - y
  }

  /** A clipped value lies within its limits, and nothing within them is nearer. */
  lemma ClipNearest(x: real, lower: real, upper: real, y: real)
    requires lower <= y <= upper
    ensures lower <= Clip(x, lower, upper) <= upper
    ensures Distance(x, Clip(x, lower, upper)) <= Distance(x, y)
    ensures x == Clip(x, lower, upper) <==> lower <= x <= upper
  {
  }

  lemma ClampInside(x: Vec, lower: Vec, upper: Vec)
    requires |x| == |lower| && Below(lower, upper)
    ensures Inside(Clamp(x, lower, upper), lower, upper)
    ensures Clamp(x, lower, upper) == x <==> Inside(x, lower, upper)
  {
    var y := Clamp(x, lower, upper);
    forall i | 0 <= i < |x| ensures lower[i] <= y[i] <= upper[i] && (y[i] == x[i] <==> lower[i] <= x[i] <= upper[i]) {
      ClipNearest(x[i], lower[i], upper[i], lower[i]);
    }
    if Inside(x, lower, upper) {
      assert y == x;
    }
  }

  /** What the arbiter wanted before clamping: the fallback control or the combination of the paths. */
  function Wanted(p: Plan, mpc: Vec, policy: Vec, reason: Option<Reason>): Vec
    requires |mpc| == |policy|
  {
    if reason.Some? || p.mode.PolicyPrimary? then (if reason.Some? then mpc else policy) else Sum(mpc, policy)
  }

  /**
   Every decision's command lies in the actuator box and equals what was wanted exactly when
   that lies in the box; the reason names the first fallback condition that holds; on the dual
   path, and only there, the flag says whether the command was clamped.
   */
  lemma ArbitrateMeaning(p: Plan, mpc: Vec, policy: Vec, state: Vec, timedOut: bool)
    requires ValidPlan(p)
    ensures var e := p.envelope;
      var r := Arbitrate(p, mpc, policy, state, timedOut);
      && (r.Success? <==> |mpc| == |policy| == |e.inputLower| && |state| == |e.stateLower|)
      && (r.Success? ==>
            && Inside(r.value.command, e.inputLower, e.inputUpper)
            && (r.value.command == Wanted(p, mpc, policy, r.value.reason) <==> Inside(Wanted(p, mpc, policy, r.value.reason), e.inputLower, e.inputUpper))
            && (r.value.reason == Some(Timeout) <==> timedOut && p.onTimeout)
            && (r.value.reason == Some(Breach) <==>
                  !(timedOut && p.onTimeout) && p.onBreach && !Inside(state, e.stateLower, e.stateUpper))
            && (r.value.clamped <==> r.value.reason.None? && !Inside(Wanted(p, mpc, policy, None), e.inputLower, e.inputUpper)))
  {
    var e := p.envelope;
    if |mpc| == |policy| == |e.inputLower| {
      ClampInside(mpc, e.inputLower, e.inputUpper);
      ClampInside(policy, e.inputLower, e.inputUpper);
      ClampInside(Sum(mpc, policy), e.inputLower, e.inputUpper);
    }
  }
}
