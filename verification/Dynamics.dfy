/**
 The two emitters of articulated-body forward dynamics: `EmitAba` for a parent-indexed tree
 and `ManipulatorOde` for a serial revolute chain. Each runs three sweeps over lists it
 updates in place; both are verified against the specification in `Articulated`.
 */
module Dynamics {
  import opened Linear
  import opened Spatial
  import opened Articulated
  import opened Wrappers

  datatype Kind = Revolute | Prismatic

  /** One joint of the extracted tree. */
  datatype Joint = Joint(parent: int, XT: Mat, kind: Kind, axis: Vec, S: Vec, I: Mat)

  /** One joint of a serial revolute chain, listed base to tip. */
  datatype ChainJoint = ChainJoint(E: Mat, r: Vec, axis: Vec, m: real, com: Vec, inertia: Mat)

  predicate JointShape(t: Joint) {
    IsMat(t.XT, DIM, DIM) && IsMat(t.I, DIM, DIM) && |t.S| == DIM && |t.axis| == 3
  }

  predicate RobotTree(tree: seq<Joint>) {
    forall j :: 0 <= j < |tree| ==> -1 <= tree[j].parent < j && JointShape(tree[j])
  }

  predicate ChainShape(chain: seq<ChainJoint>) {
    forall i :: 0 <= i < |chain| ==>
      && IsMat(chain[i].E, 3, 3) && |chain[i].r| == |chain[i].axis| == |chain[i].com| == 3
      && IsMat(chain[i].inertia, 3, 3)
  }

  // ---------------------------------------------------------------- what the velocity sweep means

  /** The transform into joint j's frame at position q. */
  function Xup(trig: Trig, t: Joint, q: real): (X: Mat)
    requires JointShape(t)
    ensures IsMat(X, DIM, DIM)
  {
    var xj := if t.kind == Revolute
              then Xrot(Transpose(RotAxis(t.axis, trig.cos(q), trig.sin(q)), 3, 3))
              else Xtrans(Scale(q, t.axis));
    Mul(xj, t.XT, DIM)
  }

  /** The spatial velocity of link j. */
  function Velocity(trig: Trig, tree: seq<Joint>, q: Vec, qd: Vec, j: nat): (v: Vec)
    requires RobotTree(tree) && |q| == |qd| == |tree| && j < |tree|
    ensures |v| == DIM
  {
    var p := tree[j].parent;
    var vp := if p < 0 then Zero(DIM) else Velocity(trig, tree, q, qd, p);
    Add(Apply(Xup(trig, tree[j], q[j]), vp), Scale(qd[j], tree[j].S))
  }

  /** Velocity-product acceleration crm(v) (S qd). */
  function Coriolis(v: Vec, S: Vec, qd: real): (c: Vec)
    requires |v| == |S| == DIM
    ensures |c| == DIM
  {
    Apply(Crm(v), Scale(qd, S))
  }

  /** Velocity-dependent bias force -crm(v)^T I v. */
  function Gyroscopic(v: Vec, I: Mat): (p: Vec)
    requires |v| == DIM && IsMat(I, DIM, DIM)
    ensures |p| == DIM
  {
    Apply(Mul(Neg(Transpose(Crm(v), DIM, DIM)), I, DIM), v)
  }

  lemma VelocityStep(trig: Trig, tree: seq<Joint>, q: Vec, qd: Vec, j: nat, X: Mat, vp: Vec)
    requires RobotTree(tree) && |q| == |qd| == |tree| && j < |tree|
    requires X == Xup(trig, tree[j], q[j])
    requires vp == if tree[j].parent < 0 then Zero(DIM) else Velocity(trig, tree, q, qd, tree[j].parent)
    ensures Velocity(trig, tree, q, qd, j) == Add(Apply(X, vp), Scale(qd[j], tree[j].S))
  {
    hide Xup, Add, Apply, Scale;
  }

  /** What the base-to-tip sweep leaves at link j. */
  ghost predicate Moved(trig: Trig, tree: seq<Joint>, q: Vec, qd: Vec, j: nat, c: Vec, p: Vec)
    requires RobotTree(tree) && |q| == |qd| == |tree| && j < |tree|
  {
    var v := Velocity(trig, tree, q, qd, j);
    c == Coriolis(v, tree[j].S, qd[j]) && p == Gyroscopic(v, tree[j].I)
  }

  /** The robot at one state and torque, as the links of the articulated-body theory. */
  function Links(trig: Trig, tree: seq<Joint>, armature: Vec, q: Vec, qd: Vec, tau: Vec): (L: seq<Link>)
    requires RobotTree(tree) && |armature| == |q| == |qd| == |tau| == |tree|
    ensures |L| == |tree| && Tree(L)
  {
    seq(|tree|, j requires 0 <= j < |tree| =>
      var v := Velocity(trig, tree, q, qd, j);
      Link(tree[j].parent, Xup(trig, tree[j], q[j]), tree[j].S, tree[j].I,
           Coriolis(v, tree[j].S, qd[j]), Gyroscopic(v, tree[j].I), armature[j], tau[j]))
  }

  /** The base accelerates against gravity. */
  function BaseAcceleration(gravity: Vec): (a0: Vec)
    requires |gravity| == 3
    ensures |a0| == DIM
  {
    Zero(3) + Scale(-1.0, gravity)
  }

  function Torque(u: Vec, qd: Vec, damping: Option<Vec>): (tau: Vec)
    requires |u| == |qd| && (damping.Some? ==> |damping.value| == |u|)
    ensures |tau| == |u|
  {
    match damping
    case None => u
    case Some(d) => seq(|u|, j requires 0 <= j < |u| => u[j] - d[j] * qd[j])
  }

  function ArmatureOrZero(n: nat, armature: Option<Vec>): (a: Vec)
    requires armature.Some? ==> |armature.value| == n
    ensures |a| == n
  {
    if armature.None? then Zero(n) else armature.value
  }

  // ---------------------------------------------------------------- the general emitter

  /** Forward dynamics dx = [qd, qdd] of x = [q, qd] under u. */
  method EmitAba(trig: Trig, tree: seq<Joint>, gravity: Vec, armature: Option<Vec>, damping: Option<Vec>,
                 x: Vec, u: Vec)
    returns (dx: Vec)
    requires RobotTree(tree) && |gravity| == 3 && |x| == 2 * |tree| && |u| == |tree|
    requires armature.Some? ==> |armature.value| == |tree|
    requires damping.Some? ==> |damping.value| == |tree|
    requires PivotsNonzero(Links(trig, tree, ArmatureOrZero(|tree|, armature), x[..|tree|], x[|tree|..],
                                 Torque(u, x[|tree|..], damping)))
    ensures |dx| == |x| && dx[..|tree|] == x[|tree|..]
    ensures var L := Links(trig, tree, ArmatureOrZero(|tree|, armature), x[..|tree|], x[|tree|..],
                           Torque(u, x[|tree|..], damping));
      dx[|tree|..] == ForwardDynamics(L, BaseAcceleration(gravity))
  {
    hide Links, ForwardDynamics, PivotsNonzero;
    var n := |tree|;
    var q, qd := x[..n], x[n..];
    var arm := if armature.None? then Zero(n) else armature.value;
    var a0 := Zero(3) + Scale(-1.0, gravity);
    var tau := u;
    if damping.Some? {
      tau := seq(n, j requires 0 <= j < n => u[j] - damping.value[j] * qd[j]);
    }
    assert tau == Torque(u, qd, damping);
    ghost var L := Links(trig, tree, arm, q, qd, tau);
    var xup := Transforms(trig, tree, q);
    var c, pA := VelocitySweep(trig, tree, q, qd, xup);
    forall i | 0 <= i < n ensures Sees(L, tree, arm, tau, xup, c, i) && pA[i] == L[i].p {
      LinkAt(trig, tree, arm, q, qd, tau, i);
      assert Moved(trig, tree, q, qd, i, c[i], pA[i]);
    }
    var U, D, uacc := InertiaSweep(L, tree, arm, tau, xup, c, pA);
    var qdd := AccelerationSweep(L, tree, arm, tau, a0, xup, c, U, D, uacc);
    dx := qd + qdd;
  }

  /** The transform of every joint at the current position. */
  method Transforms(trig: Trig, tree: seq<Joint>, q: Vec) returns (xup: seq<Mat>)
    requires RobotTree(tree) && |q| == |tree|
    ensures |xup| == |tree| && forall i :: 0 <= i < |tree| ==> xup[i] == Xup(trig, tree[i], q[i])
  {
    hide Xrot, Xtrans, RotAxis, Mul, Scale, Transpose;
    xup := [];
    for j := 0 to |tree|
      invariant |xup| == j && forall i :: 0 <= i < j ==> xup[i] == Xup(trig, tree[i], q[i])
    {
      var xj;
      if tree[j].kind == Revolute {
        xj := Xrot(Transpose(RotAxis(tree[j].axis, trig.cos(q[j]), trig.sin(q[j])), 3, 3));
      } else {
        xj := Xtrans(Scale(q[j], tree[j].axis));
      }
      xup := xup + [Mul(xj, tree[j].XT, DIM)];
    }
  }

  /** Pass 1, base to tip: velocities, velocity products, bias forces. */
  method VelocitySweep(ghost trig: Trig, tree: seq<Joint>, ghost q: Vec, qd: Vec, xup: seq<Mat>)
    returns (c: seq<Vec>, pA: seq<Vec>)
    requires RobotTree(tree) && |q| == |qd| == |xup| == |tree|
    requires forall i :: 0 <= i < |tree| ==> xup[i] == Xup(trig, tree[i], q[i])
    ensures |c| == |pA| == |tree|
    ensures forall i :: 0 <= i < |tree| ==> Moved(trig, tree, q, qd, i, c[i], pA[i])
  {
    hide Crm, Mul, Transpose, Neg, Apply, Add, Scale, Xup, Velocity;
    var v: seq<Vec> := [];
    c, pA := [], [];
    for j := 0 to |tree|
      invariant |v| == |c| == |pA| == j
      invariant forall i :: 0 <= i < j ==> v[i] == Velocity(trig, tree, q, qd, i)
      invariant forall i :: 0 <= i < j ==> Moved(trig, tree, q, qd, i, c[i], pA[i])
    {
      var vJ := Scale(qd[j], tree[j].S);
      var vp := if tree[j].parent < 0 then Zero(DIM) else v[tree[j].parent];
      var vj := Add(Apply(xup[j], vp), vJ);
      VelocityStep(trig, tree, q, qd, j, xup[j], vp);
      var cj := Apply(Crm(vj), vJ);
      var pj := Apply(Mul(Neg(Transpose(Crm(vj), DIM, DIM)), tree[j].I, DIM), vj);
      assert Moved(trig, tree, q, qd, j, cj, pj);
      v, c, pA := v + [vj], c + [cj], pA + [pj];
    }
  }

  /** Pass 2, tip to base: articulated inertias and bias forces, added into the parents. */
  method InertiaSweep(ghost L: seq<Link>, tree: seq<Joint>, arm: Vec, tau: Vec,
                      xup: seq<Mat>, c: seq<Vec>, bias: seq<Vec>)
    returns (U: seq<Vec>, D: Vec, uacc: Vec)
    requires Tree(L) && PivotsNonzero(L)
    requires |L| == |arm| == |tau| == |xup| == |c| == |bias| == |tree|
    requires forall i :: 0 <= i < |tree| ==> Sees(L, tree, arm, tau, xup, c, i) && bias[i] == L[i].p
    ensures |U| == |D| == |uacc| == |tree|
    ensures forall i :: 0 <= i < |tree| ==> Swept(L, i, U[i], D[i], uacc[i])
  {
    hide Apply, Dot, MAdd, MScale, Outer, Add, Scale, Mul, Transpose, Zero;
    var n := |tree|;
    var IA: seq<Mat> := seq(n, j requires 0 <= j < n => tree[j].I);
    var pA := bias;
    U := seq(n, j => []);
    D, uacc := Zero(n), Zero(n);
    for j := n downto 0
      invariant |U| == |D| == |uacc| == n
      invariant SweptTo(L, j, IA, pA)
      invariant forall i :: j <= i < n ==> Swept(L, i, U[i], D[i], uacc[i])
    {
      hide Inertia, Bias;
      assert Sees(L, tree, arm, tau, xup, c, j);
      assert IA[j] == Inertia(L, j, j + 1) && pA[j] == Bias(L, j, j + 1);
      U := U[j := Apply(IA[j], tree[j].S)];
      D := D[j := Dot(tree[j].S, U[j]) + arm[j]];
      uacc := uacc[j := tau[j] - Dot(tree[j].S, pA[j])];
      assert Swept(L, j, U[j], D[j], uacc[j]);
      var p := tree[j].parent;
      ghost var IA0, pA0 := IA, pA;
      if p >= 0 {
        assert D[j] == PivotAt(L, j) != 0.0;
        var Ia := MAdd(IA[j], MScale(-(1.0 / D[j]), Outer(U[j], U[j])));
        var pa := Add(Add(pA[j], Apply(Ia, c[j])), Scale(uacc[j] / D[j], U[j]));
        var XT := Transpose(xup[j], DIM, DIM);
        assert IsMat(IA[p], DIM, DIM) && |pA[p]| == DIM by {
          assert IA[p] == Inertia(L, p, j + 1) && pA[p] == Bias(L, p, j + 1);
        }
        IA := IA[p := MAdd(IA[p], Mul(Mul(XT, Ia, DIM), xup[j], DIM))];
        pA := pA[p := Add(pA[p], Apply(XT, pa))];
      }
      SweepStep(L, j, IA0, pA0, IA, pA);
    }
  }

  /** Pass 3, base to tip: link and joint accelerations. */
  method AccelerationSweep(ghost L: seq<Link>, tree: seq<Joint>, ghost arm: Vec, ghost tau: Vec,
                           a0: Vec, xup: seq<Mat>, c: seq<Vec>, U: seq<Vec>, D: Vec, uacc: Vec)
    returns (qdd: Vec)
    requires Tree(L) && PivotsNonzero(L) && |a0| == DIM
    requires |L| == |arm| == |tau| == |xup| == |c| == |U| == |D| == |uacc| == |tree|
    requires forall i :: 0 <= i < |tree| ==>
      Sees(L, tree, arm, tau, xup, c, i) && Swept(L, i, U[i], D[i], uacc[i])
    ensures qdd == ForwardDynamics(L, a0)
  {
    hide Apply, Dot, Add, Scale, Inertia, Bias;
    var a: seq<Vec> := [];
    qdd := [];
    for j := 0 to |tree|
      invariant |a| == |qdd| == j
      invariant forall i :: 0 <= i < j ==>
        a[i] == Acceleration(L, a0, i) && qdd[i] == JointAcceleration(L, i, ParentAcceleration(L, a0, i))
    {
      assert Sees(L, tree, arm, tau, xup, c, j);
      var ap := if tree[j].parent < 0 then a0 else a[tree[j].parent];
      assert ap == ParentAcceleration(L, a0, j);
      var at := Add(Apply(xup[j], ap), c[j]);
      assert Swept(L, j, U[j], D[j], uacc[j]) && PivotAt(L, j) != 0.0;
      var acc := (uacc[j] - Dot(U[j], at)) / D[j];
      a := a + [Add(at, Scale(acc, tree[j].S))];
      qdd := qdd + [acc];
    }
  }

  /** The data of joint j as the sweeps see it, and as its link has it. */
  ghost predicate Sees(L: seq<Link>, tree: seq<Joint>, arm: Vec, tau: Vec, xup: seq<Mat>, c: seq<Vec>, j: nat)
    requires |L| == |tree| == |arm| == |tau| == |xup| == |c| && j < |L|
  {
    && L[j].parent == tree[j].parent && L[j].S == tree[j].S && L[j].I == tree[j].I
    && L[j].armature == arm[j] && L[j].tau == tau[j] && L[j].X == xup[j] && L[j].c == c[j]
  }

  lemma LinkAt(trig: Trig, tree: seq<Joint>, armature: Vec, q: Vec, qd: Vec, tau: Vec, j: nat)
    requires RobotTree(tree) && |armature| == |q| == |qd| == |tau| == |tree| && j < |tree|
    ensures var v := Velocity(trig, tree, q, qd, j);
      Links(trig, tree, armature, q, qd, tau)[j]
        == Link(tree[j].parent, Xup(trig, tree[j], q[j]), tree[j].S, tree[j].I,
                Coriolis(v, tree[j].S, qd[j]), Gyroscopic(v, tree[j].I), armature[j], tau[j])
  {
    hide Velocity, Xup, Coriolis, Gyroscopic;
  }

  /** What the tip-to-base sweep records at joint j. */
  ghost predicate Swept(L: seq<Link>, j: nat, U: Vec, D: real, uacc: real)
    requires Tree(L) && j < |L|
  {
    && U == Thrust(Inertia(L, j, j + 1), L[j]) && D == PivotAt(L, j)
    && uacc == Drive(Bias(L, j, j + 1), L[j])
  }

  /** The lists of the tip-to-base sweep before it reaches joint k - 1. */
  ghost predicate SweptTo(L: seq<Link>, k: nat, IA: seq<Mat>, pA: seq<Vec>)
    requires Tree(L) && k <= |L|
  {
    && |IA| == |pA| == |L|
    && (forall i :: 0 <= i < k ==> IA[i] == Inertia(L, i, k) && pA[i] == Bias(L, i, k))
    && (forall i :: k <= i < |L| ==> IA[i] == Inertia(L, i, i + 1) && pA[i] == Bias(L, i, i + 1))
  }

  lemma SweepStep(L: seq<Link>, j: nat, IA: seq<Mat>, pA: seq<Vec>, IA': seq<Mat>, pA': seq<Vec>)
    requires Tree(L) && j < |L| && SweptTo(L, j + 1, IA, pA)
    requires var p := L[j].parent; var A, b := Inertia(L, j, j + 1), Bias(L, j, j + 1);
      if p < 0 then IA' == IA && pA' == pA
      else
        && IsMat(IA[p], DIM, DIM) && |pA[p]| == DIM
        && IA' == IA[p := MAdd(IA[p], CarriedInertia(A, L[j]))]
        && pA' == pA[p := Add(pA[p], CarriedBias(A, b, L[j]))]
    ensures SweptTo(L, j, IA', pA')
  {
    hide CarriedInertia, CarriedBias, MAdd, Add;
    forall i | 0 <= i < j ensures IA'[i] == Inertia(L, i, j) && pA'[i] == Bias(L, i, j) {
      assert IA[i] == Inertia(L, i, j + 1) && pA[i] == Bias(L, i, j + 1);
    }
  }
}
