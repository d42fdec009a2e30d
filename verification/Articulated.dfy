/**
 The theory behind articulated-body forward dynamics on a parent-indexed tree. A `Link`
 holds what the base-to-tip velocity sweep leaves behind for one joint; its matrices and
 vectors are arbitrary. The functions `Inertia`, `Bias` and `Acceleration` say what the two
 remaining sweeps compute, `NewtonEuler` is the reference they are measured against, and the
 two are tied together by `ForwardSolves` and `ForwardUnique`. `PivotsPositive` shows that no
 sweep divides by zero on a physical tree.
 */
module Articulated {
  import opened Linear

  const DIM: nat := 6

  datatype Link = Link(parent: int, X: Mat, S: Vec, I: Mat, c: Vec, p: Vec, armature: real, tau: real)

  predicate LinkShape(l: Link) {
    IsMat(l.X, DIM, DIM) && IsMat(l.I, DIM, DIM) && |l.S| == |l.c| == |l.p| == DIM
  }

  predicate Tree(L: seq<Link>) {
    forall j :: 0 <= j < |L| ==> -1 <= L[j].parent < j && LinkShape(L[j])
  }

  predicate SymmetricInertias(L: seq<Link>) {
    forall j :: 0 <= j < |L| ==> Symmetric(L[j].I, DIM)
  }

  /** Division that is defined everywhere; where the sweeps divide, the divisor is a pivot. */
  function Over(a: real, b: real): real {
    if b == 0.0 then 0.0 else a / b
  }

  // ---------------------------------------------------------------- one joint
  // A and p are the articulated inertia and bias force of the joint of link l.

  /** U = IA S */
  function Thrust(A: Mat, l: Link): (u: Vec)
    requires LinkShape(l) && IsMat(A, DIM, DIM)
    ensures |u| == DIM
  {
    Apply(A, l.S)
  }

  /** D = S^T U + armature */
  function Pivot(A: Mat, l: Link): real
    requires LinkShape(l) && IsMat(A, DIM, DIM)
  {
    Dot(l.S, Thrust(A, l)) + l.armature
  }

  /** u = tau - S^T pA */
  function Drive(p: Vec, l: Link): real
    requires LinkShape(l) && |p| == DIM
  {
    l.tau - Dot(l.S, p)
  }

  /** Ia = IA - U U^T / D */
  function Reduced(A: Mat, l: Link): (M: Mat)
    requires LinkShape(l) && IsMat(A, DIM, DIM)
    ensures IsMat(M, DIM, DIM)
  {
    MAdd(A, MScale(-Over(1.0, Pivot(A, l)), Outer(Thrust(A, l), Thrust(A, l))))
  }

  /** pa = pA + Ia c + U u / D */
  function ReducedBias(A: Mat, p: Vec, l: Link): (v: Vec)
    requires LinkShape(l) && IsMat(A, DIM, DIM) && |p| == DIM
    ensures |v| == DIM
  {
    Add(Add(p, Apply(Reduced(A, l), l.c)), Scale(Over(Drive(p, l), Pivot(A, l)), Thrust(A, l)))
  }

  /** X^T Ia X, the share of the joint in its parent's articulated inertia. */
  function CarriedInertia(A: Mat, l: Link): (M: Mat)
    requires LinkShape(l) && IsMat(A, DIM, DIM)
    ensures IsMat(M, DIM, DIM)
  {
    Mul(Mul(Transpose(l.X, DIM, DIM), Reduced(A, l), DIM), l.X, DIM)
  }

  /** X^T pa, the share of the joint in its parent's bias force. */
  function CarriedBias(A: Mat, p: Vec, l: Link): (v: Vec)
    requires LinkShape(l) && IsMat(A, DIM, DIM) && |p| == DIM
    ensures |v| == DIM
  {
    Apply(Transpose(l.X, DIM, DIM), ReducedBias(A, p, l))
  }

  /** X a_parent + c */
  function Drift(l: Link, ap: Vec): (v: Vec)
    requires LinkShape(l) && |ap| == DIM
    ensures |v| == DIM
  {
    Add(Apply(l.X, ap), l.c)
  }

  // ---------------------------------------------------------------- the tip-to-base sweep

  /** The inertia slot of joint i once the sweep has gone through the joints above k, and k. */
  function Inertia(L: seq<Link>, i: nat, k: nat): (M: Mat)
    requires Tree(L) && i < k <= |L|
    ensures IsMat(M, DIM, DIM)
    decreases |L| - k
  {
    if k == |L| then L[i].I
    else if L[k].parent == i then MAdd(Inertia(L, i, k + 1), CarriedInertia(Inertia(L, k, k + 1), L[k]))
    else Inertia(L, i, k + 1)
  }

  /** The bias slot of joint i at the same moment. */
  function Bias(L: seq<Link>, i: nat, k: nat): (v: Vec)
    requires Tree(L) && i < k <= |L|
    ensures |v| == DIM
    decreases |L| - k
  {
    if k == |L| then L[i].p
    else if L[k].parent == i then
      Add(Bias(L, i, k + 1), CarriedBias(Inertia(L, k, k + 1), Bias(L, k, k + 1), L[k]))
    else Bias(L, i, k + 1)
  }

  function PivotAt(L: seq<Link>, j: nat): real
    requires Tree(L) && j < |L|
  {
    Pivot(Inertia(L, j, j + 1), L[j])
  }

  predicate PivotsNonzero(L: seq<Link>)
    requires Tree(L)
  {
    forall j :: 0 <= j < |L| ==> PivotAt(L, j) != 0.0
  }

  // ---------------------------------------------------------------- the base-to-tip sweep

  function ParentOr(j: int, a0: Vec, a: seq<Vec>): Vec
    requires -1 <= j < |a|
  {
    if j < 0 then a0 else a[j]
  }

  /** The joint acceleration (u - U^T (X a_parent + c)) / D. */
  function JointAcceleration(L: seq<Link>, j: nat, ap: Vec): real
    requires Tree(L) && j < |L| && |ap| == DIM
  {
    var A := Inertia(L, j, j + 1);
    Over(Drive(Bias(L, j, j + 1), L[j]) - Dot(Thrust(A, L[j]), Drift(L[j], ap)), Pivot(A, L[j]))
  }

  function ParentAcceleration(L: seq<Link>, a0: Vec, j: nat): (v: Vec)
    requires Tree(L) && j < |L| && |a0| == DIM
    ensures |v| == DIM
    decreases j, 0
  {
    if L[j].parent < 0 then a0 else Acceleration(L, a0, L[j].parent)
  }

  function Acceleration(L: seq<Link>, a0: Vec, j: nat): (v: Vec)
    requires Tree(L) && j < |L| && |a0| == DIM
    ensures |v| == DIM
    decreases j, 1
  {
    var ap := ParentAcceleration(L, a0, j);
    Add(Drift(L[j], ap), Scale(JointAcceleration(L, j, ap), L[j].S))
  }

  function ForwardDynamics(L: seq<Link>, a0: Vec): (qdd: seq<real>)
    requires Tree(L) && |a0| == DIM
    ensures |qdd| == |L|
  {
    seq(|L|, j requires 0 <= j < |L| => JointAcceleration(L, j, ParentAcceleration(L, a0, j)))
  }

  // ---------------------------------------------------------------- the Newton-Euler reference

  /** I_j a_j + p_j plus the forces that the children of j numbered k and above pass down. */
  function NetForce(L: seq<Link>, a: seq<Vec>, f: seq<Vec>, j: nat, k: nat): (v: Vec)
    requires Tree(L) && j < k <= |L| && |a| == |f| == |L|
    requires forall i :: 0 <= i < |L| ==> |a[i]| == |f[i]| == DIM
    ensures |v| == DIM
    decreases |L| - k
  {
    if k == |L| then Add(Apply(L[j].I, a[j]), L[j].p)
    else if L[k].parent == j then Add(NetForce(L, a, f, j, k + 1), Apply(Transpose(L[k].X, DIM, DIM), f[k]))
    else NetForce(L, a, f, j, k + 1)
  }

  /** Accelerations a propagate from the base, forces f balance at every link. */
  predicate Motion(L: seq<Link>, a0: Vec, a: seq<Vec>, f: seq<Vec>, qdd: seq<real>)
    requires Tree(L) && |a0| == DIM
  {
    && |a| == |f| == |qdd| == |L|
    && (forall j :: 0 <= j < |L| ==> |a[j]| == |f[j]| == DIM)
    && (forall j :: 0 <= j < |L| ==>
          a[j] == Add(Drift(L[j], ParentOr(L[j].parent, a0, a)), Scale(qdd[j], L[j].S)))
    && (forall j :: 0 <= j < |L| ==> f[j] == NetForce(L, a, f, j, j + 1))
  }

  predicate TorqueAt(l: Link, f: Vec, qdd: real)
    requires LinkShape(l) && |f| == DIM
  {
    Dot(l.S, f) + l.armature * qdd == l.tau
  }

  /** The recursive Newton-Euler equations: a motion whose joint torques are the given ones. */
  predicate NewtonEuler(L: seq<Link>, a0: Vec, a: seq<Vec>, f: seq<Vec>, qdd: seq<real>)
    requires Tree(L) && |a0| == DIM
  {
    && Motion(L, a0, a, f, qdd)
    && forall j :: 0 <= j < |L| ==> TorqueAt(L[j], f[j], qdd[j])
  }

  // ---------------------------------------------------------------- symmetry of the sweep

  lemma {:induction false} InertiaSymmetric(L: seq<Link>, i: nat, k: nat)
    requires Tree(L) && SymmetricInertias(L) && i < k <= |L|
    ensures Symmetric(Inertia(L, i, k), DIM)
    decreases |L| - k
  {
    if k < |L| {
      InertiaSymmetric(L, i, k + 1);
      if L[k].parent == i {
        var A := Inertia(L, k, k + 1);
        InertiaSymmetric(L, k, k + 1);
        RankOneSymmetric(A, -Over(1.0, Pivot(A, L[k])), Thrust(A, L[k]));
        CongruenceSymmetric(L[k].X, Reduced(A, L[k]), DIM);
        SumSymmetric(Inertia(L, i, k + 1), CarriedInertia(A, L[k]), DIM);
      }
    }
  }

  // ---------------------------------------------------------------- one joint solved

  /** The equation D qdd == u - U^T (X a_parent + c) that the base-to-tip sweep solves. */
  predicate JointEquation(A: Mat, p: Vec, l: Link, ap: Vec, qdd: real)
    requires LinkShape(l) && IsMat(A, DIM, DIM) && |p| == |ap| == DIM
  {
    Times(Pivot(A, l), qdd) == Drive(p, l) - Dot(Thrust(A, l), Drift(l, ap))
  }

  function AffineForce(A: Mat, p: Vec, a: Vec): (f: Vec)
    requires IsMat(A, DIM, DIM) && |p| == |a| == DIM
    ensures |f| == DIM
  {
    Add(Apply(A, a), p)
  }

  /** With f == IA a + pA, the torque balance and the joint equation say the same. */
  lemma TorqueIffJointEquation(A: Mat, p: Vec, l: Link, ap: Vec, qdd: real)
    requires LinkShape(l) && Symmetric(A, DIM) && |p| == |ap| == DIM
    ensures TorqueAt(l, AffineForce(A, p, Add(Drift(l, ap), Scale(qdd, l.S))), qdd)
       <==> JointEquation(A, p, l, ap, qdd)
  {
    AlongAxis(A, l.S, Drift(l, ap), qdd, p);
    TorqueAlgebra(Dot(Thrust(A, l), Drift(l, ap)), Form(A, l.S, l.S), Dot(l.S, p), l.armature, qdd, l.tau);
  }

  lemma TorqueAlgebra(e: real, s: real, b: real, armature: real, qdd: real, tau: real)
    ensures e + Times(qdd, s) + b + armature * qdd == tau <==> Times(s + armature, qdd) == tau - b - e
  {
  }

  lemma Quotient(d: real, u: real, e: real, qdd: real, w: real)
    requires d != 0.0 && Times(d, qdd) == u - e
    ensures Times(qdd, w) == Times(Over(u, d), w) + Times(-Over(1.0, d), Times(e, w))
  {
    assert qdd == (u - e) / d == u / d - e / d;
    assert e / d == (1.0 / d) * e;
    assert qdd * w == (u / d) * w - ((1.0 / d) * e) * w;
    assert ((1.0 / d) * e) * w == (1.0 / d) * (e * w);
  }

  /** Eliminating qdd: IA a + pA == Ia X a_parent + pa. */
  lemma Eliminate(A: Mat, p: Vec, l: Link, ap: Vec, qdd: real)
    requires LinkShape(l) && IsMat(A, DIM, DIM) && |p| == |ap| == DIM
    requires Pivot(A, l) != 0.0 && JointEquation(A, p, l, ap, qdd)
    ensures AffineForce(A, p, Add(Drift(l, ap), Scale(qdd, l.S)))
         == Add(Apply(Reduced(A, l), Apply(l.X, ap)), ReducedBias(A, p, l))
  {
    var d, U, x := Pivot(A, l), Thrust(A, l), Apply(l.X, ap);
    var k, q := -Over(1.0, d), Over(Drive(p, l), d);
    ApplyAdd(A, Add(x, l.c), Scale(qdd, l.S));
    ApplyScale(A, qdd, l.S);
    ApplyAdd(A, x, l.c);
    RankOneApply(A, k, U, x);
    RankOneApply(A, k, U, l.c);
    DotAdd(x, l.c, U);
    forall i | 0 <= i < DIM
      ensures Times(qdd, U[i]) == Times(q, U[i]) + Times(k, Times(Dot(U, x) + Dot(U, l.c), U[i]))
    {
      Quotient(d, Drive(p, l), Dot(U, x) + Dot(U, l.c), qdd, U[i]);
    }
    Regroup(Apply(A, x), Apply(A, l.c), U, p, qdd, k, q, Dot(U, x), Dot(U, l.c));
  }

  lemma Regroup(ax: Vec, ac: Vec, U: Vec, p: Vec, qdd: real, k: real, q: real, ux: real, uc: real)
    requires |ax| == |ac| == |U| == |p|
    requires forall i :: 0 <= i < |U| ==> Times(qdd, U[i]) == Times(q, U[i]) + Times(k, Times(ux + uc, U[i]))
    ensures Add(Add(Add(ax, ac), Scale(qdd, U)), p)
         == Add(Add(ax, Scale(k, Scale(ux, U))), Add(Add(p, Add(ac, Scale(k, Scale(uc, U)))), Scale(q, U)))
  {
    forall i | 0 <= i < |U|
      ensures ax[i] + ac[i] + Times(qdd, U[i]) + p[i]
           == ax[i] + Times(k, Times(ux, U[i])) + (p[i] + (ac[i] + Times(k, Times(uc, U[i]))) + Times(q, U[i]))
    {
      Distribute(k, ux, uc, U[i]);
    }
  }

  lemma Distribute(k: real, a: real, b: real, w: real)
    ensures Times(k, Times(a + b, w)) == Times(k, Times(a, w)) + Times(k, Times(b, w))
  {
    assert Times(a + b, w) == Times(a, w) + Times(b, w);
  }

  /** What a solved joint passes to its parent is affine in the parent's acceleration. */
  lemma Transmit(A: Mat, p: Vec, l: Link, ap: Vec, qdd: real)
    requires LinkShape(l) && IsMat(A, DIM, DIM) && |p| == |ap| == DIM
    requires Pivot(A, l) != 0.0 && JointEquation(A, p, l, ap, qdd)
    ensures Apply(Transpose(l.X, DIM, DIM), AffineForce(A, p, Add(Drift(l, ap), Scale(qdd, l.S))))
         == AffineForce(CarriedInertia(A, l), CarriedBias(A, p, l), ap)
  {
    var XT, M, x := Transpose(l.X, DIM, DIM), Reduced(A, l), Apply(l.X, ap);
    Eliminate(A, p, l, ap, qdd);
    ApplyAdd(XT, Apply(M, x), ReducedBias(A, p, l));
    ApplyMul(Mul(XT, M, DIM), l.X, ap);
    ApplyMul(XT, M, x);
  }

  // ---------------------------------------------------------------- the whole tree

  /** The joint equation of joint j of the tree, for candidate accelerations a. */
  predicate JointSolved(L: seq<Link>, a0: Vec, a: seq<Vec>, qdd: seq<real>, j: nat)
    requires Tree(L) && j < |L| == |a| == |qdd| && |a0| == DIM
    requires forall i :: 0 <= i < |L| ==> |a[i]| == DIM
  {
    JointEquation(Inertia(L, j, j + 1), Bias(L, j, j + 1), L[j], ParentOr(L[j].parent, a0, a), qdd[j])
  }

  /** The sweep invariant: a net force is the current inertia slot times a_j plus the bias slot. */
  lemma {:induction false} NetForceAffine(L: seq<Link>, a0: Vec, a: seq<Vec>, f: seq<Vec>, qdd: seq<real>, j: nat, k: nat)
    requires Tree(L) && SymmetricInertias(L) && PivotsNonzero(L) && |a0| == DIM
    requires Motion(L, a0, a, f, qdd) && j < k <= |L|
    requires forall i :: k <= i < |L| ==> JointSolved(L, a0, a, qdd, i)
    ensures NetForce(L, a, f, j, k) == AffineForce(Inertia(L, j, k), Bias(L, j, k), a[j])
    decreases |L| - k
  {
    hide Drift, Add, Scale, MAdd, CarriedInertia, CarriedBias, Apply, Transpose, Symmetric, Pivot;
    if k < |L| {
      NetForceAffine(L, a0, a, f, qdd, j, k + 1);
      if L[k].parent == j {
        var A, p := Inertia(L, k, k + 1), Bias(L, k, k + 1);
        NetForceAffine(L, a0, a, f, qdd, k, k + 1);
        assert PivotAt(L, k) != 0.0 && JointSolved(L, a0, a, qdd, k);
        Transmit(A, p, L[k], a[j], qdd[k]);
        ApplyMAdd(Inertia(L, j, k + 1), CarriedInertia(A, L[k]), a[j]);
        SumOfAffine(Inertia(L, j, k + 1), Bias(L, j, k + 1), CarriedInertia(A, L[k]), CarriedBias(A, p, L[k]), a[j]);
      }
    }
  }

  lemma SumOfAffine(A: Mat, p: Vec, B: Mat, q: Vec, a: Vec)
    requires IsMat(A, DIM, DIM) && IsMat(B, DIM, DIM) && |p| == |q| == |a| == DIM
    ensures AffineForce(MAdd(A, B), Add(p, q), a) == Add(AffineForce(A, p, a), AffineForce(B, q, a))
  {
    ApplyMAdd(A, B, a);
  }

  /** Going down from the tips, torque balance solves every joint equation. */
  lemma {:induction false} TorquesSolveJoints(L: seq<Link>, a0: Vec, a: seq<Vec>, f: seq<Vec>, qdd: seq<real>, m: nat)
    requires Tree(L) && SymmetricInertias(L) && PivotsNonzero(L) && |a0| == DIM
    requires NewtonEuler(L, a0, a, f, qdd) && m <= |L|
    ensures forall j :: m <= j < |L| ==> JointSolved(L, a0, a, qdd, j)
    decreases |L| - m
  {
    if m < |L| {
      TorquesSolveJoints(L, a0, a, f, qdd, m + 1);
      SolvedIffTorque(L, a0, a, f, qdd, m);
      forall j | m <= j < |L| ensures JointSolved(L, a0, a, qdd, j) {
        assert j == m || m + 1 <= j;
      }
    }
  }

  lemma SolvedIffTorque(L: seq<Link>, a0: Vec, a: seq<Vec>, f: seq<Vec>, qdd: seq<real>, j: nat)
    requires Tree(L) && SymmetricInertias(L) && PivotsNonzero(L) && |a0| == DIM
    requires Motion(L, a0, a, f, qdd) && j < |L|
    requires forall i :: j + 1 <= i < |L| ==> JointSolved(L, a0, a, qdd, i)
    ensures TorqueAt(L[j], f[j], qdd[j]) <==> JointSolved(L, a0, a, qdd, j)
  {
    NetForceAffine(L, a0, a, f, qdd, j, j + 1);
    InertiaSymmetric(L, j, j + 1);
    TorqueIffJointEquation(Inertia(L, j, j + 1), Bias(L, j, j + 1), L[j], ParentOr(L[j].parent, a0, a), qdd[j]);
  }

  /** Going up from the base, the joint equations leave no choice of acceleration. */
  lemma {:induction false} JointsDetermine(L: seq<Link>, a0: Vec, a: seq<Vec>, f: seq<Vec>, qdd: seq<real>, j: nat)
    requires Tree(L) && PivotsNonzero(L) && |a0| == DIM && j < |L|
    requires Motion(L, a0, a, f, qdd)
    requires forall i :: 0 <= i < |L| ==> JointSolved(L, a0, a, qdd, i)
    ensures a[j] == Acceleration(L, a0, j) && qdd[j] == ForwardDynamics(L, a0)[j]
  {
    if L[j].parent >= 0 {
      JointsDetermine(L, a0, a, f, qdd, L[j].parent);
    }
    assert JointSolved(L, a0, a, qdd, j);
    SolvedJoint(L, j, ParentAcceleration(L, a0, j), qdd[j]);
  }

  lemma SolvedJoint(L: seq<Link>, j: nat, ap: Vec, qdd: real)
    requires Tree(L) && PivotsNonzero(L) && j < |L| && |ap| == DIM
    ensures JointEquation(Inertia(L, j, j + 1), Bias(L, j, j + 1), L[j], ap, qdd)
       <==> qdd == JointAcceleration(L, j, ap)
  {
    assert PivotAt(L, j) != 0.0;
    DivideOut(PivotAt(L, j), qdd);
  }

  lemma DivideOut(d: real, x: real)
    requires d != 0.0
    ensures Over(Times(d, x), d) == x
    ensures forall y :: Times(d, Over(y, d)) == y
  {
    assert (d * x) / d == x;
  }

  /** The forces that go with the accelerations of the sweep. */
  function Forces(L: seq<Link>, a: seq<Vec>, m: nat): (f: seq<Vec>)
    requires Tree(L) && |a| == |L| && m <= |L|
    requires forall i :: 0 <= i < |L| ==> |a[i]| == DIM
    ensures |f| == |L| && forall i :: 0 <= i < |L| ==> |f[i]| == DIM
    decreases |L| - m
  {
    if m == |L| then seq(|L|, i => Zero(DIM))
    else var g := Forces(L, a, m + 1); g[m := NetForce(L, a, g, m, m + 1)]
  }

  lemma {:induction false} NetForceDependsOnLater(L: seq<Link>, a: seq<Vec>, f: seq<Vec>, g: seq<Vec>, j: nat, k: nat)
    requires Tree(L) && j < k <= |L| && |a| == |f| == |g| == |L|
    requires forall i :: 0 <= i < |L| ==> |a[i]| == |f[i]| == |g[i]| == DIM
    requires forall i :: k <= i < |L| ==> f[i] == g[i]
    ensures NetForce(L, a, f, j, k) == NetForce(L, a, g, j, k)
    decreases |L| - k
  {
    if k < |L| {
      NetForceDependsOnLater(L, a, f, g, j, k + 1);
    }
  }

  predicate Balanced(L: seq<Link>, a: seq<Vec>, f: seq<Vec>, j: nat)
    requires Tree(L) && j < |a| == |f| == |L|
    requires forall i :: 0 <= i < |L| ==> |a[i]| == |f[i]| == DIM
  {
    f[j] == NetForce(L, a, f, j, j + 1)
  }

  lemma {:induction false} ForcesBalance(L: seq<Link>, a: seq<Vec>, m: nat)
    requires Tree(L) && |a| == |L| && m <= |L|
    requires forall i :: 0 <= i < |L| ==> |a[i]| == DIM
    ensures forall j :: m <= j < |L| ==> Balanced(L, a, Forces(L, a, m), j)
    decreases |L| - m
  {
    if m < |L| {
      var f, g := Forces(L, a, m), Forces(L, a, m + 1);
      ForcesBalance(L, a, m + 1);
      forall j | m <= j < |L| ensures Balanced(L, a, f, j) {
        NetForceDependsOnLater(L, a, f, g, j, j + 1);
        assert j > m ==> Balanced(L, a, g, j);
      }
    }
  }

  /** Accelerations leave no choice of forces. */
  lemma {:induction false} BalanceUnique(L: seq<Link>, a: seq<Vec>, f: seq<Vec>, g: seq<Vec>, m: nat)
    requires Tree(L) && |a| == |f| == |g| == |L| && m <= |L|
    requires forall i :: 0 <= i < |L| ==> |a[i]| == |f[i]| == |g[i]| == DIM
    requires forall j :: 0 <= j < |L| ==> Balanced(L, a, f, j) && Balanced(L, a, g, j)
    ensures forall j :: m <= j < |L| ==> f[j] == g[j]
    decreases |L| - m
  {
    if m < |L| {
      BalanceUnique(L, a, f, g, m + 1);
      NetForceDependsOnLater(L, a, f, g, m, m + 1);
      assert Balanced(L, a, f, m) && Balanced(L, a, g, m);
    }
  }

  function Accelerations(L: seq<Link>, a0: Vec): (a: seq<Vec>)
    requires Tree(L) && |a0| == DIM
    ensures |a| == |L| && forall i :: 0 <= i < |L| ==> |a[i]| == DIM
  {
    seq(|L|, j requires 0 <= j < |L| => Acceleration(L, a0, j))
  }

  lemma AccelerationMoves(L: seq<Link>, a0: Vec, j: nat)
    requires Tree(L) && PivotsNonzero(L) && |a0| == DIM && j < |L|
    ensures var a, qdd := Accelerations(L, a0), ForwardDynamics(L, a0);
      && a[j] == Add(Drift(L[j], ParentOr(L[j].parent, a0, a)), Scale(qdd[j], L[j].S))
      && JointSolved(L, a0, a, qdd, j)
  {
    var ap := ParentAcceleration(L, a0, j);
    assert ParentOr(L[j].parent, a0, Accelerations(L, a0)) == ap;
    SolvedJoint(L, j, ap, JointAcceleration(L, j, ap));
  }

  lemma ForwardMotion(L: seq<Link>, a0: Vec)
    requires Tree(L) && PivotsNonzero(L) && |a0| == DIM
    ensures var a := Accelerations(L, a0);
      && Motion(L, a0, a, Forces(L, a, 0), ForwardDynamics(L, a0))
      && forall j :: 0 <= j < |L| ==> JointSolved(L, a0, a, ForwardDynamics(L, a0), j)
  {
    hide Forces, NetForce, JointSolved, ForwardDynamics, JointAcceleration, Apply;
    var a, qdd := Accelerations(L, a0), ForwardDynamics(L, a0);
    var f := Forces(L, a, 0);
    ForcesBalance(L, a, 0);
    forall j | 0 <= j < |L|
      ensures f[j] == NetForce(L, a, f, j, j + 1)
      ensures a[j] == Add(Drift(L[j], ParentOr(L[j].parent, a0, a)), Scale(qdd[j], L[j].S))
      ensures JointSolved(L, a0, a, qdd, j)
    {
      assert Balanced(L, a, f, j);
      AccelerationMoves(L, a0, j);
    }
  }

  /** The sweeps solve the Newton-Euler equations of every tree. */
  lemma ForwardSolves(L: seq<Link>, a0: Vec)
    requires Tree(L) && SymmetricInertias(L) && PivotsNonzero(L) && |a0| == DIM
    ensures var a := Accelerations(L, a0);
      NewtonEuler(L, a0, a, Forces(L, a, 0), ForwardDynamics(L, a0))
  {
    var a, qdd := Accelerations(L, a0), ForwardDynamics(L, a0);
    var f := Forces(L, a, 0);
    ForwardMotion(L, a0);
    forall j | 0 <= j < |L| ensures TorqueAt(L[j], f[j], qdd[j]) {
      SolvedIffTorque(L, a0, a, f, qdd, j);
    }
  }

  /** ... and nothing else solves them. */
  lemma ForwardUnique(L: seq<Link>, a0: Vec, a: seq<Vec>, f: seq<Vec>, qdd: seq<real>)
    requires Tree(L) && SymmetricInertias(L) && PivotsNonzero(L) && |a0| == DIM
    requires NewtonEuler(L, a0, a, f, qdd)
    ensures qdd == ForwardDynamics(L, a0) && a == Accelerations(L, a0) && f == Forces(L, a, 0)
  {
    hide Forces;
    TorquesSolveJoints(L, a0, a, f, qdd, 0);
    forall j | 0 <= j < |L| ensures a[j] == Acceleration(L, a0, j) && qdd[j] == ForwardDynamics(L, a0)[j] {
      JointsDetermine(L, a0, a, f, qdd, j);
    }
    ForcesBalance(L, a, 0);
    forall j | 0 <= j < |L| ensures Balanced(L, a, f, j) {
    }
    BalanceUnique(L, a, f, Forces(L, a, 0), 0);
  }

  // ---------------------------------------------------------------- no division by zero

  /** A tree of links with positive definite inertias, armatures >= 0 and real joint axes. */
  ghost predicate Physical(L: seq<Link>) {
    forall j :: 0 <= j < |L| ==>
      && LinkShape(L[j]) && Symmetric(L[j].I, DIM) && Definite(L[j].I, DIM)
      && L[j].armature >= 0.0 && L[j].S != Zero(DIM)
  }

  /** The Schur complement of a definite inertia is semidefinite. */
  lemma ReducedSemiDefinite(A: Mat, l: Link)
    requires LinkShape(l) && Symmetric(A, DIM) && Definite(A, DIM)
    requires l.armature >= 0.0 && l.S != Zero(DIM)
    ensures Pivot(A, l) > 0.0 && SemiDefinite(Reduced(A, l), DIM)
  {
    assert Form(A, l.S, l.S) > 0.0;
    forall x: Vec | |x| == DIM ensures Form(Reduced(A, l), x, x) >= 0.0 {
      ReducedForm(A, l, x);
    }
  }

  lemma ReducedForm(A: Mat, l: Link, x: Vec)
    requires LinkShape(l) && Symmetric(A, DIM) && Definite(A, DIM) && |x| == DIM
    requires Pivot(A, l) >= Form(A, l.S, l.S) > 0.0
    ensures Form(Reduced(A, l), x, x) >= 0.0
  {
    hide Dot, Apply, Outer, MScale, MAdd, Add, Scale;
    var U := Thrust(A, l);
    var q, b := Form(A, x, x), Dot(U, x);
    RankOneForm(A, -Over(1.0, Pivot(A, l)), U, x);
    assert Times(b, b) <= Times(Form(A, l.S, l.S), q) && q >= 0.0 by {
      DefiniteIsSemi(A, DIM);
      CauchySchwarz(A, l.S, x);
      FormSymmetric(A, l.S, x);
      DotComm(U, x);
    }
    SchurBound(Pivot(A, l), Form(A, l.S, l.S), q, b);
  }

  lemma SchurBound(d: real, s: real, q: real, b: real)
    requires d >= s > 0.0 && q >= 0.0 && Times(b, b) <= Times(s, q)
    ensures q + Times(-Over(1.0, d), Times(b, b)) >= 0.0
  {
    assert d * q >= Times(s, q);
    var r := Times(b, b);
    assert r / d <= (d * q) / d == q;
    assert Times(-(1.0 / d), r) == -(r / d);
  }

  lemma CarriedSemiDefinite(A: Mat, l: Link)
    requires LinkShape(l) && Symmetric(A, DIM) && Definite(A, DIM)
    requires l.armature >= 0.0 && l.S != Zero(DIM)
    ensures SemiDefinite(CarriedInertia(A, l), DIM)
  {
    ReducedSemiDefinite(A, l);
    CongruenceSemiDefinite(l.X, Reduced(A, l), DIM);
  }

  lemma PhysicalSymmetric(L: seq<Link>)
    requires Tree(L) && Physical(L)
    ensures SymmetricInertias(L)
  {
  }

  lemma {:induction false} InertiaDefinite(L: seq<Link>, i: nat, k: nat)
    requires Tree(L) && Physical(L) && i < k <= |L|
    ensures Definite(Inertia(L, i, k), DIM)
    decreases |L| - k
  {
    hide Definite, SemiDefinite, CarriedInertia, Symmetric;
    if k < |L| {
      InertiaDefinite(L, i, k + 1);
      if L[k].parent == i {
        assert SemiDefinite(CarriedInertia(Inertia(L, k, k + 1), L[k]), DIM) by {
          InertiaDefinite(L, k, k + 1);
          PhysicalSymmetric(L);
          InertiaSymmetric(L, k, k + 1);
          CarriedSemiDefinite(Inertia(L, k, k + 1), L[k]);
        }
        SumDefinite(Inertia(L, i, k + 1), CarriedInertia(Inertia(L, k, k + 1), L[k]), DIM);
      }
    }
  }

  /** On a physical tree every articulated inertia stays symmetric positive definite and every
      pivot is positive, so the sweeps never divide by zero. */
  lemma PivotsPositive(L: seq<Link>)
    requires Tree(L) && Physical(L)
    ensures PivotsNonzero(L)
    ensures forall j :: 0 <= j < |L| ==> PivotAt(L, j) > 0.0
    ensures forall j, k :: 0 <= j < k <= |L| ==>
      Symmetric(Inertia(L, j, k), DIM) && Definite(Inertia(L, j, k), DIM)
  {
    forall j, k | 0 <= j < k <= |L| ensures Symmetric(Inertia(L, j, k), DIM) && Definite(Inertia(L, j, k), DIM) {
      InertiaSymmetric(L, j, k);
      InertiaDefinite(L, j, k);
    }
    forall j | 0 <= j < |L| ensures PivotAt(L, j) > 0.0 {
      ReducedSemiDefinite(Inertia(L, j, j + 1), L[j]);
    }
  }
}
