/**
 The equations of motion of a robot in terms of cross products, rotations and translations, with
 none of the matrices the sweeps work on. `EquationsDecide` ties them to the links that the
 articulated-body theory takes as given.
 */
module Robot {
  import opened Linear
  import opened Spatial
  import opened Articulated
  import opened Dynamics
  import opened Wrappers

  // ---------------------------------------------------------------- spatial cross products

  /** The rate of change of a motion x carried along with velocity m. */
  function MotionCross(m: Vec, x: Vec): (y: Vec)
    requires |m| == |x| == DIM
    ensures |y| == DIM
  {
    Cross(m[..3], x[..3]) + Add(Cross(m[3..], x[..3]), Cross(m[..3], x[3..]))
  }

  /** The rate of change of a wrench or momentum f carried along with velocity m. */
  function ForceCross(m: Vec, f: Vec): (g: Vec)
    requires |m| == |f| == DIM
    ensures |g| == DIM
  {
    Add(Cross(m[..3], f[..3]), Cross(m[3..], f[3..])) + Cross(m[..3], f[3..])
  }

  lemma CrmIsCross(m: Vec, x: Vec)
    requires |m| == |x| == DIM
    ensures Apply(Crm(m), x) == MotionCross(m, x)
  {
    hide Skew, Cross, Apply, Block;
    var w, v := m[..3], m[3..];
    assert x == x[..3] + x[3..];
    ApplyBlock(Skew(w), ZeroMat(3, 3), Skew(v), Skew(w), x[..3], x[3..]);
    ApplyZeroMat(3, 3, x[3..]);
    SkewCross(w, x[..3]);
    SkewCross(v, x[..3]);
    SkewCross(w, x[3..]);
    AddZero(3, Cross(w, x[..3]));
  }

  lemma TransposeBlock(A: Mat, B: Mat, C: Mat, D: Mat)
    requires IsMat(A, 3, 3) && IsMat(B, 3, 3) && IsMat(C, 3, 3) && IsMat(D, 3, 3)
    ensures IsMat(Block(A, B, C, D), 6, 6)
    ensures Transpose(Block(A, B, C, D), 6, 6)
         == Block(Transpose(A, 3, 3), Transpose(C, 3, 3), Transpose(B, 3, 3), Transpose(D, 3, 3))
  {
    var L, R := Transpose(Block(A, B, C, D), 6, 6), Block(Transpose(A, 3, 3), Transpose(C, 3, 3), Transpose(B, 3, 3), Transpose(D, 3, 3));
    forall i | 0 <= i < 6 ensures L[i] == R[i] {
      forall j | 0 <= j < 6 ensures L[i][j] == R[i][j] {
      }
    }
  }

  lemma TransposeZero(r: nat, c: nat)
    ensures Transpose(ZeroMat(r, c), r, c) == ZeroMat(c, r)
  {
    forall i | 0 <= i < c ensures Transpose(ZeroMat(r, c), r, c)[i] == Zero(r) {
    }
  }

  lemma CrmTransposeIsCross(m: Vec, f: Vec)
    requires |m| == |f| == DIM
    ensures Apply(Neg(Transpose(Crm(m), DIM, DIM)), f) == ForceCross(m, f)
  {
    hide Skew, Cross, Apply, Block, Transpose;
    var w, v := m[..3], m[3..];
    assert f == f[..3] + f[3..];
    TransposeBlock(Skew(w), ZeroMat(3, 3), Skew(v), Skew(w));
    TransposeZero(3, 3);
    var Sw, Sv := Transpose(Skew(w), 3, 3), Transpose(Skew(v), 3, 3);
    ApplyBlock(Sw, Sv, ZeroMat(3, 3), Sw, f[..3], f[3..]);
    ApplyZeroMat(3, 3, f[..3]);
    AddZero(3, Apply(Sw, f[3..]));
    SkewCross(w, f[..3]);
    SkewCross(v, f[3..]);
    SkewCross(w, f[3..]);
    ApplyMScale(-1.0, Block(Sw, Sv, ZeroMat(3, 3), Sw), f);
    CrossFlips(w, f[..3]);
    CrossFlips(v, f[3..]);
    CrossFlips(w, f[3..]);
    NegateParts(Cross(f[..3], w), Cross(f[3..], v), Cross(f[3..], w));
  }

  lemma NegateParts(a: Vec, b: Vec, c: Vec)
    requires |a| == |b| == |c| == 3
    ensures Scale(-1.0, Add(a, b) + c) == Add(Scale(-1.0, a), Scale(-1.0, b)) + Scale(-1.0, c)
  {
  }

  /** What the velocity sweep leaves at a link: the velocity product, and the bias wrench of its momentum. */
  lemma SweptBiases(v: Vec, S: Vec, qd: real, I: Mat)
    requires |v| == |S| == DIM && IsMat(I, DIM, DIM)
    ensures Coriolis(v, S, qd) == MotionCross(v, Scale(qd, S))
    ensures Gyroscopic(v, I) == ForceCross(v, Apply(I, v))
  {
    hide Crm, Transpose, Apply, Mul, Neg, ForceCross, MotionCross, Scale;
    CrmIsCross(v, Scale(qd, S));
    ApplyMul(Neg(Transpose(Crm(v), DIM, DIM)), I, v);
    CrmTransposeIsCross(v, Apply(I, v));
  }

  // ---------------------------------------------------------------- joint transforms

  /** x turned about an axis by the angle with cosine c and sine s: Rodrigues' formula. */
  function Turned(axis: Vec, c: real, s: real, x: Vec): (y: Vec)
    requires |axis| == |x| == 3
    ensures |y| == 3
  {
    Add(Add(Scale(c, x), Scale(s, Cross(axis, x))), Scale(Times(1.0 - c, Dot(axis, x)), axis))
  }

  lemma RotAxisTurns(axis: Vec, c: real, s: real, p: Vec)
    requires |axis| == |p| == 3
    ensures Apply(RotAxis(axis, c, s), p) == Turned(axis, c, s, p)
  {
    hide Dot, Times;
    var R := RotAxis(axis, c, s);
    DotEntries(axis, p);
    DotEntries(R[0], p);
    DotEntries(R[1], p);
    DotEntries(R[2], p);
    RotRow(axis[0], axis[1], axis[2], c, s, 1.0 - c, p[0], p[1], p[2]);
    RotRow(axis[1], axis[2], axis[0], c, s, 1.0 - c, p[1], p[2], p[0]);
    RotRow(axis[2], axis[0], axis[1], c, s, 1.0 - c, p[2], p[0], p[1]);
  }

  lemma DotEntries(a: Vec, b: Vec)
    requires |a| == |b| == 3
    ensures Dot(a, b) == Times(a[0], b[0]) + Times(a[1], b[1]) + Times(a[2], b[2])
  {
    Dot3(a, b);
  }

  lemma RotRow(x: real, y: real, z: real, c: real, s: real, oc: real, p: real, q: real, r: real)
    ensures Times(c + Times(Times(x, x), oc), p) + Times(Times(Times(x, y), oc) - Times(z, s), q) + Times(Times(Times(x, z), oc) + Times(y, s), r)
         == Times(c, p) + Times(s, Times(y, r) - Times(z, q)) + Times(Times(oc, Times(x, p) + Times(y, q) + Times(z, r)), x)
  {
    hide Times;
    TimesThree(x, x, oc);
    TimesThree(x, y, oc);
    TimesThree(x, z, oc);
    TimesTwo(z, s);
    TimesTwo(y, s);
    TurnedEntry(x, y, z, c, s, oc, p, q, r);
    RawRow(c + Times(Times(x, x), oc), Times(Times(x, y), oc) - Times(z, s), Times(Times(x, z), oc) + Times(y, s), x, y, z, c, s, oc, p, q, r);
  }

  lemma TimesTwo(x: real, y: real)
    ensures Times(x, y) == x * y
  {
  }

  lemma TimesThree(x: real, y: real, z: real)
    ensures Times(Times(x, y), z) == x * y * z
  {
  }

  lemma TurnedEntry(x: real, y: real, z: real, c: real, s: real, oc: real, p: real, q: real, r: real)
    ensures Times(c, p) + Times(s, Times(y, r) - Times(z, q)) + Times(Times(oc, Times(x, p) + Times(y, q) + Times(z, r)), x)
         == c * p + s * (y * r - z * q) + oc * (x * p + y * q + z * r) * x
  {
  }

  lemma RawRow(d: real, e: real, f: real, x: real, y: real, z: real, c: real, s: real, oc: real, p: real, q: real, r: real)
    requires d == c + x * x * oc && e == x * y * oc - z * s && f == x * z * oc + y * s
    ensures Times(d, p) + Times(e, q) + Times(f, r) == c * p + s * (y * r - z * q) + oc * (x * p + y * q + z * r) * x
  {
  }

  /** The transpose turns the other way. */
  lemma RotAxisBack(axis: Vec, c: real, s: real, p: Vec)
    requires |axis| == |p| == 3
    ensures Apply(Transpose(RotAxis(axis, c, s), 3, 3), p) == Turned(axis, c, -s, p)
  {
    hide Dot, Times;
    var T := Transpose(RotAxis(axis, c, s), 3, 3);
    DotEntries(axis, p);
    DotEntries(T[0], p);
    DotEntries(T[1], p);
    DotEntries(T[2], p);
    RotRowBack(axis[0], axis[1], axis[2], c, s, 1.0 - c, p[0], p[1], p[2]);
    RotRowBack(axis[1], axis[2], axis[0], c, s, 1.0 - c, p[1], p[2], p[0]);
    RotRowBack(axis[2], axis[0], axis[1], c, s, 1.0 - c, p[2], p[0], p[1]);
  }

  lemma RotRowBack(x: real, y: real, z: real, c: real, s: real, oc: real, p: real, q: real, r: real)
    ensures Times(c + Times(Times(x, x), oc), p) + Times(Times(Times(y, x), oc) + Times(z, s), q) + Times(Times(Times(z, x), oc) - Times(y, s), r)
         == Times(c, p) + Times(-s, Times(y, r) - Times(z, q)) + Times(Times(oc, Times(x, p) + Times(y, q) + Times(z, r)), x)
  {
    hide Times;
    TimesOdd(z, s);
    TimesOdd(y, s);
    TimesSwap(x, y);
    TimesSwap(x, z);
    RotRow(x, y, z, c, -s, oc, p, q, r);
  }

  lemma TimesOdd(x: real, y: real)
    ensures Times(x, -y) == -Times(x, y)
  {
  }

  lemma TimesSwap(x: real, y: real)
    ensures Times(x, y) == Times(y, x)
  {
  }

  /** The motion x seen from a frame turned by E, and from one whose origin is moved by r. */
  lemma TransformParts(E: Mat, r: Vec, x: Vec)
    requires IsMat(E, 3, 3) && |r| == 3 && |x| == DIM
    ensures Apply(Xrot(E), x) == Apply(E, x[..3]) + Apply(E, x[3..])
    ensures Apply(Xtrans(r), x) == x[..3] + Add(x[3..], Cross(x[..3], r))
  {
    hide Skew, Cross, Apply, Block;
    assert x == x[..3] + x[3..];
    ApplyBlock(E, ZeroMat(3, 3), ZeroMat(3, 3), E, x[..3], x[3..]);
    ApplyZeroMat(3, 3, x[..3]);
    ApplyZeroMat(3, 3, x[3..]);
    AddZero(3, Apply(E, x[..3]));
    AddZero(3, Apply(E, x[3..]));
    ApplyBlock(Identity(3), ZeroMat(3, 3), Neg(Skew(r)), Identity(3), x[..3], x[3..]);
    ApplyIdentity(3, x[..3]);
    ApplyIdentity(3, x[3..]);
    AddZero(3, x[..3]);
    ApplyMScale(-1.0, Skew(r), x[..3]);
    SkewCross(r, x[..3]);
    CrossFlips(x[..3], r);
    AddComm(x[3..], Cross(x[..3], r));
  }

  /** The motion x of the parent's frame seen from joint t's frame. */
  function Seen(trig: Trig, t: Joint, q: real, x: Vec): (y: Vec)
    requires JointShape(t) && |x| == DIM
    ensures |y| == DIM
  {
    var z := Apply(t.XT, x);
    if t.kind.Revolute? then
      Turned(t.axis, trig.cos(q), -trig.sin(q), z[..3]) + Turned(t.axis, trig.cos(q), -trig.sin(q), z[3..])
    else z[..3] + Add(z[3..], Cross(z[..3], Scale(q, t.axis)))
  }

  lemma XupSees(trig: Trig, t: Joint, q: real, x: Vec)
    requires JointShape(t) && |x| == DIM
    ensures Apply(Xup(trig, t, q), x) == Seen(trig, t, q, x)
  {
    hide Xrot, Xtrans, RotAxis, Apply, Mul, Turned, Cross, Transpose;
    var z := Apply(t.XT, x);
    var R := Transpose(RotAxis(t.axis, trig.cos(q), trig.sin(q)), 3, 3);
    TransformParts(R, Scale(q, t.axis), z);
    RotAxisBack(t.axis, trig.cos(q), trig.sin(q), z[..3]);
    RotAxisBack(t.axis, trig.cos(q), trig.sin(q), z[3..]);
    ApplyMul(if t.kind == Revolute then Xrot(R) else Xtrans(Scale(q, t.axis)), t.XT, x);
  }

  // ---------------------------------------------------------------- the equations of motion

  /** A robot with its gravity, joint armatures and, if any, joint dampings. */
  datatype Machine = Machine(tree: seq<Joint>, gravity: Vec, armature: Vec, damping: Option<Vec>)

  predicate MachineShape(m: Machine) {
    && RobotTree(m.tree) && |m.gravity| == 3 && |m.armature| == |m.tree|
    && (m.damping.Some? ==> |m.damping.value| == |m.tree|)
  }

  /** Positions, velocities and drive torques. */
  datatype State = State(q: Vec, qd: Vec, u: Vec)

  predicate StateShape(m: Machine, s: State) {
    |s.q| == |s.qd| == |s.u| == |m.tree|
  }

  /** What the links do: velocities, accelerations and the wrenches across the joints. */
  datatype Flow = Flow(v: seq<Vec>, a: seq<Vec>, f: seq<Vec>)

  predicate FlowShape(m: Machine, w: Flow) {
    && |w.v| == |w.a| == |w.f| == |m.tree|
    && forall j :: 0 <= j < |m.tree| ==> |w.v[j]| == |w.a[j]| == |w.f[j]| == DIM
  }

  /** Resting in gravity is accelerating against it. */
  function Upward(gravity: Vec): (a0: Vec)
    requires |gravity| == 3
    ensures |a0| == DIM
  {
    [0.0, 0.0, 0.0, -gravity[0], -gravity[1], -gravity[2]]
  }

  /** The wrench f at joint t's frame, felt in its parent's frame. */
  function Felt(trig: Trig, t: Joint, q: real, f: Vec): (g: Vec)
    requires JointShape(t) && |f| == DIM
    ensures |g| == DIM
  {
    Apply(Transpose(Xup(trig, t, q), DIM, DIM), f)
  }

  /** It does the same work on every motion of the parent. */
  lemma FeltWorks(trig: Trig, t: Joint, q: real, f: Vec, x: Vec)
    requires JointShape(t) && |f| == |x| == DIM
    ensures Dot(Felt(trig, t, q, f), x) == Dot(f, Seen(trig, t, q, x))
  {
    hide Seen, Xup, Apply, Dot, Transpose;
    XupSees(trig, t, q, x);
    ApplyTranspose(Xup(trig, t, q), f, DIM);
    Adjoint(Xup(trig, t, q), f, x);
  }

  /** The wrenches that the children of joint j numbered k and above pass down. */
  function FromChildren(trig: Trig, m: Machine, q: Vec, f: seq<Vec>, j: nat, k: nat): (g: Vec)
    requires MachineShape(m) && |q| == |f| == |m.tree| && j < k <= |m.tree|
    requires forall i :: 0 <= i < |f| ==> |f[i]| == DIM
    ensures |g| == DIM
    decreases |m.tree| - k
  {
    if k == |m.tree| then Zero(DIM)
    else if m.tree[k].parent == j then Add(FromChildren(trig, m, q, f, j, k + 1), Felt(trig, m.tree[k], q[k], f[k]))
    else FromChildren(trig, m, q, f, j, k + 1)
  }

  /** The rate of change of the momentum of a link: I a + v x* (I v). */
  function Inertial(I: Mat, v: Vec, a: Vec): (f: Vec)
    requires IsMat(I, DIM, DIM) && |v| == |a| == DIM
    ensures |f| == DIM
  {
    Add(Apply(I, a), ForceCross(v, Apply(I, v)))
  }

  /** The equations of joint j. */
  predicate Obeys(trig: Trig, m: Machine, s: State, w: Flow, qdd: Vec, j: nat)
    requires MachineShape(m) && StateShape(m, s) && FlowShape(m, w) && |qdd| == |m.tree| && j < |m.tree|
  {
    var t := m.tree[j];
    && w.v[j] == Add(Seen(trig, t, s.q[j], ParentOr(t.parent, Zero(DIM), w.v)), Scale(s.qd[j], t.S))
    && w.a[j] == Add(Add(Seen(trig, t, s.q[j], ParentOr(t.parent, Upward(m.gravity), w.a)), MotionCross(w.v[j], Scale(s.qd[j], t.S))),
                     Scale(qdd[j], t.S))
    && w.f[j] == Add(Inertial(t.I, w.v[j], w.a[j]), FromChildren(trig, m, s.q, w.f, j, j + 1))
    && Dot(t.S, w.f[j]) + m.armature[j] * qdd[j] + (if m.damping.Some? then m.damping.value[j] * s.qd[j] else 0.0) == s.u[j]
  }

  predicate EquationsOfMotion(trig: Trig, m: Machine, s: State, w: Flow, qdd: Vec)
    requires MachineShape(m) && StateShape(m, s)
  {
    && FlowShape(m, w) && |qdd| == |m.tree|
    && forall j :: 0 <= j < |m.tree| ==> Obeys(trig, m, s, w, qdd, j)
  }

  // ---------------------------------------------------------------- against the links

  function LinksOf(trig: Trig, m: Machine, s: State): (L: seq<Link>)
    requires MachineShape(m) && StateShape(m, s)
    ensures |L| == |m.tree| && Tree(L)
  {
    Links(trig, m.tree, m.armature, s.q, s.qd, Torque(s.u, s.qd, m.damping))
  }

  function Velocities(trig: Trig, m: Machine, s: State): (v: seq<Vec>)
    requires MachineShape(m) && StateShape(m, s)
    ensures |v| == |m.tree| && forall j :: 0 <= j < |v| ==> |v[j]| == DIM && v[j] == Velocity(trig, m.tree, s.q, s.qd, j)
  {
    seq(|m.tree|, j requires 0 <= j < |m.tree| => Velocity(trig, m.tree, s.q, s.qd, j))
  }

  lemma AddAssoc(x: Vec, y: Vec, z: Vec)
    requires |x| == |y| == |z|
    ensures Add(Add(x, y), z) == Add(x, Add(y, z))
  {
  }

  lemma UpwardIs(gravity: Vec)
    requires |gravity| == 3
    ensures Upward(gravity) == BaseAcceleration(gravity)
  {
  }

  lemma LinkOf(trig: Trig, m: Machine, s: State, j: nat)
    requires MachineShape(m) && StateShape(m, s) && j < |m.tree|
    ensures var v := Velocities(trig, m, s)[j];
      LinksOf(trig, m, s)[j] == Link(m.tree[j].parent, Xup(trig, m.tree[j], s.q[j]), m.tree[j].S, m.tree[j].I,
        MotionCross(v, Scale(s.qd[j], m.tree[j].S)), ForceCross(v, Apply(m.tree[j].I, v)), m.armature[j],
        s.u[j] - if m.damping.Some? then m.damping.value[j] * s.qd[j] else 0.0)
  {
    hide Velocity, Xup, Coriolis, Gyroscopic, MotionCross, ForceCross, Links, Scale, Apply;
    LinkAt(trig, m.tree, m.armature, s.q, s.qd, Torque(s.u, s.qd, m.damping), j);
    SweptBiases(Velocities(trig, m, s)[j], m.tree[j].S, s.qd[j], m.tree[j].I);
  }

  lemma {:induction false} NetForceSplits(trig: Trig, m: Machine, s: State, w: Flow, j: nat, k: nat)
    requires MachineShape(m) && StateShape(m, s) && FlowShape(m, w) && j < k <= |m.tree|
    requires w.v == Velocities(trig, m, s)
    ensures NetForce(LinksOf(trig, m, s), w.a, w.f, j, k)
         == Add(Inertial(m.tree[j].I, w.v[j], w.a[j]), FromChildren(trig, m, s.q, w.f, j, k))
    decreases |m.tree| - k
  {
    hide LinksOf, Velocities, Apply, ForceCross, MotionCross, Xup, Transpose, Add;
    LinkOf(trig, m, s, j);
    if k == |m.tree| {
      AddZero(DIM, Inertial(m.tree[j].I, w.v[j], w.a[j]));
    } else {
      LinkOf(trig, m, s, k);
      NetForceSplits(trig, m, s, w, j, k + 1);
      AddAssoc(Inertial(m.tree[j].I, w.v[j], w.a[j]), FromChildren(trig, m, s.q, w.f, j, k + 1), Felt(trig, m.tree[k], s.q[k], w.f[k]));
    }
  }

  /** With the recursive velocities, the equations of joint j are the Newton-Euler equations of its link. */
  lemma ObeysIff(trig: Trig, m: Machine, s: State, w: Flow, qdd: Vec, j: nat)
    requires MachineShape(m) && StateShape(m, s) && FlowShape(m, w) && |qdd| == |m.tree| && j < |m.tree|
    requires w.v == Velocities(trig, m, s)
    ensures var L, a0 := LinksOf(trig, m, s), BaseAcceleration(m.gravity);
      Obeys(trig, m, s, w, qdd, j) <==>
        && w.a[j] == Add(Drift(L[j], ParentOr(L[j].parent, a0, w.a)), Scale(qdd[j], L[j].S))
        && w.f[j] == NetForce(L, w.a, w.f, j, j + 1)
        && TorqueAt(L[j], w.f[j], qdd[j])
  {
    hide LinksOf, Apply, ForceCross, MotionCross, Xup, Seen, Add, Scale, Dot, BaseAcceleration, Upward, Inertial, FromChildren;
    var t := m.tree[j];
    LinkOf(trig, m, s, j);
    UpwardIs(m.gravity);
    NetForceSplits(trig, m, s, w, j, j + 1);
    XupSees(trig, t, s.q[j], ParentOr(t.parent, Upward(m.gravity), w.a));
    var vp := ParentOr(t.parent, Zero(DIM), w.v);
    XupSees(trig, t, s.q[j], vp);
    VelocityStep(trig, m.tree, s.q, s.qd, j, Xup(trig, t, s.q[j]), vp);
  }

  /** The equations leave no choice of velocities. */
  lemma {:induction false} VelocitiesForced(trig: Trig, m: Machine, s: State, w: Flow, qdd: Vec, j: nat)
    requires MachineShape(m) && StateShape(m, s) && EquationsOfMotion(trig, m, s, w, qdd) && j < |m.tree|
    ensures w.v[j] == Velocities(trig, m, s)[j]
    decreases j
  {
    hide Xup, Seen, Add, Scale, Velocity;
    var t := m.tree[j];
    assert Obeys(trig, m, s, w, qdd, j);
    if t.parent >= 0 {
      VelocitiesForced(trig, m, s, w, qdd, t.parent);
    }
    var vp := ParentOr(t.parent, Zero(DIM), w.v);
    XupSees(trig, t, s.q[j], vp);
    VelocityStep(trig, m.tree, s.q, s.qd, j, Xup(trig, t, s.q[j]), vp);
  }

  /** A flow obeys the equations of motion exactly when it has the recursive velocities and solves the links' Newton-Euler equations. */
  lemma EquationsDecide(trig: Trig, m: Machine, s: State, w: Flow, qdd: Vec)
    requires MachineShape(m) && StateShape(m, s)
    ensures EquationsOfMotion(trig, m, s, w, qdd) <==>
      w.v == Velocities(trig, m, s) && NewtonEuler(LinksOf(trig, m, s), BaseAcceleration(m.gravity), w.a, w.f, qdd)
  {
    hide Obeys, LinksOf, BaseAcceleration, Velocities, TorqueAt, NetForce, Drift;
    if EquationsOfMotion(trig, m, s, w, qdd) {
      forall j | 0 <= j < |m.tree| ensures w.v[j] == Velocities(trig, m, s)[j] {
        VelocitiesForced(trig, m, s, w, qdd, j);
      }
      assert w.v == Velocities(trig, m, s);
    }
    if FlowShape(m, w) && |qdd| == |m.tree| && w.v == Velocities(trig, m, s) {
      forall j | 0 <= j < |m.tree|
        ensures Obeys(trig, m, s, w, qdd, j) <==>
          && w.a[j] == Add(Drift(LinksOf(trig, m, s)[j], ParentOr(LinksOf(trig, m, s)[j].parent, BaseAcceleration(m.gravity), w.a)),
                           Scale(qdd[j], LinksOf(trig, m, s)[j].S))
          && w.f[j] == NetForce(LinksOf(trig, m, s), w.a, w.f, j, j + 1)
          && TorqueAt(LinksOf(trig, m, s)[j], w.f[j], qdd[j])
      {
        ObeysIff(trig, m, s, w, qdd, j);
      }
    }
  }

  /** qdd is the one solution of the equations of motion. */
  ghost predicate OnlyMotion(trig: Trig, m: Machine, s: State, qdd: Vec)
    requires MachineShape(m) && StateShape(m, s)
  {
    && (exists w :: EquationsOfMotion(trig, m, s, w, qdd))
    && forall w, other :: EquationsOfMotion(trig, m, s, w, other) ==> other == qdd
  }

  /** What the sweeps compute is the one solution of the equations of motion. */
  lemma ForwardDynamicsMoves(trig: Trig, m: Machine, s: State)
    requires MachineShape(m) && StateShape(m, s)
    requires SymmetricInertias(LinksOf(trig, m, s)) && PivotsNonzero(LinksOf(trig, m, s))
    ensures OnlyMotion(trig, m, s, ForwardDynamics(LinksOf(trig, m, s), BaseAcceleration(m.gravity)))
  {
    hide EquationsOfMotion, NewtonEuler, LinksOf, BaseAcceleration, SymmetricInertias, PivotsNonzero, ForwardDynamics, Accelerations, Forces, Velocities;
    var L, a0 := LinksOf(trig, m, s), BaseAcceleration(m.gravity);
    var qdd := ForwardDynamics(L, a0);
    ForwardSolves(L, a0);
    var a := Accelerations(L, a0);
    var w := Flow(Velocities(trig, m, s), a, Forces(L, a, 0));
    EquationsDecide(trig, m, s, w, qdd);
    forall w, other | EquationsOfMotion(trig, m, s, w, other) ensures other == qdd {
      EquationsDecide(trig, m, s, w, other);
      ForwardUnique(L, a0, w.a, w.f, other);
    }
  }
}
