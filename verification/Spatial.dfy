/**
 Six-dimensional spatial algebra in the [angular; linear] convention: the matrix builders
 shared by the general tree dynamics and the serial-chain dynamics.
 */
module Spatial {
  import opened Linear

  /** cos and sin are parameters: nothing below depends on trigonometric identities. */
  datatype Trig = Trig(cos: real -> real, sin: real -> real)

  function Skew(v: Vec): (A: Mat)
    requires |v| == 3
    ensures IsMat(A, 3, 3)
  {
    [[0.0, -v[2], v[1]], [v[2], 0.0, -v[0]], [-v[1], v[0], 0.0]]
  }

  function Neg(A: Mat): (B: Mat)
    ensures |B| == |A| && forall i :: 0 <= i < |A| ==> |B[i]| == |A[i]|
  {
    MScale(-1.0, A)
  }

  function Xrot(E: Mat): (X: Mat)
    requires IsMat(E, 3, 3)
    ensures IsMat(X, 6, 6)
  {
    Block(E, ZeroMat(3, 3), ZeroMat(3, 3), E)
  }

  function Xtrans(r: Vec): (X: Mat)
    requires |r| == 3
    ensures IsMat(X, 6, 6)
  {
    Block(Identity(3), ZeroMat(3, 3), Neg(Skew(r)), Identity(3))
  }

  /** The spatial motion cross-product matrix of m. */
  function Crm(m: Vec): (X: Mat)
    requires |m| == 6
    ensures IsMat(X, 6, 6)
  {
    Block(Skew(m[..3]), ZeroMat(3, 3), Skew(m[3..]), Skew(m[..3]))
  }

  /** Rodrigues rotation about an axis, from the cosine c and sine s of the angle. */
  function RotAxis(axis: Vec, c: real, s: real): (R: Mat)
    requires |axis| == 3
    ensures IsMat(R, 3, 3)
  {
    var x, y, z, oc := axis[0], axis[1], axis[2], 1.0 - c;
    [[c + Times(Times(x, x), oc), Times(Times(x, y), oc) - Times(z, s), Times(Times(x, z), oc) + Times(y, s)],
     [Times(Times(y, x), oc) + Times(z, s), c + Times(Times(y, y), oc), Times(Times(y, z), oc) - Times(x, s)],
     [Times(Times(z, x), oc) - Times(y, s), Times(Times(z, y), oc) + Times(x, s), c + Times(Times(z, z), oc)]]
  }

  /** Spatial inertia about the joint origin from mass m, centre of mass c and rotational
      inertia ic about the centre of mass. */
  function SpatialInertia(m: real, c: Vec, ic: Mat): (M: Mat)
    requires |c| == 3 && IsMat(ic, 3, 3)
    ensures IsMat(M, 6, 6)
  {
    var C := Skew(c);
    var CT := Transpose(C, 3, 3);
    Block(MAdd(ic, Mul(MScale(m, C), CT, 3)), MScale(m, C), MScale(m, CT), MScale(m, Identity(3)))
  }

  // ---------------------------------------------------------------- cross products

  /** The cross product, entry by entry. */
  function Cross(a: Vec, b: Vec): (c: Vec)
    requires |a| == |b| == 3
    ensures |c| == 3
  {
    [Times(a[1], b[2]) - Times(a[2], b[1]), Times(a[2], b[0]) - Times(a[0], b[2]), Times(a[0], b[1]) - Times(a[1], b[0])]
  }

  lemma Dot3(a: Vec, b: Vec)
    requires |a| == |b| == 3
    ensures Dot(a, b) == a[0] * b[0] + a[1] * b[1] + a[2] * b[2]
  {
    assert a[1..][1..] == a[2..] && b[1..][1..] == b[2..];
    assert a[2..][1..] == [] && b[2..][1..] == [];
    assert Dot(a[2..], b[2..]) == Times(a[2], b[2]);
    assert Dot(a[1..], b[1..]) == Times(a[1], b[1]) + Dot(a[2..], b[2..]);
  }

  lemma DotOf(a: real, b: real, c: real, x: real, y: real, z: real)
    ensures Dot([a, b, c], [x, y, z]) == Times(a, x) + Times(b, y) + Times(c, z)
  {
    Dot3([a, b, c], [x, y, z]);
  }

  /** A skew matrix takes the cross product with its vector, its transpose the one the other way round. */
  lemma SkewCross(a: Vec, b: Vec)
    requires |a| == |b| == 3
    ensures Apply(Skew(a), b) == Cross(a, b)
    ensures Apply(Transpose(Skew(a), 3, 3), b) == Cross(b, a)
  {
    hide Dot;
    var A, B := Skew(a), Transpose(Skew(a), 3, 3);
    forall i | 0 <= i < 3 ensures Dot(A[i], b) == Cross(a, b)[i] && Dot(B[i], b) == Cross(b, a)[i] {
      Dot3(A[i], b);
      Dot3(B[i], b);
    }
  }

  lemma CrossFlips(a: Vec, b: Vec)
    requires |a| == |b| == 3
    ensures Cross(a, b) == Scale(-1.0, Cross(b, a))
  {
  }

  /** The momentum of a rigid body that turns at w while its origin moves at v: linear momentum at the centre of mass. */
  lemma InertiaMomentum(m: real, c: Vec, ic: Mat, w: Vec, v: Vec)
    requires |c| == |w| == |v| == 3 && IsMat(ic, 3, 3)
    ensures var p := Scale(m, Add(v, Cross(w, c)));
      Apply(SpatialInertia(m, c, ic), w + v) == Add(Apply(ic, w), Cross(c, p)) + p
  {
    hide Dot, Apply, Transpose, Skew, Mul, MScale, Identity, Add, Scale, MAdd, Cross;
    var C := Skew(c);
    var CT := Transpose(C, 3, 3);
    var g := Apply(CT, w);
    var y := Add(g, v);
    var P := Mul(MScale(m, C), CT, 3);
    Shapes(m, c, ic);
    ApplyBlock(MAdd(ic, P), MScale(m, C), MScale(m, CT), MScale(m, Identity(3)), w, v);
    assert Add(Apply(MAdd(ic, P), w), Apply(MScale(m, C), v)) == Add(Apply(ic, w), Scale(m, Apply(C, y))) by {
      ApplyMAdd(ic, P, w);
      ApplyMul(MScale(m, C), CT, w);
      ApplyMScale(m, C, g);
      ApplyMScale(m, C, v);
      ApplyAdd(C, g, v);
      Distribute(m, Apply(ic, w), Apply(C, g), Apply(C, v));
    }
    assert Add(Apply(MScale(m, CT), w), Apply(MScale(m, Identity(3)), v)) == Scale(m, y) by {
      ApplyMScale(m, CT, w);
      ApplyMScale(m, Identity(3), v);
      ApplyIdentity(3, v);
      Gather(m, g, v);
    }
    SkewCross(c, w);
    SkewCross(c, Scale(m, y));
    ApplyScale(C, m, y);
    AddComm(g, v);
  }

  lemma AddComm(x: Vec, y: Vec)
    requires |x| == |y|
    ensures Add(x, y) == Add(y, x)
  {
  }

  lemma ApplyScale(A: Mat, k: real, x: Vec)
    requires IsMat(A, |A|, |x|)
    ensures Apply(A, Scale(k, x)) == Scale(k, Apply(A, x))
  {
    forall i | 0 <= i < |A| ensures Dot(A[i], Scale(k, x)) == Times(k, Dot(A[i], x)) {
      DotScale(k, x, A[i]);
    }
  }

  /** The kinetic form splits into the rotational part and the speed v + w x c of the centre of mass. */
  lemma InertiaForm(m: real, c: Vec, ic: Mat, w: Vec, v: Vec)
    requires |c| == |w| == |v| == 3 && IsMat(ic, 3, 3)
    ensures var y := Add(v, Cross(w, c));
      Form(SpatialInertia(m, c, ic), w + v, w + v) == Form(ic, w, w) + Times(m, Dot(y, y))
  {
    hide Dot, Apply, Add, Scale, Cross, SpatialInertia;
    var y := Add(v, Cross(w, c));
    var p := Scale(m, y);
    InertiaMomentum(m, c, ic, w, v);
    DotConcat(w, v, Add(Apply(ic, w), Cross(c, p)), p);
    DotAdd(Apply(ic, w), Cross(c, p), w);
    TripleProduct(w, c, p);
    DotAdd(v, Cross(w, c), p);
    DotScale(m, y, y);
  }

  /** w . (c x p) = (w x c) . p */
  lemma TripleProduct(w: Vec, c: Vec, p: Vec)
    requires |w| == |c| == |p| == 3
    ensures Dot(w, Cross(c, p)) == Dot(Cross(w, c), p)
  {
    hide Times, Dot;
    assert w == [w[0], w[1], w[2]] && p == [p[0], p[1], p[2]];
    TripleEntries(w[0], w[1], w[2], c[0], c[1], c[2], p[0], p[1], p[2]);
  }

  lemma TripleEntries(a: real, b: real, c: real, d: real, e: real, f: real, g: real, h: real, i: real)
    ensures Dot([a, b, c], [Times(e, i) - Times(f, h), Times(f, g) - Times(d, i), Times(d, h) - Times(e, g)])
         == Dot([Times(b, f) - Times(c, e), Times(c, d) - Times(a, f), Times(a, e) - Times(b, d)], [g, h, i])
  {
    hide Times, Dot;
    DotOf(a, b, c, Times(e, i) - Times(f, h), Times(f, g) - Times(d, i), Times(d, h) - Times(e, g));
    DotOf(Times(b, f) - Times(c, e), Times(c, d) - Times(a, f), Times(a, e) - Times(b, d), g, h, i);
    TimesApart(a, e, i, f, h);
    TimesApart(b, f, g, d, i);
    TimesApart(c, d, h, e, g);
    TimesSplit(Times(b, f), Times(c, e), g);
    TimesSplit(Times(c, d), Times(a, f), h);
    TimesSplit(Times(a, e), Times(b, d), i);
  }

  lemma TimesApart(a: real, x: real, y: real, z: real, w: real)
    ensures Times(a, Times(x, y) - Times(z, w)) == Times(Times(a, x), y) - Times(Times(a, z), w)
  {
  }

  lemma TimesSplit(x: real, y: real, z: real)
    ensures Times(x - y, z) == Times(x, z) - Times(y, z)
  {
  }

  lemma Shapes(m: real, c: Vec, ic: Mat)
    requires |c| == 3 && IsMat(ic, 3, 3)
    ensures var C := Skew(c); var CT := Transpose(C, 3, 3);
      && IsMat(MScale(m, C), 3, 3) && IsMat(MScale(m, CT), 3, 3) && IsMat(MScale(m, Identity(3)), 3, 3)
      && IsMat(Mul(MScale(m, C), CT, 3), 3, 3)
      && IsMat(MAdd(ic, Mul(MScale(m, C), CT, 3)), 3, 3)
  {
  }

  lemma Distribute(m: real, a: Vec, b: Vec, d: Vec)
    requires |a| == |b| == |d|
    ensures Add(Add(a, Scale(m, b)), Scale(m, d)) == Add(a, Scale(m, Add(b, d)))
  {
    Gather(m, b, d);
    forall i | 0 <= i < |a| ensures Scale(m, b)[i] + Scale(m, d)[i] == Scale(m, Add(b, d))[i] {
      assert Add(Scale(m, b), Scale(m, d))[i] == Scale(m, Add(b, d))[i];
    }
  }

  lemma Gather(m: real, b: Vec, d: Vec)
    requires |b| == |d|
    ensures Add(Scale(m, b), Scale(m, d)) == Scale(m, Add(b, d))
  {
    forall i | 0 <= i < |b| ensures Times(m, b[i]) + Times(m, d[i]) == Times(m, b[i] + d[i]) {
    }
  }

  /** A spatial inertia with a symmetric rotational part is symmetric. */
  lemma InertiaSymmetric(m: real, c: Vec, ic: Mat)
    requires |c| == 3 && Symmetric(ic, 3)
    ensures Symmetric(SpatialInertia(m, c, ic), 6)
  {
    var C := Skew(c);
    var CT := Transpose(C, 3, 3);
    var P := Mul(MScale(m, C), CT, 3);
    forall i, j | 0 <= i < 3 && 0 <= j < 3 ensures P[i][j] == P[j][i] {
      GramEntry(m, C, i, j);
      GramEntry(m, C, j, i);
      DotComm(C[i], C[j]);
    }
  }

  /** Entry (i, j) of m C C^T. */
  lemma GramEntry(m: real, C: Mat, i: nat, j: nat)
    requires IsMat(C, 3, 3) && i < 3 && j < 3
    ensures Mul(MScale(m, C), Transpose(C, 3, 3), 3)[i][j] == Times(m, Dot(C[i], C[j]))
  {
    var CT := Transpose(C, 3, 3);
    PullAt(CT, MScale(m, C)[i], 3, j);
    assert Col(CT, j) == C[j];
    DotScale(m, C[i], C[j]);
    DotComm(C[i], C[j]);
  }

  lemma AddZero(n: nat, v: Vec)
    requires |v| == n
    ensures Add(Zero(n), v) == v && Add(v, Zero(n)) == v
  {
  }

  lemma CrossZero(c: Vec)
    requires |c| == 3
    ensures Cross(Zero(3), c) == Zero(3)
  {
  }

  lemma SplitZero(x: Vec)
    requires |x| == 6
    ensures x[..3] == Zero(3) && x[3..] == Zero(3) ==> x == Zero(6)
  {
    assert x == x[..3] + x[3..];
    assert Zero(6) == Zero(3) + Zero(3);
  }

  lemma FormPositive(m: real, c: Vec, ic: Mat, w: Vec, v: Vec)
    requires |c| == |w| == |v| == 3 && m > 0.0 && Definite(ic, 3)
    requires w != Zero(3) || v != Zero(3)
    ensures Form(SpatialInertia(m, c, ic), w + v, w + v) > 0.0
  {
    hide Dot, Apply, SpatialInertia, Add, Zero, Cross;
    var y := Add(v, Cross(w, c));
    InertiaForm(m, c, ic, w, v);
    DotSelf(y);
    if w == Zero(3) {
      DotZero(3, Apply(ic, w));
      CrossZero(c);
      AddZero(3, v);
      TimesPositive(m, Dot(y, y));
    } else {
      assert Times(m, Dot(y, y)) >= 0.0;
    }
  }

  /** Positive mass and positive definite rotational inertia make the spatial inertia definite. */
  lemma InertiaDefinite(m: real, c: Vec, ic: Mat)
    requires |c| == 3 && m > 0.0 && Definite(ic, 3)
    ensures Definite(SpatialInertia(m, c, ic), 6)
  {
    hide SpatialInertia, Form;
    forall x: Vec | |x| == 6 && x != Zero(6) ensures Form(SpatialInertia(m, c, ic), x, x) > 0.0 {
      assert x == x[..3] + x[3..];
      SplitZero(x);
      FormPositive(m, c, ic, x[..3], x[3..]);
    }
  }

  /** ... and mass >= 0 with a semidefinite rotational inertia keeps it semidefinite. */
  lemma InertiaSemiDefinite(m: real, c: Vec, ic: Mat)
    requires |c| == 3 && m >= 0.0 && SemiDefinite(ic, 3)
    ensures SemiDefinite(SpatialInertia(m, c, ic), 6)
  {
    hide SpatialInertia, Dot, Apply, Cross, Add;
    forall x: Vec | |x| == 6 ensures Form(SpatialInertia(m, c, ic), x, x) >= 0.0 {
      var w, v := x[..3], x[3..];
      var y := Add(v, Cross(w, c));
      assert w + v == x;
      InertiaForm(m, c, ic, w, v);
      DotSelf(y);
      assert Times(m, Dot(y, y)) >= 0.0;
      assert Form(ic, w, w) >= 0.0;
    }
  }
}
