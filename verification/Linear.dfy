/**
 Vectors and matrices over the reals: just enough algebra for the dynamics and cost
 modules. A matrix is the sequence of its rows. Every fact about products is reduced to
 two: `Dot` is bilinear, and `Pull(A, y)` (the action of the transpose) is the adjoint of
 `Apply(A, x)`.
 */
module Linear {
  type Vec = seq<real>
  type Mat = seq<Vec>

  predicate IsMat(A: Mat, r: nat, c: nat) {
    |A| == r && forall i :: 0 <= i < r ==> |A[i]| == c
  }

  function Zero(n: nat): (z: Vec)
    ensures |z| == n
  {
    seq(n, i => 0.0)
  }

  function Add(x: Vec, y: Vec): (z: Vec)
    requires |x| == |y|
    ensures |z| == |x|
  {
    seq(|x|, i requires 0 <= i < |x| => x[i] + y[i])
  }

  /** A product of reals under a name, so that equal factors are seen to give equal products. */
  function Times(a: real, b: real): real {
    a * b
  }

  function Scale(k: real, x: Vec): (z: Vec)
    ensures |z| == |x|
  {
    seq(|x|, i requires 0 <= i < |x| => Times(k, x[i]))
  }

  function Dot(x: Vec, y: Vec): real
    requires |x| == |y|
  {
    if |x| == 0 then 0.0 else Times(x[0], y[0]) + Dot(x[1..], y[1..])
  }

  /** A x */
  function Apply(A: Mat, x: Vec): (z: Vec)
    requires forall i :: 0 <= i < |A| ==> |A[i]| == |x|
    ensures |z| == |A|
  {
    seq(|A|, i requires 0 <= i < |A| => Dot(A[i], x))
  }

  /** The combination of the rows of A with coefficients y, that is, A^T y. */
  function Pull(A: Mat, y: Vec, c: nat): (z: Vec)
    requires IsMat(A, |y|, c)
    ensures |z| == c
  {
    if |A| == 0 then Zero(c) else Add(Scale(y[0], A[0]), Pull(A[1..], y[1..], c))
  }

  function MAdd(A: Mat, B: Mat): (C: Mat)
    requires |A| == |B| && forall i :: 0 <= i < |A| ==> |A[i]| == |B[i]|
    ensures |C| == |A| && forall i :: 0 <= i < |A| ==> |C[i]| == |A[i]|
  {
    seq(|A|, i requires 0 <= i < |A| => Add(A[i], B[i]))
  }

  function MScale(k: real, A: Mat): (B: Mat)
    ensures |B| == |A| && forall i :: 0 <= i < |A| ==> |B[i]| == |A[i]|
  {
    seq(|A|, i requires 0 <= i < |A| => Scale(k, A[i]))
  }

  function Col(A: Mat, j: nat): (v: Vec)
    requires forall i :: 0 <= i < |A| ==> j < |A[i]|
  {
    seq(|A|, i requires 0 <= i < |A| => A[i][j])
  }

  function Transpose(A: Mat, r: nat, c: nat): (B: Mat)
    requires IsMat(A, r, c)
    ensures IsMat(B, c, r)
    ensures forall i, j :: 0 <= i < c && 0 <= j < r ==> B[i][j] == A[j][i]
  {
    seq(c, j requires 0 <= j < c => Col(A, j))
  }

  /** The product A B. */
  function Mul(A: Mat, B: Mat, c: nat): (C: Mat)
    requires IsMat(B, |B|, c)
    requires forall i :: 0 <= i < |A| ==> |A[i]| == |B|
    ensures IsMat(C, |A|, c)
  {
    seq(|A|, i requires 0 <= i < |A| => Pull(B, A[i], c))
  }

  /** The outer product u v^T. */
  function Outer(u: Vec, v: Vec): (C: Mat)
    ensures IsMat(C, |u|, |v|)
  {
    seq(|u|, i requires 0 <= i < |u| => Scale(u[i], v))
  }

  function Identity(n: nat): (A: Mat)
    ensures IsMat(A, n, n)
  {
    seq(n, i requires 0 <= i < n => Unit(n, i))
  }

  function Unit(n: nat, k: nat): (e: Vec)
    ensures |e| == n
  {
    seq(n, i => if i == k then 1.0 else 0.0)
  }

  function ZeroMat(r: nat, c: nat): (A: Mat)
    ensures IsMat(A, r, c)
  {
    seq(r, i => Zero(c))
  }

  /** [[A, B], [C, D]] */
  function Block(A: Mat, B: Mat, C: Mat, D: Mat): (M: Mat)
    requires |A| == |B| && |C| == |D|
    ensures |M| == |A| + |C|
  {
    seq(|A|, i requires 0 <= i < |A| => A[i] + B[i]) +
    seq(|C|, i requires 0 <= i < |C| => C[i] + D[i])
  }

  // ---------------------------------------------------------------- Dot

  lemma {:induction false} DotComm(x: Vec, y: Vec)
    requires |x| == |y|
    ensures Dot(x, y) == Dot(y, x)
  {
    if |x| > 0 {
      DotComm(x[1..], y[1..]);
    }
  }

  lemma {:induction false} DotAdd(x: Vec, y: Vec, z: Vec)
    requires |x| == |y| == |z|
    ensures Dot(Add(x, y), z) == Dot(x, z) + Dot(y, z)
    ensures Dot(z, Add(x, y)) == Dot(z, x) + Dot(z, y)
  {
    if |x| > 0 {
      assert Add(x, y)[1..] == Add(x[1..], y[1..]);
      DotAdd(x[1..], y[1..], z[1..]);
    }
  }

  lemma {:induction false} DotScale(k: real, x: Vec, y: Vec)
    requires |x| == |y|
    ensures Dot(Scale(k, x), y) == Times(k, Dot(x, y))
    ensures Dot(y, Scale(k, x)) == Times(k, Dot(y, x))
  {
    if |x| > 0 {
      assert Scale(k, x)[1..] == Scale(k, x[1..]);
      DotScale(k, x[1..], y[1..]);
    }
  }

  lemma {:induction false} DotZero(n: nat, x: Vec)
    requires |x| == n
    ensures Dot(Zero(n), x) == 0.0 && Dot(x, Zero(n)) == 0.0
  {
    if n > 0 {
      assert Zero(n)[1..] == Zero(n - 1);
      DotZero(n - 1, x[1..]);
    }
  }

  lemma {:induction false} DotConcat(a: Vec, b: Vec, x: Vec, y: Vec)
    requires |a| == |x| && |b| == |y|
    ensures Dot(a + b, x + y) == Dot(a, x) + Dot(b, y)
  {
    if |a| == 0 {
      assert a + b == b && x + y == y;
    } else {
      assert (a + b)[1..] == a[1..] + b && (x + y)[1..] == x[1..] + y;
      DotConcat(a[1..], b, x[1..], y);
    }
  }

  lemma {:induction false} DotUnit(x: Vec, k: nat)
    requires k < |x|
    ensures Dot(x, Unit(|x|, k)) == x[k]
  {
    var e := Unit(|x|, k);
    if k == 0 {
      assert e[1..] == Zero(|x| - 1);
      DotZero(|x| - 1, x[1..]);
    } else {
      assert e[1..] == Unit(|x| - 1, k - 1);
      DotUnit(x[1..], k - 1);
    }
  }

  lemma {:induction false} DotSelf(x: Vec)
    ensures Dot(x, x) >= 0.0
    ensures x != Zero(|x|) ==> Dot(x, x) > 0.0
  {
    if |x| > 0 {
      var t := x[0];
      DotSelf(x[1..]);
      Square(t);
      var sq, rest := Times(t, t), Dot(x[1..], x[1..]);
      assert Dot(x, x) == sq + rest;
      if t == 0.0 && x[1..] == Zero(|x| - 1) {
        forall i | 0 <= i < |x| ensures x[i] == 0.0 {
          assert i > 0 ==> x[i] == x[1..][i - 1];
        }
        assert x == Zero(|x|);
      }
    }
  }

  lemma Square(t: real)
    ensures Times(t, t) >= 0.0
    ensures t != 0.0 ==> Times(t, t) > 0.0
  {
    if t > 0.0 {
      TimesPositive(t, t);
    } else if t < 0.0 {
      TimesPositive(-t, -t);
      assert Times(-t, -t) == Times(t, t);
    }
  }

  lemma TimesPositive(a: real, b: real)
    requires a > 0.0 && b > 0.0
    ensures Times(a, b) > 0.0
  {
  }

  // ---------------------------------------------------------------- Apply and Pull

  lemma ApplyAdd(A: Mat, x: Vec, y: Vec)
    requires |x| == |y| && IsMat(A, |A|, |x|)
    ensures Apply(A, Add(x, y)) == Add(Apply(A, x), Apply(A, y))
  {
    forall i | 0 <= i < |A| {
      DotAdd(x, y, A[i]);
    }
  }

  lemma ApplyScale(A: Mat, k: real, x: Vec)
    requires IsMat(A, |A|, |x|)
    ensures Apply(A, Scale(k, x)) == Scale(k, Apply(A, x))
  {
    forall i | 0 <= i < |A| {
      DotScale(k, x, A[i]);
    }
  }

  lemma ApplyMAdd(A: Mat, B: Mat, x: Vec)
    requires IsMat(A, |A|, |x|) && IsMat(B, |A|, |x|)
    ensures Apply(MAdd(A, B), x) == Add(Apply(A, x), Apply(B, x))
  {
    forall i | 0 <= i < |A| {
      DotAdd(A[i], B[i], x);
    }
  }

  lemma ApplyMScale(k: real, A: Mat, x: Vec)
    requires IsMat(A, |A|, |x|)
    ensures Apply(MScale(k, A), x) == Scale(k, Apply(A, x))
  {
    forall i | 0 <= i < |A| {
      DotScale(k, A[i], x);
    }
  }

  lemma ApplyOuter(u: Vec, v: Vec, x: Vec)
    requires |v| == |x|
    ensures Apply(Outer(u, v), x) == Scale(Dot(v, x), u)
  {
    forall i | 0 <= i < |u| {
      DotScale(u[i], v, x);
    }
  }

  /** The adjoint law: (A^T y) . x == y . (A x). */
  lemma {:induction false} Adjoint(A: Mat, y: Vec, x: Vec)
    requires IsMat(A, |y|, |x|)
    ensures Dot(Pull(A, y, |x|), x) == Dot(y, Apply(A, x))
  {
    if |A| == 0 {
      DotZero(|x|, x);
    } else {
      var rest := Pull(A[1..], y[1..], |x|);
      assert Apply(A, x)[1..] == Apply(A[1..], x);
      calc {
        Dot(Pull(A, y, |x|), x);
        { DotAdd(Scale(y[0], A[0]), rest, x); }
        Dot(Scale(y[0], A[0]), x) + Dot(rest, x);
        { DotScale(y[0], A[0], x); Adjoint(A[1..], y[1..], x); }
        y[0] * Dot(A[0], x) + Dot(y[1..], Apply(A[1..], x));
        Dot(y, Apply(A, x));
      }
    }
  }

  lemma {:induction false} PullAt(A: Mat, y: Vec, c: nat, j: nat)
    requires IsMat(A, |y|, c) && j < c
    ensures Pull(A, y, c)[j] == Dot(Col(A, j), y)
  {
    if |A| > 0 {
      assert Col(A, j)[1..] == Col(A[1..], j);
      PullAt(A[1..], y[1..], c, j);
    }
  }

  /** The transpose as a matrix acts as `Pull`. */
  lemma ApplyTranspose(A: Mat, y: Vec, c: nat)
    requires IsMat(A, |y|, c)
    ensures Apply(Transpose(A, |y|, c), y) == Pull(A, y, c)
  {
    forall j | 0 <= j < c {
      PullAt(A, y, c, j);
    }
  }

  lemma ApplyMul(A: Mat, B: Mat, x: Vec)
    requires IsMat(B, |B|, |x|) && IsMat(A, |A|, |B|)
    ensures Apply(Mul(A, B, |x|), x) == Apply(A, Apply(B, x))
  {
    forall i | 0 <= i < |A| {
      Adjoint(B, A[i], x);
    }
  }

  lemma ApplyIdentity(n: nat, x: Vec)
    requires |x| == n
    ensures Apply(Identity(n), x) == x
  {
    forall i | 0 <= i < n ensures Dot(Unit(n, i), x) == x[i] {
      DotUnit(x, i);
      DotComm(x, Unit(n, i));
    }
  }

  lemma ApplyZeroMat(r: nat, c: nat, x: Vec)
    requires |x| == c
    ensures Apply(ZeroMat(r, c), x) == Zero(r)
  {
    DotZero(c, x);
  }

  lemma ApplyBlock(A: Mat, B: Mat, C: Mat, D: Mat, x: Vec, y: Vec)
    requires IsMat(A, |A|, |x|) && IsMat(B, |A|, |y|)
    requires IsMat(C, |C|, |x|) && IsMat(D, |C|, |y|)
    ensures IsMat(Block(A, B, C, D), |A| + |C|, |x| + |y|)
    ensures Apply(Block(A, B, C, D), x + y)
         == Add(Apply(A, x), Apply(B, y)) + Add(Apply(C, x), Apply(D, y))
  {
    var M := Block(A, B, C, D);
    forall i | 0 <= i < |A| + |C| ensures Dot(M[i], x + y) ==
        if i < |A| then Dot(A[i], x) + Dot(B[i], y)
        else Dot(C[i - |A|], x) + Dot(D[i - |A|], y)
    {
      if i < |A| {
        DotConcat(A[i], B[i], x, y);
      } else {
        DotConcat(C[i - |A|], D[i - |A|], x, y);
      }
    }
  }

  // ---------------------------------------------------------------- symmetric and definite forms

  /** x^T A y */
  function Form(A: Mat, x: Vec, y: Vec): real
    requires IsMat(A, |x|, |y|)
  {
    Dot(x, Apply(A, y))
  }

  predicate Symmetric(A: Mat, n: nat) {
    IsMat(A, n, n) && forall i, j :: 0 <= i < n && 0 <= j < n ==> A[i][j] == A[j][i]
  }

  ghost predicate SemiDefinite(A: Mat, n: nat) {
    IsMat(A, n, n) && forall x: Vec {:trigger Form(A, x, x)} :: |x| == n ==> Form(A, x, x) >= 0.0
  }

  ghost predicate Definite(A: Mat, n: nat) {
    IsMat(A, n, n) && forall x: Vec {:trigger Form(A, x, x)} :: |x| == n && x != Zero(n) ==> Form(A, x, x) > 0.0
  }

  lemma SymmetricPull(A: Mat, x: Vec)
    requires Symmetric(A, |x|)
    ensures Pull(A, x, |x|) == Apply(A, x)
  {
    forall j | 0 <= j < |x| ensures Pull(A, x, |x|)[j] == Dot(A[j], x) {
      PullAt(A, x, |x|, j);
      assert Col(A, j) == A[j];
    }
  }

  /** A symmetric matrix is its own adjoint. */
  lemma FormSymmetric(A: Mat, x: Vec, y: Vec)
    requires |x| == |y| && Symmetric(A, |x|)
    ensures Form(A, x, y) == Form(A, y, x)
  {
    SymmetricPull(A, x);
    Adjoint(A, x, y);
    DotComm(Apply(A, x), y);
  }

  /** ... and only a symmetric matrix is. */
  lemma SymmetricFromForm(A: Mat, n: nat)
    requires IsMat(A, n, n)
    requires forall x: Vec, y: Vec :: |x| == n && |y| == n ==> Form(A, x, y) == Form(A, y, x)
    ensures Symmetric(A, n)
  {
    forall i, j | 0 <= i < n && 0 <= j < n ensures A[i][j] == A[j][i] {
      assert Form(A, Unit(n, i), Unit(n, j)) == Form(A, Unit(n, j), Unit(n, i));
      FormUnit(A, n, i, j);
      FormUnit(A, n, j, i);
    }
  }

  lemma FormUnit(A: Mat, n: nat, i: nat, j: nat)
    requires IsMat(A, n, n) && i < n && j < n
    ensures Form(A, Unit(n, i), Unit(n, j)) == A[i][j]
  {
    var y := Apply(A, Unit(n, j));
    DotComm(Unit(n, i), y);
    DotUnit(y, i);
    DotUnit(A[i], j);
  }

  lemma FormAdd(A: Mat, x: Vec, y: Vec, z: Vec)
    requires |x| == |y| == |z| && IsMat(A, |x|, |x|)
    ensures Form(A, Add(x, y), z) == Form(A, x, z) + Form(A, y, z)
    ensures Form(A, z, Add(x, y)) == Form(A, z, x) + Form(A, z, y)
  {
    DotAdd(x, y, Apply(A, z));
    ApplyAdd(A, x, y);
    DotAdd(Apply(A, x), Apply(A, y), z);
  }

  lemma FormScale(A: Mat, k: real, x: Vec, z: Vec)
    requires |x| == |z| && IsMat(A, |x|, |x|)
    ensures Form(A, Scale(k, x), z) == Times(k, Form(A, x, z))
    ensures Form(A, z, Scale(k, x)) == Times(k, Form(A, z, x))
  {
    DotScale(k, x, Apply(A, z));
    ApplyScale(A, k, x);
    DotScale(k, Apply(A, x), z);
  }

  lemma SumDefinite(A: Mat, B: Mat, n: nat)
    requires Definite(A, n) && SemiDefinite(B, n)
    ensures Definite(MAdd(A, B), n)
  {
    hide Form, MAdd;
    forall x: Vec | |x| == n && x != Zero(n) ensures Form(MAdd(A, B), x, x) > 0.0 {
      SumForm(A, B, x, x);
      assert Form(B, x, x) >= 0.0;
    }
  }

  lemma SumForm(A: Mat, B: Mat, x: Vec, y: Vec)
    requires |x| == |y| && IsMat(A, |x|, |x|) && IsMat(B, |x|, |x|)
    ensures Form(MAdd(A, B), x, y) == Form(A, x, y) + Form(B, x, y)
  {
    ApplyMAdd(A, B, y);
    DotAdd(Apply(A, y), Apply(B, y), x);
  }

  lemma SumSymmetric(A: Mat, B: Mat, n: nat)
    requires Symmetric(A, n) && Symmetric(B, n)
    ensures Symmetric(MAdd(A, B), n)
  {
  }

  /** (A + k u u^T) x == A x + k (u . x) u */
  lemma RankOneApply(A: Mat, k: real, u: Vec, x: Vec)
    requires |u| == |x| && IsMat(A, |x|, |x|)
    ensures Apply(MAdd(A, MScale(k, Outer(u, u))), x) == Add(Apply(A, x), Scale(k, Scale(Dot(u, x), u)))
  {
    ApplyMAdd(A, MScale(k, Outer(u, u)), x);
    ApplyMScale(k, Outer(u, u), x);
    ApplyOuter(u, u, x);
  }

  lemma RankOneForm(A: Mat, k: real, u: Vec, x: Vec)
    requires |u| == |x| && IsMat(A, |x|, |x|)
    ensures Form(MAdd(A, MScale(k, Outer(u, u))), x, x) == Form(A, x, x) + Times(k, Times(Dot(u, x), Dot(u, x)))
  {
    RankOneApply(A, k, u, x);
    var v := Scale(Dot(u, x), u);
    DotAdd(Apply(A, x), Scale(k, v), x);
    DotScale(k, v, x);
    DotScale(Dot(u, x), u, x);
    DotComm(u, x);
  }

  lemma RankOneSymmetric(A: Mat, k: real, u: Vec)
    requires Symmetric(A, |u|)
    ensures Symmetric(MAdd(A, MScale(k, Outer(u, u))), |u|)
  {
    forall i, j | 0 <= i < |u| && 0 <= j < |u| ensures Outer(u, u)[i][j] == Outer(u, u)[j][i] {
      assert Times(u[i], u[j]) == Times(u[j], u[i]);
    }
  }

  /** s . (A (x + t s) + p) for a symmetric A */
  lemma AlongAxis(A: Mat, s: Vec, x: Vec, t: real, p: Vec)
    requires |s| == |x| == |p| && Symmetric(A, |s|)
    ensures Dot(s, Add(Apply(A, Add(x, Scale(t, s))), p))
         == Dot(Apply(A, s), x) + Times(t, Form(A, s, s)) + Dot(s, p)
  {
    DotAdd(Apply(A, Add(x, Scale(t, s))), p, s);
    FormAdd(A, x, Scale(t, s), s);
    FormScale(A, t, s, s);
    FormSymmetric(A, s, x);
    DotComm(x, Apply(A, s));
  }

  /** x^T (X^T M X) y == (X x)^T M (X y) */
  lemma CongruenceForm(X: Mat, M: Mat, x: Vec, y: Vec, n: nat)
    requires IsMat(X, n, n) && IsMat(M, n, n) && |x| == |y| == n
    ensures Form(Mul(Mul(Transpose(X, n, n), M, n), X, n), x, y) == Form(M, Apply(X, x), Apply(X, y))
  {
    var XT := Transpose(X, n, n);
    var w := Apply(M, Apply(X, y));
    ApplyMul(Mul(XT, M, n), X, y);
    ApplyMul(XT, M, Apply(X, y));
    ApplyTranspose(X, w, n);
    calc {
      Dot(x, Pull(X, w, n));
      { DotComm(x, Pull(X, w, n)); Adjoint(X, w, x); }
      Dot(w, Apply(X, x));
      { DotComm(w, Apply(X, x)); }
      Dot(Apply(X, x), w);
    }
  }

  lemma CongruenceSymmetric(X: Mat, M: Mat, n: nat)
    requires IsMat(X, n, n) && Symmetric(M, n)
    ensures Symmetric(Mul(Mul(Transpose(X, n, n), M, n), X, n), n)
  {
    var C := Mul(Mul(Transpose(X, n, n), M, n), X, n);
    forall x: Vec, y: Vec | |x| == n && |y| == n ensures Form(C, x, y) == Form(C, y, x) {
      CongruenceForm(X, M, x, y, n);
      CongruenceForm(X, M, y, x, n);
      FormSymmetric(M, Apply(X, x), Apply(X, y));
    }
    SymmetricFromForm(C, n);
  }

  lemma CongruenceSemiDefinite(X: Mat, M: Mat, n: nat)
    requires IsMat(X, n, n) && SemiDefinite(M, n)
    ensures SemiDefinite(Mul(Mul(Transpose(X, n, n), M, n), X, n), n)
  {
    var C := Mul(Mul(Transpose(X, n, n), M, n), X, n);
    forall x: Vec | |x| == n ensures Form(C, x, x) >= 0.0 {
      CongruenceForm(X, M, x, x, n);
    }
  }

  lemma DefiniteIsSemi(A: Mat, n: nat)
    requires Definite(A, n)
    ensures SemiDefinite(A, n)
  {
    forall x: Vec | |x| == n ensures Form(A, x, x) >= 0.0 {
      if x == Zero(n) {
        DotZero(n, Apply(A, x));
      }
    }
  }

  /** Cauchy-Schwarz for a positive semidefinite form. */
  lemma CauchySchwarz(A: Mat, s: Vec, x: Vec)
    requires |s| == |x| && Symmetric(A, |x|) && SemiDefinite(A, |x|)
    ensures Times(Form(A, s, x), Form(A, s, x)) <= Times(Form(A, s, s), Form(A, x, x))
  {
    var a, b, c := Form(A, s, s), Form(A, s, x), Form(A, x, x);
    forall t: real ensures Parabola(a, b, c, t) >= 0.0 {
      Expand(A, s, x, t);
    }
    Discriminant(a, b, c);
  }

  /** a t^2 + 2 b t + c */
  function Parabola(a: real, b: real, c: real, t: real): real {
    c + 2.0 * Times(t, b) + Times(Times(t, t), a)
  }

  /** A quadratic polynomial that is nowhere negative has no positive discriminant. */
  lemma Discriminant(a: real, b: real, c: real)
    requires a >= 0.0
    requires forall t: real :: Parabola(a, b, c, t) >= 0.0
    ensures Times(b, b) <= Times(a, c)
  {
    if a > 0.0 {
      ParabolaVertex(a, b, c);
    } else if b != 0.0 {
      LineBelowZero(b, c);
    }
  }

  lemma ParabolaVertex(a: real, b: real, c: real)
    requires a > 0.0 && Parabola(a, b, c, -b / a) >= 0.0
    ensures Times(b, b) <= Times(a, c)
  {
    var t := -b / a;
    assert t * a == -b;
    assert Times(Times(t, t), a) == t * (t * a) == -Times(t, b);
    var v := c + Times(t, b);
    assert v >= 0.0;
    assert Times(a, v) >= 0.0;
    assert Times(a, v) == Times(a, c) + (t * a) * b;
  }

  lemma LineBelowZero(b: real, c: real)
    requires b != 0.0
    ensures Parabola(0.0, b, c, -(c + 1.0) / (2.0 * b)) == -1.0
  {
    var t := -(c + 1.0) / (2.0 * b);
    assert t * (2.0 * b) == -(c + 1.0);
    assert Times(Times(t, t), 0.0) == 0.0;
  }

  lemma Expand(A: Mat, s: Vec, x: Vec, t: real)
    requires |s| == |x| && Symmetric(A, |x|)
    ensures Form(A, Add(x, Scale(t, s)), Add(x, Scale(t, s)))
         == Parabola(Form(A, s, s), Form(A, s, x), Form(A, x, x), t)
  {
    var y := Scale(t, s);
    FormAdd(A, x, y, Add(x, y));
    FormAdd(A, x, y, x);
    FormAdd(A, x, y, y);
    FormSymmetric(A, x, y);
    FormScale(A, t, s, x);
    FormScale(A, t, s, y);
    FormScale(A, t, s, s);
    assert Form(A, y, y) == t * (t * Form(A, s, s));
  }
}
