/**
 The hand-written dynamics of a serial revolute chain. The same three sweeps with the
 predecessor in the list for a parent, no armature and no damping; it is verified to compute
 what the general tree dynamics computes on the path tree.
 */
module Serial {
  import opened Linear
  import opened Spatial
  import opened Articulated
  import opened Dynamics
  import opened Wrappers
  import opened Robot

  /** The chain as a tree whose joint j hangs off joint j - 1. */
  function PathTree(chain: seq<ChainJoint>): (tree: seq<Joint>)
    requires ChainShape(chain)
    ensures |tree| == |chain| && RobotTree(tree) && forall i :: 0 <= i < |tree| ==> tree[i].parent == i - 1
  {
    seq(|chain|, i requires 0 <= i < |chain| =>
      Joint(i - 1, Mul(Xrot(chain[i].E), Xtrans(chain[i].r), DIM), Revolute, chain[i].axis,
            chain[i].axis + Zero(3), SpatialInertia(chain[i].m, chain[i].com, chain[i].inertia)))
  }

  function ChainLinks(trig: Trig, chain: seq<ChainJoint>, q: Vec, qd: Vec, tau: Vec): (L: seq<Link>)
    requires ChainShape(chain) && |q| == |qd| == |tau| == |chain|
    ensures |L| == |chain| && Tree(L) && forall i :: 0 <= i < |L| ==> L[i].parent == i - 1
  {
    Links(trig, PathTree(chain), Zero(|chain|), q, qd, tau)
  }

  /** Forward dynamics of the chain under vertical gravity; state = [q, qd], dstate = [qd, qdd]. */
  method ManipulatorOde(trig: Trig, chain: seq<ChainJoint>, gravity: real, state: Vec, tau: Vec)
    returns (dstate: Vec)
    requires ChainShape(chain) && |chain| > 0 && |state| == 2 * |chain| && |tau| == |chain|
    requires PivotsNonzero(ChainLinks(trig, chain, state[..|chain|], state[|chain|..], tau))
    ensures |dstate| == |state| && dstate[..|chain|] == state[|chain|..]
    ensures dstate[|chain|..]
         == ForwardDynamics(ChainLinks(trig, chain, state[..|chain|], state[|chain|..], tau),
                            BaseAcceleration([0.0, 0.0, -gravity]))
    ensures PhysicalChain(chain) ==>
      OnlyMotion(trig, Machine(PathTree(chain), [0.0, 0.0, -gravity], Zero(|chain|), None),
                 State(state[..|chain|], state[|chain|..], tau), dstate[|chain|..])
  {
    hide OnlyMotion, PhysicalChain, Links, ForwardDynamics, PivotsNonzero, PathTree, SpatialInertia, RotAxis, Xrot, Xtrans, Mul, Transpose,
         BaseAcceleration, Velocity, Coriolis, Gyroscopic;
    var n := |chain|;
    var q, qd := state[..n], state[n..];
    ghost var tree := PathTree(chain);
    ghost var L := ChainLinks(trig, chain, q, qd, tau);
    var inertia := seq(n, i requires 0 <= i < n => SpatialInertia(chain[i].m, chain[i].com, chain[i].inertia));
    var S := seq(n, i requires 0 <= i < n => chain[i].axis + Zero(3));
    var a0 := [0.0, 0.0, 0.0, 0.0, 0.0, gravity];
    var xup := seq(n, i requires 0 <= i < n =>
      Mul(Xrot(Transpose(RotAxis(chain[i].axis, trig.cos(q[i]), trig.sin(q[i])), 3, 3)),
          Mul(Xrot(chain[i].E), Xtrans(chain[i].r), DIM), DIM));
    forall i | 0 <= i < n ensures xup[i] == Xup(trig, tree[i], q[i]) && S[i] == tree[i].S && inertia[i] == tree[i].I {
      PathAt(chain, i);
    }
    UpwardBase(gravity);
    var c, pa := ChainVelocities(trig, tree, S, inertia, q, qd, xup);
    forall i | 0 <= i < n ensures Sees(L, tree, Zero(n), tau, xup, c, i) && pa[i] == L[i].p {
      LinkAt(trig, tree, Zero(n), q, qd, tau, i);
      assert Moved(trig, tree, q, qd, i, c[i], pa[i]);
    }
    var uu, d, u := ChainInertias(L, tree, S, inertia, tau, xup, c, pa);
    var qdd := ChainAccelerations(L, tree, S, tau, a0, xup, c, uu, d, u);
    dstate := qd + qdd;
    if PhysicalChain(chain) {
      ChainMoves(trig, chain, gravity, q, qd, tau);
    }
  }

  lemma UpwardBase(gravity: real)
    ensures BaseAcceleration([0.0, 0.0, -gravity]) == [0.0, 0.0, 0.0, 0.0, 0.0, gravity]
  {
  }

  lemma PathAt(chain: seq<ChainJoint>, i: nat)
    requires ChainShape(chain) && i < |chain|
    ensures PathTree(chain)[i]
         == Joint(i - 1, Mul(Xrot(chain[i].E), Xtrans(chain[i].r), DIM), Revolute, chain[i].axis,
                  chain[i].axis + Zero(3), SpatialInertia(chain[i].m, chain[i].com, chain[i].inertia))
  {
  }

  ghost predicate OnPath(tree: seq<Joint>, S: seq<Vec>, inertia: seq<Mat>) {
    && RobotTree(tree) && |S| == |inertia| == |tree|
    && forall i :: 0 <= i < |tree| ==> tree[i].parent == i - 1 && tree[i].S == S[i] && tree[i].I == inertia[i]
  }

  method ChainVelocities(ghost trig: Trig, ghost tree: seq<Joint>, S: seq<Vec>, inertia: seq<Mat>,
                         ghost q: Vec, qd: Vec, xup: seq<Mat>)
    returns (c: seq<Vec>, pa: seq<Vec>)
    requires OnPath(tree, S, inertia) && |q| == |qd| == |xup| == |tree|
    requires forall i :: 0 <= i < |tree| ==> xup[i] == Xup(trig, tree[i], q[i])
    ensures |c| == |pa| == |tree|
    ensures forall i :: 0 <= i < |tree| ==> Moved(trig, tree, q, qd, i, c[i], pa[i])
  {
    hide Crm, Mul, Transpose, Neg, Apply, Add, Scale, Xup, Velocity;
    var v: seq<Vec> := [];
    c, pa := [], [];
    for i := 0 to |S|
      invariant |v| == |c| == |pa| == i
      invariant forall k :: 0 <= k < i ==> v[k] == Velocity(trig, tree, q, qd, k)
      invariant forall k :: 0 <= k < i ==> Moved(trig, tree, q, qd, k, c[k], pa[k])
    {
      assert tree[i].parent == i - 1 && tree[i].S == S[i] && tree[i].I == inertia[i];
      var vj := Scale(qd[i], S[i]);
      var vp := if i == 0 then Zero(DIM) else v[i - 1];
      var vi := Add(Apply(xup[i], vp), vj);
      VelocityStep(trig, tree, q, qd, i, xup[i], vp);
      var ci := Apply(Crm(vi), vj);
      var pi := Apply(Mul(Neg(Transpose(Crm(vi), DIM, DIM)), inertia[i], DIM), vi);
      assert Moved(trig, tree, q, qd, i, ci, pi);
      v, c, pa := v + [vi], c + [ci], pa + [pi];
    }
  }

  method ChainInertias(ghost L: seq<Link>, ghost tree: seq<Joint>, S: seq<Vec>, inertia: seq<Mat>, tau: Vec,
                       xup: seq<Mat>, c: seq<Vec>, bias: seq<Vec>)
    returns (uu: seq<Vec>, d: Vec, u: Vec)
    requires Tree(L) && PivotsNonzero(L) && OnPath(tree, S, inertia)
    requires |L| == |tau| == |xup| == |c| == |bias| == |tree|
    requires forall i :: 0 <= i < |tree| ==> Sees(L, tree, Zero(|tree|), tau, xup, c, i) && bias[i] == L[i].p
    ensures |uu| == |d| == |u| == |tree|
    ensures forall i :: 0 <= i < |tree| ==> Swept(L, i, uu[i], d[i], u[i])
  {
    hide Apply, Dot, MAdd, MScale, Outer, Add, Scale, Mul, Transpose, Zero;
    var n := |S|;
    var ia, pa := inertia, bias;
    uu := seq(n, j => []);
    d, u := Zero(n), Zero(n);
    for i := n downto 0
      invariant |uu| == |d| == |u| == n
      invariant SweptTo(L, i, ia, pa)
      invariant forall k :: i <= k < n ==> Swept(L, k, uu[k], d[k], u[k])
    {
      hide Inertia, Bias;
      assert Sees(L, tree, Zero(n), tau, xup, c, i);
      ZeroAt(n, i);
      assert ia[i] == Inertia(L, i, i + 1) && pa[i] == Bias(L, i, i + 1);
      uu := uu[i := Apply(ia[i], S[i])];
      d := d[i := Dot(S[i], uu[i])];
      u := u[i := tau[i] - Dot(S[i], pa[i])];
      assert Swept(L, i, uu[i], d[i], u[i]);
      ghost var ia0, pa0 := ia, pa;
      if i > 0 {
        assert d[i] == PivotAt(L, i) != 0.0;
        var small := MAdd(ia[i], MScale(-(1.0 / d[i]), Outer(uu[i], uu[i])));
        var carried := Add(Add(pa[i], Apply(small, c[i])), Scale(u[i] / d[i], uu[i]));
        var XT := Transpose(xup[i], DIM, DIM);
        assert IsMat(ia[i - 1], DIM, DIM) && |pa[i - 1]| == DIM by {
          assert ia[i - 1] == Inertia(L, i - 1, i + 1) && pa[i - 1] == Bias(L, i - 1, i + 1);
        }
        ia := ia[i - 1 := MAdd(ia[i - 1], Mul(Mul(XT, small, DIM), xup[i], DIM))];
        pa := pa[i - 1 := Add(pa[i - 1], Apply(XT, carried))];
      }
      SweepStep(L, i, ia0, pa0, ia, pa);
    }
  }

  lemma ZeroAt(n: nat, i: nat)
    requires i < n
    ensures Zero(n)[i] == 0.0
  {
  }

  method ChainAccelerations(ghost L: seq<Link>, ghost tree: seq<Joint>, S: seq<Vec>, ghost tau: Vec, a0: Vec,
                            xup: seq<Mat>, c: seq<Vec>, uu: seq<Vec>, d: Vec, u: Vec)
    returns (qdd: Vec)
    requires Tree(L) && PivotsNonzero(L) && |a0| == DIM
    requires |L| == |S| == |tau| == |xup| == |c| == |uu| == |d| == |u| == |tree|
    requires forall i :: 0 <= i < |tree| ==>
      && Sees(L, tree, Zero(|tree|), tau, xup, c, i) && Swept(L, i, uu[i], d[i], u[i])
      && L[i].parent == i - 1 && L[i].S == S[i]
    ensures qdd == ForwardDynamics(L, a0)
  {
    hide Apply, Dot, Add, Scale, Inertia, Bias;
    var a: seq<Vec> := [];
    qdd := [];
    for i := 0 to |S|
      invariant |a| == |qdd| == i
      invariant forall k :: 0 <= k < i ==>
        a[k] == Acceleration(L, a0, k) && qdd[k] == JointAcceleration(L, k, ParentAcceleration(L, a0, k))
    {
      assert Sees(L, tree, Zero(|tree|), tau, xup, c, i) && Swept(L, i, uu[i], d[i], u[i]) && PivotAt(L, i) != 0.0;
      var ap := if i == 0 then a0 else a[i - 1];
      assert ap == ParentAcceleration(L, a0, i);
      var at := Add(Apply(xup[i], ap), c[i]);
      var acc := (u[i] - Dot(uu[i], at)) / d[i];
      a := a + [Add(at, Scale(acc, S[i]))];
      qdd := qdd + [acc];
    }
  }

  /** The chain dynamics and the tree dynamics of its path tree agree on every state and torque. */
  method CompareOnChain(trig: Trig, chain: seq<ChainJoint>, gravity: real, state: Vec, tau: Vec)
    returns (serial: Vec, general: Vec)
    requires ChainShape(chain) && |chain| > 0 && |state| == 2 * |chain| && |tau| == |chain|
    requires PivotsNonzero(ChainLinks(trig, chain, state[..|chain|], state[|chain|..], tau))
    ensures serial == general
  {
    hide Links, ForwardDynamics, PathTree, PivotsNonzero;
    serial := ManipulatorOde(trig, chain, gravity, state, tau);
    general := EmitAba(trig, PathTree(chain), [0.0, 0.0, -gravity], None, None, state, tau);
    assert serial == serial[..|chain|] + serial[|chain|..];
    assert general == general[..|chain|] + general[|chain|..];
  }

  // ---------------------------------------------------------------- the chain is safe

  /** Every link has mass and a positive definite rotational inertia; no axis is zero. */
  ghost predicate PhysicalChain(chain: seq<ChainJoint>) {
    forall i :: 0 <= i < |chain| ==>
      && |chain[i].axis| == |chain[i].com| == 3
      && chain[i].m > 0.0 && Symmetric(chain[i].inertia, 3) && Definite(chain[i].inertia, 3)
      && chain[i].axis != Zero(3)
  }

  /** A physical chain never divides by zero, in any state. */
  lemma ChainNeverDividesByZero(trig: Trig, chain: seq<ChainJoint>, q: Vec, qd: Vec, tau: Vec)
    requires ChainShape(chain) && PhysicalChain(chain) && |q| == |qd| == |tau| == |chain|
    ensures var L := ChainLinks(trig, chain, q, qd, tau);
      SymmetricInertias(L) && PivotsNonzero(L)
  {
    hide Links, PivotsNonzero, SpatialInertia, Symmetric, Definite, Velocity, Xup, Coriolis, Gyroscopic, PathTree;
    var L := ChainLinks(trig, chain, q, qd, tau);
    forall j | 0 <= j < |L|
      ensures Symmetric(L[j].I, DIM) && Definite(L[j].I, DIM) && L[j].armature >= 0.0 && L[j].S != Zero(DIM)
    {
      LinkAt(trig, PathTree(chain), Zero(|chain|), q, qd, tau, j);
      PathAt(chain, j);
      Spatial.InertiaSymmetric(chain[j].m, chain[j].com, chain[j].inertia);
      Spatial.InertiaDefinite(chain[j].m, chain[j].com, chain[j].inertia);
      assert L[j].S[..3] == chain[j].axis && Zero(DIM)[..3] == Zero(3);
    }
    PivotsPositive(L);
  }

  /** The chain dynamics of a physical chain are the one solution of its equations of motion. */
  lemma ChainMoves(trig: Trig, chain: seq<ChainJoint>, gravity: real, q: Vec, qd: Vec, tau: Vec)
    requires ChainShape(chain) && PhysicalChain(chain) && |q| == |qd| == |tau| == |chain|
    ensures OnlyMotion(trig, Machine(PathTree(chain), [0.0, 0.0, -gravity], Zero(|chain|), None), State(q, qd, tau),
                       ForwardDynamics(ChainLinks(trig, chain, q, qd, tau), BaseAcceleration([0.0, 0.0, -gravity])))
  {
    hide OnlyMotion, PathTree, Links, ForwardDynamics, BaseAcceleration, SymmetricInertias, PivotsNonzero;
    ChainNeverDividesByZero(trig, chain, q, qd, tau);
    ForwardDynamicsMoves(trig, Machine(PathTree(chain), [0.0, 0.0, -gravity], Zero(|chain|), None), State(q, qd, tau));
  }
}
