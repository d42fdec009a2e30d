/**
 Extraction of the joint tree from a compiled MuJoCo model: bodies without a joint are
 climbed over when transforms are composed, and their inertia is folded into the nearest
 moving ancestor.
 */
module MujocoTree {
  import opened Linear
  import opened Spatial
  import opened Articulated
  import opened Dynamics
  import opened Wrappers

  datatype MjJoint = MjJoint(jtype: int, atOrigin: bool, axis: Vec)

  /** What connects a body to its parent: no joint, one or more. */
  datatype Joints = Fixed | One(value: MjJoint) | Several

  /** Body b of the compiled model; X is the motion transform from its parent's frame. */
  datatype Body = Body(parentId: nat, joint: Joints, X: Mat, mass: real, com: Vec, ic: Mat)

  const SLIDE := 2
  const HINGE := 3

  /** Body 0 is the world; a parent has a smaller number than its children. */
  predicate Model(bodies: seq<Body>) {
    && |bodies| > 0
    && (forall b :: 0 < b < |bodies| ==> bodies[b].parentId < b)
    && (forall b :: 0 <= b < |bodies| ==> BodyShape(bodies[b]))
  }

  predicate BodyShape(b: Body) {
    && IsMat(b.X, DIM, DIM) && |b.com| == 3 && IsMat(b.ic, 3, 3)
    && (b.joint.One? ==> |b.joint.value.axis| == 3)
  }

  predicate Moves(bodies: seq<Body>, b: int) {
    0 < b < |bodies| && bodies[b].joint.One?
  }

  /** A body the climb does not pass. */
  predicate Stops(bodies: seq<Body>, b: nat)
    requires b < |bodies|
  {
    b == 0 || !bodies[b].joint.Fixed?
  }

  predicate InScope(j: MjJoint) {
    (j.jtype == SLIDE || j.jtype == HINGE) && j.atOrigin
  }

  function BodyInertia(b: Body): (I: Mat)
    requires BodyShape(b)
    ensures IsMat(I, DIM, DIM)
  {
    SpatialInertia(b.mass, b.com, b.ic)
  }

  /** A body turning at w while its frame moves at v has the energy of its mass at the centre of mass and of its turning. */
  lemma BodyEnergyIs(b: Body, w: Vec, v: Vec)
    requires BodyShape(b) && |w| == |v| == 3
    ensures var y := Add(v, Cross(w, b.com));
      Form(BodyInertia(b), w + v, w + v) == Form(b.ic, w, w) + Times(b.mass, Dot(y, y))
  {
    InertiaForm(b.mass, b.com, b.ic, w, v);
  }

  // ---------------------------------------------------------------- what the climb means

  /** The nearest ancestor of b with a joint, or the world. */
  function Anchor(bodies: seq<Body>, b: nat): (a: nat)
    requires Model(bodies) && 0 < b < |bodies|
    ensures a < b && Stops(bodies, a)
  {
    var p := bodies[b].parentId;
    if Stops(bodies, p) then p else Anchor(bodies, p)
  }

  /** A velocity w of the anchor's frame as felt in b's frame when nothing in between has a joint. */
  function Ride(bodies: seq<Body>, b: nat, w: Vec): (v: Vec)
    requires Model(bodies) && 0 < b < |bodies| && |w| == DIM
    ensures |v| == DIM
  {
    var p := bodies[b].parentId;
    Apply(bodies[b].X, if Stops(bodies, p) then w else Ride(bodies, p, w))
  }

  function RideFrom(bodies: seq<Body>, b: nat, w: Vec): (v: Vec)
    requires Model(bodies) && b < |bodies| && |w| == DIM
    ensures |v| == DIM
  {
    if Stops(bodies, b) then w else Ride(bodies, b, w)
  }

  /** The moving bodies below n, in order. */
  function Moving(bodies: seq<Body>, n: nat): (s: seq<nat>)
    requires n <= |bodies|
    ensures forall k :: 0 <= k < |s| ==> s[k] < n && Moves(bodies, s[k])
    ensures forall k, l :: 0 <= k < l < |s| ==> s[k] < s[l]
  {
    if n == 0 then [] else Moving(bodies, n - 1) + (if Moves(bodies, n - 1) then [n - 1] else [])
  }

  /** The place of a moving body in the list. */
  function Place(bodies: seq<Body>, b: nat): nat
    requires b <= |bodies|
  {
    |Moving(bodies, b)|
  }

  lemma {:induction false} PlaceOf(bodies: seq<Body>, b: nat, n: nat)
    requires b < n <= |bodies|
    ensures Place(bodies, b) <= Place(bodies, n)
    ensures Moves(bodies, b) ==> Place(bodies, b) < Place(bodies, n) && Moving(bodies, n)[Place(bodies, b)] == b
  {
    if b < n - 1 {
      PlaceOf(bodies, b, n - 1);
    }
  }

  /** The tree index of the anchor of b, -1 for the fixed base and for bodies with several joints. */
  function AnchorPlace(bodies: seq<Body>, b: nat): int
    requires Model(bodies) && 0 < b < |bodies|
  {
    var a := Anchor(bodies, b);
    if Moves(bodies, a) then Place(bodies, a) else -1
  }

  // ---------------------------------------------------------------- kinetic energy

  /** Velocities of all bodies in which a jointless body rides its parent. */
  predicate Rigid(bodies: seq<Body>, v: seq<Vec>)
    requires Model(bodies)
  {
    && |v| == |bodies| && (forall b :: 0 <= b < |v| ==> |v[b]| == DIM)
    && forall b :: 0 < b < |v| && bodies[b].joint.Fixed? ==> v[b] == Apply(bodies[b].X, v[bodies[b].parentId])
  }

  function Energy(I: Mat, v: Vec): real
    requires IsMat(I, DIM, DIM) && |v| == DIM
  {
    Form(I, v, v)
  }

  /** A jointless body whose anchor is in the tree. */
  predicate Hangs(bodies: seq<Body>, b: nat)
    requires Model(bodies) && 0 < b < |bodies|
  {
    bodies[b].joint.Fixed? && Moves(bodies, Anchor(bodies, b))
  }

  /** Twice the kinetic energy of the bodies 1 .. n - 1 that move, or hang off one that does and lie below `folded`. */
  function BodyEnergy(bodies: seq<Body>, v: seq<Vec>, n: nat, folded: nat): real
    requires Model(bodies) && Rigid(bodies, v) && n <= |bodies|
  {
    if n <= 1 then 0.0
    else
      var own := if Moves(bodies, n - 1) || (n - 1 < folded && Hangs(bodies, n - 1)) then Energy(BodyInertia(bodies[n - 1]), v[n - 1]) else 0.0;
      BodyEnergy(bodies, v, n - 1, folded) + own
  }

  /** Twice the kinetic energy of the first k joints of the tree. */
  function TreeEnergy(tree: seq<Joint>, moving: seq<nat>, v: seq<Vec>, k: nat): real
    requires k <= |tree| == |moving|
    requires forall i :: 0 <= i < |tree| ==> JointShape(tree[i])
    requires forall i :: 0 <= i < |moving| ==> moving[i] < |v|
    requires forall b :: 0 <= b < |v| ==> |v[b]| == DIM
  {
    if k == 0 then 0.0 else TreeEnergy(tree, moving, v, k - 1) + Energy(tree[k - 1].I, v[moving[k - 1]])
  }

  lemma {:induction false} RigidRide(bodies: seq<Body>, v: seq<Vec>, b: nat)
    requires Model(bodies) && Rigid(bodies, v) && 0 < b < |bodies| && bodies[b].joint.Fixed?
    ensures v[b] == Ride(bodies, b, v[Anchor(bodies, b)])
  {
    var p := bodies[b].parentId;
    if !Stops(bodies, p) {
      RigidRide(bodies, v, p);
    }
  }

  lemma {:induction false} FoldOneMore(bodies: seq<Body>, v: seq<Vec>, n: nat, b: nat)
    requires Model(bodies) && Rigid(bodies, v) && 0 < b < |bodies| && n <= |bodies|
    ensures BodyEnergy(bodies, v, n, b + 1) == BodyEnergy(bodies, v, n, b) +
      (if b < n && Hangs(bodies, b) then Energy(BodyInertia(bodies[b]), v[b]) else 0.0)
  {
    if n > 1 {
      FoldOneMore(bodies, v, n - 1, b);
    }
  }

  function AddInertia(tree: seq<Joint>, a: nat, C: Mat): (t: seq<Joint>)
    requires a < |tree| && IsMat(C, DIM, DIM) && forall i :: 0 <= i < |tree| ==> JointShape(tree[i])
    ensures |t| == |tree| && forall i :: 0 <= i < |t| ==> JointShape(t[i])
  {
    assert JointShape(tree[a]);
    tree[a := tree[a].(I := MAdd(tree[a].I, C))]
  }

  lemma {:induction false} TreeEnergyAdd(tree: seq<Joint>, moving: seq<nat>, v: seq<Vec>, k: nat, a: nat, C: Mat)
    requires k <= |tree| == |moving| && a < |tree| && IsMat(C, DIM, DIM)
    requires forall i :: 0 <= i < |tree| ==> JointShape(tree[i])
    requires forall i :: 0 <= i < |moving| ==> moving[i] < |v|
    requires forall b :: 0 <= b < |v| ==> |v[b]| == DIM
    ensures TreeEnergy(AddInertia(tree, a, C), moving, v, k)
         == TreeEnergy(tree, moving, v, k) + (if a < k then Energy(C, v[moving[a]]) else 0.0)
  {
    hide MAdd, Form;
    if k > 0 {
      TreeEnergyAdd(tree, moving, v, k - 1, a, C);
      if a == k - 1 {
        assert JointShape(tree[a]);
        SumForm(tree[a].I, C, v[moving[a]], v[moving[a]]);
      }
    }
  }

  lemma EntryInertia(bodies: seq<Body>, b: nat, t: Joint)
    requires Model(bodies) && Moves(bodies, b) && Entry(bodies, b, t)
    ensures BodyShape(bodies[b]) && t.I == BodyInertia(bodies[b])
  {
  }

  /** Before any folding the tree has the energy of the moving bodies. */
  lemma {:induction false} UnfoldedEnergy(bodies: seq<Body>, tree: seq<Joint>, v: seq<Vec>, n: nat)
    requires Model(bodies) && Rigid(bodies, v) && n <= |bodies|
    requires |tree| == Place(bodies, |bodies|) >= Place(bodies, n)
    requires forall i :: 0 <= i < |tree| ==>
      JointShape(tree[i]) && Entry(bodies, Moving(bodies, |bodies|)[i], tree[i])
    ensures TreeEnergy(tree, Moving(bodies, |bodies|), v, Place(bodies, n)) == BodyEnergy(bodies, v, n, 1)
  {
    hide BodyInertia, Energy, Carries, Describes, Entry, Anchor, Ride;
    if n > 0 {
      PlaceOf(bodies, n - 1, n);
      PlaceOf(bodies, n - 1, |bodies|);
      UnfoldedEnergy(bodies, tree, v, n - 1);
      if Moves(bodies, n - 1) {
        EntryInertia(bodies, n - 1, tree[Place(bodies, n - 1)]);
      }
    }
  }

  /** Folding b into its anchor accounts for exactly the energy of b. */
  lemma FoldEnergy(bodies: seq<Body>, v: seq<Vec>, b: nat, X: Mat)
    requires Model(bodies) && Rigid(bodies, v) && 0 < b < |bodies| && bodies[b].joint.Fixed?
    requires IsMat(X, DIM, DIM) && Carries(bodies, b, X)
    ensures Energy(BodyInertia(bodies[b]), v[b]) == Energy(Folded(bodies[b], X), v[Anchor(bodies, b)])
  {
    hide SpatialInertia, Apply, Mul, Transpose, Dot;
    var w := v[Anchor(bodies, b)];
    RigidRide(bodies, v, b);
    CongruenceForm(X, BodyInertia(bodies[b]), w, w, DIM);
  }

  /** X^T I X */
  function Folded(b: Body, X: Mat): (M: Mat)
    requires BodyShape(b) && IsMat(X, DIM, DIM)
    ensures IsMat(M, DIM, DIM)
  {
    Mul(Mul(Transpose(X, DIM, DIM), BodyInertia(b), DIM), X, DIM)
  }

  // ---------------------------------------------------------------- the extracted tree

  /** Joint k of the tree describes the k-th moving body. */
  predicate Describes(bodies: seq<Body>, b: nat, t: Joint)
    requires Model(bodies) && Moves(bodies, b)
  {
    var j := bodies[b].joint.value;
    && JointShape(t)
    && t.parent == AnchorPlace(bodies, b)
    && t.axis == j.axis
    && t.kind == (if j.jtype == HINGE then Revolute else Prismatic)
    && t.S == (if j.jtype == HINGE then j.axis + Zero(3) else Zero(3) + j.axis)
  }

  ghost predicate Carries(bodies: seq<Body>, b: nat, X: Mat)
    requires Model(bodies) && 0 < b < |bodies|
  {
    && IsMat(X, DIM, DIM)
    && forall w: Vec {:trigger Ride(bodies, b, w)} {:trigger Apply(X, w)} :: |w| == DIM ==>
         Apply(X, w) == Ride(bodies, b, w)
  }

  ghost predicate PhysicalBodies(bodies: seq<Body>)
    requires Model(bodies)
  {
    forall b :: 0 < b < |bodies| ==>
      if Moves(bodies, b) then
        && bodies[b].mass > 0.0 && Symmetric(bodies[b].ic, 3) && Definite(bodies[b].ic, 3)
        && bodies[b].joint.value.axis != Zero(3)
      else bodies[b].joint.Fixed? ==> bodies[b].mass >= 0.0 && Symmetric(bodies[b].ic, 3) && SemiDefinite(bodies[b].ic, 3)
  }

  ghost predicate DefiniteTree(tree: seq<Joint>) {
    forall k :: 0 <= k < |tree| ==> Symmetric(tree[k].I, DIM) && Definite(tree[k].I, DIM)
  }

  /** The dict from moving bodies below n to their place in the list. */
  ghost predicate Indexed(bodies: seq<Body>, idx: map<nat, nat>, n: nat)
    requires n <= |bodies|
  {
    forall c :: (c in idx <==> c < n && Moves(bodies, c)) && (c in idx ==> idx[c] == Place(bodies, c))
  }

  /** (nearest moving ancestor's index or -1, transform from that frame to b) */
  method Ancestor(bodies: seq<Body>, idx: map<nat, nat>, b: nat) returns (anc: int, X: Mat)
    requires Model(bodies) && 0 < b < |bodies| && Indexed(bodies, idx, |bodies|)
    ensures anc == AnchorPlace(bodies, b) && Carries(bodies, b, X)
  {
    hide Apply, Mul;
    assert BodyShape(bodies[b]);
    X := bodies[b].X;
    var cur: nat := bodies[b].parentId;
    while cur != 0 && bodies[cur].joint.Fixed?
      invariant cur < b && IsMat(X, DIM, DIM)
      invariant Anchor(bodies, b) == if Stops(bodies, cur) then cur else Anchor(bodies, cur)
      invariant Passes(bodies, b, cur, X)
      decreases cur
    {
      assert BodyShape(bodies[cur]);
      PassOn(bodies, b, cur, X);
      X := Mul(X, bodies[cur].X, DIM);
      cur := bodies[cur].parentId;
    }
    anc := if cur in idx then idx[cur] else -1;
  }

  /** X takes a velocity of cur's frame, cur at rest in its own joint, to b's. */
  ghost predicate Passes(bodies: seq<Body>, b: nat, cur: nat, X: Mat)
    requires Model(bodies) && 0 < b < |bodies| && cur < |bodies| && IsMat(X, DIM, DIM)
  {
    forall w: Vec {:trigger Ride(bodies, b, w)} :: |w| == DIM ==>
      Ride(bodies, b, w) == Apply(X, RideFrom(bodies, cur, w))
  }

  lemma PassOn(bodies: seq<Body>, b: nat, cur: nat, X: Mat)
    requires Model(bodies) && 0 < b < |bodies| && 0 < cur < |bodies| && !Stops(bodies, cur)
    requires IsMat(X, DIM, DIM) && BodyShape(bodies[cur]) && Passes(bodies, b, cur, X)
    ensures Passes(bodies, b, bodies[cur].parentId, Mul(X, bodies[cur].X, DIM))
  {
    hide Ride, RideFrom, Apply, Mul;
    var p := bodies[cur].parentId;
    forall w: Vec | |w| == DIM
      ensures Ride(bodies, b, w) == Apply(Mul(X, bodies[cur].X, DIM), RideFrom(bodies, p, w))
    {
      RideStep(bodies, cur, w);
      ApplyMul(X, bodies[cur].X, RideFrom(bodies, p, w));
    }
  }

  lemma RideStep(bodies: seq<Body>, b: nat, w: Vec)
    requires Model(bodies) && 0 < b < |bodies| && !Stops(bodies, b) && |w| == DIM && BodyShape(bodies[b])
    ensures RideFrom(bodies, b, w) == Apply(bodies[b].X, RideFrom(bodies, bodies[b].parentId, w))
  {
  }

  /** Folding up to b has kept the kinetic energy of every rigid motion. */
  ghost predicate Conserves(bodies: seq<Body>, tree: seq<Joint>, b: nat)
    requires Model(bodies)
  {
    && |tree| == Place(bodies, |bodies|)
    && (forall k :: 0 <= k < |tree| ==> JointShape(tree[k]))
    && forall v :: Rigid(bodies, v) ==>
         TreeEnergy(tree, Moving(bodies, |bodies|), v, |tree|) == BodyEnergy(bodies, v, |bodies|, b)
  }

  method ExtractTree(bodies: seq<Body>) returns (r: Result<seq<Joint>>)
    requires Model(bodies)
    ensures r.Success? <==> forall b :: Moves(bodies, b) ==> InScope(bodies[b].joint.value)
    ensures r.Success? ==> RobotTree(r.value) && |r.value| == Place(bodies, |bodies|)
    ensures r.Success? ==> forall k :: 0 <= k < |r.value| ==>
      var b := Moving(bodies, |bodies|)[k];
      Describes(bodies, b, r.value[k]) && Carries(bodies, b, r.value[k].XT)
    ensures r.Success? ==> Conserves(bodies, r.value, |bodies|)
    ensures r.Success? && PhysicalBodies(bodies) ==> DefiniteTree(r.value)
  {
    hide Conserves, Carries, DefiniteTree, PhysicalBodies;
    var moving, idx := ListMoving(bodies);
    EveryMoverListed(bodies);
    var entries := WriteEntries(bodies, moving, idx);
    if entries.Failure? {
      return Failure;
    }
    var tree := FoldFixedBodies(bodies, idx, entries.value);
    forall k | 0 <= k < |tree|
      ensures -1 <= tree[k].parent < k && JointShape(tree[k])
      ensures Describes(bodies, moving[k], tree[k]) && Carries(bodies, moving[k], tree[k].XT)
    {
      assert Entry(bodies, moving[k], entries.value[k]) && Same(tree[k], entries.value[k]);
      AnchorBefore(bodies, k);
    }
    r := Success(tree);
  }

  method ListMoving(bodies: seq<Body>) returns (moving: seq<nat>, idx: map<nat, nat>)
    requires Model(bodies)
    ensures moving == Moving(bodies, |bodies|) && Indexed(bodies, idx, |bodies|)
  {
    moving, idx := [], map[];
    for b := 1 to |bodies|
      invariant moving == Moving(bodies, b) && Indexed(bodies, idx, b)
    {
      if bodies[b].joint.One? {
        idx := idx[b := |moving|];
        moving := moving + [b];
      }
    }
  }

  /** The joint of every moving body, or failure at the first one out of scope. */
  method WriteEntries(bodies: seq<Body>, moving: seq<nat>, idx: map<nat, nat>) returns (r: Result<seq<Joint>>)
    requires Model(bodies) && moving == Moving(bodies, |bodies|) && Indexed(bodies, idx, |bodies|)
    ensures r.Success? <==> forall k :: 0 <= k < |moving| ==> InScope(bodies[moving[k]].joint.value)
    ensures r.Success? ==> |r.value| == |moving|
    ensures r.Success? ==> forall k :: 0 <= k < |moving| ==> Entry(bodies, moving[k], r.value[k])
  {
    hide Moving, Carries, BodyInertia;
    var tree: seq<Joint> := [];
    for k := 0 to |moving|
      invariant |tree| == k
      invariant forall i :: 0 <= i < k ==> Entry(bodies, moving[i], tree[i])
      invariant forall i :: 0 <= i < k ==> InScope(bodies[moving[i]].joint.value)
    {
      var b := moving[k];
      assert BodyShape(bodies[b]);
      var j := bodies[b].joint.value;
      if !(j.jtype == SLIDE || j.jtype == HINGE) || !j.atOrigin {
        return Failure;
      }
      var kind := if j.jtype == HINGE then Revolute else Prismatic;
      var anc, X := Ancestor(bodies, idx, b);
      assert IsMat(X, DIM, DIM) by { CarriesShape(bodies, b, X); }
      var S := if kind == Revolute then j.axis + Zero(3) else Zero(3) + j.axis;
      var t := Joint(anc, X, kind, j.axis, S, BodyInertia(bodies[b]));
      assert Entry(bodies, b, t);
      tree := tree + [t];
    }
    r := Success(tree);
  }

  lemma CarriesShape(bodies: seq<Body>, b: nat, X: Mat)
    requires Model(bodies) && 0 < b < |bodies| && Carries(bodies, b, X)
    ensures IsMat(X, DIM, DIM)
  {
  }

  /** Joint k as first written, before any folding. */
  ghost predicate Entry(bodies: seq<Body>, b: nat, t: Joint)
    requires Model(bodies) && Moves(bodies, b)
  {
    Describes(bodies, b, t) && Carries(bodies, b, t.XT) && t.I == BodyInertia(bodies[b])
  }

  lemma EveryMoverListed(bodies: seq<Body>)
    requires Model(bodies)
    ensures forall b :: Moves(bodies, b) ==>
      Place(bodies, b) < |Moving(bodies, |bodies|)| && Moving(bodies, |bodies|)[Place(bodies, b)] == b
  {
    forall b | Moves(bodies, b)
      ensures Place(bodies, b) < |Moving(bodies, |bodies|)| && Moving(bodies, |bodies|)[Place(bodies, b)] == b
    {
      PlaceOf(bodies, b, |bodies|);
    }
  }

  /** The anchor of the k-th moving body comes earlier in the tree. */
  lemma AnchorBefore(bodies: seq<Body>, k: nat)
    requires Model(bodies) && k < |Moving(bodies, |bodies|)|
    ensures AnchorPlace(bodies, Moving(bodies, |bodies|)[k]) < k
  {
    var m := Moving(bodies, |bodies|);
    var a := Anchor(bodies, m[k]);
    if Moves(bodies, a) {
      PlaceOf(bodies, a, m[k]);
      PlaceOf(bodies, m[k], |bodies|);
      PlaceOf(bodies, a, |bodies|);
      assert m[Place(bodies, a)] == a < m[k];
    }
  }

  /** Equal in all but the inertia. */
  predicate Same(t: Joint, u: Joint) {
    t.(I := u.I) == u
  }

  /** Adds the inertia of every jointless body that hangs off a moving one into it. */
  method FoldFixedBodies(bodies: seq<Body>, idx: map<nat, nat>, unfolded: seq<Joint>) returns (tree: seq<Joint>)
    requires Model(bodies) && |unfolded| == Place(bodies, |bodies|) && Indexed(bodies, idx, |bodies|)
    requires forall k :: 0 <= k < |unfolded| ==> Entry(bodies, Moving(bodies, |bodies|)[k], unfolded[k])
    ensures |tree| == |unfolded|
    ensures forall k :: 0 <= k < |tree| ==> JointShape(tree[k]) && Same(tree[k], unfolded[k])
    ensures Conserves(bodies, tree, |bodies|)
    ensures PhysicalBodies(bodies) ==> DefiniteTree(tree)
  {
    hide Conserves, DefiniteTree, PhysicalBodies, Carries, MAdd, Mul, Transpose, BodyInertia, Describes, Place;
    tree := unfolded;
    UnfoldedConserves(bodies, tree);
    for b := 1 to |bodies|
      invariant |tree| == |unfolded|
      invariant forall k :: 0 <= k < |tree| ==> JointShape(tree[k]) && Same(tree[k], unfolded[k])
      invariant Conserves(bodies, tree, b)
      invariant PhysicalBodies(bodies) ==> DefiniteTree(tree)
    {
      if !bodies[b].joint.Fixed? {
        SkipMoving(bodies, tree, b);
      } else {
        var anc, X := Ancestor(bodies, idx, b);
        CarriesShape(bodies, b, X);
        assert BodyShape(bodies[b]);
        FoldStep(bodies, tree, b, X);
        ghost var folded := FoldedTree(bodies, tree, b, X);
        if anc >= 0 {
          assert JointShape(tree[anc]) && Same(tree[anc], unfolded[anc]);
          tree := tree[anc := tree[anc].(I := MAdd(tree[anc].I, Mul(Mul(Transpose(X, DIM, DIM), BodyInertia(bodies[b]), DIM), X, DIM)))];
        }
        assert tree == folded;
      }
    }
  }

  lemma UnfoldedConserves(bodies: seq<Body>, tree: seq<Joint>)
    requires Model(bodies) && |tree| == Place(bodies, |bodies|)
    requires forall k :: 0 <= k < |tree| ==> Entry(bodies, Moving(bodies, |bodies|)[k], tree[k])
    ensures Conserves(bodies, tree, 1)
    ensures PhysicalBodies(bodies) ==> DefiniteTree(tree)
  {
    forall v | Rigid(bodies, v)
      ensures TreeEnergy(tree, Moving(bodies, |bodies|), v, |tree|) == BodyEnergy(bodies, v, |bodies|, 1)
    {
      UnfoldedEnergy(bodies, tree, v, |bodies|);
    }
    if PhysicalBodies(bodies) {
      UnfoldedDefinite(bodies, tree);
    }
  }

  lemma SkipMoving(bodies: seq<Body>, tree: seq<Joint>, b: nat)
    requires Model(bodies) && 0 < b < |bodies| && !bodies[b].joint.Fixed? && Conserves(bodies, tree, b)
    ensures Conserves(bodies, tree, b + 1)
  {
    hide TreeEnergy, BodyEnergy;
    forall v | Rigid(bodies, v)
      ensures TreeEnergy(tree, Moving(bodies, |bodies|), v, |tree|) == BodyEnergy(bodies, v, |bodies|, b + 1)
    {
      FoldOneMore(bodies, v, |bodies|, b);
    }
  }

  /** The tree after body b has been folded into its anchor, if that moves. */
  function FoldedTree(bodies: seq<Body>, tree: seq<Joint>, b: nat, X: Mat): (t: seq<Joint>)
    requires Model(bodies) && 0 < b < |bodies| && BodyShape(bodies[b]) && IsMat(X, DIM, DIM)
    requires |tree| == Place(bodies, |bodies|) && forall k :: 0 <= k < |tree| ==> JointShape(tree[k])
    ensures |t| == |tree| && forall k :: 0 <= k < |t| ==> JointShape(t[k])
  {
    var anc := AnchorPlace(bodies, b);
    if 0 <= anc < |tree| then AddInertia(tree, anc, Folded(bodies[b], X)) else tree
  }

  lemma FoldStep(bodies: seq<Body>, tree: seq<Joint>, b: nat, X: Mat)
    requires Model(bodies) && 0 < b < |bodies| && bodies[b].joint.Fixed? && BodyShape(bodies[b])
    requires Conserves(bodies, tree, b) && Carries(bodies, b, X)
    requires |tree| == Place(bodies, |bodies|) && forall k :: 0 <= k < |tree| ==> JointShape(tree[k])
    requires IsMat(X, DIM, DIM)
    ensures Conserves(bodies, FoldedTree(bodies, tree, b, X), b + 1)
    ensures PhysicalBodies(bodies) && DefiniteTree(tree) ==> DefiniteTree(FoldedTree(bodies, tree, b, X))
    ensures AnchorPlace(bodies, b) < |tree|
  {
    hide TreeEnergy, BodyEnergy, Folded, AddInertia, Energy, Carries, BodyInertia, DefiniteTree, PhysicalBodies;
    EveryMoverListed(bodies);
    var anc := AnchorPlace(bodies, b);
    forall v | Rigid(bodies, v)
      ensures TreeEnergy(FoldedTree(bodies, tree, b, X), Moving(bodies, |bodies|), v, |tree|)
           == BodyEnergy(bodies, v, |bodies|, b + 1)
    {
      FoldOneMore(bodies, v, |bodies|, b);
      FoldEnergy(bodies, v, b, X);
      if anc >= 0 {
        TreeEnergyAdd(tree, Moving(bodies, |bodies|), v, |tree|, anc, Folded(bodies[b], X));
      }
    }
    if PhysicalBodies(bodies) && DefiniteTree(tree) && anc >= 0 {
      FoldDefinite(bodies, tree, b, anc, X);
    }
  }

  lemma UnfoldedDefinite(bodies: seq<Body>, tree: seq<Joint>)
    requires Model(bodies) && PhysicalBodies(bodies) && |tree| == Place(bodies, |bodies|)
    requires forall k :: 0 <= k < |tree| ==> Entry(bodies, Moving(bodies, |bodies|)[k], tree[k])
    ensures DefiniteTree(tree)
  {
    hide SpatialInertia, Symmetric, Definite, Carries, Describes;
    forall k | 0 <= k < |tree| ensures Symmetric(tree[k].I, DIM) && Definite(tree[k].I, DIM) {
      var b := bodies[Moving(bodies, |bodies|)[k]];
      Spatial.InertiaSymmetric(b.mass, b.com, b.ic);
      Spatial.InertiaDefinite(b.mass, b.com, b.ic);
    }
  }

  lemma FoldDefinite(bodies: seq<Body>, tree: seq<Joint>, b: nat, a: nat, X: Mat)
    requires Model(bodies) && PhysicalBodies(bodies) && 0 < b < |bodies| && bodies[b].joint.Fixed?
    requires a < |tree| && DefiniteTree(tree) && IsMat(X, DIM, DIM) && BodyShape(bodies[b])
    requires forall k :: 0 <= k < |tree| ==> JointShape(tree[k])
    ensures DefiniteTree(AddInertia(tree, a, Folded(bodies[b], X)))
  {
    hide SpatialInertia, Symmetric, Definite, SemiDefinite, Mul, Transpose, MAdd;
    var body := bodies[b];
    Spatial.InertiaSymmetric(body.mass, body.com, body.ic);
    Spatial.InertiaSemiDefinite(body.mass, body.com, body.ic);
    CongruenceSymmetric(X, BodyInertia(body), DIM);
    CongruenceSemiDefinite(X, BodyInertia(body), DIM);
    SumSymmetric(tree[a].I, Folded(body, X), DIM);
    SumDefinite(tree[a].I, Folded(body, X), DIM);
  }

  // ---------------------------------------------------------------- the energy of the whole model

  /** Twice the kinetic energy of the bodies 1 .. n - 1. */
  function TotalEnergy(bodies: seq<Body>, v: seq<Vec>, n: nat): real
    requires Model(bodies) && Rigid(bodies, v) && n <= |bodies|
  {
    if n <= 1 then 0.0 else TotalEnergy(bodies, v, n - 1) + Energy(BodyInertia(bodies[n - 1]), v[n - 1])
  }

  predicate AtMostOneJoint(bodies: seq<Body>) {
    forall b :: 0 < b < |bodies| ==> !bodies[b].joint.Several?
  }

  /** No body has negative energy, and one with several joints has some whenever it moves. */
  ghost predicate Weighs(bodies: seq<Body>)
    requires Model(bodies)
  {
    forall b {:trigger BodyInertia(bodies[b])} :: 0 < b < |bodies| ==>
      SemiDefinite(BodyInertia(bodies[b]), DIM) && (bodies[b].joint.Several? ==> Definite(BodyInertia(bodies[b]), DIM))
  }

  /** The tree has the energy of the whole model in this motion. */
  predicate Whole(bodies: seq<Body>, v: seq<Vec>)
    requires Model(bodies) && Rigid(bodies, v)
  {
    BodyEnergy(bodies, v, |bodies|, |bodies|) == TotalEnergy(bodies, v, |bodies|)
  }

  lemma ApplyZero(X: Mat)
    requires IsMat(X, DIM, DIM)
    ensures Apply(X, Zero(DIM)) == Zero(DIM)
  {
    forall i | 0 <= i < DIM ensures Apply(X, Zero(DIM))[i] == 0.0 {
      DotZero(DIM, X[i]);
    }
  }

  lemma RestingEnergy(I: Mat)
    requires IsMat(I, DIM, DIM)
    ensures Energy(I, Zero(DIM)) == 0.0
  {
    DotZero(DIM, Apply(I, Zero(DIM)));
  }

  lemma {:induction false} RideAtRest(bodies: seq<Body>, b: nat)
    requires Model(bodies) && 0 < b < |bodies|
    ensures Ride(bodies, b, Zero(DIM)) == Zero(DIM)
  {
    hide Apply;
    var p := bodies[b].parentId;
    assert BodyShape(bodies[b]);
    ApplyZero(bodies[b].X);
    if !Stops(bodies, p) {
      RideAtRest(bodies, p);
    }
  }

  lemma {:induction false} AllCounted(bodies: seq<Body>, v: seq<Vec>, n: nat)
    requires Model(bodies) && Rigid(bodies, v) && v[0] == Zero(DIM) && AtMostOneJoint(bodies) && n <= |bodies|
    ensures BodyEnergy(bodies, v, n, |bodies|) == TotalEnergy(bodies, v, n)
  {
    hide Energy, BodyInertia, Ride;
    if n > 1 {
      var b := n - 1;
      AllCounted(bodies, v, b);
      assert BodyShape(bodies[b]);
      if !Moves(bodies, b) && !Hangs(bodies, b) {
        RigidRide(bodies, v, b);
        RideAtRest(bodies, b);
        RestingEnergy(BodyInertia(bodies[b]));
      }
    }
  }

  /** Body s moves, and what hangs off it rides along; all else rests. */
  function Push(bodies: seq<Body>, s: nat, w: Vec): (v: seq<Vec>)
    requires Model(bodies) && 0 < s < |bodies| && |w| == DIM
    ensures |v| == |bodies| && forall i :: 0 <= i < |v| ==> |v[i]| == DIM
  {
    seq(|bodies|, i requires 0 <= i < |bodies| =>
      if i == s then w
      else if i > 0 && bodies[i].joint.Fixed? && Anchor(bodies, i) == s then Ride(bodies, i, w)
      else Zero(DIM))
  }

  lemma PushRigid(bodies: seq<Body>, s: nat, w: Vec)
    requires Model(bodies) && 0 < s < |bodies| && |w| == DIM && !bodies[s].joint.Fixed?
    ensures Rigid(bodies, Push(bodies, s, w)) && Push(bodies, s, w)[0] == Zero(DIM)
  {
    hide Apply;
    var v := Push(bodies, s, w);
    forall b | 0 < b < |bodies| && bodies[b].joint.Fixed? ensures v[b] == Apply(bodies[b].X, v[bodies[b].parentId]) {
      assert BodyShape(bodies[b]);
      ApplyZero(bodies[b].X);
    }
  }

  lemma {:induction false} PushCounted(bodies: seq<Body>, s: nat, w: Vec, n: nat)
    requires Model(bodies) && 0 < s < |bodies| && |w| == DIM && bodies[s].joint.Several? && Weighs(bodies) && n <= |bodies|
    requires Rigid(bodies, Push(bodies, s, w))
    ensures BodyEnergy(bodies, Push(bodies, s, w), n, |bodies|) == 0.0
    ensures TotalEnergy(bodies, Push(bodies, s, w), n) >= if n > s then Energy(BodyInertia(bodies[s]), w) else 0.0
  {
    hide BodyInertia, Definite, Ride;
    if n > 1 {
      var v, b := Push(bodies, s, w), n - 1;
      PushCounted(bodies, s, w, b);
      assert BodyShape(bodies[b]) && SemiDefinite(BodyInertia(bodies[b]), DIM);
      assert Energy(BodyInertia(bodies[b]), v[b]) >= 0.0;
      RestingEnergy(BodyInertia(bodies[b]));
    }
  }

  /**
   The tree keeps the energy of the whole model in every rigid motion over a resting world
   exactly when no body has several joints: such a body, and what hangs off it, is lost.
   */
  lemma WholeEnergyIff(bodies: seq<Body>)
    requires Model(bodies) && Weighs(bodies)
    ensures (forall v {:trigger Rigid(bodies, v)} :: Rigid(bodies, v) && v[0] == Zero(DIM) ==> Whole(bodies, v)) <==> AtMostOneJoint(bodies)
  {
    hide BodyInertia, Energy;
    if AtMostOneJoint(bodies) {
      forall v | Rigid(bodies, v) && v[0] == Zero(DIM) ensures Whole(bodies, v) {
        AllCounted(bodies, v, |bodies|);
      }
    } else {
      var s :| 0 < s < |bodies| && bodies[s].joint.Several?;
      var w: Vec := [1.0] + Zero(DIM - 1);
      assert w[0] != Zero(DIM)[0];
      PushRigid(bodies, s, w);
      PushCounted(bodies, s, w, |bodies|);
      PushWeighs(bodies, s, w);
      assert !Whole(bodies, Push(bodies, s, w));
    }
  }

  lemma PushWeighs(bodies: seq<Body>, s: nat, w: Vec)
    requires Model(bodies) && 0 < s < |bodies| && Weighs(bodies) && bodies[s].joint.Several? && |w| == DIM && w != Zero(DIM)
    ensures Energy(BodyInertia(bodies[s]), w) > 0.0
  {
    hide BodyInertia;
    assert Definite(BodyInertia(bodies[s]), DIM);
  }
}
