/**
 From a compiled MuJoCo model to forward dynamics: the tree extraction and the emitter
 composed. On a physical model no sweep divides by zero and the emitted accelerations are
 the one solution of the equations of motion.
 */
module Generate {
  import opened Linear
  import opened Spatial
  import opened Articulated
  import opened Dynamics
  import opened Wrappers
  import opened Robot
  import opened MujocoTree

  /** The links of a tree extracted from physical bodies are physical in every state. */
  lemma ExtractedIsPhysical(trig: Trig, bodies: seq<Body>, tree: seq<Joint>, armature: Vec, q: Vec, qd: Vec, tau: Vec)
    requires Model(bodies) && PhysicalBodies(bodies)
    requires RobotTree(tree) && DefiniteTree(tree) && |tree| == Place(bodies, |bodies|)
    requires forall k :: 0 <= k < |tree| ==> Describes(bodies, Moving(bodies, |bodies|)[k], tree[k])
    requires |armature| == |q| == |qd| == |tau| == |tree|
    requires forall k :: 0 <= k < |armature| ==> armature[k] >= 0.0
    ensures var L := Links(trig, tree, armature, q, qd, tau);
      SymmetricInertias(L) && PivotsNonzero(L)
  {
    hide Links, PivotsNonzero, Symmetric, Definite, Velocity, Xup, Coriolis, Gyroscopic, SpatialInertia;
    var L := Links(trig, tree, armature, q, qd, tau);
    forall j | 0 <= j < |L|
      ensures Symmetric(L[j].I, DIM) && Definite(L[j].I, DIM) && L[j].armature >= 0.0 && L[j].S != Zero(DIM)
    {
      LinkAt(trig, tree, armature, q, qd, tau, j);
      var b := Moving(bodies, |bodies|)[j];
      assert Moves(bodies, b) && Describes(bodies, b, tree[j]);
      AxisNonzero(bodies[b].joint.value.axis);
    }
    PivotsPositive(L);
  }

  lemma AxisNonzero(axis: Vec)
    requires |axis| == 3 && axis != Zero(3)
    ensures axis + Zero(3) != Zero(6) && Zero(3) + axis != Zero(6)
  {
    assert (axis + Zero(3))[..3] == axis && (Zero(3) + axis)[3..] == axis;
    assert Zero(6)[..3] == Zero(3) && Zero(6)[3..] == Zero(3);
  }

  /** The extracted tree and dx = [qd, qdd] of the state x = [q, qd] under u. */
  datatype Generated = Generated(tree: seq<Joint>, dx: Vec)

  method GenerateFromMujoco(trig: Trig, bodies: seq<Body>, gravity: Vec, armature: Vec, damping: Option<Vec>,
                            x: Vec, u: Vec)
    returns (r: Result<Generated>)
    requires Model(bodies) && PhysicalBodies(bodies) && |gravity| == 3
    requires |u| == |armature| == Place(bodies, |bodies|) && |x| == 2 * |u|
    requires damping.Some? ==> |damping.value| == |u|
    requires forall k :: 0 <= k < |armature| ==> armature[k] >= 0.0
    ensures r.Success? <==> forall b :: Moves(bodies, b) ==> InScope(bodies[b].joint.value)
    ensures r.Success? ==>
      var Generated(tree, dx) := r.value;
      && RobotTree(tree) && |tree| == |u| && Conserves(bodies, tree, |bodies|)
      && |dx| == |x| && dx[..|u|] == x[|u|..]
      && OnlyMotion(trig, Machine(tree, gravity, armature, damping), State(x[..|u|], x[|u|..], u), dx[|u|..])
  {
    hide Links, Conserves, PhysicalBodies, DefiniteTree, Describes, Carries, PivotsNonzero, ForwardDynamics,
         Place, Moving, OnlyMotion, BaseAcceleration, Torque;
    var extracted := ExtractTree(bodies);
    if extracted.Failure? {
      return Failure;
    }
    var tree := extracted.value;
    ghost var q, qd := x[..|u|], x[|u|..];
    ghost var tau := Torque(u, qd, damping);
    ExtractedIsPhysical(trig, bodies, tree, armature, q, qd, tau);
    var dx := EmitAba(trig, tree, gravity, Some(armature), damping, x, u);
    ForwardDynamicsMoves(trig, Machine(tree, gravity, armature, damping), State(q, qd, u));
    r := Success(Generated(tree, dx));
  }
}
