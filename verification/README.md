# Jaxility, modelled and proved

Jaxility compiles robot controllers and learned policies from JAX to embedded targets, and records
what it built in a hash chain. This project models the parts of it that can be wrong in ways no
single function shows, and proves what they are for. Arithmetic is over the reals.

| part | modules |
|---|---|
| vectors and matrices, spatial algebra | `Linear`, `Spatial` |
| articulated-body forward dynamics: theory, the tree emitter, the equations of motion, the serial chain, extraction from MuJoCo, the pipeline | `Articulated`, `Dynamics`, `Robot`, `Serial`, `MujocoTree`, `Generate` |
| jaxprs, their evaluator and typing rules, over rectangular grids | `Grids`, `Jaxpr`, `JaxprShapes` |
| the ONNX policy exporter: graphs and their meaning, what is emitted, what is accepted, meaning preserved, the builder | `OnnxGraph`, `OnnxEmit`, `OnnxCoverage`, `OnnxMeaning`, `OnnxBuilder` |
| the CasADi translator: handlers and walk, what is accepted, meaning preserved, exactness of the fragment | `Casadi`, `CasadiCoverage`, `CasadiMeaning`, `CasadiExact` |
| JSON text and its parser, canonical serialisation | `Decimal`, `Json`, `Canonical` |
| manifests, verification, attestation; the write-once artifact cache | `Chain`, `Cache` |
| the C runtime: machine words, bump arena, control cycle | `Words`, `Arena`, `Cycle` |
| composition plans and the arbiter, the embedded policy, the emitted dual-path loop | `Composition`, `DualPath`, `DualLoop` |
| cost collapse of weighted tasks; the trace printer and its strict parser | `Cost`, `Trace` |

Code that works step by step is an imperative method, proved equal to a specification; the
theorems are about the specification.

## How to read the main results

- **Dynamics.** `Articulated` takes arbitrary transforms, axes, velocity products and biases.
  `NewtonEuler` is the reference; the sweeps solve it (`ForwardSolves`), nothing else does
  (`ForwardUnique`), and on physical links no pivot is zero (`PivotsPositive`). `EmitAba` and
  `ManipulatorOde` are the list-updating sweeps. `Robot.EquationsOfMotion` says what they solve in
  cross products, rotations and translations. `GenerateFromMujoco` composes extraction and sweeps.
- **Exporters.** A jaxpr is an inductive program with nested calls. Both exporters are partial, and
  take exactly the programs that `OnnxCoverage.Covered` and `CasadiCoverage.Accepted` describe. The
  conditions under which meaning is preserved are static (`OnnxMeaning.Standard`,
  `CasadiMeaning.Fragment`), and `MatMulExact`, `ReshapeExact` and `FragmentIsExact` show, primitive
  by primitive, that they are the weakest ones on shapes.
- **Hash chain.** Canonical text decides `Alike`, equality as the serialiser sees it, because a parser
  undoes the printer. The digest is any function: what is proved about hashes names the collisions
  that would break it, and asks of the digest at most its length.
- **Cache.** Stores and loads are interleaved steps, among steps of an outsider who may write or
  remove any file at any time.
- **Runtime.** The clock and the sleeps of the control cycle are an arbitrary script, the words are
  64 bits wide, and the counters of a run are a function of its trace. What is assumed of a sleep is
  that it lasts as long as it was asked to.

## Where the code does not do what it says

- A matrix contracted along its *first* axis is exported as a plain `MatMul`
  (jaxility/policy/onnx_export.py:200): right only in the sizes of `OnnxGraph.MatMulExact`. A requested
  extent 0 in a reshape means "copy the operand's extent" to ONNX: `OnnxGraph.ReshapeExact`.
- The CasADi translator reshapes in column-major order, ignores which axis the second operand of a
  contraction contracts, gives a row for vector times matrix, tiles an operand of extent 1 only
  partly in `broadcast_in_dim`, and keeps a squeezed row a row: `CasadiExact.FragmentIsExact`. It
  leaves an inner program's constants unbound. That does no harm when none of them is named like a
  variable of the surroundings (`CasadiMeaning.TranslateMeansProgram`); otherwise it may
  (`CasadiMeaning.InnerConstShadowed`).
- `canonical_dumps` promises one text for equal values, and hashes need different texts for different
  ones. A float has the text of its string and bytes that of their wrapper dict, `1`, `True` and
  `1.0`, equal in Python, have three texts (`Canonical.AmbiguousTexts`), and keys that share a label
  make the text depend on insertion order (`Canonical.DictOrderIrrelevant`). Two values have one
  text exactly when they are `Alike`: `Canonical.DumpsDecides`. Hex fields are read without regard
  to case (`Canonical.FromHexCollides`).
- A store that dies between creating its directory and completing the metadata leaves an entry that
  can be neither stored again nor loaded. That, and nothing else, makes an untampered entry unusable:
  `Cache.EntryFate`, `Cache.BlockedForever`.
- The documented atomicity of `store` covers competing stores only: a load that overlaps a store may
  raise (`Cache.OverlappingLoadRaises`), exactly as `Cache.LoadRaisesWhen` says; one begun later does
  not (`Cache.StoredLoadsBack`).
- A second `jx_cycle_run` without a new init starts at the old tick count with a new start time. Its
  first tick begins early (`Cycle.NeverEarlyIff`), and the loop then stalls until the deadline of the
  next tick, as many periods later as ticks had run before (`Cycle.SecondRunStalls`).
- The dual-path generator ignores the plan's mode (`DualLoop.ModeMatters`). The emitted loop runs the
  policy at every cycle; the plan's own schedule does exactly when the two periods are equal
  (`Composition.AlwaysDueIff`).
- `_combine_tasks` gives a component whose weights cancel or sum to a negative number the tiny
  weight or reference 0 of an unweighted one; `Cost.CollapsibleIff` says exactly when the collapse is
  right. Nonnegative weights, which the documentation implies and no validator requires, suffice.
- A MuJoCo body with several joints is neither in the tree nor folded, and what hangs off it counts
  as fixed to the base: `MujocoTree.WholeEnergyIff`.

## Model

| member | source | states |
|---|---|---|
| `Dynamics.EmitAba` | jaxility/lowering/pinocchio_rbd.py:414-485 | dx is [qd, qdd] with qdd the forward dynamics of the tree at that state and torque, whenever no pivot is zero; missing armature counts as zero and missing damping leaves the torque as it is |
| `Dynamics.Transforms` | jaxility/lowering/pinocchio_rbd.py:437-444 | the transform of every joint, by kind, from its angle or displacement |
| `Dynamics.VelocitySweep` | jaxility/lowering/pinocchio_rbd.py:446-456 | pass 1 leaves at every joint the Coriolis acceleration and gyroscopic bias of the recursively defined link velocity |
| `Dynamics.InertiaSweep` | jaxility/lowering/pinocchio_rbd.py:458-471 | pass 2, updating the lists in place, records the thrust, pivot and drive of every articulated inertia and bias |
| `Dynamics.AccelerationSweep` | jaxility/lowering/pinocchio_rbd.py:473-481 | pass 3 computes the accelerations the sweeps define |
| `Dynamics.SweepStep` | jaxility/lowering/pinocchio_rbd.py:462-471 | one step of pass 2 keeps every slot equal to the articulated inertia and bias accumulated so far |
| `Articulated.ForwardSolves` | jaxility/lowering/pinocchio_rbd.py:446-485 | for every tree with symmetric inertias and nonzero pivots the computed accelerations satisfy the recursive Newton-Euler equations |
| `Articulated.ForwardUnique` | jaxility/lowering/pinocchio_rbd.py:446-485 | any accelerations, forces and joint accelerations that satisfy them are the computed ones |
| `Articulated.NetForceAffine` | jaxility/lowering/pinocchio_rbd.py:458-471 | the sweep invariant: the net force at a joint is its current inertia slot times its acceleration plus its bias slot |
| `Articulated.TorqueIffJointEquation` | jaxility/lowering/pinocchio_rbd.py:463-480 | with that invariant, torque balance at a joint is equivalent to the scalar equation pass 3 solves |
| `Articulated.Transmit` | jaxility/lowering/pinocchio_rbd.py:467-471 | what a solved joint passes to its parent is affine in the parent's acceleration, with exactly the carried inertia and bias |
| `Articulated.InertiaSymmetric` | jaxility/lowering/pinocchio_rbd.py:458-471 | symmetry of every articulated inertia survives pass 2 |
| `Articulated.ReducedSemiDefinite` | jaxility/lowering/pinocchio_rbd.py:463-468 | for a definite inertia the pivot is positive and the Schur complement is semidefinite |
| `Articulated.PivotsPositive` | jaxility/lowering/pinocchio_rbd.py:458-471 | on physical links every articulated inertia stays symmetric positive definite and every pivot positive, so nothing divides by zero |
| `Linear.CauchySchwarz` | jaxility/lowering/pinocchio_rbd.py:463-468 | the inequality behind the Schur complement, for any symmetric semidefinite form |
| `Spatial.SkewCross` | jaxility/lowering/pinocchio_rbd.py:181-182 | the skew matrix takes the cross product, its transpose the one the other way round |
| `Spatial.InertiaMomentum` | jaxility/lowering/pinocchio_rbd.py:195-199 | a spatial inertia takes a motion to its momentum: that of the centre of mass, and about the origin |
| `Spatial.InertiaForm` | jaxility/lowering/pinocchio_rbd.py:195-199 | the kinetic form of a spatial inertia splits into rotation and the speed v + w x c of the centre of mass |
| `Spatial.InertiaSymmetric` | jaxility/lowering/pinocchio_rbd.py:195-199 | a symmetric rotational part gives a symmetric spatial inertia |
| `Spatial.InertiaDefinite` | jaxility/lowering/pinocchio_rbd.py:195-199 | positive mass and definite rotational inertia give a definite spatial inertia |
| `Robot.SweptBiases` | jaxility/lowering/pinocchio_rbd.py:232-236 | the velocity product is the motion cross product of v with S qd, the bias force the force cross product of v with I v |
| `Robot.RotAxisTurns` | jaxility/lowering/pinocchio_rbd.py:219-229 | the rotation matrix turns vectors by Rodrigues' formula |
| `Robot.XupSees` | jaxility/lowering/pinocchio_rbd.py:437-444 | a joint transform turns a motion back by the joint angle, or moves its origin along the axis |
| `Robot.FeltWorks` | jaxility/lowering/pinocchio_rbd.py:470-471 | a wrench passed to the parent does the same work on every motion of the parent |
| `Robot.EquationsDecide` | jaxility/lowering/pinocchio_rbd.py:432-481 | the equations of motion, written with cross products only, hold exactly of the recursive velocities and the solutions of the links' Newton-Euler equations |
| `Robot.ForwardDynamicsMoves` | jaxility/lowering/pinocchio_rbd.py:414-485 | what the sweeps compute is the one solution of the equations of motion, gravity, armature and damping included |
| `Serial.ManipulatorOde` | jaxility/zoo/so100/_dynamics.py:135-196 | the chain dynamics are the forward dynamics of its links under vertical gravity, and for physical links the one solution of the equations of motion |
| `Serial.ChainVelocities` | jaxility/zoo/so100/_dynamics.py:152-172 | its first loop computes the velocity products and biases of the path tree |
| `Serial.ChainInertias` | jaxility/zoo/so100/_dynamics.py:173-184 | its second loop, with the predecessor for a parent, records what pass 2 records on the path tree |
| `Serial.ChainAccelerations` | jaxility/zoo/so100/_dynamics.py:185-194 | its third loop computes the accelerations of the path tree |
| `Serial.CompareOnChain` | jaxility/zoo/so100/_dynamics.py:152-194 | for every chain, state and torque the chain dynamics equal the general dynamics on the path tree without armature and damping |
| `Serial.ChainNeverDividesByZero` | jaxility/zoo/so100/_dynamics.py:115-119 | on a chain of physical links no pivot is zero in any state |
| `Serial.ChainMoves` | jaxility/zoo/so100/_dynamics.py:135-196 | the forward dynamics of a physical chain are the one solution of its equations of motion |
| `MujocoTree.Ancestor` | jaxility/lowering/pinocchio_rbd.py:355-362 | the climb returns the tree index of the nearest ancestor with a joint, -1 for the world or several joints, and the transform that carries its velocity to the body |
| `MujocoTree.ListMoving` | jaxility/lowering/pinocchio_rbd.py:352-353 | the moving bodies in order, and their places |
| `MujocoTree.WriteEntries` | jaxility/lowering/pinocchio_rbd.py:364-394 | one entry per moving body, or failure exactly when some joint is out of scope |
| `MujocoTree.FoldFixedBodies` | jaxility/lowering/pinocchio_rbd.py:396-403 | folding conserves the kinetic energy of the bodies that hang off tree bodies, in every rigid motion, and keeps definite inertias definite |
| `MujocoTree.FoldEnergy` | jaxility/lowering/pinocchio_rbd.py:396-403 | the folded inertia of a jointless body has exactly that body's energy at its anchor's velocity |
| `MujocoTree.ExtractTree` | jaxility/lowering/pinocchio_rbd.py:331-405 | the extracted tree has parent index below child index, describes the bodies with one joint, and has the kinetic energy of these and of what hangs off them; it fails exactly on out-of-scope joints |
| `MujocoTree.WholeEnergyIff` | jaxility/lowering/pinocchio_rbd.py:352-403 | the tree keeps the energy of the whole model in every rigid motion exactly when no body has several joints |
| `Generate.GenerateFromMujoco` | jaxility/lowering/pinocchio_rbd.py:553-599 | for physical bodies the whole pipeline returns the one solution of the equations of motion of the extracted tree |
| `Generate.ExtractedIsPhysical` | jaxility/lowering/pinocchio_rbd.py:331-405 | the tree extracted from physical bodies meets the hypotheses of both theorems in every state |
| `OnnxBuilder.Builder.constructor` | jaxility/policy/onnx_export.py:94-98 | the builder starts empty |
| `OnnxBuilder.Builder.Fresh` | jaxility/policy/onnx_export.py:100-102 | bumps the counter and returns the stem with it |
| `OnnxBuilder.Builder.Const` | jaxility/policy/onnx_export.py:104-108 | appends one initializer under a fresh name |
| `OnnxBuilder.Builder.Append` | jaxility/policy/onnx_export.py:110-121 | appends one node with a fresh output name |
| `OnnxBuilder.Builder.Dispatch` | jaxility/policy/onnx_export.py:140-230 | every handler, and the coverage errors |
| `OnnxBuilder.Builder.Name` | jaxility/policy/onnx_export.py:255-260 | a literal becomes an initializer, a variable its bound name |
| `OnnxBuilder.Builder.BindParams` | jaxility/policy/onnx_export.py:270-271 | the constants of a program become initializers |
| `OnnxBuilder.Builder.WalkOne` | jaxility/policy/onnx_export.py:272-313 | one equation: a transparent call recurses in a copy of the environment, and a literal output of its body is a failure |
| `OnnxBuilder.Builder.Walk` | jaxility/policy/onnx_export.py:263-313 | the walk emits what the recursive description of it says |
| `OnnxBuilder.Builder.Tie` | jaxility/policy/onnx_export.py:367-380 | every graph output is tied by an identity node to the tensor that carries it |
| `OnnxBuilder.ExportPolicy` | jaxility/policy/onnx_export.py:316-403 | succeeds exactly on covered programs; the exported graph is single-assignment, topologically sorted, and computes what the program computes |
| `OnnxEmit.SplitFresh` | jaxility/policy/onnx_export.py:100-102 | a generated name can be taken apart into stem and counter, so generated names never collide |
| `OnnxEmit.LowerIs` | jaxility/policy/onnx_export.py:110-116 | the stem of a node's output is the operator's name in lower case |
| `OnnxEmit.AddInitGood` | jaxility/policy/onnx_export.py:104-108 | adding an initializer keeps all names distinct and reads backward |
| `OnnxEmit.AddNodeGood` | jaxility/policy/onnx_export.py:110-121 | so does adding a node that reads known names |
| `OnnxEmit.HandleGood` | jaxility/policy/onnx_export.py:140-230 | so does every handler |
| `OnnxEmit.WalkGood` | jaxility/policy/onnx_export.py:263-313 | so does a walk of any depth |
| `OnnxEmit.InputsApart` | jaxility/policy/onnx_export.py:353-365 | input and output names collide neither with each other nor with generated names, whatever the graph is called |
| `OnnxEmit.ExportValid` | jaxility/policy/onnx_export.py:348-387 | every exported graph is in single-assignment form and topologically sorted |
| `OnnxCoverage.HandleCovers` | jaxility/policy/onnx_export.py:125-230 | a primitive is handled exactly when it is registered, has its operands, and, for contractions, is unbatched along axis 0 of the right operand |
| `OnnxCoverage.ExportCovers` | jaxility/policy/onnx_export.py:245-313 | export succeeds exactly when every variable is in scope where it is read, every primitive is covered, and no called body returns a literal |
| `OnnxGraph.MatMulIsDot` | jaxility/policy/onnx_export.py:193-212 | MatMul is dot_general when the left operand, of any rank, contracts its last axis with a matrix or a vector |
| `OnnxGraph.MatMulExact` | jaxility/policy/onnx_export.py:193-212 | for a matrix contracted along its first axis, which the exporter also accepts, MatMul is right on all operands exactly when the matrix is square and at most 1 by 1, or all products are empty |
| `OnnxGraph.ReshapeExact` | jaxility/policy/onnx_export.py:223-233 | the emitted Reshape is right exactly when every requested extent 0 is one the operand has |
| `OnnxGraph.PowIsIntegerPow` | jaxility/policy/onnx_export.py:184-190 | Pow with a constant exponent is the integer power |
| `OnnxMeaning.HandleMeans` | jaxility/policy/onnx_export.py:140-230 | running the nodes a handler emits gives the primitive's value, and changes no other name |
| `OnnxMeaning.WalkEqnMeans` | jaxility/policy/onnx_export.py:272-313 | after each equation every bound variable's name carries its value, through nested calls |
| `OnnxMeaning.WalkMeans` | jaxility/policy/onnx_export.py:263-313 | so after a whole program |
| `OnnxMeaning.ExportMeansProgram` | jaxility/policy/onnx_export.py:316-403 | for every nested program the exporter accepts, running the flat graph gives what evaluating the program gives |
| `Decimal.NumberOfNumeral` | jaxility/policy/onnx_export.py:100-102 | a decimal numeral stands for its number, so counters are told apart |
| `Casadi.TranslateList` | jaxility/lowering/jax_to_casadi.py:560-630 | the equation loop threads the environment as the recursive description says |
| `Casadi.TranslateOne` | jaxility/lowering/jax_to_casadi.py:509-527 | one equation or one jit, whose body runs in a copy of the environment |
| `CasadiCoverage.HandleAccepts` | jaxility/lowering/jax_to_casadi.py:120-506 | a handler succeeds exactly on the listed primitives, forms and operand sizes, with a result of the size foreseen |
| `CasadiCoverage.TranslateAccepts` | jaxility/lowering/jax_to_casadi.py:509-792 | translation succeeds exactly on a static predicate: every variable in scope, every primitive registered and in a handled form for operands of these sizes, selects decided, pjit and jit the only calls |
| `CasadiMeaning.ReconcileMeans` | jaxility/lowering/jax_to_casadi.py:145-164 | repmat to a common shape is numpy broadcasting of the 2-D forms |
| `CasadiMeaning.ArithMeans` | jaxility/lowering/jax_to_casadi.py:167-188 | entrywise handlers hold the value of their primitive |
| `CasadiMeaning.IntegerPowMeans` | jaxility/lowering/jax_to_casadi.py:196-203 | squares and cubes multiplied out, other powers left to pow, hold the integer power |
| `CasadiMeaning.BroadcastMeans` | jaxility/lowering/jax_to_casadi.py:243-296 | broadcast_in_dim holds its value when a vector's extent is that of the axis it maps to |
| `CasadiMeaning.DotMeans` | jaxility/lowering/jax_to_casadi.py:373-402 | dot_general holds its value in the stated cases, scalars times matrices included |
| `CasadiMeaning.ReshapeMeans` | jaxility/lowering/jax_to_casadi.py:334-350 | reshape holds its value when row-major and column-major orders agree |
| `CasadiMeaning.SqueezeMeans` | jaxility/lowering/jax_to_casadi.py:299-304 | squeeze by passing through holds its value unless a row is squeezed to a vector |
| `CasadiMeaning.ConcatenateMeans` | jaxility/lowering/jax_to_casadi.py:314-331 | vertcat and horzcat hold the concatenation |
| `CasadiMeaning.TransposeMeans` | jaxility/lowering/jax_to_casadi.py:353-369 | transpose holds its value |
| `CasadiMeaning.SliceMeans` | jaxility/lowering/jax_to_casadi.py:406-429 | slices of one or two indices hold their value |
| `CasadiMeaning.HandleMeans` | jaxility/lowering/jax_to_casadi.py:483-506 | every handler of the fragment, static select included, holds the primitive's value |
| `CasadiMeaning.TranslateEqnMeans` | jaxility/lowering/jax_to_casadi.py:509-630 | each equation keeps every bound variable holding the 2-D form of its value; unbound inner constants do no harm |
| `CasadiMeaning.TranslateMeansProgram` | jaxility/lowering/jax_to_casadi.py:659-792 | the translated function, outputs reshaped as on call, equals the source program on all inputs of the traced shapes |
| `CasadiMeaning.TranslateProgram` | jaxility/lowering/jax_to_casadi.py:659-792 | the translator from end to end: it takes exactly the accepted programs, and the translated function equals the source program |
| `CasadiMeaning.InnerConstShadowed` | jaxility/lowering/jax_to_casadi.py:509-527 | a program whose inner constant shares its name with an argument is translated to the argument |
| `CasadiMeaning.RestoreForm` | jaxility/lowering/jax_to_casadi.py:97-115 | reshaping a 2-D form to the program's output shape restores the array |
| `CasadiExact.FragmentIsExact` | jaxility/lowering/jax_to_casadi.py:243-429 | a typed and accepted primitive is translated correctly on all operands exactly when it lies in the fragment |
| `CasadiExact.OutsideWrong` | jaxility/lowering/jax_to_casadi.py:243-402 | outside the fragment there are operands on which the translation is wrong |
| `CasadiExact.OrdersDiffer` | jaxility/lowering/jax_to_casadi.py:335-343 | one entry tells column-major from row-major reshape whenever the shapes do not make them agree |
| `CasadiExact.TransposeMatters` | jaxility/lowering/jax_to_casadi.py:397-402 | ignoring the second operand's contracted axis changes the product of some square operand |
| `Json.ParseRender` | jaxility/manifest/canonical.py:131-137 | the text of a tree, compact or spaced, followed by anything that cannot extend it, parses back to the tree and leaves the rest |
| `Json.ParseQuoted` | jaxility/manifest/canonical.py:131-137 | quoted strings, with their escapes, parse back |
| `Json.PrintInjective` | jaxility/manifest/canonical.py:131-137 | canonical text determines the tree |
| `Json.EscapeShort` | jaxility/manifest/canonical.py:131-137 | characters stand for themselves unless they must be escaped, in two characters where there are two for it, else in four lower-case hex digits |
| `Json.CompactTight` | jaxility/manifest/canonical.py:131-137 | compact text has no white space but what strings bring with them |
| `Json.TruncatedObject` | jaxility/hil/trace.py:126-136 | no proper prefix of an object's text is a JSON text |
| `Canonical.ObjectHolds` | jaxility/manifest/canonical.py:85-90 | a coerced dict is strictly sorted by label and holds the last value given for each |
| `Canonical.CoerceSorted` | jaxility/manifest/canonical.py:57-97 | objects are sorted without repeated keys at every depth, so sort_keys changes nothing |
| `Canonical.CoerceLexical` | jaxility/manifest/canonical.py:70-78 | coerced values contain no floating-point numbers |
| `Canonical.ReorderInvariant` | jaxility/manifest/canonical.py:57-97 | reordering dict insertion at any depth leaves the canonical form unchanged when labels are distinct |
| `Canonical.DictOrderIrrelevant` | jaxility/manifest/canonical.py:85-90 | a dict has one canonical form in all insertion orders exactly when keys with one label carry values with one canonical form |
| `Canonical.DumpsDecidesSame` | jaxility/manifest/canonical.py:100-137 | unambiguous values have one canonical text exactly when they are equal up to insertion order |
| `Canonical.DumpsDecides` | jaxility/manifest/canonical.py:57-137 | any two encodable values have one canonical text exactly when they are alike: floats as their decimals, bytes as their wrapper dicts, keys as their labels, the last item of a label counting |
| `Canonical.DumpsDecodes` | jaxility/manifest/canonical.py:57-137 | canonical text is read back: to a value alike, and to the same value if that is unambiguous |
| `Canonical.DumpsEncodes` | jaxility/manifest/canonical.py:57-97 | exactly None, booleans, integers, finite floats, strings, bytes, and lists and dicts of these have a canonical text |
| `Canonical.KeysInOrder` | jaxility/manifest/canonical.py:85-90 | the keys of a canonical dict stand in code point order: the first difference decides, a proper prefix comes first |
| `Canonical.AmbiguousTexts` | jaxility/manifest/canonical.py:66-82 | a float shares its text with its string, bytes with their wrapper dict, while 1, True and 1.0 have three different texts |
| `Canonical.RecordsDecide` | jaxility/manifest/canonical.py:100-137 | records of one schema have one text exactly when they agree field by field |
| `Canonical.FromHexOfHex` | jaxility/manifest/models.py:52-92 | hex decodes to the bytes it was written from |
| `Canonical.FromHexAccepts` | jaxility/manifest/models.py:67-79 | exactly the bare hex strings of even length are accepted |
| `Canonical.FromHexCollides` | jaxility/manifest/models.py:48-79 | two accepted strings decode to the same bytes exactly when they differ in case only |
| `Chain.ChainTextDecides` | jaxility/manifest/models.py:181-198 | two manifests have one canonical text exactly when the five chain fields agree, the toolchain as a dict |
| `Chain.ChainTextHolds` | jaxility/manifest/models.py:181-198 | that text is an object with exactly the five chain fields, under their names |
| `Chain.ContentHashDecides` | jaxility/manifest/models.py:104-111 | two manifests have one content hash exactly when the five chain fields agree, the toolchain as a dict, or their canonical texts collide |
| `Chain.TimestampIrrelevant` | jaxility/manifest/models.py:181-198 | the timestamp enters neither the content hash nor any verdict |
| `Chain.VerifyAgainstRegistered` | jaxility/manifest/verify.py:114-226 | against a registered hash the verdict is ok exactly for version-0 unsigned manifests with a known signer identity that agree on the chain or collide |
| `Chain.TamperingDetected` | jaxility/manifest/verify.py:165-181 | no signer makes the verdict ok for a manifest that differs from the registered one on the chain, unless the two texts collide |
| `Chain.DetectingDigest` | jaxility/manifest/verify.py:163-176 | some digest of 32 bytes has no such collision for given manifests |
| `Chain.VerifyMeans` | jaxility/manifest/verify.py:82-226 | for any expected hash and signer, or none: the verdict is ok exactly when the version is 0, the expected hash is the content hash, and the signer is known and accepts; and what every field of the report holds |
| `Chain.PlanTextDecides` | jaxility/compose/attest.py:58-60 | the canonical text of a plan, and so its hash but for a collision, determines the whole plan |
| `Chain.PlanTextHolds` | jaxility/compose/attest.py:58-60 | that text holds every field of the plan and of its envelope under its name |
| `Chain.AttestationDecides` | jaxility/compose/attest.py:43-61 | two dual-path attestations have one hash exactly when controller chain, policy bytes and plan are equal, or some pair of their texts or bytes collides |
| `Chain.AttestationTextHolds` | jaxility/compose/attest.py:43-61 | the text an attestation is hashed from holds version 0, the manifest's hash, the digest of the policy bytes and the plan's hash |
| `Cache.ReturnedIsGenuine` | jaxility/manifest/artifact.py:232-272 | under any interleaving and tampering every load that returns yields a payload hashing to the requested hash |
| `Cache.ReturnedPayload` | jaxility/manifest/artifact.py:125-135 | that is the payload of any genuine artifact of that hash, or collides with it |
| `Cache.OneStorePerRemoval` | jaxility/manifest/artifact.py:210-219 | stores that pass directory creation number at most the removals, plus one if the entry is there |
| `Cache.StoreOnce` | jaxility/manifest/artifact.py:196-230 | without removals no two stores of one hash succeed |
| `Cache.RunOwned` | jaxility/manifest/artifact.py:210-230 | an entry nobody tampers with has one owner and is always as the owner left it |
| `Cache.UntouchedLoad` | jaxility/manifest/artifact.py:232-272 | a load of such an entry returns the stored artifact or raises |
| `Cache.CompletedLoadsBack` | jaxility/manifest/artifact.py:248-272 | a load begun after completion never raises, and after its three steps has returned the stored artifact |
| `Cache.StoredLoadsBack` | jaxility/manifest/artifact.py:248-272 | so in every run from an empty cache that leaves the entry alone |
| `Cache.LoadRaisesWhen` | jaxility/manifest/artifact.py:248-272 | the next step of a load of an untampered entry raises exactly when it is the first and the metadata file is not there, or the second and the store is not complete |
| `Cache.OverlappingLoadRaises` | jaxility/manifest/artifact.py:229-254 | a load that overlaps a store raises on metadata that do not parse yet |
| `Cache.BlockedForever` | jaxility/manifest/artifact.py:210-230 | an entry without readable metadata on which no store is at work refuses every store and every load until someone intervenes |
| `Cache.EntryFate` | jaxility/manifest/artifact.py:210-272 | once no store is at work an untampered entry is so blocked exactly when a store that had made its directory died; otherwise it can be stored, or what was stored can be loaded |
| `Cache.DyingBlocks` | jaxility/manifest/artifact.py:210-220 | a store that dies after any of its first four steps blocks its entry |
| `Cache.LoadAloneReturns` | jaxility/manifest/artifact.py:248-272 | an undisturbed load returns exactly the artifact whose entry is there, genuine, of that hash, with its payload or a colliding one |
| `Cache.ArtifactCache.Store` | jaxility/manifest/artifact.py:196-230 | an existing entry is refused and left alone, a new one is complete |
| `Cache.ArtifactCache.Load` | jaxility/manifest/artifact.py:232-272 | what three undisturbed steps return |
| `Cache.ArtifactCache.Has` | jaxility/manifest/artifact.py:274-276 | whether metadata exists; if not, every load raises |
| `Words.PowersOfTwo` | runtime-c/src/arena.c:18-20 | the bit trick holds exactly of the powers of two |
| `Words.MaskRounds` | runtime-c/src/arena.c:22-28 | clearing low bits rounds down to a multiple |
| `Words.AlignUpIs` | runtime-c/src/arena.c:22-28 | mask alignment of a word is the least multiple above it, or 0 when that does not fit in a word |
| `Arena.AlignedUsedIs` | runtime-c/src/arena.c:55-56 | the wrapped difference is the least aligned offset, or at least the capacity when no aligned address lies in the slab |
| `Arena.FirstFit` | runtime-c/src/arena.c:57-63 | the capacity check accepts exactly when an aligned block fits, and the offset is then the first |
| `Arena.Init` | runtime-c/src/arena.c:30-38 | null arena, null slab and empty slab are errors; otherwise the arena is valid and empty |
| `Arena.AllocAligned` | runtime-c/src/arena.c:44-67 | fails exactly on invalid arguments or when no aligned block fits the tail; otherwise returns the first that fits, keeping all blocks safe |
| `Arena.Alloc` | runtime-c/src/arena.c:40-42 | the same at the default alignment |
| `Arena.Reset` | runtime-c/src/arena.c:69-73 | rewinds to the whole slab |
| `Arena.Available` | runtime-c/src/arena.c:75-80 | the largest size that still fits without alignment |
| `Arena.AlwaysSafe` | runtime-c/src/arena.c:44-73 | after any allocations and resets the blocks since the last reset are in bounds, aligned and disjoint |
| `Arena.ApartMeans` | runtime-c/src/arena.c:55-66 | blocks are disjoint exactly when no address is in both |
| `Arena.Perform` | runtime-c/src/arena.c:44-73 | the machine allocator takes exactly the steps of that sequence |
| `Cycle.SleepUntil` | runtime-c/src/cycle_posix.c:50-67 | how the sleep loop ends, and which sleeps it asks for |
| `Cycle.RequestsAreRests` | runtime-c/src/cycle_posix.c:58-64 | each of them is a legal timespec for exactly the time left |
| `Cycle.Init` | runtime-c/src/cycle_posix.c:69-86 | configuration errors, and fresh counters otherwise |
| `Cycle.Measure` | runtime-c/src/cycle_posix.c:96-124 | the word arithmetic of one tick's measurements |
| `Cycle.RunCycle` | runtime-c/src/cycle_posix.c:88-135 | runs exactly the ticks before a stop or nonzero code, asks for the sleeps to the next deadline after each, and its counters are counts, sums and maxima over the trace |
| `Cycle.OverrunsCounted` | runtime-c/src/cycle_posix.c:125-127 | the overrun counter is the number of ticks that ended after their target |
| `Cycle.Stop` | runtime-c/src/cycle_posix.c:137-141 | sets the flag and nothing else |
| `Cycle.NeverEarlyAfterFirst` | runtime-c/src/cycle_posix.c:88-134 | if sleeps that report success last as long as they were asked to, no later tick of a run begins before it is due |
| `Cycle.NeverEarlyIff` | runtime-c/src/cycle_posix.c:93-113 | ticks never begin early in any legal run exactly when the run starts at tick 0 |
| `Cycle.SecondRunStalls` | runtime-c/src/cycle_posix.c:88-134 | on a second run the first tick may be early by up to its number of periods, which counts as jitter, and the second waits that much longer |
| `Cycle.FreshJitterIsLateness` | runtime-c/src/cycle_posix.c:102-113 | on a fresh run jitter is lateness: the early branch is never taken |
| `Cycle.LatenessStep` | runtime-c/src/cycle_posix.c:88-134 | one tick's lateness bounds the next one's |
| `Cycle.CatchesUp` | runtime-c/src/cycle_posix.c:88-134 | after any delay, within the delay over the spare time of a period, rounded up, lateness is at most the wake-up latency, and stays so |
| `Cycle.NoOverrunsAfterCatchUp` | runtime-c/src/cycle_posix.c:125-127 | from then on no tick overruns if a body begun that late still fits its period |
| `Composition.ClipNearest` | jaxility/compose/plan.py:88-92 | a clipped value is the nearest one within the limits |
| `Composition.ArbitrateMeaning` | jaxility/compose/plan.py:149-205 | every command lies in the box; the reason names the first fallback condition that holds; the flag says, on the dual path only, whether it was clamped |
| `Composition.AlwaysDueIff` | jaxility/compose/plan.py:126-133 | the policy is due at every cycle exactly when the two periods are equal |
| `DualPath.FromFlax` | jaxility/compose/codegen.py:49-97 | succeeds exactly when input widths are distinct and all modules form one chain, and returns that chain with tanh on all but the last layer |
| `DualPath.OrderUnique` | jaxility/compose/codegen.py:53-59 | there is at most one such chain |
| `DualPath.ActivatedChained` | jaxility/compose/codegen.py:84-97 | its layers are chained |
| `DualPath.RunForward` | jaxility/compose/codegen.py:99-106 | the reference forward pass |
| `DualPath.DenseIsAffine` | jaxility/compose/codegen.py:99-106 | an output of a layer is its bias plus the product of the input with its column of weights, through the activation |
| `DualPath.RunLayer` | jaxility/compose/codegen.py:126-140 | the emitted loops of one layer, over row-major tables, compute the dense layer |
| `DualPath.JxPolicy` | jaxility/compose/codegen.py:109-146 | the emitted policy function computes the reference forward pass for widths up to 64 |
| `DualLoop.StateWithin` | jaxility/compose/codegen.py:206-210 | membership in the state box |
| `DualLoop.ClampInput` | jaxility/compose/codegen.py:212-217 | clamps in place as the reference clamp does |
| `DualLoop.Combine` | jaxility/compose/codegen.py:256-264 | writes the command the arbiter decides in residual mode |
| `DualLoop.RunProgram` | jaxility/compose/codegen.py:219-276 | the emitted main is the reference closed loop of the plan in residual mode, command for command |
| `DualLoop.SeedSteps` | jaxility/compose/codegen.py:245-247 | each unit of the seed moves one entry of the initial state by one step |
| `DualLoop.CommandsInside` | jaxility/compose/plan.py:170-205 | every command of every run lies in the actuator box |
| `DualLoop.ForcedFallback` | jaxility/compose/codegen.py:256-259 | from a forced timeout on every command is the solver's, clamped |
| `DualLoop.ModeMatters` | jaxility/compose/codegen.py:160-168 | the generator ignores the mode: its program decides as the arbiter does exactly for residual plans and single-point boxes |
| `Cost.CombineTasks` | jaxility/templates/wbc.py:106-159 | fails exactly on dimension mismatch, and returns the collapsed diagonals and references |
| `Cost.CollapsibleIff` | jaxility/templates/wbc.py:144-157 | a component's quadratic differs from the tasks' charge by a constant and the tiny residue exactly when its total weight is positive, or zero with a zero reference moment |
| `Cost.NonnegativeTasks` | jaxility/templates/wbc.py:69-76 | tasks with nonnegative weights meet that condition everywhere |
| `Cost.BuildCost` | jaxility/lowering/casadi_to_acados.py:295-320 | the arrays assigned block by block are the block matrices |
| `Cost.QuadraticIs` | jaxility/lowering/casadi_to_acados.py:295-320 | their quadratic form is the weighted squares of state and input errors |
| `Cost.CollapseExact` | jaxility/templates/wbc.py:106-159 | the assembled cost is the sum of the priority-weighted task costs up to a constant and 1e-9 times the squares of unweighted components |
| `Trace.PrintfStatement` | jaxility/hil/controller.py:89-98 | the format string and arguments built by the loop |
| `Trace.StatementWritesLine` | jaxility/hil/controller.py:89-98 | slots and arguments match, and what is written is the cycle's record as one JSON line |
| `Trace.ParseTrace` | jaxility/hil/trace.py:86-162 | succeeds exactly when the output has n lines that are not blank, the k-th an object with step k and the schema's quantities and shapes, and returns their entries |
| `Trace.GoodRecordKeys` | jaxility/hil/trace.py:148-154 | an accepted record has no key but step and the schema's, and each of these |
| `Trace.PrintedLine` | jaxility/hil/trace.py:126-160 | a printed line is accepted at its own step and no other, and carries the slices |
| `Trace.PrintedTrace` | jaxility/hil/trace.py:114-162 | printed cycles are accepted exactly when they are cycles 0 to n - 1 in order |
| `Trace.ParsedSlices` | jaxility/hil/trace.py:120-162 | what is returned for printed cycles are their buffer slices |
| `Trace.CutLineRejected` | jaxility/hil/trace.py:126-140 | a line cut short is rejected |
| `Trace.TruncatedStream` | jaxility/hil/trace.py:114-162 | a stream cut short anywhere is accepted exactly when only its last line break is missing |
| `Trace.ExtendedStream` | jaxility/hil/trace.py:114-162 | a stream followed by anything is accepted exactly when what follows has no line that is not blank |

## Left out

Numbers and shapes:

- Floating-point rounding, infinities and NaN: numbers are reals, and casts between float types are the identity.
- OnnxBuilder.ExportPolicy: says nothing about contractions with a right operand of rank above two, or of another axis than the last of a left operand of rank above two. The exporter accepts them, with a `MatMul` that means something else.
- Scalar functions (tanh, exp, sin, division, general powers): parameters; `pow` is required to agree with repeated multiplication on integer exponents.
- Trigonometric identities, rotation matrices and quaternions: transforms, rotations and joint axes are arbitrary, and cos and sin are parameters.

Dynamics:

- Generate.GenerateFromMujoco: takes one armature and one damping per tree joint. In a model with a body of several joints the arrays the code reads have more entries, and line up wrongly with the tree.
- Dynamics.EmitAba: requires nonzero pivots, as the code does silently; PivotsPositive discharges that for trees of physical links.
- Serial.ManipulatorOde: the same, discharged by ChainNeverDividesByZero.
- The tree read from the zoo's own model (`spatial_tree`) and the `pinocchio-casadi` backend: the first is the extraction over again on a chain, the second a library.
- Names, joint limits and the CasADi function wrapper around the sweeps.

Exporters:

- CasADi `dynamic_slice`, strided slices, and predicates used as numbers: refused by the model, or not part of the source language.
- The set of primitives used, and the text of coverage errors: only whether export or translation fails is modelled.
- OnnxMeaning.ExportMeansProgram: requires OnnxMeaning.Standard, which by MatMulExact and ReshapeExact excludes only shapes on which the emitted operator is wrong for some operands; contractions that ExportPolicy says nothing about have no value here.
- Casadi.Translate: refuses constants of rank above two at once, where the code fails when one is used.
- CasadiMeaning.TranslateMeansProgram: requires CasadiMeaning.Fragment, which by FragmentIsExact excludes only primitives translated wrongly for some operands; constants of inner programs must not be named like variables around them.
- Protobuf serialisation, opset stamps, ONNX's own model validation and runtime.

Manifests, cache:

- BLAKE3 is any function, to 32 bytes where a signer looks at the length; that collisions are hard to find is not modelled. UTF-8 encoding is left at the level of code points.
- Pydantic models are coerced by way of their dict of fields; parsing manifests from files is not part of this model.
- Infinite envelope bounds. Which numbers are floats, and their texts, are parameters; different floats have different texts.
- Metadata either parses to a model or does not; that a metadata file which does not parse, or a payload file which is missing, raises the library's own exception and not ArtifactError is not distinguished.
- Renaming directories between hashes, except as an outsider's removing and writing of files.

Runtime:

- Cycle.NeverEarlyAfterFirst: excludes sleeps that fail for any other reason than a signal, and sleeps that report success before the time they were asked for.
- The clock read of the start of a run is a parameter, and a stop request takes effect between ticks; memory ordering of the flag is not modelled.
- Cycle.RunCycle: requires that clock readings, due times and the tick count fit 64-bit words; what happens after a wrap-around of the clock is not modelled.
- Arena.AllocAligned: requires a slab that fits the address space, as every real slab does; wrap-around inside the mask arithmetic is modelled.
- Copying the counters out, thread pinning, dynamic loading and cache maintenance.

Dual path, cost, trace:

- acados and the plant: parameters that may fail. Creating the solvers and reading the command line are left out.
- DualLoop.RunProgram: reports whole state and command vectors where the emitted printf prints four states and one command; requires widths up to 64, the size of the emitted buffers.
- The benchmark variant of the dual-path source.
- Terminal cost, bounds, dynamics and solver options of `build_ocp`, and acados' own factor one half.
- NaN and Infinity, which Python's JSON reader takes for numbers; values inside a payload array that numpy would convert from strings, booleans or null; line separators other than newline; quantity names that need escapes.
- Compiler invocation, archives, remote execution, the command line, the tool server, target profiles and benchmark statistics.
