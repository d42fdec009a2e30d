/**
 The cost of weighted whole-body control: tasks are collapsed into one diagonal quadratic, which
 becomes the block matrices of a linear least-squares stage cost.
 */
module Cost {
  import opened Wrappers
  import opened Linear

  const TINY: real := 0.000000001

  datatype Task = Task(priority: real, stateWeight: Vec, inputWeight: Vec, stateRef: Vec, inputRef: Vec)

  /** What a task's validators accept: a positive priority and references as long as weights. */
  predicate Valid(t: Task) {
    t.priority > 0.0 && |t.stateWeight| == |t.stateRef| && |t.inputWeight| == |t.inputRef|
  }

  /** A task seen from one side, state or input: priority, weights and references. */
  datatype Side = Side(p: real, w: Vec, r: Vec)

  function StateSide(t: Task): Side {
    Side(t.priority, t.stateWeight, t.stateRef)
  }

  function InputSide(t: Task): Side {
    Side(t.priority, t.inputWeight, t.inputRef)
  }

  function StateSides(ts: seq<Task>): (ss: seq<Side>)
    ensures |ss| == |ts| && forall i :: 0 <= i < |ts| ==> ss[i] == StateSide(ts[i])
  {
    seq(|ts|, i requires 0 <= i < |ts| => StateSide(ts[i]))
  }

  function InputSides(ts: seq<Task>): (ss: seq<Side>)
    ensures |ss| == |ts| && forall i :: 0 <= i < |ts| ==> ss[i] == InputSide(ts[i])
  {
    seq(|ts|, i requires 0 <= i < |ts| => InputSide(ts[i]))
  }

  predicate Sized(ss: seq<Side>, n: nat) {
    forall i :: 0 <= i < |ss| ==> |ss[i].w| == |ss[i].r| == n
  }

  // ---------------------------------------------------------------- one component

  /** The task's weight on component j. */
  function Pull1(s: Side, j: nat): real
    requires j < |s.w|
  {
    s.p * s.w[j]
  }

  /** Total weight, first and second moment of the references of component j. */
  function Weight(ss: seq<Side>, n: nat, j: nat): real
    requires Sized(ss, n) && j < n
  {
    if |ss| == 0 then 0.0 else Weight(ss[..|ss| - 1], n, j) + Pull1(ss[|ss| - 1], j)
  }

  function Moment(ss: seq<Side>, n: nat, j: nat): real
    requires Sized(ss, n) && j < n
  {
    if |ss| == 0 then 0.0 else Moment(ss[..|ss| - 1], n, j) + Pull1(ss[|ss| - 1], j) * ss[|ss| - 1].r[j]
  }

  function Second(ss: seq<Side>, n: nat, j: nat): real
    requires Sized(ss, n) && j < n
  {
    if |ss| == 0 then 0.0
    else Second(ss[..|ss| - 1], n, j) + Pull1(ss[|ss| - 1], j) * ss[|ss| - 1].r[j] * ss[|ss| - 1].r[j]
  }

  /** What the tasks charge for the value x of component j. */
  function Charge(ss: seq<Side>, n: nat, j: nat, x: real): real
    requires Sized(ss, n) && j < n
  {
    if |ss| == 0 then 0.0
    else Charge(ss[..|ss| - 1], n, j, x) + Pull1(ss[|ss| - 1], j) * ((x - ss[|ss| - 1].r[j]) * (x - ss[|ss| - 1].r[j]))
  }

  lemma ExpandSquare(w: real, x: real, r: real)
    ensures w * ((x - r) * (x - r)) == w * (x * x) - 2.0 * (w * r * x) + w * r * r
  {
    assert (x - r) * (x - r) == x * x - 2.0 * (r * x) + r * r;
  }

  lemma Distribute(a: real, b: real, c: real)
    ensures (a + b) * c == a * c + b * c
  {
  }

  /** The charge is a quadratic in x. */
  lemma {:induction false} ChargeQuadratic(ss: seq<Side>, n: nat, j: nat, x: real)
    requires Sized(ss, n) && j < n
    ensures Charge(ss, n, j, x) == Weight(ss, n, j) * (x * x) - 2.0 * (Moment(ss, n, j) * x) + Second(ss, n, j)
  {
    if |ss| > 0 {
      var rest, s := ss[..|ss| - 1], ss[|ss| - 1];
      ChargeQuadratic(rest, n, j, x);
      ExpandSquare(Pull1(s, j), x, s.r[j]);
      Distribute(Weight(rest, n, j), Pull1(s, j), x * x);
      Distribute(Moment(rest, n, j), Pull1(s, j) * s.r[j], x);
    }
  }

  /** The diagonal entry and the reference the tasks are collapsed into. */
  function Entry(ss: seq<Side>, n: nat, j: nat): real
    requires Sized(ss, n) && j < n
  {
    if Weight(ss, n, j) > 0.0 then Weight(ss, n, j) else TINY
  }

  function Reference(ss: seq<Side>, n: nat, j: nat): real
    requires Sized(ss, n) && j < n
  {
    if Weight(ss, n, j) > 0.0 then Moment(ss, n, j) / Weight(ss, n, j) else 0.0
  }

  /** What the collapsed quadratic charges for component j. */
  function Collapsed(ss: seq<Side>, n: nat, j: nat, x: real): real
    requires Sized(ss, n) && j < n
  {
    Entry(ss, n, j) * ((x - Reference(ss, n, j)) * (x - Reference(ss, n, j)))
  }

  /** The tiny charge on components that no task weighs. */
  function Residue(ss: seq<Side>, n: nat, j: nat, x: real): real
    requires Sized(ss, n) && j < n
  {
    if Weight(ss, n, j) > 0.0 then 0.0 else 0.000000001 * (x * x)
  }

  /** The part of the charge that no x can change. */
  function Slack(ss: seq<Side>, n: nat, j: nat): real
    requires Sized(ss, n) && j < n
  {
    (if Weight(ss, n, j) > 0.0 then Moment(ss, n, j) * Reference(ss, n, j) else 0.0) - Second(ss, n, j)
  }

  /** A component is weighted, or nothing pulls on it. */
  predicate Collapsible(ss: seq<Side>, n: nat, j: nat)
    requires Sized(ss, n) && j < n
  {
    Weight(ss, n, j) > 0.0 || (Weight(ss, n, j) == 0.0 && Moment(ss, n, j) == 0.0)
  }

  lemma CompletedSquare(w: real, m: real, x: real)
    requires w > 0.0
    ensures w * ((x - m / w) * (x - m / w)) == w * (x * x) - 2.0 * (m * x) + m * (m / w)
  {
    var r := m / w;
    assert w * r == m;
    ExpandSquare(w, x, r);
  }

  /** On a collapsible component the collapsed quadratic differs from the tasks by a constant and the residue. */
  lemma CollapsedComponent(ss: seq<Side>, n: nat, j: nat, x: real)
    requires Sized(ss, n) && j < n && Collapsible(ss, n, j)
    ensures Collapsed(ss, n, j, x) == Charge(ss, n, j, x) + Slack(ss, n, j) + Residue(ss, n, j, x)
  {
    hide Charge, Weight, Moment, Second;
    var w, m := Weight(ss, n, j), Moment(ss, n, j);
    ChargeQuadratic(ss, n, j, x);
    if w > 0.0 {
      CompletedSquare(w, m, x);
    } else {
      assert w * (x * x) == 0.0 && m * x == 0.0;
    }
  }

  ghost predicate DiffersByConstant(ss: seq<Side>, n: nat, j: nat, k: real)
    requires Sized(ss, n) && j < n
  {
    forall x: real :: Collapsed(ss, n, j, x) == Charge(ss, n, j, x) + k + Residue(ss, n, j, x)
  }

  /** And on no other: with a negative total weight, or weights that cancel while their references do not, the cost is lost. */
  lemma CollapsibleIff(ss: seq<Side>, n: nat, j: nat)
    requires Sized(ss, n) && j < n
    ensures Collapsible(ss, n, j) <==> exists k :: DiffersByConstant(ss, n, j, k)
  {
    if Collapsible(ss, n, j) {
      forall x: real ensures Collapsed(ss, n, j, x) == Charge(ss, n, j, x) + Slack(ss, n, j) + Residue(ss, n, j, x) {
        CollapsedComponent(ss, n, j, x);
      }
      assert DiffersByConstant(ss, n, j, Slack(ss, n, j));
    }
    if exists k :: DiffersByConstant(ss, n, j, k) {
      var k :| DiffersByConstant(ss, n, j, k);
      ThreePoints(ss, n, j, k);
    }
  }

  /** Three values of x determine a quadratic. */
  lemma ThreePoints(ss: seq<Side>, n: nat, j: nat, k: real)
    requires Sized(ss, n) && j < n && DiffersByConstant(ss, n, j, k)
    ensures Collapsible(ss, n, j)
  {
    hide Charge, Weight, Moment, Second;
    ChargeQuadratic(ss, n, j, 0.0);
    ChargeQuadratic(ss, n, j, 1.0);
    ChargeQuadratic(ss, n, j, -1.0);
    assert Collapsed(ss, n, j, 0.0) == Charge(ss, n, j, 0.0) + k + Residue(ss, n, j, 0.0);
    assert Collapsed(ss, n, j, 1.0) == Charge(ss, n, j, 1.0) + k + Residue(ss, n, j, 1.0);
    assert Collapsed(ss, n, j, -1.0) == Charge(ss, n, j, -1.0) + k + Residue(ss, n, j, -1.0);
  }

  predicate Nonnegative(ss: seq<Side>, n: nat)
    requires Sized(ss, n)
  {
    forall i :: 0 <= i < |ss| ==> NonnegativeSide(ss[i])
  }

  predicate NonnegativeSide(s: Side) {
    s.p > 0.0 && forall j :: 0 <= j < |s.w| ==> s.w[j] >= 0.0
  }

  /** Nonnegative weights are always collapsible. */
  lemma {:induction false} NonnegativeCollapsible(ss: seq<Side>, n: nat, j: nat)
    requires Sized(ss, n) && j < n && Nonnegative(ss, n)
    ensures Weight(ss, n, j) >= 0.0 && Collapsible(ss, n, j)
  {
    if |ss| > 0 {
      var rest, s := ss[..|ss| - 1], ss[|ss| - 1];
      assert forall i :: 0 <= i < |rest| ==> rest[i] == ss[i];
      assert NonnegativeSide(s);
      NonnegativeCollapsible(rest, n, j);
      ProductNonnegative(s.p, s.w[j]);
    }
  }

  lemma ProductNonnegative(p: real, w: real)
    requires p > 0.0 && w >= 0.0
    ensures p * w >= 0.0
  {
  }

  // ---------------------------------------------------------------- the accumulation loop

  function Product(x: Vec, y: Vec): (z: Vec)
    requires |x| == |y|
    ensures |z| == |x| && forall i :: 0 <= i < |x| ==> z[i] == Times(x[i], y[i])
  {
    seq(|x|, i requires 0 <= i < |x| => Times(x[i], y[i]))
  }

  /** The four collapsed diagonals. */
  datatype Combined = Combined(q: Vec, r: Vec, xref: Vec, uref: Vec)

  predicate Matches(ts: seq<Task>, nx: nat, nu: nat) {
    forall i :: 0 <= i < |ts| ==> |ts[i].stateWeight| == nx && |ts[i].inputWeight| == nu
  }

  lemma SidesSized(ts: seq<Task>, nx: nat, nu: nat)
    requires Matches(ts, nx, nu) && forall i :: 0 <= i < |ts| ==> Valid(ts[i])
    ensures Sized(StateSides(ts), nx) && Sized(InputSides(ts), nu)
  {
  }

  /** The collapsed diagonals of one side. */
  predicate IsCollapse(ss: seq<Side>, n: nat, q: Vec, ref: Vec)
    requires Sized(ss, n)
  {
    |q| == |ref| == n && forall j :: 0 <= j < n ==> q[j] == Entry(ss, n, j) && ref[j] == Reference(ss, n, j)
  }

  /** The running sums of one side. */
  predicate Accumulated(ss: seq<Side>, n: nat, eff: Vec, num: Vec) {
    Sized(ss, n) && |eff| == |num| == n && forall j :: 0 <= j < n ==> eff[j] == Weight(ss, n, j) && num[j] == Moment(ss, n, j)
  }

  /** One task's contribution to the running sums of a side. */
  method Accumulate(s: Side, eff0: Vec, num0: Vec, ghost ss: seq<Side>, n: nat) returns (eff: Vec, num: Vec)
    requires Accumulated(ss, n, eff0, num0) && |s.w| == |s.r| == n
    ensures Accumulated(ss + [s], n, eff, num)
  {
    eff := Add(eff0, Scale(s.p, s.w));
    num := Add(num0, Product(Scale(s.p, s.w), s.r));
    assert (ss + [s])[..|ss|] == ss;
  }

  /** Replaces what no task weighs by a tiny weight and reference 0, and divides the rest. */
  method Finish(eff: Vec, num: Vec, ghost ss: seq<Side>, n: nat) returns (q: Vec, ref: Vec)
    requires Accumulated(ss, n, eff, num)
    ensures IsCollapse(ss, n, q, ref)
  {
    var safe := seq(n, j requires 0 <= j < n => if eff[j] > 0.0 then eff[j] else 1.0);
    ref := seq(n, j requires 0 <= j < n => if eff[j] > 0.0 then num[j] / safe[j] else 0.0);
    q := seq(n, j requires 0 <= j < n => if eff[j] > 0.0 then eff[j] else TINY);
  }

  /** Collapses weighted tasks; a task of the wrong dimensions is an error. */
  method CombineTasks(ts: seq<Task>, nx: nat, nu: nat) returns (r: Result<Combined>)
    requires forall i :: 0 <= i < |ts| ==> Valid(ts[i])
    ensures r.Success? <==> Matches(ts, nx, nu)
    ensures r.Success? ==> Sized(StateSides(ts), nx) && IsCollapse(StateSides(ts), nx, r.value.q, r.value.xref)
    ensures r.Success? ==> Sized(InputSides(ts), nu) && IsCollapse(InputSides(ts), nu, r.value.r, r.value.uref)
  {
    hide Accumulated, IsCollapse;
    var qEff, xNum, rEff, uNum := Zero(nx), Zero(nx), Zero(nu), Zero(nu);
    assert StateSides(ts[..0]) == [] && InputSides(ts[..0]) == [];
    NothingAccumulated(nx);
    NothingAccumulated(nu);
    for i := 0 to |ts|
      invariant Matches(ts[..i], nx, nu)
      invariant Accumulated(StateSides(ts[..i]), nx, qEff, xNum)
      invariant Accumulated(InputSides(ts[..i]), nu, rEff, uNum)
    {
      var t := ts[i];
      if |t.stateWeight| != nx || |t.inputWeight| != nu {
        return Failure;
      }
      qEff, xNum := Accumulate(StateSide(t), qEff, xNum, StateSides(ts[..i]), nx);
      rEff, uNum := Accumulate(InputSide(t), rEff, uNum, InputSides(ts[..i]), nu);
      assert ts[..i + 1] == ts[..i] + [t];
      assert StateSides(ts[..i + 1]) == StateSides(ts[..i]) + [StateSide(t)];
      assert InputSides(ts[..i + 1]) == InputSides(ts[..i]) + [InputSide(t)];
    }
    assert ts[..|ts|] == ts;
    SidesSized(ts, nx, nu);
    var q, xref := Finish(qEff, xNum, StateSides(ts), nx);
    var r', uref := Finish(rEff, uNum, InputSides(ts), nu);
    return Success(Combined(q, r', xref, uref));
  }

  lemma NothingAccumulated(n: nat)
    ensures Accumulated([], n, Zero(n), Zero(n))
  {
  }

  // ---------------------------------------------------------------- the whole cost

  /** Sum over i of d[i] * y[i] squared. */
  function WeightedSquares(d: Vec, y: Vec): real
    requires |d| == |y|
  {
    if |d| == 0 then 0.0 else d[0] * (y[0] * y[0]) + WeightedSquares(d[1..], y[1..])
  }

  function Minus(x: Vec, y: Vec): (z: Vec)
    requires |x| == |y|
    ensures |z| == |x| && forall i :: 0 <= i < |x| ==> z[i] == x[i] - y[i]
  {
    seq(|x|, i requires 0 <= i < |x| => x[i] - y[i])
  }

  /** Sums of the per-component charges, slacks and residues from component j on. */
  function ChargeFrom(ss: seq<Side>, x: Vec, j: nat): real
    requires Sized(ss, |x|) && j <= |x|
    decreases |x| - j
  {
    if j == |x| then 0.0 else Charge(ss, |x|, j, x[j]) + ChargeFrom(ss, x, j + 1)
  }

  function SlackFrom(ss: seq<Side>, n: nat, j: nat): real
    requires Sized(ss, n) && j <= n
    decreases n - j
  {
    if j == n then 0.0 else Slack(ss, n, j) + SlackFrom(ss, n, j + 1)
  }

  function ResidueFrom(ss: seq<Side>, x: Vec, j: nat): real
    requires Sized(ss, |x|) && j <= |x|
    decreases |x| - j
  {
    if j == |x| then 0.0 else Residue(ss, |x|, j, x[j]) + ResidueFrom(ss, x, j + 1)
  }

  lemma {:induction false} CollapsedSide(ss: seq<Side>, x: Vec, q: Vec, ref: Vec, j: nat)
    requires Sized(ss, |x|) && IsCollapse(ss, |x|, q, ref) && j <= |x|
    requires forall i :: 0 <= i < |x| ==> Collapsible(ss, |x|, i)
    ensures WeightedSquares(q[j..], Minus(x, ref)[j..]) == ChargeFrom(ss, x, j) + SlackFrom(ss, |x|, j) + ResidueFrom(ss, x, j)
    decreases |x| - j
  {
    hide WeightedSquares;
    hide Charge, Slack, Residue, Collapsible;
    if j < |x| {
      CollapsedSide(ss, x, q, ref, j + 1);
      CollapsedComponent(ss, |x|, j, x[j]);
      FirstSquare(q[j..], Minus(x, ref)[j..]);
      assert q[j..][1..] == q[j + 1..] && Minus(x, ref)[j..][1..] == Minus(x, ref)[j + 1..];
      assert q[j] * (Minus(x, ref)[j] * Minus(x, ref)[j]) == Collapsed(ss, |x|, j, x[j]);
    } else {
      NoSquares();
      assert q[j..] == [] && Minus(x, ref)[j..] == [];
    }
  }

  lemma NoSquares()
    ensures WeightedSquares([], []) == 0.0
  {
  }

  lemma FirstSquare(d: Vec, y: Vec)
    requires |d| == |y| > 0
    ensures WeightedSquares(d, y) == d[0] * (y[0] * y[0]) + WeightedSquares(d[1..], y[1..])
  {
  }

  /** What one task charges: its priority times its weighted squared errors. */
  function TaskCost(t: Task, x: Vec, u: Vec): real
    requires Valid(t) && |x| == |t.stateWeight| && |u| == |t.inputWeight|
  {
    t.priority * (WeightedSquares(t.stateWeight, Minus(x, t.stateRef)) + WeightedSquares(t.inputWeight, Minus(u, t.inputRef)))
  }

  function TotalCost(ts: seq<Task>, x: Vec, u: Vec): real
    requires Matches(ts, |x|, |u|) && forall i :: 0 <= i < |ts| ==> Valid(ts[i])
  {
    if |ts| == 0 then 0.0 else TotalCost(ts[..|ts| - 1], x, u) + TaskCost(ts[|ts| - 1], x, u)
  }

  lemma {:induction false} SideCharge(s: Side, x: Vec, ss: seq<Side>, j: nat)
    requires Sized(ss, |x|) && |s.w| == |s.r| == |x| && j <= |x|
    ensures Sized(ss + [s], |x|)
    ensures ChargeFrom(ss + [s], x, j) == ChargeFrom(ss, x, j) + s.p * WeightedSquares(s.w[j..], Minus(x, s.r)[j..])
    decreases |x| - j
  {
    hide WeightedSquares, Charge;
    if j < |x| {
      SideCharge(s, x, ss, j + 1);
      var y := Minus(x, s.r);
      assert s.w[j..][1..] == s.w[j + 1..] && y[j..][1..] == y[j + 1..];
      FirstSquare(s.w[j..], y[j..]);
      OneMoreCharge(ss, s, |x|, j, x[j]);
      Distribute2(s.p, s.w[j] * (y[j] * y[j]), WeightedSquares(s.w[j + 1..], y[j + 1..]));
    } else {
      NoSquares();
      assert s.w[j..] == [] && Minus(x, s.r)[j..] == [];
    }
  }

  lemma Distribute2(p: real, a: real, b: real)
    ensures p * (a + b) == p * a + p * b
  {
  }

  lemma OneMoreCharge(ss: seq<Side>, s: Side, n: nat, j: nat, x: real)
    requires Sized(ss, n) && |s.w| == |s.r| == n && j < n
    ensures Sized(ss + [s], n)
    ensures Charge(ss + [s], n, j, x) == Charge(ss, n, j, x) + s.p * (s.w[j] * ((x - s.r[j]) * (x - s.r[j])))
  {
    assert (ss + [s])[..|ss|] == ss;
    Associate(s.p, s.w[j], (x - s.r[j]) * (x - s.r[j]));
  }

  lemma Associate(a: real, b: real, c: real)
    ensures (a * b) * c == a * (b * c)
  {
  }

  /** The tasks' cost, task by task, is their cost component by component. */
  lemma {:induction false} CostByComponent(ts: seq<Task>, x: Vec, u: Vec)
    requires Matches(ts, |x|, |u|) && forall i :: 0 <= i < |ts| ==> Valid(ts[i])
    ensures Sized(StateSides(ts), |x|) && Sized(InputSides(ts), |u|)
    ensures TotalCost(ts, x, u) == ChargeFrom(StateSides(ts), x, 0) + ChargeFrom(InputSides(ts), u, 0)
  {
    hide ChargeFrom, WeightedSquares, Minus;
    SidesSized(ts, |x|, |u|);
    if |ts| == 0 {
      NoCharge(x, 0);
      NoCharge(u, 0);
      assert StateSides(ts) == [] && InputSides(ts) == [];
    } else {
      var rest, t := ts[..|ts| - 1], ts[|ts| - 1];
      CostByComponent(rest, x, u);
      OneMoreTask(rest, t, x, u);
      assert StateSides(ts) == StateSides(rest) + [StateSide(t)] && InputSides(ts) == InputSides(rest) + [InputSide(t)];
    }
  }

  lemma OneMoreTask(rest: seq<Task>, t: Task, x: Vec, u: Vec)
    requires Sized(StateSides(rest), |x|) && Sized(InputSides(rest), |u|)
    requires Valid(t) && |x| == |t.stateWeight| && |u| == |t.inputWeight|
    ensures Sized(StateSides(rest) + [StateSide(t)], |x|) && Sized(InputSides(rest) + [InputSide(t)], |u|)
    ensures ChargeFrom(StateSides(rest) + [StateSide(t)], x, 0) + ChargeFrom(InputSides(rest) + [InputSide(t)], u, 0)
         == ChargeFrom(StateSides(rest), x, 0) + ChargeFrom(InputSides(rest), u, 0) + TaskCost(t, x, u)
  {
    hide ChargeFrom, WeightedSquares, Minus;
    SideCharge(StateSide(t), x, StateSides(rest), 0);
    SideCharge(InputSide(t), u, InputSides(rest), 0);
    WholeVectors(t, x, u);
    var a, b := WeightedSquares(t.stateWeight, Minus(x, t.stateRef)), WeightedSquares(t.inputWeight, Minus(u, t.inputRef));
    assert t.priority * (a + b) == t.priority * a + t.priority * b;
  }

  lemma WholeVectors(t: Task, x: Vec, u: Vec)
    requires Valid(t) && |x| == |t.stateWeight| && |u| == |t.inputWeight|
    ensures t.stateWeight[0..] == t.stateWeight && Minus(x, t.stateRef)[0..] == Minus(x, t.stateRef)
    ensures t.inputWeight[0..] == t.inputWeight && Minus(u, t.inputRef)[0..] == Minus(u, t.inputRef)
  {
  }

  lemma {:induction false} NoCharge(x: Vec, j: nat)
    requires j <= |x|
    ensures ChargeFrom([], x, j) == 0.0
    decreases |x| - j
  {
    if j < |x| {
      NoCharge(x, j + 1);
    }
  }

  // ---------------------------------------------------------------- block matrices

  function Diag(d: Vec): (A: Mat)
    ensures IsMat(A, |d|, |d|)
    ensures forall i, j :: 0 <= i < |d| && 0 <= j < |d| ==> A[i][j] == if i == j then d[i] else 0.0
  {
    seq(|d|, i requires 0 <= i < |d| => Scale(d[i], Unit(|d|, i)))
  }

  /** The stage cost's matrices: weight, state and input maps, and reference. */
  datatype StageCost = StageCost(W: Mat, Vx: Mat, Vu: Mat, yref: Vec)

  function Assemble(q: Vec, r: Vec, xref: Vec, uref: Vec): StageCost {
    var nx, nu := |q|, |r|;
    StageCost(
      Block(Diag(q), ZeroMat(nx, nu), ZeroMat(nu, nx), Diag(r)),
      Identity(nx) + ZeroMat(nu, nx),
      ZeroMat(nx, nu) + Identity(nu),
      xref + uref)
  }

  function RowsOf(a: array2<real>): (A: Mat)
    reads a
    ensures IsMat(A, a.Length0, a.Length1)
    ensures forall i, j :: 0 <= i < a.Length0 && 0 <= j < a.Length1 ==> A[i][j] == a[i, j]
  {
    seq(a.Length0, i requires 0 <= i < a.Length0 reads a => seq(a.Length1, j requires 0 <= j < a.Length1 reads a => a[i, j]))
  }

  lemma SameMat(A: Mat, B: Mat, r: nat, c: nat)
    requires IsMat(A, r, c) && IsMat(B, r, c)
    requires forall i, j :: 0 <= i < r && 0 <= j < c ==> A[i][j] == B[i][j]
    ensures A == B
  {
    forall i | 0 <= i < r ensures A[i] == B[i] {
      assert |A[i]| == |B[i]|;
    }
  }

  /** The assembled matrices entry by entry. */
  lemma AssembledEntries(q: Vec, r: Vec, xref: Vec, uref: Vec)
    ensures var c := Assemble(q, r, xref, uref);
      var nx, ny := |q|, |q| + |r|;
      && IsMat(c.W, ny, ny) && IsMat(c.Vx, ny, nx) && IsMat(c.Vu, ny, |r|)
      && (forall i, j :: 0 <= i < ny && 0 <= j < ny ==> c.W[i][j] == if i != j then 0.0 else if i < nx then q[i] else r[i - nx])
      && (forall i, j :: 0 <= i < ny && 0 <= j < nx ==> c.Vx[i][j] == if i == j then 1.0 else 0.0)
      && (forall i, j :: 0 <= i < ny && 0 <= j < |r| ==> c.Vu[i][j] == if i == nx + j then 1.0 else 0.0)
  {
    var nx, nu := |q|, |r|;
    assert forall i, j :: 0 <= i < nx && 0 <= j < nx ==> Identity(nx)[i][j] == if i == j then 1.0 else 0.0;
    assert forall i, j :: 0 <= i < nu && 0 <= j < nu ==> Identity(nu)[i][j] == if i == j then 1.0 else 0.0;
    assert forall i, j :: 0 <= i < nx && 0 <= j < nu ==> ZeroMat(nx, nu)[i][j] == 0.0;
    assert forall i, j :: 0 <= i < nu && 0 <= j < nx ==> ZeroMat(nu, nx)[i][j] == 0.0;
  }

  /** A block of an array, assigned in place. */
  method AssignBlock(a: array2<real>, r0: nat, c0: nat, n: nat, d: Vec)
    requires r0 + n <= a.Length0 && c0 + n <= a.Length1 && |d| == n
    modifies a
    ensures forall i, j :: 0 <= i < a.Length0 && 0 <= j < a.Length1 ==>
      a[i, j] == if r0 <= i < r0 + n && c0 <= j < c0 + n then (if i - r0 == j - c0 then d[i - r0] else 0.0) else old(a[i, j])
  {
    forall i, j | r0 <= i < r0 + n && c0 <= j < c0 + n {
      a[i, j] := if i - r0 == j - c0 then d[i - r0] else 0.0;
    }
  }

  method StateMap(q: Vec, r: Vec, xref: Vec, uref: Vec) returns (Vx: array2<real>)
    ensures fresh(Vx) && RowsOf(Vx) == Assemble(q, r, xref, uref).Vx
  {
    hide Assemble;
    var nx, ny := |q|, |q| + |r|;
    Vx := new real[ny, nx]((i, j) => 0.0);
    AssignBlock(Vx, 0, 0, nx, seq(nx, _ => 1.0));
    AssembledEntries(q, r, xref, uref);
    SameMat(RowsOf(Vx), Assemble(q, r, xref, uref).Vx, ny, nx);
  }

  method InputMap(q: Vec, r: Vec, xref: Vec, uref: Vec) returns (Vu: array2<real>)
    ensures fresh(Vu) && RowsOf(Vu) == Assemble(q, r, xref, uref).Vu
  {
    hide Assemble;
    var nx, nu, ny := |q|, |r|, |q| + |r|;
    Vu := new real[ny, nu]((i, j) => 0.0);
    AssignBlock(Vu, nx, 0, nu, seq(nu, _ => 1.0));
    AssembledEntries(q, r, xref, uref);
    SameMat(RowsOf(Vu), Assemble(q, r, xref, uref).Vu, ny, nu);
  }

  method WeightMatrix(q: Vec, r: Vec, xref: Vec, uref: Vec) returns (W: array2<real>)
    ensures fresh(W) && RowsOf(W) == Assemble(q, r, xref, uref).W
  {
    hide Assemble;
    var nx, nu, ny := |q|, |r|, |q| + |r|;
    W := new real[ny, ny]((i, j) => 0.0);
    AssignBlock(W, 0, 0, nx, q);
    AssignBlock(W, nx, nx, nu, r);
    AssembledEntries(q, r, xref, uref);
    SameMat(RowsOf(W), Assemble(q, r, xref, uref).W, ny, ny);
  }

  /** Zero arrays, then the blocks assigned in place. */
  method BuildCost(q: Vec, r: Vec, xref: Vec, uref: Vec) returns (W: array2<real>, Vx: array2<real>, Vu: array2<real>, yref: Vec)
    ensures fresh(W) && fresh(Vx) && fresh(Vu)
    ensures StageCost(RowsOf(W), RowsOf(Vx), RowsOf(Vu), yref) == Assemble(q, r, xref, uref)
  {
    Vx := StateMap(q, r, xref, uref);
    Vu := InputMap(q, r, xref, uref);
    W := WeightMatrix(q, r, xref, uref);
    yref := xref + uref;
    AssembledReference(q, r, xref, uref);
  }

  lemma AssembledReference(q: Vec, r: Vec, xref: Vec, uref: Vec)
    ensures Assemble(q, r, xref, uref).yref == xref + uref
  {
  }

  /** The residual y = Vx x + Vu u - yref. */
  function Residual(c: StageCost, x: Vec, u: Vec): Vec
    requires IsMat(c.Vx, |c.yref|, |x|) && IsMat(c.Vu, |c.yref|, |u|)
  {
    Minus(Add(Apply(c.Vx, x), Apply(c.Vu, u)), c.yref)
  }

  /** The quadratic form of the stage cost. */
  function Quadratic(c: StageCost, x: Vec, u: Vec): real
    requires IsMat(c.Vx, |c.yref|, |x|) && IsMat(c.Vu, |c.yref|, |u|) && IsMat(c.W, |c.yref|, |c.yref|)
  {
    Form(c.W, Residual(c, x, u), Residual(c, x, u))
  }

  lemma ApplyDiag(d: Vec, y: Vec)
    requires |d| == |y|
    ensures Apply(Diag(d), y) == Product(d, y)
  {
    forall i | 0 <= i < |d| ensures Apply(Diag(d), y)[i] == Product(d, y)[i] {
      var e := Unit(|d|, i);
      DotComm(Diag(d)[i], y);
      DotScale(d[i], e, y);
      DotComm(e, y);
      DotUnit(y, i);
      assert Diag(d)[i] == Scale(d[i], e);
    }
  }

  lemma {:induction false} DotProduct(d: Vec, y: Vec)
    requires |d| == |y|
    ensures Dot(y, Product(d, y)) == WeightedSquares(d, y)
  {
    if |d| > 0 {
      DotProduct(d[1..], y[1..]);
      assert Product(d, y)[1..] == Product(d[1..], y[1..]);
      assert Product(d, y)[0] == d[0] * y[0];
      assert Times(y[0], d[0] * y[0]) == d[0] * (y[0] * y[0]);
    }
  }

  /** The residual stacks the state error on the input error. */
  lemma ResidualStacks(q: Vec, r: Vec, xref: Vec, uref: Vec, x: Vec, u: Vec)
    requires |q| == |xref| == |x| && |r| == |uref| == |u|
    ensures var c := Assemble(q, r, xref, uref);
      && IsMat(c.Vx, |c.yref|, |x|) && IsMat(c.Vu, |c.yref|, |u|) && IsMat(c.W, |c.yref|, |c.yref|)
      && Residual(c, x, u) == Minus(x, xref) + Minus(u, uref)
  {
    var c := Assemble(q, r, xref, uref);
    AssembledEntries(q, r, xref, uref);
    StackedApply(|x|, |u|, x, u);
    assert Add(Apply(c.Vx, x), Apply(c.Vu, u)) == x + u;
  }

  lemma StackedApply(nx: nat, nu: nat, x: Vec, u: Vec)
    requires |x| == nx && |u| == nu
    ensures IsMat(Identity(nx) + ZeroMat(nu, nx), nx + nu, nx) && IsMat(ZeroMat(nx, nu) + Identity(nu), nx + nu, nu)
    ensures Apply(Identity(nx) + ZeroMat(nu, nx), x) == x + Zero(nu)
    ensures Apply(ZeroMat(nx, nu) + Identity(nu), u) == Zero(nx) + u
  {
    ApplyIdentity(nx, x);
    ApplyIdentity(nu, u);
    ApplyZeroMat(nu, nx, x);
    ApplyZeroMat(nx, nu, u);
    assert Apply(Identity(nx) + ZeroMat(nu, nx), x) == Apply(Identity(nx), x) + Apply(ZeroMat(nu, nx), x);
    assert Apply(ZeroMat(nx, nu) + Identity(nu), u) == Apply(ZeroMat(nx, nu), u) + Apply(Identity(nu), u);
  }

  /** So the quadratic form is the weighted squares of both errors. */
  lemma QuadraticIs(q: Vec, r: Vec, xref: Vec, uref: Vec, x: Vec, u: Vec)
    requires |q| == |xref| == |x| && |r| == |uref| == |u|
    ensures var c := Assemble(q, r, xref, uref);
      && IsMat(c.Vx, |c.yref|, |x|) && IsMat(c.Vu, |c.yref|, |u|) && IsMat(c.W, |c.yref|, |c.yref|)
      && Quadratic(c, x, u) == WeightedSquares(q, Minus(x, xref)) + WeightedSquares(r, Minus(u, uref))
  {
    hide Diag, WeightedSquares, Dot, Product, Apply;
    var c := Assemble(q, r, xref, uref);
    ResidualStacks(q, r, xref, uref, x, u);
    var ex, eu := Minus(x, xref), Minus(u, uref);
    var nx, nu := |x|, |u|;
    ApplyBlock(Diag(q), ZeroMat(nx, nu), ZeroMat(nu, nx), Diag(r), ex, eu);
    ApplyZeroMat(nx, nu, eu);
    ApplyZeroMat(nu, nx, ex);
    ApplyDiag(q, ex);
    ApplyDiag(r, eu);
    AddZero(Product(q, ex));
    AddZero(Product(r, eu));
    DotConcat(ex, eu, Product(q, ex), Product(r, eu));
    DotProduct(q, ex);
    DotProduct(r, eu);
  }

  lemma AddZero(x: Vec)
    ensures Add(x, Zero(|x|)) == x && Add(Zero(|x|), x) == x
  {
  }

  predicate AllCollapsible(ss: seq<Side>, n: nat)
    requires Sized(ss, n)
  {
    forall j :: 0 <= j < n ==> Collapsible(ss, n, j)
  }

  /**
   The assembled stage cost of combined tasks is the sum of the tasks' costs, up to a constant
   and the tiny charge on components that no task weighs.
   */
  lemma CollapseExact(ts: seq<Task>, c: Combined, x: Vec, u: Vec)
    requires Matches(ts, |x|, |u|) && forall i :: 0 <= i < |ts| ==> Valid(ts[i])
    requires Sized(StateSides(ts), |x|) && IsCollapse(StateSides(ts), |x|, c.q, c.xref) && AllCollapsible(StateSides(ts), |x|)
    requires Sized(InputSides(ts), |u|) && IsCollapse(InputSides(ts), |u|, c.r, c.uref) && AllCollapsible(InputSides(ts), |u|)
    ensures var cost := Assemble(c.q, c.r, c.xref, c.uref);
      && IsMat(cost.Vx, |cost.yref|, |x|) && IsMat(cost.Vu, |cost.yref|, |u|) && IsMat(cost.W, |cost.yref|, |cost.yref|)
      && Quadratic(cost, x, u) == TotalCost(ts, x, u)
           + (SlackFrom(StateSides(ts), |x|, 0) + SlackFrom(InputSides(ts), |u|, 0))
           + (ResidueFrom(StateSides(ts), x, 0) + ResidueFrom(InputSides(ts), u, 0))
  {
    hide Quadratic, Assemble, WeightedSquares, TotalCost, SlackFrom, ResidueFrom, ChargeFrom;
    QuadraticIs(c.q, c.r, c.xref, c.uref, x, u);
    CostByComponent(ts, x, u);
    CollapsedSide(StateSides(ts), x, c.q, c.xref, 0);
    CollapsedSide(InputSides(ts), u, c.r, c.uref, 0);
    assert c.q[0..] == c.q && Minus(x, c.xref)[0..] == Minus(x, c.xref);
    assert c.r[0..] == c.r && Minus(u, c.uref)[0..] == Minus(u, c.uref);
  }

  /** Tasks with nonnegative weights meet the condition of CollapseExact. */
  lemma NonnegativeTasks(ts: seq<Task>, nx: nat, nu: nat)
    requires Matches(ts, nx, nu) && forall i :: 0 <= i < |ts| ==> Valid(ts[i])
    requires forall i, j :: 0 <= i < |ts| && 0 <= j < nx ==> ts[i].stateWeight[j] >= 0.0
    requires forall i, j :: 0 <= i < |ts| && 0 <= j < nu ==> ts[i].inputWeight[j] >= 0.0
    ensures Sized(StateSides(ts), nx) && AllCollapsible(StateSides(ts), nx)
    ensures Sized(InputSides(ts), nu) && AllCollapsible(InputSides(ts), nu)
  {
    SidesSized(ts, nx, nu);
    forall j | 0 <= j < nx ensures Collapsible(StateSides(ts), nx, j) {
      NonnegativeCollapsible(StateSides(ts), nx, j);
    }
    forall j | 0 <= j < nu ensures Collapsible(InputSides(ts), nu, j) {
      NonnegativeCollapsible(InputSides(ts), nu, j);
    }
  }
}
