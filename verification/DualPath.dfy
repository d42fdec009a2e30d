/**
 The learned policy and the emitted control loop. The emitted C runs the network in two buffers
 of 64 numbers over flat weight tables, and combines it with the model-based control; it is
 proved equal to the reference network and arbiter.
 */
module DualPath {
  import opened Wrappers
  import opened Composition
  import opened Grids
  import Linear

  const BUFFER: nat := 64

  /** A dense layer: weight[k] is the row of input k. */
  datatype Layer = Layer(inputs: nat, outputs: nat, weight: seq<Vec>, bias: Vec, tanh: bool)

  predicate WellFormed(l: Layer) {
    |l.weight| == l.inputs && |l.bias| == l.outputs && forall k :: 0 <= k < l.inputs ==> |l.weight[k]| == l.outputs
  }

  /** Each layer takes what the one before gives. */
  predicate Chained(width: nat, ls: seq<Layer>)
    decreases |ls|
  {
    if |ls| == 0 then true else WellFormed(ls[0]) && ls[0].inputs == width && Chained(ls[0].outputs, ls[1..])
  }

  function OutputWidth(width: nat, ls: seq<Layer>): nat
    decreases |ls|
  {
    if |ls| == 0 then width else OutputWidth(ls[0].outputs, ls[1..])
  }

  /** The part of output j of a layer that the first n inputs and the bias make. */
  function Accumulate(l: Layer, x: Vec, j: nat, n: nat): real
    requires WellFormed(l) && j < l.outputs && n <= l.inputs == |x|
  {
    if n == 0 then l.bias[j] else Accumulate(l, x, j, n - 1) + x[n - 1] * l.weight[n - 1][j]
  }

  function Activate(tanh: real -> real, l: Layer, x: real): real {
    if l.tanh then tanh(x) else x
  }

  /** act(x W + b). */
  function Dense(tanh: real -> real, l: Layer, x: Vec): (y: Vec)
    requires WellFormed(l) && |x| == l.inputs
    ensures |y| == l.outputs && forall j :: 0 <= j < l.outputs ==> y[j] == Activate(tanh, l, Accumulate(l, x, j, l.inputs))
  {
    seq(l.outputs, j requires 0 <= j < l.outputs => Activate(tanh, l, Accumulate(l, x, j, l.inputs)))
  }

  lemma {:induction false} AccumulateIsDot(l: Layer, x: Vec, j: nat, n: nat)
    requires WellFormed(l) && j < l.outputs && n <= l.inputs == |x|
    ensures Accumulate(l, x, j, n) == l.bias[j] + Linear.Dot(x[..n], Linear.Col(l.weight[..n], j))
  {
    if n > 0 {
      AccumulateIsDot(l, x, j, n - 1);
      assert x[..n] == x[..n - 1] + [x[n - 1]];
      assert Linear.Col(l.weight[..n], j) == Linear.Col(l.weight[..n - 1], j) + [l.weight[n - 1][j]];
      Linear.DotConcat(x[..n - 1], [x[n - 1]], Linear.Col(l.weight[..n - 1], j), [l.weight[n - 1][j]]);
      OneProduct(x[n - 1], l.weight[n - 1][j]);
    }
  }

  lemma OneProduct(a: real, b: real)
    ensures Linear.Dot([a], [b]) == a * b
  {
    assert [a][1..] == [] && [b][1..] == [];
  }

  /** An output of a layer is its bias plus the product of the input with its column of weights, through the activation. */
  lemma DenseIsAffine(tanh: real -> real, l: Layer, x: Vec, j: nat)
    requires WellFormed(l) && |x| == l.inputs && j < l.outputs
    ensures var z := l.bias[j] + Linear.Dot(x, Linear.Col(l.weight, j));
      Dense(tanh, l, x)[j] == if l.tanh then tanh(z) else z
  {
    AccumulateIsDot(l, x, j, l.inputs);
    assert x[..l.inputs] == x && l.weight[..l.inputs] == l.weight;
  }

  function Forward(tanh: real -> real, ls: seq<Layer>, x: Vec): (y: Vec)
    requires Chained(|x|, ls)
    ensures |y| == OutputWidth(|x|, ls)
    decreases |ls|
  {
    if |ls| == 0 then x else Forward(tanh, ls[1..], Dense(tanh, ls[0], x))
  }

  /** The reference forward pass. */
  method RunForward(tanh: real -> real, ls: seq<Layer>, x: Vec) returns (h: Vec)
    requires Chained(|x|, ls)
    ensures h == Forward(tanh, ls, x)
  {
    h := x;
    assert ls[0..] == ls;
    for i := 0 to |ls|
      invariant Chained(|h|, ls[i..]) && Forward(tanh, ls, x) == Forward(tanh, ls[i..], h)
    {
      assert ls[i..][0] == ls[i] && ls[i..][1..] == ls[i + 1..];
      h := Dense(tanh, ls[i], h);
    }
  }

  // ---------------------------------------------------------------- execution order from layer shapes

  /** A named module's kernel and bias, without an activation yet. */
  datatype Kernel = Kernel(inputs: nat, outputs: nat, weight: seq<Vec>, bias: Vec)

  predicate DistinctInputs(ks: seq<Kernel>) {
    forall i, j :: 0 <= i < j < |ks| ==> ks[i].inputs != ks[j].inputs
  }

  predicate Follows(width: nat, ks: seq<Kernel>)
    decreases |ks|
  {
    if |ks| == 0 then true else ks[0].inputs == width && Follows(ks[0].outputs, ks[1..])
  }

  function LastWidth(width: nat, ks: seq<Kernel>): nat
    decreases |ks|
  {
    if |ks| == 0 then width else LastWidth(ks[0].outputs, ks[1..])
  }

  /** All modules in one data-flow order from the input width. */
  ghost predicate Orders(width: nat, ks: seq<Kernel>, order: seq<Kernel>) {
    multiset(order) == multiset(ks) && Follows(width, order)
  }

  /** tanh after every layer but the last. */
  function Activated(ks: seq<Kernel>): (ls: seq<Layer>)
    ensures |ls| == |ks|
    ensures forall i :: 0 <= i < |ks| ==> ls[i] == Layer(ks[i].inputs, ks[i].outputs, ks[i].weight, ks[i].bias, i + 1 < |ks|)
  {
    seq(|ks|, i requires 0 <= i < |ks| => Layer(ks[i].inputs, ks[i].outputs, ks[i].weight, ks[i].bias, i + 1 < |ks|))
  }

  lemma {:induction false} FollowsAppend(width: nat, ks: seq<Kernel>, k: Kernel)
    ensures Follows(width, ks + [k]) <==> Follows(width, ks) && k.inputs == LastWidth(width, ks)
    ensures LastWidth(width, ks + [k]) == k.outputs
    decreases |ks|
  {
    if |ks| > 0 {
      FollowsAppend(ks[0].outputs, ks[1..], k);
      assert (ks + [k])[1..] == ks[1..] + [k];
    } else {
      assert (ks + [k])[1..] == [];
    }
  }

  predicate Among(p: seq<Kernel>, ks: seq<Kernel>) {
    forall i :: 0 <= i < |p| ==> p[i] in ks
  }

  lemma DistinctDetermines(ks: seq<Kernel>, a: Kernel, b: Kernel)
    requires DistinctInputs(ks) && a in ks && b in ks && a.inputs == b.inputs
    ensures a == b
  {
    var i, j :| 0 <= i < |ks| && 0 <= j < |ks| && ks[i] == a && ks[j] == b;
    assert !(i < j) && !(j < i);
  }

  /** With distinct input widths two data-flow orders agree as far as both go. */
  lemma {:induction false} OrdersAgreeAsPrefix(width: nat, p: seq<Kernel>, q: seq<Kernel>, ks: seq<Kernel>)
    requires Follows(width, p) && Follows(width, q) && Among(p, ks) && Among(q, ks) && DistinctInputs(ks) && |p| <= |q|
    ensures p == q[..|p|]
    decreases |p|
  {
    if |p| > 0 {
      DistinctDetermines(ks, p[0], q[0]);
      OrdersAgreeAsPrefix(p[0].outputs, p[1..], q[1..], ks);
      assert p == [p[0]] + p[1..] && q[..|p|] == [q[0]] + q[1..][..|p| - 1];
    }
  }

  lemma {:induction false} CountOne(a: seq<Kernel>, x: Kernel)
    requires DistinctInputs(a)
    ensures multiset(a)[x] == if x in a then 1 else 0
  {
    if |a| > 0 {
      CountOne(a[1..], x);
      assert a == [a[0]] + a[1..];
      assert a[0] !in a[1..];
    }
  }

  lemma SameElements(a: seq<Kernel>, b: seq<Kernel>)
    requires DistinctInputs(a) && DistinctInputs(b) && Among(a, b) && Among(b, a)
    ensures multiset(a) == multiset(b)
  {
    forall x ensures multiset(a)[x] == multiset(b)[x] {
      CountOne(a, x);
      CountOne(b, x);
    }
  }

  lemma PermutedAmong(a: seq<Kernel>, b: seq<Kernel>)
    requires multiset(a) == multiset(b)
    ensures Among(a, b) && |a| == |b|
  {
    forall i | 0 <= i < |a| ensures a[i] in b {
      assert a[i] in multiset(b);
    }
    assert |multiset(a)| == |a| && |multiset(b)| == |b|;
  }

  /** With distinct input widths there is at most one data-flow order of all modules. */
  lemma OrderUnique(width: nat, ks: seq<Kernel>, p: seq<Kernel>, q: seq<Kernel>)
    requires DistinctInputs(ks) && Orders(width, ks, p) && Orders(width, ks, q)
    ensures p == q
  {
    PermutedAmong(p, ks);
    PermutedAmong(q, ks);
    OrdersAgreeAsPrefix(width, p, q, ks);
    assert q[..|p|] == q;
  }

  /** The table indexes by input width the modules not yet ordered. */
  ghost predicate Remaining(byIn: map<nat, Kernel>, ordered: seq<Kernel>, ks: seq<Kernel>) {
    && (forall w :: w in byIn ==> byIn[w] in ks && byIn[w].inputs == w && byIn[w] !in ordered)
    && (forall k :: k in ks ==> k in ordered || (k.inputs in byIn && byIn[k.inputs] == k))
    && Among(ordered, ks)
    && DistinctInputs(ordered)
  }

  lemma TakeNext(byIn: map<nat, Kernel>, ordered: seq<Kernel>, ks: seq<Kernel>, w: nat)
    requires DistinctInputs(ks) && Remaining(byIn, ordered, ks) && w in byIn
    ensures Remaining(byIn - {w}, ordered + [byIn[w]], ks)
  {
    var k := byIn[w];
    forall i | 0 <= i < |ordered| ensures ordered[i].inputs != w {
      if ordered[i].inputs == w {
        DistinctDetermines(ks, ordered[i], k);
      }
    }
  }

  /** An order of all modules goes on past one that leaves a module out. */
  lemma OrderIsLonger(byIn: map<nat, Kernel>, ordered: seq<Kernel>, ks: seq<Kernel>, width: nat, w: nat, order: seq<Kernel>)
    requires DistinctInputs(ks) && Remaining(byIn, ordered, ks) && Follows(width, ordered) && w in byIn && Orders(width, ks, order)
    ensures |ordered| < |order|
  {
    PermutedAmong(order, ks);
    PermutedAmong(ks, order);
    var i :| 0 <= i < |ks| && ks[i] == byIn[w];
    var j :| 0 <= j < |order| && order[j] == ks[i];
    if |order| <= |ordered| {
      OrdersAgreeAsPrefix(width, order, ordered, ks);
    }
  }

  /** So while a module is left and an order of all exists, the table has the next module. */
  lemma ChainContinues(byIn: map<nat, Kernel>, ordered: seq<Kernel>, ks: seq<Kernel>, width: nat, w: nat, order: seq<Kernel>)
    requires DistinctInputs(ks) && Remaining(byIn, ordered, ks) && Follows(width, ordered) && w in byIn && Orders(width, ks, order)
    ensures LastWidth(width, ordered) in byIn
  {
    OrderIsLonger(byIn, ordered, ks, width, w, order);
    PermutedAmong(order, ks);
    DistinctOrder(ks, order);
    OrdersAgreeAsPrefix(width, ordered, order, ks);
    FollowsPrefix(width, order, |ordered|);
    assert forall i :: 0 <= i < |ordered| ==> ordered[i] == order[i] && ordered[i].inputs != order[|ordered|].inputs;
  }

  lemma OrderContinues(byIn: map<nat, Kernel>, ordered: seq<Kernel>, ks: seq<Kernel>, width: nat)
    requires DistinctInputs(ks) && Remaining(byIn, ordered, ks) && Follows(width, ordered) && byIn != map[]
    ensures (exists order :: Orders(width, ks, order)) ==> LastWidth(width, ordered) in byIn
  {
    var w :| w in byIn;
    if order :| Orders(width, ks, order) {
      ChainContinues(byIn, ordered, ks, width, w, order);
    }
  }

  lemma DistinctOrder(ks: seq<Kernel>, order: seq<Kernel>)
    requires DistinctInputs(ks) && multiset(order) == multiset(ks)
    ensures DistinctInputs(order)
  {
    forall i, j | 0 <= i < j < |order| ensures order[i].inputs != order[j].inputs {
      if order[i].inputs == order[j].inputs {
        PermutedAmong(order, ks);
        DistinctDetermines(ks, order[i], order[j]);
        CountOne(ks, order[i]);
        TwiceCounted(order, i, j);
      }
    }
  }

  lemma TwiceCounted(a: seq<Kernel>, i: nat, j: nat)
    requires i < j < |a| && a[i] == a[j]
    ensures multiset(a)[a[i]] >= 2
  {
    assert a == a[..j] + [a[j]] + a[j + 1..];
    assert a[i] in a[..j];
  }

  lemma {:induction false} FollowsPrefix(width: nat, ks: seq<Kernel>, n: nat)
    requires Follows(width, ks) && n < |ks|
    ensures Follows(width, ks[..n]) && ks[n].inputs == LastWidth(width, ks[..n])
    decreases |ks|
  {
    if n > 0 {
      FollowsPrefix(ks[0].outputs, ks[1..], n - 1);
      assert ks[..n][1..] == ks[1..][..n - 1];
    }
  }

  /** The modules by input width; None when two take the same width. */
  method IndexByInput(ks: seq<Kernel>) returns (r: Option<map<nat, Kernel>>)
    ensures r.Some? <==> DistinctInputs(ks)
    ensures r.Some? ==> Remaining(r.value, [], ks)
  {
    var byIn: map<nat, Kernel> := map[];
    for i := 0 to |ks|
      invariant DistinctInputs(ks[..i])
      invariant forall w :: w in byIn ==> byIn[w] in ks[..i] && byIn[w].inputs == w
      invariant forall k :: 0 <= k < i ==> ks[k].inputs in byIn && byIn[ks[k].inputs] == ks[k]
    {
      if ks[i].inputs in byIn {
        assert exists k :: 0 <= k < i && ks[k].inputs == ks[i].inputs;
        return None;
      }
      byIn := byIn[ks[i].inputs := ks[i]];
    }
    assert ks[..|ks|] == ks;
    return Some(byIn);
  }

  /**
   Reconstructs execution order by chaining output to input widths. It succeeds exactly when no
   two modules take the same width and all of them form one chain from the input width.
   */
  method FromFlax(ks: seq<Kernel>, inputDim: nat) returns (r: Result<seq<Layer>>)
    ensures r.Success? <==> DistinctInputs(ks) && exists order :: Orders(inputDim, ks, order)
    ensures r.Success? ==> exists order :: Orders(inputDim, ks, order) && r.value == Activated(order)
  {
    hide Remaining, DistinctInputs, Among;
    var index := IndexByInput(ks);
    if index.None? {
      return Failure;
    }
    var byIn := index.value;
    var ordered: seq<Kernel> := [];
    var cur := inputDim;
    while cur in byIn
      invariant Remaining(byIn, ordered, ks) && Follows(inputDim, ordered) && cur == LastWidth(inputDim, ordered)
      decreases |byIn.Keys|
    {
      var k := byIn[cur];
      TakeNext(byIn, ordered, ks, cur);
      TakenInputs(byIn, ordered, ks, cur);
      FollowsAppend(inputDim, ordered, k);
      assert (byIn - {cur}).Keys == byIn.Keys - {cur};
      byIn := byIn - {cur};
      ordered := ordered + [k];
      cur := k.outputs;
    }
    if byIn != map[] {
      OrderContinues(byIn, ordered, ks, inputDim);
      return Failure;
    }
    AllTaken(ordered, ks);
    assert Orders(inputDim, ks, ordered);
    return Success(Activated(ordered));
  }

  lemma TakenInputs(byIn: map<nat, Kernel>, ordered: seq<Kernel>, ks: seq<Kernel>, w: nat)
    requires Remaining(byIn, ordered, ks) && w in byIn
    ensures byIn[w].inputs == w
  {
  }

  lemma AllTaken(ordered: seq<Kernel>, ks: seq<Kernel>)
    requires DistinctInputs(ks) && Remaining(map[], ordered, ks)
    ensures multiset(ordered) == multiset(ks)
  {
    SameElements(ordered, ks);
  }

  predicate Rectangle(k: Kernel) {
    |k.weight| == k.inputs && |k.bias| == k.outputs && forall i :: 0 <= i < k.inputs ==> |k.weight[i]| == k.outputs
  }

  /** The layers of a data-flow order of rectangular modules are chained, with tanh on all but the last. */
  lemma {:induction false} ActivatedChained(width: nat, ks: seq<Kernel>)
    requires Follows(width, ks) && forall i :: 0 <= i < |ks| ==> Rectangle(ks[i])
    ensures Chained(width, Activated(ks))
    decreases |ks|
  {
    if |ks| > 0 {
      ActivatedChained(ks[0].outputs, ks[1..]);
      assert Activated(ks)[1..] == Activated(ks[1..]);
    }
  }

  // ---------------------------------------------------------------- the emitted network

  /** The static tables of one layer and its part of the function body. */
  datatype CLayer = CLayer(nIn: nat, nOut: nat, flatW: Vec, flatB: Vec, tanh: bool)

  /** Row-major weights. */
  function EmitLayer(l: Layer): CLayer {
    CLayer(|l.weight|, |l.bias|, Flat(l.weight), l.bias, l.tanh)
  }

  function EmitMlp(ls: seq<Layer>): (cs: seq<CLayer>)
    ensures |cs| == |ls| && forall i :: 0 <= i < |ls| ==> cs[i] == EmitLayer(ls[i])
  {
    seq(|ls|, i requires 0 <= i < |ls| => EmitLayer(ls[i]))
  }

  /** No layer is wider than the buffers. */
  predicate Narrow(ls: seq<Layer>) {
    forall i :: 0 <= i < |ls| ==> ls[i].inputs <= BUFFER && ls[i].outputs <= BUFFER
  }

  lemma TableEntry(l: Layer, k: nat, j: nat)
    requires WellFormed(l) && k < l.inputs && j < l.outputs
    ensures k * l.outputs + j < |EmitLayer(l).flatW| && EmitLayer(l).flatW[k * l.outputs + j] == l.weight[k][j]
  {
    FlatAt(l.weight, l.outputs, k, j);
  }

  /** The loops emitted for one layer: from the first buffer into the second and back. */
  method RunLayer(tanh: real -> real, c: CLayer, cur: array<real>, nxt: array<real>, ghost l: Layer, ghost x: Vec)
    requires WellFormed(l) && c == EmitLayer(l) && |x| == l.inputs
    requires cur != nxt && l.inputs <= cur.Length && l.outputs <= cur.Length == nxt.Length
    requires cur[..l.inputs] == x
    modifies cur, nxt
    ensures cur[..l.outputs] == Dense(tanh, l, x)
  {
    hide Flat;
    var nNxt := c.nOut;
    for j := 0 to c.nOut
      invariant cur[..l.inputs] == x
      invariant forall i :: 0 <= i < j ==> nxt[i] == Dense(tanh, l, x)[i]
    {
      var acc := c.flatB[j];
      for k := 0 to c.nIn
        invariant acc == Accumulate(l, x, j, k)
        invariant cur[..l.inputs] == x
        invariant forall i :: 0 <= i < j ==> nxt[i] == Dense(tanh, l, x)[i]
      {
        TableEntry(l, k, j);
        assert cur[k] == x[k];
        acc := acc + cur[k] * c.flatW[k * c.nOut + j];
      }
      nxt[j] := if c.tanh then tanh(acc) else acc;
    }
    for j := 0 to nNxt
      invariant forall i :: 0 <= i < j ==> cur[i] == Dense(tanh, l, x)[i]
      invariant forall i :: 0 <= i < l.outputs ==> nxt[i] == Dense(tanh, l, x)[i]
    {
      cur[j] := nxt[j];
    }
  }

  /** The emitted policy function computes the reference forward pass, for widths within the buffers. */
  method JxPolicy(tanh: real -> real, cs: seq<CLayer>, x: array<real>, u: array<real>, ghost ls: seq<Layer>)
    requires cs == EmitMlp(ls) && Chained(x.Length, ls) && Narrow(ls) && x.Length <= BUFFER
    requires u.Length == OutputWidth(x.Length, ls) && x != u
    modifies u
    ensures u[..] == Forward(tanh, ls, x[..])
  {
    var cur, nxt := new real[BUFFER], new real[BUFFER];
    for i := 0 to x.Length
      invariant forall k :: 0 <= k < i ==> cur[k] == x[k]
      invariant u[..] == old(u[..])
    {
      cur[i] := x[i];
    }
    var nCur := x.Length;
    ghost var h := x[..];
    assert cur[..nCur] == h && ls[0..] == ls;
    for i := 0 to |cs|
      invariant nCur == |h| <= BUFFER && cur[..nCur] == h
      invariant Chained(|h|, ls[i..]) && Forward(tanh, ls[i..], h) == Forward(tanh, ls, x[..])
    {
      assert ls[i..][0] == ls[i] && ls[i..][1..] == ls[i + 1..];
      RunLayer(tanh, cs[i], cur, nxt, ls[i], h);
      h := Dense(tanh, ls[i], h);
      nCur := cs[i].nOut;
    }
    assert h == Forward(tanh, ls, x[..]);
    for j := 0 to u.Length
      invariant cur[..nCur] == h && nCur == |h| == u.Length
      invariant forall k :: 0 <= k < j ==> u[k] == h[k]
    {
      assert cur[j] == cur[..nCur][j];
      u[j] := cur[j];
    }
  }
}
