/**
 The target of the policy exporter: flat ONNX graphs of the operators it emits, with the
 meaning the operators have in the ONNX specification, and the structural rules of a valid
 graph.
 */
module OnnxGraph {
  import opened Wrappers
  import opened Grids
  import opened Linear
  import opened Jaxpr

  datatype OpType =
    | AddN | SubN | MulN | DivN | MaxN | TanhN | SigmoidN | ExpN | LogN | SqrtN | NegN
    | PowN | MatMulN | ReshapeN | IdentityN

  /** A float tensor or an int64 vector of extents. */
  datatype GraphValue = Float(t: Tensor) | Extents(d: seq<int>)

  datatype Node = Node(op: OpType, inputs: seq<string>, output: string)

  datatype Init = Init(name: string, value: GraphValue)

  datatype Graph = Graph(inputs: seq<string>, inits: seq<Init>, nodes: seq<Node>, outputs: seq<string>)

  // ---------------------------------------------------------------- operators

  /** Multidirectional broadcasting: shapes are aligned at their last axis. */
  function RunBinary(S: Scalars, op: BinOp, a: Tensor, b: Tensor): Option<Tensor> {
    if LeadsFit(a, b) && Compatible(a.g, b.g) then Some(Entrywise(S, op, a, b)) else None
  }

  function RunUnary(S: Scalars, op: UnOp, a: Tensor): Tensor {
    a.(g := Map(x => S.un(op, x), a.g))
  }

  /** Matrix product as numpy has it: a vector on the left is a row, on the right a column, and a stack on the left is multiplied matrix by matrix. */
  function RunMatMul(a: Tensor, b: Tensor): Option<Tensor> {
    if a.rank == 0 || b.rank == 0 || b.rank > 2 then None
    else
      var r := if b.rank == 1 then Flip(b.g) else b.g;
      if a.g.c != r.r then None else Some(Contracted(a, Product(a.g, r), b.rank))
  }

  /** In the requested extents, 0 keeps the extent of the operand at that place. */
  function Requested(shape: seq<nat>, d: seq<int>): Option<seq<nat>> {
    if |d| == 0 then Some([])
    else if d[0] < 0 || (d[0] == 0 && |shape| == 0) then None
    else
      var rest :- Requested(if |shape| == 0 then [] else shape[1..], d[1..]);
      Some([if d[0] == 0 then shape[0] else d[0]] + rest)
  }

  function RunReshape(t: Tensor, d: seq<int>): Option<Tensor> {
    var sizes :- Requested(Shape(t), d);
    EvalReshape(t, sizes)
  }

  function UnaryOf(op: OpType): Option<UnOp> {
    match op
    case TanhN => Some(Tanh)
    case SigmoidN => Some(Logistic)
    case ExpN => Some(Exp)
    case LogN => Some(Log)
    case SqrtN => Some(Sqrt)
    case NegN => Some(Neg)
    case _ => None
  }

  function BinaryOf(op: OpType): Option<BinOp> {
    match op
    case AddN => Some(AddOp)
    case SubN => Some(SubOp)
    case MulN => Some(MulOp)
    case DivN => Some(DivOp)
    case MaxN => Some(MaxOp)
    case PowN => Some(PowOp)
    case _ => None
  }

  function RunNode(S: Scalars, op: OpType, args: seq<GraphValue>): Option<GraphValue> {
    if UnaryOf(op).Some? then
      if |args| == 1 && args[0].Float? then Some(Float(RunUnary(S, UnaryOf(op).value, args[0].t))) else None
    else if BinaryOf(op).Some? then
      if |args| == 2 && args[0].Float? && args[1].Float? then
        var t :- RunBinary(S, BinaryOf(op).value, args[0].t, args[1].t);
        Some(Float(t))
      else None
    else if op.MatMulN? then
      if |args| == 2 && args[0].Float? && args[1].Float? then
        var t :- RunMatMul(args[0].t, args[1].t);
        Some(Float(t))
      else None
    else if op.ReshapeN? then
      if |args| == 2 && args[0].Float? && args[1].Extents? then
        var t :- RunReshape(args[0].t, args[1].d);
        Some(Float(t))
      else None
    else
      if |args| == 1 then Some(args[0]) else None
  }

  // ---------------------------------------------------------------- running a graph

  type Store = map<string, GraphValue>

  function Fetch(store: Store, names: seq<string>): (r: Option<seq<GraphValue>>)
    ensures r.Some? ==> |r.value| == |names|
    ensures r.Some? ==> forall k :: 0 <= k < |names| ==> names[k] in store && store[names[k]] == r.value[k]
    ensures r.None? ==> exists k :: 0 <= k < |names| && names[k] !in store
  {
    if |names| == 0 then Some([])
    else if names[0] !in store then None
    else
      match Fetch(store, names[1..])
      case None => assert exists k :: 0 <= k < |names[1..]| && names[1..][k] !in store; None
      case Some(rest) => Some([store[names[0]]] + rest)
  }

  function RunNodes(S: Scalars, nodes: seq<Node>, store: Store): Option<Store> {
    if |nodes| == 0 then Some(store)
    else
      var args :- Fetch(store, nodes[0].inputs);
      var v :- RunNode(S, nodes[0].op, args);
      RunNodes(S, nodes[1..], store[nodes[0].output := v])
  }

  function Load(store: Store, inits: seq<Init>): Store
    decreases |inits|
  {
    if |inits| == 0 then store else Load(store[inits[0].name := inits[0].value], inits[1..])
  }

  function Supply(names: seq<string>, ts: seq<Tensor>): Store
    decreases |names|
  {
    if |names| == 0 || |ts| == 0 then map[]
    else Supply(names[..|names| - 1], ts[..|ts| - 1])[names[|names| - 1] := Float(ts[|ts| - 1])]
  }

  /** The values of the graph outputs on the given inputs. */
  function Run(S: Scalars, graph: Graph, ts: seq<Tensor>): Option<seq<GraphValue>> {
    if |ts| != |graph.inputs| then None
    else
      var store :- RunNodes(S, graph.nodes, Load(Supply(graph.inputs, ts), graph.inits));
      Fetch(store, graph.outputs)
  }

  // ---------------------------------------------------------------- structure

  function InitNames(inits: seq<Init>): (names: seq<string>)
    ensures |names| == |inits| && forall k :: 0 <= k < |inits| ==> names[k] == inits[k].name
  {
    seq(|inits|, k requires 0 <= k < |inits| => inits[k].name)
  }

  function NodeOutputs(nodes: seq<Node>): (names: seq<string>)
    ensures |names| == |nodes| && forall k :: 0 <= k < |nodes| ==> names[k] == nodes[k].output
  {
    seq(|nodes|, k requires 0 <= k < |nodes| => nodes[k].output)
  }

  predicate Distinct(names: seq<string>) {
    forall i, j :: 0 <= i < j < |names| ==> names[i] != names[j]
  }

  /** Single assignment: every name of the graph is defined once. */
  predicate SingleAssignment(g: Graph) {
    Distinct(g.inputs + InitNames(g.inits) + NodeOutputs(g.nodes))
  }

  /** Topological order: node k reads inputs, initializers and outputs of nodes before k. */
  predicate Sorted(g: Graph) {
    forall k :: 0 <= k < |g.nodes| ==>
      forall name :: name in g.nodes[k].inputs ==>
        name in g.inputs || name in InitNames(g.inits) || name in NodeOutputs(g.nodes[..k])
  }

  // ---------------------------------------------------------------- how running reacts to growth

  lemma {:induction false} RunAppend(S: Scalars, nodes: seq<Node>, n: Node, store: Store)
    ensures RunNodes(S, nodes + [n], store) ==
      match RunNodes(S, nodes, store)
      case None => None
      case Some(end) => RunNodes(S, [n], end)
  {
    if |nodes| == 0 {
      assert nodes + [n] == [n];
    } else {
      assert (nodes + [n])[1..] == nodes[1..] + [n];
      match Fetch(store, nodes[0].inputs)
      case None =>
      case Some(args) =>
        match RunNode(S, nodes[0].op, args)
        case None =>
        case Some(v) => RunAppend(S, nodes[1..], n, store[nodes[0].output := v]);
    }
  }

  lemma {:induction false} LoadAppend(store: Store, inits: seq<Init>, i: Init)
    ensures Load(store, inits + [i]) == Load(store, inits)[i.name := i.value]
    decreases |inits|
  {
    if |inits| == 0 {
      assert inits + [i] == [i];
    } else {
      assert (inits + [i])[1..] == inits[1..] + [i];
      LoadAppend(store[inits[0].name := inits[0].value], inits[1..], i);
    }
  }

  lemma {:induction false} FetchExtended(store: Store, name: string, v: GraphValue, names: seq<string>)
    requires name !in store && Fetch(store, names).Some?
    ensures Fetch(store[name := v], names) == Fetch(store, names)
  {
    if |names| > 0 {
      FetchExtended(store, name, v, names[1..]);
    }
  }

  /** One more initializer, under a name the graph does not use, changes nothing else. */
  lemma {:induction false} RunExtended(S: Scalars, nodes: seq<Node>, store: Store, name: string, v: GraphValue)
    requires name !in store && name !in NodeOutputs(nodes) && RunNodes(S, nodes, store).Some?
    ensures RunNodes(S, nodes, store[name := v]) == Some(RunNodes(S, nodes, store).value[name := v])
  {
    if |nodes| > 0 {
      var args := Fetch(store, nodes[0].inputs).value;
      var w := RunNode(S, nodes[0].op, args).value;
      var out := nodes[0].output;
      FetchExtended(store, name, v, nodes[0].inputs);
      assert out == NodeOutputs(nodes)[0] && NodeOutputs(nodes[1..]) == NodeOutputs(nodes)[1..];
      assert store[name := v][out := w] == store[out := w][name := v];
      RunExtended(S, nodes[1..], store[out := w], name, v);
    }
  }

  lemma {:induction false} RunKeys(S: Scalars, nodes: seq<Node>, store: Store)
    requires RunNodes(S, nodes, store).Some?
    ensures forall name :: name in RunNodes(S, nodes, store).value ==> name in store || name in NodeOutputs(nodes)
  {
    if |nodes| > 0 {
      var v := RunNode(S, nodes[0].op, Fetch(store, nodes[0].inputs).value).value;
      RunKeys(S, nodes[1..], store[nodes[0].output := v]);
      assert nodes[0].output == NodeOutputs(nodes)[0] && NodeOutputs(nodes[1..]) == NodeOutputs(nodes)[1..];
    }
  }

  lemma {:induction false} LoadKeys(store: Store, inits: seq<Init>)
    ensures forall name :: name in Load(store, inits) ==> name in store || name in InitNames(inits)
    decreases |inits|
  {
    if |inits| > 0 {
      LoadKeys(store[inits[0].name := inits[0].value], inits[1..]);
      assert inits[0].name == InitNames(inits)[0] && InitNames(inits[1..]) == InitNames(inits)[1..];
    }
  }

  // ---------------------------------------------------------------- operators against primitives

  /** Where the contraction takes the last axis of the left operand, MatMul is dot_general. */
  lemma MatMulIsDot(a: Tensor, b: Tensor, lc: nat)
    requires a.rank > 0 && lc == a.rank - 1
    ensures RunMatMul(a, b) == EvalDot(a, b, lc, 0)
  {
  }

  /** Every requested extent 0 stands where the operand has extent 0 too. */
  predicate ZerosKept(shape: seq<nat>, sizes: seq<nat>) {
    forall i :: 0 <= i < |sizes| && sizes[i] == 0 ==> i < |shape| && shape[i] == 0
  }

  /** Extents are taken as they are exactly when every 0 is one the operand has. */
  lemma {:induction false} RequestedExact(shape: seq<nat>, sizes: seq<nat>)
    ensures Requested(shape, sizes) == Some(sizes) <==> ZerosKept(shape, sizes)
  {
    if |sizes| > 0 {
      var rest := if |shape| == 0 then [] else shape[1..];
      RequestedExact(rest, sizes[1..]);
      assert [sizes[0]] + sizes[1..] == sizes;
      if ZerosKept(shape, sizes) {
        forall i | 0 <= i < |sizes[1..]| && sizes[1..][i] == 0 ensures i < |rest| && rest[i] == 0 {
          assert sizes[i + 1] == 0;
        }
      } else if Requested(shape, sizes) == Some(sizes) {
        var r := Requested(rest, sizes[1..]).value;
        var first := if sizes[0] == 0 then shape[0] else sizes[0];
        assert sizes == [first] + r;
        assert sizes[0] == first && sizes[1..] == r;
        forall i | 0 <= i < |sizes| && sizes[i] == 0 ensures i < |shape| && shape[i] == 0 {
          assert i > 0 ==> sizes[1..][i - 1] == 0;
        }
      }
    }
  }

  /** Reshape nodes reshape as jaxprs do exactly when every extent 0 is one the operand has. */
  lemma ReshapeExact(t: Tensor, sizes: seq<nat>)
    requires EvalReshape(t, sizes).Some?
    ensures RunReshape(t, sizes) == EvalReshape(t, sizes) <==> ZerosKept(Shape(t), sizes)
  {
    RequestedExact(Shape(t), sizes);
    var r := Requested(Shape(t), sizes);
    if r.Some? && EvalReshape(t, r.value) == EvalReshape(t, sizes) {
      assert |r.value| == |sizes| by { RequestedLength(Shape(t), sizes); }
      assert Shape(EvalReshape(t, r.value).value) == r.value;
      assert Shape(EvalReshape(t, sizes).value) == sizes;
    }
  }

  lemma {:induction false} RequestedLength(shape: seq<nat>, d: seq<int>)
    requires Requested(shape, d).Some?
    ensures |Requested(shape, d).value| == |d|
  {
    if |d| > 0 {
      RequestedLength(if |shape| == 0 then [] else shape[1..], d[1..]);
    }
  }

  /** A k by n right operand, or a vector of k entries when `vector` holds. */
  predicate RightOfShape(b: Tensor, vector: bool, k: nat, n: nat) {
    if vector then b.rank == 1 && b.g.c == k else b.rank == 2 && b.g.r == k && b.g.c == n
  }

  /** A square left operand that is its own transpose, or whose products are all empty. */
  predicate ContractsEither(k: nat, m: nat, vector: bool, n: nat) {
    k == m && (k <= 1 || (!vector && n == 0))
  }

  lemma ContractsEitherRight(a: Tensor, b: Tensor, k: nat, m: nat, n: nat, vector: bool)
    requires a.rank == 2 && a.g.r == k && a.g.c == m && RightOfShape(b, vector, k, n) && ContractsEither(k, m, vector, n)
    ensures RunMatMul(a, b) == EvalDot(a, b, 0, 0)
  {
    if k <= 1 {
      SameEntries(Flip(a.g), a.g);
    } else {
      SameEntries(Product(a.g, b.g), Product(Flip(a.g), b.g));
    }
  }

  /** The exporter accepts any contracted axis of the left operand. For a matrix contracted along its
      first axis the emitted MatMul is right for all operands only in the cases above. */
  lemma MatMulExact(k: nat, m: nat, n: nat, vector: bool)
    ensures (forall a: Tensor, b: Tensor :: a.rank == 2 && a.g.r == k && a.g.c == m && RightOfShape(b, vector, k, n) ==>
               RunMatMul(a, b) == EvalDot(a, b, 0, 0))
       <==> ContractsEither(k, m, vector, n)
  {
    if ContractsEither(k, m, vector, n) {
      forall a: Tensor, b: Tensor | a.rank == 2 && a.g.r == k && a.g.c == m && RightOfShape(b, vector, k, n)
        ensures RunMatMul(a, b) == EvalDot(a, b, 0, 0)
      {
        ContractsEitherRight(a, b, k, m, n, vector);
      }
    } else {
      var a: Tensor := Tensor(2, Spike(k, m, 0, 1));
      var b: Tensor := if vector then Tensor(1, Spike(1, k, 0, 0)) else Tensor(2, Spike(k, n, 0, 0));
      assert RightOfShape(b, vector, k, n);
      if k == m {
        MatMulDiffers(a, b, k, n, vector);
      }
    }
  }

  /** The grid with a one at (i0, j0) and zeros elsewhere. */
  function Spike(r: nat, c: nat, i0: nat, j0: nat): (g: Grid<real>)
    ensures g.r == r && g.c == c
    ensures forall i, j :: 0 <= i < r && 0 <= j < c ==> g.at[i][j] == if i == i0 && j == j0 then 1.0 else 0.0
  {
    Tabulate(r, c, (i: nat, j: nat) => if i == i0 && j == j0 then 1.0 else 0.0)
  }

  lemma MatMulDiffers(a: Tensor, b: Tensor, k: nat, n: nat, vector: bool)
    requires k >= 2 && (vector || n > 0) && a.rank == 2 && a.g == Spike(k, k, 0, 1)
    requires b == if vector then Tensor(1, Spike(1, k, 0, 0)) else Tensor(2, Spike(k, n, 0, 0))
    ensures RunMatMul(a, b) != EvalDot(a, b, 0, 0)
  {
    var r: Grid<real> := if vector then Flip(b.g) else b.g;
    var wrong, right := Product(a.g, r), Product(Flip(a.g), r);
    assert Column(r, 0) == Unit(k, 0);
    assert wrong.at[1][0] == 0.0 by { DotUnit(a.g.at[1], 0); }
    assert right.at[1][0] == 1.0 by { DotUnit(Flip(a.g).at[1], 0); }
    assert vector ==> Flip(wrong).at[0][1] == 0.0 && Flip(right).at[0][1] == 1.0;
  }

  lemma {:induction false} PowIsIntegerPow(S: Scalars, a: Tensor, y: int)
    requires PowLaw(S)
    ensures RunBinary(S, PowOp, a, Scalar(y as real)) == Some(a.(g := Map(x => IntPow(S, x, y), a.g)))
  {
    SameEntries(Broadcast(Scalarwise(S, PowOp), a.g, Cell(y as real)), Map(x => IntPow(S, x, y), a.g));
  }
}
