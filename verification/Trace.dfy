/**
 The hardware-in-the-loop trace: the printf statement the generator builds, the lines it writes,
 and the strict parser of those lines.
 */
module Trace {
  import opened Wrappers
  import opened Decimal
  import opened Json

  type Vec = seq<real>

  /** Which numbers are floats, how %.17g writes one and float() reads it. */
  datatype Format = Format(float: real -> bool, show: real -> string, read: string -> real)

  function Whole(n: int): real {
    n as real
  }

  /** Seventeen digits identify a float: written as an integer or as a real, it reads back the same. */
  ghost predicate Faithful(F: Format) {
    forall x: real :: F.float(x) ==> Written(F, x)
  }

  predicate AllFloats(F: Format, v: Vec) {
    forall i :: 0 <= i < |v| ==> F.float(v[i])
  }

  /** Such formats exist: whole numbers, for instance, are written as integers. */
  lemma WholeFormat() returns (F: Format)
    ensures Faithful(F) && forall x: real :: F.float(x) <==> x == x.Floor as real
  {
    F := Format((x: real) => x == x.Floor as real, (x: real) => PrintInt(x.Floor), (s: string) => 0.0);
    forall x: real | F.float(x) ensures Written(F, x) {
      assert F.show(x) == PrintInt(x.Floor) && Whole(x.Floor) == x;
    }
  }

  ghost predicate Written(F: Format, x: real) {
    || (IsReal(F.show(x)) && F.read(F.show(x)) == x)
    || (exists n: int :: F.show(x) == PrintInt(n) && Whole(n) == x)
  }

  // ---------------------------------------------------------------- the printf statement

  datatype Buffer = State | Input

  /** A slice of a buffer under a name. */
  datatype Quantity = Quantity(name: string, buffer: Buffer, start: nat, length: nat)

  /** A piece of a format string, and an argument. */
  datatype Piece = Text(s: string) | LongSlot | DoubleSlot

  datatype Arg = StepArg | At(buffer: Buffer, index: nat)

  function Slots(n: nat): seq<Piece> {
    if n == 0 then []
    else if n == 1 then [DoubleSlot]
    else [DoubleSlot, Text(", ")] + Slots(n - 1)
  }

  function Fragment(q: Quantity): seq<Piece> {
    [Text("\"" + q.name + "\": [")] + Slots(q.length) + [Text("]")]
  }

  function StepFragment(): seq<Piece> {
    [Text("\"step\": "), LongSlot]
  }

  function JoinFragments(frags: seq<seq<Piece>>): seq<Piece> {
    if |frags| == 0 then []
    else if |frags| == 1 then frags[0]
    else frags[0] + [Text(", ")] + JoinFragments(frags[1..])
  }

  function SliceArgs(q: Quantity): (args: seq<Arg>)
    ensures |args| == q.length && forall k :: 0 <= k < q.length ==> args[k] == At(q.buffer, q.start + k)
  {
    seq(q.length, k requires 0 <= k < q.length => At(q.buffer, q.start + k))
  }

  function AllArgs(trace: seq<Quantity>): seq<Arg> {
    if |trace| == 0 then [] else SliceArgs(trace[0]) + AllArgs(trace[1..])
  }

  function Fragments(trace: seq<Quantity>): (frags: seq<seq<Piece>>)
    ensures |frags| == |trace| && forall k :: 0 <= k < |trace| ==> frags[k] == Fragment(trace[k])
  {
    seq(|trace|, k requires 0 <= k < |trace| => Fragment(trace[k]))
  }

  lemma {:induction false} AllArgsAppend(trace: seq<Quantity>, q: Quantity)
    ensures AllArgs(trace + [q]) == AllArgs(trace) + SliceArgs(q)
  {
    if |trace| > 0 {
      AllArgsAppend(trace[1..], q);
      assert (trace + [q])[1..] == trace[1..] + [q];
    } else {
      assert (trace + [q])[1..] == [];
    }
  }

  /** The format string and the argument list of the per-cycle printf. */
  function FormatString(trace: seq<Quantity>): seq<Piece> {
    [Text("{")] + JoinFragments([StepFragment()] + Fragments(trace)) + [Text("}\n")]
  }

  method PrintfStatement(trace: seq<Quantity>) returns (fmt: seq<Piece>, args: seq<Arg>)
    ensures fmt == FormatString(trace) && args == [StepArg] + AllArgs(trace)
  {
    var frags := [StepFragment()];
    args := [StepArg];
    for i := 0 to |trace|
      invariant frags == [StepFragment()] + Fragments(trace[..i])
      invariant args == [StepArg] + AllArgs(trace[..i])
    {
      frags := frags + [Fragment(trace[i])];
      args := args + SliceArgs(trace[i]);
      AllArgsAppend(trace[..i], trace[i]);
      assert trace[..i + 1] == trace[..i] + [trace[i]];
      assert Fragments(trace[..i + 1]) == Fragments(trace[..i]) + [Fragment(trace[i])];
    }
    assert trace[..|trace|] == trace;
    fmt := [Text("{")] + JoinFragments(frags) + [Text("}\n")];
  }

  // ---------------------------------------------------------------- what the statement writes

  /** One cycle: its number, the state and the input. */
  datatype Cycle = Cycle(step: nat, x: Vec, u: Vec)

  /** The buffers of C doubles. */
  predicate InFloats(F: Format, c: Cycle) {
    AllFloats(F, c.x) && AllFloats(F, c.u)
  }

  function Contents(c: Cycle, b: Buffer): Vec {
    if b.State? then c.x else c.u
  }

  /** What one piece writes, and the arguments it leaves; a wrong or missing argument is an error. */
  function FillPiece(F: Format, p: Piece, args: seq<Arg>, c: Cycle): Option<(string, seq<Arg>)> {
    match p
    case Text(s) => Some((s, args))
    case LongSlot => if |args| == 0 || !args[0].StepArg? then None else Some((PrintInt(c.step), args[1..]))
    case DoubleSlot =>
      if |args| == 0 || !args[0].At? || args[0].index >= |Contents(c, args[0].buffer)| then None
      else Some((F.show(Contents(c, args[0].buffer)[args[0].index]), args[1..]))
  }

  /** printf: every slot takes the next argument, and none is left over. */
  function Fill(F: Format, fmt: seq<Piece>, args: seq<Arg>, c: Cycle): Option<string>
    decreases |fmt|
  {
    if |fmt| == 0 then if |args| == 0 then Some("") else None
    else
      var head :- FillPiece(F, fmt[0], args, c);
      var rest :- Fill(F, fmt[1..], head.1, c);
      Some(head.0 + rest)
  }

  lemma FillPieceMore(F: Format, p: Piece, a: seq<Arg>, b: seq<Arg>, c: Cycle)
    requires FillPiece(F, p, a, c).Some?
    ensures FillPiece(F, p, a + b, c) == Some((FillPiece(F, p, a, c).value.0, FillPiece(F, p, a, c).value.1 + b))
  {
    if |a| > 0 {
      assert (a + b)[1..] == a[1..] + b;
    }
  }

  lemma {:induction false} FillAppend(F: Format, f: seq<Piece>, a: seq<Arg>, g: seq<Piece>, b: seq<Arg>, c: Cycle)
    requires Fill(F, f, a, c).Some? && Fill(F, g, b, c).Some?
    ensures Fill(F, f + g, a + b, c) == Some(Fill(F, f, a, c).value + Fill(F, g, b, c).value)
    decreases |f|
  {
    hide FillPiece;
    if |f| == 0 {
      assert f + g == g && a + b == b && "" + Fill(F, g, b, c).value == Fill(F, g, b, c).value;
    } else {
      assert (f + g)[0] == f[0] && (f + g)[1..] == f[1..] + g;
      var head := FillPiece(F, f[0], a, c).value;
      FillPieceMore(F, f[0], a, b, c);
      FillAppend(F, f[1..], head.1, g, b, c);
      Assoc(head.0, Fill(F, f[1..], head.1, c).value, Fill(F, g, b, c).value);
    }
  }

  lemma Assoc(a: string, b: string, c: string)
    ensures a + (b + c) == (a + b) + c
  {
  }

  /** The slices lie in the buffers. */
  predicate Fitting(trace: seq<Quantity>, c: Cycle) {
    forall k :: 0 <= k < |trace| ==> FitsIn(trace[k], c)
  }

  predicate FitsIn(q: Quantity, c: Cycle) {
    q.start + q.length <= |Contents(c, q.buffer)|
  }

  function Slice(q: Quantity, c: Cycle): (v: Vec)
    requires FitsIn(q, c)
    ensures |v| == q.length
  {
    Contents(c, q.buffer)[q.start..q.start + q.length]
  }

  /** A name that JSON and printf write as it is. */
  predicate Plain(name: string) {
    forall i :: 0 <= i < |name| ==> ' ' <= name[i] <= '~' && name[i] != '\"' && name[i] != '\\' && name[i] != '%'
  }

  predicate PlainNames(trace: seq<Quantity>) {
    forall k :: 0 <= k < |trace| ==> Plain(trace[k].name)
  }

  /** A number as the JSON value its text stands for. */
  function Number(F: Format, x: real): Json {
    var t := NumberToken(F.show(x));
    if t.Some? then t.value else Null
  }

  function Numbers(F: Format, v: Vec): (xs: seq<Json>)
    ensures |xs| == |v| && forall k :: 0 <= k < |v| ==> xs[k] == Number(F, v[k])
  {
    seq(|v|, k requires 0 <= k < |v| => Number(F, v[k]))
  }

  /** The number a JSON value stands for. */
  function ValueOf(F: Format, v: Json): Option<real> {
    match v
    case Int(n) => Some(Whole(n))
    case Real(token) => Some(F.read(token))
    case _ => None
  }

  lemma NumberMeans(F: Format, x: real)
    requires Faithful(F) && F.float(x)
    ensures ValueOf(F, Number(F, x)) == Some(x) && Lexical(Number(F, x))
    ensures forall style :: Render(style, Number(F, x)) == F.show(x)
    ensures forall i :: 0 <= i < |F.show(x)| ==> IsNumberChar(F.show(x)[i])
  {
    hide IsReal, NumberToken, PrintInt;
    assert Written(F, x);
    if IsReal(F.show(x)) && F.read(F.show(x)) == x {
      RealStart(F.show(x));
      RealChars(F.show(x));
    } else {
      var n: int :| F.show(x) == PrintInt(n) && Whole(n) == x;
      NumeralToken(n);
    }
  }

  function FieldOf(F: Format, q: Quantity, c: Cycle): Field
    requires FitsIn(q, c)
  {
    Field(q.name, Arr(Numbers(F, Slice(q, c))))
  }

  function Fields(F: Format, trace: seq<Quantity>, c: Cycle): (fs: seq<Field>)
    requires Fitting(trace, c)
    ensures |fs| == |trace| && forall k :: 0 <= k < |trace| ==> fs[k] == FieldOf(F, trace[k], c)
  {
    seq(|trace|, k requires 0 <= k < |trace| => FieldOf(F, trace[k], c))
  }

  /** The record of a cycle: its step and every slice under its name. */
  function Record(F: Format, trace: seq<Quantity>, c: Cycle): seq<Field>
    requires Fitting(trace, c)
  {
    [Field("step", Int(c.step))] + Fields(F, trace, c)
  }

  function Line(F: Format, trace: seq<Quantity>, c: Cycle): string
    requires Fitting(trace, c)
  {
    Render(Spaced, Obj(Record(F, trace, c)))
  }

  lemma {:induction false} PlainEscapes(name: string)
    requires Plain(name)
    ensures EscapeAll(name) == name && Quote(name) == "\"" + name + "\""
  {
    if |name| > 0 {
      PlainEscapes(name[1..]);
      assert Escape(name[0]) == [name[0]];
      assert name == [name[0]] + name[1..];
    }
  }

  lemma {:induction false} FillSlots(F: Format, b: Buffer, start: nat, n: nat, c: Cycle)
    requires Faithful(F) && InFloats(F, c) && start + n <= |Contents(c, b)|
    ensures Fill(F, Slots(n), SliceArgs(Quantity("", b, start, n)), c)
         == Some(RenderElems(Spaced, Numbers(F, Contents(c, b)[start..start + n])))
    decreases n
  {
    hide PrintInt, Faithful, Fill, Slots, RenderElems, Number;
    var args, v := SliceArgs(Quantity("", b, start, n)), Contents(c, b)[start..start + n];
    if n == 0 {
      EmptySlots(F, c);
      assert args == [] && Numbers(F, v) == [];
    } else {
      FillSlots(F, b, start + 1, n - 1, c);
      assert args[1..] == SliceArgs(Quantity("", b, start + 1, n - 1));
      assert v[1..] == Contents(c, b)[start + 1..start + 1 + (n - 1)];
      FillOne(F, b, start, n, args, c);
      NumbersText(F, v);
    }
  }

  lemma EmptySlots(F: Format, c: Cycle)
    ensures Fill(F, Slots(0), [], c) == Some("") && RenderElems(Spaced, []) == ""
  {
  }

  lemma NumbersText(F: Format, v: Vec)
    requires Faithful(F) && AllFloats(F, v) && |v| > 0
    ensures RenderElems(Spaced, Numbers(F, v)) == F.show(v[0]) + (if |v| > 1 then ", " else "") + RenderElems(Spaced, Numbers(F, v[1..]))
  {
    hide Render, Number, Faithful;
    NumberMeans(F, v[0]);
    assert Numbers(F, v)[1..] == Numbers(F, v[1..]) && Numbers(F, v)[0] == Number(F, v[0]);
    assert Render(Spaced, Number(F, v[0])) == F.show(v[0]);
    if |v| == 1 {
      assert F.show(v[0]) == F.show(v[0]) + "" + "";
    }
  }

  /** The first slot and its separator. */
  lemma FillOne(F: Format, b: Buffer, start: nat, n: nat, args: seq<Arg>, c: Cycle)
    requires n > 0 && start < |Contents(c, b)| && |args| == n && args[0] == At(b, start)
    requires Fill(F, Slots(n - 1), args[1..], c).Some?
    ensures Fill(F, Slots(n), args, c)
         == Some(F.show(Contents(c, b)[start]) + (if n > 1 then ", " else "") + Fill(F, Slots(n - 1), args[1..], c).value)
  {
    var fmt, head, rest := Slots(n), F.show(Contents(c, b)[start]), Fill(F, Slots(n - 1), args[1..], c).value;
    assert FillPiece(F, fmt[0], args, c) == Some((head, args[1..]));
    if n > 1 {
      assert fmt[1..][0] == Text(", ") && fmt[1..][1..] == Slots(n - 1);
      assert FillPiece(F, fmt[1..][0], args[1..], c) == Some((", ", args[1..]));
      assert Fill(F, fmt[1..], args[1..], c) == Some(", " + rest);
      Assoc(head, ", ", rest);
    } else {
      assert fmt[1..] == [] && args[1..] == [] && rest == "";
      assert head + "" == head + "" + "";
    }
  }

  lemma TextFills(F: Format, t: string, c: Cycle)
    ensures Fill(F, [Text(t)], [], c) == Some(t)
  {
    assert [Text(t)][1..] == [];
    assert Fill(F, [], [], c) == Some("") && t + "" == t;
  }

  lemma FragmentFills(F: Format, q: Quantity, c: Cycle)
    requires Faithful(F) && InFloats(F, c) && Plain(q.name) && FitsIn(q, c)
    ensures Fill(F, Fragment(q), SliceArgs(q), c) == Some(RenderField(Spaced, FieldOf(F, q, c)))
  {
    hide Fill, Slots, RenderElems, EscapeAll, Faithful;
    var open, elems := "\"" + q.name + "\": [", RenderElems(Spaced, Numbers(F, Slice(q, c)));
    FillSlots(F, q.buffer, q.start, q.length, c);
    assert SliceArgs(q) == SliceArgs(Quantity("", q.buffer, q.start, q.length));
    TextFills(F, open, c);
    TextFills(F, "]", c);
    FillAppend(F, [Text(open)], [], Slots(q.length), SliceArgs(q), c);
    assert [] + SliceArgs(q) == SliceArgs(q) && SliceArgs(q) + [] == SliceArgs(q);
    FillAppend(F, [Text(open)] + Slots(q.length), SliceArgs(q), [Text("]")], [], c);
    PlainEscapes(q.name);
    assert Quote(q.name) + ": " + ("[" + elems + "]") == (open + elems) + "]";
  }

  lemma StepFills(F: Format, c: Cycle)
    ensures Fill(F, StepFragment(), [StepArg], c) == Some(RenderField(Spaced, Field("step", Int(c.step))))
  {
    hide PrintInt, Fill, Quote, EscapeAll;
    var text := PrintInt(c.step);
    TextFills(F, "\"step\": ", c);
    LongFills(F, c);
    FillAppend(F, [Text("\"step\": ")], [], [LongSlot], [StepArg], c);
    assert [] + [StepArg] == [StepArg] && [Text("\"step\": ")] + [LongSlot] == StepFragment();
    StepQuoted();
    assert "\"step\"" + ": " + text == "\"step\": " + text;
  }

  lemma StepQuoted()
    ensures Quote("step") == "\"step\""
  {
    assert Plain("step");
    PlainEscapes("step");
  }

  lemma LongFills(F: Format, c: Cycle)
    ensures Fill(F, [LongSlot], [StepArg], c) == Some(PrintInt(c.step))
  {
    hide PrintInt;
    EmptyFill(F, c);
    assert [LongSlot][1..] == [] && [StepArg][1..] == [] && PrintInt(c.step) + "" == PrintInt(c.step);
    assert FillPiece(F, LongSlot, [StepArg], c) == Some((PrintInt(c.step), []));
  }

  /** A fragment and a comma before more. */
  lemma PrependFills(F: Format, f: seq<Piece>, a: seq<Arg>, g: seq<Piece>, b: seq<Arg>, head: string, tail: string, c: Cycle)
    requires Fill(F, f, a, c) == Some(head) && Fill(F, g, b, c) == Some(tail)
    ensures Fill(F, f + [Text(", ")] + g, a + b, c) == Some(head + ", " + tail)
  {
    hide Fill;
    TextFills(F, ", ", c);
    FillAppend(F, f, a, [Text(", ")], [], c);
    assert a + [] == a;
    FillAppend(F, f + [Text(", ")], a, g, b, c);
  }

  lemma {:induction false} FieldsFill(F: Format, trace: seq<Quantity>, c: Cycle)
    requires Faithful(F) && InFloats(F, c) && PlainNames(trace) && Fitting(trace, c)
    ensures Fill(F, JoinFragments(Fragments(trace)), AllArgs(trace), c) == Some(RenderFields(Spaced, Fields(F, trace, c)))
    decreases |trace|
  {
    hide Fill, Fragment, RenderField, FieldOf, Faithful;
    if |trace| > 0 {
      FragmentFills(F, trace[0], c);
      FieldsFill(F, trace[1..], c);
      assert Fragments(trace)[1..] == Fragments(trace[1..]);
      assert Fields(F, trace, c)[1..] == Fields(F, trace[1..], c);
      if |trace| == 1 {
        assert AllArgs(trace[1..]) == [] && AllArgs(trace) == SliceArgs(trace[0]);
      } else {
        PrependFills(F, Fragment(trace[0]), SliceArgs(trace[0]), JoinFragments(Fragments(trace[1..])), AllArgs(trace[1..]),
                     RenderField(Spaced, FieldOf(F, trace[0], c)), RenderFields(Spaced, Fields(F, trace[1..], c)), c);
      }
    } else {
      EmptyFill(F, c);
    }
  }

  lemma EmptyFill(F: Format, c: Cycle)
    ensures Fill(F, [], [], c) == Some("")
  {
  }

  lemma AllFieldsFill(F: Format, trace: seq<Quantity>, c: Cycle)
    requires Faithful(F) && InFloats(F, c) && PlainNames(trace) && Fitting(trace, c)
    ensures Fill(F, JoinFragments([StepFragment()] + Fragments(trace)), [StepArg] + AllArgs(trace), c)
         == Some(RenderFields(Spaced, Record(F, trace, c)))
  {
    hide Fill, StepFragment, RenderField, Fragment, FieldOf, Faithful;
    var frags, fs := [StepFragment()] + Fragments(trace), Record(F, trace, c);
    StepFills(F, c);
    assert frags[1..] == Fragments(trace) && fs[1..] == Fields(F, trace, c);
    if |trace| == 0 {
      assert AllArgs(trace) == [] && [StepArg] + [] == [StepArg];
    } else {
      FieldsFill(F, trace, c);
      PrependFills(F, StepFragment(), [StepArg], JoinFragments(Fragments(trace)), AllArgs(trace),
                   RenderField(Spaced, fs[0]), RenderFields(Spaced, fs[1..]), c);
    }
  }

  /** The generated statement writes the record of the cycle as one JSON line. */
  lemma StatementWritesLine(F: Format, trace: seq<Quantity>, c: Cycle)
    requires Faithful(F) && InFloats(F, c) && PlainNames(trace) && Fitting(trace, c)
    ensures Fill(F, FormatString(trace), [StepArg] + AllArgs(trace), c) == Some(Line(F, trace, c) + "\n")
  {
    hide Fill, JoinFragments, AllArgs, RenderFields, Record, Faithful;
    var frags, args, text := JoinFragments([StepFragment()] + Fragments(trace)), [StepArg] + AllArgs(trace), RenderFields(Spaced, Record(F, trace, c));
    AllFieldsFill(F, trace, c);
    TextFills(F, "{", c);
    TextFills(F, "}\n", c);
    FillAppend(F, [Text("{")], [], frags, args, c);
    assert [] + args == args && args + [] == args;
    FillAppend(F, [Text("{")] + frags, args, [Text("}\n")], [], c);
    assert ("{" + text) + "}\n" == ("{" + text + "}") + "\n";
  }

  // ---------------------------------------------------------------- lines of standard output

  /** The first line break, or the end. */
  function Cut(s: string): (k: nat)
    ensures k <= |s| && (k < |s| ==> s[k] == '\n') && forall i :: 0 <= i < k ==> s[i] != '\n'
  {
    if |s| == 0 || s[0] == '\n' then 0 else 1 + Cut(s[1..])
  }

  predicate Blank(s: string) {
    forall i :: 0 <= i < |s| ==> IsSpace(s[i])
  }

  /** The lines that are not blank. */
  function Lines(s: string): seq<string>
    decreases |s|
  {
    if |s| == 0 then []
    else
      var k := Cut(s);
      (if Blank(s[..k]) then [] else [s[..k]]) + Lines(if k < |s| then s[k + 1..] else "")
  }

  function Unlines(ls: seq<string>): string {
    if |ls| == 0 then "" else ls[0] + "\n" + Unlines(ls[1..])
  }

  predicate OneLine(s: string) {
    !Blank(s) && forall i :: 0 <= i < |s| ==> s[i] != '\n'
  }

  lemma {:induction false} LinesOfUnlines(ls: seq<string>)
    requires forall k :: 0 <= k < |ls| ==> OneLine(ls[k])
    ensures Lines(Unlines(ls)) == ls
  {
    hide Lines, OneLine;
    if |ls| > 0 {
      LinesOfUnlines(ls[1..]);
      FirstLine(ls[0], Unlines(ls[1..]));
      Assoc(ls[0], "\n", Unlines(ls[1..]));
      assert [ls[0]] + ls[1..] == ls;
    } else {
      NoLines();
    }
  }

  lemma NoLines()
    ensures Lines("") == []
  {
  }

  lemma FirstLine(l: string, rest: string)
    requires OneLine(l)
    ensures Lines(l + ("\n" + rest)) == [l] + Lines(rest)
  {
    var s := l + ("\n" + rest);
    CutAt(l, rest);
    assert s[..|l|] == l && s[|l| + 1..] == rest;
  }

  lemma CutAt(l: string, rest: string)
    requires forall i :: 0 <= i < |l| ==> l[i] != '\n'
    ensures Cut(l + ("\n" + rest)) == |l|
  {
    var s := l + ("\n" + rest);
    assert s[|l|] == '\n';
    assert forall i :: 0 <= i < |l| ==> s[i] == l[i];
  }

  // ---------------------------------------------------------------- the strict parser

  /** A quantity of the schema and its per-step shape. */
  datatype Column = Column(name: string, shape: seq<nat>)

  /** An array of numbers: its shape and its entries in row-major order. */
  datatype NArray = NArray(shape: seq<nat>, flat: Vec)

  function AllArrays(F: Format, xs: seq<Json>): (r: Option<seq<NArray>>)
    ensures r.Some? ==> |r.value| == |xs|
    decreases xs, 0
  {
    if |xs| == 0 then Some([])
    else
      var a :- AsArray(F, xs[0]);
      var rest :- AllArrays(F, xs[1..]);
      Some([a] + rest)
  }

  function Concat(arrays: seq<NArray>): Vec {
    if |arrays| == 0 then [] else arrays[0].flat + Concat(arrays[1..])
  }

  /** np.asarray of a number or of nested lists of numbers; ragged lists and other values are errors. */
  function AsArray(F: Format, v: Json): Option<NArray>
    decreases v, 1
  {
    match v
    case Int(n) => Some(NArray([], [Whole(n)]))
    case Real(token) => Some(NArray([], [F.read(token)]))
    case Arr(xs) =>
      if |xs| == 0 then Some(NArray([0], []))
      else
        var arrays :- AllArrays(F, xs);
        if forall k :: 0 <= k < |arrays| ==> arrays[k].shape == arrays[0].shape then
          Some(NArray([|xs|] + arrays[0].shape, Concat(arrays)))
        else None
    case _ => None
  }

  function Entries(shape: seq<nat>): nat {
    if |shape| == 0 then 1 else shape[0] * Entries(shape[1..])
  }

  /** A number is an array of no axes. */
  lemma NumberArray(F: Format, n: int, token: string)
    ensures AsArray(F, Int(n)) == Some(NArray([], [Whole(n)])) && AsArray(F, Real(token)) == Some(NArray([], [F.read(token)]))
  {
  }

  /** A list is an array with an axis of its length before those of its elements, and their entries in order. */
  lemma ListLayout(F: Format, xs: seq<Json>, i: nat)
    requires AsArray(F, Arr(xs)).Some? && i < |xs|
    ensures var a := AsArray(F, Arr(xs)).value;
      && |a.shape| > 0 && a.shape[0] == |xs| && |a.flat| == Entries(a.shape)
      && var n := Entries(a.shape[1..]);
         0 <= i * n <= i * n + n <= |a.flat| && AsArray(F, xs[i]) == Some(NArray(a.shape[1..], a.flat[i * n..i * n + n]))
  {
    hide Concat, Entries;
    var arrays := AllArrays(F, xs).value;
    var a := AsArray(F, Arr(xs)).value;
    assert a.shape[1..] == arrays[0].shape;
    AllArraysAt(F, xs);
    forall k | 0 <= k < |xs| ensures |arrays[k].flat| == Entries(a.shape[1..]) {
      assert AsArray(F, xs[k]) == Some(arrays[k]);
      FlatSize(F, xs[k]);
    }
    ConcatAt(arrays, Entries(a.shape[1..]), i);
    EntriesStep(a.shape);
  }

  lemma EntriesStep(shape: seq<nat>)
    requires |shape| > 0
    ensures Entries(shape) == shape[0] * Entries(shape[1..])
  {
  }

  lemma {:induction false} AllArraysAt(F: Format, xs: seq<Json>)
    requires AllArrays(F, xs).Some?
    ensures forall k :: 0 <= k < |xs| ==> AsArray(F, xs[k]) == Some(AllArrays(F, xs).value[k])
  {
    hide AsArray;
    if |xs| > 0 {
      AllArraysAt(F, xs[1..]);
      assert forall k :: 0 < k < |xs| ==> xs[k] == xs[1..][k - 1];
    }
  }

  lemma {:induction false} ConcatAt(arrays: seq<NArray>, n: nat, i: nat)
    requires (forall k :: 0 <= k < |arrays| ==> |arrays[k].flat| == n) && i < |arrays|
    ensures |Concat(arrays)| == |arrays| * n && 0 <= i * n <= i * n + n <= |arrays| * n
    ensures Concat(arrays)[i * n..i * n + n] == arrays[i].flat
    decreases |arrays|
  {
    var rest := arrays[1..];
    ConcatSize(rest, n);
    assert |arrays| * n == n + |rest| * n;
    if i > 0 {
      ConcatAt(rest, n, i - 1);
      assert i * n == n + (i - 1) * n;
      assert Concat(arrays)[i * n..i * n + n] == Concat(rest)[(i - 1) * n..(i - 1) * n + n];
    } else {
      assert |rest| * n >= 0;
    }
  }

  lemma {:induction false} ConcatSize(arrays: seq<NArray>, n: nat)
    requires forall k :: 0 <= k < |arrays| ==> |arrays[k].flat| == n
    ensures |Concat(arrays)| == |arrays| * n
  {
    if |arrays| > 0 {
      ConcatSize(arrays[1..], n);
      assert |arrays| * n == n + |arrays[1..]| * n;
    }
  }

  lemma {:induction false} FlatSize(F: Format, v: Json)
    requires AsArray(F, v).Some?
    ensures |AsArray(F, v).value.flat| == Entries(AsArray(F, v).value.shape)
    decreases v
  {
    hide Concat;
    if v.Arr? && |v.xs| > 0 {
      var arrays := AllArrays(F, v.xs).value;
      AllArraysAt(F, v.xs);
      forall k | 0 <= k < |v.xs| ensures |arrays[k].flat| == Entries(arrays[0].shape) {
        assert AsArray(F, v.xs[k]) == Some(arrays[k]);
        FlatSize(F, v.xs[k]);
      }
      ConcatSize(arrays, Entries(arrays[0].shape));
      assert ([|v.xs|] + arrays[0].shape)[1..] == arrays[0].shape;
    }
  }

  function Names(schema: seq<Column>): set<string> {
    set k | 0 <= k < |schema| :: schema[k].name
  }

  function Keys(fs: seq<Field>): set<string> {
    set k | 0 <= k < |fs| :: fs[k].key
  }

  /** The record's step equals k, as Python compares numbers and booleans. */
  predicate StepIs(F: Format, fs: seq<Field>, k: nat) {
    var v := Last(fs, "step");
    v.Some? && match v.value
    case Int(n) => n == k
    case Real(token) => F.read(token) == Whole(k)
    case Bool(b) => (if b then 1 else 0) == k
    case _ => false
  }

  /** Step k may be written as that number in either form, and steps 0 and 1 as booleans. */
  lemma StepForms(F: Format, n: int, token: string, k: nat)
    ensures StepIs(F, [Field("step", Int(n))], k) <==> n == k
    ensures StepIs(F, [Field("step", Real(token))], k) <==> F.read(token) == k as real
    ensures (StepIs(F, [Field("step", Bool(false))], k) <==> k == 0) && (StepIs(F, [Field("step", Bool(true))], k) <==> k == 1)
    ensures !StepIs(F, [Field("step", Null)], k) && !StepIs(F, [Field("step", Str(token))], k) && !StepIs(F, [], k)
  {
    forall v: Json ensures Last([Field("step", v)], "step") == Some(v) {
      assert [Field("step", v)][1..] == [];
    }
  }

  /** The value of a column in a record has the column's shape. */
  predicate Fills(F: Format, fs: seq<Field>, c: Column) {
    var v := Last(fs, c.name);
    v.Some? && AsArray(F, v.value).Some? && AsArray(F, v.value).value.shape == c.shape
  }

  predicate GoodRecord(F: Format, schema: seq<Column>, fs: seq<Field>, k: nat) {
    && StepIs(F, fs, k)
    && Keys(fs) - {"step"} == Names(schema)
    && forall i :: 0 <= i < |schema| ==> Fills(F, fs, schema[i])
  }

  predicate HasField(fs: seq<Field>, name: string) {
    exists i :: 0 <= i < |fs| && fs[i].key == name
  }

  predicate HasColumn(schema: seq<Column>, name: string) {
    exists j :: 0 <= j < |schema| && schema[j].name == name
  }

  /** A good record has no key but "step" and the schema's, and each of these. */
  lemma GoodRecordKeys(F: Format, schema: seq<Column>, fs: seq<Field>, k: nat)
    requires GoodRecord(F, schema, fs, k)
    ensures forall i :: 0 <= i < |fs| ==> fs[i].key == "step" || HasColumn(schema, fs[i].key)
    ensures forall j :: 0 <= j < |schema| ==> HasField(fs, schema[j].name)
  {
    hide Last, AsArray;
    forall i | 0 <= i < |fs| && fs[i].key != "step" ensures HasColumn(schema, fs[i].key) {
      assert fs[i].key in Keys(fs) && fs[i].key in Names(schema);
    }
    forall j | 0 <= j < |schema| ensures HasField(fs, schema[j].name) {
      assert Fills(F, fs, schema[j]);
      LastIs(fs, schema[j].name);
    }
  }

  predicate GoodLine(F: Format, schema: seq<Column>, line: string, k: nat) {
    var t := ParseText(line);
    t.Some? && t.value.Obj? && GoodRecord(F, schema, t.value.fields, k)
  }

  /** The entries a good line carries for a column. */
  function RowOf(F: Format, line: string, c: Column): Vec
    requires ParseText(line).Some? && ParseText(line).value.Obj? && Fills(F, ParseText(line).value.fields, c)
  {
    AsArray(F, Last(ParseText(line).value.fields, c.name).value).value.flat
  }

  predicate GoodTrace(F: Format, schema: seq<Column>, lines: seq<string>, n: nat) {
    |lines| == n && forall k :: 0 <= k < n ==> GoodLine(F, schema, lines[k], k)
  }

  type Trajectory = map<string, seq<Vec>>

  predicate HoldsRows(F: Format, schema: seq<Column>, lines: seq<string>, k: nat, n: nat, t: Trajectory) {
    && t.Keys == Names(schema)
    && forall i :: 0 <= i < |schema| ==> HoldsColumn(F, schema[i], lines, k, n, t)
  }

  predicate HoldsColumn(F: Format, c: Column, lines: seq<string>, k: nat, n: nat, t: Trajectory) {
    && c.name in t && |t[c.name]| == n && k <= n && k <= |lines|
    && forall j :: 0 <= j < k ==> HoldsRow(F, c, lines[j], t[c.name][j])
  }

  predicate HoldsRow(F: Format, c: Column, line: string, row: Vec) {
    && ParseText(line).Some? && ParseText(line).value.Obj? && Fills(F, ParseText(line).value.fields, c)
    && row == RowOf(F, line, c)
  }

  /** Columns have different names. */
  predicate DistinctColumns(schema: seq<Column>) {
    forall i, j :: 0 <= i < j < |schema| ==> schema[i].name != schema[j].name
  }

  /** The rows of a record go into row k of the buffers. */
  method WriteRecord(F: Format, schema: seq<Column>, lines: seq<string>, fs: seq<Field>, k: nat, n: nat, buffers: Trajectory)
    returns (r: Result<Trajectory>)
    requires k < n && k < |lines| && ParseText(lines[k]) == Some(Obj(fs))
    requires HoldsRows(F, schema, lines, k, n, buffers)
    ensures r.Success? <==> forall i :: 0 <= i < |schema| ==> Fills(F, fs, schema[i])
    ensures r.Success? ==> HoldsRows(F, schema, lines, k + 1, n, r.value)
  {
    hide Fills, Names;
    var t := buffers;
    for i := 0 to |schema|
      invariant t.Keys == Names(schema)
      invariant forall j :: 0 <= j < i ==> Fills(F, fs, schema[j])
      invariant forall j :: 0 <= j < |schema| ==> HoldsColumn(F, schema[j], lines, if j < i then k + 1 else k, n, t)
    {
      var c := schema[i];
      if !Fills(F, fs, c) {
        return Failure;
      }
      assert HoldsColumn(F, c, lines, k, n, t);
      var row := RowOf(F, lines[k], c);
      ghost var before := t;
      t := t[c.name := t[c.name][k := row]];
      forall j | 0 <= j < |schema| ensures HoldsColumn(F, schema[j], lines, if j < i + 1 then k + 1 else k, n, t) {
        assert HoldsColumn(F, schema[j], lines, if j < i then k + 1 else k, n, before);
        if j < i && schema[j].name == c.name {
          assert Fills(F, fs, schema[j]) && row == RowOf(F, lines[k], schema[j]);
        }
      }
    }
    return Success(t);
  }

  /** Buffers of n rows for every column. */
  function EmptyBuffers(schema: seq<Column>, n: nat): Trajectory {
    map name | name in Names(schema) :: seq(n, _ => [])
  }

  /**
   Parses a trace. It succeeds exactly when the output has n lines that are not blank, the k-th of which is an
   object with step k, the schema's quantities and no others, and their shapes; the result holds
   the k-th line's entries in row k.
   */
  method ParseTrace(F: Format, stdout: string, schema: seq<Column>, n: nat) returns (r: Result<Trajectory>)
    ensures r.Success? <==> GoodTrace(F, schema, Lines(stdout), n)
    ensures r.Success? ==> HoldsRows(F, schema, Lines(stdout), n, n, r.value)
  {
    hide Lines, HoldsRows, StepIs, Fills, Keys, Names;
    var lines := Lines(stdout);
    if |lines| != n {
      return Failure;
    }
    var buffers := EmptyBuffers(schema, n);
    assert HoldsRows(F, schema, lines, 0, n, buffers) by { EmptyHold(F, schema, lines, n); }
    for k := 0 to n
      invariant forall j :: 0 <= j < k ==> GoodLine(F, schema, lines[j], j)
      invariant HoldsRows(F, schema, lines, k, n, buffers)
    {
      var t := ParseText(lines[k]);
      if t.None? || !t.value.Obj? {
        assert !GoodLine(F, schema, lines[k], k);
        return Failure;
      }
      var fs := t.value.fields;
      if !StepIs(F, fs, k) || Keys(fs) - {"step"} != Names(schema) {
        assert !GoodLine(F, schema, lines[k], k);
        return Failure;
      }
      var written := WriteRecord(F, schema, lines, fs, k, n, buffers);
      assert GoodLine(F, schema, lines[k], k) <==> written.Success?;
      if written.Failure? {
        return Failure;
      }
      buffers := written.value;
    }
    return Success(buffers);
  }

  lemma EmptyHold(F: Format, schema: seq<Column>, lines: seq<string>, n: nat)
    ensures HoldsRows(F, schema, lines, 0, n, EmptyBuffers(schema, n))
  {
    forall i | 0 <= i < |schema| ensures HoldsColumn(F, schema[i], lines, 0, n, EmptyBuffers(schema, n)) {
      assert schema[i].name in Names(schema);
    }
  }

  // ---------------------------------------------------------------- round trip

  /** The layout prints, under distinct names other than "step", exactly the schema's columns. */
  predicate Matches(trace: seq<Quantity>, schema: seq<Column>) {
    && PlainNames(trace)
    && |trace| == |schema|
    && (forall k :: 0 <= k < |trace| ==> schema[k] == Column(trace[k].name, [trace[k].length]) && trace[k].name != "step")
    && DistinctColumns(schema)
  }

  lemma RecordLexical(F: Format, trace: seq<Quantity>, c: Cycle)
    requires Faithful(F) && InFloats(F, c) && Fitting(trace, c)
    ensures Lexical(Obj(Record(F, trace, c)))
  {
    var fs := Record(F, trace, c);
    forall k | 0 <= k < |fs| ensures Lexical(fs[k].value) {
      if k > 0 {
        var v := Slice(trace[k - 1], c);
        forall i | 0 <= i < |v| ensures Lexical(Numbers(F, v)[i]) {
          NumberMeans(F, v[i]);
        }
      }
    }
  }

  lemma {:induction false} NumbersArray(F: Format, v: Vec)
    requires Faithful(F) && AllFloats(F, v)
    ensures AllArrays(F, Numbers(F, v)).Some? && |AllArrays(F, Numbers(F, v)).value| == |v|
    ensures Concat(AllArrays(F, Numbers(F, v)).value) == v
    ensures forall k :: 0 <= k < |v| ==> AllArrays(F, Numbers(F, v)).value[k].shape == []
  {
    hide Faithful, Number;
    if |v| > 0 {
      NumberMeans(F, v[0]);
      NumbersArray(F, v[1..]);
      assert Numbers(F, v)[1..] == Numbers(F, v[1..]) && Numbers(F, v)[0] == Number(F, v[0]);
      ScalarArray(F, Number(F, v[0]), v[0]);
      var rest := AllArrays(F, Numbers(F, v[1..])).value;
      assert ([NArray([], [v[0]])] + rest)[1..] == rest;
      assert [v[0]] + v[1..] == v;
    }
  }

  lemma ScalarArray(F: Format, t: Json, x: real)
    requires ValueOf(F, t) == Some(x)
    ensures AsArray(F, t) == Some(NArray([], [x]))
  {
  }

  lemma ListArray(F: Format, v: Vec)
    requires Faithful(F) && AllFloats(F, v)
    ensures AsArray(F, Arr(Numbers(F, v))) == Some(NArray([|v|], v))
  {
    hide Faithful, AllArrays, Number, Concat;
    NumbersArray(F, v);
    if |v| > 0 {
      assert [|v|] + AllArrays(F, Numbers(F, v)).value[0].shape == [|v|];
    }
  }

  lemma RecordKeys(F: Format, trace: seq<Quantity>, c: Cycle)
    requires Fitting(trace, c)
    ensures |Record(F, trace, c)| == |trace| + 1 && Record(F, trace, c)[0] == Field("step", Int(c.step))
    ensures forall k :: 0 <= k < |trace| ==> Record(F, trace, c)[k + 1] == FieldOf(F, trace[k], c)
    ensures forall k :: 0 < k < |Record(F, trace, c)| ==> Record(F, trace, c)[k].key == trace[k - 1].name
  {
    hide Numbers, Slice, FieldOf;
    var fs := Record(F, trace, c);
    forall k | 0 <= k < |trace| ensures fs[k + 1] == FieldOf(F, trace[k], c) && fs[k + 1].key == trace[k].name {
      FieldKey(F, trace[k], c);
    }
    assert forall k :: 0 < k < |fs| ==> fs[k] == fs[(k - 1) + 1];
  }

  lemma FieldKey(F: Format, q: Quantity, c: Cycle)
    requires FitsIn(q, c)
    ensures FieldOf(F, q, c).key == q.name
  {
  }

  lemma RecordDistinct(F: Format, trace: seq<Quantity>, schema: seq<Column>, c: Cycle)
    requires Matches(trace, schema) && Fitting(trace, c)
    ensures DistinctKeys(Record(F, trace, c))
  {
    hide Record, Numbers, PlainNames;
    RecordKeys(F, trace, c);
    var fs := Record(F, trace, c);
    forall p, q | 0 <= p < q < |fs| ensures fs[p].key != fs[q].key {
      if p > 0 {
        assert schema[p - 1].name != schema[q - 1].name;
      }
    }
  }

  lemma RecordNames(F: Format, trace: seq<Quantity>, schema: seq<Column>, c: Cycle)
    requires Matches(trace, schema) && Fitting(trace, c)
    ensures Keys(Record(F, trace, c)) - {"step"} == Names(schema)
  {
    hide Record, Numbers, PlainNames, DistinctColumns, Fitting;
    RecordKeys(F, trace, c);
    var fs := Record(F, trace, c);
    forall name | name in Names(schema) ensures name in Keys(fs) && name != "step" {
      var k :| 0 <= k < |schema| && schema[k].name == name;
      assert fs[k + 1].key == name;
    }
    forall name | name in Keys(fs) && name != "step" ensures name in Names(schema) {
      var k :| 0 <= k < |fs| && fs[k].key == name;
      assert schema[k - 1].name == name;
    }
  }

  /** The record of a cycle carries the slices under the schema's names and shapes. */
  lemma RecordFills(F: Format, trace: seq<Quantity>, schema: seq<Column>, c: Cycle, i: nat)
    requires Faithful(F) && InFloats(F, c) && Matches(trace, schema) && Fitting(trace, c) && i < |schema|
    ensures Fills(F, Record(F, trace, c), schema[i])
    ensures AsArray(F, Last(Record(F, trace, c), schema[i].name).value).value.flat == Slice(trace[i], c)
  {
    hide Faithful, AsArray, Record, Numbers, PlainNames, DistinctColumns;
    RecordKeys(F, trace, c);
    RecordDistinct(F, trace, schema, c);
    LastOfDistinct(Record(F, trace, c), i + 1);
    ListArray(F, Slice(trace[i], c));
  }

  lemma RecordStep(F: Format, trace: seq<Quantity>, schema: seq<Column>, c: Cycle, k: nat)
    requires Matches(trace, schema) && Fitting(trace, c)
    ensures StepIs(F, Record(F, trace, c), k) <==> c.step == k
  {
    hide Record, Numbers, PlainNames, DistinctColumns, Fitting;
    RecordKeys(F, trace, c);
    RecordDistinct(F, trace, schema, c);
    LastOfDistinct(Record(F, trace, c), 0);
  }

  lemma LineParses(F: Format, trace: seq<Quantity>, c: Cycle)
    requires Faithful(F) && InFloats(F, c) && Fitting(trace, c)
    ensures ParseText(Line(F, trace, c)) == Some(Obj(Record(F, trace, c)))
  {
    hide Record, Render, Lexical;
    RecordLexical(F, trace, c);
    TextRoundTrip(Spaced, Obj(Record(F, trace, c)));
  }

  /** A printed line parses to its record, which is good for its own step and no other, and carries the slices. */
  lemma PrintedLine(F: Format, trace: seq<Quantity>, schema: seq<Column>, c: Cycle, k: nat)
    requires Faithful(F) && InFloats(F, c) && Matches(trace, schema) && Fitting(trace, c)
    ensures GoodLine(F, schema, Line(F, trace, c), k) <==> c.step == k
    ensures forall i :: 0 <= i < |schema| ==> HoldsRow(F, schema[i], Line(F, trace, c), Slice(trace[i], c))
  {
    hide Faithful, AsArray, Record, Line, Keys, Names, StepIs, Fills, Matches, Fitting, ParseText, Slice;
    LineParses(F, trace, c);
    RecordNames(F, trace, schema, c);
    RecordStep(F, trace, schema, c, k);
    MatchesLength(trace, schema, c);
    forall i | 0 <= i < |schema|
      ensures Fills(F, Record(F, trace, c), schema[i]) && HoldsRow(F, schema[i], Line(F, trace, c), Slice(trace[i], c))
    {
      RecordFills(F, trace, schema, c, i);
    }
  }

  lemma MatchesLength(trace: seq<Quantity>, schema: seq<Column>, c: Cycle)
    requires Matches(trace, schema) && Fitting(trace, c)
    ensures |trace| == |schema| && forall i :: 0 <= i < |trace| ==> FitsIn(trace[i], c)
  {
  }

  /** The lines of cycles. */
  function PrintedLines(F: Format, trace: seq<Quantity>, cycles: seq<Cycle>): (ls: seq<string>)
    requires forall k :: 0 <= k < |cycles| ==> Fitting(trace, cycles[k])
    ensures |ls| == |cycles| && forall k :: 0 <= k < |cycles| ==> ls[k] == Line(F, trace, cycles[k])
  {
    seq(|cycles|, k requires 0 <= k < |cycles| => Line(F, trace, cycles[k]))
  }

  predicate Visible(s: string) {
    forall i :: 0 <= i < |s| ==> s[i] >= ' '
  }

  lemma VisibleToken(F: Format, x: real)
    requires Faithful(F) && F.float(x)
    ensures Visible(F.show(x))
  {
    hide Faithful;
    NumberMeans(F, x);
  }

  lemma {:induction false} VisibleNumbers(F: Format, v: Vec)
    requires Faithful(F) && AllFloats(F, v)
    ensures Visible(RenderElems(Spaced, Numbers(F, v)))
  {
    hide Faithful, Number, Render;
    if |v| > 0 {
      NumbersText(F, v);
      VisibleToken(F, v[0]);
      VisibleNumbers(F, v[1..]);
    }
  }

  lemma VisibleField(F: Format, q: Quantity, c: Cycle)
    requires Faithful(F) && InFloats(F, c) && Plain(q.name) && FitsIn(q, c)
    ensures Visible(RenderField(Spaced, FieldOf(F, q, c)))
  {
    hide Faithful, RenderElems, EscapeAll;
    PlainEscapes(q.name);
    VisibleNumbers(F, Slice(q, c));
  }

  lemma {:induction false} VisibleFields(fs: seq<Field>)
    requires forall k :: 0 <= k < |fs| ==> Visible(RenderField(Spaced, fs[k]))
    ensures Visible(RenderFields(Spaced, fs))
  {
    hide RenderField;
    if |fs| > 1 {
      VisibleFields(fs[1..]);
    }
  }

  lemma VisibleStep(n: nat)
    ensures Visible(RenderField(Spaced, Field("step", Int(n))))
  {
    hide PrintInt, EscapeAll;
    NumeralToken(n);
    StepQuoted();
  }

  /** A printed line is one line. */
  lemma PrintedOneLine(F: Format, trace: seq<Quantity>, c: Cycle)
    requires Faithful(F) && InFloats(F, c) && PlainNames(trace) && Fitting(trace, c)
    ensures OneLine(Line(F, trace, c))
  {
    hide Faithful, RenderField, RenderFields;
    var fs := Record(F, trace, c);
    VisibleStep(c.step);
    forall k | 0 <= k < |fs| ensures Visible(RenderField(Spaced, fs[k])) {
      if k > 0 {
        VisibleField(F, trace[k - 1], c);
      }
    }
    VisibleFields(fs);
    assert Line(F, trace, c)[0] == '{';
  }

  /**
   The parser accepts printed cycles exactly when they are the n cycles 0 to n - 1 in order:
   a truncated, extended, repeated or reordered stream is rejected. What it returns are the
   buffer slices of every cycle.
   */
  lemma PrintedTrace(F: Format, trace: seq<Quantity>, schema: seq<Column>, cycles: seq<Cycle>, n: nat)
    requires Faithful(F) && Matches(trace, schema)
    requires forall k :: 0 <= k < |cycles| ==> Fitting(trace, cycles[k]) && InFloats(F, cycles[k])
    ensures var lines := Lines(Unlines(PrintedLines(F, trace, cycles)));
      && lines == PrintedLines(F, trace, cycles)
      && (GoodTrace(F, schema, lines, n) <==> |cycles| == n && forall k :: 0 <= k < n ==> cycles[k].step == k)
  {
    hide Faithful, Matches, Fitting, Line, GoodLine, OneLine;
    var ls := PrintedLines(F, trace, cycles);
    forall k | 0 <= k < |ls| ensures OneLine(ls[k]) {
      MatchesPlain(trace, schema);
      PrintedOneLine(F, trace, cycles[k]);
    }
    LinesOfUnlines(ls);
    forall k | 0 <= k < |cycles| ensures GoodLine(F, schema, ls[k], k) <==> cycles[k].step == k {
      PrintedLine(F, trace, schema, cycles[k], k);
    }
  }

  lemma MatchesPlain(trace: seq<Quantity>, schema: seq<Column>)
    requires Matches(trace, schema)
    ensures PlainNames(trace) && |trace| == |schema|
  {
  }

  /** Whatever rows the parser returns for printed cycles are their slices. */
  lemma ParsedSlices(F: Format, trace: seq<Quantity>, schema: seq<Column>, cycles: seq<Cycle>, t: Trajectory, i: nat, k: nat)
    requires Faithful(F) && Matches(trace, schema)
    requires forall k :: 0 <= k < |cycles| ==> Fitting(trace, cycles[k]) && InFloats(F, cycles[k])
    requires HoldsRows(F, schema, PrintedLines(F, trace, cycles), |cycles|, |cycles|, t)
    requires i < |trace| && k < |cycles|
    ensures trace[i].name in t && |t[trace[i].name]| == |cycles| && FitsIn(trace[i], cycles[k])
    ensures t[trace[i].name][k] == Slice(trace[i], cycles[k])
    ensures var q := trace[i];
      t[q.name][k] == if q.buffer == State then cycles[k].x[q.start..q.start + q.length] else cycles[k].u[q.start..q.start + q.length]
  {
    hide Faithful, Line, AsArray, Fills, ParseText;
    PrintedLine(F, trace, schema, cycles[k], k);
    var lines := PrintedLines(F, trace, cycles);
    assert HoldsColumn(F, schema[i], lines, |cycles|, |cycles|, t);
    assert HoldsRow(F, schema[i], lines[k], t[schema[i].name][k]);
    assert HoldsRow(F, schema[i], lines[k], Slice(trace[i], cycles[k]));
  }

  /** A line cut short is not a record, so a stream that ends inside a line is rejected. */
  lemma CutLineRejected(F: Format, trace: seq<Quantity>, schema: seq<Column>, c: Cycle, n: nat, k: nat)
    requires Faithful(F) && InFloats(F, c) && Fitting(trace, c) && n < |Line(F, trace, c)|
    ensures !GoodLine(F, schema, Line(F, trace, c)[..n], k)
  {
    hide Record, Render, Lexical, GoodRecord;
    RecordLexical(F, trace, c);
    TruncatedObject(Spaced, Record(F, trace, c), n);
  }

  // ---------------------------------------------------------------- truncated and extended streams

  lemma {:induction false} LinesAppend(ls: seq<string>, s: string)
    requires forall k :: 0 <= k < |ls| ==> OneLine(ls[k])
    ensures Lines(Unlines(ls) + s) == ls + Lines(s)
  {
    hide Lines, OneLine;
    if |ls| > 0 {
      LinesAppend(ls[1..], s);
      FirstLine(ls[0], Unlines(ls[1..]) + s);
      assert Unlines(ls) + s == ls[0] + ("\n" + (Unlines(ls[1..]) + s));
      assert [ls[0]] + (ls[1..] + Lines(s)) == ls + Lines(s);
    } else {
      assert "" + s == s;
    }
  }

  lemma LinesOfPart(part: string)
    requires forall i :: 0 <= i < |part| ==> part[i] != '\n'
    ensures Lines(part) == if Blank(part) then [] else [part]
  {
    if |part| > 0 {
      assert Cut(part) == |part| && part[..|part|] == part;
    }
  }

  /** A stream cut short is some whole lines and a part of the next. */
  lemma {:induction false} CutStream(ls: seq<string>, m: nat) returns (j: nat, q: nat)
    requires m < |Unlines(ls)|
    ensures j < |ls| && q <= |ls[j]| && Unlines(ls)[..m] == Unlines(ls[..j]) + ls[j][..q]
    ensures m == |Unlines(ls)| - 1 <==> j == |ls| - 1 && q == |ls[j]|
  {
    var first, rest := ls[0] + "\n", Unlines(ls[1..]);
    assert Unlines(ls) == first + rest;
    if m <= |ls[0]| {
      j, q := 0, m;
      assert Unlines(ls)[..m] == ls[0][..m] && ls[..0] == [];
      assert |ls| > 1 ==> |rest| > 0;
    } else {
      j, q := CutStream(ls[1..], m - |first|);
      assert Unlines(ls)[..m] == first + rest[..m - |first|];
      assert ls[..j + 1] == [ls[0]] + ls[1..][..j];
      assert ls[..j + 1][1..] == ls[1..][..j];
      assert first + (Unlines(ls[1..][..j]) + ls[1..][j][..q]) == (first + Unlines(ls[1..][..j])) + ls[j + 1][..q];
      j := j + 1;
    }
  }

  /** Cycles 0 to n - 1, whose slices lie in the buffers. */
  predicate InOrder(F: Format, trace: seq<Quantity>, cycles: seq<Cycle>) {
    forall k :: 0 <= k < |cycles| ==> cycles[k].step == k && Fitting(trace, cycles[k]) && InFloats(F, cycles[k])
  }

  lemma PrintedOneLines(F: Format, trace: seq<Quantity>, schema: seq<Column>, cycles: seq<Cycle>)
    requires Faithful(F) && Matches(trace, schema) && InOrder(F, trace, cycles)
    ensures forall k :: 0 <= k < |cycles| ==> OneLine(PrintedLines(F, trace, cycles)[k])
  {
    hide Faithful, Fitting, Line, OneLine, InFloats;
    forall k | 0 <= k < |cycles| ensures OneLine(PrintedLines(F, trace, cycles)[k]) {
      PrintedOneLine(F, trace, cycles[k]);
    }
  }

  /** A truncated stream is rejected wherever it ends, unless only the last line break is missing. */
  lemma TruncatedStream(F: Format, trace: seq<Quantity>, schema: seq<Column>, cycles: seq<Cycle>, m: nat)
    requires Faithful(F) && Matches(trace, schema) && InOrder(F, trace, cycles)
    requires m < |Unlines(PrintedLines(F, trace, cycles))|
    ensures var stream := Unlines(PrintedLines(F, trace, cycles));
      GoodTrace(F, schema, Lines(stream[..m]), |cycles|) <==> m == |stream| - 1
  {
    hide Faithful, Matches, Fitting, InFloats, Line, GoodLine, Lines, Unlines, Blank;
    var ls, n := PrintedLines(F, trace, cycles), |cycles|;
    PrintedOneLines(F, trace, schema, cycles);
    var j, q := CutStream(ls, m);
    var part := ls[j][..q];
    LinesAppend(ls[..j], part);
    LinesOfPart(part);
    if j == n - 1 {
      if q < |ls[j]| {
        CutLineRejected(F, trace, schema, cycles[j], q, j);
        assert !GoodLine(F, schema, part, j);
        var got := Lines(Unlines(ls)[..m]);
        assert got == if Blank(part) then ls[..j] else ls[..j] + [part];
        assert |got| == n ==> got[j] == part;
      } else {
        assert part == ls[j] && ls[..j] + [part] == ls;
        PrintedTrace(F, trace, schema, cycles, n);
      }
    }
  }

  /** An extended stream is rejected unless what follows it is blank. */
  lemma ExtendedStream(F: Format, trace: seq<Quantity>, schema: seq<Column>, cycles: seq<Cycle>, s: string)
    requires Faithful(F) && Matches(trace, schema) && InOrder(F, trace, cycles)
    ensures GoodTrace(F, schema, Lines(Unlines(PrintedLines(F, trace, cycles)) + s), |cycles|) <==> Lines(s) == []
  {
    hide Faithful, Matches, Fitting, InFloats, Line, GoodLine, OneLine, Lines, Unlines;
    var ls := PrintedLines(F, trace, cycles);
    PrintedOneLines(F, trace, schema, cycles);
    LinesAppend(ls, s);
    PrintedTrace(F, trace, schema, cycles, |cycles|);
    if Lines(s) == [] {
      assert ls + Lines(s) == ls;
    }
  }
}
