/**
 Rectangular grids of any element type: the common ground of JAX tensors (grids of numbers)
 and CasADi expressions (grids of scalar expressions). Every operation commutes with `Map`,
 which is what lets one evaluator serve both.
 */
module Grids {
  datatype RawGrid<T> = Grid(r: nat, c: nat, at: seq<seq<T>>)

  predicate Rectangular<T>(g: RawGrid<T>) {
    |g.at| == g.r && forall i :: 0 <= i < g.r ==> |g.at[i]| == g.c
  }

  type Grid<T> = g: RawGrid<T> | Rectangular(g) witness Grid(0, 0, [])

  function Tabulate<T>(r: nat, c: nat, f: (nat, nat) --> T): (g: Grid<T>)
    requires forall i: nat, j: nat :: i < r && j < c ==> f.requires(i, j)
    ensures g.r == r && g.c == c
    ensures forall i, j :: 0 <= i < r && 0 <= j < c ==> g.at[i][j] == f(i, j)
  {
    Grid(r, c, seq(r, i requires 0 <= i < r => seq(c, j requires 0 <= j < c => f(i, j))))
  }

  /** Grids are equal when they have the same size and the same entries. */
  lemma SameEntries<T>(g: Grid<T>, h: Grid<T>)
    requires g.r == h.r && g.c == h.c
    requires forall i, j :: 0 <= i < g.r && 0 <= j < g.c ==> g.at[i][j] == h.at[i][j]
    ensures g == h
  {
    forall i | 0 <= i < g.r ensures g.at[i] == h.at[i] {
      assert |g.at[i]| == |h.at[i]|;
    }
    assert g.at == h.at;
  }

  function Cell<T>(x: T): (g: Grid<T>)
    ensures g.r == g.c == 1 && g.at[0][0] == x
  {
    Grid(1, 1, [[x]])
  }

  predicate IsCell<T>(g: Grid<T>) {
    g.r == 1 && g.c == 1
  }

  function Map<S, T>(f: S -> T, g: Grid<S>): (h: Grid<T>)
    ensures h.r == g.r && h.c == g.c
    ensures forall i, j :: 0 <= i < g.r && 0 <= j < g.c ==> h.at[i][j] == f(g.at[i][j])
  {
    Grid(g.r, g.c, seq(g.r, i requires 0 <= i < g.r => seq(g.c, j requires 0 <= j < g.c => f(g.at[i][j]))))
  }

  function Flip<T>(g: Grid<T>): (h: Grid<T>)
    ensures h.r == g.c && h.c == g.r
    ensures forall i, j :: 0 <= i < g.c && 0 <= j < g.r ==> h.at[i][j] == g.at[j][i]
  {
    Grid(g.c, g.r, seq(g.c, i requires 0 <= i < g.c => seq(g.r, j requires 0 <= j < g.r => g.at[j][i])))
  }

  /** An extent that fits n: n itself, or 1, which is repeated. */
  predicate Fits(m: nat, n: nat) {
    m == n || m == 1
  }

  function Max(m: nat, n: nat): nat {
    if m < n then n else m
  }

  /** The common extent of two extents one of which fits the other. */
  function Join(m: nat, n: nat): nat {
    if m == 1 then n else m
  }

  predicate Compatible<A, B>(a: Grid<A>, b: Grid<B>) {
    (Fits(a.r, b.r) || b.r == 1) && (Fits(a.c, b.c) || b.c == 1)
  }

  function Index(i: nat, n: nat): nat {
    if n == 1 then 0 else i
  }

  /** Repeats unit extents up to r and c. */
  function Stretch<T>(g: Grid<T>, r: nat, c: nat): (h: Grid<T>)
    requires Fits(g.r, r) && Fits(g.c, c)
    ensures h.r == r && h.c == c
    ensures forall i, j :: 0 <= i < r && 0 <= j < c ==> h.at[i][j] == g.at[Index(i, g.r)][Index(j, g.c)]
  {
    Tabulate(r, c, (i: nat, j: nat) requires i < r && j < c => g.at[Index(i, g.r)][Index(j, g.c)])
  }

  /** The entrywise combination of two grids of the same size. */
  function Zip<A, B, C>(f: (A, B) -> C, a: Grid<A>, b: Grid<B>): (h: Grid<C>)
    requires a.r == b.r && a.c == b.c
    ensures h.r == a.r && h.c == a.c
    ensures forall i, j :: 0 <= i < h.r && 0 <= j < h.c ==> h.at[i][j] == f(a.at[i][j], b.at[i][j])
  {
    Grid(a.r, a.c, seq(a.r, i requires 0 <= i < a.r => seq(a.c, j requires 0 <= j < a.c => f(a.at[i][j], b.at[i][j]))))
  }

  /** The entrywise combination of two compatible grids. */
  function Broadcast<A, B, C>(f: (A, B) -> C, a: Grid<A>, b: Grid<B>): (h: Grid<C>)
    requires Compatible(a, b)
    ensures h.r == Join(a.r, b.r) && h.c == Join(a.c, b.c)
    ensures forall i, j :: 0 <= i < h.r && 0 <= j < h.c ==>
      h.at[i][j] == f(a.at[Index(i, a.r)][Index(j, a.c)], b.at[Index(i, b.r)][Index(j, b.c)])
  {
    var r, c := Join(a.r, b.r), Join(a.c, b.c);
    Zip(f, Stretch(a, r, c), Stretch(b, r, c))
  }

  /** CasADi's repmat: m by n copies of the grid. */
  function Tile<T>(g: Grid<T>, m: nat, n: nat): (h: Grid<T>)
    requires g.r > 0 && g.c > 0
    ensures h.r == g.r * m && h.c == g.c * n
    ensures forall i, j :: 0 <= i < h.r && 0 <= j < h.c ==> h.at[i][j] == g.at[i % g.r][j % g.c]
  {
    Tabulate(g.r * m, g.c * n, (i: nat, j: nat) => g.at[i % g.r][j % g.c])
  }

  function Window<T>(g: Grid<T>, r0: nat, r1: nat, c0: nat, c1: nat): (h: Grid<T>)
    requires r0 <= r1 <= g.r && c0 <= c1 <= g.c
    ensures h.r == r1 - r0 && h.c == c1 - c0
    ensures forall i, j :: 0 <= i < h.r && 0 <= j < h.c ==> h.at[i][j] == g.at[r0 + i][c0 + j]
  {
    Tabulate(r1 - r0, c1 - c0, (i: nat, j: nat) requires r0 + i < r1 && c0 + j < c1 => g.at[r0 + i][c0 + j])
  }

  function Above<T>(a: Grid<T>, b: Grid<T>): (h: Grid<T>)
    requires a.c == b.c
    ensures h.r == a.r + b.r && h.c == a.c
  {
    Grid(a.r + b.r, a.c, a.at + b.at)
  }

  /** Grids of one width on top of each other. */
  function Stack<T>(gs: seq<Grid<T>>): (h: Grid<T>)
    requires |gs| > 0 && forall k :: 0 <= k < |gs| ==> gs[k].c == gs[0].c
    ensures h.c == gs[0].c
  {
    if |gs| == 1 then gs[0] else Above(gs[0], Stack(gs[1..]))
  }

  function FlipAll<T>(gs: seq<Grid<T>>): (hs: seq<Grid<T>>)
    ensures |hs| == |gs| && forall k :: 0 <= k < |gs| ==> hs[k] == Flip(gs[k])
  {
    seq(|gs|, k requires 0 <= k < |gs| => Flip(gs[k]))
  }

  function MapAll<S, T>(f: S -> T, gs: seq<Grid<S>>): (hs: seq<Grid<T>>)
    ensures |hs| == |gs| && forall k :: 0 <= k < |gs| ==> hs[k] == Map(f, gs[k])
  {
    seq(|gs|, k requires 0 <= k < |gs| => Map(f, gs[k]))
  }

  /** Grids of one height side by side. */
  function Beside<T>(gs: seq<Grid<T>>): (h: Grid<T>)
    requires |gs| > 0 && forall k :: 0 <= k < |gs| ==> gs[k].r == gs[0].r
    ensures h.r == gs[0].r
  {
    Flip(Stack(FlipAll(gs)))
  }

  // ---------------------------------------------------------------- linear orders of the entries

  /** The entries row by row. */
  function Flat<T>(at: seq<seq<T>>): seq<T> {
    if |at| == 0 then [] else at[0] + Flat(at[1..])
  }

  function Chop<T>(xs: seq<T>, r: nat, c: nat): (at: seq<seq<T>>)
    requires |xs| == r * c
    ensures |at| == r && forall i :: 0 <= i < r ==> |at[i]| == c
  {
    if r == 0 then [] else
      assert |xs[c..]| == (r - 1) * c;
      [xs[..c]] + Chop(xs[c..], r - 1, c)
  }

  lemma {:induction false} FlatSize<T>(at: seq<seq<T>>, c: nat)
    requires forall i :: 0 <= i < |at| ==> |at[i]| == c
    ensures |Flat(at)| == |at| * c
  {
    if |at| > 0 {
      FlatSize(at[1..], c);
      assert (|at| - 1) * c + c == |at| * c;
    }
  }

  /** Entry (i, j) stands at place i * c + j. */
  lemma {:induction false} FlatAt<T>(at: seq<seq<T>>, c: nat, i: nat, j: nat)
    requires forall k :: 0 <= k < |at| ==> |at[k]| == c
    requires i < |at| && j < c
    ensures i * c + j < |Flat(at)| == |at| * c && Flat(at)[i * c + j] == at[i][j]
  {
    FlatSize(at, c);
    if i == 0 {
      assert |at| * c >= c;
    } else {
      FlatAt(at[1..], c, i - 1, j);
      assert (i - 1) * c + j + c == i * c + j;
    }
  }

  lemma {:induction false} ChopAt<T>(xs: seq<T>, r: nat, c: nat, i: nat, j: nat)
    requires |xs| == r * c && i < r && j < c
    ensures i * c + j < |xs| && Chop(xs, r, c)[i][j] == xs[i * c + j]
  {
    assert |xs[c..]| == (r - 1) * c;
    if i == 0 {
      assert r * c >= c;
    } else {
      ChopAt(xs[c..], r - 1, c, i - 1, j);
      assert (i - 1) * c + j + c == i * c + j;
    }
  }

  lemma {:induction false} ChopFlat<T>(at: seq<seq<T>>, c: nat)
    requires forall k :: 0 <= k < |at| ==> |at[k]| == c
    ensures |Flat(at)| == |at| * c && Chop(Flat(at), |at|, c) == at
  {
    FlatSize(at, c);
    if |at| > 0 {
      ChopFlat(at[1..], c);
      assert Flat(at)[..c] == at[0] && Flat(at)[c..] == Flat(at[1..]);
    }
  }

  lemma {:induction false} FlatChop<T>(xs: seq<T>, r: nat, c: nat)
    requires |xs| == r * c
    ensures Flat(Chop(xs, r, c)) == xs
  {
    if r > 0 {
      assert |xs[c..]| == (r - 1) * c;
      FlatChop(xs[c..], r - 1, c);
    }
  }

  function Size<T>(g: Grid<T>): nat {
    g.r * g.c
  }

  function Entries<T>(g: Grid<T>): (xs: seq<T>)
    ensures |xs| == Size(g)
  {
    FlatSize(g.at, g.c);
    Flat(g.at)
  }

  /** Row-major reshape, as in JAX and numpy. */
  function RowReshape<T>(g: Grid<T>, r: nat, c: nat): (h: Grid<T>)
    requires Size(g) == r * c
    ensures h.r == r && h.c == c
  {
    Grid(r, c, Chop(Entries(g), r, c))
  }

  /** Column-major reshape, as in CasADi. */
  function ColReshape<T>(g: Grid<T>, r: nat, c: nat): (h: Grid<T>)
    requires Size(g) == r * c
    ensures h.r == r && h.c == c
  {
    assert g.c * g.r == c * r;
    Flip(RowReshape(Flip(g), c, r))
  }

  // ---------------------------------------------------------------- Map commutes with the shape operations

  lemma MapFlip<S, T>(f: S -> T, g: Grid<S>)
    ensures Map(f, Flip(g)) == Flip(Map(f, g))
  {
    SameEntries(Map(f, Flip(g)), Flip(Map(f, g)));
  }

  lemma FlipFlip<T>(g: Grid<T>)
    ensures Flip(Flip(g)) == g
  {
    SameEntries(Flip(Flip(g)), g);
  }

  lemma MapWindow<S, T>(f: S -> T, g: Grid<S>, r0: nat, r1: nat, c0: nat, c1: nat)
    requires r0 <= r1 <= g.r && c0 <= c1 <= g.c
    ensures Map(f, Window(g, r0, r1, c0, c1)) == Window(Map(f, g), r0, r1, c0, c1)
  {
    SameEntries(Map(f, Window(g, r0, r1, c0, c1)), Window(Map(f, g), r0, r1, c0, c1));
  }

  lemma FlipWindow<T>(g: Grid<T>, r0: nat, r1: nat, c0: nat, c1: nat)
    requires r0 <= r1 <= g.r && c0 <= c1 <= g.c
    ensures Flip(Window(g, r0, r1, c0, c1)) == Window(Flip(g), c0, c1, r0, r1)
  {
    SameEntries(Flip(Window(g, r0, r1, c0, c1)), Window(Flip(g), c0, c1, r0, r1));
  }

  lemma MapStretch<S, T>(f: S -> T, g: Grid<S>, r: nat, c: nat)
    requires Fits(g.r, r) && Fits(g.c, c)
    ensures Map(f, Stretch(g, r, c)) == Stretch(Map(f, g), r, c)
  {
    SameEntries(Map(f, Stretch(g, r, c)), Stretch(Map(f, g), r, c));
  }

  lemma FlipBroadcast<A, B, C>(f: (A, B) -> C, a: Grid<A>, b: Grid<B>)
    requires Compatible(a, b)
    ensures Flip(Broadcast(f, a, b)) == Broadcast(f, Flip(a), Flip(b))
  {
    SameEntries(Flip(Broadcast(f, a, b)), Broadcast(f, Flip(a), Flip(b)));
  }

  lemma {:induction false} MapStack<S, T>(f: S -> T, gs: seq<Grid<S>>)
    requires |gs| > 0 && forall k :: 0 <= k < |gs| ==> gs[k].c == gs[0].c
    ensures Map(f, Stack(gs)) == Stack(MapAll(f, gs))
  {
    if |gs| > 1 {
      MapStack(f, gs[1..]);
      assert MapAll(f, gs)[1..] == MapAll(f, gs[1..]);
      SameEntries(Map(f, Above(gs[0], Stack(gs[1..]))), Above(Map(f, gs[0]), Map(f, Stack(gs[1..]))));
    }
  }

  lemma MapBeside<S, T>(f: S -> T, gs: seq<Grid<S>>)
    requires |gs| > 0 && forall k :: 0 <= k < |gs| ==> gs[k].r == gs[0].r
    ensures Map(f, Beside(gs)) == Beside(MapAll(f, gs))
  {
    MapFlip(f, Stack(FlipAll(gs)));
    MapStack(f, FlipAll(gs));
    forall k | 0 <= k < |gs| ensures MapAll(f, FlipAll(gs))[k] == FlipAll(MapAll(f, gs))[k] {
      MapFlip(f, gs[k]);
    }
    assert MapAll(f, FlipAll(gs)) == FlipAll(MapAll(f, gs));
  }

  function MapSeq<S, T>(f: S -> T, xs: seq<S>): (ys: seq<T>)
    ensures |ys| == |xs| && forall k :: 0 <= k < |xs| ==> ys[k] == f(xs[k])
  {
    seq(|xs|, k requires 0 <= k < |xs| => f(xs[k]))
  }

  lemma MapReshape<S, T>(f: S -> T, g: Grid<S>, r: nat, c: nat)
    requires Size(g) == r * c
    ensures Map(f, RowReshape(g, r, c)) == RowReshape(Map(f, g), r, c)
  {
    var h, k := Map(f, RowReshape(g, r, c)), RowReshape(Map(f, g), r, c);
    forall i, j | 0 <= i < r && 0 <= j < c ensures h.at[i][j] == k.at[i][j] {
      ChopAt(Entries(g), r, c, i, j);
      ChopAt(Entries(Map(f, g)), r, c, i, j);
      EntryAt(g, i * c + j);
      EntryAt(Map(f, g), i * c + j);
    }
    SameEntries(h, k);
  }

  lemma PlaceBounds(n: nat, r: nat, c: nat)
    requires n < r * c
    ensures c > 0 && n / c < r && n == (n / c) * c + n % c
  {
    assert c > 0;
    SmallerFactor(n / c, r, c);
  }

  lemma SmallerFactor(a: int, b: int, c: nat)
    ensures a * c < b * c ==> a < b
  {
  }

  /** The place of an entry determines its row and column. */
  lemma EntryAt<T>(g: Grid<T>, n: nat)
    requires n < Size(g)
    ensures g.c > 0 && n / g.c < g.r && Entries(g)[n] == g.at[n / g.c][n % g.c]
  {
    PlaceBounds(n, g.r, g.c);
    var i, j := n / g.c, n % g.c;
    FlatAt(g.at, g.c, i, j);
  }
}
