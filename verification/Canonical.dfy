/**
 The canonical serialiser: Python values are coerced to JSON trees whose objects are sorted by
 key at every depth, and printed. Two values have the same canonical text exactly when they are
 `Alike`; for unambiguous values that is equality up to the insertion order of their dicts.
 */
module Canonical {
  import opened Wrappers
  import opened Decimal
  import opened Json

  type Byte = b: nat | b < 256
  type Bytes = seq<Byte>

  /** Dict keys; the label of a key is its str(). */
  datatype Key = KStr(s: string) | KInt(n: int) | KOther(text: string)

  function Label(k: Key): string {
    match k
    case KStr(s) => s
    case KInt(n) => PrintInt(n)
    case KOther(text) => text
  }

  /** A string is its own label, and an integer's label is read back as that integer. */
  lemma LabelMeans(s: string, n: int)
    ensures Label(KStr(s)) == s && NumberToken(Label(KInt(n))) == Some(Int(n))
  {
    NumeralToken(n);
  }

  /** Python values; a finite float is its shortest decimal, a dict its items in insertion order. */
  datatype Py =
    | PNone
    | PBool(b: bool)
    | PInt(n: int)
    | PFloat(repr: string)
    | PNonFinite
    | PStr(s: string)
    | PBytes(bs: Bytes)
    | PList(xs: seq<Py>)
    | PDict(items: seq<Item>)
    | POther

  datatype Item = Item(key: Key, value: Py)

  // ---------------------------------------------------------------- bytes as hex

  function Hex(bs: Bytes): (s: string)
    ensures |s| == 2 * |bs|
  {
    if |bs| == 0 then "" else [HexDigit(bs[0] / 16), HexDigit(bs[0] % 16)] + Hex(bs[1..])
  }

  predicate AllHex(s: string) {
    forall i :: 0 <= i < |s| ==> IsHexDigit(s[i])
  }

  /** bytes.fromhex on a bare hex string; separators and odd lengths are rejected. */
  function FromHex(s: string): Option<Bytes> {
    if |s| == 0 then Some([])
    else if |s| == 1 || !IsHexDigit(s[0]) || !IsHexDigit(s[1]) then None
    else
      var rest :- FromHex(s[2..]);
      var b: Byte := HexWeight(s[0]) * 16 + HexWeight(s[1]);
      Some([b] + rest)
  }

  lemma {:induction false} FromHexOfHex(bs: Bytes)
    ensures AllHex(Hex(bs)) && FromHex(Hex(bs)) == Some(bs)
  {
    hide IsHexDigit, HexWeight, HexDigit, FromHex;
    if |bs| > 0 {
      FromHexOfHex(bs[1..]);
      HexDigitWeight(bs[0] / 16);
      HexDigitWeight(bs[0] % 16);
      var c, d := HexDigit(bs[0] / 16), HexDigit(bs[0] % 16);
      assert Hex(bs) == [c, d] + Hex(bs[1..]);
      FromHexStep(c, d, Hex(bs[1..]));
      assert HexWeight(c) * 16 + HexWeight(d) == bs[0];
      assert [bs[0]] + bs[1..] == bs;
    } else {
      FromHexEmpty();
    }
  }

  lemma FromHexEmpty()
    ensures FromHex("") == Some([])
  {
  }

  lemma FromHexStep(c: char, d: char, rest: string)
    requires IsHexDigit(c) && IsHexDigit(d) && FromHex(rest).Some?
    ensures FromHex([c, d] + rest) == Some([HexWeight(c) * 16 + HexWeight(d)] + FromHex(rest).value)
  {
    hide IsHexDigit, HexWeight;
    assert ([c, d] + rest)[2..] == rest;
  }

  lemma HexInjective(a: Bytes, b: Bytes)
    ensures Hex(a) == Hex(b) ==> a == b
  {
    FromHexOfHex(a);
    FromHexOfHex(b);
  }

  lemma {:induction false} FromHexAccepts(s: string)
    ensures FromHex(s).Some? <==> AllHex(s) && |s| % 2 == 0
  {
    hide IsHexDigit, HexWeight;
    if |s| >= 2 {
      FromHexAccepts(s[2..]);
      assert forall i :: 2 <= i < |s| ==> s[i] == s[2..][i - 2];
    }
  }

  /** The lower-case form of a hex string, the one the JSON form of bytes takes. */
  function Lower(s: string): (t: string)
    requires AllHex(s)
    ensures |t| == |s|
  {
    seq(|s|, i requires 0 <= i < |s| => HexDigit(HexWeight(s[i])))
  }

  /** Writing decoded bytes gives the hex string back up to the case of its digits. */
  lemma {:induction false} HexOfFromHex(s: string)
    requires FromHex(s).Some?
    ensures AllHex(s) && Hex(FromHex(s).value) == Lower(s)
  {
    hide IsHexDigit, HexWeight, HexDigit;
    FromHexAccepts(s);
    if |s| > 0 {
      HexOfFromHex(s[2..]);
      var b := HexWeight(s[0]) * 16 + HexWeight(s[1]);
      assert b / 16 == HexWeight(s[0]) && b % 16 == HexWeight(s[1]);
      assert Lower(s) == [HexDigit(b / 16), HexDigit(b % 16)] + Lower(s[2..]);
    }
  }

  /** So two hex strings decode to the same bytes exactly when they differ in case only. */
  lemma FromHexCollides(s: string, t: string)
    requires FromHex(s).Some? && FromHex(t).Some?
    ensures AllHex(s) && AllHex(t) && (FromHex(s) == FromHex(t) <==> Lower(s) == Lower(t))
  {
    HexOfFromHex(s);
    HexOfFromHex(t);
    HexInjective(FromHex(s).value, FromHex(t).value);
  }

  // ---------------------------------------------------------------- the order of the labels

  /** Lexicographic order by code point. */
  predicate Less(a: string, b: string) {
    |b| > 0 && (|a| == 0 || a[0] < b[0] || (a[0] == b[0] && Less(a[1..], b[1..])))
  }

  lemma {:induction false} LessTrans(a: string, b: string, c: string)
    requires Less(a, b) && Less(b, c)
    ensures Less(a, c)
  {
    if |a| > 0 && a[0] == b[0] && b[0] == c[0] {
      LessTrans(a[1..], b[1..], c[1..]);
    }
  }

  lemma {:induction false} LessTotal(a: string, b: string)
    ensures Less(a, b) || a == b || Less(b, a)
    ensures !(Less(a, b) && Less(b, a)) && !Less(a, a)
  {
    if |a| > 0 && |b| > 0 {
      LessTotal(a[1..], b[1..]);
      assert a == [a[0]] + a[1..] && b == [b[0]] + b[1..];
    }
    if |a| > 0 {
      LessTotal(a[1..], a[1..]);
    }
  }

  // ---------------------------------------------------------------- sorted objects

  /** Inserts before the first field that is not smaller: earlier fields stay before later equal ones. */
  function Insert(f: Field, fs: seq<Field>): (gs: seq<Field>)
    ensures |gs| == |fs| + 1
  {
    if |fs| > 0 && Less(fs[0].key, f.key) then [fs[0]] + Insert(f, fs[1..]) else [f] + fs
  }

  /** The stable sort by key. */
  function Sort(fs: seq<Field>): (gs: seq<Field>)
    ensures |gs| == |fs|
  {
    if |fs| == 0 then [] else Insert(fs[0], Sort(fs[1..]))
  }

  /** Dict assignment: an existing key keeps its place and takes the new value. */
  function Put(d: seq<Field>, f: Field): seq<Field> {
    if |d| == 0 then [f] else if d[0].key == f.key then [f] + d[1..] else [d[0]] + Put(d[1..], f)
  }

  function Assign(d: seq<Field>, fs: seq<Field>): seq<Field>
    decreases |fs|
  {
    if |fs| == 0 then d else Assign(Put(d, fs[0]), fs[1..])
  }

  function Object(fs: seq<Field>): seq<Field> {
    Assign([], Sort(fs))
  }

  // ---------------------------------------------------------------- coercion

  const BYTES_KEY := "$b16"

  function Coerce(v: Py): Option<Json>
    decreases v, 1
  {
    match v
    case PNone => Some(Null)
    case PBool(b) => Some(Bool(b))
    case PInt(n) => Some(Int(n))
    case PFloat(repr) => Some(Str(repr))
    case PNonFinite => None
    case PStr(s) => Some(Str(s))
    case PBytes(bs) => Some(Obj([Field(BYTES_KEY, Str(Hex(bs)))]))
    case PList(xs) =>
      var ts :- CoerceAll(xs);
      Some(Arr(ts))
    case PDict(items) =>
      var fs :- CoerceItems(items);
      Some(Obj(Object(fs)))
    case POther => None
  }

  function CoerceAll(xs: seq<Py>): (r: Option<seq<Json>>)
    ensures r.Some? <==> forall k :: 0 <= k < |xs| ==> Coerce(xs[k]).Some?
    ensures r.Some? ==> |r.value| == |xs| && forall k :: 0 <= k < |xs| ==> Coerce(xs[k]) == Some(r.value[k])
    decreases xs, 0
  {
    if |xs| == 0 then Some([])
    else
      var t :- Coerce(xs[0]);
      var ts :- CoerceAll(xs[1..]);
      Some([t] + ts)
  }

  function CoerceItem(item: Item): (r: Option<Field>)
    ensures r.Some? ==> r.value.key == Label(item.key)
    decreases item, 2
  {
    var t :- Coerce(item.value);
    Some(Field(Label(item.key), t))
  }

  function CoerceItems(items: seq<Item>): (r: Option<seq<Field>>)
    ensures r.Some? <==> forall k :: 0 <= k < |items| ==> CoerceItem(items[k]).Some?
    ensures r.Some? ==> |r.value| == |items| && forall k :: 0 <= k < |items| ==> CoerceItem(items[k]) == Some(r.value[k])
    decreases items, 0
  {
    if |items| == 0 then Some([])
    else
      var f :- CoerceItem(items[0]);
      var fs :- CoerceItems(items[1..]);
      Some([f] + fs)
  }

  /** canonical_dumps, before UTF-8 encoding. */
  function Dumps(v: Py): Option<string> {
    var t :- Coerce(v);
    Some(Print(t))
  }

  // ---------------------------------------------------------------- what a coerced dict holds

  predicate Ascending(fs: seq<Field>) {
    forall i, j :: 0 <= i < j < |fs| ==> Less(fs[i].key, fs[j].key)
  }

  predicate Weakly(fs: seq<Field>) {
    forall i, j :: 0 <= i < j < |fs| ==> !Less(fs[j].key, fs[i].key)
  }

  lemma {:induction false} InsertHolds(f: Field, fs: seq<Field>, k: string)
    ensures Last(Insert(f, fs), k) == Last([f] + fs, k)
  {
    assert ([f] + fs)[1..] == fs;
    if |fs| > 0 && Less(fs[0].key, f.key) {
      LessTotal(f.key, f.key);
      InsertHolds(f, fs[1..], k);
      assert Insert(f, fs)[1..] == Insert(f, fs[1..]);
      assert ([f] + fs[1..])[1..] == fs[1..];
    }
  }

  lemma {:induction false} SortHolds(fs: seq<Field>, k: string)
    ensures Last(Sort(fs), k) == Last(fs, k)
  {
    if |fs| > 0 {
      SortHolds(fs[1..], k);
      InsertHolds(fs[0], Sort(fs[1..]), k);
      assert ([fs[0]] + Sort(fs[1..]))[1..] == Sort(fs[1..]);
    }
  }

  lemma {:induction false} InsertWeakly(f: Field, fs: seq<Field>)
    requires Weakly(fs)
    ensures Weakly(Insert(f, fs))
    ensures forall i :: 0 <= i <= |fs| ==> Insert(f, fs)[i] == f || Insert(f, fs)[i] in fs
  {
    if |fs| > 0 {
      LessTotal(fs[0].key, f.key);
      if Less(fs[0].key, f.key) {
        InsertWeakly(f, fs[1..]);
      } else {
        forall j | 0 <= j < |fs| ensures !Less(fs[j].key, f.key) {
          if Less(fs[j].key, f.key) && f.key != fs[0].key {
            LessTrans(fs[j].key, f.key, fs[0].key);
          }
        }
      }
    }
  }

  lemma {:induction false} SortWeakly(fs: seq<Field>)
    ensures Weakly(Sort(fs))
  {
    if |fs| > 0 {
      SortWeakly(fs[1..]);
      InsertWeakly(fs[0], Sort(fs[1..]));
    }
  }

  /** Assigning a key not smaller than any present one keeps a dict ascending. */
  lemma {:induction false} PutAscending(d: seq<Field>, f: Field)
    requires Ascending(d) && forall i :: 0 <= i < |d| ==> !Less(f.key, d[i].key)
    ensures Ascending(Put(d, f))
    ensures forall i :: 0 <= i < |Put(d, f)| ==> Put(d, f)[i] == f || Put(d, f)[i] in d
    ensures forall k :: Last(Put(d, f), k) == if k == f.key then Some(f.value) else Last(d, k)
  {
    if |d| == 0 {
      assert [f][1..] == [];
    } else if d[0].key == f.key {
      AscendingTail(d);
      assert Put(d, f)[1..] == d[1..];
    } else {
      LessTotal(d[0].key, f.key);
      PutAscending(d[1..], f);
      assert Put(d, f)[1..] == Put(d[1..], f);
    }
  }

  lemma AscendingTail(d: seq<Field>)
    requires |d| > 0 && Ascending(d)
    ensures Ascending(d[1..]) && Last(d[1..], d[0].key) == None
  {
    LastIs(d[1..], d[0].key);
    LessTotal(d[0].key, d[0].key);
  }

  lemma {:induction false} AssignAscending(d: seq<Field>, fs: seq<Field>)
    requires Ascending(d) && Weakly(fs) && forall i, j :: 0 <= i < |d| && 0 <= j < |fs| ==> !Less(fs[j].key, d[i].key)
    ensures Ascending(Assign(d, fs))
    ensures forall k :: Last(Assign(d, fs), k) == if Last(fs, k).Some? then Last(fs, k) else Last(d, k)
    decreases |fs|
  {
    if |fs| > 0 {
      PutAscending(d, fs[0]);
      AssignAscending(Put(d, fs[0]), fs[1..]);
    }
  }

  /** A coerced dict is sorted, without repeated keys, and holds for each label the last value given for it. */
  lemma ObjectHolds(fs: seq<Field>)
    ensures Ascending(Object(fs)) && forall k :: Last(Object(fs), k) == Last(fs, k)
  {
    SortWeakly(fs);
    AssignAscending([], Sort(fs));
    forall k ensures Last(Object(fs), k) == Last(fs, k) {
      SortHolds(fs, k);
    }
  }

  /** Ascending objects that hold the same values are the same. */
  lemma {:induction false} SameObject(a: seq<Field>, b: seq<Field>)
    requires Ascending(a) && Ascending(b) && forall k :: Last(a, k) == Last(b, k)
    ensures a == b
  {
    if |a| == 0 {
      if |b| > 0 {
        LastIs(b, b[0].key);
      }
    } else {
      LastIs(a, a[0].key);
      LastIs(b, a[0].key);
      assert |b| > 0;
      LastIs(b, b[0].key);
      LastIs(a, b[0].key);
      SameHead(a, b);
      AscendingTail(a);
      AscendingTail(b);
      forall k ensures Last(a[1..], k) == Last(b[1..], k) {
        assert Last(a, k) == Last(b, k);
      }
      SameObject(a[1..], b[1..]);
    }
  }

  lemma SameHead(a: seq<Field>, b: seq<Field>)
    requires Ascending(a) && Ascending(b) && |a| > 0 && |b| > 0
    requires exists i :: 0 <= i < |b| && b[i].key == a[0].key
    requires exists i :: 0 <= i < |a| && a[i].key == b[0].key
    ensures a[0].key == b[0].key
  {
    LessTotal(a[0].key, b[0].key);
  }

  // ---------------------------------------------------------------- equality up to insertion order

  /** Equality up to the insertion order of dict items, at any depth. */
  ghost predicate Same(v: Py, w: Py)
    decreases v, 1
  {
    if v.PList? && w.PList? then SameAll(v.xs, w.xs)
    else if v.PDict? && w.PDict? then SameItems(v.items, w.items)
    else v == w
  }

  ghost predicate SameAll(xs: seq<Py>, ys: seq<Py>)
    decreases xs, 0
  {
    |xs| == |ys| && forall i :: 0 <= i < |xs| ==> Same(xs[i], ys[i])
  }

  ghost predicate SameItem(a: Item, b: Item)
    decreases a, 2
  {
    a.key == b.key && Same(a.value, b.value)
  }

  ghost predicate HasPartner(x: Item, b: seq<Item>)
    decreases x, 3
  {
    exists j :: 0 <= j < |b| && SameItem(x, b[j])
  }

  ghost predicate IsPartner(a: seq<Item>, y: Item)
    decreases a, 0
  {
    exists i :: 0 <= i < |a| && SameItem(a[i], y)
  }

  ghost predicate SameItems(a: seq<Item>, b: seq<Item>)
    decreases a, 1
  {
    && (forall i :: 0 <= i < |a| ==> HasPartner(a[i], b))
    && (forall j :: 0 <= j < |b| ==> IsPartner(a, b[j]))
  }

  /** No two keys of one dict have the same label, at any depth. */
  predicate DistinctLabels(v: Py)
    decreases v, 1
  {
    match v
    case PList(xs) => forall i :: 0 <= i < |xs| ==> DistinctLabels(xs[i])
    case PDict(items) => DistinctItems(items) && forall i :: 0 <= i < |items| ==> DistinctLabels(items[i].value)
    case _ => true
  }

  predicate DistinctItems(items: seq<Item>) {
    forall i, j :: 0 <= i < j < |items| ==> Label(items[i].key) != Label(items[j].key)
  }

  predicate Within(a: seq<Field>, b: seq<Field>) {
    forall i :: 0 <= i < |a| ==> a[i] in b
  }

  lemma LastWithin(a: seq<Field>, b: seq<Field>, k: string)
    requires DistinctKeys(b) && Within(a, b)
    ensures Last(a, k).Some? ==> Last(b, k) == Last(a, k)
  {
    LastIs(a, k);
    if Last(a, k).Some? {
      var i :| 0 <= i < |a| && a[i] == Field(k, Last(a, k).value);
      var j :| 0 <= j < |b| && b[j] == a[i];
      LastOfDistinct(b, j);
    }
  }

  /** Objects built from the same distinct fields in any order are the same. */
  lemma SameFieldsObject(a: seq<Field>, b: seq<Field>)
    requires DistinctKeys(a) && DistinctKeys(b) && Within(a, b) && Within(b, a)
    ensures Object(a) == Object(b)
  {
    forall k ensures Last(a, k) == Last(b, k) {
      LastWithin(a, b, k);
      LastWithin(b, a, k);
    }
    ObjectHolds(a);
    ObjectHolds(b);
    SameObject(Object(a), Object(b));
  }

  /** Reordering the items of dicts at any depth leaves the canonical form unchanged. */
  lemma {:induction false} ReorderInvariant(v: Py, w: Py)
    requires DistinctLabels(v) && DistinctLabels(w) && Same(v, w)
    ensures Coerce(v) == Coerce(w)
    decreases v, 1
  {
    hide Object, SameItems, DistinctItems;
    if v.PList? && w.PList? {
      forall i | 0 <= i < |v.xs| ensures Coerce(v.xs[i]) == Coerce(w.xs[i]) {
        ReorderInvariant(v.xs[i], w.xs[i]);
      }
      var a, b := CoerceAll(v.xs), CoerceAll(w.xs);
      assert a.Some? && b.Some? ==> a.value == b.value;
    } else if v.PDict? && w.PDict? {
      forall i, j | 0 <= i < |v.items| && 0 <= j < |w.items| && SameItem(v.items[i], w.items[j])
        ensures CoerceItem(v.items[i]) == CoerceItem(w.items[j])
      {
        assert v.items[i] < v;
        ReorderInvariant(v.items[i].value, w.items[j].value);
      }
      ReorderItems(v.items, w.items);
    }
  }

  ghost predicate Respects(a: seq<Item>, b: seq<Item>) {
    forall i, j :: 0 <= i < |a| && 0 <= j < |b| && SameItem(a[i], b[j]) ==> CoerceItem(a[i]) == CoerceItem(b[j])
  }

  lemma ReorderItems(a: seq<Item>, b: seq<Item>)
    requires DistinctItems(a) && DistinctItems(b) && SameItems(a, b) && Respects(a, b)
    ensures Coerce(PDict(a)) == Coerce(PDict(b))
  {
    hide Object, SameItems, Respects, DistinctItems, DistinctKeys, CoerceItem, CoerceItems, Within;
    var fs, gs := CoerceItems(a), CoerceItems(b);
    BothCoerce(a, b);
    if fs.Some? {
      FieldsDistinct(a, fs.value);
      FieldsDistinct(b, gs.value);
      FieldsWithin(a, b, fs.value, gs.value);
      SameFieldsObject(fs.value, gs.value);
    }
  }

  lemma PartnerOf(a: seq<Item>, b: seq<Item>, i: nat) returns (j: nat)
    requires SameItems(a, b) && Respects(a, b) && i < |a|
    ensures j < |b| && CoerceItem(a[i]) == CoerceItem(b[j])
  {
    hide CoerceItem, SameItem, IsPartner;
    assert HasPartner(a[i], b);
    j :| 0 <= j < |b| && SameItem(a[i], b[j]);
  }

  lemma PartnerFor(a: seq<Item>, b: seq<Item>, j: nat) returns (i: nat)
    requires SameItems(a, b) && Respects(a, b) && j < |b|
    ensures i < |a| && CoerceItem(a[i]) == CoerceItem(b[j])
  {
    hide CoerceItem, SameItem, HasPartner;
    assert IsPartner(a, b[j]);
    i :| 0 <= i < |a| && SameItem(a[i], b[j]);
  }

  lemma BothCoerce(a: seq<Item>, b: seq<Item>)
    requires SameItems(a, b) && Respects(a, b)
    ensures CoerceItems(a).Some? <==> CoerceItems(b).Some?
  {
    hide SameItems, Respects, CoerceItem;
    if CoerceItems(a).Some? {
      forall j | 0 <= j < |b| ensures CoerceItem(b[j]).Some? {
        var i := PartnerFor(a, b, j);
      }
    }
    if CoerceItems(b).Some? {
      forall i | 0 <= i < |a| ensures CoerceItem(a[i]).Some? {
        var j := PartnerOf(a, b, i);
      }
    }
  }

  lemma FieldsDistinct(a: seq<Item>, fs: seq<Field>)
    requires DistinctItems(a) && CoerceItems(a) == Some(fs)
    ensures DistinctKeys(fs)
  {
    hide Coerce;
  }

  lemma FieldsWithin(a: seq<Item>, b: seq<Item>, fs: seq<Field>, gs: seq<Field>)
    requires SameItems(a, b) && Respects(a, b)
    requires CoerceItems(a) == Some(fs) && CoerceItems(b) == Some(gs)
    ensures Within(fs, gs) && Within(gs, fs)
  {
    hide SameItems, Respects, CoerceItem;
    forall i | 0 <= i < |fs| ensures fs[i] in gs {
      var j := PartnerOf(a, b, i);
      assert gs[j] == fs[i];
    }
    forall j | 0 <= j < |gs| ensures gs[j] in fs {
      var i := PartnerFor(a, b, j);
      assert gs[j] == fs[i];
    }
  }

  // ---------------------------------------------------------------- when the order of a dict matters

  /** Fields with equal keys carry equal values. */
  predicate Agreeing(fs: seq<Field>) {
    forall i, j :: 0 <= i < |fs| && 0 <= j < |fs| && fs[i].key == fs[j].key ==> fs[i] == fs[j]
  }

  /** The same items in the two orders that put item i, respectively, at the end. */
  function MoveToEnd<T>(xs: seq<T>, i: nat): (ys: seq<T>)
    requires i < |xs|
    ensures |ys| == |xs| && ys[|xs| - 1] == xs[i]
  {
    xs[..i] + xs[i + 1..] + [xs[i]]
  }

  lemma MoveToEndPermutes<T>(xs: seq<T>, i: nat)
    requires i < |xs|
    ensures multiset(MoveToEnd(xs, i)) == multiset(xs)
  {
    assert xs == xs[..i] + [xs[i]] + xs[i + 1..];
  }

  lemma {:induction false} LastOfEnd(fs: seq<Field>, f: Field)
    ensures Last(fs + [f], f.key) == Some(f.value)
  {
    if |fs| > 0 {
      assert (fs + [f])[1..] == fs[1..] + [f];
      LastOfEnd(fs[1..], f);
    }
  }

  lemma AgreeingWithin(a: seq<Field>, b: seq<Field>, k: string)
    requires Agreeing(b) && Within(a, b)
    ensures Last(a, k).Some? ==> Last(b, k) == Last(a, k)
  {
    LastIs(a, k);
    LastIs(b, k);
  }

  /**
   A dict has one canonical form whatever its insertion order exactly when keys with the same
   label carry values with the same canonical form: {1: x, "1": y} does not.
   */
  lemma DictOrderIrrelevant(items: seq<Item>, fs: seq<Field>)
    requires CoerceItems(items) == Some(fs)
    ensures Agreeing(fs) <==>
            forall other {:trigger multiset(other)} :: multiset(other) == multiset(items) ==> Coerce(PDict(other)) == Coerce(PDict(items))
  {
    hide Object, Agreeing, CoerceItems;
    if Agreeing(fs) {
      forall other {:trigger multiset(other)} | multiset(other) == multiset(items)
        ensures Coerce(PDict(other)) == Coerce(PDict(items))
      {
        AgreeingOrder(items, other, fs);
      }
    } else {
      var i, j := Disagreement(fs);
      assert |items| == |fs| by { SameCount(items, fs); }
      EndDecides(items, fs, i);
      EndDecides(items, fs, j);
      MoveToEndPermutes(items, i);
      MoveToEndPermutes(items, j);
    }
  }

  lemma SameCount(items: seq<Item>, fs: seq<Field>)
    requires CoerceItems(items) == Some(fs)
    ensures |items| == |fs|
  {
  }

  lemma Disagreement(fs: seq<Field>) returns (i: nat, j: nat)
    requires !Agreeing(fs)
    ensures i < |fs| && j < |fs| && fs[i].key == fs[j].key && fs[i].value != fs[j].value
  {
    i, j :| 0 <= i < |fs| && 0 <= j < |fs| && fs[i].key == fs[j].key && fs[i] != fs[j];
  }

  lemma AgreeingOrder(items: seq<Item>, other: seq<Item>, fs: seq<Field>)
    requires CoerceItems(items) == Some(fs) && multiset(other) == multiset(items) && Agreeing(fs)
    ensures Coerce(PDict(other)) == Coerce(PDict(items))
  {
    hide Object, CoerceItems, Agreeing, Within;
    ItemsPermuted(items, other, fs);
    var gs := CoerceItems(other).value;
    forall k ensures Last(fs, k) == Last(gs, k) {
      AgreeingWithin(gs, fs, k);
      AgreeingWithin(fs, gs, k);
    }
    ObjectHolds(fs);
    ObjectHolds(gs);
    SameObject(Object(fs), Object(gs));
  }

  lemma ItemsPermuted(items: seq<Item>, other: seq<Item>, fs: seq<Field>)
    requires CoerceItems(items) == Some(fs) && multiset(other) == multiset(items) && Agreeing(fs)
    ensures CoerceItems(other).Some? && Within(CoerceItems(other).value, fs) && Within(fs, CoerceItems(other).value)
    ensures Agreeing(CoerceItems(other).value)
  {
    hide CoerceItem;
    forall k | 0 <= k < |other| ensures CoerceItem(other[k]).Some? && CoerceItem(other[k]).value in fs {
      assert other[k] in multiset(items);
      var i :| 0 <= i < |items| && items[i] == other[k];
      assert fs[i] == CoerceItem(other[k]).value;
    }
    var gs := CoerceItems(other).value;
    forall i | 0 <= i < |items| ensures fs[i] in gs {
      assert items[i] in multiset(other);
      var k :| 0 <= k < |other| && other[k] == items[i];
      assert gs[k] == fs[i];
    }
  }

  lemma EndCoerces(items: seq<Item>, fs: seq<Field>, i: nat)
    requires CoerceItems(items) == Some(fs) && i < |items|
    ensures CoerceItems(MoveToEnd(items, i)).Some?
    ensures |CoerceItems(MoveToEnd(items, i)).value| == |items| && CoerceItems(MoveToEnd(items, i)).value[|items| - 1] == fs[i]
  {
    hide CoerceItem, MoveToEnd;
    var other := MoveToEnd(items, i);
    MoveToEndPermutes(items, i);
    forall k | 0 <= k < |other| ensures CoerceItem(other[k]).Some? {
      assert other[k] in multiset(items);
    }
  }

  /** The item moved to the end decides the value of its label. */
  lemma {:induction false} EndDecides(items: seq<Item>, fs: seq<Field>, i: nat)
    requires CoerceItems(items) == Some(fs) && i < |items|
    ensures i < |fs| && Coerce(PDict(MoveToEnd(items, i))).Some?
    ensures Last(Coerce(PDict(MoveToEnd(items, i))).value.fields, fs[i].key) == Some(fs[i].value)
  {
    hide Object, CoerceItems, MoveToEnd;
    SameCount(items, fs);
    EndCoerces(items, fs, i);
    var gs := CoerceItems(MoveToEnd(items, i)).value;
    assert gs == gs[..|gs| - 1] + [fs[i]];
    LastOfEnd(gs[..|gs| - 1], fs[i]);
    ObjectHolds(gs);
  }

  // ---------------------------------------------------------------- canonical form as equality

  /** Floats are coerced to strings: a canonical tree has no real numbers. */
  lemma {:induction false} CoerceLexical(v: Py)
    requires Coerce(v).Some?
    ensures Lexical(Coerce(v).value)
    decreases v
  {
    hide Object, IsReal;
    if v.PList? {
      forall i | 0 <= i < |v.xs| ensures Lexical(Coerce(v.xs[i]).value) {
        CoerceLexical(v.xs[i]);
      }
    } else if v.PDict? {
      var fs := CoerceItems(v.items).value;
      forall i | 0 <= i < |fs| ensures Lexical(fs[i].value) {
        assert CoerceItem(v.items[i]) == Some(fs[i]) && v.items[i] < v;
        CoerceLexical(v.items[i].value);
      }
      FieldsOfObject(fs);
    }
  }

  /** Objects are sorted, without repeated keys, at every depth: sort_keys has nothing left to do. */
  predicate SortedTree(t: Json)
    decreases t
  {
    match t
    case Arr(xs) => forall i :: 0 <= i < |xs| ==> SortedTree(xs[i])
    case Obj(fs) => Ascending(fs) && forall i :: 0 <= i < |fs| ==> SortedTree(fs[i].value)
    case _ => true
  }

  lemma {:induction false} CoerceSorted(v: Py)
    requires Coerce(v).Some?
    ensures SortedTree(Coerce(v).value)
    decreases v
  {
    hide Object;
    if v.PList? {
      forall i | 0 <= i < |v.xs| ensures SortedTree(Coerce(v.xs[i]).value) {
        CoerceSorted(v.xs[i]);
      }
    } else if v.PDict? {
      var fs := CoerceItems(v.items).value;
      forall i | 0 <= i < |fs| ensures SortedTree(fs[i].value) {
        assert CoerceItem(v.items[i]) == Some(fs[i]) && v.items[i] < v;
        CoerceSorted(v.items[i].value);
      }
      ObjectHolds(fs);
      FieldsOfObject(fs);
    }
  }

  lemma FieldsOfObject(fs: seq<Field>)
    ensures Within(Object(fs), fs)
  {
    hide Object;
    ObjectHolds(fs);
    var d := Object(fs);
    forall i | 0 <= i < |d| ensures d[i] in fs {
      AscendingDistinct(d);
      LastOfDistinct(d, i);
      assert Last(d, d[i].key) == Last(fs, d[i].key);
      LastIs(fs, d[i].key);
    }
  }

  lemma AscendingDistinct(d: seq<Field>)
    requires Ascending(d)
    ensures DistinctKeys(d)
  {
    forall p, q | 0 <= p < q < |d| ensures d[p].key != d[q].key {
      LessTotal(d[p].key, d[q].key);
    }
  }

  /** Values that stand for themselves: no floats, string keys, and no dict in the form bytes take. */
  predicate Unambiguous(v: Py)
    decreases v
  {
    match v
    case PFloat(_) => false
    case PNonFinite => false
    case POther => false
    case PList(xs) => forall i :: 0 <= i < |xs| ==> Unambiguous(xs[i])
    case PDict(items) =>
      && StringKeys(items)
      && !LooksLikeBytes(items)
      && forall i :: 0 <= i < |items| ==> Unambiguous(items[i].value)
    case _ => true
  }

  predicate StringKeys(items: seq<Item>) {
    && (forall i :: 0 <= i < |items| ==> items[i].key.KStr?)
    && (forall i, j :: 0 <= i < j < |items| ==> items[i].key != items[j].key)
  }

  predicate LooksLikeBytes(items: seq<Item>) {
    |items| == 1 && items[0].key == KStr(BYTES_KEY) && items[0].value.PStr?
  }

  lemma {:induction false} UnambiguousDistinct(v: Py)
    requires Unambiguous(v)
    ensures DistinctLabels(v) && Coerce(v).Some?
    decreases v
  {
    hide Object;
    if v.PList? {
      forall i | 0 <= i < |v.xs| ensures DistinctLabels(v.xs[i]) && Coerce(v.xs[i]).Some? {
        UnambiguousDistinct(v.xs[i]);
      }
    } else if v.PDict? {
      forall i | 0 <= i < |v.items| ensures DistinctLabels(v.items[i].value) && CoerceItem(v.items[i]).Some? {
        assert v.items[i] < v;
        UnambiguousDistinct(v.items[i].value);
      }
    }
  }

  /** The object of bytes is the object of no other unambiguous dict. */
  lemma BytesApart(bs: Bytes, items: seq<Item>)
    requires Unambiguous(PDict(items))
    ensures Coerce(PBytes(bs)) != Coerce(PDict(items))
  {
    hide Object;
    if Coerce(PBytes(bs)) == Coerce(PDict(items)) {
      var fs := CoerceItems(items).value;
      var d := Object(fs);
      assert d == [Field(BYTES_KEY, Str(Hex(bs)))] && d[1..] == [];
      ObjectHolds(fs);
      assert Last(d, BYTES_KEY) == Some(Str(Hex(bs)));
      LastIs(fs, BYTES_KEY);
      forall i | 0 <= i < |fs| ensures fs[i].key == BYTES_KEY {
        LastIs(fs, fs[i].key);
        assert Last(d[1..], fs[i].key) == None;
      }
      SingleBytesItem(items, fs);
    }
  }

  lemma {:induction false} KeysAreLabels(items: seq<Item>, fs: seq<Field>)
    requires StringKeys(items) && CoerceItems(items) == Some(fs)
    ensures |items| == |fs| && forall k :: 0 <= k < |items| ==> items[k].key == KStr(fs[k].key)
  {
    hide Coerce;
    forall k | 0 <= k < |items| ensures items[k].key == KStr(fs[k].key) {
      assert CoerceItem(items[k]) == Some(fs[k]);
    }
  }

  lemma {:induction false} SingleBytesItem(items: seq<Item>, fs: seq<Field>)
    requires StringKeys(items) && CoerceItems(items) == Some(fs) && |fs| > 0
    requires forall i :: 0 <= i < |items| ==> Unambiguous(items[i].value)
    requires forall i :: 0 <= i < |fs| ==> fs[i].key == BYTES_KEY
    requires exists i :: 0 <= i < |fs| && fs[i].value.Str?
    ensures LooksLikeBytes(items)
  {
    KeysAreLabels(items, fs);
    assert |items| == 1 && fs[0].value.Str?;
    assert CoerceItem(items[0]) == Some(fs[0]);
    assert Coerce(items[0].value) == Some(fs[0].value);
  }

  /** Unambiguous values with the same canonical form are equal up to insertion order. */
  lemma {:induction false} SameFromCanonical(v: Py, w: Py)
    requires Unambiguous(v) && Unambiguous(w) && Coerce(v) == Coerce(w)
    ensures Same(v, w)
    decreases v, 1
  {
    hide Object, Hex, LooksLikeBytes;
    UnambiguousDistinct(v);
    if v.PList? && w.PList? {
      assert CoerceAll(v.xs).value == CoerceAll(w.xs).value;
      forall i | 0 <= i < |v.xs| ensures Same(v.xs[i], w.xs[i]) {
        SameFromCanonical(v.xs[i], w.xs[i]);
      }
    } else if v.PDict? && w.PDict? {
      SameItemsFromCanonical(v.items, w.items);
    } else if v.PBytes? && w.PBytes? {
      HexInjective(v.bs, w.bs);
      assert Coerce(v).value.fields[0].value == Coerce(w).value.fields[0].value;
    } else if v.PBytes? && w.PDict? {
      BytesApart(v.bs, w.items);
    } else if v.PDict? && w.PBytes? {
      BytesApart(w.bs, v.items);
    }
  }

  lemma {:induction false} SameItemFromCanonical(x: Item, y: Item)
    requires Unambiguous(x.value) && Unambiguous(y.value) && x.key == y.key && Coerce(x.value) == Coerce(y.value)
    ensures SameItem(x, y)
    decreases x, 2
  {
    SameFromCanonical(x.value, y.value);
  }

  lemma {:induction false} FindPartner(a: seq<Item>, b: seq<Item>, fs: seq<Field>, gs: seq<Field>, i: nat)
    requires Unambiguous(PDict(a)) && Unambiguous(PDict(b)) && CoerceItems(a) == Some(fs) && CoerceItems(b) == Some(gs)
    requires i < |a| && forall k :: Last(fs, k) == Last(gs, k)
    ensures HasPartner(a[i], b)
    decreases a, 0
  {
    hide Unambiguous, SameItem, Last, StringKeys, CoerceItems;
    UnambiguousFacts(a);
    UnambiguousFacts(b);
    var j := Counterpart(a, b, fs, gs, i);
    SameItemFromCanonical(a[i], b[j]);
  }

  lemma {:induction false} FindPartnered(a: seq<Item>, b: seq<Item>, fs: seq<Field>, gs: seq<Field>, j: nat)
    requires Unambiguous(PDict(a)) && Unambiguous(PDict(b)) && CoerceItems(a) == Some(fs) && CoerceItems(b) == Some(gs)
    requires j < |b| && forall k :: Last(fs, k) == Last(gs, k)
    ensures IsPartner(a, b[j])
    decreases a, 0
  {
    hide Unambiguous, SameItem, Last, StringKeys, CoerceItems;
    UnambiguousFacts(a);
    UnambiguousFacts(b);
    var i := Counterpart(b, a, gs, fs, j);
    SameItemFromCanonical(a[i], b[j]);
  }

  lemma {:induction false} SameItemsFromCanonical(a: seq<Item>, b: seq<Item>)
    requires Unambiguous(PDict(a)) && Unambiguous(PDict(b))
    requires Coerce(PDict(a)) == Coerce(PDict(b)) && Coerce(PDict(a)).Some?
    ensures SameItems(a, b)
    decreases a, 1
  {
    hide Object, Unambiguous, HasPartner, IsPartner, Last;
    var fs, gs := CoerceItems(a).value, CoerceItems(b).value;
    ObjectHolds(fs);
    ObjectHolds(gs);
    forall i | 0 <= i < |a| ensures HasPartner(a[i], b) {
      FindPartner(a, b, fs, gs, i);
    }
    forall j | 0 <= j < |b| ensures IsPartner(a, b[j]) {
      FindPartnered(a, b, fs, gs, j);
    }
  }

  lemma UnambiguousFacts(a: seq<Item>)
    requires Unambiguous(PDict(a))
    ensures StringKeys(a) && forall i :: 0 <= i < |a| ==> Unambiguous(a[i].value)
  {
  }

  /** The item of b with the key of a[i] has its value's canonical form. */
  lemma Counterpart(a: seq<Item>, b: seq<Item>, fs: seq<Field>, gs: seq<Field>, i: nat) returns (j: nat)
    requires StringKeys(a) && StringKeys(b) && CoerceItems(a) == Some(fs) && CoerceItems(b) == Some(gs) && i < |a|
    requires forall k :: Last(fs, k) == Last(gs, k)
    ensures j < |b| && a[i].key == b[j].key && Coerce(a[i].value) == Coerce(b[j].value)
  {
    hide Coerce;
    forall p, q | 0 <= p < q < |fs| ensures fs[p].key != fs[q].key {
      assert CoerceItem(a[p]) == Some(fs[p]) && CoerceItem(a[q]) == Some(fs[q]);
    }
    LastOfDistinct(fs, i);
    LastIs(gs, fs[i].key);
    j :| 0 <= j < |gs| && gs[j] == Field(fs[i].key, Last(gs, fs[i].key).value);
    assert CoerceItem(a[i]) == Some(fs[i]) && CoerceItem(b[j]) == Some(gs[j]);
  }

  /** Two unambiguous values have one canonical text exactly when they are equal up to insertion order. */
  lemma DumpsDecidesSame(v: Py, w: Py)
    requires Unambiguous(v) && Unambiguous(w)
    ensures Dumps(v).Some? && (Dumps(v) == Dumps(w) <==> Same(v, w))
  {
    UnambiguousDistinct(v);
    UnambiguousDistinct(w);
    CoerceLexical(v);
    CoerceLexical(w);
    PrintInjective(Coerce(v).value, Coerce(w).value);
    if Same(v, w) {
      ReorderInvariant(v, w);
    } else if Coerce(v) == Coerce(w) {
      SameFromCanonical(v, w);
    }
  }

  /** Outside that class distinct values share a text, and equal Python numbers do not. */
  lemma AmbiguousTexts(repr: string, bs: Bytes)
    ensures Dumps(PFloat(repr)) == Dumps(PStr(repr)) && !Same(PFloat(repr), PStr(repr))
    ensures Dumps(PBytes(bs)) == Dumps(PDict([Item(KStr(BYTES_KEY), PStr(Hex(bs)))]))
    ensures Dumps(PInt(1)) != Dumps(PBool(true)) && Dumps(PInt(1)) != Dumps(PFloat("1.0")) && Dumps(PBool(true)) != Dumps(PFloat("1.0"))
  {
    hide Print;
    OneItem(KStr(BYTES_KEY), PStr(Hex(bs)));
    PrintInjective(Int(1), Bool(true));
    PrintInjective(Int(1), Str("1.0"));
    PrintInjective(Bool(true), Str("1.0"));
  }

  lemma OneItem(k: Key, v: Py)
    requires Coerce(v).Some?
    ensures Coerce(PDict([Item(k, v)])) == Some(Obj([Field(Label(k), Coerce(v).value)]))
  {
    var items, f := [Item(k, v)], Field(Label(k), Coerce(v).value);
    assert CoerceItem(items[0]) == Some(f) && items[1..] == [];
    var fs := CoerceItems(items).value;
    assert fs == [f];
    assert fs[1..] == [];
    assert Sort(fs) == Insert(f, []) == [f];
    assert Assign([], [f]) == Assign(Put([], f), []);
  }

  // ---------------------------------------------------------------- which values share a text

  /** The text a string or a float is coerced to. */
  function TextOf(v: Py): Option<string> {
    match v
    case PStr(s) => Some(s)
    case PFloat(repr) => Some(repr)
    case _ => None
  }

  /** No later item has the same label: the one that counts. */
  predicate IsLast(items: seq<Item>, i: nat) {
    i < |items| && forall j :: i < j < |items| ==> Label(items[j].key) != Label(items[i].key)
  }

  /** A dict in the form that bytes take. */
  predicate Wraps(items: seq<Item>, bs: Bytes) {
    && |items| > 0
    && (forall i :: 0 <= i < |items| ==> Label(items[i].key) == BYTES_KEY)
    && TextOf(items[|items| - 1].value) == Some(Hex(bs))
  }

  /**
   Equality as canonical text sees it: floats are their decimals, bytes their wrapper dicts, keys
   their labels, the last item of a label counts, and order does not.
   */
  ghost predicate Alike(v: Py, w: Py)
    decreases v, 1
  {
    match v
    case PNone => w.PNone?
    case PBool(_) => w == v
    case PInt(_) => w == v
    case PFloat(repr) => TextOf(w) == Some(repr)
    case PStr(s) => TextOf(w) == Some(s)
    case PBytes(bs) => w == v || (w.PDict? && Wraps(w.items, bs))
    case PList(xs) => w.PList? && AlikeAll(xs, w.xs)
    case PDict(items) => (w.PBytes? && Wraps(items, w.bs)) || (w.PDict? && AlikeItems(items, w.items))
    case PNonFinite => false
    case POther => false
  }

  ghost predicate AlikeAll(xs: seq<Py>, ys: seq<Py>)
    decreases xs, 0
  {
    |xs| == |ys| && forall i :: 0 <= i < |xs| ==> Alike(xs[i], ys[i])
  }

  ghost predicate AlikeItem(x: Item, y: Item)
    decreases x, 2
  {
    Label(x.key) == Label(y.key) && Alike(x.value, y.value)
  }

  ghost predicate HasTwin(x: Item, b: seq<Item>)
    decreases x, 3
  {
    exists j: nat :: IsLast(b, j) && AlikeItem(x, b[j])
  }

  ghost predicate IsTwin(a: seq<Item>, y: Item)
    decreases a, 0
  {
    exists i: nat :: IsLast(a, i) && AlikeItem(a[i], y)
  }

  ghost predicate AlikeItems(a: seq<Item>, b: seq<Item>)
    decreases a, 1
  {
    && (forall i: nat :: IsLast(a, i) ==> HasTwin(a[i], b))
    && (forall j: nat :: IsLast(b, j) ==> IsTwin(a, b[j]))
  }

  lemma {:induction false} LastAt(fs: seq<Field>, i: nat)
    requires i < |fs| && forall j :: i < j < |fs| ==> fs[j].key != fs[i].key
    ensures Last(fs, fs[i].key) == Some(fs[i].value)
  {
    if i > 0 {
      LastAt(fs[1..], i - 1);
    } else {
      LastIs(fs[1..], fs[0].key);
    }
  }

  lemma {:induction false} LastFound(fs: seq<Field>, k: string) returns (i: nat)
    requires Last(fs, k).Some?
    ensures i < |fs| && fs[i] == Field(k, Last(fs, k).value) && forall j :: i < j < |fs| ==> fs[j].key != k
  {
    if Last(fs[1..], k).Some? {
      i := LastFound(fs[1..], k);
      i := i + 1;
    } else {
      LastIs(fs[1..], k);
      i := 0;
      assert forall j :: 0 < j < |fs| ==> fs[j] == fs[1..][j - 1];
    }
  }

  /** Dicts have one canonical form exactly when they hold the same values for the same labels. */
  lemma DictForms(fs: seq<Field>, gs: seq<Field>)
    ensures Object(fs) == Object(gs) ==> forall k :: Last(fs, k) == Last(gs, k)
    ensures (forall k :: Last(fs, k) == Last(gs, k)) ==> Object(fs) == Object(gs)
  {
    hide Object;
    ObjectHolds(fs);
    ObjectHolds(gs);
    if Object(fs) == Object(gs) {
      forall k ensures Last(fs, k) == Last(gs, k) {
        assert Last(Object(fs), k) == Last(fs, k) && Last(Object(gs), k) == Last(gs, k);
      }
    }
    if forall k :: Last(fs, k) == Last(gs, k) {
      forall k ensures Last(Object(fs), k) == Last(Object(gs), k) {
        assert Last(Object(fs), k) == Last(fs, k) && Last(Object(gs), k) == Last(gs, k);
      }
      SameObject(Object(fs), Object(gs));
    }
  }

  lemma LastItem(items: seq<Item>, fs: seq<Field>, i: nat)
    requires CoerceItems(items) == Some(fs) && IsLast(items, i)
    ensures i < |fs| && Last(fs, Label(items[i].key)) == Some(fs[i].value) && Coerce(items[i].value) == Some(fs[i].value)
  {
    hide Coerce, Last;
    forall j | 0 <= j < |fs| ensures fs[j].key == Label(items[j].key) {
      assert CoerceItem(items[j]) == Some(fs[j]);
    }
    assert CoerceItem(items[i]) == Some(fs[i]);
    LastAt(fs, i);
  }

  lemma FindLastItem(items: seq<Item>, fs: seq<Field>, k: string) returns (i: nat)
    requires CoerceItems(items) == Some(fs) && Last(fs, k).Some?
    ensures IsLast(items, i) && Label(items[i].key) == k
  {
    hide Coerce, Last;
    i := LastFound(fs, k);
    forall j | 0 <= j < |fs| ensures fs[j].key == Label(items[j].key) {
      assert CoerceItem(items[j]) == Some(fs[j]);
    }
  }

  lemma FieldLabels(items: seq<Item>, fs: seq<Field>)
    requires CoerceItems(items) == Some(fs)
    ensures |fs| == |items| && forall j :: 0 <= j < |fs| ==> fs[j].key == Label(items[j].key)
  {
    forall j | 0 <= j < |fs| ensures fs[j].key == Label(items[j].key) {
      assert CoerceItem(items[j]) == Some(fs[j]);
    }
  }

  /** The fields all have one label, and this is the last value. */
  predicate Only(fs: seq<Field>, f: Field) {
    |fs| > 0 && fs[|fs| - 1] == f && forall j :: 0 <= j < |fs| ==> fs[j].key == f.key
  }

  lemma OnlyDecides(fs: seq<Field>, f: Field)
    ensures Object(fs) == [f] <==> Only(fs, f)
  {
    hide Object, Last;
    DictForms(fs, [f]);
    OneField(f);
    if Only(fs, f) {
      LastAt(fs, |fs| - 1);
      forall k ensures Last(fs, k) == Last([f], k) {
        LastIs(fs, k);
        LastIs([f], k);
      }
    }
    if Object(fs) == [f] {
      assert Last(fs, f.key) == Some(f.value);
      forall j | 0 <= j < |fs| ensures fs[j].key == f.key {
        LastIs(fs, fs[j].key);
        LastIs([f], fs[j].key);
        assert Last(fs, fs[j].key) == Last([f], fs[j].key);
      }
      LastIs(fs, f.key);
      LastAt(fs, |fs| - 1);
    }
  }

  lemma TextCoerced(v: Py, t: string)
    ensures Coerce(v) == Some(Str(t)) <==> TextOf(v) == Some(t)
  {
  }

  /** The fields of a dict in that form. */
  lemma WrapsOnly(items: seq<Item>, fs: seq<Field>, bs: Bytes)
    requires CoerceItems(items) == Some(fs)
    ensures Only(fs, Field(BYTES_KEY, Str(Hex(bs)))) <==> Wraps(items, bs)
  {
    hide Object, Hex, CoerceItems, Last, Coerce;
    FieldLabels(items, fs);
    if |items| > 0 {
      LastItem(items, fs, |items| - 1);
      TextCoerced(items[|items| - 1].value, Hex(bs));
    }
  }

  lemma WrapsDecides(items: seq<Item>, bs: Bytes)
    requires Coerce(PDict(items)).Some?
    ensures Coerce(PDict(items)) == Coerce(PBytes(bs)) <==> Wraps(items, bs)
  {
    hide Object, Hex, CoerceItems, Wraps, Only;
    var fs := CoerceItems(items).value;
    WrapsOnly(items, fs, bs);
    OnlyDecides(fs, Field(BYTES_KEY, Str(Hex(bs))));
  }

  lemma OneField(f: Field)
    ensures Object([f]) == [f] && Last([f], f.key) == Some(f.value)
  {
    assert [f][1..] == [];
    assert Sort([f]) == Insert(f, []) == [f];
    assert Assign([], [f]) == Assign(Put([], f), []);
  }

  ghost predicate Decided(a: seq<Item>, b: seq<Item>) {
    forall i: nat, j: nat :: IsLast(a, i) && IsLast(b, j) && Label(a[i].key) == Label(b[j].key) ==>
      (Coerce(a[i].value) == Coerce(b[j].value) <==> AlikeItem(a[i], b[j]))
  }

  lemma {:induction false} TwinsFromForms(a: seq<Item>, b: seq<Item>, fs: seq<Field>, gs: seq<Field>)
    requires CoerceItems(a) == Some(fs) && CoerceItems(b) == Some(gs) && Decided(a, b)
    requires forall k :: Last(fs, k) == Last(gs, k)
    ensures AlikeItems(a, b)
  {
    hide CoerceItems, Last, AlikeItem, Coerce;
    forall i: nat | i < |a| && IsLast(a, i) ensures HasTwin(a[i], b) {
      LastItem(a, fs, i);
      assert Last(gs, Label(a[i].key)) == Last(fs, Label(a[i].key));
      var j := FindLastItem(b, gs, Label(a[i].key));
      LastItem(b, gs, j);
      assert AlikeItem(a[i], b[j]);
    }
    forall j: nat | j < |b| && IsLast(b, j) ensures IsTwin(a, b[j]) {
      LastItem(b, gs, j);
      assert Last(gs, Label(b[j].key)) == Last(fs, Label(b[j].key));
      var i := FindLastItem(a, fs, Label(b[j].key));
      LastItem(a, fs, i);
      assert AlikeItem(a[i], b[j]);
    }
  }

  lemma {:induction false} FormsFromTwins(a: seq<Item>, b: seq<Item>, fs: seq<Field>, gs: seq<Field>, k: string)
    requires CoerceItems(a) == Some(fs) && CoerceItems(b) == Some(gs) && Decided(a, b) && AlikeItems(a, b)
    ensures Last(fs, k) == Last(gs, k)
  {
    hide CoerceItems, Last, Coerce;
    if Last(fs, k).Some? {
      var i := FindLastItem(a, fs, k);
      LastItem(a, fs, i);
      assert HasTwin(a[i], b);
      var j: nat :| IsLast(b, j) && AlikeItem(a[i], b[j]);
      LastItem(b, gs, j);
    } else if Last(gs, k).Some? {
      var j := FindLastItem(b, gs, k);
      assert IsTwin(a, b[j]);
      var i: nat :| IsLast(a, i) && AlikeItem(a[i], b[j]);
      LastItem(a, fs, i);
    }
  }

  lemma {:induction false} DictsDecide(a: seq<Item>, b: seq<Item>)
    requires Coerce(PDict(a)).Some? && Coerce(PDict(b)).Some? && Decided(a, b)
    ensures Coerce(PDict(a)) == Coerce(PDict(b)) <==> AlikeItems(a, b)
  {
    hide Object, Last, AlikeItems, Decided, CoerceItems;
    var fs, gs := CoerceItems(a).value, CoerceItems(b).value;
    DictForms(fs, gs);
    if Object(fs) == Object(gs) {
      TwinsFromForms(a, b, fs, gs);
    }
    if AlikeItems(a, b) {
      forall k ensures Last(fs, k) == Last(gs, k) {
        FormsFromTwins(a, b, fs, gs, k);
      }
    }
  }

  /** Two encodable values have one canonical form exactly when they are alike. */
  lemma {:induction false} CoerceDecides(v: Py, w: Py)
    requires Coerce(v).Some? && Coerce(w).Some?
    ensures Coerce(v) == Coerce(w) <==> Alike(v, w)
    decreases v
  {
    hide Object, Hex, Wraps, AlikeItems;
    if v.PList? && w.PList? {
      var a, b := CoerceAll(v.xs).value, CoerceAll(w.xs).value;
      if |v.xs| == |w.xs| {
        forall i | 0 <= i < |v.xs| ensures a[i] == b[i] <==> Alike(v.xs[i], w.xs[i]) {
          CoerceDecides(v.xs[i], w.xs[i]);
        }
        assert a == b <==> forall i :: 0 <= i < |a| ==> a[i] == b[i];
      }
    } else if v.PDict? && w.PDict? {
      var fs, gs := CoerceItems(v.items).value, CoerceItems(w.items).value;
      forall i: nat, j: nat | IsLast(v.items, i) && IsLast(w.items, j) && Label(v.items[i].key) == Label(w.items[j].key)
        ensures Coerce(v.items[i].value) == Coerce(w.items[j].value) <==> AlikeItem(v.items[i], w.items[j])
      {
        LastItem(v.items, fs, i);
        LastItem(w.items, gs, j);
        assert v.items[i] < v;
        CoerceDecides(v.items[i].value, w.items[j].value);
      }
      DictsDecide(v.items, w.items);
    } else if v.PBytes? && w.PBytes? {
      HexInjective(v.bs, w.bs);
      if Coerce(v) == Coerce(w) {
        assert Coerce(v).value.fields[0].value == Coerce(w).value.fields[0].value;
      }
    } else if v.PBytes? && w.PDict? {
      WrapsDecides(w.items, v.bs);
    } else if v.PDict? && w.PBytes? {
      WrapsDecides(v.items, w.bs);
    }
  }

  /** And one canonical text. */
  lemma DumpsDecides(v: Py, w: Py)
    requires Dumps(v).Some? && Dumps(w).Some?
    ensures Dumps(v) == Dumps(w) <==> Alike(v, w)
  {
    hide Alike, Coerce, Print;
    CoerceLexical(v);
    CoerceLexical(w);
    PrintInjective(Coerce(v).value, Coerce(w).value);
    CoerceDecides(v, w);
  }

  // ---------------------------------------------------------------- reading canonical text back

  /** Hex is written in lower case. */
  lemma {:induction false} HexLower(bs: Bytes)
    ensures forall i :: 0 <= i < |Hex(bs)| ==> LowerHex(Hex(bs)[i])
  {
    if |bs| > 0 {
      HexLower(bs[1..]);
    }
  }

  /** None, booleans, integers, finite floats, strings and bytes, and lists and dicts of these. */
  predicate Encodable(v: Py)
    decreases v
  {
    match v
    case PNonFinite => false
    case POther => false
    case PList(xs) => forall i :: 0 <= i < |xs| ==> Encodable(xs[i])
    case PDict(items) => forall i :: 0 <= i < |items| ==> Encodable(items[i].value)
    case _ => true
  }

  /** Exactly these have a canonical text. */
  lemma {:induction false} DumpsEncodes(v: Py)
    ensures Dumps(v).Some? <==> Encodable(v)
    ensures Coerce(v).Some? <==> Encodable(v)
    decreases v
  {
    hide Object, Print;
    if v.PList? {
      forall i | 0 <= i < |v.xs| ensures Coerce(v.xs[i]).Some? <==> Encodable(v.xs[i]) {
        DumpsEncodes(v.xs[i]);
      }
    } else if v.PDict? {
      forall i | 0 <= i < |v.items| ensures CoerceItem(v.items[i]).Some? <==> Encodable(v.items[i].value) {
        assert v.items[i] < v;
        DumpsEncodes(v.items[i].value);
      }
    }
  }

  /** The bytes of a wrapper dict's text, if it is the hex of some. */
  function Unwrapped(h: string): Option<Bytes> {
    var bs :- FromHex(h);
    if Hex(bs) == h then Some(bs) else None
  }

  /** A Python value from a JSON tree: wrapper dicts are bytes, numbers that are not integers are refused. */
  function Decode(t: Json): Py
    decreases t
  {
    match t
    case Null => PNone
    case Bool(b) => PBool(b)
    case Int(n) => PInt(n)
    case Real(_) => POther
    case Str(s) => PStr(s)
    case Arr(xs) => PList(seq(|xs|, i requires 0 <= i < |xs| => Decode(xs[i])))
    case Obj(fs) =>
      if |fs| == 1 && fs[0].key == BYTES_KEY && fs[0].value.Str? && Unwrapped(fs[0].value.s).Some? then PBytes(Unwrapped(fs[0].value.s).value)
      else PDict(seq(|fs|, i requires 0 <= i < |fs| => Item(KStr(fs[i].key), Decode(fs[i].value))))
  }

  predicate Realless(t: Json)
    decreases t
  {
    match t
    case Real(_) => false
    case Arr(xs) => forall i :: 0 <= i < |xs| ==> Realless(xs[i])
    case Obj(fs) => forall i :: 0 <= i < |fs| ==> Realless(fs[i].value)
    case _ => true
  }

  lemma {:induction false} CoerceRealless(v: Py)
    requires Coerce(v).Some?
    ensures Realless(Coerce(v).value)
    decreases v
  {
    hide Object;
    if v.PList? {
      forall i | 0 <= i < |v.xs| ensures Realless(Coerce(v.xs[i]).value) {
        CoerceRealless(v.xs[i]);
      }
    } else if v.PDict? {
      var fs := CoerceItems(v.items).value;
      forall i | 0 <= i < |fs| ensures Realless(fs[i].value) {
        assert CoerceItem(v.items[i]) == Some(fs[i]) && v.items[i] < v;
        CoerceRealless(v.items[i].value);
      }
      FieldsOfObject(fs);
    }
  }

  lemma SortedObject(fs: seq<Field>)
    requires Ascending(fs)
    ensures Object(fs) == fs
  {
    hide Object;
    ObjectHolds(fs);
    SameObject(Object(fs), fs);
  }

  /** Coercion gives a sorted tree back from its value. */
  lemma {:induction false} DecodeCoerces(t: Json)
    requires SortedTree(t) && Realless(t)
    ensures Coerce(Decode(t)) == Some(t)
    decreases t
  {
    hide Object, Hex, Unwrapped, FromHex;
    if t.Arr? {
      forall i | 0 <= i < |t.xs| ensures Coerce(Decode(t.xs[i])) == Some(t.xs[i]) {
        DecodeCoerces(t.xs[i]);
      }
      var v := Decode(t);
      assert CoerceAll(v.xs).value == t.xs;
    } else if t.Obj? {
      var v := Decode(t);
      if v.PBytes? {
        UnwrappedIs(t.fields[0].value.s);
        assert t.fields == [t.fields[0]];
      } else {
        forall i | 0 <= i < |t.fields| ensures CoerceItem(v.items[i]) == Some(t.fields[i]) {
          assert t.fields[i] < t;
          DecodeCoerces(t.fields[i].value);
        }
        assert CoerceItems(v.items).value == t.fields;
        SortedObject(t.fields);
      }
    }
  }

  lemma UnwrappedIs(h: string)
    ensures Unwrapped(h).Some? ==> Hex(Unwrapped(h).value) == h
  {
  }

  lemma WrapperUnwraps(bs: Bytes)
    ensures Unwrapped(Hex(bs)) == Some(bs)
  {
    FromHexOfHex(bs);
  }

  /** An unambiguous value decodes from its canonical form, up to the order of its dicts. */
  lemma {:induction false} DecodeSame(v: Py)
    requires Unambiguous(v) && Coerce(v).Some?
    ensures Same(Decode(Coerce(v).value), v)
    decreases v
  {
    hide Object, Hex, Unwrapped, LooksLikeBytes;
    if v.PList? {
      forall i | 0 <= i < |v.xs| ensures Same(Decode(Coerce(v.xs[i]).value), v.xs[i]) {
        DecodeSame(v.xs[i]);
      }
      assert SameAll(Decode(Coerce(v).value).xs, v.xs);
    } else if v.PBytes? {
      WrapperUnwraps(v.bs);
    } else if v.PDict? {
      var fs := CoerceItems(v.items).value;
      forall i | 0 <= i < |fs| ensures v.items[i].key == KStr(fs[i].key) && Same(Decode(fs[i].value), v.items[i].value) {
        assert CoerceItem(v.items[i]) == Some(fs[i]) && v.items[i] < v;
        DecodeSame(v.items[i].value);
      }
      NotWrapped(v.items, fs);
      DecodeSameItems(v.items, fs);
    }
  }

  /** The canonical form of an unambiguous dict is not that of bytes. */
  lemma {:induction false} NotWrapped(items: seq<Item>, fs: seq<Field>)
    requires Unambiguous(PDict(items)) && CoerceItems(items) == Some(fs)
    ensures Decode(Obj(Object(fs))).PDict?
  {
    hide Object, Hex, Unambiguous, FromHex;
    var d := Object(fs);
    if |d| == 1 && d[0].key == BYTES_KEY && d[0].value.Str? && Unwrapped(d[0].value.s).Some? {
      var bs := Unwrapped(d[0].value.s).value;
      assert d == [Field(BYTES_KEY, Str(Hex(bs)))];
      BytesApart(bs, items);
    }
  }

  lemma {:induction false} DecodeSameItems(items: seq<Item>, fs: seq<Field>)
    requires StringKeys(items) && |items| == |fs| && Decode(Obj(Object(fs))).PDict?
    requires forall i :: 0 <= i < |fs| ==> items[i].key == KStr(fs[i].key) && Same(Decode(fs[i].value), items[i].value)
    ensures SameItems(Decode(Obj(Object(fs))).items, items)
  {
    hide Object, Unwrapped, Same;
    var d, decoded := Object(fs), Decode(Obj(Object(fs))).items;
    forall p, q | 0 <= p < q < |fs| ensures fs[p].key != fs[q].key {
      assert items[p].key != items[q].key;
    }
    FieldsOfObject(fs);
    ObjectHolds(fs);
    forall i | 0 <= i < |decoded| ensures HasPartner(decoded[i], items) {
      assert d[i] in fs;
      var k :| 0 <= k < |fs| && fs[k] == d[i];
      assert SameItem(decoded[i], items[k]);
    }
    forall k | 0 <= k < |items| ensures IsPartner(decoded, items[k]) {
      LastOfDistinct(fs, k);
      assert Last(d, fs[k].key) == Some(fs[k].value);
      LastIs(d, fs[k].key);
      var i :| 0 <= i < |d| && d[i] == fs[k];
      assert SameItem(decoded[i], items[k]);
    }
  }

  /** Canonical text is read back: to a value like the one it was written from, the same if that is unambiguous. */
  lemma DumpsDecodes(v: Py)
    requires Dumps(v).Some?
    ensures ParseText(Dumps(v).value).Some?
    ensures Alike(Decode(ParseText(Dumps(v).value).value), v)
    ensures Unambiguous(v) ==> Same(Decode(ParseText(Dumps(v).value).value), v)
  {
    hide Coerce, Decode, Alike, Same, Unambiguous, Render;
    var t := Coerce(v).value;
    CoerceLexical(v);
    TextRoundTrip(Compact, t);
    CoerceSorted(v);
    CoerceRealless(v);
    DecodeCoerces(t);
    CoerceDecides(Decode(t), v);
    if Unambiguous(v) {
      DecodeSame(v);
    }
  }

  // ---------------------------------------------------------------- the order of keys

  /** The first differing code point decides, and a proper prefix comes first. */
  ghost predicate Precedes(a: string, b: string) {
    exists k: nat :: PrecedesAt(a, b, k)
  }

  lemma SamePrefix(a: string, b: string, k: nat)
    requires 0 < k <= |a| && k <= |b| && a[..k] == b[..k]
    ensures a[0] == b[0]
  {
    assert a[..k][0] == b[..k][0];
  }

  /** a comes first, decided at place k. */
  predicate PrecedesAt(a: string, b: string, k: nat) {
    k <= |a| && k < |b| && a[..k] == b[..k] && (k == |a| || a[k] < b[k])
  }

  lemma PrecedesLater(a: string, b: string, k: nat)
    requires |a| > 0 && |b| > 0 && a[0] == b[0]
    ensures PrecedesAt(a[1..], b[1..], k) <==> PrecedesAt(a, b, k + 1)
  {
    if k < |b| && k + 1 <= |a| {
      assert a[..k + 1] == [a[0]] + a[1..][..k] && a[1..][..k] == a[..k + 1][1..];
    }
    if k + 1 <= |b| {
      assert b[..k + 1] == [b[0]] + b[1..][..k] && b[1..][..k] == b[..k + 1][1..];
    }
  }

  lemma {:induction false} LessMeans(a: string, b: string)
    ensures Less(a, b) <==> Precedes(a, b)
  {
    hide PrecedesAt;
    if Less(a, b) {
      var k := LessDecides(a, b);
    }
    if k: nat :| PrecedesAt(a, b, k) {
      PrecedesLess(a, b, k);
    }
  }

  lemma {:induction false} LessDecides(a: string, b: string) returns (k: nat)
    requires Less(a, b)
    ensures PrecedesAt(a, b, k)
  {
    if |a| == 0 || a[0] < b[0] {
      k := 0;
    } else {
      k := LessDecides(a[1..], b[1..]);
      PrecedesLater(a, b, k);
      k := k + 1;
    }
  }

  lemma {:induction false} PrecedesLess(a: string, b: string, k: nat)
    requires PrecedesAt(a, b, k)
    ensures Less(a, b)
  {
    if k > 0 {
      SamePrefix(a, b, k);
      PrecedesLater(a, b, k - 1);
      PrecedesLess(a[1..], b[1..], k - 1);
    }
  }

  /** The keys of a canonical dict stand in code point order. */
  lemma KeysInOrder(items: seq<Item>, i: nat, j: nat)
    requires Coerce(PDict(items)).Some? && i < j < |Coerce(PDict(items)).value.fields|
    ensures Precedes(Coerce(PDict(items)).value.fields[i].key, Coerce(PDict(items)).value.fields[j].key)
  {
    hide Object, Precedes;
    var fs := Coerce(PDict(items)).value.fields;
    ObjectHolds(CoerceItems(items).value);
    LessMeans(fs[i].key, fs[j].key);
  }

  // ---------------------------------------------------------------- records

  predicate SameKeys(a: seq<Item>, b: seq<Item>) {
    |a| == |b| && forall i :: 0 <= i < |a| ==> a[i].key == b[i].key
  }

  /** Records of one schema have the same text exactly when they agree field by field. */
  lemma RecordsDecide(a: seq<Item>, b: seq<Item>)
    requires StringKeys(a) && StringKeys(b) && SameKeys(a, b)
    requires Coerce(PDict(a)).Some? && Coerce(PDict(b)).Some?
    ensures Coerce(PDict(a)) == Coerce(PDict(b)) <==> forall i :: 0 <= i < |a| ==> Coerce(a[i].value) == Coerce(b[i].value)
    ensures Dumps(PDict(a)) == Dumps(PDict(b)) <==> Coerce(PDict(a)) == Coerce(PDict(b))
  {
    hide Object, Print;
    var fs, gs := CoerceItems(a).value, CoerceItems(b).value;
    CoerceLexical(PDict(a));
    CoerceLexical(PDict(b));
    PrintInjective(Coerce(PDict(a)).value, Coerce(PDict(b)).value);
    if Coerce(PDict(a)) == Coerce(PDict(b)) {
      ObjectHolds(fs);
      ObjectHolds(gs);
      forall i | 0 <= i < |a| ensures Coerce(a[i].value) == Coerce(b[i].value) {
        var j := Counterpart(a, b, fs, gs, i);
        assert a[i].key == b[i].key && i == j;
      }
    }
    if forall i :: 0 <= i < |a| ==> Coerce(a[i].value) == Coerce(b[i].value) {
      forall i | 0 <= i < |fs| ensures fs[i] == gs[i] {
        assert CoerceItem(a[i]) == CoerceItem(b[i]);
      }
      assert fs == gs;
    }
  }

  /** The object that a text is, if it is one. */
  function ObjectOf(text: string): seq<Field> {
    var t := ParseText(text);
    if t.Some? && t.value.Obj? then t.value.fields else []
  }

  /** The text of a record is an object with exactly its keys, and with the canonical form of each value. */
  lemma {:induction false} RecordHolds(a: seq<Item>)
    requires StringKeys(a) && Coerce(PDict(a)).Some?
    ensures ParseText(Dumps(PDict(a)).value) == Some(Obj(ObjectOf(Dumps(PDict(a)).value)))
    ensures Coerce(PDict(a)) == Some(Obj(ObjectOf(Dumps(PDict(a)).value)))
    ensures forall k :: Last(ObjectOf(Dumps(PDict(a)).value), k).Some? <==> exists i :: 0 <= i < |a| && a[i].key == KStr(k)
    ensures forall i :: 0 <= i < |a| ==> Last(ObjectOf(Dumps(PDict(a)).value), a[i].key.s) == Coerce(a[i].value)
  {
    hide Object, Last, CoerceItem, Coerce, Render;
    DictCoerces(a);
    var fs := CoerceItems(a).value;
    CoerceLexical(PDict(a));
    TextRoundTrip(Compact, Obj(Object(fs)));
    assert Dumps(PDict(a)).value == Render(Compact, Obj(Object(fs)));
    ObjectHolds(fs);
    KeysAreLabels(a, fs);
    forall k ensures Last(Object(fs), k).Some? <==> exists i :: 0 <= i < |a| && a[i].key == KStr(k) {
      assert Last(Object(fs), k) == Last(fs, k);
      LastIs(fs, k);
    }
    forall i | 0 <= i < |a| ensures Last(Object(fs), a[i].key.s) == Coerce(a[i].value) {
      assert Last(Object(fs), a[i].key.s) == Last(fs, a[i].key.s);
      RecordField(a, fs, i);
    }
  }

  lemma {:induction false} DictCoerces(a: seq<Item>)
    requires Coerce(PDict(a)).Some?
    ensures CoerceItems(a).Some? && Coerce(PDict(a)) == Some(Obj(Object(CoerceItems(a).value)))
  {
    hide Object;
  }

  lemma {:induction false} RecordField(a: seq<Item>, fs: seq<Field>, i: nat)
    requires StringKeys(a) && CoerceItems(a) == Some(fs) && i < |a|
    ensures Last(fs, a[i].key.s) == Coerce(a[i].value)
  {
    hide Coerce, Last;
    KeysAreLabels(a, fs);
    assert CoerceItem(a[i]) == Some(fs[i]);
    forall p, q | 0 <= p < q < |fs| ensures fs[p].key != fs[q].key {
      assert a[p].key != a[q].key;
    }
    LastOfDistinct(fs, i);
  }
}
