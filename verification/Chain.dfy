/**
 The attestation hash chain: manifests, their verification and the dual-path attestation. The
 digest is any function to 32 bytes; a statement about hashes says which collision would break it.
 */
module Chain {
  import opened Wrappers
  import opened Json
  import opened Canonical
  import opened Composition

  /** The digest of canonical text and of raw bytes. */
  datatype Digest = Digest(ofText: string -> Bytes, ofBytes: Bytes -> Bytes)

  /** Different texts, or byte strings, with one digest. */
  predicate Collide(H: Digest, s: string, t: string) {
    s != t && H.ofText(s) == H.ofText(t)
  }

  predicate BytesCollide(H: Digest, a: Bytes, b: Bytes) {
    a != b && H.ofBytes(a) == H.ofBytes(b)
  }

  /** Digests of texts are 32 bytes. */
  ghost predicate Wide(H: Digest) {
    forall s {:trigger H.ofText(s)} :: |H.ofText(s)| == 32
  }

  function PlaceOf(s: string, texts: seq<string>): (k: nat)
    ensures k <= |texts| && (s in texts ==> k < |texts| && texts[k] == s)
  {
    if |texts| == 0 || texts[0] == s then 0 else 1 + PlaceOf(s, texts[1..])
  }

  /** Digests of 32 bytes can tell any texts apart, if they are fewer than 256. */
  lemma SeparatingDigest(texts: seq<string>) returns (H: Digest)
    requires |texts| < 256
    ensures Wide(H)
    ensures forall i, j :: 0 <= i < |texts| && 0 <= j < |texts| ==> !Collide(H, texts[i], texts[j])
  {
    var zeros: Bytes := seq(31, _ => 0);
    H := Digest(s => [PlaceOf(s, texts) as Byte] + zeros, _ => []);
    forall i, j | 0 <= i < |texts| && 0 <= j < |texts| ensures !Collide(H, texts[i], texts[j]) {
      if H.ofText(texts[i]) == H.ofText(texts[j]) {
        assert H.ofText(texts[i])[0] == H.ofText(texts[j])[0];
      }
    }
  }

  /** A toolchain entry. */
  datatype Tool = Tool(name: string, version: string)

  datatype Manifest = Manifest(
    schema: nat,
    source: Bytes,
    toolchain: seq<Tool>,
    target: Bytes,
    artifact: Bytes,
    timestamp: nat,
    signer: Option<string>,
    signature: Option<Bytes>)

  /** The toolchain is a dict: no name twice. */
  predicate Valid(m: Manifest) {
    forall i, j :: 0 <= i < j < |m.toolchain| ==> m.toolchain[i].name != m.toolchain[j].name
  }

  function ToolItems(ts: seq<Tool>): (items: seq<Item>)
    ensures |items| == |ts| && forall i :: 0 <= i < |ts| ==> items[i] == Item(KStr(ts[i].name), PStr(ts[i].version))
  {
    seq(|ts|, i requires 0 <= i < |ts| => Item(KStr(ts[i].name), PStr(ts[i].version)))
  }

  /** The fields that take part in the chain. */
  function ChainItems(m: Manifest): seq<Item> {
    [ Item(KStr("schema_version"), PInt(m.schema)),
      Item(KStr("source_attestation_handle"), PBytes(m.source)),
      Item(KStr("toolchain_versions"), PDict(ToolItems(m.toolchain))),
      Item(KStr("target_profile_hash"), PBytes(m.target)),
      Item(KStr("artifact_content_hash"), PBytes(m.artifact)) ]
  }

  lemma AllCoerce(items: seq<Item>)
    requires forall i :: 0 <= i < |items| ==> Coerce(items[i].value).Some?
    ensures Coerce(PDict(items)).Some?
  {
    forall i | 0 <= i < |items| ensures CoerceItem(items[i]).Some? {
    }
  }

  lemma ChainCoerces(m: Manifest)
    ensures Coerce(PDict(ChainItems(m))).Some? && Dumps(PDict(ChainItems(m))).Some?
  {
    AllCoerce(ToolItems(m.toolchain));
    AllCoerce(ChainItems(m));
  }

  /** The canonical text of the chain fields, and its digest. */
  function ChainText(m: Manifest): string {
    ChainCoerces(m);
    Dumps(PDict(ChainItems(m))).value
  }

  function ContentHash(H: Digest, m: Manifest): Bytes {
    H.ofText(ChainText(m))
  }

  /** Equal as dicts. */
  predicate SameTools(a: seq<Tool>, b: seq<Tool>) {
    (forall i :: 0 <= i < |a| ==> a[i] in b) && (forall i :: 0 <= i < |b| ==> b[i] in a)
  }

  /** Equal in the five fields of the chain. */
  predicate SameChain(m: Manifest, n: Manifest) {
    m.schema == n.schema && m.source == n.source && SameTools(m.toolchain, n.toolchain) && m.target == n.target && m.artifact == n.artifact
  }

  lemma {:induction false} ToolsDecide(a: seq<Tool>, b: seq<Tool>)
    requires StringKeys(ToolItems(a)) && StringKeys(ToolItems(b))
    ensures Coerce(PDict(ToolItems(a))).Some? && Coerce(PDict(ToolItems(b))).Some?
    ensures Coerce(PDict(ToolItems(a))) == Coerce(PDict(ToolItems(b))) <==> SameTools(a, b)
  {
    hide Object, Print;
    var x, y := ToolItems(a), ToolItems(b);
    AllCoerce(x);
    AllCoerce(y);
    var fs, gs := CoerceItems(x).value, CoerceItems(y).value;
    ToolFields(a, fs);
    ToolFields(b, gs);
    if Coerce(PDict(x)) == Coerce(PDict(y)) {
      ObjectHolds(fs);
      ObjectHolds(gs);
      forall i | 0 <= i < |a| ensures a[i] in b {
        var j := Counterpart(x, y, fs, gs, i);
        assert b[j] == a[i];
      }
      forall i | 0 <= i < |b| ensures b[i] in a {
        var j := Counterpart(y, x, gs, fs, i);
        assert a[j] == b[i];
      }
    }
    if SameTools(a, b) {
      ToolsWithin(a, b, fs, gs);
      ToolsWithin(b, a, gs, fs);
      SameFieldsObject(fs, gs);
    }
  }

  lemma {:induction false} ToolFields(a: seq<Tool>, fs: seq<Field>)
    requires StringKeys(ToolItems(a)) && CoerceItems(ToolItems(a)) == Some(fs)
    ensures |fs| == |a| && DistinctKeys(fs) && forall i :: 0 <= i < |a| ==> fs[i] == Field(a[i].name, Str(a[i].version))
  {
    hide Object, Print;
    var x := ToolItems(a);
    forall i | 0 <= i < |a| ensures fs[i] == Field(a[i].name, Str(a[i].version)) {
      assert Coerce(x[i].value) == Some(Str(a[i].version));
      assert CoerceItem(x[i]) == Some(fs[i]);
    }
    forall p, q | 0 <= p < q < |fs| ensures fs[p].key != fs[q].key {
      assert x[p].key != x[q].key;
    }
  }

  lemma {:induction false} ToolsWithin(a: seq<Tool>, b: seq<Tool>, fs: seq<Field>, gs: seq<Field>)
    requires SameTools(a, b) && |fs| == |a| && |gs| == |b|
    requires forall i :: 0 <= i < |a| ==> fs[i] == Field(a[i].name, Str(a[i].version))
    requires forall i :: 0 <= i < |b| ==> gs[i] == Field(b[i].name, Str(b[i].version))
    ensures Within(fs, gs)
  {
    forall i | 0 <= i < |fs| ensures fs[i] in gs {
      var j :| 0 <= j < |b| && b[j] == a[i];
      assert gs[j] == fs[i];
    }
  }

  lemma BytesDecide(a: Bytes, b: Bytes)
    ensures Coerce(PBytes(a)) == Coerce(PBytes(b)) <==> a == b
  {
    HexInjective(a, b);
    if Coerce(PBytes(a)) == Coerce(PBytes(b)) {
      assert Coerce(PBytes(a)).value.fields[0].value == Coerce(PBytes(b)).value.fields[0].value;
    }
  }

  lemma ValidTools(m: Manifest)
    requires Valid(m)
    ensures StringKeys(ToolItems(m.toolchain))
  {
  }

  lemma ChainKeys(m: Manifest, n: Manifest)
    ensures StringKeys(ChainItems(m)) && SameKeys(ChainItems(m), ChainItems(n))
  {
    assert "schema_version"[1] != "source_attestation_handle"[1];
    assert "schema_version"[0] != "toolchain_versions"[0];
    assert "toolchain_versions"[1] != "target_profile_hash"[1];
  }

  /** Two manifests have the same canonical text exactly when they agree on the five chain fields. */
  lemma ChainTextDecides(m: Manifest, n: Manifest)
    requires Valid(m) && Valid(n)
    ensures ChainText(m) == ChainText(n) <==> SameChain(m, n)
  {
    hide Coerce, Dumps, SameTools;
    var a, b := ChainItems(m), ChainItems(n);
    ChainCoerces(m);
    ChainCoerces(n);
    ChainKeys(m, n);
    ChainKeys(n, m);
    RecordsDecide(a, b);
    ValidTools(m);
    ValidTools(n);
    ToolsDecide(m.toolchain, n.toolchain);
    BytesDecide(m.source, n.source);
    BytesDecide(m.target, n.target);
    BytesDecide(m.artifact, n.artifact);
    IntsDecide(m.schema, n.schema);
    if SameChain(m, n) {
      forall i | 0 <= i < |a| ensures Coerce(a[i].value) == Coerce(b[i].value) {
      }
    } else {
      assert !(Coerce(a[0].value) == Coerce(b[0].value) && Coerce(a[1].value) == Coerce(b[1].value) && Coerce(a[2].value) == Coerce(b[2].value)
               && Coerce(a[3].value) == Coerce(b[3].value) && Coerce(a[4].value) == Coerce(b[4].value));
    }
  }

  /** They have the same content hash exactly when they agree, or their texts collide. */
  lemma ContentHashDecides(H: Digest, m: Manifest, n: Manifest)
    requires Valid(m) && Valid(n)
    ensures ContentHash(H, m) == ContentHash(H, n) <==> SameChain(m, n) || Collide(H, ChainText(m), ChainText(n))
    ensures SameChain(m, n) ==> !Collide(H, ChainText(m), ChainText(n))
  {
    hide ChainText, SameChain;
    ChainTextDecides(m, n);
  }

  lemma IntsDecide(a: int, b: int)
    ensures Coerce(PInt(a)) == Coerce(PInt(b)) <==> a == b
  {
  }

  /** The wrapper that bytes are coerced to. */
  function Wrapped(bs: Bytes): Json {
    Obj([Field("$b16", Str(Hex(bs)))])
  }

  /** What a dict of strings is coerced to. */
  ghost predicate HoldsTools(t: Option<Json>, tools: seq<Tool>) {
    && t.Some? && t.value.Obj?
    && (forall i :: 0 <= i < |tools| ==> Last(t.value.fields, tools[i].name) == Some(Str(tools[i].version)))
    && (forall k :: Last(t.value.fields, k).Some? ==> exists i :: 0 <= i < |tools| && tools[i].name == k)
  }

  lemma ToolsHold(tools: seq<Tool>)
    requires StringKeys(ToolItems(tools))
    ensures HoldsTools(Coerce(PDict(ToolItems(tools))), tools)
  {
    hide Coerce;
    var items := ToolItems(tools);
    forall i | 0 <= i < |items| ensures Coerce(items[i].value) == Some(Str(tools[i].version)) {
      StringsCoerce(tools[i].version);
    }
    AllCoerce(items);
    RecordHolds(items);
    var d := ObjectOf(Dumps(PDict(items)).value);
    forall i | 0 <= i < |tools| ensures Last(d, tools[i].name) == Some(Str(tools[i].version)) {
      assert Last(d, items[i].key.s) == Coerce(items[i].value);
    }
  }

  lemma StringsCoerce(s: string)
    ensures Coerce(PStr(s)) == Some(Str(s))
  {
  }

  lemma LeavesCoerce(n: int, b: bool, bs: Bytes)
    ensures Coerce(PInt(n)) == Some(Int(n)) && Coerce(PBool(b)) == Some(Bool(b)) && Coerce(PBytes(bs)) == Some(Wrapped(bs))
  {
  }

  /** The text a content hash is taken of: the five chain fields under their names, and nothing else. */
  lemma ChainTextHolds(m: Manifest)
    requires Valid(m)
    ensures var fs := ObjectOf(ChainText(m));
      && Last(fs, "schema_version") == Some(Int(m.schema))
      && Last(fs, "source_attestation_handle") == Some(Wrapped(m.source))
      && HoldsTools(Last(fs, "toolchain_versions"), m.toolchain)
      && Last(fs, "target_profile_hash") == Some(Wrapped(m.target))
      && Last(fs, "artifact_content_hash") == Some(Wrapped(m.artifact))
      && forall k :: Last(fs, k).Some? ==> k in ["schema_version", "source_attestation_handle", "toolchain_versions", "target_profile_hash", "artifact_content_hash"]
  {
    hide Coerce, Dumps, Last, HoldsTools;
    var items := ChainItems(m);
    ChainCoerces(m);
    ChainKeys(m, m);
    RecordHolds(items);
    ValidTools(m);
    ToolsHold(m.toolchain);
    LeavesCoerce(m.schema, true, m.source);
    LeavesCoerce(0, true, m.target);
    LeavesCoerce(0, true, m.artifact);
    var fs := ObjectOf(ChainText(m));
    assert Last(fs, items[0].key.s) == Coerce(items[0].value) && Last(fs, items[1].key.s) == Coerce(items[1].value);
    assert Last(fs, items[2].key.s) == Coerce(items[2].value) && Last(fs, items[3].key.s) == Coerce(items[3].value);
    assert Last(fs, items[4].key.s) == Coerce(items[4].value);
  }

  // ---------------------------------------------------------------- verification

  const HASH_CHAIN_SIGNER := "hash-chain-v0"

  /** A signer's verdict on a content hash and a signature. */
  type Signer = (Bytes, Option<Bytes>) -> bool

  function HashChainVerify(hash: Bytes, signature: Option<Bytes>): bool {
    signature.None? && |hash| == 32
  }

  datatype Status = Absent | Verified | Invalid

  datatype Report = Report(ok: bool, schema: nat, recomputed: Option<Bytes>, expected: Option<Bytes>, signer: Option<string>, status: Status)

  function EarlyStatus(m: Manifest): Status {
    if m.signature.None? then Absent else Invalid
  }

  /** Only the hash-chain signer is built in; an unsigned manifest falls back to it. */
  function ResolveSigner(identity: Option<string>): Option<Signer> {
    if identity.None? || identity.value == HASH_CHAIN_SIGNER then Some(HashChainVerify) else None
  }

  /** The verdict on a manifest against an expected hash, if any, with an overriding signer, if any. */
  function Verify(H: Digest, m: Manifest, expected: Option<Bytes>, signer: Option<Signer>): Report {
    var shown := if expected.Some? && expected.value == [] then None else expected;
    if m.schema != 0 then Report(false, m.schema, None, shown, m.signer, EarlyStatus(m))
    else
      var hash := ContentHash(H, m);
      if expected.Some? && hash != expected.value then Report(false, 0, Some(hash), shown, m.signer, EarlyStatus(m))
      else
        var resolved := if signer.Some? then signer else ResolveSigner(m.signer);
        if resolved.None? then Report(false, 0, Some(hash), shown, m.signer, EarlyStatus(m))
        else
          var ok := resolved.value(hash, m.signature);
          Report(ok, 0, Some(hash), shown, m.signer, if m.signature.None? then Absent else if ok then Verified else Invalid)
  }

  /** The built-in signer takes a 32-byte hash without a signature; others decide for themselves. */
  predicate SignerAccepts(H: Digest, m: Manifest, signer: Option<Signer>) {
    match signer
    case Some(verify) => verify(ContentHash(H, m), m.signature)
    case None => (m.signer.None? || m.signer.value == "hash-chain-v0") && m.signature.None? && |ContentHash(H, m)| == 32
  }

  /**
   For any expected hash, or none, and any signer, or none: the verdict is ok exactly when the
   version is 0, the expected hash is the content hash, and the signer is known and accepts.
   The report shows the content hash of version-0 manifests, and an expected hash unless empty.
   */
  lemma VerifyMeans(H: Digest, m: Manifest, expected: Option<Bytes>, signer: Option<Signer>)
    ensures var r := Verify(H, m, expected, signer);
      && (r.ok <==> m.schema == 0 && (expected.Some? ==> expected.value == ContentHash(H, m)) && SignerAccepts(H, m, signer))
      && r.schema == m.schema && r.signer == m.signer
      && (r.recomputed.Some? <==> m.schema == 0) && (m.schema == 0 ==> r.recomputed.value == ContentHash(H, m))
      && (r.expected.Some? <==> expected.Some? && |expected.value| > 0) && (r.expected.Some? ==> r.expected == expected)
      && (r.status == Absent <==> m.signature.None?)
      && (r.status == Verified <==> m.signature.Some? && r.ok)
  {
    hide ContentHash;
  }

  /**
   Against a registered manifest's hash the verdict is ok exactly for unsigned version-0
   manifests that agree with it on the chain, whatever their timestamps, or collide with it.
   */
  lemma VerifyAgainstRegistered(H: Digest, m: Manifest, registered: Manifest)
    requires Wide(H) && Valid(m) && Valid(registered)
    ensures Verify(H, m, Some(ContentHash(H, registered)), None).ok <==>
            && m.schema == 0
            && (SameChain(m, registered) || Collide(H, ChainText(m), ChainText(registered)))
            && m.signature.None?
            && (m.signer.None? || m.signer.value == HASH_CHAIN_SIGNER)
  {
    hide ChainText, SameChain;
    ContentHashDecides(H, m, registered);
    assert |H.ofText(ChainText(m))| == 32;
  }

  /**
   No signer can make the verdict ok for a manifest that differs from the registered one on the
   chain, short of a collision of their texts.
   */
  lemma TamperingDetected(H: Digest, m: Manifest, registered: Manifest, signer: Option<Signer>)
    requires Valid(m) && Valid(registered) && !SameChain(m, registered)
    ensures Verify(H, m, Some(ContentHash(H, registered)), signer).ok ==> Collide(H, ChainText(m), ChainText(registered))
    ensures Verify(H, m, Some(ContentHash(H, registered)), signer).status == Verified ==> Collide(H, ChainText(m), ChainText(registered))
  {
    hide ContentHash, ChainText, SameChain;
    ContentHashDecides(H, m, registered);
  }

  /** Some digest of 32 bytes has no such collision, so that tampering is detected. */
  lemma DetectingDigest(m: Manifest, registered: Manifest) returns (H: Digest)
    requires Valid(m) && Valid(registered)
    ensures Wide(H) && (ContentHash(H, m) == ContentHash(H, registered) <==> SameChain(m, registered))
  {
    hide ChainText, SameChain, Collide, ContentHash;
    var texts := [ChainText(m), ChainText(registered)];
    H := SeparatingDigest(texts);
    assert !Collide(H, texts[0], texts[1]);
    ContentHashDecides(H, m, registered);
  }

  /** The timestamp is outside the chain: the verdict never depends on it. */
  lemma TimestampIrrelevant(H: Digest, m: Manifest, t: nat, expected: Option<Bytes>, signer: Option<Signer>)
    ensures ContentHash(H, m.(timestamp := t)) == ContentHash(H, m)
    ensures Verify(H, m.(timestamp := t), expected, signer) == Verify(H, m, expected, signer)
  {
    assert ChainItems(m.(timestamp := t)) == ChainItems(m);
  }

  // ---------------------------------------------------------------- the dual-path attestation

  datatype Attestation = Attestation(schema: nat, controller: Bytes, policy: Bytes, plan: Bytes)

  /** Which numbers are floats, and how a float is written: its shortest decimal. */
  datatype Repr = Repr(text: real -> string, float: real -> bool)

  /** The shortest decimal of a float tells it from the others. */
  ghost predicate InjectiveRepr(repr: Repr) {
    forall x, y {:trigger repr.text(x), repr.text(y)} ::
      repr.float(x) && repr.float(y) && repr.text(x) == repr.text(y) ==> x == y
  }

  predicate AllFloats(repr: Repr, v: Vec) {
    forall i :: 0 <= i < |v| ==> repr.float(v[i])
  }

  predicate EnvelopeFloats(repr: Repr, e: Envelope) {
    AllFloats(repr, e.stateLower) && AllFloats(repr, e.stateUpper) && AllFloats(repr, e.inputLower) && AllFloats(repr, e.inputUpper)
  }

  /** Such texts exist, of the whole numbers for instance. */
  lemma WholeRepr() returns (repr: Repr)
    ensures InjectiveRepr(repr) && forall x: real :: repr.float(x) <==> x == x.Floor as real
  {
    repr := Repr((x: real) => PrintInt(x.Floor), (x: real) => x == x.Floor as real);
    forall x, y | repr.float(x) && repr.float(y) && repr.text(x) == repr.text(y) ensures x == y {
      PrintInjective(Int(x.Floor), Int(y.Floor));
    }
  }

  function Floats(repr: Repr, v: Vec): (p: seq<Py>)
    ensures |p| == |v| && forall i :: 0 <= i < |v| ==> p[i] == PFloat(repr.text(v[i]))
  {
    seq(|v|, i requires 0 <= i < |v| => PFloat(repr.text(v[i])))
  }

  function EnvelopeItems(repr: Repr, e: Envelope): seq<Item> {
    [ Item(KStr("name"), PStr(e.name)),
      Item(KStr("state_lower"), PList(Floats(repr, e.stateLower))),
      Item(KStr("state_upper"), PList(Floats(repr, e.stateUpper))),
      Item(KStr("input_lower"), PList(Floats(repr, e.inputLower))),
      Item(KStr("input_upper"), PList(Floats(repr, e.inputUpper))) ]
  }

  function ModeName(m: Mode): string {
    if m.Residual? then "residual" else "policy_primary"
  }

  function PlanItems(repr: Repr, p: Plan): seq<Item> {
    [ Item(KStr("name"), PStr(p.name)),
      Item(KStr("mpc_period_ns"), PInt(p.mpcPeriod)),
      Item(KStr("policy_period_ns"), PInt(p.policyPeriod)),
      Item(KStr("mode"), PStr(ModeName(p.mode))),
      Item(KStr("safety_envelope"), PDict(EnvelopeItems(repr, p.envelope))),
      Item(KStr("fallback_on_timeout"), PBool(p.onTimeout)),
      Item(KStr("fallback_on_envelope_breach"), PBool(p.onBreach)) ]
  }

  /** The attestation's own fields, bytes as hex strings. */
  function AttestationItems(a: Attestation): seq<Item> {
    [ Item(KStr("schema_version"), PInt(a.schema)),
      Item(KStr("controller_manifest_hash"), PStr(Hex(a.controller))),
      Item(KStr("policy_artifact_hash"), PStr(Hex(a.policy))),
      Item(KStr("composition_plan_hash"), PStr(Hex(a.plan))) ]
  }

  lemma FloatsCoerce(repr: Repr, v: Vec)
    ensures Coerce(PList(Floats(repr, v))).Some?
  {
    var p := Floats(repr, v);
    forall i | 0 <= i < |p| ensures Coerce(p[i]).Some? {
    }
  }

  lemma ScalarsCoerce(s: string, n: int, b: bool)
    ensures Coerce(PStr(s)).Some? && Coerce(PInt(n)).Some? && Coerce(PBool(b)).Some?
  {
  }

  lemma PlanCoerces(repr: Repr, p: Plan)
    ensures Coerce(PDict(EnvelopeItems(repr, p.envelope))).Some?
    ensures Coerce(PDict(PlanItems(repr, p))).Some? && Dumps(PDict(PlanItems(repr, p))).Some?
  {
    hide Coerce;
    var e := p.envelope;
    ScalarsCoerce(e.name, 0, true);
    ScalarsCoerce(p.name, p.mpcPeriod, p.onTimeout);
    ScalarsCoerce(ModeName(p.mode), p.policyPeriod, p.onBreach);
    FloatsCoerce(repr, e.stateLower);
    FloatsCoerce(repr, e.stateUpper);
    FloatsCoerce(repr, e.inputLower);
    FloatsCoerce(repr, e.inputUpper);
    AllCoerce(EnvelopeItems(repr, e));
    AllCoerce(PlanItems(repr, p));
  }

  function PlanText(repr: Repr, p: Plan): string {
    PlanCoerces(repr, p);
    Dumps(PDict(PlanItems(repr, p))).value
  }

  function PlanHash(H: Digest, repr: Repr, p: Plan): Bytes {
    H.ofText(PlanText(repr, p))
  }

  function Attest(H: Digest, repr: Repr, controller: Manifest, policy: Bytes, p: Plan): Attestation {
    Attestation(0, ContentHash(H, controller), H.ofBytes(policy), PlanHash(H, repr, p))
  }

  lemma AttestationCoerces(a: Attestation)
    ensures Coerce(PDict(AttestationItems(a))).Some? && Dumps(PDict(AttestationItems(a))).Some?
  {
    AllCoerce(AttestationItems(a));
  }

  function AttestationText(a: Attestation): string {
    AttestationCoerces(a);
    Dumps(PDict(AttestationItems(a))).value
  }

  function AttestationHash(H: Digest, a: Attestation): Bytes {
    H.ofText(AttestationText(a))
  }

  lemma {:induction false} FloatsDecide(repr: Repr, v: Vec, w: Vec)
    requires InjectiveRepr(repr) && AllFloats(repr, v) && AllFloats(repr, w)
    ensures Coerce(PList(Floats(repr, v))) == Coerce(PList(Floats(repr, w))) <==> v == w
  {
    var p, q := Floats(repr, v), Floats(repr, w);
    FloatsCoerce(repr, v);
    FloatsCoerce(repr, w);
    var x, y := CoerceAll(p).value, CoerceAll(q).value;
    if x == y {
      assert |v| == |w|;
      forall i | 0 <= i < |v| ensures v[i] == w[i] {
        assert Coerce(p[i]) == Some(x[i]) && Coerce(q[i]) == Some(y[i]);
        assert repr.text(v[i]) == repr.text(w[i]) && repr.float(v[i]) && repr.float(w[i]);
      }
    }
  }

  lemma StringsDecide(s: string, t: string)
    ensures Coerce(PStr(s)) == Coerce(PStr(t)) <==> s == t
  {
  }

  lemma EnvelopeKeys(repr: Repr, e: Envelope, f: Envelope)
    ensures StringKeys(EnvelopeItems(repr, e)) && SameKeys(EnvelopeItems(repr, e), EnvelopeItems(repr, f))
  {
    assert "state_lower"[6] != "state_upper"[6] && "input_lower"[6] != "input_upper"[6];
  }

  lemma EnvelopeDecides(repr: Repr, e: Envelope, f: Envelope)
    requires InjectiveRepr(repr) && EnvelopeFloats(repr, e) && EnvelopeFloats(repr, f)
    requires Coerce(PDict(EnvelopeItems(repr, e))).Some? && Coerce(PDict(EnvelopeItems(repr, f))).Some?
    ensures Coerce(PDict(EnvelopeItems(repr, e))) == Coerce(PDict(EnvelopeItems(repr, f))) <==> e == f
  {
    hide Coerce, Dumps;
    var a, b := EnvelopeItems(repr, e), EnvelopeItems(repr, f);
    EnvelopeKeys(repr, e, f);
    EnvelopeKeys(repr, f, e);
    RecordsDecide(a, b);
    StringsDecide(e.name, f.name);
    FloatsDecide(repr, e.stateLower, f.stateLower);
    FloatsDecide(repr, e.stateUpper, f.stateUpper);
    FloatsDecide(repr, e.inputLower, f.inputLower);
    FloatsDecide(repr, e.inputUpper, f.inputUpper);
    if e != f {
      assert !(Coerce(a[0].value) == Coerce(b[0].value) && Coerce(a[1].value) == Coerce(b[1].value) && Coerce(a[2].value) == Coerce(b[2].value)
               && Coerce(a[3].value) == Coerce(b[3].value) && Coerce(a[4].value) == Coerce(b[4].value));
    }
  }

  lemma PlanKeys(repr: Repr, p: Plan, q: Plan)
    ensures StringKeys(PlanItems(repr, p)) && SameKeys(PlanItems(repr, p), PlanItems(repr, q))
  {
    assert "mpc_period_ns"[1] != "mode"[1] && "fallback_on_timeout"[12] != "fallback_on_envelope_breach"[12];
  }

  /** The canonical text of a plan determines the whole plan. */
  lemma PlanTextDecides(repr: Repr, p: Plan, q: Plan)
    requires InjectiveRepr(repr) && EnvelopeFloats(repr, p.envelope) && EnvelopeFloats(repr, q.envelope)
    ensures PlanText(repr, p) == PlanText(repr, q) <==> p == q
  {
    hide Coerce, Dumps;
    var a, b := PlanItems(repr, p), PlanItems(repr, q);
    PlanCoerces(repr, p);
    PlanCoerces(repr, q);
    PlanKeys(repr, p, q);
    PlanKeys(repr, q, p);
    RecordsDecide(a, b);
    StringsDecide(p.name, q.name);
    IntsDecide(p.mpcPeriod, q.mpcPeriod);
    IntsDecide(p.policyPeriod, q.policyPeriod);
    StringsDecide(ModeName(p.mode), ModeName(q.mode));
    assert "residual"[0] != "policy_primary"[0];
    EnvelopeDecides(repr, p.envelope, q.envelope);
    BoolsDecide(p.onTimeout, q.onTimeout);
    BoolsDecide(p.onBreach, q.onBreach);
    if p != q {
      assert !(Coerce(a[0].value) == Coerce(b[0].value) && Coerce(a[1].value) == Coerce(b[1].value) && Coerce(a[2].value) == Coerce(b[2].value)
               && Coerce(a[3].value) == Coerce(b[3].value) && Coerce(a[4].value) == Coerce(b[4].value)
               && Coerce(a[5].value) == Coerce(b[5].value) && Coerce(a[6].value) == Coerce(b[6].value));
    }
  }

  lemma BoolsDecide(a: bool, b: bool)
    ensures Coerce(PBool(a)) == Coerce(PBool(b)) <==> a == b
  {
  }

  lemma AttestationKeys(a: Attestation, b: Attestation)
    ensures StringKeys(AttestationItems(a)) && SameKeys(AttestationItems(a), AttestationItems(b))
  {
    assert "controller_manifest_hash"[2] != "composition_plan_hash"[2];
  }

  lemma AttestationTextDecides(a: Attestation, b: Attestation)
    ensures AttestationText(a) == AttestationText(b) <==> a == b
  {
    hide Coerce, Dumps, Hex;
    var x, y := AttestationItems(a), AttestationItems(b);
    AttestationCoerces(a);
    AttestationCoerces(b);
    AttestationKeys(a, b);
    AttestationKeys(b, a);
    RecordsDecide(x, y);
    IntsDecide(a.schema, b.schema);
    StringsDecide(Hex(a.controller), Hex(b.controller));
    StringsDecide(Hex(a.policy), Hex(b.policy));
    StringsDecide(Hex(a.plan), Hex(b.plan));
    HexInjective(a.controller, b.controller);
    HexInjective(a.policy, b.policy);
    HexInjective(a.plan, b.plan);
    if a != b {
      assert !(Coerce(x[0].value) == Coerce(y[0].value) && Coerce(x[1].value) == Coerce(y[1].value)
               && Coerce(x[2].value) == Coerce(y[2].value) && Coerce(x[3].value) == Coerce(y[3].value));
    }
  }

  /**
   Two dual-path attestations have one hash exactly when controller chain, policy bytes and plan
   are equal or collide, each with its counterpart, or the two attestations collide.
   */
  lemma AttestationDecides(H: Digest, repr: Repr, m: Manifest, n: Manifest, policy: Bytes, policy': Bytes, p: Plan, q: Plan)
    requires Valid(m) && Valid(n)
    requires InjectiveRepr(repr) && EnvelopeFloats(repr, p.envelope) && EnvelopeFloats(repr, q.envelope)
    ensures var a, b := Attest(H, repr, m, policy, p), Attest(H, repr, n, policy', q);
      AttestationHash(H, a) == AttestationHash(H, b) <==>
      || Collide(H, AttestationText(a), AttestationText(b))
      || ( && (SameChain(m, n) || Collide(H, ChainText(m), ChainText(n)))
           && (policy == policy' || BytesCollide(H, policy, policy'))
           && (p == q || Collide(H, PlanText(repr, p), PlanText(repr, q))))
  {
    hide ContentHash, ChainText, PlanText, AttestationText, SameChain;
    AttestationTextDecides(Attest(H, repr, m, policy, p), Attest(H, repr, n, policy', q));
    ContentHashDecides(H, m, n);
    PlanTextDecides(repr, p, q);
  }

  // ---------------------------------------------------------------- what the hashed texts hold

  /** A list of floats, each as the string of its shortest decimal. */
  predicate HoldsFloats(repr: Repr, t: Option<Json>, v: Vec) {
    t.Some? && t.value.Arr? && |t.value.xs| == |v| && forall i :: 0 <= i < |v| ==> t.value.xs[i] == Str(repr.text(v[i]))
  }

  lemma {:induction false} FloatsHold(repr: Repr, v: Vec)
    ensures HoldsFloats(repr, Coerce(PList(Floats(repr, v))), v)
  {
    FloatsCoerce(repr, v);
    var p := Floats(repr, v);
    var xs := CoerceAll(p).value;
    forall i | 0 <= i < |v| ensures xs[i] == Str(repr.text(v[i])) {
      assert Coerce(p[i]) == Some(xs[i]);
    }
  }

  ghost predicate HoldsEnvelope(repr: Repr, t: Option<Json>, e: Envelope) {
    && t.Some? && t.value.Obj?
    && Last(t.value.fields, "name") == Some(Str(e.name))
    && HoldsFloats(repr, Last(t.value.fields, "state_lower"), e.stateLower)
    && HoldsFloats(repr, Last(t.value.fields, "state_upper"), e.stateUpper)
    && HoldsFloats(repr, Last(t.value.fields, "input_lower"), e.inputLower)
    && HoldsFloats(repr, Last(t.value.fields, "input_upper"), e.inputUpper)
  }

  lemma EnvelopeHolds(repr: Repr, e: Envelope)
    requires Coerce(PDict(EnvelopeItems(repr, e))).Some?
    ensures HoldsEnvelope(repr, Coerce(PDict(EnvelopeItems(repr, e))), e)
  {
    hide Coerce, Dumps, Last, HoldsFloats;
    var items := EnvelopeItems(repr, e);
    EnvelopeKeys(repr, e, e);
    DumpsEncodes(PDict(items));
    RecordHolds(items);
    StringsCoerce(e.name);
    FloatsHold(repr, e.stateLower);
    FloatsHold(repr, e.stateUpper);
    FloatsHold(repr, e.inputLower);
    FloatsHold(repr, e.inputUpper);
    var fs := ObjectOf(Dumps(PDict(items)).value);
    assert Last(fs, items[0].key.s) == Coerce(items[0].value) && Last(fs, items[1].key.s) == Coerce(items[1].value);
    assert Last(fs, items[2].key.s) == Coerce(items[2].value) && Last(fs, items[3].key.s) == Coerce(items[3].value);
    assert Last(fs, items[4].key.s) == Coerce(items[4].value);
  }

  /** The text a plan hash is taken of. */
  lemma PlanTextHolds(repr: Repr, p: Plan)
    ensures var fs := ObjectOf(PlanText(repr, p));
      && Last(fs, "name") == Some(Str(p.name))
      && Last(fs, "mpc_period_ns") == Some(Int(p.mpcPeriod))
      && Last(fs, "policy_period_ns") == Some(Int(p.policyPeriod))
      && Last(fs, "mode") == Some(Str(if p.mode == Residual then "residual" else "policy_primary"))
      && HoldsEnvelope(repr, Last(fs, "safety_envelope"), p.envelope)
      && Last(fs, "fallback_on_timeout") == Some(Bool(p.onTimeout))
      && Last(fs, "fallback_on_envelope_breach") == Some(Bool(p.onBreach))
  {
    hide Coerce, Dumps, Last, HoldsEnvelope;
    var items := PlanItems(repr, p);
    PlanCoerces(repr, p);
    PlanKeys(repr, p, p);
    RecordHolds(items);
    EnvelopeHolds(repr, p.envelope);
    StringsCoerce(p.name);
    StringsCoerce(ModeName(p.mode));
    LeavesCoerce(p.mpcPeriod, p.onTimeout, []);
    LeavesCoerce(p.policyPeriod, p.onBreach, []);
    var fs := ObjectOf(PlanText(repr, p));
    assert Last(fs, items[0].key.s) == Coerce(items[0].value) && Last(fs, items[1].key.s) == Coerce(items[1].value);
    assert Last(fs, items[2].key.s) == Coerce(items[2].value) && Last(fs, items[3].key.s) == Coerce(items[3].value);
    assert Last(fs, items[4].key.s) == Coerce(items[4].value) && Last(fs, items[5].key.s) == Coerce(items[5].value);
    assert Last(fs, items[6].key.s) == Coerce(items[6].value);
  }

  /** The text an attestation hash is taken of: version 0, the manifest's and the plan's hash, and the digest of the policy bytes. */
  lemma AttestationTextHolds(H: Digest, repr: Repr, m: Manifest, policy: Bytes, p: Plan)
    ensures var fs := ObjectOf(AttestationText(Attest(H, repr, m, policy, p)));
      && Last(fs, "schema_version") == Some(Int(0))
      && Last(fs, "controller_manifest_hash") == Some(Str(Hex(ContentHash(H, m))))
      && Last(fs, "policy_artifact_hash") == Some(Str(Hex(H.ofBytes(policy))))
      && Last(fs, "composition_plan_hash") == Some(Str(Hex(PlanHash(H, repr, p))))
  {
    hide Coerce, Dumps, Last, Hex, ContentHash, PlanHash;
    var a := Attest(H, repr, m, policy, p);
    var items := AttestationItems(a);
    AttestationCoerces(a);
    AttestationKeys(a, a);
    RecordHolds(items);
    LeavesCoerce(0, true, []);
    StringsCoerce(Hex(a.controller));
    StringsCoerce(Hex(a.policy));
    StringsCoerce(Hex(a.plan));
    var fs := ObjectOf(AttestationText(a));
    assert Last(fs, items[0].key.s) == Coerce(items[0].value) && Last(fs, items[1].key.s) == Coerce(items[1].value);
    assert Last(fs, items[2].key.s) == Coerce(items[2].value) && Last(fs, items[3].key.s) == Coerce(items[3].value);
  }
}
