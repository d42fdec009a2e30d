/**
 The write-once artifact cache as interleaved steps: stores make a directory and write two files
 in it, loads read them back, and anyone outside may change or remove them at any time.
 */
module Cache {
  import opened Wrappers
  import opened Canonical
  import opened Chain

  datatype Artifact = Artifact(payload: Bytes, contentHash: Bytes, manifest: Bytes, target: Bytes, log: seq<string>)

  /** The construction check: the declared hash is the payload's. */
  predicate Genuine(H: Digest, a: Artifact) {
    a.contentHash == H.ofBytes(a.payload)
  }

  /** What artifact.json holds: a full model, or text that does not parse. */
  datatype Meta = Doc(a: Artifact) | Broken

  datatype Dir = Dir(payload: Option<Bytes>, meta: Option<Meta>)

  type Disk = map<Bytes, Dir>

  /** Opening a file for writing and writing it are two steps; both files come after the directory. */
  datatype StorePc = Start | Claimed | PayloadOpen | PayloadDone | MetaOpen | Stored | Refused | Crashed

  datatype LoadPc = Asked | Exists | HasRead(a: Artifact) | Returned(a: Artifact) | Raised

  datatype StoreProc = StoreProc(a: Artifact, pc: StorePc)

  datatype LoadProc = LoadProc(h: Bytes, pc: LoadPc)

  datatype World = World(disk: Disk, stores: seq<StoreProc>, loads: seq<LoadProc>)

  datatype Step =
    | BeginStore(a: Artifact)
    | BeginLoad(h: Bytes)
    | StoreStep(i: nat)
    | Die(i: nat)
    | LoadStep(i: nat)
    | Outside(h: Bytes, dir: Option<Dir>)

  /** Between creating the directory and completing the entry. */
  predicate Active(pc: StorePc) {
    pc.Claimed? || pc.PayloadOpen? || pc.PayloadDone? || pc.MetaOpen?
  }

  /** A write to a file that is no longer there is lost. */
  function WritePayload(disk: Disk, h: Bytes, p: Bytes): Disk {
    if h in disk && disk[h].payload.Some? then disk[h := disk[h].(payload := Some(p))] else disk
  }

  function WriteMeta(disk: Disk, h: Bytes, m: Meta): Disk {
    if h in disk && disk[h].meta.Some? then disk[h := disk[h].(meta := Some(m))] else disk
  }

  /** One step of a store; mkdir succeeds for one store only. */
  function StepStore(disk: Disk, p: StoreProc): (Disk, StoreProc) {
    var h := p.a.contentHash;
    match p.pc
    case Start => if h in disk then (disk, p.(pc := Refused)) else (disk[h := Dir(None, None)], p.(pc := Claimed))
    case Claimed =>
      if h in disk then (disk[h := disk[h].(payload := Some([]))], p.(pc := PayloadOpen)) else (disk, p.(pc := Crashed))
    case PayloadOpen => (WritePayload(disk, h, p.a.payload), p.(pc := PayloadDone))
    case PayloadDone =>
      if h in disk then (disk[h := disk[h].(meta := Some(Broken))], p.(pc := MetaOpen)) else (disk, p.(pc := Crashed))
    case MetaOpen => (WriteMeta(disk, h, Doc(p.a)), p.(pc := Stored))
    case _ => (disk, p)
  }

  /** One step of a load: the entry exists, its model parses and is the requested one, the payload on disk agrees. */
  function StepLoad(H: Digest, disk: Disk, p: LoadProc): LoadProc {
    match p.pc
    case Asked => p.(pc := if p.h in disk && disk[p.h].meta.Some? then Exists else Raised)
    case Exists =>
      if p.h in disk && disk[p.h].meta.Some? && disk[p.h].meta.value.Doc? then
        var a := disk[p.h].meta.value.a;
        p.(pc := if Genuine(H, a) && a.contentHash == p.h then HasRead(a) else Raised)
      else p.(pc := Raised)
    case HasRead(a) =>
      if p.h in disk && disk[p.h].payload.Some? && H.ofBytes(disk[p.h].payload.value) == a.contentHash then p.(pc := Returned(a))
      else p.(pc := Raised)
    case _ => p
  }

  function Next(H: Digest, w: World, s: Step): World {
    match s
    case BeginStore(a) => if Genuine(H, a) then w.(stores := w.stores + [StoreProc(a, Start)]) else w
    case BeginLoad(h) => w.(loads := w.loads + [LoadProc(h, Asked)])
    case StoreStep(i) =>
      if i < |w.stores| then
        var r := StepStore(w.disk, w.stores[i]);
        World(r.0, w.stores[i := r.1], w.loads)
      else w
    case Die(i) =>
      if i < |w.stores| && Active(w.stores[i].pc) then w.(stores := w.stores[i := w.stores[i].(pc := Crashed)]) else w
    case LoadStep(i) => if i < |w.loads| then w.(loads := w.loads[i := StepLoad(H, w.disk, w.loads[i])]) else w
    case Outside(h, dir) => w.(disk := if dir.Some? then w.disk[h := dir.value] else w.disk - {h})
  }

  function Run(H: Digest, w: World, steps: seq<Step>): World
    decreases |steps|
  {
    if |steps| == 0 then w else Run(H, Next(H, w, steps[0]), steps[1..])
  }

  // ---------------------------------------------------------------- what a returned load is worth

  predicate SoundLoad(H: Digest, p: LoadProc) {
    && (p.pc.HasRead? ==> Genuine(H, p.pc.a) && p.pc.a.contentHash == p.h)
    && (p.pc.Returned? ==> Genuine(H, p.pc.a) && p.pc.a.contentHash == p.h)
  }

  predicate SoundLoads(H: Digest, w: World) {
    forall i :: 0 <= i < |w.loads| ==> SoundLoad(H, w.loads[i])
  }

  /** Whatever happens outside, every load that returns yields a payload that hashes to what was asked for. */
  lemma {:induction false} ReturnedIsGenuine(H: Digest, w: World, steps: seq<Step>)
    requires SoundLoads(H, w)
    ensures SoundLoads(H, Run(H, w, steps))
    decreases |steps|
  {
    if |steps| > 0 {
      ReturnedIsGenuine(H, Next(H, w, steps[0]), steps[1..]);
    }
  }

  /** That payload is the one any genuine artifact of that hash has, or the two collide. */
  lemma ReturnedPayload(H: Digest, w: World, steps: seq<Step>, i: nat, stored: Artifact)
    requires w.loads == [] && Genuine(H, stored)
    requires i < |Run(H, w, steps).loads| && Run(H, w, steps).loads[i].h == stored.contentHash
    ensures var pc := Run(H, w, steps).loads[i].pc;
      pc.Returned? ==> pc.a.payload == stored.payload || BytesCollide(H, pc.a.payload, stored.payload)
  {
    ReturnedIsGenuine(H, w, steps);
    assert SoundLoad(H, Run(H, w, steps).loads[i]);
  }

  // ---------------------------------------------------------------- one store per removal

  /** The store got past the directory creation. */
  predicate Won(p: StoreProc, h: Bytes) {
    p.a.contentHash == h && p.pc != Start && p.pc != Refused
  }

  function Wins(ps: seq<StoreProc>, h: Bytes): nat {
    if |ps| == 0 then 0 else (if Won(ps[0], h) then 1 else 0) + Wins(ps[1..], h)
  }

  lemma {:induction false} WinsUpdate(ps: seq<StoreProc>, i: nat, p: StoreProc, h: Bytes)
    requires i < |ps|
    ensures Wins(ps[i := p], h) == Wins(ps, h) - (if Won(ps[i], h) then 1 else 0) + (if Won(p, h) then 1 else 0)
  {
    if i > 0 {
      WinsUpdate(ps[1..], i - 1, p, h);
      assert ps[i := p][1..] == ps[1..][i - 1 := p];
    } else {
      assert ps[i := p][1..] == ps[1..];
    }
  }

  lemma {:induction false} WinsAppend(ps: seq<StoreProc>, p: StoreProc, h: Bytes)
    ensures Wins(ps + [p], h) == Wins(ps, h) + if Won(p, h) then 1 else 0
  {
    if |ps| > 0 {
      WinsAppend(ps[1..], p, h);
      assert (ps + [p])[1..] == ps[1..] + [p];
    } else {
      assert (ps + [p])[1..] == [];
    }
  }

  function Removals(steps: seq<Step>, h: Bytes): nat {
    if |steps| == 0 then 0 else (if steps[0] == Outside(h, None) then 1 else 0) + Removals(steps[1..], h)
  }

  function Present(w: World, h: Bytes): nat {
    if h in w.disk then 1 else 0
  }

  lemma NextWins(H: Digest, w: World, s: Step, h: Bytes)
    ensures Wins(Next(H, w, s).stores, h) + Present(w, h) <= Wins(w.stores, h) + Present(Next(H, w, s), h) + if s == Outside(h, None) then 1 else 0
  {
    match s
    case BeginStore(a) => WinsAppend(w.stores, StoreProc(a, Start), h);
    case StoreStep(i) =>
      if i < |w.stores| {
        WinsUpdate(w.stores, i, StepStore(w.disk, w.stores[i]).1, h);
      }
    case Die(i) =>
      if i < |w.stores| {
        WinsUpdate(w.stores, i, w.stores[i].(pc := Crashed), h);
      }
    case _ =>
  }

  /** Stores that ever get past directory creation are at most the removals, plus one if the entry is now there. */
  lemma {:induction false} OneStorePerRemoval(H: Digest, w: World, steps: seq<Step>, h: Bytes)
    ensures Wins(Run(H, w, steps).stores, h) + Present(w, h)
         <= Wins(w.stores, h) + Removals(steps, h) + Present(Run(H, w, steps), h)
    decreases |steps|
  {
    if |steps| > 0 {
      NextWins(H, w, steps[0], h);
      OneStorePerRemoval(H, Next(H, w, steps[0]), steps[1..], h);
    }
  }

  lemma {:induction false} TwoWinners(ps: seq<StoreProc>, h: Bytes, i: nat, j: nat)
    requires i < j < |ps| && Won(ps[i], h) && Won(ps[j], h)
    ensures Wins(ps, h) >= 2
  {
    if i > 0 {
      TwoWinners(ps[1..], h, i - 1, j - 1);
    } else {
      OneWinner(ps[1..], h, j - 1);
    }
  }

  lemma {:induction false} OneWinner(ps: seq<StoreProc>, h: Bytes, i: nat)
    requires i < |ps| && Won(ps[i], h)
    ensures Wins(ps, h) >= 1
  {
    if i > 0 {
      OneWinner(ps[1..], h, i - 1);
    }
  }

  /** Without removals no two stores of one hash succeed. */
  lemma StoreOnce(H: Digest, w: World, steps: seq<Step>, h: Bytes, i: nat, j: nat)
    requires w.stores == [] && Removals(steps, h) == 0 && i < j < |Run(H, w, steps).stores|
    ensures !(Won(Run(H, w, steps).stores[i], h) && Won(Run(H, w, steps).stores[j], h))
  {
    OneStorePerRemoval(H, w, steps, h);
    if Won(Run(H, w, steps).stores[i], h) && Won(Run(H, w, steps).stores[j], h) {
      TwoWinners(Run(H, w, steps).stores, h, i, j);
    }
  }

  // ---------------------------------------------------------------- entries nobody tampers with

  predicate Untouched(steps: seq<Step>, h: Bytes) {
    forall k :: 0 <= k < |steps| ==> !(steps[k].Outside? && steps[k].h == h)
  }

  /** What the directory of the winning store holds at each of its steps. */
  function DirAt(p: StoreProc): Option<Dir> {
    match p.pc
    case Claimed => Some(Dir(None, None))
    case PayloadOpen => Some(Dir(Some([]), None))
    case PayloadDone => Some(Dir(Some(p.a.payload), None))
    case MetaOpen => Some(Dir(Some(p.a.payload), Some(Broken)))
    case Stored => Some(Dir(Some(p.a.payload), Some(Doc(p.a))))
    case _ => None
  }

  /** A store that died leaves no readable model. */
  predicate LeftBy(p: StoreProc, d: Dir) {
    if p.pc.Crashed? then d.meta.None? || d.meta.value.Broken? else DirAt(p) == Some(d)
  }

  /** Every load of h that has read something has read what the completed winner wrote. */
  predicate LoadsFollow(w: World, h: Bytes, winner: Option<nat>) {
    forall k :: 0 <= k < |w.loads| && w.loads[k].h == h ==> LoadFollows(w, w.loads[k], winner)
  }

  predicate LoadFollows(w: World, p: LoadProc, winner: Option<nat>) {
    p.pc.HasRead? || p.pc.Returned? ==> winner.Some? && winner.value < |w.stores| && w.stores[winner.value] == StoreProc(p.pc.a, Stored)
  }

  /** Nobody but the winner is past directory creation, and the directory is as the winner left it. */
  predicate Owned(H: Digest, w: World, h: Bytes, winner: Option<nat>) {
    && (forall k :: 0 <= k < |w.stores| && w.stores[k].a.contentHash == h && winner != Some(k) ==> w.stores[k].pc.Start? || w.stores[k].pc.Refused?)
    && (winner.None? ==> h !in w.disk)
    && (winner.Some? ==>
          && winner.value < |w.stores|
          && w.stores[winner.value].a.contentHash == h
          && Genuine(H, w.stores[winner.value].a)
          && h in w.disk
          && LeftBy(w.stores[winner.value], w.disk[h]))
    && (forall k :: 0 <= k < |w.stores| ==> Genuine(H, w.stores[k].a))
  }

  function NextWinner(w: World, s: Step, h: Bytes, winner: Option<nat>): Option<nat> {
    if winner.None? && s.StoreStep? && s.i < |w.stores| && w.stores[s.i].a.contentHash == h && w.stores[s.i].pc.Start? then Some(s.i)
    else winner
  }

  lemma NextOwned(H: Digest, w: World, s: Step, h: Bytes, winner: Option<nat>)
    requires Owned(H, w, h, winner) && !(s.Outside? && s.h == h)
    ensures Owned(H, Next(H, w, s), h, NextWinner(w, s, h, winner))
  {
    hide StepLoad, Genuine;
    if s.StoreStep? && s.i < |w.stores| {
      var p := w.stores[s.i];
      var r := StepStore(w.disk, p);
      assert r.1.a == p.a && forall g :: g != p.a.contentHash ==> (g in r.0 <==> g in w.disk) && (g in w.disk ==> r.0[g] == w.disk[g]);
    }
  }

  lemma NextFollow(H: Digest, w: World, s: Step, h: Bytes, winner: Option<nat>)
    requires Owned(H, w, h, winner) && LoadsFollow(w, h, winner) && !(s.Outside? && s.h == h)
    ensures LoadsFollow(Next(H, w, s), h, NextWinner(w, s, h, winner))
  {
    var w', winner' := Next(H, w, s), NextWinner(w, s, h, winner);
    forall k | 0 <= k < |w'.loads| && w'.loads[k].h == h ensures LoadFollows(w', w'.loads[k], winner') {
      if k < |w.loads| {
        assert LoadFollows(w, w.loads[k], winner);
      }
    }
  }

  /** In a run that leaves h alone, from a world without entry and processes for h, at most one store owns the entry. */
  lemma {:induction false} RunOwned(H: Digest, w: World, steps: seq<Step>, h: Bytes, winner: Option<nat>) returns (last: Option<nat>)
    requires Owned(H, w, h, winner) && LoadsFollow(w, h, winner) && Untouched(steps, h)
    ensures Owned(H, Run(H, w, steps), h, last) && LoadsFollow(Run(H, w, steps), h, last)
    ensures winner.Some? ==> last == winner
    decreases |steps|
  {
    hide Owned, LoadsFollow;
    if |steps| == 0 {
      last := winner;
    } else {
      assert !(steps[0].Outside? && steps[0].h == h);
      NextOwned(H, w, steps[0], h, winner);
      NextFollow(H, w, steps[0], h, winner);
      last := RunOwned(H, Next(H, w, steps[0]), steps[1..], h, NextWinner(w, steps[0], h, winner));
    }
  }

  /** A load of an entry nobody tampers with returns the stored artifact or raises; it never returns anything else. */
  lemma UntouchedLoad(H: Digest, steps: seq<Step>, h: Bytes, i: nat)
    requires Untouched(steps, h) && i < |Run(H, World(map[], [], []), steps).loads|
    ensures var w := Run(H, World(map[], [], []), steps);
      w.loads[i].h == h && w.loads[i].pc.Returned? ==> StoreProc(w.loads[i].pc.a, Stored) in w.stores
  {
    var w0 := World(map[], [], []);
    var last := RunOwned(H, w0, steps, h, None);
    var w := Run(H, w0, steps);
    if w.loads[i].h == h && w.loads[i].pc.Returned? {
      assert LoadFollows(w, w.loads[i], last);
      assert w.stores[last.value] in w.stores;
    }
  }

  // ---------------------------------------------------------------- completed entries load back

  function LoadSteps(steps: seq<Step>, j: nat): nat {
    if |steps| == 0 then 0 else (if steps[0] == LoadStep(j) then 1 else 0) + LoadSteps(steps[1..], j)
  }

  lemma {:induction false} LoadStepsCounted(steps: seq<Step>, j: nat)
    ensures LoadSteps(steps, j) == multiset(steps)[LoadStep(j)]
  {
    if |steps| > 0 {
      LoadStepsCounted(steps[1..], j);
      assert steps == [steps[0]] + steps[1..];
    }
  }

  /** How far a load of artifact a has come; None when it raised or read something else. */
  function Progress(p: LoadProc, a: Artifact): Option<nat> {
    match p.pc
    case Asked => Some(0)
    case Exists => Some(1)
    case HasRead(b) => if a == b then Some(2) else None
    case Returned(b) => if a == b then Some(3) else None
    case Raised => None
  }

  predicate Loading(w: World, j: nat, a: Artifact, n: nat) {
    j < |w.loads| && w.loads[j].h == a.contentHash && Progress(w.loads[j], a).Some? && Progress(w.loads[j], a).value >= n
  }

  lemma NextLoading(H: Digest, w: World, s: Step, winner: nat, a: Artifact, j: nat, n: nat)
    requires Owned(H, w, a.contentHash, Some(winner)) && winner < |w.stores| && w.stores[winner] == StoreProc(a, Stored)
    requires !(s.Outside? && s.h == a.contentHash) && Loading(w, j, a, n) && n <= 3
    ensures Loading(Next(H, w, s), j, a, if s == LoadStep(j) && n < 3 then n + 1 else n)
    ensures winner < |Next(H, w, s).stores| && Next(H, w, s).stores[winner] == StoreProc(a, Stored)
  {
  }

  /**
   A completed entry that nobody tampers with always loads back: a load begun after completion
   never raises, and after its three steps, however interleaved, it has returned that artifact.
   */
  lemma {:induction false} CompletedLoadsBack(H: Digest, w: World, steps: seq<Step>, winner: nat, a: Artifact, j: nat, n: nat)
    requires Owned(H, w, a.contentHash, Some(winner)) && winner < |w.stores| && w.stores[winner] == StoreProc(a, Stored)
    requires Untouched(steps, a.contentHash) && Loading(w, j, a, n) && n <= 3
    ensures j < |Run(H, w, steps).loads| && Run(H, w, steps).loads[j].pc != Raised
    ensures n + LoadSteps(steps, j) >= 3 ==> Run(H, w, steps).loads[j] == LoadProc(a.contentHash, Returned(a))
    decreases |steps|
  {
    hide Owned;
    if |steps| > 0 {
      var s := steps[0];
      assert !(s.Outside? && s.h == a.contentHash);
      NextOwned(H, w, s, a.contentHash, Some(winner));
      NextLoading(H, w, s, winner, a, j, n);
      CompletedLoadsBack(H, Next(H, w, s), steps[1..], winner, a, j, if s == LoadStep(j) && n < 3 then n + 1 else n);
    }
  }

  const EMPTY := World(map[], [], [])

  lemma {:induction false} RunAppend(H: Digest, w: World, a: seq<Step>, b: seq<Step>)
    ensures Run(H, w, a + b) == Run(H, Run(H, w, a), b)
    decreases |a|
  {
    if |a| == 0 {
      assert a + b == b;
    } else {
      assert (a + b)[0] == a[0] && (a + b)[1..] == a[1..] + b;
      RunAppend(H, Next(H, w, a[0]), a[1..], b);
    }
  }

  lemma RunOne(H: Digest, w: World, s: Step)
    ensures Run(H, w, [s]) == Next(H, w, s)
  {
    assert [s][1..] == [];
  }

  lemma OwnedByStored(H: Digest, w: World, h: Bytes, winner: Option<nat>, k: nat)
    requires Owned(H, w, h, winner) && k < |w.stores| && w.stores[k].a.contentHash == h
    requires w.stores[k].pc != Start && w.stores[k].pc != Refused
    ensures winner == Some(k)
  {
  }

  /** A load of h that begins now. */
  lemma FreshLoad(H: Digest, w: World, a: Artifact)
    ensures var w' := Run(H, w, [BeginLoad(a.contentHash)]);
      w'.stores == w.stores && |w'.loads| == |w.loads| + 1 && Loading(w', |w.loads|, a, 0)
  {
    RunOne(H, w, BeginLoad(a.contentHash));
  }

  /** So in every run from an empty cache that leaves the entry alone. */
  lemma StoredLoadsBack(H: Digest, before: seq<Step>, after: seq<Step>, a: Artifact)
    requires Untouched(before, a.contentHash) && Untouched(after, a.contentHash)
    requires StoreProc(a, Stored) in Run(H, EMPTY, before).stores
    ensures var j, w := |Run(H, EMPTY, before).loads|, Run(H, EMPTY, before + [BeginLoad(a.contentHash)] + after);
      && j < |w.loads| && w.loads[j].pc != Raised
      && (LoadSteps(after, j) >= 3 ==> w.loads[j] == LoadProc(a.contentHash, Returned(a)))
  {
    hide Run, Owned, LoadsFollow;
    var h, begin := a.contentHash, [BeginLoad(a.contentHash)];
    EmptyOwned(H, h);
    var last := RunOwned(H, EMPTY, before, h, None);
    var w := Run(H, EMPTY, before);
    var k :| 0 <= k < |w.stores| && w.stores[k] == StoreProc(a, Stored);
    OwnedByStored(H, w, h, last, k);
    FreshLoad(H, w, a);
    last := RunOwned(H, w, begin, h, last);
    CompletedLoadsBack(H, Run(H, w, begin), after, k, a, |w.loads|, 0);
    RunAppend(H, EMPTY, before, begin);
    RunAppend(H, EMPTY, before + begin, after);
  }

  lemma EmptyOwned(H: Digest, h: Bytes)
    ensures Owned(H, EMPTY, h, None) && LoadsFollow(EMPTY, h, None)
  {
  }

  // ---------------------------------------------------------------- when a load can raise

  /** The winner has opened the metadata file. */
  predicate MetadataOpened(w: World, h: Bytes, winner: Option<nat>) {
    winner.Some? && winner.value < |w.stores| &&
    match w.stores[winner.value].pc
    case MetaOpen => true
    case Stored => true
    case Crashed => h in w.disk && w.disk[h].meta.Some?
    case _ => false
  }

  predicate Completed(w: World, winner: Option<nat>) {
    winner.Some? && winner.value < |w.stores| && w.stores[winner.value].pc.Stored?
  }

  /**
   The next step of a load of an entry that nobody tampers with raises exactly when it is the
   first and the metadata file is not there yet, or the second and the store is not complete.
   */
  lemma LoadRaisesWhen(H: Digest, w: World, h: Bytes, winner: Option<nat>, j: nat)
    requires Owned(H, w, h, winner) && LoadsFollow(w, h, winner)
    requires j < |w.loads| && w.loads[j].h == h && !w.loads[j].pc.Raised?
    ensures Next(H, w, LoadStep(j)).loads[j].pc.Raised? <==>
            || (w.loads[j].pc.Asked? && !MetadataOpened(w, h, winner))
            || (w.loads[j].pc.Exists? && !Completed(w, winner))
  {
    assert LoadFollows(w, w.loads[j], winner);
  }

  function Repeat(s: Step, n: nat): (steps: seq<Step>)
    ensures |steps| == n && forall k :: 0 <= k < n ==> steps[k] == s
  {
    seq(n, _ => s)
  }

  /** The pc of a store alone in an empty cache after its first n steps. */
  function PcAfter(n: nat): StorePc {
    match n
    case 0 => Start
    case 1 => Claimed
    case 2 => PayloadOpen
    case 3 => PayloadDone
    case 4 => MetaOpen
    case _ => Stored
  }

  lemma {:induction false} AloneAfter(H: Digest, a: Artifact, n: nat)
    requires Genuine(H, a) && n <= 5
    ensures var w := Run(H, EMPTY, [BeginStore(a)] + Repeat(StoreStep(0), n));
      w.stores == [StoreProc(a, PcAfter(n))] && w.loads == [] &&
      w.disk == match DirAt(StoreProc(a, PcAfter(n))) case Some(d) => map[a.contentHash := d] case None => map[]
  {
    hide Run;
    if n == 0 {
      RunOne(H, EMPTY, BeginStore(a));
      assert [BeginStore(a)] + Repeat(StoreStep(0), 0) == [BeginStore(a)];
    } else {
      var steps := [BeginStore(a)] + Repeat(StoreStep(0), n - 1);
      AloneAfter(H, a, n - 1);
      assert [BeginStore(a)] + Repeat(StoreStep(0), n) == steps + [StoreStep(0)];
      RunAppend(H, EMPTY, steps, [StoreStep(0)]);
      RunOne(H, Run(H, EMPTY, steps), StoreStep(0));
    }
  }

  /** A load that overlaps the store may find metadata that do not parse yet. */
  lemma OverlappingLoadRaises(H: Digest, a: Artifact)
    requires Genuine(H, a)
    ensures var steps := [BeginStore(a)] + Repeat(StoreStep(0), 4) + [BeginLoad(a.contentHash)] + [LoadStep(0)] + [LoadStep(0)];
      Run(H, EMPTY, steps).loads == [LoadProc(a.contentHash, Raised)]
  {
    hide Run;
    var h, s4 := a.contentHash, [BeginStore(a)] + Repeat(StoreStep(0), 4);
    AloneAfter(H, a, 4);
    var w4 := Run(H, EMPTY, s4);
    RunAppend(H, EMPTY, s4, [BeginLoad(h)]);
    RunOne(H, w4, BeginLoad(h));
    RunAppend(H, EMPTY, s4 + [BeginLoad(h)], [LoadStep(0)]);
    RunOne(H, Next(H, w4, BeginLoad(h)), LoadStep(0));
    RunAppend(H, EMPTY, s4 + [BeginLoad(h)] + [LoadStep(0)], [LoadStep(0)]);
    RunOne(H, Next(H, Next(H, w4, BeginLoad(h)), LoadStep(0)), LoadStep(0));
  }

  // ---------------------------------------------------------------- the fate of an entry

  /** No store of h is in progress. */
  predicate Idle(w: World, h: Bytes) {
    forall k :: 0 <= k < |w.stores| && w.stores[k].a.contentHash == h ==> !Active(w.stores[k].pc)
  }

  predicate HasCrashed(w: World, h: Bytes) {
    exists k :: 0 <= k < |w.stores| && w.stores[k].a.contentHash == h && w.stores[k].pc.Crashed?
  }

  /** The directory is there, its metadata are not or do not parse, and nobody is at work on it. */
  predicate Blocked(w: World, h: Bytes) {
    h in w.disk && (w.disk[h].meta.Some? ==> w.disk[h].meta.value.Broken?) && Idle(w, h)
  }

  predicate LateLoadsFail(w: World, h: Bytes, from: nat) {
    from <= |w.loads| && forall j :: from <= j < |w.loads| && w.loads[j].h == h ==> !w.loads[j].pc.HasRead? && !w.loads[j].pc.Returned?
  }

  lemma {:induction false} NoRemovals(steps: seq<Step>, h: Bytes)
    requires Untouched(steps, h)
    ensures Removals(steps, h) == 0
  {
    if |steps| > 0 {
      NoRemovals(steps[1..], h);
    }
  }

  lemma {:induction false} StaysBlocked(H: Digest, w: World, steps: seq<Step>, h: Bytes, from: nat)
    requires Blocked(w, h) && Untouched(steps, h) && LateLoadsFail(w, h, from)
    ensures Blocked(Run(H, w, steps), h) && LateLoadsFail(Run(H, w, steps), h, from)
    decreases |steps|
  {
    if |steps| > 0 {
      assert !(steps[0].Outside? && steps[0].h == h);
      StaysBlocked(H, Next(H, w, steps[0]), steps[1..], h, from);
    }
  }

  /** Until someone outside intervenes no store of a blocked entry wins, and no load begun now returns. */
  lemma BlockedForever(H: Digest, w: World, steps: seq<Step>, h: Bytes)
    requires Blocked(w, h) && Untouched(steps, h)
    ensures Blocked(Run(H, w, steps), h)
    ensures Wins(Run(H, w, steps).stores, h) <= Wins(w.stores, h)
    ensures |w.loads| <= |Run(H, w, steps).loads|
    ensures forall j :: |w.loads| <= j < |Run(H, w, steps).loads| && Run(H, w, steps).loads[j].h == h ==> !Run(H, w, steps).loads[j].pc.Returned?
  {
    StaysBlocked(H, w, steps, h, |w.loads|);
    OneStorePerRemoval(H, w, steps, h);
    NoRemovals(steps, h);
  }

  /** What a store that begins now does when nothing interleaves. */
  function StoreAlone(disk: Disk, a: Artifact): (Disk, StorePc) {
    var r1 := StepStore(disk, StoreProc(a, Start));
    var r2 := StepStore(r1.0, r1.1);
    var r3 := StepStore(r2.0, r2.1);
    var r4 := StepStore(r3.0, r3.1);
    var r5 := StepStore(r4.0, r4.1);
    (r5.0, r5.1.pc)
  }

  /** A new store of any genuine artifact of h completes its entry. */
  ghost predicate Storable(H: Digest, w: World, h: Bytes) {
    forall a :: Genuine(H, a) && a.contentHash == h ==>
      StoreAlone(w.disk, a) == (w.disk[h := Dir(Some(a.payload), Some(Doc(a)))], Stored)
  }

  /** A new load returns what some store completed. */
  predicate Loadable(H: Digest, w: World, h: Bytes) {
    exists k :: 0 <= k < |w.stores| && w.stores[k].a.contentHash == h && w.stores[k].pc.Stored? && LoadAlone(H, w.disk, h) == Returned(w.stores[k].a)
  }

  /**
   An entry that nobody tampers with, once no store is at work on it, is blocked for ever exactly
   when a store that had created the directory has crashed; otherwise it can be stored, or a
   completed store's artifact can be loaded, and never both.
   */
  lemma EntryFate(H: Digest, steps: seq<Step>, h: Bytes)
    requires Untouched(steps, h) && Idle(Run(H, EMPTY, steps), h)
    ensures var w := Run(H, EMPTY, steps);
      && (Blocked(w, h) <==> HasCrashed(w, h))
      && (!HasCrashed(w, h) ==> (Storable(H, w, h) && h !in w.disk) || (Loadable(H, w, h) && h in w.disk))
  {
    EmptyOwned(H, h);
    var winner := RunOwned(H, EMPTY, steps, h, None);
    OwnedFate(H, Run(H, EMPTY, steps), h, winner);
  }

  lemma OwnedFate(H: Digest, w: World, h: Bytes, winner: Option<nat>)
    requires Owned(H, w, h, winner) && Idle(w, h)
    ensures Blocked(w, h) <==> HasCrashed(w, h)
    ensures !HasCrashed(w, h) ==> (Storable(H, w, h) && h !in w.disk) || (Loadable(H, w, h) && h in w.disk)
  {
    if winner.Some? {
      var p := w.stores[winner.value];
      assert !Active(p.pc) && LeftBy(p, w.disk[h]);
      if p.pc.Stored? {
        assert w.disk[h] == Dir(Some(p.a.payload), Some(Doc(p.a)));
        assert LoadAlone(H, w.disk, h) == Returned(p.a);
      }
    } else {
      forall a | Genuine(H, a) && a.contentHash == h
        ensures StoreAlone(w.disk, a) == (w.disk[h := Dir(Some(a.payload), Some(Doc(a)))], Stored)
      {
        StoresWhenAbsent(w.disk, a);
      }
    }
  }

  lemma StoresWhenAbsent(disk: Disk, a: Artifact)
    requires a.contentHash !in disk
    ensures StoreAlone(disk, a) == (disk[a.contentHash := Dir(Some(a.payload), Some(Doc(a)))], Stored)
  {
    var h := a.contentHash;
    var r1 := StepStore(disk, StoreProc(a, Start));
    assert r1.0 == disk[h := Dir(None, None)];
    var r2 := StepStore(r1.0, r1.1);
    assert r2.0 == disk[h := Dir(Some([]), None)];
    var r3 := StepStore(r2.0, r2.1);
    assert r3.0 == disk[h := Dir(Some(a.payload), None)];
    var r4 := StepStore(r3.0, r3.1);
    assert r4.0 == disk[h := Dir(Some(a.payload), Some(Broken))];
    var r5 := StepStore(r4.0, r4.1);
    assert r5.0 == disk[h := Dir(Some(a.payload), Some(Doc(a)))];
  }

  /** A store that dies after any of its first four steps blocks the entry. */
  lemma DyingBlocks(H: Digest, a: Artifact, n: nat)
    requires Genuine(H, a) && 1 <= n <= 4
    ensures Blocked(Run(H, EMPTY, [BeginStore(a)] + Repeat(StoreStep(0), n) + [Die(0)]), a.contentHash)
  {
    hide Run;
    var steps := [BeginStore(a)] + Repeat(StoreStep(0), n);
    AloneAfter(H, a, n);
    RunAppend(H, EMPTY, steps, [Die(0)]);
    RunOne(H, Run(H, EMPTY, steps), Die(0));
  }

  // ---------------------------------------------------------------- one caller at a time

  /** The outcome of a load that nothing interleaves with. */
  function LoadAlone(H: Digest, disk: Disk, h: Bytes): LoadPc {
    StepLoad(H, disk, StepLoad(H, disk, StepLoad(H, disk, LoadProc(h, Asked)))).pc
  }

  /** It returns an artifact exactly when the entry carries it, genuine and of that hash, with its payload or one that collides with it. */
  lemma LoadAloneReturns(H: Digest, disk: Disk, h: Bytes, a: Artifact)
    ensures LoadAlone(H, disk, h) == Returned(a) <==>
            && h in disk && disk[h].payload.Some? && disk[h].meta == Some(Doc(a))
            && (disk[h].payload.value == a.payload || BytesCollide(H, disk[h].payload.value, a.payload))
            && Genuine(H, a) && a.contentHash == h
  {
  }

  class ArtifactCache {
    var disk: Disk

    constructor (disk: Disk)
      ensures this.disk == disk
    {
      this.disk := disk;
    }

    /** Stores a new entry; an existing one is refused and left as it is. */
    method Store(a: Artifact) returns (ok: bool)
      modifies this
      ensures ok <==> a.contentHash !in old(disk)
      ensures disk == if ok then old(disk)[a.contentHash := Dir(Some(a.payload), Some(Doc(a)))] else old(disk)
    {
      var h := a.contentHash;
      if h in disk {
        return false;
      }
      disk := disk[h := Dir(None, None)];
      disk := disk[h := disk[h].(payload := Some([]))];
      disk := WritePayload(disk, h, a.payload);
      disk := disk[h := disk[h].(meta := Some(Broken))];
      disk := WriteMeta(disk, h, Doc(a));
      return true;
    }

    method Load(H: Digest, h: Bytes) returns (r: Result<Artifact>)
      ensures r == match LoadAlone(H, disk, h) case Returned(a) => Success(a) case _ => Failure
    {
      if h !in disk || disk[h].meta.None? || disk[h].meta.value.Broken? {
        return Failure;
      }
      var a := disk[h].meta.value.a;
      if !Genuine(H, a) || a.contentHash != h {
        return Failure;
      }
      if disk[h].payload.None? || H.ofBytes(disk[h].payload.value) != a.contentHash {
        return Failure;
      }
      return Success(a);
    }

    /** Whether there is metadata; if not, every load raises. */
    method Has(h: Bytes) returns (b: bool)
      ensures b <==> h in disk && disk[h].meta.Some?
      ensures !b ==> forall H {:trigger LoadAlone(H, disk, h)} :: LoadAlone(H, disk, h) == Raised
    {
      return h in disk && disk[h].meta.Some?;
    }
  }
}
