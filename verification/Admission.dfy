/** Keyed admission receipts of `admission/receipts.py`: any number of admitters under a per-artifact
    lock, temporary files written in pieces, publication by a rename that never replaces, crashes at
    any point, and a foreign writer that may create a receipt file but never rewrites one. */
module Admission {
  import opened Json
  import opened Common

  type Bytes = seq<bv8>

  const SCHEMA_VERSION := "1.0.0"
  const MAX_RECEIPT_BYTES := 64 * 1024

  /** One artifact identity: it names the receipt file and its lock. */
  datatype Key = Key(kind: string, digest: string)

  /** What the fingerprint covers. */
  datatype Authority = Authority(key: Key, bindings: map<string, string>, keyVersion: string, schemaVersion: string)

  datatype Receipt = Receipt(authority: Authority, fingerprint: string, receiptDigest: string)

  /** Canonical encoding with its newline, decoding without the canonical check, and the digest of a
      receipt's authority and fingerprint. */
  datatype World = World(encode: Receipt -> Bytes, parse: Bytes -> Option<Receipt>,
    digest: (Authority, string) -> string)

  /** A keyed fingerprint provider: its current key and the fingerprints its candidate keys give. */
  datatype Provider = Provider(keyVersion: string, fingerprint: Authority -> string,
    candidates: Authority -> set<(string, string)>)

  datatype Request = Request(key: Key, bindings: map<string, string>, provider: Provider)

  /** Decoding inverts canonical encoding. */
  ghost predicate Lawful(w: World) { forall r: Receipt :: w.parse(w.encode(r)) == Some(r) }

  // ----- pure checks -----

  predicate IsUpper(c: char) { 'A' <= c <= 'Z' }
  predicate IsDigit(c: char) { '0' <= c <= '9' }

  predicate KindOk(kind: string) {
    2 <= |kind| <= 64 && IsUpper(kind[0]) && forall i :: 1 <= i < |kind| ==>
      IsUpper(kind[i]) || IsDigit(kind[i]) || kind[i] == '_'
  }

  /** `_validate_subject`. */
  predicate ValidSubject(key: Key, bindings: map<string, string>) {
    KindOk(key.kind) && DigestOk(key.digest) && bindings != map[] && forall k :: k in bindings ==>
      k != "" && bindings[k] != ""
  }

  /** A kind is a capital and then 1 to 63 capitals, digits or underscores, a digest is a digest, and there are
      bindings, none of an empty name or value. */
  lemma ValidSubjectIff(key: Key, bindings: map<string, string>)
    ensures ValidSubject(key, bindings) <==>
            && |key.kind| > 0 && 'A' <= key.kind[0] <= 'Z' && 1 <= |key.kind[1..]| < 64
            && (forall c :: c in key.kind[1..] ==> 'A' <= c <= 'Z' || '0' <= c <= '9' || c == '_')
            && DigestOk(key.digest) && |bindings| > 0 && "" !in bindings.Keys && "" !in bindings.Values
  {
    assert |bindings| > 0 <==> bindings != map[];
    var rest := if |key.kind| > 0 then key.kind[1..] else "";
    assert forall i :: 1 <= i < |key.kind| ==> key.kind[i] == rest[i - 1] && key.kind[i] in rest;
    if "" in bindings.Values {
      var k :| k in bindings && bindings[k] == "";
    }
  }

  /** `_load_canonical_receipt`. */
  function Load(w: World, payload: Bytes): Option<Receipt> {
    match w.parse(payload)
    case Some(r) => if w.encode(r) == payload then Some(r) else None
    case None => None
  }

  predicate DigestValid(w: World, r: Receipt) { r.receiptDigest == w.digest(r.authority, r.fingerprint) }

  /** `_provider_verifies`. */
  predicate ProviderVerifies(r: Receipt, p: Provider) {
    (r.authority.keyVersion, r.fingerprint) in p.candidates(r.authority)
  }

  /** The receipt speaks of exactly this artifact and these bindings. */
  predicate Speaks(r: Receipt, key: Key, bindings: map<string, string>) {
    r.authority.schemaVersion == SCHEMA_VERSION && r.authority.key == key && r.authority.bindings == bindings
  }

  /** `_read` and `_validated_replay` of a stored payload. */
  function Replay(w: World, q: Request, payload: Bytes): Option<Receipt> {
    if |payload| > MAX_RECEIPT_BYTES then None
    else match Load(w, payload)
      case None => None
      case Some(r) => if Speaks(r, q.key, q.bindings) && DigestValid(w, r)
        && ProviderVerifies(r, q.provider) then Some(r) else None
  }

  /** The receipt an admitter signs for itself. */
  function Signed(w: World, q: Request): Receipt {
    var authority := Authority(q.key, q.bindings, q.provider.keyVersion, SCHEMA_VERSION);
    var fingerprint := q.provider.fingerprint(authority);
    Receipt(authority, fingerprint, w.digest(authority, fingerprint))
  }

  predicate Publishable(w: World, q: Request) {
    |w.encode(Signed(w, q))| <= MAX_RECEIPT_BYTES && ProviderVerifies(Signed(w, q), q.provider)
  }

  /** `FileArtifactAdmissionVerifier.verify` against the stored receipt files. */
  predicate Verify(w: World, files: map<Key, Bytes>, r: Receipt, key: Key, bindings: map<string, string>, p: Provider) {
    && ValidSubject(key, bindings) && Speaks(r, key, bindings) && DigestValid(w, r)
    && key in files && |files[key]| <= MAX_RECEIPT_BYTES && files[key] == w.encode(r)
    && Load(w, files[key]) == Some(r) && ProviderVerifies(r, p)
  }

  // ----- the step system -----

  type Pid = nat

  datatype Temp = Temp(key: Key, token: nat)

  /** Where one call of `admit` stands. */
  datatype Pc =
    | Waiting
    | Locked
    | Absent
    | Writing(token: nat, written: nat)
    | Written(token: nat)
    | Raced(token: nat)
    | Published
    | Returned(receipt: Receipt)
    | Failed

  datatype Process = Process(request: Request, pc: Pc)

  datatype State = State(
    files: map<Key, Bytes>,
    foreign: set<Key>,
    temps: map<Temp, Bytes>,
    locks: map<Key, Pid>,
    procs: map<Pid, Process>)

  const INITIAL := State(map[], {}, map[], map[], map[])

  datatype Action =
    | Start(pid: Pid, request: Request)
    | Acquire(pid: Pid)
    | Inspect(pid: Pid)
    | CreateTemp(pid: Pid, token: nat)
    | Write(pid: Pid, count: nat)
    | Sync(pid: Pid)
    | Rename(pid: Pid)
    | ReadRaced(pid: Pid)
    | Finish(pid: Pid)
    | Fail(pid: Pid)
    | Crash(pid: Pid)
    | Foreign(key: Key, payload: Bytes)

  predicate Running(s: State, pid: Pid) { pid in s.procs && !s.procs[pid].pc.Returned? && !s.procs[pid].pc.Failed? }

  predicate HoldsLock(s: State, pid: Pid) { Running(s, pid) && !s.procs[pid].pc.Waiting? }

  predicate HasTemp(pc: Pc) { pc.Writing? || pc.Written? || pc.Raced? }

  predicate Enabled(w: World, s: State, a: Action) {
    match a
    case Start(pid, _) => pid !in s.procs
    case Acquire(pid) => Running(s, pid) && s.procs[pid].pc.Waiting? && s.procs[pid].request.key !in s.locks
    case Inspect(pid) => Running(s, pid) && s.procs[pid].pc.Locked?
    case CreateTemp(pid, token) =>
      Running(s, pid) && s.procs[pid].pc.Absent? && Temp(s.procs[pid].request.key, token) !in s.temps
    case Write(pid, count) =>
      Running(s, pid) && s.procs[pid].pc.Writing? && count > 0
      && s.procs[pid].pc.written + count <= |w.encode(Signed(w, s.procs[pid].request))|
    case Sync(pid) =>
      Running(s, pid) && s.procs[pid].pc.Writing?
        && s.procs[pid].pc.written == |w.encode(Signed(w, s.procs[pid].request))|
    case Rename(pid) => Running(s, pid) && s.procs[pid].pc.Written?
      && Temp(s.procs[pid].request.key, s.procs[pid].pc.token) in s.temps
    case ReadRaced(pid) => Running(s, pid) && s.procs[pid].pc.Raced? && s.procs[pid].request.key in s.files
    case Finish(pid) => Running(s, pid) && s.procs[pid].pc.Published?
    case Fail(pid) => Running(s, pid)
    case Crash(pid) => Running(s, pid)
    case Foreign(key, _) => key !in s.files
  }

  function At(s: State, pid: Pid, pc: Pc): State
    requires pid in s.procs
  {
    s.(procs := s.procs[pid := s.procs[pid].(pc := pc)])
  }

  /** Leave `admit` with an answer or an error: the temporary file goes, then the lock. */
  function Leave(s: State, pid: Pid, pc: Pc): State
    requires Running(s, pid)
  {
    var here := s.procs[pid];
    var t := At(s, pid, pc);
    t.(temps := if HasTemp(here.pc) then t.temps - {Temp(here.request.key, here.pc.token)} else t.temps,
       locks := if here.pc.Waiting? then t.locks else t.locks - {here.request.key})
  }

  /** The answer a call leaves with when it has read a receipt file. */
  function Answer(w: World, q: Request, payload: Bytes): Pc {
    match Replay(w, q, payload) case Some(r) => Returned(r) case None => Failed
  }

  function Apply(w: World, s: State, a: Action): State
    requires Enabled(w, s, a)
  {
    match a
    case Start(pid, q) => s.(procs :=
      s.procs[pid := Process(q, if ValidSubject(q.key, q.bindings) then Waiting else Failed)])
    case Acquire(pid) => At(s.(locks := s.locks[s.procs[pid].request.key := pid]), pid, Locked)
    case Inspect(pid) =>
      var q := s.procs[pid].request;
      if q.key in s.files then Leave(s, pid, Answer(w, q, s.files[q.key]))
      else if Publishable(w, q) then At(s, pid, Absent)
      else Leave(s, pid, Failed)
    case CreateTemp(pid, token) =>
      At(s.(temps := s.temps[Temp(s.procs[pid].request.key, token) := []]), pid, Writing(token, 0))
    case Write(pid, count) =>
      var q, pc := s.procs[pid].request, s.procs[pid].pc;
      At(s.(temps := s.temps[Temp(q.key, pc.token) := w.encode(Signed(w, q))[..pc.written + count]]), pid,
        pc.(written := pc.written + count))
    case Sync(pid) => At(s, pid, Written(s.procs[pid].pc.token))
    case Rename(pid) =>
      var q, pc := s.procs[pid].request, s.procs[pid].pc;
      if q.key in s.files then At(s, pid, Raced(pc.token))
      else
        var temp := Temp(q.key, pc.token);
        At(s.(files := s.files[q.key := s.temps[temp]], temps := s.temps - {temp}), pid, Published)
    case ReadRaced(pid) =>
      var q := s.procs[pid].request;
      Leave(s, pid, Answer(w, q, s.files[q.key]))
    case Finish(pid) => Leave(s, pid, Returned(Signed(w, s.procs[pid].request)))
    case Fail(pid) => Leave(s, pid, Failed)
    case Crash(pid) =>
      s.(procs := s.procs - {pid}, locks := if HoldsLock(s, pid) then s.locks - {s.procs[pid].request.key} else s.locks)
    case Foreign(key, payload) => s.(files := s.files[key := payload], foreign := s.foreign + {key})
  }

  // ----- what every reachable state keeps -----

  /** The stored receipt answers this request. */
  predicate Answers(w: World, s: State, q: Request, r: Receipt) {
    && q.key in s.files && s.files[q.key] == w.encode(r) && |w.encode(r)| <= MAX_RECEIPT_BYTES
    && ValidSubject(q.key, q.bindings) && Speaks(r, q.key, q.bindings) && DigestValid(w, r)
    && ProviderVerifies(r, q.provider)
  }

  ghost predicate ProcessOk(w: World, s: State, pid: Pid)
    requires pid in s.procs
  {
    var q, pc := s.procs[pid].request, s.procs[pid].pc;
    && (HoldsLock(s, pid) ==> q.key in s.locks && s.locks[q.key] == pid)
    && (!pc.Failed? ==> ValidSubject(q.key, q.bindings))
    && (pc.Absent? || HasTemp(pc) || pc.Published? ==> Publishable(w, q))
    && (pc.Writing? ==> pc.written <= |w.encode(Signed(w, q))|
                        && Temp(q.key, pc.token) in s.temps
                        && s.temps[Temp(q.key, pc.token)] == w.encode(Signed(w, q))[..pc.written])
    && (pc.Written? || pc.Raced? ==>
       Temp(q.key, pc.token) in s.temps && s.temps[Temp(q.key, pc.token)] == w.encode(Signed(w, q)))
    && (pc.Raced? ==> q.key in s.files)
    && (pc.Published? ==> Answers(w, s, q, Signed(w, q)))
    && (pc.Returned? ==> Answers(w, s, q, pc.receipt))
  }

  /** A receipt file not created by the foreign writer is one whole, valid receipt for its key. */
  ghost predicate WholeReceipt(w: World, s: State, key: Key)
    requires key in s.files
  {
    exists q: Request :: q.key == key && Publishable(w, q) && s.files[key] == w.encode(Signed(w, q))
  }

  ghost predicate Invariant(w: World, s: State) {
    && (forall pid :: pid in s.procs ==> ProcessOk(w, s, pid))
    && (forall key :: key in s.files && key !in s.foreign ==> WholeReceipt(w, s, key))
    && (forall key :: key in s.locks ==> HoldsLock(s, s.locks[key]) && s.procs[s.locks[key]].request.key == key)
  }

  /** A published receipt file is never replaced, rewritten or removed. */
  lemma NeverReplaced(w: World, s: State, a: Action)
    requires Enabled(w, s, a)
    ensures forall key :: key in s.files ==> key in Apply(w, s, a).files && Apply(w, s, a).files[key] == s.files[key]
  {
  }

  /** A process a step does not touch keeps its facts: files only grow, its own temporary file and
      its own lock stay. */
  lemma Untouched(w: World, s: State, t: State, pid: Pid)
    requires pid in s.procs && ProcessOk(w, s, pid) && pid in t.procs && t.procs[pid] == s.procs[pid]
    requires forall key :: key in s.files ==> key in t.files && t.files[key] == s.files[key]
    requires var q, pc := s.procs[pid].request, s.procs[pid].pc;
             && (HoldsLock(s, pid) ==> q.key in t.locks && t.locks[q.key] == pid)
             && (HasTemp(pc) && Temp(q.key, pc.token) in s.temps ==>
                   Temp(q.key, pc.token) in t.temps && t.temps[Temp(q.key, pc.token)] == s.temps[Temp(q.key, pc.token)])
    ensures ProcessOk(w, t, pid)
  {
  }

  function Actor(a: Action): Option<Pid> { if a.Foreign? then None else Some(a.pid) }

  predicate SameLock(s: State, t: State, key: Key) {
    (key in s.locks <==> key in t.locks) && (key in s.locks ==> t.locks[key] == s.locks[key])
  }

  predicate SameTemp(s: State, t: State, temp: Temp) {
    (temp in s.temps <==> temp in t.temps) && (temp in s.temps ==> t.temps[temp] == s.temps[temp])
  }

  /** A step touches its own process, and the lock and temporary files of its own artifact only when
      it holds that lock or takes it. */
  ghost predicate Local(s: State, t: State, pid: Pid)
    requires pid in s.procs
  {
    && (forall p :: p in s.procs && p != pid ==> p in t.procs && t.procs[p] == s.procs[p])
    && (forall key :: s.procs[pid].request.key != key ==> SameLock(s, t, key))
    && (forall temp: Temp :: s.procs[pid].request.key != temp.key ==> SameTemp(s, t, temp))
    && (!HoldsLock(s, pid) ==>
          t.temps == s.temps && (forall key :: key in s.locks ==> key in t.locks && t.locks[key] == s.locks[key]))
  }

  lemma LeaveIsLocal(s: State, pid: Pid, pc: Pc)
    requires Running(s, pid)
    ensures Local(s, Leave(s, pid, pc), pid)
  {
  }

  lemma LockerIsLocal(w: World, s: State, a: Action)
    requires Enabled(w, s, a) && (a.Acquire? || a.Crash?)
    ensures Local(s, Apply(w, s, a), a.pid)
  {
  }

  lemma WriterIsLocal(w: World, s: State, a: Action)
    requires Enabled(w, s, a) && (a.CreateTemp? || a.Write? || a.Sync?)
    ensures Local(s, Apply(w, s, a), a.pid)
  {
  }

  lemma RenamerIsLocal(w: World, s: State, a: Action)
    requires Enabled(w, s, a) && a.Rename?
    ensures Local(s, Apply(w, s, a), a.pid)
  {
  }

  lemma AnswererIsLocal(w: World, s: State, a: Action)
    requires Enabled(w, s, a) && (a.Inspect? || a.ReadRaced?)
    ensures Local(s, Apply(w, s, a), a.pid)
  {
    var q := s.procs[a.pid].request;
    if q.key in s.files {
      LeaveIsLocal(s, a.pid, Answer(w, q, s.files[q.key]));
    } else {
      LeaveIsLocal(s, a.pid, Failed);
    }
  }

  lemma ActorIsLocal(w: World, s: State, a: Action)
    requires Enabled(w, s, a) && !a.Foreign? && !a.Start?
    ensures Local(s, Apply(w, s, a), a.pid)
  {
    match a
    case Inspect(_) => AnswererIsLocal(w, s, a);
    case ReadRaced(_) => AnswererIsLocal(w, s, a);
    case Finish(pid) => LeaveIsLocal(s, pid, Returned(Signed(w, s.procs[pid].request)));
    case Fail(pid) => LeaveIsLocal(s, pid, Failed);
    case Rename(_) => RenamerIsLocal(w, s, a);
    case Acquire(_) => LockerIsLocal(w, s, a);
    case Crash(_) => LockerIsLocal(w, s, a);
    case _ => WriterIsLocal(w, s, a);
  }

  lemma LocalLeavesOthers(w: World, s: State, t: State, pid: Pid, other: Pid)
    requires Invariant(w, s) && pid in s.procs && other in s.procs && pid != other && Local(s, t, pid)
    ensures var q, pc := s.procs[other].request, s.procs[other].pc;
            && (HoldsLock(s, other) ==> q.key in t.locks && t.locks[q.key] == other)
            && (HasTemp(pc) ==> Temp(q.key, pc.token) in t.temps
                                && t.temps[Temp(q.key, pc.token)] == s.temps[Temp(q.key, pc.token)])
  {
    assert ProcessOk(w, s, other) && ProcessOk(w, s, pid);
    var q, pc := s.procs[other].request, s.procs[other].pc;
    if s.procs[pid].request.key != q.key {
      assert SameLock(s, t, q.key);
      if HasTemp(pc) { assert SameTemp(s, t, Temp(q.key, pc.token)); }
    }
  }

  /** A step of another process leaves this one where it is, with its lock and its temporary file. */
  lemma Undisturbed(w: World, s: State, a: Action, other: Pid)
    requires Invariant(w, s) && Enabled(w, s, a) && other in s.procs && Actor(a) != Some(other)
    ensures var t, q, pc := Apply(w, s, a), s.procs[other].request, s.procs[other].pc;
            && other in t.procs && t.procs[other] == s.procs[other]
            && (HoldsLock(s, other) ==> q.key in t.locks && t.locks[q.key] == other)
            && (HasTemp(pc) ==> Temp(q.key, pc.token) in t.temps
                                && t.temps[Temp(q.key, pc.token)] == s.temps[Temp(q.key, pc.token)])
  {
    assert ProcessOk(w, s, other);
    if !a.Foreign? && !a.Start? {
      ActorIsLocal(w, s, a);
      LocalLeavesOthers(w, s, Apply(w, s, a), a.pid, other);
    }
  }

  lemma OthersKept(w: World, s: State, a: Action, other: Pid)
    requires Invariant(w, s) && Enabled(w, s, a) && other in s.procs && Actor(a) != Some(other)
    ensures other in Apply(w, s, a).procs && ProcessOk(w, Apply(w, s, a), other)
  {
    NeverReplaced(w, s, a);
    Undisturbed(w, s, a, other);
    Untouched(w, s, Apply(w, s, a), other);
  }

  /** The call that takes the step keeps its own facts: while it writes its receipt ... */
  lemma WriterKept(w: World, s: State, a: Action)
    requires Invariant(w, s) && Enabled(w, s, a) && (a.Acquire? || a.CreateTemp? || a.Write? || a.Sync?)
    ensures ProcessOk(w, Apply(w, s, a), a.pid)
  {
    assert ProcessOk(w, s, a.pid);
    var line := w.encode(Signed(w, s.procs[a.pid].request));
    assert line[..|line|] == line;
  }

  /** ... and publishes it ... */
  lemma RenamerKept(w: World, s: State, a: Action)
    requires Invariant(w, s) && Enabled(w, s, a) && a.Rename?
    ensures ProcessOk(w, Apply(w, s, a), a.pid)
  {
    assert ProcessOk(w, s, a.pid);
  }

  /** ... when it finds a receipt or its absence ... */
  lemma InspectorKept(w: World, s: State, a: Action)
    requires Lawful(w) && Invariant(w, s) && Enabled(w, s, a) && a.Inspect?
    ensures ProcessOk(w, Apply(w, s, a), a.pid)
  {
    assert ProcessOk(w, s, a.pid);
  }

  lemma RacerKept(w: World, s: State, a: Action)
    requires Lawful(w) && Invariant(w, s) && Enabled(w, s, a) && a.ReadRaced?
    ensures ProcessOk(w, Apply(w, s, a), a.pid)
  {
    assert ProcessOk(w, s, a.pid);
  }

  /** ... and when it leaves. */
  lemma LeaverKept(w: World, s: State, a: Action)
    requires Invariant(w, s) && Enabled(w, s, a) && (a.Finish? || a.Fail? || a.Crash?)
    ensures a.pid in Apply(w, s, a).procs ==> ProcessOk(w, Apply(w, s, a), a.pid)
  {
    assert ProcessOk(w, s, a.pid);
  }

  lemma FilesStayWhole(w: World, s: State, a: Action, key: Key)
    requires Invariant(w, s) && Enabled(w, s, a)
    requires key in Apply(w, s, a).files && key !in Apply(w, s, a).foreign
    ensures WholeReceipt(w, Apply(w, s, a), key)
  {
    NeverReplaced(w, s, a);
    if key in s.files {
      assert WholeReceipt(w, s, key);
    } else {
      assert ProcessOk(w, s, a.pid);
      assert s.procs[a.pid].request.key == key;
    }
  }

  lemma StepKeepsInvariant(w: World, s: State, a: Action)
    requires Lawful(w) && Invariant(w, s) && Enabled(w, s, a)
    ensures Invariant(w, Apply(w, s, a))
  {
    var t := Apply(w, s, a);
    forall pid | pid in t.procs ensures ProcessOk(w, t, pid) {
      if Actor(a) != Some(pid) { OthersKept(w, s, a, pid); } else { StepperKept(w, s, a); }
    }
    forall key | key in t.files && key !in t.foreign ensures WholeReceipt(w, t, key) { FilesStayWhole(w, s, a, key); }
    forall key | key in t.locks ensures HoldsLock(t, t.locks[key]) && t.procs[t.locks[key]].request.key == key {
      LockOwnerRuns(w, s, a, key);
    }
  }

  lemma StepperKept(w: World, s: State, a: Action)
    requires Lawful(w) && Invariant(w, s) && Enabled(w, s, a) && Actor(a).Some?
    ensures a.pid in Apply(w, s, a).procs ==> ProcessOk(w, Apply(w, s, a), a.pid)
  {
    match a
    case Acquire(_) => WriterKept(w, s, a);
    case CreateTemp(_, _) => WriterKept(w, s, a);
    case Write(_, _) => WriterKept(w, s, a);
    case Sync(_) => WriterKept(w, s, a);
    case Rename(_) => RenamerKept(w, s, a);
    case Start(_, _) =>
    case Inspect(_) => InspectorKept(w, s, a);
    case ReadRaced(_) => RacerKept(w, s, a);
    case _ => LeaverKept(w, s, a);
  }

  /** A lock is always held by a running call for that artifact: leaving and crashing release it. */
  lemma LockOwnerRuns(w: World, s: State, a: Action, key: Key)
    requires Invariant(w, s) && Enabled(w, s, a) && key in Apply(w, s, a).locks
    ensures var t := Apply(w, s, a); HoldsLock(t, t.locks[key]) && t.procs[t.locks[key]].request.key == key
  {
    if a.Foreign? || a.Start? {
    } else if s.procs[a.pid].request.key == key {
      OwnLock(w, s, a);
    } else {
      ActorIsLocal(w, s, a);
      assert SameLock(s, Apply(w, s, a), key);
    }
  }

  /** After its own step a call either holds its lock, and runs, or that lock is free or another's. */
  lemma OwnLock(w: World, s: State, a: Action)
    requires Invariant(w, s) && Enabled(w, s, a) && !a.Foreign? && !a.Start?
    ensures var t, key := Apply(w, s, a), s.procs[a.pid].request.key;
            key in t.locks ==> HoldsLock(t, t.locks[key]) && t.procs[t.locks[key]].request.key == key
  {
    assert ProcessOk(w, s, a.pid);
    var key := s.procs[a.pid].request.key;
    if !HoldsLock(s, a.pid) && key in s.locks {
      var owner := s.locks[key];
      Undisturbed(w, s, a, owner);
    }
  }

  // ----- every run -----

  ghost predicate OneHolder(s: State) {
    forall p, q :: HoldsLock(s, p) && HoldsLock(s, q) && s.procs[p].request.key == s.procs[q].request.key ==> p == q
  }

  /** The state after a list of actions, if each was possible when it came. */
  function Run(w: World, actions: seq<Action>): Option<State> {
    if actions == [] then Some(INITIAL)
    else match Run(w, actions[..|actions| - 1])
      case None => None
      case Some(s) => if Enabled(w, s, actions[|actions| - 1]) then Some(Apply(w, s, actions[|actions| - 1])) else None
  }

  /** Every reachable state keeps the invariant, so two running calls for one artifact never both hold
      its lock. */
  lemma {:induction false} EveryReachableState(w: World, actions: seq<Action>)
    requires Lawful(w) && Run(w, actions).Some?
    ensures Invariant(w, Run(w, actions).value) && OneHolder(Run(w, actions).value)
  {
    if actions != [] {
      EveryReachableState(w, actions[..|actions| - 1]);
      StepKeepsInvariant(w, Run(w, actions[..|actions| - 1]).value, actions[|actions| - 1]);
    }
  }

  /** Over all interleavings, crashes and foreign writes: calls of `admit` that succeeded for one
      artifact returned the same receipt, asked for equal bindings, and that receipt is the file. */
  lemma AdmitsAgree(w: World, actions: seq<Action>, s: State, p: Pid, q: Pid)
    requires Lawful(w) && Run(w, actions) == Some(s)
    requires p in s.procs && q in s.procs && s.procs[p].pc.Returned? && s.procs[q].pc.Returned?
    requires s.procs[p].request.key == s.procs[q].request.key
    ensures s.procs[p].pc.receipt == s.procs[q].pc.receipt
    ensures s.procs[p].request.bindings == s.procs[q].request.bindings
    ensures s.procs[p].request.key in s.files && s.files[s.procs[p].request.key] == w.encode(s.procs[p].pc.receipt)
  {
    EveryReachableState(w, actions);
    assert ProcessOk(w, s, p) && ProcessOk(w, s, q);
    assert w.parse(w.encode(s.procs[p].pc.receipt)) == w.parse(w.encode(s.procs[q].pc.receipt));
  }

  /** `verify` accepts a returned receipt for as long as, and only as long as, its key is a candidate
      of the verifier, whatever happens after the call returned. */
  lemma VerifyAcceptsReturned(w: World, actions: seq<Action>, s: State, p: Pid, verifier: Provider)
    requires Lawful(w) && Run(w, actions) == Some(s) && p in s.procs && s.procs[p].pc.Returned?
    ensures var q, r := s.procs[p].request, s.procs[p].pc.receipt;
            Verify(w, s.files, r, q.key, q.bindings, verifier) <==> ProviderVerifies(r, verifier)
  {
    EveryReachableState(w, actions);
    assert ProcessOk(w, s, p);
  }

  /** Once published, a receipt file holds the same bytes in every later state. */
  lemma {:induction false} PublishedForever(w: World, actions: seq<Action>, later: seq<Action>, key: Key)
    requires Run(w, actions).Some? && Run(w, actions + later).Some? && key in Run(w, actions).value.files
    ensures var s, t := Run(w, actions).value, Run(w, actions + later).value;
            key in t.files && t.files[key] == s.files[key]
  {
    if later == [] {
      assert actions + later == actions;
    } else {
      var all := actions + later;
      assert all[..|all| - 1] == actions + later[..|later| - 1];
      PublishedForever(w, actions, later[..|later| - 1], key);
      NeverReplaced(w, Run(w, all[..|all| - 1]).value, all[|all| - 1]);
    }
  }

  /** Nothing torn is ever published: in every reachable state a receipt file is either the foreign
      writer's or one complete signed receipt for its own artifact. */
  lemma PublishedWhole(w: World, actions: seq<Action>, s: State, key: Key)
    requires Lawful(w) && Run(w, actions) == Some(s) && key in s.files && key !in s.foreign
    ensures exists q: Request :: q.key == key && Publishable(w, q) && s.files[key] == w.encode(Signed(w, q))
  {
    EveryReachableState(w, actions);
    assert WholeReceipt(w, s, key);
  }

  // ----- what a call must answer -----

  /** The stored file is this receipt, and it is one for this request. */
  ghost predicate Stored(w: World, files: map<Key, Bytes>, q: Request, r: Receipt) {
    && q.key in files && files[q.key] == w.encode(r) && |w.encode(r)| <= MAX_RECEIPT_BYTES
    && r.authority.schemaVersion == SCHEMA_VERSION && r.authority.key == q.key && r.authority.bindings == q.bindings
    && r.receiptDigest == w.digest(r.authority, r.fingerprint)
    && (r.authority.keyVersion, r.fingerprint) in q.provider.candidates(r.authority)
  }

  /** A call that looks at a stored receipt returns it exactly when it is one for the request, and otherwise
      fails: admission of the same artifact with the same bindings is idempotent. */
  lemma StoredIsReturned(w: World, s: State, a: Action)
    requires Lawful(w) && Enabled(w, s, a) && (a.Inspect? || a.ReadRaced?) && s.procs[a.pid].request.key in s.files
    ensures var q, t := s.procs[a.pid].request, Apply(w, s, a);
            && a.pid in t.procs
            && (forall r :: t.procs[a.pid].pc == Returned(r) <==> Stored(w, s.files, q, r))
            && ((forall r :: !Stored(w, s.files, q, r)) ==> t.procs[a.pid].pc == Failed)
  {
    var q := s.procs[a.pid].request;
    var answer := Answer(w, q, s.files[q.key]);
    assert Apply(w, s, a).procs[a.pid].pc == answer;
    forall r | Stored(w, s.files, q, r) ensures answer == Returned(r) { assert w.parse(w.encode(r)) == Some(r); }
  }

  /** Verification accepts exactly the stored receipt, for its own artifact and bindings, under a candidate key. */
  lemma VerifyIff(w: World, files: map<Key, Bytes>, r: Receipt, key: Key, bindings: map<string, string>, p: Provider)
    requires Lawful(w)
    ensures Verify(w, files, r, key, bindings, p) <==>
            ValidSubject(key, bindings) && Stored(w, files, Request(key, bindings, p), r)
  {
    assert w.parse(w.encode(r)) == Some(r);
  }

  /** The receipt a call signs speaks of its own request, under the provider's current key. */
  lemma SignedSays(w: World, q: Request)
    ensures var r := Signed(w, q);
            && r.authority.schemaVersion == SCHEMA_VERSION && r.authority.key == q.key
            && r.authority.bindings == q.bindings
            && r.authority.keyVersion == q.provider.keyVersion && r.fingerprint == q.provider.fingerprint(r.authority)
            && r.receiptDigest == w.digest(r.authority, r.fingerprint)
  {
  }

  /** The state after a list of actions from `s`, if each was possible when it came. */
  function After(w: World, s: State, actions: seq<Action>): Option<State>
    decreases actions
  {
    if actions == [] then Some(s)
    else if Enabled(w, s, actions[0]) then After(w, Apply(w, s, actions[0]), actions[1..])
    else None
  }

  lemma {:induction false} AfterBoth(w: World, s: State, first: seq<Action>, then_: seq<Action>)
    requires After(w, s, first).Some?
    ensures After(w, s, first + then_) == After(w, After(w, s, first).value, then_)
    decreases first
  {
    if first == [] {
      assert first + then_ == then_;
    } else {
      assert (first + then_)[0] == first[0] && (first + then_)[1..] == first[1..] + then_;
      AfterBoth(w, Apply(w, s, first[0]), first[1..], then_);
    }
  }

  lemma OneStep(w: World, s: State, a: Action)
    requires Enabled(w, s, a)
    ensures After(w, s, [a]) == Some(Apply(w, s, a))
  {
    assert [a][1..] == [];
    assert After(w, Apply(w, s, a), []) == Some(Apply(w, s, a));
  }

  /** Nobody works on the artifact. */
  predicate Free(s: State, pid: Pid, key: Key) { pid !in s.procs && key !in s.locks }

  /** A call up to the moment it holds its lock. */
  function Entering(pid: Pid, q: Request): seq<Action> { [Start(pid, q), Acquire(pid)] }

  lemma EntersAlone(w: World, s: State, pid: Pid, q: Request)
    requires Free(s, pid, q.key) && ValidSubject(q.key, q.bindings)
    ensures After(w, s, Entering(pid, q)) ==
            Some(s.(procs := s.procs[pid := Process(q, Locked)], locks := s.locks[q.key := pid]))
  {
    var s1 := s.(procs := s.procs[pid := Process(q, Waiting)]);
    OneStep(w, s, Start(pid, q));
    OneStep(w, s1, Acquire(pid));
    AfterBoth(w, s, [Start(pid, q)], [Acquire(pid)]);
    assert Entering(pid, q) == [Start(pid, q)] + [Acquire(pid)];
    assert s1.procs[pid := Process(q, Locked)] == s.procs[pid := Process(q, Locked)];
  }

  /** The temporary file is created and written whole. */
  function WritingAll(w: World, pid: Pid, q: Request, token: nat): seq<Action> {
    [Inspect(pid), CreateTemp(pid, token)]
    + (if w.encode(Signed(w, q)) == [] then [] else [Write(pid, |w.encode(Signed(w, q))|)])
    + [Sync(pid)]
  }

  /** The state of a call alone with its artifact. */
  function Alone(s: State, pid: Pid, q: Request, pc: Pc): State {
    s.(procs := s.procs[pid := Process(q, pc)], locks := s.locks[q.key := pid])
  }

  lemma InspectsNothing(w: World, s: State, pid: Pid, q: Request)
    requires q.key !in s.files && Publishable(w, q)
    ensures After(w, Alone(s, pid, q, Locked), [Inspect(pid)]) == Some(Alone(s, pid, q, Absent))
  {
    var s0 := Alone(s, pid, q, Locked);
    OneStep(w, s0, Inspect(pid));
    assert s0.procs[pid := Process(q, Absent)] == s.procs[pid := Process(q, Absent)];
  }

  lemma CreatesAlone(w: World, s: State, pid: Pid, q: Request, token: nat)
    requires Temp(q.key, token) !in s.temps
    ensures After(w, Alone(s, pid, q, Absent), [CreateTemp(pid, token)]) ==
            Some(Alone(s.(temps := s.temps[Temp(q.key, token) := []]), pid, q, Writing(token, 0)))
  {
    var s0 := Alone(s, pid, q, Absent);
    OneStep(w, s0, CreateTemp(pid, token));
    assert s0.procs[pid := Process(q, Writing(token, 0))] == s.procs[pid := Process(q, Writing(token, 0))];
  }

  lemma WritesAlone(w: World, s: State, pid: Pid, q: Request, token: nat)
    requires w.encode(Signed(w, q)) != []
    ensures var line, temp := w.encode(Signed(w, q)), Temp(q.key, token);
            After(w, Alone(s.(temps := s.temps[temp := []]), pid, q, Writing(token, 0)), [Write(pid, |line|)]) ==
            Some(Alone(s.(temps := s.temps[temp := line]), pid, q, Writing(token, |line|)))
  {
    var line, temp := w.encode(Signed(w, q)), Temp(q.key, token);
    var s0 := Alone(s.(temps := s.temps[temp := []]), pid, q, Writing(token, 0));
    OneStep(w, s0, Write(pid, |line|));
    assert line[..|line|] == line;
    assert s0.procs[pid := Process(q, Writing(token, |line|))] == s.procs[pid := Process(q, Writing(token, |line|))];
    assert s.temps[temp := []][temp := line] == s.temps[temp := line];
  }

  lemma SyncsAlone(w: World, s: State, pid: Pid, q: Request, token: nat)
    ensures var line := w.encode(Signed(w, q));
            After(w, Alone(s, pid, q, Writing(token, |line|)), [Sync(pid)]) == Some(Alone(s, pid, q, Written(token)))
  {
    var s0 := Alone(s, pid, q, Writing(token, |w.encode(Signed(w, q))|));
    OneStep(w, s0, Sync(pid));
    assert s0.procs[pid := Process(q, Written(token))] == s.procs[pid := Process(q, Written(token))];
  }

  lemma WritesReceipt(w: World, s: State, pid: Pid, q: Request, token: nat)
    requires q.key !in s.files && Publishable(w, q) && Temp(q.key, token) !in s.temps
    ensures After(w, Alone(s, pid, q, Locked), WritingAll(w, pid, q, token)) ==
            Some(Alone(s.(temps := s.temps[Temp(q.key, token) := w.encode(Signed(w, q))]), pid, q, Written(token)))
  {
    var line, temp := w.encode(Signed(w, q)), Temp(q.key, token);
    var start := Alone(s, pid, q, Locked);
    var middle := if line == [] then [] else [Write(pid, |line|)];
    InspectsNothing(w, s, pid, q);
    CreatesAlone(w, s, pid, q, token);
    AfterBoth(w, start, [Inspect(pid)], [CreateTemp(pid, token)]);
    assert [Inspect(pid)] + [CreateTemp(pid, token)] == [Inspect(pid), CreateTemp(pid, token)];
    AfterBoth(w, start, [Inspect(pid), CreateTemp(pid, token)], middle);
    if line != [] { WritesAlone(w, s, pid, q, token); }
    AfterBoth(w, start, [Inspect(pid), CreateTemp(pid, token)] + middle, [Sync(pid)]);
    SyncsAlone(w, s.(temps := s.temps[temp := line]), pid, q, token);
  }

  lemma PublishesAlone(w: World, s: State, pid: Pid, q: Request, token: nat)
    requires q.key !in s.files && q.key !in s.locks && Temp(q.key, token) !in s.temps
    ensures var r := Signed(w, q);
            After(w, Alone(s.(temps := s.temps[Temp(q.key, token) := w.encode(r)]), pid, q, Written(token)),
                  [Rename(pid), Finish(pid)]) ==
            Some(s.(files := s.files[q.key := w.encode(r)], procs := s.procs[pid := Process(q, Returned(r))]))
  {
    var r, temp := Signed(w, q), Temp(q.key, token);
    var s0 := Alone(s.(temps := s.temps[temp := w.encode(r)]), pid, q, Written(token));
    var s1 := Alone(s.(files := s.files[q.key := w.encode(r)]), pid, q, Published);
    OneStep(w, s0, Rename(pid));
    assert s0.temps - {temp} == s.temps;
    assert s0.procs[pid := Process(q, Published)] == s.procs[pid := Process(q, Published)];
    OneStep(w, s1, Finish(pid));
    assert s1.locks - {q.key} == s.locks;
    assert s1.procs[pid := Process(q, Returned(r))] == s.procs[pid := Process(q, Returned(r))];
    AfterBoth(w, s0, [Rename(pid)], [Finish(pid)]);
    assert [Rename(pid)] + [Finish(pid)] == [Rename(pid), Finish(pid)];
  }

  /** A first call of `admit`, nobody interfering. */
  function FirstCall(w: World, pid: Pid, q: Request, token: nat): seq<Action> {
    Entering(pid, q) + WritingAll(w, pid, q, token) + [Rename(pid), Finish(pid)]
  }

  /** A call alone on a free artifact, whose provider's key is a candidate for what it signs, publishes and
      returns its own signed receipt, and leaves no lock and no temporary file behind. */
  lemma FirstCallReturns(w: World, s: State, pid: Pid, q: Request, token: nat)
    requires Free(s, pid, q.key) && ValidSubject(q.key, q.bindings)
    requires q.key !in s.files && Temp(q.key, token) !in s.temps
    requires |w.encode(Signed(w, q))| <= MAX_RECEIPT_BYTES
    requires forall a: Authority :: (a.keyVersion == q.provider.keyVersion ==>
               (a.keyVersion, q.provider.fingerprint(a)) in q.provider.candidates(a))
    ensures var r := Signed(w, q);
            After(w, s, FirstCall(w, pid, q, token)) ==
            Some(s.(files := s.files[q.key := w.encode(r)], procs := s.procs[pid := Process(q, Returned(r))]))
  {
    SignedSays(w, q);
    assert Publishable(w, q);
    EntersAlone(w, s, pid, q);
    WritesReceipt(w, s, pid, q, token);
    PublishesAlone(w, s, pid, q, token);
    AfterBoth(w, s, Entering(pid, q), WritingAll(w, pid, q, token));
    AfterBoth(w, s, Entering(pid, q) + WritingAll(w, pid, q, token), [Rename(pid), Finish(pid)]);
  }

  /** A later call for the stored artifact, nobody interfering. */
  function LaterCall(pid: Pid, q: Request): seq<Action> { Entering(pid, q) + [Inspect(pid)] }

  /** A call alone on a stored artifact returns the stored receipt when it is one for the request, and fails
      when there is none; it changes nothing else. */
  lemma LaterCallReturns(w: World, s: State, pid: Pid, q: Request)
    requires Lawful(w) && Free(s, pid, q.key) && ValidSubject(q.key, q.bindings) && q.key in s.files
    ensures After(w, s, LaterCall(pid, q)).Some?
    ensures var t := After(w, s, LaterCall(pid, q)).value;
            && pid in t.procs && t == s.(procs := s.procs[pid := t.procs[pid]])
            && (forall r :: t.procs[pid].pc == Returned(r) <==> Stored(w, s.files, q, r))
            && ((forall r :: !Stored(w, s.files, q, r)) ==> t.procs[pid].pc == Failed)
  {
    EntersAlone(w, s, pid, q);
    var s0 := Alone(s, pid, q, Locked);
    OneStep(w, s0, Inspect(pid));
    AfterBoth(w, s, Entering(pid, q), [Inspect(pid)]);
    StoredIsReturned(w, s0, Inspect(pid));
    var t := Apply(w, s0, Inspect(pid));
    assert s0.locks - {q.key} == s.locks;
    assert t.procs == s.procs[pid := t.procs[pid]];
  }

  /** Two calls one after the other, with equal bindings and one provider, return one receipt. */
  lemma AdmitTwice(w: World, s: State, pid: Pid, later: Pid, q: Request, token: nat)
    requires Lawful(w) && Free(s, pid, q.key) && later !in s.procs && later != pid
    requires ValidSubject(q.key, q.bindings) && q.key !in s.files && Temp(q.key, token) !in s.temps
    requires |w.encode(Signed(w, q))| <= MAX_RECEIPT_BYTES
    requires forall a: Authority :: (a.keyVersion == q.provider.keyVersion ==>
               (a.keyVersion, q.provider.fingerprint(a)) in q.provider.candidates(a))
    ensures var t := After(w, s, FirstCall(w, pid, q, token) + LaterCall(later, q));
            && t.Some? && pid in t.value.procs && later in t.value.procs
            && t.value.procs[pid].pc == Returned(Signed(w, q)) && t.value.procs[later].pc == Returned(Signed(w, q))
  {
    FirstCallReturns(w, s, pid, q, token);
    var first := After(w, s, FirstCall(w, pid, q, token)).value;
    AfterBoth(w, s, FirstCall(w, pid, q, token), LaterCall(later, q));
    SignedSays(w, q);
    assert Stored(w, first.files, q, Signed(w, q));
    LaterCallReturns(w, first, later, q);
  }
}
