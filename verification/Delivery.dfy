/** Source delivery of `delivery.py`: packaging a verified snapshot and verifying the package later
    against the manifest digest kept outside it. */
module Delivery {
  import opened Json
  import opened Common

  type Bytes = seq<bv8>
  type Files = map<string, Bytes>

  /** The identity object of a decoded manifest may hold anything; None stands for what is not a string. */
  type Identity = map<string, Option<string>>

  datatype Manifest = Manifest(
    schemaVersion: string, status: string, deployment: string,
    identity: Option<Identity>, files: Option<map<string, string>>)

  datatype Quality = Quality(candidate: Option<string>, profile: string, passed: bool,
    checks: Option<seq<(string, bool)>>)

  /** The hash, the canonical encodings and the fixed texts. */
  datatype World = World(
    hash: Bytes -> string,
    encode: Manifest -> Bytes,
    decode: Bytes -> Option<Manifest>,
    sourceDigest: map<string, string> -> string,
    qualityBytes: Quality -> Bytes,
    readme: Bytes,
    profile: string,
    requiredChecks: set<string>)

  const SCHEMA := "peos-source-delivery/v1"
  const VERIFIED := "VERIFIED_SOURCE_PACKAGE"
  const NOT_DEPLOYED := "NOT_DEPLOYED"

  /** Every digest is a well-formed one. */
  ghost predicate Hashes(w: World) { forall a: Bytes :: DigestOk(w.hash(a)) }

  /** No two of these contents share a digest. */
  ghost predicate CollisionFree(w: World, contents: set<Bytes>) {
    forall a, b :: a in contents && b in contents && w.hash(a) == w.hash(b) ==> a == b
  }

  /** Decoding inverts the canonical encoding of this manifest. */
  ghost predicate Encodes(w: World, m: Manifest) { w.decode(w.encode(m)) == Some(m) }

  // ----- paths -----

  /** `_path` accepts: a relative POSIX path in its own normal form. */
  predicate Safe(path: string) {
    && '\\' !in path
    && (path == "." || forall part :: part in Split(path, '/') ==> part !in {"", ".", ".."})
  }

  /** The parts of `PurePosixPath(path)`: empty parts and `.` are dropped. */
  function Kept(parts: seq<string>): (r: seq<string>)
    ensures forall part :: part in r <==> part in parts && part !in {"", "."}
  {
    if parts == [] then [] else (if parts[0] in {"", "."} then [] else [parts[0]]) + Kept(parts[1..])
  }

  /** `str(PurePosixPath(path))` of a relative path. */
  function PosixText(path: string): string {
    var parts := Kept(Split(path, '/'));
    if parts == [] then "." else Join(parts, '/')
  }

  lemma {:induction false} AllKept(parts: seq<string>)
    requires forall part :: part in parts ==> part !in {"", "."}
    ensures Kept(parts) == parts
  {
    if parts != [] {
      assert parts[0] in parts && forall part :: part in parts[1..] ==> part in parts;
      AllKept(parts[1..]);
      assert parts == [parts[0]] + parts[1..];
    }
  }

  /** The paths accepted are the non-empty relative ones without `..` and without a backslash that are written
      as the path library writes them. */
  lemma SafeIff(path: string)
    ensures Safe(path) <==>
            && path != "" && path[0] != '/' && '\\' !in path
            && ".." !in Kept(Split(path, '/')) && PosixText(path) == path
  {
    var parts := Split(path, '/');
    JoinOfSplit(path, '/');
    SplitParts(path, '/');
    if path == "." {
      NoSeparator(path, '/');
      assert Kept(["."]) == [];
    } else if Safe(path) {
      AllKept(parts);
      assert parts[0] in parts;
      assert path != "";
    } else if path != "" && '\\' !in path && ".." !in Kept(parts) && PosixText(path) == path {
      SplitOfJoin(Kept(parts), '/');
    }
  }

  function Placed(path: string): (q: string)
    ensures |q| == |path| + 8 && q[8..] == path && q[..8] == "product/"
  {
    "product/" + path
  }

  lemma PlacedSafe(path: string)
    requires Safe(path) && path != "."
    ensures Safe(Placed(path))
  {
    PlacedParts(path);
    PlacedPlain(path);
  }

  lemma PlacedParts(path: string)
    ensures Split(Placed(path), '/') == ["product"] + Split(path, '/')
  {
    SplitJoin("product", path, '/');
    assert Placed(path) == "product" + ['/'] + path;
    NoSeparator("product", '/');
  }

  lemma PlacedPlain(path: string)
    requires '\\' !in path
    ensures '\\' !in Placed(path)
  {
    assert forall c :: c in Placed(path) ==> c in "product/" || c in path;
  }

  lemma PlainSafe(name: string)
    requires '/' !in name && '\\' !in name && name !in {"", ".", ".."}
    ensures Safe(name)
  {
    NoSeparator(name, '/');
  }

  // ----- assembling -----

  const MANIFEST := "DELIVERY.json"
  const QUALITY := "QUALITY.json"
  const README := "README.md"

  function SourceManifest(w: World, snapshot: Files): map<string, string>
  {
    map p | p in snapshot :: w.hash(snapshot[p])
  }

  const IDENTITY_KEYS := {"candidate_digest", "contract_digest", "plan_digest", "head_event_digest"}

  predicate ChecksPass(w: World, checks: seq<(string, bool)>) {
    && |checks| == |w.requiredChecks| && (forall c :: c in checks ==> c.1)
    && (set c | c in checks :: c.0) == w.requiredChecks
  }

  lemma {:induction false} NamesSize<T>(s: seq<T>)
    ensures |set x | x in s| <= |s| && (|set x | x in s| == |s| ==> Distinct(s))
  {
    if s != [] {
      var front, last := s[..|s| - 1], s[|s| - 1];
      NamesSize(front);
      assert s == front + [last];
      assert (set x | x in s) == (set x | x in front) + {last};
      if last in front {
        assert (set x | x in s) == (set x | x in front);
      }
    }
  }

  /** The checks pass when each required one is there, once, with nothing else, and all passed. */
  lemma ChecksPassIff(w: World, checks: seq<(string, bool)>)
    ensures ChecksPass(w, checks) <==>
            && (forall i, j :: 0 <= i < j < |checks| ==> checks[i].0 != checks[j].0)
            && (forall n :: n in w.requiredChecks ==> (n, true) in checks)
            && (forall i :: 0 <= i < |checks| ==> checks[i].0 in w.requiredChecks && checks[i].1)
  {
    var names := seq(|checks|, i requires 0 <= i < |checks| => checks[i].0);
    var named := set c | c in checks :: c.0;
    assert forall n :: n in named <==> n in names by {
      forall n | n in named ensures n in names {
        var c :| c in checks && c.0 == n;
        var i :| 0 <= i < |checks| && checks[i] == c;
        assert names[i] == n;
      }
      forall n | n in names ensures n in named {
        var i :| 0 <= i < |names| && names[i] == n;
        assert checks[i] in checks;
      }
    }
    assert named == set n | n in names;
    NamesSize(names);
    if Distinct(names) { DistinctSize(names, named); }
    if (forall n :: n in w.requiredChecks ==> (n, true) in checks)
       && (forall i :: 0 <= i < |checks| ==> checks[i].0 in w.requiredChecks)
    {
      assert named == w.requiredChecks by {
        forall n | n in w.requiredChecks ensures n in named { assert (n, true) in checks && (n, true).0 == n; }
      }
    }
    if ChecksPass(w, checks) {
      assert Distinct(names);
      forall i, j | 0 <= i < j < |checks| ensures checks[i].0 != checks[j].0 { assert names[i] != names[j]; }
      forall n | n in w.requiredChecks ensures (n, true) in checks {
        assert n in named;
        var c :| c in checks && c.0 == n;
        assert c == (n, true);
      }
    }
  }

  /** The gate of `assemble_delivery`. */
  predicate MayDeliver(w: World, snapshot: Files, quality: Quality, identity: map<string, string>) {
    var candidate := w.sourceDigest(SourceManifest(w, snapshot));
    && (forall p :: p in snapshot ==> Safe(p)) && snapshot != map[]
    && identity.Keys == IDENTITY_KEYS && (forall k :: k in identity ==> DigestOk(identity[k]))
    && identity["candidate_digest"] == candidate && quality.candidate == Some(candidate)
    && quality.profile == w.profile && quality.passed && quality.checks.Some? && ChecksPass(w, quality.checks.value)
  }

  predicate Identifies(identity: map<string, string>, candidate: string, contract: string, plan: string, head: string)
  {
    && identity.Keys == {"candidate_digest", "contract_digest", "plan_digest", "head_event_digest"}
    && identity["candidate_digest"] == candidate && identity["contract_digest"] == contract
    && identity["plan_digest"] == plan && identity["head_event_digest"] == head
  }

  /** What is delivered: at least one source, under safe paths; an identity of four digests, of which the
      candidate's is that of the digests of the sources; and a passed quality report on that candidate, in this
      profile, with every required check. */
  lemma MayDeliverIff(w: World, snapshot: Files, quality: Quality, identity: map<string, string>)
    ensures MayDeliver(w, snapshot, quality, identity) <==>
            && (exists p :: p in snapshot) && (forall p :: p in snapshot ==> Safe(p))
            && exists contract, plan, head ::
                 var candidate := w.sourceDigest(map p | p in snapshot :: w.hash(snapshot[p]));
                 && Identifies(identity, candidate, contract, plan, head)
                 && DigestOk(candidate) && DigestOk(contract) && DigestOk(plan) && DigestOk(head)
                 && quality.checks.Some? && ChecksPass(w, quality.checks.value)
                 && quality == Quality(Some(candidate), w.profile, true, quality.checks)
  {
    assert snapshot != map[] <==> exists p :: p in snapshot;
    if MayDeliver(w, snapshot, quality, identity) {
      assert {"contract_digest", "plan_digest", "head_event_digest"} <= IDENTITY_KEYS;
      assert Identifies(identity, identity["candidate_digest"], identity["contract_digest"], identity["plan_digest"],
                        identity["head_event_digest"]);
    }
  }

  /** Some write fails: a path holds a NUL, or one file would have to be a directory above the other. The
      path `.` is accepted and names the source directory itself, so it goes with no other path. */
  predicate Conflict(files: Files) {
    || (exists p :: p in files && '\0' in p)
    || ("." in files && files.Keys != {"."})
    || exists p, q :: p in files && q in files && p + "/" <= q
  }

  datatype Receipt = Receipt(manifestDigest: string, candidateDigest: string)

  function ManifestFor(w: World, files: Files, identity: map<string, string>): Manifest {
    Manifest(SCHEMA, VERIFIED, NOT_DEPLOYED, Some(map k | k in identity :: Some(identity[k])),
      Some(map p | p in files :: w.hash(files[p])))
  }

  /** What the manifest of a package says. */
  lemma ManifestSays(w: World, files: Files, identity: map<string, string>)
    ensures var m := ManifestFor(w, files, identity);
            && m.schemaVersion == "peos-source-delivery/v1" && m.status == "VERIFIED_SOURCE_PACKAGE"
            && m.deployment == "NOT_DEPLOYED" && m.identity.Some? && m.files.Some?
            && (forall k :: k in m.identity.value <==> k in identity)
            && (forall k :: k in identity ==> m.identity.value[k] == Some(identity[k]))
            && (forall p :: p in m.files.value <==> p in files)
            && (forall p :: p in files ==> m.files.value[p] == w.hash(files[p]))
  {
  }

  /** The files of the package, the manifest aside. */
  function Package(w: World, snapshot: Files, quality: Quality): Files {
    (map q | q in (set p | p in snapshot :: Placed(p)) :: snapshot[q[8..]])
      + map[QUALITY := w.qualityBytes(quality), README := w.readme]
  }

  const DOT_NAME := "product/."
  const DOT_PLACE := "product"

  /** Where a listed file is written: the last `.` of a path disappears on the way to the disk. */
  function OnDisk(name: string): string { if name == DOT_NAME then DOT_PLACE else name }

  /** The listed files as the disk holds them. */
  function Laid(files: Files): Files {
    if DOT_NAME in files then (files - {DOT_NAME})[DOT_PLACE := files[DOT_NAME]] else files
  }

  /** The tree a successful `assemble_delivery` leaves. */
  function Assembled(w: World, snapshot: Files, quality: Quality, identity: map<string, string>): Files {
    var files := Package(w, snapshot, quality);
    Laid(files)[MANIFEST := w.encode(ManifestFor(w, files, identity))]
  }

  lemma RootNamesApart(p: string)
    ensures Placed(p) != QUALITY && Placed(p) != README && Placed(p) != MANIFEST
    ensures QUALITY != README && QUALITY != MANIFEST && README != MANIFEST
  {
    assert Placed(p)[0] == 'p' && QUALITY[0] == 'Q' && README[0] == 'R' && MANIFEST[0] == 'D';
  }

  lemma DotNames()
    ensures DOT_NAME == Placed(".") && DOT_NAME != DOT_PLACE
    ensures DOT_PLACE != QUALITY && DOT_PLACE != README && DOT_PLACE != MANIFEST && forall p :: Placed(p) != DOT_PLACE
  {
    assert |DOT_PLACE| == 7 && |DOT_NAME| == 9 && |QUALITY| == 12 && |README| == 9 && |MANIFEST| == 13;
  }

  lemma PackageNames(w: World, snapshot: Files, quality: Quality, p: string)
    requires p in Package(w, snapshot, quality)
    ensures p != DOT_PLACE && p != MANIFEST
    ensures p == QUALITY || p == README || exists q :: q in snapshot && p == Placed(q)
  {
    RootNamesApart("");
    DotNames();
    if p != QUALITY && p != README {
      var q :| q in snapshot && p == Placed(q);
      RootNamesApart(q);
    }
  }

  /** `assemble_delivery` into a fresh output: the gate, then one write per file into a temporary
      tree, then the manifest. */
  method Assemble(w: World, snapshot: Files, quality: Quality, identity: map<string, string>, occupied: bool)
    returns (r: Option<Receipt>, tree: Files)
    ensures r.Some? <==> !occupied && MayDeliver(w, snapshot, quality, identity) && !Conflict(snapshot)
    ensures r.Some? ==>
              && tree == Assembled(w, snapshot, quality, identity)
              && r.value == Receipt(w.hash(tree[MANIFEST]), identity["candidate_digest"])
    ensures r.None? ==> tree == map[]
  {
    r, tree := None, map[];
    if occupied || !MayDeliver(w, snapshot, quality, identity) || Conflict(snapshot) { return; }
    var files := Package(w, snapshot, quality);
    DotNames();
    if DOT_PLACE in files { PackageNames(w, snapshot, quality, DOT_PLACE); }
    tree := WriteAll(files);
    tree := tree[MANIFEST := w.encode(ManifestFor(w, files, identity))];
    r := Some(Receipt(w.hash(tree[MANIFEST]), w.sourceDigest(SourceManifest(w, snapshot))));
  }

  method WriteAll(files: Files) returns (tree: Files)
    requires DOT_PLACE !in files && DOT_NAME != DOT_PLACE
    ensures tree == Laid(files)
  {
    tree := map[];
    var todo := files.Keys;
    while todo != {}
      invariant todo <= files.Keys && tree == Laid(files - todo)
      decreases todo
    {
      var p :| p in todo;
      WriteOne(files, todo, p);
      tree, todo := tree[OnDisk(p) := files[p]], todo - {p};
    }
    assert files - {} == files;
  }

  lemma WriteOne(files: Files, todo: set<string>, p: string)
    requires DOT_PLACE !in files && DOT_NAME != DOT_PLACE && p in todo && todo <= files.Keys
    ensures Laid(files - todo)[OnDisk(p) := files[p]] == Laid(files - (todo - {p}))
  {
    var before := files - todo;
    assert files - (todo - {p}) == before[p := files[p]];
    if p == DOT_NAME {
      assert before[p := files[p]] - {DOT_NAME} == before;
    } else if DOT_NAME in before {
      assert before[p := files[p]] - {DOT_NAME} == (before - {DOT_NAME})[p := files[p]];
    }
  }

  /** Two of the names cannot both be files: one would be a directory above the other. */
  ghost predicate Nested(names: set<string>) { exists p, q :: p in names && q in names && p + "/" <= q }

  lemma PlacedNested(p: string, q: string)
    ensures Placed(p) + "/" <= Placed(q) <==> p + "/" <= q
  {
    var above, below := Placed(p) + "/", Placed(q);
    assert above[..8] == below[..8] == "product/" && above[8..] == p + "/" && below[8..] == q;
    if p + "/" <= q { assert below == above[..8] + q; }
    if above <= below { assert above[8..] <= below[8..]; }
  }

  lemma RootNotNested(p: string, q: string)
    ensures !(QUALITY + "/" <= Placed(q)) && !(README + "/" <= Placed(q))
    ensures !(Placed(p) + "/" <= QUALITY) && !(Placed(p) + "/" <= README)
    ensures !(QUALITY + "/" <= README) && !(README + "/" <= QUALITY)
    ensures !(QUALITY + "/" <= QUALITY) && !(README + "/" <= README)
  {
    assert Placed(p)[0] == 'p' && Placed(q)[0] == 'p' && QUALITY[0] == 'Q' && README[0] == 'R';
  }

  lemma PackageNested(w: World, snapshot: Files, quality: Quality)
    ensures Nested(Package(w, snapshot, quality).Keys) <==> Nested(snapshot.Keys)
  {
    var names := Package(w, snapshot, quality).Keys;
    if p, q :| p in snapshot.Keys && q in snapshot.Keys && p + "/" <= q {
      PackageKeepsSources(w, snapshot, quality, p);
      PackageKeepsSources(w, snapshot, quality, q);
      PlacedNested(p, q);
      assert Placed(p) in names && Placed(q) in names;
    }
    if p, q :| p in names && q in names && p + "/" <= q {
      PackageNames(w, snapshot, quality, p);
      PackageNames(w, snapshot, quality, q);
      SourcesNested(snapshot, p, q);
    }
  }

  lemma SourcesNested(snapshot: Files, p: string, q: string)
    requires p in {QUALITY, README} || exists a :: a in snapshot && p == Placed(a)
    requires q in {QUALITY, README} || exists b :: b in snapshot && q == Placed(b)
    requires p + "/" <= q
    ensures Nested(snapshot.Keys)
  {
    if a, b :| a in snapshot && b in snapshot && p == Placed(a) && q == Placed(b) {
      PlacedNested(a, b);
    } else if a :| a in snapshot && p == Placed(a) {
      RootNotNested(a, a);
    } else if b :| b in snapshot && q == Placed(b) {
      RootNotNested(b, b);
    } else {
      RootNotNested(p, q);
    }
  }

  /** The path `.` takes the place of the source directory, so nothing else can be under it. */
  lemma DotNested(w: World, snapshot: Files, quality: Quality)
    requires "." in snapshot
    ensures Nested(Laid(Package(w, snapshot, quality)).Keys) <==> snapshot.Keys != {"."}
  {
    var files := Package(w, snapshot, quality);
    var names := Laid(files).Keys;
    ListsDot(w, snapshot, quality);
    DotNames();
    if x :| x in snapshot && x != "." {
      PackageKeepsSources(w, snapshot, quality, x);
      assert Placed(x) != DOT_NAME by { assert DOT_NAME[8..] == "." && Placed(x)[8..] == x; }
      assert DOT_PLACE in names && Placed(x) in names && DOT_PLACE + "/" <= Placed(x);
    } else {
      forall p | p in names ensures p in {DOT_PLACE, QUALITY, README} {
        if p in files { PackageNames(w, snapshot, quality, p); }
      }
      forall p, q | p in names && q in names ensures !(p + "/" <= q) { RootsNotNested(p, q); }
    }
  }

  lemma RootsNotNested(p: string, q: string)
    requires p in {DOT_PLACE, QUALITY, README} && q in {DOT_PLACE, QUALITY, README}
    ensures !(p + "/" <= q)
  {
    RootNotNested("", "");
    assert DOT_PLACE[0] == 'p' && QUALITY[0] == 'Q' && README[0] == 'R' && |DOT_PLACE| == 7;
  }

  /** The sources can be written unless a path holds a NUL or two names on the disk would be nested. */
  lemma ConflictIff(w: World, snapshot: Files, quality: Quality)
    ensures Conflict(snapshot) <==>
            || (exists p :: p in snapshot && '\0' in p)
            || Nested(Laid(Package(w, snapshot, quality)).Keys)
  {
    var files := Package(w, snapshot, quality);
    ListsDot(w, snapshot, quality);
    PackageNested(w, snapshot, quality);
    if "." in snapshot {
      DotNested(w, snapshot, quality);
      if snapshot.Keys == {"."} { DotNoConflict(snapshot); }
    }
  }

  // ----- verifying -----

  /** A delivered directory: its regular files, and whether it holds a symlink or a special file. */
  datatype Tree = Tree(files: Files, symlink: bool, special: bool)

  predicate HeaderOk(m: Manifest) { m.schemaVersion == SCHEMA && m.status == VERIFIED && m.deployment == NOT_DEPLOYED }

  /** The inventory matches name by name and byte by byte. */
  predicate Matches(w: World, paths: Files, listed: map<string, string>) {
    paths.Keys == listed.Keys && forall p :: p in listed ==> Safe(p) && w.hash(paths[p]) == listed[p]
  }

  predicate Verifies(w: World, t: Tree, expected: string) {
    && DigestOk(expected) && !t.symlink && !t.special && MANIFEST in t.files && w.hash(t.files[MANIFEST]) == expected
    && var m := w.decode(t.files[MANIFEST]);
       && m.Some? && HeaderOk(m.value) && m.value.files.Some? && Matches(w, t.files - {MANIFEST}, m.value.files.value)
       && m.value.identity.Some? && NamesCandidate(m.value.identity.value)
  }

  /** A directory verifies when its manifest has the digest kept outside, is one of a verified, undeployed source
      delivery that names its candidate, and lists the other files, and no others, under safe paths with their
      digests. */
  lemma VerifiesIff(w: World, t: Tree, expected: string)
    ensures Verifies(w, t, expected) <==>
            && !t.symlink && !t.special && |expected| == 71 && expected[..7] == "sha256:"
            && (forall i :: 7 <= i < 71 ==> '0' <= expected[i] <= '9' || 'a' <= expected[i] <= 'f')
            && MANIFEST in t.files && w.hash(t.files[MANIFEST]) == expected
            && exists identity: Identity, candidate: string, listed: map<string, string> ::
                 && w.decode(t.files[MANIFEST])
                    == Some(Manifest(SCHEMA, VERIFIED, NOT_DEPLOYED, Some(identity), Some(listed)))
                 && "candidate_digest" in identity && identity["candidate_digest"] == Some(candidate)
                 && MANIFEST !in listed && (forall p :: p in t.files && p != MANIFEST ==> p in listed)
                 && forall p :: p in listed ==> p in t.files && Safe(p) && w.hash(t.files[p]) == listed[p]
  {
    var decoded := if MANIFEST in t.files then w.decode(t.files[MANIFEST]) else None;
    if decoded.Some? && decoded.value.files.Some? {
      InventoryIff(w, t.files, decoded.value.files.value);
      if decoded.value.identity.Some? && NamesCandidate(decoded.value.identity.value) && HeaderOk(decoded.value) {
        var identity, listed := decoded.value.identity.value, decoded.value.files.value;
        assert decoded == Some(Manifest(SCHEMA, VERIFIED, NOT_DEPLOYED, Some(identity), Some(listed)));
        assert identity["candidate_digest"] == Some(identity["candidate_digest"].value);
      }
    }
  }

  lemma InventoryIff(w: World, files: Files, listed: map<string, string>)
    ensures Matches(w, files - {MANIFEST}, listed) <==>
            && MANIFEST !in listed && (forall p :: p in files && p != MANIFEST ==> p in listed)
            && forall p :: p in listed ==> p in files && Safe(p) && w.hash(files[p]) == listed[p]
  {
    var paths := files - {MANIFEST};
    assert forall p :: p in paths <==> p in files && p != MANIFEST;
    if MANIFEST !in listed && (forall p :: p in files && p != MANIFEST ==> p in listed)
       && forall p :: p in listed ==> p in files
    {
      assert paths.Keys == listed.Keys;
    }
  }

  predicate NamesCandidate(identity: Identity) { "candidate_digest" in identity && identity["candidate_digest"].Some? }

  /** `verify_delivery`; the result is the candidate digest. */
  method Verify(w: World, t: Tree, expected: string) returns (candidate: Option<string>)
    ensures candidate.Some? <==> Verifies(w, t, expected)
    ensures candidate.Some? ==> candidate == w.decode(t.files[MANIFEST]).value.identity.value["candidate_digest"]
  {
    candidate := None;
    if !DigestOk(expected) || t.symlink || t.special || MANIFEST !in t.files { return; }
    var paths := t.files - {MANIFEST};
    if w.hash(t.files[MANIFEST]) != expected { return; }
    var decoded := w.decode(t.files[MANIFEST]);
    if decoded.None? || !HeaderOk(decoded.value) || decoded.value.files.None?
      || paths.Keys != decoded.value.files.value.Keys {
      return;
    }
    var listed := decoded.value.files.value;
    var todo := listed.Keys;
    while todo != {}
      invariant todo <= listed.Keys
      invariant forall p :: p in listed && p !in todo ==> Safe(p) && w.hash(paths[p]) == listed[p]
      decreases todo
    {
      var p :| p in todo;
      if !Safe(p) || w.hash(paths[p]) != listed[p] { return; }
      todo := todo - {p};
    }
    if decoded.value.identity.None? || !NamesCandidate(decoded.value.identity.value) { return; }
    candidate := decoded.value.identity.value["candidate_digest"];
  }

  lemma RootNamesSafe()
    ensures Safe(QUALITY) && Safe(README)
  {
    PlainSafe(QUALITY);
    PlainSafe(README);
  }

  lemma PackageSafe(w: World, snapshot: Files, quality: Quality, p: string)
    requires p in Package(w, snapshot, quality) && forall q :: q in snapshot ==> Safe(q) && q != "."
    ensures p != MANIFEST && Safe(p)
  {
    PackageNames(w, snapshot, quality, p);
    RootNamesSafe();
    if p != QUALITY && p != README {
      var q :| q in snapshot && p == Placed(q);
      PlacedSafe(q);
    }
  }

  lemma LastPart(dir: string, name: string)
    requires '/' !in name
    ensures name in Split(dir + ['/'] + name, '/')
  {
    SplitJoin(dir, name, '/');
    NoSeparator(name, '/');
    assert (Split(dir, '/') + [name])[|Split(dir, '/')|] == name;
  }

  /** The listed name of the path `.` is refused by every later verification. */
  lemma DotUnsafe()
    ensures !Safe(DOT_NAME)
  {
    DotNames();
    LastPart("product", ".");
    assert Placed(".") == "product" + ['/'] + ".";
    assert |Placed(".")| == 9;
  }

  lemma ListsDot(w: World, snapshot: Files, quality: Quality)
    ensures DOT_NAME in Package(w, snapshot, quality) <==> "." in snapshot
    ensures "." in snapshot ==> Package(w, snapshot, quality)[DOT_NAME] == snapshot["."]
  {
    DotNames();
    PackageKeepsSources(w, snapshot, quality, ".");
  }

  /** A manifest that lists the path `.` verifies nothing. */
  lemma DotRefused(w: World, files: Files, identity: map<string, string>, t: Tree, expected: string)
    requires Encodes(w, ManifestFor(w, files, identity)) && DOT_NAME in files
    requires MANIFEST in t.files && t.files[MANIFEST] == w.encode(ManifestFor(w, files, identity))
    ensures !Verifies(w, t, expected)
  {
    DotUnsafe();
    assert DOT_NAME in ManifestFor(w, files, identity).files.value;
  }

  /** An assembled package verifies under its own digest exactly when `.` is not among its sources. */
  lemma AssembledVerifies(w: World, snapshot: Files, quality: Quality, identity: map<string, string>)
    requires Hashes(w) && Encodes(w, ManifestFor(w, Package(w, snapshot, quality), identity))
    requires MayDeliver(w, snapshot, quality, identity) && !Conflict(snapshot)
    ensures var files := Assembled(w, snapshot, quality, identity);
            Verifies(w, Tree(files, false, false), w.hash(files[MANIFEST])) <==> "." !in snapshot
  {
    var files := Package(w, snapshot, quality);
    ListsDot(w, snapshot, quality);
    var tree := Assembled(w, snapshot, quality, identity);
    if "." in snapshot {
      DotRefused(w, files, identity, Tree(tree, false, false), w.hash(tree[MANIFEST]));
    } else {
      forall p | p in files ensures p != MANIFEST && Safe(p) { PackageSafe(w, snapshot, quality, p); }
      assert "candidate_digest" in identity;
      WithManifest(w, files, identity);
    }
  }

  lemma WithManifest(w: World, files: Files, identity: map<string, string>)
    requires Hashes(w) && Encodes(w, ManifestFor(w, files, identity))
    requires "candidate_digest" in identity && forall p :: p in files ==> p != MANIFEST && Safe(p)
    ensures var tree := files[MANIFEST := w.encode(ManifestFor(w, files, identity))];
            Verifies(w, Tree(tree, false, false), w.hash(tree[MANIFEST]))
  {
    var m := ManifestFor(w, files, identity);
    var tree := files[MANIFEST := w.encode(m)];
    assert tree - {MANIFEST} == files;
    assert Matches(w, files, m.files.value);
  }

  /** A snapshot that is assembled and reported as delivered, and whose package never verifies: one
      file whose path is `.`. */
  lemma DotNeverVerifies(w: World, content: Bytes, quality: Quality, identity: map<string, string>)
    requires Hashes(w) && Encodes(w, ManifestFor(w, Package(w, map["." := content], quality), identity))
    requires MayDeliver(w, map["." := content], quality, identity)
    ensures var snapshot: Files := map["." := content];
            var files := Assembled(w, snapshot, quality, identity);
            && !Conflict(snapshot) && DOT_PLACE in files && files[DOT_PLACE] == content
            && !Verifies(w, Tree(files, false, false), w.hash(files[MANIFEST]))
  {
    var snapshot: Files := map["." := content];
    assert snapshot.Keys == {"."};
    ListsDot(w, snapshot, quality);
    DotNames();
    DotNoConflict(snapshot);
    AssembledVerifies(w, snapshot, quality, identity);
  }

  lemma DotNoConflict(snapshot: Files)
    requires snapshot.Keys == {"."}
    ensures !Conflict(snapshot)
  {
    forall p, q | p in snapshot && q in snapshot ensures !(p + "/" <= q) { assert p == "." && q == "."; }
  }

  /** Under one manifest digest at most one tree verifies, unless the two trees hold a collision. */
  lemma VerifiedTreeUnique(w: World, t: Tree, u: Tree, expected: string)
    requires Verifies(w, t, expected) && Verifies(w, u, expected)
    requires CollisionFree(w, t.files.Values + u.files.Values)
    ensures t.files == u.files
  {
    assert t.files[MANIFEST] in t.files.Values && u.files[MANIFEST] in u.files.Values;
    var a, b := t.files - {MANIFEST}, u.files - {MANIFEST};
    assert a.Keys == b.Keys;
    forall p | p in a ensures a[p] == b[p] {
      assert t.files[p] in t.files.Values && u.files[p] in u.files.Values;
      assert w.hash(a[p]) == w.hash(b[p]);
    }
    assert t.files == a[MANIFEST := t.files[MANIFEST]] && u.files == b[MANIFEST := u.files[MANIFEST]];
  }

  /** Delivery is exact: under the digest `assemble_delivery` returned, a symlink-free tree without a
      collision verifies exactly when it is the assembled one, byte for byte, and `.` was no source;
      and verification names the same candidate. */
  lemma DeliveryIsExact(w: World, snapshot: Files, quality: Quality, identity: map<string, string>, t: Tree)
    requires Hashes(w) && Encodes(w, ManifestFor(w, Package(w, snapshot, quality), identity))
    requires MayDeliver(w, snapshot, quality, identity) && !Conflict(snapshot) && !t.symlink && !t.special
    requires CollisionFree(w, Assembled(w, snapshot, quality, identity).Values + t.files.Values)
    ensures var files := Assembled(w, snapshot, quality, identity);
            && (Verifies(w, t, w.hash(files[MANIFEST])) <==> t.files == files && "." !in snapshot)
            && (Verifies(w, t, w.hash(files[MANIFEST])) ==>
                  w.decode(t.files[MANIFEST]).value.identity.value["candidate_digest"]
                    == Some(w.sourceDigest(SourceManifest(w, snapshot))))
  {
    var files := Assembled(w, snapshot, quality, identity);
    AssembledVerifies(w, snapshot, quality, identity);
    if "." !in snapshot {
      if Verifies(w, t, w.hash(files[MANIFEST])) {
        VerifiedTreeUnique(w, Tree(files, false, false), t, w.hash(files[MANIFEST]));
      }
      assert t.files == files ==> t == Tree(files, false, false);
    } else if Verifies(w, t, w.hash(files[MANIFEST])) {
      assert files[MANIFEST] in files.Values && t.files[MANIFEST] in t.files.Values;
      ListsDot(w, snapshot, quality);
      DotRefused(w, Package(w, snapshot, quality), identity, t, w.hash(files[MANIFEST]));
    }
  }

  /** Nothing of the sources is lost or renamed on the way into the package. */
  lemma PackageKeepsSources(w: World, snapshot: Files, quality: Quality, p: string)
    ensures p in snapshot <==> Placed(p) in Package(w, snapshot, quality)
    ensures p in snapshot ==> Package(w, snapshot, quality)[Placed(p)] == snapshot[p]
    ensures QUALITY in Package(w, snapshot, quality)
    ensures Package(w, snapshot, quality)[QUALITY] == w.qualityBytes(quality)
    ensures README in Package(w, snapshot, quality) && Package(w, snapshot, quality)[README] == w.readme
  {
    RootNamesApart(p);
    var placed := set q | q in snapshot :: Placed(q);
    assert p in snapshot ==> Placed(p) in placed;
    if Placed(p) in placed {
      var q :| q in snapshot && Placed(q) == Placed(p);
      assert q == Placed(q)[8..] == p;
    }
  }

  // ----- the hypotheses can be met -----

  function SampleDigest(n: nat): string { "sha256:" + seq(64, i => "0123456789abcdef"[n % 16]) }

  /** A world that tells contents apart by their length. */
  function SampleWorld(m: Manifest): World {
    World(b => SampleDigest(|b|), x => [0, 0, 0], b => Some(m), x => SampleDigest(0), q => [0], [0, 0], "", {})
  }

  lemma SampleDigests(m: nat, n: nat)
    ensures DigestOk(SampleDigest(m))
    ensures SampleDigest(m) == SampleDigest(n) ==> m % 16 == n % 16
  {
    assert SampleDigest(m)[7..] == seq(64, i => "0123456789abcdef"[m % 16]);
    assert SampleDigest(m)[7] == "0123456789abcdef"[m % 16] && SampleDigest(n)[7] == "0123456789abcdef"[n % 16];
  }

  const SAMPLE_SOURCES: Files := map["a" := []]
  const SAMPLE_QUALITY := Quality(Some(SampleDigest(0)), "", true, Some([]))

  function SampleIdentity(): map<string, string> { map k | k in IDENTITY_KEYS :: SampleDigest(0) }

  function SampleManifest(): Manifest {
    var any := Manifest("", "", "", None, None);
    ManifestFor(SampleWorld(any), Package(SampleWorld(any), SAMPLE_SOURCES, SAMPLE_QUALITY), SampleIdentity())
  }

  lemma SamplePath()
    ensures SAMPLE_SOURCES.Keys == {"a"} && Safe("a") && !Conflict(SAMPLE_SOURCES)
  {
    PlainSafe("a");
    assert "a" in SAMPLE_SOURCES && |"a"| == 1;
    forall p, q | p in SAMPLE_SOURCES && q in SAMPLE_SOURCES ensures !(p + "/" <= q) { assert |p| == |q|; }
  }

  lemma SampleEncodes()
    ensures var w := SampleWorld(SampleManifest());
            Encodes(w, ManifestFor(w, Package(w, SAMPLE_SOURCES, SAMPLE_QUALITY), SampleIdentity()))
  {
    var w, any := SampleWorld(SampleManifest()), SampleWorld(Manifest("", "", "", None, None));
    var files := Package(w, SAMPLE_SOURCES, SAMPLE_QUALITY);
    assert files == Package(any, SAMPLE_SOURCES, SAMPLE_QUALITY);
    assert (map p | p in files :: w.hash(files[p])) == (map p | p in files :: any.hash(files[p]));
  }

  lemma SampleChecks(w: World)
    requires w.requiredChecks == {}
    ensures ChecksPass(w, [])
  {
  }

  lemma SampleGate(m: Manifest)
    ensures MayDeliver(SampleWorld(m), SAMPLE_SOURCES, SAMPLE_QUALITY, SampleIdentity())
  {
    var w := SampleWorld(m);
    SamplePath();
    SampleDigests(0, 0);
    SampleChecks(w);
    assert "candidate_digest" in IDENTITY_KEYS;
    assert SampleIdentity().Keys == IDENTITY_KEYS && forall k :: k in SampleIdentity() ==>
      SampleIdentity()[k] == SampleDigest(0);
    assert w.sourceDigest(SourceManifest(w, SAMPLE_SOURCES)) == SampleDigest(0);
  }

  predicate SampleContent(c: Bytes) { |c| < 5 && forall i :: 0 <= i < |c| ==> c[i] == 0 }

  lemma SampleContents(w: World)
    requires w.qualityBytes(SAMPLE_QUALITY) == [0] && w.readme == [0, 0]
             && forall m: Manifest :: w.encode(m) == [0, 0, 0]
    ensures var files := Assembled(w, SAMPLE_SOURCES, SAMPLE_QUALITY, SampleIdentity());
            && (forall c :: c in files.Values ==> SampleContent(c))
            && "product/a" in files && files["product/a"] == []
  {
    var files := Package(w, SAMPLE_SOURCES, SAMPLE_QUALITY);
    ListsDot(w, SAMPLE_SOURCES, SAMPLE_QUALITY);
    PackageKeepsSources(w, SAMPLE_SOURCES, SAMPLE_QUALITY, "a");
    assert Placed("a") == "product/a";
    RootNamesApart("a");
    forall p | p in files ensures SampleContent(files[p]) { SamplePackage(w, p); }
  }

  lemma SamplePackage(w: World, p: string)
    requires w.qualityBytes(SAMPLE_QUALITY) == [0] && w.readme == [0, 0]
             && p in Package(w, SAMPLE_SOURCES, SAMPLE_QUALITY)
    ensures SampleContent(Package(w, SAMPLE_SOURCES, SAMPLE_QUALITY)[p])
  {
    RootNamesApart("a");
    PackageNames(w, SAMPLE_SOURCES, SAMPLE_QUALITY, p);
    if p != QUALITY && p != README {
      var q :| q in SAMPLE_SOURCES && p == Placed(q);
      PackageKeepsSources(w, SAMPLE_SOURCES, SAMPLE_QUALITY, q);
    }
  }

  /** One world, one delivery and one altered tree that meet every hypothesis of the exactness theorem. */
  lemma SampleMeetsHypotheses()
    ensures var w := SampleWorld(SampleManifest());
            var files := Assembled(w, SAMPLE_SOURCES, SAMPLE_QUALITY, SampleIdentity());
            var altered := files["product/a" := [0, 0, 0, 0]];
            && Hashes(w) && Encodes(w, ManifestFor(w, Package(w, SAMPLE_SOURCES, SAMPLE_QUALITY), SampleIdentity()))
            && MayDeliver(w, SAMPLE_SOURCES, SAMPLE_QUALITY, SampleIdentity()) && !Conflict(SAMPLE_SOURCES)
            && files != altered && CollisionFree(w, files.Values + altered.Values)
  {
    var w := SampleWorld(SampleManifest());
    var files := Assembled(w, SAMPLE_SOURCES, SAMPLE_QUALITY, SampleIdentity());
    forall a: Bytes ensures DigestOk(w.hash(a)) { SampleDigests(|a|, 0); }
    SamplePath();
    SampleGate(SampleManifest());
    SampleEncodes();
    SampleContents(w);
    SampleCollisionFree(w, files);
  }

  lemma SampleCollisionFree(w: World, files: Files)
    requires (forall b: Bytes :: w.hash(b) == SampleDigest(|b|)) && forall c :: c in files.Values ==> SampleContent(c)
    requires "product/a" in files && files["product/a"] == []
    ensures var altered := files["product/a" := [0, 0, 0, 0]];
            files != altered && CollisionFree(w, files.Values + altered.Values)
  {
    var long: Bytes := [0, 0, 0, 0];
    var altered := files["product/a" := long];
    assert files["product/a"] != altered["product/a"];
    assert SampleContent(long);
    SampleSetFree(w, files.Values + altered.Values);
  }

  lemma SampleSetFree(w: World, contents: set<Bytes>)
    requires (forall b: Bytes :: w.hash(b) == SampleDigest(|b|)) && forall c :: c in contents ==> SampleContent(c)
    ensures CollisionFree(w, contents)
  {
    forall a, b | a in contents && b in contents && w.hash(a) == w.hash(b) ensures a == b { SampleApart(a, b); }
  }

  lemma SampleApart(a: Bytes, b: Bytes)
    requires SampleContent(a) && SampleContent(b) && SampleDigest(|a|) == SampleDigest(|b|)
    ensures a == b
  {
    SampleDigests(|a|, |b|);
  }
}
