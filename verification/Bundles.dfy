/** Revision bundles: assembling rendered artifacts, and validating what was assembled. */
module Bundles {
  import opened Basics
  import opened Text
  import opened Ordering
  import Paths

  type Bytes = string

  datatype Artifact = Artifact(path: string, kind: string, content: Bytes, checksum: string)

  datatype Entry = Entry(path: string, kind: string, checksum: string)

  datatype Manifest = Manifest(schemaVersion: string, revisionID: string, revisionVersion: int, createdAt: string,
                               bundleChecksum: string, contents: seq<Entry>)

  datatype File = File(path: string, content: Bytes)

  datatype Revision = Revision(id: string, version: int, createdAt: string)

  datatype Bundle = Bundle(revision: Revision, files: seq<File>, manifest: Manifest)

  const MANIFEST := "manifest.json"
  const SCHEMA_VERSION := "v1"
  const NUL := '\0'

  /** What bundles are built with: hex SHA-256, indented JSON with a final newline and its inverse, and
      the three string tests. */
  datatype Env = Env(digest: Bytes -> string, encode: Manifest -> Bytes, decode: Bytes -> Option<Manifest>,
                     blank: string -> bool, safePath: string -> bool, safeID: string -> bool)

  /** The digest is injective, with NUL-free non-blank values; decoding undoes encoding. */
  ghost predicate LawfulLibrary(env: Env) {
    && (forall a, b :: env.digest(a) == env.digest(b) ==> a == b)
    && (forall a :: !env.blank(env.digest(a)) && NUL !in env.digest(a))
    && (forall m :: env.decode(env.encode(m)) == Some(m))
  }

  /** All the bundle proofs use of the environment. */
  ghost predicate Lawful(env: Env) {
    && LawfulLibrary(env)
    && (forall p :: env.safePath(p) ==> !env.blank(p))
    && env.safePath(MANIFEST)
  }

  /** The string tests are the code's own. */
  ghost predicate Standard(env: Env) {
    && (forall s :: env.blank(s) == Blank(s))
    && (forall s :: env.safePath(s) == Paths.IsSafeBundlePath(s))
    && (forall s :: env.safeID(s) == Paths.IsSafeBundleIdentifier(s))
  }

  lemma PlainIsSafe(env: Env, name: string)
    requires Standard(env)
    requires Trimmed(name) && Paths.Normal(name) && '/' !in name && '\\' !in name
    ensures env.safePath(name)
  {
    Paths.PlainNameIsSafe(name);
  }

  lemma ManifestIsPlain()
    ensures Trimmed(MANIFEST) && Paths.Normal(MANIFEST) && '/' !in MANIFEST && '\\' !in MANIFEST
  {
  }

  lemma SafeIsNotBlank(env: Env, p: string)
    requires Standard(env)
    ensures env.safePath(p) ==> !env.blank(p)
  {
    if env.safePath(p) { Paths.SafePathIsNotBlank(p); }
  }

  lemma PathTestsAreLawful(env: Env)
    requires Standard(env)
    ensures (forall p :: env.safePath(p) ==> !env.blank(p)) && env.safePath(MANIFEST)
  {
    forall p ensures env.safePath(p) ==> !env.blank(p) { SafeIsNotBlank(env, p); }
    ManifestIsPlain();
    PlainIsSafe(env, MANIFEST);
  }

  lemma StandardIsLawful(env: Env)
    requires Standard(env) && LawfulLibrary(env)
    ensures Lawful(env)
  {
    PathTestsAreLawful(env);
  }

  // ---- Orders ----------------------------------------------------------------------------------------

  function ByArtifactPath(): (Artifact, Artifact) -> bool {
    (a: Artifact, b: Artifact) => Less(a.path, b.path)
  }

  function ByEntryPath(): (Entry, Entry) -> bool {
    (a: Entry, b: Entry) => Less(a.path, b.path)
  }

  lemma LessIsWeakOrder(a: string, b: string, c: string)
    ensures !Less(a, a)
    ensures Less(a, b) && Less(b, c) ==> Less(a, c)
    ensures !Less(a, b) && !Less(b, c) ==> !Less(a, c)
  {
    LessIsTotal(a, a);
    LessIsTotal(a, b);
    LessIsTotal(b, c);
    LessIsTotal(a, c);
    if Less(a, b) && Less(b, c) { LessIsTransitive(a, b, c); }
    if Less(c, b) && Less(b, a) { LessIsTransitive(c, b, a); }
  }

  lemma PathOrders()
    ensures StrictWeakOrder(ByArtifactPath()) && StrictWeakOrder(ByEntryPath())
  {
    forall a: string, b: string, c: string
      ensures !Less(a, a)
      ensures Less(a, b) && Less(b, c) ==> Less(a, c)
      ensures !Less(a, b) && !Less(b, c) ==> !Less(a, c)
    {
      LessIsWeakOrder(a, b, c);
    }
  }

  ghost predicate DistinctArtifacts(s: seq<Artifact>) {
    forall i, j :: 0 <= i < j < |s| ==> s[i].path != s[j].path
  }

  ghost predicate DistinctEntries(s: seq<Entry>) {
    forall i, j :: 0 <= i < j < |s| ==> s[i].path != s[j].path
  }

  ghost predicate DistinctFiles(s: seq<File>) {
    forall i, j :: 0 <= i < j < |s| ==> s[i].path != s[j].path
  }

  lemma DistinctPermute(a: seq<Artifact>, b: seq<Artifact>)
    requires multiset(a) == multiset(b) && DistinctArtifacts(a)
    ensures DistinctArtifacts(b)
  {
    NoRepeatsPermute(a, b);
    PermutationMembers(a, b);
    forall i, j | 0 <= i < j < |b| ensures b[i].path != b[j].path {
      assert b[i] in a && b[j] in a && b[i] != b[j];
      var m :| 0 <= m < |a| && a[m] == b[i];
      var n :| 0 <= n < |a| && a[n] == b[j];
    }
  }

  lemma DistinctIsSeparated(s: seq<Artifact>)
    requires DistinctArtifacts(s)
    ensures Separated(s, ByArtifactPath())
  {
    forall x, y | x in s && y in s && x != y ensures Less(x.path, y.path) || Less(y.path, x.path) {
      var m :| 0 <= m < |s| && s[m] == x;
      var n :| 0 <= n < |s| && s[n] == y;
      LessIsTotal(x.path, y.path);
    }
  }

  lemma DistinctEntriesAreSeparated(s: seq<Entry>)
    requires DistinctEntries(s)
    ensures Separated(s, ByEntryPath())
  {
    forall x, y | x in s && y in s && x != y ensures Less(x.path, y.path) || Less(y.path, x.path) {
      var m :| 0 <= m < |s| && s[m] == x;
      var n :| 0 <= n < |s| && s[n] == y;
      LessIsTotal(x.path, y.path);
    }
  }

  // ---- Framing ---------------------------------------------------------------------------------------

  function FrameOne(e: Entry): Bytes {
    e.path + [NUL] + e.checksum + [NUL] + e.kind + [NUL]
  }

  function Frame(entries: seq<Entry>): Bytes {
    if entries == [] then "" else FrameOne(entries[0]) + Frame(entries[1..])
  }

  lemma {:induction false} FrameSnoc(entries: seq<Entry>, e: Entry)
    ensures Frame(entries + [e]) == Frame(entries) + FrameOne(e)
  {
    if entries == [] {
      assert entries + [e] == [e] && [e][1..] == [];
    } else {
      assert (entries + [e])[1..] == entries[1..] + [e];
      FrameSnoc(entries[1..], e);
    }
  }

  /** checksumContents */
  method ChecksumContents(env: Env, contents: seq<Entry>) returns (checksum: string)
    ensures checksum == env.digest(Frame(contents))
  {
    var fed: Bytes := "";
    for i := 0 to |contents|
      invariant fed == Frame(contents[..i])
    {
      var entry := contents[i];
      FrameSnoc(contents[..i], entry);
      assert contents[..i + 1] == contents[..i] + [entry];
      fed := fed + (entry.path + [NUL] + entry.checksum + [NUL] + entry.kind + [NUL]);
    }
    assert contents[..|contents|] == contents;
    checksum := env.digest(fed);
  }

  predicate NulFree(e: Entry) {
    NUL !in e.path && NUL !in e.checksum && NUL !in e.kind
  }

  lemma {:induction false} FirstNul(a: string, x: string, b: string, y: string)
    requires NUL !in a && NUL !in b && a + [NUL] + x == b + [NUL] + y
    ensures a == b && x == y
  {
    var s, t := a + [NUL] + x, b + [NUL] + y;
    assert forall i :: 0 <= i < |a| ==> s[i] == a[i] && a[i] in a;
    assert forall i :: 0 <= i < |b| ==> t[i] == b[i] && b[i] in b;
    assert s[|a|] == NUL && t[|b|] == NUL;
    assert |a| == |b|;
    assert a == s[..|a|] == t[..|b|] == b;
    assert x == s[|a| + 1..] == t[|b| + 1..] == y;
  }

  lemma FrameOneInjective(a: Entry, x: Bytes, b: Entry, y: Bytes)
    requires NulFree(a) && NulFree(b) && FrameOne(a) + x == FrameOne(b) + y
    ensures a == b && x == y
  {
    var a2, b2 := a.kind + [NUL] + x, b.kind + [NUL] + y;
    var a1, b1 := a.checksum + [NUL] + a2, b.checksum + [NUL] + b2;
    assert FrameOne(a) + x == a.path + [NUL] + a1;
    assert FrameOne(b) + y == b.path + [NUL] + b1;
    FirstNul(a.path, a1, b.path, b1);
    FirstNul(a.checksum, a2, b.checksum, b2);
    FirstNul(a.kind, x, b.kind, y);
  }

  /** Different NUL-free manifests feed different bytes to the bundle checksum. */
  lemma {:induction false} FrameInjective(a: seq<Entry>, b: seq<Entry>)
    requires (forall e <- a :: NulFree(e)) && (forall e <- b :: NulFree(e)) && Frame(a) == Frame(b)
    ensures a == b
  {
    if a != [] { assert |Frame(a)| >= |FrameOne(a[0])| > 0; }
    if b != [] { assert |Frame(b)| >= |FrameOne(b[0])| > 0; }
    if a != [] && b != [] {
      FrameOneInjective(a[0], Frame(a[1..]), b[0], Frame(b[1..]));
      FrameInjective(a[1..], b[1..]);
      assert a == [a[0]] + a[1..] && b == [b[0]] + b[1..];
    }
  }

  /** With a NUL inside a field the framing is ambiguous: one entry can pass for two. */
  lemma NulMakesFramingAmbiguous(p: string, c: string, k: string, q: string, d: string, l: string)
    ensures Frame([Entry(p, k, c), Entry(q, l, d)])
            == Frame([Entry(p, k + [NUL] + q + [NUL] + d + [NUL] + l, c)])
  {
    var two := [Entry(p, k, c), Entry(q, l, d)];
    var one := [Entry(p, k + [NUL] + q + [NUL] + d + [NUL] + l, c)];
    FrameSnoc([two[0]], two[1]);
    FrameSnoc([], two[0]);
    FrameSnoc([], one[0]);
    assert [two[0]] + [two[1]] == two && [] + [two[0]] == [two[0]] && [] + one == one;
  }

  // ---- Assembling ------------------------------------------------------------------------------------

  function EntriesOf(s: seq<Artifact>): (entries: seq<Entry>)
    ensures |entries| == |s|
    ensures forall i :: 0 <= i < |s| ==> entries[i] == EntryOf(s[i])
  {
    if s == [] then [] else [EntryOf(s[0])] + EntriesOf(s[1..])
  }

  function EntryOf(a: Artifact): Entry {
    Entry(a.path, a.kind, a.checksum)
  }

  function FilesOf(s: seq<Artifact>): (files: seq<File>)
    ensures |files| == |s|
    ensures forall i :: 0 <= i < |s| ==> files[i] == File(s[i].path, s[i].content)
  {
    if s == [] then [] else [File(s[0].path, s[0].content)] + FilesOf(s[1..])
  }

  function Flatten(groups: seq<seq<Artifact>>): seq<Artifact> {
    if groups == [] then [] else Flatten(groups[..|groups| - 1]) + groups[|groups| - 1]
  }

  /** What AssembleRevisionBundle takes. */
  ghost predicate Acceptable(env: Env, revision: Revision, flat: seq<Artifact>) {
    && !env.blank(revision.id) && revision.version > 0 && !env.blank(revision.createdAt)
    && flat != []
    && DistinctArtifacts(flat)
    && forall a <- flat :: !env.blank(a.path) && !env.blank(a.checksum)
  }

  function ManifestOf(env: Env, revision: Revision, contents: seq<Entry>): Manifest {
    Manifest(SCHEMA_VERSION, revision.id, revision.version, revision.createdAt, env.digest(Frame(contents)), contents)
  }

  function Assembled(env: Env, revision: Revision, sorted: seq<Artifact>): Bundle {
    var m := ManifestOf(env, revision, EntriesOf(sorted));
    Bundle(revision, FilesOf(sorted) + [File(MANIFEST, env.encode(m))], m)
  }

  /** What a bundle of these artifacts is: one file for each and the encoded manifest; a manifest that names the
      revision and has one entry for each, ascending by path; and the digest of the entries. */
  ghost predicate Packs(env: Env, b: Bundle, revision: Revision, artifacts: seq<Artifact>) {
    var m := b.manifest;
    && b.revision == revision
    && m.schemaVersion == "v1" && m.revisionID == revision.id && m.revisionVersion == revision.version
    && m.createdAt == revision.createdAt && m.bundleChecksum == env.digest(Frame(m.contents))
    && |b.files| == |m.contents| + 1 == |artifacts| + 1
    && (forall f :: f in b.files <==>
          f == File("manifest.json", env.encode(m)) || exists a <- artifacts :: f == File(a.path, a.content))
    && (forall e :: e in m.contents <==> exists a <- artifacts :: e == Entry(a.path, a.kind, a.checksum))
    && (forall i, j :: 0 <= i < j < |m.contents| ==> !Less(m.contents[j].path, m.contents[i].path))
  }

  lemma AssembledPacks(env: Env, revision: Revision, artifacts: seq<Artifact>)
    ensures Packs(env, Assembled(env, revision, SortBy(artifacts, ByArtifactPath())), revision, artifacts)
  {
    var sorted := SortBy(artifacts, ByArtifactPath());
    PathOrders();
    SortBySorted(artifacts, ByArtifactPath());
    PermutationMembers(artifacts, sorted);
    assert |multiset(artifacts)| == |artifacts| && |multiset(sorted)| == |sorted|;
    hide SortBy, Frame;
    PacksSorted(env, revision, artifacts, sorted);
  }

  lemma PacksSorted(env: Env, revision: Revision, artifacts: seq<Artifact>, sorted: seq<Artifact>)
    requires |sorted| == |artifacts| && (forall a :: a in artifacts <==> a in sorted) && Sorted(sorted, ByArtifactPath())
    ensures Packs(env, Assembled(env, revision, sorted), revision, artifacts)
  {
    hide Frame, FilesOf, EntriesOf;
    var b := Assembled(env, revision, sorted);
    var m, files := b.manifest, FilesOf(sorted);
    assert b.files == files + [File(MANIFEST, env.encode(m))];
    forall f ensures f in files <==> exists a <- artifacts :: f == File(a.path, a.content) {
      if f in files { var i :| 0 <= i < |files| && files[i] == f; assert sorted[i] in artifacts; }
      if a :| a in artifacts && f == File(a.path, a.content) {
        var i :| 0 <= i < |sorted| && sorted[i] == a;
        assert files[i] == f;
      }
    }
    forall e ensures e in m.contents <==> exists a <- artifacts :: e == Entry(a.path, a.kind, a.checksum) {
      if e in m.contents { var i :| 0 <= i < |m.contents| && m.contents[i] == e; assert sorted[i] in artifacts; }
      if a :| a in artifacts && e == Entry(a.path, a.kind, a.checksum) {
        var i :| 0 <= i < |sorted| && sorted[i] == a;
        assert m.contents[i] == e;
      }
    }
  }

  /** AssembleRevisionBundle; None is any of its errors. */
  method AssembleRevisionBundle(env: Env, revision: Revision, groups: seq<seq<Artifact>>) returns (r: Option<Bundle>)
    ensures r.Some? <==> Acceptable(env, revision, Flatten(groups))
    ensures r.Some? ==> r.value == Assembled(env, revision, SortBy(Flatten(groups), ByArtifactPath()))
    ensures r.Some? ==> Packs(env, r.value, revision, Flatten(groups))
  {
    if env.blank(revision.id) || revision.version <= 0 || env.blank(revision.createdAt) { return None; }
    var flat: seq<Artifact> := [];
    for i := 0 to |groups|
      invariant flat == Flatten(groups[..i])
    {
      assert groups[..i + 1][..i] == groups[..i];
      flat := flat + groups[i];
    }
    assert groups[..|groups|] == groups;
    if flat == [] { return None; }
    var sorted := SortBy(flat, ByArtifactPath());
    PermutationMembers(flat, sorted);
    var collected := Collect(env, sorted);
    if collected.None? {
      if DistinctArtifacts(flat) { DistinctPermute(flat, sorted); }
      return None;
    }
    DistinctPermute(sorted, flat);
    var (contents, files) := collected.value;
    var checksum := ChecksumContents(env, contents);
    var manifest := Manifest(SCHEMA_VERSION, revision.id, revision.version, revision.createdAt, checksum, contents);
    r := Some(Bundle(revision, files + [File(MANIFEST, env.encode(manifest))], manifest));
    AssembledPacks(env, revision, flat);
  }

  /** The loop over the sorted artifacts. */
  method Collect(env: Env, sorted: seq<Artifact>) returns (r: Option<(seq<Entry>, seq<File>)>)
    ensures r.Some? <==> DistinctArtifacts(sorted) && forall a <- sorted :: !env.blank(a.path) && !env.blank(a.checksum)
    ensures r.Some? ==> r.value == (EntriesOf(sorted), FilesOf(sorted))
  {
    hide EntriesOf, FilesOf;
    var seen: set<string> := {};
    var contents: seq<Entry> := [];
    var files: seq<File> := [];
    for i := 0 to |sorted|
      invariant seen == set a <- sorted[..i] :: a.path
      invariant DistinctArtifacts(sorted[..i])
      invariant forall a <- sorted[..i] :: !env.blank(a.path) && !env.blank(a.checksum)
      invariant |contents| == |files| == i
      invariant forall k :: 0 <= k < i ==> contents[k] == Entry(sorted[k].path, sorted[k].kind, sorted[k].checksum)
      invariant forall k :: 0 <= k < i ==> files[k] == File(sorted[k].path, sorted[k].content)
    {
      var artifact := sorted[i];
      assert sorted[..i + 1] == sorted[..i] + [artifact];
      if env.blank(artifact.path) { return None; }
      if artifact.path in seen {
        var k :| 0 <= k < i && sorted[k].path == artifact.path;
        return None;
      }
      seen := seen + {artifact.path};
      if env.blank(artifact.checksum) { return None; }
      contents := contents + [Entry(artifact.path, artifact.kind, artifact.checksum)];
      files := files + [File(artifact.path, artifact.content)];
    }
    assert sorted[..|sorted|] == sorted;
    assert contents == EntriesOf(sorted) && files == FilesOf(sorted);
    r := Some((contents, files));
  }

  /** Reordering or regrouping the artifacts yields the identical bundle, or the same refusal. */
  lemma AssemblyIgnoresOrder(env: Env, revision: Revision, flat: seq<Artifact>, flat': seq<Artifact>)
    requires multiset(flat) == multiset(flat')
    ensures Acceptable(env, revision, flat) <==> Acceptable(env, revision, flat')
    ensures Acceptable(env, revision, flat)
            ==> Assembled(env, revision, SortBy(flat, ByArtifactPath()))
                == Assembled(env, revision, SortBy(flat', ByArtifactPath()))
  {
    PermutationMembers(flat, flat');
    assert |multiset(flat)| == |flat| && |multiset(flat')| == |flat'|;
    if DistinctArtifacts(flat') { DistinctPermute(flat', flat); }
    if DistinctArtifacts(flat) {
      DistinctPermute(flat, flat');
      PathOrders();
      var a, b := SortBy(flat, ByArtifactPath()), SortBy(flat', ByArtifactPath());
      SortBySorted(flat, ByArtifactPath());
      SortBySorted(flat', ByArtifactPath());
      DistinctPermute(flat, a);
      DistinctIsSeparated(a);
      SortedIsUnique(a, b, ByArtifactPath());
    }
  }

  // ---- Validating ------------------------------------------------------------------------------------

  ghost predicate FilesSound(env: Env, files: seq<File>) {
    && DistinctFiles(files)
    && forall f <- files :: !env.blank(f.path) && env.safePath(f.path)
  }

  ghost predicate Carries(env: Env, files: seq<File>, m: Manifest) {
    exists f <- files :: f.path == MANIFEST && env.decode(f.content) == Some(m)
  }

  ghost predicate Present(env: Env, files: seq<File>, e: Entry) {
    exists f <- files :: f.path == e.path && env.digest(f.content) == e.checksum
  }

  ghost predicate Declared(contents: seq<Entry>, path: string) {
    exists e <- contents :: e.path == path
  }

  predicate HeaderSound(env: Env, m: Manifest) {
    && m.schemaVersion == SCHEMA_VERSION
    && !env.blank(m.revisionID) && m.revisionVersion > 0 && !env.blank(m.createdAt)
    && !env.blank(m.bundleChecksum)
    && m.contents != []
  }

  predicate EntrySound(env: Env, e: Entry) {
    !env.blank(e.path) && env.safePath(e.path) && !env.blank(e.checksum)
  }

  /** The manifest describes the files exactly. */
  ghost predicate Describes(env: Env, m: Manifest, files: seq<File>) {
    && HeaderSound(env, m)
    && DistinctEntries(m.contents)
    && (forall e <- m.contents :: EntrySound(env, e) && Present(env, files, e))
    && (forall f <- files :: f.path == MANIFEST || Declared(m.contents, f.path))
    && env.digest(Frame(SortBy(m.contents, ByEntryPath()))) == m.bundleChecksum
  }

  ghost predicate Valid(env: Env, b: Bundle) {
    && FilesSound(env, b.files)
    && env.safeID(b.revision.id)
    && exists m :: Carries(env, b.files, m) && Describes(env, m, b.files)
  }

  /** fileByPath holds exactly the files. */
  ghost predicate Indexes(fileByPath: map<string, Bytes>, files: seq<File>) {
    && (forall f <- files :: f.path in fileByPath && fileByPath[f.path] == f.content)
    && (forall path <- fileByPath :: File(path, fileByPath[path]) in files)
  }

  method IndexFiles(env: Env, files: seq<File>) returns (r: Option<map<string, Bytes>>)
    ensures r.Some? <==> FilesSound(env, files)
    ensures r.Some? ==> Indexes(r.value, files)
  {
    var fileByPath: map<string, Bytes> := map[];
    for i := 0 to |files|
      invariant FilesSound(env, files[..i]) && Indexes(fileByPath, files[..i])
    {
      var file := files[i];
      assert files[..i + 1] == files[..i] + [file];
      if env.blank(file.path) || !env.safePath(file.path) { return None; }
      if file.path in fileByPath {
        assert File(file.path, fileByPath[file.path]) in files[..i];
        var k :| 0 <= k < i && files[k].path == file.path;
        return None;
      }
      fileByPath := fileByPath[file.path := file.content];
    }
    assert files[..|files|] == files;
    r := Some(fileByPath);
  }

  ghost predicate EntriesSound(env: Env, contents: seq<Entry>, fileByPath: map<string, Bytes>) {
    && DistinctEntries(contents)
    && forall e <- contents ::
         EntrySound(env, e) && e.path in fileByPath && env.digest(fileByPath[e.path]) == e.checksum
  }

  method CheckEntries(env: Env, contents: seq<Entry>, fileByPath: map<string, Bytes>)
    returns (r: Option<set<string>>)
    ensures r.Some? <==> EntriesSound(env, contents, fileByPath)
    ensures r.Some? ==> forall path :: path in r.value <==> Declared(contents, path)
  {
    var seen: set<string> := {};
    for i := 0 to |contents|
      invariant EntriesSound(env, contents[..i], fileByPath)
      invariant forall path :: path in seen <==> Declared(contents[..i], path)
    {
      var entry := contents[i];
      assert contents[..i + 1] == contents[..i] + [entry];
      if env.blank(entry.path) || !env.safePath(entry.path) { return None; }
      if entry.path in seen {
        assert Declared(contents[..i], entry.path);
        var k :| 0 <= k < i && contents[k].path == entry.path;
        return None;
      }
      seen := seen + {entry.path};
      if env.blank(entry.checksum) { return None; }
      if entry.path !in fileByPath { return None; }
      if env.digest(fileByPath[entry.path]) != entry.checksum { return None; }
    }
    assert contents[..|contents|] == contents;
    r := Some(seen);
  }

  method CheckDeclared(fileByPath: map<string, Bytes>, seen: set<string>) returns (ok: bool)
    ensures ok <==> forall path <- fileByPath :: path == MANIFEST || path in seen
  {
    var left := fileByPath.Keys;
    while left != {}
      invariant left <= fileByPath.Keys
      invariant forall path <- fileByPath.Keys - left :: path == MANIFEST || path in seen
      decreases |left|
    {
      var path :| path in left;
      left := left - {path};
      if path != MANIFEST && path !in seen { return false; }
    }
    return true;
  }

  lemma DistinctEntriesPermute(a: seq<Entry>, b: seq<Entry>)
    requires multiset(a) == multiset(b) && DistinctEntries(a)
    ensures DistinctEntries(b)
  {
    NoRepeatsPermute(a, b);
    PermutationMembers(a, b);
    forall i, j | 0 <= i < j < |b| ensures b[i].path != b[j].path {
      assert b[i] in a && b[j] in a && b[i] != b[j];
      var m :| 0 <= m < |a| && a[m] == b[i];
      var n :| 0 <= n < |a| && a[n] == b[j];
    }
  }

  lemma CarriesOne(env: Env, files: seq<File>, fileByPath: map<string, Bytes>, m: Manifest)
    requires Indexes(fileByPath, files)
    ensures Carries(env, files, m) <==> MANIFEST in fileByPath && env.decode(fileByPath[MANIFEST]) == Some(m)
  {
    if MANIFEST in fileByPath { assert File(MANIFEST, fileByPath[MANIFEST]) in files; }
  }

  lemma PresentMeans(env: Env, files: seq<File>, fileByPath: map<string, Bytes>, e: Entry)
    requires Indexes(fileByPath, files)
    ensures Present(env, files, e) <==> e.path in fileByPath && env.digest(fileByPath[e.path]) == e.checksum
  {
    if e.path in fileByPath { assert File(e.path, fileByPath[e.path]) in files; }
  }

  lemma EntriesMean(env: Env, files: seq<File>, fileByPath: map<string, Bytes>, contents: seq<Entry>, sorted: seq<Entry>)
    requires Indexes(fileByPath, files) && multiset(contents) == multiset(sorted)
    ensures EntriesSound(env, sorted, fileByPath)
            <==> DistinctEntries(contents) && forall e <- contents :: EntrySound(env, e) && Present(env, files, e)
    ensures forall path :: Declared(contents, path) <==> Declared(sorted, path)
  {
    PermutationMembers(contents, sorted);
    if DistinctEntries(contents) { DistinctEntriesPermute(contents, sorted); }
    if DistinctEntries(sorted) { DistinctEntriesPermute(sorted, contents); }
    forall e ensures Present(env, files, e) <==> e.path in fileByPath && env.digest(fileByPath[e.path]) == e.checksum {
      PresentMeans(env, files, fileByPath, e);
    }
  }

  lemma DeclaredMeans(files: seq<File>, fileByPath: map<string, Bytes>, contents: seq<Entry>)
    requires Indexes(fileByPath, files)
    ensures (forall f <- files :: f.path == MANIFEST || Declared(contents, f.path))
            <==> forall path <- fileByPath :: path == MANIFEST || Declared(contents, path)
  {
    if forall f <- files :: f.path == MANIFEST || Declared(contents, f.path) {
      forall path | path in fileByPath ensures path == MANIFEST || Declared(contents, path) {
        assert File(path, fileByPath[path]).path == path;
      }
    }
  }

  /** ValidateRevisionBundle */
  method ValidateRevisionBundle(env: Env, b: Bundle) returns (ok: bool)
    ensures ok <==> Valid(env, b)
  {
    var indexed := IndexFiles(env, b.files);
    if indexed.None? { return false; }
    var fileByPath := indexed.value;
    forall m ensures Carries(env, b.files, m) <==> MANIFEST in fileByPath && env.decode(fileByPath[MANIFEST]) == Some(m) {
      CarriesOne(env, b.files, fileByPath, m);
    }
    if MANIFEST !in fileByPath { return false; }
    if !env.safeID(b.revision.id) { return false; }
    var decoded := env.decode(fileByPath[MANIFEST]);
    if decoded.None? { return false; }
    assert Carries(env, b.files, decoded.value);
    ok := CheckManifest(env, decoded.value, fileByPath, b.files);
  }

  /** The part of validation that follows decoding the manifest. */
  method CheckManifest(env: Env, manifest: Manifest, fileByPath: map<string, Bytes>, ghost files: seq<File>)
    returns (ok: bool)
    requires Indexes(fileByPath, files)
    ensures ok <==> Describes(env, manifest, files)
  {
    if manifest.schemaVersion != SCHEMA_VERSION { return false; }
    if env.blank(manifest.revisionID) { return false; }
    if manifest.revisionVersion <= 0 { return false; }
    if env.blank(manifest.createdAt) { return false; }
    if env.blank(manifest.bundleChecksum) { return false; }
    if |manifest.contents| == 0 { return false; }
    var contents := SortBy(manifest.contents, ByEntryPath());
    EntriesMean(env, files, fileByPath, manifest.contents, contents);
    DeclaredMeans(files, fileByPath, manifest.contents);
    var checked := CheckEntries(env, contents, fileByPath);
    if checked.None? { return false; }
    var declared := CheckDeclared(fileByPath, checked.value);
    if !declared { return false; }
    var checksum := ChecksumContents(env, contents);
    return checksum == manifest.bundleChecksum;
  }

  // ---- What validation means -------------------------------------------------------------------------

  /** An artifact AssembleRevisionBundle takes but whose bundle will not validate. */
  predicate Genuine(env: Env, a: Artifact) {
    env.safePath(a.path) && a.path != MANIFEST && a.checksum == env.digest(a.content)
  }

  lemma SortedEntriesStay(sorted: seq<Artifact>)
    requires Sorted(sorted, ByArtifactPath()) && DistinctArtifacts(sorted)
    ensures SortBy(EntriesOf(sorted), ByEntryPath()) == EntriesOf(sorted) && DistinctEntries(EntriesOf(sorted))
  {
    var entries := EntriesOf(sorted);
    assert Sorted(entries, ByEntryPath()) by {
      forall i, j | 0 <= i < j < |entries| ensures !ByEntryPath()(entries[j], entries[i]) {
        assert !ByArtifactPath()(sorted[j], sorted[i]);
      }
    }
    PathOrders();
    SortBySorted(entries, ByEntryPath());
    DistinctEntriesAreSeparated(entries);
    SortedIsUnique(entries, SortBy(entries, ByEntryPath()), ByEntryPath());
  }

  lemma GenuineFilesSound(env: Env, sorted: seq<Artifact>, manifest: File)
    requires Lawful(env) && DistinctArtifacts(sorted) && manifest.path == MANIFEST
    requires forall a <- sorted :: Genuine(env, a)
    ensures FilesSound(env, FilesOf(sorted) + [manifest])
  {
    var files := FilesOf(sorted) + [manifest];
    var n := |sorted|;
    forall i | 0 <= i <= n ensures env.safePath(files[i].path) && (i < n ==> files[i].path != MANIFEST) {
      if i < n { assert Genuine(env, sorted[i]); }
    }
  }

  lemma GenuineEntries(env: Env, sorted: seq<Artifact>, manifest: File, contents: seq<Entry>)
    requires Lawful(env) && contents == EntriesOf(sorted)
    requires forall a <- sorted :: Genuine(env, a) && !env.blank(a.checksum)
    ensures forall e <- contents :: EntrySound(env, e) && Present(env, FilesOf(sorted) + [manifest], e)
  {
    var files := FilesOf(sorted) + [manifest];
    forall e | e in contents ensures EntrySound(env, e) && Present(env, files, e) {
      var i :| 0 <= i < |sorted| && contents[i] == e;
      assert Genuine(env, sorted[i]) && files[i] == File(sorted[i].path, sorted[i].content) && files[i] in files;
    }
  }

  lemma GenuineDeclared(sorted: seq<Artifact>, manifest: File, contents: seq<Entry>)
    requires manifest.path == MANIFEST && contents == EntriesOf(sorted)
    ensures forall f <- FilesOf(sorted) + [manifest] :: f.path == MANIFEST || Declared(contents, f.path)
  {
    var files := FilesOf(sorted) + [manifest];
    forall f | f in files ensures f.path == MANIFEST || Declared(contents, f.path) {
      var i :| 0 <= i <= |sorted| && files[i] == f;
      if i < |sorted| { assert contents[i] in contents && contents[i].path == f.path; }
    }
  }

  lemma GenuineDescribed(env: Env, revision: Revision, sorted: seq<Artifact>)
    requires Lawful(env) && Acceptable(env, revision, sorted) && Sorted(sorted, ByArtifactPath())
    requires forall a <- sorted :: Genuine(env, a)
    ensures var b := Assembled(env, revision, sorted);
            FilesSound(env, b.files) && Carries(env, b.files, b.manifest) && Describes(env, b.manifest, b.files)
  {
    var b := Assembled(env, revision, sorted);
    var manifest := File(MANIFEST, env.encode(b.manifest));
    SortedEntriesStay(sorted);
    assert manifest in b.files;
    GenuineFilesSound(env, sorted, manifest);
    GenuineEntries(env, sorted, manifest, b.manifest.contents);
    GenuineDeclared(sorted, manifest, b.manifest.contents);
  }

  /** The only manifest an assembled bundle carries is its own. */
  lemma CarriesOwn(env: Env, revision: Revision, sorted: seq<Artifact>, m: Manifest)
    requires Lawful(env)
    requires var b := Assembled(env, revision, sorted); FilesSound(env, b.files) && Carries(env, b.files, m)
    ensures m == Assembled(env, revision, sorted).manifest
  {
    hide Frame;
    var b := Assembled(env, revision, sorted);
    assert b.files[|sorted|] == File(MANIFEST, env.encode(b.manifest));
  }

  lemma DescribedGenuine(env: Env, revision: Revision, sorted: seq<Artifact>, m: Manifest, i: nat)
    requires Lawful(env) && i < |sorted|
    requires var b := Assembled(env, revision, sorted);
             FilesSound(env, b.files) && Carries(env, b.files, m) && Describes(env, m, b.files)
    ensures Genuine(env, sorted[i])
  {
    CarriesOwn(env, revision, sorted, m);
    hide Frame, SortBy, Carries, LawfulLibrary, HeaderSound;
    var b := Assembled(env, revision, sorted);
    var n := |sorted|;
    assert b.files[n] == File(MANIFEST, env.encode(b.manifest));
    var e := m.contents[i];
    assert e in m.contents && Present(env, b.files, e);
    var k :| 0 <= k <= n && b.files[k].path == e.path && env.digest(b.files[k].content) == e.checksum;
    assert b.files[i] == File(sorted[i].path, sorted[i].content) && b.files[i] in b.files;
  }

  lemma ValidMeansGenuine(env: Env, revision: Revision, sorted: seq<Artifact>)
    requires Lawful(env) && Valid(env, Assembled(env, revision, sorted))
    ensures forall a <- sorted :: Genuine(env, a)
  {
    var b := Assembled(env, revision, sorted);
    var m :| Carries(env, b.files, m) && Describes(env, m, b.files);
    forall a | a in sorted ensures Genuine(env, a) {
      var i :| 0 <= i < |sorted| && sorted[i] == a;
      DescribedGenuine(env, revision, sorted, m, i);
    }
  }

  lemma SortedAcceptable(env: Env, revision: Revision, flat: seq<Artifact>, sorted: seq<Artifact>)
    requires multiset(flat) == multiset(sorted) && Acceptable(env, revision, flat)
    ensures Acceptable(env, revision, sorted) && forall a :: a in flat <==> a in sorted
  {
    PermutationMembers(flat, sorted);
    DistinctPermute(flat, sorted);
    assert flat[0] in sorted;
  }

  /** Assemble then validate: what was assembled validates exactly when the revision id is safe, every
      artifact path is safe and not the manifest's, and every checksum is true. */
  lemma AssembledValidates(env: Env, revision: Revision, flat: seq<Artifact>)
    requires Lawful(env) && Acceptable(env, revision, flat)
    ensures Valid(env, Assembled(env, revision, SortBy(flat, ByArtifactPath())))
            <==> env.safeID(revision.id) && forall a <- flat :: Genuine(env, a)
  {
    var sorted := SortBy(flat, ByArtifactPath());
    PathOrders();
    SortBySorted(flat, ByArtifactPath());
    SortedAcceptable(env, revision, flat, sorted);
    if forall a <- flat :: Genuine(env, a) { GenuineDescribed(env, revision, sorted); }
    if Valid(env, Assembled(env, revision, sorted)) { ValidMeansGenuine(env, revision, sorted); }
  }

  predicate NulFreeNames(m: Manifest) {
    forall e <- m.contents :: NUL !in e.path && NUL !in e.kind
  }

  lemma SameChecksumSameContents(env: Env, a: seq<File>, m: Manifest, b: seq<File>, n: Manifest)
    requires Lawful(env) && Describes(env, m, a) && Describes(env, n, b)
    requires m.bundleChecksum == n.bundleChecksum && NulFreeNames(m) && NulFreeNames(n)
    ensures forall e :: e in m.contents <==> e in n.contents
  {
    var c, d := SortBy(m.contents, ByEntryPath()), SortBy(n.contents, ByEntryPath());
    PermutationMembers(m.contents, c);
    PermutationMembers(n.contents, d);
    forall e | e in c ensures NulFree(e) { assert Present(env, a, e); }
    forall e | e in d ensures NulFree(e) { assert Present(env, b, e); }
    FrameInjective(c, d);
  }

  /** The bundle checksum pins the bundle: two valid bundles whose manifests carry the same one have the
      same files, the manifests aside. */
  lemma ChecksumPinsFiles(env: Env, a: Bundle, m: Manifest, b: Bundle, n: Manifest, f: File)
    requires Lawful(env) && FilesSound(env, a.files) && FilesSound(env, b.files)
    requires Carries(env, a.files, m) && Describes(env, m, a.files)
    requires Carries(env, b.files, n) && Describes(env, n, b.files)
    requires m.bundleChecksum == n.bundleChecksum && NulFreeNames(m) && NulFreeNames(n)
    requires f.path != MANIFEST
    ensures f in a.files <==> f in b.files
  {
    SameChecksumSameContents(env, a.files, m, b.files, n);
    if f in a.files { FileCarriesOver(env, a.files, m, b.files, n, f); }
    if f in b.files { FileCarriesOver(env, b.files, n, a.files, m, f); }
  }

  lemma FileCarriesOver(env: Env, a: seq<File>, m: Manifest, b: seq<File>, n: Manifest, f: File)
    requires Lawful(env) && FilesSound(env, a) && Describes(env, m, a) && Describes(env, n, b)
    requires forall e :: e in m.contents <==> e in n.contents
    requires f.path != MANIFEST && f in a
    ensures f in b
  {
    var e :| e in m.contents && e.path == f.path;
    assert Present(env, a, e) && Present(env, b, e);
    var g :| g in a && g.path == e.path && env.digest(g.content) == e.checksum;
    var i :| 0 <= i < |a| && a[i] == f;
    var j :| 0 <= j < |a| && a[j] == g;
    assert f == g;
    var h :| h in b && h.path == e.path && env.digest(h.content) == e.checksum;
    assert h == f;
  }

  lemma AcceptableWhenGenuine(env: Env, revision: Revision, flat: seq<Artifact>)
    requires Lawful(env) && flat != [] && DistinctArtifacts(flat) && forall a <- flat :: Genuine(env, a)
    requires !env.blank(revision.id) && revision.version > 0 && !env.blank(revision.createdAt)
    ensures Acceptable(env, revision, flat)
  {
  }

  lemma AssembledHas(env: Env, revision: Revision, flat: seq<Artifact>, a: Artifact)
    requires a in flat
    ensures File(a.path, a.content) in Assembled(env, revision, SortBy(flat, ByArtifactPath())).files
  {
    hide SortBy, ManifestOf;
    var sorted := SortBy(flat, ByArtifactPath());
    PermutationMembers(flat, sorted);
    var i :| 0 <= i < |sorted| && sorted[i] == a;
    assert Assembled(env, revision, sorted).files[i] == File(a.path, a.content);
  }

  lemma AssembledCarries(env: Env, revision: Revision, sorted: seq<Artifact>)
    requires Lawful(env)
    ensures var b := Assembled(env, revision, sorted); Carries(env, b.files, b.manifest)
  {
    var b := Assembled(env, revision, sorted);
    assert b.files[|sorted|] == File(MANIFEST, env.encode(b.manifest));
  }

  /** Two genuine artifacts make a bundle that validates. */
  lemma TwoFilesValidate(env: Env, revision: Revision, one: Artifact, two: Artifact) returns (b: Bundle)
    requires Lawful(env) && env.safeID(revision.id)
    requires !env.blank(revision.id) && revision.version > 0 && !env.blank(revision.createdAt)
    requires Genuine(env, one) && Genuine(env, two) && one.path != two.path
    ensures b == Assembled(env, revision, SortBy([one, two], ByArtifactPath())) && Valid(env, b)
    ensures File(one.path, one.content) in b.files && File(two.path, two.content) in b.files
  {
    var flat := [one, two];
    AcceptableWhenGenuine(env, revision, flat);
    AssembledValidates(env, revision, flat);
    AssembledHas(env, revision, flat, one);
    AssembledHas(env, revision, flat, two);
    b := Assembled(env, revision, SortBy(flat, ByArtifactPath()));
  }

  lemma OneFileValidates(env: Env, revision: Revision, one: Artifact) returns (b: Bundle)
    requires Lawful(env) && env.safeID(revision.id) && Genuine(env, one)
    requires !env.blank(revision.id) && revision.version > 0 && !env.blank(revision.createdAt)
    ensures b == Assembled(env, revision, [one]) && Valid(env, b)
    ensures forall f <- b.files :: f.path == one.path || f.path == MANIFEST
  {
    AcceptableWhenGenuine(env, revision, [one]);
    AssembledValidates(env, revision, [one]);
    assert SortBy([one], ByArtifactPath()) == [one];
    b := Assembled(env, revision, [one]);
  }

  lemma SortsAsGiven(one: Artifact, two: Artifact)
    requires Less(one.path, two.path)
    ensures SortBy([one, two], ByArtifactPath()) == [one, two]
  {
    assert [one, two][1..] == [two] && [two][1..] == [];
    assert SortBy([two], ByArtifactPath()) == [two];
  }

  /** So the checksum pins nothing once a kind may hold NUL bytes: for any two safe paths there are two
      bundles that validate with one bundle checksum, and only one has the second file. */
  lemma NulSharesChecksum(env: Env, revision: Revision, p: string, x: Bytes, k: string, q: string, y: Bytes, l: string)
    returns (a: Bundle, b: Bundle)
    requires Lawful(env) && env.safeID(revision.id)
    requires !env.blank(revision.id) && revision.version > 0 && !env.blank(revision.createdAt)
    requires env.safePath(p) && p != MANIFEST && env.safePath(q) && q != MANIFEST && Less(p, q)
    ensures Valid(env, a) && Carries(env, a.files, a.manifest)
    ensures Valid(env, b) && Carries(env, b.files, b.manifest)
    ensures a.manifest.bundleChecksum == b.manifest.bundleChecksum
    ensures File(q, y) in a.files && File(q, y) !in b.files
  {
    var one, two := Artifact(p, k, x, env.digest(x)), Artifact(q, l, y, env.digest(y));
    var long := Artifact(p, k + [NUL] + q + [NUL] + env.digest(y) + [NUL] + l, x, env.digest(x));
    LessIsTotal(p, q);
    a := TwoFilesValidate(env, revision, one, two);
    b := OneFileValidates(env, revision, long);
    SortsAsGiven(one, two);
    AssembledCarries(env, revision, [one, two]);
    AssembledCarries(env, revision, [long]);
    NulMakesFramingAmbiguous(p, one.checksum, k, q, two.checksum, l);
    SameFrames(one, two, long);
  }

  lemma SameFrames(one: Artifact, two: Artifact, long: Artifact)
    requires var e, f, g := EntryOf(one), EntryOf(two), EntryOf(long); Frame([e, f]) == Frame([g])
    ensures Frame(EntriesOf([one, two])) == Frame(EntriesOf([long]))
  {
    assert EntriesOf([one, two]) == [EntryOf(one), EntryOf(two)] && EntriesOf([long]) == [EntryOf(long)];
  }
}
