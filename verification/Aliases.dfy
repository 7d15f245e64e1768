/** Bundles that validate and cannot be staged: one file under two names, and a file where another one needs
    a directory. */
module Aliases {
  import opened Text
  import opened Ordering
  import opened Paths
  import opened Bundles
  import opened Disks
  import opened Lifecycle

  lemma DotSlashSplits(name: string)
    requires OneElement(name)
    ensures Split("./" + name, '/') == [".", name]
  {
    SlashSplits("/" + name, name);
    assert "./" + name == "." + ("/" + name);
    SplitLead(".", "/" + name);
    assert "." + "" == ".";
  }

  lemma SlashSplits(path: string, name: string)
    requires path == "/" + name && Split(name, '/') == [name]
    ensures Split(path, '/') == ["", name]
  {
    assert path[0] == '/' && path[1..] == name;
    assert [""] + [name] == ["", name];
  }

  lemma DotWalks(rooted: bool, stack: Elements, name: string)
    requires Normal(name)
    ensures Walk(rooted, stack, [".", name]) == stack + [name] == Walk(rooted, stack, [name])
  {
    assert [".", name][1..] == [name];
    WalkNormal(rooted, stack, [name]);
  }

  lemma SafeInSteps(path: string, parts: Elements, name: string)
    requires Trim(path) == path && path != "" && path[0] != '/' && '\\' !in path
    requires Split(path, '/') == parts && Normal(name) && [name] <= Walk(false, [], parts)
    ensures IsSafeBundlePath(path)
  {
  }

  lemma DotSlashTrims(path: string, name: string)
    requires path == "./" + name && Trimmed(name) && name != ""
    ensures Trim(path) == path && path[0] != '/'
  {
    assert path[0] == '.' && path[|path| - 1] == name[|name| - 1];
    TrimFixes(path);
  }

  lemma DotSlashIsSafe(path: string, name: string)
    requires path == "./" + name && OneElement(name) && Trimmed(name) && '\\' !in name
    ensures IsSafeBundlePath(path)
  {
    hide Split, Walk, Trim, IsSafeBundlePath;
    DotSlashTrims(path, name);
    DotSlashSplits(name);
    DotWalks(false, [], name);
    SafeInSteps(path, [".", name], name);
  }

  lemma BothAreSafe(env: Env, name: string)
    requires Standard(env) && OneElement(name) && Trimmed(name) && '\\' !in name
    ensures env.safePath(name) && env.safePath("./" + name)
  {
    hide Split, Walk, IsSafeBundlePath;
    assert name in Split(name, '/');
    PlainNameIsSafe(name);
    DotSlashIsSafe("./" + name, name);
  }

  lemma DotSlashLocation(base: Elements, name: string)
    requires OneElement(name)
    ensures Location(base, "./" + name) == Location(base, name)
  {
    DotSlashSplits(name);
    DotWalks(true, base, name);
  }

  lemma AliasesClash(site: Site, b: Bundle, p: string, q: string, x: Bytes, y: Bytes)
    requires Location(Base(site, b.revision.id), p) == Location(Base(site, b.revision.id), q)
    requires x != y && File(p, x) in b.files && File(q, y) in b.files
    ensures !AliasesAgree(PlacedFiles(site, b))
  {
    var sorted, placed := SortBy(b.files, ByFilePath()), PlacedFiles(site, b);
    PermutationMembers(b.files, sorted);
    var i :| 0 <= i < |sorted| && sorted[i] == File(p, x);
    var j :| 0 <= j < |sorted| && sorted[j] == File(q, y);
    assert placed[i] in placed && placed[j] in placed && placed[i].at == placed[j].at;
  }

  lemma BothValidate(env: Env, revision: Revision, p: string, q: string, kind: string, x: Bytes, y: Bytes)
    returns (b: Bundle)
    requires Lawful(env) && env.safeID(revision.id)
    requires !env.blank(revision.id) && revision.version > 0 && !env.blank(revision.createdAt)
    requires env.safePath(p) && env.safePath(q) && p != q && p != MANIFEST && q != MANIFEST
    ensures Valid(env, b) && File(p, x) in b.files && File(q, y) in b.files
  {
    b := TwoFilesValidate(env, revision, Artifact(p, kind, x, env.digest(x)), Artifact(q, kind, y, env.digest(y)));
  }

  /** For every plain name there is a bundle that validates and has files `name` and `./name` with whatever
      contents: distinct safe paths of one place. */
  lemma DotSlashValidates(env: Env, revision: Revision, name: string, kind: string, x: Bytes, y: Bytes)
    returns (b: Bundle)
    requires Standard(env) && LawfulLibrary(env)
    requires env.safeID(revision.id) && !env.blank(revision.id) && revision.version > 0 && !env.blank(revision.createdAt)
    requires OneElement(name) && Trimmed(name) && '\\' !in name && name != MANIFEST
    ensures Valid(env, b) && File(name, x) in b.files && File("./" + name, y) in b.files
  {
    StandardIsLawful(env);
    BothAreSafe(env, name);
    DotSlashIsNotManifest(name);
    b := BothValidate(env, revision, name, "./" + name, kind, x, y);
  }

  lemma DotSlashIsNotManifest(name: string)
    ensures "./" + name != MANIFEST && "./" + name != name
  {
    assert ("./" + name)[0] == '.' && MANIFEST[0] == 'm';
    assert |"./" + name| == |name| + 2;
  }

  /** No disk holds such a bundle, and none is found to match it: every Stage of it writes it anew, even
      successfully, and leaves something else. */
  lemma DotSlashNeverHolds(site: Site, b: Bundle, name: string, x: Bytes, y: Bytes, s: Disk)
    requires OneElement(name) && x != y
    requires File(name, x) in b.files && File("./" + name, y) in b.files
    ensures !Holds(s.files, Base(site, b.revision.id), PlacedFiles(site, b))
    ensures !Settled(s, Base(site, b.revision.id), PlacedFiles(site, b))
  {
    DotSlashLocation(Base(site, b.revision.id), name);
    AliasesClash(site, b, name, "./" + name, x, y);
  }

  // ---- A file in the way of another ------------------------------------------------------------------

  lemma NestedSplits(name: string, inner: string)
    requires OneElement(name) && OneElement(inner)
    ensures Split(name + "/" + inner, '/') == [name, inner]
  {
    SlashSplits("/" + inner, inner);
    assert name in Split(name, '/') && name + "/" + inner == name + ("/" + inner);
    SplitLead(name, "/" + inner);
    assert name + "" == name;
  }

  lemma NestedWalks(rooted: bool, stack: Elements, name: string, inner: string)
    requires Normal(name) && Normal(inner)
    ensures Walk(rooted, stack, [name, inner]) == stack + [name, inner]
  {
    WalkNormal(rooted, stack, [name, inner]);
  }

  lemma NestedIsSafe(path: string, name: string, inner: string)
    requires path == name + "/" + inner && OneElement(name) && OneElement(inner) && Trimmed(name) && Trimmed(inner)
    requires '\\' !in name && '\\' !in inner
    ensures IsSafeBundlePath(path)
  {
    hide Split, Walk, Trim, IsSafeBundlePath;
    assert name in Split(name, '/');
    assert path[0] == name[0] && path[|path| - 1] == inner[|inner| - 1] && name[0] in name;
    TrimFixes(path);
    NestedSplits(name, inner);
    NestedWalks(false, [], name, inner);
    SafeInSteps(path, [name, inner], name);
  }

  /** For every two plain names there is a bundle that validates and has files `name` and `name/inner`. */
  lemma NestedValidates(env: Env, revision: Revision, name: string, inner: string, kind: string, x: Bytes, y: Bytes)
    returns (b: Bundle)
    requires Standard(env) && LawfulLibrary(env)
    requires env.safeID(revision.id) && !env.blank(revision.id) && revision.version > 0 && !env.blank(revision.createdAt)
    requires OneElement(name) && OneElement(inner) && Trimmed(name) && Trimmed(inner)
    requires '\\' !in name && '\\' !in inner && name != MANIFEST
    ensures Valid(env, b) && File(name, x) in b.files && File(name + "/" + inner, y) in b.files
  {
    StandardIsLawful(env);
    NestedAreSafe(env, name, inner);
    b := BothValidate(env, revision, name, name + "/" + inner, kind, x, y);
  }

  lemma NestedAreSafe(env: Env, name: string, inner: string)
    requires Standard(env) && OneElement(name) && OneElement(inner) && Trimmed(name) && Trimmed(inner)
    requires '\\' !in name && '\\' !in inner
    ensures env.safePath(name) && env.safePath(name + "/" + inner)
    ensures name + "/" + inner != MANIFEST && name + "/" + inner != name
  {
    hide Split, Walk, IsSafeBundlePath;
    assert name in Split(name, '/');
    PlainNameIsSafe(name);
    NestedIsSafe(name + "/" + inner, name, inner);
    assert (name + "/" + inner)[|name|] == '/' && '/' !in MANIFEST;
    assert |name + "/" + inner| > |name|;
  }

  /** No Stage writes such a bundle, whatever the disk: where one succeeds it found everything in place. */
  lemma NestedNeverStages(env: Env, site: Site, b: Bundle, name: string, inner: string, x: Bytes, y: Bytes,
                          s: Disk, t: Disk, trouble: bool, blind: bool)
    requires OneElement(name) && OneElement(inner)
    requires File(name, x) in b.files && File(name + "/" + inner, y) in b.files
    requires StageStep(env, site, s, t, b, trouble, blind, true)
    ensures Settled(s, Base(site, b.revision.id), PlacedFiles(site, b))
  {
    hide Split, Walk, PlacedFiles, Rewritten, OnlyLeading, SameOutside;
    var base := Base(site, b.revision.id);
    SplitSingleName(base, name);
    NestedSplits(name, inner);
    NestedWalks(true, base, name, inner);
    assert base + [name] < base + [name, inner];
    FilesClash(site, b, File(name, x), File(name + "/" + inner, y));
  }

  lemma SplitSingleName(base: Elements, name: string)
    requires OneElement(name)
    ensures Location(base, name) == base + [name]
  {
    WalkNormal(true, base, [name]);
  }

  lemma FilesClash(site: Site, b: Bundle, f: File, g: File)
    requires f in b.files && g in b.files
    requires Location(Base(site, b.revision.id), f.path) < Location(Base(site, b.revision.id), g.path)
    ensures !NoClash(PlacedFiles(site, b))
  {
    var sorted, placed := SortBy(b.files, ByFilePath()), PlacedFiles(site, b);
    PermutationMembers(b.files, sorted);
    var i :| 0 <= i < |sorted| && sorted[i] == f;
    var j :| 0 <= j < |sorted| && sorted[j] == g;
    assert placed[i] in placed && placed[j] in placed;
  }
}
