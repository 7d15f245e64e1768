/** The part of the file system the bundle lifecycle works on, and what staging, activating and rolling
    back may do to it. A location is the list of elements of its absolute path. */
module Disks {
  import opened Basics
  import opened Text
  import opened Ordering
  import opened Paths
  import opened Bundles

  /** The active reference; its path is None when the text stored for it is blank. */
  datatype Pointer = Pointer(revisionID: string, candidatePath: Option<Path>)

  /** Regular files, directories, and what active/current.json says. */
  datatype Disk = Disk(files: map<Elements, Bytes>, dirs: set<Elements>, active: Option<Pointer>)

  /** The configured root, cleaned, and the directory the process works in. */
  datatype Site = Site(root: Path, workdir: Elements)

  /** Where the operating system finds a path. */
  function Where(site: Site, p: Path): Elements {
    if p.rooted then p.elements else Walk(true, site.workdir, p.elements)
  }

  function Home(site: Site): Elements {
    Where(site, site.root)
  }

  function Base(site: Site, id: string): Elements {
    Home(site) + ["candidates", id]
  }

  /** candidates/<id> as Activate joins it, whatever the id. */
  function Spot(site: Site, id: string): Elements {
    Location(Location(Home(site), "candidates"), id)
  }

  function ActiveDirectory(site: Site): Elements {
    Home(site) + ["active"]
  }

  /** The file the new active reference is first written to. */
  function TempSpot(site: Site, id: string): Elements {
    Location(ActiveDirectory(site), ".current." + id + ".tmp")
  }

  function Parent(at: Elements): Elements {
    if at == [] then [] else at[..|at| - 1]
  }

  predicate Exists(s: Disk, at: Elements) {
    at in s.files || at in s.dirs
  }

  /** Nothing outside `base` changed, but for directories made on the way to it. */
  ghost predicate SameOutside(s: Disk, t: Disk, base: Elements) {
    && (forall k :: !(base <= k) ==> (k in s.files <==> k in t.files))
    && (forall k :: !(base <= k) && k in s.files && k in t.files ==> t.files[k] == s.files[k])
    && (forall k :: !(base <= k) && !(k <= base) ==> (k in s.dirs <==> k in t.dirs))
    && (forall k :: !(base <= k) && k in s.dirs ==> k in t.dirs)
  }

  /** The trees below `base` are byte for byte the same. */
  ghost predicate SameTree(s: Disk, t: Disk, base: Elements) {
    && (forall k :: base <= k ==> (k in s.files <==> k in t.files) && (k in s.dirs <==> k in t.dirs))
    && (forall k :: base <= k && k in s.files && k in t.files ==> t.files[k] == s.files[k])
  }

  lemma PrefixesCompare(k: Elements, base: Elements, at: Elements)
    requires k <= at && base <= at
    ensures k <= base || base <= k
  {
    assert k == at[..|k|] && base == at[..|base|];
  }

  lemma SameOutsideTrans(s: Disk, t: Disk, u: Disk, base: Elements)
    requires SameOutside(s, t, base) && SameOutside(t, u, base)
    ensures SameOutside(s, u, base)
  {
  }

  /** Two candidates are apart: what spares everything outside one spares the tree of the other. */
  lemma OtherCandidateSpared(site: Site, s: Disk, t: Disk, id: string, other: string)
    requires SameOutside(s, t, Base(site, id)) && other != id
    ensures SameTree(s, t, Base(site, other))
  {
    var n := |Home(site)|;
    forall k {:trigger k in t.files} {:trigger k in t.dirs} | Base(site, other) <= k
      ensures !(Base(site, id) <= k) && !(k <= Base(site, id)) {
      assert k[n + 1] == Base(site, other)[n + 1] == other && Base(site, id)[n + 1] == id;
    }
  }

  // ---- Bundle files in place -----------------------------------------------------------------------

  datatype Placed = Placed(at: Elements, content: Bytes)

  function Location(base: Elements, path: string): Elements {
    Walk(true, base, Split(path, '/'))
  }

  function Place(base: Elements, files: seq<File>): (placed: seq<Placed>)
    ensures |placed| == |files|
    ensures forall i :: 0 <= i < |files| ==> placed[i] == Placed(Location(base, files[i].path), files[i].content)
  {
    if files == [] then [] else [Placed(Location(base, files[0].path), files[0].content)] + Place(base, files[1..])
  }

  function ByFilePath(): (File, File) -> bool {
    (a: File, b: File) => Less(a.path, b.path)
  }

  /** The bundle's files where they belong, in the order they are written. */
  function PlacedFiles(site: Site, b: Bundle): seq<Placed> {
    Place(Base(site, b.revision.id), SortBy(b.files, ByFilePath()))
  }

  /** Writing one after another; a later file replaces an earlier one at the same place. */
  function WriteAll(files: map<Elements, Bytes>, placed: seq<Placed>): map<Elements, Bytes> {
    if placed == [] then files
    else
      var last := placed[|placed| - 1];
      WriteAll(files, placed[..|placed| - 1])[last.at := last.content]
  }

  /** Below base there is exactly what is placed. */
  ghost predicate Holds(files: map<Elements, Bytes>, base: Elements, placed: seq<Placed>) {
    && (forall k :: base <= k && k in files ==> exists p <- placed :: p.at == k)
    && (forall p <- placed :: p.at in files && files[p.at] == p.content)
  }

  function FilesBelow(files: map<Elements, Bytes>, base: Elements): set<Elements> {
    set k | k in files && base <= k
  }

  /** What candidateMatchesBundle looks at: as many files, and each of the bundle's among them. */
  ghost predicate Matches(files: map<Elements, Bytes>, base: Elements, placed: seq<Placed>) {
    && |FilesBelow(files, base)| == |placed|
    && forall p <- placed :: p.at in files && files[p.at] == p.content
  }

  ghost predicate AllInside(base: Elements, placed: seq<Placed>) {
    forall p <- placed :: base < p.at
  }

  /** No file of the bundle lies at or above another. */
  ghost predicate Independent(placed: seq<Placed>) {
    forall i, j :: 0 <= i < |placed| && 0 <= j < |placed| && i != j ==> !(placed[i].at <= placed[j].at)
  }

  /** No file of the bundle is where another one needs a directory. */
  ghost predicate NoClash(placed: seq<Placed>) {
    forall p, q :: p in placed && q in placed ==> !(p.at < q.at)
  }

  function Locations(placed: seq<Placed>): set<Elements> {
    set p <- placed :: p.at
  }

  lemma {:induction false} LocationsCount(placed: seq<Placed>)
    requires Independent(placed)
    ensures |Locations(placed)| == |placed|
  {
    if placed != [] {
      var n := |placed| - 1;
      var fewer := placed[..n];
      LocationsCount(fewer);
      LastIsFresh(placed, fewer, placed[n]);
    }
  }

  lemma LastIsFresh(placed: seq<Placed>, fewer: seq<Placed>, last: Placed)
    requires Independent(placed) && placed == fewer + [last]
    ensures |Locations(placed)| == |Locations(fewer)| + 1
  {
    forall i | 0 <= i < |fewer| ensures fewer[i].at != last.at {
      assert placed[i] == fewer[i] && placed[|fewer|] == last;
      assert !(placed[i].at <= placed[|fewer|].at);
    }
    assert Locations(placed) == Locations(fewer) + {last.at};
  }

  lemma SubsetSameSize(a: set<Elements>, b: set<Elements>)
    requires a <= b && |a| == |b|
    ensures a == b
  {
    assert b == a + (b - a);
    assert |b - a| == 0;
  }

  /** Counting the files and looking each one up decides whether the tree is the bundle's, if no two of the
      bundle's files share a place; if some do, no tree is both counted right and the bundle's. */
  lemma MatchesIsHolds(files: map<Elements, Bytes>, base: Elements, placed: seq<Placed>)
    requires AllInside(base, placed)
    ensures |Locations(placed)| == |placed| ==> (Matches(files, base, placed) <==> Holds(files, base, placed))
    ensures |Locations(placed)| != |placed| ==> !(Matches(files, base, placed) && Holds(files, base, placed))
  {
    var below, locations := FilesBelow(files, base), Locations(placed);
    if Matches(files, base, placed) {
      assert locations <= below;
      if |locations| == |placed| {
        SubsetSameSize(locations, below);
        forall k | base <= k && k in files ensures exists p <- placed :: p.at == k {
          assert k in below;
        }
      }
    }
    if Holds(files, base, placed) {
      assert below == locations;
    }
  }

  lemma {:induction false} WrittenKeys(files: map<Elements, Bytes>, placed: seq<Placed>)
    ensures forall k :: k in WriteAll(files, placed) <==> k in files || exists p <- placed :: p.at == k
    ensures forall k :: k in files && (forall p <- placed :: p.at != k) ==> WriteAll(files, placed)[k] == files[k]
  {
    if placed != [] {
      var n := |placed| - 1;
      WrittenKeys(files, placed[..n]);
      assert placed == placed[..n] + [placed[n]];
    }
  }

  /** What is at a place afterwards is the content of some file written there. */
  lemma {:induction false} WrittenContent(files: map<Elements, Bytes>, placed: seq<Placed>, p: Placed)
    requires p in placed
    ensures p.at in WriteAll(files, placed)
    ensures exists q <- placed :: q.at == p.at && WriteAll(files, placed)[p.at] == q.content
  {
    var n := |placed| - 1;
    assert placed == placed[..n] + [placed[n]];
    if placed[n].at != p.at {
      assert p in placed[..n];
      WrittenContent(files, placed[..n], p);
      var q :| q in placed[..n] && q.at == p.at && WriteAll(files, placed[..n])[p.at] == q.content;
      assert q in placed;
    }
  }

  /** Where two files of the bundle resolve to one place, they agree. */
  ghost predicate AliasesAgree(placed: seq<Placed>) {
    forall p, q :: p in placed && q in placed && p.at == q.at ==> p.content == q.content
  }

  /** Writing leaves exactly the bundle's files if and only if no two of them that resolve to one place
      differ. */
  lemma WrittenExactly(files: map<Elements, Bytes>, base: Elements, placed: seq<Placed>)
    requires forall k :: k in files ==> !(base <= k)
    ensures Holds(WriteAll(files, placed), base, placed) <==> AliasesAgree(placed)
  {
    WrittenKeys(files, placed);
    if AliasesAgree(placed) {
      forall p | p in placed ensures p.at in WriteAll(files, placed) && WriteAll(files, placed)[p.at] == p.content {
        WrittenContent(files, placed, p);
      }
    }
  }

  lemma IndependentAgree(placed: seq<Placed>)
    requires Independent(placed)
    ensures AliasesAgree(placed)
  {
    forall p, q | p in placed && q in placed ensures p.at == q.at ==> p.content == q.content {
      var i :| 0 <= i < |placed| && placed[i] == p;
      var j :| 0 <= j < |placed| && placed[j] == q;
      assert i != j ==> !(placed[i].at <= placed[j].at);
    }
  }

  // ---- Steps -----------------------------------------------------------------------------------------

  /** Stage takes the candidate for the active one. */
  predicate Guarded(site: Site, s: Disk, id: string) {
    && s.active.Some? && s.active.value.candidatePath.Some?
    && ActiveCandidatePath(site.root, s.active.value.candidatePath.value) == Candidate(site.root, id)
  }

  ghost predicate NoFileAbove(files: map<Elements, Bytes>, at: Elements) {
    forall k :: k < at ==> k !in files
  }

  /** Looking a bundle file up finds it or finds nothing: no directory in its place, no file on the way. */
  ghost predicate Readable(s: Disk, placed: seq<Placed>) {
    forall p <- placed :: p.at in s.files || (p.at !in s.dirs && NoFileAbove(s.files, p.at))
  }

  /** The candidate directory is there and already the bundle's. */
  ghost predicate Settled(s: Disk, base: Elements, placed: seq<Placed>) {
    Exists(s, base) && Matches(s.files, base, placed)
  }

  /** Nothing but a failing read or write stands in the way of writing the files. */
  ghost predicate Placeable(s: Disk, base: Elements, placed: seq<Placed>) {
    && NoClash(placed) && AllInside(base, placed)
    && NoFileAbove(s.files, base)
    && (Exists(s, base) ==> Readable(s, placed))
  }

  /** The files below base are exactly what writing these in order leaves. */
  ghost predicate Rewritten(files: map<Elements, Bytes>, base: Elements, placed: seq<Placed>) {
    && (forall k :: base <= k ==> (k in files <==> k in WriteAll(map[], placed)))
    && (forall k :: base <= k && k in files && k in WriteAll(map[], placed) ==> files[k] == WriteAll(map[], placed)[k])
  }

  /** Every directory below base other than base itself leads to one of these files. */
  ghost predicate OnlyLeading(dirs: set<Elements>, base: Elements, placed: seq<Placed>) {
    forall k :: k in dirs && base <= k ==> k == base || exists p <- placed :: k < p.at
  }

  /** A tree made anew in which these files were written, and directories for `reached`. */
  ghost predicate Written(s: Disk, t: Disk, base: Elements, placed: seq<Placed>, reached: seq<Placed>) {
    && NoFileAbove(s.files, base) && base in t.dirs
    && NoClash(placed) && Rewritten(t.files, base, placed) && OnlyLeading(t.dirs, base, reached)
  }

  /** The first n files, and of the next one whatever a failing write left of it. */
  function CutShort(placed: seq<Placed>, n: nat, content: Bytes): seq<Placed>
    requires n < |placed|
  {
    placed[..n] + [Placed(placed[n].at, content)]
  }

  /** What a failing removal leaves below base: some of what was there. */
  ghost predicate Remains(s: Disk, t: Disk, base: Elements) {
    && (forall k :: base <= k && k in t.files ==> k in s.files && t.files[k] == s.files[k])
    && (forall k :: base <= k && k in t.dirs ==> k in s.dirs)
  }

  /** Writing failed at file n: before its contents were written, or half way through them. */
  ghost predicate FailedAt(s: Disk, t: Disk, base: Elements, placed: seq<Placed>, n: nat)
    requires n < |placed|
  {
    || Written(s, t, base, placed[..n], placed[..n + 1])
    || exists junk :: Written(s, t, base, CutShort(placed, n, junk), placed[..n + 1])
  }

  ghost predicate Unfinished(s: Disk, t: Disk, base: Elements, placed: seq<Placed>) {
    exists n: nat :: n < |placed| && FailedAt(s, t, base, placed, n)
  }

  /** All that a failing Stage can leave of the candidate. */
  ghost predicate Leftover(s: Disk, t: Disk, base: Elements, placed: seq<Placed>) {
    Remains(s, t, base) || Unfinished(s, t, base, placed)
  }

  /** What one Stage call may do: refuse an invalid bundle, leave a candidate that already is the
      bundle's, refuse to replace the active one, or rewrite the candidate's tree or fail half way.
      `trouble` says that reads and writes may fail, `blind` that active/current.json cannot be read,
      which the guard takes for nothing being active. */
  ghost predicate StageStep(env: Env, site: Site, s: Disk, t: Disk, b: Bundle, trouble: bool, blind: bool, ok: bool) {
    var base, placed := Base(site, b.revision.id), PlacedFiles(site, b);
    if !Valid(env, b) then !ok && t == s
    else if Settled(s, base, placed) then t == s && (!trouble ==> ok)
    else if Exists(s, base) && Guarded(site, s, b.revision.id) && !blind then !ok && t == s
    else
      && t.active == s.active
      && SameOutside(s, t, base)
      && (if ok then Written(s, t, base, placed, placed) else Leftover(s, t, base, placed))
      && (!trouble && Placeable(s, base, placed) ==> ok)
  }

  predicate Activatable(site: Site, s: Disk, id: string) {
    !Blank(id) && Exists(s, Spot(site, id)) && Exists(s, Spot(site, id) + [MANIFEST])
  }

  /** Only the temporary file, and directories on the way to it, may differ. */
  ghost predicate SameBesidesTemp(s: Disk, t: Disk, directory: Elements, temp: Elements) {
    && (forall k :: k != temp ==> (k in s.files <==> k in t.files))
    && (forall k :: k != temp && k in s.files && k in t.files ==> t.files[k] == s.files[k])
    && s.dirs <= t.dirs
    && (forall k :: k in t.dirs && k !in s.dirs ==> k <= directory)
  }

  /** The active directory can be made, and the temporary file written in it. */
  ghost predicate TempWritable(s: Disk, directory: Elements, temp: Elements) {
    && NoFileAbove(s.files, directory) && directory !in s.files
    && (Parent(temp) in s.dirs || Parent(temp) <= directory)
    && temp !in s.dirs && !(temp <= directory)
  }

  ghost predicate ActivateStep(site: Site, s: Disk, t: Disk, id: string, trouble: bool, r: Option<Pointer>) {
    && SameBesidesTemp(s, t, ActiveDirectory(site), TempSpot(site, id))
    && (r.Some? ==> Activatable(site, s, id) && r.value == Pointer(id, Some(Candidate(site.root, id))) && t.active == r)
    && (r.None? ==> t.active == s.active)
    && (!trouble && Activatable(site, s, id) && TempWritable(s, ActiveDirectory(site), TempSpot(site, id)) ==> r.Some?)
  }

  /** The guards of Rollback. */
  predicate RollbackAllowed(failed: string, knownGood: Option<Pointer>) {
    && !Blank(failed)
    && knownGood.Some? && !Blank(knownGood.value.revisionID) && knownGood.value.candidatePath.Some?
    && Trim(failed) != knownGood.value.revisionID
  }

  ghost predicate RollbackStep(site: Site, s: Disk, t: Disk, failed: string, knownGood: Option<Pointer>,
                               trouble: bool, r: Option<Pointer>) {
    if RollbackAllowed(failed, knownGood) then ActivateStep(site, s, t, knownGood.value.revisionID, trouble, r)
    else r.None? && t == s
  }
}
