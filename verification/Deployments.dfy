/** What the lifecycle promises of the place the active reference names: the path stored in it, as the operating
    system finds it from the configured root and the working directory. */
module Deployments {
  import opened Basics
  import opened Text
  import opened Ordering
  import opened Paths
  import opened Bundles
  import opened Disks
  import opened Lifecycle

  // ---- One place -------------------------------------------------------------------------------------

  lemma PointerNamesBase(site: Site, id: string)
    requires OneElement(id)
    ensures Where(site, Candidate(site.root, id)) == Where(site, site.root) + ["candidates", id] == Base(site, id)
  {
    hide Walk, Candidate, OneElement;
    CandidateElements(site.root, id);
    if !site.root.rooted {
      WalkConcat(true, site.workdir, site.root.elements, ["candidates", id]);
      NormalIsAppended(Where(site, site.root), id);
    }
  }

  lemma NormalIsAppended(stack: Elements, id: string)
    requires OneElement(id)
    ensures Walk(true, stack, ["candidates", id]) == stack + ["candidates", id]
  {
    WalkNormal(true, stack, ["candidates", id]);
  }

  /** Where Stage writes a revision, where Activate looks for it, and what the reference to it names are one
      place: candidates/<id> below the root. */
  lemma CandidatePlace(site: Site, id: string)
    requires IsSafeBundleIdentifier(id)
    ensures Where(site, Candidate(site.root, id)) == Where(site, site.root) + ["candidates", id]
    ensures Base(site, id) == Where(site, Candidate(site.root, id)) == Spot(site, id)
  {
    SafeIdentifierIsOneElement(id);
    PointerNamesBase(site, id);
    CandidateIsAtBase(site, id);
  }

  /** And the reference itself is kept in active/ below the root. */
  lemma ActiveDirectoryPlace(site: Site)
    ensures Where(site, Paths.Join(site.root, "active")) == ActiveDirectory(site)
  {
    hide Walk, Split, OneElement;
    PlainIsOneElement("active");
    JoinOneElement(site.root, "active");
    if !site.root.rooted {
      WalkConcat(true, site.workdir, site.root.elements, ["active"]);
      WalkNormal(true, Where(site, site.root), ["active"]);
    }
  }

  /** The place the active reference names. */
  function ActivePlace(site: Site, s: Disk): Elements
    requires s.active.Some? && s.active.value.candidatePath.Some?
  {
    Where(site, s.active.value.candidatePath.value)
  }

  /** If anything is active, it is a candidate of the root by its own name, and what the reference names exists and
      has a manifest.json. */
  ghost predicate Sound(site: Site, s: Disk) {
    s.active.Some? ==>
      var p := s.active.value;
      && OneElement(p.revisionID) && !Blank(p.revisionID)
      && p.candidatePath == Some(Candidate(site.root, p.revisionID))
      && Exists(s, ActivePlace(site, s)) && Exists(s, ActivePlace(site, s) + ["manifest.json"])
  }

  lemma SoundIsActiveSound(site: Site, s: Disk)
    ensures Sound(site, s) <==> ActiveSound(site, s)
    ensures Sound(site, s) && s.active.Some? ==> ActivePlace(site, s) == Base(site, s.active.value.revisionID)
  {
    hide Where, Base, Candidate;
    if s.active.Some? && OneElement(s.active.value.revisionID) { PointerNamesBase(site, s.active.value.revisionID); }
  }

  // ---- The bundle in place ---------------------------------------------------------------------------

  /** Below the place there are exactly the bundle's files, each where its own path says. */
  ghost predicate HoldsBundle(files: map<Elements, Bytes>, at: Elements, b: Bundle) {
    && (forall k :: at <= k && k in files ==> exists f <- b.files :: k == at + Clean(f.path).elements)
    && (forall f <- b.files :: at + Clean(f.path).elements in files && files[at + Clean(f.path).elements] == f.content)
  }

  lemma SafeLocation(env: Env, base: Elements, b: Bundle, f: File)
    requires Standard(env) && Valid(env, b) && f in b.files
    ensures Location(base, f.path) == base + Clean(f.path).elements
  {
    hide Walk, Clean, IsSafeBundlePath;
    assert env.safePath(f.path);
    SafePathIsAppended(f.path, base);
  }

  lemma FilesPlaced(site: Site, b: Bundle, p: Placed)
    ensures p in PlacedFiles(site, b)
            <==> exists f <- b.files :: p == Placed(Location(Base(site, b.revision.id), f.path), f.content)
  {
    hide SortBy, Place, Location;
    var base, sorted, placed := Base(site, b.revision.id), SortBy(b.files, ByFilePath()), PlacedFiles(site, b);
    PermutationMembers(b.files, sorted);
    if p in placed {
      var i :| 0 <= i < |placed| && placed[i] == p;
      assert sorted[i] in b.files;
    }
    if f :| f in b.files && p == Placed(Location(base, f.path), f.content) {
      var i :| 0 <= i < |sorted| && sorted[i] == f;
      assert placed[i] == p;
    }
  }

  lemma HoldsIsHoldsBundle(env: Env, site: Site, files: map<Elements, Bytes>, b: Bundle)
    requires Standard(env) && Valid(env, b)
    ensures Holds(files, Base(site, b.revision.id), PlacedFiles(site, b))
            <==> HoldsBundle(files, Where(site, Candidate(site.root, b.revision.id)), b)
  {
    var base, placed := Base(site, b.revision.id), PlacedFiles(site, b);
    ValidIdIsOneElement(env, b);
    PointerNamesBase(site, b.revision.id);
    hide Standard, Valid, Base, Where, Candidate, PlacedFiles, Location, Clean, OneElement;
    forall p ensures p in placed <==> exists f <- b.files :: p == Placed(Location(base, f.path), f.content) {
      FilesPlaced(site, b, p);
    }
    forall f | f in b.files ensures Location(base, f.path) == base + Clean(f.path).elements {
      SafeLocation(env, base, b, f);
    }
    PlacedInSteps(files, base, placed, b);
  }

  lemma PlacedInSteps(files: map<Elements, Bytes>, base: Elements, placed: seq<Placed>, b: Bundle)
    requires forall p :: p in placed <==> exists f <- b.files :: p == Placed(Location(base, f.path), f.content)
    requires forall f <- b.files :: Location(base, f.path) == base + Clean(f.path).elements
    ensures Holds(files, base, placed) <==> HoldsBundle(files, base, b)
  {
    hide Location, Clean;
    forall f | f in b.files ensures Placed(base + Clean(f.path).elements, f.content) in placed {
      assert Placed(Location(base, f.path), f.content) in placed;
    }
  }

  /** A successful Stage leaves exactly the bundle's files at the place an Activate will name, and nothing else
      changed, provided no file of the bundle lies at or above another. */
  lemma DeployedExactly(env: Env, site: Site, s: Disk, t: Disk, b: Bundle, trouble: bool, blind: bool)
    requires Standard(env) && StageStep(env, site, s, t, b, trouble, blind, true) && Independent(PlacedFiles(site, b))
    ensures var at := Where(site, Candidate(site.root, b.revision.id));
            HoldsBundle(t.files, at, b) && SameOutside(s, t, at) && t.active == s.active
  {
    assert Valid(env, b);
    hide StageStep, Where, Candidate, Base, PlacedFiles, HoldsBundle, Holds, Settled, SameOutside, Valid, Standard;
    StagedExactly(env, site, s, t, b, trouble, blind);
    HoldsIsHoldsBundle(env, site, t.files, b);
    ValidPlace(env, site, b);
  }

  lemma ValidPlace(env: Env, site: Site, b: Bundle)
    requires Standard(env) && Valid(env, b)
    ensures Where(site, Candidate(site.root, b.revision.id)) == Base(site, b.revision.id)
  {
    ValidIdIsOneElement(env, b);
    PointerNamesBase(site, b.revision.id);
  }

  // ---- What a failed Stage leaves --------------------------------------------------------------------

  lemma FilesInPathOrder(site: Site, b: Bundle) returns (sorted: seq<File>)
    ensures PlacedFiles(site, b) == Place(Base(site, b.revision.id), sorted)
    ensures forall f :: f in sorted <==> f in b.files
    ensures forall i, j :: 0 <= i < j < |sorted| ==> !Less(sorted[j].path, sorted[i].path)
  {
    hide SortBy, Place, Base, Less;
    sorted := SortBy(b.files, ByFilePath());
    PermutationMembers(b.files, sorted);
    forall x: string, y: string, z: string
      ensures !Less(x, x)
      ensures Less(x, y) && Less(y, z) ==> Less(x, z)
      ensures !Less(x, y) && !Less(y, z) ==> !Less(x, z)
    {
      LessIsWeakOrder(x, y, z);
    }
    SortBySorted(b.files, ByFilePath());
  }

  ghost predicate SamePlaces(some: seq<Placed>, placed: seq<Placed>) {
    |some| <= |placed| && forall i :: 0 <= i < |some| ==> some[i].at == placed[i].at
  }

  lemma PlacedElsewhere(placed: seq<Placed>, part: seq<Placed>, i: nat)
    requires Independent(placed) && SamePlaces(part, placed) && |part| <= i < |placed|
    ensures forall p <- part :: p.at != placed[i].at
  {
    forall p | p in part ensures p.at != placed[i].at {
      var j :| 0 <= j < |part| && part[j] == p;
      assert !(placed[j].at <= placed[i].at);
    }
  }

  lemma PartHeld(t: Disk, base: Elements, placed: seq<Placed>, part: seq<Placed>, n: nat)
    requires Independent(placed) && AllInside(base, placed) && n < |placed| && Rewritten(t.files, base, part)
    requires SamePlaces(part, placed) && n <= |part| <= n + 1 && part[..n] == placed[..n]
    ensures forall i :: 0 <= i < n ==> placed[i].at in t.files && t.files[placed[i].at] == placed[i].content
    ensures forall i :: n < i < |placed| ==> placed[i].at !in t.files
  {
    hide Rewritten;
    forall p | p in part ensures base < p.at {
      var i :| 0 <= i < |part| && part[i] == p;
      assert placed[i] in placed;
    }
    RewrittenHolds(t, base, part);
    forall i | 0 <= i < n ensures placed[i].at in t.files && t.files[placed[i].at] == placed[i].content {
      assert part[..n][i] == part[i] && part[i] in part;
    }
    forall i | n < i < |placed| ensures placed[i].at !in t.files {
      assert placed[i] in placed;
      PlacedElsewhere(placed, part, i);
    }
  }

  lemma UnfinishedIsPart(s: Disk, t: Disk, base: Elements, placed: seq<Placed>) returns (n: nat)
    requires Independent(placed) && AllInside(base, placed) && Unfinished(s, t, base, placed)
    ensures n < |placed|
    ensures forall i :: 0 <= i < n ==> placed[i].at in t.files && t.files[placed[i].at] == placed[i].content
    ensures forall i :: n < i < |placed| ==> placed[i].at !in t.files
  {
    hide Rewritten, Independent, AllInside, OnlyLeading, NoClash;
    n :| n < |placed| && FailedAt(s, t, base, placed, n);
    if Written(s, t, base, placed[..n], placed[..n + 1]) {
      PartHeld(t, base, placed, placed[..n], n);
    } else {
      var junk :| Written(s, t, base, CutShort(placed, n, junk), placed[..n + 1]);
      PartHeld(t, base, placed, CutShort(placed, n, junk), n);
    }
  }

  /** A Stage that fails on an empty place leaves a beginning of the bundle in the order of paths: every file before
      `cut` is whole and none after it exists, so that only the one named `cut` may be anything. */
  lemma FailedStageLeavesBeginning(env: Env, site: Site, s: Disk, t: Disk, b: Bundle, trouble: bool, blind: bool)
    returns (cut: string)
    requires Standard(env) && Valid(env, b) && StageStep(env, site, s, t, b, trouble, blind, false)
    requires Independent(PlacedFiles(site, b)) && NothingAt(s, Where(site, Candidate(site.root, b.revision.id)))
    ensures forall f <- b.files ::
              var at := Where(site, Candidate(site.root, b.revision.id)) + Clean(f.path).elements;
              && (Less(f.path, cut) ==> at in t.files && t.files[at] == f.content)
              && (Less(cut, f.path) ==> at !in t.files)
  {
    ValidPlace(env, site, b);
    ValidIsInside(env, site, b);
    var base, placed := Base(site, b.revision.id), PlacedFiles(site, b);
    cut := BeginningLeft(env, site, s, t, b, trouble, blind);
    hide *;
    forall f | f in b.files
      ensures var at := Where(site, Candidate(site.root, b.revision.id)) + Clean(f.path).elements;
              && (Less(f.path, cut) ==> at in t.files && t.files[at] == f.content)
              && (Less(cut, f.path) ==> at !in t.files)
    {
      SafeLocation(env, base, b, f);
    }
  }

  lemma NothingBefore(path: string)
    ensures !Less(path, "")
  {
  }

  lemma BeginningLeft(env: Env, site: Site, s: Disk, t: Disk, b: Bundle, trouble: bool, blind: bool) returns (cut: string)
    requires Valid(env, b) && StageStep(env, site, s, t, b, trouble, blind, false)
    requires Independent(PlacedFiles(site, b)) && AllInside(Base(site, b.revision.id), PlacedFiles(site, b))
    requires NothingAt(s, Base(site, b.revision.id))
    ensures forall f <- b.files ::
              var at := Location(Base(site, b.revision.id), f.path);
              && (Less(f.path, cut) ==> at in t.files && t.files[at] == f.content)
              && (Less(cut, f.path) ==> at !in t.files)
  {
    hide Valid, Base, Location, Independent, Less, Settled, Guarded;
    var base, placed := Base(site, b.revision.id), PlacedFiles(site, b);
    if t == s || Remains(s, t, base) {
      cut := "";
      forall f | f in b.files
        ensures !Less(f.path, cut) && Location(base, f.path) !in t.files
      {
        NothingBefore(f.path);
        FilesPlaced(site, b, Placed(Location(base, f.path), f.content));
        assert Placed(Location(base, f.path), f.content) in placed;
      }
    } else {
      assert Unfinished(s, t, base, placed);
      var sorted := FilesInPathOrder(site, b);
      var n := UnfinishedIsPart(s, t, base, placed);
      cut := sorted[n].path;
      hide StageStep, PlacedFiles, Unfinished;
      forall f | f in b.files
        ensures var at := Location(base, f.path);
                && (Less(f.path, cut) ==> at in t.files && t.files[at] == f.content)
                && (Less(cut, f.path) ==> at !in t.files)
      {
        var i :| 0 <= i < |sorted| && sorted[i] == f;
        LessIsTotal(cut, cut);
        assert placed[i] == Placed(Location(base, f.path), f.content);
      }
    }
  }

  // ---- Runs ------------------------------------------------------------------------------------------

  /** In every run, whatever else fails, what the active reference names exists and has a manifest.json, and no
      Stage changes the reference or anything in that place. */
  lemma ActiveIsSpared(env: Env, site: Site, ups: nat, states: seq<Disk>, ops: seq<Op>, i: nat)
    requires Recognizing(site.root, ups) && IsRun(env, site, states, ops) && i < |states|
    requires forall op <- ops :: Sighted(op)
    ensures Sound(site, states[i])
    ensures i < |ops| && ops[i].Stage? && states[i].active.Some?
            ==> states[i + 1].active == states[i].active
                && SameTree(states[i], states[i + 1], ActivePlace(site, states[i]))
  {
    hide OpStep, Recognizing, ActiveSound, ActivePlace, SameTree;
    RunsSpareActive(env, site, ups, states, ops, i);
    SoundIsActiveSound(site, states[i]);
  }

  /** Whatever is staged while a revision is active, under its own id too, the place its reference names stays byte
      for byte the same. */
  lemma ActivePlaceStays(env: Env, site: Site, ups: nat, states: seq<Disk>, ops: seq<Op>, j: nat, i: nat, id: string)
    requires Recognizing(site.root, ups) && IsRun(env, site, states, ops) && j <= i < |states|
    requires (forall op <- ops :: Sighted(op)) && ActiveFrom(states, j, i, id)
    ensures states[j].active == states[i].active && states[i].active.value.candidatePath.Some?
    ensures SameTree(states[j], states[i], ActivePlace(site, states[i]))
  {
    hide OpStep, Recognizing, ActiveSound, SameTree, Exists;
    ActiveIsSpared(env, site, ups, states, ops, j);
    ActiveIsSpared(env, site, ups, states, ops, i);
    ActiveTreeStays(env, site, ups, states, ops, j, i, id);
    SoundIsActiveSound(site, states[i]);
    assert states[i].active.value == Pointer(id, Some(Candidate(site.root, id))) == states[j].active.value;
  }

  /** Staged successfully at j, left alone until it becomes active at m, and active until i: at i the active
      reference names a place that holds exactly the bundle, whatever was staged since m. */
  lemma ActiveHoldsBundle(env: Env, site: Site, ups: nat, states: seq<Disk>, ops: seq<Op>, j: nat, m: nat, i: nat, b: Bundle)
    requires Standard(env) && Recognizing(site.root, ups) && IsRun(env, site, states, ops) && j < m <= i <= |ops|
    requires forall op <- ops :: Sighted(op)
    requires ops[j].Stage? && ops[j].ok && ops[j].bundle == b && Independent(PlacedFiles(site, b))
    requires LeftAlone(ops, j + 1, m, b.revision.id) && ActiveFrom(states, m, i, b.revision.id)
    ensures states[i].active.Some? && states[i].active.value.candidatePath.Some?
    ensures HoldsBundle(states[i].files, ActivePlace(site, states[i]), b)
  {
    StagedIsValid(env, site, states, ops, j);
    hide OpStep, Recognizing, ActiveSound, Exists, Standard, Valid, Independent, PlacedFiles, Holds, HoldsBundle, LeftAlone;
    ActiveStaysWhole(env, site, ups, states, ops, j, m, i, b);
    HoldsIsHoldsBundle(env, site, states[i].files, b);
    ActiveIsSpared(env, site, ups, states, ops, i);
    assert states[i].active.value.candidatePath == Some(Candidate(site.root, b.revision.id));
  }

  lemma StagedIsValid(env: Env, site: Site, states: seq<Disk>, ops: seq<Op>, j: nat)
    requires IsRun(env, site, states, ops) && j < |ops| && ops[j].Stage? && ops[j].ok
    ensures Valid(env, ops[j].bundle)
  {
    RunStep(env, site, states, ops, j);
  }

  /** When what a reference would name is whole: from a successful Stage until the id is staged again, if and only
      if that Stage was faithful. */
  lemma PlaceHoldsSinceStaged(env: Env, site: Site, states: seq<Disk>, ops: seq<Op>, j: nat, i: nat, b: Bundle)
    requires Standard(env) && IsRun(env, site, states, ops) && j < i <= |ops|
    requires ops[j].Stage? && ops[j].ok && ops[j].bundle == b && LeftAlone(ops, j + 1, i, b.revision.id)
    ensures var at := Where(site, Candidate(site.root, b.revision.id));
            && (HoldsBundle(states[i].files, at, b) <==> Faithful(states[j], at, PlacedFiles(site, b)))
            && (Independent(PlacedFiles(site, b)) ==> HoldsBundle(states[i].files, at, b))
  {
    StagedIsValid(env, site, states, ops, j);
    hide OpStep, Standard, Valid, Independent, PlacedFiles, Holds, HoldsBundle, LeftAlone, Faithful, Where, Base, Candidate;
    WholeSinceStaged(env, site, states, ops, j, i, b);
    HoldsIsHoldsBundle(env, site, states[i].files, b);
    ValidPlace(env, site, b);
  }

  /** Why it takes a successful Stage: every valid bundle whose files do not clash has a run in which staging fails half
      way and the active reference then names a place that does not hold the bundle. */
  lemma RemainsAreServed(env: Env, site: Site, s: Disk, b: Bundle) returns (states: seq<Disk>, ops: seq<Op>)
    requires Standard(env) && env.decode("").None? && Valid(env, b) && NoClash(PlacedFiles(site, b)) && s.active.None?
    requires var at := Where(site, Candidate(site.root, b.revision.id)); NothingAt(s, at) && NoFileAbove(s.files, at)
    ensures IsRun(env, site, states, ops) && |ops| == 2 && ops[0] == Stage(b, true, false, false) && states[0] == s
    ensures states[2].active == Some(Pointer(b.revision.id, Some(Candidate(site.root, b.revision.id))))
    ensures !HoldsBundle(states[2].files, ActivePlace(site, states[2]), b)
  {
    hide OpStep, Standard, Valid, NoClash, PlacedFiles, Holds, HoldsBundle, Where, Base, Candidate, NothingAt, NoFileAbove;
    ValidPlace(env, site, b);
    var n;
    states, ops, n := PartialCandidateActivates(env, site, s, b);
    HoldsIsHoldsBundle(env, site, states[2].files, b);
  }

  /** After a failed update the old system is back exactly: as RollbackRestores says, at the place the old reference
      names. */
  lemma RollbackRestoresPlace(env: Env, site: Site, ups: nat, s: Disk, staged: Disk, activated: Disk, t: Disk,
                              stage: Op, activate: Op, rollback: Op)
    requires Recognizing(site.root, ups) && Sound(site, s) && s.active.Some? && ActiveFree(site, s)
    requires stage.Stage? && !stage.blind && stage.bundle.revision.id != s.active.value.revisionID
    requires activate.Activate? && activate.id == stage.bundle.revision.id && activate.result.Some?
    requires rollback.Rollback? && rollback.failed == activate.id && rollback.knownGood == s.active
    requires OpStep(env, site, s, stage, staged) && OpStep(env, site, staged, activate, activated)
    requires OpStep(env, site, activated, rollback, t)
    ensures rollback.result.Some? ==> t.active == s.active && SameTree(s, t, ActivePlace(site, s))
    ensures rollback.result.None? ==> t.active == activated.active
    ensures !rollback.trouble ==> (rollback.result.Some? <==> Trim(activate.id) != s.active.value.revisionID)
  {
    hide OpStep, Recognizing, ActiveFree, ActiveSound, SameTree, ActivePlace, Trim;
    SoundIsActiveSound(site, s);
    RollbackRestores(env, site, ups, s, staged, activated, t, stage, activate, rollback);
  }

  /** And both conditions on the guard are needed: what is active is replaced where it lies. */
  lemma BlindGuardLosesPlace(env: Env, site: Site, ups: nat, s: Disk, t: Disk, b: Bundle, blind: bool, ok: bool)
    requires Cleaned(site.root, ups) && (blind || !Recognizing(site.root, ups))
    requires Sound(site, s) && s.active.Some? && s.active.value.revisionID == b.revision.id
    requires Valid(env, b) && StageStep(env, site, s, t, b, false, blind, ok)
    requires var at, placed := ActivePlace(site, s), PlacedFiles(site, b);
             Placeable(s, at, placed) && Independent(placed) && !Matches(s.files, at, placed)
    ensures ok && !SameTree(s, t, ActivePlace(site, s))
  {
    hide StageStep, Recognizing, Cleaned, Placeable, Independent, Matches, SameTree, ActivePlace, ActiveSound, Valid;
    SoundIsActiveSound(site, s);
    BlindGuardLosesActive(env, site, ups, s, t, b, blind, ok);
  }
}
