/** Whole deployments: any sequence of staging, activating and rolling back. */
module Lifecycle {
  import opened Basics
  import opened Text
  import opened Ordering
  import opened Paths
  import opened Bundles
  import opened Disks

  datatype Op =
    | Stage(bundle: Bundle, trouble: bool, blind: bool, ok: bool)
    | Activate(id: string, trouble: bool, result: Option<Pointer>)
    | Rollback(failed: string, knownGood: Option<Pointer>, trouble: bool, result: Option<Pointer>)

  ghost predicate OpStep(env: Env, site: Site, s: Disk, op: Op, t: Disk) {
    match op
    case Stage(b, trouble, blind, ok) => StageStep(env, site, s, t, b, trouble, blind, ok)
    case Activate(id, trouble, r) => OneElement(id) && ActivateStep(site, s, t, id, trouble, r)
    case Rollback(failed, knownGood, trouble, r) =>
      && (knownGood.Some? ==> OneElement(knownGood.value.revisionID))
      && RollbackStep(site, s, t, failed, knownGood, trouble, r)
  }

  /** A run from a disk on which nothing is active yet. */
  ghost predicate IsRun(env: Env, site: Site, states: seq<Disk>, ops: seq<Op>) {
    && |states| == |ops| + 1
    && states[0].active.None?
    && forall i :: 0 <= i < |ops| ==> OpStep(env, site, states[i], ops[i], states[i + 1])
  }

  /** Stage can read which candidate is active. */
  predicate Sighted(op: Op) {
    op.Stage? ==> !op.blind
  }

  /** Stage will recognise the active candidate: the root is absolute, or climbs as often as it descends. */
  ghost predicate Recognizing(root: Path, ups: nat) {
    Cleaned(root, ups) && (root.rooted || 2 * ups == |root.elements|)
  }

  /** The active tree is there, with a manifest.json in it. */
  ghost predicate ActiveSound(site: Site, s: Disk) {
    s.active.Some? ==>
      var p := s.active.value;
      && OneElement(p.revisionID) && !Blank(p.revisionID)
      && p.candidatePath == Some(Candidate(site.root, p.revisionID))
      && Exists(s, Base(site, p.revisionID)) && Exists(s, Base(site, p.revisionID) + [MANIFEST])
  }

  lemma SpotIsBase(site: Site, id: string)
    requires OneElement(id)
    ensures Spot(site, id) == Base(site, id)
  {
    CandidateElements(Path(true, Home(site)), id);
  }

  /** The joined candidate path and the place on disk agree. */
  lemma CandidateIsAtBase(site: Site, id: string)
    requires IsSafeBundleIdentifier(id)
    ensures Spot(site, id) == Base(site, id)
  {
    SafeIdentifierIsOneElement(id);
    SpotIsBase(site, id);
  }

  /** The temporary file of such an id lies directly in the active directory. */
  lemma TempIsInActive(site: Site, id: string)
    requires OneElement(id)
    ensures TempSpot(site, id) == ActiveDirectory(site) + [".current." + id + ".tmp"]
  {
    assert id in Split(id, '/');
    TempNameIsOneElement(".current." + id + ".tmp");
    WalkNormal(true, ActiveDirectory(site), [".current." + id + ".tmp"]);
  }

  lemma TempNameIsOneElement(name: string)
    requires |name| > 2 && '/' !in name
    ensures OneElement(name)
  {
    SplitSingle(name, '/');
  }

  /** So switching the active reference touches no candidate. */
  lemma SwitchSparesCandidates(site: Site, s: Disk, t: Disk, temp: Elements, name: string, other: string)
    requires temp == ActiveDirectory(site) + [name] && SameBesidesTemp(s, t, ActiveDirectory(site), temp)
    ensures SameTree(s, t, Base(site, other))
  {
    var n := |Home(site)|;
    forall k {:trigger k in t.files} {:trigger k in t.dirs} | Base(site, other) <= k
      ensures k != temp && !(k <= ActiveDirectory(site))
    {
      assert k[n] == Base(site, other)[n] == "candidates" && temp[n] == "active";
    }
  }

  lemma ActivateSparesCandidates(site: Site, s: Disk, t: Disk, id: string, trouble: bool, r: Option<Pointer>, other: string)
    requires OneElement(id) && ActivateStep(site, s, t, id, trouble, r)
    ensures SameTree(s, t, Base(site, other))
  {
    TempIsInActive(site, id);
    SwitchSparesCandidates(site, s, t, TempSpot(site, id), ".current." + id + ".tmp", other);
  }

  lemma ExistsBySameTree(s: Disk, t: Disk, base: Elements, at: Elements)
    requires SameTree(s, t, base) && base <= at
    ensures Exists(s, at) <==> Exists(t, at)
  {
  }

  // ---- No Stage touches the active tree --------------------------------------------------------------

  lemma ActiveIsGuarded(site: Site, ups: nat, s: Disk)
    requires Recognizing(site.root, ups) && ActiveSound(site, s) && s.active.Some?
    ensures Guarded(site, s, s.active.value.revisionID)
  {
    GuardRecognizesElement(site.root, ups, s.active.value.revisionID);
  }

  lemma StageSparesActive(env: Env, site: Site, ups: nat, s: Disk, t: Disk, b: Bundle, trouble: bool, ok: bool)
    requires Recognizing(site.root, ups) && ActiveSound(site, s)
    requires StageStep(env, site, s, t, b, trouble, false, ok)
    ensures t.active == s.active && ActiveSound(site, t)
    ensures s.active.Some? ==> SameTree(s, t, Base(site, s.active.value.revisionID))
  {
    if s.active.Some? {
      var id := s.active.value.revisionID;
      if t != s {
        ActiveIsGuarded(site, ups, s);
        OtherCandidateSpared(site, s, t, b.revision.id, id);
      }
      assert Base(site, id) <= Base(site, id) + [MANIFEST];
    }
  }

  lemma StepKeepsActiveSound(env: Env, site: Site, ups: nat, s: Disk, op: Op, t: Disk)
    requires Recognizing(site.root, ups) && ActiveSound(site, s) && OpStep(env, site, s, op, t) && Sighted(op)
    ensures ActiveSound(site, t)
  {
    match op
    case Stage(b, trouble, blind, ok) => StageSparesActive(env, site, ups, s, t, b, trouble, ok);
    case Activate(id, trouble, r) => ActivateKeepsActiveSound(site, s, t, id, trouble, r);
    case Rollback(failed, knownGood, trouble, r) =>
      if RollbackAllowed(failed, knownGood) {
        ActivateKeepsActiveSound(site, s, t, knownGood.value.revisionID, trouble, r);
      }
  }

  lemma ActivateKeepsActiveSound(site: Site, s: Disk, t: Disk, id: string, trouble: bool, r: Option<Pointer>)
    requires ActiveSound(site, s) && OneElement(id) && ActivateStep(site, s, t, id, trouble, r)
    ensures ActiveSound(site, t)
  {
    if t.active.Some? {
      var current := t.active.value.revisionID;
      SpotIsBase(site, current);
      ActivateSparesCandidates(site, s, t, id, trouble, r, current);
      ExistsBySameTree(s, t, Base(site, current), Base(site, current));
      ExistsBySameTree(s, t, Base(site, current), Base(site, current) + [MANIFEST]);
    }
  }

  lemma {:induction false} RunStaysSound(env: Env, site: Site, ups: nat, states: seq<Disk>, ops: seq<Op>, n: nat)
    requires Recognizing(site.root, ups) && IsRun(env, site, states, ops) && n < |states|
    requires forall op <- ops :: Sighted(op)
    ensures ActiveSound(site, states[n])
  {
    if n > 0 {
      RunStaysSound(env, site, ups, states, ops, n - 1);
      StepKeepsActiveSound(env, site, ups, states[n - 1], ops[n - 1], states[n]);
    }
  }

  lemma OpSparesActive(env: Env, site: Site, ups: nat, s: Disk, op: Op, t: Disk)
    requires Recognizing(site.root, ups) && ActiveSound(site, s) && OpStep(env, site, s, op, t)
    requires op.Stage? && !op.blind
    ensures t.active == s.active
    ensures s.active.Some? ==> SameTree(s, t, Base(site, s.active.value.revisionID))
  {
    StageSparesActive(env, site, ups, s, t, op.bundle, op.trouble, op.ok);
  }

  /** In every run, whatever else fails, the active pointer names a tree that exists and has a manifest.json,
      and no Stage changes that tree. */
  lemma RunsSpareActive(env: Env, site: Site, ups: nat, states: seq<Disk>, ops: seq<Op>, i: nat)
    requires Recognizing(site.root, ups) && IsRun(env, site, states, ops) && i < |states|
    requires forall op <- ops :: Sighted(op)
    ensures ActiveSound(site, states[i])
    ensures i < |ops| && ops[i].Stage? && states[i].active.Some?
            ==> states[i + 1].active == states[i].active
                && SameTree(states[i], states[i + 1], Base(site, states[i].active.value.revisionID))
  {
    RunStaysSound(env, site, ups, states, ops, i);
    if i < |ops| && ops[i].Stage? {
      assert Sighted(ops[i]);
      OpSparesActive(env, site, ups, states[i], ops[i], states[i + 1]);
    }
  }

  lemma MatchesBySameTree(s: Disk, t: Disk, base: Elements, placed: seq<Placed>)
    requires SameTree(s, t, base) && AllInside(base, placed) && Matches(t.files, base, placed)
    ensures Matches(s.files, base, placed)
  {
    assert FilesBelow(s.files, base) == FilesBelow(t.files, base);
  }

  /** Both conditions are needed: with any other root, or when active/current.json cannot be read, staging
      different contents under the active id goes through and replaces the active tree. */
  lemma BlindGuardLosesActive(env: Env, site: Site, ups: nat, s: Disk, t: Disk, b: Bundle, blind: bool, ok: bool)
    requires Cleaned(site.root, ups) && (blind || !Recognizing(site.root, ups))
    requires ActiveSound(site, s) && s.active.Some? && s.active.value.revisionID == b.revision.id
    requires Valid(env, b) && StageStep(env, site, s, t, b, false, blind, ok)
    requires var base, placed := Base(site, b.revision.id), PlacedFiles(site, b);
             Placeable(s, base, placed) && Independent(placed) && !Matches(s.files, base, placed)
    ensures ok && !SameTree(s, t, Base(site, b.revision.id))
  {
    var base, placed := Base(site, b.revision.id), PlacedFiles(site, b);
    GuardRecognizesElement(site.root, ups, b.revision.id);
    RewrittenHolds(t, base, placed);
    LocationsCount(placed);
    MatchesIsHolds(t.files, base, placed);
    if SameTree(s, t, base) { MatchesBySameTree(s, t, base, placed); }
  }

  // ---- What a successful Stage leaves ----------------------------------------------------------------

  lemma RewrittenHolds(t: Disk, base: Elements, placed: seq<Placed>)
    requires Rewritten(t.files, base, placed) && AllInside(base, placed)
    ensures Holds(t.files, base, placed) <==> AliasesAgree(placed)
    ensures Independent(placed) ==> Holds(t.files, base, placed)
  {
    WrittenExactly(map[], base, placed);
    WrittenKeys(map[], placed);
    forall p | p in placed ensures p.at in t.files && t.files[p.at] == WriteAll(map[], placed)[p.at] {
      assert base <= p.at;
    }
    if Independent(placed) { IndependentAgree(placed); }
  }

  /** Every file of a valid bundle resolves below the candidate directory. */
  lemma ValidIsInside(env: Env, site: Site, b: Bundle)
    requires Standard(env) && Valid(env, b)
    ensures AllInside(Base(site, b.revision.id), PlacedFiles(site, b))
  {
    hide SortBy, Place, Walk, Split, IsSafeBundlePath;
    var base, sorted := Base(site, b.revision.id), SortBy(b.files, ByFilePath());
    PermutationMembers(b.files, sorted);
    forall i | 0 <= i < |sorted| ensures base < Location(base, sorted[i].path) {
      assert sorted[i] in sorted && env.safePath(sorted[i].path);
      SafePathStaysInside(sorted[i].path, base);
    }
  }

  /** A successful Stage leaves exactly the bundle's files under candidates/<id> and nothing else changed,
      provided no file of the bundle lies at or above another. */
  lemma StagedExactly(env: Env, site: Site, s: Disk, t: Disk, b: Bundle, trouble: bool, blind: bool)
    requires Standard(env) && StageStep(env, site, s, t, b, trouble, blind, true) && Independent(PlacedFiles(site, b))
    ensures var base := Base(site, b.revision.id);
            && Holds(t.files, base, PlacedFiles(site, b)) && Settled(t, base, PlacedFiles(site, b))
            && SameOutside(s, t, base) && t.active == s.active
  {
    var base, placed := Base(site, b.revision.id), PlacedFiles(site, b);
    ValidIsInside(env, site, b);
    LocationsCount(placed);
    MatchesIsHolds(t.files, base, placed);
    if !Settled(s, base, placed) { RewrittenHolds(t, base, placed); }
  }

  /** When a new candidate can be staged: without failing reads and writes exactly if no file lies where
      the candidate's directory has to be, and no file of the bundle where another one needs a directory. */
  lemma NewCandidateStages(env: Env, site: Site, s: Disk, t: Disk, b: Bundle, blind: bool, ok: bool)
    requires Standard(env) && Valid(env, b) && StageStep(env, site, s, t, b, false, blind, ok)
    requires !Exists(s, Base(site, b.revision.id))
    ensures ok <==> NoFileAbove(s.files, Base(site, b.revision.id)) && NoClash(PlacedFiles(site, b))
  {
    ValidIsInside(env, site, b);
  }

  /** Staging the same bundle again changes nothing, and succeeds unless a read fails. */
  lemma RestageIsIdle(env: Env, site: Site, s: Disk, t: Disk, u: Disk, b: Bundle, first: Op, again: Op)
    requires first.Stage? && first.bundle == b && first.ok && OpStep(env, site, s, first, t)
    requires again.Stage? && again.bundle == b && OpStep(env, site, t, again, u)
    requires Standard(env) && Independent(PlacedFiles(site, b))
    ensures u == t && (!again.trouble ==> again.ok)
  {
    StagedExactly(env, site, s, t, b, first.trouble, first.blind);
  }

  /** A candidate that Stage left alone was found right by counting, so the bundle's files must not share
      places; one that it wrote needs those that do to agree. */
  ghost predicate Faithful(s: Disk, base: Elements, placed: seq<Placed>) {
    if Settled(s, base, placed) then |Locations(placed)| == |placed| else AliasesAgree(placed)
  }

  lemma IndependentIsFaithful(s: Disk, base: Elements, placed: seq<Placed>)
    requires Independent(placed)
    ensures Faithful(s, base, placed)
  {
    LocationsCount(placed);
    IndependentAgree(placed);
  }

  /** Files of a bundle can share a place (as "a" and "./a" do). After a successful Stage the candidate is
      exactly the bundle's if and only if: Stage found it right and no two of the files share a place, or
      Stage wrote it and those that do have the same content. */
  lemma AliasesDecide(env: Env, site: Site, s: Disk, t: Disk, b: Bundle, trouble: bool, blind: bool)
    requires Standard(env) && StageStep(env, site, s, t, b, trouble, blind, true)
    ensures Holds(t.files, Base(site, b.revision.id), PlacedFiles(site, b))
            <==> Faithful(s, Base(site, b.revision.id), PlacedFiles(site, b))
  {
    var base, placed := Base(site, b.revision.id), PlacedFiles(site, b);
    ValidIsInside(env, site, b);
    if Settled(s, base, placed) {
      MatchesIsHolds(s.files, base, placed);
    } else {
      RewrittenHolds(t, base, placed);
    }
  }

  /** Where the bundle's files agree but share places, and as many foreign files make up the number. */
  ghost predicate MadeUp(s: Disk, base: Elements, placed: seq<Placed>, foreign: map<Elements, Bytes>) {
    && Exists(s, base) && AllInside(base, placed) && AliasesAgree(placed)
    && (forall k <- foreign :: base < k && k !in Locations(placed))
    && |foreign| == |placed| - |Locations(placed)|
    && (forall k :: base <= k ==> (k in s.files <==> k in WriteAll(map[], placed) + foreign))
    && (forall k :: base <= k && k in s.files ==> s.files[k] == (WriteAll(map[], placed) + foreign)[k])
  }

  lemma MadeUpHas(s: Disk, base: Elements, placed: seq<Placed>, foreign: map<Elements, Bytes>, p: Placed)
    requires MadeUp(s, base, placed, foreign) && p in placed
    ensures p.at in s.files && s.files[p.at] == p.content
  {
    hide WriteAll, Exists;
    WrittenContent(map[], placed, p);
    assert base <= p.at && p.at in Locations(placed);
  }

  lemma MadeUpMember(s: Disk, base: Elements, placed: seq<Placed>, foreign: map<Elements, Bytes>, k: Elements)
    requires MadeUp(s, base, placed, foreign)
    ensures k in FilesBelow(s.files, base) <==> k in Locations(placed) || k in foreign
  {
    hide WriteAll, Exists, AliasesAgree;
    WrittenKeys(map[], placed);
    if k in Locations(placed) {
      var p :| p in placed && p.at == k;
      assert base <= k;
    }
  }

  lemma MadeUpCount(s: Disk, base: Elements, placed: seq<Placed>, foreign: map<Elements, Bytes>)
    requires MadeUp(s, base, placed, foreign)
    ensures |FilesBelow(s.files, base)| == |placed|
  {
    hide FilesBelow, Locations;
    forall k ensures k in FilesBelow(s.files, base) <==> k in Locations(placed) || k in foreign {
      MadeUpMember(s, base, placed, foreign, k);
    }
    assert FilesBelow(s.files, base) == Locations(placed) + foreign.Keys;
  }

  lemma MadeUpMatches(s: Disk, base: Elements, placed: seq<Placed>, foreign: map<Elements, Bytes>)
    requires MadeUp(s, base, placed, foreign)
    ensures Settled(s, base, placed)
  {
    forall p | p in placed ensures p.at in s.files && s.files[p.at] == p.content {
      MadeUpHas(s, base, placed, foreign, p);
    }
    MadeUpCount(s, base, placed, foreign);
  }

  /** How it fails without differing contents: foreign files are counted for the missing ones, so Stage
      reports success and leaves them in place. */
  lemma ForeignFilesSurvive(env: Env, site: Site, s: Disk, b: Bundle, foreign: map<Elements, Bytes>)
    requires Valid(env, b) && foreign != map[]
    requires MadeUp(s, Base(site, b.revision.id), PlacedFiles(site, b), foreign)
    ensures StageStep(env, site, s, s, b, false, false, true)
    ensures !Holds(s.files, Base(site, b.revision.id), PlacedFiles(site, b))
  {
    var base, placed := Base(site, b.revision.id), PlacedFiles(site, b);
    MadeUpMatches(s, base, placed, foreign);
    MatchesIsHolds(s.files, base, placed);
    assert |foreign| > 0;
  }

  // ---- What is activated -----------------------------------------------------------------------------

  lemma OpSparesOthers(env: Env, site: Site, s: Disk, op: Op, t: Disk, id: string)
    requires OpStep(env, site, s, op, t) && (op.Stage? ==> op.bundle.revision.id != id)
    ensures SameTree(s, t, Base(site, id))
  {
    match op
    case Stage(b, trouble, blind, ok) =>
      if t != s { OtherCandidateSpared(site, s, t, b.revision.id, id); }
    case Activate(other, trouble, r) => ActivateSparesCandidates(site, s, t, other, trouble, r, id);
    case Rollback(failed, knownGood, trouble, r) =>
      if RollbackAllowed(failed, knownGood) {
        ActivateSparesCandidates(site, s, t, knownGood.value.revisionID, trouble, r, id);
      }
  }

  lemma HoldsBySameTree(s: Disk, t: Disk, base: Elements, placed: seq<Placed>)
    requires SameTree(s, t, base) && AllInside(base, placed) && Holds(s.files, base, placed)
    ensures Holds(t.files, base, placed)
  {
    forall p | p in placed ensures p.at in t.files && t.files[p.at] == p.content { assert base <= p.at; }
  }

  lemma RunStep(env: Env, site: Site, states: seq<Disk>, ops: seq<Op>, n: nat)
    requires IsRun(env, site, states, ops) && n < |ops|
    ensures OpStep(env, site, states[n], ops[n], states[n + 1])
  {
  }

  /** No operation from j to i stages this id. */
  predicate LeftAlone(ops: seq<Op>, j: nat, i: nat, id: string)
    requires i <= |ops|
  {
    forall n :: j <= n < i && ops[n].Stage? ==> ops[n].bundle.revision.id != id
  }

  lemma {:induction false} SameTreeChain(states: seq<Disk>, j: nat, i: nat, base: Elements)
    requires j <= i < |states| && forall n :: j <= n < i ==> SameTree(states[n], states[n + 1], base)
    ensures SameTree(states[j], states[i], base)
    decreases i
  {
    if j < i {
      SameTreeChain(states, j, i - 1, base);
      SameTreeTrans(states[j], states[i - 1], states[i], base);
    }
  }

  lemma StepSparesCandidate(env: Env, site: Site, states: seq<Disk>, ops: seq<Op>, n: nat, id: string)
    requires IsRun(env, site, states, ops) && n < |ops|
    requires ops[n].Stage? ==> ops[n].bundle.revision.id != id
    ensures SameTree(states[n], states[n + 1], Base(site, id))
  {
    RunStep(env, site, states, ops, n);
    OpSparesOthers(env, site, states[n], ops[n], states[n + 1], id);
  }

  lemma RunSparesCandidate(env: Env, site: Site, states: seq<Disk>, ops: seq<Op>, j: nat, i: nat, id: string)
    requires IsRun(env, site, states, ops) && j <= i <= |ops| && LeftAlone(ops, j, i, id)
    ensures SameTree(states[j], states[i], Base(site, id))
  {
    forall n | j <= n < i ensures SameTree(states[n], states[n + 1], Base(site, id)) {
      StepSparesCandidate(env, site, states, ops, n, id);
    }
    SameTreeChain(states, j, i, Base(site, id));
  }

  lemma HoldsSince(env: Env, site: Site, states: seq<Disk>, ops: seq<Op>, j: nat, i: nat, id: string,
                   placed: seq<Placed>)
    requires IsRun(env, site, states, ops) && j <= i <= |ops| && LeftAlone(ops, j, i, id)
    requires AllInside(Base(site, id), placed)
    ensures Holds(states[j].files, Base(site, id), placed) <==> Holds(states[i].files, Base(site, id), placed)
  {
    RunSparesCandidate(env, site, states, ops, j, i, id);
    HoldsEitherWay(states[j], states[i], Base(site, id), placed);
  }

  lemma HoldsEitherWay(s: Disk, t: Disk, base: Elements, placed: seq<Placed>)
    requires SameTree(s, t, base) && AllInside(base, placed)
    ensures Holds(s.files, base, placed) <==> Holds(t.files, base, placed)
  {
    if Holds(s.files, base, placed) { HoldsBySameTree(s, t, base, placed); }
    if Holds(t.files, base, placed) { HoldsBySameTree(t, s, base, placed); }
  }

  lemma WrittenInRun(env: Env, site: Site, states: seq<Disk>, ops: seq<Op>, j: nat, b: Bundle)
    requires Standard(env) && IsRun(env, site, states, ops) && j < |ops|
    requires ops[j].Stage? && ops[j].ok && ops[j].bundle == b
    ensures AllInside(Base(site, b.revision.id), PlacedFiles(site, b))
    ensures Holds(states[j + 1].files, Base(site, b.revision.id), PlacedFiles(site, b))
            <==> Faithful(states[j], Base(site, b.revision.id), PlacedFiles(site, b))
  {
    RunStep(env, site, states, ops, j);
    StagedInStep(env, site, states[j], states[j + 1], ops[j]);
  }

  lemma StagedInStep(env: Env, site: Site, s: Disk, t: Disk, op: Op)
    requires Standard(env) && op.Stage? && op.ok && OpStep(env, site, s, op, t)
    ensures AllInside(Base(site, op.bundle.revision.id), PlacedFiles(site, op.bundle))
    ensures Holds(t.files, Base(site, op.bundle.revision.id), PlacedFiles(site, op.bundle))
            <==> Faithful(s, Base(site, op.bundle.revision.id), PlacedFiles(site, op.bundle))
  {
    AliasesDecide(env, site, s, t, op.bundle, op.trouble, op.blind);
    ValidIsInside(env, site, op.bundle);
  }

  /** When a candidate is a whole bundle: after a successful Stage it holds exactly the bundle's files if
      and only if that Stage was faithful, which it is of independent files, and so it stays in every later
      state of the run until its id is staged again. */
  lemma WholeSinceStaged(env: Env, site: Site, states: seq<Disk>, ops: seq<Op>, j: nat, i: nat, b: Bundle)
    requires Standard(env) && IsRun(env, site, states, ops) && j < i <= |ops|
    requires ops[j].Stage? && ops[j].ok && ops[j].bundle == b && LeftAlone(ops, j + 1, i, b.revision.id)
    ensures Holds(states[i].files, Base(site, b.revision.id), PlacedFiles(site, b))
            <==> Faithful(states[j], Base(site, b.revision.id), PlacedFiles(site, b))
    ensures Independent(PlacedFiles(site, b)) ==> Holds(states[i].files, Base(site, b.revision.id), PlacedFiles(site, b))
  {
    hide OpStep, Holds, Faithful, PlacedFiles, Base, Independent, LeftAlone;
    WrittenInRun(env, site, states, ops, j, b);
    HoldsSince(env, site, states, ops, j + 1, i, b.revision.id, PlacedFiles(site, b));
    if Independent(PlacedFiles(site, b)) {
      IndependentIsFaithful(states[j], Base(site, b.revision.id), PlacedFiles(site, b));
    }
  }

  /** From j to i the active reference names this id. */
  predicate ActiveFrom(states: seq<Disk>, j: nat, i: nat, id: string)
    requires i < |states|
  {
    forall n :: j <= n <= i ==> states[n].active.Some? && states[n].active.value.revisionID == id
  }

  lemma StepSparesActive(env: Env, site: Site, ups: nat, states: seq<Disk>, ops: seq<Op>, n: nat, id: string)
    requires Recognizing(site.root, ups) && IsRun(env, site, states, ops) && n < |ops|
    requires forall op <- ops :: Sighted(op)
    requires states[n].active.Some? && states[n].active.value.revisionID == id
    ensures SameTree(states[n], states[n + 1], Base(site, id))
  {
    if ops[n].Stage? {
      RunsSpareActive(env, site, ups, states, ops, n);
    } else {
      StepSparesCandidate(env, site, states, ops, n, id);
    }
  }

  /** What is active does not change while it is active, whatever is staged meanwhile, under its own id too. */
  lemma ActiveTreeStays(env: Env, site: Site, ups: nat, states: seq<Disk>, ops: seq<Op>, j: nat, i: nat, id: string)
    requires Recognizing(site.root, ups) && IsRun(env, site, states, ops) && j <= i < |states|
    requires (forall op <- ops :: Sighted(op)) && ActiveFrom(states, j, i, id)
    ensures SameTree(states[j], states[i], Base(site, id))
  {
    forall n | j <= n < i ensures SameTree(states[n], states[n + 1], Base(site, id)) {
      StepSparesActive(env, site, ups, states, ops, n, id);
    }
    SameTreeChain(states, j, i, Base(site, id));
  }

  /** Together: staged successfully at j, left alone until it becomes active at m, and active until i, the
      candidate is at i exactly the bundle, whatever was staged since m. */
  lemma ActiveStaysWhole(env: Env, site: Site, ups: nat, states: seq<Disk>, ops: seq<Op>, j: nat, m: nat, i: nat, b: Bundle)
    requires Standard(env) && Recognizing(site.root, ups) && IsRun(env, site, states, ops) && j < m <= i <= |ops|
    requires forall op <- ops :: Sighted(op)
    requires ops[j].Stage? && ops[j].ok && ops[j].bundle == b && Independent(PlacedFiles(site, b))
    requires LeftAlone(ops, j + 1, m, b.revision.id) && ActiveFrom(states, m, i, b.revision.id)
    ensures Holds(states[i].files, Base(site, b.revision.id), PlacedFiles(site, b))
  {
    hide OpStep, Holds, Faithful, PlacedFiles, Base, Independent, LeftAlone, ActiveFrom, SameTree;
    WrittenInRun(env, site, states, ops, j, b);
    WholeSinceStaged(env, site, states, ops, j, m, b);
    ActiveTreeStays(env, site, ups, states, ops, m, i, b.revision.id);
    HoldsBySameTree(states[m], states[i], Base(site, b.revision.id), PlacedFiles(site, b));
  }

  // ---- What a failing Stage leaves ---------------------------------------------------------------------

  /** Every directory above one of the files. */
  function LeadingTo(placed: seq<Placed>): set<Elements> {
    set p <- placed, i | 0 <= i < |p.at| :: p.at[..i]
  }

  /** The disk once these have been written below a directory that was not there. */
  function WithWritten(s: Disk, placed: seq<Placed>): Disk {
    s.(files := s.files + WriteAll(map[], placed), dirs := s.dirs + LeadingTo(placed))
  }

  ghost predicate NothingAt(s: Disk, base: Elements) {
    forall k :: base <= k ==> k !in s.files && k !in s.dirs
  }

  lemma LeadingMembers(placed: seq<Placed>, k: Elements)
    ensures k in LeadingTo(placed) <==> exists p <- placed :: k < p.at
  {
    forall p | p in placed && k < p.at ensures k in LeadingTo(placed) { assert k == p.at[..|k|]; }
  }

  lemma WithWrittenIsWritten(s: Disk, base: Elements, placed: seq<Placed>)
    requires NothingAt(s, base) && NoFileAbove(s.files, base) && AllInside(base, placed) && placed != []
    requires NoClash(placed)
    ensures Written(s, WithWritten(s, placed), base, placed, placed) && SameOutside(s, WithWritten(s, placed), base)
  {
    WrittenKeys(map[], placed);
    forall k ensures k in LeadingTo(placed) <==> exists p <- placed :: k < p.at { LeadingMembers(placed, k); }
    assert placed[0] in placed && base < placed[0].at;
    forall k | k in LeadingTo(placed) ensures base <= k || k <= base {
      var p :| p in placed && k < p.at;
      PrefixesCompare(k, base, p.at);
    }
  }

  lemma SamePlacesLead(dirs: set<Elements>, base: Elements, a: seq<Placed>, b: seq<Placed>)
    requires OnlyLeading(dirs, base, a) && forall p <- a :: exists q <- b :: q.at == p.at
    ensures OnlyLeading(dirs, base, b)
  {
    forall k | k in dirs && base <= k && k != base ensures exists q <- b :: k < q.at {
      var p :| p in a && k < p.at;
      var q :| q in b && q.at == p.at;
    }
  }

  /** The candidate after a Stage that failed having emptied file n. */
  lemma CutShortIsLeft(s: Disk, base: Elements, placed: seq<Placed>, n: nat)
    requires n < |placed| && AllInside(base, placed) && NoClash(placed)
    requires NothingAt(s, base) && NoFileAbove(s.files, base)
    ensures var t := WithWritten(s, CutShort(placed, n, ""));
            SameOutside(s, t, base) && Leftover(s, t, base, placed) && Exists(t, base)
    ensures placed[n].at in WithWritten(s, CutShort(placed, n, "")).files
    ensures WithWritten(s, CutShort(placed, n, "")).files[placed[n].at] == ""
  {
    var cut := CutShort(placed, n, "");
    var t := WithWritten(s, cut);
    assert cut[n] == Placed(placed[n].at, "") && cut[..n] == placed[..n];
    forall p | p in cut ensures exists q <- placed[..n + 1] :: q.at == p.at {
      var i :| 0 <= i < |cut| && cut[i] == p;
      assert placed[..n + 1][i] in placed[..n + 1] && placed[..n + 1][i].at == p.at;
    }
    WithWrittenIsWritten(s, base, cut);
    SamePlacesLead(t.dirs, base, cut, placed[..n + 1]);
    assert Written(s, t, base, cut, placed[..n + 1]);
    assert FailedAt(s, t, base, placed, n);
  }

  lemma FailedStageIsOp(env: Env, site: Site, s: Disk, b: Bundle, t: Disk)
    requires Valid(env, b) && t.active == s.active && !Exists(s, Base(site, b.revision.id))
    requires SameOutside(s, t, Base(site, b.revision.id))
    requires Leftover(s, t, Base(site, b.revision.id), PlacedFiles(site, b))
    ensures OpStep(env, site, s, Stage(b, true, false, false), t)
  {
  }

  /** Where manifest.json is written, and that it is not empty. */
  lemma ManifestPlaced(env: Env, site: Site, b: Bundle) returns (n: nat)
    requires Valid(env, b) && env.decode("").None?
    ensures n < |PlacedFiles(site, b)| && PlacedFiles(site, b)[n].at == Base(site, b.revision.id) + [MANIFEST]
    ensures PlacedFiles(site, b)[n].content != ""
  {
    hide SortBy, Place, Walk, Split, Describes;
    var sorted := SortBy(b.files, ByFilePath());
    PermutationMembers(b.files, sorted);
    var m :| Carries(env, b.files, m) && Describes(env, m, b.files);
    var f :| f in b.files && f.path == MANIFEST && env.decode(f.content) == Some(m);
    n :| n < |sorted| && sorted[n] == f;
    ManifestIsAt(Base(site, b.revision.id));
  }

  lemma ManifestIsAt(base: Elements)
    ensures Location(base, MANIFEST) == base + [MANIFEST]
  {
    SplitSingle(MANIFEST, '/');
    WalkNormal(true, base, [MANIFEST]);
  }

  lemma CutShortActivates(env: Env, site: Site, s: Disk, b: Bundle, placed: seq<Placed>, n: nat)
    returns (states: seq<Disk>, ops: seq<Op>)
    requires Valid(env, b) && OneElement(b.revision.id) && !Blank(b.revision.id) && s.active.None?
    requires placed == PlacedFiles(site, b) && NoClash(placed) && AllInside(Base(site, b.revision.id), placed)
    requires NothingAt(s, Base(site, b.revision.id)) && NoFileAbove(s.files, Base(site, b.revision.id))
    requires n < |placed| && placed[n].at == Base(site, b.revision.id) + [MANIFEST] && placed[n].content != ""
    ensures IsRun(env, site, states, ops) && |ops| == 2 && ops[0] == Stage(b, true, false, false)
    ensures states[0] == s && states[1] == WithWritten(s, CutShort(placed, n, ""))
    ensures states[2].active == Some(Pointer(b.revision.id, Some(Candidate(site.root, b.revision.id))))
    ensures !Holds(states[2].files, Base(site, b.revision.id), placed)
  {
    hide Holds, IsRun, Leftover, SameOutside, WriteAll, LeadingTo, PlacedFiles, Valid, NoClash;
    CutShortIsLeft(s, Base(site, b.revision.id), placed, n);
    states, ops := LeftoverActivates(env, site, s, WithWritten(s, CutShort(placed, n, "")), b, placed, n);
  }

  lemma LeftoverActivates(env: Env, site: Site, s: Disk, t: Disk, b: Bundle, placed: seq<Placed>, n: nat)
    returns (states: seq<Disk>, ops: seq<Op>)
    requires Valid(env, b) && OneElement(b.revision.id) && !Blank(b.revision.id) && placed == PlacedFiles(site, b)
    requires s.active.None? && t.active == s.active && !Exists(s, Base(site, b.revision.id))
    requires SameOutside(s, t, Base(site, b.revision.id)) && Leftover(s, t, Base(site, b.revision.id), placed)
    requires Exists(t, Base(site, b.revision.id)) && Base(site, b.revision.id) + [MANIFEST] in t.files
    requires n < |placed| && placed[n].at in t.files && t.files[placed[n].at] != placed[n].content
    ensures IsRun(env, site, states, ops) && |ops| == 2 && ops[0] == Stage(b, true, false, false)
    ensures states[0] == s && states[1] == t
    ensures states[2].active == Some(Pointer(b.revision.id, Some(Candidate(site.root, b.revision.id))))
    ensures !Holds(states[2].files, Base(site, b.revision.id), placed)
  {
    hide *;
    FailedStageIsOp(env, site, s, b, t);
    states, ops := ActivatesRemains(env, site, s, t, b);
    NotHeld(states[2].files, Base(site, b.revision.id), placed, n);
  }

  lemma NotHeld(files: map<Elements, Bytes>, base: Elements, placed: seq<Placed>, n: nat)
    requires n < |placed| && placed[n].at in files && files[placed[n].at] != placed[n].content
    ensures !Holds(files, base, placed)
  {
    assert placed[n] in placed;
  }

  /** Why it takes a successful Stage: manifest.json is not written last, and Activate looks for nothing
      else. Every valid bundle whose files do not clash has a run in which staging fails half way through
      manifest.json, leaving it empty and everything after it unwritten, and the remains are activated. */
  lemma PartialCandidateActivates(env: Env, site: Site, s: Disk, b: Bundle)
    returns (states: seq<Disk>, ops: seq<Op>, n: nat)
    requires Standard(env) && env.decode("").None? && Valid(env, b) && NoClash(PlacedFiles(site, b))
    requires s.active.None? && NothingAt(s, Base(site, b.revision.id)) && NoFileAbove(s.files, Base(site, b.revision.id))
    ensures IsRun(env, site, states, ops) && |ops| == 2 && states[0] == s
    ensures ops[0] == Stage(b, true, false, false)
    ensures n < |PlacedFiles(site, b)| && PlacedFiles(site, b)[n].at == Base(site, b.revision.id) + [MANIFEST]
    ensures states[1] == WithWritten(s, CutShort(PlacedFiles(site, b), n, ""))
    ensures states[2].active == Some(Pointer(b.revision.id, Some(Candidate(site.root, b.revision.id))))
    ensures !Holds(states[2].files, Base(site, b.revision.id), PlacedFiles(site, b))
  {
    hide *;
    n := ManifestPlaced(env, site, b);
    ValidIsInside(env, site, b);
    ValidIdIsOneElement(env, b);
    states, ops := CutShortActivates(env, site, s, b, PlacedFiles(site, b), n);
  }

  lemma ValidIdIsOneElement(env: Env, b: Bundle)
    requires Standard(env) && Valid(env, b)
    ensures OneElement(b.revision.id) && !Blank(b.revision.id)
  {
    SafeIdentifierIsOneElement(b.revision.id);
  }

  lemma ActivatesRemains(env: Env, site: Site, s: Disk, t: Disk, b: Bundle) returns (states: seq<Disk>, ops: seq<Op>)
    requires OpStep(env, site, s, Stage(b, true, false, false), t) && s.active.None?
    requires OneElement(b.revision.id) && !Blank(b.revision.id)
    requires Exists(t, Base(site, b.revision.id)) && Exists(t, Base(site, b.revision.id) + [MANIFEST])
    ensures IsRun(env, site, states, ops) && |ops| == 2 && ops[0] == Stage(b, true, false, false)
    ensures states[0] == s && states[1] == t
    ensures states[2].active == Some(Pointer(b.revision.id, Some(Candidate(site.root, b.revision.id)))) && states[2].files == t.files
  {
    var id := b.revision.id;
    var pointer := Pointer(id, Some(Candidate(site.root, id)));
    RemainsActivate(site, t, id, pointer);
    ActivateIsOp(env, site, t, id, Some(pointer), t.(active := Some(pointer)));
    states := [s, t, t.(active := Some(pointer))];
    ops := [Stage(b, true, false, false), Activate(id, false, Some(pointer))];
    TwoOps(env, site, s, ops[0], t, ops[1], states[2]);
  }

  lemma ActivateIsOp(env: Env, site: Site, t: Disk, id: string, r: Option<Pointer>, u: Disk)
    requires OneElement(id) && ActivateStep(site, t, u, id, false, r)
    ensures OpStep(env, site, t, Activate(id, false, r), u)
  {
  }

  lemma RemainsActivate(site: Site, t: Disk, id: string, pointer: Pointer)
    requires OneElement(id) && !Blank(id) && pointer == Pointer(id, Some(Candidate(site.root, id)))
    requires Exists(t, Base(site, id)) && Exists(t, Base(site, id) + [MANIFEST])
    ensures ActivateStep(site, t, t.(active := Some(pointer)), id, false, Some(pointer))
  {
    SpotIsBase(site, id);
  }

  lemma TwoOps(env: Env, site: Site, s: Disk, first: Op, t: Disk, second: Op, u: Disk)
    requires s.active.None? && OpStep(env, site, s, first, t) && OpStep(env, site, t, second, u)
    ensures IsRun(env, site, [s, t, u], [first, second])
  {
    hide OpStep;
    var states, ops := [s, t, u], [first, second];
    forall i | 0 <= i < |ops| ensures OpStep(env, site, states[i], ops[i], states[i + 1]) {
      assert i == 0 || i == 1;
    }
  }

  // ---- Rollback --------------------------------------------------------------------------------------

  lemma SameTreeTrans(s: Disk, t: Disk, u: Disk, base: Elements)
    requires SameTree(s, t, base) && SameTree(t, u, base)
    ensures SameTree(s, u, base)
  {
  }

  /** The active directory is a directory, or can become one, and holds none. */
  ghost predicate ActiveFree(site: Site, s: Disk) {
    && NoFileAbove(s.files, ActiveDirectory(site)) && ActiveDirectory(site) !in s.files
    && forall k :: k in s.dirs && ActiveDirectory(site) <= k ==> k == ActiveDirectory(site)
  }

  lemma StageKeepsActiveFree(site: Site, s: Disk, t: Disk, id: string)
    requires ActiveFree(site, s) && SameOutside(s, t, Base(site, id))
    ensures ActiveFree(site, t)
  {
    var n, dir, base := |Home(site)|, ActiveDirectory(site), Base(site, id);
    assert dir[n] == "active" && base[n] == "candidates";
    forall k | k in t.dirs && dir <= k ensures k == dir {
      assert k[n] == "active" && !(base <= k) && !(k <= base);
      assert k in s.dirs;
    }
    forall k | k <= dir ensures k !in t.files {
      assert k < dir || k == dir;
      assert !(base <= k) && k !in s.files;
    }
  }

  lemma SwitchKeepsFree(site: Site, s: Disk, t: Disk, temp: Elements, name: string)
    requires ActiveFree(site, s) && temp == ActiveDirectory(site) + [name]
    requires SameBesidesTemp(s, t, ActiveDirectory(site), temp)
    ensures ActiveFree(site, t)
  {
  }

  lemma ActivateKeepsActiveFree(site: Site, s: Disk, t: Disk, id: string, trouble: bool, r: Option<Pointer>)
    requires ActiveFree(site, s) && OneElement(id) && ActivateStep(site, s, t, id, trouble, r)
    ensures ActiveFree(site, t)
  {
    TempIsInActive(site, id);
    SwitchKeepsFree(site, s, t, TempSpot(site, id), ".current." + id + ".tmp");
  }

  lemma FreeIsWritable(site: Site, s: Disk, id: string)
    requires ActiveFree(site, s) && OneElement(id)
    ensures TempWritable(s, ActiveDirectory(site), TempSpot(site, id))
  {
    TempIsInActive(site, id);
    assert Parent(TempSpot(site, id)) == ActiveDirectory(site);
  }

  /** Activating a candidate whose tree is still as it was when active. */
  lemma Reactivated(site: Site, s: Disk, now: Disk, t: Disk, trouble: bool, r: Option<Pointer>)
    requires ActiveSound(site, s) && s.active.Some? && ActiveFree(site, now)
    requires SameTree(s, now, Base(site, s.active.value.revisionID))
    requires ActivateStep(site, now, t, s.active.value.revisionID, trouble, r)
    ensures r.Some? ==> t.active == s.active && SameTree(s, t, Base(site, s.active.value.revisionID))
    ensures !trouble ==> r.Some?
  {
    var id := s.active.value.revisionID;
    var base := Base(site, id);
    SpotIsBase(site, id);
    ExistsBySameTree(s, now, base, base);
    ExistsBySameTree(s, now, base, base + [MANIFEST]);
    FreeIsWritable(site, now, id);
    ActivateSparesCandidates(site, now, t, id, trouble, r, id);
    SameTreeTrans(s, now, t, base);
  }

  /** After a failed update the old system is back exactly: with `old` active, Stage(new) however it went,
      Activate(new) and Rollback(new, old) leave `old` active and its tree byte for byte; if Rollback fails,
      the new revision stays active and no candidate changed. Without failing writes it succeeds if and only
      if the new id, trimmed, is not the old one. */
  lemma RollbackRestores(env: Env, site: Site, ups: nat, s: Disk, staged: Disk, activated: Disk, t: Disk,
                         stage: Op, activate: Op, rollback: Op)
    requires Recognizing(site.root, ups) && ActiveSound(site, s) && s.active.Some? && ActiveFree(site, s)
    requires stage.Stage? && !stage.blind && stage.bundle.revision.id != s.active.value.revisionID
    requires activate.Activate? && activate.id == stage.bundle.revision.id && activate.result.Some?
    requires rollback.Rollback? && rollback.failed == activate.id && rollback.knownGood == s.active
    requires OpStep(env, site, s, stage, staged) && OpStep(env, site, staged, activate, activated)
    requires OpStep(env, site, activated, rollback, t)
    ensures rollback.result.Some? ==> t.active == s.active && SameTree(s, t, Base(site, s.active.value.revisionID))
    ensures rollback.result.None? ==> t.active == activated.active
    ensures rollback.result.None? ==> forall other :: SameTree(activated, t, Base(site, other))
    ensures !rollback.trouble ==> (rollback.result.Some? <==> Trim(activate.id) != s.active.value.revisionID)
  {
    var previous := s.active.value.revisionID;
    BeforeRollback(env, site, ups, s, staged, activated, stage, activate);
    if RollbackAllowed(activate.id, s.active) {
      Reactivated(site, s, activated, t, rollback.trouble, rollback.result);
      forall other ensures SameTree(activated, t, Base(site, other)) {
        ActivateSparesCandidates(site, activated, t, previous, rollback.trouble, rollback.result, other);
      }
    }
  }

  lemma BeforeRollback(env: Env, site: Site, ups: nat, s: Disk, staged: Disk, activated: Disk, stage: Op, activate: Op)
    requires Recognizing(site.root, ups) && ActiveSound(site, s) && s.active.Some? && ActiveFree(site, s)
    requires stage.Stage? && !stage.blind && stage.bundle.revision.id != s.active.value.revisionID
    requires activate.Activate? && activate.id == stage.bundle.revision.id && activate.result.Some?
    requires OpStep(env, site, s, stage, staged) && OpStep(env, site, staged, activate, activated)
    ensures SameTree(s, activated, Base(site, s.active.value.revisionID)) && ActiveFree(site, activated)
    ensures !Blank(activate.id)
  {
    var id := s.active.value.revisionID;
    StageSparesActive(env, site, ups, s, staged, stage.bundle, stage.trouble, stage.ok);
    if staged != s { StageKeepsActiveFree(site, s, staged, stage.bundle.revision.id); }
    ActivateSparesCandidates(site, staged, activated, activate.id, activate.trouble, activate.result, id);
    ActivateKeepsActiveFree(site, staged, activated, activate.id, activate.trouble, activate.result);
    SameTreeTrans(s, staged, activated, Base(site, id));
  }
}
