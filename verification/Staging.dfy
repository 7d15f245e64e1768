/** The store a deployment writes through: CandidateStager, AtomicActivator, RollbackRunner and the
    reload-and-health runner. A parameter `trouble` admits failing reads and writes; a failing write
    leaves anything at the place it was writing to. */
module Staging {
  import opened Basics
  import opened Text
  import opened Paths
  import opened Bundles
  import opened Disks

  datatype RollbackResult = RollbackResult(failedRevisionID: string, rolledBackTo: string, succeeded: bool,
                                           activationPointer: Option<Pointer>)

  datatype ReloadError =
    | PointerRequired | RevisionRequired | PathRequired | ExecutorRequired | CheckerRequired | ReloadFailed

  /** healthCheckError says that the check, having been run, failed. */
  datatype ReloadHealthResult = ReloadHealthResult(revisionID: string, reloadSucceeded: bool, healthCheckSucceeded: bool,
                                                   reloadError: Option<ReloadError>, healthCheckError: bool)

  /** The directories os.MkdirAll(at) makes sure of. */
  function PathTo(at: Elements): set<Elements> {
    set i | 0 <= i <= |at| :: at[..i]
  }

  lemma PathToMembers(at: Elements, k: Elements)
    ensures k in PathTo(at) <==> k <= at
  {
    if k <= at { assert at[..|k|] == k; }
  }

  method FirstFileAbove(files: map<Elements, Bytes>, at: Elements) returns (found: bool)
    ensures found <==> !NoFileAbove(files, at)
  {
    for i := 0 to |at|
      invariant forall k :: 0 <= k < i ==> at[..k] !in files
    {
      if at[..i] in files {
        assert at[..i] < at;
        return true;
      }
    }
    forall k | k < at ensures k !in files { assert at[..|k|] == k; }
    return false;
  }

  lemma TakesOne(below: set<Elements>, left: set<Elements>, path: Elements)
    requires path in left
    ensures |below - (left - {path})| == |below - left| + (if path in below then 1 else 0)
  {
    assert below - (left - {path}) == (below - left) + (if path in below then {path} else {});
  }

  /** Its walk, counting regular files. */
  method CountFiles(files: map<Elements, Bytes>, base: Elements) returns (fileCount: nat)
    ensures fileCount == |FilesBelow(files, base)|
  {
    ghost var below := FilesBelow(files, base);
    fileCount := 0;
    var left := files.Keys;
    while left != {}
      invariant left <= files.Keys
      invariant fileCount == |below - left|
      decreases |left|
    {
      var path :| path in left;
      TakesOne(below, left, path);
      left := left - {path};
      if base <= path { fileCount := fileCount + 1; }
    }
    assert below - left == below;
  }

  /** candidateMatchesBundle; None is a failed read. */
  method CandidateMatchesBundle(s: Disk, base: Elements, placed: seq<Placed>) returns (r: Option<bool>)
    ensures r.Some? && r.value ==> Matches(s.files, base, placed)
    ensures Matches(s.files, base, placed) ==> r == Some(true)
    ensures r.None? ==> !Readable(s, placed)
  {
    var fileCount := CountFiles(s.files, base);
    if fileCount != |placed| { return Some(false); }
    for i := 0 to |placed|
      invariant forall k :: 0 <= k < i ==> placed[k].at in s.files && s.files[placed[k].at] == placed[k].content
    {
      var p := placed[i];
      assert p in placed;
      if p.at !in s.files {
        var blocked := FirstFileAbove(s.files, p.at);
        return if p.at in s.dirs || blocked then None else Some(false);
      }
      if s.files[p.at] != p.content { return Some(false); }
    }
    return Some(true);
  }

  lemma RewrittenStep(files: map<Elements, Bytes>, base: Elements, placed: seq<Placed>, next: Placed)
    requires Rewritten(files, base, placed) && base <= next.at
    ensures Rewritten(files[next.at := next.content], base, placed + [next])
  {
    assert (placed + [next])[..|placed|] == placed;
  }

  lemma LeadingStep(dirs: set<Elements>, base: Elements, placed: seq<Placed>, next: Placed)
    requires OnlyLeading(dirs, base, placed) && base < next.at
    ensures OnlyLeading(dirs + PathTo(Parent(next.at)), base, placed + [next])
  {
    forall k | k in dirs + PathTo(Parent(next.at)) && base <= k
      ensures k == base || exists p <- placed + [next] :: k < p.at
    {
      PathToMembers(Parent(next.at), k);
      if k in dirs && k != base {
        var p :| p in placed && k < p.at;
        assert p in placed + [next];
      } else if k <= Parent(next.at) {
        assert next in placed + [next] && k < next.at;
      }
    }
  }

  lemma LeadingGrows(dirs: set<Elements>, base: Elements, placed: seq<Placed>, next: Placed)
    requires OnlyLeading(dirs, base, placed)
    ensures OnlyLeading(dirs, base, placed + [next])
  {
    forall k | k in dirs && base <= k && k != base ensures exists p <- placed + [next] :: k < p.at {
      var p :| p in placed && k < p.at;
      assert p in placed + [next];
    }
  }

  /** Every directory from base down to one of these files is there. */
  ghost predicate Led(dirs: set<Elements>, base: Elements, placed: seq<Placed>) {
    forall p, k :: p in placed && base <= k < p.at ==> k in dirs
  }

  lemma LedStep(dirs: set<Elements>, base: Elements, placed: seq<Placed>, next: Placed)
    requires Led(dirs, base, placed) && base < next.at
    ensures Led(dirs + PathTo(Parent(next.at)), base, placed + [next])
  {
    forall p, k | p in placed + [next] && base <= k < p.at ensures k in dirs + PathTo(Parent(next.at)) {
      if p !in placed { PathToMembers(Parent(next.at), k); }
    }
  }

  /** What the file system takes fits the files written so far. */
  lemma NoClashStep(files: map<Elements, Bytes>, dirs: set<Elements>, base: Elements, placed: seq<Placed>, next: Placed)
    requires NoClash(placed) && AllInside(base, placed) && base < next.at
    requires Rewritten(files, base, placed) && Led(dirs, base, placed)
    requires NoFileAbove(files, next.at) && next.at !in dirs
    ensures NoClash(placed + [next])
  {
    WrittenKeys(map[], placed);
    forall p | p in placed ensures !(p.at < next.at) && !(next.at < p.at) {
      assert base <= p.at && p.at in files;
    }
    assert !(next.at < next.at);
  }

  /** A write that was at least begun, finding its directory. */
  lemma WrittenStep(s: Disk, u: Disk, t: Disk, base: Elements, before: seq<Placed>, file: Placed)
    requires Written(s, u, base, before, before + [file]) && AllInside(base, before) && base < file.at
    requires Led(u.dirs, base, before) && NoFileAbove(u.files, Parent(file.at)) && Parent(file.at) !in u.files
    requires file.at !in u.dirs && t.dirs == u.dirs && file.at in t.files && t.files == u.files[file.at := t.files[file.at]]
    ensures Written(s, t, base, before + [Placed(file.at, t.files[file.at])], before + [file])
  {
    var left := Placed(file.at, t.files[file.at]);
    forall k | k < file.at ensures k !in u.files { assert k < Parent(file.at) || k == Parent(file.at); }
    NoClashStep(u.files, u.dirs, base, before, left);
    RewrittenStep(u.files, base, before, left);
  }

  lemma WrittenSince(s: Disk, u: Disk, t: Disk, base: Elements, placed: seq<Placed>, reached: seq<Placed>)
    requires SameOutside(s, u, base) && Written(u, t, base, placed, reached)
    ensures Written(s, t, base, placed, reached)
  {
  }

  lemma UnfinishedSince(s: Disk, u: Disk, t: Disk, base: Elements, placed: seq<Placed>)
    requires SameOutside(s, u, base) && Unfinished(u, t, base, placed)
    ensures Unfinished(s, t, base, placed)
  {
    var n: nat :| n < |placed| && FailedAt(u, t, base, placed, n);
    if Written(u, t, base, placed[..n], placed[..n + 1]) {
      WrittenSince(s, u, t, base, placed[..n], placed[..n + 1]);
    } else {
      var junk :| Written(u, t, base, CutShort(placed, n, junk), placed[..n + 1]);
      WrittenSince(s, u, t, base, CutShort(placed, n, junk), placed[..n + 1]);
    }
    assert FailedAt(s, t, base, placed, n);
  }

  /** Among files that do not clash nothing written so far is in the way of the next one. */
  lemma NothingInTheWay(files: map<Elements, Bytes>, dirs: set<Elements>, base: Elements, placed: seq<Placed>, next: Placed)
    requires NoClash(placed + [next]) && base < next.at && NoFileAbove(files, base)
    requires Rewritten(files, base, placed) && OnlyLeading(dirs, base, placed)
    ensures NoFileAbove(files, Parent(next.at)) && Parent(next.at) !in files
    ensures next.at !in dirs + PathTo(Parent(next.at))
  {
    WrittenKeys(map[], placed);
    assert next in placed + [next];
    forall p | p in placed ensures !(p.at < next.at) && !(next.at < p.at) { assert p in placed + [next]; }
    forall k | k < next.at ensures k !in files {
      if !(base <= k) { PrefixesCompare(k, base, next.at); }
    }
    PathToMembers(Parent(next.at), next.at);
  }

  /** Directories on the way to base, or files and directories below it. */
  lemma WritesStayInside(s: Disk, t: Disk, u: Disk, base: Elements, at: Elements)
    requires SameOutside(s, t, base) && base <= at
    requires forall k :: k != at ==> (k in t.files <==> k in u.files) && (k in t.files ==> u.files[k] == t.files[k])
    requires t.dirs <= u.dirs && forall k :: k in u.dirs && k !in t.dirs ==> k <= at
    ensures SameOutside(s, u, base)
  {
    forall k | k in u.dirs ensures !(base <= k) && !(k <= base) ==> k in t.dirs {
      if k <= at { PrefixesCompare(k, base, at); }
    }
  }

  /** Making directories down to base once its tree is gone. */
  lemma MadeOnTheWay(s: Disk, t: Disk, u: Disk, base: Elements)
    requires SameOutside(s, t, base) && forall k :: base <= k ==> k !in t.files && k !in t.dirs
    requires u.files == t.files && t.dirs <= u.dirs <= t.dirs + PathTo(base)
    ensures SameOutside(s, u, base)
    ensures base !in u.dirs ==> Remains(s, u, base)
    ensures OnlyLeading(u.dirs, base, []) && Rewritten(u.files, base, [])
    ensures u.dirs == t.dirs + PathTo(base) ==> base in u.dirs
  {
    forall k ensures k in PathTo(base) <==> k <= base { PathToMembers(base, k); }
    forall k | base <= k && k in u.dirs ensures k == base { assert k == base[..|k|]; }
    assert SameOutside(t, u, base);
    SameOutsideTrans(s, t, u, base);
  }

  lemma FailedInLoop(s: Disk, t: Disk, base: Elements, placed: seq<Placed>, i: nat)
    requires i < |placed| && placed[..i + 1] == placed[..i] + [placed[i]]
    requires || Written(s, t, base, placed[..i], placed[..i + 1])
             || exists junk :: Written(s, t, base, placed[..i] + [Placed(placed[i].at, junk)], placed[..i + 1])
    ensures Unfinished(s, t, base, placed)
  {
    if !Written(s, t, base, placed[..i], placed[..i + 1]) {
      var junk :| Written(s, t, base, placed[..i] + [Placed(placed[i].at, junk)], placed[..i + 1]);
      assert Written(s, t, base, CutShort(placed, i, junk), placed[..i + 1]);
    }
    assert FailedAt(s, t, base, placed, i);
  }

  lemma RollbackActivates(site: Site, s: Disk, t: Disk, failed: string, knownGood: Option<Pointer>, trouble: bool,
                          r: Option<Pointer>)
    requires RollbackAllowed(failed, knownGood)
    requires ActivateStep(site, s, t, knownGood.value.revisionID, trouble, r)
    ensures RollbackStep(site, s, t, failed, knownGood, trouble, r)
  {
  }

  class Store {
    const site: Site
    const env: Env
    var files: map<Elements, Bytes>
    var dirs: set<Elements>
    var active: Option<Pointer>

    constructor (env: Env, site: Site, files: map<Elements, Bytes>, dirs: set<Elements>, active: Option<Pointer>)
      ensures this.env == env && this.site == site && State() == Disk(files, dirs, active)
    {
      this.env, this.site, this.files, this.dirs, this.active := env, site, files, dirs, active;
    }

    function State(): Disk
      reads this
    {
      Disk(files, dirs, active)
    }

    /** os.MkdirAll: fails on a file in the way, may fail anywhere above the last directory. */
    method MakeDirectories(at: Elements, trouble: bool) returns (ok: bool)
      modifies this`dirs
      ensures ok ==> dirs == old(dirs) + PathTo(at) && NoFileAbove(files, at) && at !in files
      ensures old(dirs) <= dirs <= old(dirs) + PathTo(at)
      ensures !ok && at !in old(dirs) ==> at !in dirs
      ensures !trouble && NoFileAbove(files, at) && at !in files ==> ok
    {
      var failing: bool := *;
      if trouble && failing {
        var made: int := *;
        if 0 <= made < |at| {
          forall k | k in PathTo(at[..made]) ensures k in PathTo(at) && k != at {
            PathToMembers(at[..made], k);
            PathToMembers(at, k);
          }
          dirs := dirs + PathTo(at[..made]);
        }
        return false;
      }
      var blocked := FirstFileAbove(files, at);
      if blocked || at in files { return false; }
      dirs := dirs + PathTo(at);
      return true;
    }

    /** os.RemoveAll: failing, it may have removed some of the tree. */
    method RemoveTree(base: Elements, trouble: bool) returns (ok: bool)
      modifies this`files, this`dirs
      ensures SameOutside(old(State()), State(), base)
      ensures Remains(old(State()), State(), base)
      ensures ok ==> forall k :: base <= k ==> k !in files && k !in dirs
      ensures !trouble ==> ok
    {
      var failing: bool := *;
      var kept: set<Elements> := *;
      ok := !(trouble && failing);
      var spared := if ok then {} else kept;
      files := map k | k in files && (!(base <= k) || k in spared) :: files[k];
      dirs := set k | k in dirs && (!(base <= k) || k in spared);
    }

    /** os.WriteFile: fails on a directory, and failing half way leaves anything in the file. */
    method WriteFile(at: Elements, content: Bytes, trouble: bool) returns (ok: bool)
      modifies this`files
      ensures ok ==> at !in dirs && files == old(files)[at := content]
      ensures !ok ==> files == old(files) || (at !in dirs && at in files && files == old(files)[at := files[at]])
      ensures !trouble && at !in dirs ==> ok
    {
      if at in dirs { return false; }
      var failing: bool := *;
      if trouble && failing {
        var truncated: bool := *;
        var junk: Bytes := *;
        if truncated { files := files[at := junk]; }
        return false;
      }
      files := files[at := content];
      return true;
    }

    /** One turn of the writing loop. */
    method WriteOne(ghost s: Disk, ghost base: Elements, ghost before: seq<Placed>, file: Placed, trouble: bool)
      returns (ok: bool)
      requires SameOutside(s, State(), base) && base < file.at
      requires AllInside(base, before) && Led(dirs, base, before) && Written(s, State(), base, before, before)
      modifies this`files, this`dirs
      ensures SameOutside(s, State(), base)
      ensures ok ==> Led(dirs, base, before + [file]) && Written(s, State(), base, before + [file], before + [file])
      ensures !ok ==> || Written(s, State(), base, before, before + [file])
                      || exists junk :: Written(s, State(), base, before + [Placed(file.at, junk)], before + [file])
      ensures !trouble && NoClash(before + [file]) ==> ok
    {
      hide WriteAll, Rewritten;
      ghost var t := State();
      ghost var parent := Parent(file.at);
      assert NoFileAbove(files, base);
      if NoClash(before + [file]) { NothingInTheWay(files, dirs, base, before, file); }
      LeadingStep(dirs, base, before, file);
      LedStep(dirs, base, before, file);
      forall k ensures k in PathTo(parent) <==> k <= parent { PathToMembers(parent, k); }
      var made := MakeDirectories(Parent(file.at), trouble);
      WritesStayInside(s, t, State(), base, file.at);
      if !made { return false; }
      ghost var u := State();
      ok := WriteFile(file.at, file.content, trouble);
      WritesStayInside(s, u, State(), base, file.at);
      if ok || files != u.files { WrittenStep(s, u, State(), base, before, file); }
    }

    /** The writing loop of Stage: all files, or what is left when writing one of them failed. */
    method WriteFiles(base: Elements, placed: seq<Placed>, trouble: bool) returns (ok: bool)
      requires base in dirs && OnlyLeading(dirs, base, []) && Rewritten(files, base, []) && NoFileAbove(files, base)
      modifies this`files, this`dirs
      ensures SameOutside(old(State()), State(), base)
      ensures ok ==> Written(old(State()), State(), base, placed, placed)
      ensures !ok ==> Unfinished(old(State()), State(), base, placed)
      ensures !trouble && NoClash(placed) && AllInside(base, placed) ==> ok
    {
      ghost var s := State();
      for i := 0 to |placed|
        invariant SameOutside(s, State(), base)
        invariant AllInside(base, placed[..i]) && Led(dirs, base, placed[..i])
        invariant Written(s, State(), base, placed[..i], placed[..i])
      {
        var file := placed[i];
        assert placed[..i + 1] == placed[..i] + [file];
        LeadingGrows(dirs, base, placed[..i], file);
        if !(base <= file.at) || file.at == base {
          assert FailedAt(s, State(), base, placed, i);
          return false;
        }
        var written := WriteOne(s, base, placed[..i], file, trouble);
        if !written {
          FailedInLoop(s, State(), base, placed, i);
          return false;
        }
      }
      assert placed[..|placed|] == placed;
      return true;
    }

    /** CandidateStager.Stage */
    method Stage(b: Bundle, trouble: bool, blind: bool) returns (ok: bool)
      modifies this`files, this`dirs
      ensures StageStep(env, site, old(State()), State(), b, trouble, blind, ok)
    {
      var valid := ValidateRevisionBundle(env, b);
      if !valid { return false; }
      var base, placed := Base(site, b.revision.id), PlacedFiles(site, b);
      var readFailure: bool := *;
      if trouble && readFailure { return false; }
      if Exists(State(), base) {
        var matches := CandidateMatchesBundle(State(), base, placed);
        if matches.None? { return false; }
        if matches.value { return true; }
        if !blind && Guarded(site, State(), b.revision.id) { return false; }
      }
      ok := Replace(base, placed, trouble);
    }

    /** The rest of Stage, once the candidate is known not to be the active one. */
    method Replace(base: Elements, placed: seq<Placed>, trouble: bool) returns (ok: bool)
      modifies this`files, this`dirs
      ensures SameOutside(old(State()), State(), base)
      ensures if ok then Written(old(State()), State(), base, placed, placed) else Leftover(old(State()), State(), base, placed)
      ensures !trouble && NoClash(placed) && AllInside(base, placed) && NoFileAbove(old(files), base) ==> ok
    {
      ghost var s := State();
      ok := RemoveTree(base, trouble);
      if !ok { return; }
      ghost var t := State();
      ok := MakeDirectories(base, trouble);
      ghost var u := State();
      MadeOnTheWay(s, t, u, base);
      if !ok { return; }
      ok := WriteFiles(base, placed, trouble);
      SameOutsideTrans(s, u, State(), base);
      if ok {
        WrittenSince(s, u, State(), base, placed, placed);
      } else {
        UnfinishedSince(s, u, State(), base, placed);
      }
    }

    /** AtomicActivator.Activate: write the reference beside, then rename it into place. */
    method Activate(id: string, trouble: bool) returns (r: Option<Pointer>)
      modifies this
      ensures ActivateStep(site, old(State()), State(), id, trouble, r)
    {
      if Blank(id) { return None; }
      var candidate := Spot(site, id);
      if !Exists(State(), candidate) { return None; }
      if !Exists(State(), candidate + [MANIFEST]) { return None; }
      var pointer := Pointer(id, Some(Candidate(site.root, id)));
      var ok := SwitchTo(pointer, ActiveDirectory(site), TempSpot(site, id), trouble);
      r := if ok then Some(pointer) else None;
    }

    method SwitchTo(pointer: Pointer, directory: Elements, temp: Elements, trouble: bool) returns (ok: bool)
      modifies this
      ensures SameBesidesTemp(old(State()), State(), directory, temp)
      ensures active == if ok then Some(pointer) else old(active)
      ensures !trouble && TempWritable(old(State()), directory, temp) ==> ok
    {
      var made := MakeDirectories(directory, trouble);
      forall k ensures k in PathTo(directory) <==> k <= directory { PathToMembers(directory, k); }
      if !made { return false; }
      // The reference's JSON text; nothing depends on it.
      var content: Bytes := *;
      if Parent(temp) !in dirs { return false; }
      var written := WriteFile(temp, content, trouble);
      if !written { return false; }
      var replaceFailure: bool, removeFailure: bool := *, *;
      if trouble && replaceFailure {
        if !removeFailure { files := files - {temp}; }
        return false;
      }
      files := files - {temp};
      active := Some(pointer);
      return true;
    }

    /** RollbackRunner.Rollback; the second result is false for any of its errors. */
    method Rollback(failed: string, knownGood: Option<Pointer>, trouble: bool)
      returns (result: RollbackResult, ok: bool)
      modifies this
      ensures RollbackStep(site, old(State()), State(), failed, knownGood, trouble, result.activationPointer)
      ensures result.failedRevisionID == Trim(failed)
      ensures ok == result.succeeded == result.activationPointer.Some?
      ensures result.rolledBackTo == if ok then knownGood.value.revisionID else ""
    {
      result := RollbackResult(Trim(failed), "", false, None);
      if result.failedRevisionID == "" { return result, false; }
      if knownGood.None? { return result, false; }
      if Blank(knownGood.value.revisionID) { return result, false; }
      if knownGood.value.candidatePath.None? { return result, false; }
      if result.failedRevisionID == knownGood.value.revisionID { return result, false; }
      ghost var s := State();
      var activated := Activate(knownGood.value.revisionID, trouble);
      RollbackActivates(site, s, State(), failed, knownGood, trouble, activated);
      if activated.None? { return result, false; }
      result := result.(rolledBackTo := knownGood.value.revisionID, succeeded := true, activationPointer := activated);
      ok := true;
    }
  }

  /** What the reload-and-health runner does to the world. */
  datatype Deed = Ran(binary: string, args: seq<string>, workdir: string) | Checked(pointer: Pointer)

  function ReloadCommand(binary: string, candidatePath: Path): Deed {
    var root := PathText(Paths.Join(candidatePath, "nginx"));
    Ran(if Blank(binary) then "nginx" else Trim(binary), ["-p", root, "-c", "nginx.conf", "-s", "reload"], root)
  }

  lemma NginxBelow(path: Path)
    ensures Paths.Join(path, "nginx") == Path(path.rooted, path.elements + ["nginx"])
  {
    PlainIsOneElement("nginx");
    JoinOneElement(path, "nginx");
  }

  predicate Ready(executor: Option<Deed -> bool>, checker: Option<Pointer -> bool>, current: Option<Pointer>) {
    && current.Some? && !Blank(current.value.revisionID) && current.value.candidatePath.Some?
    && executor.Some? && checker.Some?
  }

  /** ReloadHealthRunner.Run. The executor and the checker may be missing; they answer whether they
      succeeded. `deeds` is what was done, in order. */
  method RunReloadHealth(binary: string, executor: Option<Deed -> bool>, checker: Option<Pointer -> bool>,
                         current: Option<Pointer>)
    returns (result: ReloadHealthResult, deeds: seq<Deed>)
    ensures Ready(executor, checker, current) ==>
              var path := current.value.candidatePath.value;
              var directory := PathText(Path(path.rooted, path.elements + ["nginx"]));
              var command := Ran(if Trim(binary) == "" then "nginx" else Trim(binary),
                                 ["-p", directory, "-c", "nginx.conf", "-s", "reload"], directory);
              && result.reloadSucceeded == executor.value(command)
              && result.healthCheckSucceeded == (result.reloadSucceeded && checker.value(current.value))
              && result.revisionID == current.value.revisionID
              && deeds == [command] + (if result.reloadSucceeded then [Checked(current.value)] else [])
    ensures !Ready(executor, checker, current) ==>
              deeds == [] && !result.reloadSucceeded && !result.healthCheckSucceeded && result.revisionID == ""
    ensures result.reloadError.Some? <==> !result.reloadSucceeded
    ensures result.reloadError == Some(ReloadFailed) <==> Ready(executor, checker, current) && !result.reloadSucceeded
    ensures result.healthCheckError <==> result.reloadSucceeded && !result.healthCheckSucceeded
    ensures result.reloadError == Some(PointerRequired) <==> current.None?
    ensures result.reloadError == Some(RevisionRequired) <==> current.Some? && Blank(current.value.revisionID)
    ensures result.reloadError == Some(PathRequired)
            <==> current.Some? && !Blank(current.value.revisionID) && current.value.candidatePath.None?
    ensures result.reloadError == Some(ExecutorRequired)
            <==> current.Some? && !Blank(current.value.revisionID) && current.value.candidatePath.Some? && executor.None?
  {
    if current.None? { return NotReloaded("", PointerRequired), []; }
    if Blank(current.value.revisionID) { return NotReloaded("", RevisionRequired), []; }
    if current.value.candidatePath.None? { return NotReloaded("", PathRequired), []; }
    if executor.None? { return NotReloaded("", ExecutorRequired), []; }
    if checker.None? { return NotReloaded("", CheckerRequired), []; }
    NginxBelow(current.value.candidatePath.value);
    var command := ReloadCommand(binary, current.value.candidatePath.value);
    result, deeds := ReloadThenCheck(command, executor.value, checker.value, current.value);
  }

  function NotReloaded(revisionID: string, error: ReloadError): ReloadHealthResult {
    ReloadHealthResult(revisionID, false, false, Some(error), false)
  }

  /** Reload, and check health only if that succeeded. */
  method ReloadThenCheck(command: Deed, executor: Deed -> bool, checker: Pointer -> bool, current: Pointer)
    returns (result: ReloadHealthResult, deeds: seq<Deed>)
    ensures result.reloadSucceeded == executor(command)
    ensures result.healthCheckSucceeded == (executor(command) && checker(current))
    ensures result.revisionID == current.revisionID
    ensures result.reloadError == if executor(command) then None else Some(ReloadFailed)
    ensures result.healthCheckError == (executor(command) && !checker(current))
    ensures deeds == [command] + (if executor(command) then [Checked(current)] else [])
  {
    result, deeds := ReloadHealthResult(current.revisionID, false, false, None, false), [];
    var reloaded := executor(command);
    deeds := deeds + [command];
    if !reloaded { return NotReloaded(current.revisionID, ReloadFailed), deeds; }
    result := result.(reloadSucceeded := true);
    var healthy := checker(current);
    deeds := deeds + [Checked(current)];
    if !healthy { return result.(healthCheckError := true), deeds; }
    result := result.(healthCheckSucceeded := true);
  }
}
