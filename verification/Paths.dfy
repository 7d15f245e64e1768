/** Slash-separated paths as filepath.Clean and filepath.Join treat them: lists of elements. */
module Paths {
  import opened Text

  type Elements = seq<string>

  /** A cleaned path. Relative ones may start with ".." elements. */
  datatype Path = Path(rooted: bool, elements: Elements)

  /** One element on top of what is already clean. */
  function Step(rooted: bool, stack: Elements, part: string): Elements {
    if part == "" || part == "." then stack
    else if part == ".." then
      if stack != [] && stack[|stack| - 1] != ".." then stack[..|stack| - 1]
      else if rooted then stack
      else stack + [".."]
    else stack + [part]
  }

  function Walk(rooted: bool, stack: Elements, parts: Elements): Elements
    decreases parts
  {
    if parts == [] then stack else Walk(rooted, Step(rooted, stack, parts[0]), parts[1..])
  }

  /** filepath.Clean */
  function Clean(text: string): Path {
    var rooted := text != "" && text[0] == '/';
    Path(rooted, Walk(rooted, [], Split(text, '/')))
  }

  /** filepath.Join(base, text) */
  function Join(base: Path, text: string): Path {
    Path(base.rooted, Walk(base.rooted, base.elements, Split(text, '/')))
  }

  /** filepath.Join(base, path) for a path that is already clean. */
  function JoinPath(base: Path, path: Path): Path {
    Path(base.rooted, Walk(base.rooted, base.elements, path.elements))
  }

  /** The text of a clean path. */
  function PathText(p: Path): string {
    if p.rooted then "/" + Text.Join(p.elements, "/")
    else if p.elements == [] then "."
    else Text.Join(p.elements, "/")
  }

  predicate Inside(clean: Path) {
    clean.elements != [] && clean.elements[0] != ".."
  }

  predicate IsSafeBundlePath(value: string) {
    var v := Trim(value);
    v != "" && v[0] != '/' && '\\' !in v && Inside(Clean(v))
  }

  predicate IdentifierChar(c: char) {
    'a' <= c <= 'z' || 'A' <= c <= 'Z' || '0' <= c <= '9' || c == '.' || c == '_' || c == '-'
  }

  predicate IsSafeBundleIdentifier(value: string) {
    var v := Trim(value);
    v != "" && v != "." && v != ".." && forall c <- v :: IdentifierChar(c)
  }

  /** An element Clean keeps as it is. */
  predicate Normal(part: string) {
    part != "" && part != "." && part != ".."
  }

  // ---- Walks -----------------------------------------------------------------------------------------

  lemma {:induction false} WalkConcat(rooted: bool, stack: Elements, a: Elements, b: Elements)
    ensures Walk(rooted, stack, a + b) == Walk(rooted, Walk(rooted, stack, a), b)
    decreases a
  {
    if a == [] {
      assert a + b == b;
    } else {
      assert (a + b)[1..] == a[1..] + b;
      WalkConcat(rooted, Step(rooted, stack, a[0]), a[1..], b);
    }
  }

  lemma {:induction false} WalkNormal(rooted: bool, stack: Elements, parts: Elements)
    requires forall p <- parts :: Normal(p)
    ensures Walk(rooted, stack, parts) == stack + parts
    decreases parts
  {
    if parts == [] {
      assert stack + parts == stack;
    } else {
      assert Normal(parts[0]);
      WalkNormal(rooted, stack + [parts[0]], parts[1..]);
      assert stack + [parts[0]] + parts[1..] == stack + parts;
    }
  }

  /** How far a part moves down. */
  function Drop(part: string): int {
    if part == "" || part == "." then 0 else if part == ".." then -1 else 1
  }

  function Depth(parts: Elements): int {
    if parts == [] then 0 else Drop(parts[0]) + Depth(parts[1..])
  }

  /** The walk never climbs above where it stood `depth` elements ago. */
  predicate NeverAbove(depth: int, parts: Elements)
    decreases parts
  {
    depth >= 0 && (parts == [] || NeverAbove(depth + Drop(parts[0]), parts[1..]))
  }

  /** A walk that never climbs above its start ends inside it, whatever it started from. */
  lemma {:induction false} WalkAbove(base: Elements, stack: Elements, parts: Elements)
    requires ".." !in stack && NeverAbove(|stack|, parts)
    ensures Walk(true, base + stack, parts) == base + Walk(false, stack, parts)
    ensures ".." !in Walk(false, stack, parts)
    ensures |Walk(false, stack, parts)| == |stack| + Depth(parts)
    decreases parts
  {
    if parts != [] {
      var next := Step(false, stack, parts[0]);
      assert NeverAbove(|stack| + Drop(parts[0]), parts[1..]);
      if parts[0] == ".." {
        assert stack != [] && stack[|stack| - 1] in stack;
        assert (base + stack)[..|base + stack| - 1] == base + stack[..|stack| - 1];
      } else if parts[0] != "" && parts[0] != "." {
        assert (base + stack) + [parts[0]] == base + (stack + [parts[0]]);
      }
      assert Step(true, base + stack, parts[0]) == base + next;
      WalkAbove(base, next, parts[1..]);
    }
  }

  lemma {:induction false} UpStays(stack: Elements, parts: Elements)
    requires stack != [] && stack[0] == ".."
    ensures Walk(false, stack, parts) != [] && Walk(false, stack, parts)[0] == ".."
    decreases parts
  {
    if parts != [] { UpStays(Step(false, stack, parts[0]), parts[1..]); }
  }

  lemma {:induction false} InsideMeansNeverAbove(stack: Elements, parts: Elements)
    requires ".." !in stack
    requires var w := Walk(false, stack, parts); w == [] || w[0] != ".."
    ensures NeverAbove(|stack|, parts)
    decreases parts
  {
    if parts != [] {
      var next := Step(false, stack, parts[0]);
      if parts[0] == ".." && stack == [] {
        assert next == [".."];
        UpStays(next, parts[1..]);
        assert false;
      } else {
        if stack != [] { assert stack[|stack| - 1] in stack; }
        InsideMeansNeverAbove(next, parts[1..]);
      }
    }
  }

  // ---- Blanks around a path ------------------------------------------------------------------------------

  lemma {:induction false} LeftPadding(s: string)
    ensures AllBlank(s[..|s| - |TrimLeft(s)|])
  {
    if s != "" && IsSpace(s[0]) {
      LeftPadding(s[1..]);
      var n := |s| - |TrimLeft(s[1..])|;
      assert s[..n] == [s[0]] + s[1..][..n - 1];
    }
  }

  lemma {:induction false} RightPadding(s: string)
    ensures AllBlank(s[|TrimRight(s)|..])
  {
    if s != "" && IsSpace(s[|s| - 1]) {
      var shorter := s[..|s| - 1];
      RightPadding(shorter);
      var n := |TrimRight(shorter)|;
      assert s[n..] == shorter[n..] + [s[|s| - 1]];
    }
  }

  lemma Padding(s: string) returns (lead: string, trail: string)
    ensures AllBlank(lead) && AllBlank(trail) && s == lead + (Trim(s) + trail)
  {
    var l := TrimLeft(s);
    LeftPadding(s);
    RightPadding(l);
    lead, trail := s[..|s| - |l|], l[|TrimRight(l)|..];
    Rejoin(s, l, TrimRight(l));
  }

  lemma Rejoin(s: string, l: string, t: string)
    requires |l| <= |s| && l == s[|s| - |l|..] && t <= l
    ensures s == s[..|s| - |l|] + (t + l[|t|..])
  {
  }

  lemma {:induction false} SplitLead(lead: string, s: string)
    requires '/' !in lead
    ensures Split(lead + s, '/') == [lead + Split(s, '/')[0]] + Split(s, '/')[1..]
  {
    if lead == "" {
      assert lead + s == s && lead + Split(s, '/')[0] == Split(s, '/')[0];
    } else {
      assert (lead + s)[1..] == lead[1..] + s;
      SplitLead(lead[1..], s);
      assert lead == [lead[0]] + lead[1..];
      assert [lead[0]] + (lead[1..] + Split(s, '/')[0]) == lead + Split(s, '/')[0];
    }
  }

  function PadLast(parts: Elements, trail: string): Elements
    requires parts != []
  {
    parts[..|parts| - 1] + [parts[|parts| - 1] + trail]
  }

  lemma {:induction false} SplitTrail(s: string, trail: string)
    requires '/' !in trail
    ensures Split(s + trail, '/') == PadLast(Split(s, '/'), trail)
  {
    if s == "" {
      assert s + trail == trail && "" + trail == trail;
      SplitSingle(trail, '/');
    } else {
      assert (s + trail)[1..] == s[1..] + trail && (s + trail)[0] == s[0];
      SplitTrail(s[1..], trail);
      PadAfter(s[0], Split(s[1..], '/'), trail);
    }
  }

  /** What Split does with one more character in front. */
  function Prepend(c: char, rest: Elements): Elements
    requires rest != []
  {
    if c == '/' then [""] + rest else [[c] + rest[0]] + rest[1..]
  }

  lemma PadAfter(c: char, rest: Elements, trail: string)
    requires rest != []
    ensures PadLast(Prepend(c, rest), trail) == Prepend(c, PadLast(rest, trail))
  {
    var n := |rest| - 1;
    if c == '/' {
      assert ([""] + rest)[..|[""] + rest| - 1] == [""] + rest[..n];
    } else if n == 0 {
      assert ([c] + rest[0]) + trail == [c] + (rest[0] + trail);
    } else {
      assert ([[c] + rest[0]] + rest[1..])[..n] == [[c] + rest[0]] + rest[1..n];
    }
  }

  /** Blanks around a part can only move the walk down. */
  lemma PaddedDrop(lead: string, part: string, trail: string)
    requires AllBlank(lead) && AllBlank(trail)
    ensures Drop(lead + part + trail) >= Drop(part)
  {
    var padded := lead + part + trail;
    if lead != "" {
      assert padded[0] == lead[0] && lead[0] in lead;
    } else if trail != "" {
      assert padded[|padded| - 1] == trail[|trail| - 1] && trail[|trail| - 1] in trail;
    } else {
      assert padded == part;
    }
  }

  lemma {:induction false} DeeperIsSafe(depth: int, shallow: Elements, deep: Elements, more: nat)
    requires |shallow| == |deep| && forall i :: 0 <= i < |deep| ==> Drop(deep[i]) >= Drop(shallow[i])
    requires NeverAbove(depth, shallow)
    ensures NeverAbove(depth + more, deep) && Depth(deep) >= Depth(shallow)
    decreases deep
  {
    if deep != [] {
      DeeperIsSafe(depth + Drop(shallow[0]), shallow[1..], deep[1..], more + Drop(deep[0]) - Drop(shallow[0]));
    }
  }

  function Padded(lead: string, parts: Elements, trail: string, i: nat): string
    requires i < |parts|
  {
    (if i == 0 then lead else "") + parts[i] + (if i == |parts| - 1 then trail else "")
  }

  lemma PadEnds(lead: string, shallow: Elements, trail: string, deep: Elements)
    requires shallow != []
    requires var mid := PadLast(shallow, trail); deep == [lead + mid[0]] + mid[1..]
    ensures |deep| == |shallow| && forall i :: 0 <= i < |deep| ==> deep[i] == Padded(lead, shallow, trail, i)
  {
    var mid := PadLast(shallow, trail);
    forall i | 0 <= i < |deep| ensures deep[i] == Padded(lead, shallow, trail, i) {
      assert mid[i] == shallow[i] + (if i == |shallow| - 1 then trail else "");
      assert deep[i] == (if i == 0 then lead else "") + mid[i];
    }
  }

  lemma PaddedParts(lead: string, v: string, trail: string)
    requires AllBlank(lead) && AllBlank(trail)
    ensures var shallow, deep := Split(v, '/'), Split(lead + (v + trail), '/');
            |shallow| == |deep| && forall i :: 0 <= i < |deep| ==> Drop(deep[i]) >= Drop(shallow[i])
  {
    var shallow, deep := Split(v, '/'), Split(lead + (v + trail), '/');
    assert !IsSpace('/');
    SplitTrail(v, trail);
    SplitLead(lead, v + trail);
    PadEnds(lead, shallow, trail, deep);
    PaddedDrops(lead, shallow, trail, deep);
  }

  lemma PaddedDrops(lead: string, shallow: Elements, trail: string, deep: Elements)
    requires AllBlank(lead) && AllBlank(trail)
    requires |deep| == |shallow| && forall i :: 0 <= i < |deep| ==> deep[i] == Padded(lead, shallow, trail, i)
    ensures forall i :: 0 <= i < |deep| ==> Drop(deep[i]) >= Drop(shallow[i])
  {
    forall i | 0 <= i < |deep| ensures Drop(deep[i]) >= Drop(shallow[i]) {
      PaddedDrop(if i == 0 then lead else "", shallow[i], if i == |shallow| - 1 then trail else "");
    }
  }

  lemma PaddedStaysInside(lead: string, v: string, trail: string, base: Elements)
    requires AllBlank(lead) && AllBlank(trail)
    requires var w := Walk(false, [], Split(v, '/')); w != [] && w[0] != ".."
    ensures var parts := Split(lead + (v + trail), '/');
            Below(base, Walk(true, base, parts)) && Walk(true, base, parts) == base + Walk(false, [], parts)
  {
    PaddedParts(lead, v, trail);
    PartsStayInside(Split(v, '/'), Split(lead + (v + trail), '/'), base);
  }

  /** Strictly below the base, without climbing elements past it. */
  predicate Below(base: Elements, path: Elements) {
    base < path && ".." !in path[|base|..]
  }

  lemma DeeperPartsStayAbove(shallow: Elements, deep: Elements)
    requires |shallow| == |deep| && forall i :: 0 <= i < |deep| ==> Drop(deep[i]) >= Drop(shallow[i])
    requires var w := Walk(false, [], shallow); w != [] && w[0] != ".."
    ensures NeverAbove(0, deep) && Depth(deep) > 0
  {
    InsideMeansNeverAbove([], shallow);
    WalkFromBase([], shallow);
    DeeperIsSafe(0, shallow, deep, 0);
  }

  lemma PartsStayInside(shallow: Elements, deep: Elements, base: Elements)
    requires |shallow| == |deep| && forall i :: 0 <= i < |deep| ==> Drop(deep[i]) >= Drop(shallow[i])
    requires var w := Walk(false, [], shallow); w != [] && w[0] != ".."
    ensures Below(base, Walk(true, base, deep)) && Walk(true, base, deep) == base + Walk(false, [], deep)
  {
    DeeperPartsStayAbove(shallow, deep);
    DeepPartsStayInside(deep, base);
  }

  lemma DeepPartsStayInside(deep: Elements, base: Elements)
    requires NeverAbove(0, deep) && Depth(deep) > 0
    ensures Below(base, Walk(true, base, deep)) && Walk(true, base, deep) == base + Walk(false, [], deep)
  {
    WalkFromBase(base, deep);
    Appended(base, Walk(false, [], deep), Walk(true, base, deep));
  }

  lemma Appended(base: Elements, below: Elements, whole: Elements)
    requires whole == base + below && below != [] && ".." !in below
    ensures Below(base, whole)
  {
    assert whole[|base|..] == below;
  }

  lemma WalkFromBase(base: Elements, parts: Elements)
    requires NeverAbove(0, parts)
    ensures Walk(true, base, parts) == base + Walk(false, [], parts)
    ensures ".." !in Walk(false, [], parts) && |Walk(false, [], parts)| == Depth(parts)
  {
    assert base + [] == base;
    WalkAbove(base, [], parts);
  }

  /** The path check trims first, but the path is used untrimmed: what it accepts still resolves
      strictly below whatever directory it is joined to. */
  lemma SafePathStaysInside(value: string, base: Elements)
    requires IsSafeBundlePath(value)
    ensures Below(base, Walk(true, base, Split(value, '/')))
  {
    var lead, trail := Padding(value);
    PaddedStaysInside(lead, Trim(value), trail, base);
  }

  /** And where: below that directory just as it is when cleaned on its own. */
  lemma SafePathIsAppended(value: string, base: Elements)
    requires IsSafeBundlePath(value)
    ensures !Clean(value).rooted
    ensures Walk(true, base, Split(value, '/')) == base + Clean(value).elements
  {
    hide TrimLeft, TrimRight, Walk, Split;
    var lead, trail := Padding(value);
    assert lead != "" ==> lead[0] in lead;
    PaddedStaysInside(lead, Trim(value), trail, base);
  }

  /** An accepted identifier names one directory, even with blanks around it. */
  lemma SafeIdentifierIsOneElement(id: string)
    requires IsSafeBundleIdentifier(id)
    ensures OneElement(id) && !Blank(id)
  {
    var v := Trim(id);
    var lead, trail := Padding(id);
    assert !IsSpace('/') && !IdentifierChar('/');
    assert '/' !in lead && '/' !in v && '/' !in trail;
    assert '/' !in id;
    SplitSingle(id, '/');
    if id == "" || id == "." || id == ".." {
      TrimFixes(id);
    }
  }

  const LOWER := "abcdefghijklmnopqrstuvwxyz"
  const UPPER := "ABCDEFGHIJKLMNOPQRSTUVWXYZ"
  const DIGITS := "0123456789"
  const IDENTIFIER_CHARS := LOWER + UPPER + DIGITS + "._-"

  lemma InRun(c: char, first: char, run: string)
    requires forall i :: 0 <= i < |run| ==> run[i] as int == first as int + i
    ensures c in run <==> first as int <= c as int < first as int + |run|
  {
    if first as int <= c as int < first as int + |run| { assert run[c as int - first as int] == c; }
  }

  lemma IdentifierChars(c: char)
    ensures IdentifierChar(c) <==> c in IDENTIFIER_CHARS
  {
    InRun(c, 'a', LOWER);
    InRun(c, 'A', UPPER);
    InRun(c, '0', DIGITS);
  }

  /** An identifier is accepted exactly when, blanks around it aside, it is spelled with these characters alone and is
      not "", "." or "..". */
  lemma SafeIdentifierExactly(id: string)
    ensures IsSafeBundleIdentifier(id) <==> Normal(Trim(id)) && forall c <- Trim(id) :: c in IDENTIFIER_CHARS
  {
    hide Trim, IdentifierChar;
    forall c | c in Trim(id) ensures IdentifierChar(c) <==> c in IDENTIFIER_CHARS { IdentifierChars(c); }
  }

  /** Names of which none is "", "." or "..", joined by slashes, make a path that is accepted unless it holds a
      backslash or blanks around it. */
  lemma PlainPathIsSafe(names: Elements)
    requires names != [] && (forall e <- names :: Normal(e)) && SlashFree(names)
    requires Trim(Text.Join(names, "/")) == Text.Join(names, "/") && '\\' !in Text.Join(names, "/")
    ensures IsSafeBundlePath(Text.Join(names, "/"))
  {
    hide Trim, Split;
    SplitJoined(names);
    WalkNormal(false, [], names);
    assert names[0] in names && Text.Join(names, "/")[0] == names[0][0];
  }

  lemma SafePathIsNotBlank(value: string)
    requires IsSafeBundlePath(value)
    ensures !Blank(value)
  {
  }

  lemma PlainNameIsSafe(name: string)
    requires Trimmed(name) && Normal(name) && '/' !in name && '\\' !in name
    ensures IsSafeBundlePath(name)
  {
    TrimFixes(name);
    SplitSingle(name, '/');
    WalkNormal(false, [], [name]);
  }

  // ---- The active-candidate guard ------------------------------------------------------------------------

  /** candidates/<id> under the root. */
  function Candidate(root: Path, id: string): Path {
    Join(Join(root, "candidates"), id)
  }

  /** activeCandidatePath: a relative pointer is joined onto the root again. */
  function ActiveCandidatePath(root: Path, candidatePath: Path): Path {
    if candidatePath.rooted then candidatePath else JoinPath(root, candidatePath)
  }

  /** What cleaning leaves: climbing elements first (none in a rooted path), then normal ones. */
  ghost predicate Cleaned(path: Path, ups: nat) {
    && ups <= |path.elements|
    && (path.rooted ==> ups == 0)
    && (forall i :: 0 <= i < ups ==> path.elements[i] == "..")
    && (forall i :: ups <= i < |path.elements| ==> Normal(path.elements[i]))
  }

  predicate OneElement(text: string) {
    Split(text, '/') == [text] && Normal(text)
  }

  lemma PlainIsOneElement(text: string)
    requires '/' !in text && Normal(text)
    ensures OneElement(text)
  {
    SplitSingle(text, '/');
  }

  lemma JoinOneElement(base: Path, text: string)
    requires OneElement(text)
    ensures Join(base, text) == Path(base.rooted, base.elements + [text])
  {
    WalkNormal(base.rooted, base.elements, [text]);
  }

  lemma CandidateElements(root: Path, id: string)
    requires OneElement(id)
    ensures Candidate(root, id) == Path(root.rooted, root.elements + ["candidates", id])
  {
    SplitSingle("candidates", '/');
    JoinOneElement(root, "candidates");
    JoinOneElement(Join(root, "candidates"), id);
    assert root.elements + ["candidates"] + [id] == root.elements + ["candidates", id];
  }

  predicate AllUps(parts: Elements) {
    forall i :: 0 <= i < |parts| ==> parts[i] == ".."
  }

  /** What climbing leaves of names, or adds once they are used up. */
  function Left(names: Elements, ups: Elements): Elements {
    if |ups| <= |names| then names[..|names| - |ups|] else ups[|names|..]
  }

  lemma LeftShorter(names: Elements, ups: Elements)
    requires names != [] && ups != []
    ensures Left(names[..|names| - 1], ups[1..]) == Left(names, ups)
  {
  }

  lemma LeftPiles(climbs: Elements, ups: Elements)
    requires ups != [] && ups[0] == ".."
    ensures climbs + [".."] + Left([], ups[1..]) == climbs + Left([], ups)
  {
  }

  /** Climbing eats names first and piles up after that. */
  lemma {:induction false} Climb(climbs: Elements, names: Elements, ups: Elements)
    requires AllUps(climbs) && AllUps(ups)
    requires forall p <- names :: Normal(p)
    ensures Walk(false, climbs + names, ups) == climbs + Left(names, ups)
    decreases ups
  {
    if ups == [] {
      assert names[..|names| - |ups|] == names;
    } else if names != [] {
      var fewer := names[..|names| - 1];
      assert Normal(names[|names| - 1]);
      assert (climbs + names)[..|climbs + names| - 1] == climbs + fewer;
      Climb(climbs, fewer, ups[1..]);
      LeftShorter(names, ups);
    } else {
      assert climbs + names == climbs;
      Climb(climbs + [".."], [], ups[1..]);
      assert climbs + [".."] + [] == climbs + [".."];
      LeftPiles(climbs, ups);
    }
  }

  /** Re-joining a relative root onto itself arrives back at it exactly when it climbs as often as it
      descends. */
  lemma RejoinLength(climbs: Elements, names: Elements, rest: Elements)
    requires AllUps(climbs) && forall p <- names + rest :: Normal(p)
    ensures Walk(false, climbs + names, climbs + names + rest) == climbs + names + rest <==> |climbs| == |names|
  {
    assert climbs + names + rest == climbs + (names + rest);
    WalkConcat(false, climbs + names, climbs, names + rest);
    Climb(climbs, names, climbs);
    var w := climbs + Left(names, climbs);
    WalkNormal(false, w, names + rest);
    if |climbs| == |names| { assert w == climbs; }
  }

  /** Stage recognises the active candidate as such exactly when its root is absolute or, relative,
      climbs as often as it descends. */
  lemma GuardRecognizesActive(root: Path, ups: nat, id: string)
    requires Cleaned(root, ups) && IsSafeBundleIdentifier(id)
    ensures ActiveCandidatePath(root, Candidate(root, id)) == Candidate(root, id)
            <==> root.rooted || 2 * ups == |root.elements|
  {
    SafeIdentifierIsOneElement(id);
    GuardRecognizesElement(root, ups, id);
  }

  lemma GuardRecognizesElement(root: Path, ups: nat, id: string)
    requires Cleaned(root, ups) && OneElement(id)
    ensures ActiveCandidatePath(root, Candidate(root, id)) == Candidate(root, id)
            <==> root.rooted || 2 * ups == |root.elements|
  {
    CandidateElements(root, id);
    if !root.rooted { RejoinRoot(root.elements, ups, ["candidates", id]); }
  }

  lemma RejoinRoot(elements: Elements, ups: nat, rest: Elements)
    requires Cleaned(Path(false, elements), ups) && forall p <- rest :: Normal(p)
    ensures Walk(false, elements, elements + rest) == elements + rest <==> 2 * ups == |elements|
  {
    var climbs, names := elements[..ups], elements[ups..];
    assert climbs + names == elements;
    assert climbs + names + rest == elements + rest;
    RejoinLength(climbs, names, rest);
  }

  /** Cleaning yields such a form. */
  lemma {:induction false} WalkIsCleaned(rooted: bool, stack: Elements, ups: nat, parts: Elements) returns (ups': nat)
    requires Cleaned(Path(rooted, stack), ups)
    ensures Cleaned(Path(rooted, Walk(rooted, stack, parts)), ups')
    decreases parts
  {
    ups' := ups;
    if parts != [] {
      var next := Step(rooted, stack, parts[0]);
      var n := if parts[0] == ".." && !rooted && (stack == [] || stack[|stack| - 1] == "..") then ups + 1 else ups;
      assert Cleaned(Path(rooted, next), n);
      ups' := WalkIsCleaned(rooted, next, n, parts[1..]);
    }
  }

  /** So every root has the form the guard's condition speaks of. */
  lemma CleanIsCleaned(text: string) returns (ups: nat)
    ensures Cleaned(Clean(text), ups)
  {
    var rooted := text != "" && text[0] == '/';
    ups := WalkIsCleaned(rooted, [], 0, Split(text, '/'));
  }

  // ---- Texts of paths --------------------------------------------------------------------------------------

  predicate SlashFree(parts: Elements) {
    forall p <- parts :: '/' !in p
  }

  lemma SplitAtSlash(s: string)
    ensures Split("/" + s, '/') == [""] + Split(s, '/')
  {
    assert ("/" + s)[0] == '/' && ("/" + s)[1..] == s;
  }

  lemma {:induction false} SplitJoined(parts: Elements)
    requires parts != [] && SlashFree(parts)
    ensures Split(Text.Join(parts, "/"), '/') == parts
  {
    if |parts| == 1 {
      SplitSingle(parts[0], '/');
    } else {
      var rest := Text.Join(parts[1..], "/");
      SplitJoined(parts[1..]);
      SplitAtSlash(rest);
      SplitLead(parts[0], "/" + rest);
      assert parts[0] + "/" + rest == parts[0] + ("/" + rest) && parts[0] + "" == parts[0];
      assert [parts[0]] + parts[1..] == parts;
    }
  }

  /** A cleaned path walks to itself. */
  lemma {:induction false} CleanedWalks(rooted: bool, parts: Elements, ups: nat, n: nat)
    requires Cleaned(Path(rooted, parts), ups) && n <= |parts|
    ensures Walk(rooted, parts[..n], parts[n..]) == parts
    decreases |parts| - n
  {
    if n < |parts| {
      assert parts[n..][0] == parts[n] && parts[n..][1..] == parts[n + 1..] && parts[..n] + [parts[n]] == parts[..n + 1];
      CleanedWalks(rooted, parts, ups, n + 1);
    } else {
      assert parts[..n] == parts && parts[n..] == [];
    }
  }

  lemma CleanedWalksFromStart(rooted: bool, parts: Elements, ups: nat)
    requires Cleaned(Path(rooted, parts), ups)
    ensures Walk(rooted, [], parts) == parts
  {
    assert parts[..0] == [] && parts[0..] == parts;
    CleanedWalks(rooted, parts, ups, 0);
  }

  lemma BlankWalks(rooted: bool, stack: Elements, parts: Elements)
    ensures Walk(rooted, stack, [""] + parts) == Walk(rooted, stack, parts)
  {
    assert ([""] + parts)[1..] == parts;
  }

  lemma RootedTextCleans(elements: Elements)
    requires Cleaned(Path(true, elements), 0) && SlashFree(elements)
    ensures Clean(PathText(Path(true, elements))) == Path(true, elements)
  {
    hide Walk, Split;
    SplitAtSlash(Text.Join(elements, "/"));
    BlankWalks(true, [], Split(Text.Join(elements, "/"), '/'));
    if elements == [] {
      EmptyWalks(true, []);
    } else {
      SplitJoined(elements);
      CleanedWalksFromStart(true, elements, 0);
    }
  }

  lemma EmptyWalks(rooted: bool, stack: Elements)
    ensures Walk(rooted, stack, Split("", '/')) == stack && Walk(rooted, stack, Split(".", '/')) == stack
  {
    SplitSingle(".", '/');
    assert [""][1..] == [] && ["."][1..] == [];
  }

  lemma RelativeTextCleans(elements: Elements, ups: nat)
    requires Cleaned(Path(false, elements), ups) && SlashFree(elements)
    ensures Clean(PathText(Path(false, elements))) == Path(false, elements)
  {
    hide Walk, Split;
    if elements == [] {
      EmptyWalks(false, []);
    } else {
      assert elements[0] != "" && elements[0][0] in elements[0] && Text.Join(elements, "/")[0] == elements[0][0];
      SplitJoined(elements);
      CleanedWalksFromStart(false, elements, ups);
    }
  }

  /** The text of a cleaned path, cleaned again, is that path: texts and paths are two forms of one thing. */
  lemma TextRoundTrip(p: Path, ups: nat)
    requires Cleaned(p, ups) && SlashFree(p.elements)
    ensures Clean(PathText(p)) == p
  {
    if p.rooted { RootedTextCleans(p.elements); } else { RelativeTextCleans(p.elements, ups); }
  }
}
