/** The include walk over a materialised bundle: from nginx/nginx.conf through every configuration file
    it includes, however the includes loop. */
module IncludeWalk {
  import opened Basics
  import opened Text
  import Paths
  import Graphs

  // ---- References in a file ----------------------------------------------------------------------------

  const RUNTIME_ROOT := "/etc/waf/"
  const CONF := ".conf"

  /** extractDirectiveValue */
  function DirectiveValue(line: string, directive: string): Option<string> {
    var rest := Trim(TrimSuffix(Trim(TrimPrefix(line, directive)), ";"));
    if rest == "" then None else Some(rest)
  }

  function LastSlash(text: string): (n: nat)
    ensures n <= |text| && '/' !in text[n..] && (n > 0 ==> text[n - 1] == '/')
  {
    if text == "" then 0
    else if text[|text| - 1] == '/' then |text|
    else
      var n := LastSlash(text[..|text| - 1]);
      assert text[n..] == text[..|text| - 1][n..] + [text[|text| - 1]];
      n
  }

  /** filepath.Dir */
  function Dir(text: string): Paths.Path {
    Paths.Clean(text[..LastSlash(text)])
  }

  /** mapBundleReference: what points into the live tree is read from the bundle instead. */
  function MapBundleReference(root: Paths.Path, current: string, ref: string): string {
    if HasPrefix(ref, RUNTIME_ROOT) then Paths.PathText(Paths.Join(root, TrimPrefix(ref, RUNTIME_ROOT)))
    else if HasPrefix(ref, "/") then ref
    else Paths.PathText(Paths.Join(Dir(current), ref))
  }

  /** A reference into the live tree that does not climb out of it is read from the same place below the
      bundle's root, whichever file makes it. */
  lemma LiveReferenceIsRead(root: Paths.Path, current: string, rest: string)
    requires root.rooted && Paths.NeverAbove(0, Split(rest, '/'))
    ensures var below := Paths.Walk(false, [], Split(rest, '/'));
            && ".." !in below
            && MapBundleReference(root, current, RUNTIME_ROOT + rest) == Paths.PathText(Paths.Path(true, root.elements + below))
  {
    var ref := RUNTIME_ROOT + rest;
    assert HasPrefix(ref, RUNTIME_ROOT) && TrimPrefix(ref, RUNTIME_ROOT) == rest;
    Paths.WalkFromBase(root.elements, Split(rest, '/'));
  }

  /** Where a value written in the file `current` leads: into the bundle in place of the live tree, to itself if
      it is absolute, and otherwise from the directory of the file, which is what stands before the last
      slash of its path. */
  ghost predicate LeadsTo(root: Paths.Path, current: string, value: string, ref: string) {
    if "/etc/waf/" <= value then
      ref == Paths.PathText(Paths.Path(root.rooted, Paths.Walk(root.rooted, root.elements, Split(value[9..], '/'))))
    else if "/" <= value then ref == value
    else exists directory, name :: InDirectory(current, directory, name) && ref == FromDirectory(directory, value)
  }

  predicate InDirectory(current: string, directory: string, name: string) {
    current == directory + name && '/' !in name && (directory == "" || directory[|directory| - 1] == '/')
  }

  function FromDirectory(directory: string, value: string): string {
    var d := Paths.Clean(directory);
    Paths.PathText(Paths.Path(d.rooted, Paths.Walk(d.rooted, d.elements, Split(value, '/'))))
  }

  lemma NoSlashFrom(text: string, n: nat)
    requires n <= |text| && '/' !in text[n..]
    ensures forall i :: n <= i < |text| ==> text[i] != '/'
  {
    assert forall i :: n <= i < |text| ==> text[i] == text[n..][i - n];
  }

  lemma DirectoryIs(current: string, directory: string, name: string)
    requires InDirectory(current, directory, name)
    ensures directory == current[..LastSlash(current)]
  {
    var n, d := LastSlash(current), |directory|;
    hide LastSlash;
    assert current[..d] == directory && current[d..] == name;
    NoSlashFrom(current, n);
    NoSlashFrom(current, d);
  }

  lemma LeadsWhereMapped(root: Paths.Path, current: string, value: string, ref: string)
    ensures LeadsTo(root, current, value, ref) <==> ref == MapBundleReference(root, current, value)
  {
    hide Paths.PathText, Paths.Walk, Paths.Clean, Split;
    var n := LastSlash(current);
    assert current == current[..n] + current[n..] && InDirectory(current, current[..n], current[n..]);
    forall directory, name | InDirectory(current, directory, name) ensures directory == current[..n] {
      DirectoryIs(current, directory, name);
    }
  }

  // ---- References between files of a tree ----------------------------------------------------------------

  predicate PlainNames(names: Paths.Elements) {
    forall e <- names :: Paths.Normal(e) && '/' !in e
  }

  lemma {:induction false} JoinLast(dir: Paths.Elements, name: string)
    requires dir != []
    ensures Join(dir + [name], "/") == Join(dir, "/") + "/" + name
  {
    var all := dir + [name];
    if |dir| == 1 {
      assert all[1..] == [name];
    } else {
      JoinLast(dir[1..], name);
      assert all[1..] == dir[1..] + [name];
    }
  }

  /** The directory text of a file in a rooted directory stands for that directory. */
  lemma FileInDirectory(dir: Paths.Elements, name: string) returns (directory: string)
    requires PlainNames(dir) && '/' !in name
    ensures InDirectory(Paths.PathText(Paths.Path(true, dir + [name])), directory, name)
    ensures Paths.Clean(directory) == Paths.Path(true, dir)
  {
    hide Paths.Walk, Split;
    if dir == [] {
      directory := "/";
      assert [] + [name] == [name];
      assert Paths.PathText(Paths.Path(true, [])) == "/" + "" == "/";
      Paths.TextRoundTrip(Paths.Path(true, []), 0);
    } else {
      directory := "/" + Join(dir, "/") + "/";
      JoinLast(dir, name);
      assert directory == "/" + Join(dir + [""], "/") by { JoinLast(dir, ""); }
      assert directory + name == "/" + (Join(dir, "/") + "/" + name);
      TrailingSlash(dir, directory);
    }
  }

  lemma TrailingSlash(dir: Paths.Elements, directory: string)
    requires dir != [] && PlainNames(dir) && directory == "/" + Join(dir + [""], "/")
    ensures Paths.Clean(directory) == Paths.Path(true, dir)
  {
    var parts := dir + [""];
    Paths.SplitJoined(parts);
    Paths.SplitAtSlash(Join(parts, "/"));
    Paths.BlankWalks(true, [], parts);
    Paths.WalkConcat(true, [], dir, [""]);
    Paths.WalkNormal(true, [], dir);
    assert [] + dir == dir && Paths.Walk(true, dir, [""]) == dir;
  }

  /** A relative reference is read from the directory of the file that makes it, climbing included, however the
      bundle is rooted. */
  lemma RelativeReference(root: Paths.Path, dir: Paths.Elements, name: string, value: string)
    requires PlainNames(dir) && '/' !in name && !HasPrefix(value, "/")
    ensures MapBundleReference(root, Paths.PathText(Paths.Path(true, dir + [name])), value)
            == Paths.PathText(Paths.Path(true, Paths.Walk(true, dir, Split(value, '/'))))
  {
    var current := Paths.PathText(Paths.Path(true, dir + [name]));
    var directory := FileInDirectory(dir, name);
    var ref := FromDirectory(directory, value);
    assert LeadsTo(root, current, value, ref) by { NotRooted(value); }
    LeadsWhereMapped(root, current, value, ref);
  }

  lemma NotRooted(value: string)
    requires !HasPrefix(value, "/")
    ensures !("/etc/waf/" <= value) && !("/" <= value)
  {
  }

  /** Below that directory: conf.d/a.conf in nginx/nginx.conf is nginx/conf.d/a.conf. Beside it: one step up. */
  lemma BelowAndBeside(root: Paths.Path, dir: Paths.Elements, name: string, parts: Paths.Elements)
    requires PlainNames(dir) && '/' !in name && parts != [] && PlainNames(parts)
    ensures var current := Paths.PathText(Paths.Path(true, dir + [name]));
            && MapBundleReference(root, current, Join(parts, "/")) == Paths.PathText(Paths.Path(true, dir + parts))
            && (dir != [] ==>
                  MapBundleReference(root, current, "../" + Join(parts, "/"))
                  == Paths.PathText(Paths.Path(true, dir[..|dir| - 1] + parts)))
  {
    hide Paths.Walk, Split, MapBundleReference, Paths.PathText;
    var below := Join(parts, "/");
    JoinedIsRelative(parts);
    RelativeReference(root, dir, name, below);
    Paths.SplitJoined(parts);
    Paths.WalkNormal(true, dir, parts);
    RelativeReference(root, dir, name, "../" + below);
    if dir != [] {
      UpSplits(below);
      UpWalks(dir, parts);
    }
  }

  lemma JoinedIsRelative(parts: Paths.Elements)
    requires parts != [] && PlainNames(parts)
    ensures !HasPrefix(Join(parts, "/"), "/") && !HasPrefix("../" + Join(parts, "/"), "/")
  {
    assert parts[0] in parts && parts[0] != "" && parts[0][0] in parts[0] && Join(parts, "/")[0] == parts[0][0];
    assert ("../" + Join(parts, "/"))[0] == '.';
  }

  lemma UpSplits(below: string)
    ensures Split("../" + below, '/') == [".."] + Split(below, '/')
  {
    Paths.SplitAtSlash(below);
    Paths.SplitLead("..", "/" + below);
    assert "../" + below == ".." + ("/" + below) && ".." + "" == "..";
  }

  lemma UpWalks(dir: Paths.Elements, parts: Paths.Elements)
    requires dir != [] && PlainNames(dir) && PlainNames(parts)
    ensures Paths.Walk(true, dir, [".."] + parts) == dir[..|dir| - 1] + parts
  {
    assert ([".."] + parts)[1..] == parts && dir[|dir| - 1] in dir;
    Paths.WalkNormal(true, dir[..|dir| - 1], parts);
  }

  // ---- What a line says ----------------------------------------------------------------------------------

  /** The reference one line makes, if it makes one. */
  function LineReference(root: Paths.Path, current: string, line: string): Option<string> {
    var trimmed := Trim(line);
    var value :=
      if HasPrefix(trimmed, "include ") then DirectiveValue(trimmed, "include")
      else if HasPrefix(trimmed, "modsecurity_rules_file ") then DirectiveValue(trimmed, "modsecurity_rules_file")
      else None;
    match value
    case None => None
    case Some(ref) => Some(MapBundleReference(root, current, ref))
  }

  /** The directives whose values are followed. */
  predicate Followed(directive: string) {
    directive == "include" || directive == "modsecurity_rules_file"
  }

  /** What may follow a value: a semicolon after blanks, or nothing if the value does not end in one. */
  predicate Closes(value: string, pad: string, close: string) {
    close == ";" || (close == "" && pad == "" && !HasSuffix(value, ";"))
  }

  datatype Spacing = Spacing(lead: string, gap: string, pad: string, close: string, trail: string)

  predicate SpelledWith(line: string, directive: string, value: string, w: Spacing) {
    && Followed(directive) && Trimmed(value) && value != "" && Closes(value, w.pad, w.close)
    && AllBlank(w.lead) && AllBlank(w.gap) && AllBlank(w.pad) && AllBlank(w.trail)
    && line == w.lead + (directive + (" " + w.gap + (value + w.pad + w.close))) + w.trail
  }

  /** The line is a directive with this value, indented and spaced at will. */
  ghost predicate Spells(line: string, directive: string, value: string) {
    exists w :: SpelledWith(line, directive, value, w)
  }

  lemma ValueInSteps(line: string, directive: string, tail: string, core: string, bare: string, value: string)
    requires TrimPrefix(line, directive) == tail && Trim(tail) == core
    requires TrimSuffix(core, ";") == bare && Trim(bare) == value && value != ""
    ensures DirectiveValue(line, directive) == Some(value)
  {
  }

  lemma CoreOf(gap: string, core: string)
    requires AllBlank(gap) && Trimmed(core)
    ensures Trim(" " + gap + core) == core
  {
    assert AllBlank(" " + gap);
    TrimPadded(" " + gap, core, "");
    assert (" " + gap) + core + "" == " " + gap + core;
  }

  lemma BareOf(value: string, pad: string)
    requires AllBlank(pad) && Trimmed(value)
    ensures Trim(value + pad) == value
  {
    assert "" + value + pad == value + pad;
    TrimPadded("", value, pad);
  }

  lemma Shapes(directive: string, gap: string, value: string, pad: string, close: string)
    requires Trimmed(value) && value != "" && Closes(value, pad, close)
    ensures var core := value + pad + close; Trimmed(core) && core != "" && TrimSuffix(core, ";") == value + pad
    ensures TrimPrefix(directive + (" " + gap + (value + pad + close)), directive) == " " + gap + (value + pad + close)
  {
    var core := value + pad + close;
    assert core[0] == value[0];
    if close == ";" {
      assert core[|core| - 1] == ';' && core[|core| - 1..] == ";" && core[..|core| - 1] == value + pad;
    } else {
      assert core == value;
    }
  }

  /** The value of a directive, however it is spaced and even if it holds semicolons itself. */
  lemma DirectiveValueIs(line: string, directive: string, gap: string, value: string, pad: string, close: string)
    requires AllBlank(gap) && AllBlank(pad) && Trimmed(value) && value != "" && Closes(value, pad, close)
    requires line == directive + (" " + gap + (value + pad + close))
    ensures DirectiveValue(line, directive) == Some(value)
  {
    var core := value + pad + close;
    Shapes(directive, gap, value, pad, close);
    CoreOf(gap, core);
    BareOf(value, pad);
    ValueInSteps(line, directive, " " + gap + core, core, value + pad, value);
  }

  lemma KnownDirective(directive: string, rest: string, line: string)
    requires Followed(directive) && line == directive + (" " + rest)
    ensures HasPrefix(line, "include ") <==> directive == "include"
    ensures HasPrefix(line, "modsecurity_rules_file ") <==> directive == "modsecurity_rules_file"
    ensures line[0] == directive[0]
  {
    assert "include" + " " == "include " && "modsecurity_rules_file" + " " == "modsecurity_rules_file ";
    assert line == (directive + " ") + rest;
    assert "include "[0] == 'i' && "modsecurity_rules_file "[0] == 'm' && "include"[0] == 'i';
    assert "modsecurity_rules_file"[0] == 'm' && line[0] == directive[0];
  }

  lemma LineInSteps(root: Paths.Path, current: string, line: string, trimmed: string, directive: string, value: string)
    requires Trim(line) == trimmed && Followed(directive)
    requires HasPrefix(trimmed, "include ") <==> directive == "include"
    requires HasPrefix(trimmed, "modsecurity_rules_file ") <==> directive == "modsecurity_rules_file"
    requires DirectiveValue(trimmed, directive) == Some(value)
    ensures LineReference(root, current, line) == Some(MapBundleReference(root, current, value))
  {
  }

  lemma SpelledIsRead(root: Paths.Path, current: string, line: string, directive: string, value: string, w: Spacing)
    requires SpelledWith(line, directive, value, w)
    ensures LineReference(root, current, line) == Some(MapBundleReference(root, current, value))
  {
    hide DirectiveValue, Trim, MapBundleReference, LineReference;
    var core := value + w.pad + w.close;
    var trimmed := directive + (" " + w.gap + core);
    DirectiveValueIs(trimmed, directive, w.gap, value, w.pad, w.close);
    Shapes(directive, w.gap, value, w.pad, w.close);
    assert " " + w.gap + core == " " + (w.gap + core);
    KnownDirective(directive, w.gap + core, trimmed);
    assert trimmed[|trimmed| - 1] == core[|core| - 1];
    DirectiveTrims(w.lead, directive, trimmed, w.trail);
    LineInSteps(root, current, line, trimmed, directive, value);
  }

  lemma DirectiveTrims(lead: string, directive: string, trimmed: string, trail: string)
    requires Followed(directive) && AllBlank(lead) && AllBlank(trail)
    requires trimmed != "" && trimmed[0] == directive[0] && !IsSpace(trimmed[|trimmed| - 1])
    ensures Trim(lead + trimmed + trail) == trimmed
  {
    assert !IsSpace(trimmed[0]);
    TrimPadded(lead, trimmed, trail);
  }

  lemma GapOf(tail: string) returns (gap: string)
    requires tail != "" && tail[0] == ' ' && !IsSpace(tail[|tail| - 1])
    ensures AllBlank(gap) && tail == " " + gap + Trim(tail)
  {
    hide TrimLeft, TrimRight, Trim;
    var core := Trim(tail);
    var lead, trail := Paths.Padding(tail);
    TrimIsTrimmed(tail);
    assert lead == "" ==> tail == core;
    assert lead[0] == ' ' && lead == " " + lead[1..];
    gap := lead[1..];
  }

  lemma PadOf(bare: string) returns (pad: string)
    requires bare != "" && !IsSpace(bare[0])
    ensures AllBlank(pad) && bare == Trim(bare) + pad
  {
    hide TrimLeft, TrimRight, Trim;
    var lead, trail := Paths.Padding(bare);
    pad := trail;
  }

  lemma CoreParts(core: string, bare: string) returns (pad: string, close: string)
    requires Trimmed(core) && bare == TrimSuffix(core, ";") && Trim(bare) != ""
    ensures AllBlank(pad) && Trimmed(Trim(bare)) && Closes(Trim(bare), pad, close)
    ensures core == Trim(bare) + pad + close
  {
    TrimIsTrimmed(bare);
    pad := PadOf(bare);
    if HasSuffix(core, ";") {
      close := ";";
      assert core == bare + ";";
    } else {
      TrimFixes(core);
      close := "";
    }
  }

  lemma LineParts(trimmed: string, directive: string, value: string) returns (gap: string, pad: string, close: string)
    requires Trimmed(trimmed) && directive + " " <= trimmed && DirectiveValue(trimmed, directive) == Some(value)
    ensures trimmed == directive + (" " + gap + (value + pad + close))
    ensures AllBlank(gap) && AllBlank(pad) && Trimmed(value) && value != "" && Closes(value, pad, close)
  {
    hide TrimLeft, TrimRight, Trim;
    var tail := TrimPrefix(trimmed, directive);
    var core := Trim(tail);
    assert trimmed == directive + tail && tail[0] == (directive + " ")[|directive|] == ' ';
    gap := GapOf(tail);
    TrimIsTrimmed(tail);
    pad, close := CoreParts(core, TrimSuffix(core, ";"));
  }

  lemma ReadIsSpelled(root: Paths.Path, current: string, line: string, ref: string) returns (directive: string, value: string)
    requires LineReference(root, current, line) == Some(ref)
    ensures Spells(line, directive, value) && ref == MapBundleReference(root, current, value)
  {
    hide TrimLeft, TrimRight, Trim, DirectiveValue, MapBundleReference;
    var trimmed := Trim(line);
    TrimIsTrimmed(line);
    assert "include" + " " == "include " && "modsecurity_rules_file" + " " == "modsecurity_rules_file ";
    directive := if HasPrefix(trimmed, "include ") then "include" else "modsecurity_rules_file";
    value := DirectiveValue(trimmed, directive).value;
    var gap, pad, close := LineParts(trimmed, directive, value);
    var lead, trail := Paths.Padding(line);
    assert lead + (trimmed + trail) == lead + trimmed + trail;
    assert SpelledWith(line, directive, value, Spacing(lead, gap, pad, close, trail));
  }

  /** The line spells a directive whose value leads to this reference. */
  ghost predicate Says(root: Paths.Path, current: string, line: string, ref: string) {
    exists directive, value :: Spells(line, directive, value) && LeadsTo(root, current, value, ref)
  }

  /** What a line means: it makes a reference if and only if it spells one of the two directives with some
      value, and then to where that value leads. */
  lemma LineMeans(root: Paths.Path, current: string, line: string, ref: string)
    ensures LineReference(root, current, line) == Some(ref) <==> Says(root, current, line, ref)
  {
    hide LineReference, Spells, LeadsTo, MapBundleReference;
    forall value ensures LeadsTo(root, current, value, ref) <==> ref == MapBundleReference(root, current, value) {
      LeadsWhereMapped(root, current, value, ref);
    }
    if LineReference(root, current, line) == Some(ref) {
      var directive, value := ReadIsSpelled(root, current, line, ref);
    }
    if directive, value :| Spells(line, directive, value) && LeadsTo(root, current, value, ref) {
      SpellingIsRead(root, current, line, directive, value);
    }
  }

  lemma SpellingIsRead(root: Paths.Path, current: string, line: string, directive: string, value: string)
    requires Spells(line, directive, value)
    ensures LineReference(root, current, line) == Some(MapBundleReference(root, current, value))
  {
    hide SpelledWith, LineReference, MapBundleReference;
    var w :| SpelledWith(line, directive, value, w);
    SpelledIsRead(root, current, line, directive, value, w);
  }

  /** What a file refers to. */
  ghost predicate RefersTo(root: Paths.Path, current: string, content: string, ref: string) {
    exists line <- Split(content, '\n') :: Says(root, current, line, ref)
  }

  ghost function Reader(root: Paths.Path, current: string): string -> Option<string> {
    (line: string) => LineReference(root, current, line)
  }

  ghost predicate AmongLines(read: string -> Option<string>, lines: seq<string>, ref: string) {
    exists line <- lines :: read(line) == Some(ref)
  }

  lemma OneMoreLine(read: string -> Option<string>, lines: seq<string>, line: string, ref: string)
    ensures AmongLines(read, lines + [line], ref) <==> AmongLines(read, lines, ref) || read(line) == Some(ref)
  {
    assert forall l :: l in lines + [line] <==> l in lines || l == line;
  }

  /** extractReferencedFiles */
  method ExtractReferencedFiles(root: Paths.Path, current: string, content: string) returns (refs: seq<string>)
    ensures forall ref :: ref in refs <==> RefersTo(root, current, content, ref)
  {
    refs := ReadLines(root, current, Split(content, '\n'));
    forall ref ensures AmongLines(Reader(root, current), Split(content, '\n'), ref) <==> RefersTo(root, current, content, ref) {
      LinesSay(root, current, Split(content, '\n'), ref);
    }
  }

  lemma LinesSay(root: Paths.Path, current: string, lines: seq<string>, ref: string)
    ensures AmongLines(Reader(root, current), lines, ref) <==> exists line <- lines :: Says(root, current, line, ref)
  {
    hide Says, LineReference;
    forall line ensures LineReference(root, current, line) == Some(ref) <==> Says(root, current, line, ref) {
      LineMeans(root, current, line, ref);
    }
  }

  /** Its loop over the lines. */
  method ReadLines(root: Paths.Path, current: string, lines: seq<string>) returns (refs: seq<string>)
    ensures forall ref :: ref in refs <==> AmongLines(Reader(root, current), lines, ref)
  {
    hide LineReference;
    ghost var read := Reader(root, current);
    refs := [];
    for i := 0 to |lines|
      invariant forall ref :: ref in refs <==> AmongLines(read, lines[..i], ref)
    {
      hide AmongLines;
      assert lines[..i + 1] == lines[..i] + [lines[i]];
      forall ref
        ensures AmongLines(read, lines[..i + 1], ref) <==> AmongLines(read, lines[..i], ref) || read(lines[i]) == Some(ref)
      {
        OneMoreLine(read, lines[..i], lines[i], ref);
      }
      var found := ReadLine(root, current, lines[i]);
      if found.Some? { refs := refs + [found.value]; }
    }
    assert lines[..|lines|] == lines;
  }

  /** The switch in that loop. */
  method ReadLine(root: Paths.Path, current: string, line: string) returns (ref: Option<string>)
    ensures ref == Reader(root, current)(line)
  {
    var trimmed := Trim(line);
    var value: Option<string> := None;
    if HasPrefix(trimmed, "include ") {
      value := DirectiveValue(trimmed, "include");
    } else if HasPrefix(trimmed, "modsecurity_rules_file ") {
      value := DirectiveValue(trimmed, "modsecurity_rules_file");
    }
    ref := if value.None? then None else Some(MapBundleReference(root, current, value.value));
  }

  // ---- The file system as the walk sees it ---------------------------------------------------------------

  /** os.Stat, os.ReadFile and filepath.Glob; None is an error. */
  datatype Tree = Tree(stat: string -> bool, read: string -> Option<string>, glob: string -> Option<seq<string>>)

  /** Globbing only ever yields paths of a finite file system. */
  ghost predicate Within(tree: Tree, universe: set<string>) {
    forall ref, m :: tree.glob(ref).Some? && m in tree.glob(ref).value ==> m in universe
  }

  predicate HasGlobPattern(ref: string) {
    '*' in ref || '?' in ref || '[' in ref
  }

  lemma GlobMeans(ref: string)
    ensures HasGlobPattern(ref) <==> exists c :: c in ref && c in "*?["
  {
    assert '*' in "*?[" && '?' in "*?[" && '[' in "*?[";
    if c :| c in ref && c in "*?[" { assert c == '*' || c == '?' || c == '['; }
  }

  /** filepath.Ext */
  function Ext(path: string): string {
    if path == "" || path[|path| - 1] == '/' then ""
    else if path[|path| - 1] == '.' then "."
    else
      var shorter := Ext(path[..|path| - 1]);
      if shorter == "" then "" else shorter + [path[|path| - 1]]
  }

  lemma {:induction false} ExtOfSuffix(path: string, ext: string)
    requires '/' !in ext && '.' !in ext
    ensures Ext(path + "." + ext) == "." + ext
  {
    var p := path + "." + ext;
    if ext == "" {
      assert p == path + ".";
    } else {
      var n := |ext| - 1;
      assert ext == ext[..n] + [ext[n]] && p[|p| - 1] == ext[n] && ext[n] in ext;
      assert p[..|p| - 1] == path + "." + ext[..n];
      ExtOfSuffix(path, ext[..n]);
    }
  }

  lemma {:induction false} ExtIsSuffix(path: string)
    ensures |Ext(path)| <= |path| && Ext(path) == path[|path| - |Ext(path)|..]
  {
    if path != "" && path[|path| - 1] != '/' && path[|path| - 1] != '.' {
      ExtIsSuffix(path[..|path| - 1]);
    }
  }

  lemma ConfFiles(path: string)
    ensures Ext(path) == CONF <==> HasSuffix(path, ".conf")
  {
    ExtIsSuffix(path);
    if HasSuffix(path, CONF) {
      var stem := path[..|path| - 5];
      assert path == stem + "." + "conf";
      ExtOfSuffix(stem, "conf");
    }
  }

  ghost predicate Refers(tree: Tree, root: Paths.Path, file: string, ref: string) {
    tree.read(file).Some? && RefersTo(root, file, tree.read(file).value, ref)
  }

  /** Of two files, the first makes the walk visit the second. */
  ghost predicate Includes(tree: Tree, root: Paths.Path, file: string, next: string) {
    && HasSuffix(next, ".conf")
    && exists ref :: Refers(tree, root, file, ref) && tree.glob(ref).Some? && next in tree.glob(ref).value
  }

  /** A reference resolves: its pattern is well formed, what it matches exists, and it matches something
      unless it is a glob. */
  predicate Resolves(tree: Tree, ref: string) {
    && tree.glob(ref).Some?
    && (tree.glob(ref).value == [] ==> exists c :: c in ref && c in "*?[")
    && forall m <- tree.glob(ref).value :: tree.stat(m)
  }

  ghost predicate Sound(tree: Tree, root: Paths.Path, file: string) {
    && tree.read(file).Some?
    && forall ref :: Refers(tree, root, file, ref) ==> Resolves(tree, ref)
  }

  /** The include graph. */
  ghost function EdgesOf(tree: Tree, root: Paths.Path): Graphs.Edges {
    (file: string, next: string) => Includes(tree, root, file, next)
  }

  ghost predicate Reachable(tree: Tree, root: Paths.Path, start: string, file: string) {
    Graphs.Reachable(EdgesOf(tree, root), start, file)
  }

  // ---- The state of the walk -------------------------------------------------------------------------------

  /** Everything met so far is reachable and finite, everything seen is sound, and nothing seen includes a
      file that is neither seen nor queued. */
  ghost predicate Searching(edges: Graphs.Edges, sound: string -> bool, start: string, all: set<string>,
                            seen: set<string>, queue: seq<string>) {
    && (forall v <- queue :: v in all && Graphs.Reachable(edges, start, v))
    && (forall v <- seen :: Graphs.Reachable(edges, start, v) && sound(v))
    && (forall u, v :: u in seen && edges(u, v) ==> v in seen || v in queue)
    && (start in seen || start in queue)
  }

  lemma SearchStarts(edges: Graphs.Edges, sound: string -> bool, start: string, all: set<string>)
    requires start in all
    ensures Searching(edges, sound, start, all, {}, [start])
  {
    Graphs.StartReachable(edges, start);
  }

  lemma NextIsReachable(edges: Graphs.Edges, sound: string -> bool, start: string, all: set<string>, seen: set<string>,
                        queue: seq<string>)
    requires queue != [] && Searching(edges, sound, start, all, seen, queue)
    ensures queue[0] in all && Graphs.Reachable(edges, start, queue[0])
  {
  }

  lemma SkipSeen(edges: Graphs.Edges, sound: string -> bool, start: string, all: set<string>, seen: set<string>,
                 queue: seq<string>)
    requires queue != [] && Searching(edges, sound, start, all, seen, queue) && queue[0] in seen
    ensures Searching(edges, sound, start, all, seen, queue[1..])
  {
    assert forall v :: v in queue <==> v == queue[0] || v in queue[1..];
  }

  lemma VisitNext(edges: Graphs.Edges, sound: string -> bool, start: string, all: set<string>, seen: set<string>,
                  queue: seq<string>, found: seq<string>)
    requires queue != [] && Searching(edges, sound, start, all, seen, queue) && sound(queue[0])
    requires forall v :: v in found <==> edges(queue[0], v)
    requires forall v <- found :: v in all
    ensures Searching(edges, sound, start, all, seen + {queue[0]}, queue[1..] + found)
  {
    assert forall v :: v in queue <==> v == queue[0] || v in queue[1..];
    forall v | v in found ensures Graphs.Reachable(edges, start, v) {
      Graphs.NextReachable(edges, start, queue[0], v);
    }
  }

  lemma SearchDone(edges: Graphs.Edges, sound: string -> bool, start: string, all: set<string>, seen: set<string>)
    requires Searching(edges, sound, start, all, seen, [])
    ensures forall v :: v in seen <==> Graphs.Reachable(edges, start, v)
    ensures forall v :: Graphs.Reachable(edges, start, v) ==> sound(v)
  {
    assert Graphs.Closed(edges, seen);
    Graphs.ClosedHoldsReachable(edges, start, seen);
  }

  // ---- The walk --------------------------------------------------------------------------------------------

  /** One reference: the configuration files it makes the walk visit. */
  method FollowReference(tree: Tree, ref: string) returns (r: Option<seq<string>>)
    ensures r.Some? <==> Resolves(tree, ref)
    ensures r.Some? ==> forall m :: m in r.value <==> m in tree.glob(ref).value && HasSuffix(m, ".conf")
  {
    var globbed := tree.glob(ref);
    if globbed.None? { return None; }
    var matches := globbed.value;
    GlobMeans(ref);
    if |matches| == 0 { return if HasGlobPattern(ref) then Some([]) else None; }
    var queued: seq<string> := [];
    for i := 0 to |matches|
      invariant forall k :: 0 <= k < i ==> tree.stat(matches[k])
      invariant forall m :: m in queued <==> m in matches[..i] && HasSuffix(m, ".conf")
    {
      assert matches[..i + 1] == matches[..i] + [matches[i]];
      if !tree.stat(matches[i]) { return None; }
      ConfFiles(matches[i]);
      if Ext(matches[i]) == CONF { queued := queued + [matches[i]]; }
    }
    assert matches[..|matches|] == matches;
    r := Some(queued);
  }

  ghost predicate Leads(tree: Tree, refs: seq<string>, next: string) {
    HasSuffix(next, ".conf") && exists ref <- refs :: tree.glob(ref).Some? && next in tree.glob(ref).value
  }

  /** All references of one file. */
  method FollowReferences(tree: Tree, refs: seq<string>) returns (r: Option<seq<string>>)
    ensures r.Some? <==> forall ref <- refs :: Resolves(tree, ref)
    ensures r.Some? ==> forall v :: v in r.value <==> Leads(tree, refs, v)
  {
    var queued: seq<string> := [];
    for i := 0 to |refs|
      invariant forall ref <- refs[..i] :: Resolves(tree, ref)
      invariant forall v :: v in queued <==> Leads(tree, refs[..i], v)
    {
      assert refs[..i + 1] == refs[..i] + [refs[i]];
      var followed := FollowReference(tree, refs[i]);
      if followed.None? { return None; }
      queued := queued + followed.value;
    }
    assert refs[..|refs|] == refs;
    r := Some(queued);
  }

  method ScanFile(tree: Tree, root: Paths.Path, current: string) returns (r: Option<seq<string>>)
    ensures r.Some? <==> Sound(tree, root, current)
    ensures r.Some? ==> forall v :: v in r.value <==> Includes(tree, root, current, v)
  {
    var content := tree.read(current);
    if content.None? { return None; }
    var refs := ExtractReferencedFiles(root, current, content.value);
    assert forall ref :: ref in refs <==> Refers(tree, root, current, ref);
    r := FollowReferences(tree, refs);
  }

  lemma FoundWithin(tree: Tree, root: Paths.Path, universe: set<string>, file: string, found: seq<string>)
    requires Within(tree, universe) && forall v <- found :: Includes(tree, root, file, v)
    ensures forall v <- found :: v in universe
  {
  }

  /** nginx/nginx.conf below the bundle's root. */
  function NginxConf(root: Paths.Path): string {
    Paths.PathText(Paths.Path(root.rooted, root.elements + ["nginx", "nginx.conf"]))
  }

  lemma NginxConfIsJoined(root: Paths.Path)
    ensures Paths.PathText(Paths.Join(Paths.Join(root, "nginx"), "nginx.conf")) == NginxConf(root)
  {
    hide Split, Paths.Walk, Paths.Join, Paths.PathText, Paths.OneElement;
    Paths.PlainIsOneElement("nginx");
    Paths.PlainIsOneElement("nginx.conf");
    Paths.JoinOneElement(root, "nginx");
    Paths.JoinOneElement(Paths.Join(root, "nginx"), "nginx.conf");
    assert root.elements + ["nginx"] + ["nginx.conf"] == root.elements + ["nginx", "nginx.conf"];
  }

  /** validateIncludedFiles: terminates on every finite file system, succeeds exactly when nginx.conf exists
      and every file reachable from it is sound, and has then seen exactly the reachable files. */
  method ValidateIncludedFiles(tree: Tree, root: Paths.Path, ghost universe: set<string>)
    returns (ok: bool, seen: set<string>)
    requires Within(tree, universe)
    ensures ok <==> && tree.stat(NginxConf(root))
                    && forall v :: Reachable(tree, root, NginxConf(root), v) ==> Sound(tree, root, v)
    ensures ok ==> forall v :: v in seen <==> Reachable(tree, root, NginxConf(root), v)
  {
    var start := Paths.PathText(Paths.Join(Paths.Join(root, "nginx"), "nginx.conf"));
    NginxConfIsJoined(root);
    seen := {};
    if !tree.stat(start) { return false, seen; }
    var queue := [start];
    ghost var edges, all := EdgesOf(tree, root), universe + {start};
    ghost var sound: string -> bool := (v: string) => Sound(tree, root, v);
    SearchStarts(edges, sound, start, all);
    hide Searching, Sound, Includes, NginxConf, Graphs.Reachable;
    while queue != []
      invariant Searching(edges, sound, start, all, seen, queue)
      decreases all - seen, |queue|
    {
      var current := queue[0];
      NextIsReachable(edges, sound, start, all, seen, queue);
      if current in seen {
        SkipSeen(edges, sound, start, all, seen, queue);
        queue := queue[1..];
        continue;
      }
      var scanned := ScanFile(tree, root, current);
      if scanned.None? {
        assert Reachable(tree, root, start, current);
        return false, seen;
      }
      FoundWithin(tree, root, universe, current, scanned.value);
      VisitNext(edges, sound, start, all, seen, queue, scanned.value);
      seen := seen + {current};
      queue := queue[1..] + scanned.value;
    }
    SearchDone(edges, sound, start, all, seen);
    assert forall v :: Reachable(tree, root, start, v) ==> sound(v);
    ok := true;
  }
}
