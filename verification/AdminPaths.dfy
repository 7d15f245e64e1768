/** The admin path tables and the alternation patterns built from them. */
module AdminPaths {
  import opened Basics
  import opened Text
  import opened Regex
  import opened Tokens
  import opened PathPatterns
  import opened GuardMeaning
  import opened Alternation

  // ---- The pattern ---------------------------------------------------------------------------------

  /** One alternative, without the leading slash the pattern supplies. */
  function Part(path: string): string {
    if path == "/" then ""
    else if HasSuffix(path, "/") then QuoteMeta(TrimSuffix(TrimPrefix(path, "/"), "/")) + "/.*"
    else QuoteMeta(TrimPrefix(path, "/")) + "(?:/.*)?"
  }

  function Parts(paths: seq<string>): (parts: seq<string>)
    ensures |parts| == |paths|
    ensures forall i :: 0 <= i < |paths| ==> parts[i] == Part(paths[i])
  {
    if paths == [] then [] else [Part(paths[0])] + Parts(paths[1..])
  }

  function PatternOf(paths: seq<string>): string {
    "^/" + GroupText(Parts(paths)) + "$"
  }

  /** adminPathPattern */
  method AdminPathPattern(paths: seq<string>) returns (pattern: string)
    ensures pattern == PatternOf(paths)
  {
    hide QuoteMeta, Join, Parts;
    var parts: seq<string> := [];
    for i := 0 to |paths|
      invariant |parts| == i && forall k :: 0 <= k < i ==> parts[k] == Part(paths[k])
    {
      var path := paths[i];
      if path == "/" {
        parts := parts + [""];
      } else if HasSuffix(path, "/") {
        parts := parts + [QuoteMeta(TrimSuffix(TrimPrefix(path, "/"), "/")) + "/.*"];
      } else {
        parts := parts + [QuoteMeta(TrimPrefix(path, "/")) + "(?:/.*)?"];
      }
    }
    assert parts == Parts(paths);
    pattern := "^/" + ("(?:" + Join(parts, "|") + ")") + "$";
  }

  /** A listed path covers a URI: "/" only itself, a trailing slash everything below, any other path
      itself and everything below it as a segment. */
  predicate Reserves(ci: bool, path: string, uri: string) {
    if path == "/" then Same(ci, path, uri)
    else if HasSuffix(path, "/") then StartsWith(ci, path, uri)
    else Same(ci, path, uri) || StartsWith(ci, path + "/", uri)
  }

  // ---- Trees ----------------------------------------------------------------------------------------

  const SLASH_RUN: seq<Token> := [Lit('/'), AnyRun]

  lemma SlashRunShown()
    ensures Show(SLASH_RUN) == "/.*" && Show(SLASH_RUN[1..]) == ".*"
  {
    assert '/' !in META;
    assert SLASH_RUN[1..] == [AnyRun] && [AnyRun][1..] == [];
  }

  lemma {:induction false} ShowConcat(a: seq<Token>, b: seq<Token>)
    ensures Show(a + b) == Show(a) + Show(b)
  {
    if a == [] {
      assert a + b == b;
    } else {
      assert (a + b)[1..] == a[1..] + b;
      ShowConcat(a[1..], b);
    }
  }

  function Below(): Re {
    Cat(Optional(Tree(SLASH_RUN, Empty)), Empty)
  }

  /** The path without its leading slash (and, for a prefix path, without its trailing one). */
  function Stem(path: string): string {
    if HasSuffix(path, "/") then TrimSuffix(TrimPrefix(path, "/"), "/") else TrimPrefix(path, "/")
  }

  function PartTree(path: string): Re {
    if path == "/" then Empty
    else if HasSuffix(path, "/") then Tree(Literals(Stem(path)) + SLASH_RUN, Empty)
    else Tree(Literals(Stem(path)), Below())
  }

  lemma BelowParses(rest: string)
    requires Closes(rest)
    ensures ParseCat("(?:/.*)?" + rest) == Parsed(Below(), rest)
  {
    var slash := "/.*";
    SlashRunShown();
    TokensArePart(SLASH_RUN);
    assert PartParses([slash][0], [Tree(SLASH_RUN, Empty)][0]);
    GroupParses([slash], [Tree(SLASH_RUN, Empty)], "?" + rest);
    assert GroupText([slash]) + ("?" + rest) == "(?:/.*)?" + rest;
    var t := "(?:/.*)?" + rest;
    assert ParseAtom(t) == Parsed(Tree(SLASH_RUN, Empty), "?" + rest);
    assert ("?" + rest)[1..] == rest;
    assert ParseItem(t) == Parsed(Optional(Tree(SLASH_RUN, Empty)), rest);
  }

  lemma SegmentPartParses(stem: string)
    ensures PartParses(QuoteMeta(stem) + "(?:/.*)?", Tree(Literals(stem), Below()))
  {
    forall rest | Closes(rest)
      ensures ParseCat((QuoteMeta(stem) + "(?:/.*)?") + rest) == Parsed(Tree(Literals(stem), Below()), rest)
    {
      QuotedIsShown(stem);
      BelowParses(rest);
      ParseShown(Literals(stem), "(?:/.*)?" + rest);
      assert (QuoteMeta(stem) + "(?:/.*)?") + rest == Show(Literals(stem)) + ("(?:/.*)?" + rest);
    }
  }

  lemma PrefixPartParses(stem: string)
    ensures PartParses(QuoteMeta(stem) + "/.*", Tree(Literals(stem) + SLASH_RUN, Empty))
  {
    QuotedIsShown(stem);
    SlashRunShown();
    ShowConcat(Literals(stem), SLASH_RUN);
    TokensArePart(Literals(stem) + SLASH_RUN);
  }

  lemma PartIsParsed(path: string)
    ensures PartParses(Part(path), PartTree(path))
  {
    if path == "/" {
      forall rest | Closes(rest) ensures ParseCat("" + rest) == Parsed(Empty, rest) {
        assert "" + rest == rest;
      }
    } else if HasSuffix(path, "/") {
      PrefixPartParses(Stem(path));
    } else {
      SegmentPartParses(Stem(path));
    }
  }

  function PartTrees(paths: seq<string>): (res: seq<Re>)
    ensures |res| == |paths|
    ensures forall i :: 0 <= i < |paths| ==> res[i] == PartTree(paths[i])
  {
    if paths == [] then [] else [PartTree(paths[0])] + PartTrees(paths[1..])
  }

  /** The alternation; without alternatives its text is still a group, of nothing. */
  function GroupTree(paths: seq<string>): Re {
    if paths == [] then Empty else OrTree(PartTrees(paths))
  }

  function WholeTree(paths: seq<string>): Re {
    Cat(Begin, Cat(Char(One('/')), Cat(GroupTree(paths), Cat(End, Empty))))
  }

  lemma EmptyGroupParses(rest: string)
    ensures ParseAtom("(?:)" + rest) == Parsed(Empty, rest) && ("(?:)" + rest)[0] == '('
  {
    var t, inner := "(?:)" + rest, ")" + rest;
    assert t == "(?:" + inner && "(?:" <= t && t[3..] == inner && t[0] == '(' && inner[1..] == rest;
    assert ParseOr(inner) == Parsed(Empty, inner);
  }

  lemma GroupThenEnd(paths: seq<string>)
    ensures var group := GroupText(Parts(paths)) + "$";
            && Detached(group)
            && ParseCat(group) == Parsed(Cat(GroupTree(paths), Cat(End, Empty)), "")
  {
    if paths == [] {
      EmptyGroupParses("$");
      assert GroupText([]) == "(?:" + "" + ")" == "(?:)";
    } else {
      forall i | 0 <= i < |paths| ensures PartParses(Parts(paths)[i], PartTrees(paths)[i]) { PartIsParsed(paths[i]); }
      GroupParses(Parts(paths), PartTrees(paths), "$");
    }
    TailParses(true);
    AtomThenEnd(GroupText(Parts(paths)) + "$", GroupTree(paths));
  }

  lemma AtomThenEnd(group: string, re: Re)
    requires group != "" && group[0] == '(' && ParseAtom(group) == Parsed(re, "$")
    requires ParseCat("$") == Parsed(Cat(End, Empty), "")
    ensures ParseCat(group) == Parsed(Cat(re, Cat(End, Empty)), "")
  {
    assert ParseItem(group) == Parsed(re, "$");
  }

  lemma SlashThenGroup(group: string, tree: Re)
    requires Detached(group + "$") && ParseCat(group + "$") == Parsed(tree, "")
    ensures Parse("^/" + group + "$") == Some(Cat(Begin, Cat(Char(One('/')), tree)))
  {
    assert '/' !in META;
    PlainCharParses('/', group + "$");
    CaretParses("/" + (group + "$"));
    assert "^" + ("/" + (group + "$")) == "^/" + group + "$";
  }

  lemma PatternParses(paths: seq<string>)
    ensures Parse(PatternOf(paths)) == Some(WholeTree(paths))
  {
    GroupThenEnd(paths);
    SlashThenGroup(GroupText(Parts(paths)), Cat(GroupTree(paths), Cat(End, Empty)));
  }

  // ---- Meaning ------------------------------------------------------------------------------------------

  lemma {:induction false} RunFits(ci: bool, u: string)
    requires '\n' !in u
    ensures TokensFit(ci, SLASH_RUN, u) <==> u != "" && Fold(ci, u[0]) == Fold(ci, '/')
  {
    assert SLASH_RUN[1..] == [AnyRun] && [AnyRun][1..] == [];
    if u != "" {
      var v := u[1..];
      assert '\n' !in v[..|v|] && v[|v|..] == "";
      assert TokensFit(ci, [AnyRun], v);
    }
  }

  /** stem/.* fits exactly what starts with stem and a slash. */
  lemma PrefixFits(ci: bool, stem: string, u: string)
    requires '\n' !in u
    ensures TokensFit(ci, Literals(stem) + SLASH_RUN, u) <==> StartsWith(ci, stem + "/", u)
  {
    TokensConcat(ci, Literals(stem), SLASH_RUN, u);
    if k :| 0 <= k <= |u| && TokensFit(ci, Literals(stem), u[..k]) && TokensFit(ci, SLASH_RUN, u[k..]) {
      LiteralsFit(ci, stem, u[..k]);
      RunFits(ci, u[k..]);
      SameAppend(ci, stem, '/', u);
    }
    if StartsWith(ci, stem + "/", u) {
      SameAppend(ci, stem, '/', u);
      LiteralsFit(ci, stem, u[..|stem|]);
      RunFits(ci, u[|stem|..]);
    }
  }

  lemma SameAppend(ci: bool, stem: string, c: char, u: string)
    ensures StartsWith(ci, stem + [c], u)
            <==> |stem| < |u| && Same(ci, stem, u[..|stem|]) && Fold(ci, u[|stem|]) == Fold(ci, c)
  {
    var n := |stem|;
    if n < |u| {
      assert forall i :: 0 <= i < n ==> (stem + [c])[i] == stem[i] && u[..n + 1][i] == u[..n][i];
      assert (stem + [c])[n] == c && u[..n + 1][n] == u[n];
      if StartsWith(ci, stem + [c], u) {
        assert forall i :: 0 <= i < n ==> Fold(ci, (stem + [c])[i]) == Fold(ci, u[..n + 1][i]);
        assert Fold(ci, (stem + [c])[n]) == Fold(ci, u[..n + 1][n]);
      }
    }
  }

  lemma BelowFits(ci: bool, s: string, k: nat)
    requires k <= |s| && '\n' !in s
    ensures Fits(ci, Below(), s, k, |s|) <==> k == |s| || s[k] == '/'
  {
    TreeFitsTokens(ci, SLASH_RUN, s, k, |s|);
    RunFits(ci, s[k..|s|]);
    var slashRun := Optional(Tree(SLASH_RUN, Empty));
    if Fits(ci, Below(), s, k, |s|) {
      var m := CatSplits(ci, slashRun, Empty, s, k, |s|);
    }
    if k == |s| || s[k] == '/' {
      assert Fits(ci, slashRun, s, k, |s|);
      CatJoins(ci, slashRun, Empty, s, k, |s|, |s|);
    }
  }

  /** stem(?:/.*)? fits the stem itself and everything below it as a segment. */
  lemma SegmentFits(ci: bool, stem: string, s: string)
    requires s != "" && '\n' !in s
    ensures Fits(ci, Tree(Literals(stem), Below()), s, 1, |s|)
            <==> Same(ci, stem, s[1..]) || StartsWith(ci, stem + "/", s[1..])
  {
    hide Fits, Tree, TokensFit, Literals, Below;
    var u := s[1..];
    SameAppend(ci, stem, '/', u);
    if Fits(ci, Tree(Literals(stem), Below()), s, 1, |s|) {
      var k := TreeToTokens(ci, Literals(stem), Below(), s, 1, |s|);
      LiteralsFit(ci, stem, s[1..k]);
      BelowFits(ci, s, k);
      assert s[1..k] == u[..k - 1];
      assert u[..|u|] == u;
    }
    if Same(ci, stem, u) || StartsWith(ci, stem + "/", u) {
      var k := 1 + |stem|;
      assert u[..|u|] == u;
      assert s[1..k] == u[..k - 1];
      LiteralsFit(ci, stem, s[1..k]);
      BelowFits(ci, s, k);
      TokensToTree(ci, Literals(stem), Below(), s, 1, k, |s|);
    }
  }

  lemma UnderSlash(ci: bool, text: string, s: string)
    requires s != "" && s[0] == '/'
    ensures Same(ci, "/" + text, s) <==> Same(ci, text, s[1..])
    ensures StartsWith(ci, "/" + text, s) <==> StartsWith(ci, text, s[1..])
  {
    SameUnderSlash(ci, text, s);
    if |text| < |s| {
      SameUnderSlash(ci, text, s[..|text| + 1]);
      assert s[..|text| + 1][1..] == s[1..][..|text|];
    }
  }

  lemma SameUnderSlash(ci: bool, text: string, s: string)
    requires s != "" && s[0] == '/'
    ensures Same(ci, "/" + text, s) <==> Same(ci, text, s[1..])
  {
    var t := "/" + text;
    assert forall i :: 0 <= i < |text| ==> t[i + 1] == text[i];
    assert forall i :: 0 <= i < |s| - 1 ==> s[1..][i] == s[i + 1];
    if Same(ci, text, s[1..]) {
      forall i | 0 <= i < |t| ensures Fold(ci, t[i]) == Fold(ci, s[i]) {
        if i > 0 { assert t[i] == text[i - 1] && s[i] == s[1..][i - 1]; }
      }
    }
    if Same(ci, t, s) {
      forall i | 0 <= i < |text| ensures Fold(ci, text[i]) == Fold(ci, s[1..][i]) {
        assert Fold(ci, t[i + 1]) == Fold(ci, s[i + 1]);
      }
    }
  }

  /** One alternative fits what is left after the leading slash exactly when its path covers the URI. */
  lemma PartFits(ci: bool, path: string, s: string)
    requires path != "" && path[0] == '/' && s != "" && s[0] == '/' && '\n' !in s
    ensures Fits(ci, PartTree(path), s, 1, |s|) <==> Reserves(ci, path, s)
  {
    var stem := Stem(path);
    if path == "/" {
    } else if HasSuffix(path, "/") {
      assert path == "/" + (stem + "/");
      TreeFitsTokens(ci, Literals(stem) + SLASH_RUN, s, 1, |s|);
      assert s[1..|s|] == s[1..];
      PrefixFits(ci, stem, s[1..]);
      UnderSlash(ci, stem + "/", s);
    } else {
      assert path == "/" + stem && path + "/" == "/" + (stem + "/");
      SegmentFits(ci, stem, s);
      UnderSlash(ci, stem, s);
      UnderSlash(ci, stem + "/", s);
    }
  }

  lemma EndFits(ci: bool, s: string, k: nat, j: nat)
    requires k <= j <= |s| && '\n' !in s
    ensures Fits(ci, Cat(End, Empty), s, k, j) <==> k == j == |s|
  {
    assert forall x :: 0 <= x < |s| ==> s[x] != '\n';
    if k == j == |s| { CatJoins(ci, End, Empty, s, k, k, k); }
  }

  /** ^/(...)$ fits exactly when the subject starts with a slash and the group fits all the rest. */
  lemma FrameFits(ci: bool, group: Re, s: string, i: nat, j: nat)
    requires i <= j <= |s| && '\n' !in s
    requires Fits(ci, Cat(Begin, Cat(Char(One('/')), Cat(group, Cat(End, Empty)))), s, i, j)
    ensures s != "" && s[0] == '/' && Fits(ci, group, s, 1, |s|)
  {
    var afterSlash := Cat(group, Cat(End, Empty));
    var k := CatSplits(ci, Begin, Cat(Char(One('/')), afterSlash), s, i, j);
    var m := CatSplits(ci, Char(One('/')), afterSlash, s, k, j);
    var n := CatSplits(ci, group, Cat(End, Empty), s, m, j);
    EndFits(ci, s, n, j);
  }

  lemma FitsFrame(ci: bool, group: Re, s: string)
    requires '\n' !in s && s != "" && s[0] == '/' && Fits(ci, group, s, 1, |s|)
    ensures Fits(ci, Cat(Begin, Cat(Char(One('/')), Cat(group, Cat(End, Empty)))), s, 0, |s|)
  {
    EndFits(ci, s, |s|, |s|);
    CatJoins(ci, group, Cat(End, Empty), s, 1, |s|, |s|);
    CatJoins(ci, Char(One('/')), Cat(group, Cat(End, Empty)), s, 0, 1, |s|);
    CatJoins(ci, Begin, Cat(Char(One('/')), Cat(group, Cat(End, Empty))), s, 0, 0, |s|);
  }

  predicate Rooted(paths: seq<string>) {
    forall path <- paths :: path != "" && path[0] == '/'
  }

  lemma PathSlashReserves(ci: bool, path: string, uri: string)
    requires path != "" && path[0] == '/' && Reserves(ci, path, uri)
    ensures uri != "" && uri[0] == '/'
  {
    assert Fold(ci, path[0]) == Fold(ci, uri[0]) by {
      if StartsWith(ci, path + "/", uri) {
        assert (path + "/")[0] == path[0];
        assert Fold(ci, (path + "/")[0]) == Fold(ci, uri[..|path| + 1][0]);
      } else if StartsWith(ci, path, uri) {
        assert Fold(ci, path[0]) == Fold(ci, uri[..|path|][0]);
      }
    }
  }

  /** The pattern means what the table says: it matches a newline-free URI exactly when some listed path
      covers it. The pattern of an empty table is the exception: it still matches "/". */
  lemma PatternPreservesMeaning(ci: bool, paths: seq<string>, uri: string)
    requires Rooted(paths) && '\n' !in uri
    ensures Matches(ci, PatternOf(paths), uri)
            <==> if paths == [] then uri == "/" else exists path <- paths :: Reserves(ci, path, uri)
  {
    PatternParses(paths);
    if i: nat, j: nat :| i <= j <= |uri| && Fits(ci, WholeTree(paths), uri, i, j) {
      FrameFits(ci, GroupTree(paths), uri, i, j);
      if paths != [] { FittingIsReserved(ci, paths, uri); }
    }
    if paths == [] && uri == "/" { FitsFrame(ci, Empty, uri); }
    if path :| path in paths && Reserves(ci, path, uri) {
      ReservedFits(ci, paths, path, uri);
    }
  }

  lemma FittingIsReserved(ci: bool, paths: seq<string>, uri: string)
    requires paths != [] && Rooted(paths) && '\n' !in uri && uri != "" && uri[0] == '/'
    requires Fits(ci, GroupTree(paths), uri, 1, |uri|)
    ensures exists path <- paths :: Reserves(ci, path, uri)
  {
    OrFits(ci, PartTrees(paths), uri, 1, |uri|);
    var n :| 0 <= n < |paths| && Fits(ci, PartTrees(paths)[n], uri, 1, |uri|);
    assert paths[n] in paths;
    PartFits(ci, paths[n], uri);
  }

  lemma ReservedFits(ci: bool, paths: seq<string>, path: string, uri: string)
    requires Rooted(paths) && '\n' !in uri && path in paths && Reserves(ci, path, uri)
    ensures Fits(ci, WholeTree(paths), uri, 0, |uri|)
  {
    PathSlashReserves(ci, path, uri);
    PartFits(ci, path, uri);
    var n :| 0 <= n < |paths| && paths[n] == path;
    assert PartTrees(paths)[n] in PartTrees(paths);
    OrFits(ci, PartTrees(paths), uri, 1, |uri|);
    FitsFrame(ci, GroupTree(paths), uri);
  }
}
