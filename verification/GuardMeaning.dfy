/** What compiled guard patterns match: exactly what the operator's path says, with or without the
    case folding of nginx's ~* operator. */
module GuardMeaning {
  import opened Basics
  import opened Text
  import opened Regex
  import opened Tokens
  import opened PathPatterns

  // ---- Meaning of "^tokens" and "^tokens$" --------------------------------------------------------

  function TailText(anchored: bool): string {
    if anchored then "$" else ""
  }

  function TailTree(anchored: bool): Re {
    if anchored then Cat(End, Empty) else Empty
  }

  lemma TailParses(anchored: bool)
    ensures Detached(TailText(anchored))
    ensures ParseCat(TailText(anchored)) == Parsed(TailTree(anchored), "")
  {
    if anchored {
      assert "$"[1..] == "";
      assert ParseAtom("$") == Parsed(End, "");
      assert ParseItem("$") == Parsed(End, "");
    }
  }

  /** The tokens fit a prefix of s, or all of it when anchored. */
  ghost predicate Covers(ci: bool, ts: seq<Token>, anchored: bool, s: string) {
    exists k :: 0 <= k <= |s| && (anchored ==> k == |s|) && TokensFit(ci, ts, s[..k])
  }

  lemma BodyParses(ts: seq<Token>, anchored: bool)
    ensures Detached(Show(ts) + TailText(anchored))
    ensures ParseCat(Show(ts) + TailText(anchored)) == Parsed(Tree(ts, TailTree(anchored)), "")
  {
    TailParses(anchored);
    ParseShown(ts, TailText(anchored));
    ShowDetached(ts, TailText(anchored));
  }

  lemma CaretParses(body: string)
    requires Detached(body) && ParseCat(body).Parsed? && ParseCat(body).rest == ""
    ensures Parse("^" + body) == Some(Cat(Begin, ParseCat(body).re))
  {
    var t := "^" + body;
    assert t[0] == '^' && t[1..] == body;
    assert ParseAtom(t) == Parsed(Begin, body);
    assert ParseItem(t) == Parsed(Begin, body);
    assert ParseCat(t) == Parsed(Cat(Begin, ParseCat(body).re), "");
    assert ParseOr(t) == ParseCat(t);
  }

  lemma TailFits(ci: bool, anchored: bool, s: string, k: nat, j: nat)
    requires k <= j <= |s| && '\n' !in s
    ensures Fits(ci, TailTree(anchored), s, k, j) <==> k == j && (anchored ==> k == |s|)
  {
    if anchored {
      assert Fits(ci, Empty, s, j, j);
      if k < |s| { assert s[k] in s; }
    }
  }

  /** An emitted pattern matches a newline-free subject exactly when its tokens cover it. */
  lemma EmittedMatches(ci: bool, ts: seq<Token>, anchored: bool, s: string)
    requires '\n' !in s
    ensures Matches(ci, "^" + (Show(ts) + TailText(anchored)), s) <==> Covers(ci, ts, anchored, s)
  {
    hide TokensFit, Tree, Show;
    var body := Tree(ts, TailTree(anchored));
    BodyParses(ts, anchored);
    CaretParses(Show(ts) + TailText(anchored));
    var re := Cat(Begin, body);
    if i: nat, j: nat :| i <= j <= |s| && Fits(ci, re, s, i, j) {
      var m := CatSplits(ci, Begin, body, s, i, j);
      var k := TreeToTokens(ci, ts, TailTree(anchored), s, m, j);
      TailFits(ci, anchored, s, k, j);
      assert s[0..k] == s[..k];
    }
    if k :| 0 <= k <= |s| && (anchored ==> k == |s|) && TokensFit(ci, ts, s[..k]) {
      TailFits(ci, anchored, s, k, k);
      assert s[..k] == s[0..k];
      TokensToTree(ci, ts, TailTree(anchored), s, 0, k, k);
      assert Fits(ci, Begin, s, 0, 0);
      CatJoins(ci, Begin, body, s, 0, 0, k);
    }
  }

  // ---- The meaning of a path -----------------------------------------------------------------------

  predicate StartsWith(ci: bool, text: string, s: string) {
    |text| <= |s| && Same(ci, text, s[..|text|])
  }

  /** A question mark anywhere, or a star before the end. */
  predicate Wild(p: string) {
    '?' in p || exists i :: 0 <= i < |p| - 1 && p[i] == '*'
  }

  lemma {:induction false} CountedIsThere(p: string, c: char)
    ensures CountOf(p, c) > 0 <==> c in p
    ensures CountOf(p, c) == 1 ==> forall i, j :: 0 <= i < |p| && 0 <= j < |p| && p[i] == c && p[j] == c ==> i == j
    ensures CountOf(p, c) > 1 ==> exists i :: 0 <= i < |p| - 1 && p[i] == c
  {
    if p != "" {
      CountedIsThere(p[1..], c);
      assert p == [p[0]] + p[1..];
      if CountOf(p, c) == 1 {
        forall i, j | 0 <= i < |p| && 0 <= j < |p| && p[i] == c && p[j] == c ensures i == j {
          if i > 0 { assert p[1..][i - 1] == c; }
          if j > 0 { assert p[1..][j - 1] == c; }
        }
      }
      if CountOf(p, c) > 1 {
        if p[0] == c {
          assert |p| > 1;
        } else {
          var i :| 0 <= i < |p[1..]| - 1 && p[1..][i] == c;
          assert p[i + 1] == c;
        }
      }
    }
  }

  lemma WildIsComplex(p: string)
    ensures Wild(p) <==> ComplexWildcard(p)
  {
    hide CountOf;
    CountedIsThere(p, '?');
    CountedIsThere(p, '*');
    if HasSuffix(p, "*") {
      assert p[|p| - 1..] == "*" && p[|p| - 1] == '*';
    } else if '*' in p {
      assert p[|p| - 1..] == [p[|p| - 1]];
    }
  }

  /** Which URIs an operator's path designates, once trimmed. */
  ghost predicate Designates(ci: bool, p: string, uri: string) {
    if Wild(p) then Covers(ci, Glob(p), false, uri)
    else if HasSuffix(p, "*") then StartsWith(ci, TrimSuffix(p, "*"), uri)
    else if HasSuffix(p, "/") then StartsWith(ci, p, uri)
    else Same(ci, p, uri)
  }

  lemma PlainDesignates(ci: bool, p: string, uri: string)
    requires !ComplexWildcard(p) && !HasSuffix(p, "*") && !HasSuffix(p, "/")
    ensures Designates(ci, p, uri) <==> Same(ci, p, uri)
  {
    hide ComplexWildcard, Wild, Covers;
    WildIsComplex(p);
  }

  lemma LiteralsCover(ci: bool, text: string, anchored: bool, s: string)
    ensures Covers(ci, Literals(text), anchored, s)
            <==> if anchored then Same(ci, text, s) else StartsWith(ci, text, s)
  {
    if k :| 0 <= k <= |s| && (anchored ==> k == |s|) && TokensFit(ci, Literals(text), s[..k]) {
      LiteralsFit(ci, text, s[..k]);
      assert s[..|s|] == s;
    }
    if |text| <= |s| {
      LiteralsFit(ci, text, s[..|text|]);
      if anchored && Same(ci, text, s) { assert s[..|text|] == s; }
    }
  }

  /** A path's tokens and whether its pattern is anchored at the end. */
  function TokensOf(p: string): seq<Token> {
    if ComplexWildcard(p) then Glob(p)
    else if HasSuffix(p, "*") then (if TrimSuffix(p, "*") == "" then [Lit('/')] else Literals(TrimSuffix(p, "*")))
    else Literals(p)
  }

  predicate Anchored(p: string) {
    !ComplexWildcard(p) && !HasSuffix(p, "*") && !HasSuffix(p, "/")
  }

  lemma SlashIsShown()
    ensures "^/" == "^" + (Show([Lit('/')]) + "")
  {
    assert '/' !in META;
    assert [Lit('/')][1..] == [];
    assert Show([Lit('/')]) == QuoteChar('/') + "";
  }

  /** The emitted text, case by case. */
  ghost predicate Emits(text: string, ts: seq<Token>, anchored: bool) {
    text == "^" + (Show(ts) + TailText(anchored))
  }

  lemma EmitsGlob(p: string)
    ensures Emits(WildcardText(p), Glob(p), false)
  {
    WildcardTextIsGlob(p);
    assert Show(Glob(p)) + "" == Show(Glob(p));
  }

  lemma EmitsLiterals(text: string)
    ensures Emits("^" + QuoteMeta(text), Literals(text), false)
    ensures Emits("^" + QuoteMeta(text) + "$", Literals(text), true)
  {
    QuotedIsShown(text);
    assert Show(Literals(text)) + "" == Show(Literals(text));
    assert ("^" + Show(Literals(text))) + "$" == "^" + (Show(Literals(text)) + "$");
  }

  lemma GuardEmits(p: string)
    requires p != ""
    ensures Emits(GuardText(p), TokensOf(p), Anchored(p))
  {
    if ComplexWildcard(p) {
      EmitsGlob(p);
    } else if HasSuffix(p, "*") {
      EmitsLiterals(TrimSuffix(p, "*"));
      SlashIsShown();
    } else {
      EmitsLiterals(p);
    }
  }

  lemma DesignatedIsCovered(ci: bool, p: string, uri: string)
    requires uri != "" && uri[0] == '/'
    ensures Covers(ci, TokensOf(p), Anchored(p), uri) <==> Designates(ci, p, uri)
  {
    WildIsComplex(p);
    LiteralsCover(ci, TrimSuffix(p, "*"), false, uri);
    LiteralsCover(ci, p, Anchored(p), uri);
    RootCovers(ci, uri);
  }

  /** The pattern of a lone star asks only for the leading slash. */
  lemma RootCovers(ci: bool, uri: string)
    requires uri != "" && uri[0] == '/'
    ensures Covers(ci, [Lit('/')], false, uri) && StartsWith(ci, "", uri)
  {
    assert Literals("/") == [Lit('/')];
    LiteralsCover(ci, "/", false, uri);
  }

  /** Guard compilation preserves meaning: for every non-blank path and every newline-free URI that
      starts with '/', the emitted text is a well-formed pattern that matches exactly when the path
      designates the URI. */
  lemma GuardPreservesMeaning(ci: bool, path: string, uri: string)
    requires !Blank(path) && uri != "" && uri[0] == '/' && '\n' !in uri
    ensures Matches(ci, GuardPattern(path), uri) <==> Designates(ci, Trim(path), uri)
  {
    var p := GuardOfTrimmed(path);
    GuardEmits(p);
    EmittedMatches(ci, TokensOf(p), Anchored(p), uri);
    DesignatedIsCovered(ci, p, uri);
  }
}
