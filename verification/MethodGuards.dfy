/** Exclusion rules guard "METHOD:uri": a method alternation, a colon, and the path's guard. */
module MethodGuards {
  import opened Basics
  import opened Text
  import opened Regex
  import opened Tokens
  import opened PathPatterns
  import opened GuardMeaning
  import opened Alternation

  /** strings.ToUpper, by unicode.ToUpper. */
  function Upper(upper: char -> char, s: string): (r: string)
    ensures |r| == |s|
    ensures forall i :: 0 <= i < |s| ==> r[i] == upper(s[i])
  {
    if s == "" then "" else [upper(s[0])] + Upper(upper, s[1..])
  }

  /** All the proofs use of it: no other letter turns into a colon. */
  ghost predicate MakesNoColon(upper: char -> char) {
    forall c :: upper(c) == ':' ==> c == ':'
  }

  predicate HasWildcardMethod(methods: seq<string>) {
    exists m <- methods :: Trim(m) == "*"
  }

  /** The rule's methods, trimmed and upper-cased, blanks dropped. */
  function Names(upper: char -> char, methods: seq<string>): seq<string> {
    if methods == [] then []
    else
      var name := Upper(upper, Trim(methods[0]));
      (if name == "" then [] else [name]) + Names(upper, methods[1..])
  }

  function QuoteAll(names: seq<string>): (parts: seq<string>)
    ensures |parts| == |names|
    ensures forall i :: 0 <= i < |names| ==> parts[i] == QuoteMeta(names[i])
  {
    if names == [] then [] else [QuoteMeta(names[0])] + QuoteAll(names[1..])
  }

  /** The methods a rule is for: every one, or those named. */
  datatype Scope = AnyMethod | Named(names: seq<string>)

  function ScopeOf(upper: char -> char, methods: seq<string>): Scope {
    if methods == [] || HasWildcardMethod(methods) then AnyMethod else Named(Names(upper, methods))
  }

  /** antibotExclusionMethodPattern */
  function MethodPattern(scope: Scope): string {
    match scope
    case AnyMethod => "[A-Z]+"
    case Named(names) => if names == [] then "" else GroupText(QuoteAll(names))
  }

  /** antibotExclusionMatchPattern; the empty pattern means no rule is emitted. */
  function MatchPattern(upper: char -> char, path: string, methods: seq<string>): string {
    Combine(GuardPattern(path), ScopeOf(upper, methods))
  }

  function Combine(pathPattern: string, scope: Scope): string {
    if pathPattern == "" || MethodPattern(scope) == "" then ""
    else "^" + MethodPattern(scope) + ":" + TrimPrefix(pathPattern, "^")
  }

  ghost predicate Admits(ci: bool, scope: Scope, verb: string) {
    match scope
    case AnyMethod => true
    case Named(names) => exists name <- names :: Same(ci, name, verb)
  }

  /** The rule names no method, or a star. */
  predicate ForEvery(methods: seq<string>) {
    methods == [] || exists m <- methods :: Trim(m) == "*"
  }

  /** The method a rule's entry stands for. */
  function Verb(upper: char -> char, m: string): string {
    Upper(upper, Trim(m))
  }

  /** The rule is for this method: for every one, or one of its entries stands for it. */
  ghost predicate IsFor(upper: char -> char, ci: bool, methods: seq<string>, verb: string) {
    ForEvery(methods) || exists m <- methods :: Trim(m) != "" && Same(ci, Verb(upper, m), verb)
  }

  /** Some method the rule can be for. */
  predicate Usable(methods: seq<string>) {
    ForEvery(methods) || exists m <- methods :: Trim(m) != ""
  }

  lemma FirstName(upper: char -> char, methods: seq<string>, name: string)
    requires methods != []
    ensures name in Names(upper, methods)
            <==> (Trim(methods[0]) != "" && name == Verb(upper, methods[0])) || name in Names(upper, methods[1..])
  {
    hide Trim;
    var first := Verb(upper, methods[0]);
    assert Names(upper, methods) == (if first == "" then [] else [first]) + Names(upper, methods[1..]);
  }

  lemma {:induction false} NamesAre(upper: char -> char, methods: seq<string>, name: string)
    ensures name in Names(upper, methods) <==> exists m <- methods :: Trim(m) != "" && name == Verb(upper, m)
  {
    if methods != [] {
      hide Trim, Verb, Names;
      FirstName(upper, methods, name);
      NamesAre(upper, methods[1..], name);
      assert forall m :: m in methods <==> m == methods[0] || m in methods[1..];
    }
  }

  lemma ScopeIsEvery(upper: char -> char, methods: seq<string>)
    ensures ScopeOf(upper, methods).AnyMethod? <==> ForEvery(methods)
    ensures Emitted(ScopeOf(upper, methods)) <==> Usable(methods)
  {
    hide Trim, Names, Verb;
    if !ForEvery(methods) {
      forall name ensures name in Names(upper, methods) <==> exists m <- methods :: Trim(m) != "" && name == Verb(upper, m) {
        NamesAre(upper, methods, name);
      }
      if m :| m in methods && Trim(m) != "" { assert Verb(upper, m) in Names(upper, methods); }
      if Names(upper, methods) != [] { assert Names(upper, methods)[0] in Names(upper, methods); }
    }
  }

  lemma ScopeAdmits(upper: char -> char, ci: bool, methods: seq<string>, verb: string)
    ensures Admits(ci, ScopeOf(upper, methods), verb) <==> IsFor(upper, ci, methods, verb)
  {
    hide Trim, Names, Verb, Same;
    ScopeIsEvery(upper, methods);
    if !ForEvery(methods) {
      forall name ensures name in Names(upper, methods) <==> exists m <- methods :: Trim(m) != "" && name == Verb(upper, m) {
        NamesAre(upper, methods, name);
      }
    }
  }

  predicate Lettered(ci: bool, verb: string) {
    verb != "" && forall c <- verb :: InSet(ci, UpperLetter, c)
  }

  /** The rule's method pattern finds this method: the one emitted for every method knows letters only. */
  ghost predicate Catches(ci: bool, scope: Scope, verb: string) {
    Admits(ci, scope, verb) && (scope.AnyMethod? ==> Lettered(ci, verb))
  }

  predicate Emitted(scope: Scope) {
    scope.Named? ==> scope.names != []
  }

  // ---- Parsing ------------------------------------------------------------------------------------

  function NameTrees(names: seq<string>): (res: seq<Re>)
    ensures |res| == |names|
    ensures forall i :: 0 <= i < |names| ==> res[i] == Tree(Literals(names[i]), Empty)
  {
    if names == [] then [] else [Tree(Literals(names[0]), Empty)] + NameTrees(names[1..])
  }

  function ScopeTree(scope: Scope): Re
    requires Emitted(scope)
  {
    match scope
    case AnyMethod => Repeat(UpperLetter, 1)
    case Named(names) => OrTree(NameTrees(names))
  }

  lemma ScopeParses(scope: Scope, rest: string)
    requires Emitted(scope) && Detached(rest)
    ensures MethodPattern(scope) != "" && (MethodPattern(scope) + rest)[0] != '|' && (MethodPattern(scope) + rest)[0] != ')'
    ensures ParseItem(MethodPattern(scope) + rest) == Parsed(ScopeTree(scope), rest)
  {
    match scope
    case AnyMethod =>
      var t := "[A-Z]+" + rest;
      assert "[A-Z]" <= t && t[5..] == "+" + rest && ("+" + rest)[1..] == rest;
      assert ParseAtom(t) == Parsed(Char(UpperLetter), "+" + rest);
    case Named(names) =>
      forall i | 0 <= i < |names| ensures PartParses(QuoteAll(names)[i], NameTrees(names)[i]) {
        QuotedIsShown(names[i]);
        TokensArePart(Literals(names[i]));
      }
      GroupParses(QuoteAll(names), NameTrees(names), rest);
  }

  function Whole(scope: Scope, ts: seq<Token>, anchored: bool): Re
    requires Emitted(scope)
  {
    Cat(Begin, Cat(ScopeTree(scope), Cat(Char(One(':')), Tree(ts, TailTree(anchored)))))
  }

  lemma WholeParses(scope: Scope, ts: seq<Token>, anchored: bool)
    requires Emitted(scope)
    ensures Parse("^" + (MethodPattern(scope) + (":" + (Show(ts) + TailText(anchored))))) == Some(Whole(scope, ts, anchored))
  {
    var body := Show(ts) + TailText(anchored);
    var colon := ":" + body;
    BodyParses(ts, anchored);
    assert ':' !in META;
    PlainCharParses(':', body);
    ScopeParses(scope, colon);
    var t := MethodPattern(scope) + colon;
    assert ParseCat(t) == Parsed(Cat(ScopeTree(scope), ParseCat(colon).re), "");
    assert Detached(t) by { DetachedScope(scope, colon); }
    CaretParses(t);
  }

  lemma DetachedScope(scope: Scope, rest: string)
    requires Emitted(scope)
    ensures Detached(MethodPattern(scope) + rest)
  {
    if scope.Named? { assert (GroupText(QuoteAll(scope.names)) + rest)[0] == '('; }
  }

  // ---- Meaning ---------------------------------------------------------------------------------------

  lemma ScopeFits(ci: bool, scope: Scope, s: string, k: nat)
    requires Emitted(scope) && k <= |s|
    ensures Fits(ci, ScopeTree(scope), s, 0, k) <==> Catches(ci, scope, s[..k])
  {
    match scope
    case AnyMethod =>
      assert forall x :: 0 <= x < k ==> s[..k][x] == s[x];
      assert (forall c <- s[..k] :: InSet(ci, UpperLetter, c)) <==> (forall x :: 0 <= x < k ==> InSet(ci, UpperLetter, s[x]));
    case Named(names) =>
      var trees := NameTrees(names);
      assert s[0..k] == s[..k];
      OrFits(ci, trees, s, 0, k);
      forall i | 0 <= i < |names| ensures Fits(ci, trees[i], s, 0, k) <==> Same(ci, names[i], s[..k]) {
        TreeFitsTokens(ci, Literals(names[i]), s, 0, k);
        LiteralsFit(ci, names[i], s[..k]);
      }
      if re :| re in trees && Fits(ci, re, s, 0, k) {
        var i :| 0 <= i < |trees| && trees[i] == re;
        assert names[i] in names;
      }
      if name :| name in names && Same(ci, name, s[..k]) {
        var i :| 0 <= i < |names| && names[i] == name;
        assert trees[i] in trees;
      }
  }

  /** The subject splits at a colon into an admitted method and a designated URI. */
  ghost predicate SplitsAt(ci: bool, scope: Scope, ts: seq<Token>, anchored: bool, s: string, k: nat) {
    && k < |s| && s[k] == ':'
    && Catches(ci, scope, s[..k])
    && Covers(ci, ts, anchored, s[k + 1..])
  }

  lemma FoldColon(ci: bool, c: char)
    ensures Fold(ci, c) == Fold(ci, ':') <==> c == ':'
  {
  }

  lemma BodyCovers(ci: bool, ts: seq<Token>, anchored: bool, s: string, i: nat, j: nat)
    requires i <= j <= |s| && '\n' !in s && Fits(ci, Tree(ts, TailTree(anchored)), s, i, j)
    ensures Covers(ci, ts, anchored, s[i..])
  {
    var k := TreeToTokens(ci, ts, TailTree(anchored), s, i, j);
    TailFits(ci, anchored, s, k, j);
    assert s[i..][..k - i] == s[i..k];
  }

  lemma CoveredBody(ci: bool, ts: seq<Token>, anchored: bool, s: string, i: nat) returns (j: nat)
    requires i <= |s| && '\n' !in s && Covers(ci, ts, anchored, s[i..])
    ensures i <= j <= |s| && Fits(ci, Tree(ts, TailTree(anchored)), s, i, j)
  {
    var n :| 0 <= n <= |s[i..]| && (anchored ==> n == |s[i..]|) && TokensFit(ci, ts, s[i..][..n]);
    j := i + n;
    assert s[i..][..n] == s[i..j];
    TailFits(ci, anchored, s, j, j);
    TokensToTree(ci, ts, TailTree(anchored), s, i, j, j);
  }

  lemma FitSplits(ci: bool, scope: Scope, ts: seq<Token>, anchored: bool, s: string, i: nat, j: nat) returns (k: nat)
    requires Emitted(scope) && '\n' !in s && i <= j <= |s| && Fits(ci, Whole(scope, ts, anchored), s, i, j)
    ensures SplitsAt(ci, scope, ts, anchored, s, k)
  {
    var body := Tree(ts, TailTree(anchored));
    var colon := Cat(Char(One(':')), body);
    var a := CatSplits(ci, Begin, Cat(ScopeTree(scope), colon), s, i, j);
    k := CatSplits(ci, ScopeTree(scope), colon, s, a, j);
    var b := CatSplits(ci, Char(One(':')), body, s, k, j);
    ScopeFits(ci, scope, s, k);
    FoldColon(ci, s[k]);
    BodyCovers(ci, ts, anchored, s, b, j);
  }

  lemma SplitFits(ci: bool, scope: Scope, ts: seq<Token>, anchored: bool, s: string, k: nat) returns (j: nat)
    requires Emitted(scope) && '\n' !in s && SplitsAt(ci, scope, ts, anchored, s, k)
    ensures j <= |s| && Fits(ci, Whole(scope, ts, anchored), s, 0, j)
  {
    var body := Tree(ts, TailTree(anchored));
    var colon := Cat(Char(One(':')), body);
    ScopeFits(ci, scope, s, k);
    j := CoveredBody(ci, ts, anchored, s, k + 1);
    CatJoins(ci, Char(One(':')), body, s, k, k + 1, j);
    CatJoins(ci, ScopeTree(scope), colon, s, 0, k, j);
    CatJoins(ci, Begin, Cat(ScopeTree(scope), colon), s, 0, 0, j);
  }

  /** What the whole pattern matches, whatever the rule's methods contain. */
  lemma WholeMatches(ci: bool, scope: Scope, ts: seq<Token>, anchored: bool, s: string)
    requires Emitted(scope) && '\n' !in s
    ensures Matches(ci, "^" + (MethodPattern(scope) + (":" + (Show(ts) + TailText(anchored)))), s)
            <==> exists k: nat :: SplitsAt(ci, scope, ts, anchored, s, k)
  {
    var pattern := "^" + (MethodPattern(scope) + (":" + (Show(ts) + TailText(anchored))));
    WholeParses(scope, ts, anchored);
    var re := Whole(scope, ts, anchored);
    assert Parse(pattern) == Some(re);
    if i: nat, j: nat :| i <= j <= |s| && Fits(ci, re, s, i, j) {
      var _ := FitSplits(ci, scope, ts, anchored, s, i, j);
    }
    if k: nat :| SplitsAt(ci, scope, ts, anchored, s, k) {
      var _ := SplitFits(ci, scope, ts, anchored, s, k);
    }
  }

  /** The name's first colon stands right before a slash: what follows it can pass for a URI. */
  predicate LeakyAt(name: string, i: nat) {
    && i + 1 < |name|
    && name[i] == ':' && name[i + 1] == '/'
    && ':' !in name[..i]
  }

  /** No method a rule names can be mistaken for a method and the beginning of a URI. */
  ghost predicate Tight(scope: Scope) {
    scope.Named? ==> forall name <- scope.names :: forall i :: !LeakyAt(name, i)
  }

  /** The same of the rule as it is written. */
  ghost predicate TightRule(upper: char -> char, methods: seq<string>) {
    ForEvery(methods) || forall m, i :: m in methods ==> !LeakyAt(Verb(upper, m), i)
  }

  lemma TightRuleIsTight(upper: char -> char, methods: seq<string>)
    requires TightRule(upper, methods)
    ensures Tight(ScopeOf(upper, methods))
  {
    hide Trim, Names, Verb, LeakyAt;
    ScopeIsEvery(upper, methods);
    if !ForEvery(methods) {
      forall name, i | name in Names(upper, methods) ensures !LeakyAt(name, i) {
        NamesAre(upper, methods, name);
        var m :| m in methods && Trim(m) != "" && name == Verb(upper, m);
      }
    }
  }

  lemma LetterIsNoColon(ci: bool, verb: string)
    requires Catches(ci, AnyMethod, verb)
    ensures ':' !in verb
  {
  }

  /** A method that swallows the separator is one that leaks. */
  lemma SwallowingLeaks(ci: bool, name: string, head: string, n: nat)
    requires Same(ci, name, head) && n + 1 < |head| && head[n] == ':' && head[n + 1] == '/' && ':' !in head[..n]
    ensures LeakyAt(name, n)
  {
    FoldColon(ci, name[n]);
    assert Fold(ci, name[n]) == Fold(ci, head[n]) && Fold(ci, name[n + 1]) == Fold(ci, head[n + 1]);
    forall x | 0 <= x < n ensures name[..n][x] != ':' {
      assert head[..n][x] in head[..n] && Fold(ci, name[x]) == Fold(ci, head[x]);
      FoldColon(ci, head[x]);
    }
  }

  /** On the subject "VERB:uri" the pattern's split can only be at the separator. */
  lemma SplitIsAtSeparator(ci: bool, scope: Scope, ts: seq<Token>, anchored: bool, verb: string, uri: string)
    requires Tight(scope) && ':' !in verb && uri != "" && uri[0] == '/'
    ensures (exists k: nat :: SplitsAt(ci, scope, ts, anchored, verb + ":" + uri, k))
            <==> Catches(ci, scope, verb) && Covers(ci, ts, anchored, uri)
  {
    var s, n := verb + ":" + uri, |verb|;
    assert s[n] == ':' && s[..n] == verb && s[n + 1..] == uri && s[n + 1] == '/';
    assert forall x :: 0 <= x < n ==> s[x] == verb[x] && verb[x] in verb;
    if k: nat :| SplitsAt(ci, scope, ts, anchored, s, k) { SplitNotLater(ci, scope, ts, anchored, s, n, k); }
    if Catches(ci, scope, verb) && Covers(ci, ts, anchored, uri) { assert SplitsAt(ci, scope, ts, anchored, s, n); }
  }

  lemma SplitNotLater(ci: bool, scope: Scope, ts: seq<Token>, anchored: bool, s: string, n: nat, k: nat)
    requires Tight(scope) && SplitsAt(ci, scope, ts, anchored, s, k)
    requires n + 1 < |s| && s[n] == ':' && s[n + 1] == '/' && ':' !in s[..n]
    ensures k == n
  {
    var head := s[..k];
    assert forall x :: 0 <= x < n ==> s[..n][x] == s[x] && s[..n][x] != ':';
    if k > n {
      assert k != n + 1;
      assert head[..n] == s[..n] && head[n] == ':' && head[n] in head;
      match scope
      case AnyMethod => LetterIsNoColon(ci, head);
      case Named(names) =>
        var name :| name in names && Same(ci, name, head);
        SwallowingLeaks(ci, name, head, n);
    }
  }

  lemma MatchText(scope: Scope, ts: seq<Token>, anchored: bool, g: string)
    requires Emitted(scope) && Emits(g, ts, anchored)
    ensures Combine(g, scope) == "^" + (MethodPattern(scope) + (":" + (Show(ts) + TailText(anchored))))
  {
    hide MethodPattern, ScopeTree, ParseItem, Show, TailText;
    var body := Show(ts) + TailText(anchored);
    ScopeParses(scope, "");
    assert g[1..] == body && "^" <= g;
    assert "^" + MethodPattern(scope) + ":" + body == "^" + (MethodPattern(scope) + (":" + body));
  }

  /** Exclusion compilation preserves meaning: the pattern matches "VERB:uri" exactly when the rule
      admits the verb and its path designates the URI; a rule for every method does so for those of
      letters only. */
  lemma ExclusionPreservesMeaning(upper: char -> char, ci: bool, path: string, methods: seq<string>, verb: string, uri: string)
    requires !Blank(path) && Usable(methods) && TightRule(upper, methods)
    requires uri != "" && uri[0] == '/' && '\n' !in uri && ':' !in verb && '\n' !in verb
    ensures Matches(ci, MatchPattern(upper, path, methods), verb + ":" + uri)
            <==> && IsFor(upper, ci, methods, verb) && Designates(ci, Trim(path), uri)
                 && (ForEvery(methods) ==> Lettered(ci, verb))
  {
    var p := GuardOfTrimmed(path);
    var scope := ScopeOf(upper, methods);
    hide Trim, Matches, Designates, Lettered, Combine, GuardText, Tight;
    ScopeIsEvery(upper, methods);
    ScopeAdmits(upper, ci, methods, verb);
    TightRuleIsTight(upper, methods);
    CombinedPreservesMeaning(ci, p, scope, verb, uri);
  }

  lemma CombinedPreservesMeaning(ci: bool, p: string, scope: Scope, verb: string, uri: string)
    requires p != "" && Emitted(scope) && Tight(scope)
    requires uri != "" && uri[0] == '/' && '\n' !in uri && ':' !in verb && '\n' !in verb
    ensures Matches(ci, Combine(GuardText(p), scope), verb + ":" + uri)
            <==> Catches(ci, scope, verb) && Designates(ci, p, uri)
  {
    GuardEmits(p);
    MatchText(scope, TokensOf(p), Anchored(p), GuardText(p));
    WholeMatches(ci, scope, TokensOf(p), Anchored(p), verb + ":" + uri);
    SplitIsAtSeparator(ci, scope, TokensOf(p), Anchored(p), verb, uri);
    DesignatedIsCovered(ci, p, uri);
  }

  lemma CombineEmpty(g: string, scope: Scope)
    ensures Combine(g, scope) != "" <==> g != "" && Emitted(scope)
  {
    if Emitted(scope) { ScopeParses(scope, ""); }
  }

  /** A rule is emitted exactly when its path is not blank and it has a usable method. */
  lemma EmittedWhen(upper: char -> char, path: string, methods: seq<string>)
    ensures MatchPattern(upper, path, methods) != "" <==> !Blank(path) && Usable(methods)
  {
    ScopeIsEvery(upper, methods);
    var g, scope := GuardPattern(path), ScopeOf(upper, methods);
    assert g != "" <==> !Blank(path) by {
      if !Blank(path) {
        var p := GuardOfTrimmed(path);
        GuardEmits(p);
      }
    }
    CombineEmpty(g, scope);
  }

  /** The condition is exact: a rule whose methods name a leaky one, for any path without wildcards, matches
      a request its path does not designate. */
  lemma ColonInMethodLeaks(upper: char -> char, ci: bool, path: string, methods: seq<string>, m: string, i: nat)
    returns (verb: string, uri: string)
    requires !ForEvery(methods) && m in methods && LeakyAt(Verb(upper, m), i) && '\n' !in Verb(upper, m)
    requires path != "" && path[0] == '/' && Trimmed(path) && '\n' !in path
    requires !Wild(path) && !HasSuffix(path, "*") && !HasSuffix(path, "/")
    ensures ':' !in verb && uri != "" && uri[0] == '/' && '\n' !in verb + uri
    ensures Matches(ci, MatchPattern(upper, path, methods), verb + ":" + uri) && !Designates(ci, path, uri)
  {
    var name := Verb(upper, m);
    WildIsComplex(path);
    ScopeIsEvery(upper, methods);
    NamesAre(upper, methods, name);
    verb, uri := name[..i], name[i + 1..] + ":" + path;
    hide Verb, ScopeOf, Names, ForEvery, Matches, MatchPattern, ComplexWildcard, Wild, Designates, Combine, GuardText, Trim;
    LeakShape(name, i, path, verb, uri);
    PlainDesignates(ci, path, uri);
    PlainGuard(upper, path, methods);
    LeakMatches(ci, path, ScopeOf(upper, methods), name);
  }

  lemma LeakShape(name: string, i: nat, path: string, verb: string, uri: string)
    requires LeakyAt(name, i) && '\n' !in name && '\n' !in path
    requires verb == name[..i] && uri == name[i + 1..] + ":" + path
    ensures ':' !in verb && uri != "" && uri[0] == '/' && '\n' !in verb + uri && |uri| > |path|
    ensures verb + ":" + uri == name + ":" + path
  {
    assert name == name[..i] + ":" + name[i + 1..];
    assert forall c <- name[..i] + name[i + 1..] :: c in name;
  }

  lemma PlainGuard(upper: char -> char, path: string, methods: seq<string>)
    requires path != "" && Trimmed(path)
    ensures MatchPattern(upper, path, methods) == Combine(GuardText(path), ScopeOf(upper, methods))
  {
    TrimFixes(path);
    var p := GuardOfTrimmed(path);
  }

  lemma LeakMatches(ci: bool, p: string, scope: Scope, name: string)
    requires scope.Named? && name in scope.names && '\n' !in name
    requires p != "" && p[0] == '/' && '\n' !in p
    requires !ComplexWildcard(p) && !HasSuffix(p, "*") && !HasSuffix(p, "/")
    ensures Matches(ci, Combine(GuardText(p), scope), name + ":" + p)
  {
    hide Matches, Designates, GuardText, Covers, Combine, Show, TailText, MethodPattern;
    var s, n := name + ":" + p, |name|;
    PlainDesignates(ci, p, p);
    GuardEmits(p);
    MatchText(scope, TokensOf(p), Anchored(p), GuardText(p));
    WholeMatches(ci, scope, TokensOf(p), Anchored(p), s);
    DesignatedIsCovered(ci, p, p);
    assert s[..n] == name && s[n] == ':' && s[n + 1..] == p && Same(ci, name, name);
    assert SplitsAt(ci, scope, TokensOf(p), Anchored(p), s, n);
  }

  // ---- Saved rules -----------------------------------------------------------------------------------

  const ALLOWED_METHODS: seq<string> := ["GET", "POST", "HEAD", "OPTIONS", "PUT", "DELETE", "PATCH"]

  /** The exclusion rules the control plane lets a profile be saved with. */
  predicate Saveable(path: string, methods: seq<string>) {
    && HasPrefix(path, "/")
    && methods != []
    && forall m <- methods :: m in ALLOWED_METHODS || (m == "*" && |methods| == 1)
  }

  lemma AllowedMethodsArePlain(m: string)
    requires m in ALLOWED_METHODS
    ensures m != "" && Trimmed(m) && ':' !in m
  {
  }

  lemma VerbHasNoColon(upper: char -> char, m: string)
    requires MakesNoColon(upper) && m in ALLOWED_METHODS
    ensures Trim(m) != "" && ':' !in Verb(upper, m)
  {
    AllowedMethodsArePlain(m);
    TrimFixes(m);
    forall i | 0 <= i < |m| ensures upper(m[i]) != ':' { assert m[i] in m; }
  }

  lemma SaveableRule(upper: char -> char, path: string, methods: seq<string>)
    requires MakesNoColon(upper) && Saveable(path, methods)
    ensures Usable(methods) && TightRule(upper, methods)
  {
    TrimFixes("*");
    hide Trim, Verb;
    if forall m <- methods :: m in ALLOWED_METHODS {
      forall m, i | m in methods ensures !LeakyAt(Verb(upper, m), i) { VerbHasNoColon(upper, m); }
      VerbHasNoColon(upper, methods[0]);
      assert methods[0] in methods;
    } else {
      assert methods[0] in methods && methods[0] == "*";
    }
  }

  lemma {:induction false} StaysUnblank(s: string)
    requires s != "" && !IsSpace(s[0])
    ensures TrimRight(s) != ""
  {
    if IsSpace(s[|s| - 1]) { StaysUnblank(s[..|s| - 1]); }
  }

  lemma RootedIsNotBlank(path: string)
    requires HasPrefix(path, "/")
    ensures !Blank(path)
  {
    assert path[0] == '/';
    StaysUnblank(path);
  }

  /** Every rule that can be saved means what it says, but for methods other than of letters under "*": its
      methods are taken from a list without colons. */
  lemma SavedRulePreservesMeaning(upper: char -> char, ci: bool, path: string, methods: seq<string>, verb: string,
                                  uri: string)
    requires MakesNoColon(upper) && Saveable(path, methods)
    requires uri != "" && uri[0] == '/' && '\n' !in uri && ':' !in verb && '\n' !in verb
    ensures Matches(ci, MatchPattern(upper, path, methods), verb + ":" + uri)
            <==> && IsFor(upper, ci, methods, verb) && Designates(ci, Trim(path), uri)
                 && (ForEvery(methods) ==> Lettered(ci, verb))
  {
    RootedIsNotBlank(path);
    SaveableRule(upper, path, methods);
    ExclusionPreservesMeaning(upper, ci, path, methods, verb, uri);
  }

  /** And such methods exist: a rule for every method misses M-SEARCH, whatever its path. */
  lemma WildcardMissesMethod(upper: char -> char, ci: bool, path: string, uri: string)
    requires MakesNoColon(upper) && Saveable(path, ["*"]) && uri != "" && uri[0] == '/' && '\n' !in uri
    ensures IsFor(upper, ci, ["*"], "M-SEARCH")
    ensures !Matches(ci, MatchPattern(upper, path, ["*"]), "M-SEARCH" + ":" + uri)
  {
    hide Matches, MatchPattern, Designates, Saveable, Lettered, Trim;
    StarIsEvery();
    SearchIsNotLettered(ci, "M-SEARCH");
    SavedRulePreservesMeaning(upper, ci, path, ["*"], "M-SEARCH", uri);
  }

  lemma SearchIsNotLettered(ci: bool, verb: string)
    requires verb == "M-SEARCH"
    ensures !Lettered(ci, verb) && ':' !in verb && '\n' !in verb
  {
    assert verb[1] == '-' && verb[1] in verb && !InSet(ci, UpperLetter, '-');
  }

  lemma StarIsEvery()
    ensures ForEvery(["*"])
  {
    TrimFixes("*");
    assert "*" in ["*"];
  }
}
