/** The path-pattern compiler: operator paths with '*', '?' and a trailing '/' become regex text. */
module PathPatterns {
  import opened Text
  import opened Regex
  import opened Tokens

  // ---- The text the compiler builds ------------------------------------------------------------

  /** regexp.QuoteMeta */
  function QuoteMeta(s: string): string {
    if s == "" then "" else QuoteChar(s[0]) + QuoteMeta(s[1..])
  }

  /** strings.ReplaceAll(s, [a, b], to): leftmost, not overlapping. */
  function ReplacePair(s: string, a: char, b: char, to: string): string {
    if s == "" then ""
    else if |s| > 1 && s[0] == a && s[1] == b then to + ReplacePair(s[2..], a, b, to)
    else [s[0]] + ReplacePair(s[1..], a, b, to)
  }

  function CountOf(s: string, c: char): nat {
    if s == "" then 0 else (if s[0] == c then 1 else 0) + CountOf(s[1..], c)
  }

  /** Anything but a single trailing star, on a trimmed path. */
  predicate ComplexWildcard(p: string) {
    && p != ""
    && (CountOf(p, '?') > 0 || (CountOf(p, '*') > 0 && !(CountOf(p, '*') == 1 && HasSuffix(p, "*"))))
  }

  predicate HasComplexWildcard(path: string) {
    ComplexWildcard(Trim(path))
  }

  function WildcardText(p: string): string {
    "^" + ReplacePair(ReplacePair(QuoteMeta(p), '\\', '*', ".*"), '\\', '?', ".")
  }

  function WildcardPathToRegex(path: string): string {
    WildcardText(Trim(path))
  }

  /** antibotRuleGuardPattern; the helpers it calls trim the trimmed path again. */
  function GuardPattern(path: string): string {
    var p := Trim(path);
    if p == "" then ""
    else if HasComplexWildcard(p) then WildcardPathToRegex(p)
    else SimpleGuardText(p)
  }

  /** Paths without wildcards, or with one trailing star. */
  function SimpleGuardText(p: string): string {
    if HasSuffix(p, "*") then
      var base := TrimSuffix(p, "*");
      if base == "" then "^/" else "^" + QuoteMeta(base)
    else if HasSuffix(p, "/") then "^" + QuoteMeta(p)
    else "^" + QuoteMeta(p) + "$"
  }

  function GuardText(p: string): string {
    if ComplexWildcard(p) then WildcardText(p) else SimpleGuardText(p)
  }

  lemma GuardOfTrimmed(path: string) returns (p: string)
    requires !Blank(path)
    ensures p == Trim(path) && p != "" && GuardPattern(path) == GuardText(p)
  {
    p := Trim(path);
    TrimIsTrimmed(path);
    TrimFixes(p);
    GuardOfFixed(p);
  }

  lemma GuardOfFixed(p: string)
    requires Trim(p) == p && p != ""
    ensures GuardText(p) == if HasComplexWildcard(p) then WildcardPathToRegex(p) else SimpleGuardText(p)
  {
  }

  // ---- Quoted and replaced text is shown tokens ---------------------------------------------------

  lemma {:induction false} QuotedIsShown(s: string)
    ensures QuoteMeta(s) == Show(Literals(s))
  {
    if s != "" {
      QuotedIsShown(s[1..]);
      assert Literals(s)[1..] == Literals(s[1..]);
    }
  }

  /** The glob a path with wildcards stands for. */
  function Glob(path: string): (ts: seq<Token>)
    ensures |ts| == |path|
  {
    if path == "" then []
    else [if path[0] == '*' then AnyRun else if path[0] == '?' then AnyOne else Lit(path[0])] + Glob(path[1..])
  }

  /** Stars already replaced, question marks still quoted. */
  function HalfShown(path: string): string {
    if path == "" then ""
    else (if path[0] == '*' then ".*" else QuoteChar(path[0])) + HalfShown(path[1..])
  }

  lemma ReplaceSkips(s: string, a: char, b: char, to: string)
    requires s != "" && !(|s| > 1 && s[0] == a && s[1] == b)
    ensures ReplacePair(s, a, b, to) == [s[0]] + ReplacePair(s[1..], a, b, to)
  {
  }

  /** A quoted or plain character other than the replaced one passes through unchanged. */
  lemma ReplaceKeepsChar(c: char, rest: string, b: char, to: string)
    requires c != b && IsMeta(b) && b != '\\' && (rest != "" ==> rest[0] != b)
    ensures ReplacePair(QuoteChar(c) + rest, '\\', b, to) == QuoteChar(c) + ReplacePair(rest, '\\', b, to)
  {
    var t := QuoteChar(c) + rest;
    if IsMeta(c) {
      assert t[0] == '\\' && t[1] == c;
      ReplaceSkips(t, '\\', b, to);
      assert t[1..] == [c] + rest;
      ReplaceSkips(t[1..], '\\', b, to);
      assert t[1..][1..] == rest;
      assert ['\\'] + ([c] + ReplacePair(rest, '\\', b, to)) == QuoteChar(c) + ReplacePair(rest, '\\', b, to);
    } else {
      assert t[0] == c && '\\' in META;
      ReplaceSkips(t, '\\', b, to);
      assert t[1..] == rest;
    }
  }

  lemma {:induction false} ReplaceStars(path: string)
    ensures ReplacePair(QuoteMeta(path), '\\', '*', ".*") == HalfShown(path)
  {
    assert '*' in META;
    if path != "" {
      var c, rest := path[0], QuoteMeta(path[1..]);
      ReplaceStars(path[1..]);
      if c == '*' {
        assert (QuoteChar(c) + rest)[2..] == rest;
      } else {
        if rest != "" { assert rest[0] == QuoteChar(path[1..][0])[0] != '*'; }
        ReplaceKeepsChar(c, rest, '*', ".*");
      }
    }
  }

  lemma ReplaceKeepsRun(rest: string)
    ensures ReplacePair(".*" + rest, '\\', '?', ".") == ".*" + ReplacePair(rest, '\\', '?', ".")
  {
    var t, u := ".*" + rest, "*" + rest;
    assert t[0] == '.' && t[1..] == u;
    ReplaceSkips(t, '\\', '?', ".");
    assert u[0] == '*' && u[1..] == rest;
    ReplaceSkips(u, '\\', '?', ".");
    assert ['.'] + (['*'] + ReplacePair(rest, '\\', '?', ".")) == ".*" + ReplacePair(rest, '\\', '?', ".");
  }

  lemma {:induction false} ReplaceQuestionMarks(path: string)
    ensures ReplacePair(HalfShown(path), '\\', '?', ".") == Show(Glob(path))
  {
    assert '?' in META;
    if path != "" {
      var c, rest := path[0], HalfShown(path[1..]);
      ReplaceQuestionMarks(path[1..]);
      assert Glob(path)[1..] == Glob(path[1..]);
      if rest != "" {
        var d := path[1..][0];
        assert rest[0] == (if d == '*' then '.' else QuoteChar(d)[0]) != '?';
      }
      if c == '?' {
        assert (QuoteChar(c) + rest)[2..] == rest;
      } else if c == '*' {
        ReplaceKeepsRun(rest);
      } else {
        ReplaceKeepsChar(c, rest, '?', ".");
      }
    }
  }

  /** Escape-then-substitute is the glob: no path text can be mistaken for a wildcard or the other way. */
  lemma WildcardTextIsGlob(path: string)
    ensures WildcardText(path) == "^" + Show(Glob(path))
  {
    ReplaceStars(path);
    ReplaceQuestionMarks(path);
  }
}
