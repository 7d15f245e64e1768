/** Token lists: what quoted path text amounts to, between the text the compiler emits and the tree
    the regex engine parses. */
module Tokens {
  import opened Regex

  datatype Token = Lit(c: char) | AnyOne | AnyRun

  /** regexp.QuoteMeta, one character. */
  function QuoteChar(c: char): string {
    if IsMeta(c) then ['\\', c] else [c]
  }

  function ShowOne(t: Token): string {
    match t
    case Lit(c) => QuoteChar(c)
    case AnyOne => "."
    case AnyRun => ".*"
  }

  function Show(ts: seq<Token>): string {
    if ts == [] then "" else ShowOne(ts[0]) + Show(ts[1..])
  }

  function TreeOne(t: Token): Re {
    match t
    case Lit(c) => Char(One(c))
    case AnyOne => Char(NotNewline)
    case AnyRun => Repeat(NotNewline, 0)
  }

  function Tree(ts: seq<Token>, tail: Re): Re {
    if ts == [] then tail else Cat(TreeOne(ts[0]), Tree(ts[1..], tail))
  }

  /** The tokens fit the whole of s. */
  ghost predicate TokensFit(ci: bool, ts: seq<Token>, s: string) {
    if ts == [] then s == ""
    else
      match ts[0]
      case Lit(c) => s != "" && Fold(ci, s[0]) == Fold(ci, c) && TokensFit(ci, ts[1..], s[1..])
      case AnyOne => s != "" && s[0] != '\n' && TokensFit(ci, ts[1..], s[1..])
      case AnyRun => exists k :: 0 <= k <= |s| && '\n' !in s[..k] && TokensFit(ci, ts[1..], s[k..])
  }

  // ---- Parsing shown tokens -----------------------------------------------------------------

  /** Text that cannot be read as a quantifier of what precedes it. */
  predicate Detached(t: string) {
    t == "" || (t[0] != '*' && t[0] != '+' && t[0] != '?')
  }

  lemma ShowDetached(ts: seq<Token>, rest: string)
    requires Detached(rest)
    ensures Detached(Show(ts) + rest)
  {
    if ts != [] {
      assert (Show(ts) + rest)[0] == ShowOne(ts[0])[0];
    }
  }

  lemma AtomOfQuoted(c: char, rest: string)
    ensures ParseAtom(QuoteChar(c) + rest) == Parsed(Char(One(c)), rest)
  {
    var t := QuoteChar(c) + rest;
    if IsMeta(c) {
      assert t[0] == '\\' && t[1] == c && t[2..] == rest;
    } else {
      assert t[0] == c && t[1..] == rest;
      assert '[' in META && '(' in META && '\\' in META && '.' in META && '^' in META && '$' in META;
    }
  }

  lemma ItemOfToken(t: Token, rest: string)
    requires Detached(rest)
    ensures ShowOne(t) != "" && ParseItem(ShowOne(t) + rest) == Parsed(TreeOne(t), rest)
    ensures (ShowOne(t) + rest)[0] != '|' && (ShowOne(t) + rest)[0] != ')'
  {
    assert '|' in META && ')' in META;
    match t
    case Lit(c) =>
      AtomOfQuoted(c, rest);
    case AnyOne =>
      assert ("." + rest)[1..] == rest;
    case AnyRun =>
      assert (".*" + rest)[1..] == "*" + rest && ("*" + rest)[1..] == rest;
  }

  /** Shown tokens parse back to their tree, in front of anything that parses. */
  lemma {:induction false} ParseShown(ts: seq<Token>, rest: string)
    requires Detached(rest) && ParseCat(rest).Parsed?
    ensures ParseCat(Show(ts) + rest) == Parsed(Tree(ts, ParseCat(rest).re), ParseCat(rest).rest)
  {
    if ts == [] {
      assert Show(ts) + rest == rest;
    } else {
      hide ParseItem, ShowOne, TreeOne;
      ParseShown(ts[1..], rest);
      ShowDetached(ts[1..], rest);
      ItemOfToken(ts[0], Show(ts[1..]) + rest);
      assert Show(ts) + rest == ShowOne(ts[0]) + (Show(ts[1..]) + rest);
    }
  }

  lemma PlainCharParses(c: char, rest: string)
    requires !IsMeta(c) && Detached(rest) && ParseCat(rest).Parsed?
    ensures ParseCat([c] + rest) == Parsed(Cat(Char(One(c)), ParseCat(rest).re), ParseCat(rest).rest)
  {
    ParseShown([Lit(c)], rest);
    assert Show([Lit(c)]) == [c] + "" == [c];
    assert [Lit(c)][1..] == [];
  }

  // ---- Meaning of trees -----------------------------------------------------------------------

  lemma NoNewline(s: string, i: nat, k: nat)
    requires i <= k <= |s|
    ensures (forall x :: i <= x < k ==> s[x] != '\n') <==> '\n' !in s[i..k]
  {
    if '\n' in s[i..k] {
      var x :| 0 <= x < k - i && s[i..k][x] == '\n';
      assert s[i + x] == '\n';
    }
    if x :| i <= x < k && s[x] == '\n' { assert s[i..k][x - i] == '\n'; }
  }

  /** What one token takes. */
  predicate Takes(ci: bool, t: Token, head: string) {
    match t
    case Lit(c) => |head| == 1 && Fold(ci, head[0]) == Fold(ci, c)
    case AnyOne => |head| == 1 && head[0] != '\n'
    case AnyRun => '\n' !in head
  }

  lemma FirstTakes(ci: bool, ts: seq<Token>, s: string) returns (n: nat)
    requires ts != [] && TokensFit(ci, ts, s)
    ensures n <= |s| && Takes(ci, ts[0], s[..n]) && TokensFit(ci, ts[1..], s[n..])
  {
    if ts[0].AnyRun? {
      n :| n <= |s| && '\n' !in s[..n] && TokensFit(ci, ts[1..], s[n..]);
    } else {
      n := 1;
    }
  }

  lemma TakingFits(ci: bool, ts: seq<Token>, s: string, n: nat)
    requires ts != [] && n <= |s| && Takes(ci, ts[0], s[..n]) && TokensFit(ci, ts[1..], s[n..])
    ensures TokensFit(ci, ts, s)
  {
  }

  lemma TakesIsFits(ci: bool, t: Token, s: string, i: nat, m: nat)
    requires i <= m <= |s|
    ensures Takes(ci, t, s[i..m]) <==> Fits(ci, TreeOne(t), s, i, m)
  {
    if t.AnyRun? {
      NoNewline(s, i, m);
    } else if i < m {
      assert s[i..m][0] == s[i];
    }
  }

  lemma TokenThenRest(ci: bool, ts: seq<Token>, s: string, i: nat, m: nat, k: nat)
    requires ts != [] && i <= m <= k <= |s|
    requires Fits(ci, TreeOne(ts[0]), s, i, m) && TokensFit(ci, ts[1..], s[m..k])
    ensures TokensFit(ci, ts, s[i..k])
  {
    hide TokensFit, Takes, Fits, TreeOne;
    TakesIsFits(ci, ts[0], s, i, m);
    assert s[i..k][..m - i] == s[i..m] && s[i..k][m - i..] == s[m..k];
    TakingFits(ci, ts, s[i..k], m - i);
  }

  lemma FirstTokenFits(ci: bool, ts: seq<Token>, s: string, i: nat, k: nat) returns (m: nat)
    requires ts != [] && i <= k <= |s| && TokensFit(ci, ts, s[i..k])
    ensures i <= m <= k && Fits(ci, TreeOne(ts[0]), s, i, m) && TokensFit(ci, ts[1..], s[m..k])
  {
    hide TokensFit, Takes, Fits, TreeOne;
    var n := FirstTakes(ci, ts, s[i..k]);
    m := i + n;
    assert s[i..k][..n] == s[i..m] && s[i..k][n..] == s[m..k];
    TakesIsFits(ci, ts[0], s, i, m);
  }

  lemma {:induction false} TreeToTokens(ci: bool, ts: seq<Token>, tail: Re, s: string, i: nat, j: nat) returns (k: nat)
    requires i <= j <= |s| && Fits(ci, Tree(ts, tail), s, i, j)
    ensures i <= k <= j && TokensFit(ci, ts, s[i..k]) && Fits(ci, tail, s, k, j)
  {
    if ts == [] {
      k := i;
    } else {
      var m := CatSplits(ci, TreeOne(ts[0]), Tree(ts[1..], tail), s, i, j);
      k := TreeToTokens(ci, ts[1..], tail, s, m, j);
      TokenThenRest(ci, ts, s, i, m, k);
    }
  }

  lemma {:induction false} TokensToTree(ci: bool, ts: seq<Token>, tail: Re, s: string, i: nat, k: nat, j: nat)
    requires i <= k <= j <= |s| && TokensFit(ci, ts, s[i..k]) && Fits(ci, tail, s, k, j)
    ensures Fits(ci, Tree(ts, tail), s, i, j)
  {
    if ts == [] {
      assert i == k;
    } else {
      var m := FirstTokenFits(ci, ts, s, i, k);
      TokensToTree(ci, ts[1..], tail, s, m, k, j);
      CatJoins(ci, TreeOne(ts[0]), Tree(ts[1..], tail), s, i, m, j);
    }
  }

  // ---- Literal text ---------------------------------------------------------------------------

  function Literals(s: string): (ts: seq<Token>)
    ensures |ts| == |s|
    ensures forall i :: 0 <= i < |s| ==> ts[i] == Lit(s[i])
  {
    if s == "" then [] else [Lit(s[0])] + Literals(s[1..])
  }

  /** Equal up to the case folding in force. */
  predicate Same(ci: bool, a: string, b: string) {
    |a| == |b| && forall i :: 0 <= i < |a| ==> Fold(ci, a[i]) == Fold(ci, b[i])
  }

  lemma {:induction false} LiteralsFit(ci: bool, text: string, s: string)
    ensures TokensFit(ci, Literals(text), s) <==> Same(ci, text, s)
  {
    if text != "" {
      assert Literals(text)[1..] == Literals(text[1..]);
      if s != "" {
        LiteralsFit(ci, text[1..], s[1..]);
        assert s == [s[0]] + s[1..] && text == [text[0]] + text[1..];
        assert Same(ci, text, s) ==> Same(ci, text[1..], s[1..]) by {
          assert forall i :: 0 <= i < |s| - 1 ==> s[1..][i] == s[i + 1];
          assert forall i :: 0 <= i < |text| - 1 ==> text[1..][i] == text[i + 1];
        }
        if Fold(ci, s[0]) == Fold(ci, text[0]) && Same(ci, text[1..], s[1..]) {
          forall i | 0 <= i < |s| ensures Fold(ci, text[i]) == Fold(ci, s[i]) {
            if i > 0 { assert text[1..][i - 1] == text[i] && s[1..][i - 1] == s[i]; }
          }
        }
      }
    }
  }

  lemma {:induction false} TokensConcat(ci: bool, a: seq<Token>, b: seq<Token>, s: string)
    ensures TokensFit(ci, a + b, s) <==> exists k :: 0 <= k <= |s| && TokensFit(ci, a, s[..k]) && TokensFit(ci, b, s[k..])
  {
    if TokensFit(ci, a + b, s) { var _ := TokensSplit(ci, a, b, s); }
    if k :| 0 <= k <= |s| && TokensFit(ci, a, s[..k]) && TokensFit(ci, b, s[k..]) { TokensJoin(ci, a, b, s, k); }
  }

  lemma Slices(s: string, n: nat, k: nat)
    requires n <= k <= |s|
    ensures s[..k][..n] == s[..n] && s[n..][..k - n] == s[..k][n..] && s[n..][k - n..] == s[k..]
  {
  }

  lemma ConcatTail(a: seq<Token>, b: seq<Token>)
    requires a != []
    ensures (a + b)[1..] == a[1..] + b && (a + b)[0] == a[0]
  {
  }

  lemma {:induction false} TokensSplit(ci: bool, a: seq<Token>, b: seq<Token>, s: string) returns (k: nat)
    requires TokensFit(ci, a + b, s)
    ensures k <= |s| && TokensFit(ci, a, s[..k]) && TokensFit(ci, b, s[k..])
  {
    if a == [] {
      k := 0;
      assert a + b == b && s[0..] == s;
    } else {
      hide TokensFit, Takes;
      ConcatTail(a, b);
      var n := FirstTakes(ci, a + b, s);
      var m := TokensSplit(ci, a[1..], b, s[n..]);
      k := n + m;
      Slices(s, n, k);
      TakingFits(ci, a, s[..k], n);
    }
  }

  lemma {:induction false} TokensJoin(ci: bool, a: seq<Token>, b: seq<Token>, s: string, k: nat)
    requires k <= |s| && TokensFit(ci, a, s[..k]) && TokensFit(ci, b, s[k..])
    ensures TokensFit(ci, a + b, s)
  {
    if a == [] {
      assert a + b == b && s[k..] == s;
    } else {
      hide TokensFit, Takes;
      ConcatTail(a, b);
      var n := FirstTakes(ci, a, s[..k]);
      Slices(s, n, k);
      TokensJoin(ci, a[1..], b, s[n..], k - n);
      TakingFits(ci, a + b, s, n);
    }
  }
}
