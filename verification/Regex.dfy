/** The fragment of PCRE that the compiler's emitted patterns stay in: a parser from pattern text to
    syntax trees, and what a tree matches. A pattern searches: it matches a subject when some part of
    the subject fits. */
module Regex {
  import opened Basics

  datatype CharSet = One(c: char) | NotNewline | UpperLetter

  datatype Re =
    | Empty
    | Char(cs: CharSet)
    | Repeat(cs: CharSet, least: nat)
    | Begin
    | End
    | Optional(body: Re)
    | Cat(left: Re, right: Re)
    | Or(left: Re, right: Re)

  // ---- Parsing ----------------------------------------------------------------------------

  datatype Parsed = Parsed(re: Re, rest: string) | Malformed

  const META := "\\.+*?()|[]{}^$"

  predicate IsMeta(c: char) {
    c in META
  }

  /** Alternatives up to a closing parenthesis or the end. */
  function ParseOr(t: string): (p: Parsed)
    ensures p.Parsed? ==> |p.rest| <= |t|
    decreases |t|, 3
  {
    var p := ParseCat(t);
    if p.Malformed? then Malformed
    else if p.rest != "" && p.rest[0] == '|' then
      var q := ParseOr(p.rest[1..]);
      if q.Malformed? then Malformed else Parsed(Or(p.re, q.re), q.rest)
    else p
  }

  function ParseCat(t: string): (p: Parsed)
    ensures p.Parsed? ==> |p.rest| <= |t|
    decreases |t|, 2
  {
    if t == "" || t[0] == '|' || t[0] == ')' then Parsed(Empty, t)
    else
      var a := ParseItem(t);
      if a.Malformed? then Malformed
      else
        var q := ParseCat(a.rest);
        if q.Malformed? then Malformed else Parsed(Cat(a.re, q.re), q.rest)
  }

  /** One atom and its quantifier. */
  function ParseItem(t: string): (p: Parsed)
    requires t != ""
    ensures p.Parsed? ==> |p.rest| < |t|
    decreases |t|, 1
  {
    var a := ParseAtom(t);
    if a.Malformed? then Malformed else Quantified(a.re, a.rest)
  }

  function Quantified(re: Re, rest: string): (p: Parsed)
    ensures p.Parsed? ==> |p.rest| <= |rest|
  {
    if rest == "" then Parsed(re, rest)
    else if rest[0] == '*' then (if re.Char? then Parsed(Repeat(re.cs, 0), rest[1..]) else Malformed)
    else if rest[0] == '+' then (if re.Char? then Parsed(Repeat(re.cs, 1), rest[1..]) else Malformed)
    else if rest[0] == '?' then Parsed(Optional(re), rest[1..])
    else Parsed(re, rest)
  }

  function ParseAtom(t: string): (p: Parsed)
    requires t != ""
    ensures p.Parsed? ==> |p.rest| < |t|
    decreases |t|, 0
  {
    if t[0] == '\\' then (if |t| > 1 && IsMeta(t[1]) then Parsed(Char(One(t[1])), t[2..]) else Malformed)
    else if t[0] == '.' then Parsed(Char(NotNewline), t[1..])
    else if t[0] == '^' then Parsed(Begin, t[1..])
    else if t[0] == '$' then Parsed(End, t[1..])
    else if "[A-Z]" <= t then Parsed(Char(UpperLetter), t[5..])
    else if "(?:" <= t then
      var body := ParseOr(t[3..]);
      if body.Parsed? && body.rest != "" && body.rest[0] == ')' then Parsed(body.re, body.rest[1..]) else Malformed
    else if IsMeta(t[0]) then Malformed
    else Parsed(Char(One(t[0])), t[1..])
  }

  /** A whole pattern: everything must be consumed. */
  function Parse(pattern: string): Option<Re> {
    var p := ParseOr(pattern);
    if p.Parsed? && p.rest == "" then Some(p.re) else None
  }

  // ---- Matching ------------------------------------------------------------------------------

  /** The case folding of nginx's ~* operator when `ci`, of ~ otherwise. */
  function Fold(ci: bool, c: char): char {
    if ci && 'A' <= c <= 'Z' then ((c as int) + 32) as char else c
  }

  predicate InSet(ci: bool, cs: CharSet, c: char) {
    match cs
    case One(d) => Fold(ci, c) == Fold(ci, d)
    case NotNewline => c != '\n'
    case UpperLetter => 'A' <= c <= 'Z' || (ci && 'a' <= c <= 'z')
  }

  /** The tree fits s[i..j]. */
  ghost predicate Fits(ci: bool, re: Re, s: string, i: nat, j: nat)
    requires i <= j <= |s|
  {
    match re
    case Empty => i == j
    case Char(cs) => j == i + 1 && InSet(ci, cs, s[i])
    case Repeat(cs, least) => j - i >= least && forall k :: i <= k < j ==> InSet(ci, cs, s[k])
    case Begin => i == j == 0
    case End => i == j && (i == |s| || (i == |s| - 1 && s[i] == '\n'))
    case Optional(body) => i == j || Fits(ci, body, s, i, j)
    case Cat(l, r) => exists k :: i <= k <= j && Fits(ci, l, s, i, k) && Fits(ci, r, s, k, j)
    case Or(l, r) => Fits(ci, l, s, i, j) || Fits(ci, r, s, i, j)
  }

  /** The pattern is well formed and matches somewhere in the subject. */
  ghost predicate Matches(ci: bool, pattern: string, s: string) {
    && Parse(pattern).Some?
    && exists i: nat, j: nat :: i <= j <= |s| && Fits(ci, Parse(pattern).value, s, i, j)
  }

  lemma CatSplits(ci: bool, l: Re, r: Re, s: string, i: nat, j: nat) returns (k: nat)
    requires i <= j <= |s| && Fits(ci, Cat(l, r), s, i, j)
    ensures i <= k <= j && Fits(ci, l, s, i, k) && Fits(ci, r, s, k, j)
  {
    k :| i <= k <= j && Fits(ci, l, s, i, k) && Fits(ci, r, s, k, j);
  }

  lemma CatJoins(ci: bool, l: Re, r: Re, s: string, i: nat, k: nat, j: nat)
    requires i <= k <= j <= |s| && Fits(ci, l, s, i, k) && Fits(ci, r, s, k, j)
    ensures Fits(ci, Cat(l, r), s, i, j)
  {
  }
}
