/** Non-capturing alternations "(?:a|b|c)" as the compiler emits them. */
module Alternation {
  import opened Text
  import opened Regex
  import opened Tokens

  /** What may follow an alternative. */
  predicate Closes(rest: string) {
    rest != "" && (rest[0] == '|' || rest[0] == ')')
  }

  /** The text parses to the tree in front of a bar or a closing parenthesis. */
  ghost predicate PartParses(text: string, re: Re) {
    forall rest :: Closes(rest) ==> ParseCat(text + rest) == Parsed(re, rest)
  }

  function OrTree(res: seq<Re>): Re
    requires res != []
  {
    if |res| == 1 then res[0] else Or(res[0], OrTree(res[1..]))
  }

  function GroupText(parts: seq<string>): string {
    "(?:" + Join(parts, "|") + ")"
  }

  lemma BarContinues(text: string, re: Re, tail: string)
    requires ParseCat(text + ("|" + tail)) == Parsed(re, "|" + tail) && ParseOr(tail).Parsed?
    ensures ParseOr(text + ("|" + tail)) == Parsed(Or(re, ParseOr(tail).re), ParseOr(tail).rest)
  {
    assert ("|" + tail)[1..] == tail;
  }

  lemma JoinFirst(parts: seq<string>, close: string)
    requires |parts| > 1
    ensures Join(parts, "|") + close == parts[0] + ("|" + (Join(parts[1..], "|") + close))
  {
    assert Join(parts, "|") == parts[0] + "|" + Join(parts[1..], "|");
  }

  lemma {:induction false} AlternativesParse(parts: seq<string>, res: seq<Re>, close: string)
    requires |parts| == |res| > 0 && forall i :: 0 <= i < |parts| ==> PartParses(parts[i], res[i])
    requires close != "" && close[0] == ')'
    ensures ParseOr(Join(parts, "|") + close) == Parsed(OrTree(res), close)
  {
    assert PartParses(parts[0], res[0]) && Closes(close);
    if |parts| > 1 {
      var tail := Join(parts[1..], "|") + close;
      AlternativesParse(parts[1..], res[1..], close);
      assert Closes("|" + tail);
      BarContinues(parts[0], res[0], tail);
      JoinFirst(parts, close);
    }
  }

  lemma GroupParses(parts: seq<string>, res: seq<Re>, rest: string)
    requires |parts| == |res| > 0 && forall i :: 0 <= i < |parts| ==> PartParses(parts[i], res[i])
    ensures ParseAtom(GroupText(parts) + rest) == Parsed(OrTree(res), rest)
    ensures (GroupText(parts) + rest)[0] == '('
  {
    var t := GroupText(parts) + rest;
    var inner := Join(parts, "|") + (")" + rest);
    assert t == "(?:" + inner && t[3..] == inner && "(?:" <= t && t[0] == '(';
    AlternativesParse(parts, res, ")" + rest);
    assert (")" + rest)[1..] == rest;
  }

  lemma {:induction false} OrFits(ci: bool, res: seq<Re>, s: string, i: nat, j: nat)
    requires res != [] && i <= j <= |s|
    ensures Fits(ci, OrTree(res), s, i, j) <==> exists re <- res :: Fits(ci, re, s, i, j)
  {
    if |res| > 1 {
      OrFits(ci, res[1..], s, i, j);
      if re :| re in res && Fits(ci, re, s, i, j) {
        assert re == res[0] || re in res[1..];
      }
      if re :| re in res[1..] && Fits(ci, re, s, i, j) {
        assert re in res;
      }
    } else {
      assert forall re :: re in res <==> re == res[0];
    }
  }

  /** Shown tokens are an alternative. */
  lemma TokensArePart(ts: seq<Token>)
    ensures PartParses(Show(ts), Tree(ts, Empty))
  {
    forall rest | Closes(rest) ensures ParseCat(Show(ts) + rest) == Parsed(Tree(ts, Empty), rest) {
      ParseShown(ts, rest);
    }
  }

  lemma TreeFitsTokens(ci: bool, ts: seq<Token>, s: string, i: nat, j: nat)
    requires i <= j <= |s|
    ensures Fits(ci, Tree(ts, Empty), s, i, j) <==> TokensFit(ci, ts, s[i..j])
  {
    if Fits(ci, Tree(ts, Empty), s, i, j) { var _ := TreeToTokens(ci, ts, Empty, s, i, j); }
    if TokensFit(ci, ts, s[i..j]) {
      assert Fits(ci, Empty, s, j, j);
      TokensToTree(ci, ts, Empty, s, i, j, j);
    }
  }
}
