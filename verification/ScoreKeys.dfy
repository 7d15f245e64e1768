/** The composite (site, ip) keys of the sentinel's record table. */
module ScoreKeys {
  import opened Text

  const GLOBAL_SITE := "*"

  /** What unicode.ToLower is to the keys: it lowers once and for all, makes and removes no blanks, and has
      no lower case for the marker of the global site. */
  ghost predicate LowersOnce(lower: char -> char) {
    && (forall c :: lower(lower(c)) == lower(c))
    && (forall c :: IsSpace(lower(c)) <==> IsSpace(c))
    && lower('*') == '*'
  }

  /** strings.ToLower */
  function Lower(lower: char -> char, s: string): (r: string)
    ensures |r| == |s|
    ensures forall i :: 0 <= i < |s| ==> r[i] == lower(s[i])
  {
    if s == "" then "" else [lower(s[0])] + Lower(lower, s[1..])
  }

  function NormalizeSiteID(lower: char -> char, value: string): string {
    var v := Lower(lower, Trim(value));
    if v == "" || v == "-" then "" else v
  }

  function MakeScoreKey(lower: char -> char, site: string, ip: string): string {
    var s := NormalizeSiteID(lower, site);
    (if s == "" then GLOBAL_SITE else s) + "|" + Trim(ip)
  }

  /** Index of the first '|', or |key|. */
  function Bar(key: string): (i: nat)
    ensures i <= |key|
    ensures forall j :: 0 <= j < i ==> key[j] != '|'
    ensures i < |key| ==> key[i] == '|'
  {
    if key == "" || key[0] == '|' then 0 else 1 + Bar(key[1..])
  }

  /** Splits a trimmed key at its first '|'; a key without one is a bare IP of the global site. */
  function ParseTrimmed(lower: char -> char, k: string): (string, string) {
    var i := Bar(k);
    if i < |k| then (NormalizeSiteID(lower, k[..i]), Trim(k[i + 1..])) else (GLOBAL_SITE, k)
  }

  function ParseScoreKey(lower: char -> char, key: string): (string, string) {
    ParseTrimmed(lower, Trim(key))
  }

  predicate Denotes(lower: char -> char, key: string, site: string, ip: string) {
    ParseScoreKey(lower, key).0 == site && ParseScoreKey(lower, key).1 == ip
  }

  predicate Lowered(lower: char -> char, s: string) {
    forall c <- s :: lower(c) == c
  }

  lemma {:induction false} LowerFixed(lower: char -> char, s: string)
    requires Lowered(lower, s)
    ensures Lower(lower, s) == s
  {
    assert forall i :: 0 <= i < |s| ==> s[i] in s;
  }

  lemma {:induction false} LowerTrimmed(lower: char -> char, s: string)
    requires LowersOnce(lower) && Trimmed(s)
    ensures Trimmed(Lower(lower, s)) && Lowered(lower, Lower(lower, s))
  {
    if s != "" {
      assert Lower(lower, s)[0] == lower(s[0]) && Lower(lower, s)[|s| - 1] == lower(s[|s| - 1]);
    }
  }

  lemma {:induction false} NormalizeFixed(lower: char -> char, v: string)
    requires Trimmed(v) && Lowered(lower, v) && v != "-"
    ensures NormalizeSiteID(lower, v) == v
  {
    TrimFixes(v);
    LowerFixed(lower, v);
  }

  /** A normalised site is a fixed point of normalisation. */
  lemma {:induction false} NormalizeIdempotent(lower: char -> char, site: string)
    requires LowersOnce(lower)
    ensures NormalizeSiteID(lower, NormalizeSiteID(lower, site)) == NormalizeSiteID(lower, site)
    ensures Trimmed(NormalizeSiteID(lower, site))
  {
    TrimIsTrimmed(site);
    LowerTrimmed(lower, Trim(site));
    NormalizeFixed(lower, NormalizeSiteID(lower, site));
  }

  /** The site a key stands for: blank and "-" mean the global site. */
  function KeySite(lower: char -> char, site: string): string {
    var s := NormalizeSiteID(lower, site);
    if s == "" then GLOBAL_SITE else s
  }

  lemma {:induction false} TrimKeepsEnds(k: string)
    requires k != "" && !IsSpace(k[0]) && !IsSpace(k[|k| - 1])
    ensures Trim(k) == k
  {
  }

  lemma {:induction false} JoinTrimmed(s: string, sep: string, t: string)
    requires s != "" && Trimmed(s) && Trimmed(t) && sep != "" && !IsSpace(sep[|sep| - 1])
    ensures Trim(s + sep + t) == s + sep + t
  {
    var k := s + sep + t;
    assert k[0] == s[0] && k[|k| - 1] == if t == "" then sep[|sep| - 1] else t[|t| - 1];
    TrimKeepsEnds(k);
  }

  lemma {:induction false} KeyShape(lower: char -> char, site: string, ip: string)
    requires LowersOnce(lower)
    ensures Trim(MakeScoreKey(lower, site, ip)) == KeySite(lower, site) + "|" + Trim(ip)
    ensures NormalizeSiteID(lower, KeySite(lower, site)) == KeySite(lower, site)
  {
    KeySiteNormal(lower, site);
    assert Trimmed(Trim(ip)) by { TrimIsTrimmed(ip); }
    JoinTrimmed(KeySite(lower, site), "|", Trim(ip));
  }

  lemma {:induction false} KeySiteNormal(lower: char -> char, site: string)
    requires LowersOnce(lower)
    ensures NormalizeSiteID(lower, KeySite(lower, site)) == KeySite(lower, site)
    ensures KeySite(lower, site) != "" && Trimmed(KeySite(lower, site))
  {
    NormalizeIdempotent(lower, site);
    GlobalSiteNormal(lower);
  }

  lemma {:induction false} GlobalSiteNormal(lower: char -> char)
    requires LowersOnce(lower)
    ensures NormalizeSiteID(lower, GLOBAL_SITE) == GLOBAL_SITE
  {
    assert GLOBAL_SITE[0] == '*';
    NormalizeFixed(lower, GLOBAL_SITE);
  }

  lemma {:induction false} ParseSplit(lower: char -> char, s: string, t: string)
    requires '|' !in s && Trimmed(t)
    ensures ParseTrimmed(lower, s + "|" + t).0 == NormalizeSiteID(lower, s)
    ensures ParseTrimmed(lower, s + "|" + t).1 == t
  {
    var k := s + "|" + t;
    assert k[|s|] == '|' && k[..|s|] == s && k[|s| + 1..] == t;
    assert forall j :: 0 <= j < |s| ==> k[j] == s[j];
    assert Bar(k) == |s|;
    TrimFixes(t);
  }

  lemma {:induction false} ParseCutsShort(lower: char -> char, s: string, t: string)
    requires '|' in s
    ensures |ParseTrimmed(lower, s + "|" + t).0| < |s|
  {
    var k := s + "|" + t;
    var p :| 0 <= p < |s| && s[p] == '|';
    assert k[p] == '|';
    assert Bar(k) <= p;
  }

  lemma {:induction false} ParseOfShape(lower: char -> char, key: string, s: string, t: string)
    requires Trim(key) == s + "|" + t && NormalizeSiteID(lower, s) == s && Trimmed(t)
    ensures Denotes(lower, key, s, t) <==> '|' !in s
  {
    if '|' in s { ParseCutsShort(lower, s, t); } else { ParseSplit(lower, s, t); }
  }

  /** Parsing undoes key building exactly when the normalised site has no bar; with a bar the
      site is cut short and its remainder lands in the IP. */
  lemma {:induction false} KeyRoundTrip(lower: char -> char, site: string, ip: string)
    requires LowersOnce(lower)
    ensures Denotes(lower, MakeScoreKey(lower, site, ip), KeySite(lower, site), Trim(ip)) <==> '|' !in KeySite(lower, site)
  {
    var key, s, t := MakeScoreKey(lower, site, ip), KeySite(lower, site), Trim(ip);
    assert Denotes(lower, key, s, t) <==> '|' !in s by {
      assert Trimmed(t) by { TrimIsTrimmed(ip); }
      KeyShape(lower, site, ip);
      ParseOfShape(lower, key, s, t);
    }
  }

  /** Which sites share the keys of the global one: a blank site, "-" and "*", in any case and with any blanks
      around, and no other. */
  lemma {:induction false} GlobalKeys(lower: char -> char, site: string, ip: string)
    ensures MakeScoreKey(lower, site, ip) == "*|" + Trim(ip) <==> Lower(lower, Trim(site)) in ["", "-", "*"]
    ensures MakeScoreKey(lower, site, ip) != "*|" + Trim(ip)
            ==> MakeScoreKey(lower, site, ip) == Lower(lower, Trim(site)) + "|" + Trim(ip)
  {
    hide Lower, Trim;
    SameStart(Lower(lower, Trim(site)), Trim(ip));
    assert "*" + "|" == "*|";
  }

  lemma SameStart(s: string, t: string)
    ensures s + "|" + t == "*|" + t <==> s == "*"
  {
    if s + "|" + t == "*|" + t {
      assert |s + "|" + t| == |s| + 1 + |t| && |"*|" + t| == 2 + |t|;
      assert s[0] == (s + "|" + t)[0] == ("*|" + t)[0];
    }
    assert "*" + "|" == "*|";
  }
}
