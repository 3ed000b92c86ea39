/**
 * The match record both scrapers produce and both merges consume, the
 * placeholder-name validator, the URL-scheme test the scrapers apply to
 * stream links, and the team-name normaliser used for similarity.
 */
module MatchData {
  import opened PyStrings

  /** The logo a team gets when no source supplies one. */
  const DefaultLogoUrl: string := "https://cdn.jsdelivr.net/gh/drnewske/tyhdsjax-nfhbqsm/logos/default.png"

  /** The placeholder written where a time, a date or a team name is missing. */
  const NotFound: string := "Not Found"

  /** `{"name": ..., "logo_url": ...}`. */
  datatype Team = Team(name: string, logoUrl: string)

  /** One output entry: `match_title_from_api`, `team1`, `team2`, `time`,
      `date` and `links`. */
  datatype Match = Match(title: string, team1: Team, team2: Team, time: string, date: string, links: seq<string>)

  /** `url.startswith(('http://', 'https://'))`. */
  predicate IsHttpUrl(url: string) {
    StartsWith(url, "http://") || StartsWith(url, "https://")
  }

  /** The names `is_valid_team_data` treats as missing. */
  predicate IsPlaceholderName(name: string) {
    name == NotFound || name == "Name Not Found"
  }

  /** `is_valid_team_data`: both names present, neither a placeholder nor
      blank. */
  function IsValidTeamData(team1Name: string, team2Name: string): (valid: bool)
    ensures valid <==>
      && !IsPlaceholderName(team1Name) && !AllSpace(team1Name)
      && !IsPlaceholderName(team2Name) && !AllSpace(team2Name)
  {
    var invalidValues := {NotFound, "Name Not Found", ""};
    && team1Name !in invalidValues
    && team2Name !in invalidValues
    && Strip(team1Name) != ""
    && Strip(team2Name) != ""
  }

  /** The order `random.shuffle` leaves a list of links in, as a function
      of the list. The merges are specified for every such function. */
  type Shuffle = seq<string> -> seq<string>

  /** `random.shuffle` only reorders: every list keeps its links, each as
      often as before. */
  ghost predicate IsShuffle(shuffle: Shuffle) {
    forall s :: multiset(shuffle(s)) == multiset(s)
  }

  /** A shuffled list holds the same links, each as often as before. */
  lemma ShuffleKeepsElements(shuffle: Shuffle, s: seq<string>)
    requires IsShuffle(shuffle)
    ensures multiset(shuffle(s)) == multiset(s)
    ensures |shuffle(s)| == |s|
    ensures forall x :: x in shuffle(s) <==> x in s
  {
    assert multiset(shuffle(s)) == multiset(s);
    assert |multiset(shuffle(s))| == |multiset(s)|;
    forall x
      ensures x in shuffle(s) <==> x in s
    {
      assert x in shuffle(s) <==> x in multiset(shuffle(s));
      assert x in s <==> x in multiset(s);
    }
  }

  /** The start of the run of whitespace that ends at position `end`. */
  function SpaceRunStart(s: string, end: nat): (k: nat)
    requires end <= |s|
    ensures k <= end && AllSpace(s[k..end])
    ensures k == 0 || !IsSpace(s[k - 1])
  {
    if end > 0 && IsSpace(s[end - 1]) then
      var k := SpaceRunStart(s, end - 1);
      assert s[k..end] == s[k..end - 1] + [s[end - 1]];
      k
    else end
  }

  /** `suffix` ends `name` and at least one whitespace character precedes it. */
  predicate HasSpacedSuffix(name: string, suffix: string) {
    EndsWith(name, suffix) && |name| > |suffix| && IsSpace(name[|name| - |suffix| - 1])
  }

  /** `re.sub(r'\s+' + suffix + '$', ' women', name)` on a name without a
      trailing line break: when `suffix` ends the name and is preceded by at
      least one whitespace character, that suffix and the whole run of
      whitespace before it become " women". */
  function RewriteSuffix(name: string, suffix: string): string {
    if HasSpacedSuffix(name, suffix) then name[..SpaceRunStart(name, |name| - |suffix|)] + " women"
    else name
  }

  /** `normalize_team_name`: stripped, lower-cased (ASCII letters), with a
      trailing " w", " (w)", " women" or " female" (after any run of
      whitespace) written as " women". */
  function NormalizeTeamName(teamName: string): string {
    if |teamName| == 0 then ""
    else
      Strip(RewriteWomen(Lower(Strip(teamName))))
  }

  lemma LowerAppend(a: string, b: string)
    ensures Lower(a + b) == Lower(a) + Lower(b)
  {
  }

  lemma LowerKeepsEnds(s: string)
    requires s != [] && !IsSpace(s[0]) && !IsSpace(s[|s| - 1])
    ensures Lower(s) != [] && !IsSpace(Lower(s)[0]) && !IsSpace(Lower(s)[|s| - 1])
  {
  }

  /** A word, then a space and `suffix` (`spaced` is the space and the
      suffix): the rewrite yields the word and " women". */
  lemma RewriteAfterWord(word: string, spaced: string)
    requires word != [] && !IsSpace(word[|word| - 1])
    requires |spaced| >= 2 && spaced[0] == ' '
    ensures RewriteSuffix(word + spaced, spaced[1..]) == word + " women"
  {
    var name := word + spaced;
    var suffix := spaced[1..];
    assert name[|name| - |suffix|..] == suffix;
    assert name[|name| - |suffix| - 1] == ' ';
    assert SpaceRunStart(name, |word| + 1) == |word|;
    assert name[..|word|] == word;
  }

  /** Stripping and lower-casing a clean word followed by a lower-case,
      space-led suffix. */
  lemma LowerStripSuffixed(base: string, spaced: string)
    requires base != [] && !IsSpace(base[0])
    requires spaced != [] && !IsSpace(spaced[|spaced| - 1]) && Lower(spaced) == spaced
    ensures Lower(Strip(base + spaced)) == Lower(base) + spaced
  {
    var s := base + spaced;
    assert s[0] == base[0] && s[|s| - 1] == spaced[|spaced| - 1];
    StripNoop(s);
    LowerAppend(base, spaced);
  }

  /** The steps of `normalize_team_name` after the strip and lower-casing. */
  function RewriteWomen(name: string): string {
    RewriteSuffix(RewriteSuffix(RewriteSuffix(RewriteSuffix(name, "w"), "(w)"), "women"), "female")
  }

  /** `word women` is left alone by the suffix rewrites and by the final strip. */
  lemma WomenIsFixed(word: string)
    requires word != [] && !IsSpace(word[0]) && !IsSpace(word[|word| - 1])
    ensures RewriteSuffix(word + " women", "(w)") == word + " women"
    ensures RewriteSuffix(word + " women", "women") == word + " women"
    ensures RewriteSuffix(word + " women", "female") == word + " women"
    ensures Strip(word + " women") == word + " women"
  {
    var s := word + " women";
    assert s[|s| - 1] == 'n';
    assert !EndsWith(s, "(w)");
    assert " women"[1..] == "women";
    RewriteAfterWord(word, " women");
    assert s[|s| - 6] == ' ';
    assert !EndsWith(s, "female");
    StripNoop(s);
  }

  /** `base w` normalises to `base women`, lower-cased. */
  lemma WomenFromW(base: string)
    requires base != [] && !IsSpace(base[0]) && !IsSpace(base[|base| - 1])
    ensures NormalizeTeamName(base + " w") == Lower(base) + " women"
  {
    var l := Lower(base);
    LowerKeepsEnds(base);
    assert Lower(" w") == " w" && " w"[1..] == "w";
    LowerStripSuffixed(base, " w");
    RewriteAfterWord(l, " w");
    WomenIsFixed(l);
  }

  /** A name whose last character differs from the suffix's is not rewritten. */
  lemma RewriteSkips(name: string, suffix: string)
    requires suffix != [] && (name == [] || name[|name| - 1] != suffix[|suffix| - 1])
    ensures RewriteSuffix(name, suffix) == name
  {
  }

  /** Nor is one whose second-to-last character differs from the suffix's. */
  lemma RewriteSkipsSecond(name: string, suffix: string)
    requires |suffix| >= 2 && |name| >= 2 && name[|name| - 2] != suffix[|suffix| - 2]
    ensures RewriteSuffix(name, suffix) == name
  {
  }

  /** `base (w)` normalises to `base women`, lower-cased. */
  lemma WomenFromParenW(base: string)
    requires base != [] && !IsSpace(base[0]) && !IsSpace(base[|base| - 1])
    ensures NormalizeTeamName(base + " (w)") == Lower(base) + " women"
  {
    var l := Lower(base);
    var pw := l + " (w)";
    LowerKeepsEnds(base);
    assert Lower(" (w)") == " (w)" && " (w)"[1..] == "(w)";
    LowerStripSuffixed(base, " (w)");
    assert pw[|pw| - 1] == ')';
    RewriteSkips(pw, "w");
    RewriteAfterWord(l, " (w)");
    WomenIsFixed(l);
  }

  lemma FemaleRewrites(word: string)
    requires word != [] && !IsSpace(word[0]) && !IsSpace(word[|word| - 1])
    ensures RewriteWomen(word + " female") == word + " women"
  {
    var f := word + " female";
    assert " female"[1..] == "female";
    assert f[|f| - 1] == 'e' && f[|f| - 2] == 'l';
    RewriteSkips(f, "w");
    RewriteSkips(f, "(w)");
    RewriteSkipsSecond(f, "women");
    RewriteAfterWord(word, " female");
  }

  /** `base female` normalises to `base women`, lower-cased. */
  lemma WomenFromFemale(base: string)
    requires base != [] && !IsSpace(base[0]) && !IsSpace(base[|base| - 1])
    ensures NormalizeTeamName(base + " female") == Lower(base) + " women"
  {
    var l := Lower(base);
    LowerKeepsEnds(base);
    assert Lower(" female") == " female";
    LowerStripSuffixed(base, " female");
    FemaleRewrites(l);
    WomenIsFixed(l);
  }

  /** `base women` stays `base women`, lower-cased. */
  lemma WomenFromWomen(base: string)
    requires base != [] && !IsSpace(base[0]) && !IsSpace(base[|base| - 1])
    ensures NormalizeTeamName(base + " women") == Lower(base) + " women"
  {
    var l := Lower(base);
    LowerKeepsEnds(base);
    assert Lower(" women") == " women";
    LowerStripSuffixed(base, " women");
    var w := l + " women";
    assert w[|w| - 1] == 'n' && !EndsWith(w, "w");
    WomenIsFixed(l);
  }
}
