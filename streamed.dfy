/**
 * `fetch_streamed_matches`: the football matches of the streamed.su match
 * list that have two real team names, a printable kick-off time and at
 * least one usable embed link, in the order of the list.
 *
 * The two HTTP requests are inputs: the decoded match list (`None` when
 * the request failed) and, for each stream URL, the `embedUrl`s of the
 * streams it lists (`None` when the request failed or did not return a list).
 */
module Streamed {
  import opened Optional
  import opened PyStrings
  import opened Sequences
  import opened MatchData
  import opened Calendar

  const StreamedApiBaseUrl: string := "https://streamed.su"
  const TitleNotFound: string := "Title Not Found"
  const Football: string := "football"

  /** One side of `teams`: `name` and `badge`, "" where the key is missing. */
  datatype ApiTeam = ApiTeam(name: string, badge: string)

  /** `teams`: each side `None` where it is missing, null or an empty object. */
  datatype ApiTeams = ApiTeams(home: Option<ApiTeam>, away: Option<ApiTeam>)

  /** One entry of `sources`: `source` and `id`, "" where missing. */
  datatype ApiSource = ApiSource(source: string, id: string)

  /** One entry of the match list; `date` is the kick-off in epoch
      milliseconds when it is an integer. */
  datatype ApiMatch = ApiMatch(
    title: Option<string>,
    category: Option<string>,
    date: Option<int>,
    teams: Option<ApiTeams>,
    sources: seq<ApiSource>)

  /** The answer of the stream endpoint: per stream its `embedUrl` ("" where
      missing or null), or `None`. */
  type StreamsFetch = string -> Option<seq<string>>

  function BadgeUrl(badge: string): string {
    StreamedApiBaseUrl + "/api/images/badge/" + badge + ".webp"
  }

  function StreamUrl(source: ApiSource): string {
    StreamedApiBaseUrl + "/api/stream/" + source.source + "/" + source.id
  }

  /** `team1` or `team2` after the `teams` block: a side with a non-blank
      name gives its stripped name and, when it has a badge, the badge
      image; otherwise the placeholder and the default logo. */
  function TeamOf(side: Option<ApiTeam>): Team {
    if side.Some? && Strip(side.value.name) != "" then
      Team(Strip(side.value.name), if side.value.badge != "" then BadgeUrl(side.value.badge) else DefaultLogoUrl)
    else Team(NotFound, DefaultLogoUrl)
  }

  function HomeSide(m: ApiMatch): Option<ApiTeam> {
    if m.teams.Some? then m.teams.value.home else None
  }

  function AwaySide(m: ApiMatch): Option<ApiTeam> {
    if m.teams.Some? then m.teams.value.away else None
  }

  /** `formatted_time, formatted_date`: the timestamp printed when it is a
      positive number, otherwise "Not Found" twice. */
  function MatchTimes(m: ApiMatch): (string, string) {
    if m.date.Some? && m.date.value > 0 then MatchDateFromTimestamp(m.date.value) else (NotFound, NotFound)
  }

  /** The embed URLs kept: non-empty, without "admin", http or https. */
  predicate IsEmbedLink(url: string) {
    url != "" && !Contains(url, "admin") && IsHttpUrl(url)
  }

  /** The embed URLs a source yields: none when its name or id is empty or
      its request gives nothing. */
  function FetchedStreams(source: ApiSource, fetch: StreamsFetch): seq<string> {
    if source.source == "" || source.id == "" then []
    else fetch(StreamUrl(source)).GetOr([])
  }

  function SourceLinks(fetch: StreamsFetch): ApiSource -> seq<string> {
    source => Filter(FetchedStreams(source, fetch), IsEmbedLink)
  }

  /** `all_stream_links`: the kept embed URLs of every source, in order,
      duplicates included. */
  function StreamLinks(sources: seq<ApiSource>, fetch: StreamsFetch): seq<string> {
    FlatMap(sources, SourceLinks(fetch))
  }

  /** The entry one API match contributes, or `None` where a check skips it. */
  function StreamedEntry(m: ApiMatch, fetch: StreamsFetch): Option<Match> {
    var team1, team2 := TeamOf(HomeSide(m)), TeamOf(AwaySide(m));
    var times := MatchTimes(m);
    var links := StreamLinks(m.sources, fetch);
    if m.category != Some(Football) || !IsValidTeamData(team1.name, team2.name)
      || times.0 == NotFound || times.1 == NotFound || links == []
    then None
    else Some(Match(m.title.GetOr(TitleNotFound), team1, team2, times.0, times.1, links))
  }

  function EntryOf(fetch: StreamsFetch): ApiMatch -> Option<Match> {
    m => StreamedEntry(m, fetch)
  }

  /** The result of `fetch_streamed_matches`. */
  function StreamedMatches(apiMatches: Option<seq<ApiMatch>>, fetch: StreamsFetch): seq<Match> {
    if apiMatches.None? then [] else FilterMap(apiMatches.value, EntryOf(fetch))
  }

  /** The loop over one source's streams: the embed URLs that pass the
      filter, in order. */
  method KeepEmbedLinks(streams: seq<string>) returns (kept: seq<string>)
    ensures kept == Filter(streams, IsEmbedLink)
  {
    kept := [];
    for j := 0 to |streams|
      invariant kept == Filter(streams[..j], IsEmbedLink)
    {
      var embedUrl := streams[j];
      if embedUrl != "" && !Contains(embedUrl, "admin") && IsHttpUrl(embedUrl) {
        kept := kept + [embedUrl];
      }
      FilterSnoc(streams[..j], embedUrl, IsEmbedLink);
      assert streams[..j + 1] == streams[..j] + [embedUrl];
    }
    assert streams[..|streams|] == streams;
  }

  /** The loop over a match's sources: the kept embed URLs of each source
      whose request answers, appended in order. */
  method CollectStreamLinks(sources: seq<ApiSource>, fetch: StreamsFetch) returns (links: seq<string>)
    ensures links == StreamLinks(sources, fetch)
  {
    links := [];
    for i := 0 to |sources|
      invariant links == FlatMap(sources[..i], SourceLinks(fetch))
    {
      var source := sources[i];
      FlatMapSnoc(sources[..i], source, SourceLinks(fetch));
      assert sources[..i + 1] == sources[..i] + [source];
      if source.source == "" || source.id == "" {
        assert SourceLinks(fetch)(source) == [];
        continue;
      }
      var streamsData := fetch(StreamUrl(source));
      if streamsData.Some? {
        var kept := KeepEmbedLinks(streamsData.value);
        links := links + kept;
      } else {
        assert SourceLinks(fetch)(source) == [];
      }
    }
    assert sources[..|sources|] == sources;
  }

  /** The block run for each side of `teams`: a side with a non-blank name
      replaces the placeholder name, and its badge, when it has one, the
      default logo. */
  method UpdateTeam(team: Team, side: Option<ApiTeam>) returns (updated: Team)
    requires team == Team(NotFound, DefaultLogoUrl)
    ensures updated == TeamOf(side)
  {
    updated := team;
    if side.Some? {
      var name := Strip(side.value.name);
      if name != "" {
        updated := updated.(name := name);
        var badge := side.value.badge;
        if badge != "" {
          updated := updated.(logoUrl := BadgeUrl(badge));
        }
      }
    }
  }

  /** `fetch_streamed_matches`, given the decoded match list and the
      stream endpoint's answers. */
  method FetchStreamedMatches(apiMatches: Option<seq<ApiMatch>>, fetch: StreamsFetch) returns (output: seq<Match>)
    ensures output == StreamedMatches(apiMatches, fetch)
  {
    if apiMatches.None? || apiMatches.value == [] {
      return [];
    }
    var matches := apiMatches.value;
    output := [];
    for i := 0 to |matches|
      invariant output == FilterMap(matches[..i], EntryOf(fetch))
    {
      var m := matches[i];
      FilterMapSnoc(matches[..i], m, EntryOf(fetch));
      assert matches[..i + 1] == matches[..i] + [m];
      if m.category != Some(Football) {
        continue;
      }
      var formattedTime, formattedDate := NotFound, NotFound;
      if m.date.Some? && m.date.value > 0 {
        var printed := MatchDateFromTimestamp(m.date.value);
        formattedTime, formattedDate := printed.0, printed.1;
      }
      var team1 := Team(NotFound, DefaultLogoUrl);
      var team2 := Team(NotFound, DefaultLogoUrl);
      if m.teams.Some? {
        team1 := UpdateTeam(team1, m.teams.value.home);
        team2 := UpdateTeam(team2, m.teams.value.away);
      }
      if !IsValidTeamData(team1.name, team2.name) {
        continue;
      }
      if formattedTime == NotFound || formattedDate == NotFound {
        continue;
      }
      var links := CollectStreamLinks(m.sources, fetch);
      if links == [] {
        continue;
      }
      output := output + [Match(m.title.GetOr(TitleNotFound), team1, team2, formattedTime, formattedDate, links)];
    }
    assert matches[..|matches|] == matches;
  }

  /** A link is collected exactly when it passes the embed filter and some
      source with a name and an id lists it. */
  lemma StreamLinksMember(sources: seq<ApiSource>, fetch: StreamsFetch, url: string)
    ensures url in StreamLinks(sources, fetch) <==>
      IsEmbedLink(url) && exists i :: 0 <= i < |sources| && url in FetchedStreams(sources[i], fetch)
  {
    FlatMapMember(sources, SourceLinks(fetch), url);
    forall i | 0 <= i < |sources|
      ensures url in SourceLinks(fetch)(sources[i]) <==> IsEmbedLink(url) && url in FetchedStreams(sources[i], fetch)
    {
      FilterMembers(FetchedStreams(sources[i], fetch), IsEmbedLink);
    }
  }

  /** A source contributes its streams only when it has both a name and an id. */
  lemma FetchedStreamsNeedNameAndId(source: ApiSource, fetch: StreamsFetch)
    ensures FetchedStreams(source, fetch) != [] ==>
      source.source != "" && source.id != "" && fetch(StreamUrl(source)) == Some(FetchedStreams(source, fetch))
  {
  }

  /** A printed timestamp is never the placeholder; an unprintable one is. */
  lemma MatchTimesFound(m: ApiMatch)
    ensures MatchTimes(m).0 != NotFound <==> m.date.Some? && m.date.value > 0 && TimestampYear(m.date.value) <= 9999
    ensures MatchTimes(m).1 != NotFound <==> m.date.Some? && m.date.value > 0 && TimestampYear(m.date.value) <= 9999
  {
    if m.date.Some? && m.date.value > 0 {
      var ts := m.date.value;
      DateOfDayFromEpoch(ts / 1000 / 86400);
      if TimestampYear(ts) <= 9999 {
        var times := MatchDateFromTimestamp(ts);
        assert |times.0| == 5 && |times.1| == 10;
      } else {
        TimestampOutOfRange(ts);
      }
    }
  }

  /** A side yields a real team exactly when it is present with a non-blank name. */
  lemma TeamOfSpec(side: Option<ApiTeam>)
    ensures TeamOf(side).name != NotFound ==> side.Some? && TeamOf(side).name == Strip(side.value.name)
    ensures TeamOf(side).logoUrl != DefaultLogoUrl ==>
      side.Some? && side.value.badge != "" && TeamOf(side).logoUrl == BadgeUrl(side.value.badge)
    ensures side.None? ==> TeamOf(side) == Team(NotFound, DefaultLogoUrl)
  {
  }

  /** An API match yields an entry exactly when it is football, both sides
      have valid names, its timestamp is positive and printable, and some
      source yields a link. */
  lemma StreamedEntryKept(m: ApiMatch, fetch: StreamsFetch)
    ensures StreamedEntry(m, fetch).Some? <==>
      && m.category == Some(Football)
      && IsValidTeamData(TeamOf(HomeSide(m)).name, TeamOf(AwaySide(m)).name)
      && m.date.Some? && m.date.value > 0 && TimestampYear(m.date.value) <= 9999
      && StreamLinks(m.sources, fetch) != []
  {
    MatchTimesFound(m);
  }

  /** The entry carries the API's title, the stripped names of the two
      sides (both present), the printed time and date and all collected
      links. */
  lemma StreamedEntryFields(m: ApiMatch, fetch: StreamsFetch)
    requires StreamedEntry(m, fetch).Some?
    ensures var e := StreamedEntry(m, fetch).value;
      && m.teams.Some? && m.teams.value.home.Some? && m.teams.value.away.Some?
      && e.team1 == TeamOf(m.teams.value.home) && e.team1.name == Strip(m.teams.value.home.value.name)
      && e.team2 == TeamOf(m.teams.value.away) && e.team2.name == Strip(m.teams.value.away.value.name)
      && (e.time, e.date) == MatchDateFromTimestamp(m.date.value)
      && e.title == m.title.GetOr(TitleNotFound)
      && e.links == StreamLinks(m.sources, fetch)
  {
  }

  /** Every entry comes from a football match of the list and carries two
      valid team names, a printed time and date and a non-empty list of
      embed links. */
  lemma StreamedOutputSound(apiMatches: Option<seq<ApiMatch>>, fetch: StreamsFetch, e: Match) returns (i: nat)
    requires e in StreamedMatches(apiMatches, fetch)
    ensures apiMatches.Some? && i < |apiMatches.value| && StreamedEntry(apiMatches.value[i], fetch) == Some(e)
    ensures apiMatches.value[i].category == Some(Football)
    ensures IsValidTeamData(e.team1.name, e.team2.name) && e.time != NotFound && e.date != NotFound
    ensures e.links != [] && forall url :: url in e.links ==> IsEmbedLink(url)
  {
    FilterMapMember(apiMatches.value, EntryOf(fetch), e);
    i :| 0 <= i < |apiMatches.value| && EntryOf(fetch)(apiMatches.value[i]) == Some(e);
    var m := apiMatches.value[i];
    forall url | url in e.links
      ensures IsEmbedLink(url)
    {
      StreamLinksMember(m.sources, fetch, url);
    }
  }

  /** Every football match with valid team names, a positive printable
      timestamp and at least one link has its entry in the result. */
  lemma StreamedOutputComplete(matches: seq<ApiMatch>, fetch: StreamsFetch, i: nat)
    requires i < |matches| && matches[i].category == Some(Football)
    requires IsValidTeamData(TeamOf(HomeSide(matches[i])).name, TeamOf(AwaySide(matches[i])).name)
    requires matches[i].date.Some? && matches[i].date.value > 0 && TimestampYear(matches[i].date.value) <= 9999
    requires StreamLinks(matches[i].sources, fetch) != []
    ensures StreamedEntry(matches[i], fetch).Some?
    ensures StreamedEntry(matches[i], fetch).value in StreamedMatches(Some(matches), fetch)
  {
    assert StreamedEntry(matches[i], fetch).Some? by {
      StreamedEntryKept(matches[i], fetch);
    }
    assert EntryOf(fetch)(matches[i]) == StreamedEntry(matches[i], fetch);
    FilterMapHas(matches, EntryOf(fetch), i);
  }
}
