/**
 * `group_sportsonline_matches`: the parsed rows of one event (same display
 * time, same title) become one match entry whose links are the event's
 * distinct http(s) stream URLs; entries come in kick-off order, with
 * 00:00-05:59 counted as the small hours after 23:59.
 */
module SportsonlineGroups {
  import opened Optional
  import opened PyStrings
  import opened Sequences
  import opened ClockText
  import opened MatchData
  import opened Sportsonline

  /** One `(time, title, stream_urls)` item of `grouped.items()`. */
  datatype Group = Group(time: string, title: string, urls: seq<string>)

  /** The `defaultdict` key `(time, title)` of a row. */
  function KeyOf(row: Row): (string, string) {
    (row.time, row.title)
  }

  function Keys(rows: seq<Row>): (keys: seq<(string, string)>)
    ensures |keys| == |rows|
    ensures forall i :: 0 <= i < |rows| ==> keys[i] == KeyOf(rows[i])
  {
    seq(|rows|, i requires 0 <= i < |rows| => KeyOf(rows[i]))
  }

  /** `grouped[key]`: the URLs of the rows with that key, in row order. */
  function UrlsOf(rows: seq<Row>, key: (string, string)): seq<string> {
    if rows == [] then []
    else UrlsOf(rows[..|rows| - 1], key) + (if KeyOf(rows[|rows| - 1]) == key then [rows[|rows| - 1].url] else [])
  }

  /** The groups in `grouped.items()` order: a dict iterates its keys in
      insertion order, that is in order of first appearance. */
  function Groups(rows: seq<Row>): (groups: seq<Group>) {
    var keys := Dedup(Keys(rows));
    seq(|keys|, j requires 0 <= j < |keys| => Group(keys[j].0, keys[j].1, UrlsOf(rows, keys[j])))
  }

  lemma KeysSnoc(rows: seq<Row>, row: Row)
    ensures Keys(rows + [row]) == Keys(rows) + [KeyOf(row)]
  {
  }

  lemma UrlsOfSnoc(rows: seq<Row>, row: Row, key: (string, string))
    ensures UrlsOf(rows + [row], key) == UrlsOf(rows, key) + (if KeyOf(row) == key then [row.url] else [])
  {
    assert (rows + [row])[..|rows|] == rows;
  }

  /** A key no row carries collects no URL. */
  lemma {:induction false} UrlsOfAbsent(rows: seq<Row>, key: (string, string))
    requires key !in Keys(rows)
    ensures UrlsOf(rows, key) == []
  {
    if rows != [] {
      var init := rows[..|rows| - 1];
      assert rows == init + [rows[|rows| - 1]];
      KeysSnoc(init, rows[|rows| - 1]);
      UrlsOfAbsent(init, key);
    }
  }

  /** A URL is collected under a key exactly when some row with that key
      carries it. */
  lemma {:induction false} UrlsOfMembers(rows: seq<Row>, key: (string, string), u: string)
    ensures u in UrlsOf(rows, key) <==> exists i :: 0 <= i < |rows| && KeyOf(rows[i]) == key && rows[i].url == u
  {
    if rows != [] {
      var init := rows[..|rows| - 1];
      UrlsOfMembers(init, key, u);
      if u in UrlsOf(init, key) {
        var i :| 0 <= i < |init| && KeyOf(init[i]) == key && init[i].url == u;
        assert rows[i] == init[i];
      }
      if exists i :: 0 <= i < |rows| && KeyOf(rows[i]) == key && rows[i].url == u {
        var i :| 0 <= i < |rows| && KeyOf(rows[i]) == key && rows[i].url == u;
        if i < |init| {
          assert init[i] == rows[i];
        }
      }
    }
  }

  /** The state of the `defaultdict` after the first `n` rows: the keys in
      insertion order, each mapped to its URLs so far. */
  ghost predicate GroupedUpTo(rows: seq<Row>, n: nat, order: seq<(string, string)>, grouped: map<(string, string), seq<string>>)
    requires n <= |rows|
  {
    && order == Dedup(Keys(rows[..n]))
    && (forall k :: k in grouped <==> k in order)
    && (forall k :: k in grouped ==> grouped[k] == UrlsOf(rows[..n], k))
  }

  /** A row whose key is already present appends its URL to that key. */
  lemma GroupedSeenKey(rows: seq<Row>, n: nat, order: seq<(string, string)>, grouped: map<(string, string), seq<string>>)
    requires n < |rows| && GroupedUpTo(rows, n, order, grouped) && KeyOf(rows[n]) in grouped
    ensures GroupedUpTo(rows, n + 1, order, grouped[KeyOf(rows[n]) := grouped[KeyOf(rows[n])] + [rows[n].url]])
  {
    var key, prefix := KeyOf(rows[n]), rows[..n];
    assert rows[..n + 1] == prefix + [rows[n]];
    assert order == Dedup(Keys(prefix + [rows[n]])) by {
      KeysSnoc(prefix, rows[n]);
      DedupMember(Keys(prefix), key);
      DedupSnoc(Keys(prefix), key);
    }
    var grouped' := grouped[key := grouped[key] + [rows[n].url]];
    forall k | k in grouped'
      ensures grouped'[k] == UrlsOf(prefix + [rows[n]], k)
    {
      UrlsOfSnoc(prefix, rows[n], k);
    }
  }

  /** A row with a new key adds that key at the end, with its URL alone. */
  lemma GroupedNewKey(rows: seq<Row>, n: nat, order: seq<(string, string)>, grouped: map<(string, string), seq<string>>)
    requires n < |rows| && GroupedUpTo(rows, n, order, grouped) && KeyOf(rows[n]) !in grouped
    ensures GroupedUpTo(rows, n + 1, order + [KeyOf(rows[n])], grouped[KeyOf(rows[n]) := [rows[n].url]])
  {
    var key, prefix := KeyOf(rows[n]), rows[..n];
    assert rows[..n + 1] == prefix + [rows[n]];
    assert order + [key] == Dedup(Keys(prefix + [rows[n]])) by {
      KeysSnoc(prefix, rows[n]);
      DedupMember(Keys(prefix), key);
      DedupSnoc(Keys(prefix), key);
    }
    assert UrlsOf(prefix, key) == [] by {
      DedupMember(Keys(prefix), key);
      UrlsOfAbsent(prefix, key);
    }
    var grouped' := grouped[key := [rows[n].url]];
    forall k | k in grouped'
      ensures grouped'[k] == UrlsOf(prefix + [rows[n]], k)
    {
      UrlsOfSnoc(prefix, rows[n], k);
    }
  }

  /** `group_sportsonline_matches`, football_scraper.py:291-300: the `defaultdict` loop, then the loop over its items. */
  method GroupRows(rows: seq<Row>) returns (groups: seq<Group>)
    ensures groups == Groups(rows)
  {
    var order, grouped := CollectUrls(rows);
    groups := GroupItems(rows, order, grouped);
  }

  /** The `defaultdict(list)` loop: each row's URL appended under its key. */
  method CollectUrls(rows: seq<Row>) returns (order: seq<(string, string)>, grouped: map<(string, string), seq<string>>)
    ensures GroupedUpTo(rows, |rows|, order, grouped)
  {
    order := [];
    grouped := map[];
    for i := 0 to |rows|
      invariant GroupedUpTo(rows, i, order, grouped)
    {
      var key := KeyOf(rows[i]);
      if key in grouped {
        GroupedSeenKey(rows, i, order, grouped);
        grouped := grouped[key := grouped[key] + [rows[i].url]];
      } else {
        GroupedNewKey(rows, i, order, grouped);
        order := order + [key];
        grouped := grouped[key := [rows[i].url]];
      }
    }
  }

  /** The loop over `grouped.items()`, in insertion order. */
  method GroupItems(rows: seq<Row>, order: seq<(string, string)>, grouped: map<(string, string), seq<string>>)
    returns (groups: seq<Group>)
    requires GroupedUpTo(rows, |rows|, order, grouped)
    ensures groups == Groups(rows)
  {
    assert rows[..|rows|] == rows;
    groups := [];
    for j := 0 to |order|
      invariant |groups| == j
      invariant forall m :: 0 <= m < j ==> groups[m] == Group(order[m].0, order[m].1, UrlsOf(rows, order[m]))
    {
      groups := groups + [Group(order[j].0, order[j].1, grouped[order[j]])];
    }
  }

  /** Every group has at least one URL and its key is a row's key. */
  lemma GroupsNonEmpty(rows: seq<Row>, j: nat)
    requires j < |Groups(rows)|
    ensures Groups(rows)[j].urls != []
    ensures (Groups(rows)[j].time, Groups(rows)[j].title) in Keys(rows)
    ensures Groups(rows)[j].urls == UrlsOf(rows, (Groups(rows)[j].time, Groups(rows)[j].title))
  {
    var key := Dedup(Keys(rows))[j];
    DedupSpec(Keys(rows));
    assert key in Keys(rows);
    var i :| 0 <= i < |rows| && Keys(rows)[i] == key;
    UrlsOfMembers(rows, key, rows[i].url);
  }

  /** Every row's key has a group. */
  lemma GroupsCover(rows: seq<Row>, i: nat)
    requires i < |rows|
    ensures exists j :: 0 <= j < |Groups(rows)| && (Groups(rows)[j].time, Groups(rows)[j].title) == KeyOf(rows[i])
  {
    var keys := Dedup(Keys(rows));
    DedupSpec(Keys(rows));
    assert Keys(rows)[i] in keys;
    var j :| 0 <= j < |keys| && keys[j] == Keys(rows)[i];
    assert (Groups(rows)[j].time, Groups(rows)[j].title) == keys[j];
  }

  /** Distinct groups have distinct keys, in order of first appearance. */
  lemma GroupsFirstSeen(rows: seq<Row>)
    ensures forall j :: 0 <= j < |Groups(rows)| ==> (Groups(rows)[j].time, Groups(rows)[j].title) in Keys(rows)
    ensures forall j, m :: 0 <= j < m < |Groups(rows)| ==>
      (Groups(rows)[j].time, Groups(rows)[j].title) != (Groups(rows)[m].time, Groups(rows)[m].title)
    ensures forall j, m :: 0 <= j < m < |Groups(rows)| ==>
      FirstIndex(Keys(rows), (Groups(rows)[j].time, Groups(rows)[j].title))
        < FirstIndex(Keys(rows), (Groups(rows)[m].time, Groups(rows)[m].title))
  {
    var keys := Dedup(Keys(rows));
    DedupSpec(Keys(rows));
    forall j | 0 <= j < |keys|
      ensures (Groups(rows)[j].time, Groups(rows)[j].title) == keys[j]
    {
    }
  }

  /** `sort_key`: minutes since midnight by `time_to_minutes` (0 for text
      that is not a valid time), with 00:00-05:59 moved after 23:59. */
  function SortKey(time: string): (k: int)
    ensures 360 <= k < 1800
  {
    var minutes := TimeToMinutes(time);
    if 0 <= minutes < 360 then minutes + 1440 else minutes
  }

  /** On printed `HH:MM` times the key runs 06:00 < ... < 23:59 < 00:00 <
      ... < 05:59, and text that is not a valid time sorts as 00:00. */
  lemma SortKeyOfClock(hour: int, minute: int)
    requires IsClock(hour, minute)
    ensures SortKey(ClockString(hour, minute)) == if hour < 6 then hour * 60 + minute + 1440 else hour * 60 + minute
  {
    TimeToMinutesOfClock(hour, minute);
  }

  lemma SortKeyOfInvalid(time: string)
    requires !IsValidClockText(time)
    ensures SortKey(time) == SortKey(ClockString(0, 0))
  {
    SortKeyOfClock(0, 0);
  }

  function GroupKey(g: Group): int {
    SortKey(g.time)
  }

  /** `sorted(match_groups, key=sort_key)`: ordered by `SortKey` of the time,
      a permutation of the groups, and stable (`SortGroupsStable`). */
  function SortGroups(groups: seq<Group>): (sorted: seq<Group>)
    ensures multiset(sorted) == multiset(groups)
    ensures forall i, j :: 0 <= i < j < |sorted| ==> SortKey(sorted[i].time) <= SortKey(sorted[j].time)
  {
    var sorted := SortBy(groups, GroupKey);
    SortBySpec(groups, GroupKey);
    assert forall i, j :: 0 <= i < j < |sorted| ==> GroupKey(sorted[i]) <= GroupKey(sorted[j]);
    sorted
  }

  /** Groups with equal keys keep their order of first appearance. */
  lemma SortGroupsStable(groups: seq<Group>, k: int)
    ensures WithKey(SortGroups(groups), GroupKey, k) == WithKey(groups, GroupKey, k)
  {
    SortByStable(groups, GroupKey, k);
  }

  /** football_scraper.py:312-319: the two sides of the first " vs ", stripped, or the
      stripped title and "" when there is none. */
  function TeamNames(title: string): (string, string) {
    if Contains(title, " vs ") then
      var teams := SplitOnce(title, " vs ");
      (Strip(teams[0]), Strip(teams[1]))
    else (Strip(title), "")
  }

  /** When the title has a " vs ", it is `before + " vs " + after` with no
      " vs " inside `before`, and the names are the stripped sides. */
  lemma TeamNamesSplitTitle(title: string)
    requires Contains(title, " vs ")
    ensures exists before, after ::
      && title == before + " vs " + after
      && !Contains(before, " vs ")
      && TeamNames(title) == (Strip(before), Strip(after))
  {
    var i := IndexOf(title, " vs ");
    assert |" vs "| == 4 && OccursAt(title, " vs ", i);
    var before, after := title[..i], title[i + 4..];
    assert title == before + " vs " + after by {
      assert title == title[..i] + title[i..i + 4] + title[i + 4..];
    }
    PrefixBeforeFirst(title, " vs ", i);
    assert SplitOnce(title, " vs ") == [before, after];
    assert TeamNames(title) == (Strip(before), Strip(after));
  }

  /** Without a " vs " the second name is empty, so the group is dropped. */
  lemma TeamNamesWithoutVs(title: string)
    requires !Contains(title, " vs ")
    ensures !IsValidTeamData(TeamNames(title).0, TeamNames(title).1)
  {
  }

  /** The `seen`-set loop, football_scraper.py:324-329: the http(s) URLs in first-seen
      order, each once. */
  method UniqueHttpStreams(urls: seq<string>) returns (unique: seq<string>)
    ensures unique == Dedup(Filter(urls, IsHttpUrl))
  {
    unique := [];
    var seen: set<string> := {};
    for i := 0 to |urls|
      invariant unique == Dedup(Filter(urls[..i], IsHttpUrl))
      invariant forall u :: u in seen <==> u in unique
    {
      var url := urls[i];
      assert urls[..i + 1] == urls[..i] + [url];
      DedupFilterSnoc(urls[..i], url, IsHttpUrl);
      if url !in seen && IsHttpUrl(url) {
        unique := unique + [url];
        seen := seen + {url};
      }
    }
    assert urls[..|urls|] == urls;
  }

  /** The de-duplicated links hold exactly the http(s) URLs of the list, once
      each, and they are the http(s) ones among the distinct URLs in order of
      first appearance. */
  lemma UniqueStreamsProperties(urls: seq<string>)
    ensures NoDuplicates(Dedup(Filter(urls, IsHttpUrl)))
    ensures forall u :: u in Dedup(Filter(urls, IsHttpUrl)) <==> u in urls && IsHttpUrl(u)
    ensures Dedup(Filter(urls, IsHttpUrl)) == Filter(Dedup(urls), IsHttpUrl)
  {
    DedupFilterMembers(urls, IsHttpUrl);
    DedupFilter(urls, IsHttpUrl);
  }

  /** football_scraper.py:336-349: tomorrow's date for a kick-off hour in 0..5 once the
      current hour is 18 or later, today's otherwise, also when the hour part
      does not read as an integer (`ValueError`). */
  function MatchDate(time: string, currentHour: int, today: string, tomorrow: string): (date: string)
    ensures date == today || date == tomorrow
  {
    match ParseInt(Split(time, ":")[0])
    case Some(h) => if 0 <= h <= 5 && currentHour >= 18 then tomorrow else today
    case None => today
  }

  /** For a printed `HH:MM` time the date is tomorrow's exactly when the
      hour is 00-05 and the current hour is 18 or later. */
  lemma MatchDateOfClock(hour: int, minute: int, currentHour: int, today: string, tomorrow: string)
    requires IsClock(hour, minute) && today != tomorrow
    ensures MatchDate(ClockString(hour, minute), currentHour, today, tomorrow) == tomorrow <==> hour <= 5 && currentHour >= 18
  {
    ClockStringParses(hour, minute);
  }

  /** The entry built for one group, or `None` when the group is skipped
      (invalid team names, or no http(s) link). */
  function EntryFor(g: Group, currentHour: int, today: string, tomorrow: string): Option<Match> {
    var names := TeamNames(g.title);
    if !IsValidTeamData(names.0, names.1) then None
    else
      var links := Dedup(Filter(g.urls, IsHttpUrl));
      if links == [] then None
      else
        Some(Match(g.title, Team(names.0, DefaultLogoUrl), Team(names.1, DefaultLogoUrl), g.time,
                   MatchDate(g.time, currentHour, today, tomorrow), links))
  }

  function EntryOf(currentHour: int, today: string, tomorrow: string): Group -> Option<Match> {
    g => EntryFor(g, currentHour, today, tomorrow)
  }

  /** The whole of `group_sportsonline_matches` as a function of its input. */
  function GroupedMatches(rows: seq<Row>, currentHour: int, today: string, tomorrow: string): seq<Match> {
    FilterMap(SortGroups(Groups(rows)), EntryOf(currentHour, today, tomorrow))
  }

  /** `group_sportsonline_matches`, with the current hour and today's and
      tomorrow's `DD-MM-YYYY` dates supplied by the caller. */
  method GroupSportsonlineMatches(parsedMatches: seq<Row>, currentHour: int, today: string, tomorrow: string)
    returns (matches: seq<Match>)
    ensures matches == GroupedMatches(parsedMatches, currentHour, today, tomorrow)
  {
    var groups := GroupRows(parsedMatches);
    var sortedGroups := SortGroups(groups);
    matches := [];
    for i := 0 to |sortedGroups|
      invariant matches == FilterMap(sortedGroups[..i], EntryOf(currentHour, today, tomorrow))
    {
      FilterMapTake(sortedGroups, i, EntryOf(currentHour, today, tomorrow));
      matches := AddEntry(matches, sortedGroups[i], currentHour, today, tomorrow);
    }
    assert sortedGroups[..|sortedGroups|] == sortedGroups;
  }

  /** The body of the loop over the sorted groups: the group's entry is
      appended unless the group is skipped. */
  method AddEntry(matches: seq<Match>, g: Group, currentHour: int, today: string, tomorrow: string)
    returns (matches': seq<Match>)
    ensures EntryFor(g, currentHour, today, tomorrow).None? ==> matches' == matches
    ensures EntryFor(g, currentHour, today, tomorrow).Some? ==> matches' == matches + [EntryFor(g, currentHour, today, tomorrow).value]
  {
    matches' := matches;
    var names := TeamNames(g.title);
    if !IsValidTeamData(names.0, names.1) {
      return;
    }
    var unique := UniqueHttpStreams(g.urls);
    if unique == [] {
      return;
    }
    var date := MatchDate(g.time, currentHour, today, tomorrow);
    matches' := matches + [Match(g.title, Team(names.0, DefaultLogoUrl), Team(names.1, DefaultLogoUrl), g.time, date, unique)];
  }

  /** When a group yields an entry, and what that entry holds. */
  lemma EntryForSpec(g: Group, currentHour: int, today: string, tomorrow: string)
    ensures EntryFor(g, currentHour, today, tomorrow).Some? <==>
      IsValidTeamData(TeamNames(g.title).0, TeamNames(g.title).1) && exists u :: u in g.urls && IsHttpUrl(u)
    ensures EntryFor(g, currentHour, today, tomorrow).Some? ==>
      var m := EntryFor(g, currentHour, today, tomorrow).value;
      && m.title == g.title && m.time == g.time
      && m.team1 == Team(TeamNames(g.title).0, DefaultLogoUrl)
      && m.team2 == Team(TeamNames(g.title).1, DefaultLogoUrl)
      && m.links == Dedup(Filter(g.urls, IsHttpUrl))
      && m.date == MatchDate(g.time, currentHour, today, tomorrow)
  {
    DedupFilterMembers(g.urls, IsHttpUrl);
    var links := Dedup(Filter(g.urls, IsHttpUrl));
    if links != [] {
      assert links[0] in links;
    }
  }

  function EntryKey(m: Match): int {
    SortKey(m.time)
  }

  /** The output is ordered by `sort_key` of the entry's time. */
  lemma GroupedMatchesSorted(rows: seq<Row>, currentHour: int, today: string, tomorrow: string)
    ensures var ms := GroupedMatches(rows, currentHour, today, tomorrow);
      forall i, j :: 0 <= i < j < |ms| ==> SortKey(ms[i].time) <= SortKey(ms[j].time)
  {
    var f := EntryOf(currentHour, today, tomorrow);
    forall g | f(g).Some?
      ensures EntryKey(f(g).value) == GroupKey(g)
    {
      EntryForSpec(g, currentHour, today, tomorrow);
    }
    var sorted := SortGroups(Groups(rows));
    SortBySpec(Groups(rows), GroupKey);
    FilterMapSorted(sorted, f, GroupKey, EntryKey);
    var ms := FilterMap(sorted, f);
    assert forall i, j :: 0 <= i < j < |ms| ==> EntryKey(ms[i]) <= EntryKey(ms[j]);
  }

  /** The group an output entry comes from. */
  lemma EntrySource(rows: seq<Row>, currentHour: int, today: string, tomorrow: string, m: Match)
    returns (j: nat)
    requires m in GroupedMatches(rows, currentHour, today, tomorrow)
    ensures j < |Groups(rows)| && EntryFor(Groups(rows)[j], currentHour, today, tomorrow) == Some(m)
  {
    j := FilterMapSortBySource(Groups(rows), GroupKey, EntryOf(currentHour, today, tomorrow), m);
  }

  /** Every output entry carries the time and title of some row, two valid
      team names with the default logo, and today's or tomorrow's date. */
  lemma GroupedEntryTeams(rows: seq<Row>, currentHour: int, today: string, tomorrow: string, m: Match)
    requires m in GroupedMatches(rows, currentHour, today, tomorrow)
    ensures (m.time, m.title) in Keys(rows)
    ensures IsValidTeamData(m.team1.name, m.team2.name)
    ensures m.team1.logoUrl == DefaultLogoUrl && m.team2.logoUrl == DefaultLogoUrl
    ensures m.date == today || m.date == tomorrow
  {
    var j := EntrySource(rows, currentHour, today, tomorrow, m);
    GroupsNonEmpty(rows, j);
    EntryForSpec(Groups(rows)[j], currentHour, today, tomorrow);
  }

  /** The links of an output entry are the distinct http(s) URLs of the rows
      with its time and title (`UrlsOfMembers`), in first-seen order: none
      missing, none repeated, never empty. */
  lemma GroupedEntryLinks(rows: seq<Row>, currentHour: int, today: string, tomorrow: string, m: Match)
    requires m in GroupedMatches(rows, currentHour, today, tomorrow)
    ensures m.links != [] && NoDuplicates(m.links)
    ensures m.links == Filter(Dedup(UrlsOf(rows, (m.time, m.title))), IsHttpUrl)
    ensures forall u :: u in m.links <==> IsHttpUrl(u) && u in UrlsOf(rows, (m.time, m.title))
  {
    var j := EntrySource(rows, currentHour, today, tomorrow, m);
    GroupsNonEmpty(rows, j);
    var g := Groups(rows)[j];
    EntryForSpec(g, currentHour, today, tomorrow);
    EntryLinks(g, UrlsOf(rows, (g.time, g.title)), m.links);
  }

  lemma EntryLinks(g: Group, urls: seq<string>, links: seq<string>)
    requires g.urls == urls && links == Dedup(Filter(g.urls, IsHttpUrl)) && links != []
    ensures NoDuplicates(links) && links == Filter(Dedup(urls), IsHttpUrl)
    ensures forall u :: u in links <==> IsHttpUrl(u) && u in urls
  {
    UniqueStreamsProperties(urls);
  }

  /** Every row whose title gives two valid team names and whose URL is
      http(s) shows up: some entry has its time and title and lists its URL. */
  lemma GroupedMatchesComplete(rows: seq<Row>, currentHour: int, today: string, tomorrow: string, i: nat)
    requires i < |rows|
    requires IsValidTeamData(TeamNames(rows[i].title).0, TeamNames(rows[i].title).1) && IsHttpUrl(rows[i].url)
    ensures exists m ::
      && m in GroupedMatches(rows, currentHour, today, tomorrow)
      && (m.time, m.title) == KeyOf(rows[i])
      && rows[i].url in m.links
  {
    var groups := Groups(rows);
    GroupsCover(rows, i);
    var j :| 0 <= j < |groups| && (groups[j].time, groups[j].title) == KeyOf(rows[i]);
    var g := groups[j];
    GroupsNonEmpty(rows, j);
    UrlsOfMembers(rows, KeyOf(rows[i]), rows[i].url);
    DedupFilterMembers(g.urls, IsHttpUrl);
    EntryForSpec(g, currentHour, today, tomorrow);
    FilterMapSortByKeeps(groups, GroupKey, EntryOf(currentHour, today, tomorrow), j);
    var m := EntryFor(g, currentHour, today, tomorrow).value;
    assert m in GroupedMatches(rows, currentHour, today, tomorrow);
    assert (m.time, m.title) == KeyOf(rows[i]) && rows[i].url in m.links;
  }
}
