/**
 * `parse_sportsonline_data`: the sportsonline.gl programme is plain text in
 * weekday sections. A line equal to a weekday name (any case) opens that
 * day's section; channel headers such as `HD1 ENGLISH` are skipped; inside
 * the current day's section an event line `HH:MM Title | URL` with a
 * two-sided title becomes a row, its time moved one hour back.
 */
module Sportsonline {
  import opened Optional
  import opened PyStrings
  import opened ClockText
  import opened MatchData

  /** The section headers, in `datetime.weekday()` order. */
  const Weekdays: seq<string> := ["MONDAY", "TUESDAY", "WEDNESDAY", "THURSDAY", "FRIDAY", "SATURDAY", "SUNDAY"]

  /** `get_current_day`, with the weekday number of `datetime.now()`
      (0 is Monday) as a parameter. */
  function CurrentDay(weekday: nat): (day: string)
    requires weekday < 7
    ensures day in Weekdays && IsDayHeader(day)
  {
    var day := Weekdays[weekday];
    assert Upper(day) == day;
    day
  }

  /** One parsed event: adjusted time, title, stream URL. */
  datatype Row = Row(time: string, title: string, url: string)

  /** A piece of `split('\n')`: it holds no line break. */
  type Line = s: string | '\n' !in s

  /** `line.upper()` is one of the weekday names. */
  predicate IsDayHeader(line: string) {
    Upper(line) in Weekdays
  }

  lemma BlankIsNoDayHeader()
    ensures !IsDayHeader("")
  {
    assert |Upper("")| == 0;
  }

  predicate IsAsciiUpper(c: char) {
    'A' <= c <= 'Z'
  }

  /** The end of the longest run of characters satisfying `p` that starts at
      `start`. */
  function SpanEnd(s: string, start: nat, p: char -> bool): (e: nat)
    requires start <= |s|
    ensures start <= e <= |s|
    ensures forall k :: start <= k < e ==> p(s[k])
    ensures e == |s| || !p(s[e])
    decreases |s| - start
  {
    if start < |s| && p(s[start]) then SpanEnd(s, start + 1, p) else start
  }

  /** A run that ends where `p` first fails is the one `SpanEnd` finds. */
  lemma {:induction false} SpanEndAt(s: string, start: nat, p: char -> bool, e: nat)
    requires start <= e <= |s|
    requires forall k :: start <= k < e ==> p(s[k])
    requires e == |s| || !p(s[e])
    ensures SpanEnd(s, start, p) == e
    decreases e - start
  {
    if start < e {
      SpanEndAt(s, start + 1, p, e);
    }
  }

  /** `re.match(r'^(HD|BR)\d+\s+[A-Z]+$', line)` on a line that does not end
      in a line break. Neither `\d+` nor `\s+` can give characters back to
      the next item, so the longest runs decide the match. */
  predicate IsChannelHeader(line: string) {
    && |line| >= 2 && (line[..2] == "HD" || line[..2] == "BR")
    && var digitsEnd := SpanEnd(line, 2, IsDigit);
      && digitsEnd > 2
      && var spacesEnd := SpanEnd(line, digitsEnd, IsSpace);
        && spacesEnd > digitsEnd && spacesEnd < |line|
        && forall k :: spacesEnd <= k < |line| ==> IsAsciiUpper(line[k])
  }

  /** Text that `\d{1,2}:\d{2}` matches in full. */
  predicate IsTimePattern(t: string) {
    && (|t| == 4 || |t| == 5) && t[|t| - 3] == ':'
    && forall k :: 0 <= k < |t| && k != |t| - 3 ==> IsDigit(t[k])
  }

  /** How many digits `\d{1,2}` takes before the colon: 2, 1, or 0 where no
      colon follows one or two digits. */
  function HourDigits(left: string): nat {
    if |left| >= 3 && IsDigit(left[0]) && IsDigit(left[1]) && left[2] == ':' then 2
    else if |left| >= 2 && IsDigit(left[0]) && left[1] == ':' then 1
    else 0
  }

  /** `re.match(r'^(\d{1,2}:\d{2})\s+(.+)$', left)` on text without line
      breaks: the two groups. Group 2 begins after the whole run of
      whitespace, except when that run reaches the end of the text: then
      `\s+` gives back its last character for `.+`. */
  function MatchTimeTitle(left: string): (r: Option<(string, string)>)
    requires '\n' !in left
    ensures r.Some? ==> IsTimePattern(r.value.0) && r.value.1 != []
    ensures r.Some? ==> |r.value.0| + |r.value.1| < |left|
    ensures r.Some? ==> StartsWith(left, r.value.0) && EndsWith(left, r.value.1)
    ensures r.Some? ==> AllSpace(left[|r.value.0|..|left| - |r.value.1|])
    ensures r.Some? ==> !IsSpace(r.value.1[0]) || |r.value.1| == 1
  {
    var d := HourDigits(left);
    if d == 0 || |left| < d + 3 || !IsDigit(left[d + 1]) || !IsDigit(left[d + 2]) then None
    else
      var p := d + 3;
      var q := SpanEnd(left, p, IsSpace);
      if q == p then None
      else if q < |left| then Some((left[..p], left[q..]))
      else if q - p >= 2 then Some((left[..p], left[q - 1..]))
      else None
  }

  /** Conversely, a time, some whitespace and a title that starts with a
      non-space character are matched as those two groups. */
  lemma TimeTitleMatches(t: string, w: string, g: string)
    requires IsTimePattern(t) && w != [] && AllSpace(w) && g != [] && !IsSpace(g[0])
    requires '\n' !in t + w + g
    ensures MatchTimeTitle(t + w + g) == Some((t, g))
  {
    var left := t + w + g;
    assert left[|t| - 3] == ':';
    assert HourDigits(left) == |t| - 3;
    assert left[|t| - 2] == t[|t| - 2] && left[|t| - 1] == t[|t| - 1];
    SpanEndAt(left, |t|, IsSpace, |t| + |w|);
    assert left[..|t|] == t && left[|t| + |w|..] == g;
  }

  /** The title after `:`-free and two-sided checks: split on " vs " if it
      occurs, otherwise on " x ". */
  function TeamSides(title: string): (teams: seq<string>)
    ensures |teams| >= 1
  {
    if Contains(title, " vs ") then Split(title, " vs ") else Split(title, " x ")
  }

  /** The title tests of `parse_sportsonline_data`: no colon, " vs " or " x "
      in it, and exactly two non-blank sides. */
  predicate IsAcceptedTitle(title: string) {
    && ':' !in title
    && (Contains(title, " vs ") || Contains(title, " x "))
    && |TeamSides(title)| == 2
    && Strip(TeamSides(title)[0]) != "" && Strip(TeamSides(title)[1]) != ""
  }

  /** The shape tests on one stripped line: a `|`, an http(s) URL after it
      and `time  title` before it. The time, the stripped title and the URL. */
  function EventParts(line: string): (r: Option<(string, string, string)>)
    requires '\n' !in line
    ensures r.Some? ==> IsTimePattern(r.value.0) && IsHttpUrl(r.value.2)
    ensures r.Some? ==> r.value.1 == Strip(r.value.1)
  {
    if !Contains(line, "|") then None
    else
      var parts := SplitOnce(line, "|");
      if |parts| != 2 then None
      else
        var leftPart := Strip(parts[0]);
        var streamUrl := Strip(parts[1]);
        SplitOnceAvoids(line, "|", '\n');
        StripAvoids(parts[0], '\n');
        if !IsHttpUrl(streamUrl) then None
        else
          var timeMatch := MatchTimeTitle(leftPart);
          if timeMatch.None? then None
          else
            var title := Strip(timeMatch.value.1);
            StripNoop(title);
            Some((timeMatch.value.0, title, streamUrl))
  }

  lemma VsHasNoColon()
    ensures ':' !in " vs "
  {
  }

  /** One event line inside the current day's section: the row it yields,
      if it passes every test. */
  function ParseEventLine(line: Line): (r: Option<Row>)
    ensures r.Some? ==> IsHttpUrl(r.value.url) && ':' !in r.value.title
  {
    var parts := EventParts(line);
    if parts.None? || !IsAcceptedTitle(parts.value.1) then None
    else
      VsHasNoColon();
      ReplaceAvoids(parts.value.1, " x ", " vs ", ':');
      Some(Row(SubtractHourFromTime(parts.value.0), Replace(parts.value.1, " x ", " vs "), parts.value.2))
  }

  /** A line yields a row exactly when its parts have an accepted title; the
      row keeps the URL, writes " x " as " vs ", and carries the time one
      hour earlier when it is a valid clock time and unchanged otherwise. */
  lemma EventLineRow(line: Line)
    ensures ParseEventLine(line).Some? <==> EventParts(line).Some? && IsAcceptedTitle(EventParts(line).value.1)
    ensures ParseEventLine(line).Some? ==>
      var parts := EventParts(line).value;
      var row := ParseEventLine(line).value;
      && row.url == parts.2
      && row.title == Replace(parts.1, " x ", " vs ")
      && (IsValidClockText(parts.0) ==> ParseHourMinute(row.time) == Some(HourEarlier(ParseHourMinute(parts.0).value)))
      && (!IsValidClockText(parts.0) ==> row.time == parts.0)
  {
    if ParseEventLine(line).Some? && IsValidClockText(EventParts(line).value.0) {
      SubtractHourIsOneHourEarlier(EventParts(line).value.0);
    }
  }

  /** What one stripped line contributes when it is read inside the current
      day's section: nothing for a blank line, a weekday header or a channel
      header, otherwise what the event-line parser makes of it. */
  function LineRow(line: Line, parseEvent: Line -> Option<Row>): (r: Option<Row>)
    ensures r.Some? ==> line != "" && !IsDayHeader(line) && !IsChannelHeader(line) && r == parseEvent(line)
  {
    if line == "" || IsDayHeader(line) || IsChannelHeader(line) then None else parseEvent(line)
  }

  /** `raw_data.strip().split('\n')`. */
  function Lines(rawData: string): (lines: seq<Line>)
  {
    SplitPiecesAvoid(Strip(rawData), '\n');
    Split(Strip(rawData), "\n")
  }

  /** The lines as the loop sees them, each `line.strip()`ped. */
  function Stripped(lines: seq<Line>): (stripped: seq<Line>)
    ensures |stripped| == |lines|
    ensures forall k :: 0 <= k < |stripped| ==> stripped[k] == Strip(lines[k])
  {
    forall k | 0 <= k < |lines|
      ensures '\n' !in Strip(lines[k])
    {
      StripAvoids(lines[k], '\n');
    }
    seq(|lines|, k requires 0 <= k < |lines| => Strip(lines[k]))
  }

  /** `in_current_day_section` after the first `n` (stripped) lines: set by
      the last weekday header seen, false before any. */
  function SectionFlag(lines: seq<Line>, day: string, n: nat): bool
    requires n <= |lines|
  {
    if n == 0 then false
    else if IsDayHeader(lines[n - 1]) then Upper(lines[n - 1]) == day
    else SectionFlag(lines, day, n - 1)
  }

  /** Line `i` lies in the current day's section: some earlier line is the
      header of that day and no header comes between. */
  ghost predicate InDaySection(lines: seq<Line>, day: string, i: nat)
    requires i <= |lines|
  {
    exists h :: 0 <= h < i && IsDayHeader(lines[h]) && Upper(lines[h]) == day
      && forall j :: h < j < i ==> !IsDayHeader(lines[j])
  }

  /** The flag the loop keeps is exactly the section condition. */
  lemma {:induction false} SectionFlagMeansInSection(lines: seq<Line>, day: string, n: nat)
    requires n <= |lines|
    ensures SectionFlag(lines, day, n) <==> InDaySection(lines, day, n)
  {
    if n > 0 {
      SectionFlagMeansInSection(lines, day, n - 1);
      if IsDayHeader(lines[n - 1]) {
        InSectionAtHeader(lines, day, n);
      } else {
        InSectionPastLine(lines, day, n);
      }
    }
  }

  /** Just after a weekday header, the section is open exactly when that
      header names the day. */
  lemma InSectionAtHeader(lines: seq<Line>, day: string, n: nat)
    requires 0 < n <= |lines| && IsDayHeader(lines[n - 1])
    ensures InDaySection(lines, day, n) <==> Upper(lines[n - 1]) == day
  {
    if Upper(lines[n - 1]) == day {
      assert IsDayHeader(lines[n - 1]) && Upper(lines[n - 1]) == day;
    }
    if InDaySection(lines, day, n) {
      var h :| 0 <= h < n && IsDayHeader(lines[h]) && Upper(lines[h]) == day
        && forall j :: h < j < n ==> !IsDayHeader(lines[j]);
      assert h == n - 1;
    }
  }

  /** Any other line leaves the section as it was. */
  lemma InSectionPastLine(lines: seq<Line>, day: string, n: nat)
    requires 0 < n <= |lines| && !IsDayHeader(lines[n - 1])
    ensures InDaySection(lines, day, n) <==> InDaySection(lines, day, n - 1)
  {
    if InDaySection(lines, day, n) {
      var h :| 0 <= h < n && IsDayHeader(lines[h]) && Upper(lines[h]) == day
        && forall j :: h < j < n ==> !IsDayHeader(lines[j]);
      assert h < n - 1;
    }
    if InDaySection(lines, day, n - 1) {
      var h :| 0 <= h < n - 1 && IsDayHeader(lines[h]) && Upper(lines[h]) == day
        && forall j :: h < j < n - 1 ==> !IsDayHeader(lines[j]);
      assert forall j :: h < j < n ==> !IsDayHeader(lines[j]);
    }
  }

  /** The rows of the first `n` stripped lines, in line order: each line's
      `LineRow`, taken while the current day's section is open. */
  function Rows(lines: seq<Line>, day: string, n: nat, parseEvent: Line -> Option<Row>): seq<Row>
    requires n <= |lines|
  {
    if n == 0 then []
    else
      var row := LineRow(lines[n - 1], parseEvent);
      Rows(lines, day, n - 1, parseEvent) + (if SectionFlag(lines, day, n - 1) && row.Some? then [row.value] else [])
  }

  /** The loop of `parse_sportsonline_data` over the stripped lines, for
      any parser of one event line. */
  method ScanLines(lines: seq<Line>, currentDay: string, parseEvent: Line -> Option<Row>) returns (matches: seq<Row>)
    ensures matches == Rows(lines, currentDay, |lines|, parseEvent)
  {
    var inCurrentDaySection := false;
    matches := [];
    for i := 0 to |lines|
      invariant inCurrentDaySection == SectionFlag(lines, currentDay, i)
      invariant matches == Rows(lines, currentDay, i, parseEvent)
    {
      var line := lines[i];
      if line == "" {
        BlankIsNoDayHeader();
      } else if Upper(line) in Weekdays {
        inCurrentDaySection := Upper(line) == currentDay;
      } else if IsChannelHeader(line) {
      } else if !inCurrentDaySection {
      } else {
        var row := parseEvent(line);
        if row.Some? {
          matches := matches + [row.value];
        }
      }
    }
  }

  /** `parse_sportsonline_data`, with `get_current_day()` as `currentDay`:
      the scan of the stripped lines with `ParseEventLine` for the event
      lines (`line.strip()` is pure, so every line is stripped up front).
      The `except Exception` branch cannot be reached for a string input. */
  method ParseSportsonlineData(rawData: string, currentDay: string) returns (matches: seq<Row>)
    ensures matches == Rows(Stripped(Lines(rawData)), currentDay, |Lines(rawData)|, ParseEventLine)
  {
    matches := ScanLines(Stripped(Lines(rawData)), currentDay, ParseEventLine);
  }

  /** Every row comes from a line read inside the section, and every such
      line with a row contributes it. */
  lemma {:induction false} RowsFromSection(lines: seq<Line>, day: string, n: nat, parseEvent: Line -> Option<Row>)
    requires n <= |lines|
    ensures forall r :: r in Rows(lines, day, n, parseEvent) <==>
      exists i :: 0 <= i < n && SectionFlag(lines, day, i) && LineRow(lines[i], parseEvent) == Some(r)
  {
    if n > 0 {
      RowsFromSection(lines, day, n - 1, parseEvent);
      var earlier := Rows(lines, day, n - 1, parseEvent);
      forall r | r in Rows(lines, day, n, parseEvent)
        ensures exists i :: 0 <= i < n && SectionFlag(lines, day, i) && LineRow(lines[i], parseEvent) == Some(r)
      {
        if r in earlier {
          var i :| 0 <= i < n - 1 && SectionFlag(lines, day, i) && LineRow(lines[i], parseEvent) == Some(r);
          assert 0 <= i < n;
        } else {
          assert SectionFlag(lines, day, n - 1) && LineRow(lines[n - 1], parseEvent) == Some(r);
        }
      }
      forall r, i | 0 <= i < n && SectionFlag(lines, day, i) && LineRow(lines[i], parseEvent) == Some(r)
        ensures r in Rows(lines, day, n, parseEvent)
      {
        if i < n - 1 {
          assert r in earlier;
        }
      }
    }
  }

  /** What the parser returns: each row has an http(s) URL and a colon-free
      title, and was read by `ParseEventLine` from a line inside the current
      day's section that is neither a header nor blank. */
  lemma ParsedRowsComeFromDaySection(rawData: string, day: string, r: Row)
    requires r in Rows(Stripped(Lines(rawData)), day, |Lines(rawData)|, ParseEventLine)
    ensures IsHttpUrl(r.url) && ':' !in r.title
    ensures exists i ::
      && 0 <= i < |Lines(rawData)| && InDaySection(Stripped(Lines(rawData)), day, i)
      && Stripped(Lines(rawData))[i] != "" && !IsDayHeader(Stripped(Lines(rawData))[i])
      && !IsChannelHeader(Stripped(Lines(rawData))[i]) && ParseEventLine(Stripped(Lines(rawData))[i]) == Some(r)
  {
    var lines := Stripped(Lines(rawData));
    RowsFromSection(lines, day, |lines|, ParseEventLine);
    var i :| 0 <= i < |lines| && SectionFlag(lines, day, i) && LineRow(lines[i], ParseEventLine) == Some(r);
    SectionFlagMeansInSection(lines, day, i);
    assert lines[i] != "" && !IsDayHeader(lines[i]) && !IsChannelHeader(lines[i]);
    assert ParseEventLine(lines[i]) == Some(r);
  }

  /** Every line of the current day's section that is not a header and that
      `ParseEventLine` accepts contributes its row. */
  lemma DaySectionRowsAreParsed(rawData: string, day: string, i: nat)
    requires i < |Lines(rawData)|
    requires InDaySection(Stripped(Lines(rawData)), day, i)
    requires !IsDayHeader(Stripped(Lines(rawData))[i]) && !IsChannelHeader(Stripped(Lines(rawData))[i])
    requires ParseEventLine(Stripped(Lines(rawData))[i]).Some?
    ensures ParseEventLine(Stripped(Lines(rawData))[i]).value in Rows(Stripped(Lines(rawData)), day, |Lines(rawData)|, ParseEventLine)
  {
    var lines := Stripped(Lines(rawData));
    SectionFlagMeansInSection(lines, day, i);
    assert LineRow(lines[i], ParseEventLine) == ParseEventLine(lines[i]);
    RowsFromSection(lines, day, |lines|, ParseEventLine);
  }

  /** A day name that heads no section (anything but the seven weekday
      names) selects nothing. */
  lemma {:induction false} NoRowsForUnknownDay(lines: seq<Line>, day: string, n: nat, parseEvent: Line -> Option<Row>)
    requires n <= |lines| && day !in Weekdays
    ensures !SectionFlag(lines, day, n) && Rows(lines, day, n, parseEvent) == []
  {
    if n > 0 {
      NoRowsForUnknownDay(lines, day, n - 1, parseEvent);
    }
  }
}
