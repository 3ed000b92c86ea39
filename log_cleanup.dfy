/**
 * `cleanup_old_logs`: the log file's lines are kept unless they begin with
 * a `YYYY-MM-DD HH:MM:SS` time stamp earlier than the cutoff. The file is
 * rewritten only when at least one line was dropped, and a stamp that is
 * not a real date and time aborts the whole cleanup before anything is
 * written.
 *
 * The lines as read from the file and the cutoff (three days before the
 * wall-clock time) are parameters.
 */
module LogCleanup {
  import opened PyStrings
  import opened Sequences
  import opened Optional
  import Calendar

  /** A naive `datetime`. */
  datatype DateTime = DateTime(year: int, month: int, day: int, hour: int, minute: int, second: int, microsecond: int)

  /** `datetime` comparison: field by field, the year first. */
  predicate Before(a: DateTime, b: DateTime) {
    if a.year != b.year then a.year < b.year
    else if a.month != b.month then a.month < b.month
    else if a.day != b.day then a.day < b.day
    else if a.hour != b.hour then a.hour < b.hour
    else if a.minute != b.minute then a.minute < b.minute
    else if a.second != b.second then a.second < b.second
    else a.microsecond < b.microsecond
  }

  /** `re.match(r'^(\d{4}-\d{2}-\d{2} \d{2}:\d{2}:\d{2})', line)` succeeds. */
  predicate HasTimestampPrefix(line: string) {
    && |line| >= 19
    && AllDigits(line[0..4]) && line[4] == '-'
    && AllDigits(line[5..7]) && line[7] == '-'
    && AllDigits(line[8..10]) && line[10] == ' '
    && AllDigits(line[11..13]) && line[13] == ':'
    && AllDigits(line[14..16]) && line[16] == ':'
    && AllDigits(line[17..19])
  }

  /** The fields `datetime` accepts: a year from 1, a day of its month, and
      a time of day without leap seconds. */
  predicate IsValidDateTime(year: int, month: int, day: int, hour: int, minute: int, second: int) {
    && 1 <= year && 1 <= month <= 12 && 1 <= day <= Calendar.DaysInMonth(year, month)
    && 0 <= hour <= 23 && 0 <= minute <= 59 && 0 <= second <= 59
  }

  /** `datetime.strptime(timestamp_match.group(1), '%Y-%m-%d %H:%M:%S')`:
      `None` where it raises `ValueError`. */
  function ParseTimestamp(line: string): (r: Option<DateTime>)
    requires HasTimestampPrefix(line)
    ensures r.Some? ==> r.value.microsecond == 0
  {
    var year := DecimalValue(line[0..4]);
    var month := DecimalValue(line[5..7]);
    var day := DecimalValue(line[8..10]);
    var hour := DecimalValue(line[11..13]);
    var minute := DecimalValue(line[14..16]);
    var second := DecimalValue(line[17..19]);
    if IsValidDateTime(year, month, day, hour, minute, second) then Some(DateTime(year, month, day, hour, minute, second, 0))
    else None
  }

  /** What the loop does with one line. */
  datatype Verdict = Keep | Remove | Invalid

  function LineVerdict(line: string, cutoff: DateTime): (v: Verdict)
    ensures v == Keep <==> !HasTimestampPrefix(line) || (ParseTimestamp(line).Some? && !Before(ParseTimestamp(line).value, cutoff))
    ensures v == Remove <==> HasTimestampPrefix(line) && ParseTimestamp(line).Some? && Before(ParseTimestamp(line).value, cutoff)
    ensures v == Invalid <==> HasTimestampPrefix(line) && ParseTimestamp(line).None?
  {
    if !HasTimestampPrefix(line) then Keep
    else match ParseTimestamp(line)
      case None => Invalid
      case Some(logDateTime) => if Before(logDateTime, cutoff) then Remove else Keep
  }

  /** `valid_lines` and `removed_count`. */
  datatype Kept = Kept(validLines: seq<string>, removedCount: nat)

  /** The loop over `lines`: `None` once a line raises. */
  function Scan(lines: seq<string>, cutoff: DateTime): Option<Kept> {
    if lines == [] then Some(Kept([], 0))
    else
      var line := lines[|lines| - 1];
      match Scan(lines[..|lines| - 1], cutoff)
      case None => None
      case Some(k) =>
        match LineVerdict(line, cutoff)
        case Invalid => None
        case Remove => Some(Kept(k.validLines, k.removedCount + 1))
        case Keep => Some(Kept(k.validLines + [line], k.removedCount))
  }

  /** What the cleanup does to the file. */
  datatype CleanupOutcome =
    | Aborted                                                  // an exception reached the handler; nothing written
    | NothingToRemove                                          // the file is left as it is
    | Rewritten(validLines: seq<string>, removedCount: nat)    // the file now holds `validLines`

  function CleanupOf(lines: seq<string>, cutoff: DateTime): CleanupOutcome {
    match Scan(lines, cutoff)
    case None => Aborted
    case Some(k) => if k.removedCount > 0 then Rewritten(k.validLines, k.removedCount) else NothingToRemove
  }

  // ----- the method -----

  /** `cleanup_old_logs` from the lines read to the decision to rewrite. */
  method CleanupOldLogs(lines: seq<string>, cutoff: DateTime) returns (outcome: CleanupOutcome)
    ensures outcome == CleanupOf(lines, cutoff)
  {
    var validLines: seq<string> := [];
    var removedCount: nat := 0;
    for n := 0 to |lines|
      invariant Scan(lines[..n], cutoff) == Some(Kept(validLines, removedCount))
    {
      var line := lines[n];
      assert lines[..n + 1][..n] == lines[..n];
      if HasTimestampPrefix(line) {
        var logDateTime := ParseTimestamp(line);
        if logDateTime.None? {
          ScanAborts(lines, cutoff);
          return Aborted;
        }
        if Before(logDateTime.value, cutoff) {
          removedCount := removedCount + 1;
          continue;
        }
      }
      validLines := validLines + [line];
    }
    assert lines[..|lines|] == lines;
    if removedCount > 0 {
      outcome := Rewritten(validLines, removedCount);
    } else {
      outcome := NothingToRemove;
    }
  }

  // ----- properties -----

  /** The loop aborts exactly when some line has a stamp that is not a real
      date and time. */
  lemma {:induction false} ScanAborts(lines: seq<string>, cutoff: DateTime)
    ensures Scan(lines, cutoff).None? <==> exists i :: 0 <= i < |lines| && LineVerdict(lines[i], cutoff) == Invalid
  {
    if lines != [] {
      ScanAborts(lines[..|lines| - 1], cutoff);
      ExistsSnoc(lines, line => LineVerdict(line, cutoff) == Invalid);
    }
  }

  /** The lines that are kept. */
  function KeptLines(lines: seq<string>, cutoff: DateTime): seq<string> {
    Filter(lines, line => LineVerdict(line, cutoff) == Keep)
  }

  /** When nothing aborts, the kept lines are the lines with verdict Keep, in
      their order, and every other line is counted as removed. */
  lemma {:induction false} ScanKeeps(lines: seq<string>, cutoff: DateTime)
    requires Scan(lines, cutoff).Some?
    ensures Scan(lines, cutoff).value.validLines == KeptLines(lines, cutoff)
    ensures Scan(lines, cutoff).value.removedCount == |lines| - |KeptLines(lines, cutoff)|
  {
    if lines != [] {
      var k := |lines| - 1;
      assert lines == lines[..k] + [lines[k]];
      ScanKeeps(lines[..k], cutoff);
      FilterSnoc(lines[..k], lines[k], line => LineVerdict(line, cutoff) == Keep);
    }
  }

  /** The file is rewritten exactly when no stamp aborts and some line is
      older than the cutoff; it then holds the kept lines in order, and
      `removed_count` is the number of lines dropped. */
  lemma CleanupRewrites(lines: seq<string>, cutoff: DateTime)
    ensures var outcome := CleanupOf(lines, cutoff);
      && (outcome.Aborted? <==> exists i :: 0 <= i < |lines| && LineVerdict(lines[i], cutoff) == Invalid)
      && (outcome.Rewritten? ==>
            && outcome.validLines == KeptLines(lines, cutoff)
            && outcome.removedCount == |lines| - |outcome.validLines| > 0)
      && (outcome.NothingToRemove? ==> KeptLines(lines, cutoff) == lines)
  {
    ScanAborts(lines, cutoff);
    var p := line => LineVerdict(line, cutoff) == Keep;
    if Scan(lines, cutoff).Some? {
      ScanKeeps(lines, cutoff);
      FilterMembers(lines, p);
      if CleanupOf(lines, cutoff).NothingToRemove? {
        FilterAll(lines, p);
      }
    }
  }

  /** A filter that drops nothing returns its input. */
  lemma {:induction false} FilterAll<T>(s: seq<T>, p: T -> bool)
    requires |Filter(s, p)| == |s|
    ensures Filter(s, p) == s
  {
    if s != [] {
      var k := |s| - 1;
      assert s == s[..k] + [s[k]];
      FilterSnoc(s[..k], s[k], p);
      FilterMembers(s[..k], p);
      FilterAll(s[..k], p);
    }
  }

  // ----- the log lines this service writes -----

  /** `%Y-%m-%d %H:%M:%S`, the start of `%(asctime)s`. */
  function FormatTimestamp(t: DateTime): (r: string)
    requires 0 <= t.year <= 9999 && 0 <= t.month <= 99 && 0 <= t.day <= 99
    requires 0 <= t.hour <= 99 && 0 <= t.minute <= 99 && 0 <= t.second <= 99
    ensures |r| == 19
  {
    Pad4(t.year) + "-" + Pad2(t.month) + "-" + Pad2(t.day) + " " + Pad2(t.hour) + ":" + Pad2(t.minute) + ":" + Pad2(t.second)
  }

  /** A line that starts with a printed time stamp reads back that time,
      to the second. */
  lemma FormattedLineParses(t: DateTime, rest: string)
    requires 1 <= t.year <= 9999 && IsValidDateTime(t.year, t.month, t.day, t.hour, t.minute, t.second)
    ensures HasTimestampPrefix(FormatTimestamp(t) + rest)
    ensures ParseTimestamp(FormatTimestamp(t) + rest) == Some(t.(microsecond := 0))
  {
    var line := FormatTimestamp(t) + rest;
    assert line[0..4] == Pad4(t.year);
    assert line[5..7] == Pad2(t.month);
    assert line[8..10] == Pad2(t.day);
    assert line[11..13] == Pad2(t.hour);
    assert line[14..16] == Pad2(t.minute);
    assert line[17..19] == Pad2(t.second);
    DecimalValuePad4(t.year);
    DecimalValuePad2(t.month);
    DecimalValuePad2(t.day);
    DecimalValuePad2(t.hour);
    DecimalValuePad2(t.minute);
    DecimalValuePad2(t.second);
  }

  /** Such a line is kept exactly when its time, to the second, is not
      earlier than the cutoff. */
  lemma FormattedLineVerdict(t: DateTime, rest: string, cutoff: DateTime)
    requires 1 <= t.year <= 9999 && IsValidDateTime(t.year, t.month, t.day, t.hour, t.minute, t.second)
    ensures LineVerdict(FormatTimestamp(t) + rest, cutoff) == if Before(t.(microsecond := 0), cutoff) then Remove else Keep
  {
    FormattedLineParses(t, rest);
  }
}
