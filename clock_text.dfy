/**
 * The two clock-text helpers of the scraper: reading an `H:M` string with
 * `map(int, time_str.split(':'))`, turning it into minutes since midnight
 * for sorting, and moving it one hour back (UTC+1 to UTC).
 */
module ClockText {
  import opened Optional
  import opened PyStrings

  /** `hour, minute = map(int, time_str.split(':'))`: `None` where Python
      raises `ValueError` (not exactly two pieces, or a piece that `int()`
      rejects). */
  function ParseHourMinute(timeStr: string): Option<(int, int)> {
    var parts := Split(timeStr, ":");
    if |parts| != 2 then None
    else
      match (ParseInt(parts[0]), ParseInt(parts[1]))
      case (Some(h), Some(m)) => Some((h, m))
      case _ => None
  }

  predicate IsClock(hour: int, minute: int) {
    0 <= hour <= 23 && 0 <= minute <= 59
  }

  /** The string reads as an hour and a minute that are both in range. */
  predicate IsValidClockText(timeStr: string) {
    ParseHourMinute(timeStr).Some? && IsClock(ParseHourMinute(timeStr).value.0, ParseHourMinute(timeStr).value.1)
  }

  /** `strftime("%H:%M")`. */
  function ClockString(hour: int, minute: int): (r: string)
    requires IsClock(hour, minute)
    ensures |r| == 5 && r[2] == ':'
  {
    Pad2(hour) + ":" + Pad2(minute)
  }

  /** `time_to_minutes`: minutes since midnight, 0 for text that does not
      read as a valid time. */
  function TimeToMinutes(timeStr: string): (r: int)
    ensures 0 <= r < 1440
    ensures !IsValidClockText(timeStr) ==> r == 0
  {
    if IsValidClockText(timeStr) then
      var hm := ParseHourMinute(timeStr).value;
      hm.0 * 60 + hm.1
    else 0
  }

  /** The clock reading one hour before a valid `(hour, minute)`:
      `(hour + 23) % 24`, minute unchanged. */
  function HourEarlier(hm: (int, int)): (r: (int, int))
    requires IsClock(hm.0, hm.1)
    ensures IsClock(r.0, r.1) && r.1 == hm.1
    ensures r.0 * 60 + r.1 == if hm.0 == 0 then hm.0 * 60 + hm.1 + 1440 - 60 else hm.0 * 60 + hm.1 - 60
  {
    if hm.0 == 0 then (23, hm.1) else (hm.0 - 1, hm.1)
  }

  /** `subtract_hour_from_time`: the time one hour earlier, wrapping past
      midnight; text that does not read as a valid time comes back as it is.
      (The date part of `datetime.now()` cancels out: only `%H:%M` is kept.) */
  function SubtractHourFromTime(timeStr: string): (r: string)
    ensures !IsValidClockText(timeStr) ==> r == timeStr
  {
    if IsValidClockText(timeStr) then
      var earlier := HourEarlier(ParseHourMinute(timeStr).value);
      ClockString(earlier.0, earlier.1)
    else timeStr
  }

  /** Two zero-padded numbers around a colon read back as those numbers. */
  lemma PaddedPairParses(hour: int, minute: int)
    requires 0 <= hour < 100 && 0 <= minute < 100
    ensures ParseHourMinute(Pad2(hour) + ":" + Pad2(minute)) == Some((hour, minute))
  {
    var a, b := Pad2(hour), Pad2(minute);
    assert Split(a + ":" + b, ":") == [a, b] by {
      assert ':' !in a && ':' !in b by {
        assert forall i :: 0 <= i < |a| ==> IsDigit(a[i]);
        assert forall i :: 0 <= i < |b| ==> IsDigit(b[i]);
      }
      SplitAroundChar(a, ':', b);
      assert a + ":" + b == a + [':'] + b;
    }
    ParseIntPad2(hour);
    ParseIntPad2(minute);
  }

  /** What `ClockString` prints reads back as the same hour and minute. */
  lemma ClockStringParses(hour: int, minute: int)
    requires IsClock(hour, minute)
    ensures ParseHourMinute(ClockString(hour, minute)) == Some((hour, minute))
    ensures IsValidClockText(ClockString(hour, minute))
  {
    PaddedPairParses(hour, minute);
  }

  lemma MinutesOfParsed(timeStr: string, hour: int, minute: int)
    requires ParseHourMinute(timeStr) == Some((hour, minute)) && IsClock(hour, minute)
    ensures IsValidClockText(timeStr) && TimeToMinutes(timeStr) == hour * 60 + minute
  {
  }

  /** A valid time comes back as text that reads as the hour before, same
      minute (so it is itself a valid time). */
  lemma SubtractHourIsOneHourEarlier(timeStr: string)
    requires IsValidClockText(timeStr)
    ensures ParseHourMinute(SubtractHourFromTime(timeStr)) == Some(HourEarlier(ParseHourMinute(timeStr).value))
  {
    var earlier := HourEarlier(ParseHourMinute(timeStr).value);
    ClockStringParses(earlier.0, earlier.1);
  }

  /** In `time_to_minutes` terms the result is 60 minutes earlier, wrapping
      to the previous day's last hour. */
  lemma SubtractHourMinutes(timeStr: string)
    requires IsValidClockText(timeStr)
    ensures var before := TimeToMinutes(timeStr);
      TimeToMinutes(SubtractHourFromTime(timeStr)) == if before >= 60 then before - 60 else before + 1440 - 60
  {
    var hm := ParseHourMinute(timeStr).value;
    var earlier := HourEarlier(hm);
    SubtractHourIsOneHourEarlier(timeStr);
    MinutesOfParsed(SubtractHourFromTime(timeStr), earlier.0, earlier.1);
    MinutesOfParsed(timeStr, hm.0, hm.1);
  }

  /** ... and it is zero-padded `HH:MM`: five characters, a colon in the middle. */
  lemma SubtractHourIsPadded(timeStr: string)
    requires IsValidClockText(timeStr)
    ensures |SubtractHourFromTime(timeStr)| == 5 && SubtractHourFromTime(timeStr)[2] == ':'
  {
  }

  /** `time_to_minutes` of printed `HH:MM` text is `60 * HH + MM`. */
  lemma TimeToMinutesOfClock(hour: int, minute: int)
    requires IsClock(hour, minute)
    ensures TimeToMinutes(ClockString(hour, minute)) == hour * 60 + minute
  {
    ClockStringParses(hour, minute);
    MinutesOfParsed(ClockString(hour, minute), hour, minute);
  }

  /** An hour or a minute out of range leaves the text unchanged: 24:00
      through 99:99 stay as they are. */
  lemma SubtractHourOutOfRange(hour: int, minute: int)
    requires 0 <= hour < 100 && 0 <= minute < 100 && !IsClock(hour, minute)
    ensures SubtractHourFromTime(Pad2(hour) + ":" + Pad2(minute)) == Pad2(hour) + ":" + Pad2(minute)
  {
    PaddedPairParses(hour, minute);
  }
}
