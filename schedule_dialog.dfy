/**
 * The time list behind the refresh-time dialog (time_schedule_dialog.py),
 * without its widgets. An entry is a clock time `H:M` or `H:M:S`; an entry
 * that starts with the marker `*` repeats every day, any other fires once.
 */
module ScheduleDialog {
  import opened Wrappers
  import opened Strings
  import opened Decimal
  import opened Lists
  import opened Clock

  /** `_validate_time_format`: a colon, two or three integer fields, each in range (seconds 0 when absent). */
  predicate ValidTimeFormat(t: string) {
    if ':' !in t then false
    else
      var parts := Split(t, ':');
      if !(2 <= |parts| <= 3) then false
      else
        var h, m := ParseInt(parts[0]), ParseInt(parts[1]);
        var s := if |parts| == 3 then ParseInt(parts[2]) else Some(0);
        && h.Some? && m.Some? && s.Some?
        && 0 <= h.value < 24 && 0 <= m.value < 60 && 0 <= s.value < 60
  }

  /**
   * The normalisation inside `add_time`: the zero-padded form of a valid time
   * with as many fields as the input had, or None when the input is rejected.
   * The source repeats the checks of `_validate_time_format` here rather than
   * calling it; the two agree on every input.
   */
  function NormalizeTime(t: string): (r: Option<string>)
    ensures r.Some? <==> ValidTimeFormat(t)
  {
    if ':' in t then
      var parts := Split(t, ':');
      if 2 <= |parts| <= 3 then
        var h, m := ParseInt(parts[0]), ParseInt(parts[1]);
        var s := if |parts| == 3 then ParseInt(parts[2]) else Some(0);
        if h.Some? && m.Some? && s.Some? then
          if 0 <= h.value < 24 && 0 <= m.value < 60 && 0 <= s.value < 60 then
            if |parts| == 2 then Some(ClockMinutes(h.value, m.value))
            else Some(ClockSeconds(h.value, m.value, s.value))
          else None
        else None
      else None
    else None
  }

  /**
   * The form `add_time` stores is canonical: it is valid, normalising it again
   * changes nothing, it has the input's number of fields, and each field reads
   * back as the input's value.
   */
  lemma {:induction false} NormalizeCanonical(t: string)
    requires NormalizeTime(t).Some?
    ensures var c := NormalizeTime(t).value;
      && ValidTimeFormat(c)
      && NormalizeTime(c) == Some(c)
      && |Split(c, ':')| == |Split(t, ':')|
      && forall k :: 0 <= k < |Split(t, ':')| ==> ParseInt(Split(c, ':')[k]) == ParseInt(Split(t, ':')[k])
  {
    var parts := Split(t, ':');
    var h, m := ParseInt(parts[0]).value, ParseInt(parts[1]).value;
    if |parts| == 2 {
      ClockMinutesSplit(h, m);
      assert ':' in ClockMinutes(h, m) by { SplitMany(ClockMinutes(h, m), ':'); }
    } else {
      var s := ParseInt(parts[2]).value;
      ClockSecondsSplit(h, m, s);
      assert ':' in ClockSeconds(h, m, s) by { SplitMany(ClockSeconds(h, m, s), ':'); }
    }
  }

  /** `H:M`, both fields free of colons: accepted exactly when both are integers in range, then zero-padded. */
  lemma {:induction false} NormalizeTwoFields(hs: string, ms: string)
    requires ':' !in hs && ':' !in ms
    ensures var h, m := ParseInt(hs), ParseInt(ms);
      NormalizeTime(hs + ":" + ms) ==
        if h.Some? && m.Some? && 0 <= h.value < 24 && 0 <= m.value < 60
        then Some(ClockMinutes(h.value, m.value)) else None
  {
    SplitAfter(hs, ':', ms);
    SplitNone(ms, ':');
    assert (hs + ":" + ms)[|hs|] == ':';
  }

  /** `H:M:S` likewise, with the seconds in range too. */
  lemma {:induction false} NormalizeThreeFields(hs: string, ms: string, ss: string)
    requires ':' !in hs && ':' !in ms && ':' !in ss
    ensures var h, m, sec := ParseInt(hs), ParseInt(ms), ParseInt(ss);
      NormalizeTime(hs + ":" + ms + ":" + ss) ==
        if h.Some? && m.Some? && sec.Some? && 0 <= h.value < 24 && 0 <= m.value < 60 && 0 <= sec.value < 60
        then Some(ClockSeconds(h.value, m.value, sec.value)) else None
  {
    assert hs + ":" + ms + ":" + ss == hs + [':'] + (ms + [':'] + ss);
    SplitAfter(hs, ':', ms + [':'] + ss);
    SplitAfter(ms, ':', ss);
    SplitNone(ss, ':');
    assert (hs + ":" + ms + ":" + ss)[|hs|] == ':';
  }

  /** `add_time("9:5")` stores `09:05`. */
  lemma {:induction false} NormalizePads(hs: string, ms: string)
    requires hs == "9" && ms == "5"
    ensures NormalizeTime(hs + ":" + ms) == Some("09:05")
  {
    NormalizeTwoFields(hs, ms);
    ParseDigit('9');
    ParseDigit('5');
    assert Format02(9) == "09" && Format02(5) == "05";
    assert ClockMinutes(9, 5) == "09" + ":" + "05" == "09:05";
  }

  /** The repeat marker. */
  predicate IsRepeating(t: string) {
    |t| > 0 && t[0] == '*'
  }

  predicate IsOneShot(t: string) {
    !IsRepeating(t)
  }

  /** The entry without its marker: `t[1:]` when it starts with `*`. */
  function StripMarker(t: string): string {
    if IsRepeating(t) then t[1..] else t
  }

  /** `*` + the time when `repeating`, else the time itself. */
  function Marked(time: string, repeating: bool): string {
    if repeating then "*" + time else time
  }

  /** An entry the list keeps: its marker-stripped form is a valid time. */
  predicate ValidEntry(t: string) {
    ValidTimeFormat(StripMarker(t))
  }

  /** A valid time never starts with the marker: its first field would not be an integer. */
  lemma {:induction false} ValidTimeIsOneShot(t: string)
    requires ValidTimeFormat(t)
    ensures !IsRepeating(t)
  {
    if |t| > 0 && t[0] != ':' {
      SplitHead(t, ':');
    }
  }

  /** A time typed with the marker is rejected: `add_time` does not strip it. */
  lemma {:induction false} NormalizeRejectsMarker(t: string)
    requires IsRepeating(t)
    ensures NormalizeTime(t) == None
  {
    if ValidTimeFormat(t) {
      ValidTimeIsOneShot(t);
    }
  }

  /** Marking a valid time gives an entry whose marker and time decode back. */
  lemma {:induction false} MarkedDecodes(time: string, repeating: bool)
    requires ValidTimeFormat(time)
    ensures ValidEntry(Marked(time, repeating))
    ensures IsRepeating(Marked(time, repeating)) == repeating
    ensures StripMarker(Marked(time, repeating)) == time
  {
    ValidTimeIsOneShot(time);
    assert ("*" + time)[1..] == time;
  }

  /** A record of `get_times_with_repeat`. */
  datatype TimeEntry = TimeEntry(time: string, repeating: bool)

  /** The stored string a record stands for. */
  function Encode(e: TimeEntry): string {
    Marked(e.time, e.repeating)
  }

  /**
   * The record `get_times_with_repeat` makes of one entry: None when the
   * entry's marker-stripped form is not a valid time, otherwise a record that
   * encodes back to the entry.
   */
  function Record(t: string): (r: Option<TimeEntry>)
    ensures r.Some? <==> ValidEntry(t)
    ensures r.Some? ==> ValidTimeFormat(r.value.time) && r.value.repeating == IsRepeating(t) && Encode(r.value) == t
  {
    if ValidEntry(t) then
      if IsRepeating(t) then
        assert "*" + t[1..] == t;
        Some(TimeEntry(t[1..], true))
      else
        ValidTimeIsOneShot(t);
        Some(TimeEntry(t, false))
    else None
  }

  /** The records `get_times_with_repeat` returns, in list order. */
  function RepeatRecords(ts: seq<string>): (r: seq<TimeEntry>)
    ensures |r| <= |ts|
    ensures forall k :: 0 <= k < |r| ==> ValidTimeFormat(r[k].time)
  {
    FilterMapAll(ts, Record, (e: TimeEntry) => ValidTimeFormat(e.time));
    FilterMap(ts, Record)
  }

  /**
   * `get_times_with_repeat` yields exactly one record per entry whose
   * marker-stripped form is valid, in list order; a record repeats iff its
   * entry starts with `*`, holds the entry without the `*`, and encodes back
   * to the entry.
   */
  lemma {:induction false} RepeatRecordsDecode(ts: seq<string>)
    ensures var r, kept := RepeatRecords(ts), Filter(ts, ValidEntry);
      && |r| == |kept|
      && forall k :: 0 <= k < |r| ==>
           && r[k].repeating == IsRepeating(kept[k])
           && r[k].time == StripMarker(kept[k])
           && Encode(r[k]) == kept[k]
  {
    FilterMapSpec(ts, Record, ValidEntry);
  }

  /** The filtered list is valid, and it is the list itself when it has the list's length. */
  lemma {:induction false} KeepWhenAllKept(ts: seq<string>, kept: seq<string>)
    requires kept == Filter(ts, ValidEntry)
    ensures forall k :: 0 <= k < |kept| ==> ValidEntry(kept[k])
    ensures |kept| == |ts| ==> kept == ts
  {
  }

  /** Appending a valid entry to valid entries keeps them all valid, so the filter keeps them all. */
  lemma {:induction false} ValidAppend(ts: seq<string>, t: string)
    requires forall k :: 0 <= k < |ts| ==> ValidEntry(ts[k])
    requires ValidEntry(t)
    ensures forall k :: 0 <= k < |ts + [t]| ==> ValidEntry((ts + [t])[k])
    ensures Filter(ts + [t], ValidEntry) == ts + [t]
  {
    var u := ts + [t];
    assert forall k :: 0 <= k < |u| ==> ValidEntry(u[k]);
    FilterAll(u, ValidEntry);
  }

  /** The number of entries starting with `*`, as `update_status` counts them. */
  function RepeatCount(ts: seq<string>): (n: nat)
    ensures n <= |ts|
  {
    if |ts| == 0 then 0
    else RepeatCount(ts[..|ts| - 1]) + (if IsRepeating(ts[|ts| - 1]) then 1 else 0)
  }

  lemma {:induction false} RepeatCountFilter(ts: seq<string>)
    ensures RepeatCount(ts) == |Filter(ts, IsRepeating)|
  {
    if |ts| > 0 {
      RepeatCountFilter(ts[..|ts| - 1]);
    }
  }

  /** The status line's figures: all entries, one-shot entries, repeating entries. */
  datatype StatusCounts = StatusCounts(total: nat, oneShot: nat, repeating: nat)

  /**
   * The time list of the dialog. Every entry is kept valid: the only ways in
   * are the constructor, which filters, and `AddTime`, which normalises.
   */
  class TimeScheduleDialog {
    var times: seq<string>

    ghost predicate Valid()
      reads this
    {
      forall i :: 0 <= i < |times| ==> ValidEntry(times[i])
    }

    /**
     * `__init__`: keeps the given entries that pass `_validate_time_format`
     * as they stand, so an entry marked `*` is dropped, then runs
     * `update_time_list` as `init_ui` does.
     */
    constructor (currentTimes: seq<string>)
      ensures Valid()
      ensures times == Filter(currentTimes, ValidTimeFormat)
    {
      times := Filter(currentTimes, ValidTimeFormat);
      new;
      forall i | 0 <= i < |times| ensures ValidEntry(times[i]) {
        ValidTimeIsOneShot(times[i]);
      }
      FilterAll(times, ValidEntry);
      UpdateTimeList();
    }

    /**
     * `update_time_list`: keeps, in their order, the entries whose
     * marker-stripped form is valid (the list is reassigned only when
     * something was dropped).
     */
    method UpdateTimeList()
      modifies this
      ensures Valid()
      ensures times == Filter(old(times), ValidEntry)
    {
      var current := times;
      var validTimes: seq<string> := [];
      for i := 0 to |current|
        invariant times == current
        invariant validTimes == Filter(current[..i], ValidEntry)
      {
        var timeItem := current[i];
        // A leading `*` marks a repeating entry; the time itself follows it.
        var checkTime := StripMarker(timeItem);
        FilterPrefix(current, i, ValidEntry);
        if ValidTimeFormat(checkTime) {
          validTimes := validTimes + [timeItem];
        }
      }
      assert current[..|current|] == current;
      KeepWhenAllKept(current, validTimes);
      if |validTimes| != |current| {
        times := validTimes;
      }
    }

    /**
     * `add_time(time_str, repeating)`: stores the canonical form of the time,
     * marked when repeating, at the end of the list unless that exact string
     * is already there; a malformed or duplicate time changes nothing.
     */
    method AddTime(timeStr: string, repeating: bool) returns (ok: bool)
      requires Valid()
      modifies this
      ensures Valid()
      ensures ok <==> NormalizeTime(timeStr).Some? && Marked(NormalizeTime(timeStr).value, repeating) !in old(times)
      ensures ok ==> times == old(times) + [Marked(NormalizeTime(timeStr).value, repeating)]
      ensures !ok ==> times == old(times)
      ensures NoDuplicates(old(times)) ==> NoDuplicates(times)
    {
      var validTime := NormalizeTime(timeStr);
      if validTime.None? {
        return false;
      }
      NormalizeCanonical(timeStr);
      var finalTime := validTime.value;
      if repeating {
        finalTime := "*" + validTime.value;
      }
      var current := times;
      if finalTime !in current {
        MarkedDecodes(validTime.value, repeating);
        assert finalTime == Marked(validTime.value, repeating);
        NoDuplicatesAppend(current, finalTime);
        var updated := current + [finalTime];
        ValidAppend(current, finalTime);
        times := updated;
        UpdateTimeList();
        return true;
      } else {
        return false;
      }
    }

    /** `clear_all_times`: empties the list (already empty: nothing to do). */
    method ClearAllTimes()
      modifies this
      ensures Valid()
      ensures times == []
    {
      if |times| == 0 {
        return;
      }
      times := [];
      UpdateTimeList();
    }

    /**
     * `get_times`: a rearrangement of the list with every one-shot entry
     * before every repeating one, each group in ascending order.
     */
    function GetTimes(): (r: seq<string>)
      reads this
      ensures multiset(r) == multiset(times)
      ensures forall i, j :: 0 <= i < j < |r| && IsRepeating(r[i]) ==> IsRepeating(r[j])
      ensures forall i, j :: 0 <= i < j < |r| && IsRepeating(r[i]) == IsRepeating(r[j]) ==> StrLe(r[i], r[j])
    {
      var oneShots := Filter(times, IsOneShot);
      var repeats := Filter(times, IsRepeating);
      FilterSplit(times, IsOneShot, IsRepeating);
      Rearranged(Sort(oneShots), oneShots, IsOneShot);
      Rearranged(Sort(repeats), repeats, IsRepeating);
      Sort(oneShots) + Sort(repeats)
    }

    /** `get_times_with_repeat`. */
    method GetTimesWithRepeat() returns (result: seq<TimeEntry>)
      ensures result == RepeatRecords(times)
    {
      result := [];
      for i := 0 to |times|
        invariant result == RepeatRecords(times[..i])
      {
        var timeStr := times[i];
        var isRepeating := |timeStr| > 0 && timeStr[0] == '*';
        var actualTime := if isRepeating then timeStr[1..] else timeStr;
        FilterMapPrefix(times, i, Record);
        if ValidTimeFormat(actualTime) {
          result := result + [TimeEntry(actualTime, isRepeating)];
        }
      }
      assert times[..|times|] == times;
    }

    /**
     * The counts `update_status` shows: they add up to the list's length and
     * are the sizes of the two groups `GetTimes` returns.
     */
    function Status(): (st: StatusCounts)
      reads this
      ensures st.total == |times| == st.oneShot + st.repeating
      ensures st.repeating == |Filter(times, IsRepeating)|
      ensures st.oneShot == |Filter(times, IsOneShot)|
    {
      RepeatCountFilter(times);
      FilterSplit(times, IsOneShot, IsRepeating);
      var repeatCount := RepeatCount(times);
      StatusCounts(|times|, |times| - repeatCount, repeatCount)
    }
  }

  /**
   * A `*` entry passed to the constructor is dropped, because the constructor
   * validates without stripping the marker.
   */
  lemma {:induction false} ReopenDropsRepeating(ts: seq<string>)
    ensures forall i :: 0 <= i < |ts| && IsRepeating(ts[i]) ==> ts[i] !in Filter(ts, ValidTimeFormat)
  {
    forall i | 0 <= i < |ts| && IsRepeating(ts[i]) ensures ts[i] !in Filter(ts, ValidTimeFormat) {
      if ts[i] in Filter(ts, ValidTimeFormat) {
        var k :| 0 <= k < |Filter(ts, ValidTimeFormat)| && Filter(ts, ValidTimeFormat)[k] == ts[i];
        ValidTimeIsOneShot(ts[i]);
      }
    }
  }
}
