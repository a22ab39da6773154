/**
 * The tab manager of the refresher (tab_manager.py): the registry of managed
 * tabs, the map of scheduled refresh times, the chosen browser, and the pure
 * helpers that read window titles and window listings. Refreshing a window,
 * enumerating windows and writing the settings file are effects of the
 * operating system; a refresh outcome is an oracle `outcome(id)`, a window
 * listing is a given string, and a save only bumps a ghost counter.
 */
module TabRegistry {
  import opened Wrappers
  import opened Strings
  import opened Decimal
  import opened Lists
  import opened InsertionDict
  import opened Clock

  /** `platform.system()`: "Windows", "Darwin", or anything else (Linux and the rest). */
  datatype Platform = Windows | Darwin | OtherPlatform

  /** An entry of `managed_tabs`: `{"id": ..., "name": ...}`. */
  datatype Tab = Tab(id: int, name: string)

  /** A window as the `get_browser_windows` family reports it. */
  datatype Window = Window(title: string, id: int, name: string)

  /** An entry of the list `refresh_all_tabs` returns. */
  datatype RefreshResult = RefreshResult(name: string, success: bool)

  /** `scheduled_refreshes`: the string form of a window id to its `HH:MM` times. */
  type Schedule = Dict<seq<string>>

  /** The settings dict handed to the constructor; a missing key is None. */
  datatype Handles = Handles(browserType: Option<string>, managedTabs: Option<seq<Tab>>, scheduledRefreshes: Option<Schedule>)

  function GetOr<T>(o: Option<T>, default: T): T {
    if o.Some? then o.value else default
  }

  // ----- Window titles -----

  /** `_is_chrome_window`. */
  predicate IsChromeWindow(system: Platform, title: string) {
    match system
    case Windows => Contains(title, "Google Chrome")
    case Darwin => Contains(title, "Chrome") || Contains(title, "Google Chrome")
    case OtherPlatform => Contains(title, "Chrome")
  }

  /** `_is_edge_window`. */
  predicate IsEdgeWindow(system: Platform, title: string) {
    match system
    case Windows => Contains(title, "Microsoft Edge")
    case Darwin => Contains(title, "Edge") || Contains(title, "Microsoft Edge")
    case OtherPlatform => Contains(title, "Edge")
  }

  /**
   * On macOS the second alternative adds nothing, since "Google Chrome"
   * holds "Chrome" and "Microsoft Edge" holds "Edge": macOS matches as loosely
   * as Linux, and a title Windows accepts is accepted everywhere.
   */
  lemma {:induction false} TitleMatchByPlatform(title: string)
    ensures IsChromeWindow(Darwin, title) == IsChromeWindow(OtherPlatform, title)
    ensures IsEdgeWindow(Darwin, title) == IsEdgeWindow(OtherPlatform, title)
    ensures IsChromeWindow(Windows, title) ==> IsChromeWindow(OtherPlatform, title)
    ensures IsEdgeWindow(Windows, title) ==> IsEdgeWindow(OtherPlatform, title)
  {
    if Contains(title, "Google Chrome") {
      assert OccursAt("Google Chrome", "Chrome", 7) by { assert "Google Chrome"[7..13] == "Chrome"; }
      ContainsWithin(title, "Google Chrome", "Chrome", 7);
    }
    if Contains(title, "Microsoft Edge") {
      assert OccursAt("Microsoft Edge", "Edge", 10) by { assert "Microsoft Edge"[10..14] == "Edge"; }
      ContainsWithin(title, "Microsoft Edge", "Edge", 10);
    }
  }

  /** The browser suffixes `_extract_tab_name` looks for, in the order it tries them. */
  function Separators(): seq<string> {
    [" - Chrome", " - Google Chrome", " - Microsoft Edge", " - Edge", " - "]
  }

  /** The trimmed text before the first of `seps` that occurs in the title; the trimmed title when none does. */
  function CutAtFirstSeparator(title: string, seps: seq<string>): string {
    if |seps| == 0 then Strip(title)
    else if Contains(title, seps[0]) then Strip(BeforeFirst(title, seps[0]))
    else CutAtFirstSeparator(title, seps[1..])
  }

  /** `_extract_tab_name`. */
  function ExtractTabName(title: string): string {
    CutAtFirstSeparator(title, Separators())
  }

  /** In `page - rest` with no other dash, a separator with a dash at index 1 first occurs right after `page`. */
  lemma {:induction false} DashSeparatorAt(page: string, rest: string, sep: string)
    requires '-' !in page && '-' !in rest
    requires |sep| >= 2 && sep[1] == '-'
    requires Contains(page + " - " + rest, sep)
    ensures BeforeFirst(page + " - " + rest, sep) == page
  {
    var t := page + " - " + rest;
    var i := Find(t, sep).value;
    assert t[i..i + |sep|][1] == sep[1];
    assert t[i + 1] == '-';
    assert forall j :: 0 <= j < |page| ==> t[j] == page[j];
    assert forall j :: |page| + 3 <= j < |t| ==> t[j] == rest[j - |page| - 3];
    assert t[|page|] == ' ' && t[|page| + 2] == ' ';
    assert i == |page|;
    assert t[..|page|] == page;
  }

  lemma {:induction false} CutAtDash(page: string, rest: string, seps: seq<string>)
    requires '-' !in page && '-' !in rest
    requires forall k :: 0 <= k < |seps| ==> |seps[k]| >= 2 && seps[k][1] == '-'
    requires exists k :: 0 <= k < |seps| && Contains(page + " - " + rest, seps[k])
    ensures CutAtFirstSeparator(page + " - " + rest, seps) == Strip(page)
  {
    var t := page + " - " + rest;
    if Contains(t, seps[0]) {
      DashSeparatorAt(page, rest, seps[0]);
    } else {
      var k :| 0 <= k < |seps| && Contains(t, seps[k]);
      assert seps[1..][k - 1] == seps[k];
      CutAtDash(page, rest, seps[1..]);
    }
  }

  /**
   * A title made of a page name, " - " and a browser name, neither holding a
   * dash, yields the trimmed page name, whichever browser suffix it carries.
   */
  lemma {:induction false} ExtractFromSuffixedTitle(page: string, rest: string)
    requires '-' !in page && '-' !in rest
    ensures ExtractTabName(page + " - " + rest) == Strip(page)
  {
    var t := page + " - " + rest;
    assert OccursAt(t, " - ", |page|) by { assert t[|page|..|page| + 3] == " - "; }
    assert Contains(t, Separators()[4]);
    CutAtDash(page, rest, Separators());
  }

  lemma {:induction false} CutWithoutSeparator(title: string, seps: seq<string>)
    requires !Contains(title, " - ")
    requires forall k :: 0 <= k < |seps| ==> OccursAt(seps[k], " - ", 0)
    ensures CutAtFirstSeparator(title, seps) == Strip(title)
  {
    if |seps| > 0 {
      if Contains(title, seps[0]) {
        ContainsWithin(title, seps[0], " - ", 0);
      }
      CutWithoutSeparator(title, seps[1..]);
    }
  }

  /** Every browser suffix starts with " - ", so a title without " - " is only trimmed. */
  lemma {:induction false} ExtractWithoutSeparator(title: string)
    requires !Contains(title, " - ")
    ensures ExtractTabName(title) == Strip(title)
  {
    forall k | 0 <= k < |Separators()| ensures OccursAt(Separators()[k], " - ", 0) {
      assert Separators()[k][..3] == " - ";
    }
    CutWithoutSeparator(title, Separators());
  }

  // ----- Window listings -----

  /** The stand-in windows: `{title} - {browser}`, ids `base + i`, named after the title. */
  function Placeholders(titles: seq<string>, browserName: string, base: int): (ws: seq<Window>)
    ensures |ws| == |titles|
  {
    seq(|titles|, i requires 0 <= i < |titles| => Window(titles[i] + " - " + browserName, base + i, titles[i]))
  }

  function LinuxTitles(): seq<string> {
    ["Google", "GitHub", "Stack Overflow", "YouTube"]
  }

  function MacosFallbackTitles(browserType: string): seq<string> {
    if Lower(browserType) == "chrome" then ["Google", "GitHub", "Stack Overflow", "YouTube"]
    else ["Bing", "Microsoft", "GitHub", "YouTube"]
  }

  function MacosBrowserName(browserType: string): string {
    if Lower(browserType) == "chrome" then "Google Chrome" else "Microsoft Edge"
  }

  function LinuxBrowserName(browserType: string): string {
    if Lower(browserType) == "chrome" then "Chrome" else "Edge"
  }

  /** A page name without dashes that has nothing to trim. */
  predicate PlainName(title: string) {
    && '-' !in title
    && |title| > 0 && !IsSpace(title[0]) && !IsSpace(title[|title| - 1])
  }

  predicate PlainNames(titles: seq<string>) {
    forall i :: 0 <= i < |titles| ==> PlainName(titles[i])
  }

  /**
   * Stand-in windows look like real ones: the name of each is what
   * `_extract_tab_name` reads from its title, and the ids are distinct.
   */
  lemma {:induction false} PlaceholdersConsistent(titles: seq<string>, browserName: string, base: int)
    requires PlainNames(titles) && '-' !in browserName
    ensures var ws := Placeholders(titles, browserName, base);
      forall i :: 0 <= i < |ws| ==> ExtractTabName(ws[i].title) == ws[i].name
    ensures var ws := Placeholders(titles, browserName, base);
      forall i, j :: 0 <= i < j < |ws| ==> ws[i].id != ws[j].id
  {
    forall i | 0 <= i < |titles|
      ensures ExtractTabName(titles[i] + " - " + browserName) == titles[i]
    {
      ExtractFromSuffixedTitle(titles[i], browserName);
    }
  }

  /** The stand-in titles and browser names have no dash and nothing to trim. */
  lemma {:induction false} FallbackTitlesPlain(browserType: string)
    ensures PlainNames(LinuxTitles()) && PlainNames(MacosFallbackTitles(browserType))
    ensures '-' !in MacosBrowserName(browserType) && '-' !in LinuxBrowserName(browserType)
  {
    PlainWord("Google");
    PlainWord("GitHub");
    PlainWord("Stack Overflow");
    PlainWord("YouTube");
    PlainWord("Bing");
    PlainWord("Microsoft");
  }

  predicate IsLetter(c: char) {
    'A' <= c <= 'Z' || 'a' <= c <= 'z'
  }

  /** Letters with single spaces between words make a plain name. */
  lemma {:induction false} PlainWord(title: string)
    requires |title| > 0 && IsLetter(title[0]) && IsLetter(title[|title| - 1])
    requires forall i :: 0 <= i < |title| ==> IsLetter(title[i]) || title[i] == ' '
    ensures PlainName(title)
  {
  }

  /** What one line of the AppleScript listing gives. */
  datatype LineScan =
    | Skipped                          // blank, or no comma
    | Entry(id: int, title: string)    // `id,title`, cut at the first comma
    | BadId                            // `int()` rejects the text before the comma

  /** One line, stripped, is skipped when blank or comma-free, and is cut at its first comma otherwise. */
  function ScanLine(line: string): (r: LineScan)
    ensures r.Skipped? <==> ',' !in Strip(line)
  {
    var s := Strip(line);
    ContainsChar(s, ',');
    match Find(s, ",")
      case None => Skipped
      case Some(i) =>
        match ParseInt(s[..i])
        case None => BadId
        case Some(id) => Entry(id, s[i + 1..])
  }

  /** The result of the loop over the listing's lines, and whether an id failed to parse. */
  datatype Scan = Scan(windows: seq<Window>, failed: bool)

  /**
   * The loop over the listing's lines: skipped lines add nothing, an entry
   * adds a window named after its title, and an id that `int()` rejects ends
   * the scan with the error flag set, keeping the windows read so far.
   */
  function ScanLines(lines: seq<string>): (r: Scan)
    ensures |r.windows| <= |lines|
  {
    if |lines| == 0 then Scan([], false) else ScanNext(lines[0], ScanLines(lines[1..]))
  }

  /** One step of the loop: `line` read in front of the scan of the lines after it. */
  function ScanNext(line: string, rest: Scan): (r: Scan)
    ensures |r.windows| <= |rest.windows| + 1
  {
    match ScanLine(line)
    case Skipped => rest
    case BadId => Scan([], true)
    case Entry(id, title) => Scan([Window(title, id, ExtractTabName(title))] + rest.windows, rest.failed)
  }

  /** The scan from index `i` on: nothing past the end, otherwise the line at `i` and then the scan after it. */
  lemma {:induction false} ScanLinesAt(lines: seq<string>, i: nat)
    requires i <= |lines|
    ensures i == |lines| ==> ScanLines(lines[i..]) == Scan([], false)
    ensures i < |lines| ==> ScanLines(lines[i..]) == ScanNext(lines[i], ScanLines(lines[i + 1..]))
  {
    if i < |lines| {
      assert lines[i..][1..] == lines[i + 1..];
    }
  }

  /**
   * `_macos_get_browser_windows` over the output of the AppleScript call
   * (None when the call itself failed): nothing for no output, otherwise the
   * scanned windows, followed by four stand-ins with ids 1000.. when an id
   * failed to parse.
   */
  function MacosWindows(result: Option<string>, browserType: string): seq<Window> {
    if result.None? || result.value == "" then []
    else
      var scan := ScanLines(Split(Strip(result.value), '\n'));
      if scan.failed then scan.windows + Placeholders(MacosFallbackTitles(browserType), MacosBrowserName(browserType), 1000)
      else scan.windows
  }

  /** A window as the AppleScript reports it. */
  datatype Listed = Listed(id: int, title: string)

  /** `windowID & "," & windowTitle`. */
  function ListingLine(l: Listed): string {
    IntToString(l.id) + "," + l.title
  }

  function ListingLines(ls: seq<Listed>): (lines: seq<string>)
    ensures |lines| == |ls|
    ensures forall i :: 0 <= i < |ls| ==> lines[i] == ListingLine(ls[i])
  {
    if |ls| == 0 then [] else [ListingLine(ls[0])] + ListingLines(ls[1..])
  }

  /** The script's output: `windowID & "," & windowTitle & "\n"` for each window. */
  function Render(ls: seq<Listed>): string {
    if |ls| == 0 then "" else Join(ListingLines(ls), '\n') + "\n"
  }

  /** A title the listing carries intact: one line, nothing to trim at its end. */
  predicate ListableTitle(title: string) {
    '\n' !in title && (title == [] || !IsSpace(title[|title| - 1]))
  }

  /** The window a listed entry stands for. */
  function Reported(l: Listed): Window {
    Window(l.title, l.id, ExtractTabName(l.title))
  }

  /** `str(id)` is a non-empty run of digits after an optional minus: no comma, no newline, no space. */
  lemma {:induction false} IdText(windowId: int)
    ensures var digits := IntToString(windowId);
      && |digits| > 0 && !IsSpace(digits[0])
      && ',' !in digits && '\n' !in digits
  {
    var digits := IntToString(windowId);
    assert ParseInt(digits).Some?;
  }

  /** An `id,title` line is cut at the comma after the id. */
  lemma {:induction false} LineCut(digits: string, title: string)
    requires ',' !in digits
    ensures var line := digits + "," + title;
      && Find(line, ",") == Some(|digits|)
      && line[..|digits|] == digits
      && line[|digits| + 1..] == title
  {
    var line := digits + "," + title;
    assert OccursAt(line, ",", |digits|) by { assert line[|digits|..|digits| + 1] == ","; }
    forall j | 0 <= j < |digits| ensures !OccursAt(line, ",", j) {
      assert line[j..j + 1][0] == digits[j];
    }
  }

  /** The windows a listing stands for, in order. */
  function ReportedAll(ls: seq<Listed>): (ws: seq<Window>)
    ensures |ws| == |ls|
    ensures forall i :: 0 <= i < |ls| ==> ws[i] == Reported(ls[i])
  {
    if |ls| == 0 then [] else [Reported(ls[0])] + ReportedAll(ls[1..])
  }

  /** A rendered `id,title` line reads back as its id and title, and has nothing to strip. */
  lemma {:induction false} ListingLineScans(l: Listed)
    requires ListableTitle(l.title)
    ensures var line := ListingLine(l);
      && |line| > 0 && !IsSpace(line[0]) && !IsSpace(line[|line| - 1]) && '\n' !in line
      && ScanLine(line) == Entry(l.id, l.title)
  {
    var digits := IntToString(l.id);
    IdText(l.id);
    LineCut(digits, l.title);
    var line := digits + "," + l.title;
    assert line[0] == digits[0];
    assert !IsSpace(line[|line| - 1]);
    assert Strip(line) == line;
  }

  lemma {:induction false} ScanListing(ls: seq<Listed>)
    requires forall i :: 0 <= i < |ls| ==> ListableTitle(ls[i].title)
    ensures ScanLines(ListingLines(ls)) == Scan(ReportedAll(ls), false)
  {
    if |ls| > 0 {
      ScanListing(ls[1..]);
      ListingLineScans(ls[0]);
      assert ListingLines(ls)[1..] == ListingLines(ls[1..]);
    }
  }

  /** The script's output, stripped and split at newlines, gives back its lines. */
  lemma {:induction false} ListingOutputLines(ls: seq<Listed>)
    requires |ls| > 0
    requires forall i :: 0 <= i < |ls| ==> ListableTitle(ls[i].title)
    ensures Split(Strip(Render(ls)), '\n') == ListingLines(ls)
  {
    var lines := ListingLines(ls);
    assert |lines| == |ls|;
    ListingLineScans(ls[0]);
    ListingLineScans(ls[|ls| - 1]);
    forall k | 0 <= k < |lines| ensures '\n' !in lines[k] {
      ListingLineScans(ls[k]);
    }
    SplitStrippedLines(lines);
  }

  /**
   * The listing round trip: parsing what the script prints for windows with
   * one-line titles gives those windows back, in order, with their ids and
   * titles and the names read from the titles.
   */
  lemma {:induction false} MacosListingRoundTrip(ls: seq<Listed>, browserType: string)
    requires |ls| > 0
    requires forall i :: 0 <= i < |ls| ==> ListableTitle(ls[i].title)
    ensures MacosWindows(Some(Render(ls)), browserType) == ReportedAll(ls)
  {
    ListingOutputLines(ls);
    ScanListing(ls);
    var scan := ScanLines(Split(Strip(Render(ls)), '\n'));
    assert scan == Scan(ReportedAll(ls), false);
    assert Render(ls) != "";
  }

  /**
   * The `for line in lines` loop of `_macos_get_browser_windows`: the windows
   * it appends, and whether `int()` raised and ended it early.
   */
  method ScanOutputLines(lines: seq<string>) returns (windows: seq<Window>, failed: bool)
    ensures Scan(windows, failed) == ScanLines(lines)
  {
    windows, failed := [], false;
    for i := 0 to |lines|
      invariant ScanLines(lines).windows == windows + ScanLines(lines[i..]).windows
      invariant ScanLines(lines).failed == ScanLines(lines[i..]).failed
    {
      ScanLinesAt(lines, i);
      match ScanLine(lines[i]) {
        case Skipped =>
        case BadId =>
          failed := true;
          return;
        case Entry(windowId, title) =>
          var w := Window(title, windowId, ExtractTabName(title));
          AppendOne(windows, w, ScanLines(lines[i + 1..]).windows);
          windows := windows + [w];
      }
    }
    ScanLinesAt(lines, |lines|);
  }

  /** A window whose name is what `_extract_tab_name` reads from its title. */
  predicate Named(w: Window) {
    w.name == ExtractTabName(w.title)
  }

  /** Every window the scan of the listing appends is named after its title. */
  lemma {:induction false} ScanLinesNamed(lines: seq<string>)
    ensures forall i :: 0 <= i < |ScanLines(lines).windows| ==> Named(ScanLines(lines).windows[i])
  {
    if |lines| > 0 {
      ScanLinesNamed(lines[1..]);
    }
  }

  /**
   * The stand-in windows of both platforms look like real ones: each is named
   * after its title, their ids are distinct, and they are numbered from 1000
   * on macOS and from 2000 on Linux.
   */
  lemma {:induction false} StandInsConsistent(browserType: string)
    ensures var ws := Placeholders(MacosFallbackTitles(browserType), MacosBrowserName(browserType), 1000);
      && |ws| == 4
      && (forall i :: 0 <= i < |ws| ==> Named(ws[i]) && ws[i].id == 1000 + i)
      && (forall i, j :: 0 <= i < j < |ws| ==> ws[i].id != ws[j].id)
    ensures var ws := Placeholders(LinuxTitles(), LinuxBrowserName(browserType), 2000);
      && |ws| == 4
      && (forall i :: 0 <= i < |ws| ==> Named(ws[i]) && ws[i].id == 2000 + i)
      && (forall i, j :: 0 <= i < j < |ws| ==> ws[i].id != ws[j].id)
  {
    FallbackTitlesPlain(browserType);
    PlaceholdersConsistent(MacosFallbackTitles(browserType), MacosBrowserName(browserType), 1000);
    PlaceholdersConsistent(LinuxTitles(), LinuxBrowserName(browserType), 2000);
  }

  /**
   * Every window `_macos_get_browser_windows` reports, read from the listing
   * or a stand-in, is named after its title; when an id fails to parse, the
   * last four are the stand-ins.
   */
  lemma {:induction false} MacosWindowsNamed(result: Option<string>, browserType: string)
    ensures var ws := MacosWindows(result, browserType);
      forall i :: 0 <= i < |ws| ==> Named(ws[i])
    ensures result.Some? && result.value != "" && ScanLines(Split(Strip(result.value), '\n')).failed ==>
      var ws := MacosWindows(result, browserType);
      |ws| >= 4 && ws[|ws| - 4..] == Placeholders(MacosFallbackTitles(browserType), MacosBrowserName(browserType), 1000)
  {
    if result.Some? && result.value != "" {
      var scan := ScanLines(Split(Strip(result.value), '\n'));
      ScanLinesNamed(Split(Strip(result.value), '\n'));
      StandInsConsistent(browserType);
      if scan.failed {
        var stand := Placeholders(MacosFallbackTitles(browserType), MacosBrowserName(browserType), 1000);
        var ws := scan.windows + stand;
        assert ws[|ws| - 4..] == stand;
        forall i | 0 <= i < |ws| ensures Named(ws[i]) {
          if i >= |scan.windows| {
            assert ws[i] == stand[i - |scan.windows|];
          }
        }
      }
    }
  }

  // ----- Scheduled times -----

  /**
   * The check in `add_scheduled_refresh`: exactly two integer fields, an hour
   * 0..23 and a minute 0..59, written back zero-padded.
   */
  function ScheduleTime(t: string): Option<string> {
    var parts := Split(t, ':');
    if |parts| != 2 then None
    else
      var hour, minute := ParseInt(parts[0]), ParseInt(parts[1]);
      if hour.Some? && minute.Some? && 0 <= hour.value <= 23 && 0 <= minute.value <= 59
      then Some(ClockMinutes(hour.value, minute.value)) else None
  }

  predicate IsScheduleTime(t: string) {
    ScheduleTime(t).Some?
  }

  /** `c` is the `HH:MM` of some hour and minute in range. */
  ghost predicate IsClockMinutes(c: string) {
    exists h, m :: 0 <= h < 24 && 0 <= m < 60 && c == ClockMinutes(h, m)
  }

  /**
   * An accepted time is written as `HH:MM` for an hour and minute in range,
   * and checking that form again gives it back unchanged.
   */
  lemma {:induction false} ScheduleTimeCanonical(t: string)
    requires IsScheduleTime(t)
    ensures var c := ScheduleTime(t).value;
      && ScheduleTime(c) == Some(c)
      && IsClockMinutes(c)
  {
    var parts := Split(t, ':');
    var h, m := ParseInt(parts[0]).value, ParseInt(parts[1]).value;
    ClockMinutesSplit(h, m);
    assert ScheduleTime(t).value == ClockMinutes(h, m);
  }

  /** A time with seconds, such as "08:00:00", is rejected. */
  lemma {:induction false} ScheduleRejectsSeconds(h: int, m: int, s: int)
    requires 0 <= h < 100 && 0 <= m < 100 && 0 <= s < 100
    ensures ScheduleTime(ClockSeconds(h, m, s)) == None
  {
    ClockSecondsSplit(h, m, s);
  }

  /** The loop building `validated_times`: the normalised form of each accepted time, in order. */
  function ValidatedTimes(ts: seq<string>): (r: seq<string>)
    ensures |r| <= |ts|
  {
    FilterMap(ts, ScheduleTime)
  }

  /** One normalised time per accepted input, in input order. */
  lemma {:induction false} ValidatedTimesSpec(ts: seq<string>)
    ensures var kept := Filter(ts, IsScheduleTime);
      && |ValidatedTimes(ts)| == |kept|
      && forall k :: 0 <= k < |kept| ==> ValidatedTimes(ts)[k] == ScheduleTime(kept[k]).value
  {
    FilterMapSpec(ts, ScheduleTime, IsScheduleTime);
  }

  /** Every normalised time is the `HH:MM` of some hour and minute in range. */
  lemma {:induction false} ValidatedTimesClock(ts: seq<string>)
    ensures forall k :: 0 <= k < |ValidatedTimes(ts)| ==> IsClockMinutes(ValidatedTimes(ts)[k])
  {
    forall t | ScheduleTime(t).Some? ensures IsClockMinutes(ScheduleTime(t).value) {
      ScheduleTimeCanonical(t);
    }
    FilterMapAll(ts, ScheduleTime, IsClockMinutes);
  }

  /** The stored list is in chronological order: `sorted` on `HH:MM` strings sorts by time of day. */
  lemma {:induction false} StoredTimesChronological(ts: seq<string>)
    ensures var r := Sort(ValidatedTimes(ts));
      forall i, j, h1, m1, h2, m2 ::
        (0 <= i < j < |r| && 0 <= h1 < 24 && 0 <= m1 < 60 && 0 <= h2 < 24 && 0 <= m2 < 60
         && r[i] == ClockMinutes(h1, m1) && r[j] == ClockMinutes(h2, m2))
        ==> (h1 < h2 || (h1 == h2 && m1 <= m2))
  {
    var r := Sort(ValidatedTimes(ts));
    forall i, j, h1, m1, h2, m2 | 0 <= i < j < |r| && 0 <= h1 < 24 && 0 <= m1 < 60 && 0 <= h2 < 24 && 0 <= m2 < 60
        && r[i] == ClockMinutes(h1, m1) && r[j] == ClockMinutes(h2, m2)
      ensures h1 < h2 || (h1 == h2 && m1 <= m2)
    {
      ClockOrder(h1, m1, h2, m2);
    }
  }

  /** `str(id)` tells ids apart. */
  lemma {:induction false} IdKeyInjective(a: int, b: int)
    requires IntToString(a) == IntToString(b)
    ensures a == b
  {
    assert ParseInt(IntToString(a)) == Some(a);
  }

  /** `get_scheduled_refreshes(window_id)`: the times stored under `str(window_id)`, or none. */
  function ScheduledFor(d: Schedule, windowId: int): seq<string> {
    GetOr(Lookup(d, IntToString(windowId)), [])
  }

  /** After storing a list for one id, reading that id gives the list, and every other id reads as before. */
  lemma {:induction false} ScheduledAfterPut(d: Schedule, windowId: int, v: seq<string>, other: int)
    requires UniqueKeys(d)
    ensures ScheduledFor(Put(d, IntToString(windowId), v), windowId) == v
    ensures other != windowId ==> ScheduledFor(Put(d, IntToString(windowId), v), other) == ScheduledFor(d, other)
  {
    PutSpec(d, IntToString(windowId), v);
    if IntToString(other) == IntToString(windowId) {
      IdKeyInjective(other, windowId);
    }
  }

  /** The map after `remove_scheduled_refresh(key, time)`. */
  function AfterRemove(d: Schedule, key: string, time: Option<string>): Schedule {
    match Lookup(d, key)
    case None => d
    case Some(ts) =>
      if time.None? then Delete(d, key)
      else if time.value in ts then
        var rest := RemoveFirst(ts, time.value);
        if |rest| == 0 then Delete(d, key) else Put(d, key, rest)
      else d
  }

  /** No key maps to an empty list. */
  predicate NonEmptyValues(d: Schedule) {
    forall i :: 0 <= i < |d| ==> |d[i].value| > 0
  }

  /**
   * Removal touches only its key: with no time the key goes; with a time the
   * list loses one copy of it, and the key goes when the list runs empty; a
   * time not in the list changes nothing. The keys stay unique and no empty
   * list is left behind.
   */
  lemma {:induction false} AfterRemoveSpec(d: Schedule, key: string, time: Option<string>)
    requires UniqueKeys(d)
    ensures var r := AfterRemove(d, key, time);
      && UniqueKeys(r)
      && (forall k :: k != key ==> Lookup(r, k) == Lookup(d, k))
      && (NonEmptyValues(d) ==> NonEmptyValues(r))
    ensures Lookup(d, key).Some? && time.None? ==> Lookup(AfterRemove(d, key, time), key) == None
    ensures Lookup(d, key).Some? && time.Some? && time.value in Lookup(d, key).value ==>
      var rest := RemoveFirst(Lookup(d, key).value, time.value);
      && multiset(rest) == multiset(Lookup(d, key).value) - multiset{time.value}
      && Lookup(AfterRemove(d, key, time), key) == if |rest| == 0 then None else Some(rest)
    ensures Lookup(d, key).Some? && time.Some? && time.value !in Lookup(d, key).value ==> AfterRemove(d, key, time) == d
  {
    var r := AfterRemove(d, key, time);
    match Lookup(d, key)
    case None =>
    case Some(ts) =>
      if time.None? {
        DeleteSpec(d, key);
        DeleteKeepsNonEmpty(d, key);
      } else if time.value in ts {
        var rest := RemoveFirst(ts, time.value);
        RemoveFirstMultiset(ts, time.value);
        if |rest| == 0 {
          DeleteSpec(d, key);
          DeleteKeepsNonEmpty(d, key);
        } else {
          PutSpec(d, key, rest);
          PutKeepsNonEmpty(d, key, rest);
        }
      }
  }

  lemma {:induction false} DeleteKeepsNonEmpty(d: Schedule, key: string)
    ensures NonEmptyValues(d) ==> NonEmptyValues(Delete(d, key))
  {
    match IndexOfKey(d, key)
    case Some(i) =>
      var r := Delete(d, key);
      assert r == d[..i] + d[i + 1..];
      forall j | 0 <= j < |r| ensures r[j] == if j < i then d[j] else d[j + 1] {
        if j >= i {
          assert r[j] == d[i + 1..][j - i];
        }
      }
    case None =>
  }

  lemma {:induction false} PutKeepsNonEmpty(d: Schedule, key: string, v: seq<string>)
    requires |v| > 0
    ensures NonEmptyValues(d) ==> NonEmptyValues(Put(d, key, v))
  {
  }

  /** `refresh_tab`: on Linux and the rest it reports success; elsewhere the OS decides. */
  predicate RefreshTab(system: Platform, outcome: int -> bool, windowId: int) {
    if system == OtherPlatform then true else outcome(windowId)
  }

  /**
   * `refresh_tab` on each platform, a definitional unfolding of `RefreshTab`:
   * Windows and macOS report what the operating system does with the window,
   * every other platform reports success without touching it.
   */
  lemma {:induction false} RefreshTabByPlatform(outcome: int -> bool, windowId: int)
    ensures RefreshTab(Windows, outcome, windowId) == outcome(windowId)
    ensures RefreshTab(Darwin, outcome, windowId) == outcome(windowId)
    ensures RefreshTab(OtherPlatform, outcome, windowId)
  {
  }

  /**
   * What `check_scheduled_refreshes` returns: in map order, the id of every
   * key that reads as an integer, whose list holds `now`, and whose refresh
   * succeeded.
   */
  function DueIds(d: Schedule, now: string, system: Platform, outcome: int -> bool): (ids: seq<int>)
    ensures |ids| <= |d|
  {
    if |d| == 0 then []
    else
      var rest := DueIds(d[..|d| - 1], now, system, outcome);
      var slot := d[|d| - 1];
      if now in slot.value then
        match ParseInt(slot.key)
        case Some(windowId) => if RefreshTab(system, outcome, windowId) then rest + [windowId] else rest
        case None => rest
      else rest
  }

  /** An id is reported exactly when some key reading as it lists `now` and its refresh succeeds. */
  lemma {:induction false} DueIdsMembers(d: Schedule, now: string, system: Platform, outcome: int -> bool, windowId: int)
    ensures windowId in DueIds(d, now, system, outcome) <==>
      exists i :: 0 <= i < |d| && now in d[i].value && ParseInt(d[i].key) == Some(windowId) && RefreshTab(system, outcome, windowId)
  {
    if |d| > 0 {
      var init := d[..|d| - 1];
      DueIdsMembers(init, now, system, outcome, windowId);
      assert forall i :: 0 <= i < |init| ==> init[i] == d[i];
    }
  }

  /**
   * End to end: once a time is scheduled for a tab, a check at that minute
   * refreshes the tab and reports its id, provided the refresh succeeds.
   */
  lemma {:induction false} ScheduledTimeFires(d: Schedule, windowId: int, ts: seq<string>, t: string, system: Platform, outcome: int -> bool)
    requires UniqueKeys(d)
    requires t in ts && IsScheduleTime(t)
    requires RefreshTab(system, outcome, windowId)
    ensures windowId in DueIds(Put(d, IntToString(windowId), Sort(ValidatedTimes(ts))), ScheduleTime(t).value, system, outcome)
  {
    var key := IntToString(windowId);
    var stored := Sort(ValidatedTimes(ts));
    var d' := Put(d, key, stored);
    PutSpec(d, key, stored);
    ValidatedTimesSpec(ts);
    var kept := Filter(ts, IsScheduleTime);
    var k :| 0 <= k < |kept| && kept[k] == t;
    assert ScheduleTime(t).value in multiset(stored);
    var i :| 0 <= i < |d'| && d'[i] == Slot(key, stored);
    DueIdsMembers(d', ScheduleTime(t).value, system, outcome, windowId);
  }

  /** Ids are unique among the managed tabs. */
  predicate UniqueIds(tabs: seq<Tab>) {
    forall i, j :: 0 <= i < j < |tabs| ==> tabs[i].id != tabs[j].id
  }

  predicate HasId(tabs: seq<Tab>, windowId: int) {
    exists i :: 0 <= i < |tabs| && tabs[i].id == windowId
  }

  /** The first tab with the id, if any. */
  function FirstTabIndex(tabs: seq<Tab>, windowId: int): (r: Option<nat>)
    ensures r.Some? <==> HasId(tabs, windowId)
    ensures r.Some? ==> r.value < |tabs| && tabs[r.value].id == windowId
    ensures r.Some? ==> forall j :: 0 <= j < r.value ==> tabs[j].id != windowId
  {
    if |tabs| == 0 then None
    else if tabs[0].id == windowId then Some(0)
    else
      assert HasId(tabs, windowId) ==> HasId(tabs[1..], windowId) by {
        if HasId(tabs, windowId) {
          var i :| 0 <= i < |tabs| && tabs[i].id == windowId;
          assert tabs[1..][i - 1].id == windowId;
        }
      }
      match FirstTabIndex(tabs[1..], windowId)
      case Some(i) => Some(i + 1)
      case None => None
  }

  /**
   * Cutting out one tab keeps the others in order and the ids unique; when
   * the ids were unique, the cut id is gone.
   */
  lemma {:induction false} RemoveTabAt(tabs: seq<Tab>, k: nat)
    requires k < |tabs|
    ensures var r := tabs[..k] + tabs[k + 1..];
      && |r| == |tabs| - 1
      && (forall j :: 0 <= j < |r| ==> r[j] == if j < k then tabs[j] else tabs[j + 1])
      && (UniqueIds(tabs) ==> UniqueIds(r) && !HasId(r, tabs[k].id))
  {
    var r := tabs[..k] + tabs[k + 1..];
    assert forall j :: 0 <= j < |r| ==> r[j] == if j < k then tabs[j] else tabs[j + 1];
  }

  /** An appended tab with a fresh id keeps the ids unique. */
  lemma {:induction false} AddTabFresh(tabs: seq<Tab>, t: Tab)
    requires !HasId(tabs, t.id)
    ensures UniqueIds(tabs) ==> UniqueIds(tabs + [t])
  {
  }

  /**
   * The tab manager. `saves` counts the calls of `save_tabs`, the only trace
   * of persistence the model keeps.
   */
  class TabManager {
    const system: Platform
    var browserType: string
    var managedTabs: seq<Tab>
    var scheduledRefreshes: Schedule
    ghost var saves: nat

    /** A Python dict never holds a key twice. */
    ghost predicate Valid()
      reads this
    {
      UniqueKeys(scheduledRefreshes)
    }

    /** `__init__(tab_handles)`: each setting from the dict, or its default. */
    constructor (system: Platform, handles: Handles)
      requires handles.scheduledRefreshes.Some? ==> UniqueKeys(handles.scheduledRefreshes.value)
      ensures Valid()
      ensures this.system == system
      ensures browserType == GetOr(handles.browserType, "chrome")
      ensures managedTabs == GetOr(handles.managedTabs, [])
      ensures scheduledRefreshes == GetOr(handles.scheduledRefreshes, [])
      ensures saves == 0
    {
      this.system := system;
      browserType := GetOr(handles.browserType, "chrome");
      managedTabs := GetOr(handles.managedTabs, []);
      scheduledRefreshes := GetOr(handles.scheduledRefreshes, []);
      saves := 0;
    }

    /** `save_tabs`, reduced to counting. */
    ghost method SaveTabs()
      modifies this`saves
      ensures saves == old(saves) + 1
    {
      saves := saves + 1;
    }

    /**
     * `add_tab`: a tab whose id is already managed is refused; otherwise the
     * tab goes last and the settings are saved.
     */
    method AddTab(windowId: int, name: string) returns (ok: bool)
      modifies this
      ensures ok <==> !HasId(old(managedTabs), windowId)
      ensures managedTabs == if ok then old(managedTabs) + [Tab(windowId, name)] else old(managedTabs)
      ensures UniqueIds(old(managedTabs)) ==> UniqueIds(managedTabs)
      ensures browserType == old(browserType) && scheduledRefreshes == old(scheduledRefreshes)
      ensures saves == old(saves) + (if ok then 1 else 0)
    {
      for i := 0 to |managedTabs|
        invariant forall k :: 0 <= k < i ==> managedTabs[k].id != windowId
      {
        if managedTabs[i].id == windowId {
          return false;
        }
      }
      AddTabFresh(managedTabs, Tab(windowId, name));
      managedTabs := managedTabs + [Tab(windowId, name)];
      SaveTabs();
      return true;
    }

    /**
     * `remove_tab`: drops the first tab with the id, keeping the others in
     * order, and saves; an id not managed changes nothing.
     */
    method RemoveTab(windowId: int) returns (ok: bool)
      modifies this
      ensures ok <==> HasId(old(managedTabs), windowId)
      ensures ok ==> var k := FirstTabIndex(old(managedTabs), windowId).value;
        managedTabs == old(managedTabs)[..k] + old(managedTabs)[k + 1..]
      ensures !ok ==> managedTabs == old(managedTabs)
      ensures UniqueIds(old(managedTabs)) ==> UniqueIds(managedTabs) && !HasId(managedTabs, windowId)
      ensures browserType == old(browserType) && scheduledRefreshes == old(scheduledRefreshes)
      ensures saves == old(saves) + (if ok then 1 else 0)
    {
      var i := 0;
      while i < |managedTabs|
        invariant 0 <= i <= |managedTabs|
        invariant managedTabs == old(managedTabs) && saves == old(saves)
        invariant forall k :: 0 <= k < i ==> managedTabs[k].id != windowId
      {
        if managedTabs[i].id == windowId {
          RemoveTabAt(managedTabs, i);
          managedTabs := managedTabs[..i] + managedTabs[i + 1..];
          SaveTabs();
          return true;
        }
        i := i + 1;
      }
      return false;
    }

    /**
     * `set_browser_type`: "chrome" or "edge" in any case is stored lower-cased
     * and saved; anything else is refused.
     */
    method SetBrowserType(requested: string) returns (ok: bool)
      modifies this
      ensures ok <==> Lower(requested) == "chrome" || Lower(requested) == "edge"
      ensures browserType == if ok then Lower(requested) else old(browserType)
      ensures ok ==> Lower(browserType) == browserType
      ensures managedTabs == old(managedTabs) && scheduledRefreshes == old(scheduledRefreshes)
      ensures saves == old(saves) + (if ok then 1 else 0)
    {
      var lowered := Lower(requested);
      if lowered in ["chrome", "edge"] {
        LowerIdempotent(requested);
        browserType := lowered;
        SaveTabs();
        return true;
      }
      return false;
    }

    /**
     * `add_scheduled_refresh`: the accepted times, zero-padded and sorted,
     * replace the tab's list; with no accepted time nothing changes.
     */
    method AddScheduledRefresh(windowId: int, times: seq<string>) returns (ok: bool)
      requires Valid()
      modifies this
      ensures Valid()
      ensures ok <==> |ValidatedTimes(times)| > 0
      ensures scheduledRefreshes ==
        if ok then Put(old(scheduledRefreshes), IntToString(windowId), Sort(ValidatedTimes(times)))
        else old(scheduledRefreshes)
      ensures browserType == old(browserType) && managedTabs == old(managedTabs)
      ensures saves == old(saves) + (if ok then 1 else 0)
    {
      var validatedTimes: seq<string> := [];
      for i := 0 to |times|
        invariant validatedTimes == ValidatedTimes(times[..i])
        invariant scheduledRefreshes == old(scheduledRefreshes) && saves == old(saves)
        invariant browserType == old(browserType) && managedTabs == old(managedTabs)
      {
        // The `try` block: split, convert, range-check and pad one time.
        FilterMapPrefix(times, i, ScheduleTime);
        match ScheduleTime(times[i]) {
          case Some(c) => validatedTimes := validatedTimes + [c];
          case None =>
        }
      }
      assert times[..|times|] == times;
      var windowIdStr := IntToString(windowId);
      if |validatedTimes| > 0 {
        PutSpec(scheduledRefreshes, windowIdStr, Sort(validatedTimes));
        scheduledRefreshes := Put(scheduledRefreshes, windowIdStr, Sort(validatedTimes));
        SaveTabs();
        return true;
      }
      return false;
    }

    /**
     * `remove_scheduled_refresh`: with the id's key present, removes the whole
     * list (no time) or one copy of the time, and saves; reports whether the
     * key was present, even when the time was not in its list.
     */
    method RemoveScheduledRefresh(windowId: int, time: Option<string>) returns (ok: bool)
      requires Valid()
      modifies this
      ensures Valid()
      ensures ok <==> IntToString(windowId) in Keys(old(scheduledRefreshes))
      ensures scheduledRefreshes == AfterRemove(old(scheduledRefreshes), IntToString(windowId), time)
      ensures browserType == old(browserType) && managedTabs == old(managedTabs)
      ensures saves == old(saves) + (if ok then 1 else 0)
    {
      var windowIdStr := IntToString(windowId);
      AfterRemoveSpec(scheduledRefreshes, windowIdStr, time);
      var current := Lookup(scheduledRefreshes, windowIdStr);
      if current.Some? {
        if time.None? {
          scheduledRefreshes := Delete(scheduledRefreshes, windowIdStr);
        } else {
          var times := current.value;
          if time.value in times {
            times := RemoveFirst(times, time.value);
            if |times| == 0 {
              scheduledRefreshes := Delete(scheduledRefreshes, windowIdStr);
            } else {
              scheduledRefreshes := Put(scheduledRefreshes, windowIdStr, times);
            }
          }
        }
        SaveTabs();
        return true;
      }
      return false;
    }

    /** `get_scheduled_refreshes(window_id)`. */
    function GetScheduledRefreshes(windowId: int): (r: seq<string>)
      reads this
      ensures Lookup(scheduledRefreshes, IntToString(windowId)).None? ==> r == []
      ensures Lookup(scheduledRefreshes, IntToString(windowId)).Some? ==> Slot(IntToString(windowId), r) in scheduledRefreshes
    {
      ScheduledFor(scheduledRefreshes, windowId)
    }

    /**
     * `check_scheduled_refreshes` at the minute `now` (`time.strftime("%H:%M")`):
     * refreshes every due tab and reports the ids that refreshed; the map is
     * left as it is.
     */
    method CheckScheduledRefreshes(now: string, outcome: int -> bool) returns (refreshedTabs: seq<int>)
      ensures refreshedTabs == DueIds(scheduledRefreshes, now, system, outcome)
    {
      refreshedTabs := [];
      for i := 0 to |scheduledRefreshes|
        invariant refreshedTabs == DueIds(scheduledRefreshes[..i], now, system, outcome)
      {
        var slot := scheduledRefreshes[i];
        assert scheduledRefreshes[..i + 1][..i] == scheduledRefreshes[..i];
        if now in slot.value {
          var windowId := ParseInt(slot.key);
          if windowId.Some? {
            var success := RefreshTab(system, outcome, windowId.value);
            if success {
              refreshedTabs := refreshedTabs + [windowId.value];
            }
          }
        }
      }
      assert scheduledRefreshes[..|scheduledRefreshes|] == scheduledRefreshes;
    }

    /** `refresh_all_tabs`: one result per managed tab, in order, with its name and its refresh outcome. */
    method RefreshAllTabs(outcome: int -> bool) returns (results: seq<RefreshResult>)
      ensures |results| == |managedTabs|
      ensures forall i :: 0 <= i < |managedTabs| ==>
        results[i] == RefreshResult(managedTabs[i].name, RefreshTab(system, outcome, managedTabs[i].id))
    {
      results := [];
      for i := 0 to |managedTabs|
        invariant |results| == i
        invariant forall k :: 0 <= k < i ==>
          results[k] == RefreshResult(managedTabs[k].name, RefreshTab(system, outcome, managedTabs[k].id))
      {
        var tab := managedTabs[i];
        var success := RefreshTab(system, outcome, tab.id);
        results := results + [RefreshResult(tab.name, success)];
      }
    }

    /** `_macos_get_browser_windows`, given what the AppleScript call returned. */
    method MacosGetBrowserWindows(result: Option<string>) returns (browserWindows: seq<Window>)
      ensures browserWindows == MacosWindows(result, browserType)
    {
      browserWindows := [];
      if result.None? || result.value == "" {
        return;
      }
      var lines := Split(Strip(result.value), '\n');
      var failed;
      browserWindows, failed := ScanOutputLines(lines);
      if failed {
        // int() raised: the windows read so far stay, and the stand-ins follow.
        browserWindows := browserWindows + Placeholders(MacosFallbackTitles(browserType), MacosBrowserName(browserType), 1000);
      }
    }

    /** `_linux_get_browser_windows`: four stand-ins with ids 2000.. for the chosen browser. */
    method LinuxGetBrowserWindows() returns (browserWindows: seq<Window>)
      ensures browserWindows == Placeholders(LinuxTitles(), LinuxBrowserName(browserType), 2000)
    {
      var browserName := LinuxBrowserName(browserType);
      var titles := LinuxTitles();
      browserWindows := [];
      for i := 0 to |titles|
        invariant browserWindows == Placeholders(titles[..i], browserName, 2000)
      {
        browserWindows := browserWindows + [Window(titles[i] + " - " + browserName, 2000 + i, titles[i])];
      }
      assert titles[..|titles|] == titles;
    }
  }
}
