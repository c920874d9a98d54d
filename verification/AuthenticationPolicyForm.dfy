/**
 The text form of an authentication policy's conditions (crates/web/src/authentication_policy_form.rs):
 lists of values, and lists of time windows. Saving replaces every field, so a value the form cannot
 print and read back is lost.
 */
module AuthenticationPolicyForm {
  import opened Wrappers
  import opened Text
  import opened Numerals
  import opened Sequences

  // Lists of values

  function ParseList(raw: string): seq<string> {
    Clean(Split(raw, {'\n', ','}))
  }

  function FormatList(values: seq<string>): string {
    Join(values, "\n")
  }

  /** A list survives the form exactly when its values are nonempty, trimmed, and free of separators. */
  lemma ListRoundTrip(values: seq<string>)
    ensures ParseList(FormatList(values)) == values <==> CleanPieces(values, {'\n', ','})
  {
    CleanSplitPieces(FormatList(values), {'\n', ','});
    if CleanPieces(values, {'\n', ','}) {
      assert "\n" == ['\n'] + "";
      CleanSplitJoin(values, '\n', "", {'\n', ','});
    }
  }

  /** What was read once is read again from its printed form. */
  lemma ListReparse(raw: string)
    ensures ParseList(FormatList(ParseList(raw))) == ParseList(raw)
  {
    CleanSplitPieces(raw, {'\n', ','});
    ListRoundTrip(ParseList(raw));
  }

  // Time windows

  type U8 = n: int | 0 <= n < 0x100
  type U16 = n: int | 0 <= n < 0x1_0000
  type I16 = n: int | -0x8000 <= n < 0x8000

  datatype TimeWindow = TimeWindow(days: seq<U8>, startMinute: U16, endMinute: U16, utcOffsetMinutes: I16)

  const DAY_NAMES := ["sun", "mon", "tue", "wed", "thu", "fri", "sat"]

  predicate GoodDays(days: seq<U8>) {
    Distinct(days) && forall k | 0 <= k < |days| :: days[k] < 7
  }

  predicate WellFormed(w: TimeWindow) {
    && GoodDays(w.days)
    && w.startMinute <= 1439 && w.endMinute <= 1439 && -1439 <= w.utcOffsetMinutes <= 1439
  }

  // Days

  /** `names.iter().position(|d| *d == name)` */
  function Position(name: string, names: seq<string>): (r: Option<nat>)
    ensures r.Some? ==> r.value < |names| && names[r.value] == name && name !in names[..r.value]
    ensures r.None? ==> name !in names
  {
    if names == [] then None
    else if names[0] == name then Some(0)
    else match Position(name, names[1..])
      case None => None
      case Some(k) =>
        assert names[..k + 1] == [names[0]] + names[1..][..k];
        Some(k + 1)
  }

  function DayIndex(piece: string, names: seq<string>): (r: Option<U8>)
    requires |names| <= 7
    ensures r.Some? ==> r.value < |names|
  {
    match Position(Lower(Trim(piece)), names)
    case None => None
    case Some(k) => Some(k)
  }

  function DayIndices(pieces: seq<string>, names: seq<string>): (r: seq<Option<U8>>)
    requires |names| <= 7
    ensures |r| == |pieces| && forall k | 0 <= k < |r| :: r[k] == DayIndex(pieces[k], names)
  {
    if pieces == [] then [] else [DayIndex(pieces[0], names)] + DayIndices(pieces[1..], names)
  }

  predicate Indexed(indices: seq<Option<U8>>) {
    forall k | 0 <= k < |indices| :: indices[k].Some? && indices[k].value < 7
  }

  function AddDay(days: seq<U8>, day: U8): (r: seq<U8>)
    requires GoodDays(days) && day < 7
    ensures GoodDays(r) && day in r
  {
    if day in days then days else days + [day]
  }

  /** The distinct days, in order of first mention. */
  function Collect(indices: seq<Option<U8>>): (days: seq<U8>)
    requires Indexed(indices)
    ensures GoodDays(days) && (days == [] <==> indices == [])
  {
    if indices == [] then []
    else AddDay(Collect(indices[..|indices| - 1]), indices[|indices| - 1].value)
  }

  lemma CollectStep(indices: seq<Option<U8>>, k: nat)
    requires k < |indices| && Indexed(indices[..k]) && indices[k].Some? && indices[k].value < 7
    ensures Indexed(indices[..k + 1])
    ensures Collect(indices[..k + 1]) == AddDay(Collect(indices[..k]), indices[k].value)
  {
    assert indices[..k + 1][..k] == indices[..k];
  }

  lemma {:induction false} CollectKeepsExactly(indices: seq<Option<U8>>, day: U8)
    requires Indexed(indices)
    ensures day in Collect(indices) <==> Some(day) in indices
  {
    if indices != [] {
      var before, last := indices[..|indices| - 1], indices[|indices| - 1];
      CollectKeepsExactly(before, day);
      assert indices == before + [last];
    }
  }

  lemma {:induction false} CollectDistinct(days: seq<U8>, indices: seq<Option<U8>>)
    requires GoodDays(days) && |indices| == |days| && forall k | 0 <= k < |days| :: indices[k] == Some(days[k])
    ensures Indexed(indices) && Collect(indices) == days
  {
    if days != [] {
      var before, last := days[..|days| - 1], days[|days| - 1];
      CollectDistinct(before, indices[..|days| - 1]);
      assert days == before + [last];
    }
  }

  function DaysOf(raw: string): (r: Option<seq<U8>>)
    ensures r.Some? ==> GoodDays(r.value)
  {
    if raw == "*" then Some([])
    else
      var indices := DayIndices(Split(raw, {','}), DAY_NAMES);
      if Indexed(indices) then Some(Collect(indices)) else None
  }

  /** The code's last test, for an empty list, never rejects: a text always has a piece. */
  method ParseDays(raw: string) returns (r: Option<seq<U8>>)
    ensures r == DaysOf(raw)
  {
    if raw == "*" {
      return Some([]);
    }
    r := ParseDayNames(Split(raw, {','}), DAY_NAMES);
  }

  method ParseDayNames(pieces: seq<string>, names: seq<string>) returns (r: Option<seq<U8>>)
    requires pieces != [] && |names| <= 7
    ensures var indices := DayIndices(pieces, names);
            r == if Indexed(indices) then Some(Collect(indices)) else None
  {
    var days: seq<U8> := [];
    ghost var indices := DayIndices(pieces, names);
    for k := 0 to |pieces|
      invariant Indexed(indices[..k]) && days == Collect(indices[..k])
    {
      var index := DayIndex(pieces[k], names);
      assert indices[k] == index;
      if index.None? {
        assert !Indexed(indices);
        return None;
      }
      CollectStep(indices, k);
      if index.value !in days {
        days := days + [index.value];
      }
    }
    assert indices[..|pieces|] == indices;
    return if days != [] then Some(days) else None;
  }

  /** The days read are exactly the days named; an empty list, which means every day, is read from `*` alone. */
  lemma DaysAreTheNamedOnes(raw: string, day: U8)
    requires DaysOf(raw).Some?
    ensures DaysOf(raw) == Some([]) <==> raw == "*"
    ensures raw != "*" ==> (day in DaysOf(raw).value <==> Some(day) in DayIndices(Split(raw, {','}), DAY_NAMES))
  {
    if raw != "*" {
      CollectKeepsExactly(DayIndices(Split(raw, {','}), DAY_NAMES), day);
    }
  }

  // Times and offsets

  function ParseHhmm(raw: string): (r: Option<U16>)
    ensures r.Some? ==> r.value <= 1439
  {
    HhmmOf(SplitOnce(Trim(raw), ':'))
  }

  function HhmmOf(parts: Option<(string, string)>): (r: Option<U16>)
    ensures r.Some? ==> r.value <= 1439
  {
    match parts
    case None => None
    case Some((hh, mm)) => Minute(ParseUnsigned(hh, 0xFFFF), ParseUnsigned(mm, 0xFFFF))
  }

  function Minute(hours: Option<nat>, minutes: Option<nat>): (r: Option<U16>)
    ensures r.Some? ==> r.value <= 1439
  {
    if hours.None? || minutes.None? || hours.value > 23 || minutes.value > 59 then None
    else Some(hours.value * 60 + minutes.value)
  }

  function FormatHhmm(minute: U16): string {
    Pad2(minute / 60) + ":" + Pad2(minute % 60)
  }

  function I16FromU16(n: U16): Option<I16> {
    if n < 0x8000 then Some(n) else None
  }

  function ParseOffset(raw: string): (r: Option<I16>)
    ensures r.Some? ==> -1439 <= r.value <= 1439
  {
    var t := Trim(raw);
    if t != [] && t[0] == '-' then Signed(-1, ParseHhmm(t[1..]))
    else if t != [] && t[0] == '+' then Signed(1, ParseHhmm(t[1..]))
    else Signed(1, ParseHhmm(t))
  }

  function Signed(sign: int, minutes: Option<U16>): (r: Option<I16>)
    requires sign == 1 || sign == -1
    requires minutes.Some? ==> minutes.value <= 1439
    ensures r.Some? ==> -1439 <= r.value <= 1439
  {
    if minutes.None? then None
    else match I16FromU16(minutes.value)
      case None => None
      case Some(m) => Some(if sign == 1 then m else 0 - m)
  }

  /** `i16::unsigned_abs`: the size of -32768 still fits `u16`. */
  function UnsignedAbs(minutes: I16): U16 {
    if minutes < 0 then 0 - minutes else minutes
  }

  function FormatOffset(minutes: I16): string {
    [if minutes < 0 then '-' else '+'] + FormatHhmm(UnsignedAbs(minutes))
  }

  // Windows

  function TimesOf(word: string): (r: Option<(U16, U16)>)
    ensures r.Some? ==> r.value.0 <= 1439 && r.value.1 <= 1439
  {
    TimesOfSplit(SplitOnce(word, '-'))
  }

  function TimesOfSplit(parts: Option<(string, string)>): (r: Option<(U16, U16)>)
    ensures r.Some? ==> r.value.0 <= 1439 && r.value.1 <= 1439
  {
    match parts
    case None => None
    case Some((start, end)) => Both(ParseHhmm(start), ParseHhmm(end))
  }

  function Both(start: Option<U16>, end: Option<U16>): (r: Option<(U16, U16)>)
    ensures r.Some? ==> start == Some(r.value.0) && end == Some(r.value.1)
  {
    if start.None? || end.None? then None else Some((start.value, end.value))
  }

  /** One line's words: days, times, and an offset that defaults to UTC. */
  function WindowOfWords(words: seq<string>): (r: Option<TimeWindow>)
    ensures r.Some? ==> WellFormed(r.value)
  {
    if |words| < 2 || |words| > 3 then None
    else
      var days, times := DaysOf(words[0]), TimesOf(words[1]);
      var offset := if |words| > 2 then ParseOffset(words[2]) else Some(0);
      if days.None? || times.None? || offset.None? then None
      else Some(TimeWindow(days.value, times.value.0, times.value.1, offset.value))
  }

  function WindowOf(line: string): (r: Option<TimeWindow>)
    ensures r.Some? ==> WellFormed(r.value)
  {
    WindowOfWords(Words(line))
  }

  method ParseTimeWindow(line: string) returns (r: Option<TimeWindow>)
    ensures r == WindowOf(line)
  {
    r := ParseWords(Words(line));
  }

  method ParseWords(parts: seq<string>) returns (r: Option<TimeWindow>)
    ensures r == WindowOfWords(parts)
  {
    if parts == [] {
      return None;
    }
    var days := ParseDays(parts[0]);
    if days.None? || |parts| == 1 {
      return None;
    }
    var times := TimesOf(parts[1]);
    if times.None? {
      return None;
    }
    var offset := if |parts| > 2 then ParseOffset(parts[2]) else Some(0);
    if offset.None? || |parts| > 3 {
      return None;
    }
    return Some(TimeWindow(days.value, times.value.0, times.value.1, offset.value));
  }

  /** Days outside the table are skipped, as `filter_map` does. */
  function KnownNames(days: seq<U8>): seq<string> {
    if days == [] then []
    else (if days[0] < 7 then [DAY_NAMES[days[0]]] else []) + KnownNames(days[1..])
  }

  function FormatDays(days: seq<U8>): string {
    if days == [] then "*" else Join(KnownNames(days), ",")
  }

  function FormatTimes(w: TimeWindow): string {
    FormatHhmm(w.startMinute) + "-" + FormatHhmm(w.endMinute)
  }

  function FormatTimeWindow(w: TimeWindow): string {
    FormatDays(w.days) + " " + FormatTimes(w) + " " + FormatOffset(w.utcOffsetMinutes)
  }

  function FormatEach(windows: seq<TimeWindow>): (r: seq<string>)
    ensures |r| == |windows|
  {
    seq(|windows|, k requires 0 <= k < |windows| => FormatTimeWindow(windows[k]))
  }

  function FormatTimeWindows(windows: seq<TimeWindow>): string {
    Join(FormatEach(windows), "\n")
  }

  // Lines

  function StripReturn(line: string): string {
    if line != [] && line[|line| - 1] == '\r' then line[..|line| - 1] else line
  }

  /** `str::lines` */
  function Lines(s: string): seq<string>
    decreases |s|
  {
    var i := IndexOf(s, {'\n'});
    if s == [] then []
    else if i == |s| then [s]
    else [StripReturn(s[..i])] + Lines(s[i + 1..])
  }

  datatype Reading = Blank | Window(window: TimeWindow) | Unreadable

  function ReadLine(line: string): (r: Reading)
    ensures r.Window? ==> WellFormed(r.window)
  {
    var text := Trim(line);
    if text == "" then Blank
    else match WindowOf(text)
      case None => Unreadable
      case Some(window) => Window(window)
  }

  method ParseLine(line: string) returns (r: Reading)
    ensures r == ReadLine(line)
  {
    var text := Trim(line);
    if text == "" {
      return Blank;
    }
    var window := ParseTimeWindow(text);
    return if window.None? then Unreadable else Window(window.value);
  }

  function ReadLines(lines: seq<string>): (r: seq<Reading>)
    ensures |r| == |lines|
  {
    seq(|lines|, k requires 0 <= k < |lines| => ReadLine(lines[k]))
  }

  /** Index of the first unreadable line, or the number of lines. */
  function FirstUnreadable(readings: seq<Reading>): (n: nat)
    ensures n <= |readings| && Unreadable !in readings[..n]
    ensures n < |readings| ==> readings[n].Unreadable?
  {
    if readings == [] || readings[0].Unreadable? then 0 else 1 + FirstUnreadable(readings[1..])
  }

  /** The windows of the lines that are not blank, in order. */
  function Windows(readings: seq<Reading>): seq<TimeWindow> {
    if readings == [] then []
    else
      var last := readings[|readings| - 1];
      Windows(readings[..|readings| - 1]) + (if last.Window? then [last.window] else [])
  }

  function TimeWindowsIn(readings: seq<Reading>): Result<seq<TimeWindow>, nat> {
    var n := FirstUnreadable(readings);
    if n < |readings| then Err(n + 1) else Ok(Windows(readings))
  }

  function TimeWindowsOf(raw: string): Result<seq<TimeWindow>, nat> {
    TimeWindowsIn(ReadLines(Lines(raw)))
  }

  lemma WindowsStep(readings: seq<Reading>, k: nat)
    requires k < |readings|
    ensures Windows(readings[..k + 1])
         == Windows(readings[..k]) + (if readings[k].Window? then [readings[k].window] else [])
    ensures Unreadable !in readings[..k] && !readings[k].Unreadable? ==> Unreadable !in readings[..k + 1]
  {
    assert readings[..k + 1][..k] == readings[..k];
    assert readings[..k + 1] == readings[..k] + [readings[k]];
  }

  lemma FirstUnreadableIs(readings: seq<Reading>, n: nat)
    requires n < |readings| && readings[n].Unreadable? && Unreadable !in readings[..n]
    ensures TimeWindowsIn(readings) == Err(n + 1)
  {
  }

  lemma AllReadable(readings: seq<Reading>)
    requires Unreadable !in readings[..|readings|]
    ensures TimeWindowsIn(readings) == Ok(Windows(readings[..|readings|]))
  {
    assert readings[..|readings|] == readings;
  }

  method ParseTimeWindows(raw: string) returns (r: Result<seq<TimeWindow>, nat>)
    ensures r == TimeWindowsOf(raw)
  {
    var windows: seq<TimeWindow> := [];
    var lines := Lines(raw);
    ghost var readings := ReadLines(lines);
    for index := 0 to |lines|
      invariant Unreadable !in readings[..index]
      invariant windows == Windows(readings[..index])
    {
      WindowsStep(readings, index);
      var reading := ParseLine(lines[index]);
      if reading.Blank? {
        continue;
      }
      if reading.Unreadable? {
        FirstUnreadableIs(readings, index);
        return Err(index + 1);
      }
      windows := windows + [reading.window];
    }
    AllReadable(readings);
    return Ok(windows);
  }

  /** The error is the number, from one, of the first line that is neither blank nor a window. */
  lemma ErrorNamesTheFirstUnreadableLine(raw: string, n: nat)
    ensures var readings := ReadLines(Lines(raw));
            TimeWindowsOf(raw) == Err(n) <==>
              1 <= n <= |readings| && readings[n - 1].Unreadable? && Unreadable !in readings[..n - 1]
  {
    var readings := ReadLines(Lines(raw));
    if 1 <= n <= |readings| && readings[n - 1].Unreadable? && Unreadable !in readings[..n - 1] {
      FirstUnreadableIs(readings, n - 1);
    }
  }

  // Printing, then reading

  /** Printable ASCII without white space. */
  predicate Plain(s: string) {
    forall i | 0 <= i < |s| :: '!' <= s[i] <= '~'
  }

  lemma PlainWord(s: string)
    requires Plain(s)
    ensures Free(s, WHITE) && Free(s, {'\n'}) && Trimmed(s)
  {
  }

  lemma HhmmIs(parts: (string, string), hours: nat, minutes: nat)
    requires hours <= 23 && minutes <= 59
    requires ParseUnsigned(parts.0, 0xFFFF) == Some(hours) && ParseUnsigned(parts.1, 0xFFFF) == Some(minutes)
    ensures HhmmOf(Some(parts)) == Some(hours * 60 + minutes)
  {
  }

  lemma SplitDigits(hh: string, mm: string)
    requires AllDigits(hh) && AllDigits(mm) && hh != [] && mm != []
    ensures SplitOnce(Trim(hh + ":" + mm), ':') == Some((hh, mm))
  {
    var text := hh + [':'] + mm;
    assert hh + ":" + mm == text;
    TrimOfTrimmed(text);
    SplitOnceIs(hh, ':', mm);
  }

  lemma HhmmPlain(minute: U16)
    ensures Plain(FormatHhmm(minute)) && Free(FormatHhmm(minute), {'-'}) && FormatHhmm(minute) != []
  {
    var text := FormatHhmm(minute);
    assert forall i | 0 <= i < |text| :: IsDigit(text[i]) || text[i] == ':';
  }

  lemma TwoDigits(n: nat)
    requires n <= 59
    ensures ParseUnsigned(Pad2(n), 0xFFFF) == Some(n)
  {
    ParseUnsignedDigits(Pad2(n), 0xFFFF);
  }

  lemma HhmmRoundTrip(minute: U16)
    requires minute <= 1439
    ensures ParseHhmm(FormatHhmm(minute)) == Some(minute)
  {
    var hours, minutes := minute / 60, minute % 60;
    TwoDigits(hours);
    TwoDigits(minutes);
    SplitDigits(Pad2(hours), Pad2(minutes));
    HhmmIs((Pad2(hours), Pad2(minutes)), hours, minutes);
  }

  lemma OffsetOfSigned(sign: char, rest: string, read: Option<U16>)
    requires sign == '+' || sign == '-'
    requires Plain(rest) && ParseHhmm(rest) == read && (read.Some? ==> read.value <= 1439)
    ensures ParseOffset([sign] + rest) == Signed(if sign == '-' then -1 else 1, read)
  {
    var text := [sign] + rest;
    TrimOfTrimmed(text);
    assert text[1..] == rest;
  }

  lemma SignedIs(minutes: I16)
    requires -1439 <= minutes <= 1439
    ensures Signed(if minutes < 0 then -1 else 1, Some(UnsignedAbs(minutes))) == Some(minutes)
  {
  }

  lemma PlainSigned(sign: char, text: string)
    requires '!' <= sign <= '~' && Plain(text)
    ensures Plain([sign] + text) && [sign] + text != []
  {
  }

  lemma OffsetRoundTrip(minutes: I16)
    requires -1439 <= minutes <= 1439
    ensures ParseOffset(FormatOffset(minutes)) == Some(minutes)
    ensures Plain(FormatOffset(minutes)) && FormatOffset(minutes) != []
  {
    var sign := if minutes < 0 then '-' else '+';
    var size := UnsignedAbs(minutes);
    HhmmRoundTrip(size);
    HhmmPlain(size);
    PlainSigned(sign, FormatHhmm(size));
    SignedIs(minutes);
    OffsetOfSigned(sign, FormatHhmm(size), Some(size));
  }

  lemma SplitTimes(start: string, end: string)
    requires Free(start, {'-'})
    ensures SplitOnce(start + "-" + end, '-') == Some((start, end))
  {
    assert start + "-" + end == start + ['-'] + end;
    SplitOnceIs(start, '-', end);
  }

  lemma TimesOfParts(start: string, end: string, from: U16, until: U16)
    requires Free(start, {'-'}) && ParseHhmm(start) == Some(from) && ParseHhmm(end) == Some(until)
    ensures TimesOf(start + "-" + end) == Some((from, until))
  {
    SplitTimes(start, end);
  }

  lemma PlainTimes(start: string, end: string)
    requires Plain(start) && Plain(end)
    ensures Plain(start + "-" + end)
  {
  }

  lemma TimesRoundTrip(w: TimeWindow)
    requires WellFormed(w)
    ensures TimesOf(FormatTimes(w)) == Some((w.startMinute, w.endMinute))
    ensures Plain(FormatTimes(w)) && FormatTimes(w) != []
  {
    HhmmRoundTrip(w.startMinute);
    HhmmRoundTrip(w.endMinute);
    HhmmPlain(w.startMinute);
    HhmmPlain(w.endMinute);
    PlainTimes(FormatHhmm(w.startMinute), FormatHhmm(w.endMinute));
    TimesOfParts(FormatHhmm(w.startMinute), FormatHhmm(w.endMinute), w.startMinute, w.endMinute);
  }

  predicate LowerLetters(s: string) {
    |s| == 3 && forall i | 0 <= i < |s| :: 'a' <= s[i] <= 'z'
  }

  lemma DayNamesAreNames()
    ensures |DAY_NAMES| == 7 && Distinct(DAY_NAMES) && forall d | 0 <= d < 7 :: LowerLetters(DAY_NAMES[d])
  {
  }

  lemma NameIndex(names: seq<string>, d: nat)
    requires |names| <= 7 && d < |names| && Distinct(names) && LowerLetters(names[d])
    ensures DayIndex(names[d], names) == Some(d)
  {
    var name := names[d];
    TrimOfTrimmed(name);
    assert Lower(name) == name;
  }

  /** What printing writes for known days: their names, in order. */
  lemma {:induction false} KnownNamesOf(days: seq<U8>, names: seq<string>)
    requires names == DAY_NAMES && forall k | 0 <= k < |days| :: days[k] < 7
    ensures |KnownNames(days)| == |days| && forall k | 0 <= k < |days| :: KnownNames(days)[k] == names[days[k]]
  {
    if days != [] {
      KnownNamesOf(days[1..], names);
    }
  }

  lemma {:induction false} JoinPlain(parts: seq<string>)
    requires parts != [] && forall k | 0 <= k < |parts| :: LowerLetters(parts[k])
    ensures Plain(Join(parts, ",")) && |Join(parts, ",")| >= 3
  {
    if |parts| > 1 {
      JoinPlain(parts[1..]);
    }
  }

  lemma IndicesOfNames(days: seq<U8>, pieces: seq<string>, names: seq<string>)
    requires GoodDays(days) && |pieces| == |days| && |names| == 7 && Distinct(names)
    requires forall d | 0 <= d < 7 :: LowerLetters(names[d])
    requires forall k | 0 <= k < |days| :: pieces[k] == names[days[k]]
    ensures Indexed(DayIndices(pieces, names)) && Collect(DayIndices(pieces, names)) == days
  {
    forall k | 0 <= k < |days| ensures DayIndices(pieces, names)[k] == Some(days[k]) {
      NameIndex(names, days[k]);
    }
    CollectDistinct(days, DayIndices(pieces, names));
  }

  lemma DaysRoundTrip(days: seq<U8>)
    requires GoodDays(days)
    ensures DaysOf(FormatDays(days)) == Some(days)
    ensures Plain(FormatDays(days)) && FormatDays(days) != []
  {
    if days != [] {
      DayNamesAreNames();
      var names, pieces := DAY_NAMES, KnownNames(days);
      KnownNamesOf(days, names);
      JoinPlain(pieces);
      assert "," == [','];
      SplitJoin(pieces, ',');
      IndicesOfNames(days, pieces, names);
    }
  }

  lemma JoinThree(a: string, b: string, c: string)
    ensures Join([a, b, c], " ") == a + " " + b + " " + c
  {
    assert [a, b, c][1..] == [b, c] && [b, c][1..] == [c];
    assert Join([b, c], " ") == b + " " + c;
    assert a + " " + (b + " " + c) == a + " " + b + " " + c;
  }

  lemma LineOfWords(a: string, b: string, c: string)
    requires Plain(a) && Plain(b) && Plain(c) && a != [] && b != [] && c != []
    ensures var line := a + " " + b + " " + c; Trimmed(line) && line != "" && Free(line, {'\n'})
  {
  }

  lemma ThreeWords(a: string, b: string, c: string)
    requires Plain(a) && Plain(b) && Plain(c) && a != [] && b != [] && c != []
    ensures Words(a + " " + b + " " + c) == [a, b, c]
  {
    PlainWord(a);
    PlainWord(b);
    PlainWord(c);
    JoinThree(a, b, c);
    assert " " == [' '] + "";
    CleanSplitJoin([a, b, c], ' ', "", WHITE);
  }

  lemma ReadPrinted(line: string, days: string, times: string, offset: string, w: TimeWindow)
    requires Trimmed(line) && line != "" && Words(line) == [days, times, offset]
    requires DaysOf(days) == Some(w.days) && TimesOf(times) == Some((w.startMinute, w.endMinute))
    requires ParseOffset(offset) == Some(w.utcOffsetMinutes)
    ensures ReadLine(line) == Window(w)
  {
    TrimOfTrimmed(line);
  }

  predicate Prints(line: string, w: TimeWindow) {
    line != "" && Trimmed(line) && Free(line, {'\n'}) && ReadLine(line) == Window(w)
  }

  lemma WindowRoundTrip(w: TimeWindow)
    requires WellFormed(w)
    ensures Prints(FormatTimeWindow(w), w)
  {
    var days, times, offset := FormatDays(w.days), FormatTimes(w), FormatOffset(w.utcOffsetMinutes);
    DaysRoundTrip(w.days);
    TimesRoundTrip(w);
    OffsetRoundTrip(w.utcOffsetMinutes);
    LineOfWords(days, times, offset);
    ThreeWords(days, times, offset);
    ReadPrinted(FormatTimeWindow(w), days, times, offset, w);
  }

  /** Joined lines come apart again; `lines` also drops a carriage return, which trimming would drop as well. */
  lemma {:induction false} LinesOfJoin(lines: seq<string>)
    requires forall k | 0 <= k < |lines| :: lines[k] != "" && Trimmed(lines[k]) && Free(lines[k], {'\n'})
    ensures Lines(Join(lines, "\n")) == lines
  {
    if |lines| == 1 {
      LastLine(lines[0]);
    } else if |lines| > 1 {
      LinesHead(lines[0], Join(lines[1..], "\n"));
      LinesOfJoin(lines[1..]);
    }
  }

  lemma LinesHead(a: string, b: string)
    requires Free(a, {'\n'})
    ensures Lines(a + ['\n'] + b) == [StripReturn(a)] + Lines(b)
  {
    var text := a + ['\n'] + b;
    assert text[..|a|] == a && text[|a| + 1..] == b;
    IndexOfIs(text, {'\n'}, |a|);
  }

  lemma LastLine(a: string)
    requires Free(a, {'\n'})
    ensures Lines(a) == if a == "" then [] else [a]
  {
    assert a[..|a|] == a;
    IndexOfIs(a, {'\n'}, |a|);
  }

  lemma ReadsEach(windows: seq<TimeWindow>, lines: seq<string>)
    requires lines == FormatEach(windows) && forall k | 0 <= k < |windows| :: WellFormed(windows[k])
    ensures forall k | 0 <= k < |windows| :: Prints(lines[k], windows[k])
  {
    forall k | 0 <= k < |windows| ensures Prints(lines[k], windows[k]) {
      WindowRoundTrip(windows[k]);
    }
  }

  lemma {:induction false} WindowsOfAll(windows: seq<TimeWindow>, readings: seq<Reading>)
    requires |readings| == |windows| && forall k | 0 <= k < |windows| :: readings[k] == Window(windows[k])
    ensures TimeWindowsIn(readings) == Ok(windows)
  {
    assert Unreadable !in readings[..FirstUnreadable(readings)];
    WindowsOfAllIn(windows, readings);
  }

  lemma {:induction false} WindowsOfAllIn(windows: seq<TimeWindow>, readings: seq<Reading>)
    requires |readings| == |windows| && forall k | 0 <= k < |windows| :: readings[k] == Window(windows[k])
    ensures Windows(readings) == windows
  {
    if windows != [] {
      WindowsOfAllIn(windows[..|windows| - 1], readings[..|windows| - 1]);
    }
  }

  lemma {:induction false} WindowsWellFormed(readings: seq<Reading>)
    requires forall k | 0 <= k < |readings| :: readings[k].Window? ==> WellFormed(readings[k].window)
    ensures forall k | 0 <= k < |Windows(readings)| :: WellFormed(Windows(readings)[k])
  {
    if readings != [] {
      WindowsWellFormed(readings[..|readings| - 1]);
    }
  }

  /** Every window read is well formed. */
  lemma ReadWindowsAreWellFormed(raw: string)
    requires TimeWindowsOf(raw).Ok?
    ensures forall k | 0 <= k < |TimeWindowsOf(raw).value| :: WellFormed(TimeWindowsOf(raw).value[k])
  {
    WindowsWellFormed(ReadLines(Lines(raw)));
  }

  /** A list of windows survives the form exactly when each has distinct known days and times within a day. */
  lemma TimeWindowsRoundTrip(windows: seq<TimeWindow>)
    ensures TimeWindowsOf(FormatTimeWindows(windows)) == Ok(windows)
       <==> forall k | 0 <= k < |windows| :: WellFormed(windows[k])
  {
    if TimeWindowsOf(FormatTimeWindows(windows)) == Ok(windows) {
      ReadWindowsAreWellFormed(FormatTimeWindows(windows));
    }
    if forall k | 0 <= k < |windows| :: WellFormed(windows[k]) {
      PrintedReadsBack(windows);
    }
  }

  lemma PrintedReadsBack(windows: seq<TimeWindow>)
    requires forall k | 0 <= k < |windows| :: WellFormed(windows[k])
    ensures TimeWindowsOf(FormatTimeWindows(windows)) == Ok(windows)
  {
    var lines := FormatEach(windows);
    ReadsEach(windows, lines);
    LinesOfJoin(lines);
    WindowsOfAll(windows, ReadLines(lines));
  }

  /** Opening the form and saving it unchanged keeps every window. */
  lemma TimeWindowsReparse(raw: string)
    requires TimeWindowsOf(raw).Ok?
    ensures TimeWindowsOf(FormatTimeWindows(TimeWindowsOf(raw).value)) == TimeWindowsOf(raw)
  {
    ReadWindowsAreWellFormed(raw);
    PrintedReadsBack(TimeWindowsOf(raw).value);
  }

  // A browser submits a text area with CRLF line ends

  function Submitted(s: string): string {
    if s == [] then []
    else (if s[0] == '\n' then ['\r', '\n'] else [s[0]]) + Submitted(s[1..])
  }

  lemma {:induction false} SubmittedHead(a: string, b: string)
    requires Free(a, {'\n'})
    ensures Submitted(a + b) == a + Submitted(b)
  {
    if a == [] {
      assert a + b == b;
    } else {
      assert (a + b)[1..] == a[1..] + b;
      SubmittedHead(a[1..], b);
    }
  }

  lemma SubmittedFree(a: string)
    requires Free(a, {'\n'})
    ensures Submitted(a) == a
  {
    SubmittedHead(a, "");
    assert a + "" == a;
  }

  /** Line ends do not change the list that is read. */
  lemma {:induction false} ListOfSubmitted(raw: string)
    ensures ParseList(Submitted(raw)) == ParseList(raw)
    decreases |raw|
  {
    var i := IndexOf(raw, {'\n', ','});
    if i == |raw| {
      assert raw[..i] == raw;
      SubmittedFree(raw);
    } else {
      assert raw == raw[..i] + [raw[i]] + raw[i + 1..];
      ListOfSubmitted(raw[i + 1..]);
      ValueOfSubmitted(raw[..i], raw[i], raw[i + 1..]);
    }
  }

  lemma ValueOfSubmitted(head: string, sep: char, tail: string)
    requires Free(head, {'\n', ','}) && sep in {'\n', ','} && ParseList(Submitted(tail)) == ParseList(tail)
    ensures ParseList(Submitted(head + [sep] + tail)) == ParseList(head + [sep] + tail)
  {
    var seps := {'\n', ','};
    var more := if sep == '\n' then head + ['\r'] else head;
    SubmittedPiece(head, sep, tail);
    TrimWhiteSuffix(head, '\r');
    SplitHead(more, sep, Submitted(tail), seps);
    SplitHead(head, sep, tail, seps);
    CleanOne(more, Split(Submitted(tail), seps));
    CleanOne(head, Split(tail, seps));
  }

  lemma SubmittedPiece(head: string, sep: char, tail: string)
    requires Free(head, {'\n'})
    ensures Submitted(head + [sep] + tail) == (if sep == '\n' then head + ['\r'] else head) + [sep] + Submitted(tail)
  {
    assert head + [sep] + tail == head + ([sep] + tail) && ([sep] + tail)[1..] == tail;
    SubmittedHead(head, [sep] + tail);
  }

  lemma CleanOne(part: string, parts: seq<string>)
    ensures Clean([part] + parts) == (if Trim(part) == [] then [] else [Trim(part)]) + Clean(parts)
  {
    assert ([part] + parts)[1..] == parts;
  }

  lemma ReturnIsTrimmed(line: string)
    ensures Trim(StripReturn(line)) == Trim(line)
  {
    if line != [] && line[|line| - 1] == '\r' {
      assert line == line[..|line| - 1] + ['\r'];
      TrimWhiteSuffix(line[..|line| - 1], '\r');
    }
  }

  /** Line ends change nothing but what trimming removes. */
  lemma {:induction false} LinesOfSubmitted(raw: string)
    ensures TrimAlike(Lines(Submitted(raw)), Lines(raw))
    decreases |raw|
  {
    var i := IndexOf(raw, {'\n'});
    if i == |raw| {
      assert raw[..i] == raw;
      SubmittedFree(raw);
    } else {
      var head, tail := raw[..i], raw[i + 1..];
      assert raw == head + ['\n'] + tail;
      LinesOfSubmitted(tail);
      LineOfSubmitted(head, tail);
    }
  }

  predicate TrimAlike(a: seq<string>, b: seq<string>) {
    |a| == |b| && forall k | 0 <= k < |a| :: Trim(a[k]) == Trim(b[k])
  }

  lemma TrimAlikeCons(x: string, y: string, a: seq<string>, b: seq<string>)
    requires Trim(x) == Trim(y) && TrimAlike(a, b)
    ensures TrimAlike([x] + a, [y] + b)
  {
  }

  lemma LineOfSubmitted(head: string, tail: string)
    requires Free(head, {'\n'}) && TrimAlike(Lines(Submitted(tail)), Lines(tail))
    ensures TrimAlike(Lines(Submitted(head + ['\n'] + tail)), Lines(head + ['\n'] + tail))
  {
    SubmittedLine(head, tail);
    LinesHead(head, tail);
    LinesHead(head + ['\r'], Submitted(tail));
    ReturnIsTrimmed(head);
    TrimAlikeCons(head, StripReturn(head), Lines(Submitted(tail)), Lines(tail));
  }

  lemma SubmittedLine(head: string, tail: string)
    requires Free(head, {'\n'})
    ensures Submitted(head + ['\n'] + tail) == (head + ['\r']) + ['\n'] + Submitted(tail)
    ensures StripReturn(head + ['\r']) == head
  {
    SubmittedPiece(head, '\n', tail);
  }

  /** Line ends change neither the windows read nor the line number of an error. */
  lemma TimeWindowsOfSubmitted(raw: string)
    ensures TimeWindowsOf(Submitted(raw)) == TimeWindowsOf(raw)
  {
    LinesOfSubmitted(raw);
    var a, b := Lines(Submitted(raw)), Lines(raw);
    forall k | 0 <= k < |b| ensures ReadLines(a)[k] == ReadLines(b)[k] {
      SameReading(a[k], b[k]);
    }
    assert ReadLines(a) == ReadLines(b);
  }

  lemma SameReading(a: string, b: string)
    requires Trim(a) == Trim(b)
    ensures ReadLine(a) == ReadLine(b)
  {
  }
}
