/**
  The Landsat 7 metadata reader of the ETPOT script generator: the day-of-year
  conversion, the scan of the `.met` file for the acquisition date and the WRS
  path and row, and the `p<path>r<row><yyyymmdd>` base name built from them.
 */
module L7Met {
  import opened Wrappers
  import opened CString

  // ---------------------------------------------------------------------------
  // Calendar

  /** Days in each month of a common year. */
  function MonthLength(month: int): nat
  {
    if month == 2 then 28
    else if month == 4 || month == 6 || month == 9 || month == 11 then 30
    else 31
  }

  /** C's `/` on int: the quotient is truncated toward zero. */
  function CDiv(a: int, b: int): (q: int)
    requires b > 0
    ensures a >= 0 ==> q == a / b
    ensures a < 0 ==> q == -((-a) / b)
  {
    if a >= 0 then a / b else -((-a) / b)
  }

  /** The leap-year test of date2doy: `year/4*4 == year` in C arithmetic. */
  predicate IsLeap(year: int)
  {
    CDiv(year, 4) * 4 == year
  }

  /** The test is divisibility by 4 (the Julian rule: century years count as leap years too). */
  lemma LeapIsDivisibleBy4(year: int)
    ensures IsLeap(year) <==> year % 4 == 0
  {
    if year < 0 {
      var n := -year;
      assert n == (n / 4) * 4 + n % 4;
      assert year == -((n / 4) * 4) - n % 4;
      assert year % 4 == 0 <==> n % 4 == 0 by {
        if n % 4 == 0 {
          assert year == (-(n / 4)) * 4;
        } else {
          assert year == (-(n / 4) - 1) * 4 + (4 - n % 4);
        }
      }
    }
  }

  function DaysInMonth(month: int, year: int): nat
  {
    if month == 2 && IsLeap(year) then 29 else MonthLength(month)
  }

  function DaysInYear(year: int): nat
  {
    if IsLeap(year) then 366 else 365
  }

  ghost predicate ValidDate(day: int, month: int, year: int)
  {
    1 <= month <= 12 && 1 <= day <= DaysInMonth(month, year)
  }

  /** Whether (day1, month1) comes before (day2, month2) within a year. */
  predicate Before(day1: int, month1: int, day2: int, month2: int)
  {
    month1 < month2 || (month1 == month2 && day1 < day2)
  }

  /** The days of the months before `month` in a common year, as date2doy's chain of cases gives them; 0 for a month outside 1..12. */
  function MonthOffset(month: int): nat
  {
    if month == 1 then 0
    else if month == 2 then 31
    else if month == 3 then 59
    else if month == 4 then 90
    else if month == 5 then 120
    else if month == 6 then 151
    else if month == 7 then 181
    else if month == 8 then 212
    else if month == 9 then 243
    else if month == 10 then 273
    else if month == 11 then 304
    else if month == 12 then 334
    else 0
  }

  /** The sum of the lengths of the months before `month` in a common year. */
  function DaysBefore(month: nat): nat
  {
    if month <= 1 then 0 else DaysBefore(month - 1) + MonthLength(month - 1)
  }

  /** The table of offsets is the running sum of the month lengths, ending with a 365-day year. */
  lemma MonthOffsetIsRunningSum(month: int)
    requires 1 <= month <= 12
    ensures MonthOffset(month) == DaysBefore(month)
    ensures DaysBefore(12) + MonthLength(12) == 365
  {
    assert DaysBefore(1) == 0;
    assert DaysBefore(2) == 31;
    assert DaysBefore(3) == 59;
    assert DaysBefore(4) == 90;
    assert DaysBefore(5) == 120;
    assert DaysBefore(6) == 151;
    assert DaysBefore(7) == 181;
    assert DaysBefore(8) == 212;
    assert DaysBefore(9) == 243;
    assert DaysBefore(10) == 273;
    assert DaysBefore(11) == 304;
    assert DaysBefore(12) == 334;
  }

  /** A later month's offset is at least the earlier month's offset plus its length. */
  lemma MonthOffsetGrows(m1: int, m2: int)
    requires 1 <= m1 < m2 <= 12
    ensures MonthOffset(m1) + MonthLength(m1) <= MonthOffset(m2)
  {
  }

  /**
    date2doy as written: the month's offset plus the day, plus one in a leap year
    when that sum exceeds 59.
   */
  function DateToDoy(day: int, month: int, year: int): int
  {
    var total := MonthOffset(month);
    var leap := if IsLeap(year) then 1 else 0;
    var doy := total + day;
    if doy > 59 then total + day + leap else doy
  }

  /** Every valid date gets a day of the year within its year. */
  lemma DoyInYear(day: int, month: int, year: int)
    requires ValidDate(day, month, year)
    ensures 1 <= DateToDoy(day, month, year) <= DaysInYear(year)
  {
  }

  /** date2doy never decreases along the calendar: a later date of the same year gets at least the earlier one's number. */
  lemma DoyMonotone(day1: int, month1: int, day2: int, month2: int, year: int)
    requires ValidDate(day1, month1, year) && ValidDate(day2, month2, year)
    requires Before(day1, month1, day2, month2)
    ensures DateToDoy(day1, month1, year) <= DateToDoy(day2, month2, year)
  {
    if month1 < month2 {
      MonthOffsetGrows(month1, month2);
    }
  }

  /** date2doy agrees with the corrected count on every valid date but February 29. */
  lemma DoyAgreesExceptLeapDay(day: int, month: int, year: int)
    requires ValidDate(day, month, year) && !(month == 2 && day == 29)
    ensures DateToDoy(day, month, year) == DateToDoyFixed(day, month, year)
  {
  }

  /** date2doy gives February 29 of a leap year the number of March 1. */
  lemma LeapDayCollides(year: int)
    requires IsLeap(year)
    ensures ValidDate(29, 2, year) && ValidDate(1, 3, year)
    ensures DateToDoy(29, 2, year) == DateToDoy(1, 3, year) == 61
  {
  }

  /** date2doy as intended: one more day only for the months after February of a leap year. */
  function DateToDoyFixed(day: int, month: int, year: int): int
  {
    MonthOffset(month) + day + (if month > 2 && IsLeap(year) then 1 else 0)
  }

  /** The corrected count numbers the days of a year 1, 2, ... in calendar order, without a gap or a repeat. */
  lemma DoyFixedOrdered(day1: int, month1: int, day2: int, month2: int, year: int)
    requires ValidDate(day1, month1, year) && ValidDate(day2, month2, year)
    ensures 1 <= DateToDoyFixed(day1, month1, year) <= DaysInYear(year)
    ensures Before(day1, month1, day2, month2) <==>
            DateToDoyFixed(day1, month1, year) < DateToDoyFixed(day2, month2, year)
  {
    if month1 < month2 {
      MonthOffsetGrows(month1, month2);
    } else if month2 < month1 {
      MonthOffsetGrows(month2, month1);
    }
  }

  /** The corrected count gives every day of the year: the last day of each month is followed by day 1 of the next. */
  lemma DoyFixedNextMonth(month: int, year: int)
    requires 1 <= month < 12
    ensures DateToDoyFixed(1, month + 1, year) == DateToDoyFixed(DaysInMonth(month, year), month, year) + 1
    ensures DateToDoyFixed(1, 1, year) == 1 && DateToDoyFixed(31, 12, year) == DaysInYear(year)
  {
  }

  // ---------------------------------------------------------------------------
  // The base name

  /** `%d` with a leading "0" for a number below 10, as the month and the day are printed. */
  function Pad2(n: int): string
  {
    if n < 10 then "0" + Decimal(n) else Decimal(n)
  }

  /** Months and days print as exactly two digits that atoi reads back. */
  lemma Pad2RoundTrip(n: int)
    requires 0 <= n <= 99
    ensures |Pad2(n)| == 2 && AllDigits(Pad2(n)) && Atoi(Pad2(n)) == n
  {
    NatStringLength(n);
    NatStringValue(n);
    if n < 10 {
      LeadingZero(NatString(n));
      AtoiDigits("0" + NatString(n), []);
      assert "0" + NatString(n) + [] == Pad2(n);
    } else {
      AtoiDigits(NatString(n), []);
      assert NatString(n) + [] == Pad2(n);
    }
  }

  const NameMax: nat := 79

  /** `snprintf(basedate, 80, "p%sr%s%d%s%s", ...)`: the scene's base name, at most 79 characters. */
  function BaseDate(path: string, row: string, year: int, month: int, day: int): (b: string)
    ensures |b| <= NameMax
  {
    Truncate("p" + path + "r" + row + DateString(year, month, day), NameMax)
  }

  /** The `%d%s%s` part of the base name: the year, then the padded month and day. */
  function DateString(year: int, month: int, day: int): string
  {
    Decimal(year) + Pad2(month) + Pad2(day)
  }

  /** Where the parts of "p" + path + "r" + row + an eight-character tail sit. */
  lemma NameLayout(path: string, row: string, tail: string)
    requires |tail| == 8
    ensures var b := "p" + path + "r" + row + tail;
            var n := |b|;
            && n == |path| + |row| + 10
            && b[0] == 'p' && b[1..1 + |path|] == path && b[1 + |path|] == 'r'
            && b[2 + |path|..n - 8] == row
            && b[n - 8..] == tail
  {
    var head := "p" + path + "r" + row;
    SuffixSlice(head, tail, 0, 8);
    PrefixSlice(head, tail, 1, 1 + |path|);
    PrefixSlice(head, tail, 2 + |path|, |head|);
    assert head[1..1 + |path|] == path;
    assert head[2 + |path|..] == row;
  }

  /** A slice of the first part of a concatenation is a slice of that part. */
  lemma PrefixSlice(a: string, b: string, i: nat, j: nat)
    requires i <= j <= |a|
    ensures (a + b)[i..j] == a[i..j]
  {
    assert forall k :: i <= k < j ==> (a + b)[k] == a[k];
  }

  /** A slice of the second part of a concatenation is a slice of that part. */
  lemma SuffixSlice(a: string, b: string, i: nat, j: nat)
    requires i <= j <= |b|
    ensures (a + b)[|a| + i..|a| + j] == b[i..j]
  {
    assert forall k :: i <= k < j ==> (a + b)[|a| + k] == b[k];
  }

  /** The eight digits `%d%s%s` writes for a four-digit year, a month and a day read back as those numbers. */
  lemma DateDigits(year: int, month: int, day: int)
    requires 1000 <= year <= 9999 && 1 <= month <= 12 && 1 <= day <= 31
    ensures var t := DateString(year, month, day);
            |t| == 8 && Atoi(t[..4]) == year && Atoi(t[4..6]) == month && Atoi(t[6..]) == day
  {
    NatStringLength(year);
    Pad2RoundTrip(month);
    Pad2RoundTrip(day);
    AtoiDecimal(year);
    Split8(Decimal(year), Pad2(month), Pad2(day));
  }

  lemma Split8(y: string, mm: string, dd: string)
    requires |y| == 4 && |mm| == 2 && |dd| == 2
    ensures var t := y + mm + dd;
            |t| == 8 && t[..4] == y && t[4..6] == mm && t[6..] == dd
  {
  }

  /**
    For a four-digit year, a valid month and day and a path and row short enough
    not to be cut, the base name is "p", the path, "r", the row and the eight
    digits of the date (which DateDigits reads back).
   */
  lemma BaseDateParts(path: string, row: string, year: int, month: int, day: int)
    requires |path| + |row| <= NameMax - 12
    requires 1000 <= year <= 9999 && 1 <= month <= 12 && 1 <= day <= 31
    ensures var b := BaseDate(path, row, year, month, day);
            var n := |b|;
            && n == |path| + |row| + 10
            && b[0] == 'p' && b[1..1 + |path|] == path && b[1 + |path|] == 'r'
            && b[2 + |path|..n - 8] == row
            && b[n - 8..] == DateString(year, month, day)
  {
    var tail := DateString(year, month, day);
    DateDigits(year, month, day);
    NameLayout(path, row, tail);
  }

  // ---------------------------------------------------------------------------
  // Scanning the metadata file

  /** The values read so far. The path and the row are None until a line gives them: their buffers start uninitialised. */
  datatype Met = Met(year: int, month: int, day: int, path: Option<string>, row: Option<string>)

  /** `int day=0, month=0, year=0`. */
  const Initial: Met := Met(0, 0, 0, None, None)

  /** Why the reader gives no scene. */
  datatype ScanError =
    | CannotOpen                    // fopen failed and main returns 1
    | MissingValue(keyword: string) // strtok gave NULL where atoi or `%s` reads a string (undefined behaviour in C)
    | Unset(keyword: string)        // the path or the row was never read, so an uninitialised buffer would be printed

  /** What the reader reports: the acquisition date and the base name of the scene's maps. */
  datatype Scene = Scene(year: int, month: int, day: int, basedate: string)

  /** The values and the line buffer after one step of the scan. */
  datatype Scan = Scan(met: Met, buf: seq<char>)

  /** The string a keyword step read (None when its keyword is absent) and the line buffer after it. */
  datatype Text = Text(value: Option<string>, buf: seq<char>)

  const DateKey: string := "ACQUISITION_DATE"
  const PathKey: string := "WRS_PATH"
  const RowKey: string := "WRS_ROW"

  const KeyDelims: set<char> := {' ', '='}
  const YearDelims: set<char> := {' ', '=', '-'}
  const DateDelims: set<char> := {'-'}
  const ValueDelims: set<char> := {' ', '=', '\n'}

  /** A buffer and a strtok save pointer inside it. */
  ghost predicate Resumable(t: Tok)
  {
    Terminated(t.buf) && t.save < |t.buf|
  }

  /** `atoi(p)` on the token strtok returned. */
  function TokenValue(t: Tok): int
    requires Terminated(t.buf) && t.token.Some? && t.token.value < |t.buf|
  {
    Atoi(CStr(t.buf, t.token.value))
  }

  /**
    The ACQUISITION_DATE step of a line: from the keyword, the tokens after
    " =", " =-", "-" and "-" are read with atoi as the year, the month and the day.
   */
  function DateStep(m: Met, buf: seq<char>): (r: Result<Scan, ScanError>)
    requires Terminated(buf)
    ensures r.Ok? ==> Terminated(r.value.buf) && |r.value.buf| == |buf|
  {
    match StrStr(buf, DateKey)
    case None => Ok(Scan(m, buf))
    case Some(i) => YearStep(m, Strtok(buf, i, KeyDelims))
  }

  /** `p = strtok(NULL, " =-"); year = atoi(p);`, then the month. */
  function YearStep(m: Met, t0: Tok): (r: Result<Scan, ScanError>)
    requires Resumable(t0)
    ensures r.Ok? ==> Terminated(r.value.buf) && |r.value.buf| == |t0.buf|
  {
    var t1 := Strtok(t0.buf, t0.save, YearDelims);
    if t1.token.None? then Err(MissingValue(DateKey))
    else MonthStep(m.(year := TokenValue(t1)), t1)
  }

  /** `p = strtok(NULL, "-"); month = atoi(p);`, then the day. */
  function MonthStep(m: Met, t1: Tok): (r: Result<Scan, ScanError>)
    requires Resumable(t1)
    ensures r.Ok? ==> Terminated(r.value.buf) && |r.value.buf| == |t1.buf|
  {
    var t2 := Strtok(t1.buf, t1.save, DateDelims);
    if t2.token.None? then Err(MissingValue(DateKey))
    else DayStep(m.(month := TokenValue(t2)), t2)
  }

  /** `p = strtok(NULL, "-"); day = atoi(p);`. */
  function DayStep(m: Met, t2: Tok): (r: Result<Scan, ScanError>)
    requires Resumable(t2)
    ensures r.Ok? ==> Terminated(r.value.buf) && |r.value.buf| == |t2.buf|
  {
    var t3 := Strtok(t2.buf, t2.save, DateDelims);
    if t3.token.None? then Err(MissingValue(DateKey))
    else Ok(Scan(m.(day := TokenValue(t3)), t3.buf))
  }

  /**
    The WRS_PATH or WRS_ROW step of a line: from the keyword, the token after
    " =" and then " =\n" is copied with `snprintf(.., 80, "%s", ..)`.
   */
  function TextStep(buf: seq<char>, key: string): (r: Result<Text, ScanError>)
    requires Terminated(buf) && |key| > 0
    ensures r.Ok? ==> Terminated(r.value.buf) && |r.value.buf| == |buf|
  {
    match StrStr(buf, key)
    case None => Ok(Text(None, buf))
    case Some(i) =>
      var t0 := Strtok(buf, i, KeyDelims);
      var t1 := Strtok(t0.buf, t0.save, ValueDelims);
      if t1.token.None? then Err(MissingValue(key))
      else Ok(Text(Some(Truncate(CStr(t1.buf, t1.token.value), NameMax)), t1.buf))
  }

  /** One line of the file: the date step, then the path step, then the row step, each on the buffer the previous one left. */
  function LineStep(m: Met, buf: seq<char>): (r: Result<Scan, ScanError>)
    requires Terminated(buf)
  {
    match DateStep(m, buf)
    case Err(e) => Err(e)
    case Ok(d) =>
      match TextStep(d.buf, PathKey)
      case Err(e) => Err(e)
      case Ok(p) =>
        var m1 := if p.value.Some? then d.met.(path := p.value) else d.met;
        match TextStep(p.buf, RowKey)
        case Err(e) => Err(e)
        case Ok(q) => Ok(Scan(if q.value.Some? then m1.(row := q.value) else m1, q.buf))
  }

  /** `fgets(s, 1000, f)` stores at most 999 characters. */
  const ChunkMax: nat := 999

  /** fgets: where the chunk that starts the file ends, looking from i: after the first newline, at ChunkMax characters or at the end of the file. */
  function FgetsEnd(file: string, i: nat): (n: nat)
    requires i <= |file| && i <= ChunkMax
    ensures i <= n <= |file| && n <= ChunkMax
    ensures i < |file| && i < ChunkMax ==> i < n
    ensures forall k :: i <= k < n - 1 ==> file[k] != '\n'
    ensures n == |file| || n == ChunkMax || (i < n && file[n - 1] == '\n')
    decreases |file| - i
  {
    if i == |file| || i == ChunkMax then i
    else if file[i] == '\n' then i + 1
    else FgetsEnd(file, i + 1)
  }

  /** The successive chunks fgets returns for a file. */
  function Chunks(file: string): seq<string>
    decreases |file|
  {
    if file == [] then [] else
    var n := FgetsEnd(file, 0);
    [file[..n]] + Chunks(file[n..])
  }

  function Concat(cs: seq<string>): string
  {
    if cs == [] then [] else cs[0] + Concat(cs[1..])
  }

  /** A chunk fgets can return: 1 to 999 characters, with no newline before the last. */
  ghost predicate GoodChunk(c: string)
  {
    0 < |c| <= ChunkMax && forall k :: 0 <= k < |c| - 1 ==> c[k] != '\n'
  }

  /** The chunks are the file cut into pieces of 1 to 999 characters, each ending at its first newline if it has one. */
  lemma {:induction false} ChunksCoverFile(file: string)
    ensures Concat(Chunks(file)) == file
    ensures forall c :: c in Chunks(file) ==> GoodChunk(c)
  {
    ChunksConcat(file);
    ChunksGood(file);
  }

  lemma {:induction false} ChunksConcat(file: string)
    ensures Concat(Chunks(file)) == file
    decreases |file|
  {
    if file != [] {
      var n := FgetsEnd(file, 0);
      ChunksConcat(file[n..]);
      ConcatCons(file[..n], Chunks(file[n..]));
      assert file[..n] + file[n..] == file;
    }
  }

  lemma ConcatCons(c: string, cs: seq<string>)
    ensures Concat([c] + cs) == c + Concat(cs)
  {
    assert ([c] + cs)[0] == c && ([c] + cs)[1..] == cs;
  }

  lemma {:induction false} ChunksGood(file: string)
    ensures forall c :: c in Chunks(file) ==> GoodChunk(c)
    decreases |file|
  {
    if file != [] {
      var n := FgetsEnd(file, 0);
      var head := file[..n];
      var rest := Chunks(file[n..]);
      assert Chunks(file) == [head] + rest;
      ChunksGood(file[n..]);
      HeadChunkGood(file);
      forall c | c in Chunks(file)
        ensures GoodChunk(c)
      {
        if c != head {
          assert c in rest;
        }
      }
    }
  }

  lemma HeadChunkGood(file: string)
    requires file != []
    ensures GoodChunk(file[..FgetsEnd(file, 0)])
  {
    var n := FgetsEnd(file, 0);
    var head := file[..n];
    forall k | 0 <= k < |head| - 1
      ensures head[k] != '\n'
    {
      assert head[k] == file[k];
    }
  }

  /** The buffer fgets fills with a chunk: the chunk and a NUL. */
  function Buffer(chunk: string): (b: seq<char>)
    ensures Terminated(b) && |b| == |chunk| + 1 && b[..|chunk|] == chunk
  {
    chunk + [NUL]
  }

  /** One pass of the fgets loop: the line step on the chunk's buffer, keeping the values. */
  function ChunkStep(m: Met, chunk: string): Result<Met, ScanError>
  {
    match LineStep(m, Buffer(chunk))
    case Err(e) => Err(e)
    case Ok(s) => Ok(s.met)
  }

  /** The scan of a sequence of chunks; it stops at the first error. */
  function ScanChunks(m: Met, chunks: seq<string>): Result<Met, ScanError>
    decreases |chunks|
  {
    if chunks == [] then Ok(m)
    else
      match ChunkStep(m, chunks[0])
      case Err(e) => Err(e)
      case Ok(m1) => ScanChunks(m1, chunks[1..])
  }

  /** The scan of a chunk followed by more chunks: the chunk's step, then the rest unless the step failed. */
  lemma ScanChunksCons(m: Met, chunk: string, rest: seq<string>)
    ensures ChunkStep(m, chunk).Err? ==> ScanChunks(m, [chunk] + rest) == Err(ChunkStep(m, chunk).error)
    ensures ChunkStep(m, chunk).Ok? ==> ScanChunks(m, [chunk] + rest) == ScanChunks(ChunkStep(m, chunk).value, rest)
  {
    assert ([chunk] + rest)[0] == chunk;
    assert ([chunk] + rest)[1..] == rest;
  }

  /** After the scan: the scene, or Unset when the path or the row was never read. */
  function Finish(m: Met): Result<Scene, ScanError>
  {
    if m.path.None? then Err(Unset(PathKey))
    else if m.row.None? then Err(Unset(RowKey))
    else Ok(Scene(m.year, m.month, m.day, BaseDate(m.path.value, m.row.value, m.year, m.month, m.day)))
  }

  /** The whole read of a metadata file (None: the file cannot be opened). */
  function ReadMetSpec(file: Option<string>): Result<Scene, ScanError>
  {
    if file.None? then Err(CannotOpen)
    else
      match ScanChunks(Initial, Chunks(file.value))
      case Err(e) => Err(e)
      case Ok(m) => Finish(m)
  }

  /** The result of a step method as the step function states it. */
  function Outcome(failure: Option<ScanError>, m: Met, buf: seq<char>): Result<Scan, ScanError>
  {
    if failure.Some? then Err(failure.value) else Ok(Scan(m, buf))
  }

  function MetOutcome(failure: Option<ScanError>, m: Met): Result<Met, ScanError>
  {
    if failure.Some? then Err(failure.value) else Ok(m)
  }

  function TextOutcome(r: Result<Option<string>, ScanError>, buf: seq<char>): Result<Text, ScanError>
  {
    if r.Err? then Err(r.error) else Ok(Text(r.value, buf))
  }

  /** The variables of main that the fgets loop assigns. */
  class MetReader {
    var year: int
    var month: int
    var day: int
    var path: Option<string>
    var row: Option<string>

    function Current(): Met
      reads this
    {
      Met(year, month, day, path, row)
    }

    constructor ()
      ensures Current() == Initial
    {
      year, month, day := 0, 0, 0;
      path, row := None, None;
    }

    /** The ACQUISITION_DATE block of the loop body. */
    method ScanDate(s: array<char>) returns (failure: Option<ScanError>)
      requires Terminated(s[..])
      modifies this, s
      ensures Outcome(failure, Current(), s[..]) == DateStep(old(Current()), old(s[..]))
    {
      var at := StrStr(s[..], DateKey);
      if at.None? {
        return None;
      }
      var p, save := StrtokAt(s, at.value, KeyDelims);
      failure := ScanYear(s, Tok(p, s[..], save), save);
    }

    /** `p = strtok(NULL, " =-"); year = atoi(p);`, then the month. */
    method ScanYear(s: array<char>, ghost t0: Tok, save: nat) returns (failure: Option<ScanError>)
      requires Resumable(t0) && s[..] == t0.buf && save == t0.save
      modifies this, s
      ensures Outcome(failure, Current(), s[..]) == YearStep(old(Current()), t0)
    {
      ghost var t1 := Strtok(s[..], save, YearDelims);
      var v, next := NextNumber(s, save, YearDelims);
      if v.None? {
        return Some(MissingValue(DateKey));
      }
      year := v.value;
      failure := ScanMonth(s, t1, next);
    }

    /** `p = strtok(NULL, "-"); month = atoi(p);`, then the day. */
    method ScanMonth(s: array<char>, ghost t1: Tok, save: nat) returns (failure: Option<ScanError>)
      requires Resumable(t1) && s[..] == t1.buf && save == t1.save
      modifies this, s
      ensures Outcome(failure, Current(), s[..]) == MonthStep(old(Current()), t1)
    {
      ghost var t2 := Strtok(s[..], save, DateDelims);
      var v, next := NextNumber(s, save, DateDelims);
      if v.None? {
        return Some(MissingValue(DateKey));
      }
      month := v.value;
      failure := ScanDay(s, t2, next);
    }

    /** `p = strtok(NULL, "-"); day = atoi(p);`. */
    method ScanDay(s: array<char>, ghost t2: Tok, save: nat) returns (failure: Option<ScanError>)
      requires Resumable(t2) && s[..] == t2.buf && save == t2.save
      modifies this, s
      ensures Outcome(failure, Current(), s[..]) == DayStep(old(Current()), t2)
    {
      var v, next := NextNumber(s, save, DateDelims);
      if v.None? {
        return Some(MissingValue(DateKey));
      }
      day := v.value;
      failure := None;
    }

    /** `p = strtok(NULL, delims)` followed by `atoi(p)`: the number read, or None when strtok finds no token. */
    static method NextNumber(s: array<char>, from: nat, delims: set<char>) returns (v: Option<int>, save: nat)
      requires Terminated(s[..]) && from < s.Length && NUL !in delims
      modifies s
      ensures var t := Strtok(old(s[..]), from, delims);
              && s[..] == t.buf && save == t.save && (v.None? <==> t.token.None?)
              && (v.Some? ==> v.value == TokenValue(t))
    {
      var p;
      p, save := StrtokAt(s, from, delims);
      if p.None? {
        return None, save;
      }
      return Some(Atoi(CStr(s[..], p.value))), save;
    }

    /** The WRS_PATH and WRS_ROW blocks of the loop body, without the assignment. */
    static method ReadText(s: array<char>, key: string) returns (r: Result<Option<string>, ScanError>)
      requires Terminated(s[..]) && |key| > 0
      modifies s
      ensures TextOutcome(r, s[..]) == TextStep(old(s[..]), key)
    {
      var at := StrStr(s[..], key);
      if at.None? {
        return Ok(None);
      }
      var p, save := StrtokAt(s, at.value, KeyDelims);
      p, save := StrtokAt(s, save, ValueDelims);
      if p.None? {
        return Err(MissingValue(key));
      }
      return Ok(Some(Truncate(CStr(s[..], p.value), NameMax)));
    }

    /** One pass of the fgets loop: the chunk is copied into a NUL-terminated buffer and scanned. */
    method ReadChunk(chunk: string) returns (failure: Option<ScanError>)
      modifies this
      ensures MetOutcome(failure, Current()) == ChunkStep(old(Current()), chunk)
    {
      var n := |chunk|;
      var s := new char[n + 1](i => if 0 <= i < n then chunk[i] else NUL);
      assert s[..] == Buffer(chunk);
      failure := ScanLine(s);
    }

    /** The body of the fgets loop for the date, the path and the row. */
    method ScanLine(s: array<char>) returns (failure: Option<ScanError>)
      requires Terminated(s[..])
      modifies this, s
      ensures Outcome(failure, Current(), s[..]) == LineStep(old(Current()), old(s[..]))
    {
      failure := ScanDate(s);
      if failure.Some? {
        return;
      }
      var p := ReadText(s, PathKey);
      if p.Err? {
        return Some(p.error);
      }
      if p.value.Some? {
        path := p.value;
      }
      var q := ReadText(s, RowKey);
      if q.Err? {
        return Some(q.error);
      }
      if q.value.Some? {
        row := q.value;
      }
    }
  }

  /**
    main up to the base name: the fgets loop over the file, then the zero-padded
    month and day and the `snprintf` of the base name.
   */
  method ReadMet(file: Option<string>) returns (r: Result<Scene, ScanError>)
    ensures r == ReadMetSpec(file)
  {
    if file.None? {
      return Err(CannotOpen);
    }
    var chunks := Chunks(file.value);
    var reader := new MetReader();
    var k := 0;
    while k < |chunks|
      invariant k <= |chunks|
      invariant ScanChunks(Initial, chunks) == ScanChunks(reader.Current(), chunks[k..])
      decreases |chunks| - k
    {
      ghost var before := reader.Current();
      assert chunks[k..] == [chunks[k]] + chunks[k + 1..];
      ScanChunksCons(before, chunks[k], chunks[k + 1..]);
      var failure := reader.ReadChunk(chunks[k]);
      if failure.Some? {
        return Err(failure.value);
      }
      k := k + 1;
    }
    assert ScanChunks(Initial, chunks) == Ok(reader.Current());
    r := MakeScene(reader.Current());
  }

  /** After the loop: an unset path or row is an error; otherwise the zero-padded month and day and the `snprintf` of the base name. */
  method MakeScene(m: Met) returns (r: Result<Scene, ScanError>)
    ensures r == Finish(m)
  {
    if m.path.None? {
      return Err(Unset(PathKey));
    }
    if m.row.None? {
      return Err(Unset(RowKey));
    }
    var charMonth, charDay;
    if m.month < 10 {
      charMonth := "0" + Decimal(m.month);
    } else {
      charMonth := Decimal(m.month);
    }
    if m.day < 10 {
      charDay := "0" + Decimal(m.day);
    } else {
      charDay := Decimal(m.day);
    }
    var basedate := Truncate("p" + m.path.value + "r" + m.row.value + (Decimal(m.year) + charMonth + charDay), NameMax);
    return Ok(Scene(m.year, m.month, m.day, basedate));
  }

  // ---------------------------------------------------------------------------
  // What the scan reads from the lines of a metadata file

  ghost predicate NoNul(s: string)
  {
    forall k :: 0 <= k < |s| ==> s[k] != NUL
  }

  /** Spaces and tabs, as metadata lines are indented. */
  ghost predicate Blanks(s: string)
  {
    forall k :: 0 <= k < |s| ==> s[k] == ' ' || s[k] == '\t'
  }

  lemma BufferCStr(line: string)
    requires NoNul(line)
    ensures CStr(Buffer(line), 0) == line
  {
    CStrUpTo(Buffer(line), 0, |line|);
  }

  /** An ACQUISITION_DATE line laid out in a buffer: the keyword at a, the year up to the dash at p1, the month up to the dash at p2, the day up to q. */
  ghost predicate DateLayout(buf: seq<char>, a: nat, p1: nat, p2: nat, q: nat)
  {
    && Terminated(buf) && a + 19 < p1 && p1 + 1 < p2 && p2 + 1 < q < |buf|
    && (forall k :: 0 <= k < |buf| - 1 ==> buf[k] != NUL)
    && (forall k :: 0 <= k < a ==> buf[k] == ' ' || buf[k] == '\t')
    && buf[a..a + 16] == DateKey
    && buf[a + 16] == ' ' && buf[a + 17] == '=' && buf[a + 18] == ' '
    && (forall k :: a + 19 <= k < p1 ==> IsDigit(buf[k])) && buf[p1] == '-'
    && (forall k :: p1 + 1 <= k < p2 ==> IsDigit(buf[k])) && buf[p2] == '-'
    && (forall k :: p2 + 1 <= k < q ==> IsDigit(buf[k])) && !IsDigit(buf[q])
  }

  lemma DigitsSlice(buf: seq<char>, i: nat, j: nat)
    requires i <= j <= |buf| && forall k :: i <= k < j ==> IsDigit(buf[k])
    ensures AllDigits(buf[i..j])
  {
  }

  lemma DateFound(buf: seq<char>, a: nat, p1: nat, p2: nat, q: nat)
    requires DateLayout(buf, a, p1, p2, q)
    ensures StrStr(buf, DateKey) == Some(a)
  {
    var end := |buf| - 1;
    CStrUpTo(buf, 0, end);
    var s := buf[..end];
    assert s[a..a + 16] == DateKey;
    FoundAt(s, DateKey, a);
  }

  lemma DateKeyToken(buf: seq<char>, a: nat, p1: nat, p2: nat, q: nat)
    requires DateLayout(buf, a, p1, p2, q)
    ensures Strtok(buf, a, KeyDelims) == Tok(Some(a), buf[a + 16 := NUL], a + 17)
  {
    forall k | a <= k < a + 16
      ensures buf[k] != NUL && buf[k] !in KeyDelims
    {
      assert buf[k] == DateKey[k - a];
    }
    StrtokRun(buf, a, a, a + 16, KeyDelims);
  }

  lemma YearToken(buf: seq<char>, a: nat, p1: nat, p2: nat, q: nat)
    requires DateLayout(buf, a, p1, p2, q)
    ensures var b0 := buf[a + 16 := NUL];
            && Strtok(b0, a + 17, YearDelims) == Tok(Some(a + 19), b0[p1 := NUL], p1 + 1)
            && Atoi(CStr(b0[p1 := NUL], a + 19)) == Atoi(buf[a + 19..p1])
  {
    var b0 := buf[a + 16 := NUL];
    StrtokRun(b0, a + 17, a + 19, p1, YearDelims);
    assert b0[a + 19..p1] == buf[a + 19..p1];
  }

  lemma MonthToken(buf: seq<char>, a: nat, p1: nat, p2: nat, q: nat)
    requires DateLayout(buf, a, p1, p2, q)
    ensures var b1 := buf[a + 16 := NUL][p1 := NUL];
            && Strtok(b1, p1 + 1, DateDelims) == Tok(Some(p1 + 1), b1[p2 := NUL], p2 + 1)
            && Atoi(CStr(b1[p2 := NUL], p1 + 1)) == Atoi(buf[p1 + 1..p2])
  {
    var b1 := buf[a + 16 := NUL][p1 := NUL];
    StrtokRun(b1, p1 + 1, p1 + 1, p2, DateDelims);
    assert b1[p1 + 1..p2] == buf[p1 + 1..p2];
  }

  /** A token after `from` that starts with a run of digits: atoi reads that run, whatever follows it up to the next dash. */
  lemma DigitsToken(buf: seq<char>, from: nat, q: nat)
    requires Terminated(buf) && from < q < |buf|
    requires forall k :: from <= k < q ==> IsDigit(buf[k])
    requires !IsDigit(buf[q])
    ensures AllDigits(buf[from..q])
    ensures var r := Strtok(buf, from, DateDelims);
            && r.token == Some(from)
            && Atoi(CStr(r.buf, from)) == NatValue(buf[from..q])
            && r.buf[..from] == buf[..from]
  {
    DigitsSlice(buf, from, q);
    var e := CSpanEnd(buf, from, DateDelims);
    CSpanEndFacts(buf, from, DateDelims);
    assert q <= e;
    StrtokRun(buf, from, from, e, DateDelims);
    SliceSplit(buf, from, q, e);
    AtoiDigits(buf[from..q], buf[q..e]);
  }

  /** One unfolding of the year step when strtok finds a token. */
  lemma YearStepIs(m: Met, t0: Tok)
    requires Resumable(t0)
    requires Strtok(t0.buf, t0.save, YearDelims).token.Some?
    ensures var t1 := Strtok(t0.buf, t0.save, YearDelims);
            Resumable(t1) && YearStep(m, t0) == MonthStep(m.(year := TokenValue(t1)), t1)
  {
  }

  /** One unfolding of the month step when strtok finds a token. */
  lemma MonthStepIs(m: Met, t1: Tok)
    requires Resumable(t1)
    requires Strtok(t1.buf, t1.save, DateDelims).token.Some?
    ensures var t2 := Strtok(t1.buf, t1.save, DateDelims);
            Resumable(t2) && MonthStep(m, t1) == DayStep(m.(month := TokenValue(t2)), t2)
  {
  }

  /** One unfolding of the day step when strtok finds a token. */
  lemma DayStepIs(m: Met, t2: Tok)
    requires Resumable(t2)
    requires Strtok(t2.buf, t2.save, DateDelims).token.Some?
    ensures var t3 := Strtok(t2.buf, t2.save, DateDelims);
            DayStep(m, t2) == Ok(Scan(m.(day := TokenValue(t3)), t3.buf))
  {
  }

  lemma DayStage(m: Met, buf: seq<char>, a: nat, p1: nat, p2: nat, q: nat)
    requires DateLayout(buf, a, p1, p2, q)
    ensures AllDigits(buf[p2 + 1..q])
    ensures var b2 := buf[a + 16 := NUL][p1 := NUL][p2 := NUL];
            var r := DayStep(m, Tok(Some(p1 + 1), b2, p2 + 1));
            && r.Ok?
            && r.value.met == m.(day := NatValue(buf[p2 + 1..q]))
            && r.value.buf[..a + 17] == buf[..a + 16] + [NUL]
  {
    var b2 := buf[a + 16 := NUL][p1 := NUL][p2 := NUL];
    DayFacts(buf, a, p1, p2, q);
    DayRead(m, b2, p1, p2, q, a + 17);
  }

  /** What the buffer looks like when the day is read: the NULs strtok wrote, and the day's digits as they were. */
  lemma DayFacts(buf: seq<char>, a: nat, p1: nat, p2: nat, q: nat)
    requires DateLayout(buf, a, p1, p2, q)
    ensures var b2 := buf[a + 16 := NUL][p1 := NUL][p2 := NUL];
            && Terminated(b2) && a + 17 <= p2 + 1 < q < |b2|
            && (forall k :: p2 + 1 <= k < q ==> IsDigit(b2[k])) && !IsDigit(b2[q])
            && b2[p2 + 1..q] == buf[p2 + 1..q]
            && b2[..a + 17] == buf[..a + 16] + [NUL]
  {
    var b2 := buf[a + 16 := NUL][p1 := NUL][p2 := NUL];
    assert b2[p2 + 1..q] == buf[p2 + 1..q];
    assert b2[..a + 17] == buf[..a + 16] + [NUL];
  }

  /** The day step on a buffer whose token after the second dash starts with a run of digits. */
  lemma DayRead(m: Met, b2: seq<char>, p1: nat, p2: nat, q: nat, c: nat)
    requires Terminated(b2) && c <= p2 + 1 < q < |b2|
    requires (forall k :: p2 + 1 <= k < q ==> IsDigit(b2[k])) && !IsDigit(b2[q])
    ensures AllDigits(b2[p2 + 1..q])
    ensures var r := DayStep(m, Tok(Some(p1 + 1), b2, p2 + 1));
            && r.Ok?
            && r.value.met == m.(day := NatValue(b2[p2 + 1..q]))
            && r.value.buf[..c] == b2[..c]
  {
    DigitsToken(b2, p2 + 1, q);
    var t2 := Tok(Some(p1 + 1), b2, p2 + 1);
    var t3 := Strtok(b2, p2 + 1, DateDelims);
    assert TokenValue(t3) == NatValue(b2[p2 + 1..q]);
    DayStepIs(m, t2);
    assert t3.buf[..c] == t3.buf[..p2 + 1][..c];
    assert b2[..c] == b2[..p2 + 1][..c];
  }

  lemma MonthStage(m: Met, buf: seq<char>, a: nat, p1: nat, p2: nat, q: nat)
    requires DateLayout(buf, a, p1, p2, q)
    ensures AllDigits(buf[p1 + 1..p2]) && AllDigits(buf[p2 + 1..q])
    ensures var b1 := buf[a + 16 := NUL][p1 := NUL];
            var r := MonthStep(m, Tok(Some(a + 19), b1, p1 + 1));
            && r.Ok?
            && r.value.met == m.(month := NatValue(buf[p1 + 1..p2]), day := NatValue(buf[p2 + 1..q]))
            && r.value.buf[..a + 17] == buf[..a + 16] + [NUL]
  {
    var mo := buf[p1 + 1..p2];
    DigitsSlice(buf, p1 + 1, p2);
    AtoiDigits(mo, []);
    assert mo + [] == mo;
    MonthToken(buf, a, p1, p2, q);
    var b1 := buf[a + 16 := NUL][p1 := NUL];
    var t1 := Tok(Some(a + 19), b1, p1 + 1);
    var t2 := Tok(Some(p1 + 1), b1[p2 := NUL], p2 + 1);
    assert Strtok(b1, p1 + 1, DateDelims) == t2;
    assert TokenValue(t2) == NatValue(mo);
    MonthStepIs(m, t1);
    var m2 := m.(month := NatValue(mo));
    assert MonthStep(m, t1) == DayStep(m2, t2);
    DayStage(m2, buf, a, p1, p2, q);
  }

  lemma YearStage(m: Met, buf: seq<char>, a: nat, p1: nat, p2: nat, q: nat)
    requires DateLayout(buf, a, p1, p2, q)
    ensures AllDigits(buf[a + 19..p1]) && AllDigits(buf[p1 + 1..p2]) && AllDigits(buf[p2 + 1..q])
    ensures var b0 := buf[a + 16 := NUL];
            var r := YearStep(m, Tok(Some(a), b0, a + 17));
            && r.Ok?
            && r.value.met == m.(year := NatValue(buf[a + 19..p1]), month := NatValue(buf[p1 + 1..p2]), day := NatValue(buf[p2 + 1..q]))
            && r.value.buf[..a + 17] == buf[..a + 16] + [NUL]
  {
    var y := buf[a + 19..p1];
    DigitsSlice(buf, a + 19, p1);
    AtoiDigits(y, []);
    assert y + [] == y;
    YearToken(buf, a, p1, p2, q);
    var b0 := buf[a + 16 := NUL];
    var t0 := Tok(Some(a), b0, a + 17);
    var t1 := Tok(Some(a + 19), b0[p1 := NUL], p1 + 1);
    assert Strtok(b0, a + 17, YearDelims) == t1;
    assert TokenValue(t1) == NatValue(y);
    YearStepIs(m, t0);
    var m1 := m.(year := NatValue(y));
    assert YearStep(m, t0) == MonthStep(m1, t1);
    MonthStage(m1, buf, a, p1, p2, q);
  }

  /** The date step on such a buffer reads the three runs of digits and hides the rest of the line behind a NUL after the keyword. */
  lemma DateTokens(m: Met, buf: seq<char>, a: nat, p1: nat, p2: nat, q: nat)
    requires DateLayout(buf, a, p1, p2, q)
    ensures AllDigits(buf[a + 19..p1]) && AllDigits(buf[p1 + 1..p2]) && AllDigits(buf[p2 + 1..q])
    ensures var r := DateStep(m, buf);
            && r.Ok?
            && r.value.met == m.(year := NatValue(buf[a + 19..p1]), month := NatValue(buf[p1 + 1..p2]), day := NatValue(buf[p2 + 1..q]))
            && r.value.buf[..a + 17] == buf[..a + 16] + [NUL]
  {
    DateFound(buf, a, p1, p2, q);
    DateKeyToken(buf, a, p1, p2, q);
    YearStage(m, buf, a, p1, p2, q);
  }

  /** The text of an indented `ACQUISITION_DATE = yyyy-mm-dd` line. */
  function DateLineText(pre: string, y: string, mo: string, d: string, post: string): string
  {
    pre + DateKey + " = " + y + "-" + mo + "-" + d + post
  }

  lemma DateLineHead(pre: string, y: string, mo: string, d: string, post: string)
    ensures var line := DateLineText(pre, y, mo, d, post);
            var a := |pre|;
            && |line| == a + 21 + |y| + |mo| + |d| + |post|
            && line[..a + 16] == pre + DateKey && line[a..a + 16] == DateKey
            && line[a + 16] == ' ' && line[a + 17] == '=' && line[a + 18] == ' '
  {
    var l1 := pre + DateKey;
    var l2 := l1 + " = ";
    var rest := y + "-" + mo + "-" + d + post;
    var line := DateLineText(pre, y, mo, d, post);
    assert line == l2 + rest;
    assert |DateKey| == 16;
    PrefixSlice(l2, rest, 0, |l1|);
    PrefixSlice(l1, " = ", 0, |l1|);
    assert l1[..|l1|] == l1;
    SuffixSlice(pre, DateKey, 0, 16);
    PrefixSlice(l2, rest, |pre|, |l1|);
    PrefixSlice(l1, " = ", |pre|, |l1|);
    assert line[|pre| + 16] == l2[|l1|];
    assert line[|pre| + 17] == l2[|l1| + 1];
    assert line[|pre| + 18] == l2[|l1| + 2];
  }

  lemma DateLineBody(pre: string, y: string, mo: string, d: string, post: string)
    ensures var line := DateLineText(pre, y, mo, d, post);
            var p1 := |pre| + 19 + |y|;
            var p2 := p1 + 1 + |mo|;
            var q := p2 + 1 + |d|;
            && line[|pre| + 19..p1] == y && line[p1] == '-' && line[p1 + 1..p2] == mo && line[p2] == '-'
            && line[p2 + 1..q] == d && line[q..] == post
  {
    var l2 := pre + DateKey + " = ";
    var rest := y + "-" + mo + "-" + d + post;
    assert DateLineText(pre, y, mo, d, post) == l2 + rest;
    assert |l2| == |pre| + 19;
    DateRest(y, mo, d, post);
    BodyFromRest(l2, rest, y, mo, d, post);
  }

  /** Where the date's parts sit in the text after `ACQUISITION_DATE = `. */
  lemma DateRest(y: string, mo: string, d: string, post: string)
    ensures var rest := y + "-" + mo + "-" + d + post;
            var i1 := |y|;
            var i2 := i1 + 1 + |mo|;
            var i3 := i2 + 1 + |d|;
            && |rest| == i3 + |post|
            && rest[..i1] == y && rest[i1] == '-' && rest[i1 + 1..i2] == mo && rest[i2] == '-'
            && rest[i2 + 1..i3] == d && rest[i3..] == post
  {
    var u1 := y + "-";
    var u2 := u1 + mo;
    var u3 := u2 + "-";
    var u4 := u3 + d;
    var rest := u4 + post;
    assert rest == y + "-" + mo + "-" + d + post;
    PrefixSlice(u4, post, 0, |u3|);
    PrefixSlice(u3, d, 0, |u3|);
    assert rest[..|u3|] == u3;
    assert rest[|u3| - 1] == '-';
    PrefixSlice(u2, "-", 0, |u2|);
    assert u3[..|u2|] == u2;
    PrefixSlice(u3, [], 0, |u2|);
    assert rest[..|u2|] == u2 by {
      assert rest[..|u2|] == rest[..|u3|][..|u2|];
    }
    assert rest[..|u1|] == u1 by {
      assert rest[..|u1|] == rest[..|u2|][..|u1|];
      PrefixSlice(u1, mo, 0, |u1|);
    }
    assert rest[..|y|] == y by {
      assert rest[..|y|] == rest[..|u1|][..|y|];
      PrefixSlice(y, "-", 0, |y|);
    }
    assert rest[|y|] == u1[|y|];
    assert rest[|u1|..|u2|] == mo by {
      assert rest[|u1|..|u2|] == rest[..|u2|][|u1|..];
      SuffixSlice(u1, mo, 0, |mo|);
    }
    assert rest[|u3|..|u4|] == d by {
      SuffixSlice(u3, d, 0, |d|);
      PrefixSlice(u4, post, |u3|, |u4|);
    }
    assert rest[|u4|..] == post by {
      SuffixSlice(u4, post, 0, |post|);
    }
  }

  /** The date's parts in the line, given their places after the key and ` = `. */
  lemma BodyFromRest(l2: string, rest: string, y: string, mo: string, d: string, post: string)
    requires var i1 := |y|;
             var i2 := i1 + 1 + |mo|;
             var i3 := i2 + 1 + |d|;
             && |rest| == i3 + |post|
             && rest[..i1] == y && rest[i1] == '-' && rest[i1 + 1..i2] == mo && rest[i2] == '-'
             && rest[i2 + 1..i3] == d && rest[i3..] == post
    ensures var line := l2 + rest;
            var p1 := |l2| + |y|;
            var p2 := p1 + 1 + |mo|;
            var q := p2 + 1 + |d|;
            && line[|l2|..p1] == y && line[p1] == '-' && line[p1 + 1..p2] == mo && line[p2] == '-'
            && line[p2 + 1..q] == d && line[q..] == post
  {
    var i1 := |y|;
    var i2 := i1 + 1 + |mo|;
    var i3 := i2 + 1 + |d|;
    SuffixSlice(l2, rest, 0, i1);
    SuffixSlice(l2, rest, i1 + 1, i2);
    SuffixSlice(l2, rest, i2 + 1, i3);
    SuffixSlice(l2, rest, i3, |rest|);
    assert (l2 + rest)[|l2| + i1] == rest[i1];
    assert (l2 + rest)[|l2| + i2] == rest[i2];
    assert rest[i3..|rest|] == rest[i3..];
    assert (l2 + rest)[|l2| + i3..|l2| + |rest|] == (l2 + rest)[|l2| + i3..];
  }

  lemma LayoutOfParts(buf: seq<char>, line: string, pre: string, y: string, mo: string, d: string, post: string,
                      a: nat, p1: nat, p2: nat, q: nat)
    requires buf == Buffer(line) && a == |pre| && p1 == a + 19 + |y| && p2 == p1 + 1 + |mo| && q == p2 + 1 + |d|
    requires |line| == q + |post|
    requires Blanks(pre) && NoNul(post) && (post == [] || !IsDigit(post[0]))
    requires |y| > 0 && |mo| > 0 && |d| > 0 && AllDigits(y) && AllDigits(mo) && AllDigits(d)
    requires line[..a + 16] == pre + DateKey && line[a..a + 16] == DateKey
    requires line[a + 16] == ' ' && line[a + 17] == '=' && line[a + 18] == ' '
    requires line[a + 19..p1] == y && line[p1] == '-' && line[p1 + 1..p2] == mo && line[p2] == '-'
    requires line[p2 + 1..q] == d && line[q..] == post
    ensures DateLayout(buf, a, p1, p2, q)
    ensures buf[a + 19..p1] == y && buf[p1 + 1..p2] == mo && buf[p2 + 1..q] == d
    ensures buf[..a + 16] == pre + DateKey
  {
    assert buf[..|line|] == line;
    forall k | 0 <= k < |line|
      ensures buf[k] == line[k] && buf[k] != NUL
    {
      if k < a {
        assert line[k] == line[..a + 16][k];
      } else if k < a + 16 {
        assert line[k] == line[a..a + 16][k - a];
      } else if a + 19 <= k < p1 {
        assert line[k] == line[a + 19..p1][k - a - 19];
      } else if p1 < k < p2 {
        assert line[k] == line[p1 + 1..p2][k - p1 - 1];
      } else if p2 < k < q {
        assert line[k] == line[p2 + 1..q][k - p2 - 1];
      } else if q <= k {
        assert line[k] == line[q..][k - q];
      }
    }
    forall k | 0 <= k < a
      ensures buf[k] == ' ' || buf[k] == '\t'
    {
      assert line[k] == line[..a + 16][k];
    }
    forall k | a + 19 <= k < p1
      ensures IsDigit(buf[k])
    {
      assert line[k] == line[a + 19..p1][k - a - 19];
    }
    forall k | p1 + 1 <= k < p2
      ensures IsDigit(buf[k])
    {
      assert line[k] == line[p1 + 1..p2][k - p1 - 1];
    }
    forall k | p2 + 1 <= k < q
      ensures IsDigit(buf[k])
    {
      assert line[k] == line[p2 + 1..q][k - p2 - 1];
    }
    if q < |line| {
      assert line[q] == line[q..][0];
    }
  }

  /** A buffer whose first NUL ends s has s as its C string. */
  lemma HiddenAfter(buf: seq<char>, s: string)
    requires Terminated(buf) && |s| < |buf| && buf[..|s| + 1] == s + [NUL] && NoNul(s)
    ensures CStr(buf, 0) == s
  {
    assert forall k :: 0 <= k < |s| ==> buf[k] == s[k];
    CStrUpTo(buf, 0, |s|);
  }

  /** A keyword step finds nothing in a line whose C string lacks the keyword's first letter. */
  lemma TextAbsent(buf: seq<char>, key: string)
    requires Terminated(buf) && |key| > 0 && key[0] !in CStr(buf, 0)
    ensures TextStep(buf, key) == Ok(Text(None, buf))
  {
    NotFound(CStr(buf, 0), key);
  }

  /**
    An indented line `ACQUISITION_DATE = yyyy-mm-dd`, followed by anything that
    does not start with a digit: the scan reads the year, the month and the day
    as written in decimal and leaves the path and the row as they were (the NUL
    strtok writes after the keyword hides the rest of the line from the later steps).
   */
  lemma DateLine(m: Met, pre: string, y: string, mo: string, d: string, post: string)
    requires Blanks(pre) && NoNul(post) && (post == [] || !IsDigit(post[0]))
    requires |y| > 0 && |mo| > 0 && |d| > 0 && AllDigits(y) && AllDigits(mo) && AllDigits(d)
    ensures var r := LineStep(m, Buffer(DateLineText(pre, y, mo, d, post)));
            r.Ok? && r.value.met == m.(year := NatValue(y), month := NatValue(mo), day := NatValue(d))
  {
    DateLineHead(pre, y, mo, d, post);
    DateLineBody(pre, y, mo, d, post);
    var a := |pre|;
    var p1 := a + 19 + |y|;
    var p2 := p1 + 1 + |mo|;
    DateLineOf(m, DateLineText(pre, y, mo, d, post), pre, y, mo, d, post, a, p1, p2, p2 + 1 + |d|);
  }

  /** The scan of a line laid out as a date line, in terms of its parts. */
  lemma DateLineOf(m: Met, line: string, pre: string, y: string, mo: string, d: string, post: string,
                   a: nat, p1: nat, p2: nat, q: nat)
    requires a == |pre| && p1 == a + 19 + |y| && p2 == p1 + 1 + |mo| && q == p2 + 1 + |d|
    requires |line| == q + |post|
    requires Blanks(pre) && NoNul(post) && (post == [] || !IsDigit(post[0]))
    requires |y| > 0 && |mo| > 0 && |d| > 0 && AllDigits(y) && AllDigits(mo) && AllDigits(d)
    requires line[..a + 16] == pre + DateKey && line[a..a + 16] == DateKey
    requires line[a + 16] == ' ' && line[a + 17] == '=' && line[a + 18] == ' '
    requires line[a + 19..p1] == y && line[p1] == '-' && line[p1 + 1..p2] == mo && line[p2] == '-'
    requires line[p2 + 1..q] == d && line[q..] == post
    ensures var r := LineStep(m, Buffer(line));
            r.Ok? && r.value.met == m.(year := NatValue(y), month := NatValue(mo), day := NatValue(d))
  {
    var buf := Buffer(line);
    LayoutOfParts(buf, line, pre, y, mo, d, post, a, p1, p2, q);
    DateLineScan(m, buf, pre, y, mo, d, a, p1, p2, q);
  }

  /** The scan of a buffer laid out as a date line, in terms of its digit runs. */
  lemma DateLineScan(m: Met, buf: seq<char>, pre: string, y: string, mo: string, d: string, a: nat, p1: nat, p2: nat, q: nat)
    requires DateLayout(buf, a, p1, p2, q) && |pre| == a && buf[..a + 16] == pre + DateKey
    requires buf[a + 19..p1] == y && buf[p1 + 1..p2] == mo && buf[p2 + 1..q] == d
    requires AllDigits(y) && AllDigits(mo) && AllDigits(d)
    ensures var r := LineStep(m, buf);
            r.Ok? && r.value.met == m.(year := NatValue(y), month := NatValue(mo), day := NatValue(d))
  {
    DateTokens(m, buf, a, p1, p2, q);
    var r := DateStep(m, buf).value;
    KeyHidesRest(buf, r.buf, pre, a);
    AfterDate(m, buf, r);
  }

  /** Once strtok has cut the buffer right after the date keyword, its C string is the indent and the keyword. */
  lemma KeyHidesRest(buf: seq<char>, cut: seq<char>, pre: string, a: nat)
    requires |pre| == a && a + 16 < |buf| && buf[..a + 16] == pre + DateKey
    requires forall k :: 0 <= k < a ==> buf[k] == ' ' || buf[k] == '\t'
    requires Terminated(cut) && |cut| == |buf| && cut[..a + 17] == buf[..a + 16] + [NUL]
    ensures 'W' !in CStr(cut, 0)
  {
    assert forall k :: 0 <= k < a ==> pre[k] == buf[..a + 16][k];
    assert NoNul(pre + DateKey);
    HiddenAfter(cut, pre + DateKey);
    assert forall k :: 0 <= k < a ==> (pre + DateKey)[k] == pre[k];
  }

  /** When the date step leaves a C string without a `W` behind, the path and row steps change nothing. */
  lemma AfterDate(m: Met, buf: seq<char>, r: Scan)
    requires Terminated(buf) && DateStep(m, buf) == Ok(r) && Terminated(r.buf) && 'W' !in CStr(r.buf, 0)
    ensures LineStep(m, buf) == Ok(r)
  {
    TextAbsent(r.buf, PathKey);
    TextAbsent(r.buf, RowKey);
  }

  /** A keyword strtok cannot split, whose first letter is not a blank. */
  ghost predicate Keyword(key: string)
  {
    && |key| > 0 && key[0] != ' ' && key[0] != '\t'
    && forall k :: 0 <= k < |key| ==> key[k] != NUL && key[k] !in ValueDelims
  }

  /** A `KEY = value` line laid out in a buffer: the keyword at a, the value up to e. */
  ghost predicate TextLayout(buf: seq<char>, key: string, a: nat, e: nat)
  {
    && Terminated(buf) && Keyword(key) && a + |key| + 3 < e < |buf|
    && (forall k :: 0 <= k < |buf| - 1 ==> buf[k] != NUL)
    && (forall k :: 0 <= k < a ==> buf[k] != key[0])
    && buf[a..a + |key|] == key
    && buf[a + |key|] == ' ' && buf[a + |key| + 1] == '=' && buf[a + |key| + 2] == ' '
    && (forall k :: a + |key| + 3 <= k < e ==> buf[k] !in ValueDelims)
    && (buf[e] == NUL || buf[e] in ValueDelims)
  }

  /** The keyword step on such a line: the value read is the run after `KEY = `, and strtok has cut the line after the keyword. */
  lemma TextTokens(buf: seq<char>, key: string, a: nat, e: nat)
    requires TextLayout(buf, key, a, e)
    ensures var r := TextStep(buf, key);
            && r.Ok? && r.value.value == Some(Truncate(buf[a + |key| + 3..e], NameMax))
            && r.value.buf[..a + |key| + 1] == buf[..a + |key|] + [NUL]
  {
    TextFound(buf, key, a, e);
    TextKeyToken(buf, key, a, e);
    TextRead(buf, key, a, a + |key|, e);
  }

  /** The value token of a keyword step, once the keyword is found and cut off. */
  lemma TextRead(buf: seq<char>, key: string, a: nat, c: nat, e: nat)
    requires Terminated(buf) && |key| > 0 && c == a + |key| && c + 3 < e < |buf|
    requires StrStr(buf, key) == Some(a)
    requires Strtok(buf, a, KeyDelims) == Tok(Some(a), buf[c := NUL], c + 1)
    requires var b1 := buf[c := NUL];
             && Terminated(b1) && b1[c + 1] == '=' && b1[c + 2] == ' '
             && (forall k :: c + 3 <= k < e ==> b1[k] != NUL && b1[k] !in ValueDelims)
             && (b1[e] == NUL || b1[e] in ValueDelims)
             && b1[c + 3..e] == buf[c + 3..e] && b1[..c + 1] == buf[..c] + [NUL]
    ensures var r := TextStep(buf, key);
            && r.Ok? && r.value.value == Some(Truncate(buf[c + 3..e], NameMax))
            && r.value.buf[..c + 1] == buf[..c] + [NUL]
  {
    var b1 := buf[c := NUL];
    var t1 := Strtok(b1, c + 1, ValueDelims);
    TextValueToken(b1, c, e);
    TextStepIs(buf, key, a);
    assert TextStep(buf, key) == Ok(Text(Some(Truncate(CStr(t1.buf, c + 3), NameMax)), t1.buf));
    assert CStr(t1.buf, c + 3) == buf[c + 3..e];
  }

  /** One unfolding of a keyword step that finds its keyword and a value token. */
  lemma TextStepIs(buf: seq<char>, key: string, i: nat)
    requires Terminated(buf) && |key| > 0 && StrStr(buf, key) == Some(i)
    requires var t0 := Strtok(buf, i, KeyDelims);
             Strtok(t0.buf, t0.save, ValueDelims).token.Some?
    ensures var t0 := Strtok(buf, i, KeyDelims);
            var t1 := Strtok(t0.buf, t0.save, ValueDelims);
            TextStep(buf, key) == Ok(Text(Some(Truncate(CStr(t1.buf, t1.token.value), NameMax)), t1.buf))
  {
  }

  lemma TextFound(buf: seq<char>, key: string, a: nat, e: nat)
    requires TextLayout(buf, key, a, e)
    ensures StrStr(buf, key) == Some(a)
  {
    var n := |buf| - 1;
    CStrUpTo(buf, 0, n);
    var s := buf[..n];
    assert s[a..a + |key|] == buf[a..a + |key|];
    FoundAt(s, key, a);
  }

  lemma TextKeyToken(buf: seq<char>, key: string, a: nat, e: nat)
    requires TextLayout(buf, key, a, e)
    ensures Strtok(buf, a, KeyDelims) == Tok(Some(a), buf[a + |key| := NUL], a + |key| + 1)
    ensures var c := a + |key|;
            var b1 := buf[c := NUL];
            && Terminated(b1) && b1[c + 1] == '=' && b1[c + 2] == ' '
            && (forall k :: c + 3 <= k < e ==> b1[k] != NUL && b1[k] !in ValueDelims)
            && (b1[e] == NUL || b1[e] in ValueDelims)
            && b1[c + 3..e] == buf[c + 3..e] && b1[..c + 1] == buf[..c] + [NUL]
  {
    var c := a + |key|;
    assert forall k :: a <= k < c ==> buf[k] == buf[a..a + |key|][k - a];
    StrtokRun(buf, a, a, c, KeyDelims);
  }

  lemma TextValueToken(b1: seq<char>, c: nat, e: nat)
    requires Terminated(b1) && c + 3 < e < |b1| && b1[c + 1] == '=' && b1[c + 2] == ' '
    requires forall k :: c + 3 <= k < e ==> b1[k] != NUL && b1[k] !in ValueDelims
    requires b1[e] == NUL || b1[e] in ValueDelims
    ensures var t1 := Strtok(b1, c + 1, ValueDelims);
            && t1.token == Some(c + 3) && CStr(t1.buf, c + 3) == b1[c + 3..e] && t1.buf[..c + 1] == b1[..c + 1]
            && Terminated(t1.buf) && |t1.buf| == |b1|
  {
    StrtokRun(b1, c + 1, c + 3, e, ValueDelims);
  }

  /** The text of an indented `KEY = value` line. */
  function TextLineText(pre: string, key: string, tok: string, post: string): string
  {
    pre + key + " = " + tok + post
  }

  lemma TextLineParts(pre: string, key: string, tok: string, post: string)
    ensures var line := TextLineText(pre, key, tok, post);
            var a := |pre|;
            var c := a + |key|;
            && |line| == c + 3 + |tok| + |post|
            && line[..c] == pre + key && line[a..c] == key
            && line[c] == ' ' && line[c + 1] == '=' && line[c + 2] == ' '
            && line[c + 3..c + 3 + |tok|] == tok && line[c + 3 + |tok|..] == post
  {
    var l1 := pre + key;
    var l2 := l1 + " = ";
    var rest := tok + post;
    var line := TextLineText(pre, key, tok, post);
    assert line == l2 + rest;
    PrefixSlice(l2, rest, 0, |l1|);
    PrefixSlice(l1, " = ", 0, |l1|);
    assert l1[..|l1|] == l1;
    SuffixSlice(pre, key, 0, |key|);
    PrefixSlice(l2, rest, |pre|, |l1|);
    PrefixSlice(l1, " = ", |pre|, |l1|);
    assert line[|l1|] == l2[|l1|];
    assert line[|l1| + 1] == l2[|l1| + 1];
    assert line[|l1| + 2] == l2[|l1| + 2];
    SuffixSlice(l2, rest, 0, |tok|);
    SuffixSlice(l2, rest, |tok|, |rest|);
    assert rest[..|tok|] == tok;
    assert rest[|tok|..] == post;
  }

  /** The positions in the buffer of an indented `KEY = value` line. */
  lemma TextLineLayout(pre: string, key: string, tok: string, post: string)
    requires Blanks(pre) && Keyword(key)
    requires |tok| > 0 && NoNul(tok) && (forall k :: 0 <= k < |tok| ==> tok[k] !in ValueDelims)
    requires NoNul(post) && (post == [] || post[0] in ValueDelims)
    ensures var buf := Buffer(TextLineText(pre, key, tok, post));
            var a := |pre|;
            var e := a + |key| + 3 + |tok|;
            && TextLayout(buf, key, a, e) && buf[a + |key| + 3..e] == tok && buf[..a + |key|] == pre + key
  {
    var line := TextLineText(pre, key, tok, post);
    TextLineParts(pre, key, tok, post);
    TextLayoutOfParts(Buffer(line), line, pre, key, tok, post);
  }

  lemma TextLayoutOfParts(buf: seq<char>, line: string, pre: string, key: string, tok: string, post: string)
    requires buf == Buffer(line) && |line| == |pre| + |key| + 3 + |tok| + |post|
    requires Blanks(pre) && Keyword(key)
    requires |tok| > 0 && NoNul(tok) && (forall k :: 0 <= k < |tok| ==> tok[k] !in ValueDelims)
    requires NoNul(post) && (post == [] || post[0] in ValueDelims)
    requires var a := |pre|;
             var c := a + |key|;
             && line[..c] == pre + key && line[a..c] == key
             && line[c] == ' ' && line[c + 1] == '=' && line[c + 2] == ' '
             && line[c + 3..c + 3 + |tok|] == tok && line[c + 3 + |tok|..] == post
    ensures var a := |pre|;
            var e := a + |key| + 3 + |tok|;
            && TextLayout(buf, key, a, e) && buf[a + |key| + 3..e] == tok && buf[..a + |key|] == pre + key
  {
    var a := |pre|;
    var c := a + |key|;
    var e := c + 3 + |tok|;
    assert buf[..|line|] == line;
    forall k | 0 <= k < |line|
      ensures buf[k] == line[k] && buf[k] != NUL
    {
      if k < a {
        assert line[k] == line[..c][k];
      } else if k < c {
        assert line[k] == line[a..c][k - a];
      } else if c + 3 <= k < e {
        assert line[k] == line[c + 3..e][k - c - 3];
      } else if e <= k {
        assert line[k] == line[e..][k - e];
      }
    }
    forall k | 0 <= k < a
      ensures buf[k] != key[0]
    {
      assert line[k] == line[..c][k];
    }
    forall k | c + 3 <= k < e
      ensures buf[k] !in ValueDelims
    {
      assert line[k] == line[c + 3..e][k - c - 3];
    }
    if e < |line| {
      assert line[e] == line[e..][0];
    }
  }

  /** After `WRS_PATH = ` nothing can start ACQUISITION_DATE; in WRS_PATH nothing can start WRS_ROW. */
  lemma PathKeyClear()
    ensures Mismatched(PathKey + " = ", DateKey) && Mismatched(PathKey, RowKey)
  {
    var v := PathKey + " = ";
    forall k | 0 <= k < |v|
      ensures v[k] == 'A' ==> k == 5
      ensures v[k] == 'W' ==> k == 0
    {
      assert k == 0 || k == 1 || k == 2 || k == 3 || k == 4 || k == 5 || k == 6 || k == 7 || k == 8 || k == 9 || k == 10;
    }
    assert v[6] != DateKey[1];
    forall k | 0 <= k < |PathKey|
      ensures PathKey[k] == 'W' ==> k == 0
    {
      assert PathKey[k] == v[k];
    }
    assert PathKey[4] != RowKey[4];
  }

  /** In `WRS_ROW = ` nothing can start ACQUISITION_DATE or WRS_PATH. */
  lemma RowKeyClear()
    ensures Mismatched(RowKey + " = ", DateKey) && Mismatched(RowKey + " = ", PathKey)
  {
    var v := RowKey + " = ";
    forall k | 0 <= k < |v|
      ensures v[k] != 'A'
      ensures v[k] == 'W' ==> k == 0 || k == 6
    {
      assert k == 0 || k == 1 || k == 2 || k == 3 || k == 4 || k == 5 || k == 6 || k == 7 || k == 8 || k == 9;
    }
    assert v[4] != PathKey[4];
    assert v[7] != PathKey[1];
  }

  /** The C string of a line buffer is the whole line, so none of its text is hidden from strstr. */
  lemma WholeLine(buf: seq<char>, line: string)
    requires buf == Buffer(line) && forall k :: 0 <= k < |buf| - 1 ==> buf[k] != NUL
    ensures CStr(buf, 0) == line
  {
    assert forall k :: 0 <= k < |line| ==> line[k] == buf[k];
    BufferCStr(line);
  }

  /**
    An indented line `WRS_PATH = value`, the value followed by nothing or by a
    blank, `=` or a newline: the scan sets the path to the value, cut to 79
    characters, and changes nothing else.
   */
  lemma PathLine(m: Met, pre: string, tok: string, post: string)
    requires Blanks(pre)
    requires |tok| > 0 && NoNul(tok) && (forall k :: 0 <= k < |tok| ==> tok[k] !in ValueDelims)
    requires NoNul(post) && (post == [] || post[0] in ValueDelims) && 'A' !in tok + post
    ensures var r := LineStep(m, Buffer(TextLineText(pre, PathKey, tok, post)));
            r.Ok? && r.value.met == m.(path := Some(Truncate(tok, NameMax)))
  {
    assert Keyword(PathKey);
    var line := TextLineText(pre, PathKey, tok, post);
    var buf := Buffer(line);
    var e := |pre| + |PathKey| + 3 + |tok|;
    TextLineLayout(pre, PathKey, tok, post);
    assert buf[|pre| + |PathKey| + 3..e] == tok;
    WholeLine(buf, line);
    PathLineClear(pre, tok, post);
    PathLineScan(m, buf, pre, e);
  }

  /** ACQUISITION_DATE does not occur in a WRS_PATH line whose value and rest have no `A`. */
  lemma PathLineClear(pre: string, tok: string, post: string)
    requires Blanks(pre) && 'A' !in tok + post
    ensures FindFrom(TextLineText(pre, PathKey, tok, post), DateKey, 0) == None
  {
    assert TextLineText(pre, PathKey, tok, post) == pre + (PathKey + " = ") + (tok + post);
    PathKeyClear();
    AbsentAround(pre, PathKey + " = ", tok + post, DateKey);
  }

  lemma PathLineScan(m: Met, buf: seq<char>, pre: string, e: nat)
    requires TextLayout(buf, PathKey, |pre|, e) && buf[..|pre| + |PathKey|] == pre + PathKey
    requires forall k :: 0 <= k < |pre| ==> pre[k] == ' ' || pre[k] == '\t'
    requires FindFrom(CStr(buf, 0), DateKey, 0) == None
    ensures var r := LineStep(m, buf);
            r.Ok? && r.value.met == m.(path := Some(Truncate(buf[|pre| + |PathKey| + 3..e], NameMax)))
  {
    TextTokens(buf, PathKey, |pre|, e);
    var r := TextStep(buf, PathKey).value;
    PathCutClear(buf, r.buf, pre);
    DateNone(m, buf);
    TextNone(r.buf, RowKey);
    PathOnly(m, buf, r.value.value, r.buf);
  }

  /** After the path step has cut its line after the keyword, the row keyword does not occur in what is left. */
  lemma PathCutClear(buf: seq<char>, cut: seq<char>, pre: string)
    requires |pre| + |PathKey| < |buf| && buf[..|pre| + |PathKey|] == pre + PathKey && Blanks(pre)
    requires Terminated(cut) && |cut| == |buf| && cut[..|pre| + |PathKey| + 1] == buf[..|pre| + |PathKey|] + [NUL]
    ensures FindFrom(CStr(cut, 0), RowKey, 0) == None
  {
    KeyCut(buf, cut, pre, PathKey);
    PathKeyClear();
    AbsentAround(pre, PathKey, [], RowKey);
    assert pre + PathKey + [] == pre + PathKey;
  }

  /** Once strtok has cut a keyword line right after the keyword, its C string is the indent and the keyword. */
  lemma KeyCut(buf: seq<char>, cut: seq<char>, pre: string, key: string)
    requires |pre| + |key| < |buf| && buf[..|pre| + |key|] == pre + key
    requires Blanks(pre) && Keyword(key)
    requires Terminated(cut) && |cut| == |buf| && cut[..|pre| + |key| + 1] == buf[..|pre| + |key|] + [NUL]
    ensures CStr(cut, 0) == pre + key
  {
    assert forall k :: 0 <= k < |pre| + |key| ==> (pre + key)[k] != NUL by {
      assert forall k :: |pre| <= k < |pre| + |key| ==> (pre + key)[k] == key[k - |pre|];
    }
    HiddenAfter(cut, pre + key);
  }

  /**
    An indented line `WRS_ROW = value`, the value followed by nothing or by a
    blank, `=` or a newline: the scan sets the row to the value, cut to 79
    characters, and changes nothing else.
   */
  lemma RowLine(m: Met, pre: string, tok: string, post: string)
    requires Blanks(pre)
    requires |tok| > 0 && NoNul(tok) && (forall k :: 0 <= k < |tok| ==> tok[k] !in ValueDelims)
    requires NoNul(post) && (post == [] || post[0] in ValueDelims) && 'A' !in tok + post && 'W' !in tok + post
    ensures var r := LineStep(m, Buffer(TextLineText(pre, RowKey, tok, post)));
            r.Ok? && r.value.met == m.(row := Some(Truncate(tok, NameMax)))
  {
    assert Keyword(RowKey);
    var line := TextLineText(pre, RowKey, tok, post);
    var buf := Buffer(line);
    var e := |pre| + |RowKey| + 3 + |tok|;
    TextLineLayout(pre, RowKey, tok, post);
    assert buf[|pre| + |RowKey| + 3..e] == tok;
    WholeLine(buf, line);
    RowLineClear(pre, tok, post);
    RowLineScan(m, buf, pre, e);
  }

  /** Neither ACQUISITION_DATE nor WRS_PATH occurs in a WRS_ROW line whose value and rest have no `A` and no `W`. */
  lemma RowLineClear(pre: string, tok: string, post: string)
    requires Blanks(pre) && 'A' !in tok + post && 'W' !in tok + post
    ensures FindFrom(TextLineText(pre, RowKey, tok, post), DateKey, 0) == None
    ensures FindFrom(TextLineText(pre, RowKey, tok, post), PathKey, 0) == None
  {
    assert TextLineText(pre, RowKey, tok, post) == pre + (RowKey + " = ") + (tok + post);
    RowKeyClear();
    AbsentAround(pre, RowKey + " = ", tok + post, DateKey);
    AbsentAround(pre, RowKey + " = ", tok + post, PathKey);
  }

  lemma RowLineScan(m: Met, buf: seq<char>, pre: string, e: nat)
    requires TextLayout(buf, RowKey, |pre|, e)
    requires FindFrom(CStr(buf, 0), DateKey, 0) == None && FindFrom(CStr(buf, 0), PathKey, 0) == None
    ensures var r := LineStep(m, buf);
            r.Ok? && r.value.met == m.(row := Some(Truncate(buf[|pre| + |RowKey| + 3..e], NameMax)))
  {
    TextTokens(buf, RowKey, |pre|, e);
    var r := TextStep(buf, RowKey).value;
    DateNone(m, buf);
    TextNone(buf, PathKey);
    RowOnly(m, buf, r.value.value, r.buf);
  }

  /** The date step finds nothing in a line whose C string lacks the keyword. */
  lemma DateNone(m: Met, buf: seq<char>)
    requires Terminated(buf) && FindFrom(CStr(buf, 0), DateKey, 0) == None
    ensures DateStep(m, buf) == Ok(Scan(m, buf))
  {
  }

  /** A keyword step finds nothing in a line whose C string lacks the keyword. */
  lemma TextNone(buf: seq<char>, key: string)
    requires Terminated(buf) && |key| > 0 && FindFrom(CStr(buf, 0), key, 0) == None
    ensures TextStep(buf, key) == Ok(Text(None, buf))
  {
  }

  /** A line on which only the path step reads something. */
  lemma PathOnly(m: Met, buf: seq<char>, v: string, b2: seq<char>)
    requires Terminated(buf) && Terminated(b2)
    requires DateStep(m, buf) == Ok(Scan(m, buf))
    requires TextStep(buf, PathKey) == Ok(Text(Some(v), b2))
    requires TextStep(b2, RowKey) == Ok(Text(None, b2))
    ensures LineStep(m, buf) == Ok(Scan(m.(path := Some(v)), b2))
  {
  }

  /** A line on which only the row step reads something. */
  lemma RowOnly(m: Met, buf: seq<char>, v: string, b2: seq<char>)
    requires Terminated(buf)
    requires DateStep(m, buf) == Ok(Scan(m, buf))
    requires TextStep(buf, PathKey) == Ok(Text(None, buf))
    requires TextStep(buf, RowKey) == Ok(Text(Some(v), b2))
    ensures LineStep(m, buf) == Ok(Scan(m.(row := Some(v)), b2))
  {
  }

  /** A line whose C string mentions none of the three keywords' first letters leaves the values and the buffer as they were. */
  lemma PlainLine(m: Met, line: string)
    requires NoNul(line) && 'A' !in line && 'W' !in line
    ensures LineStep(m, Buffer(line)) == Ok(Scan(m, Buffer(line)))
  {
    BufferCStr(line);
    NotFound(line, DateKey);
    NotFound(line, PathKey);
    NotFound(line, RowKey);
  }
}
