/**
  Request counts over the audit log: SQL narrows the scan by comparing timestamp text, the exact windows are
  counted on real instants.
 */
module TimestampText {
  import opened Calendar

  // A wall clock reading.
  datatype Clock = Clock(date: Date, hour: nat, minute: nat, second: nat)

  predicate IsClock(c: Clock) {
    IsValid(c.date) && c.date.year <= 9999 && c.hour < 24 && c.minute < 60 && c.second < 60
  }

  // Seconds since the start of year 0 on that clock.
  function Seconds(c: Clock): nat
    requires IsClock(c)
  {
    DayNumber(c.date) * 86400 + c.hour * 3600 + c.minute * 60 + c.second
  }

  function Digit(n: nat): char
    requires n < 10
  {
    '0' + n as char
  }

  function Two(n: nat): string
    requires n < 100
  {
    [Digit(n / 10), Digit(n % 10)]
  }

  function Four(n: nat): string
    requires n < 10000
  {
    Two(n / 100) + Two(n % 100)
  }

  // 2006-01-02 15:04:05
  function Layout(c: Clock): string
    requires IsClock(c)
  {
    Four(c.date.year) + "-" + Two(c.date.month) + "-" + Two(c.date.day) + " " +
    Two(c.hour) + ":" + Two(c.minute) + ":" + Two(c.second)
  }

  // The number two digits stand for.
  function Decimal(tens: char, ones: char): int {
    10 * (tens as int - '0' as int) + (ones as int - '0' as int)
  }

  /** The layout is 19 characters: the digits of the clock in their places, and the marks between them. */
  lemma LayoutShape(c: Clock)
    requires IsClock(c)
    ensures var s := Layout(c);
            && |s| == 19 && s[4] == s[7] == '-' && s[10] == ' ' && s[13] == s[16] == ':'
            && 100 * Decimal(s[0], s[1]) + Decimal(s[2], s[3]) == c.date.year
            && Decimal(s[5], s[6]) == c.date.month && Decimal(s[8], s[9]) == c.date.day
            && Decimal(s[11], s[12]) == c.hour && Decimal(s[14], s[15]) == c.minute
            && Decimal(s[17], s[18]) == c.second
  {
  }

  // The byte order in which SQL compares text.
  predicate TextLess(a: string, b: string) {
    if b == "" then false
    else if a == "" then true
    else a[0] < b[0] || (a[0] == b[0] && TextLess(a[1..], b[1..]))
  }

  lemma TwoOrders(n: nat, m: nat, x: string, y: string)
    requires n < 100 && m < 100
    ensures TextLess(Two(n) + x, Two(m) + y) <==> n < m || (n == m && TextLess(x, y))
  {
    var a, b := Two(n) + x, Two(m) + y;
    assert a[1..][1..] == x && b[1..][1..] == y;
    assert TextLess(a, b) <==> a[0] < b[0] || (a[0] == b[0] && TextLess(a[1..], b[1..]));
    assert TextLess(a[1..], b[1..]) <==> a[1] < b[1] || (a[1] == b[1] && TextLess(x, y));
  }

  lemma FourOrders(n: nat, m: nat, x: string, y: string)
    requires n < 10000 && m < 10000
    ensures TextLess(Four(n) + x, Four(m) + y) <==> n < m || (n == m && TextLess(x, y))
  {
    assert Four(n) + x == Two(n / 100) + (Two(n % 100) + x);
    assert Four(m) + y == Two(m / 100) + (Two(m % 100) + y);
    TwoOrders(n / 100, m / 100, Two(n % 100) + x, Two(m % 100) + y);
    TwoOrders(n % 100, m % 100, x, y);
  }

  lemma MarkOrders(c: char, x: string, y: string)
    ensures TextLess([c] + x, [c] + y) <==> TextLess(x, y)
  {
    assert ([c] + x)[1..] == x && ([c] + y)[1..] == y;
  }

  function DatePart(d: Date, rest: string): string
    requires IsValid(d) && d.year <= 9999
  {
    Four(d.year) + (['-'] + (Two(d.month) + (['-'] + (Two(d.day) + rest))))
  }

  function TimePart(c: Clock, rest: string): string
    requires IsClock(c)
  {
    [' '] + (Two(c.hour) + ([':'] + (Two(c.minute) + ([':'] + (Two(c.second) + rest)))))
  }

  lemma LayoutParts(c: Clock, rest: string)
    requires IsClock(c)
    ensures Layout(c) + rest == DatePart(c.date, TimePart(c, rest))
  {
  }

  lemma DatePartOrders(a: Date, b: Date, x: string, y: string)
    requires IsValid(a) && IsValid(b) && a.year <= 9999 && b.year <= 9999
    ensures TextLess(DatePart(a, x), DatePart(b, y)) <==> Before(a, b) || (a == b && TextLess(x, y))
  {
    FourOrders(a.year, b.year, ['-'] + (Two(a.month) + (['-'] + (Two(a.day) + x))),
               ['-'] + (Two(b.month) + (['-'] + (Two(b.day) + y))));
    MarkOrders('-', Two(a.month) + (['-'] + (Two(a.day) + x)), Two(b.month) + (['-'] + (Two(b.day) + y)));
    TwoOrders(a.month, b.month, ['-'] + (Two(a.day) + x), ['-'] + (Two(b.day) + y));
    MarkOrders('-', Two(a.day) + x, Two(b.day) + y);
    TwoOrders(a.day, b.day, x, y);
  }

  function SecondOfDay(c: Clock): nat {
    c.hour * 3600 + c.minute * 60 + c.second
  }

  lemma TimePartOrders(a: Clock, b: Clock, x: string, y: string)
    requires IsClock(a) && IsClock(b)
    ensures TextLess(TimePart(a, x), TimePart(b, y)) <==>
            SecondOfDay(a) < SecondOfDay(b) || (SecondOfDay(a) == SecondOfDay(b) && TextLess(x, y))
  {
    MarkOrders(' ', Two(a.hour) + ([':'] + (Two(a.minute) + ([':'] + (Two(a.second) + x)))),
               Two(b.hour) + ([':'] + (Two(b.minute) + ([':'] + (Two(b.second) + y)))));
    TwoOrders(a.hour, b.hour, [':'] + (Two(a.minute) + ([':'] + (Two(a.second) + x))),
              [':'] + (Two(b.minute) + ([':'] + (Two(b.second) + y))));
    MarkOrders(':', Two(a.minute) + ([':'] + (Two(a.second) + x)), Two(b.minute) + ([':'] + (Two(b.second) + y)));
    TwoOrders(a.minute, b.minute, [':'] + (Two(a.second) + x), [':'] + (Two(b.second) + y));
    MarkOrders(':', Two(a.second) + x, Two(b.second) + y);
    TwoOrders(a.second, b.second, x, y);
  }

  /** In the fixed-width layout text order is clock order, whatever zone suffix follows the stored text. */
  lemma LayoutOrders(a: Clock, suffix: string, b: Clock)
    requires IsClock(a) && IsClock(b)
    ensures TextLess(Layout(a) + suffix, Layout(b)) <==> Seconds(a) < Seconds(b)
  {
    LayoutParts(a, suffix);
    LayoutParts(b, "");
    assert Layout(b) + "" == Layout(b);
    DatePartOrders(a.date, b.date, TimePart(a, suffix), TimePart(b, ""));
    TimePartOrders(a, b, suffix, "");
    DayNumberOrders(a.date, b.date);
  }

  // ---- Reading a clock off a count of seconds ----

  function YearOf(day: nat, from: nat): (year: nat)
    requires day < DaysBeforeYear(from + 1)
    ensures year <= from && DaysBeforeYear(year) <= day < DaysBeforeYear(year + 1)
  {
    if DaysBeforeYear(from) <= day then from else YearOf(day, from - 1)
  }

  function MonthOf(year: nat, day: nat, from: nat): (month: nat)
    requires 1 <= from <= 12 && day < DaysBeforeMonth(year, from + 1)
    ensures 1 <= month <= from && DaysBeforeMonth(year, month) <= day < DaysBeforeMonth(year, month + 1)
  {
    if DaysBeforeMonth(year, from) <= day then from else MonthOf(year, day, from - 1)
  }

  // Years 0 to 9999 hold more days than this.
  const DAYS := 365 * 10000

  lemma {:induction false} DaysAreEnough(year: nat)
    ensures DaysBeforeYear(year) >= 365 * year
  {
    if year > 0 {
      DaysAreEnough(year - 1);
    }
  }

  // The date of a day number.
  function DateAt(day: nat): (d: Date)
    requires day < DAYS
    ensures IsValid(d) && d.year <= 9999 && DayNumber(d) == day
  {
    DaysAreEnough(10000);
    var year := YearOf(day, 9999);
    DaysInYear(year);
    var inYear := day - DaysBeforeYear(year);
    var month := MonthOf(year, inYear, 12);
    Date(year, month, inYear - DaysBeforeMonth(year, month) + 1)
  }

  lemma TimeOfDay(rest: nat)
    requires rest < 86400
    ensures var hour, minute, second := rest / 3600, rest % 3600 / 60, rest % 60;
            hour < 24 && minute < 60 && second < 60 && hour * 3600 + minute * 60 + second == rest
  {
  }

  /** Every second of these years has a clock reading. */
  function ClockAt(second: nat): (c: Clock)
    requires second < DAYS * 86400
    ensures IsClock(c) && Seconds(c) == second
  {
    var rest := second % 86400;
    TimeOfDay(rest);
    Clock(DateAt(second / 86400), rest / 3600, rest % 3600 / 60, rest % 60)
  }
}

module RequestStats {
  import opened Wrappers
  import opened Calendar
  import opened TimestampText

  type ValidClock = c: Clock | IsClock(c) witness Clock(Date(0, 1, 1), 0, 0, 0)

  // How far the SQL bound is pushed back, and the widest offset in use, in seconds.
  const SKEW_WINDOW := 54000
  const WIDEST_OFFSET := 50400

  // A stored row. A readable one holds wall clock text with some zone suffix, and resolves to an instant in
  // nanoseconds; one that is NULL or cannot be read resolves to none.
  datatype Row =
    | Readable(clock: ValidClock, suffix: string, instant: int, status: Option<string>)
    | Unreadable(text: string, isNull: bool, status: Option<string>)

  // Whole seconds of an instant.
  function WholeSeconds(instant: int): int {
    instant / 1_000_000_000
  }

  // The text is the event's wall clock at this UTC offset, in seconds.
  ghost predicate WrittenAt(r: Row, offset: int) {
    r.Readable? ==> Seconds(r.clock) == WholeSeconds(r.instant) + offset
  }

  ghost predicate WrittenWithin(r: Row, west: int, east: int) {
    exists offset: int :: -west <= offset <= east && WrittenAt(r, offset)
  }

  // Midnight of now's day, in seconds.
  function StartOfDay(now: int): (s: int)
    ensures s % 86400 == 0 && s <= WholeSeconds(now) < s + 86400
  {
    WholeSeconds(now) - WholeSeconds(now) % 86400
  }

  // The year of the start of the scan has four digits.
  predicate InEra(now: int) {
    SKEW_WINDOW <= StartOfDay(now) < DAYS * 86400
  }

  // WHERE timestamp >= ?
  predicate Selected(r: Row, bound: string) {
    match r
    case Readable(clock, suffix, _, _) => !TextLess(Layout(clock) + suffix, bound)
    case Unreadable(text, isNull, _) => !isNull && !TextLess(text, bound)
  }

  function Scanned(rows: seq<Row>, bound: string): seq<Row> {
    if rows == [] then [] else
      var n := |rows| - 1;
      if Selected(rows[n], bound) then Scanned(rows[..n], bound) + [rows[n]] else Scanned(rows[..n], bound)
  }

  datatype Stats = Stats(total: nat, errors: nat, lastMinute: nat)

  predicate IsToday(r: Row, now: int) {
    r.Readable? && r.instant >= StartOfDay(now) * 1_000_000_000
  }

  predicate IsLastMinute(r: Row, now: int) {
    r.Readable? && r.instant >= now - 60_000_000_000
  }

  function Counted(rows: seq<Row>, now: int): Stats {
    if rows == [] then Stats(0, 0, 0) else
      var n := |rows| - 1;
      var s, r := Counted(rows[..n], now), rows[n];
      Stats(s.total + (if IsToday(r, now) then 1 else 0),
            s.errors + (if IsToday(r, now) && r.status == Some("error") then 1 else 0),
            s.lastMinute + (if IsLastMinute(r, now) then 1 else 0))
  }

  function Bound(now: int): string
    requires InEra(now)
  {
    Layout(ClockAt(StartOfDay(now) - SKEW_WINDOW))
  }

  ghost predicate AllWrittenWithin(rows: seq<Row>, west: int, east: int) {
    forall r | r in rows :: WrittenWithin(r, west, east)
  }

  // The places of the readable rows at or after an instant.
  function PlacesFrom(rows: seq<Row>, instant: int): set<nat> {
    set i | 0 <= i < |rows| && rows[i].Readable? && rows[i].instant >= instant
  }

  // ... of those whose status is an error.
  function ErrorsFrom(rows: seq<Row>, instant: int): set<nat> {
    set i | 0 <= i < |rows| && rows[i].Readable? && rows[i].instant >= instant && rows[i].status == Some("error")
  }

  // The last midnight UTC, and a minute ago, in nanoseconds.
  function Midnight(now: int): int {
    now / 86_400_000_000_000 * 86_400_000_000_000
  }

  lemma MidnightIs(now: int)
    ensures StartOfDay(now) * 1_000_000_000 == Midnight(now)
  {
    assert WholeSeconds(now) / 86400 == now / 86_400_000_000_000;
  }

  lemma PlacesNext(front: seq<Row>, r: Row, instant: int)
    ensures |PlacesFrom(front + [r], instant)| ==
            |PlacesFrom(front, instant)| + if r.Readable? && r.instant >= instant then 1 else 0
  {
    assert PlacesFrom(front + [r], instant) ==
           PlacesFrom(front, instant) + if r.Readable? && r.instant >= instant then {|front|} else {};
  }

  lemma ErrorsNext(front: seq<Row>, r: Row, instant: int)
    ensures |ErrorsFrom(front + [r], instant)| ==
            |ErrorsFrom(front, instant)| +
            if r.Readable? && r.instant >= instant && r.status == Some("error") then 1 else 0
  {
    assert ErrorsFrom(front + [r], instant) ==
           ErrorsFrom(front, instant) +
           if r.Readable? && r.instant >= instant && r.status == Some("error") then {|front|} else {};
  }

  /** The counters are sizes: of the rows of now's day, of the errors among them, of the rows of the last minute. */
  lemma {:induction false} CountedIs(rows: seq<Row>, now: int)
    ensures Counted(rows, now) ==
            Stats(|PlacesFrom(rows, Midnight(now))|, |ErrorsFrom(rows, Midnight(now))|,
                  |PlacesFrom(rows, now - 60_000_000_000)|)
  {
    if rows != [] {
      var front, r := rows[..|rows| - 1], rows[|rows| - 1];
      assert front + [r] == rows;
      CountedIs(front, now);
      MidnightIs(now);
      PlacesNext(front, r, Midnight(now));
      ErrorsNext(front, r, Midnight(now));
      PlacesNext(front, r, now - 60_000_000_000);
    }
  }

  // For offsets within 14 hours of UTC the counters are those of the whole table.
  method LoadRequestStats(table: seq<Row>, now: int) returns (stats: Stats)
    requires InEra(now)
    ensures stats == Counted(Scanned(table, Bound(now)), now)
    ensures AllWrittenWithin(table, 50400, 50400) ==>
              && stats.total == |PlacesFrom(table, Midnight(now))|
              && stats.errors == |ErrorsFrom(table, Midnight(now))|
              && stats.lastMinute == |PlacesFrom(table, now - 60_000_000_000)|
  {
    var rows := Scanned(table, Bound(now));
    stats := CountRows(rows, now);
    if AllWrittenWithin(table, WIDEST_OFFSET, WIDEST_OFFSET) {
      PrefilterIsExact(table, now, WIDEST_OFFSET, WIDEST_OFFSET);
      CountedIs(table, now);
    }
  }

  method CountRows(rows: seq<Row>, now: int) returns (stats: Stats)
    ensures stats == Counted(rows, now)
  {
    var totalToday, errorsToday, lastMinute := 0, 0, 0;
    var startOfDay := StartOfDay(now) * 1_000_000_000;
    for i := 0 to |rows|
      invariant Stats(totalToday, errorsToday, lastMinute) == Counted(rows[..i], now)
    {
      assert rows[..i + 1][..i] == rows[..i];
      if rows[i].Unreadable? {
        continue;
      }
      var recordedAt := rows[i].instant;
      if recordedAt >= startOfDay {
        totalToday := totalToday + 1;
        if rows[i].status.Some? && rows[i].status.value == "error" {
          errorsToday := errorsToday + 1;
        }
      }
      if recordedAt >= now - 60_000_000_000 {
        lastMinute := lastMinute + 1;
      }
    }
    assert rows[..|rows|] == rows;
    stats := Stats(totalToday, errorsToday, lastMinute);
  }

  // A row that counts toward some window passes the text comparison.
  lemma CountedRowIsSelected(r: Row, now: int, west: int, east: int)
    requires InEra(now) && west <= SKEW_WINDOW - 60 && WrittenWithin(r, west, east)
    requires IsToday(r, now) || IsLastMinute(r, now)
    ensures Selected(r, Bound(now))
  {
    var offset: int :| -west <= offset <= east && WrittenAt(r, offset);
    CountedIsRecent(r.instant, now);
    LayoutOrders(r.clock, r.suffix, ClockAt(StartOfDay(now) - SKEW_WINDOW));
  }

  // What counts toward today or the last minute is at most a minute older than today.
  lemma CountedIsRecent(instant: int, now: int)
    requires instant >= StartOfDay(now) * 1_000_000_000 || instant >= now - 60_000_000_000
    ensures WholeSeconds(instant) >= StartOfDay(now) - 60
  {
    assert instant >= (StartOfDay(now) - 60) * 1_000_000_000;
  }

  lemma {:induction false} SelectionKeepsCounts(rows: seq<Row>, bound: string, now: int)
    requires forall r | r in rows && (IsToday(r, now) || IsLastMinute(r, now)) :: Selected(r, bound)
    ensures Counted(Scanned(rows, bound), now) == Counted(rows, now)
  {
    if rows != [] {
      var n := |rows| - 1;
      SelectionKeepsCounts(rows[..n], bound, now);
      var before := Scanned(rows[..n], bound);
      assert (before + [rows[n]])[..|before|] == before;
    }
  }

  /** The text prefilter never changes the counts, as long as no row was written more than 14h59m west of UTC. */
  lemma PrefilterIsExact(rows: seq<Row>, now: int, west: int, east: int)
    requires InEra(now) && west <= SKEW_WINDOW - 60 && AllWrittenWithin(rows, west, east)
    ensures Counted(Scanned(rows, Bound(now)), now) == Counted(rows, now)
  {
    forall r | r in rows && (IsToday(r, now) || IsLastMinute(r, now))
      ensures Selected(r, Bound(now))
    {
      CountedRowIsSelected(r, now, west, east);
    }
    SelectionKeepsCounts(rows, Bound(now), now);
  }

  // For rows written within these offsets the scan never loses a count.
  ghost predicate PrefilterSafe(west: int, east: int) {
    forall rows: seq<Row>, now: int | InEra(now) && AllWrittenWithin(rows, west, east) ::
      Counted(Scanned(rows, Bound(now)), now) == Counted(rows, now)
  }

  /**
    The margin is enough exactly up to 14h59m west of UTC: just after midnight the last minute starts on the day
    before.
   */
  lemma PrefilterSafeIff(west: int, east: int)
    requires 0 <= west <= 86400 && 0 <= east
    ensures PrefilterSafe(west, east) <==> west <= 14 * 3600 + 59 * 60
  {
    if west <= SKEW_WINDOW - 60 {
      forall rows: seq<Row>, now: int | InEra(now) && AllWrittenWithin(rows, west, east)
        ensures Counted(Scanned(rows, Bound(now)), now) == Counted(rows, now)
      {
        PrefilterIsExact(rows, now, west, east);
      }
    } else {
      MidnightRowIsMissed(west, east);
    }
  }

  // A row of the last minute before a midnight, written too far west, is filtered out at that midnight.
  lemma MidnightRowIsMissed(west: int, east: int)
    requires SKEW_WINDOW - 60 < west <= 86400 && 0 <= east
    ensures !PrefilterSafe(west, east)
  {
    var r, now := MidnightRow(west, east);
    MissedRowCounts(r, Bound(now), now);
  }

  lemma MissedRowCounts(r: Row, bound: string, now: int)
    requires IsLastMinute(r, now) && !Selected(r, bound)
    ensures Counted(Scanned([r], bound), now) != Counted([r], now)
  {
    assert [r][..0] == [];
    assert Scanned([r], bound) == [];
    assert Counted([r], now).lastMinute == 1;
  }

  lemma MidnightRow(west: int, east: int) returns (r: Row, now: int)
    requires SKEW_WINDOW - 60 < west <= 86400 && 0 <= east
    ensures InEra(now) && AllWrittenWithin([r], west, east) && IsLastMinute(r, now) && !Selected(r, Bound(now))
  {
    var midnight := 86_400_000;
    now := 86_400_000_000_000_000;
    AtMidnight();
    var clock := ClockAt(midnight - 60 - west);
    r := Readable(clock, "", now - 60_000_000_000, None);
    assert WrittenAt(r, -west);
    EarlierIsNotSelected(clock, now, r.instant);
  }

  lemma AtMidnight()
    ensures var midnight, now := 86_400_000, 86_400_000_000_000_000;
            && StartOfDay(now) == midnight && InEra(now) && WholeSeconds(now - 60_000_000_000) == midnight - 60
  {
  }

  lemma EarlierIsNotSelected(clock: Clock, now: int, instant: int)
    requires InEra(now) && IsClock(clock) && Seconds(clock) < StartOfDay(now) - SKEW_WINDOW
    ensures !Selected(Readable(clock, "", instant, None), Bound(now))
  {
    LayoutOrders(clock, "", ClockAt(StartOfDay(now) - SKEW_WINDOW));
  }
}
