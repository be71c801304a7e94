/** The free slots of an expert between two instants: every scheduled slot of every local day in the range that is still
    bookable and that no booking overlaps. */
module AvailableSlots {
  import opened Prelude
  import opened Calendar
  import opened Timezone
  import opened Sorting
  import opened ExpertSchedule

  // a consultation not cancelled, or a lead call still active
  datatype Booking = Booking(startTime: int, endTime: int)
  datatype Slot = Slot(startTime: int, endTime: int)

  const slotStart: Slot -> int := (s: Slot) => s.startTime
  const slotEnd: Slot -> int := (s: Slot) => s.endTime

  const MIN_LEAD := 4 * 60 * 60 * 1000
  const MAX_RANGE := 62 * DAY

  predicate RangesOverlap(aStart: int, aEnd: int, bStart: int, bEnd: int) {
    aStart < bEnd && aEnd > bStart
  }

  predicate Booked(slot: Slot, bookings: seq<Booking>) {
    exists i :: 0 <= i < |bookings|
        && RangesOverlap(slot.startTime, slot.endTime, bookings[i].startTime, bookings[i].endTime)
  }

  /** A slot is booked exactly when some instant lies in both it and a booking. */
  lemma BookedShares(slot: Slot, bookings: seq<Booking>)
    requires slot.startTime < slot.endTime && forall b :: b in bookings ==> b.startTime < b.endTime
    ensures Booked(slot, bookings)
            <==> exists b :: b in bookings && ShareInstant(slot.startTime, slot.endTime, b.startTime, b.endTime)
  {
    forall i | 0 <= i < |bookings|
      ensures RangesOverlap(slot.startTime, slot.endTime, bookings[i].startTime, bookings[i].endTime)
              <==> ShareInstant(slot.startTime, slot.endTime, bookings[i].startTime, bookings[i].endTime)
    {
      assert bookings[i] in bookings;
      SharedInstant(slot.startTime, slot.endTime, bookings[i].startTime, bookings[i].endTime);
    }
    hide ShareInstant;
    if Booked(slot, bookings) {
      var i :| 0 <= i < |bookings|
          && RangesOverlap(slot.startTime, slot.endTime, bookings[i].startTime, bookings[i].endTime);
      assert bookings[i] in bookings;
    }
  }

  predicate Bookable(slot: Slot, now: int) {
    slot.endTime > now && slot.startTime >= now + MIN_LEAD
  }

  /** The range query of the repository. */
  function Fetch(bookings: seq<Booking>, from: int, to: int): seq<Booking> {
    if bookings == [] then []
    else
      (if bookings[0].startTime < to && bookings[0].endTime > from then [bookings[0]] else [])
      + Fetch(bookings[1..], from, to)
  }

  lemma {:induction false} FetchMembers(bookings: seq<Booking>, from: int, to: int)
    ensures forall b :: b in Fetch(bookings, from, to) <==> b in bookings && b.startTime < to && b.endTime > from
  {
    if bookings != [] {
      FetchMembers(bookings[1..], from, to);
      assert bookings == [bookings[0]] + bookings[1..];
    }
  }

  /** Fetching only the bookings that touch the range loses nothing for a slot inside it. */
  lemma FetchLosesNothing(slot: Slot, bookings: seq<Booking>, from: int, to: int)
    requires from <= slot.startTime && slot.endTime <= to
    ensures Booked(slot, Fetch(bookings, from, to)) <==> Booked(slot, bookings)
  {
    var fetched := Fetch(bookings, from, to);
    FetchMembers(bookings, from, to);
    if Booked(slot, bookings) {
      var i :| 0 <= i < |bookings|
          && RangesOverlap(slot.startTime, slot.endTime, bookings[i].startTime, bookings[i].endTime);
      assert bookings[i] in bookings;
      assert bookings[i] in fetched;
      var k :| 0 <= k < |fetched| && fetched[k] == bookings[i];
      assert RangesOverlap(slot.startTime, slot.endTime, fetched[k].startTime, fetched[k].endTime);
    }
    if Booked(slot, fetched) {
      var k :| 0 <= k < |fetched|
          && RangesOverlap(slot.startTime, slot.endTime, fetched[k].startTime, fetched[k].endTime);
      assert fetched[k] in fetched;
      assert fetched[k] in bookings;
      var i :| 0 <= i < |bookings| && bookings[i] == fetched[k];
      assert RangesOverlap(slot.startTime, slot.endTime, bookings[i].startTime, bookings[i].endTime);
    }
  }

  // ---- Day keys ----

  function Digit(n: nat): char
    requires n < 10
  {
    '0' + n as char
  }

  /** String(n) for n >= 0. */
  function Decimal(n: nat): (s: string)
    ensures |s| >= 1
  {
    if n < 10 then [Digit(n)] else Decimal(n / 10) + [Digit(n % 10)]
  }

  function YearText(year: int): string {
    if year >= 0 then Decimal(year) else "-" + Decimal(-year)
  }

  function Pad2(n: nat): string {
    if n < 10 then "0" + Decimal(n) else Decimal(n)
  }

  function MonthDay(c: Civil): string
    requires ValidCivil(c)
  {
    Pad2(c.month) + "-" + Pad2(c.day)
  }

  /** localDateKey */
  function Key(c: Civil): string
    requires ValidCivil(c)
  {
    YearText(c.year) + "-" + MonthDay(c)
  }

  /** a <= b, as JavaScript compares strings. */
  predicate StringLe(a: string, b: string) {
    a == [] || (b != [] && (a[0] < b[0] || (a[0] == b[0] && StringLe(a[1..], b[1..]))))
  }

  /** Digits compare like the numbers they write. */
  lemma {:induction false} SamePrefix(a: string, b: string, x: string, y: string)
    requires |a| == |b|
    ensures StringLe(a + x, b + y) <==> (a != b && StringLe(a, b)) || (a == b && StringLe(x, y))
  {
    if a == [] {
      assert a + x == x && b + y == y;
    } else {
      assert (a + x)[1..] == a[1..] + x && (b + y)[1..] == b[1..] + y;
      assert a == [a[0]] + a[1..] && b == [b[0]] + b[1..];
      SamePrefix(a[1..], b[1..], x, y);
    }
  }

  lemma Pad2Digits(n: nat)
    requires n < 100
    ensures Pad2(n) == [Digit(n / 10)] + [Digit(n % 10)]
  {
    if n >= 10 {
      assert Decimal(n / 10) == [Digit(n / 10)];
    }
  }

  lemma TwoDigits(m: nat, n: nat)
    requires m < 100 && n < 100
    ensures |Pad2(m)| == 2 && |Pad2(n)| == 2 && (Pad2(m) == Pad2(n) <==> m == n)
            && (StringLe(Pad2(m), Pad2(n)) <==> m <= n)
  {
    Pad2Digits(m);
    Pad2Digits(n);
    var a, b, x, y := [Digit(m / 10)], [Digit(n / 10)], [Digit(m % 10)], [Digit(n % 10)];
    SamePrefix(a, b, x, y);
    assert a == b <==> m / 10 == n / 10;
    assert Pad2(m)[0] == a[0] && Pad2(m)[1] == x[0] && Pad2(n)[0] == b[0] && Pad2(n)[1] == y[0];
    assert StringLe(a, b) <==> m / 10 <= n / 10;
    assert StringLe(x, y) <==> m % 10 <= n % 10;
  }

  /** Equally many digits compare like the numbers they write. */
  lemma {:induction false} DecimalOrder(m: nat, n: nat)
    requires |Decimal(m)| == |Decimal(n)|
    ensures (Decimal(m) == Decimal(n) <==> m == n) && (StringLe(Decimal(m), Decimal(n)) <==> m <= n)
  {
    if m >= 10 {
      var a, b, x, y := Decimal(m / 10), Decimal(n / 10), [Digit(m % 10)], [Digit(n % 10)];
      DecimalOrder(m / 10, n / 10);
      SamePrefix(a, b, x, y);
      assert (a + x)[..|a|] == a && (b + y)[..|b|] == b && (a + x)[|a|] == x[0] && (b + y)[|b|] == y[0];
      assert StringLe(x, y) <==> m % 10 <= n % 10;
    }
  }

  lemma {:induction false} DecimalLength(m: nat, n: nat)
    requires m <= n
    ensures |Decimal(m)| <= |Decimal(n)|
  {
    if m >= 10 {
      DecimalLength(m / 10, n / 10);
    }
  }

  lemma Tenth(n: nat)
    ensures (n + 1) / 10 == if n % 10 == 9 then n / 10 + 1 else n / 10
  {
  }

  /** Where a number gains a digit by counting one up, nines turn into a one and noughts. */
  lemma {:induction false} NewDigit(n: nat)
    requires |Decimal(n + 1)| > |Decimal(n)|
    ensures Decimal(n)[0] == '9' && Decimal(n + 1)[0] == '1'
  {
    if n >= 10 {
      Tenth(n);
      if n % 10 == 9 {
        NewDigit(n / 10);
      }
    }
  }

  lemma Fields(a: string, b: string, x: string, y: string)
    requires |a| == |b|
    ensures a + "-" + x == b + "-" + y <==> a == b && x == y
    ensures StringLe(a + "-" + x, b + "-" + y) <==> if a == b then StringLe(x, y) else StringLe(a, b)
  {
    var s, t := a + "-" + x, b + "-" + y;
    assert s[..|a|] == a && t[..|a|] == b && s[|a| + 1..] == x && t[|a| + 1..] == y;
    assert s == a + ("-" + x) && t == b + ("-" + y);
    SamePrefix(a, b, "-" + x, "-" + y);
    SamePrefix("-", "-", x, y);
  }

  lemma MonthDayOrder(a: Civil, b: Civil)
    requires ValidCivil(a) && ValidCivil(b)
    ensures StringLe(MonthDay(a), MonthDay(b)) <==> a.month < b.month || (a.month == b.month && a.day <= b.day)
    ensures |MonthDay(a)| == 5 && (MonthDay(a) == MonthDay(b) <==> a.month == b.month && a.day == b.day)
  {
    hide Decimal;
    hide Pad2;
    hide StringLe;
    TwoDigits(a.month, b.month);
    TwoDigits(a.day, b.day);
    Fields(Pad2(a.month), Pad2(b.month), Pad2(a.day), Pad2(b.day));
  }

  /** Between years of equally many digits the string comparison of day keys is calendar order. */
  lemma KeyOrder(a: Civil, b: Civil)
    requires ValidCivil(a) && ValidCivil(b) && a.year >= 0 && b.year >= 0 && |Decimal(a.year)| == |Decimal(b.year)|
    ensures StringLe(Key(a), Key(b)) <==> !Before(b, a)
    ensures Key(a) == Key(b) <==> a == b
  {
    hide Decimal;
    hide MonthDay;
    hide StringLe;
    DecimalOrder(a.year, b.year);
    MonthDayOrder(a, b);
    Fields(Decimal(a.year), Decimal(b.year), MonthDay(a), MonthDay(b));
  }

  /** Different dates always have different keys. */
  lemma KeyInjective(a: Civil, b: Civil)
    requires ValidCivil(a) && ValidCivil(b) && a.year >= 0 && b.year >= 0 && Key(a) == Key(b)
    ensures a == b
  {
    hide Decimal;
    hide MonthDay;
    hide StringLe;
    MonthDayOrder(a, b);
    MonthDayOrder(b, a);
    assert Key(a) == Decimal(a.year) + "-" + MonthDay(a) && Key(b) == Decimal(b.year) + "-" + MonthDay(b);
    KeyOrder(a, b);
  }

  /** A key is compared by its first digit, when these differ. */
  lemma KeyStart(a: Civil, b: Civil)
    requires ValidCivil(a) && ValidCivil(b) && a.year >= 0 && b.year >= 0 && Decimal(a.year)[0] != Decimal(b.year)[0]
    ensures StringLe(Key(a), Key(b)) <==> Decimal(a.year)[0] < Decimal(b.year)[0]
  {
    hide Decimal;
    hide MonthDay;
    assert Key(a)[0] == Decimal(a.year)[0] && Key(b)[0] == Decimal(b.year)[0];
  }

  /** A year written as another one and more digits has the later key. */
  lemma LongerKey(a: Civil, b: Civil, more: string)
    requires ValidCivil(a) && ValidCivil(b) && a.year >= 0 && b.year >= 0
    requires |more| > 0 && '0' <= more[0] <= '9' && Decimal(a.year) == Decimal(b.year) + more
    ensures !StringLe(Key(a), Key(b))
  {
    hide Decimal;
    hide MonthDay;
    var prefix := Decimal(b.year);
    assert Key(a) == prefix + (more + "-" + MonthDay(a)) && Key(b) == prefix + ("-" + MonthDay(b));
    SamePrefix(prefix, prefix, more + "-" + MonthDay(a), "-" + MonthDay(b));
  }

  /** The first of year * 10, year * 100, ... above another year. */
  function Beyond(year: nat, above: int): (r: nat)
    requires year > 0
    ensures r > above && r > year
    decreases above - year
  {
    if year * 10 > above then year * 10 else Beyond(year * 10, above)
  }

  lemma {:induction false} BeyondText(year: nat, above: int) returns (more: string)
    requires year > 0
    ensures |more| > 0 && more[0] == '0' && Decimal(Beyond(year, above)) == Decimal(year) + more
    decreases above - year
  {
    assert year * 10 / 10 == year && Decimal(year * 10) == Decimal(year) + "0";
    if year * 10 > above {
      more := "0";
    } else {
      var rest := BeyondText(year * 10, above);
      more := "0" + rest;
      assert Decimal(year) + "0" + rest == Decimal(year) + more;
    }
  }

  // ---- The slots of a range of days ----

  datatype Query = Query(zone: Zone, schedule: seq<Item>, bookings: seq<Booking>, now: int)

  function SlotOn(zone: Zone, c: Civil, item: Item): Slot {
    Slot(ToUtc(zone, c.year, c.month, c.day, item.startMinute), ToUtc(zone, c.year, c.month, c.day, item.endMinute))
  }

  /** The weekday of a date, asked for at noon. */
  function WeekdayOn(zone: Zone, c: Civil): int {
    LocalParts(zone, ToUtc(zone, c.year, c.month, c.day, 12 * 60)).dayOfWeek
  }

  predicate Free(q: Query, s: Slot) {
    Bookable(s, q.now) && !Booked(s, q.bookings)
  }

  /** The free slots of one date, in the order of the first k items. */
  function DaySlots(q: Query, c: Civil, k: nat): seq<Slot>
    requires k <= |q.schedule|
  {
    if k == 0 then []
    else
      var item := q.schedule[k - 1];
      DaySlots(q, c, k - 1) +
      if item.dayOfWeek == WeekdayOn(q.zone, c) && Free(q, SlotOn(q.zone, c, item)) then [SlotOn(q.zone, c, item)]
        else []
  }

  /** The free slots of the days first, ..., n - 1. */
  function RangeSlots(q: Query, first: int, n: int): seq<Slot>
    decreases n - first
  {
    if n <= first then [] else RangeSlots(q, first, n - 1) + DaySlots(q, CivilOf(n - 1), |q.schedule|)
  }

  function Midnight(zone: Zone, c: Civil): int {
    ToUtc(zone, c.year, c.month, c.day, 0)
  }

  function NextDay(c: Civil): Civil {
    CivilOf(UtcDay(c.year, c.month - 1, c.day + 1))
  }

  lemma NextDayOf(c: Civil, d: int)
    requires ValidCivil(c) && !(0 <= c.year <= 99) && d == DayOf(c)
    ensures NextDay(c) == CivilOf(d + 1) && DayOf(NextDay(c)) == d + 1
  {
    hide CivilOf;
    assert 12 * c.year + (c.month - 1) == 12 * c.year + c.month - 1;
    DayOfCivil(d + 1);
  }

  function LocalDate(zone: Zone, t: int): Civil {
    DateOf(LocalParts(zone, t))
  }

  lemma LocalDateValid(zone: Zone, t: int)
    requires Wall(zone, t) >= CENTURY * DAY
    ensures ValidCivil(LocalDate(zone, t)) && LocalDate(zone, t).year >= 100
            && DayOf(LocalDate(zone, t)) == Wall(zone, t) / DAY
    ensures CivilOf(Wall(zone, t) / DAY) == LocalDate(zone, t)
  {
    hide DayOf;
    hide CivilOf;
    WallOfParts(Wall(zone, t));
    CivilOfDay(LocalDate(zone, t));
  }

  /** The answer to a range that is accepted, if the day loop makes so many turns. */
  function AnswerOver(q: Query, from: int, to: int, turns: nat): seq<Slot> {
    if q.schedule == [] then []
    else
      var start, end := LocalDate(q.zone, from), LocalDate(q.zone, to);
      var fetched := Fetch(q.bookings, Midnight(q.zone, start), Midnight(q.zone, NextDay(end)));
      SortBy(RangeSlots(q.(bookings := fetched), DayOf(start), DayOf(start) + turns), slotStart)
  }

  /** The answer if the loop visits the local days of the range. */
  function Answer(q: Query, from: int, to: int): seq<Slot> {
    var days := DayOf(LocalDate(q.zone, to)) - DayOf(LocalDate(q.zone, from)) + 1;
    AnswerOver(q, from, to, if days > 0 then days else 0)
  }

  datatype Result = Slots(slots: seq<Slot>) | BadRequest

  method SlotsOfDay(q: Query, c: Civil) returns (slots: seq<Slot>)
    ensures slots == DaySlots(q, c, |q.schedule|)
  {
    hide ToUtc;
    hide LocalParts;
    hide Booked;
    slots := [];
    var dayOfWeek := WeekdayOn(q.zone, c);
    for k := 0 to |q.schedule|
      invariant slots == DaySlots(q, c, k)
    {
      var item := q.schedule[k];
      if item.dayOfWeek == dayOfWeek {
        var slot := SlotOn(q.zone, c, item);
        if slot.endTime <= q.now || slot.startTime < q.now + MIN_LEAD {
          continue;
        }
        if !Booked(slot, q.bookings) {
          slots := slots + [slot];
        }
      }
    }
  }

  // ---- How many turns the day loop makes ----

  /** The key of day d compares as no later than the end's. */
  predicate GoesOn(d: int, end: Civil)
    requires ValidCivil(end)
  {
    StringLe(Key(CivilOf(d)), Key(end))
  }

  /** The loop over the days from start on makes at least n turns. */
  ghost predicate AtLeast(start: Civil, end: Civil, n: nat)
    requires ValidCivil(end)
  {
    forall d :: DayOf(start) <= d < DayOf(start) + n ==> GoesOn(d, end)
  }

  /** It makes n turns: the key of the n-th day after start is the first that compares as later than the end's. */
  ghost predicate Turns(start: Civil, end: Civil, n: nat)
    requires ValidCivil(end)
  {
    AtLeast(start, end, n) && !GoesOn(DayOf(start) + n, end)
  }

  /** The years of both dates and of the day after the range are written with equally many digits. */
  predicate SameDigits(start: Civil, end: Civil) {
    && start.year >= 0 && end.year >= 0 && NextDay(end).year >= 0
    && |Decimal(start.year)| == |Decimal(end.year)| == |Decimal(NextDay(end).year)|
  }

  lemma TurnsUnique(start: Civil, end: Civil, m: nat, n: nat)
    requires ValidCivil(end) && Turns(start, end, m) && Turns(start, end, n)
    ensures m == n
  {
    hide DayOf;
    hide GoesOn;
  }

  /** Days between two dates have years between theirs. */
  lemma DayBetween(a: Civil, d: int, b: Civil)
    requires ValidCivil(a) && ValidCivil(b) && DayOf(a) <= d <= DayOf(b)
    ensures a.year <= CivilOf(d).year <= b.year
  {
    hide DayOf;
    hide CivilOf;
    DayOfCivil(d);
    DayOrder(CivilOf(d), a);
    DayOrder(b, CivilOf(d));
  }

  lemma KeyWithin(start: Civil, d: int, end: Civil)
    requires ValidCivil(start) && ValidCivil(end) && start.year >= 100 && DayOf(start) <= d <= DayOf(end)
    requires |YearText(start.year)| == |YearText(end.year)|
    ensures GoesOn(d, end)
  {
    hide DayOf;
    hide CivilOf;
    hide Decimal;
    hide Key;
    hide StringLe;
    var c := CivilOf(d);
    DayBetween(start, d, end);
    DecimalLength(start.year, c.year);
    DecimalLength(c.year, end.year);
    DayOfCivil(d);
    KeyOrder(c, end);
    DayOrder(end, c);
  }

  /** With equally many digits throughout, the loop visits the days of the range, and none if it runs backwards. */
  lemma SameDigitsTurns(start: Civil, end: Civil)
    requires ValidCivil(start) && ValidCivil(end) && start.year >= 100 && end.year >= 100 && SameDigits(start, end)
    ensures var n := DayOf(end) - DayOf(start) + 1; Turns(start, end, if n > 0 then n else 0)
  {
    hide DayOf;
    hide CivilOf;
    hide Key;
    hide StringLe;
    hide NextDay;
    var first, last := DayOf(start), DayOf(end);
    NextDayOf(end, last);
    CivilOfDay(start);
    if first <= last {
      forall d | first <= d <= last ensures GoesOn(d, end) {
        KeyWithin(start, d, end);
      }
      KeyOrder(NextDay(end), end);
      DayOrder(end, NextDay(end));
    } else {
      KeyOrder(start, end);
      DayOrder(end, start);
    }
  }

  /** A range of less than a year in which the number of digits grows: from the last year with fewer to the first with
      more. */
  lemma DigitsGrow(a: Civil, b: Civil)
    requires ValidCivil(a) && ValidCivil(b) && a.year >= 100 && DayOf(a) <= DayOf(b) <= DayOf(a) + 364
    requires |YearText(a.year)| != |YearText(b.year)|
    ensures b.year == a.year + 1 && Decimal(a.year)[0] == '9' && Decimal(b.year)[0] == '1'
  {
    hide DayOf;
    hide Decimal;
    DayOrder(b, a);
    YearApart(a, b);
    assert a.year <= b.year <= a.year + 1;
    DecimalLength(a.year, b.year);
    NewDigit(a.year);
  }

  lemma YearApart(a: Civil, b: Civil)
    requires ValidCivil(a) && ValidCivil(b) && DayOf(b) <= DayOf(a) + 364
    ensures b.year <= a.year + 1
  {
    hide DayOf;
    var next, after := Civil(a.year + 1, 1, 1), Civil(a.year + 2, 1, 1);
    DayOrder(a, next);
    YearLength(a.year + 1);
    DayOrder(b, after);
  }

  lemma YearLength(y: int)
    ensures DayOf(Civil(y + 1, 1, 1)) >= DayOf(Civil(y, 1, 1)) + 365
  {
    MonthIndex(y, 0);
    MonthIndex(y + 1, 0);
    YearStep(y);
  }

  /** For a range of less than a year, forward and from the year 100 on, the loop visits exactly its days if and only if
      the first day's year and the year of the day after the last have equally many digits. Where the range crosses into
      more digits it visits nothing; where it ends on the eve of them it runs on. */
  lemma TurnsExact(start: Civil, end: Civil, n: nat)
    requires ValidCivil(start) && ValidCivil(end) && start.year >= 100
             && DayOf(start) <= DayOf(end) < DayOf(start) + 364
    requires Turns(start, end, n)
    ensures n == DayOf(end) - DayOf(start) + 1 <==> |YearText(start.year)| == |YearText(NextDay(end).year)|
    ensures |YearText(start.year)| < |YearText(end.year)| ==> n == 0
    ensures |YearText(start.year)| == |YearText(end.year)| < |YearText(NextDay(end).year)| ==>
              n > DayOf(end) - DayOf(start) + 1
  {
    hide DayOf;
    hide CivilOf;
    hide Key;
    hide StringLe;
    hide NextDay;
    hide Decimal;
    var next := NextDay(end);
    CenturyYear(start);
    CenturyYear(end);
    NextDayOf(end, DayOf(end));
    CenturyYear(next);
    CivilOfDay(start);
    DayOrder(end, start);
    DayOrder(next, end);
    DecimalLength(start.year, end.year);
    DecimalLength(end.year, next.year);
    if |Decimal(start.year)| == |Decimal(next.year)| {
      SameDigitsTurns(start, end);
      TurnsUnique(start, end, n, DayOf(end) - DayOf(start) + 1);
    } else if |Decimal(start.year)| < |Decimal(end.year)| {
      DigitsGrow(start, end);
      KeyStart(start, end);
      assert !GoesOn(DayOf(start), end);
    } else {
      DigitsGrow(end, next);
      OverrunTurns(start, end, n);
    }
  }

  lemma OverrunTurns(start: Civil, end: Civil, n: nat)
    requires ValidCivil(start) && ValidCivil(end) && start.year >= 100 && end.year >= 100 && DayOf(start) <= DayOf(end)
    requires |Decimal(start.year)| == |Decimal(end.year)| && NextDay(end).year >= 0
    requires Decimal(end.year)[0] == '9' && Decimal(NextDay(end).year)[0] == '1' && Turns(start, end, n)
    ensures n > DayOf(end) - DayOf(start) + 1
  {
    hide DayOf;
    hide CivilOf;
    hide Key;
    hide StringLe;
    hide NextDay;
    hide Decimal;
    var first, last := DayOf(start), DayOf(end);
    NextDayOf(end, last);
    KeyStart(NextDay(end), end);
    forall d | first <= d <= last + 1 ensures GoesOn(d, end) {
      if d <= last {
        KeyWithin(start, d, end);
      }
    }
  }

  /** The local dates of a range below the limit: the loop visits exactly its days if and only if the first year and
      that of the day after have equally many digits. */
  lemma RangeTurns(zone: Zone, from: int, to: int, n: nat)
    requires Bounded(zone) && from <= to <= from + MAX_RANGE && Wall(zone, from) >= CENTURY * DAY
    requires Wall(zone, from) / DAY <= Wall(zone, to) / DAY
    requires var end := LocalDate(zone, to); ValidCivil(end) && Turns(LocalDate(zone, from), end, n)
    ensures n == Wall(zone, to) / DAY - Wall(zone, from) / DAY + 1
            <==> |YearText(LocalDate(zone, from).year)| == |YearText(NextDay(LocalDate(zone, to)).year)|
  {
    hide DayOf;
    hide CivilOf;
    hide LocalDate;
    hide NextDay;
    hide Decimal;
    hide Turns;
    LocalDateValid(zone, from);
    FewDays(Wall(zone, from), Wall(zone, to));
    LocalDateValid(zone, to);
    TurnsExact(LocalDate(zone, from), LocalDate(zone, to), n);
  }

  lemma FewDays(a: int, b: int)
    requires a >= CENTURY * DAY && b <= a + 364 * DAY - DAY && a / DAY <= b / DAY
    ensures b / DAY <= a / DAY + 363 && b >= CENTURY * DAY
  {
    DivMod(a, a / DAY, a % DAY);
    DivMod(b, b / DAY, b % DAY);
  }

  /** On the last day of four-digit years the loop runs through almost ninety thousand years more: the key of every
      later day with a year below 99990 compares as no later than 9999-12-31. */
  lemma LastOfFourDigits()
    ensures var end := Civil(9999, 12, 31); ValidCivil(end) && Turns(end, end, DayOf(Civil(99990, 1, 1)) - DayOf(end))
  {
    hide DayOf;
    hide CivilOf;
    hide Key;
    hide StringLe;
    var end, stop := Civil(9999, 12, 31), Civil(99990, 1, 1);
    var first, last := DayOf(end), DayOf(stop);
    DayOrder(end, stop);
    CivilOfDay(end);
    CivilOfDay(stop);
    forall d | first <= d < last ensures GoesOn(d, end) {
      if d == first {
        KeyOrder(end, end);
      } else {
        DayOfCivil(d);
        FiveDigitKey(CivilOf(d));
      }
    }
    Decimals();
    LongerKey(stop, end, "0");
    assert first + (last - first) == last;
  }

  lemma Decimals()
    ensures Decimal(999) == "999" && Decimal(9999) == "9999" && Decimal(99990) == "99990" && Decimal(1000) == "1000"
  {
    assert Decimal(99) == "99";
    assert Decimal(100) == "100";
  }

  lemma FiveDigitKey(c: Civil)
    requires ValidCivil(c) && DayOf(Civil(9999, 12, 31)) < DayOf(c) < DayOf(Civil(99990, 1, 1))
    ensures StringLe(Key(c), Key(Civil(9999, 12, 31)))
  {
    hide DayOf;
    var end := Civil(9999, 12, 31);
    DayOrder(end, c);
    DayOrder(c, Civil(99990, 1, 1));
    var y := c.year / 10;
    assert 1000 <= y <= 9998;
    Decimals();
    DecimalLength(1000, y);
    DecimalLength(y, 9999);
    DecimalOrder(y, 9999);
    var x := [Digit(c.year % 10)];
    assert Decimal(c.year) == Decimal(y) + x;
    assert Key(c) == Decimal(y) + (x + "-" + MonthDay(c)) && Key(end) == Decimal(9999) + ("-" + MonthDay(end));
    SamePrefix(Decimal(y), Decimal(9999), x + "-" + MonthDay(c), "-" + MonthDay(end));
  }

  // ---- The loop ----

  /** The key of a day from the first on, before day d. */
  ghost predicate Earlier(k: string, d: int) {
    exists e :: CENTURY <= e < d && Key(CivilOf(e)) == k
  }

  lemma NotSeen(k: string, d: int)
    requires Earlier(k, d) && d >= CENTURY
    ensures k != Key(CivilOf(d))
  {
    hide DayOf;
    hide CivilOf;
    hide Key;
    var e :| CENTURY <= e < d && Key(CivilOf(e)) == k;
    DayOfCivil(e);
    DayOfCivil(d);
    CenturyYear(CivilOf(e));
    CenturyYear(CivilOf(d));
    if k == Key(CivilOf(d)) {
      KeyInjective(CivilOf(e), CivilOf(d));
    }
  }

  /** The day on which the loop has stopped, at the latest. */
  ghost function LastStop(start: Civil, end: Civil): int
    requires end.year > 0
  {
    DayOf(Civil(Beyond(end.year, start.year), 1, 1))
  }

  lemma StopsThere(start: Civil, end: Civil)
    requires ValidCivil(start) && ValidCivil(end) && end.year > 0
    ensures DayOf(start) < LastStop(start, end) && !StringLe(Key(CivilOf(LastStop(start, end))), Key(end))
  {
    hide DayOf;
    hide CivilOf;
    hide Key;
    hide StringLe;
    var c := Civil(Beyond(end.year, start.year), 1, 1);
    var more := BeyondText(end.year, start.year);
    LongerKey(c, end, more);
    CivilOfDay(c);
    DayOrder(start, c);
  }

  lemma Advance(d: int)
    requires d >= CENTURY
    ensures NextDay(CivilOf(d)) == CivilOf(d + 1)
  {
    hide DayOf;
    hide CivilOf;
    DayOfCivil(d);
    CenturyYear(CivilOf(d));
    NextDayOf(CivilOf(d), d);
  }

  /** The day-by-day loop: it stops by comparing day keys as strings. */
  method SlotsOfRange(q: Query, start: Civil, end: Civil) returns (slots: seq<Slot>, ghost turns: nat)
    requires ValidCivil(start) && ValidCivil(end) && start.year >= 100 && end.year >= 100
    ensures Turns(start, end, turns) && slots == RangeSlots(q, DayOf(start), DayOf(start) + turns)
  {
    hide DayOf;
    hide CivilOf;
    hide Key;
    hide StringLe;
    hide NextDay;
    hide DaySlots;
    hide LastStop;
    slots := [];
    turns := 0;
    var seen: set<string> := {};
    var cur, endKey := start, Key(end);
    ghost var first, stop := DayOf(start), LastStop(start, end);
    CivilOfDay(start);
    CenturyYear(start);
    StopsThere(start, end);
    while StringLe(Key(cur), endKey)
      invariant cur == CivilOf(first + turns) && first + turns <= stop
      invariant AtLeast(start, end, turns)
      invariant slots == RangeSlots(q, first, first + turns)
      invariant forall k :: k in seen ==> Earlier(k, first + turns)
      decreases stop - first - turns
    {
      ghost var d := first + turns;
      var dayKey := Key(cur);
      forall k | k in seen ensures k != dayKey {
        NotSeen(k, d);
      }
      if dayKey !in seen {
        seen := seen + {dayKey};
        var daySlots := SlotsOfDay(q, cur);
        slots := slots + daySlots;
      }
      assert Earlier(dayKey, d + 1);
      assert GoesOn(d, end);
      Advance(d);
      cur := NextDay(cur);
      turns := turns + 1;
    }
  }

  /** getAvailableSlots, for an expert who exists and local dates from the year 100 on. */
  method GetAvailableSlots(q: Query, from: int, to: int) returns (r: Result, ghost turns: nat)
    requires from <= to <= from + MAX_RANGE ==> Wall(q.zone, from) >= CENTURY * DAY && Wall(q.zone, to) >= CENTURY * DAY
    ensures r.BadRequest? <==> from > to || to - from > 62 * 24 * 3_600_000
    ensures r.Slots? ==> r.slots == AnswerOver(q, from, to, turns)
    ensures r.Slots? && q.schedule != [] ==>
              ValidCivil(LocalDate(q.zone, to)) && Turns(LocalDate(q.zone, from), LocalDate(q.zone, to), turns)
    ensures r.Slots? && SameDigits(LocalDate(q.zone, from), LocalDate(q.zone, to)) ==> r.slots == Answer(q, from, to)
  {
    hide LocalDate;
    hide NextDay;
    hide DayOf;
    hide CivilOf;
    hide Midnight;
    hide SameDigits;
    hide Turns;
    hide SortBy;
    hide Fetch;
    hide RangeSlots;
    hide Wall;
    turns := 0;
    if from > to || to - from > MAX_RANGE {
      r := BadRequest;
      return;
    }
    if q.schedule == [] {
      r := Slots([]);
      return;
    }
    var start, end := LocalDate(q.zone, from), LocalDate(q.zone, to);
    LocalDateValid(q.zone, from);
    LocalDateValid(q.zone, to);
    var fetched := Fetch(q.bookings, Midnight(q.zone, start), Midnight(q.zone, NextDay(end)));
    var slots;
    slots, turns := SlotsOfRange(q.(bookings := fetched), start, end);
    r := Slots(SortBy(slots, slotStart));
    PlainTurns(start, end, turns);
  }

  lemma PlainTurns(start: Civil, end: Civil, turns: nat)
    requires ValidCivil(start) && ValidCivil(end) && start.year >= 100 && end.year >= 100 && Turns(start, end, turns)
    ensures var n := DayOf(end) - DayOf(start) + 1; SameDigits(start, end) ==> turns == if n > 0 then n else 0
  {
    hide DayOf;
    hide SameDigits;
    hide Turns;
    if SameDigits(start, end) {
      SameDigitsTurns(start, end);
      var n := DayOf(end) - DayOf(start) + 1;
      TurnsUnique(start, end, turns, if n > 0 then n else 0);
    }
  }

  // ---- What the slots are ----

  /** A schedule as it can be stored: minutes within one day, and accepted by the validation. */
  ghost predicate StoredSchedule(items: seq<Item>) {
    && (forall i :: 0 <= i < |items| ==> 0 <= items[i].startMinute && items[i].endMinute <= 1440)
    && Forward(items) && SameDayApart(items)
  }

  function Weekday(d: int): int {
    (d + 3) % 7 + 1
  }

  /** 1 January 2024 was a Monday, and the weekdays follow each other from there; local parts show the same ones. */
  lemma WeekdaysAre(d: int)
    ensures ValidCivil(Civil(2024, 1, 1)) && Weekday(d) == (d - DayOf(Civil(2024, 1, 1))) % 7 + 1
    ensures PartsOf(d * DAY).dayOfWeek == Weekday(d)
  {
    MonthIndex(2024, 0);
    assert DayOf(Civil(2024, 1, 1)) == 19723;
    DivMod(d * DAY, d, 0);
  }

  /** The slot of an item on day d, at a constant offset. */
  function PlainSlot(offset: int, d: int, item: Item): Slot {
    Slot(WallAt(d, item.startMinute) - offset, WallAt(d, item.endMinute) - offset)
  }

  lemma PlainDay(zone: Zone, offset: int, d: int)
    requires ConstantZone(zone, offset) && InCentury(d * DAY, offset)
    ensures WeekdayOn(zone, CivilOf(d)) == Weekday(d)
    ensures forall item: Item :: 0 <= item.startMinute && 0 <= item.endMinute ==>
              SlotOn(zone, CivilOf(d), item) == PlainSlot(offset, d, item)
  {
    hide DayOf;
    hide CivilOf;
    hide ToUtc;
    hide LocalParts;
    var c := CivilOf(d);
    DayOfCivil(d);
    CenturyYear(c);
    ConstantOffset(zone, offset, c, d, 720, WallAt(d, 720) - offset);
    forall item: Item | 0 <= item.startMinute && 0 <= item.endMinute
        ensures SlotOn(zone, c, item) == PlainSlot(offset, d, item) {
      ConstantOffset(zone, offset, c, d, item.startMinute, WallAt(d, item.startMinute) - offset);
      ConstantOffset(zone, offset, c, d, item.endMinute, WallAt(d, item.endMinute) - offset);
    }
  }

  /** A date of the years 0 to 99 is not served at all: its slots start in 1899 or later, and so does the day after
      it. */
  lemma TwoDigitDate(zone: Zone, c: Civil, item: Item)
    requires Bounded(zone) && ValidCivil(c) && 0 <= c.year <= 99 && item.startMinute >= 0
    ensures LocalParts(zone, SlotOn(zone, c, item).startTime).year >= 1899
    ensures NextDay(c).year >= 1900
  {
    hide DayOf;
    hide CivilOf;
    hide LocalParts;
    hide ToUtc;
    hide UtcDay;
    TwoDigitYear(zone, c.year, c.month, c.day, item.startMinute);
    TwentiethCentury(c.year, c.month, c.day + 1);
    var next := UtcDay(c.year, c.month - 1, c.day + 1);
    DayOfCivil(next);
    CenturyYear(CivilOf(next));
  }

  /** A slot that should be offered for day d: scheduled then, bookable, and free of every booking. */
  ghost predicate OfferedOn(q: Query, offset: int, d: int, s: Slot) {
    exists item :: item in q.schedule && item.dayOfWeek == Weekday(d) && s == PlainSlot(offset, d, item) && Free(q, s)
  }

  /** One more item of the schedule: its slot at the constant offset, if it is of that weekday and free. */
  lemma PlainStep(q: Query, offset: int, d: int, k: nat)
    requires ConstantZone(q.zone, offset) && StoredSchedule(q.schedule) && InCentury(d * DAY, offset)
             && 0 < k <= |q.schedule|
    ensures var item := q.schedule[k - 1]; var slot := PlainSlot(offset, d, item);
      DaySlots(q, CivilOf(d), k) == DaySlots(q, CivilOf(d), k - 1) + if item.dayOfWeek == Weekday(d) && Free(q, slot)
        then [slot] else []
  {
    hide ConstantZone;
    hide CivilOf;
    hide Free;
    hide WeekdayOn;
    hide SlotOn;
    hide PlainSlot;
    PlainDay(q.zone, offset, d);
  }

  /** Slots of two items of one weekday do not overlap. */
  lemma PlainApart(q: Query, offset: int, d: int, i: nat, k: nat)
    requires StoredSchedule(q.schedule) && i < k < |q.schedule| && q.schedule[i].dayOfWeek == q.schedule[k].dayOfWeek
    ensures Clear(PlainSlot(offset, d, q.schedule[i]), PlainSlot(offset, d, q.schedule[k]), slotStart, slotEnd)
  {
    assert Clear(q.schedule[i], q.schedule[k], itemStart, itemEnd);
  }

  lemma {:induction false} DaySlotsExact(q: Query, offset: int, d: int, k: nat)
    requires ConstantZone(q.zone, offset) && StoredSchedule(q.schedule) && InCentury(d * DAY, offset)
             && k <= |q.schedule|
    ensures forall s :: s in DaySlots(q, CivilOf(d), k) <==>
              exists i :: 0 <= i < k && q.schedule[i].dayOfWeek == Weekday(d)
                  && s == PlainSlot(offset, d, q.schedule[i]) && Free(q, s)
    ensures Apart(DaySlots(q, CivilOf(d), k), slotStart, slotEnd)
  {
    hide ConstantZone;
    hide StoredSchedule;
    hide CivilOf;
    hide Free;
    hide WeekdayOn;
    hide SlotOn;
    hide PlainSlot;
    hide Clear;
    if k > 0 {
      DaySlotsExact(q, offset, d, k - 1);
      PlainStep(q, offset, d, k);
      var item := q.schedule[k - 1];
      var before, slot := DaySlots(q, CivilOf(d), k - 1), PlainSlot(offset, d, item);
      forall n | 0 <= n < |before| && item.dayOfWeek == Weekday(d) ensures Clear(before[n], slot, slotStart, slotEnd) {
        assert before[n] in before;
        var i :| 0 <= i < k - 1 && q.schedule[i].dayOfWeek == Weekday(d)
            && before[n] == PlainSlot(offset, d, q.schedule[i]);
        PlainApart(q, offset, d, i, k - 1);
      }
    }
  }

  lemma InOneDay(q: Query, offset: int, d: int, s: Slot)
    requires StoredSchedule(q.schedule) && OfferedOn(q, offset, d, s)
    ensures d * DAY - offset <= s.startTime < s.endTime <= (d + 1) * DAY - offset
  {
    var item :| item in q.schedule && item.dayOfWeek == Weekday(d) && s == PlainSlot(offset, d, item) && Free(q, s);
    var i :| 0 <= i < |q.schedule| && q.schedule[i] == item;
  }

  lemma DaySlotsOffered(q: Query, offset: int, d: int)
    requires ConstantZone(q.zone, offset) && StoredSchedule(q.schedule) && InCentury(d * DAY, offset)
    ensures forall s :: s in DaySlots(q, CivilOf(d), |q.schedule|) <==> OfferedOn(q, offset, d, s)
    ensures Apart(DaySlots(q, CivilOf(d), |q.schedule|), slotStart, slotEnd)
  {
    hide CivilOf;
    DaySlotsExact(q, offset, d, |q.schedule|);
    forall s ensures s in DaySlots(q, CivilOf(d), |q.schedule|) <==> OfferedOn(q, offset, d, s) {
      if OfferedOn(q, offset, d, s) {
        var item :| item in q.schedule && item.dayOfWeek == Weekday(d) && s == PlainSlot(offset, d, item) && Free(q, s);
        var i :| 0 <= i < |q.schedule| && q.schedule[i] == item;
        assert s == PlainSlot(offset, d, q.schedule[i]);
      }
    }
  }

  lemma ApartAppend(a: seq<Slot>, b: seq<Slot>, t: int)
    requires Apart(a, slotStart, slotEnd) && Apart(b, slotStart, slotEnd)
    requires (forall s :: s in a ==> s.endTime <= t) && (forall s :: s in b ==> t <= s.startTime)
    ensures Apart(a + b, slotStart, slotEnd)
  {
    forall i, j | 0 <= i < j < |a + b| ensures Clear((a + b)[i], (a + b)[j], slotStart, slotEnd) {
      if j < |a| {
        assert Clear(a[i], a[j], slotStart, slotEnd);
      } else if i < |a| {
        assert a[i] in a && b[j - |a|] in b;
      } else {
        assert Clear(b[i - |a|], b[j - |a|], slotStart, slotEnd);
      }
    }
  }

  lemma {:induction false} RangeSlotsExact(q: Query, offset: int, first: int, n: int)
    requires ConstantZone(q.zone, offset) && StoredSchedule(q.schedule) && InCentury(first * DAY, offset)
    ensures forall s :: s in RangeSlots(q, first, n) <==> exists d :: first <= d < n && OfferedOn(q, offset, d, s)
    ensures Apart(RangeSlots(q, first, n), slotStart, slotEnd)
    decreases n - first
  {
    hide CivilOf;
    hide DaySlots;
    hide OfferedOn;
    if n > first {
      RangeSlotsExact(q, offset, first, n - 1);
      DaySlotsOffered(q, offset, n - 1);
      var before, today := RangeSlots(q, first, n - 1), DaySlots(q, CivilOf(n - 1), |q.schedule|);
      forall s | s in before ensures s.endTime <= (n - 1) * DAY - offset {
        var d :| first <= d < n - 1 && OfferedOn(q, offset, d, s);
        InOneDay(q, offset, d, s);
      }
      forall s | s in today ensures (n - 1) * DAY - offset <= s.startTime {
        InOneDay(q, offset, n - 1, s);
      }
      ApartAppend(before, today, (n - 1) * DAY - offset);
    }
  }

  /** The range-limited fetch changes nothing of what is offered on the days of the range. */
  lemma SameOffers(q: Query, offset: int, first: int, last: int, d: int, s: Slot)
    requires StoredSchedule(q.schedule) && first <= d <= last
    ensures OfferedOn(q.(bookings := Fetch(q.bookings, first * DAY - offset, (last + 1) * DAY - offset)), offset, d, s)
            <==> OfferedOn(q, offset, d, s)
  {
    var from, to := first * DAY - offset, (last + 1) * DAY - offset;
    var fetched := q.(bookings := Fetch(q.bookings, from, to));
    forall item | item in q.schedule && s == PlainSlot(offset, d, item) ensures Free(fetched, s) <==> Free(q, s) {
      var i :| 0 <= i < |q.schedule| && q.schedule[i] == item;
      assert d * DAY - offset <= s.startTime && s.endTime <= (d + 1) * DAY - offset;
      FetchLosesNothing(s, q.bookings, from, to);
    }
  }

  /** The bookings that are fetched are those of the local days of the range. */
  lemma AnswerIs(q: Query, offset: int, from: int, to: int, first: int, last: int)
    requires ConstantZone(q.zone, offset) && q.schedule != []
    requires from <= to && first == Wall(q.zone, from) / DAY && last == Wall(q.zone, to) / DAY
             && InCentury(first * DAY, offset)
    ensures Answer(q, from, to) == SortBy(RangeSlots(InRange(q, offset, first, last), first, last + 1), slotStart)
  {
    hide CivilOf;
    hide DayOf;
    hide LocalDate;
    hide NextDay;
    hide ToUtc;
    hide LocalParts;
    var start, end := LocalDate(q.zone, from), LocalDate(q.zone, to);
    DayMonotone(from + offset, to + offset);
    LocalDateValid(q.zone, from);
    LocalDateValid(q.zone, to);
    NextDayOf(end, last);
    CenturyYear(NextDay(end));
    ConstantOffset(q.zone, offset, start, first, 0, WallAt(first, 0) - offset);
    ConstantOffset(q.zone, offset, NextDay(end), last + 1, 0, WallAt(last + 1, 0) - offset);
  }

  lemma DayMonotone(a: int, b: int)
    requires a <= b
    ensures a / DAY <= b / DAY && a / DAY * DAY <= a
  {
    DivMod(a, a / DAY, a % DAY);
    DivMod(b, b / DAY, b % DAY);
  }

  function InRange(q: Query, offset: int, first: int, last: int): Query {
    q.(bookings := Fetch(q.bookings, first * DAY - offset, (last + 1) * DAY - offset))
  }

  /** Sorted by start, disjoint slots follow each other. */
  lemma SortedSlots(slots: seq<Slot>)
    requires Apart(slots, slotStart, slotEnd) && forall s :: s in slots ==> s.startTime < s.endTime
    ensures var r := SortBy(slots, slotStart);
            (forall s :: s in r <==> s in slots) && forall i :: 1 <= i < |r| ==> r[i - 1].endTime <= r[i].startTime
  {
    var r := SortBy(slots, slotStart);
    SortMembers(slots, slotStart);
    SortAscending(slots, slotStart);
    SortApart(slots, slotStart, slotStart, slotEnd);
    forall i | 0 <= i < |r| ensures slotStart(r[i]) < slotEnd(r[i]) {
      assert r[i] in r;
    }
    NeighboursApart(r, slotStart, slotEnd);
    forall i | 1 <= i < |r| ensures r[i - 1].endTime <= r[i].startTime {
      assert slotEnd(r[i - 1]) <= slotStart(r[i]);
    }
  }

  /** Offered on one of the days first, ..., last. */
  ghost predicate Offered(q: Query, offset: int, first: int, last: int, s: Slot) {
    exists d :: first <= d <= last && OfferedOn(q, offset, d, s)
  }

  lemma SameOffered(q: Query, offset: int, first: int, last: int, s: Slot)
    requires StoredSchedule(q.schedule)
    ensures Offered(InRange(q, offset, first, last), offset, first, last, s) <==> Offered(q, offset, first, last, s)
  {
    hide OfferedOn;
    forall d | first <= d <= last ensures OfferedOn(InRange(q, offset, first, last), offset, d, s)
        <==> OfferedOn(q, offset, d, s) {
      SameOffers(q, offset, first, last, d, s);
    }
  }

  lemma RangeOffered(q: Query, offset: int, first: int, last: int)
    requires ConstantZone(q.zone, offset) && StoredSchedule(q.schedule) && InCentury(first * DAY, offset)
    ensures forall s :: s in RangeSlots(q, first, last + 1) <==> Offered(q, offset, first, last, s)
    ensures forall s :: s in RangeSlots(q, first, last + 1) ==> s.startTime < s.endTime
    ensures Apart(RangeSlots(q, first, last + 1), slotStart, slotEnd)
  {
    hide OfferedOn;
    RangeSlotsExact(q, offset, first, last + 1);
    forall s | s in RangeSlots(q, first, last + 1) ensures s.startTime < s.endTime {
      var d :| first <= d < last + 1 && OfferedOn(q, offset, d, s);
      InOneDay(q, offset, d, s);
    }
  }

  /** With a stored schedule and a constant offset, the answer is exactly the scheduled slots of the local days of the
      range that are bookable and free of all bookings, in order and without overlap. */
  lemma AnswerExact(q: Query, offset: int, from: int, to: int, first: int, last: int)
    requires ConstantZone(q.zone, offset) && StoredSchedule(q.schedule)
    requires from <= to && first == Wall(q.zone, from) / DAY && last == Wall(q.zone, to) / DAY
             && InCentury(first * DAY, offset)
    ensures forall s :: s in Answer(q, from, to) <==> Offered(q, offset, first, last, s)
    ensures forall i :: 1 <= i < |Answer(q, from, to)| ==>
              Answer(q, from, to)[i - 1].endTime <= Answer(q, from, to)[i].startTime
  {
    hide DayOf;
    hide LocalDate;
    hide NextDay;
    hide RangeSlots;
    if q.schedule == [] {
      NothingOffered(q, offset);
    } else {
      hide Answer;
      hide SortBy;
      hide Offered;
      AnswerIs(q, offset, from, to, first, last);
      RangeOffered(InRange(q, offset, first, last), offset, first, last);
      SortedSlots(RangeSlots(InRange(q, offset, first, last), first, last + 1));
      forall s ensures Offered(InRange(q, offset, first, last), offset, first, last, s)
          <==> Offered(q, offset, first, last, s) {
        SameOffered(q, offset, first, last, s);
      }
    }
  }

  lemma NothingOffered(q: Query, offset: int)
    requires q.schedule == []
    ensures forall d, s :: !OfferedOn(q, offset, d, s)
  {
  }

  /** The slot of a scheduled item on day d at a constant offset: that many minutes after the local midnight, on its
      weekday, counted from Monday, 1 January 2024. */
  predicate Scheduled(items: seq<Item>, offset: int, d: int, s: Slot) {
    exists item ::
      && item in items && item.dayOfWeek == (d - 19723) % 7 + 1
      && s.startTime == d * 86_400_000 + item.startMinute * 60_000 - offset
      && s.endTime == d * 86_400_000 + item.endMinute * 60_000 - offset
  }

  /** At least four hours ahead, and sharing no instant with any booking. */
  ghost predicate StillFree(q: Query, s: Slot) {
    && s.startTime - q.now >= 4 * 3_600_000
    && forall b :: b in q.bookings ==> !ShareInstant(s.startTime, s.endTime, b.startTime, b.endTime)
  }

  /** The answer, in the words of its caller: exactly the scheduled slots of the local days of the range that are at
      least four hours ahead and share no instant with a booking. */
  lemma AnswerMeans(q: Query, offset: int, from: int, to: int, first: int, last: int, s: Slot)
    requires ConstantZone(q.zone, offset) && StoredSchedule(q.schedule) && forall b :: b in q.bookings ==>
               b.startTime < b.endTime
    requires from <= to && first == Wall(q.zone, from) / DAY && last == Wall(q.zone, to) / DAY
             && InCentury(first * DAY, offset)
    ensures s in Answer(q, from, to)
            <==> StillFree(q, s) && exists d :: first <= d <= last && Scheduled(q.schedule, offset, d, s)
  {
    hide Answer;
    hide StillFree;
    AnswerExact(q, offset, from, to, first, last);
    forall d ensures OfferedOn(q, offset, d, s) <==> Scheduled(q.schedule, offset, d, s) && StillFree(q, s) {
      OfferedMeans(q, offset, d, s);
    }
    hide OfferedOn;
    hide Scheduled;
  }

  lemma OfferedMeans(q: Query, offset: int, d: int, s: Slot)
    requires StoredSchedule(q.schedule) && forall b :: b in q.bookings ==> b.startTime < b.endTime
    ensures OfferedOn(q, offset, d, s) <==> Scheduled(q.schedule, offset, d, s) && StillFree(q, s)
  {
    hide Booked;
    hide ShareInstant;
    forall item | item in q.schedule && s == PlainSlot(offset, d, item) ensures Free(q, s) <==> StillFree(q, s) {
      assert item.startMinute < item.endMinute;
      BookedShares(s, q.bookings);
    }
    forall item: Item
      ensures item in q.schedule && item.dayOfWeek == Weekday(d) && s == PlainSlot(offset, d, item) <==>
        && item in q.schedule && item.dayOfWeek == (d - 19723) % 7 + 1
        && s.startTime == d * 86_400_000 + item.startMinute * 60_000 - offset
        && s.endTime == d * 86_400_000 + item.endMinute * 60_000 - offset
    {
      assert (d + 3) % 7 == (d - 19723) % 7;
    }
    hide StillFree;
    hide Free;
  }
}
