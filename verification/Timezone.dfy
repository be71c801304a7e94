/** Wall-clock time in a zone, and the loop that turns it back into an instant. */
module Timezone {
  import opened Calendar

  const MINUTE := 60_000
  const DAY := 86_400_000

  /** Offset from UTC, in milliseconds, at an instant given in milliseconds. */
  type Zone = int -> int

  datatype Parts = Parts(year: int, month: int, day: int, dayOfWeek: int, minuteOfDay: int)

  /** What the clocks of the zone show, in milliseconds as if they stood in UTC. */
  function Wall(zone: Zone, t: int): int {
    t + zone(t)
  }

  /** Intl shows the year of its era: 1 BC, the year 0, as 1. */
  function EraYear(year: int): int {
    if year > 0 then year else 1 - year
  }

  function PartsOf(wall: int): Parts {
    var c := CivilOf(wall / DAY);
    Parts(EraYear(c.year), c.month, c.day, (wall / DAY + 3) % 7 + 1, wall % DAY / MINUTE)
  }

  /** getLocalDateParts; weekdays run from 1, Monday, to 7, Sunday. */
  function LocalParts(zone: Zone, t: int): Parts {
    PartsOf(Wall(zone, t))
  }

  function DateOf(p: Parts): Civil {
    Civil(p.year, p.month, p.day)
  }

  /** JavaScript's remainder takes the sign of the dividend. */
  function Remainder(a: int, b: int): int
    requires b > 0
  {
    if a >= 0 then a % b else -((-a) % b)
  }

  /** Date.UTC(year, month - 1, day, hour, minute), the minutes split as the source splits them. */
  function UtcTime(year: int, month: int, day: int, minuteOfDay: int): int {
    UtcDay(year, month - 1, day) * DAY + (minuteOfDay / 60 * 60 + Remainder(minuteOfDay, 60)) * MINUTE
  }

  function ShownTime(zone: Zone, t: int): int {
    var p := LocalParts(zone, t);
    UtcTime(p.year, p.month, p.day, p.minuteOfDay)
  }

  function Shown(zone: Zone): int -> int {
    t => ShownTime(zone, t)
  }

  /** At most n corrections of a candidate towards the time wanted, given what each instant shows. */
  function Settle(shown: int -> int, wanted: int, candidate: int, n: nat): int
    decreases n
  {
    if n == 0 || shown(candidate) == wanted then candidate
    else Settle(shown, wanted, candidate + (wanted - shown(candidate)), n - 1)
  }

  function ToUtc(zone: Zone, year: int, month: int, day: int, minuteOfDay: int): int {
    var wanted := UtcTime(year, month, day, minuteOfDay);
    Settle(Shown(zone), wanted, wanted, 4)
  }

  method ZonedLocalToUtc(year: int, month: int, day: int, minuteOfDay: int, zone: Zone) returns (candidate: int)
    ensures candidate == ToUtc(zone, year, month, day, minuteOfDay)
  {
    candidate := UtcTime(year, month, day, minuteOfDay);
    candidate := Correct(Shown(zone), candidate, candidate);
  }

  /** The correction loop, stopped early when the candidate shows what is wanted. */
  method Correct(shown: int -> int, wanted: int, first: int) returns (candidate: int)
    ensures candidate == Settle(shown, wanted, first, 4)
  {
    candidate := first;
    for i := 0 to 4
      invariant Settle(shown, wanted, candidate, 4 - i) == Settle(shown, wanted, first, 4)
    {
      var diff := wanted - shown(candidate);
      if diff == 0 {
        break;
      }
      candidate := candidate + diff;
    }
  }

  // ---- The loop by itself ----

  /** Around this wall time there are at most the two offsets a and b, and the candidates show the instant plus its
      offset. */
  ghost predicate TwoOffsets(zone: Zone, shown: int -> int, wall: int, a: int, b: int) {
    && -DAY < a < DAY && -DAY < b < DAY
    && (forall t :: wall - DAY <= t <= wall + DAY ==> zone(t) == a || zone(t) == b)
    && shown(wall) == wall + zone(wall) && shown(wall - a) == wall - a + zone(wall - a)
       && shown(wall - b) == wall - b + zone(wall - b)
  }

  /** Some instant shows this wall time. */
  ghost predicate Exists(zone: Zone, wall: int) {
    exists t :: wall - DAY <= t <= wall + DAY && Wall(zone, t) == wall
  }

  /** One correction puts the candidate where the present offset says the wall time is. */
  lemma OneCorrection(zone: Zone, shown: int -> int, wall: int, a: int, b: int, t: int, n: nat)
    requires TwoOffsets(zone, shown, wall, a, b) && n > 0 && (t == wall || t == wall - a || t == wall - b)
    ensures zone(t) == a || zone(t) == b
    ensures Settle(shown, wall, t, n) == if t + zone(t) == wall then t else Settle(shown, wall, wall - zone(t), n - 1)
  {
    assert t + (wall - shown(t)) == wall - zone(t);
  }

  /** Every instant that shows the wall time is one of two. */
  lemma Candidates(zone: Zone, shown: int -> int, wall: int, a: int, b: int)
    requires TwoOffsets(zone, shown, wall, a, b)
    ensures Exists(zone, wall) <==> zone(wall - a) == a || zone(wall - b) == b
  {
    if zone(wall - a) == a {
      assert Wall(zone, wall - a) == wall;
    }
    if zone(wall - b) == b {
      assert Wall(zone, wall - b) == wall;
    }
    if Exists(zone, wall) {
      var t :| wall - DAY <= t <= wall + DAY && Wall(zone, t) == wall;
      assert t == wall - zone(t);
    }
  }

  /** Nothing is left to correct after the last pass. */
  lemma OffsetsWithin(zone: Zone, shown: int -> int, wall: int, a: int, b: int)
    requires TwoOffsets(zone, shown, wall, a, b)
    ensures -DAY < a < DAY && -DAY < b < DAY
    ensures forall t :: Settle(shown, wall, t, 0) == t
  {
  }

  /** The loop finds an instant that shows the wall time exactly when there is one; in a gap it ends up off by the
      jump. */
  lemma SettleFinds(zone: Zone, shown: int -> int, wall: int, a: int, b: int)
    requires TwoOffsets(zone, shown, wall, a, b)
    ensures var t := Settle(shown, wall, wall, 4);
            && (t == wall || t == wall - a || t == wall - b)
            && (Wall(zone, t) == wall <==> Exists(zone, wall))
            && (!Exists(zone, wall) ==> a != b && (Wall(zone, t) == wall + a - b || Wall(zone, t) == wall + b - a))
  {
    hide TwoOffsets;
    hide Exists;
    hide Settle;
    OffsetsWithin(zone, shown, wall, a, b);
    Candidates(zone, shown, wall, a, b);
    OneCorrection(zone, shown, wall, a, b, wall, 4);
    var c1 := wall - zone(wall);
    OneCorrection(zone, shown, wall, a, b, c1, 3);
    var c2 := wall - zone(c1);
    OneCorrection(zone, shown, wall, a, b, c2, 2);
    OneCorrection(zone, shown, wall, a, b, wall - zone(c2), 1);
  }

  // ---- Calendar dates ----

  /** 1 January 100: Date.UTC takes every year before for one of the twentieth century. */
  const CENTURY := -683003

  /** The date and every date up to two days before it are written with a year Date.UTC takes as it is. */
  predicate Modern(c: Civil) {
    ValidCivil(c) && DayOf(c) >= CENTURY + 2
  }

  lemma CenturyDay()
    ensures DayOf(Civil(100, 1, 1)) == CENTURY && DayOf(Civil(101, 1, 1)) == CENTURY + 365
            && DayOf(Civil(1900, 1, 1)) == -25567
  {
    assert LeapDays(100) == 24 && LeapDays(101) == 24 && LeapDays(1900) == 460;
    assert YearStart(100) == CENTURY && YearStart(101) == CENTURY + 365 && YearStart(1900) == -25567;
    MonthIndex(100, 0);
    MonthIndex(101, 0);
    MonthIndex(1900, 0);
  }

  lemma CenturyYear(c: Civil)
    requires ValidCivil(c)
    ensures DayOf(c) >= CENTURY <==> c.year >= 100
    ensures DayOf(c) >= CENTURY + 365 <==> c.year > 100
    ensures DayOf(c) >= -25567 <==> c.year >= 1900
  {
    CenturyDay();
    DayOrder(c, Civil(100, 1, 1));
    DayOrder(c, Civil(101, 1, 1));
    DayOrder(c, Civil(1900, 1, 1));
  }

  /** Splitting whole minutes into days and minutes of the day. */
  lemma Split(wall: int)
    requires wall % MINUTE == 0
    ensures wall / DAY * DAY + wall % DAY / MINUTE * MINUTE == wall && 0 <= wall % DAY / MINUTE < 1440
  {
    var k, d := wall / MINUTE, wall / DAY;
    assert wall == k * 60_000 && wall % DAY == (k - 1440 * d) * 60_000;
    assert wall % DAY / MINUTE == k - 1440 * d;
  }

  lemma Join(d: int, m: int)
    requires 0 <= m < 1440
    ensures (d * DAY + m * MINUTE) / DAY == d && (d * DAY + m * MINUTE) % DAY / MINUTE == m
            && (d * DAY + m * MINUTE) % MINUTE == 0
  {
    var w := d * DAY + m * MINUTE;
    assert 0 <= m * MINUTE < DAY;
    assert w / DAY == d && w % DAY == m * MINUTE;
    assert w == (d * 1440 + m) * MINUTE;
  }

  lemma WholeMinutes(d: int, m: int)
    ensures (d * DAY + m * MINUTE) % MINUTE == 0
  {
    assert d * DAY + m * MINUTE == (d * 1440 + m) * MINUTE;
  }

  /** The wall time of a minute of day d. */
  function WallAt(d: int, m: int): int {
    d * DAY + m * MINUTE
  }

  lemma UtcTimeOf(c: Civil, m: int)
    requires ValidCivil(c) && !(0 <= c.year <= 99) && m >= 0
    ensures UtcTime(c.year, c.month, c.day, m) == WallAt(DayOf(c), m)
  {
    assert 12 * c.year + (c.month - 1) == 12 * c.year + c.month - 1;
    assert m / 60 * 60 + Remainder(m, 60) == m;
  }

  lemma PartsOfDay(d: int, c: Civil, m: int)
    requires c == CivilOf(d) && 0 <= m < 1440 && c.year > 0
    ensures PartsOf(d * DAY + m * MINUTE) == Parts(c.year, c.month, c.day, (d + 3) % 7 + 1, m)
  {
    Join(d, m);
  }

  lemma PartsOfMinute(c: Civil, m: int, d: int)
    requires ValidCivil(c) && 0 <= m < 1440 && d == DayOf(c) && c.year > 0
    ensures PartsOf(d * DAY + m * MINUTE) == Parts(c.year, c.month, c.day, (d + 3) % 7 + 1, m)
  {
    assert c == CivilOf(d) by {
      CivilOfDay(c);
    }
    PartsOfDay(d, c, m);
  }

  /** From the year 100 on, the parts of an instant give its wall time back, down to the minute. */
  lemma WallOfParts(wall: int)
    requires wall >= CENTURY * DAY
    ensures var p := PartsOf(wall);
            && ValidCivil(DateOf(p)) && p.year >= 100 && 0 <= p.minuteOfDay < 1440
            && wall / DAY == DayOf(DateOf(p)) && wall - wall % MINUTE == WallAt(wall / DAY, p.minuteOfDay)
  {
    hide DayOf;
    hide CivilOf;
    Floor(wall);
    DayOfCivil(wall / DAY);
    CenturyYear(CivilOf(wall / DAY));
    Split(wall - wall % MINUTE);
  }

  lemma Floor(wall: int)
    ensures (wall - wall % MINUTE) % MINUTE == 0 && (wall - wall % MINUTE) / DAY == wall / DAY
    ensures (wall - wall % MINUTE) % DAY / MINUTE == wall % DAY / MINUTE
    ensures wall >= CENTURY * DAY ==> wall / DAY >= CENTURY
  {
    var k, r := wall / MINUTE, wall % MINUTE;
    var d, j := k / 1440, k % 1440;
    assert wall == (d * 1440 + j) * MINUTE + r && wall - r == k * MINUTE;
    Join(d, j);
    assert wall == d * DAY + (j * MINUTE + r) && 0 <= j * MINUTE + r < DAY;
    DivMod(wall, d, j * MINUTE + r);
    assert (j * MINUTE + r) / MINUTE == j;
  }

  lemma DivMod(x: int, q: int, r: int)
    requires x == q * DAY + r && 0 <= r < DAY
    ensures x / DAY == q && x % DAY == r
  {
  }

  /** The parts of a whole minute name it. */
  lemma SameParts(wall: int, c: Civil, d: int, m: int)
    requires wall % MINUTE == 0 && wall >= CENTURY * DAY && ValidCivil(c) && c.year > 0 && d == DayOf(c)
             && 0 <= m < 1440
    ensures (DateOf(PartsOf(wall)) == c && PartsOf(wall).minuteOfDay == m) <==> wall == WallAt(d, m)
  {
    hide DayOf;
    hide CivilOf;
    PartsOfMinute(c, m, d);
    WallOfParts(wall);
  }

  /** From the year 100 on, an instant shows its wall time, down to the minute. */
  lemma ShownWall(zone: Zone, t: int)
    requires Wall(zone, t) >= CENTURY * DAY
    ensures Shown(zone)(t) == Wall(zone, t) - Wall(zone, t) % MINUTE
  {
    hide DayOf;
    hide CivilOf;
    var p := LocalParts(zone, t);
    WallOfParts(Wall(zone, t));
    UtcTimeOf(DateOf(p), p.minuteOfDay);
  }

  /** What an instant shows is its wall time, on whole minutes from the year 100 on. */
  ghost predicate Faithful(zone: Zone, shown: int -> int) {
    forall t :: (t + zone(t)) % MINUTE == 0 && t + zone(t) >= CENTURY * DAY ==> shown(t) == t + zone(t)
  }

  lemma ShownFaithful(zone: Zone)
    ensures Faithful(zone, Shown(zone))
  {
    hide Shown;
    forall t | (t + zone(t)) % MINUTE == 0 && t + zone(t) >= CENTURY * DAY {
      ShownWall(zone, t);
    }
  }

  /** Offsets in whole minutes, within a day, and changed at most once around this wall time: from a to b. */
  ghost predicate OneChange(zone: Zone, wall: int, change: int, a: int, b: int) {
    && -DAY < a < DAY && -DAY < b < DAY && a % MINUTE == 0 && b % MINUTE == 0
    && forall t :: wall - DAY <= t <= wall + DAY ==> zone(t) == if t < change then a else b
  }

  lemma WholeSum(x: int, y: int)
    requires x % MINUTE == 0 && y % MINUTE == 0
    ensures (x + y) % MINUTE == 0 && (x - y) % MINUTE == 0
  {
  }

  lemma CandidateShown(zone: Zone, shown: int -> int, change: int, a: int, b: int, wall: int, o: int)
    requires Faithful(zone, shown) && wall >= (CENTURY + 2) * DAY && wall % MINUTE == 0
    requires OneChange(zone, wall, change, a, b) && (o == 0 || o == a || o == b)
    ensures shown(wall - o) == wall - o + zone(wall - o)
    ensures Wall(zone, wall - o) % MINUTE == 0 && Wall(zone, wall - o) >= CENTURY * DAY
  {
    var t := wall - o;
    assert zone(t) == a || zone(t) == b;
    WholeSum(wall, o);
    WholeSum(t, zone(t));
  }

  /** The loop on wall times, around at most one change of offset. */
  lemma SettleAroundChange(zone: Zone, shown: int -> int, change: int, a: int, b: int, wall: int)
    requires Faithful(zone, shown) && wall >= (CENTURY + 2) * DAY && wall % MINUTE == 0
    requires OneChange(zone, wall, change, a, b)
    ensures var t := Settle(shown, wall, wall, 4);
            && (t == wall || t == wall - a || t == wall - b)
            && Wall(zone, t) % MINUTE == 0 && Wall(zone, t) >= CENTURY * DAY
            && (Wall(zone, t) == wall <==> Exists(zone, wall))
            && (!Exists(zone, wall) ==> a != b && (Wall(zone, t) == wall + a - b || Wall(zone, t) == wall + b - a))
  {
    CandidateShown(zone, shown, change, a, b, wall, 0);
    CandidateShown(zone, shown, change, a, b, wall, a);
    CandidateShown(zone, shown, change, a, b, wall, b);
    SettleFinds(zone, shown, wall, a, b);
  }

  lemma ToUtcSettles(zone: Zone, c: Civil, d: int, m: int, wall: int)
    requires ValidCivil(c) && c.year >= 100 && d == DayOf(c) && m >= 0 && wall == WallAt(d, m)
    ensures ToUtc(zone, c.year, c.month, c.day, m) == Settle(Shown(zone), wall, wall, 4)
    ensures wall % MINUTE == 0 && wall >= d * DAY && d >= CENTURY
  {
    hide DayOf;
    hide UtcTime;
    hide Settle;
    UtcTimeOf(c, m);
    WholeMinutes(d, m);
    CenturyYear(c);
  }

  /** The local parts of an instant are this minute of this date. */
  predicate Shows(zone: Zone, t: int, c: Civil, m: int) {
    DateOf(LocalParts(zone, t)) == c && LocalParts(zone, t).minuteOfDay == m
  }

  ghost predicate Bounded(zone: Zone) {
    forall t :: -DAY < zone(t) < DAY
  }

  /** Around a wall-clock minute of a date from 3 January 100 on, in which the offset changes at most once, the result
      shows the minute if and only if any instant does; in a gap it is off by the jump. */
  lemma ModernMinute(zone: Zone, c: Civil, d: int, m: int, change: int, a: int, b: int, wall: int)
    requires Modern(c) && d == DayOf(c) && 0 <= m < 1440 && wall == WallAt(d, m)
    requires OneChange(zone, wall, change, a, b)
    ensures var t := ToUtc(zone, c.year, c.month, c.day, m);
            && (Shows(zone, t, c, m) <==> Exists(zone, wall))
            && (!Exists(zone, wall) ==> a != b && (Wall(zone, t) == wall + a - b || Wall(zone, t) == wall + b - a))
  {
    hide DayOf;
    hide CivilOf;
    var t := ToUtc(zone, c.year, c.month, c.day, m);
    CenturyYear(c);
    ToUtcSettles(zone, c, d, m, wall);
    ShownFaithful(zone);
    SettleAroundChange(zone, Shown(zone), change, a, b, wall);
    SameParts(Wall(zone, t), c, d, m);
  }

  // ---- Years that Date.UTC misreads ----

  /** However many times it is corrected, a candidate stays within a day and a minute of a wall time from 4 January 100
      on. */
  lemma {:induction false} NearWanted(zone: Zone, wanted: int, candidate: int, n: nat)
    requires Bounded(zone) && wanted >= (CENTURY + 3) * DAY
             && wanted - DAY - MINUTE <= candidate <= wanted + DAY + MINUTE
    ensures wanted - DAY - MINUTE <= Settle(Shown(zone), wanted, candidate, n) <= wanted + DAY + MINUTE
    decreases n
  {
    hide Shown;
    if n > 0 {
      ShownWall(zone, candidate);
      var next := candidate + (wanted - Shown(zone)(candidate));
      assert next == wanted - zone(candidate) + Wall(zone, candidate) % MINUTE;
      NearWanted(zone, wanted, next, n - 1);
    }
  }

  lemma TwentiethCentury(year: int, month: int, day: int)
    requires 0 <= year <= 99 && 1 <= month <= 12 && day >= 1
    ensures UtcDay(year, month - 1, day) >= -25567
  {
    hide MonthStart;
    YearStarts();
    NotEarlier(1900, 1900 + year, month);
  }

  lemma YearStarts()
    ensures MonthStart(12 * 101) == CENTURY + 365 && MonthStart(12 * 1900) == -25567
  {
    CenturyDay();
    MonthIndex(101, 0);
    MonthIndex(1900, 0);
  }

  /** Months of later years do not start earlier. */
  lemma NotEarlier(first: int, year: int, month: int)
    requires first <= year && 1 <= month <= 12
    ensures MonthStart(12 * first) <= MonthStart(12 * year + (month - 1))
  {
    hide MonthStart;
    var k := 12 * year + (month - 1);
    if 12 * first < k {
      MonthOrder(12 * first, k);
    }
  }

  lemma NotBefore(year: int, month: int, day: int, m: int)
    requires m >= 0
    ensures UtcTime(year, month, day, m) >= UtcDay(year, month - 1, day) * DAY
  {
    hide UtcDay;
  }

  /** A date of the years 0 to 99 is converted to an instant of 1899 or later, in whatever zone. */
  lemma TwoDigitYear(zone: Zone, year: int, month: int, day: int, m: int)
    requires Bounded(zone) && 0 <= year <= 99 && 1 <= month <= 12 && day >= 1 && m >= 0
    ensures LocalParts(zone, ToUtc(zone, year, month, day, m)).year >= 1899
  {
    hide Settle;
    hide CivilOf;
    hide DayOf;
    var wanted := UtcTime(year, month, day, m);
    TwentiethCentury(year, month, day);
    NotBefore(year, month, day, m);
    NearWanted(zone, wanted, wanted, 4);
    var wall := Wall(zone, ToUtc(zone, year, month, day, m));
    assert wall >= -25570 * DAY;
    var c := CivilOf(wall / DAY);
    DayOfCivil(wall / DAY);
    YearOf1899(c);
  }

  lemma YearOf1899(c: Civil)
    requires ValidCivil(c) && DayOf(c) >= -25570
    ensures c.year >= 1899
  {
    assert LeapDays(1899) == 460 && YearStart(1899) == -25932;
    MonthIndex(1899, 0);
    DayOrder(c, Civil(1899, 1, 1));
  }

  /** 1 January 50, at midnight in UTC, comes out as 1 January 1950. */
  lemma TwoDigitDate()
    ensures Shows(t => 0, ToUtc(t => 0, 50, 1, 1, 0), Civil(1950, 1, 1), 0)
  {
    var utc: Zone := t => 0;
    var c := Civil(1950, 1, 1);
    MonthIndex(1950, 0);
    assert LeapDays(1950) == 472 && YearStart(1950) == -7305 && DayOf(c) == -7305;
    UtcTimeOf(c, 0);
    assert UtcTime(50, 1, 1, 0) == UtcTime(1950, 1, 1, 0) == -7305 * DAY;
    ShownFaithful(utc);
    WholeMinutes(-7305, 0);
    PartsOfMinute(c, 0, -7305);
  }

  /** For every valid date, except the first two days of the year 100, around which the offset changes at most once: the
      result shows the wanted minute if and only if the year is none of 0 to 99 and some instant shows the minute. */
  lemma ToUtcShowsTheMinute(zone: Zone, c: Civil, d: int, m: int, change: int, a: int, b: int, wall: int)
    requires ValidCivil(c) && c.year >= 0 && (c.year == 100 ==> d >= CENTURY + 2)
    requires d == DayOf(c) && 0 <= m < 1440 && wall == WallAt(d, m)
    requires Bounded(zone) && OneChange(zone, wall, change, a, b)
    ensures var t := ToUtc(zone, c.year, c.month, c.day, m);
            && (Shows(zone, t, c, m) <==> !(0 <= c.year <= 99) && Exists(zone, wall))
            && (c.year > 99 && !Exists(zone, wall) ==>
                a != b && (Wall(zone, t) == wall + a - b || Wall(zone, t) == wall + b - a))
            && (c.year <= 99 ==> LocalParts(zone, t).year >= 1899)
  {
    hide DayOf;
    if c.year <= 99 {
      TwoDigitYear(zone, c.year, c.month, c.day, m);
    } else {
      CenturyYear(c);
      ModernMinute(zone, c, d, m, change, a, b, wall);
    }
  }

  /** Clocks put forward by an hour at the start of 1970. */
  const FORWARD: Zone := (t: int) => if t < 0 then 0 else 60 * MINUTE

  /** In a gap the corrections go to and fro. */
  lemma ToAndFro(shown: int -> int, wall: int, jump: int)
    requires jump != 0 && shown(wall) == wall + jump && shown(wall - jump) == wall - jump
    ensures Settle(shown, wall, wall, 4) == wall
  {
    assert Settle(shown, wall, wall, 4) == Settle(shown, wall, wall - jump, 3);
    assert Settle(shown, wall, wall - jump, 3) == Settle(shown, wall, wall, 2);
    assert Settle(shown, wall, wall, 2) == Settle(shown, wall, wall - jump, 1) == Settle(shown, wall, wall, 0);
  }

  lemma Epoch()
    ensures ValidCivil(Civil(1970, 1, 1)) && DayOf(Civil(1970, 1, 1)) == 0
  {
    MonthIndex(1970, 0);
    assert LeapDays(1970) == 477;
  }

  /** Half past midnight was then shown by no instant, and comes out as half past one. */
  lemma GapMinute()
    ensures OneChange(FORWARD, 30 * MINUTE, 0, 0, 60 * MINUTE) && !Exists(FORWARD, 30 * MINUTE)
    ensures Shows(FORWARD, ToUtc(FORWARD, 1970, 1, 1, 30), Civil(1970, 1, 1), 90)
  {
    hide DayOf;
    hide CivilOf;
    hide Settle;
    hide UtcDay;
    var c, wall := Civil(1970, 1, 1), 30 * MINUTE;
    Epoch();
    UtcTimeOf(c, 30);
    ShownWall(FORWARD, wall);
    ShownWall(FORWARD, wall - 60 * MINUTE);
    ToAndFro(Shown(FORWARD), wall, 60 * MINUTE);
    PartsOfMinute(c, 90, 0);
  }

  // ---- Constant offsets ----

  ghost predicate ConstantZone(zone: Zone, offset: int) {
    -DAY < offset < DAY && offset % MINUTE == 0 && forall t :: zone(t) == offset
  }

  /** Both the wall time and the first candidate's are of the year 100 or later. */
  predicate InCentury(wall: int, offset: int) {
    wall >= CENTURY * DAY && wall + offset >= CENTURY * DAY
  }

  lemma ConstantSettles(zone: Zone, shown: int -> int, offset: int, wall: int)
    requires Faithful(zone, shown) && InCentury(wall, offset) && wall % MINUTE == 0 && ConstantZone(zone, offset)
    ensures Settle(shown, wall, wall, 4) == wall - offset
  {
    WholeSum(wall, offset);
    assert shown(wall) == wall + offset && shown(wall - offset) == wall;
    assert Settle(shown, wall, wall, 4) == if offset == 0 then wall else Settle(shown, wall, wall - offset, 3);
  }

  /** At a constant offset, a minute of a date is converted to the instant that shows it. */
  lemma ConstantOffset(zone: Zone, offset: int, c: Civil, d: int, m: int, t: int)
    requires ValidCivil(c) && c.year >= 100 && d == DayOf(c) && 0 <= m
    requires ConstantZone(zone, offset) && InCentury(WallAt(d, m), offset) && t == WallAt(d, m) - offset
    ensures ToUtc(zone, c.year, c.month, c.day, m) == t
    ensures m < 1440 ==> LocalParts(zone, t) == Parts(c.year, c.month, c.day, (d + 3) % 7 + 1, m)
  {
    hide DayOf;
    hide CivilOf;
    hide ToUtc;
    var wall := WallAt(d, m);
    ToUtcSettles(zone, c, d, m, wall);
    ShownFaithful(zone);
    ConstantSettles(zone, Shown(zone), offset, wall);
    if m < 1440 {
      PartsOfMinute(c, m, d);
    }
    assert Wall(zone, t) == wall;
  }

  /** Minute m of day d is shown as minute m of the day its date is taken for. */
  lemma ShownAs(zone: Zone, t: int, d: int, m: int, shownDay: int)
    requires 0 <= m < 1440 && Wall(zone, t) == WallAt(d, m)
    requires var c := CivilOf(d); !(0 <= EraYear(c.year) <= 99) && ValidCivil(Civil(EraYear(c.year), c.month, c.day))
                                  && DayOf(Civil(EraYear(c.year), c.month, c.day)) == shownDay
    ensures Shown(zone)(t) == WallAt(shownDay, m)
  {
    hide DayOf;
    hide CivilOf;
    hide UtcTime;
    Join(d, m);
    var c := CivilOf(d);
    UtcTimeOf(Civil(EraYear(c.year), c.month, c.day), m);
  }

  /** One correction at a constant offset, seen on the clocks: minute m of one day becomes minute m of another. */
  lemma DayTurn(zone: Zone, offset: int, target: int, d: int, m: int, shownDay: int, n: nat)
    requires ConstantZone(zone, offset) && 0 <= m < 1440 && n > 0 && shownDay != target
    requires var c := CivilOf(d); !(0 <= EraYear(c.year) <= 99) && ValidCivil(Civil(EraYear(c.year), c.month, c.day))
                                  && DayOf(Civil(EraYear(c.year), c.month, c.day)) == shownDay
    ensures Settle(Shown(zone), WallAt(target, m), WallAt(d, m) - offset, n)
            == Settle(Shown(zone), WallAt(target, m), WallAt(d + target - shownDay, m) - offset, n - 1)
  {
    hide Shown;
    hide DayOf;
    hide CivilOf;
    var t, wanted := WallAt(d, m) - offset, WallAt(target, m);
    ShownAs(zone, t, d, m, shownDay);
    assert WallAt(shownDay, m) != wanted;
    assert t + (wanted - WallAt(shownDay, m)) == WallAt(d + target - shownDay, m) - offset;
  }

  /** A date before our era, the day it stands on and the day it is taken for. */
  lemma EraDate(c: Civil, d: int, shownDay: int)
    requires ValidCivil(c) && c.year < -1000 && c.month == 1 && 1 <= c.day <= 28
    requires YearStart(c.year) + c.day - 1 == d && YearStart(1 - c.year) + c.day - 1 == shownDay
    ensures CivilOf(d) == c && ValidCivil(Civil(1 - c.year, 1, c.day)) && DayOf(Civil(1 - c.year, 1, c.day)) == shownDay
  {
    hide CivilOf;
    MonthIndex(c.year, 0);
    MonthIndex(1 - c.year, 0);
    CivilOfDay(c);
  }

  /** Where the first candidate of 1 January 100 falls in the year 99, it is taken for the last day of 1999. */
  lemma FirstTurn(zone: Zone, offset: int, m: int)
    requires ConstantZone(zone, offset) && 0 <= m < 1440 && WallAt(CENTURY, m) + offset < CENTURY * DAY
    ensures Settle(Shown(zone), WallAt(CENTURY, m), WallAt(CENTURY, m), 4)
            == Settle(Shown(zone), WallAt(CENTURY, m), WallAt(-1376963, m) - offset, 3)
  {
    hide DayOf;
    hide CivilOf;
    hide UtcTime;
    var wall := WallAt(CENTURY, m);
    var early := wall + offset;
    WholeMinutes(CENTURY, m);
    WholeSum(wall, offset);
    Split(early);
    var minute := early % DAY / MINUTE;
    DivMod(early, CENTURY - 1, early - (CENTURY - 1) * DAY);
    assert early == WallAt(CENTURY - 1, minute);
    LastDayOf99();
    Join(CENTURY - 1, minute);
    MisreadYear(12, 31, minute);
    UtcTimeOf(Civil(1999, 12, 31), minute);
    assert Shown(zone)(wall) == WallAt(10956, minute);
    assert wall + (wall - WallAt(10956, minute)) == WallAt(-1376963, m) - offset;
  }

  lemma MisreadYear(month: int, day: int, m: int)
    ensures UtcTime(99, month, day, m) == UtcTime(1999, month, day, m)
  {
  }

  lemma LastDayOf99()
    ensures CivilOf(CENTURY - 1) == Civil(99, 12, 31) && ValidCivil(Civil(1999, 12, 31))
            && DayOf(Civil(1999, 12, 31)) == 10956
  {
    assert LeapDays(99) == 24 && LeapDays(1999) == 484;
    assert YearStart(99) == CENTURY - 365 && YearStart(1999) == 10592;
    MonthIndex(99, 11);
    MonthIndex(1999, 11);
    assert !Leap(99) && !Leap(1999) && DaysBefore(99, 11) == 334 && DaysBefore(1999, 11) == 334;
    CivilOfDay(Civil(99, 12, 31));
  }

  /** Then each correction throws the candidate further back, past years that are shown as years of our era. */
  lemma YearHundred(zone: Zone, offset: int, m: int)
    requires ConstantZone(zone, offset) && 0 <= m < 1440 && WallAt(CENTURY, m) + offset < CENTURY * DAY
    ensures LocalParts(zone, ToUtc(zone, 100, 1, 1, m)).year == 13708
  {
    hide DayOf;
    hide CivilOf;
    hide Settle;
    var c := Civil(100, 1, 1);
    CenturyDay();
    ToUtcSettles(zone, c, CENTURY, m, WallAt(CENTURY, m));
    FirstTurn(zone, offset, m);
    BackDates();
    DayTurn(zone, offset, CENTURY, -1376963, m, -61725, 3);
    DayTurn(zone, offset, CENTURY, -1998241, m, 559551, 2);
    DayTurn(zone, offset, CENTURY, -3240795, m, 1802107, 1);
    var t := WallAt(-5725905, m) - offset;
    NoTurn(Shown(zone), WallAt(CENTURY, m), t);
    Join(-5725905, m);
    assert Wall(zone, t) == WallAt(-5725905, m);
  }

  lemma NoTurn(shown: int -> int, wanted: int, t: int)
    ensures Settle(shown, wanted, t, 0) == t
  {
  }

  lemma BackDates()
    ensures CivilOf(-1376963) == Civil(-1800, 1, 2) && ValidCivil(Civil(1801, 1, 2))
            && DayOf(Civil(1801, 1, 2)) == -61725
    ensures CivilOf(-1998241) == Civil(-3501, 1, 1) && ValidCivil(Civil(3502, 1, 1))
            && DayOf(Civil(3502, 1, 1)) == 559551
    ensures CivilOf(-3240795) == Civil(-6903, 1, 2) && ValidCivil(Civil(6904, 1, 2))
            && DayOf(Civil(6904, 1, 2)) == 1802107
    ensures CivilOf(-5725905) == Civil(-13707, 1, 2)
  {
    EraDate(Civil(-1800, 1, 2), -1376963, -61725);
    EraDate(Civil(-3501, 1, 1), -1998241, 559551);
    EraDate(Civil(-6903, 1, 2), -3240795, 1802107);
    EraDate(Civil(-13707, 1, 2), -5725905, YearStart(13708) + 1);
  }

  /** At a constant offset and for every valid date: the result shows the wanted minute if and only if the wall time and
      the first candidate's are both of the year 100 or later. */
  lemma ConstantShows(zone: Zone, offset: int, c: Civil, d: int, m: int)
    requires ValidCivil(c) && c.year >= 0 && d == DayOf(c) && 0 <= m < 1440 && ConstantZone(zone, offset)
    ensures Shows(zone, ToUtc(zone, c.year, c.month, c.day, m), c, m) <==> InCentury(WallAt(d, m), offset)
  {
    hide DayOf;
    hide CivilOf;
    hide ToUtc;
    CenturyYear(c);
    if c.year <= 99 {
      TwoDigitYear(zone, c.year, c.month, c.day, m);
      assert WallAt(d, m) < CENTURY * DAY;
    } else if InCentury(WallAt(d, m), offset) {
      ConstantOffset(zone, offset, c, d, m, WallAt(d, m) - offset);
    } else {
      FirstOfYear(c, d);
      YearHundred(zone, offset, m);
    }
  }

  lemma FirstOfYear(c: Civil, d: int)
    requires ValidCivil(c) && d == DayOf(c) == CENTURY
    ensures c == Civil(100, 1, 1)
  {
    hide CivilOf;
    CenturyDay();
    CivilOfDay(c);
    CivilOfDay(Civil(100, 1, 1));
  }

  /** At a constant offset, converting the parts of a whole minute gives that instant back if and only if the clocks,
      there and a second offset on, are in the year 100 or later. */
  lemma PartsInverse(zone: Zone, offset: int, t: int)
    requires t % MINUTE == 0 && ConstantZone(zone, offset)
    ensures var p := LocalParts(zone, t);
            ToUtc(zone, p.year, p.month, p.day, p.minuteOfDay) == t <==> InCentury(t + offset, offset)
  {
    hide DayOf;
    hide CivilOf;
    hide ToUtc;
    var p, wall := LocalParts(zone, t), t + offset;
    WholeSum(t, offset);
    Split(wall);
    if wall >= CENTURY * DAY {
      WallOfParts(wall);
      var d := wall / DAY;
      CenturyYear(DateOf(p));
      if InCentury(wall, offset) {
        ConstantOffset(zone, offset, DateOf(p), d, p.minuteOfDay, t);
      } else {
        FirstOfYear(DateOf(p), d);
        YearHundred(zone, offset, p.minuteOfDay);
      }
    } else {
      BeforeCentury(zone, offset, t);
    }
  }

  lemma AfterYearHundred(year: int, month: int, day: int, m: int)
    requires year > 100 && 1 <= month <= 12 && day >= 1 && m >= 0
    ensures UtcTime(year, month, day, m) >= (CENTURY + 365) * DAY
  {
    hide MonthStart;
    hide UtcTime;
    YearStarts();
    NotEarlier(101, year, month);
    NotBefore(year, month, day, m);
  }

  /** Parts before the year 100: their year is of our era, and of two digits or the mirror image of a year long before
      it. */
  lemma EarlyParts(zone: Zone, t: int)
    requires Wall(zone, t) < CENTURY * DAY
    ensures var p := LocalParts(zone, t);
      && p.year >= 1 && 1 <= p.month <= 12 && p.day >= 1 && 0 <= p.minuteOfDay < 1440
      && (p.year == 100 ==> ValidCivil(DateOf(p)))
  {
    hide DayOf;
    hide CivilOf;
    var wall := Wall(zone, t);
    DivMod(wall, wall / DAY, wall % DAY);
    DayOfCivil(wall / DAY);
    CenturyYear(CivilOf(wall / DAY));
    SameMonths(CivilOf(wall / DAY));
    assert 0 <= wall % DAY / MINUTE < 1440;
  }

  lemma SameMonths(c: Civil)
    requires ValidCivil(c)
    ensures c.year == -99 ==> ValidCivil(Civil(100, c.month, c.day))
  {
  }

  /** Clocks that stand before the year 100 show parts that are converted to some other instant. */
  lemma BeforeCentury(zone: Zone, offset: int, t: int)
    requires ConstantZone(zone, offset) && t + offset < CENTURY * DAY
    ensures var p := LocalParts(zone, t); ToUtc(zone, p.year, p.month, p.day, p.minuteOfDay) != t
  {
    hide DayOf;
    hide CivilOf;
    hide LocalParts;
    hide Settle;
    hide UtcTime;
    var p := LocalParts(zone, t);
    EarlyParts(zone, t);
    if p.year <= 99 {
      TwoDigitYear(zone, p.year, p.month, p.day, p.minuteOfDay);
    } else if p.year > 100 {
      var wanted := UtcTime(p.year, p.month, p.day, p.minuteOfDay);
      AfterYearHundred(p.year, p.month, p.day, p.minuteOfDay);
      NearWanted(zone, wanted, wanted, 4);
    } else {
      LikeYearHundred(zone, offset, t, DateOf(p), p.minuteOfDay);
    }
  }

  lemma LikeYearHundred(zone: Zone, offset: int, t: int, c: Civil, m: int)
    requires ConstantZone(zone, offset) && t + offset < CENTURY * DAY && 0 <= m < 1440
             && LocalParts(zone, t).year == 100
    requires ValidCivil(c) && c.year == 100
    ensures ToUtc(zone, c.year, c.month, c.day, m) != t
  {
    hide DayOf;
    hide CivilOf;
    hide LocalParts;
    hide ToUtc;
    var d := DayOf(c);
    CenturyYear(c);
    if InCentury(WallAt(d, m), offset) {
      ConstantOffset(zone, offset, c, d, m, WallAt(d, m) - offset);
    } else {
      FirstOfYear(c, d);
      YearHundred(zone, offset, m);
    }
  }
}
