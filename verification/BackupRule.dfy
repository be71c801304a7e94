/** What the retention rule amounts to, counted in dates and tied to the calendar. */
module BackupRule {
  import opened Sorting
  import opened Calendar
  import opened BackupRetention

  // ---- Sundays ----

  /** 7 January 2024 was a Sunday, and so is every seventh day before and after it, and no other. */
  lemma SundaysAre(date: int)
    ensures ValidCivil(Civil(2024, 1, 7))
    ensures Sunday(date) <==> (date - DayOf(Civil(2024, 1, 7))) % 7 == 0
  {
    MonthIndex(2024, 0);
    assert DayOf(Civil(2024, 1, 7)) == 19729;
  }

  // ---- Seven dates ----

  lemma {:induction false} SequenceOf(s: set<Entry>) returns (q: seq<Entry>)
    ensures Elements(q) == s
    decreases |s|
  {
    if s == {} {
      q := [];
    } else {
      var e :| e in s;
      var rest := SequenceOf(s - {e});
      q := [e] + rest;
      ElementsCons(e, rest);
    }
  }

  predicate Latest(ordered: seq<Entry>) {
    forall j, k :: 0 <= j < k < |ordered| ==> ordered[j].completed >= ordered[k].completed
  }

  lemma LatestFirst(s: set<Entry>) returns (ordered: seq<Entry>)
    ensures Elements(ordered) == s && Latest(ordered)
  {
    var q := SequenceOf(s);
    var key := (e: Entry) => -e.completed;
    ordered := SortBy(q, key);
    SortAscending(q, key);
    SortMembers(q, key);
    assert forall j, k :: 0 <= j < k < |ordered| ==> key(ordered[j]) <= key(ordered[k]);
  }

  lemma {:induction false} FirstsOf(ordered: seq<Entry>) returns (firsts: seq<Entry>)
    requires Separate(Elements(ordered)) && Latest(ordered)
    ensures Firsts(ordered, firsts)
    decreases |ordered|
  {
    hide Firsts;
    hide Separate;
    if ordered == [] {
      firsts := [];
      NothingSeen();
    } else {
      var n := |ordered| - 1;
      var done, e := ordered[..n], ordered[n];
      assert ordered == done + [e];
      SeparatePart(Elements(ordered), Elements(done));
      firsts := FirstsOf(done);
      Descending(ordered, n);
      if exists k :: 0 <= k < |firsts| && firsts[k].date == e.date {
        var k :| 0 <= k < |firsts| && firsts[k].date == e.date;
        SeenDate(done, firsts, e, k);
      } else {
        NewDate(done, firsts, e);
        firsts := firsts + [e];
      }
    }
  }

  function Dates(s: set<Entry>): set<int> {
    set e | e in s :: e.date
  }

  /** Exactly which checkpoints are kept: the latest of each date while there are at most seven dates, and of exactly
      the seven most recent dates when there are more; and, if any was made on a Sunday, the latest of those. */
  lemma KeptExactly(s: set<Entry>) returns (daily: set<Entry>, sundays: set<Entry>)
    requires Separate(s)
    ensures Keep(s) == daily + sundays
    ensures |daily| == (if |Dates(s)| < 7 then |Dates(s)| else 7) && forall e :: e in daily ==> LatestOfDate(s, e)
    ensures forall e, f :: e in daily && LatestOfDate(s, f) && f !in daily ==> f.completed < e.completed
    ensures |sundays| <= 1 && (sundays == {} <==> forall x :: x in s ==> !Sunday(x.date))
    ensures forall e :: e in sundays ==> e in s && Sunday(e.date) && forall x :: x in s && Sunday(x.date) ==>
              x.completed <= e.completed
  {
    daily := set e | e in s && Daily(s, e);
    sundays := set e | e in s && LatestSunday(s, e);
    assert Keep(s) == daily + sundays;
    OneSunday(s, sundays);
    SundayKept(s, sundays);
    var ordered := LatestFirst(s);
    var firsts := FirstsOf(ordered);
    DailyAre(s, ordered, firsts, daily);
  }

  lemma SundayKept(s: set<Entry>, sundays: set<Entry>)
    requires sundays == set e | e in s && LatestSunday(s, e)
    ensures sundays == {} <==> forall x :: x in s ==> !Sunday(x.date)
  {
    var some := set x | x in s && Sunday(x.date);
    if some != {} {
      var e := Newest(some);
      assert LatestSunday(s, e) && e in sundays;
    } else {
      forall x | x in s ensures !Sunday(x.date) {
        assert x !in some;
      }
    }
  }

  lemma DailyAre(s: set<Entry>, ordered: seq<Entry>, firsts: seq<Entry>, daily: set<Entry>)
    requires s == Elements(ordered) && Separate(s) && Firsts(ordered, firsts) && daily == set e | e in s && Daily(s, e)
    ensures |daily| == (if |Dates(s)| < 7 then |Dates(s)| else 7) && forall e :: e in daily ==> LatestOfDate(s, e)
    ensures forall e, f :: e in daily && LatestOfDate(s, f) && f !in daily ==> f.completed < e.completed
  {
    hide Firsts;
    hide Separate;
    FirstsOrder(ordered, firsts);
    var n := if |firsts| < DAILY then |firsts| else DAILY;
    forall e ensures e in daily <==> exists k :: 0 <= k < n && firsts[k] == e {
      FirstSevenAreDaily(s, ordered, firsts, e);
    }
    hide Daily;
    hide LatestOfDate;
    AllDates(s, ordered, firsts);
    DistinctDates(firsts, |firsts|);
    UpTo(firsts, n, daily);
    forall e, f | e in daily && LatestOfDate(s, f) && f !in daily ensures f.completed < e.completed {
      NotAmongFirst(s, ordered, firsts, n, daily, e, f);
    }
  }

  lemma NotAmongFirst(s: set<Entry>, ordered: seq<Entry>, firsts: seq<Entry>, n: nat, daily: set<Entry>,
                      e: Entry, f: Entry)
    requires s == Elements(ordered) && Separate(s) && Firsts(ordered, firsts) && n <= |firsts|
    requires forall x :: x in daily <==> exists k :: 0 <= k < n && firsts[k] == x
    requires e in daily && LatestOfDate(s, f) && f !in daily
    ensures f.completed < e.completed
  {
    hide Firsts;
    hide Separate;
    hide LatestOfDate;
    FirstsOrder(ordered, firsts);
    var k :| 0 <= k < n && firsts[k] == e;
    var j := LatestIsFirst(s, ordered, firsts, f);
    assert j >= n;
  }

  lemma LatestIsFirst(s: set<Entry>, ordered: seq<Entry>, firsts: seq<Entry>, f: Entry) returns (j: nat)
    requires s == Elements(ordered) && Separate(s) && Firsts(ordered, firsts) && LatestOfDate(s, f)
    ensures j < |firsts| && firsts[j] == f
  {
    hide Separate;
    j := FirstOf(ordered, firsts, f);
    InFirsts(s, ordered, firsts, j);
    Same(s, firsts[j], f);
  }

  lemma AllDates(s: set<Entry>, ordered: seq<Entry>, firsts: seq<Entry>)
    requires s == Elements(ordered) && Firsts(ordered, firsts)
    ensures Dates(s) == DatesUpTo(firsts, |firsts|)
  {
    FirstsOrder(ordered, firsts);
    DistinctDates(firsts, |firsts|);
    forall d | d in Dates(s) ensures d in DatesUpTo(firsts, |firsts|) {
      var x :| x in s && x.date == d;
      var j := FirstOf(ordered, firsts, x);
    }
    forall d | d in DatesUpTo(firsts, |firsts|) ensures d in Dates(s) {
      var j :| 0 <= j < |firsts| && firsts[j].date == d;
      InFirsts(s, ordered, firsts, j);
    }
  }

  lemma {:induction false} UpTo(firsts: seq<Entry>, n: nat, daily: set<Entry>)
    requires n <= |firsts| && forall i, j :: 0 <= i < j < |firsts| ==> firsts[i].date != firsts[j].date
    requires forall e :: e in daily <==> exists k :: 0 <= k < n && firsts[k] == e
    ensures |daily| == n
    decreases n
  {
    if n == 0 {
      assert daily == {};
    } else {
      var e := firsts[n - 1];
      assert e in daily;
      forall x ensures x in daily - {e} <==> exists k :: 0 <= k < n - 1 && firsts[k] == x {
        if x in daily - {e} {
          var k :| 0 <= k < n && firsts[k] == x;
        }
      }
      UpTo(firsts, n - 1, daily - {e});
    }
  }
}
