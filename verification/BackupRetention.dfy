/** Which local checkpoints are kept: the latest of each of the seven most recent dates, and the latest of a Sunday. */
module BackupRetention {
  import opened Sorting

  /** A checkpoint: the day number of its Almaty date, and the instant it was completed. */
  datatype Entry = Entry(name: string, completed: int, date: int)

  const DAILY := 7

  /** 1 January 1970 was a Thursday. */
  predicate Sunday(date: int) {
    (date + 4) % 7 == 0
  }

  // ---- Which entries of a set are kept ----

  predicate LatestOfDate(s: set<Entry>, e: Entry) {
    e in s && forall x :: x in s && x.date == e.date ==> x.completed <= e.completed
  }

  function LaterDates(s: set<Entry>, e: Entry): set<int> {
    set x | x in s && x.completed > e.completed :: x.date
  }

  predicate Daily(s: set<Entry>, e: Entry) {
    LatestOfDate(s, e) && |LaterDates(s, e)| < DAILY
  }

  predicate LatestSunday(s: set<Entry>, e: Entry) {
    e in s && Sunday(e.date) && forall x :: x in s && Sunday(x.date) ==> x.completed <= e.completed
  }

  function Keep(s: set<Entry>): (k: set<Entry>)
    ensures k <= s
  {
    set e | e in s && (Daily(s, e) || LatestSunday(s, e))
  }

  /** No two checkpoints share a name or a completion time. */
  ghost predicate Separate(s: set<Entry>) {
    forall x, y :: x in s && y in s && (x.name == y.name || x.completed == y.completed) ==> x == y
  }

  lemma SubsetCard(a: set<int>, b: set<int>)
    requires a <= b
    ensures |a| <= |b|
  {
    assert b == a + (b - a);
  }

  lemma {:induction false} Newest(s: set<Entry>) returns (e: Entry)
    requires s != {}
    ensures e in s && forall x :: x in s ==> x.completed <= e.completed
    decreases |s|
  {
    var f :| f in s;
    if s == {f} {
      e := f;
    } else {
      e := Newest(s - {f});
      assert s == (s - {f}) + {f};
      if f.completed > e.completed { e := f; }
    }
  }

  lemma {:induction false} Oldest(s: set<Entry>) returns (e: Entry)
    requires s != {}
    ensures e in s && forall x :: x in s ==> e.completed <= x.completed
    decreases |s|
  {
    var f :| f in s;
    if s == {f} {
      e := f;
    } else {
      e := Oldest(s - {f});
      assert s == (s - {f}) + {f};
      if f.completed < e.completed { e := f; }
    }
  }

  // ---- Keeping from any set between the kept and the whole gives the same ----

  /** Of the dates later than an entry, the latest entries are themselves kept if there are fewer than seven. */
  lemma LaterDatesAgree(s: set<Entry>, t: set<Entry>, e: Entry)
    requires Keep(s) <= t <= s && |LaterDates(t, e)| < DAILY
    ensures LaterDates(s, e) == LaterDates(t, e)
  {
    if LaterDates(s, e) != LaterDates(t, e) {
      // The newest entry whose date t has lost: everything later is still seen in t.
      var lost := set x | x in s && x.completed > e.completed && x.date !in LaterDates(t, e);
      assert lost != {} by {
        assert LaterDates(t, e) <= LaterDates(s, e);
        var d :| d in LaterDates(s, e) && d !in LaterDates(t, e);
        var x :| x in s && x.completed > e.completed && x.date == d;
        assert x in lost;
      }
      var x := Newest(lost);
      assert LaterDates(s, x) <= LaterDates(t, e);
      SubsetCard(LaterDates(s, x), LaterDates(t, e));
      assert Daily(s, x);
      LostIsKept(s, t, e, x);
    }
  }

  lemma LostIsKept(s: set<Entry>, t: set<Entry>, e: Entry, x: Entry)
    requires Keep(s) <= t && Daily(s, x) && x.completed > e.completed
    ensures x.date in LaterDates(t, e)
  {
    assert x in Keep(s);
  }

  lemma Same(s: set<Entry>, x: Entry, y: Entry)
    requires Separate(s) && x in s && y in s && x.completed == y.completed
    ensures x == y
  {
  }

  lemma DailyStays(s: set<Entry>, t: set<Entry>, e: Entry)
    requires Keep(s) <= t <= s && Daily(s, e)
    ensures Daily(t, e)
  {
    hide LatestSunday;
    assert e in Keep(s);
    assert LaterDates(t, e) <= LaterDates(s, e);
    SubsetCard(LaterDates(t, e), LaterDates(s, e));
  }

  lemma DailyWas(s: set<Entry>, t: set<Entry>, e: Entry)
    requires Separate(s) && Keep(s) <= t <= s && Daily(t, e)
    ensures Daily(s, e)
  {
    hide Separate;
    hide LatestSunday;
    LaterDatesAgree(s, t, e);
    var same := set x | x in s && x.date == e.date;
    assert e in same;
    var x := Newest(same);
    assert LaterDates(s, x) <= LaterDates(s, e) by { assert x.completed >= e.completed; }
    SubsetCard(LaterDates(s, x), LaterDates(s, e));
    assert LatestOfDate(s, x);
    assert Daily(s, x) && x in Keep(s);
    Same(s, x, e);
  }

  lemma SundayStays(s: set<Entry>, t: set<Entry>, e: Entry)
    requires Keep(s) <= t <= s && LatestSunday(s, e)
    ensures LatestSunday(t, e)
  {
    hide Daily;
    assert e in Keep(s);
  }

  lemma SundayWas(s: set<Entry>, t: set<Entry>, e: Entry)
    requires Separate(s) && Keep(s) <= t <= s && LatestSunday(t, e)
    ensures LatestSunday(s, e)
  {
    hide Separate;
    hide Daily;
    var sundays := set x | x in s && Sunday(x.date);
    assert e in sundays;
    var x := Newest(sundays);
    assert LatestSunday(s, x) && x in Keep(s);
    Same(s, x, e);
  }

  /** Removing any of the entries that are not kept, some or all of them, does not change what is kept. */
  lemma KeepBetween(s: set<Entry>, t: set<Entry>)
    requires Separate(s) && Keep(s) <= t <= s
    ensures Keep(t) == Keep(s)
  {
    hide Daily;
    hide LatestSunday;
    forall e ensures e in Keep(t) <==> e in Keep(s) {
      if Daily(s, e) { DailyStays(s, t, e); }
      if Daily(t, e) { DailyWas(s, t, e); }
      if LatestSunday(s, e) { SundayStays(s, t, e); }
      if LatestSunday(t, e) { SundayWas(s, t, e); }
    }
  }

  /** A newer checkpoint is kept itself and makes none of the dropped ones come back. */
  lemma KeepWithNewer(s: set<Entry>, e: Entry)
    requires forall x :: x in s ==> x.completed < e.completed
    ensures Keep(s + {e}) <= Keep(s) + {e} && e in Keep(s + {e})
  {
    assert LaterDates(s + {e}, e) == {};
    forall x | x in Keep(s + {e}) && x != e ensures x in Keep(s) {
      assert LaterDates(s, x) <= LaterDates(s + {e}, x);
      SubsetCard(LaterDates(s, x), LaterDates(s + {e}, x));
    }
  }

  lemma OneSunday(s: set<Entry>, sundays: set<Entry>)
    requires Separate(s) && forall e :: e in sundays ==> LatestSunday(s, e)
    ensures |sundays| <= 1
  {
    if sundays != {} {
      var a :| a in sundays;
      forall b | b in sundays ensures b == a {
        Same(s, a, b);
      }
      assert sundays == {a};
    }
  }

  /** Never more than eight. */
  lemma KeepAtMostEight(s: set<Entry>)
    requires Separate(s)
    ensures |Keep(s)| <= DAILY + 1
  {
    var daily := set e | e in s && Daily(s, e);
    var sundays := set e | e in s && LatestSunday(s, e);
    assert Keep(s) == daily + sundays;
    OneSunday(s, sundays);
    if daily != {} {
      var last := Oldest(daily);
      var others := daily - {last};
      DatesOf(s, others);
      var dates := set e | e in others :: e.date;
      assert dates <= LaterDates(s, last);
      SubsetCard(dates, LaterDates(s, last));
    }
  }

  /** The latest entries of their dates have different dates. */
  lemma {:induction false} DatesOf(s: set<Entry>, daily: set<Entry>)
    requires Separate(s) && forall e :: e in daily ==> LatestOfDate(s, e)
    ensures |set e | e in daily :: e.date| == |daily|
    decreases |daily|
  {
    if daily != {} {
      var e :| e in daily;
      DatesOf(s, daily - {e});
      var before := set x | x in daily - {e} :: x.date;
      assert e.date !in before;
      assert (set x | x in daily :: x.date) == before + {e.date};
    }
  }

  // ---- Many backups ----

  /** What is left when each backup in turn is followed by pruning. */
  function PruneEach(s: set<Entry>, backups: seq<Entry>): set<Entry>
    decreases |backups|
  {
    if backups == [] then s else PruneEach(Keep(s + {backups[0]}), backups[1..])
  }

  function Elements(s: seq<Entry>): set<Entry> {
    set e | e in s
  }

  ghost predicate Increasing(s: set<Entry>, backups: seq<Entry>) {
    && Separate(s + Elements(backups))
    && (forall x, i :: x in s && 0 <= i < |backups| ==> x.completed < backups[i].completed)
    && (forall i, j :: 0 <= i < j < |backups| ==> backups[i].completed < backups[j].completed)
  }

  lemma IncreasingRest(all: set<Entry>, backups: seq<Entry>)
    requires Increasing(all, backups) && backups != []
    ensures var all' := all + {backups[0]};
      && Separate(all') && Increasing(all', backups[1..]) && all' + Elements(backups[1..]) == all + Elements(backups)
      && (backups[1..] == [] ==> all + Elements(backups) == all')
    ensures forall x :: x in all ==> x.completed < backups[0].completed
  {
    hide Separate;
    var e, rest := backups[0], backups[1..];
    ElementsCons(e, rest);
    assert backups == [e] + rest;
    assert all + {e} + Elements(rest) == all + Elements(backups);
    SeparatePart(all + Elements(backups), all + {e});
    forall x, i | x in all + {e} && 0 <= i < |rest| ensures x.completed < rest[i].completed {
      assert rest[i] == backups[i + 1];
    }
  }

  lemma ElementsCons(e: Entry, rest: seq<Entry>)
    ensures Elements([e] + rest) == {e} + Elements(rest)
  {
    assert forall x :: x in [e] + rest <==> x == e || x in rest;
  }

  lemma SeparatePart(s: set<Entry>, t: set<Entry>)
    requires Separate(s) && t <= s
    ensures Separate(t)
  {
  }

  /** Pruning after every backup leaves exactly what the rule keeps of all the backups ever made. */
  lemma {:induction false} IncrementalIsFull(all: set<Entry>, present: set<Entry>, backups: seq<Entry>)
    requires Increasing(all, backups) && Keep(all) <= present <= all
    ensures backups != [] ==> PruneEach(present, backups) == Keep(all + Elements(backups))
    decreases |backups|
  {
    hide Keep;
    hide Increasing;
    hide Elements;
    if backups != [] {
      var e, rest := backups[0], backups[1..];
      var all' := all + {e};
      IncreasingRest(all, backups);
      KeepWithNewer(all, e);
      KeepBetween(all', present + {e});
      IncrementalIsFull(all', Keep(present + {e}), rest);
    }
  }

  // ---- The rule as it is computed ----

  /** Some entry of the list has its date and is at least as late. */
  ghost predicate Represented(firsts: seq<Entry>, e: Entry) {
    exists k :: 0 <= k < |firsts| && firsts[k].date == e.date && firsts[k].completed >= e.completed
  }

  /** The first entry seen of each date, in the order seen, of entries in descending order. */
  ghost predicate Firsts(done: seq<Entry>, firsts: seq<Entry>) {
    && (forall f :: f in firsts ==> f in done)
    && (forall e :: e in done ==> Represented(firsts, e))
    && (forall i, j :: 0 <= i < j < |firsts| ==>
        firsts[i].date != firsts[j].date && firsts[i].completed > firsts[j].completed)
  }

  function DatesUpTo(firsts: seq<Entry>, k: nat): set<int>
    requires k <= |firsts|
  {
    if k == 0 then {} else DatesUpTo(firsts, k - 1) + {firsts[k - 1].date}
  }

  lemma {:induction false} DistinctDates(firsts: seq<Entry>, k: nat)
    requires k <= |firsts| && forall i, j :: 0 <= i < j < |firsts| ==> firsts[i].date != firsts[j].date
    ensures |DatesUpTo(firsts, k)| == k
    ensures forall j :: 0 <= j < |firsts| ==> (firsts[j].date in DatesUpTo(firsts, k) <==> j < k)
    ensures forall d :: d in DatesUpTo(firsts, k) ==> exists j :: 0 <= j < k && firsts[j].date == d
  {
    if k > 0 {
      DistinctDates(firsts, k - 1);
      var dates := DatesUpTo(firsts, k - 1);
      assert firsts[k - 1].date !in dates;
      assert DatesUpTo(firsts, k) == dates + {firsts[k - 1].date};
      forall j | 0 <= j < |firsts| ensures firsts[j].date in DatesUpTo(firsts, k) <==> j < k {
        assert firsts[j].date in DatesUpTo(firsts, k) <==> firsts[j].date in dates || j == k - 1;
      }
    }
  }

  /** The first of the date of x is at least as late as x. */
  lemma FirstOf(done: seq<Entry>, firsts: seq<Entry>, x: Entry) returns (k: nat)
    requires Firsts(done, firsts) && x in done
    ensures k < |firsts| && firsts[k].date == x.date && firsts[k].completed >= x.completed
  {
    assert Represented(firsts, x);
    k :| 0 <= k < |firsts| && firsts[k].date == x.date && firsts[k].completed >= x.completed;
  }

  lemma FirstsOrder(done: seq<Entry>, firsts: seq<Entry>)
    requires Firsts(done, firsts)
    ensures forall f :: f in firsts ==> f in done
    ensures forall i, j :: 0 <= i < j < |firsts| ==>
              firsts[i].date != firsts[j].date && firsts[i].completed > firsts[j].completed
  {
  }

  lemma FirstIsLatest(s: set<Entry>, ordered: seq<Entry>, firsts: seq<Entry>, k: nat)
    requires s == Elements(ordered) && Firsts(ordered, firsts) && k < |firsts|
    ensures LatestOfDate(s, firsts[k]) && |LaterDates(s, firsts[k])| == k
  {
    hide Firsts;
    FirstsOrder(ordered, firsts);
    DistinctDates(firsts, k);
    var e := firsts[k];
    assert e in ordered;
    forall x | x in s ensures x.date == e.date ==> x.completed <= e.completed
                      ensures x.completed > e.completed ==> x.date in DatesUpTo(firsts, k)
    {
      var j := FirstOf(ordered, firsts, x);
      assert j < k || j == k || j > k;
    }
    forall d | d in DatesUpTo(firsts, k) ensures d in LaterDates(s, e) {
      var j :| 0 <= j < k && firsts[j].date == d;
      assert firsts[j] in ordered;
      assert firsts[j] in s && firsts[j].completed > e.completed;
    }
    assert LaterDates(s, e) == DatesUpTo(firsts, k);
  }

  /** The first seven of the list are exactly the daily checkpoints. */
  lemma FirstSevenAreDaily(s: set<Entry>, ordered: seq<Entry>, firsts: seq<Entry>, e: Entry)
    requires s == Elements(ordered) && Separate(s) && Firsts(ordered, firsts)
    ensures Daily(s, e) <==> exists k :: 0 <= k < |firsts| && k < DAILY && firsts[k] == e
  {
    hide Firsts;
    hide Separate;
    hide LaterDates;
    FirstsOrder(ordered, firsts);
    if Daily(s, e) {
      var k := FirstOf(ordered, firsts, e);
      FirstIsLatest(s, ordered, firsts, k);
      Same(s, firsts[k], e);
    }
    if exists k :: 0 <= k < |firsts| && k < DAILY && firsts[k] == e {
      var k :| 0 <= k < |firsts| && k < DAILY && firsts[k] == e;
      FirstIsLatest(s, ordered, firsts, k);
    }
  }

  function Names(s: set<Entry>): set<string> {
    set e | e in s :: e.name
  }

  /** Without its loops: the names the loops must produce. */
  lemma KeptNames(s: set<Entry>, firsts: seq<Entry>, ordered: seq<Entry>, daily: set<string>, sunday: set<Entry>)
    requires s == Elements(ordered) && Separate(s) && Firsts(ordered, firsts)
    requires daily == set k | 0 <= k < |firsts| && k < DAILY :: firsts[k].name
    requires forall e :: e in sunday <==> LatestSunday(s, e)
    ensures daily + Names(sunday) == Names(Keep(s))
  {
    hide Daily;
    hide LatestSunday;
    hide Firsts;
    hide Separate;
    forall n ensures n in daily + Names(sunday) <==> n in Names(Keep(s)) {
      if n in daily {
        var k :| 0 <= k < |firsts| && k < DAILY && firsts[k].name == n;
        FirstSevenAreDaily(s, ordered, firsts, firsts[k]);
        InFirsts(s, ordered, firsts, k);
        assert firsts[k] in Keep(s);
      }
      if n in Names(sunday) {
        var e :| e in sunday && e.name == n;
        SundayIn(s, e);
        assert e in Keep(s);
      }
      if n in Names(Keep(s)) {
        var e :| e in Keep(s) && e.name == n;
        FirstSevenAreDaily(s, ordered, firsts, e);
      }
    }
  }

  lemma InFirsts(s: set<Entry>, ordered: seq<Entry>, firsts: seq<Entry>, k: nat)
    requires s == Elements(ordered) && Firsts(ordered, firsts) && k < |firsts|
    ensures firsts[k] in s
  {
    assert firsts[k] in firsts;
  }

  lemma SundayIn(s: set<Entry>, e: Entry)
    requires LatestSunday(s, e)
    ensures e in s
  {
  }

  /** The Sunday found first in descending order is the latest one. */
  lemma FirstSunday(s: set<Entry>, ordered: seq<Entry>, i: nat)
    requires s == Elements(ordered) && Separate(s) && i < |ordered|
    requires forall j, k :: 0 <= j < k < |ordered| ==> ordered[j].completed >= ordered[k].completed
    requires Sunday(ordered[i].date) && forall j :: 0 <= j < i ==> !Sunday(ordered[j].date)
    ensures forall e :: e == ordered[i] <==> LatestSunday(s, e)
  {
    hide Separate;
    assert LatestSunday(s, ordered[i]);
    forall e | LatestSunday(s, e) ensures e == ordered[i] {
      Same(s, e, ordered[i]);
    }
  }

  lemma SeenDate(done: seq<Entry>, firsts: seq<Entry>, e: Entry, k: nat)
    requires Firsts(done, firsts) && forall x :: x in done ==> x.completed >= e.completed
    requires k < |firsts| && firsts[k].date == e.date
    ensures Firsts(done + [e], firsts)
  {
    assert firsts[k] in done;
    assert Represented(firsts, e);
    hide Represented;
    assert forall x :: x in done + [e] <==> x in done || x == e;
  }

  lemma StillRepresented(firsts: seq<Entry>, e: Entry, x: Entry)
    requires Represented(firsts, x) || x == e
    ensures Represented(firsts + [e], x)
  {
    if Represented(firsts, x) {
      var k :| 0 <= k < |firsts| && firsts[k].date == x.date && firsts[k].completed >= x.completed;
      assert (firsts + [e])[k] == firsts[k];
    } else {
      assert (firsts + [e])[|firsts|] == e;
    }
  }

  lemma NewDate(done: seq<Entry>, firsts: seq<Entry>, e: Entry)
    requires Firsts(done, firsts) && forall x :: x in done && x.date != e.date ==> x.completed > e.completed
    requires forall k :: 0 <= k < |firsts| ==> firsts[k].date != e.date
    ensures Firsts(done + [e], firsts + [e])
  {
    hide Represented;
    var more := firsts + [e];
    forall x | x in done + [e] ensures Represented(more, x) {
      StillRepresented(firsts, e, x);
    }
    forall i, j | 0 <= i < j < |more| ensures more[i].date != more[j].date && more[i].completed > more[j].completed {
      assert more[i] == firsts[i] && firsts[i] in done;
      assert j < |firsts| ==> more[j] == firsts[j];
    }
    assert forall f :: f in more ==> f in firsts || f == e;
  }

  lemma NothingSeen()
    ensures Firsts([], [])
  {
  }

  /** The dict of the latest name of each date, with its keys in insertion order. */
  ghost predicate Dict(latest: map<int, string>, order: seq<int>, firsts: seq<Entry>) {
    && |order| == |firsts| && (forall k :: 0 <= k < |order| ==>
                               order[k] == firsts[k].date && order[k] in latest && latest[order[k]] == firsts[k].name)
    && (forall d :: d in latest ==> d in order)
  }

  lemma EmptyDict()
    ensures Dict(map[], [], [])
  {
  }

  lemma KeyOfDate(latest: map<int, string>, order: seq<int>, firsts: seq<Entry>, date: int) returns (k: nat)
    requires Dict(latest, order, firsts) && date in latest
    ensures k < |firsts| && firsts[k].date == date
  {
    k :| 0 <= k < |order| && order[k] == date;
  }

  lemma DictOneMore(latest: map<int, string>, order: seq<int>, firsts: seq<Entry>, e: Entry)
    requires Dict(latest, order, firsts) && e.date !in latest
    ensures Dict(latest[e.date := e.name], order + [e.date], firsts + [e])
    ensures forall k :: 0 <= k < |firsts| ==> firsts[k].date != e.date
  {
    assert forall k :: 0 <= k < |firsts| ==> firsts[k].date == order[k];
  }

  method LatestPerDate(ordered: seq<Entry>)
      returns (latest: map<int, string>, order: seq<int>, ghost firsts: seq<Entry>)
    requires Separate(Elements(ordered)) && forall j, k :: 0 <= j < k < |ordered| ==>
               ordered[j].completed >= ordered[k].completed
    ensures Firsts(ordered, firsts) && Dict(latest, order, firsts)
  {
    hide Firsts;
    hide Separate;
    hide Dict;
    latest, order, firsts := map[], [], [];
    EmptyDict();
    NothingSeen();
    for i := 0 to |ordered|
      invariant Firsts(ordered[..i], firsts) && Dict(latest, order, firsts)
    {
      var e := ordered[i];
      assert ordered[..i + 1] == ordered[..i] + [e];
      Descending(ordered, i);
      if e.date in latest {
        ghost var k := KeyOfDate(latest, order, firsts, e.date);
        SeenDate(ordered[..i], firsts, e, k);
      } else {
        DictOneMore(latest, order, firsts, e);
        NewDate(ordered[..i], firsts, e);
        firsts := firsts + [e];
        latest := latest[e.date := e.name];
        order := order + [e.date];
      }
    }
    assert ordered[..|ordered|] == ordered;
  }

  lemma Descending(ordered: seq<Entry>, i: nat)
    requires i < |ordered| && Separate(Elements(ordered))
    requires forall j, k :: 0 <= j < k < |ordered| ==> ordered[j].completed >= ordered[k].completed
    ensures forall x :: x in ordered[..i] ==> x.completed >= ordered[i].completed
    ensures forall x :: x in ordered[..i] && x.date != ordered[i].date ==> x.completed > ordered[i].completed
  {
    forall x | x in ordered[..i]
      ensures x.completed >= ordered[i].completed && (x.date != ordered[i].date ==> x.completed > ordered[i].completed)
    {
      var j :| 0 <= j < i && ordered[j] == x;
      assert x in Elements(ordered) && ordered[i] in Elements(ordered);
    }
  }

  /** manifests: the validated checkpoints, in the order the directory lists them. */
  method RetentionKeep(manifests: seq<Entry>) returns (keep: set<string>)
    requires Separate(Elements(manifests))
    ensures keep == Names(Keep(Elements(manifests)))
  {
    hide Firsts;
    hide Keep;
    hide Separate;
    hide SortBy;
    ghost var s := Elements(manifests);
    var key := (e: Entry) => -e.completed;
    var ordered := SortBy(manifests, key);
    SortAscending(manifests, key);
    SortMembers(manifests, key);
    assert Elements(ordered) == s;
    assert forall j, k :: 0 <= j < k < |ordered| ==> key(ordered[j]) <= key(ordered[k]);
    var latest, order, firsts := LatestPerDate(ordered);
    keep := {};
    var k := 0;
    while k < |order| && k < DAILY
      invariant 0 <= k <= |order| && k <= DAILY
      invariant keep == set j | 0 <= j < k :: firsts[j].name
    {
      keep := keep + {latest[order[k]]};
      k := k + 1;
    }
    ghost var daily := keep;
    assert daily == set j | 0 <= j < |firsts| && j < DAILY :: firsts[j].name;
    var i := 0;
    while i < |ordered| && !Sunday(ordered[i].date)
      invariant 0 <= i <= |ordered| && forall j :: 0 <= j < i ==> !Sunday(ordered[j].date)
    {
      i := i + 1;
    }
    if i < |ordered| {
      keep := keep + {ordered[i].name};
      FirstSunday(s, ordered, i);
      KeptNames(s, firsts, ordered, daily, {ordered[i]});
      assert Names({ordered[i]}) == {ordered[i].name};
    } else {
      assert forall e :: e in s ==> !Sunday(e.date);
      KeptNames(s, firsts, ordered, daily, {});
      assert Names({}) == {};
    }
  }
}
