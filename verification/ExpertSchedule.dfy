/** An expert's weekly schedule: checking it, and turning it into the slots that are still free. */
module ExpertSchedule {
  import opened Prelude
  import opened Calendar
  import opened Timezone
  import opened Sorting

  datatype Item = Item(dayOfWeek: int, startMinute: int, endMinute: int)

  const itemStart: Item -> int := (x: Item) => x.startMinute
  const itemEnd: Item -> int := (x: Item) => x.endMinute

  // ---- Validation ----

  datatype Verdict = Valid | Reversed | Overlapping

  predicate Forward(items: seq<Item>) {
    forall i :: 0 <= i < |items| ==> items[i].startMinute < items[i].endMinute
  }

  /** No two items of the same weekday share a minute. */
  predicate SameDayApart(items: seq<Item>) {
    forall i, j :: 0 <= i < j < |items| && items[i].dayOfWeek == items[j].dayOfWeek ==>
          Clear(items[i], items[j], itemStart, itemEnd)
  }

  /** The items of one weekday, in their given order. */
  function OfDay(items: seq<Item>, day: int): seq<Item> {
    if items == [] then []
    else
      var n := |items| - 1;
      OfDay(items[..n], day) + if items[n].dayOfWeek == day then [items[n]] else []
  }

  lemma {:induction false} OfDayMembers(items: seq<Item>, day: int)
    ensures forall x :: x in OfDay(items, day) <==> x in items && x.dayOfWeek == day
  {
    if items != [] {
      var n := |items| - 1;
      OfDayMembers(items[..n], day);
      assert items == items[..n] + [items[n]];
    }
  }

  lemma ApartSnoc(s: seq<Item>, x: Item)
    ensures Apart(s + [x], itemStart, itemEnd) <==> AllClear(x, s, itemStart, itemEnd) && Apart(s, itemStart, itemEnd)
  {
    var t := s + [x];
    if Apart(t, itemStart, itemEnd) {
      forall i | 0 <= i < |s| ensures Clear(x, s[i], itemStart, itemEnd) {
        assert Clear(t[i], t[|s|], itemStart, itemEnd);
      }
      forall i, j | 0 <= i < j < |s| ensures Clear(s[i], s[j], itemStart, itemEnd) {
        assert Clear(t[i], t[j], itemStart, itemEnd);
      }
    }
  }

  lemma SameDaySnoc(init: seq<Item>, x: Item)
    ensures SameDayApart(init + [x])
            <==> SameDayApart(init) && AllClear(x, OfDay(init, x.dayOfWeek), itemStart, itemEnd)
  {
    var items, today := init + [x], OfDay(init, x.dayOfWeek);
    OfDayMembers(init, x.dayOfWeek);
    if SameDayApart(items) {
      forall i, j | 0 <= i < j < |init| && init[i].dayOfWeek == init[j].dayOfWeek
          ensures Clear(init[i], init[j], itemStart, itemEnd) {
        assert Clear(items[i], items[j], itemStart, itemEnd);
      }
      forall i | 0 <= i < |today| ensures Clear(x, today[i], itemStart, itemEnd) {
        assert today[i] in init;
        var k :| 0 <= k < |init| && init[k] == today[i];
        assert Clear(items[k], items[|init|], itemStart, itemEnd);
      }
    }
    if SameDayApart(init) && AllClear(x, today, itemStart, itemEnd) {
      forall i, j | 0 <= i < j < |items| && items[i].dayOfWeek == items[j].dayOfWeek
          ensures Clear(items[i], items[j], itemStart, itemEnd) {
        if j == |init| {
          assert items[i] in init;
          assert items[i] in today;
          var k :| 0 <= k < |today| && today[k] == items[i];
          assert Clear(x, today[k], itemStart, itemEnd);
        } else {
          assert Clear(init[i], init[j], itemStart, itemEnd);
        }
      }
    }
  }

  predicate DayApart(items: seq<Item>, day: int) {
    Apart(OfDay(items, day), itemStart, itemEnd)
  }

  lemma DayApartSnoc(init: seq<Item>, x: Item, day: int)
    ensures DayApart(init + [x], day)
            <==> DayApart(init, day) && (day == x.dayOfWeek ==> AllClear(x, OfDay(init, day), itemStart, itemEnd))
  {
    assert (init + [x])[..|init|] == init;
    if day == x.dayOfWeek {
      ApartSnoc(OfDay(init, day), x);
    } else {
      assert OfDay(init + [x], day) == OfDay(init, day) + [] == OfDay(init, day);
    }
  }

  /** Day by day is all there is to check. */
  lemma {:induction false} DayByDay(items: seq<Item>)
    ensures SameDayApart(items) <==> forall day :: DayApart(items, day)
  {
    if items != [] {
      var n := |items| - 1;
      var init, x := items[..n], items[n];
      assert items == init + [x];
      DayByDay(init);
      SameDaySnoc(init, x);
      forall day ensures DayApart(items, day) <==>
                         DayApart(init, day) && (day == x.dayOfWeek ==>
                                                 AllClear(x, OfDay(init, day), itemStart, itemEnd))
      {
        DayApartSnoc(init, x, day);
      }
      if forall day :: DayApart(items, day) {
        assert DayApart(items, x.dayOfWeek);
      }
    }
  }

  ghost predicate GroupsOf(grouped: map<int, seq<Item>>, items: seq<Item>) {
    forall day :: OfDay(items, day) == if day in grouped then grouped[day] else []
  }

  function Entry(grouped: map<int, seq<Item>>, day: int): seq<Item> {
    if day in grouped then grouped[day] else []
  }

  lemma GroupOneMore(grouped: map<int, seq<Item>>, items: seq<Item>, x: Item)
    requires GroupsOf(grouped, items)
    ensures GroupsOf(grouped[x.dayOfWeek := Entry(grouped, x.dayOfWeek) + [x]], items + [x])
  {
    assert (items + [x])[..|items|] == items;
    assert OfDay(items, x.dayOfWeek) == Entry(grouped, x.dayOfWeek);
    assert forall day :: day != x.dayOfWeek ==> OfDay(items + [x], day) == OfDay(items, day);
  }

  lemma NoGroups()
    ensures GroupsOf(map[], [])
  {
  }

  /** A group holds the items of its day ... */
  lemma GroupOfDay(items: seq<Item>, grouped: map<int, seq<Item>>, day: int)
    requires Forward(items) && GroupsOf(grouped, items) && day in grouped
    ensures Forward(grouped[day]) && (DayApart(items, day) <==> Apart(grouped[day], itemStart, itemEnd))
  {
    OfDayMembers(items, day);
    forall i | 0 <= i < |grouped[day]| ensures grouped[day][i].startMinute < grouped[day][i].endMinute {
      assert grouped[day][i] in OfDay(items, day);
    }
  }

  /** ... and a day without a group has none. */
  lemma NoGroup(items: seq<Item>, grouped: map<int, seq<Item>>, day: int)
    requires GroupsOf(grouped, items) && day !in grouped
    ensures DayApart(items, day)
  {
    assert OfDay(items, day) == [];
  }

  /** The first loop: items grouped by weekday, weekdays in the order of their first item, unless an item ends before it
      starts. */
  method Group(items: seq<Item>) returns (forward: bool, days: seq<int>, grouped: map<int, seq<Item>>)
    ensures forward == Forward(items)
    ensures forward ==> GroupsOf(grouped, items)
    ensures forall day :: day in grouped <==> day in days
  {
    hide GroupsOf;
    days, grouped := [], map[];
    NoGroups();
    for i := 0 to |items|
      invariant Forward(items[..i])
      invariant forall day :: day in grouped <==> day in days
      invariant GroupsOf(grouped, items[..i])
    {
      var item := items[i];
      if item.startMinute >= item.endMinute {
        return false, days, grouped;
      }
      assert items[..i + 1] == items[..i] + [item];
      GroupOneMore(grouped, items[..i], item);
      if item.dayOfWeek !in grouped {
        days := days + [item.dayOfWeek];
      }
      grouped := grouped[item.dayOfWeek := Entry(grouped, item.dayOfWeek) + [item]];
    }
    assert items[..|items|] == items;
    forward := true;
  }

  /** The second loop, for one weekday: sort by start, then compare neighbours. */
  method CheckDay(items: seq<Item>) returns (apart: bool)
    requires Forward(items)
    ensures apart == Apart(items, itemStart, itemEnd)
  {
    var dayItems := SortBy(items, itemStart);
    SortAscending(items, itemStart);
    SortMembers(items, itemStart);
    SortApart(items, itemStart, itemStart, itemEnd);
    forall i | 0 <= i < |dayItems| ensures itemStart(dayItems[i]) < itemEnd(dayItems[i]) {
      assert dayItems[i] in dayItems;
    }
    NeighboursApart(dayItems, itemStart, itemEnd);
    var i := 1;
    while i < |dayItems|
      invariant 1 <= i
      invariant forall k :: 1 <= k < i && k < |dayItems| ==> itemEnd(dayItems[k - 1]) <= itemStart(dayItems[k])
    {
      var prev, curr := dayItems[i - 1], dayItems[i];
      if curr.startMinute < prev.endMinute {
        assert !(itemEnd(dayItems[i - 1]) <= itemStart(dayItems[i]));
        return false;
      }
      i := i + 1;
    }
    apart := true;
  }

  /** Items that run forward are apart on their weekday exactly when no minute belongs to two of them. */
  lemma ApartShare(items: seq<Item>)
    requires Forward(items)
    ensures SameDayApart(items)
            <==> forall i, j, m :: 0 <= i < j < |items| && items[i].dayOfWeek == items[j].dayOfWeek ==>
                   !(Within(m, items[i].startMinute, items[i].endMinute)
                     && Within(m, items[j].startMinute, items[j].endMinute))
  {
    if !SameDayApart(items) {
      var i, j :| 0 <= i < j < |items| && items[i].dayOfWeek == items[j].dayOfWeek
          && !Clear(items[i], items[j], itemStart, itemEnd);
      var m := if items[i].startMinute < items[j].startMinute then items[j].startMinute else items[i].startMinute;
      assert Within(m, items[i].startMinute, items[i].endMinute) && Within(m, items[j].startMinute, items[j].endMinute);
    }
  }

  /** A schedule is accepted exactly when every item runs forward and no two of one weekday overlap. */
  method ValidateScheduleItems(items: seq<Item>) returns (r: Verdict)
    ensures r.Reversed? <==> !Forward(items)
    ensures r.Overlapping? <==> Forward(items) && !SameDayApart(items)
  {
    hide SameDayApart;
    hide GroupsOf;
    hide DayApart;
    hide Apart;
    hide Forward;
    var forward, days, grouped := Group(items);
    if !forward {
      return Reversed;
    }
    DayByDay(items);
    for k := 0 to |days|
      invariant forall n :: 0 <= n < k ==> DayApart(items, days[n])
    {
      var day := days[k];
      assert day in days;
      GroupOfDay(items, grouped, day);
      var apart := CheckDay(grouped[day]);
      if !apart {
        assert !DayApart(items, day);
        return Overlapping;
      }
    }
    forall day ensures DayApart(items, day) {
      if day !in days {
        NoGroup(items, grouped, day);
      }
    }
    r := Valid;
  }
}
