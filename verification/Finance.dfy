/** Money figures over the contracts: the grouped rows the database returns, the summaries folded from them, and what
    they say about the contracts themselves. Amounts are exact reals in the contract's currency. */
module Finance {
  import opened Prelude
  import opened InstallmentSchedule
  import opened ContractLifecycle
  import opened Sorting

  // ---- One contract ----

  function PaidTiyn(s: seq<Installment>): int {
    if s == [] then 0
    else PaidTiyn(s[..|s| - 1]) + if s[|s| - 1].paidAt.Some? then s[|s| - 1].item.amount else 0
  }

  datatype Mapped = Mapped(amount: real, paidAmount: real, remainingAmount: real)

  function PaidAmount(c: Contract): real {
    if c.installments != [] then PaidTiyn(c.installments) as real / 100.0
    else if c.status == PAID then c.price
    else 0.0
  }

  function MapContract(c: Contract): Mapped {
    Mapped(c.price, PaidAmount(c), c.price - PaidAmount(c))
  }

  lemma {:induction false} PaidBounds(s: seq<Installment>, n: nat)
    requires n <= |s| && forall i :: 0 <= i < |s| ==> s[i].item.amount > 0
    ensures 0 <= PaidTiyn(s[..n]) <= Total(Items(s)[..n])
    ensures (forall i :: 0 <= i < n ==> s[i].paidAt.Some?) ==> PaidTiyn(s[..n]) == Total(Items(s)[..n])
    ensures (exists i :: 0 <= i < n && s[i].paidAt.None?) ==> PaidTiyn(s[..n]) < Total(Items(s)[..n])
    ensures (exists i :: 0 <= i < n && s[i].paidAt.Some?) ==> PaidTiyn(s[..n]) > 0
  {
    if n > 0 {
      PaidBounds(s, n - 1);
      assert s[..n][..n - 1] == s[..n - 1];
      assert Items(s)[..n][..n - 1] == Items(s)[..n - 1];
    }
  }

  /** What is received for a contract of which the first k instalments are paid is what those add up to. */
  lemma {:induction false} PaidIsPrefix(s: seq<Installment>, k: nat, n: nat)
    requires n <= |s| && PaidUpTo(s, k)
    ensures PaidTiyn(s[..n]) == Total(Items(s)[..if n < k then n else k])
  {
    if n > 0 {
      PaidIsPrefix(s, k, n - 1);
      assert s[..n][..n - 1] == s[..n - 1];
      if n <= k {
        assert Items(s)[..n][..n - 1] == Items(s)[..n - 1];
      }
    }
  }

  /** The states the lifecycle can reach: nothing is received for a contract that is not signed, a paid contract is
      received in full, and a manually confirmed one that is not yet paid is received in part. */
  lemma MappedAmounts(c: Contract)
    requires Inv(c)
    ensures var m := MapContract(c);
      && m.paidAmount + m.remainingAmount == m.amount
      && (c.status == PAID ==> m.paidAmount == c.price && m.remainingAmount == 0.0)
      && (c.status != PAID && c.manualConfirmedAt.None? ==> m.paidAmount == 0.0)
      && (c.status == SIGNED && c.manualConfirmedAt.Some? ==> 0.0 < m.paidAmount < c.price)
      && (!Final(c) ==> m.paidAmount == 0.0)
      && (forall k: nat :: c.manualConfirmedAt.Some? && PaidUpTo(c.installments, k) ==>
            m.paidAmount * 100.0 == Total(Items(c.installments)[..k]) as real)
  {
    hide Plan;
    forall k: nat | c.manualConfirmedAt.Some? && PaidUpTo(c.installments, k)
      ensures MapContract(c).paidAmount * 100.0 == Total(Items(c.installments)[..k]) as real
    {
      PaidIsPrefix(c.installments, k, |c.installments|);
      assert c.installments[..|c.installments|] == c.installments;
    }
    if c.manualConfirmedAt.Some? {
      var s := c.installments;
      var local :| Plan(c.price, |s|, local) == Some(Items(s));
      PlanLength(c.price, |s|, local);
      PlanConservesPrice(c.price, |s|, local, Items(s));
      forall i | 0 <= i < |s| ensures s[i].item.amount > 0 {
        assert s[i].item == Items(s)[i];
      }
      PaidBounds(s, |s|);
      assert s[..|s|] == s && Items(s)[..|s|] == Items(s);
      assert s[0].paidAt.Some?;
    }
  }

  // ---- Money totals ----

  datatype Totals = Totals(signed: real, paid: real, unpaid: real)
  datatype Money = Money(currency: string, totals: Totals)
  datatype Summary = Summary(currency: Option<string>, headline: Option<Totals>, byCurrency: seq<Money>)

  const ZERO := Totals(0.0, 0.0, 0.0)

  function Plus(a: Totals, b: Totals): Totals {
    Totals(a.signed + b.signed, a.paid + b.paid, a.unpaid + b.unpaid)
  }

  /** What the rows of one currency add up to. */
  function TotalsOf(rows: seq<Money>, currency: string): Totals {
    if rows == [] then ZERO
    else
      var last := rows[|rows| - 1];
      var before := TotalsOf(rows[..|rows| - 1], currency);
      if last.currency == currency then Plus(before, last.totals) else before
  }

  predicate Distinct<T(==)>(s: seq<T>) {
    forall i, j :: 0 <= i < j < |s| ==> s[i] != s[j]
  }

  predicate DistinctCurrencies(s: seq<Money>) {
    forall i, j :: 0 <= i < j < |s| ==> s[i].currency != s[j].currency
  }

  /** One entry for each currency that occurs, with that currency's totals. */
  ghost predicate OnePerCurrency(rows: seq<Money>, entries: seq<Money>) {
    && DistinctCurrencies(entries)
    && (forall e :: e in entries ==> e.totals == TotalsOf(rows, e.currency))
    && (forall e :: e in entries ==> exists r :: r in rows && r.currency == e.currency)
    && (forall r :: r in rows ==> exists e :: e in entries && e.currency == r.currency)
  }

  function ByRank(rank: string -> int): Money -> int {
    (m: Money) => rank(m.currency)
  }

  function WithHeadline(byCurrency: seq<Money>): Summary {
    Summary(if |byCurrency| == 1 then Some(byCurrency[0].currency) else None,
            if |byCurrency| > 1 then None else Some(if byCurrency == [] then ZERO else byCurrency[0].totals),
            byCurrency)
  }

  /** The summary of the rows: an entry per currency in collation order, and headline figures only when a single
      currency gives them a meaning. */
  ghost predicate IsSummary(rows: seq<Money>, s: Summary, rank: string -> int) {
    && OnePerCurrency(rows, s.byCurrency)
    && Ascending(s.byCurrency, ByRank(rank))
    && s == WithHeadline(s.byCurrency)
  }

  predicate OneCurrency(rows: seq<Money>) {
    forall r, q :: r in rows && q in rows ==> r.currency == q.currency
  }

  /** The headline is left out exactly when two currencies occur, and names the currency exactly when one does; it then
      is what all rows add up to, and zero when there are none. */
  lemma HeadlineMeans(rows: seq<Money>, s: Summary, rank: string -> int)
    requires IsSummary(rows, s, rank)
    ensures s.headline.Some? <==> OneCurrency(rows)
    ensures s.currency.Some? <==> OneCurrency(rows) && rows != []
    ensures s.currency.Some? ==> (forall r :: r in rows ==> r.currency == s.currency.value)
                                 && s.headline == Some(TotalsOf(rows, s.currency.value))
    ensures rows == [] ==> s.headline == Some(Totals(0.0, 0.0, 0.0)) && s.byCurrency == []
  {
    hide TotalsOf;
    hide Ascending;
    var b := s.byCurrency;
    if rows != [] {
      assert rows[0] in rows;
    }
    if |b| > 0 {
      assert b[0] in b;
    }
    if |b| > 1 {
      assert b[1] in b && b[0].currency != b[1].currency;
      var r :| r in rows && r.currency == b[0].currency;
      var q :| q in rows && q.currency == b[1].currency;
    }
    if |b| == 1 {
      forall r | r in rows ensures r.currency == b[0].currency {
        var e :| e in b && e.currency == r.currency;
      }
    }
  }

  lemma SortKeepsEntries(rows: seq<Money>, entries: seq<Money>, key: Money -> int)
    requires OnePerCurrency(rows, entries)
    ensures OnePerCurrency(rows, SortBy(entries, key)) && Ascending(SortBy(entries, key), key)
  {
    SortMembers(entries, key);
    SortAscending(entries, key);
    var r := SortBy(entries, key);
    forall i, j | 0 <= i < j < |r| ensures r[i].currency != r[j].currency {
      if r[i].currency == r[j].currency {
        SameCurrencySameEntry(entries, r[i], r[j]);
        TwiceCounts(r, i, j);
        OnceInDistinct(entries, r[i]);
      }
    }
  }

  lemma SameCurrencySameEntry(entries: seq<Money>, a: Money, b: Money)
    requires DistinctCurrencies(entries) && a in entries && b in entries && a.currency == b.currency
    ensures a == b
  {
  }

  lemma TwiceCounts(r: seq<Money>, i: int, j: int)
    requires 0 <= i < j < |r| && r[i] == r[j]
    ensures multiset(r)[r[i]] >= 2
  {
    assert r == r[..j] + [r[j]] + r[j + 1..];
    assert r[i] in multiset(r[..j]) by { assert r[..j][i] == r[i]; }
  }

  lemma {:induction false} OnceInDistinct(entries: seq<Money>, x: Money)
    requires DistinctCurrencies(entries)
    ensures multiset(entries)[x] <= 1
  {
    if entries != [] {
      OnceInDistinct(entries[1..], x);
      assert entries == [entries[0]] + entries[1..];
      if x == entries[0] {
        assert x !in entries[1..];
        assert x !in multiset(entries[1..]);
      }
    }
  }

  /** The Map after some rows, with its keys in the order they were first seen. */
  ghost predicate Grouped(done: seq<Money>, groups: map<string, Totals>, order: seq<string>) {
    && Distinct(order) && (forall c :: c in order <==> c in groups)
    && (forall c :: c in groups ==> groups[c] == TotalsOf(done, c))
    && (forall c :: c in groups ==> exists r :: r in done && r.currency == c)
    && (forall c :: c !in groups ==> TotalsOf(done, c) == ZERO)
    && (forall r :: r in done ==> r.currency in groups)
  }

  lemma TotalsOneMore(done: seq<Money>, row: Money, c: string)
    ensures TotalsOf(done + [row], c) == if row.currency == c then Plus(TotalsOf(done, c), row.totals)
      else TotalsOf(done, c)
  {
    assert (done + [row])[..|done|] == done;
  }

  lemma SeenOneMore(done: seq<Money>, row: Money, c: string)
    ensures (exists r :: r in done + [row] && r.currency == c)
            <==> (exists r :: r in done && r.currency == c) || c == row.currency
  {
    if exists r :: r in done && r.currency == c {
      var r :| r in done && r.currency == c;
      assert r in done + [row];
    } else if c == row.currency {
      assert row in done + [row];
    }
  }

  lemma GroupedNothing()
    ensures Grouped([], map[], [])
  {
  }

  lemma GroupOneMore(done: seq<Money>, row: Money, groups: map<string, Totals>, order: seq<string>)
    requires Grouped(done, groups, order)
    ensures Grouped(done + [row],
                    groups[row.currency := Plus(if row.currency in groups then groups[row.currency] else ZERO,
                                                row.totals)],
                    if row.currency in groups then order else order + [row.currency])
  {
    hide TotalsOf;
    var now := done + [row];
    var previous := if row.currency in groups then groups[row.currency] else ZERO;
    var groups' := groups[row.currency := Plus(previous, row.totals)];
    forall c ensures c in groups' ==> groups'[c] == TotalsOf(now, c)
             ensures c !in groups' ==> TotalsOf(now, c) == ZERO
             ensures c in groups' ==> exists r :: r in now && r.currency == c
    {
      TotalsOneMore(done, row, c);
      SeenOneMore(done, row, c);
    }
    forall r | r in now ensures r.currency in groups' {
      assert r in done || r == row;
    }
  }

  function Entries(groups: map<string, Totals>, order: seq<string>): (r: seq<Money>)
    requires forall c :: c in order ==> c in groups
    ensures |r| == |order| && forall i :: 0 <= i < |order| ==> r[i] == Money(order[i], groups[order[i]])
  {
    seq(|order|, i requires 0 <= i < |order| => assert order[i] in order; Money(order[i], groups[order[i]]))
  }

  lemma EntriesPerCurrency(rows: seq<Money>, groups: map<string, Totals>, order: seq<string>)
    requires Grouped(rows, groups, order)
    ensures OnePerCurrency(rows, Entries(groups, order))
  {
    var entries := Entries(groups, order);
    forall r | r in rows ensures exists e :: e in entries && e.currency == r.currency {
      var i :| 0 <= i < |order| && order[i] == r.currency;
      assert entries[i] in entries;
    }
    forall e | e in entries
      ensures e.totals == TotalsOf(rows, e.currency) && exists r :: r in rows && r.currency == e.currency
    {
      var i :| 0 <= i < |entries| && entries[i] == e;
      assert order[i] in order;
    }
  }

  lemma KeysInMap(done: seq<Money>, groups: map<string, Totals>, order: seq<string>)
    requires Grouped(done, groups, order)
    ensures forall c :: c in order ==> c in groups
  {
  }

  method GroupRows(rows: seq<Money>) returns (groups: map<string, Totals>, order: seq<string>)
    ensures Grouped(rows, groups, order)
  {
    hide Grouped;
    groups, order := map[], [];
    GroupedNothing();
    for i := 0 to |rows|
      invariant Grouped(rows[..i], groups, order)
    {
      var row := rows[i];
      GroupOneMore(rows[..i], row, groups, order);
      assert rows[..i + 1] == rows[..i] + [row];
      var previous := if row.currency in groups then groups[row.currency] else ZERO;
      if row.currency !in groups {
        order := order + [row.currency];
      }
      groups := groups[row.currency := Plus(previous, row.totals)];
    }
    assert rows[..|rows|] == rows;
  }

  method MoneySummary(rows: seq<Money>, rank: string -> int) returns (s: Summary)
    ensures IsSummary(rows, s, rank)
  {
    hide Grouped;
    hide OnePerCurrency;
    hide SortBy;
    hide Ascending;
    hide ByRank;
    var groups, order := GroupRows(rows);
    KeysInMap(rows, groups, order);
    EntriesPerCurrency(rows, groups, order);
    var entries := Entries(groups, order);
    SortKeepsEntries(rows, entries, ByRank(rank));
    s := WithHeadline(SortBy(entries, ByRank(rank)));
  }
}
