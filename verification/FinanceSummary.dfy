/** The finance summary of a whole ledger of contracts, folded from grouped rows, against figures taken directly from
    the contracts. */
module FinanceSummary {
  import opened Prelude
  import opened InstallmentSchedule
  import opened ContractLifecycle
  import opened Sorting
  import opened Finance

  /** The columns the summary query groups by. */
  datatype Key = Key(expert: Option<int>, currency: string, status: Status)
  datatype Row = Row(key: Key, count: int, price: real, paid: real)

  function KeyOf(c: Contract): Key {
    Key(c.signedBy, c.currency, c.status)
  }

  /** Which contracts a figure is about. */
  datatype Who = Everyone | Expert(id: int) | NoSigner

  predicate Counts(who: Who, signer: Option<int>) {
    match who case Everyone => true case Expert(id) => signer == Some(id) case NoSigner => signer == None
  }

  // ---- Figures taken directly from the contracts ----

  function Share(c: Contract): Totals {
    Totals(if Final(c) then c.price else 0.0, PaidAmount(c), if c.status
           == SIGNED then c.price - PaidAmount(c) else 0.0)
  }

  function DirectTotals(ledger: seq<Contract>, who: Who, currency: string): Totals {
    if ledger == [] then ZERO
    else
      var c := ledger[|ledger| - 1];
      var before := DirectTotals(ledger[..|ledger| - 1], who, currency);
      if Counts(who, c.signedBy) && c.currency == currency then Plus(before, Share(c)) else before
  }

  function DirectCount(ledger: seq<Contract>, who: Who, statuses: set<Status>): int {
    if ledger == [] then 0
    else
      var c := ledger[|ledger| - 1];
      DirectCount(ledger[..|ledger| - 1], who, statuses) + if Counts(who, c.signedBy) && c.status in statuses then 1
        else 0
  }

  // ---- Grouped rows ----

  /** COUNT(*), SUM(price) and SUM(paid) over the contracts of the given groups. */
  function GroupSums(ledger: seq<Contract>, keys: set<Key>): (int, real, real) {
    if ledger == [] then (0, 0.0, 0.0)
    else
      var c := ledger[|ledger| - 1];
      var before := GroupSums(ledger[..|ledger| - 1], keys);
      if KeyOf(c) in keys then (before.0 + 1, before.1 + c.price, before.2 + PaidAmount(c)) else before
  }

  /** The answer of the GROUP BY query over the ledger, in any order of rows. */
  ghost predicate GroupedRows(rows: seq<Row>, ledger: seq<Contract>) {
    && (forall i, j :: 0 <= i < j < |rows| ==> rows[i].key != rows[j].key)
    && (forall r :: r in rows ==> (r.count, r.price, r.paid) == GroupSums(ledger, {r.key}))
    && (forall c :: c in ledger ==> exists r :: r in rows && r.key == KeyOf(c))
    && (forall r :: r in rows ==> exists c :: c in ledger && KeyOf(c) == r.key)
  }

  predicate IsFinal(s: Status) {
    s == SIGNED || s == PAID
  }

  function FinancialRow(r: Row): Money {
    Money(r.key.currency, Totals(if IsFinal(r.key.status) then r.price else 0.0, r.paid,
                                 if r.key.status == SIGNED then r.price - r.paid else 0.0))
  }

  function FinancialRows(rows: seq<Row>): (r: seq<Money>)
    ensures |r| == |rows| && forall i :: 0 <= i < |rows| ==> r[i] == FinancialRow(rows[i])
  {
    seq(|rows|, i requires 0 <= i < |rows| => FinancialRow(rows[i]))
  }

  function Select(rows: seq<Row>, who: Who): seq<Row> {
    if rows == [] then []
    else
      var r := rows[|rows| - 1];
      Select(rows[..|rows| - 1], who) + if Counts(who, r.key.expert) then [r] else []
  }

  function RowCount(rows: seq<Row>, statuses: set<Status>): int {
    if rows == [] then 0
    else RowCount(rows[..|rows| - 1], statuses) + if rows[|rows| - 1].key.status in statuses
      then rows[|rows| - 1].count else 0
  }

  // ---- Group, then fold: the same as folding directly ----

  /** Direct totals of the contracts in the given groups. */
  function TotalsIn(ledger: seq<Contract>, keys: set<Key>): Totals {
    if ledger == [] then ZERO
    else
      var c := ledger[|ledger| - 1];
      var before := TotalsIn(ledger[..|ledger| - 1], keys);
      if KeyOf(c) in keys then Plus(before, Share(c)) else before
  }

  lemma {:induction false} RowIsItsGroup(ledger: seq<Contract>, key: Key)
    ensures var (count, price, paid) := GroupSums(ledger, {key});
      FinancialRow(Row(key, count, price, paid)).totals == TotalsIn(ledger, {key})
  {
    if ledger != [] {
      RowIsItsGroup(ledger[..|ledger| - 1], key);
    }
  }

  lemma {:induction false} GroupsAdd(ledger: seq<Contract>, a: set<Key>, b: set<Key>)
    requires a !! b
    ensures TotalsIn(ledger, a + b) == Plus(TotalsIn(ledger, a), TotalsIn(ledger, b))
    ensures GroupSums(ledger, a + b).0 == GroupSums(ledger, a).0 + GroupSums(ledger, b).0
  {
    if ledger != [] {
      GroupsAdd(ledger[..|ledger| - 1], a, b);
    }
  }

  lemma {:induction false} NoGroups(ledger: seq<Contract>)
    ensures TotalsIn(ledger, {}) == ZERO && GroupSums(ledger, {}).0 == 0
  {
    if ledger != [] {
      NoGroups(ledger[..|ledger| - 1]);
    }
  }

  function KeysFor(rows: seq<Row>, who: Who, currency: string): set<Key> {
    set r | r in rows && Counts(who, r.key.expert) && r.key.currency == currency :: r.key
  }

  /** Rows of distinct groups, each with its group's sums. */
  ghost predicate Faithful(rows: seq<Row>, ledger: seq<Contract>) {
    && (forall i, j :: 0 <= i < j < |rows| ==> rows[i].key != rows[j].key)
    && (forall i :: 0 <= i < |rows| ==>
        (rows[i].count, rows[i].price, rows[i].paid) == GroupSums(ledger, {rows[i].key}))
  }

  lemma {:induction false} FoldOfRows(rows: seq<Row>, ledger: seq<Contract>, who: Who, currency: string)
    requires Faithful(rows, ledger)
    ensures TotalsOf(FinancialRows(Select(rows, who)), currency) == TotalsIn(ledger, KeysFor(rows, who, currency))
  {
    if rows == [] {
      NoGroups(ledger);
      assert KeysFor(rows, who, currency) == {};
    } else {
      var n := |rows| - 1;
      var r := rows[n];
      FoldOfRows(rows[..n], ledger, who, currency);
      var before := Select(rows[..n], who);
      if Counts(who, r.key.expert) {
        assert FinancialRows(before + [r]) == FinancialRows(before) + [FinancialRow(r)];
        TotalsOneMore(FinancialRows(before), FinancialRow(r), currency);
        RowIsItsGroup(ledger, r.key);
        assert r == Row(r.key, r.count, r.price, r.paid);
      } else {
        assert before + [] == before;
      }
      KeysOneMore(rows, who, currency);
      if Counts(who, r.key.expert) && r.key.currency == currency {
        GroupsAdd(ledger, KeysFor(rows[..n], who, currency), {r.key});
      }
    }
  }

  lemma KeysOneMore(rows: seq<Row>, who: Who, currency: string)
    requires rows != [] && forall i, j :: 0 <= i < j < |rows| ==> rows[i].key != rows[j].key
    ensures var n := |rows| - 1; var r := rows[n]; var before := KeysFor(rows[..n], who, currency);
      && r.key !in before
      && KeysFor(rows, who, currency) == if Counts(who, r.key.expert) && r.key.currency == currency
        then before + {r.key} else before
  {
    var n := |rows| - 1;
    assert forall r :: r in rows <==> r in rows[..n] || r == rows[n];
    forall k ensures k in KeysFor(rows, who, currency) <==>
      k in KeysFor(rows[..n], who, currency) || (k == rows[n].key && Counts(who, k.expert) && k.currency == currency)
    {
      if k in KeysFor(rows[..n], who, currency) {
        var r :| r in rows[..n] && Counts(who, r.key.expert) && r.key.currency == currency && r.key == k;
        assert r in rows;
      } else if k == rows[n].key && Counts(who, k.expert) && k.currency == currency {
        assert rows[n] in rows;
      }
    }
  }

  lemma {:induction false} FoldOfGroups(ledger: seq<Contract>, keys: set<Key>, who: Who, currency: string)
    requires forall c :: c in ledger ==> (KeyOf(c) in keys <==> Counts(who, c.signedBy) && c.currency == currency)
    ensures TotalsIn(ledger, keys) == DirectTotals(ledger, who, currency)
  {
    if ledger != [] {
      FoldOfGroups(ledger[..|ledger| - 1], keys, who, currency);
    }
  }

  /** Folding the grouped rows of everyone, of one expert or of no one gives the figures of exactly those contracts. */
  lemma GroupThenFold(rows: seq<Row>, ledger: seq<Contract>, who: Who, currency: string)
    requires GroupedRows(rows, ledger)
    ensures TotalsOf(FinancialRows(Select(rows, who)), currency) == DirectTotals(ledger, who, currency)
  {
    hide GroupSums;
    assert Faithful(rows, ledger);
    FoldOfRows(rows, ledger, who, currency);
    var keys := KeysFor(rows, who, currency);
    forall c | c in ledger ensures KeyOf(c) in keys <==> Counts(who, c.signedBy) && c.currency == currency {
      var r :| r in rows && r.key == KeyOf(c);
      assert r.key in keys <==> Counts(who, r.key.expert) && r.key.currency == currency;
    }
    FoldOfGroups(ledger, keys, who, currency);
  }

  lemma {:induction false} SelectEveryone(rows: seq<Row>)
    ensures Select(rows, Everyone) == rows
  {
    if rows != [] {
      SelectEveryone(rows[..|rows| - 1]);
    }
  }

  // ---- Conservation ----

  ghost predicate Reachable(ledger: seq<Contract>) {
    forall c :: c in ledger ==> Inv(c)
  }

  lemma {:induction false} DirectBalance(ledger: seq<Contract>, who: Who, currency: string)
    requires Reachable(ledger)
    ensures var t := DirectTotals(ledger, who, currency); t.signed == t.paid + t.unpaid
  {
    hide Inv;
    if ledger != [] {
      DirectBalance(ledger[..|ledger| - 1], who, currency);
      MappedAmounts(ledger[|ledger| - 1]);
    }
  }

  /** In every reachable ledger and for every currency: what is signed is what is paid plus what is signed and unpaid,
      in the summary as a whole and in every expert's part of it. */
  lemma SummaryBalances(rows: seq<Row>, ledger: seq<Contract>, who: Who, s: Summary, rank: string -> int)
    requires GroupedRows(rows, ledger) && Reachable(ledger) && IsSummary(FinancialRows(Select(rows, who)), s, rank)
    ensures forall m :: m in s.byCurrency ==>
      m.totals == DirectTotals(ledger, who, m.currency) && m.totals.signed == m.totals.paid + m.totals.unpaid
    ensures s.headline.Some? ==> s.headline.value.signed == s.headline.value.paid + s.headline.value.unpaid
  {
    hide GroupedRows;
    hide Reachable;
    hide Inv;
    forall m | m in s.byCurrency
      ensures m.totals == DirectTotals(ledger, who, m.currency) && m.totals.signed == m.totals.paid + m.totals.unpaid
    {
      GroupThenFold(rows, ledger, who, m.currency);
      DirectBalance(ledger, who, m.currency);
    }
    if |s.byCurrency| == 1 {
      assert s.byCurrency[0] in s.byCurrency;
    }
  }

  // ---- The parts add up to the whole ----

  function SumOver(ledger: seq<Contract>, experts: seq<int>, currency: string): Totals {
    if experts == [] then ZERO
    else Plus(SumOver(ledger, experts[..|experts| - 1], currency),
              DirectTotals(ledger, Expert(experts[|experts| - 1]), currency))
  }

  lemma {:induction false} SumOverNothing(experts: seq<int>, currency: string)
    ensures SumOver([], experts, currency) == ZERO
  {
    if experts != [] {
      SumOverNothing(experts[..|experts| - 1], currency);
    }
  }

  /** A further contract counts once, for its signer, if the signer is among the experts. */
  lemma {:induction false} SumOverOneMore(ledger: seq<Contract>, experts: seq<int>, currency: string)
    requires ledger != [] && Distinct(experts)
    ensures var c := ledger[|ledger| - 1]; var before := SumOver(ledger[..|ledger| - 1], experts, currency);
      SumOver(ledger, experts, currency) ==
        if c.currency == currency && c.signedBy.Some? && c.signedBy.value in experts then Plus(before, Share(c))
          else before
  {
    if experts != [] {
      var n := |experts| - 1;
      SumOverOneMore(ledger, experts[..n], currency);
      assert forall e :: e in experts <==> e in experts[..n] || e == experts[n];
    }
  }

  lemma DirectNothing(who: Who, currency: string)
    ensures DirectTotals([], who, currency) == ZERO
  {
  }

  lemma DirectOneMore(ledger: seq<Contract>, who: Who, currency: string)
    requires ledger != []
    ensures var c := ledger[|ledger| - 1]; var before := DirectTotals(ledger[..|ledger| - 1], who, currency);
      DirectTotals(ledger, who, currency) == if Counts(who, c.signedBy) && c.currency == currency
        then Plus(before, Share(c)) else before
  {
  }

  lemma NothingToShow(c: Contract)
    requires Inv(c) && !Final(c)
    ensures Share(c) == ZERO
  {
    MappedAmounts(c);
  }

  /** The figures of the listed experts and those of contracts no one has signed for add up to everyone's, as long as
      every signer of a signed or paid contract is listed: the others have nothing to show. */
  lemma {:induction false} ExpertsAddUp(ledger: seq<Contract>, experts: seq<int>, currency: string)
    requires Reachable(ledger) && Distinct(experts)
    requires forall c :: c in ledger && Final(c) && c.signedBy.Some? ==> c.signedBy.value in experts
    ensures DirectTotals(ledger, Everyone, currency)
            == Plus(SumOver(ledger, experts, currency), DirectTotals(ledger, NoSigner, currency))
  {
    hide Inv;
    hide Share;
    hide SumOver;
    hide Distinct;
    hide DirectTotals;
    if ledger == [] {
      SumOverNothing(experts, currency);
      DirectNothing(Everyone, currency);
      DirectNothing(NoSigner, currency);
    } else {
      var c := ledger[|ledger| - 1];
      ExpertsAddUp(ledger[..|ledger| - 1], experts, currency);
      SumOverOneMore(ledger, experts, currency);
      DirectOneMore(ledger, Everyone, currency);
      DirectOneMore(ledger, NoSigner, currency);
      if !Final(c) { NothingToShow(c); }
    }
  }

  function RowsOver(rows: seq<Row>, experts: seq<int>, currency: string): Totals {
    if experts == [] then ZERO
    else Plus(RowsOver(rows, experts[..|experts| - 1], currency),
              TotalsOf(FinancialRows(Select(rows, Expert(experts[|experts| - 1]))), currency))
  }

  lemma {:induction false} RowsOverIsSumOver(rows: seq<Row>, ledger: seq<Contract>, experts: seq<int>, currency: string)
    requires GroupedRows(rows, ledger)
    ensures RowsOver(rows, experts, currency) == SumOver(ledger, experts, currency)
  {
    hide GroupedRows;
    hide Select;
    hide DirectTotals;
    if experts != [] {
      RowsOverIsSumOver(rows, ledger, experts[..|experts| - 1], currency);
      GroupThenFold(rows, ledger, Expert(experts[|experts| - 1]), currency);
    }
  }

  /** The same for the summary: the parts it shows for the experts it lists, and the rows without a signer, add up to
      its whole. */
  lemma EarningsAddUp(rows: seq<Row>, ledger: seq<Contract>, experts: seq<int>, currency: string)
    requires GroupedRows(rows, ledger) && Reachable(ledger) && Distinct(experts)
    requires forall r :: r in rows && IsFinal(r.key.status) && r.key.expert.Some? ==> r.key.expert.value in experts
    ensures TotalsOf(FinancialRows(rows), currency) ==
            Plus(RowsOver(rows, experts, currency), TotalsOf(FinancialRows(Select(rows, NoSigner)), currency))
  {
    hide Inv;
    hide Select;
    hide FinancialRows;
    hide DirectTotals;
    hide TotalsOf;
    SelectEveryone(rows);
    GroupThenFold(rows, ledger, Everyone, currency);
    GroupThenFold(rows, ledger, NoSigner, currency);
    RowsOverIsSumOver(rows, ledger, experts, currency);
    forall c | c in ledger && Final(c) && c.signedBy.Some? ensures c.signedBy.value in experts {
      var r :| r in rows && r.key == KeyOf(c);
    }
    ExpertsAddUp(ledger, experts, currency);
  }

  // ---- Counts ----

  function KeysWith(rows: seq<Row>, who: Who, statuses: set<Status>): set<Key> {
    set r | r in rows && Counts(who, r.key.expert) && r.key.status in statuses :: r.key
  }

  lemma KeysWithOneMore(rows: seq<Row>, who: Who, statuses: set<Status>)
    requires rows != [] && forall i, j :: 0 <= i < j < |rows| ==> rows[i].key != rows[j].key
    ensures var n := |rows| - 1; var k := rows[n].key; var before := KeysWith(rows[..n], who, statuses);
      && k !in before
      && KeysWith(rows, who, statuses) == if Counts(who, k.expert) && k.status in statuses then before + {k} else before
  {
    var n := |rows| - 1;
    forall k ensures k in KeysWith(rows, who, statuses) <==>
      k in KeysWith(rows[..n], who, statuses) || (k == rows[n].key && Counts(who, k.expert) && k.status in statuses)
    {
      assert forall r :: r in rows <==> r in rows[..n] || r == rows[n];
      if k in KeysWith(rows[..n], who, statuses) {
        var r :| r in rows[..n] && Counts(who, r.key.expert) && r.key.status in statuses && r.key == k;
        assert r in rows;
      } else if k == rows[n].key && Counts(who, k.expert) && k.status in statuses {
        assert rows[n] in rows;
      }
    }
  }

  lemma NoRows(who: Who, statuses: set<Status>)
    ensures RowCount(Select([], who), statuses) == 0
  {
  }

  lemma SelectedCount(rows: seq<Row>, who: Who, statuses: set<Status>)
    requires rows != []
    ensures var n := |rows| - 1; var r := rows[n];
      RowCount(Select(rows, who), statuses) ==
        RowCount(Select(rows[..n], who), statuses) + if Counts(who, r.key.expert) && r.key.status in statuses
          then r.count else 0
  {
    var n := |rows| - 1;
    var before := Select(rows[..n], who);
    if Counts(who, rows[n].key.expert) {
      assert (before + [rows[n]])[..|before|] == before;
    } else {
      assert before + [] == before;
    }
  }

  lemma {:induction false} CountOfRows(rows: seq<Row>, ledger: seq<Contract>, who: Who, statuses: set<Status>)
    requires Faithful(rows, ledger)
    ensures RowCount(Select(rows, who), statuses) == GroupSums(ledger, KeysWith(rows, who, statuses)).0
  {
    hide GroupSums;
    hide Select;
    hide RowCount;
    if rows == [] {
      NoGroups(ledger);
      NoRows(who, statuses);
      assert KeysWith(rows, who, statuses) == {};
    } else {
      var n := |rows| - 1;
      var r := rows[n];
      CountOfRows(rows[..n], ledger, who, statuses);
      SelectedCount(rows, who, statuses);
      KeysWithOneMore(rows, who, statuses);
      if Counts(who, r.key.expert) && r.key.status in statuses {
        GroupsAdd(ledger, KeysWith(rows[..n], who, statuses), {r.key});
      }
    }
  }

  lemma {:induction false} CountOfGroups(ledger: seq<Contract>, keys: set<Key>, who: Who, statuses: set<Status>)
    requires forall c :: c in ledger ==> (KeyOf(c) in keys <==> Counts(who, c.signedBy) && c.status in statuses)
    ensures GroupSums(ledger, keys).0 == DirectCount(ledger, who, statuses)
  {
    if ledger != [] {
      CountOfGroups(ledger[..|ledger| - 1], keys, who, statuses);
    }
  }

  /** The counts of the summary are the numbers of contracts in those states. */
  lemma CountsAreOfContracts(rows: seq<Row>, ledger: seq<Contract>, who: Who, statuses: set<Status>)
    requires GroupedRows(rows, ledger)
    ensures RowCount(Select(rows, who), statuses) == DirectCount(ledger, who, statuses)
  {
    hide GroupSums;
    assert Faithful(rows, ledger);
    CountOfRows(rows, ledger, who, statuses);
    var keys := KeysWith(rows, who, statuses);
    forall c | c in ledger ensures KeyOf(c) in keys <==> Counts(who, c.signedBy) && c.status in statuses {
      var r :| r in rows && r.key == KeyOf(c);
      assert r.key in keys <==> Counts(who, r.key.expert) && r.key.status in statuses;
    }
    CountOfGroups(ledger, keys, who, statuses);
  }

  // ---- The totals query of one expert ----

  datatype ExpertGroup = ExpertGroup(count: int, money: Money)

  function Moneys(groups: seq<ExpertGroup>): (r: seq<Money>)
    ensures |r| == |groups| && forall i :: 0 <= i < |groups| ==> r[i] == groups[i].money
  {
    seq(|groups|, i requires 0 <= i < |groups| => groups[i].money)
  }

  /** COUNT(*) over the contracts in one currency. */
  function CurrencyCount(ledger: seq<Contract>, who: Who, currency: string): int {
    if ledger == [] then 0
    else
      var c := ledger[|ledger| - 1];
      CurrencyCount(ledger[..|ledger| - 1], who, currency) + if Counts(who, c.signedBy) && c.currency == currency
        then 1 else 0
  }

  /** The answer of the expert's own query: a row for each currency of the contracts the expert signed, with the number
      and the figures of exactly those contracts. */
  ghost predicate ExpertRows(groups: seq<ExpertGroup>, ledger: seq<Contract>, expert: int) {
    && DistinctCurrencies(Moneys(groups))
    && (forall m :: m in Moneys(groups) ==> m.totals == DirectTotals(ledger, Expert(expert), m.currency))
    && (forall i :: 0 <= i < |groups| ==>
        groups[i].count == CurrencyCount(ledger, Expert(expert), groups[i].money.currency))
    && (forall m :: m in Moneys(groups) ==>
        exists c :: c in ledger && c.signedBy == Some(expert) && c.currency == m.currency)
    && (forall c :: c in ledger && c.signedBy == Some(expert) ==>
        exists m :: m in Moneys(groups) && m.currency == c.currency)
  }

  const ALL: set<Status> := {PENDING_EXPERT, PENDING_STUDENT, SIGNED, PAID}

  function GroupTotal(groups: seq<ExpertGroup>): int {
    if groups == [] then 0 else GroupTotal(groups[..|groups| - 1]) + groups[|groups| - 1].count
  }

  function CountOver(ledger: seq<Contract>, who: Who, currencies: seq<string>): int {
    if currencies == [] then 0
    else
      CountOver(ledger, who, currencies[..|currencies| - 1])
      + CurrencyCount(ledger, who, currencies[|currencies| - 1])
  }

  lemma {:induction false} CountOverNothing(who: Who, currencies: seq<string>)
    ensures CountOver([], who, currencies) == 0
  {
    if currencies != [] {
      CountOverNothing(who, currencies[..|currencies| - 1]);
    }
  }

  lemma {:induction false} CountOverOneMore(ledger: seq<Contract>, who: Who, currencies: seq<string>)
    requires ledger != [] && Distinct(currencies)
    ensures var c := ledger[|ledger| - 1];
      CountOver(ledger, who, currencies) ==
        CountOver(ledger[..|ledger| - 1], who, currencies) + if Counts(who, c.signedBy) && c.currency in currencies
          then 1 else 0
  {
    if currencies != [] {
      var n := |currencies| - 1;
      CountOverOneMore(ledger, who, currencies[..n]);
      assert forall e :: e in currencies <==> e in currencies[..n] || e == currencies[n];
    }
  }

  lemma {:induction false} CountOverAll(ledger: seq<Contract>, who: Who, currencies: seq<string>)
    requires Distinct(currencies) && forall c :: c in ledger && Counts(who, c.signedBy) ==> c.currency in currencies
    ensures CountOver(ledger, who, currencies) == DirectCount(ledger, who, ALL)
  {
    if ledger == [] {
      CountOverNothing(who, currencies);
    } else {
      CountOverOneMore(ledger, who, currencies);
      CountOverAll(ledger[..|ledger| - 1], who, currencies);
      EveryStatus(ledger[|ledger| - 1].status);
    }
  }

  lemma EveryStatus(s: Status)
    ensures s in ALL
  {
    match s case PENDING_EXPERT => case PENDING_STUDENT => case SIGNED => case PAID =>
  }

  function Currencies(groups: seq<ExpertGroup>): seq<string> {
    seq(|groups|, i requires 0 <= i < |groups| => groups[i].money.currency)
  }

  lemma {:induction false} GroupTotalOver(groups: seq<ExpertGroup>, ledger: seq<Contract>, who: Who)
    requires forall i :: 0 <= i < |groups| ==> groups[i].count == CurrencyCount(ledger, who, groups[i].money.currency)
    ensures GroupTotal(groups) == CountOver(ledger, who, Currencies(groups))
  {
    if groups != [] {
      var n := |groups| - 1;
      GroupTotalOver(groups[..n], ledger, who);
      assert Currencies(groups)[..n] == Currencies(groups[..n]);
    }
  }

  /** The counts of the expert's currencies add up to the number of contracts the expert signed, which the pages
      divide. */
  lemma TotalIsOfExpert(groups: seq<ExpertGroup>, ledger: seq<Contract>, expert: int)
    requires ExpertRows(groups, ledger, expert)
    ensures GroupTotal(groups) == DirectCount(ledger, Expert(expert), ALL)
  {
    hide DirectTotals;
    hide CurrencyCount;
    var names := Currencies(groups);
    forall i, j | 0 <= i < j < |names| ensures names[i] != names[j] {
      assert Moneys(groups)[i].currency != Moneys(groups)[j].currency;
    }
    forall c | c in ledger && Counts(Expert(expert), c.signedBy) ensures c.currency in names {
      var m :| m in Moneys(groups) && m.currency == c.currency;
      var i :| 0 <= i < |groups| && Moneys(groups)[i] == m;
      assert names[i] == c.currency;
    }
    GroupTotalOver(groups, ledger, Expert(expert));
    CountOverAll(ledger, Expert(expert), names);
  }

  lemma {:induction false} TotalsOfDistinct(rows: seq<Money>, m: Money)
    requires DistinctCurrencies(rows)
    ensures m in rows ==> TotalsOf(rows, m.currency) == m.totals
    ensures (forall r :: r in rows ==> r.currency != m.currency) ==> TotalsOf(rows, m.currency) == ZERO
  {
    if rows != [] {
      var n := |rows| - 1;
      TotalsOfDistinct(rows[..n], m);
      assert forall r :: r in rows <==> r in rows[..n] || r == rows[n];
    }
  }

  lemma {:induction false} SelectMembers(rows: seq<Row>, who: Who)
    ensures forall r :: r in Select(rows, who) <==> r in rows && Counts(who, r.key.expert)
  {
    if rows != [] {
      SelectMembers(rows[..|rows| - 1], who);
      assert forall r :: r in rows <==> r in rows[..|rows| - 1] || r == rows[|rows| - 1];
    }
  }

  /** Both ways of summing an expert's contracts show the same currencies with the same figures. */
  lemma EarningsAgree(rows: seq<Row>, groups: seq<ExpertGroup>, ledger: seq<Contract>, expert: int,
                      a: Summary, b: Summary, rank: string -> int)
    requires GroupedRows(rows, ledger) && ExpertRows(groups, ledger, expert)
    requires IsSummary(FinancialRows(Select(rows, Expert(expert))), a, rank) && IsSummary(Moneys(groups), b, rank)
    ensures forall m :: m in a.byCurrency <==> m in b.byCurrency
    ensures (forall c, d :: rank(c) == rank(d) ==> c == d) ==> a == b
  {
    hide GroupedRows;
    hide ExpertRows;
    hide OnePerCurrency;
    hide Occurs;
    hide Signed;
    hide TotalsOf;
    hide DirectTotals;
    hide Ascending;
    hide Select;
    var own := FinancialRows(Select(rows, Expert(expert)));
    forall m ensures m in a.byCurrency <==> m in b.byCurrency {
      GroupThenFold(rows, ledger, Expert(expert), m.currency);
      OwnCurrencies(rows, ledger, Expert(expert), m.currency);
      QueryShows(groups, ledger, expert, m.currency);
      Shows(own, a, rank, m);
      Shows(Moneys(groups), b, rank, m);
    }
    if forall c, d :: rank(c) == rank(d) ==> c == d {
      SummaryDistinct(own, a, rank);
      SummaryDistinct(Moneys(groups), b, rank);
      SameAscending(a.byCurrency, b.byCurrency, rank);
    }
  }

  lemma SummaryDistinct(rows: seq<Money>, s: Summary, rank: string -> int)
    requires IsSummary(rows, s, rank)
    ensures DistinctCurrencies(s.byCurrency)
  {
  }

  ghost predicate Occurs(rows: seq<Money>, currency: string) {
    exists m :: m in rows && m.currency == currency
  }

  ghost predicate Signed(ledger: seq<Contract>, who: Who, currency: string) {
    exists c :: c in ledger && Counts(who, c.signedBy) && c.currency == currency
  }

  lemma OwnCurrencies(rows: seq<Row>, ledger: seq<Contract>, who: Who, currency: string)
    requires GroupedRows(rows, ledger)
    ensures Occurs(FinancialRows(Select(rows, who)), currency) <==> Signed(ledger, who, currency)
  {
    hide GroupSums;
    hide Occurs;
    OccursInRows(rows, who, currency);
    if exists r :: r in rows && Counts(who, r.key.expert) && r.key.currency == currency {
      var r :| r in rows && Counts(who, r.key.expert) && r.key.currency == currency;
      var c :| c in ledger && KeyOf(c) == r.key;
    }
    if Signed(ledger, who, currency) {
      var c :| c in ledger && Counts(who, c.signedBy) && c.currency == currency;
      var r :| r in rows && r.key == KeyOf(c);
    }
  }

  lemma OccursInRows(rows: seq<Row>, who: Who, currency: string)
    ensures Occurs(FinancialRows(Select(rows, who)), currency)
            <==> exists r :: r in rows && Counts(who, r.key.expert) && r.key.currency == currency
  {
    hide Select;
    var own := Select(rows, who);
    SelectMembers(rows, who);
    if Occurs(FinancialRows(own), currency) {
      var f :| f in FinancialRows(own) && f.currency == currency;
      var i :| 0 <= i < |own| && FinancialRows(own)[i] == f;
      assert own[i] in own;
    }
    if exists r :: r in rows && Counts(who, r.key.expert) && r.key.currency == currency {
      var r :| r in rows && Counts(who, r.key.expert) && r.key.currency == currency;
      var i :| 0 <= i < |own| && own[i] == r;
      assert FinancialRows(own)[i] in FinancialRows(own);
    }
  }

  /** What a summary shows for a currency, said without its rows. */
  lemma Shows(rows: seq<Money>, s: Summary, rank: string -> int, m: Money)
    requires IsSummary(rows, s, rank)
    ensures m in s.byCurrency <==> Occurs(rows, m.currency) && m.totals == TotalsOf(rows, m.currency)
  {
    hide TotalsOf;
    hide Ascending;
    if Occurs(rows, m.currency) && m.totals == TotalsOf(rows, m.currency) {
      var r :| r in rows && r.currency == m.currency;
      var e :| e in s.byCurrency && e.currency == r.currency;
      assert e == m;
    }
  }

  lemma QueryShows(groups: seq<ExpertGroup>, ledger: seq<Contract>, expert: int, currency: string)
    requires ExpertRows(groups, ledger, expert)
    ensures Occurs(Moneys(groups), currency) <==> Signed(ledger, Expert(expert), currency)
    ensures Occurs(Moneys(groups), currency) ==>
              TotalsOf(Moneys(groups), currency) == DirectTotals(ledger, Expert(expert), currency)
  {
    hide DirectTotals;
    hide TotalsOf;
    if Signed(ledger, Expert(expert), currency) {
      var c :| c in ledger && c.signedBy == Some(expert) && c.currency == currency;
      var g :| g in Moneys(groups) && g.currency == c.currency;
    }
    if Occurs(Moneys(groups), currency) {
      var g :| g in Moneys(groups) && g.currency == currency;
      TotalsOfDistinct(Moneys(groups), g);
    }
  }

  lemma HasMember(s: seq<Money>)
    requires s != []
    ensures exists m :: m in s
  {
    assert s[0] in s;
  }

  lemma {:induction false} SameAscending(a: seq<Money>, b: seq<Money>, rank: string -> int)
    requires DistinctCurrencies(a) && DistinctCurrencies(b) && Ascending(a, ByRank(rank)) && Ascending(b, ByRank(rank))
    requires forall c, d :: rank(c) == rank(d) ==> c == d
    requires forall m :: m in a <==> m in b
    ensures a == b
    decreases |a|
  {
    if b != [] { HasMember(b); }
    if a != [] {
      assert a[0] in a && a[0] in b;
      SameFirst(a, b, rank);
      RestMembers(a, b);
      SameAscending(a[1..], b[1..], rank);
      assert a == [a[0]] + a[1..] && b == [b[0]] + b[1..];
    }
  }

  lemma SameFirst(a: seq<Money>, b: seq<Money>, rank: string -> int)
    requires DistinctCurrencies(b) && Ascending(a, ByRank(rank)) && Ascending(b, ByRank(rank))
    requires forall c, d :: rank(c) == rank(d) ==> c == d
    requires a != [] && b != [] && a[0] in b && b[0] in a
    ensures a[0] == b[0]
  {
    var i :| 0 <= i < |a| && a[i] == b[0];
    var j :| 0 <= j < |b| && b[j] == a[0];
    assert ByRank(rank)(a[0]) <= ByRank(rank)(a[i]) && ByRank(rank)(b[0]) <= ByRank(rank)(b[j]);
    assert rank(a[0].currency) == rank(b[0].currency);
  }

  lemma RestMembers(a: seq<Money>, b: seq<Money>)
    requires DistinctCurrencies(a) && DistinctCurrencies(b) && a != [] && b != [] && a[0] == b[0]
    requires forall m :: m in a <==> m in b
    ensures forall m :: m in a[1..] <==> m in b[1..]
  {
    forall m ensures m in a[1..] <==> m in b[1..] {
      assert a == [a[0]] + a[1..] && b == [b[0]] + b[1..];
      if m in a[1..] { NotFirst(a, m); assert m in b; }
      if m in b[1..] { NotFirst(b, m); assert m in a; }
    }
  }

  lemma NotFirst(s: seq<Money>, m: Money)
    requires DistinctCurrencies(s) && s != [] && m in s[1..]
    ensures m != s[0] && m in s
  {
    var i :| 0 <= i < |s| - 1 && s[1..][i] == m;
    assert s[i + 1] == m;
  }

  // ---- The summary as it is computed ----

  datatype Earning = Earning(expert: int, summary: Summary, contractCount: int, paidContractCount: int)

  function RowSigners(rows: seq<Row>): set<int> {
    set r | r in rows && r.key.expert.Some? :: r.key.expert.value
  }

  function Signers(ledger: seq<Contract>): set<int> {
    set c | c in ledger && c.signedBy.Some? :: c.signedBy.value
  }

  /** The signers in the rows are the users who signed some contract, in whatever state it is. */
  lemma SignersOfRows(rows: seq<Row>, ledger: seq<Contract>)
    requires GroupedRows(rows, ledger)
    ensures RowSigners(rows) == Signers(ledger)
  {
    hide GroupSums;
    forall id | id in RowSigners(rows) ensures id in Signers(ledger) {
      var r :| r in rows && r.key.expert == Some(id);
      var c :| c in ledger && KeyOf(c) == r.key;
    }
    forall id | id in Signers(ledger) ensures id in RowSigners(rows) {
      var c :| c in ledger && c.signedBy == Some(id);
      var r :| r in rows && r.key == KeyOf(c);
    }
  }

  predicate Listed(rows: seq<Row>, expert: int) {
    exists r :: r in rows && r.key.expert == Some(expert) && IsFinal(r.key.status)
  }

  function CountFor(counts: map<Status, int>, status: Status): int {
    if status in counts then counts[status] else 0
  }

  method CountByStatus(rows: seq<Row>) returns (counts: map<Status, int>, total: int)
    ensures forall s :: CountFor(counts, s) == RowCount(rows, {s})
    ensures total == RowCount(rows, ALL)
  {
    counts, total := map[], 0;
    for i := 0 to |rows|
      invariant forall s :: CountFor(counts, s) == RowCount(rows[..i], {s})
      invariant total == RowCount(rows[..i], ALL)
    {
      assert rows[..i + 1][..i] == rows[..i];
      var row := rows[i];
      forall s: Status ensures RowCount(rows[..i + 1], {s}) == RowCount(rows[..i], {s}) + if row.key.status == s
        then row.count else 0 {
      }
      counts := counts[row.key.status := CountFor(counts, row.key.status) + row.count];
      total := total + row.count;
    }
    assert rows[..|rows|] == rows;
  }

  method Earned(rows: seq<Row>, expert: int, rank: string -> int) returns (e: Earning)
    ensures e.expert == expert && IsSummary(FinancialRows(Select(rows, Expert(expert))), e.summary, rank)
    ensures e.contractCount == RowCount(Select(rows, Expert(expert)), {SIGNED, PAID})
    ensures e.paidContractCount == RowCount(Select(rows, Expert(expert)), {PAID})
  {
    hide IsSummary;
    var own: seq<Row>, contractCount, paidContractCount := [], 0, 0;
    for i := 0 to |rows|
      invariant own == Select(rows[..i], Expert(expert))
      invariant contractCount == RowCount(own, {SIGNED, PAID}) && paidContractCount == RowCount(own, {PAID})
    {
      assert rows[..i + 1][..i] == rows[..i];
      if rows[i].key.expert == Some(expert) {
        assert (own + [rows[i]])[..|own|] == own;
        own := own + [rows[i]];
        if IsFinal(rows[i].key.status) { contractCount := contractCount + rows[i].count; }
        if rows[i].key.status == PAID { paidContractCount := paidContractCount + rows[i].count; }
      }
    }
    assert rows[..|rows|] == rows;
    var summary := MoneySummary(FinancialRows(own), rank);
    e := Earning(expert, summary, contractCount, paidContractCount);
  }

  /** users: every user, in the order the experts are listed; each signer is one of them. */
  method GetSummary(rows: seq<Row>, users: seq<int>, rank: string -> int)
    returns (whole: Summary, counts: map<Status, int>, total: int, expertsWithContracts: nat, earnings: seq<Earning>)
    requires Distinct(users) && forall r :: r in rows && r.key.expert.Some? ==> r.key.expert.value in users
    ensures IsSummary(FinancialRows(rows), whole, rank)
    ensures forall s :: CountFor(counts, s) == RowCount(rows, {s})
    ensures total == RowCount(rows, ALL)
    ensures expertsWithContracts == |RowSigners(rows)|
    ensures forall i, j :: 0 <= i < j < |earnings| ==> earnings[i].expert != earnings[j].expert
    ensures forall id :: Listed(rows, id) <==> exists e :: e in earnings && e.expert == id
    ensures forall e :: e in earnings ==>
      && IsSummary(FinancialRows(Select(rows, Expert(e.expert))), e.summary, rank)
      && e.contractCount == RowCount(Select(rows, Expert(e.expert)), {SIGNED, PAID})
      && e.paidContractCount == RowCount(Select(rows, Expert(e.expert)), {PAID})
  {
    hide IsSummary;
    hide RowCount;
    hide Select;
    whole := MoneySummary(FinancialRows(rows), rank);
    counts, total := CountByStatus(rows);
    expertsWithContracts := |set r | r in rows && r.key.expert.Some? :: r.key.expert.value|;
    earnings := [];
    for i := 0 to |users|
      invariant forall j, k :: 0 <= j < k < |earnings| ==> earnings[j].expert != earnings[k].expert
      invariant forall e :: e in earnings ==> e.expert in users[..i] && Listed(rows, e.expert)
      invariant forall id :: id in users[..i] && Listed(rows, id) ==> exists e :: e in earnings && e.expert == id
      invariant forall e :: e in earnings ==>
        && IsSummary(FinancialRows(Select(rows, Expert(e.expert))), e.summary, rank)
        && e.contractCount == RowCount(Select(rows, Expert(e.expert)), {SIGNED, PAID})
        && e.paidContractCount == RowCount(Select(rows, Expert(e.expert)), {PAID})
    {
      var user := users[i];
      assert user !in users[..i];
      assert forall id :: id in users[..i + 1] <==> id in users[..i] || id == user;
      if Listed(rows, user) {
        var before := earnings;
        var e := Earned(rows, user, rank);
        earnings := earnings + [e];
        assert forall x :: x in earnings <==> x in before || x == e;
      }
    }
    forall id | Listed(rows, id) ensures id in users[..|users|] {
      var r :| r in rows && r.key.expert == Some(id) && IsFinal(r.key.status);
    }
  }
}
