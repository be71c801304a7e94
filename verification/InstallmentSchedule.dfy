/** Payment terms of a contract and the plan of its instalments. Prices are exact reals in the contract's currency;
    instalment amounts are whole tiyn (hundredths), due dates are day numbers of the calendar. */
module InstallmentSchedule {
  import opened Prelude
  import opened Calendar

  datatype Tier = FREE | AI_ROADMAP | EXPERT_MENTORSHIP | ENTERPRISE
  datatype PaymentType = FULL | INSTALLMENT
  datatype Terms = Terms(paymentType: PaymentType, installmentCount: int)
  datatype Item = Item(number: int, amount: int, dueDate: int)

  const MAX_NEW_INSTALLMENTS := 3
  const MAX_PRESERVED_INSTALLMENTS := 120

  /** Consultation slots a tier grants; 0 for a tier that is not in the price list. */
  function TierSlots(tier: Tier): nat {
    match tier case AI_ROADMAP => 3 case EXPERT_MENTORSHIP => 10 case _ => 0
  }

  predicate PriceAllowed(price: real, currency: string, legacy: bool) {
    && price > 0.0
    && (if legacy then currency == "KZT" || currency == "USD" || currency == "EUR"
        else currency == "KZT" && (price == 1500000.0 || price == 750000.0))
  }

  /** None is the source's BadRequestException. */
  function PaymentTerms(price: real, currency: string, paymentType: PaymentType, installmentCount: Option<int>,
                        legacy: bool, preserve: bool): Option<Terms>
  {
    if !PriceAllowed(price, currency, legacy) then None
    else if installmentCount.None? && paymentType != FULL then None
    else
      var count := if installmentCount.Some? then installmentCount.value else 1;
      var maximum := if legacy && preserve then MAX_PRESERVED_INSTALLMENTS else MAX_NEW_INSTALLMENTS;
      if count < 1 || count > maximum || (if paymentType == FULL then count != 1 else count < 2) then None
      else Some(Terms(paymentType, count))
  }

  function CommercialTerms(price: real, currency: string, tier: Tier, paymentType: PaymentType,
                           installmentCount: Option<int>,
                           legacy: bool, preserve: bool): Option<Terms>
  {
    if TierSlots(tier) == 0 then None
      else PaymentTerms(price, currency, paymentType, installmentCount, legacy, preserve)
  }

  predicate Whole(x: real) {
    x == x.Floor as real
  }

  function Amount(total: int, count: int, i: int): int
    requires count > 0
  {
    total / count + if i < total % count then 1 else 0
  }

  function LastDayOfMonth(year: int, month: int): int {
    CivilOf(UtcDay(year, month + 1, 0)).day
  }

  function Min(a: int, b: int): int {
    if a < b then a else b
  }

  /** Due day of instalment i when the first was paid on the local date. */
  function DueDate(local: Civil, i: int): int {
    UtcDay(local.year, local.month - 1 + i, Min(local.day, LastDayOfMonth(local.year, local.month - 1 + i)))
  }

  /** The plan for a price, with the first payment on the given Almaty date; None is the source's
      BadRequestException. */
  function Plan(price: real, count: int, local: Civil): Option<seq<Item>> {
    var exact := price * 100.0;
    var total := exact.Floor;
    if !Whole(exact) || total > MAX_SAFE_INTEGER || total < -MAX_SAFE_INTEGER || total < count then None
    else if count < 1 then Some([])
    else Some(seq(count, i => Item(i + 1, Amount(total, count, i), DueDate(local, i))))
  }

  // ---- Amounts ----

  function Total(plan: seq<Item>): int {
    if plan == [] then 0 else Total(plan[..|plan| - 1]) + plan[|plan| - 1].amount
  }

  lemma {:induction false} PartialTotal(plan: seq<Item>, total: int, count: int, k: nat)
    requires 0 < count == |plan| && k <= count
    requires forall i :: 0 <= i < count ==> plan[i].amount == Amount(total, count, i)
    ensures Total(plan[..k]) == total / count * k + Min(k, total % count)
  {
    if k > 0 {
      PartialTotal(plan, total, count, k - 1);
      assert plan[..k][..k - 1] == plan[..k - 1];
      assert total / count * k == total / count * (k - 1) + total / count;
    }
  }

  lemma PlanItems(price: real, count: int, local: Civil, plan: seq<Item>)
    requires Plan(price, count, local) == Some(plan) && count > 0
    ensures var total := (price * 100.0).Floor;
      && total >= count && total as real == price * 100.0 && |plan| == count
      && forall i :: 0 <= i < count ==> plan[i].number == i + 1 && plan[i].amount == Amount(total, count, i)
  {
    hide DueDate;
    hide Amount;
  }

  /** Nothing is lost or invented in the split: the amounts are positive, in order and within one tiyn of each other,
      and add up to the price. */
  lemma PlanConservesPrice(price: real, count: int, local: Civil, plan: seq<Item>)
    requires Plan(price, count, local) == Some(plan) && count > 0
    ensures Total(plan) as real == price * 100.0
    ensures |plan| == count && forall i :: 0 <= i < count ==> plan[i].number == i + 1 && plan[i].amount > 0
    ensures forall i, j :: 0 <= i <= j < count ==> plan[j].amount <= plan[i].amount <= plan[j].amount + 1
  {
    hide Plan;
    hide Amount;
    var total := (price * 100.0).Floor;
    PlanItems(price, count, local, plan);
    AmountShape(total, count);
    WholeTotal(plan, total, count);
  }

  lemma WholeTotal(plan: seq<Item>, total: int, count: int)
    requires 0 < count == |plan| && forall i :: 0 <= i < count ==> plan[i].amount == Amount(total, count, i)
    ensures Total(plan) == total
  {
    hide Amount;
    hide Total;
    PartialTotal(plan, total, count, count);
    assert plan[..count] == plan;
    assert total == total / count * count + total % count;
  }

  lemma AmountShape(total: int, count: int)
    requires total >= count > 0
    ensures forall i :: Amount(total, count, i) > 0
    ensures forall i, j :: i <= j ==> Amount(total, count, j) <= Amount(total, count, i) <= Amount(total, count, j) + 1
  {
    var q, r := total / count, total % count;
    assert total == q * count + r;
    assert q >= 1 by {
      if q <= 0 { Product(-q, count); }
    }
  }

  lemma Product(a: int, n: int)
    requires a >= 0 && n > 0
    ensures a * n >= 0 && (-a) * n == -(a * n) && (a >= 1 ==> a * n >= n)
  {
    if a >= 1 {
      assert a * n == (a - 1) * n + n;
      assert (a - 1) * n >= 0;
    }
  }

  /** Sum of a list in which the first k members are base + 1 and the others base. */
  lemma {:induction false} SteppedTotal(plan: seq<Item>, base: int, k: nat, m: nat)
    requires k <= |plan| && m <= |plan|
    requires forall i :: 0 <= i < |plan| ==> plan[i].amount == if i < k then base + 1 else base
    ensures Total(plan[..m]) == base * m + Min(m, k)
  {
    if m > 0 {
      SteppedTotal(plan, base, k, m - 1);
      assert plan[..m][..m - 1] == plan[..m - 1];
      assert base * m == base * (m - 1) + base;
    }
  }

  lemma {:induction false} StepPoint(plan: seq<Item>, m: nat) returns (k: nat)
    requires |plan| > 0 && m <= |plan|
    requires forall i, j :: 0 <= i <= j < |plan| ==> plan[j].amount <= plan[i].amount <= plan[j].amount + 1
    ensures k <= m && forall i :: 0 <= i < m ==> plan[i].amount == plan[|plan| - 1].amount + if i < k then 1 else 0
  {
    if m == 0 {
      k := 0;
    } else {
      k := StepPoint(plan, m - 1);
      if plan[m - 1].amount == plan[|plan| - 1].amount + 1 {
        k := m;
      }
    }
  }

  /** The split is the only fair one: amounts that fall by at most a tiyn, larger first, and add up to the total are
      these. */
  lemma SplitIsUnique(plan: seq<Item>, total: int)
    requires |plan| > 0 && Total(plan) == total
    requires forall i, j :: 0 <= i <= j < |plan| ==> plan[j].amount <= plan[i].amount <= plan[j].amount + 1
    ensures forall i :: 0 <= i < |plan| ==> plan[i].amount == Amount(total, |plan|, i)
  {
    var n, base := |plan|, plan[|plan| - 1].amount;
    var k := StepPoint(plan, n);
    SteppedTotal(plan, base, k, n);
    assert plan[..n] == plan;
    assert k < n;
    QuotientUnique(total, n, base, k);
  }

  lemma QuotientUnique(total: int, n: int, base: int, k: int)
    requires 0 <= k < n && total == base * n + k
    ensures total / n == base && total % n == k
  {
    var q, r := total / n, total % n;
    var d := q - base;
    assert d * n == k - r by {
      assert total == q * n + r;
      assert d * n == q * n - base * n;
    }
    if d > 0 {
      Product(d, n);
    } else {
      Product(-d, n);
    }
  }

  // ---- Due dates ----

  /** Absolute month of instalment i. */
  function DueMonth(local: Civil, i: int): int {
    12 * FullYear(local.year) + local.month - 1 + i
  }

  /** Each instalment falls due in its own month, on the day of the first payment or, when the month is too short for
      that day, on the month's last day. */
  lemma DueDateInMonth(local: Civil, i: int)
    requires ValidCivil(local)
    ensures var c := CivilOf(DueDate(local, i));
      12 * c.year + c.month - 1 == DueMonth(local, i) && c.day == Min(local.day, MonthLength(DueMonth(local, i)))
  {
    hide CivilOf;
    hide MonthStart;
    hide MonthLength;
    var k := DueMonth(local, i);
    assert UtcDay(local.year, local.month + i, 0) == MonthStart(k + 1) - 1;
    LastDay(k);
    CivilInMonth(DueDate(local, i), k);
  }

  lemma CivilInMonth(n: int, k: int)
    requires MonthStart(k) <= n < MonthStart(k) + MonthLength(k)
    ensures var c := CivilOf(n); 12 * c.year + c.month - 1 == k && c.day == n - MonthStart(k) + 1
  {
    hide MonthStart;
    hide MonthLength;
    MonthUnique(n, k);
    assert 12 * (k / 12) + k % 12 == k;
  }

  /** Due dates strictly increase, across year ends and short months alike, and each is in the month after the one
      before. */
  lemma DueDatesIncrease(price: real, count: int, local: Civil, plan: seq<Item>)
    requires ValidCivil(local) && Plan(price, count, local) == Some(plan)
    ensures forall i, j :: 0 <= i < j < |plan| ==> plan[i].dueDate < plan[j].dueDate
    ensures forall i :: 0 <= i < |plan| - 1 ==>
      var c, d := CivilOf(plan[i].dueDate), CivilOf(plan[i + 1].dueDate);
      12 * d.year + d.month == 12 * c.year + c.month + 1
  {
    hide CivilOf;
    hide DayOf;
    hide DueDate;
    forall i, j | 0 <= i < j < |plan| ensures plan[i].dueDate < plan[j].dueDate {
      DueDateInMonth(local, i);
      DueDateInMonth(local, j);
      DayOfCivil(plan[i].dueDate);
      DayOfCivil(plan[j].dueDate);
      EarlierMonth(CivilOf(plan[i].dueDate), CivilOf(plan[j].dueDate));
    }
    forall i | 0 <= i < |plan| - 1
      ensures var c, d := CivilOf(plan[i].dueDate), CivilOf(plan[i + 1].dueDate);
              12 * d.year + d.month == 12 * c.year + c.month + 1
    {
      DueDateInMonth(local, i);
      DueDateInMonth(local, i + 1);
    }
  }

  /** The first instalment is due on the very day it was paid, except that Date.UTC reads the years 0 to 99 as 1900 to
      1999. */
  lemma FirstDueOnPaymentDay(local: Civil)
    requires ValidCivil(local)
    ensures DueDate(local, 0) == DayOf(local) <==> !(0 <= local.year <= 99)
  {
    hide CivilOf;
    hide MonthStart;
    hide DueDate;
    DueDateInMonth(local, 0);
    DayOfCivil(DueDate(local, 0));
    CivilOfDay(local);
    MonthIndex(local.year, local.month - 1);
  }

  // ---- Which terms are accepted ----

  /** Accepted terms can always be split into a plan of the accepted number of positive amounts, provided the price is a
      whole number of tiyn, has at least one for each instalment and is within the exact integers. */
  lemma AcceptedTermsHavePlan(price: real, currency: string, tier: Tier, paymentType: PaymentType, count: Option<int>,
                              legacy: bool, preserve: bool, terms: Terms, local: Civil)
    requires CommercialTerms(price, currency, tier, paymentType, count, legacy, preserve) == Some(terms)
    ensures 1 <= terms.installmentCount <= MAX_PRESERVED_INSTALLMENTS
            && (terms.paymentType == FULL <==> terms.installmentCount == 1)
    ensures Plan(price, terms.installmentCount, local).Some? <==>
              Whole(price * 100.0) && terms.installmentCount as real <= price * 100.0 <= MAX_SAFE_INTEGER as real
    ensures !legacy ==> Plan(price, terms.installmentCount, local).Some?
  {
  }
}
