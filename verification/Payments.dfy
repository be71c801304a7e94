/** Online payments: settling a verified receipt against its order. The transaction holds the provider payment's
    advisory lock and the order's row lock, so each settlement is one atomic step. */
module Payments {
  import opened Prelude
  import opened InstallmentSchedule
  import opened ContractLifecycle
  import opened Packages

  /** A provider payment id: verified receipts carry one or more digits. */
  type PaymentId = s: string | s != "" witness "0"

  datatype OrderStatus = ORDER_PENDING | ORDER_SUCCESS | ORDER_FAILED | ORDER_OTHER
  datatype Order = Order(userId: int, amount: real, currency: string, status: OrderStatus, tier: Tier,
                         providerRef: Option<PaymentId>)
  datatype StudentPortrait = StudentPortrait(subscription: Tier, expert: Option<int>, balance: int)
  datatype Held = Held(student: int, contract: Contract)

  /** events: the orders whose completed payment was recorded, in order; accounts: students whose account is
      available. */
  datatype Books = Books(orders: map<int, Order>, accounts: set<int>, contracts: map<int, Held>,
                         portraits: map<int, StudentPortrait>, packages: map<(int, int), Package>, events: seq<int>)

  datatype Payment = Payment(orderId: int, paymentId: PaymentId, amount: real, currency: string)

  datatype Answer = Settled(books: Books) | Rejected(error: Error)

  predicate OwnedElsewhere(b: Books, orderId: int, ref: PaymentId) {
    exists o :: o in b.orders && o != orderId && b.orders[o].providerRef == Some(ref)
  }

  /** The student's contract is paid by hand, or will be: its money does not come through the gateway. */
  predicate Manual(c: Contract) {
    c.paymentType.Some? || c.manualConfirmedAt.Some?
  }

  predicate HasManual(b: Books, student: int) {
    exists i :: i in b.contracts && b.contracts[i].student == student && Manual(b.contracts[i].contract)
  }

  predicate HasSigned(b: Books, student: int) {
    exists i :: i in b.contracts && b.contracts[i].student == student && Final(b.contracts[i].contract)
  }

  function MarkedPaid(contracts: map<int, Held>, student: int, now: int): map<int, Held> {
    map i | i in contracts ::
      if contracts[i].student == student && Markable(contracts[i].contract)
      then contracts[i].(contract := contracts[i].contract.(status := PAID, paidAt := Some(now)))
      else contracts[i]
  }

  function Sold(b: Books, order: Order, orderId: int, now: int): Books
    requires order.userId in b.portraits
  {
    var p := b.portraits[order.userId].(subscription := order.tier,
                                        balance := if order.tier == EXPERT_MENTORSHIP then 8
                                          else b.portraits[order.userId].balance);
    b.(portraits := b.portraits[order.userId := p],
       packages := if p.expert.Some? then Grant(b.packages, (order.userId, p.expert.value), TierSlots(order.tier))
         else b.packages,
       contracts := MarkedPaid(b.contracts, order.userId, now),
       events := b.events + [orderId])
  }

  function Settle(b: Books, r: Payment, now: int): Answer {
    if r.orderId !in b.orders then Rejected(NotFound)
    else
      var order := b.orders[r.orderId];
      if r.amount < 0.0 || order.amount != r.amount || order.currency != r.currency then Rejected(BadRequest)
      else if order.providerRef.Some? && order.providerRef.value != r.paymentId then Rejected(Conflict)
      else if OwnedElsewhere(b, r.orderId, r.paymentId) then Rejected(Conflict)
      else if order.status == ORDER_SUCCESS then
        Settled(b.(orders := b.orders[r.orderId := order.(providerRef := Some(r.paymentId))]))
      else if order.status == ORDER_OTHER then Rejected(Conflict)
      else if order.userId !in b.accounts then Rejected(Conflict)
      else
        var paid := b.orders[r.orderId := order.(status := ORDER_SUCCESS, providerRef := Some(r.paymentId))];
        if HasManual(b, order.userId) then Settled(b.(orders := paid))
        else if !HasSigned(b, order.userId) then Rejected(Conflict)
        else if order.userId !in b.portraits then Rejected(NotFound)
        else if TierSlots(order.tier) == 0 then Rejected(Conflict)
        else Settled(Sold(b, order, r.orderId, now).(orders := paid))
  }

  // ---- Runs ----

  /** Receipts arrive in any order and any number of times, orders are created, and everything but the orders and the
      events may change elsewhere in between. */
  datatype PaymentStep =
    | Receive(payment: Payment, now: int)
    | NewOrder(id: int, order: Order)
    | Other(accounts: set<int>, contracts: map<int, Held>, portraits: map<int, StudentPortrait>,
            packages: map<(int, int), Package>)

  function Try(b: Books, s: PaymentStep): Books {
    match s
    case Receive(payment, now) => var a := Settle(b, payment, now); if a.Settled? then a.books else b
    case NewOrder(id, order) => if id in b.orders then b else b.(orders := b.orders[id := order.(providerRef := None)])
    case Other(accounts, contracts, portraits, packages) =>
        Books(b.orders, accounts, contracts, portraits, packages, b.events)
  }

  function History(b: Books, steps: seq<PaymentStep>): Books
    decreases |steps|
  {
    if steps == [] then b else History(Try(b, steps[0]), steps[1..])
  }

  ghost predicate Sound(b: Books) {
    && (forall o, o' :: o in b.orders && o' in b.orders && o != o' && b.orders[o].providerRef.Some? ==>
        b.orders[o].providerRef != b.orders[o'].providerRef)
    && (forall i, j :: 0 <= i < j < |b.events| ==> b.events[i] != b.events[j])
    && (forall e :: e in b.events ==> e in b.orders && b.orders[e].status == ORDER_SUCCESS)
  }

  /** What can never be undone between two states: a provider reference, and a success with everything that belongs to
      it. */
  ghost predicate Later(b: Books, b': Books) {
    && (forall o :: o in b.orders ==> o in b'.orders && SameOrder(b.orders[o], b'.orders[o]))
    && |b.events| <= |b'.events| && b'.events[..|b.events|] == b.events
    && (forall i :: |b.events| <= i < |b'.events| ==>
        b'.events[i] in b'.orders && (b'.events[i] in b.orders ==> b.orders[b'.events[i]].status != ORDER_SUCCESS))
  }

  predicate SameOrder(o: Order, o': Order) {
    && o'.(status := o.status, providerRef := o.providerRef) == o
    && (o.providerRef.Some? ==> o'.providerRef == o.providerRef)
    && (o.status == ORDER_SUCCESS || o.status == ORDER_OTHER ==> o'.status == o.status)
  }

  /** What a settlement does to the orders and the events. */
  lemma SettledOrders(b: Books, r: Payment, now: int)
    requires Settle(b, r, now).Settled?
    ensures r.orderId in b.orders
    ensures var o, b' := b.orders[r.orderId], Settle(b, r, now).books;
      && (o.providerRef.Some? ==> o.providerRef == Some(r.paymentId)) && !OwnedElsewhere(b, r.orderId, r.paymentId)
         && o.status != ORDER_OTHER
      && b'.orders == b.orders[r.orderId := o.(status := ORDER_SUCCESS, providerRef := Some(r.paymentId))]
      && (b'.events == b.events || (o.status != ORDER_SUCCESS && b'.events == b.events + [r.orderId]))
  {
    hide MarkedPaid;
    hide HasManual;
    hide HasSigned;
    hide Grant;
    hide OwnedElsewhere;
  }

  lemma StepSound(b: Books, s: PaymentStep)
    requires Sound(b)
    ensures Sound(Try(b, s)) && Later(b, Try(b, s))
  {
    hide Settle;
    if s.Receive? && Settle(b, s.payment, s.now).Settled? {
      SettledOrders(b, s.payment, s.now);
    }
  }

  lemma LaterAgain(a: Books, b: Books, c: Books)
    requires Later(a, b) && Later(b, c)
    ensures Later(a, c)
  {
    assert c.events[..|a.events|] == c.events[..|b.events|][..|a.events|];
    forall i | |a.events| <= i < |c.events|
      ensures c.events[i] in c.orders && (c.events[i] in a.orders ==> a.orders[c.events[i]].status != ORDER_SUCCESS)
    {
      if i < |b.events| {
        assert c.events[i] == c.events[..|b.events|][i] == b.events[i];
        OrderLater(b, c, b.events[i]);
      } else if c.events[i] in a.orders {
        OrderLater(a, b, c.events[i]);
      }
    }
  }

  /** In every history no two orders share a provider payment, a reference once set and a success once reached stay, and
      each order's completed payment is recorded at most once. */
  lemma {:induction false} HistorySound(b: Books, steps: seq<PaymentStep>)
    requires Sound(b)
    ensures Sound(History(b, steps)) && Later(b, History(b, steps))
    decreases |steps|
  {
    hide Sound;
    hide Later;
    if steps == [] {
      LaterItself(b);
    } else {
      StepSound(b, steps[0]);
      HistorySound(Try(b, steps[0]), steps[1..]);
      LaterAgain(b, Try(b, steps[0]), History(b, steps));
    }
  }

  lemma LaterItself(b: Books)
    ensures Later(b, b)
  {
  }

  /** A receipt that was accepted once is accepted whenever it comes again, and then changes nothing; and no other order
      is ever settled with the same provider payment. */
  lemma SettledOnce(b: Books, r: Payment, now: int, steps: seq<PaymentStep>, r': Payment, now': int)
    requires Sound(b) && Settle(b, r, now).Settled?
    requires r'.paymentId == r.paymentId
    ensures var b' := History(Settle(b, r, now).books, steps);
      && (r' == r ==> Settle(b', r', now') == Settled(b'))
      && (r'.orderId != r.orderId ==> Settle(b', r', now').Rejected?)
  {
    hide Sold;
    hide Later;
    StepSound(b, Receive(r, now));
    var b0 := Settle(b, r, now).books;
    HistorySound(b0, steps);
    var b' := History(b0, steps);
    AcceptedOrder(b, r, now);
    OrderLater(b0, b', r.orderId);
    assert b'.orders[r.orderId].providerRef == Some(r.paymentId);
    if r' == r {
      assert !OwnedElsewhere(b', r.orderId, r.paymentId);
      assert b'.orders[r.orderId := b'.orders[r.orderId].(providerRef := Some(r.paymentId))] == b'.orders;
    }
  }

  lemma AcceptedOrder(b: Books, r: Payment, now: int)
    requires Settle(b, r, now).Settled?
    ensures r.orderId in Settle(b, r, now).books.orders
    ensures Settle(b, r, now).books.orders[r.orderId]
            == b.orders[r.orderId].(status := ORDER_SUCCESS, providerRef := Some(r.paymentId))
  {
    hide Sold;
  }

  lemma OrderLater(b: Books, b': Books, o: int)
    requires Later(b, b') && o in b.orders
    ensures o in b'.orders && SameOrder(b.orders[o], b'.orders[o])
  {
  }

  // ---- Contracts paid by hand ----

  /** A settlement marks only contracts that are signed, not confirmed by hand and without payment terms, exactly as the
      lifecycle's own step does; no contract paid by hand is touched, and a student who has one gets nothing from the
      gateway. */
  lemma ManualUntouched(b: Books, r: Payment, now: int, i: int)
    requires i in b.contracts
    ensures var b' := Try(b, Receive(r, now)); i in b'.contracts && b'.contracts[i].student == b.contracts[i].student
    ensures var c, c' := b.contracts[i].contract, Try(b, Receive(r, now)).contracts[i].contract;
      (Manual(c) ==> c' == c) && (c' != c ==> c' == c.(status := PAID, paidAt := Some(now)) && Markable(c))
    ensures Inv(b.contracts[i].contract) ==> Inv(Try(b, Receive(r, now)).contracts[i].contract)
    ensures r.orderId in b.orders && HasManual(b, b.orders[r.orderId].userId) ==>
              Try(b, Receive(r, now)) == b.(orders := Try(b, Receive(r, now)).orders)
  {
    hide Grant;
  }

  /** What an accepted receipt says: the order's own amount and currency, for an order that was open or had succeeded,
      and no other payment on either side. */
  lemma AcceptedMatches(b: Books, r: Payment, now: int)
    requires Settle(b, r, now).Settled?
    ensures r.orderId in b.orders
    ensures var o := b.orders[r.orderId];
      && 0.0 <= r.amount == o.amount && r.currency == o.currency && o.status != ORDER_OTHER
      && (o.providerRef.Some? ==> o.providerRef == Some(r.paymentId))
      && (forall i :: i in b.orders && i != r.orderId ==> b.orders[i].providerRef != Some(r.paymentId))
      && (o.status != ORDER_SUCCESS ==> o.userId in b.accounts)
  {
    hide Sold;
  }

  /** A recorded payment is one of a student with a signed contract and none paid by hand: the student's subscription is
      the order's, everyone else's portrait stays, and all the student's markable contracts are paid now. */
  lemma RecordedPayment(b: Books, r: Payment, now: int)
    requires Settle(b, r, now).Settled? && Settle(b, r, now).books.events != b.events
    ensures r.orderId in b.orders
    ensures var student, b' := b.orders[r.orderId].userId, Settle(b, r, now).books;
      && HasSigned(b, student) && !HasManual(b, student) && TierSlots(b.orders[r.orderId].tier) > 0
      && student in b'.portraits && b'.portraits[student].subscription == b.orders[r.orderId].tier
      && (b.orders[r.orderId].tier == EXPERT_MENTORSHIP ==> b'.portraits[student].balance == 8)
      && b'.portraits == b.portraits[student := b'.portraits[student]]
      && (forall i :: i in b.contracts ==> i in b'.contracts)
      && (forall i :: i in b.contracts && b.contracts[i].student == student ==> !Markable(b'.contracts[i].contract))
      && (forall i :: i in b.contracts && b.contracts[i].student == student && Markable(b.contracts[i].contract) ==>
            b'.contracts[i].contract.status == PAID && b'.contracts[i].contract.paidAt == Some(now))
  {
    hide Grant;
  }

  // ---- Benefits ----

  /** Slots that the receipts for one order add over a history. */
  ghost function GrantedTo(b: Books, steps: seq<PaymentStep>, orderId: int): int
    decreases |steps|
  {
    if steps == [] then 0
    else
      var b' := Try(b, steps[0]);
      (if steps[0].Receive? && steps[0].payment.orderId == orderId then Slots(b'.packages) - Slots(b.packages) else 0)
      + GrantedTo(b', steps[1..], orderId)
  }

  lemma ReceiptGrants(b: Books, r: Payment, now: int)
    ensures var b' := Try(b, Receive(r, now)); var grant := Slots(b'.packages) - Slots(b.packages);
      && (b'.events == b.events ==> grant == 0)
      && (b'.events != b.events ==> (
            && b'.events == b.events + [r.orderId] && r.orderId in b.orders
            && b.orders[r.orderId].status != ORDER_SUCCESS && b'.orders[r.orderId].status == ORDER_SUCCESS
            && b.orders[r.orderId].userId in b.portraits
            && grant == if b.portraits[b.orders[r.orderId].userId].expert.Some?
              then TierSlots(b.orders[r.orderId].tier) else 0))
  {
    hide Slots;
    hide MarkedPaid;
    hide Grant;
    hide HasManual;
    hide HasSigned;
    hide OwnedElsewhere;
    var a := Settle(b, r, now);
    if a.Settled? && a.books.events != b.events {
      var order := b.orders[r.orderId];
      var p := b.portraits[order.userId];
      if p.expert.Some? {
        GrantAdds(b.packages, (order.userId, p.expert.value), TierSlots(order.tier));
      }
    }
  }

  /** Whatever receipts arrive, an order that already succeeded grants nothing, and any other grants its tier's slots at
      most once in the whole history. */
  lemma {:induction false} GrantedAtMostOnce(b: Books, steps: seq<PaymentStep>, orderId: int)
    requires Sound(b) && orderId in b.orders
    ensures GrantedTo(b, steps, orderId) == 0 || GrantedTo(b, steps, orderId) == TierSlots(b.orders[orderId].tier)
    ensures b.orders[orderId].status == ORDER_SUCCESS ==> GrantedTo(b, steps, orderId) == 0
    ensures GrantedTo(b, steps, orderId) != 0 ==> orderId in History(b, steps).events && orderId !in b.events
    decreases |steps|
  {
    hide Slots;
    hide Settle;
    hide Later;
    hide Sound;
    if steps != [] {
      var b' := Try(b, steps[0]);
      StepSound(b, steps[0]);
      OrderLater(b, b', orderId);
      GrantedAtMostOnce(b', steps[1..], orderId);
      EventsKept(b, steps);
      HistorySound(b', steps[1..]);
      EventsGrow(b', History(b, steps), orderId);
      EventsGrow(b, b', orderId);
      SuccessfulEvents(b, orderId);
      if steps[0].Receive? && steps[0].payment.orderId == orderId {
        ReceiptGrants(b, steps[0].payment, steps[0].now);
      }
    }
  }

  lemma EventsKept(b: Books, steps: seq<PaymentStep>)
    requires steps != []
    ensures History(b, steps) == History(Try(b, steps[0]), steps[1..])
  {
  }

  lemma EventsGrow(b: Books, b': Books, orderId: int)
    requires Later(b, b')
    ensures orderId in b.events ==> orderId in b'.events
  {
    if orderId in b.events {
      assert orderId in b'.events[..|b.events|];
    }
  }

  lemma SuccessfulEvents(b: Books, orderId: int)
    requires Sound(b) && orderId in b.orders
    ensures orderId in b.events ==> b.orders[orderId].status == ORDER_SUCCESS
  {
  }

  // ---- When a receipt is accepted, and what it then writes ----

  ghost predicate PaysByHand(b: Books, student: int) {
    exists i :: i in b.contracts && b.contracts[i].student == student
                && !(b.contracts[i].contract.paymentType == None && b.contracts[i].contract.manualConfirmedAt == None)
  }

  ghost predicate HasContract(b: Books, student: int) {
    exists i :: i in b.contracts && b.contracts[i].student == student
        && b.contracts[i].contract.status in {SIGNED, PAID}
  }

  /** The order's own amount and currency, no other payment on either side, and an order that had succeeded or is open,
      pending or failed alike, of an available student who either pays by hand or has a signed contract, a portrait and
      ordered a paid tier. */
  ghost predicate Acceptable(b: Books, r: Payment) {
    && r.orderId in b.orders
    && var o := b.orders[r.orderId];
       && 0.0 <= r.amount == o.amount && r.currency == o.currency
       && (o.providerRef == None || o.providerRef == Some(r.paymentId))
       && (forall i :: i in b.orders && i != r.orderId ==> b.orders[i].providerRef != Some(r.paymentId))
       && (o.status == ORDER_SUCCESS ||
             (&& o.status in {ORDER_PENDING, ORDER_FAILED} && o.userId in b.accounts
              && (PaysByHand(b, o.userId) ||
                    (HasContract(b, o.userId) && o.userId in b.portraits
                     && o.tier in {AI_ROADMAP, EXPERT_MENTORSHIP}))))
  }

  /** The order has succeeded with this payment, and nothing else about it or any other order changes. */
  ghost predicate OrderPaid(b: Books, b': Books, r: Payment)
    requires r.orderId in b.orders
  {
    && (forall i :: i in b'.orders <==> i in b.orders)
    && (forall i :: i in b.orders && i != r.orderId ==> b'.orders[i] == b.orders[i])
    && var o, o' := b.orders[r.orderId], b'.orders[r.orderId];
       && o'.status == ORDER_SUCCESS && o'.providerRef == Some(r.paymentId) && o'.userId == o.userId
       && o'.amount == o.amount && o'.currency == o.currency && o'.tier == o.tier
  }

  /** The student gets the tier: the subscription and, with a mentor, eight consultations; the student's expert, if
      there is one, the package of the tier; and all contracts that only wait for their payment are paid. */
  ghost predicate TierGiven(b: Books, b': Books, student: int, tier: Tier, now: int)
    requires student in b.portraits
  {
    var p := b.portraits[student];
    && (forall i :: i in b'.portraits <==> i in b.portraits)
    && (forall i :: i in b.portraits && i != student ==> b'.portraits[i] == b.portraits[i])
    && b'.portraits[student].subscription == tier && b'.portraits[student].expert == p.expert
    && (tier == EXPERT_MENTORSHIP ==> b'.portraits[student].balance == 8)
    && (tier != EXPERT_MENTORSHIP ==> b'.portraits[student].balance == p.balance)
    && (p.expert.None? ==> b'.packages == b.packages)
    && (p.expert.Some? ==> Gains(b.packages, b'.packages, (student, p.expert.value), TierSlots(tier)))
    && (forall i :: i in b'.contracts <==> i in b.contracts)
    && (forall i :: i in b.contracts ==>
          var h, h' := b.contracts[i], b'.contracts[i];
          if h.student == student && h.contract.status == SIGNED && h.contract.manualConfirmedAt == None
             && h.contract.paymentType == None
          then h' == Held(student, h.contract.(status := PAID, paidAt := Some(now))) else h' == h)
  }

  /** An order that had succeeded, or whose student pays by hand, only gets its reference; any other gives its tier. */
  ghost predicate PaymentWritten(b: Books, b': Books, r: Payment, now: int)
    requires r.orderId in b.orders
  {
    var o := b.orders[r.orderId];
    && OrderPaid(b, b', r) && b'.accounts == b.accounts
    && if o.status == ORDER_SUCCESS || PaysByHand(b, o.userId) then b' == b.(orders := b'.orders)
       else && o.userId in b.portraits && b'.events == b.events + [r.orderId] && TierGiven(b, b', o.userId, o.tier, now)
  }

  lemma SameStudents(b: Books, student: int)
    ensures PaysByHand(b, student) <==> HasManual(b, student)
    ensures HasContract(b, student) <==> HasSigned(b, student)
  {
    if PaysByHand(b, student) {
      var i :| i in b.contracts && b.contracts[i].student == student
               && !(b.contracts[i].contract.paymentType == None && b.contracts[i].contract.manualConfirmedAt == None);
      assert Manual(b.contracts[i].contract);
    }
    if HasContract(b, student) {
      var i :| i in b.contracts && b.contracts[i].student == student
          && b.contracts[i].contract.status in {SIGNED, PAID};
      assert Final(b.contracts[i].contract);
    }
  }

  /** A receipt is accepted exactly when it is acceptable ... */
  lemma AcceptedExactly(b: Books, r: Payment, now: int)
    ensures Settle(b, r, now).Settled? <==> Acceptable(b, r)
  {
    hide Sold;
    hide PaysByHand;
    hide HasContract;
    hide HasManual;
    hide HasSigned;
    if r.orderId in b.orders {
      SameStudents(b, b.orders[r.orderId].userId);
    }
  }

  /** ... and then writes exactly what it should. */
  lemma SettlementWrites(b: Books, r: Payment, now: int)
    requires Settle(b, r, now).Settled?
    ensures r.orderId in b.orders && PaymentWritten(b, Settle(b, r, now).books, r, now)
  {
    hide PaysByHand;
    hide HasContract;
    hide HasManual;
    hide HasSigned;
    hide OwnedElsewhere;
    var o := b.orders[r.orderId];
    SameStudents(b, o.userId);
    hide TierGiven;
    if o.status != ORDER_SUCCESS && !HasManual(b, o.userId) {
      SoldGives(b, Settle(b, r, now).books, o, r.orderId, now);
    }
    hide Sold;
  }

  lemma NoOrder(b: Books, r: Payment, now: int)
    requires r.orderId !in b.orders
    ensures Settle(b, r, now) == Rejected(NotFound)
  {
  }

  lemma SoldGives(b: Books, b': Books, o: Order, orderId: int, now: int)
    requires o.userId in b.portraits && b' == Sold(b, o, orderId, now).(orders := b'.orders)
    ensures TierGiven(b, b', o.userId, o.tier, now)
  {
    if b.portraits[o.userId].expert.Some? {
      GrantGains(b.packages, (o.userId, b.portraits[o.userId].expert.value), TierSlots(o.tier));
    }
    hide Gains;
    hide Grant;
  }

  // ---- The repository ----

  class TransactionRepository {
    var orders: map<int, Order>
    const accounts: set<int>
    var contracts: map<int, Held>
    var portraits: map<int, StudentPortrait>
    var packages: map<(int, int), Package>
    var events: seq<int>

    function State(): Books
      reads this
    {
      Books(orders, accounts, contracts, portraits, packages, events)
    }

    constructor (b: Books)
      ensures State() == b
    {
      orders, accounts, contracts, portraits, packages, events :=
          b.orders, b.accounts, b.contracts, b.portraits, b.packages, b.events;
    }

    method SettleFreedomPayment(r: Payment, now: int) returns (error: Option<Error>)
      modifies this
      ensures error == match Settle(old(State()), r, now) case Settled(_) => None case Rejected(e) => Some(e)
      ensures State() == Try(old(State()), Receive(r, now))
      // Accepted exactly when it is acceptable; then it writes what it should, and otherwise nothing.
      ensures error == None <==> Acceptable(old(State()), r)
      ensures error == None ==> r.orderId in old(orders) && PaymentWritten(old(State()), State(), r, now)
      ensures error != None ==> State() == old(State())
      ensures r.orderId !in old(orders) ==> error == Some(NotFound)
    {
      AcceptedExactly(State(), r, now);
      if Settle(State(), r, now).Settled? {
        SettlementWrites(State(), r, now);
      }
      hide Settle;
      hide Acceptable;
      hide PaymentWritten;
      if r.orderId !in orders {
        NoOrder(State(), r, now);
      }
      error := CheckAndSettle(r, now);
    }

    /** The checks of a settlement and, when they pass, its writes. */
    method CheckAndSettle(r: Payment, now: int) returns (error: Option<Error>)
      modifies this
      ensures error == match Settle(old(State()), r, now) case Settled(_) => None case Rejected(e) => Some(e)
      ensures State() == Try(old(State()), Receive(r, now))
    {
      hide Grant;
      var before := State();
      if r.orderId !in orders { return Some(NotFound); }
      var order := orders[r.orderId];
      if r.amount < 0.0 || order.amount != r.amount || order.currency != r.currency { return Some(BadRequest); }
      if order.providerRef.Some? && order.providerRef.value != r.paymentId { return Some(Conflict); }
      if exists o :: o in orders && o != r.orderId && orders[o].providerRef == Some(r.paymentId) {
        return Some(Conflict);
      }
      if order.status == ORDER_SUCCESS {
        if order.providerRef.None? {
          orders := orders[r.orderId := order.(providerRef := Some(r.paymentId))];
        }
        assert orders == before.orders[r.orderId := order.(providerRef := Some(r.paymentId))];
        return None;
      }
      if order.status == ORDER_OTHER { return Some(Conflict); }
      if order.userId !in accounts { return Some(Conflict); }
      if !HasManual(before, order.userId) {
        if !HasSigned(before, order.userId) { return Some(Conflict); }
        if order.userId !in portraits { return Some(NotFound); }
        var p := portraits[order.userId];
        var balance := if order.tier == EXPERT_MENTORSHIP then 8 else p.balance;
        portraits := portraits[order.userId := p.(subscription := order.tier, balance := balance)];
        var totalSlots := TierSlots(order.tier);
        if totalSlots == 0 {
          portraits := before.portraits; // the transaction rolls back
          return Some(Conflict);
        }
        if p.expert.Some? {
          packages := Grant(packages, (order.userId, p.expert.value), totalSlots);
        }
        contracts := MarkedPaid(contracts, order.userId, now);
        events := events + [r.orderId];
      }
      orders := orders[r.orderId := order.(status := ORDER_SUCCESS, providerRef := Some(r.paymentId))];
      error := None;
    }
  }
}
