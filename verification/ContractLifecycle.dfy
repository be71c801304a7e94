/** The life of one contract: expert and student signatures, a signature recorded by hand, manual confirmation with its
    first payment, the later instalments, edits of the terms and the mark an online payment leaves. Every operation is
    one transaction. An expert profile is named by the user it belongs to; instants are milliseconds. */
module ContractLifecycle {
  import opened Prelude
  import opened Calendar
  import opened InstallmentSchedule
  import opened Packages

  datatype Status = PENDING_EXPERT | PENDING_STUDENT | SIGNED | PAID
  datatype LeadStatus = NEW | CALL_SCHEDULED | RECALL | REJECTED | OFFICE_INVITED | CONTRACT_PENDING | CONVERTED

  datatype Installment = Installment(item: Item, paidAt: Option<int>)
  datatype Contract = Contract(tier: Tier, price: real, currency: string, paymentType: Option<PaymentType>,
                               installmentCount: Option<int>, status: Status, signedBy: Option<int>,
                               studentSignedAt: Option<int>, expertSignedAt: Option<int>, paidAt: Option<int>,
                               manualConfirmedAt: Option<int>, installments: seq<Installment>)
  datatype Lead = Lead(status: LeadStatus, expert: Option<int>)
  datatype Portrait = Portrait(subscription: Tier, expert: Option<int>)

  /** The rows a contract's transactions read and write; packages are the student's, by expert. */
  datatype Desk = Desk(contract: Contract, lead: Option<Lead>, portrait: Option<Portrait>, packages: map<int, Package>,
                       experts: set<int>)

  datatype Error = Conflict | BadRequest | NotFound
  datatype Outcome = Done(desk: Desk) | Refused(error: Error)

  function Or<T>(a: Option<T>, b: Option<T>): Option<T> {
    if a.Some? then a else b
  }

  // ---- Signing ----

  function ExpertSign(d: Desk, actor: int, now: int): Outcome {
    var c := d.contract;
    if c.status != PENDING_EXPERT then Refused(Conflict)
    else Done(d.(contract := c.(signedBy := Some(actor), status := PENDING_STUDENT, expertSignedAt := Some(now))))
  }

  function Signed(c: Contract, now: int): Contract {
    c.(status := SIGNED, studentSignedAt := Some(now))
  }

  function Benefits(d: Desk, tier: Tier, expert: int): Desk {
    d.(portrait := Some(Portrait(tier, Some(expert))),
       packages := if TierSlots(tier) != 0 then Grant(d.packages, expert, TierSlots(tier)) else d.packages)
  }

  function StudentSign(d: Desk, codeValid: bool, now: int): Outcome {
    var c := d.contract;
    if c.status != PENDING_STUDENT || (d.lead.Some? && d.lead.value.status != CONTRACT_PENDING) then Refused(Conflict)
    else if !codeValid then Refused(Conflict)
    else if d.lead.None? then Done(d.(contract := Signed(c, now)))
    else if d.lead.value.expert.None? || c.signedBy != d.lead.value.expert then Refused(Conflict)
    else
      var expert := d.lead.value.expert.value;
      if expert !in d.experts then Refused(Conflict)
      else if d.portrait.None? then Refused(NotFound)
      else if d.portrait.value.expert.Some? && d.portrait.value.expert.value != expert then Refused(Conflict)
      else Done(Benefits(d, c.tier, expert).(contract := Signed(c, now),
                                             lead := Some(d.lead.value.(status := CONVERTED))))
  }

  function RecordSignature(d: Desk, signedAt: int, now: int): Outcome {
    var c := d.contract;
    if signedAt > now then Refused(BadRequest)
    else if c.manualConfirmedAt.Some? || c.status == SIGNED || c.status == PAID then Refused(Conflict)
    else Done(d.(contract := c.(studentSignedAt := Some(signedAt))))
  }

  // ---- Manual confirmation ----

  /** What the actor reports: the first payment, when it was made and on which Almaty date, and perhaps the
      signature. */
  datatype Receipt = Receipt(amount: real, paidAt: int, local: Civil, signedAt: Option<int>)

  predicate AmountIs(amount: real, tiyn: int) {
    amount * 100.0 == tiyn as real
  }

  /** A confirmation that repeats the one on record is answered with the contract as it is. */
  function Replay(d: Desk, r: Receipt, now: int): Outcome {
    var c := d.contract;
    if c.installments == [] || c.installments[0].paidAt.None? then Refused(Conflict)
    else if r.paidAt > now then Refused(BadRequest)
    else if c.installments[0].paidAt != Some(r.paidAt) || !AmountIs(r.amount, c.installments[0].item.amount)
      then Refused(Conflict)
    else if r.signedAt.Some? && r.signedAt.value > now then Refused(BadRequest)
    else if r.signedAt.Some? && c.studentSignedAt != r.signedAt then Refused(Conflict)
    else Done(d)
  }

  /** Whether benefits of a contract signed earlier can still be seen. */
  predicate HistoricalBenefits(d: Desk, competing: bool) {
    && d.portrait.Some? && d.portrait.value.expert.Some? && d.portrait.value.expert.value in d.packages
    && TierSlots(d.contract.tier) != 0 && d.portrait.value.subscription == d.contract.tier
    && (var p := d.packages[d.portrait.value.expert.value];
        TierSlots(d.contract.tier) <= p.totalSlots && 0 <= p.usedSlots <= p.totalSlots)
    && !competing
  }

  /** The expert a confirmation counts for. */
  function Owner(d: Desk, actor: int, admin: bool): Option<int> {
    var current := if d.portrait.Some? then d.portrait.value.expert else None;
    var pending := if d.lead.Some? && d.lead.value.status == CONTRACT_PENDING then d.lead.value.expert else None;
    Or(Or(current, pending), if admin then None else Some(actor))
  }

  function FirstPaid(plan: seq<Item>, paidAt: int): seq<Installment> {
    seq(|plan|, i requires 0 <= i < |plan| => Installment(plan[i], if i == 0 then Some(paidAt) else None))
  }

  function Confirmed(d: Desk, terms: Terms, plan: seq<Item>, paidAt: int, signedAt: int, owner: Option<int>,
                     now: int): Contract {
    var c := d.contract;
    var one := terms.installmentCount == 1;
    c.(paymentType := Some(terms.paymentType), installmentCount := Some(terms.installmentCount),
       status := if one then PAID else SIGNED, paidAt := if one then Some(paidAt) else None,
       studentSignedAt := Some(signedAt), expertSignedAt := Or(c.expertSignedAt, Some(signedAt)),
       signedBy := Or(c.signedBy, Or(if d.lead.Some? then d.lead.value.expert else None, owner)),
       manualConfirmedAt := Some(now), installments := FirstPaid(plan, paidAt))
  }

  /** The portrait and package of a confirmation that grants benefits. */
  function ConfirmedBenefits(d: Desk, expert: Option<int>): Desk {
    var tier := d.contract.tier;
    if expert.Some? then Benefits(d, tier, expert.value)
    else d.(portrait := Some(Portrait(tier, if d.portrait.Some? then d.portrait.value.expert else None)))
  }

  function Confirm(d: Desk, r: Receipt, actor: int, admin: bool, competing: bool, now: int): Outcome {
    var c := d.contract;
    if c.manualConfirmedAt.Some? then Replay(d, r, now)
    else if c.status == PAID then Refused(Conflict)
    else if c.status == SIGNED && !HistoricalBenefits(d, competing) then Refused(Conflict)
    else if d.lead.Some? && d.lead.value.status != CONTRACT_PENDING && d.lead.value.status != CONVERTED
      then Refused(Conflict)
    else
      var signature := Or(r.signedAt, c.studentSignedAt);
      if signature.None? || signature.value > now || r.paidAt > now then Refused(BadRequest)
      else
        var paymentType := if c.paymentType.Some? then c.paymentType.value else FULL;
        var terms := CommercialTerms(c.price, c.currency, c.tier, paymentType, c.installmentCount, true, true);
        if terms.None? then Refused(BadRequest)
        else
          var plan := Plan(c.price, terms.value.installmentCount, r.local);
          if plan.None? || plan.value == [] || !AmountIs(r.amount, plan.value[0].amount) then Refused(BadRequest)
          else
            var owner := Owner(d, actor, admin);
            var expert := if owner.Some? && owner.value in d.experts then owner else None;
            if d.lead.Some? && expert.None? then Refused(Conflict)
            else if d.portrait.Some? && d.portrait.value.expert.Some? && d.portrait.value.expert != expert
              then Refused(Conflict)
            else
              var granted := if c.status == SIGNED then d else ConfirmedBenefits(d, expert);
              Done(granted.(contract := Confirmed(d, terms.value, plan.value, r.paidAt, signature.value, owner, now),
                            lead := if d.lead.Some? then Some(d.lead.value.(status := CONVERTED)) else None))
  }

  // ---- Later instalments ----

  function FindNumber(s: seq<Installment>, number: int): (r: Option<nat>)
    ensures r.Some? ==>
              && r.value < |s| && s[r.value].item.number == number
              && forall i :: 0 <= i < r.value ==> s[i].item.number != number
    ensures r.None? ==> forall i :: 0 <= i < |s| ==> s[i].item.number != number
    decreases |s|
  {
    if s == [] then None
    else if s[0].item.number == number then Some(0)
    else
      var r := FindNumber(s[1..], number);
      assert forall i :: 1 <= i < |s| ==> s[i] == s[1..][i - 1];
      if r.Some? then Some(r.value + 1) else None
  }

  predicate InOrder(s: seq<Installment>, number: int, paidAt: int) {
    forall i :: 0 <= i < |s| && s[i].item.number < number ==> s[i].paidAt.Some? && s[i].paidAt.value <= paidAt
  }

  predicate FullyPaid(s: seq<Installment>) {
    forall i :: 0 <= i < |s| ==> s[i].paidAt.Some?
  }

  function ConfirmInstallment(d: Desk, number: int, amount: real, paidAt: int, now: int): Outcome {
    var c := d.contract;
    if paidAt > now then Refused(BadRequest)
    else if c.manualConfirmedAt.None? then Refused(Conflict)
    else
      var found := FindNumber(c.installments, number);
      if found.None? || !AmountIs(amount, c.installments[found.value].item.amount) then Refused(BadRequest)
      else
        var installment := c.installments[found.value];
        if installment.paidAt.Some? then (if installment.paidAt != Some(paidAt) then Refused(Conflict) else Done(d))
        else if !InOrder(c.installments, number, paidAt) then Refused(BadRequest)
        else
          var paid := c.installments[found.value := installment.(paidAt := Some(paidAt))];
          Done(d.(contract := if FullyPaid(paid) then c.(installments := paid, status := PAID, paidAt := Some(paidAt))
                              else c.(installments := paid)))
  }

  // ---- Edits and online payments ----

  datatype Edit = Edit(price: Option<real>, currency: Option<string>, paymentType: Option<PaymentType>,
                       installmentCount: Option<int>)

  function UpdateMeta(d: Desk, e: Edit, datesInOrder: bool): Outcome {
    var c := d.contract;
    if c.status == SIGNED || c.status == PAID then Refused(BadRequest)
    else if c.studentSignedAt.Some? then Refused(Conflict)
    else
      var edited := c.(price := if e.price.Some? then e.price.value else c.price,
                       currency := if e.currency.Some? && e.currency.value != "" then e.currency.value else c.currency);
      if e.price.None? && e.currency.None? && e.paymentType.None? && e.installmentCount.None? then
        if !datesInOrder then Refused(BadRequest) else Done(d.(contract := edited))
      else
        var paymentType := Or(e.paymentType, Or(c.paymentType, Some(FULL))).value;
        var count := Or(e.installmentCount, if e.paymentType == Some(FULL) then Some(1) else c.installmentCount);
        var currency := if e.currency.Some? then e.currency.value else c.currency;
        var kept := e.price.None? && e.currency.None?;
        var terms := CommercialTerms(edited.price, currency, c.tier, paymentType, count, kept, false);
        if terms.None? || !datesInOrder then Refused(BadRequest)
        else Done(d.(contract := edited.(paymentType := Some(terms.value.paymentType),
                                         installmentCount := Some(terms.value.installmentCount))))
  }

  predicate Markable(c: Contract) {
    c.status == SIGNED && c.manualConfirmedAt.None? && c.paymentType.None?
  }

  function MarkPaid(d: Desk, now: int): Outcome {
    if Markable(d.contract) then Done(d.(contract := d.contract.(status := PAID, paidAt := Some(now)))) else Done(d)
  }

  // ---- Runs ----

  /** Around the contract anything may happen to the lead, the portrait, the packages and the experts, except that the
      lead a contract came from stays linked to it. */
  datatype Step =
    | DoExpertSign(actor: int, now: int)
    | DoStudentSign(codeValid: bool, now: int)
    | DoRecordSignature(signedAt: int, now: int)
    | DoConfirm(receipt: Receipt, actor: int, admin: bool, competing: bool, now: int)
    | DoConfirmInstallment(number: int, amount: real, paidAt: int, now: int)
    | DoUpdateMeta(edit: Edit, datesInOrder: bool)
    | DoMarkPaid(now: int)
    | Elsewhere(lead: Lead, portrait: Option<Portrait>, packages: map<int, Package>, experts: set<int>)

  function Attempt(d: Desk, s: Step): Outcome {
    match s
    case DoExpertSign(actor, now) => ExpertSign(d, actor, now)
    case DoStudentSign(codeValid, now) => StudentSign(d, codeValid, now)
    case DoRecordSignature(signedAt, now) => RecordSignature(d, signedAt, now)
    case DoConfirm(receipt, actor, admin, competing, now) => Confirm(d, receipt, actor, admin, competing, now)
    case DoConfirmInstallment(number, amount, paidAt, now) => ConfirmInstallment(d, number, amount, paidAt, now)
    case DoUpdateMeta(edit, datesInOrder) => UpdateMeta(d, edit, datesInOrder)
    case DoMarkPaid(now) => MarkPaid(d, now)
    case Elsewhere(lead, portrait, packages, experts) =>
      Done(Desk(d.contract, if d.lead.Some? then Some(lead) else None, portrait, packages, experts))
  }

  function After(d: Desk, o: Outcome): Desk {
    if o.Done? then o.desk else d
  }

  function Apply(d: Desk, s: Step): Desk {
    After(d, Attempt(d, s))
  }

  function Run(d: Desk, steps: seq<Step>): Desk
    decreases |steps|
  {
    if steps == [] then d else Run(Apply(d, steps[0]), steps[1..])
  }

  // ---- What every run keeps ----

  function Items(s: seq<Installment>): seq<Item> {
    seq(|s|, i requires 0 <= i < |s| => s[i].item)
  }

  /** The first k instalments are paid, no earlier one later than a later one, and the others are not. */
  predicate PaidUpTo(s: seq<Installment>, k: nat) {
    && k <= |s|
    && (forall i :: 0 <= i < |s| ==> (s[i].paidAt.Some? <==> i < k))
    && (forall i, j :: 0 <= i <= j < k ==> s[i].paidAt.value <= s[j].paidAt.value)
  }

  /** A manually confirmed contract: its instalments are the plan of its price, a non-empty prefix of them is paid, and
      it is PAID, since the last payment, exactly when all of them are. */
  ghost predicate ConfirmedWell(c: Contract) {
    && c.paymentType.Some? && c.installmentCount == Some(|c.installments|) && c.studentSignedAt.Some?
       && c.expertSignedAt.Some?
    && (exists local :: Plan(c.price, |c.installments|, local) == Some(Items(c.installments)))
    && (exists k: nat :: k > 0 && PaidUpTo(c.installments, k)
          && c.status == (if k == |c.installments| then PAID else SIGNED)
          && c.paidAt == (if k == |c.installments| then c.installments[k - 1].paidAt else None))
  }

  ghost predicate Inv(c: Contract) {
    if c.manualConfirmedAt.Some? then ConfirmedWell(c)
    else c.installments == [] && (c.paidAt.Some? <==> c.status == PAID)
  }

  lemma ConfirmKeeps(d: Desk, r: Receipt, actor: int, admin: bool, competing: bool, now: int)
    requires Inv(d.contract)
    ensures Inv(After(d, Confirm(d, r, actor, admin, competing, now)).contract)
  {
    hide Plan;
    var o := Confirm(d, r, actor, admin, competing, now);
    if o.Done? && d.contract.manualConfirmedAt.None? {
      var c := o.desk.contract;
      assert PaidUpTo(c.installments, 1);
      var n := c.installmentCount.value;
      PlanLength(c.price, n, r.local);
      assert Items(c.installments) == Plan(c.price, n, r.local).value;
    }
  }

  lemma PlanLength(price: real, count: int, local: Civil)
    ensures Plan(price, count, local).Some? && count > 0 ==> |Plan(price, count, local).value| == count
  {
    hide DueDate;
  }

  lemma InstallmentKeeps(d: Desk, number: int, amount: real, paidAt: int, now: int)
    requires Inv(d.contract)
    ensures Inv(After(d, ConfirmInstallment(d, number, amount, paidAt, now)).contract)
  {
    hide Plan;
    var o := ConfirmInstallment(d, number, amount, paidAt, now);
    var c := d.contract;
    if o.Done? && o.desk != d {
      var s, s' := c.installments, o.desk.contract.installments;
      var k: nat :| k > 0 && PaidUpTo(s, k);
      var f := FindNumber(s, number).value;
      NumbersCount(c);
      assert s[f].paidAt.None? && s[f].item.number == f + 1;
      assert forall i :: 0 <= i < f ==> s[i].item.number < number && s[i].paidAt.Some?;
      assert k <= f && s[k].paidAt.None?;
      assert f == k;
      assert s' == s[k := s[k].(paidAt := Some(paidAt))];
      assert forall i :: 0 <= i < k ==> s[i].item.number < number && s[i].paidAt.value <= paidAt;
      assert PaidUpTo(s', k + 1);
      if k + 1 == |s| {
        assert FullyPaid(s');
      } else {
        assert s'[k + 1].paidAt.None?;
      }
      assert Items(s') == Items(s);
    }
  }

  lemma NumbersCount(c: Contract)
    requires ConfirmedWell(c)
    ensures forall i :: 0 <= i < |c.installments| ==> c.installments[i].item.number == i + 1
  {
    hide DueDate;
    forall i | 0 <= i < |c.installments| ensures c.installments[i].item.number == i + 1 {
      assert c.installments[i].item == Items(c.installments)[i];
    }
  }

  lemma StepKeeps(d: Desk, s: Step)
    requires Inv(d.contract)
    ensures Inv(Apply(d, s).contract)
  {
    hide Plan;
    hide CommercialTerms;
    match s
    case DoConfirm(receipt, actor, admin, competing, now) => ConfirmKeeps(d, receipt, actor, admin, competing, now);
    case DoConfirmInstallment(number, amount, paidAt, now) => InstallmentKeeps(d, number, amount, paidAt, now);
    case _ =>
  }

  lemma {:induction false} RunKeeps(d: Desk, steps: seq<Step>)
    requires Inv(d.contract)
    ensures Inv(Run(d, steps).contract)
    decreases |steps|
  {
    if steps != [] {
      StepKeeps(d, steps[0]);
      RunKeeps(Apply(d, steps[0]), steps[1..]);
    }
  }

  // ---- Nothing moves once a contract is manually confirmed or paid ----

  predicate SameTerms(c: Contract, c': Contract) {
    && c'.tier == c.tier && c'.price == c.price && c'.currency == c.currency && c'.paymentType == c.paymentType
    && c'.installmentCount == c.installmentCount && c'.signedBy == c.signedBy && c'.studentSignedAt == c.studentSignedAt
    && c'.expertSignedAt == c.expertSignedAt && c'.manualConfirmedAt == c.manualConfirmedAt
    && |c'.installments| == |c.installments|
    && (forall i :: 0 <= i < |c.installments| ==>
          && c'.installments[i].item == c.installments[i].item
          && (c.installments[i].paidAt.Some? ==> c'.installments[i].paidAt == c.installments[i].paidAt))
  }

  lemma StepFreezes(d: Desk, s: Step)
    requires Inv(d.contract) && d.contract.manualConfirmedAt.Some?
    ensures SameTerms(d.contract, Apply(d, s).contract)
  {
    hide Plan;
    hide CommercialTerms;
  }

  /** After manual confirmation price, terms, signatures and plan never change, and a payment on record stays on
      record. */
  lemma {:induction false} TermsFrozen(d: Desk, steps: seq<Step>)
    requires Inv(d.contract) && d.contract.manualConfirmedAt.Some?
    ensures SameTerms(d.contract, Run(d, steps).contract) && ConfirmedWell(Run(d, steps).contract)
    decreases |steps|
  {
    if steps != [] {
      StepFreezes(d, steps[0]);
      StepKeeps(d, steps[0]);
      TermsFrozen(Apply(d, steps[0]), steps[1..]);
    }
  }

  lemma StepPaidFinal(d: Desk, s: Step)
    requires Inv(d.contract) && d.contract.status == PAID
    ensures Apply(d, s).contract == d.contract
  {
    hide Plan;
    hide CommercialTerms;
    if d.contract.manualConfirmedAt.Some? {
      assert FullyPaid(d.contract.installments);
    }
  }

  /** A paid contract never changes again. */
  lemma {:induction false} PaidIsFinal(d: Desk, steps: seq<Step>)
    requires Inv(d.contract) && d.contract.status == PAID
    ensures Run(d, steps).contract == d.contract
    decreases |steps|
  {
    if steps != [] {
      StepPaidFinal(d, steps[0]);
      PaidIsFinal(Apply(d, steps[0]), steps[1..]);
    }
  }

  /** Whatever happens after a confirmation, repeating it later is answered with the contract and changes nothing. */
  lemma ConfirmationReplays(d: Desk, r: Receipt, actor: int, admin: bool, competing: bool, now: int, steps: seq<Step>,
                            actor': int, admin': bool, competing': bool, now': int)
    requires Inv(d.contract) && Confirm(d, r, actor, admin, competing, now).Done? && now <= now'
    ensures var d' := Run(Confirm(d, r, actor, admin, competing, now).desk, steps);
      Confirm(d', r, actor', admin', competing', now') == Done(d')
  {
    hide Plan;
    hide CommercialTerms;
    ConfirmKeeps(d, r, actor, admin, competing, now);
    var d0 := Confirm(d, r, actor, admin, competing, now).desk;
    TermsFrozen(d0, steps);
    assert d0.contract.installments[0].paidAt == Some(r.paidAt);
  }

  /** The same for an instalment. */
  lemma InstallmentReplays(d: Desk, number: int, amount: real, paidAt: int, now: int, steps: seq<Step>, now': int)
    requires Inv(d.contract) && ConfirmInstallment(d, number, amount, paidAt, now).Done? && now <= now'
    ensures var d' := Run(ConfirmInstallment(d, number, amount, paidAt, now).desk, steps);
      ConfirmInstallment(d', number, amount, paidAt, now') == Done(d')
  {
    hide Plan;
    InstallmentKeeps(d, number, amount, paidAt, now);
    var d0 := ConfirmInstallment(d, number, amount, paidAt, now).desk;
    TermsFrozen(d0, steps);
    NumbersCount(d.contract);
    NumbersCount(d0.contract);
    var d' := Run(d0, steps);
    NumbersCount(d'.contract);
    var f := FindNumber(d.contract.installments, number).value;
    assert d0.contract.installments[f].paidAt == Some(paidAt);
    assert d'.contract.installments[f].item.number == number;
  }

  /** With k instalments paid, exactly the next one can be paid: for its scheduled amount, and at a time that is neither
      in the future nor before the last payment. */
  lemma ExactlyTheNextIsPayable(d: Desk, k: nat, number: int, amount: real, paidAt: int, now: int)
    requires Inv(d.contract) && d.contract.manualConfirmedAt.Some? && k > 0 && PaidUpTo(d.contract.installments, k)
    ensures var s := d.contract.installments;
      var o := ConfirmInstallment(d, number, amount, paidAt, now);
      && (o.Done? && o.desk != d <==>
            && number == k + 1 <= |s| && AmountIs(amount, s[k].item.amount) && s[k - 1].paidAt.value <= paidAt <= now)
      && (o.Done? && o.desk != d ==> PaidUpTo(o.desk.contract.installments, k + 1))
  {
    hide Plan;
    NumbersCount(d.contract);
    var s := d.contract.installments;
    var found := FindNumber(s, number);
    if found.Some? {
      var f := found.value;
      assert s[f].item.number == f + 1;
      if f > k {
        assert s[k].item.number < number;
      } else if f == k {
        NextPaid(s, k, paidAt);
      }
    }
  }

  lemma NextPaid(s: seq<Installment>, k: nat, paidAt: int)
    requires 0 < k < |s| && PaidUpTo(s, k) && forall i :: 0 <= i < |s| ==> s[i].item.number == i + 1
    ensures InOrder(s, k + 1, paidAt) <==> s[k - 1].paidAt.value <= paidAt
    ensures InOrder(s, k + 1, paidAt) ==> PaidUpTo(s[k := s[k].(paidAt := Some(paidAt))], k + 1)
    ensures s[k := s[k].(paidAt := Some(paidAt))] != s
  {
    assert s[k - 1].item.number < k + 1;
    assert s[k := s[k].(paidAt := Some(paidAt))][k] != s[k];
  }

  // ---- Signatures fix what was signed ----

  /** The terms a signature is about; what the contract left open may still be filled in, with what was implied. */
  predicate TermsKept(c: Contract, c': Contract) {
    && c'.tier == c.tier && c'.price == c.price && c'.currency == c.currency && c'.studentSignedAt.Some?
    && (c.paymentType.Some? ==> c'.paymentType == c.paymentType)
    && (c.installmentCount.Some? ==> c'.installmentCount == c.installmentCount)
  }

  lemma StepKeepsSigned(d: Desk, s: Step)
    requires d.contract.studentSignedAt.Some?
    ensures TermsKept(d.contract, Apply(d, s).contract)
  {
    hide Plan;
    hide PriceAllowed;
  }

  /** From the student's signature on, however it was given, no run changes price, currency, tier, payment type or
      count. */
  lemma {:induction false} SignedTermsKept(d: Desk, steps: seq<Step>)
    requires d.contract.studentSignedAt.Some?
    ensures TermsKept(d.contract, Run(d, steps).contract)
    decreases |steps|
  {
    if steps != [] {
      StepKeepsSigned(d, steps[0]);
      SignedTermsKept(Apply(d, steps[0]), steps[1..]);
    }
  }

  /** An edit succeeds only on a contract nobody's final signature is on, touches nothing but the terms, and leaves
      terms a new contract may have: one payment in full or two to three instalments, and a listed price in tenge if
      price or currency was given. */
  lemma EditsAreTerms(d: Desk, e: Edit, datesInOrder: bool)
    requires UpdateMeta(d, e, datesInOrder).Done?
    ensures !Final(d.contract) && d.contract.studentSignedAt.None? && datesInOrder
    ensures var c, c' := d.contract, UpdateMeta(d, e, datesInOrder).desk.contract;
      && UpdateMeta(d, e, datesInOrder).desk == d.(contract := c')
      && c' == c.(price := c'.price, currency := c'.currency, paymentType := c'.paymentType,
                  installmentCount := c'.installmentCount)
      && (e.price.Some? ==> c'.price == e.price.value) && (e.price.None? ==> c'.price == c.price)
      && (e.price.Some? || e.currency.Some? ==> c'.currency == "KZT" && (c'.price == 1500000.0 || c'.price == 750000.0))
      && (e.price.Some? || e.currency.Some? || e.paymentType.Some? || e.installmentCount.Some? ==> (
            && c'.paymentType.Some? && c'.installmentCount.Some?
               && 1 <= c'.installmentCount.value <= MAX_NEW_INSTALLMENTS
            && (c'.paymentType == Some(FULL) <==> c'.installmentCount == Some(1))
            && (e.installmentCount.Some? ==> c'.installmentCount == e.installmentCount)
            && (e.paymentType.Some? ==> c'.paymentType == e.paymentType)))
  {
  }

  /** A contract from a lead that both sides signed in turn was signed by the lead's expert, and carries both times. */
  lemma BothSigned(d: Desk, actor: int, codeValid: bool, first: int, second: int)
    requires d.lead.Some? && ExpertSign(d, actor, first).Done?
    requires StudentSign(ExpertSign(d, actor, first).desk, codeValid, second).Done?
    ensures d.lead.value.expert == Some(actor) && actor in d.experts && codeValid
    ensures StudentSign(ExpertSign(d, actor, first).desk, codeValid, second).desk.contract
            == d.contract.(status := SIGNED, signedBy := Some(actor), expertSignedAt := Some(first),
                           studentSignedAt := Some(second))
  {
  }

  // ---- Benefits are granted exactly once ----

  predicate Final(c: Contract) {
    c.status == SIGNED || c.status == PAID
  }

  /** The slots a contract in its present state is worth. */
  function Worth(c: Contract): int {
    if Final(c) then TierSlots(c.tier) else 0
  }

  /** Slots that a step of the contract adds to the student's packages; what happens elsewhere does not count. */
  ghost function StepGrant(d: Desk, s: Step): int {
    if s.Elsewhere? then 0 else Slots(Apply(d, s).packages) - Slots(d.packages)
  }

  ghost function Granted(d: Desk, steps: seq<Step>): int
    decreases |steps|
  {
    if steps == [] then 0 else StepGrant(d, steps[0]) + Granted(Apply(d, steps[0]), steps[1..])
  }

  lemma BenefitsAdd(d: Desk, tier: Tier, expert: int)
    ensures Slots(Benefits(d, tier, expert).packages) == Slots(d.packages) + TierSlots(tier)
  {
    hide Slots;
    GrantAdds(d.packages, expert, TierSlots(tier));
  }

  lemma StepGrantsWorth(d: Desk, s: Step)
    requires Inv(d.contract) && d.lead.Some?
    ensures Apply(d, s).lead.Some? && Apply(d, s).contract.tier == d.contract.tier
    ensures StepGrant(d, s) == Worth(Apply(d, s).contract) - Worth(d.contract)
  {
    hide Plan;
    hide CommercialTerms;
    hide Benefits;
    hide Slots;
    var d' := Apply(d, s);
    if s.DoStudentSign? && Attempt(d, s).Done? {
      BenefitsAdd(d, d.contract.tier, d.lead.value.expert.value);
    } else if s.DoConfirm? && Attempt(d, s).Done? && d.contract.manualConfirmedAt.None? && d.contract.status != SIGNED {
      BenefitsAdd(d, d.contract.tier, Owner(d, s.actor, s.admin).value);
    }
  }

  lemma {:induction false} RunGrantsWorth(d: Desk, steps: seq<Step>)
    requires Inv(d.contract) && d.lead.Some?
    ensures Run(d, steps).contract.tier == d.contract.tier
    ensures Granted(d, steps) == Worth(Run(d, steps).contract) - Worth(d.contract)
    decreases |steps|
  {
    hide Inv;
    if steps != [] {
      StepGrantsWorth(d, steps[0]);
      StepKeeps(d, steps[0]);
      RunGrantsWorth(Apply(d, steps[0]), steps[1..]);
    }
  }

  /** A contract that came from a lead brings its tier's slots exactly once if it ends up signed or paid, however it got
      there and however often anything was repeated, and none as long as it does not. */
  lemma SlotsExactlyOnce(d: Desk, steps: seq<Step>)
    requires Inv(d.contract) && d.lead.Some? && !Final(d.contract)
    ensures Granted(d, steps) == if Final(Run(d, steps).contract) then TierSlots(d.contract.tier) else 0
  {
    hide Inv;
    RunGrantsWorth(d, steps);
  }

  /** The step that finalises such a contract gives the whole grant to one expert with a profile, who becomes the
      student's, leaves the other packages alone, sets the subscription and converts the lead. */
  lemma FinalisedForOneExpert(d: Desk, s: Step) returns (expert: int)
    requires Inv(d.contract) && d.lead.Some? && !Final(d.contract) && Final(Apply(d, s).contract)
    ensures var d' := Apply(d, s);
      && expert in d.experts && d'.portrait == Some(Portrait(d.contract.tier, Some(expert)))
      && d'.lead.value.status == CONVERTED
      && (TierSlots(d.contract.tier) > 0 ==> d'.packages == Grant(d.packages, expert, TierSlots(d.contract.tier)))
      && (d.portrait.Some? && d.portrait.value.expert.Some? ==> d.portrait.value.expert.value == expert)
      && d'.contract.signedBy.Some? && d'.contract.studentSignedAt.Some? && d'.experts == d.experts
      && (s.DoStudentSign? ==> d'.contract.signedBy == Some(expert) && d'.contract.studentSignedAt == Some(s.now))
  {
    hide Plan;
    hide CommercialTerms;
    if s.DoStudentSign? {
      expert := d.lead.value.expert.value;
    } else if s.DoConfirm? {
      expert := Owner(d, s.actor, s.admin).value;
    }
  }

  // ---- What every single operation keeps ----

  /** From one state of the rows to the next: the invariant; nothing fixed by confirmation, signature or full payment
      moves; and a lead's contract brings its slots exactly when it becomes final. */
  ghost predicate Kept(d: Desk, d': Desk) {
    && (d.contract.studentSignedAt.Some? ==> TermsKept(d.contract, d'.contract))
    && (Inv(d.contract) ==> Inv(d'.contract))
    && (Inv(d.contract) && d.contract.manualConfirmedAt.Some? ==> SameTerms(d.contract, d'.contract))
    && (Inv(d.contract) && d.contract.status == PAID ==> d'.contract == d.contract)
    && (Inv(d.contract) && d.lead.Some? ==>
        Slots(d'.packages) - Slots(d.packages) == Worth(d'.contract) - Worth(d.contract))
  }

  lemma StepKept(d: Desk, s: Step)
    requires !s.Elsewhere?
    ensures Kept(d, Apply(d, s))
  {
    hide Apply;
    hide Inv;
    hide TermsKept;
    hide SameTerms;
    hide Slots;
    if d.contract.studentSignedAt.Some? {
      StepKeepsSigned(d, s);
    }
    if Inv(d.contract) {
      StepKeeps(d, s);
      if d.contract.manualConfirmedAt.Some? { StepFreezes(d, s); }
      if d.contract.status == PAID { StepPaidFinal(d, s); }
      if d.lead.Some? { StepGrantsWorth(d, s); }
    }
  }
}
