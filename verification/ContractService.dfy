/** The transactions on a contract as they write its rows, each proved against its specification in
    ContractLifecycle. */
module ContractService {
  import opened Prelude
  import opened InstallmentSchedule
  import opened Packages
  import opened ContractLifecycle
  import opened ContractAcceptance

  class ContractRows {
    var contract: Contract
    var lead: Option<Lead>
    var portrait: Option<Portrait>
    var packages: map<int, Package>
    const experts: set<int>

    function State(): Desk
      reads this
    {
      Desk(contract, lead, portrait, packages, experts)
    }

    constructor (d: Desk)
      ensures State() == d
    {
      contract, lead, portrait, packages, experts := d.contract, d.lead, d.portrait, d.packages, d.experts;
    }

    method SignAsExpert(actor: int, now: int) returns (outcome: Outcome)
      modifies this
      ensures outcome == ExpertSign(old(State()), actor, now) && State() == After(old(State()), outcome)
      ensures Kept(old(State()), State())
      ensures outcome.Done? <==> old(contract).status == PENDING_EXPERT
      ensures contract == if outcome.Done?
        then old(contract).(status := PENDING_STUDENT, signedBy := Some(actor), expertSignedAt := Some(now))
        else old(contract)
      ensures State() == old(State()).(contract := contract)
    {
      StepKept(State(), DoExpertSign(actor, now));
      if contract.status != PENDING_EXPERT { return Refused(Conflict); }
      contract := contract.(signedBy := Some(actor), status := PENDING_STUDENT, expertSignedAt := Some(now));
      outcome := Done(State());
    }

    /** studentPackage.upsert */
    method GrantSlots(expert: int, slots: int)
      modifies this`packages
      ensures packages == Grant(old(packages), expert, slots)
    {
      if expert in packages {
        var p := packages[expert];
        packages := packages[expert := p.(totalSlots := p.totalSlots + slots)];
      } else {
        packages := packages[expert := Package(slots, 0)];
      }
    }

    method SignAsStudent(codeValid: bool, now: int) returns (outcome: Outcome)
      modifies this
      ensures outcome == StudentSign(old(State()), codeValid, now) && State() == After(old(State()), outcome)
      ensures Kept(old(State()), State())
      // Exactly on a contract that waits for it, with a valid code, from a lead that is ready or from none.
      ensures outcome.Done? <==>
                old(contract).status == PENDING_STUDENT && codeValid && (old(lead).Some? ==> LeadReady(old(State())))
      ensures outcome.Done? && old(lead).Some? ==> BenefitsGiven(old(State()), State(), old(lead).value.expert)
      // Signed, by both sides; for a lead's contract the lead's expert, now the student's, and the lead is converted.
      ensures outcome.Done? ==> codeValid && contract.status == SIGNED && contract.studentSignedAt == Some(now)
      ensures outcome.Done? && old(lead).Some? ==>
        && contract.signedBy.Some? && contract.signedBy == old(lead).value.expert && contract.signedBy.value in experts
        && portrait == Some(Portrait(contract.tier, contract.signedBy)) && lead.value.status == CONVERTED
    {
      StepKept(State(), DoStudentSign(codeValid, now));
      StudentSignsExactly(State(), codeValid, now);
      hide StudentSign;
      hide Kept;
      hide BenefitsGiven;
      outcome := CheckAndSign(codeValid, now);
    }

    /** The checks of the student's signature and, when they pass, its writes. */
    method CheckAndSign(codeValid: bool, now: int) returns (outcome: Outcome)
      modifies this
      ensures outcome == StudentSign(old(State()), codeValid, now) && State() == After(old(State()), outcome)
    {
      if contract.status != PENDING_STUDENT || (lead.Some? && lead.value.status != CONTRACT_PENDING) {
        return Refused(Conflict);
      }
      if !codeValid { return Refused(Conflict); }
      if lead.None? {
        contract := contract.(status := SIGNED, studentSignedAt := Some(now));
        return Done(State());
      }
      if lead.value.expert.None? || contract.signedBy != lead.value.expert { return Refused(Conflict); }
      var expert := lead.value.expert.value;
      if expert !in experts { return Refused(Conflict); }
      if portrait.None? { return Refused(NotFound); }
      if portrait.value.expert.Some? && portrait.value.expert.value != expert { return Refused(Conflict); }
      contract := contract.(status := SIGNED, studentSignedAt := Some(now));
      portrait := Some(Portrait(contract.tier, Some(expert)));
      var slots := TierSlots(contract.tier);
      if slots != 0 {
        GrantSlots(expert, slots);
      }
      lead := Some(lead.value.(status := CONVERTED));
      outcome := Done(State());
    }

    method RecordManualSignature(signedAt: int, now: int) returns (outcome: Outcome)
      modifies this
      ensures outcome == RecordSignature(old(State()), signedAt, now) && State() == After(old(State()), outcome)
      ensures Kept(old(State()), State())
      // Only the time of an unfinished contract's signature is set, and never to one in the future.
      ensures outcome.Done? <==> signedAt <= now && !Final(old(contract)) && old(contract).manualConfirmedAt.None?
      ensures contract == if outcome.Done? then old(contract).(studentSignedAt := Some(signedAt)) else old(contract)
    {
      StepKept(State(), DoRecordSignature(signedAt, now));
      if signedAt > now { return Refused(BadRequest); }
      if contract.manualConfirmedAt.Some? || contract.status == SIGNED || contract.status == PAID {
        return Refused(Conflict);
      }
      if contract.studentSignedAt == Some(signedAt) { return Done(State()); }
      contract := contract.(studentSignedAt := Some(signedAt));
      outcome := Done(State());
    }

    /** The writes of a confirmation that passed its checks. */
    method WriteConfirmation(terms: Terms, plan: seq<Item>, paidAt: int, signedAt: int, owner: Option<int>,
                             expert: Option<int>, now: int)
      modifies this
      ensures State() == (if old(contract).status == SIGNED then old(State())
                          else ConfirmedBenefits(old(State()), expert))
                         .(contract := Confirmed(old(State()), terms, plan, paidAt, signedAt, owner, now),
                           lead := if old(lead).Some? then Some(old(lead).value.(status := CONVERTED)) else None)
    {
      hide Grant;
      var assignee := if lead.Some? then lead.value.expert else None;
      contract := contract.(installments := FirstPaid(plan, paidAt));
      if contract.status != SIGNED {
        portrait := Some(Portrait(contract.tier, Or(expert, if portrait.Some? then portrait.value.expert else None)));
        var slots := TierSlots(contract.tier);
        if slots != 0 && expert.Some? {
          GrantSlots(expert.value, slots);
        }
      }
      if lead.Some? && lead.value.status != CONVERTED {
        lead := Some(lead.value.(status := CONVERTED));
      }
      var one := terms.installmentCount == 1;
      contract := contract.(paymentType := Some(terms.paymentType), installmentCount := Some(terms.installmentCount),
                            status := if one then PAID else SIGNED, paidAt := if one then Some(paidAt) else None,
                            studentSignedAt := Some(signedAt),
                            expertSignedAt := Or(contract.expertSignedAt, Some(signedAt)),
                            signedBy := Or(contract.signedBy, Or(assignee, owner)), manualConfirmedAt := Some(now));
    }

    method ConfirmManualContract(r: Receipt, actor: int, admin: bool, competing: bool, now: int)
        returns (outcome: Outcome)
      modifies this
      ensures outcome == Confirm(old(State()), r, actor, admin, competing, now)
              && State() == After(old(State()), outcome)
      ensures Kept(old(State()), State())
      // A first confirmation is accepted exactly when it may be, and writes exactly what it should; a repeated one is
      // accepted exactly when it repeats the payment on record.
      ensures old(contract).manualConfirmedAt.None? ==>
                && (outcome.Done? <==> Confirmable(old(State()), r, actor, admin, competing, now))
                && (outcome.Done? ==> ConfirmationWritten(old(State()), State(), r, actor, admin, now))
      ensures old(contract).manualConfirmedAt.Some? ==> (outcome.Done? <==> Repeats(old(contract), r, now))
      ensures outcome.Done? && contract.installments != [] ==>
                && r.amount * 100.0 == contract.installments[0].item.amount as real
                && contract.installments[0].paidAt == Some(r.paidAt) && r.paidAt <= now
      ensures outcome.Done? && Inv(old(contract)) ==> contract.installments != []
      // Confirmed once: afterwards the contract is final and carries a paid first instalment; a replay changes nothing.
      ensures outcome.Done? && Inv(old(contract)) ==>
                contract.manualConfirmedAt.Some? && ConfirmedWell(contract) && Final(contract)
      ensures outcome.Done? && old(contract).manualConfirmedAt.Some? ==> State() == old(State())
    {
      hide Kept;
      hide Inv;
      hide ConfirmedWell;
      hide Confirm;
      hide Confirmable;
      hide ConfirmationWritten;
      hide Repeats;
      ConfirmedAfter(State(), r, actor, admin, competing, now);
      outcome := CheckAndConfirm(r, actor, admin, competing, now);
    }

    /** The checks of a confirmation and, when they pass, its writes. */
    method CheckAndConfirm(r: Receipt, actor: int, admin: bool, competing: bool, now: int) returns (outcome: Outcome)
      modifies this
      ensures outcome == Confirm(old(State()), r, actor, admin, competing, now)
              && State() == After(old(State()), outcome)
    {
      hide Plan;
      hide CommercialTerms;
      hide Replay;
      hide HistoricalBenefits;
      hide Owner;
      hide Confirmed;
      hide ConfirmedBenefits;
      var before := State();
      if contract.manualConfirmedAt.Some? {
        ReplayKeeps(before, r, now);
        return Replay(before, r, now);
      }
      if contract.status == PAID { return Refused(Conflict); }
      if contract.status == SIGNED && !HistoricalBenefits(before, competing) { return Refused(Conflict); }
      if lead.Some? && lead.value.status != CONTRACT_PENDING && lead.value.status != CONVERTED {
        return Refused(Conflict);
      }
      var signature := Or(r.signedAt, contract.studentSignedAt);
      if signature.None? || signature.value > now || r.paidAt > now { return Refused(BadRequest); }
      var terms := CommercialTerms(contract.price, contract.currency, contract.tier,
                                   if contract.paymentType.Some? then contract.paymentType.value
                                     else FULL, contract.installmentCount, true, true);
      if terms.None? { return Refused(BadRequest); }
      var plan := Plan(contract.price, terms.value.installmentCount, r.local);
      if plan.None? || plan.value == [] || !AmountIs(r.amount, plan.value[0].amount) { return Refused(BadRequest); }
      var owner := Owner(before, actor, admin);
      var expert := if owner.Some? && owner.value in experts then owner else None;
      if lead.Some? && expert.None? { return Refused(Conflict); }
      if portrait.Some? && portrait.value.expert.Some? && portrait.value.expert != expert { return Refused(Conflict); }
      WriteConfirmation(terms.value, plan.value, r.paidAt, signature.value, owner, expert, now);
      outcome := Done(State());
    }

    method ConfirmOneInstallment(number: int, amount: real, paidAt: int, now: int) returns (outcome: Outcome)
      modifies this
      ensures outcome == ConfirmInstallment(old(State()), number, amount, paidAt, now)
              && State() == After(old(State()), outcome)
      ensures Kept(old(State()), State())
      ensures old(contract).manualConfirmedAt.None? ==> outcome.Refused?
      ensures forall k: nat ::
        && Inv(old(contract)) && old(contract).manualConfirmedAt.Some?
        && k > 0 && PaidUpTo(old(contract).installments, k) ==>
        (outcome.Done? <==> Payable(old(contract).installments, k, number, amount, paidAt, now))
      // With k instalments paid, only the next changes anything: for its amount, not in the future, not before the last
      // payment.
      ensures forall k: nat ::
        && Inv(old(contract)) && old(contract).manualConfirmedAt.Some?
        && k > 0 && PaidUpTo(old(contract).installments, k) ==>
        var s := old(contract).installments;
        && (contract != old(contract) <==>
              number == k + 1 <= |s| && AmountIs(amount, s[k].item.amount) && s[k - 1].paidAt.value <= paidAt <= now)
        && (contract != old(contract) ==>
            && PaidUpTo(contract.installments, k + 1) && (contract.status == PAID <==> k + 1 == |s|)
            && InstallmentPaid(old(contract), contract, k, paidAt))
    {
      ghost var d := State();
      forall k: nat | Inv(d.contract) && d.contract.manualConfirmedAt.Some? && k > 0
          && PaidUpTo(d.contract.installments, k)
        ensures ConfirmInstallment(d, number, amount, paidAt, now).Done?
                <==> Payable(d.contract.installments, k, number, amount, paidAt, now)
      {
        InstallmentsExactly(d, k, number, amount, paidAt, now);
      }
      hide Payable;
      forall k: nat | Inv(d.contract) && d.contract.manualConfirmedAt.Some? && k > 0
          && PaidUpTo(d.contract.installments, k)
        ensures var d' := After(d, ConfirmInstallment(d, number, amount, paidAt, now));
                PaysNext(d, d', k, number, amount, paidAt, now)
      {
        NextIsPaid(d, k, number, amount, paidAt, now);
      }
      StepKept(d, DoConfirmInstallment(number, amount, paidAt, now));
      hide ConfirmInstallment;
      hide Kept;
      hide Inv;
      outcome := CheckAndPay(number, amount, paidAt, now);
    }

    /** The checks of an instalment's payment and, when they pass, its writes. */
    method CheckAndPay(number: int, amount: real, paidAt: int, now: int) returns (outcome: Outcome)
      modifies this
      ensures outcome == ConfirmInstallment(old(State()), number, amount, paidAt, now)
              && State() == After(old(State()), outcome)
    {
      if paidAt > now { return Refused(BadRequest); }
      if contract.manualConfirmedAt.None? { return Refused(Conflict); }
      var found := FindNumber(contract.installments, number);
      if found.None? { return Refused(BadRequest); }
      var installment := contract.installments[found.value];
      if !AmountIs(amount, installment.item.amount) { return Refused(BadRequest); }
      if installment.paidAt.Some? {
        if installment.paidAt.value != paidAt { return Refused(Conflict); }
        return Done(State());
      }
      if !InOrder(contract.installments, number, paidAt) { return Refused(BadRequest); }
      contract := contract.(installments := contract.installments[found.value := installment.(paidAt := Some(paidAt))]);
      if FullyPaid(contract.installments) {
        contract := contract.(status := PAID, paidAt := Some(paidAt));
      }
      outcome := Done(State());
    }

    method EditMeta(e: Edit, datesInOrder: bool) returns (outcome: Outcome)
      modifies this
      ensures outcome == UpdateMeta(old(State()), e, datesInOrder) && State() == After(old(State()), outcome)
      ensures Kept(old(State()), State())
      // Accepted exactly before any final signature and with acceptable terms, which are then written.
      ensures outcome.Done? <==>
                && !Final(old(contract)) && old(contract).studentSignedAt.None? && datesInOrder
                && (NoTerms(e) || exists t :: TermsAfter(old(contract), e, t))
      ensures outcome.Refused? || NoTerms(e) ==> State() == old(State())
      ensures outcome.Done? && !NoTerms(e) ==>
                exists t :: TermsAfter(old(contract), e, t) && EditWritten(old(State()), State(), e, t)
      // Only the terms of an unsigned contract change, to terms a new contract may have.
      ensures outcome.Done? ==> !Final(old(contract)) && old(contract).studentSignedAt.None? && datesInOrder
      ensures contract == old(contract).(price := contract.price, currency := contract.currency,
                                         paymentType := contract.paymentType,
                                         installmentCount := contract.installmentCount)
      ensures outcome.Done? && (e.price.Some? || e.currency.Some?) ==>
        contract.currency == "KZT" && (contract.price == 1500000.0 || contract.price == 750000.0)
      ensures outcome.Done? && e != Edit(None, None, None, None) ==>
        && contract.paymentType.Some? && contract.installmentCount.Some?
           && 1 <= contract.installmentCount.value <= MAX_NEW_INSTALLMENTS
        && (contract.paymentType == Some(FULL) <==> contract.installmentCount == Some(1))
    {
      ghost var d := State();
      StepKept(d, DoUpdateMeta(e, datesInOrder));
      EditsExactly(d, e, datesInOrder);
      if UpdateMeta(d, e, datesInOrder).Done? {
        EditsAreTerms(d, e, datesInOrder);
      }
      hide TermsAfter;
      hide EditWritten;
      hide UpdateMeta;
      hide Kept;
      outcome := CheckAndEdit(e, datesInOrder);
    }

    /** The checks of an edit and, when they pass, its writes. */
    method CheckAndEdit(e: Edit, datesInOrder: bool) returns (outcome: Outcome)
      modifies this
      ensures outcome == UpdateMeta(old(State()), e, datesInOrder) && State() == After(old(State()), outcome)
    {
      hide CommercialTerms;
      if contract.status == SIGNED || contract.status == PAID { return Refused(BadRequest); }
      if contract.studentSignedAt.Some? { return Refused(Conflict); }
      var terms := None;
      if e.price.Some? || e.currency.Some? || e.paymentType.Some? || e.installmentCount.Some? {
        terms := CommercialTerms(if e.price.Some? then e.price.value else contract.price,
                                 if e.currency.Some? then e.currency.value else contract.currency, contract.tier,
                                 if e.paymentType.Some? then e.paymentType.value
                                   else if contract.paymentType.Some? then contract.paymentType.value else FULL,
                                 if e.installmentCount.Some? then e.installmentCount
                                 else if e.paymentType == Some(FULL) then Some(1) else contract.installmentCount,
                                 e.price.None? && e.currency.None?, false);
        if terms.None? { return Refused(BadRequest); }
      }
      if !datesInOrder { return Refused(BadRequest); }
      if e.price.Some? { contract := contract.(price := e.price.value); }
      if e.currency.Some? && e.currency.value != "" { contract := contract.(currency := e.currency.value); }
      if terms.Some? {
        contract := contract.(paymentType := Some(terms.value.paymentType),
                              installmentCount := Some(terms.value.installmentCount));
      }
      outcome := Done(State());
    }

    method MarkPaidForStudent(now: int) returns (count: nat)
      modifies this`contract
      ensures State() == MarkPaid(old(State()), now).desk && count == if Markable(old(contract)) then 1 else 0
      ensures Kept(old(State()), State())
      // Never a contract that is paid by hand, nor one that is not signed.
      ensures count == 1 <==>
                old(contract).status == SIGNED && old(contract).manualConfirmedAt.None?
                    && old(contract).paymentType.None?
      ensures contract == if count == 1 then old(contract).(status := PAID, paidAt := Some(now)) else old(contract)
    {
      StepKept(State(), DoMarkPaid(now));
      count := 0;
      if contract.status == SIGNED && contract.manualConfirmedAt.None? && contract.paymentType.None? {
        contract := contract.(status := PAID, paidAt := Some(now));
        count := 1;
      }
    }
  }

  /** Answering a repeated confirmation changes nothing. */
  lemma ReplayKeeps(d: Desk, r: Receipt, now: int)
    ensures After(d, Replay(d, r, now)) == d
  {
  }

  /** Whether the step from d to d' pays exactly the instalment after the first k. */
  ghost predicate PaysNext(d: Desk, d': Desk, k: nat, number: int, amount: real, paidAt: int, now: int)
    requires k > 0 && PaidUpTo(d.contract.installments, k)
  {
    var s := d.contract.installments;
    && (d'.contract != d.contract <==>
          number == k + 1 <= |s| && AmountIs(amount, s[k].item.amount) && s[k - 1].paidAt.value <= paidAt <= now)
    && (d'.contract != d.contract ==>
        && PaidUpTo(d'.contract.installments, k + 1) && (d'.contract.status == PAID <==> k + 1 == |s|)
        && InstallmentPaid(d.contract, d'.contract, k, paidAt))
  }

  lemma NextIsPaid(d: Desk, k: nat, number: int, amount: real, paidAt: int, now: int)
    requires Inv(d.contract) && d.contract.manualConfirmedAt.Some? && k > 0 && PaidUpTo(d.contract.installments, k)
    ensures PaysNext(d, After(d, ConfirmInstallment(d, number, amount, paidAt, now)), k, number, amount, paidAt, now)
  {
    hide Plan;
    ExactlyTheNextIsPayable(d, k, number, amount, paidAt, now);
    InstallmentKeeps(d, number, amount, paidAt, now);
    var c := After(d, ConfirmInstallment(d, number, amount, paidAt, now)).contract;
    if c != d.contract {
      PaidWhenAll(c, k + 1);
      PaidThen(d, k, number, amount, paidAt, now);
    }
  }

  /** The instalment after the first k is on record as paid then, and with the last of them the contract is. */
  predicate InstallmentPaid(c: Contract, c': Contract, k: nat, paidAt: int) {
    && k < |c.installments| == |c'.installments|
    && c'.installments[k] == Installment(c.installments[k].item, Some(paidAt))
    && (forall i :: 0 <= i < |c.installments| && i != k ==> c'.installments[i] == c.installments[i])
    && (k + 1 < |c.installments| ==> c' == c.(installments := c'.installments))
    && (k + 1 == |c.installments| ==> c' == c.(installments := c'.installments, status := PAID, paidAt := Some(paidAt)))
  }

  lemma PaidThen(d: Desk, k: nat, number: int, amount: real, paidAt: int, now: int)
    requires Inv(d.contract) && d.contract.manualConfirmedAt.Some? && k > 0 && PaidUpTo(d.contract.installments, k)
    requires var c := After(d, ConfirmInstallment(d, number, amount, paidAt, now)).contract;
      c != d.contract && number == k + 1 <= |d.contract.installments|
    ensures InstallmentPaid(d.contract, After(d, ConfirmInstallment(d, number, amount, paidAt, now)).contract, k,
                            paidAt)
  {
    hide Plan;
    var s := d.contract.installments;
    NumbersCount(d.contract);
    var f := FindNumber(s, number).value;
    assert f == k;
    if k + 1 < |s| {
      assert s[k := s[k].(paidAt := Some(paidAt))][k + 1].paidAt.None?;
    }
  }

  lemma PaidWhenAll(c: Contract, k: nat)
    requires ConfirmedWell(c) && PaidUpTo(c.installments, k)
    ensures c.status == PAID <==> k == |c.installments|
  {
    hide Plan;
    var n: nat :| n > 0 && PaidUpTo(c.installments, n) && c.status == (if n == |c.installments| then PAID else SIGNED);
    OnePrefix(c.installments, n, k);
  }

  lemma OnePrefix(s: seq<Installment>, m: nat, n: nat)
    requires PaidUpTo(s, m) && PaidUpTo(s, n)
    ensures m == n
  {
    var i := if m < n then m else n;
    if i < |s| {
      assert s[i].paidAt.Some? <==> i < m;
    }
  }

  lemma FirstPayment(d: Desk, d': Desk, r: Receipt, actor: int, admin: bool, now: int)
    requires ConfirmationWritten(d, d', r, actor, admin, now)
    ensures d'.contract.installments != [] && d'.contract.installments[0].paidAt == Some(r.paidAt)
    ensures r.amount * 100.0 == d'.contract.installments[0].item.amount as real
  {
    hide Plan;
    hide BenefitsGiven;
  }

  lemma ConfirmedAfter(d: Desk, r: Receipt, actor: int, admin: bool, competing: bool, now: int)
    ensures Kept(d, After(d, Confirm(d, r, actor, admin, competing, now)))
    ensures var o := Confirm(d, r, actor, admin, competing, now);
      && (o.Done? && Inv(d.contract) ==>
          o.desk.contract.manualConfirmedAt.Some? && ConfirmedWell(o.desk.contract) && Final(o.desk.contract))
      && (o.Done? && d.contract.manualConfirmedAt.Some? ==> o.desk == d)
    ensures var o := Confirm(d, r, actor, admin, competing, now);
      && (d.contract.manualConfirmedAt.None? ==>
            && (o.Done? <==> Confirmable(d, r, actor, admin, competing, now))
            && (o.Done? ==> ConfirmationWritten(d, o.desk, r, actor, admin, now)))
      && (d.contract.manualConfirmedAt.Some? ==> (o.Done? <==> Repeats(d.contract, r, now)))
      && (o.Done? && o.desk.contract.installments != [] ==>
            && r.amount * 100.0 == o.desk.contract.installments[0].item.amount as real
            && o.desk.contract.installments[0].paidAt == Some(r.paidAt) && r.paidAt <= now)
      && (o.Done? && Inv(d.contract) ==> o.desk.contract.installments != [])
  {
    if d.contract.manualConfirmedAt.Some? {
      RepeatsExactly(d, r, actor, admin, competing, now);
    } else {
      ConfirmedWhen(d, r, actor, admin, competing, now);
      if Confirm(d, r, actor, admin, competing, now).Done? {
        ConfirmWrites(d, r, actor, admin, competing, now);
        FirstPayment(d, Confirm(d, r, actor, admin, competing, now).desk, r, actor, admin, now);
      }
    }
    hide Confirmable;
    hide ConfirmationWritten;
    hide Plan;
    hide CommercialTerms;
    hide Kept;
    StepKept(d, DoConfirm(r, actor, admin, competing, now));
    var o := Confirm(d, r, actor, admin, competing, now);
    if o.Done? && Inv(d.contract) {
      ConfirmKeeps(d, r, actor, admin, competing, now);
    }
  }
}
