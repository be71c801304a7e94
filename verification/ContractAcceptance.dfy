/** When the operations on a contract are accepted and what they write, said without the chains of tests that decide
    it. */
module ContractAcceptance {
  import opened Prelude
  import opened Calendar
  import opened InstallmentSchedule
  import opened Packages
  import opened ContractLifecycle

  // ---- Terms ----

  /** Terms are accepted exactly for a paid tier, an allowed price, and either one payment in full or an explicit count
      of instalments: at most three, or a hundred and twenty where terms on record are only confirmed. */
  lemma TermsExactly(price: real, currency: string, tier: Tier, paymentType: PaymentType, count: Option<int>,
                     legacy: bool, preserve: bool, t: Terms)
    ensures CommercialTerms(price, currency, tier, paymentType, count, legacy, preserve) == Some(t) <==>
              && (tier == AI_ROADMAP || tier == EXPERT_MENTORSHIP) && t.paymentType == paymentType
              && price > 0.0 && (legacy ==> currency in {"KZT", "USD", "EUR"})
              && (!legacy ==> currency == "KZT" && price in {1500000.0, 750000.0})
              && (paymentType == FULL ==> t.installmentCount == 1 && (count == None || count == Some(1)))
              && (paymentType == INSTALLMENT ==>
                    count == Some(t.installmentCount) && 2 <= t.installmentCount <= if legacy && preserve then 120
                      else 3)
  {
  }

  /** The terms a contract on record can be confirmed with. */
  predicate TermsOnRecord(c: Contract, t: Terms) {
    && (c.tier == AI_ROADMAP || c.tier == EXPERT_MENTORSHIP) && c.price > 0.0 && c.currency in {"KZT", "USD", "EUR"}
    && (c.paymentType == Some(INSTALLMENT) ==>
          t == Terms(INSTALLMENT, t.installmentCount) && c.installmentCount == Some(t.installmentCount)
          && 2 <= t.installmentCount <= 120)
    && (c.paymentType != Some(INSTALLMENT) ==> t == Terms(FULL, 1) && c.installmentCount in {None, Some(1)})
  }

  // ---- Confirmation ----

  /** A signed contract can only be confirmed where its benefits are seen: the student has the tier and an expert, with
      a package that holds the tier's slots and no more used than sold, and nothing else accounts for them. */
  predicate BenefitsSeen(d: Desk, competing: bool) {
    && !competing && d.portrait.Some? && d.portrait.value.expert.Some?
    && d.portrait.value.subscription == d.contract.tier
       && (d.contract.tier == AI_ROADMAP || d.contract.tier == EXPERT_MENTORSHIP)
    && var e := d.portrait.value.expert.value;
       && e in d.packages && d.packages[e].totalSlots >= TierSlots(d.contract.tier)
       && 0 <= d.packages[e].usedSlots <= d.packages[e].totalSlots
  }

  /** The student's expert must have a profile; without one, a lead's contract needs the lead's expert, or failing that
      the acting expert, to have one. */
  predicate ExpertFits(d: Desk, actor: int, admin: bool) {
    if d.portrait.Some? && d.portrait.value.expert.Some? then d.portrait.value.expert.value in d.experts
    else if d.lead.Some? && d.lead.value.status == CONTRACT_PENDING && d.lead.value.expert.Some?
      then d.lead.value.expert.value in d.experts
    else d.lead.Some? ==> !admin && actor in d.experts
  }

  /** The signature a confirmation goes by. */
  predicate SignatureIs(d: Desk, r: Receipt, signedAt: int) {
    if r.signedAt.Some? then r.signedAt == Some(signedAt) else d.contract.studentSignedAt == Some(signedAt)
  }

  /** The amount reported is the first instalment of the plan. */
  predicate FirstInstallment(amount: real, plan: seq<Item>) {
    plan != [] && amount * 100.0 == plan[0].amount as real
  }

  ghost predicate Confirmable(d: Desk, r: Receipt, actor: int, admin: bool, competing: bool, now: int) {
    && d.contract.status != PAID && (d.contract.status == SIGNED ==> BenefitsSeen(d, competing))
    && (d.lead.Some? ==> d.lead.value.status == CONTRACT_PENDING || d.lead.value.status == CONVERTED)
    && (exists signedAt :: SignatureIs(d, r, signedAt) && signedAt <= now) && r.paidAt <= now
    && ExpertFits(d, actor, admin)
    && exists t, plan ::
         TermsOnRecord(d.contract, t) && Plan(d.contract.price, t.installmentCount, r.local) == Some(plan)
         && FirstInstallment(r.amount, plan)
  }

  /** A repeated confirmation must name the payment on record, and the signature if it names one. */
  predicate Repeats(c: Contract, r: Receipt, now: int) {
    && c.installments != [] && c.installments[0].paidAt == Some(r.paidAt) && r.paidAt <= now
    && r.amount * 100.0 == c.installments[0].item.amount as real
    && (r.signedAt.Some? ==> c.studentSignedAt == r.signedAt && r.signedAt.value <= now)
  }

  /** Who gets the benefits of a first confirmation: the student's expert, the lead's, or the acting one, if they have a
      profile. */
  predicate BenefitsFor(d: Desk, actor: int, admin: bool, expert: Option<int>) {
    if d.portrait.Some? && d.portrait.value.expert.Some? then expert == d.portrait.value.expert
    else if d.lead.Some? && d.lead.value.status == CONTRACT_PENDING && d.lead.value.expert.Some? then
      expert == if d.lead.value.expert.value in d.experts then d.lead.value.expert else None
    else expert == if !admin && actor in d.experts then Some(actor) else None
  }

  /** The subscription is the contract's tier; the expert, if there is one, becomes the student's and gets the slots. */
  ghost predicate BenefitsGiven(d: Desk, d': Desk, expert: Option<int>) {
    && d'.portrait.Some? && d'.portrait.value.subscription == d.contract.tier
    && (expert.Some? ==> d'.portrait.value.expert == expert)
    && (expert.None? && d.portrait.Some? ==> d'.portrait.value.expert == d.portrait.value.expert)
    && (expert.None? && d.portrait.None? ==> d'.portrait.value.expert == None)
    && (if expert.Some? && TierSlots(d.contract.tier) > 0
        then Gains(d.packages, d'.packages, expert.value, TierSlots(d.contract.tier))
        else d'.packages == d.packages)
  }

  /** The confirmed contract: the terms on record, the plan of its price with the first instalment paid, both
      signatures. */
  ghost predicate ContractConfirmed(c: Contract, c': Contract, t: Terms, plan: seq<Item>, paidAt: int, signedAt: int,
                                    now: int) {
    && c'.tier == c.tier && c'.price == c.price && c'.currency == c.currency
    && c'.paymentType == Some(t.paymentType) && c'.installmentCount == Some(t.installmentCount)
    && |c'.installments| == |plan| == t.installmentCount
    && (forall i :: 0 <= i < |plan| ==>
          c'.installments[i] == Installment(plan[i], if i == 0 then Some(paidAt) else None))
    && (if t.installmentCount == 1 then c'.status == PAID && c'.paidAt == Some(paidAt)
        else c'.status == SIGNED && c'.paidAt == None)
    && c'.studentSignedAt == Some(signedAt) && c'.manualConfirmedAt == Some(now)
    && (if c.expertSignedAt.Some? then c'.expertSignedAt == c.expertSignedAt else c'.expertSignedAt == Some(signedAt))
  }

  /** The signer on record stays; otherwise it is the lead's expert, the student's, or the acting one. */
  predicate SignerIs(d: Desk, actor: int, admin: bool, signer: Option<int>) {
    if d.contract.signedBy.Some? then signer == d.contract.signedBy
    else if d.lead.Some? && d.lead.value.expert.Some? then signer == d.lead.value.expert
    else if d.portrait.Some? && d.portrait.value.expert.Some? then signer == d.portrait.value.expert
    else signer == if admin then None else Some(actor)
  }

  ghost predicate ConfirmationWritten(d: Desk, d': Desk, r: Receipt, actor: int, admin: bool, now: int) {
    && (exists t, plan, signedAt ::
          && TermsOnRecord(d.contract, t) && Plan(d.contract.price, t.installmentCount, r.local) == Some(plan)
          && FirstInstallment(r.amount, plan) && SignatureIs(d, r, signedAt) && signedAt <= now
          && ContractConfirmed(d.contract, d'.contract, t, plan, r.paidAt, signedAt, now))
    && SignerIs(d, actor, admin, d'.contract.signedBy)
    && d'.experts == d.experts && d'.lead == (if d.lead.Some? then Some(Lead(CONVERTED, d.lead.value.expert)) else None)
    && (if d.contract.status == SIGNED then d'.portrait == d.portrait && d'.packages == d.packages
        else exists expert :: BenefitsFor(d, actor, admin, expert) && BenefitsGiven(d, d', expert))
  }

  /** A repeated confirmation is accepted exactly when it repeats the one on record, and changes nothing. */
  lemma RepeatsExactly(d: Desk, r: Receipt, actor: int, admin: bool, competing: bool, now: int)
    requires d.contract.manualConfirmedAt.Some?
    ensures var o := Confirm(d, r, actor, admin, competing, now);
      (o.Done? <==> Repeats(d.contract, r, now)) && (o.Done? ==> o.desk == d)
  {
  }

  lemma TermsAre(c: Contract, t: Terms)
    ensures var paymentType := if c.paymentType.Some? then c.paymentType.value else FULL;
      CommercialTerms(c.price, c.currency, c.tier, paymentType, c.installmentCount, true, true) == Some(t)
      <==> TermsOnRecord(c, t)
  {
  }

  lemma BenefitsAre(d: Desk, competing: bool)
    ensures HistoricalBenefits(d, competing) <==> BenefitsSeen(d, competing)
  {
  }

  function ExpertOf(d: Desk, actor: int, admin: bool): Option<int> {
    var owner := Owner(d, actor, admin);
    if owner.Some? && owner.value in d.experts then owner else None
  }

  lemma FitsExpert(d: Desk, actor: int, admin: bool)
    ensures var expert := ExpertOf(d, actor, admin);
      ExpertFits(d, actor, admin) <==>
        && (d.lead.Some? ==> expert.Some?)
        && (d.portrait.Some? && d.portrait.value.expert.Some? ==> d.portrait.value.expert == expert)
  {
  }

  /** A first confirmation is accepted exactly when it may be ... */
  lemma ConfirmedWhen(d: Desk, r: Receipt, actor: int, admin: bool, competing: bool, now: int)
    requires d.contract.manualConfirmedAt.None?
    ensures Confirm(d, r, actor, admin, competing, now).Done? <==> Confirmable(d, r, actor, admin, competing, now)
  {
    var c := d.contract;
    BenefitsAre(d, competing);
    FitsExpert(d, actor, admin);
    hide Owner;
    hide HistoricalBenefits;
    hide BenefitsSeen;
    hide ExpertFits;
    hide CommercialTerms;
    hide TermsOnRecord;
    hide Plan;
    var terms := CommercialTerms(c.price, c.currency, c.tier, if c.paymentType.Some? then c.paymentType.value else FULL,
                                 c.installmentCount, true, true);
    forall t ensures terms == Some(t) <==> TermsOnRecord(c, t) {
      TermsAre(c, t);
    }
    var signature := Or(r.signedAt, c.studentSignedAt);
    assert signature.Some? ==> SignatureIs(d, r, signature.value);
    if terms.Some? {
      var plan := Plan(c.price, terms.value.installmentCount, r.local);
      assert plan.Some? ==>
               (FirstInstallment(r.amount, plan.value)
                <==> plan.value != [] && AmountIs(r.amount, plan.value[0].amount));
    }
  }

  /** ... and then writes exactly what it should. */
  lemma ConfirmWrites(d: Desk, r: Receipt, actor: int, admin: bool, competing: bool, now: int)
    requires d.contract.manualConfirmedAt.None? && Confirm(d, r, actor, admin, competing, now).Done?
    ensures ConfirmationWritten(d, Confirm(d, r, actor, admin, competing, now).desk, r, actor, admin, now)
  {
    var c := d.contract;
    var d' := Confirm(d, r, actor, admin, competing, now).desk;
    hide CommercialTerms;
    hide TermsOnRecord;
    hide Plan;
    hide HistoricalBenefits;
    hide BenefitsGiven;
    hide ContractConfirmed;
    hide Confirmed;
    hide ConfirmedBenefits;
    var t := CommercialTerms(c.price, c.currency, c.tier, if c.paymentType.Some? then c.paymentType.value else FULL,
                             c.installmentCount, true, true).value;
    TermsAre(c, t);
    var plan := Plan(c.price, t.installmentCount, r.local).value;
    var signedAt := Or(r.signedAt, c.studentSignedAt).value;
    PlanLength(c, t, r.local);
    ContractWritten(d, t, plan, r.paidAt, signedAt, Owner(d, actor, admin), now);
    assert SignatureIs(d, r, signedAt) && FirstInstallment(r.amount, plan);
    SignerWritten(d, t, plan, r.paidAt, signedAt, actor, admin, now);
    hide Owner;
    BenefitsWritten(d, d', ExpertOf(d, actor, admin), actor, admin);
  }

  lemma ContractWritten(d: Desk, t: Terms, plan: seq<Item>, paidAt: int, signedAt: int, owner: Option<int>, now: int)
    requires |plan| == t.installmentCount
    ensures ContractConfirmed(d.contract, Confirmed(d, t, plan, paidAt, signedAt, owner, now), t, plan, paidAt,
                              signedAt, now)
  {
  }

  lemma SignerWritten(d: Desk, t: Terms, plan: seq<Item>, paidAt: int, signedAt: int, actor: int, admin: bool, now: int)
    ensures SignerIs(d, actor, admin, Confirmed(d, t, plan, paidAt, signedAt, Owner(d, actor, admin), now).signedBy)
  {
  }

  lemma BenefitsWritten(d: Desk, d': Desk, expert: Option<int>, actor: int, admin: bool)
    requires expert == ExpertOf(d, actor, admin)
    requires d.contract.status != SIGNED ==>
               d'.portrait == ConfirmedBenefits(d, expert).portrait
                   && d'.packages == ConfirmedBenefits(d, expert).packages
    requires d.portrait.Some? && d.portrait.value.expert.Some? ==> d.portrait.value.expert == expert
    ensures d.contract.status != SIGNED ==> BenefitsFor(d, actor, admin, expert) && BenefitsGiven(d, d', expert)
  {
    if expert.Some? {
      GrantGains(d.packages, expert.value, TierSlots(d.contract.tier));
    }
    hide Gains;
    hide Grant;
  }

  lemma PlanLength(c: Contract, t: Terms, local: Civil)
    requires TermsOnRecord(c, t) && Plan(c.price, t.installmentCount, local).Some?
    ensures |Plan(c.price, t.installmentCount, local).value| == t.installmentCount > 0
  {
    hide DueDate;
  }

  // ---- The student's signature ----

  /** The lead waits for its contract, which its expert has signed and has a profile, and the student has no other
      expert. */
  predicate LeadReady(d: Desk) {
    && d.lead.Some? && d.lead.value.status == CONTRACT_PENDING && d.lead.value.expert.Some?
    && d.contract.signedBy == d.lead.value.expert && d.lead.value.expert.value in d.experts
    && d.portrait.Some? && (d.portrait.value.expert == None || d.portrait.value.expert == d.lead.value.expert)
  }

  /** The student's signature is accepted exactly with a valid code on a contract that waits for it, from a lead that is
      ready or from none; it changes the contract's state and, for a lead, gives its expert the benefits. */
  lemma StudentSignsExactly(d: Desk, codeValid: bool, now: int)
    ensures var o := StudentSign(d, codeValid, now);
      && (o.Done? <==> d.contract.status == PENDING_STUDENT && codeValid && (d.lead.Some? ==> LeadReady(d)))
      && (o.Done? ==>
            && o.desk.contract == d.contract.(status := SIGNED, studentSignedAt := Some(now))
               && o.desk.experts == d.experts
            && (d.lead.None? ==> o.desk == d.(contract := o.desk.contract))
            && (d.lead.Some? ==> BenefitsGiven(d, o.desk, d.lead.value.expert))
            && (d.lead.Some? ==> o.desk.lead == Some(Lead(CONVERTED, d.lead.value.expert))))
  {
    if d.lead.Some? && d.lead.value.expert.Some? {
      GrantGains(d.packages, d.lead.value.expert.value, TierSlots(d.contract.tier));
    }
    hide Grant;
    hide Gains;
  }

  // ---- Edits ----

  /** The terms an edit leads to: what it does not give stays, payment in full implies one instalment, and a price or a
      currency makes it subject to the present price list. */
  predicate TermsAfter(c: Contract, e: Edit, t: Terms) {
    var price := if e.price.Some? then e.price.value else c.price;
    var currency := if e.currency.Some? then e.currency.value else c.currency;
    var count := if e.installmentCount.Some? then e.installmentCount
                 else if e.paymentType == Some(FULL) then Some(1) else c.installmentCount;
    && (c.tier == AI_ROADMAP || c.tier == EXPERT_MENTORSHIP) && price > 0.0
    && (if e.price.Some? || e.currency.Some? then currency == "KZT" && price in {1500000.0, 750000.0}
        else currency in {"KZT", "USD", "EUR"})
    && (if e.paymentType.Some? then Some(t.paymentType) == e.paymentType
        else if c.paymentType.Some? then Some(t.paymentType) == c.paymentType else t.paymentType == FULL)
    && (t.paymentType == FULL ==> t.installmentCount == 1 && (count == None || count == Some(1)))
    && (t.paymentType == INSTALLMENT ==> count == Some(t.installmentCount) && 2 <= t.installmentCount <= 3)
  }

  predicate NoTerms(e: Edit) {
    e.price.None? && e.currency.None? && e.paymentType.None? && e.installmentCount.None?
  }

  /** An edit is accepted exactly before any final signature, with its dates in order and, if it concerns the terms,
      with acceptable ones; it then writes these. */
  lemma EditsExactly(d: Desk, e: Edit, datesInOrder: bool)
    ensures var o, c := UpdateMeta(d, e, datesInOrder), d.contract;
      && (o.Done? <==>
            && !Final(c) && c.studentSignedAt.None? && datesInOrder
            && (NoTerms(e) || exists t :: TermsAfter(c, e, t)))
      && (o.Done? && NoTerms(e) ==> o.desk == d)
      && (o.Done? && !NoTerms(e) ==> exists t :: TermsAfter(c, e, t) && EditWritten(d, o.desk, e, t))
  {
    var c := d.contract;
    if !NoTerms(e) {
      forall t: Terms ensures EditTerms(c, e) == Some(t) <==> TermsAfter(c, e, t) {
        TermsAfterAre(c, e, t);
      }
      if EditTerms(c, e).Some? {
        assert TermsAfter(c, e, EditTerms(c, e).value);
      }
    }
    hide CommercialTerms;
    hide TermsAfter;
  }

  predicate EditWritten(d: Desk, d': Desk, e: Edit, t: Terms) {
    && d' == d.(contract := d'.contract)
    && (if e.price.Some? then d'.contract.price == e.price.value else d'.contract.price == d.contract.price)
    && (if e.currency.Some? then d'.contract.currency == e.currency.value
        else d'.contract.currency == d.contract.currency)
    && d'.contract == d.contract.(price := d'.contract.price, currency := d'.contract.currency,
                                  paymentType := Some(t.paymentType), installmentCount := Some(t.installmentCount))
  }

  function EditTerms(c: Contract, e: Edit): Option<Terms> {
    CommercialTerms(if e.price.Some? then e.price.value else c.price,
                    if e.currency.Some? then e.currency.value else c.currency,
                    c.tier, Or(e.paymentType, Or(c.paymentType, Some(FULL))).value,
                    Or(e.installmentCount, if e.paymentType == Some(FULL) then Some(1) else c.installmentCount),
                    e.price.None? && e.currency.None?, false)
  }

  lemma TermsAfterAre(c: Contract, e: Edit, t: Terms)
    ensures EditTerms(c, e) == Some(t) <==> TermsAfter(c, e, t)
  {
  }

  // ---- Instalments ----

  predicate Payable(s: seq<Installment>, k: nat, number: int, amount: real, paidAt: int, now: int)
    requires k > 0 && PaidUpTo(s, k)
  {
    && 1 <= number <= |s| && amount * 100.0 == s[number - 1].item.amount as real && paidAt <= now
    && (number <= k ==> s[number - 1].paidAt == Some(paidAt))
    && (number > k ==> number == k + 1 && s[k - 1].paidAt.value <= paidAt)
  }

  /** With k instalments paid, a payment is accepted exactly if it is the next one, or repeats one that is on record. */
  lemma InstallmentsExactly(d: Desk, k: nat, number: int, amount: real, paidAt: int, now: int)
    requires Inv(d.contract) && d.contract.manualConfirmedAt.Some? && k > 0 && PaidUpTo(d.contract.installments, k)
    ensures ConfirmInstallment(d, number, amount, paidAt, now).Done?
            <==> Payable(d.contract.installments, k, number, amount, paidAt, now)
  {
    hide Plan;
    NumbersCount(d.contract);
    var s := d.contract.installments;
    assert 1 <= number <= |s| ==> s[number - 1].item.number == number;
    var found := FindNumber(s, number);
    if found.Some? {
      var f := found.value;
      assert s[f].item.number == f + 1;
      if f > k {
        assert s[k].item.number < number;
      } else if f == k {
        NextPaid(s, k, paidAt);
      }
    }
  }
}
