/** What every run of the settler keeps: access is backed by credited money, each invoice has at
    most one active grant, and balances equal what the outbox says was credited. */
module SettlerSafety {
  import opened Wrappers
  import opened SettlerMoney
  import opened SettlerLedger

  // ---- The invariant ---------------------------------------------------------------------

  /** Active grants of an invoice. */
  function Active(ents: seq<Entitlement>, i: nat): nat {
    if |ents| == 0 then 0
    else Active(ents[..|ents| - 1], i) + (if ents[|ents| - 1].invoice == i && !ents[|ents| - 1].revoked then 1 else 0)
  }

  function Grants(ents: seq<Entitlement>, i: nat): nat {
    if |ents| == 0 then 0 else Grants(ents[..|ents| - 1], i) + (if ents[|ents| - 1].invoice == i then 1 else 0)
  }

  function Revocations(ents: seq<Entitlement>, i: nat): nat {
    if |ents| == 0 then 0
    else Revocations(ents[..|ents| - 1], i) + (if ents[|ents| - 1].invoice == i && ents[|ents| - 1].revoked then 1 else 0)
  }

  /** An invoice is settled exactly when it has one active grant, and never has two. */
  ghost predicate GrantsMatch(invoices: map<nat, Invoice>, ents: seq<Entitlement>) {
    && (forall k | 0 <= k < |ents| :: ents[k].invoice in invoices)
    && (forall i | i in invoices :: Active(ents, i) == if Settled(invoices[i].status) then 1 else 0)
    && (forall i | i in invoices :: invoices[i].settledAt.Some? <==> Settled(invoices[i].status))
  }

  /** `total` pays `bill` in full or within tolerance. */
  predicate Covers(policy: MoneyPolicy, bill: Bill, total: int) {
    total > 0 && (total >= bill.due || total >= bill.due - UnderpayTolerance(policy, bill.due, bill.decimals, bill.rate))
  }

  ghost predicate Backed(policy: MoneyPolicy, invoices: map<nat, Invoice>, payments: seq<Payment>) {
    forall i | i in invoices && Settled(invoices[i].status) ::
      Covers(policy, invoices[i].bill, Total(payments, i, invoices[i].bill, CreditedOnly))
  }

  /** What the outbox says was credited to a user. */
  function CreditedUsd(outbox: seq<Notice>, user: nat): real {
    if |outbox| == 0 then 0.0
    else
      var n := outbox[|outbox| - 1];
      CreditedUsd(outbox[..|outbox| - 1], user)
      + (if n.kind == OverpaidCreditedNotice && n.user == user then UsdOf(n.credit) else 0.0)
  }

  ghost predicate BalancesMatch(balances: map<nat, real>, outbox: seq<Notice>, grants: nat) {
    && (forall user: nat :: BalanceOf(balances, user) == CreditedUsd(outbox, user))
    && (forall k | 0 <= k < |outbox| && outbox[k].kind == OverpaidCreditedNotice ::
          outbox[k].dedup.Grant? && outbox[k].dedup.id < grants)
  }

  ghost predicate UniqueKeys(outbox: seq<Notice>) {
    forall j, k | 0 <= j < k < |outbox| ::
      !(outbox[j].kind == outbox[k].kind && outbox[j].ref == outbox[k].ref && outbox[j].dedup == outbox[k].dedup)
  }

  /** Outbox rows that credit the excess of an invoice. */
  function CreditRows(outbox: seq<Notice>, i: nat): nat {
    if |outbox| == 0 then 0
    else
      var n := outbox[|outbox| - 1];
      CreditRows(outbox[..|outbox| - 1], i) + (if n.kind == OverpaidCreditedNotice && n.ref == i then 1 else 0)
  }

  /** An invoice's excess is credited at most once per grant. */
  ghost predicate RowsWithinGrants(outbox: seq<Notice>, ents: seq<Entitlement>) {
    forall i: nat :: CreditRows(outbox, i) <= Grants(ents, i)
  }

  ghost predicate Inv(policy: MoneyPolicy, l: Ledger) {
    && RowsWithinGrants(l.outbox, l.entitlements)
    && GrantsMatch(l.invoices, l.entitlements)
    && Backed(policy, l.invoices, l.payments)
    && BalancesMatch(l.balances, l.outbox, |l.entitlements|)
    && UniqueKeys(l.outbox)
  }

  // ---- Totals ----------------------------------------------------------------------------

  /** If whatever `sel` takes from one table `sel'` takes from the other, the second total is at
      least the first. */
  lemma {:induction false} TotalAtMost(p: seq<Payment>, p': seq<Payment>, i: nat, bill: Bill, sel: Selector,
                                       sel': Selector)
    requires |p| == |p'|
    requires forall k | 0 <= k < |p| && Selected(p[k], i, bill, sel) ::
               Selected(p'[k], i, bill, sel') && p[k].amount == p'[k].amount
    ensures Total(p, i, bill, sel) <= Total(p', i, bill, sel')
  {
    hide Selected;
    if |p| > 0 {
      TotalAtMost(p[..|p| - 1], p'[..|p| - 1], i, bill, sel, sel');
    }
  }

  lemma TotalSame(p: seq<Payment>, p': seq<Payment>, i: nat, bill: Bill, sel: Selector, sel': Selector)
    requires |p| == |p'|
    requires forall k | 0 <= k < |p| ::
               p[k].amount == p'[k].amount && (Selected(p[k], i, bill, sel) <==> Selected(p'[k], i, bill, sel'))
    ensures Total(p, i, bill, sel) == Total(p', i, bill, sel')
  {
    hide Selected, Total;
    TotalAtMost(p, p', i, bill, sel, sel');
    TotalAtMost(p', p, i, bill, sel', sel);
  }

  /** Promotion and crediting touch only payments of their own invoice, and only their status. */
  lemma OtherInvoicesUntouched(payments: seq<Payment>, i: nat, bill: Bill, cutoff: int, head: int, j: nat, other: Bill,
                               sel: Selector)
    requires i != j
    ensures Total(Promoted(payments, i, bill, cutoff), j, other, sel) == Total(payments, j, other, sel)
    ensures Total(CreditedPayments(payments, i, bill, cutoff, head), j, other, sel) == Total(payments, j, other, sel)
  {
    TotalSame(Promoted(payments, i, bill, cutoff), payments, j, other, sel, sel);
    TotalSame(CreditedPayments(payments, i, bill, cutoff, head), payments, j, other, sel, sel);
  }

  /** After promotion the creditable total is the whole deep part of the candidates. */
  lemma PromotedTotal(payments: seq<Payment>, i: nat, bill: Bill, cutoff: int)
    ensures Total(Promoted(payments, i, bill, cutoff), i, bill, Creditable(cutoff))
         == Total(payments, i, bill, Deep(cutoff))
  {
    TotalSame(Promoted(payments, i, bill, cutoff), payments, i, bill, Creditable(cutoff), Deep(cutoff));
  }

  /** Crediting turns the creditable total into credited money. */
  lemma CreditedTotal(payments: seq<Payment>, i: nat, bill: Bill, cutoff: int, head: int)
    ensures Total(CreditedPayments(payments, i, bill, cutoff, head), i, bill, CreditedOnly)
         >= Total(payments, i, bill, Creditable(cutoff))
  {
    TotalAtMost(payments, CreditedPayments(payments, i, bill, cutoff, head), i, bill, Creditable(cutoff), CreditedOnly);
  }

  // ---- Counting grants -------------------------------------------------------------------

  lemma ActiveAppend(ents: seq<Entitlement>, e: Entitlement, i: nat)
    ensures Active(ents + [e], i) == Active(ents, i) + if e.invoice == i && !e.revoked then 1 else 0
  {
    assert (ents + [e])[..|ents|] == ents;
  }

  lemma {:induction false} ActiveRevoked(ents: seq<Entitlement>, ids: seq<nat>, i: nat)
    ensures Active(Revoked(ents, ids), i) == if i in ids then 0 else Active(ents, i)
  {
    if |ents| > 0 {
      var init := ents[..|ents| - 1];
      ActiveRevoked(init, ids, i);
      assert Revoked(ents, ids)[..|ents| - 1] == Revoked(init, ids);
    }
  }

  lemma {:induction false} ActiveIsDifference(ents: seq<Entitlement>, i: nat)
    ensures Active(ents, i) == Grants(ents, i) - Revocations(ents, i)
  {
    if |ents| > 0 {
      ActiveIsDifference(ents[..|ents| - 1], i);
    }
  }

  lemma {:induction false} ActiveMeans(ents: seq<Entitlement>, i: nat)
    ensures Active(ents, i) > 0 <==> exists k | 0 <= k < |ents| :: ents[k].invoice == i && !ents[k].revoked
  {
    if |ents| > 0 {
      var init := ents[..|ents| - 1];
      ActiveMeans(init, i);
      assert forall k | 0 <= k < |init| :: init[k] == ents[k];
      if Active(init, i) > 0 {
        var k :| 0 <= k < |init| && init[k].invoice == i && !init[k].revoked;
        assert ents[k].invoice == i && !ents[k].revoked;
      }
    }
  }

  // ---- The outbox ------------------------------------------------------------------------

  lemma CreditedUsdAppend(outbox: seq<Notice>, n: Notice, user: nat)
    ensures CreditedUsd(outbox + [n], user)
         == CreditedUsd(outbox, user) + if n.kind == OverpaidCreditedNotice && n.user == user then UsdOf(n.credit) else 0.0
  {
    assert (outbox + [n])[..|outbox|] == outbox;
  }

  lemma EnqueuedUnique(outbox: seq<Notice>, n: Notice)
    requires UniqueKeys(outbox)
    ensures UniqueKeys(Enqueued(outbox, n))
  {
  }

  /** Messages of other kinds leave the balances' record alone. */
  lemma EnqueuedOther(balances: map<nat, real>, outbox: seq<Notice>, grants: nat, n: Notice)
    requires BalancesMatch(balances, outbox, grants) && n.kind != OverpaidCreditedNotice
    ensures BalancesMatch(balances, Enqueued(outbox, n), grants)
  {
    forall user: nat
      ensures BalanceOf(balances, user) == CreditedUsd(Enqueued(outbox, n), user)
    {
      CreditedUsdAppend(outbox, n, user);
    }
  }

  lemma BalancesGrow(balances: map<nat, real>, outbox: seq<Notice>, grants: nat, grants': nat)
    requires BalancesMatch(balances, outbox, grants) && grants <= grants'
    ensures BalancesMatch(balances, outbox, grants')
  {
  }

  lemma CreditNonNegative(raw: int, decimals: nat, rate: Rate)
    requires raw >= 0
    ensures CreditableUsd(raw, decimals, rate) >= 0.0
  {
    var scale := Pow10(decimals) as real;
    var x := raw as real / scale;
    assert x * scale == raw as real;
    Scale(0.0, x, scale);
    Scale(0.0, x, rate);
  }

  /** A new grant id is new to the outbox, so the excess is credited and recorded together. */
  lemma GrantKeepsBalances(balances: map<nat, real>, outbox: seq<Notice>, i: nat, user: nat, grant: nat, d: Decision,
                           credit: Credit)
    requires BalancesMatch(balances, outbox, grant) && UsdOf(credit) >= 0.0
    ensures CreditsBalance(outbox, i, grant, d) == (d.outcome == OverpaidCredited)
    ensures BalancesMatch(if d.outcome == OverpaidCredited then BalanceAdded(balances, user, UsdOf(credit)) else balances,
                          GrantNotices(outbox, i, user, grant, d, credit), grant + 1)
  {
    hide BalancesMatch, HasKey;
    var first := Notice(user, InvoiceSettled, i, Grant(grant), NoCredit);
    var sent := Enqueued(outbox, first);
    EnqueuedOther(balances, outbox, grant, first);
    BalancesGrow(balances, sent, grant, grant + 1);
    NewGrantIsFree(balances, outbox, i, grant);
    if d.outcome == OverpaidCredited {
      NewGrantIsFree(balances, sent, i, grant);
      CreditRecorded(balances, sent, grant, Notice(user, OverpaidCreditedNotice, i, Grant(grant), credit));
    } else if d.outcome == OverpaidRefundPending {
      EnqueuedOther(balances, sent, grant + 1, Notice(user, RefundPending, i, Grant(grant), NoCredit));
    }
  }

  lemma NewGrantIsFree(balances: map<nat, real>, outbox: seq<Notice>, i: nat, grant: nat)
    requires BalancesMatch(balances, outbox, grant)
    ensures !HasKey(outbox, OverpaidCreditedNotice, i, Grant(grant))
  {
  }

  lemma CreditRecorded(balances: map<nat, real>, outbox: seq<Notice>, grant: nat, n: Notice)
    requires BalancesMatch(balances, outbox, grant)
    requires n.kind == OverpaidCreditedNotice && n.dedup == Grant(grant) && UsdOf(n.credit) >= 0.0
    ensures BalancesMatch(BalanceAdded(balances, n.user, UsdOf(n.credit)), outbox + [n], grant + 1)
  {
    forall user: nat
      ensures BalanceOf(BalanceAdded(balances, n.user, UsdOf(n.credit)), user) == CreditedUsd(outbox + [n], user)
    {
      CreditedUsdAppend(outbox, n, user);
    }
  }

  lemma CreditRowsAppend(outbox: seq<Notice>, n: Notice, i: nat)
    ensures CreditRows(outbox + [n], i) == CreditRows(outbox, i)
              + if n.kind == OverpaidCreditedNotice && n.ref == i then 1 else 0
  {
    assert (outbox + [n])[..|outbox|] == outbox;
  }

  lemma OtherNoticeRows(outbox: seq<Notice>, ents: seq<Entitlement>, n: Notice)
    requires RowsWithinGrants(outbox, ents) && n.kind != OverpaidCreditedNotice
    ensures RowsWithinGrants(Enqueued(outbox, n), ents)
  {
    forall i: nat
      ensures CreditRows(Enqueued(outbox, n), i) <= Grants(ents, i)
    {
      CreditRowsAppend(outbox, n, i);
    }
  }

  lemma GrantRows(outbox: seq<Notice>, ents: seq<Entitlement>, e: Entitlement, grant: nat, d: Decision, credit: Credit)
    requires RowsWithinGrants(outbox, ents) && !e.revoked
    ensures RowsWithinGrants(GrantNotices(outbox, e.invoice, e.user, grant, d, credit), ents + [e])
  {
    hide HasKey;
    var sent := Enqueued(outbox, Notice(e.user, InvoiceSettled, e.invoice, Grant(grant), NoCredit));
    forall i: nat
      ensures CreditRows(GrantNotices(outbox, e.invoice, e.user, grant, d, credit), i) <= Grants(ents + [e], i)
    {
      assert (ents + [e])[..|ents|] == ents;
      CreditRowsAppend(outbox, Notice(e.user, InvoiceSettled, e.invoice, Grant(grant), NoCredit), i);
      CreditRowsAppend(sent, Notice(e.user, OverpaidCreditedNotice, e.invoice, Grant(grant), credit), i);
      CreditRowsAppend(sent, Notice(e.user, RefundPending, e.invoice, Grant(grant), NoCredit), i);
    }
  }

  lemma {:induction false} GrantsRevoked(ents: seq<Entitlement>, ids: seq<nat>, i: nat)
    ensures Grants(Revoked(ents, ids), i) == Grants(ents, i)
  {
    if |ents| > 0 {
      var init := ents[..|ents| - 1];
      GrantsRevoked(init, ids, i);
      assert Revoked(ents, ids)[..|ents| - 1] == Revoked(init, ids);
    }
  }

  lemma {:induction false} RevokeRows(outbox: seq<Notice>, ents: seq<Entitlement>, ids: seq<nat>, n: nat)
    requires n <= |ents| && RowsWithinGrants(outbox, ents)
    ensures RowsWithinGrants(RevokeNotices(outbox, ents, ids, n), ents)
  {
    hide RowsWithinGrants, Enqueued;
    if n > 0 {
      RevokeRows(outbox, ents, ids, n - 1);
      OtherNoticeRows(RevokeNotices(outbox, ents, ids, n - 1), ents,
                      Notice(ents[n - 1].user, EntitlementRevoked, ents[n - 1].invoice, Grant(n - 1), NoCredit));
    }
  }

  lemma ReorgRows(outbox: seq<Notice>, ents: seq<Entitlement>, ids: seq<nat>)
    requires RowsWithinGrants(outbox, ents)
    ensures RowsWithinGrants(RevokeNotices(outbox, ents, ids, |ents|), Revoked(ents, ids))
  {
    hide CreditRows, Grants, Revoked, RevokeNotices;
    RevokeRows(outbox, ents, ids, |ents|);
    forall i: nat
      ensures Grants(Revoked(ents, ids), i) == Grants(ents, i)
    {
      GrantsRevoked(ents, ids, i);
    }
  }

  // ---- Each transaction keeps the invariant ----------------------------------------------

  lemma StatusKeepsGrants(invoices: map<nat, Invoice>, ents: seq<Entitlement>, i: nat, status: InvoiceStatus)
    requires GrantsMatch(invoices, ents) && i in invoices
    requires !Settled(invoices[i].status) && !Settled(status)
    ensures GrantsMatch(WithStatus(invoices, i, status, Keep), ents)
  {
  }

  lemma StatusKeepsBacking(policy: MoneyPolicy, invoices: map<nat, Invoice>, payments: seq<Payment>, i: nat,
                           status: InvoiceStatus)
    requires Backed(policy, invoices, payments) && i in invoices && !Settled(status)
    ensures Backed(policy, WithStatus(invoices, i, status, Keep), payments)
  {
    hide Covers, Total;
  }

  lemma PromotionKeepsBacking(policy: MoneyPolicy, invoices: map<nat, Invoice>, payments: seq<Payment>, i: nat,
                              cutoff: int)
    requires Backed(policy, invoices, payments) && i in invoices && !Settled(invoices[i].status)
    ensures Backed(policy, invoices, Promoted(payments, i, invoices[i].bill, cutoff))
  {
    hide Covers, Total;
    forall j | j in invoices && Settled(invoices[j].status)
      ensures Covers(policy, invoices[j].bill,
                     Total(Promoted(payments, i, invoices[i].bill, cutoff), j, invoices[j].bill, CreditedOnly))
    {
      OtherInvoicesUntouched(payments, i, invoices[i].bill, cutoff, 0, j, invoices[j].bill, CreditedOnly);
    }
  }

  lemma GrantKeepsGrants(invoices: map<nat, Invoice>, ents: seq<Entitlement>, i: nat, status: InvoiceStatus, now: int,
                         e: Entitlement)
    requires GrantsMatch(invoices, ents) && i in invoices && !Settled(invoices[i].status) && Settled(status)
    requires e.invoice == i && !e.revoked
    ensures GrantsMatch(WithStatus(invoices, i, status, Mark(now)), ents + [e])
  {
    hide Active;
    forall j | j in invoices
      ensures Active(ents + [e], j) == if Settled(WithStatus(invoices, i, status, Mark(now))[j].status) then 1 else 0
    {
      ActiveAppend(ents, e, j);
    }
  }

  lemma GrantKeepsBacking(policy: MoneyPolicy, invoices: map<nat, Invoice>, payments: seq<Payment>, i: nat,
                          status: InvoiceStatus,
                          now: int, cutoff: int, head: int)
    requires Backed(policy, invoices, payments) && i in invoices
    requires Covers(policy, invoices[i].bill, Total(payments, i, invoices[i].bill, Creditable(cutoff)))
    ensures Backed(policy, WithStatus(invoices, i, status, Mark(now)),
                   CreditedPayments(payments, i, invoices[i].bill, cutoff, head))
  {
    hide Total;
    CreditedTotal(payments, i, invoices[i].bill, cutoff, head);
    var after := CreditedPayments(payments, i, invoices[i].bill, cutoff, head);
    forall j | j in invoices && j != i && Settled(invoices[j].status)
      ensures Covers(policy, invoices[j].bill, Total(after, j, invoices[j].bill, CreditedOnly))
    {
      OtherInvoicesUntouched(payments, i, invoices[i].bill, cutoff, head, j, invoices[j].bill, CreditedOnly);
    }
  }

  lemma AppliedKeeps(policy: MoneyPolicy, l: Ledger, i: nat, cutoff: int, now: int)
    requires Inv(policy, l) && i in l.invoices
    requires var d := Judge(policy, l.invoices[i].bill, Total(l.payments, i, l.invoices[i].bill, Creditable(cutoff)), now);
             Granting(d.outcome)
    ensures var d := Judge(policy, l.invoices[i].bill, Total(l.payments, i, l.invoices[i].bill, Creditable(cutoff)), now);
            Inv(policy, Applied(l, i, d, cutoff, now).ledger)
  {
    var bill := l.invoices[i].bill;
    var d := Judge(policy, bill, Total(l.payments, i, bill, Creditable(cutoff)), now);
    hide Total, GrantsMatch, RowsWithinGrants, Backed, BalancesMatch, UniqueKeys, GrantNotices, CreditedPayments,
         WithStatus, UsdOf,
         UnderpayTolerance, OverpayTolerance, BalanceAdded, ReviewOpened, RefundCreated;
    if Live(l.invoices[i].status) {
      GrantKeepsGrants(l.invoices, l.entitlements, i, SettledStatus(d.outcome), now,
                       Entitlement(bill.user, bill.product, i, false));
      GrantKeepsBacking(policy, l.invoices, l.payments, i, SettledStatus(d.outcome), now, cutoff,
                        HeadOf(l.heads, bill.chain));
      var credit := Credit(d.Excess(), bill.decimals, bill.rate);
      CreditNonNegative(d.Excess(), bill.decimals, bill.rate);
      GrantKeepsBalances(l.balances, l.outbox, i, bill.user, |l.entitlements|, d, credit);
      GrantNoticesUnique(l.outbox, i, bill.user, |l.entitlements|, d, credit);
      GrantRows(l.outbox, l.entitlements, Entitlement(bill.user, bill.product, i, false), |l.entitlements|, d, credit);
    }
  }

  lemma GrantNoticesUnique(outbox: seq<Notice>, i: nat, user: nat, grant: nat, d: Decision, credit: Credit)
    requires UniqueKeys(outbox)
    ensures UniqueKeys(GrantNotices(outbox, i, user, grant, d, credit))
  {
    hide UniqueKeys, Enqueued;
    var first := Notice(user, InvoiceSettled, i, Grant(grant), NoCredit);
    EnqueuedUnique(outbox, first);
    EnqueuedUnique(Enqueued(outbox, first), Notice(user, OverpaidCreditedNotice, i, Grant(grant), credit));
    EnqueuedUnique(Enqueued(outbox, first), Notice(user, RefundPending, i, Grant(grant), NoCredit));
  }

  lemma PreparedKeeps(policy: MoneyPolicy, l: Ledger, i: nat)
    requires Inv(policy, l) && i in l.invoices && Live(l.invoices[i].status)
    ensures Inv(policy, Prepared(l, i))
  {
    hide Total, GrantsMatch, RowsWithinGrants, Backed, BalancesMatch, UniqueKeys, Promoted, CutoffFor,
         AnomaliesReviewed;
    PromotionKeepsBacking(policy, l.invoices, l.payments, i,
                          CutoffFor(l, l.invoices[i].bill, Total(l.payments, i, l.invoices[i].bill, Candidates)));
  }

  lemma ShortfallKeeps(policy: MoneyPolicy, l: Ledger, i: nat, d: Decision)
    requires Inv(policy, l) && i in l.invoices
    ensures Inv(policy, AppliedPartially(l, i, d).ledger) && Inv(policy, AppliedUnderpaid(l, i, d).ledger)
  {
    hide GrantsMatch, RowsWithinGrants, Backed, BalancesMatch, UniqueKeys, WithStatus, Enqueued, ReviewOpened;
    if Live(l.invoices[i].status) {
      var user := l.invoices[i].bill.user;
      StatusKeepsGrants(l.invoices, l.entitlements, i, PartiallyPaidStatus);
      StatusKeepsGrants(l.invoices, l.entitlements, i, ManualReview);
      StatusKeepsBacking(policy, l.invoices, l.payments, i, PartiallyPaidStatus);
      StatusKeepsBacking(policy, l.invoices, l.payments, i, ManualReview);
      EnqueuedOther(l.balances, l.outbox, |l.entitlements|,
                    Notice(user, InvoiceUnderpaid, i, Amount(d.total), NoCredit));
      EnqueuedOther(l.balances, l.outbox, |l.entitlements|,
                    Notice(user, InvoiceManualReview, i, Amount(d.total), NoCredit));
      OtherNoticeRows(l.outbox, l.entitlements, Notice(user, InvoiceUnderpaid, i, Amount(d.total), NoCredit));
      OtherNoticeRows(l.outbox, l.entitlements, Notice(user, InvoiceManualReview, i, Amount(d.total), NoCredit));
      EnqueuedUnique(l.outbox, Notice(user, InvoiceUnderpaid, i, Amount(d.total), NoCredit));
      EnqueuedUnique(l.outbox, Notice(user, InvoiceManualReview, i, Amount(d.total), NoCredit));
    }
  }

  lemma RefusedKeeps(policy: MoneyPolicy, l: Ledger, i: nat)
    requires Inv(policy, l) && i in l.invoices
    ensures Inv(policy, Refused(l, i).ledger)
  {
    hide GrantsMatch, RowsWithinGrants, Backed, BalancesMatch, UniqueKeys, WithStatus, ReviewOpened;
    if Live(l.invoices[i].status) {
      StatusKeepsGrants(l.invoices, l.entitlements, i, ManualReview);
      StatusKeepsBacking(policy, l.invoices, l.payments, i, ManualReview);
    }
  }

  lemma ConcludedKeeps(policy: MoneyPolicy, l: Ledger, i: nat, candidateTotal: int, cutoff: int, now: int)
    requires Inv(policy, l) && i in l.invoices
    ensures Inv(policy, Concluded(l, i, candidateTotal, cutoff, now, policy).ledger)
  {
    hide Inv, Applied, AppliedPartially, AppliedUnderpaid, Total, Judge;
    var bill := l.invoices[i].bill;
    var d := Judge(policy, bill, Total(l.payments, i, bill, Creditable(cutoff)), now);
    ShortfallKeeps(policy, l, i, d);
    if Granting(d.outcome) {
      AppliedKeeps(policy, l, i, cutoff, now);
    }
  }

  lemma SettleKeeps(policy: MoneyPolicy, l: Ledger, i: nat, now: int, authentic: (nat, Bill) -> bool)
    requires Inv(policy, l)
    ensures Inv(policy, SettleInvoice(l, i, now, policy, authentic).ledger)
  {
    if i in l.invoices {
      RefusedKeeps(policy, l, i);
      var inv := l.invoices[i];
      if Live(inv.status) {
        PreparedKeeps(policy, l, i);
        var candidateTotal := Total(l.payments, i, inv.bill, Candidates);
        hide Total, GrantsMatch, RowsWithinGrants, Backed, BalancesMatch, UniqueKeys, CutoffFor, AnomaliesReviewed,
             Concluded, Prepared, Refused;
        ConcludedKeeps(policy, Prepared(l, i), i, candidateTotal, CutoffFor(l, inv.bill, candidateTotal), now);
      }
    }
  }

  // ---- Reorgs ----------------------------------------------------------------------------

  lemma {:induction false} TouchedAre(payments: seq<Payment>, blocks: seq<Block>, chain: nat, n: nat)
    requires n <= |payments|
    ensures forall i :: i in TouchedInvoices(payments, blocks, chain, n)
              <==> exists k | 0 <= k < n :: Reverts(payments[k], blocks, chain) && payments[k].invoice == Some(i)
  {
    hide Reverts;
    if n > 0 {
      TouchedAre(payments, blocks, chain, n - 1);
    }
  }

  lemma ReorgKeepsGrants(invoices: map<nat, Invoice>, ents: seq<Entitlement>, ids: seq<nat>, now: int)
    requires GrantsMatch(invoices, ents)
    ensures GrantsMatch(Unsettled(invoices, ids, now), Revoked(ents, ids))
  {
    hide Active;
    forall i | i in invoices
      ensures Active(Revoked(ents, ids), i) == if Settled(Unsettled(invoices, ids, now)[i].status) then 1 else 0
    {
      ActiveRevoked(ents, ids, i);
    }
  }

  lemma ReorgKeepsBacking(policy: MoneyPolicy, invoices: map<nat, Invoice>, payments: seq<Payment>, blocks: seq<Block>,
                          chain: nat, now: int)
    requires Backed(policy, invoices, payments)
    ensures Backed(policy, Unsettled(invoices, TouchedInvoices(payments, blocks, chain, |payments|), now),
                   RevertedPayments(payments, blocks, chain))
  {
    var ids := TouchedInvoices(payments, blocks, chain, |payments|);
    TouchedAre(payments, blocks, chain, |payments|);
    hide Total, TouchedInvoices, Covers, Reverts;
    var after := RevertedPayments(payments, blocks, chain);
    forall i | i in invoices && i !in ids && Settled(invoices[i].status)
      ensures Covers(policy, invoices[i].bill, Total(after, i, invoices[i].bill, CreditedOnly))
    {
      TotalSame(after, payments, i, invoices[i].bill, CreditedOnly, CreditedOnly);
    }
  }

  lemma {:induction false} RevokeNoticesKeep(balances: map<nat, real>, outbox: seq<Notice>, grants: nat,
                                             ents: seq<Entitlement>, ids: seq<nat>, n: nat)
    requires n <= |ents| && BalancesMatch(balances, outbox, grants) && UniqueKeys(outbox)
    ensures BalancesMatch(balances, RevokeNotices(outbox, ents, ids, n), grants)
    ensures UniqueKeys(RevokeNotices(outbox, ents, ids, n))
  {
    hide BalancesMatch, UniqueKeys, Enqueued;
    if n > 0 {
      RevokeNoticesKeep(balances, outbox, grants, ents, ids, n - 1);
      var before, notice := RevokeNotices(outbox, ents, ids, n - 1),
                            Notice(ents[n - 1].user, EntitlementRevoked, ents[n - 1].invoice, Grant(n - 1), NoCredit);
      EnqueuedOther(balances, before, grants, notice);
      EnqueuedUnique(before, notice);
    }
  }

  lemma ReorgKeeps(policy: MoneyPolicy, l: Ledger, chain: nat, now: int)
    requires Inv(policy, l)
    ensures Inv(policy, HandleReorg(l, chain, now))
  {
    hide GrantsMatch, RowsWithinGrants, Backed, BalancesMatch, UniqueKeys, RevertedPayments, Revoked, Unsettled,
         RevokeNotices, TouchedInvoices;
    var ids := TouchedInvoices(l.payments, l.blocks, chain, |l.payments|);
    ReorgKeepsGrants(l.invoices, l.entitlements, ids, now);
    ReorgKeepsBacking(policy, l.invoices, l.payments, l.blocks, chain, now);
    ReorgRows(l.outbox, l.entitlements, ids);
    RevokeNoticesKeep(l.balances, l.outbox, |l.entitlements|, l.entitlements, ids, |l.entitlements|);
  }

  // ---- Sweeps ----------------------------------------------------------------------------

  lemma {:induction false} SweepKeeps(policy: MoneyPolicy, l: Ledger, ids: seq<nat>, now: int)
    requires Inv(policy, l)
    ensures Inv(policy, SweepExpired(l, ids, now))
  {
    hide GrantsMatch, RowsWithinGrants, Backed, BalancesMatch, UniqueKeys, WithStatus, ReviewOpened, HasMoney;
    if |ids| > 0 {
      SweepKeeps(policy, l, ids[..|ids| - 1], now);
      var before, i := SweepExpired(l, ids[..|ids| - 1], now), ids[|ids| - 1];
      if i in before.invoices && Live(before.invoices[i].status) {
        StatusKeepsGrants(before.invoices, before.entitlements, i, ManualReview);
        StatusKeepsGrants(before.invoices, before.entitlements, i, Expired);
        StatusKeepsBacking(policy, before.invoices, before.payments, i, ManualReview);
        StatusKeepsBacking(policy, before.invoices, before.payments, i, Expired);
      }
    }
  }

  lemma {:induction false} ExpireKeeps(policy: MoneyPolicy, l: Ledger, ids: seq<nat>, now: int)
    requires Inv(policy, l)
    ensures Inv(policy, ExpireStale(l, ids, now))
  {
    hide GrantsMatch, RowsWithinGrants, Backed, BalancesMatch, UniqueKeys, WithStatus, Enqueued, HasPayments;
    if |ids| > 0 {
      ExpireKeeps(policy, l, ids[..|ids| - 1], now);
      var before, i := ExpireStale(l, ids[..|ids| - 1], now), ids[|ids| - 1];
      if i in before.invoices && Live(before.invoices[i].status) {
        StatusKeepsGrants(before.invoices, before.entitlements, i, Expired);
        StatusKeepsBacking(policy, before.invoices, before.payments, i, Expired);
        var notice := Notice(before.invoices[i].bill.user, InvoiceExpired, i, RateLock, NoCredit);
        EnqueuedOther(before.balances, before.outbox, |before.entitlements|, notice);
        EnqueuedUnique(before.outbox, notice);
        OtherNoticeRows(before.outbox, before.entitlements, notice);
      }
    }
  }

  // ---- Runs ------------------------------------------------------------------------------

  /** Everything that can happen to the ledger: the settler's transactions, the watcher's writes,
      and what the bot, the buyer and the operator may do. Writes the schema rejects do nothing. */
  datatype Step =
    | CreateInvoice(id: nat, bill: Bill)
    | CancelInvoice(invoice: nat)
    | InsertPayment(payment: Payment)
    | Watch(blocks: seq<Block>, heads: map<nat, nat>)
    | Operate(reviews: seq<Review>, refunds: seq<Refund>)
    | Settle(invoice: nat, now: int)
    | Reorg(chain: nat, now: int)
    | Sweep(ids: seq<nat>, now: int)
    | Expire(ids: seq<nat>, now: int)

  predicate Insertable(invoices: map<nat, Invoice>, p: Payment) {
    (p.status == SeenPayment || p.status == IgnoredDust) && (p.invoice.Some? ==> p.invoice.value in invoices)
  }

  function Next(policy: MoneyPolicy, authentic: (nat, Bill) -> bool, l: Ledger, step: Step): Ledger {
    match step
    case CreateInvoice(i, bill) => if i in l.invoices then l else l.(invoices := l.invoices[i := Invoice(bill, Awaiting, None)])
    case CancelInvoice(i) =>
      if i in l.invoices && Live(l.invoices[i].status) then l.(invoices := WithStatus(l.invoices, i, Cancelled, Keep))
      else l
    case InsertPayment(p) => if Insertable(l.invoices, p) then l.(payments := l.payments + [p]) else l
    case Watch(blocks, heads) => l.(blocks := blocks, heads := heads)
    case Operate(reviews, refunds) => l.(reviews := reviews, refunds := refunds)
    case Settle(i, now) => SettleInvoice(l, i, now, policy, authentic).ledger
    case Reorg(chain, now) => HandleReorg(l, chain, now)
    case Sweep(ids, now) => SweepExpired(l, ids, now)
    case Expire(ids, now) => ExpireStale(l, ids, now)
  }

  const EMPTY := Ledger(map[], [], [], [], map[], [], [], [], [], map[])

  function Run(policy: MoneyPolicy, authentic: (nat, Bill) -> bool, steps: seq<Step>): Ledger {
    if |steps| == 0 then EMPTY
    else Next(policy, authentic, Run(policy, authentic, steps[..|steps| - 1]), steps[|steps| - 1])
  }

  lemma CreateKeeps(policy: MoneyPolicy, l: Ledger, i: nat, bill: Bill)
    requires Inv(policy, l) && i !in l.invoices
    ensures Inv(policy, l.(invoices := l.invoices[i := Invoice(bill, Awaiting, None)]))
  {
    hide BalancesMatch, RowsWithinGrants, UniqueKeys, Covers, Total;
    ActiveMeans(l.entitlements, i);
    hide Active;
  }

  lemma InsertKeeps(policy: MoneyPolicy, l: Ledger, p: Payment)
    requires Inv(policy, l) && p.status != Credited
    ensures Inv(policy, l.(payments := l.payments + [p]))
  {
    hide BalancesMatch, RowsWithinGrants, UniqueKeys, GrantsMatch, Covers;
    assert (l.payments + [p])[..|l.payments|] == l.payments;
  }

  lemma NextKeeps(policy: MoneyPolicy, authentic: (nat, Bill) -> bool, l: Ledger, step: Step)
    requires Inv(policy, l)
    ensures Inv(policy, Next(policy, authentic, l, step))
  {
    hide GrantsMatch, RowsWithinGrants, Backed, BalancesMatch, UniqueKeys, WithStatus, SettleInvoice, HandleReorg,
         SweepExpired, ExpireStale;
    match step
    case CreateInvoice(i, bill) =>
      if i !in l.invoices {
        CreateKeeps(policy, l, i, bill);
      }
    case CancelInvoice(i) =>
      if i in l.invoices && Live(l.invoices[i].status) {
        StatusKeepsGrants(l.invoices, l.entitlements, i, Cancelled);
        StatusKeepsBacking(policy, l.invoices, l.payments, i, Cancelled);
      }
    case InsertPayment(p) =>
      if Insertable(l.invoices, p) {
        InsertKeeps(policy, l, p);
      }
    case Watch(_, _) =>
    case Operate(_, _) =>
    case Settle(i, now) => SettleKeeps(policy, l, i, now, authentic);
    case Reorg(chain, now) => ReorgKeeps(policy, l, chain, now);
    case Sweep(ids, now) => SweepKeeps(policy, l, ids, now);
    case Expire(ids, now) => ExpireKeeps(policy, l, ids, now);
  }

  lemma {:induction false} RunKeeps(policy: MoneyPolicy, authentic: (nat, Bill) -> bool, steps: seq<Step>)
    ensures Inv(policy, Run(policy, authentic, steps))
  {
    hide Inv, Next;
    if |steps| == 0 {
      EmptyKeeps(policy);
    } else {
      RunKeeps(policy, authentic, steps[..|steps| - 1]);
      NextKeeps(policy, authentic, Run(policy, authentic, steps[..|steps| - 1]), steps[|steps| - 1]);
    }
  }

  lemma EmptyKeeps(policy: MoneyPolicy)
    ensures Inv(policy, EMPTY)
  {
  }

  // ---- The main results ------------------------------------------------------------------

  /** Access is always backed by money: in every reachable ledger an active entitlement's invoice
      has credited, right-asset, right-chain, unreverted payments covering the bill. */
  lemma AccessIsBacked(policy: MoneyPolicy, authentic: (nat, Bill) -> bool, steps: seq<Step>, k: nat)
    requires var l := Run(policy, authentic, steps); k < |l.entitlements| && !l.entitlements[k].revoked
    ensures var l := Run(policy, authentic, steps);
            var i := l.entitlements[k].invoice;
            && i in l.invoices && Settled(l.invoices[i].status)
            && Covers(policy, l.invoices[i].bill, Total(l.payments, i, l.invoices[i].bill, CreditedOnly))
  {
    hide Covers, Total, Run;
    RunKeeps(policy, authentic, steps);
    var l := Run(policy, authentic, steps);
    ActiveMeans(l.entitlements, l.entitlements[k].invoice);
    hide Active;
  }

  /** Under the default table nobody holds access for less than 99.5% of the bill. */
  lemma AccessCostsAlmostAll(authentic: (nat, Bill) -> bool, steps: seq<Step>, k: nat)
    requires var l := Run(DEFAULT_POLICY, authentic, steps); k < |l.entitlements| && !l.entitlements[k].revoked
    ensures var l := Run(DEFAULT_POLICY, authentic, steps);
            var i := l.entitlements[k].invoice;
            i in l.invoices
            && Total(l.payments, i, l.invoices[i].bill, CreditedOnly) as real >= l.invoices[i].bill.due as real * 0.995
  {
    hide Total, Run;
    AccessIsBacked(DEFAULT_POLICY, authentic, steps, k);
    var l := Run(DEFAULT_POLICY, authentic, steps);
    var i := l.entitlements[k].invoice;
    var bill, total := l.invoices[i].bill, Total(l.payments, i, l.invoices[i].bill, CreditedOnly);
    GrantingCondition(DEFAULT_POLICY, bill.due, total, bill.decimals, bill.rate, 0, 0);
    DefaultTolerance(bill.due, total, bill.decimals, bill.rate, 0, 0);
  }

  /** Compare-and-set alone prevents double grants: nothing here enforces uniqueness of active
      entitlements, and yet an invoice is paid or overpaid exactly when it has one, and grants
      minus revocations is always 0 or 1. */
  lemma OneGrantAtATime(policy: MoneyPolicy, authentic: (nat, Bill) -> bool, steps: seq<Step>, i: nat)
    requires i in Run(policy, authentic, steps).invoices
    ensures var l := Run(policy, authentic, steps);
            && Grants(l.entitlements, i) - Revocations(l.entitlements, i) == Active(l.entitlements, i)
            && Active(l.entitlements, i) == if Settled(l.invoices[i].status) then 1 else 0
  {
    hide Run;
    RunKeeps(policy, authentic, steps);
    ActiveIsDifference(Run(policy, authentic, steps).entitlements, i);
  }

  /** The lost-race branch is unreachable: when an entitlement is inserted the invoice has no active
      one, so a unique index on active entitlements would never have refused it. */
  lemma GrantNeverConflicts(policy: MoneyPolicy, authentic: (nat, Bill) -> bool, steps: seq<Step>, i: nat, now: int)
    requires SettleInvoice(Run(policy, authentic, steps), i, now, policy, authentic).grant.Some?
    ensures var l := Run(policy, authentic, steps);
            && Active(l.entitlements, i) == 0
            && Active(SettleInvoice(l, i, now, policy, authentic).ledger.entitlements, i) == 1
  {
    var l := Run(policy, authentic, steps);
    hide Run, Active, Total, CutoffFor, Judge, CreditedPayments, GrantNotices;
    RunKeeps(policy, authentic, steps);
    SettleKeeps(policy, l, i, now, authentic);
  }

  /** A balance is exactly the sum of the excesses its owner's outbox rows say were credited. */
  lemma BalancesAreExact(policy: MoneyPolicy, authentic: (nat, Bill) -> bool, steps: seq<Step>, user: nat)
    ensures var l := Run(policy, authentic, steps); BalanceOf(l.balances, user) == CreditedUsd(l.outbox, user)
  {
    hide Run;
    RunKeeps(policy, authentic, steps);
  }

  /** An excess is credited at most once per grant, so at most once more than it was taken back. */
  lemma ExcessCreditedPerGrant(policy: MoneyPolicy, authentic: (nat, Bill) -> bool, steps: seq<Step>, i: nat)
    requires i in Run(policy, authentic, steps).invoices
    ensures var l := Run(policy, authentic, steps);
            CreditRows(l.outbox, i) <= Revocations(l.entitlements, i) + (if Settled(l.invoices[i].status) then 1 else 0)
  {
    hide Run;
    RunKeeps(policy, authentic, steps);
    OneGrantAtATime(policy, authentic, steps, i);
  }
}
