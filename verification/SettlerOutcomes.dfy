/** Which outcome each ledger leads to, and what each transaction does to the tables, in terms of rows
    and columns. */
module SettlerOutcomes {
  import opened Wrappers
  import opened SettlerMoney
  import opened SettlerLedger
  import opened SettlerSafety
  import opened SettlerLaws
  import opened SettlerCredits

  // ---- Totals ----------------------------------------------------------------------------

  /** What a payment contributes to the money at stake: its amount, if it arrived for this invoice in
      its asset and on its chain, and no anomaly but lateness stands against it. */
  function AtStake(p: Payment, i: nat, bill: Bill): nat {
    if p.invoice != Some(i) || p.asset != bill.asset || p.chain != bill.chain then 0
    else if p.anomaly == Some(WrongAsset) || p.anomaly == Some(WrongChain) || p.anomaly == Some(Dust) then 0
    else if p.anomaly == Some(OrphanPayment) || p.anomaly == Some(UnassignedPayment) then 0
    else if p.status == SeenPayment || p.status == Confirmed || p.status == Credited then p.amount
    else 0
  }

  function StakeOf(payments: seq<Payment>, i: nat, bill: Bill): (amounts: seq<int>)
    ensures |amounts| == |payments|
  {
    seq(|payments|, k requires 0 <= k < |payments| => AtStake(payments[k], i, bill))
  }

  function DeepStakeOf(payments: seq<Payment>, i: nat, bill: Bill, cutoff: int): (amounts: seq<int>)
    ensures |amounts| == |payments|
  {
    seq(|payments|, k requires 0 <= k < |payments| =>
      if payments[k].block <= cutoff then AtStake(payments[k], i, bill) else 0)
  }

  function CreditedStakeOf(payments: seq<Payment>, i: nat, bill: Bill): (amounts: seq<int>)
    ensures |amounts| == |payments|
  {
    seq(|payments|, k requires 0 <= k < |payments| =>
      if payments[k].status == Credited then AtStake(payments[k], i, bill) else 0)
  }

  /** The totals the settler takes are plain sums over the rows. */
  lemma {:induction false} TotalsAreSums(payments: seq<Payment>, i: nat, bill: Bill, cutoff: int)
    ensures Total(payments, i, bill, Candidates) == Sum(StakeOf(payments, i, bill))
    ensures Total(payments, i, bill, Deep(cutoff)) == Sum(DeepStakeOf(payments, i, bill, cutoff))
    ensures Total(payments, i, bill, CreditedOnly) == Sum(CreditedStakeOf(payments, i, bill))
  {
    if |payments| > 0 {
      var init := payments[..|payments| - 1];
      TotalsAreSums(init, i, bill, cutoff);
      StakeMeans(payments[|init|], i, bill, cutoff);
      hide Selected, AtStake;
      assert StakeOf(payments, i, bill)[..|init|] == StakeOf(init, i, bill);
      assert DeepStakeOf(payments, i, bill, cutoff)[..|init|] == DeepStakeOf(init, i, bill, cutoff);
      assert CreditedStakeOf(payments, i, bill)[..|init|] == CreditedStakeOf(init, i, bill);
    }
  }

  lemma StakeMeans(p: Payment, i: nat, bill: Bill, cutoff: int)
    ensures AtStake(p, i, bill) == if Selected(p, i, bill, Candidates) then p.amount else 0
    ensures Selected(p, i, bill, Deep(cutoff)) <==> Selected(p, i, bill, Candidates) && p.block <= cutoff
    ensures Selected(p, i, bill, CreditedOnly) <==> Selected(p, i, bill, Candidates) && p.status == Credited
  {
    if p.anomaly.Some? {
      match p.anomaly.value
      case WrongAsset => case WrongChain => case Late => case Dust => case OrphanPayment => case UnassignedPayment =>
    }
  }

  // ---- settle_invoice --------------------------------------------------------------------

  /** Nothing a buyer could notice has moved. */
  predicate Untouched(l: Ledger, after: Ledger) {
    && after.invoices == l.invoices && after.entitlements == l.entitlements && after.outbox == l.outbox
    && after.balances == l.balances && after.refunds == l.refunds && after.audit == l.audit
  }

  /** The outcomes of an invoice that is not decided, and the one of a MAC that fails. */
  lemma UndecidedOutcomes(l: Ledger, i: nat, now: int, policy: MoneyPolicy, authentic: (nat, Bill) -> bool)
    requires !Decidable(l, i, authentic)
    ensures var r := SettleInvoice(l, i, now, policy, authentic);
            && r.grant.None? && r.total == 0 && r.ledger.payments == l.payments
            && if i !in l.invoices then r.outcome == InvoiceNotFound && r.ledger == l
              
               else if l.invoices[i].bill.assetChain != l.invoices[i].bill.chain then
                 r.outcome == InconsistentInvoice && r.ledger == l
               else if !authentic(i, l.invoices[i].bill) then
                 && r.outcome == IntegrityFailed && r.ledger.audit == l.audit + [Audit(MacAction, i)]
                 && (exists k | 0 <= k < |r.ledger.reviews| ::
                       && r.ledger.reviews[k].open && r.ledger.reviews[k].kind == MacFailure
                       && r.ledger.reviews[k].invoice == Some(i))
                 && r.ledger.invoices.Keys == l.invoices.Keys
                 && r.ledger.invoices[i].status
                    == (var s := l.invoices[i].status;
                        if s == Awaiting || s == Seen || s == PartiallyPaidStatus then ManualReview else s)
               else
                 && r.ledger == l
                 && r.outcome == if l.invoices[i].status == PaidStatus || l.invoices[i].status == Overpaid
                                 then AlreadySettled else NotLive
  {
    if i in l.invoices && !authentic(i, l.invoices[i].bill) {
      var reviews := l.reviews;
      if ReviewBlocked(reviews, MacFailure, Some(i), None) {
      } else {
        assert ReviewOpened(reviews, MacFailure, Some(i), None)[|reviews|] == Review(MacFailure, Some(i), None, true);
      }
    }
  }

  /** Money that would settle the bill but is not deep enough yet leaves the invoice alone. */
  lemma WaitsForDepth(l: Ledger, i: nat, now: int, policy: MoneyPolicy, authentic: (nat, Bill) -> bool)
    requires Decidable(l, i, authentic)
    requires !Covers(policy, l.invoices[i].bill, CountedTotal(l, i))
    requires Covers(policy, l.invoices[i].bill, Total(l.payments, i, l.invoices[i].bill, Candidates))
    ensures var r := SettleInvoice(l, i, now, policy, authentic);
            r.outcome == AwaitingConfirmations && r.total == CountedTotal(l, i) && Untouched(l, r.ledger)
  {
    var bill, cutoff, c := l.invoices[i].bill, CutoffOf(l, i), Total(l.payments, i, l.invoices[i].bill, Candidates);
    PromotedTotal(l.payments, i, bill, cutoff);
    DeepWithinCandidates(l.payments, i, bill, cutoff);
    GrantingCondition(policy, bill.due, CountedTotal(l, i), bill.decimals, bill.rate, now, bill.topupUntil);
    GrantingCondition(policy, bill.due, c, bill.decimals, bill.rate, now, bill.topupUntil);
    Concludes(l, i, now, policy, authentic);
    hide Total, CutoffFor, Classify, Promoted, AnomaliesReviewed, SettleInvoice, UnderpayTolerance, Applied,
         AppliedPartially,
         AppliedUnderpaid;
  }

  /** Neither what counts nor what has arrived covers the bill. */
  lemma FallsShort(l: Ledger, i: nat, now: int, policy: MoneyPolicy, authentic: (nat, Bill) -> bool)
    requires Decidable(l, i, authentic)
    requires !Covers(policy, l.invoices[i].bill, Total(l.payments, i, l.invoices[i].bill, Candidates))
    ensures var r, bill, total := SettleInvoice(l, i, now, policy, authentic), l.invoices[i].bill, CountedTotal(l, i);
            if total == 0 then r.outcome == NoFunds && r.total == 0 && Untouched(l, r.ledger)
            else
              var partial := now <= bill.topupUntil;
              && r.outcome == (if partial then PartiallyPaid else UnderpaidManualReview) && r.total == total
              && r.ledger.invoices
                 == l.invoices[i := l.invoices[i].(status := if partial then PartiallyPaidStatus else ManualReview)]
              && r.ledger.entitlements == l.entitlements && r.ledger.balances == l.balances
              && r.ledger.refunds == l.refunds && r.ledger.audit == l.audit + [Audit(SettleAction(r.outcome), i)]
              && (!partial ==> exists k | 0 <= k < |r.ledger.reviews| ::
                                 && r.ledger.reviews[k].open && r.ledger.reviews[k].kind == Underpaid
                                 && r.ledger.reviews[k].invoice == Some(i) && r.ledger.reviews[k].payment.None?)
              && exists k | 0 <= k < |r.ledger.outbox| ::
                   && r.ledger.outbox[k].ref == i && r.ledger.outbox[k].dedup == Amount(total)
                   && r.ledger.outbox[k].kind == if partial then InvoiceUnderpaid else InvoiceManualReview
  {
    var bill, cutoff, c := l.invoices[i].bill, CutoffOf(l, i), Total(l.payments, i, l.invoices[i].bill, Candidates);
    PromotedTotal(l.payments, i, bill, cutoff);
    DeepWithinCandidates(l.payments, i, bill, cutoff);
    if c == 0 {
      LiveWithoutFunds(l, i, now, policy, authentic);
    } else {
      GrantingCondition(policy, bill.due, c, bill.decimals, bill.rate, now, bill.topupUntil);
      Concludes(l, i, now, policy, authentic);
      var p, total := Prepared(l, i), CountedTotal(l, i);
      ShortDecision(policy, bill, total, c, now);
      Posted(p.outbox, Notice(bill.user, InvoiceUnderpaid, i, Amount(total), NoCredit));
      Posted(p.outbox, Notice(bill.user, InvoiceManualReview, i, Amount(total), NoCredit));
      Opened(p.reviews, Underpaid, i);
      hide Total, CutoffFor, Classify, Promoted, AnomaliesReviewed, SettleInvoice, UnderpayTolerance, Enqueued,
           ReviewOpened, Applied;
    }
  }

  lemma ShortDecision(policy: MoneyPolicy, bill: Bill, total: nat, c: nat, now: int)
    requires !Covers(policy, bill, c) && total <= c
    ensures Judge(policy, bill, total, now).outcome
         == if total == 0 then NoFunds else if now <= bill.topupUntil then PartiallyPaid else UnderpaidManualReview
  {
    hide UnderpayTolerance, OverpayTolerance;
  }

  lemma Posted(outbox: seq<Notice>, n: Notice)
    ensures exists k | 0 <= k < |Enqueued(outbox, n)| ::
              && Enqueued(outbox, n)[k].ref == n.ref && Enqueued(outbox, n)[k].dedup == n.dedup
              && Enqueued(outbox, n)[k].kind == n.kind
  {
    if HasKey(outbox, n.kind, n.ref, n.dedup) {
      var k :| 0 <= k < |outbox| && outbox[k].kind == n.kind && outbox[k].ref == n.ref && outbox[k].dedup == n.dedup;
      assert Enqueued(outbox, n)[k] == outbox[k];
    } else {
      assert Enqueued(outbox, n)[|outbox|] == n;
    }
  }

  lemma Opened(reviews: seq<Review>, kind: ReviewKind, i: nat)
    ensures var after := ReviewOpened(reviews, kind, Some(i), None);
            exists k | 0 <= k < |after| ::
              after[k].open && after[k].kind == kind && after[k].invoice == Some(i) && after[k].payment.None?
  {
    if ReviewBlocked(reviews, kind, Some(i), None) {
      var k :| 0 <= k < |reviews| && reviews[k].open && reviews[k].kind == kind && reviews[k].invoice == Some(i)
               && reviews[k].payment.None?;
      assert ReviewOpened(reviews, kind, Some(i), None)[k] == reviews[k];
    } else {
      assert ReviewOpened(reviews, kind, Some(i), None)[|reviews|] == Review(kind, Some(i), None, true);
    }
  }

  /** Which kind of grant a covered bill gets. */
  lemma GrantOutcomes(l: Ledger, i: nat, now: int, policy: MoneyPolicy, authentic: (nat, Bill) -> bool)
    requires Decidable(l, i, authentic) && Covers(policy, l.invoices[i].bill, CountedTotal(l, i))
    ensures var r, bill, total := SettleInvoice(l, i, now, policy, authentic), l.invoices[i].bill, CountedTotal(l, i);
            && r.grant == Some(|l.entitlements|) && r.total == total
            && r.outcome == (if total == bill.due then Paid
                             else if total < bill.due then UnderpaidTolerated
                            
                             else if total - bill.due <= OverpayTolerance(policy, bill.due, bill.decimals, bill.rate)
                             then OverpaidCredited
                             else OverpaidRefundPending)
  {
    GrantsExactlyWhen(l, i, now, policy, authentic);
    GrantIsApplied(l, i, now, policy, authentic);
    PromotedTotal(l.payments, i, l.invoices[i].bill, CutoffOf(l, i));
    hide Total, CutoffFor, Promoted, AnomaliesReviewed, SettleInvoice, CreditedPayments, GrantNotices, CreditsBalance,
         UsdOf,
         UnderpayTolerance, OverpayTolerance, ReviewOpened, RefundCreated;
  }

  /** An excess beyond tolerance becomes one pending refund, of exactly the excess. */
  lemma RefundIsExact(l: Ledger, i: nat, now: int, policy: MoneyPolicy, authentic: (nat, Bill) -> bool)
    requires SettleInvoice(l, i, now, policy, authentic).grant.Some?
    ensures var r, bill := SettleInvoice(l, i, now, policy, authentic), l.invoices[i].bill;
            var blocked := exists k | 0 <= k < |l.refunds| :: l.refunds[k].invoice == i && l.refunds[k].pending;
            r.ledger.refunds == if r.outcome == OverpaidRefundPending && !blocked
                                then l.refunds + [Refund(i, r.total - bill.due, true)] else l.refunds
  {
    GrantIsApplied(l, i, now, policy, authentic);
    hide Total, CutoffFor, Promoted, AnomaliesReviewed, SettleInvoice, CreditedPayments, GrantNotices, CreditsBalance,
         UsdOf,
         UnderpayTolerance, OverpayTolerance, ReviewOpened;
  }

  // ---- handle_reorg ----------------------------------------------------------------------

  /** Every block the chain has at this height is orphaned, and there is one. */
  ghost predicate Emptied(l: Ledger, chain: nat, height: nat) {
    && (exists b | b in l.blocks :: b.chain == chain && b.number == height && b.status == Orphaned)
    && (forall b | b in l.blocks && b.chain == chain && b.number == height :: b.status == Orphaned)
  }

  /** Money that a reorg takes away. */
  ghost predicate Vanishes(l: Ledger, chain: nat, p: Payment) {
    && p.chain == chain && (p.status == SeenPayment || p.status == Confirmed || p.status == Credited)
    && Emptied(l, chain, p.block)
  }

  ghost predicate LosesMoney(l: Ledger, chain: nat, i: nat) {
    exists p | p in l.payments :: Vanishes(l, chain, p) && p.invoice == Some(i)
  }

  lemma RevertsMeans(l: Ledger, chain: nat, p: Payment)
    ensures Reverts(p, l.blocks, chain) <==> Vanishes(l, chain, p)
  {
    if EmptyHeight(l.blocks, chain, p.block) {
      var k :| 0 <= k < |l.blocks| && l.blocks[k].chain == chain && l.blocks[k].number == p.block
               && l.blocks[k].status == Orphaned;
      assert l.blocks[k] in l.blocks;
    }
  }

  /** A reorg, row by row: exactly the payments whose height holds nothing but orphaned blocks are
      reverted; exactly the invoices that lost money are unsettled, and lose every active grant. */
  lemma ReorgRows(l: Ledger, chain: nat, now: int)
    ensures var after := HandleReorg(l, chain, now);
            && |after.payments| == |l.payments| && |after.entitlements| == |l.entitlements|
            && after.invoices.Keys == l.invoices.Keys
            && (forall k | 0 <= k < |l.payments| ::
                  after.payments[k] == if Vanishes(l, chain, l.payments[k])
                                       then l.payments[k].(status := Reverted) else l.payments[k])
            && (forall k | 0 <= k < |l.entitlements| ::
                  after.entitlements[k] == if LosesMoney(l, chain, l.entitlements[k].invoice)
                                           then l.entitlements[k].(revoked := true) else l.entitlements[k])
            && (forall i | i in l.invoices ::
                  after.invoices[i]
                  == if && LosesMoney(l, chain, i)
                        && (l.invoices[i].status == PaidStatus || l.invoices[i].status == Overpaid)
                     then
                       l.invoices[i].(status := if now < l.invoices[i].bill.topupUntil then Awaiting else RevertedStatus,
                                      settledAt := None)
                     else l.invoices[i])
  {
    TouchedAre(l.payments, l.blocks, chain, |l.payments|);
    forall p
      ensures Reverts(p, l.blocks, chain) <==> Vanishes(l, chain, p)
    {
      RevertsMeans(l, chain, p);
    }
    hide Reverts, Vanishes, TouchedInvoices, RevokeNotices;
    var ids := TouchedInvoices(l.payments, l.blocks, chain, |l.payments|);
    forall i: nat
      ensures i in ids <==> LosesMoney(l, chain, i)
    {
      if LosesMoney(l, chain, i) {
        var p :| p in l.payments && Vanishes(l, chain, p) && p.invoice == Some(i);
        var k :| 0 <= k < |l.payments| && l.payments[k] == p;
        assert Reverts(l.payments[k], l.blocks, chain);
      }
    }
  }

  /** After a reorg no invoice that lost money is settled or gives access. */
  lemma ReorgTakesAccess(policy: MoneyPolicy, l: Ledger, chain: nat, now: int, i: nat)
    requires Inv(policy, l) && i in l.invoices && LosesMoney(l, chain, i)
    ensures var after := HandleReorg(l, chain, now);
            && after.invoices[i].status != PaidStatus && after.invoices[i].status != Overpaid
            && forall k | 0 <= k < |after.entitlements| && after.entitlements[k].invoice == i ::
                 after.entitlements[k].revoked
  {
    ReorgRows(l, chain, now);
    hide HandleReorg, LosesMoney;
  }
}
