/** What a transaction writes, row by row: which payments count and at what depth, what becomes of each
    payment, which cases are opened and which messages are queued, and what the sweeps decide. */
module SettlerRows {
  import opened Wrappers
  import opened SettlerMoney
  import opened SettlerLedger
  import opened SettlerSafety
  import opened SettlerLaws
  import opened SettlerOutcomes

  // ---- Depth -----------------------------------------------------------------------------

  /** A block is deep enough exactly when it has the bill's number of confirmations and, if what is at
      stake is worth more than the bill's threshold, lies at or below a final block of the chain. */
  lemma CutoffMeans(l: Ledger, i: nat, block: nat)
    requires i in l.invoices
    ensures var bill := l.invoices[i].bill;
            var head := if bill.chain in l.heads then l.heads[bill.chain] else 0;
            var stake := Sum(StakeOf(l.payments, i, bill));
            block <= CutoffOf(l, i)
            <==> && head - block + 1 >= bill.minConfirmations
                 && (RawToUsd(stake, bill.decimals, bill.rate) > bill.threshold ==>
                       exists b | b in l.blocks :: b.chain == bill.chain && b.status == Final && b.number >= block)
  {
    var bill := l.invoices[i].bill;
    TotalsAreSums(l.payments, i, bill, 0);
    var finality := NeedsFinality(Total(l.payments, i, bill, Candidates), bill.decimals, bill.rate, bill.threshold);
    hide Total, RawToUsd;
    CutoffMeaning(HeadOf(l.heads, bill.chain), bill.minConfirmations, finality,
                  if finality then FinalizedHead(l.blocks, bill.chain) else None, block);
    hide CutoffHeight;
  }

  /** Which invoices are decided at all. */
  lemma DecidableMeans(l: Ledger, i: nat, authentic: (nat, Bill) -> bool)
    ensures Decidable(l, i, authentic)
       <==> && i in l.invoices && l.invoices[i].bill.assetChain == l.invoices[i].bill.chain
            && authentic(i, l.invoices[i].bill)
            && var s := l.invoices[i].status; s == Awaiting || s == Seen || s == PartiallyPaidStatus
  {
  }

  // ---- Payments --------------------------------------------------------------------------

  /** The payment arrived for this invoice, in its asset and on its chain, and nothing but lateness is
      held against it. */
  predicate Standing(p: Payment, i: nat, bill: Bill) {
    && p.invoice == Some(i) && p.asset == bill.asset && p.chain == bill.chain
    && p.anomaly != Some(WrongAsset) && p.anomaly != Some(WrongChain) && p.anomaly != Some(Dust)
    && p.anomaly != Some(OrphanPayment) && p.anomaly != Some(UnassignedPayment)
    && p.status != Reverted && p.status != IgnoredDust
  }

  lemma StandingMeans(p: Payment, i: nat, bill: Bill)
    ensures Standing(p, i, bill) <==> Selected(p, i, bill, Candidates)
  {
    if p.anomaly.Some? {
      match p.anomaly.value
      case WrongAsset => case WrongChain => case Late => case Dust => case OrphanPayment => case UnassignedPayment =>
    }
  }

  /** What a settlement does to each payment. One that stands and is deep enough is confirmed if it was
      only seen; on a grant it is credited, with the confirmations it has. No other row changes. */
  lemma PaymentRows(l: Ledger, i: nat, now: int, policy: MoneyPolicy, authentic: (nat, Bill) -> bool, k: nat)
    requires Decidable(l, i, authentic) && Sum(StakeOf(l.payments, i, l.invoices[i].bill)) > 0 && k < |l.payments|
    ensures var r, bill, p := SettleInvoice(l, i, now, policy, authentic), l.invoices[i].bill, l.payments[k];
            var head := if bill.chain in l.heads then l.heads[bill.chain] else 0;
            && |r.ledger.payments| == |l.payments|
            && r.ledger.payments[k]
               == if !Standing(p, i, bill) || p.block > CutoffOf(l, i) || p.status == Credited then p
                  else if r.grant.None? then p.(status := Confirmed)
                  else p.(status := Credited,
                          confirmationsAtCredit := Some(if p.block <= head then head - p.block + 1 else 0))
  {
    hide *;
    SettledRow(l, i, now, policy, authentic, k);
    var bill := l.invoices[i].bill;
    OneRow(l.payments[k], i, bill, CutoffOf(l, i), HeadOf(l.heads, bill.chain));
    HeadMeans(l.heads, bill.chain);
  }

  lemma HeadMeans(heads: map<nat, nat>, chain: nat)
    ensures HeadOf(heads, chain) == if chain in heads then heads[chain] else 0
  {
  }

  lemma SettledRow(l: Ledger, i: nat, now: int, policy: MoneyPolicy, authentic: (nat, Bill) -> bool, k: nat)
    requires Decidable(l, i, authentic) && Sum(StakeOf(l.payments, i, l.invoices[i].bill)) > 0 && k < |l.payments|
    ensures i in l.invoices
    ensures var r, bill := SettleInvoice(l, i, now, policy, authentic), l.invoices[i].bill;
            var seen := PromotedOne(l.payments[k], i, bill, CutoffOf(l, i));
            && |r.ledger.payments| == |l.payments|
            && r.ledger.payments[k] == if r.grant.None? then seen
                                       else CreditedOne(seen, i, bill, CutoffOf(l, i), HeadOf(l.heads, bill.chain))
  {
    var bill, cutoff := l.invoices[i].bill, CutoffOf(l, i);
    TotalsAreSums(l.payments, i, bill, 0);
    Concludes(l, i, now, policy, authentic);
    hide SettleInvoice, Concluded, Total, CutoffFor, AnomaliesReviewed, StakeOf, Sum, PromotedOne, CreditedOne;
    ConcludedPayments(Prepared(l, i), i, Total(l.payments, i, bill, Candidates), cutoff, now, policy);
  }

  lemma OneRow(p: Payment, i: nat, bill: Bill, cutoff: int, head: nat)
    ensures var seen := PromotedOne(p, i, bill, cutoff);
            if !Standing(p, i, bill) || p.block > cutoff || p.status == Credited
            then seen == p && CreditedOne(seen, i, bill, cutoff, head) == p
            else && seen == p.(status := Confirmed)
                 && CreditedOne(seen, i, bill, cutoff, head)
                    == p.(status := Credited,
                          confirmationsAtCredit := Some(if p.block <= head then head - p.block + 1 else 0))
  {
    StandingMeans(p, i, bill);
    StandingMeans(PromotedOne(p, i, bill, cutoff), i, bill);
    hide Selected;
  }

  lemma ConcludedPayments(l: Ledger, i: nat, candidateTotal: int, cutoff: int, now: int, policy: MoneyPolicy)
    requires i in l.invoices && Live(l.invoices[i].status)
    ensures var r, bill := Concluded(l, i, candidateTotal, cutoff, now, policy), l.invoices[i].bill;
            r.ledger.payments == if r.grant.None? then l.payments
                                 else CreditedPayments(l.payments, i, bill, cutoff, HeadOf(l.heads, bill.chain))
  {
    hide Total, Judge, CreditedPayments, GrantNotices, ReviewOpened, RefundCreated, Enqueued, UsdOf;
  }

  // ---- Cases -----------------------------------------------------------------------------

  /** No two open cases are about the same payment, or of the same kind about the same invoice as a
      whole. */
  ghost predicate CasesUnique(reviews: seq<Review>) {
    forall a, b | 0 <= a < b < |reviews| && reviews[a].open && reviews[b].open ::
      && (reviews[a].payment.Some? ==> reviews[a].payment != reviews[b].payment)
      && (reviews[a].payment.None? && reviews[b].payment.None? ==>
            !(reviews[a].kind == reviews[b].kind && reviews[a].invoice == reviews[b].invoice))
  }

  /** Opening a case keeps that, loses no case, adds at most this one, and afterwards a case of the kind
      asked for, or one about the payment, is open. */
  lemma OpeningKeepsUnique(reviews: seq<Review>, kind: ReviewKind, invoice: Option<nat>, payment: Option<nat>)
    requires CasesUnique(reviews)
    ensures var after := ReviewOpened(reviews, kind, invoice, payment);
            && CasesUnique(after) && (after == reviews || after == reviews + [Review(kind, invoice, payment, true)])
            && exists k | 0 <= k < |after| ::
                 && after[k].open && after[k].payment == payment
                 && (payment.None? ==> after[k].kind == kind && after[k].invoice == invoice)
  {
    var after := ReviewOpened(reviews, kind, invoice, payment);
    if ReviewBlocked(reviews, kind, invoice, payment) {
      var k :| 0 <= k < |reviews| && reviews[k].open
               && ((payment.Some? && reviews[k].payment == payment)
                   || (reviews[k].kind == kind && reviews[k].invoice == invoice && reviews[k].payment == payment));
      assert after[k].open && after[k].payment == payment;
    } else {
      assert after[|reviews|] == Review(kind, invoice, payment, true);
    }
  }

  ghost predicate HasCase(reviews: seq<Review>, payment: nat) {
    exists k | 0 <= k < |reviews| :: reviews[k].open && reviews[k].payment == Some(payment)
  }

  lemma HasCaseGrows(reviews: seq<Review>, more: seq<Review>, payment: nat)
    requires HasCase(reviews, payment) && reviews <= more
    ensures HasCase(more, payment)
  {
    var k :| 0 <= k < |reviews| && reviews[k].open && reviews[k].payment == Some(payment);
    assert more[k] == reviews[k];
  }

  lemma {:induction false} ReviewedHasCases(reviews: seq<Review>, payments: seq<Payment>, i: nat, n: nat, k: nat)
    requires k < n <= |payments| && payments[k].invoice == Some(i) && payments[k].anomaly.Some?
    requires payments[k].anomaly.value != Late && payments[k].anomaly.value != Dust
    ensures HasCase(AnomaliesReviewed(reviews, payments, i, n), k)
  {
    var before, after := AnomaliesReviewed(reviews, payments, i, n - 1), AnomaliesReviewed(reviews, payments, i, n);
    if k < n - 1 {
      ReviewedHasCases(reviews, payments, i, n - 1, k);
      HasCaseGrows(before, after, k);
    } else {
      assert Blocking(payments[k].anomaly) by {
        match payments[k].anomaly.value {
          case WrongAsset => case WrongChain => case OrphanPayment => case UnassignedPayment =>
        }
      }
      OpensCase(before, PaymentAnomaly(payments[k].anomaly.value), Some(i), k);
    }
  }

  lemma OpensCase(reviews: seq<Review>, kind: ReviewKind, invoice: Option<nat>, k: nat)
    ensures HasCase(ReviewOpened(reviews, kind, invoice, Some(k)), k)
  {
    var after := ReviewOpened(reviews, kind, invoice, Some(k));
    if ReviewBlocked(reviews, kind, invoice, Some(k)) {
      var j :| 0 <= j < |reviews| && reviews[j].open && reviews[j].payment == Some(k);
      assert after[j] == reviews[j];
    } else {
      assert after[|reviews|].open;
    }
  }

  lemma ReviewsGrow(l: Ledger, i: nat, now: int, policy: MoneyPolicy, authentic: (nat, Bill) -> bool)
    requires Decidable(l, i, authentic)
    ensures AnomaliesReviewed(l.reviews, l.payments, i, |l.payments|)
         <= SettleInvoice(l, i, now, policy, authentic).ledger.reviews
  {
    hide Total, CutoffFor, Judge, CreditedPayments, GrantNotices, RefundCreated, Enqueued, UsdOf, AnomaliesReviewed,
         Promoted, ReviewBlocked;
  }

  /** Whatever a settlement decides, every payment of the invoice in the wrong asset, on the wrong chain,
      orphaned or unassigned has an open case afterwards. */
  lemma AnomaliesHaveCases(l: Ledger, i: nat, now: int, policy: MoneyPolicy, authentic: (nat, Bill) -> bool, k: nat)
    requires Decidable(l, i, authentic) && k < |l.payments| && l.payments[k].invoice == Some(i)
    requires l.payments[k].anomaly.Some? && l.payments[k].anomaly.value != Late && l.payments[k].anomaly.value != Dust
    ensures exists c | 0 <= c < |SettleInvoice(l, i, now, policy, authentic).ledger.reviews| ::
              var review := SettleInvoice(l, i, now, policy, authentic).ledger.reviews[c];
              review.open && review.payment == Some(k)
  {
    var after := SettleInvoice(l, i, now, policy, authentic).ledger.reviews;
    ReviewedHasCases(l.reviews, l.payments, i, |l.payments|, k);
    ReviewsGrow(l, i, now, policy, authentic);
    HasCaseGrows(AnomaliesReviewed(l.reviews, l.payments, i, |l.payments|), after, k);
    hide SettleInvoice, AnomaliesReviewed;
  }

  // ---- Messages --------------------------------------------------------------------------

  ghost predicate Queued(outbox: seq<Notice>, kind: NoticeKind, ref: nat, dedup: Dedup) {
    exists k | 0 <= k < |outbox| :: outbox[k].kind == kind && outbox[k].ref == ref && outbox[k].dedup == dedup
  }

  lemma QueuedGrows(outbox: seq<Notice>, more: seq<Notice>, kind: NoticeKind, ref: nat, dedup: Dedup)
    requires Queued(outbox, kind, ref, dedup) && outbox <= more
    ensures Queued(more, kind, ref, dedup)
  {
    var k :| 0 <= k < |outbox| && outbox[k].kind == kind && outbox[k].ref == ref && outbox[k].dedup == dedup;
    assert more[k] == outbox[k];
  }

  lemma EnqueuedIsQueued(outbox: seq<Notice>, n: Notice)
    ensures Queued(Enqueued(outbox, n), n.kind, n.ref, n.dedup) && outbox <= Enqueued(outbox, n)
  {
    Posted(outbox, n);
  }

  lemma {:induction false} RevokeNoticesQueued(outbox: seq<Notice>, ents: seq<Entitlement>, ids: seq<nat>, n: nat,
                                               k: nat)
    requires k < n <= |ents| && ents[k].invoice in ids && !ents[k].revoked
    ensures Queued(RevokeNotices(outbox, ents, ids, n), EntitlementRevoked, ents[k].invoice, Grant(k))
  {
    hide Enqueued;
    var before, e := RevokeNotices(outbox, ents, ids, n - 1), ents[n - 1];
    EnqueuedIsQueued(before, Notice(e.user, EntitlementRevoked, e.invoice, Grant(n - 1), NoCredit));
    if k < n - 1 {
      RevokeNoticesQueued(outbox, ents, ids, n - 1, k);
      QueuedGrows(before, RevokeNotices(outbox, ents, ids, n), EntitlementRevoked, ents[k].invoice, Grant(k));
    }
  }

  /** Whoever loses access in a reorg is told. */
  lemma RevocationIsAnnounced(l: Ledger, chain: nat, now: int, k: nat)
    requires k < |l.entitlements| && !l.entitlements[k].revoked && LosesMoney(l, chain, l.entitlements[k].invoice)
    ensures exists n | 0 <= n < |HandleReorg(l, chain, now).outbox| ::
              var row := HandleReorg(l, chain, now).outbox[n];
              row.kind == EntitlementRevoked && row.ref == l.entitlements[k].invoice && row.dedup == Grant(k)
  {
    TouchedAre(l.payments, l.blocks, chain, |l.payments|);
    var p :| p in l.payments && Vanishes(l, chain, p) && p.invoice == Some(l.entitlements[k].invoice);
    RevertsMeans(l, chain, p);
    var ids := TouchedInvoices(l.payments, l.blocks, chain, |l.payments|);
    assert l.entitlements[k].invoice in ids;
    RevokeNoticesQueued(l.outbox, l.entitlements, ids, |l.entitlements|, k);
    hide RevokeNotices, TouchedInvoices, LosesMoney, Vanishes, RevertedPayments, Revoked, Unsettled;
    assert Queued(HandleReorg(l, chain, now).outbox, EntitlementRevoked, l.entitlements[k].invoice, Grant(k));
  }

  /** The message tells an entitlement's owner, for an entitlement that was active and lost its money. */
  ghost predicate Tells(row: Notice, l: Ledger, chain: nat) {
    && row.kind == EntitlementRevoked && row.dedup.Grant? && row.dedup.id < |l.entitlements|
    && var e := l.entitlements[row.dedup.id];
       !e.revoked && row.user == e.user && row.ref == e.invoice && LosesMoney(l, chain, e.invoice)
  }

  lemma {:induction false} RevokeNoticesTell(l: Ledger, chain: nat, ids: seq<nat>, n: nat)
    requires n <= |l.entitlements| && forall i :: i in ids <==> LosesMoney(l, chain, i)
    ensures var after := RevokeNotices(l.outbox, l.entitlements, ids, n);
            l.outbox <= after && forall k | |l.outbox| <= k < |after| :: Tells(after[k], l, chain)
  {
    hide LosesMoney, HasKey;
    if n > 0 {
      RevokeNoticesTell(l, chain, ids, n - 1);
    }
  }

  /** And nobody else is told anything by a reorg. */
  lemma OnlyRevocationsAreAnnounced(l: Ledger, chain: nat, now: int, k: nat)
    ensures var after := HandleReorg(l, chain, now).outbox;
            l.outbox <= after && (|l.outbox| <= k < |after| ==> Tells(after[k], l, chain))
  {
    TouchedLose(l, chain);
    RevokeNoticesTell(l, chain, TouchedInvoices(l.payments, l.blocks, chain, |l.payments|), |l.entitlements|);
    hide Tells, TouchedInvoices, RevokeNotices, RevertedPayments, Revoked, Unsettled;
  }

  /** A grant is announced, and so is what became of an excess; an excess to be refunded has an open case. */
  lemma GrantIsAnnounced(l: Ledger, i: nat, now: int, policy: MoneyPolicy, authentic: (nat, Bill) -> bool)
    requires SettleInvoice(l, i, now, policy, authentic).grant.Some?
    ensures var r, grant := SettleInvoice(l, i, now, policy, authentic), Grant(|l.entitlements|);
            && Queued(r.ledger.outbox, InvoiceSettled, i, grant)
            && (r.outcome == OverpaidCredited ==> Queued(r.ledger.outbox, OverpaidCreditedNotice, i, grant))
            && (r.outcome == OverpaidRefundPending ==>
                  && Queued(r.ledger.outbox, RefundPending, i, grant)
                  && exists k | 0 <= k < |r.ledger.reviews| ::
                       && r.ledger.reviews[k].open && r.ledger.reviews[k].kind == OverpaidReview
                       && r.ledger.reviews[k].invoice == Some(i))
  {
    GrantIsApplied(l, i, now, policy, authentic);
    var p, bill := Prepared(l, i), l.invoices[i].bill;
    var d := Judge(policy, bill, Total(p.payments, i, bill, Creditable(CutoffOf(l, i))), now);
    var credit := Credit(d.Excess(), bill.decimals, bill.rate);
    NoticesQueued(p.outbox, i, bill.user, |l.entitlements|, d, credit);
    Opened(p.reviews, OverpaidReview, i);
    hide Total, CutoffFor, AnomaliesReviewed, Judge, CreditedPayments, Promoted, SettleInvoice, GrantNotices,
         ReviewOpened, RefundCreated, CreditsBalance, UsdOf, Queued;
  }

  lemma NoticesQueued(outbox: seq<Notice>, i: nat, user: nat, grant: nat, d: Decision, credit: Credit)
    ensures var after := GrantNotices(outbox, i, user, grant, d, credit);
            && Queued(after, InvoiceSettled, i, Grant(grant))
            && (d.outcome == OverpaidCredited ==> Queued(after, OverpaidCreditedNotice, i, Grant(grant)))
            && (d.outcome == OverpaidRefundPending ==> Queued(after, RefundPending, i, Grant(grant)))
  {
    hide Enqueued;
    var settled := Notice(user, InvoiceSettled, i, Grant(grant), NoCredit);
    var sent := Enqueued(outbox, settled);
    EnqueuedIsQueued(outbox, settled);
    EnqueuedIsQueued(sent, Notice(user, OverpaidCreditedNotice, i, Grant(grant), credit));
    EnqueuedIsQueued(sent, Notice(user, RefundPending, i, Grant(grant), NoCredit));
    QueuedGrows(sent, GrantNotices(outbox, i, user, grant, d, credit), InvoiceSettled, i, Grant(grant));
  }

  // ---- Balances and the audit log --------------------------------------------------------

  /** In any ledger, reachable or not: a grant moves a balance exactly when the excess is kept and its
      message was not queued before, by the floored excess, and leaves every other balance alone. */
  lemma BalanceMovesOnce(l: Ledger, i: nat, now: int, policy: MoneyPolicy, authentic: (nat, Bill) -> bool, user: nat)
    requires SettleInvoice(l, i, now, policy, authentic).grant.Some?
    ensures var r, bill := SettleInvoice(l, i, now, policy, authentic), l.invoices[i].bill;
            var moves := && r.outcome == OverpaidCredited && user == bill.user
                         && !Queued(l.outbox, OverpaidCreditedNotice, i, Grant(|l.entitlements|));
            BalanceOf(r.ledger.balances, user)
            == BalanceOf(l.balances, user)
               + if moves then CreditableUsd(r.total - bill.due, bill.decimals, bill.rate) else 0.0
  {
    GrantIsApplied(l, i, now, policy, authentic);
    var bill, p := l.invoices[i].bill, Prepared(l, i);
    var d := Judge(policy, bill, Total(p.payments, i, bill, Creditable(CutoffOf(l, i))), now);
    CreditNonNegative(d.Excess(), bill.decimals, bill.rate);
    hide Total, CutoffFor, AnomaliesReviewed, GrantNotices, CreditedPayments, Promoted, SettleInvoice, CreditableUsd,
         UnderpayTolerance, OverpayTolerance, ReviewOpened, RefundCreated;
  }

  /** What a grant leaves in the audit log: the credit of a balance if there was one, and the settlement. */
  lemma GrantIsAudited(l: Ledger, i: nat, now: int, policy: MoneyPolicy, authentic: (nat, Bill) -> bool)
    requires SettleInvoice(l, i, now, policy, authentic).grant.Some?
    ensures var r, bill := SettleInvoice(l, i, now, policy, authentic), l.invoices[i].bill;
            var credited := && r.outcome == OverpaidCredited
                            && !Queued(l.outbox, OverpaidCreditedNotice, i, Grant(|l.entitlements|));
            r.ledger.audit == l.audit + (if credited then [Audit(BalanceAction, bill.user)] else [])
                              + [Audit(SettleAction(r.outcome), i)]
  {
    GrantIsApplied(l, i, now, policy, authentic);
    hide Total, CutoffFor, AnomaliesReviewed, GrantNotices, CreditedPayments, Promoted, SettleInvoice, CreditableUsd,
         Judge, ReviewOpened, RefundCreated, BalanceAdded;
  }

  predicate Distinct(ids: seq<nat>) {
    forall a, b | 0 <= a < b < |ids| :: ids[a] != ids[b]
  }

  lemma {:induction false} TouchedOnce(payments: seq<Payment>, blocks: seq<Block>, chain: nat, n: nat)
    requires n <= |payments|
    ensures Distinct(TouchedInvoices(payments, blocks, chain, n))
  {
    hide Reverts;
    if n > 0 {
      TouchedOnce(payments, blocks, chain, n - 1);
      var before, after := TouchedInvoices(payments, blocks, chain, n - 1), TouchedInvoices(payments, blocks, chain, n);
      if after != before {
        assert forall a | 0 <= a < |before| :: before[a] in before && after[a] == before[a];
      }
    }
  }

  /** A reorg is recorded once for every invoice that lost money, and for no other. */
  lemma ReorgIsAudited(l: Ledger, chain: nat, now: int)
    ensures l.audit <= HandleReorg(l, chain, now).audit
    ensures var more := HandleReorg(l, chain, now).audit[|l.audit|..];
            && (forall a | a in more :: a.action == RevokeAction && LosesMoney(l, chain, a.target))
            && (forall i | LosesMoney(l, chain, i) :: Audit(RevokeAction, i) in more)
            && (forall a, b | 0 <= a < b < |more| :: more[a] != more[b])
  {
    var ids := TouchedInvoices(l.payments, l.blocks, chain, |l.payments|);
    TouchedOnce(l.payments, l.blocks, chain, |l.payments|);
    TouchedLose(l, chain);
    hide TouchedInvoices, LosesMoney, RevertedPayments, Revoked, Unsettled, RevokeNotices;
    var more := HandleReorg(l, chain, now).audit[|l.audit|..];
    assert more == RevokeAudit(ids);
    AuditOf(ids);
  }

  lemma AuditOf(ids: seq<nat>)
    requires Distinct(ids)
    ensures forall a | a in RevokeAudit(ids) :: a.action == RevokeAction && a.target in ids
    ensures forall i | i in ids :: Audit(RevokeAction, i) in RevokeAudit(ids)
    ensures forall a, b | 0 <= a < b < |RevokeAudit(ids)| :: RevokeAudit(ids)[a] != RevokeAudit(ids)[b]
  {
    forall i | i in ids
      ensures Audit(RevokeAction, i) in RevokeAudit(ids)
    {
      var k :| 0 <= k < |ids| && ids[k] == i;
      assert RevokeAudit(ids)[k] == Audit(RevokeAction, i);
    }
    forall a, b | 0 <= a < b < |RevokeAudit(ids)|
      ensures RevokeAudit(ids)[a] != RevokeAudit(ids)[b]
    {
      assert ids[a] != ids[b];
    }
  }

  lemma TouchedLose(l: Ledger, chain: nat)
    ensures forall i :: i in TouchedInvoices(l.payments, l.blocks, chain, |l.payments|) <==> LosesMoney(l, chain, i)
  {
    TouchedAre(l.payments, l.blocks, chain, |l.payments|);
    forall p
      ensures Reverts(p, l.blocks, chain) <==> Vanishes(l, chain, p)
    {
      RevertsMeans(l, chain, p);
    }
    hide Reverts, Vanishes, TouchedInvoices;
  }

  // ---- The sweeps ------------------------------------------------------------------------

  /** The status of every invoice after a sweep of the expired ones. */
  lemma SweepDecides(l: Ledger, ids: seq<nat>, now: int, i: nat)
    requires i in l.invoices
    ensures var l', s := SweepExpired(l, ids, now), l.invoices[i].status;
            && i in l'.invoices
            && l'.invoices[i].status
               == if || (s != Awaiting && s != Seen && s != PartiallyPaidStatus) || i !in ids
                     || now <= l.invoices[i].bill.topupUntil
                  then s
                  else if exists p | p in l.payments ::
                            p.invoice == Some(i) && p.status != Reverted && p.status != IgnoredDust
                  then ManualReview else Expired
  {
    if Live(l.invoices[i].status) {
      SweepNeverWritesOff(l, ids, now, i);
      MoneyMeans(l.payments, i);
    } else {
      SweepLeaves(l, ids, now, i);
    }
    hide SweepExpired, HasMoney;
  }

  lemma MoneyMeans(payments: seq<Payment>, i: nat)
    ensures HasMoney(payments, i)
       <==> exists p | p in payments :: p.invoice == Some(i) && p.status != Reverted && p.status != IgnoredDust
    ensures HasPayments(payments, i) <==> exists p | p in payments :: p.invoice == Some(i)
  {
    if exists p | p in payments :: p.invoice == Some(i) && p.status != Reverted && p.status != IgnoredDust {
      var p :| p in payments && p.invoice == Some(i) && p.status != Reverted && p.status != IgnoredDust;
      var k :| 0 <= k < |payments| && payments[k] == p;
      assert payments[k].invoice == Some(i) && Arrived(payments[k].status);
    }
  }

  lemma {:induction false} SweepLeaves(l: Ledger, ids: seq<nat>, now: int, i: nat)
    requires i in l.invoices && !Live(l.invoices[i].status)
    ensures var l' := SweepExpired(l, ids, now); i in l'.invoices && l'.invoices[i] == l.invoices[i]
    ensures var l' := ExpireStale(l, ids, now); i in l'.invoices && l'.invoices[i] == l.invoices[i]
  {
    hide HasMoney, HasPayments, ReviewOpened, Enqueued;
    if |ids| > 0 {
      SweepLeaves(l, ids[..|ids| - 1], now, i);
    }
  }

  /** The status of every invoice after a pass over those past their rate lock. */
  lemma ExpiryDecides(l: Ledger, ids: seq<nat>, now: int, i: nat)
    requires i in l.invoices
    ensures var l', s := ExpireStale(l, ids, now), l.invoices[i].status;
            && i in l'.invoices
            && l'.invoices[i].status
               == if || (s != Awaiting && s != Seen && s != PartiallyPaidStatus) || i !in ids
                     || now <= l.invoices[i].bill.rateLockedUntil || exists p | p in l.payments :: p.invoice == Some(i)
                  then s else Expired
  {
    if Live(l.invoices[i].status) {
      ExpiryNeverWritesOff(l, ids, now, i);
      MoneyMeans(l.payments, i);
    } else {
      SweepLeaves(l, ids, now, i);
    }
    hide ExpireStale, HasPayments;
  }

  /** The sweep hands the invoice to a human: it was live, its window has passed, and money arrived. */
  ghost predicate DueForReview(l: Ledger, ids: seq<nat>, now: int, i: nat) {
    && i in ids && i in l.invoices && now > l.invoices[i].bill.topupUntil
    && (l.invoices[i].status == Awaiting || l.invoices[i].status == Seen || l.invoices[i].status == PartiallyPaidStatus)
    && exists p | p in l.payments :: p.invoice == Some(i) && p.status != Reverted && p.status != IgnoredDust
  }

  ghost predicate HasUnderpaidCase(reviews: seq<Review>, i: nat) {
    exists k | 0 <= k < |reviews| ::
      reviews[k].open && reviews[k].kind == Underpaid && reviews[k].invoice == Some(i) && reviews[k].payment.None?
  }

  lemma UnderpaidCaseGrows(reviews: seq<Review>, more: seq<Review>, i: nat)
    requires HasUnderpaidCase(reviews, i) && reviews <= more
    ensures HasUnderpaidCase(more, i)
  {
    var k :| 0 <= k < |reviews| && reviews[k].open && reviews[k].kind == Underpaid && reviews[k].invoice == Some(i)
             && reviews[k].payment.None?;
    assert more[k] == reviews[k];
  }

  lemma SweptOneReviews(l: Ledger, i: nat, now: int)
    ensures var after := SweptOne(l, i, now);
            && (after.reviews == l.reviews || after.reviews == l.reviews + [Review(Underpaid, Some(i), None, true)])
            && (DueForReview(l, [i], now, i) ==> HasUnderpaidCase(after.reviews, i))
            && (!DueForReview(l, [i], now, i) ==> after.reviews == l.reviews)
  {
    MoneyMeans(l.payments, i);
    Opened(l.reviews, Underpaid, i);
    hide HasMoney, ReviewBlocked;
  }

  /** After a sweep exactly the invoices handed to a human have got a case: each of them has one open, and
      no other case was opened. */
  lemma {:induction false} SweepOpensCases(l: Ledger, ids: seq<nat>, now: int)
    ensures var after := SweepExpired(l, ids, now);
            && l.reviews <= after.reviews
            && (forall i | DueForReview(l, ids, now, i) :: HasUnderpaidCase(after.reviews, i))
            && (forall k | |l.reviews| <= k < |after.reviews| ::
                  && after.reviews[k].kind == Underpaid && after.reviews[k].payment.None?
                  && after.reviews[k].invoice.Some?
                  && DueForReview(l, ids, now, after.reviews[k].invoice.value))
  {
    if |ids| > 0 {
      var init, last := ids[..|ids| - 1], ids[|ids| - 1];
      var mid, after := SweepExpired(l, init, now), SweepExpired(l, ids, now);
      SweepOpensCases(l, init, now);
      SweepPayments(l, init, now);
      SweptOneReviews(mid, last, now);
      DueWhen(l, init, last, now);
      hide SweptOne, SweepExpired, HasUnderpaidCase;
      forall i | DueForReview(l, ids, now, i)
        ensures HasUnderpaidCase(after.reviews, i)
      {
        if DueForReview(l, init, now, i) {
          UnderpaidCaseGrows(mid.reviews, after.reviews, i);
        } else {
          assert i == last;
        }
      }
    }
  }

  /** The last invoice of a sweep is handed over if it was due and has not been reached before. */
  lemma DueWhen(l: Ledger, init: seq<nat>, last: nat, now: int)
    ensures DueForReview(SweepExpired(l, init, now), [last], now, last)
       <==> DueForReview(l, init + [last], now, last) && last !in init
  {
    SweepPayments(l, init, now);
    if last in l.invoices {
      SweepDecides(l, init, now, last);
      if Live(l.invoices[last].status) {
        SweepNeverWritesOff(l, init, now, last);
      } else {
        SweepLeaves(l, init, now, last);
      }
    } else {
      SweepKeys(l, init, now);
    }
    hide SweepExpired;
  }

  lemma {:induction false} SweepKeys(l: Ledger, ids: seq<nat>, now: int)
    ensures SweepExpired(l, ids, now).invoices.Keys == l.invoices.Keys
  {
    hide HasMoney, ReviewOpened;
    if |ids| > 0 {
      SweepKeys(l, ids[..|ids| - 1], now);
    }
  }
}
