/** The settler as it runs: tables that its statements change in place, and the transactions built
    from them. Each statement and each transaction is proved to do what the ledger functions say. */
module SettlerService {
  import opened Wrappers
  import opened SettlerMoney
  import opened SettlerLedger

  class Settler {
    const policy: MoneyPolicy
    const authentic: (nat, Bill) -> bool
    var invoices: map<nat, Invoice>
    var payments: seq<Payment>
    var entitlements: seq<Entitlement>
    var outbox: seq<Notice>
    var balances: map<nat, real>
    var reviews: seq<Review>
    var refunds: seq<Refund>
    var audit: seq<Audit>
    var blocks: seq<Block>
    var heads: map<nat, nat>

    constructor (policy: MoneyPolicy, authentic: (nat, Bill) -> bool)
      ensures this.policy == policy && this.authentic == authentic
      ensures View() == Ledger(map[], [], [], [], map[], [], [], [], [], map[])
    {
      this.policy, this.authentic := policy, authentic;
      invoices, payments, entitlements, outbox, balances := map[], [], [], [], map[];
      reviews, refunds, audit, blocks, heads := [], [], [], [], map[];
    }

    function View(): Ledger
      reads this
    {
      Ledger(invoices, payments, entitlements, outbox, balances, reviews, refunds, audit, blocks, heads)
    }

    // ---- Statements ----------------------------------------------------------------------

    /** Compare-and-set: the row moves only if its status is still one of `expected`. */
    method CasInvoiceStatus(i: nat, status: InvoiceStatus, expected: set<InvoiceStatus>, stamp: Stamp)
      returns (won: bool)
      modifies this`invoices
      ensures won == (i in old(invoices) && old(invoices)[i].status in expected)
      ensures invoices == if won then WithStatus(old(invoices), i, status, stamp) else old(invoices)
    {
      won := i in invoices && invoices[i].status in expected;
      if won {
        invoices := invoices[i := invoices[i].(status := status, settledAt := Stamped(stamp, invoices[i].settledAt))];
      }
    }

    method PromotePaymentToConfirmed(k: nat) returns (moved: bool)
      requires k < |payments|
      modifies this`payments
      ensures moved == (old(payments)[k].status == SeenPayment)
      ensures payments == if moved then old(payments)[k := old(payments)[k].(status := Confirmed)] else old(payments)
    {
      moved := payments[k].status == SeenPayment;
      if moved {
        payments := payments[k := payments[k].(status := Confirmed)];
      }
    }

    method CreditPayment(k: nat, confirmations: int) returns (moved: bool)
      requires k < |payments|
      modifies this`payments
      ensures moved == (old(payments)[k].status == Confirmed)
      ensures payments == if moved
                          then old(payments)[k :=
                                  old(payments)[k].(status := Credited, confirmationsAtCredit := Some(confirmations))]
                          else old(payments)
    {
      moved := payments[k].status == Confirmed;
      if moved {
        payments := payments[k := payments[k].(status := Credited, confirmationsAtCredit := Some(confirmations))];
      }
    }

    method InsertEntitlement(user: nat, product: nat, i: nat) returns (grant: nat)
      modifies this`entitlements
      ensures grant == |old(entitlements)| && entitlements == old(entitlements) + [Entitlement(user, product, i, false)]
    {
      grant := |entitlements|;
      entitlements := entitlements + [Entitlement(user, product, i, false)];
    }

    method EnqueueNotification(n: Notice) returns (inserted: bool)
      modifies this`outbox
      ensures inserted == !HasKey(old(outbox), n.kind, n.ref, n.dedup)
      ensures outbox == Enqueued(old(outbox), n)
    {
      inserted := !HasKey(outbox, n.kind, n.ref, n.dedup);
      if inserted {
        outbox := outbox + [n];
      }
    }

    method OpenManualReview(kind: ReviewKind, invoice: Option<nat>, payment: Option<nat>)
      modifies this`reviews
      ensures reviews == ReviewOpened(old(reviews), kind, invoice, payment)
    {
      if !ReviewBlocked(reviews, kind, invoice, payment) {
        reviews := reviews + [Review(kind, invoice, payment, true)];
      }
    }

    method CreateRefundRequest(i: nat, amount: int)
      modifies this`refunds
      ensures refunds == RefundCreated(old(refunds), i, amount)
    {
      if !RefundBlocked(refunds, i) {
        refunds := refunds + [Refund(i, amount, true)];
      }
    }

    method CreditInternalBalance(user: nat, usd: real)
      modifies this`balances
      ensures balances == BalanceAdded(old(balances), user, usd)
    {
      if usd > 0.0 {
        balances := balances[user := BalanceOf(balances, user) + usd];
      }
    }

    method WriteAudit(action: Action, target: nat)
      modifies this`audit
      ensures audit == old(audit) + [Audit(action, target)]
    {
      audit := audit + [Audit(action, target)];
    }

    // ---- settle_invoice ------------------------------------------------------------------

    method OpenReviewsForAnomalies(i: nat)
      modifies this`reviews
      ensures reviews == AnomaliesReviewed(old(reviews), payments, i, |payments|)
    {
      hide ReviewOpened;
      for k := 0 to |payments|
        invariant reviews == AnomaliesReviewed(old(reviews), payments, i, k)
      {
        var p := payments[k];
        if p.invoice == Some(i) && Blocking(p.anomaly) {
          OpenManualReview(PaymentAnomaly(p.anomaly.value), Some(i), Some(k));
        }
      }
    }

    /** The amounts of the payments that may count. */
    method CandidateTotal(i: nat, bill: Bill) returns (total: int)
      ensures total == Total(payments, i, bill, Candidates)
    {
      hide Selected;
      var amounts := [];
      for k := 0 to |payments|
        invariant Sum(amounts) == Total(payments[..k], i, bill, Candidates)
      {
        assert payments[..k + 1][..k] == payments[..k];
        if Selected(payments[k], i, bill, Candidates) {
          assert (amounts + [payments[k].amount])[..|amounts|] == amounts;
          amounts := amounts + [payments[k].amount];
        }
      }
      assert payments[..|payments|] == payments;
      total := SumRaw(amounts);
    }

    method PromoteCandidates(i: nat, bill: Bill, cutoff: int)
      modifies this`payments
      ensures payments == Promoted(old(payments), i, bill, cutoff)
    {
      var candidates := payments;
      for k := 0 to |candidates|
        invariant |payments| == |candidates|
        invariant payments[k..] == candidates[k..]
        invariant forall j | 0 <= j < k :: payments[j] == PromotedOne(candidates[j], i, bill, cutoff)
      {
        var p := candidates[k];
        assert payments[k] == payments[k..][0] == candidates[k..][0];
        if Selected(p, i, bill, Candidates) && p.status == SeenPayment && p.block <= cutoff {
          var _ := PromotePaymentToConfirmed(k);
        }
        assert payments[k + 1..] == candidates[k..][1..];
      }
    }

    method CreditCandidates(i: nat, bill: Bill, cutoff: int)
      modifies this`payments
      ensures payments == CreditedPayments(old(payments), i, bill, cutoff, HeadOf(heads, bill.chain))
    {
      var head, candidates := HeadOf(heads, bill.chain), payments;
      for k := 0 to |candidates|
        invariant |payments| == |candidates|
        invariant payments[k..] == candidates[k..]
        invariant forall j | 0 <= j < k :: payments[j] == CreditedOne(candidates[j], i, bill, cutoff, head)
      {
        var p := candidates[k];
        assert payments[k] == payments[k..][0] == candidates[k..][0];
        if Selected(p, i, bill, Candidates) && p.block <= cutoff {
          var _ := CreditPayment(k, ConfirmationsOf(head, p.block));
        }
        assert payments[k + 1..] == candidates[k..][1..];
      }
    }

    /** The integrity MAC did not verify: credit nothing, call a human, leave the live set. */
    method RefuseTamperedInvoice(i: nat) returns (outcome: Outcome)
      requires i in invoices
      modifies this
      ensures View() == Refused(old(View()), i).ledger && outcome == IntegrityFailed
    {
      hide ReviewOpened;
      OpenManualReview(MacFailure, Some(i), None);
      if Live(invoices[i].status) {
        var _ := CasInvoiceStatus(i, ManualReview, {Awaiting, Seen, PartiallyPaidStatus}, Keep);
      }
      WriteAudit(MacAction, i);
      outcome := IntegrityFailed;
    }

    /** Queue the messages of a grant, and settle what is to happen to any excess. */
    method AnnounceGrant(i: nat, bill: Bill, d: Decision, id: nat)
      modifies this`outbox, this`balances, this`refunds, this`reviews, this`audit
      ensures outbox == GrantNotices(old(outbox), i, bill.user, id, d, Credit(d.Excess(), bill.decimals, bill.rate))
      ensures var credits := CreditsBalance(old(outbox), i, id, d);
              && balances == (if credits
                              then BalanceAdded(old(balances), bill.user, UsdOf(Credit(d.Excess(), bill.decimals, bill.rate)))
                              else old(balances))
              && audit == old(audit) + if credits then [Audit(BalanceAction, bill.user)] else []
      ensures refunds == if d.outcome == OverpaidRefundPending then RefundCreated(old(refunds), i, d.Excess()) else old(refunds)
      ensures reviews == if d.outcome == OverpaidRefundPending
                         then ReviewOpened(old(reviews), OverpaidReview, Some(i), None) else old(reviews)
    {
      hide ReviewOpened, RefundCreated, UsdOf, Enqueued, BalanceAdded, HasKey;
      var sent := EnqueueNotification(Notice(bill.user, InvoiceSettled, i, Grant(id), NoCredit));
      if d.outcome == OverpaidCredited {
        OtherKindIsNew(old(outbox), Notice(bill.user, InvoiceSettled, i, Grant(id), NoCredit), OverpaidCreditedNotice,
                       i, Grant(id));
        var credit := Credit(d.Excess(), bill.decimals, bill.rate);
        var inserted := EnqueueNotification(Notice(bill.user, OverpaidCreditedNotice, i, Grant(id), credit));
        if inserted {
          CreditInternalBalance(bill.user, UsdOf(credit));
          WriteAudit(BalanceAction, bill.user);
        }
      }
      if d.outcome == OverpaidRefundPending {
        CreateRefundRequest(i, d.Excess());
        OpenManualReview(OverpaidReview, Some(i), None);
        sent := EnqueueNotification(Notice(bill.user, RefundPending, i, Grant(id), NoCredit));
      }
    }

    method ApplySettlement(i: nat, d: Decision, cutoff: int, now: int) returns (outcome: Outcome, grant: Option<nat>)
      requires i in invoices
      modifies this
      ensures var r := Applied(old(View()), i, d, cutoff, now); View() == r.ledger && outcome == r.outcome && grant == r.grant
    {
      hide ReviewOpened, RefundCreated, CreditedPayments, UsdOf, GrantNotices, BalanceAdded, CreditsBalance, WithStatus,
           HeadOf, SettledStatus;
      var bill := invoices[i].bill;
      var won := CasInvoiceStatus(i, SettledStatus(d.outcome), {Awaiting, Seen, PartiallyPaidStatus}, Mark(now));
      if !won {
        return AlreadySettled, None;
      }
      CreditCandidates(i, bill, cutoff);
      var id := InsertEntitlement(bill.user, bill.product, i);
      AnnounceGrant(i, bill, d, id);
      WriteAudit(SettleAction(d.outcome), i);
      outcome, grant := d.outcome, Some(id);
    }

    method ApplyPartiallyPaid(i: nat, d: Decision) returns (outcome: Outcome)
      requires i in invoices
      modifies this
      ensures var r := AppliedPartially(old(View()), i, d); View() == r.ledger && outcome == r.outcome
    {
      hide Enqueued;
      var won := CasInvoiceStatus(i, PartiallyPaidStatus, {Awaiting, Seen, PartiallyPaidStatus}, Keep);
      if !won {
        return AlreadySettled;
      }
      var _ := EnqueueNotification(Notice(invoices[i].bill.user, InvoiceUnderpaid, i, Amount(d.total), NoCredit));
      WriteAudit(SettleAction(d.outcome), i);
      outcome := d.outcome;
    }

    method ApplyUnderpaidManualReview(i: nat, d: Decision) returns (outcome: Outcome)
      requires i in invoices
      modifies this
      ensures var r := AppliedUnderpaid(old(View()), i, d); View() == r.ledger && outcome == r.outcome
    {
      hide Enqueued, ReviewOpened;
      var won := CasInvoiceStatus(i, ManualReview, {Awaiting, Seen, PartiallyPaidStatus}, Keep);
      if !won {
        return AlreadySettled;
      }
      OpenManualReview(Underpaid, Some(i), None);
      var _ := EnqueueNotification(Notice(invoices[i].bill.user, InvoiceManualReview, i, Amount(d.total), NoCredit));
      WriteAudit(SettleAction(d.outcome), i);
      outcome := d.outcome;
    }

    /** Classify what has arrived and carry the decision out. */
    method Conclude(i: nat, candidateTotal: int, cutoff: int, now: int) returns (outcome: Outcome, grant: Option<nat>)
      requires i in invoices
      modifies this
      ensures var r := Concluded(old(View()), i, candidateTotal, cutoff, now, policy);
              View() == r.ledger && outcome == r.outcome && grant == r.grant
    {
      hide Total, Classify, Applied;
      var bill := invoices[i].bill;
      var d := Judge(policy, bill, Total(payments, i, bill, Creditable(cutoff)), now);
      grant := None;
      if !Granting(d.outcome) && candidateTotal > d.total {
        var potential := Judge(policy, bill, candidateTotal, now);
        if Granting(potential.outcome) {
          return AwaitingConfirmations, None;
        }
      }
      if Granting(d.outcome) {
        outcome, grant := ApplySettlement(i, d, cutoff, now);
      } else if d.outcome == PartiallyPaid {
        outcome := ApplyPartiallyPaid(i, d);
      } else if d.outcome == UnderpaidManualReview {
        outcome := ApplyUnderpaidManualReview(i, d);
      } else {
        outcome := d.outcome;
      }
    }

    /** Decide and apply the state of one invoice, in one transaction. */
    method Settle(i: nat, now: int) returns (outcome: Outcome, grant: Option<nat>)
      modifies this
      ensures var r := SettleInvoice(old(View()), i, now, policy, authentic);
              View() == r.ledger && outcome == r.outcome && grant == r.grant
    {
      hide Total, AnomaliesReviewed, Promoted, Concluded, Refused, CutoffHeight, NeedsFinality, FinalizedHead;
      grant := None;
      if i !in invoices {
        return InvoiceNotFound, None;
      }
      var bill := invoices[i].bill;
      if bill.assetChain != bill.chain {
        return InconsistentInvoice, None;
      }
      if !authentic(i, bill) {
        outcome := RefuseTamperedInvoice(i);
        return outcome, None;
      }
      if Settled(invoices[i].status) {
        return AlreadySettled, None;
      }
      if !Live(invoices[i].status) {
        return NotLive, None;
      }
      OpenReviewsForAnomalies(i);
      var candidateTotal := CandidateTotal(i, bill);
      if candidateTotal <= 0 {
        return NoFunds, None;
      }
      var finality := NeedsFinality(candidateTotal, bill.decimals, bill.rate, bill.threshold);
      var finalized := if finality then FinalizedHead(blocks, bill.chain) else None;
      var cutoff := CutoffHeight(HeadOf(heads, bill.chain), bill.minConfirmations, finality, finalized);
      PromoteCandidates(i, bill, cutoff);
      outcome, grant := Conclude(i, candidateTotal, cutoff, now);
    }

    // ---- handle_reorg --------------------------------------------------------------------

    /** Revert the payments at heights that have become empty. */
    method RevertPaymentsInOrphanedBlocks(chain: nat) returns (any: bool)
      modifies this`payments
      ensures payments == RevertedPayments(old(payments), blocks, chain)
      ensures any == exists k | 0 <= k < |old(payments)| :: Reverts(old(payments)[k], blocks, chain)
    {
      hide Reverts;
      var rows := payments;
      any := false;
      for k := 0 to |rows|
        invariant |payments| == |rows|
        invariant payments[k..] == rows[k..]
        invariant forall j | 0 <= j < k :: payments[j] == RevertedPayments(rows, blocks, chain)[j]
        invariant any == exists j | 0 <= j < k :: Reverts(rows[j], blocks, chain)
      {
        assert payments[k] == payments[k..][0] == rows[k..][0];
        if Reverts(rows[k], blocks, chain) {
          payments := payments[k := payments[k].(status := Reverted)];
          any := true;
        }
        assert payments[k + 1..] == rows[k..][1..];
      }
    }

    method RevokeEntitlements(ids: seq<nat>)
      modifies this`entitlements
      ensures entitlements == Revoked(old(entitlements), ids)
    {
      var rows := entitlements;
      for k := 0 to |rows|
        invariant |entitlements| == |rows|
        invariant entitlements[k..] == rows[k..]
        invariant forall j | 0 <= j < k :: entitlements[j] == Revoked(rows, ids)[j]
      {
        assert entitlements[k] == entitlements[k..][0] == rows[k..][0];
        if rows[k].invoice in ids && !rows[k].revoked {
          entitlements := entitlements[k := rows[k].(revoked := true)];
        }
        assert entitlements[k + 1..] == rows[k..][1..];
      }
    }

    method UnsettleInvoices(ids: seq<nat>, now: int)
      modifies this`invoices
      ensures invoices == Unsettled(old(invoices), ids, now)
    {
      for k := 0 to |ids|
        invariant invoices == Unsettled(old(invoices), ids[..k], now)
      {
        var i := ids[k];
        if i in invoices && Settled(invoices[i].status) {
          var status := if now < invoices[i].bill.topupUntil then Awaiting else RevertedStatus;
          invoices := invoices[i := invoices[i].(status := status, settledAt := None)];
        }
      }
      assert ids[..|ids|] == ids;
    }

    /** One message per grant that was taken back; `ents` are the rows as they were. */
    method NotifyRevoked(ents: seq<Entitlement>, ids: seq<nat>)
      modifies this`outbox
      ensures outbox == RevokeNotices(old(outbox), ents, ids, |ents|)
    {
      hide Enqueued;
      for k := 0 to |ents|
        invariant outbox == RevokeNotices(old(outbox), ents, ids, k)
      {
        if ents[k].invoice in ids && !ents[k].revoked {
          var _ := EnqueueNotification(Notice(ents[k].user, EntitlementRevoked, ents[k].invoice, Grant(k), NoCredit));
        }
      }
    }

    /** Roll back payments whose block was orphaned, and take back what they bought. */
    method Reorg(chain: nat, now: int)
      modifies this
      ensures View() == HandleReorg(old(View()), chain, now)
    {
      hide RevertedPayments, Revoked, Unsettled, RevokeNotices, TouchedInvoices, Reverts;
      ghost var before := View();
      var rows := payments;
      var reverted := RevertPaymentsInOrphanedBlocks(chain);
      if !reverted {
        NothingReverted(before, chain, now);
        return;
      }
      var ids := TouchedInvoices(rows, blocks, chain, |rows|);
      var granted := entitlements;
      RevokeEntitlements(ids);
      UnsettleInvoices(ids, now);
      NotifyRevoked(granted, ids);
      for k := 0 to |ids|
        invariant View() == HandleReorg(before, chain, now).(audit := before.audit + RevokeAudit(ids[..k]))
      {
        WriteAudit(RevokeAction, ids[k]);
        assert RevokeAudit(ids[..k + 1]) == RevokeAudit(ids[..k]) + [Audit(RevokeAction, ids[k])];
      }
      assert ids[..|ids|] == ids;
    }

    // ---- The sweeps ----------------------------------------------------------------------

    method SweepExpiredInvoices(ids: seq<nat>, now: int)
      modifies this
      ensures View() == SweepExpired(old(View()), ids, now)
    {
      hide ReviewOpened, HasMoney, WithStatus;
      for k := 0 to |ids|
        invariant View() == SweepExpired(old(View()), ids[..k], now)
      {
        var i := ids[k];
        assert ids[..k + 1][..k] == ids[..k];
        var money := HasMoney(payments, i);
        if i in invoices && now > invoices[i].bill.topupUntil {
          var won := CasInvoiceStatus(i, if money then ManualReview else Expired, {Awaiting, Seen, PartiallyPaidStatus}, Keep);
          if won {
            if money {
              OpenManualReview(Underpaid, Some(i), None);
            }
            WriteAudit(SweepAction, i);
          }
        }
      }
      assert ids[..|ids|] == ids;
    }

    method ExpireStaleInvoices(ids: seq<nat>, now: int)
      modifies this
      ensures View() == ExpireStale(old(View()), ids, now)
    {
      hide Enqueued, HasPayments, WithStatus;
      for k := 0 to |ids|
        invariant View() == ExpireStale(old(View()), ids[..k], now)
      {
        var i := ids[k];
        assert ids[..k + 1][..k] == ids[..k];
        if i in invoices && now > invoices[i].bill.rateLockedUntil && !HasPayments(payments, i) {
          var user := invoices[i].bill.user;
          var won := CasInvoiceStatus(i, Expired, {Awaiting, Seen, PartiallyPaidStatus}, Keep);
          if won {
            var _ := EnqueueNotification(Notice(user, InvoiceExpired, i, RateLock, NoCredit));
            WriteAudit(RateLockAction, i);
          }
        }
      }
      assert ids[..|ids|] == ids;
    }
  }

  // ---- Small facts the loops use ---------------------------------------------------------

  lemma OtherKindIsNew(outbox: seq<Notice>, n: Notice, kind: NoticeKind, ref: nat, dedup: Dedup)
    requires n.kind != kind
    ensures HasKey(Enqueued(outbox, n), kind, ref, dedup) == HasKey(outbox, kind, ref, dedup)
  {
    if HasKey(outbox, kind, ref, dedup) {
      var k :| 0 <= k < |outbox| && outbox[k].kind == kind && outbox[k].ref == ref && outbox[k].dedup == dedup;
      assert Enqueued(outbox, n)[k] == outbox[k];
    }
  }

  /** With nothing to revert a reorg pass leaves the ledger as it was. */
  lemma NothingReverted(l: Ledger, chain: nat, now: int)
    requires forall k | 0 <= k < |l.payments| :: !Reverts(l.payments[k], l.blocks, chain)
    ensures HandleReorg(l, chain, now) == l
  {
    hide Reverts;
    NoneTouched(l.payments, l.blocks, chain, |l.payments|);
    NoneNotified(l.outbox, l.entitlements, |l.entitlements|);
    assert RevertedPayments(l.payments, l.blocks, chain) == l.payments;
    assert Revoked(l.entitlements, []) == l.entitlements;
    assert Unsettled(l.invoices, [], now) == l.invoices;
  }

  lemma {:induction false} NoneTouched(payments: seq<Payment>, blocks: seq<Block>, chain: nat, n: nat)
    requires n <= |payments| && forall k | 0 <= k < n :: !Reverts(payments[k], blocks, chain)
    ensures TouchedInvoices(payments, blocks, chain, n) == []
  {
    hide Reverts;
    if n > 0 {
      NoneTouched(payments, blocks, chain, n - 1);
    }
  }

  lemma {:induction false} NoneNotified(outbox: seq<Notice>, ents: seq<Entitlement>, n: nat)
    requires n <= |ents|
    ensures RevokeNotices(outbox, ents, [], n) == outbox
  {
    if n > 0 {
      NoneNotified(outbox, ents, n - 1);
    }
  }
}
