/** Settlement as a function of the ledger: when exactly it grants, that repeating it changes
    nothing, that splitting a payment changes nothing, and that depth only helps. */
module SettlerLaws {
  import opened Wrappers
  import opened SettlerMoney
  import opened SettlerLedger
  import opened SettlerSafety

  // ---- When a grant happens --------------------------------------------------------------

  /** The height up to which payments of `i` count right now. */
  function CutoffOf(l: Ledger, i: nat): int
    requires i in l.invoices
  {
    CutoffFor(l, l.invoices[i].bill, Total(l.payments, i, l.invoices[i].bill, Candidates))
  }

  /** The invoice may be decided: it exists on its asset's chain, its MAC verifies, it is live. */
  predicate Decidable(l: Ledger, i: nat, authentic: (nat, Bill) -> bool) {
    && i in l.invoices && l.invoices[i].bill.assetChain == l.invoices[i].bill.chain
    && authentic(i, l.invoices[i].bill) && Live(l.invoices[i].status)
  }

  lemma {:induction false} DeepWithinCandidates(payments: seq<Payment>, i: nat, bill: Bill, cutoff: int)
    ensures Total(payments, i, bill, Deep(cutoff)) <= Total(payments, i, bill, Candidates)
  {
    if |payments| > 0 {
      DeepWithinCandidates(payments[..|payments| - 1], i, bill, cutoff);
    }
  }

  /** Access is granted exactly when the invoice may be decided and the payments at or below the
      cutoff cover the bill. */
  lemma GrantsExactlyWhen(l: Ledger, i: nat, now: int, policy: MoneyPolicy, authentic: (nat, Bill) -> bool)
    ensures SettleInvoice(l, i, now, policy, authentic).grant.Some?
       <==> Decidable(l, i, authentic)
            && Covers(policy, l.invoices[i].bill, Total(l.payments, i, l.invoices[i].bill, Deep(CutoffOf(l, i))))
  {
    if Decidable(l, i, authentic) {
      var bill, cutoff := l.invoices[i].bill, CutoffOf(l, i);
      var total := Total(l.payments, i, bill, Deep(cutoff));
      PromotedTotal(l.payments, i, bill, cutoff);
      DeepWithinCandidates(l.payments, i, bill, cutoff);
      GrantingCondition(policy, bill.due, total, bill.decimals, bill.rate, now, bill.topupUntil);
      hide Total, CutoffFor, Classify, Promoted, AnomaliesReviewed, CreditedPayments, GrantNotices, UnderpayTolerance;
    }
  }

  /** A grant settles the invoice for the sum of its matching payments at or below the cutoff, and
      every one of them is credited afterwards. Nobody else's payments move. */
  lemma GrantIsExact(l: Ledger, i: nat, now: int, policy: MoneyPolicy, authentic: (nat, Bill) -> bool)
    requires SettleInvoice(l, i, now, policy, authentic).grant.Some?
    ensures var r, bill, cutoff := SettleInvoice(l, i, now, policy, authentic), l.invoices[i].bill, CutoffOf(l, i);
            && Granting(r.outcome)
            && r.total == Total(l.payments, i, bill, Deep(cutoff))
            && |r.ledger.payments| == |l.payments|
            && (forall k | 0 <= k < |l.payments| && Selected(l.payments[k], i, bill, Deep(cutoff)) ::
                  r.ledger.payments[k].status == Credited)
            && (forall k | 0 <= k < |l.payments| && l.payments[k].invoice != Some(i) ::
                  r.ledger.payments[k] == l.payments[k])
            && r.ledger.invoices[i] == Invoice(bill, if r.total > bill.due then Overpaid else PaidStatus, Some(now))
            && r.ledger.entitlements == l.entitlements + [Entitlement(bill.user, bill.product, i, false)]
  {
    hide Total, CutoffFor, AnomaliesReviewed, GrantNotices, Applied, Classify, CreditedPayments, Promoted;
    var bill, cutoff := l.invoices[i].bill, CutoffOf(l, i);
    GrantIsApplied(l, i, now, policy, authentic);
    PromotedTotal(l.payments, i, bill, cutoff);
    var p := Prepared(l, i);
    var d := Judge(policy, bill, Total(p.payments, i, bill, Creditable(cutoff)), now);
    AppliedTables(p, i, d, cutoff, now);
    StatusTells(policy, bill, d.total, now);
    CreditedAfterPromotion(l.payments, i, bill, cutoff, HeadOf(l.heads, bill.chain));
  }

  /** A granted invoice is overpaid exactly when more than the amount due was counted. */
  lemma StatusTells(policy: MoneyPolicy, bill: Bill, total: int, now: int)
    requires Granting(Judge(policy, bill, total, now).outcome)
    ensures SettledStatus(Judge(policy, bill, total, now).outcome) == if total > bill.due then Overpaid else PaidStatus
  {
    hide UnderpayTolerance, OverpayTolerance;
  }

  lemma GrantIsApplied(l: Ledger, i: nat, now: int, policy: MoneyPolicy, authentic: (nat, Bill) -> bool)
    requires SettleInvoice(l, i, now, policy, authentic).grant.Some?
    ensures Decidable(l, i, authentic)
    ensures var bill, cutoff, p := l.invoices[i].bill, CutoffOf(l, i), Prepared(l, i);
            var d := Judge(policy, bill, Total(p.payments, i, bill, Creditable(cutoff)), now);
            Granting(d.outcome) && SettleInvoice(l, i, now, policy, authentic) == Applied(p, i, d, cutoff, now)
  {
    hide Total, CutoffFor, AnomaliesReviewed, Classify, Promoted, Applied;
  }

  lemma AppliedTables(l: Ledger, i: nat, d: Decision, cutoff: int, now: int)
    requires i in l.invoices && Live(l.invoices[i].status)
    ensures var r, bill := Applied(l, i, d, cutoff, now), l.invoices[i].bill;
            && r.outcome == d.outcome && r.total == d.total
            && r.ledger.payments == CreditedPayments(l.payments, i, bill, cutoff, HeadOf(l.heads, bill.chain))
            && r.ledger.invoices[i] == Invoice(bill, SettledStatus(d.outcome), Some(now))
            && r.ledger.entitlements == l.entitlements + [Entitlement(bill.user, bill.product, i, false)]
  {
    hide GrantNotices, CreditedPayments, CreditableUsd;
  }

  lemma CreditedAfterPromotion(payments: seq<Payment>, i: nat, bill: Bill, cutoff: int, head: int)
    ensures var after := CreditedPayments(Promoted(payments, i, bill, cutoff), i, bill, cutoff, head);
            && |after| == |payments|
            && (forall k | 0 <= k < |payments| && Selected(payments[k], i, bill, Deep(cutoff)) ::
                  after[k].status == Credited)
            && (forall k | 0 <= k < |payments| && payments[k].invoice != Some(i) :: after[k] == payments[k])
  {
  }

  /** In a reachable ledger a grant moves exactly one balance, and only when the excess is kept: the
      buyer's, by the excess in dollars rounded down. */
  lemma GrantMovesBalance(l: Ledger, i: nat, now: int, policy: MoneyPolicy, authentic: (nat, Bill) -> bool, user: nat)
    requires Inv(policy, l) && SettleInvoice(l, i, now, policy, authentic).grant.Some?
    ensures var r, bill := SettleInvoice(l, i, now, policy, authentic), l.invoices[i].bill;
            BalanceOf(r.ledger.balances, user)
            == BalanceOf(l.balances, user)
               + if r.outcome == OverpaidCredited && user == bill.user
                 then CreditableUsd(r.total - bill.due, bill.decimals, bill.rate) else 0.0
  {
    hide Total, CutoffFor, AnomaliesReviewed, GrantNotices, CreditedPayments, Promoted, SettleInvoice, HasKey,
         CreditableUsd,
         UnderpayTolerance, OverpayTolerance;
    GrantIsApplied(l, i, now, policy, authentic);
    var bill, cutoff, p := l.invoices[i].bill, CutoffOf(l, i), Prepared(l, i);
    var d := Judge(policy, bill, Total(p.payments, i, bill, Creditable(cutoff)), now);
    NewGrantIsFree(l.balances, l.outbox, i, |l.entitlements|);
    CreditNonNegative(d.Excess(), bill.decimals, bill.rate);
  }

  // ---- Repetition ------------------------------------------------------------------------

  lemma BlockedStays(reviews: seq<Review>, more: Review, kind: ReviewKind, invoice: Option<nat>, payment: Option<nat>)
    requires ReviewBlocked(reviews, kind, invoice, payment)
    ensures ReviewBlocked(reviews + [more], kind, invoice, payment)
  {
    var k :| 0 <= k < |reviews| && reviews[k].open
             && ((payment.Some? && reviews[k].payment == payment)
                 || (reviews[k].kind == kind && reviews[k].invoice == invoice && reviews[k].payment == payment));
    assert (reviews + [more])[k] == reviews[k];
  }

  lemma OpenedBlocks(reviews: seq<Review>, kind: ReviewKind, invoice: Option<nat>, payment: Option<nat>)
    ensures ReviewBlocked(ReviewOpened(reviews, kind, invoice, payment), kind, invoice, payment)
  {
    if !ReviewBlocked(reviews, kind, invoice, payment) {
      var after := ReviewOpened(reviews, kind, invoice, payment);
      assert after[|reviews|].open;
    }
  }

  /** Every anomalous payment among the first `n` already has its case. */
  ghost predicate AllReviewed(reviews: seq<Review>, payments: seq<Payment>, i: nat, n: nat)
    requires n <= |payments|
  {
    forall k | 0 <= k < n && payments[k].invoice == Some(i) && Blocking(payments[k].anomaly) ::
      ReviewBlocked(reviews, PaymentAnomaly(payments[k].anomaly.value), Some(i), Some(k))
  }

  lemma ReviewedStays(reviews: seq<Review>, kind: ReviewKind, invoice: Option<nat>, payment: Option<nat>,
                      payments: seq<Payment>, i: nat, n: nat)
    requires n <= |payments| && AllReviewed(reviews, payments, i, n)
    ensures AllReviewed(ReviewOpened(reviews, kind, invoice, payment), payments, i, n)
  {
    forall k | 0 <= k < n && payments[k].invoice == Some(i) && Blocking(payments[k].anomaly)
      ensures ReviewBlocked(ReviewOpened(reviews, kind, invoice, payment),
                            PaymentAnomaly(payments[k].anomaly.value), Some(i), Some(k))
    {
      if !ReviewBlocked(reviews, kind, invoice, payment) {
        BlockedStays(reviews, Review(kind, invoice, payment, true), PaymentAnomaly(payments[k].anomaly.value), Some(i),
                     Some(k));
      }
    }
  }

  lemma {:induction false} ReviewsCover(reviews: seq<Review>, payments: seq<Payment>, i: nat, n: nat)
    requires n <= |payments|
    ensures AllReviewed(AnomaliesReviewed(reviews, payments, i, n), payments, i, n)
  {
    hide ReviewBlocked;
    if n > 0 {
      ReviewsCover(reviews, payments, i, n - 1);
      var before, p := AnomaliesReviewed(reviews, payments, i, n - 1), payments[n - 1];
      if p.invoice == Some(i) && Blocking(p.anomaly) {
        ReviewedStays(before, PaymentAnomaly(p.anomaly.value), Some(i), Some(n - 1), payments, i, n - 1);
        OpenedBlocks(before, PaymentAnomaly(p.anomaly.value), Some(i), Some(n - 1));
      }
    }
  }

  lemma {:induction false} NothingToReview(reviews: seq<Review>, payments: seq<Payment>, i: nat, n: nat)
    requires n <= |payments| && AllReviewed(reviews, payments, i, n)
    ensures AnomaliesReviewed(reviews, payments, i, n) == reviews
  {
    hide ReviewBlocked;
    if n > 0 {
      NothingToReview(reviews, payments, i, n - 1);
    }
  }

  /** Anomalies do not depend on status, so promoted payments need the same cases. */
  lemma {:induction false} SameReviews(reviews: seq<Review>, p: seq<Payment>, p': seq<Payment>, i: nat, n: nat)
    requires n <= |p| == |p'|
    requires forall k | 0 <= k < |p| :: p[k].invoice == p'[k].invoice && p[k].anomaly == p'[k].anomaly
    ensures AnomaliesReviewed(reviews, p, i, n) == AnomaliesReviewed(reviews, p', i, n)
  {
    if n > 0 {
      SameReviews(reviews, p, p', i, n - 1);
    }
  }

  lemma PromotedStable(payments: seq<Payment>, i: nat, bill: Bill, cutoff: int)
    ensures var after := Promoted(payments, i, bill, cutoff);
            && Promoted(after, i, bill, cutoff) == after
            && Total(after, i, bill, Candidates) == Total(payments, i, bill, Candidates)
  {
    TotalSame(Promoted(payments, i, bill, cutoff), payments, i, bill, Candidates, Candidates);
  }

  /** Preparing twice is preparing once. */
  lemma PreparedStable(l: Ledger, i: nat)
    requires i in l.invoices
    ensures var once := Prepared(l, i);
            && Total(once.payments, i, l.invoices[i].bill, Candidates) == Total(l.payments, i, l.invoices[i].bill, Candidates)
            && AllReviewed(once.reviews, once.payments, i, |once.payments|)
            && Prepared(once, i) == once
  {
    var bill := l.invoices[i].bill;
    var cutoff := CutoffFor(l, bill, Total(l.payments, i, bill, Candidates));
    PromotedStable(l.payments, i, bill, cutoff);
    hide Total;
    var once := Prepared(l, i);
    SameReviews(l.reviews, l.payments, once.payments, i, |l.payments|);
    ReviewsCover(l.reviews, once.payments, i, |once.payments|);
    NothingToReview(once.reviews, once.payments, i, |once.payments|);
  }

  /** Two ledgers that differ at most in their audit log. */
  predicate SameButAudit(l: Ledger, l': Ledger) {
    l.(audit := l'.audit) == l'
  }

  lemma EnqueuedTwice(outbox: seq<Notice>, n: Notice)
    ensures Enqueued(Enqueued(outbox, n), n) == Enqueued(outbox, n)
  {
    if !HasKey(outbox, n.kind, n.ref, n.dedup) {
      assert (outbox + [n])[|outbox|] == n;
    }
  }

  /** Settling twice on an unchanged ledger, head and clock changes nothing but the audit log. */
  lemma SettleIsIdempotent(l: Ledger, i: nat, now: int, policy: MoneyPolicy, authentic: (nat, Bill) -> bool)
    ensures var once := SettleInvoice(l, i, now, policy, authentic);
            var twice := SettleInvoice(once.ledger, i, now, policy, authentic);
            twice.grant.None? && SameButAudit(twice.ledger, once.ledger)
  {
    if i in l.invoices {
      var inv := l.invoices[i];
      if inv.bill.assetChain == inv.bill.chain {
        if !authentic(i, inv.bill) {
          OpenedBlocks(l.reviews, MacFailure, Some(i), None);
        } else if Live(inv.status) {
          LiveIsIdempotent(l, i, now, policy, authentic);
        }
      }
    }
  }

  /** A live ledger that is already prepared goes straight to the conclusion. */
  lemma PreparedConcludes(p: Ledger, i: nat, now: int, policy: MoneyPolicy, authentic: (nat, Bill) -> bool)
    requires Decidable(p, i, authentic) && Prepared(p, i) == p
    requires Total(p.payments, i, p.invoices[i].bill, Candidates) > 0
    ensures SettleInvoice(p, i, now, policy, authentic)
         == Concluded(p, i, Total(p.payments, i, p.invoices[i].bill, Candidates), CutoffOf(p, i), now, policy)
  {
    hide Total, CutoffFor, Prepared, Concluded;
  }

  /** Moving the status, the outbox or the audit log leaves a ledger prepared. */
  lemma StillPrepared(p: Ledger, i: nat, status: InvoiceStatus, outbox: seq<Notice>, audit: seq<Audit>)
    requires i in p.invoices && Prepared(p, i) == p
    ensures var q := p.(invoices := WithStatus(p.invoices, i, status, Keep), outbox := outbox, audit := audit);
            Prepared(q, i) == q && CutoffOf(q, i) == CutoffOf(p, i)
  {
    hide Total, Promoted, AnomaliesReviewed, CutoffHeight, NeedsFinality, FinalizedHead;
  }

  lemma ConclusionIsIdempotent(p: Ledger, i: nat, now: int, policy: MoneyPolicy, authentic: (nat, Bill) -> bool)
    requires Decidable(p, i, authentic) && Prepared(p, i) == p
    requires Total(p.payments, i, p.invoices[i].bill, Candidates) > 0
    ensures var once := SettleInvoice(p, i, now, policy, authentic);
            var twice := SettleInvoice(once.ledger, i, now, policy, authentic);
            twice.grant.None? && SameButAudit(twice.ledger, once.ledger)
  {
    hide Total, CutoffFor, CutoffOf, Prepared, Classify, GrantNotices, CreditedPayments, Enqueued, ReviewOpened,
         RefundCreated,
         BalanceAdded, UsdOf, CreditsBalance, SettleInvoice;
    var bill, cutoff := p.invoices[i].bill, CutoffOf(p, i);
    var d := Judge(policy, bill, Total(p.payments, i, bill, Creditable(cutoff)), now);
    PreparedConcludes(p, i, now, policy, authentic);
    var once := SettleInvoice(p, i, now, policy, authentic).ledger;
    if !Live(once.invoices[i].status) {
      ClosedStays(once, i, now, policy, authentic);
    } else if d.outcome == PartiallyPaid {
      var notice := Notice(bill.user, InvoiceUnderpaid, i, Amount(d.total), NoCredit);
      EnqueuedTwice(p.outbox, notice);
      StillPrepared(p, i, PartiallyPaidStatus, Enqueued(p.outbox, notice),
                    p.audit + [Audit(SettleAction(d.outcome), i)]);
      PreparedConcludes(once, i, now, policy, authentic);
    }
  }

  /** An invoice that is no longer live is left alone. */
  lemma ClosedStays(l: Ledger, i: nat, now: int, policy: MoneyPolicy, authentic: (nat, Bill) -> bool)
    requires i in l.invoices && !Live(l.invoices[i].status)
    requires l.invoices[i].bill.assetChain == l.invoices[i].bill.chain && authentic(i, l.invoices[i].bill)
    ensures SettleInvoice(l, i, now, policy, authentic).ledger == l
    ensures SettleInvoice(l, i, now, policy, authentic).grant.None?
  {
  }

  lemma LiveIsIdempotent(l: Ledger, i: nat, now: int, policy: MoneyPolicy, authentic: (nat, Bill) -> bool)
    requires Decidable(l, i, authentic)
    ensures var once := SettleInvoice(l, i, now, policy, authentic);
            var twice := SettleInvoice(once.ledger, i, now, policy, authentic);
            twice.grant.None? && SameButAudit(twice.ledger, once.ledger)
  {
    if Total(l.payments, i, l.invoices[i].bill, Candidates) <= 0 {
      ReviewsCover(l.reviews, l.payments, i, |l.payments|);
      NothingToReview(AnomaliesReviewed(l.reviews, l.payments, i, |l.payments|), l.payments, i, |l.payments|);
    } else {
      PreparedStable(l, i);
      PreparationFirst(l, i, now, policy, authentic);
      hide SettleInvoice, Prepared, Total;
      ConclusionIsIdempotent(Prepared(l, i), i, now, policy, authentic);
    }
  }

  /** Settling a ledger and settling it after preparation come to the same. */
  lemma PreparationFirst(l: Ledger, i: nat, now: int, policy: MoneyPolicy, authentic: (nat, Bill) -> bool)
    requires Decidable(l, i, authentic) && Total(l.payments, i, l.invoices[i].bill, Candidates) > 0
    ensures Decidable(Prepared(l, i), i, authentic)
    ensures SettleInvoice(l, i, now, policy, authentic) == SettleInvoice(Prepared(l, i), i, now, policy, authentic)
  {
    PreparedStable(l, i);
    hide Total, Promoted, AnomaliesReviewed, Concluded, CutoffHeight, NeedsFinality, FinalizedHead;
  }

  // ---- Splitting a payment ---------------------------------------------------------------

  lemma {:induction false} TotalConcat(a: seq<Payment>, b: seq<Payment>, i: nat, bill: Bill, sel: Selector)
    ensures Total(a + b, i, bill, sel) == Total(a, i, bill, sel) + Total(b, i, bill, sel)
  {
    hide Selected;
    if |b| == 0 {
      assert a + b == a;
    } else {
      TotalConcat(a, b[..|b| - 1], i, bill, sel);
      assert (a + b)[..|a + b| - 1] == a + b[..|b| - 1];
    }
  }

  function Amounts(parts: seq<Payment>): nat {
    if |parts| == 0 then 0 else Amounts(parts[..|parts| - 1]) + parts[|parts| - 1].amount
  }

  /** `parts` are transfers like `p` that together carry its amount. */
  predicate Splits(p: Payment, parts: seq<Payment>) {
    (forall k | 0 <= k < |parts| :: parts[k].(amount := p.amount) == p) && Amounts(parts) == p.amount
  }

  lemma {:induction false} PartsTotal(p: Payment, parts: seq<Payment>, i: nat, bill: Bill, sel: Selector)
    requires forall k | 0 <= k < |parts| :: parts[k].(amount := p.amount) == p
    ensures Total(parts, i, bill, sel) == if Selected(p, i, bill, sel) then Amounts(parts) else 0
  {
    if |parts| > 0 {
      PartsTotal(p, parts[..|parts| - 1], i, bill, sel);
      var last := parts[|parts| - 1];
      assert last.(amount := p.amount) == p;
      assert Selected(last, i, bill, sel) <==> Selected(p, i, bill, sel);
    }
  }

  lemma SplitTotal(a: seq<Payment>, p: Payment, parts: seq<Payment>, b: seq<Payment>, i: nat, bill: Bill, sel: Selector)
    requires Splits(p, parts)
    ensures Total(a + parts + b, i, bill, sel) == Total(a + [p] + b, i, bill, sel)
  {
    hide Selected;
    TotalConcat(a, parts, i, bill, sel);
    TotalConcat(a + parts, b, i, bill, sel);
    TotalConcat(a, [p], i, bill, sel);
    TotalConcat(a + [p], b, i, bill, sel);
    PartsTotal(p, parts, i, bill, sel);
    assert [p][..0] == [];
    assert Total([p], i, bill, sel) == if Selected(p, i, bill, sel) then p.amount else 0;
  }

  /** Nothing but the totals of the invoice's payments decides its fate. */
  lemma OnlyTotalsMatter(l: Ledger, payments: seq<Payment>, i: nat, now: int, policy: MoneyPolicy,
                         authentic: (nat, Bill) -> bool)
    requires i in l.invoices ==> forall sel: Selector ::
               Total(payments, i, l.invoices[i].bill, sel) == Total(l.payments, i, l.invoices[i].bill, sel)
    ensures var r, r' := SettleInvoice(l, i, now, policy, authentic),
                         SettleInvoice(l.(payments := payments), i, now, policy, authentic);
            && r'.outcome == r.outcome && r'.total == r.total && r'.grant == r.grant
            && r'.ledger.invoices == r.ledger.invoices && r'.ledger.entitlements == r.ledger.entitlements
            && r'.ledger.outbox == r.ledger.outbox && r'.ledger.balances == r.ledger.balances
            && r'.ledger.refunds == r.ledger.refunds && r'.ledger.audit == r.ledger.audit
  {
    if Decidable(l, i, authentic) {
      var bill, l' := l.invoices[i].bill, l.(payments := payments);
      assert Total(payments, i, bill, Candidates) == Total(l.payments, i, bill, Candidates);
      hide Total, Promoted, AnomaliesReviewed, CutoffFor, Concluded, SettleInvoice;
      var cutoff, candidateTotal := CutoffOf(l, i), Total(l.payments, i, bill, Candidates);
      SameCutoff(l, payments, i);
      PromotedTotal(l.payments, i, bill, cutoff);
      PromotedTotal(payments, i, bill, cutoff);
      assert Total(payments, i, bill, Deep(cutoff)) == Total(l.payments, i, bill, Deep(cutoff));
      if candidateTotal > 0 {
        SameConclusion(Prepared(l, i), Prepared(l', i), i, candidateTotal, cutoff, now, policy);
        Concludes(l, i, now, policy, authentic);
        Concludes(l', i, now, policy, authentic);
      } else {
        LiveWithoutFunds(l, i, now, policy, authentic);
        LiveWithoutFunds(l', i, now, policy, authentic);
      }
    } else {
      hide Total, AnomaliesReviewed, ReviewOpened;
    }
  }

  lemma SameCutoff(l: Ledger, payments: seq<Payment>, i: nat)
    requires i in l.invoices
    requires Total(payments, i, l.invoices[i].bill, Candidates) == Total(l.payments, i, l.invoices[i].bill, Candidates)
    ensures CutoffOf(l.(payments := payments), i) == CutoffOf(l, i)
  {
    hide Total;
  }

  lemma Concludes(l: Ledger, i: nat, now: int, policy: MoneyPolicy, authentic: (nat, Bill) -> bool)
    requires Decidable(l, i, authentic) && Total(l.payments, i, l.invoices[i].bill, Candidates) > 0
    ensures SettleInvoice(l, i, now, policy, authentic)
         == Concluded(Prepared(l, i), i, Total(l.payments, i, l.invoices[i].bill, Candidates), CutoffOf(l, i), now, policy)
  {
    hide Total, CutoffFor, Prepared, Concluded;
  }

  lemma LiveWithoutFunds(l: Ledger, i: nat, now: int, policy: MoneyPolicy, authentic: (nat, Bill) -> bool)
    requires Decidable(l, i, authentic) && Total(l.payments, i, l.invoices[i].bill, Candidates) == 0
    ensures SettleInvoice(l, i, now, policy, authentic)
         == Result(l.(reviews := AnomaliesReviewed(l.reviews, l.payments, i, |l.payments|)), NoFunds, 0, None)
  {
    hide Total, AnomaliesReviewed;
  }

  lemma SameConclusion(p: Ledger, p': Ledger, i: nat, candidateTotal: int, cutoff: int, now: int, policy: MoneyPolicy)
    requires i in p.invoices && p' == p.(payments := p'.payments, reviews := p'.reviews)
    requires Total(p.payments, i, p.invoices[i].bill, Creditable(cutoff))
         == Total(p'.payments, i, p.invoices[i].bill, Creditable(cutoff))
    ensures var r, r' := Concluded(p, i, candidateTotal, cutoff, now, policy),
                         Concluded(p', i, candidateTotal, cutoff, now, policy);
            && r'.outcome == r.outcome && r'.total == r.total && r'.grant == r.grant
            && r'.ledger.invoices == r.ledger.invoices && r'.ledger.entitlements == r.ledger.entitlements
            && r'.ledger.outbox == r.ledger.outbox && r'.ledger.balances == r.ledger.balances
            && r'.ledger.refunds == r.ledger.refunds && r'.ledger.audit == r.ledger.audit
  {
    hide Total, Classify, GrantNotices, CreditedPayments, HasKey, RefundBlocked, ReviewBlocked;
  }

  /** Splitting a payment into several at the same height changes nothing a buyer or the books
      could notice: same outcome, same total, same grant, same messages, same balances. */
  lemma SplittingIsInvisible(l: Ledger, a: seq<Payment>, p: Payment, parts: seq<Payment>, b: seq<Payment>,
                             i: nat, now: int, policy: MoneyPolicy, authentic: (nat, Bill) -> bool)
    requires l.payments == a + [p] + b && Splits(p, parts)
    ensures var r := SettleInvoice(l, i, now, policy, authentic);
            var r' := SettleInvoice(l.(payments := a + parts + b), i, now, policy, authentic);
            && r'.outcome == r.outcome && r'.total == r.total && r'.grant == r.grant
            && r'.ledger.invoices == r.ledger.invoices && r'.ledger.entitlements == r.ledger.entitlements
            && r'.ledger.outbox == r.ledger.outbox && r'.ledger.balances == r.ledger.balances
            && r'.ledger.refunds == r.ledger.refunds && r'.ledger.audit == r.ledger.audit
  {
    hide SettleInvoice, Total, Splits;
    if i in l.invoices {
      forall sel: Selector
        ensures Total(a + parts + b, i, l.invoices[i].bill, sel) == Total(l.payments, i, l.invoices[i].bill, sel)
      {
        SplitTotal(a, p, parts, b, i, l.invoices[i].bill, sel);
      }
    }
    OnlyTotalsMatter(l, a + parts + b, i, now, policy, authentic);
  }

  // ---- Depth only helps ------------------------------------------------------------------

  /** `l'` is `l` seen later: a head at least as high, and a finalized head at least as high. */
  predicate Deeper(l: Ledger, l': Ledger, chain: nat) {
    && l' == l.(heads := l'.heads, blocks := l'.blocks)
    && HeadOf(l.heads, chain) <= HeadOf(l'.heads, chain)
    && (FinalizedHead(l.blocks, chain).Some? ==>
          FinalizedHead(l'.blocks, chain).Some?
          && FinalizedHead(l.blocks, chain).value <= FinalizedHead(l'.blocks, chain).value)
  }

  lemma {:induction false} DeepGrows(payments: seq<Payment>, i: nat, bill: Bill, cutoff: int, cutoff': int)
    requires cutoff < 0 || cutoff <= cutoff'
    ensures Total(payments, i, bill, Deep(cutoff)) <= Total(payments, i, bill, Deep(cutoff'))
  {
    if |payments| > 0 {
      DeepGrows(payments[..|payments| - 1], i, bill, cutoff, cutoff');
    }
  }

  /** A ledger that grants at one head still grants at any higher head and finalized head. */
  lemma DepthNeverHurts(l: Ledger, l': Ledger, i: nat, now: int, policy: MoneyPolicy, authentic: (nat, Bill) -> bool)
    requires SettleInvoice(l, i, now, policy, authentic).grant.Some?
    requires Deeper(l, l', l.invoices[i].bill.chain)
    ensures SettleInvoice(l', i, now, policy, authentic).grant.Some?
  {
    hide SettleInvoice, FinalizedHead, Total, CutoffHeight, NeedsFinality, HeadOf, UnderpayTolerance;
    GrantsExactlyWhen(l, i, now, policy, authentic);
    GrantsExactlyWhen(l', i, now, policy, authentic);
    var bill := l.invoices[i].bill;
    var finality := NeedsFinality(Total(l.payments, i, bill, Candidates), bill.decimals, bill.rate, bill.threshold);
    var f, f' := if finality then FinalizedHead(l.blocks, bill.chain) else None,
                 if finality then FinalizedHead(l'.blocks, bill.chain) else None;
    if CutoffOf(l, i) >= 0 {
      CutoffMeaning(HeadOf(l.heads, bill.chain), bill.minConfirmations, finality, f, CutoffOf(l, i));
      CutoffMeaning(HeadOf(l'.heads, bill.chain), bill.minConfirmations, finality, f', CutoffOf(l, i));
    }
    DeepGrows(l.payments, i, bill, CutoffOf(l, i), CutoffOf(l', i));
  }

  // ---- Payments only move forward --------------------------------------------------------

  function Rank(s: PaymentStatus): nat {
    match s case SeenPayment => 0 case IgnoredDust => 0 case Confirmed => 1 case Credited => 2 case Reverted => 3
  }

  /** Rows are only added; what the transfer was never changes; its status only moves forward. */
  ghost predicate Progress(before: seq<Payment>, after: seq<Payment>) {
    && |before| <= |after|
    && forall k | 0 <= k < |before| ::
         && after[k] == before[k].(status := after[k].status, confirmationsAtCredit := after[k].confirmationsAtCredit)
         && (after[k].status == before[k].status || Rank(before[k].status) < Rank(after[k].status))
  }

  lemma SettleProgress(l: Ledger, i: nat, now: int, policy: MoneyPolicy, authentic: (nat, Bill) -> bool)
    ensures Progress(l.payments, SettleInvoice(l, i, now, policy, authentic).ledger.payments)
  {
    hide Total, CutoffFor, AnomaliesReviewed, Classify, GrantNotices, Promoted, CreditedPayments;
    if i in l.invoices {
      var bill, cutoff, p := l.invoices[i].bill, CutoffOf(l, i), Prepared(l, i);
      var d := Judge(policy, bill, Total(p.payments, i, bill, Creditable(cutoff)), now);
      PointwiseProgress(l.payments, i, bill, cutoff, HeadOf(l.heads, bill.chain));
    }
  }

  lemma PointwiseProgress(payments: seq<Payment>, i: nat, bill: Bill, cutoff: int, head: int)
    ensures Progress(payments, payments) && Progress(payments, Promoted(payments, i, bill, cutoff))
    ensures Progress(payments, CreditedPayments(Promoted(payments, i, bill, cutoff), i, bill, cutoff, head))
  {
    hide Selected;
  }

  lemma {:induction false} SweepPayments(l: Ledger, ids: seq<nat>, now: int)
    ensures SweepExpired(l, ids, now).payments == l.payments && ExpireStale(l, ids, now).payments == l.payments
  {
    if |ids| > 0 {
      SweepPayments(l, ids[..|ids| - 1], now);
    }
  }

  lemma NextProgress(policy: MoneyPolicy, authentic: (nat, Bill) -> bool, l: Ledger, step: Step)
    ensures Progress(l.payments, Next(policy, authentic, l, step).payments)
  {
    hide SettleInvoice, SweepExpired, ExpireStale, Reverts;
    match step
    case Settle(i, now) => SettleProgress(l, i, now, policy, authentic);
    case Sweep(ids, now) => SweepPayments(l, ids, now);
    case Expire(ids, now) => SweepPayments(l, ids, now);
    case _ =>
  }

  lemma {:induction false} RunProgress(policy: MoneyPolicy, authentic: (nat, Bill) -> bool, steps: seq<Step>, m: nat)
    requires m <= |steps|
    ensures Progress(Run(policy, authentic, steps[..m]).payments, Run(policy, authentic, steps).payments)
  {
    hide Next;
    if m == |steps| {
      assert steps[..m] == steps;
    } else {
      var init := steps[..|steps| - 1];
      RunProgress(policy, authentic, init, m);
      assert init[..m] == steps[..m];
      NextProgress(policy, authentic, Run(policy, authentic, init), steps[|steps| - 1]);
    }
  }

  /** Step `n` of the run moves payment `k` to credited. */
  predicate CreditsAt(policy: MoneyPolicy, authentic: (nat, Bill) -> bool, steps: seq<Step>, n: nat, k: nat)
    requires n < |steps|
  {
    var before, after := Run(policy, authentic, steps[..n]).payments, Run(policy, authentic, steps[..n + 1]).payments;
    k < |after| && after[k].status == Credited && (k < |before| ==> before[k].status != Credited)
  }

  /** No payment is ever moved to credited twice. */
  lemma CreditedOnce(policy: MoneyPolicy, authentic: (nat, Bill) -> bool, steps: seq<Step>, m: nat, n: nat, k: nat)
    requires m < n < |steps| && CreditsAt(policy, authentic, steps, m, k)
    ensures !CreditsAt(policy, authentic, steps, n, k)
  {
    hide Run;
    var middle, later := steps[..n], steps[..n + 1];
    RunProgress(policy, authentic, middle, m + 1);
    assert middle[..m + 1] == steps[..m + 1];
    RunProgress(policy, authentic, later, n);
    assert later[..n] == middle;
  }

  // ---- Timers never write money off ------------------------------------------------------

  lemma {:induction false} SweepNeverWritesOff(l: Ledger, ids: seq<nat>, now: int, i: nat)
    requires i in l.invoices && Live(l.invoices[i].status)
    ensures var l' := SweepExpired(l, ids, now);
            && i in l'.invoices && l'.invoices[i].bill == l.invoices[i].bill
            && l'.invoices[i].status == (if i !in ids || now <= l.invoices[i].bill.topupUntil then l.invoices[i].status
                                         else if HasMoney(l.payments, i) then ManualReview
                                         else Expired)
  {
    hide HasMoney, ReviewOpened;
    if |ids| > 0 {
      var init, last := ids[..|ids| - 1], ids[|ids| - 1];
      assert ids == init + [last];
      SweepNeverWritesOff(l, init, now, i);
      SweepPayments(l, init, now);
    }
  }

  lemma {:induction false} ExpiryNeverWritesOff(l: Ledger, ids: seq<nat>, now: int, i: nat)
    requires i in l.invoices && Live(l.invoices[i].status)
    ensures var l' := ExpireStale(l, ids, now);
            && i in l'.invoices && l'.invoices[i].bill == l.invoices[i].bill
            && l'.invoices[i].status == (if i !in ids || now <= l.invoices[i].bill.rateLockedUntil || HasPayments(l.payments, i)
                                         then l.invoices[i].status
                                         else Expired)
  {
    hide HasPayments, Enqueued;
    if |ids| > 0 {
      var init, last := ids[..|ids| - 1], ids[|ids| - 1];
      assert ids == init + [last];
      ExpiryNeverWritesOff(l, init, now, i);
      SweepPayments(l, init, now);
    }
  }
}
