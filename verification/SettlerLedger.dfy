/** The settler's tables, and what each of its transactions does to them. Every transaction is a
    function from the ledger before to the ledger after. */
module SettlerLedger {
  import opened Extrema
  import opened Wrappers
  import opened SettlerMoney

  // ---- Tables ----------------------------------------------------------------------------

  datatype InvoiceStatus =
    | Awaiting
    | Seen
    | PartiallyPaidStatus
    | PaidStatus
    | Overpaid
    | Expired
    | ManualReview
    | Cancelled
    | RevertedStatus

  predicate Live(s: InvoiceStatus) {
    s == Awaiting || s == Seen || s == PartiallyPaidStatus
  }

  predicate Settled(s: InvoiceStatus) {
    s == PaidStatus || s == Overpaid
  }

  /** What was quoted to the buyer. Fixed once the invoice exists; the integrity MAC covers it. */
  datatype Bill = Bill(user: nat, product: nat, chain: nat, asset: nat, assetChain: nat, decimals: nat, due: nat, rate: Rate,
                       minConfirmations: nat, threshold: real, topupUntil: int, rateLockedUntil: int)

  datatype Invoice = Invoice(bill: Bill, status: InvoiceStatus, settledAt: Option<int>)

  datatype PaymentStatus = SeenPayment | Confirmed | Credited | Reverted | IgnoredDust

  datatype Anomaly = WrongAsset | WrongChain | Late | Dust | OrphanPayment | UnassignedPayment

  /** A transfer; its index in the table is its id. */
  datatype Payment = Payment(invoice: Option<nat>, chain: nat, asset: nat, block: nat, amount: nat, anomaly: Option<Anomaly>,
                             status: PaymentStatus, confirmationsAtCredit: Option<int>)

  datatype Entitlement = Entitlement(user: nat, product: nat, invoice: nat, revoked: bool)

  datatype NoticeKind = InvoiceSettled | OverpaidCreditedNotice | RefundPending | InvoiceUnderpaid | InvoiceManualReview
                      | EntitlementRevoked | InvoiceExpired

  datatype Dedup = Grant(id: nat) | Amount(raw: int) | RateLock

  /** The excess a message reports as credited, in base units, with what it takes to price it. */
  datatype Credit = NoCredit | Credit(raw: int, decimals: nat, rate: Rate)

  /** An excess in dollars, rounded down to what a balance can hold. */
  function UsdOf(c: Credit): real {
    match c case NoCredit => 0.0 case Credit(raw, decimals, rate) => CreditableUsd(raw, decimals, rate)
  }

  datatype Notice = Notice(user: nat, kind: NoticeKind, ref: nat, dedup: Dedup, credit: Credit)

  datatype ReviewKind = MacFailure | Underpaid | OverpaidReview | PaymentAnomaly(anomaly: Anomaly)

  datatype Review = Review(kind: ReviewKind, invoice: Option<nat>, payment: Option<nat>, open: bool)

  datatype Refund = Refund(invoice: nat, amount: int, pending: bool)

  datatype Action =
    | SettleAction(outcome: Outcome)
    | BalanceAction
    | MacAction
    | RevokeAction
    | SweepAction
    | RateLockAction

  datatype Audit = Audit(action: Action, target: nat)

  datatype BlockStatus = Unconfirmed | Final | Orphaned

  datatype Block = Block(chain: nat, number: nat, status: BlockStatus)

  datatype Ledger = Ledger(
    invoices: map<nat, Invoice>,
    payments: seq<Payment>,
    entitlements: seq<Entitlement>,
    outbox: seq<Notice>,
    balances: map<nat, real>,
    reviews: seq<Review>,
    refunds: seq<Refund>,
    audit: seq<Audit>,
    blocks: seq<Block>,
    heads: map<nat, nat>)

  // ---- Which payments count --------------------------------------------------------------

  /** Right invoice, right asset, right chain, and no anomaly that needs a human. */
  predicate Matches(p: Payment, i: nat, bill: Bill) {
    p.invoice == Some(i) && p.asset == bill.asset && p.chain == bill.chain && (p.anomaly.None? || p.anomaly == Some(Late))
  }

  /** The sums the settler takes: everything that may still count, what is deep enough to count
      now, and what has been credited. `Deep` is the part of the candidates at or below a height. */
  datatype Selector = Candidates | Deep(cutoff: int) | Creditable(cutoff: int) | CreditedOnly

  predicate Arrived(s: PaymentStatus) {
    s == SeenPayment || s == Confirmed || s == Credited
  }

  predicate Selected(p: Payment, i: nat, bill: Bill, sel: Selector) {
    && Matches(p, i, bill)
    && match sel
       case Candidates => Arrived(p.status)
       case Deep(cutoff) => Arrived(p.status) && p.block <= cutoff
       case Creditable(cutoff) => (p.status == Confirmed || p.status == Credited) && p.block <= cutoff
       case CreditedOnly => p.status == Credited
  }

  function Total(payments: seq<Payment>, i: nat, bill: Bill, sel: Selector): nat {
    if |payments| == 0 then 0
    else
      var p := payments[|payments| - 1];
      Total(payments[..|payments| - 1], i, bill, sel) + (if Selected(p, i, bill, sel) then p.amount else 0)
  }

  // ---- Statements ------------------------------------------------------------------------

  datatype Stamp = Keep | Mark(at: int) | Clear

  function Stamped(s: Stamp, was: Option<int>): Option<int> {
    match s case Keep => was case Mark(at) => Some(at) case Clear => None
  }

  function WithStatus(invoices: map<nat, Invoice>, i: nat, status: InvoiceStatus, stamp: Stamp): map<nat, Invoice>
    requires i in invoices
  {
    invoices[i := invoices[i].(status := status, settledAt := Stamped(stamp, invoices[i].settledAt))]
  }

  function PromotedOne(p: Payment, i: nat, bill: Bill, cutoff: int): Payment {
    if Selected(p, i, bill, Candidates) && p.status == SeenPayment && p.block <= cutoff then p.(status := Confirmed)
    else p
  }

  function Promoted(payments: seq<Payment>, i: nat, bill: Bill, cutoff: int): (r: seq<Payment>)
    ensures |r| == |payments|
  {
    seq(|payments|, k requires 0 <= k < |payments| => PromotedOne(payments[k], i, bill, cutoff))
  }

  function ConfirmationsOf(head: int, block: int): int {
    Max(0, head - block + 1)
  }

  function CreditedOne(p: Payment, i: nat, bill: Bill, cutoff: int, head: int): Payment {
    if Selected(p, i, bill, Candidates) && p.block <= cutoff && p.status == Confirmed
    then p.(status := Credited, confirmationsAtCredit := Some(ConfirmationsOf(head, p.block))) else p
  }

  function CreditedPayments(payments: seq<Payment>, i: nat, bill: Bill, cutoff: int, head: int): (r: seq<Payment>)
    ensures |r| == |payments|
  {
    seq(|payments|, k requires 0 <= k < |payments| => CreditedOne(payments[k], i, bill, cutoff, head))
  }

  predicate HasKey(outbox: seq<Notice>, kind: NoticeKind, ref: nat, dedup: Dedup) {
    exists k | 0 <= k < |outbox| :: outbox[k].kind == kind && outbox[k].ref == ref && outbox[k].dedup == dedup
  }

  /** `ON CONFLICT (kind, ref_id, dedup_key) DO NOTHING`. */
  function Enqueued(outbox: seq<Notice>, n: Notice): seq<Notice> {
    if HasKey(outbox, n.kind, n.ref, n.dedup) then outbox else outbox + [n]
  }

  predicate ReviewBlocked(reviews: seq<Review>, kind: ReviewKind, invoice: Option<nat>, payment: Option<nat>) {
    exists k | 0 <= k < |reviews| ::
      reviews[k].open
      && ((payment.Some? && reviews[k].payment == payment)
          || (reviews[k].kind == kind && reviews[k].invoice == invoice && reviews[k].payment == payment))
  }

  /** One open case per kind and invoice, and one open case per payment. */
  function ReviewOpened(reviews: seq<Review>, kind: ReviewKind, invoice: Option<nat>,
                        payment: Option<nat>): seq<Review> {
    if ReviewBlocked(reviews, kind, invoice, payment) then reviews else reviews + [Review(kind, invoice, payment, true)]
  }

  predicate RefundBlocked(refunds: seq<Refund>, i: nat) {
    exists k | 0 <= k < |refunds| :: refunds[k].invoice == i && refunds[k].pending
  }

  function RefundCreated(refunds: seq<Refund>, i: nat, amount: int): seq<Refund> {
    if RefundBlocked(refunds, i) then refunds else refunds + [Refund(i, amount, true)]
  }

  function BalanceOf(balances: map<nat, real>, user: nat): real {
    if user in balances then balances[user] else 0.0
  }

  function BalanceAdded(balances: map<nat, real>, user: nat, usd: real): map<nat, real> {
    if usd > 0.0 then balances[user := BalanceOf(balances, user) + usd] else balances
  }

  /** `MAX(number)` over the chain's final blocks. */
  function FinalizedHead(blocks: seq<Block>, chain: nat): (f: Option<int>)
    ensures f.Some? ==> f.value >= 0
    ensures f.None? <==> forall b | b in blocks :: !(b.chain == chain && b.status == Final)
    ensures f.Some? ==> (exists b | b in blocks :: b.chain == chain && b.status == Final && b.number == f.value)
                        && forall b | b in blocks && b.chain == chain && b.status == Final :: b.number <= f.value
  {
    if |blocks| == 0 then None
    else
      var b, rest := blocks[|blocks| - 1], FinalizedHead(blocks[..|blocks| - 1], chain);
      assert blocks == blocks[..|blocks| - 1] + [b];
      if b.chain != chain || b.status != Final then rest
      else if rest.None? then Some(b.number)
      else Some(Max(b.number, rest.value))
  }

  function HeadOf(heads: map<nat, nat>, chain: nat): nat {
    if chain in heads then heads[chain] else 0
  }

  // ---- settle_invoice --------------------------------------------------------------------

  predicate Blocking(a: Option<Anomaly>) {
    a == Some(WrongAsset) || a == Some(WrongChain) || a == Some(OrphanPayment) || a == Some(UnassignedPayment)
  }

  /** One case per anomalous payment among the first `n`. */
  function AnomaliesReviewed(reviews: seq<Review>, payments: seq<Payment>, i: nat, n: nat): seq<Review>
    requires n <= |payments|
  {
    if n == 0 then reviews
    else
      var before, p := AnomaliesReviewed(reviews, payments, i, n - 1), payments[n - 1];
      if p.invoice == Some(i) && Blocking(p.anomaly)
      then ReviewOpened(before, PaymentAnomaly(p.anomaly.value), Some(i), Some(n - 1)) else before
  }

  function CutoffFor(l: Ledger, bill: Bill, candidateTotal: int): int {
    var finality := NeedsFinality(candidateTotal, bill.decimals, bill.rate, bill.threshold);
    CutoffHeight(HeadOf(l.heads, bill.chain), bill.minConfirmations, finality,
                 if finality then FinalizedHead(l.blocks, bill.chain) else None)
  }

  function Judge(policy: MoneyPolicy, bill: Bill, total: int, now: int): Decision {
    Classify(policy, bill.due, total, bill.decimals, bill.rate, now, bill.topupUntil)
  }

  datatype Result = Result(ledger: Ledger, outcome: Outcome, total: int, grant: Option<nat>)

  function Refused(l: Ledger, i: nat): (r: Result)
    requires i in l.invoices
    ensures r.outcome == IntegrityFailed && r.grant.None?
  {
    var reviewed := l.(reviews := ReviewOpened(l.reviews, MacFailure, Some(i), None),
                       audit := l.audit + [Audit(MacAction, i)]);
    Result(if Live(l.invoices[i].status)
           then reviewed.(invoices := WithStatus(l.invoices, i, ManualReview, Keep)) else reviewed,
           IntegrityFailed, 0, None)
  }

  function SettledStatus(o: Outcome): InvoiceStatus {
    if o == OverpaidCredited || o == OverpaidRefundPending then Overpaid else PaidStatus
  }

  /** The outbox after a grant: one message, plus one that says what happened to any excess. */
  function GrantNotices(outbox: seq<Notice>, i: nat, user: nat, grant: nat, d: Decision, credit: Credit): seq<Notice> {
    var sent := Enqueued(outbox, Notice(user, InvoiceSettled, i, Grant(grant), NoCredit));
    if d.outcome == OverpaidCredited then Enqueued(sent, Notice(user, OverpaidCreditedNotice, i, Grant(grant), credit))
   
   
    else if d.outcome == OverpaidRefundPending then Enqueued(sent, Notice(user, RefundPending, i, Grant(grant), NoCredit))
    else sent
  }

  /** Is the balance credited? Only when the excess is kept and its outbox row is new. */
  predicate CreditsBalance(outbox: seq<Notice>, i: nat, grant: nat, d: Decision) {
    d.outcome == OverpaidCredited && !HasKey(outbox, OverpaidCreditedNotice, i, Grant(grant))
  }

  /** Close the invoice, credit the payments, grant access, queue the messages. */
  function Applied(l: Ledger, i: nat, d: Decision, cutoff: int, now: int): Result
    requires i in l.invoices
  {
    var bill, grant := l.invoices[i].bill, |l.entitlements|;
    if !Live(l.invoices[i].status) then Result(l, AlreadySettled, d.total, None)
    else
      var credit := Credit(d.Excess(), bill.decimals, bill.rate);
      var credits, refunds := CreditsBalance(l.outbox, i, grant, d), d.outcome == OverpaidRefundPending;
      Result(l.(invoices := WithStatus(l.invoices, i, SettledStatus(d.outcome), Mark(now)),
                payments := CreditedPayments(l.payments, i, bill, cutoff, HeadOf(l.heads, bill.chain)),
                entitlements := l.entitlements + [Entitlement(bill.user, bill.product, i, false)],
                outbox := GrantNotices(l.outbox, i, bill.user, grant, d, credit),
                balances := if credits then BalanceAdded(l.balances, bill.user, UsdOf(credit)) else l.balances,
                refunds := if refunds then RefundCreated(l.refunds, i, d.Excess()) else l.refunds,
                reviews := if refunds then ReviewOpened(l.reviews, OverpaidReview, Some(i), None) else l.reviews,
                audit := l.audit + (if credits then [Audit(BalanceAction, bill.user)] else [])
                         + [Audit(SettleAction(d.outcome), i)]),
             d.outcome, d.total, Some(grant))
  }

  function AppliedPartially(l: Ledger, i: nat, d: Decision): Result
    requires i in l.invoices
  {
    if !Live(l.invoices[i].status) then Result(l, AlreadySettled, d.total, None)
    else
      Result(l.(invoices := WithStatus(l.invoices, i, PartiallyPaidStatus, Keep),
                outbox := Enqueued(l.outbox, Notice(l.invoices[i].bill.user, InvoiceUnderpaid, i, Amount(d.total), NoCredit)),
                audit := l.audit + [Audit(SettleAction(d.outcome), i)]),
             d.outcome, d.total, None)
  }

  function AppliedUnderpaid(l: Ledger, i: nat, d: Decision): Result
    requires i in l.invoices
  {
    if !Live(l.invoices[i].status) then Result(l, AlreadySettled, d.total, None)
    else
      Result(l.(invoices := WithStatus(l.invoices, i, ManualReview, Keep),
                reviews := ReviewOpened(l.reviews, Underpaid, Some(i), None),
                outbox := Enqueued(l.outbox,
                                   Notice(l.invoices[i].bill.user, InvoiceManualReview, i, Amount(d.total), NoCredit)),
                audit := l.audit + [Audit(SettleAction(d.outcome), i)]),
             d.outcome, d.total, None)
  }

  /** Carry out the decision on a ledger whose payments have been promoted. */
  function Concluded(l: Ledger, i: nat, candidateTotal: int, cutoff: int, now: int, policy: MoneyPolicy): Result
    requires i in l.invoices
  {
    var bill := l.invoices[i].bill;
    var d := Judge(policy, bill, Total(l.payments, i, bill, Creditable(cutoff)), now);
    if !Granting(d.outcome) && candidateTotal > d.total && Granting(Judge(policy, bill, candidateTotal, now).outcome)
    then Result(l, AwaitingConfirmations, d.total, None)
    else if Granting(d.outcome) then Applied(l, i, d, cutoff, now)
    else if d.outcome == PartiallyPaid then AppliedPartially(l, i, d)
    else if d.outcome == UnderpaidManualReview then AppliedUnderpaid(l, i, d)
    else Result(l, d.outcome, d.total, None)
  }

  /** The ledger after reviews were opened and deep-enough payments promoted. */
  function Prepared(l: Ledger, i: nat): Ledger
    requires i in l.invoices
  {
    var bill := l.invoices[i].bill;
    var cutoff := CutoffFor(l, bill, Total(l.payments, i, bill, Candidates));
    l.(reviews := AnomaliesReviewed(l.reviews, l.payments, i, |l.payments|), payments := Promoted(l.payments, i, bill, cutoff))
  }

  function SettleInvoice(l: Ledger, i: nat, now: int, policy: MoneyPolicy, authentic: (nat, Bill) -> bool): Result {
    if i !in l.invoices then Result(l, InvoiceNotFound, 0, None)
    else
      var inv := l.invoices[i];
      if inv.bill.assetChain != inv.bill.chain then Result(l, InconsistentInvoice, 0, None)
      else if !authentic(i, inv.bill) then Refused(l, i)
      else if Settled(inv.status) then Result(l, AlreadySettled, 0, None)
      else if !Live(inv.status) then Result(l, NotLive, 0, None)
      else
        var candidateTotal := Total(l.payments, i, inv.bill, Candidates);
        if candidateTotal <= 0 then
          Result(l.(reviews := AnomaliesReviewed(l.reviews, l.payments, i, |l.payments|)), NoFunds, 0, None)
        else
          Concluded(Prepared(l, i), i, candidateTotal, CutoffFor(l, inv.bill, candidateTotal), now, policy)
  }

  // ---- handle_reorg ----------------------------------------------------------------------

  predicate EmptyHeight(blocks: seq<Block>, chain: nat, number: nat) {
    && (exists k | 0 <= k < |blocks| :: blocks[k].chain == chain && blocks[k].number == number && blocks[k].status == Orphaned)
    && (forall k | 0 <= k < |blocks| ::
          blocks[k].chain == chain && blocks[k].number == number ==> blocks[k].status == Orphaned)
  }

  /** Money that arrived and has not gone away, at a height whose only blocks are orphaned. */
  predicate Reverts(p: Payment, blocks: seq<Block>, chain: nat) {
    && p.chain == chain
    && Arrived(p.status)
    && EmptyHeight(blocks, chain, p.block)
  }

  function RevertedPayments(payments: seq<Payment>, blocks: seq<Block>, chain: nat): (r: seq<Payment>)
    ensures |r| == |payments|
  {
    seq(|payments|, k requires 0 <= k < |payments| =>
      if Reverts(payments[k], blocks, chain) then payments[k].(status := Reverted) else payments[k])
  }

  /** The invoices of the reverted payments, each once. */
  function TouchedInvoices(payments: seq<Payment>, blocks: seq<Block>, chain: nat, n: nat): (ids: seq<nat>)
    requires n <= |payments|
  {
    if n == 0 then []
    else
      var ids, p := TouchedInvoices(payments, blocks, chain, n - 1), payments[n - 1];
      if Reverts(p, blocks, chain) && p.invoice.Some? && p.invoice.value !in ids then ids + [p.invoice.value] else ids
  }

  function Revoked(ents: seq<Entitlement>, ids: seq<nat>): (r: seq<Entitlement>)
    ensures |r| == |ents|
  {
    seq(|ents|, k requires 0 <= k < |ents| => if ents[k].invoice in ids then ents[k].(revoked := true) else ents[k])
  }

  function UnsettledOne(inv: Invoice, now: int): Invoice {
    if Settled(inv.status)
    then inv.(status := if now < inv.bill.topupUntil then Awaiting else RevertedStatus, settledAt := None) else inv
  }

  function Unsettled(invoices: map<nat, Invoice>, ids: seq<nat>, now: int): (r: map<nat, Invoice>)
    ensures r.Keys == invoices.Keys
  {
    map i | i in invoices :: if i in ids then UnsettledOne(invoices[i], now) else invoices[i]
  }

  /** One message per entitlement that was active before. */
  function RevokeNotices(outbox: seq<Notice>, ents: seq<Entitlement>, ids: seq<nat>, n: nat): seq<Notice>
    requires n <= |ents|
  {
    if n == 0 then outbox
    else
      var before, e := RevokeNotices(outbox, ents, ids, n - 1), ents[n - 1];
      if e.invoice in ids && !e.revoked
      then Enqueued(before, Notice(e.user, EntitlementRevoked, e.invoice, Grant(n - 1), NoCredit))
      else before
  }

  function RevokeAudit(ids: seq<nat>): seq<Audit> {
    seq(|ids|, k requires 0 <= k < |ids| => Audit(RevokeAction, ids[k]))
  }

  function HandleReorg(l: Ledger, chain: nat, now: int): Ledger {
    var ids := TouchedInvoices(l.payments, l.blocks, chain, |l.payments|);
    l.(payments := RevertedPayments(l.payments, l.blocks, chain),
       entitlements := Revoked(l.entitlements, ids),
       invoices := Unsettled(l.invoices, ids, now),
       outbox := RevokeNotices(l.outbox, l.entitlements, ids, |l.entitlements|),
       audit := l.audit + RevokeAudit(ids))
  }

  // ---- The sweeps ------------------------------------------------------------------------

  predicate HasMoney(payments: seq<Payment>, i: nat) {
    exists k | 0 <= k < |payments| ::
      payments[k].invoice == Some(i) && Arrived(payments[k].status)
  }

  function SweptOne(l: Ledger, i: nat, now: int): Ledger {
    if i in l.invoices && Live(l.invoices[i].status) && now > l.invoices[i].bill.topupUntil then
      var money := HasMoney(l.payments, i);
      l.(invoices := WithStatus(l.invoices, i, if money then ManualReview else Expired, Keep),
         reviews := if money then ReviewOpened(l.reviews, Underpaid, Some(i), None) else l.reviews,
         audit := l.audit + [Audit(SweepAction, i)])
    else l
  }

  /** Close the invoices whose top-up window has passed; `ids` is what the selection returned. */
  function SweepExpired(l: Ledger, ids: seq<nat>, now: int): Ledger {
    if |ids| == 0 then l else SweptOne(SweepExpired(l, ids[..|ids| - 1], now), ids[|ids| - 1], now)
  }

  predicate HasPayments(payments: seq<Payment>, i: nat) {
    exists k | 0 <= k < |payments| :: payments[k].invoice == Some(i)
  }

  function ExpiredOne(l: Ledger, i: nat, now: int): Ledger {
    if i in l.invoices && Live(l.invoices[i].status)
       && now > l.invoices[i].bill.rateLockedUntil && !HasPayments(l.payments, i) then
      l.(invoices := WithStatus(l.invoices, i, Expired, Keep),
         outbox := Enqueued(l.outbox, Notice(l.invoices[i].bill.user, InvoiceExpired, i, RateLock, NoCredit)),
         audit := l.audit + [Audit(RateLockAction, i)])
    else l
  }

  function ExpireStale(l: Ledger, ids: seq<nat>, now: int): Ledger {
    if |ids| == 0 then l else ExpiredOne(ExpireStale(l, ids[..|ids| - 1], now), ids[|ids| - 1], now)
  }
}
