/** A run in which the same overpayment reaches a buyer's balance twice. The outbox row that guards
    the credit is keyed by the grant, and a reorg that removes another payment of the invoice
    revokes the grant without touching the money that earned it; settling again makes a new grant
    and credits the same excess again. `SettlerSafety.ExcessCreditedPerGrant` is what does hold. */
module SettlerWitness {
  import opened Wrappers
  import opened SettlerMoney
  import opened SettlerLedger
  import opened SettlerSafety

  const BILL := Bill(7, 1, 1, 1, 1, 0, 100, 1.0, 1, 1000.0, 50, 50)
  const OVERPAYMENT := Payment(Some(0), 1, 1, 5, 104, None, SeenPayment, None)
  const STRAY := Payment(Some(0), 1, 1, 7, 1, None, SeenPayment, None)

  function Accepts(i: nat, bill: Bill): bool {
    true
  }

  /** Bill 100, receive 104, grant; one more token arrives in a block that is then orphaned. */
  function Steps(): seq<Step> {
    [CreateInvoice(0, BILL), InsertPayment(OVERPAYMENT), Watch([], map[1 := 10]), Settle(0, 20), InsertPayment(STRAY),
     Watch([Block(1, 7, Orphaned)], map[1 := 10]), Reorg(1, 30), Settle(0, 40)]
  }

  /** The amounts at play: 104 against 100 is an excess kept on the balance, four dollars of it. */
  lemma Amounts(now: int)
    ensures Judge(DEFAULT_POLICY, BILL, 104, now) == Decision(OverpaidCredited, 100, 104, 4, 5)
    ensures CreditableUsd(4, 0, 1.0) == 4.0
    ensures !NeedsFinality(104, 0, 1.0, 1000.0)
  {
    assert Pow10(0) == 1;
    assert UsdToRaw(5.0, 0, 1.0) == 5;
    assert (100 as real * 0.05).Floor == 5;
    assert 4.0 * 1000000.0 == 4000000.0;
  }

  lemma TotalOfOne(p: Payment, sel: Selector)
    ensures Total([p], 0, BILL, sel) == if Selected(p, 0, BILL, sel) then p.amount else 0
  {
    assert [p][..0] == [];
  }

  lemma TotalOfTwo(p: Payment, q: Payment, sel: Selector)
    ensures Total([p, q], 0, BILL, sel)
         == (if Selected(p, 0, BILL, sel) then p.amount else 0) + (if Selected(q, 0, BILL, sel) then q.amount else 0)
  {
    assert [p, q][..1] == [p];
    TotalOfOne(p, sel);
  }

  const CREDITED := OVERPAYMENT.(status := Credited, confirmationsAtCredit := Some(6))

  /** A live invoice whose only countable money is the overpayment is granted, and the excess
      credited. */
  lemma GrantCredits(l: Ledger, now: int)
    requires 0 in l.invoices && l.invoices[0] == Invoice(BILL, Awaiting, None) && HeadOf(l.heads, 1) == 10
    requires l.payments == [OVERPAYMENT] || l.payments == [CREDITED, STRAY.(status := Reverted)]
    requires !HasKey(l.outbox, OverpaidCreditedNotice, 0, Grant(|l.entitlements|))
    ensures var l' := SettleInvoice(l, 0, now, DEFAULT_POLICY, Accepts).ledger;
            && l'.invoices == l.invoices[0 := Invoice(BILL, Overpaid, Some(now))]
            && l'.payments == [CREDITED] + l.payments[1..]
            && l'.entitlements == l.entitlements + [Entitlement(7, 1, 0, false)]
            && l'.balances == l.balances[7 := BalanceOf(l.balances, 7) + 4.0]
            && l'.outbox == GrantNotices(l.outbox, 0, 7, |l.entitlements|,
                                        Judge(DEFAULT_POLICY, BILL, 104, now), Credit(4, 0, 1.0))
            && l'.heads == l.heads && l'.blocks == l.blocks
  {
    Amounts(now);
    var cutoff := 10;
    PreparedTotals(l.payments);
    hide Total, Classify, UsdToRaw, NeedsFinality, AnomaliesReviewed, GrantNotices, CreditableUsd, HasKey;
    assert CutoffFor(l, BILL, 104) == 10;
    var p := Prepared(l, 0);
    assert p.payments[0] == OVERPAYMENT.(status := Confirmed) || p.payments[0] == CREDITED;
    assert CreditedPayments(p.payments, 0, BILL, cutoff, 10) == [CREDITED] + l.payments[1..];
  }

  lemma PreparedTotals(payments: seq<Payment>)
    requires payments == [OVERPAYMENT] || payments == [CREDITED, STRAY.(status := Reverted)]
    ensures Total(payments, 0, BILL, Candidates) == 104
    ensures Total(Promoted(payments, 0, BILL, 10), 0, BILL, Creditable(10)) == 104
  {
    var after := Promoted(payments, 0, BILL, 10);
    if |payments| == 1 {
      TotalOfOne(payments[0], Candidates);
      TotalOfOne(after[0], Creditable(10));
      assert after == [after[0]];
    } else {
      TotalOfTwo(payments[0], payments[1], Candidates);
      TotalOfTwo(after[0], after[1], Creditable(10));
      assert after == [after[0], after[1]];
    }
  }

  /** The ledger after the reorg: the grant is revoked, the invoice live, the stray token gone. */
  lemma ReorgTakesBack(l: Ledger, now: int)
    requires now < 50 && l.invoices == map[0 := Invoice(BILL, Overpaid, Some(20))]
    requires l.payments == [CREDITED, STRAY] && l.blocks == [Block(1, 7, Orphaned)]
    requires l.entitlements == [Entitlement(7, 1, 0, false)]
    ensures var l' := HandleReorg(l, 1, now);
            && l'.invoices == map[0 := Invoice(BILL, Awaiting, None)]
            && l'.payments == [CREDITED, STRAY.(status := Reverted)]
            && l'.entitlements == [Entitlement(7, 1, 0, true)]
            && l'.outbox == Enqueued(l.outbox, Notice(7, EntitlementRevoked, 0, Grant(0), NoCredit))
            && l'.balances == l.balances && l'.heads == l.heads
  {
    assert l.blocks[0] == Block(1, 7, Orphaned);
    assert EmptyHeight(l.blocks, 1, 7) && !EmptyHeight(l.blocks, 1, 5);
    assert Reverts(STRAY, l.blocks, 1) && !Reverts(CREDITED, l.blocks, 1);
    hide EmptyHeight;
    assert TouchedInvoices(l.payments, l.blocks, 1, 1) == [];
    assert TouchedInvoices(l.payments, l.blocks, 1, 2) == [0];
    assert RevokeNotices(l.outbox, l.entitlements, [0], 1)
      == Enqueued(l.outbox, Notice(7, EntitlementRevoked, 0, Grant(0), NoCredit));
  }

  /** The ledger after the first `n` steps. */
  function After(n: nat): Ledger
    requires n <= |Steps()|
  {
    Run(DEFAULT_POLICY, Accepts, Steps()[..n])
  }

  lemma StepAfter(n: nat)
    requires n < |Steps()|
    ensures After(n + 1) == Next(DEFAULT_POLICY, Accepts, After(n), Steps()[n])
  {
    assert Steps()[..n + 1][..n] == Steps()[..n];
  }

  lemma NothingYet()
    ensures After(0) == EMPTY && !HasKey(EMPTY.outbox, OverpaidCreditedNotice, 0, Grant(0))
  {
  }

  lemma FirstGrant()
    ensures After(6).invoices == map[0 := Invoice(BILL, Overpaid, Some(20))]
    ensures After(6).payments == [CREDITED, STRAY] && After(6).blocks == [Block(1, 7, Orphaned)]
    ensures After(6).entitlements == [Entitlement(7, 1, 0, false)]
    ensures BalanceOf(After(6).balances, 7) == 4.0 && HeadOf(After(6).heads, 1) == 10
    ensures After(6).outbox == GrantNotices([], 0, 7, 0, Judge(DEFAULT_POLICY, BILL, 104, 20), Credit(4, 0, 1.0))
  {
    hide Run, SettleInvoice, HandleReorg, SweepExpired, ExpireStale, WithStatus, GrantNotices, Judge, HasKey;
    NothingYet();
    StepAfter(0);
    StepAfter(1);
    StepAfter(2);
    GrantCredits(After(3), 20);
    StepAfter(3);
    StepAfter(4);
    StepAfter(5);
  }

  lemma LastSteps()
    ensures After(7) == HandleReorg(After(6), 1, 30)
    ensures After(8) == SettleInvoice(After(7), 0, 40, DEFAULT_POLICY, Accepts).ledger
    ensures After(8) == Run(DEFAULT_POLICY, Accepts, Steps())
  {
    hide Run, HandleReorg, SettleInvoice;
    StepAfter(6);
    StepAfter(7);
    assert Steps()[..8] == Steps();
  }

  /** The buyer sent 104 for a bill of 100, and 104 is what stands credited; the balance shows an
      excess of eight. */
  lemma ExcessCreditedTwice()
    ensures var l := Run(DEFAULT_POLICY, Accepts, Steps());
            && l.invoices == map[0 := Invoice(BILL, Overpaid, Some(40))]
            && Total(l.payments, 0, BILL, CreditedOnly) == 104
            && BalanceOf(l.balances, 7) == 8.0
  {
    hide Run, HandleReorg, SettleInvoice, Judge, After, Total, GrantNotices, HasKey, HeadOf, Enqueued;
    LastSteps();
    FirstGrant();
    ReorgTakesBack(After(6), 30);
    KeyIsNew();
    GrantCredits(After(7), 40);
    TotalOfTwo(CREDITED, STRAY.(status := Reverted), CreditedOnly);
    assert After(8).payments == [CREDITED, STRAY.(status := Reverted)];
  }

  /** The second grant has a new id, so its outbox key is free. */
  lemma KeyIsNew()
    ensures var sent := GrantNotices([], 0, 7, 0, Judge(DEFAULT_POLICY, BILL, 104, 20), Credit(4, 0, 1.0));
            !HasKey(Enqueued(sent, Notice(7, EntitlementRevoked, 0, Grant(0), NoCredit)), OverpaidCreditedNotice, 0, Grant(1))
  {
    hide Judge;
  }
}
