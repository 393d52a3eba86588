/** Whose address it is: what each statement does to which row, and that an address stays with its
    invoice for as long as that is open. */
module PoolTenancy {
  import opened Wrappers
  import opened PoolModel
  import opened PoolSafety

  // ---- The statements, row by row --------------------------------------------------------

  lemma {:induction false} CountIsCardinality(rows: seq<Address>, status: Status)
    ensures Count(rows, status) == |set k | 0 <= k < |rows| && rows[k].status == status|
  {
    var all := set k | 0 <= k < |rows| && rows[k].status == status;
    if |rows| > 0 {
      var n := |rows| - 1;
      CountIsCardinality(rows[..n], status);
      var fewer := set k | 0 <= k < |rows[..n]| && rows[..n][k].status == status;
      assert all == if rows[n].status == status then fewer + {n} else fewer;
    }
  }

  /** A release frees exactly the rows that are reserved, never held funds, whose cooldown is set and
      over, and whose invoice is not open; it leaves all others alone. */
  lemma ReleaseFrees(p: Pool, now: int, live: nat -> bool)
    ensures var q := Released(p, now, live);
            && q.nextIndex == p.nextIndex && q.active == p.active && |q.rows| == |p.rows|
            && forall k | 0 <= k < |p.rows| ::
                 q.rows[k] == if && p.rows[k].status == ReservedStatus && !p.rows[k].everFunded
                                 && p.rows[k].cooldownUntil.Some? && p.rows[k].cooldownUntil.value <= now
                                 && (p.rows[k].invoice.Some? ==> !live(p.rows[k].invoice.value))
                              then Address(p.rows[k].index, Free, None, false, None, None) else p.rows[k]
  {
  }

  /** An address that a reservation may take from the pool. */
  predicate Available(p: Pool, k: int, now: int) {
    && 0 <= k < |p.rows| && p.rows[k].status == Free && !p.rows[k].everFunded
    && (p.rows[k].cooldownUntil.Some? ==> now >= p.rows[k].cooldownUntil.value)
  }

  /** The address with the lowest derivation index of those available is bound, everything else stays; a
      new address is derived only if none is available, the account is active and fewer addresses than
      the ceiling are reserved. */
  lemma ReserveTakesLowest(p: Pool, ceiling: nat, invoice: nat, block: nat, now: int)
    ensures var (q, r) := ReserveFor(p, ceiling, invoice, block, now);
            if exists k :: Available(p, k, now) then
              && r.Given? && Available(p, r.id, now)
              && (forall k | Available(p, k, now) :: p.rows[r.id].index <= p.rows[k].index)
              && q.rows == p.rows[r.id := Address(p.rows[r.id].index, ReservedStatus, None, false, Some(invoice),
                                                  Some(block))]
              && q.nextIndex == p.nextIndex && q.active == p.active
            else if !p.active then q == p && r == Inactive
           
            else if |set k | 0 <= k < |p.rows| && p.rows[k].status == ReservedStatus| >= ceiling then
              q == p && r == Exhausted
            else
              && r == Given(|p.rows|) && q.nextIndex == p.nextIndex + 1 && q.active
              && q.rows == p.rows + [Address(p.nextIndex, ReservedStatus, None, false, Some(invoice), Some(block))]
  {
    CountIsCardinality(p.rows, ReservedStatus);
    hide Count, Pick;
    assert forall k | 0 <= k < |p.rows| :: Available(p, k, now) <==> Pickable(p.rows[k], now);
    var k := Pick(p.rows, now, |p.rows|);
    if k.Some? {
      assert Available(p, k.value, now);
    }
  }

  /** Binding succeeds exactly for a free address without an invoice that never held funds. */
  lemma BindTakesFree(p: Pool, id: nat, invoice: nat, block: nat)
    ensures var (q, r) := BoundTo(p, id, invoice, block);
            if id < |p.rows| && p.rows[id].status == Free && p.rows[id].invoice.None? && !p.rows[id].everFunded then
              && r == Given(id) && q.nextIndex == p.nextIndex && q.active == p.active
              && q.rows == p.rows[id := Address(p.rows[id].index, ReservedStatus, None, false, Some(invoice),
                                                Some(block))]
            else q == p && r == NotBindable
  {
  }

  // ---- Tenancy ---------------------------------------------------------------------------

  /** The address is bound to the invoice. */
  predicate Tenant(p: Pool, id: nat, invoice: nat) {
    id < |p.rows| && p.rows[id].invoice == Some(invoice)
  }

  /** The step hands out this address. */
  predicate HandsOut(p: Pool, step: Step, ceiling: nat, id: nat) {
    match step
    case Reserve(invoice, block, now) => ReserveFor(p, ceiling, invoice, block, now).1 == Given(id)
    case Allocate(now) => Allocated(p, ceiling, now).1 == Given(id)
    case Bind(k, invoice, block) => BoundTo(p, k, invoice, block).1 == Given(id)
    case _ => false
  }

  /** A step takes the address away from its invoice exactly when it is a release, the address never
      held funds, its cooldown is set and over, and the invoice is not open. No step hands out an
      address that has an invoice. */
  lemma TenancyEndsExactlyWhen(p: Pool, step: Step, ceiling: nat, id: nat, invoice: nat)
    requires Inv(p, ceiling) && Tenant(p, id, invoice)
    ensures var row, q := p.rows[id], Next(p, step, ceiling);
            && id < |q.rows| && row.status != Free
            && (!Tenant(q, id, invoice)
                <==> step.Release? && !step.live(invoice) && !row.everFunded
                     && row.cooldownUntil.Some? && row.cooldownUntil.value <= step.now)
            && (q.rows[id].status == Free <==> !Tenant(q, id, invoice))
    ensures !HandsOut(p, step, ceiling, id)
  {
    hide Count;
    assert CleanRow(p.rows[id]);
  }

  /** The releases of a run after its first `m` steps all find the invoice open. */
  predicate StaysOpen(steps: seq<Step>, m: nat, invoice: nat) {
    forall k | m <= k < |steps| && steps[k].Release? :: steps[k].live(invoice)
  }

  /** An open invoice keeps its address: from the moment it is bound, as long as no release finds the
      invoice closed, the address stays with it and is not handed out to anyone. */
  lemma {:induction false} OpenInvoiceKeepsItsAddress(steps: seq<Step>, ceiling: nat, m: nat, n: nat, id: nat,
                                                      invoice: nat)
    requires m <= n <= |steps| && Tenant(Run(steps[..m], ceiling), id, invoice) && StaysOpen(steps, m, invoice)
    ensures var p := Run(steps[..n], ceiling);
            Tenant(p, id, invoice) && p.rows[id].status != Free && (n < |steps| ==> !HandsOut(p, steps[n], ceiling, id))
    decreases n - m
  {
    hide Next, HandsOut, Inv, Count;
    RunKeeps(steps[..n], ceiling);
    if m < n {
      OpenInvoiceKeepsItsAddress(steps, ceiling, m, n - 1, id, invoice);
      var before := Run(steps[..n - 1], ceiling);
      assert steps[..n][..n - 1] == steps[..n - 1];
      RunKeeps(steps[..n - 1], ceiling);
      TenancyEndsExactlyWhen(before, steps[n - 1], ceiling, id, invoice);
    }
    if n < |steps| {
      TenancyEndsExactlyWhen(Run(steps[..n], ceiling), steps[n], ceiling, id, invoice);
    } else {
      TenancyEndsExactlyWhen(Run(steps[..n], ceiling), SetActive(true), ceiling, id, invoice);
    }
  }
}
