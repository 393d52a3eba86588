/** The bounds the pool keeps in every serial run under a constant ceiling. */
module PoolSafety {
  import opened Wrappers
  import opened PoolModel

  /** A free address carries nothing of its last tenant and never held funds; funds are a latch. */
  predicate CleanRow(a: Address) {
    && (a.status == Free ==> a.cooldownUntil.None? && !a.everFunded && a.invoice.None? && a.fromBlock.None?)
    && (a.status == ReservedStatus ==> a.invoice.Some? && a.fromBlock.Some? && !a.everFunded)
    && (a.status == Funded <==> a.everFunded)
  }

  ghost predicate Clean(rows: seq<Address>) {
    forall k | 0 <= k < |rows| :: CleanRow(rows[k])
  }

  /** The rows are the derivation indices 0, 1, 2, ... once each, in order. */
  ghost predicate Indexed(p: Pool) {
    |p.rows| == p.nextIndex && forall k | 0 <= k < |p.rows| :: p.rows[k].index == k
  }

  ghost predicate Inv(p: Pool, ceiling: nat) {
    Clean(p.rows) && Indexed(p) && Count(p.rows, Free) + Count(p.rows, ReservedStatus) <= ceiling
  }

  // ---- Counting --------------------------------------------------------------------------

  function One(a: Address, status: Status): nat {
    if a.status == status then 1 else 0
  }

  lemma CountAppend(rows: seq<Address>, a: Address, status: Status)
    ensures Count(rows + [a], status) == Count(rows, status) + One(a, status)
  {
    assert (rows + [a])[..|rows|] == rows;
  }

  lemma {:induction false} CountUpdate(rows: seq<Address>, k: nat, a: Address, status: Status)
    requires k < |rows|
    ensures Count(rows[k := a], status) == Count(rows, status) - One(rows[k], status) + One(a, status)
  {
    var init := rows[..|rows| - 1];
    if k == |rows| - 1 {
      assert rows[k := a][..|rows| - 1] == init;
    } else {
      CountUpdate(init, k, a, status);
      assert rows[k := a][..|rows| - 1] == init[k := a];
    }
  }

  /** Every address is free, reserved or has been funded. */
  lemma {:induction false} CountsAddUp(rows: seq<Address>)
    requires Clean(rows)
    ensures Count(rows, Free) + Count(rows, ReservedStatus) + EverFunded(rows) == |rows|
    ensures EverFunded(rows) == Count(rows, Funded)
  {
    if |rows| > 0 {
      CountsAddUp(rows[..|rows| - 1]);
      assert CleanRow(rows[|rows| - 1]);
    }
  }

  lemma {:induction false} NoneFree(rows: seq<Address>)
    requires forall k | 0 <= k < |rows| :: rows[k].status != Free
    ensures Count(rows, Free) == 0
  {
    if |rows| > 0 {
      NoneFree(rows[..|rows| - 1]);
    }
  }

  /** In a clean pool an address that cannot be picked is not free at all. */
  lemma UnpickableMeansNoneFree(rows: seq<Address>, now: int)
    requires Clean(rows) && Pick(rows, now, |rows|).None?
    ensures Count(rows, Free) == 0
  {
    forall k | 0 <= k < |rows|
      ensures rows[k].status != Free
    {
      assert CleanRow(rows[k]) && !Pickable(rows[k], now);
    }
    NoneFree(rows);
  }

  // ---- Each operation --------------------------------------------------------------------

  lemma UpdateKeeps(p: Pool, k: nat, a: Address, ceiling: nat)
    requires Inv(p, ceiling) && k < |p.rows| && CleanRow(a) && a.index == p.rows[k].index
    requires p.rows[k].status == Funded ==> a.status == Funded
    ensures Inv(p.(rows := p.rows[k := a]), ceiling)
  {
    CountUpdate(p.rows, k, a, Free);
    CountUpdate(p.rows, k, a, ReservedStatus);
    assert CleanRow(p.rows[k]);
    hide Count, CleanRow;
  }

  lemma DeriveKeeps(p: Pool, ceiling: nat, invoice: Option<nat>, block: nat, now: int)
    requires Inv(p, ceiling) && Pick(p.rows, now, |p.rows|).None?
    ensures Inv(Derived(p, ceiling, invoice, block).0, ceiling)
  {
    UnpickableMeansNoneFree(p.rows, now);
    var newest := Address(p.nextIndex, if invoice.None? then Free else ReservedStatus, None, false, invoice,
                         if invoice.None? then None else Some(block));
    CountAppend(p.rows, newest, Free);
    CountAppend(p.rows, newest, ReservedStatus);
    hide Count;
  }

  lemma {:induction false} ReleaseCounts(rows: seq<Address>, now: int, live: nat -> bool)
    ensures var after := Released(Pool(rows, 0, true), now, live).rows;
            && Count(after, Free) + Count(after, ReservedStatus) == Count(rows, Free) + Count(rows, ReservedStatus)
            && EverFunded(after) == EverFunded(rows)
  {
    if |rows| > 0 {
      var init := rows[..|rows| - 1];
      ReleaseCounts(init, now, live);
      var after := Released(Pool(rows, 0, true), now, live).rows;
      assert after[..|rows| - 1] == Released(Pool(init, 0, true), now, live).rows;
    }
  }

  lemma ReleaseKeeps(p: Pool, ceiling: nat, now: int, live: nat -> bool)
    requires Inv(p, ceiling)
    ensures Inv(Released(p, now, live), ceiling)
  {
    ReleaseCounts(p.rows, now, live);
    assert Released(p, now, live).rows == Released(Pool(p.rows, 0, true), now, live).rows;
    hide Count;
    var after := Released(p, now, live).rows;
    forall k | 0 <= k < |after|
      ensures CleanRow(after[k])
    {
      assert CleanRow(p.rows[k]);
    }
  }

  lemma NextKeeps(p: Pool, step: Step, ceiling: nat)
    requires Inv(p, ceiling)
    ensures Inv(Next(p, step, ceiling), ceiling)
  {
    hide Count, Derived, Released;
    match step
    case Reserve(invoice, block, now) =>
      var k := Pick(p.rows, now, |p.rows|);
      if k.Some? {
        UpdateKeeps(p, k.value, Bound(p.rows[k.value], invoice, block), ceiling);
      } else {
        DeriveKeeps(p, ceiling, Some(invoice), block, now);
      }
    case Allocate(now) =>
      if Pick(p.rows, now, |p.rows|).None? {
        DeriveKeeps(p, ceiling, None, 0, now);
      }
    case Bind(id, invoice, block) =>
      if id < |p.rows| && Bindable(p.rows[id]) {
        UpdateKeeps(p, id, Bound(p.rows[id], invoice, block), ceiling);
      }
    case Schedule(id, until) =>
      if id < |p.rows| && p.rows[id].status == ReservedStatus {
        assert CleanRow(p.rows[id]);
        UpdateKeeps(p, id, p.rows[id].(cooldownUntil := Some(until)), ceiling);
      }
    case Release(now, live) => ReleaseKeeps(p, ceiling, now, live);
    case MarkFunded(id) =>
      if id < |p.rows| {
        UpdateKeeps(p, id, p.rows[id].(status := Funded, everFunded := true), ceiling);
      }
    case SetActive(_) =>
  }

  lemma {:induction false} RunKeeps(steps: seq<Step>, ceiling: nat)
    ensures Inv(Run(steps, ceiling), ceiling)
  {
    hide Next;
    if |steps| > 0 {
      hide Inv;
      RunKeeps(steps[..|steps| - 1], ceiling);
      NextKeeps(Run(steps[..|steps| - 1], ceiling), steps[|steps| - 1], ceiling);
    }
  }

  // ---- The bounds ------------------------------------------------------------------------

  /** Although picking from the pool never looks at the ceiling, free and reserved addresses together
      stay within it; the derivation indices are exactly 0 .. next_index - 1, once each; and the
      index never runs further ahead than the ceiling plus the addresses that were ever funded. */
  lemma PoolIsBounded(steps: seq<Step>, ceiling: nat)
    ensures var p := Run(steps, ceiling);
            && Count(p.rows, Free) + Count(p.rows, ReservedStatus) <= ceiling
            && |p.rows| == p.nextIndex && (forall k | 0 <= k < p.nextIndex :: p.rows[k].index == k)
            && p.nextIndex == Count(p.rows, Free) + Count(p.rows, ReservedStatus) + EverFunded(p.rows)
            && p.nextIndex <= ceiling + EverFunded(p.rows)
  {
    hide Run, Count, EverFunded;
    RunKeeps(steps, ceiling);
    CountsAddUp(Run(steps, ceiling).rows);
  }

  /** Addresses reserved or ever funded. */
  function InUse(p: Pool): nat {
    Count(p.rows, ReservedStatus) + EverFunded(p.rows)
  }

  /** The highest value `InUse` has had. */
  function Peak(steps: seq<Step>, ceiling: nat): nat {
    if |steps| == 0 then 0
    else
      var before, now := Peak(steps[..|steps| - 1], ceiling), InUse(Run(steps, ceiling));
      if now > before then now else before
  }

  /** With only the fused reserve, the index space used is the peak number of addresses reserved or
      ever funded: no index is spent that a busier moment did not need. */
  lemma {:induction false} IndexIsPeak(steps: seq<Step>, ceiling: nat)
    requires forall s | s in steps :: !s.Allocate?
    ensures Run(steps, ceiling).nextIndex == Peak(steps, ceiling)
  {
    if |steps| > 0 {
      var init, last := steps[..|steps| - 1], steps[|steps| - 1];
      IndexIsPeak(init, ceiling);
      assert last in steps;
      var p := Run(init, ceiling);
      PoolIsBounded(init, ceiling);
      PoolIsBounded(steps, ceiling);
      RunKeeps(init, ceiling);
      hide Run, Count, EverFunded;
      assert Run(steps, ceiling) == Next(p, last, ceiling) by { LastStep(steps, ceiling); }
      IndexMoves(p, last, ceiling);
    }
  }

  lemma LastStep(steps: seq<Step>, ceiling: nat)
    requires |steps| > 0
    ensures Run(steps, ceiling) == Next(Run(steps[..|steps| - 1], ceiling), steps[|steps| - 1], ceiling)
  {
  }

  /** Only a fused reserve that finds nothing free moves the index, and then nothing is free after
      it either. */
  lemma IndexMoves(p: Pool, step: Step, ceiling: nat)
    requires Inv(p, ceiling) && !step.Allocate?
    ensures var q := Next(p, step, ceiling);
            q.nextIndex == p.nextIndex || (q.nextIndex == p.nextIndex + 1 && Count(q.rows, Free) == 0)
  {
    if step.Reserve? && Pick(p.rows, step.now, |p.rows|).None? {
      UnpickableMeansNoneFree(p.rows, step.now);
      var q := Next(p, step, ceiling);
      if q.nextIndex != p.nextIndex {
        CountAppend(p.rows, q.rows[|p.rows|], Free);
        assert q.rows == p.rows + [q.rows[|p.rows|]];
      }
    }
  }

  // ---- Funds are a latch -----------------------------------------------------------------

  lemma LatchHolds(p: Pool, step: Step, ceiling: nat, id: nat)
    requires Inv(p, ceiling) && id < |p.rows| && p.rows[id].everFunded
    ensures var q := Next(p, step, ceiling); id < |q.rows| && q.rows[id].everFunded && q.rows[id].status == Funded
    ensures step.Reserve? ==> ReserveFor(p, ceiling, step.invoice, step.block, step.now).1 != Given(id)
    ensures step.Bind? ==> BoundTo(p, step.id, step.invoice, step.block).1 != Given(id)
  {
    hide Count;
    assert CleanRow(p.rows[id]);
  }

  /** Once funds were seen on an address it is never handed out again. */
  lemma {:induction false} FundedNeverReturns(steps: seq<Step>, ceiling: nat, m: nat, id: nat)
    requires m <= |steps| && id < |Run(steps[..m], ceiling).rows| && Run(steps[..m], ceiling).rows[id].everFunded
    ensures id < |Run(steps, ceiling).rows| && Run(steps, ceiling).rows[id].status == Funded
    ensures Run(steps, ceiling).rows[id].everFunded
  {
    hide Next;
    if m == |steps| {
      assert steps[..m] == steps;
      RunKeeps(steps, ceiling);
      assert CleanRow(Run(steps, ceiling).rows[id]);
    } else {
      var init := steps[..|steps| - 1];
      assert init[..m] == steps[..m];
      FundedNeverReturns(init, ceiling, m, id);
      RunKeeps(init, ceiling);
      LatchHolds(Run(init, ceiling), steps[|steps| - 1], ceiling, id);
    }
  }

  // ---- The two protocols agree -----------------------------------------------------------

  /** Allocating and then binding, with nothing in between, is the fused reservation: the same pool,
      the same address, and it never fails to bind what it allocated. */
  lemma TwoPhasesMakeOne(p: Pool, ceiling: nat, invoice: nat, block: nat, now: int)
    requires Inv(p, ceiling)
    ensures var (q, r) := Allocated(p, ceiling, now);
            ReserveFor(p, ceiling, invoice, block, now) == if r.Given? then BoundTo(q, r.id, invoice, block) else (q, r)
  {
    hide Count;
    var k := Pick(p.rows, now, |p.rows|);
    if k.Some? {
      assert CleanRow(p.rows[k.value]);
    } else {
      var (q, r) := Allocated(p, ceiling, now);
      if r.Given? {
        assert q.rows[|p.rows| := Bound(q.rows[|p.rows|], invoice, block)]
          == p.rows + [Bound(q.rows[|p.rows|], invoice, block)];
      }
    }
  }
}
