/** The queue as the deriver drives it: claim, serve, sweep, prune, and the pass that drains it. */
module RequestQueue {
  import opened Sets
  import opened Wrappers
  import opened QueueModel
  import opened QueueSafety

  datatype Label = IssuedLabel | RefusedLabel | Retry | Abandoned | LeaseLost

  /** The next request of a pass: the oldest pending one not yet attempted, if there is any. */
  ghost predicate IsNext(q: Queue, exclude: seq<Id>, next: Option<Id>) {
    if next.None? then forall id | Has(q, id, Pending) :: id in exclude
    else
      && Has(q, next.value, Pending) && next.value !in exclude
      && forall id | Has(q, id, Pending) && id !in exclude :: q.rows[next.value].requestedAt <= q.rows[id].requestedAt
  }

  /** Request `id` claimed, and served after other clients have committed `others`. */
  function Attempted(q: Queue, id: Id, issuer: (Id, nat) -> Outcome, others: seq<Step>, now: int, lim: Limits): Queue {
    var claimed := Claimed(q, id, now);
    var outcome := if id in claimed.rows then issuer(id, claimed.rows[id].attempts) else Declined;
    Served(Applied(claimed, others, lim), id, outcome, now, lim)
  }

  /** The queue after a pass has claimed and served `ids` in turn. Before its claim number `k`, and again
      between that claim and the reply, other clients commit `others(2k)` and `others(2k + 1)`. */
  function Passed(q: Queue, ids: seq<Id>, issuer: (Id, nat) -> Outcome, others: nat -> seq<Step>, now: int,
                  lim: Limits): Queue {
    if |ids| == 0 then q
    else
      var k := |ids| - 1;
      Attempted(Applied(Passed(q, ids[..k], issuer, others, now, lim), others(2 * k), lim), ids[k],
                issuer, others(2 * k + 1), now, lim)
  }

  class RequestTable {
    const lim: Limits
    var rows: map<Id, Row>
    var invoices: map<nat, Id>
    ghost var used: set<Id>

    constructor (lim: Limits)
      ensures this.lim == lim && View() == Queue(map[], map[], {})
    {
      this.lim := lim;
      rows, invoices, used := map[], map[], {};
    }

    ghost function View(): Queue
      reads this
    {
      Queue(rows, invoices, used)
    }

    /** Take the oldest pending request outside `exclude`, counting the attempt. */
    method ClaimNext(exclude: seq<Id>, now: int) returns (claimed: Option<Id>)
      modifies this`rows
      ensures IsNext(old(View()), exclude, claimed)
      ensures View() == if claimed.None? then old(View()) else Claimed(old(View()), claimed.value, now)
    {
      claimed := None;
      var left := rows.Keys;
      while left != {}
        invariant left <= rows.Keys && rows == old(rows)
        invariant claimed.None? ==> forall id | id in rows && id !in left :: rows[id].status != Pending || id in exclude
        invariant claimed.Some? ==> Has(View(), claimed.value, Pending) && claimed.value !in exclude
        invariant claimed.Some? ==> forall id | id in rows && id !in left && rows[id].status == Pending && id !in exclude ::
                                      rows[claimed.value].requestedAt <= rows[id].requestedAt
        decreases |left|
      {
        var id := PickOne(left);
        if rows[id].status == Pending && id !in exclude {
          if claimed.None? || rows[id].requestedAt < rows[claimed.value].requestedAt {
            claimed := Some(id);
          }
        }
        left := left - {id};
      }
      if claimed.Some? {
        var r := rows[claimed.value];
        rows := rows[claimed.value := r.(status := Processing, attempts := r.attempts + 1, claimedAt := Some(now))];
      }
    }

    /** The reply, in the transaction that wrote the invoice. False means roll back. */
    method Complete(id: Id, invoice: nat, now: int) returns (ok: bool)
      modifies this`rows, this`invoices
      ensures ok == (Has(old(View()), id, Processing) && invoice !in old(invoices))
      ensures View() == Completed(old(View()), id, invoice, now)
    {
      ok := id in rows && rows[id].status == Processing && invoice !in invoices;
      if ok {
        rows := rows[id := rows[id].(status := Done, invoice := Some(invoice), completedAt := Some(now))];
        invoices := invoices[invoice := id];
      }
    }

    method Refuse(id: Id, now: int) returns (ok: bool)
      modifies this`rows
      ensures ok == Has(old(View()), id, Processing)
      ensures View() == RefusedRow(old(View()), id, now)
    {
      ok := id in rows && rows[id].status == Processing;
      if ok {
        rows := rows[id := rows[id].(status := Refused, completedAt := Some(now))];
      }
    }

    method Requeue(id: Id) returns (ok: bool)
      modifies this`rows
      ensures ok == Requeues(old(View()), id, lim.maxAttempts)
      ensures View() == Requeued(old(View()), id, lim.maxAttempts)
    {
      ok := id in rows && rows[id].status == Processing && rows[id].attempts < lim.maxAttempts;
      if ok {
        rows := rows[id := rows[id].(status := Pending, claimedAt := None)];
      }
    }

    /** Record what the issuer did with one claimed request. */
    method ServeOne(id: Id, outcome: Outcome, now: int) returns (said: Label)
      modifies this`rows, this`invoices
      ensures View() == Served(old(View()), id, outcome, now, lim)
      ensures said == IssuedLabel ==> outcome.Issued? && outcome.invoice in invoices && invoices[outcome.invoice] == id
      ensures said == LeaseLost ==> View() == old(View())
    {
      match outcome {
        case Raised =>
          var again := Requeue(id);
          if again {
            return Retry;
          }
          var _ := Refuse(id, now);
          return Abandoned;
        case Declined =>
          var _ := Refuse(id, now);
          return RefusedLabel;
        case Issued(invoice) =>
          var ok := Complete(id, invoice, now);
          return if ok then IssuedLabel else LeaseLost;
      }
    }

    /** What other workers, sweeps and crashes commit while this one is busy. */
    method Meanwhile(steps: seq<Step>)
      requires Quiet(steps)
      modifies this`rows, this`invoices
      ensures View() == Applied(old(View()), steps, lim)
      ensures rows.Keys <= old(rows.Keys)
    {
      QuietSteps(View(), steps, lim);
      QuietSteps(Queue(rows, invoices, {}), steps, lim);
      QuietIgnoresUsed(View(), steps, lim);
      var q := Applied(Queue(rows, invoices, {}), steps, lim);
      rows, invoices := q.rows, q.invoices;
    }

    /** Claim the next request outside `exclude`, and serve it after others have committed `others`. */
    method AttemptNext(exclude: seq<Id>, issuer: (Id, nat) -> Outcome, others: seq<Step>, now: int)
      returns (next: Option<Id>)
      requires Quiet(others)
      modifies this`rows, this`invoices
      ensures IsNext(old(View()), exclude, next)
      ensures View() == if next.None? then old(View()) else Attempted(old(View()), next.value, issuer, others, now, lim)
      ensures rows.Keys <= old(rows.Keys)
    {
      hide Served, Claimed, IsNext, Applied, Quiet;
      ghost var before := View();
      next := ClaimNext(exclude, now);
      NextIs(before, exclude, next);
      if next.Some? {
        KeysKept(before, next.value, now);
        var outcome := issuer(next.value, rows[next.value].attempts);
        Meanwhile(others);
        ServeKeepsKeys(View(), next.value, outcome, now, lim);
        var _ := ServeOne(next.value, outcome, now);
      }
    }

    /** One pass: claim and serve until nothing is left that this pass has not attempted, while other
        workers act at any point in between. Once arrivals have stopped the pass ends, whatever the
        issuer answers and whatever the others do, and no request is attempted twice in it. */
    method RunOnce(issuer: (Id, nat) -> Outcome, others: nat -> seq<Step>, now: int) returns (served: seq<Id>)
      requires forall k: nat :: Quiet(others(k))
      modifies this
      ensures View() == Applied(Passed(old(View()), served, issuer, others, now, lim), others(2 * |served|), lim)
      ensures Distinct(served) && forall id | id in served :: id in old(rows)
      ensures forall id | id in rows && rows[id].status == Pending :: id in served
      ensures rows.Keys <= old(rows.Keys)
    {
      hide Attempted, IsNext, Applied, Quiet;
      served := [];
      ghost var left := rows.Keys;
      while true
        invariant View() == Passed(old(View()), served, issuer, others, now, lim)
        invariant rows.Keys <= old(rows.Keys) && left <= old(rows.Keys) && forall id | id in served :: id in old(rows)
        invariant Distinct(served) && (forall id | id in left :: id !in served)
                  && forall id | id in rows && id !in served :: id in left
        decreases |left|
      {
        Meanwhile(others(2 * |served|));
        ghost var before := View();
        var next := AttemptNext(served, issuer, others(2 * |served| + 1), now);
        NextIs(before, served, next);
        if next.None? {
          return;
        }
        assert (served + [next.value])[..|served|] == served;
        DistinctAppend(served, next.value);
        served := served + [next.value];
        left := left - {next.value};
      }
    }

    /** The lease sweep, both halves. */
    method ReclaimStale(now: int)
      modifies this`rows
      ensures View() == Swept(old(View()), now, lim)
    {
      rows := map id | id in rows :: ReclaimedRow(rows[id], now, lim);
      rows := map id | id in rows :: AbandonedRow(rows[id], now, lim);
    }

    method PruneCompleted(now: int)
      modifies this`rows
      ensures View() == Pruned(old(View()), now, lim)
    {
      rows := map id | id in rows && !Prunable(rows[id], now, lim.retention) :: rows[id];
    }

    method Housekeeping(now: int)
      modifies this`rows
      ensures View() == Pruned(Swept(old(View()), now, lim), now, lim)
    {
      ReclaimStale(now);
      PruneCompleted(now);
    }
  }

  predicate Distinct(ids: seq<Id>) {
    forall a, b | 0 <= a < b < |ids| :: ids[a] != ids[b]
  }

  lemma DistinctAppend(ids: seq<Id>, id: Id)
    requires Distinct(ids) && id !in ids
    ensures Distinct(ids + [id])
  {
  }

  lemma NextIs(q: Queue, exclude: seq<Id>, next: Option<Id>)
    requires IsNext(q, exclude, next)
    ensures next.None? ==> forall id | id in q.rows && q.rows[id].status == Pending :: id in exclude
    ensures next.Some? ==> Has(q, next.value, Pending) && next.value in q.rows && next.value !in exclude
  {
    assert forall id | id in q.rows && q.rows[id].status == Pending :: Has(q, id, Pending);
  }

  /** Claiming and serving move rows but neither add nor delete any. */
  lemma KeysKept(q: Queue, id: Id, now: int)
    requires Has(q, id, Pending)
    ensures id in Claimed(q, id, now).rows && Claimed(q, id, now).rows.Keys == q.rows.Keys
  {
  }

  lemma ServeKeepsKeys(q: Queue, id: Id, outcome: Outcome, now: int, lim: Limits)
    ensures Served(q, id, outcome, now, lim).rows.Keys == q.rows.Keys
  {
  }

  lemma QuietNext(q: Queue, step: Step, lim: Limits)
    requires !step.Submit?
    ensures var q' := Next(q, step, lim); q'.rows.Keys <= q.rows.Keys && q'.used == q.used
  {
  }

  /** When no request arrives, no row is added. */
  lemma {:induction false} QuietSteps(q: Queue, steps: seq<Step>, lim: Limits)
    requires Quiet(steps)
    ensures Applied(q, steps, lim).rows.Keys <= q.rows.Keys && Applied(q, steps, lim).used == q.used
  {
    hide Next;
    if |steps| > 0 {
      QuietSteps(q, steps[..|steps| - 1], lim);
      QuietNext(Applied(q, steps[..|steps| - 1], lim), steps[|steps| - 1], lim);
    }
  }

  lemma QuietNextIgnoresUsed(q: Queue, step: Step, lim: Limits)
    requires !step.Submit?
    ensures Next(q.(used := {}), step, lim) == Next(q, step, lim).(used := {})
  {
  }

  lemma {:induction false} QuietIgnoresUsed(q: Queue, steps: seq<Step>, lim: Limits)
    requires Quiet(steps)
    ensures Applied(q.(used := {}), steps, lim) == Applied(q, steps, lim).(used := {})
  {
    hide Next;
    if |steps| > 0 {
      QuietIgnoresUsed(q, steps[..|steps| - 1], lim);
      QuietNextIgnoresUsed(Applied(q, steps[..|steps| - 1], lim), steps[|steps| - 1], lim);
    }
  }

  lemma {:induction false} AppliedKeeps(q: Queue, steps: seq<Step>, lim: Limits)
    requires Inv(q, lim) && lim.maxAttempts > 0
    ensures Inv(Applied(q, steps, lim), lim)
  {
    hide Inv, Next;
    if |steps| > 0 {
      AppliedKeeps(q, steps[..|steps| - 1], lim);
      NextKeeps(Applied(q, steps[..|steps| - 1], lim), steps[|steps| - 1], lim);
    }
  }

  /** A pass is a run of claims and serves among those of others, so it keeps everything a run keeps. */
  lemma {:induction false} PassKeeps(q: Queue, ids: seq<Id>, issuer: (Id, nat) -> Outcome, others: nat -> seq<Step>,
                                     now: int, lim: Limits)
    requires Inv(q, lim) && lim.maxAttempts > 0
    ensures Inv(Passed(q, ids, issuer, others, now, lim), lim)
  {
    hide Inv, Attempted, Applied;
    if |ids| > 0 {
      var k := |ids| - 1;
      var before := Passed(q, ids[..k], issuer, others, now, lim);
      PassKeeps(q, ids[..k], issuer, others, now, lim);
      AppliedKeeps(before, others(2 * k), lim);
      AttemptKeeps(Applied(before, others(2 * k), lim), ids[k],
                issuer, others(2 * k + 1), now, lim);
    }
  }

  lemma AttemptKeeps(q: Queue, id: Id, issuer: (Id, nat) -> Outcome, others: seq<Step>, now: int, lim: Limits)
    requires Inv(q, lim) && lim.maxAttempts > 0
    ensures Inv(Attempted(q, id, issuer, others, now, lim), lim)
  {
    hide Inv, Served, Claimed, Applied;
    NextKeeps(q, Claim(id, now), lim);
    var claimed := Claimed(q, id, now);
    AppliedKeeps(claimed, others, lim);
    ServeKeeps(Applied(claimed, others, lim), id,
               if id in claimed.rows then issuer(id, claimed.rows[id].attempts) else Declined, now, lim);
  }
}
