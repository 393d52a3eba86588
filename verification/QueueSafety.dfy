/** At-most-once issuance and bounded lives, for every interleaving of any number of workers. */
module QueueSafety {
  import opened Wrappers
  import opened QueueModel

  // ---- At most once ----------------------------------------------------------------------

  /** A request is done exactly when an invoice was committed for it, and its reply names it. */
  ghost predicate RepliesMatch(q: Queue) {
    && (forall id | id in q.rows :: q.rows[id].status == Done <==> q.rows[id].invoice.Some?)
    && (forall id | id in q.rows && q.rows[id].invoice.Some? ::
          q.rows[id].invoice.value in q.invoices && q.invoices[q.rows[id].invoice.value] == id)
    && (forall v | v in q.invoices && q.invoices[v] in q.rows :: q.rows[q.invoices[v]].invoice == Some(v))
  }

  /** No request, not even one whose row is gone, has two invoices. */
  ghost predicate OneInvoiceEach(q: Queue) {
    forall v, w | v in q.invoices && w in q.invoices && q.invoices[v] == q.invoices[w] :: v == w
  }

  ghost predicate IdsUsed(q: Queue) {
    && (forall id | id in q.rows :: id in q.used)
    && (forall v | v in q.invoices :: q.invoices[v] in q.used)
  }

  ghost predicate AttemptsBounded(q: Queue, lim: Limits) {
    forall id | id in q.rows ::
      && q.rows[id].attempts <= lim.maxAttempts
      && (q.rows[id].status == Pending ==> q.rows[id].attempts < lim.maxAttempts)
      && (q.rows[id].status == Processing ==> q.rows[id].attempts > 0 && q.rows[id].claimedAt.Some?)
  }

  ghost predicate Inv(q: Queue, lim: Limits) {
    RepliesMatch(q) && OneInvoiceEach(q) && IdsUsed(q) && AttemptsBounded(q, lim)
  }

  lemma ServeKeeps(q: Queue, id: Id, outcome: Outcome, now: int, lim: Limits)
    requires Inv(q, lim)
    ensures Inv(Served(q, id, outcome, now, lim), lim)
  {
  }

  lemma NextKeeps(q: Queue, step: Step, lim: Limits)
    requires Inv(q, lim) && lim.maxAttempts > 0
    ensures Inv(Next(q, step, lim), lim)
  {
    match step
    case Submit(_, _) =>
    case Claim(_, _) =>
    case Serve(id, outcome, now) => ServeKeeps(q, id, outcome, now, lim);
    case Sweep(_) =>
    case Prune(_) =>
    case Crash =>
  }

  lemma {:induction false} RunKeeps(steps: seq<Step>, lim: Limits)
    requires lim.maxAttempts > 0
    ensures Inv(Run(steps, lim), lim)
  {
    hide Next;
    if |steps| > 0 {
      hide Inv;
      RunKeeps(steps[..|steps| - 1], lim);
      NextKeeps(Run(steps[..|steps| - 1], lim), steps[|steps| - 1], lim);
    }
  }

  /** The invoices committed for a request. */
  ghost function InvoicesOf(q: Queue, id: Id): set<nat> {
    set v | v in q.invoices && q.invoices[v] == id
  }

  /** At-most-once issuance: for any number of workers, any interleaving, crashes, expired leases and
      stale workers acting late, a request is done exactly when one invoice was committed for it
      and the reply names that invoice; a request in any other state has none. */
  lemma AtMostOnce(steps: seq<Step>, lim: Limits, id: Id)
    requires lim.maxAttempts > 0 && id in Run(steps, lim).rows
    ensures var q := Run(steps, lim);
            if q.rows[id].status == Done then q.rows[id].invoice.Some? && InvoicesOf(q, id) == {q.rows[id].invoice.value}
            else q.rows[id].invoice.None? && InvoicesOf(q, id) == {}
  {
    hide Run;
    RunKeeps(steps, lim);
  }

  /** Even after its row is pruned a request has at most one invoice. */
  lemma AtMostOnceEver(steps: seq<Step>, lim: Limits, v: nat, w: nat)
    requires lim.maxAttempts > 0
    requires var q := Run(steps, lim); v in q.invoices && w in q.invoices && q.invoices[v] == q.invoices[w]
    ensures v == w
  {
    hide Run;
    RunKeeps(steps, lim);
  }

  // ---- Bounded lives ---------------------------------------------------------------------

  lemma BudgetHolds(steps: seq<Step>, lim: Limits, id: Id)
    requires lim.maxAttempts > 0 && id in Run(steps, lim).rows
    ensures var r := Run(steps, lim).rows[id];
            r.attempts <= lim.maxAttempts && (r.status == Pending ==> r.attempts < lim.maxAttempts)
  {
    hide Run;
    RunKeeps(steps, lim);
  }

  /** How many more transitions a request can make. */
  function Left(q: Queue, id: Id, lim: Limits): int {
    if id !in q.rows then (if id in q.used then 0 else 2 * lim.maxAttempts + 1)
    else
      match q.rows[id].status
      case Pending => 2 * (lim.maxAttempts - q.rows[id].attempts) + 1
      case Processing => 2 * (lim.maxAttempts - q.rows[id].attempts) + 2
      case Done => 1
      case Refused => 1
  }

  /** The step moves request `id` to another status, or deletes it. Submitting it does not count. */
  predicate Moves(q: Queue, q': Queue, id: Id) {
    id in q.rows && (id !in q'.rows || q'.rows[id].status != q.rows[id].status)
  }

  lemma NextSpends(q: Queue, step: Step, lim: Limits, id: Id)
    requires Inv(q, lim)
    ensures Left(Next(q, step, lim), id, lim) + (if Moves(q, Next(q, step, lim), id) then 1 else 0) <= Left(q, id, lim)
  {
    hide RepliesMatch, OneInvoiceEach;
    match step
    case Submit(_, _) =>
    case Claim(_, _) =>
    case Serve(_, _, _) =>
    case Sweep(_) =>
    case Prune(_) =>
    case Crash =>
  }

  function Transitions(steps: seq<Step>, lim: Limits, id: Id): nat {
    if |steps| == 0 then 0
    else
      Transitions(steps[..|steps| - 1], lim, id)
      + if Moves(Run(steps[..|steps| - 1], lim), Run(steps, lim), id) then 1 else 0
  }

  lemma {:induction false} RunSpends(steps: seq<Step>, lim: Limits, id: Id)
    requires lim.maxAttempts > 0
    ensures Transitions(steps, lim, id) + Left(Run(steps, lim), id, lim) <= 2 * lim.maxAttempts + 1
  {
    hide Next, Moves;
    if |steps| > 0 {
      var init := steps[..|steps| - 1];
      RunSpends(init, lim, id);
      RunKeeps(init, lim);
      hide Inv, Left;
      NextSpends(Run(init, lim), steps[|steps| - 1], lim, id);
    }
  }

  /** Every request's life is bounded: under any interleaving it makes at most 2 * max + 1 moves. */
  lemma LifeIsBounded(steps: seq<Step>, lim: Limits, id: Id)
    requires lim.maxAttempts > 0
    ensures Transitions(steps, lim, id) <= 2 * lim.maxAttempts + 1
  {
    hide Run, Transitions;
    RunSpends(steps, lim, id);
    RunKeeps(steps, lim);
  }

  // ---- The lease sweep -------------------------------------------------------------------

  /** The two halves of the sweep divide the expired leases between them: each is handled by exactly
      one, nothing else is touched, and a second sweep finds nothing. */
  lemma SweepPartitions(q: Queue, now: int, lim: Limits, id: Id)
    requires id in q.rows
    ensures var r, s := q.rows[id], Swept(q, now, lim).rows[id];
            && s == AbandonedRow(ReclaimedRow(r, now, lim), now, lim)
            && (ReclaimedRow(r, now, lim) != r <==> Expired(r, now, lim.lease) && AbandonedRow(r, now, lim) == r)
            && (s != r <==> Expired(r, now, lim.lease))
            && !Expired(s, now, lim.lease)
    ensures Swept(Swept(q, now, lim), now, lim) == Swept(q, now, lim)
  {
  }
}
