/** Which transition of a request happens exactly when, and what the row holds afterwards. */
module QueueTransitions {
  import opened Wrappers
  import opened QueueModel

  // ---- Row by row ------------------------------------------------------------------------

  /** A request is accepted once, as a pending row without attempts. */
  lemma SubmitAdds(q: Queue, id: Id, now: int, lim: Limits)
    ensures var q' := Next(q, Submit(id, now), lim);
            if id in q.used then q' == q
            else q' == Queue(q.rows[id := Row(Pending, 0, None, now, None, None)], q.invoices, q.used + {id})
  {
  }

  /** What an attempt that raised leaves behind: with budget left the request is pending again, otherwise
      it is answered as refused. Only a row that is processing is touched. */
  lemma RaisedRequeues(q: Queue, id: Id, now: int, lim: Limits)
    ensures var q' := Next(q, Serve(id, Raised, now), lim);
            if id in q.rows && q.rows[id].status == Processing then
              var r := q.rows[id];
              q' == q.(rows := q.rows[id := if r.attempts < lim.maxAttempts
                                            then Row(Pending, r.attempts, None, r.requestedAt, r.completedAt, r.invoice)
                                            else Row(Refused, r.attempts, r.claimedAt, r.requestedAt, Some(now),
                                                     r.invoice)])
            else q' == q
  {
  }

  /** The lease sweep: a row is touched exactly when it is processing and was claimed more than a lease
      ago; it is pending again with budget left, and refused otherwise. */
  lemma SweepReturns(q: Queue, now: int, lim: Limits)
    ensures var q' := Next(q, Sweep(now), lim);
            && q'.rows.Keys == q.rows.Keys && q'.invoices == q.invoices && q'.used == q.used
            && forall id | id in q.rows ::
                 q'.rows[id] == if && q.rows[id].status == Processing && q.rows[id].claimedAt.Some?
                                   && now - q.rows[id].claimedAt.value > lim.lease
                                then
                                  if q.rows[id].attempts < lim.maxAttempts
                                  then Row(Pending, q.rows[id].attempts, None, q.rows[id].requestedAt,
                                           q.rows[id].completedAt, q.rows[id].invoice)
                                  else Row(Refused, q.rows[id].attempts, q.rows[id].claimedAt, q.rows[id].requestedAt,
                                           Some(now), q.rows[id].invoice)
                                else q.rows[id]
  {
  }

  // ---- Exactly when ----------------------------------------------------------------------

  /** The step finds the lease of the row expired. */
  predicate LeaseRanOut(r: Row, step: Step, lim: Limits) {
    step.Sweep? && r.claimedAt.Some? && step.now - r.claimedAt.value > lim.lease
  }

  /** A row that was submitted changes status in these four ways and no other, each exactly when stated. A
      step counts an attempt only when it claims the row, and never changes when the request was made. */
  lemma StatusChangesExactly(q: Queue, step: Step, lim: Limits, id: Id)
    requires id in q.rows && id in q.used && id in Next(q, step, lim).rows
    ensures var r, r', mine := q.rows[id], Next(q, step, lim).rows[id], step.Serve? && step.id == id;
            var spent := r.attempts >= lim.maxAttempts;
            && (r'.status != r.status ==> (r.status == Pending && r'.status == Processing)
                                          || (r.status == Processing && r'.status != Processing))
            && (r.status == Pending && r'.status == Processing <==> r.status == Pending && step.Claim? && step.id == id)
            && (r.status == Processing && r'.status == Pending
                <==> r.status == Processing && !spent && ((mine && step.outcome.Raised?) || LeaseRanOut(r, step, lim)))
            && (r.status == Processing && r'.status == Refused
                <==> r.status == Processing && ((mine && step.outcome.Declined?)
                                                || (spent && ((mine && step.outcome.Raised?) || LeaseRanOut(r, step, lim)))))
            && (r.status == Processing && r'.status == Done
                <==> r.status == Processing && mine && step.outcome.Issued? && step.outcome.invoice !in q.invoices)
            && r'.attempts == r.attempts + (if r.status == Pending && r'.status == Processing then 1 else 0)
            && r'.requestedAt == r.requestedAt
  {
  }

  /** When a row is finished it says when, and only then. */
  lemma FinishedRowsSayWhen(q: Queue, step: Step, lim: Limits, id: Id)
    requires id in q.rows && id in q.used && id in Next(q, step, lim).rows
    ensures var r, r' := q.rows[id], Next(q, step, lim).rows[id];
            if r.status == Processing && (r'.status == Done || r'.status == Refused)
            then (step.Serve? || step.Sweep?) && r'.completedAt == Some(step.now)
            else r'.completedAt == r.completedAt
    ensures var r, r' := q.rows[id], Next(q, step, lim).rows[id];
            if r.status == Pending && r'.status == Processing then step.Claim? && r'.claimedAt == Some(step.now)
            else if r.status == Processing && r'.status == Pending then r'.claimedAt.None?
            else r'.claimedAt == r.claimedAt
  {
  }

  /** A step removes a row exactly when it prunes and the row has been done or refused for longer than
      the retention time. */
  lemma RemovedExactlyWhen(q: Queue, step: Step, lim: Limits, id: Id)
    requires id in q.rows
    ensures id !in Next(q, step, lim).rows
       <==> && step.Prune? && (q.rows[id].status == Done || q.rows[id].status == Refused)
            && q.rows[id].completedAt.Some? && step.now - q.rows[id].completedAt.value > lim.retention
  {
  }

  // ---- Over runs -------------------------------------------------------------------------

  /** A request does not disappear unanswered: if its row is gone, then some step of the run pruned it, a
      retention time after it was done or refused. */
  lemma {:induction false} AnsweredBeforeRemoved(steps: seq<Step>, lim: Limits, m: nat, n: nat, id: Id) returns (k: nat)
    requires m <= n <= |steps| && id in Run(steps[..m], lim).rows && id !in Run(steps[..n], lim).rows
    ensures m <= k < n && steps[k].Prune? && id in Run(steps[..k], lim).rows
    ensures var r := Run(steps[..k], lim).rows[id];
            && (r.status == Done || r.status == Refused)
            && r.completedAt.Some? && steps[k].now - r.completedAt.value > lim.retention
    decreases n - m
  {
    hide Next;
    assert steps[..n][..n - 1] == steps[..n - 1];
    if id in Run(steps[..n - 1], lim).rows {
      k := n - 1;
      RemovedExactlyWhen(Run(steps[..k], lim), steps[k], lim, id);
    } else {
      k := AnsweredBeforeRemoved(steps, lim, m, n - 1, id);
    }
  }
}
