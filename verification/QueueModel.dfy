/** The deriver's request queue: rows that move between statuses by guarded updates, and the
    invoices committed together with a reply. The proof and address queues are the same machine. */
module QueueModel {
  import opened Wrappers

  type Id = nat

  datatype Status = Pending | Processing | Done | Refused

  datatype Row = Row(status: Status, attempts: nat, claimedAt: Option<int>, requestedAt: int, completedAt: Option<int>,
                     invoice: Option<nat>)

  /** `invoices` maps each committed invoice to the request it was issued for; `used` remembers
      every request id, including those whose rows were pruned. */
  datatype Queue = Queue(rows: map<Id, Row>, invoices: map<nat, Id>, used: set<Id>)

  datatype Limits = Limits(maxAttempts: nat, lease: int, retention: int)

  // ---- Statements ------------------------------------------------------------------------

  predicate Has(q: Queue, id: Id, status: Status) {
    id in q.rows && q.rows[id].status == status
  }

  function Submitted(q: Queue, id: Id, now: int): Queue {
    if id in q.used then q
    else q.(rows := q.rows[id := Row(Pending, 0, None, now, None, None)], used := q.used + {id})
  }

  function Claimed(q: Queue, id: Id, now: int): Queue {
    if !Has(q, id, Pending) then q
    else q.(rows := q.rows[id := q.rows[id].(status := Processing, attempts := q.rows[id].attempts + 1,
                                             claimedAt := Some(now))])
  }

  /** Write the reply in the transaction that wrote the invoice: both are committed, or, when the row
      is no longer processing, neither. */
  function Completed(q: Queue, id: Id, invoice: nat, now: int): Queue {
    if !Has(q, id, Processing) || invoice in q.invoices then q
    else q.(rows := q.rows[id := q.rows[id].(status := Done, invoice := Some(invoice), completedAt := Some(now))],
            invoices := q.invoices[invoice := id])
  }

  function RefusedRow(q: Queue, id: Id, now: int): Queue {
    if !Has(q, id, Processing) then q
    else q.(rows := q.rows[id := q.rows[id].(status := Refused, completedAt := Some(now))])
  }

  predicate Requeues(q: Queue, id: Id, maxAttempts: nat) {
    Has(q, id, Processing) && q.rows[id].attempts < maxAttempts
  }

  function Requeued(q: Queue, id: Id, maxAttempts: nat): Queue {
    if !Requeues(q, id, maxAttempts) then q
    else q.(rows := q.rows[id := q.rows[id].(status := Pending, claimedAt := None)])
  }

  predicate Expired(r: Row, now: int, lease: int) {
    r.status == Processing && r.claimedAt.Some? && r.claimedAt.value < now - lease
  }

  function SweptRow(r: Row, now: int, lim: Limits): Row {
    if !Expired(r, now, lim.lease) then r
    else if r.attempts < lim.maxAttempts then r.(status := Pending, claimedAt := None)
    else r.(status := Refused, completedAt := Some(now))
  }

  function ReclaimedRow(r: Row, now: int, lim: Limits): Row {
    if Expired(r, now, lim.lease) && r.attempts < lim.maxAttempts then r.(status := Pending, claimedAt := None) else r
  }

  function AbandonedRow(r: Row, now: int, lim: Limits): Row {
    if Expired(r, now, lim.lease) && r.attempts >= lim.maxAttempts then r.(status := Refused, completedAt := Some(now))
    else r
  }

  /** The lease sweep: an expired lease is handed back if there is budget left, else answered. */
  function Swept(q: Queue, now: int, lim: Limits): Queue {
    q.(rows := map id | id in q.rows :: SweptRow(q.rows[id], now, lim))
  }

  predicate Prunable(r: Row, now: int, retention: int) {
    (r.status == Done || r.status == Refused) && r.completedAt.Some? && r.completedAt.value < now - retention
  }

  function Pruned(q: Queue, now: int, lim: Limits): Queue {
    q.(rows := map id | id in q.rows && !Prunable(q.rows[id], now, lim.retention) :: q.rows[id])
  }

  // ---- Serving one request ---------------------------------------------------------------

  datatype Outcome = Issued(invoice: nat) | Declined | Raised

  /** What one pass over a claimed request commits. The worker may be slow or stale: nothing here
      looks at who claimed the row. */
  function Served(q: Queue, id: Id, outcome: Outcome, now: int, lim: Limits): Queue {
    match outcome
    case Issued(invoice) => Completed(q, id, invoice, now)
    case Declined => RefusedRow(q, id, now)
    case Raised => if Requeues(q, id, lim.maxAttempts) then Requeued(q, id, lim.maxAttempts) else RefusedRow(q, id, now)
  }

  // ---- Runs ------------------------------------------------------------------------------

  /** One committed transaction of any client or worker. A worker that crashes commits nothing; one
      that is slow may serve a request long after its lease has gone to somebody else. */
  datatype Step =
    | Submit(id: Id, now: int)
    | Claim(id: Id, now: int)
    | Serve(id: Id, outcome: Outcome, now: int)
    | Sweep(now: int)
    | Prune(now: int)
    | Crash

  function Next(q: Queue, step: Step, lim: Limits): Queue {
    match step
    case Submit(id, now) => Submitted(q, id, now)
    case Claim(id, now) => Claimed(q, id, now)
    case Serve(id, outcome, now) => Served(q, id, outcome, now, lim)
    case Sweep(now) => Swept(q, now, lim)
    case Prune(now) => Pruned(q, now, lim)
    case Crash => q
  }

  /** What a sequence of transactions makes of the queue. */
  function Applied(q: Queue, steps: seq<Step>, lim: Limits): Queue {
    if |steps| == 0 then q else Next(Applied(q, steps[..|steps| - 1], lim), steps[|steps| - 1], lim)
  }

  /** No request arrives. */
  predicate Quiet(steps: seq<Step>) {
    forall k | 0 <= k < |steps| :: !steps[k].Submit?
  }

  const EMPTY := Queue(map[], map[], {})

  function Run(steps: seq<Step>, lim: Limits): Queue {
    if |steps| == 0 then EMPTY else Next(Run(steps[..|steps| - 1], lim), steps[|steps| - 1], lim)
  }
}
