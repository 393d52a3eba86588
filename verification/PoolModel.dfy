/** The deriver's address pool for one derivation account: reuse a free address before deriving a
    new one, under a ceiling on addresses in use. */
module PoolModel {
  import opened Wrappers

  datatype Status = Free | ReservedStatus | Funded

  datatype Address = Address(index: nat, status: Status, cooldownUntil: Option<int>, everFunded: bool,
                             invoice: Option<nat>, fromBlock: Option<nat>)

  /** An address's id is its position in `rows`. */
  datatype Pool = Pool(rows: seq<Address>, nextIndex: nat, active: bool)

  datatype Reply = Given(id: nat) | Exhausted | Inactive | NotBindable

  // ---- Counting --------------------------------------------------------------------------

  function Count(rows: seq<Address>, status: Status): nat {
    if |rows| == 0 then 0 else Count(rows[..|rows| - 1], status) + (if rows[|rows| - 1].status == status then 1 else 0)
  }

  function EverFunded(rows: seq<Address>): nat {
    if |rows| == 0 then 0 else EverFunded(rows[..|rows| - 1]) + (if rows[|rows| - 1].everFunded then 1 else 0)
  }

  // ---- Operations ------------------------------------------------------------------------

  predicate Pickable(a: Address, now: int) {
    a.status == Free && !a.everFunded && (a.cooldownUntil.None? || a.cooldownUntil.value <= now)
  }

  /** The pickable address with the lowest derivation index among the first `n`. */
  function Pick(rows: seq<Address>, now: int, n: nat): (r: Option<nat>)
    requires n <= |rows|
    ensures r.Some? ==> r.value < n && Pickable(rows[r.value], now)
                        && forall k | 0 <= k < n && Pickable(rows[k], now) :: rows[r.value].index <= rows[k].index
    ensures r.None? ==> forall k | 0 <= k < n :: !Pickable(rows[k], now)
  {
    if n == 0 then None
    else
      var best := Pick(rows, now, n - 1);
      if Pickable(rows[n - 1], now) && (best.None? || rows[n - 1].index < rows[best.value].index) then Some(n - 1)
      else best
  }

  function Bound(a: Address, invoice: nat, block: nat): Address {
    a.(status := ReservedStatus, invoice := Some(invoice), fromBlock := Some(block), cooldownUntil := None)
  }

  /** Bump `next_index`, derive, insert; refused at the ceiling and on an inactive account. */
  function Derived(p: Pool, ceiling: nat, invoice: Option<nat>, block: nat): (Pool, Reply) {
    if !p.active then (p, Inactive)
    else if Count(p.rows, ReservedStatus) >= ceiling then (p, Exhausted)
    else
      var newest := Address(p.nextIndex, if invoice.None? then Free else ReservedStatus, None, false, invoice,
                           if invoice.None? then None else Some(block));
      (p.(rows := p.rows + [newest], nextIndex := p.nextIndex + 1), Given(|p.rows|))
  }

  /** The fused allocation: take a free address for the invoice, derive only if there is none. */
  function ReserveFor(p: Pool, ceiling: nat, invoice: nat, block: nat, now: int): (Pool, Reply) {
    var k := Pick(p.rows, now, |p.rows|);
    if k.Some? then (p.(rows := p.rows[k.value := Bound(p.rows[k.value], invoice, block)]), Given(k.value))
    else Derived(p, ceiling, Some(invoice), block)
  }

  /** Phase one of the two-phase protocol: make sure a free address exists. */
  function Allocated(p: Pool, ceiling: nat, now: int): (Pool, Reply) {
    var k := Pick(p.rows, now, |p.rows|);
    if k.Some? then (p, Given(k.value)) else Derived(p, ceiling, None, 0)
  }

  predicate Bindable(a: Address) {
    a.status == Free && a.invoice.None? && !a.everFunded
  }

  /** Phase two: bind that address, if it is still free. */
  function BoundTo(p: Pool, id: nat, invoice: nat, block: nat): (Pool, Reply) {
    if id < |p.rows| && Bindable(p.rows[id]) then (p.(rows := p.rows[id := Bound(p.rows[id], invoice, block)]), Given(id))
    else (p, NotBindable)
  }

  function Scheduled(p: Pool, id: nat, until: int): Pool {
    if id < |p.rows| && p.rows[id].status == ReservedStatus
    then p.(rows := p.rows[id := p.rows[id].(cooldownUntil := Some(until))]) else p
  }

  /** `live` says which invoices are still open. */
  predicate Due(a: Address, now: int, live: nat -> bool) {
    a.status == ReservedStatus && !a.everFunded && a.cooldownUntil.Some? && a.cooldownUntil.value <= now
    && !(a.invoice.Some? && live(a.invoice.value))
  }

  function ReleasedRow(a: Address, now: int, live: nat -> bool): Address {
    if Due(a, now, live) then a.(status := Free, invoice := None, fromBlock := None, cooldownUntil := None) else a
  }

  function Released(p: Pool, now: int, live: nat -> bool): Pool {
    p.(rows := seq(|p.rows|, k requires 0 <= k < |p.rows| => ReleasedRow(p.rows[k], now, live)))
  }

  /** One-way latch. */
  function MarkedFunded(p: Pool, id: nat): Pool {
    if id < |p.rows| then p.(rows := p.rows[id := p.rows[id].(status := Funded, everFunded := true)]) else p
  }

  // ---- Runs ------------------------------------------------------------------------------

  datatype Step =
    | Reserve(invoice: nat, block: nat, now: int)
    | Allocate(now: int)
    | Bind(id: nat, invoice: nat, block: nat)
    | Schedule(id: nat, until: int)
    | Release(now: int, live: nat -> bool)
    | MarkFunded(id: nat)
    | SetActive(active: bool)

  function Next(p: Pool, step: Step, ceiling: nat): Pool {
    match step
    case Reserve(invoice, block, now) => ReserveFor(p, ceiling, invoice, block, now).0
    case Allocate(now) => Allocated(p, ceiling, now).0
    case Bind(id, invoice, block) => BoundTo(p, id, invoice, block).0
    case Schedule(id, until) => Scheduled(p, id, until)
    case Release(now, live) => Released(p, now, live)
    case MarkFunded(id) => MarkedFunded(p, id)
    case SetActive(active) => p.(active := active)
  }

  const EMPTY := Pool([], 0, true)

  function Run(steps: seq<Step>, ceiling: nat): Pool {
    if |steps| == 0 then EMPTY else Next(Run(steps[..|steps| - 1], ceiling), steps[|steps| - 1], ceiling)
  }
}
