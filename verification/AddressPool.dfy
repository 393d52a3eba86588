/** The pool as the deriver drives it: one account row and its address rows, changed in place by
    guarded statements. */
module AddressPool {
  import opened Wrappers
  import opened PoolModel

  class Account {
    const ceiling: nat
    var rows: seq<Address>
    var nextIndex: nat
    var active: bool

    constructor (ceiling: nat)
      ensures this.ceiling == ceiling && View() == Pool([], 0, true)
    {
      this.ceiling := ceiling;
      rows, nextIndex, active := [], 0, true;
    }

    function View(): Pool
      reads this
    {
      Pool(rows, nextIndex, active)
    }

    /** Bump the index, derive, insert. Only reached when nothing free can be taken. */
    method DeriveNewAddress(invoice: Option<nat>, block: nat) returns (r: Reply)
      modifies this`rows, this`nextIndex
      ensures (View(), r) == Derived(old(View()), ceiling, invoice, block)
    {
      if !active {
        return Inactive;
      }
      var inUse := Count(rows, ReservedStatus);
      if inUse >= ceiling {
        return Exhausted;
      }
      var index := nextIndex;
      nextIndex := nextIndex + 1;
      var row := Address(index, Free, None, false, None, None);
      if invoice.Some? {
        row := row.(status := ReservedStatus, invoice := invoice, fromBlock := Some(block));
      }
      r := Given(|rows|);
      rows := rows + [row];
    }

    /** Pool first, derive only if the pool is empty, in one unit of work. */
    method ReserveAddressForInvoice(invoice: nat, block: nat, now: int) returns (r: Reply)
      modifies this`rows, this`nextIndex
      ensures (View(), r) == ReserveFor(old(View()), ceiling, invoice, block, now)
    {
      var k := Lowest(now);
      if k.Some? {
        rows := rows[k.value := Bound(rows[k.value], invoice, block)];
        return Given(k.value);
      }
      r := DeriveNewAddress(Some(invoice), block);
    }

    /** Phase one: a free address, still free. */
    method AllocateFreeAddress(now: int) returns (r: Reply)
      modifies this`rows, this`nextIndex
      ensures (View(), r) == Allocated(old(View()), ceiling, now)
    {
      var k := Lowest(now);
      if k.Some? {
        return Given(k.value);
      }
      r := DeriveNewAddress(None, 0);
    }

    /** `ORDER BY derivation_index LIMIT 1` over the pickable rows. */
    method Lowest(now: int) returns (best: Option<nat>)
      ensures best == Pick(rows, now, |rows|)
    {
      best := None;
      for k := 0 to |rows|
        invariant best == Pick(rows, now, k)
      {
        if Pickable(rows[k], now) && (best.None? || rows[k].index < rows[best.value].index) {
          best := Some(k);
        }
      }
    }

    /** Phase two: compare-and-set on the free state. */
    method BindAddressToInvoice(id: nat, invoice: nat, block: nat) returns (r: Reply)
      modifies this`rows
      ensures (View(), r) == BoundTo(old(View()), id, invoice, block)
    {
      if id >= |rows| || rows[id].status != Free || rows[id].invoice.Some? || rows[id].everFunded {
        return NotBindable;
      }
      rows := rows[id := Bound(rows[id], invoice, block)];
      r := Given(id);
    }

    method ScheduleRelease(id: nat, until: int) returns (changed: bool)
      modifies this`rows
      ensures View() == Scheduled(old(View()), id, until)
      ensures changed == (id < |rows| && old(rows)[id].status == ReservedStatus)
    {
      changed := id < |rows| && rows[id].status == ReservedStatus;
      if changed {
        rows := rows[id := rows[id].(cooldownUntil := Some(until))];
      }
    }

    /** Return to the pool every address that meets all the reuse conditions. */
    method ReleaseDueAddresses(now: int, live: nat -> bool) returns (freed: seq<nat>)
      modifies this`rows
      ensures View() == Released(old(View()), now, live)
      ensures forall k :: k in freed <==> 0 <= k < |rows| && Due(old(rows)[k], now, live)
    {
      var was := rows;
      freed := [];
      for k := 0 to |was|
        invariant |rows| == |was| && rows[k..] == was[k..]
        invariant forall j | 0 <= j < k :: rows[j] == ReleasedRow(was[j], now, live)
        invariant forall j :: j in freed <==> 0 <= j < k && Due(was[j], now, live)
      {
        assert rows[k] == rows[k..][0] == was[k..][0];
        if Due(was[k], now, live) {
          rows := rows[k := was[k].(status := Free, invoice := None, fromBlock := None, cooldownUntil := None)];
          freed := freed + [k];
        }
        assert rows[k + 1..] == was[k..][1..];
      }
    }

    method MarkAddressFunded(id: nat) returns (changed: bool)
      modifies this`rows
      ensures View() == MarkedFunded(old(View()), id) && changed == (id < |rows|)
    {
      changed := id < |rows|;
      if changed {
        rows := rows[id := rows[id].(status := Funded, everFunded := true)];
      }
    }
  }
}
