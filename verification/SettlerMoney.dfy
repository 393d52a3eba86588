/** The settler's money rules: exact amounts, the tolerance table that classifies what was paid,
    and the confirmation regime. Pure functions of their arguments; only `SumRaw` loops. */
module SettlerMoney {
  import opened Extrema
  import opened Wrappers

  /** USD per whole token; the schema admits positive rates only. */
  type Rate = r: real | r > 0.0 witness 1.0

  // ---- Amounts ---------------------------------------------------------------------------

  function Pow10(n: nat): (p: int)
    ensures p >= 1
  {
    if n == 0 then 1 else 10 * Pow10(n - 1)
  }

  /** Base units per token, for the two decimal counts in use and step by step for any other. */
  lemma Pow10Means(n: nat)
    ensures Pow10(0) == 1 && Pow10(n + 1) == 10 * Pow10(n)
    ensures Pow10(6) == 1_000_000 && Pow10(18) == 1_000_000_000_000_000_000
  {
    assert Pow10(3) == 1000;
    assert Pow10(6) == 1000 * Pow10(3);
    assert Pow10(9) == 1000 * Pow10(6);
    assert Pow10(12) == 1000 * Pow10(9);
    assert Pow10(15) == 1000 * Pow10(12);
  }

  function RawToUsd(raw: int, decimals: nat, rate: real): real {
    raw as real / Pow10(decimals) as real * rate
  }

  function UsdToRaw(usd: real, decimals: nat, rate: Rate): int {
    (usd / rate * Pow10(decimals) as real).Floor
  }

  function Sum(values: seq<int>): int {
    if |values| == 0 then 0 else Sum(values[..|values| - 1]) + values[|values| - 1]
  }

  method SumRaw(values: seq<int>) returns (total: int)
    ensures total == Sum(values)
  {
    total := 0;
    for k := 0 to |values|
      invariant total == Sum(values[..k])
    {
      total := total + values[k];
      assert values[..k + 1][..k] == values[..k];
    }
    assert values[..|values|] == values;
  }

  /** A USD figure rounded down to the six decimals a balance column holds. */
  function FloorMicro(x: real): real {
    (x * 1000000.0).Floor as real / 1000000.0
  }

  function CreditableUsd(raw: int, decimals: nat, rate: real): real {
    FloorMicro(RawToUsd(raw, decimals, rate))
  }

  /** Converting a tolerance never rounds it up: the raw amount is worth at most the USD it came
      from, and one more base unit would be worth more. */
  lemma UsdToRawRoundsDown(usd: real, decimals: nat, rate: Rate)
    ensures var raw := UsdToRaw(usd, decimals, rate);
            RawToUsd(raw, decimals, rate) <= usd < RawToUsd(raw + 1, decimals, rate)
  {
    var scale, raw := Pow10(decimals) as real, UsdToRaw(usd, decimals, rate);
    Exchange(usd, scale, rate, raw as real);
    Exchange(usd, scale, rate, (raw + 1) as real);
  }

  lemma Exchange(usd: real, scale: real, rate: real, raw: real)
    requires scale > 0.0 && rate > 0.0
    ensures raw <= usd / rate * scale <==> raw / scale * rate <= usd
  {
    var x := usd / rate;
    assert x * rate == usd;
    var y := raw / scale;
    assert y * scale == raw;
    assert y <= x <==> y * scale <= x * scale by { Scale(y, x, scale); }
    assert y <= x <==> y * rate <= x * rate by { Scale(y, x, rate); }
  }

  lemma Scale(a: real, b: real, k: real)
    requires k > 0.0
    ensures a <= b <==> a * k <= b * k
  {
    if a <= b {
      assert (b - a) * k >= 0.0;
    } else {
      assert (a - b) * k > 0.0;
    }
  }

  /** What is written to a balance never exceeds the excess, and falls short by less than a
      millionth of a dollar. */
  lemma CreditRoundsDown(raw: int, decimals: nat, rate: real)
    ensures var usd := RawToUsd(raw, decimals, rate);
            CreditableUsd(raw, decimals, rate) <= usd < CreditableUsd(raw, decimals, rate) + 0.000001
  {
    var usd := RawToUsd(raw, decimals, rate);
    var micros := (usd * 1000000.0).Floor;
    assert micros as real <= usd * 1000000.0 < micros as real + 1.0;
  }

  // ---- The tolerance table ---------------------------------------------------------------

  datatype MoneyPolicy = MoneyPolicy(underPct: real, underCapUsd: real, overPct: real, overFloorUsd: real)

  const DEFAULT_POLICY := MoneyPolicy(0.005, 1.0, 0.05, 5.0)

  datatype Outcome =
    | NoFunds | AwaitingConfirmations
    | Paid | UnderpaidTolerated | OverpaidCredited | OverpaidRefundPending
    | PartiallyPaid | UnderpaidManualReview
    | AlreadySettled | NotLive | IntegrityFailed
    | InvoiceNotFound | InconsistentInvoice

  predicate Granting(o: Outcome) {
    o == Paid || o == UnderpaidTolerated || o == OverpaidCredited || o == OverpaidRefundPending
  }

  /** Largest shortfall still counted as paid. */
  function UnderpayTolerance(policy: MoneyPolicy, due: int, decimals: nat, rate: Rate): int {
    Min((due as real * policy.underPct).Floor, UsdToRaw(policy.underCapUsd, decimals, rate))
  }

  /** Largest excess credited to the balance instead of becoming a refund. */
  function OverpayTolerance(policy: MoneyPolicy, due: int, decimals: nat, rate: Rate): int {
    Max((due as real * policy.overPct).Floor, UsdToRaw(policy.overFloorUsd, decimals, rate))
  }

  datatype Decision = Decision(outcome: Outcome, due: int, total: int, delta: int, tolerance: int) {
    function Excess(): int {
      if delta > 0 then delta else 0
    }
  }

  function Classify(policy: MoneyPolicy, due: int, total: int, decimals: nat, rate: Rate, now: int,
                    topupUntil: int): (d: Decision)
    ensures d.due == due && d.total == total && d.delta == total - due
  {
    var delta := total - due;
    if total <= 0 then Decision(NoFunds, due, total, delta, 0)
    else if delta < 0 then
      var tolerance := UnderpayTolerance(policy, due, decimals, rate);
      if -delta <= tolerance then Decision(UnderpaidTolerated, due, total, delta, tolerance)
      else if now <= topupUntil then Decision(PartiallyPaid, due, total, delta, tolerance)
      else Decision(UnderpaidManualReview, due, total, delta, tolerance)
    else
      var tolerance := OverpayTolerance(policy, due, decimals, rate);
      if delta == 0 then Decision(Paid, due, total, delta, tolerance)
      else if delta <= tolerance then Decision(OverpaidCredited, due, total, delta, tolerance)
      else Decision(OverpaidRefundPending, due, total, delta, tolerance)
  }

  /** The product is delivered exactly when something was paid and the shortfall, if any, is
      within tolerance. */
  lemma GrantingCondition(policy: MoneyPolicy, due: int, total: int, decimals: nat, rate: Rate, now: int,
                          topupUntil: int)
    ensures Granting(Classify(policy, due, total, decimals, rate, now, topupUntil).outcome)
       <==> total > 0 && (total >= due || total >= due - UnderpayTolerance(policy, due, decimals, rate))
  {
  }

  /** Under the default table at least 99.5% of the bill is needed, and no more than one dollar's
      worth may be missing. */
  lemma DefaultTolerance(due: nat, total: int, decimals: nat, rate: Rate, now: int, topupUntil: int)
    requires Granting(Classify(DEFAULT_POLICY, due, total, decimals, rate, now, topupUntil).outcome)
    ensures total as real >= due as real * 0.995
    ensures RawToUsd(due - total, decimals, rate) <= 1.0
  {
    GrantingCondition(DEFAULT_POLICY, due, total, decimals, rate, now, topupUntil);
    UsdToRawRoundsDown(1.0, decimals, rate);
    var cap := UsdToRaw(1.0, decimals, rate);
    ZeroFits(decimals, rate);
    assert due - total <= Max(0, cap);
    assert due - total <= cap;
    WorthMore(due - total, cap, decimals, rate);
  }

  lemma ZeroFits(decimals: nat, rate: Rate)
    ensures UsdToRaw(1.0, decimals, rate) >= 0
  {
    var x := 1.0 / rate;
    assert x > 0.0;
    assert x * Pow10(decimals) as real > 0.0;
  }

  lemma WorthMore(a: int, b: int, decimals: nat, rate: Rate)
    requires a <= b
    ensures RawToUsd(a, decimals, rate) <= RawToUsd(b, decimals, rate)
  {
    var scale := Pow10(decimals) as real;
    var x, y := a as real / scale, b as real / scale;
    assert x * scale == a as real && y * scale == b as real;
    Scale(x, y, scale);
    Scale(x, y, rate);
  }

  /** A raw amount is within a converted tolerance exactly when it is worth no more than the dollars. */
  lemma WithinUsd(raw: int, usd: real, decimals: nat, rate: Rate)
    ensures raw <= UsdToRaw(usd, decimals, rate) <==> RawToUsd(raw, decimals, rate) <= usd
  {
    UsdToRawRoundsDown(usd, decimals, rate);
    var limit := UsdToRaw(usd, decimals, rate);
    hide RawToUsd, UsdToRaw;
    if raw <= limit {
      WorthMore(raw, limit, decimals, rate);
    } else {
      WorthMore(limit + 1, raw, decimals, rate);
    }
  }

  /** What the integer tolerances mean in money: a shortfall is tolerated when it is within the
      percentage and within the dollar cap, an excess is kept when it is within the percentage or
      within the dollar floor. */
  lemma ToleranceMeaning(policy: MoneyPolicy, due: int, amount: int, decimals: nat, rate: Rate)
    ensures amount <= UnderpayTolerance(policy, due, decimals, rate)
       <==> amount as real <= due as real * policy.underPct && RawToUsd(amount, decimals, rate) <= policy.underCapUsd
    ensures amount <= OverpayTolerance(policy, due, decimals, rate)
       <==> amount as real <= due as real * policy.overPct || RawToUsd(amount, decimals, rate) <= policy.overFloorUsd
  {
    WithinUsd(amount, policy.underCapUsd, decimals, rate);
    WithinUsd(amount, policy.overFloorUsd, decimals, rate);
    FloorMeans(amount, due as real * policy.underPct);
    FloorMeans(amount, due as real * policy.overPct);
    hide RawToUsd, UsdToRaw;
  }

  lemma FloorMeans(n: int, x: real)
    ensures n <= x.Floor <==> n as real <= x
  {
  }

  /** The table under the default policy, in money: what each shortfall and each excess leads to. */
  lemma DefaultTable(due: nat, total: int, decimals: nat, rate: Rate, now: int, topupUntil: int)
    requires total > 0
    ensures var outcome := Classify(DEFAULT_POLICY, due, total, decimals, rate, now, topupUntil).outcome;
            var small := (due - total) as real <= due as real * 0.005 && RawToUsd(due - total, decimals, rate) <= 1.0;
            var kept := (total - due) as real <= due as real * 0.05 || RawToUsd(total - due, decimals, rate) <= 5.0;
            outcome == (if total == due then Paid
                        else if total < due then
                          (if small then UnderpaidTolerated
                           else if now <= topupUntil then PartiallyPaid else UnderpaidManualReview)
                        else if kept then OverpaidCredited
                        else OverpaidRefundPending)
  {
    ToleranceMeaning(DEFAULT_POLICY, due, due - total, decimals, rate);
    ToleranceMeaning(DEFAULT_POLICY, due, total - due, decimals, rate);
    hide RawToUsd, UnderpayTolerance, OverpayTolerance;
  }

  /** A grant is never lost by more money arriving. */
  lemma GrantingMonotone(policy: MoneyPolicy, due: int, total: int, more: int, decimals: nat, rate: Rate, now: int,
                         topupUntil: int)
    requires total <= more
    requires Granting(Classify(policy, due, total, decimals, rate, now, topupUntil).outcome)
    ensures Granting(Classify(policy, due, more, decimals, rate, now, topupUntil).outcome)
  {
    GrantingCondition(policy, due, total, decimals, rate, now, topupUntil);
    GrantingCondition(policy, due, more, decimals, rate, now, topupUntil);
  }

  // ---- Confirmations ---------------------------------------------------------------------

  /** The regime for an amount; exactly at the threshold the cheaper one applies. */
  predicate NeedsFinality(raw: int, decimals: nat, rate: real, threshold: real) {
    RawToUsd(raw, decimals, rate) > threshold
  }

  function CutoffHeight(head: int, minConfirmations: int, needsFinality: bool, finalized: Option<int>): int {
    var byCount := head - minConfirmations + 1;
    if !needsFinality then byCount
    else if finalized.None? then -1
    else Min(byCount, finalized.value)
  }

  /** The single cutoff says, block by block, what the two regimes say: enough confirmations, and
      for large amounts a finalized block at or above it. */
  lemma CutoffMeaning(head: int, minConfirmations: int, needsFinality: bool, finalized: Option<int>, block: nat)
    ensures block <= CutoffHeight(head, minConfirmations, needsFinality, finalized)
       <==> && head - block + 1 >= minConfirmations
            && (needsFinality ==> finalized.Some? && block <= finalized.value)
  {
  }
}
