/** The rate limit as an ideal pair of token buckets, refilled continuously. The local limiter and the
    Redis script are both proved to refine it. */
module LimiterModel {

  /** Capacities and refill rates, per second, of the global and the per-chat bucket. */
  datatype Rates = Rates(globalBurst: real, globalRate: real, chatBurst: real, chatRate: real)

  predicate Positive(r: Rates) {
    r.globalBurst >= 0.0 && r.globalRate > 0.0 && r.chatBurst >= 0.0 && r.chatRate > 0.0
  }

  function Min(a: real, b: real): real {
    if a < b then a else b
  }

  function Max(a: real, b: real): real {
    if a > b then a else b
  }

  /** Tokens that flow in during `elapsed` seconds. */
  function Inflow(rate: real, elapsed: real): real {
    rate * elapsed
  }

  /** A level that refills for `elapsed` seconds. */
  function Grown(level: real, capacity: real, rate: real, elapsed: real): real {
    Min(capacity, level + Inflow(rate, elapsed))
  }

  lemma InflowNonNegative(rate: real, elapsed: real)
    requires rate > 0.0 && elapsed >= 0.0
    ensures Inflow(rate, elapsed) >= 0.0
  {
  }

  lemma InflowPositive(rate: real, elapsed: real)
    requires rate > 0.0 && elapsed > 0.0
    ensures Inflow(rate, elapsed) > 0.0
  {
  }

  lemma FullStaysFull(capacity: real, rate: real, elapsed: real)
    requires rate > 0.0 && elapsed >= 0.0
    ensures Grown(capacity, capacity, rate, elapsed) == capacity
  {
    InflowNonNegative(rate, elapsed);
  }

  lemma InflowAdds(rate: real, a: real, b: real)
    ensures Inflow(rate, a + b) == Inflow(rate, a) + Inflow(rate, b)
  {
  }

  /** Refilling twice is refilling once for the whole time. */
  lemma GrowsInSteps(level: real, capacity: real, rate: real, a: real, b: real)
    requires rate > 0.0 && a >= 0.0 && b >= 0.0
    ensures Grown(Grown(level, capacity, rate, a), capacity, rate, b) == Grown(level, capacity, rate, a + b)
  {
    InflowAdds(rate, a, b);
    InflowNonNegative(rate, a);
    InflowNonNegative(rate, b);
    hide Inflow;
  }

  // ---- The ideal limiter -----------------------------------------------------------------

  /** Both levels at time `at`; every chat has a bucket. */
  datatype Ideal = Ideal(at: real, global: real, chats: nat -> real)

  datatype Attempt = Attempt(chat: nat, now: real)

  function Full(r: Rates, now: real): Ideal {
    Ideal(now, r.globalBurst, (_: nat) => r.chatBurst)
  }

  function GlobalLevel(r: Rates, i: Ideal, now: real): real {
    Grown(i.global, r.globalBurst, r.globalRate, now - i.at)
  }

  function ChatLevel(r: Rates, i: Ideal, chat: nat, now: real): real {
    Grown(i.chats(chat), r.chatBurst, r.chatRate, now - i.at)
  }

  /** A message may go out when both levels have reached one. */
  predicate Allows(r: Rates, i: Ideal, a: Attempt) {
    GlobalLevel(r, i, a.now) >= 1.0 && ChatLevel(r, i, a.chat, a.now) >= 1.0
  }

  /** It takes one token from each bucket, or none from either. */
  function After(r: Rates, i: Ideal, a: Attempt): Ideal {
    var spent := if Allows(r, i, a) then 1.0 else 0.0;
    Ideal(a.now, GlobalLevel(r, i, a.now) - spent,
          (c: nat) => ChatLevel(r, i, c, a.now) - if c == a.chat then spent else 0.0)
  }

  function RunIdeal(r: Rates, i: Ideal, attempts: seq<Attempt>): Ideal {
    if |attempts| == 0 then i else After(r, RunIdeal(r, i, attempts[..|attempts| - 1]), attempts[|attempts| - 1])
  }

  /** Which attempts of the run send. */
  function Answers(r: Rates, i: Ideal, attempts: seq<Attempt>): (answers: seq<bool>)
    ensures |answers| == |attempts|
  {
    if |attempts| == 0 then []
    else
      var init := attempts[..|attempts| - 1];
      Answers(r, i, init) + [Allows(r, RunIdeal(r, i, init), attempts[|attempts| - 1])]
  }

  /** The time of the attempt before `k`. */
  function Before(attempts: seq<Attempt>, start: real, k: nat): real
    requires k <= |attempts|
  {
    if k == 0 then start else attempts[k - 1].now
  }

  /** Attempts in the order of a clock that never goes back. */
  predicate Ordered(attempts: seq<Attempt>, start: real) {
    forall k | 0 <= k < |attempts| :: Before(attempts, start, k) <= attempts[k].now
  }

  lemma OrderedInit(attempts: seq<Attempt>, start: real)
    requires Ordered(attempts, start) && |attempts| > 0
    ensures Ordered(attempts[..|attempts| - 1], start)
    ensures Before(attempts, start, |attempts| - 1) <= attempts[|attempts| - 1].now
  {
    var init := attempts[..|attempts| - 1];
    assert forall k | 0 <= k < |init| :: Before(init, start, k) == Before(attempts, start, k) && init[k] == attempts[k];
  }

  // ---- Levels stay within their capacities -----------------------------------------------

  ghost predicate Within(r: Rates, i: Ideal) {
    0.0 <= i.global <= r.globalBurst && forall c: nat :: 0.0 <= i.chats(c) <= r.chatBurst
  }

  lemma GrownWithin(level: real, capacity: real, rate: real, elapsed: real)
    requires 0.0 <= level <= capacity && rate > 0.0 && elapsed >= 0.0
    ensures 0.0 <= Grown(level, capacity, rate, elapsed) <= capacity
    ensures Grown(level, capacity, rate, elapsed) <= level + Inflow(rate, elapsed)
  {
    InflowNonNegative(rate, elapsed);
    hide Inflow;
  }

  lemma AfterWithin(r: Rates, i: Ideal, a: Attempt)
    requires Positive(r) && Within(r, i) && i.at <= a.now
    ensures Within(r, After(r, i, a))
  {
    GrownWithin(i.global, r.globalBurst, r.globalRate, a.now - i.at);
    forall c: nat
      ensures 0.0 <= After(r, i, a).chats(c) <= r.chatBurst
    {
      GrownWithin(i.chats(c), r.chatBurst, r.chatRate, a.now - i.at);
    }
  }

  lemma {:induction false} RunWithin(r: Rates, start: real, attempts: seq<Attempt>)
    requires Positive(r) && Ordered(attempts, start)
    ensures Within(r, RunIdeal(r, Full(r, start), attempts))
    ensures RunIdeal(r, Full(r, start), attempts).at == Before(attempts, start, |attempts|)
  {
    hide Within;
    if |attempts| == 0 {
      FullWithin(r, start);
    } else {
      var init := attempts[..|attempts| - 1];
      OrderedInit(attempts, start);
      RunWithin(r, start, init);
      AfterWithin(r, RunIdeal(r, Full(r, start), init), attempts[|attempts| - 1]);
    }
  }

  lemma FullWithin(r: Rates, start: real)
    requires Positive(r)
    ensures Within(r, Full(r, start))
  {
  }
}
