/** The Redis script: both buckets kept as hashes that expire. With a clock that does not go back it
    answers as the ideal limiter does, and neither laziness nor key expiry can be observed. */
module LimiterRedis {
  import Extrema
  import opened Wrappers
  import opened LimiterModel
  import B = LimiterBounds

  datatype Key = GlobalKey | ChatKey(chat: nat)

  /** A hash with its time to live; times are milliseconds. */
  datatype Entry = Entry(tokens: real, ts: int, expires: int)

  type Entries = map<Key, Entry>

  function Seconds(ms: int): real {
    ms as real / 1000.0
  }

  function Ceil(x: real): int {
    -((-x).Floor)
  }

  function CapacityOf(r: Rates, key: Key): real {
    if key.GlobalKey? then r.globalBurst else r.chatBurst
  }

  function RateOf(r: Rates, key: Key): real {
    if key.GlobalKey? then r.globalRate else r.chatRate
  }

  /** What the script reads: a key that is absent or has expired reads as a full bucket. */
  function Have(e: Entries, r: Rates, key: Key, now: int): real {
    if key in e && now < e[key].expires
    then Grown(e[key].tokens, CapacityOf(r, key), RateOf(r, key), Seconds(Extrema.Max(0, now - e[key].ts)))
    else Grown(CapacityOf(r, key), CapacityOf(r, key), RateOf(r, key), Seconds(0))
  }

  /** Milliseconds until a level reaches one. */
  function WaitMs(have: real, rate: real): int
    requires rate > 0.0
  {
    if have < 1.0 then Ceil((1.0 - have) / rate * 1000.0) else 0
  }

  function Lifetime(capacity: real, rate: real): int
    requires rate > 0.0
  {
    Ceil(capacity / rate * 1000.0) + 1000
  }

  function Written(e: Entries, r: Rates, key: Key, have: real, now: int): Entries
    requires Positive(r)
  {
    e[key := Entry(have - 1.0, now, now + Lifetime(CapacityOf(r, key), RateOf(r, key)))]
  }

  function TotalWait(e: Entries, r: Rates, chat: nat, now: int): int
    requires Positive(r)
  {
    Extrema.Max(Extrema.Max(0, WaitMs(Have(e, r, GlobalKey, now), r.globalRate)),
                WaitMs(Have(e, r, ChatKey(chat), now), r.chatRate))
  }

  /** Peek both; take both, or touch nothing. */
  function Taken(e: Entries, r: Rates, chat: nat, now: int): Entries
    requires Positive(r)
  {
    if TotalWait(e, r, chat, now) > 0 then e
    else Written(Written(e, r, GlobalKey, Have(e, r, GlobalKey, now), now), r, ChatKey(chat),
                 Have(e, r, ChatKey(chat), now), now)
  }

  class Redis {
    const r: Rates
    var entries: Entries

    constructor (r: Rates)
      ensures this.r == r && entries == map[]
    {
      this.r, entries := r, map[];
    }

    /** The script. */
    method Eval(chat: nat, now: int) returns (waitMs: int)
      requires Positive(r)
      modifies this`entries
      ensures waitMs == TotalWait(old(entries), r, chat, now)
      ensures entries == Taken(old(entries), r, chat, now)
    {
      hide Have, WaitMs, Lifetime;
      var keys := [GlobalKey, ChatKey(chat)];
      var tokens: seq<real> := [];
      waitMs := 0;
      for i := 0 to 2
        invariant |tokens| == i && entries == old(entries)
        invariant i >= 1 ==> tokens[0] == Have(entries, r, GlobalKey, now)
        invariant i == 2 ==> tokens[1] == Have(entries, r, ChatKey(chat), now)
        invariant i == 0 ==> waitMs == 0
        invariant i == 1 ==> waitMs == Extrema.Max(0, WaitMs(tokens[0], r.globalRate))
        invariant i == 2 ==> waitMs == TotalWait(entries, r, chat, now)
      {
        var have := Have(entries, r, keys[i], now);
        tokens := tokens + [have];
        WaitSign(have, RateOf(r, keys[i]));
        if have < 1.0 {
          waitMs := Extrema.Max(waitMs, WaitMs(have, RateOf(r, keys[i])));
        }
      }
      if waitMs > 0 {
        return waitMs;
      }
      for i := 0 to 2
        invariant i == 0 ==> entries == old(entries)
        invariant i == 1 ==> entries == Written(old(entries), r, GlobalKey, tokens[0], now)
        invariant i == 2 ==> entries == Taken(old(entries), r, chat, now)
      {
        entries := entries[keys[i] := Entry(tokens[i] - 1.0, now, now + Lifetime(CapacityOf(r, keys[i]), RateOf(r, keys[i])))];
      }
      waitMs := 0;
    }
  }

  // ---- Refinement ------------------------------------------------------------------------

  lemma CeilMeans(x: real)
    ensures Ceil(x) as real >= x > (Ceil(x) - 1) as real
  {
  }

  lemma QuotientSign(a: real, b: real)
    requires b > 0.0
    ensures a / b * b == a && (a > 0.0 ==> a / b > 0.0) && (a >= 0.0 ==> a / b >= 0.0)
  {
    var q := a / b;
    assert q * b == a;
    if q < 0.0 {
      InflowNonNegative(b, -q);
    }
  }

  lemma WaitSign(have: real, rate: real)
    requires rate > 0.0
    ensures WaitMs(have, rate) >= 0 && (WaitMs(have, rate) > 0 <==> have < 1.0)
  {
    if have < 1.0 {
      QuotientSign(1.0 - have, rate);
      CeilMeans((1.0 - have) / rate * 1000.0);
    }
  }

  /** The wait is the least whole number of milliseconds after which the inflow makes up one token. */
  lemma WaitIsLeast(have: real, rate: real, d: nat)
    requires rate > 0.0 && have < 1.0
    ensures have + Inflow(rate, Seconds(d)) >= 1.0 <==> d >= WaitMs(have, rate)
  {
    var x := (1.0 - have) / rate;
    QuotientSign(1.0 - have, rate);
    CeilMeans(x * 1000.0);
    assert Inflow(rate, x) == 1.0 - have;
    var s := Seconds(d);
    assert d as real == s * 1000.0;
    InflowAdds(rate, x, s - x);
    if s >= x {
      InflowNonNegative(rate, s - x);
    } else {
      InflowAdds(rate, s, x - s);
      InflowPositive(rate, x - s);
    }
    hide Inflow;
  }

  /** A key, expired or not, stands for the level its last write has refilled to. */
  predicate Stands(e: Entries, r: Rates, key: Key, at: int, level: real)
    requires Positive(r)
  {
    if key in e then
      && e[key].ts <= at && e[key].tokens >= 0.0
      && e[key].expires >= e[key].ts + Lifetime(CapacityOf(r, key), RateOf(r, key))
      && Grown(e[key].tokens, CapacityOf(r, key), RateOf(r, key), Seconds(at - e[key].ts)) == level
    else level == CapacityOf(r, key)
  }

  ghost predicate Matches(e: Entries, r: Rates, i: Ideal, at: int)
    requires Positive(r)
  {
    && i.at == Seconds(at) && Stands(e, r, GlobalKey, at, i.global)
    && forall c: nat :: Stands(e, r, ChatKey(c), at, i.chats(c))
  }

  /** By the time a key expires its bucket has refilled. */
  lemma ExpiredIsFull(tokens: real, capacity: real, rate: real, elapsed: int)
    requires rate > 0.0 && capacity >= 0.0 && tokens >= 0.0 && elapsed >= Lifetime(capacity, rate)
    ensures Grown(tokens, capacity, rate, Seconds(elapsed)) == capacity
  {
    var x := capacity / rate;
    QuotientSign(capacity, rate);
    CeilMeans(x * 1000.0);
    assert Inflow(rate, x) == capacity;
    assert Seconds(elapsed) >= x;
    InflowAdds(rate, x, Seconds(elapsed) - x);
    InflowNonNegative(rate, Seconds(elapsed) - x);
    hide Inflow;
  }

  /** A key lives for the time its bucket takes to fill from empty, rounded up, and one second more. */
  lemma LifetimeMeans(capacity: real, rate: real)
    requires rate > 0.0
    ensures var fill := capacity / rate * 1000.0; fill + 1000.0 <= Lifetime(capacity, rate) as real < fill + 1001.0
  {
    CeilMeans(capacity / rate * 1000.0);
  }

  lemma SecondsSum(a: int, b: int)
    ensures Seconds(a + b) == Seconds(a) + Seconds(b)
    ensures a >= 0 ==> Seconds(a) >= 0.0
  {
  }

  /** Reading a key at a later time finds the level it stood for, refilled since; expiry makes no
      difference. */
  lemma HaveFinds(e: Entries, r: Rates, key: Key, at: int, level: real, now: int)
    requires Positive(r) && at <= now && Stands(e, r, key, at, level)
    ensures Have(e, r, key, now) == Grown(level, CapacityOf(r, key), RateOf(r, key), Seconds(now - at))
    ensures Stands(e, r, key, now, Have(e, r, key, now))
  {
    var capacity, rate := CapacityOf(r, key), RateOf(r, key);
    SecondsSum(now - at, 0);
    FullStaysFull(capacity, rate, Seconds(now - at));
    FullStaysFull(capacity, rate, Seconds(0));
    if key in e {
      var ts := e[key].ts;
      SecondsSum(at - ts, now - at);
      GrowsInSteps(e[key].tokens, capacity, rate, Seconds(at - ts), Seconds(now - at));
      if now >= e[key].expires {
        ExpiredIsFull(e[key].tokens, capacity, rate, now - ts);
      }
    }
  }

  /** Expiry cannot reset anybody's quota: removing the expired keys changes nothing the script
      reads, now or later. */
  lemma ExpiryIsInvisible(e: Entries, r: Rates, key: Key, at: int, level: real, now: int)
    requires Positive(r) && at <= now && Stands(e, r, key, at, level)
    ensures var left := map k | k in e && at < e[k].expires :: e[k];
            Have(left, r, key, now) == Have(e, r, key, now) && Stands(left, r, key, at, level)
  {
    hide Grown;
    HaveFinds(e, r, key, at, level, now);
    if key in e && at >= e[key].expires {
      ExpiredIsFull(e[key].tokens, CapacityOf(r, key), RateOf(r, key), at - e[key].ts);
      FullStaysFull(CapacityOf(r, key), RateOf(r, key), Seconds(0));
      SecondsSum(now - at, 0);
      FullStaysFull(CapacityOf(r, key), RateOf(r, key), Seconds(now - at));
    }
  }

  lemma WrittenStands(e: Entries, r: Rates, key: Key, have: real, now: int)
    requires Positive(r) && 1.0 <= have <= CapacityOf(r, key)
    ensures Stands(Written(e, r, key, have, now), r, key, now, have - 1.0)
  {
    assert Inflow(RateOf(r, key), Seconds(0)) == 0.0;
  }

  /** The script takes both tokens exactly when both lazily refilled levels have reached one, and
      otherwise writes nothing; afterwards it still stands for the ideal limiter. */
  lemma EvalRefines(e: Entries, r: Rates, i: Ideal, at: int, chat: nat, now: int)
    requires Positive(r) && at <= now && Matches(e, r, i, at)
    ensures var a := Attempt(chat, Seconds(now));
            && (TotalWait(e, r, chat, now) == 0 <==> Allows(r, i, a))
            && (!Allows(r, i, a) ==> Taken(e, r, chat, now) == e)
            && Matches(Taken(e, r, chat, now), r, After(r, i, a), now)
  {
    var a := Attempt(chat, Seconds(now));
    SecondsSum(at, now - at);
    HaveFinds(e, r, GlobalKey, at, i.global, now);
    HaveFinds(e, r, ChatKey(chat), at, i.chats(chat), now);
    var g, c := Have(e, r, GlobalKey, now), Have(e, r, ChatKey(chat), now);
    WaitSign(g, r.globalRate);
    WaitSign(c, r.chatRate);
    assert g == GlobalLevel(r, i, a.now) && c == ChatLevel(r, i, chat, a.now);
    assert g <= r.globalBurst && c <= r.chatBurst;
    hide Have, WaitMs, Grown, Lifetime, Stands;
    AllStand(e, r, i, at, now);
    if Allows(r, i, a) {
      var once := Written(e, r, GlobalKey, g, now);
      WrittenStands(e, r, GlobalKey, g, now);
      WrittenStands(once, r, ChatKey(chat), c, now);
      WrittenElsewhere(once, r, ChatKey(chat), c, now, GlobalKey, g - 1.0);
      forall k: nat | k != chat
        ensures Stands(Written(once, r, ChatKey(chat), c, now), r, ChatKey(k), now, ChatLevel(r, i, k, a.now))
      {
        WrittenElsewhere(e, r, GlobalKey, g, now, ChatKey(k), ChatLevel(r, i, k, a.now));
        WrittenElsewhere(once, r, ChatKey(chat), c, now, ChatKey(k), ChatLevel(r, i, k, a.now));
      }
      hide Written;
      assert Taken(e, r, chat, now) == Written(once, r, ChatKey(chat), c, now);
    }
  }

  /** Standing for the ideal limiter at one time is standing for it, refilled, at any later time. */
  lemma AllStand(e: Entries, r: Rates, i: Ideal, at: int, now: int)
    requires Positive(r) && at <= now && Matches(e, r, i, at)
    ensures Stands(e, r, GlobalKey, now, GlobalLevel(r, i, Seconds(now)))
    ensures forall k: nat :: Stands(e, r, ChatKey(k), now, ChatLevel(r, i, k, Seconds(now)))
  {
    hide Stands, Have, Grown;
    SecondsSum(at, now - at);
    HaveFinds(e, r, GlobalKey, at, i.global, now);
    forall k: nat
      ensures Stands(e, r, ChatKey(k), now, ChatLevel(r, i, k, Seconds(now)))
    {
      HaveFinds(e, r, ChatKey(k), at, i.chats(k), now);
    }
  }

  lemma WrittenElsewhere(e: Entries, r: Rates, key: Key, have: real, now: int, other: Key, level: real)
    requires Positive(r) && key != other && Stands(e, r, other, now, level)
    ensures Stands(Written(e, r, key, have, now), r, other, now, level)
  {
    hide Grown, Lifetime;
  }

  // ---- Runs ------------------------------------------------------------------------------

  datatype Call = Call(chat: nat, now: int)

  function AsAttempt(c: Call): Attempt {
    Attempt(c.chat, Seconds(c.now))
  }

  function AsAttempts(calls: seq<Call>): (attempts: seq<Attempt>)
    ensures |attempts| == |calls|
  {
    if |calls| == 0 then [] else AsAttempts(calls[..|calls| - 1]) + [AsAttempt(calls[|calls| - 1])]
  }

  function RunRedis(r: Rates, calls: seq<Call>): Entries
    requires Positive(r)
  {
    if |calls| == 0 then map[]
    else Taken(RunRedis(r, calls[..|calls| - 1]), r, calls[|calls| - 1].chat, calls[|calls| - 1].now)
  }

  /** The script's answers: zero milliseconds to wait means the message may go out. */
  function RedisAnswers(r: Rates, calls: seq<Call>): (answers: seq<bool>)
    requires Positive(r)
    ensures |answers| == |calls|
  {
    if |calls| == 0 then []
    else
      var init, c := calls[..|calls| - 1], calls[|calls| - 1];
      RedisAnswers(r, init) + [TotalWait(RunRedis(r, init), r, c.chat, c.now) == 0]
  }

  function TimeOf(calls: seq<Call>, start: int): int {
    if |calls| == 0 then start else calls[|calls| - 1].now
  }

  /** Calls carry times that never go back. */
  predicate CallsOrdered(calls: seq<Call>, start: int) {
    |calls| == 0 || (CallsOrdered(calls[..|calls| - 1], start) && TimeOf(calls[..|calls| - 1], start) <= calls[|calls| - 1].now)
  }

  lemma EmptyMatches(r: Rates, start: int)
    requires Positive(r)
    ensures Matches(map[], r, Full(r, Seconds(start)), start)
  {
  }

  /** Over a whole run the script answers as the ideal limiter does. */
  lemma {:induction false} RunRefines(r: Rates, calls: seq<Call>, start: int)
    requires Positive(r) && CallsOrdered(calls, start)
    ensures RedisAnswers(r, calls) == Answers(r, Full(r, Seconds(start)), AsAttempts(calls))
    ensures Matches(RunRedis(r, calls), r, RunIdeal(r, Full(r, Seconds(start)), AsAttempts(calls)), TimeOf(calls, start))
    ensures Ordered(AsAttempts(calls), Seconds(start))
  {
    hide Matches, Allows, After, TotalWait, Taken, Full;
    if |calls| == 0 {
      EmptyMatches(r, start);
    } else {
      var init, c := calls[..|calls| - 1], calls[|calls| - 1];
      RunRefines(r, init, start);
      var attempts := AsAttempts(calls);
      assert attempts[..|calls| - 1] == AsAttempts(init);
      EvalRefines(RunRedis(r, init), r, RunIdeal(r, Full(r, Seconds(start)), AsAttempts(init)), TimeOf(init, start),
                  c.chat, c.now);
      OrderedNext(init, c, start);
    }
  }

  lemma OrderedNext(init: seq<Call>, c: Call, start: int)
    requires Ordered(AsAttempts(init), Seconds(start)) && TimeOf(init, start) <= c.now
    ensures Ordered(AsAttempts(init) + [AsAttempt(c)], Seconds(start))
  {
    var attempts := AsAttempts(init) + [AsAttempt(c)];
    forall k | 0 <= k < |attempts|
      ensures Before(attempts, Seconds(start), k) <= attempts[k].now
    {
      if k < |init| {
        assert Before(attempts, Seconds(start), k) == Before(AsAttempts(init), Seconds(start), k);
        assert attempts[k] == AsAttempts(init)[k];
      } else {
        SecondsSum(TimeOf(init, start), c.now - TimeOf(init, start));
      }
    }
  }

  lemma {:induction false} AttemptIs(calls: seq<Call>, k: nat)
    requires k < |calls|
    ensures AsAttempts(calls)[k] == Attempt(calls[k].chat, calls[k].now as real / 1000.0)
    ensures AsAttempts(calls)[..k] == AsAttempts(calls[..k])
  {
    if k < |calls| - 1 {
      AttemptIs(calls[..|calls| - 1], k);
      assert calls[..|calls| - 1][..k] == calls[..k];
    }
  }

  /** The window bound for the Redis limiter, over times in seconds. */
  lemma RedisWindowBound(r: Rates, calls: seq<Call>, start: int, who: Option<nat>, from: real, length: real)
    requires Positive(r) && CallsOrdered(calls, start) && length >= 0.0
    ensures B.Sends(RedisAnswers(r, calls), AsAttempts(calls), who, from, from + length) as real
         <= (if who.None? then r.globalBurst + r.globalRate * length else r.chatBurst + r.chatRate * length)
    ensures forall k | 0 <= k < |calls| ::
              AsAttempts(calls)[k] == Attempt(calls[k].chat, calls[k].now as real / 1000.0)
  {
    hide B.Sends, RedisAnswers, Answers, Matches, Ordered, CallsOrdered;
    RunRefines(r, calls, start);
    B.WindowBound(r, Seconds(start), AsAttempts(calls), who, from, length);
    forall k | 0 <= k < |calls|
      ensures AsAttempts(calls)[k] == Attempt(calls[k].chat, calls[k].now as real / 1000.0)
    {
      AttemptIs(calls, k);
    }
  }

  /** The script lets a message out exactly when no window ending with it would hold too many. */
  lemma RedisSendsExactlyWhen(r: Rates, calls: seq<Call>, start: int, k: nat)
    requires Positive(r) && CallsOrdered(calls, start) && k < |calls|
    ensures var answers, attempts, now := RedisAnswers(r, calls), AsAttempts(calls), calls[k].now as real / 1000.0;
            answers[k] <==> forall from: real | from <= now ::
                              && B.Room(answers[..k], attempts[..k], None, r.globalBurst, r.globalRate, from, now)
                              && B.Room(answers[..k], attempts[..k], Some(calls[k].chat), r.chatBurst, r.chatRate, from, now)
  {
    hide B.Room, RedisAnswers, Answers, Matches, Ordered, CallsOrdered, AsAttempts;
    RunRefines(r, calls, start);
    AttemptIs(calls, k);
    B.SendsExactlyWhen(r, Seconds(start), AsAttempts(calls), k);
  }

  // ---- The returned wait -----------------------------------------------------------------

  /** The returned wait suffices if nobody intervenes, and no shorter whole number of milliseconds
      would have: called again after `d` milliseconds the script sends exactly when the wait is over. */
  lemma WaitIsExact(e: Entries, r: Rates, i: Ideal, at: int, chat: nat, now: int, d: nat)
    requires Positive(r) && r.globalBurst >= 1.0 && r.chatBurst >= 1.0
    requires at <= now && Matches(e, r, i, at)
    ensures TotalWait(e, r, chat, now + d) == 0 <==> d >= TotalWait(e, r, chat, now)
  {
    HaveFinds(e, r, GlobalKey, at, i.global, now);
    HaveFinds(e, r, ChatKey(chat), at, i.chats(chat), now);
    var g, c := Have(e, r, GlobalKey, now), Have(e, r, ChatKey(chat), now);
    HaveFinds(e, r, GlobalKey, now, g, now + d);
    HaveFinds(e, r, ChatKey(chat), now, c, now + d);
    LaterWait(g, r.globalBurst, r.globalRate, d);
    LaterWait(c, r.chatBurst, r.chatRate, d);
    hide Have, Grown, WaitMs, Stands;
  }

  lemma LaterWait(have: real, capacity: real, rate: real, d: nat)
    requires rate > 0.0 && capacity >= 1.0
    ensures WaitMs(have, rate) >= 0 && WaitMs(Grown(have, capacity, rate, Seconds(d)), rate) >= 0
    ensures WaitMs(Grown(have, capacity, rate, Seconds(d)), rate) == 0 <==> d >= WaitMs(have, rate)
  {
    var later := Grown(have, capacity, rate, Seconds(d));
    WaitSign(have, rate);
    WaitSign(later, rate);
    SecondsSum(d, 0);
    InflowNonNegative(rate, Seconds(d));
    if have < 1.0 {
      WaitIsLeast(have, rate, d);
    }
    hide Inflow, WaitMs;
  }
}
