/** The in-process limiter: lazily refilled buckets, created on first use and evicted when full and
    idle. It answers every run of attempts as the ideal limiter does, whatever it evicts. */
module LimiterLocal {
  import opened Wrappers
  import opened LimiterBounds
  import opened LimiterModel

  datatype Bucket = Bucket(tokens: real, updatedAt: real)

  datatype Local = Local(global: Bucket, chats: map<nat, Bucket>)

  function Refilled(b: Bucket, capacity: real, rate: real, now: real): Bucket {
    Bucket(Grown(b.tokens, capacity, rate, Max(0.0, now - b.updatedAt)), now)
  }

  /** Seconds until one token exists. */
  function WaitOf(tokens: real, rate: real): real
    requires rate > 0.0
  {
    if tokens >= 1.0 then 0.0 else (1.0 - tokens) / rate
  }

  function ChatBucket(l: Local, r: Rates, chat: nat, now: real): Bucket {
    if chat in l.chats then l.chats[chat] else Bucket(r.chatBurst, now)
  }

  predicate Stale(b: Bucket, r: Rates, now: real) {
    b.tokens + Inflow(r.chatRate, now - b.updatedAt) >= r.chatBurst
  }

  /** Forget the buckets that would be full by now, but only past the threshold. */
  function Evicted(chats: map<nat, Bucket>, r: Rates, now: real, keep: nat, threshold: nat): map<nat, Bucket> {
    if |chats| <= threshold then chats
    else map c | c in chats && (c == keep || !Stale(chats[c], r, now)) :: chats[c]
  }

  datatype Reply = Reply(limiter: Local, wait: real, sent: bool)

  /** One pass through the critical section of `acquire`. */
  function Try(l: Local, r: Rates, a: Attempt, threshold: nat): Reply
    requires Positive(r)
  {
    var g := Refilled(l.global, r.globalBurst, r.globalRate, a.now);
    var c := Refilled(ChatBucket(l, r, a.chat, a.now), r.chatBurst, r.chatRate, a.now);
    var wait := Max(WaitOf(g.tokens, r.globalRate), WaitOf(c.tokens, r.chatRate));
    if wait > 0.0 then Reply(Local(g, l.chats[a.chat := c]), wait, false)
    else
      var taken := l.chats[a.chat := c.(tokens := c.tokens - 1.0)];
      Reply(Local(g.(tokens := g.tokens - 1.0), Evicted(taken, r, a.now, a.chat, threshold)), wait, true)
  }

  function New(r: Rates, now: real): Local {
    Local(Bucket(r.globalBurst, now), map[])
  }

  function RunLocal(l: Local, r: Rates, attempts: seq<Attempt>, threshold: nat): Local
    requires Positive(r)
  {
    if |attempts| == 0 then l
    else Try(RunLocal(l, r, attempts[..|attempts| - 1], threshold), r, attempts[|attempts| - 1], threshold).limiter
  }

  /** What the limiter answers to each attempt. */
  function LocalAnswers(l: Local, r: Rates, attempts: seq<Attempt>, threshold: nat): (answers: seq<bool>)
    requires Positive(r)
    ensures |answers| == |attempts|
  {
    if |attempts| == 0 then []
    else
      var init := attempts[..|attempts| - 1];
      LocalAnswers(l, r, init, threshold) + [Try(RunLocal(l, r, init, threshold), r, attempts[|attempts| - 1], threshold).sent]
  }

  // ---- Refinement ------------------------------------------------------------------------

  /** The level a bucket stands for at a time not before its last update. */
  predicate Stands(b: Bucket, capacity: real, rate: real, at: real, level: real) {
    b.updatedAt <= at && Grown(b.tokens, capacity, rate, at - b.updatedAt) == level
  }

  /** A missing chat bucket stands for a full one. */
  ghost predicate Matches(l: Local, r: Rates, i: Ideal) {
    && Stands(l.global, r.globalBurst, r.globalRate, i.at, i.global)
    && forall c: nat ::
         if c in l.chats then Stands(l.chats[c], r.chatBurst, r.chatRate, i.at, i.chats(c))
         else i.chats(c) == r.chatBurst
  }

  lemma StandsLater(b: Bucket, capacity: real, rate: real, at: real, level: real, now: real)
    requires Stands(b, capacity, rate, at, level) && rate > 0.0 && at <= now
    ensures Stands(b, capacity, rate, now, Grown(level, capacity, rate, now - at))
    ensures Refilled(b, capacity, rate, now) == Bucket(Grown(level, capacity, rate, now - at), now)
  {
    GrowsInSteps(b.tokens, capacity, rate, at - b.updatedAt, now - at);
    hide Grown;
    assert (at - b.updatedAt) + (now - at) == now - b.updatedAt;
  }

  lemma StandsNow(tokens: real, capacity: real, rate: real, now: real)
    requires tokens <= capacity && rate > 0.0
    ensures Stands(Bucket(tokens, now), capacity, rate, now, tokens)
  {
    assert Inflow(rate, 0.0) == 0.0;
  }

  lemma GrownAtMost(level: real, capacity: real, rate: real, elapsed: real)
    ensures Grown(level, capacity, rate, elapsed) <= capacity
  {
  }

  /** The wait is zero exactly when both levels have reached one. */
  lemma WaitMeans(g: real, c: real, r: Rates)
    requires Positive(r)
    ensures Max(WaitOf(g, r.globalRate), WaitOf(c, r.chatRate)) >= 0.0
    ensures Max(WaitOf(g, r.globalRate), WaitOf(c, r.chatRate)) == 0.0 <==> g >= 1.0 && c >= 1.0
  {
    if g < 1.0 {
      Quotient(1.0 - g, r.globalRate);
    }
    if c < 1.0 {
      Quotient(1.0 - c, r.chatRate);
    }
  }

  lemma Quotient(a: real, b: real)
    requires a > 0.0 && b > 0.0
    ensures a / b > 0.0
  {
    var q := a / b;
    assert q * b == a;
    if q <= 0.0 {
      InflowNonNegative(b, -q);
    }
  }

  /** The attempt in terms of the levels it finds. */
  lemma TryFinds(l: Local, r: Rates, i: Ideal, a: Attempt, threshold: nat)
    requires Positive(r) && Matches(l, r, i) && i.at <= a.now
    ensures var g, c := GlobalLevel(r, i, a.now), ChatLevel(r, i, a.chat, a.now);
            var spent := if Allows(r, i, a) then 1.0 else 0.0;
            var chats := l.chats[a.chat := Bucket(c - spent, a.now)];
            Try(l, r, a, threshold)
            == Reply(Local(Bucket(g - spent, a.now),
                            if spent == 1.0 then Evicted(chats, r, a.now, a.chat, threshold) else chats),
                     Max(WaitOf(g, r.globalRate), WaitOf(c, r.chatRate)), spent == 1.0)
  {
    StandsLater(l.global, r.globalBurst, r.globalRate, i.at, i.global, a.now);
    FullStaysFull(r.chatBurst, r.chatRate, a.now - i.at);
    FullStaysFull(r.chatBurst, r.chatRate, 0.0);
    if a.chat in l.chats {
      StandsLater(l.chats[a.chat], r.chatBurst, r.chatRate, i.at, i.chats(a.chat), a.now);
    }
    WaitMeans(GlobalLevel(r, i, a.now), ChatLevel(r, i, a.chat, a.now), r);
    hide Grown, WaitOf, Evicted, Matches, Stands;
  }

  /** One attempt: the same answer as the ideal limiter, and still standing for it afterwards. */
  lemma TryRefines(l: Local, r: Rates, i: Ideal, a: Attempt, threshold: nat)
    requires Positive(r) && Matches(l, r, i) && i.at <= a.now
    ensures Try(l, r, a, threshold).sent == Allows(r, i, a)
    ensures Try(l, r, a, threshold).wait
         == Max(WaitOf(GlobalLevel(r, i, a.now), r.globalRate), WaitOf(ChatLevel(r, i, a.chat, a.now), r.chatRate))
    ensures Matches(Try(l, r, a, threshold).limiter, r, After(r, i, a))
  {
    hide Try, Grown, Inflow, WaitOf, Evicted, Stands;
    TryFinds(l, r, i, a, threshold);
    var g, c, spent := GlobalLevel(r, i, a.now), ChatLevel(r, i, a.chat, a.now), if Allows(r, i, a) then 1.0 else 0.0;
    GrownAtMost(i.global, r.globalBurst, r.globalRate, a.now - i.at);
    StandsNow(g - spent, r.globalBurst, r.globalRate, a.now);
    ChatsStand(l, r, i, a);
    hide Allows;
    EvictionKeeps(l.chats[a.chat := Bucket(c - spent, a.now)], r, After(r, i, a), a.chat, threshold);
  }

  lemma ChatsStand(l: Local, r: Rates, i: Ideal, a: Attempt)
    requires Positive(r) && Matches(l, r, i) && i.at <= a.now
    ensures var chats := l.chats[a.chat :=
                    Bucket(ChatLevel(r, i, a.chat, a.now) - if Allows(r, i, a) then 1.0 else 0.0, a.now)];
            forall k: nat ::
              if k in chats then Stands(chats[k], r.chatBurst, r.chatRate, a.now, After(r, i, a).chats(k))
                             else After(r, i, a).chats(k) == r.chatBurst
  {
    hide Grown, Stands;
    GrownAtMost(i.chats(a.chat), r.chatBurst, r.chatRate, a.now - i.at);
    FullStaysFull(r.chatBurst, r.chatRate, a.now - i.at);
    StandsNow(ChatLevel(r, i, a.chat, a.now) - (if Allows(r, i, a) then 1.0 else 0.0), r.chatBurst, r.chatRate, a.now);
    hide Allows;
    forall k: nat | k in l.chats && k != a.chat
      ensures Stands(l.chats[k], r.chatBurst, r.chatRate, a.now, After(r, i, a).chats(k))
    {
      StandsLater(l.chats[k], r.chatBurst, r.chatRate, i.at, i.chats(k), a.now);
    }
  }

  /** What is evicted stood for a full bucket. */
  lemma EvictionKeeps(chats: map<nat, Bucket>, r: Rates, i: Ideal, keep: nat, threshold: nat)
    requires forall c: nat ::
               if c in chats then Stands(chats[c], r.chatBurst, r.chatRate, i.at, i.chats(c))
               else i.chats(c) == r.chatBurst
    ensures var left := Evicted(chats, r, i.at, keep, threshold);
            forall c: nat ::
              if c in left then Stands(left[c], r.chatBurst, r.chatRate, i.at, i.chats(c))
              else i.chats(c) == r.chatBurst
  {
    hide Inflow;
  }

  /** Nothing is dropped up to the threshold; beyond it exactly the buckets of other chats that have had
      the time to refill. */
  lemma EvictsOnlyRefilled(chats: map<nat, Bucket>, r: Rates, now: real, keep: nat, threshold: nat)
    ensures var left := Evicted(chats, r, now, keep, threshold);
            && (|chats| <= threshold ==> left == chats)
            && (forall c | c in left :: c in chats && left[c] == chats[c])
            && (|chats| > threshold ==>
                  forall c | c in chats ::
                    c !in left <==> c != keep && chats[c].tokens + r.chatRate * (now - chats[c].updatedAt) >= r.chatBurst)
  {
  }

  lemma NewMatches(r: Rates, start: real)
    requires Positive(r)
    ensures Matches(New(r, start), r, Full(r, start))
  {
    StandsNow(r.globalBurst, r.globalBurst, r.globalRate, start);
    hide Stands;
  }

  /** Over a whole run the limiter answers as the ideal one does. */
  lemma {:induction false} RunRefines(r: Rates, start: real, attempts: seq<Attempt>, threshold: nat)
    requires Positive(r) && Ordered(attempts, start)
    ensures LocalAnswers(New(r, start), r, attempts, threshold) == Answers(r, Full(r, start), attempts)
    ensures Matches(RunLocal(New(r, start), r, attempts, threshold), r, RunIdeal(r, Full(r, start), attempts))
  {
    hide Matches, Ordered, New, Full, Allows, After;
    if |attempts| == 0 {
      NewMatches(r, start);
    } else {
      var init, a := attempts[..|attempts| - 1], attempts[|attempts| - 1];
      OrderedInit(attempts, start);
      RunRefines(r, start, init, threshold);
      RunWithin(r, start, init);
      hide Try;
      TryRefines(RunLocal(New(r, start), r, init, threshold), r, RunIdeal(r, Full(r, start), init), a, threshold);
    }
  }

  /** Evicting idle buckets changes no later answer: limiters with different thresholds, one of which
      may be so high that it never evicts, answer every run alike. */
  lemma EvictionIsInvisible(r: Rates, start: real, attempts: seq<Attempt>, threshold: nat, other: nat)
    requires Positive(r) && Ordered(attempts, start)
    ensures LocalAnswers(New(r, start), r, attempts, threshold) == LocalAnswers(New(r, start), r, attempts, other)
  {
    RunRefines(r, start, attempts, threshold);
    RunRefines(r, start, attempts, other);
  }

  /** The window bound for the in-process limiter. */
  lemma LocalWindowBound(r: Rates, start: real, attempts: seq<Attempt>, threshold: nat, who: Option<nat>, from: real,
                         length: real)
    requires Positive(r) && Ordered(attempts, start) && length >= 0.0
    ensures Sends(LocalAnswers(New(r, start), r, attempts, threshold), attempts, who, from, from + length) as real
         <= (if who.None? then r.globalBurst + r.globalRate * length else r.chatBurst + r.chatRate * length)
  {
    hide Sends, LocalAnswers, Answers;
    RunRefines(r, start, attempts, threshold);
    WindowBound(r, start, attempts, who, from, length);
  }

  /** The in-process limiter sends exactly when no window ending with the attempt would hold too many. */
  lemma LocalSendsExactlyWhen(r: Rates, start: real, attempts: seq<Attempt>, threshold: nat, k: nat)
    requires Positive(r) && Ordered(attempts, start) && k < |attempts|
    ensures var answers, a := LocalAnswers(New(r, start), r, attempts, threshold), attempts[k];
            answers[k] <==> forall from: real | from <= a.now ::
                              && Room(answers[..k], attempts[..k], None, r.globalBurst, r.globalRate, from, a.now)
                              && Room(answers[..k], attempts[..k], Some(a.chat), r.chatBurst, r.chatRate, from, a.now)
  {
    hide Room, LocalAnswers, Answers;
    RunRefines(r, start, attempts, threshold);
    SendsExactlyWhen(r, start, attempts, k);
  }

  /** No call consumes only one of the two tokens: a sent message takes one from each bucket, a
      refused attempt leaves both levels as they were. */
  lemma BothOrNeither(l: Local, r: Rates, i: Ideal, a: Attempt, threshold: nat)
    requires Positive(r) && Matches(l, r, i) && i.at <= a.now
    ensures var reply, spent := Try(l, r, a, threshold), if Try(l, r, a, threshold).sent then 1.0 else 0.0;
            && reply.limiter.global.tokens == GlobalLevel(r, i, a.now) - spent
            && a.chat in reply.limiter.chats && reply.limiter.chats[a.chat].tokens == ChatLevel(r, i, a.chat, a.now) - spent
  {
    TryFinds(l, r, i, a, threshold);
    hide Grown, WaitOf, Matches, Stale, Try;
  }

  /** A bucket of capacity at least one reaches one token exactly when its wait is over. */
  lemma LevelReaches(have: real, capacity: real, rate: real, elapsed: real)
    requires rate > 0.0 && capacity >= 1.0 && elapsed >= 0.0
    ensures Grown(have, capacity, rate, elapsed) >= 1.0 <==> elapsed >= WaitOf(have, rate)
  {
    InflowNonNegative(rate, elapsed);
    if have < 1.0 {
      var x := (1.0 - have) / rate;
      assert Inflow(rate, x) == 1.0 - have;
      InflowAdds(rate, x, elapsed - x);
      if elapsed >= x {
        InflowNonNegative(rate, elapsed - x);
      } else {
        InflowAdds(rate, elapsed, x - elapsed);
        InflowPositive(rate, x - elapsed);
      }
      hide Inflow;
    }
  }

  /** The wait `acquire` sleeps for is exact: if nobody intervenes, trying again sends exactly when at
      least that long has passed. */
  lemma WaitIsExact(l: Local, r: Rates, i: Ideal, a: Attempt, threshold: nat, later: real)
    requires Positive(r) && r.globalBurst >= 1.0 && r.chatBurst >= 1.0
    requires Matches(l, r, i) && i.at <= a.now <= later && !Try(l, r, a, threshold).sent
    ensures Try(Try(l, r, a, threshold).limiter, r, Attempt(a.chat, later), threshold).sent
       <==> later - a.now >= Try(l, r, a, threshold).wait
  {
    hide Try, Matches, WaitOf, Grown;
    TryRefines(l, r, i, a, threshold);
    TryRefines(Try(l, r, a, threshold).limiter, r, After(r, i, a), Attempt(a.chat, later), threshold);
    LevelReaches(GlobalLevel(r, i, a.now), r.globalBurst, r.globalRate, later - a.now);
    LevelReaches(ChatLevel(r, i, a.chat, a.now), r.chatBurst, r.chatRate, later - a.now);
  }
}
