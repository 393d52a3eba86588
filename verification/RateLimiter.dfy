/** The in-process limiter as it runs: bucket objects refilled in place, a table of chats that grows
    on first use and is swept when it is large. */
module RateLimiter {
  import opened LimiterModel
  import L = LimiterLocal

  class TokenBucket {
    const capacity: real
    const rate: real
    var tokens: real
    var updatedAt: real

    constructor (capacity: real, rate: real, now: real)
      ensures this.capacity == capacity && this.rate == rate
      ensures State() == L.Bucket(capacity, now)
    {
      this.capacity, this.rate, tokens, updatedAt := capacity, rate, capacity, now;
    }

    function State(): L.Bucket
      reads this
    {
      L.Bucket(tokens, updatedAt)
    }

    method Refill(now: real)
      modifies this
      ensures State() == L.Refilled(old(State()), capacity, rate, now)
    {
      var elapsed := Max(0.0, now - updatedAt);
      tokens := Min(capacity, tokens + Inflow(rate, elapsed));
      updatedAt := now;
    }

    /** Seconds until one token exists. Does not consume anything. */
    method WaitFor(now: real) returns (wait: real)
      requires rate > 0.0
      modifies this
      ensures State() == L.Refilled(old(State()), capacity, rate, now)
      ensures wait == L.WaitOf(tokens, rate)
    {
      Refill(now);
      if tokens >= 1.0 {
        return 0.0;
      }
      wait := (1.0 - tokens) / rate;
    }

    method Take(now: real) returns (ok: bool)
      modifies this
      ensures var filled := L.Refilled(old(State()), capacity, rate, now);
              ok == (filled.tokens >= 1.0) && State() == if ok then filled.(tokens := filled.tokens - 1.0) else filled
    {
      Refill(now);
      if tokens < 1.0 {
        return false;
      }
      tokens := tokens - 1.0;
      ok := true;
    }
  }

  class LocalRateLimiter {
    const r: Rates
    const threshold: nat
    const global: TokenBucket
    var chats: map<nat, TokenBucket>

    /** Every bucket has its own object, with the rates of its kind. */
    ghost predicate Valid()
      reads this
    {
      && Positive(r) && global.capacity == r.globalBurst && global.rate == r.globalRate
      && (forall c | c in chats ::
            chats[c] != global && chats[c].capacity == r.chatBurst && chats[c].rate == r.chatRate)
      && (forall c, d | c in chats && d in chats && c != d :: chats[c] != chats[d])
    }

    ghost function View(): L.Local
      reads this, global, set c | c in chats :: chats[c]
    {
      L.Local(global.State(), map c | c in chats :: chats[c].State())
    }

    /** Buckets already in the table keep their object; the others are new. */
    twostate predicate Kept(was: map<nat, TokenBucket>)
      reads this
    {
      forall c | c in chats :: (c in was && chats[c] == was[c]) || fresh(chats[c])
    }

    constructor (r: Rates, threshold: nat, now: real)
      requires Positive(r)
      ensures Valid() && this.r == r && this.threshold == threshold && chats == map[]
      ensures fresh(global) && View() == L.New(r, now)
    {
      this.r, this.threshold := r, threshold;
      global := new TokenBucket(r.globalBurst, r.globalRate, now);
      chats := map[];
    }

    /** The chat's bucket, created full on first use. */
    method BucketFor(chat: nat, now: real) returns (b: TokenBucket)
      requires Valid()
      modifies this`chats
      ensures Valid() && chat in chats && chats[chat] == b
      ensures chats == old(chats)[chat := b] && (chat in old(chats) ==> b == old(chats)[chat])
      ensures (chat !in old(chats) ==> fresh(b))
      ensures b.State() == L.ChatBucket(old(View()), r, chat, now)
      ensures View() == old(View()).(chats := old(View()).chats[chat := b.State()])
    {
      if chat in chats {
        return chats[chat];
      }
      b := new TokenBucket(r.chatBurst, r.chatRate, now);
      chats := chats[chat := b];
    }

    /** Drop the buckets that would be full by now; only when there are many. */
    method EvictIdle(now: real, keep: nat)
      requires Valid()
      modifies this`chats
      ensures Valid() && View().global == old(View().global)
      ensures View().chats == L.Evicted(old(View().chats), r, now, keep, threshold)
      ensures forall c | c in chats :: c in old(chats) && chats[c] == old(chats[c])
    {
      hide L.Stale;
      ghost var was := View().chats;
      SameSize(chats, was);
      if |chats| <= threshold {
        return;
      }
      assert forall c | c in chats :: was[c] == chats[c].State();
      chats := map c | c in chats && (c == keep || !L.Stale(chats[c].State(), r, now)) :: chats[c];
    }

    /** Refill both buckets and see how long each would have to wait. */
    method PeekBoth(chat: nat, b: TokenBucket, now: real) returns (wait: real)
      requires Valid() && chat in chats && chats[chat] == b
      modifies global, b
      ensures Valid() && View().global == L.Refilled(old(View().global), r.globalBurst, r.globalRate, now)
      ensures View().chats == old(View().chats)[chat := L.Refilled(old(b.State()), r.chatBurst, r.chatRate, now)]
      ensures wait == Max(L.WaitOf(View().global.tokens, r.globalRate), L.WaitOf(b.tokens, r.chatRate))
    {
      hide L.Refilled, L.WaitOf;
      var globalWait := global.WaitFor(now);
      var chatWait := b.WaitFor(now);
      wait := Max(globalWait, chatWait);
    }

    /** Take from both buckets; the second only if the first had a token. */
    method TakeBoth(chat: nat, b: TokenBucket, now: real) returns (sent: bool)
      requires Valid() && chat in chats && chats[chat] == b
      requires global.updatedAt == b.updatedAt == now && 1.0 <= global.tokens <= r.globalBurst
      requires 1.0 <= b.tokens <= r.chatBurst
      modifies global, b
      ensures Valid() && sent && View().global == old(View().global).(tokens := old(global.tokens) - 1.0)
      ensures View().chats == old(View().chats)[chat := old(b.State()).(tokens := old(b.tokens) - 1.0)]
    {
      RefillTwice(global.State(), r.globalBurst, r.globalRate);
      RefillTwice(b.State(), r.chatBurst, r.chatRate);
      hide L.Refilled;
      var first := global.Take(now);
      sent := false;
      if first {
        sent := b.Take(now);
      }
    }

    /** Take both tokens, then drop what has become idle. */
    method Spend(chat: nat, b: TokenBucket, now: real) returns (sent: bool)
      requires Valid() && chat in chats && chats[chat] == b
      requires global.updatedAt == b.updatedAt == now && 1.0 <= global.tokens <= r.globalBurst
      requires 1.0 <= b.tokens <= r.chatBurst
      modifies this`chats, global, b
      ensures Valid() && sent
      ensures forall c | c in chats :: c in old(chats) && chats[c] == old(chats[c])
      ensures View().global == old(View().global).(tokens := old(global.tokens) - 1.0)
      ensures View().chats
           == L.Evicted(old(View().chats)[chat := old(b.State()).(tokens := old(b.tokens) - 1.0)], r, now, chat, threshold)
    {
      hide L.Evicted;
      sent := TakeBoth(chat, b, now);
      if sent {
        EvictIdle(now, chat);
      }
    }

    /** One pass through the critical section of `acquire`: peek both buckets, and take from both or
        from neither. */
    method TryAcquire(chat: nat, now: real) returns (wait: real, sent: bool)
      requires Valid()
      modifies this`chats, global, set c | c in chats :: chats[c]
      ensures Valid() && Kept(old(chats))
      ensures L.Reply(View(), wait, sent) == L.Try(old(View()), r, Attempt(chat, now), threshold)
    {
      hide L.Evicted, L.Refilled, L.WaitOf, L.Try, L.ChatBucket;
      ghost var was := View();
      var b := BucketFor(chat, now);
      ghost var found := b.State();
      ghost var g := L.Refilled(was.global, r.globalBurst, r.globalRate, now);
      ghost var c := L.Refilled(found, r.chatBurst, r.chatRate, now);
      RefilledBounds(was.global, r.globalBurst, r.globalRate, now);
      RefilledBounds(found, r.chatBurst, r.chatRate, now);
      L.WaitMeans(g.tokens, c.tokens, r);
      TryUnfolds(was, r, chat, now, threshold, g, c);
      wait := PeekBoth(chat, b, now);
      UpdateTwice(was.chats, chat, found, c);
      assert View().chats[chat] == b.State();
      assert View() == L.Local(g, was.chats[chat := c]) && global.State() == g && b.State() == c;
      sent := false;
      if wait <= 0.0 {
        UpdateTwice(was.chats, chat, c, c.(tokens := c.tokens - 1.0));
        sent := Spend(chat, b, now);
      }
    }

    /** Attempts of other coroutines, one critical section each. */
    method Others(attempts: seq<Attempt>)
      requires Valid()
      modifies this`chats, global, set c | c in chats :: chats[c]
      ensures Valid() && Kept(old(chats))
      ensures View() == L.RunLocal(old(View()), r, attempts, threshold)
    {
      hide L.Try, LocalRateLimiter.View;
      ghost var first := View();
      for k := 0 to |attempts|
        invariant Valid() && Kept(old(chats))
        invariant View() == L.RunLocal(first, r, attempts[..k], threshold)
      {
        var _, _ := TryAcquire(attempts[k].chat, attempts[k].now);
        assert attempts[..k + 1][..k] == attempts[..k];
      }
      assert attempts[..|attempts|] == attempts;
    }

    /** The retry loop. `clock` gives the time of every pass; sleeping is what passes between them, and
        before pass `k` other coroutines make the attempts `others(k)`. The call returns at its first
        pass that sends, with the seconds since it started. */
    method Acquire(chat: nat, started: real, clock: seq<real>, others: nat -> seq<Attempt>)
      returns (waited: real, tries: nat, sent: bool)
      requires Valid()
      modifies this`chats, global, set c | c in chats :: chats[c]
      ensures Valid() && tries <= |clock| && (sent ==> tries > 0) && (!sent ==> tries == |clock|)
      ensures View() == L.RunLocal(old(View()), r, Among(chat, clock[..tries], others), threshold)
      ensures forall k | 0 <= k < tries ::
                SendsAt(old(View()), r, chat, clock, others, k, threshold) <==> sent && k == tries - 1
      ensures sent ==> waited == Max(0.0, clock[tries - 1] - started)
    {
      hide L.Try, L.RunLocal, SendsAt, Among, LocalRateLimiter.View;
      ghost var first := View();
      NoneYet(first, r, chat, clock, others, threshold);
      tries, sent, waited := 0, false, 0.0;
      while tries < |clock|
        invariant Valid() && Kept(old(chats)) && tries <= |clock| && !sent
        invariant View() == L.RunLocal(first, r, Among(chat, clock[..tries], others), threshold)
        invariant forall k | 0 <= k < tries :: !SendsAt(first, r, chat, clock, others, k, threshold)
      {
        Others(others(tries));
        var now := clock[tries];
        var wait;
        wait, sent := TryAcquire(chat, now);
        OneMore(first, r, chat, clock, others, tries, threshold);
        tries := tries + 1;
        if sent {
          waited := Max(0.0, now - started);
          return;
        }
      }
    }
  }

  /** One chat's attempts at the given times, each after those that others make first. */
  function Among(chat: nat, times: seq<real>, others: nat -> seq<Attempt>): seq<Attempt> {
    if |times| == 0 then []
    else
      var k := |times| - 1;
      Among(chat, times[..k], others) + others(k) + [Attempt(chat, times[k])]
  }

  /** Is pass `k` answered with a send? */
  predicate SendsAt(l: L.Local, r: Rates, chat: nat, clock: seq<real>, others: nat -> seq<Attempt>, k: nat,
                    threshold: nat)
    requires Positive(r) && k < |clock|
  {
    var attempts := Among(chat, clock[..k + 1], others);
    L.LocalAnswers(l, r, attempts, threshold)[|attempts| - 1]
  }

  lemma {:induction false} RunConcat(l: L.Local, r: Rates, a: seq<Attempt>, b: seq<Attempt>, threshold: nat)
    requires Positive(r)
    ensures L.RunLocal(l, r, a + b, threshold) == L.RunLocal(L.RunLocal(l, r, a, threshold), r, b, threshold)
  {
    hide L.Try;
    if |b| == 0 {
      assert a + b == a;
    } else {
      RunConcat(l, r, a, b[..|b| - 1], threshold);
      assert (a + b)[..|a + b| - 1] == a + b[..|b| - 1];
    }
  }

  lemma NoneYet(l: L.Local, r: Rates, chat: nat, clock: seq<real>, others: nat -> seq<Attempt>, threshold: nat)
    requires Positive(r)
    ensures L.RunLocal(l, r, Among(chat, clock[..0], others), threshold) == l
  {
  }

  lemma OneMore(l: L.Local, r: Rates, chat: nat, clock: seq<real>, others: nat -> seq<Attempt>, k: nat, threshold: nat)
    requires Positive(r) && k < |clock|
    ensures var before := L.RunLocal(L.RunLocal(l, r, Among(chat, clock[..k], others), threshold), r, others(k), threshold);
            var reply := L.Try(before, r, Attempt(chat, clock[k]), threshold);
            && L.RunLocal(l, r, Among(chat, clock[..k + 1], others), threshold) == reply.limiter
            && (SendsAt(l, r, chat, clock, others, k, threshold) <==> reply.sent)
  {
    hide L.Try;
    assert clock[..k + 1][..k] == clock[..k];
    var earlier, all := Among(chat, clock[..k], others) + others(k), Among(chat, clock[..k + 1], others);
    assert all == earlier + [Attempt(chat, clock[k])];
    assert all[..|all| - 1] == earlier;
    RunConcat(l, r, Among(chat, clock[..k], others), others(k), threshold);
  }

  lemma TryUnfolds(l: L.Local, r: Rates, chat: nat, now: real, threshold: nat, g: L.Bucket, c: L.Bucket)
    requires Positive(r)
    requires g == L.Refilled(l.global, r.globalBurst, r.globalRate, now)
    requires c == L.Refilled(L.ChatBucket(l, r, chat, now), r.chatBurst, r.chatRate, now)
    ensures var wait := Max(L.WaitOf(g.tokens, r.globalRate), L.WaitOf(c.tokens, r.chatRate));
            var taken := l.chats[chat := c.(tokens := c.tokens - 1.0)];
            L.Try(l, r, Attempt(chat, now), threshold)
            == if wait > 0.0 then L.Reply(L.Local(g, l.chats[chat := c]), wait, false)
               else L.Reply(L.Local(g.(tokens := g.tokens - 1.0), L.Evicted(taken, r, now, chat, threshold)), wait, true)
  {
    hide L.Refilled, L.WaitOf, L.Evicted;
  }

  lemma UpdateTwice<V>(m: map<nat, V>, k: nat, a: V, b: V)
    ensures m[k := a][k := b] == m[k := b]
  {
  }

  lemma RefillTwice(b: L.Bucket, capacity: real, rate: real)
    requires b.tokens <= capacity
    ensures L.Refilled(b, capacity, rate, b.updatedAt) == b
  {
    assert Inflow(rate, 0.0) == 0.0;
  }

  lemma RefilledBounds(b: L.Bucket, capacity: real, rate: real, now: real)
    ensures L.Refilled(b, capacity, rate, now).tokens <= capacity && L.Refilled(b, capacity, rate, now).updatedAt == now
  {
    hide Inflow;
  }

  lemma SameSize<A, B>(a: map<nat, A>, b: map<nat, B>)
    requires a.Keys == b.Keys
    ensures |a| == |b|
  {
    assert |a.Keys| == |b.Keys|;
  }
}
