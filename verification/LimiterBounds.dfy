/** What the ideal limiter means for the messages that go out: a message goes out exactly when no window
    of time then holds more messages than the burst plus what the rate allows for its length. */
module LimiterBounds {
  import opened Wrappers
  import opened LimiterModel

  /** The messages sent in the window, to one chat or, with `None`, to anybody. */
  ghost function Sends(answers: seq<bool>, attempts: seq<Attempt>, who: Option<nat>, from: real, to: real): nat
    requires |answers| == |attempts|
  {
    |set k: nat | && k < |attempts| && answers[k] && (who.Some? ==> attempts[k].chat == who.value)
                  && from <= attempts[k].now <= to|
  }

  /** Does the attempt count, given its answer? */
  predicate Counts(answer: bool, a: Attempt, who: Option<nat>, from: real, to: real) {
    answer && (who.Some? ==> a.chat == who.value) && from <= a.now <= to
  }

  lemma SendsNext(answers: seq<bool>, attempts: seq<Attempt>, answer: bool, a: Attempt, who: Option<nat>, from: real,
                  to: real)
    requires |answers| == |attempts|
    ensures Sends(answers + [answer], attempts + [a], who, from, to)
         == Sends(answers, attempts, who, from, to) + if Counts(answer, a, who, from, to) then 1 else 0
  {
    var n, answers', attempts' := |attempts|, answers + [answer], attempts + [a];
    var few := set k: nat | && k < |attempts| && answers[k] && (who.Some? ==> attempts[k].chat == who.value)
                            && from <= attempts[k].now <= to;
    var all := set k: nat | && k < |attempts'| && answers'[k] && (who.Some? ==> attempts'[k].chat == who.value)
                            && from <= attempts'[k].now <= to;
    assert all == if Counts(answer, a, who, from, to) then few + {n} else few;
  }

  // ---- Either bucket ---------------------------------------------------------------------

  function BurstOf(r: Rates, who: Option<nat>): real {
    if who.None? then r.globalBurst else r.chatBurst
  }

  function RateOf(r: Rates, who: Option<nat>): real {
    if who.None? then r.globalRate else r.chatRate
  }

  function Level(i: Ideal, who: Option<nat>): real {
    if who.None? then i.global else i.chats(who.value)
  }

  /** The level at `now`. */
  function LevelAt(r: Rates, i: Ideal, who: Option<nat>, now: real): real {
    Grown(Level(i, who), BurstOf(r, who), RateOf(r, who), now - i.at)
  }

  /** An attempt spends one token of the bucket exactly when it sends and counts for it. */
  lemma LevelSpent(r: Rates, i: Ideal, a: Attempt, who: Option<nat>)
    ensures Level(After(r, i, a), who)
         == LevelAt(r, i, who, a.now) - if Counts(Allows(r, i, a), a, who, a.now, a.now) then 1.0 else 0.0
    ensures After(r, i, a).at == a.now
  {
    hide Grown;
  }

  lemma LevelBounds(r: Rates, start: real, attempts: seq<Attempt>, who: Option<nat>, now: real)
    requires Positive(r) && Ordered(attempts, start) && Before(attempts, start, |attempts|) <= now
    ensures var i := RunIdeal(r, Full(r, start), attempts);
            && i.at == Before(attempts, start, |attempts|)
            && 0.0 <= Level(i, who) <= BurstOf(r, who) && 0.0 <= LevelAt(r, i, who, now) <= BurstOf(r, who)
            && LevelAt(r, i, who, now) <= Level(i, who) + Inflow(RateOf(r, who), now - i.at)
            && (LevelAt(r, i, who, now) == Level(i, who) + Inflow(RateOf(r, who), now - i.at)
                || (LevelAt(r, i, who, now) == BurstOf(r, who) && i.at < now))
  {
    RunWithin(r, start, attempts);
    hide Ordered, Before, RunIdeal, Full;
    var i := RunIdeal(r, Full(r, start), attempts);
    assert 0.0 <= Level(i, who) <= BurstOf(r, who);
    GrownWithin(Level(i, who), BurstOf(r, who), RateOf(r, who), now - i.at);
    InflowIs(RateOf(r, who), 0.0);
    hide Inflow;
  }

  // ---- A run, one attempt at a time ------------------------------------------------------

  /** No attempt is later than the last one. */
  lemma {:induction false} NoneLater(attempts: seq<Attempt>, start: real, k: nat)
    requires Ordered(attempts, start) && k < |attempts|
    ensures attempts[k].now <= Before(attempts, start, |attempts|)
    decreases |attempts|
  {
    if k < |attempts| - 1 {
      OrderedInit(attempts, start);
      NoneLater(attempts[..|attempts| - 1], start, k);
    }
  }

  lemma NothingAfterLast(answers: seq<bool>, attempts: seq<Attempt>, start: real, who: Option<nat>, from: real,
                         to: real)
    requires |answers| == |attempts| && Ordered(attempts, start)
    ensures var last := Before(attempts, start, |attempts|);
            && (from > last ==> Sends(answers, attempts, who, from, to) == 0)
            && (to >= last ==> Sends(answers, attempts, who, from, to) == Sends(answers, attempts, who, from, last))
  {
    var last := Before(attempts, start, |attempts|);
    forall k: nat | k < |attempts|
      ensures attempts[k].now <= last
    {
      NoneLater(attempts, start, k);
    }
    var some := set k: nat | && k < |attempts| && answers[k] && (who.Some? ==> attempts[k].chat == who.value)
                             && from <= attempts[k].now <= to;
    if from > last {
      assert some == {};
    }
    if to >= last {
      assert some == set k: nat | && k < |attempts| && answers[k] && (who.Some? ==> attempts[k].chat == who.value)
                                  && from <= attempts[k].now <= last;
    }
  }

  /** What the last attempt of a run adds. */
  lemma LastAdds(r: Rates, start: real, attempts: seq<Attempt>, who: Option<nat>, from: real)
    requires Positive(r) && Ordered(attempts, start) && |attempts| > 0 && from <= attempts[|attempts| - 1].now
    ensures var init, a := attempts[..|attempts| - 1], attempts[|attempts| - 1];
            var before, i := RunIdeal(r, Full(r, start), init), RunIdeal(r, Full(r, start), attempts);
            && Ordered(init, start) && Before(init, start, |init|) <= a.now && i.at == a.now
            && Sends(Answers(r, Full(r, start), attempts), attempts, who, from, a.now) as real + Level(i, who)
               == Sends(Answers(r, Full(r, start), init), init, who, from, a.now) as real
                  + LevelAt(r, before, who, a.now)
  {
    var init, a := attempts[..|attempts| - 1], attempts[|attempts| - 1];
    var before := RunIdeal(r, Full(r, start), init);
    OrderedInit(attempts, start);
    assert Before(init, start, |init|) == Before(attempts, start, |init|);
    LevelSpent(r, before, a, who);
    SendsNext(Answers(r, Full(r, start), init), init, Allows(r, before, a), a, who, from, a.now);
    assert attempts == init + [a];
    hide Sends, Allows, Level, LevelAt, After, Ordered;
  }

  // ---- Never too many, and never too few -------------------------------------------------

  /** Inflow up to `at` and from then on is inflow all along. */
  lemma InflowSplits(rate: real, from: real, at: real, now: real)
    ensures Inflow(rate, at - from) + Inflow(rate, now - at) == Inflow(rate, now - from)
  {
    InflowAdds(rate, at - from, now - at);
    assert (at - from) + (now - at) == now - from;
    hide Inflow;
  }

  /** What was sent in the window up to now, and what is left in the bucket. */
  ghost function Held(r: Rates, start: real, attempts: seq<Attempt>, who: Option<nat>, from: real, now: real): real {
    Sends(Answers(r, Full(r, start), attempts), attempts, who, from, now) as real
    + LevelAt(r, RunIdeal(r, Full(r, start), attempts), who, now)
  }

  /** Before the first attempt nothing was sent, and both levels are full. */
  lemma HeldAtFirst(r: Rates, start: real, who: Option<nat>, from: real, now: real)
    requires Positive(r) && start <= now
    ensures Held(r, start, [], who, from, now) == BurstOf(r, who)
  {
    FullStaysFull(BurstOf(r, who), RateOf(r, who), now - start);
    hide Grown;
    NoneSent(who, from, now);
  }

  lemma NoneSent(who: Option<nat>, from: real, to: real)
    ensures Sends([], [], who, from, to) == 0
  {
  }

  /** In a window that opened after the last attempt nothing was sent. */
  lemma HeldAfterLast(r: Rates, start: real, attempts: seq<Attempt>, who: Option<nat>, from: real, now: real)
    requires Positive(r) && Ordered(attempts, start) && Before(attempts, start, |attempts|) < from <= now
    ensures Held(r, start, attempts, who, from, now) == LevelAt(r, RunIdeal(r, Full(r, start), attempts), who, now)
    ensures Held(r, start, attempts, who, from, now) <= BurstOf(r, who)
  {
    hide Sends, LevelAt, Level, RunIdeal, Answers, Ordered, Before;
    LevelBounds(r, start, attempts, who, now);
    NothingAfterLast(Answers(r, Full(r, start), attempts), attempts, start, who, from, now);
  }

  /** Since the last attempt, what is held has grown by the inflow, unless the bucket is full. */
  lemma HeldSinceLast(r: Rates, start: real, attempts: seq<Attempt>, who: Option<nat>, from: real, now: real)
    requires Positive(r) && Ordered(attempts, start) && attempts != []
    requires from <= attempts[|attempts| - 1].now <= now
    ensures var init, last := attempts[..|attempts| - 1], attempts[|attempts| - 1].now;
            var most := Held(r, start, init, who, from, last) + Inflow(RateOf(r, who), now - last);
            && Ordered(init, start) && Before(init, start, |init|) <= last
            && Held(r, start, attempts, who, from, now) <= most
            && (Held(r, start, attempts, who, from, now) == most
                || (last < now && LevelAt(r, RunIdeal(r, Full(r, start), attempts), who, now) == BurstOf(r, who)))
  {
    LastTime(attempts, start);
    hide Sends, LevelAt, Level, RunIdeal, Answers, Ordered, Before, Inflow;
    LevelBounds(r, start, attempts, who, now);
    NothingAfterLast(Answers(r, Full(r, start), attempts), attempts, start, who, from, now);
    LastAdds(r, start, attempts, who, from);
  }

  /** What was sent in a window up to now, and what is left, never exceed burst and inflow. */
  lemma {:induction false} AtMost(r: Rates, start: real, attempts: seq<Attempt>, who: Option<nat>, from: real,
                                  now: real)
    requires Positive(r) && Ordered(attempts, start) && from <= now && Before(attempts, start, |attempts|) <= now
    ensures Held(r, start, attempts, who, from, now) <= BurstOf(r, who) + Inflow(RateOf(r, who), now - from)
    decreases |attempts|
  {
    LastTime(attempts, start);
    RatesPositive(r, who);
    hide *;
    InflowNonNegative(RateOf(r, who), now - from);
    if attempts == [] {
      HeldAtFirst(r, start, who, from, now);
    } else if attempts[|attempts| - 1].now < from {
      HeldAfterLast(r, start, attempts, who, from, now);
    } else {
      var last := attempts[|attempts| - 1].now;
      HeldSinceLast(r, start, attempts, who, from, now);
      AtMost(r, start, attempts[..|attempts| - 1], who, from, last);
      InflowSplits(RateOf(r, who), from, last, now);
    }
  }

  lemma RatesPositive(r: Rates, who: Option<nat>)
    requires Positive(r)
    ensures RateOf(r, who) > 0.0 && BurstOf(r, who) >= 0.0
  {
  }

  lemma LastTime(attempts: seq<Attempt>, start: real)
    ensures Before(attempts, start, |attempts|) == if attempts == [] then start else attempts[|attempts| - 1].now
  {
  }

  /** And in some window up to now they are exactly that. */
  lemma {:induction false} AttainedFrom(r: Rates, start: real, attempts: seq<Attempt>, who: Option<nat>, now: real)
    returns (from: real)
    requires Positive(r) && Ordered(attempts, start) && Before(attempts, start, |attempts|) <= now
    ensures from <= now
    ensures Held(r, start, attempts, who, from, now) == BurstOf(r, who) + Inflow(RateOf(r, who), now - from)
    decreases |attempts|
  {
    LastTime(attempts, start);
    InflowIs(RateOf(r, who), 0.0);
    hide *;
    if attempts == [] {
      from := now;
      HeldAtFirst(r, start, who, from, now);
    } else {
      var last := attempts[|attempts| - 1].now;
      OrderedInit(attempts, start);
      InitBefore(attempts, start);
      from := AttainedFrom(r, start, attempts[..|attempts| - 1], who, last);
      HeldSinceLast(r, start, attempts, who, from, now);
      InflowSplits(RateOf(r, who), from, last, now);
      if Held(r, start, attempts, who, from, now) != BurstOf(r, who) + Inflow(RateOf(r, who), now - from) {
        from := now;
        HeldAfterLast(r, start, attempts, who, from, now);
      }
    }
  }

  lemma InitBefore(attempts: seq<Attempt>, start: real)
    requires Ordered(attempts, start) && attempts != []
    ensures var init := attempts[..|attempts| - 1]; Before(init, start, |init|) <= attempts[|attempts| - 1].now
  {
    var init := attempts[..|attempts| - 1];
    assert Before(init, start, |init|) == Before(attempts, start, |init|);
  }

  /** The window from `from` to now has room for one more message. */
  ghost predicate Room(answers: seq<bool>, attempts: seq<Attempt>, who: Option<nat>, burst: real, rate: real,
                       from: real,
                       now: real)
    requires |answers| == |attempts|
  {
    Sends(answers, attempts, who, from, now) as real + 1.0 <= burst + rate * (now - from)
  }

  lemma RoomIs(r: Rates, start: real, attempts: seq<Attempt>, who: Option<nat>, from: real, now: real)
    ensures Room(Answers(r, Full(r, start), attempts), attempts, who, BurstOf(r, who), RateOf(r, who), from, now)
       <==> Held(r, start, attempts, who, from, now) - LevelAt(r, RunIdeal(r, Full(r, start), attempts), who, now) + 1.0
            <= BurstOf(r, who) + Inflow(RateOf(r, who), now - from)
  {
    InflowIs(RateOf(r, who), now - from);
    hide Sends, LevelAt, RunIdeal, Answers, Inflow;
  }

  /** The level of a bucket has reached one exactly when every window up to now has room. */
  lemma LevelIsRoom(r: Rates, start: real, attempts: seq<Attempt>, who: Option<nat>, now: real)
    requires Positive(r) && Ordered(attempts, start) && Before(attempts, start, |attempts|) <= now
    ensures var answers := Answers(r, Full(r, start), attempts);
            LevelAt(r, RunIdeal(r, Full(r, start), attempts), who, now) >= 1.0
            <==> forall from: real | from <= now ::
                   Room(answers, attempts, who, BurstOf(r, who), RateOf(r, who), from, now)
  {
    hide *;
    var tight := AttainedFrom(r, start, attempts, who, now);
    RoomIs(r, start, attempts, who, tight, now);
    forall from: real | from <= now && LevelAt(r, RunIdeal(r, Full(r, start), attempts), who, now) >= 1.0
      ensures Room(Answers(r, Full(r, start), attempts), attempts, who, BurstOf(r, who), RateOf(r, who), from, now)
    {
      AtMost(r, start, attempts, who, from, now);
      RoomIs(r, start, attempts, who, from, now);
    }
  }

  lemma {:induction false} AnswersPrefix(r: Rates, i: Ideal, attempts: seq<Attempt>, k: nat)
    requires k < |attempts|
    ensures Answers(r, i, attempts)[..k] == Answers(r, i, attempts[..k])
    ensures Answers(r, i, attempts)[k] == Allows(r, RunIdeal(r, i, attempts[..k]), attempts[k])
    decreases |attempts|
  {
    hide Allows, RunIdeal;
    if k < |attempts| - 1 {
      AnswersPrefix(r, i, attempts[..|attempts| - 1], k);
      assert attempts[..|attempts| - 1][..k] == attempts[..k];
    }
  }

  lemma OrderedPrefix(attempts: seq<Attempt>, start: real, k: nat)
    requires Ordered(attempts, start) && k < |attempts|
    ensures Ordered(attempts[..k], start) && Before(attempts[..k], start, k) <= attempts[k].now
  {
    assert forall j | 0 <= j < k :: Before(attempts[..k], start, j) == Before(attempts, start, j);
    assert Before(attempts[..k], start, k) == Before(attempts, start, k);
  }

  /** The limiter sends as much as the bounds allow and no more: an attempt sends exactly when, counting
      it, no window that ends with it holds more messages than burst + rate * length, neither to its
      chat nor to all chats together. */
  lemma SendsExactlyWhen(r: Rates, start: real, attempts: seq<Attempt>, k: nat)
    requires Positive(r) && Ordered(attempts, start) && k < |attempts|
    ensures var answers, a := Answers(r, Full(r, start), attempts), attempts[k];
            answers[k] <==> forall from: real | from <= a.now ::
                              && Room(answers[..k], attempts[..k], None, r.globalBurst, r.globalRate, from, a.now)
                              && Room(answers[..k], attempts[..k], Some(a.chat), r.chatBurst, r.chatRate, from, a.now)
  {
    AnswersPrefix(r, Full(r, start), attempts, k);
    OrderedPrefix(attempts, start, k);
    LevelIsRoom(r, start, attempts[..k], None, attempts[k].now);
    LevelIsRoom(r, start, attempts[..k], Some(attempts[k].chat), attempts[k].now);
    hide Room, RunIdeal, Answers, Ordered, Before, Grown;
  }

  /** In every window of length `length`, at most burst + rate * length messages go to one chat, and at
      most burst + rate * length to all chats together. */
  lemma {:induction false} WindowBound(r: Rates, start: real, attempts: seq<Attempt>, who: Option<nat>, from: real,
                                       length: real)
    requires Positive(r) && Ordered(attempts, start) && length >= 0.0
    ensures Sends(Answers(r, Full(r, start), attempts), attempts, who, from, from + length) as real
         <= (if who.None? then r.globalBurst + r.globalRate * length else r.chatBurst + r.chatRate * length)
    decreases |attempts|
  {
    hide Sends, Counts, Level, LevelAt, RunIdeal, Allows, Ordered;
    InflowNonNegative(RateOf(r, who), length);
    assert (from + length) - from == length;
    if Before(attempts, start, |attempts|) <= from + length {
      hide Answers, Inflow;
      AtMost(r, start, attempts, who, from, from + length);
      LevelBounds(r, start, attempts, who, from + length);
      InflowIs(RateOf(r, who), length);
    } else if |attempts| == 0 {
      NoneSent(who, from, from + length);
      InflowIs(RateOf(r, who), length);
    } else {
      var init, a := attempts[..|attempts| - 1], attempts[|attempts| - 1];
      OrderedInit(attempts, start);
      WindowBound(r, start, init, who, from, length);
      LastCounts(r, start, attempts, who, from, from + length);
    }
  }

  lemma InflowIs(rate: real, elapsed: real)
    ensures Inflow(rate, elapsed) == rate * elapsed
  {
  }

  /** An attempt after the end of the window does not count. */
  lemma LastCounts(r: Rates, start: real, attempts: seq<Attempt>, who: Option<nat>, from: real, to: real)
    requires |attempts| > 0 && attempts[|attempts| - 1].now > to
    ensures var init := attempts[..|attempts| - 1];
            Sends(Answers(r, Full(r, start), attempts), attempts, who, from, to)
            == Sends(Answers(r, Full(r, start), init), init, who, from, to)
  {
    hide Sends, Allows, RunIdeal;
    var init, a := attempts[..|attempts| - 1], attempts[|attempts| - 1];
    SendsNext(Answers(r, Full(r, start), init), init, Allows(r, RunIdeal(r, Full(r, start), init), a), a, who, from,
              to);
    assert attempts == init + [a];
  }
}
