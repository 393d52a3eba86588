/** A step taken apart: the course it takes, where the verification of its span ends, and which of
    the headers served to it become canonical. All of it is read off the store before the step, the
    settings and the answers the step asks for. */
module WalkerScan {
  import opened Wrappers
  import opened WalkerModel

  // ---- One insert ------------------------------------------------------------------------

  /** The guard of an insert that takes effect: the hash is new, or already canonical at this very
      height, or orphaned rows are revived. */
  predicate Lands(s: Store, n: int, h: Header, revives: bool) {
    revives || !Known(s, h.hash) || Landed(s, n, h)
  }

  /** An insert that is not refused makes its header canonical exactly when the guard holds. */
  lemma InsertLands(s: Store, n: int, h: Header, revives: bool)
    requires !Clashes(s, n, h, revives)
    ensures Landed(Inserted(s, n, h, revives), n, h) <==> Lands(s, n, h, revives)
    ensures var s' := Inserted(s, n, h, revives);
            && s'.checkpoint == s.checkpoint && s'.filtered == s.filtered
            && forall k | k != n ::
                 (k in s'.canonical <==> k in s.canonical) && (k in s.canonical ==> s'.canonical[k] == s.canonical[k])
  {
  }

  // ---- Phase one -------------------------------------------------------------------------

  /** How the verification of a span ends, having inserted the headers of the heights below `height`. */
  datatype Scan =
    | Completed(store: Store, tick: nat, height: int)
    | Stopped(store: Store, height: int)
    | TurnedBack(store: Store, tick: nat, from: int, height: int)

  function ScanFrom(s: Store, env: Env, t: nat, n: int, target: int, revives: bool): Scan
    decreases target + 1 - n
  {
    if n > target then Completed(s, t, n)
    else
      match env.block(t, n)
      case Got(h) =>
        var from := CheckParent(s, n, h);
        if from.Some? then TurnedBack(s, t + 1, from.value, n)
        else if !env.ok(t + 1) || Clashes(s, n, h, revives) then Stopped(s, n)
        else ScanFrom(Inserted(s, n, h, revives), env, t + 2, n + 1, target, revives)
      case _ => Stopped(s, n)
  }

  /** Every header inserted at a height greater than `above` lands. */
  predicate SpanLands(s: Store, env: Env, t: nat, n: int, target: int, above: int, revives: bool)
    decreases target + 1 - n
  {
    n <= target && env.block(t, n).Got? ==>
      var h := env.block(t, n).header;
      CheckParent(s, n, h).None? && env.ok(t + 1) && !Clashes(s, n, h, revives) ==>
        && (n > above ==> Lands(s, n, h, revives))
        && SpanLands(Inserted(s, n, h, revives), env, t + 2, n + 1, target, above, revives)
  }

  /** What a span that asks for height `n` at call `t` is answered for height `k`, two calls a height. */
  function Served(env: Env, t: nat, n: int, k: int): Reply {
    if k < n then RpcFailed else env.block(t + 2 * (k - n), k)
  }

  lemma ServedNext(env: Env, t: nat, n: int)
    ensures forall k | n < k :: Served(env, t, n, k) == Served(env, t + 2, n + 1, k)
  {
  }

  /** The hashes served for the heights from `n` up to `stop`. */
  function Hashes(env: Env, t: nat, n: int, stop: int): map<int, Hash> {
    map k | n <= k < stop && Served(env, t, n, k).Got? :: Served(env, t, n, k).header.hash
  }

  lemma NextHashes(env: Env, t: nat, n: int, stop: int, headers: map<int, Hash>)
    requires n < stop && env.block(t, n).Got?
    ensures headers[n := env.block(t, n).header.hash] + Hashes(env, t + 2, n + 1, stop)
         == headers + Hashes(env, t, n, stop)
  {
    ServedNext(env, t, n);
    assert Served(env, t, n, n) == env.block(t, n);
    hide Served;
  }

  lemma NoHashes(env: Env, t: nat, n: int, headers: map<int, Hash>)
    ensures headers + Hashes(env, t, n, n) == headers
  {
  }

  /** A walk is its scan and what follows from how the scan ended. */
  lemma {:induction false} WalkIs(s: Store, env: Env, t: nat, n: int, target: int, headers: map<int, Hash>,
                                  cfg: Settings, revives: bool,
                                  landed: bool, above: int)
    requires above < n <= target + 1
    ensures var r := Walk(s, env, t, n, target, headers, cfg, revives, landed);
            && (r.landed <==> landed && SpanLands(s, env, t, n, target, above, revives))
            && match ScanFrom(s, env, t, n, target, revives)
               case Stopped(s', _) => r == StepResult(s', Failed, r.landed, None)
               case TurnedBack(s', t', from, _) => r == RollBack(s', env, t', from, cfg, r.landed)
               case Completed(s', t', _) => r == Finish(s', env, t', target, headers + Hashes(env, t, n, target + 1), r.landed)
    decreases target + 1 - n
  {
    hide Inserted, Clashes, CheckParent, Landed, Lands, Hashes, RollBack, Finish;
    if n > target {
      NoHashes(env, t, n, headers);
      FinishLanded(s, env, t, target, headers, landed);
    } else if env.block(t, n).Got? {
      var h := env.block(t, n).header;
      NextHashes(env, t, n, target + 1, headers);
      if CheckParent(s, n, h).Some? {
        RollBackLanded(s, env, t + 1, CheckParent(s, n, h).value, cfg, landed);
      } else if env.ok(t + 1) && !Clashes(s, n, h, revives) {
        InsertLands(s, n, h, revives);
        var s' := Inserted(s, n, h, revives);
        WalkIs(s', env, t + 2, n + 1, target, headers[n := h.hash], cfg, revives, landed && Landed(s', n, h), above);
      }
    }
  }

  lemma FinishLanded(s: Store, env: Env, t: nat, target: int, headers: map<int, Hash>, landed: bool)
    ensures Finish(s, env, t, target, headers, landed).landed == landed
  {
    hide Recorded;
  }

  lemma RollBackLanded(s: Store, env: Env, t: nat, from: int, cfg: Settings, landed: bool)
    ensures RollBack(s, env, t, from, cfg, landed).landed == landed
  {
    hide FindAncestor, OrphanedAbove;
  }

  /** A scan writes nothing but canonical blocks at its own heights. */
  lemma {:induction false} ScanTouches(s: Store, env: Env, t: nat, n: int, target: int, revives: bool)
    requires n <= target + 1
    ensures var r := ScanFrom(s, env, t, n, target, revives);
            && n <= r.height <= target + 1 && (r.Completed? ==> r.height == target + 1) && (r.TurnedBack? ==> r.from >= n - 1)
            && r.store.checkpoint == s.checkpoint && r.store.filtered == s.filtered
            && forall k | k < n ::
                 (k in r.store.canonical <==> k in s.canonical) && (k in s.canonical ==> r.store.canonical[k] == s.canonical[k])
    decreases target + 1 - n
  {
    hide Inserted, Clashes, Lands, Landed;
    if n <= target && env.block(t, n).Got? {
      var h := env.block(t, n).header;
      if CheckParent(s, n, h).None? && env.ok(t + 1) && !Clashes(s, n, h, revives) {
        hide CheckParent;
        InsertLands(s, n, h, revives);
        ScanTouches(Inserted(s, n, h, revives), env, t + 2, n + 1, target, revives);
      }
    }
  }

  /** Once a span is verified to its end, its headers above `above` have landed exactly when each of
      those heights holds the block its logs were filtered against. */
  lemma {:induction false} CompletedLands(s: Store, env: Env, t: nat, n: int, target: int, above: int, revives: bool)
    requires n <= target + 1 && ScanFrom(s, env, t, n, target, revives).Completed?
    ensures var s', hashes := ScanFrom(s, env, t, n, target, revives).store, Hashes(env, t, n, target + 1);
            && (forall m :: m in hashes <==> n <= m <= target)
            && (SpanLands(s, env, t, n, target, above, revives)
                <==> forall m | n <= m <= target && m > above :: m in s'.canonical && s'.canonical[m].hash == hashes[m])
    decreases target + 1 - n
  {
    hide Inserted, Clashes, CheckParent, Lands, Hashes;
    if n > target {
      NoHashes(env, t, n, map[]);
      NoneBefore(env, t, n, target + 1);
    } else {
      var h := env.block(t, n).header;
      InsertLands(s, n, h, revives);
      var s1 := Inserted(s, n, h, revives);
      CompletedLands(s1, env, t + 2, n + 1, target, above, revives);
      ScanTouches(s1, env, t + 2, n + 1, target, revives);
      NextHashes(env, t, n, target + 1, map[]);
      var hashes := Hashes(env, t, n, target + 1);
      assert hashes == map[n := h.hash] + Hashes(env, t + 2, n + 1, target + 1) by {
        assert map[] + hashes == hashes;
      }
    }
  }

  lemma NoneBefore(env: Env, t: nat, n: int, stop: int)
    ensures forall m | m in Hashes(env, t, n, stop) :: n <= m < stop
  {
  }

  // ---- Which answers land ----------------------------------------------------------------

  predicate Holds(hashes: map<int, Hash>, hash: Hash) {
    exists k | k in hashes :: hashes[k] == hash
  }

  /** The header served for height `m` of a span from `n` on is new to the store and to the span, or
      canonical at `m` already. */
  ghost predicate FreshAt(s: Store, env: Env, t: nat, n: int, m: int) {
    && Served(env, t, n, m).Got?
    && var h := Served(env, t, n, m).header;
       || Landed(s, m, h)
       || (!Known(s, h.hash) && !Holds(Hashes(env, t, n, m), h.hash))
  }

  lemma FreshNext(s: Store, env: Env, t: nat, n: int, m: int)
    requires n < m && env.block(t, n).Got? && !Clashes(s, n, env.block(t, n).header, false)
    ensures FreshAt(s, env, t, n, m) <==> FreshAt(Inserted(s, n, env.block(t, n).header, false), env, t + 2, n + 1, m)
  {
    var h := env.block(t, n).header;
    var s1 := Inserted(s, n, h, false);
    ServedNext(env, t, n);
    NextHashes(env, t, n, m, map[]);
    var hashes, rest := Hashes(env, t, n, m), Hashes(env, t + 2, n + 1, m);
    assert hashes == map[n := h.hash] + rest by {
      assert map[] + hashes == hashes;
    }
    NoneBefore(env, t + 2, n + 1, m);
    HoldsAfter(rest, n, h.hash);
    KnownAfter(s, n, h);
    InsertLands(s, n, h, false);
    assert forall h' :: Landed(s, m, h') <==> Landed(s1, m, h');
    hide Hashes, Served, Holds, Inserted, Known, Landed, Clashes, Lands;
  }

  lemma HoldsAfter(rest: map<int, Hash>, n: int, hash: Hash)
    requires n !in rest
    ensures forall x :: Holds(map[n := hash] + rest, x) <==> x == hash || Holds(rest, x)
  {
    var all := map[n := hash] + rest;
    assert all[n] == hash;
    forall x
      ensures Holds(all, x) <==> x == hash || Holds(rest, x)
    {
      if Holds(rest, x) {
        var k :| k in rest && rest[k] == x;
        assert all[k] == x;
      }
    }
  }

  lemma KnownAfter(s: Store, n: int, h: Header)
    requires !Clashes(s, n, h, false)
    ensures forall hash :: Known(Inserted(s, n, h, false), hash) <==> Known(s, hash) || hash == h.hash
  {
    var s1 := Inserted(s, n, h, false);
    if !Known(s, h.hash) {
      assert s1.canonical == s.canonical[n := h];
      assert s1.canonical[n].hash == h.hash;
      forall hash
        ensures HasCanonicalHash(s1, hash) <==> HasCanonicalHash(s, hash) || hash == h.hash
      {
        if HasCanonicalHash(s, hash) {
          var k :| k in s.canonical && s.canonical[k].hash == hash;
          assert k in s1.canonical && s1.canonical[k].hash == hash;
        }
      }
    }
  }

  ghost predicate AllFresh(s: Store, env: Env, t: nat, n: int, stop: int) {
    forall m | n <= m < stop :: FreshAt(s, env, t, n, m)
  }

  lemma AllFreshNext(s: Store, env: Env, t: nat, n: int, stop: int, s1: Store, t1: nat, n1: int)
    requires n < stop && t1 == t + 2 && n1 == n + 1 && env.block(t, n).Got?
    requires var h := env.block(t, n).header;
             !Clashes(s, n, h, false) && Lands(s, n, h, false) && s1 == Inserted(s, n, h, false)
    ensures AllFresh(s, env, t, n, stop) <==> AllFresh(s1, env, t1, n1, stop)
  {
    NothingServedYet(s, env, t, n);
    hide FreshAt, Lands, Inserted, Clashes;
    forall m | n < m
      ensures FreshAt(s, env, t, n, m) <==> FreshAt(s1, env, t1, n1, m)
    {
      FreshNext(s, env, t, n, m);
    }
  }

  /** As shipped: every insert of a span lands exactly when every header the span got to insert was
      fresh, as judged before the step. */
  lemma {:induction false} FreshExactly(s: Store, env: Env, t: nat, n: int, target: int, above: int)
    requires above < n <= target + 1
    ensures SpanLands(s, env, t, n, target, above, false)
       <==> AllFresh(s, env, t, n, ScanFrom(s, env, t, n, target, false).height)
    decreases target + 1 - n
  {
    hide Inserted, Clashes, CheckParent, FreshAt, Lands;
    if n <= target && env.block(t, n).Got? {
      var h := env.block(t, n).header;
      if CheckParent(s, n, h).None? && env.ok(t + 1) && !Clashes(s, n, h, false) {
        var s1 := Inserted(s, n, h, false);
        ScanTouches(s1, env, t + 2, n + 1, target, false);
        NothingServedYet(s, env, t, n);
        if Lands(s, n, h, false) {
          FreshExactly(s1, env, t + 2, n + 1, target, above);
          AllFreshNext(s, env, t, n, ScanFrom(s, env, t, n, target, false).height, s1, t + 2, n + 1);
        }
      }
    }
  }

  lemma NothingServedYet(s: Store, env: Env, t: nat, n: int)
    requires env.block(t, n).Got?
    ensures FreshAt(s, env, t, n, n) <==> Lands(s, n, env.block(t, n).header, false)
  {
    assert Hashes(env, t, n, n) == map[];
  }

  /** If inserting revives orphaned rows, every insert lands. */
  lemma {:induction false} RevivingLands(s: Store, env: Env, t: nat, n: int, target: int, above: int)
    ensures SpanLands(s, env, t, n, target, above, true)
    decreases target + 1 - n
  {
    hide Inserted, Clashes, CheckParent;
    if n <= target && env.block(t, n).Got? {
      RevivingLands(Inserted(s, n, env.block(t, n).header, true), env, t + 2, n + 1, target, above);
    }
  }

  // ---- The course of a step --------------------------------------------------------------

  /** A step that changes nothing, one that finds the tip replaced, or one that walks on from `start` to
      `target`, its first header being asked for at call `tick`. The start is the checkpoint if that
      is positive, and derived from the head otherwise. */
  datatype Course = Stays | Diverged(latest: int) | Walks(tick: nat, start: int, target: int)

  function Onward(s: Store, t: nat, head: int, cfg: Settings): Course {
    var start := EffectiveCheckpoint(s, head, cfg);
    var target := Target(head, start, cfg);
    if start >= head || target <= start then Stays else Walks(t, start, target)
  }

  ghost function CourseOf(s: Store, env: Env, cfg: Settings): (course: Course)
    ensures course.Walks? ==> s.checkpoint <= course.start < course.target
    ensures course.Walks? && s.checkpoint > 0 ==> course.start == s.checkpoint
  {
    if env.head.None? || !env.ok(0) then Stays
    else
      var latest := Highest(s.canonical.Keys);
      if latest.None? then Onward(s, 1, env.head.value, cfg)
      else
        match env.block(1, latest.value)
        case RpcFailed => Onward(s, 2, env.head.value, cfg)
        case Unusable => Stays
        case Got(h) =>
          if h.hash == s.canonical[latest.value].hash then Onward(s, 2, env.head.value, cfg) else Diverged(latest.value)
  }

  lemma StepIs(s: Store, env: Env, cfg: Settings, revives: bool)
    ensures var r := Step(s, env, cfg, revives);
            match CourseOf(s, env, cfg)
            case Stays => r.store == s && r.landed && r.rollback.None?
            case Diverged(latest) => latest in s.canonical && r == RollBack(s, env, 2, latest, cfg, true)
            case Walks(t, start, target) => r == Walk(s, env, t, start + 1, target, map[], cfg, revives, true)
  {
    hide Walk, RollBack;
  }

  /** Every header the step inserts lands. */
  ghost predicate StepLands(s: Store, env: Env, cfg: Settings, revives: bool) {
    var course := CourseOf(s, env, cfg);
    course.Walks? ==> SpanLands(s, env, course.tick, course.start + 1, course.target, course.start, revives)
  }

  /** As shipped: whatever the step gets to insert is fresh. Only answers to calls the step makes are
      looked at. */
  ghost predicate AnswersFresh(s: Store, env: Env, cfg: Settings) {
    var course := CourseOf(s, env, cfg);
    course.Walks? ==>
      var first := course.start + 1;
      AllFresh(s, env, course.tick, first, ScanFrom(s, env, course.tick, first, course.target, false).height)
  }

  /** When exactly all inserts of a step land: always if inserting revives; as shipped, exactly when
      every header it got to insert was fresh. */
  lemma StepLandsExactly(s: Store, env: Env, cfg: Settings, revives: bool)
    ensures Step(s, env, cfg, revives).landed <==> StepLands(s, env, cfg, revives)
    ensures StepLands(s, env, cfg, revives) <==> revives || AnswersFresh(s, env, cfg)
  {
    hide Step, Walk, FindAncestor, SpanLands, ScanFrom, FreshAt, CourseOf;
    StepIs(s, env, cfg, revives);
    var course := CourseOf(s, env, cfg);
    if course.Walks? {
      var first := course.start + 1;
      WalkIs(s, env, course.tick, first, course.target, map[], cfg, revives, true, course.start);
      RevivingLands(s, env, course.tick, first, course.target, course.start);
      FreshExactly(s, env, course.tick, first, course.target, course.start);
    }
  }

  // ---- How far a step goes ---------------------------------------------------------------

  lemma RollBackNeverAdvances(s: Store, env: Env, t: nat, from: int, cfg: Settings, landed: bool)
    ensures var verdict := RollBack(s, env, t, from, cfg, landed).verdict; verdict != Advanced && verdict != Idle
  {
    hide FindAncestor;
  }

  lemma {:induction false} WalkEnds(s: Store, env: Env, t: nat, n: int, target: int, headers: map<int, Hash>,
                                    cfg: Settings, revives: bool, landed: bool)
    ensures var r := Walk(s, env, t, n, target, headers, cfg, revives, landed);
            r.verdict != Idle && (r.verdict == Advanced ==> r.store.checkpoint == target)
    decreases target + 1 - n
  {
    hide RollBack, Inserted, Clashes, CheckParent, Landed, Recorded;
    if n <= target && env.block(t, n).Got? {
      var h := env.block(t, n).header;
      var from, s' := CheckParent(s, n, h), Inserted(s, n, h, revives);
      if from.Some? {
        RollBackNeverAdvances(s, env, t + 1, from.value, cfg, landed);
      }
      WalkEnds(s', env, t + 2, n + 1, target, headers[n := h.hash], cfg, revives, landed && Landed(s', n, h));
    }
  }

  /** The target is the head, or a full span beyond the checkpoint if that is less. */
  lemma TargetIs(head: int, checkpoint: int, cfg: Settings)
    ensures Target(head, checkpoint, cfg)
         == if head <= checkpoint + cfg.maxBlocks then head else checkpoint + cfg.maxBlocks
  {
  }

  lemma AdvanceEnds(s: Store, env: Env, t: nat, head: int, cfg: Settings, revives: bool)
    ensures var r := Advance(s, env, t, head, cfg, revives);
            r.verdict == Advanced || r.verdict == Idle ==>
              var start := if s.checkpoint > 0 then s.checkpoint
                           else if head > cfg.lookback then head - cfg.lookback else 0;
              if r.verdict == Idle then r.store == s && (start >= head || cfg.maxBlocks == 0)
              else start < head
                   && r.store.checkpoint == if head <= start + cfg.maxBlocks then head else start + cfg.maxBlocks
  {
    hide Walk;
    var checkpoint := EffectiveCheckpoint(s, head, cfg);
    WalkEnds(s, env, t, checkpoint + 1, Target(head, checkpoint, cfg), map[], cfg, revives, true);
  }

  /** Any step that advances moves the checkpoint to the head, or by a full span if that is less: from
      where it stood if it was positive, and from `cfg.lookback` below the head, or 0, otherwise. A step
      that idles had nothing ahead of it. */
  lemma AdvancesOneSpan(s: Store, env: Env, cfg: Settings, revives: bool)
    ensures var r := Step(s, env, cfg, revives);
            r.verdict == Advanced || r.verdict == Idle ==>
              && env.head.Some?
              && var head := env.head.value;
                 var start := if s.checkpoint > 0 then s.checkpoint
                              else if head > cfg.lookback then head - cfg.lookback else 0;
                 if r.verdict == Idle then r.store == s && (start >= head || cfg.maxBlocks == 0)
                 else start < head
                      && r.store.checkpoint == if head <= start + cfg.maxBlocks then head else start + cfg.maxBlocks
  {
    hide Advance, RollBack, Highest;
    if env.head.Some? {
      AdvanceEnds(s, env, 1, env.head.value, cfg, revives);
      AdvanceEnds(s, env, 2, env.head.value, cfg, revives);
      var latest := Highest(s.canonical.Keys);
      if latest.Some? {
        RollBackNeverAdvances(s, env, 2, latest.value, cfg, true);
      }
    }
  }
}
