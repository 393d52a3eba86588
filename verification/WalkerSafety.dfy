/** What every run of the chain walker keeps, and exactly when: a verified chain, and no height below
    the checkpoint whose logs were never read. */
module WalkerSafety {
  import opened Wrappers
  import opened WalkerModel
  import opened WalkerScan

  // ---- Above an anchor -------------------------------------------------------------------

  /** The checkpoint is at or above a positive height, and everything stored is above it. */
  ghost predicate Anchored(s: Store, anchor: int) {
    0 < anchor <= s.checkpoint && forall n | n in s.canonical :: n > anchor
  }

  /** The search never leaves the stored blocks by more than one height. */
  lemma {:induction false} AncestorAbove(s: Store, env: Env, t: nat, number: int, depth: nat, maxDepth: nat,
                                         anchor: int)
    requires number >= anchor && forall n | n in s.canonical :: n > anchor
    ensures var r := FindAncestor(s, env, t, number, depth, maxDepth); r.Found? ==> r.ancestor >= anchor
    decreases maxDepth + 1 - depth
  {
    if number >= 0 && depth <= maxDepth && number in s.canonical && env.block(t, number).Got? {
      AncestorAbove(s, env, t + 1, number - 1, depth + 1, maxDepth, anchor);
    }
  }

  lemma RollBackAnchored(s: Store, env: Env, t: nat, from: int, cfg: Settings, landed: bool, anchor: int)
    requires Anchored(s, anchor) && from >= anchor
    ensures Anchored(RollBack(s, env, t, from, cfg, landed).store, anchor)
  {
    AncestorAbove(s, env, t, from, 0, cfg.maxDepth, anchor);
    hide FindAncestor;
  }

  lemma {:induction false} ScanAnchored(s: Store, env: Env, t: nat, n: int, target: int, revives: bool, anchor: int)
    requires Anchored(s, anchor) && anchor < n <= target + 1
    ensures Anchored(ScanFrom(s, env, t, n, target, revives).store, anchor)
    decreases target + 1 - n
  {
    hide Inserted, Clashes, CheckParent, Lands;
    if n <= target && env.block(t, n).Got? {
      var h := env.block(t, n).header;
      if CheckParent(s, n, h).None? && env.ok(t + 1) && !Clashes(s, n, h, revives) {
        InsertLands(s, n, h, revives);
        ScanAnchored(Inserted(s, n, h, revives), env, t + 2, n + 1, target, revives, anchor);
      }
    }
  }

  /** Whatever the provider answers and wherever the step fails, for either insert. */
  lemma StepAnchored(s: Store, env: Env, cfg: Settings, revives: bool, anchor: int)
    requires Anchored(s, anchor)
    ensures Anchored(Step(s, env, cfg, revives).store, anchor)
  {
    hide Step, Walk, RollBack, ScanFrom, SpanLands;
    StepIs(s, env, cfg, revives);
    match CourseOf(s, env, cfg)
    case Stays =>
    case Diverged(latest) => RollBackAnchored(s, env, 2, latest, cfg, true, anchor);
    case Walks(t, start, target) =>
      var first, r := start + 1, Step(s, env, cfg, revives);
      WalkIs(s, env, t, first, target, map[], cfg, revives, true, start);
      ScanTouches(s, env, t, first, target, revives);
      ScanAnchored(s, env, t, first, target, revives, anchor);
      var scan := ScanFrom(s, env, t, first, target, revives);
      if scan.TurnedBack? {
        RollBackAnchored(scan.store, env, scan.tick, scan.from, cfg, r.landed, anchor);
      }
  }

  lemma {:induction false} RunAnchored(s: Store, envs: seq<Env>, cfg: Settings, revives: bool, anchor: int)
    requires Anchored(s, anchor)
    ensures Anchored(Run(s, envs, cfg, revives), anchor)
  {
    hide Step, Anchored;
    if |envs| > 0 {
      RunAnchored(s, envs[..|envs| - 1], cfg, revives, anchor);
      StepAnchored(Run(s, envs[..|envs| - 1], cfg, revives), envs[|envs| - 1], cfg, revives, anchor);
    }
  }

  // ---- The verified chain ----------------------------------------------------------------

  /** Canonical blocks at adjacent heights are linked by parent hash. */
  ghost predicate Linked(s: Store) {
    forall n | n in s.canonical && n - 1 in s.canonical :: s.canonical[n].parent == s.canonical[n - 1].hash
  }

  /** A canonical block at `n` above the checkpoint has a canonical block below it, or is the first. */
  predicate Based(s: Store, n: int) {
    n in s.canonical && n > s.checkpoint + 1 ==> n - 1 in s.canonical
  }

  /** Canonical blocks above the checkpoint are contiguous from it. */
  ghost predicate Contiguous(s: Store) {
    forall n :: Based(s, n)
  }

  ghost predicate Verified(s: Store) {
    Linked(s) && Contiguous(s)
  }

  /** Contiguous as far as canonical blocks up to `ceiling` are concerned, or those from `floor` on. */
  ghost predicate ContiguousUpTo(s: Store, ceiling: int) {
    forall n | n <= ceiling :: Based(s, n)
  }

  ghost predicate ContiguousFrom(s: Store, floor: int) {
    forall n | n >= floor :: Based(s, n)
  }

  /** Inserting this header puts a canonical block right above a height that is empty. */
  predicate GapBelow(s: Store, n: int, h: Header, revives: bool) {
    Lands(s, n, h, revives) && n > s.checkpoint + 1 && n - 1 !in s.canonical
  }

  /** A scan of heights from `n` on stores, at or below `ceiling`, a header right above a height that
      an earlier header of the span failed to fill. */
  predicate LeavesGap(s: Store, env: Env, t: nat, n: int, target: int, revives: bool, ceiling: int)
    decreases target + 1 - n
  {
    && n <= target && env.block(t, n).Got?
    && var h := env.block(t, n).header;
       && CheckParent(s, n, h).None? && env.ok(t + 1) && !Clashes(s, n, h, revives)
       && ((GapBelow(s, n, h, revives) && n <= ceiling)
           || LeavesGap(Inserted(s, n, h, revives), env, t + 2, n + 1, target, revives, ceiling))
  }

  lemma InsertLinks(s: Store, n: int, h: Header, revives: bool)
    requires Linked(s) && ContiguousFrom(s, n) && n > s.checkpoint && !Clashes(s, n, h, revives)
    requires CheckParent(s, n, h).None?
    ensures Linked(Inserted(s, n, h, revives)) && ContiguousFrom(Inserted(s, n, h, revives), n + 1)
  {
    var s' := Inserted(s, n, h, revives);
    InsertLands(s, n, h, revives);
    assert Based(s, n + 1);
    assert n in s'.canonical && n !in s.canonical ==> s'.canonical[n] == h;
    hide Inserted, Clashes, Lands, Landed;
    forall k | k in s'.canonical && k - 1 in s'.canonical
      ensures s'.canonical[k].parent == s'.canonical[k - 1].hash
    {
      assert k != n && k - 1 != n ==> k in s.canonical && k - 1 in s.canonical;
    }
    hide Linked, CheckParent;
    forall k | k >= n + 1
      ensures Based(s', k)
    {
      assert Based(s, k);
    }
  }

  lemma InsertGaps(s: Store, n: int, h: Header, revives: bool, ceiling: int)
    requires ContiguousFrom(s, n) && n > s.checkpoint && !Clashes(s, n, h, revives)
    ensures ContiguousUpTo(Inserted(s, n, h, revives), ceiling)
       <==> ContiguousUpTo(s, ceiling) && !(GapBelow(s, n, h, revives) && n <= ceiling)
  {
    var s' := Inserted(s, n, h, revives);
    InsertLands(s, n, h, revives);
    assert n in s'.canonical ==> n in s.canonical || Lands(s, n, h, revives);
    hide Inserted, Clashes, Lands, Landed;
    assert Based(s, n) && Based(s, n + 1);
    assert Based(s', n) <==> !GapBelow(s, n, h, revives);
    forall k | k != n
      ensures Based(s', k) <==> Based(s, k)
    {
      if k > n {
        assert Based(s, k);
      }
    }
  }

  /** A scan keeps the chain linked; it stays contiguous exactly when the scan leaves no gap. */
  lemma {:induction false} ScanLinks(s: Store, env: Env, t: nat, n: int, target: int, revives: bool, ceiling: int)
    requires Linked(s) && ContiguousFrom(s, n) && s.checkpoint < n <= target + 1
    ensures var s' := ScanFrom(s, env, t, n, target, revives).store;
            && Linked(s') && ContiguousFrom(s', target + 1)
            && (ContiguousUpTo(s', ceiling) <==>
                  ContiguousUpTo(s, ceiling) && !LeavesGap(s, env, t, n, target, revives, ceiling))
    decreases target + 1 - n
  {
    hide Inserted, Clashes, Linked, CheckParent, GapBelow, ContiguousUpTo;
    if n <= target && env.block(t, n).Got? {
      var h := env.block(t, n).header;
      if CheckParent(s, n, h).None? && env.ok(t + 1) && !Clashes(s, n, h, revives) {
        InsertLinks(s, n, h, revives);
        InsertGaps(s, n, h, revives, ceiling);
        InsertLands(s, n, h, revives);
        hide ContiguousFrom, Lands;
        ScanLinks(Inserted(s, n, h, revives), env, t + 2, n + 1, target, revives, ceiling);
      }
    }
  }

  /** If every header lands there is no gap. */
  lemma {:induction false} LandingLeavesNoGap(s: Store, env: Env, t: nat, n: int, target: int, revives: bool,
                                              ceiling: int, above: int)
    requires above < n && (n - 1 in s.canonical || n - 1 <= s.checkpoint)
    requires SpanLands(s, env, t, n, target, above, revives)
    ensures !LeavesGap(s, env, t, n, target, revives, ceiling)
    decreases target + 1 - n
  {
    hide Inserted, Clashes, CheckParent;
    if LeavesGap(s, env, t, n, target, revives, ceiling) {
      var h := env.block(t, n).header;
      InsertLands(s, n, h, revives);
      LandingLeavesNoGap(Inserted(s, n, h, revives), env, t + 2, n + 1, target, revives, ceiling, above);
    }
  }

  // ---- What a step does to the chain -----------------------------------------------------

  predicate WritesAll(env: Env, t: nat) {
    env.ok(t) && env.ok(t + 1) && env.ok(t + 2)
  }

  /** Orphaning keeps the links. If the checkpoint follows, nothing is left above it; if not, what is
      left must have been contiguous. */
  lemma OrphanKeeps(s: Store, a: int)
    requires Linked(s)
    ensures Verified(OrphanedAbove(s, a).(checkpoint := a))
    ensures Verified(OrphanedAbove(s, a)) <==> ContiguousUpTo(s, a)
  {
    var s' := OrphanedAbove(s, a);
    forall n
      ensures n <= a ==> (Based(s', n) <==> Based(s, n))
      ensures n > a ==> Based(s', n)
    {
    }
  }

  /** Up to which height the canonical blocks of a scan outlive the step with the checkpoint where it
      was; none if the step moves the checkpoint. */
  function Exposed(scan: Scan, env: Env, cfg: Settings, target: int): Option<int> {
    match scan
    case Completed(_, t, _) => if WritesAll(env, t) then None else Some(target)
    case Stopped(_, _) => Some(target)
    case TurnedBack(s, t, from, _) =>
      match FindAncestor(s, env, t, from, 0, cfg.maxDepth)
      case Found(a, u) => if !env.ok(u) then Some(target) else if env.ok(u + 1) then None else Some(a)
      case _ => Some(target)
  }

  /** The header for height `m` of a span from `n` on becomes canonical there right above a height that is
      empty and stays so. As shipped: it is fresh, and below it nothing is stored and nothing fresh is
      served. If inserting revives, only the first height of the span can lie above an empty one. */
  ghost predicate GapAt(s: Store, env: Env, t: nat, n: int, m: int, revives: bool) {
    && m > s.checkpoint + 1 && m - 1 !in s.canonical
    && if revives then m == n else FreshAt(s, env, t, n, m) && !FreshAt(s, env, t, n, m - 1)
  }

  /** There is such a header among those the scan got to insert, at or below `ceiling`. */
  ghost predicate ServesGap(s: Store, env: Env, t: nat, n: int, height: int, ceiling: int, revives: bool) {
    exists m | n <= m < height && m <= ceiling :: GapAt(s, env, t, n, m, revives)
  }

  /** The step stores a header right above a height it leaves empty, and ends with both above its
      checkpoint. Judged on the store before the step, by the answers it asks for. */
  ghost predicate StepLeavesGap(s: Store, env: Env, cfg: Settings, revives: bool) {
    var course := CourseOf(s, env, cfg);
    course.Walks? &&
      var scan := ScanFrom(s, env, course.tick, course.start + 1, course.target, revives);
      var exposed := Exposed(scan, env, cfg, course.target);
      exposed.Some? && ServesGap(s, env, course.tick, course.start + 1, scan.height, exposed.value, revives)
  }

  /** What a gap of the rest of the span is once the header for `n` has been inserted. */
  lemma GapNext(s: Store, env: Env, t: nat, n: int, m: int)
    requires n < m && env.block(t, n).Got? && !Clashes(s, n, env.block(t, n).header, false)
    ensures GapAt(s, env, t, n, m, false)
       <==> GapAt(Inserted(s, n, env.block(t, n).header, false), env, t + 2, n + 1, m, false)
  {
    var h := env.block(t, n).header;
    InsertLands(s, n, h, false);
    FreshNext(s, env, t, n, m);
    NothingServedYet(s, env, t, n);
    NothingBefore(Inserted(s, n, h, false), env, t + 2, n + 1);
    assert n in Inserted(s, n, h, false).canonical <==> n in s.canonical || Lands(s, n, h, false);
    hide FreshAt, Inserted, Clashes, Lands;
    if n < m - 1 {
      FreshNext(s, env, t, n, m - 1);
    }
  }

  lemma NothingBefore(s: Store, env: Env, t: nat, n: int)
    ensures !FreshAt(s, env, t, n, n - 1)
  {
  }

  lemma ServesGapNext(s: Store, env: Env, t: nat, n: int, height: int, ceiling: int, s1: Store, t1: nat, n1: int)
    requires n < height && t1 == t + 2 && n1 == n + 1 && env.block(t, n).Got?
    requires var h := env.block(t, n).header; !Clashes(s, n, h, false) && s1 == Inserted(s, n, h, false)
    ensures ServesGap(s, env, t, n, height, ceiling, false)
       <==> (GapBelow(s, n, env.block(t, n).header, false) && n <= ceiling)
            || ServesGap(s1, env, t1, n1, height, ceiling, false)
  {
    NothingServedYet(s, env, t, n);
    NothingBefore(s, env, t, n);
    assert GapAt(s, env, t, n, n, false) <==> GapBelow(s, n, env.block(t, n).header, false);
    hide GapAt, GapBelow, Inserted, Clashes;
    forall m | n < m
      ensures GapAt(s, env, t, n, m, false) <==> GapAt(s1, env, t1, n1, m, false)
    {
      GapNext(s, env, t, n, m);
    }
  }

  /** As shipped: what a scan leaves empty under a header it stores, judged before the step. */
  lemma {:induction false} ShippedGapExactly(s: Store, env: Env, t: nat, n: int, target: int, ceiling: int)
    requires n <= target + 1
    ensures LeavesGap(s, env, t, n, target, false, ceiling)
       <==> ServesGap(s, env, t, n, ScanFrom(s, env, t, n, target, false).height, ceiling, false)
    decreases target + 1 - n
  {
    hide Inserted, Clashes, CheckParent, GapAt, GapBelow;
    if n <= target && env.block(t, n).Got? {
      var h := env.block(t, n).header;
      if CheckParent(s, n, h).None? && env.ok(t + 1) && !Clashes(s, n, h, false) {
        var s1 := Inserted(s, n, h, false);
        ScanTouches(s1, env, t + 2, n + 1, target, false);
        ShippedGapExactly(s1, env, t + 2, n + 1, target, ceiling);
        hide ServesGap;
        ServesGapNext(s, env, t, n, ScanFrom(s, env, t, n, target, false).height, ceiling, s1, t + 2, n + 1);
      }
    }
  }

  lemma RevivingGapExactly(s: Store, env: Env, t: nat, n: int, target: int, ceiling: int)
    requires n <= target + 1
    ensures LeavesGap(s, env, t, n, target, true, ceiling)
       <==> ServesGap(s, env, t, n, ScanFrom(s, env, t, n, target, true).height, ceiling, true)
  {
    hide Inserted, Clashes, CheckParent;
    if n <= target && env.block(t, n).Got? {
      var h := env.block(t, n).header;
      if CheckParent(s, n, h).None? && env.ok(t + 1) && !Clashes(s, n, h, true) {
        var s1 := Inserted(s, n, h, true);
        InsertLands(s, n, h, true);
        ScanTouches(s1, env, t + 2, n + 1, target, true);
        RevivingLands(s1, env, t + 2, n + 1, target, n);
        LandingLeavesNoGap(s1, env, t + 2, n + 1, target, true, ceiling, n);
        assert GapAt(s, env, t, n, n, true) <==> GapBelow(s, n, h, true);
      }
    }
  }

  lemma SplitContiguous(s: Store, c: int)
    requires ContiguousFrom(s, c + 1)
    ensures Contiguous(s) <==> ContiguousUpTo(s, c)
  {
  }

  lemma FinishKeeps(s: Store, env: Env, t: nat, target: int, headers: map<int, Hash>, landed: bool)
    requires Linked(s) && ContiguousFrom(s, target + 1) && s.checkpoint < target
    ensures Verified(Finish(s, env, t, target, headers, landed).store) <==> WritesAll(env, t) || Contiguous(s)
  {
    var r := Finish(s, env, t, target, headers, landed).store;
    assert r.canonical == s.canonical;
    forall n
      ensures Based(r, n) <==> Based(s, n) || (WritesAll(env, t) && n <= target + 1)
    {
      if WritesAll(env, t) && n > target {
        assert Based(s, n);
      }
    }
  }

  lemma RollBackKeeps(s: Store, env: Env, t: nat, from: int, cfg: Settings, landed: bool, target: int, height: int)
    requires Linked(s) && ContiguousFrom(s, target + 1)
    ensures var exposed := Exposed(TurnedBack(s, t, from, height), env, cfg, target);
            Verified(RollBack(s, env, t, from, cfg, landed).store) <==> exposed.Some? ==> ContiguousUpTo(s, exposed.value)
  {
    SplitContiguous(s, target);
    hide Linked, Contiguous, ContiguousFrom, ContiguousUpTo, OrphanedAbove, FindAncestor;
    var found := FindAncestor(s, env, t, from, 0, cfg.maxDepth);
    if found.Found? {
      hide Verified;
      OrphanKeeps(s, found.ancestor);
      assert Verified(s) <==> ContiguousUpTo(s, target) by {
        VerifiedMeans(s);
      }
    }
  }

  lemma VerifiedMeans(s: Store)
    ensures Verified(s) <==> Linked(s) && Contiguous(s)
  {
  }

  lemma VerifiedEverywhere(s: Store, n: int, c: int)
    requires Verified(s)
    ensures Linked(s) && ContiguousFrom(s, n) && ContiguousUpTo(s, c)
  {
  }

  /** A step keeps the chain verified exactly when it leaves no gap, whatever the provider answers,
      wherever the step fails and whatever the checkpoint. */
  lemma StepKeeps(s: Store, env: Env, cfg: Settings, revives: bool)
    requires Verified(s)
    ensures Verified(Step(s, env, cfg, revives).store) <==> !StepLeavesGap(s, env, cfg, revives)
  {
    hide Step, Walk, RollBack, ScanFrom, LeavesGap, ServesGap, Exposed, Verified, CourseOf;
    StepIs(s, env, cfg, revives);
    match CourseOf(s, env, cfg)
    case Stays =>
    case Diverged(latest) => TipRollBackKeeps(s, env, 2, latest, cfg, true);
    case Walks(t, start, target) =>
      WalkKeeps(s, env, t, start, target, cfg, revives);
      var scan := ScanFrom(s, env, t, start + 1, target, revives);
      var exposed := Exposed(scan, env, cfg, target);
      if exposed.Some? {
        if revives {
          RevivingGapExactly(s, env, t, start + 1, target, exposed.value);
        } else {
          ShippedGapExactly(s, env, t, start + 1, target, exposed.value);
        }
      }
  }

  /** A rollback from a verified store never breaks it. */
  lemma TipRollBackKeeps(s: Store, env: Env, t: nat, from: int, cfg: Settings, landed: bool)
    requires Verified(s)
    ensures Verified(RollBack(s, env, t, from, cfg, landed).store)
  {
    hide OrphanedAbove, FindAncestor, Verified;
    var found := FindAncestor(s, env, t, from, 0, cfg.maxDepth);
    if found.Found? {
      VerifiedEverywhere(s, found.ancestor, found.ancestor);
      OrphanKeeps(s, found.ancestor);
    }
  }

  /** What a scan from above the checkpoint on leaves of a verified chain. */
  lemma ScanOutcome(s: Store, env: Env, t: nat, start: int, target: int, revives: bool, ceiling: int)
    requires Verified(s) && s.checkpoint <= start < target
    ensures var s' := ScanFrom(s, env, t, start + 1, target, revives).store;
            && s'.checkpoint == s.checkpoint && Linked(s') && ContiguousFrom(s', target + 1)
            && (ContiguousUpTo(s', ceiling) <==> !LeavesGap(s, env, t, start + 1, target, revives, ceiling))
  {
    hide *;
    VerifiedEverywhere(s, start + 1, ceiling);
    ScanLinks(s, env, t, start + 1, target, revives, ceiling);
    ScanTouches(s, env, t, start + 1, target, revives);
  }

  lemma WalkKeeps(s: Store, env: Env, t: nat, start: int, target: int, cfg: Settings, revives: bool)
    requires Verified(s) && s.checkpoint <= start < target
    ensures var exposed := Exposed(ScanFrom(s, env, t, start + 1, target, revives), env, cfg, target);
            Verified(Walk(s, env, t, start + 1, target, map[], cfg, revives, true).store)
            <==> !(exposed.Some? && LeavesGap(s, env, t, start + 1, target, revives, exposed.value))
  {
    var first := start + 1;
    var r := Walk(s, env, t, first, target, map[], cfg, revives, true);
    var scan := ScanFrom(s, env, t, first, target, revives);
    var exposed := Exposed(scan, env, cfg, target);
    WalkIs(s, env, t, first, target, map[], cfg, revives, true, start);
    hide *;
    ScanOutcome(s, env, t, start, target, revives, if exposed.Some? then exposed.value else target);
    SplitContiguous(scan.store, target);
    VerifiedMeans(scan.store);
    match scan
    case Completed(s', t', height) =>
      ExposedIs(s', t', height, env, cfg, target);
      FinishKeeps(s', env, t', target, map[] + Hashes(env, t, first, target + 1), r.landed);
    case Stopped(s', height) => ExposedIs(s', 0, height, env, cfg, target);
    case TurnedBack(s', t', from, height) => RollBackKeeps(s', env, t', from, cfg, r.landed, target, height);
  }

  lemma ExposedIs(s: Store, t: nat, height: int, env: Env, cfg: Settings, target: int)
    ensures Exposed(Completed(s, t, height), env, cfg, target) == if WritesAll(env, t) then None else Some(target)
    ensures Exposed(Stopped(s, height), env, cfg, target) == Some(target)
  {
  }

  /** If all inserts of a step from a positive checkpoint land, it keeps the chain verified. */
  lemma LandingKeeps(s: Store, env: Env, cfg: Settings, revives: bool)
    requires Verified(s) && s.checkpoint > 0 && StepLands(s, env, cfg, revives)
    ensures Verified(Step(s, env, cfg, revives).store)
  {
    hide Step, Walk, RollBack, ScanFrom, SpanLands, LeavesGap, Exposed, Verified, CourseOf;
    StepIs(s, env, cfg, revives);
    match CourseOf(s, env, cfg)
    case Stays =>
    case Diverged(latest) => TipRollBackKeeps(s, env, 2, latest, cfg, true);
    case Walks(t, start, target) =>
      WalkKeeps(s, env, t, start, target, cfg, revives);
      var exposed := Exposed(ScanFrom(s, env, t, start + 1, target, revives), env, cfg, target);
      if exposed.Some? {
        LandingLeavesNoGap(s, env, t, start + 1, target, revives, exposed.value, start);
      }
  }

  /** A run, step by step. */
  lemma RunStep(s: Store, envs: seq<Env>, cfg: Settings, revives: bool)
    ensures |envs| == 0 ==> Run(s, envs, cfg, revives) == s
    ensures |envs| > 0 ==>
              Run(s, envs, cfg, revives) == Step(Run(s, envs[..|envs| - 1], cfg, revives), envs[|envs| - 1], cfg, revives).store
  {
  }

  // ---- The verified chain over runs ------------------------------------------------------

  /** The chain is verified after every step of a run exactly when no step of it leaves a gap. */
  lemma {:induction false} RunKeepsChain(s: Store, envs: seq<Env>, cfg: Settings, revives: bool)
    requires Verified(s)
    ensures (forall k | 0 <= k <= |envs| :: Verified(Run(s, envs[..k], cfg, revives)))
       <==> forall k | 0 <= k < |envs| :: !StepLeavesGap(Run(s, envs[..k], cfg, revives), envs[k], cfg, revives)
  {
    hide Verified, Step, StepLeavesGap, Run;
    RunStep(s, envs, cfg, revives);
    if |envs| == 0 {
      assert envs[..0] == envs;
    } else {
      var init, last := envs[..|envs| - 1], envs[|envs| - 1];
      assert forall k | 0 <= k <= |init| :: init[..k] == envs[..k];
      assert envs[..|envs|] == envs;
      RunKeepsChain(s, init, cfg, revives);
      if Verified(Run(s, init, cfg, revives)) {
        StepKeeps(Run(s, init, cfg, revives), last, cfg, revives);
      }
    }
  }

  lemma AnchoredPositive(s: Store, anchor: int)
    requires Anchored(s, anchor)
    ensures s.checkpoint > 0
  {
  }

  /** If inserting a block made an orphaned row canonical again, the chain would stay verified over
      every run, whatever the provider answers and wherever the steps fail. */
  lemma {:induction false} RevivingRunKeepsChain(s: Store, envs: seq<Env>, cfg: Settings, anchor: int)
    requires Verified(s) && Anchored(s, anchor)
    ensures Verified(Run(s, envs, cfg, true))
  {
    hide Verified, Step, Anchored, StepLands;
    if |envs| > 0 {
      var init, last := envs[..|envs| - 1], envs[|envs| - 1];
      RevivingRunKeepsChain(s, init, cfg, anchor);
      var before := Run(s, init, cfg, true);
      RunAnchored(s, init, cfg, true, anchor);
      AnchoredPositive(before, anchor);
      StepLandsExactly(before, last, cfg, true);
      LandingKeeps(before, last, cfg, true);
    }
  }

  /** As shipped, it stays verified over every run in which no header that a step got to insert had a
      hash already stored, as orphaned or at another height. */
  lemma {:induction false} FreshRunKeepsChain(s: Store, envs: seq<Env>, cfg: Settings, anchor: int)
    requires Verified(s) && Anchored(s, anchor)
    requires forall k | 0 <= k < |envs| :: AnswersFresh(Run(s, envs[..k], cfg, false), envs[k], cfg)
    ensures Verified(Run(s, envs, cfg, false))
  {
    hide Verified, Step, Anchored, StepLands, AnswersFresh;
    if |envs| > 0 {
      var init, last := envs[..|envs| - 1], envs[|envs| - 1];
      assert forall k | 0 <= k <= |init| :: init[..k] == envs[..k];
      FreshRunKeepsChain(s, init, cfg, anchor);
      var before := Run(s, init, cfg, false);
      assert envs[..|init|] == init;
      RunAnchored(s, init, cfg, false, anchor);
      AnchoredPositive(before, anchor);
      StepLandsExactly(before, last, cfg, false);
      LandingKeeps(before, last, cfg, false);
    }
  }

  // ---- No unread height below the checkpoint ---------------------------------------------

  /** Every height after `start` and up to the checkpoint has a canonical block against which its
      logs were filtered. */
  ghost predicate AllRead(s: Store, start: int) {
    forall n | start < n <= s.checkpoint :: ReadAt(s, n)
  }

  predicate ReadAt(s: Store, n: int) {
    n in s.canonical && n in s.filtered && s.filtered[n] == s.canonical[n].hash
  }

  /** Will a rollback from `from` leave no unread height behind? Either it ends before it writes; or it
      moves the checkpoint, over heights that were all read before; or it orphans blocks without
      moving the checkpoint, none of them at or below it. */
  ghost predicate RollbackSafe(s: Store, env: Env, t: nat, from: int, cfg: Settings, start: int) {
    match FindAncestor(s, env, t, from, 0, cfg.maxDepth)
    case Found(a, u) =>
      env.ok(u) ==>
        if env.ok(u + 1) then forall n | s.checkpoint < n <= a && start < n :: ReadAt(s, n)
        else s.checkpoint <= a || s.checkpoint <= start
    case _ => true
  }

  /** A rollback leaves no unread height behind exactly when it is safe. */
  lemma RollBackReads(s: Store, env: Env, t: nat, from: int, cfg: Settings, landed: bool, start: int)
    requires AllRead(s, start)
    ensures AllRead(RollBack(s, env, t, from, cfg, landed).store, start) <==> RollbackSafe(s, env, t, from, cfg, start)
  {
    hide FindAncestor;
    var r := RollBack(s, env, t, from, cfg, landed);
    var found := FindAncestor(s, env, t, from, 0, cfg.maxDepth);
    if found.Found? && env.ok(found.tick) {
      forall n | n <= found.ancestor
        ensures ReadAt(r.store, n) <==> ReadAt(s, n)
      {
      }
      if !env.ok(found.tick + 1) && found.ancestor < s.checkpoint && start < s.checkpoint {
        assert !ReadAt(r.store, s.checkpoint);
      }
    }
  }

  /** Will a step leave no unread height behind? If it verifies its span and all writes succeed, the
      heights that a derived start skips must have been read before, and the headers above `start` must
      have landed; if it rolls back, the rollback must be safe. */
  ghost predicate StepSafe(s: Store, env: Env, cfg: Settings, revives: bool, start: int) {
    match CourseOf(s, env, cfg)
    case Stays => true
    case Diverged(latest) => RollbackSafe(s, env, 2, latest, cfg, start)
    case Walks(t, from, target) =>
      (match ScanFrom(s, env, t, from + 1, target, revives)
       case Completed(_, t', _) =>
         WritesAll(env, t') ==>
           && (forall n | s.checkpoint < n <= from && start < n :: ReadAt(s, n))
           && SpanLands(s, env, t, from + 1, target, start, revives)
       case Stopped(_, _) => true
       case TurnedBack(s', t', from, _) => RollbackSafe(s', env, t', from, cfg, start))
  }

  lemma ScanReads(s: Store, env: Env, t: nat, first: int, target: int, revives: bool, start: int)
    requires AllRead(s, start) && s.checkpoint < first <= target
    ensures var s' := ScanFrom(s, env, t, first, target, revives).store;
            AllRead(s', start) && forall n | n < first :: ReadAt(s', n) <==> ReadAt(s, n)
  {
    ScanTouches(s, env, t, first, target, revives);
    hide ScanFrom;
    var s' := ScanFrom(s, env, t, first, target, revives).store;
    forall n | n < first
      ensures ReadAt(s', n) <==> ReadAt(s, n)
    {
    }
  }

  lemma FinishReads(s: Store, env: Env, t: nat, from: int, target: int, hashes: map<int, Hash>, landed: bool,
                    start: int)
    requires AllRead(s, start) && s.checkpoint <= from < target && forall m :: m in hashes <==> from < m <= target
    ensures AllRead(Finish(s, env, t, target, map[] + hashes, landed).store, start)
       <==> (WritesAll(env, t) ==>
               && (forall n | s.checkpoint < n <= from && start < n :: ReadAt(s, n))
               && (forall m | from < m <= target && m > start :: m in s.canonical && s.canonical[m].hash == hashes[m]))
  {
    var after := Finish(s, env, t, target, map[] + hashes, landed).store;
    assert after.canonical == s.canonical;
    forall n | n <= from
      ensures ReadAt(after, n) <==> ReadAt(s, n)
    {
    }
    if WritesAll(env, t) {
      forall n | from < n <= target
        ensures ReadAt(after, n) <==> n in s.canonical && s.canonical[n].hash == hashes[n]
      {
      }
    }
  }

  /** A step leaves no unread height behind exactly when it is safe, whatever the checkpoint. */
  lemma StepReads(s: Store, env: Env, cfg: Settings, revives: bool, start: int)
    requires AllRead(s, start)
    ensures AllRead(Step(s, env, cfg, revives).store, start) <==> StepSafe(s, env, cfg, revives, start)
  {
    hide Step, Walk, RollBack, ScanFrom, SpanLands, AllRead, ReadAt, RollbackSafe, Finish, WritesAll, CourseOf, Hashes;
    StepIs(s, env, cfg, revives);
    match CourseOf(s, env, cfg)
    case Stays =>
    case Diverged(latest) => RollBackReads(s, env, 2, latest, cfg, true, start);
    case Walks(t, from, target) =>
      var first, r := from + 1, Step(s, env, cfg, revives);
      WalkIs(s, env, t, first, target, map[], cfg, revives, true, from);
      ScanReads(s, env, t, first, target, revives, start);
      ScanTouches(s, env, t, first, target, revives);
      match ScanFrom(s, env, t, first, target, revives)
      case Stopped(_, _) =>
      case TurnedBack(s', t', back, _) => RollBackReads(s', env, t', back, cfg, r.landed, start);
      case Completed(s', t', _) =>
        CompletedLands(s, env, t, first, target, start, revives);
        FinishReads(s', env, t', from, target, Hashes(env, t, first, target + 1), r.landed, start);
  }

  /** No unread height below the checkpoint, over whole runs: starting from checkpoint `start`, every
      height since has its logs filtered against the hash canonical there now, after every step of
      the run, exactly when every step was safe. */
  lemma {:induction false} RunReads(s: Store, envs: seq<Env>, cfg: Settings, revives: bool, start: int)
    requires AllRead(s, start)
    ensures (forall k | 0 <= k <= |envs| :: AllRead(Run(s, envs[..k], cfg, revives), start))
       <==> forall k | 0 <= k < |envs| :: StepSafe(Run(s, envs[..k], cfg, revives), envs[k], cfg, revives, start)
  {
    hide AllRead, Step, StepSafe, Run;
    RunStep(s, envs, cfg, revives);
    if |envs| == 0 {
      assert envs[..0] == envs;
    } else {
      var init, last := envs[..|envs| - 1], envs[|envs| - 1];
      assert forall k | 0 <= k <= |init| :: init[..k] == envs[..k];
      assert envs[..|envs|] == envs;
      RunReads(s, init, cfg, revives, start);
      if AllRead(Run(s, init, cfg, revives), start) {
        StepReads(Run(s, init, cfg, revives), last, cfg, revives, start);
      }
    }
  }
}
