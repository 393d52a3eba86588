/** A rollback needs evidence: as long as nothing the provider says contradicts the stored chain, no stored
    block is orphaned, whatever fails or goes unanswered. */
module WalkerEvidence {
  import opened Wrappers
  import opened WalkerModel
  import opened WalkerScan
  import opened WalkerSafety

  /** Whatever the provider answers for a stored height is the block stored there. It may not answer. */
  ghost predicate NeverContradicts(env: Env, s: Store) {
    forall t, n | n in s.canonical && env.block(t, n).Got? :: env.block(t, n).header == s.canonical[n]
  }

  /** Every block of `s` is still canonical in `s'`. */
  ghost predicate Holds(s: Store, s': Store) {
    forall n | n in s.canonical :: n in s'.canonical && s'.canonical[n] == s.canonical[n]
  }

  /** Between the checkpoint and a stored block there is no empty height. */
  lemma {:induction false} NoGapBelow(s: Store, n: int, k: int)
    requires Contiguous(s) && s.checkpoint < n <= k && k in s.canonical
    ensures n in s.canonical
    decreases k - n
  {
    if n < k {
      assert Based(s, k);
      NoGapBelow(s, n, k - 1);
    }
  }

  /** The search does not pass a block of `s`. */
  lemma {:induction false} SearchStops(s: Store, at: Store, env: Env, t: nat, number: int, depth: nat, maxDepth: nat)
    requires NeverContradicts(env, s) && Holds(s, at)
    ensures var r := FindAncestor(at, env, t, number, depth, maxDepth);
            r.Found? ==> forall k | r.ancestor < k <= number :: k !in s.canonical
    decreases maxDepth + 1 - depth
  {
    if number >= 0 && depth <= maxDepth && number in at.canonical && env.block(t, number).Got?
       && env.block(t, number).header.hash != at.canonical[number].hash {
      SearchStops(s, at, env, t + 1, number - 1, depth + 1, maxDepth);
    }
  }

  lemma RollBackHolds(s: Store, at: Store, env: Env, t: nat, from: int, cfg: Settings, landed: bool)
    requires NeverContradicts(env, s) && Holds(s, at) && forall k | k in s.canonical :: k <= from
    ensures Holds(s, RollBack(at, env, t, from, cfg, landed).store)
  {
    SearchStops(s, at, env, t, from, 0, cfg.maxDepth);
    hide FindAncestor;
  }

  lemma Below(s: Store, n: int)
    requires Verified(s) && n in s.canonical
    ensures n > s.checkpoint + 1 ==> n - 1 in s.canonical
    ensures n - 1 in s.canonical ==> s.canonical[n].parent == s.canonical[n - 1].hash
  {
    assert Based(s, n);
  }

  /** A span walked from `first` on has kept every block of `s`, and added none below `first`. */
  ghost predicate Extends(s: Store, at: Store, first: int) {
    Holds(s, at) && forall n | n < first && n in at.canonical :: n in s.canonical
  }

  /** A header that does not fit lies above everything stored before. */
  lemma MisfitIsAbove(s: Store, at: Store, env: Env, t: nat, first: int, n: int)
    requires NeverContradicts(env, s) && Verified(s) && Extends(s, at, first) && s.checkpoint < first <= n
    requires env.block(t, n).Got? && CheckParent(at, n, env.block(t, n).header).Some?
    ensures CheckParent(at, n, env.block(t, n).header) == Some(n - 1) && forall k | k in s.canonical :: k <= n - 1
  {
    forall k | k in s.canonical
      ensures k < n
    {
      if k >= n {
        NoGapBelow(s, n, k);
        Below(s, n);
      }
    }
  }

  lemma {:induction false} ScanExtends(s: Store, at: Store, env: Env, t: nat, first: int, n: int, target: int,
                                       revives: bool)
    requires NeverContradicts(env, s) && Verified(s) && Extends(s, at, first) && s.checkpoint < first <= n
    ensures var r := ScanFrom(at, env, t, n, target, revives);
            Extends(s, r.store, first) && (r.TurnedBack? ==> forall k | k in s.canonical :: k <= r.from)
    decreases target + 1 - n
  {
    hide Inserted, Clashes, Lands, Landed, Verified, NeverContradicts, CheckParent;
    if n <= target && env.block(t, n).Got? {
      var h := env.block(t, n).header;
      if CheckParent(at, n, h).Some? {
        MisfitIsAbove(s, at, env, t, first, n);
      } else if env.ok(t + 1) && !Clashes(at, n, h, revives) {
        InsertExtends(s, at, n, h, first, revives);
        ScanExtends(s, Inserted(at, n, h, revives), env, t + 2, first, n + 1, target, revives);
      }
    }
  }

  lemma InsertExtends(s: Store, at: Store, n: int, h: Header, first: int, revives: bool)
    requires Extends(s, at, first) && first <= n
    ensures Extends(s, Inserted(at, n, h, revives), first)
  {
  }

  /** An outage orphans nothing: if every answer for a stored height is the block stored there, then a step
      leaves every stored block canonical, whatever calls fail or go unanswered, and however the answers
      for the heights not yet stored contradict each other. */
  lemma SilenceOrphansNothing(s: Store, env: Env, cfg: Settings, revives: bool)
    requires Verified(s) && NeverContradicts(env, s)
    ensures Holds(s, Step(s, env, cfg, revives).store)
  {
    hide Step, Walk, RollBack, ScanFrom, SpanLands, Finish, CourseOf, Hashes, Verified, NeverContradicts;
    StepIs(s, env, cfg, revives);
    match CourseOf(s, env, cfg)
    case Stays =>
    case Diverged(latest) => DivergesOnEvidence(s, env, cfg);
    case Walks(t, start, target) =>
      var first, r := start + 1, Step(s, env, cfg, revives);
      WalkIs(s, env, t, first, target, map[], cfg, revives, true, start);
      ScanExtends(s, s, env, t, first, first, target, revives);
      match ScanFrom(s, env, t, first, target, revives)
      case Stopped(_, _) =>
      case TurnedBack(s', t', from, _) => RollBackHolds(s, s', env, t', from, cfg, r.landed);
      case Completed(s', t', _) =>
        FinishKeepsBlocks(s', env, t', target, map[] + Hashes(env, t, first, target + 1), r.landed);
  }

  /** The tail check rolls back only if the provider names another block at the tip. */
  lemma DivergesOnEvidence(s: Store, env: Env, cfg: Settings)
    requires NeverContradicts(env, s)
    ensures !CourseOf(s, env, cfg).Diverged?
  {
  }

  lemma FinishKeepsBlocks(s: Store, env: Env, t: nat, target: int, headers: map<int, Hash>, landed: bool)
    ensures Finish(s, env, t, target, headers, landed).store.canonical == s.canonical
  {
  }

  /** A span turns back at a height only if the header served for it names another parent than the
      block stored below, or, with nothing stored below, is another block than the one stored there. The
      search then starts right below that height. */
  lemma {:induction false} TurnsBackOnEvidence(s: Store, env: Env, t: nat, n: int, target: int, revives: bool)
    ensures var r := ScanFrom(s, env, t, n, target, revives);
            r.TurnedBack? ==>
              && n <= r.height <= target && r.from == r.height - 1 && Served(env, t, n, r.height).Got?
              && var h := Served(env, t, n, r.height).header;
                 if r.height - 1 in r.store.canonical then r.store.canonical[r.height - 1].hash != h.parent
                 else r.height in r.store.canonical && r.store.canonical[r.height].hash != h.hash
    decreases target + 1 - n
  {
    hide Inserted, Clashes;
    if n <= target && env.block(t, n).Got? {
      var h := env.block(t, n).header;
      TurnsBackOnEvidence(Inserted(s, n, h, revives), env, t + 2, n + 1, target, revives);
    }
  }

  /** And it passes a height only if the header served for it fits. */
  lemma {:induction false} PassesOnlyWhatFits(s: Store, env: Env, t: nat, n: int, target: int, revives: bool)
    requires n <= target && ScanFrom(s, env, t, n, target, revives).height > n
    ensures env.block(t, n).Got?
    ensures var h := env.block(t, n).header;
            if n - 1 in s.canonical then h.parent == s.canonical[n - 1].hash
            else n in s.canonical ==> h.hash == s.canonical[n].hash
  {
    hide Inserted, Clashes;
  }
}
