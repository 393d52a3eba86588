/** Reorgs against a provider whose chain holds still: the rollback finds the highest common
    ancestor, and repeated steps converge to the provider's chain. */
module WalkerReorg {
  import opened Wrappers
  import opened WalkerModel
  import opened WalkerSafety
  import opened WalkerScan

  /** The provider answers every height up to its head from the chain `p`. */
  ghost predicate Answers(env: Env, p: int -> Header, head: int) {
    env.head == Some(head) && forall t: nat, n: int | 0 <= n <= head :: env.block(t, n) == Got(p(n))
  }

  ghost predicate ErrorFree(env: Env) {
    forall t: nat :: env.ok(t)
  }

  ghost predicate ChainLinked(p: int -> Header) {
    forall n | n > 0 :: p(n).parent == p(n - 1).hash
  }

  predicate Agrees(s: Store, p: int -> Header, n: int) {
    n in s.canonical && s.canonical[n].hash == p(n).hash
  }

  /** Block hashes are collision-free: equal hashes mean equal headers, and a hash fixes its height. */
  ghost predicate CollisionFree(s: Store, p: int -> Header, height: Hash -> int) {
    && (forall n | Agrees(s, p, n) :: s.canonical[n].parent == p(n).parent)
    && (forall n :: height(p(n).hash) == n)
    && (forall n | n in s.canonical :: height(s.canonical[n].hash) == n)
  }

  /** Exactly the heights from `lo` to `hi` are stored, and they are linked. */
  ghost predicate StoredRun(s: Store, lo: int, hi: int) {
    && 0 < lo <= hi + 1
    && (forall n :: n in s.canonical <==> lo <= n <= hi)
    && Linked(s)
  }

  // ---- Agreement is downward closed ------------------------------------------------------

  lemma {:induction false} AgreementDescends(s: Store, p: int -> Header, height: Hash -> int, lo: int, hi: int, n: int,
                                             k: int)
    requires StoredRun(s, lo, hi) && ChainLinked(p) && CollisionFree(s, p, height)
    requires lo <= k <= n <= hi && Agrees(s, p, n)
    ensures Agrees(s, p, k)
    decreases n - k
  {
    if k < n {
      assert s.canonical[n].parent == s.canonical[n - 1].hash;
      assert Agrees(s, p, n - 1);
      AgreementDescends(s, p, height, lo, hi, n - 1, k);
    }
  }

  /** A matching tip means that nothing stored diverges. */
  lemma MatchingTip(s: Store, p: int -> Header, height: Hash -> int, lo: int, hi: int)
    requires StoredRun(s, lo, hi) && ChainLinked(p) && CollisionFree(s, p, height) && Agrees(s, p, hi)
    ensures forall n | n in s.canonical :: Agrees(s, p, n)
  {
    forall n | n in s.canonical
      ensures Agrees(s, p, n)
    {
      AgreementDescends(s, p, height, lo, hi, hi, n);
    }
  }

  // ---- Rollback --------------------------------------------------------------------------

  predicate Diverges(s: Store, p: int -> Header, n: int) {
    n in s.canonical && s.canonical[n].hash != p(n).hash
  }

  /** The search stops at the greatest height, within the depth limit, that does not diverge. */
  lemma {:induction false} SearchFinds(s: Store, env: Env, p: int -> Header, head: int, t: nat, number: int, depth: nat,
                                       maxDepth: nat)
    requires Answers(env, p, head) && number <= head && depth <= maxDepth + 1
    ensures var r := FindAncestor(s, env, t, number, depth, maxDepth);
            && !r.Broken?
            && (r.Found? ==> && 0 <= r.ancestor <= number && number - r.ancestor <= maxDepth - depth
                             && !Diverges(s, p, r.ancestor)
                             && forall k | r.ancestor < k <= number :: Diverges(s, p, k))
            && (r.NoAncestor? <==> forall k | 0 <= k <= number && number - k <= maxDepth - depth :: Diverges(s, p, k))
    decreases maxDepth + 1 - depth
  {
    if number >= 0 && depth <= maxDepth && Diverges(s, p, number) {
      SearchFinds(s, env, p, head, t + 1, number - 1, depth + 1, maxDepth);
    }
  }

  /** Rolling back from the tip of a stored run: the blocks orphaned are exactly the diverging ones,
      the checkpoint lands on the highest common ancestor, and if there is none within reach the
      step raises with the store untouched. */
  lemma RollBackIsExact(s: Store, env: Env, p: int -> Header, height: Hash -> int, head: int, t: nat, lo: int, hi: int,
                        cfg: Settings)
    requires StoredRun(s, lo, hi) && ChainLinked(p) && CollisionFree(s, p, height)
    requires Answers(env, p, head) && hi <= head
    ensures var r := RollBack(s, env, t, hi, cfg, true);
            && (r.verdict == TooDeep <==> forall k | 0 <= k <= hi && hi - k <= cfg.maxDepth :: Diverges(s, p, k))
            && (r.verdict == TooDeep ==> r.store == s)
            && (ErrorFree(env) ==> r.verdict == TooDeep || r.verdict == RolledBack)
            && (r.verdict == RolledBack ==>
                  && lo - 1 <= r.store.checkpoint <= hi && hi - r.store.checkpoint <= cfg.maxDepth
                  && StoredRun(r.store, lo, r.store.checkpoint)
                  && (forall n | n in s.canonical :: n in r.store.canonical <==> Agrees(s, p, n))
                  && (forall n | n in r.store.canonical :: r.store.canonical[n] == s.canonical[n])
                  && r.store.orphaned == s.orphaned + set n | n in s.canonical && Diverges(s, p, n) :: s.canonical[n].hash)
  {
    hide FindAncestor;
    SearchFinds(s, env, p, head, t, hi, 0, cfg.maxDepth);
    var found := FindAncestor(s, env, t, hi, 0, cfg.maxDepth);
    if found.Found? {
      var a := found.ancestor;
      assert !(a < lo - 1 <= hi && Diverges(s, p, lo - 1));
      forall n | n in s.canonical
        ensures Agrees(s, p, n) <==> n <= a
      {
        if n <= a {
          AgreementDescends(s, p, height, lo, hi, a, n);
        } else {
          assert Diverges(s, p, n);
        }
      }
      OrphansDiverging(s, p, a);
    }
  }

  lemma OrphansDiverging(s: Store, p: int -> Header, a: int)
    requires forall n | n in s.canonical :: Agrees(s, p, n) <==> n <= a
    ensures var o := OrphanedAbove(s, a);
            && (forall n | n in s.canonical :: n in o.canonical <==> Agrees(s, p, n))
            && o.orphaned == s.orphaned + set n | n in s.canonical && Diverges(s, p, n) :: s.canonical[n].hash
  {
    assert forall n | n in s.canonical :: n > a <==> Diverges(s, p, n);
  }

  // ---- Convergence -----------------------------------------------------------------------

  /** Whatever of the provider's chain was orphaned can become canonical again, or is canonical now. */
  ghost predicate Restorable(s: Store, p: int -> Header, lo: int, head: int, revives: bool) {
    revives || forall n | lo <= n <= head && p(n).hash in s.orphaned :: Agrees(s, p, n)
  }

  /** Everything stored is the provider's, the checkpoint lies within the stored run, and what is still
      missing can be stored. */
  ghost predicate Synced(s: Store, p: int -> Header, head: int, lo: int, hi: int, revives: bool) {
    && StoredRun(s, lo, hi) && 2 <= lo && lo - 1 <= s.checkpoint <= hi <= head
    && (forall n | n in s.canonical :: s.canonical[n] == p(n))
    && Restorable(s, p, lo, head, revives)
  }

  lemma SyncedInsert(s: Store, p: int -> Header, height: Hash -> int, head: int, lo: int, hi: int, n: int,
                     revives: bool)
    requires Synced(s, p, head, lo, hi, revives) && ChainLinked(p) && forall k :: height(p(k).hash) == k
    requires s.checkpoint < n <= hi + 1 && n <= head
    ensures CheckParent(s, n, p(n)).None? && !Clashes(s, n, p(n), revives)
    ensures var s' := Inserted(s, n, p(n), revives);
            && Synced(s', p, head, lo, if n > hi then n else hi, revives) && Landed(s', n, p(n))
            && s'.checkpoint == s.checkpoint
  {
    if n == hi + 1 {
      assert forall k | k in s.canonical :: height(s.canonical[k].hash) == k;
      assert height(p(n).hash) == n;
    } else {
      assert HasCanonicalHash(s, p(n).hash);
    }
  }

  /** Links, and what can be restored, depend on the block rows alone. */
  lemma RestorableKept(s: Store, s': Store, p: int -> Header, lo: int, head: int, revives: bool)
    requires Restorable(s, p, lo, head, revives) && Linked(s)
    requires s'.canonical == s.canonical && s'.orphaned == s.orphaned
    ensures Restorable(s', p, lo, head, revives) && Linked(s')
  {
    assert forall n :: Agrees(s', p, n) <==> Agrees(s, p, n);
  }

  /** Against an agreeing, error-free provider a walk reaches its target. */
  lemma {:induction false} SyncedWalk(s: Store, env: Env, p: int -> Header, height: Hash -> int, head: int, lo: int,
                                      hi: int,
                                      t: nat, n: int, target: int, headers: map<int, Hash>, cfg: Settings,
                                      revives: bool, landed: bool)
    requires Synced(s, p, head, lo, hi, revives) && ChainLinked(p) && forall k :: height(p(k).hash) == k
    requires Answers(env, p, head) && ErrorFree(env)
    requires s.checkpoint < n <= hi + 1 && n <= target + 1 && s.checkpoint < target <= head
    requires (n == target + 1 ==> target <= hi)
    ensures var r := Walk(s, env, t, n, target, headers, cfg, revives, landed);
            && r.verdict == Advanced && r.store.checkpoint == target && r.landed == landed
            && Synced(r.store, p, head, lo, if target > hi then target else hi, revives)
    decreases target + 1 - n
  {
    hide Inserted, Clashes, CheckParent, Landed, RollBack, Linked, ChainLinked, Restorable, Recorded;
    if n > target {
      RestorableKept(s, Walk(s, env, t, n, target, headers, cfg, revives, landed).store, p, lo, head, revives);
    } else {
      assert env.block(t, n) == Got(p(n));
      SyncedInsert(s, p, height, head, lo, hi, n, revives);
      var hi' := if n > hi then n else hi;
      hide Synced, Answers, ErrorFree, ChainLinked;
      SyncedWalk(Inserted(s, n, p(n), revives), env, p, height, head, lo, hi', t + 2, n + 1, target, headers[n := p(n).hash],
                 cfg, revives, landed && Landed(Inserted(s, n, p(n), revives), n, p(n)));
    }
  }

  lemma HighestOfRun(s: Store, lo: int, hi: int)
    requires StoredRun(s, lo, hi)
    ensures Highest(s.canonical.Keys) == if lo <= hi then Some(hi) else None
  {
    if lo <= hi {
      assert hi in s.canonical.Keys;
    }
  }

  /** One step of a synced walker moves the checkpoint a full span towards the head, or has nothing
      left to do. */
  lemma SyncedStep(s: Store, env: Env, p: int -> Header, height: Hash -> int, head: int, lo: int, hi: int,
                   cfg: Settings, revives: bool)
    requires Synced(s, p, head, lo, hi, revives) && ChainLinked(p) && forall k :: height(p(k).hash) == k
    requires Answers(env, p, head) && ErrorFree(env) && cfg.maxBlocks > 0
    ensures var r := Step(s, env, cfg, revives);
            && r.verdict == (if s.checkpoint < head then Advanced else Idle)
            && r.store.checkpoint == (if s.checkpoint >= head then s.checkpoint
                                      else if head < s.checkpoint + cfg.maxBlocks then head
                                      else s.checkpoint + cfg.maxBlocks)
            && Synced(r.store, p, head, lo, if r.store.checkpoint > hi then r.store.checkpoint else hi, revives)
  {
    hide *;
    TipAgrees(s, env, p, head, lo, hi, cfg, revives);
    SyncedBounds(s, p, head, lo, hi, revives);
    TargetIs(head, s.checkpoint, cfg);
    if s.checkpoint < head {
      var t := if lo <= hi then 2 else 1;
      SyncedWalk(s, env, p, height, head, lo, hi, t, s.checkpoint + 1, Target(head, s.checkpoint, cfg), map[], cfg, revives,
                 true);
    }
  }

  /** A synced walker finds its tip unchanged, and walks on unless it is at the head. */
  lemma TipAgrees(s: Store, env: Env, p: int -> Header, head: int, lo: int, hi: int, cfg: Settings, revives: bool)
    requires Synced(s, p, head, lo, hi, revives) && Answers(env, p, head) && ErrorFree(env) && cfg.maxBlocks > 0
    ensures Step(s, env, cfg, revives)
         == if s.checkpoint < head
            then Walk(s, env, if lo <= hi then 2 else 1, s.checkpoint + 1, Target(head, s.checkpoint, cfg), map[], cfg,
                      revives, true)
            else StepResult(s, Idle, true, None)
  {
    hide Walk, Highest, RollBack, Synced, Answers, ErrorFree;
    SyncedTip(s, env, p, head, lo, hi, revives);
    SyncedBounds(s, p, head, lo, hi, revives);
  }

  lemma SyncedTip(s: Store, env: Env, p: int -> Header, head: int, lo: int, hi: int, revives: bool)
    requires Synced(s, p, head, lo, hi, revives) && Answers(env, p, head) && ErrorFree(env)
    ensures env.head == Some(head) && env.ok(0) && s.checkpoint > 0
    ensures Highest(s.canonical.Keys) == if lo <= hi then Some(hi) else None
    ensures lo <= hi ==> hi in s.canonical && s.canonical[hi] == p(hi) && env.block(1, hi) == Got(p(hi))
  {
    HighestOfRun(s, lo, hi);
    hide Linked, Restorable, Highest;
  }

  /** The `n`-th step meets `envs(n)`. */
  ghost function Iterate(s: Store, envs: nat -> Env, cfg: Settings, revives: bool, n: nat): Store {
    if n == 0 then s else Step(Iterate(s, envs, cfg, revives, n - 1), envs(n - 1), cfg, revives).store
  }

  ghost function Rollbacks(s: Store, envs: nat -> Env, cfg: Settings, revives: bool, n: nat): nat {
    if n == 0 then 0
    else
      Rollbacks(s, envs, cfg, revives, n - 1)
      + if Step(Iterate(s, envs, cfg, revives, n - 1), envs(n - 1), cfg, revives).verdict == RolledBack then 1 else 0
  }

  /** After `n` steps a synced walker has advanced at least `n` blocks, or is at the head. */
  lemma {:induction false} SyncedFor(s: Store, envs: nat -> Env, p: int -> Header, height: Hash -> int, head: int,
                                     lo: int, hi: int,
                                     cfg: Settings, revives: bool, m: nat, n: nat) returns (hi': int)
    requires m <= n && Synced(Iterate(s, envs, cfg, revives, m), p, head, lo, hi, revives)
    requires ChainLinked(p) && forall k :: height(p(k).hash) == k
    requires forall k: nat :: Answers(envs(k), p, head) && ErrorFree(envs(k))
    requires cfg.maxBlocks > 0
    ensures var at := Iterate(s, envs, cfg, revives, n);
            && Synced(at, p, head, lo, hi', revives)
            && (at.checkpoint == head || at.checkpoint >= Iterate(s, envs, cfg, revives, m).checkpoint + n - m)
    ensures Rollbacks(s, envs, cfg, revives, n) == Rollbacks(s, envs, cfg, revives, m)
    decreases n - m
  {
    hide Step, Answers, ErrorFree, ChainLinked, Synced;
    if m == n {
      hi' := hi;
    } else {
      var h := SyncedFor(s, envs, p, height, head, lo, hi, cfg, revives, m, n - 1);
      var before := Iterate(s, envs, cfg, revives, n - 1);
      SyncedStep(before, envs(n - 1), p, height, head, lo, h, cfg, revives);
      var after := Step(before, envs(n - 1), cfg, revives).store;
      hi' := if after.checkpoint > h then after.checkpoint else h;
      SyncedBounds(before, p, head, lo, h, revives);
    }
  }

  lemma SyncedBounds(s: Store, p: int -> Header, head: int, lo: int, hi: int, revives: bool)
    requires Synced(s, p, head, lo, hi, revives)
    ensures lo - 1 <= s.checkpoint <= hi <= head
    ensures s.checkpoint == head ==>
              forall n :: (n in s.canonical <==> lo <= n <= head) && (n in s.canonical ==> s.canonical[n] == p(n))
  {
  }

  /** A stored run above a positive height, holding the checkpoint. */
  ghost predicate Startable(s: Store, p: int -> Header, height: Hash -> int, head: int, lo: int, hi: int) {
    && StoredRun(s, lo, hi) && 2 <= lo && lo - 1 <= s.checkpoint <= hi <= head
    && CollisionFree(s, p, height)
  }

  /** The store and the provider have a common ancestor no deeper below the tip than a rollback goes. */
  ghost predicate WithinReach(s: Store, p: int -> Header, hi: int, cfg: Settings) {
    exists k :: 0 <= k <= hi && hi - k <= cfg.maxDepth && !Diverges(s, p, k)
  }

  lemma AgreeingIsSynced(s: Store, p: int -> Header, height: Hash -> int, head: int, lo: int, hi: int, revives: bool)
    requires Startable(s, p, height, head, lo, hi) && Restorable(s, p, lo, head, revives) && ChainLinked(p)
    requires lo <= hi ==> Agrees(s, p, hi)
    ensures Synced(s, p, head, lo, hi, revives)
  {
    if lo <= hi {
      MatchingTip(s, p, height, lo, hi);
    }
  }

  lemma RolledBackIsSynced(s: Store, env: Env, p: int -> Header, height: Hash -> int, head: int, t: nat, lo: int,
                           hi: int, cfg: Settings,
                           revives: bool)
    requires Startable(s, p, height, head, lo, hi) && WithinReach(s, p, hi, cfg) && Restorable(s, p, lo, head, revives)
    requires ChainLinked(p) && Answers(env, p, head) && ErrorFree(env)
    ensures var r := RollBack(s, env, t, hi, cfg, true);
            r.verdict == RolledBack && Synced(r.store, p, head, lo, r.store.checkpoint, revives)
  {
    RollBackIsExact(s, env, p, height, head, t, lo, hi, cfg);
    hide RollBack;
    var r := RollBack(s, env, t, hi, cfg, true);
    assert r.verdict == RolledBack;
    forall n | lo <= n <= head && p(n).hash in r.store.orphaned && !revives
      ensures Agrees(r.store, p, n)
    {
      assert height(p(n).hash) == n;
      assert forall k | k in s.canonical :: height(s.canonical[k].hash) == k;
      assert Agrees(s, p, n);
    }
  }

  /** The first step either finds the tip agreeing, or rolls back; either way the walker is synced
      afterwards. */
  lemma FirstStep(s: Store, env: Env, p: int -> Header, height: Hash -> int, head: int, lo: int, hi: int, cfg: Settings,
                  revives: bool)
    returns (hi': int)
    requires Startable(s, p, height, head, lo, hi) && WithinReach(s, p, hi, cfg) && Restorable(s, p, lo, head, revives)
    requires ChainLinked(p) && Answers(env, p, head) && ErrorFree(env) && cfg.maxBlocks > 0
    ensures Synced(Step(s, env, cfg, revives).store, p, head, lo, hi', revives)
  {
    HighestOfRun(s, lo, hi);
    if lo <= hi && !Agrees(s, p, hi) {
      RolledBackIsSynced(s, env, p, height, head, 2, lo, hi, cfg, revives);
      assert env.block(1, hi) == Got(p(hi));
      hide RollBack, Advance, Synced, Restorable, Answers, WithinReach;
      hi' := Step(s, env, cfg, revives).store.checkpoint;
    } else {
      AgreeingIsSynced(s, p, height, head, lo, hi, revives);
      SyncedStep(s, env, p, height, head, lo, hi, cfg, revives);
      hide Step;
      var c := Step(s, env, cfg, revives).store.checkpoint;
      hi' := if c > hi then c else hi;
    }
  }

  /** The checkpoint is at the head, and exactly the provider's blocks are stored from `lo` on. */
  ghost predicate Converged(s: Store, p: int -> Header, head: int, lo: int) {
    && s.checkpoint == head
    && (forall k :: k in s.canonical <==> lo <= k <= head)
    && (forall k | k in s.canonical :: s.canonical[k] == p(k))
  }

  /** Against a provider chain that stops changing, error-free steps roll back at most once and then
      converge. The distance from checkpoint to head shrinks with every step after the first. */
  lemma Converges(s: Store, envs: nat -> Env, p: int -> Header, height: Hash -> int, head: int, lo: int, hi: int,
                  cfg: Settings, revives: bool, n: nat)
    requires Startable(s, p, height, head, lo, hi) && WithinReach(s, p, hi, cfg) && Restorable(s, p, lo, head, revives)
    requires ChainLinked(p) && forall k: nat :: Answers(envs(k), p, head) && ErrorFree(envs(k))
    requires cfg.maxBlocks > 0 && n >= head - lo + 2
    ensures Converged(Iterate(s, envs, cfg, revives, n), p, head, lo)
    ensures Rollbacks(s, envs, cfg, revives, n) <= 1
  {
    hide Step, Synced;
    var h := FirstStep(s, envs(0), p, height, head, lo, hi, cfg, revives);
    assert Iterate(s, envs, cfg, revives, 0) == s && Rollbacks(s, envs, cfg, revives, 0) == 0;
    assert Iterate(s, envs, cfg, revives, 1) == Step(s, envs(0), cfg, revives).store;
    SyncedBounds(Iterate(s, envs, cfg, revives, 1), p, head, lo, h, revives);
    var h' := SyncedFor(s, envs, p, height, head, lo, h, cfg, revives, 1, n);
    SyncedBounds(Iterate(s, envs, cfg, revives, n), p, head, lo, h', revives);
  }

  // ---- When it does not converge ---------------------------------------------------------

  /** A hash stored as orphaned, and canonical nowhere. */
  ghost predicate Lost(s: Store, hash: Hash) {
    hash in s.orphaned && !HasCanonicalHash(s, hash)
  }

  lemma RollBackLoses(s: Store, env: Env, t: nat, from: int, cfg: Settings, landed: bool, hash: Hash)
    requires Lost(s, hash)
    ensures Lost(RollBack(s, env, t, from, cfg, landed).store, hash)
  {
    hide FindAncestor;
    forall a
      ensures Lost(OrphanedAbove(s, a), hash) && Lost(OrphanedAbove(s, a).(checkpoint := a), hash)
    {
      OrphanLoses(s, a, hash);
    }
    hide OrphanedAbove, Lost;
  }

  lemma OrphanLoses(s: Store, a: int, hash: Hash)
    requires Lost(s, hash)
    ensures Lost(OrphanedAbove(s, a), hash) && Lost(OrphanedAbove(s, a).(checkpoint := a), hash)
  {
  }

  lemma InsertLoses(s: Store, n: int, h: Header, hash: Hash)
    requires Lost(s, hash)
    ensures Lost(Inserted(s, n, h, false), hash)
  {
    var s' := Inserted(s, n, h, false);
    if s' != s {
      assert s'.canonical == s.canonical[n := h] && h.hash != hash;
    }
  }

  lemma FinishLoses(s: Store, env: Env, t: nat, target: int, headers: map<int, Hash>, landed: bool, hash: Hash)
    requires Lost(s, hash)
    ensures Lost(Finish(s, env, t, target, headers, landed).store, hash)
  {
  }

  lemma {:induction false} WalkLoses(s: Store, env: Env, t: nat, n: int, target: int, headers: map<int, Hash>,
                                     cfg: Settings, landed: bool,
                                     hash: Hash)
    requires Lost(s, hash)
    ensures Lost(Walk(s, env, t, n, target, headers, cfg, false, landed).store, hash)
    decreases target + 1 - n
  {
    hide Lost, Inserted, Clashes, CheckParent, RollBack, Finish, Landed;
    if n > target {
      FinishLoses(s, env, t, target, headers, landed, hash);
    } else if env.block(t, n).Got? {
      var h := env.block(t, n).header;
      var from, s' := CheckParent(s, n, h), Inserted(s, n, h, false);
      if from.Some? {
        RollBackLoses(s, env, t + 1, from.value, cfg, landed, hash);
      } else {
        InsertLoses(s, n, h, hash);
        WalkLoses(s', env, t + 2, n + 1, target, headers[n := h.hash], cfg, landed && Landed(s', n, h), hash);
      }
    }
  }

  lemma StepLoses(s: Store, env: Env, cfg: Settings, hash: Hash)
    requires Lost(s, hash)
    ensures Lost(Step(s, env, cfg, false).store, hash)
  {
    hide Lost, RollBack, Walk;
    if env.head.Some? {
      var head, latest := env.head.value, Highest(s.canonical.Keys);
      var c := EffectiveCheckpoint(s, head, cfg);
      WalkLoses(s, env, 1, c + 1, Target(head, c, cfg), map[], cfg, true, hash);
      WalkLoses(s, env, 2, c + 1, Target(head, c, cfg), map[], cfg, true, hash);
      if latest.Some? {
        RollBackLoses(s, env, 2, latest.value, cfg, true, hash);
      }
    }
  }

  /** As shipped: an orphaned block that is canonical nowhere never becomes canonical again, in any
      run, whatever the provider answers. */
  lemma {:induction false} LostForever(s: Store, envs: seq<Env>, cfg: Settings, hash: Hash)
    requires Lost(s, hash)
    ensures Lost(Run(s, envs, cfg, false), hash)
  {
    hide Lost, Step;
    if |envs| > 0 {
      LostForever(s, envs[..|envs| - 1], cfg, hash);
      StepLoses(Run(s, envs[..|envs| - 1], cfg, false), envs[|envs| - 1], cfg, hash);
    }
  }

  lemma {:induction false} LostThroughout(s: Store, envs: nat -> Env, cfg: Settings, hash: Hash, n: nat)
    requires Lost(s, hash)
    ensures Lost(Iterate(s, envs, cfg, false, n), hash)
  {
    hide Lost, Step;
    if n > 0 {
      LostThroughout(s, envs, cfg, hash, n - 1);
      StepLoses(Iterate(s, envs, cfg, false, n - 1), envs(n - 1), cfg, hash);
    }
  }

  /** Out of reach: every step raises, and the store stays as it is. */
  lemma {:induction false} StuckForever(s: Store, envs: nat -> Env, p: int -> Header, height: Hash -> int, head: int,
                                        lo: int, hi: int,
                                        cfg: Settings, revives: bool, n: nat)
    requires Startable(s, p, height, head, lo, hi) && !WithinReach(s, p, hi, cfg)
    requires ChainLinked(p) && forall k: nat :: Answers(envs(k), p, head) && ErrorFree(envs(k))
    ensures Iterate(s, envs, cfg, revives, n) == s && Diverges(s, p, hi)
  {
    hide Step;
    assert Diverges(s, p, hi);
    if n > 0 {
      StuckForever(s, envs, p, height, head, lo, hi, cfg, revives, n - 1);
      StuckStep(s, envs(n - 1), p, height, head, lo, hi, cfg, revives);
    }
  }

  lemma StuckStep(s: Store, env: Env, p: int -> Header, height: Hash -> int, head: int, lo: int, hi: int, cfg: Settings,
                  revives: bool)
    requires Startable(s, p, height, head, lo, hi) && !WithinReach(s, p, hi, cfg)
    requires ChainLinked(p) && Answers(env, p, head) && ErrorFree(env)
    ensures Step(s, env, cfg, revives).verdict == TooDeep && Step(s, env, cfg, revives).store == s
  {
    assert Diverges(s, p, hi);
    HighestOfRun(s, lo, hi);
    RollBackIsExact(s, env, p, height, head, 2, lo, hi, cfg);
    assert env.block(1, hi) == Got(p(hi));
    hide RollBack, Advance;
  }

  /** When exactly the walker converges against a provider chain that stops changing: a common ancestor
      lies within reach of a rollback, and no block of the provider's that is missing was orphaned
      before, unless inserting revives it. */
  lemma ConvergesExactlyWhen(s: Store, envs: nat -> Env, p: int -> Header, height: Hash -> int, head: int, lo: int,
                             hi: int,
                             cfg: Settings, revives: bool, n: nat)
    requires Startable(s, p, height, head, lo, hi) && ChainLinked(p)
    requires forall k: nat :: Answers(envs(k), p, head) && ErrorFree(envs(k))
    requires cfg.maxBlocks > 0 && n >= head - lo + 2
    ensures Converged(Iterate(s, envs, cfg, revives, n), p, head, lo)
       <==> WithinReach(s, p, hi, cfg) && Restorable(s, p, lo, head, revives)
  {
    hide Step, Iterate;
    var at := Iterate(s, envs, cfg, revives, n);
    if !WithinReach(s, p, hi, cfg) {
      StuckForever(s, envs, p, height, head, lo, hi, cfg, revives, n);
    } else if !Restorable(s, p, lo, head, revives) {
      var k :| lo <= k <= head && p(k).hash in s.orphaned && !Agrees(s, p, k);
      hide WithinReach;
      MissingIsLost(s, p, height, k);
      LostThroughout(s, envs, cfg, p(k).hash, n);
      assert !(k in at.canonical && at.canonical[k].hash == p(k).hash);
    } else {
      Converges(s, envs, p, height, head, lo, hi, cfg, revives, n);
    }
  }

  lemma MissingIsLost(s: Store, p: int -> Header, height: Hash -> int, k: int)
    requires CollisionFree(s, p, height) && p(k).hash in s.orphaned && !Agrees(s, p, k)
    ensures Lost(s, p(k).hash)
  {
    assert height(p(k).hash) == k;
  }

  // ---- A cold start ----------------------------------------------------------------------

  /** A walk that advances ends the same wherever the checkpoint stood before. */
  lemma {:induction false} WalkForgets(s: Store, s': Store, env: Env, t: nat, n: int, target: int,
                                       headers: map<int, Hash>, cfg: Settings,
                                       revives: bool, landed: bool)
    requires s' == s.(checkpoint := s'.checkpoint)
    ensures var r, r' := Walk(s, env, t, n, target, headers, cfg, revives, landed),
                         Walk(s', env, t, n, target, headers, cfg, revives, landed);
            r.verdict == Advanced <==> r'.verdict == Advanced
    ensures var r, r' := Walk(s, env, t, n, target, headers, cfg, revives, landed),
                         Walk(s', env, t, n, target, headers, cfg, revives, landed);
            r.verdict == Advanced ==> r.store == r'.store
    decreases target + 1 - n
  {
    hide RollBack;
    if n <= target && env.block(t, n).Got? {
      var h := env.block(t, n).header;
      InsertForgets(s, s', n, h, revives);
      hide Inserted, Clashes, CheckParent, Landed;
      var from := CheckParent(s, n, h);
      if from.Some? {
        RollBackNeverAdvances(s, env, t + 1, from.value, cfg, landed);
        RollBackNeverAdvances(s', env, t + 1, from.value, cfg, landed);
      }
      var after := Inserted(s, n, h, revives);
      WalkForgets(after, Inserted(s', n, h, revives), env, t + 2, n + 1, target, headers[n := h.hash], cfg, revives,
                  landed && Landed(after, n, h));
    }
  }

  lemma InsertForgets(s: Store, s': Store, n: int, h: Header, revives: bool)
    requires s' == s.(checkpoint := s'.checkpoint)
    ensures CheckParent(s', n, h) == CheckParent(s, n, h) && (Clashes(s', n, h, revives) <==> Clashes(s, n, h, revives))
    ensures var after, after' := Inserted(s, n, h, revives), Inserted(s', n, h, revives);
            && after' == after.(checkpoint := s'.checkpoint) && after'.checkpoint == s'.checkpoint
            && (Landed(after', n, h) <==> Landed(after, n, h))
  {
    assert Known(s', h.hash) <==> Known(s, h.hash);
  }

  /** Nothing is stored, and the checkpoint is derived: `cfg.lookback` blocks below the head. */
  ghost predicate Cold(s: Store, head: int, cfg: Settings) {
    s.canonical == map[] && s.checkpoint <= 0 && 0 < head - cfg.lookback < head
  }

  lemma ColdIsStartable(s: Store, p: int -> Header, height: Hash -> int, head: int, cfg: Settings)
    requires Cold(s, head, cfg) && forall k :: height(p(k).hash) == k
    ensures var c := head - cfg.lookback; var at := s.(checkpoint := c);
            Startable(at, p, height, head, c + 1, c) && WithinReach(at, p, c, cfg)
  {
    var c := head - cfg.lookback;
    assert 0 <= c <= c && !Diverges(s.(checkpoint := c), p, c);
  }

  /** The first step of a cold start is that of a walker whose checkpoint is the derived start. */
  lemma ColdStep(s: Store, env: Env, p: int -> Header, height: Hash -> int, head: int, cfg: Settings, revives: bool)
    requires Cold(s, head, cfg) && ChainLinked(p) && (forall k :: height(p(k).hash) == k)
    requires Answers(env, p, head) && ErrorFree(env) && cfg.maxBlocks > 0
    requires Restorable(s, p, head - cfg.lookback + 1, head, revives)
    ensures Step(s, env, cfg, revives).store == Step(s.(checkpoint := head - cfg.lookback), env, cfg, revives).store
  {
    var c := head - cfg.lookback;
    var at := s.(checkpoint := c);
    ColdIsStartable(s, p, height, head, cfg);
    assert Restorable(at, p, c + 1, head, revives) by {
      assert forall n :: Agrees(at, p, n) <==> Agrees(s, p, n);
    }
    assert env.head == Some(head) && env.ok(0);
    EmptyStep(s, env, head, c, cfg, revives);
    EmptyStep(at, env, head, c, cfg, revives);
    hide *;
    AgreeingIsSynced(at, p, height, head, c + 1, c, revives);
    SyncedStep(at, env, p, height, head, c + 1, c, cfg, revives);
    WalkForgets(s, at, env, 1, c + 1, Target(head, c, cfg), map[], cfg, revives, true);
  }

  /** With nothing stored there is no tip to check. */
  lemma EmptyStep(s: Store, env: Env, head: int, c: int, cfg: Settings, revives: bool)
    requires s.canonical == map[] && env.head == Some(head) && env.ok(0) && cfg.maxBlocks > 0
    requires EffectiveCheckpoint(s, head, cfg) == c < head
    ensures Step(s, env, cfg, revives) == Walk(s, env, 1, c + 1, Target(head, c, cfg), map[], cfg, revives, true)
  {
    hide Walk, RollBack;
    assert s.canonical.Keys == {};
  }

  lemma {:induction false} ColdIterate(s: Store, envs: nat -> Env, p: int -> Header, height: Hash -> int, head: int,
                                       cfg: Settings,
                                       revives: bool, n: nat)
    requires Cold(s, head, cfg) && ChainLinked(p) && (forall k :: height(p(k).hash) == k)
    requires forall k: nat :: Answers(envs(k), p, head) && ErrorFree(envs(k))
    requires cfg.maxBlocks > 0 && n > 0 && Restorable(s, p, head - cfg.lookback + 1, head, revives)
    ensures Iterate(s, envs, cfg, revives, n) == Iterate(s.(checkpoint := head - cfg.lookback), envs, cfg, revives, n)
  {
    hide Step, Cold, Restorable, ChainLinked;
    if n == 1 {
      ColdStep(s, envs(0), p, height, head, cfg, revives);
      assert Iterate(s, envs, cfg, revives, 0) == s;
      assert Iterate(s.(checkpoint := head - cfg.lookback), envs, cfg, revives, 0)
        == s.(checkpoint := head - cfg.lookback);
    } else {
      ColdIterate(s, envs, p, height, head, cfg, revives, n - 1);
    }
  }

  /** From an empty store the walker converges, from the derived start on, if and only if none of the
      provider's blocks there was orphaned before, unless inserting revives them. */
  lemma ColdStartConvergesExactlyWhen(s: Store, envs: nat -> Env, p: int -> Header, height: Hash -> int, head: int,
                                      cfg: Settings,
                                      revives: bool, n: nat)
    requires Cold(s, head, cfg) && ChainLinked(p) && (forall k :: height(p(k).hash) == k)
    requires forall k: nat :: Answers(envs(k), p, head) && ErrorFree(envs(k))
    requires cfg.maxBlocks > 0 && n > cfg.lookback
    ensures Converged(Iterate(s, envs, cfg, revives, n), p, head, head - cfg.lookback + 1)
       <==> revives || forall k | head - cfg.lookback < k <= head :: p(k).hash !in s.orphaned
  {
    var c := head - cfg.lookback;
    var at, end := s.(checkpoint := c), Iterate(s, envs, cfg, revives, n);
    assert forall k :: !Agrees(s, p, k) && !Agrees(at, p, k);
    assert Restorable(s, p, c + 1, head, revives) <==> revives || forall k | c < k <= head :: p(k).hash !in s.orphaned;
    assert Restorable(at, p, c + 1, head, revives) <==> Restorable(s, p, c + 1, head, revives);
    ColdIsStartable(s, p, height, head, cfg);
    hide Step, Iterate, ChainLinked, WithinReach, Startable, Restorable, Cold;
    if Restorable(s, p, c + 1, head, revives) {
      ColdIterate(s, envs, p, height, head, cfg, revives, n);
      ConvergesExactlyWhen(at, envs, p, height, head, c + 1, c, cfg, revives, n);
    } else {
      var k :| c < k <= head && p(k).hash in s.orphaned;
      assert Lost(s, p(k).hash);
      LostThroughout(s, envs, cfg, p(k).hash, n);
      assert !(k in end.canonical && end.canonical[k].hash == p(k).hash);
    }
  }
}
