/** The chain walker as it runs: a loop over heights that verifies, stores, rolls back and moves the
    checkpoint, proved to do exactly what the step function says. */
module Walker {
  import opened Sets
  import opened Wrappers
  import opened WalkerModel

  class ChainWalker {
    const cfg: Settings
    const revives: bool
    var canonical: map<int, Header>
    var orphaned: set<Hash>
    var checkpoint: int
    var steps: nat
    var payments: map<nat, int>
    ghost var filtered: map<int, Hash>
    ghost var offered: map<int, seq<Event>>

    constructor (cfg: Settings, revives: bool, checkpoint: int)
      ensures this.cfg == cfg && this.revives == revives
      ensures View() == Store(map[], {}, checkpoint, map[], map[], map[])
    {
      this.cfg, this.revives, this.checkpoint := cfg, revives, checkpoint;
      canonical, orphaned, steps, payments, filtered, offered := map[], {}, 0, map[], map[], map[];
    }

    ghost function View(): Store
      reads this
    {
      Store(canonical, orphaned, checkpoint, payments, filtered, offered)
    }

    // ---- Store statements ----------------------------------------------------------------

    /** The highest stored height, by scanning the rows. */
    method LatestCanonicalBlock() returns (latest: Option<int>)
      ensures latest == Highest(canonical.Keys)
    {
      var left := canonical.Keys;
      latest := None;
      while left != {}
        invariant left <= canonical.Keys
        invariant latest.None? ==> left == canonical.Keys
        invariant latest.Some? ==> latest.value in canonical && forall n | n in canonical :: n in left || n <= latest.value
        decreases |left|
      {
        var n := PickOne(left);
        if latest.None? || n > latest.value {
          latest := Some(n);
        }
        left := left - {n};
      }
    }

    /** Insert a header; false when the height is held by another canonical block, which the store
        reports as an integrity error. */
    method InsertBlock(n: int, h: Header) returns (ok: bool)
      modifies this`canonical, this`orphaned
      ensures ok == !Clashes(old(View()), n, h, revives)
      ensures ok ==> View() == Inserted(old(View()), n, h, revives)
      ensures !ok ==> View() == old(View())
    {
      var known := h.hash in orphaned || exists k | k in canonical :: canonical[k].hash == h.hash;
      assert known == Known(View(), h.hash);
      if revives {
        if n in canonical {
          return canonical[n].hash == h.hash;
        }
      } else if known {
        return true;
      } else if n in canonical {
        return false;
      }
      canonical := canonical[n := h];
      orphaned := orphaned - {h.hash};
      ok := true;
    }

    method OrphanBlocksAbove(a: int)
      modifies this`canonical, this`orphaned
      ensures View() == OrphanedAbove(old(View()), a)
    {
      orphaned := orphaned + set n | n in canonical && n > a :: canonical[n].hash;
      canonical := map n | n in canonical && n <= a :: canonical[n];
    }

    /** Insert the payments of a span in one transaction; an event whose key is stored already conflicts
        and leaves the row as it is. */
    method InsertPayments(events: seq<Event>) returns (inserted: seq<Event>, conflicted: seq<Event>)
      modifies this`payments
      ensures payments == Written(old(payments), events)
      ensures |inserted| + |conflicted| == |events| && multiset(inserted) + multiset(conflicted) == multiset(events)
      ensures |payments| == |old(payments)| + |inserted|
      ensures forall e | e in inserted :: e.id !in old(payments) && e.id in payments && payments[e.id] == e.block
    {
      hide Written;
      inserted, conflicted := [], [];
      WrittenNext(payments, [], Event(0, 0, 0));
      for k := 0 to |events|
        invariant payments == Written(old(payments), events[..k])
        invariant |inserted| + |conflicted| == k
        invariant multiset(inserted) + multiset(conflicted) == multiset(events[..k])
        invariant |payments| == |old(payments)| + |inserted|
        invariant forall id | id in old(payments) :: id in payments
        invariant forall e | e in inserted :: e.id !in old(payments) && e.id in payments && payments[e.id] == e.block
      {
        var e := events[k];
        assert events[..k + 1] == events[..k] + [e];
        WrittenNext(old(payments), events[..k], e);
        if e.id in payments {
          conflicted := conflicted + [e];
        } else {
          payments := payments[e.id := e.block];
          inserted := inserted + [e];
        }
      }
      assert events[..|events|] == events;
    }

    // ---- Rollback ------------------------------------------------------------------------

    /** Walk back to the common ancestor. */
    method CommonAncestor(env: Env, t: nat, from: int) returns (r: Search)
      ensures r == FindAncestor(View(), env, t, from, 0, cfg.maxDepth)
    {
      var number, depth, tick := from, 0, t;
      while number >= 0 && depth <= cfg.maxDepth
        invariant depth <= cfg.maxDepth + 1
        invariant FindAncestor(View(), env, t, from, 0, cfg.maxDepth)
             == FindAncestor(View(), env, tick, number, depth, cfg.maxDepth)
        decreases cfg.maxDepth + 1 - depth
      {
        if number !in canonical {
          return Found(number, tick);
        }
        match env.block(tick, number) {
          case Got(h) =>
            if h.hash == canonical[number].hash {
              return Found(number, tick + 1);
            }
          case _ =>
            return Broken;
        }
        number, depth, tick := number - 1, depth + 1, tick + 1;
      }
      r := NoAncestor;
    }

    /** Orphan everything above the common ancestor, then move the checkpoint there. */
    method DoRollback(env: Env, t: nat, from: int, ghost landed: bool)
      returns (verdict: Verdict, rollback: Option<Rollback>)
      modifies this`canonical, this`orphaned, this`checkpoint
      ensures StepResult(View(), verdict, landed, rollback) == RollBack(old(View()), env, t, from, cfg, landed)
    {
      hide FindAncestor;
      var found := CommonAncestor(env, t, from);
      match found {
        case NoAncestor => return TooDeep, None;
        case Broken => return Failed, None;
        case Found(a, tick) =>
          if !env.ok(tick) {
            return Failed, None;
          }
          OrphanBlocksAbove(a);
          if !env.ok(tick + 1) {
            return Failed, Some(Rollback(a, false));
          }
          checkpoint := a;
          return RolledBack, Some(Rollback(a, true));
      }
    }

    // ---- One step ------------------------------------------------------------------------

    /** Phase two: read the logs of the verified span, write the payments, move the checkpoint. */
    method FinishSpan(env: Env, t: nat, target: int, headers: map<int, Hash>, ghost landed: bool)
      returns (verdict: Verdict)
      modifies this`checkpoint, this`payments, this`filtered, this`offered
      ensures StepResult(View(), verdict, landed, None) == Finish(old(View()), env, t, target, headers, landed)
    {
      hide KeptEvents, Written;
      if !env.ok(t) || !env.ok(t + 1) {
        return Failed;
      }
      var kept := FilterEvents(env.logs(t), headers);
      var inserted, conflicted := InsertPayments(kept);
      filtered := filtered + headers;
      offered := offered + map n | n in headers :: env.logs(t);
      if !env.ok(t + 2) {
        return Failed;
      }
      checkpoint := target;
      verdict := Advanced;
    }

    /** Phase one: headers, verified and stored one height at a time; then phase two. */
    method WalkSpan(env: Env, t: nat, first: int, target: int)
      returns (verdict: Verdict, ghost landed: bool, rollback: Option<Rollback>)
      requires first <= target + 1
      modifies this`canonical, this`orphaned, this`checkpoint, this`payments, this`filtered, this`offered
      ensures StepResult(View(), verdict, landed, rollback)
           == Walk(old(View()), env, t, first, target, map[], cfg, revives, true)
    {
      hide RollBack, Clashes, Inserted, CheckParent, Landed, Finish;
      var tick := t;
      var headers: map<int, Hash> := map[];
      landed, rollback := true, None;
      for number := first to target + 1
        invariant Walk(old(View()), env, t, first, target, map[], cfg, revives, true)
               == Walk(View(), env, tick, number, target, headers, cfg, revives, landed)
      {
        match env.block(tick, number) {
          case Got(h) =>
            var from := ParentCheck(number, h);
            if from.Some? {
              verdict, rollback := DoRollback(env, tick + 1, from.value, landed);
              return verdict, landed, rollback;
            }
            if !env.ok(tick + 1) {
              return Failed, landed, None;
            }
            var written := InsertBlock(number, h);
            if !written {
              return Failed, landed, None;
            }
            landed := landed && Landed(View(), number, h);
            headers := headers[number := h.hash];
          case _ =>
            return Failed, landed, None;
        }
        tick := tick + 2;
      }
      verdict := FinishSpan(env, tick, target, headers, landed);
    }

    method ParentCheck(n: int, h: Header) returns (from: Option<int>)
      ensures from == CheckParent(View(), n, h)
    {
      if n - 1 !in canonical {
        if n !in canonical || canonical[n].hash == h.hash {
          return None;
        }
        return Some(n - 1);
      }
      from := if canonical[n - 1].hash == h.parent then None else Some(n - 1);
    }

    /** Where to resume from. */
    method ResumeFrom(head: int) returns (c: int)
      ensures c == EffectiveCheckpoint(View(), head, cfg)
    {
      if checkpoint > 0 {
        return checkpoint;
      }
      c := if head - cfg.lookback > 0 then head - cfg.lookback else 0;
    }

    method AdvanceFrom(env: Env, t: nat, head: int)
      returns (verdict: Verdict, ghost landed: bool, rollback: Option<Rollback>)
      modifies this`canonical, this`orphaned, this`checkpoint, this`payments, this`filtered, this`offered
      ensures StepResult(View(), verdict, landed, rollback) == Advance(old(View()), env, t, head, cfg, revives)
    {
      hide Walk;
      var start := ResumeFrom(head);
      var target := Target(head, start, cfg);
      if start >= head || target <= start {
        return Idle, true, None;
      }
      verdict, landed, rollback := WalkSpan(env, t, start + 1, target);
    }

    /** One poll: advance the checkpoint by at most one span, or handle one reorg. */
    method DoStep(env: Env) returns (verdict: Verdict, ghost landed: bool, rollback: Option<Rollback>)
      modifies this
      ensures StepResult(View(), verdict, landed, rollback) == Step(old(View()), env, cfg, revives)
      ensures steps == old(steps) + 1
    {
      hide Advance, RollBack;
      steps := steps + 1;
      if env.head.None? || !env.ok(0) {
        return Failed, true, None;
      }
      var latest := LatestCanonicalBlock();
      var tick := 1;
      if latest.Some? {
        match env.block(1, latest.value) {
          case Got(h) =>
            if h.hash != canonical[latest.value].hash {
              verdict, rollback := DoRollback(env, 2, latest.value, true);
              return verdict, true, rollback;
            }
          case RpcFailed =>
          case Unusable =>
            return Failed, true, None;
        }
        tick := 2;
      }
      verdict, landed, rollback := AdvanceFrom(env, tick, env.head.value);
    }
  }

  /** `kept` is `events` with some of them left out. */
  ghost predicate InOrder(kept: seq<Event>, events: seq<Event>) {
    exists at: seq<nat> ::
      && |at| == |kept|
      && (forall j, k | 0 <= j < k < |at| :: at[j] < at[k])
      && (forall k | 0 <= k < |at| :: at[k] < |events| && kept[k] == events[at[k]])
  }

  lemma {:induction false} KeptInOrder(events: seq<Event>, headers: map<int, Hash>) returns (at: seq<nat>)
    ensures var kept := KeptEvents(events, headers);
            && |at| == |kept|
            && (forall j, k | 0 <= j < k < |at| :: at[j] < at[k])
            && (forall k | 0 <= k < |at| :: at[k] < |events| && kept[k] == events[at[k]])
  {
    hide Kept;
    if |events| == 0 {
      at := [];
    } else {
      var init, last := events[..|events| - 1], events[|events| - 1];
      at := KeptInOrder(init, headers);
      if Kept(last, headers) {
        at := at + [|init|];
      }
    }
  }

  /** Kept events stay as often as they came, and no others do. */
  lemma {:induction false} KeptAsOften(events: seq<Event>, headers: map<int, Hash>, e: Event)
    ensures multiset(KeptEvents(events, headers))[e] == if Kept(e, headers) then multiset(events)[e] else 0
  {
    hide Kept;
    if |events| > 0 {
      var init, last := events[..|events| - 1], events[|events| - 1];
      KeptAsOften(init, headers, e);
      assert events == init + [last];
      assert multiset(events) == multiset(init) + multiset{last};
    }
  }

  /** Every event as often as it came, unless its block was verified under another hash. */
  lemma KeptCounts(events: seq<Event>, headers: map<int, Hash>)
    ensures var kept := KeptEvents(events, headers);
            && (forall e :: multiset(kept)[e]
                         == if e.block in headers && headers[e.block] != e.hash then 0 else multiset(events)[e])
            && InOrder(kept, events)
  {
    hide KeptEvents;
    forall e
      ensures multiset(KeptEvents(events, headers))[e]
           == if e.block in headers && headers[e.block] != e.hash then 0 else multiset(events)[e]
    {
      KeptAsOften(events, headers, e);
    }
    var at := KeptInOrder(events, headers);
  }

  /** Drop the logs of blocks verified under another hash; every other log stays, in order and as often
      as it came. */
  method FilterEvents(events: seq<Event>, headers: map<int, Hash>) returns (kept: seq<Event>)
    ensures kept == KeptEvents(events, headers)
    ensures forall e :: multiset(kept)[e]
                     == if e.block in headers && headers[e.block] != e.hash then 0 else multiset(events)[e]
    ensures InOrder(kept, events)
  {
    hide InOrder, Kept;
    kept := [];
    for k := 0 to |events|
      invariant kept == KeptEvents(events[..k], headers)
    {
      assert events[..k + 1][..k] == events[..k];
      if Kept(events[k], headers) {
        kept := kept + [events[k]];
      }
    }
    assert events[..|events|] == events;
    KeptCounts(events, headers);
  }
}
