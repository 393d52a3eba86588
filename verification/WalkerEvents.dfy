/** What becomes of the transfer logs: every event of a verified block that the log answer contains is
    recorded, no payment is recorded for a block other than the verified one, rows stay as they were
    first written, and a height is read again only after a rollback. */
module WalkerEvents {
  import opened Wrappers
  import opened WalkerModel
  import opened WalkerScan

  // ---- One span --------------------------------------------------------------------------

  /** The provider attributes the event to a block that was verified under another hash. */
  predicate Foreign(e: Event, headers: map<int, Hash>) {
    e.block in headers && headers[e.block] != e.hash
  }

  /** What the rows of one key are after a span: an earlier row stays; otherwise the row holds the height
      of the first event of that key that is not foreign; without one there is no row. */
  ghost predicate RowWritten(payments: map<nat, int>, after: map<nat, int>, events: seq<Event>, headers: map<int, Hash>,
                             id: nat) {
    if id in payments then id in after && after[id] == payments[id]
    else if id in after then
      exists k | 0 <= k < |events| ::
        && events[k].id == id && !Foreign(events[k], headers) && after[id] == events[k].block
        && forall j | 0 <= j < k :: events[j].id == id ==> Foreign(events[j], headers)
    else forall k | 0 <= k < |events| :: events[k].id == id ==> Foreign(events[k], headers)
  }

  lemma RowNext(payments: map<nat, int>, before: map<nat, int>, after: map<nat, int>, init: seq<Event>, last: Event,
                headers: map<int, Hash>, id: nat)
    requires RowWritten(payments, before, init, headers, id)
    requires after == if Foreign(last, headers) || last.id in before then before else before[last.id := last.block]
    ensures RowWritten(payments, after, init + [last], headers, id)
  {
    hide Foreign;
    var events := init + [last];
    if id in before && id !in payments {
      var k :| 0 <= k < |init| && init[k].id == id && !Foreign(init[k], headers) && before[id] == init[k].block
            && forall j | 0 <= j < k :: init[j].id == id ==> Foreign(init[j], headers);
      assert events[k].id == id && !Foreign(events[k], headers) && after[id] == events[k].block;
    } else if id !in before && id in after {
      assert events[|init|] == last;
    }
  }

  lemma {:induction false} SpanWrites(payments: map<nat, int>, events: seq<Event>, headers: map<int, Hash>, id: nat)
    ensures RowWritten(payments, Written(payments, KeptEvents(events, headers)), events, headers, id)
  {
    if |events| > 0 {
      var init, last := events[..|events| - 1], events[|events| - 1];
      SpanWrites(payments, init, headers, id);
      var kept := KeptEvents(init, headers);
      WrittenNext(payments, kept, last);
      assert Foreign(last, headers) ==> KeptEvents(events, headers) == kept;
      assert init + [last] == events;
      hide RowWritten;
      RowNext(payments, Written(payments, kept), Written(payments, KeptEvents(events, headers)), init, last, headers,
              id);
    }
  }

  /** The payments after phase two: a row that was there stays as it was, and there is a new row for
      exactly those keys that an event of the log answer has, unless its block was verified under
      another hash. */
  lemma FinishRecords(s: Store, env: Env, t: nat, target: int, headers: map<int, Hash>, landed: bool, id: nat)
    ensures var after, logs := Finish(s, env, t, target, headers, landed).store.payments, env.logs(t);
            if id in s.payments then id in after && after[id] == s.payments[id]
            else id in after <==> env.ok(t) && env.ok(t + 1) &&
                                  exists k | 0 <= k < |logs| ::
                                    logs[k].id == id
                                    && !(logs[k].block in headers && headers[logs[k].block] != logs[k].hash)
  {
    SpanWrites(s.payments, env.logs(t), headers, id);
    hide Written, KeptEvents;
  }

  /** Phase one writes block rows only. */
  lemma {:induction false} ScanWritesBlocks(s: Store, env: Env, t: nat, n: int, target: int, revives: bool)
    ensures var r := ScanFrom(s, env, t, n, target, revives).store;
            r.payments == s.payments && r.filtered == s.filtered && r.offered == s.offered
    decreases target + 1 - n
  {
    hide Clashes, CheckParent, Known;
    if n <= target && env.block(t, n).Got? {
      ScanWritesBlocks(Inserted(s, n, env.block(t, n).header, revives), env, t + 2, n + 1, target, revives);
    }
  }

  // ---- Whole steps -----------------------------------------------------------------------

  /** The event is part of the provider's answer at call `u`. */
  predicate Offers(env: Env, u: nat, e: Event) {
    e in env.logs(u)
  }

  /** A row written for this event, in a step that took this course. */
  predicate WrittenFor(e: Event, id: nat, block: int, course: Course, filtered: map<int, Hash>) {
    && e.id == id && e.block == block && course.Walks?
    && (course.start < block <= course.target ==> block in filtered && filtered[block] == e.hash)
  }

  ghost predicate Explained(env: Env, id: nat, block: int, course: Course, filtered: map<int, Hash>) {
    exists u: nat, e: Event :: Offers(env, u, e) && WrittenFor(e, id, block, course, filtered)
  }

  /** Payment rows are never changed or deleted by a step. A new row holds the key and the height of an
      event of a log answer; if that height lies within the span, the event is of the header verified
      there, and not of another block of that height. */
  lemma StepRecords(s: Store, env: Env, cfg: Settings, revives: bool, id: nat)
    ensures var r := Step(s, env, cfg, revives).store;
            && (id in s.payments ==> id in r.payments && r.payments[id] == s.payments[id])
            && (id in r.payments && id !in s.payments ==>
                  Explained(env, id, r.payments[id], CourseOf(s, env, cfg), r.filtered))
  {
    hide Step, Walk, RollBack, ScanFrom, SpanLands, Finish, CourseOf, Hashes;
    StepIs(s, env, cfg, revives);
    match CourseOf(s, env, cfg)
    case Stays =>
    case Diverged(latest) => RollBackRecordsNothing(s, env, 2, latest, cfg, true);
    case Walks(t, start, target) =>
      var first, r := start + 1, Step(s, env, cfg, revives);
      WalkIs(s, env, t, first, target, map[], cfg, revives, true, start);
      ScanTouches(s, env, t, first, target, revives);
      ScanWritesBlocks(s, env, t, first, target, revives);
      match ScanFrom(s, env, t, first, target, revives)
      case Stopped(_, _) =>
      case TurnedBack(s', t', from, _) => RollBackRecordsNothing(s', env, t', from, cfg, r.landed);
      case Completed(s', t', _) =>
        CompletedLands(s, env, t, first, target, start, revives);
        var headers := map[] + Hashes(env, t, first, target + 1);
        FinishFrom(s', env, t', target, headers, r.landed, id);
        if id in r.store.payments && id !in s.payments {
          var e :| Offers(env, t', e) && e.id == id && e.block == r.store.payments[id] && !Foreign(e, headers);
          assert WrittenFor(e, id, e.block, CourseOf(s, env, cfg), r.store.filtered);
        }
  }

  lemma FinishFrom(s: Store, env: Env, t: nat, target: int, headers: map<int, Hash>, landed: bool, id: nat)
    ensures var r := Finish(s, env, t, target, headers, landed).store;
            && (id in s.payments ==> id in r.payments && r.payments[id] == s.payments[id])
            && (id in r.payments && id !in s.payments ==>
                  && (forall n | n in headers :: n in r.filtered && r.filtered[n] == headers[n])
                  && exists e :: Offers(env, t, e) && e.id == id && e.block == r.payments[id] && !Foreign(e, headers))
  {
    SpanWrites(s.payments, env.logs(t), headers, id);
    hide Written, KeptEvents;
  }

  lemma RollBackRecordsNothing(s: Store, env: Env, t: nat, from: int, cfg: Settings, landed: bool)
    ensures var r := RollBack(s, env, t, from, cfg, landed).store;
            r.payments == s.payments && r.filtered == s.filtered && r.offered == s.offered
    ensures var r := RollBack(s, env, t, from, cfg, landed);
            r.verdict != RolledBack ==> r.store.checkpoint == s.checkpoint
  {
    hide FindAncestor;
  }

  // ---- Nothing offered is missed ---------------------------------------------------------

  /** Whatever the log answer for a height attributed to the block verified there has a payment row. */
  ghost predicate EventsRecorded(s: Store) {
    forall n | n in s.filtered :: n in s.offered && OfferRecorded(s, n, s.filtered[n], s.offered[n])
  }

  ghost predicate OfferRecorded(s: Store, n: int, hash: Hash, events: seq<Event>) {
    forall e | e in events && e.block == n && e.hash == hash :: e.id in s.payments
  }

  lemma RecordedOffer(s: Store, r: Store, events: seq<Event>, headers: map<int, Hash>, n: int, hash: Hash)
    requires forall id: nat :: RowWritten(s.payments, r.payments, events, headers, id)
    requires n in headers && hash == headers[n]
    ensures OfferRecorded(r, n, hash, events)
  {
    forall e | e in events && e.block == n && e.hash == hash
      ensures e.id in r.payments
    {
      var k :| 0 <= k < |events| && events[k] == e;
      assert RowWritten(s.payments, r.payments, events, headers, e.id);
    }
  }

  lemma OfferStays(s: Store, r: Store, n: int, hash: Hash, events: seq<Event>)
    requires OfferRecorded(s, n, hash, events) && forall id | id in s.payments :: id in r.payments
    ensures OfferRecorded(r, n, hash, events)
  {
  }

  lemma FinishRecordsOffer(s: Store, env: Env, t: nat, target: int, headers: map<int, Hash>, landed: bool)
    requires EventsRecorded(s)
    ensures EventsRecorded(Finish(s, env, t, target, headers, landed).store)
  {
    var r := Finish(s, env, t, target, headers, landed).store;
    hide Written, KeptEvents, OfferRecorded;
    if r != s {
      forall id: nat
        ensures RowWritten(s.payments, r.payments, env.logs(t), headers, id)
        ensures id in s.payments ==> id in r.payments
      {
        SpanWrites(s.payments, env.logs(t), headers, id);
      }
      hide RowWritten;
      forall n | n in r.filtered
        ensures n in r.offered && OfferRecorded(r, n, r.filtered[n], r.offered[n])
      {
        if n in headers {
          RecordedOffer(s, r, env.logs(t), headers, n, headers[n]);
        } else {
          OfferStays(s, r, n, s.filtered[n], s.offered[n]);
        }
      }
    }
  }

  lemma StepKeepsEvents(s: Store, env: Env, cfg: Settings, revives: bool)
    requires EventsRecorded(s)
    ensures EventsRecorded(Step(s, env, cfg, revives).store)
  {
    hide Step, Walk, RollBack, ScanFrom, SpanLands, Finish, CourseOf, Hashes;
    StepIs(s, env, cfg, revives);
    match CourseOf(s, env, cfg)
    case Stays =>
    case Diverged(latest) => RollBackRecordsNothing(s, env, 2, latest, cfg, true);
    case Walks(t, start, target) =>
      var first, r := start + 1, Step(s, env, cfg, revives);
      WalkIs(s, env, t, first, target, map[], cfg, revives, true, start);
      ScanTouches(s, env, t, first, target, revives);
      ScanWritesBlocks(s, env, t, first, target, revives);
      match ScanFrom(s, env, t, first, target, revives)
      case Stopped(_, _) =>
      case TurnedBack(s', t', from, _) => RollBackRecordsNothing(s', env, t', from, cfg, r.landed);
      case Completed(s', t', _) =>
        FinishRecordsOffer(s', env, t', target, map[] + Hashes(env, t, first, target + 1), r.landed);
  }

  /** Over every run, whatever the provider answers and wherever the steps fail: no event that was
      offered for the block verified at its height is missing from the payments, and rows that were
      there before the run are there unchanged. */
  lemma {:induction false} RunKeepsEvents(s: Store, envs: seq<Env>, cfg: Settings, revives: bool)
    requires EventsRecorded(s)
    ensures var r := Run(s, envs, cfg, revives);
            EventsRecorded(r) && forall id | id in s.payments :: id in r.payments && r.payments[id] == s.payments[id]
  {
    hide EventsRecorded, Step;
    if |envs| > 0 {
      var init := Run(s, envs[..|envs| - 1], cfg, revives);
      RunKeepsEvents(s, envs[..|envs| - 1], cfg, revives);
      StepKeepsEvents(init, envs[|envs| - 1], cfg, revives);
      forall id: nat {
        StepRecords(init, envs[|envs| - 1], cfg, revives, id);
      }
    }
  }

  /** So a height that was read against the block canonical there now has every event recorded that
      its log answer attributed to that block. */
  lemma ReadMeansRecorded(s: Store, n: int, e: Event)
    requires EventsRecorded(s) && n in s.canonical && n in s.filtered && s.filtered[n] == s.canonical[n].hash
    ensures n in s.offered
    ensures e in s.offered[n] && e.block == n && e.hash == s.canonical[n].hash ==> e.id in s.payments
  {
    assert OfferRecorded(s, n, s.filtered[n], s.offered[n]);
  }

  // ---- Reading again ---------------------------------------------------------------------

  /** The heights up to `n` were last read when they were in `s`. */
  ghost predicate SameReading(s: Store, s': Store, n: int) {
    forall k | k <= n ::
      && (k in s'.filtered <==> k in s.filtered) && (k in s.filtered ==> s'.filtered[k] == s.filtered[k])
      && (k in s'.offered <==> k in s.offered) && (k in s.offered ==> s'.offered[k] == s.offered[k])
  }

  lemma StepReadsAbove(s: Store, env: Env, cfg: Settings, revives: bool)
    requires s.checkpoint > 0
    ensures var r := Step(s, env, cfg, revives);
            SameReading(s, r.store, s.checkpoint) && (r.verdict != RolledBack ==> r.store.checkpoint >= s.checkpoint)
  {
    hide Step, Walk, RollBack, ScanFrom, SpanLands, CourseOf, Hashes, Recorded;
    StepIs(s, env, cfg, revives);
    match CourseOf(s, env, cfg)
    case Stays =>
    case Diverged(latest) => RollBackRecordsNothing(s, env, 2, latest, cfg, true);
    case Walks(t, start, target) =>
      var first, r := start + 1, Step(s, env, cfg, revives);
      WalkIs(s, env, t, first, target, map[], cfg, revives, true, start);
      ScanTouches(s, env, t, first, target, revives);
      ScanWritesBlocks(s, env, t, first, target, revives);
      match ScanFrom(s, env, t, first, target, revives)
      case Stopped(_, _) =>
      case TurnedBack(s', t', from, _) => RollBackRecordsNothing(s', env, t', from, cfg, r.landed);
      case Completed(s', t', _) =>
        CompletedLands(s, env, t, first, target, start, revives);
        FinishReadsAbove(s', env, t', target, map[] + Hashes(env, t, first, target + 1), r.landed, s.checkpoint);
  }

  lemma FinishReadsAbove(s: Store, env: Env, t: nat, target: int, headers: map<int, Hash>, landed: bool, n: int)
    requires forall m | m in headers :: n < m
    ensures SameReading(s, Finish(s, env, t, target, headers, landed).store, n)
    ensures var r := Finish(s, env, t, target, headers, landed).store;
            r.checkpoint == s.checkpoint || r.checkpoint == target
  {
    hide Written, KeptEvents;
  }

  ghost predicate NoRollback(s: Store, envs: seq<Env>, cfg: Settings, revives: bool)
    decreases |envs|
  {
    |envs| > 0 ==>
      && NoRollback(s, envs[..|envs| - 1], cfg, revives)
      && Step(Run(s, envs[..|envs| - 1], cfg, revives), envs[|envs| - 1], cfg, revives).verdict != RolledBack
  }

  /** A height at or below the checkpoint is not read again until a rollback moves the checkpoint: a log
      that was dropped because the provider had attributed it to another block stays unread, whatever
      later answers contain, as long as the block verified there stays. */
  lemma {:induction false} NeverReadAgain(s: Store, envs: seq<Env>, cfg: Settings, revives: bool)
    requires s.checkpoint > 0 && NoRollback(s, envs, cfg, revives)
    ensures SameReading(s, Run(s, envs, cfg, revives), s.checkpoint)
    ensures Run(s, envs, cfg, revives).checkpoint >= s.checkpoint
  {
    hide Step;
    if |envs| > 0 {
      var init, last := envs[..|envs| - 1], envs[|envs| - 1];
      NeverReadAgain(s, init, cfg, revives);
      var mid := Run(s, init, cfg, revives);
      StepReadsAbove(mid, last, cfg, revives);
      SameChains(s, mid, Step(mid, last, cfg, revives).store, s.checkpoint, mid.checkpoint);
    }
  }

  lemma SameChains(a: Store, b: Store, c: Store, n: int, m: int)
    requires n <= m && SameReading(a, b, n) && SameReading(b, c, m)
    ensures SameReading(a, c, n)
  {
  }
}
