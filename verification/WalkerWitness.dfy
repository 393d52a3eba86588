/** Runs that show why the walker's properties carry their conditions. Heights start at 6, above a
    checkpoint of 5; hash 60 is a block of height 6, and so on. */
module WalkerWitness {
  import opened Wrappers
  import opened WalkerModel
  import opened WalkerSafety
  import opened WalkerScan

  function Rows(canonical: map<int, Header>, orphaned: set<Hash>, checkpoint: int, filtered: map<int, Hash>): Store {
    Store(canonical, orphaned, checkpoint, map[], filtered, map[])
  }

  const CFG := Settings(200, 1000, 64)

  // ---- A block that comes back -----------------------------------------------------------

  /** Block 60 is stored and read; the provider switches to 61 and back to 60. */
  const HELD := Rows(map[6 := Header(60, 50)], {}, 6, map[6 := 60])

  function Switches(): Env {
    Env(Some(6), (t, n) => if n == 6 then Got(Header(61, 50)) else RpcFailed, t => true, t => [])
  }

  /** Blocks 60 and 70, with the final checkpoint write failing. */
  function SwitchesBack(): Env {
    Env(Some(7), (t, n) => if n == 6 then Got(Header(60, 50)) else if n == 7 then Got(Header(70, 60)) else RpcFailed,
        t => t != 7, t => [])
  }

  const ORPHANED := Rows(map[], {60}, 5, map[6 := 60])

  lemma AfterSwitch(revives: bool)
    ensures Step(HELD, Switches(), CFG, revives).store == ORPHANED
  {
    var env := Switches();
    assert HELD.canonical.Keys == {6};
    assert FindAncestor(HELD, env, 3, 5, 1, 64) == Found(5, 3);
    assert FindAncestor(HELD, env, 2, 6, 0, 64) == Found(5, 3);
    assert OrphanedAbove(HELD, 5).orphaned == {60};
    assert OrphanedAbove(HELD, 5).canonical == map[];
  }

  lemma WalkBack(revives: bool)
    ensures Step(ORPHANED, SwitchesBack(), CFG, revives).store.canonical
         == if revives then map[6 := Header(60, 50), 7 := Header(70, 60)] else map[7 := Header(70, 60)]
    ensures Step(ORPHANED, SwitchesBack(), CFG, revives).store.checkpoint == 5
  {
    hide Recorded;
    var env := SwitchesBack();
    assert ORPHANED.canonical.Keys == {};
    var s6 := Inserted(ORPHANED, 6, Header(60, 50), revives);
    assert s6.canonical == if revives then map[6 := Header(60, 50)] else map[];
    var s7 := Inserted(s6, 7, Header(70, 60), revives);
    assert !Known(s6, 70);
    var l6 := Landed(s6, 6, Header(60, 50));
    assert Walk(s7, env, 5, 8, 7, map[6 := 60, 7 := 70], CFG, revives, l6)
      == Finish(s7, env, 5, 7, map[6 := 60, 7 := 70], l6);
    assert Walk(s6, env, 3, 7, 7, map[6 := 60], CFG, revives, l6) == Finish(s7, env, 5, 7, map[6 := 60, 7 := 70], l6);
    assert Walk(ORPHANED, env, 1, 6, 7, map[], CFG, revives, true) == Finish(s7, env, 5, 7, map[6 := 60, 7 := 70], l6);
  }

  /** As shipped, a block that was orphaned cannot become canonical again: height 6 is left empty
      under height 7, and the chain is no longer contiguous. Had the insert revived it, the same
      run would have kept the chain verified. */
  lemma ResurrectionLeavesGap()
    ensures Verified(HELD)
    ensures !Verified(Run(HELD, [Switches(), SwitchesBack()], CFG, false))
    ensures Verified(Run(HELD, [Switches(), SwitchesBack()], CFG, true))
  {
    forall revives: bool
      ensures Run(HELD, [Switches(), SwitchesBack()], CFG, revives)
           == Step(ORPHANED, SwitchesBack(), CFG, revives).store
    {
      TwoSteps(HELD, Switches(), SwitchesBack(), revives);
      AfterSwitch(revives);
    }
    WalkBack(false);
    WalkBack(true);
    var gap := Run(HELD, [Switches(), SwitchesBack()], CFG, false);
    assert gap.checkpoint == 5 && 7 in gap.canonical && 6 !in gap.canonical;
    assert !Based(gap, 7);
  }

  lemma TwoSteps(s: Store, a: Env, b: Env, revives: bool)
    ensures Run(s, [a], CFG, revives) == Step(s, a, CFG, revives).store
    ensures Run(s, [a, b], CFG, revives) == Step(Step(s, a, CFG, revives).store, b, CFG, revives).store
  {
    hide Step;
    assert [a][..0] == [] && [a, b][..1] == [a];
    assert Run(s, [], CFG, revives) == s;
    assert Run(s, [a], CFG, revives) == Step(s, a, CFG, revives).store;
  }

  // ---- An interrupted rollback -----------------------------------------------------------

  const READ := Rows(map[6 := Header(60, 50), 7 := Header(70, 60)], {}, 7, map[6 := 60, 7 := 70])

  /** Height 7 changes to block 71; the orphaning succeeds and the checkpoint write fails. */
  function Interrupted(): Env {
    Env(Some(7), (t, n) => if n == 7 then Got(Header(71, 60)) else Got(Header(60, 50)), t => t != 5, t => [])
  }

  function CarriesOn(): Env {
    Env(Some(8),
        (t, n) => if n == 8 then Got(Header(81, 71)) else if n == 7 then Got(Header(71, 60))
                  else if n == 6 then Got(Header(60, 50)) else RpcFailed,
        t => true, t => [])
  }

  const CUT := Rows(map[6 := Header(60, 50)], {70}, 7, map[6 := 60, 7 := 70])

  lemma AfterInterruption()
    ensures Step(READ, Interrupted(), CFG, false).store == CUT
  {
    var env := Interrupted();
    assert 7 in READ.canonical.Keys;
    assert FindAncestor(READ, env, 3, 6, 1, 64) == Found(6, 4);
    assert FindAncestor(READ, env, 2, 7, 0, 64) == Found(6, 4);
    assert OrphanedAbove(READ, 6).canonical == map[6 := Header(60, 50)];
    assert OrphanedAbove(READ, 6).orphaned == {70};
  }

  lemma AfterCarryingOn()
    ensures var s := Step(CUT, CarriesOn(), CFG, false).store;
            s.checkpoint == 8 && 7 !in s.canonical && 7 in s.filtered && s.filtered[7] == 70
  {
    var env := CarriesOn();
    assert 6 in CUT.canonical.Keys;
    assert Highest(CUT.canonical.Keys) == Some(6);
    var s8 := Inserted(CUT, 8, Header(81, 71), false);
    assert !Known(CUT, 81);
    assert Walk(s8, env, 4, 9, 8, map[8 := 81], CFG, false, true) == Finish(s8, env, 4, 8, map[8 := 81], true);
    assert Walk(CUT, env, 2, 8, 8, map[], CFG, false, true) == Finish(s8, env, 4, 8, map[8 := 81], true);
  }

  /** The two writes of a rollback are separate transactions. When only the first one happens, the
      walker goes on from the old checkpoint: the block that replaced 70 at height 7 is never
      stored, and its logs are never read. */
  lemma InterruptedRollbackSkips()
    ensures Verified(READ) && AllRead(READ, 5)
    ensures var s := Run(READ, [Interrupted(), CarriesOn()], CFG, false); Verified(s) && s.checkpoint == 8 && !ReadAt(s, 7)
  {
    TwoSteps(READ, Interrupted(), CarriesOn(), false);
    AfterInterruption();
    AfterCarryingOn();
    hide Step;
    VerifiedCut();
  }

  lemma VerifiedCut()
    ensures Verified(Step(CUT, CarriesOn(), CFG, false).store)
  {
    var env := CarriesOn();
    assert 6 in CUT.canonical.Keys;
    assert Highest(CUT.canonical.Keys) == Some(6);
    assert CourseOf(CUT, env, CFG) == Walks(2, 7, 8);
    assert !Known(CUT, 81);
    assert SpanLands(Inserted(CUT, 8, Header(81, 71), false), env, 4, 9, 8, 7, false);
    assert SpanLands(CUT, env, 2, 8, 8, 7, false);
    LandingKeeps(CUT, env, CFG, false);
  }

  // ---- A rollback that moves forward -----------------------------------------------------

  const FRESH := Rows(map[], {}, 5, map[])

  /** Heights 6 and 7 verify; height 8 does not follow 7, and 7 is still what the provider has. */
  function Breaks(): Env {
    Env(Some(8), (t, n) => if n == 8 then Got(Header(80, 99))
                  else if n == 7 then Got(Header(70, 60)) else Got(Header(60, 50)), t => true, t => [])
  }

  /** A rollback found in the middle of a step sets the checkpoint to the ancestor even when that is
      above the checkpoint it started from: heights 6 and 7 are now behind it, their logs unread. */
  lemma ForwardRollbackSkips()
    ensures AllRead(FRESH, 5)
    ensures var r := Step(FRESH, Breaks(), CFG, false); r.store.checkpoint == 7 && !ReadAt(r.store, 6) && !ReadAt(r.store, 7)
  {
    var env := Breaks();
    assert FRESH.canonical.Keys == {};
    var s6 := Inserted(FRESH, 6, Header(60, 50), false);
    assert !Known(FRESH, 60);
    var s7 := Inserted(s6, 7, Header(70, 60), false);
    assert !Known(s6, 70);
    assert FindAncestor(s7, env, 6, 7, 0, 64) == Found(7, 7);
    assert CheckParent(s7, 8, Header(80, 99)) == Some(7);
    assert Walk(s7, env, 5, 8, 8, map[6 := 60, 7 := 70], CFG, false, true) == RollBack(s7, env, 6, 7, CFG, true);
    assert Walk(s6, env, 3, 7, 8, map[6 := 60], CFG, false, true) == RollBack(s7, env, 6, 7, CFG, true);
    assert Walk(FRESH, env, 1, 6, 8, map[], CFG, false, true) == RollBack(s7, env, 6, 7, CFG, true);
  }

  // ---- A checkpoint that reaches zero ----------------------------------------------------

  /** A chain stored from height 1 on, with no positive height below it to anchor to. */
  const LOW := Rows(map[1 := Header(10, 0)], {}, 1, map[1 := 10])

  function Replaces(): Env {
    Env(Some(2000), (t, n) => Got(Header(11, 0)), t => true, t => [])
  }

  /** The next step starts near the head, and stops after its first header. */
  function Restarts(): Env {
    Env(Some(2000), (t, n) => if n == 1001 then Got(Header(5, 4)) else RpcFailed, t => true, t => [])
  }

  const ZERO := Rows(map[], {10}, 0, map[1 := 10])

  lemma AfterReplacement()
    ensures Step(LOW, Replaces(), CFG, true).store == ZERO
  {
    var env := Replaces();
    assert 1 in LOW.canonical.Keys;
    assert FindAncestor(LOW, env, 3, 0, 1, 64) == Found(0, 3);
    assert FindAncestor(LOW, env, 2, 1, 0, 64) == Found(0, 3);
    assert OrphanedAbove(LOW, 0).canonical == map[];
    assert OrphanedAbove(LOW, 0).orphaned == {10};
  }

  lemma AfterRestart()
    ensures var s := Step(ZERO, Restarts(), CFG, true).store; s.checkpoint == 0 && 1001 in s.canonical && 1000 !in s.canonical
  {
    var env := Restarts();
    assert ZERO.canonical.Keys == {};
    var s1 := Inserted(ZERO, 1001, Header(5, 4), true);
    assert Walk(s1, env, 3, 1002, 1200, map[1001 := 5], CFG, true, true).store == s1;
    assert Walk(ZERO, env, 1, 1001, 1200, map[], CFG, true, true).store == s1;
  }

  /** A positive checkpoint is not enough to start from: a rollback may take it to 0, from where the next
      step starts at a height derived from the head. Hence `Anchored`. */
  lemma ZeroCheckpointLeavesGap()
    ensures Verified(LOW) && LOW.checkpoint > 0
    ensures !Verified(Run(LOW, [Replaces(), Restarts()], CFG, true))
  {
    TwoSteps(LOW, Replaces(), Restarts(), true);
    AfterReplacement();
    AfterRestart();
    hide Step;
    var s := Step(ZERO, Restarts(), CFG, true).store;
    assert !Based(s, 1001);
  }

  // ---- A log that is dropped -------------------------------------------------------------

  /** Height 6 is verified as block 60, but the node asked for the logs still has block 61 there. */
  function Lags(): Env {
    Env(Some(6), (t, n) => Got(Header(60, 50)), t => true, t => [Event(6, 61, 1)])
  }

  /** Everyone agrees on 60 and 70, and the logs asked for are those of height 7. */
  function Agreed(): Env {
    Env(Some(7), (t, n) => if n == 7 then Got(Header(70, 60)) else Got(Header(60, 50)), t => true, t => [])
  }

  lemma AfterLag()
    ensures var s := Step(FRESH, Lags(), CFG, false).store;
            && s.canonical == map[6 := Header(60, 50)] && s.orphaned == {} && s.checkpoint == 6
            && s.payments == map[] && s.filtered == map[6 := 60]
  {
    var env := Lags();
    assert FRESH.canonical.Keys == {};
    var s6 := Inserted(FRESH, 6, Header(60, 50), false);
    assert !Known(FRESH, 60);
    assert KeptEvents([Event(6, 61, 1)], map[6 := 60]) == [];
    assert Walk(s6, env, 3, 7, 6, map[6 := 60], CFG, false, true) == Finish(s6, env, 3, 6, map[6 := 60], true);
    assert Walk(FRESH, env, 1, 6, 6, map[], CFG, false, true) == Finish(s6, env, 3, 6, map[6 := 60], true);
  }

  lemma AfterAgreement(s: Store)
    requires s.canonical == map[6 := Header(60, 50)] && s.orphaned == {} && s.checkpoint == 6 && s.payments == map[]
    ensures var r := Step(s, Agreed(), CFG, false).store; r.checkpoint == 7 && r.payments == map[]
  {
    var env := Agreed();
    assert 6 in s.canonical.Keys;
    assert Highest(s.canonical.Keys) == Some(6);
    assert !Known(s, 70);
    var s7 := Inserted(s, 7, Header(70, 60), false);
    assert Walk(s7, env, 4, 8, 7, map[7 := 70], CFG, false, true) == Finish(s7, env, 4, 7, map[7 := 70], true);
    assert Walk(s, env, 2, 7, 7, map[], CFG, false, true) == Finish(s7, env, 4, 7, map[7 := 70], true);
  }

  /** The transfer is dropped, the checkpoint moves on, and the next step starts above it: it is not
      read again under the hash that was verified, and no payment is recorded for it. */
  lemma DroppedLogIsLost()
    ensures var s := Run(FRESH, [Lags(), Agreed()], CFG, false); s.checkpoint == 7 && 1 !in s.payments
  {
    TwoSteps(FRESH, Lags(), Agreed(), false);
    AfterLag();
    hide Step;
    AfterAgreement(Step(FRESH, Lags(), CFG, false).store);
  }

  // ---- A transfer that moves to another height -------------------------------------------

  /** The transfer with key 1 was recorded at height 6, in block 60, which was then orphaned. */
  const MOVED := Store(map[], {60}, 5, map[1 := 6], map[6 := 60], map[6 := [Event(6, 60, 1)]])

  /** The winning branch has it at height 7. */
  function Reincludes(): Env {
    Env(Some(7), (t, n) => if n == 7 then Got(Header(71, 61)) else Got(Header(61, 50)), t => true,
        t => [Event(7, 71, 1)])
  }

  lemma ReincludedLogs(s: Store, t: nat)
    requires t != 0 && s.payments == map[1 := 6]
    ensures var headers := map[6 := 61, 7 := 71]; var r := Finish(s, Reincludes(), t, 7, headers, true).store;
            r.canonical == s.canonical && r.checkpoint == 7 && r.payments == map[1 := 6] && r.filtered == s.filtered + headers
  {
    var headers := map[6 := 61, 7 := 71];
    assert KeptEvents([Event(7, 71, 1)], headers) == [Event(7, 71, 1)];
    assert Written(map[1 := 6], [Event(7, 71, 1)]) == map[1 := 6];
  }

  /** The row keeps the height at which the transfer no longer is: the insert conflicts. */
  lemma ReincludedRowIsStale()
    ensures var s := Step(MOVED, Reincludes(), CFG, false).store;
            s.checkpoint == 7 && ReadAt(s, 7) && s.canonical[7].hash == 71 && s.payments == map[1 := 6]
  {
    hide Finish;
    var env := Reincludes();
    assert MOVED.canonical.Keys == {};
    var s6 := Inserted(MOVED, 6, Header(61, 50), false);
    assert !Known(MOVED, 61);
    var s7 := Inserted(s6, 7, Header(71, 61), false);
    assert !Known(s6, 71);
    var headers := map[6 := 61, 7 := 71];
    ReincludedLogs(s7, 5);
    assert Walk(s7, env, 5, 8, 7, headers, CFG, false, true) == Finish(s7, env, 5, 7, headers, true);
    assert Walk(s6, env, 3, 7, 7, map[6 := 61], CFG, false, true) == Finish(s7, env, 5, 7, headers, true);
    assert Walk(MOVED, env, 1, 6, 7, map[], CFG, false, true) == Finish(s7, env, 5, 7, headers, true);
  }
}
