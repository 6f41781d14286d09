/** When a VGA console session is granted its whole grace period. */
module VgaGrace {
  import opened Options
  import opened VgaConsole

  /** The goroutine `t` may take the session of `vm` out of the pool. */
  predicate MayRemove(p: Pool, t: ChannelId, vm: Vm) {
    CanExpire(p, t) && ExpireStep(p, t).Next? && vm in p.pooled && vm !in ExpireStep(p, t).pool.pooled
  }

  /** The goroutine launched by the last release of the session pooled for `vm`. */
  function Guard(p: Pool, vm: Vm): Option<ChannelId>
    requires vm in p.pooled && p.pooled[vm] in p.sessions
  {
    p.sessions[p.pooled[vm]].cancel
  }

  predicate IsIdle(p: Pool, vm: Vm) {
    vm in p.pooled && p.pooled[vm] in p.sessions && p.sessions[p.pooled[vm]].refCount == 0
  }

  /** An older goroutine of the session pooled for `vm` is still alive. */
  predicate IsOlder(p: Pool, t: ChannelId, vm: Vm)
    requires vm in p.pooled && p.pooled[vm] in p.sessions
  {
    t in p.timers && p.timers[t].session == p.pooled[vm] && Guard(p, vm) != Some(t)
  }

  lemma OlderMayRemove(p: Pool, t: ChannelId, vm: Vm)
    requires TeardownsOk(p) && IsIdle(p, vm)
    ensures MayRemove(p, t, vm) && Guard(p, vm) != Some(t) <==> IsOlder(p, t, vm)
  {
    assert PooledOk(p, vm);
    if t in p.timers { assert TimerOk(p, t); }
  }

  /** An idle session can be removed before its last release's grace period is over if and only if
      an older goroutine launched for it is still alive. */
  lemma CutShortIff(events: seq<Event>, p: Pool, vm: Vm)
    requires Run(Empty(), events) == Next(p) && IsIdle(p, vm)
    ensures (exists t: ChannelId :: MayRemove(p, t, vm) && Guard(p, vm) != Some(t))
      <==> exists t: ChannelId :: IsOlder(p, t, vm)
  {
    RunKeepsInv(Empty(), events);
    forall t: ChannelId ensures MayRemove(p, t, vm) && Guard(p, vm) != Some(t) <==> IsOlder(p, t, vm) {
      OlderMayRemove(p, t, vm);
    }
  }

  // ---- where older goroutines come from ----

  /** The event joins a session that was pooled while the handler was starting its own. */
  predicate JoinsRace(p: Pool, e: Event) {
    e.Started? && Enabled(p, e) && p.handlers[e.h].vm in p.pooled
  }

  predicate RaceFree(p: Pool, events: seq<Event>)
    decreases |events|
  {
    if events == [] then true
    else if !Enabled(p, events[0]) then RaceFree(p, events[1..])
    else !JoinsRace(p, events[0]) && (Step(p, events[0]).Next? ==> RaceFree(Step(p, events[0]).pool, events[1..]))
  }

  /** A held session stores no cancel channel, and every goroutine but the stored one is cancelled. */
  ghost predicate Orderly(p: Pool) {
    && (forall s | s in p.sessions && p.sessions[s].refCount > 0 :: p.sessions[s].cancel == None)
    && (forall t | t in p.timers :: Settled(p, t))
  }

  ghost predicate Settled(p: Pool, t: ChannelId)
    requires t in p.timers
  {
    p.timers[t].session in p.sessions && (t in p.closed || p.sessions[p.timers[t].session].cancel == Some(t))
  }

  lemma AcquireOrderly(p: Pool, h: HandlerId, vm: Vm)
    requires Inv(p) && Orderly(p) && CanAcquire(p, h, vm) && AcquireStep(p, h, vm).Next?
    ensures Orderly(AcquireStep(p, h, vm).pool)
  {}

  lemma StartedOrderly(p: Pool, h: HandlerId, made: SessionId, control: bool)
    requires Inv(p) && Orderly(p) && CanStart(p, h, made) && p.handlers[h].vm !in p.pooled
    ensures Orderly(StartedStep(p, h, made, control).pool)
  {}

  lemma ReleaseOrderly(p: Pool, h: HandlerId, channel: ChannelId)
    requires CountsOk(p) && Orderly(p) && CanRelease(p, h, channel)
    ensures ReleaseStep(p, h, channel).Next? && Orderly(ReleaseStep(p, h, channel).pool)
  {
    assert HandlerOk(p, h) && CountOk(p, p.handlers[h].session);
  }

  lemma ExpireOrderly(p: Pool, timer: ChannelId)
    requires Orderly(p) && CanExpire(p, timer) && ExpireStep(p, timer).Next?
    ensures Orderly(ExpireStep(p, timer).pool)
  {}

  lemma InvalidateOrderly(p: Pool, h: HandlerId)
    requires Orderly(p) && CanInvalidate(p, h) && InvalidateStep(p, h).Next?
    ensures Orderly(InvalidateStep(p, h).pool)
  {}

  lemma StepKeepsOrderly(p: Pool, e: Event)
    requires Inv(p) && Orderly(p) && Enabled(p, e) && !JoinsRace(p, e) && Step(p, e).Next?
    ensures Orderly(Step(p, e).pool)
  {
    match e
    case Acquire(h, vm) => AcquireOrderly(p, h, vm);
    case StartFailed(h) =>
    case Started(h, made, control) => StartedOrderly(p, h, made, control);
    case Release(h, channel) => ReleaseOrderly(p, h, channel);
    case Expire(timer) => ExpireOrderly(p, timer);
    case SeeCancel(timer) =>
    case Invalidate(h) => InvalidateOrderly(p, h);
  }

  lemma {:induction false} RunKeepsOrderly(p: Pool, events: seq<Event>)
    requires Inv(p) && Orderly(p) && RaceFree(p, events)
    ensures Run(p, events).Next? && Orderly(Run(p, events).pool)
    decreases |events|
  {
    if events != [] {
      if Enabled(p, events[0]) {
        StepKeepsInv(p, events[0]);
        StepKeepsOrderly(p, events[0]);
        RunKeepsOrderly(Step(p, events[0]).pool, events[1..]);
      } else {
        RunKeepsOrderly(p, events[1..]);
      }
    }
  }

  /** In a run in which no handler joined a session after losing a race, that is if and only if a
      goroutine of the session was cancelled and has not yet seen it. */
  lemma RaceFreeCutShortIff(events: seq<Event>, p: Pool, vm: Vm)
    requires Run(Empty(), events) == Next(p) && RaceFree(Empty(), events) && IsIdle(p, vm)
    ensures (exists t: ChannelId :: MayRemove(p, t, vm) && Guard(p, vm) != Some(t))
      <==> exists t: ChannelId :: t in p.timers && p.timers[t].session == p.pooled[vm] && t in p.closed
  {
    CutShortIff(events, p, vm);
    RunKeepsInv(Empty(), events);
    RunKeepsOrderly(Empty(), events);
    assert PooledOk(p, vm);
    forall t | t in p.timers && p.timers[t].session == p.pooled[vm] ensures IsOlder(p, t, vm) <==> t in p.closed {
      assert Settled(p, t);
    }
  }

  // ---- both ways happen ----

  lemma RunFirst(p: Pool, e: Event, q: Pool, rest: seq<Event>)
    requires Enabled(p, e) && Step(p, e) == Next(q)
    ensures Run(p, [e] + rest) == Run(q, rest)
  {}

  /** One handler has come and gone; another is still starting an operation for the same machine. */
  function IdleWhileStarting(vm: Vm): Pool {
    Pool(map[vm := 10], map[10 := Session(vm, {}, 0, Some(20), Open)], map[2 := Starting(vm)],
         map[20 := Teardown(vm, 10)], map[20 := 10], {})
  }

  const RaceTail := [Started(2, 11, true)] + ([Release(2, 21)] + ([Expire(20)] + []))

  lemma OlderTimerWins(vm: Vm)
    ensures var p := Run(IdleWhileStarting(vm), RaceTail);
      p.Next? && vm !in p.pool.pooled && 21 in p.pool.timers && 21 !in p.pool.closed
  {
    var nobody: set<HandlerId> := {};
    var t := Teardown(vm, 10);
    var p4 := IdleWhileStarting(vm);
    var p5 := Pool(map[vm := 10], map[10 := Session(vm, {2}, 1, Some(20), Open)], map[2 := Holding(vm, 10)],
                   map[20 := t], map[20 := 10], {});
    var p6 := Pool(map[vm := 10], map[10 := Session(vm, {}, 0, Some(21), Open)], map[],
                   map[20 := t, 21 := t], map[20 := 10, 21 := 10], {});
    assert nobody + {2} == {2} && {2} - {2} == nobody;
    assert StartedStep(p4, 2, 11, true).pool.sessions == p5.sessions;
    assert p5.handlers - {2} == p6.handlers;
    assert ReleaseStep(p5, 2, 21).pool.sessions == p6.sessions;
    RunFirst(p6, Expire(20), ExpireStep(p6, 20).pool, []);
    RunFirst(p5, Release(2, 21), p6, [Expire(20)] + []);
    RunFirst(p4, Started(2, 11, true), p5, [Release(2, 21)] + ([Expire(20)] + []));
  }

  /** After a lost race: the goroutine of the first release removes the session while the one of
      the second is still waiting, and neither was cancelled. */
  lemma GraceMayBeCutShort(vm: Vm)
    ensures var p := Run(Empty(),
      [Acquire(1, vm)] + ([Acquire(2, vm)] + ([Started(1, 10, true)] + ([Release(1, 20)] + RaceTail))));
      p.Next? && vm !in p.pool.pooled && 21 in p.pool.timers && 21 !in p.pool.closed
  {
    var nobody: set<HandlerId> := {};
    var p1 := Pool(map[], map[], map[1 := Starting(vm)], map[], map[], {});
    var p2 := Pool(map[], map[], map[1 := Starting(vm), 2 := Starting(vm)], map[], map[], {});
    var p3 := Pool(map[vm := 10], map[10 := Session(vm, {1}, 1, None, Open)],
                   map[1 := Holding(vm, 10), 2 := Starting(vm)], map[], map[], {});
    var p4 := IdleWhileStarting(vm);
    assert {1} - {1} == nobody;
    assert p3.handlers - {1} == p4.handlers;
    assert ReleaseStep(p3, 1, 20).pool.sessions == p4.sessions;
    var e4 := [Release(1, 20)] + RaceTail;
    var e3 := [Started(1, 10, true)] + e4;
    RunFirst(p3, Release(1, 20), p4, RaceTail);
    RunFirst(p2, Started(1, 10, true), p3, e4);
    RunFirst(p1, Acquire(2, vm), p2, e3);
    RunFirst(Empty(), Acquire(1, vm), p1, [Acquire(2, vm)] + e3);
    OlderTimerWins(vm);
  }

  /** Without any race: a goroutine whose grace period ran out as it was cancelled removes the session
      that has been acquired and released once more. */
  lemma CancelledTimerMayWin(vm: Vm)
    ensures var p := Run(Empty(),
      [Acquire(1, vm)] + ([Started(1, 10, true)] + ([Release(1, 20)] + ([Acquire(2, vm)] + CancelTail))));
      p.Next? && vm !in p.pool.pooled && 21 in p.pool.timers && 21 !in p.pool.closed
  {
    var nobody: set<HandlerId> := {};
    var p1 := Pool(map[], map[], map[1 := Starting(vm)], map[], map[], {});
    var p2 := Pool(map[vm := 10], map[10 := Session(vm, {1}, 1, None, Open)], map[1 := Holding(vm, 10)], map[], map[],
      {});
    var p3 := Pool(map[vm := 10], map[10 := Session(vm, {}, 0, Some(20), Open)], map[], map[20 := Teardown(vm, 10)],
      map[20 := 10], {});
    assert {1} - {1} == nobody;
    assert p2.handlers - {1} == p3.handlers;
    assert ReleaseStep(p2, 1, 20).pool.sessions == p3.sessions;
    var e3 := [Acquire(2, vm)] + CancelTail;
    RunFirst(p2, Release(1, 20), p3, e3);
    RunFirst(p1, Started(1, 10, true), p2, [Release(1, 20)] + e3);
    RunFirst(Empty(), Acquire(1, vm), p1, [Started(1, 10, true)] + ([Release(1, 20)] + e3));
    CancelledTimerWins(p3, vm);
  }

  const CancelTail := [Release(2, 21)] + ([Expire(20)] + [])

  lemma CancelledTimerWins(p3: Pool, vm: Vm)
    requires p3 == Pool(map[vm := 10], map[10 := Session(vm, {}, 0, Some(20), Open)], map[],
      map[20 := Teardown(vm, 10)], map[20 := 10], {})
    ensures var p := Run(p3, [Acquire(2, vm)] + CancelTail);
      p.Next? && vm !in p.pool.pooled && 21 in p.pool.timers && 21 !in p.pool.closed
  {
    var nobody: set<HandlerId> := {};
    var t := Teardown(vm, 10);
    var p4 := Pool(map[vm := 10], map[10 := Session(vm, {2}, 1, None, Open)], map[2 := Holding(vm, 10)], map[20 := t],
      map[20 := 10], {20});
    var p5 := Pool(map[vm := 10], map[10 := Session(vm, {}, 0, Some(21), Open)], map[], map[20 := t, 21 := t],
      map[20 := 10, 21 := 10], {20});
    assert nobody + {2} == {2} && {2} - {2} == nobody;
    assert AcquireStep(p3, 2, vm).pool.sessions == p4.sessions;
    assert p4.handlers - {2} == p5.handlers;
    assert ReleaseStep(p4, 2, 21).pool.sessions == p5.sessions;
    RunFirst(p5, Expire(20), ExpireStep(p5, 20).pool, []);
    RunFirst(p4, Release(2, 21), p5, [Expire(20)] + []);
    RunFirst(p3, Acquire(2, vm), p4, CancelTail);
  }
}
