/** What each critical section of the VGA console pool leaves behind, field by field, and what becomes of
    a session that has left the pool. */
module VgaEffects {
  import opened Options
  import opened VgaConsole

  /** Only the record of session `s` may differ, and no session comes or goes. */
  ghost predicate OnlySession(p: Pool, q: Pool, s: SessionId) {
    && s in p.sessions && q.sessions.Keys == p.sessions.Keys
    && forall t | t in p.sessions && t != s :: q.sessions[t] == p.sessions[t]
  }

  /** The channel the session stored, if any, is the only one closed, and the session forgets it. */
  ghost predicate Cancelled(p: Pool, q: Pool, s: SessionId)
    requires s in p.sessions && s in q.sessions
  {
    && q.sessions[s].cancel == None
    && forall c :: c in q.closed <==> c in p.closed || p.sessions[s].cancel == Some(c)
  }

  ghost predicate SameThreads(p: Pool, q: Pool) {
    q.handlers == p.handlers && q.timers == p.timers && q.issued == p.issued
  }

  lemma ReachableInv(p: Pool)
    requires Reachable(p)
    ensures Inv(p)
  {
    var events :| Run(Empty(), events) == Next(p);
    RunKeepsInv(Empty(), events);
  }

  // ---- invalidation ----

  /** The holder of the pooled session takes it out: its control connection is closed, its pending teardown
      cancelled, nothing else changes, and the next handler that asks for the name goes and starts an
      operation of its own. */
  lemma InvalidateClears(p: Pool, h: HandlerId, vm: Vm, s: SessionId, next: HandlerId)
    requires Reachable(p) && CanInvalidate(p, h) && p.handlers[h] == Holding(vm, s)
    requires vm in p.pooled && p.pooled[vm] == s && next !in p.handlers
    ensures InvalidateStep(p, h).Next?
    ensures var q := InvalidateStep(p, h).pool;
      && (forall w :: w in q.pooled <==> w in p.pooled && w != vm)
      && (forall w | w in q.pooled :: q.pooled[w] == p.pooled[w])
      && OnlySession(p, q, s) && Cancelled(p, q, s) && SameThreads(p, q)
      && q.sessions[s].refCount == p.sessions[s].refCount && q.sessions[s].holders == p.sessions[s].holders
      && q.sessions[s].vm == vm && p.sessions[s].control != Closed
      && (if p.sessions[s].control == Open then q.sessions[s].control == Closed else q.sessions[s].control == Absent)
      && CanAcquire(q, next, vm) && AcquireStep(q, next, vm).Next?
      && next in AcquireStep(q, next, vm).pool.handlers
      && AcquireStep(q, next, vm).pool.handlers[next] == Starting(vm)
  {
    ReachableInv(p);
    assert PooledOk(p, vm) && CancelOk(p, s);
    PooledIsInvalidated(p, h, vm, s);
    NextStartsAfresh(InvalidateStep(p, h).pool, vm, next);
  }

  lemma PooledIsInvalidated(p: Pool, h: HandlerId, vm: Vm, s: SessionId)
    requires CanInvalidate(p, h) && p.handlers[h] == Holding(vm, s) && vm in p.pooled && p.pooled[vm] == s
    requires PooledOk(p, vm) && CancelOk(p, s)
    ensures InvalidateStep(p, h).Next?
    ensures var q := InvalidateStep(p, h).pool;
      && q.pooled == p.pooled - {vm} && OnlySession(p, q, s) && Cancelled(p, q, s) && SameThreads(p, q)
      && q.sessions[s] == p.sessions[s].(cancel := None, control := q.sessions[s].control)
      && q.sessions[s].control == if p.sessions[s].control == Open then Closed else Absent
  {}

  lemma NextStartsAfresh(p: Pool, vm: Vm, h: HandlerId)
    requires vm !in p.pooled && h !in p.handlers
    ensures CanAcquire(p, h, vm) && AcquireStep(p, h, vm).Next?
    ensures h in AcquireStep(p, h, vm).pool.handlers && AcquireStep(p, h, vm).pool.handlers[h] == Starting(vm)
  {}

  /** If the session has been replaced in the pool meanwhile, nothing happens. */
  lemma InvalidateSparesAnother(p: Pool, h: HandlerId, vm: Vm, s: SessionId)
    requires CanInvalidate(p, h) && p.handlers[h] == Holding(vm, s) && (vm in p.pooled ==> p.pooled[vm] != s)
    ensures InvalidateStep(p, h) == Next(p)
  {}

  // ---- the other critical sections ----

  /** Reuse: one more holder, no pending teardown. */
  lemma AcquireReuses(p: Pool, h: HandlerId, vm: Vm, s: SessionId)
    requires Reachable(p) && CanAcquire(p, h, vm) && vm in p.pooled && p.pooled[vm] == s
    ensures AcquireStep(p, h, vm).Next?
    ensures var q := AcquireStep(p, h, vm).pool;
      && q.pooled == p.pooled && OnlySession(p, q, s) && Cancelled(p, q, s)
      && q.sessions[s].refCount == p.sessions[s].refCount + 1 && q.sessions[s].control == p.sessions[s].control
      && q.timers == p.timers && q.issued == p.issued
      && (forall g :: g in q.handlers <==> g in p.handlers || g == h)
      && (forall g | g in q.handlers :: q.handlers[g] == if g == h then Holding(vm, s) else p.handlers[g])
  {
    ReachableInv(p);
    assert PooledOk(p, vm) && CancelOk(p, s);
  }

  /** A new session is pooled, with its control connection if it has one. */
  lemma StartedPools(p: Pool, h: HandlerId, made: SessionId, control: bool, vm: Vm)
    requires CanStart(p, h, made) && p.handlers[h] == Starting(vm) && vm !in p.pooled
    ensures StartedStep(p, h, made, control).Next?
    ensures var q := StartedStep(p, h, made, control).pool;
      && (forall w :: w in q.pooled <==> w in p.pooled || w == vm)
      && (forall w | w in q.pooled :: q.pooled[w] == if w == vm then made else p.pooled[w])
      && (forall t :: t in q.sessions <==> t in p.sessions || t == made)
      && (forall t | t in p.sessions :: q.sessions[t] == p.sessions[t])
      && q.sessions[made].refCount == 1 && q.sessions[made].cancel == None
      && (control ==> q.sessions[made].control == Open) && (!control ==> q.sessions[made].control == Absent)
      && q.timers == p.timers && q.issued == p.issued && q.closed == p.closed
      && q.handlers[h] == Holding(vm, made)
  {}

  /** A lost race: the session that won has one more holder, and keeps a teardown that is pending. */
  lemma StartedJoins(p: Pool, h: HandlerId, made: SessionId, control: bool, vm: Vm, s: SessionId)
    requires CanStart(p, h, made) && p.handlers[h] == Starting(vm) && vm in p.pooled && p.pooled[vm] == s
    ensures StartedStep(p, h, made, control).Next?
    ensures var q := StartedStep(p, h, made, control).pool;
      && q.pooled == p.pooled && OnlySession(p, q, s) && q.sessions[s].refCount == p.sessions[s].refCount + 1
      && q.sessions[s].cancel == p.sessions[s].cancel && q.sessions[s].control == p.sessions[s].control
      && q.timers == p.timers && q.issued == p.issued && q.closed == p.closed
      && q.handlers[h] == Holding(vm, s)
  {}

  /** The last release launches a teardown of this session under a new channel; another one only uncounts. */
  lemma ReleaseLaunches(p: Pool, h: HandlerId, channel: ChannelId, vm: Vm, s: SessionId)
    requires Reachable(p) && CanRelease(p, h, channel) && p.handlers[h] == Holding(vm, s)
    ensures ReleaseStep(p, h, channel).Next?
    ensures var q := ReleaseStep(p, h, channel).pool;
      && q.pooled == p.pooled && q.closed == p.closed && OnlySession(p, q, s) && h !in q.handlers
      && q.sessions[s].refCount == p.sessions[s].refCount - 1 >= 0
      && q.sessions[s].control == p.sessions[s].control
      && (forall c | c in p.timers && c != channel :: c in q.timers && q.timers[c] == p.timers[c])
      && (forall c | c in q.timers && c != channel :: c in p.timers)
      && if p.sessions[s].refCount > 1 then q.sessions[s].cancel == p.sessions[s].cancel && q.timers == p.timers
         else
           && q.sessions[s].cancel == Some(channel) && channel in q.timers && q.timers[channel] == Teardown(vm, s)
           && channel in q.issued && q.issued[channel] == s && channel !in p.closed
  {
    ReachableInv(p);
    assert HandlerOk(p, h) && CountOk(p, s);
  }

  /** A teardown whose time is up removes its session exactly if that is still pooled and idle, and closes
      its control connection; the goroutine is gone either way. */
  lemma ExpireRemovesIff(p: Pool, timer: ChannelId, vm: Vm, s: SessionId)
    requires Reachable(p) && CanExpire(p, timer) && p.timers[timer] == Teardown(vm, s)
    ensures ExpireStep(p, timer).Next?
    ensures var q := ExpireStep(p, timer).pool;
      && q.handlers == p.handlers && q.issued == p.issued && q.closed == p.closed && timer !in q.timers
      && (forall c | c in p.timers && c != timer :: c in q.timers && q.timers[c] == p.timers[c])
      && (forall w | w != vm :: w in q.pooled <==> w in p.pooled)
      && (forall w | w in q.pooled :: w in p.pooled && q.pooled[w] == p.pooled[w])
      && if vm in p.pooled && p.pooled[vm] == s && p.sessions[s].refCount == 0
         then vm !in q.pooled && OnlySession(p, q, s) && q.sessions[s].control != Open
           && q.sessions[s].refCount == 0 && q.sessions[s].cancel == p.sessions[s].cancel
         else q.pooled == p.pooled && q.sessions == p.sessions
  {
    ReachableInv(p);
    assert CountOk(p, s);
    if vm in p.pooled { assert PooledOk(p, vm); }
  }

  /** A handler whose operation did not start is gone, and a goroutine that saw its channel closed ends;
      nothing else changes. */
  lemma GivesUp(p: Pool, h: HandlerId, timer: ChannelId)
    ensures CanFail(p, h) ==> StartFailedStep(p, h) == Next(p.(handlers := p.handlers - {h}))
    ensures CanSeeCancel(p, timer) ==> SeeCancelStep(p, timer) == Next(p.(timers := p.timers - {timer}))
  {}

  /** When each critical section may be entered, in a state that an interleaving leads to. */
  lemma EnabledWhen(p: Pool, h: HandlerId, vm: Vm, made: SessionId, control: bool, channel: ChannelId)
    requires Reachable(p)
    ensures Enabled(p, Acquire(h, vm)) <==> h !in p.handlers
    ensures Enabled(p, StartFailed(h)) <==> h in p.handlers && p.handlers[h].Starting?
    ensures Enabled(p, Started(h, made, control))
      <==> h in p.handlers && p.handlers[h].Starting? && made !in p.sessions
    ensures Enabled(p, Release(h, channel)) <==> h in p.handlers && p.handlers[h].Holding? && channel !in p.issued
    ensures Enabled(p, Expire(channel)) <==> channel in p.timers
    ensures Enabled(p, SeeCancel(channel)) <==> channel in p.timers && channel in p.closed
    ensures Enabled(p, Invalidate(h)) <==> h in p.handlers && p.handlers[h].Holding?
  {
    ReachableInv(p);
    if vm in p.pooled { assert PooledOk(p, vm); }
    if h in p.handlers { assert HandlerOk(p, h); }
    if h in p.handlers && p.handlers[h].vm in p.pooled { assert PooledOk(p, p.handlers[h].vm); }
    if channel in p.timers { assert TimerOk(p, channel); }
  }

  /** What a fault is: in a state that no interleaving leads to, a reuse that would close a closed channel, and
      an expiry or an invalidation that would close a closed control connection. */
  lemma FaultsWhen(p: Pool, h: HandlerId, vm: Vm, timer: ChannelId)
    ensures CanAcquire(p, h, vm) ==>
      (AcquireStep(p, h, vm) == Fault <==>
        vm in p.pooled && p.sessions[p.pooled[vm]].cancel.Some? && p.sessions[p.pooled[vm]].cancel.value in p.closed)
    ensures CanExpire(p, timer) ==>
      (ExpireStep(p, timer) == Fault <==>
        var t := p.timers[timer];
        && t.vm in p.pooled && p.pooled[t.vm] == t.session && p.sessions[t.session].refCount <= 0
        && p.sessions[t.session].control == Closed)
    ensures CanInvalidate(p, h) ==>
      (InvalidateStep(p, h) == Fault <==>
        var s := p.sessions[p.handlers[h].session];
        && p.handlers[h].vm in p.pooled && p.pooled[p.handlers[h].vm] == p.handlers[h].session
        && (s.control == Closed || (s.cancel.Some? && s.cancel.value in p.closed)))
  {}

  // ---- control connections do not leak ----

  /** A session outside the pool has no open control connection. */
  ghost predicate ClosedOutside(p: Pool) {
    forall s | s in p.sessions && p.sessions[s].control == Open ::
      p.sessions[s].vm in p.pooled && p.pooled[p.sessions[s].vm] == s
  }

  lemma ExpireClosesOutside(p: Pool, timer: ChannelId)
    requires TeardownsOk(p) && ClosedOutside(p) && CanExpire(p, timer) && ExpireStep(p, timer).Next?
    ensures ClosedOutside(ExpireStep(p, timer).pool)
  {
    if p.timers[timer].vm in p.pooled { assert PooledOk(p, p.timers[timer].vm); }
  }

  lemma InvalidateClosesOutside(p: Pool, h: HandlerId)
    requires TeardownsOk(p) && ClosedOutside(p) && CanInvalidate(p, h) && InvalidateStep(p, h).Next?
    ensures ClosedOutside(InvalidateStep(p, h).pool)
  {
    if p.handlers[h].vm in p.pooled { assert PooledOk(p, p.handlers[h].vm); }
  }

  lemma AcquireClosesOutside(p: Pool, h: HandlerId, vm: Vm)
    requires ClosedOutside(p) && CanAcquire(p, h, vm) && AcquireStep(p, h, vm).Next?
    ensures ClosedOutside(AcquireStep(p, h, vm).pool)
  {}

  lemma StartedClosesOutside(p: Pool, h: HandlerId, made: SessionId, control: bool)
    requires ClosedOutside(p) && CanStart(p, h, made)
    ensures StartedStep(p, h, made, control).Next? && ClosedOutside(StartedStep(p, h, made, control).pool)
  {}

  lemma StepClosesOutside(p: Pool, e: Event)
    requires Inv(p) && ClosedOutside(p) && Enabled(p, e) && Step(p, e).Next?
    ensures ClosedOutside(Step(p, e).pool)
  {
    match e
    case Acquire(h, vm) => AcquireClosesOutside(p, h, vm);
    case StartFailed(h) =>
    case Started(h, made, control) => StartedClosesOutside(p, h, made, control);
    case Release(h, channel) =>
    case Expire(timer) => ExpireClosesOutside(p, timer);
    case SeeCancel(timer) =>
    case Invalidate(h) => InvalidateClosesOutside(p, h);
  }

  lemma {:induction false} RunClosesOutside(p: Pool, events: seq<Event>)
    requires Inv(p) && ClosedOutside(p)
    ensures Run(p, events).Next? && ClosedOutside(Run(p, events).pool)
    decreases |events|
  {
    if events != [] {
      if Enabled(p, events[0]) {
        StepKeepsInv(p, events[0]);
        StepClosesOutside(p, events[0]);
        RunClosesOutside(Step(p, events[0]).pool, events[1..]);
      } else {
        RunClosesOutside(p, events[1..]);
      }
    }
  }

  /** In every state an interleaving leads to, the open control connections are those of pooled sessions. */
  lemma OpenOnlyInPool(events: seq<Event>, p: Pool, s: SessionId)
    requires Run(Empty(), events) == Next(p) && s in p.sessions && p.sessions[s].control == Open
    ensures exists vm :: vm in p.pooled && p.pooled[vm] == s
  {
    RunClosesOutside(Empty(), events);
    assert p.pooled[p.sessions[s].vm] == s;
  }

  // ---- a session that has left the pool ----

  ghost predicate OutOfPool(p: Pool, s: SessionId) {
    s in p.sessions && forall vm | vm in p.pooled :: p.pooled[vm] != s
  }

  lemma StepLeavesOut(p: Pool, e: Event, s: SessionId)
    requires Inv(p) && OutOfPool(p, s) && Enabled(p, e) && Step(p, e).Next?
    ensures OutOfPool(Step(p, e).pool, s)
    ensures forall h | Holds(Step(p, e).pool, h, s) :: Holds(p, h, s)
  {}

  /** Once a session has left the pool, invalidated or torn down, no interleaving pools it again or hands it
      to a handler that did not hold it. */
  lemma {:induction false} GoneIsNotHandedOut(p: Pool, events: seq<Event>, s: SessionId)
    requires Inv(p) && OutOfPool(p, s)
    ensures Run(p, events).Next? && OutOfPool(Run(p, events).pool, s)
    ensures forall h | Holds(Run(p, events).pool, h, s) :: Holds(p, h, s)
    decreases |events|
  {
    if events != [] {
      if Enabled(p, events[0]) {
        StepKeepsInv(p, events[0]);
        StepLeavesOut(p, events[0], s);
        GoneIsNotHandedOut(Step(p, events[0]).pool, events[1..], s);
      } else {
        GoneIsNotHandedOut(p, events[1..], s);
      }
    }
  }
}
