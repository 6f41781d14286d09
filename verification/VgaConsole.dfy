/** The pool of VGA console sessions of handlers/lxd_vga.go as a step system.
    Every critical section under the pool mutex is one event; a teardown goroutine
    expires, or notices its cancellation, in events of its own. `S` is the identity of
    a session object and `C` of a cancel channel; every goroutine is named by the
    channel it waits on. */
module VgaConsole {
  import opened Options

  type Vm = string
  type HandlerId = nat
  type SessionId = nat
  type ChannelId = nat

  datatype Control = Absent | Open | Closed

  /** `vm`, the name the session was started for, and `holders`, the handlers that acquired it and
      have not released it, are bookkeeping beside the program's own fields. */
  datatype Session = Session(vm: Vm, holders: set<HandlerId>, refCount: int, cancel: Option<ChannelId>,
    control: Control)

  /** A console handler is between its two critical sections of acquire, or holds a session. */
  datatype Handler = Starting(vm: Vm) | Holding(vm: Vm, session: SessionId)

  /** A live teardown goroutine: what it captured when it was launched. */
  datatype Teardown = Teardown(vm: Vm, session: SessionId)

  datatype Pool = Pool(
    pooled: map<Vm, SessionId>,
    sessions: map<SessionId, Session>,
    handlers: map<HandlerId, Handler>,
    timers: map<ChannelId, Teardown>,
    issued: map<ChannelId, SessionId>,   // every channel made so far, and for which session
    closed: set<ChannelId>)

  datatype Event =
    | Acquire(h: HandlerId, vm: Vm)                       // first critical section of acquire
    | StartFailed(h: HandlerId)                           // the console operation did not start
    | Started(h: HandlerId, made: SessionId, control: bool)      // second critical section of acquire
    | Release(h: HandlerId, channel: ChannelId)
    | Expire(timer: ChannelId)                                    // the grace period of one goroutine ran out
    | SeeCancel(timer: ChannelId)                                 // the goroutine saw its channel closed
    | Invalidate(h: HandlerId)

  /** Fault: a channel or a control connection that was closed already is closed again. */
  datatype Outcome = Next(pool: Pool) | Fault

  function Empty(): Pool {
    Pool(map[], map[], map[], map[], map[], {})
  }

  /** Closes the control connection a session carries, if it carries one. */
  function CloseControl(s: Session): Session {
    if s.control.Open? then s.(control := Closed) else s
  }

  function Join(p: Pool, h: HandlerId, vm: Vm, s: SessionId): Pool
    requires s in p.sessions
  {
    var rec := p.sessions[s];
    p.(sessions := p.sessions[s := rec.(refCount := rec.refCount + 1, holders := rec.holders + {h})],
       handlers := p.handlers[h := Holding(vm, s)])
  }

  function Leave(p: Pool, h: HandlerId, s: SessionId): Pool
    requires s in p.sessions
  {
    var rec := p.sessions[s];
    p.(sessions := p.sessions[s := rec.(refCount := rec.refCount - 1, holders := rec.holders - {h})],
       handlers := p.handlers - {h})
  }

  /** Stores a new cancel channel and launches the goroutine that waits on it. */
  function LaunchTeardown(p: Pool, vm: Vm, s: SessionId, channel: ChannelId): Pool
    requires s in p.sessions
  {
    p.(sessions := p.sessions[s := p.sessions[s].(cancel := Some(channel))],
       timers := p.timers[channel := Teardown(vm, s)],
       issued := p.issued[channel := s])
  }

  /** Closes and forgets the cancel channel a session stores. */
  function Cancel(p: Pool, s: SessionId): Outcome
    requires s in p.sessions
  {
    match p.sessions[s].cancel
    case None => Next(p)
    case Some(c) =>
      if c in p.closed then Fault
      else Next(p.(sessions := p.sessions[s := p.sessions[s].(cancel := None)], closed := p.closed + {c}))
  }

  /** Takes the session of `vm` out of the pool and closes its control connection. */
  function Drop(p: Pool, vm: Vm, s: SessionId): Outcome
    requires s in p.sessions
  {
    if p.sessions[s].control.Closed? then Fault
    else Next(p.(pooled := p.pooled - {vm}, sessions := p.sessions[s := CloseControl(p.sessions[s])]))
  }

  // ---- one function for each critical section ----

  predicate CanAcquire(p: Pool, h: HandlerId, vm: Vm) {
    h !in p.handlers && (vm in p.pooled ==> p.pooled[vm] in p.sessions)
  }

  /** A pooled session is reused and its teardown cancelled; otherwise the handler goes and starts one. */
  function AcquireStep(p: Pool, h: HandlerId, vm: Vm): Outcome
    requires CanAcquire(p, h, vm)
  {
    if vm !in p.pooled then Next(p.(handlers := p.handlers[h := Starting(vm)]))
    else match Cancel(p, p.pooled[vm])
      case Fault => Fault
      case Next(q) => Next(Join(q, h, vm, p.pooled[vm]))
  }

  predicate CanFail(p: Pool, h: HandlerId) {
    h in p.handlers && p.handlers[h].Starting?
  }

  function StartFailedStep(p: Pool, h: HandlerId): Outcome
    requires CanFail(p, h)
  {
    Next(p.(handlers := p.handlers - {h}))
  }

  predicate CanStart(p: Pool, h: HandlerId, made: SessionId) {
    && h in p.handlers && p.handlers[h].Starting? && made !in p.sessions
    && (p.handlers[h].vm in p.pooled ==> p.pooled[p.handlers[h].vm] in p.sessions)
  }

  /** The session made meanwhile is pooled, unless the race was lost: then the pooled one is
      joined, without cancelling a teardown that may be pending on it. */
  function StartedStep(p: Pool, h: HandlerId, made: SessionId, control: bool): Outcome
    requires CanStart(p, h, made)
  {
    var vm := p.handlers[h].vm;
    if vm in p.pooled then Next(Join(p, h, vm, p.pooled[vm]))
    else Next(p.(pooled := p.pooled[vm := made],
                 sessions := p.sessions[made := Session(vm, {h}, 1, None, if control then Open else Absent)],
                 handlers := p.handlers[h := Holding(vm, made)]))
  }

  predicate CanRelease(p: Pool, h: HandlerId, channel: ChannelId) {
    h in p.handlers && p.handlers[h].Holding? && p.handlers[h].session in p.sessions && channel !in p.issued
  }

  /** The last release stores a new cancel channel and launches a teardown goroutine. */
  function ReleaseStep(p: Pool, h: HandlerId, channel: ChannelId): Outcome
    requires CanRelease(p, h, channel)
  {
    var Holding(vm, s) := p.handlers[h];
    var q := Leave(p, h, s);
    if q.sessions[s].refCount > 0 then Next(q) else Next(LaunchTeardown(q, vm, s, channel))
  }

  predicate CanExpire(p: Pool, timer: ChannelId) {
    timer in p.timers && p.timers[timer].session in p.sessions
  }

  /** A goroutine whose grace period ran out removes its session if that is still pooled and idle.
      It may do so even when its channel is closed: the select may pick either ready case. */
  function ExpireStep(p: Pool, timer: ChannelId): Outcome
    requires CanExpire(p, timer)
  {
    var Teardown(vm, s) := p.timers[timer];
    var q := p.(timers := p.timers - {timer});
    if vm !in p.pooled || p.pooled[vm] != s || p.sessions[s].refCount > 0 then Next(q) else Drop(q, vm, s)
  }

  predicate CanSeeCancel(p: Pool, timer: ChannelId) {
    timer in p.timers && timer in p.closed
  }

  function SeeCancelStep(p: Pool, timer: ChannelId): Outcome
    requires CanSeeCancel(p, timer)
  {
    Next(p.(timers := p.timers - {timer}))
  }

  predicate CanInvalidate(p: Pool, h: HandlerId) {
    h in p.handlers && p.handlers[h].Holding? && p.handlers[h].session in p.sessions
  }

  function InvalidateStep(p: Pool, h: HandlerId): Outcome
    requires CanInvalidate(p, h)
  {
    var Holding(vm, s) := p.handlers[h];
    if vm !in p.pooled || p.pooled[vm] != s then Next(p)
    else match Drop(p, vm, s)
      case Fault => Fault
      case Next(q) => Cancel(q, s)
  }

  // ---- runs ----

  predicate Enabled(p: Pool, e: Event) {
    match e
    case Acquire(h, vm) => CanAcquire(p, h, vm)
    case StartFailed(h) => CanFail(p, h)
    case Started(h, made, control) => CanStart(p, h, made)
    case Release(h, channel) => CanRelease(p, h, channel)
    case Expire(timer) => CanExpire(p, timer)
    case SeeCancel(timer) => CanSeeCancel(p, timer)
    case Invalidate(h) => CanInvalidate(p, h)
  }

  function Step(p: Pool, e: Event): Outcome
    requires Enabled(p, e)
  {
    match e
    case Acquire(h, vm) => AcquireStep(p, h, vm)
    case StartFailed(h) => StartFailedStep(p, h)
    case Started(h, made, control) => StartedStep(p, h, made, control)
    case Release(h, channel) => ReleaseStep(p, h, channel)
    case Expire(timer) => ExpireStep(p, timer)
    case SeeCancel(timer) => SeeCancelStep(p, timer)
    case Invalidate(h) => InvalidateStep(p, h)
  }

  /** Events that cannot happen in a state are skipped, so that every list of events is a run. */
  function Run(p: Pool, events: seq<Event>): Outcome
    decreases |events|
  {
    if events == [] then Next(p)
    else if !Enabled(p, events[0]) then Run(p, events[1..])
    else match Step(p, events[0])
      case Fault => Fault
      case Next(q) => Run(q, events[1..])
  }

  // ---- what every reachable state satisfies ----

  ghost predicate Holds(p: Pool, h: HandlerId, s: SessionId) {
    h in p.handlers && p.handlers[h].Holding? && p.handlers[h].session == s
  }

  /** A pooled session is pooled under its own name alone, its control connection is open, and
      it does not leak: once idle, a goroutine that is not cancelled will take it out. */
  ghost predicate PooledOk(p: Pool, vm: Vm)
    requires vm in p.pooled
  {
    && p.pooled[vm] in p.sessions
    && p.sessions[p.pooled[vm]].vm == vm
    && !p.sessions[p.pooled[vm]].control.Closed?
    && (p.sessions[p.pooled[vm]].refCount == 0 ==> Doomed(p, p.pooled[vm]))
  }

  ghost predicate Doomed(p: Pool, s: SessionId)
    requires s in p.sessions
  {
    var cancel := p.sessions[s].cancel;
    cancel.Some? && cancel.value in p.timers && cancel.value !in p.closed
  }

  /** A stored cancel channel belongs to the session that stores it and is open. */
  ghost predicate CancelOk(p: Pool, s: SessionId)
    requires s in p.sessions
  {
    var cancel := p.sessions[s].cancel;
    cancel.Some? ==> cancel.value in p.issued && p.issued[cancel.value] == s && cancel.value !in p.closed
  }

  ghost predicate TimerOk(p: Pool, c: ChannelId)
    requires c in p.timers
  {
    && c in p.issued && p.issued[c] == p.timers[c].session
    && p.timers[c].session in p.sessions && p.sessions[p.timers[c].session].vm == p.timers[c].vm
  }

  ghost predicate TeardownsOk(p: Pool) {
    && (forall vm | vm in p.pooled :: PooledOk(p, vm))
    && (forall s | s in p.sessions :: CancelOk(p, s))
    && (forall c | c in p.timers :: TimerOk(p, c))
    && p.closed <= p.issued.Keys
  }

  /** The reference count is the number of holders, and the holders are the handlers that hold the session. */
  ghost predicate CountOk(p: Pool, s: SessionId)
    requires s in p.sessions
  {
    && p.sessions[s].refCount == |p.sessions[s].holders|
    && (forall h | h in p.sessions[s].holders :: Holds(p, h, s))
  }

  ghost predicate HandlerOk(p: Pool, h: HandlerId)
    requires h in p.handlers
  {
    p.handlers[h].Holding? ==>
      && p.handlers[h].session in p.sessions
      && p.sessions[p.handlers[h].session].vm == p.handlers[h].vm
      && h in p.sessions[p.handlers[h].session].holders
  }

  ghost predicate CountsOk(p: Pool) {
    && (forall s | s in p.sessions :: CountOk(p, s))
    && (forall h | h in p.handlers :: HandlerOk(p, h))
  }

  ghost predicate Inv(p: Pool) {
    TeardownsOk(p) && CountsOk(p)
  }

  // ---- proofs ----

  lemma CancelKeepsCounts(p: Pool, s: SessionId)
    requires CountsOk(p) && s in p.sessions && Cancel(p, s).Next?
    ensures CountsOk(Cancel(p, s).pool)
  {}

  lemma JoinKeepsCounts(p: Pool, h: HandlerId, vm: Vm, s: SessionId)
    requires CountsOk(p) && s in p.sessions && p.sessions[s].vm == vm
    requires h in p.handlers ==> p.handlers[h].Starting?
    ensures CountsOk(Join(p, h, vm, s))
  {}

  lemma AcquireKeepsCounts(p: Pool, h: HandlerId, vm: Vm)
    requires CountsOk(p) && CanAcquire(p, h, vm)
    requires vm in p.pooled ==> PooledOk(p, vm) && CancelOk(p, p.pooled[vm])
    ensures AcquireStep(p, h, vm).Next? && CountsOk(AcquireStep(p, h, vm).pool)
  {
    if vm in p.pooled {
      CancelKeepsCounts(p, p.pooled[vm]);
      JoinKeepsCounts(Cancel(p, p.pooled[vm]).pool, h, vm, p.pooled[vm]);
    }
  }

  lemma AcquireKeepsTeardowns(p: Pool, h: HandlerId, vm: Vm)
    requires TeardownsOk(p) && CanAcquire(p, h, vm)
    requires vm in p.pooled ==> p.sessions[p.pooled[vm]].refCount >= 0
    ensures AcquireStep(p, h, vm).Next? && TeardownsOk(AcquireStep(p, h, vm).pool)
  {}

  lemma StartFailedKeepsCounts(p: Pool, h: HandlerId)
    requires Inv(p) && CanFail(p, h)
    ensures StartFailedStep(p, h).Next? && CountsOk(StartFailedStep(p, h).pool)
  {}

  lemma StartFailedKeepsTeardowns(p: Pool, h: HandlerId)
    requires Inv(p) && CanFail(p, h)
    ensures StartFailedStep(p, h).Next? && TeardownsOk(StartFailedStep(p, h).pool)
  {}

  lemma StartedKeepsCounts(p: Pool, h: HandlerId, made: SessionId, control: bool)
    requires CountsOk(p) && CanStart(p, h, made)
    requires p.handlers[h].vm in p.pooled ==> PooledOk(p, p.handlers[h].vm)
    ensures StartedStep(p, h, made, control).Next? && CountsOk(StartedStep(p, h, made, control).pool)
  {
    var vm := p.handlers[h].vm;
    if vm in p.pooled { JoinKeepsCounts(p, h, vm, p.pooled[vm]); }
  }

  lemma StartedKeepsTeardowns(p: Pool, h: HandlerId, made: SessionId, control: bool)
    requires TeardownsOk(p) && CanStart(p, h, made)
    requires p.handlers[h].vm in p.pooled ==> p.sessions[p.pooled[p.handlers[h].vm]].refCount >= 0
    ensures StartedStep(p, h, made, control).Next? && TeardownsOk(StartedStep(p, h, made, control).pool)
  {}

  lemma ReleaseKeepsCounts(p: Pool, h: HandlerId, channel: ChannelId)
    requires CountsOk(p) && CanRelease(p, h, channel)
    ensures ReleaseStep(p, h, channel).Next? && CountsOk(ReleaseStep(p, h, channel).pool)
  {}

  lemma ReleaseKeepsTeardowns(p: Pool, h: HandlerId, channel: ChannelId)
    requires TeardownsOk(p) && CanRelease(p, h, channel)
    requires HandlerOk(p, h)
    ensures ReleaseStep(p, h, channel).Next? && TeardownsOk(ReleaseStep(p, h, channel).pool)
  {}

  lemma ExpireKeepsCounts(p: Pool, timer: ChannelId)
    requires Inv(p) && CanExpire(p, timer)
    ensures ExpireStep(p, timer).Next? && CountsOk(ExpireStep(p, timer).pool)
  {}

  lemma ExpireKeepsTeardowns(p: Pool, timer: ChannelId)
    requires Inv(p) && CanExpire(p, timer)
    ensures ExpireStep(p, timer).Next? && TeardownsOk(ExpireStep(p, timer).pool)
  {}

  lemma SeeCancelKeepsCounts(p: Pool, timer: ChannelId)
    requires Inv(p) && CanSeeCancel(p, timer)
    ensures SeeCancelStep(p, timer).Next? && CountsOk(SeeCancelStep(p, timer).pool)
  {}

  lemma SeeCancelKeepsTeardowns(p: Pool, timer: ChannelId)
    requires Inv(p) && CanSeeCancel(p, timer)
    ensures SeeCancelStep(p, timer).Next? && TeardownsOk(SeeCancelStep(p, timer).pool)
  {}

  lemma InvalidateKeepsCounts(p: Pool, h: HandlerId)
    requires CountsOk(p) && CanInvalidate(p, h)
    requires TeardownsOk(p)
    ensures InvalidateStep(p, h).Next? && CountsOk(InvalidateStep(p, h).pool)
  {}

  lemma InvalidateKeepsTeardowns(p: Pool, h: HandlerId)
    requires TeardownsOk(p) && CanInvalidate(p, h)
    requires HandlerOk(p, h)
    ensures InvalidateStep(p, h).Next? && TeardownsOk(InvalidateStep(p, h).pool)
  {}

  /** Every event keeps the invariant and closes nothing a second time. */
  lemma StepKeepsInv(p: Pool, e: Event)
    requires Inv(p) && Enabled(p, e)
    ensures Step(p, e).Next? && Inv(Step(p, e).pool)
  {
    assert forall s | s in p.sessions :: CountOk(p, s) && p.sessions[s].refCount >= 0;
    match e
    case Acquire(h, vm) => AcquireKeepsCounts(p, h, vm); AcquireKeepsTeardowns(p, h, vm);
    case StartFailed(h) => StartFailedKeepsCounts(p, h); StartFailedKeepsTeardowns(p, h);
    case Started(h, made, control) => StartedKeepsCounts(p, h, made, control); StartedKeepsTeardowns(p, h, made,
      control);
    case Release(h, channel) => ReleaseKeepsCounts(p, h, channel); ReleaseKeepsTeardowns(p, h, channel);
    case Expire(timer) => ExpireKeepsCounts(p, timer); ExpireKeepsTeardowns(p, timer);
    case SeeCancel(timer) => SeeCancelKeepsCounts(p, timer); SeeCancelKeepsTeardowns(p, timer);
    case Invalidate(h) => InvalidateKeepsCounts(p, h); InvalidateKeepsTeardowns(p, h);
  }

  // ---- results over whole runs ----

  lemma RunKeepsInv(p: Pool, events: seq<Event>)
    requires Inv(p)
    ensures Run(p, events).Next? && Inv(Run(p, events).pool)
    decreases |events|
  {
    if events != [] {
      if Enabled(p, events[0]) {
        StepKeepsInv(p, events[0]);
        RunKeepsInv(Step(p, events[0]).pool, events[1..]);
      } else {
        RunKeepsInv(p, events[1..]);
      }
    }
  }

  /** No interleaving closes a cancel channel or a control connection twice. */
  lemma {:induction false} NothingClosedTwice(events: seq<Event>)
    ensures Run(Empty(), events) != Fault
  {
    RunKeepsInv(Empty(), events);
  }

  /** In every state an interleaving leads to: the reference count of a session is the number of
      handlers that hold it, no session is pooled under two names, pooled sessions have their
      control connection open, and an idle one has a live goroutine whose channel is open. */
  lemma {:induction false} EveryInterleaving(events: seq<Event>, p: Pool)
    requires Run(Empty(), events) == Next(p)
    ensures forall s | s in p.sessions :: p.sessions[s].refCount == |set h | h in p.handlers && Holds(p, h, s)|
    ensures forall vm, w | vm in p.pooled && w in p.pooled && p.pooled[vm] == p.pooled[w] :: vm == w
    ensures forall vm | vm in p.pooled :: p.pooled[vm] in p.sessions && !p.sessions[p.pooled[vm]].control.Closed?
    ensures forall vm | vm in p.pooled && p.sessions[p.pooled[vm]].refCount == 0 :: Doomed(p, p.pooled[vm])
  {
    RunKeepsInv(Empty(), events);
    forall s | s in p.sessions ensures p.sessions[s].refCount == |set h | h in p.handlers && Holds(p, h, s)| {
      assert CountOk(p, s);
      forall h | h in p.handlers && Holds(p, h, s) ensures h in p.sessions[s].holders { assert HandlerOk(p, h); }
      assert p.sessions[s].holders == set h | h in p.handlers && Holds(p, h, s);
    }
    assert forall vm | vm in p.pooled :: PooledOk(p, vm);
  }

  /** No pooled session leaks: the goroutine that guards an idle one is not cancelled and takes
      it out of the pool when it expires. */
  lemma {:induction false} IdleSessionIsRemoved(events: seq<Event>, p: Pool, vm: Vm)
    requires Run(Empty(), events) == Next(p)
    requires vm in p.pooled && p.pooled[vm] in p.sessions && p.sessions[p.pooled[vm]].refCount == 0
    ensures var guard := p.sessions[p.pooled[vm]].cancel;
      && guard.Some? && CanExpire(p, guard.value) && !CanSeeCancel(p, guard.value)
      && ExpireStep(p, guard.value).Next? && vm !in ExpireStep(p, guard.value).pool.pooled
  {
    RunKeepsInv(Empty(), events);
    assert PooledOk(p, vm) && CancelOk(p, p.pooled[vm]);
    var guard := p.sessions[p.pooled[vm]].cancel.value;
    assert TimerOk(p, guard);
    ExpireKeepsTeardowns(p, guard);
  }

  /** The timer path takes a session out of the pool only when no handler holds it. */
  lemma {:induction false} ExpiryRemovesOnlyUnheld(events: seq<Event>, p: Pool, timer: ChannelId, vm: Vm)
    requires Run(Empty(), events) == Next(p)
    requires CanExpire(p, timer) && vm in p.pooled && ExpireStep(p, timer).Next?
    requires vm !in ExpireStep(p, timer).pool.pooled
    ensures forall h :: !Holds(p, h, p.pooled[vm])
  {
    RunKeepsInv(Empty(), events);
    var s := p.pooled[vm];
    assert PooledOk(p, vm) && CountOk(p, s);
    assert p.sessions[s].holders == {};
    forall h ensures !Holds(p, h, s) {
      if h in p.handlers { assert HandlerOk(p, h); }
    }
  }

  lemma {:induction false} RunAppend(p: Pool, events: seq<Event>, e: Event)
    requires Run(p, events).Next?
    ensures Run(p, events + [e]) == Run(Run(p, events).pool, [e])
    decreases |events|
  {
    if events == [] {
      assert events + [e] == [e];
    } else {
      assert (events + [e])[1..] == events[1..] + [e];
      RunAppend(if Enabled(p, events[0]) then Step(p, events[0]).pool else p, events[1..], e);
    }
  }

  ghost predicate Reachable(p: Pool) {
    exists events :: Run(Empty(), events) == Next(p)
  }

  /** An event that is possible in a reachable state takes its step without fault. */
  lemma NextIsReachable(p: Pool, e: Event)
    requires Reachable(p) && Enabled(p, e)
    ensures Step(p, e).Next? && Reachable(Step(p, e).pool)
  {
    var events :| Run(Empty(), events) == Next(p);
    RunKeepsInv(Empty(), events);
    StepKeepsInv(p, e);
    RunAppend(Empty(), events, e);
    assert Run(Empty(), events + [e]) == Step(p, e);
  }

  lemma AcquireReaches(p: Pool, h: HandlerId, vm: Vm)
    requires Reachable(p) && CanAcquire(p, h, vm)
    ensures AcquireStep(p, h, vm).Next? && Reachable(AcquireStep(p, h, vm).pool)
  {
    NextIsReachable(p, Acquire(h, vm));
  }

  lemma StartFailedReaches(p: Pool, h: HandlerId)
    requires Reachable(p) && CanFail(p, h)
    ensures StartFailedStep(p, h).Next? && Reachable(StartFailedStep(p, h).pool)
  {
    NextIsReachable(p, StartFailed(h));
  }

  lemma StartedReaches(p: Pool, h: HandlerId, made: SessionId, control: bool)
    requires Reachable(p) && CanStart(p, h, made)
    ensures StartedStep(p, h, made, control).Next? && Reachable(StartedStep(p, h, made, control).pool)
  {
    NextIsReachable(p, Started(h, made, control));
  }

  lemma ReleaseReaches(p: Pool, h: HandlerId, channel: ChannelId)
    requires Reachable(p) && CanRelease(p, h, channel)
    ensures ReleaseStep(p, h, channel).Next? && Reachable(ReleaseStep(p, h, channel).pool)
    ensures channel !in p.closed
  {
    var events :| Run(Empty(), events) == Next(p);
    RunKeepsInv(Empty(), events);
    NextIsReachable(p, Release(h, channel));
  }

  lemma ExpireReaches(p: Pool, timer: ChannelId)
    requires Reachable(p) && CanExpire(p, timer)
    ensures ExpireStep(p, timer).Next? && Reachable(ExpireStep(p, timer).pool)
  {
    NextIsReachable(p, Expire(timer));
  }

  lemma SeeCancelReaches(p: Pool, timer: ChannelId)
    requires Reachable(p) && CanSeeCancel(p, timer)
    ensures SeeCancelStep(p, timer).Next? && Reachable(SeeCancelStep(p, timer).pool)
  {
    NextIsReachable(p, SeeCancel(timer));
  }

  lemma InvalidateReaches(p: Pool, h: HandlerId)
    requires Reachable(p) && CanInvalidate(p, h)
    ensures InvalidateStep(p, h).Next? && Reachable(InvalidateStep(p, h).pool)
  {
    NextIsReachable(p, Invalidate(h));
  }
}
