/** Console handlers and teardown goroutines with their local variables: every interleaving of
    handlers/lxd_vga.go can be carried out on the objects of the pool, each caller using only the
    pointers it was given. */
module VgaRuntime {
  import opened VgaPool
  import C = VgaConsole

  /** The local variables of a handler: the name it asks for, then its session. */
  datatype Local = Wants(vm: C.Vm) | Has(vm: C.Vm, session: VgaSession)

  /** What a teardown goroutine has captured. */
  datatype Routine = Routine(vm: C.Vm, session: VgaSession, cancel: CancelChannel)

  type Locals = map<C.HandlerId, Local>
  type Routines = map<C.ChannelId, Routine>

  ghost predicate Knows(l: Local, h: C.Handler, all: set<VgaSession>) {
    match h
    case Starting(vm) => l == Wants(vm)
    case Holding(vm, s) => l.Has? && l.vm == vm && l.session.id == s && l.session in all
  }

  ghost predicate Captured(
    r: Routine, t: C.ChannelId, down: C.Teardown, all: set<VgaSession>, chans: set<CancelChannel>) {
    r.vm == down.vm && r.session.id == down.session && r.session in all && r.cancel.id == t && r.cancel in chans
  }

  ghost predicate LocalsOk(handlers: map<C.HandlerId, C.Handler>, locals: Locals, all: set<VgaSession>) {
    forall h | h in handlers :: h in locals && Knows(locals[h], handlers[h], all)
  }

  ghost predicate RoutinesOk(
    timers: map<C.ChannelId, C.Teardown>, routines: Routines, all: set<VgaSession>, chans: set<CancelChannel>) {
    forall t | t in timers :: t in routines && Captured(routines[t], t, timers[t], all, chans)
  }

  lemma MoreObjects(
    handlers: map<C.HandlerId, C.Handler>, locals: Locals, timers: map<C.ChannelId, C.Teardown>, routines: Routines,
    all: set<VgaSession>, all': set<VgaSession>, chans: set<CancelChannel>, chans': set<CancelChannel>)
    requires LocalsOk(handlers, locals, all) && RoutinesOk(timers, routines, all, chans) && all <= all'
      && chans <= chans'
    ensures LocalsOk(handlers, locals, all') && RoutinesOk(timers, routines, all', chans')
  {}

  lemma PutLocal(
    handlers: map<C.HandlerId, C.Handler>, locals: Locals, all: set<VgaSession>, h: C.HandlerId, to: C.Handler,
    l: Local)
    requires LocalsOk(handlers, locals, all) && Knows(l, to, all)
    ensures LocalsOk(handlers[h := to], locals[h := l], all)
  {}

  // ---- what a step does to handlers and goroutines ----

  lemma AcquireThreads(p: C.Pool, h: C.HandlerId, vm: C.Vm)
    requires C.CanAcquire(p, h, vm) && C.AcquireStep(p, h, vm).Next?
    ensures C.AcquireStep(p, h, vm).pool.timers == p.timers
    ensures C.AcquireStep(p, h, vm).pool.handlers ==
      p.handlers[h := if vm in p.pooled then C.Holding(vm, p.pooled[vm]) else C.Starting(vm)]
  {}

  /** A handler gets a session, and objects may have come. */
  lemma Gets(
    handlers: map<C.HandlerId, C.Handler>, locals: Locals, timers: map<C.ChannelId, C.Teardown>, routines: Routines,
    all: set<VgaSession>, all': set<VgaSession>, chans: set<CancelChannel>, h: C.HandlerId, vm: C.Vm, s: VgaSession)
    requires LocalsOk(handlers, locals, all) && RoutinesOk(timers, routines, all, chans) && all <= all' && s in all'
    ensures LocalsOk(handlers[h := C.Holding(vm, s.id)], locals[h := Has(vm, s)], all')
      && RoutinesOk(timers, routines, all', chans)
  {
    MoreObjects(handlers, locals, timers, routines, all, all', chans, chans);
    PutLocal(handlers, locals, all', h, C.Holding(vm, s.id), Has(vm, s));
  }

  lemma ReleaseThreads(p: C.Pool, h: C.HandlerId, channel: C.ChannelId)
    requires C.CanRelease(p, h, channel) && C.ReleaseStep(p, h, channel).Next?
    ensures var q := C.ReleaseStep(p, h, channel).pool;
      && q.handlers == p.handlers - {h}
      && q.timers == if channel !in q.issued then p.timers
                     else p.timers[channel := C.Teardown(p.handlers[h].vm, p.handlers[h].session)]
  {}

  lemma ExpireThreads(p: C.Pool, timer: C.ChannelId)
    requires C.CanExpire(p, timer) && C.ExpireStep(p, timer).Next?
    ensures C.ExpireStep(p, timer).pool.handlers == p.handlers
      && C.ExpireStep(p, timer).pool.timers == p.timers - {timer}
  {}

  lemma InvalidateThreads(p: C.Pool, h: C.HandlerId)
    requires C.CanInvalidate(p, h) && C.InvalidateStep(p, h).Next?
    ensures C.InvalidateStep(p, h).pool.handlers == p.handlers && C.InvalidateStep(p, h).pool.timers == p.timers
  {}

  /** The local variables of all handlers and goroutines. */
  datatype Threads = Threads(locals: Locals, routines: Routines)

  ghost predicate ThreadsOk(pool: SessionPool, ts: Threads)
    reads pool
  {
    LocalsOk(pool.abs.handlers, ts.locals, pool.all) && RoutinesOk(pool.abs.timers, ts.routines, pool.all, pool.chans)
  }

  method Acquire(pool: SessionPool, ts: Threads, h: C.HandlerId, vm: C.Vm) returns (next: Threads)
    requires pool.Valid() && ThreadsOk(pool, ts) && C.CanAcquire(pool.abs, h, vm)
    modifies pool, pool.all, pool.chans
    ensures pool.Valid() && ThreadsOk(pool, next) && pool.Grew()
    ensures C.AcquireStep(old(pool.abs), h, vm) == C.Next(pool.abs)
  {
    var found := pool.AcquirePooled(h, vm);
    var l := if found == null then Wants(vm) else Has(vm, found);
    AcquireThreads(old(pool.abs), h, vm);
    PutLocal(old(pool.abs).handlers, ts.locals, pool.all, h, pool.abs.handlers[h], l);
    next := ts.(locals := ts.locals[h := l]);
  }

  ghost method StartFailed(pool: SessionPool, ts: Threads, h: C.HandlerId)
    requires pool.Valid() && ThreadsOk(pool, ts) && C.CanFail(pool.abs, h)
    modifies pool, pool.all, pool.chans
    ensures pool.Valid() && ThreadsOk(pool, ts) && pool.Grew()
    ensures C.StartFailedStep(old(pool.abs), h) == C.Next(pool.abs)
  {
    pool.StartFailed(h);
  }

  method Started(
    pool: SessionPool, ts: Threads, h: C.HandlerId, made: C.SessionId, control: bool) returns (next: Threads)
    requires pool.Valid() && ThreadsOk(pool, ts) && C.CanStart(pool.abs, h, made)
    modifies pool, pool.all, pool.chans
    ensures pool.Valid() && ThreadsOk(pool, next) && pool.Grew()
    ensures C.StartedStep(old(pool.abs), h, made, control) == C.Next(pool.abs)
  {
    var vm := ts.locals[h].vm;
    var s := pool.InsertOrJoin(h, vm, made, control);
    ghost var was := old(pool.abs);
    Gets(was.handlers, ts.locals, was.timers, ts.routines, old(pool.all), pool.all, pool.chans, h, vm, s);
    next := ts.(locals := ts.locals[h := Has(vm, s)]);
  }

  method Release(pool: SessionPool, ts: Threads, h: C.HandlerId, channel: C.ChannelId) returns (next: Threads)
    requires pool.Valid() && ThreadsOk(pool, ts) && C.CanRelease(pool.abs, h, channel)
    modifies pool, pool.all, pool.chans
    ensures pool.Valid() && ThreadsOk(pool, next) && pool.Grew()
    ensures C.ReleaseStep(old(pool.abs), h, channel) == C.Next(pool.abs)
  {
    var vm, s := ts.locals[h].vm, ts.locals[h].session;
    var launched := pool.Release(h, vm, s, channel);
    ReleaseThreads(old(pool.abs), h, channel);
    next := if launched == null then ts else ts.(routines := ts.routines[channel := Routine(vm, s, launched)]);
  }

  method Expire(pool: SessionPool, ts: Threads, timer: C.ChannelId)
    requires pool.Valid() && ThreadsOk(pool, ts) && C.CanExpire(pool.abs, timer)
    modifies pool, pool.all, pool.chans
    ensures pool.Valid() && ThreadsOk(pool, ts) && pool.Grew()
    ensures C.ExpireStep(old(pool.abs), timer) == C.Next(pool.abs)
  {
    pool.Expire(timer, ts.routines[timer].vm, ts.routines[timer].session);
    ExpireThreads(old(pool.abs), timer);
  }

  method SeeCancel(pool: SessionPool, ts: Threads, timer: C.ChannelId)
    requires pool.Valid() && ThreadsOk(pool, ts) && C.CanSeeCancel(pool.abs, timer)
    modifies pool, pool.all, pool.chans
    ensures pool.Valid() && ThreadsOk(pool, ts) && pool.Grew()
    ensures C.SeeCancelStep(old(pool.abs), timer) == C.Next(pool.abs)
  {
    pool.SeeCancel(ts.routines[timer].cancel);
  }

  method Invalidate(pool: SessionPool, ts: Threads, h: C.HandlerId)
    requires pool.Valid() && ThreadsOk(pool, ts) && C.CanInvalidate(pool.abs, h)
    modifies pool, pool.all, pool.chans
    ensures pool.Valid() && ThreadsOk(pool, ts) && pool.Grew()
    ensures C.InvalidateStep(old(pool.abs), h) == C.Next(pool.abs)
  {
    pool.Invalidate(h, ts.locals[h].vm, ts.locals[h].session);
    InvalidateThreads(old(pool.abs), h);
  }

  /** One event, by the thread it belongs to. */
  method Perform(pool: SessionPool, ts: Threads, e: C.Event) returns (next: Threads)
    requires pool.Valid() && ThreadsOk(pool, ts) && C.Enabled(pool.abs, e)
    modifies pool, pool.all, pool.chans
    ensures pool.Valid() && ThreadsOk(pool, next) && pool.Grew()
    ensures C.Step(old(pool.abs), e) == C.Next(pool.abs)
  {
    next := ts;
    match e
    case Acquire(h, vm) => next := Acquire(pool, ts, h, vm);
    case StartFailed(h) => StartFailed(pool, ts, h);
    case Started(h, made, control) => next := Started(pool, ts, h, made, control);
    case Release(h, channel) => next := Release(pool, ts, h, channel);
    case Expire(timer) => Expire(pool, ts, timer);
    case SeeCancel(timer) => SeeCancel(pool, ts, timer);
    case Invalidate(h) => Invalidate(pool, ts, h);
  }

  /** Each event is possible when its turn comes. */
  predicate Possible(p: C.Pool, events: seq<C.Event>)
    decreases |events|
  {
    events == [] || (C.Enabled(p, events[0])
      && (C.Step(p, events[0]).Next? ==> Possible(C.Step(p, events[0]).pool, events[1..])))
  }

  /** Every interleaving that is possible from the empty pool is carried out by the objects, step by step. */
  method Interleave(events: seq<C.Event>) returns (pool: SessionPool, ts: Threads)
    requires Possible(C.Empty(), events)
    ensures fresh(pool) && pool.Valid() && ThreadsOk(pool, ts) && C.Run(C.Empty(), events) == C.Next(pool.abs)
  {
    pool := new SessionPool();
    ts := Threads(map[], map[]);
    for i := 0 to |events|
      invariant fresh(pool) && fresh(pool.all) && fresh(pool.chans) && pool.Valid() && ThreadsOk(pool, ts)
      invariant Possible(pool.abs, events[i..])
      invariant C.Run(C.Empty(), events) == C.Run(pool.abs, events[i..])
    {
      assert events[i..][1..] == events[i + 1..];
      ts := Perform(pool, ts, events[i]);
    }
  }
}
