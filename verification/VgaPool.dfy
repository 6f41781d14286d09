/** The pool of handlers/lxd_vga.go as the program holds it: session objects updated in place
    under one mutex. Every method is one critical section, and is proved to take exactly the
    step of VgaConsole that bears its name. */
module VgaPool {
  import opened Options
  import C = VgaConsole

  class CancelChannel {
    const id: C.ChannelId
    var closed: bool

    constructor (id: C.ChannelId)
      ensures this.id == id && !closed
    {
      this.id, closed := id, false;
    }

    /** Closing a closed channel panics. */
    method Close()
      requires !closed
      modifies `closed
      ensures closed
    {
      closed := true;
    }
  }

  class VgaSession {
    const id: C.SessionId
    ghost const vm: C.Vm
    ghost var holders: set<C.HandlerId>
    var control: C.Control
    var refCount: int
    var cancelTeardown: CancelChannel?

    constructor (id: C.SessionId, ghost vm: C.Vm, ghost h: C.HandlerId, connected: bool)
      ensures this.id == id && this.vm == vm && holders == {h} && refCount == 1 && cancelTeardown == null
      ensures control == if connected then C.Open else C.Absent
    {
      this.id, this.vm, holders, refCount, cancelTeardown := id, vm, {h}, 1, null;
      control := if connected then C.Open else C.Absent;
    }

    ghost function Abs(): C.Session
      reads this
    {
      C.Session(vm, holders, refCount, if cancelTeardown == null then None else Some(cancelTeardown.id), control)
    }
  }

  class SessionPool {
    var vgaSessions: map<C.Vm, VgaSession>
    ghost var abs: C.Pool                               // the state of VgaConsole these objects stand for
    ghost var objects: map<C.SessionId, VgaSession>     // every session object made so far
    ghost var channels: map<C.ChannelId, CancelChannel>
    ghost var all: set<VgaSession>
    ghost var chans: set<CancelChannel>

    ghost predicate Shape()
      reads this, all, chans
    {
      && (forall s | s in all :: s.id in objects && objects[s.id] == s && s.id in abs.sessions)
      && (forall s | s in all :: abs.sessions[s.id] == s.Abs())
      && (forall s | s in all && s.cancelTeardown != null :: s.cancelTeardown in chans)
      && (forall c | c in chans :: c.id in channels && channels[c.id] == c && c.id in abs.issued)
      && (forall c | c in chans :: c.closed <==> c.id in abs.closed)
      && (forall vm :: vm in vgaSessions <==> vm in abs.pooled)
      && (forall vm | vm in vgaSessions :: vgaSessions[vm] in all && vgaSessions[vm].id == abs.pooled[vm])
    }

    /** Objects are never forgotten, and those that come are new. */
    twostate predicate Grew()
      reads this
    {
      && old(all) <= all && (forall s | s in all && s !in old(all) :: fresh(s))
      && old(chans) <= chans && (forall c | c in chans && c !in old(chans) :: fresh(c))
    }

    /** The objects are in a state that some interleaving leads to. */
    ghost predicate Valid()
      reads this, all, chans
    {
      Shape() && C.Reachable(abs)
    }

    constructor ()
      ensures Valid() && abs == C.Empty() && all == {} && chans == {}
    {
      vgaSessions, abs := map[], C.Empty();
      objects, channels, all, chans := map[], map[], {}, {};
      new;
      assert C.Run(C.Empty(), []) == C.Next(C.Empty());
    }

    /** Closes and forgets the cancel channel of a session: the part acquire and invalidate share. */
    method CancelTeardown(s: VgaSession)
      requires Shape() && s in all
      requires s.cancelTeardown != null ==> !s.cancelTeardown.closed
      modifies `abs, s`cancelTeardown, chans`closed
      ensures Shape() && C.Cancel(old(abs), s.id) == C.Next(abs)
      ensures s.cancelTeardown == null
      ensures forall c | c in chans :: c.closed <==> old(c.closed) || c == old(s.cancelTeardown)
    {
      if s.cancelTeardown != null {
        abs := C.Cancel(abs, s.id).pool;
        s.cancelTeardown.Close();
        s.cancelTeardown := null;
      }
    }

    /** Counts one more holder. */
    method Join(ghost h: C.HandlerId, ghost name: C.Vm, s: VgaSession)
      requires Shape() && s in all
      modifies `abs, s`refCount, s`holders
      ensures Shape() && abs == C.Join(old(abs), h, name, s.id)
    {
      abs := C.Join(abs, h, name, s.id);
      s.refCount := s.refCount + 1;
      s.holders := s.holders + {h};
    }

    /** A handler goes and starts an operation of its own. */
    ghost method Begin(h: C.HandlerId, name: C.Vm)
      requires Shape()
      modifies `abs
      ensures Shape() && abs == old(abs).(handlers := old(abs).handlers[h := C.Starting(name)])
    {
      abs := abs.(handlers := abs.handlers[h := C.Starting(name)]);
    }

    /** A pooled session is reused, and its teardown cancelled. */
    method Reuse(ghost h: C.HandlerId, name: C.Vm) returns (found: VgaSession)
      requires Shape() && name in vgaSessions && C.Cancel(abs, abs.pooled[name]).Next?
      modifies `abs, all, chans
      ensures Shape() && found in all && found == vgaSessions[name] && found.id == old(abs).pooled[name]
      ensures C.Cancel(old(abs), found.id).Next? && abs == C.Join(C.Cancel(old(abs), found.id).pool, h, name, found.id)
    {
      found := vgaSessions[name];
      CancelTeardown(found);
      Join(h, name, found);
    }

    /** First critical section of acquireVGASession. */
    method AcquirePooled(ghost h: C.HandlerId, name: C.Vm) returns (found: VgaSession?)
      requires Valid() && h !in abs.handlers
      modifies `abs, all, chans
      ensures Valid() && Grew()
      ensures C.CanAcquire(old(abs), h, name) && C.AcquireStep(old(abs), h, name) == C.Next(abs)
      ensures found == if name in old(vgaSessions) then old(vgaSessions[name]) else null
      ensures found != null <==> name in old(abs).pooled
      ensures found != null ==> found in all && found.id == old(abs).pooled[name]
    {
      C.AcquireReaches(abs, h, name);
      if name in vgaSessions {
        found := Reuse(h, name);
      } else {
        Begin(h, name);
        found := null;
      }
    }

    /** The operation could not be started: acquireVGASession returns its error. */
    ghost method StartFailed(h: C.HandlerId)
      requires Valid() && C.CanFail(abs, h)
      modifies `abs
      ensures Valid() && C.StartFailedStep(old(abs), h) == C.Next(abs)
    {
      C.StartFailedReaches(abs, h);
      abs := C.StartFailedStep(abs, h).pool;
    }

    /** Pools a new session object. */
    method Insert(ghost h: C.HandlerId, name: C.Vm, s: VgaSession)
      requires Shape() && s !in all && s.id !in abs.sessions && s.cancelTeardown == null
      modifies `abs, `objects, `all, `vgaSessions
      ensures Shape() && all == old(all) + {s} && vgaSessions == old(vgaSessions)[name := s]
      ensures abs == old(abs).(pooled := old(abs).pooled[name := s.id], sessions := old(abs).sessions[s.id := s.Abs()],
                               handlers := old(abs).handlers[h := C.Holding(name, s.id)])
    {
      abs := abs.(pooled := abs.pooled[name := s.id], sessions := abs.sessions[s.id := s.Abs()],
                  handlers := abs.handlers[h := C.Holding(name, s.id)]);
      objects, all := objects[s.id := s], all + {s};
      vgaSessions := vgaSessions[name := s];
    }

    method InsertNew(ghost h: C.HandlerId, name: C.Vm, id: C.SessionId, connected: bool) returns (s: VgaSession)
      requires Shape() && id !in abs.sessions
      modifies `abs, `objects, `all, `vgaSessions
      ensures Shape() && fresh(s) && s.id == id && all == old(all) + {s} && vgaSessions == old(vgaSessions)[name := s]
      ensures abs == old(abs).(
        pooled := old(abs).pooled[name := id], handlers := old(abs).handlers[h := C.Holding(name, id)],
        sessions := old(abs).sessions[id := C.Session(name, {h}, 1, None, if connected then C.Open else C.Absent)])
    {
      s := new VgaSession(id, name, h, connected);
      Insert(h, name, s);
    }

    /** Second critical section of acquireVGASession, once the operation `id` has started. */
    method InsertOrJoin(ghost h: C.HandlerId, name: C.Vm, id: C.SessionId, connected: bool) returns (s: VgaSession)
      requires Valid() && h in abs.handlers && abs.handlers[h] == C.Starting(name) && id !in abs.sessions
      modifies `abs, `objects, `all, `vgaSessions, all
      ensures Valid() && Grew()
      ensures C.CanStart(old(abs), h, id) && C.StartedStep(old(abs), h, id, connected) == C.Next(abs)
      ensures name in vgaSessions && vgaSessions[name] == s && s in all && s.id == abs.pooled[name]
      ensures name in old(vgaSessions) ==> s == old(vgaSessions[name])
      ensures abs.handlers == old(abs).handlers[h := C.Holding(name, s.id)] && abs.timers == old(abs).timers
    {
      C.StartedReaches(abs, h, id, connected);
      if name in vgaSessions {
        s := vgaSessions[name];
        Join(h, name, s);
      } else {
        s := InsertNew(h, name, id, connected);
      }
    }

    /** Uncounts a holder. */
    method Leave(ghost h: C.HandlerId, s: VgaSession)
      requires Shape() && s in all
      modifies `abs, s`refCount, s`holders
      ensures Shape() && abs == C.Leave(old(abs), h, s.id)
    {
      abs := C.Leave(abs, h, s.id);
      s.refCount := s.refCount - 1;
      s.holders := s.holders - {h};
    }

    /** Stores a new cancel channel and launches the goroutine that waits on it. */
    method LaunchTeardown(ghost name: C.Vm, s: VgaSession, cancel: CancelChannel)
      requires Shape() && s in all && cancel !in chans && cancel.id !in abs.issued && cancel.id !in abs.closed
        && !cancel.closed
      modifies `abs, `channels, `chans, s`cancelTeardown
      ensures chans == old(chans) + {cancel}
      ensures Shape() && abs == C.LaunchTeardown(old(abs), name, s.id, cancel.id)
    {
      abs := C.LaunchTeardown(abs, name, s.id, cancel.id);
      channels, chans := channels[cancel.id := cancel], chans + {cancel};
      s.cancelTeardown := cancel;
    }

    /** releaseVGASession. The last holder launches a goroutine that waits on the new channel `id`. */
    method Release(
      ghost h: C.HandlerId, ghost name: C.Vm, s: VgaSession, id: C.ChannelId) returns (launched: CancelChannel?)
      requires Valid() && h in abs.handlers && abs.handlers[h] == C.Holding(name, s.id) && id !in abs.issued
      requires s in all
      modifies `abs, `channels, `chans, s
      ensures Valid() && Grew()
      ensures C.CanRelease(old(abs), h, id) && C.ReleaseStep(old(abs), h, id) == C.Next(abs)
      ensures launched != null <==> id in abs.issued
      ensures launched != null ==> launched in chans && launched.id == id
    {
      C.ReleaseReaches(abs, h, id);
      Leave(h, s);
      if s.refCount > 0 {
        return null;
      }
      var cancel := new CancelChannel(id);
      LaunchTeardown(name, s, cancel);
      launched := cancel;
    }

    /** Takes a session out of the pool and closes its control connection. */
    method Drop(name: C.Vm, s: VgaSession)
      requires Shape() && s in all && !s.control.Closed?
      modifies `abs, `vgaSessions, s`control
      ensures Shape() && C.Drop(old(abs), name, s.id) == C.Next(abs)
      ensures vgaSessions == old(vgaSessions) - {name}
      ensures s.control == if old(s.control) == C.Open then C.Closed else C.Absent
    {
      abs := C.Drop(abs, name, s.id).pool;
      vgaSessions := vgaSessions - {name};
      if s.control == C.Open {
        s.control := C.Closed;
      }
    }

    /** A goroutine ends. */
    ghost method Finish(timer: C.ChannelId)
      requires Shape()
      modifies `abs
      ensures Shape() && abs == old(abs).(timers := old(abs).timers - {timer})
    {
      abs := abs.(timers := abs.timers - {timer});
    }

    /** The teardown goroutine on channel `timer`, once its grace period is over. */
    method Expire(ghost timer: C.ChannelId, name: C.Vm, s: VgaSession)
      requires Valid() && timer in abs.timers && abs.timers[timer] == C.Teardown(name, s.id)
      requires s in all
      modifies `abs, `vgaSessions, s`control
      ensures Valid() && Grew()
      ensures C.CanExpire(old(abs), timer) && C.ExpireStep(old(abs), timer) == C.Next(abs)
    {
      C.ExpireReaches(abs, timer);
      Finish(timer);
      if name !in vgaSessions || vgaSessions[name] != s || s.refCount > 0 {
        return;
      }
      Drop(name, s);
    }

    /** The teardown goroutine on channel `cancel`, when it sees that channel closed. */
    method SeeCancel(cancel: CancelChannel)
      requires Valid() && cancel in chans && cancel.id in abs.timers && cancel.closed
      modifies `abs
      ensures Valid() && Grew()
      ensures C.CanSeeCancel(old(abs), cancel.id) && C.SeeCancelStep(old(abs), cancel.id) == C.Next(abs)
    {
      C.SeeCancelReaches(abs, cancel.id);
      abs := C.SeeCancelStep(abs, cancel.id).pool;
    }

    /** A session leaves the pool before its time. */
    method TakeOut(name: C.Vm, s: VgaSession)
      requires Shape() && s in all && !s.control.Closed?
      requires s.cancelTeardown != null ==> !s.cancelTeardown.closed
      modifies `abs, `vgaSessions, s`control, s`cancelTeardown, chans`closed
      ensures Shape() && C.Drop(old(abs), name, s.id).Next?
      ensures C.Cancel(C.Drop(old(abs), name, s.id).pool, s.id) == C.Next(abs)
      ensures vgaSessions == old(vgaSessions) - {name} && s.cancelTeardown == null
      ensures s.control == if old(s.control) == C.Open then C.Closed else C.Absent
      ensures forall c | c in chans :: c.closed <==> old(c.closed) || c == old(s.cancelTeardown)
    {
      Drop(name, s);
      CancelTeardown(s);
    }

    /** invalidateVGASession, called by a holder that could not reach the operation. */
    method Invalidate(ghost h: C.HandlerId, name: C.Vm, s: VgaSession)
      requires Valid() && h in abs.handlers && abs.handlers[h] == C.Holding(name, s.id)
      requires s in all
      modifies `abs, `vgaSessions, s, chans
      ensures Valid() && Grew()
      ensures C.CanInvalidate(old(abs), h) && C.InvalidateStep(old(abs), h) == C.Next(abs)
      ensures s.refCount == old(s.refCount) && s.holders == old(s.holders)
      ensures if name in old(vgaSessions) && old(vgaSessions)[name] == s
        then
          && vgaSessions == old(vgaSessions) - {name} && s.cancelTeardown == null
          && old(s.control) != C.Closed && s.control == (if old(s.control) == C.Open then C.Closed else C.Absent)
          && forall c | c in chans :: c.closed <==> old(c.closed) || c == old(s.cancelTeardown)
        else
          && vgaSessions == old(vgaSessions) && s.cancelTeardown == old(s.cancelTeardown)
          && s.control == old(s.control) && forall c | c in chans :: c.closed == old(c.closed)
    {
      C.InvalidateReaches(abs, h);
      if name in vgaSessions && vgaSessions[name] == s {
        TakeOut(name, s);
      }
    }
  }
}
