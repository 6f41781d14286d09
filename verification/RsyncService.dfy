/** The scheduler as the program holds it: storages and jobs that its loops update in place. */
module RsyncService {
  import opened Options
  import opened RsyncWindow
  import opened RsyncScheduler

  class Service {
    var storages: seq<Storage>
    var jobs: seq<Job>
    var pending: seq<Storage>
    var owed: multiset<Id>
    const offset: int

    constructor (storages: seq<Storage>, offset: int)
      ensures Now() == World(storages, [], [], multiset{}, offset)
    {
      this.storages, this.jobs, this.pending, this.owed, this.offset := storages, [], [], multiset{}, offset;
    }

    ghost function Now(): World
      reads this
    {
      World(storages, jobs, pending, owed, offset)
    }

    method FindIndex(id: Id) returns (i: nat)
      ensures i == Find(storages, id)
    {
      i := 0;
      while i < |storages| && storages[i].id != id
        invariant i <= |storages|
        invariant Find(storages, id) == i + Find(storages[i..], id)
      {
        assert storages[i..][1..] == storages[i + 1..];
        i := i + 1;
      }
    }

    method IsActive(id: Id) returns (active: bool)
      ensures active <==> Active(jobs, id)
    {
      for k := 0 to |jobs|
        invariant forall l | 0 <= l < k :: jobs[l] != Job(id, Running)
      {
        if jobs[k].storage == id && jobs[k].phase.Running? {
          return true;
        }
      }
      return false;
    }

    /** Step 1 of a tick. */
    method EnforceWindows(now: int)
      modifies this`jobs
      ensures Now() == EnforceStep(old(Now()), now)
      ensures forall j | j in jobs :: !RunsOutside(Now(), j, now)
    {
      ghost var w := Now();
      for k := 0 to |jobs|
        invariant |jobs| == |w.jobs|
        invariant forall l | 0 <= l < k :: jobs[l] == Enforced(storages, w.jobs[l], now, offset)
        invariant forall l | k <= l < |jobs| :: jobs[l] == w.jobs[l]
      {
        if jobs[k].phase.Running? {
          var i := FindIndex(jobs[k].storage);
          if i < |storages| && OutsideWindow(storages[i], now, offset) {
            jobs := jobs[k := jobs[k].(phase := Ended(Paused("window")))];
          }
        }
      }
      assert jobs == EnforceStep(w, now).jobs;
      NoneRunsOutside(w, now);
    }

    /** Step 2 of a tick: auto-resumes, scheduled starts and deferrals. */
    method CollectStarts(now: int, due: seq<bool>)
      requires |due| == |storages|
      modifies this`storages, this`pending
      ensures Now() == CollectStep(old(Now()), now, due)
    {
      ghost var w := Now();
      var start: seq<Storage> := [];
      for i := 0 to |storages|
        invariant |storages| == |w.storages| && pending == w.pending
        invariant forall k | 0 <= k < i :: storages[k] == Collected(w.storages[k], due[k], now, offset)
        invariant forall k | i <= k < |storages| :: storages[k] == w.storages[k]
        invariant start == StartList(w.storages[..i], due[..i], now, offset)
      {
        var s := storages[i];
        assert w.storages[..i + 1][..i] == w.storages[..i] && due[..i + 1][..i] == due[..i];
        if s.rsync.Some? {
          var c := s.rsync.value;
          if s.paused && s.resumeAt.Some? && now >= s.resumeAt.value {
            start := start + [s];
          } else if Scheduled(c) && due[i] {
            if OutsideWindow(s, now, offset) {
              if !s.paused {
                storages := storages[i := s.(paused := true, reason := "window",
                  resumeAt := Some(NextStart(c.window.value, now, offset)), status := "paused", error := "")];
              }
            } else {
              start := start + [s];
            }
          }
        }
      }
      assert w.storages[..|storages|] == w.storages && due[..|storages|] == due;
      pending := start;
      assert storages == CollectStep(w, now, due).storages;
    }

    /** Step 3 of a tick, for one storage of the start list, up to the start of its job. */
    method StartNext(error: Option<string>)
      requires pending != []
      modifies this
      ensures Now() == StartStep(old(Now()), error)
    {
      var id := pending[0].id;
      pending := pending[1..];
      var active := IsActive(id);
      if active {
        return;
      }
      var i := FindIndex(id);
      if error.Some? {
        if i < |storages| {
          storages := storages[i := Unpaused(storages[i]).(status := "error", error := error.value)];
        }
        return;
      }
      jobs := jobs + [Job(id, Running)];
      owed := owed + multiset{id};
    }

    /** The second critical section of a start, by a tick or by the user. */
    method ClearPause(id: Id)
      requires id in owed
      modifies this`storages, this`owed
      ensures Now() == ClearStep(old(Now()), id)
    {
      owed := owed - multiset{id};
      var i := FindIndex(id);
      if i < |storages| && storages[i].paused {
        storages := storages[i := storages[i].(paused := false, reason := "", resumeAt := None)];
      }
    }

    /** extFinishRsync, in the goroutine of the job. */
    method Report(k: nat, now: int, next: Option<int>)
      requires k < |jobs| && jobs[k].phase.Ended?
      modifies this
      ensures Now() == ReportStep(old(Now()), k, now, next)
      ensures |storages| == |old(storages)| && jobs[k].phase == Reported
      ensures forall i | 0 <= i < |storages| && i != Find(old(storages), old(jobs)[k].storage) ::
        storages[i] == old(storages)[i]
      ensures var i := Find(old(storages), old(jobs)[k].storage);
        i < |storages| ==>
          var s, t := old(storages)[i], storages[i];
          && t.id == s.id && t.rsync == s.rsync
          && match old(jobs)[k].phase.outcome {
               case Done => t.status == "ok" && t.error == "" && !t.paused && t.reason == "" && t.resumeAt == None
               case Failed(error) =>
                 t.status == "error" && t.error == error && !t.paused && t.reason == "" && t.resumeAt == None
               case Canceled =>
                 && t.status == "error" && t.error == "canceled by user"
                 && t.paused == s.paused && t.reason == s.reason && t.resumeAt == s.resumeAt
               case Paused(who) =>
                 && t.status == "paused" && t.error == "" && t.paused && t.reason == who
                 && t.resumeAt == ResumeAt(s.rsync, now, offset, next)
             }
    {
      var i := FindIndex(jobs[k].storage);
      var outcome := jobs[k].phase.outcome;
      jobs := jobs[k := jobs[k].(phase := Reported)];
      if i == |storages| {
        return;
      }
      var s := storages[i];
      match outcome {
        case Done =>
          s := s.(status := "ok", error := "", paused := false, reason := "", resumeAt := None);
        case Paused(who) =>
          s := s.(status := "paused", error := "", paused := true, reason := who);
          s := s.(resumeAt := ResumeAt(s.rsync, now, offset, next));
        case Canceled =>
          s := s.(status := "error", error := "canceled by user");
        case Failed(error) =>
          s := s.(status := "error", error := error, paused := false, reason := "", resumeAt := None);
      }
      storages := storages[i := s];
    }

    /** HandleExtStorageRunRsync up to the start of the job. */
    method RunNow(id: Id, mounted: bool) returns (started: bool)
      modifies this
      ensures Now() == RunStep(old(Now()), id, mounted)
      ensures started <==> |jobs| == |old(jobs)| + 1
    {
      var i := FindIndex(id);
      var active := IsActive(id);
      if i == |storages| || storages[i].rsync.None? || active || !mounted {
        return false;
      }
      jobs := jobs + [Job(id, Running)];
      owed := owed + multiset{id};
      return true;
    }

    /** HandleExtStorageSetRsync; no configuration removes the sync. */
    method SetRsync(id: Id, config: Option<Config>, now: int) returns (found: bool)
      modifies this`storages
      ensures Now() == SetStep(old(Now()), id, config, now)
      ensures found <==> exists s :: s in storages && s.id == id
    {
      var i := FindIndex(id);
      if i == |storages| {
        return false;
      }
      var s := storages[i];
      if config.None? {
        s := DropPausedStatus(s.(rsync := None, paused := false, reason := "", resumeAt := None));
      } else {
        s := s.(rsync := config);
        if s.paused && s.reason == "window" {
          if config.value.window.Some? {
            s := s.(resumeAt := Some(NextStart(config.value.window.value, now, offset)));
          } else {
            s := DropPausedStatus(s.(paused := false, reason := "", resumeAt := None));
          }
        }
      }
      storages := storages[i := s];
      assert storages[i].id == id;
      return true;
    }
  }
}
