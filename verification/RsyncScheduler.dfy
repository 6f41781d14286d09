/** The sync scheduler (handlers/extstorage.go): windows enforced and starts collected on each
    tick, jobs that end or are paused and report later, and requests of the user in between. */
module RsyncScheduler {
  import opened Options
  import opened RsyncWindow

  type Id = nat

  datatype Config = Config(window: Option<Bounds>, enabled: bool, frequency: string)

  datatype Storage = Storage(
    id: Id, rsync: Option<Config>, paused: bool, reason: string, resumeAt: Option<int>, status: string, error: string)

  datatype Outcome = Done | Paused(who: string) | Canceled | Failed(error: string)

  /** A job is running, then has an outcome, then has reported it. */
  datatype Phase = Running | Ended(outcome: Outcome) | Reported

  datatype Job = Job(storage: Id, phase: Phase)

  /** `pending` is what is left of the start list of the last tick; whoever started a job of a storage in
      `owed` has still to clear the pause of the storage. */
  datatype World = World(
    storages: seq<Storage>, jobs: seq<Job>, pending: seq<Storage>, owed: multiset<Id>, offset: int)

  // ---- what happens to one storage ----

  function Unpaused(s: Storage): Storage {
    s.(paused := false, reason := "", resumeAt := None)
  }

  function DropPausedStatus(s: Storage): Storage {
    if s.status == "paused" then s.(status := "") else s
  }

  predicate Scheduled(c: Config) {
    c.enabled && c.frequency != "" && c.frequency != "manual"
  }

  predicate OutsideWindow(s: Storage, now: int, offset: int) {
    s.rsync.Some? && !InWindow(s.rsync.value.window, now, offset)
  }

  predicate Resumes(s: Storage, now: int) {
    s.paused && s.resumeAt.Some? && now >= s.resumeAt.value
  }

  /** The storage is put in the start list of a tick. */
  predicate Starts(s: Storage, due: bool, now: int, offset: int) {
    s.rsync.Some? && (Resumes(s, now) || (Scheduled(s.rsync.value) && due && !OutsideWindow(s, now, offset)))
  }

  /** The fire of a tick is deferred to the next opening of the window. */
  predicate Defers(s: Storage, due: bool, now: int, offset: int) {
    s.rsync.Some? && !s.paused && Scheduled(s.rsync.value) && due && OutsideWindow(s, now, offset)
  }

  function Collected(s: Storage, due: bool, now: int, offset: int): Storage {
    if Defers(s, due, now, offset) then
      s.(paused := true, reason := "window", resumeAt := Some(NextStart(s.rsync.value.window.value, now, offset)),
        status := "paused", error := "")
    else s
  }

  /** extPauseResumeAt; `next` is the next run of the schedule. */
  function ResumeAt(rsync: Option<Config>, now: int, offset: int, next: Option<int>): Option<int> {
    if rsync.Some? && rsync.value.window.Some? then Some(NextStart(rsync.value.window.value, now, offset))
    else if rsync.Some? && Scheduled(rsync.value) then next
    else None
  }

  /** extFinishRsync. */
  function Finished(s: Storage, outcome: Outcome, now: int, offset: int, next: Option<int>): Storage {
    match outcome
    case Done => Unpaused(s).(status := "ok", error := "")
    case Paused(who) => s.(status := "paused", error := "", paused := true, reason := who,
      resumeAt := ResumeAt(s.rsync, now, offset, next))
    case Canceled => s.(status := "error", error := "canceled by user")
    case Failed(error) => Unpaused(s).(status := "error", error := error)
  }

  /** HandleExtStorageSetRsync with an accepted configuration. */
  function Configure(s: Storage, c: Config, now: int, offset: int): Storage {
    var t := s.(rsync := Some(c));
    if s.paused && s.reason == "window" then
      if c.window.Some? then t.(resumeAt := Some(NextStart(c.window.value, now, offset)))
        else DropPausedStatus(Unpaused(t))
    else t
  }

  function Unconfigure(s: Storage): Storage {
    DropPausedStatus(Unpaused(s.(rsync := None)))
  }

  // ---- what happens to the whole ----

  /** extFind: the place of the first storage with the identifier, or the length. */
  function Find(storages: seq<Storage>, id: Id): (i: nat)
    ensures i <= |storages|
    ensures i < |storages| ==> storages[i].id == id
    ensures forall j | 0 <= j < i :: storages[j].id != id
  {
    if storages == [] || storages[0].id == id then 0 else 1 + Find(storages[1..], id)
  }

  function Enforced(storages: seq<Storage>, j: Job, now: int, offset: int): Job {
    var i := Find(storages, j.storage);
    if j.phase.Running? && i < |storages|
      && OutsideWindow(storages[i], now, offset) then j.(phase := Ended(Paused("window"))) else j
  }

  function EnforceStep(w: World, now: int): World {
    w.(jobs := seq(|w.jobs|, k requires 0 <= k < |w.jobs| => Enforced(w.storages, w.jobs[k], now, w.offset)))
  }

  function StartList(storages: seq<Storage>, due: seq<bool>, now: int, offset: int): seq<Storage>
    requires |due| == |storages|
  {
    if storages == [] then []
    else
      var n := |storages| - 1;
      StartList(storages[..n], due[..n], now, offset) + if Starts(storages[n], due[n], now, offset) then [storages[n]]
        else []
  }

  function CollectStep(w: World, now: int, due: seq<bool>): World
    requires |due| == |w.storages|
  {
    w.(storages := seq(|w.storages|,
      i requires 0 <= i < |w.storages| => Collected(w.storages[i], due[i], now, w.offset)),
       pending := StartList(w.storages, due, now, w.offset))
  }

  /** RsyncActiveForStorage. */
  ghost predicate Active(jobs: seq<Job>, id: Id) {
    exists k :: 0 <= k < |jobs| && jobs[k] == Job(id, Running)
  }

  /** The pause is cleared once the job has been started; a start that fails clears it itself. */
  ghost function StartStep(w: World, error: Option<string>): World
    requires w.pending != []
  {
    var id := w.pending[0].id;
    var v := w.(pending := w.pending[1..]);
    var i := Find(w.storages, id);
    if Active(w.jobs, id) then v
    else if error.Some? then
      if i == |w.storages| then v
      else v.(storages := w.storages[i := Unpaused(w.storages[i]).(status := "error", error := error.value)])
    else v.(jobs := w.jobs + [Job(id, Running)], owed := w.owed + multiset{id})
  }

  /** Whoever has started a job of the storage clears its pause, whatever that pause is by now. */
  function ClearStep(w: World, id: Id): World {
    var i := Find(w.storages, id);
    var v := w.(owed := w.owed - multiset{id});
    if i == |w.storages| || !w.storages[i].paused then v
    else v.(storages := w.storages[i := Unpaused(w.storages[i])])
  }

  /** HandleExtStorageRunRsync; refused while a job runs. */
  ghost function RunStep(w: World, id: Id, mounted: bool): World {
    var i := Find(w.storages, id);
    if i == |w.storages| || w.storages[i].rsync.None? || Active(w.jobs, id) || !mounted then w
    else w.(jobs := w.jobs + [Job(id, Running)], owed := w.owed + multiset{id})
  }

  /** A running job gets an outcome. */
  function EndStep(w: World, k: nat, outcome: Outcome): World
    requires k < |w.jobs|
  {
    if w.jobs[k].phase.Running? then w.(jobs := w.jobs[k := w.jobs[k].(phase := Ended(outcome))]) else w
  }

  function ReportStep(w: World, k: nat, now: int, next: Option<int>): World
    requires k < |w.jobs| && w.jobs[k].phase.Ended?
  {
    var i := Find(w.storages, w.jobs[k].storage);
    var v := w.(jobs := w.jobs[k := w.jobs[k].(phase := Reported)]);
    if i == |w.storages| then v
    else v.(storages := w.storages[i := Finished(w.storages[i], w.jobs[k].phase.outcome, now, w.offset, next)])
  }

  function SetStep(w: World, id: Id, c: Option<Config>, now: int): World {
    var i := Find(w.storages, id);
    if i == |w.storages| then w
    else w.(storages := w.storages[i :=
      match c
      case Some(config) => Configure(w.storages[i], config, now, w.offset)
      case None => Unconfigure(w.storages[i])])
  }

  datatype Event =
    | Enforce(now: int)
    | Collect(now: int, due: seq<bool>)
    | Start(error: Option<string>)
    | Clear(id: Id)
    | End(k: nat, outcome: Outcome)          // also the user's stop: Paused("user")
    | Report(k: nat, now: int, next: Option<int>)
    | Run(id: Id, mounted: bool)
    | Set(id: Id, config: Option<Config>, now: int)

  predicate Enabled(w: World, e: Event) {
    match e
    case Collect(_, due) => |due| == |w.storages|
    case Start(_) => w.pending != []
    case Clear(id) => id in w.owed
    case End(k, _) => k < |w.jobs| && w.jobs[k].phase.Running?
    case Report(k, _, _) => k < |w.jobs| && w.jobs[k].phase.Ended?
    case _ => true
  }

  ghost function Step(w: World, e: Event): World
    requires Enabled(w, e)
  {
    match e
    case Enforce(now) => EnforceStep(w, now)
    case Collect(now, due) => CollectStep(w, now, due)
    case Start(error) => StartStep(w, error)
    case Clear(id) => ClearStep(w, id)
    case End(k, outcome) => EndStep(w, k, outcome)
    case Report(k, now, next) => ReportStep(w, k, now, next)
    case Run(id, mounted) => RunStep(w, id, mounted)
    case Set(id, config, now) => SetStep(w, id, config, now)
  }

  // ---- windows are enforced ----

  ghost predicate RunsOutside(w: World, j: Job, now: int) {
    var i := Find(w.storages, j.storage);
    j.phase.Running? && i < |w.storages| && OutsideWindow(w.storages[i], now, w.offset)
  }

  /** After step 1 of a tick no sync runs outside its window, and the others run on. */
  lemma NoneRunsOutside(w: World, now: int)
    ensures forall j | j in EnforceStep(w, now).jobs :: !RunsOutside(EnforceStep(w, now), j, now)
    ensures forall k | 0 <= k < |w.jobs| && !RunsOutside(w, w.jobs[k], now) :: EnforceStep(w, now).jobs[k] == w.jobs[k]
  {}
}
