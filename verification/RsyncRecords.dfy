/** What the program records about a sync: status and error of the last event that concerned it, and when a
    pause is to end. */
module RsyncRecords {
  import opened Options
  import opened RsyncWindow
  import opened RsyncScheduler
  import opened RsyncDeferral

  datatype Record = Record(status: string, error: string)

  /** What the end of a job says about its storage. */
  function Verdict(outcome: Outcome): Record {
    match outcome
    case Done => Record("ok", "")
    case Paused(_) => Record("paused", "")
    case Canceled => Record("error", "canceled by user")
    case Failed(error) => Record("error", error)
  }

  /** A status that only says the sync is paused is forgotten with the pause. */
  function Forgiven(s: Storage): Record {
    Record(if s.status == "paused" then "" else s.status, s.error)
  }

  /** What an event says about the storage at `i`, if it says anything: a report, a start that fails, a
      fire that is deferred, the end of a pause by an edit or a removal. */
  ghost function Says(w: World, e: Event, i: nat): Option<Record>
    requires i < |w.storages| && Enabled(w, e)
  {
    var s := w.storages[i];
    match e
    case Collect(now, due) =>
      if s.rsync.Some? && !s.paused && due[i] && s.rsync.value.enabled && s.rsync.value.frequency !in {"", "manual"}
        && !InWindow(s.rsync.value.window, now, w.offset) then Some(Record("paused", "")) else None
    case Start(error) =>
      if w.pending[0].id == s.id && !Active(w.jobs, s.id)
        && error.Some? then Some(Record("error", error.value)) else None
    case Report(k, _, _) =>
      if w.jobs[k].storage == s.id then Some(Verdict(w.jobs[k].phase.outcome)) else None
    case Set(id, config, _) =>
      if id != s.id then None
      else if config.None? then Some(Forgiven(s))
      else if s.paused && s.reason == "window" && config.value.window.None? then Some(Forgiven(s))
      else None
    case _ => None
  }

  ghost predicate HasRecord(w: World, i: nat, r: Record) {
    i < |w.storages| && w.storages[i].status == r.status && w.storages[i].error == r.error
  }

  ghost function RecordOf(w: World, i: nat): Record
    requires i < |w.storages|
  {
    Record(w.storages[i].status, w.storages[i].error)
  }

  lemma FindIsIt(storages: seq<Storage>, i: nat, id: Id)
    requires i < |storages| && UniqueIds(storages)
    ensures Find(storages, id) == i <==> storages[i].id == id
  {
    FindUnique(storages, i);
  }

  /** The storages keep their places and identifiers. */
  lemma SameStorages(w: World, e: Event)
    requires Enabled(w, e)
    ensures |Step(w, e).storages| == |w.storages|
    ensures forall i | 0 <= i < |w.storages| :: Step(w, e).storages[i].id == w.storages[i].id
  {}

  lemma StartIsRecorded(w: World, error: Option<string>, i: nat)
    requires i < |w.storages| && UniqueIds(w.storages) && w.pending != []
    ensures HasRecord(StartStep(w, error), i, if Says(w, Start(error), i).Some? then Says(w, Start(error), i).value
      else RecordOf(w, i))
  {
    FindIsIt(w.storages, i, w.pending[0].id);
  }

  lemma ReportIsRecorded(w: World, k: nat, now: int, next: Option<int>, i: nat)
    requires i < |w.storages| && UniqueIds(w.storages) && k < |w.jobs| && w.jobs[k].phase.Ended?
    ensures HasRecord(ReportStep(w, k, now, next), i, if w.jobs[k].storage == w.storages[i].id
      then Verdict(w.jobs[k].phase.outcome) else RecordOf(w, i))
  {
    FindIsIt(w.storages, i, w.jobs[k].storage);
  }

  lemma SetIsRecorded(w: World, id: Id, config: Option<Config>, now: int, i: nat)
    requires i < |w.storages| && UniqueIds(w.storages)
    ensures HasRecord(SetStep(w, id, config, now), i, if Says(w, Set(id, config, now), i).Some?
      then Says(w, Set(id, config, now), i).value else RecordOf(w, i))
  {
    FindIsIt(w.storages, i, id);
  }

  lemma ClearIsSilent(w: World, id: Id, i: nat)
    requires i < |w.storages|
    ensures HasRecord(ClearStep(w, id), i, RecordOf(w, i))
  {}

  /** What an event says is recorded, and an event that says nothing leaves the record. */
  lemma SaidIsRecorded(w: World, e: Event, i: nat)
    requires i < |w.storages| && UniqueIds(w.storages) && Enabled(w, e)
    ensures HasRecord(Step(w, e), i, if Says(w, e, i).Some? then Says(w, e, i).value else RecordOf(w, i))
  {
    match e
    case Enforce(now) =>
    case Collect(now, due) =>
    case Start(error) => StartIsRecorded(w, error, i);
    case Clear(id) => ClearIsSilent(w, id, i);
    case End(k, outcome) =>
    case Report(k, now, next) => ReportIsRecorded(w, k, now, next, i);
    case Run(id, mounted) =>
    case Set(id, config, now) => SetIsRecorded(w, id, config, now, i);
  }

  /** No event of the run says anything about the storage. */
  ghost predicate Silent(w: World, events: seq<Event>, i: nat)
    requires Possible(w, events)
    decreases |events|
  {
    i < |w.storages| && (events != [] ==> Says(w, events[0], i) == None && Silent(Step(w, events[0]), events[1..], i))
  }

  lemma {:induction false} SilenceKeepsRecord(w: World, events: seq<Event>, i: nat)
    requires UniqueIds(w.storages) && Possible(w, events) && Silent(w, events, i)
    ensures HasRecord(Runs(w, events), i, RecordOf(w, i))
    decreases |events|
  {
    if events != [] {
      SameStorages(w, events[0]);
      SaidIsRecorded(w, events[0], i);
      SilenceKeepsRecord(Step(w, events[0]), events[1..], i);
    }
  }

  /** After any run, status and error of a storage are those of the last event that said something about it. */
  lemma LastWordStands(w: World, e: Event, events: seq<Event>, i: nat)
    requires i < |w.storages| && UniqueIds(w.storages) && Enabled(w, e) && Says(w, e, i).Some?
    requires Possible(Step(w, e), events) && Silent(Step(w, e), events, i)
    ensures HasRecord(Runs(Step(w, e), events), i, Says(w, e, i).value)
  {
    SameStorages(w, e);
    SaidIsRecorded(w, e, i);
    SilenceKeepsRecord(Step(w, e), events, i);
  }

  // ---- reports and pauses ----

  /** When a pause ends by itself. */
  ghost predicate Resumption(rsync: Option<Config>, now: int, offset: int, next: Option<int>, at: Option<int>) {
    match rsync
    case None => at == None
    case Some(c) =>
      && (c.window.Some? ==> at == Some(NextStart(c.window.value, now, offset)))
      && (c.window.None? && c.enabled && c.frequency != "" && c.frequency != "manual" ==> at == next)
      && (c.window.None? && !(c.enabled && c.frequency != "" && c.frequency != "manual") ==> at == None)
  }

  /** A report of a job that is done records "ok", that of a failed one its error, and both end every pause of
      the storage. That of a canceled one says so and leaves the pause as it was. A paused job's makes the sync
      wait for the next opening of its window, else for the next run of its schedule, else for the user. */
  lemma ReportedFields(w: World, k: nat, now: int, next: Option<int>, i: nat)
    requires i < |w.storages| && UniqueIds(w.storages) && k < |w.jobs| && w.jobs[k].phase.Ended?
    requires w.jobs[k].storage == w.storages[i].id
    ensures var s, t := w.storages[i], ReportStep(w, k, now, next).storages[i];
      && t.id == s.id && t.rsync == s.rsync
      && match w.jobs[k].phase.outcome {
           case Done => t.status == "ok" && t.error == "" && !t.paused && t.reason == "" && t.resumeAt == None
           case Failed(error) =>
             t.status == "error" && t.error == error && !t.paused && t.reason == "" && t.resumeAt == None
           case Canceled =>
             && t.status == "error" && t.error == "canceled by user"
             && t.paused == s.paused && t.reason == s.reason && t.resumeAt == s.resumeAt
           case Paused(who) =>
             && t.status == "paused" && t.error == "" && t.paused && t.reason == who
             && Resumption(s.rsync, now, w.offset, next, t.resumeAt)
         }
  {
    FindIsIt(w.storages, i, w.jobs[k].storage);
  }

  /** A sync that is not paused is started by a tick exactly if it is enabled, has a schedule that is due, and
      is inside its window; outside its window it is deferred. */
  lemma StartsBySchedule(s: Storage, c: Config, due: bool, now: int, offset: int)
    requires s.rsync == Some(c) && !s.paused
    ensures Starts(s, due, now, offset)
      <==> due && c.enabled && c.frequency !in {"", "manual"} && InWindow(c.window, now, offset)
    ensures var t := Collected(s, due, now, offset);
      if due && c.enabled && c.frequency !in {"", "manual"} && !InWindow(c.window, now, offset) then
        && t.paused && t.reason == "window" && t.resumeAt == Some(NextStart(c.window.value, now, offset))
        && t.status == "paused" && t.error == "" && t.id == s.id && t.rsync == s.rsync
      else t == s
  {}

  /** A sync that is paused is started by a tick exactly if its time has come, or if it is due inside its window
      all the same; and no tick changes it. */
  lemma StartsFromPause(s: Storage, c: Config, due: bool, now: int, offset: int)
    requires s.rsync == Some(c) && s.paused
    ensures Starts(s, due, now, offset) <==>
      || (s.resumeAt.Some? && s.resumeAt.value <= now)
      || (due && c.enabled && c.frequency !in {"", "manual"} && InWindow(c.window, now, offset))
    ensures Collected(s, due, now, offset) == s
  {}

  /** A storage in the start list gets a job unless one of it is running or the start fails. */
  lemma StartLaunches(w: World, error: Option<string>, id: Id)
    requires w.pending != [] && w.pending[0].id == id
    ensures var v := StartStep(w, error);
      && v.pending == w.pending[1..]
      && (error == None && (forall j | j in w.jobs && j.storage == id :: j.phase != Running) ==>
            v.jobs == w.jobs + [Job(id, Running)] && v.owed[id] == w.owed[id] + 1 && v.storages == w.storages)
      && ((exists j :: j in w.jobs && j.storage == id && j.phase == Running) ==>
            v == w.(pending := w.pending[1..]))
      && (error.Some? ==> v.jobs == w.jobs && v.owed == w.owed)
  {
    if j :| j in w.jobs && j.storage == id && j.phase == Running {
      var k :| 0 <= k < |w.jobs| && w.jobs[k] == j;
      assert w.jobs[k] == Job(id, Running);
    }
  }

  /** A user's run is refused for a sync that is not configured, not mounted or running, and else starts a job. */
  lemma RunLaunches(w: World, i: nat, mounted: bool)
    requires i < |w.storages| && UniqueIds(w.storages)
    ensures var id := w.storages[i].id;
      var v := RunStep(w, id, mounted);
      if mounted && w.storages[i].rsync.Some? && (forall j | j in w.jobs && j.storage == id :: j.phase != Running)
        then v.jobs == w.jobs + [Job(id, Running)] && v.owed[id] == w.owed[id] + 1 && v.storages == w.storages
        else v == w
  {
    FindIsIt(w.storages, i, w.storages[i].id);
    if j :| j in w.jobs && j.storage == w.storages[i].id && j.phase == Running {
      var k :| 0 <= k < |w.jobs| && w.jobs[k] == j;
      assert w.jobs[k] == Job(w.storages[i].id, Running);
    }
  }

  /** A running job ends once, with one outcome, and reports it once; no other job and no storage changes when it
      ends, and no other job when it reports. */
  lemma JobEndsAndReportsOnce(w: World, k: nat, outcome: Outcome, now: int, next: Option<int>)
    requires k < |w.jobs|
    ensures w.jobs[k].phase == Running ==>
      && EndStep(w, k, outcome).jobs[k] == Job(w.jobs[k].storage, Ended(outcome))
      && EndStep(w, k, outcome).storages == w.storages && !Enabled(EndStep(w, k, outcome), End(k, outcome))
      && Enabled(EndStep(w, k, outcome), Report(k, now, next))
    ensures w.jobs[k].phase != Running ==> EndStep(w, k, outcome) == w
    ensures w.jobs[k].phase.Ended? ==>
      && ReportStep(w, k, now, next).jobs[k] == Job(w.jobs[k].storage, Reported)
      && !Enabled(ReportStep(w, k, now, next), Report(k, now, next))
      && |ReportStep(w, k, now, next).jobs| == |w.jobs|
    ensures forall j | 0 <= j < |w.jobs| && j != k ::
      && EndStep(w, k, outcome).jobs[j] == w.jobs[j]
      && (w.jobs[k].phase.Ended? ==> ReportStep(w, k, now, next).jobs[j] == w.jobs[j])
  {}

  /** When each event can happen. */
  lemma EnabledWhen(w: World, now: int, due: seq<bool>, id: Id, k: nat, outcome: Outcome, next: Option<int>)
    ensures Enabled(w, Enforce(now)) && Enabled(w, Run(id, true)) && Enabled(w, Set(id, None, now))
    ensures Enabled(w, Collect(now, due)) <==> |due| == |w.storages|
    ensures Enabled(w, Start(None)) <==> |w.pending| > 0
    ensures Enabled(w, Clear(id)) <==> w.owed[id] > 0
    ensures Enabled(w, End(k, outcome)) <==> k < |w.jobs| && w.jobs[k].phase == Running
    ensures Enabled(w, Report(k, now, next)) <==> k < |w.jobs| && w.jobs[k].phase.Ended?
  {}

  /** Without a configuration nothing starts or defers a sync. */
  lemma NothingStartsUnconfigured(s: Storage, due: bool, now: int, offset: int)
    requires s.rsync.None?
    ensures !Starts(s, due, now, offset) && Collected(s, due, now, offset) == s
  {}
}
