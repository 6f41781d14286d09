/** Scheduled starts that fall outside the window: deferred, honoured, or dropped by a late report. */
module RsyncDeferral {
  import opened Options
  import opened RsyncWindow
  import opened RsyncScheduler

  lemma {:induction false} InStartList(storages: seq<Storage>, due: seq<bool>, now: int, offset: int, s: Storage)
    requires |due| == |storages|
    ensures s in StartList(storages, due, now, offset) <==>
      exists i :: 0 <= i < |storages| && storages[i] == s && Starts(storages[i], due[i], now, offset)
    decreases |storages|
  {
    if storages != [] {
      var n := |storages| - 1;
      InStartList(storages[..n], due[..n], now, offset, s);
      var front := storages[..n];
      assert forall i | 0 <= i < n :: front[i] == storages[i] && due[..n][i] == due[i];
      assert s in StartList(front, due[..n], now, offset)
        <==> exists i :: 0 <= i < n && storages[i] == s && Starts(front[i], due[..n][i], now, offset);
      assert s in StartList(storages, due, now, offset)
        <==> (s in StartList(front, due[..n], now, offset)
              || (s == storages[n] && Starts(storages[n], due[n], now, offset)));
    }
  }

  ghost predicate UniqueIds(storages: seq<Storage>) {
    forall i, j | 0 <= i < j < |storages| :: storages[i].id != storages[j].id
  }

  /** The storage at `i` waits for `at`, the next opening of its window from `since` on. */
  ghost predicate Waits(s: Storage, since: int, at: int, offset: int) {
    s.paused && s.resumeAt == Some(at) && OutsideWindow(s, since, offset)
    && NextStart(s.rsync.value.window.value, since, offset) == at
  }

  /** The storage at `i` waits; no job of it runs and it is not about to be started. Jobs that have
      ended may still have to report. */
  ghost predicate Deferred(w: World, i: nat, since: int, at: int) {
    && i < |w.storages| && UniqueIds(w.storages)
    && Waits(w.storages[i], since, at, w.offset)
    && (forall j | j in w.jobs && j.storage == w.storages[i].id :: !j.phase.Running?)
    && (forall s | s in w.pending :: s.id != w.storages[i].id)
  }

  predicate Before(e: Event, since: int, at: int) {
    match e
    case Enforce(now) => since <= now < at
    case Collect(now, _) => since <= now < at
    case Report(_, now, _) => since <= now < at
    case _ => true
  }

  /** The user neither runs, edits nor removes the sync. */
  predicate LeavesAlone(e: Event, id: Id) {
    match e
    case Run(other, _) => other != id
    case Set(other, _, _) => other != id
    case _ => true
  }

  lemma FindUnique(storages: seq<Storage>, i: nat)
    requires i < |storages| && UniqueIds(storages)
    ensures Find(storages, storages[i].id) == i
  {}

  lemma StillWaits(s: Storage, since: int, at: int, offset: int, now: int)
    requires Waits(s, since, at, offset) && since <= now < at
    ensures OutsideWindow(s, now, offset) && NextStart(s.rsync.value.window.value, now, offset) == at
  {
    NextStartOpens(s.rsync.value.window.value, since, offset);
  }

  lemma CollectKeepsDeferral(w: World, now: int, due: seq<bool>, i: nat, since: int, at: int)
    requires Deferred(w, i, since, at) && |due| == |w.storages| && since <= now < at
    ensures Deferred(CollectStep(w, now, due), i, since, at)
      && CollectStep(w, now, due).storages[i].id == w.storages[i].id
  {
    var v := CollectStep(w, now, due);
    StillWaits(w.storages[i], since, at, w.offset, now);
    assert v.storages[i] == w.storages[i];
    forall s | s in v.pending ensures s.id != w.storages[i].id {
      InStartList(w.storages, due, now, w.offset, s);
      var k :| 0 <= k < |w.storages| && w.storages[k] == s && Starts(w.storages[k], due[k], now, w.offset);
      assert k != i;
    }
    assert forall k | 0 <= k < |w.storages| :: v.storages[k].id == w.storages[k].id;
  }

  predicate EndedByItself(j: Job) {
    j.phase.Ended? && (j.phase.outcome.Done? || j.phase.outcome.Failed?)
  }

  /** The report of a job of the storage that ended by itself, done or failed, or the second half of an
      earlier start of it. */
  predicate Drops(w: World, e: Event, id: Id)
    requires Enabled(w, e)
  {
    match e
    case Report(k, _, _) => w.jobs[k].storage == id && EndedByItself(w.jobs[k])
    case Clear(other) => other == id
    case _ => false
  }

  lemma ReportKeepsDeferral(w: World, k: nat, now: int, next: Option<int>, i: nat, since: int, at: int)
    requires Deferred(w, i, since, at) && k < |w.jobs| && w.jobs[k].phase.Ended? && since <= now < at
    requires !Drops(w, Report(k, now, next), w.storages[i].id)
    ensures Deferred(ReportStep(w, k, now, next), i, since, at)
      && ReportStep(w, k, now, next).storages[i].id == w.storages[i].id
  {
    StillWaits(w.storages[i], since, at, w.offset, now);
    FindUnique(w.storages, i);
    assert w.jobs[k] in w.jobs;
  }

  lemma EnforceKeepsDeferral(w: World, now: int, i: nat, since: int, at: int)
    requires Deferred(w, i, since, at)
    ensures Deferred(EnforceStep(w, now), i, since, at)
  {}

  lemma StartKeepsDeferral(w: World, error: Option<string>, i: nat, since: int, at: int)
    requires Deferred(w, i, since, at) && w.pending != []
    ensures Deferred(StartStep(w, error), i, since, at) && StartStep(w, error).storages[i].id == w.storages[i].id
  {}

  lemma ClearKeepsDeferral(w: World, id: Id, i: nat, since: int, at: int)
    requires Deferred(w, i, since, at) && id != w.storages[i].id
    ensures Deferred(ClearStep(w, id), i, since, at) && ClearStep(w, id).storages[i].id == w.storages[i].id
  {}

  lemma RunKeepsDeferral(w: World, id: Id, mounted: bool, i: nat, since: int, at: int)
    requires Deferred(w, i, since, at) && id != w.storages[i].id
    ensures Deferred(RunStep(w, id, mounted), i, since, at)
      && RunStep(w, id, mounted).storages[i].id == w.storages[i].id
  {}

  lemma SetKeepsDeferral(w: World, id: Id, config: Option<Config>, now: int, i: nat, since: int, at: int)
    requires Deferred(w, i, since, at) && id != w.storages[i].id
    ensures Deferred(SetStep(w, id, config, now), i, since, at)
      && SetStep(w, id, config, now).storages[i].id == w.storages[i].id
  {}

  lemma EndKeepsDeferral(w: World, k: nat, outcome: Outcome, i: nat, since: int, at: int)
    requires Deferred(w, i, since, at) && k < |w.jobs| && w.jobs[k].phase.Running?
    ensures Deferred(EndStep(w, k, outcome), i, since, at)
  {}

  lemma StepKeepsDeferral(w: World, e: Event, i: nat, since: int, at: int)
    requires Deferred(w, i, since, at) && Enabled(w, e) && Before(e, since, at) && LeavesAlone(e, w.storages[i].id)
    requires !Drops(w, e, w.storages[i].id)
    ensures Deferred(Step(w, e), i, since, at)
    ensures Step(w, e).storages[i].id == w.storages[i].id
  {
    match e
    case Enforce(now) => EnforceKeepsDeferral(w, now, i, since, at);
    case Collect(now, due) => CollectKeepsDeferral(w, now, due, i, since, at);
    case Start(error) => StartKeepsDeferral(w, error, i, since, at);
    case Clear(id) => ClearKeepsDeferral(w, id, i, since, at);
    case End(k, outcome) => EndKeepsDeferral(w, k, outcome, i, since, at);
    case Report(k, now, next) => ReportKeepsDeferral(w, k, now, next, i, since, at);
    case Run(id, mounted) => RunKeepsDeferral(w, id, mounted, i, since, at);
    case Set(id, config, now) => SetKeepsDeferral(w, id, config, now, i, since, at);
  }

  ghost predicate Possible(w: World, events: seq<Event>)
    decreases |events|
  {
    events == [] || (Enabled(w, events[0]) && Possible(Step(w, events[0]), events[1..]))
  }

  ghost function Runs(w: World, events: seq<Event>): World
    requires Possible(w, events)
    decreases |events|
  {
    if events == [] then w else Runs(Step(w, events[0]), events[1..])
  }

  ghost predicate RunDrops(w: World, events: seq<Event>, id: Id)
    requires Possible(w, events)
    decreases |events|
  {
    events != [] && (Drops(w, events[0], id) || RunDrops(Step(w, events[0]), events[1..], id))
  }

  /** The storage waits in every state of the run. */
  ghost predicate AlwaysWaits(w: World, events: seq<Event>, i: nat, since: int, at: int)
    requires Possible(w, events)
    decreases |events|
  {
    && i < |w.storages| && Waits(w.storages[i], since, at, w.offset)
    && (events != [] ==> AlwaysWaits(Step(w, events[0]), events[1..], i, since, at))
  }

  lemma DropEndsWait(w: World, e: Event, i: nat, since: int, at: int)
    requires Deferred(w, i, since, at) && Enabled(w, e) && Drops(w, e, w.storages[i].id)
    ensures i < |Step(w, e).storages| && !Step(w, e).storages[i].paused
  {
    FindUnique(w.storages, i);
  }

  /** Until the window opens, a deferral survives a run of ticks, starts, ends, reports and requests
      about other storages if and only if in it no job of the storage that ended by itself reports and
      nobody clears the pause of the storage for a job started earlier. */
  lemma {:induction false} DeferralSurvivesIff(w: World, events: seq<Event>, i: nat, since: int, at: int)
    requires Deferred(w, i, since, at) && Possible(w, events)
    requires forall e | e in events :: Before(e, since, at) && LeavesAlone(e, w.storages[i].id)
    ensures AlwaysWaits(w, events, i, since, at) <==> !RunDrops(w, events, w.storages[i].id)
    decreases |events|
  {
    if events != [] {
      if Drops(w, events[0], w.storages[i].id) {
        DropEndsWait(w, events[0], i, since, at);
      } else {
        StepKeepsDeferral(w, events[0], i, since, at);
        DeferralSurvivesIff(Step(w, events[0]), events[1..], i, since, at);
      }
    }
  }

  /** A job of the storage has ended by itself and will report so, or the pause is still to be cleared. */
  ghost predicate WillDrop(w: World, id: Id) {
    id in w.owed || exists j :: j in w.jobs && j.storage == id && EndedByItself(j)
  }

  lemma StillWontDrop(w: World, e: Event, i: nat, since: int, at: int)
    requires Deferred(w, i, since, at) && Enabled(w, e) && LeavesAlone(e, w.storages[i].id)
      && !WillDrop(w, w.storages[i].id)
    ensures !Drops(w, e, w.storages[i].id) && !WillDrop(Step(w, e), w.storages[i].id)
  {}

  /** If when the wait begins no job of it has ended by itself without having reported, and no start of it
      has still to clear the pause, nothing drops it. */
  lemma {:induction false} NothingDrops(w: World, events: seq<Event>, i: nat, since: int, at: int)
    requires Deferred(w, i, since, at) && Possible(w, events) && !WillDrop(w, w.storages[i].id)
    requires forall e | e in events :: Before(e, since, at) && LeavesAlone(e, w.storages[i].id)
    ensures !RunDrops(w, events, w.storages[i].id)
    decreases |events|
  {
    if events != [] {
      StillWontDrop(w, events[0], i, since, at);
      StepKeepsDeferral(w, events[0], i, since, at);
      NothingDrops(Step(w, events[0]), events[1..], i, since, at);
    }
  }

  /** Unless so dropped, a deferred sync is started by nothing before the window opens, and
      the first tick after that puts it in the start list. */
  lemma {:induction false} DeferralIsHonoured(
    w: World, events: seq<Event>, i: nat, since: int, at: int, now: int, due: seq<bool>)
    requires Deferred(w, i, since, at) && Possible(w, events)
    requires forall e | e in events :: Before(e, since, at) && LeavesAlone(e, w.storages[i].id)
    requires !RunDrops(w, events, w.storages[i].id)
    requires |due| == |Runs(w, events).storages| && now >= at
    ensures i < |Runs(w, events).storages| && Runs(w, events).storages[i].id == w.storages[i].id
    ensures Deferred(Runs(w, events), i, since, at)
    ensures Runs(w, events).storages[i] in CollectStep(Runs(w, events), now, due).pending
    ensures now < at + MINUTE ==> !OutsideWindow(Runs(w, events).storages[i], now, w.offset)
    decreases |events|
  {
    if events == [] {
      NextStartOpens(w.storages[i].rsync.value.window.value, since, w.offset);
      assert Starts(w.storages[i], due[i], now, w.offset);
      InStartList(w.storages, due, now, w.offset, w.storages[i]);
    } else {
      StepKeepsDeferral(w, events[0], i, since, at);
      assert Step(w, events[0]).offset == w.offset;
      DeferralIsHonoured(Step(w, events[0]), events[1..], i, since, at, now, due);
    }
  }

  /** A tick defers the fire of an unpaused storage outside its window to the next opening, at most
      a day away, whatever its jobs are doing. */
  lemma FireOutsideWindowIsDeferred(w: World, now: int, due: seq<bool>, i: nat)
    requires i < |w.storages| && |due| == |w.storages| && UniqueIds(w.storages)
    requires Defers(w.storages[i], due[i], now, w.offset)
    ensures var at := NextStart(w.storages[i].rsync.value.window.value, now, w.offset);
      now < at <= now + DAY && Deferred(CollectStep(EnforceStep(w, now), now, due), i, now, at)
  {
    var v := EnforceStep(w, now);
    var u := CollectStep(v, now, due);
    NextStartOpens(w.storages[i].rsync.value.window.value, now, w.offset);
    FindUnique(w.storages, i);
    forall j | j in u.jobs && j.storage == w.storages[i].id ensures !j.phase.Running? {
      var k :| 0 <= k < |w.jobs| && v.jobs[k] == j;
    }
    forall s | s in u.pending ensures s.id != w.storages[i].id {
      InStartList(w.storages, due, now, w.offset, s);
      var k :| 0 <= k < |w.storages| && w.storages[k] == s && Starts(w.storages[k], due[k], now, w.offset);
      assert k != i;
    }
    assert forall k | 0 <= k < |w.storages| :: u.storages[k].id == w.storages[k].id;
  }

  // ---- a fire that is lost ----

  const NIGHTLY := Storage(1, Some(Config(Some(Bounds(120, 180)), true, "daily")), false, "", None, "", "")
  const OPENING := 120 * MINUTE

  /** A tick at midnight defers a sync to two o'clock; a job of it that had just ended reports a minute
      later; and no tick starts the sync until its schedule fires again. */
  lemma FireIsLost(now: int)
    ensures var w := World([NIGHTLY], [Job(1, Ended(Done))], [], multiset{}, 0);
      var u := CollectStep(EnforceStep(w, 0), 0, [true]);
      var e := Report(0, MINUTE, None);
      && Deferred(u, 0, 0, OPENING) && Enabled(u, e) && Before(e, 0, OPENING) && LeavesAlone(e, 1) && Drops(u, e, 1)
      && |Step(u, e).storages| == 1 && CollectStep(Step(u, e), now, [false]).pending == []
  {
    var w := World([NIGHTLY], [Job(1, Ended(Done))], [], multiset{}, 0);
    var u := CollectStep(EnforceStep(w, 0), 0, [true]);
    FireOutsideWindowIsDeferred(w, 0, [true], 0);
    assert u.storages == [Collected(NIGHTLY, true, 0, 0)];
    assert EnforceStep(w, 0).jobs == [Job(1, Ended(Done))];
    var v := Step(u, Report(0, MINUTE, None));
    assert v.storages == [Unpaused(u.storages[0]).(status := "ok", error := "")];
    assert StartList(v.storages[..0], [false][..0], now, 0) == [];
  }
}
