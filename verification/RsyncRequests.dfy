/** What a user's request makes of a sync: an edit or a removal of its configuration, a manual run. */
module RsyncRequests {
  import opened Options
  import opened RsyncWindow
  import opened RsyncScheduler
  import opened RsyncDeferral

  /** Only the storage at `i` differs. */
  ghost predicate OnlyStorage(w: World, w': World, i: nat) {
    && |w'.storages| == |w.storages| && w'.jobs == w.jobs && w'.pending == w.pending && w'.owed == w.owed
    && w'.offset == w.offset
    && forall k | 0 <= k < |w.storages| && k != i :: w'.storages[k] == w.storages[k]
  }

  ghost predicate WaitsForWindow(s: Storage) {
    s.paused && s.reason == "window"
  }

  // ---- editing ----

  /** A sync that waits for its window and gets another one waits for the next opening of the new one,
      later than now and at most a day away, even if the new window is open now. */
  lemma EditMovesWait(w: World, i: nat, c: Config, now: int)
    requires i < |w.storages| && UniqueIds(w.storages) && WaitsForWindow(w.storages[i]) && c.window.Some?
    ensures var w' := SetStep(w, w.storages[i].id, Some(c), now);
      var at := NextStart(c.window.value, now, w.offset);
      && OnlyStorage(w, w', i) && w'.storages[i].rsync == Some(c) && WaitsForWindow(w'.storages[i])
      && w'.storages[i].resumeAt == Some(at) && now < at <= now + DAY
      && (forall m | m < at :: !Resumes(w'.storages[i], m))
      && (forall m | at <= m < at + MINUTE :: InWindow(c.window, m, w.offset))
  {
    FindUnique(w.storages, i);
    NextStartIsLater(c.window.value, now, w.offset);
  }

  /** Outside the new window it is deferred anew, with all that follows from a deferral. */
  lemma EditDefersAnew(w: World, i: nat, c: Config, now: int, since: int, was: int)
    requires Deferred(w, i, since, was) && w.storages[i].reason == "window" && c.window.Some?
      && !InWindow(c.window, now, w.offset)
    ensures Deferred(SetStep(w, w.storages[i].id, Some(c), now), i, now, NextStart(c.window.value, now, w.offset))
  {
    FindUnique(w.storages, i);
  }

  /** Without a window it waits no more: it is not paused, and its schedule alone starts it. */
  lemma EditEndsWait(w: World, i: nat, c: Config, now: int, due: bool, m: int)
    requires i < |w.storages| && UniqueIds(w.storages) && WaitsForWindow(w.storages[i]) && c.window.None?
    ensures var w' := SetStep(w, w.storages[i].id, Some(c), now);
      && OnlyStorage(w, w', i) && w'.storages[i].rsync == Some(c)
      && !w'.storages[i].paused && w'.storages[i].resumeAt == None && w'.storages[i].status != "paused"
      && (Starts(w'.storages[i], due, m, w.offset) <==> Scheduled(c) && due)
  {
    FindUnique(w.storages, i);
  }

  /** A pause that was not for the window, or none, stays as it is. */
  lemma EditKeepsPause(w: World, i: nat, c: Config, now: int)
    requires i < |w.storages| && UniqueIds(w.storages) && !WaitsForWindow(w.storages[i])
    ensures var w' := SetStep(w, w.storages[i].id, Some(c), now);
      OnlyStorage(w, w', i) && w'.storages[i] == w.storages[i].(rsync := Some(c))
  {
    FindUnique(w.storages, i);
  }

  /** A removed sync is not paused and is never started by a tick. */
  lemma RemovalForgets(w: World, i: nat, now: int, due: bool, m: int)
    requires i < |w.storages| && UniqueIds(w.storages)
    ensures var w' := SetStep(w, w.storages[i].id, None, now);
      && OnlyStorage(w, w', i) && !w'.storages[i].paused && w'.storages[i].status != "paused"
      && !Starts(w'.storages[i], due, m, w.offset) && Collected(w'.storages[i], due, m, w.offset) == w'.storages[i]
  {
    FindUnique(w.storages, i);
  }

  // ---- running ----

  ghost predicate CanRun(w: World, i: nat, mounted: bool)
    requires i < |w.storages|
  {
    w.storages[i].rsync.Some? && !Active(w.jobs, w.storages[i].id) && mounted
  }

  /** A manual run starts one job and then clears the pause, or is refused and changes nothing; while the
      job runs another run is refused. */
  lemma ManualRun(w: World, i: nat, mounted: bool, again: bool)
    requires i < |w.storages| && UniqueIds(w.storages)
    ensures var id := w.storages[i].id;
      var u := RunStep(w, id, mounted);
      var v := ClearStep(u, id);
      && (!CanRun(w, i, mounted) ==> u == w)
      && (CanRun(w, i, mounted) ==>
            && u.jobs == w.jobs + [Job(id, Running)] && u.storages == w.storages && u.pending == w.pending
            && Enabled(u, Clear(id)) && v.owed == w.owed && v.jobs == u.jobs
            && OnlyStorage(w.(jobs := v.jobs), v, i)
            && v.storages[i] == (if w.storages[i].paused then Unpaused(w.storages[i]) else w.storages[i])
            && RunStep(u, id, again) == u && RunStep(v, id, again) == v)
  {
    FindUnique(w.storages, i);
    var u := RunStep(w, w.storages[i].id, mounted);
    if CanRun(w, i, mounted) {
      assert u.jobs[|w.jobs|] == Job(w.storages[i].id, Running);
      assert Active(u.jobs, w.storages[i].id);
    }
  }

  /** A manual run outside the window goes on until the next tick there. Its report then makes the sync wait
      for the next opening if the run has cleared the old pause by then; a run that clears it only after the
      report drops the new one, and nothing but the schedule starts the sync. */
  lemma RunOutsideWindowIsPaused(w: World, i: nat, now: int, m: int, next: Option<int>, due: bool, t: int)
    requires i < |w.storages| && UniqueIds(w.storages) && CanRun(w, i, true)
    requires OutsideWindow(w.storages[i], now, w.offset) && OutsideWindow(w.storages[i], m, w.offset)
    ensures var id, k := w.storages[i].id, |w.jobs|;
      var v := EnforceStep(RunStep(w, id, true), now);
      && k < |v.jobs| && v.jobs[k] == Job(id, Ended(Paused("window")))
      && Waits(ReportStep(ClearStep(v, id), k, m, next).storages[i], m,
        NextStart(w.storages[i].rsync.value.window.value, m, w.offset), w.offset)
      && var late := ClearStep(ReportStep(v, k, m, next), id).storages[i];
         !late.paused && (Starts(late, due, t, w.offset)
           <==> Scheduled(w.storages[i].rsync.value) && due && !OutsideWindow(w.storages[i], t, w.offset))
  {
    var id := w.storages[i].id;
    FindUnique(w.storages, i);
    var u := RunStep(w, id, true);
    assert u.jobs[|w.jobs|] == Job(id, Running);
    var v := EnforceStep(u, now);
    assert UniqueIds(ClearStep(v, id).storages) && ClearStep(v, id).storages[i].id == id;
    FindUnique(ClearStep(v, id).storages, i);
    var r := ReportStep(v, |w.jobs|, m, next);
    assert UniqueIds(r.storages) && r.storages[i].id == id;
    FindUnique(r.storages, i);
  }
}
