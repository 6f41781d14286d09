/** Pool health and data-error notices (handlers/alerts.go). A look at a pool is atomic; looks by
    the poller, which notify, and by other callers, which only log, come in any order. */
module HealthAlerts {
  import opened Options
  import opened EdgeLog

  const BAD_HEALTH: set<string> := {"DEGRADED", "FAULTED", "SUSPENDED", "UNAVAIL", "REMOVED"}

  predicate Bad(health: string) {
    health in BAD_HEALTH
  }

  datatype Look = Look(pool: string, health: string, poll: bool)

  datatype Audit = Problem(health: string) | Recovered(health: string)

  function Lookup<V>(m: map<string, V>, k: string): Option<V> {
    if k in m then Some(m[k]) else None
  }

  // ---- what the history of looks says ----

  function LastSeen(history: seq<Look>, pool: string): Option<string> {
    if history == [] then None
    else
      var last := history[|history| - 1];
      if last.pool == pool then Some(last.health) else LastSeen(history[..|history| - 1], pool)
  }

  /** The health the last notice was about, if no look since has found the pool well. */
  function LastNotified(history: seq<Look>, pool: string): Option<string> {
    if history == [] then None
    else
      var last := history[|history| - 1];
      if last.pool != pool then LastNotified(history[..|history| - 1], pool)
      else if !Bad(last.health) then None
      else if last.poll then Some(last.health)
      else LastNotified(history[..|history| - 1], pool)
  }

  /** The k-th look sends a notice. */
  predicate Notifies(history: seq<Look>, k: nat)
    requires k < |history|
  {
    history[k].poll && Bad(history[k].health) && LastNotified(history[..k], history[k].pool) != Some(history[k].health)
  }

  /** From the j-th look on, the pool has been bad in every look and of this health in every poll. */
  ghost predicate SameSince(history: seq<Look>, j: nat, k: nat, pool: string, health: string)
    requires k <= |history|
  {
    && j < k && history[j] == Look(pool, health, true)
    && forall m | j < m < k && history[m].pool == pool ::
      Bad(history[m].health) && (history[m].poll ==> history[m].health == health)
  }

  ghost predicate AlreadyTold(history: seq<Look>, k: nat, pool: string, health: string)
    requires k <= |history|
  {
    exists j: nat :: SameSince(history, j, k, pool, health)
  }

  lemma {:induction false} ToldIsNotified(history: seq<Look>, k: nat, pool: string, health: string)
    requires k <= |history| && Bad(health)
    ensures AlreadyTold(history, k, pool, health) <==> LastNotified(history[..k], pool) == Some(health)
    decreases k
  {
    if k > 0 {
      ToldIsNotified(history, k - 1, pool, health);
      assert history[..k][..k - 1] == history[..k - 1];
      var last := history[k - 1];
      assert history[..k][k - 1] == last;
      if last == Look(pool, health, true) {
        assert SameSince(history, k - 1, k, pool, health);
      } else if last.pool != pool || (Bad(last.health) && !last.poll) {
        KeepsTold(history, k, pool, health);
      }
    }
  }

  lemma KeepsTold(history: seq<Look>, k: nat, pool: string, health: string)
    requires 0 < k <= |history|
    requires history[k - 1].pool != pool || (Bad(history[k - 1].health) && !history[k - 1].poll)
    ensures AlreadyTold(history, k, pool, health) <==> AlreadyTold(history, k - 1, pool, health)
  {
    if AlreadyTold(history, k - 1, pool, health) {
      var j: nat :| SameSince(history, j, k - 1, pool, health);
      assert SameSince(history, j, k, pool, health);
    }
    if AlreadyTold(history, k, pool, health) {
      var j: nat :| SameSince(history, j, k, pool, health);
      assert SameSince(history, j, k - 1, pool, health);
    }
  }

  /** A look sends a notice exactly if it is a poll that finds a bad health, and no earlier poll found the
      same and the pool has been neither well nor polled with another health since: a stretch of one bad
      health notifies once, whoever else looks at the pool meanwhile. */
  lemma NotifiesOnce(history: seq<Look>, k: nat)
    requires k < |history|
    ensures Notifies(history, k) <==>
      && history[k].poll && history[k].health in {"DEGRADED", "FAULTED", "SUSPENDED", "UNAVAIL", "REMOVED"}
      && !AlreadyTold(history, k, history[k].pool, history[k].health)
  {
    if Bad(history[k].health) { ToldIsNotified(history, k, history[k].pool, history[k].health); }
  }

  // ---- the state the program keeps ----

  class HealthWatch {
    var states: map<string, string>
    var notified: map<string, string>
    var dataErrors: map<string, bool>
    ghost var history: seq<Look>
    ghost var dataLog: seq<Notice>

    /** The maps say what the history says. */
    ghost predicate Valid()
      reads this
    {
      && (forall p :: Lookup(states, p) == LastSeen(history, p))
      && (forall p :: Lookup(notified, p) == LastNotified(history, p))
    }

    ghost predicate DataValid()
      reads this
    {
      Alternates(dataLog) && forall p :: IsUp(dataLog, p) <==> HasErrors(dataErrors, p)
    }

    constructor ()
      ensures Valid() && DataValid() && history == [] && dataLog == []
    {
      states, notified, dataErrors := map[], map[], map[];
      history, dataLog := [], [];
    }

    /** LogPoolHealthEvents, for the health of the pool. */
    method LogHealth(pool: string, health: string) returns (audit: Option<Audit>)
      requires Valid()
      modifies this`states, this`notified, this`history
      ensures Valid() && history == old(history) + [Look(pool, health, false)]
      ensures audit == Some(Problem(health)) <==> Bad(health) && LastSeen(old(history), pool) != Some(health)
      ensures audit == Some(Problem(health)) ==> health in {"DEGRADED", "FAULTED", "SUSPENDED", "UNAVAIL", "REMOVED"}
      ensures audit == None && health in {"DEGRADED", "FAULTED", "SUSPENDED", "UNAVAIL", "REMOVED"} ==>
        LastSeen(old(history), pool) == Some(health)
      ensures audit == Some(Recovered(health))
        <==> !Bad(health) && exists h :: Bad(h) && LastSeen(old(history), pool) == Some(h)
    {
      ghost var before := history;
      var prev := Lookup(states, pool);
      var prevBad := prev.Some? && Bad(prev.value);
      audit := None;
      if Bad(health) && prev != Some(health) {
        audit := Some(Problem(health));
      } else if !Bad(health) && prevBad {
        audit := Some(Recovered(health));
        notified := notified - {pool};
      }
      states := states[pool := health];
      history := history + [Look(pool, health, false)];
      assert history[..|before|] == before;
      NotifiedWasBad(before, pool);
    }

    /** The pool-health part of runHealthCheck. */
    method PollHealth(pools: seq<(string, string)>) returns (notices: seq<Look>)
      requires Valid()
      modifies this`states, this`notified, this`history
      ensures Valid() && |history| == |old(history)| + |pools| && history[..|old(history)|] == old(history)
      ensures forall i | 0 <= i < |pools| :: history[|old(history)| + i] == Look(pools[i].0, pools[i].1, true)
      ensures notices == Sent(history, |old(history)|)
    {
      ghost var first := history;
      notices := [];
      for i := 0 to |pools|
        invariant Valid() && |history| == |first| + i && history[..|first|] == first
        invariant forall k | 0 <= k < i :: history[|first| + k] == Look(pools[k].0, pools[k].1, true)
        invariant notices == Sent(history, |first|)
      {
        var (pool, health) := pools[i];
        ghost var before := history;
        var tells := PollOne(pool, health);
        if tells {
          notices := notices + [Look(pool, health, true)];
        }
        assert history[..|before|] == before;
      }
    }

    /** One pool of such a poll. */
    method PollOne(pool: string, health: string) returns (tells: bool)
      requires Valid()
      modifies this`states, this`notified, this`history
      ensures Valid() && history == old(history) + [Look(pool, health, true)]
      ensures tells <==> Notifies(history, |old(history)|)
    {
      ghost var before := history;
      var prevNotified := Lookup(notified, pool);
      var audit := LogHealth(pool, health);
      tells := Bad(health) && prevNotified != Some(health);
      if tells {
        notified := notified[pool := health];
      }
      history := before + [Look(pool, health, true)];
      forall p ensures Lookup(states, p) == LastSeen(history, p) && Lookup(notified, p) == LastNotified(history, p) {
        Looked(before, Look(pool, health, false), p);
        Looked(before, Look(pool, health, true), p);
      }
      assert history[..|before|] == before;
    }

    /** The data-error part of runHealthCheck, when a target subscribes to it. */
    method PollDataErrors(subscribed: bool, pools: seq<(string, bool)>) returns (notices: seq<Notice>)
      requires DataValid()
      modifies this`dataErrors, this`dataLog
      ensures DataValid() && dataLog == old(dataLog) + notices
      ensures !subscribed ==> notices == [] && dataErrors == old(dataErrors)
      ensures subscribed ==>
        notices == DataNotices(old(dataErrors), pools) && dataErrors == Flags(old(dataErrors), pools)
    {
      notices := [];
      if !subscribed {
        return;
      }
      ghost var done: seq<(string, bool)> := [];
      for i := 0 to |pools|
        invariant DataValid() && dataLog == old(dataLog) + notices && done == pools[..i]
        invariant notices == DataNotices(old(dataErrors), done) && dataErrors == Flags(old(dataErrors), done)
      {
        var notice := SeeDataErrors(pools[i].0, pools[i].1);
        OneMorePool(old(dataErrors), done, pools[i]);
        Assoc(old(dataLog), notices, notice);
        assert pools[..i + 1] == done + [pools[i]];
        done := done + [pools[i]];
        notices := notices + notice;
      }
      assert pools[..|pools|] == pools;
    }

    /** One pool of such a poll. */
    method SeeDataErrors(pool: string, errors: bool) returns (notice: seq<Notice>)
      requires DataValid()
      modifies this`dataErrors, this`dataLog
      ensures DataValid() && dataLog == old(dataLog) + notice
      ensures dataErrors == old(dataErrors)[pool := errors]
      ensures var had := pool in old(dataErrors) && old(dataErrors)[pool];
        notice == if errors && !had then [Raised(pool)] else if had && !errors then [Lowered(pool)] else []
    {
      var prev := HasErrors(dataErrors, pool);
      dataErrors := dataErrors[pool := errors];
      notice := [];
      if errors && !prev {
        notice := [Raised(pool)];
        Tell(Raised(pool));
      } else if !errors && prev {
        notice := [Lowered(pool)];
        Tell(Lowered(pool));
      }
    }

    ghost method Tell(n: Notice)
      requires Alternates(dataLog) && !n.Forgotten? && (n.Raised? <==> !IsUp(dataLog, n.id))
      modifies this`dataLog
      ensures dataLog == old(dataLog) + [n] && Alternates(dataLog)
      ensures forall p :: IsUp(dataLog, p) == if p == n.id then n.Raised? else IsUp(old(dataLog), p)
    {
      AppendAlternates(dataLog, n);
      forall p ensures IsUp(dataLog + [n], p) == if p == n.id then n.Raised?
        else IsUp(dataLog, p) { Append(dataLog, n, p); }
      dataLog := dataLog + [n];
    }
  }

  /** The pool was seen and had errors. */
  predicate HasErrors(flags: map<string, bool>, pool: string) {
    pool in flags && flags[pool]
  }

  /** The flags after each pool of a poll has been looked at in turn. */
  function Flags(before: map<string, bool>, pools: seq<(string, bool)>): map<string, bool> {
    if pools == [] then before
    else
      var n := |pools| - 1;
      Flags(before, pools[..n])[pools[n].0 := pools[n].1]
  }

  /** A notice where the flag of a pool changes, an unknown pool counting as one without errors. */
  function DataNotices(before: map<string, bool>, pools: seq<(string, bool)>): seq<Notice> {
    if pools == [] then []
    else
      var n := |pools| - 1;
      var was := HasErrors(Flags(before, pools[..n]), pools[n].0);
      DataNotices(before, pools[..n]) + Edge(was, pools[n].1, pools[n].0)
  }

  lemma OneMorePool(before: map<string, bool>, done: seq<(string, bool)>, p: (string, bool))
    ensures Flags(before, done + [p]) == Flags(before, done)[p.0 := p.1]
    ensures DataNotices(before, done + [p]) == DataNotices(before, done) + Edge(HasErrors(Flags(before, done), p.0),
      p.1, p.0)
  {}

  lemma Assoc(a: seq<Notice>, b: seq<Notice>, c: seq<Notice>)
    ensures a + (b + c) == (a + b) + c
  {}

  function Edge(was: bool, now: bool, id: string): seq<Notice> {
    if now == was then [] else if now then [Raised(id)] else [Lowered(id)]
  }

  /** The looks from the n-th on that send a notice. */
  function Sent(history: seq<Look>, n: nat): seq<Look>
    requires n <= |history|
    decreases |history|
  {
    if n == |history| then []
    else
      var k := |history| - 1;
      Sent(history[..k], n) + if Notifies(history, k) then [history[k]] else []
  }

  ghost function Telling(history: seq<Look>, n: nat): set<nat> {
    set k: nat | n <= k < |history| && Notifies(history, k)
  }

  lemma NotifiesInFront(history: seq<Look>, m: nat, k: nat)
    requires k < m <= |history|
    ensures Notifies(history[..m], k) <==> Notifies(history, k)
  {
    assert history[..m][..k] == history[..k];
  }

  lemma OneMoreTells(history: seq<Look>, n: nat)
    requires n < |history|
    ensures var last := |history| - 1;
      Telling(history, n) == Telling(history[..last], n) + if Notifies(history, last) then {last} else {}
  {
    var last := |history| - 1;
    forall k: nat | n <= k < last { NotifiesInFront(history, last, k); }
  }

  ghost predicate IsTold(history: seq<Look>, telling: set<nat>, look: Look) {
    exists k :: k in telling && k < |history| && history[k] == look
  }

  lemma OneMoreIsTold(history: seq<Look>, n: nat, look: Look)
    requires n < |history|
    ensures var last := |history| - 1;
      IsTold(history, Telling(history, n), look) <==>
        IsTold(history[..last], Telling(history[..last], n), look) || (Notifies(history, last) && history[last] == look)
  {
    var last := |history| - 1;
    OneMoreTells(history, n);
    if IsTold(history[..last], Telling(history[..last], n), look) {
      var k :| k in Telling(history[..last], n) && k < last && history[..last][k] == look;
      assert k in Telling(history, n) && history[k] == look;
    }
  }

  /** They are all of them, and each once. */
  lemma {:induction false} SentExactly(history: seq<Look>, n: nat)
    requires n <= |history|
    ensures forall look :: look in Sent(history, n) <==> IsTold(history, Telling(history, n), look)
    ensures |Sent(history, n)| == |Telling(history, n)|
    decreases |history|
  {
    if n < |history| {
      var last := |history| - 1;
      SentExactly(history[..last], n);
      OneMoreTells(history, n);
      forall look ensures look in Sent(history, n) <==> IsTold(history, Telling(history, n), look) {
        OneMoreIsTold(history, n, look);
      }
    }
  }

  lemma {:induction false} NotifiedWasBad(history: seq<Look>, pool: string)
    ensures LastNotified(history, pool).Some? ==> LastSeen(history, pool).Some? && Bad(LastSeen(history, pool).value)
    decreases |history|
  {
    if history != [] { NotifiedWasBad(history[..|history| - 1], pool); }
  }

  lemma Looked(before: seq<Look>, look: Look, p: string)
    ensures LastSeen(before + [look], p) == if p == look.pool then Some(look.health) else LastSeen(before, p)
    ensures LastNotified(before + [look], p) ==
      if p != look.pool then LastNotified(before, p)
      else if !Bad(look.health) then None
      else if look.poll then Some(look.health)
      else LastNotified(before, p)
  {}
}
