/** The watch on linked servers (handlers/interlink_watcher.go): records that each check updates
    in place, forgotten when a server is unlinked. */
module PeerWatch {
  import opened EdgeLog

  class PeerState {
    var down: bool
    constructor ()
      ensures !down
    {
      down := false;
    }
  }

  class Watch {
    var state: map<string, PeerState>
    ghost var records: set<PeerState>
    ghost var log: seq<Notice>

    /** Every server has a record of its own. */
    ghost predicate Shape()
      reads this
    {
      && (forall id | id in state :: state[id] in records)
      && (forall a, b | a in state && b in state && a != b :: state[a] != state[b])
    }

    /** Records come only anew. */
    twostate predicate NewRecords(before: set<PeerState>)
      reads this
    {
      forall r | r in records :: r in before || fresh(r)
    }

    predicate Down(id: string)
      requires Shape()
      reads this, records
    {
      id in state && state[id].down
    }

    /** A server is marked down exactly if the last notice about it said so; a server without a
        record was never announced, or is forgotten. */
    ghost predicate Valid()
      reads this, records
    {
      Shape() && Alternates(log) && forall id :: Down(id) <==> IsUp(log, id)
    }

    constructor ()
      ensures Valid() && records == {} && log == [] && state == map[]
    {
      state, log, records := map[], [], {};
    }

    ghost method Tell(n: Notice)
      requires Alternates(log) && (n.Forgotten? || (n.Raised? <==> !IsUp(log, n.id)))
      modifies this`log
      ensures log == old(log) + [n] && Alternates(log)
      ensures forall id :: IsUp(log, id) == if id == n.id then n.Raised? else IsUp(old(log), id)
    {
      AppendAlternates(log, n);
      forall id ensures IsUp(log + [n], id) == if id == n.id then n.Raised? else IsUp(log, id) { Append(log, n, id); }
      log := log + [n];
    }

    method ForgetOne(id: string)
      requires Valid() && id in state
      modifies this`state, this`log
      ensures Valid() && log == old(log) + [Forgotten(id)]
      ensures forall other :: other in state <==> other in old(state) && other != id
    {
      state := state - {id};
      Tell(Forgotten(id));
    }

    /** Servers that are not linked any more are forgotten, without a notice. */
    method Forget(current: set<string>) returns (ghost gone: seq<Notice>)
      requires Valid()
      modifies this`state, this`log
      ensures Valid() && forall id :: id in state <==> id in old(state) && id in current
      ensures log == old(log) + gone && OnlyForgets(gone, current)
    {
      var todo := state.Keys - current;
      gone := [];
      while todo != {}
        invariant Valid() && forall id | id in todo :: id in state && id !in current
        invariant forall id :: id in state <==> id in old(state) && (id in current || id in todo)
        invariant log == old(log) + gone && OnlyForgets(gone, current)
        decreases |todo|
      {
        var id :| id in todo;
        ForgetOne(id);
        ForgetMore(gone, current, id);
        todo := todo - {id};
        gone := gone + [Forgotten(id)];
      }
    }

    /** The record of a server, made if there is none. */
    method Record(id: string) returns (st: PeerState)
      requires Valid()
      modifies this`state, this`records
      ensures Valid() && id in state && state[id] == st && st.down == IsUp(log, id)
      ensures NewRecords(old(records))
      ensures state == old(state)[id := st] && (id in old(state) ==> old(state)[id] == st)
    {
      if id !in state {
        var made := new PeerState();
        state := state[id := made];
        records := records + {made};
      }
      st := state[id];
    }

    /** One answer, or its absence. */
    method See(id: string, reachable: bool) returns (notice: seq<Notice>)
      requires Valid()
      modifies this, records
      ensures Valid() && NewRecords(old(records))
      ensures forall other :: other in state <==> other in old(state) || other == id
      ensures notice == if old(Down(id)) == !reachable then [] else if reachable then [Lowered(id)] else [Raised(id)]
      ensures log == old(log) + notice && Down(id) == !reachable
      ensures forall other | other != id :: Down(other) == old(Down(other))
    {
      var st := Record(id);
      notice := [];
      if !reachable && !st.down {
        st.down := true;
        Tell(Raised(id));
        notice := [Raised(id)];
      } else if reachable && st.down {
        st.down := false;
        Tell(Lowered(id));
        notice := [Lowered(id)];
      }
    }

    /** checkInterlinkPeers: whether each linked server answered, in any order. Afterwards only
        they have a record, marked with what was seen, and each was the subject of at most one notice. */
    method Check(answers: map<string, bool>) returns (notices: seq<Notice>, ghost gone: seq<Notice>)
      requires Valid()
      modifies this, records
      ensures Valid() && NewRecords(old(records))
      ensures forall id :: id in state <==> id in answers
      ensures forall id | id in answers :: Down(id) == !answers[id]
      ensures log == old(log) + gone + notices && OnlyForgets(gone, answers.Keys)
        && OncePerServer(notices, answers.Keys)
    {
      gone := Forget(answers.Keys);
      notices := SeeAll(answers);
    }

    method SeeAll(answers: map<string, bool>) returns (notices: seq<Notice>)
      requires Valid() && forall id | id in state :: id in answers
      modifies this, records
      ensures Valid() && NewRecords(old(records))
      ensures forall id | id in state :: id in answers
      ensures forall id | id in answers :: Seen(id, answers)
      ensures log == old(log) + notices && OncePerServer(notices, answers.Keys)
    {
      notices := [];
      var left := answers.Keys;
      while left != {}
        invariant Valid() && NewRecords(old(records)) && left <= answers.Keys
        invariant forall id | id in answers && id !in left :: Seen(id, answers)
        invariant forall id | id in state :: id in answers
        invariant log == old(log) + notices
        invariant OncePerServer(notices, answers.Keys - left)
        decreases |left|
      {
        var id :| id in left;
        var notice := See(id, answers[id]);
        TellMore(notices, answers.Keys - left, notice, id, answers.Keys - (left - {id}));
        Assoc(old(log), notices, notice);
        left := left - {id};
        notices := notices + notice;
      }
    }

    ghost predicate Seen(id: string, answers: map<string, bool>)
      requires Shape() && id in answers
      reads this, records
    {
      id in state && Down(id) == !answers[id]
    }
  }

  /** Notices about some of the servers, none about a server twice. */
  ghost predicate OncePerServer(notices: seq<Notice>, ids: set<string>) {
    && (forall i | 0 <= i < |notices| :: !notices[i].Forgotten? && notices[i].id in ids)
    && (forall i, j | 0 <= i < j < |notices| :: notices[i].id != notices[j].id)
  }

  ghost predicate OnlyForgets(gone: seq<Notice>, current: set<string>) {
    forall i | 0 <= i < |gone| :: gone[i].Forgotten? && gone[i].id !in current
  }

  lemma ForgetMore(gone: seq<Notice>, current: set<string>, id: string)
    requires OnlyForgets(gone, current) && id !in current
    ensures OnlyForgets(gone + [Forgotten(id)], current)
  {}

  lemma TellMore(notices: seq<Notice>, ids: set<string>, notice: seq<Notice>, id: string, more: set<string>)
    requires OncePerServer(notices, ids) && id !in ids && ids <= more && id in more
    requires |notice| <= 1 && forall i | 0 <= i < |notice| :: !notice[i].Forgotten? && notice[i].id == id
    ensures OncePerServer(notices + notice, more)
  {}

  lemma Assoc(a: seq<Notice>, b: seq<Notice>, c: seq<Notice>)
    ensures a + (b + c) == (a + b) + c
  {}
}
