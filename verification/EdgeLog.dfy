/** Notices sent on the edges of a condition: raised when it appears, lowered when it goes. */
module EdgeLog {
  datatype Notice = Raised(id: string) | Lowered(id: string) | Forgotten(id: string)

  /** The last notice about `id` raised it. */
  predicate IsUp(log: seq<Notice>, id: string) {
    if log == [] then false
    else
      var last := log[|log| - 1];
      if last.id == id then last.Raised? else IsUp(log[..|log| - 1], id)
  }

  /** Each notice changes what the one before about the same id said, starting with a raise. */
  ghost predicate Alternates(log: seq<Notice>) {
    forall k | 0 <= k < |log| && !log[k].Forgotten? :: log[k].Raised? <==> !IsUp(log[..k], log[k].id)
  }

  lemma Append(log: seq<Notice>, n: Notice, id: string)
    ensures IsUp(log + [n], id) == if n.id == id then n.Raised? else IsUp(log, id)
  {}

  lemma AppendAlternates(log: seq<Notice>, n: Notice)
    requires Alternates(log) && (n.Forgotten? || (n.Raised? <==> !IsUp(log, n.id)))
    ensures Alternates(log + [n])
  {
    var more := log + [n];
    forall k | 0 <= k < |more| && !more[k].Forgotten? ensures more[k].Raised? <==> !IsUp(more[..k], more[k].id) {
      if k < |log| { assert more[..k] == log[..k]; } else { assert more[..k] == log; }
    }
  }

  /** Between two raises of the same id there is a lowering, or it was forgotten; between two
      lowerings there is a raise; and the first notice about an id is not a lowering. */
  lemma {:induction false} StrictlyAlternates(log: seq<Notice>, i: nat, k: nat)
    requires Alternates(log) && i < k < |log| && log[i].id == log[k].id && !log[k].Forgotten?
    ensures log[i].Raised? && log[k].Raised? ==> exists j :: i < j < k && log[j].id == log[i].id && !log[j].Raised?
    ensures !log[i].Raised? && log[k].Lowered? ==> exists j :: i < j < k && log[j] == Raised(log[i].id)
  {
    LastSaid(log, i, k);
  }

  /** If the condition is not what the notice at `i` said, another notice has come. */
  lemma {:induction false} LastSaid(log: seq<Notice>, i: nat, k: nat)
    requires i < k <= |log|
    ensures IsUp(log[..k], log[i].id) != log[i].Raised? ==>
      exists j :: i < j < k && log[j].id == log[i].id && (log[j].Raised? <==> IsUp(log[..k], log[i].id))
    decreases k
  {
    assert log[..k][..k - 1] == log[..k - 1];
    if log[k - 1].id != log[i].id {
      LastSaid(log, i, k - 1);
    }
  }

  lemma {:induction false} FirstIsRaise(log: seq<Notice>, k: nat)
    requires Alternates(log) && k < |log| && !log[k].Forgotten?
    requires forall j | 0 <= j < k :: log[j].id != log[k].id
    ensures log[k].Raised?
  {
    NeverSaid(log[..k], log[k].id);
  }

  lemma {:induction false} NeverSaid(log: seq<Notice>, id: string)
    requires forall j | 0 <= j < |log| :: log[j].id != id
    ensures !IsUp(log, id)
    decreases |log|
  {
    if log != [] { NeverSaid(log[..|log| - 1], id); }
  }
}
