/** How the storage map (handlers/map.go) finds what a path lives on: loops over maps of
    mountpoints, in whatever order the map gives them. */
module MapPaths {
  import opened Options
  import opened Text

  /** strings.TrimRight(s, "/"). */
  function TrimSlashes(s: string): (t: string)
    ensures |t| <= |s| && t == s[..|t|]
    ensures t == "" || t[|t| - 1] != '/'
    ensures forall i | |t| <= i < |s| :: s[i] == '/'
  {
    if s != "" && s[|s| - 1] == '/' then TrimSlashes(s[..|s| - 1]) else s
  }

  predicate StartsWith(s: string, prefix: string) {
    |prefix| <= |s| && s[..|prefix|] == prefix
  }

  /** The trimmed path is at or below the trimmed mountpoint. */
  predicate Under(path: string, mount: string) {
    path == mount || StartsWith(path, mount + "/")
  }

  predicate Contains(mount: string, path: string) {
    Under(TrimSlashes(path), TrimSlashes(mount))
  }

  function Depth(mount: string): nat {
    |TrimSlashes(mount)|
  }

  // ---- what containment means ----

  predicate IsPrefix(a: seq<string>, b: seq<string>) {
    |a| <= |b| && b[..|a|] == a
  }

  lemma Regroup(head: string, rest: string, b: string)
    ensures (head + "/" + rest) + "/" + b == head + "/" + (rest + "/" + b)
  {}

  lemma {:induction false} SplitConcat(a: string, b: string)
    ensures Split(a + "/" + b, '/') == Split(a, '/') + Split(b, '/')
    decreases |a|
  {
    var i := IndexOf(a, '/');
    var head := a[..i];
    if i == |a| {
      assert head == a;
      SplitAt(a, '/', b);
    } else {
      var rest := a[i + 1..];
      assert a == head + "/" + rest;
      Regroup(head, rest, b);
      SplitAt(head, '/', rest + "/" + b);
      SplitConcat(rest, b);
    }
  }

  function Join(parts: seq<string>): string
    requires parts != []
  {
    if |parts| == 1 then parts[0] else parts[0] + "/" + Join(parts[1..])
  }

  lemma JoinCons(head: string, parts: seq<string>)
    requires parts != []
    ensures Join([head] + parts) == head + "/" + Join(parts)
  {
    assert ([head] + parts)[1..] == parts;
  }

  lemma CutAt(s: string, i: nat)
    requires i < |s| && s[i] == '/'
    ensures s == s[..i] + "/" + s[i + 1..]
  {}

  lemma {:induction false} JoinSplit(s: string)
    ensures Join(Split(s, '/')) == s
    decreases |s|
  {
    var i := IndexOf(s, '/');
    if i < |s| {
      var rest := s[i + 1..];
      JoinSplit(rest);
      JoinCons(s[..i], Split(rest, '/'));
      CutAt(s, i);
    }
  }

  lemma {:induction false} JoinConcat(a: seq<string>, b: seq<string>)
    requires a != [] && b != []
    ensures Join(a + b) == Join(a) + "/" + Join(b)
    decreases |a|
  {
    if |a| == 1 {
      assert (a + b)[1..] == b;
    } else {
      assert (a + b)[1..] == a[1..] + b;
      JoinConcat(a[1..], b);
      assert Join(a + b) == a[0] + "/" + (Join(a[1..]) + "/" + Join(b));
    }
  }

  lemma BelowHasPrefix(path: string, mount: string)
    requires StartsWith(path, mount + "/")
    ensures IsPrefix(Split(mount, '/'), Split(path, '/'))
  {
    var rest := path[|mount| + 1..];
    assert path == mount + "/" + rest;
    SplitConcat(mount, rest);
  }

  lemma PrefixIsUnder(path: string, mount: string)
    requires IsPrefix(Split(mount, '/'), Split(path, '/'))
    ensures Under(path, mount)
  {
    var m, p := Split(mount, '/'), Split(path, '/');
    JoinSplit(mount);
    JoinSplit(path);
    assert p == m + p[|m|..];
    if |m| < |p| {
      var rest := Join(p[|m|..]);
      JoinConcat(m, p[|m|..]);
      assert path == (mount + "/") + rest;
    } else {
      assert p == m;
    }
  }

  /** A path is under a mountpoint exactly if the components of the mountpoint are the first
      components of the path: /tank does not contain /tank2. */
  lemma UnderIsComponentPrefix(path: string, mount: string)
    ensures Under(path, mount) <==> IsPrefix(Split(mount, '/'), Split(path, '/'))
  {
    if StartsWith(path, mount + "/") { BelowHasPrefix(path, mount); }
    if IsPrefix(Split(mount, '/'), Split(path, '/')) { PrefixIsUnder(path, mount); }
  }

  // ---- resolution ----

  /** Among the mountpoints that contain the path, `mount` is the deepest. */
  ghost predicate IsDeepest(mounts: map<string, string>, path: string, mount: string) {
    && mount in mounts && Contains(mount, path)
    && forall other | other in mounts && Contains(other, path) :: Depth(other) <= Depth(mount)
  }

  /** resolveByPath: the identifier at the deepest mountpoint, if any contains the path. */
  ghost predicate IsResolved(mounts: map<string, string>, path: string, id: Option<string>) {
    match id
    case Some(found) =>
      TrimSlashes(path) != "" && exists mount :: IsDeepest(mounts, path, mount) && mounts[mount] == found
    case None => TrimSlashes(path) == "" || forall mount | mount in mounts :: !Contains(mount, path)
  }

  /** No two mountpoints are the same directory. */
  ghost predicate DistinctMounts(mounts: map<string, string>) {
    forall a, b | a in mounts && b in mounts && a != b :: TrimSlashes(a) != TrimSlashes(b)
  }

  lemma SameDepthSameMount(path: string, a: string, b: string)
    requires Contains(a, path) && Contains(b, path) && Depth(a) == Depth(b)
    ensures TrimSlashes(a) == TrimSlashes(b)
  {
    var p, x, y := TrimSlashes(path), TrimSlashes(a), TrimSlashes(b);
    assert x == p[..|x|] by { if p != x { assert p[..|x| + 1] == x + "/"; assert p[..|x|] == (x + "/")[..|x|]; } }
    assert y == p[..|y|] by { if p != y { assert p[..|y| + 1] == y + "/"; assert p[..|y|] == (y + "/")[..|y|]; } }
  }

  /** So the order of the map does not matter. */
  lemma ResolutionIsUnique(mounts: map<string, string>, path: string, a: Option<string>, b: Option<string>)
    requires DistinctMounts(mounts) && IsResolved(mounts, path, a) && IsResolved(mounts, path, b)
    ensures a == b
  {
    if a.Some? && b.Some? {
      var x :| IsDeepest(mounts, path, x) && mounts[x] == a.value;
      var y :| IsDeepest(mounts, path, y) && mounts[y] == b.value;
      SameDepthSameMount(path, x, y);
    }
  }

  /** The loop of resolveByPath; the mountpoints come in any order. */
  method ResolveByPath(mounts: map<string, string>, path: string) returns (id: Option<string>)
    ensures IsResolved(mounts, path, id)
  {
    var p := TrimSlashes(path);
    if p == "" {
      return None;
    }
    var bestLen := -1;
    id := None;
    ghost var best := "";
    var todo := mounts.Keys;
    while todo != {}
      invariant todo <= mounts.Keys
      invariant id.None? <==> bestLen == -1
      invariant id.None? ==> forall mount | mount in mounts && mount !in todo :: !Contains(mount, path)
      invariant id.Some? ==>
        best in mounts && Contains(best, path) && mounts[best] == id.value && bestLen == Depth(best)
      invariant forall mount | mount in mounts && mount !in todo && Contains(mount, path) :: Depth(mount) <= bestLen
      decreases |todo|
    {
      var mount :| mount in todo;
      todo := todo - {mount};
      var m := TrimSlashes(mount);
      if p == m || StartsWith(p, m + "/") {
        if |m| > bestLen {
          bestLen, id := |m|, Some(mounts[mount]);
          best := mount;
        }
      }
    }
    if id.Some? { assert IsDeepest(mounts, path, best); }
  }

  /** The length longestMountFor finds is that of the deepest mountpoint, or zero. */
  ghost predicate IsLongest(mounts: map<string, string>, path: string, best: string) {
    && (best == "" || exists mount :: mount in mounts && Contains(mount, path) && TrimSlashes(mount) == best)
    && forall mount | mount in mounts && Contains(mount, path) :: Depth(mount) <= |best|
  }

  /** longestMountFor. */
  method LongestMountFor(mounts: map<string, string>, path: string) returns (best: string)
    ensures IsLongest(mounts, path, best)
  {
    var p := TrimSlashes(path);
    best := "";
    var todo := mounts.Keys;
    while todo != {}
      invariant todo <= mounts.Keys
      invariant best == "" || exists mount :: mount in mounts && Contains(mount, path) && TrimSlashes(mount) == best
      invariant forall mount | mount in mounts && mount !in todo && Contains(mount, path) :: Depth(mount) <= |best|
      decreases |todo|
    {
      var mount :| mount in todo;
      todo := todo - {mount};
      var m := TrimSlashes(mount);
      if p == m || StartsWith(p, m + "/") {
        if |m| > |best| {
          assert Contains(mount, path);
          best := m;
        }
      }
    }
  }

  ghost predicate NoneDeeper(mounts: map<string, string>, path: string, depth: nat) {
    forall mount | mount in mounts && Contains(mount, path) :: Depth(mount) <= depth
  }

  /** A share is served by a union: one of its mountpoints contains the path, at least as deep as every dataset's. */
  ghost predicate ServedByUnion(dsByMount: map<string, string>, mfsByMount: map<string, string>, path: string) {
    && TrimSlashes(path) != ""
    && exists union :: union in mfsByMount && Contains(union, path) && NoneDeeper(dsByMount, path, Depth(union))
  }

  /** backingIDs: the union alone, else the dataset, if any. */
  method BackingIDs(dsByMount: map<string, string>, mfsByMount: map<string, string>, path: string)
    returns (datasetIDs: seq<string>, mergerfsIDs: seq<string>)
    ensures ServedByUnion(dsByMount, mfsByMount, path) ==>
      datasetIDs == [] && |mergerfsIDs| == 1 && IsResolved(mfsByMount, path, Some(mergerfsIDs[0]))
    ensures !ServedByUnion(dsByMount, mfsByMount, path) ==>
      mergerfsIDs == [] && |datasetIDs| <= 1
        && IsResolved(dsByMount, path, if datasetIDs == [] then None else Some(datasetIDs[0]))
  {
    var mfsID := ResolveByPath(mfsByMount, path);
    var dsID := ResolveByPath(dsByMount, path);
    var longestMfs := LongestMountFor(mfsByMount, path);
    var longestDs := LongestMountFor(dsByMount, path);
    UnionWins(dsByMount, mfsByMount, path, mfsID, longestMfs, longestDs);
    if mfsID.Some? && |longestMfs| >= |longestDs| {
      return [], [mfsID.value];
    }
    return if dsID.None? then [] else [dsID.value], [];
  }

  lemma UnionWins(
    dsByMount: map<string, string>, mfsByMount: map<string, string>, path: string, mfsID: Option<string>,
    longestMfs: string, longestDs: string)
    requires IsResolved(mfsByMount, path, mfsID)
    requires IsLongest(mfsByMount, path, longestMfs) && IsLongest(dsByMount, path, longestDs)
    ensures ServedByUnion(dsByMount, mfsByMount, path) <==> mfsID.Some? && |longestMfs| >= |longestDs|
  {}
}
