/** Dependency resolution over every registered migration. */
module MigrationDag {
  import opened Text
  import opened MigrationOrder

  datatype DagError =
    | DuplicateMigration(id: Ref)
    | DanglingRef(from: Ref, to: Ref)
    | CrossTargetViolation(meta: Ref, perProfile: Ref)
    | Cycle(path: seq<Ref>)

  // ------------------------------------------------------------ what the checks mean

  function Ids(ms: seq<Migration>): (r: seq<Ref>)
    ensures |r| == |ms| && forall i :: 0 <= i < |ms| ==> r[i] == ms[i].Id()
  {
    seq(|ms|, i requires 0 <= i < |ms| => ms[i].Id())
  }

  ghost function AllOf(ms: seq<Migration>): set<Migration> {
    set m | m in ms
  }

  predicate Distinct(ms: seq<Migration>) {
    forall i, j :: 0 <= i < j < |ms| ==> ms[i].Id() != ms[j].Id()
  }

  /** Every dependency of `m` is registered. */
  predicate KnowsAll(ms: seq<Migration>, m: Migration) {
    forall k :: 0 <= k < |m.dependencies| ==> m.dependencies[k] in Ids(ms)
  }

  predicate Known(ms: seq<Migration>, upTo: nat)
    requires upTo <= |ms|
  {
    forall i :: 0 <= i < upTo ==> KnowsAll(ms, ms[i])
  }

  predicate NamesPerProfile(ms: seq<Migration>, d: Ref) {
    exists x :: x in ms && x.Id() == d && x.target.PerProfile?
  }

  /** `m` is not a Meta migration that depends on a PerProfile one. */
  predicate KeepsTarget(ms: seq<Migration>, m: Migration) {
    m.target.Meta? ==> forall k :: 0 <= k < |m.dependencies| ==> !NamesPerProfile(ms, m.dependencies[k])
  }

  predicate KeepsTargets(ms: seq<Migration>, upTo: nat)
    requires upTo <= |ms|
  {
    forall i :: 0 <= i < upTo ==> KeepsTarget(ms, ms[i])
  }

  predicate WellFormed(ms: seq<Migration>) {
    Distinct(ms) && Known(ms, |ms|) && KeepsTargets(ms, |ms|)
  }

  /** What a well-formed registration is, without positions: no id is used twice, every
      dependency is registered, and no Meta migration depends on a PerProfile one. */
  lemma {:induction false} WellFormedIff(ms: seq<Migration>)
    ensures WellFormed(ms) <==>
      && (forall i, j :: 0 <= i < |ms| && 0 <= j < |ms| && ms[i].graft == ms[j].graft && ms[i].name == ms[j].name
            ==> i == j)
      && (forall m, d :: m in ms && d in m.dependencies ==>
            exists x :: x in ms && x.graft == d.graft && x.name == d.name)
      && (forall m, x :: m in ms && x in ms && m.DependsOn(x) ==> !(m.target.Meta? && x.target.PerProfile?))
  {
    forall d ensures d in Ids(ms) <==> exists x :: x in ms && x.graft == d.graft && x.name == d.name {
      if d in Ids(ms) {
        var i :| 0 <= i < |ms| && Ids(ms)[i] == d;
        assert ms[i] in ms;
      }
      if x :| x in ms && x.graft == d.graft && x.name == d.name {
        var i :| 0 <= i < |ms| && ms[i] == x;
        assert Ids(ms)[i] == d;
      }
    }
    assert Known(ms, |ms|) <==> forall m, d :: m in ms && d in m.dependencies ==> d in Ids(ms);
  }

  ghost predicate DanglesAt(ms: seq<Migration>, i: nat, to: Ref)
    requires i < |ms|
  {
    Known(ms, i) && to in ms[i].dependencies && to !in Ids(ms)
  }

  ghost predicate CrossesAt(ms: seq<Migration>, i: nat, dep: Ref)
    requires i < |ms|
  {
    KeepsTargets(ms, i) && ms[i].target.Meta? && dep in ms[i].dependencies && NamesPerProfile(ms, dep)
  }

  ghost predicate FirstToDangle(ms: seq<Migration>, from: Ref, to: Ref) {
    exists i :: 0 <= i < |ms| && ms[i].Id() == from && DanglesAt(ms, i, to)
  }

  ghost predicate FirstToCross(ms: seq<Migration>, meta: Ref, dep: Ref) {
    exists i :: 0 <= i < |ms| && ms[i].Id() == meta && CrossesAt(ms, i, dep)
  }

  /** What an error says of the input: every earlier check passes, and
      every migration before the one named passes this one. */
  ghost predicate Explains(e: DagError, ms: seq<Migration>) {
    match e
    case DuplicateMigration(id) =>
      exists j :: 0 <= j < |ms| && ms[j].Id() == id && Distinct(ms[..j]) && id in Ids(ms[..j])
    case DanglingRef(from, to) =>
      Distinct(ms) && FirstToDangle(ms, from, to)
    case CrossTargetViolation(meta, perProfile) =>
      Distinct(ms) && Known(ms, |ms|) && FirstToCross(ms, meta, perProfile)
    case Cycle(path) => WellFormed(ms) && Stuck(AllOf(ms)) != {}
  }

  lemma {:induction false} DistinctIsUnambiguous(ms: seq<Migration>)
    requires Distinct(ms)
    ensures Unambiguous(AllOf(ms))
    ensures forall i, j :: 0 <= i < |ms| && 0 <= j < |ms| && ms[i] == ms[j] ==> i == j
  {
    forall a, b | a in AllOf(ms) && b in AllOf(ms) && a.Id() == b.Id()
      ensures a == b
    {
      var i :| 0 <= i < |ms| && ms[i] == a;
      var j :| 0 <= j < |ms| && ms[j] == b;
      assert i == j;
    }
  }

  // ------------------------------------------------------------ the checks

  method CheckDuplicates(ms: seq<Migration>) returns (r: Option<DagError>)
    ensures r.None? <==> Distinct(ms)
    ensures r.Some? ==> r.value.DuplicateMigration? && Explains(r.value, ms)
  {
    var seen := {};
    for i := 0 to |ms|
      invariant Distinct(ms[..i])
      invariant forall d :: d in seen <==> d in Ids(ms[..i])
    {
      if ms[i].Id() in seen {
        var j :| 0 <= j < i && ms[..i][j].Id() == ms[i].Id();
        return Some(DuplicateMigration(ms[i].Id()));
      }
      assert forall j :: 0 <= j < i ==> Ids(ms[..i])[j] in seen;
      assert Ids(ms[..i + 1]) == Ids(ms[..i]) + [ms[i].Id()];
      seen := seen + {ms[i].Id()};
    }
    assert ms[..|ms|] == ms;
    return None;
  }

  function RefIndex(ms: seq<Migration>): (r: map<Ref, nat>)
    ensures forall d :: d in r <==> d in Ids(ms)
    ensures forall d :: d in r ==> r[d] < |ms| && ms[r[d]].Id() == d
  {
    if ms == [] then map[]
    else
      var n := |ms| - 1;
      assert Ids(ms) == Ids(ms[..n]) + [ms[n].Id()];
      RefIndex(ms[..n])[ms[n].Id() := n]
  }

  method CheckDanglingRefs(ms: seq<Migration>, byRef: map<Ref, nat>) returns (r: Option<DagError>)
    requires Distinct(ms) && byRef == RefIndex(ms)
    ensures r.None? <==> Known(ms, |ms|)
    ensures r.Some? ==> r.value.DanglingRef? && FirstToDangle(ms, r.value.from, r.value.to)
  {
    for i := 0 to |ms|
      invariant Known(ms, i)
    {
      var unknown := FirstUnknown(ms, ms[i], byRef);
      if unknown.Some? {
        assert DanglesAt(ms, i, unknown.value);
        return Some(DanglingRef(ms[i].Id(), unknown.value));
      }
    }
    return None;
  }

  /** The inner loop: the first dependency of `m` that is not registered. */
  method FirstUnknown(ms: seq<Migration>, m: Migration, byRef: map<Ref, nat>) returns (r: Option<Ref>)
    requires byRef == RefIndex(ms)
    ensures r.None? <==> KnowsAll(ms, m)
    ensures r.Some? ==> r.value in m.dependencies && r.value !in Ids(ms)
  {
    for k := 0 to |m.dependencies|
      invariant forall j :: 0 <= j < k ==> m.dependencies[j] in Ids(ms)
    {
      if m.dependencies[k] !in byRef {
        return Some(m.dependencies[k]);
      }
    }
    return None;
  }

  method CheckCrossTargetViolations(ms: seq<Migration>, byRef: map<Ref, nat>) returns (r: Option<DagError>)
    requires Distinct(ms) && byRef == RefIndex(ms)
    ensures r.None? <==> KeepsTargets(ms, |ms|)
    ensures r.Some? ==> r.value.CrossTargetViolation? && FirstToCross(ms, r.value.meta, r.value.perProfile)
  {
    for i := 0 to |ms|
      invariant KeepsTargets(ms, i)
    {
      var perProfile := FirstCrossing(ms, ms[i], byRef);
      if perProfile.Some? {
        assert CrossesAt(ms, i, perProfile.value);
        return Some(CrossTargetViolation(ms[i].Id(), perProfile.value));
      }
    }
    return None;
  }

  /** The test on one migration. */
  method FirstCrossing(ms: seq<Migration>, m: Migration, byRef: map<Ref, nat>) returns (r: Option<Ref>)
    requires Distinct(ms) && byRef == RefIndex(ms)
    ensures r.None? <==> KeepsTarget(ms, m)
    ensures r.Some? ==> m.target.Meta? && r.value in m.dependencies && NamesPerProfile(ms, r.value)
  {
    if !m.target.Meta? {
      return None;
    }
    r := FirstPerProfile(ms, m.dependencies, byRef);
  }

  /** The inner loop: the first of `deps` that names a PerProfile migration. */
  method FirstPerProfile(ms: seq<Migration>, deps: seq<Ref>, byRef: map<Ref, nat>) returns (r: Option<Ref>)
    requires Distinct(ms) && byRef == RefIndex(ms)
    ensures r.None? ==> forall k :: 0 <= k < |deps| ==> !NamesPerProfile(ms, deps[k])
    ensures r.Some? ==> r.value in deps && NamesPerProfile(ms, r.value)
  {
    for k := 0 to |deps|
      invariant forall j :: 0 <= j < k ==> !NamesPerProfile(ms, deps[j])
    {
      IndexedTarget(ms, deps[k]);
      if deps[k] in byRef && ms[byRef[deps[k]]].target.PerProfile? {
        return Some(deps[k]);
      }
    }
    return None;
  }

  lemma {:induction false} IndexedTarget(ms: seq<Migration>, d: Ref)
    requires Distinct(ms)
    ensures NamesPerProfile(ms, d) <==> d in RefIndex(ms) && ms[RefIndex(ms)[d]].target.PerProfile?
  {
    if d in RefIndex(ms) {
      var at := RefIndex(ms)[d];
      assert ms[at] in ms;
      forall j | 0 <= j < |ms| && ms[j].Id() == d ensures j == at {
      }
    } else {
      forall j | 0 <= j < |ms| ensures ms[j].Id() != d {
        assert Ids(ms)[j] in Ids(ms);
      }
    }
  }

  // ------------------------------------------------------------ counting edges

  /** Occurrences of `x` in `s`. */
  function Count<T(==)>(s: seq<T>, x: T): nat {
    if s == [] then 0 else (if s[0] == x then 1 else 0) + Count(s[1..], x)
  }

  lemma {:induction false} CountSnoc<T>(s: seq<T>, y: T, x: T)
    ensures Count(s + [y], x) == Count(s, x) + if y == x then 1 else 0
  {
    if s == [] {
      assert s + [y] == [y];
    } else {
      CountSnoc(s[1..], y, x);
      assert (s + [y])[1..] == s[1..] + [y];
    }
  }

  /** How many entries of `deps` name something still to be placed. */
  ghost function Waiting(deps: seq<Ref>, left: set<Migration>): nat {
    if deps == [] then 0
    else (if exists x :: x in left && x.Id() == deps[0] then 1 else 0) + Waiting(deps[1..], left)
  }

  lemma {:induction false} WaitingIffBlocked(deps: seq<Ref>, left: set<Migration>)
    ensures Waiting(deps, left) == 0 <==> forall x :: x in left ==> x.Id() !in deps
  {
    if deps != [] {
      WaitingIffBlocked(deps[1..], left);
      assert deps == [deps[0]] + deps[1..];
    }
  }

  lemma {:induction false} PlacingOne(deps: seq<Ref>, left: set<Migration>, m: Migration)
    requires m in left && Unambiguous(left)
    ensures Waiting(deps, left) == Waiting(deps, left - {m}) + Count(deps, m.Id())
  {
    if deps != [] {
      PlacingOne(deps[1..], left, m);
      if deps[0] != m.Id() {
        assert forall x :: x in left && x.Id() == deps[0] ==> x in left - {m};
      }
    }
  }

  lemma {:induction false} AllWaiting(deps: seq<Ref>, ms: seq<Migration>)
    requires forall k :: 0 <= k < |deps| ==> deps[k] in Ids(ms)
    ensures Waiting(deps, AllOf(ms)) == |deps|
  {
    if deps != [] {
      var i :| 0 <= i < |ms| && ms[i].Id() == deps[0];
      assert ms[i] in AllOf(ms);
      AllWaiting(deps[1..], ms);
    }
  }

  /** `adj[j]` lists `i` once for every time `i` names `j`, counting only the
      dependencies of the first `done` migrations and the first `k` of the next. */
  ghost predicate Lists(adj: seq<seq<nat>>, ms: seq<Migration>, done: nat, k: nat) {
    && |adj| == |ms|
    && (forall j, i :: 0 <= j < |ms| && i in adj[j] ==> i < |ms|)
    && forall j, i :: 0 <= j < |ms| && 0 <= i < |ms| ==> Count(adj[j], i) == Named(ms, done, k, i, j)
  }

  function Named(ms: seq<Migration>, done: nat, k: nat, i: nat, j: nat): nat
    requires i < |ms| && j < |ms|
  {
    if i < done then Count(ms[i].dependencies, ms[j].Id())
    else if i == done && k <= |ms[i].dependencies| then Count(ms[i].dependencies[..k], ms[j].Id())
    else 0
  }

  lemma {:induction false} OneMoreEdge(adj: seq<seq<nat>>, ms: seq<Migration>, i: nat, k: nat, j: nat)
    requires Distinct(ms) && i < |ms| && j < |ms| && k < |ms[i].dependencies| && ms[i].dependencies[k] == ms[j].Id()
    requires Lists(adj, ms, i, k)
    ensures Lists(adj[j := adj[j] + [i]], ms, i, k + 1)
  {
    var after := adj[j := adj[j] + [i]];
    var deps := ms[i].dependencies;
    forall j', i' | 0 <= j' < |ms| && 0 <= i' < |ms|
      ensures Count(after[j'], i') == Named(ms, i, k + 1, i', j')
    {
      CountSnoc(adj[j], i, i');
      CountSnoc(deps[..k], deps[k], ms[j'].Id());
      assert deps[..k + 1] == deps[..k] + [deps[k]];
      assert ms[j'].Id() == ms[j].Id() ==> j' == j;
    }
  }

  lemma {:induction false} NextMigration(adj: seq<seq<nat>>, ms: seq<Migration>, i: nat)
    requires i < |ms| && Lists(adj, ms, i, |ms[i].dependencies|)
    ensures Lists(adj, ms, i + 1, 0)
  {
    assert ms[i].dependencies[..|ms[i].dependencies|] == ms[i].dependencies;
  }

  /** One round of the outer loop: the edges into migration `i`. */
  method AddEdges(ms: seq<Migration>, i: nat, byRef: map<Ref, nat>, adj: seq<seq<nat>>, inDegree: array<nat>)
    returns (after: seq<seq<nat>>)
    requires Distinct(ms) && i < |ms| == inDegree.Length && byRef == RefIndex(ms)
    requires forall k :: 0 <= k < |ms[i].dependencies| ==> ms[i].dependencies[k] in byRef
    requires Lists(adj, ms, i, 0) && inDegree[i] == 0
    modifies inDegree
    ensures Lists(after, ms, i + 1, 0)
    ensures inDegree[..] == old(inDegree[..])[i := |ms[i].dependencies|]
  {
    after := adj;
    var deps := ms[i].dependencies;
    for k := 0 to |deps|
      invariant Lists(after, ms, i, k)
      invariant inDegree[i] == k
      invariant inDegree[..] == old(inDegree[..])[i := k]
    {
      if deps[k] in byRef {
        var j := byRef[deps[k]];
        OneMoreEdge(after, ms, i, k, j);
        after := after[j := after[j] + [i]];
        inDegree[i] := inDegree[i] + 1;
      }
    }
    NextMigration(after, ms, i);
  }

  method BuildAdjacency(ms: seq<Migration>, byRef: map<Ref, nat>)
    returns (adj: seq<seq<nat>>, inDegree: array<nat>)
    requires Distinct(ms) && Known(ms, |ms|) && byRef == RefIndex(ms)
    ensures fresh(inDegree) && inDegree.Length == |ms|
    ensures Lists(adj, ms, |ms|, 0)
    ensures forall i :: 0 <= i < |ms| ==> inDegree[i] == |ms[i].dependencies|
  {
    adj := seq(|ms|, i => []);
    inDegree := new nat[|ms|](i => 0);
    for i := 0 to |ms|
      invariant Lists(adj, ms, i, 0)
      invariant forall j :: 0 <= j < |ms| ==> inDegree[..][j] == if j < i then |ms[j].dependencies| else 0
    {
      adj := AddEdges(ms, i, byRef, adj, inDegree);
    }
  }
}
