/** Kahn's algorithm over the registered migrations, and the error it reports
    when it cannot place them all. */
module MigrationResolve {
  import opened Text
  import opened MigrationOrder
  import opened MigrationDag
  import opened CycleSearch

  // ------------------------------------------------------------ degrees and heap

  /** `d[i]` counts what `ms[i]` still waits for; what is placed waits for nothing. */
  ghost predicate DegreesTrack(ms: seq<Migration>, d: seq<nat>, left: set<Migration>) {
    && |d| == |ms|
    && (forall i :: 0 <= i < |ms| ==> d[i] == Waiting(ms[i].dependencies, left))
    && (forall i :: 0 <= i < |ms| && ms[i] !in left ==> d[i] == 0)
  }

  /** The heap holds what is left with nothing to wait for. */
  ghost predicate HeapTracks(ms: seq<Migration>, heap: set<nat>, d: seq<nat>, left: set<Migration>) {
    && |d| == |ms|
    && forall i: nat :: i in heap <==> i < |ms| && ms[i] in left && d[i] == 0
  }

  predicate Indexes(ms: seq<Migration>, w: seq<nat>) {
    forall k :: 0 <= k < |w| ==> w[k] < |ms|
  }

  /** Part way through releasing the dependents of a placed migration. */
  ghost predicate Releasing(ms: seq<Migration>, d: seq<nat>, left: set<Migration>, rest: seq<nat>) {
    && |d| == |ms|
    && (forall i :: 0 <= i < |ms| ==> d[i] == Waiting(ms[i].dependencies, left) + Count(rest, i))
    && (forall i :: 0 <= i < |ms| && ms[i] !in left ==> d[i] == 0)
  }

  lemma {:induction false} ZeroMeansReady(ms: seq<Migration>, d: seq<nat>, left: set<Migration>, i: nat)
    requires DegreesTrack(ms, d, left) && i < |ms|
    ensures ms[i] in left && d[i] == 0 <==> ms[i] in Ready(left)
    ensures d[i] == 0 <==> !Blocked(ms[i], left)
  {
    WaitingIffBlocked(ms[i].dependencies, left);
  }

  lemma {:induction false} BeginRelease(ms: seq<Migration>, adj: seq<seq<nat>>, d: seq<nat>, left: set<Migration>,
        x: nat)
    requires Unambiguous(left) && DegreesTrack(ms, d, left) && Lists(adj, ms, |ms|, 0)
    requires x < |ms| && ms[x] in left && d[x] == 0
    ensures Releasing(ms, d, left - {ms[x]}, adj[x])
  {
    forall i | 0 <= i < |ms|
      ensures d[i] == Waiting(ms[i].dependencies, left - {ms[x]}) + Count(adj[x], i)
    {
      PlacingOne(ms[i].dependencies, left, ms[x]);
      assert Count(adj[x], i) == Named(ms, |ms|, 0, i, x);
    }
  }

  lemma {:induction false} ReleaseOne(ms: seq<Migration>, d: seq<nat>, left: set<Migration>, rest: seq<nat>)
    requires Releasing(ms, d, left, rest) && rest != [] && rest[0] < |ms|
    ensures 0 < d[rest[0]] && ms[rest[0]] in left
    ensures Releasing(ms, d[rest[0] := d[rest[0]] - 1], left, rest[1..])
  {
  }

  method Release(ms: seq<Migration>, next: seq<nat>, inDegree: array<nat>, heap: set<nat>, ghost left: set<Migration>)
    returns (after: set<nat>)
    requires inDegree.Length == |ms| && Indexes(ms, next)
    requires Releasing(ms, inDegree[..], left, next) && HeapTracks(ms, heap, inDegree[..], left)
    modifies inDegree
    ensures DegreesTrack(ms, inDegree[..], left) && HeapTracks(ms, after, inDegree[..], left)
  {
    after := heap;
    for k := 0 to |next|
      invariant Releasing(ms, inDegree[..], left, next[k..])
      invariant HeapTracks(ms, after, inDegree[..], left)
    {
      var i := next[k];
      assert next[k..][0] == i && next[k..][1..] == next[k + 1..];
      ReleaseOne(ms, inDegree[..], left, next[k..]);
      ghost var was := inDegree[..];
      inDegree[i] := inDegree[i] - 1;
      assert inDegree[..] == was[i := was[i] - 1];
      if inDegree[i] == 0 {
        after := after + {i};
      }
    }
  }

  // ------------------------------------------------------------ the sort

  ghost predicate Progress(ms: seq<Migration>, placed: seq<Migration>, left: set<Migration>) {
    && left <= AllOf(ms)
    && Plan(AllOf(ms)) == placed + Plan(left)
    && Stuck(AllOf(ms)) == Stuck(left)
    && |placed| + |left| == |ms|
  }

  lemma {:induction false} SizeOfAll(ms: seq<Migration>)
    requires Distinct(ms)
    ensures |AllOf(ms)| == |ms|
  {
    if ms != [] {
      var n := |ms| - 1;
      SizeOfAll(ms[..n]);
      assert AllOf(ms) == AllOf(ms[..n]) + {ms[n]};
      assert ms[n] !in AllOf(ms[..n]) by {
        DistinctIsUnambiguous(ms);
      }
    }
  }

  lemma {:induction false} PlaceLeast(ms: seq<Migration>, placed: seq<Migration>, left: set<Migration>, m: Migration)
    requires Distinct(ms) && Progress(ms, placed, left) && IsLeast(m, Ready(left))
    ensures Progress(ms, placed + [m], left - {m})
  {
    DistinctIsUnambiguous(ms);
    LeastIsUnique(Ready(left), m);
    assert placed + ([m] + Plan(left - {m})) == placed + [m] + Plan(left - {m});
  }

  lemma {:induction false} HeapIsReady(ms: seq<Migration>, heap: set<nat>, d: seq<nat>, left: set<Migration>)
    requires HeapTracks(ms, heap, d, left) && DegreesTrack(ms, d, left)
    ensures forall i: nat :: i in heap <==> i < |ms| && ms[i] in Ready(left)
  {
    forall i: nat | i < |ms| ensures i in heap <==> ms[i] in Ready(left) {
      ZeroMeansReady(ms, d, left, i);
    }
  }

  predicate MinimumOf(ms: seq<Migration>, heap: set<nat>, x: nat) {
    x in heap && x < |ms| && forall j :: j in heap && j < |ms| ==> Before(ms[x], ms[j])
  }

  ghost predicate Holds(ms: seq<Migration>, heap: set<nat>, s: set<Migration>) {
    s <= AllOf(ms) && forall i: nat :: i in heap <==> i < |ms| && ms[i] in s
  }

  lemma {:induction false} HeldSomewhere(ms: seq<Migration>, heap: set<nat>, s: set<Migration>, m: Migration)
    returns (i: nat)
    requires Holds(ms, heap, s) && m in s
    ensures i in heap && i < |ms| && ms[i] == m
  {
    assert m in AllOf(ms);
    i :| 0 <= i < |ms| && ms[i] == m;
  }

  /** The heap's least position is that of the least migration. */
  lemma {:induction false} HeapMinimum(ms: seq<Migration>, heap: set<nat>, s: set<Migration>, x: nat)
    requires Holds(ms, heap, s) && MinimumOf(ms, heap, x)
    ensures IsLeast(ms[x], s)
  {
    forall m | m in s ensures Before(ms[x], m) {
      var i := HeldSomewhere(ms, heap, s, m);
    }
  }

  lemma {:induction false} HeapHasMinimum(ms: seq<Migration>, heap: set<nat>, s: set<Migration>) returns (x: nat)
    requires Holds(ms, heap, s) && heap != {}
    ensures MinimumOf(ms, heap, x)
  {
    var h :| h in heap;
    assert ms[h] in s;
    var m := Least(s);
    assert IsLeast(m, s);
    x := HeldSomewhere(ms, heap, s, m);
  }

  lemma {:induction false} EmptyHeapHoldsNothing(ms: seq<Migration>, heap: set<nat>, s: set<Migration>)
    requires Holds(ms, heap, s)
    ensures heap == {} ==> s == {}
  {
    if m :| m in s {
      var i := HeldSomewhere(ms, heap, s, m);
    }
  }

  ghost predicate Sorting(ms: seq<Migration>, heap: set<nat>, d: seq<nat>, placed: seq<Migration>,
        left: set<Migration>) {
    DegreesTrack(ms, d, left) && HeapTracks(ms, heap, d, left) && Progress(ms, placed, left)
  }

  lemma {:induction false} HeapHoldsReady(ms: seq<Migration>, heap: set<nat>, d: seq<nat>,
        placed: seq<Migration>, left: set<Migration>)
    requires Sorting(ms, heap, d, placed, left)
    ensures Holds(ms, heap, Ready(left))
  {
    HeapIsReady(ms, heap, d, left);
  }

  lemma {:induction false} MinimumExists(ms: seq<Migration>, heap: set<nat>, d: seq<nat>, placed: seq<Migration>,
        left: set<Migration>)
    requires heap != {} && Sorting(ms, heap, d, placed, left)
    ensures exists x :: MinimumOf(ms, heap, x)
  {
    HeapHoldsReady(ms, heap, d, placed, left);
    var x := HeapHasMinimum(ms, heap, Ready(left));
  }

  lemma {:induction false} ListedAreIndexes(ms: seq<Migration>, adj: seq<seq<nat>>, x: nat)
    requires Lists(adj, ms, |ms|, 0) && x < |ms|
    ensures Indexes(ms, adj[x])
  {
    forall k | 0 <= k < |adj[x]| ensures adj[x][k] < |ms| {
      assert adj[x][k] in adj[x];
    }
  }

  lemma {:induction false} PopKeepsHeap(ms: seq<Migration>, heap: set<nat>, d: seq<nat>, left: set<Migration>, x: nat)
    requires Distinct(ms) && HeapTracks(ms, heap, d, left) && x in heap
    ensures HeapTracks(ms, heap - {x}, d, left - {ms[x]})
  {
    DistinctIsUnambiguous(ms);
  }

  lemma {:induction false} PopLeast(ms: seq<Migration>, adj: seq<seq<nat>>, heap: set<nat>, d: seq<nat>,
        placed: seq<Migration>, left: set<Migration>, x: nat)
    requires Distinct(ms) && Lists(adj, ms, |ms|, 0) && Sorting(ms, heap, d, placed, left) && MinimumOf(ms, heap, x)
    ensures ms[x] in left && Indexes(ms, adj[x])
    ensures Releasing(ms, d, left - {ms[x]}, adj[x])
    ensures HeapTracks(ms, heap - {x}, d, left - {ms[x]})
    ensures Progress(ms, placed + [ms[x]], left - {ms[x]})
  {
    assert Releasing(ms, d, left - {ms[x]}, adj[x]) by {
      DistinctIsUnambiguous(ms);
      BeginRelease(ms, adj, d, left, x);
    }
    assert Progress(ms, placed + [ms[x]], left - {ms[x]}) by {
      HeapHoldsReady(ms, heap, d, placed, left);
      HeapMinimum(ms, heap, Ready(left), x);
      PlaceLeast(ms, placed, left, ms[x]);
    }
    PopKeepsHeap(ms, heap, d, left, x);
    ListedAreIndexes(ms, adj, x);
  }

  /** One round of the loop: pop the least, place it, release its dependents. */
  method PlaceNext(ms: seq<Migration>, adj: seq<seq<nat>>, inDegree: array<nat>, heap: set<nat>,
                   placed: seq<Migration>, ghost left: set<Migration>)
    returns (x: nat, after: set<nat>)
    requires Distinct(ms) && inDegree.Length == |ms| && Lists(adj, ms, |ms|, 0)
    requires heap != {} && Sorting(ms, heap, inDegree[..], placed, left)
    modifies inDegree
    ensures x < |ms| && ms[x] in left
    ensures Sorting(ms, after, inDegree[..], placed + [ms[x]], left - {ms[x]})
  {
    MinimumExists(ms, heap, inDegree[..], placed, left);
    x :| x in heap && MinimumOf(ms, heap, x);
    PopLeast(ms, adj, heap, inDegree[..], placed, left, x);
    after := Release(ms, adj[x], inDegree, heap - {x}, left - {ms[x]});
  }

  lemma {:induction false} SortStarts(ms: seq<Migration>, heap: set<nat>, d: seq<nat>)
    requires Distinct(ms) && DegreesTrack(ms, d, AllOf(ms))
    requires forall i: nat :: i in heap <==> i < |ms| && d[i] == 0
    ensures Sorting(ms, heap, d, [], AllOf(ms))
  {
    SizeOfAll(ms);
    assert [] + Plan(AllOf(ms)) == Plan(AllOf(ms));
  }

  lemma {:induction false} SortEnds(ms: seq<Migration>, d: seq<nat>, placed: seq<Migration>, left: set<Migration>)
    requires Sorting(ms, {}, d, placed, left)
    ensures left == Stuck(AllOf(ms)) && placed == Plan(AllOf(ms))
    ensures |placed| == |ms| <==> left == {}
    ensures forall i :: 0 <= i < |ms| ==> (d[i] > 0 <==> ms[i] in left)
  {
    HeapHoldsReady(ms, {}, d, placed, left);
    EmptyHeapHoldsNothing(ms, {}, Ready(left));
    forall i | 0 <= i < |ms| ensures d[i] > 0 <==> ms[i] in left {
      ZeroMeansReady(ms, d, left, i);
    }
    assert placed + [] == placed;
  }

  method KahnSort(ms: seq<Migration>, adj: seq<seq<nat>>, inDegree: array<nat>, byRef: map<Ref, nat>)
    returns (r: Result<seq<Migration>, DagError>)
    requires Distinct(ms) && byRef == RefIndex(ms) && inDegree.Length == |ms|
    requires Lists(adj, ms, |ms|, 0) && DegreesTrack(ms, inDegree[..], AllOf(ms))
    modifies inDegree
    ensures r.Ok? <==> Stuck(AllOf(ms)) == {}
    ensures r.Ok? ==> r.value == Plan(AllOf(ms))
    ensures r.Err? ==> r.error.Cycle? && CycleReport(ms, Stuck(AllOf(ms)), r.error.path)
  {
    var heap: set<nat> := set i: nat | i < |ms| && inDegree[i] == 0;
    var result := [];
    ghost var left := AllOf(ms);
    SortStarts(ms, heap, inDegree[..]);
    while heap != {}
      invariant Sorting(ms, heap, inDegree[..], result, left)
      decreases |left|
    {
      var x;
      x, heap := PlaceNext(ms, adj, inDegree, heap, result, left);
      result := result + [ms[x]];
      left := left - {ms[x]};
    }
    SortEnds(ms, inDegree[..], result, left);
    if |result| != |ms| {
      var path := FindFirstCycle(ms, inDegree[..], byRef, left);
      return Err(Cycle(path));
    }
    return Ok(result);
  }

  // ------------------------------------------------------------ naming the cycle

  /** The migrations of `s` in registration order. */
  ghost function InOrder(ms: seq<Migration>, s: set<Migration>): seq<Migration> {
    if ms == [] then []
    else InOrder(ms[..|ms| - 1], s) + (if ms[|ms| - 1] in s then [ms[|ms| - 1]] else [])
  }

  /** `path` names a cycle of dependencies within `s`. */
  ghost predicate NamesCycle(s: set<Migration>, path: seq<Ref>) {
    exists c :: IsCycle(c) && Within(c, s) && Ids(c) == path
  }

  /** Going from dependency to dependent within `s`, from `m`, one can come back to
      a place one has been. */
  ghost predicate ReachesCycle(s: set<Migration>, m: Migration) {
    exists w :: w != [] && w[0] == m && Within(w, s) && Comes(w)
  }

  ghost predicate Comes(w: seq<Migration>) {
    && (forall k :: 0 <= k < |w| - 1 ==> w[k + 1].DependsOn(w[k]))
    && exists i, j :: 0 <= i < j < |w| && w[i] == w[j]
  }

  /** What the cycle error tells of the stuck migrations: it names a cycle exactly
      when the first of them, in registration order, reaches one; otherwise it just
      lists them all. */
  ghost predicate CycleReport(ms: seq<Migration>, stuck: set<Migration>, path: seq<Ref>) {
    && InOrder(ms, stuck) != []
    && (NamesCycle(stuck, path) <==> ReachesCycle(stuck, InOrder(ms, stuck)[0]))
    && (!NamesCycle(stuck, path) ==> path == Ids(InOrder(ms, stuck)))
  }

  function At(ms: seq<Migration>, w: seq<nat>): (r: seq<Migration>)
    requires Indexes(ms, w)
    ensures |r| == |w| && forall k :: 0 <= k < |w| ==> r[k] == ms[w[k]]
  {
    seq(|w|, k requires 0 <= k < |w| => ms[w[k]])
  }

  /** `rem` holds the positions of `stuck`. */
  ghost predicate Positions(ms: seq<Migration>, rem: set<nat>, stuck: set<Migration>) {
    && stuck <= AllOf(ms)
    && (forall i :: i in rem ==> i < |ms|)
    && (forall i :: 0 <= i < |ms| ==> (i in rem <==> ms[i] in stuck))
  }

  /** The edges from dependency to dependent within `rem`. */
  ghost predicate EdgesWithin(ms: seq<Migration>, adj: Edges, rem: set<nat>)
    requires forall i :: i in rem ==> i < |ms|
  {
    forall j: nat, i: nat :: i in Dependents(adj, j) <==> j in rem && i in rem && ms[i].DependsOn(ms[j])
  }

  lemma {:induction false} WalksStayWithin(ms: seq<Migration>, adj: Edges, rem: set<nat>, w: seq<nat>)
    requires forall i :: i in rem ==> i < |ms|
    requires EdgesWithin(ms, adj, rem) && Walk(adj, w) && w[0] in rem
    ensures forall k :: 0 <= k < |w| ==> w[k] in rem
    ensures Indexes(ms, w)
    ensures forall k :: 0 <= k < |w| - 1 ==> ms[w[k + 1]].DependsOn(ms[w[k]])
  {
    forall k | 0 <= k < |w| ensures w[k] in rem {
      if k > 0 { assert w[k - 1 + 1] in Dependents(adj, w[k - 1]); }
    }
  }

  lemma {:induction false} WalkIsWithin(ms: seq<Migration>, rem: set<nat>, stuck: set<Migration>, w: seq<nat>)
    requires Positions(ms, rem, stuck) && forall k :: 0 <= k < |w| ==> w[k] in rem
    ensures Indexes(ms, w) && Within(At(ms, w), stuck)
  {
    assert forall k :: 0 <= k < |w| ==> At(ms, w)[k] in stuck;
  }

  lemma {:induction false} LassoReaches(ms: seq<Migration>, adj: Edges, rem: set<nat>, stuck: set<Migration>,
        start: nat)
    requires Positions(ms, rem, stuck) && EdgesWithin(ms, adj, rem) && start in rem && LeadsIntoCycle(adj, start)
    ensures ReachesCycle(stuck, ms[start])
  {
    var w :| Lasso(adj, w) && w[0] == start;
    WalksStayWithin(ms, adj, rem, w);
    WalkIsWithin(ms, rem, stuck, w);
    var m := At(ms, w);
    assert Comes(m) by {
      var i, j :| 0 <= i < j < |w| && w[i] == w[j];
      assert m[i] == m[j];
    }
    assert m != [] && m[0] == ms[start];
  }

  ghost function PositionOf(ms: seq<Migration>, m: Migration): (i: nat)
    requires m in ms
    ensures i < |ms| && ms[i] == m
  {
    var i :| 0 <= i < |ms| && ms[i] == m;
    i
  }

  ghost function PositionsOf(ms: seq<Migration>, m: seq<Migration>): (w: seq<nat>)
    requires forall k :: 0 <= k < |m| ==> m[k] in ms
    ensures |w| == |m| && forall k :: 0 <= k < |m| ==> w[k] == PositionOf(ms, m[k])
  {
    seq(|m|, k requires 0 <= k < |m| => PositionOf(ms, m[k]))
  }

  lemma {:induction false} PositionsWalk(ms: seq<Migration>, adj: Edges, rem: set<nat>, stuck: set<Migration>,
        m: seq<Migration>)
    requires Positions(ms, rem, stuck) && EdgesWithin(ms, adj, rem) && m != []
    requires forall k :: 0 <= k < |m| ==> m[k] in ms && m[k] in stuck
    requires forall k :: 0 <= k < |m| - 1 ==> m[k + 1].DependsOn(m[k])
    ensures Walk(adj, PositionsOf(ms, m))
  {
    var w := PositionsOf(ms, m);
    forall k | 0 <= k < |w| - 1 ensures w[k + 1] in Dependents(adj, w[k]) {
      assert m[k + 1].DependsOn(m[k]);
    }
  }

  lemma {:induction false} ReachingIsLasso(ms: seq<Migration>, adj: Edges, rem: set<nat>, stuck: set<Migration>,
        start: nat, m: seq<Migration>)
    requires Distinct(ms) && Positions(ms, rem, stuck) && EdgesWithin(ms, adj, rem) && start in rem
    requires m != [] && m[0] == ms[start] && Within(m, stuck) && Comes(m)
    ensures LeadsIntoCycle(adj, start)
  {
    forall k | 0 <= k < |m| ensures m[k] in ms && m[k] in stuck {
      assert m[k] in m && m[k] in AllOf(ms);
    }
    PositionsWalk(ms, adj, rem, stuck, m);
    var w := PositionsOf(ms, m);
    var i, j :| 0 <= i < j < |m| && m[i] == m[j];
    assert w[i] == w[j];
    assert w[0] == start by { DistinctIsUnambiguous(ms); }
    assert Lasso(adj, w);
  }

  lemma {:induction false} ClosedWalkNames(ms: seq<Migration>, adj: Edges, rem: set<nat>, stuck: set<Migration>,
        c: seq<nat>)
    requires Positions(ms, rem, stuck) && EdgesWithin(ms, adj, rem) && ClosedWalk(adj, c)
    ensures Indexes(ms, c)
    ensures NamesCycle(stuck, Ids(At(ms, c)))
  {
    WalksStayWithin(ms, adj, rem, c);
    var m := At(ms, c);
    forall k | 0 <= k < |m| ensures m[Next(k, |m|)].DependsOn(m[k]) {
    }
    assert IsCycle(m) && Within(m, stuck);
  }

  lemma {:induction false} InOrderIsWithin(ms: seq<Migration>, s: set<Migration>)
    ensures forall m :: m in InOrder(ms, s) <==> m in ms && m in s
  {
    if ms != [] {
      InOrderIsWithin(ms[..|ms| - 1], s);
      assert ms == ms[..|ms| - 1] + [ms[|ms| - 1]];
    }
  }

  lemma {:induction false} CycleReachesItself(c: seq<Migration>, s: set<Migration>)
    requires IsCycle(c) && Within(c, s)
    ensures ReachesCycle(s, c[0])
  {
    var w := c + [c[0]];
    forall k | 0 <= k < |w| - 1 ensures w[k + 1].DependsOn(w[k]) {
      assert c[Next(k, |c|)].DependsOn(c[k]);
    }
    assert w[0] == w[|c|];
    assert Comes(w) && Within(w, s);
  }

  /** Were the whole list a cycle, its first entry would reach one. */
  lemma {:induction false} ListedCycleIsReached(ms: seq<Migration>, stuck: set<Migration>)
    requires Distinct(ms) && stuck <= AllOf(ms) && InOrder(ms, stuck) != []
    requires NamesCycle(stuck, Ids(InOrder(ms, stuck)))
    ensures ReachesCycle(stuck, InOrder(ms, stuck)[0])
  {
    var list := InOrder(ms, stuck);
    var c: seq<Migration> :| IsCycle(c) && Within(c, stuck) && Ids(c) == Ids(list);
    CycleReachesItself(c, stuck);
    InOrderIsWithin(ms, stuck);
    assert c[0] == list[0] by {
      DistinctIsUnambiguous(ms);
      assert Ids(c)[0] == Ids(list)[0] && list[0] in list;
      assert c[0] in AllOf(ms) && list[0] in AllOf(ms);
    }
  }

  method Remaining(ms: seq<Migration>, d: seq<nat>, ghost stuck: set<Migration>) returns (remaining: seq<nat>)
    requires |d| == |ms| && forall i :: 0 <= i < |ms| ==> (d[i] > 0 <==> ms[i] in stuck)
    ensures Indexes(ms, remaining) && forall i: nat :: i in remaining <==> i < |ms| && ms[i] in stuck
    ensures At(ms, remaining) == InOrder(ms, stuck)
  {
    remaining := [];
    for i := 0 to |ms|
      invariant Indexes(ms, remaining) && forall j: nat :: j in remaining <==> j < i && ms[j] in stuck
      invariant At(ms, remaining) == InOrder(ms[..i], stuck)
    {
      assert ms[..i + 1][..i] == ms[..i];
      if d[i] > 0 {
        assert At(ms, remaining + [i]) == At(ms, remaining) + [ms[i]];
        remaining := remaining + [i];
      }
    }
    assert ms[..|ms|] == ms;
  }

  ghost predicate Represents(adj: Edges, edges: set<(nat, nat)>) {
    forall j: nat, i: nat :: i in Dependents(adj, j) <==> (j, i) in edges
  }

  ghost predicate IsEdge(ms: seq<Migration>, remaining: seq<nat>, j: nat, i: nat)
    requires Indexes(ms, remaining)
  {
    j in remaining && i in remaining && ms[i].DependsOn(ms[j])
  }

  ghost predicate OnlyEdges(ms: seq<Migration>, remaining: seq<nat>, edges: set<(nat, nat)>)
    requires Indexes(ms, remaining)
  {
    forall j: nat, i: nat :: (j, i) in edges ==> IsEdge(ms, remaining, j, i)
  }

  ghost predicate AllEdgesInto(ms: seq<Migration>, remaining: seq<nat>, edges: set<(nat, nat)>, i: nat)
    requires Indexes(ms, remaining)
  {
    forall j: nat :: IsEdge(ms, remaining, j, i) ==> (j, i) in edges
  }

  ghost predicate EdgesIntoBy(ms: seq<Migration>, remaining: seq<nat>, edges: set<(nat, nat)>, i: nat, deps: seq<Ref>)
    requires Indexes(ms, remaining)
  {
    forall j: nat :: IsEdge(ms, remaining, j, i) && ms[j].Id() in deps ==> (j, i) in edges
  }

  lemma {:induction false} NextDependency(ms: seq<Migration>, remaining: seq<nat>, edges: set<(nat, nat)>, i: nat,
        k: nat, more: set<(nat, nat)>)
    requires Distinct(ms) && Indexes(ms, remaining) && i in remaining && k < |ms[i].dependencies|
    requires EdgesIntoBy(ms, remaining, edges, i, ms[i].dependencies[..k]) && edges <= more
    requires var d := ms[i].dependencies[k];
      d in RefIndex(ms) && RefIndex(ms)[d] in remaining ==> (RefIndex(ms)[d], i) in more
    ensures EdgesIntoBy(ms, remaining, more, i, ms[i].dependencies[..k + 1])
  {
    var deps := ms[i].dependencies;
    assert deps[..k + 1] == deps[..k] + [deps[k]];
    forall j: nat | j in remaining && ms[j].Id() == deps[k] ensures (j, i) in more {
      assert Ids(ms)[j] in Ids(ms);
      assert j == RefIndex(ms)[deps[k]];
    }
  }

  lemma {:induction false} EdgeAdded(ms: seq<Migration>, remaining: seq<nat>, adj: Edges, edges: set<(nat, nat)>,
        j: nat, i: nat)
    requires Indexes(ms, remaining) && Represents(adj, edges) && OnlyEdges(ms, remaining, edges)
    requires IsEdge(ms, remaining, j, i)
    ensures Represents(adj[j := Dependents(adj, j) + [i]], edges + {(j, i)})
    ensures OnlyEdges(ms, remaining, edges + {(j, i)})
  {
  }

  /** The inner loop: edges into `i` from what remains. */
  method EdgesInto(ms: seq<Migration>, byRef: map<Ref, nat>, remaining: seq<nat>, i: nat, adj: Edges,
        ghost edges: set<(nat, nat)>)
    returns (after: Edges, ghost more: set<(nat, nat)>)
    requires Distinct(ms) && byRef == RefIndex(ms) && Indexes(ms, remaining) && i in remaining
    requires Represents(adj, edges) && OnlyEdges(ms, remaining, edges)
    ensures Represents(after, more) && OnlyEdges(ms, remaining, more)
    ensures edges <= more && AllEdgesInto(ms, remaining, more, i)
  {
    after, more := adj, edges;
    var deps := ms[i].dependencies;
    for k := 0 to |deps|
      invariant Represents(after, more) && OnlyEdges(ms, remaining, more) && edges <= more
      invariant EdgesIntoBy(ms, remaining, more, i, deps[..k])
    {
      ghost var before := more;
      if deps[k] in byRef && byRef[deps[k]] in remaining {
        var j := byRef[deps[k]];
        EdgeAdded(ms, remaining, after, more, j, i);
        after := after[j := Dependents(after, j) + [i]];
        more := more + {(j, i)};
      }
      NextDependency(ms, remaining, before, i, k, more);
    }
    assert deps[..|deps|] == deps;
  }

  method RemainingEdges(ms: seq<Migration>, byRef: map<Ref, nat>, remaining: seq<nat>) returns (adj: Edges)
    requires Distinct(ms) && byRef == RefIndex(ms) && Indexes(ms, remaining)
    ensures EdgesWithin(ms, adj, set i | i in remaining)
  {
    adj := map[];
    ghost var edges: set<(nat, nat)> := {};
    for n := 0 to |remaining|
      invariant Represents(adj, edges) && OnlyEdges(ms, remaining, edges)
      invariant forall m :: 0 <= m < n ==> AllEdgesInto(ms, remaining, edges, remaining[m])
    {
      adj, edges := EdgesInto(ms, byRef, remaining, remaining[n], adj, edges);
    }
    EdgesAreRight(ms, adj, remaining, edges);
  }

  lemma {:induction false} EdgesAreRight(ms: seq<Migration>, adj: Edges, remaining: seq<nat>, edges: set<(nat, nat)>)
    requires Indexes(ms, remaining) && Represents(adj, edges) && OnlyEdges(ms, remaining, edges)
    requires forall m :: 0 <= m < |remaining| ==> AllEdgesInto(ms, remaining, edges, remaining[m])
    ensures EdgesWithin(ms, adj, set i | i in remaining)
  {
    forall j: nat, i: nat
      ensures i in Dependents(adj, j) <==> IsEdge(ms, remaining, j, i)
    {
      if IsEdge(ms, remaining, j, i) {
        var m :| 0 <= m < |remaining| && remaining[m] == i;
        assert AllEdgesInto(ms, remaining, edges, remaining[m]);
      }
    }
  }

  /** The search from the first of what remains. */
  method SearchFrom(ms: seq<Migration>, adj: Edges, start: nat, ghost rem: set<nat>, ghost stuck: set<Migration>)
    returns (cycle: Option<seq<nat>>)
    requires Distinct(ms) && Positions(ms, rem, stuck) && EdgesWithin(ms, adj, rem) && start in rem
    ensures cycle.Some? ==> Indexes(ms, cycle.value) && NamesCycle(stuck, Ids(At(ms, cycle.value)))
    ensures cycle.Some? <==> ReachesCycle(stuck, ms[start])
  {
    assert Closed(adj, rem) by {
      forall j, i | j in adj && i in adj[j] ensures i in rem {
        assert i in Dependents(adj, j);
      }
    }
    var search := new Search(adj, rem);
    cycle := search.Visit(start);
    if cycle.Some? {
      ClosedWalkNames(ms, adj, rem, stuck, cycle.value);
      assert ([] + [start])[0] == start;
      LassoReaches(ms, adj, rem, stuck, start);
    } else {
      NothingReached(ms, adj, rem, stuck, start, search.finished);
    }
  }

  method FindFirstCycle(ms: seq<Migration>, d: seq<nat>, byRef: map<Ref, nat>, ghost stuck: set<Migration>)
    returns (path: seq<Ref>)
    requires Distinct(ms) && byRef == RefIndex(ms) && stuck <= AllOf(ms)
    requires |d| == |ms| && forall i :: 0 <= i < |ms| ==> (d[i] > 0 <==> ms[i] in stuck)
    ensures stuck == {} ==> path == []
    ensures stuck != {} ==> CycleReport(ms, stuck, path)
  {
    var remaining := Remaining(ms, d, stuck);
    ghost var list := InOrder(ms, stuck);
    assert |list| == |remaining|;
    InOrderIsWithin(ms, stuck);
    if remaining == [] {
      assert forall m :: m in stuck ==> m in AllOf(ms) && m in list;
      return [];
    }
    var start := remaining[0];
    assert list[0] == ms[start];
    var adj := RemainingEdges(ms, byRef, remaining);
    var cycle := SearchFrom(ms, adj, start, (set i | i in remaining), stuck);
    if cycle.Some? {
      return Ids(At(ms, cycle.value));
    }
    if NamesCycle(stuck, Ids(list)) { ListedCycleIsReached(ms, stuck); }
    return Ids(At(ms, remaining));
  }

  lemma {:induction false} NothingReached(ms: seq<Migration>, adj: Edges, rem: set<nat>, stuck: set<Migration>,
        start: nat, f: seq<nat>)
    requires Distinct(ms) && Positions(ms, rem, stuck) && EdgesWithin(ms, adj, rem) && start in rem
    requires Finished(adj, f) && start in f && forall a, b :: 0 <= a < b < |f| ==> f[a] != f[b]
    ensures !ReachesCycle(stuck, ms[start])
  {
    var p :| 0 <= p < |f| && f[p] == start;
    forall w | Walk(adj, w) && w[0] == start ensures !Lasso(adj, w) {
      FinishedLeadsNowhere(adj, f, w, p);
    }
    assert !LeadsIntoCycle(adj, start);
    forall m | m != [] && m[0] == ms[start] && Within(m, stuck) ensures !Comes(m) {
      if Comes(m) { ReachingIsLasso(ms, adj, rem, stuck, start, m); }
    }
  }

  // ------------------------------------------------------------ resolve

  /** `dag::resolve`. It succeeds exactly on well-formed, acyclic input, and its
      answer depends only on which migrations are registered. */
  method Resolve(ms: seq<Migration>) returns (r: Result<seq<Migration>, DagError>)
    ensures r.Ok? <==> WellFormed(ms) && Stuck(AllOf(ms)) == {}
    ensures r.Ok? ==> r.value == Plan(AllOf(ms))
    ensures r.Err? ==> Explains(r.error, ms)
    ensures r.Err? && r.error.Cycle? ==> CycleReport(ms, Stuck(AllOf(ms)), r.error.path)
  {
    if ms == [] {
      assert AllOf(ms) == {};
      return Ok([]);
    }
    var e := CheckDuplicates(ms);
    if e.Some? { return Err(e.value); }
    var byRef := RefIndex(ms);
    e := CheckDanglingRefs(ms, byRef);
    if e.Some? { return Err(e.value); }
    e := CheckCrossTargetViolations(ms, byRef);
    if e.Some? { return Err(e.value); }
    var adj, inDegree := BuildAdjacency(ms, byRef);
    forall i | 0 <= i < |ms| ensures inDegree[..][i] == Waiting(ms[i].dependencies, AllOf(ms)) {
      assert KnowsAll(ms, ms[i]);
      AllWaiting(ms[i].dependencies, ms);
    }
    r := KahnSort(ms, adj, inDegree, byRef);
  }

  // ------------------------------------------------------------ what it depends on

  lemma {:induction false} AllOfAppend(ms: seq<Migration>)
    requires ms != []
    ensures var n := |ms| - 1;
      ms == ms[..n] + [ms[n]] && AllOf(ms) == AllOf(ms[..n]) + {ms[n]}
  {
  }

  lemma {:induction false} NoMoreThanListed(ms: seq<Migration>)
    ensures |AllOf(ms)| <= |ms|
  {
    if ms != [] {
      AllOfAppend(ms);
      NoMoreThanListed(ms[..|ms| - 1]);
    }
  }

  lemma {:induction false} UnambiguousIsDistinct(ms: seq<Migration>)
    requires Unambiguous(AllOf(ms)) && |AllOf(ms)| == |ms|
    ensures Distinct(ms)
  {
    if ms != [] {
      var n := |ms| - 1;
      AllOfAppend(ms);
      NoMoreThanListed(ms[..n]);
      UnambiguousIsDistinct(ms[..n]);
      forall i | 0 <= i < n ensures ms[i].Id() != ms[n].Id() {
        assert ms[..n][i] == ms[i] && ms[i] in AllOf(ms[..n]) && ms[n] !in AllOf(ms[..n]);
      }
      forall i, j | 0 <= i < j < |ms| ensures ms[i].Id() != ms[j].Id() {
        if j < n { assert ms[..n][i] == ms[i] && ms[..n][j] == ms[j]; }
      }
    }
  }

  lemma {:induction false} DistinctIff(ms: seq<Migration>)
    ensures Distinct(ms) <==> Unambiguous(AllOf(ms)) && |AllOf(ms)| == |ms|
  {
    if Distinct(ms) {
      SizeOfAll(ms);
      DistinctIsUnambiguous(ms);
    }
    if Unambiguous(AllOf(ms)) && |AllOf(ms)| == |ms| {
      UnambiguousIsDistinct(ms);
    }
  }

  lemma {:induction false} SameChecks(ms: seq<Migration>, other: seq<Migration>)
    requires AllOf(ms) == AllOf(other) && Known(ms, |ms|) && KeepsTargets(ms, |ms|)
    ensures Known(other, |other|) && KeepsTargets(other, |other|)
  {
    forall d | d in Ids(ms) ensures d in Ids(other) {
      var i :| 0 <= i < |ms| && Ids(ms)[i] == d;
      assert ms[i] in AllOf(other);
      var j :| 0 <= j < |other| && other[j] == ms[i];
      assert Ids(other)[j] == d;
    }
    forall j | 0 <= j < |other| ensures KnowsAll(other, other[j]) && KeepsTarget(other, other[j]) {
      assert other[j] in AllOf(ms);
      var i :| 0 <= i < |ms| && ms[i] == other[j];
      assert KnowsAll(ms, ms[i]) && KeepsTarget(ms, ms[i]);
      assert forall x :: x in other ==> x in AllOf(ms);
    }
  }

  /** The order of registration decides neither whether resolution succeeds nor
      what order it gives. */
  lemma {:induction false} RegistrationOrderIsIrrelevant(ms: seq<Migration>, other: seq<Migration>)
    requires multiset(ms) == multiset(other)
    ensures AllOf(ms) == AllOf(other)
    ensures WellFormed(ms) <==> WellFormed(other)
  {
    forall m ensures m in ms <==> m in other {
      assert m in ms <==> m in multiset(ms);
      assert m in other <==> m in multiset(other);
    }
    assert |ms| == |multiset(ms)| == |multiset(other)| == |other|;
    DistinctIff(ms);
    DistinctIff(other);
    if WellFormed(ms) { SameChecks(ms, other); }
    if WellFormed(other) { SameChecks(other, ms); }
  }

  lemma {:induction false} DependentsAreStuck(w: seq<Migration>, all: set<Migration>, k: nat)
    requires k < |w| && w[0] in Stuck(all) && Within(w, all)
    requires forall i :: 0 <= i < |w| - 1 ==> w[i + 1].DependsOn(w[i])
    ensures w[k] in Stuck(all)
  {
    if k > 0 {
      DependentsAreStuck(w, all, k - 1);
      assert w[k - 1 + 1].DependsOn(w[k - 1]) && w[k] in w && w[k - 1] in w;
      assert Path([w[k], w[k - 1]], all);
      StuckSpreads([w[k], w[k - 1]], all);
    }
  }

  lemma {:induction false} ReachesCycleInTheGraph(all: set<Migration>, m: Migration)
    requires m in Stuck(all)
    ensures ReachesCycle(Stuck(all), m) <==> ReachesCycle(all, m)
  {
    StuckIsBlocked(all);
    if ReachesCycle(all, m) {
      var w :| w != [] && w[0] == m && Within(w, all) && Comes(w);
      forall x | x in w ensures x in Stuck(all) {
        var k :| 0 <= k < |w| && w[k] == x;
        DependentsAreStuck(w, all, k);
      }
      assert Within(w, Stuck(all));
    }
    if ReachesCycle(Stuck(all), m) {
      var w :| w != [] && w[0] == m && Within(w, Stuck(all)) && Comes(w);
      assert Within(w, all);
    }
  }

  lemma {:induction false} NamedCyclesAreStuck(all: set<Migration>, path: seq<Ref>)
    ensures NamesCycle(Stuck(all), path) <==> NamesCycle(all, path)
  {
    StuckIsBlocked(all);
    if NamesCycle(all, path) {
      var c :| IsCycle(c) && Within(c, all) && Ids(c) == path;
      CyclesAreStuck(c, all);
    }
    if NamesCycle(Stuck(all), path) {
      var c :| IsCycle(c) && Within(c, Stuck(all)) && Ids(c) == path;
      assert Within(c, all);
    }
  }

  /** `m` is the first registered member of `s`, at position `i`. */
  ghost predicate FirstAt(ms: seq<Migration>, s: set<Migration>, i: nat, m: Migration) {
    i < |ms| && ms[i] == m && m in s && forall j :: 0 <= j < i ==> ms[j] !in s
  }

  lemma {:induction false} FirstInOrder(ms: seq<Migration>, s: set<Migration>) returns (i: nat)
    ensures InOrder(ms, s) != [] ==> FirstAt(ms, s, i, InOrder(ms, s)[0])
    ensures InOrder(ms, s) == [] ==> forall j :: 0 <= j < |ms| ==> ms[j] !in s
  {
    i := 0;
    if ms != [] {
      var n := |ms| - 1;
      i := FirstInOrder(ms[..n], s);
      assert forall j :: 0 <= j < n ==> ms[..n][j] == ms[j];
      if InOrder(ms[..n], s) == [] { i := n; }
    }
  }

  /** What the cycle error says is up to the dependencies and the order of registration:
      it names a cycle exactly when the first migration that is on a cycle or needs one
      can reach one by going from dependency to dependent. */
  lemma {:induction false} CycleIsNamedIff(ms: seq<Migration>, path: seq<Ref>) returns (i: nat)
    requires CycleReport(ms, Stuck(AllOf(ms)), path)
    ensures i < |ms| && NeedsCycle(ms[i], AllOf(ms))
    ensures forall j :: 0 <= j < i ==> !NeedsCycle(ms[j], AllOf(ms))
    ensures NamesCycle(AllOf(ms), path) <==> ReachesCycle(AllOf(ms), ms[i])
  {
    var all := AllOf(ms);
    i := FirstInOrder(ms, Stuck(all));
    forall j | 0 <= j <= i ensures ms[j] in Stuck(all) <==> NeedsCycle(ms[j], all) {
      StuckIffNeedsCycle(all, ms[j]);
    }
    ReachesCycleInTheGraph(all, ms[i]);
    NamedCyclesAreStuck(all, path);
  }

  lemma {:induction false} NobodyDependsOnIt(s: set<Migration>, m: Migration)
    requires forall x :: x in s ==> !x.DependsOn(m)
    ensures !ReachesCycle(s, m)
  {
    forall w: seq<Migration> | w != [] && w[0] == m && Within(w, s) ensures !Comes(w) {
      if |w| > 1 {
        assert w[1] in w;
        assert !w[0 + 1].DependsOn(w[0]);
      }
    }
  }

  lemma {:induction false} InOrderOfAll(ms: seq<Migration>, s: set<Migration>)
    requires Within(ms, s)
    ensures InOrder(ms, s) == ms
  {
    if ms != [] {
      var n := |ms| - 1;
      assert ms == ms[..n] + [ms[n]];
      InOrderOfAll(ms[..n], s);
    }
  }

  lemma {:induction false} FirstOfThreeIsNotOnTheCycle(a: Migration, b: Migration, c: Migration)
    requires a.DependsOn(b) && b.DependsOn(c) && c.DependsOn(b)
    requires !a.DependsOn(a) && !b.DependsOn(a) && !c.DependsOn(a)
    ensures var stuck := Stuck(AllOf([a, b, c]));
      && stuck == {a, b, c} && InOrder([a, b, c], stuck) == [a, b, c] && !ReachesCycle(stuck, a)
  {
    var all := AllOf([a, b, c]);
    assert all == {a, b, c};
    assert Blocked(a, all) && Blocked(b, all) && Blocked(c, all);
    assert Ready(all) == {};
    InOrderOfAll([a, b, c], all);
    NobodyDependsOnIt(all, a);
  }

  lemma {:induction false} ThreeMetaAreWellFormed(a: Migration, b: Migration, c: Migration)
    requires a.target.Meta? && b.target.Meta? && c.target.Meta?
    requires a.Id() != b.Id() && a.Id() != c.Id() && b.Id() != c.Id()
    requires a.dependencies == [b.Id()] && b.dependencies == [c.Id()] && c.dependencies == [b.Id()]
    ensures WellFormed([a, b, c])
  {
    assert Ids([a, b, c])[1] == b.Id() && Ids([a, b, c])[2] == c.Id();
  }

  /** The cycle error need not name a cycle: these three pass every check before it,
      `a` only depends on the cycle and was registered first, and the error lists all
      three. */
  lemma {:induction false} CycleErrorMayNameNoCycle(graft: string)
    ensures var a := Migration(graft, "a", Meta, [Ref(graft, "b")]);
      var b := Migration(graft, "b", Meta, [Ref(graft, "c")]);
      var c := Migration(graft, "c", Meta, [Ref(graft, "b")]);
      var stuck := Stuck(AllOf([a, b, c]));
      && WellFormed([a, b, c]) && stuck == {a, b, c} && !ReachesCycle(stuck, a)
      && forall path :: CycleReport([a, b, c], stuck, path) ==>
           path == Ids([a, b, c]) && !NamesCycle(stuck, path)
  {
    var a := Migration(graft, "a", Meta, [Ref(graft, "b")]);
    var b := Migration(graft, "b", Meta, [Ref(graft, "c")]);
    var c := Migration(graft, "c", Meta, [Ref(graft, "b")]);
    ThreeMetaAreWellFormed(a, b, c);
    FirstOfThreeIsNotOnTheCycle(a, b, c);
  }
}
