/** The order migrations run in: among those whose dependencies are all placed,
    the one with the least key goes next. */
module MigrationOrder {
  import S = StableSort

  datatype Target = Meta | Session | PerProfile | Backup {
    function Rank(): nat {
      match this
      case Meta => 0
      case Session => 1
      case PerProfile => 2
      case Backup => 3
    }
  }

  datatype Ref = Ref(graft: string, name: string)

  datatype Migration = Migration(graft: string, name: string, target: Target, dependencies: seq<Ref>) {
    function Id(): Ref {
      Ref(graft, name)
    }

    predicate DependsOn(other: Migration) {
      other.Id() in dependencies
    }
  }

  // ------------------------------------------------------------ the key order

  /** By target, then graft, then name. */
  predicate Before(a: Migration, b: Migration) {
    if a.target != b.target then a.target.Rank() < b.target.Rank()
    else if a.graft != b.graft then S.Le(a.graft, b.graft)
    else S.Le(a.name, b.name)
  }

  lemma {:induction false} BeforeTotal(a: Migration, b: Migration)
    ensures Before(a, b) || Before(b, a)
  {
    S.LeTotal(a.graft, b.graft);
    S.LeTotal(a.name, b.name);
  }

  lemma {:induction false} BeforeTransitive(a: Migration, b: Migration, c: Migration)
    requires Before(a, b) && Before(b, c)
    ensures Before(a, c)
  {
    if a.target == b.target == c.target {
      if S.Le(a.graft, b.graft) && S.Le(b.graft, a.graft) { S.LeAntisymmetric(a.graft, b.graft); }
      if a.graft != b.graft && b.graft != c.graft { S.LeTransitive(a.graft, b.graft, c.graft); }
      if a.graft == b.graft == c.graft { S.LeTransitive(a.name, b.name, c.name); }
    }
  }

  lemma {:induction false} BeforeAntisymmetric(a: Migration, b: Migration)
    requires Before(a, b) && Before(b, a)
    ensures a.Id() == b.Id()
  {
    if a.graft != b.graft { S.LeAntisymmetric(a.graft, b.graft); }
    S.LeAntisymmetric(a.name, b.name);
  }

  ghost predicate IsLeast(m: Migration, s: set<Migration>) {
    m in s && forall x :: x in s ==> Before(m, x)
  }

  lemma {:induction false} LeastExists(s: set<Migration>)
    requires s != {}
    ensures exists m :: IsLeast(m, s)
  {
    var x :| x in s;
    BeforeTotal(x, x);
    var rest := s - {x};
    if rest == {} {
      assert s == {x};
      assert IsLeast(x, s);
    } else {
      LeastExists(rest);
      var m :| IsLeast(m, rest);
      BeforeTotal(x, m);
      if Before(m, x) {
        assert IsLeast(m, s);
      } else {
        forall y | y in s ensures Before(x, y) {
          if y != x { BeforeTransitive(x, m, y); }
        }
        assert IsLeast(x, s);
      }
    }
  }

  ghost function Least(s: set<Migration>): (m: Migration)
    requires s != {}
    ensures IsLeast(m, s)
  {
    LeastExists(s);
    var m :| IsLeast(m, s);
    m
  }

  /** No two migrations of the set share graft and name. */
  ghost predicate Unambiguous(s: set<Migration>) {
    forall a, b :: a in s && b in s && a.Id() == b.Id() ==> a == b
  }

  lemma {:induction false} LeastIsUnique(s: set<Migration>, m: Migration)
    requires Unambiguous(s) && IsLeast(m, s)
    ensures m == Least(s)
  {
    BeforeAntisymmetric(m, Least(s));
  }

  // ------------------------------------------------------------ the plan

  ghost predicate Blocked(m: Migration, left: set<Migration>) {
    exists x :: x in left && m.DependsOn(x)
  }

  ghost function Ready(left: set<Migration>): set<Migration> {
    set m | m in left && !Blocked(m, left)
  }

  ghost function Plan(left: set<Migration>): seq<Migration> {
    if Ready(left) == {} then []
    else [Least(Ready(left))] + Plan(left - {Least(Ready(left))})
  }

  /** What can never be placed. */
  ghost function Stuck(left: set<Migration>): set<Migration> {
    if Ready(left) == {} then left else Stuck(left - {Least(Ready(left))})
  }

  /** An order of exactly these migrations, each once and after all it depends on. */
  ghost predicate ValidOrder(order: seq<Migration>, all: set<Migration>) {
    && (forall m :: m in all <==> m in order)
    && (forall p, q :: 0 <= p < q < |order| ==> order[p] != order[q])
    && (forall p, x :: 0 <= p < |order| && x in all && order[p].DependsOn(x) ==> x in order[..p])
  }

  lemma {:induction false} StuckIsBlocked(left: set<Migration>)
    ensures Stuck(left) <= left && Ready(Stuck(left)) == {}
  {
    if Ready(left) != {} { StuckIsBlocked(left - {Least(Ready(left))}); }
  }

  lemma {:induction false} PlanPlacesTheRest(left: set<Migration>)
    ensures forall m :: m in Plan(left) <==> m in left && m !in Stuck(left)
    ensures forall p, q :: 0 <= p < q < |Plan(left)| ==> Plan(left)[p] != Plan(left)[q]
  {
    if Ready(left) != {} {
      var m := Least(Ready(left));
      PlanPlacesTheRest(left - {m});
      StuckIsBlocked(left - {m});
    }
  }

  lemma {:induction false} PlanRespectsDependencies(left: set<Migration>, p: nat, x: Migration)
    requires p < |Plan(left)| && x in left && Plan(left)[p].DependsOn(x)
    ensures x in Plan(left)[..p]
  {
    var m := Least(Ready(left));
    var rest := Plan(left - {m});
    assert p == 0 ==> !Blocked(m, left);
    if x == m {
      assert Plan(left)[..p][0] == m;
    } else {
      PlanRespectsDependencies(left - {m}, p - 1, x);
      assert Plan(left)[..p] == [m] + rest[..p - 1];
    }
  }

  lemma {:induction false} PlanStep(all: set<Migration>, m: Migration)
    requires Unambiguous(all) && IsLeast(m, Ready(all))
    ensures Plan(all) == [m] + Plan(all - {m}) && Stuck(all) == Stuck(all - {m})
  {
    LeastIsUnique(Ready(all), m);
  }

  /** If any valid order exists, nothing gets stuck. */
  lemma {:induction false} OrderedSetsAreNotStuck(order: seq<Migration>, all: set<Migration>, p: nat)
    requires ValidOrder(order, all) && p <= |order|
    ensures forall m :: m in order[..p] ==> m !in Stuck(all)
  {
    if p > 0 {
      OrderedSetsAreNotStuck(order, all, p - 1);
      StuckHasEarlier(order, all, p - 1);
      assert order[..p] == order[..p - 1] + [order[p - 1]];
    }
  }

  lemma {:induction false} StuckHasEarlier(order: seq<Migration>, all: set<Migration>, p: nat)
    requires ValidOrder(order, all) && p < |order|
    ensures order[p] in Stuck(all) ==> exists x :: x in order[..p] && x in Stuck(all)
  {
    StuckIsBlocked(all);
    if order[p] in Stuck(all) {
      assert order[p] !in Ready(Stuck(all));
      var x :| x in Stuck(all) && order[p].DependsOn(x);
      assert x in order[..p];
    }
  }

  /** Planning succeeds exactly when some valid order exists, and then the plan is one. */
  lemma {:induction false} PlanIsCompleteIffOrderable(all: set<Migration>)
    ensures Stuck(all) == {} <==> exists order :: ValidOrder(order, all)
    ensures Stuck(all) == {} ==> ValidOrder(Plan(all), all)
  {
    StuckIsBlocked(all);
    if Stuck(all) == {} {
      PlanPlacesTheRest(all);
      forall p, x | 0 <= p < |Plan(all)| && x in all && Plan(all)[p].DependsOn(x)
        ensures x in Plan(all)[..p]
      {
        PlanRespectsDependencies(all, p, x);
      }
      assert ValidOrder(Plan(all), all);
    }
    forall order | ValidOrder(order, all)
      ensures Stuck(all) == {}
    {
      OrderedSetsAreNotStuck(order, all, |order|);
      assert order[..|order|] == order;
    }
  }

  lemma {:induction false} TailIsValid(order: seq<Migration>, all: set<Migration>)
    requires ValidOrder(order, all) && order != []
    ensures ValidOrder(order[1..], all - {order[0]})
  {
    var rest := order[1..];
    forall p, x | 0 <= p < |rest| && x in all - {order[0]} && rest[p].DependsOn(x)
      ensures x in rest[..p]
    {
      assert order[p + 1] == rest[p];
      assert order[..p + 1] == [order[0]] + rest[..p];
    }
  }

  /** The two agree up to position `p`, where `plan` has the smaller key. */
  ghost predicate DepartsAt(order: seq<Migration>, plan: seq<Migration>, p: nat) {
    && p < |order| && p < |plan| && order[..p] == plan[..p]
    && order[p] != plan[p] && Before(plan[p], order[p])
  }

  lemma {:induction false} DepartsLater(m: Migration, order: seq<Migration>, plan: seq<Migration>, p: nat)
    requires DepartsAt(order, plan, p)
    ensures DepartsAt([m] + order, [m] + plan, p + 1)
  {
    assert ([m] + order)[..p + 1] == [m] + order[..p] && ([m] + plan)[..p + 1] == [m] + plan[..p];
  }

  lemma {:induction false} FirstIsReady(order: seq<Migration>, all: set<Migration>)
    requires ValidOrder(order, all) && order != []
    ensures order[0] in Ready(all)
  {
    assert order[..0] == [];
    assert order[0] in order;
    assert !Blocked(order[0], all);
  }

  /** Of all valid orders the plan is the least: where another first departs from
      it, the plan has the migration with the smaller key. */
  lemma {:induction false} PlanIsLeast(order: seq<Migration>, all: set<Migration>)
    requires ValidOrder(order, all)
    ensures order == Plan(all) || exists p: nat :: DepartsAt(order, Plan(all), p)
    decreases |order|
  {
    if order == [] {
      assert all == {};
    } else {
      FirstIsReady(order, all);
      var m := Least(Ready(all));
      var rest := Plan(all - {m});
      assert Plan(all) == [m] + rest;
      assert order == [order[0]] + order[1..];
      if order[0] == m {
        TailIsValid(order, all);
        PlanIsLeast(order[1..], all - {m});
        if order[1..] != rest {
          var p: nat :| DepartsAt(order[1..], rest, p);
          DepartsLater(m, order[1..], rest, p);
        }
      } else {
        assert DepartsAt(order, Plan(all), 0);
      }
    }
  }

  // ------------------------------------------------------------ the order of keys

  /** Meta, then Session, then PerProfile, then Backup. */
  predicate TargetBefore(a: Target, b: Target) {
    || (a.Meta? && !b.Meta?)
    || (a.Session? && (b.PerProfile? || b.Backup?))
    || (a.PerProfile? && b.Backup?)
  }

  /** In the plan `m` could have stood at `p`: it comes no earlier, and all it depends
      on does. */
  ghost predicate CouldStandAt(order: seq<Migration>, all: set<Migration>, p: nat, m: Migration) {
    && p < |order| && m in all && m !in order[..p]
    && forall x :: x in all && m.DependsOn(x) ==> x in order[..p]
  }

  /** `m` has no smaller a key than `a`: target first, then graft, then name. */
  predicate NoSmaller(a: Migration, m: Migration) {
    && (a.target == m.target || TargetBefore(a.target, m.target))
    && (a.target == m.target ==> S.Le(a.graft, m.graft))
    && (a.target == m.target && a.graft == m.graft ==> S.Le(a.name, m.name))
  }

  lemma {:induction false} PlacedIsLeast(left: set<Migration>, p: nat, m: Migration)
    requires CouldStandAt(Plan(left), left, p, m)
    ensures Before(Plan(left)[p], m)
  {
    var first := Least(Ready(left));
    if p == 0 {
      assert Plan(left)[..0] == [];
      assert !Blocked(m, left);
    } else {
      var rest := Plan(left - {first});
      assert Plan(left)[..p] == [first] + rest[..p - 1];
      PlacedIsLeast(left - {first}, p - 1, m);
    }
  }

  lemma {:induction false} NoSmallerIsBefore(a: Migration, b: Migration)
    ensures NoSmaller(a, b) <==> Before(a, b)
  {
    S.LeTotal(a.graft, a.graft);
  }

  /** Nothing that could have stood there has a smaller key than what the plan places:
      an earlier target, or a smaller graft in the same target, or a smaller name in
      the same graft. */
  lemma {:induction false} PlanFollowsKeys(all: set<Migration>, p: nat, m: Migration)
    requires CouldStandAt(Plan(all), all, p, m)
    ensures NoSmaller(Plan(all)[p], m)
  {
    PlacedIsLeast(all, p, m);
    NoSmallerIsBefore(Plan(all)[p], m);
  }

  /** Every position of the order holds a least of those that could stand there. */
  ghost predicate FollowsKeys(order: seq<Migration>, all: set<Migration>) {
    forall p: nat, m :: CouldStandAt(order, all, p, m) ==> NoSmaller(order[p], m)
  }

  lemma {:induction false} FirstFollowsKeys(order: seq<Migration>, all: set<Migration>)
    requires ValidOrder(order, all) && Unambiguous(all) && FollowsKeys(order, all) && order != []
    ensures Ready(all) != {} && order[0] == Least(Ready(all))
  {
    FirstIsReady(order, all);
    forall m | m in Ready(all) ensures Before(order[0], m) {
      assert order[..0] == [] && !Blocked(m, all);
      assert CouldStandAt(order, all, 0, m);
      NoSmallerIsBefore(order[0], m);
    }
    LeastIsUnique(Ready(all), order[0]);
  }

  lemma {:induction false} TailFollowsKeys(order: seq<Migration>, all: set<Migration>)
    requires ValidOrder(order, all) && FollowsKeys(order, all) && order != []
    ensures FollowsKeys(order[1..], all - {order[0]})
  {
    var rest, left := order[1..], all - {order[0]};
    forall p: nat, m | CouldStandAt(rest, left, p, m) ensures NoSmaller(rest[p], m) {
      assert order[..p + 1] == [order[0]] + rest[..p];
      assert CouldStandAt(order, all, p + 1, m);
    }
  }

  /** The plan is the one valid order that does. */
  lemma {:induction false} PlanIsTheKeyOrder(order: seq<Migration>, all: set<Migration>)
    requires ValidOrder(order, all) && Unambiguous(all)
    ensures FollowsKeys(order, all) <==> order == Plan(all)
    decreases |order|
  {
    forall p: nat, m | CouldStandAt(Plan(all), all, p, m) ensures NoSmaller(Plan(all)[p], m) {
      PlanFollowsKeys(all, p, m);
    }
    if FollowsKeys(order, all) {
      if order == [] {
        assert all == {};
      } else {
        FirstFollowsKeys(order, all);
        TailFollowsKeys(order, all);
        TailIsValid(order, all);
        PlanIsTheKeyOrder(order[1..], all - {order[0]});
      }
    }
  }

  lemma {:induction false} PlacedWithout(all: set<Migration>, p: nat, q: nat)
    requires p < q < |Plan(all)| && Plan(all)[q].dependencies == []
    ensures NoSmaller(Plan(all)[p], Plan(all)[q])
  {
    PlanPlacesTheRest(all);
    assert Plan(all)[q] in Plan(all);
    PlanFollowsKeys(all, p, Plan(all)[q]);
  }

  /** Migrations of one target without dependencies come graft by graft, and by name
      within each: of two, the one placed first is the one with the smaller graft, or
      the smaller name in the same graft. */
  lemma {:induction false} IndependentOnesAreGrouped(all: set<Migration>, p: nat, q: nat)
    requires Unambiguous(all) && p < |Plan(all)| && q < |Plan(all)| && p != q
    requires Plan(all)[p].target == Plan(all)[q].target
    requires Plan(all)[p].dependencies == [] && Plan(all)[q].dependencies == []
    ensures var a, b := Plan(all)[p], Plan(all)[q];
      p < q <==> if a.graft != b.graft then S.Le(a.graft, b.graft) else S.Le(a.name, b.name)
  {
    PlanPlacesTheRest(all);
    var a, b := Plan(all)[p], Plan(all)[q];
    assert a in Plan(all) && b in Plan(all) && a.Id() != b.Id();
    if p < q {
      PlacedWithout(all, p, q);
    } else {
      PlacedWithout(all, q, p);
      if a.graft != b.graft && S.Le(a.graft, b.graft) { S.LeAntisymmetric(a.graft, b.graft); }
      if a.graft == b.graft && S.Le(a.name, b.name) { S.LeAntisymmetric(a.name, b.name); }
    }
  }

  // ------------------------------------------------------------ what a migration needs

  /** Each entry depends on the next. */
  ghost predicate Path(path: seq<Migration>, all: set<Migration>) {
    path != [] && Within(path, all) && forall k :: 0 <= k < |path| - 1 ==> path[k].DependsOn(path[k + 1])
  }

  /** `x` is `m`, or something it depends on, directly or not. */
  ghost predicate Needs(m: Migration, x: Migration, all: set<Migration>) {
    exists path :: Path(path, all) && path[0] == m && path[|path| - 1] == x
  }

  lemma {:induction false} NeedsThrough(m: Migration, x: Migration, r: Migration, all: set<Migration>)
    requires m in all && m.DependsOn(x) && Needs(x, r, all)
    ensures Needs(m, r, all)
  {
    var path :| Path(path, all) && path[0] == x && path[|path| - 1] == r;
    var longer := [m] + path;
    assert Path(longer, all) && longer[0] == m && longer[|longer| - 1] == r;
  }

  // ------------------------------------------------------------ cycles

  function Next(k: nat, n: nat): nat
    requires k < n
  {
    if k + 1 < n then k + 1 else 0
  }

  /** Each entry is a dependency of the next, and the last of the first. */
  predicate IsCycle(path: seq<Migration>) {
    path != [] && forall k :: 0 <= k < |path| ==> path[Next(k, |path|)].DependsOn(path[k])
  }

  ghost predicate Within(path: seq<Migration>, s: set<Migration>) {
    forall m :: m in path ==> m in s
  }

  lemma {:induction false} CyclesAreStuck(path: seq<Migration>, left: set<Migration>)
    requires IsCycle(path) && Within(path, left)
    ensures Within(path, Stuck(left))
  {
    if Ready(left) != {} {
      var m := Least(Ready(left));
      forall k | 0 <= k < |path| ensures path[k] != m {
        var before := if k == 0 then |path| - 1 else k - 1;
        assert Next(before, |path|) == k;
        assert Blocked(path[k], left);
      }
      assert forall x :: x in path ==> x != m;
      CyclesAreStuck(path, left - {m});
    }
  }

  /** Entries of `path` are distinct members of `s`, each a dependency of the next. */
  ghost predicate Chain(path: seq<Migration>, s: set<Migration>) {
    && path != [] && Within(path, s)
    && (forall i, j :: 0 <= i < j < |path| ==> path[i] != path[j])
    && (forall k :: 0 <= k < |path| - 1 ==> path[k + 1].DependsOn(path[k]))
  }

  lemma {:induction false} DistinctFits(path: seq<Migration>, s: set<Migration>)
    requires Within(path, s) && forall i, j :: 0 <= i < j < |path| ==> path[i] != path[j]
    ensures |path| <= |s|
  {
    if path != [] {
      var n := |path| - 1;
      forall m | m in path[..n] ensures m in s - {path[n]} {
      }
      DistinctFits(path[..n], s - {path[n]});
    }
  }

  lemma {:induction false} NeedsOnward(m: Migration, y: Migration, x: Migration, all: set<Migration>)
    requires Needs(m, y, all) && x in all && y.DependsOn(x)
    ensures Needs(m, x, all)
  {
    var path :| Path(path, all) && path[0] == m && path[|path| - 1] == y;
    var longer := path + [x];
    assert Path(longer, all) && longer[0] == m && longer[|longer| - 1] == x;
  }

  lemma {:induction false} NeedsWithin(m: Migration, x: Migration, s: set<Migration>, all: set<Migration>)
    requires Needs(m, x, s) && s <= all
    ensures Needs(m, x, all)
  {
    var path :| Path(path, s) && path[0] == m && path[|path| - 1] == x;
    assert Path(path, all);
  }

  /** `c` is a cycle of dependencies, and `m` needs its first member. */
  ghost predicate NeedsFirst(m: Migration, c: seq<Migration>, all: set<Migration>) {
    IsCycle(c) && Within(c, all) && Needs(m, c[0], all)
  }

  /** `m` is on a cycle of dependencies or needs, directly or not, one that is. */
  ghost predicate NeedsCycle(m: Migration, all: set<Migration>) {
    exists c :: NeedsFirst(m, c, all)
  }

  /** Walking from dependent to dependency inside a blocked set must come round. */
  lemma {:induction false} ChainClosesUp(m: Migration, path: seq<Migration>, s: set<Migration>)
    requires Ready(s) == {} && Chain(path, s) && Needs(m, path[0], s)
    ensures NeedsCycle(m, s)
    decreases |s| - |path|
  {
    DistinctFits(path, s);
    assert path[0] in s && path[0] !in Ready(s);
    var x :| x in s && path[0].DependsOn(x);
    if x in path {
      var j :| 0 <= j < |path| && path[j] == x;
      assert NeedsFirst(m, path[..j + 1], s);
    } else {
      var longer := [x] + path;
      assert Chain(longer, s);
      DistinctFits(longer, s);
      NeedsOnward(m, path[0], x, s);
      ChainClosesUp(m, longer, s);
    }
  }

  /** What needs something stuck is stuck. */
  lemma {:induction false} StuckSpreads(path: seq<Migration>, all: set<Migration>)
    requires Path(path, all) && path[|path| - 1] in Stuck(all)
    ensures path[0] in Stuck(all)
    decreases |path|
  {
    if |path| > 1 {
      assert path[0].DependsOn(path[0 + 1]) && path[0] in path && path[1] in path;
      StuckSpreads(path[1..], all);
      PlanPlacesTheRest(all);
      if path[0] !in Stuck(all) {
        var p :| 0 <= p < |Plan(all)| && Plan(all)[p] == path[0];
        PlanRespectsDependencies(all, p, path[1]);
      }
    }
  }

  /** A migration cannot be placed exactly when it is on a cycle or needs one. */
  lemma {:induction false} StuckIffNeedsCycle(all: set<Migration>, m: Migration)
    ensures m in Stuck(all) <==> NeedsCycle(m, all)
  {
    if m in Stuck(all) {
      StuckIsBlocked(all);
      assert Path([m], Stuck(all)) && Chain([m], Stuck(all));
      ChainClosesUp(m, [m], Stuck(all));
      var c :| NeedsFirst(m, c, Stuck(all));
      NeedsWithin(m, c[0], Stuck(all), all);
      assert NeedsFirst(m, c, all);
    }
    if c :| NeedsFirst(m, c, all) {
      CyclesAreStuck(c, all);
      assert c[0] in c;
      var path :| Path(path, all) && path[0] == m && path[|path| - 1] == c[0];
      StuckSpreads(path, all);
    }
  }

  /** Planning gets stuck exactly when the dependencies have a cycle. */
  lemma {:induction false} StuckIffCycle(all: set<Migration>)
    ensures Stuck(all) != {} <==> exists path :: IsCycle(path) && Within(path, all)
  {
    if Stuck(all) != {} {
      var m :| m in Stuck(all);
      StuckIffNeedsCycle(all, m);
    }
    forall path | IsCycle(path) && Within(path, all)
      ensures Stuck(all) != {}
    {
      CyclesAreStuck(path, all);
      assert path[0] in path;
    }
  }
}
