/** What the order of migrations owes to their targets: when Meta migrations come
    before all others, and when before PerProfile ones. */
module MigrationTargets {
  import opened MigrationOrder
  import opened MigrationDag

  // ------------------------------------------------------------ two readings of "Meta first"

  /** Meta migrations depend on Meta migrations only. */
  ghost predicate MetaClosed(all: set<Migration>) {
    forall m, x :: m in all && x in all && m.target.Meta? && m.DependsOn(x) ==> x.target.Meta?
  }

  ghost predicate HasTarget(all: set<Migration>, p: nat, t: Target) {
    p < |Plan(all)| && Plan(all)[p].target == t
  }

  /** Every Meta migration comes before every other one. */
  ghost predicate MetaFirst(all: set<Migration>) {
    forall p: nat, q: nat :: HasTarget(all, p, Meta) && q < |Plan(all)| && !HasTarget(all, q, Meta) ==> p < q
  }

  // ------------------------------------------------------------ where the plan puts what is needed

  ghost predicate At(order: seq<Migration>, p: nat, m: Migration) {
    p < |order| && order[p] == m
  }

  lemma {:induction false} PositionIn(all: set<Migration>, m: Migration) returns (p: nat)
    requires ValidOrder(Plan(all), all) && m in all
    ensures At(Plan(all), p, m)
  {
    assert m in Plan(all);
    p :| 0 <= p < |Plan(all)| && Plan(all)[p] == m;
  }

  /** In a valid order a migration comes after all it needs. */
  lemma {:induction false} NeededIsEarlier(order: seq<Migration>, all: set<Migration>, path: seq<Migration>, p: nat)
    returns (q: nat)
    requires ValidOrder(order, all) && Path(path, all) && At(order, p, path[0])
    ensures At(order, q, path[|path| - 1]) && q <= p && (|path| > 1 ==> q < p)
    decreases |path|
  {
    if |path| == 1 {
      q := p;
    } else {
      assert path[0].DependsOn(path[0 + 1]) && path[1] in path;
      assert path[1] in order[..p];
      var next :| 0 <= next < p && order[next] == path[1];
      q := NeededIsEarlier(order, all, path[1..], next);
    }
  }

  /** What is left at position `p` of the plan. */
  ghost function LeftAt(all: set<Migration>, p: nat): set<Migration>
    requires p <= |Plan(all)|
  {
    set m | m in Plan(all)[p..]
  }

  lemma {:induction false} LeftInRest(all: set<Migration>, p: nat)
    requires Ready(all) != {} && 0 < p <= |Plan(all)|
    ensures LeftAt(all, p) == LeftAt(all - {Least(Ready(all))}, p - 1)
    ensures Plan(all)[p..] == Plan(all - {Least(Ready(all))})[p - 1..]
  {
    var rest := Plan(all - {Least(Ready(all))});
    assert Plan(all) == [Least(Ready(all))] + rest;
    assert Plan(all)[p..] == rest[p - 1..];
  }

  /** The plan goes on as the plan of what is left would. */
  lemma {:induction false} PlanFrom(all: set<Migration>, p: nat)
    requires Stuck(all) == {} && p <= |Plan(all)|
    ensures Stuck(LeftAt(all, p)) == {} && Plan(LeftAt(all, p)) == Plan(all)[p..]
    ensures LeftAt(all, p) <= all
  {
    if p == 0 {
      PlanPlacesTheRest(all);
      assert LeftAt(all, 0) == all;
    } else {
      LeftInRest(all, p);
      PlanFrom(all - {Least(Ready(all))}, p - 1);
    }
  }

  lemma {:induction false} LeastAt(all: set<Migration>, p: nat)
    requires Stuck(all) == {} && p < |Plan(all)|
    ensures IsLeast(Plan(all)[p], Ready(LeftAt(all, p)))
  {
    PlanFrom(all, p);
    assert Plan(LeftAt(all, p))[0] == Plan(all)[p];
  }

  lemma {:induction false} EarlierDependency(left: set<Migration>, p: nat) returns (q: nat)
    requires ValidOrder(Plan(left), left) && p < |Plan(left)| && Blocked(Plan(left)[p], left)
    ensures q < p && Plan(left)[p].DependsOn(Plan(left)[q])
  {
    var x :| x in left && Plan(left)[p].DependsOn(x);
    assert x in Plan(left)[..p];
    q :| 0 <= q < p && Plan(left)[q] == x;
  }

  /** While something is left, something it needs is ready. */
  lemma {:induction false} ReadyBelow(left: set<Migration>, p: nat) returns (r: Migration)
    requires ValidOrder(Plan(left), left) && p < |Plan(left)|
    ensures r in Ready(left) && Needs(Plan(left)[p], r, left)
  {
    var m := Plan(left)[p];
    assert m in left;
    if Blocked(m, left) {
      var q := EarlierDependency(left, p);
      r := ReadyBelow(left, q);
      NeedsThrough(m, Plan(left)[q], r, left);
    } else {
      r := m;
      assert Path([m], left);
    }
  }

  /** The same, for what is left at position `i`. */
  lemma {:induction false} ReadyNeeded(all: set<Migration>, i: nat, j: nat) returns (r: Migration)
    requires Stuck(all) == {} && i <= j < |Plan(all)|
    ensures r in Ready(LeftAt(all, i)) && r in all && Needs(Plan(all)[j], r, all)
  {
    var left := LeftAt(all, i);
    PlanFrom(all, i);
    PlanIsCompleteIffOrderable(left);
    assert Plan(left)[j - i] == Plan(all)[j];
    r := ReadyBelow(left, j - i);
    var path :| Path(path, left) && path[0] == Plan(all)[j] && path[|path| - 1] == r;
    assert Path(path, all);
  }

  // ------------------------------------------------------------ Meta before everything else

  lemma {:induction false} MetaNeedsMeta(all: set<Migration>, path: seq<Migration>)
    requires MetaClosed(all) && Path(path, all) && path[0].target.Meta?
    ensures path[|path| - 1].target.Meta?
    decreases |path|
  {
    if |path| > 1 {
      assert path[0].DependsOn(path[0 + 1]) && path[0] in path && path[1] in path;
      MetaNeedsMeta(all, path[1..]);
    }
  }

  lemma {:induction false} ClosedMetaComesFirst(all: set<Migration>, p: nat, q: nat)
    requires Stuck(all) == {} && MetaClosed(all)
    requires HasTarget(all, p, Meta) && q < |Plan(all)| && !HasTarget(all, q, Meta)
    ensures p < q
  {
    if q <= p {
      var r := ReadyNeeded(all, q, p);
      var path :| Path(path, all) && path[0] == Plan(all)[p] && path[|path| - 1] == r;
      MetaNeedsMeta(all, path);
      LeastAt(all, q);
    }
  }

  lemma {:induction false} OpenMetaIsLater(all: set<Migration>)
    requires Stuck(all) == {} && !MetaClosed(all)
    ensures !MetaFirst(all)
  {
    var m, x :| m in all && x in all && m.target.Meta? && m.DependsOn(x) && !x.target.Meta?;
    PlanIsCompleteIffOrderable(all);
    var p := PositionIn(all, m);
    assert x in Plan(all)[..p];
    var q :| 0 <= q < p && Plan(all)[q] == x;
    assert HasTarget(all, p, Meta) && !HasTarget(all, q, Meta);
  }

  /** Meta migrations come first of all exactly when they depend on nothing else. */
  lemma {:induction false} MetaFirstIffClosed(all: set<Migration>)
    requires Stuck(all) == {}
    ensures MetaFirst(all) <==> MetaClosed(all)
  {
    if MetaClosed(all) {
      forall p: nat, q: nat | HasTarget(all, p, Meta) && q < |Plan(all)| && !HasTarget(all, q, Meta)
        ensures p < q
      {
        ClosedMetaComesFirst(all, p, q);
      }
    } else {
      OpenMetaIsLater(all);
    }
  }

  // ------------------------------------------------------------ Meta before PerProfile

  /** Every Meta migration comes before every PerProfile one. */
  ghost predicate MetaBeforePerProfile(all: set<Migration>) {
    forall p: nat, q: nat :: HasTarget(all, p, Meta) && HasTarget(all, q, PerProfile) ==> p < q
  }

  ghost predicate Precedes(all: set<Migration>, a: Migration, b: Migration) {
    exists p, q :: p < q && At(Plan(all), p, a) && At(Plan(all), q, b)
  }

  lemma {:induction false} PrecedesIsEarlier(all: set<Migration>, a: Migration, b: Migration, p: nat, q: nat)
    requires ValidOrder(Plan(all), all) && At(Plan(all), p, a) && At(Plan(all), q, b)
    ensures Precedes(all, a, b) <==> p < q
  {
  }

  /** Some Meta migration needs a PerProfile one. */
  ghost predicate MetaNeedsPerProfile(all: set<Migration>) {
    exists m, x :: m in all && x in all && m.target.Meta? && x.target.PerProfile? && Needs(m, x, all)
  }

  /** `b` holds up `m` for longer than anything holds up `p`. */
  ghost predicate HeldUp(all: set<Migration>, m: Migration, b: Migration, p: Migration) {
    && m in all && b in all && p in all
    && m.target.Meta? && b.target.Backup? && p.target.PerProfile? && Needs(m, b, all)
    && forall c :: c in all && c.target.Backup? && Needs(p, c, all) ==> Precedes(all, c, b)
  }

  ghost predicate SomeHeldUp(all: set<Migration>) {
    exists m, b, p :: HeldUp(all, m, b, p)
  }

  lemma {:induction false} NeededPrecedes(all: set<Migration>, m: Migration, x: Migration)
    requires ValidOrder(Plan(all), all) && m in all && m != x && Needs(m, x, all)
    ensures Precedes(all, x, m)
  {
    var path :| Path(path, all) && path[0] == m && path[|path| - 1] == x;
    var p := PositionIn(all, m);
    var q := NeededIsEarlier(Plan(all), all, path, p);
  }

  lemma {:induction false} NeedingIsOvertaken(all: set<Migration>)
    requires ValidOrder(Plan(all), all) && MetaNeedsPerProfile(all)
    ensures !MetaBeforePerProfile(all)
  {
    var m, x :| m in all && x in all && m.target.Meta? && x.target.PerProfile? && Needs(m, x, all);
    NeededPrecedes(all, m, x);
    var p, q :| p < q && At(Plan(all), p, x) && At(Plan(all), q, m);
    assert HasTarget(all, p, PerProfile) && HasTarget(all, q, Meta);
  }

  lemma {:induction false} OvertakenHasACause(all: set<Migration>)
    requires Stuck(all) == {} && ValidOrder(Plan(all), all) && !MetaBeforePerProfile(all)
    ensures MetaNeedsPerProfile(all) || SomeHeldUp(all)
  {
    var j: nat, i: nat :| HasTarget(all, j, Meta) && HasTarget(all, i, PerProfile) && i <= j;
    OvertakingHasACause(all, i, j);
  }

  /** If PerProfile at `i` is placed before Meta at `j`, one of the two causes is present. */
  lemma {:induction false} OvertakingHasACause(all: set<Migration>, i: nat, j: nat)
    requires Stuck(all) == {} && ValidOrder(Plan(all), all) && i <= j < |Plan(all)|
    requires Plan(all)[i].target.PerProfile? && Plan(all)[j].target.Meta?
    ensures MetaNeedsPerProfile(all) || SomeHeldUp(all)
  {
    var p, m := Plan(all)[i], Plan(all)[j];
    var r := ReadyNeeded(all, i, j);
    LeastAt(all, i);
    assert Before(p, r);
    if r.target.Backup? {
      forall c | c in all && c.target.Backup? && Needs(p, c, all)
        ensures Precedes(all, c, r)
      {
        NeededBeforeReady(all, i, c, r);
      }
      assert HeldUp(all, m, r, p);
    }
  }

  /** What the migration at `i` needs is placed before anything left at `i`. */
  lemma {:induction false} NeededBeforeReady(all: set<Migration>, i: nat, c: Migration, r: Migration)
    requires ValidOrder(Plan(all), all) && i < |Plan(all)|
    requires c != Plan(all)[i] && Needs(Plan(all)[i], c, all) && r in LeftAt(all, i)
    ensures Precedes(all, c, r)
  {
    var path :| Path(path, all) && path[0] == Plan(all)[i] && path[|path| - 1] == c;
    var q := NeededIsEarlier(Plan(all), all, path, i);
    var k :| 0 <= k < |Plan(all)[i..]| && Plan(all)[i..][k] == r;
    assert At(Plan(all), i + k, r);
  }

  lemma {:induction false} HeldUpIsOvertaken(all: set<Migration>, m: Migration, b: Migration, p: Migration)
    requires Stuck(all) == {} && ValidOrder(Plan(all), all) && HeldUp(all, m, b, p)
    ensures !MetaBeforePerProfile(all)
  {
    NeededPrecedes(all, m, b);
    var i := PositionIn(all, p);
    var j := PositionIn(all, m);
    var k := PositionIn(all, b);
    PrecedesIsEarlier(all, b, m, k, j);
    assert i < k by {
      if k <= i {
        BackupOutranked(all, k, i);
      }
    }
    assert HasTarget(all, j, Meta) && HasTarget(all, i, PerProfile);
  }

  lemma {:induction false} NotEarlierIfLeft(all: set<Migration>, k: nat, r: Migration)
    requires ValidOrder(Plan(all), all) && k < |Plan(all)| && r in LeftAt(all, k)
    ensures !Precedes(all, r, Plan(all)[k])
  {
    var at :| 0 <= at < |Plan(all)[k..]| && Plan(all)[k..][at] == r;
    PrecedesIsEarlier(all, r, Plan(all)[k], k + at, k);
  }

  /** Were a Backup migration placed before a PerProfile one, that one would need
      some Backup migration placed no earlier. */
  lemma {:induction false} BackupOutranked(all: set<Migration>, k: nat, i: nat)
    requires Stuck(all) == {} && ValidOrder(Plan(all), all) && k <= i < |Plan(all)|
    requires Plan(all)[k].target.Backup? && Plan(all)[i].target.PerProfile?
    ensures exists c :: c in all && c.target.Backup? && Needs(Plan(all)[i], c, all) && !Precedes(all, c, Plan(all)[k])
  {
    var r := ReadyNeeded(all, k, i);
    assert r.target.Backup? by {
      LeastAt(all, k);
      assert Before(Plan(all)[k], r);
    }
    assert r in LeftAt(all, k);
    NotEarlierIfLeft(all, k, r);
  }

  /** Meta comes before PerProfile exactly when no Meta migration needs a PerProfile
      one, and none needs a Backup migration that is placed after all the Backup
      migrations some PerProfile one needs. */
  lemma {:induction false} MetaBeforePerProfileIff(all: set<Migration>)
    requires Stuck(all) == {}
    ensures MetaBeforePerProfile(all) <==> !MetaNeedsPerProfile(all) && !SomeHeldUp(all)
  {
    PlanIsCompleteIffOrderable(all);
    if !MetaBeforePerProfile(all) {
      OvertakenHasACause(all);
    }
    if MetaNeedsPerProfile(all) {
      NeedingIsOvertaken(all);
    }
    if m, b, p :| HeldUp(all, m, b, p) {
      HeldUpIsOvertaken(all, m, b, p);
    }
  }

  ghost predicate NeedsTarget(m: Migration, t: Target, all: set<Migration>) {
    exists x :: x in all && x.target == t && Needs(m, x, all)
  }

  /** Meta migrations need, directly or not, Meta and Session migrations only. */
  ghost predicate MetaNeedsUpstreamOnly(all: set<Migration>) {
    forall m :: m in all && m.target.Meta? ==> !NeedsTarget(m, PerProfile, all) && !NeedsTarget(m, Backup, all)
  }

  /** That is enough, and it is the exact condition as soon as some PerProfile
      migration waits for no Backup one. */
  lemma {:induction false} MetaBeforePerProfilePlainly(all: set<Migration>)
    requires Stuck(all) == {}
    ensures MetaNeedsUpstreamOnly(all) ==> MetaBeforePerProfile(all)
    ensures (exists p :: p in all && p.target.PerProfile? && !NeedsTarget(p, Backup, all)) ==>
      (MetaBeforePerProfile(all) <==> MetaNeedsUpstreamOnly(all))
  {
    MetaBeforePerProfileIff(all);
    if p :| p in all && p.target.PerProfile? && !NeedsTarget(p, Backup, all) {
      forall m, b | m in all && b in all && m.target.Meta? && b.target.Backup? && Needs(m, b, all)
        ensures HeldUp(all, m, b, p)
      {
      }
    }
  }

  // ------------------------------------------------------------ without the plan

  /** No Backup migration needs another one, directly or not. */
  ghost predicate BackupsStandAlone(all: set<Migration>) {
    forall b, c :: b in all && c in all && b.target.Backup? && c.target.Backup? && Needs(b, c, all) ==> b == c
  }

  /** When a Backup migration is placed, the others left are ready, too. */
  lemma {:induction false} BackupsLeftAreReady(all: set<Migration>, k: nat, i: nat)
    requires Stuck(all) == {} && ValidOrder(Plan(all), all) && BackupsStandAlone(all) && k <= i < |Plan(all)|
    requires Plan(all)[k].target.Backup? && Plan(all)[i].target.Backup?
    ensures Before(Plan(all)[k], Plan(all)[i])
  {
    var r := ReadyNeeded(all, k, i);
    LeastAt(all, k);
    assert Before(Plan(all)[k], r);
    assert Plan(all)[i] in Plan(all);
    assert r == Plan(all)[i];
  }

  /** Then Backup migrations are placed in the order of their keys. */
  lemma {:induction false} BackupsGoByKey(all: set<Migration>, c: Migration, b: Migration)
    requires Stuck(all) == {} && ValidOrder(Plan(all), all) && Unambiguous(all) && BackupsStandAlone(all)
    requires c in all && b in all && c.target.Backup? && b.target.Backup?
    ensures Precedes(all, c, b) <==> c != b && Before(c, b)
  {
    var i := PositionIn(all, c);
    var k := PositionIn(all, b);
    PrecedesIsEarlier(all, c, b, i, k);
    if i < k {
      BackupsLeftAreReady(all, i, k);
    } else if k < i && Before(c, b) {
      BackupsLeftAreReady(all, k, i);
      BeforeAntisymmetric(c, b);
    }
  }

  /** `b`, which `m` needs, has a greater key than every Backup migration `p` needs. */
  ghost predicate HeldUpByKey(all: set<Migration>, m: Migration, b: Migration, p: Migration) {
    && m in all && b in all && p in all
    && m.target.Meta? && b.target.Backup? && p.target.PerProfile? && Needs(m, b, all)
    && forall c :: c in all && c.target.Backup? && Needs(p, c, all) ==> c != b && Before(c, b)
  }

  lemma {:induction false} HeldUpIffByKey(all: set<Migration>, m: Migration, b: Migration, p: Migration)
    requires Stuck(all) == {} && ValidOrder(Plan(all), all) && Unambiguous(all) && BackupsStandAlone(all)
    ensures HeldUp(all, m, b, p) <==> HeldUpByKey(all, m, b, p)
  {
    if b in all && b.target.Backup? {
      forall c | c in all && c.target.Backup?
        ensures Precedes(all, c, b) <==> c != b && Before(c, b)
      {
        BackupsGoByKey(all, c, b);
      }
    }
  }

  /** As long as no Backup migration needs another, whether Meta comes before PerProfile
      can be read off dependencies and keys alone. */
  lemma {:induction false} MetaBeforePerProfileByKey(all: set<Migration>)
    requires Stuck(all) == {} && Unambiguous(all) && BackupsStandAlone(all)
    ensures MetaBeforePerProfile(all) <==>
      !MetaNeedsPerProfile(all) && !exists m, b, p :: HeldUpByKey(all, m, b, p)
  {
    PlanIsCompleteIffOrderable(all);
    MetaBeforePerProfileIff(all);
    forall m, b, p
      ensures HeldUp(all, m, b, p) <==> HeldUpByKey(all, m, b, p)
    {
      HeldUpIffByKey(all, m, b, p);
    }
  }

  /** A registration that resolution accepts and that breaks the promise: a Meta
      migration waiting for a Backup one is overtaken by a PerProfile one. */
  lemma {:induction false} MetaMayBeOvertaken(graft: string)
    ensures var m := Migration(graft, "m", Meta, [Ref(graft, "b")]);
      var b := Migration(graft, "b", Backup, []);
      var p := Migration(graft, "p", PerProfile, []);
      && WellFormed([m, b, p]) && Stuck(AllOf([m, b, p])) == {} && Plan(AllOf([m, b, p])) == [p, b, m]
  {
    var m := Migration(graft, "m", Meta, [Ref(graft, "b")]);
    var b := Migration(graft, "b", Backup, []);
    var p := Migration(graft, "p", PerProfile, []);
    ThreeAreWellFormed(m, b, p);
    assert AllOf([m, b, p]) == {m, b, p};
    PlanOfThree(m, b, p);
  }

  lemma {:induction false} ThreeAreWellFormed(m: Migration, b: Migration, p: Migration)
    requires m.target.Meta? && b.target.Backup? && p.target.PerProfile?
    requires m.Id() != b.Id() && m.Id() != p.Id() && b.Id() != p.Id()
    requires m.dependencies == [b.Id()] && b.dependencies == [] && p.dependencies == []
    ensures WellFormed([m, b, p])
  {
    assert Ids([m, b, p])[1] == b.Id();
  }

  lemma {:induction false} PlanOfLastTwo(m: Migration, b: Migration)
    requires m.dependencies == [b.Id()] && b.dependencies == [] && m.Id() != b.Id()
    ensures Stuck({m, b}) == {} && Plan({m, b}) == [b, m]
  {
    BeforeTotal(m, m);
    BeforeTotal(b, b);
    assert Blocked(m, {m, b}) && Ready({m, b}) == {b};
    PlanStep({m, b}, b);
    assert {m, b} - {b} == {m} && Ready({m}) == {m};
    PlanStep({m}, m);
    assert {m} - {m} == {} && Ready({}) == {};
  }

  lemma {:induction false} PlanOfThree(m: Migration, b: Migration, p: Migration)
    requires m.target.Meta? && b.target.Backup? && p.target.PerProfile?
    requires m.dependencies == [b.Id()] && b.dependencies == [] && p.dependencies == []
    requires m.Id() != b.Id() && m.Id() != p.Id() && b.Id() != p.Id()
    ensures Stuck({m, b, p}) == {} && Plan({m, b, p}) == [p, b, m]
  {
    BeforeTotal(p, p);
    assert Blocked(m, {m, b, p}) && Ready({m, b, p}) == {b, p};
    PlanStep({m, b, p}, p);
    assert {m, b, p} - {p} == {m, b};
    PlanOfLastTwo(m, b);
  }
}
