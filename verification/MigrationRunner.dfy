/** Applying the resolved migrations to the databases of an installation. Each
    database records what has been applied to it; a migration and its record are
    one transaction, and a run stops at the first that fails. */
module MigrationRunner {
  import opened MigrationOrder
  import opened MigrationDag

  /** `ran` is the history of migrations whose body was committed here. */
  datatype Db = Db(applied: set<Ref>, ran: seq<Migration>)

  /** Rows written before any migration body runs. */
  const BOOTSTRAP: set<Ref> := {Ref("kikan", "create_kikan_migrations"), Ref("kikan", "create_kikan_meta")}

  function Prepare(db: Db, backfill: set<Ref>): Db {
    db.(applied := db.applied + BOOTSTRAP + backfill)
  }

  function Unapplied(plan: seq<Migration>, target: Target, applied: set<Ref>): seq<Migration> {
    if plan == [] then []
    else
      var m := plan[|plan| - 1];
      Unapplied(plan[..|plan| - 1], target, applied)
      + (if m.target == target && m.Id() !in applied then [m] else [])
  }

  function IdSet(ms: seq<Migration>): set<Ref> {
    set m | m in ms :: m.Id()
  }

  /** How many of `pending` are applied before one fails. */
  function Reach(pending: seq<Migration>, fails: Migration -> bool): (n: nat)
    ensures n <= |pending|
    ensures n < |pending| ==> fails(pending[n])
    ensures forall k :: 0 <= k < n ==> !fails(pending[k])
  {
    if pending == [] || fails(pending[0]) then 0 else 1 + Reach(pending[1..], fails)
  }

  /** One run of the migrations with this target. */
  function Run(db: Db, plan: seq<Migration>, target: Target, backfill: set<Ref>, fails: Migration -> bool): Db {
    var p := Prepare(db, backfill);
    var pending := Unapplied(plan, target, p.applied);
    var n := Reach(pending, fails);
    Db(p.applied + IdSet(pending[..n]), p.ran + pending[..n])
  }

  predicate Completes(db: Db, plan: seq<Migration>, target: Target, backfill: set<Ref>, fails: Migration -> bool) {
    var pending := Unapplied(plan, target, Prepare(db, backfill).applied);
    Reach(pending, fails) == |pending|
  }

  // ------------------------------------------------------------ the runner

  lemma {:induction false} ReachStops(pending: seq<Migration>, fails: Migration -> bool, k: nat)
    requires k <= |pending| && forall j :: 0 <= j < k ==> !fails(pending[j])
    requires k == |pending| || fails(pending[k])
    ensures Reach(pending, fails) == k
  {
    if k > 0 {
      ReachStops(pending[1..], fails, k - 1);
    }
  }

  lemma {:induction false} OneMoreCommit(p: Db, pending: seq<Migration>, k: nat)
    requires k < |pending|
    ensures p.applied + IdSet(pending[..k + 1]) == p.applied + IdSet(pending[..k]) + {pending[k].Id()}
    ensures p.ran + pending[..k + 1] == p.ran + pending[..k] + [pending[k]]
  {
    assert pending[..k + 1] == pending[..k] + [pending[k]];
  }

  class Pool {
    var applied: set<Ref>
    var ran: seq<Migration>

    constructor ()
      ensures Contents() == Db({}, [])
    {
      applied, ran := {}, [];
    }

    function Contents(): Db
      reads this
    {
      Db(applied, ran)
    }

    /** `run_migrations_inner`, given the order `dag::resolve` found. */
    method RunMigrations(plan: seq<Migration>, target: Target, backfill: set<Ref>, fails: Migration -> bool)
      returns (ok: bool)
      modifies this
      ensures Contents() == Run(old(Contents()), plan, target, backfill, fails)
      ensures ok == Completes(old(Contents()), plan, target, backfill, fails)
    {
      applied := applied + BOOTSTRAP + backfill;
      ghost var p := Contents();
      var pending := Unapplied(plan, target, applied);
      for k := 0 to |pending|
        invariant forall j :: 0 <= j < k ==> !fails(pending[j])
        invariant Contents() == Db(p.applied + IdSet(pending[..k]), p.ran + pending[..k])
      {
        if fails(pending[k]) {
          ReachStops(pending, fails, k);
          return false;
        }
        OneMoreCommit(p, pending, k);
        applied := applied + {pending[k].Id()};
        ran := ran + [pending[k]];
      }
      ReachStops(pending, fails, |pending|);
      return true;
    }
  }

  // ------------------------------------------------------------ what is pending

  lemma {:induction false} PendingMembers(plan: seq<Migration>, target: Target, applied: set<Ref>)
    ensures forall m :: m in Unapplied(plan, target, applied) <==> m in plan && m.target == target && m.Id() !in applied
  {
    if plan != [] {
      PendingMembers(plan[..|plan| - 1], target, applied);
      assert plan == plan[..|plan| - 1] + [plan[|plan| - 1]];
    }
  }

  /** The `p`-th pending migration is the `q`-th of the plan, and what is pending
      before it comes earlier in the plan. */
  ghost predicate ComesFrom(plan: seq<Migration>, target: Target, applied: set<Ref>, p: nat, q: nat) {
    var pending := Unapplied(plan, target, applied);
    && p < |pending| && q < |plan| && plan[q] == pending[p]
    && Unapplied(plan[..q], target, applied) == pending[..p]
  }

  lemma {:induction false} PendingKeepsOrder(plan: seq<Migration>, target: Target, applied: set<Ref>, p: nat)
    requires p < |Unapplied(plan, target, applied)|
    ensures exists q: nat :: ComesFrom(plan, target, applied, p, q)
  {
    var n := |plan| - 1;
    var before := Unapplied(plan[..n], target, applied);
    if p < |before| {
      PendingKeepsOrder(plan[..n], target, applied, p);
      var q: nat :| ComesFrom(plan[..n], target, applied, p, q);
      assert plan[..n][..q] == plan[..q];
      assert ComesFrom(plan, target, applied, p, q);
    } else {
      assert ComesFrom(plan, target, applied, p, n);
    }
  }

  /** No two of them share an id. */
  ghost predicate DistinctIds(plan: seq<Migration>) {
    forall p, q :: 0 <= p < q < |plan| ==> plan[p].Id() != plan[q].Id()
  }

  lemma {:induction false} PendingIsDistinct(plan: seq<Migration>, target: Target, applied: set<Ref>)
    requires DistinctIds(plan)
    ensures DistinctIds(Unapplied(plan, target, applied))
  {
    if plan != [] {
      PendingIsDistinct(plan[..|plan| - 1], target, applied);
      PendingMembers(plan[..|plan| - 1], target, applied);
    }
  }

  lemma {:induction false} AppliedPart(rest: seq<Migration>, m: Migration, target: Target, applied: set<Ref>, n: nat)
    requires DistinctIds(rest + [m]) && n <= |Unapplied(rest, target, applied)|
    ensures m.Id() !in IdSet(Unapplied(rest, target, applied)[..n])
  {
    var before := Unapplied(rest, target, applied);
    PendingMembers(rest, target, applied);
    forall x | x in before[..n] ensures x.Id() != m.Id() {
      assert x in rest;
      var i :| 0 <= i < |rest| && rest[i] == x;
      assert (rest + [m])[i] == x && (rest + [m])[|rest|] == m;
    }
  }

  lemma {:induction false} AllPendingApplied(plan: seq<Migration>, target: Target, applied: set<Ref>)
    ensures Unapplied(plan, target, applied + IdSet(Unapplied(plan, target, applied))) == []
  {
    var pending := Unapplied(plan, target, applied);
    PendingMembers(plan, target, applied);
    forall x | x in plan && x.target == target ensures x.Id() in applied + IdSet(pending) {
      if x.Id() !in applied { assert x in pending; }
    }
    AllDone(plan, target, applied + IdSet(pending));
  }

  /** `m`, if it is pending. */
  function IfPending(m: Migration, target: Target, applied: set<Ref>): seq<Migration> {
    if m.target == target && m.Id() !in applied then [m] else []
  }

  lemma {:induction false} UnappliedSnoc(rest: seq<Migration>, m: Migration, target: Target, applied: set<Ref>)
    ensures Unapplied(rest + [m], target, applied) == Unapplied(rest, target, applied) + IfPending(m, target, applied)
  {
    assert (rest + [m])[..|rest|] == rest;
  }

  lemma {:induction false} SlicesOfSum(a: seq<Migration>, b: seq<Migration>, n: nat)
    requires n <= |a|
    ensures (a + b)[..n] == a[..n] && (a + b)[n..] == a[n..] + b
  {
  }

  /** Applying the first `n` of the pending leaves the others pending. */
  lemma {:induction false} PendingAfter(plan: seq<Migration>, target: Target, applied: set<Ref>, n: nat)
    requires DistinctIds(plan) && n <= |Unapplied(plan, target, applied)|
    ensures Unapplied(plan, target, applied + IdSet(Unapplied(plan, target, applied)[..n]))
      == Unapplied(plan, target, applied)[n..]
    decreases |plan|, 1
  {
    var pending := Unapplied(plan, target, applied);
    if n == |pending| {
      assert pending[..n] == pending;
      AllPendingApplied(plan, target, applied);
    } else {
      var rest, m := plan[..|plan| - 1], plan[|plan| - 1];
      assert plan == rest + [m];
      PendingAfterSnoc(rest, m, target, applied, n);
    }
  }

  lemma {:induction false} PendingAfterSnoc(rest: seq<Migration>, m: Migration, target: Target, applied: set<Ref>,
        n: nat)
    requires DistinctIds(rest + [m]) && n <= |Unapplied(rest, target, applied)|
    ensures Unapplied(rest + [m], target, applied + IdSet(Unapplied(rest + [m], target, applied)[..n]))
      == Unapplied(rest + [m], target, applied)[n..]
    decreases |rest| + 1, 0
  {
    var pending, before := Unapplied(rest + [m], target, applied), Unapplied(rest, target, applied);
    var last, after := IfPending(m, target, applied), applied + IdSet(before[..n]);
    assert pending == before + last by {
      UnappliedSnoc(rest, m, target, applied);
    }
    assert pending[..n] == before[..n] && pending[n..] == before[n..] + last by {
      SlicesOfSum(before, last, n);
    }
    assert Unapplied(rest, target, after) == before[n..] by {
      assert rest == (rest + [m])[..|rest|];
      PendingAfter(rest, target, applied, n);
    }
    assert IfPending(m, target, after) == last by {
      AppliedPart(rest, m, target, applied, n);
    }
    assert Unapplied(rest + [m], target, after) == before[n..] + last by {
      UnappliedSnoc(rest, m, target, after);
    }
  }

  lemma {:induction false} AllDone(plan: seq<Migration>, target: Target, applied: set<Ref>)
    requires forall m :: m in plan && m.target == target ==> m.Id() in applied
    ensures Unapplied(plan, target, applied) == []
  {
    if plan != [] {
      assert plan[|plan| - 1] in plan;
      AllDone(plan[..|plan| - 1], target, applied);
    }
  }

  lemma {:induction false} PlanHasDistinctIds(all: set<Migration>)
    requires Unambiguous(all)
    ensures DistinctIds(Plan(all))
  {
    PlanPlacesTheRest(all);
    forall p, q | 0 <= p < q < |Plan(all)| ensures Plan(all)[p].Id() != Plan(all)[q].Id() {
      assert Plan(all)[p] in all && Plan(all)[q] in all;
    }
  }

  // ------------------------------------------------------------ one database

  /** What a run adds to the history. */
  function NewlyRun(db: Db, plan: seq<Migration>, target: Target, backfill: set<Ref>,
        fails: Migration -> bool): seq<Migration> {
    var pending := Unapplied(plan, target, Prepare(db, backfill).applied);
    pending[..Reach(pending, fails)]
  }

  /** A migration runs only after everything with its target that it depends on has
      been applied, in this run or before, whether or not the run completes. */
  lemma {:induction false} DependenciesRunFirst(db: Db, all: set<Migration>, plan: seq<Migration>, target: Target,
        backfill: set<Ref>,
                             fails: Migration -> bool, p: nat, x: Migration)
    requires ValidOrder(plan, all)
    requires p < |NewlyRun(db, plan, target, backfill, fails)|
    requires x in all && x.target == target && NewlyRun(db, plan, target, backfill, fails)[p].DependsOn(x)
    ensures x.Id() in Prepare(db, backfill).applied || x in NewlyRun(db, plan, target, backfill, fails)[..p]
  {
    var applied := Prepare(db, backfill).applied;
    PendingKeepsOrder(plan, target, applied, p);
    var q: nat :| ComesFrom(plan, target, applied, p, q);
    assert x in plan[..q];
    PendingMembers(plan[..q], target, applied);
    var pending := Unapplied(plan, target, applied);
    assert NewlyRun(db, plan, target, backfill, fails)[..p] == pending[..p];
  }

  /** Once a run completes, everything with its target is applied. */
  lemma {:induction false} CompletedRunAppliesAll(db: Db, plan: seq<Migration>, target: Target, backfill: set<Ref>,
        fails: Migration -> bool)
    requires Completes(db, plan, target, backfill, fails)
    ensures forall m :: m in plan && m.target == target ==> m.Id() in Run(db, plan, target, backfill, fails).applied
  {
    var applied := Prepare(db, backfill).applied;
    PendingMembers(plan, target, applied);
    var pending := Unapplied(plan, target, applied);
    assert pending[..|pending|] == pending;
  }

  /** Whatever was on record, was backfilled or belongs to the bootstrap is on record
      afterwards, and none of it is run. */
  lemma {:induction false} RecordedIsNotRun(db: Db, plan: seq<Migration>, target: Target, backfill: set<Ref>,
        fails: Migration -> bool)
    ensures db.applied + backfill + BOOTSTRAP <= Run(db, plan, target, backfill, fails).applied
    ensures BOOTSTRAP == {Ref("kikan", "create_kikan_migrations"), Ref("kikan", "create_kikan_meta")}
    ensures forall m :: m in NewlyRun(db, plan, target, backfill, fails) ==>
      m in plan && m.target == target && m.Id() !in db.applied && m.Id() !in backfill && m.Id() !in BOOTSTRAP
    ensures Run(db, plan, target, backfill, fails).ran == db.ran + NewlyRun(db, plan, target, backfill, fails)
  {
    PendingMembers(plan, target, Prepare(db, backfill).applied);
    forall m | m in NewlyRun(db, plan, target, backfill, fails)
      ensures m in Unapplied(plan, target, Prepare(db, backfill).applied)
    {
    }
  }

  /** A run that completes runs exactly the migrations of its target that were not on
      record, and adds exactly their ids. */
  lemma {:induction false} CompletedRunAddsExactly(db: Db, plan: seq<Migration>, target: Target, backfill: set<Ref>,
        fails: Migration -> bool)
    requires Completes(db, plan, target, backfill, fails)
    ensures forall m :: m in NewlyRun(db, plan, target, backfill, fails) <==>
      m in plan && m.target == target && m.Id() !in db.applied && m.Id() !in backfill && m.Id() !in BOOTSTRAP
    ensures forall id :: id in Run(db, plan, target, backfill, fails).applied <==>
      id in db.applied || id in backfill || id in BOOTSTRAP
        || exists m :: m in plan && m.target == target && m.Id() == id
  {
    var applied := Prepare(db, backfill).applied;
    var pending := Unapplied(plan, target, applied);
    PendingMembers(plan, target, applied);
    assert pending[..|pending|] == pending;
    forall id | exists m :: m in plan && m.target == target && m.Id() == id
      ensures id in applied + IdSet(pending)
    {
      var m :| m in plan && m.target == target && m.Id() == id;
      assert id !in applied ==> m in pending;
    }
  }

  /** The `q`-th of the plan still has to be run. */
  ghost predicate IsDue(db: Db, plan: seq<Migration>, target: Target, backfill: set<Ref>, q: nat) {
    && q < |plan| && plan[q].target == target
    && plan[q].Id() !in db.applied && plan[q].Id() !in backfill && plan[q].Id() !in BOOTSTRAP
  }

  lemma {:induction false} DueIsPending(plan: seq<Migration>, target: Target, applied: set<Ref>, q: nat)
    requires q < |plan| && plan[q].target == target && plan[q].Id() !in applied
    ensures ComesFrom(plan, target, applied, |Unapplied(plan[..q], target, applied)|, q)
  {
    var n := |plan| - 1;
    if q < n {
      DueIsPending(plan[..n], target, applied, q);
      assert plan[..n][..q] == plan[..q];
    }
  }

  /** All before `k` and `k` itself succeed. */
  lemma {:induction false} ReachesIff(pending: seq<Migration>, fails: Migration -> bool, k: nat)
    requires DistinctIds(pending) && k < |pending|
    ensures pending[k] in pending[..Reach(pending, fails)] <==> forall j :: 0 <= j <= k ==> !fails(pending[j])
  {
    if pending[k] in pending[..Reach(pending, fails)] {
      var i :| 0 <= i < Reach(pending, fails) && pending[i] == pending[k];
      assert i == k;
    }
    if forall j :: 0 <= j <= k ==> !fails(pending[j]) {
      assert k < Reach(pending, fails);
    }
  }

  ghost predicate DueSucceed(db: Db, plan: seq<Migration>, target: Target, backfill: set<Ref>,
        fails: Migration -> bool, q: nat) {
    forall p :: 0 <= p <= q && IsDue(db, plan, target, backfill, p) ==> !fails(plan[p])
  }

  lemma {:induction false} DueSucceedIff(db: Db, plan: seq<Migration>, target: Target, backfill: set<Ref>,
        fails: Migration -> bool, q: nat)
    requires q < |plan|
    ensures DueSucceed(db, plan, target, backfill, fails, q) <==>
      forall m :: m in Unapplied(plan[..q + 1], target, Prepare(db, backfill).applied) ==> !fails(m)
  {
    var applied := Prepare(db, backfill).applied;
    PendingMembers(plan[..q + 1], target, applied);
    forall p | 0 <= p <= q && IsDue(db, plan, target, backfill, p)
      ensures plan[p] in Unapplied(plan[..q + 1], target, applied)
    {
      assert plan[p] == plan[..q + 1][p];
    }
    var due := Unapplied(plan[..q + 1], target, applied);
    forall m | m in due
      ensures exists p :: 0 <= p <= q && IsDue(db, plan, target, backfill, p) && plan[p] == m
    {
      var p :| 0 <= p < q + 1 && plan[..q + 1][p] == m;
      assert IsDue(db, plan, target, backfill, p);
    }
  }

  /** A run goes as far as the first migration due that fails: it runs exactly those due
      before that one. */
  lemma {:induction false} RunStopsAtFirstFailure(db: Db, plan: seq<Migration>, target: Target, backfill: set<Ref>,
        fails: Migration -> bool, q: nat)
    requires DistinctIds(plan) && IsDue(db, plan, target, backfill, q)
    ensures plan[q] in NewlyRun(db, plan, target, backfill, fails) <==>
      DueSucceed(db, plan, target, backfill, fails, q)
  {
    var applied := Prepare(db, backfill).applied;
    var pending := Unapplied(plan, target, applied);
    var k := |Unapplied(plan[..q], target, applied)|;
    DueIsPending(plan, target, applied, q);
    PendingIsDistinct(plan, target, applied);
    ReachesIff(pending, fails, k);
    DueSucceedIff(db, plan, target, backfill, fails, q);
    assert plan[..q + 1] == plan[..q] + [plan[q]];
    UnappliedSnoc(plan[..q], plan[q], target, applied);
    assert pending[..k + 1] == Unapplied(plan[..q + 1], target, applied);
    assert forall j :: 0 <= j <= k ==> pending[..k + 1][j] == pending[j];
  }

  /** Nothing in the history is there twice, and all of it is on record. */
  ghost predicate RanOnce(db: Db) {
    DistinctIds(db.ran) && forall m :: m in db.ran ==> m.Id() in db.applied
  }

  /** No run, of any plan, completed or not, runs a migration a second time. */
  lemma {:induction false} NeverRunTwice(db: Db, plan: seq<Migration>, target: Target, backfill: set<Ref>,
        fails: Migration -> bool)
    requires RanOnce(db) && DistinctIds(plan)
    ensures RanOnce(Run(db, plan, target, backfill, fails))
  {
    var applied := Prepare(db, backfill).applied;
    PendingMembers(plan, target, applied);
    PendingIsDistinct(plan, target, applied);
    var newly := NewlyRun(db, plan, target, backfill, fails);
    var after := Run(db, plan, target, backfill, fails);
    assert after.ran == db.ran + newly;
    forall m | m in newly ensures m in Unapplied(plan, target, applied) {
    }
    forall p, q | 0 <= p < q < |after.ran| ensures after.ran[p].Id() != after.ran[q].Id() {
      if p < |db.ran| <= q {
        assert after.ran[p] in db.ran && after.ran[q] in newly;
      }
    }
  }

  lemma {:induction false} PendingAfterRun(db: Db, plan: seq<Migration>, target: Target, backfill: set<Ref>,
        fails: Migration -> bool)
    requires DistinctIds(plan)
    ensures var half := Run(db, plan, target, backfill, fails);
      var pending := Unapplied(plan, target, Prepare(db, backfill).applied);
      && Prepare(half, backfill) == half
      && Unapplied(plan, target, half.applied) == pending[Reach(pending, fails)..]
  {
    var applied := Prepare(db, backfill).applied;
    var pending := Unapplied(plan, target, applied);
    PendingAfter(plan, target, applied, Reach(pending, fails));
    var half := Run(db, plan, target, backfill, fails);
    assert Prepare(half, backfill).applied == half.applied;
  }

  /** The outcome of a run in which nothing fails. */
  function Uninterrupted(db: Db, plan: seq<Migration>, target: Target, backfill: set<Ref>): Db {
    var p := Prepare(db, backfill);
    var pending := Unapplied(plan, target, p.applied);
    Db(p.applied + IdSet(pending), p.ran + pending)
  }

  lemma {:induction false} CompletedIsUninterrupted(db: Db, plan: seq<Migration>, target: Target, backfill: set<Ref>,
        fails: Migration -> bool)
    requires Completes(db, plan, target, backfill, fails)
    ensures Run(db, plan, target, backfill, fails) == Uninterrupted(db, plan, target, backfill)
  {
    var pending := Unapplied(plan, target, Prepare(db, backfill).applied);
    assert pending[..|pending|] == pending;
  }

  lemma {:induction false} SplitIds(ms: seq<Migration>, n: nat)
    requires n <= |ms|
    ensures IdSet(ms) == IdSet(ms[..n]) + IdSet(ms[n..])
  {
    assert ms == ms[..n] + ms[n..];
    forall m | m in ms ensures m in ms[..n] || m in ms[n..] {
    }
  }

  lemma {:induction false} SplitCommits(p: Db, pending: seq<Migration>, n: nat)
    requires n <= |pending|
    ensures p.applied + IdSet(pending[..n]) + IdSet(pending[n..]) == p.applied + IdSet(pending)
    ensures p.ran + pending[..n] + pending[n..] == p.ran + pending
  {
    SplitIds(pending, n);
    assert p.applied + IdSet(pending[..n]) + IdSet(pending[n..]) ==
      p.applied + (IdSet(pending[..n]) + IdSet(pending[n..]));
    assert pending == pending[..n] + pending[n..];
  }

  /** A run cut short anywhere leaves the rest to a later one, and nothing else. */
  lemma {:induction false} RerunPicksUp(db: Db, plan: seq<Migration>, target: Target, backfill: set<Ref>,
        fails: Migration -> bool)
    requires DistinctIds(plan)
    ensures Uninterrupted(Run(db, plan, target, backfill, fails), plan, target, backfill)
      == Uninterrupted(db, plan, target, backfill)
  {
    PendingAfterRun(db, plan, target, backfill, fails);
    var p := Prepare(db, backfill);
    var pending := Unapplied(plan, target, p.applied);
    SplitCommits(p, pending, Reach(pending, fails));
  }

  /** Any number of runs, each stopping where it stops. */
  function Runs(db: Db, plan: seq<Migration>, target: Target, backfill: set<Ref>, stops: seq<Migration -> bool>): Db {
    if stops == [] then db
    else Run(Runs(db, plan, target, backfill, stops[..|stops| - 1]), plan, target, backfill, stops[|stops| - 1])
  }

  lemma {:induction false} RerunsPickUp(db: Db, plan: seq<Migration>, target: Target, backfill: set<Ref>,
                                        stops: seq<Migration -> bool>)
    requires DistinctIds(plan)
    ensures Uninterrupted(Runs(db, plan, target, backfill, stops), plan, target, backfill)
      == Uninterrupted(db, plan, target, backfill)
  {
    if stops != [] {
      var n := |stops| - 1;
      RerunsPickUp(db, plan, target, backfill, stops[..n]);
      RerunPicksUp(Runs(db, plan, target, backfill, stops[..n]), plan, target, backfill, stops[n]);
    }
  }

  /** Any number of runs cut short, then one that completes, leave the database and
      its history as a single uninterrupted run would. */
  lemma {:induction false} RestartConverges(db: Db, plan: seq<Migration>, target: Target, backfill: set<Ref>,
                         stops: seq<Migration -> bool>, last: Migration -> bool)
    requires DistinctIds(plan) && Completes(Runs(db, plan, target, backfill, stops), plan, target, backfill, last)
    ensures Run(Runs(db, plan, target, backfill, stops), plan, target, backfill, last)
      == Uninterrupted(db, plan, target, backfill)
  {
    RerunsPickUp(db, plan, target, backfill, stops);
    CompletedIsUninterrupted(Runs(db, plan, target, backfill, stops), plan, target, backfill, last);
  }

  // ------------------------------------------------------------ a whole boot

  /** Boot's two rounds: Meta migrations on the meta database, then, if they all
      went in, PerProfile migrations on a profile's. */
  function BootMeta(meta: Db, plan: seq<Migration>, fails: Migration -> bool): Db {
    Run(meta, plan, Meta, {}, fails)
  }

  /** Whatever a run records anew it has run, and that has the run's target. */
  lemma {:induction false} NewRecords(db: Db, all: set<Migration>, plan: seq<Migration>, target: Target,
        backfill: set<Ref>,
        fails: Migration -> bool, x: Migration)
    requires ValidOrder(plan, all) && Unambiguous(all) && x in all
    requires x.Id() !in Prepare(db, backfill).applied
    ensures x.Id() in Run(db, plan, target, backfill, fails).applied <==>
      x in NewlyRun(db, plan, target, backfill, fails)
    ensures x in NewlyRun(db, plan, target, backfill, fails) ==> x.target == target
  {
    var applied := Prepare(db, backfill).applied;
    var newly := NewlyRun(db, plan, target, backfill, fails);
    PendingMembers(plan, target, applied);
    assert forall m :: m in newly ==> m in Unapplied(plan, target, applied);
    if x.Id() in IdSet(newly) {
      var m :| m in newly && m.Id() == x.Id();
      assert m == x;
    }
  }

  /** When a PerProfile migration runs, the Meta and PerProfile migrations it depends
      on are applied: the former on the meta database, the latter on its own. */
  lemma {:induction false} BootMeetsDependencies(meta: Db, profile: Db, all: set<Migration>, plan: seq<Migration>,
        backfill: set<Ref>, metaFails: Migration -> bool, fails: Migration -> bool, p: nat, x: Migration)
    requires ValidOrder(plan, all) && Completes(meta, plan, Meta, {}, metaFails)
    requires p < |NewlyRun(profile, plan, PerProfile, backfill, fails)|
    requires x in all && NewlyRun(profile, plan, PerProfile, backfill, fails)[p].DependsOn(x)
    ensures x.target.Meta? ==> x.Id() in BootMeta(meta, plan, metaFails).applied
    ensures x.target.PerProfile? ==>
      x.Id() in Prepare(profile, backfill).applied || x in NewlyRun(profile, plan, PerProfile, backfill, fails)[..p]
  {
    if x.target.Meta? {
      CompletedRunAppliesAll(meta, plan, Meta, {}, metaFails);
    }
    if x.target.PerProfile? {
      DependenciesRunFirst(profile, all, plan, PerProfile, backfill, fails, p, x);
    }
  }

  /** A dependency on record nowhere beforehand is met, by the meta round or earlier in
      the profile's, exactly when its target is one of the two that boot runs. */
  lemma {:induction false} DependencyIsMetIff(meta: Db, profile: Db, all: set<Migration>, plan: seq<Migration>,
        backfill: set<Ref>, metaFails: Migration -> bool, fails: Migration -> bool, p: nat, x: Migration)
    requires ValidOrder(plan, all) && Unambiguous(all) && Completes(meta, plan, Meta, {}, metaFails)
    requires p < |NewlyRun(profile, plan, PerProfile, backfill, fails)|
    requires x in all && NewlyRun(profile, plan, PerProfile, backfill, fails)[p].DependsOn(x)
    requires x.Id() !in Prepare(meta, {}).applied && x.Id() !in Prepare(profile, backfill).applied
    ensures x.Id() in BootMeta(meta, plan, metaFails).applied <==> x.target.Meta?
    ensures x in NewlyRun(profile, plan, PerProfile, backfill, fails)[..p] <==> x.target.PerProfile?
    ensures x.Id() in BootMeta(meta, plan, metaFails).applied
      || x in NewlyRun(profile, plan, PerProfile, backfill, fails)[..p]
      <==> x.target.Meta? || x.target.PerProfile?
  {
    BootMeetsDependencies(meta, profile, all, plan, backfill, metaFails, fails, p, x);
    NewRecords(meta, all, plan, Meta, {}, metaFails, x);
    NewRecords(profile, all, plan, PerProfile, backfill, fails, x);
  }

  /** Over any rounds of boot, complete or not, a migration of another target that is
      not on record is neither run nor recorded. */
  lemma {:induction false} OtherTargetsAreNeverRun(db: Db, all: set<Migration>, plan: seq<Migration>, target: Target,
        backfill: set<Ref>, stops: seq<Migration -> bool>, x: Migration)
    requires ValidOrder(plan, all) && Unambiguous(all) && x in all && x.target != target
    requires x.Id() !in Prepare(db, backfill).applied && x !in db.ran
    ensures x.Id() !in Prepare(Runs(db, plan, target, backfill, stops), backfill).applied
    ensures x !in Runs(db, plan, target, backfill, stops).ran
  {
    if stops != [] {
      var n := |stops| - 1;
      OtherTargetsAreNeverRun(db, all, plan, target, backfill, stops[..n], x);
      NewRecords(Runs(db, plan, target, backfill, stops[..n]), all, plan, target, backfill, stops[n], x);
    }
  }

  lemma {:induction false} UnappliedTwo(a: Migration, b: Migration, target: Target, applied: set<Ref>)
    ensures Unapplied([a, b], target, applied)
      == (if a.target == target && a.Id() !in applied then [a] else [])
       + (if b.target == target && b.Id() !in applied then [b] else [])
  {
    assert [a, b][..1] == [a] && [a][..0] == [];
    assert Unapplied([a], target, applied) == [] + (if a.target == target && a.Id() !in applied then [a] else []);
  }

  /** A registration that resolution accepts in which it happens: on empty databases
      the PerProfile migration runs, and the Session one it depends on is recorded
      nowhere. */
  lemma {:induction false} UnmetDependencyIsAccepted(graft: string, none: Db)
    requires graft != "kikan" && none == Db({}, [])
    ensures var s := Migration(graft, "s", Session, []);
      var p := Migration(graft, "p", PerProfile, [s.Id()]);
      && WellFormed([p, s]) && Plan(AllOf([p, s])) == [s, p] && Stuck(AllOf([p, s])) == {}
      && NewlyRun(none, [s, p], PerProfile, {}, m => false) == [p]
      && s.Id() !in Run(none, [s, p], PerProfile, {}, m => false).applied
      && s.Id() !in BootMeta(none, [s, p], m => false).applied
  {
    var s := Migration(graft, "s", Session, []);
    var p := Migration(graft, "p", PerProfile, [s.Id()]);
    PlanOfTwo(s, p);
    assert AllOf([p, s]) == {s, p};
    RunsOfTwo(s, p, none);
  }

  lemma {:induction false} RunsOfTwo(s: Migration, p: Migration, none: Db)
    requires s.target.Session? && p.target.PerProfile? && none == Db({}, [])
    requires s.Id() != p.Id() && s.Id() !in BOOTSTRAP && p.Id() !in BOOTSTRAP
    ensures NewlyRun(none, [s, p], PerProfile, {}, m => false) == [p]
    ensures s.Id() !in Run(none, [s, p], PerProfile, {}, m => false).applied
    ensures s.Id() !in BootMeta(none, [s, p], m => false).applied
  {
    UnappliedTwo(s, p, PerProfile, BOOTSTRAP);
    UnappliedTwo(s, p, Meta, BOOTSTRAP);
    assert Prepare(none, {}).applied == BOOTSTRAP;
    ReachStops([p], m => false, 1);
  }

  lemma {:induction false} PlanOfTwo(s: Migration, p: Migration)
    requires s.target.Session? && s.dependencies == [] && p.target.PerProfile? && p.dependencies == [s.Id()]
    requires s.Id() != p.Id()
    ensures WellFormed([p, s]) && Plan({s, p}) == [s, p] && Stuck({s, p}) == {}
  {
    assert Ids([p, s])[1] == s.Id();
    BeforeTotal(s, s);
    BeforeTotal(p, p);
    assert Blocked(p, {s, p}) && Ready({s, p}) == {s};
    PlanStep({s, p}, s);
    assert {s, p} - {s} == {p} && Ready({p}) == {p};
    PlanStep({p}, p);
    assert {p} - {p} == {} && Ready({}) == {};
  }
}
