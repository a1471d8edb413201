/** The start-up migration from the flat layout (`mokumo.db` in the data
    directory) to the dual-profile one, cut off anywhere and rerun. */
module LayoutMigration {
  import opened Text
  import opened SetupProfile

  datatype Layout = Layout(flat: Option<seq<Byte>>, production: Option<seq<Byte>>, profile: ProfileFile)

  /** Where a run is cut off, by a crash or by an error return.  A torn call has
      written its first `bytes` bytes; a call that is not made cuts nothing. */
  datatype Stop =
    | Never
    | BeforeCopy
    | TornCopy(bytes: nat)
    | BeforeProfile
    | TornProfile(bytes: nat)
    | BeforeRemove

  function Prefix<T>(s: seq<T>, n: nat): seq<T> {
    if n < |s| then s[..n] else s
  }

  // ---------------------------------------------------------- one run, as values

  function Copied(d: Layout): Layout {
    if d.production.None? && d.flat.Some? then d.(production := d.flat) else d
  }

  function Selected(d: Layout): Layout {
    if d.profile.Absent? && d.flat.Some? then d.(profile := Written(Production)) else d
  }

  function Removed(d: Layout): Layout {
    d.(flat := None)
  }

  function Complete(d: Layout): Layout {
    Removed(Selected(Copied(d)))
  }

  /** The directory after one run, and whether the run finished. */
  function RunOnce(d: Layout, stop: Stop): (Layout, bool) {
    match stop
    case Never => (Complete(d), true)
    case BeforeCopy => (d, false)
    case TornCopy(n) =>
      if d.production.None? && d.flat.Some? then (d.(production := Some(Prefix(d.flat.value, n))), false)
      else (Complete(d), true)
    case BeforeProfile => (Copied(d), false)
    case TornProfile(n) =>
      var c := Copied(d);
      if c.profile.Absent? && c.flat.Some? then (c.(profile := Contents(Prefix(DirName(Production), n))), false)
      else (Complete(d), true)
    case BeforeRemove => (Selected(Copied(d)), false)
  }

  function Runs(d: Layout, stops: seq<Stop>): Layout
    decreases |stops|
  {
    if stops == [] then d else Runs(RunOnce(d, stops[0]).0, stops[1..])
  }

  // ---------------------------------------------------------- the routine

  class DataDir {
    var flat: Option<seq<Byte>>
    var production: Option<seq<Byte>>
    var profile: ProfileFile

    ghost function View(): Layout
      reads this
    {
      Layout(flat, production, profile)
    }

    constructor (flat: Option<seq<Byte>>, production: Option<seq<Byte>>, profile: ProfileFile)
      ensures View() == Layout(flat, production, profile)
    {
      this.flat := flat;
      this.production := production;
      this.profile := profile;
    }

    method MigrateFlatLayout(stop: Stop) returns (finished: bool)
      modifies this
      ensures (View(), finished) == RunOnce(old(View()), stop)
    {
      if stop == BeforeCopy { return false; }
      var flatExists := flat.Some?;
      var productionExists := production.Some?;
      if !productionExists && flatExists {
        if stop.TornCopy? {
          production := Some(Prefix(flat.value, stop.bytes));
          return false;
        }
        production := flat;
      }
      if stop == BeforeProfile { return false; }
      if profile.Absent? && flatExists {
        if stop.TornProfile? {
          profile := Contents(Prefix(DirName(Production), stop.bytes));
          return false;
        }
        profile := Written(Production);
      }
      if stop == BeforeRemove { return false; }
      if flatExists {
        flat := None;
      }
      return true;
    }
  }

  // ---------------------------------------------------------- restartability

  predicate Torn(stop: Stop) {
    stop.TornCopy? || stop.TornProfile?
  }

  /** What an uninterrupted run leaves behind. */
  lemma {:induction false} CompleteRun(d: Layout)
    ensures var c := Complete(d);
      && c.flat == None
      && c.production == (if d.production.Some? then d.production else d.flat)
      && (d.flat.Some? && d.profile.Absent? ==> Resolve(c.profile) == Production)
      && (d.flat.None? || !d.profile.Absent? ==> c.profile == d.profile)
  {
    WriteThenResolve(Production);
  }

  /** A run that says it finished has done all of it, and if there was a flat file, it
      is gone exactly then. */
  lemma {:induction false} FinishedIff(d: Layout, stop: Stop)
    ensures RunOnce(d, stop).1 ==> RunOnce(d, stop).0 == Complete(d)
    ensures d.flat.Some? ==> (RunOnce(d, stop).1 <==> RunOnce(d, stop).0.flat.None?)
    ensures d.flat.None? ==> RunOnce(d, stop).0 == d && (RunOnce(d, stop).1 <==> stop.Never? || Torn(stop))
  {
  }

  /** Runs cut off between calls, in any number, change nothing in the end. */
  lemma {:induction false} RestartConverges(d: Layout, stops: seq<Stop>)
    requires forall s :: s in stops ==> !Torn(s)
    ensures Complete(Runs(d, stops)) == Complete(d)
    decreases |stops|
  {
    if stops != [] {
      assert stops[0] in stops;
      RestartConverges(RunOnce(d, stops[0]).0, stops[1..]);
    }
  }

  /** Until production holds them, the original bytes stay in the flat slot. */
  lemma {:induction false} BytesNeverLost(d: Layout, stops: seq<Stop>)
    requires d.flat.Some? && d.production.None?
    requires forall s :: s in stops ==> !Torn(s)
    ensures var e := Runs(d, stops);
      e.production == d.flat || (e.production == None && e.flat == d.flat)
  {
    RunsKeep(d, stops, d.flat);
  }

  lemma {:induction false} RunsKeep(d: Layout, stops: seq<Stop>, original: Option<seq<Byte>>)
    requires d.production == original || (d.production == None && d.flat == original)
    requires original.Some?
    requires forall s :: s in stops ==> !Torn(s)
    ensures var e := Runs(d, stops);
      e.production == original || (e.production == None && e.flat == original)
    decreases |stops|
  {
    if stops != [] {
      assert stops[0] in stops;
      RunsKeep(RunOnce(d, stops[0]).0, stops[1..], original);
    }
  }

  // ------------------------------------------- torn writes: the exact condition

  /** The first run to reach the copy completes it. */
  predicate CopyIntact(stops: seq<Stop>, size: nat) {
    stops == [] ||
    match stops[0]
    case BeforeCopy => CopyIntact(stops[1..], size)
    case TornCopy(n) => n >= size
    case _ => true
  }

  /** The first run to reach the profile write completes it. */
  predicate ProfileIntact(stops: seq<Stop>, productionExists: bool) {
    stops == [] ||
    match stops[0]
    case BeforeCopy => ProfileIntact(stops[1..], productionExists)
    case TornCopy(_) => productionExists || ProfileIntact(stops[1..], true)
    case BeforeProfile => ProfileIntact(stops[1..], true)
    case TornProfile(n) => n >= |DirName(Production)|
    case _ => true
  }

  /** A slot once filled keeps its bytes, whatever they are. */
  lemma {:induction false} ProductionFrozen(d: Layout, stops: seq<Stop>)
    requires d.production.Some?
    ensures Runs(d, stops).production == d.production
    decreases |stops|
  {
    if stops != [] {
      ProductionFrozen(RunOnce(d, stops[0]).0, stops[1..]);
    }
  }

  /** With torn copies allowed, the flat bytes reach production exactly when the
      first copy to start is not cut short: the rerun takes a partial file for a
      finished one and removes the flat file. */
  lemma {:induction false} BytesArriveIffCopyIntact(d: Layout, stops: seq<Stop>)
    requires d.flat.Some? && d.production.None?
    ensures Complete(Runs(d, stops)).production == d.flat <==> CopyIntact(stops, |d.flat.value|)
    ensures Complete(Runs(d, stops)).flat == None
    decreases |stops|
  {
    if stops != [] {
      var next := RunOnce(d, stops[0]).0;
      if stops[0] == BeforeCopy {
        BytesArriveIffCopyIntact(next, stops[1..]);
      } else {
        ProductionFrozen(next, stops[1..]);
        if stops[0].TornCopy? {
          assert |next.production.value| == if stops[0].bytes < |d.flat.value| then stops[0].bytes else |d.flat.value|;
        }
      }
    }
  }

  lemma {:induction false} ProfileFrozen(d: Layout, stops: seq<Stop>)
    requires !d.profile.Absent?
    ensures Complete(Runs(d, stops)).profile == d.profile
    decreases |stops|
  {
    if stops != [] {
      ProfileFrozen(RunOnce(d, stops[0]).0, stops[1..]);
    }
  }

  /** Whether one run reaches the profile write, and what it leaves there. */
  lemma {:induction false} ProfileAfterOneRun(d: Layout, stop: Stop)
    requires d.flat.Some? && d.profile.Absent?
    ensures var next := RunOnce(d, stop).0;
      && (next.profile.Absent? <==>
            stop.BeforeCopy? || (stop.TornCopy? && d.production.None?) || stop.BeforeProfile?)
      && (next.profile.Absent? ==>
            next.flat.Some? && (next.production.Some? <==> d.production.Some? || !stop.BeforeCopy?))
      && (!next.profile.Absent? ==>
            (Resolve(next.profile) == Production <==> !stop.TornProfile? || stop.bytes >= |DirName(Production)|))
  {
    WriteThenResolve(Production);
    if stop.TornProfile? && stop.bytes < |DirName(Production)| {
      TornWriteResolvesToDemo(stop.bytes);
    }
  }

  /** A migrated install comes up as production exactly when the first profile
      write to start is not cut short. */
  lemma {:induction false} ProductionSelectedIffProfileIntact(d: Layout, stops: seq<Stop>)
    requires d.flat.Some? && d.profile.Absent?
    ensures Resolve(Complete(Runs(d, stops)).profile) == Production <==> ProfileIntact(stops, d.production.Some?)
    decreases |stops|
  {
    if stops == [] {
      WriteThenResolve(Production);
    } else {
      var next := RunOnce(d, stops[0]).0;
      ProfileAfterOneRun(d, stops[0]);
      if next.profile.Absent? {
        ProductionSelectedIffProfileIntact(next, stops[1..]);
      } else {
        ProfileFrozen(next, stops[1..]);
      }
    }
  }
}
