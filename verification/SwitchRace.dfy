/** Concurrent profile switches: each writes a file of its own, renames it over
    the shared profile file, and then, in a separate critical section, stores its
    target in memory. Other switches may run between the rename and the store. */
module SwitchRace {
  import opened Text

  datatype Pc = Ready | Renamed | Done

  datatype Step =
    | Rename(thread: nat)
    | RenameFails(thread: nat)
    | Flip(thread: nat)

  datatype World<K> = World(disk: K, memory: K, pcs: seq<Pc>)

  predicate Enabled<K>(w: World<K>, s: Step) {
    && s.thread < |w.pcs|
    && w.pcs[s.thread] == (if s.Flip? then Renamed else Ready)
  }

  function Apply<K>(targets: seq<K>, w: World<K>, s: Step): World<K>
    requires |targets| == |w.pcs| && Enabled(w, s)
  {
    match s
    case Rename(t) => World(targets[t], w.memory, w.pcs[t := Renamed])
    case RenameFails(t) => w.(pcs := w.pcs[t := Done])
    case Flip(t) => World(w.disk, targets[t], w.pcs[t := Done])
  }

  /** Before any switch, with disk and memory agreeing on `k`. */
  function Start<K>(targets: seq<K>, k: K): World<K> {
    World(k, k, seq(|targets|, i => Ready))
  }

  /** The state after `steps`, or nothing if some step is not enabled. */
  function After<K>(targets: seq<K>, k: K, steps: seq<Step>): (r: Option<World<K>>)
    ensures r.Some? ==> |r.value.pcs| == |targets|
  {
    if steps == [] then Some(Start(targets, k))
    else
      var before := After(targets, k, steps[..|steps| - 1]);
      var s := steps[|steps| - 1];
      if before.Some? && Enabled(before.value, s) then Some(Apply(targets, before.value, s)) else None
  }

  /** The steps of one switch. */
  function StepsOf(steps: seq<Step>, t: nat): seq<Step> {
    if steps == [] then []
    else StepsOf(steps[..|steps| - 1], t) + (if steps[|steps| - 1].thread == t then [steps[|steps| - 1]] else [])
  }

  /** In every run a switch renames once and then stores once, or fails once, and nothing
      else; how far it has come says which of that it has done. */
  lemma {:induction false} StepsOfEachSwitch<K>(targets: seq<K>, k: K, steps: seq<Step>, t: nat)
    requires After(targets, k, steps).Some? && t < |targets|
    ensures var own, pc := StepsOf(steps, t), After(targets, k, steps).value.pcs[t];
      match pc
      case Ready => own == []
      case Renamed => own == [Rename(t)]
      case Done => own == [Rename(t), Flip(t)] || own == [RenameFails(t)]
  {
    if steps != [] {
      var n := |steps| - 1;
      StepsOfEachSwitch(targets, k, steps[..n], t);
      if steps[n].thread != t {
        assert StepsOf(steps, t) == StepsOf(steps[..n], t);
      } else if After(targets, k, steps[..n]).value.pcs[t].Ready? {
        assert StepsOf(steps, t) == [steps[n]];
      } else {
        assert StepsOf(steps, t) == [Rename(t), Flip(t)];
      }
    }
  }

  ghost predicate Quiet<K>(w: World<K>) {
    forall t :: 0 <= t < |w.pcs| ==> w.pcs[t] != Renamed
  }

  function LastRename(steps: seq<Step>): Option<nat> {
    if steps == [] then None
    else if steps[|steps| - 1].Rename? then Some(steps[|steps| - 1].thread)
    else LastRename(steps[..|steps| - 1])
  }

  function LastFlip(steps: seq<Step>): Option<nat> {
    if steps == [] then None
    else if steps[|steps| - 1].Flip? then Some(steps[|steps| - 1].thread)
    else LastFlip(steps[..|steps| - 1])
  }

  function TargetOr<K>(targets: seq<K>, t: Option<nat>, k: K): K {
    if t.Some? && t.value < |targets| then targets[t.value] else k
  }

  /** Disk holds what was renamed last and memory what was stored last. */
  lemma {:induction false} LastWritesWin<K>(targets: seq<K>, k: K, steps: seq<Step>)
    requires After(targets, k, steps).Some?
    ensures var w := After(targets, k, steps).value;
      && w.disk == TargetOr(targets, LastRename(steps), k)
      && w.memory == TargetOr(targets, LastFlip(steps), k)
  {
    if steps != [] {
      LastWritesWin(targets, k, steps[..|steps| - 1]);
    }
  }

  // ------------------------------------------------------------ which sets of switches are safe

  predicate SameTargets<K(==)>(targets: seq<K>) {
    forall i, j :: 0 <= i < j < |targets| ==> targets[i] == targets[j]
  }

  /** Disk and memory agree at the end of every run that leaves no switch half done. */
  ghost predicate AlwaysAgrees<K>(targets: seq<K>, k: K) {
    forall steps :: EndsQuiet(targets, k, steps) ==>
      After(targets, k, steps).value.disk == After(targets, k, steps).value.memory
  }

  ghost predicate EndsQuiet<K>(targets: seq<K>, k: K, steps: seq<Step>) {
    After(targets, k, steps).Some? && Quiet(After(targets, k, steps).value)
  }

  /** With one target `t`, disk is on it once some switch has renamed, memory once
      some switch is done for good, and until then both are as they were. */
  ghost predicate OnTheWay<K>(w: World<K>, k: K, t: K) {
    && (w.disk == t || (w.disk == k && w.memory == k && Quiet(w)))
    && (w.memory == t || w.memory == k)
    && (w.memory == k && w.disk == t && t != k ==> !Quiet(w))
  }

  lemma {:induction false} StepStaysOnTheWay<K>(targets: seq<K>, w: World<K>, s: Step, k: K, t: K)
    requires |targets| == |w.pcs| && Enabled(w, s) && OnTheWay(w, k, t)
    requires forall i :: 0 <= i < |targets| ==> targets[i] == t
    ensures OnTheWay(Apply(targets, w, s), k, t)
  {
    var after := Apply(targets, w, s);
    if s.Rename? {
      assert after.pcs[s.thread] == Renamed;
    } else if s.Flip? {
      assert w.pcs[s.thread] == Renamed;
    } else if !Quiet(w) {
      var u :| 0 <= u < |w.pcs| && w.pcs[u] == Renamed;
      assert after.pcs[u] == Renamed;
    }
  }

  lemma {:induction false} OneTargetAgrees<K>(targets: seq<K>, k: K, t: K, steps: seq<Step>)
    requires forall i :: 0 <= i < |targets| ==> targets[i] == t
    requires After(targets, k, steps).Some?
    ensures OnTheWay(After(targets, k, steps).value, k, t)
  {
    if steps != [] {
      var n := |steps| - 1;
      OneTargetAgrees(targets, k, t, steps[..n]);
      StepStaysOnTheWay(targets, After(targets, k, steps[..n]).value, steps[n], k, t);
    }
  }

  /** The four steps by which switch `j` overtakes switch `i`. */
  function Overtake(i: nat, j: nat): seq<Step> {
    [Rename(i), Rename(j), Flip(j), Flip(i)]
  }

  lemma {:induction false} OneMore<K>(targets: seq<K>, k: K, steps: seq<Step>, s: Step)
    requires After(targets, k, steps).Some? && Enabled(After(targets, k, steps).value, s)
    ensures After(targets, k, steps + [s]) == Some(Apply(targets, After(targets, k, steps).value, s))
  {
    assert (steps + [s])[..|steps|] == steps;
  }

  /** Any two switches can end with disk on the second's target and memory on the first's. */
  lemma {:induction false} OvertakingEnds<K>(targets: seq<K>, k: K, i: nat, j: nat)
    requires i < |targets| && j < |targets| && i != j
    ensures EndsQuiet(targets, k, Overtake(i, j))
    ensures After(targets, k, Overtake(i, j)).value.disk == targets[j]
    ensures After(targets, k, Overtake(i, j)).value.memory == targets[i]
    ensures After(targets, k, Overtake(i, j)).value.pcs[i] == Done
    ensures After(targets, k, Overtake(i, j)).value.pcs[j] == Done
  {
    OneMore(targets, k, [], Rename(i));
    OneMore(targets, k, [Rename(i)], Rename(j));
    assert [Rename(i)] + [Rename(j)] == [Rename(i), Rename(j)] && [] + [Rename(i)] == [Rename(i)];
    OneMore(targets, k, [Rename(i), Rename(j)], Flip(j));
    assert [Rename(i), Rename(j)] + [Flip(j)] == [Rename(i), Rename(j), Flip(j)];
    OneMore(targets, k, [Rename(i), Rename(j), Flip(j)], Flip(i));
    assert [Rename(i), Rename(j), Flip(j)] + [Flip(i)] == Overtake(i, j);
  }

  /** Switches that may overlap are safe exactly when they all have one target. */
  lemma {:induction false} AlwaysAgreesIffSameTargets<K(!new)>(targets: seq<K>, k: K)
    ensures AlwaysAgrees(targets, k) <==> SameTargets(targets)
  {
    if SameTargets(targets) {
      var t := if targets == [] then k else targets[0];
      forall steps | EndsQuiet(targets, k, steps)
        ensures After(targets, k, steps).value.disk == After(targets, k, steps).value.memory
      {
        OneTargetAgrees(targets, k, t, steps);
      }
    } else {
      var i, j :| 0 <= i < j < |targets| && targets[i] != targets[j];
      OvertakingEnds(targets, k, i, j);
    }
  }

  /** No switch renames while another is between its rename and its store. */
  ghost predicate Exclusive<K>(targets: seq<K>, k: K, steps: seq<Step>) {
    forall i :: 0 <= i < |steps| && steps[i].Rename? && After(targets, k, steps[..i]).Some? ==>
      Quiet(After(targets, k, steps[..i]).value)
  }

  /** At most one switch is in between, and then disk holds its target. */
  ghost predicate InStep<K>(targets: seq<K>, w: World<K>)
    requires |targets| == |w.pcs|
  {
    && (Quiet(w) ==> w.disk == w.memory)
    && (forall t :: 0 <= t < |w.pcs| && w.pcs[t] == Renamed ==> w.disk == targets[t])
    && (forall t, u :: 0 <= t < u < |w.pcs| ==> w.pcs[t] != Renamed || w.pcs[u] != Renamed)
  }

  lemma {:induction false} StepKeepsInStep<K>(targets: seq<K>, w: World<K>, s: Step)
    requires |targets| == |w.pcs| && InStep(targets, w) && Enabled(w, s)
    requires s.Rename? ==> Quiet(w)
    ensures InStep(targets, Apply(targets, w, s))
  {
    var after := Apply(targets, w, s);
    if s.Rename? {
      assert after.pcs[s.thread] == Renamed;
    } else if s.Flip? {
      assert w.pcs[s.thread] == Renamed;
    } else if Quiet(after) {
      forall t | 0 <= t < |w.pcs| ensures w.pcs[t] != Renamed {
        assert after.pcs[t] != Renamed;
      }
    }
  }

  /** If the rename and the store were one critical section, as the comment above
      `persist_and_flip` has it, disk and memory would agree whenever no switch is
      inside it. */
  lemma {:induction false} ExclusiveSwitchesAgree<K>(targets: seq<K>, k: K, steps: seq<Step>)
    requires After(targets, k, steps).Some? && Exclusive(targets, k, steps)
    ensures InStep(targets, After(targets, k, steps).value)
  {
    if steps != [] {
      var n := |steps| - 1;
      forall i | 0 <= i < n && steps[..n][i].Rename? && After(targets, k, steps[..n][..i]).Some?
        ensures Quiet(After(targets, k, steps[..n][..i]).value)
      {
        assert steps[..n][..i] == steps[..i];
      }
      ExclusiveSwitchesAgree(targets, k, steps[..n]);
      StepKeepsInStep(targets, After(targets, k, steps[..n]).value, steps[n]);
    }
  }

  /** It is not one critical section: two switches to different profiles can both
      succeed and leave memory on one and the disk, hence the next start, on the
      other. */
  lemma {:induction false} OverlappingSwitchesDisagree<K>(a: K, b: K, k: K)
    requires a != b
    ensures var w := After([a, b], k, [Rename(0), Rename(1), Flip(1), Flip(0)]);
      w.Some? && w.value.pcs == [Done, Done] && w.value.disk == b && w.value.memory == a
  {
    OvertakingEnds([a, b], k, 0, 1);
  }
}
