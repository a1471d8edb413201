/** Operator thresholds, their validation, and the resolvers that turn a
    measurement into a status. */
module Thresholds {

  datatype Status = Green | Yellow | Red

  function Rank(s: Status): nat {
    match s
    case Green => 0
    case Yellow => 1
    case Red => 2
  }

  function WorstOf(a: Status, b: Status): Status {
    if a.Red? || b.Red? then Red else if a.Yellow? || b.Yellow? then Yellow else Green
  }

  /** A configured number: TOML admits the non-finite ones as well. */
  datatype Float = NaN | NegInf | PosInf | Finite(v: real)

  /** IEEE 754 `a <= b`. */
  predicate FloatLe(a: Float, b: Float) {
    && !a.NaN? && !b.NaN?
    && (a.NegInf? || b.PosInf? || (a.Finite? && b.Finite? && a.v <= b.v))
  }

  predicate FloatLt(a: Float, b: Float) {
    !a.NaN? && !b.NaN? && !FloatLe(b, a)
  }

  datatype CoverageThresholds = CoverageThresholds(warn: Float, fail: Float)

  datatype HandlerThresholds = HandlerThresholds(warn: Float, fail: Float, reportOnly: bool)

  datatype CountThresholds = CountThresholds(warn: nat, fail: nat)

  datatype WallClockThresholds = WallClockThresholds(warn: Float, fail: Float)

  datatype Config = Config(
    coverage: CoverageThresholds,
    bddFeature: CountThresholds,
    bddScenario: CountThresholds,
    flaky: CountThresholds,
    wallClock: WallClockThresholds,
    handler: HandlerThresholds)

  // ------------------------------------------------------------ resolvers

  function ResolveDelta(delta: real, t: CoverageThresholds): Status {
    if FloatLe(Finite(delta), t.fail) then Red
    else if FloatLe(Finite(delta), t.warn) then Yellow
    else Green
  }

  function ResolveHandler(pct: real, t: HandlerThresholds): Status {
    if FloatLe(Finite(pct), t.fail) then Red
    else if FloatLe(Finite(pct), t.warn) then Yellow
    else Green
  }

  function ResolveCount(count: nat, t: CountThresholds): Status {
    if count >= t.fail then Red else if count >= t.warn then Yellow else Green
  }

  function ResolveWallClock(delta: real, t: WallClockThresholds): Status {
    if FloatLe(t.fail, Finite(delta)) then Red
    else if FloatLe(t.warn, Finite(delta)) then Yellow
    else Green
  }

  predicate Resolves(pcts: seq<real>, t: HandlerThresholds, s: Status) {
    exists i :: 0 <= i < |pcts| && ResolveHandler(pcts[i], t) == s
  }

  /** The worst of all handlers; without handlers there is nothing to report. */
  function HandlerVerdict(pcts: seq<real>, t: HandlerThresholds): Status {
    if Resolves(pcts, t, Red) then Red else if Resolves(pcts, t, Yellow) then Yellow else Green
  }

  /** The loop stops at the first Red. */
  method ResolveCoverageHandler(pcts: seq<real>, t: HandlerThresholds) returns (worst: Status)
    ensures worst == HandlerVerdict(pcts, t)
  {
    worst := Green;
    for i := 0 to |pcts|
      invariant worst == HandlerVerdict(pcts[..i], t) && !worst.Red?
    {
      var before := pcts[..i];
      var s := ResolveHandler(pcts[i], t);
      assert forall k :: 0 <= k < i ==> before[k] == pcts[..i + 1][k] == pcts[k];
      assert pcts[..i + 1][i] == pcts[i];
      assert forall c :: Resolves(pcts[..i + 1], t, c) <==> Resolves(before, t, c) || s == c;
      worst := WorstOf(worst, s);
      if worst.Red? {
        assert ResolveHandler(pcts[i], t) == Red;
        return;
      }
    }
    assert pcts[..|pcts|] == pcts;
  }

  /** A threshold that is not a number, or below all numbers, is never reached; one above
      all numbers always is. */
  lemma {:induction false} NonFiniteThresholds(x: real, w: Float, f: Float, r: bool)
    ensures f.PosInf? ==> ResolveDelta(x, CoverageThresholds(w, f)) == Red
    ensures (f.NaN? || f.NegInf?) && (w.NaN? || w.NegInf?) ==>
      ResolveDelta(x, CoverageThresholds(w, f)) == Green && ResolveHandler(x, HandlerThresholds(w, f, r)) == Green
    ensures (f.NaN? || f.NegInf?) && w.PosInf? ==> ResolveDelta(x, CoverageThresholds(w, f)) == Yellow
  {
  }

  /** What the thresholds mean for finite numbers. */
  lemma {:induction false} ColourOfNumber(x: real, w: real, f: real, r: bool)
    ensures ResolveDelta(x, CoverageThresholds(Finite(w), Finite(f))) == Red <==> x <= f
    ensures ResolveDelta(x, CoverageThresholds(Finite(w), Finite(f))) == Green <==> f < x && w < x
    ensures ResolveHandler(x, HandlerThresholds(Finite(w), Finite(f), r)) == Red <==> x <= f
    ensures ResolveWallClock(x, WallClockThresholds(Finite(w), Finite(f))) == Red <==> f <= x
    ensures ResolveWallClock(x, WallClockThresholds(Finite(w), Finite(f))) == Green <==> x < w && x < f
    ensures ResolveHandler(x, HandlerThresholds(Finite(w), Finite(f), r)) == Green <==> f < x && w < x
  {
  }

  // ------------------------------------------------------------ validation

  datatype ConfigError =
    | CoverageNotFinite | CoverageInverted
    | BddFeatureInverted | BddScenarioInverted | FlakyInverted
    | WallClockNotFinite | WallClockInverted
    | HandlerNotFinite | HandlerOutOfRange | HandlerInverted

  datatype Checked = Accepted | Rejected(error: ConfigError)

  function ValidateCoverage(t: CoverageThresholds): Checked {
    if !t.warn.Finite? || !t.fail.Finite? then Rejected(CoverageNotFinite)
    else if t.fail.v > t.warn.v then Rejected(CoverageInverted)
    else Accepted
  }

  function ValidateCounts(c: Config): Checked {
    if c.bddFeature.fail < c.bddFeature.warn then Rejected(BddFeatureInverted)
    else if c.bddScenario.fail < c.bddScenario.warn then Rejected(BddScenarioInverted)
    else if c.flaky.fail < c.flaky.warn then Rejected(FlakyInverted)
    else Accepted
  }

  function ValidateWallClock(t: WallClockThresholds): Checked {
    if !t.warn.Finite? || !t.fail.Finite? then Rejected(WallClockNotFinite)
    else if t.fail.v < t.warn.v then Rejected(WallClockInverted)
    else Accepted
  }

  function ValidateHandler(t: HandlerThresholds): Checked {
    if !t.warn.Finite? || !t.fail.Finite? then Rejected(HandlerNotFinite)
    else if !(0.0 <= t.warn.v <= 100.0) || !(0.0 <= t.fail.v <= 100.0) then Rejected(HandlerOutOfRange)
    else if t.fail.v > t.warn.v then Rejected(HandlerInverted)
    else Accepted
  }

  function Validate(c: Config): Checked {
    if ValidateCoverage(c.coverage).Rejected? then ValidateCoverage(c.coverage)
    else if ValidateCounts(c).Rejected? then ValidateCounts(c)
    else if ValidateWallClock(c.wallClock).Rejected? then ValidateWallClock(c.wallClock)
    else ValidateHandler(c.handler)
  }

  ghost predicate DeltaYellow(t: CoverageThresholds) {
    exists d :: ResolveDelta(d, t) == Yellow
  }

  ghost predicate CountYellow(t: CountThresholds) {
    exists n :: ResolveCount(n, t) == Yellow
  }

  ghost predicate WallClockYellow(t: WallClockThresholds) {
    exists d :: ResolveWallClock(d, t) == Yellow
  }

  ghost predicate HandlerYellow(t: HandlerThresholds) {
    exists p :: ResolveHandler(p, t) == Yellow
  }

  lemma {:induction false} DeltaYellowIff(w: real, f: real)
    ensures DeltaYellow(CoverageThresholds(Finite(w), Finite(f))) <==> f < w
  {
    if f < w { assert ResolveDelta(w, CoverageThresholds(Finite(w), Finite(f))) == Yellow; }
  }

  lemma {:induction false} WallClockYellowIff(w: real, f: real)
    ensures WallClockYellow(WallClockThresholds(Finite(w), Finite(f))) <==> w < f
  {
    if w < f { assert ResolveWallClock(w, WallClockThresholds(Finite(w), Finite(f))) == Yellow; }
  }

  lemma {:induction false} HandlerYellowIff(w: real, f: real, r: bool)
    ensures HandlerYellow(HandlerThresholds(Finite(w), Finite(f), r)) <==> f < w
  {
    if f < w { assert ResolveHandler(w, HandlerThresholds(Finite(w), Finite(f), r)) == Yellow; }
  }

  lemma {:induction false} CountYellowIff(t: CountThresholds)
    ensures CountYellow(t) <==> t.warn < t.fail
  {
    if t.warn < t.fail { assert ResolveCount(t.warn, t) == Yellow; }
  }

  /** What validation says, with the exact cause of each answer: the first rule violated,
      in the order coverage, features, scenarios, flaky tests, wall clock, handlers. */
  lemma {:induction false} ConfigErrorsIff(c: Config)
    ensures var r := Validate(c);
      var finite := c.coverage.warn.Finite? && c.coverage.fail.Finite?;
      var delta := finite && c.coverage.fail.v <= c.coverage.warn.v;
      var features := delta && c.bddFeature.warn <= c.bddFeature.fail;
      var scenarios := features && c.bddScenario.warn <= c.bddScenario.fail;
      var counts := scenarios && c.flaky.warn <= c.flaky.fail;
      var clock := counts && c.wallClock.warn.Finite? && c.wallClock.fail.Finite?;
      var timed := clock && c.wallClock.warn.v <= c.wallClock.fail.v;
      var numbers := timed && c.handler.warn.Finite? && c.handler.fail.Finite?;
      var ranged := numbers && 0.0 <= c.handler.warn.v <= 100.0 && 0.0 <= c.handler.fail.v <= 100.0;
      && (r == Rejected(CoverageNotFinite) <==> !finite)
      && (r == Rejected(CoverageInverted) <==> finite && !delta)
      && (r == Rejected(BddFeatureInverted) <==> delta && !features)
      && (r == Rejected(BddScenarioInverted) <==> features && !scenarios)
      && (r == Rejected(FlakyInverted) <==> scenarios && !counts)
      && (r == Rejected(WallClockNotFinite) <==> counts && !clock)
      && (r == Rejected(WallClockInverted) <==> clock && !timed)
      && (r == Rejected(HandlerNotFinite) <==> timed && !numbers)
      && (r == Rejected(HandlerOutOfRange) <==> numbers && !ranged)
      && (r == Rejected(HandlerInverted) <==> ranged && c.handler.warn.v < c.handler.fail.v)
      && (r == Accepted <==> ranged && c.handler.fail.v <= c.handler.warn.v)
  {
  }

  /** In an accepted config every row can turn Yellow, unless its two thresholds
      are equal: such a row is accepted too, and jumps from Green to Red. */
  lemma {:induction false} AcceptedConfigReachesYellow(c: Config)
    requires Validate(c).Accepted?
    ensures DeltaYellow(c.coverage) <==> c.coverage.warn != c.coverage.fail
    ensures CountYellow(c.bddFeature) <==> c.bddFeature.warn != c.bddFeature.fail
    ensures CountYellow(c.bddScenario) <==> c.bddScenario.warn != c.bddScenario.fail
    ensures CountYellow(c.flaky) <==> c.flaky.warn != c.flaky.fail
    ensures WallClockYellow(c.wallClock) <==> c.wallClock.warn != c.wallClock.fail
    ensures HandlerYellow(c.handler) <==> c.handler.warn != c.handler.fail
  {
    DeltaYellowIff(c.coverage.warn.v, c.coverage.fail.v);
    CountYellowIff(c.bddFeature);
    CountYellowIff(c.bddScenario);
    CountYellowIff(c.flaky);
    WallClockYellowIff(c.wallClock.warn.v, c.wallClock.fail.v);
    HandlerYellowIff(c.handler.warn.v, c.handler.fail.v, c.handler.reportOnly);
  }

  /** What validation turns away: a non-finite number, a percentage out of range, or
      a row whose unequal thresholds leave it no Yellow. */
  lemma {:induction false} RejectedConfigHasACause(c: Config)
    requires c.coverage.warn.Finite? && c.coverage.fail.Finite? && c.wallClock.warn.Finite? && c.wallClock.fail.Finite?
    requires c.handler.warn.Finite? && c.handler.fail.Finite?
    requires 0.0 <= c.handler.warn.v <= 100.0 && 0.0 <= c.handler.fail.v <= 100.0
    ensures Validate(c).Rejected? <==>
      || (!DeltaYellow(c.coverage) && c.coverage.warn != c.coverage.fail)
      || (!CountYellow(c.bddFeature) && c.bddFeature.warn != c.bddFeature.fail)
      || (!CountYellow(c.bddScenario) && c.bddScenario.warn != c.bddScenario.fail)
      || (!CountYellow(c.flaky) && c.flaky.warn != c.flaky.fail)
      || (!WallClockYellow(c.wallClock) && c.wallClock.warn != c.wallClock.fail)
      || (!HandlerYellow(c.handler) && c.handler.warn != c.handler.fail)
  {
    DeltaYellowIff(c.coverage.warn.v, c.coverage.fail.v);
    CountYellowIff(c.bddFeature);
    CountYellowIff(c.bddScenario);
    CountYellowIff(c.flaky);
    WallClockYellowIff(c.wallClock.warn.v, c.wallClock.fail.v);
    HandlerYellowIff(c.handler.warn.v, c.handler.fail.v, c.handler.reportOnly);
  }

  /** With equal coverage thresholds a delta exactly there is Red, not Yellow. */
  lemma {:induction false} EqualThresholdsAreRed(at: real)
    ensures var t := CoverageThresholds(Finite(at), Finite(at));
      ValidateCoverage(t).Accepted? && ResolveDelta(at, t) == Red && forall d :: ResolveDelta(d, t) != Yellow
  {
  }
}

/** The coverage row: its colour and the explanation it must carry. */
module CoverageRow {
  import opened Breakouts
  import opened Text
  import opened Thresholds

  const SHOW_LIMIT := 5

  /** One part of a failure text. */
  datatype Part =
    | DeltaDrop(drop: real, threshold: Float)
    | Offenders(count: nat, threshold: Float, shown: seq<Entry>, more: nat)
    | Fallback

  datatype Row = Row(status: Status, delta: real, breakouts: seq<WireCrate>, detail: seq<Part>)

  /** The entries of the artifact that `bad` picks, in order. */
  function Picked(es: seq<Entry>, bad: Entry -> bool): seq<Entry> {
    if es == [] then []
    else Picked(es[..|es| - 1], bad) + (if bad(es[|es| - 1]) then [es[|es| - 1]] else [])
  }

  function OffendersPart(offenders: seq<Entry>, threshold: Float): Part {
    if |offenders| > SHOW_LIMIT
      then Offenders(|offenders|, threshold, offenders[..SHOW_LIMIT], |offenders| - SHOW_LIMIT)
      else Offenders(|offenders|, threshold, offenders, 0)
  }

  function YellowDetail(a: Option<Artifact>, t: HandlerThresholds, handler: Status): seq<Part> {
    if t.reportOnly || !handler.Yellow? || a.None? then []
    else [OffendersPart(Picked(Entries(a.value), WarnsAt(t)), t.warn)]
  }

  function WarnsAt(t: HandlerThresholds): Entry -> bool {
    (e: Entry) => FloatLe(Finite(e.pct), t.warn) && FloatLt(t.fail, Finite(e.pct))
  }

  function FailsAt(t: HandlerThresholds): Entry -> bool {
    (e: Entry) => FloatLe(Finite(e.pct), t.fail)
  }

  /** The part counts all offenders, shows the first few and says how many it omits. */
  predicate Counts(p: Part, offenders: seq<Entry>, threshold: Float) {
    && p.Offenders? && p.count == |offenders| && p.threshold == threshold
    && p.shown <= offenders && |p.shown| + p.more == p.count
    && |p.shown| == if p.count <= SHOW_LIMIT then p.count else SHOW_LIMIT
  }

  /** It does, and there is something to count. */
  predicate Names(p: Part, offenders: seq<Entry>, threshold: Float) {
    Counts(p, offenders, threshold) && 0 < p.count
  }

  /** The text is never empty: it names the drop exactly when the delta is Red, counts
      the handlers at or below the fail threshold exactly when the enforcing gate is
      Red, at least one if the gate's verdict is that of the artifact, and is the
      fallback exactly when neither is. */
  method CoverageRedFailureDetail(delta: real, ct: CoverageThresholds, a: Option<Artifact>, t: HandlerThresholds,
        handler: Status)
    returns (out: seq<Part>)
    ensures out != []
    ensures DeltaDrop(-delta, ct.fail) in out <==> ResolveDelta(delta, ct) == Red
    ensures out[|out| - 1].Offenders? <==> a.Some? && handler.Red? && !t.reportOnly
    ensures out[|out| - 1].Offenders? ==> Counts(out[|out| - 1], Picked(Entries(a.value), FailsAt(t)), t.fail)
    ensures out[|out| - 1].Offenders? && handler == HandlerStatus(a, t) ==>
      Names(out[|out| - 1], Picked(Entries(a.value), FailsAt(t)), t.fail)
    ensures Fallback in out <==> ResolveDelta(delta, ct) != Red && !out[|out| - 1].Offenders?
    ensures out == RedDetail(delta, ct, a, t, handler)
  {
    out := [];
    if FloatLe(Finite(delta), ct.fail) {
      out := out + [DeltaDrop(-delta, ct.fail)];
    }
    if a.Some? && handler.Red? && !t.reportOnly {
      var offenders := Picked(Entries(a.value), FailsAt(t));
      if handler == HandlerStatus(a, t) {
        FailingGatePicks(a.value, t);
      }
      out := out + [OffendersPart(offenders, t.fail)];
    }
    if out == [] {
      out := [Fallback];
    }
  }

  function RedDetail(delta: real, ct: CoverageThresholds, a: Option<Artifact>, t: HandlerThresholds,
        handler: Status): seq<Part> {
    var drop := if FloatLe(Finite(delta), ct.fail) then [DeltaDrop(-delta, ct.fail)] else [];
    var gate := if a.Some? && handler.Red? && !t.reportOnly
      then [OffendersPart(Picked(Entries(a.value), FailsAt(t)), t.fail)] else [];
    if drop + gate == [] then [Fallback] else drop + gate
  }

  function HandlerStatus(a: Option<Artifact>, t: HandlerThresholds): Status {
    if a.None? then Green else HandlerVerdict(Pcts(Entries(a.value)), t)
  }

  function BuildCoverageRow(delta: real, a: Option<Artifact>, ct: CoverageThresholds, t: HandlerThresholds): Row {
    var wire := if a.None? then [] else ToWireBreakouts(a.value);
    var deltaStatus := ResolveDelta(delta, ct);
    var handlerStatus := HandlerStatus(a, t);
    var status := if t.reportOnly then deltaStatus else WorstOf(deltaStatus, handlerStatus);
    match status
    case Green => Row(Green, delta, wire, [])
    case Yellow => Row(Yellow, delta, wire, YellowDetail(a, t, handlerStatus))
    case Red => Row(Red, delta, wire, RedDetail(delta, ct, a, t, handlerStatus))
  }

  // ------------------------------------------------------------ the colour an input gets

  ghost predicate SomeHandler(a: Option<Artifact>, t: HandlerThresholds, s: Status) {
    a.Some? && exists e :: e in Entries(a.value) && ResolveHandler(e.pct, t) == s
  }

  lemma {:induction false} HandlerStatusIff(a: Option<Artifact>, t: HandlerThresholds)
    ensures HandlerStatus(a, t) == Red <==> SomeHandler(a, t, Red)
    ensures HandlerStatus(a, t) == Green <==> !SomeHandler(a, t, Red) && !SomeHandler(a, t, Yellow)
  {
    if a.Some? {
      var es := Entries(a.value);
      forall s: Status ensures Resolves(Pcts(es), t, s) <==> SomeHandler(a, t, s) {
        if i :| 0 <= i < |es| && ResolveHandler(Pcts(es)[i], t) == s {
          assert es[i] in es;
        }
        if e :| e in es && ResolveHandler(e.pct, t) == s {
          var i :| 0 <= i < |es| && es[i] == e;
          assert Pcts(es)[i] == e.pct;
        }
      }
    }
  }

  /** The row is Red exactly when the delta is at or below its fail threshold, or the gate
      enforces and some handler is at or below its own; Green exactly when the delta is
      above its warn threshold and so is every handler under an enforcing gate. It carries
      the delta and the artifact's breakouts as they are. */
  lemma {:induction false} RowColourIff(d: real, a: Option<Artifact>, ct: CoverageThresholds, t: HandlerThresholds)
    ensures var row := BuildCoverageRow(d, a, ct, t);
      && (row.status == Red <==> ResolveDelta(d, ct) == Red || (!t.reportOnly && SomeHandler(a, t, Red)))
      && (row.status == Green <==>
            && ResolveDelta(d, ct) == Green
            && (t.reportOnly || (!SomeHandler(a, t, Red) && !SomeHandler(a, t, Yellow))))
      && row.delta == d && row.breakouts == (if a.None? then [] else ToWireBreakouts(a.value))
      && (row.detail == [] <==>
            row.status == Green || (row.status == Yellow && (t.reportOnly || !SomeHandler(a, t, Yellow))))
  {
    HandlerStatusIff(a, t);
  }

  /** A list of up to five offenders is shown in full; a longer one by its first five. */
  lemma {:induction false} FirstFiveAreShown(offenders: seq<Entry>, threshold: Float)
    ensures var p := OffendersPart(offenders, threshold);
      && p.count == |offenders| && p.threshold == threshold
      && p.shown == (if |offenders| <= 5 then offenders else offenders[..5])
      && p.more == |offenders| - |p.shown|
  {
  }

  // ------------------------------------------------------------ worse input, no better colour

  lemma {:induction false} WorseDelta(d: real, worse: real, ct: CoverageThresholds)
    requires worse <= d
    ensures Thresholds.Rank(ResolveDelta(d, ct)) <= Thresholds.Rank(ResolveDelta(worse, ct))
  {
  }

  /** Every handler of the first artifact covers at least as much as the one in
      the same place of the second. */
  predicate AtLeast(better: seq<real>, worse: seq<real>) {
    |better| <= |worse| && forall i :: 0 <= i < |better| ==> worse[i] <= better[i]
  }

  lemma {:induction false} WorseHandlers(better: seq<real>, worse: seq<real>, t: HandlerThresholds)
    requires AtLeast(better, worse)
    ensures Thresholds.Rank(HandlerVerdict(better, t)) <= Thresholds.Rank(HandlerVerdict(worse, t))
  {
    if i :| 0 <= i < |better| && ResolveHandler(better[i], t) == HandlerVerdict(better, t) {
      assert worse[i] <= better[i];
      assert Resolves(worse, t, ResolveHandler(worse[i], t));
    }
  }

  function PctsOf(a: Option<Artifact>): seq<real> {
    if a.None? then [] else Pcts(Entries(a.value))
  }

  /** A lower delta, lower coverage of any handlers and additional handlers never
      improve the colour; in report-only mode the handlers do not matter at all. */
  lemma {:induction false} WorseInputIsNeverBetter(d: real, worse: real, a: Option<Artifact>, b: Option<Artifact>,
        ct: CoverageThresholds, t: HandlerThresholds)
    requires worse <= d
    requires t.reportOnly || AtLeast(PctsOf(a), PctsOf(b))
    ensures Thresholds.Rank(BuildCoverageRow(d, a, ct, t).status) <=
      Thresholds.Rank(BuildCoverageRow(worse, b, ct, t).status)
    ensures t.reportOnly ==>
      BuildCoverageRow(d, a, ct, t).status == BuildCoverageRow(d, b, ct, t).status == ResolveDelta(d, ct)
  {
    WorseDelta(d, worse, ct);
    if !t.reportOnly {
      WorseHandlers(PctsOf(a), PctsOf(b), t);
      assert HandlerStatus(a, t) == HandlerVerdict(PctsOf(a), t);
      assert HandlerStatus(b, t) == HandlerVerdict(PctsOf(b), t);
    }
  }

  // ------------------------------------------------------------ explanations

  lemma {:induction false} PickedMembers(es: seq<Entry>, bad: Entry -> bool)
    ensures forall e :: e in Picked(es, bad) <==> e in es && bad(e)
  {
    if es != [] {
      var n := |es| - 1;
      PickedMembers(es[..n], bad);
      assert es == es[..n] + [es[n]];
    }
  }

  lemma {:induction false} PickedAsOften(es: seq<Entry>, bad: Entry -> bool, e: Entry)
    requires bad(e)
    ensures multiset(Picked(es, bad))[e] == multiset(es)[e]
  {
    if es != [] {
      var n := |es| - 1;
      PickedAsOften(es[..n], bad, e);
      assert es == es[..n] + [es[n]];
    }
  }

  lemma {:induction false} PickedCounts(es: seq<Entry>, bad: Entry -> bool)
    ensures Picked(es, bad) != [] <==> exists i :: 0 <= i < |es| && bad(es[i])
    ensures forall e :: e in Picked(es, bad) ==> bad(e) && e in es
    ensures forall e :: bad(e) ==> multiset(Picked(es, bad))[e] == multiset(es)[e]
  {
    PickedMembers(es, bad);
    if Picked(es, bad) != [] {
      assert Picked(es, bad)[0] in es;
    }
    forall e | bad(e) ensures multiset(Picked(es, bad))[e] == multiset(es)[e] {
      PickedAsOften(es, bad, e);
    }
  }

  lemma {:induction false} HandlerStatusPicks(a: Artifact, t: HandlerThresholds, s: Status)
    requires HandlerVerdict(Pcts(Entries(a)), t) == s && s != Green
    ensures exists i :: 0 <= i < |Entries(a)| && ResolveHandler(Entries(a)[i].pct, t) == s
  {
    var pcts := Pcts(Entries(a));
    var i :| 0 <= i < |pcts| && ResolveHandler(pcts[i], t) == s;
    assert Entries(a)[i].pct == pcts[i];
  }

  lemma {:induction false} FailingGatePicks(a: Artifact, t: HandlerThresholds)
    requires HandlerVerdict(Pcts(Entries(a)), t) == Red
    ensures Picked(Entries(a), FailsAt(t)) != []
  {
    HandlerStatusPicks(a, t, Red);
    PickedCounts(Entries(a), FailsAt(t));
  }

  lemma {:induction false} RedDetailExplains(d: real, ct: CoverageThresholds, a: Option<Artifact>, t: HandlerThresholds)
    requires ResolveDelta(d, ct) == Red || (!t.reportOnly && HandlerStatus(a, t) == Red)
    ensures var detail := RedDetail(d, ct, a, t, HandlerStatus(a, t));
      var gate := !t.reportOnly && HandlerStatus(a, t) == Red;
      && Fallback !in detail && 0 < |detail|
      && (DeltaDrop(-d, ct.fail) in detail <==> ResolveDelta(d, ct) == Red)
      && (gate <==> detail[|detail| - 1].Offenders?)
      && (gate ==> a.Some? && Names(detail[|detail| - 1], Picked(Entries(a.value), FailsAt(t)), t.fail))
  {
    if !t.reportOnly && HandlerStatus(a, t) == Red {
      FailingGatePicks(a.value, t);
    }
  }

  /** A Red row names the drop exactly when the delta failed, and the failing
      handlers exactly when the enforcing gate did; the fallback text is unreachable. */
  lemma {:induction false} RedRowIsExplained(d: real, a: Option<Artifact>, ct: CoverageThresholds, t: HandlerThresholds)
    requires BuildCoverageRow(d, a, ct, t).status == Red
    ensures var detail := BuildCoverageRow(d, a, ct, t).detail;
      var gate := !t.reportOnly && HandlerStatus(a, t) == Red;
      && Fallback !in detail && 0 < |detail|
      && (DeltaDrop(-d, ct.fail) in detail <==> ResolveDelta(d, ct) == Red)
      && (gate <==> detail[|detail| - 1].Offenders?)
      && (gate ==> a.Some? && Names(detail[|detail| - 1], Picked(Entries(a.value), FailsAt(t)), t.fail))
  {
    RedDetailExplains(d, ct, a, t);
    assert BuildCoverageRow(d, a, ct, t).detail == RedDetail(d, ct, a, t, HandlerStatus(a, t));
  }

  /** Who is picked is Red or Yellow, and everyone who is. */
  lemma {:induction false} OffendersAreColoured(t: HandlerThresholds, e: Entry)
    ensures FailsAt(t)(e) <==> ResolveHandler(e.pct, t) == Red
    ensures ValidateHandler(t).Accepted? ==> (WarnsAt(t)(e) <==> ResolveHandler(e.pct, t) == Yellow)
  {
  }

  lemma {:induction false} WarnedEntries(es: seq<Entry>, t: HandlerThresholds)
    requires ValidateHandler(t).Accepted?
    requires exists i :: 0 <= i < |es| && ResolveHandler(es[i].pct, t) == Yellow
    ensures Picked(es, WarnsAt(t)) != []
  {
    var i :| 0 <= i < |es| && ResolveHandler(es[i].pct, t) == Yellow;
    OffendersAreColoured(t, es[i]);
    PickedCounts(es, WarnsAt(t));
  }

  /** A Yellow row carries a text exactly when the enforcing gate is Yellow, and
      then counts and names the warned handlers, at least one. */
  lemma {:induction false} YellowRowIsExplained(d: real, a: Option<Artifact>, ct: CoverageThresholds,
        t: HandlerThresholds)
    requires ValidateHandler(t).Accepted? && BuildCoverageRow(d, a, ct, t).status == Yellow
    ensures var detail := BuildCoverageRow(d, a, ct, t).detail;
      && (detail != [] <==> !t.reportOnly && HandlerStatus(a, t) == Yellow)
      && (detail != [] ==> a.Some? && |detail| == 1 && Names(detail[0], Picked(Entries(a.value), WarnsAt(t)), t.warn))
  {
    if !t.reportOnly && HandlerStatus(a, t) == Yellow {
      HandlerStatusPicks(a.value, t, Yellow);
      WarnedEntries(Entries(a.value), t);
    }
  }

  // ------------------------------------------------------------ the wire form gives the same verdict

  lemma {:induction false} VerdictOfPermutation(a: seq<Entry>, b: seq<Entry>, t: HandlerThresholds)
    requires multiset(a) == multiset(b)
    ensures HandlerVerdict(Pcts(a), t) == HandlerVerdict(Pcts(b), t)
  {
    forall s: Status
      ensures Resolves(Pcts(a), t, s) <==> Resolves(Pcts(b), t, s)
    {
      ResolvesPermuted(a, b, t, s);
      ResolvesPermuted(b, a, t, s);
    }
  }

  lemma {:induction false} ResolvesPermuted(a: seq<Entry>, b: seq<Entry>, t: HandlerThresholds, s: Status)
    requires multiset(a) == multiset(b)
    ensures Resolves(Pcts(a), t, s) ==> Resolves(Pcts(b), t, s)
  {
    if i :| 0 <= i < |a| && ResolveHandler(Pcts(a)[i], t) == s {
      assert a[i] in multiset(b);
      var j :| 0 <= j < |b| && b[j] == a[i];
      assert Pcts(b)[j] == Pcts(a)[i];
    }
  }

  /** The worst-of verdict over the wire breakouts is the one over the artifact. */
  lemma {:induction false} WireVerdictIsTheSame(a: Artifact, t: HandlerThresholds)
    ensures HandlerVerdict(Pcts(WireEntries(ToWireBreakouts(a))), t) == HandlerVerdict(Pcts(Entries(a)), t)
  {
    WireKeepsEntries(a);
    VerdictOfPermutation(WireEntries(ToWireBreakouts(a)), Entries(a), t);
  }
}
