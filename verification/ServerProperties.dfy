/** What the server's operations keep, over whole runs. */
module ServerProperties {
  import opened Text
  import opened SetupProfile
  import opened Server

  // ------------------------------------------------------ restore: three endings

  /** The restore got as far as selecting production on disk and did not take it back. */
  predicate LeavesProductionSelected(f: RestoreFaults, r: RestoreResult) {
    r.Restored? || (r.RollbackIncomplete? && f.write.Succeeds?)
  }

  /** What a restore leaves of a node: `slot` before it, `m` after it. */
  predicate Ending(n: Node, slot: Option<seq<Byte>>, f: RestoreFaults, m: Node, r: RestoreResult) {
    && m.active == n.active
    && (m.shutdown <==> n.shutdown || r.Restored?)
    && m.file == (if LeavesProductionSelected(f, r) then Written(Production)
                else if r.PrepareFailed? then Absent else n.file)
    && (r.Restored? ==> m.slot == Some(f.candidate) && m.sentinel)
    && (r.RollbackIncomplete? ==> m.slot == Some(f.candidate) || (m.slot.None? && f.write.Succeeds?))
    && (!r.Restored? && !r.RollbackIncomplete? ==> m.slot == slot)
  }

  lemma {:induction false} SelectEnds(n: Node, f: RestoreFaults)
    requires n.slot == Some(f.candidate)
    ensures Ending(n, None, f, Select(n, f).0, Select(n, f).1)
    ensures Select(n, f).0.firstLaunch == n.firstLaunch
  {
    match f.write
    case TmpFails(_) =>
    case RenameFails =>
    case Succeeds =>
  }

  lemma {:induction false} CommitEnds(n: Node, f: RestoreFaults)
    ensures Ending(n, n.slot, f, CommitStep(n, f).0, CommitStep(n, f).1)
    ensures CommitStep(n, f).0.firstLaunch == n.firstLaunch
  {
    if n.slot.None? {
      SelectEnds(n.(slot := Some(f.candidate)), f);
    }
  }

  lemma {:induction false} RestoreEnds(n: Node, f: RestoreFaults)
    ensures Ending(n, n.slot, f, RestoreStep(n, f).0, RestoreStep(n, f).1)
    ensures RestoreStep(n, f).0.firstLaunch ==> n.firstLaunch
    ensures RestoreStep(n, f).0.restoring == n.restoring
    ensures n.slot.Some? ==>
      RestoreStep(n, f).0.file == n.file && RestoreStep(n, f).0.slot == n.slot && !RestoreStep(n, f).1.Restored?
  {
    var (g, refusal) := Acquire(n, f.launchCleared);
    if refusal.None? { CommitEnds(g, f); }
  }

  /** Committed, admittedly incomplete, or as if it had never run. */
  lemma {:induction false} RestoreEndsInOneOfThreeWays(n: Node, f: RestoreFaults)
    requires n.slot.None? && Resolve(n.file) == Demo && !n.restoring
    ensures var (m, r) := RestoreStep(n, f);
      && !m.restoring
      && (m.shutdown <==> n.shutdown || r.Restored?)
      && (r.Restored? ==> m.slot == Some(f.candidate) && Resolve(m.file) == Production && m.sentinel)
      && (!r.Restored? && !r.RollbackIncomplete? ==> m.slot.None? && Resolve(m.file) == Demo)
  {
    RestoreEnds(n, f);
    WriteThenResolve(Production);
  }

  predicate FailsCleanly(r: RestoreResult) {
    !r.Restored? && !r.RollbackIncomplete?
  }

  /** The guard lets the request in, unless first-launch is cleared under it. */
  predicate Admits(n: Node) {
    n.firstLaunch && n.slot.None? && !n.restoring
  }

  predicate ReachesSentinel(f: RestoreFaults) {
    !f.launchCleared && f.rateOk && f.extractOk && f.taskOk && f.validOk && f.copyOk && f.write.Succeeds?
  }

  /** From any directory: a clean failure keeps the slot, and the profile too unless
      it got as far as the sentinel over a profile that resolved to production. */
  lemma {:induction false} FailedRestoreKeepsProfileIff(n: Node, f: RestoreFaults)
    requires FailsCleanly(RestoreStep(n, f).1)
    ensures RestoreStep(n, f).0.slot == n.slot
    ensures Resolve(RestoreStep(n, f).0.file) == Resolve(n.file)
       <==> !(Admits(n) && ReachesSentinel(f)) || Resolve(n.file) == Demo
  {
    RestoreEnds(n, f);
    PreparingFailsIff(n, f);
  }

  lemma {:induction false} PreparingFailsIff(n: Node, f: RestoreFaults)
    requires FailsCleanly(RestoreStep(n, f).1)
    ensures RestoreStep(n, f).1.PrepareFailed? <==> Admits(n) && ReachesSentinel(f)
  {
    if n.slot.None? && f.copyOk {
      match f.write
      case TmpFails(_) =>
      case RenameFails =>
      case Succeeds =>
    }
  }

  /** So every clean failure keeps the profile exactly when that resolved to demo, or
      the guard refuses the node anyway. */
  lemma {:induction false} EveryFailedRestoreKeepsProfileIff(n: Node)
    ensures (forall f :: FailsCleanly(RestoreStep(n, f).1) ==> Resolve(RestoreStep(n, f).0.file) == Resolve(n.file))
       <==> Resolve(n.file) == Demo || !Admits(n)
  {
    forall f | FailsCleanly(RestoreStep(n, f).1) && (Resolve(n.file) == Demo || !Admits(n))
      ensures Resolve(RestoreStep(n, f).0.file) == Resolve(n.file)
    {
      FailedRestoreKeepsProfileIff(n, f);
    }
    var f := RestoreFaults(false, true, true, true, true, true, Succeeds, true, false, false, true, true, []);
    if Admits(n) {
      assert RestoreStep(n, f).1 == PrepareFailed;
      FailedRestoreKeepsProfileIff(n, f);
    }
  }

  /** "Rollback incomplete" is said exactly when something was left behind. */
  lemma {:induction false} IncompleteIffResidue(n: Node, f: RestoreFaults)
    requires n.slot.None? && Resolve(n.file) == Demo && !RestoreStep(n, f).1.Restored?
    ensures RestoreStep(n, f).1.RollbackIncomplete?
       <==> RestoreStep(n, f).0.slot.Some? || Resolve(RestoreStep(n, f).0.file) == Production
  {
    RestoreEnds(n, f);
    WriteThenResolve(Production);
  }

  /** A filled slot survives every restore, however it goes. */
  lemma {:induction false} RestoreNeverOverwrites(n: Node, f: RestoreFaults)
    requires n.slot.Some?
    ensures RestoreStep(n, f).0.slot == n.slot && RestoreStep(n, f).0.file == n.file && !RestoreStep(n, f).1.Restored?
  {
    RestoreEnds(n, f);
  }

  // ------------------------------------------------------ memory and disk agree

  datatype Op =
    | Start(flatPresent: bool, created: Option<seq<Byte>>)
    | Setup(setup: SetupFaults)
    | Switch(session: Session, target: SetupMode, switch: SwitchFaults, gate: Gate)
    | AdminSwitch(to: SetupMode, persistOk: bool)
    | Restore(restore: RestoreFaults)

  function Apply(n: Node, op: Op): Node {
    match op
    case Start(flat, created) => Boot(n, flat, created)
    case Setup(f) => SetupStep(n, f).0
    case Switch(s, target, f, g) => RouteStep(n, s, target, f, g).node
    case AdminSwitch(target, ok) => AdminSwitchStep(n, target, ok)
    case Restore(f) => RestoreStep(n, f).0
  }

  function After(n: Node, ops: seq<Op>): Node {
    if ops == [] then n else Apply(After(n, ops[..|ops| - 1]), ops[|ops| - 1])
  }

  predicate Agree(n: Node) {
    n.active == Resolve(n.file)
  }

  /** A switch whose session calls failed after the flip. */
  predicate NeedsRollback(r: SwitchResult) {
    r.LogoutFailed? || r.LoginFailed? || r.CarryFailed?
  }

  /** Whether, after the run, memory may differ from disk for one of the two known
      reasons: a restore left production selected for the coming restart, or a
      switch to another profile could not write its rollback. */
  predicate Excused(n: Node, ops: seq<Op>) {
    ops != [] && ExcusedBy(After(n, ops[..|ops| - 1]), ops[|ops| - 1], Excused(n, ops[..|ops| - 1]))
  }

  predicate ExcusedBy(m: Node, op: Op, before: bool) {
    match op
    case Start(_, _) => false
    case Setup(f) => if SetupStep(m, f).1.Created? && f.write.Succeeds? then false else before
    case Switch(s, target, f, g) =>
      var r := RouteStep(m, s, target, f, g).result;
      if r.Switched? then false
      else if NeedsRollback(r) then !f.rollback.Succeeds? && m.active != target
      else before
    case AdminSwitch(_, ok) => if ok then false else before
    case Restore(f) =>
      var r := RestoreStep(m, f).1;
      if LeavesProductionSelected(f, r) then m.active == Demo
      else if r.PrepareFailed? then false
      else before
  }

  /** A complete rollback removed the profile file under a production memory. */
  predicate RemovedUnderProduction(n: Node, ops: seq<Op>) {
    ops != [] && RemovedBy(After(n, ops[..|ops| - 1]), ops[|ops| - 1], RemovedUnderProduction(n, ops[..|ops| - 1]))
  }

  predicate RemovedBy(m: Node, op: Op, before: bool) {
    match op
    case Start(_, _) => false
    case Setup(f) => if SetupStep(m, f).1.Created? && f.write.Succeeds? then false else before
    case Switch(s, target, f, g) =>
      var r := RouteStep(m, s, target, f, g).result;
      if r.Switched? || NeedsRollback(r) then false else before
    case AdminSwitch(_, ok) => if ok then false else before
    case Restore(f) =>
      var r := RestoreStep(m, f).1;
      if r.PrepareFailed? then m.active == Production
      else if LeavesProductionSelected(f, r) then false
      else before
  }

  /** While the first-launch bit is set, memory says demo. */
  predicate FirstLaunchIsDemo(n: Node) {
    n.firstLaunch ==> n.active == Demo
  }

  predicate IsAdminSwitch(op: Op) {
    op.AdminSwitch?
  }

  lemma {:induction false} SwapEffect(n: Node, stored: Session, s: Session, target: SetupMode, email: string,
        f: SwitchFaults)
    requires s.user.Some?
    ensures var flipped := n.(active := target, file := Written(target));
      var (m, after, r) := SwapStep(flipped, n.active, stored, s, target, email, f);
      if r.Switched? then m == flipped.(firstLaunch := false)
      else NeedsRollback(r) && m == RollBack(flipped, n.active, f.rollback)
  {
  }

  lemma {:induction false} HandlerEffect(m: Node, stored: Session, s: Session, target: SetupMode, f: SwitchFaults)
    ensures var o := SwitchStep(m, stored, s, target, f);
      if o.result.Switched? then o.node.active == target && o.node.file == Written(target)
      else
        && o.node.active == m.active
        && o.node.file == if !NeedsRollback(o.result) then m.file
                          else if f.rollback.Succeeds? then Written(m.active)
                          else Written(target)
    ensures var o := SwitchStep(m, stored, s, target, f);
      o.node.firstLaunch ==> m.firstLaunch && !o.result.Switched?
  {
    if s.user.Some? {
      SwapEffect(m, stored, s, target, TargetEmail(s, target), f);
    }
  }

  lemma {:induction false} SwitchEffect(m: Node, s: Session, target: SetupMode, f: SwitchFaults, g: Gate)
    ensures var o := RouteStep(m, s, target, f, g);
      if o.result.Switched? then o.node.active == target && o.node.file == Written(target)
      else
        && o.node.active == m.active
        && o.node.file == if !NeedsRollback(o.result) then m.file
                          else if f.rollback.Succeeds? then Written(m.active)
                          else Written(target)
    ensures var o := RouteStep(m, s, target, f, g);
      o.node.firstLaunch ==> m.firstLaunch && !o.result.Switched?
  {
    if RequireAuth(m, s, g).Passed? {
      HandlerEffect(m, s, RequireAuth(m, s, g).session, target, f);
    }
  }

  lemma {:induction false} SetupEffect(m: Node, f: SetupFaults)
    ensures var (after, r) := SetupStep(m, f);
      if r.Created? && f.write.Succeeds? then after.active == Production && after.file == Written(Production)
      else after.active == m.active && after.file == m.file
  {
  }

  lemma {:induction false} StepKeepsFirstLaunchDemo(m: Node, op: Op)
    requires FirstLaunchIsDemo(m) && !IsAdminSwitch(op)
    ensures FirstLaunchIsDemo(Apply(m, op))
  {
    match op
    case Start(_, _) =>
    case Setup(f) =>
    case Switch(s, target, f, g) => SwitchEffect(m, s, target, f, g);
    case Restore(f) => RestoreEnds(m, f);
  }

  lemma {:induction false} FirstLaunchStaysDemo(n: Node, ops: seq<Op>)
    requires FirstLaunchIsDemo(n)
    requires forall i :: 0 <= i < |ops| ==> !IsAdminSwitch(ops[i])
    ensures FirstLaunchIsDemo(After(n, ops))
  {
    if ops != [] {
      FirstLaunchStaysDemo(n, ops[..|ops| - 1]);
      StepKeepsFirstLaunchDemo(After(n, ops[..|ops| - 1]), ops[|ops| - 1]);
    }
  }

  /** A step keeps the account of why memory and disk differ. */
  ghost predicate Accounted(m: Node, op: Op, excused: bool, removed: bool) {
    && (Agree(Apply(m, op)) <==> !ExcusedBy(m, op, excused) && !RemovedBy(m, op, removed))
    && !(ExcusedBy(m, op, excused) && RemovedBy(m, op, removed))
  }

  lemma {:induction false} SwitchAccounted(m: Node, op: Op, excused: bool, removed: bool)
    requires op.Switch?
    requires (Agree(m) <==> !excused && !removed) && !(excused && removed)
    ensures Accounted(m, op, excused, removed)
  {
    SwitchEffect(m, op.session, op.target, op.switch, op.gate);
    WriteThenResolve(op.target);
    WriteThenResolve(m.active);
  }

  lemma {:induction false} RestoreAccounted(m: Node, op: Op, excused: bool, removed: bool)
    requires op.Restore?
    requires (Agree(m) <==> !excused && !removed) && !(excused && removed)
    ensures Accounted(m, op, excused, removed)
  {
    RestoreEnds(m, op.restore);
    WriteThenResolve(Production);
  }

  lemma {:induction false} OtherAccounted(m: Node, op: Op, excused: bool, removed: bool)
    requires !op.Restore? && !op.Switch?
    requires (Agree(m) <==> !excused && !removed) && !(excused && removed)
    ensures Accounted(m, op, excused, removed)
  {
    match op
    case Start(flat, created) =>
    case Setup(f) =>
      SetupEffect(m, f);
      WriteThenResolve(Production);
    case AdminSwitch(target, ok) =>
      WriteThenResolve(target);
  }

  /** Over every run of boots, setups, switches, admin switches and restores,
      succeeding or not, memory differs from what a restart would read exactly
      for one of these reasons. */
  lemma {:induction false} MemoryDiffersFromDiskIff(n: Node, ops: seq<Op>)
    requires Agree(n)
    ensures Agree(After(n, ops)) <==> !Excused(n, ops) && !RemovedUnderProduction(n, ops)
    ensures !(Excused(n, ops) && RemovedUnderProduction(n, ops))
  {
    if ops != [] {
      MemoryDiffersFromDiskIff(n, ops[..|ops| - 1]);
      var prev := ops[..|ops| - 1];
      var m, op, e, r := After(n, prev), ops[|ops| - 1], Excused(n, prev), RemovedUnderProduction(n, prev);
      if op.Switch? {
        SwitchAccounted(m, op, e, r);
      } else if op.Restore? {
        RestoreAccounted(m, op, e, r);
      } else {
        OtherAccounted(m, op, e, r);
      }
    }
  }

  /** Without admin switches only the two known reasons remain. */
  lemma {:induction false} MemoryAgreesWithDiskUnlessExcused(n: Node, ops: seq<Op>)
    requires Agree(n) && FirstLaunchIsDemo(n)
    requires forall i :: 0 <= i < |ops| ==> !IsAdminSwitch(ops[i])
    ensures Agree(After(n, ops)) <==> !Excused(n, ops)
  {
    MemoryDiffersFromDiskIff(n, ops);
    NothingRemovedUnderProduction(n, ops);
  }

  lemma {:induction false} NothingRemovedUnderProduction(n: Node, ops: seq<Op>)
    requires FirstLaunchIsDemo(n)
    requires forall i :: 0 <= i < |ops| ==> !IsAdminSwitch(ops[i])
    ensures !RemovedUnderProduction(n, ops)
  {
    if ops != [] {
      NothingRemovedUnderProduction(n, ops[..|ops| - 1]);
      FirstLaunchStaysDemo(n, ops[..|ops| - 1]);
    }
  }

  /** The admin-socket switch leaves the first-launch bit set, so a restore may
      follow a selected production profile; its complete rollback then removes the
      profile file under a production memory. */
  lemma {:induction false} AdminSwitchBreaksAgreement(f: RestoreFaults)
    requires !f.launchCleared && f.rateOk && f.extractOk && f.taskOk && f.validOk && f.copyOk && f.write.Succeeds?
    requires !f.sentinelOk && f.removeDbOk && f.removeProfileOk
    ensures var blank := Boot(Node(Demo, Absent, Absent, None, false, false, false, false), false, None);
      var ops := [AdminSwitch(Production, true), Restore(f)];
      Agree(blank) && !Agree(After(blank, ops)) && !Excused(blank, ops)
  {
    var blank := Boot(Node(Demo, Absent, Absent, None, false, false, false, false), false, None);
    var ops := [AdminSwitch(Production, true), Restore(f)];
    assert ops[..1] == [AdminSwitch(Production, true)] && ops[..1][..0] == [];
    assert After(blank, ops[..1]) == blank.(active := Production, file := Written(Production));
    assert After(blank, ops).file == Absent;
  }

  // ------------------------------------------------------ what each operation answers

  /** The session as a handler gets it when the layer in front succeeds. */
  function Layered(n: Node, s: Session): Session {
    if n.active.Demo? && s.user.None? then AutoLoggedIn(s) else s
  }

  /** The request gets past the layer, with a login the handler sees. */
  predicate ReachesHandler(n: Node, s: Session, g: Gate) {
    && (n.active.Demo? ==> g.installOk)
    && (s.user.Some? || (n.active.Demo? && g.admin.UserFound? && g.loggedIn && g.seen))
  }

  /** The switch gets as far as looking up the target account. */
  predicate ReachesLookup(n: Node, s: Session, f: SwitchFaults, g: Gate) {
    ReachesHandler(n, s, g) && f.rateOk && f.originOk
  }

  /** The switch gets as far as the session calls, with the profile flipped. */
  predicate ReachesSession(n: Node, s: Session, f: SwitchFaults, g: Gate) {
    ReachesLookup(n, s, f, g) && f.lookup.UserFound? && f.persistOk
  }

  /** While the demo install is incomplete, nothing gets past the layer. */
  lemma {:induction false} IncompleteDemoRefuses(n: Node, s: Session, target: SetupMode, f: SwitchFaults, g: Gate,
        stores: bool)
    requires n.active.Demo? && !g.installOk
    ensures RouteStep(n, s, target, f, g) == SwitchOutcome(n, s, DemoSetupRequired, None)
    ensures VisitStep(n, s, g, stores) == s
  {
  }

  /** Who is turned away before the handler, and with which answer. */
  lemma {:induction false} RefusedBeforeHandlerIff(n: Node, s: Session, target: SetupMode, f: SwitchFaults, g: Gate)
    ensures var o := RouteStep(n, s, target, f, g);
      var vacant := n.active.Demo? && g.installOk && s.user.None?;
      && (o.result == DemoSetupRequired <==> n.active.Demo? && !g.installOk)
      && (o.result == DemoAdminMissing <==> vacant && g.admin.UserMissing?)
      && (o.result == SwitchInternal && o.lookedUp.None? <==> vacant && g.admin.DbError?)
      && (o.result == Unauthorized <==>
            || (n.active.Production? && s.user.None?)
            || (vacant && g.admin.UserFound? && !(g.loggedIn && g.seen)))
      && (!ReachesHandler(n, s, g) ==> o.node == n && o.lookedUp == None)
      && (!ReachesHandler(n, s, g) && o.session != s ==> vacant && o.session == AutoLoggedIn(s))
  {
  }

  /** Any other request leaves the session alone, unless it logs the demo admin in. */
  lemma {:induction false} VisitLogsInIff(n: Node, s: Session, g: Gate, stores: bool)
    ensures VisitStep(n, s, g, stores) in {s, s.(user := Some(Account(Demo, "admin@demo.local")))}
    ensures VisitStep(n, s, g, stores) != s <==>
      n.active.Demo? && g.installOk && s.user.None? && g.admin.UserFound? && g.loggedIn && stores
  {
  }

  /** Each refusal of the handler, with its exact cause. */
  lemma {:induction false} SwitchRefusesIff(n: Node, s: Session, target: SetupMode, f: SwitchFaults, g: Gate)
    ensures var o := RouteStep(n, s, target, f, g);
      && (o.result == TooManySwitches <==> ReachesHandler(n, s, g) && !f.rateOk)
      && (o.result == BadOrigin <==> ReachesHandler(n, s, g) && f.rateOk && !f.originOk)
      && (o.lookedUp.Some? <==> ReachesLookup(n, s, f, g))
      && (o.lookedUp.Some? && target.Demo? ==> o.lookedUp == Some("admin@demo.local"))
      && (o.result == TargetUnavailable <==> ReachesLookup(n, s, f, g) && f.lookup.UserMissing?)
      && (o.result == SwitchInternal && o.lookedUp.Some? <==>
            ReachesLookup(n, s, f, g) && (f.lookup.DbError? || (f.lookup.UserFound? && !f.persistOk)))
  {
  }

  lemma {:induction false} SwapLogsIn(flipped: Node, previous: SetupMode, stored: Session, s: Session,
        target: SetupMode, email: string, f: SwitchFaults)
    requires s.user.Some?
    ensures var (_, after, r) := SwapStep(flipped, previous, stored, s, target, email, f);
      r.Switched? ==>
        && after.user == Some(Account(target, email))
        && after.saved == match target
                          case Demo => Some(CarriedEmail(s))
                          case Production => if f.flushes then None else s.saved
  {
  }

  lemma {:induction false} RouteReaches(n: Node, s: Session, target: SetupMode, f: SwitchFaults, g: Gate)
    ensures var o := RouteStep(n, s, target, f, g);
      if !ReachesSession(n, s, f, g) then o.node == n && o.result != Switched
      else
        var l := Layered(n, s);
        var email := TargetEmail(l, target);
        var flipped := n.(active := target, file := Written(target));
        && o.lookedUp == Some(email)
        && (o.node, o.session, o.result) == SwapStep(flipped, n.active, s, l, target, email, f)
  {
  }

  /** The request gets past the layer, whether or not the handler sees its login. */
  predicate PassesLayer(n: Node, s: Session, g: Gate) {
    && (n.active.Demo? ==> g.installOk)
    && (s.user.Some? || (n.active.Demo? && g.admin.UserFound? && g.loggedIn))
  }

  /** A switch that is refused leaves the session alone, but for the demo login of the
      layer, which stays exactly if the answer stores the session. */
  lemma {:induction false} RefusedSwitchKeepsSession(n: Node, s: Session, target: SetupMode, f: SwitchFaults, g: Gate)
    requires !ReachesSession(n, s, f, g)
    ensures RouteStep(n, s, target, f, g).session == if PassesLayer(n, s, g) && f.kept then Layered(n, s) else s
  {
  }

  /** Each answer after the flip, with its exact cause. */
  lemma {:induction false} SwitchAnswersIff(n: Node, s: Session, target: SetupMode, f: SwitchFaults, g: Gate)
    ensures var o := RouteStep(n, s, target, f, g);
      var reached := ReachesSession(n, s, f, g);
      && (o.result == LogoutFailed <==> reached && !f.logoutOk)
      && (o.result == LoginFailed <==> reached && f.logoutOk && !f.loginOk)
      && (o.result == CarryFailed <==> reached && f.logoutOk && f.loginOk && target.Demo? && !f.insertOk)
      && (o.result == Switched <==> reached && f.logoutOk && f.loginOk && (target.Production? || f.insertOk))
  {
  }

  /** The production email of whoever is logged in: the one carried, or else their own. */
  function OwnEmail(s: Session): string
    requires s.user.Some?
  {
    match s.saved
    case Some(email) => email
    case None => s.user.value.email
  }

  /** Only a switch that reaches the session calls changes the node; one that succeeds
      selects the target and ends first launch, and logs in the account looked up. To
      demo the session carries the production email, to production nothing it did not.
      One that fails then leaves the old profile, or what its rollback left of the file. */
  lemma {:induction false} SwitchChangesIff(n: Node, s: Session, target: SetupMode, f: SwitchFaults, g: Gate)
    ensures var o := RouteStep(n, s, target, f, g);
      && (!ReachesSession(n, s, f, g) ==> o.node == n)
      && (o.result == Switched ==>
            && o.node == n.(active := target, file := Written(target), firstLaunch := false)
            && o.lookedUp.Some? && o.session.user == Some(Account(target, o.lookedUp.value))
            && Layered(n, s).user.Some?
            && o.session.saved == match target
                                  case Demo => Some(OwnEmail(Layered(n, s)))
                                  case Production => if f.flushes then None else s.saved)
      && (o.result != Switched && ReachesSession(n, s, f, g) ==>
            o.node == match f.rollback
                      case Succeeds => n.(file := Written(n.active), tmp := Absent)
                      case TmpFails(partial) => n.(file := Written(target), tmp := partial)
                      case RenameFails => n.(file := Written(target), tmp := Written(n.active)))
  {
    RouteReaches(n, s, target, f, g);
    if ReachesSession(n, s, f, g) {
      var l := Layered(n, s);
      var flipped := n.(active := target, file := Written(target));
      SwapEffect(n, s, l, target, TargetEmail(l, target), f);
      SwapLogsIn(flipped, n.active, s, l, target, TargetEmail(l, target), f);
    }
  }

  /** The guard is given exactly when nothing refuses it, and while it is held nobody else
      gets it. */
  lemma {:induction false} GuardHeldIff(n: Node, cleared: bool, again: bool)
    ensures var (m, refusal) := Acquire(n, cleared);
      && (refusal == None <==> Admits(n) && !cleared)
      && (m.restoring <==> n.restoring || refusal == None)
      && (refusal == None ==> Acquire(m, again) == (m, Some(RestoreInProgress)))
  {
  }

  /** The restore request passes the guard. */
  predicate Enters(n: Node, f: RestoreFaults) {
    Admits(n) && !f.launchCleared
  }

  /** It gets as far as filling the slot. */
  predicate Copied(n: Node, f: RestoreFaults) {
    Enters(n, f) && f.rateOk && f.extractOk && f.taskOk && f.validOk && f.copyOk
  }

  /** Each refusal of a restore, with its exact cause. */
  lemma {:induction false} RestoreRefusesIff(n: Node, f: RestoreFaults)
    ensures var r := RestoreStep(n, f).1;
      && (r == Forbidden <==> !n.firstLaunch || (Admits(n) && f.launchCleared))
      && (r == ProductionDbExists <==> n.firstLaunch && n.slot.Some?)
      && (r == RestoreInProgress <==> n.firstLaunch && n.slot.None? && n.restoring)
      && (r == TooManyRestores <==> Enters(n, f) && !f.rateOk)
      && (r == BadRequest <==> Enters(n, f) && f.rateOk && !f.extractOk)
      && (r == TaskPanicked <==> Enters(n, f) && f.rateOk && f.extractOk && !f.taskOk)
      && (r == Rejected <==> Enters(n, f) && f.rateOk && f.extractOk && f.taskOk && !f.validOk)
      && (r == CopyFailed <==> Enters(n, f) && f.rateOk && f.extractOk && f.taskOk && f.validOk && !f.copyOk)
    ensures !Copied(n, f) ==>
      RestoreStep(n, f).0 == n.(firstLaunch := n.firstLaunch && !(Admits(n) && f.launchCleared))
  {
    if Enters(n, f) && !Copied(n, f) {
      assert CommitStep(n.(restoring := true), f).0 == n.(restoring := true);
    }
  }

  /** The copy makes a check of its own: past the guard, a slot that is filled by then is
      refused, and nothing is changed. */
  lemma {:induction false} CommitNeverOverwrites(n: Node, f: RestoreFaults)
    requires n.slot.Some?
    ensures CommitStep(n, f).0 == n
    ensures CommitStep(n, f).1 == ProductionDbExists <==> f.rateOk && f.extractOk && f.taskOk && f.validOk
  {
  }

  /** Once the slot is filled: each answer with its exact cause, and what is left of the
      tmp file, the slot and the sentinel. */
  lemma {:induction false} SelectAnswersIff(n: Node, f: RestoreFaults)
    requires n.slot.Some?
    ensures var (m, r) := Select(n, f);
      var wrote := f.write.Succeeds?;
      && (r == Restored <==> wrote && f.sentinelOk)
      && (r == PersistFailed <==> !wrote && f.removeDbOk)
      && (r == PrepareFailed <==> wrote && !f.sentinelOk && f.removeDbOk && f.removeProfileOk)
      && (r == RollbackIncomplete <==>
            !(wrote && f.sentinelOk) && !(f.removeDbOk && (wrote ==> f.removeProfileOk)))
      && m.slot == (if r == Restored || !f.removeDbOk then n.slot else None)
      && (m.sentinel <==> n.sentinel || r == Restored || (wrote && f.partialSentinel))
      && (m.tmp == match f.write
                   case Succeeds => Absent
                   case TmpFails(partial) => if f.tmpCleanupOk then Absent else partial
                   case RenameFails => if f.tmpCleanupOk && f.removeDbOk then Absent else Written(Production))
  {
    match f.write
    case TmpFails(_) =>
    case RenameFails =>
    case Succeeds =>
  }

  lemma {:induction false} RestoreAnswersIff(n: Node, f: RestoreFaults)
    requires Copied(n, f)
    ensures var (m, r) := RestoreStep(n, f);
      var wrote := f.write.Succeeds?;
      && (r == Restored <==> wrote && f.sentinelOk)
      && (r == PersistFailed <==> !wrote && f.removeDbOk)
      && (r == PrepareFailed <==> wrote && !f.sentinelOk && f.removeDbOk && f.removeProfileOk)
      && (r == RollbackIncomplete <==>
            !(wrote && f.sentinelOk) && !(f.removeDbOk && (wrote ==> f.removeProfileOk)))
      && m.slot == (if r == Restored || !f.removeDbOk then Some(f.candidate) else None)
      && (m.sentinel <==> n.sentinel || r == Restored || (wrote && f.partialSentinel))
      && (m.tmp == match f.write
                   case Succeeds => Absent
                   case TmpFails(partial) => if f.tmpCleanupOk then Absent else partial
                   case RenameFails => if f.tmpCleanupOk && f.removeDbOk then Absent else Written(Production))
      && m.firstLaunch
  {
    SelectAnswersIff(n.(restoring := true, slot := Some(f.candidate)), f);
    SelectEnds(n.(restoring := true, slot := Some(f.candidate)), f);
  }

  /** Some restore can succeed exactly when the guard admits one. */
  lemma {:induction false} RestorableIff(n: Node)
    ensures (exists f :: RestoreStep(n, f).1 == Restored) <==> Admits(n)
  {
    var f := RestoreFaults(false, true, true, true, true, true, Succeeds, true, true, false, true, true, []);
    if Admits(n) { RestoreAnswersIff(n, f); }
    forall g | RestoreStep(n, g).1 == Restored ensures Admits(n) {
      RestoreRefusesIff(n, g);
    }
  }

  /** Each answer of setup with its exact cause: only a complete one changes anything,
      it ends first launch, and selects production if the profile could be written. */
  lemma {:induction false} SetupAnswersIff(n: Node, f: SetupFaults)
    ensures var (m, r) := SetupStep(n, f);
      && (r == Invalid <==> !f.shopNameOk)
      && (r == AdminRefused <==> f.shopNameOk && !f.adminOk)
      && (r == PoolMissing <==> f.shopNameOk && f.adminOk && !f.poolOk)
      && (r == Created <==> f.shopNameOk && f.adminOk && f.poolOk)
      && (r != Created ==> m == n)
      && (r == Created ==> m == n.(active := m.active, file := m.file, tmp := m.tmp, firstLaunch := false))
      && (r == Created ==> (m.active == Production <==> f.write.Succeeds? || n.active == Production))
      && (r == Created ==> (m.file == if f.write.Succeeds? then Written(Production) else n.file))
      && (r == Created ==> m.tmp == match f.write
                                    case Succeeds => Absent
                                    case TmpFails(partial) => partial
                                    case RenameFails => Written(Production))
  {
  }

  // ------------------------------------------------------ restarts

  /** What a new process finds: first launch exactly if no profile was ever selected and
      there is no flat file, and production exactly if the file says so or there is one. */
  lemma {:induction false} BootFindsIff(n: Node, flat: bool, created: Option<seq<Byte>>)
    ensures var m := Boot(n, flat, created);
      && (m.firstLaunch <==> n.file.Absent? && !flat)
      && (m.active == Production <==> Resolve(n.file) == Production || (n.file.Absent? && flat))
      && m.file == (if n.file.Absent? && flat then Written(Production) else n.file)
      && (n.slot.Some? ==> m.slot == n.slot) && (n.slot.None? ==> m.slot == created)
      && !m.restoring && !m.shutdown && m.tmp == n.tmp && m.sentinel == n.sentinel
      && Agree(m)
  {
    WriteThenResolve(Production);
  }

  /** A restart after a restore that answered Ok comes up as production on the restored
      data, and another restart changes nothing; after one that failed cleanly, from a
      first launch, a restart is a first launch again. */
  lemma {:induction false} RestartAfterRestore(n: Node, f: RestoreFaults, flat: bool, created: Option<seq<Byte>>)
    ensures var (m, r) := RestoreStep(n, f);
      var next := Boot(m, flat, created);
      && (r == Restored ==>
            && next.active == Production && next.slot == Some(f.candidate) && !next.firstLaunch
            && Boot(next, flat, created) == next)
      && (FailsCleanly(r) && n.file.Absent? && n.slot.None? && !flat && created.None? ==> Admits(next))
  {
    RestoreEnds(n, f);
    WriteThenResolve(Production);
  }

  /** Whether it is a first launch after the run, told by the last restart and what has
      ended it since. */
  predicate StillFirstLaunch(n: Node, ops: seq<Op>) {
    if ops == [] then n.firstLaunch
    else
      var m := After(n, ops[..|ops| - 1]);
      var before := StillFirstLaunch(n, ops[..|ops| - 1]);
      match ops[|ops| - 1]
      case Start(flat, _) => m.file.Absent? && !flat
      case Setup(f) => before && !(f.shopNameOk && f.adminOk && f.poolOk)
      case Switch(s, target, f, g) =>
        before && !(ReachesSession(m, s, f, g) && f.logoutOk && f.loginOk && (target.Production? || f.insertOk))
      case AdminSwitch(_, _) => before
      case Restore(f) => before && !(f.launchCleared && m.slot.None? && !m.restoring)
  }

  /** A setup, a switch by a user and a bit cleared under a restore end it; an admin
      switch and a restore of any outcome do not. */
  lemma {:induction false} FirstLaunchIff(n: Node, ops: seq<Op>)
    ensures After(n, ops).firstLaunch <==> StillFirstLaunch(n, ops)
  {
    if ops != [] {
      var m := After(n, ops[..|ops| - 1]);
      FirstLaunchIff(n, ops[..|ops| - 1]);
      match ops[|ops| - 1]
      case Start(flat, created) => BootFindsIff(m, flat, created);
      case Setup(f) => SetupAnswersIff(m, f);
      case Switch(s, target, f, g) =>
        SwitchAnswersIff(m, s, target, f, g);
        SwitchChangesIff(m, s, target, f, g);
      case AdminSwitch(_, _) =>
      case Restore(f) =>
        RestoreRefusesIff(m, f);
        if Copied(m, f) { RestoreAnswersIff(m, f); }
    }
  }

  // ------------------------------------------------------ the carried email

  /** What happens around one session: a switch it asks for, another request of its
      own, or a change of the active profile by somebody else. */
  datatype Event =
    | Attempt(target: SetupMode, faults: SwitchFaults, gate: Gate)
    | Visit(visit: Gate, stores: bool)
    | Elsewhere(active: SetupMode)

  function NodeAfter(n: Node, s: Session, ev: Event): Node {
    match ev
    case Attempt(target, f, g) => RouteStep(n, s, target, f, g).node
    case Visit(_, _) => n
    case Elsewhere(mode) => n.(active := mode)
  }

  function SessionAfter(n: Node, s: Session, ev: Event): Session {
    match ev
    case Attempt(target, f, g) => RouteStep(n, s, target, f, g).session
    case Visit(g, stores) => VisitStep(n, s, g, stores)
    case Elsewhere(_) => s
  }

  /** The profile looked in and the email looked up. */
  function LookedUp(n: Node, s: Session, ev: Event): seq<Account> {
    if ev.Attempt? && RouteStep(n, s, ev.target, ev.faults, ev.gate).lookedUp.Some?
    then [Account(ev.target, RouteStep(n, s, ev.target, ev.faults, ev.gate).lookedUp.value)]
    else []
  }

  function Lookups(n: Node, s: Session, run: seq<Event>): seq<Account>
    decreases |run|
  {
    if run == [] then []
    else LookedUp(n, s, run[0]) + Lookups(NodeAfter(n, s, run[0]), SessionAfter(n, s, run[0]), run[1..])
  }

  function EndOf(n: Node, s: Session, run: seq<Event>): (Node, Session)
    decreases |run|
  {
    if run == [] then (n, s)
    else EndOf(NodeAfter(n, s, run[0]), SessionAfter(n, s, run[0]), run[1..])
  }

  predicate SessionCallsSucceed(ev: Event) {
    ev.Attempt? ==> ev.faults.logoutOk && ev.faults.loginOk && ev.faults.insertOk
  }

  /** Production as `e`, or demo carrying `e`. */
  predicate Carries(s: Session, e: string) {
    && s.user.Some?
    && match s.user.value.profile
       case Production => s.user.value.email == e && (s.saved == None || s.saved == Some(e))
       case Demo => s.user.value.email == DEMO_EMAIL && s.saved == Some(e)
  }

  lemma {:induction false} SwitchCarries(n: Node, s: Session, e: string, ev: Event)
    requires Carries(s, e) && SessionCallsSucceed(ev)
    ensures Carries(SessionAfter(n, s, ev), e)
    ensures forall a :: a in LookedUp(n, s, ev) ==> a.email == if a.profile.Demo? then DEMO_EMAIL else e
  {
  }

  /** Any run of switches started as production user `e` comes back as `e`. */
  lemma {:induction false} EveryReturnLooksUpTheSameEmail(n: Node, s: Session, e: string, run: seq<Event>)
    requires Carries(s, e)
    requires forall i :: 0 <= i < |run| ==> SessionCallsSucceed(run[i])
    ensures Carries(EndOf(n, s, run).1, e)
    ensures forall a :: a in Lookups(n, s, run) ==> a.email == if a.profile.Demo? then DEMO_EMAIL else e
    decreases |run|
  {
    if run != [] {
      assert SessionCallsSucceed(run[0]);
      SwitchCarries(n, s, e, run[0]);
      EveryReturnLooksUpTheSameEmail(NodeAfter(n, s, run[0]), SessionAfter(n, s, run[0]), e, run[1..]);
    }
  }

  // ------------------------------------------------------ when the email survives

  /** Whose account a switch to production would look up now. */
  function ReturnsTo(n: Node, s: Session): Option<string> {
    var l := Layered(n, s);
    if l.user.None? then None else Some(TargetEmail(l, Production))
  }

  /** A switch to demo that fails between login and carrying the email, and whose
      session is stored although the answer is an error. */
  predicate StoredWithoutEmail(target: SetupMode, f: SwitchFaults) {
    && target.Demo? && f.kept
    && f.logoutOk && (if f.loginOk then !f.insertOk && !f.tookEffect else f.tookEffect)
  }

  /** A switch that fails and leaves nobody logged in while demo is active again, so
      that the layer logs the demo admin in. */
  predicate DroppedUnderDemo(n: Node, target: SetupMode, f: SwitchFaults) {
    n.active.Demo? &&
    if !f.logoutOk then f.tookEffect && (f.kept || f.flushes)
    else if !f.loginOk then (if f.kept then !f.tookEffect else f.flushes)
    else target.Demo? && !f.insertOk && !f.kept && f.flushes
  }

  /** The event that loses the way back: one of those two failures, where logout leaves
      no email behind, or the change to demo of somebody whose session is empty. */
  predicate Loses(n: Node, s: Session, ev: Event) {
    match ev
    case Attempt(target, f, g) =>
      && ReachesSession(n, s, f, g) && (f.flushes || s.saved.None?)
      && (StoredWithoutEmail(target, f) || DroppedUnderDemo(n, target, f))
    case Visit(_, _) => false
    case Elsewhere(mode) => mode.Demo? && s == NOBODY
  }

  /** Behind the layer, nobody or somebody who carries `e`. */
  predicate Good(n: Node, s: Session, e: string) {
    s.saved in {None, Some(e)} && (Layered(n, s).user.None? || Carries(Layered(n, s), e))
  }

  lemma {:induction false} HandlerIsGoodIff(n: Node, s: Session, l: Session, e: string, target: SetupMode,
        f: SwitchFaults)
    requires Good(n, s, e) && l == Layered(n, s) && Carries(l, e)
    ensures var o := SwitchStep(n, s, l, target, f);
      var lost := f.rateOk && f.originOk && f.lookup.UserFound? && f.persistOk && (f.flushes || s.saved.None?)
        && (StoredWithoutEmail(target, f) || DroppedUnderDemo(n, target, f));
      && (Good(o.node, o.session, e) <==> !lost)
      && (lost ==> ReturnsTo(o.node, o.session) == Some(DEMO_EMAIL))
  {
  }

  lemma {:induction false} EventIsGoodIff(n: Node, s: Session, e: string, ev: Event)
    requires Good(n, s, e)
    ensures Good(NodeAfter(n, s, ev), SessionAfter(n, s, ev), e) <==> !Loses(n, s, ev)
    ensures Loses(n, s, ev) ==> ReturnsTo(NodeAfter(n, s, ev), SessionAfter(n, s, ev)) == Some(DEMO_EMAIL)
  {
    if ev.Attempt? && RequireAuth(n, s, ev.gate).Passed? {
      HandlerIsGoodIff(n, s, Layered(n, s), e, ev.target, ev.faults);
    }
  }

  /** At every point of the run a switch to production would look up `e`, unless
      nobody is logged in even behind the layer. */
  ghost predicate EmailSurvives(n: Node, s: Session, e: string, run: seq<Event>) {
    forall i :: 0 <= i <= |run| ==> ReturnsTo(EndOf(n, s, run[..i]).0, EndOf(n, s, run[..i]).1) in {None, Some(e)}
  }

  ghost predicate NeverLoses(n: Node, s: Session, run: seq<Event>) {
    forall i :: 0 <= i < |run| ==> !Loses(EndOf(n, s, run[..i]).0, EndOf(n, s, run[..i]).1, run[i])
  }

  lemma {:induction false} AfterTheFirst(n: Node, s: Session, run: seq<Event>, i: nat)
    requires i < |run|
    ensures EndOf(n, s, run[..i + 1]) == EndOf(NodeAfter(n, s, run[0]), SessionAfter(n, s, run[0]), run[1..][..i])
  {
    assert run[..i + 1][1..] == run[1..][..i];
  }

  lemma {:induction false} SurvivalSplits(n: Node, s: Session, e: string, run: seq<Event>)
    requires run != []
    ensures var (m, t) := (NodeAfter(n, s, run[0]), SessionAfter(n, s, run[0]));
      EmailSurvives(n, s, e, run) <==> ReturnsTo(n, s) in {None, Some(e)} && EmailSurvives(m, t, e, run[1..])
  {
    var m, t := NodeAfter(n, s, run[0]), SessionAfter(n, s, run[0]);
    assert run[..0] == [];
    forall i | 0 <= i < |run| ensures EndOf(n, s, run[..i + 1]) == EndOf(m, t, run[1..][..i]) {
      AfterTheFirst(n, s, run, i);
    }
    if EmailSurvives(m, t, e, run[1..]) && ReturnsTo(n, s) in {None, Some(e)} {
      forall i | 0 <= i <= |run|
        ensures ReturnsTo(EndOf(n, s, run[..i]).0, EndOf(n, s, run[..i]).1) in {None, Some(e)}
      {
        if i > 0 { assert EndOf(n, s, run[..i - 1 + 1]) == EndOf(m, t, run[1..][..i - 1]); }
      }
    }
  }

  lemma {:induction false} LossSplits(n: Node, s: Session, run: seq<Event>)
    requires run != []
    ensures var (m, t) := (NodeAfter(n, s, run[0]), SessionAfter(n, s, run[0]));
      NeverLoses(n, s, run) <==> !Loses(n, s, run[0]) && NeverLoses(m, t, run[1..])
  {
    var m, t := NodeAfter(n, s, run[0]), SessionAfter(n, s, run[0]);
    assert run[..0] == [];
    forall i | 0 <= i < |run| ensures EndOf(n, s, run[..i + 1]) == EndOf(m, t, run[1..][..i]) {
      AfterTheFirst(n, s, run, i);
    }
    if NeverLoses(m, t, run[1..]) && !Loses(n, s, run[0]) {
      forall i | 0 <= i < |run| ensures !Loses(EndOf(n, s, run[..i]).0, EndOf(n, s, run[..i]).1, run[i]) {
        if i > 0 { assert run[1..][i - 1] == run[i]; }
      }
    }
  }

  /** Over every run of switches, other requests and changes of profile by others,
      whatever fails, the email of production user `e` survives exactly when no event
      loses it. */
  lemma {:induction false} EmailSurvivesIff(n: Node, s: Session, e: string, run: seq<Event>)
    requires Good(n, s, e) && e != DEMO_EMAIL
    ensures EmailSurvives(n, s, e, run) <==> NeverLoses(n, s, run)
    decreases |run|
  {
    if run == [] {
      assert run[..0] == [];
    } else {
      var m, t := NodeAfter(n, s, run[0]), SessionAfter(n, s, run[0]);
      SurvivalSplits(n, s, e, run);
      LossSplits(n, s, run);
      EventIsGoodIff(n, s, e, run[0]);
      if Loses(n, s, run[0]) {
        assert run[1..][..0] == [];
        assert ReturnsTo(EndOf(m, t, run[1..][..0]).0, EndOf(m, t, run[1..][..0]).1) == Some(DEMO_EMAIL);
      } else {
        EmailSurvivesIff(m, t, e, run[1..]);
      }
    }
  }

  /** When only storing the carried email fails, what the answer and the node are. */
  lemma {:induction false} CarryFailureRollsBack(n: Node, s: Session, f: SwitchFaults, g: Gate)
    requires ReachesSession(n, s, f, g) && (n.active.Demo? || s.user.Some?)
    requires f.logoutOk && f.loginOk && !f.insertOk && !f.tookEffect
    ensures var o := RouteStep(n, s, Demo, f, g);
      && o.result == CarryFailed && o.node.active == n.active
      && (f.rollback.Succeeds? ==> o.node.file == Written(n.active))
      && (f.kept ==> o.session.user == Some(Account(Demo, DEMO_EMAIL)))
  {
  }

  lemma {:induction false} GoodReturns(n: Node, s: Session, e: string)
    requires Good(n, s, e)
    ensures ReturnsTo(n, s) in {None, Some(e)}
  {
  }

  /** When only storing the carried email fails, the profile is rolled back, and the
      way back to `e` is lost exactly when logout left no email and either the session
      is stored with the error answer, or logout emptied it and demo was active. */
  lemma {:induction false} InsertFailureLosesTheEmail(n: Node, s: Session, e: string, f: SwitchFaults, g: Gate)
    requires Carries(s, e) && e != DEMO_EMAIL && ReachesSession(n, s, f, g)
    requires f.logoutOk && f.loginOk && !f.insertOk && !f.tookEffect
    ensures var o := RouteStep(n, s, Demo, f, g);
      && o.result == CarryFailed && o.node.active == n.active
      && (f.rollback.Succeeds? ==> o.node.file == Written(n.active))
      && (ReturnsTo(o.node, o.session) == Some(DEMO_EMAIL) <==>
            if f.kept then f.flushes || s.saved.None? else f.flushes && n.active.Demo?)
      && (f.kept ==> o.session.user == Some(Account(Demo, DEMO_EMAIL)))
  {
    var ev := Attempt(Demo, f, g);
    CarryFailureRollsBack(n, s, f, g);
    EventIsGoodIff(n, s, e, ev);
    if !Loses(n, s, ev) {
      GoodReturns(NodeAfter(n, s, ev), SessionAfter(n, s, ev), e);
    }
  }

  /** The same by another way: on the way back, logout empties the session and login
      fails; demo is active again, and the layer logs the demo admin in. */
  lemma {:induction false} LoginFailureLosesTheEmail(n: Node, s: Session, e: string, f: SwitchFaults, g: Gate)
    requires n.active.Demo? && s == Session(Some(Account(Demo, DEMO_EMAIL)), Some(e)) && e != DEMO_EMAIL
    requires ReachesSession(n, s, f, g) && f.logoutOk && f.flushes && !f.loginOk && !f.tookEffect
    ensures var o := RouteStep(n, s, Production, f, g);
      && o.result == LoginFailed && o.node.active.Demo? && o.session == NOBODY
      && ReturnsTo(n, s) == Some(e) && ReturnsTo(o.node, o.session) == Some(DEMO_EMAIL)
  {
    EventIsGoodIff(n, s, e, Attempt(Production, f, g));
  }
}
