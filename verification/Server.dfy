/** One server process and its data directory: the in-memory active profile, the
    `active_profile` file, the production slot and the first-launch bit, and the
    operations that change them.  Every file, session and database call can
    fail; how it does is part of each operation's argument. */
module Server {
  import opened Text
  import opened SetupProfile

  /** `tmp` is `active_profile.tmp`, `slot` is `production/mokumo.db`. */
  datatype Node = Node(
    active: SetupMode,
    file: ProfileFile,
    tmp: ProfileFile,
    slot: Option<seq<Byte>>,
    firstLaunch: bool,
    restoring: bool,
    sentinel: bool,
    shutdown: bool)

  datatype Account = Account(profile: SetupMode, email: string)

  /** A browser session: who is logged in, and the production email it carries. */
  datatype Session = Session(user: Option<Account>, saved: Option<string>)

  const NOBODY: Session := Session(None, None)

  const DEMO_EMAIL: string := "admin@demo.local"

  /** How "write the tmp file, rename it over `active_profile`" goes. */
  datatype Write = Succeeds | TmpFails(partial: ProfileFile) | RenameFails

  // -------------------------------------------------------------- profile file

  function Persist(n: Node, mode: SetupMode, w: Write): Node {
    match w
    case Succeeds => n.(file := Written(mode), tmp := Absent)
    case TmpFails(partial) => n.(tmp := partial)
    case RenameFails => n.(tmp := Written(mode))
  }

  /** Undo a switch: memory first, then a best-effort write of the file. */
  function RollBack(n: Node, previous: SetupMode, w: Write): Node {
    Persist(n.(active := previous), previous, w)
  }

  // -------------------------------------------------------------- boot

  /** A new process: the flat-layout migration may select production, opening the
      production pool may create its file, and memory follows the file. */
  function Boot(n: Node, flatPresent: bool, created: Option<seq<Byte>>): Node {
    var file := if n.file.Absent? && flatPresent then Written(Production) else n.file;
    Node(Resolve(file), file, n.tmp, if n.slot.Some? then n.slot else created,
         file.Absent?, false, n.sentinel, false)
  }

  // -------------------------------------------------------------- setup

  datatype SetupFaults = SetupFaults(shopNameOk: bool, adminOk: bool, poolOk: bool, write: Write)

  datatype SetupResult = Created | Invalid | AdminRefused | PoolMissing

  function SetupStep(n: Node, f: SetupFaults): (Node, SetupResult) {
    if !f.shopNameOk then (n, Invalid)
    else if !f.adminOk then (n, AdminRefused)
    else if !f.poolOk then (n, PoolMissing)
    else
      var p := Persist(n, Production, f.write);
      ((if f.write.Succeeds? then p.(active := Production) else p).(firstLaunch := false), Created)
  }

  // -------------------------------------------------------------- profile switch

  datatype Lookup = UserFound | UserMissing | DbError

  /** What the session library does is part of the argument: `flushes`, whether logout
      drops the session's data, in the store at once; `tookEffect`, whether the session
      call that failed did its work all the same; `kept`, whether an answer that is an
      error stores the session as it then is. */
  datatype SwitchFaults = SwitchFaults(
    rateOk: bool, originOk: bool, lookup: Lookup, persistOk: bool,
    logoutOk: bool, loginOk: bool, insertOk: bool,
    rollback: Write, flushes: bool, tookEffect: bool, kept: bool)

  datatype SwitchResult =
    | Switched | Unauthorized | TooManySwitches | BadOrigin | TargetUnavailable
    | SwitchInternal | LogoutFailed | LoginFailed | CarryFailed
    | DemoSetupRequired | DemoAdminMissing

  datatype SwitchOutcome = SwitchOutcome(node: Node, session: Session, result: SwitchResult, lookedUp: Option<string>)

  /** The email looked up in the target database. */
  function TargetEmail(s: Session, target: SetupMode): string
    requires s.user.Some?
  {
    if target.Demo? then DEMO_EMAIL
    else if s.saved.Some? then s.saved.value
    else s.user.value.email
  }

  /** The production email kept for the way back. */
  function CarriedEmail(s: Session): string
    requires s.user.Some?
  {
    if s.saved.Some? then s.saved.value else s.user.value.email
  }

  function LoggedOut(s: Session, f: SwitchFaults): Session {
    Session(None, if f.flushes then None else s.saved)
  }

  function LoggedIn(s: Session, target: SetupMode, email: string, f: SwitchFaults): Session {
    Session(Some(Account(target, email)), LoggedOut(s, f).saved)
  }

  /** What the next request finds after an error: the session as it then was, if that
      is stored, and otherwise what logout, `done` or not, has left in the store. */
  function AfterError(stored: Session, working: Session, done: bool, f: SwitchFaults): Session {
    if f.kept then working else if done && f.flushes then NOBODY else stored
  }

  /** Logout, login and carrying the email, once the profile is flipped from `previous`. */
  function SwapStep(flipped: Node, previous: SetupMode, stored: Session, s: Session, target: SetupMode, email: string,
        f: SwitchFaults)
    : (Node, Session, SwitchResult)
    requires s.user.Some?
  {
    var undone := RollBack(flipped, previous, f.rollback);
    var loggedIn := LoggedIn(s, target, email, f);
    var carried := loggedIn.(saved := Some(CarriedEmail(s)));
    if !f.logoutOk then
      (undone, AfterError(stored, if f.tookEffect then LoggedOut(s, f) else s, f.tookEffect, f), LogoutFailed)
    else if !f.loginOk then
      (undone, AfterError(stored, if f.tookEffect then loggedIn else LoggedOut(s, f), true, f), LoginFailed)
    else if target.Demo? && !f.insertOk then
      (undone, AfterError(stored, if f.tookEffect then carried else loggedIn, true, f), CarryFailed)
    else
      (flipped.(firstLaunch := false), if target.Demo? then carried else loggedIn, Switched)
  }

  /** The handler, on session `s` where the store still holds `stored`. */
  function SwitchStep(n: Node, stored: Session, s: Session, target: SetupMode, f: SwitchFaults): SwitchOutcome {
    var refused := AfterError(stored, s, false, f);
    if s.user.None? then SwitchOutcome(n, refused, Unauthorized, None)
    else if !f.rateOk then SwitchOutcome(n, refused, TooManySwitches, None)
    else if !f.originOk then SwitchOutcome(n, refused, BadOrigin, None)
    else
      var email := TargetEmail(s, target);
      if f.lookup.UserMissing? then SwitchOutcome(n, refused, TargetUnavailable, Some(email))
      else if f.lookup.DbError? || !f.persistOk then SwitchOutcome(n, refused, SwitchInternal, Some(email))
      else
        var flipped := n.(active := target, file := Written(target));
        var (m, after, r) := SwapStep(flipped, n.active, stored, s, target, email, f);
        SwitchOutcome(m, after, r, Some(email))
  }

  // -------------------------------------------------------------- the layer in front

  /** `loggedIn` says whether the automatic login goes through, `seen` whether the
      handler behind sees a login made earlier in the same request. */
  datatype Gate = Gate(installOk: bool, admin: Lookup, loggedIn: bool, seen: bool)

  datatype Passage = Refused(result: SwitchResult) | Passed(session: Session)

  function AutoLoggedIn(s: Session): Session {
    s.(user := Some(Account(Demo, DEMO_EMAIL)))
  }

  /** `require_auth_with_demo_auto_login`: while demo is active, whoever comes without
      a login is logged in as the demo admin. */
  function RequireAuth(n: Node, s: Session, g: Gate): Passage {
    if n.active.Demo? && !g.installOk then Refused(DemoSetupRequired)
    else if n.active.Demo? && s.user.None? then
      match g.admin
      case UserMissing => Refused(DemoAdminMissing)
      case DbError => Refused(SwitchInternal)
      case UserFound => if g.loggedIn then Passed(AutoLoggedIn(s)) else Refused(Unauthorized)
    else if s.user.None? then Refused(Unauthorized)
    else Passed(s)
  }

  /** A request to switch, as the route serves it. */
  function RouteStep(n: Node, s: Session, target: SetupMode, f: SwitchFaults, g: Gate): SwitchOutcome {
    match RequireAuth(n, s, g)
    case Refused(r) => SwitchOutcome(n, s, r, None)
    case Passed(l) =>
      if s.user.None? && !g.seen then SwitchOutcome(n, AfterError(s, l, false, f), Unauthorized, None)
      else SwitchStep(n, s, l, target, f)
  }

  /** Any other request behind the layer: it leaves the session as the layer hands it
      on, if that is stored. */
  function VisitStep(n: Node, s: Session, g: Gate, stores: bool): Session {
    match RequireAuth(n, s, g)
    case Refused(_) => s
    case Passed(l) => if stores then l else s
  }

  /** The switch on the admin socket: persist and flip, nothing else. */
  function AdminSwitchStep(n: Node, target: SetupMode, persistOk: bool): Node {
    if persistOk then n.(active := target, file := Written(target)) else n
  }

  // -------------------------------------------------------------- restore

  /** `launchCleared`: another request clears the first-launch bit right after the
      guard's compare-and-swap. */
  datatype RestoreFaults = RestoreFaults(
    launchCleared: bool, rateOk: bool, extractOk: bool, taskOk: bool, validOk: bool, copyOk: bool,
    write: Write, tmpCleanupOk: bool, sentinelOk: bool, partialSentinel: bool,
    removeDbOk: bool, removeProfileOk: bool, candidate: seq<Byte>)

  datatype RestoreResult =
    | Restored | Forbidden | ProductionDbExists | RestoreInProgress | TooManyRestores
    | BadRequest | TaskPanicked | Rejected | CopyFailed | PersistFailed | PrepareFailed
    | RollbackIncomplete

  /** `RestoreGuard::acquire`: the guard is held afterwards unless refused. */
  function Acquire(n: Node, launchCleared: bool): (Node, Option<RestoreResult>) {
    if !n.firstLaunch then (n, Some(Forbidden))
    else if n.slot.Some? then (n, Some(ProductionDbExists))
    else if n.restoring then (n, Some(RestoreInProgress))
    else if launchCleared then (n.(firstLaunch := false), Some(Forbidden))
    else (n.(restoring := true), None)
  }

  function RemoveDb(n: Node, ok: bool): Node {
    if ok then n.(slot := None) else n
  }

  /** Profile selection and sentinel, once the slot is filled, with their rollbacks. */
  function Select(n: Node, f: RestoreFaults): (Node, RestoreResult) {
    var c := Persist(n, Production, f.write);
    match f.write
    case TmpFails(_) =>
      (RemoveDb(if f.tmpCleanupOk then c.(tmp := Absent) else c, f.removeDbOk),
       if f.removeDbOk then PersistFailed else RollbackIncomplete)
    case RenameFails =>
      if !f.removeDbOk then (c, RollbackIncomplete)
      else (RemoveDb(if f.tmpCleanupOk then c.(tmp := Absent) else c, true), PersistFailed)
    case Succeeds =>
      if f.sentinelOk then (c.(sentinel := true, shutdown := true), Restored)
      else
        var d := RemoveDb(c.(sentinel := c.sentinel || f.partialSentinel), f.removeDbOk);
        if !f.removeDbOk || !f.removeProfileOk then (d, RollbackIncomplete)
        else (d.(file := Absent), PrepareFailed)
  }

  /** Validation and copy, then the rest. */
  function CommitStep(n: Node, f: RestoreFaults): (Node, RestoreResult) {
    if !f.rateOk then (n, TooManyRestores)
    else if !f.extractOk then (n, BadRequest)
    else if !f.taskOk then (n, TaskPanicked)
    else if !f.validOk then (n, Rejected)
    else if n.slot.Some? then (n, ProductionDbExists)
    else if !f.copyOk then (n, CopyFailed)
    else
      Select(n.(slot := Some(f.candidate)), f)
  }

  function RestoreStep(n: Node, f: RestoreFaults): (Node, RestoreResult) {
    var (g, refusal) := Acquire(n, f.launchCleared);
    if refusal.Some? then (g, refusal.value)
    else
      var (m, r) := CommitStep(g, f);
      (m.(restoring := false), r)
  }

  // -------------------------------------------------------------- the process

  /** The session of one request: a working copy and what the store holds. */
  class SessionHandle {
    var user: Option<Account>
    var saved: Option<string>
    var stored: Session

    ghost function View(): Session
      reads this
    {
      Session(user, saved)
    }

    constructor (s: Session)
      ensures View() == s == stored
    {
      user, saved, stored := s.user, s.saved, s;
    }

    method Logout(f: SwitchFaults)
      modifies this
      ensures var done := f.logoutOk || f.tookEffect;
        && View() == (if done then LoggedOut(old(View()), f) else old(View()))
        && stored == if done && f.flushes then NOBODY else old(stored)
    {
      if f.logoutOk || f.tookEffect {
        user := None;
        if f.flushes {
          saved := None;
          stored := NOBODY;
        }
      }
    }

    method Login(account: Account, f: SwitchFaults)
      modifies `user
      ensures user == if f.loginOk || f.tookEffect then Some(account) else old(user)
    {
      if f.loginOk || f.tookEffect {
        user := Some(account);
      }
    }

    method Insert(email: string, f: SwitchFaults)
      modifies `saved
      ensures saved == if f.insertOk || f.tookEffect then Some(email) else old(saved)
    {
      if f.insertOk || f.tookEffect {
        saved := Some(email);
      }
    }

    /** The end of the request. */
    method Store(keep: bool)
      modifies `stored
      ensures stored == if keep then View() else old(stored)
    {
      if keep {
        stored := Session(user, saved);
      }
    }
  }

  class Process {
    var active: SetupMode
    var file: ProfileFile
    var tmp: ProfileFile
    var slot: Option<seq<Byte>>
    var firstLaunch: bool
    var restoring: bool
    var sentinel: bool
    var shutdown: bool

    ghost function View(): Node
      reads this
    {
      Node(active, file, tmp, slot, firstLaunch, restoring, sentinel, shutdown)
    }

    /** Start on the directory another process left. */
    constructor (disk: Node, flatPresent: bool, created: Option<seq<Byte>>)
      ensures View() == Boot(disk, flatPresent, created)
    {
      var found := if disk.file.Absent? && flatPresent then Written(Production) else disk.file;
      file := found;
      active := Resolve(found);
      tmp := disk.tmp;
      slot := if disk.slot.Some? then disk.slot else created;
      firstLaunch := found.Absent?;
      restoring := false;
      sentinel := disk.sentinel;
      shutdown := false;
    }

    method WriteAndRename(mode: SetupMode, w: Write) returns (ok: bool)
      modifies `file, `tmp
      ensures View() == Persist(old(View()), mode, w) && ok == w.Succeeds?
    {
      if w.TmpFails? {
        tmp := w.partial;
        return false;
      }
      tmp := Written(mode);
      if w.RenameFails? { return false; }
      file := tmp;
      tmp := Absent;
      return true;
    }

    method VerticalSetup(f: SetupFaults) returns (r: SetupResult)
      modifies this
      ensures (View(), r) == SetupStep(old(View()), f)
    {
      if !f.shopNameOk { return Invalid; }
      if !f.adminOk { return AdminRefused; }
      if !f.poolOk { return PoolMissing; }
      var ok := WriteAndRename(Production, f.write);
      if ok {
        active := Production;
      }
      if firstLaunch {
        firstLaunch := false;
      }
      return Created;
    }

    /** `persist_and_flip`; the tmp file of this one has a name of its own. */
    method PersistAndFlip(target: SetupMode, persistOk: bool) returns (previous: Option<SetupMode>)
      modifies `active, `file
      ensures View() == AdminSwitchStep(old(View()), target, persistOk)
      ensures previous == if persistOk then Some(old(active)) else None
    {
      if !persistOk { return None; }
      file := Written(target);
      var was := active;
      active := target;
      return Some(was);
    }

    method RestoreProfile(previous: SetupMode, w: Write)
      modifies `active, `file, `tmp
      ensures View() == RollBack(old(View()), previous, w)
    {
      active := previous;
      var _ := WriteAndRename(previous, w);
    }

    /** A failed session call: roll the profile back and answer with an error. */
    method Abort(session: SessionHandle, previous: SetupMode, f: SwitchFaults)
      modifies `active, `file, `tmp, session`stored
      ensures View() == RollBack(old(View()), previous, f.rollback)
      ensures session.stored == if f.kept then session.View() else old(session.stored)
    {
      RestoreProfile(previous, f.rollback);
      session.Store(f.kept);
    }

    method SwapSession(session: SessionHandle, previous: SetupMode, target: SetupMode, email: string,
        toCarry: Option<string>, f: SwitchFaults)
      returns (r: SwitchResult)
      requires session.user.Some?
      requires toCarry == if target.Demo? then Some(CarriedEmail(session.View())) else None
      modifies this, session
      ensures (View(), session.stored, r)
           == SwapStep(old(View()), previous, old(session.stored), old(session.View()), target, email, f)
    {
      session.Logout(f);
      if !f.logoutOk {
        Abort(session, previous, f);
        return LogoutFailed;
      }
      session.Login(Account(target, email), f);
      if !f.loginOk {
        Abort(session, previous, f);
        return LoginFailed;
      }
      if toCarry.Some? {
        session.Insert(toCarry.value, f);
        if !f.insertOk {
          Abort(session, previous, f);
          return CarryFailed;
        }
      }
      if firstLaunch {
        firstLaunch := false;
      }
      session.Store(true);
      return Switched;
    }

    method ProfileSwitch(session: SessionHandle, target: SetupMode, f: SwitchFaults)
      returns (r: SwitchResult, lookedUp: Option<string>)
      modifies this, session
      ensures SwitchOutcome(View(), session.stored, r, lookedUp)
           == SwitchStep(old(View()), old(session.stored), old(session.View()), target, f)
    {
      if session.user.None? {
        session.Store(f.kept);
        return Unauthorized, None;
      }
      var current := session.user.value;
      if !f.rateOk {
        session.Store(f.kept);
        return TooManySwitches, None;
      }
      if !f.originOk {
        session.Store(f.kept);
        return BadOrigin, None;
      }
      var savedEmail := session.saved;
      var email := if target.Demo? then DEMO_EMAIL else if savedEmail.Some? then savedEmail.value else current.email;
      var toCarry := if target.Demo?
        then Some(if savedEmail.Some? then savedEmail.value else current.email)
        else None;
      lookedUp := Some(email);
      if f.lookup.UserMissing? {
        session.Store(f.kept);
        return TargetUnavailable, lookedUp;
      }
      if f.lookup.DbError? {
        session.Store(f.kept);
        return SwitchInternal, lookedUp;
      }
      var previous := PersistAndFlip(target, f.persistOk);
      if previous.None? {
        session.Store(f.kept);
        return SwitchInternal, lookedUp;
      }
      r := SwapSession(session, previous.value, target, email, toCarry, f);
    }

    method PassLayer(session: SessionHandle, g: Gate) returns (refusal: Option<SwitchResult>)
      modifies session`user
      ensures match RequireAuth(View(), old(session.View()), g)
        case Refused(r) => refusal == Some(r) && session.View() == old(session.View())
        case Passed(l) => refusal == None && session.View() == l
    {
      if active.Demo? && !g.installOk { return Some(DemoSetupRequired); }
      if active.Demo? && session.user.None? {
        if g.admin.UserMissing? { return Some(DemoAdminMissing); }
        if g.admin.DbError? { return Some(SwitchInternal); }
        if g.loggedIn { session.user := Some(Account(Demo, DEMO_EMAIL)); }
      }
      if session.user.None? { return Some(Unauthorized); }
      return None;
    }

    method SwitchRoute(session: SessionHandle, target: SetupMode, f: SwitchFaults, g: Gate)
      returns (r: SwitchResult, lookedUp: Option<string>)
      requires session.stored == session.View()
      modifies this, session
      ensures SwitchOutcome(View(), session.stored, r, lookedUp)
           == RouteStep(old(View()), old(session.View()), target, f, g)
    {
      var anonymous := session.user.None?;
      var refusal := PassLayer(session, g);
      if refusal.Some? { return refusal.value, None; }
      if anonymous && !g.seen {
        session.Store(f.kept);
        return Unauthorized, None;
      }
      r, lookedUp := ProfileSwitch(session, target, f);
    }

    method AcquireGuard(launchCleared: bool) returns (refusal: Option<RestoreResult>)
      modifies `restoring, `firstLaunch
      ensures (View(), refusal) == Acquire(old(View()), launchCleared)
    {
      if !firstLaunch { return Some(Forbidden); }
      if slot.Some? { return Some(ProductionDbExists); }
      if restoring { return Some(RestoreInProgress); }
      restoring := true;
      if launchCleared { firstLaunch := false; }
      if !firstLaunch {
        restoring := false;
        return Some(Forbidden);
      }
      return None;
    }

    method CopyToProduction(candidate: seq<Byte>, copyOk: bool) returns (error: Option<RestoreResult>)
      modifies `slot
      ensures old(slot).Some? ==> error == Some(ProductionDbExists)
      ensures old(slot).None? ==> error == if copyOk then None else Some(CopyFailed)
      ensures slot == if error.None? then Some(candidate) else old(slot)
    {
      if slot.Some? { return Some(ProductionDbExists); }
      if !copyOk { return Some(CopyFailed); }
      slot := Some(candidate);
      return None;
    }

    method Commit(f: RestoreFaults) returns (r: RestoreResult)
      modifies this
      ensures (View(), r) == CommitStep(old(View()), f)
    {
      if !f.rateOk { return TooManyRestores; }
      if !f.extractOk { return BadRequest; }
      if !f.taskOk { return TaskPanicked; }
      if !f.validOk { return Rejected; }
      var error := CopyToProduction(f.candidate, f.copyOk);
      if error.Some? { return error.value; }
      if f.write.TmpFails? {
        tmp := f.write.partial;
        if f.tmpCleanupOk { tmp := Absent; }
        if !f.removeDbOk { return RollbackIncomplete; }
        slot := None;
        return PersistFailed;
      }
      tmp := Written(Production);
      if f.write.RenameFails? {
        if !f.removeDbOk { return RollbackIncomplete; }
        slot := None;
        if f.tmpCleanupOk { tmp := Absent; }
        return PersistFailed;
      }
      file := tmp;
      tmp := Absent;
      if !f.sentinelOk {
        sentinel := sentinel || f.partialSentinel;
        if !f.removeDbOk { return RollbackIncomplete; }
        slot := None;
        if !f.removeProfileOk { return RollbackIncomplete; }
        file := Absent;
        return PrepareFailed;
      }
      sentinel := true;
      shutdown := true;
      return Restored;
    }

    /** The guard is dropped on every exit. */
    method RestoreHandler(f: RestoreFaults) returns (r: RestoreResult)
      modifies this
      ensures (View(), r) == RestoreStep(old(View()), f)
    {
      var refusal := AcquireGuard(f.launchCleared);
      if refusal.Some? { return refusal.value; }
      r := Commit(f);
      restoring := false;
    }
  }
}
