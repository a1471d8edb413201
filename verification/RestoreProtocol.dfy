/** Restore and validate requests in flight at the same time: every atomic access
    to the shared flag, bit, slot and profile file is one step of one thread, and
    steps interleave freely with one another and with the rest of the system. A request
    may be dropped wherever it waits; a blocking call it has started runs on. */
module RestoreProtocol {
  import opened SetupProfile
  import opened Server

  type Tid = nat

  datatype Kind = Validate | Restore

  /** What fills the production slot: nothing, a file put there by someone else, or
      the candidate of one restore thread. */
  datatype Slot = Empty | Found | By(owner: Tid)

  /** `NoAnswer` when the request was dropped. */
  datatype Reply = Success | Failure(error: RestoreResult) | NoAnswer

  /** The next access of a thread, named by what it already knows. */
  datatype Pc =
    | Entered                      // load first-launch
    | SawLaunch                    // look for the production file
    | SawEmptySlot                 // compare-and-swap the flag
    | Owner                        // load first-launch again
    | Refusing                     // clear the flag, refuse
    | Guarded                      // rate limit, body, validation
    | Ready                        // the copy looks for the production file
    | Copying                      // make the copy and rename it into the slot
    | Filled                       // write the profile tmp file
    | TmpWritten                   // rename it
    | Selected                     // write the sentinel
    | RemovingDb(selected: bool)   // roll back the slot
    | RemovingProfile              // roll back the profile file
    | Committed                    // schedule the shutdown
    | Leaving(reply: Reply)        // drop the guard
    | Detached(op: Pc)             // the request is gone, its blocking call runs on
    | Done(reply: Reply)

  datatype Thread = Thread(kind: Kind, pc: Pc)

  /** What all threads see. */
  datatype Shared = Shared(
    flag: bool,
    firstLaunch: bool,
    slot: Slot,
    profile: ProfileFile,
    sentinel: bool,
    shutdown: bool)

  datatype State = State(shared: Shared, threads: map<Tid, Thread>)

  /** `ok` says whether the call made in the step succeeds. */
  datatype Action =
    | Arrive(t: Tid, kind: Kind)
    | Step(t: Tid, ok: bool)
    | Drop(t: Tid)                       // the client of a request goes away while it waits
    | WriteProfile(mode: SetupMode)      // a setup, a switch or an admin switch writes the profile
    | ClearFirstLaunch                   // a setup or a switch clears the bit
    | PlaceFile                          // somebody else creates the production file

  /** Where a thread goes from `pc`. */
  function Next(m: Shared, kind: Kind, pc: Pc, ok: bool): Pc {
    match pc
    case Entered => if m.firstLaunch then SawLaunch else Done(Failure(Forbidden))
    case SawLaunch => if m.slot.Empty? then SawEmptySlot else Done(Failure(ProductionDbExists))
    case SawEmptySlot => if m.flag then Done(Failure(RestoreInProgress)) else Owner
    case Owner => if m.firstLaunch then Guarded else Refusing
    case Refusing => Done(Failure(Forbidden))
    case Guarded =>
      if !ok then Leaving(Failure(Rejected)) else if kind.Validate? then Leaving(Success) else Ready
    case Ready => if m.slot.Empty? then Copying else Leaving(Failure(ProductionDbExists))
    case Copying => if ok then Filled else Leaving(Failure(CopyFailed))
    case Filled => if ok then TmpWritten else RemovingDb(false)
    case TmpWritten => if ok then Selected else RemovingDb(false)
    case Selected => if ok then Committed else RemovingDb(true)
    case RemovingDb(selected) =>
      if !ok then Leaving(Failure(RollbackIncomplete))
      else if selected then RemovingProfile
      else Leaving(Failure(PersistFailed))
    case RemovingProfile => Leaving(Failure(if ok then PrepareFailed else RollbackIncomplete))
    case Committed => Leaving(Success)
    case Leaving(reply) => Done(reply)
    case Detached(op) => if op.Ready? && m.slot.Empty? then Detached(Copying) else Done(NoAnswer)
    case Done(reply) => Done(reply)
  }

  /** What the step writes. */
  function Effect(m: Shared, t: Tid, pc: Pc, ok: bool): Shared {
    match pc
    case SawEmptySlot => m.(flag := true)
    case Refusing => m.(flag := false)
    case Copying | Detached(Copying) => if ok then m.(slot := By(t)) else m
    case TmpWritten | Detached(TmpWritten) => if ok then m.(profile := Written(Production)) else m
    case Selected | Detached(Selected) => if ok then m.(sentinel := true) else m
    case RemovingDb(_) | Detached(RemovingDb(_)) => if ok then m.(slot := Empty) else m
    case RemovingProfile | Detached(RemovingProfile) => if ok then m.(profile := Absent) else m
    case Committed => m.(shutdown := true)
    case Leaving(_) => m.(flag := false)
    case _ => m
  }

  /** Where a request can be dropped: it waits for its body or for a blocking call. */
  predicate Awaits(pc: Pc) {
    || pc.Guarded? || MidCopy(pc) || pc.Filled? || pc.TmpWritten? || pc.Selected?
    || pc.RemovingDb? || pc.RemovingProfile? || pc.Committed?
  }

  /** The blocking task that copies has been started and has not ended. */
  predicate MidCopy(pc: Pc) {
    pc.Ready? || pc.Copying?
  }

  /** Dropping the request ends its body and releases its guard; a blocking call runs on. */
  function Dropped(pc: Pc): Pc {
    if pc.Guarded? || pc.Filled? || pc.Committed? then Done(NoAnswer) else Detached(pc)
  }

  predicate Droppable(s: State, t: Tid) {
    t in s.threads && Awaits(s.threads[t].pc)
  }

  function Abandon(s: State, t: Tid): State
    requires t in s.threads
  {
    var Thread(kind, pc) := s.threads[t];
    State(s.shared.(flag := false), s.threads[t := Thread(kind, Dropped(pc))])
  }

  function Advance(s: State, t: Tid, ok: bool): State
    requires t in s.threads
  {
    var Thread(kind, pc) := s.threads[t];
    State(Effect(s.shared, t, pc, ok), s.threads[t := Thread(kind, Next(s.shared, kind, pc, ok))])
  }

  function Apply(s: State, a: Action): State {
    match a
    case Arrive(t, kind) => if t in s.threads then s else s.(threads := s.threads[t := Thread(kind, Entered)])
    case Step(t, ok) => if t in s.threads then Advance(s, t, ok) else s
    case Drop(t) => if Droppable(s, t) then Abandon(s, t) else s
    case WriteProfile(mode) => s.(shared := s.shared.(profile := Written(mode)))
    case ClearFirstLaunch => s.(shared := s.shared.(firstLaunch := false))
    case PlaceFile => if s.shared.slot.Empty? then s.(shared := s.shared.(slot := Slot.Found)) else s
  }

  function Run(s: State, actions: seq<Action>): State {
    if actions == [] then s
    else Apply(Run(s, actions[..|actions| - 1]), actions[|actions| - 1])
  }

  /** Any directory, any first-launch bit, nothing in flight. */
  predicate Initial(s: State) {
    !s.shared.flag && !s.shared.slot.By? && !s.shared.shutdown && s.threads == map[]
  }

  // ------------------------------------------------------------ the invariant

  /** Between the successful compare-and-swap and the release. */
  predicate Owning(pc: Pc) {
    !pc.Entered? && !pc.SawLaunch? && !pc.SawEmptySlot? && !pc.Detached? && !pc.Done?
  }

  predicate Owns(s: State, t: Tid) {
    t in s.threads && Owning(s.threads[t].pc)
  }

  predicate HasFilled(pc: Pc) {
    pc.Filled? || pc.TmpWritten? || pc.Selected? || Removes(pc) || pc.Committed?
  }

  /** About to empty the slot, with or without its request. */
  predicate Removes(pc: Pc) {
    pc.RemovingDb? || (pc.Detached? && pc.op.RemovingDb?)
  }

  /** Between the check and the rename of a copy, with or without its request. */
  predicate InCopy(pc: Pc) {
    pc.Copying? || pc == Detached(Copying)
  }

  /** A copy whose request is gone and which may still fill the slot. */
  predicate Strays(pc: Pc) {
    pc == Detached(Ready) || pc == Detached(Copying)
  }

  /** Past the re-check of first launch and not yet past its copy. */
  predicate MayFill(pc: Pc) {
    pc.Guarded? || MidCopy(pc) || Strays(pc)
  }

  /** What fills the slot may still be taken out by the rollback of its thread. */
  predicate MayEmpty(pc: Pc) {
    pc.Filled? || pc.TmpWritten? || pc.Selected? || Removes(pc)
  }

  /** A restore request that succeeded, whether or not it has let go of the guard. */
  predicate Succeeded(th: Thread) {
    th.kind.Restore? && (th.pc == Leaving(Success) || th.pc == Done(Success))
  }

  predicate IsRestored(s: State, t: Tid) {
    t in s.threads && Succeeded(s.threads[t])
  }

  predicate Incomplete(pc: Pc) {
    pc == Leaving(Failure(RollbackIncomplete)) || pc == Done(Failure(RollbackIncomplete))
  }

  ghost predicate OneOwner(s: State) {
    && (forall t :: Owns(s, t) ==> s.shared.flag)
    && (forall t, u :: Owns(s, t) && Owns(s, u) ==> t == u)
    && (s.shared.flag ==> exists t :: Owns(s, t))
  }

  /** What thread `t` may rely on about the slot. */
  predicate SlotFits(slot: Slot, t: Tid, th: Thread) {
    && (HasFilled(th.pc) || Succeeded(th) ==> slot == By(t))
    && (slot == By(t) ==>
          HasFilled(th.pc) || Succeeded(th) || Incomplete(th.pc) || th.pc.Detached? || th.pc == Done(NoAnswer))
    && (MidCopy(th.pc) || HasFilled(th.pc) || th.pc.RemovingProfile? ==> th.kind.Restore?)
    && (InCopy(th.pc) ==> slot.Empty?)
  }

  ghost predicate Fits(s: State, t: Tid) {
    t in s.threads ==> SlotFits(s.shared.slot, t, s.threads[t])
  }

  /** The slot is full and stays so. */
  predicate Sealed(s: State) {
    || s.shared.slot.Found?
    || (s.shared.slot.By? && s.shared.slot.owner in s.threads && !MayEmpty(s.threads[s.shared.slot.owner].pc))
  }

  predicate IsMayFill(s: State, t: Tid) {
    t in s.threads && MayFill(s.threads[t].pc)
  }

  ghost predicate OnlyFiller(s: State, t: Tid) {
    forall u :: IsMayFill(s, u) ==> u == t
  }

  /** A stray copy has no rival, nor can it get one; or it will find the slot full. */
  ghost predicate StrayFits(s: State, t: Tid) {
    t in s.threads && Strays(s.threads[t].pc) ==>
      (!s.shared.firstLaunch && OnlyFiller(s, t)) || (s.threads[t].pc == Detached(Ready) && Sealed(s))
  }

  ghost predicate Inv(s: State) {
    && OneOwner(s)
    && (forall t :: Fits(s, t))
    && (forall t :: StrayFits(s, t))
    && (s.shared.slot.By? ==> s.shared.slot.owner in s.threads)
    && (s.shared.shutdown <==> exists t :: IsRestored(s, t))
  }

  predicate Copies(s: State, t: Tid) {
    t in s.threads && InCopy(s.threads[t].pc)
  }

  /** No file is placed while a copy is between its check and its rename. */
  ghost predicate PlacedOutsideCopy(s: State, a: Action) {
    a.PlaceFile? ==> forall t :: !Copies(s, t)
  }

  /** No other restore can start any more, or the copy will find the slot full. */
  predicate SafelyDropped(s: State, t: Tid) {
    t in s.threads && MidCopy(s.threads[t].pc) ==> !s.shared.firstLaunch || Sealed(s)
  }

  /** Files are placed outside copies, and no request is dropped during its copy as
      long as another restore may fill the slot. */
  ghost predicate PoliteStep(s: State, a: Action) {
    PlacedOutsideCopy(s, a) && (a.Drop? ==> SafelyDropped(s, a.t))
  }

  ghost predicate Polite(s: State, actions: seq<Action>) {
    forall i :: 0 <= i < |actions| ==> PoliteStep(Run(s, actions[..i]), actions[i])
  }

  lemma {:induction false} StepKeepsOneOwner(s: State, a: Action)
    requires OneOwner(s)
    ensures OneOwner(Apply(s, a))
  {
    var s' := Apply(s, a);
    if (a.Step? && a.t in s.threads) || (a.Drop? && Droppable(s, a.t)) {
      assert Owns(s, a.t) <==> Owning(s.threads[a.t].pc);
      assert Owns(s', a.t) <==> Owning(s'.threads[a.t].pc);
      assert forall u :: u != a.t ==> (Owns(s', u) <==> Owns(s, u));
      if s.shared.flag {
        var o :| Owns(s, o);
        assert o != a.t ==> Owns(s', o);
      }
    } else {
      assert forall u :: Owns(s', u) <==> Owns(s, u);
      if s.shared.flag {
        var o :| Owns(s, o);
        assert Owns(s', o);
      }
    }
  }

  /** Only a copy and a rollback touch the slot. */
  lemma {:induction false} OthersLeaveSlot(m: Shared, t: Tid, pc: Pc, ok: bool)
    requires !InCopy(pc) && !Removes(pc)
    ensures Effect(m, t, pc, ok).slot == m.slot
  {
  }

  /** The thread that moves keeps its own claim on the slot. */
  lemma {:induction false} OwnSlotFits(m: Shared, t: Tid, th: Thread, ok: bool)
    requires SlotFits(m.slot, t, th)
    ensures SlotFits(Effect(m, t, th.pc, ok).slot, t, Thread(th.kind, Next(m, th.kind, th.pc, ok)))
  {
    if !InCopy(th.pc) && !Removes(th.pc) {
      OthersLeaveSlot(m, t, th.pc, ok);
    }
  }

  /** No claim is broken by another thread, unless both are in a copy. */
  lemma {:induction false} OtherSlotFits(m: Shared, t: Tid, th: Thread, ok: bool, u: Tid, other: Thread)
    requires t != u && SlotFits(m.slot, t, th) && SlotFits(m.slot, u, other)
    requires !(InCopy(th.pc) && InCopy(other.pc))
    ensures SlotFits(Effect(m, t, th.pc, ok).slot, u, other)
  {
  }

  lemma {:induction false} OneCopyAtATime(s: State, t: Tid, u: Tid)
    requires Inv(s) && Copies(s, t) && Copies(s, u)
    ensures t == u
  {
    assert StrayFits(s, t) && StrayFits(s, u) && Fits(s, t);
    assert IsMayFill(s, t) && IsMayFill(s, u);
    if !Strays(s.threads[t].pc) && !Strays(s.threads[u].pc) {
      assert Owns(s, t) && Owns(s, u);
    }
  }

  lemma {:induction false} StepKeepsFits(s: State, a: Action, t: Tid)
    requires Inv(s) && PlacedOutsideCopy(s, a)
    ensures Fits(Apply(s, a), t)
  {
    assert Fits(s, t);
    if a.Step? && a.t in s.threads && t in s.threads {
      assert Fits(s, a.t);
      if a.t == t {
        OwnSlotFits(s.shared, t, s.threads[t], a.ok);
      } else {
        if Copies(s, a.t) && Copies(s, t) { OneCopyAtATime(s, a.t, t); }
        OtherSlotFits(s.shared, a.t, s.threads[a.t], a.ok, t, s.threads[t]);
      }
    } else if a.PlaceFile? {
      assert !Copies(s, t);
    }
  }

  lemma {:induction false} StaysSealed(s: State, a: Action)
    requires Inv(s) && Sealed(s)
    ensures Sealed(Apply(s, a)) && Apply(s, a).shared.slot == s.shared.slot
  {
    if a.Step? || a.Drop? { assert Fits(s, a.t); }
    if s.shared.slot.By? { assert Fits(s, s.shared.slot.owner); }
  }

  lemma {:induction false} StaysOnlyFiller(s: State, a: Action, t: Tid)
    requires !s.shared.firstLaunch && OnlyFiller(s, t)
    ensures !Apply(s, a).shared.firstLaunch && OnlyFiller(Apply(s, a), t)
  {
    forall u | IsMayFill(Apply(s, a), u) ensures u == t {
      assert IsMayFill(s, u);
    }
  }

  /** A copy whose request was just dropped. */
  lemma {:induction false} NewStrayFits(s: State, t: Tid)
    requires Inv(s) && SafelyDropped(s, t) && Droppable(s, t) && MidCopy(s.threads[t].pc)
    ensures StrayFits(Apply(s, Drop(t)), t)
  {
    assert Fits(s, t) && Owns(s, t) && IsMayFill(s, t);
    if Sealed(s) {
      StaysSealed(s, Drop(t));
    } else {
      forall u | IsMayFill(s, u) ensures u == t {
        assert StrayFits(s, u);
        assert Owns(s, u) || Strays(s.threads[u].pc);
      }
      StaysOnlyFiller(s, Drop(t), t);
    }
  }

  lemma {:induction false} StepKeepsStrays(s: State, a: Action, t: Tid)
    requires Inv(s) && PoliteStep(s, a)
    ensures StrayFits(Apply(s, a), t)
  {
    assert StrayFits(s, t) && Fits(s, t);
    if t in s.threads && Strays(s.threads[t].pc) {
      if Sealed(s) {
        StaysSealed(s, a);
      } else {
        StaysOnlyFiller(s, a, t);
      }
    } else if a.Drop? && a.t == t && Droppable(s, t) && MidCopy(s.threads[t].pc) {
      NewStrayFits(s, t);
    }
  }

  lemma {:induction false} SucceedsByCommitting(m: Shared, t: Tid, th: Thread, ok: bool)
    requires SlotFits(m.slot, t, th)
    ensures Succeeded(Thread(th.kind, Next(m, th.kind, th.pc, ok))) <==> Succeeded(th) || th.pc.Committed?
    ensures Effect(m, t, th.pc, ok).shutdown <==> m.shutdown || th.pc.Committed?
  {
  }

  lemma {:induction false} StepKeepsShutdown(s: State, a: Action)
    requires Inv(s)
    ensures Apply(s, a).shared.shutdown <==> exists t :: IsRestored(Apply(s, a), t)
  {
    var s' := Apply(s, a);
    if a.Step? && a.t in s.threads {
      assert Fits(s, a.t);
      SucceedsByCommitting(s.shared, a.t, s.threads[a.t], a.ok);
      assert IsRestored(s', a.t) <==> IsRestored(s, a.t) || s.threads[a.t].pc.Committed?;
      assert forall u :: u != a.t ==> (IsRestored(s', u) <==> IsRestored(s, u));
    } else {
      assert forall u :: IsRestored(s', u) <==> IsRestored(s, u);
    }
  }

  lemma {:induction false} StepKeepsFiller(s: State, a: Action)
    requires s.shared.slot.By? ==> s.shared.slot.owner in s.threads
    ensures var after := Apply(s, a);
      after.shared.slot.By? ==> after.shared.slot.owner in after.threads
  {
  }

  lemma {:induction false} StepKeepsInv(s: State, a: Action)
    requires Inv(s) && PoliteStep(s, a)
    ensures Inv(Apply(s, a))
  {
    var after := Apply(s, a);
    assert OneOwner(after) by { StepKeepsOneOwner(s, a); }
    assert after.shared.shutdown <==> exists t :: IsRestored(after, t) by { StepKeepsShutdown(s, a); }
    assert after.shared.slot.By? ==> after.shared.slot.owner in after.threads by { StepKeepsFiller(s, a); }
    forall t
      ensures Fits(after, t) && StrayFits(after, t)
    {
      StepKeepsFits(s, a, t);
      StepKeepsStrays(s, a, t);
    }
  }

  lemma {:induction false} RunKeepsInv(s: State, actions: seq<Action>)
    requires Initial(s) && Polite(s, actions)
    ensures Inv(Run(s, actions))
  {
    if actions == [] {
      assert forall t :: !Owns(s, t) && !IsRestored(s, t) && Fits(s, t) && StrayFits(s, t);
    } else {
      var n := |actions| - 1;
      assert PoliteStep(Run(s, actions[..n]), actions[n]);
      PolitePrefix(s, actions, n);
      RunKeepsInv(s, actions[..n]);
      StepKeepsInv(Run(s, actions[..n]), actions[n]);
    }
  }

  lemma {:induction false} PolitePrefix(s: State, actions: seq<Action>, n: nat)
    requires n <= |actions| && Polite(s, actions)
    ensures Polite(s, actions[..n])
  {
    forall i | 0 <= i < n
      ensures PoliteStep(Run(s, actions[..n][..i]), actions[..n][i])
    {
      assert actions[..n][..i] == actions[..i];
      assert PoliteStep(Run(s, actions[..i]), actions[i]);
    }
  }

  // ------------------------------------------------------------ safety

  lemma {:induction false} RunKeepsOneOwner(s: State, actions: seq<Action>)
    requires Initial(s)
    ensures OneOwner(Run(s, actions))
  {
    if actions == [] {
      assert forall t :: !Owns(s, t);
    } else {
      RunKeepsOneOwner(s, actions[..|actions| - 1]);
      StepKeepsOneOwner(Run(s, actions[..|actions| - 1]), actions[|actions| - 1]);
    }
  }

  /** At most one guard is live, and the flag is set exactly while one is. */
  lemma {:induction false} AtMostOneGuard(s: State, actions: seq<Action>, t: Tid, u: Tid)
    requires Initial(s)
    ensures Run(s, actions).shared.flag <==> exists o :: Owns(Run(s, actions), o)
    ensures Owns(Run(s, actions), t) && Owns(Run(s, actions), u) ==> t == u
  {
    RunKeepsOneOwner(s, actions);
  }

  /** What fills the slot stays, unless its own thread rolls back. */
  predicate KeepsSlot(s: State, a: Action) {
    var after := Apply(s, a).shared.slot;
    || s.shared.slot.Empty? || after == s.shared.slot
    || (after.Empty? && a.Step? && s.shared.slot == By(a.t) && a.t in s.threads && Removes(s.threads[a.t].pc))
  }

  lemma {:induction false} InvKeepsSlot(s: State, a: Action)
    requires Inv(s)
    ensures KeepsSlot(s, a)
  {
    if a.Step? { assert Fits(s, a.t); }
  }

  /** A filled slot is only ever emptied by the rollback of the thread that filled
      it, and never refilled while full. */
  lemma {:induction false} FilledSlotIsNeverOverwritten(s: State, actions: seq<Action>, a: Action)
    requires Initial(s) && Polite(s, actions)
    ensures KeepsSlot(Run(s, actions), a)
  {
    RunKeepsInv(s, actions);
    InvKeepsSlot(Run(s, actions), a);
  }

  /** A file that was there first is still there after any run. */
  lemma {:induction false} FoundFileSurvives(s: State, actions: seq<Action>)
    requires Initial(s) && Polite(s, actions) && s.shared.slot == Slot.Found
    ensures Run(s, actions).shared.slot == Slot.Found
  {
    if actions != [] {
      var n := |actions| - 1;
      PolitePrefix(s, actions, n);
      FoundFileSurvives(s, actions[..n]);
      FilledSlotIsNeverOverwritten(s, actions[..n], actions[n]);
    }
  }

  lemma {:induction false} StepStaysRestored(s: State, a: Action, t: Tid)
    requires IsRestored(s, t)
    ensures IsRestored(Apply(s, a), t)
  {
  }

  lemma {:induction false} StaysRestored(s: State, actions: seq<Action>, more: seq<Action>, t: Tid)
    requires IsRestored(Run(s, actions), t)
    ensures IsRestored(Run(s, actions + more), t)
  {
    if more == [] {
      assert actions + more == actions;
    } else {
      var n := |more| - 1;
      StaysRestored(s, actions, more[..n], t);
      assert (actions + more)[..|actions + more| - 1] == actions + more[..n];
      assert (actions + more)[|actions + more| - 1] == more[n];
      StepStaysRestored(Run(s, actions + more[..n]), more[n], t);
    }
  }

  /** At most one restore ever succeeds, and its candidate stays in the slot. */
  lemma {:induction false} RestoredOnceAndForGood(s: State, actions: seq<Action>, more: seq<Action>, t: Tid, u: Tid)
    requires Initial(s) && Polite(s, actions + more)
    requires IsRestored(Run(s, actions), t)
    ensures Run(s, actions + more).shared.slot == By(t) && IsRestored(Run(s, actions + more), t)
    ensures IsRestored(Run(s, actions + more), u) ==> u == t
  {
    StaysRestored(s, actions, more, t);
    RunKeepsInv(s, actions + more);
    assert Fits(Run(s, actions + more), t) && Fits(Run(s, actions + more), u);
  }

  /** Shutdown is scheduled exactly when some restore succeeded; a restore that
      failed without admitting an incomplete rollback has left nothing in the slot. */
  lemma {:induction false} ShutdownIffRestored(s: State, actions: seq<Action>, t: Tid, e: RestoreResult)
    requires Initial(s) && Polite(s, actions)
    ensures Run(s, actions).shared.shutdown <==> exists u :: IsRestored(Run(s, actions), u)
    ensures t in Run(s, actions).threads && Run(s, actions).threads[t].pc == Done(Failure(e)) && e != RollbackIncomplete
        ==> Run(s, actions).shared.slot != By(t)
  {
    RunKeepsInv(s, actions);
    assert Fits(Run(s, actions), t);
  }

  /** A guard handed to its caller. */
  predicate HoldsGuard(s: State, t: Tid) {
    Owns(s, t) && !s.threads[t].pc.Owner? && !s.threads[t].pc.Refusing?
  }

  lemma {:induction false} GuardComesFromRecheck(s: State, a: Action, t: Tid)
    requires HoldsGuard(Apply(s, a), t) && !HoldsGuard(s, t)
    ensures a.Step? && a.t == t && Owns(s, t) && s.shared.firstLaunch
  {
  }

  /** Every guard saw first-launch set after owning the flag: the step at which it
      did, since when the flag has been its own. */
  lemma {:induction false} GuardSawFirstLaunch(s: State, actions: seq<Action>, t: Tid) returns (k: nat)
    requires Initial(s) && HoldsGuard(Run(s, actions), t)
    ensures k < |actions| && actions[k] in {Step(t, true), Step(t, false)}
    ensures Run(s, actions[..k]).shared.firstLaunch && Run(s, actions[..k]).shared.flag
    ensures forall i :: k <= i <= |actions| ==> Owns(Run(s, actions[..i]), t)
  {
    var n := |actions| - 1;
    var before := Run(s, actions[..n]);
    assert actions[..n + 1] == actions;
    if HoldsGuard(before, t) {
      k := GuardSawFirstLaunch(s, actions[..n], t);
      assert actions[..n][..k] == actions[..k];
      forall i | k <= i <= |actions|
        ensures Owns(Run(s, actions[..i]), t)
      {
        if i <= n { assert actions[..n][..i] == actions[..i]; }
      }
    } else {
      k := n;
      GuardComesFromRecheck(before, actions[n], t);
      RunKeepsOneOwner(s, actions[..n]);
    }
  }

  lemma {:induction false} LaunchStaysCleared(s: State, a: Action)
    requires !s.shared.firstLaunch
    ensures !Apply(s, a).shared.firstLaunch
  {
  }

  /** Once a setup or a switch has cleared the bit, nobody gets a guard any more, however
      far a request had come before. */
  lemma {:induction false} NoGuardOnceCleared(s: State, actions: seq<Action>, k: nat, t: Tid)
    requires k < |actions| && actions[k] == ClearFirstLaunch && !HoldsGuard(Run(s, actions[..k]), t)
    ensures !Run(s, actions).shared.firstLaunch && !HoldsGuard(Run(s, actions), t)
    decreases |actions|
  {
    var n := |actions| - 1;
    assert actions[..n + 1] == actions;
    if k < n {
      assert actions[..n][..k] == actions[..k];
      NoGuardOnceCleared(s, actions[..n], k, t);
      LaunchStaysCleared(Run(s, actions[..n]), actions[n]);
      if HoldsGuard(Run(s, actions), t) {
        GuardComesFromRecheck(Run(s, actions[..n]), actions[n], t);
      }
    }
  }

  /** The profile file is written by others, by the rename of a restore, and removed by the
      rollback of one, and changes in no other way. */
  lemma {:induction false} ProfileChangesIff(s: State, a: Action)
    ensures Apply(s, a).shared.profile ==
      if a.WriteProfile? then Written(a.mode)
      else if a.Step? && a.ok && a.t in s.threads && s.threads[a.t].pc in {TmpWritten, Detached(TmpWritten)}
        then Written(Production)
      else if a.Step? && a.ok && a.t in s.threads && s.threads[a.t].pc in {RemovingProfile, Detached(RemovingProfile)}
        then Absent
      else s.shared.profile
  {
  }

  // ------------------------------------------------------------ files placed from outside

  lemma {:induction false} FoundStays(s: State, a: Action)
    requires Inv(s) && s.shared.slot == Slot.Found
    ensures Apply(s, a).shared.slot == Slot.Found || exists t :: Copies(s, t)
  {
    if a.Step? { assert Fits(s, a.t); }
  }

  lemma {:induction false} NoCopyOfFound(s: State)
    requires Inv(s) && s.shared.slot == Slot.Found
    ensures forall t :: !Copies(s, t)
  {
    forall t ensures !Copies(s, t) {
      assert Fits(s, t);
    }
  }

  lemma {:induction false} PoliteRunKeepsInv(s: State, actions: seq<Action>)
    requires Inv(s) && Polite(s, actions)
    ensures Inv(Run(s, actions))
    ensures s.shared.slot == Slot.Found ==> Run(s, actions).shared.slot == Slot.Found
  {
    if actions != [] {
      var n := |actions| - 1;
      var before := Run(s, actions[..n]);
      assert PoliteStep(before, actions[n]);
      PolitePrefix(s, actions, n);
      PoliteRunKeepsInv(s, actions[..n]);
      StepKeepsInv(before, actions[n]);
      if s.shared.slot == Slot.Found {
        NoCopyOfFound(before);
        FoundStays(before, actions[n]);
      }
    }
  }

  /** From `s`, the file that stands in the slot survives every polite run. */
  ghost predicate Survives(s: State) {
    forall more :: Polite(s, more) ==> Run(s, more).shared.slot == Slot.Found
  }

  lemma {:induction false} OverwrittenByCopy(s: State, t: Tid)
    requires Copies(s, t)
    ensures Polite(s, [Step(t, true)]) && Run(s, [Step(t, true)]).shared.slot == By(t)
  {
    assert [Step(t, true)][..0] == [];
  }

  lemma {:induction false} SurvivesOutsideCopy(s: State)
    requires Inv(s) && s.shared.slot.Empty? && PlacedOutsideCopy(s, PlaceFile)
    ensures Survives(Apply(s, PlaceFile))
  {
    var placed := Apply(s, PlaceFile);
    StepKeepsInv(s, PlaceFile);
    forall more | Polite(placed, more) ensures Run(placed, more).shared.slot == Slot.Found {
      PoliteRunKeepsInv(placed, more);
    }
  }

  lemma {:induction false} CopyOverwrites(s: State, t: Tid)
    requires Copies(s, t)
    ensures Apply(Apply(s, PlaceFile), Step(t, true)).shared.slot == By(t)
    ensures !Survives(Apply(s, PlaceFile))
  {
    OverwrittenByCopy(Apply(s, PlaceFile), t);
  }

  /** A file placed in an empty slot survives exactly when no copy is between its
      check and its rename; otherwise the next step of that copy overwrites it. */
  lemma {:induction false} PlacedFileSurvivesIff(s: State, actions: seq<Action>)
    requires Initial(s) && Polite(s, actions) && Run(s, actions).shared.slot.Empty?
    ensures Survives(Apply(Run(s, actions), PlaceFile)) <==> PlacedOutsideCopy(Run(s, actions), PlaceFile)
    ensures forall t :: Copies(Run(s, actions), t) ==>
      Apply(Apply(Run(s, actions), PlaceFile), Step(t, true)).shared.slot == By(t)
  {
    var before := Run(s, actions);
    if PlacedOutsideCopy(before, PlaceFile) {
      RunKeepsInv(s, actions);
      SurvivesOutsideCopy(before);
    }
    forall t | Copies(before, t)
      ensures Apply(Apply(before, PlaceFile), Step(t, true)).shared.slot == By(t)
      ensures !Survives(Apply(before, PlaceFile))
    {
      CopyOverwrites(before, t);
    }
  }

  lemma {:induction false} OneMoreAction(s: State, actions: seq<Action>, a: Action)
    ensures Run(s, actions + [a]) == Apply(Run(s, actions), a)
  {
    assert (actions + [a])[..|actions|] == actions;
  }

  /** A restore request arrives and makes `n` steps, every call succeeding. */
  function Alone(t: Tid, n: nat): seq<Action> {
    if n == 0 then [Arrive(t, Restore)] else Alone(t, n - 1) + [Step(t, true)]
  }

  /** The request stands at `pc` and nothing has come in its way. */
  predicate Standing(s: State, t: Tid, pc: Pc) {
    && t in s.threads && s.threads[t] == Thread(Restore, pc)
    && s.shared.slot == (if HasFilled(pc) || pc.Leaving? then By(t) else Empty)
    && s.shared.firstLaunch && (Owning(pc) || !s.shared.flag)
  }

  /** Where it stands after `n` steps. */
  function Stage(n: nat): Pc {
    if n == 0 then Entered
    else if n == 1 then SawLaunch
    else if n == 2 then SawEmptySlot
    else if n == 3 then Owner
    else if n == 4 then Guarded
    else if n == 5 then Ready
    else if n == 6 then Copying
    else if n == 7 then Filled
    else if n == 8 then TmpWritten
    else if n == 9 then Selected
    else if n == 10 then Committed
    else Leaving(Success)
  }

  lemma {:induction false} OneStepOn(s: State, t: Tid, n: nat)
    requires n < 11 && Standing(s, t, Stage(n))
    ensures Standing(Apply(s, Step(t, true)), t, Stage(n + 1))
  {
  }

  /** The others stand where they stood. */
  predicate OnlyMoved(before: State, after: State, t: Tid) {
    forall u :: u in before.threads && u != t ==> u in after.threads && after.threads[u] == before.threads[u]
  }

  /** A restore can start. */
  predicate Open(s: State) {
    s.shared.firstLaunch && s.shared.slot.Empty? && !s.shared.flag
  }

  lemma {:induction false} OnlyOneMoves(s: State, r: State, t: Tid, a: Action)
    requires OnlyMoved(s, r, t) && (a == Step(t, true) || a == Arrive(t, Restore))
    ensures OnlyMoved(s, Apply(r, a), t)
  {
  }

  lemma {:induction false} StandsAt(s: State, t: Tid, n: nat)
    requires Open(s) && t !in s.threads && n <= 11
    ensures Standing(Run(s, Alone(t, n)), t, Stage(n)) && OnlyMoved(s, Run(s, Alone(t, n)), t)
  {
    if n == 0 {
      OneMoreAction(s, [], Arrive(t, Restore));
      assert [] + [Arrive(t, Restore)] == Alone(t, n);
    } else {
      var before := Run(s, Alone(t, n - 1));
      StandsAt(s, t, n - 1);
      OneMoreAction(s, Alone(t, n - 1), Step(t, true));
      OneStepOn(before, t, n - 1);
      OnlyOneMoves(s, before, t, Step(t, true));
    }
  }

  /** How many steps a request makes up to its copy, its sentinel and its success. */
  const UP_TO_COPY: nat := 6
  const UP_TO_SENTINEL: nat := 9
  const UP_TO_SUCCESS: nat := 11

  /** From every start on which a restore is allowed this run, in which the request
      has made its steps up to the copy, overwrites a file that somebody else placed. */
  lemma {:induction false} PlacedDuringCopyIsOverwritten(s: State, t: Tid)
    requires Initial(s) && s.shared.firstLaunch && s.shared.slot.Empty?
    ensures Run(s, Alone(t, UP_TO_COPY) + [PlaceFile]).shared.slot == Slot.Found
    ensures Run(s, Alone(t, UP_TO_COPY) + [PlaceFile] + [Step(t, true)]).shared.slot == By(t)
  {
    StandsAt(s, t, UP_TO_COPY);
    OneMoreAction(s, Alone(t, UP_TO_COPY), PlaceFile);
    OneMoreAction(s, Alone(t, UP_TO_COPY) + [PlaceFile], Step(t, true));
  }

  lemma {:induction false} RollsBackOver(s: State, t: Tid, mode: SetupMode)
    requires Standing(s, t, Selected)
    ensures var written := Apply(s, WriteProfile(mode));
      var removed := Apply(Apply(Apply(written, Step(t, false)), Step(t, true)), Step(t, true));
      && written.shared.profile == Written(mode) && removed.shared.profile == Absent
      && t in removed.threads && removed.threads[t].pc == Leaving(Failure(PrepareFailed))
  {
  }

  /** The rollback of a restore does not look whose profile file it removes: from every
      start that allows a restore there is a run in which it removes one that somebody
      else has written in between. */
  lemma {:induction false} RollbackRemovesAnothersProfile(s: State, t: Tid, mode: SetupMode)
    requires Initial(s) && s.shared.firstLaunch && s.shared.slot.Empty?
    ensures var written := Apply(Run(s, Alone(t, UP_TO_SENTINEL)), WriteProfile(mode));
      var removed := Apply(Apply(Apply(written, Step(t, false)), Step(t, true)), Step(t, true));
      && written.shared.profile == Written(mode) && removed.shared.profile == Absent
      && t in removed.threads && removed.threads[t].pc == Leaving(Failure(PrepareFailed))
  {
    StandsAt(s, t, UP_TO_SENTINEL);
    RollsBackOver(Run(s, Alone(t, UP_TO_SENTINEL)), t, mode);
  }

  // ------------------------------------------------------------ dropped requests

  lemma {:induction false} RunOn(s: State, actions: seq<Action>, more: seq<Action>)
    ensures Run(s, actions + more) == Run(Run(s, actions), more)
  {
    if more == [] {
      assert actions + more == actions;
    } else {
      var n := |more| - 1;
      RunOn(s, actions, more[..n]);
      assert (actions + more)[..|actions + more| - 1] == actions + more[..n];
    }
  }

  /** Requests that come and go on; nothing is placed, nobody goes away. */
  predicate Quiet(actions: seq<Action>) {
    forall i :: 0 <= i < |actions| ==> actions[i].Arrive? || actions[i].Step?
  }

  lemma {:induction false} QuietIsPolite(s: State, actions: seq<Action>)
    requires Quiet(actions)
    ensures Polite(s, actions)
  {
  }

  lemma {:induction false} AloneIsQuiet(t: Tid, n: nat)
    ensures Quiet(Alone(t, n))
  {
    if n > 0 { AloneIsQuiet(t, n - 1); }
  }

  lemma {:induction false} FreshTid(ids: set<Tid>) returns (u: Tid)
    ensures forall t :: t in ids ==> t < u
  {
    u := 0;
    if t :| t in ids {
      var v := FreshTid(ids - {t});
      u := if v <= t then t + 1 else v;
      forall x | x in ids ensures x < u {
        assert x == t || x in ids - {t};
      }
    }
  }

  /** A copy without a request is about to rename, and a restore can start. */
  predicate Exposed(s: State, t: Tid) {
    Open(s) && t in s.threads && s.threads[t].pc == Detached(Copying)
  }

  /** A copy without a request is under way, and the slot is empty or about to be. */
  predicate Straying(s: State, t: Tid) {
    && s.shared.firstLaunch && !s.shared.flag && t in s.threads
    && match s.shared.slot
       case Empty => Strays(s.threads[t].pc)
       case Found => false
       case By(v) =>
         s.threads[t].pc == Detached(Ready) && v != t && v in s.threads && s.threads[v].pc.Detached?
         && Removes(s.threads[v].pc)
  }

  lemma {:induction false} DropLeavesStray(s: State, t: Tid)
    requires Inv(s) && Droppable(s, t) && !SafelyDropped(s, t)
    ensures Straying(Apply(s, Drop(t)), t)
  {
    assert Fits(s, t) && Owns(s, t);
    if s.shared.slot.By? {
      var v := s.shared.slot.owner;
      assert Fits(s, v) && !(v != t && Owns(s, v));
    }
  }

  lemma {:induction false} RollbackEmpties(s: State, t: Tid)
    requires Straying(s, t) && s.shared.slot.By?
    ensures Straying(Apply(s, Step(s.shared.slot.owner, true)), t)
    ensures Apply(s, Step(s.shared.slot.owner, true)).shared.slot.Empty?
  {
  }

  lemma {:induction false} StrayGoesOn(s: State, t: Tid)
    requires Straying(s, t) && s.shared.slot.Empty?
    ensures Exposed(s, t) || Exposed(Apply(s, Step(t, true)), t)
  {
  }

  /** A few steps lead from there to such a state. */
  lemma {:induction false} StrayIsExposed(s: State, t: Tid) returns (more: seq<Action>)
    requires Straying(s, t)
    ensures Quiet(more) && Exposed(Run(s, more), t)
    decreases s.shared.slot.By?
  {
    if s.shared.slot.By? {
      var a := Step(s.shared.slot.owner, true);
      RollbackEmpties(s, t);
      var rest := StrayIsExposed(Apply(s, a), t);
      OneMoreAction(s, [], a);
      RunOn(s, [] + [a], rest);
      more := [] + [a] + rest;
    } else {
      StrayGoesOn(s, t);
      more := [];
      if !Exposed(s, t) {
        OneMoreAction(s, [], Step(t, true));
        more := [] + [Step(t, true)];
      }
    }
  }

  /** From there another restore can succeed and then lose its file to the copy. */
  lemma {:induction false} ExposedRestoreIsLost(s: State, t: Tid) returns (more: seq<Action>, u: Tid)
    requires Exposed(s, t)
    ensures Quiet(more)
    ensures IsRestored(Run(s, more), u) && Run(s, more).shared.slot == By(u) && u != t
    ensures Apply(Run(s, more), Step(t, true)).shared.slot == By(t)
    ensures IsRestored(Apply(Run(s, more), Step(t, true)), u)
  {
    u := FreshTid(s.threads.Keys);
    more := Alone(u, UP_TO_SUCCESS);
    AloneIsQuiet(u, UP_TO_SUCCESS);
    StandsAt(s, u, UP_TO_SUCCESS);
  }

  /** Whenever a request is dropped during its copy while another restore may fill the
      slot, some run goes on to do so, answers success, and the copy overwrites it. */
  lemma {:induction false} DroppedCopyOverwritesARestore(s: State, actions: seq<Action>, t: Tid)
    returns (more: seq<Action>, u: Tid)
    requires Initial(s) && Polite(s, actions)
    requires Droppable(Run(s, actions), t) && !SafelyDropped(Run(s, actions), t)
    ensures var end := Run(Apply(Run(s, actions), Drop(t)), more);
      && Polite(Apply(Run(s, actions), Drop(t)), more)
      && u != t && IsRestored(end, u) && end.shared.slot == By(u)
      && Apply(end, Step(t, true)).shared.slot == By(t) && IsRestored(Apply(end, Step(t, true)), u)
  {
    var stray := Apply(Run(s, actions), Drop(t));
    RunKeepsInv(s, actions);
    DropLeavesStray(Run(s, actions), t);
    var first := StrayIsExposed(stray, t);
    var rest;
    rest, u := ExposedRestoreIsLost(Run(stray, first), t);
    more := first + rest;
    RunOn(stray, first, rest);
    QuietIsPolite(stray, more);
  }

  /** A request can be dropped wherever it holds the guard and has not answered; that
      clears the flag and nothing else. */
  lemma {:induction false} DropReleasesGuard(s: State, t: Tid)
    ensures Droppable(s, t) <==> HoldsGuard(s, t) && !s.threads[t].pc.Leaving?
    ensures Droppable(s, t) ==>
      && Apply(s, Drop(t)).shared == s.shared.(flag := false)
      && !Owns(Apply(s, Drop(t)), t) && OnlyMoved(s, Apply(s, Drop(t)), t)
  {
  }

  /** A blocking call of a restore that touches what all threads see. */
  predicate Blocking(pc: Pc) {
    MidCopy(pc) || pc.TmpWritten? || pc.Selected? || pc.RemovingDb? || pc.RemovingProfile?
  }

  /** Left behind, it has the effect it would have had; a copy goes on to its rename, and
      any other call is the last. */
  lemma {:induction false} DetachedCallRunsOn(m: Shared, t: Tid, kind: Kind, op: Pc, ok: bool)
    requires Awaits(op)
    ensures Dropped(op) == if Blocking(op) then Detached(op) else Done(NoAnswer)
    ensures Blocking(op) ==> Effect(m, t, Dropped(op), ok) == Effect(m, t, op, ok)
    ensures Blocking(op) ==>
      Next(m, kind, Dropped(op), ok) == if op.Ready? && m.slot.Empty? then Detached(Copying) else Done(NoAnswer)
  {
  }

  /** From `s` on, every polite run keeps what fills the slot. */
  ghost predicate Spares(s: State) {
    forall more, a :: Polite(s, more) ==> KeepsSlot(Run(s, more), a)
  }

  lemma {:induction false} InvSpares(s: State)
    requires Inv(s)
    ensures Spares(s)
  {
    forall more, a | Polite(s, more) ensures KeepsSlot(Run(s, more), a) {
      PoliteRunKeepsInv(s, more);
      InvKeepsSlot(Run(s, more), a);
    }
  }

  /** Dropping a request is harmless exactly when it is not in its copy, or no other
      restore can fill the slot any more. */
  lemma {:induction false} DropIsHarmlessIff(s: State, actions: seq<Action>, t: Tid)
    requires Initial(s) && Polite(s, actions) && Droppable(Run(s, actions), t)
    ensures Spares(Apply(Run(s, actions), Drop(t))) <==> SafelyDropped(Run(s, actions), t)
  {
    RunKeepsInv(s, actions);
    if SafelyDropped(Run(s, actions), t) {
      StepKeepsInv(Run(s, actions), Drop(t));
      InvSpares(Apply(Run(s, actions), Drop(t)));
    } else {
      var more, u := DroppedCopyOverwritesARestore(s, actions, t);
      assert !KeepsSlot(Run(Apply(Run(s, actions), Drop(t)), more), Step(t, true));
    }
  }

  // ------------------------------------------------------------ every exit

  function Rank(pc: Pc): nat {
    match pc
    case Entered => 14
    case SawLaunch => 13
    case SawEmptySlot => 12
    case Owner => 11
    case Refusing => 10
    case Guarded => 9
    case Ready => 8
    case Copying => 7
    case Filled => 6
    case TmpWritten => 5
    case Selected => 4
    case RemovingDb(_) => 3
    case RemovingProfile => 2
    case Committed => 2
    case Leaving(_) => 1
    case Detached(op) => if op.Ready? then 2 else 1
    case Done(_) => 0
  }

  /** No step waits: whatever succeeds or fails, a thread is `Done`, its guard
      released, after at most fourteen steps of its own. */
  lemma {:induction false} EveryStepMakesProgress(m: Shared, t: Tid, kind: Kind, pc: Pc, ok: bool)
    requires !pc.Done?
    ensures Rank(Next(m, kind, pc, ok)) < Rank(pc)
    ensures Owning(pc) && Next(m, kind, pc, ok).Done? ==> !Effect(m, t, pc, ok).flag
  {
  }

  // ------------------------------------------- alone, a thread is the handler

  /** The outcome of each call, as the handler's faults have it. */
  predicate OkFor(f: RestoreFaults, pc: Pc) {
    match pc
    case Guarded => f.rateOk && f.extractOk && f.taskOk && f.validOk
    case Copying => f.copyOk
    case Filled => !f.write.TmpFails?
    case TmpWritten => !f.write.RenameFails?
    case Selected => f.sentinelOk
    case RemovingDb(_) => f.removeDbOk
    case RemovingProfile => f.removeProfileOk
    case _ => true
  }

  /** One restore thread stepped to its end with nothing in between. */
  function Solo(m: Shared, t: Tid, pc: Pc, f: RestoreFaults): (Shared, Reply)
    decreases Rank(pc)
  {
    if pc.Done? then (m, pc.reply)
    else
      EveryStepMakesProgress(m, t, Restore, pc, OkFor(f, pc));
      Solo(Effect(m, t, pc, OkFor(f, pc)), t, Next(m, Restore, pc, OkFor(f, pc)), f)
  }

  /** The thread's view of what the handler did; every refusal between guard and
      copy is one and the same to the protocol. */
  predicate SameOutcome(end: (Shared, Reply), n: Node, r: RestoreResult) {
    var (m, reply) := end;
    && (m.slot.Empty? <==> n.slot.None?)
    && m.profile == n.file && m.firstLaunch == n.firstLaunch && m.flag == n.restoring && m.shutdown == n.shutdown
    && (r.Restored? ==> m.sentinel && n.sentinel)
    && reply == if r.Restored? then Success
                else if r.TooManyRestores? || r.BadRequest? || r.TaskPanicked? then Failure(Rejected)
                else Failure(r)
  }

  function View(n: Node): Shared {
    Shared(n.restoring, n.firstLaunch, if n.slot.None? then Empty else Slot.Found, n.file, n.sentinel, n.shutdown)
  }

  lemma {:induction false} SoloLeaves(m: Shared, t: Tid, f: RestoreFaults, reply: Reply)
    ensures Solo(m, t, Leaving(reply), f) == (m.(flag := false), reply)
  {
    assert Solo(m.(flag := false), t, Done(reply), f) == (m.(flag := false), reply);
  }

  lemma {:induction false} SoloRollsBack(m: Shared, t: Tid, f: RestoreFaults, selected: bool)
    ensures Solo(m, t, RemovingDb(selected), f) ==
      if !f.removeDbOk then (m.(flag := false), Failure(RollbackIncomplete))
      else if !selected then (m.(flag := false, slot := Empty), Failure(PersistFailed))
      else if f.removeProfileOk then (m.(flag := false, slot := Empty, profile := Absent), Failure(PrepareFailed))
      else (m.(flag := false, slot := Empty), Failure(RollbackIncomplete))
  {
    var a := Effect(m, t, RemovingDb(selected), f.removeDbOk);
    if !f.removeDbOk {
      SoloLeaves(a, t, f, Failure(RollbackIncomplete));
    } else if !selected {
      SoloLeaves(a, t, f, Failure(PersistFailed));
    } else {
      var b := Effect(a, t, RemovingProfile, f.removeProfileOk);
      var reply := Failure(if f.removeProfileOk then PrepareFailed else RollbackIncomplete);
      SoloLeaves(b, t, f, reply);
      assert Solo(a, t, RemovingProfile, f) == Solo(b, t, Leaving(reply), f);
    }
  }

  /** From the filled slot to the end. */
  lemma {:induction false} SoloSelects(m: Shared, t: Tid, f: RestoreFaults)
    ensures Solo(m, t, Filled, f) ==
      if !f.write.Succeeds? then Solo(m, t, RemovingDb(false), f)
      else
        var p := m.(profile := Written(Production));
        if !f.sentinelOk then Solo(p, t, RemovingDb(true), f)
        else (p.(flag := false, sentinel := true, shutdown := true), Success)
  {
    if !f.write.TmpFails? {
      assert Solo(m, t, Filled, f) == Solo(m, t, TmpWritten, f);
      if f.write.Succeeds? {
        var p := m.(profile := Written(Production));
        assert Solo(m, t, TmpWritten, f) == Solo(p, t, Selected, f);
        if f.sentinelOk {
          var q := p.(sentinel := true);
          assert Solo(p, t, Selected, f) == Solo(q, t, Committed, f);
          assert Solo(q, t, Committed, f) == Solo(q.(shutdown := true), t, Leaving(Success), f);
          SoloLeaves(q.(shutdown := true), t, f, Success);
        }
      }
    }
  }

  /** The commit of a copied candidate, and its rollbacks. */
  lemma {:induction false} SoloFills(t: Tid, f: RestoreFaults, n: Node)
    requires n.restoring && n.slot.None?
    requires OkFor(f, Guarded) && f.copyOk
    ensures var (m, r) := CommitStep(n, f);
      SameOutcome(Solo(View(n).(slot := By(t)), t, Filled, f), m.(restoring := false), r)
  {
    var c := View(n).(slot := By(t));
    SoloSelects(c, t, f);
    if !f.write.Succeeds? {
      SoloRollsBack(c, t, f, false);
    } else if !f.sentinelOk {
      SoloRollsBack(c.(profile := Written(Production)), t, f, true);
    }
  }

  /** From the guard to the end. */
  lemma {:induction false} SoloCommits(t: Tid, f: RestoreFaults, n: Node)
    requires n.restoring
    ensures var (m, r) := CommitStep(n, f);
      SameOutcome(Solo(View(n), t, Guarded, f), m.(restoring := false), r)
  {
    var s := View(n);
    if !OkFor(f, Guarded) {
      SoloLeaves(s, t, f, Failure(Rejected));
    } else {
      assert Solo(s, t, Guarded, f) == Solo(s, t, Ready, f);
      if n.slot.Some? {
        SoloLeaves(s, t, f, Failure(ProductionDbExists));
      } else {
        assert Solo(s, t, Ready, f) == Solo(s, t, Copying, f);
        if !f.copyOk {
          SoloLeaves(s, t, f, Failure(CopyFailed));
        } else {
          assert Solo(s, t, Copying, f) == Solo(s.(slot := By(t)), t, Filled, f);
          SoloFills(t, f, n);
        }
      }
    }
  }

  /** With nothing else in flight, the steps of one restore thread have the same
      effect and give the same answer as the handler run in one go. */
  lemma {:induction false} SoloRunIsTheHandler(t: Tid, f: RestoreFaults, n: Node)
    requires !f.launchCleared
    ensures var (m, r) := RestoreStep(n, f);
      SameOutcome(Solo(View(n), t, Entered, f), m, r)
  {
    var s := View(n);
    if n.firstLaunch {
      assert Solo(s, t, Entered, f) == Solo(s, t, SawLaunch, f);
      if n.slot.None? {
        assert Solo(s, t, SawLaunch, f) == Solo(s, t, SawEmptySlot, f);
        if !n.restoring {
          var g := View(n.(restoring := true));
          assert Solo(s, t, SawEmptySlot, f) == Solo(g, t, Owner, f);
          assert Solo(g, t, Owner, f) == Solo(g, t, Guarded, f);
          SoloCommits(t, f, n.(restoring := true));
        }
      }
    }
  }
}
