/**
 * The keyed Agent Run receipt: one file per idempotency key, written by whoever
 * claims the key, launches the agent, reports progress, finishes late or recovers
 * the run, with crashes in between. Checking a checkpoint and replacing the file
 * are separate steps, because the code holds no lock around them.
 */
module AgentRun {
  import opened Wrappers
  import opened Checkpoint

  type Pid = nat

  datatype Receipt = InProgress(checkpoint: Option<Checkpoint>) | Succeeded | Failed

  predicate Conclusive(r: Receipt) {
    r.Succeeded? || r.Failed?
  }

  /** File contents: created but not completely written, or one whole record. */
  datatype Content = Torn | Whole(receipt: Receipt)

  type File = Option<Content>

  /** Where one process stands between two file operations. */
  datatype Pc =
    | Created
    | Written
    | Claimed
    | Releasing
    | SyncRelease
    | Running
    | Recovering
    | Replacing(next: Checkpoint, seen: Receipt, back: Pc)
    | SyncReplace(back: Pc)
    | SyncFinish

  /** `launches` counts how often the Herdr probe was passed, so a workspace may have been created. */
  datatype State = State(visible: File, durable: File, procs: map<Pid, Pc>, launches: nat)

  datatype Step =
    | Claim
    | WriteClaim
    | FailClaim
    | SyncClaim
    | ProbeFails
    | ProbePasses
    | Release
    | SyncReleased
    | StartRecovery
    | Check(next: Checkpoint)
    | Replace
    | SyncReplaced
    | GiveUp
    | Finish(outcome: Receipt)
    | SyncFinished
    | Die
    | WriteBack
    | PowerLoss

  /** The holder of a claim that has not passed the probe. */
  predicate Exclusive(pc: Pc) {
    pc.Created? || pc.Written? || pc.Claimed? || pc.Releasing?
  }

  /** A process that exists only because the agent was launched. */
  predicate Active(pc: Pc) {
    pc.Running? || pc.Recovering? || pc.Replacing? || pc.SyncReplace? || pc.SyncFinish?
  }

  predicate Enabled(s: State, p: Pid, step: Step) {
    match step
    case WriteBack => true
    case PowerLoss => true
    case Claim => p !in s.procs && s.visible.None?
    case StartRecovery =>
      && p !in s.procs && s.visible.Some? && s.visible.value.Whole?
      && s.visible.value.receipt.InProgress? && s.visible.value.receipt.checkpoint.Some?
    case _ =>
      && p in s.procs
      && var pc := s.procs[p];
         match step
         case WriteClaim => pc.Created?
         case FailClaim => pc.Created? || pc.Written?
         case SyncClaim => pc.Written?
         case ProbeFails => pc.Claimed?
         case ProbePasses => pc.Claimed?
         case Release => pc.Releasing?
         case SyncReleased => pc.SyncRelease?
         case Check(_) => pc.Running? || pc.Recovering?
         case Replace => pc.Replacing?
         case SyncReplaced => pc.SyncReplace?
         case GiveUp => pc.Replacing? || pc.SyncReplace?
         case Finish(outcome) => (pc.Running? || pc.Recovering?) && Conclusive(outcome)
         case SyncFinished => pc.SyncFinish?
         case _ => true
  }

  /** `persist_agent_checkpoint` up to its write: go on, skip, or refuse. */
  function Checked(s: State, pc: Pc, next: Checkpoint): Pc {
    if s.visible.Some? && s.visible.value.Whole? then
      match s.visible.value.receipt
      case InProgress(Some(current)) =>
        if Replaces(current, next) then Replacing(next, s.visible.value.receipt, pc) else pc
      case InProgress(None) => Replacing(next, s.visible.value.receipt, pc)
      case _ => pc
    else pc
  }

  function At(s: State, p: Pid, pc: Pc): State {
    s.(procs := s.procs[p := pc])
  }

  function Gone(s: State, p: Pid): State {
    s.(procs := s.procs - {p})
  }

  function Do(s: State, p: Pid, step: Step): State
    requires Enabled(s, p, step)
  {
    match step
    case WriteBack => s.(durable := s.visible)
    case PowerLoss => s.(visible := s.durable, procs := map[])
    case Claim => At(s.(visible := Some(Torn)), p, Created)
    case StartRecovery => At(s, p, Recovering)
    case WriteClaim => At(s.(visible := Some(Whole(InProgress(None)))), p, Written)
    case FailClaim => Gone(s.(visible := None), p)
    case SyncClaim => At(s.(durable := s.visible), p, Claimed)
    case ProbeFails => At(s, p, Releasing)
    case ProbePasses => At(s.(launches := s.launches + 1), p, Running)
    case Release => At(s.(visible := None), p, SyncRelease)
    case SyncReleased => Gone(s.(durable := s.visible), p)
    case Check(next) => At(s, p, Checked(s, s.procs[p], next))
    case Replace =>
      At(s.(visible := Some(Whole(InProgress(Some(s.procs[p].next))))), p, SyncReplace(s.procs[p].back))
    case SyncReplaced => At(s.(durable := s.visible), p, s.procs[p].back)
    case GiveUp => At(s, p, s.procs[p].back)
    case Finish(outcome) => At(s.(visible := Some(Whole(outcome))), p, SyncFinish)
    case SyncFinished => Gone(s.(durable := s.visible), p)
    case Die => Gone(s, p)
  }

  datatype Event = Event(pid: Pid, step: Step)

  predicate Init(s: State) {
    s == State(None, None, map[], 0)
  }

  function Run(s: State, events: seq<Event>): Option<State> {
    if events == [] then Some(s)
    else match Run(s, events[..|events| - 1])
      case None => None
      case Some(t) =>
        var e := events[|events| - 1];
        if Enabled(t, e.pid, e.step) then Some(Do(t, e.pid, e.step)) else None
  }

  ghost predicate Reachable(s: State) {
    exists init: State, events: seq<Event> :: Init(init) && Run(init, events) == Some(s)
  }

  // ----- the invariant

  predicate Unlaunched(f: File) {
    f in {None, Some(Torn), Some(Whole(InProgress(None)))}
  }

  predicate ShowsConclusive(f: File) {
    f.Some? && f.value.Whole? && Conclusive(f.value.receipt)
  }

  predicate WellFormed(pc: Pc) {
    match pc
    case Replacing(next, seen, back) =>
      && seen.InProgress? && (back.Running? || back.Recovering?)
      && (seen.checkpoint.Some? ==> Replaces(seen.checkpoint.value, next))
    case SyncReplace(back) => back.Running? || back.Recovering?
    case _ => true
  }

  ghost predicate Inv(s: State) {
    && s.launches <= 1
    && (s.launches == 0 ==> Unlaunched(s.visible) && Unlaunched(s.durable))
    && (s.launches == 1 ==> s.visible.Some? && s.durable.Some?)
    && (forall p :: p in s.procs ==> WellFormed(s.procs[p]))
    && (forall p :: p in s.procs && Active(s.procs[p]) ==> s.launches == 1)
    && (forall p :: p in s.procs && Exclusive(s.procs[p]) ==> s.launches == 0 && s.visible.Some?)
    && (forall p :: p in s.procs && Exclusive(s.procs[p]) && !s.procs[p].Created? ==>
          s.visible == Some(Whole(InProgress(None))) && (s.procs[p].Written? || s.durable.Some?))
    && (forall p, q :: p in s.procs && q in s.procs && Exclusive(s.procs[p]) && Exclusive(s.procs[q]) ==> p == q)
  }

  /** The steps before the probe. */
  predicate Claims(step: Step) {
    match step
    case Claim => true
    case WriteClaim => true
    case FailClaim => true
    case SyncClaim => true
    case ProbeFails => true
    case ProbePasses => true
    case Release => true
    case SyncReleased => true
    case _ => false
  }

  lemma ClaimStepKeepsInv(s: State, p: Pid, step: Step)
    requires Inv(s) && Enabled(s, p, step) && Claims(step)
    ensures Inv(Do(s, p, step))
  {
  }

  lemma RunStepKeepsInv(s: State, p: Pid, step: Step)
    requires Inv(s) && Enabled(s, p, step) && !Claims(step)
    ensures Inv(Do(s, p, step))
  {
  }

  lemma StepKeepsInv(s: State, p: Pid, step: Step)
    requires Inv(s) && Enabled(s, p, step)
    ensures Inv(Do(s, p, step))
  {
    if Claims(step) { ClaimStepKeepsInv(s, p, step); } else { RunStepKeepsInv(s, p, step); }
  }

  lemma {:induction false} RunKeepsInv(s: State, events: seq<Event>)
    requires Inv(s) && Run(s, events).Some?
    ensures Inv(Run(s, events).value)
  {
    if events != [] {
      RunKeepsInv(s, events[..|events| - 1]);
      var e := events[|events| - 1];
      StepKeepsInv(Run(s, events[..|events| - 1]).value, e.pid, e.step);
    }
  }

  lemma ReachableKeepsInv(s: State)
    requires Reachable(s)
    ensures Inv(s)
  {
    var init, events :| Init(init) && Run(init, events) == Some(s);
    RunKeepsInv(init, events);
  }

  // ----- launching

  /** In every interleaving of claimers, crashes, checkpoints, recovery and late completion a key launches at most once. */
  lemma AtMostOneLaunch(s: State)
    requires Reachable(s)
    ensures s.launches <= 1
  {
    ReachableKeepsInv(s);
  }

  /** Once a run was launched, its receipt survives every step and every power loss. */
  lemma LaunchedReceiptStays(s: State, p: Pid, step: Step)
    requires Reachable(s) && s.launches == 1 && Enabled(s, p, step)
    ensures Do(s, p, step).visible.Some? && Do(s, p, step).durable.Some?
    ensures !step.Claim? && !step.Release? && !step.FailClaim? && !step.ProbePasses?
  {
    ReachableKeepsInv(s);
    StepKeepsInv(s, p, step);
  }

  /** An unavailable release removes nothing but an untouched claim. */
  lemma ReleaseDropsOnlyOwnClaim(s: State, p: Pid)
    requires Reachable(s) && Enabled(s, p, Release)
    ensures s.visible == Some(Whole(InProgress(None))) && s.launches == 0
    ensures forall q :: q in s.procs && q != p ==> !Exclusive(s.procs[q]) && !Active(s.procs[q])
  {
    ReachableKeepsInv(s);
  }

  // ----- conclusive receipts

  /**
   * A conclusive receipt is lost by exactly two steps: a checkpoint replacement
   * whose check is out of date, and a power loss before the receipt was synced.
   */
  lemma ConclusiveStaysIff(s: State, p: Pid, step: Step)
    requires Reachable(s) && Enabled(s, p, step) && ShowsConclusive(s.visible)
    ensures ShowsConclusive(Do(s, p, step).visible) <==>
            !step.Replace? && (step.PowerLoss? ==> ShowsConclusive(s.durable))
    ensures step.Replace? ==> s.visible != Some(Whole(s.procs[p].seen))
  {
    ReachableKeepsInv(s);
    if p in s.procs { assert WellFormed(s.procs[p]); }
  }

  /** A run in which every replacement acts on the record its check saw. */
  ghost predicate Atomic(s: State, events: seq<Event>)
    requires Run(s, events).Some?
    decreases |events|
  {
    events != [] ==>
      var n := |events| - 1;
      var t := Run(s, events[..n]);
      && t.Some? && Enabled(t.value, events[n].pid, events[n].step)
      && Atomic(s, events[..n])
      && (events[n].step.Replace? ==> t.value.visible == Some(Whole(t.value.procs[events[n].pid].seen)))
  }

  predicate NoPowerLoss(events: seq<Event>) {
    forall e :: e in events ==> !e.step.PowerLoss?
  }

  /** With check and replacement taken as one step, a conclusive receipt is absorbing. */
  lemma {:induction false} ConclusiveIsAbsorbing(s: State, events: seq<Event>)
    requires Reachable(s) && ShowsConclusive(s.visible)
    requires Run(s, events).Some? && Atomic(s, events) && NoPowerLoss(events)
    ensures ShowsConclusive(Run(s, events).value.visible)
  {
    if events != [] {
      var n := |events| - 1;
      var t, e := Run(s, events[..n]).value, events[n];
      ConclusiveIsAbsorbing(s, events[..n]);
      RunStaysReachable(s, events[..n]);
      assert e in events;
      ConclusiveStaysIff(t, e.pid, e.step);
    }
  }

  lemma RunOne(s: State, e: Event)
    requires Enabled(s, e.pid, e.step)
    ensures Run(s, [e]) == Some(Do(s, e.pid, e.step))
  {
    assert [e][..0] == [];
  }

  lemma {:induction false} RunConcat(s: State, a: seq<Event>, b: seq<Event>)
    requires Run(s, a).Some?
    ensures Run(s, a + b) == Run(Run(s, a).value, b)
    decreases |b|
  {
    if b == [] {
      assert a + b == a;
    } else {
      RunConcat(s, a, b[..|b| - 1]);
      assert (a + b)[..|a + b| - 1] == a + b[..|b| - 1];
    }
  }

  lemma RunStaysReachable(s: State, events: seq<Event>)
    requires Reachable(s) && Run(s, events).Some?
    ensures Reachable(Run(s, events).value)
  {
    var init, before :| Init(init) && Run(init, before) == Some(s);
    RunConcat(init, before, events);
  }

  lemma Go(s: State, p: Pid, step: Step) returns (t: State)
    requires Reachable(s) && Enabled(s, p, step)
    ensures t == Do(s, p, step) && Reachable(t)
  {
    t := Do(s, p, step);
    RunOne(s, Event(p, step));
    RunStaysReachable(s, [Event(p, step)]);
  }

  lemma ClaimAndLaunch() returns (s: State)
    ensures Reachable(s) && s.launches == 1 && s.procs == map[1 := Running]
    ensures s.visible == s.durable == Some(Whole(InProgress(None)))
  {
    s := State(None, None, map[], 0);
    assert Run(s, []) == Some(s);
    s := Go(s, 1, Claim);
    s := Go(s, 1, WriteClaim);
    s := Go(s, 1, SyncClaim);
    s := Go(s, 1, ProbePasses);
    assert s.procs == map[1 := Running];
  }

  lemma RecordCheckpoint(s: State, c: Checkpoint) returns (t: State)
    requires Reachable(s) && s.procs == map[1 := Running] && s.visible == Some(Whole(InProgress(None)))
    ensures Reachable(t) && t.procs == map[1 := Running] && t.visible == t.durable == Some(Whole(InProgress(Some(c))))
  {
    t := Go(s, 1, Check(c));
    t := Go(t, 1, Replace);
    t := Go(t, 1, SyncReplaced);
    assert t.procs == map[1 := Running];
  }

  lemma StaleCheckPending(target: Target) returns (s: State)
    ensures Reachable(s) && 1 in s.procs && s.procs[1].Replacing? && 2 in s.procs && s.procs[2].Recovering?
  {
    s := ClaimAndLaunch();
    s := RecordCheckpoint(s, WorkspaceCreated(target));
    s := Go(s, 1, Check(Launched(target)));
    s := Go(s, 2, StartRecovery);
  }

  /**
   * Without that assumption it is not: the launcher checks its next checkpoint, a
   * recoverer records success, and the launcher's replacement makes it pending.
   */
  lemma ConclusiveCanRegress() returns (s: State, t: State)
    ensures Reachable(s) && ShowsConclusive(s.visible) && ShowsConclusive(s.durable)
    ensures Enabled(s, 1, Replace) && t == Do(s, 1, Replace) && !ShowsConclusive(t.visible)
  {
    s := StaleCheckPending(Target("w", "p"));
    s := Go(s, 2, Finish(Succeeded));
    s := Go(s, 2, SyncFinished);
    t := Do(s, 1, Replace);
  }

  // ----- checkpoints

  /** The checkpoint a file shows, if any. */
  function Shown(f: File): Option<Checkpoint> {
    if f.Some? && f.value.Whole? && f.value.receipt.InProgress? then f.value.receipt.checkpoint else None
  }

  /** Every replacement that acts on what it checked is an accepted update of the recorded checkpoint. */
  lemma FreshReplacementKeepsIdentity(s: State, p: Pid)
    requires Reachable(s) && Enabled(s, p, Replace) && s.visible == Some(Whole(s.procs[p].seen))
    ensures var t := Do(s, p, Replace);
            && Shown(t.visible) == Some(s.procs[p].next) == Updated(Shown(s.visible), s.procs[p].next)
            && (Shown(s.visible).Some? ==> KeepsIdentity(Shown(s.visible).value, Shown(t.visible).value))
  {
    ReachableKeepsInv(s);
    assert WellFormed(s.procs[p]);
    if Shown(s.visible).Some? {
      ReplacesIffKeepsIdentity(Shown(s.visible).value, s.procs[p].next);
    }
  }

  /**
   * Over a whole run of launchers, recoverers and deaths, the recorded target, rank,
   * terminal and bound session survive until the receipt is conclusive.
   */
  lemma {:induction false} RecordedIdentitySurvives(s: State, events: seq<Event>)
    requires Reachable(s) && Shown(s.visible).Some?
    requires Run(s, events).Some? && Atomic(s, events) && NoPowerLoss(events)
    ensures var t := Run(s, events).value;
            || ShowsConclusive(t.visible)
            || (Shown(t.visible).Some? && KeepsIdentity(Shown(s.visible).value, Shown(t.visible).value))
  {
    var first := Shown(s.visible).value;
    ReplacesIsPreorder(first, first, first);
    ReplacesIffKeepsIdentity(first, first);
    if events != [] {
      var n := |events| - 1;
      var t, e := Run(s, events[..n]).value, events[n];
      RecordedIdentitySurvives(s, events[..n]);
      RunStaysReachable(s, events[..n]);
      ReachableKeepsInv(t);
      assert e in events;
      if ShowsConclusive(t.visible) {
        ConclusiveStaysIff(t, e.pid, e.step);
      } else {
        LaunchedReceiptStays(t, e.pid, e.step);
        if e.step.Replace? {
          FreshReplacementKeepsIdentity(t, e.pid);
          var before, after := Shown(t.visible).value, t.procs[e.pid].next;
          ReplacesIffKeepsIdentity(first, before);
          ReplacesIffKeepsIdentity(before, after);
          ReplacesIsPreorder(first, before, after);
          ReplacesIffKeepsIdentity(first, after);
        }
      }
    }
  }

  // ----- across power losses

  /** The file is conclusive, or shows a checkpoint that keeps this identity. */
  predicate Extends(first: Checkpoint, f: File) {
    ShowsConclusive(f) || (Shown(f).Some? && KeepsIdentity(first, Shown(f).value))
  }

  /** What is durable is never ahead of what readers see. */
  predicate InOrder(s: State) {
    && (ShowsConclusive(s.durable) ==> ShowsConclusive(s.visible))
    && (Shown(s.durable).Some? ==> Extends(Shown(s.durable).value, s.visible))
  }

  lemma KeepsIdentityIsPreorder(a: Checkpoint, b: Checkpoint, c: Checkpoint)
    ensures KeepsIdentity(a, a)
    ensures KeepsIdentity(a, b) && KeepsIdentity(b, c) ==> KeepsIdentity(a, c)
  {
    ReplacesIffKeepsIdentity(a, a);
    ReplacesIffKeepsIdentity(a, b);
    ReplacesIffKeepsIdentity(b, c);
    ReplacesIffKeepsIdentity(a, c);
    ReplacesIsPreorder(a, b, c);
  }

  /** A step with up-to-date replacements lets no reader see less than before, unless power is lost. */
  lemma FreshStepExtends(s: State, p: Pid, step: Step, first: Checkpoint)
    requires Reachable(s) && Enabled(s, p, step) && s.launches == 1 && !step.PowerLoss?
    requires step.Replace? ==> s.visible == Some(Whole(s.procs[p].seen))
    ensures ShowsConclusive(s.visible) ==> ShowsConclusive(Do(s, p, step).visible)
    ensures Extends(first, s.visible) ==> Extends(first, Do(s, p, step).visible)
  {
    ReachableKeepsInv(s);
    LaunchedReceiptStays(s, p, step);
    if step.Replace? {
      FreshReplacementKeepsIdentity(s, p);
      if Shown(s.visible).Some? {
        KeepsIdentityIsPreorder(first, Shown(s.visible).value, s.procs[p].next);
      }
    }
  }

  lemma FreshStepKeepsOrder(s: State, p: Pid, step: Step)
    requires Reachable(s) && InOrder(s) && Enabled(s, p, step)
    requires step.Replace? ==> s.visible == Some(Whole(s.procs[p].seen))
    ensures InOrder(Do(s, p, step))
  {
    ReachableKeepsInv(s);
    var t := Do(s, p, step);
    if t.durable == t.visible {
      if Shown(t.durable).Some? {
        KeepsIdentityIsPreorder(Shown(t.durable).value, Shown(t.durable).value, Shown(t.durable).value);
      }
    } else if s.launches == 1 && !step.PowerLoss? {
      assert t.durable == s.durable;
      var c := if Shown(s.durable).Some? then Shown(s.durable).value else WorkspaceCreated(Target("", ""));
      FreshStepExtends(s, p, step, c);
    }
  }

  lemma {:induction false} OrderHolds(init: State, events: seq<Event>)
    requires Init(init) && Run(init, events).Some? && Atomic(init, events)
    ensures InOrder(Run(init, events).value) && Reachable(Run(init, events).value)
  {
    if events != [] {
      var n := |events| - 1;
      OrderHolds(init, events[..n]);
      FreshStepKeepsOrder(Run(init, events[..n]).value, events[n].pid, events[n].step);
    }
  }

  /** One more step, power loss included: durable and visible receipt both keep the durable identity. */
  lemma DurableStep(s: State, p: Pid, step: Step, first: Checkpoint)
    requires Reachable(s) && InOrder(s) && Enabled(s, p, step) && s.launches == 1
    requires step.Replace? ==> s.visible == Some(Whole(s.procs[p].seen))
    requires Extends(first, s.visible) && Extends(first, s.durable)
    ensures Extends(first, Do(s, p, step).visible) && Extends(first, Do(s, p, step).durable)
    ensures Do(s, p, step).launches == 1
  {
    LaunchedReceiptStays(s, p, step);
    if !step.PowerLoss? { FreshStepExtends(s, p, step, first); }
  }

  /**
   * An identity on stable storage survives everything: launchers, recoverers, deaths and
   * any number of power losses leave a receipt, visible and durable, that is conclusive
   * or keeps its target, terminal and bound session and at least its rank.
   */
  lemma {:induction false} DurableIdentitySurvives(init: State, before: seq<Event>, events: seq<Event>)
    requires Init(init) && Run(init, before + events).Some? && Atomic(init, before + events)
    requires Run(init, before).Some? && Shown(Run(init, before).value.durable).Some?
    ensures var first, t := Shown(Run(init, before).value.durable).value, Run(init, before + events).value;
            t.launches == 1 && Extends(first, t.visible) && Extends(first, t.durable)
    decreases |events|
  {
    var first := Shown(Run(init, before).value.durable).value;
    if events == [] {
      assert before + [] == before;
      OrderHolds(init, before);
      ReachableKeepsInv(Run(init, before).value);
      KeepsIdentityIsPreorder(first, first, first);
    } else {
      var n := |events| - 1;
      var all := before + events;
      assert all[..|all| - 1] == before + events[..n] && all[|all| - 1] == events[n];
      DurableIdentitySurvives(init, before, events[..n]);
      OrderHolds(init, before + events[..n]);
      DurableStep(Run(init, before + events[..n]).value, events[n].pid, events[n].step, first);
    }
  }

  /** A conclusive receipt on stable storage stays conclusive over any run, power losses included. */
  lemma {:induction false} DurableConclusionStays(init: State, before: seq<Event>, events: seq<Event>)
    requires Init(init) && Run(init, before + events).Some? && Atomic(init, before + events)
    requires Run(init, before).Some? && ShowsConclusive(Run(init, before).value.durable)
    ensures ShowsConclusive(Run(init, before + events).value.visible) && ShowsConclusive(Run(init, before + events).value.durable)
    decreases |events|
  {
    if events == [] {
      assert before + [] == before;
      OrderHolds(init, before);
    } else {
      var n := |events| - 1;
      var all := before + events;
      assert all[..|all| - 1] == before + events[..n] && all[|all| - 1] == events[n];
      DurableConclusionStays(init, before, events[..n]);
      OrderHolds(init, before + events[..n]);
      var t := Run(init, before + events[..n]).value;
      ReachableKeepsInv(t);
      if !events[n].step.PowerLoss? { FreshStepExtends(t, events[n].pid, events[n].step, WorkspaceCreated(Target("", ""))); }
    }
  }
}
