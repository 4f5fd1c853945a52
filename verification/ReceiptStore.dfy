/**
 * The functions of `agent_run.rs` as they run on one receipt file, while other
 * processes may take any step of the protocol during the agent's own work. The
 * object keeps the list of protocol steps taken, so each call is a run of `AgentRun`.
 */
module ReceiptStore {
  import opened Wrappers
  import opened Checkpoint
  import opened AgentRun

  /** Which file operations of one call succeed. */
  datatype Io = Io(write: bool, sync: bool, removal: bool)

  datatype ClaimResult = Execute | Prior(receipt: Receipt) | Pending | ClaimError

  datatype Lookup = Absent | PendingAt(checkpoint: Option<Checkpoint>) | Concluded(receipt: Receipt) | LookupError

  datatype Reply = Conclusively(receipt: Receipt) | Retryable | Indeterminate

  datatype Recovery = Recovered | Retained

  /** What happens while the agent is at work: its own reports, and steps of other processes. */
  datatype Turn = Report(next: Checkpoint, io: Io) | Meanwhile(event: Event)

  /** The record a checkpoint update asks for; `None` when the update is an error. */
  function Reported(f: File, next: Checkpoint): Option<File> {
    match f
    case None => None
    case Some(Torn) => None
    case Some(Whole(InProgress(Some(current)))) =>
      if !current.CanFollow(next) then None
      else if current.Rank() > next.Rank() then Some(f)
      else Some(Some(Whole(InProgress(Some(next)))))
    case Some(Whole(InProgress(None))) => Some(Some(Whole(InProgress(Some(next)))))
    case Some(Whole(_)) => Some(f)
  }

  function Looked(f: File): Lookup {
    match f
    case None => Absent
    case Some(Torn) => LookupError
    case Some(Whole(InProgress(checkpoint))) => PendingAt(checkpoint)
    case Some(Whole(receipt)) => Concluded(receipt)
  }

  /** What a claim of an already present receipt answers. */
  function Refusal(f: File): ClaimResult {
    match Looked(f)
    case Absent => Execute
    case LookupError => ClaimError
    case PendingAt(_) => Pending
    case Concluded(receipt) => Prior(receipt)
  }

  function ReplyTo(claim: ClaimResult): Reply
    requires !claim.Execute?
  {
    if claim.Prior? then Conclusively(claim.receipt) else Indeterminate
  }

  /** An update that replaces the file, rather than being refused or skipped. */
  predicate Writes(f: File, next: Checkpoint) {
    && f.Some? && f.value.Whole? && f.value.receipt.InProgress?
    && (f.value.receipt.checkpoint.Some? ==> Replaces(f.value.receipt.checkpoint.value, next))
  }

  /**
   * A report is recorded: there is a whole receipt; it is conclusive already, or its
   * checkpoint can be followed; and where the file is to be replaced, write and sync succeed.
   */
  predicate Recorded(f: File, next: Checkpoint, io: Io) {
    && f.Some? && f.value.Whole?
    && (f.value.receipt.InProgress? && f.value.receipt.checkpoint.Some? ==> f.value.receipt.checkpoint.value.CanFollow(next))
    && (Writes(f, next) ==> io.write && io.sync)
  }

  /** A step of another process than `p` that can be taken now. */
  predicate Foreign(s: State, p: Pid, event: Event) {
    event.pid != p && !event.step.PowerLoss? && Enabled(s, event.pid, event.step)
  }

  /** The files after one turn of the agent's work. */
  function AfterTurn(s: State, p: Pid, turn: Turn): State {
    match turn
    case Report(next, io) =>
      if !Writes(s.visible, next) || !io.write then s
      else
        var written := s.(visible := Some(Whole(InProgress(Some(next)))));
        if io.sync then written.(durable := written.visible) else written
    case Meanwhile(event) => if Foreign(s, p, event) then Do(s, event.pid, event.step) else s
  }

  function AfterTurns(s: State, p: Pid, turns: seq<Turn>, n: nat): State
    requires n <= |turns|
  {
    if n == 0 then s else AfterTurn(AfterTurns(s, p, turns, n - 1), p, turns[n - 1])
  }

  /** Every one of the first `n` reports was recorded in the file it met. */
  predicate AllRecorded(s: State, p: Pid, turns: seq<Turn>, n: nat)
    requires n <= |turns|
  {
    forall i :: 0 <= i < n && turns[i].Report? ==> Recorded(AfterTurns(s, p, turns, i).visible, turns[i].next, turns[i].io)
  }

  /** The files right after the launch of process `p`. */
  function AtLaunch(s: State, p: Pid): State {
    State(Some(Whole(InProgress(None))), Some(Whole(InProgress(None))), s.procs[p := Running], s.launches + 1)
  }

  /** Turn `i` is a report whose write succeeds and which may replace the report before it. */
  predicate Orderly(turns: seq<Turn>, i: nat)
    requires i < |turns|
  {
    && turns[i].Report? && turns[i].io.write && turns[i].io.sync
    && (i > 0 ==> turns[i - 1].Report? && Replaces(turns[i - 1].next, turns[i].next))
  }

  lemma AllRecordedNext(s: State, p: Pid, turns: seq<Turn>, n: nat)
    requires n < |turns|
    ensures AllRecorded(s, p, turns, n + 1) <==>
            && AllRecorded(s, p, turns, n)
            && (turns[n].Report? ==> Recorded(AfterTurns(s, p, turns, n).visible, turns[n].next, turns[n].io))
    ensures AllRecorded(s, p, turns, |turns|) ==> AllRecorded(s, p, turns, n + 1)
  {
  }

  /** Undisturbed reports whose writes succeed are all recorded when each may replace the one before it. */
  lemma {:induction false} ReportsInOrder(s: State, p: Pid, turns: seq<Turn>, n: nat)
    requires n <= |turns| && s.visible == Some(Whole(InProgress(None)))
    requires forall i :: 0 <= i < n ==> Orderly(turns, i)
    ensures AllRecorded(s, p, turns, n)
    ensures n > 0 ==> turns[n - 1].Report?
    ensures AfterTurns(s, p, turns, n).visible == Some(Whole(InProgress(if n == 0 then None else Some(turns[n - 1].next))))
  {
    if n > 0 {
      ReportsInOrder(s, p, turns, n - 1);
      assert Orderly(turns, n - 1);
      AllRecordedNext(s, p, turns, n - 1);
    }
  }

  class ReceiptFile {
    var visible: File
    var durable: File
    var procs: map<Pid, Pc>
    ghost var launches: nat
    ghost var events: seq<Event>

    ghost function Now(): State
      reads this
    {
      State(visible, durable, procs, launches)
    }

    ghost predicate Valid()
      reads this
    {
      Run(State(None, None, map[], 0), events) == Some(Now())
    }

    constructor ()
      ensures Valid() && Now() == State(None, None, map[], 0) && fresh(this)
    {
      visible, durable, procs, launches, events := None, None, map[], 0, [];
    }

    /** Every theorem about reachable states applies before and after each call. */
    lemma Invariant()
      requires Valid()
      ensures Reachable(Now()) && Inv(Now())
    {
      assert Init(State(None, None, map[], 0));
      ReachableKeepsInv(Now());
    }

    /** Records that what was just done was `step` of process `p`. */
    ghost method Took(before: State, p: Pid, step: Step)
      requires Run(State(None, None, map[], 0), events) == Some(before) && Enabled(before, p, step)
      requires visible == Do(before, p, step).visible && durable == Do(before, p, step).durable
      requires procs == Do(before, p, step).procs
      modifies this`launches, this`events
      ensures Valid() && Now() == Do(before, p, step)
    {
      RunOne(before, Event(p, step));
      RunConcat(State(None, None, map[], 0), events, [Event(p, step)]);
      launches, events := Do(before, p, step).launches, events + [Event(p, step)];
    }

    /** The process gives up or is killed; files stay as they are. */
    method Leave(p: Pid)
      requires Valid() && p in procs
      modifies this
      ensures Valid() && Now() == old(Now()).(procs := old(procs) - {p})
    {
      ghost var before := Now();
      procs := procs - {p};
      Took(before, p, Die);
    }

    /** A step of another process, or none if it cannot be taken now. */
    method Interfere(p: Pid, event: Event)
      requires Valid()
      modifies this
      ensures Valid() && Now() == AfterTurn(old(Now()), p, Meanwhile(event))
      ensures p in old(procs) ==> p in procs && procs[p] == old(procs)[p]
    {
      var now := State(visible, durable, procs, 0);
      if event.pid == p || event.step.PowerLoss? || !Enabled(now, event.pid, event.step) { return; }
      ghost var before := Now();
      now := Do(now, event.pid, event.step);
      visible, durable, procs := now.visible, now.durable, now.procs;
      Took(before, event.pid, event.step);
    }

    /** `lookup_receipt`. */
    method LookupReceipt() returns (found: Lookup)
      ensures found == Looked(visible)
    {
      match visible
      case None => return Absent;
      case Some(Torn) => return LookupError;
      case Some(Whole(InProgress(checkpoint))) => return PendingAt(checkpoint);
      case Some(Whole(receipt)) => return Concluded(receipt);
    }

    /** Creates the claim file, writes it and syncs it; a failure removes it again. */
    method CreateClaim(p: Pid, io: Io) returns (ok: bool)
      requires Valid() && p !in procs && visible.None?
      modifies this
      ensures Valid() && launches == old(launches)
      ensures ok == (io.write && io.sync)
      ensures ok ==> visible == durable == Some(Whole(InProgress(None))) && procs == old(procs)[p := Claimed]
      ensures !ok ==> procs == old(procs) && durable == old(durable) && (io.removal ==> visible == None)
    {
      ghost var before := Now();
      visible, procs := Some(Torn), procs[p := Created];
      Took(before, p, Claim);
      if io.write {
        before := Now();
        visible, procs := Some(Whole(InProgress(None))), procs[p := Written];
        Took(before, p, WriteClaim);
        if io.sync {
          before := Now();
          durable, procs := visible, procs[p := Claimed];
          Took(before, p, SyncClaim);
          return true;
        }
      }
      UndoClaim(p, io);
      return false;
    }

    /** The claim file is removed again after a failed write or sync, if that succeeds. */
    method UndoClaim(p: Pid, io: Io)
      requires Valid() && p in procs && (procs[p].Created? || procs[p].Written?)
      modifies this
      ensures Valid() && launches == old(launches) && procs == old(procs) - {p} && durable == old(durable)
      ensures visible == if io.removal then None else old(visible)
    {
      if io.removal {
        ghost var before := Now();
        visible, procs := None, procs - {p};
        Took(before, p, FailClaim);
      } else {
        Leave(p);
      }
    }

    /** `claim_agent_run`: create the file exclusively, or read what is there. */
    method ClaimAgentRun(p: Pid, io: Io) returns (claim: ClaimResult)
      requires Valid() && p !in procs
      modifies this
      ensures Valid() && launches == old(launches) && (p in procs <==> claim.Execute?)
      ensures old(visible).Some? ==> Now() == old(Now()) && claim == Refusal(visible) && !claim.Execute?
      ensures old(visible).Some? ==>
                && (claim.Prior? <==> ShowsConclusive(visible)) && (claim.Prior? ==> claim.receipt == visible.value.receipt)
                && (claim.ClaimError? <==> visible == Some(Torn))
      ensures old(visible).None? ==> claim == if io.write && io.sync then Execute else ClaimError
      ensures claim.Execute? ==>
                && visible == durable == Some(Whole(InProgress(None)))
                && procs == old(procs)[p := Claimed]
      ensures claim.ClaimError? && old(visible).None? && io.removal ==>
                visible == None && durable == old(durable) && procs == old(procs)
    {
      if visible.Some? {
        var found := LookupReceipt();
        match found
        case PendingAt(_) => return Pending;
        case Concluded(receipt) => return Prior(receipt);
        case _ => return ClaimError;
      }
      var created := CreateClaim(p, io);
      return if created then Execute else ClaimError;
    }

    /** The directory sync that ends a replacement, or its failure. */
    method FinishReplacing(p: Pid, pc: Pc, io: Io) returns (ok: bool)
      requires Valid() && p in procs && if io.write then procs[p] == SyncReplace(pc) else procs[p].Replacing? && procs[p].back == pc
      modifies this
      ensures Valid() && procs == old(procs)[p := pc] && launches == old(launches) && visible == old(visible)
      ensures ok == (io.write && io.sync)
      ensures durable == if ok then visible else old(durable)
    {
      ghost var before := Now();
      procs := procs[p := pc];
      ok := io.write && io.sync;
      if ok {
        durable := visible;
        Took(before, p, SyncReplaced);
      } else {
        Took(before, p, GiveUp);
      }
    }

    /** The checked record is replaced by one that names the next checkpoint. */
    method ReplaceCheckpoint(p: Pid, next: Checkpoint, io: Io) returns (ok: bool)
      requires Valid() && p in procs && (procs[p].Running? || procs[p].Recovering?)
      requires visible.Some? && visible.value.Whole? && Checked(Now(), procs[p], next).Replacing?
      modifies this
      ensures Valid() && procs == old(procs) && launches == old(launches)
      ensures ok == (io.write && io.sync)
      ensures visible == if io.write then Some(Whole(InProgress(Some(next)))) else old(visible)
      ensures durable == if ok then visible else old(durable)
    {
      var pc, seen := procs[p], visible.value.receipt;
      ghost var before := Now();
      procs := procs[p := Replacing(next, seen, pc)];
      Took(before, p, Check(next));
      if io.write {
        before := Now();
        visible, procs := Some(Whole(InProgress(Some(next)))), procs[p := SyncReplace(pc)];
        Took(before, p, Replace);
      }
      ok := FinishReplacing(p, pc, io);
    }

    /**
     * `persist_agent_checkpoint`: read, check, and replace the file. It succeeds exactly
     * when the record takes the update and a write that is needed goes through.
     */
    method PersistAgentCheckpoint(p: Pid, next: Checkpoint, io: Io) returns (ok: bool)
      requires Valid() && p in procs && (procs[p].Running? || procs[p].Recovering?)
      modifies this
      ensures Valid() && procs == old(procs) && launches == old(launches)
      ensures ok <==> Recorded(old(visible), next, io)
      ensures visible == if Writes(old(visible), next) && io.write then Some(Whole(InProgress(Some(next)))) else old(visible)
      ensures durable == if Writes(old(visible), next) && io.write && io.sync then visible else old(durable)
      ensures Reported(old(visible), next).None? ==> Now() == old(Now())
      ensures ok ==> Reported(old(visible), next) == Some(visible)
    {
      match visible {
        case None => return false;
        case Some(Torn) => return false;
        case Some(Whole(InProgress(Some(current)))) =>
          if !current.CanFollow(next) { return false; }
          if current.Rank() > next.Rank() { return true; }
        case Some(Whole(InProgress(None))) =>
        case Some(Whole(_)) => return true;
      }
      ok := ReplaceCheckpoint(p, next, io);
    }

    /** `persist_agent_outcome`: replace the file with a conclusive record, whatever it holds. */
    method PersistAgentOutcome(p: Pid, outcome: Receipt, io: Io) returns (ok: bool)
      requires Valid() && p in procs && (procs[p].Running? || procs[p].Recovering?) && Conclusive(outcome)
      modifies this
      ensures Valid() && procs == old(procs) - {p} && launches == old(launches)
      ensures ok == (io.write && io.sync)
      ensures visible == if io.write then Some(Whole(outcome)) else old(visible)
      ensures durable == if ok then visible else old(durable)
    {
      if !io.write {
        Leave(p);
        return false;
      }
      ghost var before := Now();
      visible, procs := Some(Whole(outcome)), procs[p := SyncFinish];
      Took(before, p, Finish(outcome));
      if !io.sync {
        Leave(p);
        return false;
      }
      before := Now();
      durable, procs := visible, procs - {p};
      Took(before, p, SyncFinished);
      return true;
    }

    /** The removal of the file is synced, which ends the process's work. */
    method SyncRemoval(p: Pid)
      requires Valid() && p in procs && procs[p].SyncRelease?
      modifies this
      ensures Valid() && Now() == old(Now()).(durable := old(visible), procs := old(procs) - {p})
    {
      ghost var before := Now();
      durable, procs := visible, procs - {p};
      Took(before, p, SyncReleased);
    }

    /** The early `Unavailable` exit: remove the claim and sync the directory. */
    method ReleaseClaim(p: Pid, io: Io) returns (ok: bool)
      requires Valid() && p in procs && procs[p].Claimed?
      modifies this
      ensures Valid() && procs == old(procs) - {p} && launches == old(launches)
      ensures ok == (io.removal && io.sync)
      ensures visible == if io.removal then None else old(visible)
      ensures durable == if ok then None else old(durable)
    {
      ghost var before := Now();
      procs := procs[p := Releasing];
      Took(before, p, ProbeFails);
      before := Now();
      if io.removal {
        visible, procs := None, procs[p := SyncRelease];
        Took(before, p, Release);
        if io.sync {
          SyncRemoval(p);
          return true;
        }
      }
      Leave(p);
      return false;
    }

    /** One report of the agent, or one step of another process. */
    method TakeTurn(p: Pid, turn: Turn) returns (ok: bool)
      requires Valid() && p in procs && (procs[p].Running? || procs[p].Recovering?)
      modifies this
      ensures Valid() && p in procs && procs[p] == old(procs)[p] && Now() == AfterTurn(old(Now()), p, turn)
      ensures ok <==> (turn.Report? ==> Recorded(old(visible), turn.next, turn.io))
    {
      match turn
      case Report(next, io) => ok := PersistAgentCheckpoint(p, next, io);
      case Meanwhile(event) =>
        Interfere(p, event);
        ok := true;
    }

    /** The agent's work: it goes on exactly as long as each of its reports is recorded. */
    method Work(p: Pid, turns: seq<Turn>) returns (ok: bool)
      requires Valid() && p in procs && (procs[p].Running? || procs[p].Recovering?)
      modifies this
      ensures Valid() && p in procs && procs[p] == old(procs)[p]
      ensures ok <==> AllRecorded(old(Now()), p, turns, |turns|)
      ensures ok ==> Now() == AfterTurns(old(Now()), p, turns, |turns|)
    {
      ghost var start := Now();
      for i := 0 to |turns|
        invariant Valid() && p in procs && procs[p] == old(procs)[p]
        invariant Now() == AfterTurns(start, p, turns, i) && AllRecorded(start, p, turns, i)
      {
        ghost var met := Now();
        var recorded := TakeTurn(p, turns[i]);
        AllRecordedNext(start, p, turns, i);
        assert Now() == AfterTurn(met, p, turns[i]);
        if !recorded { return false; }
      }
      return true;
    }

    /**
     * `run_idempotent` around `run_agent_with_progress`. A launched run concludes with its
     * own outcome when every report was recorded and as failed otherwise, and answers that
     * conclusion exactly when the last write is durable.
     */
    method RunIdempotent(p: Pid, probe: bool, turns: seq<Turn>, outcome: Receipt, claimIo: Io, lastIo: Io)
      returns (reply: Reply)
      requires Valid() && p !in procs && Conclusive(outcome)
      modifies this
      ensures Valid() && p !in procs
      ensures old(visible).Some? ==>
                && Now() == old(Now())
                && reply == if ShowsConclusive(visible) then Conclusively(visible.value.receipt) else Indeterminate
      ensures old(visible).None? && !(claimIo.write && claimIo.sync) ==> reply.Indeterminate? && launches == old(launches)
      ensures old(visible).None? && claimIo.write && claimIo.sync && !probe ==>
                && launches == old(launches)
                && reply == if lastIo.removal && lastIo.sync then Retryable else Indeterminate
      ensures reply.Retryable? ==> Now() == old(Now()).(visible := None, durable := None)
      ensures old(visible).None? && claimIo.write && claimIo.sync && probe ==>
                && old(launches) == 0 && launches == 1
                && var concluded := if AllRecorded(AtLaunch(old(Now()), p), p, turns, |turns|) then outcome else Failed;
                   && reply == (if lastIo.write && lastIo.sync then Conclusively(concluded) else Indeterminate)
                   && (lastIo.write ==> visible == Some(Whole(concluded)))
                   && (reply.Conclusively? ==> durable == visible)
    {
      var claim := ClaimAgentRun(p, claimIo);
      if !claim.Execute? { return ReplyTo(claim); }
      if !probe {
        var released := ReleaseClaim(p, lastIo);
        assert released ==> procs == old(procs);
        return if released then Retryable else Indeterminate;
      }
      Launch(p);
      assert Now() == AtLaunch(old(Now()), p) by { assert old(procs)[p := Claimed][p := Running] == old(procs)[p := Running]; }
      var reported := Work(p, turns);
      var concluded := if reported then outcome else Failed;
      Invariant();
      var recorded := PersistAgentOutcome(p, concluded, lastIo);
      return if recorded then Conclusively(concluded) else Indeterminate;
    }

    /** The probe passes: a workspace may be created from here on. */
    method Launch(p: Pid)
      requires Valid() && p in procs && procs[p].Claimed?
      modifies this
      ensures Valid() && visible == old(visible) && durable == old(durable) && procs == old(procs)[p := Running]
      ensures old(launches) == 0 && launches == 1
    {
      Invariant();
      ghost var before := Now();
      procs := procs[p := Running];
      Took(before, p, ProbePasses);
    }

    /**
     * `recover_pending`: only for the exact checkpoint that was looked up. It succeeds
     * exactly when every observation was recorded, a capture decided the outcome, and that
     * outcome is durable.
     */
    method RecoverPending(p: Pid, expected: Checkpoint, turns: seq<Turn>, outcome: Option<Receipt>, io: Io)
      returns (recovery: Recovery)
      requires Valid() && p !in procs && (outcome.Some? ==> Conclusive(outcome.value))
      modifies this
      ensures Valid() && p !in procs
      ensures Looked(old(visible)) != PendingAt(Some(expected)) ==> Now() == old(Now())
      ensures recovery.Recovered? <==>
                && Looked(old(visible)) == PendingAt(Some(expected)) && outcome.Some? && io.write && io.sync
                && AllRecorded(old(Now()).(procs := old(procs)[p := Recovering]), p, turns, |turns|)
      ensures recovery.Recovered? ==> visible == durable == Some(Whole(outcome.value)) && old(launches) == 1
    {
      var found := LookupReceipt();
      if found != PendingAt(Some(expected)) { return Retained; }
      Invariant();
      ghost var before := Now();
      procs := procs[p := Recovering];
      Took(before, p, StartRecovery);
      Invariant();
      assert Active(procs[p]);
      var reported := Work(p, turns);
      if !reported || outcome.None? {
        Leave(p);
        return Retained;
      }
      var recorded := PersistAgentOutcome(p, outcome.value, io);
      return if recorded then Recovered else Retained;
    }
  }
}
