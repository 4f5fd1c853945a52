/**
 * The functions that carry an attempt from lock to ledger, written as they run:
 * one file operation after another. Every object keeps the list of protocol steps
 * it has taken, so each call is a run of `JobProtocol` and inherits its theorems.
 */
module JobStore {
  import opened Wrappers
  import opened JobProtocol

  /** Which file operations of one call succeed; a failed one makes the call return early. */
  datatype Io = Io(written: Written, ledgerSync: bool, fenceWrite: bool, fenceSync: bool, removal: bool, removalSync: bool)

  datatype FenceReconcile = FenceReady | ResumableCompression(fence: Fence) | FenceBlocked | FenceError

  datatype Start = Started(fence: Fence) | NotDue | StartBlocked | StartError

  datatype Unblocked = NothingHeld | AlreadyClear | Abandoned(id: Id) | UnblockError

  /** Why reconciliation may remove a fence, read off the ledger before and after. */
  predicate ClearedFor(f: Fence, before: Ledger, after: Ledger, synced: nat, receipts: map<Id, Receipt>, declares: bool) {
    || (f.retryable && after == before)
    || (ScanLedger(before, f.id) == Found && after == before && synced == |after|)
    || (&& ScanLedger(before, f.id) == NotFound
        && f.id in receipts && receipts[f.id].Conclusive?
        && after == before + [Record(f.id), Newline] && synced == |after|)
    || (&& ScanLedger(before, f.id) == NotFound
        && f.id !in receipts && f.action == Some(Script) && declares
        && after == before)
  }

  /** Why reconciliation may leave a fence in place. */
  predicate HeldFor(f: Fence, ledger: Ledger, receipts: map<Id, Receipt>, declares: bool) {
    && !f.retryable && ScanLedger(ledger, f.id) == NotFound && f.action != Some(InProcessCompression)
    && (if f.id in receipts then !receipts[f.id].Conclusive? else f.action != Some(Script) || !declares)
  }

  /** A fence that reconciliation is to remove: it says so itself, or ledger, receipt or script header do. */
  predicate Settles(f: Fence, ledger: Ledger, receipts: map<Id, Receipt>, declares: bool) {
    || f.retryable
    || ScanLedger(ledger, f.id) == Found
    || (&& ScanLedger(ledger, f.id) == NotFound && f.action != Some(InProcessCompression)
        && if f.id in receipts then receipts[f.id].Conclusive? else f.action == Some(Script) && declares)
  }

  /** A compression that was cut off before its record was written. */
  predicate Resumes(f: Fence, ledger: Ledger) {
    !f.retryable && f.action == Some(InProcessCompression) && ScanLedger(ledger, f.id) == NotFound
  }

  /** The file operations that the removal of such a fence needs all succeed. */
  predicate CarriedOut(f: Fence, ledger: Ledger, receipts: map<Id, Receipt>, io: Io) {
    && io.removal && io.removalSync
    && (!f.retryable && ScanLedger(ledger, f.id) == Found ==> io.ledgerSync)
    && (!f.retryable && ScanLedger(ledger, f.id) == NotFound && f.id in receipts ==> io.written.Whole? && io.ledgerSync)
  }

  /** After reconciliation with these operations there is no fence. */
  predicate Cleared(fence: Option<Fence>, ledger: Ledger, receipts: map<Id, Receipt>, declares: bool, io: Io) {
    fence.None? || (Settles(fence.value, ledger, receipts, declares) && CarriedOut(fence.value, ledger, receipts, io))
  }

  /** The same with the second look of a live reconciliation, which reads the recovered receipts. */
  predicate ClearedLive(fence: Option<Fence>, ledger: Ledger, receipts: map<Id, Receipt>, declares: bool,
                        recovered: Option<map<Id, Receipt>>, first: Io, second: Io) {
    if WorthAnotherLook(fence, ledger, receipts, declares) && recovered.Some?
    then Cleared(fence, ledger, recovered.value, declares, second)
    else Cleared(fence, ledger, receipts, declares, first)
  }

  /**
   * What reconciliation leaves behind when a read or a file operation fails: the fence is
   * in place, or its file is gone for a stated reason and only the sync of that is missing;
   * the ledger has at most the record of a conclusive receipt more, whole or cut short.
   */
  predicate LeftByFailure(before: Fence, oldLedger: Ledger, fence: Option<Fence>, ledger: Ledger, synced: nat,
                          receipts: map<Id, Receipt>, declares: bool, io: Io) {
    && (fence == Some(before) || (fence.None? && ClearedFor(before, oldLedger, ledger, synced, receipts, declares)))
    && (|| ledger == oldLedger
        || (&& !before.retryable && ScanLedger(oldLedger, before.id) == NotFound
            && before.id in receipts && receipts[before.id].Conclusive?
            && ledger == oldLedger + RecordTokens(before.id, io.written)))
  }

  /** A blocked fence whose agent run is pending at a recorded checkpoint is worth a second look. */
  predicate WorthAnotherLook(fence: Option<Fence>, ledger: Ledger, receipts: map<Id, Receipt>, declares: bool) {
    && fence.Some? && HeldFor(fence.value, ledger, receipts, declares)
    && fence.value.id in receipts && receipts[fence.value.id] == Pending(true)
  }

  class AttemptFiles {
    var fence: Option<Fence>
    var durableFence: Option<Fence>
    var ledger: Ledger
    var synced: nat
    var receipts: map<Id, Receipt>
    ghost var holder: Holder
    ghost var past: Past
    ghost var steps: seq<Step>
    ghost const origin: State

    ghost function Now(): State
      reads this
    {
      State(Disk(fence, durableFence, ledger, synced), receipts, holder, past)
    }

    ghost predicate Valid()
      reads this
    {
      Init(origin) && Run(origin, steps) == Some(Now())
    }

    constructor ()
      ensures Valid() && Now() == EMPTY && fresh(this)
    {
      fence, durableFence, ledger, synced, receipts := None, None, [], 0, map[];
      holder, past, steps := Free, EMPTY.past, [];
      origin := EMPTY;
      new;
    }

    /** The invariant of the protocol holds whenever a call begins or ends. */
    lemma Invariant()
      requires Valid()
      ensures Inv(Now()) && Reachable(Now())
    {
      RunKeepsInv(origin, steps);
    }

    /** Records that the file operation just performed was `step` of the protocol. */
    ghost method Took(before: State, step: Step)
      requires Init(origin) && Run(origin, steps) == Some(before) && Enabled(before, step)
      requires Disk(fence, durableFence, ledger, synced) == Do(before, step).disk && receipts == Do(before, step).receipts
      modifies this`holder, this`past, this`steps
      ensures Valid() && Now() == Do(before, step)
    {
      RunOne(before, step);
      RunConcat(origin, steps, [step]);
      holder, past, steps := Do(before, step).holder, Do(before, step).past, steps + [step];
    }

    /** `ledger_has_attempt_at` before its sync: the first matching line, or the first bad one. */
    method Scan(id: Id) returns (result: Scan)
      ensures result == ScanLedger(ledger, id)
    {
      var i := 0;
      while i < |ledger|
        invariant 0 <= i <= |ledger|
        invariant ScanLedger(ledger[i..], id) == ScanLedger(ledger, id)
      {
        match ledger[i]
        case Newline => i := i + 1;
        case Fragment => return Malformed;
        case Record(found) =>
          if i + 1 < |ledger| && ledger[i + 1] != Newline { return Malformed; }
          if found == id { return Found; }
          if i + 1 == |ledger| { return NotFound; }
          assert ledger[i..][2..] == ledger[i + 2..];
          i := i + 2;
      }
      return NotFound;
    }

    /** `append_ledger_record`: write one line, then sync file and directory. */
    method AppendLedgerRecord(id: Id, io: Io) returns (ok: bool)
      requires Valid() && holder.Append? && id == holder.fence.id
      modifies this
      ensures Valid() && fence == old(fence) && durableFence == old(durableFence) && receipts == old(receipts)
      ensures ledger == old(ledger) + RecordTokens(id, io.written)
      ensures ok == (io.written.Whole? && io.ledgerSync)
      ensures holder == if ok then Clear(old(holder).fence, old(holder).after) else Free
      ensures ok ==> synced == |ledger|
      ensures past == old(past).(glued := past.glued)
    {
      ghost var before := Now();
      ledger := ledger + RecordTokens(id, io.written);
      Took(before, WriteRecord(io.written));
      if !io.written.Whole? { return false; }
      before := Now();
      if !io.ledgerSync {
        Took(before, Stop);
        return false;
      }
      synced := |ledger|;
      Took(before, SyncRecord);
      return true;
    }

    /** Syncs the ledger whose matching record was just read. */
    method SyncFoundLedger(io: Io) returns (ok: bool)
      requires Valid() && holder.SyncFound?
      modifies this
      ensures Valid() && fence == old(fence) && durableFence == old(durableFence) && ledger == old(ledger)
      ensures receipts == old(receipts) && past == old(past)
      ensures ok == io.ledgerSync
      ensures if ok then synced == |ledger| && holder == Clear(old(holder).fence, Reconciled(old(holder).who)) else holder == Free
    {
      ghost var before := Now();
      if !io.ledgerSync {
        Took(before, Stop);
        return false;
      }
      synced := |ledger|;
      Took(before, SyncFoundRecord);
      return true;
    }

    /** Removes the fence file and syncs its directory. */
    method ClearFence(io: Io) returns (ok: bool)
      requires Valid() && holder.Clear?
      modifies this
      ensures Valid() && ledger == old(ledger) && synced == old(synced) && receipts == old(receipts) && past == old(past)
      ensures ok == (io.removal && io.removalSync)
      ensures if io.removal then fence == None else fence == old(fence)
      ensures durableFence == if ok then None else old(durableFence)
      ensures holder == if !ok || old(holder).after.Finished? then Free else Ready(old(holder).after.who)
    {
      ghost var before := Now();
      if !io.removal {
        Took(before, Stop);
        return false;
      }
      fence := None;
      Took(before, RemoveFence);
      before := Now();
      if !io.removalSync {
        Took(before, Stop);
        return false;
      }
      durableFence := fence;
      Took(before, SyncRemoval);
      return true;
    }

    /** The reads of `reconcile_fence_at`: fence, then ledger, then receipt, then script header. */
    method Decide(declares: bool) returns (verdict: Verdict)
      requires Valid() && holder.Inspect?
      modifies this`holder, this`past, this`steps
      ensures Valid() && verdict == Judge(Now().disk, receipts, declares)
      ensures holder == Decision(Now().disk, verdict, old(holder).who, old(holder).again)
      ensures past.drawn == old(past).drawn && past.published == old(past).published
    {
      ghost var before := Now();
      if fence.None? {
        verdict := NoFence;
      } else if fence.value.retryable {
        verdict := MarkedRetryable;
      } else {
        var f := fence.value;
        var scan := Scan(f.id);
        match scan
        case Malformed => verdict := BadLedger;
        case Found => verdict := InLedger;
        case NotFound =>
          if f.action == Some(InProcessCompression) {
            verdict := Compression;
          } else if f.id in receipts {
            verdict := if receipts[f.id].Conclusive? then ConclusiveReceipt else Ambiguous;
          } else {
            verdict := if f.action == Some(Script) && declares then SafeRepeat else Ambiguous;
          }
      }
      Took(before, InspectFence(declares));
    }

    /**
     * `reconcile_fence_at`. A fence goes only for a stated reason: it was marked
     * retryable, its record is in the ledger, a conclusive receipt was turned into
     * its record, or the active script declares that a repeat is safe.
     */
    method ReconcileFence(ghost who: Who, ghost again: bool, declares: bool, io: Io) returns (r: FenceReconcile)
      requires Valid() && holder == Inspect(who, again)
      modifies this
      ensures Valid() && receipts == old(receipts) && past.drawn == old(past).drawn && past.published == old(past).published
      ensures r.FenceReady? <==> Cleared(old(fence), old(ledger), receipts, declares, io)
      ensures r.ResumableCompression? <==> old(fence).Some? && Resumes(old(fence).value, old(ledger))
      ensures old(fence).None? ==> ledger == old(ledger) && durableFence == old(durableFence)
      ensures r.FenceReady? ==>
                && fence.None? && holder == Ready(who)
                && (old(fence).Some? ==>
                      durableFence.None? && ClearedFor(old(fence).value, old(ledger), ledger, synced, receipts, declares))
      ensures r.ResumableCompression? ==>
                && old(fence) == Some(r.fence) && r.fence.action == Some(InProcessCompression) && !r.fence.retryable
                && ScanLedger(ledger, r.fence.id) == NotFound
                && holder == if who.Scheduled? then Running(r.fence) else Free
      ensures r.FenceBlocked? <==> old(fence).Some? && HeldFor(old(fence).value, old(ledger), receipts, declares)
      ensures r.FenceBlocked? ==>
                && holder == if who.Unblock? then Append(old(fence).value, Finished) else if again then Free else Blocked(who)
      ensures r.ResumableCompression? || r.FenceBlocked? ==>
                fence == old(fence) && durableFence == old(durableFence) && ledger == old(ledger) && synced == old(synced)
      ensures r.FenceError? ==>
                && holder.Free? && durableFence == old(durableFence) && old(fence).Some?
                && LeftByFailure(old(fence).value, old(ledger), fence, ledger, synced, receipts, declares, io)
    {
      var verdict := Decide(declares);
      var ok := true;
      match verdict {
        case NoFence => return FenceReady;
        case BadLedger => return FenceError;
        case Compression => return ResumableCompression(fence.value);
        case Ambiguous => return FenceBlocked;
        case InLedger => ok := SyncFoundLedger(io);
        case ConclusiveReceipt => ok := AppendLedgerRecord(fence.value.id, io);
        case _ =>
      }
      if ok {
        ok := ClearFence(io);
      }
      return if ok then FenceReady else FenceError;
    }

    /**
     * `reconcile_fence_live`: a second look, exactly when the first one is blocked by a
     * checkpointed pending run and that run could be recovered.
     */
    method ReconcileFenceLive(ghost who: Who, declares: bool, recovered: Option<map<Id, Receipt>>, first: Io, second: Io)
      returns (r: FenceReconcile)
      requires Valid() && holder == Inspect(who, false) && !who.Unblock?
      modifies this
      ensures Valid() && past.drawn == old(past).drawn && past.published == old(past).published
      ensures receipts == if WorthAnotherLook(old(fence), old(ledger), old(receipts), declares) && recovered.Some? then recovered.value
                          else old(receipts)
      ensures r.FenceReady? <==> ClearedLive(old(fence), old(ledger), old(receipts), declares, recovered, first, second)
      ensures r.ResumableCompression? <==> old(fence).Some? && Resumes(old(fence).value, old(ledger))
      ensures r.FenceBlocked? <==> old(fence).Some? && HeldFor(old(fence).value, old(ledger), receipts, declares)
      ensures old(fence).None? ==> ledger == old(ledger) && durableFence == old(durableFence)
      ensures r.FenceReady? ==>
                && fence.None? && holder == Ready(who)
                && (old(fence).Some? ==>
                      durableFence.None? && ClearedFor(old(fence).value, old(ledger), ledger, synced, receipts, declares))
      ensures r.ResumableCompression? ==>
                && fence == old(fence) == Some(r.fence) && r.fence.action == Some(InProcessCompression)
                && holder == if who.Scheduled? then Running(r.fence) else Free
      ensures r.FenceBlocked? || r.FenceError? ==> holder.Free?
      ensures r.FenceBlocked? ==>
                && fence == old(fence) && durableFence == old(durableFence) && ledger == old(ledger)
      ensures r.FenceError? ==>
                && durableFence == old(durableFence) && old(fence).Some?
                && (|| LeftByFailure(old(fence).value, old(ledger), fence, ledger, synced, receipts, declares, first)
                    || LeftByFailure(old(fence).value, old(ledger), fence, ledger, synced, receipts, declares, second))
    {
      r := ReconcileFence(who, false, declares, first);
      if !r.FenceBlocked? { return; }
      var again := RecoverPending(who, recovered);
      if again {
        r := ReconcileFence(who, true, declares, second);
      }
    }

    /** After a blocked first look: a checkpointed pending run is recovered if it can be. */
    method RecoverPending(ghost who: Who, recovered: Option<map<Id, Receipt>>) returns (again: bool)
      requires Valid() && holder == Blocked(who) && fence.Some?
      modifies this
      ensures Valid() && fence == old(fence) && durableFence == old(durableFence) && ledger == old(ledger) && synced == old(synced)
      ensures past == old(past)
      ensures again <==> fence.value.id in old(receipts) && old(receipts)[fence.value.id] == Pending(true) && recovered.Some?
      ensures receipts == if again then recovered.value else old(receipts)
      ensures holder == if again then Inspect(who, true) else Free
    {
      ghost var before := Now();
      var recoverable := fence.value.id in receipts && receipts[fence.value.id] == Pending(true);
      Took(before, LookAgain);
      if !recoverable { return false; }
      before := Now();
      if recovered.None? {
        Took(before, Stop);
        return false;
      }
      receipts := recovered.value;
      Took(before, ReceiptsChange(receipts));
      before := Now();
      Took(before, RecoverDone);
      return true;
    }

    /** `publish_attempt`: the fence is renamed into place and synced before anything runs. */
    method PublishAttempt(id: Id, action: Action, io: Io) returns (r: Start)
      requires Valid() && holder.Ready? && !holder.who.Unblock? && id !in past.drawn
      requires holder.who.Manual? ==> action.Script?
      modifies this
      ensures Valid() && ledger == old(ledger) && synced == old(synced) && receipts == old(receipts)
      ensures r.Started? == (io.fenceWrite && io.fenceSync) && (r.Started? || r.StartError?)
      ensures r.Started? ==>
                && r.fence == Fence(id, false, Some(action))
                && fence == durableFence == Some(r.fence) && holder == Running(r.fence)
                && past.published == old(past).published + {id}
      ensures r.StartError? ==> holder.Free? && past.published == old(past).published
    {
      ghost var before := Now();
      Took(before, Publish(id, action));
      before := Now();
      if !io.fenceWrite {
        Took(before, Stop);
        return StartError;
      }
      var f := Fence(id, false, Some(action));
      fence := Some(f);
      Took(before, RenameFence);
      before := Now();
      if !io.fenceSync {
        Took(before, Stop);
        return StartError;
      }
      durableFence := fence;
      Took(before, SyncFence);
      return Started(f);
    }

    /**
     * `begin_attempt_live` and `begin_scheduled_attempt_live`. Once the ledger tail parses
     * and no fence is left, a due or manual start publishes a new attempt and a scheduled
     * one that is not due does nothing; a scheduled start resumes the compression fence
     * that is in place.
     */
    method Begin(who: Who, id: Id, action: Action, due: bool, declares: bool,
                 recovered: Option<map<Id, Receipt>>, first: Io, second: Io) returns (r: Start)
      requires Valid() && holder.Free? && !who.Unblock? && id !in past.drawn
      requires who.Manual? ==> action.Script?
      modifies this
      ensures Valid()
      ensures !LastLineParses(old(ledger)) ==> r.StartError? && fence == old(fence) && ledger == old(ledger)
      ensures r.NotDue? <==>
                && LastLineParses(old(ledger)) && who.Scheduled? && !due
                && ClearedLive(old(fence), old(ledger), old(receipts), declares, recovered, first, second)
      ensures id in past.published <==>
                && LastLineParses(old(ledger)) && (who.Manual? || due) && second.fenceWrite && second.fenceSync
                && ClearedLive(old(fence), old(ledger), old(receipts), declares, recovered, first, second)
      ensures r.Started? <==>
                || id in past.published
                || (LastLineParses(old(ledger)) && who.Scheduled? && old(fence).Some? && Resumes(old(fence).value, old(ledger)))
      ensures r.Started? ==>
                && holder == Running(r.fence) && fence == Some(r.fence)
                && if id in past.published then r.fence == Fence(id, false, Some(action)) && durableFence == fence
                   else fence == old(fence)
      ensures r.StartBlocked? <==>
                && LastLineParses(old(ledger)) && old(fence).Some?
                && (|| HeldFor(old(fence).value, old(ledger), receipts, declares)
                    || (who.Manual? && Resumes(old(fence).value, old(ledger))))
      ensures !r.Started? ==> holder.Free?
      ensures r.NotDue? ==> fence.None?
    {
      Invariant();
      ghost var before := Now();
      Took(before, TakeLock(who));
      before := Now();
      if !LastLineParses(ledger) {
        Took(before, Stop);
        return StartError;
      }
      Took(before, VerifyLedger);
      var reconciled := ReconcileFenceLive(who, declares, recovered, first, second);
      match reconciled
      case ResumableCompression(f) => return if who.Scheduled? then Started(f) else StartBlocked;
      case FenceBlocked => return StartBlocked;
      case FenceError => return StartError;
      case FenceReady =>
        if who.Scheduled? && !due {
          before := Now();
          Took(before, Stop);
          return NotDue;
        }
        r := PublishAttempt(id, action, second);
    }

    /** `finish_execution` for a run that succeeded or failed: record, then clear. */
    method FinishAttempt(io: Io) returns (ok: bool)
      requires Valid() && holder.Running?
      modifies this
      ensures Valid() && holder.Free?
      ensures past.published == old(past).published && past.retried == old(past).retried && past.waived == old(past).waived
      ensures ledger == old(ledger) + RecordTokens(old(holder).fence.id, io.written)
      ensures ok ==> fence.None? && durableFence.None? && synced == |ledger| && Record(old(holder).fence.id) in ledger
      ensures !ok ==> fence == old(fence) || (fence.None? && synced == |ledger| && Record(old(holder).fence.id) in ledger)
      ensures ok == (io.written.Whole? && io.ledgerSync && io.removal && io.removalSync)
    {
      ghost var before := Now();
      Invariant();
      var id := fence.value.id;
      Took(before, Finish);
      ok := AppendLedgerRecord(id, io);
      if ok {
        ok := ClearFence(io);
      }
    }

    /** `mark_retryable`: the same fence, rewritten with its flag set. */
    method MarkAttemptRetryable(io: Io) returns (ok: bool)
      requires Valid() && holder.Running?
      modifies this
      ensures Valid() && holder.Free? && ledger == old(ledger) && synced == old(synced)
      ensures ok == (io.fenceWrite && io.fenceSync)
      ensures fence == if io.fenceWrite then Some(old(holder).fence.(retryable := true)) else old(fence)
      ensures durableFence == if ok then fence else old(durableFence)
    {
      ghost var before := Now();
      Invariant();
      if !io.fenceWrite {
        Took(before, Stop);
        return false;
      }
      fence := Some(fence.value.(retryable := true));
      Took(before, MarkRetryable);
      before := Now();
      if !io.fenceSync {
        Took(before, Stop);
        return false;
      }
      durableFence := fence;
      Took(before, SyncRetryable);
      return true;
    }

    /**
     * `unblock_job`: records an abandonment only for a fence that ordinary
     * reconciliation would leave in place, and clears it only after the record is
     * durable.
     */
    method UnblockJob(declares: bool, io: Io) returns (r: Unblocked)
      requires Valid() && holder.Free?
      modifies this
      ensures Valid() && holder.Free? && past.published == old(past).published
      ensures r.NothingHeld? <==> old(fence).None?
      ensures r.AlreadyClear? <==>
                && old(fence).Some?
                && (Cleared(old(fence), old(ledger), receipts, declares, io) || Resumes(old(fence).value, old(ledger)))
      ensures r.Abandoned? <==>
                && old(fence).Some? && HeldFor(old(fence).value, old(ledger), receipts, declares)
                && io.written.Whole? && io.ledgerSync && io.removal && io.removalSync
      ensures r.Abandoned? ==>
                && Names(old(fence), r.id) && fence.None? && durableFence.None?
                && HeldFor(old(fence).value, old(ledger), receipts, declares)
                && ledger == old(ledger) + [Record(r.id), Newline] && synced == |ledger|
      ensures r.AlreadyClear? ==> fence.None? || (fence == old(fence) && fence.value.action == Some(InProcessCompression))
      ensures r.UnblockError? ==>
                && old(fence).Some? && durableFence == old(durableFence)
                && (|| LeftByFailure(old(fence).value, old(ledger), fence, ledger, synced, receipts, declares, io)
                    || (&& HeldFor(old(fence).value, old(ledger), receipts, declares)
                        && ledger == old(ledger) + RecordTokens(old(fence).value.id, io.written)
                        && (fence == old(fence) || (fence.None? && synced == |ledger| && io.written.Whole?))))
    {
      ghost var before := Now();
      Took(before, TakeLock(Unblock));
      var existing := fence;
      var reconciled := ReconcileFence(Unblock, false, declares, io);
      if existing.None? {
        before := Now();
        Took(before, Stop);
        return NothingHeld;
      }
      match reconciled
      case FenceReady =>
        before := Now();
        Took(before, Stop);
        return AlreadyClear;
      case ResumableCompression(_) => return AlreadyClear;
      case FenceError => return UnblockError;
      case FenceBlocked =>
        var ok := AppendLedgerRecord(existing.value.id, io);
        if ok {
          ok := ClearFence(io);
        }
        return if ok then Abandoned(existing.value.id) else UnblockError;
    }
  }
}
