/**
 * The attempt fence and the job ledger of one scheduled job, as a protocol over
 * a disk that can lose power between any two operations.
 *
 * Files are modelled by what a reader sees and what would survive a power loss:
 * the fence is a pair of directory entries, the ledger is a token string whose
 * first `synced` tokens are known to be on stable storage. Receipts belong to
 * Agent Run children, which need no job lock, so they change arbitrarily.
 */
module JobProtocol {
  import opened Wrappers

  type Id = nat

  datatype Action = Script | InProcessCompression

  datatype Fence = Fence(id: Id, retryable: bool, action: Option<Action>)

  /** Ledger bytes: a whole JSON record, a record cut short, or a line end. */
  datatype Token = Record(id: Id) | Fragment | Newline

  type Ledger = seq<Token>

  /** What the receipt file of an attempt holds; a missing key is an absent file. */
  datatype Receipt = Pending(checkpointed: bool) | Conclusive | Unreadable

  /** Who took the per-job lock: a scheduled dispatch, a manual run, an operator. */
  datatype Who = Scheduled | Manual | Unblock

  /** What follows once a fence has been removed. */
  datatype After = Reconciled(who: Who) | Finished

  /** Program counter of the process that holds the job's flock. */
  datatype Holder =
    | Free
    | Verify(who: Who)
    | Inspect(who: Who, again: bool)
    | Blocked(who: Who)
    | Recover(who: Who)
    | SyncFound(fence: Fence, who: Who)
    | Append(fence: Fence, after: After)
    | SyncAppend(fence: Fence, after: After)
    | Clear(fence: Fence, after: After)
    | SyncClear(after: After)
    | Ready(who: Who)
    | Rename(fence: Fence)
    | SyncPublish(fence: Fence)
    | Running(fence: Fence)
    | SyncMark

  /** The files of one job: what readers see, and what a power loss would leave. */
  datatype Disk = Disk(
    fence: Option<Fence>,
    durableFence: Option<Fence>,
    ledger: Ledger,
    synced: nat)

  /**
   * Facts about the past: ids ever drawn, attempts whose publication returned,
   * attempts whose execution began, attempts marked retryable, attempts cleared
   * under a declared safe repeat, and whether a record was ever appended to a
   * line that lacked its newline.
   */
  datatype Past = Past(
    drawn: set<Id>,
    published: set<Id>,
    started: set<Id>,
    retried: set<Id>,
    waived: set<Id>,
    glued: bool)

  datatype State = State(disk: Disk, receipts: map<Id, Receipt>, holder: Holder, past: Past)

  // ----- reading the ledger

  datatype Scan = Found | NotFound | Malformed

  /** The line by line search for an attempt id; the first bad line is an error. */
  function ScanLedger(ledger: Ledger, id: Id): Scan {
    if ledger == [] then NotFound
    else match ledger[0]
      case Newline => ScanLedger(ledger[1..], id)
      case Fragment => Malformed
      case Record(found) =>
        if |ledger| > 1 && ledger[1] != Newline then Malformed
        else if found == id then Found
        else if |ledger| == 1 then NotFound
        else ScanLedger(ledger[2..], id)
  }

  /** The last non-blank line must be one whole record (or there is none). */
  predicate LastLineParses(ledger: Ledger) {
    if ledger == [] then true
    else match ledger[|ledger| - 1]
      case Newline => LastLineParses(ledger[..|ledger| - 1])
      case Fragment => false
      case Record(_) => |ledger| == 1 || ledger[|ledger| - 2] == Newline
  }

  predicate EndsInNewline(ledger: Ledger) {
    ledger == [] || ledger[|ledger| - 1] == Newline
  }

  /** The ledger is a part without a newline at its end, and then blank lines only. */
  predicate BlankAfter(ledger: Ledger, k: nat) {
    && k <= |ledger| && (forall i :: k <= i < |ledger| ==> ledger[i] == Newline)
    && (k > 0 ==> ledger[k - 1] != Newline)
  }

  /** A ledger may be appended to exactly when it is blank or its last non-blank line is one whole record. */
  lemma {:induction false} LastLineParsesIff(ledger: Ledger, k: nat)
    requires BlankAfter(ledger, k)
    ensures LastLineParses(ledger) <==> k == 0 || (ledger[k - 1].Record? && (k == 1 || ledger[k - 2] == Newline))
  {
    if k < |ledger| {
      assert ledger[|ledger| - 1] == Newline;
      LastLineParsesIff(ledger[..|ledger| - 1], k);
    }
  }

  // ----- steps

  /** How much of one record line reached the file before `write_all` returned. */
  datatype Written = Whole | NoNewline | Partial | Nothing

  datatype Step =
    | TakeLock(who: Who)
    | VerifyLedger
    | InspectFence(declaresIdempotence: bool)
    | LookAgain
    | RecoverDone
    | SyncFoundRecord
    | WriteRecord(written: Written)
    | SyncRecord
    | RemoveFence
    | SyncRemoval
    | Publish(id: Id, action: Action)
    | RenameFence
    | SyncFence
    | Finish
    | MarkRetryable
    | SyncRetryable
    | Stop
    | WriteBack
    | PowerLoss(kept: nat, torn: bool, receipts: map<Id, Receipt>)
    | ReceiptsChange(receipts: map<Id, Receipt>)

  predicate Enabled(s: State, step: Step) {
    match step
    case TakeLock(_) => s.holder.Free?
    case VerifyLedger => s.holder.Verify? && LastLineParses(s.disk.ledger)
    case InspectFence(_) => s.holder.Inspect?
    case LookAgain => s.holder.Blocked?
    case RecoverDone => s.holder.Recover?
    case SyncFoundRecord => s.holder.SyncFound?
    case WriteRecord(_) => s.holder.Append?
    case SyncRecord => s.holder.SyncAppend?
    case RemoveFence => s.holder.Clear?
    case SyncRemoval => s.holder.SyncClear?
    case Publish(id, action) =>
      && s.holder.Ready? && !s.holder.who.Unblock?
      && id !in s.past.drawn
      && (s.holder.who.Manual? ==> action.Script?)
    case RenameFence => s.holder.Rename?
    case SyncFence => s.holder.SyncPublish?
    case Finish => s.holder.Running?
    case MarkRetryable => s.holder.Running?
    case SyncRetryable => s.holder.SyncMark?
    case Stop => !s.holder.Free?
    case WriteBack => true
    case PowerLoss(kept, torn, _) => s.disk.synced <= kept <= |s.disk.ledger|
    case ReceiptsChange(_) => true
  }

  /** What `reconcile_fence_at` learns from fence, ledger, receipt and script header, in that order. */
  datatype Verdict = NoFence | MarkedRetryable | BadLedger | InLedger | Compression | ConclusiveReceipt | SafeRepeat | Ambiguous

  function Judge(disk: Disk, receipts: map<Id, Receipt>, declares: bool): Verdict {
    match disk.fence
    case None => NoFence
    case Some(f) =>
      if f.retryable then MarkedRetryable
      else match ScanLedger(disk.ledger, f.id)
        case Malformed => BadLedger
        case Found => InLedger
        case NotFound =>
          if f.action == Some(InProcessCompression) then Compression
          else if f.id in receipts then (if receipts[f.id].Conclusive? then ConclusiveReceipt else Ambiguous)
          else if f.action == Some(Script) && declares then SafeRepeat
          else Ambiguous
  }

  /** Where the lock holder goes with that verdict; an operator overrides an ambiguous fence. */
  function Decision(disk: Disk, verdict: Verdict, who: Who, again: bool): Holder
    requires disk.fence.None? ==> verdict.NoFence?
  {
    match verdict
    case NoFence => Ready(who)
    case MarkedRetryable => Clear(disk.fence.value, Reconciled(who))
    case BadLedger => Free
    case InLedger => SyncFound(disk.fence.value, who)
    case Compression => if who.Scheduled? then Running(disk.fence.value) else Free
    case ConclusiveReceipt => Append(disk.fence.value, Reconciled(who))
    case SafeRepeat => Clear(disk.fence.value, Reconciled(who))
    case Ambiguous =>
      if who.Unblock? then Append(disk.fence.value, Finished)
      else if again then Free
      else Blocked(who)
  }

  /** The decision with its history: a resumed attempt starts, a safe repeat waives. */
  function Inspected(s: State, declares: bool): State
    requires s.holder.Inspect?
  {
    var verdict := Judge(s.disk, s.receipts, declares);
    var past := match verdict
      case Compression => if s.holder.who.Scheduled? then s.past.(started := s.past.started + {s.disk.fence.value.id}) else s.past
      case SafeRepeat => s.past.(waived := s.past.waived + {s.disk.fence.value.id})
      case _ => s.past;
    s.(holder := Decision(s.disk, verdict, s.holder.who, s.holder.again), past := past)
  }

  function RecordTokens(id: Id, written: Written): Ledger {
    match written
    case Whole => [Record(id), Newline]
    case NoNewline => [Record(id)]
    case Partial => [Fragment]
    case Nothing => []
  }

  function Do(s: State, step: Step): (t: State)
    requires Enabled(s, step)
  {
    var disk, past := s.disk, s.past;
    match step
    case TakeLock(who) =>
      s.(holder := if who.Unblock? then Inspect(who, false) else Verify(who))
    case VerifyLedger => s.(holder := Inspect(s.holder.who, false))
    case InspectFence(declares) => Inspected(s, declares)
    case LookAgain =>
      var recoverable := disk.fence.Some? && disk.fence.value.id in s.receipts
                         && s.receipts[disk.fence.value.id] == Pending(true);
      s.(holder := if recoverable then Recover(s.holder.who) else Free)
    case RecoverDone => s.(holder := Inspect(s.holder.who, true))
    case SyncFoundRecord =>
      s.(disk := disk.(synced := |disk.ledger|), holder := Clear(s.holder.fence, Reconciled(s.holder.who)))
    case WriteRecord(written) =>
      s.(disk := disk.(ledger := disk.ledger + RecordTokens(s.holder.fence.id, written)),
         holder := if written.Whole? then SyncAppend(s.holder.fence, s.holder.after) else Free,
         past := past.(glued := past.glued || (!EndsInNewline(disk.ledger) && !written.Nothing?)))
    case SyncRecord =>
      s.(disk := disk.(synced := |disk.ledger|), holder := Clear(s.holder.fence, s.holder.after))
    case RemoveFence => s.(disk := disk.(fence := None), holder := SyncClear(s.holder.after))
    case SyncRemoval =>
      s.(disk := disk.(durableFence := disk.fence),
         holder := match s.holder.after case Reconciled(who) => Ready(who) case Finished => Free)
    case Publish(id, action) =>
      s.(past := past.(drawn := past.drawn + {id}), holder := Rename(Fence(id, false, Some(action))))
    case RenameFence => s.(disk := disk.(fence := Some(s.holder.fence)), holder := SyncPublish(s.holder.fence))
    case SyncFence =>
      s.(disk := disk.(durableFence := disk.fence),
         past := past.(published := past.published + {s.holder.fence.id},
                       started := past.started + {s.holder.fence.id}),
         holder := Running(s.holder.fence))
    case Finish => s.(holder := Append(s.holder.fence, Finished))
    case MarkRetryable =>
      s.(disk := disk.(fence := Some(s.holder.fence.(retryable := true))),
         past := past.(retried := past.retried + {s.holder.fence.id}),
         holder := SyncMark)
    case SyncRetryable => s.(disk := disk.(durableFence := disk.fence), holder := Free)
    case Stop => s.(holder := Free)
    case WriteBack => s.(disk := disk.(durableFence := disk.fence))
    case PowerLoss(kept, torn, receipts) =>
      var ledger := Survivors(disk.ledger, kept, torn);
      State(Disk(disk.durableFence, disk.durableFence, ledger, |ledger|), receipts, Free, past)
    case ReceiptsChange(receipts) => s.(receipts := receipts)
  }

  /** The ledger after a power loss: a token prefix, then possibly part of a record. */
  function Survivors(ledger: Ledger, kept: nat, torn: bool): Ledger
    requires kept <= |ledger|
  {
    ledger[..kept] + (if torn && kept < |ledger| && ledger[kept] != Newline then [Fragment] else [])
  }

  /** A fresh job, possibly with a durable fence left by an earlier release. */
  predicate Init(s: State) {
    && s.disk.fence == s.disk.durableFence
    && s.disk.ledger == [] && s.disk.synced == 0
    && s.holder.Free?
    && match s.disk.fence
       case None => s.past == Past({}, {}, {}, {}, {}, false)
       case Some(f) => !f.retryable && s.past == Past({f.id}, {f.id}, {f.id}, {}, {}, false)
  }

  /** The state after a run of steps, when each was enabled. */
  function Run(s: State, steps: seq<Step>): Option<State> {
    if steps == [] then Some(s)
    else match Run(s, steps[..|steps| - 1])
      case None => None
      case Some(t) =>
        var step := steps[|steps| - 1];
        if Enabled(t, step) then Some(Do(t, step)) else None
  }

  ghost predicate Reachable(s: State) {
    exists init: State, steps: seq<Step> :: Init(init) && Run(init, steps) == Some(s)
  }

  // ----- what must hold

  predicate Names(fence: Option<Fence>, id: Id) {
    fence.Some? && fence.value.id == id
  }

  /** The attempt's record is on stable storage. */
  predicate Recorded(disk: Disk, id: Id) {
    disk.synced <= |disk.ledger| && Record(id) in disk.ledger[..disk.synced]
  }

  /** The promise: an operator or the next tick can still see the attempt. */
  predicate Accounted(disk: Disk, past: Past, id: Id) {
    || (Names(disk.fence, id) && Names(disk.durableFence, id))
    || Recorded(disk, id)
    || id in past.retried
    || id in past.waived
  }

  /** The fence the holder is working on, if it has settled on one. */
  function HeldFence(h: Holder): Option<Fence> {
    match h
    case SyncFound(f, _) => Some(f)
    case Append(f, _) => Some(f)
    case SyncAppend(f, _) => Some(f)
    case Clear(f, _) => Some(f)
    case SyncPublish(f) => Some(f)
    case Running(f) => Some(f)
    case _ => None
  }

  predicate EndsInFragment(ledger: Ledger) {
    ledger != [] && ledger[|ledger| - 1] == Fragment
  }

  /** No attempt id has two records. */
  predicate OneRecordEach(ledger: Ledger) {
    forall i, j :: 0 <= i < j < |ledger| && ledger[i].Record? ==> ledger[i] != ledger[j]
  }

  /** Whole lines, then at most one line without its newline. */
  predicate Tidy(ledger: Ledger) {
    forall i :: 0 <= i < |ledger| ==>
      if i % 2 == 1 then ledger[i] == Newline
      else ledger[i].Record? || (ledger[i].Fragment? && i == |ledger| - 1)
  }

  /** What is known of an id a fence names. */
  predicate FenceHistory(fence: Option<Fence>, drawn: set<Id>, retried: set<Id>) {
    fence.Some? ==> fence.value.id in drawn && (fence.value.retryable ==> fence.value.id in retried)
  }

  ghost predicate LedgerHistory(ledger: Ledger, drawn: set<Id>, glued: bool) {
    && (forall id :: Record(id) in ledger ==> id in drawn)
    && OneRecordEach(ledger)
    && (!glued ==> Tidy(ledger))
  }

  /** Holders that verified or fully parsed the ledger under this lock. */
  predicate Careful(h: Holder) {
    match h
    case Free => false
    case Verify(_) => false
    case Inspect(who, _) => !who.Unblock?
    case SyncFound(_, who) => !who.Unblock?
    case Clear(_, after) => after != Reconciled(Unblock)
    case SyncClear(after) => after != Reconciled(Unblock)
    case Ready(who) => !who.Unblock?
    case _ => true
  }

  /** The holder's position and the disk agree. */
  predicate HolderInv(holder: Holder, disk: Disk, past: Past) {
    && (HeldFence(holder).Some? ==> disk.fence == HeldFence(holder))
    && (Careful(holder) ==> !EndsInFragment(disk.ledger))
    && match holder
       case Ready(_) => disk.fence.None?
       case SyncClear(_) => disk.fence.None?
       case Rename(f) => disk.fence.None? && f.id in past.drawn && !f.retryable && Record(f.id) !in disk.ledger
       case SyncPublish(f) => !f.retryable && Record(f.id) !in disk.ledger
       case Running(f) => !f.retryable && Record(f.id) !in disk.ledger
       case Append(f, _) => !f.retryable && Record(f.id) !in disk.ledger
       case SyncAppend(f, _) => Record(f.id) in disk.ledger
       case SyncFound(f, _) => Record(f.id) in disk.ledger
       case Clear(f, _) => Recorded(disk, f.id) || f.id in past.retried || f.id in past.waived
       case _ => true
  }

  ghost predicate DiskInv(disk: Disk, past: Past) {
    && disk.synced <= |disk.ledger|
    && FenceHistory(disk.fence, past.drawn, past.retried)
    && FenceHistory(disk.durableFence, past.drawn, past.retried)
    && LedgerHistory(disk.ledger, past.drawn, past.glued)
    && past.published <= past.drawn
    && forall id :: id in past.published ==> Accounted(disk, past, id)
  }

  ghost predicate Inv(s: State) {
    DiskInv(s.disk, s.past) && HolderInv(s.holder, s.disk, s.past)
  }

  // ----- the ledger

  lemma {:induction false} ScanAnswers(ledger: Ledger, id: Id)
    ensures ScanLedger(ledger, id) == NotFound ==> Record(id) !in ledger && !EndsInFragment(ledger)
    ensures ScanLedger(ledger, id) == Found ==> Record(id) in ledger
  {
    if ledger != [] {
      if ledger[0].Newline? {
        ScanAnswers(ledger[1..], id);
        assert ledger == [ledger[0]] + ledger[1..];
      } else if ledger[0].Record? && |ledger| > 1 && ledger[1] == Newline {
        ScanAnswers(ledger[2..], id);
        assert ledger == [ledger[0], ledger[1]] + ledger[2..];
      }
    }
  }

  lemma AppendKeepsLedger(ledger: Ledger, id: Id, written: Written)
    requires OneRecordEach(ledger) && Record(id) !in ledger
    ensures OneRecordEach(ledger + RecordTokens(id, written))
    ensures Tidy(ledger) && (EndsInNewline(ledger) || written.Nothing?) ==> Tidy(ledger + RecordTokens(id, written))
  {
  }

  lemma SurvivorsKeepLedger(ledger: Ledger, kept: nat, torn: bool)
    requires kept <= |ledger| && OneRecordEach(ledger)
    ensures OneRecordEach(Survivors(ledger, kept, torn))
    ensures Tidy(ledger) ==> Tidy(Survivors(ledger, kept, torn))
    ensures forall id :: Record(id) in Survivors(ledger, kept, torn) ==> Record(id) in ledger
    ensures ledger[..kept] <= Survivors(ledger, kept, torn)
  {
  }

  // ----- every step keeps the invariant

  lemma InspectKeepsInv(s: State, declares: bool)
    requires Inv(s) && s.holder.Inspect?
    ensures Inv(Inspected(s, declares))
  {
    if s.disk.fence.Some? {
      ScanAnswers(s.disk.ledger, s.disk.fence.value.id);
    }
  }

  lemma WriteKeepsInv(s: State, written: Written)
    requires Inv(s) && s.holder.Append?
    ensures Inv(Do(s, WriteRecord(written)))
  {
    AppendKeepsLedger(s.disk.ledger, s.holder.fence.id, written);
    var t := Do(s, WriteRecord(written));
    assert t.disk.ledger[..s.disk.synced] == s.disk.ledger[..s.disk.synced];
  }

  lemma PowerLossKeepsInv(s: State, kept: nat, torn: bool, receipts: map<Id, Receipt>)
    requires Inv(s) && s.disk.synced <= kept <= |s.disk.ledger|
    ensures Inv(Do(s, PowerLoss(kept, torn, receipts)))
  {
    SurvivorsKeepLedger(s.disk.ledger, kept, torn);
    var t := Do(s, PowerLoss(kept, torn, receipts));
    assert t.disk.ledger[..s.disk.synced] == s.disk.ledger[..s.disk.synced];
  }

  lemma StepKeepsInv(s: State, step: Step)
    requires Inv(s) && Enabled(s, step)
    ensures Inv(Do(s, step))
  {
    match step
    case InspectFence(declares) => InspectKeepsInv(s, declares);
    case WriteRecord(written) => WriteKeepsInv(s, written);
    case PowerLoss(kept, torn, receipts) => PowerLossKeepsInv(s, kept, torn, receipts);
    case _ =>
  }

  lemma {:induction false} RunKeepsInv(s: State, steps: seq<Step>)
    requires Inv(s) && Run(s, steps).Some?
    ensures Inv(Run(s, steps).value)
  {
    if steps != [] {
      RunKeepsInv(s, steps[..|steps| - 1]);
      StepKeepsInv(Run(s, steps[..|steps| - 1]).value, steps[|steps| - 1]);
    }
  }

  // ----- what the protocol promises

  lemma ReachableKeepsInv(s: State)
    requires Reachable(s)
    ensures Inv(s)
  {
    var init, steps :| Init(init) && Run(init, steps) == Some(s);
    RunKeepsInv(init, steps);
  }

  /** Whatever crashes, races and failed writes a run contains, a published attempt leaves a trace. */
  lemma NoAttemptIsLost(s: State, id: Id)
    requires Reachable(s) && id in s.past.published
    ensures Accounted(s.disk, s.past, id)
  {
    ReachableKeepsInv(s);
  }

  /** Finish, resume, receipt reconciliation and unblock together write at most one record per attempt. */
  lemma OneRecordPerAttempt(s: State)
    requires Reachable(s)
    ensures OneRecordEach(s.disk.ledger)
  {
    ReachableKeepsInv(s);
  }

  lemma {:induction false} TidyScanFinds(ledger: Ledger, id: Id)
    requires Tidy(ledger) && Record(id) in ledger
    ensures ScanLedger(ledger, id) == Found
  {
    assert ledger[0].Record?;
    if ledger[0] != Record(id) {
      assert ledger[1].Newline?;
      var rest := ledger[2..];
      assert ledger == [ledger[0], ledger[1]] + rest;
      assert forall i :: 0 <= i < |rest| ==> rest[i] == ledger[i + 2];
      TidyScanFinds(rest, id);
    }
  }

  /** As long as no record was appended to an unterminated line, every record can be found again. */
  lemma RecordsStayReadable(s: State, id: Id)
    requires Reachable(s) && !s.past.glued && Record(id) in s.disk.ledger
    ensures ScanLedger(s.disk.ledger, id) == Found
  {
    ReachableKeepsInv(s);
    TidyScanFinds(s.disk.ledger, id);
  }

  lemma {:induction false} ScanSkipsTidyPrefix(prefix: Ledger, rest: Ledger, id: Id)
    requires Tidy(prefix) && |prefix| % 2 == 0 && Record(id) !in prefix
    ensures ScanLedger(prefix + rest, id) == ScanLedger(rest, id)
    decreases |prefix|
  {
    if prefix == [] {
      assert prefix + rest == rest;
    } else {
      var tail := prefix[2..];
      assert prefix[0].Record? && prefix[1].Newline?;
      assert forall i :: 0 <= i < |tail| ==> tail[i] == prefix[i + 2];
      assert (prefix + rest)[2..] == tail + rest;
      ScanSkipsTidyPrefix(tail, rest, id);
    }
  }

  /**
   * When a whole record line is appended under the lock, the new record can be
   * found exactly when the ledger ended in a newline. Otherwise the record that
   * lacked its newline becomes unreadable too, although both reached the disk.
   */
  lemma AppendedRecordReadableIff(s: State)
    requires Reachable(s) && !s.past.glued && s.holder.Append?
    ensures var ledger := s.disk.ledger;
            var t := Do(s, WriteRecord(Whole));
            && (ScanLedger(t.disk.ledger, s.holder.fence.id) == Found <==> EndsInNewline(ledger))
            && (!EndsInNewline(ledger) ==>
                  && ledger[|ledger| - 1].Record?
                  && ScanLedger(ledger, ledger[|ledger| - 1].id) == Found
                  && ScanLedger(t.disk.ledger, ledger[|ledger| - 1].id) == Malformed)
  {
    ReachableKeepsInv(s);
    var ledger, id := s.disk.ledger, s.holder.fence.id;
    var added := RecordTokens(id, Whole);
    if EndsInNewline(ledger) {
      AppendKeepsLedger(ledger, id, Whole);
      TidyScanFinds(ledger + added, id);
    } else {
      var n := |ledger| - 1;
      var prefix, last := ledger[..n], ledger[n];
      assert ledger == prefix + [last] && ledger + added == prefix + ([last] + added);
      assert last.Record? && n % 2 == 0;
      assert Tidy(prefix);
      TidyScanFinds(ledger, last.id);
      ScanSkipsTidyPrefix(prefix, [last] + added, id);
      ScanSkipsTidyPrefix(prefix, [last] + added, last.id);
    }
  }

  lemma {:induction false} RunConcat(s: State, a: seq<Step>, b: seq<Step>)
    requires Run(s, a).Some?
    ensures Run(s, a + b) == Run(Run(s, a).value, b)
    decreases |b|
  {
    if b == [] {
      assert a + b == a;
    } else {
      RunConcat(s, a, b[..|b| - 1]);
      assert (a + b)[..|a + b| - 1] == a + b[..|b| - 1];
    }
  }

  lemma RunOne(s: State, step: Step)
    requires Enabled(s, step)
    ensures Run(s, [step]) == Some(Do(s, step))
  {
    assert [step][..0] == [];
  }

  lemma Go(s: State, step: Step) returns (t: State)
    requires Reachable(s) && Enabled(s, step)
    ensures t == Do(s, step) && Reachable(t)
  {
    t := Do(s, step);
    var init, steps :| Init(init) && Run(init, steps) == Some(s);
    RunOne(s, step);
    RunConcat(init, steps, [step]);
  }

  const EMPTY := State(Disk(None, None, [], 0), map[], Free, Past({}, {}, {}, {}, {}, false))

  lemma Inspecting(s: State) returns (t: State)
    requires Reachable(s) && s.holder.Free? && LastLineParses(s.disk.ledger)
    ensures Reachable(t) && t == Inspected(s.(holder := Inspect(Scheduled, false)), false)
  {
    t := Go(s, TakeLock(Scheduled));
    t := Go(t, VerifyLedger);
    t := Go(t, InspectFence(false));
  }

  lemma Publishing(s: State, id: Id, action: Action) returns (t: State)
    requires Reachable(s) && s.holder == Ready(Scheduled) && id !in s.past.drawn
    ensures Reachable(t)
    ensures var fence := Fence(id, false, Some(action));
            t == State(s.disk.(fence := Some(fence)), s.receipts, SyncPublish(fence),
                       s.past.(drawn := s.past.drawn + {id}))
  {
    t := Go(s, Publish(id, action));
    t := Go(t, RenameFence);
  }

  lemma Recording(s: State, written: Written) returns (t: State)
    requires Reachable(s) && s.holder.SyncPublish?
    ensures Reachable(t)
    ensures var id := s.holder.fence.id;
            && t.disk == Disk(s.disk.fence, s.disk.fence, s.disk.ledger + RecordTokens(id, written), s.disk.synced)
            && t.past.published == s.past.published + {id} && t.past.drawn == s.past.drawn
            && (EndsInNewline(s.disk.ledger) ==> t.past.glued == s.past.glued)
            && t.holder == if written.Whole? then SyncAppend(s.holder.fence, Finished) else Free
  {
    t := Go(s, SyncFence);
    t := Go(t, Finish);
    t := Go(t, WriteRecord(written));
  }

  lemma EmptyIsReachable()
    ensures Reachable(EMPTY)
  {
    assert Run(EMPTY, []) == Some(EMPTY);
  }

  /** The tail every cleared attempt goes through. */
  lemma Clearing(s: State) returns (t: State)
    requires Reachable(s) && s.holder.Clear?
    ensures Reachable(t)
    ensures t.disk == s.disk.(fence := None, durableFence := None) && t.past == s.past
    ensures t.holder == match s.holder.after case Reconciled(who) => Ready(who) case Finished => Free
  {
    t := Go(s, RemoveFence);
    t := Go(t, SyncRemoval);
  }

  /** Attempt 1 ran; the disk filled up just before its record's newline. */
  lemma FirstRecordUnterminated() returns (s: State)
    ensures Reachable(s) && s.holder.Free? && s.past.drawn == s.past.published == {1} && !s.past.glued
    ensures var fence := Some(Fence(1, false, Some(Script)));
            s.disk == Disk(fence, fence, [Record(1)], 0)
  {
    EmptyIsReachable();
    s := Inspecting(EMPTY);
    s := Publishing(s, 1, Script);
    s := Recording(s, NoNewline);
    assert s.disk.ledger == [Record(1)];
  }

  lemma FirstRecordWithoutNewline() returns (s: State)
    ensures Reachable(s) && s.holder == Ready(Scheduled) && s.past.drawn == s.past.published == {1}
    ensures s.disk == Disk(None, None, [Record(1)], 1)
  {
    s := FirstRecordUnterminated();
    s := Inspecting(s);
    s := Go(s, SyncFoundRecord);
    s := Clearing(s);
  }

  /**
   * A full disk that takes everything but the newline of attempt 1's record,
   * then attempt 2: both attempts end with a durable record, no fence and a
   * ledger in which neither record can be read.
   */
  lemma ReadabilityFails() returns (s: State)
    ensures Reachable(s)
    ensures s.past.published == {1, 2} && s.disk.fence.None? && s.disk.durableFence.None?
    ensures Recorded(s.disk, 1) && Recorded(s.disk, 2)
    ensures ScanLedger(s.disk.ledger, 1) != Found && ScanLedger(s.disk.ledger, 2) != Found
  {
    s := FirstRecordWithoutNewline();
    s := Publishing(s, 2, Script);
    s := Recording(s, Whole);
    assert s.disk.ledger == [Record(1), Record(2), Newline];
    s := Go(s, SyncRecord);
    s := Clearing(s);
    assert s.disk.ledger[..3] == [Record(1), Record(2), Newline];
  }

  /** A dispatch that dies between renaming a compression fence and syncing its directory. */
  lemma HalfPublished() returns (s: State)
    ensures Reachable(s) && s.holder.Free? && s.receipts == map[]
    ensures s.disk == Disk(Some(Fence(1, false, Some(InProcessCompression))), None, [], 0)
    ensures s.past == Past({1}, {}, {}, {}, {}, false)
  {
    EmptyIsReachable();
    s := Inspecting(EMPTY);
    s := Publishing(s, 1, InProcessCompression);
    s := Go(s, Stop);
  }

  /** Resume that fence, then lose power: the attempt ran and nothing names it any more. */
  lemma StartedAttemptCanVanish() returns (s: State)
    ensures Reachable(s) && s.past.started == {1}
    ensures !Accounted(s.disk, s.past, 1) && s.disk.fence.None?
  {
    s := HalfPublished();
    s := Inspecting(s);
    s := Go(s, PowerLoss(0, false, map[]));
  }

  /** While an attempt runs, every power loss leaves it accounted for exactly when its fence is durable. */
  lemma RunningSurvivesPowerLossIff(s: State)
    requires Reachable(s) && s.holder.Running?
    ensures var id := s.holder.fence.id;
            (forall kept: nat, torn: bool, receipts: map<Id, Receipt> | s.disk.synced <= kept <= |s.disk.ledger| ::
               Accounted(Do(s, PowerLoss(kept, torn, receipts)).disk, s.past, id))
            <==> Names(s.disk.durableFence, id) || id in s.past.retried || id in s.past.waived
  {
    ReachableKeepsInv(s);
    var id := s.holder.fence.id;
    var t := Do(s, PowerLoss(s.disk.synced, false, map[]));
    assert t.disk.ledger == s.disk.ledger[..s.disk.synced];
  }

  /** Publication syncs the fence before execution, so only a resumed fence can be at risk. */
  lemma StartedAttemptsAccounted(s: State, step: Step, id: Id)
    requires Reachable(s) && Enabled(s, step)
    requires id in Do(s, step).past.started && id !in s.past.started && !step.InspectFence?
    ensures id in Do(s, step).past.published && Accounted(Do(s, step).disk, s.past, id)
  {
    ReachableKeepsInv(s);
  }
}
