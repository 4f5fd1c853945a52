/**
 * Whole runs of one Door: lock, load, claim, launch, advance, with a crash possible
 * before and after every save, power losses that revert unsynced saves, operator
 * re-arms, and agents that answer or do not.
 *
 * Each saved state carries the history it accounts for (`done`, `times`), which a
 * power loss may revert with the state. The world also keeps what really happened:
 * every claim handed to an agent and every completion, whatever became of its save.
 */
module DoorRun {
  import opened Wrappers
  import opened Paths
  import opened DoorState

  const WINDOW_MS := 3_600_000

  /** A state with the claims it has completed and the times of their fires. */
  datatype Version = Version(state: DoorState, done: seq<Claim>, times: seq<int>)

  datatype Phase =
    | Idle
    | Locked
    | Deciding
    | Ready
    | Saving(next: Phase)
    | Syncing(next: Phase)

  /** A claim taken off the state on a durable receipt, and when. */
  datatype Completion = Completion(claim: Claim, time: int)

  /**
   * `asked` holds every claim whose key was passed to `agentRunReceipt`, `completed`
   * every completion ever begun; no step removes anything from either.
   */
  datatype World = World(
    visible: Version,
    durable: Version,
    memory: Version,
    phase: Phase,
    clock: int,
    asked: seq<Claim>,
    completed: seq<Completion>)

  datatype Step =
    | Lock
    | Load
    | Prepare(files: seq<ClaimFile>, now: int)
    | Resume
    | Bind(identities: seq<Identity>)
    | Ask
    | Complete(now: int)
    | Rename
    | Sync
    | Exit
    | WriteBack
    | PowerLoss
    | Rearm

  /** `scan` after its sort and filter: new files, ascending, each path once, all well formed. */
  predicate Scanned(files: seq<ClaimFile>, frontier: Frontier) {
    && (forall f :: f in files ==>
          ValidClaimFile(f) && ValidRelativePath(f.order.path) && IsNew(f.order, frontier))
    && DistinctPaths(Orders(files)) && Sorted(Orders(files))
  }

  function Recent(fires: seq<int>, now: int): seq<int> {
    if fires == [] then [] else (if now - fires[0] < WINDOW_MS then [fires[0]] else []) + Recent(fires[1..], now)
  }

  predicate Bound(claim: Claim) {
    forall f :: f in claim.files ==> ValidClaimFile(f)
  }

  /** `bindLegacyClaimIdentity`: the same files in the same order, now with content identity. */
  predicate Binds(claim: Claim, identities: seq<Identity>) {
    && claim.legacyCursor.Some? && !Bound(claim)
    && |identities| == |claim.files|
    && forall i :: 0 <= i < |identities| ==> ValidClaimFile(ClaimFile(claim.files[i].order, Some(identities[i])))
  }

  function BoundClaim(claim: Claim, identities: seq<Identity>): Claim
    requires |identities| == |claim.files|
  {
    claim.(files := seq(|identities|, i requires 0 <= i < |identities| => ClaimFile(claim.files[i].order, Some(identities[i]))))
  }

  /** A claim is saved and, if it was a legacy one, bound. */
  predicate Launchable(v: Version) {
    v.state.claim.Some? && v.state.claim.value.files != [] && Bound(v.state.claim.value)
  }

  predicate Enabled(w: World, step: Step) {
    match step
    case Lock => w.phase.Idle?
    case Load => w.phase.Locked? && w.visible.state.paused.None?
    case Prepare(files, now) =>
      && w.phase.Deciding? && w.memory.state.claim.None?
      && files != [] && Scanned(files, w.memory.state.frontier) && now >= w.clock
    case Resume => w.phase.Deciding? && w.memory.state.claim.Some?
    case Bind(identities) =>
      w.phase.Ready? && w.memory.state.claim.Some? && Binds(w.memory.state.claim.value, identities)
    case Ask => w.phase.Ready? && Launchable(w.memory)
    case Complete(now) =>
      && w.phase.Ready? && Launchable(w.memory) && now >= w.clock
      && w.memory.state.claim.value in w.asked
    case Rename => w.phase.Saving?
    case Sync => w.phase.Syncing?
    case Exit => !w.phase.Idle?
    case WriteBack => true
    case PowerLoss => true
    case Rearm => true
  }

  /** `prepareClaim` before its save: pause at the fire limit, otherwise claim the batch. */
  function Prepared(name: string, max: int, v: Version, files: seq<ClaimFile>, now: int): Version {
    var s := v.state.(fires := Recent(v.state.fires, now));
    if |s.fires| >= max then v.(state := s.(paused := Some("fire limit hit")))
    else
      var key := FrontierKey(name, s.frontier, files);
      v.(state := s.(claim := Some(Claim(s.frontier, files, key, None))))
  }

  /** A durable receipt: the fire is recorded, the frontier advances, the claim is gone. */
  function Completed(v: Version, now: int): Version
    requires Launchable(v)
  {
    var claim := v.state.claim.value;
    var frontier := AdvanceFrontier(claim.from, Orders(claim.files));
    Version(v.state.(fires := v.state.fires + [now], frontier := frontier, claim := None),
            v.done + [claim], v.times + [now])
  }

  /**
   * One step. Publishing the lock file syncs the state directory, so the state that is
   * about to be loaded is durable by then.
   */
  function Do(name: string, max: int, w: World, step: Step): World
    requires Enabled(w, step)
  {
    match step
    case Lock => w.(durable := w.visible, phase := Locked)
    case Load => w.(memory := w.visible, phase := Deciding)
    case Prepare(files, now) =>
      var v := Prepared(name, max, w.memory, files, now);
      w.(memory := v, clock := now, phase := Saving(if v.state.claim.Some? then Ready else Idle))
    case Resume => w.(phase := Ready)
    case Bind(identities) =>
      var claim := BoundClaim(w.memory.state.claim.value, identities);
      w.(memory := w.memory.(state := w.memory.state.(claim := Some(claim))), phase := Saving(Ready))
    case Ask => w.(asked := w.asked + [w.memory.state.claim.value])
    case Complete(now) =>
      w.(memory := Completed(w.memory, now), clock := now, phase := Saving(Idle),
         completed := w.completed + [Completion(w.memory.state.claim.value, now)])
    case Rename => w.(visible := w.memory, phase := Syncing(w.phase.next))
    case Sync => w.(durable := w.visible, phase := w.phase.next)
    case Exit => w.(phase := Idle)
    case WriteBack => w.(durable := w.visible)
    case PowerLoss => w.(visible := w.durable, phase := Idle)
    case Rearm => w.(visible := w.visible.(state := w.visible.state.(paused := None)))
  }

  /** Any readable state without fires; a claim may be pending if the door may fire at all. */
  predicate Init(name: string, max: int, w: World) {
    && AcceptsState(name, w.visible.state)
    && w.visible.state.fires == [] && w.visible.done == [] && w.visible.times == []
    && (w.visible.state.claim.Some? ==> max > 0)
    && w.durable == w.visible == w.memory && w.phase.Idle? && w.clock >= 0 && w.asked == [] && w.completed == []
  }

  function Run(name: string, max: int, w: World, steps: seq<Step>): Option<World> {
    if steps == [] then Some(w)
    else match Run(name, max, w, steps[..|steps| - 1])
      case None => None
      case Some(v) =>
        var step := steps[|steps| - 1];
        if Enabled(v, step) then Some(Do(name, max, v, step)) else None
  }

  ghost predicate Reachable(name: string, max: int, w: World) {
    exists init: World, steps: seq<Step> :: Init(name, max, init) && Run(name, max, init, steps) == Some(w)
  }

  // ----- the invariant

  ghost predicate Disjoint(a: Claim, b: Claim) {
    forall order :: !(order in Orders(a.files) && order in Orders(b.files))
  }

  /** Completed claims share no file, and none of their files is new any more. */
  ghost predicate DoneInv(name: string, v: Version) {
    && (forall i, j :: 0 <= i < j < |v.done| ==> Disjoint(v.done[i], v.done[j]))
    && (forall i, order :: 0 <= i < |v.done| && order in Orders(v.done[i].files) ==> !IsNew(order, v.state.frontier))
    && (forall i :: 0 <= i < |v.done| ==> AcceptsClaim(name, v.done[i].from, v.done[i]))
  }

  predicate NonDecreasing(times: seq<int>) {
    forall i, j :: 0 <= i < j < |times| ==> times[i] <= times[j]
  }

  /** No `max + 1` fires lie within one window. */
  predicate RateBound(times: seq<int>, max: int) {
    && (max <= 0 ==> times == [])
    && (max > 0 ==> forall i :: 0 <= i < |times| - max ==> times[i + max] - times[i] >= WINDOW_MS)
  }

  /** The stored fires are the latest ones; every dropped fire left the window by `clock`. */
  ghost predicate FiresInv(fires: seq<int>, times: seq<int>, max: int, clock: int) {
    && |fires| <= |times|
    && fires == times[|times| - |fires|..]
    && (forall i :: 0 <= i < |times| - |fires| ==> clock - times[i] >= WINDOW_MS)
    && NonDecreasing(times) && (forall t :: t in times ==> 0 <= t <= clock)
    && RateBound(times, max)
  }

  /** There is room for one more fire. */
  predicate HasRoom(times: seq<int>, max: int, clock: int) {
    max > 0 && forall i :: 0 <= i <= |times| - max ==> clock - times[i] >= WINDOW_MS
  }

  ghost predicate VersionInv(name: string, max: int, v: Version, clock: int) {
    && AcceptsState(name, v.state)
    && DoneInv(name, v)
    && FiresInv(v.state.fires, v.times, max, clock)
    && (v.state.claim.Some? ==> HasRoom(v.times, max, clock))
  }

  /** A version apart from the pause, which an operator may lift at any time. */
  function Bare(v: Version): Version {
    v.(state := v.state.(paused := None))
  }

  /** `t` is a window later than every fire `max` or more places before place `n`. */
  predicate Spaced(times: seq<int>, n: nat, max: int, t: int)
    requires n <= |times|
  {
    max > 0 && forall k :: 0 <= k <= n - max ==> t - times[k] >= WINDOW_MS
  }

  /** What one completion means for a version that has recorded its claim, or still has it pending. */
  predicate FireKnown(v: Version, max: int, f: Completion)
    requires |v.done| == |v.times|
  {
    && (forall i :: 0 <= i < |v.done| && v.done[i] == f.claim ==> f.time <= v.times[i] && Spaced(v.times, i, max, f.time))
    && (v.state.claim == Some(f.claim) ==> Spaced(v.times, |v.times|, max, f.time))
  }

  /** The version records or still holds every claim ever handed to an agent. */
  ghost predicate Knows(v: Version, max: int, asked: seq<Claim>, completed: seq<Completion>) {
    && |v.done| == |v.times|
    && (forall c :: c in asked ==> c in v.done || v.state.claim == Some(c))
    && (forall f :: f in completed ==> FireKnown(v, max, f))
  }

  /** How the copies of the state relate while the lock holder is at a given point. */
  predicate InStep(w: World) {
    match w.phase
    case Idle => true
    case Locked => Bare(w.visible) == Bare(w.durable)
    case Deciding => Bare(w.visible) == Bare(w.durable) == Bare(w.memory)
    case Ready => Bare(w.visible) == Bare(w.durable) == Bare(w.memory)
    case Saving(_) => Bare(w.visible) == Bare(w.durable)
    case Syncing(_) => Bare(w.visible) == Bare(w.memory)
  }

  predicate Proper(phase: Phase) {
    match phase
    case Saving(next) => next.Ready? || next.Idle?
    case Syncing(next) => next.Ready? || next.Idle?
    case _ => true
  }

  ghost predicate HistoryInv(w: World, max: int) {
    && Knows(w.visible, max, w.asked, w.completed)
    && Knows(w.durable, max, w.asked, w.completed)
    && (!w.phase.Idle? && !w.phase.Locked? ==> Knows(w.memory, max, w.asked, w.completed))
    && (forall f :: f in w.completed ==> f.claim in w.asked && f.time <= w.clock)
  }

  ghost predicate Inv(name: string, max: int, w: World) {
    && w.clock >= 0
    && VersionInv(name, max, w.visible, w.clock)
    && VersionInv(name, max, w.durable, w.clock)
    && VersionInv(name, max, w.memory, w.clock)
    && (forall c :: c in w.asked ==> AcceptsClaim(name, c.from, c) && Bound(c))
    && InStep(w) && Proper(w.phase) && HistoryInv(w, max)
  }

  // ----- one step

  lemma {:induction false} RecentIsSuffix(fires: seq<int>, now: int)
    requires NonDecreasing(fires)
    ensures |Recent(fires, now)| <= |fires|
    ensures Recent(fires, now) == fires[|fires| - |Recent(fires, now)|..]
    ensures forall i :: 0 <= i < |fires| - |Recent(fires, now)| ==> now - fires[i] >= WINDOW_MS
  {
    if fires != [] {
      if now - fires[0] < WINDOW_MS {
        assert forall i :: 0 <= i < |fires| ==> fires[0] <= fires[i];
        RecentKeepsAll(fires, now);
      } else {
        var tail, recent := fires[1..], Recent(fires[1..], now);
        RecentIsSuffix(tail, now);
        assert Recent(fires, now) == recent;
        assert fires[|fires| - |recent|..] == tail[|tail| - |recent|..];
        forall i | 0 <= i < |fires| - |recent|
          ensures now - fires[i] >= WINDOW_MS
        {
          if i > 0 { assert fires[i] == tail[i - 1]; }
        }
      }
    }
  }

  lemma {:induction false} RecentKeepsAll(fires: seq<int>, now: int)
    requires forall i :: 0 <= i < |fires| ==> now - fires[i] < WINDOW_MS
    ensures Recent(fires, now) == fires
  {
    if fires != [] { RecentKeepsAll(fires[1..], now); }
  }

  /** At least `n` recent fires means that the n-th latest one lies in the last hour. */
  lemma RecentReaches(fires: seq<int>, now: int, n: nat)
    requires NonDecreasing(fires) && n > 0
    ensures |Recent(fires, now)| >= n <==> |fires| >= n && now - fires[|fires| - n] < WINDOW_MS
  {
    RecentIsSuffix(fires, now);
    RecentAreRecent(fires, now);
    var k := |Recent(fires, now)|;
    if k >= n { assert Recent(fires, now)[k - n] == fires[|fires| - n]; }
  }

  lemma {:induction false} RecentAreRecent(fires: seq<int>, now: int)
    ensures forall i :: 0 <= i < |Recent(fires, now)| ==> now - Recent(fires, now)[i] < WINDOW_MS
  {
    if fires != [] { RecentAreRecent(fires[1..], now); }
  }

  lemma LaterClock(name: string, max: int, v: Version, clock: int, now: int)
    requires VersionInv(name, max, v, clock) && clock <= now
    ensures VersionInv(name, max, v, now)
  {
  }

  /** Counting the recent stored fires counts every fire of the last window. */
  lemma RecentCountsWindow(fires: seq<int>, times: seq<int>, max: int, now: int)
    requires FiresInv(fires, times, max, now)
    ensures FiresInv(Recent(fires, now), times, max, now)
    ensures |Recent(fires, now)| < max ==> HasRoom(times, max, now)
  {
    RecentIsSuffix(fires, now);
    var recent := Recent(fires, now);
    var dropped := |times| - |fires|;
    forall i | 0 <= i < |times| - |recent|
      ensures now - times[i] >= WINDOW_MS
    {
      if i >= dropped { assert times[i] == fires[i - dropped]; }
    }
  }

  /** Dropping the fires that left the window keeps a version without a claim in order. */
  lemma RecentKeepsInv(name: string, max: int, v: Version, now: int, clock: int)
    requires VersionInv(name, max, v, clock) && clock <= now && v.state.claim.None?
    ensures VersionInv(name, max, v.(state := v.state.(fires := Recent(v.state.fires, now))), now)
    ensures |Recent(v.state.fires, now)| < max ==> HasRoom(v.times, max, now)
  {
    LaterClock(name, max, v, clock, now);
    RecentCountsWindow(v.state.fires, v.times, max, now);
    var u := v.(state := v.state.(fires := Recent(v.state.fires, now)));
    assert forall t :: t in u.state.fires ==> t in v.times;
    assert DoneInv(name, u);
  }

  /** A new batch is a claim that the loader accepts. */
  lemma NewClaimIsAccepted(name: string, files: seq<ClaimFile>, frontier: Frontier)
    requires ValidFrontier(frontier) && files != [] && Scanned(files, frontier)
    ensures AcceptsClaim(name, frontier, Claim(frontier, files, FrontierKey(name, frontier, files), None))
  {
  }

  lemma PreparedKeepsInv(name: string, max: int, v: Version, files: seq<ClaimFile>, now: int, clock: int)
    requires VersionInv(name, max, v, clock) && clock <= now && v.state.claim.None?
    requires files != [] && Scanned(files, v.state.frontier)
    ensures VersionInv(name, max, Prepared(name, max, v, files, now), now)
  {
    RecentKeepsInv(name, max, v, now, clock);
    NewClaimIsAccepted(name, files, v.state.frontier);
    assert DoneInv(name, Prepared(name, max, v, files, now));
  }

  lemma AppendKeepsOrder(times: seq<int>, now: int)
    requires NonDecreasing(times) && forall t :: t in times ==> 0 <= t <= now
    ensures NonDecreasing(times + [now])
  {
    assert forall i :: 0 <= i < |times| ==> times[i] in times;
  }

  lemma AppendKeepsRate(times: seq<int>, max: int, now: int)
    requires RateBound(times, max) && HasRoom(times, max, now)
    ensures RateBound(times + [now], max)
  {
    var all := times + [now];
    forall i | 0 <= i < |all| - max
      ensures all[i + max] - all[i] >= WINDOW_MS
    {
      assert i + max < |times| ==> times[i + max] - times[i] >= WINDOW_MS;
    }
  }

  /** One more fire, when there is room for it. */
  lemma FireKeepsRate(fires: seq<int>, times: seq<int>, max: int, now: int)
    requires FiresInv(fires, times, max, now) && HasRoom(times, max, now) && now >= 0
    ensures FiresInv(fires + [now], times + [now], max, now)
  {
    AppendKeepsOrder(times, now);
    AppendKeepsRate(times, max, now);
  }

  lemma ClaimedFilesAreNew(name: string, frontier: Frontier, claim: Claim)
    requires AcceptsClaim(name, frontier, claim)
    ensures forall f :: f in Orders(claim.files) ==> IsNew(f, claim.from) && ValidFileOrder(f) && ValidRelativePath(f.path)
  {
    forall f | f in Orders(claim.files)
      ensures IsNew(f, claim.from) && ValidFileOrder(f) && ValidRelativePath(f.path)
    {
      var i :| 0 <= i < |claim.files| && claim.files[i].order == f;
      assert claim.files[i] in claim.files;
      if claim.legacyCursor.Some? { CursorFrontierExact(claim.legacyCursor.value, f); }
    }
  }

  /** Completion closes exactly the claimed batch and keeps everything closed before closed. */
  lemma CompletedKeepsDone(name: string, v: Version, now: int)
    requires AcceptsState(name, v.state) && DoneInv(name, v) && Launchable(v)
    ensures DoneInv(name, Completed(v, now)) && ValidFrontier(Completed(v, now).state.frontier)
  {
    var claim := v.state.claim.value;
    var orders := Orders(claim.files);
    var c := Completed(v, now);
    ClaimedFilesAreNew(name, v.state.frontier, claim);
    AdvancedFrontierIsValid(claim.from, orders);
    assert orders[|orders| - 1] in orders;
    forall i, order | 0 <= i < |c.done| && order in Orders(c.done[i].files)
      ensures !IsNew(order, c.state.frontier)
    {
      ClaimedIsOld(claim.from, orders, order);
      if i < |v.done| { assert !IsNew(order, v.state.frontier); }
    }
    forall i, j | 0 <= i < j < |c.done|
      ensures Disjoint(c.done[i], c.done[j])
    {
      if j < |v.done| {
        assert Disjoint(v.done[i], v.done[j]);
      } else {
        assert forall order :: order in Orders(c.done[i].files) ==> !IsNew(order, v.state.frontier);
      }
    }
  }

  lemma CompletedKeepsInv(name: string, max: int, v: Version, now: int, clock: int)
    requires VersionInv(name, max, v, clock) && 0 <= clock <= now && Launchable(v)
    ensures VersionInv(name, max, Completed(v, now), now)
  {
    LaterClock(name, max, v, clock, now);
    CompletedKeepsDone(name, v, now);
    FireKeepsRate(v.state.fires, v.times, max, now);
  }

  /** Binding keeps the claim acceptable: order, paths and the legacy key do not depend on content. */
  lemma BindingKeepsInv(name: string, max: int, v: Version, identities: seq<Identity>, clock: int)
    requires VersionInv(name, max, v, clock) && v.state.claim.Some? && Binds(v.state.claim.value, identities)
    ensures var claim := BoundClaim(v.state.claim.value, identities);
            Bound(claim) && VersionInv(name, max, v.(state := v.state.(claim := Some(claim))), clock)
  {
    var old_ := v.state.claim.value;
    var claim := BoundClaim(old_, identities);
    assert Orders(claim.files) == Orders(old_.files);
    forall f | f in claim.files
      ensures ValidClaimFile(f) && ValidRelativePath(f.order.path)
      ensures CompareFile(f.order, FileOrder(old_.legacyCursor.value.mtime, old_.legacyCursor.value.path)) > 0
    {
      var i :| 0 <= i < |claim.files| && claim.files[i] == f;
      assert old_.files[i] in old_.files;
    }
    assert DoneInv(name, v.(state := v.state.(claim := Some(claim))));
  }

  // ----- what really happened

  /** Knowledge does not depend on the pause. */
  lemma KnowsBare(v: Version, u: Version, max: int, asked: seq<Claim>, completed: seq<Completion>)
    requires Bare(v) == Bare(u) && Knows(v, max, asked, completed)
    ensures Knows(u, max, asked, completed)
  {
    forall f | f in completed
      ensures FireKnown(u, max, f)
    {
      assert FireKnown(v, max, f);
    }
  }

  /** A pending claim shares no file with a recorded one. */
  lemma PendingIsDisjoint(name: string, max: int, v: Version, clock: int, i: nat)
    requires VersionInv(name, max, v, clock) && v.state.claim.Some? && i < |v.done|
    ensures Disjoint(v.done[i], v.state.claim.value) && v.done[i] != v.state.claim.value
  {
    var c := v.state.claim.value;
    ClaimedFilesAreNew(name, v.state.frontier, c);
    assert Orders(c.files)[0] in Orders(c.files);
  }

  /** One more claim handed out, pending in this version. */
  lemma AskedIsKnown(v: Version, max: int, asked: seq<Claim>, completed: seq<Completion>)
    requires Knows(v, max, asked, completed) && v.state.claim.Some?
    ensures Knows(v, max, asked + [v.state.claim.value], completed)
  {
  }

  /** One more completion of the pending claim, seen from a version that still holds it. */
  lemma FireIsKnown(name: string, max: int, v: Version, clock: int, asked: seq<Claim>, completed: seq<Completion>, now: int)
    requires VersionInv(name, max, v, clock) && clock <= now && v.state.claim.Some?
    requires Knows(v, max, asked, completed)
    ensures Knows(v, max, asked, completed + [Completion(v.state.claim.value, now)])
  {
    var f := Completion(v.state.claim.value, now);
    forall i | 0 <= i < |v.done|
      ensures v.done[i] != f.claim
    {
      PendingIsDisjoint(name, max, v, clock, i);
    }
    assert FireKnown(v, max, f);
  }

  /** Recording the pending claim at `now` keeps all completions known. */
  lemma RecordedIsKnown(name: string, max: int, v: Version, clock: int, asked: seq<Claim>, completed: seq<Completion>, now: int)
    requires VersionInv(name, max, v, clock) && clock <= now && Launchable(v)
    requires Knows(v, max, asked, completed) && forall f :: f in completed ==> f.time <= now
    ensures Knows(Completed(v, now), max, asked, completed)
  {
    var u, n := Completed(v, now), |v.done|;
    forall f | f in completed
      ensures FireKnown(u, max, f)
    {
      assert FireKnown(v, max, f);
      forall i | 0 <= i <= n && u.done[i] == f.claim
        ensures f.time <= u.times[i] && Spaced(u.times, i, max, f.time)
      {
        if i < n { assert v.done[i] == f.claim; }
      }
    }
    forall c | c in asked
      ensures c in u.done
    {
      assert c in v.done || v.state.claim == Some(c);
    }
  }

  /** A version that differs in a claim no agent was asked about knows the same. */
  lemma NewClaimIsKnown(v: Version, u: Version, max: int, asked: seq<Claim>, completed: seq<Completion>)
    requires Knows(v, max, asked, completed) && u.done == v.done && u.times == v.times
    requires v.state.claim.Some? ==> v.state.claim.value !in asked
    requires u.state.claim.Some? ==> u.state.claim.value !in asked
    requires forall f :: f in completed ==> f.claim in asked
    ensures Knows(u, max, asked, completed)
  {
    forall f | f in completed
      ensures FireKnown(u, max, f)
    {
      assert FireKnown(v, max, f);
    }
  }

  /** A batch of new files was never handed out, and has a key of its own. */
  lemma NewBatch(name: string, max: int, v: Version, clock: int, asked: seq<Claim>, completed: seq<Completion>, c: Claim)
    requires VersionInv(name, max, v, clock) && v.state.claim.None? && Knows(v, max, asked, completed)
    requires forall a :: a in asked ==> AcceptsClaim(name, a.from, a) && Bound(a)
    requires AcceptsClaim(name, v.state.frontier, c)
    ensures c !in asked && forall a :: a in asked ==> a.key != c.key && Disjoint(a, c)
  {
    ClaimedFilesAreNew(name, v.state.frontier, c);
    assert Orders(c.files)[0] in Orders(c.files);
    forall a | a in asked
      ensures a.key != c.key && Disjoint(a, c) && a != c
    {
      var i :| 0 <= i < |v.done| && v.done[i] == a;
      assert forall order :: order in Orders(a.files) ==> !IsNew(order, v.state.frontier);
      KeyNamesBatch(name, a, c);
    }
  }

  lemma StepKeepsVersions(name: string, max: int, w: World, step: Step)
    requires Inv(name, max, w) && Enabled(w, step)
    ensures var t := Do(name, max, w, step);
            && t.clock >= w.clock
            && VersionInv(name, max, t.visible, t.clock) && VersionInv(name, max, t.durable, t.clock)
            && VersionInv(name, max, t.memory, t.clock)
  {
    match step
    case Prepare(files, now) =>
      PreparedKeepsInv(name, max, w.memory, files, now, w.clock);
      LaterClock(name, max, w.visible, w.clock, now);
      LaterClock(name, max, w.durable, w.clock, now);
    case Bind(identities) => BindingKeepsInv(name, max, w.memory, identities, w.clock);
    case Complete(now) =>
      CompletedKeepsInv(name, max, w.memory, now, w.clock);
      LaterClock(name, max, w.visible, w.clock, now);
      LaterClock(name, max, w.durable, w.clock, now);
    case _ =>
  }

  lemma StepKeepsOrder(name: string, max: int, w: World, step: Step)
    requires Inv(name, max, w) && Enabled(w, step)
    ensures InStep(Do(name, max, w, step)) && Proper(Do(name, max, w, step).phase)
  {
  }

  lemma PrepareKeepsHistory(name: string, max: int, w: World, files: seq<ClaimFile>, now: int)
    requires Inv(name, max, w) && Enabled(w, Prepare(files, now))
    ensures HistoryInv(Do(name, max, w, Prepare(files, now)), max)
  {
    var u := Prepared(name, max, w.memory, files, now);
    PreparedKeepsInv(name, max, w.memory, files, now, w.clock);
    if u.state.claim.Some? {
      NewBatch(name, max, w.memory, w.clock, w.asked, w.completed, u.state.claim.value);
    }
    NewClaimIsKnown(w.memory, u, max, w.asked, w.completed);
  }

  lemma BindKeepsHistory(name: string, max: int, w: World, identities: seq<Identity>)
    requires Inv(name, max, w) && Enabled(w, Bind(identities))
    ensures HistoryInv(Do(name, max, w, Bind(identities)), max)
  {
    var u := Do(name, max, w, Bind(identities)).memory;
    BindingKeepsInv(name, max, w.memory, identities, w.clock);
    forall i | 0 <= i < |u.done|
      ensures u.done[i] != u.state.claim.value
    {
      PendingIsDisjoint(name, max, u, w.clock, i);
    }
    assert w.memory.state.claim.value !in w.asked;
    NewClaimIsKnown(w.memory, u, max, w.asked, w.completed);
  }

  lemma AskKeepsHistory(name: string, max: int, w: World)
    requires Inv(name, max, w) && Enabled(w, Ask)
    ensures HistoryInv(Do(name, max, w, Ask), max)
  {
    assert Bare(w.visible).state.claim == Bare(w.memory).state.claim == Bare(w.durable).state.claim;
    AskedIsKnown(w.visible, max, w.asked, w.completed);
    AskedIsKnown(w.durable, max, w.asked, w.completed);
    AskedIsKnown(w.memory, max, w.asked, w.completed);
  }

  lemma CompleteKeepsHistory(name: string, max: int, w: World, now: int)
    requires Inv(name, max, w) && Enabled(w, Complete(now))
    ensures HistoryInv(Do(name, max, w, Complete(now)), max)
  {
    assert Bare(w.visible).state.claim == Bare(w.memory).state.claim == Bare(w.durable).state.claim;
    var fires := w.completed + [Completion(w.memory.state.claim.value, now)];
    FireIsKnown(name, max, w.visible, w.clock, w.asked, w.completed, now);
    FireIsKnown(name, max, w.durable, w.clock, w.asked, w.completed, now);
    FireIsKnown(name, max, w.memory, w.clock, w.asked, w.completed, now);
    RecordedIsKnown(name, max, w.memory, w.clock, w.asked, fires, now);
  }

  lemma RearmKeepsHistory(name: string, max: int, w: World)
    requires Inv(name, max, w)
    ensures HistoryInv(Do(name, max, w, Rearm), max)
  {
    KnowsBare(w.visible, Do(name, max, w, Rearm).visible, max, w.asked, w.completed);
  }

  lemma StepKeepsHistory(name: string, max: int, w: World, step: Step)
    requires Inv(name, max, w) && Enabled(w, step)
    ensures HistoryInv(Do(name, max, w, step), max)
  {
    match step
    case Prepare(files, now) => PrepareKeepsHistory(name, max, w, files, now);
    case Bind(identities) => BindKeepsHistory(name, max, w, identities);
    case Ask => AskKeepsHistory(name, max, w);
    case Complete(now) => CompleteKeepsHistory(name, max, w, now);
    case Rearm => RearmKeepsHistory(name, max, w);
    case _ =>
  }

  lemma StepKeepsInv(name: string, max: int, w: World, step: Step)
    requires Inv(name, max, w) && Enabled(w, step)
    ensures Inv(name, max, Do(name, max, w, step))
  {
    StepKeepsVersions(name, max, w, step);
    StepKeepsOrder(name, max, w, step);
    StepKeepsHistory(name, max, w, step);
  }

  lemma {:induction false} RunKeepsInv(name: string, max: int, w: World, steps: seq<Step>)
    requires Inv(name, max, w) && Run(name, max, w, steps).Some?
    ensures Inv(name, max, Run(name, max, w, steps).value)
  {
    if steps != [] {
      RunKeepsInv(name, max, w, steps[..|steps| - 1]);
      StepKeepsInv(name, max, Run(name, max, w, steps[..|steps| - 1]).value, steps[|steps| - 1]);
    }
  }

  lemma ReachableKeepsInv(name: string, max: int, w: World)
    requires Reachable(name, max, w)
    ensures Inv(name, max, w)
  {
    var init, steps :| Init(name, max, init) && Run(name, max, init, steps) == Some(w);
    RunKeepsInv(name, max, init, steps);
  }

  // ----- what a whole run promises

  /** Every state a door saves is one its loader accepts. */
  lemma SavedStatesLoad(name: string, max: int, w: World)
    requires Reachable(name, max, w)
    ensures AcceptsState(name, w.visible.state) && AcceptsState(name, w.durable.state)
  {
    ReachableKeepsInv(name, max, w);
  }

  /** A key stands for one batch; only a claim from before content identities can share it with other contents. */
  lemma KeyNamesBatch(name: string, c: Claim, d: Claim)
    requires AcceptsClaim(name, c.from, c) && AcceptsClaim(name, d.from, d)
    ensures c.key == d.key ==> c.from == d.from && Orders(c.files) == Orders(d.files)
    ensures c.key == d.key && c.legacyCursor.None? ==> c == d
  {
  }

  /** The same batch with other contents in its first file. */
  function OtherContents(c: Claim): Claim
    requires c.files != [] && Bound(c)
  {
    var f := c.files[0];
    assert f in c.files;
    var size := if f.identity.value.size == 0 then 1 else 0;
    c.(files := c.files[0 := ClaimFile(f.order, Some(f.identity.value.(size := size)))])
  }

  lemma OtherContentsShareKey(name: string, c: Claim)
    requires AcceptsClaim(name, c.from, c) && Bound(c) && c.legacyCursor.Some?
    ensures var d := OtherContents(c); d != c && d.key == c.key && Bound(d) && AcceptsClaim(name, d.from, d)
  {
    var d := OtherContents(c);
    assert Orders(d.files) == Orders(c.files);
    assert d.files[0] != c.files[0];
    forall f | f in d.files
      ensures ValidClaimFile(f) && ValidRelativePath(f.order.path)
      ensures CompareFile(f.order, FileOrder(c.legacyCursor.value.mtime, c.legacyCursor.value.path)) > 0
    {
      var i :| 0 <= i < |d.files| && d.files[i] == f;
      assert c.files[i] in c.files && f.order == c.files[i].order;
    }
  }

  /** A key stands for one claim, contents included, exactly when the claim is not a legacy one. */
  lemma KeyDeterminesClaimIff(name: string, c: Claim)
    requires AcceptsClaim(name, c.from, c) && Bound(c)
    ensures (forall d: Claim :: AcceptsClaim(name, d.from, d) && Bound(d) && d.key == c.key ==> d == c) <==> c.legacyCursor.None?
  {
    if c.legacyCursor.Some? {
      OtherContentsShareKey(name, c);
    } else {
      forall d: Claim | AcceptsClaim(name, d.from, d) && d.key == c.key
        ensures d == c
      {
        KeyNamesBatch(name, c, d);
      }
    }
  }

  lemma OneSegment(c: char)
    requires c !in {'/', '.', '\\', '\0'}
    ensures ValidRelativePath([c])
  {
    assert [c][1..] == [];
    assert Segments([]) == [""] && [""][1..] == [];
    assert Segments([c]) == [[c] + ""] + [];
    assert [c] + "" == [c];
  }

  /** Two acceptable legacy claims on one file with different contents and one key. */
  lemma LegacyKeyIsShared(name: string) returns (c: Claim, d: Claim)
    ensures AcceptsClaim(name, c.from, c) && Bound(c) && AcceptsClaim(name, d.from, d) && Bound(d)
    ensures c.key == d.key && c != d && Orders(c.files) == Orders(d.files) == [FileOrder(1, "a")]
  {
    var cursor, sha := Cursor(0, ""), seq(64, i => '0');
    var files := [ClaimFile(FileOrder(1, "a"), Some(Identity(0, sha)))];
    assert Orders(files) == [FileOrder(1, "a")];
    assert ValidRelativePath("a") by { OneSegment('a'); }
    c := Claim(Frontier(0, [], Some("")), files, CursorKey(name, cursor, Orders(files)), Some(cursor));
    OtherContentsShareKey(name, c);
    d := OtherContents(c);
    assert Orders(d.files) == Orders(c.files);
  }

  /** No claim handed to an agent is ever forgotten: whatever power is lost, it is recorded or still pending. */
  lemma AskedClaimsAreKept(name: string, max: int, w: World, v: Version, c: Claim)
    requires Reachable(name, max, w) && v in {w.visible, w.durable} && c in w.asked
    ensures c in v.done || v.state.claim == Some(c)
  {
    ReachableKeepsInv(name, max, w);
  }

  /** Two claims ever handed to an agent are the same claim, or share no file and no key. */
  lemma AskedClaimsAreDisjoint(name: string, max: int, w: World, c: Claim, d: Claim)
    requires Reachable(name, max, w) && c in w.asked && d in w.asked
    ensures c == d || (Disjoint(c, d) && Disjoint(d, c) && c.key != d.key)
  {
    ReachableKeepsInv(name, max, w);
    var v := w.durable;
    KeyNamesBatch(name, c, d);
    assert Orders(c.files)[0] in Orders(c.files);
    if c != d {
      var i := PlaceOf(v, max, w.asked, w.completed, c);
      var j := PlaceOf(v, max, w.asked, w.completed, d);
      PlacesAreDisjoint(name, max, v, w.clock, i, j);
    }
  }

  /** The claims a version records, with the pending one last. */
  function Places(v: Version): seq<Claim> {
    v.done + (if v.state.claim.Some? then [v.state.claim.value] else [])
  }

  lemma PlaceOf(v: Version, max: int, asked: seq<Claim>, completed: seq<Completion>, c: Claim) returns (i: nat)
    requires Knows(v, max, asked, completed) && c in asked
    ensures i < |Places(v)| && Places(v)[i] == c
  {
    if c in v.done {
      i :| 0 <= i < |v.done| && v.done[i] == c;
    } else {
      i := |v.done|;
    }
  }

  lemma PlacesAreDisjoint(name: string, max: int, v: Version, clock: int, i: nat, j: nat)
    requires VersionInv(name, max, v, clock) && i < |Places(v)| && j < |Places(v)| && i != j
    ensures Disjoint(Places(v)[i], Places(v)[j])
  {
    var lo, hi := if i < j then i else j, if i < j then j else i;
    if hi == |v.done| { PendingIsDisjoint(name, max, v, clock, lo); }
    assert Disjoint(Places(v)[lo], Places(v)[hi]);
  }

  /** Each (path, mtime) pair is in at most one claim completed in the whole run, and in at most one an agent saw. */
  lemma FilesAreClaimedOnce(name: string, max: int, w: World, f: Completion, g: Completion, file: FileOrder)
    requires Reachable(name, max, w) && f in w.completed && g in w.completed
    requires file in Orders(f.claim.files) && file in Orders(g.claim.files)
    ensures f.claim == g.claim && f.claim in w.asked
  {
    ReachableKeepsInv(name, max, w);
    AskedClaimsAreDisjoint(name, max, w, f.claim, g.claim);
  }

  /** Two completions under one key are of one claim, and that claim is recorded or still pending. */
  lemma CompletedKeysDiffer(name: string, max: int, w: World, f: Completion, g: Completion)
    requires Reachable(name, max, w) && f in w.completed && g in w.completed
    ensures f.claim.key == g.claim.key <==> f.claim == g.claim
    ensures f.claim in w.durable.done || w.durable.state.claim == Some(f.claim)
  {
    ReachableKeepsInv(name, max, w);
    AskedClaimsAreDisjoint(name, max, w, f.claim, g.claim);
  }

  /** A newly prepared batch was in no earlier claim, and no agent was ever asked under its key. */
  lemma NewBatchIsFresh(name: string, max: int, w: World, files: seq<ClaimFile>, now: int, c: Claim)
    requires Reachable(name, max, w) && Enabled(w, Prepare(files, now)) && c in w.asked
    ensures var claim := Do(name, max, w, Prepare(files, now)).memory.state.claim;
            claim.Some? ==> claim.value.files == files && claim.value.key != c.key && Disjoint(c, claim.value)
  {
    ReachableKeepsInv(name, max, w);
    var u := Prepared(name, max, w.memory, files, now);
    PreparedKeepsInv(name, max, w.memory, files, now, w.clock);
    if u.state.claim.Some? {
      NewBatch(name, max, w.memory, w.clock, w.asked, w.completed, u.state.claim.value);
    }
  }

  /** A pending claim shares its key with a claim handed to an agent only if it is that claim. */
  lemma PendingKeyIsFresh(name: string, max: int, w: World, v: Version, c: Claim)
    requires Reachable(name, max, w) && v in {w.visible, w.durable} && v.state.claim.Some? && c in w.asked
    ensures v.state.claim.value.key == c.key <==> v.state.claim.value == c
  {
    ReachableKeepsInv(name, max, w);
    var p := v.state.claim.value;
    if p != c {
      var i := PlaceOf(v, max, w.asked, w.completed, c);
      PlacesAreDisjoint(name, max, v, w.clock, i, |v.done|);
      KeyNamesBatch(name, p, c);
      assert Orders(p.files)[0] in Orders(p.files);
    }
  }

  /** A door that is about to claim pauses exactly when the last hour already holds `max` of its recorded fires. */
  lemma PausesIff(name: string, max: int, w: World, files: seq<ClaimFile>, now: int)
    requires Reachable(name, max, w) && Enabled(w, Prepare(files, now)) && w.memory.state.paused.None?
    ensures var p, fires := Do(name, max, w, Prepare(files, now)).memory.state, w.memory.state.fires;
            && (p.paused.Some? <==> max <= 0 || (|fires| >= max && now - fires[|fires| - max] < 3_600_000))
            && (p.claim.Some? <==> p.paused.None?)
  {
    ReachableKeepsInv(name, max, w);
    var v := w.memory;
    assert forall i :: 0 <= i < |v.state.fires| ==> v.state.fires[i] == v.times[|v.times| - |v.state.fires| + i];
    if max > 0 { RecentReaches(v.state.fires, now, max); }
  }

  // ----- the rate over a whole run

  /** The claims completed, at least once, in one hour of milliseconds. */
  ghost function FiredIn(completed: seq<Completion>, start: int): set<Claim> {
    set i | 0 <= i < |completed| && start <= completed[i].time < start + 3_600_000 :: completed[i].claim
  }

  /** Two claims completed in one hour are fewer than `max` places apart. */
  lemma FiredNearby(name: string, max: int, w: World, f: Completion, g: Completion, i: nat, j: nat)
    requires Inv(name, max, w) && f in w.completed && g in w.completed
    requires i < |Places(w.durable)| && j < |Places(w.durable)|
    requires Places(w.durable)[i] == f.claim && Places(w.durable)[j] == g.claim && i <= j
    requires g.time - f.time < WINDOW_MS
    ensures max > 0 && j - i < max
  {
    var v := w.durable;
    assert FireKnown(v, max, f) && FireKnown(v, max, g);
    assert Spaced(v.times, j, max, g.time);
    if i < |v.done| { assert f.time <= v.times[i]; }
  }

  /** A set of elements standing at fewer than `n` consecutive places has at most `n` elements. */
  lemma {:induction false} FewPlaces(all: seq<Claim>, chosen: set<Claim>, lo: nat, n: nat)
    requires forall c :: c in chosen ==> exists i :: lo <= i < lo + n && i < |all| && all[i] == c
    ensures |chosen| <= n
  {
    if n == 0 {
      assert chosen == {};
    } else {
      var k := lo + n - 1;
      var rest := if k < |all| then chosen - {all[k]} else chosen;
      forall c | c in rest
        ensures exists i :: lo <= i < lo + (n - 1) && i < |all| && all[i] == c
      {
        var i :| lo <= i < lo + n && i < |all| && all[i] == c;
        assert i != k;
      }
      FewPlaces(all, rest, lo, n - 1);
      assert chosen <= rest + (if k < |all| then {all[k]} else {});
    }
  }

  /** The earliest place of a claim completed in the window. */
  lemma {:induction false} FirstPlace(all: seq<Claim>, chosen: set<Claim>, n: nat) returns (lo: nat)
    requires n <= |all| && exists i :: n <= i < |all| && all[i] in chosen
    ensures n <= lo < |all| && all[lo] in chosen && forall i :: n <= i < lo ==> all[i] !in chosen
    decreases |all| - n
  {
    if all[n] in chosen {
      lo := n;
    } else {
      lo := FirstPlace(all, chosen, n + 1);
    }
  }

  lemma FiredHasFire(completed: seq<Completion>, start: int, c: Claim) returns (f: Completion)
    requires c in FiredIn(completed, start)
    ensures f in completed && f.claim == c && start <= f.time < start + WINDOW_MS
  {
    var i :| 0 <= i < |completed| && start <= completed[i].time < start + WINDOW_MS && completed[i].claim == c;
    f := completed[i];
  }

  lemma FiredNearFirst(name: string, max: int, w: World, start: int, lo: nat, d: Claim)
    requires Inv(name, max, w) && d in FiredIn(w.completed, start) && lo < |Places(w.durable)|
    requires Places(w.durable)[lo] in FiredIn(w.completed, start)
    requires forall i :: 0 <= i < lo ==> Places(w.durable)[i] !in FiredIn(w.completed, start)
    ensures max > 0 && exists j :: lo <= j < lo + max && j < |Places(w.durable)| && Places(w.durable)[j] == d
  {
    var f := FiredHasFire(w.completed, start, Places(w.durable)[lo]);
    var g := FiredHasFire(w.completed, start, d);
    var j := PlaceOf(w.durable, max, w.asked, w.completed, d);
    FiredNearby(name, max, w, f, g, lo, j);
  }

  lemma FiredHasPlace(max: int, w: World, start: int, c: Claim)
    requires HistoryInv(w, max) && c in FiredIn(w.completed, start)
    ensures exists i :: 0 <= i < |Places(w.durable)| && Places(w.durable)[i] == c
  {
    var f := FiredHasFire(w.completed, start, c);
    var i := PlaceOf(w.durable, max, w.asked, w.completed, c);
  }

  /**
   * With a clock that does not go back, at most `max` different claims are completed in
   * any hour of the whole run, counting completions whose save was lost as well.
   */
  lemma AtMostMaxFiresPerWindow(name: string, max: int, w: World, start: int)
    requires Reachable(name, max, w)
    ensures |FiredIn(w.completed, start)| <= if max > 0 then max else 0
  {
    ReachableKeepsInv(name, max, w);
    var fired, all := FiredIn(w.completed, start), Places(w.durable);
    if fired != {} {
      var c :| c in fired;
      FiredHasPlace(max, w, start, c);
      var lo := FirstPlace(all, fired, 0);
      FiredNearFirst(name, max, w, start, lo, c);
      forall d | d in fired
        ensures exists j :: lo <= j < lo + max && j < |all| && all[j] == d
      {
        FiredNearFirst(name, max, w, start, lo, d);
      }
      FewPlaces(all, fired, lo, max);
    }
  }
}
