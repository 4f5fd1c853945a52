/**
 * `door` as it runs: scan, claim, launch, advance, with a save between the steps.
 * The object keeps the list of `DoorRun` steps it has taken, so every call is part
 * of a run that module reasons about.
 */
module Door {
  import opened Wrappers
  import opened Paths
  import opened DoorState
  import opened DoorRun

  /** How far one save gets: not published, published but not synced, or durable. */
  datatype Save = NotPublished | NotSynced | Saved

  datatype Receipt = DurableReceipt | Retryable | Indeterminate

  datatype Outcome = NothingNew | AlreadyPaused | PausedNow | ChangedFiles | HeldBack | Fired(claim: Claim) | SaveFailed

  // ----- the sort of `scan`

  function Placed(files: seq<ClaimFile>, f: ClaimFile): seq<ClaimFile> {
    if files == [] || CompareFile(f.order, files[0].order) < 0 then [f] + files
    else [files[0]] + Placed(files[1..], f)
  }

  lemma CompareTransitive(a: FileOrder, b: FileOrder, c: FileOrder)
    requires CompareFile(a, b) < 0 && CompareFile(b, c) < 0
    ensures CompareFile(a, c) < 0
  {
    if a.mtime == b.mtime == c.mtime { LessTransitive(a.path, b.path, c.path); }
  }

  lemma CompareTotal(a: FileOrder, b: FileOrder)
    requires a.path != b.path
    ensures CompareFile(a, b) < 0 || CompareFile(b, a) < 0
  {
    LessTotal(a.path, b.path);
  }

  lemma ConsSorts(f: ClaimFile, rest: seq<ClaimFile>)
    requires Sorted(Orders(rest)) && DistinctPaths(Orders(rest))
    requires rest == [] || CompareFile(f.order, rest[0].order) < 0
    requires forall g :: g in rest ==> g.order.path != f.order.path
    ensures Sorted(Orders([f] + rest)) && DistinctPaths(Orders([f] + rest))
  {
    var all := [f] + rest;
    assert Orders(all) == [f.order] + Orders(rest);
    assert forall i :: 0 <= i < |rest| ==> rest[i] in rest;
    assert forall i :: 1 <= i < |rest| ==> CompareFile(Orders(rest)[i - 1], Orders(rest)[i]) < 0;
  }

  lemma TailSorts(files: seq<ClaimFile>)
    requires files != [] && Sorted(Orders(files)) && DistinctPaths(Orders(files))
    ensures Sorted(Orders(files[1..])) && DistinctPaths(Orders(files[1..]))
    ensures |files| > 1 ==> CompareFile(files[0].order, files[1].order) < 0
    ensures forall g :: g in files[1..] ==> g.order.path != files[0].order.path
  {
    var rest := files[1..];
    assert forall i :: 0 <= i < |rest| ==> Orders(rest)[i] == Orders(files)[i + 1];
    assert |files| > 1 ==> CompareFile(Orders(files)[1 - 1], Orders(files)[1]) < 0;
    forall g | g in rest
      ensures g.order.path != files[0].order.path
    {
      var k :| 0 <= k < |rest| && rest[k] == g;
      assert Orders(files)[0].path != Orders(files)[k + 1].path;
    }
  }

  lemma {:induction false} PlacedSorts(files: seq<ClaimFile>, f: ClaimFile)
    requires Sorted(Orders(files)) && DistinctPaths(Orders(files))
    requires forall g :: g in files ==> g.order.path != f.order.path
    ensures Sorted(Orders(Placed(files, f))) && DistinctPaths(Orders(Placed(files, f)))
    ensures forall g :: g in Placed(files, f) <==> g in files || g == f
    ensures |Placed(files, f)| > 0
    ensures Placed(files, f)[0] == if files == [] || CompareFile(f.order, files[0].order) < 0 then f else files[0]
  {
    if files == [] || CompareFile(f.order, files[0].order) < 0 {
      ConsSorts(f, files);
    } else {
      TailSorts(files);
      assert files == [files[0]] + files[1..];
      CompareTotal(f.order, files[0].order);
      PlacedSorts(files[1..], f);
      ConsSorts(files[0], Placed(files[1..], f));
    }
  }

  lemma {:induction false} SortedPair(files: seq<FileOrder>, i: nat, j: nat)
    requires Sorted(files) && i < j < |files|
    ensures CompareFile(files[i], files[j]) < 0
    decreases j
  {
    assert CompareFile(files[j - 1], files[j]) < 0;
    if i < j - 1 {
      SortedPair(files, i, j - 1);
      CompareTransitive(files[i], files[j - 1], files[j]);
    }
  }

  lemma SnocSorts(files: seq<ClaimFile>, f: ClaimFile)
    requires Sorted(Orders(files)) && DistinctPaths(Orders(files))
    requires files != [] ==> CompareFile(files[|files| - 1].order, f.order) < 0
    requires forall g :: g in files ==> g.order.path != f.order.path
    ensures Sorted(Orders(files + [f])) && DistinctPaths(Orders(files + [f]))
  {
    assert Orders(files + [f]) == Orders(files) + [f.order];
    assert forall i :: 0 <= i < |files| ==> files[i] in files;
    assert forall i :: 1 <= i < |files| ==> CompareFile(Orders(files)[i - 1], Orders(files)[i]) < 0;
  }

  /** What a directory listing yields: each path once, every entry readable. */
  predicate Listing(files: seq<ClaimFile>) {
    && (forall f :: f in files ==> ValidClaimFile(f) && ValidRelativePath(f.order.path))
    && forall i, j :: 0 <= i < j < |files| ==> files[i].order.path != files[j].order.path
  }

  /** `scan`: keep the new files, sort them, then apply the caller's filter. */
  method Scan(listing: seq<ClaimFile>, frontier: Frontier, keep: ClaimFile -> bool) returns (matched: seq<ClaimFile>)
    requires Listing(listing)
    ensures Scanned(matched, frontier)
    ensures forall f :: f in matched <==> f in listing && IsNew(f.order, frontier) && keep(f)
  {
    var sorted: seq<ClaimFile> := [];
    for i := 0 to |listing|
      invariant Sorted(Orders(sorted)) && DistinctPaths(Orders(sorted))
      invariant forall f :: f in sorted <==> f in listing[..i] && IsNew(f.order, frontier)
    {
      assert listing[..i + 1] == listing[..i] + [listing[i]];
      if IsNew(listing[i].order, frontier) {
        forall g | g in sorted
          ensures g.order.path != listing[i].order.path
        {
          var k :| 0 <= k < i && listing[k] == g;
        }
        PlacedSorts(sorted, listing[i]);
        sorted := Placed(sorted, listing[i]);
      }
    }
    assert listing[..|listing|] == listing;
    matched := [];
    ghost var last := -1;
    for i := 0 to |sorted|
      invariant -1 <= last < i
      invariant if matched == [] then last == -1 else last >= 0 && matched[|matched| - 1] == sorted[last]
      invariant Sorted(Orders(matched)) && DistinctPaths(Orders(matched))
      invariant forall f :: f in matched <==> f in sorted[..i] && keep(f)
    {
      assert sorted[..i + 1] == sorted[..i] + [sorted[i]];
      if keep(sorted[i]) {
        if matched != [] { SortedPair(Orders(sorted), last, i); }
        forall g | g in matched
          ensures g.order.path != sorted[i].order.path
        {
          var k :| 0 <= k < i && sorted[k] == g;
          assert Orders(sorted)[k].path != Orders(sorted)[i].path;
        }
        SnocSorts(matched, sorted[i]);
        matched := matched + [sorted[i]];
        last := i;
      }
    }
    assert sorted[..|sorted|] == sorted;
  }

  /** From one frontier to the next exactly the files up to a batch's last moment stop being new. */
  ghost predicate ClosesExactly(before: Frontier, after: Frontier, batch: seq<FileOrder>) {
    && batch != []
    && var m := batch[|batch| - 1].mtime;
       forall file :: IsNew(file, after) <==>
                        IsNew(file, before) && (file.mtime > m || (file.mtime == m && file !in batch))
  }

  /** Some listed file is new and wanted. */
  ghost predicate SomeNew(listing: seq<ClaimFile>, frontier: Frontier, keep: ClaimFile -> bool) {
    exists f :: f in listing && IsNew(f.order, frontier) && keep(f)
  }

  /** `door` comes to have a claim: the pending one, or a new one within the fire limit whose save succeeds. */
  ghost predicate TakenUp(s: DoorState, max: int, listing: seq<ClaimFile>, keep: ClaimFile -> bool, now: int, save: Save) {
    && s.paused.None?
    && (s.claim.Some? || (SomeNew(listing, s.frontier, keep) && |Recent(s.fires, now)| < max && save.Saved?))
  }

  /** An old claim can be given the content of its files; any other has it already. */
  predicate CanBind(pending: Option<Claim>, identities: Option<seq<Identity>>) {
    pending.Some? && !Bound(pending.value) ==> identities.Some? && Binds(pending.value, identities.value)
  }

  predicate NeedsBinding(pending: Option<Claim>) {
    pending.Some? && !Bound(pending.value)
  }

  class DoorStore {
    const name: string
    const max: int
    var visible: DoorState
    var durable: DoorState
    ghost var world: World
    ghost var steps: seq<Step>
    ghost const origin: World

    ghost predicate Valid()
      reads this
    {
      && Init(name, max, origin) && Run(name, max, origin, steps) == Some(world)
      && visible == world.visible.state && durable == world.durable.state
    }

    constructor (name: string, max: int)
      ensures Valid() && this.name == name && this.max == max && world.phase.Idle?
      ensures visible == durable == DoorState(Frontier(0, [], None), [], None, None)
      ensures world.asked == [] && world.completed == []
    {
      var empty := DoorState(Frontier(0, [], None), [], None, None);
      this.name, this.max, visible, durable := name, max, empty, empty;
      ghost var v := Version(empty, [], []);
      origin := World(v, v, v, Idle, 0, [], []);
      world, steps := World(v, v, v, Idle, 0, [], []), [];
      new;
    }

    /** Records that what was just done is `step` of the protocol. */
    ghost method Took(step: Step)
      requires Init(name, max, origin) && Run(name, max, origin, steps) == Some(world) && Enabled(world, step)
      requires visible == Do(name, max, world, step).visible.state && durable == Do(name, max, world, step).durable.state
      modifies this`world, this`steps
      ensures Valid() && world == Do(name, max, old(world), step)
    {
      assert (steps + [step])[..|steps|] == steps;
      world, steps := Do(name, max, world, step), steps + [step];
    }

    lemma Invariant()
      requires Valid()
      ensures Inv(name, max, world) && Reachable(name, max, world)
    {
      assert Run(name, max, origin, steps) == Some(world);
      ReachableKeepsInv(name, max, world);
    }

    /** What a save leaves alone: everything but the saved copies. */
    ghost predicate SameHistory(before: World)
      reads this
    {
      world.asked == before.asked && world.completed == before.completed && world.clock == before.clock
    }

    /** `saveState`: publish under the final name, then sync; a crash may fall before, between or after. */
    method SaveState(state: DoorState, save: Save) returns (ok: bool)
      requires Valid() && world.phase.Saving? && state == world.memory.state
      modifies this
      ensures Valid() && ok == save.Saved? && world.memory == old(world).memory && SameHistory(old(world))
      ensures visible == if save.NotPublished? then old(visible) else state
      ensures durable == if ok then state else old(durable)
      ensures ok ==> world.visible == world.durable == world.memory
      ensures world.phase == if ok then old(world).phase.next else Idle
    {
      if save.NotPublished? {
        Took(Exit);
        return false;
      }
      visible := state;
      Took(Rename);
      if save.NotSynced? {
        Took(Exit);
        return false;
      }
      durable := visible;
      Took(Sync);
      return true;
    }

    /**
     * `prepareClaim`: nothing, a pause at the fire limit, or a saved claim on exactly the
     * new matching files. A save that fails leaves the durable state as it was.
     */
    method PrepareClaim(state: DoorState, listing: seq<ClaimFile>, keep: ClaimFile -> bool, now: int, save: Save)
      returns (prepared: DoorState, early: Option<Outcome>)
      requires Valid() && world.phase.Deciding? && state == world.memory.state && state.claim.None?
      requires Listing(listing) && now >= world.clock
      modifies this
      ensures Valid() && world.asked == old(world).asked && world.completed == old(world).completed && world.clock <= now
      ensures early.Some? ==> world.phase.Idle? && (early.value.NothingNew? || early.value.PausedNow? || early.value.SaveFailed?)
      ensures prepared.frontier == state.frontier
      ensures early == Some(NothingNew) <==> !SomeNew(listing, state.frontier, keep)
      ensures early == Some(PausedNow) <==> SomeNew(listing, state.frontier, keep) && |Recent(state.fires, now)| >= max && save.Saved?
      ensures early.None? <==> SomeNew(listing, state.frontier, keep) && |Recent(state.fires, now)| < max && save.Saved?
      ensures early == Some(NothingNew) ==> visible == old(visible) && durable == old(durable)
      ensures early == Some(PausedNow) ==>
                visible == durable == prepared && prepared.paused.Some? && prepared.claim.None?
      ensures early == Some(SaveFailed) ==>
                durable == old(durable) && (visible == old(visible) || visible.frontier == state.frontier)
      ensures early.None? ==>
                && visible == durable == prepared == world.memory.state && world.phase == DoorRun.Ready
                && prepared.claim.Some? && prepared.claim.value.legacyCursor.None? && prepared.paused == state.paused
                && prepared.fires == Recent(state.fires, now)
                && (forall f :: f in prepared.claim.value.files <==> f in listing && IsNew(f.order, state.frontier) && keep(f))
    {
      prepared := state;
      var matched := Scan(listing, state.frontier, keep);
      assert matched != [] ==> matched[0] in matched;
      if matched == [] {
        Took(Exit);
        return prepared, Some(NothingNew);
      }
      prepared := prepared.(fires := Recent(prepared.fires, now));
      if |prepared.fires| >= max {
        prepared := prepared.(paused := Some("fire limit hit"));
        Took(Prepare(matched, now));
        var ok := SaveState(prepared, save);
        return prepared, Some(if ok then PausedNow else SaveFailed);
      }
      prepared := prepared.(claim := Some(Claim(prepared.frontier, matched, FrontierKey(name, prepared.frontier, matched), None)));
      Took(Prepare(matched, now));
      var ok := SaveState(prepared, save);
      return prepared, if ok then None else Some(SaveFailed);
    }

    /**
     * `bindLegacyClaimIdentity`: gives an old claim the content it is about to be launched
     * on, or refuses it; either way the claim stays on the same files.
     */
    method BindLegacyClaim(state: DoorState, identities: Option<seq<Identity>>, save: Save)
      returns (bound: DoorState, early: Option<Outcome>)
      requires Valid() && world.phase == DoorRun.Ready && visible == durable == state == world.memory.state && state.claim.Some?
      modifies this
      ensures Valid() && SameHistory(old(world))
      ensures early.Some? ==> world.phase.Idle? && (early.value.ChangedFiles? || early.value.SaveFailed?)
      ensures StillClaims(visible, state) && StillClaims(durable, state)
      ensures early.None? ==>
                && world.phase == DoorRun.Ready && visible == durable == bound == world.memory.state && Launchable(world.memory)
                && (state.claim.value.legacyCursor.None? ==> bound == state)
      ensures early.Some? ==> durable == old(durable)
      ensures early == Some(ChangedFiles) <==> !CanBind(state.claim, identities)
      ensures early.None? <==> CanBind(state.claim, identities) && (NeedsBinding(state.claim) ==> save.Saved?)
      ensures early == Some(ChangedFiles) ==> visible == old(visible)
    {
      Invariant();
      bound := state;
      var claim := state.claim.value;
      if Bound(claim) { return bound, None; }
      if identities.None? || !Binds(claim, identities.value) {
        Took(Exit);
        return bound, Some(ChangedFiles);
      }
      bound := state.(claim := Some(BoundClaim(claim, identities.value)));
      BindingKeepsInv(name, max, world.memory, identities.value, world.clock);
      Took(Bind(identities.value));
      assert Orders(bound.claim.value.files) == Orders(claim.files);
      var ok := SaveState(bound, save);
      return bound, if ok then None else Some(SaveFailed);
    }

    /** The same frontier, and a pending claim on the same files. */
    ghost predicate StillClaims(s: DoorState, before: DoorState) {
      && s.frontier == before.frontier && s.claim.Some? && before.claim.Some?
      && Orders(s.claim.value.files) == Orders(before.claim.value.files)
    }

    /**
     * The part of `door` after a durable receipt: one fire, one advance, one save. If the
     * save fails, the durable state still has the claim.
     */
    method CompleteClaim(state: DoorState, now: int, save: Save) returns (r: Outcome)
      requires Valid() && world.phase == DoorRun.Ready && visible == durable == state == world.memory.state && Launchable(world.memory)
      requires state.claim.value in world.asked && now >= world.clock
      modifies this
      ensures Valid() && world.phase.Idle? && (r.Fired? || r.SaveFailed?) && world.asked == old(world).asked
      ensures world.completed == old(world).completed + [Completion(state.claim.value, now)]
      ensures r.Fired? <==> save.Saved?
      ensures Closed(visible, state, now) || visible == state
      ensures r.Fired? ==> r.claim == state.claim.value && visible == durable && Closed(durable, state, now)
      ensures r.SaveFailed? ==> durable == state
    {
      Invariant();
      var claim := state.claim.value;
      ClaimedFilesAreNew(name, state.frontier, claim);
      assert Orders(claim.files)[|claim.files| - 1] in Orders(claim.files);
      var after := state.(fires := state.fires + [now],
                          frontier := AdvanceFrontier(claim.from, Orders(claim.files)),
                          claim := None);
      Took(Complete(now));
      forall file { ExactNovelty(claim.from, Orders(claim.files), file); }
      assert Closed(after, state, now);
      var ok := SaveState(after, save);
      return if ok then Fired(claim) else SaveFailed;
    }

    /** The pending claim of `before` is off, one fire is recorded, and exactly the claimed files are closed. */
    ghost predicate Closed(s: DoorState, before: DoorState, now: int) {
      && before.claim.Some? && s.claim.None? && s.fires == before.fires + [now]
      && ClosesExactly(before.frontier, s.frontier, Orders(before.claim.value.files))
    }

    /** The claim `door` works on: the pending one, or a new one on exactly the new matching files. */
    ghost predicate ClaimFor(claim: Claim, pending: Option<Claim>, from: Frontier, listing: seq<ClaimFile>, keep: ClaimFile -> bool) {
      match pending
      case Some(c) => Orders(claim.files) == Orders(c.files)
      case None => forall f :: f in claim.files <==> f in listing && IsNew(f.order, from) && keep(f)
    }

    /**
     * The first half of `door`: take the lock, which makes the state durable, load it, and
     * take up the pending claim or make one.
     */
    method TakeUpClaim(listing: seq<ClaimFile>, keep: ClaimFile -> bool, now: int, save: Save)
      returns (state: DoorState, early: Option<Outcome>)
      requires Valid() && world.phase.Idle? && Listing(listing) && world.clock <= now
      modifies this
      ensures Valid() && world.clock <= now && world.asked == old(world).asked && world.completed == old(world).completed
      ensures early.Some? ==> world.phase.Idle? && !early.value.Fired? && !early.value.HeldBack? && !early.value.ChangedFiles?
      ensures early == Some(AlreadyPaused) <==> old(visible).paused.Some?
      ensures early.None? <==> TakenUp(old(visible), max, listing, keep, now, save)
      ensures early == Some(NothingNew) <==>
                old(visible).paused.None? && old(visible).claim.None? && !SomeNew(listing, old(visible).frontier, keep)
      ensures early == Some(PausedNow) <==>
                && old(visible).paused.None? && old(visible).claim.None? && SomeNew(listing, old(visible).frontier, keep)
                && |Recent(old(visible).fires, now)| >= max && save.Saved?
      ensures early == Some(AlreadyPaused) || early == Some(NothingNew) ==> visible == durable == old(visible)
      ensures early == Some(PausedNow) ==>
                visible == durable && durable.paused.Some? && durable.claim.None? && durable.frontier == old(visible).frontier
      ensures early == Some(SaveFailed) ==>
                durable == old(visible) && old(visible).claim.None? && visible.frontier == old(visible).frontier
      ensures early.None? ==>
                && world.phase == DoorRun.Ready && visible == durable == state == world.memory.state && state.claim.Some?
                && state.frontier == old(visible).frontier
                && ClaimFor(state.claim.value, old(visible).claim, old(visible).frontier, listing, keep)
                && (if old(visible).claim.Some? then state.claim == old(visible).claim else state.claim.value.legacyCursor.None?)
    {
      durable := visible;
      Took(Lock);
      state := visible;
      if state.paused.Some? {
        Took(Exit);
        return state, Some(AlreadyPaused);
      }
      Took(Load);
      early := None;
      if state.claim.None? {
        state, early := PrepareClaim(state, listing, keep, now, save);
      } else {
        Took(Resume);
      }
    }

    /** The second half of `door`: no agent on changed files, no completion without a durable receipt. */
    method LaunchClaim(state: DoorState, filesUnchanged: bool, receipt: Receipt, later: int, save: Save) returns (r: Outcome)
      requires Valid() && world.phase == DoorRun.Ready && visible == durable == state == world.memory.state
      requires Launchable(world.memory) && world.clock <= later
      modifies this
      ensures Valid() && world.phase.Idle?
      ensures r.ChangedFiles? <==> !filesUnchanged
      ensures r.HeldBack? <==> filesUnchanged && !receipt.DurableReceipt?
      ensures r.Fired? <==> filesUnchanged && receipt.DurableReceipt? && save.Saved?
      ensures r.ChangedFiles? || r.HeldBack? || r.Fired? || r.SaveFailed?
      ensures world.asked == old(world).asked + if filesUnchanged then [state.claim.value] else []
      ensures world.completed == old(world).completed +
                if filesUnchanged && receipt.DurableReceipt? then [Completion(state.claim.value, later)] else []
      ensures r.Fired? ==> r.claim == state.claim.value && visible == durable && Closed(durable, state, later)
      ensures !r.Fired? ==> durable == state
      ensures r.HeldBack? || r.ChangedFiles? ==> visible == state
    {
      if !filesUnchanged {
        Took(Exit);
        return ChangedFiles;
      }
      Took(Ask);
      if !receipt.DurableReceipt? {
        Took(Exit);
        return HeldBack;
      }
      r := CompleteClaim(state, later, save);
    }

    /** A claim that stands for what `door` was to work on is still pending, and the frontier has not moved. */
    ghost predicate Waits(s: DoorState, before: DoorState, listing: seq<ClaimFile>, keep: ClaimFile -> bool) {
      && s.frontier == before.frontier && s.claim.Some?
      && Covered(Orders(s.claim.value.files), before, listing, keep)
    }

    /** These files are those of the pending claim, or exactly the new matching ones. */
    ghost predicate Covered(orders: seq<FileOrder>, before: DoorState, listing: seq<ClaimFile>, keep: ClaimFile -> bool) {
      exists claim: Claim :: Orders(claim.files) == orders && ClaimFor(claim, before.claim, before.frontier, listing, keep)
    }

    /** Everything before the launch goes well: a claim is taken up, bound if need be, and its files are unchanged. */
    ghost predicate Launches(s: DoorState, listing: seq<ClaimFile>, keep: ClaimFile -> bool, now: int,
                             identities: Option<seq<Identity>>, filesUnchanged: bool, saves: (Save, Save, Save)) {
      && TakenUp(s, max, listing, keep, now, saves.0)
      && CanBind(s.claim, identities) && (NeedsBinding(s.claim) ==> saves.1.Saved?)
      && filesUnchanged
    }

    /**
     * `door`. An agent is asked exactly when a claim was taken up and its files are as
     * they were claimed; the claim leaves the state exactly on a durable receipt whose
     * save succeeds. Every other outcome keeps the durable frontier, and with it every
     * file, where it was, and what is on disk keeps the claim unless nothing was claimed.
     */
    method Fire(listing: seq<ClaimFile>, keep: ClaimFile -> bool, now: int, later: int,
                identities: Option<seq<Identity>>, filesUnchanged: bool, receipt: Receipt,
                saves: (Save, Save, Save))
      returns (r: Outcome)
      requires Valid() && world.phase.Idle? && Listing(listing) && world.clock <= now <= later
      modifies this
      ensures Valid() && world.phase.Idle?
      ensures r.AlreadyPaused? <==> old(visible).paused.Some?
      ensures r.NothingNew? <==>
                old(visible).paused.None? && old(visible).claim.None? && !SomeNew(listing, old(visible).frontier, keep)
      ensures r.PausedNow? <==>
                && old(visible).paused.None? && old(visible).claim.None? && SomeNew(listing, old(visible).frontier, keep)
                && |Recent(old(visible).fires, now)| >= max && saves.0.Saved?
      ensures r.ChangedFiles? <==>
                && TakenUp(old(visible), max, listing, keep, now, saves.0)
                && if CanBind(old(visible).claim, identities) then !filesUnchanged && (NeedsBinding(old(visible).claim) ==> saves.1.Saved?)
                   else true
      ensures r.HeldBack? <==>
                Launches(old(visible), listing, keep, now, identities, filesUnchanged, saves) && !receipt.DurableReceipt?
      ensures r.Fired? <==>
                && Launches(old(visible), listing, keep, now, identities, filesUnchanged, saves)
                && receipt.DurableReceipt? && saves.2.Saved?
      ensures if Launches(old(visible), listing, keep, now, identities, filesUnchanged, saves)
              then exists c :: world.asked == old(world).asked + [c] && ClaimFor(c, old(visible).claim, old(visible).frontier, listing, keep)
              else world.asked == old(world).asked
      ensures if Launches(old(visible), listing, keep, now, identities, filesUnchanged, saves) && receipt.DurableReceipt?
              then world.completed == old(world).completed + [Completion(world.asked[|world.asked| - 1], later)]
              else world.completed == old(world).completed
      ensures r.AlreadyPaused? || r.NothingNew? ==> visible == durable == old(visible)
      ensures r.Fired? ==>
                && visible == durable && durable.claim.None? && r.claim == world.asked[|world.asked| - 1]
                && ClosesExactly(old(visible).frontier, durable.frontier, Orders(r.claim.files))
      ensures r.HeldBack? || r.ChangedFiles? ==>
                Waits(visible, old(visible), listing, keep) && Waits(durable, old(visible), listing, keep)
      ensures !r.Fired? ==> durable.frontier == old(visible).frontier
      ensures r.SaveFailed? ==> durable == old(visible) || Waits(durable, old(visible), listing, keep)
    {
      var state, early := TakeUpClaim(listing, keep, now, saves.0);
      if early.Some? { return early.value; }
      ghost var taken := state;
      state, early := BindLegacyClaim(state, identities, saves.1);
      assert ClaimFor(taken.claim.value, old(visible).claim, old(visible).frontier, listing, keep);
      assert Covered(Orders(taken.claim.value.files), old(visible), listing, keep);
      if early.Some? { return early.value; }
      assert ClaimFor(state.claim.value, old(visible).claim, old(visible).frontier, listing, keep);
      r := LaunchClaim(state, filesUnchanged, receipt, later, saves.2);
    }
  }
}
