/**
 * One Door together with the Agent Run receipts of all its keys. The agent of a key
 * is claimed only after the door asked for that key, and a claim is completed only on
 * a conclusive receipt; a power loss hits door and receipts at once.
 */
module Launches {
  import opened Wrappers
  import opened DoorState
  import D = DoorRun
  import A = AgentRun

  const FRESH := A.State(None, None, map[], 0)

  function RunOf(runs: map<Key, A.State>, key: Key): A.State {
    if key in runs then runs[key] else FRESH
  }

  datatype System = System(door: D.World, runs: map<Key, A.State>)

  datatype Step =
    | DoorTakes(step: D.Step)
    | RunTakes(key: Key, pid: A.Pid, taken: A.Step)
    | PowerLoss

  ghost predicate Asked(asked: seq<Claim>, key: Key) {
    exists i :: 0 <= i < |asked| && asked[i].key == key
  }

  ghost predicate Enabled(s: System, step: Step) {
    match step
    case DoorTakes(step) =>
      && D.Enabled(s.door, step) && !step.PowerLoss?
      && (step.Complete? ==> A.ShowsConclusive(RunOf(s.runs, s.door.memory.state.claim.value.key).visible))
    case RunTakes(key, pid, step) =>
      && Asked(s.door.asked, key) && !step.PowerLoss?
      && A.Enabled(RunOf(s.runs, key), pid, step)
    case PowerLoss => true
  }

  ghost function Do(name: string, max: int, s: System, step: Step): System
    requires Enabled(s, step)
  {
    match step
    case DoorTakes(step) => s.(door := D.Do(name, max, s.door, step))
    case RunTakes(key, pid, step) => s.(runs := s.runs[key := A.Do(RunOf(s.runs, key), pid, step)])
    case PowerLoss =>
      System(D.Do(name, max, s.door, D.PowerLoss), map key | key in s.runs :: A.Do(s.runs[key], 0, A.PowerLoss))
  }

  ghost predicate Init(name: string, max: int, s: System) {
    D.Init(name, max, s.door) && s.runs == map[]
  }

  ghost function Run(name: string, max: int, s: System, steps: seq<Step>): Option<System> {
    if steps == [] then Some(s)
    else match Run(name, max, s, steps[..|steps| - 1])
      case None => None
      case Some(t) =>
        var step := steps[|steps| - 1];
        if Enabled(t, step) then Some(Do(name, max, t, step)) else None
  }

  ghost predicate Reachable(name: string, max: int, s: System) {
    exists init: System, steps: seq<Step> :: Init(name, max, init) && Run(name, max, init, steps) == Some(s)
  }

  // ----- the invariant

  /** Every completion of the run, saved or lost, is of a claim whose agent was launched once. */
  ghost predicate LaunchedAll(runs: map<Key, A.State>, completed: seq<D.Completion>) {
    forall f :: f in completed ==> RunOf(runs, f.claim.key).launches == 1
  }

  /** Every receipt is one the protocol can produce, and belongs to a claim the door asked about. */
  ghost predicate RunsInv(runs: map<Key, A.State>, asked: seq<Claim>) {
    forall key :: key in runs ==> A.Reachable(runs[key]) && Asked(asked, key)
  }

  ghost predicate Inv(name: string, max: int, s: System) {
    D.Reachable(name, max, s.door) && RunsInv(s.runs, s.door.asked) && LaunchedAll(s.runs, s.door.completed)
  }

  lemma FreshRunIsReachable()
    ensures A.Reachable(FRESH)
  {
    var init := FRESH;
    assert A.Init(init) && A.Run(init, []) == Some(init);
  }

  lemma DoorStaysReachable(name: string, max: int, w: D.World, step: D.Step)
    requires D.Reachable(name, max, w) && D.Enabled(w, step)
    ensures D.Reachable(name, max, D.Do(name, max, w, step))
  {
    var init, steps :| D.Init(name, max, init) && D.Run(name, max, init, steps) == Some(w);
    assert (steps + [step])[..|steps|] == steps;
    assert D.Run(name, max, init, steps + [step]) == Some(D.Do(name, max, w, step));
  }

  lemma RunStepStaysReachable(s: A.State, p: A.Pid, step: A.Step) returns (t: A.State)
    requires A.Reachable(s) && A.Enabled(s, p, step)
    ensures t == A.Do(s, p, step) && A.Reachable(t)
    ensures s.launches <= t.launches <= 1
  {
    t := A.Go(s, p, step);
    A.ReachableKeepsInv(t);
  }

  /** A door step only ever adds to what was asked, and only a completion adds to what was completed. */
  lemma DoorStepEffect(name: string, max: int, w: D.World, step: D.Step)
    requires D.Enabled(w, step)
    ensures var t := D.Do(name, max, w, step);
            && |w.asked| <= |t.asked| && t.asked[..|w.asked|] == w.asked
            && t.completed == if step.Complete? then w.completed + [D.Completion(w.memory.state.claim.value, step.now)] else w.completed
  {
  }

  lemma MoreAsked(runs: map<Key, A.State>, asked: seq<Claim>, more: seq<Claim>)
    requires RunsInv(runs, asked) && |asked| <= |more| && more[..|asked|] == asked
    ensures RunsInv(runs, more)
  {
    forall key | key in runs
      ensures Asked(more, key)
    {
      var i :| 0 <= i < |asked| && asked[i].key == key;
      assert more[i] == asked[i];
    }
  }

  /** A conclusive receipt comes from exactly one launch. */
  lemma ConclusiveMeansLaunched(runs: map<Key, A.State>, asked: seq<Claim>, key: Key)
    requires RunsInv(runs, asked) && A.ShowsConclusive(RunOf(runs, key).visible)
    ensures RunOf(runs, key).launches == 1
  {
    A.ReachableKeepsInv(RunOf(runs, key));
  }

  lemma DoorStepKeepsInv(name: string, max: int, s: System, step: D.Step)
    requires Inv(name, max, s) && Enabled(s, DoorTakes(step))
    ensures Inv(name, max, Do(name, max, s, DoorTakes(step)))
  {
    DoorStaysReachable(name, max, s.door, step);
    DoorStepEffect(name, max, s.door, step);
    MoreAsked(s.runs, s.door.asked, D.Do(name, max, s.door, step).asked);
    if step.Complete? {
      ConclusiveMeansLaunched(s.runs, s.door.asked, s.door.memory.state.claim.value.key);
    }
  }

  lemma RunStepKeepsLaunched(runs: map<Key, A.State>, completed: seq<D.Completion>, key: Key, next: A.State)
    requires LaunchedAll(runs, completed) && RunOf(runs, key).launches <= next.launches <= 1
    ensures LaunchedAll(runs[key := next], completed)
  {
  }

  lemma RunStepKeepsInv(name: string, max: int, s: System, key: Key, pid: A.Pid, taken: A.Step)
    requires Inv(name, max, s) && Enabled(s, RunTakes(key, pid, taken))
    ensures Inv(name, max, Do(name, max, s, RunTakes(key, pid, taken)))
  {
    FreshRunIsReachable();
    var next := RunStepStaysReachable(RunOf(s.runs, key), pid, taken);
    RunStepKeepsLaunched(s.runs, s.door.completed, key, next);
  }

  lemma PowerLossKeepsRuns(runs: map<Key, A.State>, asked: seq<Claim>) returns (after: map<Key, A.State>)
    requires RunsInv(runs, asked)
    ensures after == map key | key in runs :: A.Do(runs[key], 0, A.PowerLoss)
    ensures RunsInv(after, asked) && forall key :: RunOf(after, key).launches == RunOf(runs, key).launches
  {
    after := map key | key in runs :: A.Do(runs[key], 0, A.PowerLoss);
    forall key | key in runs
      ensures A.Reachable(after[key])
    {
      var next := RunStepStaysReachable(runs[key], 0, A.PowerLoss);
    }
  }

  lemma PowerLossKeepsInv(name: string, max: int, s: System)
    requires Inv(name, max, s)
    ensures Inv(name, max, Do(name, max, s, PowerLoss))
  {
    DoorStaysReachable(name, max, s.door, D.PowerLoss);
    DoorStepEffect(name, max, s.door, D.PowerLoss);
    var after := PowerLossKeepsRuns(s.runs, s.door.asked);
  }

  lemma StepKeepsInv(name: string, max: int, s: System, step: Step)
    requires Inv(name, max, s) && Enabled(s, step)
    ensures Inv(name, max, Do(name, max, s, step))
  {
    match step
    case DoorTakes(step) => DoorStepKeepsInv(name, max, s, step);
    case RunTakes(key, pid, taken) => RunStepKeepsInv(name, max, s, key, pid, taken);
    case PowerLoss => PowerLossKeepsInv(name, max, s);
  }

  lemma {:induction false} RunKeepsInv(name: string, max: int, s: System, steps: seq<Step>)
    requires Inv(name, max, s) && Run(name, max, s, steps).Some?
    ensures Inv(name, max, Run(name, max, s, steps).value)
  {
    if steps != [] {
      RunKeepsInv(name, max, s, steps[..|steps| - 1]);
      StepKeepsInv(name, max, Run(name, max, s, steps[..|steps| - 1]).value, steps[|steps| - 1]);
    }
  }

  lemma ReachableKeepsInv(name: string, max: int, s: System)
    requires Reachable(name, max, s)
    ensures Inv(name, max, s)
  {
    var init, steps :| Init(name, max, init) && Run(name, max, init, steps) == Some(s);
    assert D.Run(name, max, init.door, []) == Some(init.door);
    RunKeepsInv(name, max, init, steps);
  }

  // ----- claims and launches

  /** Every claim launches at most one agent, and every claim ever completed launched exactly one. */
  lemma ClaimsLaunchOnce(name: string, max: int, s: System, key: Key)
    requires Reachable(name, max, s)
    ensures RunOf(s.runs, key).launches <= 1
    ensures (exists f :: f in s.door.completed && f.claim.key == key) ==> RunOf(s.runs, key).launches == 1
  {
    ReachableKeepsInv(name, max, s);
    FreshRunIsReachable();
    A.ReachableKeepsInv(RunOf(s.runs, key));
  }

  /** An agent was launched for a claim on this file, under this key. */
  ghost predicate LaunchedFor(s: System, key: Key, file: FileOrder) {
    RunOf(s.runs, key).launches > 0 && exists c :: c in s.door.asked && c.key == key && file in Orders(c.files)
  }

  /** Over any run, with whatever crashes and lost saves, at most one agent is launched on each (path, mtime) pair. */
  lemma OneLaunchPerFile(name: string, max: int, s: System, file: FileOrder, a: Key, b: Key)
    requires Reachable(name, max, s) && LaunchedFor(s, a, file) && LaunchedFor(s, b, file)
    ensures a == b && RunOf(s.runs, a).launches == 1
  {
    ReachableKeepsInv(name, max, s);
    ClaimsLaunchOnce(name, max, s, a);
    var c :| c in s.door.asked && c.key == a && file in Orders(c.files);
    var d :| d in s.door.asked && d.key == b && file in Orders(d.files);
    D.AskedClaimsAreDisjoint(name, max, s.door, c, d);
  }

  /** Every launch was for one claim only, and that claim is recorded or still pending on disk. */
  lemma LaunchesBelongToClaims(name: string, max: int, s: System, key: Key)
    requires Reachable(name, max, s) && RunOf(s.runs, key).launches > 0
    ensures exists c :: c in s.door.asked && c.key == key && (c in s.door.durable.done || s.door.durable.state.claim == Some(c))
    ensures forall c, d :: c in s.door.asked && d in s.door.asked && c.key == key && d.key == key ==> c == d
  {
    ReachableKeepsInv(name, max, s);
    var i :| 0 <= i < |s.door.asked| && s.door.asked[i].key == key;
    D.AskedClaimsAreKept(name, max, s.door, s.door.durable, s.door.asked[i]);
    forall c, d | c in s.door.asked && d in s.door.asked && c.key == key && d.key == key
      ensures c == d
    {
      D.AskedClaimsAreDisjoint(name, max, s.door, c, d);
    }
  }

  /** Completed claims are as many launches: no receipt closes two claims, no file is in two of them. */
  lemma LaunchesMatchCompletions(name: string, max: int, s: System, f: D.Completion, g: D.Completion)
    requires Reachable(name, max, s) && f in s.door.completed && g in s.door.completed && f.claim != g.claim
    ensures f.claim.key != g.claim.key && D.Disjoint(f.claim, g.claim)
    ensures RunOf(s.runs, f.claim.key).launches == RunOf(s.runs, g.claim.key).launches == 1
  {
    ReachableKeepsInv(name, max, s);
    D.ReachableKeepsInv(name, max, s.door);
    D.AskedClaimsAreDisjoint(name, max, s.door, f.claim, g.claim);
  }

  /**
   * A batch that is about to be claimed has no receipt of any kind: no cached success
   * can swallow it, and no earlier launch can have worked on any of its files.
   */
  lemma FreshBatchHasNoReceipt(name: string, max: int, s: System, files: seq<ClaimFile>, now: int)
    requires Reachable(name, max, s) && D.Enabled(s.door, D.Prepare(files, now))
    ensures var claim := D.Do(name, max, s.door, D.Prepare(files, now)).memory.state.claim;
            claim.Some? ==>
              && RunOf(s.runs, claim.value.key) == FRESH
              && forall file, key :: file in Orders(files) ==> !LaunchedFor(s, key, file)
  {
    ReachableKeepsInv(name, max, s);
    var claim := D.Do(name, max, s.door, D.Prepare(files, now)).memory.state.claim;
    forall c | c in s.door.asked
      ensures claim.Some? ==> claim.value.files == files && c.key != claim.value.key && D.Disjoint(c, claim.value)
    {
      D.NewBatchIsFresh(name, max, s.door, files, now, c);
    }
    assert claim.Some? ==> claim.value.files == files;
  }
}
