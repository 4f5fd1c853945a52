/**
 * The Door lock: a hard link publishes a lock file without replacing another, and
 * a stale one is removed under the kernel lock of the very inode it names. Any
 * number of processes publish, die, recover and release in any interleaving.
 * A process id that was reported dead is assumed to stay dead.
 */
module DoorLock {
  import opened Wrappers

  type Pid = nat

  /** One lock file; its token is unique, so inode and token are the same identity. */
  type Inode = nat

  /** How far one process has come in `acquireLock`, `recoverStaleLock` or `release`. */
  datatype Pc =
    | Idle
    | Created(inode: Inode)
    | Linked(inode: Inode)
    | Holding(inode: Inode)
    | Releasing(inode: Inode)
    | Reading
    | Observed(seen: Inode)
    | Stale(seen: Inode)
    | Opened(inode: Inode, seen: Inode)
    | Flocked(inode: Inode, seen: Inode)
    | Checked(inode: Inode, seen: Inode)
    | Verified(inode: Inode)

  /**
   * `entry` is what the lock name links to; `owners` is the pid written into each
   * lock file before it was linked; `flocks` are the held kernel locks.
   */
  datatype State = State(
    entry: Option<Inode>,
    owners: map<Inode, Pid>,
    flocks: map<Inode, Pid>,
    procs: map<Pid, Pc>,
    dead: set<Pid>)

  datatype Step =
    | Spawn
    | Die
    | Create(inode: Inode)
    | Link
    | AbortPublish
    | Publish
    | StartRelease
    | Release
    | ReadOwner
    | TestOwner
    | Open
    | TakeFlock
    | Check
    | Recheck
    | RemoveStale
    | GiveUp

  predicate Alive(s: State, p: Pid) {
    p in s.procs
  }

  /** `verify` plus the owner comparison: the name still is the flocked inode, and its owner is dead. */
  predicate StaleCheck(s: State, inode: Inode, seen: Inode) {
    s.entry == Some(inode) && inode == seen && inode in s.owners && !Alive(s, s.owners[inode])
  }

  predicate Enabled(s: State, p: Pid, step: Step) {
    if step.Spawn? then p !in s.procs && p !in s.dead
    else
      && p in s.procs
      && var pc := s.procs[p];
         match step
         case Spawn => true
         case Die => true
         case Create(inode) => pc.Idle? && inode !in s.owners
         case Link => pc.Created?
         case AbortPublish => pc.Linked?
         case Publish => pc.Linked?
         case StartRelease => pc.Holding?
         case Release => pc.Releasing?
         case ReadOwner => pc.Reading?
         case TestOwner => pc.Observed? && pc.seen in s.owners
         case Open => pc.Stale?
         case TakeFlock => pc.Opened? && pc.inode !in s.flocks
         case Check => pc.Flocked?
         case Recheck => pc.Checked?
         case RemoveStale => pc.Verified?
         case GiveUp => !pc.Linked? && !pc.Holding? && !pc.Releasing?
  }

  function Without(flocks: map<Inode, Pid>, p: Pid): map<Inode, Pid> {
    map inode | inode in flocks && flocks[inode] != p :: flocks[inode]
  }

  function At(s: State, p: Pid, pc: Pc): State {
    s.(procs := s.procs[p := pc])
  }

  function Leave(s: State, p: Pid): State {
    s.(procs := s.procs[p := Idle], flocks := Without(s.flocks, p))
  }

  function Do(s: State, p: Pid, step: Step): State
    requires Enabled(s, p, step)
  {
    if step.Spawn? then At(s, p, Idle)
    else
      var pc := s.procs[p];
      match step
      case Spawn => s
      case Die => s.(procs := s.procs - {p}, flocks := Without(s.flocks, p), dead := s.dead + {p})
      case Create(inode) => At(s.(owners := s.owners[inode := p]), p, Created(inode))
      case Link =>
        if s.entry.None? then At(s.(entry := Some(pc.inode)), p, Linked(pc.inode)) else At(s, p, Reading)
      case AbortPublish => At(s.(entry := None), p, Idle)
      case Publish => At(s, p, Holding(pc.inode))
      case StartRelease => At(s, p, if s.entry == Some(pc.inode) then Releasing(pc.inode) else Idle)
      case Release => At(s.(entry := None), p, Idle)
      case ReadOwner => At(s, p, if s.entry.None? then Idle else Observed(s.entry.value))
      case TestOwner => At(s, p, if Alive(s, s.owners[pc.seen]) then Idle else Stale(pc.seen))
      case Open => At(s, p, if s.entry.None? then Idle else Opened(s.entry.value, pc.seen))
      case TakeFlock => At(s.(flocks := s.flocks[pc.inode := p]), p, Flocked(pc.inode, pc.seen))
      case Check => if StaleCheck(s, pc.inode, pc.seen) then At(s, p, Checked(pc.inode, pc.seen)) else Leave(s, p)
      case Recheck => if StaleCheck(s, pc.inode, pc.seen) then At(s, p, Verified(pc.inode)) else Leave(s, p)
      case RemoveStale => Leave(s.(entry := None), p)
      case GiveUp => Leave(s, p)
  }

  datatype Event = Event(pid: Pid, step: Step)

  predicate Init(s: State) {
    s == State(None, map[], map[], map[], {})
  }

  function Run(s: State, events: seq<Event>): Option<State> {
    if events == [] then Some(s)
    else match Run(s, events[..|events| - 1])
      case None => None
      case Some(t) =>
        var e := events[|events| - 1];
        if Enabled(t, e.pid, e.step) then Some(Do(t, e.pid, e.step)) else None
  }

  ghost predicate Reachable(s: State) {
    exists init: State, events: seq<Event> :: Init(init) && Run(init, events) == Some(s)
  }

  /** `acquireLock` has returned the lease and `release` has not removed the entry yet. */
  predicate HoldsLease(s: State, p: Pid) {
    p in s.procs && (s.procs[p].Holding? || s.procs[p].Releasing?)
  }

  // ----- the invariant

  /** What one process may rely on at its current position. */
  predicate PcInv(s: State, p: Pid, pc: Pc) {
    match pc
    case Created(inode) => inode in s.owners && s.owners[inode] == p
    case Linked(inode) => inode in s.owners && s.owners[inode] == p && s.entry == Some(inode)
    case Holding(inode) => inode in s.owners && s.owners[inode] == p && s.entry == Some(inode)
    case Releasing(inode) => inode in s.owners && s.owners[inode] == p && s.entry == Some(inode)
    case Flocked(inode, _) => inode in s.flocks && s.flocks[inode] == p
    case Checked(inode, _) => inode in s.flocks && s.flocks[inode] == p
    case Verified(inode) =>
      && inode in s.flocks && s.flocks[inode] == p
      && s.entry == Some(inode) && inode in s.owners && s.owners[inode] in s.dead
    case _ => true
  }

  /** A process under way in `recoverStaleLock` with the kernel lock of this inode. */
  predicate Locks(pc: Pc, inode: Inode) {
    match pc
    case Flocked(i, _) => i == inode
    case Checked(i, _) => i == inode
    case Verified(i) => i == inode
    case _ => false
  }

  ghost predicate FlocksHeld(s: State) {
    forall inode :: inode in s.flocks ==> s.flocks[inode] in s.procs && Locks(s.procs[s.flocks[inode]], inode)
  }

  ghost predicate EntryInv(s: State) {
    && s.procs.Keys !! s.dead
    && (s.entry.Some? ==> s.entry.value in s.owners)
    && (forall inode :: inode in s.owners ==> s.owners[inode] in s.procs || s.owners[inode] in s.dead)
    && (forall p :: p in s.procs ==> PcInv(s, p, s.procs[p]))
  }

  ghost predicate Inv(s: State) {
    EntryInv(s) && FlocksHeld(s)
  }

  /** Steps that change what the lock name links to. */
  predicate Moves(step: Step) {
    step.Link? || step.AbortPublish? || step.Release? || step.RemoveStale?
  }

  lemma MoveKeepsEntry(s: State, p: Pid, step: Step)
    requires EntryInv(s) && Enabled(s, p, step) && Moves(step)
    ensures EntryInv(Do(s, p, step))
  {
    var t := Do(s, p, step);
    assert PcInv(s, p, s.procs[p]);
    forall q | q in t.procs
      ensures PcInv(t, q, t.procs[q])
    {
      assert PcInv(s, q, s.procs[q]);
    }
  }

  lemma StayKeepsEntry(s: State, p: Pid, step: Step)
    requires EntryInv(s) && Enabled(s, p, step) && !Moves(step)
    ensures EntryInv(Do(s, p, step))
  {
    var t := Do(s, p, step);
    assert t.entry == s.entry;
    forall q | q in t.procs
      ensures PcInv(t, q, t.procs[q])
    {
      if q in s.procs { assert PcInv(s, q, s.procs[q]); }
    }
  }

  lemma StepKeepsFlocks(s: State, p: Pid, step: Step)
    requires FlocksHeld(s) && Enabled(s, p, step)
    ensures FlocksHeld(Do(s, p, step))
  {
    var t := Do(s, p, step);
    forall inode | inode in t.flocks
      ensures t.flocks[inode] in t.procs && Locks(t.procs[t.flocks[inode]], inode)
    {
      if inode in s.flocks { assert Locks(s.procs[s.flocks[inode]], inode); }
    }
  }

  lemma StepKeepsInv(s: State, p: Pid, step: Step)
    requires Inv(s) && Enabled(s, p, step)
    ensures Inv(Do(s, p, step))
  {
    if Moves(step) { MoveKeepsEntry(s, p, step); } else { StayKeepsEntry(s, p, step); }
    StepKeepsFlocks(s, p, step);
  }

  lemma {:induction false} RunKeepsInv(s: State, events: seq<Event>)
    requires Inv(s) && Run(s, events).Some?
    ensures Inv(Run(s, events).value)
  {
    if events != [] {
      RunKeepsInv(s, events[..|events| - 1]);
      var e := events[|events| - 1];
      StepKeepsInv(Run(s, events[..|events| - 1]).value, e.pid, e.step);
    }
  }

  lemma ReachableKeepsInv(s: State)
    requires Reachable(s)
    ensures Inv(s)
  {
    var init, events :| Init(init) && Run(init, events) == Some(s);
    RunKeepsInv(init, events);
  }

  // ----- what the lock promises

  /** In every interleaving at most one live process holds the lease. */
  lemma MutualExclusion(s: State, p: Pid, q: Pid)
    requires Reachable(s) && HoldsLease(s, p) && HoldsLease(s, q)
    ensures p == q
  {
    ReachableKeepsInv(s);
    assert PcInv(s, p, s.procs[p]) && PcInv(s, q, s.procs[q]);
  }

  /** A recoverer removes the entry of a dead owner only, and the very inode it holds locked. */
  lemma RecoveryRemovesOnlyStale(s: State, p: Pid)
    requires Reachable(s) && Enabled(s, p, RemoveStale)
    ensures var inode := s.procs[p].inode; s.entry == Some(inode) && inode in s.owners && s.owners[inode] in s.dead
    ensures forall q :: HoldsLease(s, q) ==> HoldsLease(Do(s, p, RemoveStale), q)
    ensures forall q :: q in s.procs && s.procs[q].Verified? ==> q == p
  {
    ReachableKeepsInv(s);
    assert PcInv(s, p, s.procs[p]);
    forall q | q in s.procs && s.procs[q].Verified?
      ensures q == p
    {
      assert PcInv(s, q, s.procs[q]);
    }
    forall q | HoldsLease(s, q)
      ensures q != p
    {
      assert PcInv(s, q, s.procs[q]);
    }
  }

  /** Whatever another process does, a live holder keeps lease and entry; its own release always finds its token. */
  lemma LeaseIsStable(s: State, holder: Pid, p: Pid, step: Step)
    requires Reachable(s) && HoldsLease(s, holder) && Enabled(s, p, step) && p != holder
    ensures var t := Do(s, p, step); HoldsLease(t, holder) && t.entry == s.entry == Some(s.procs[holder].inode)
  {
    ReachableKeepsInv(s);
    StepKeepsInv(s, p, step);
    var t := Do(s, p, step);
    assert PcInv(s, holder, s.procs[holder]) && PcInv(t, holder, t.procs[holder]);
  }

  lemma {:induction false} RunConcat(s: State, a: seq<Event>, b: seq<Event>)
    requires Run(s, a).Some?
    ensures Run(s, a + b) == Run(Run(s, a).value, b)
    decreases |b|
  {
    if b == [] {
      assert a + b == a;
    } else {
      RunConcat(s, a, b[..|b| - 1]);
      assert (a + b)[..|a + b| - 1] == a + b[..|b| - 1];
    }
  }

  lemma RunOne(s: State, e: Event)
    requires Enabled(s, e.pid, e.step)
    ensures Run(s, [e]) == Some(Do(s, e.pid, e.step))
  {
    assert [e][..0] == [];
  }

  lemma Go(s: State, p: Pid, step: Step) returns (t: State)
    requires Reachable(s) && Enabled(s, p, step)
    ensures t == Do(s, p, step) && Reachable(t)
  {
    t := Do(s, p, step);
    var init, events :| Init(init) && Run(init, events) == Some(s);
    var e := Event(p, step);
    RunOne(s, e);
    RunConcat(init, events, [e]);
    assert Run(init, events + [e]) == Some(t);
  }

  lemma FindsStaleOwner(s: State, p: Pid, temp: Inode) returns (t: State)
    requires Reachable(s) && p in s.procs && s.procs[p].Idle? && temp !in s.owners
    requires s.entry.Some? && s.entry.value in s.owners && !Alive(s, s.owners[s.entry.value])
    ensures Reachable(t) && t == At(s.(owners := s.owners[temp := p]), p, Stale(s.entry.value))
  {
    t := Go(s, p, Create(temp));
    t := Go(t, p, Link);
    t := Go(t, p, ReadOwner);
    t := Go(t, p, TestOwner);
  }

  lemma RemovesStaleEntry(s: State, p: Pid) returns (t: State)
    requires Reachable(s) && p in s.procs && s.entry.Some? && s.procs[p] == Stale(s.entry.value)
    requires s.entry.value in s.owners && !Alive(s, s.owners[s.entry.value]) && s.entry.value !in s.flocks
    ensures Reachable(t) && t.entry.None? && p in t.procs && t.procs[p].Idle? && t.owners == s.owners
  {
    t := Go(s, p, Open);
    t := Go(t, p, TakeFlock);
    t := Go(t, p, Check);
    t := Go(t, p, Recheck);
    t := Go(t, p, RemoveStale);
  }

  /** Whoever holds the kernel lock can leave, by failing or dying, without moving the name. */
  lemma LockHolderLeaves(s: State, p: Pid) returns (t: State)
    requires Reachable(s) && p in s.procs && s.procs[p].Idle?
    requires s.entry.Some? && s.entry.value in s.owners && !Alive(s, s.owners[s.entry.value])
    ensures Reachable(t) && t.entry == s.entry && t.owners == s.owners && t.entry.value !in t.flocks
    ensures p in t.procs && t.procs[p].Idle? && !Alive(t, t.owners[t.entry.value])
  {
    ReachableKeepsInv(s);
    if s.entry.value in s.flocks {
      var q := s.flocks[s.entry.value];
      assert Locks(s.procs[q], s.entry.value);
      t := Go(s, q, GiveUp);
    } else {
      t := s;
    }
  }

  /** A crash never wedges the door: from every state whose lock owner is dead, an idle process can reach the lease. */
  lemma StaleLockIsRecoverable(s: State, p: Pid, first: Inode, second: Inode) returns (t: State)
    requires Reachable(s) && p in s.procs && s.procs[p].Idle?
    requires s.entry.Some? && (s.entry.value in s.owners ==> !Alive(s, s.owners[s.entry.value]))
    requires first !in s.owners && second !in s.owners && first != second
    ensures Reachable(t) && HoldsLease(t, p) && t.entry == Some(second)
  {
    ReachableKeepsInv(s);
    t := LockHolderLeaves(s, p);
    t := FindsStaleOwner(t, p, first);
    t := RemovesStaleEntry(t, p);
    t := Go(t, p, Create(second));
    t := Go(t, p, Link);
    t := Go(t, p, Publish);
  }
}
