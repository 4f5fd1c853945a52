/**
 * `acquireLock`, `recoverStaleLock` and `release` as they run, with other processes
 * taking any steps between any two of their operations. The object keeps the list of
 * protocol steps taken, so each call is part of a run of `DoorLock`.
 */
module LockStore {
  import opened Wrappers
  import opened DoorLock

  datatype Acquired = Lease(inode: Inode) | Busy | Failed

  datatype Recovery = Removed | NotStale | TimedOut

  /** The name links to the lock file of a dead owner, and `p` holds the kernel lock of that very file. */
  ghost predicate MayRemove(s: State, p: Pid) {
    && Reachable(s) && s.entry.Some? && s.entry.value in s.owners && s.owners[s.entry.value] in s.dead
    && s.entry.value in s.flocks && s.flocks[s.entry.value] == p
  }

  /** The name links to the lock file of a live process. */
  predicate LiveOwner(s: State) {
    s.entry.Some? && s.entry.value in s.owners && Alive(s, s.owners[s.entry.value])
  }

  /** There is no lock, or only one that can be removed at once. */
  predicate Obtainable(s: State) {
    s.entry.Some? ==> Removable(s, s.entry.value)
  }

  /** The name links to this lock file, whose owner is dead, and nobody holds its kernel lock. */
  predicate Removable(s: State, inode: Inode) {
    s.entry == Some(inode) && inode in s.owners && !Alive(s, s.owners[inode]) && inode !in s.flocks
  }

  class LockDirectory {
    var state: State
    /** Steps other processes are about to take, one list for each pause of ours. */
    var schedule: seq<seq<Event>>
    ghost var events: seq<Event>

    ghost predicate Valid()
      reads this
    {
      Run(State(None, map[], map[], map[], {}), events) == Some(state)
    }

    constructor (schedule: seq<seq<Event>>)
      ensures Valid() && state == State(None, map[], map[], map[], {}) && fresh(this)
    {
      this.schedule := schedule;
      state, events := State(None, map[], map[], map[], {}), [];
    }

    /** Every theorem about reachable states applies before and after each call. */
    lemma Invariant()
      requires Valid()
      ensures Reachable(state) && Inv(state)
    {
      assert Init(State(None, map[], map[], map[], {}));
      ReachableKeepsInv(state);
    }

    method Take(p: Pid, step: Step)
      requires Valid() && Enabled(state, p, step)
      modifies this`state, this`events
      ensures Valid() && state == Do(old(state), p, step)
    {
      RunOne(state, Event(p, step));
      RunConcat(State(None, map[], map[], map[], {}), events, [Event(p, step)]);
      events := events + [Event(p, step)];
      state := Do(state, p, step);
    }

    /** Whatever others do leaves this process and its fresh tokens alone. */
    ghost predicate Undisturbed(before: State, p: Pid, tokens: set<Inode>)
      reads this
    {
      && (p in before.procs ==> p in state.procs && state.procs[p] == before.procs[p])
      && (forall t :: t in tokens && t !in before.owners ==> t !in state.owners)
      && (forall i :: i in before.flocks && before.flocks[i] == p ==> i in state.flocks && state.flocks[i] == p)
      && (forall i :: i in state.flocks && state.flocks[i] == p ==> i in before.flocks && before.flocks[i] == p)
    }

    /** A step of another process that can be taken now and draws none of our tokens. */
    predicate Foreign(e: Event, p: Pid, tokens: set<Inode>)
      reads this
    {
      e.pid != p && Enabled(state, e.pid, e.step) && !(e.step.Create? && e.step.inode in tokens)
    }

    method TakeForeign(e: Event, p: Pid, tokens: set<Inode>)
      requires Valid() && Foreign(e, p, tokens)
      modifies this`state, this`events
      ensures Valid() && Undisturbed(old(state), p, tokens)
    {
      Take(e.pid, e.step);
    }

    /** A pause: the next list of foreign steps happens. */
    method Pause(p: Pid, tokens: set<Inode>)
      requires Valid() && p in state.procs
      modifies this
      ensures Valid() && Undisturbed(old(state), p, tokens)
      ensures old(schedule) == [] ==> schedule == [] && state == old(state)
    {
      if schedule == [] { return; }
      var next := schedule[0];
      schedule := schedule[1..];
      for i := 0 to |next|
        invariant Valid() && Undisturbed(old(state), p, tokens)
      {
        if Foreign(next[i], p, tokens) { TakeForeign(next[i], p, tokens); }
      }
    }

    /**
     * `publishLock`: write the temporary lock file, then link it unless the name is taken.
     * `found` is the directory as it was at the moment of linking.
     */
    method PublishLock(p: Pid, token: Inode, tokens: set<Inode>) returns (published: bool, ghost found: State)
      requires Valid() && p in state.procs && state.procs[p].Idle? && token !in state.owners
      modifies this
      ensures Valid() && p in state.procs
      ensures Reachable(found) && found.procs.Keys >= {p} && found.procs[p] == Created(token)
      ensures published <==> found.entry.None?
      ensures old(schedule) == [] ==>
                schedule == [] && found.entry == old(state).entry && state.dead == old(state).dead && state.flocks == old(state).flocks
                && state.owners == old(state).owners[token := p] && state.procs.Keys == old(state).procs.Keys
                && (!published ==> state.entry == old(state).entry)
      ensures published ==> state.procs[p] == Holding(token) && state.entry == Some(token)
      ensures !published ==> state.procs[p].Reading?
      ensures forall t :: t in tokens && t !in old(state).owners && t != token ==> t !in state.owners
    {
      Take(p, Create(token));
      Pause(p, tokens);
      Invariant();
      found := state;
      Take(p, Link);
      published := state.procs[p].Linked?;
      if published {
        Pause(p, tokens);
        Take(p, Publish);
        Invariant();
        assert PcInv(state, p, state.procs[p]);
      }
    }

    /**
     * `recoverStaleLock`: remove the name only while it names the inode locked here, whose
     * owner is dead. `found` is the directory as it was at the removal.
     */
    method RecoverStaleLock(p: Pid, tries: nat, tokens: set<Inode>) returns (r: Recovery, ghost found: State)
      requires Valid() && p in state.procs && state.procs[p].Stale?
      modifies this
      ensures Valid() && p in state.procs && state.procs[p].Idle?
      ensures r.Removed? ==> MayRemove(found, p) && state.entry.None?
      ensures old(schedule) == [] && Removable(old(state), old(state.procs[p]).seen) ==>
                schedule == [] && r.Removed? && state.owners == old(state).owners
      ensures forall t :: t in tokens && t !in old(state).owners ==> t !in state.owners
    {
      found := state;
      Take(p, Open);
      if state.procs[p].Idle? { return NotStale, found; }
      var locked := WaitForKernelLock(p, tries, tokens);
      if !locked { return TimedOut, found; }
      r, found := FinishRecovery(p, tokens);
    }

    /** Polling for the kernel lock of the opened file, for as many tries as are allowed. */
    method WaitForKernelLock(p: Pid, tries: nat, tokens: set<Inode>) returns (locked: bool)
      requires Valid() && p in state.procs && state.procs[p].Opened?
      modifies this
      ensures Valid() && p in state.procs
      ensures state.procs[p] == if locked then Flocked(old(state.procs[p]).inode, old(state.procs[p]).seen) else Idle
      ensures old(schedule) == [] && old(state.procs[p]).inode !in old(state).flocks ==>
                && schedule == [] && locked && state.entry == old(state).entry && state.owners == old(state).owners
                && state.procs.Keys == old(state).procs.Keys
      ensures forall t :: t in tokens && t !in old(state).owners ==> t !in state.owners
    {
      var tried := 0;
      Pause(p, tokens);
      while tried < tries && state.procs[p].inode in state.flocks
        invariant Valid() && p in state.procs && state.procs[p] == old(state.procs[p])
        invariant old(schedule) == [] ==> schedule == [] && state == old(state)
        invariant forall t :: t in tokens && t !in old(state).owners ==> t !in state.owners
      {
        Pause(p, tokens);
        tried := tried + 1;
      }
      locked := state.procs[p].inode !in state.flocks;
      if locked {
        Take(p, TakeFlock);
      } else {
        Take(p, GiveUp);
      }
    }

    /** The two owner checks under the kernel lock, and the removal. */
    method FinishRecovery(p: Pid, tokens: set<Inode>) returns (r: Recovery, ghost found: State)
      requires Valid() && p in state.procs && state.procs[p].Flocked?
      modifies this
      ensures Valid() && !r.TimedOut? && p in state.procs && state.procs[p].Idle?
      ensures r.Removed? ==> MayRemove(found, p) && state.entry.None?
      ensures old(schedule) == [] && StaleCheck(old(state), old(state.procs[p]).inode, old(state.procs[p]).seen) ==>
                schedule == [] && r.Removed? && state.owners == old(state).owners
      ensures forall t :: t in tokens && t !in old(state).owners ==> t !in state.owners
    {
      Pause(p, tokens);
      found := state;
      Take(p, Check);
      if state.procs[p].Idle? { return NotStale, found; }
      r, found := RecheckAndRemove(p, tokens);
    }

    method RecheckAndRemove(p: Pid, tokens: set<Inode>) returns (r: Recovery, ghost found: State)
      requires Valid() && p in state.procs && state.procs[p].Checked?
      modifies this
      ensures Valid() && !r.TimedOut? && p in state.procs && state.procs[p].Idle?
      ensures r.Removed? ==> MayRemove(found, p) && state.entry.None?
      ensures old(schedule) == [] && StaleCheck(old(state), old(state.procs[p]).inode, old(state.procs[p]).seen) ==>
                schedule == [] && r.Removed? && state.owners == old(state).owners
      ensures forall t :: t in tokens && t !in old(state).owners ==> t !in state.owners
    {
      Pause(p, tokens);
      found := state;
      Take(p, Recheck);
      if state.procs[p].Idle? { return NotStale, found; }
      Pause(p, tokens);
      Invariant();
      assert PcInv(state, p, state.procs[p]);
      found := state;
      Take(p, RemoveStale);
      return Removed, found;
    }

    /** One round without publication: look at the owner, and recover the lock if it is dead. */
    method Contend(p: Pid, tries: nat, tokens: set<Inode>) returns (alive: bool, ok: bool)
      requires Valid() && p in state.procs && state.procs[p].Reading?
      modifies this
      ensures Valid() && p in state.procs && state.procs[p].Idle?
      ensures alive ==> exists i :: i in state.owners && Alive(state, state.owners[i])
      ensures old(schedule) == [] && old(state).entry.Some? && Obtainable(old(state)) ==>
                schedule == [] && !alive && ok && state.entry.None? && state.owners == old(state).owners
      ensures old(schedule) == [] && LiveOwner(old(state)) ==> alive
      ensures forall t :: t in tokens && t !in old(state).owners ==> t !in state.owners
    {
      Pause(p, tokens);
      Invariant();
      Take(p, ReadOwner);
      if state.procs[p].Idle? { return false, true; }
      ghost var seen := state.procs[p].seen;
      Take(p, TestOwner);
      assert state.procs[p].Idle? ==> seen in state.owners && Alive(state, state.owners[seen]);
      if state.procs[p].Idle? { return true, true; }
      Pause(p, tokens);
      var recovery, found := RecoverStaleLock(p, tries, tokens);
      return false, !recovery.TimedOut?;
    }

    /** `acquireLock`: three rounds; a lease is exclusive, and without one nothing of ours stays behind. */
    method AcquireLock(p: Pid, tokens: seq<Inode>, tries: nat) returns (r: Acquired)
      requires Valid() && p in state.procs && state.procs[p].Idle? && |tokens| == 3
      requires tokens[0] != tokens[1] && tokens[1] != tokens[2] && tokens[0] != tokens[2]
      requires forall t :: t in tokens ==> t !in state.owners
      modifies this
      ensures Valid() && p in state.procs
      ensures r.Lease? ==> HoldsLease(state, p) && state.entry == Some(r.inode) && r.inode in tokens
      ensures r.Lease? ==> forall q :: HoldsLease(state, q) ==> q == p
      ensures !r.Lease? ==> state.procs[p].Idle? && !HoldsLease(state, p)
      ensures r.Busy? ==> exists i :: i in state.owners && Alive(state, state.owners[i])
      ensures old(schedule) == [] && Obtainable(old(state)) ==> r.Lease?
      ensures old(schedule) == [] && LiveOwner(old(state)) ==> r.Busy?
    {
      for attempt := 0 to 3
        invariant Valid() && p in state.procs && state.procs[p].Idle?
        invariant forall i :: attempt <= i < 3 ==> tokens[i] !in state.owners
        invariant old(schedule) == [] && attempt == 0 ==> schedule == [] && state == old(state)
        invariant old(schedule) == [] && Obtainable(old(state)) && attempt > 0 ==>
                    schedule == [] && attempt == 1 && state.entry.None?
        invariant old(schedule) == [] && LiveOwner(old(state)) ==> attempt == 0
      {
        var mine := set t | t in tokens;
        var published, found := PublishLock(p, tokens[attempt], mine);
        if published {
          Exclusive(p);
          return Lease(tokens[attempt]);
        }
        var alive, ok := Contend(p, tries, mine);
        if alive { return Busy; }
        if !ok { return Failed; }
      }
      return Failed;
    }

    lemma Exclusive(p: Pid)
      requires Valid() && HoldsLease(state, p)
      ensures forall q :: HoldsLease(state, q) ==> q == p
    {
      Invariant();
      forall q | HoldsLease(state, q) ensures q == p { MutualExclusion(state, p, q); }
    }

    /** `release`: whatever happened since, the holder finds its own token and the name is free afterwards. */
    method ReleaseLock(p: Pid) returns (ok: bool)
      requires Valid() && p in state.procs && state.procs[p].Holding?
      modifies this
      ensures Valid() && ok && p in state.procs && state.procs[p].Idle? && state.entry.None?
    {
      Pause(p, {});
      Invariant();
      assert PcInv(state, p, state.procs[p]);
      Take(p, StartRelease);
      ok := state.procs[p].Releasing?;
      Pause(p, {});
      Take(p, Release);
    }
  }
}
