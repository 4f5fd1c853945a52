/** The scheduler's queue of due jobs: who is admitted, in which order, and how long a job can wait. */
module Admission {
  datatype WorkerClass = Ordinary | Supervisory | Durability

  function ClassOf(name: string): WorkerClass {
    if name == "health" then Supervisory else if name == "seal-push" then Durability else Ordinary
  }

  type Queue = seq<string>

  predicate Distinct(q: Queue) {
    forall i, j :: 0 <= i < j < |q| ==> q[i] != q[j]
  }

  // ----- what one operation does to the queue

  function Kept(q: Queue, due: seq<string>): Queue {
    if q == [] then [] else Kept(q[..|q| - 1], due) + (if q[|q| - 1] in due then [q[|q| - 1]] else [])
  }

  function Pushed(q: Queue, name: string): Queue {
    if name in q then q else q + [name]
  }

  function PushedAll(q: Queue, names: seq<string>): Queue {
    if names == [] then q else Pushed(PushedAll(q, names[..|names| - 1]), names[|names| - 1])
  }

  function Refreshed(q: Queue, due: seq<string>): Queue {
    PushedAll(Kept(q, due), due)
  }

  function OrdinaryIn(q: Queue): nat {
    if q == [] then 0 else OrdinaryIn(q[..|q| - 1]) + (if ClassOf(q[|q| - 1]).Ordinary? then 1 else 0)
  }

  /** Jobs of a queue that a take with this many ordinary turns admits, and those it leaves. */
  function Admitted(q: Queue, turns: nat): Queue {
    if q == [] then []
    else
      var n := |q| - 1;
      Admitted(q[..n], turns) + (if !ClassOf(q[n]).Ordinary? || OrdinaryIn(q[..n]) < turns then [q[n]] else [])
  }

  function Deferred(q: Queue, turns: nat): Queue {
    if q == [] then []
    else
      var n := |q| - 1;
      Deferred(q[..n], turns) + (if !ClassOf(q[n]).Ordinary? || OrdinaryIn(q[..n]) < turns then [] else [q[n]])
  }

  // ----- the mutable queue

  class DueJobAdmission {
    var pending: Queue

    ghost predicate Valid()
      reads this
    {
      Distinct(pending)
    }

    constructor ()
      ensures Valid() && pending == []
    {
      pending := [];
    }

    method Refresh(due: seq<string>)
      requires Valid()
      modifies this
      ensures Valid() && pending == Refreshed(old(pending), due)
      ensures forall name :: name in pending <==> name in due
    {
      var retained: Queue := [];
      for i := 0 to |pending|
        invariant pending == old(pending)
        invariant retained == Kept(pending[..i], due)
      {
        assert pending[..i + 1][..i] == pending[..i];
        if pending[i] in due { retained := retained + [pending[i]]; }
      }
      assert pending[..|pending|] == pending;
      KeptFilters(pending, due);
      pending := retained;
      for i := 0 to |due|
        invariant pending == PushedAll(retained, due[..i])
        invariant Distinct(pending)
        invariant forall name :: name in pending ==> name in due
        invariant forall name :: name in due[..i] ==> name in pending
      {
        assert due[..i + 1][..i] == due[..i] && due[..i + 1] == due[..i] + [due[i]];
        if due[i] !in pending { pending := pending + [due[i]]; }
      }
      assert due[..|due|] == due;
    }

    method TakeWithReserved(ordinaryTurns: nat) returns (selected: Queue)
      requires Valid()
      modifies this
      ensures Valid() && Distinct(selected)
      ensures selected == Admitted(old(pending), ordinaryTurns) && pending == Deferred(old(pending), ordinaryTurns)
      ensures Interleaved(selected, pending, old(pending))
    {
      ghost var all := pending;
      selected := [];
      var deferred: Queue := [];
      var ordinary := 0;
      ghost var i := 0;
      while pending != []
        invariant 0 <= i <= |all| && pending == all[i..]
        invariant selected == Admitted(all[..i], ordinaryTurns) && deferred == Deferred(all[..i], ordinaryTurns)
        invariant ordinary <= ordinaryTurns && ordinary <= OrdinaryIn(all[..i])
        invariant ordinary == OrdinaryIn(all[..i]) || ordinary == ordinaryTurns
        decreases |pending|
      {
        var name := pending[0];
        pending := pending[1..];
        assert all[..i + 1][..i] == all[..i] && all[..i + 1][i] == name;
        if !ClassOf(name).Ordinary? || ordinary < ordinaryTurns {
          if ClassOf(name).Ordinary? { ordinary := ordinary + 1; }
          selected := selected + [name];
        } else {
          deferred := deferred + [name];
        }
        i := i + 1;
      }
      assert all[..|all|] == all;
      pending := deferred;
      TakeSplits(all, ordinaryTurns);
      PartsDistinct(selected, deferred, all);
    }

    method Requeue(name: string)
      requires Valid()
      modifies this
      ensures Valid() && pending == Pushed(old(pending), name)
    {
      if name !in pending { pending := pending + [name]; }
    }
  }

  lemma {:induction false} KeptFilters(q: Queue, due: seq<string>)
    ensures forall name :: name in Kept(q, due) <==> name in q && name in due
    ensures Distinct(q) ==> Distinct(Kept(q, due))
  {
    if q != [] {
      KeptFilters(q[..|q| - 1], due);
      assert q == q[..|q| - 1] + [q[|q| - 1]];
    }
  }

  // ----- a take splits the queue

  /** `all` is `a` and `b` shuffled together with both orders kept. */
  ghost predicate Interleaved(a: Queue, b: Queue, all: Queue)
    decreases |all|
  {
    if all == [] then a == b == []
    else
      var n := |all| - 1;
      || (a != [] && a[|a| - 1] == all[n] && Interleaved(a[..|a| - 1], b, all[..n]))
      || (b != [] && b[|b| - 1] == all[n] && Interleaved(a, b[..|b| - 1], all[..n]))
  }

  lemma {:induction false} PartsDistinct(a: Queue, b: Queue, all: Queue)
    requires Interleaved(a, b, all)
    ensures forall name :: name in all <==> name in a || name in b
    ensures Distinct(all) ==> Distinct(a) && Distinct(b)
    decreases |all|
  {
    if all != [] {
      var n := |all| - 1;
      assert all == all[..n] + [all[n]];
      if a != [] && a[|a| - 1] == all[n] && Interleaved(a[..|a| - 1], b, all[..n]) {
        PartsDistinct(a[..|a| - 1], b, all[..n]);
        assert a == a[..|a| - 1] + [all[n]];
        assert forall i :: 0 <= i < |a| - 1 ==> a[i] in a[..|a| - 1];
      } else {
        PartsDistinct(a, b[..|b| - 1], all[..n]);
        assert b == b[..|b| - 1] + [all[n]];
        assert forall i :: 0 <= i < |b| - 1 ==> b[i] in b[..|b| - 1];
      }
    }
  }

  /** A take keeps both orders, admits every reserved job and the first `turns` ordinary ones. */
  lemma {:induction false} TakeSplits(q: Queue, turns: nat)
    ensures Interleaved(Admitted(q, turns), Deferred(q, turns), q)
    ensures forall name :: name in Deferred(q, turns) ==> ClassOf(name).Ordinary?
    ensures OrdinaryIn(Admitted(q, turns)) == if OrdinaryIn(q) < turns then OrdinaryIn(q) else turns
    ensures OrdinaryIn(Deferred(q, turns)) == OrdinaryIn(q) - OrdinaryIn(Admitted(q, turns))
  {
    if q != [] {
      var n := |q| - 1;
      TakeSplits(q[..n], turns);
      var a, d := Admitted(q[..n], turns), Deferred(q[..n], turns);
      assert (a + [q[n]])[..|a|] == a && (d + [q[n]])[..|d|] == d;
      assert a + [] == a && d + [] == d;
    }
  }

  // ----- how long a job waits

  /** Ordinary jobs queued in front of a name (or in the whole queue when it is not there). */
  function Ahead(q: Queue, name: string): nat {
    if name in q then
      var n := |q| - 1;
      if name in q[..n] then Ahead(q[..n], name) else OrdinaryIn(q[..n])
    else OrdinaryIn(q)
  }

  lemma {:induction false} AheadOfPushed(q: Queue, names: seq<string>, name: string)
    requires name in q
    ensures name in PushedAll(q, names) && Ahead(PushedAll(q, names), name) == Ahead(q, name)
  {
    if names != [] {
      AheadOfPushed(q, names[..|names| - 1], name);
      var r := PushedAll(q, names[..|names| - 1]);
      var last := names[|names| - 1];
      assert (r + [last])[..|r|] == r;
    }
  }

  lemma {:induction false} AheadOfKept(q: Queue, due: seq<string>, name: string)
    requires name in due
    ensures OrdinaryIn(Kept(q, due)) <= OrdinaryIn(q)
    ensures name in Kept(q, due) <==> name in q
    ensures name in q ==> Ahead(Kept(q, due), name) <= Ahead(q, name)
  {
    if q != [] {
      var n := |q| - 1;
      AheadOfKept(q[..n], due, name);
      var k := Kept(q[..n], due);
      assert (k + [q[n]])[..|k|] == k && k + [] == k;
      assert q == q[..n] + [q[n]];
    }
  }

  /** Neither departures nor arrivals put a job that stays due further back. */
  lemma RefreshKeepsPlace(q: Queue, due: seq<string>, name: string)
    requires name in q && name in due
    ensures name in Refreshed(q, due) && Ahead(Refreshed(q, due), name) <= Ahead(q, name)
  {
    AheadOfKept(q, due, name);
    AheadOfPushed(Kept(q, due), due, name);
  }

  lemma {:induction false} RefreshAdmitsDue(q: Queue, names: seq<string>)
    ensures forall name :: name in names ==> name in PushedAll(q, names)
  {
    if names != [] {
      RefreshAdmitsDue(q, names[..|names| - 1]);
      assert names == names[..|names| - 1] + [names[|names| - 1]];
    }
  }

  lemma AheadOfLast(q: Queue, last: string, name: string)
    ensures name in q ==> Ahead(q + [last], name) == Ahead(q, name)
    ensures name !in q && name == last ==> Ahead(q + [last], name) == OrdinaryIn(q)
  {
    assert (q + [last])[..|q|] == q;
  }

  /** What is to be shown of one job in one take. */
  predicate AdmitsIff(q: Queue, turns: nat, name: string) {
    && (name in Admitted(q, turns) <==> Ahead(q, name) < turns)
    && (name in Deferred(q, turns) <==> Ahead(q, name) >= turns)
    && (Ahead(q, name) >= turns ==> Ahead(Deferred(q, turns), name) == Ahead(q, name) - turns)
  }

  lemma AdmitsIffNext(q: Queue, last: string, turns: nat, name: string)
    requires name in q && AdmitsIff(q, turns, name) && last != name
    ensures AdmitsIff(q + [last], turns, name)
  {
    var a, d := Admitted(q, turns), Deferred(q, turns);
    assert (q + [last])[..|q|] == q && a + [] == a && d + [] == d;
    AheadOfLast(q, last, name);
    AheadOfLast(d, last, name);
  }

  lemma AdmitsIffLast(q: Queue, turns: nat, name: string)
    requires name !in q && ClassOf(name).Ordinary?
    ensures AdmitsIff(q + [name], turns, name)
  {
    assert (q + [name])[..|q|] == q;
    TakeSplits(q, turns);
    PartsDistinct(Admitted(q, turns), Deferred(q, turns), q);
    AheadOfLast(Deferred(q, turns), name, name);
  }

  /** An ordinary job is admitted exactly when fewer jobs than turns are ahead; otherwise it moves up by `turns`. */
  lemma {:induction false} TakeAdmitsIff(q: Queue, turns: nat, name: string)
    requires name in q && ClassOf(name).Ordinary? && Distinct(q)
    ensures AdmitsIff(q, turns, name)
  {
    var n := |q| - 1;
    var front, last := q[..n], q[n];
    assert q == front + [last];
    if last == name {
      AdmitsIffLast(front, turns, name);
    } else {
      TakeAdmitsIff(front, turns, name);
      AdmitsIffNext(front, last, turns, name);
    }
  }

  /** One pass of the scheduler loop: refresh, take, then requeue whatever could not be started. */
  datatype Round = Round(due: seq<string>, requeued: seq<string>)

  function Selected(q: Queue, round: Round, turns: nat): Queue {
    Admitted(Refreshed(q, round.due), turns)
  }

  function AfterRound(q: Queue, round: Round, turns: nat): Queue {
    PushedAll(Deferred(Refreshed(q, round.due), turns), round.requeued)
  }

  function QueueAt(q: Queue, rounds: seq<Round>, turns: nat, i: nat): Queue
    requires i <= |rounds|
  {
    if i == 0 then q else AfterRound(QueueAt(q, rounds, turns, i - 1), rounds[i - 1], turns)
  }

  lemma {:induction false} PushedDistinct(q: Queue, names: seq<string>)
    requires Distinct(q)
    ensures Distinct(PushedAll(q, names))
  {
    if names != [] { PushedDistinct(q, names[..|names| - 1]); }
  }

  lemma RefreshedDistinct(q: Queue, due: seq<string>)
    requires Distinct(q)
    ensures Distinct(Refreshed(q, due))
  {
    KeptFilters(q, due);
    PushedDistinct(Kept(q, due), due);
  }

  /** Over any sequence of rounds the queue never holds a name twice. */
  lemma {:induction false} QueueStaysDistinct(q: Queue, rounds: seq<Round>, turns: nat, i: nat)
    requires Distinct(q) && i <= |rounds|
    ensures Distinct(QueueAt(q, rounds, turns, i))
  {
    if i > 0 {
      QueueStaysDistinct(q, rounds, turns, i - 1);
      var before := QueueAt(q, rounds, turns, i - 1);
      var all := Refreshed(before, rounds[i - 1].due);
      RefreshedDistinct(before, rounds[i - 1].due);
      TakeSplits(all, turns);
      PartsDistinct(Admitted(all, turns), Deferred(all, turns), all);
      PushedDistinct(Deferred(all, turns), rounds[i - 1].requeued);
    }
  }

  /** Ordinary jobs ahead of a name at the moment of the i-th take. */
  function Depth(q: Queue, rounds: seq<Round>, turns: nat, name: string, i: nat): nat
    requires i < |rounds|
  {
    Ahead(Refreshed(QueueAt(q, rounds, turns, i), rounds[i].due), name)
  }

  predicate SelectedAt(q: Queue, rounds: seq<Round>, turns: nat, name: string, i: nat)
    requires i < |rounds|
  {
    name in Selected(QueueAt(q, rounds, turns, i), rounds[i], turns)
  }

  /** A due ordinary job is selected in a round exactly when fewer jobs than turns are ahead of it. */
  lemma SelectedIff(q: Queue, rounds: seq<Round>, turns: nat, name: string, i: nat)
    requires Distinct(q) && ClassOf(name).Ordinary? && i < |rounds| && name in rounds[i].due
    ensures SelectedAt(q, rounds, turns, name, i) <==> Depth(q, rounds, turns, name, i) < turns
  {
    var before := QueueAt(q, rounds, turns, i);
    QueueStaysDistinct(q, rounds, turns, i);
    RefreshedDistinct(before, rounds[i].due);
    RefreshAdmitsDue(Kept(before, rounds[i].due), rounds[i].due);
    TakeAdmitsIff(Refreshed(before, rounds[i].due), turns, name);
  }

  /** Passed over once and still due: at least `turns` fewer jobs ahead at the next take. */
  lemma PassedOver(q: Queue, rounds: seq<Round>, turns: nat, name: string, i: nat)
    requires Distinct(q) && ClassOf(name).Ordinary? && i + 1 < |rounds|
    requires name in rounds[i].due && name in rounds[i + 1].due && !SelectedAt(q, rounds, turns, name, i)
    ensures Depth(q, rounds, turns, name, i + 1) + turns <= Depth(q, rounds, turns, name, i)
  {
    var before := QueueAt(q, rounds, turns, i);
    var all := Refreshed(before, rounds[i].due);
    QueueStaysDistinct(q, rounds, turns, i);
    RefreshedDistinct(before, rounds[i].due);
    RefreshAdmitsDue(Kept(before, rounds[i].due), rounds[i].due);
    TakeAdmitsIff(all, turns, name);
    AheadOfPushed(Deferred(all, turns), rounds[i].requeued, name);
    RefreshKeepsPlace(AfterRound(before, rounds[i], turns), rounds[i + 1].due, name);
  }

  /**
   * With at least one ordinary turn, a job with `k` ordinary jobs ahead that stays
   * due is selected within floor(k / turns) + 1 takes, whatever arrives, leaves or
   * is requeued meanwhile.
   */
  lemma {:induction false} BoundedWait(q: Queue, rounds: seq<Round>, turns: nat, name: string) returns (i: nat)
    requires Distinct(q) && ClassOf(name).Ordinary? && turns >= 1 && |rounds| > 0
    requires forall round :: round in rounds ==> name in round.due
    requires |rounds| * turns > Depth(q, rounds, turns, name, 0)
    ensures i < |rounds| && i * turns <= Depth(q, rounds, turns, name, 0)
    ensures SelectedAt(q, rounds, turns, name, i)
  {
    i := 0;
    while !SelectedAt(q, rounds, turns, name, i)
      invariant i < |rounds|
      invariant Depth(q, rounds, turns, name, i) + i * turns <= Depth(q, rounds, turns, name, 0)
      decreases |rounds| - i
    {
      SelectedIff(q, rounds, turns, name, i);
      assert (i + 1) * turns == i * turns + turns;
      assert i + 1 != |rounds|;
      PassedOver(q, rounds, turns, name, i);
      i := i + 1;
    }
  }

  /** A due `health` or `seal-push` is selected in every round, whatever the turns. */
  lemma ReservedAreSelected(q: Queue, rounds: seq<Round>, turns: nat, name: string, i: nat)
    requires i < |rounds| && name in {"health", "seal-push"} && name in rounds[i].due
    ensures SelectedAt(q, rounds, turns, name, i)
  {
    var before := QueueAt(q, rounds, turns, i);
    RefreshAdmitsDue(Kept(before, rounds[i].due), rounds[i].due);
    ReservedAreAdmitted(Refreshed(before, rounds[i].due), turns, name);
  }

  lemma {:induction false} ReservedAreAdmitted(q: Queue, turns: nat, name: string)
    requires name in q && !ClassOf(name).Ordinary?
    ensures name in Admitted(q, turns)
  {
    var n := |q| - 1;
    if q[n] != name { ReservedAreAdmitted(q[..n], turns, name); }
  }

  /** Every other job is an ordinary one. */
  lemma OthersAreOrdinary(name: string)
    ensures ClassOf(name).Ordinary? <==> name !in {"health", "seal-push"}
  {
  }

  /** What a refresh queues: the names still due in their old order, then each other due name where it is first listed. */
  lemma {:induction false} RefreshIsOrdered(q: Queue, names: seq<string>)
    ensures q <= PushedAll(q, names)
    ensures forall i, j :: |q| <= i < j < |PushedAll(q, names)| ==>
              FirstAt(names, PushedAll(q, names)[i]) < FirstAt(names, PushedAll(q, names)[j]) < |names|
    ensures forall i :: |q| <= i < |PushedAll(q, names)| ==> FirstAt(names, PushedAll(q, names)[i]) < |names|
  {
    if names != [] {
      var n := |names| - 1;
      var front := names[..n];
      var before, after := PushedAll(q, front), PushedAll(q, names);
      assert names == front + [names[n]];
      RefreshIsOrdered(q, front);
      forall i | |q| <= i < |before|
        ensures FirstAt(names, before[i]) == FirstAt(front, before[i]) < n
      {
        FirstAtOfPrefix(front, names[n], before[i]);
      }
      if names[n] !in before {
        RefreshAdmitsDue(q, front);
        FirstAtOfPrefix(front, names[n], names[n]);
      }
    }
  }

  /** Where a name is first listed; the length of the list when it is not. */
  function FirstAt(names: seq<string>, name: string): nat {
    if names == [] || names[0] == name then 0 else 1 + FirstAt(names[1..], name)
  }

  lemma {:induction false} FirstAtOfPrefix(front: seq<string>, last: string, name: string)
    ensures FirstAt(front, name) <= |front|
    ensures FirstAt(front, name) < |front| ==> FirstAt(front + [last], name) == FirstAt(front, name)
    ensures name !in front ==> FirstAt(front, name) == |front|
    ensures name !in front && name == last ==> FirstAt(front + [last], name) == |front|
  {
    if front == [] {
      assert front + [last] == [last];
    } else if front[0] != name {
      FirstAtOfPrefix(front[1..], last, name);
      assert (front + [last])[1..] == front[1..] + [last];
      assert front == [front[0]] + front[1..];
    }
  }

  /** Without ordinary turns no ordinary job is ever selected. */
  lemma NoTurnsNoWork(q: Queue, rounds: seq<Round>, name: string, i: nat)
    requires ClassOf(name).Ordinary? && i < |rounds|
    ensures name !in Selected(QueueAt(q, rounds, 0, i), rounds[i], 0)
  {
    NothingOrdinaryAdmitted(Refreshed(QueueAt(q, rounds, 0, i), rounds[i].due), name);
  }

  lemma {:induction false} NothingOrdinaryAdmitted(q: Queue, name: string)
    requires ClassOf(name).Ordinary?
    ensures name !in Admitted(q, 0)
  {
    if q != [] { NothingOrdinaryAdmitted(q[..|q| - 1], name); }
  }
}
