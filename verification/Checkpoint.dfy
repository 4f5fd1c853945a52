/** Agent Run checkpoints: which update may replace which, and what a chain of accepted updates keeps. */
module Checkpoint {
  import opened Wrappers

  datatype Target = Target(workspaceId: string, paneId: string)

  datatype PaneIdentity = TerminalOnly(terminalId: string) | SessionBound(terminalId: string, sessionId: string)

  datatype SessionIdentity = SessionIdentity(terminalId: string, sessionId: string, agentSessionId: Option<string>)

  datatype Checkpoint =
    | WorkspaceCreated(target: Target)
    | Launched(target: Target)
    | Ready(target: Target, pane: PaneIdentity)
    | Submitting(target: Target, pane: PaneIdentity)
    | Working(target: Target, pane: PaneIdentity)
    | TerminalObserved(target: Target, pane: PaneIdentity)
    | Captured(target: Target, session: SessionIdentity)
  {
    function Rank(): nat {
      match this
      case WorkspaceCreated(_) => 0
      case Launched(_) => 1
      case Ready(_, _) => 2
      case Submitting(_, _) => 3
      case Working(_, _) => 4
      case TerminalObserved(_, _) => 5
      case Captured(_, _) => 6
    }

    /** The pane as later observers will report it; a capture keeps the agent's own session id. */
    function Pane(): Option<PaneIdentity> {
      match this
      case WorkspaceCreated(_) => None
      case Launched(_) => None
      case Ready(_, p) => Some(p)
      case Submitting(_, p) => Some(p)
      case Working(_, p) => Some(p)
      case TerminalObserved(_, p) => Some(p)
      case Captured(_, s) =>
        Some(SessionBound(s.terminalId, if s.agentSessionId.Some? then s.agentSessionId.value else s.sessionId))
    }

    /** The session a recovery waits for: that of the pane, or the one the capture itself was written under. */
    function SessionId(): Option<string> {
      match this
      case WorkspaceCreated(_) => None
      case Launched(_) => None
      case Captured(_, s) => Some(s.sessionId)
      case _ => if Pane().value.SessionBound? then Some(Pane().value.sessionId) else None
    }

    /** The agent's own session id, which a capture keeps only when it differs from the session's. */
    function AgentId(): Option<string> {
      match this
      case Captured(_, s) => s.agentSessionId
      case _ => None
    }

    /** What the constructor of a capture guarantees. */
    predicate WellFormed() {
      AgentId().Some? ==> AgentId() != SessionId()
    }

    predicate CanFollow(next: Checkpoint) {
      && target == next.target
      && if Rank() == next.Rank() then SamePane(Pane(), next.Pane())
         else match (Pane(), next.Pane())
           case (None, _) => true
           case (Some(current), Some(later)) => PaneCanFollow(current, later)
           case (Some(_), None) => Rank() > next.Rank()
    }
  }

  predicate PaneCanFollow(current: PaneIdentity, next: PaneIdentity) {
    match (current, next)
    case (TerminalOnly(a), TerminalOnly(b)) => a == b
    case (TerminalOnly(a), SessionBound(b, _)) => a == b
    case (SessionBound(a, x), SessionBound(b, y)) => a == b && x == y
    case (SessionBound(_, _), TerminalOnly(_)) => false
  }

  predicate SamePane(current: Option<PaneIdentity>, next: Option<PaneIdentity>) {
    match (current, next)
    case (None, None) => true
    case (Some(a), Some(b)) => PaneCanFollow(a, b)
    case _ => false
  }

  /** An update that replaces the recorded checkpoint, rather than failing or being skipped as outdated. */
  predicate Replaces(current: Checkpoint, next: Checkpoint) {
    current.CanFollow(next) && current.Rank() <= next.Rank()
  }

  /** A run passes these stages in this order. */
  lemma RanksFollowProgress(t: Target, pane: PaneIdentity, session: SessionIdentity)
    ensures WorkspaceCreated(t).Rank() < Launched(t).Rank() < Ready(t, pane).Rank() < Submitting(t, pane).Rank()
    ensures Submitting(t, pane).Rank() < Working(t, pane).Rank() < TerminalObserved(t, pane).Rank() < Captured(t, session).Rank()
  {
  }

  /** What is recorded after one update, whether it is accepted, skipped or refused. */
  function Updated(current: Option<Checkpoint>, next: Checkpoint): Option<Checkpoint> {
    match current
    case None => Some(next)
    case Some(c) => if Replaces(c, next) then Some(next) else current
  }

  /** What is recorded after updates delivered in this order. */
  function Delivered(current: Option<Checkpoint>, updates: seq<Checkpoint>): Option<Checkpoint> {
    if updates == [] then current
    else Updated(Delivered(current, updates[..|updates| - 1]), updates[|updates| - 1])
  }

  /** The identity a later checkpoint must share with an earlier one. */
  predicate KeepsIdentity(a: Checkpoint, b: Checkpoint) {
    && a.target == b.target
    && a.Rank() <= b.Rank()
    && (a.Pane().Some? ==>
          && b.Pane().Some?
          && a.Pane().value.terminalId == b.Pane().value.terminalId
          && (a.Pane().value.SessionBound? ==> a.Pane() == b.Pane()))
  }

  /** An update replaces the record exactly when it keeps its identity and does not go back. */
  lemma ReplacesIffKeepsIdentity(a: Checkpoint, b: Checkpoint)
    ensures Replaces(a, b) <==> KeepsIdentity(a, b)
  {
  }

  /** The accepted-write relation is a preorder. */
  lemma ReplacesIsPreorder(a: Checkpoint, b: Checkpoint, c: Checkpoint)
    ensures Replaces(a, a)
    ensures Replaces(a, b) && Replaces(b, c) ==> Replaces(a, c)
  {
    ReplacesIffKeepsIdentity(a, a);
    ReplacesIffKeepsIdentity(a, b);
    ReplacesIffKeepsIdentity(b, c);
    ReplacesIffKeepsIdentity(a, c);
  }

  /** `can_follow` on its own is not transitive: an outdated update in the middle loses the pane. */
  lemma CanFollowIsNotTransitive() returns (a: Checkpoint, b: Checkpoint, c: Checkpoint)
    ensures a.CanFollow(b) && b.CanFollow(c) && !a.CanFollow(c)
  {
    var t := Target("w", "p");
    a := Working(t, TerminalOnly("t1"));
    b := Launched(t);
    c := Ready(t, TerminalOnly("t2"));
  }

  /** Whatever order updates arrive in, a recorded target, rank, terminal and bound session are never lost. */
  lemma {:induction false} ChainKeepsIdentity(first: Option<Checkpoint>, updates: seq<Checkpoint>, i: nat, j: nat)
    requires i <= j <= |updates|
    requires Delivered(first, updates[..i]).Some?
    ensures Delivered(first, updates[..j]).Some?
    ensures Replaces(Delivered(first, updates[..i]).value, Delivered(first, updates[..j]).value)
    ensures KeepsIdentity(Delivered(first, updates[..i]).value, Delivered(first, updates[..j]).value)
    decreases j - i
  {
    var a := Delivered(first, updates[..i]).value;
    ReplacesIsPreorder(a, a, a);
    if i == j {
    } else {
      ChainKeepsIdentity(first, updates, i, j - 1);
      assert updates[..j][..j - 1] == updates[..j - 1];
      var b := Delivered(first, updates[..j - 1]).value;
      var c := Delivered(first, updates[..j]).value;
      ReplacesIsPreorder(b, b, b);
      ReplacesIsPreorder(a, b, c);
    }
    ReplacesIffKeepsIdentity(a, Delivered(first, updates[..j]).value);
  }

  // ----- the session of a capture

  /** Two captures of one agent session in one pane, under different session ids: the second replaces the first. */
  lemma SessionMayChange(target: Target, terminal: string, agent: string, first: string, second: string)
    returns (a: Checkpoint, b: Checkpoint)
    requires first != agent && second != agent && first != second
    ensures a.WellFormed() && b.WellFormed() && a.target == b.target == target
    ensures a.AgentId() == b.AgentId() == Some(agent) && a.SessionId() == Some(first) && b.SessionId() == Some(second)
    ensures Replaces(a, b)
  {
    a := Captured(target, SessionIdentity(terminal, first, Some(agent)));
    b := Captured(target, SessionIdentity(terminal, second, Some(agent)));
  }

  /** The same capture with another session id, still a capture of the same agent session. */
  lemma OtherCapture(a: Checkpoint, b: Checkpoint) returns (c: Checkpoint)
    requires Replaces(a, b) && b.Captured? && b.WellFormed() && b.AgentId().Some? && a.SessionId().Some?
    ensures c.Captured? && c.WellFormed() && c.AgentId() == b.AgentId() && Replaces(a, c) && c.SessionId() != a.SessionId()
  {
    var other := a.SessionId().value + b.AgentId().value + "'";
    assert |other| > |a.SessionId().value| && |other| > |b.AgentId().value|;
    c := Captured(b.target, SessionIdentity(b.session.terminalId, other, b.AgentId()));
    ReplacesIffKeepsIdentity(a, b);
    ReplacesIffKeepsIdentity(a, c);
  }

  /**
   * Once a session is bound, an accepted update with given agent session id is sure to
   * keep the session id exactly when neither side is a capture with an agent session id
   * of its own.
   */
  lemma SessionKeptIff(a: Checkpoint, b: Checkpoint)
    requires a.WellFormed() && b.WellFormed() && Replaces(a, b) && a.SessionId().Some?
    ensures (forall c: Checkpoint :: c.WellFormed() && c.AgentId() == b.AgentId() && Replaces(a, c) ==> c.SessionId() == a.SessionId())
            <==> a.AgentId().None? && b.AgentId().None?
  {
    if a.AgentId().None? && b.AgentId().None? {
      forall c: Checkpoint | c.WellFormed() && c.AgentId() == b.AgentId() && Replaces(a, c)
        ensures c.SessionId() == a.SessionId()
      {
        ReplacesIffKeepsIdentity(a, c);
      }
    } else if b.AgentId().Some? {
      var c := OtherCapture(a, b);
    } else {
      ReplacesIffKeepsIdentity(a, b);
      assert b.SessionId() == a.AgentId();
    }
  }

  /** Over any updates without agent session ids, a recorded session id is never replaced by another. */
  lemma {:induction false} ChainKeepsSession(first: Option<Checkpoint>, updates: seq<Checkpoint>, i: nat, j: nat)
    requires i <= j <= |updates|
    requires first.Some? ==> first.value.AgentId().None?
    requires forall u :: u in updates ==> u.AgentId().None?
    requires Delivered(first, updates[..i]).Some? && Delivered(first, updates[..i]).value.SessionId().Some?
    ensures Delivered(first, updates[..j]).Some?
    ensures Delivered(first, updates[..j]).value.SessionId() == Delivered(first, updates[..i]).value.SessionId()
  {
    ChainKeepsIdentity(first, updates, i, j);
    NoAgentDelivered(first, updates[..i]);
    NoAgentDelivered(first, updates[..j]);
    var a, b := Delivered(first, updates[..i]).value, Delivered(first, updates[..j]).value;
    assert a.WellFormed() && b.WellFormed();
    SessionKeptIff(a, b);
  }

  lemma {:induction false} NoAgentDelivered(first: Option<Checkpoint>, updates: seq<Checkpoint>)
    requires first.Some? ==> first.value.AgentId().None?
    requires forall u :: u in updates ==> u.AgentId().None?
    ensures Delivered(first, updates).Some? ==> Delivered(first, updates).value.AgentId().None?
  {
    if updates != [] {
      NoAgentDelivered(first, updates[..|updates| - 1]);
      assert updates[|updates| - 1] in updates;
    }
  }
}
