/**
 * `ReconState`: the accumulator that folds envelopes into messages, a history key, a
 * harness identity and the trailing output of the last response.
 */
module Reconstruction {
  import opened Wrappers
  import opened DeltaCodec

  datatype Harness = Claude | Codex

  datatype HarnessState = Unknown | ProvisionalCodex | Explicit(harness: Harness)
  {
    function Value(): Option<Harness> {
      match this
      case Unknown => None
      case ProvisionalCodex => Some(Codex)
      case Explicit(h) => Some(h)
    }
  }

  datatype ReconError = ConflictingLabels | BadDelta(error: DeltaError)

  /** `Harness::from_label`. */
  function FromLabel(text: string): Option<Harness> {
    if text == "codex" then Some(Codex)
    else if text == "claude-code" || text == "claude" then Some(Claude)
    else None
  }

  function Pointer(v: Value, path: seq<string>): Option<Value> {
    if path == [] then Some(v)
    else match Get(v, path[0])
      case None => None
      case Some(inner) => Pointer(inner, path[1..])
  }

  function Label(env: Value): Option<Harness> {
    match Get(env, "harness")
    case Some(Str(text)) => FromLabel(text)
    case _ => None
  }

  function HistoryOf(env: Value): Option<Value> {
    Pointer(env, ["request", "body_delta", "history"])
  }

  function KeyOf(env: Value): Option<string> {
    match HistoryOf(env)
    case None => None
    case Some(h) =>
      match Get(h, "key")
      case Some(Str(key)) => Some(key)
      case _ => None
  }

  /** Everything the accumulator remembers. */
  datatype Progress = Progress(fold: Fold, key: string, harness: HarnessState, trailing: seq<Value>, envelopes: nat)

  const START := Progress(Fold([], map[]), "messages", Unknown, [], 0)

  function NextHarness(state: HarnessState, env: Value): Result<HarnessState, ReconError> {
    match (state, Label(env))
    case (Explicit(first), Some(next)) => if first != next then Err(ConflictingLabels) else Ok(state)
    case (_, Some(next)) => Ok(Explicit(next))
    case (Unknown, None) => Ok(if KeyOf(env) == Some("input") then ProvisionalCodex else Unknown)
    case (_, None) => Ok(state)
  }

  /** What a response yields for a harness; the wire formats are not part of this model. */
  type Extract = (Value, Option<Harness>) -> seq<Value>

  /** One envelope as a function of everything before it; an error leaves nothing half applied. */
  function Applied(env: Value, p: Progress, extract: Extract): Result<Progress, ReconError> {
    match NextHarness(p.harness, env)
    case Err(e) => Err(e)
    case Ok(harness) =>
      match HistoryOf(env)
      case None => Ok(Progress(p.fold, p.key, harness, extract(env, harness.Value()), p.envelopes + 1))
      case Some(h) =>
        match Replayed(h, p.fold)
        case Err(e) => Err(BadDelta(e))
        case Ok(fold) =>
          var key := if KeyOf(env).Some? then KeyOf(env).value else p.key;
          Ok(Progress(fold, key, harness, extract(env, harness.Value()), p.envelopes + 1))
  }

  /** The first `n` envelopes in order. */
  function AppliedAll(envs: seq<Value>, n: nat, extract: Extract): Result<Progress, ReconError>
    requires n <= |envs|
  {
    if n == 0 then Ok(START)
    else match AppliedAll(envs, n - 1, extract)
      case Err(e) => Err(e)
      case Ok(p) => Applied(envs[n - 1], p, extract)
  }

  /** The result handed to readers. */
  datatype Recon = Recon(key: string, harness: Option<Harness>, historyLen: nat, messages: seq<Value>, trailingAppended: nat, envelopes: nat)

  function Finished(p: Progress): Recon {
    Recon(p.key, p.harness.Value(), |p.fold.msgs|, p.fold.msgs + p.trailing, |p.trailing|, p.envelopes)
  }

  class ReconState {
    var msgs: seq<Value>
    var hashDict: map<string, Value>
    var key: string
    var harness: HarnessState
    var trailing: seq<Value>
    var envelopes: nat

    function Current(): Progress
      reads this
    {
      Progress(Fold(msgs, hashDict), key, harness, trailing, envelopes)
    }

    constructor ()
      ensures Current() == START
    {
      msgs, hashDict, key, harness, trailing, envelopes := [], map[], "messages", Unknown, [], 0;
    }

    /** The lookups of an order delta, without touching the state. */
    method ResolveOrder(order: seq<Value>, added: map<string, Value>) returns (r: Result<seq<Value>, DeltaError>)
      ensures r == Resolved(order, added, hashDict)
    {
      var resolved := [];
      for i := 0 to |order|
        invariant Resolved(order[..i], added, hashDict) == Ok(resolved)
      {
        assert order[..i + 1][..i] == order[..i];
        if !order[i].Str? { ErrorsPersist(order, i + 1, added, hashDict); return Err(BadEntry); }
        var id := order[i].text;
        if id in added {
          resolved := resolved + [added[id]];
        } else if id in hashDict {
          resolved := resolved + [hashDict[id]];
        } else {
          ErrorsPersist(order, i + 1, added, hashDict);
          return Err(Unresolved);
        }
      }
      assert order[..|order|] == order;
      return Ok(resolved);
    }

    /** `apply_delta`. A delta that fails leaves messages and dictionary as they were. */
    method ApplyDelta(h: Value) returns (r: Result<(), DeltaError>)
      modifies this`msgs, this`hashDict
      ensures r.Ok? <==> Accepted(h, old(Fold(msgs, hashDict)))
      ensures r.Ok? ==> DoesAsShaped(h, old(Fold(msgs, hashDict)), Fold(msgs, hashDict))
      ensures r.Ok? ==> Replayed(h, old(Fold(msgs, hashDict))) == Ok(Fold(msgs, hashDict))
      ensures r.Err? ==> msgs == old(msgs) && hashDict == old(hashDict) && Replayed(h, Fold(msgs, hashDict)) == Err(r.error)
    {
      ReplayedAsShaped(h, Fold(msgs, hashDict));
      var parts := ReadParts(h);
      if parts.Err? { return Err(parts.error); }
      match (parts.value.append, parts.value.prefix, parts.value.order) {
        case (Some(items), Some(n), None) =>
          if parts.value.added.Some? || n > |msgs| { return Err(BadAppend); }
          msgs := msgs[..n];
          msgs := msgs + items;
        case (Some(items), None, None) =>
          if parts.value.added.Some? { return Err(BadLegacyAppend); }
          msgs := msgs + items;
        case (None, None, Some(order)) =>
          var added := if parts.value.added.Some? then parts.value.added.value else EMPTY_FIELDS;
          var resolved := ResolveOrder(order, added);
          if resolved.Err? { return Err(resolved.error); }
          assert hashDict + EMPTY_FIELDS == hashDict;
          if parts.value.added.Some? { hashDict := hashDict + added; }
          msgs := resolved.value;
        case _ => return Err(UnknownShape);
      }
      return Ok(());
    }

    /** `ReconState::apply`. */
    method Apply(env: Value, extract: Extract) returns (r: Result<(), ReconError>)
      modifies this
      ensures r.Ok? ==> Applied(env, old(Current()), extract) == Ok(Current())
      ensures r.Err? ==> Applied(env, old(Current()), extract) == Err(r.error) && Current() == old(Current())
    {
      var nextHarness := NextHarness(harness, env);
      if nextHarness.Err? { return Err(nextHarness.error); }
      var history := HistoryOf(env);
      if history.Some? {
        var applied := ApplyDelta(history.value);
        if applied.Err? { return Err(BadDelta(applied.error)); }
        if KeyOf(env).Some? { key := KeyOf(env).value; }
      }
      harness := nextHarness.value;
      envelopes := envelopes + 1;
      trailing := extract(env, harness.Value());
      return Ok(());
    }

    method Finish() returns (r: Recon)
      ensures r == Finished(Current())
    {
      r := Recon(key, harness.Value(), |msgs|, msgs + trailing, |trailing|, envelopes);
    }
  }

  /** `reconstruct_snapshot` over the envelopes a snapshot visits. */
  method Reconstruct(envs: seq<Value>, extract: Extract) returns (r: Result<Recon, ReconError>)
    ensures match AppliedAll(envs, |envs|, extract)
            case Ok(p) => r == Ok(Finished(p))
            case Err(e) => r == Err(e)
  {
    var state := new ReconState();
    for i := 0 to |envs|
      invariant AppliedAll(envs, i, extract) == Ok(state.Current())
    {
      var applied := state.Apply(envs[i], extract);
      if applied.Err? {
        FailuresPersist(envs, i + 1, |envs|, extract);
        return Err(applied.error);
      }
    }
    var done := state.Finish();
    return Ok(done);
  }

  lemma {:induction false} ErrorsPersist(order: seq<Value>, n: nat, added: map<string, Value>, dict: map<string, Value>)
    requires n <= |order| && Resolved(order[..n], added, dict).Err?
    ensures Resolved(order, added, dict) == Resolved(order[..n], added, dict)
  {
    if n == |order| {
      assert order[..n] == order;
    } else {
      assert order[..|order| - 1][..n] == order[..n];
      ErrorsPersist(order[..|order| - 1], n, added, dict);
    }
  }

  lemma {:induction false} FailuresPersist(envs: seq<Value>, n: nat, m: nat, extract: Extract)
    requires n <= m <= |envs| && AppliedAll(envs, n, extract).Err?
    ensures AppliedAll(envs, m, extract) == AppliedAll(envs, n, extract)
  {
    if n < m { FailuresPersist(envs, n, m - 1, extract); }
  }

  // ----- harness identity

  /** What a harness state says about the first `n` envelopes. */
  predicate Agreed(state: HarnessState, envs: seq<Value>, n: nat)
    requires n <= |envs|
  {
    match state
    case Explicit(h) =>
      && (exists i :: 0 <= i < n && Label(envs[i]).Some?)
      && forall i :: 0 <= i < n ==> Label(envs[i]) in {None, Some(h)}
    case ProvisionalCodex =>
      && (forall i :: 0 <= i < n ==> Label(envs[i]) == None)
      && exists i :: 0 <= i < n && KeyOf(envs[i]) == Some("input")
    case Unknown =>
      forall i :: 0 <= i < n ==> Label(envs[i]) == None && KeyOf(envs[i]) != Some("input")
  }

  lemma NextHarnessAgrees(state: HarnessState, envs: seq<Value>, n: nat)
    requires n < |envs| && Agreed(state, envs, n)
    ensures NextHarness(state, envs[n]).Ok? ==> Agreed(NextHarness(state, envs[n]).value, envs, n + 1)
    ensures NextHarness(state, envs[n]).Err? <==>
            Label(envs[n]).Some? && exists i :: 0 <= i < n && Label(envs[i]).Some? && Label(envs[i]) != Label(envs[n])
  {
    if state.Explicit? {
      var i :| 0 <= i < n && Label(envs[i]).Some?;
      assert Label(envs[i]) == Some(state.harness);
    }
    assert Label(envs[n]).Some? || KeyOf(envs[n]) == Some("input") || KeyOf(envs[n]) != Some("input");
  }

  lemma AppliedParts(env: Value, p: Progress, extract: Extract)
    ensures NextHarness(p.harness, env).Err? ==> Applied(env, p, extract) == Err(NextHarness(p.harness, env).error)
    ensures Applied(env, p, extract).Ok? ==>
              && NextHarness(p.harness, env) == Ok(Applied(env, p, extract).value.harness)
              && Applied(env, p, extract).value.envelopes == p.envelopes + 1
              && Applied(env, p, extract).value.trailing == extract(env, Applied(env, p, extract).value.harness.Value())
    ensures NextHarness(p.harness, env).Ok? && HistoryOf(env).Some? ==>
              match Replayed(HistoryOf(env).value, p.fold)
              case Err(e) => Applied(env, p, extract) == Err(BadDelta(e))
              case Ok(f) => Applied(env, p, extract).Ok? && Applied(env, p, extract).value.fold == f
    ensures Applied(env, p, extract).Ok? && KeyOf(env).Some? ==> Applied(env, p, extract).value.key == KeyOf(env).value
  {
  }

  /**
   * The harness is the label every labelled envelope agrees on; without labels it is
   * Codex exactly when some history was recorded under "input".
   */
  lemma {:induction false} HarnessIsTheAgreedLabel(envs: seq<Value>, extract: Extract, n: nat)
    requires n <= |envs| && AppliedAll(envs, n, extract).Ok?
    ensures Agreed(AppliedAll(envs, n, extract).value.harness, envs, n)
  {
    if n > 0 {
      HarnessIsTheAgreedLabel(envs, extract, n - 1);
      var before := AppliedAll(envs, n - 1, extract).value;
      AppliedParts(envs[n - 1], before, extract);
      NextHarnessAgrees(before.harness, envs, n - 1);
    }
  }

  // ----- the key, and one envelope as it is written

  /** The key is the last one any history named, and "messages" before the first. */
  lemma {:induction false} KeyIsLastNamed(envs: seq<Value>, n: nat, i: nat, extract: Extract)
    requires i <= n <= |envs| && AppliedAll(envs, n, extract).Ok?
    requires forall j :: i <= j < n ==> KeyOf(envs[j]).None?
    ensures i == 0 ==> AppliedAll(envs, n, extract).value.key == "messages"
    ensures i > 0 && KeyOf(envs[i - 1]).Some? ==> AppliedAll(envs, n, extract).value.key == KeyOf(envs[i - 1]).value
  {
    if i < n {
      KeyIsLastNamed(envs, n - 1, i, extract);
    }
  }

  /** An envelope with a first history of one message, recorded under "input" by a labelled harness. */
  function FirstEnvelope(name: string, x: Value): Value {
    Obj(map["harness" := Str(name), "request" := Obj(map["body_delta" := Obj(map["history" := HistoryDelta("input", 0, [x])])])])
  }

  lemma PointerStep(v: Value, name: string, rest: seq<string>)
    requires Get(v, name).Some?
    ensures Pointer(v, [name] + rest) == Pointer(Get(v, name).value, rest)
  {
    assert ([name] + rest)[1..] == rest;
  }

  /** Where an envelope keeps its harness label and its history, and what the labels mean. */
  lemma FirstEnvelopeReads(name: string, x: Value, extract: Extract)
    ensures var r := AppliedAll([FirstEnvelope(name, x)], 1, extract);
            && r.Ok? && r.value.key == "input" && r.value.fold == Fold([x], map[])
            && r.value.harness == (if name == "codex" then Explicit(Codex)
                                   else if name in {"claude", "claude-code"} then Explicit(Claude)
                                   else ProvisionalCodex)
  {
    var env, h := FirstEnvelope(name, x), HistoryDelta("input", 0, [x]);
    var delta := Obj(map["history" := h]);
    var request := Obj(map["body_delta" := delta]);
    assert Get(env, "request") == Some(request) && Get(request, "body_delta") == Some(delta) && Get(delta, "history") == Some(h);
    PointerStep(delta, "history", []);
    PointerStep(request, "body_delta", ["history"]);
    PointerStep(env, "request", ["body_delta", "history"]);
    assert ["history"] + [] == ["history"] && ["body_delta"] + ["history"] == ["body_delta", "history"];
    assert ["request"] + ["body_delta", "history"] == ["request", "body_delta", "history"];
    assert HistoryOf(env) == Some(h);
    HistoryDeltaReads("input", 0, [x]);
    assert KeyOf(env) == Some("input") && AppliedAll([env], 0, extract) == Ok(START);
  }

  // ----- captures

  /** Envelope `i` carries the delta of turn `i`. */
  predicate Carries(envs: seq<Value>, turns: seq<Turn>) {
    && |envs| == |turns|
    && forall i :: 0 <= i < |envs| ==> HistoryOf(envs[i]) == Some(turns[i].delta.history)
  }

  predicate LabelsAgree(envs: seq<Value>) {
    forall i, j :: 0 <= i < j < |envs| && Label(envs[i]).Some? && Label(envs[j]).Some? ==> Label(envs[i]) == Label(envs[j])
  }

  /** With agreeing labels the envelopes fail exactly where the fold of their deltas does, and hold the same messages. */
  lemma {:induction false} EnvelopesFold(envs: seq<Value>, turns: seq<Turn>, extract: Extract, n: nat)
    requires Carries(envs, turns) && LabelsAgree(envs) && n <= |envs|
    ensures match Folded(turns, n)
            case Ok(f) =>
              && AppliedAll(envs, n, extract).Ok?
              && AppliedAll(envs, n, extract).value.fold == f
              && AppliedAll(envs, n, extract).value.envelopes == n
            case Err(e) => AppliedAll(envs, n, extract) == Err(BadDelta(e))
  {
    if n > 0 {
      EnvelopesFold(envs, turns, extract, n - 1);
      if Folded(turns, n - 1).Ok? {
        HarnessIsTheAgreedLabel(envs, extract, n - 1);
        var before := AppliedAll(envs, n - 1, extract).value;
        AppliedParts(envs[n - 1], before, extract);
        NextHarnessAgrees(before.harness, envs, n - 1);
      }
    }
  }

  /**
   * A capture written by `encode_delta` under one history key reconstructs to the last
   * request's history followed by the last response, whatever the bodies were.
   */
  lemma CaptureReconstructs(first: Value, turns: seq<Turn>, big: seq<string>, envs: seq<Value>, extract: Extract)
    requires Chain(first, turns, big) && turns != []
    requires forall i :: 0 <= i < |turns| ==> turns[i].key == turns[0].key
    requires History(first, turns[0].key) == []
    requires Carries(envs, turns) && LabelsAgree(envs)
    ensures AppliedAll(envs, |envs|, extract).Ok?
    ensures var p, last := AppliedAll(envs, |envs|, extract).value, |turns| - 1;
            && Finished(p).messages == History(turns[last].body, turns[last].key) + extract(envs[last], p.harness.Value())
            && Finished(p).historyLen == |History(turns[last].body, turns[last].key)|
            && Finished(p).key == turns[0].key && Finished(p).envelopes == |turns|
  {
    var last := |turns| - 1;
    SteadyKeyChainIsRight(first, turns, big);
    EnvelopesFold(envs, turns, extract, |envs|);
    LastApplied(envs, last, extract);
    DeltaNamesKey(turns[last].delta, Before(first, turns, last), turns[last].body, turns[last].key, big);
  }

  lemma LastApplied(envs: seq<Value>, last: nat, extract: Extract)
    requires last < |envs| && AppliedAll(envs, last + 1, extract).Ok?
    ensures var p := AppliedAll(envs, last + 1, extract).value;
            && p.trailing == extract(envs[last], p.harness.Value())
            && (KeyOf(envs[last]).Some? ==> p.key == KeyOf(envs[last]).value)
  {
    AppliedParts(envs[last], AppliedAll(envs, last, extract).value, extract);
  }

  lemma DeltaNamesKey(d: Delta, prior: Value, body: Value, key: string, big: seq<string>)
    requires Encodes(d, prior, body, key, big)
    ensures Get(d.history, "key") == Some(Str(key))
    ensures forall env :: HistoryOf(env) == Some(d.history) ==> KeyOf(env) == Some(key)
  {
  }
}
