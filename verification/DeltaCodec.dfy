/**
 * The `body_delta` codec: a request body encoded against the previous one, and the
 * history delta replayed over the messages so far.
 */
module DeltaCodec {
  import opened Wrappers

  /** JSON values; an object is a map because the codec never depends on the order of its members. */
  datatype Value =
    | Null
    | Bool(truth: bool)
    | Num(number: int)
    | Str(text: string)
    | Arr(items: seq<Value>)
    | Obj(fields: map<string, Value>)

  function Get(v: Value, name: string): Option<Value> {
    if v.Obj? && name in v.fields then Some(v.fields[name]) else None
  }

  /** The history of a body: its array under `key`, and empty when there is none. */
  function History(body: Value, key: string): seq<Value> {
    match Get(body, key)
    case Some(Arr(items)) => items
    case _ => []
  }

  function CommonPrefix(a: seq<Value>, b: seq<Value>): nat {
    if a == [] || b == [] || a[0] != b[0] then 0 else 1 + CommonPrefix(a[1..], b[1..])
  }

  /** The common prefix is common, and the two sequences differ right after it. */
  lemma {:induction false} CommonPrefixIsLongest(a: seq<Value>, b: seq<Value>)
    ensures var p := CommonPrefix(a, b);
            && p <= |a| && p <= |b| && a[..p] == b[..p]
            && (p < |a| && p < |b| ==> a[p] != b[p])
  {
    if a != [] && b != [] && a[0] == b[0] {
      CommonPrefixIsLongest(a[1..], b[1..]);
      var p := CommonPrefix(a, b);
      assert a[..p] == [a[0]] + a[1..][..p - 1];
      assert b[..p] == [b[0]] + b[1..][..p - 1];
    }
  }

  // ----- encoding

  const EMPTY_FIELDS: map<string, Value> := map[]

  function FieldsOf(v: Value): map<string, Value> {
    if v.Obj? then v.fields else EMPTY_FIELDS
  }

  /** Whether the delta carries field `k` of the body. */
  predicate Carried(prior: Value, body: Value, key: string, big: seq<string>, k: string) {
    && k in FieldsOf(body) && k != key
    && (k in big ==> Get(prior, k) != Some(FieldsOf(body)[k]))
  }

  /** Whether the delta removes field `k` of the prior body. */
  predicate Dropped(prior: Value, body: Value, key: string, k: string) {
    body.Obj? && k in FieldsOf(prior) && k !in body.fields && k != key
  }

  function HistoryDelta(key: string, prefix: nat, append: seq<Value>): Value {
    Obj(map["key" := Str(key), "prefix_length" := Num(prefix), "append" := Arr(append)])
  }

  /** The delta as it is read back: fields to set, fields to remove, and the history part. */
  datatype Delta = Delta(set_: map<string, Value>, remove: seq<string>, history: Value)

  /** What `encode_delta` writes, leaving open the order in which an object lists its members. */
  ghost predicate Encodes(d: Delta, prior: Value, body: Value, key: string, big: seq<string>) {
    && (forall k :: k in d.set_ <==> Carried(prior, body, key, big, k))
    && (forall k :: k in d.set_ ==> d.set_[k] == FieldsOf(body)[k])
    && (forall k :: k in d.remove <==> Dropped(prior, body, key, k))
    && var p := CommonPrefix(History(prior, key), History(body, key));
       p <= |History(body, key)| && d.history == HistoryDelta(key, p, History(body, key)[p..])
  }

  /** `encode_delta`. */
  method EncodeDelta(prior: Value, body: Value, key: string, big: seq<string>) returns (d: Delta)
    ensures Encodes(d, prior, body, key, big)
    ensures forall i, j :: 0 <= i < j < |d.remove| ==> d.remove[i] != d.remove[j]
  {
    var history := History(body, key);
    var prefix := CommonPrefix(History(prior, key), history);
    CommonPrefixIsLongest(History(prior, key), history);
    var set_: map<string, Value> := map[];
    var remove: seq<string> := [];
    if body.Obj? {
      var todo := body.fields.Keys;
      while todo != {}
        invariant todo <= body.fields.Keys
        invariant forall k :: k in set_ <==> k !in todo && Carried(prior, body, key, big, k)
        invariant forall k :: k in set_ ==> set_[k] == body.fields[k]
        decreases todo
      {
        var k :| k in todo;
        todo := todo - {k};
        if k != key {
          if k in big {
            if Get(prior, k) != Some(body.fields[k]) { set_ := set_[k := body.fields[k]]; }
          } else {
            set_ := set_[k := body.fields[k]];
          }
        }
      }
      if prior.Obj? {
        todo := prior.fields.Keys;
        while todo != {}
          invariant todo <= prior.fields.Keys
          invariant forall k :: k in remove <==> k !in todo && Dropped(prior, body, key, k)
          invariant forall i, j :: 0 <= i < j < |remove| ==> remove[i] != remove[j]
          decreases todo
        {
          var k :| k in todo;
          todo := todo - {k};
          if k !in body.fields && k != key { remove := remove + [k]; }
        }
      }
    }
    return Delta(set_, remove, HistoryDelta(key, prefix, history[prefix..]));
  }

  // ----- replaying a history delta

  /** The messages so far and the dictionary of content-addressed ones. */
  datatype Fold = Fold(msgs: seq<Value>, dict: map<string, Value>)

  datatype DeltaError = NotAnObject | BadField(name: string) | BadAppend | BadLegacyAppend | BadEntry | Unresolved | UnknownShape

  datatype Parts = Parts(append: Option<seq<Value>>, prefix: Option<nat>, order: Option<seq<Value>>, added: Option<map<string, Value>>)

  /** The typed fields of a history delta; the first badly typed one is reported. */
  function ReadParts(h: Value): Result<Parts, DeltaError> {
    if !h.Obj? then Err(NotAnObject)
    else
      var append, prefix, order, added := Get(h, "append"), Get(h, "prefix_length"), Get(h, "order"), Get(h, "new");
      if append.Some? && !append.value.Arr? then Err(BadField("append"))
      else if prefix.Some? && !(prefix.value.Num? && prefix.value.number >= 0) then Err(BadField("prefix_length"))
      else if order.Some? && !order.value.Arr? then Err(BadField("order"))
      else if added.Some? && !added.value.Obj? then Err(BadField("new"))
      else Ok(Parts(if append.Some? then Some(append.value.items) else None,
                    if prefix.Some? then Some(prefix.value.number) else None,
                    if order.Some? then Some(order.value.items) else None,
                    if added.Some? then Some(added.value.fields) else None))
  }

  /** Entries of `order` looked up in the delta's own entries first, then in the dictionary. */
  function Resolved(order: seq<Value>, added: map<string, Value>, dict: map<string, Value>): Result<seq<Value>, DeltaError> {
    if order == [] then Ok([])
    else
      var n := |order| - 1;
      match Resolved(order[..n], added, dict)
      case Err(e) => Err(e)
      case Ok(values) =>
        if !order[n].Str? then Err(BadEntry)
        else if order[n].text in added then Ok(values + [added[order[n].text]])
        else if order[n].text in dict then Ok(values + [dict[order[n].text]])
        else Err(Unresolved)
  }

  /** `apply_delta` as a function of the messages and dictionary before it. */
  function Replayed(h: Value, f: Fold): Result<Fold, DeltaError> {
    match ReadParts(h)
    case Err(e) => Err(e)
    case Ok(Parts(append, prefix, order, added)) =>
      match (append, prefix, order)
      case (Some(items), Some(n), None) =>
        if added.Some? || n > |f.msgs| then Err(BadAppend) else Ok(f.(msgs := f.msgs[..n] + items))
      case (Some(items), None, None) =>
        if added.Some? then Err(BadLegacyAppend) else Ok(f.(msgs := f.msgs + items))
      case (None, None, Some(entries)) =>
        var fresh_ := if added.Some? then added.value else EMPTY_FIELDS;
        (match Resolved(entries, fresh_, f.dict)
         case Err(e) => Err(e)
         case Ok(values) => Ok(Fold(values, f.dict + fresh_)))
      case _ => Err(UnknownShape)
  }

  // ----- the shapes a history delta may have

  predicate Absent(h: Value, name: string) {
    Get(h, name).None?
  }

  /** Keep a prefix, then append. */
  predicate AppendShape(h: Value) {
    && Get(h, "append").Some? && Get(h, "append").value.Arr?
    && Get(h, "prefix_length").Some? && Get(h, "prefix_length").value.Num? && Get(h, "prefix_length").value.number >= 0
    && Absent(h, "order") && Absent(h, "new")
  }

  /** Append to everything: the form without a prefix. */
  predicate LegacyShape(h: Value) {
    && Get(h, "append").Some? && Get(h, "append").value.Arr?
    && Absent(h, "prefix_length") && Absent(h, "order") && Absent(h, "new")
  }

  /** A list of ids, and possibly the messages some of them stand for. */
  predicate OrderShape(h: Value) {
    && Get(h, "order").Some? && Get(h, "order").value.Arr?
    && Absent(h, "append") && Absent(h, "prefix_length")
    && (Get(h, "new").Some? ==> Get(h, "new").value.Obj?)
  }

  /** The messages an order delta brings with it. */
  function AddedBy(h: Value): map<string, Value> {
    if Get(h, "new").Some? then FieldsOf(Get(h, "new").value) else EMPTY_FIELDS
  }

  /** Every entry is an id known to the delta or to the dictionary. */
  predicate KnownIds(order: seq<Value>, ids: set<string>) {
    forall i :: 0 <= i < |order| ==> order[i].Str? && order[i].text in ids
  }

  /**
   * What a history delta does to the messages and the dictionary, shape by shape; every
   * other shape, a prefix longer than the messages and an unknown id are refused.
   */
  ghost predicate DoesAsShaped(h: Value, before: Fold, after: Fold) {
    && (AppendShape(h) ==>
          var n := Get(h, "prefix_length").value.number;
          && n <= |before.msgs| && after.dict == before.dict
          && after.msgs == before.msgs[..n] + Get(h, "append").value.items)
    && (LegacyShape(h) ==> after.dict == before.dict && after.msgs == before.msgs + Get(h, "append").value.items)
    && (OrderShape(h) ==>
          var order, added := Get(h, "order").value.items, AddedBy(h);
          && after.dict == before.dict + added
          && |after.msgs| == |order|
          && KnownIds(order, before.dict.Keys + added.Keys)
          && forall i :: 0 <= i < |order| ==> after.msgs[i] == (before.dict + added)[order[i].text])
  }

  /** The deltas that are accepted. */
  predicate Accepted(h: Value, before: Fold) {
    || (AppendShape(h) && Get(h, "prefix_length").value.number <= |before.msgs|)
    || LegacyShape(h)
    || (OrderShape(h) && KnownIds(Get(h, "order").value.items, before.dict.Keys + AddedBy(h).Keys))
  }

  lemma {:induction false} ResolvedExactly(order: seq<Value>, added: map<string, Value>, dict: map<string, Value>)
    ensures Resolved(order, added, dict).Ok? <==> KnownIds(order, dict.Keys + added.Keys)
    ensures Resolved(order, added, dict).Ok? ==>
              && |Resolved(order, added, dict).value| == |order|
              && forall i :: 0 <= i < |order| ==> Resolved(order, added, dict).value[i] == (dict + added)[order[i].text]
  {
    if order != [] {
      ResolvedExactly(order[..|order| - 1], added, dict);
    }
  }

  /** Replay accepts exactly these deltas, and does to the messages what their shape says. */
  lemma ReplayedAsShaped(h: Value, f: Fold)
    ensures Replayed(h, f).Ok? <==> Accepted(h, f)
    ensures Replayed(h, f).Ok? ==> DoesAsShaped(h, f, Replayed(h, f).value)
  {
    if OrderShape(h) {
      ResolvedExactly(Get(h, "order").value.items, AddedBy(h), f.dict);
    }
  }

  // ----- one delta

  /** An encoded history part read back. */
  lemma HistoryDeltaReads(key: string, prefix: nat, append: seq<Value>)
    ensures ReadParts(HistoryDelta(key, prefix, append)) == Ok(Parts(Some(append), Some(prefix), None, None))
  {
    var h := HistoryDelta(key, prefix, append);
    assert h.fields.Keys == {"key", "prefix_length", "append"};
    assert Get(h, "order") == None && Get(h, "new") == None;
  }

  lemma HistoryDeltaReplays(key: string, prefix: nat, append: seq<Value>, f: Fold)
    ensures Replayed(HistoryDelta(key, prefix, append), f) ==
            if prefix <= |f.msgs| then Ok(f.(msgs := f.msgs[..prefix] + append)) else Err(BadAppend)
  {
    HistoryDeltaReads(key, prefix, append);
  }

  /** The encoder's assumption about the reader: what it keeps is what the body starts with. */
  predicate Aligned(held: seq<Value>, prior: Value, body: Value, key: string) {
    var p := CommonPrefix(History(prior, key), History(body, key));
    && p <= |held| && p <= |History(body, key)|
    && held[..p] == History(body, key)[..p]
  }

  /** A delta is refused or lands on the body's history exactly as the held messages allow. */
  lemma ReplayedIffAligned(d: Delta, prior: Value, body: Value, key: string, big: seq<string>, f: Fold)
    requires Encodes(d, prior, body, key, big)
    ensures Replayed(d.history, f) == Ok(f.(msgs := History(body, key))) <==> Aligned(f.msgs, prior, body, key)
    ensures Replayed(d.history, f).Ok? <==> CommonPrefix(History(prior, key), History(body, key)) <= |f.msgs|
    ensures Replayed(d.history, f).Ok? ==> Replayed(d.history, f).value.dict == f.dict
  {
    var history := History(body, key);
    var p := CommonPrefix(History(prior, key), history);
    HistoryDeltaReplays(key, p, history[p..], f);
    assert history == history[..p] + history[p..];
    if p <= |f.msgs| {
      assert (f.msgs[..p] + history[p..])[..p] == f.msgs[..p];
    }
  }

  /** The prior body's own history is always aligned. */
  lemma OwnHistoryIsAligned(prior: Value, body: Value, key: string)
    ensures Aligned(History(prior, key), prior, body, key)
  {
    CommonPrefixIsLongest(History(prior, key), History(body, key));
  }

  /** Set and remove replayed over the prior body, with its history replayed beside them. */
  function RestoredBody(prior: Value, d: Delta, key: string): Result<Value, DeltaError> {
    match Replayed(d.history, Fold(History(prior, key), map[]))
    case Err(e) => Err(e)
    case Ok(f) =>
      var kept := (FieldsOf(prior) + d.set_) - (set k | k in d.remove);
      Ok(Obj(kept[key := Arr(f.msgs)]))
  }

  /** Replaying over the prior body never fails, and restores the body exactly when it is an object with an array history. */
  lemma RestoresBodyIff(prior: Value, body: Value, key: string, big: seq<string>, d: Delta)
    requires Encodes(d, prior, body, key, big)
    ensures RestoredBody(prior, d, key).Ok?
    ensures RestoredBody(prior, d, key) == Ok(body) <==> body.Obj? && key in body.fields && body.fields[key].Arr?
  {
    OwnHistoryIsAligned(prior, body, key);
    ReplayedIffAligned(d, prior, body, key, big, Fold(History(prior, key), map[]));
    var restored := RestoredBody(prior, d, key).value;
    if body.Obj? && key in body.fields && body.fields[key].Arr? {
      forall k
        ensures k in restored.fields <==> k in body.fields
        ensures k in body.fields ==> restored.fields[k] == body.fields[k]
      {
        if k in body.fields && k != key && !Carried(prior, body, key, big, k) {
          assert Get(prior, k) == Some(body.fields[k]);
        }
      }
      assert restored.fields == body.fields;
    }
  }

  // ----- chains of deltas

  datatype Turn = Turn(body: Value, key: string, delta: Delta)

  /** The body that turn `n` is encoded against. */
  function Before(first: Value, turns: seq<Turn>, n: nat): Value
    requires n <= |turns|
  {
    if n == 0 then first else turns[n - 1].body
  }

  /** What a correct reader holds before turn `n`. */
  function Held(turns: seq<Turn>, n: nat): seq<Value>
    requires n <= |turns|
  {
    if n == 0 then [] else History(turns[n - 1].body, turns[n - 1].key)
  }

  /** Every turn is encoded against the one before it. */
  ghost predicate Chain(first: Value, turns: seq<Turn>, big: seq<string>) {
    forall i :: 0 <= i < |turns| ==> Encodes(turns[i].delta, Before(first, turns, i), turns[i].body, turns[i].key, big)
  }

  /** The deltas of the first `n` turns, replayed in order from nothing. */
  function Folded(turns: seq<Turn>, n: nat): Result<Fold, DeltaError>
    requires n <= |turns|
  {
    if n == 0 then Ok(Fold([], map[]))
    else match Folded(turns, n - 1)
      case Err(e) => Err(e)
      case Ok(f) => Replayed(turns[n - 1].delta.history, f)
  }

  predicate RightAfter(turns: seq<Turn>, n: nat)
    requires n <= |turns|
  {
    Folded(turns, n) == Ok(Fold(Held(turns, n), map[]))
  }

  /** What turn `i` keeps of the messages held is what its body starts with. */
  predicate AlignedAt(first: Value, turns: seq<Turn>, i: nat)
    requires i < |turns|
  {
    Aligned(Held(turns, i), Before(first, turns, i), turns[i].body, turns[i].key)
  }

  lemma RightAfterNextIff(first: Value, turns: seq<Turn>, big: seq<string>, i: nat)
    requires Chain(first, turns, big) && i < |turns| && RightAfter(turns, i)
    ensures RightAfter(turns, i + 1) <==> AlignedAt(first, turns, i)
  {
    var t := turns[i];
    ReplayedIffAligned(t.delta, Before(first, turns, i), t.body, t.key, big, Fold(Held(turns, i), map[]));
  }

  lemma {:induction false} AlignedChainIsRight(first: Value, turns: seq<Turn>, big: seq<string>, n: nat)
    requires Chain(first, turns, big) && n <= |turns|
    requires forall i :: 0 <= i < n ==> AlignedAt(first, turns, i)
    ensures RightAfter(turns, n)
  {
    if n > 0 {
      AlignedChainIsRight(first, turns, big, n - 1);
      RightAfterNextIff(first, turns, big, n - 1);
    }
  }

  /**
   * The fold holds the latest body's history after every turn exactly when each turn
   * keeps no more of the previous body than the history that was really replayed.
   */
  lemma ChainRightIff(first: Value, turns: seq<Turn>, big: seq<string>)
    requires Chain(first, turns, big)
    ensures (forall n :: 0 <= n <= |turns| ==> RightAfter(turns, n)) <==>
            (forall i :: 0 <= i < |turns| ==> AlignedAt(first, turns, i))
  {
    if forall n :: 0 <= n <= |turns| ==> RightAfter(turns, n) {
      forall i | 0 <= i < |turns|
        ensures AlignedAt(first, turns, i)
      {
        assert RightAfter(turns, i) && RightAfter(turns, i + 1);
        RightAfterNextIff(first, turns, big, i);
      }
    }
    if forall i :: 0 <= i < |turns| ==> AlignedAt(first, turns, i) {
      forall n | 0 <= n <= |turns|
        ensures RightAfter(turns, n)
      {
        AlignedChainIsRight(first, turns, big, n);
      }
    }
  }

  /**
   * With one history key the fold never fails and always holds the last body's history,
   * whatever the bodies are; so it does after a change to a key the previous body has no array under.
   */
  lemma SteadyKeyChainIsRight(first: Value, turns: seq<Turn>, big: seq<string>)
    requires Chain(first, turns, big)
    requires forall i :: 0 <= i < |turns| ==>
               || (i > 0 && turns[i - 1].key == turns[i].key)
               || History(Before(first, turns, i), turns[i].key) == []
    ensures Folded(turns, |turns|) == Ok(Fold(Held(turns, |turns|), map[]))
  {
    forall i | 0 <= i < |turns|
      ensures AlignedAt(first, turns, i)
    {
      OwnHistoryIsAligned(Before(first, turns, i), turns[i].body, turns[i].key);
    }
    AlignedChainIsRight(first, turns, big, |turns|);
  }

  /** A body that keeps every field of the previous one has a delta that removes nothing. */
  lemma DeltaRemovingNothing(prior: Value, body: Value, key: string) returns (d: Delta)
    requires FieldsOf(prior).Keys <= FieldsOf(body).Keys
    ensures Encodes(d, prior, body, key, [])
    ensures var p := CommonPrefix(History(prior, key), History(body, key));
            p <= |History(body, key)| && d.history == HistoryDelta(key, p, History(body, key)[p..])
  {
    var p := CommonPrefix(History(prior, key), History(body, key));
    CommonPrefixIsLongest(History(prior, key), History(body, key));
    d := Delta(map k | k in FieldsOf(body) && k != key :: FieldsOf(body)[k], [], HistoryDelta(key, p, History(body, key)[p..]));
  }

  /** Two turns on one body, recorded first under one key and then under another. */
  lemma KeyChange(body: Value, a: string, b: string) returns (turns: seq<Turn>)
    ensures |turns| == 2 && Chain(Null, turns, []) && Held(turns, 2) == History(body, b)
    ensures Folded(turns, 2) == Replayed(HistoryDelta(b, |History(body, b)|, []), Fold(History(body, a), map[]))
  {
    var d := DeltaRemovingNothing(Null, body, a);
    var e := DeltaRemovingNothing(body, body, b);
    turns := [Turn(body, a, d), Turn(body, b, e)];
    assert Folded(turns, 1) == Replayed(d.history, Fold([], map[])) by { assert Folded(turns, 0).Ok?; }
    OwnHistoryIsAligned(Null, body, a);
    ReplayedIffAligned(d, Null, body, a, [], Fold([], map[]));
    PrefixOfItself(History(body, b));
    assert Folded(turns, 1) == Ok(Fold(History(body, a), map[]));
    assert History(body, b)[|History(body, b)|..] == [];
    assert turns[1].delta.history == HistoryDelta(b, |History(body, b)|, []);
  }

  lemma {:induction false} PrefixOfItself(a: seq<Value>)
    ensures CommonPrefix(a, a) == |a|
  {
    if a != [] { PrefixOfItself(a[1..]); }
  }

  /** A changed key can make the fold fail, and can make it wrong without failing. */
  lemma KeyChangeBreaksChains(x: Value, y: Value) returns (failing: seq<Turn>, wrong: seq<Turn>)
    requires x != y
    ensures |failing| == 2 && Chain(Null, failing, []) && Folded(failing, 2) == Err(BadAppend)
    ensures |wrong| == 2 && Chain(Null, wrong, []) && Folded(wrong, 2) == Ok(Fold([y], map[])) && Held(wrong, 2) == [x]
  {
    HistoryDeltaReads("b", 1, []);
    var empty, other := Obj(map["a" := Arr([]), "b" := Arr([x])]), Obj(map["a" := Arr([y]), "b" := Arr([x])]);
    assert History(empty, "a") == [] && History(empty, "b") == [x];
    assert History(other, "a") == [y] && History(other, "b") == [x];
    assert [y][..1] + [] == [y];
    failing := KeyChange(empty, "a", "b");
    wrong := KeyChange(other, "a", "b");
  }

  // ----- content-addressed deltas

  /**
   * The fold never forgets an id: once an order delta resolved, the same order
   * resolves again after any further deltas, and to the same messages as long as
   * no later delta redefines an id.
   */
  lemma {:induction false} OrdersStayResolvable(order: seq<Value>, f: Fold, later: seq<Value>, g: Fold)
    requires Resolved(order, map[], f.dict).Ok?
    requires ReplayedAll(later, f) == Ok(g)
    ensures Resolved(order, map[], g.dict).Ok?
    ensures (forall id :: id in f.dict ==> Some(f.dict[id]) == Get(Obj(g.dict), id)) ==>
              Resolved(order, map[], g.dict) == Resolved(order, map[], f.dict)
  {
    DictionaryGrows(later, f, g);
    ResolvedExactly(order, map[], f.dict);
    ResolvedExactly(order, map[], g.dict);
    if forall id :: id in f.dict ==> Some(f.dict[id]) == Get(Obj(g.dict), id) {
      assert Resolved(order, map[], g.dict).value == Resolved(order, map[], f.dict).value;
    }
  }

  function ReplayedAll(deltas: seq<Value>, f: Fold): Result<Fold, DeltaError> {
    if deltas == [] then Ok(f)
    else match ReplayedAll(deltas[..|deltas| - 1], f)
      case Err(e) => Err(e)
      case Ok(g) => Replayed(deltas[|deltas| - 1], g)
  }

  lemma {:induction false} DictionaryGrows(deltas: seq<Value>, f: Fold, g: Fold)
    requires ReplayedAll(deltas, f) == Ok(g)
    ensures f.dict.Keys <= g.dict.Keys
  {
    if deltas != [] {
      DictionaryGrows(deltas[..|deltas| - 1], f, ReplayedAll(deltas[..|deltas| - 1], f).value);
    }
  }
}
