/**
 * The Pi session writer: normalized messages written as one chain of entries. Random
 * ids, the tool vocabulary and the set of valid correlations are inputs.
 */
module PiWriter {
  import opened Wrappers

  datatype Role = Assistant | User

  /** Tool inputs and arguments are JSON texts. */
  datatype Block =
    | Text(text: string)
    | Image
    | ToolUse(name: string, input: string, correlation: Option<string>)
    | ToolResult(content: string, correlation: Option<string>)

  datatype Message = Message(role: Role, blocks: seq<Block>)

  datatype Piece =
    | TextPiece(text: string)
    | Call(id: string, name: string, arguments: string)
    | Answer(callId: string, toolName: string, text: string)

  datatype Payload =
    | ModelChange(model: string)
    | AssistantMessage(content: seq<Piece>, stopReason: string, sent: int)
    | UserMessage(content: seq<Piece>, sent: int)
    | ResultMessage(answer: Piece, sent: int)

  datatype Entry = Entry(payload: Payload, id: string, parentId: Option<string>, timestamp: int)

  /** The valid correlation ids, and Pi's name and arguments for a tool it knows. */
  datatype Rules = Rules(valid: set<string>, tools: (string, string) -> Option<(string, string)>)

  function ToolUseText(name: string, input: string): string {
    "[tool call: " + name + "(" + input + ")]"
  }

  function ToolResultText(content: string): string {
    "[tool result]\n" + content
  }

  // ----- what is to be written

  datatype Source = Source(role: Role, block: Block)

  datatype Item = Item(role: Role, piece: Piece)

  /** All blocks of all messages, in order. */
  function Blocks(messages: seq<Message>): seq<Source> {
    if messages == [] then []
    else Blocks(messages[..|messages| - 1]) + Sources(messages[|messages| - 1].role, messages[|messages| - 1].blocks)
  }

  function Sources(role: Role, blocks: seq<Block>): seq<Source> {
    seq(|blocks|, i requires 0 <= i < |blocks| => Source(role, blocks[i]))
  }

  /** A tool use that becomes a Pi tool call. */
  predicate Mapped(s: Source, rules: Rules) {
    && s.role.Assistant? && s.block.ToolUse? && s.block.correlation.Some?
    && s.block.correlation.value in rules.valid && rules.tools(s.block.name, s.block.input).Some?
  }

  /** The latest mapped use of a correlation id among the first `n` blocks. */
  function LastUse(src: seq<Source>, n: nat, correlation: string, rules: Rules): Option<nat>
    requires n <= |src|
  {
    if n == 0 then None
    else if Mapped(src[n - 1], rules) && src[n - 1].block.correlation == Some(correlation) then Some(n - 1)
    else LastUse(src, n - 1, correlation, rules)
  }

  /** The use that the result at `i` answers. */
  function Asked(src: seq<Source>, i: nat, rules: Rules): Option<nat>
    requires i < |src| && src[i].block.ToolResult?
  {
    if src[i].role.User? && src[i].block.correlation.Some? then LastUse(src, i, src[i].block.correlation.value, rules) else None
  }

  lemma {:induction false} LastUseIsEarlier(src: seq<Source>, n: nat, correlation: string, rules: Rules)
    requires n <= |src|
    ensures match LastUse(src, n, correlation, rules)
            case Some(j) => j < n && Mapped(src[j], rules) && src[j].block.correlation == Some(correlation)
            case None => forall j :: 0 <= j < n && Mapped(src[j], rules) ==> src[j].block.correlation != Some(correlation)
  {
    if n > 0 { LastUseIsEarlier(src, n - 1, correlation, rules); }
  }

  /** Item `i` stands for block `i`, and a result names the call it answers. */
  predicate Represents(items: seq<Item>, src: seq<Source>, i: nat, rules: Rules)
    requires i < |src| == |items|
  {
    && items[i].role == src[i].role
    && var piece := items[i].piece;
       match src[i].block
       case Text(text) => piece == TextPiece(text)
       case Image => piece == TextPiece("[image]")
       case ToolUse(name, input, _) =>
         if Mapped(src[i], rules) then
           piece.Call? && (piece.name, piece.arguments) == rules.tools(name, input).value
         else piece == TextPiece(ToolUseText(name, input))
       case ToolResult(content, _) =>
         match Asked(src, i, rules)
         case None => piece == TextPiece(ToolResultText(content))
         case Some(j) =>
           && j < i && items[j].piece.Call?
           && piece == Answer(items[j].piece.id, items[j].piece.name, content)
  }

  /** One item for one block, in order. */
  ghost predicate Corresponds(items: seq<Item>, src: seq<Source>, rules: Rules) {
    |items| == |src| && forall i :: 0 <= i < |src| ==> Represents(items, src, i, rules)
  }

  lemma {:induction false} LastUseOfPrefix(src: seq<Source>, more: seq<Source>, n: nat, correlation: string, rules: Rules)
    requires n <= |src|
    ensures LastUse(src + more, n, correlation, rules) == LastUse(src, n, correlation, rules)
  {
    if n > 0 { LastUseOfPrefix(src, more, n - 1, correlation, rules); }
  }

  // ----- what is written

  function Items(role: Role, pieces: seq<Piece>): seq<Item> {
    seq(|pieces|, i requires 0 <= i < |pieces| => Item(role, pieces[i]))
  }

  function Held(p: Payload): seq<Item> {
    match p
    case ModelChange(_) => []
    case AssistantMessage(content, _, _) => Items(Assistant, content)
    case UserMessage(content, _) => Items(User, content)
    case ResultMessage(answer, _) => [Item(User, answer)]
  }

  function Flat(entries: seq<Entry>): seq<Item> {
    if entries == [] then [] else Flat(entries[..|entries| - 1]) + Held(entries[|entries| - 1].payload)
  }

  predicate HasCall(content: seq<Piece>) {
    exists p :: p in content && p.Call?
  }

  /** Messages are never empty, carry their entry's time, and say whether they end in tool use. */
  predicate WellFormed(p: Payload, timestamp: int) {
    match p
    case ModelChange(_) => true
    case AssistantMessage(content, stop, sent) =>
      && content != [] && sent == timestamp && (forall p :: p in content ==> !p.Answer?)
      && stop == if HasCall(content) then "toolUse" else "stop"
    case UserMessage(content, sent) => content != [] && sent == timestamp && AllTexts(content)
    case ResultMessage(answer, sent) => answer.Answer? && sent == timestamp
  }

  /** The entry before, if there is one. */
  function ParentAt(entries: seq<Entry>, i: nat): Option<string>
    requires i <= |entries|
  {
    if i == 0 then None else Some(entries[i - 1].id)
  }

  /** Entry `i` hangs below the one before it, one millisecond later. */
  predicate Linked(entries: seq<Entry>, i: nat, start: int)
    requires i < |entries|
  {
    && entries[i].parentId == ParentAt(entries, i)
    && entries[i].timestamp == start + 1 + i
    && WellFormed(entries[i].payload, entries[i].timestamp)
  }

  /** One parent chain of distinct ids with rising times, beginning after `start`. */
  predicate Chained(entries: seq<Entry>, start: int) {
    && (forall i :: 0 <= i < |entries| ==> Linked(entries, i, start))
    && (forall i, j :: 0 <= i < j < |entries| ==> entries[i].id != entries[j].id)
  }

  lemma ChainOneMore(entries: seq<Entry>, start: int, e: Entry)
    requires Chained(entries, start) && e.parentId == ParentAt(entries, |entries|)
    requires forall i :: 0 <= i < |entries| ==> entries[i].id != e.id
    requires e.timestamp == start + 1 + |entries| && WellFormed(e.payload, e.timestamp)
    ensures Chained(entries + [e], start)
  {
    forall i | 0 <= i <= |entries|
      ensures Linked(entries + [e], i, start)
    {
      if i < |entries| { assert Linked(entries, i, start); }
    }
  }

  // ----- one more block, one more entry

  /** The call id and tool name under which each correlation was last used. */
  ghost predicate CallsKnown(calls: map<string, (string, string)>, items: seq<Item>, src: seq<Source>, rules: Rules)
    requires |items| == |src|
  {
    forall c :: if c in calls then
                  var j := LastUse(src, |src|, c, rules);
                  j.Some? && j.value < |src| && items[j.value].piece.Call? && calls[c] == (items[j.value].piece.id, items[j.value].piece.name)
                else LastUse(src, |src|, c, rules).None?
  }

  /** The ids of the tool calls among these items, in order. */
  function CallIds(items: seq<Item>): seq<string> {
    if items == [] then []
    else
      var n := |items| - 1;
      CallIds(items[..n]) + (if items[n].piece.Call? then [items[n].piece.id] else [])
  }

  lemma CallIdsOneMore(items: seq<Item>, item: Item)
    ensures CallIds(items + [item]) == CallIds(items) + (if item.piece.Call? then [item.piece.id] else [])
  {
    assert (items + [item])[..|items|] == items;
  }

  /** Every tool call so far took the next drawn call id. */
  ghost predicate Numbered(items: seq<Item>, callIds: nat -> string, made: nat) {
    CallIds(items) == seq(made, i requires 0 <= i < made => callIds(i))
  }

  lemma NumberedOneMore(items: seq<Item>, item: Item, callIds: nat -> string, made: nat)
    requires Numbered(items, callIds, made)
    ensures !item.piece.Call? ==> Numbered(items + [item], callIds, made)
    ensures item.piece.Call? && item.piece.id == callIds(made) ==> Numbered(items + [item], callIds, made + 1)
  {
    CallIdsOneMore(items, item);
  }

  /** The calls made so far: how many, and under which id and name each correlation was last used. */
  datatype Calls = Calls(made: nat, known: map<string, (string, string)>)

  /** Everything written so far stands for the blocks seen so far, and calls are numbered as drawn. */
  ghost predicate Told(items: seq<Item>, src: seq<Source>, calls: Calls, rules: Rules, callIds: nat -> string) {
    Corresponds(items, src, rules) && CallsKnown(calls.known, items, src, rules) && Numbered(items, callIds, calls.made)
  }

  lemma AskedOfPrefix(src: seq<Source>, s: Source, i: nat, rules: Rules)
    requires i < |src| && src[i].block.ToolResult?
    ensures Asked(src + [s], i, rules) == Asked(src, i, rules)
  {
    if src[i].block.correlation.Some? { LastUseOfPrefix(src, [s], i, src[i].block.correlation.value, rules); }
  }

  lemma OneMoreItem(items: seq<Item>, src: seq<Source>, item: Item, s: Source, rules: Rules)
    requires Corresponds(items, src, rules) && Represents(items + [item], src + [s], |src|, rules)
    ensures Corresponds(items + [item], src + [s], rules)
  {
    forall i | 0 <= i < |src|
      ensures Represents(items + [item], src + [s], i, rules)
    {
      assert Represents(items, src, i, rules);
      if src[i].block.ToolResult? { AskedOfPrefix(src, s, i, rules); }
    }
  }

  /** What a block that is no tool call becomes. */
  lemma PlainBlock(items: seq<Item>, src: seq<Source>, calls: Calls, item: Item, s: Source, rules: Rules, callIds: nat -> string)
    requires Told(items, src, calls, rules, callIds) && !Mapped(s, rules) && item.role == s.role
    requires match s.block
             case Text(text) => item.piece == TextPiece(text)
             case Image => item.piece == TextPiece("[image]")
             case ToolUse(name, input, _) => item.piece == TextPiece(ToolUseText(name, input))
             case ToolResult(content, c) =>
               if s.role.User? && c.Some? && c.value in calls.known then
                 item.piece == Answer(calls.known[c.value].0, calls.known[c.value].1, content)
               else item.piece == TextPiece(ToolResultText(content))
    ensures Told(items + [item], src + [s], calls, rules, callIds)
  {
    var more := src + [s];
    NumberedOneMore(items, item, callIds, calls.made);
    if s.block.ToolResult? && s.block.correlation.Some? {
      LastUseOfPrefix(src, [s], |src|, s.block.correlation.value, rules);
      LastUseIsEarlier(src, |src|, s.block.correlation.value, rules);
    }
    OneMoreItem(items, src, item, s, rules);
    forall c
      ensures LastUse(more, |more|, c, rules) == LastUse(src, |src|, c, rules)
    {
      LastUseOfPrefix(src, [s], |src|, c, rules);
    }
  }

  /** A mapped use becomes a call, and is the one later results of its correlation answer. */
  lemma CallBlock(items: seq<Item>, src: seq<Source>, calls: Calls, s: Source, rules: Rules, callIds: nat -> string)
    requires Told(items, src, calls, rules, callIds) && Mapped(s, rules)
    ensures var (name, arguments) := rules.tools(s.block.name, s.block.input).value;
            var id := callIds(calls.made);
            Told(items + [Item(s.role, Call(id, name, arguments))], src + [s],
                 Calls(calls.made + 1, calls.known[s.block.correlation.value := (id, name)]), rules, callIds)
  {
    var more := src + [s];
    var (name, arguments) := rules.tools(s.block.name, s.block.input).value;
    var id := callIds(calls.made);
    NumberedOneMore(items, Item(s.role, Call(id, name, arguments)), callIds, calls.made);
    OneMoreItem(items, src, Item(s.role, Call(id, name, arguments)), s, rules);
    forall c
      ensures LastUse(more, |more|, c, rules) == if s.block.correlation == Some(c) then Some(|src|) else LastUse(src, |src|, c, rules)
    {
      LastUseOfPrefix(src, [s], |src|, c, rules);
    }
  }

  lemma MessagesHoldItems(p: Payload, timestamp: int)
    requires WellFormed(p, timestamp) && !p.ModelChange?
    ensures |Held(p)| > 0
  {
  }

  lemma FlatOneMore(entries: seq<Entry>, e: Entry)
    ensures Flat(entries + [e]) == Flat(entries) + Held(e.payload)
  {
    assert (entries + [e])[..|entries|] == entries;
  }

  predicate AllTexts(content: seq<Piece>) {
    forall p :: p in content ==> p.TextPiece?
  }

  predicate NoAnswers(content: seq<Piece>) {
    forall p :: p in content ==> !p.Answer?
  }

  lemma SourcesOneMore(role: Role, blocks: seq<Block>, i: nat)
    requires i < |blocks|
    ensures Sources(role, blocks[..i + 1]) == Sources(role, blocks[..i]) + [Source(role, blocks[i])]
  {
  }

  lemma OneMoreInHand(written: seq<Item>, role: Role, content: seq<Piece>, piece: Piece)
    ensures written + Items(role, content + [piece]) == written + Items(role, content) + [Item(role, piece)]
  {
  }

  class SessionWriter {
    const rules: Rules
    const start: int
    const callIds: nat -> string
    var entries: seq<Entry>
    var ids: set<string>
    var parent: Option<string>
    var ts: int
    var draws: seq<string>
    var calls: Calls
    ghost var src: seq<Source>
    ghost const all: seq<string>

    ghost predicate Valid()
      reads this
    {
      && Chained(entries, start) && ts == start + |entries|
      && (forall i :: 0 <= i < |entries| ==> entries[i].id in ids)
      && parent == ParentAt(entries, |entries|)
    }

    /** Every draw is used or left, and hardly more were used than items were written. */
    ghost predicate Thrifty()
      reads this
    {
      (forall d :: d in all ==> d in ids || d in draws) && |ids| <= 1 + |Flat(entries)|
    }

    /** No draw is left that was not used before, though hardly more were used than blocks were seen. */
    ghost predicate Stuck()
      reads this
    {
      (forall d :: d in all ==> d in ids) && |ids| <= 1 + |src|
    }

    /** Entries and the pieces still in hand stand for the blocks seen. */
    ghost predicate Keeps(inHand: seq<Item>)
      reads this
    {
      Valid() && Thrifty() && Told(Flat(entries) + inHand, src, calls, rules, callIds)
    }

    constructor (rules: Rules, start: int, callIds: nat -> string, draws: seq<string>)
      ensures Keeps([]) && src == [] && entries == [] && this.rules == rules && this.start == start
      ensures this.callIds == callIds && all == draws && ids == {}
    {
      this.rules, this.start, this.callIds, this.draws := rules, start, callIds, draws;
      all := draws;
      entries, ids, parent, ts, calls, src := [], {}, None, start, Calls(0, map[]), [];
    }

    /** `entry_id`: draws until one was not used before; `None` when the given draws run out. */
    method EntryId() returns (id: Option<string>)
      modifies this`ids, this`draws
      ensures id.Some? ==> id.value !in old(ids) && ids == old(ids) + {id.value} && |ids| == |old(ids)| + 1
      ensures id.Some? ==> exists k :: 0 <= k < |old(draws)| && old(draws)[k] == id.value && forall j :: 0 <= j < k ==> old(draws)[j] in old(ids)
      ensures forall d :: d in old(draws) ==> d in ids || d in draws
      ensures id.None? ==> draws == [] && ids == old(ids)
    {
      ghost var k := 0;
      while draws != []
        invariant k <= |old(draws)| && draws == old(draws)[k..] && ids == old(ids)
        invariant forall j :: 0 <= j < k ==> old(draws)[j] in ids
        decreases |draws|
      {
        var drawn := draws[0];
        draws := draws[1..];
        if drawn !in ids {
          ids := ids + {drawn};
          return Some(drawn);
        }
        k := k + 1;
      }
      return None;
    }

    /** `append_entry`: one millisecond later, under a fresh id, below the last entry. */
    method AppendEntry(payload: Payload) returns (ok: bool)
      requires Valid() && Thrifty() && WellFormed(payload, ts + 1) && (payload.ModelChange? ==> ids == {})
      modifies this`entries, this`ids, this`parent, this`ts, this`draws
      ensures !ok ==> ids == old(ids) && forall d :: d in all ==> d in ids
      ensures ok ==> Valid() && Thrifty() && |entries| == |old(entries)| + 1 && old(entries) <= entries
      ensures ok ==> entries[|old(entries)|].payload == payload && Flat(entries) == Flat(old(entries)) + Held(payload)
    {
      ts := ts + 1;
      var id := EntryId();
      if id.None? { return false; }
      PushEntry(Entry(payload, id.value, parent, ts));
      if !payload.ModelChange? { MessagesHoldItems(payload, ts); }
      return true;
    }

    /** The entry itself, and its id as the next parent. */
    method PushEntry(entry: Entry)
      requires Chained(entries, start) && ts == start + |entries| + 1
      requires entry.parentId == parent == ParentAt(entries, |entries|) && entry.timestamp == ts && WellFormed(entry.payload, ts)
      requires entry.id in ids && forall i :: 0 <= i < |entries| ==> entries[i].id in ids && entries[i].id != entry.id
      modifies this`entries, this`parent
      ensures Valid() && entries == old(entries) + [entry] && Flat(entries) == Flat(old(entries)) + Held(entry.payload)
    {
      FlatOneMore(entries, entry);
      ChainOneMore(entries, start, entry);
      entries := entries + [entry];
      parent := Some(entry.id);
    }

    /** At most one id more than blocks, as long as what is written stands for what was seen. */
    lemma FewIds(inHand: seq<Item>)
      requires Keeps(inHand)
      ensures |ids| <= 1 + |src|
    {
    }

    /** `flush_user_text`. */
    method FlushUserText(content: seq<Piece>) returns (ok: bool)
      requires Keeps(Items(User, content)) && AllTexts(content)
      modifies this`entries, this`ids, this`parent, this`ts, this`draws
      ensures ok ==> Keeps([]) && old(entries) <= entries
      ensures !ok ==> Stuck()
      ensures content == [] ==> ok && entries == old(entries)
      ensures ok && content != [] ==>
                |entries| == |old(entries)| + 1 && entries[|old(entries)|].payload == UserMessage(content, old(ts) + 1)
    {
      if content == [] { return true; }
      ok := AppendEntry(UserMessage(content, ts + 1));
      if ok { assert Flat(entries) + [] == Flat(entries); }
    }

    /** A tool use that Pi knows, under a call id of its own. */
    method MappedCall(block: Block, ghost content: seq<Piece>) returns (piece: Piece)
      requires Keeps(Items(Assistant, content)) && Mapped(Source(Assistant, block), rules)
      modifies this`calls, this`src
      ensures src == old(src) + [Source(Assistant, block)]
      ensures Keeps(Items(Assistant, content + [piece])) && piece.Call?
    {
      ghost var before := Flat(entries) + Items(Assistant, content);
      var (tool, arguments) := rules.tools(block.name, block.input).value;
      var id := callIds(calls.made);
      piece := Call(id, tool, arguments);
      CallBlock(before, src, calls, Source(Assistant, block), rules, callIds);
      OneMoreInHand(Flat(entries), Assistant, content, piece);
      calls := Calls(calls.made + 1, calls.known[block.correlation.value := (id, tool)]);
      src := src + [Source(Assistant, block)];
    }

    /** One block of an assistant message; a tool use that is not valid or not known becomes text. */
    method AssistantPiece(block: Block, ghost content: seq<Piece>) returns (piece: Piece)
      requires Keeps(Items(Assistant, content))
      modifies this`calls, this`src
      ensures src == old(src) + [Source(Assistant, block)]
      ensures Keeps(Items(Assistant, content + [piece])) && !piece.Answer?
    {
      match block {
        case Text(text) => piece := TextPiece(text);
        case Image => piece := TextPiece("[image]");
        case ToolResult(text, _) => piece := TextPiece(ToolResultText(text));
        case ToolUse(name, input, correlation) =>
          if correlation.Some? && correlation.value in rules.valid && rules.tools(name, input).Some? {
            piece := MappedCall(block, content);
            return;
          }
          piece := TextPiece(ToolUseText(name, input));
      }
      ghost var before := Flat(entries) + Items(Assistant, content);
      PlainBlock(before, src, calls, Item(Assistant, piece), Source(Assistant, block), rules, callIds);
      OneMoreInHand(Flat(entries), Assistant, content, piece);
      src := src + [Source(Assistant, block)];
    }

    /** The pieces of an assistant message with one more block. */
    method OneMorePiece(block: Block, content: seq<Piece>) returns (more: seq<Piece>)
      requires Keeps(Items(Assistant, content)) && NoAnswers(content)
      modifies this`calls, this`src
      ensures src == old(src) + [Source(Assistant, block)]
      ensures Keeps(Items(Assistant, more)) && NoAnswers(more) && |more| == |content| + 1
    {
      var piece := AssistantPiece(block, content);
      more := content + [piece];
    }

    /** The pieces of an assistant message, block by block. */
    method AssistantPieces(blocks: seq<Block>) returns (content: seq<Piece>)
      requires Keeps([])
      modifies this`calls, this`src
      ensures Keeps(Items(Assistant, content)) && NoAnswers(content) && |content| == |blocks|
      ensures src == old(src) + Sources(Assistant, blocks)
    {
      content := [];
      for i := 0 to |blocks|
        invariant Keeps(Items(Assistant, content)) && NoAnswers(content) && |content| == i
        invariant src == old(src) + Sources(Assistant, blocks[..i])
      {
        content := OneMorePiece(blocks[i], content);
        SourcesOneMore(Assistant, blocks, i);
      }
      assert blocks[..|blocks|] == blocks;
    }

    /** An assistant message: all its pieces in one entry, unless there are none. */
    method WriteAssistant(blocks: seq<Block>) returns (ok: bool)
      requires Keeps([])
      modifies this
      ensures ok ==> Keeps([]) && src == old(src) + Sources(Assistant, blocks)
      ensures !ok ==> Stuck() && |src| <= |old(src)| + |blocks|
      ensures ok ==> old(entries) <= entries
      ensures blocks == [] ==> ok && entries == old(entries)
      ensures ok && blocks != [] ==> |entries| == |old(entries)| + 1 && entries[|old(entries)|].payload.AssistantMessage?
    {
      var content := AssistantPieces(blocks);
      if content == [] { return true; }
      FewIds(Items(Assistant, content));
      ok := AppendEntry(AssistantMessage(content, if HasCall(content) then "toolUse" else "stop", ts + 1));
      if ok { assert Flat(entries) + [] == Flat(entries); }
    }

    /** A result whose call is known gets an entry of its own. */
    method AnswerCall(text: string, correlation: string) returns (ok: bool)
      requires Keeps([]) && correlation in calls.known
      modifies this
      ensures ok ==> Keeps([]) && src == old(src) + [Source(User, ToolResult(text, Some(correlation)))] && old(entries) <= entries
      ensures !ok ==> Stuck() && |src| == |old(src)| + 1
    {
      ghost var s := Source(User, ToolResult(text, Some(correlation)));
      var answer := Answer(calls.known[correlation].0, calls.known[correlation].1, text);
      assert Flat(entries) + [] == Flat(entries);
      PlainBlock(Flat(entries), src, calls, Item(User, answer), s, rules, callIds);
      src := src + [s];
      ok := AppendEntry(ResultMessage(answer, ts + 1));
      if ok { assert Flat(entries) + [] == Flat(entries); }
    }

    /** Any other result becomes text. */
    method ResultAsText(text: string, correlation: Option<string>) returns (piece: Piece)
      requires Keeps([]) && (correlation.Some? ==> correlation.value !in calls.known)
      modifies this`src
      ensures src == old(src) + [Source(User, ToolResult(text, correlation))]
      ensures Keeps(Items(User, [piece])) && piece.TextPiece?
    {
      ghost var s := Source(User, ToolResult(text, correlation));
      piece := TextPiece(ToolResultText(text));
      assert Flat(entries) + [] == Flat(entries);
      PlainBlock(Flat(entries), src, calls, Item(User, piece), s, rules, callIds);
      src := src + [s];
      assert Items(User, [piece]) == [Item(User, piece)];
    }

    /** One block of a user message that is no tool result. */
    method UserPiece(block: Block, ghost content: seq<Piece>) returns (piece: Piece)
      requires Keeps(Items(User, content)) && !block.ToolResult?
      modifies this`src
      ensures src == old(src) + [Source(User, block)]
      ensures Keeps(Items(User, content + [piece])) && piece.TextPiece?
    {
      ghost var before := Flat(entries) + Items(User, content);
      ghost var s := Source(User, block);
      match block {
        case Text(text) => piece := TextPiece(text);
        case Image => piece := TextPiece("[image]");
        case ToolUse(name, input, _) => piece := TextPiece(ToolUseText(name, input));
      }
      PlainBlock(before, src, calls, Item(User, piece), s, rules, callIds);
      src := src + [s];
      OneMoreInHand(Flat(entries), User, content, piece);
    }

    /** A tool result in a user message: the texts before it are flushed first. */
    method UserResult(texts: seq<Piece>, text: string, correlation: Option<string>) returns (ok: bool, rest: seq<Piece>)
      requires Keeps(Items(User, texts)) && AllTexts(texts)
      modifies this
      ensures ok ==> Keeps(Items(User, rest)) && src == old(src) + [Source(User, ToolResult(text, correlation))]
      ensures !ok ==> Stuck() && |src| <= |old(src)| + 1
      ensures ok ==> old(entries) <= entries && AllTexts(rest)
    {
      rest := [];
      ok := FlushUserText(texts);
      if !ok { return; }
      if correlation.Some? && correlation.value in calls.known {
        ok := AnswerCall(text, correlation.value);
      } else {
        var piece := ResultAsText(text, correlation);
        rest := [piece];
      }
    }

    /** One block of a user message. */
    method UserBlock(texts: seq<Piece>, block: Block) returns (ok: bool, rest: seq<Piece>)
      requires Keeps(Items(User, texts)) && AllTexts(texts)
      modifies this
      ensures ok ==> Keeps(Items(User, rest)) && src == old(src) + [Source(User, block)]
      ensures !ok ==> Stuck() && |src| <= |old(src)| + 1
      ensures ok ==> old(entries) <= entries && AllTexts(rest)
    {
      if block.ToolResult? {
        ok, rest := UserResult(texts, block.content, block.correlation);
      } else {
        var piece := UserPiece(block, texts);
        return true, texts + [piece];
      }
    }

    /** The blocks of a user message up to the last flush; `texts` are still in hand. */
    method UserTexts(blocks: seq<Block>) returns (ok: bool, texts: seq<Piece>)
      requires Keeps([])
      modifies this
      ensures ok ==> Keeps(Items(User, texts)) && AllTexts(texts)
      ensures ok ==> src == old(src) + Sources(User, blocks) && old(entries) <= entries
      ensures !ok ==> Stuck() && |src| <= |old(src)| + |blocks|
    {
      ok, texts := true, [];
      for i := 0 to |blocks|
        invariant ok && Keeps(Items(User, texts)) && AllTexts(texts)
        invariant src == old(src) + Sources(User, blocks[..i])
        invariant old(entries) <= entries
      {
        ok, texts := UserBlock(texts, blocks[i]);
        if !ok { return; }
        SourcesOneMore(User, blocks, i);
      }
      assert blocks[..|blocks|] == blocks;
    }

    /** A user message: texts are gathered, and flushed before every tool result and at the end. */
    method WriteUser(blocks: seq<Block>) returns (ok: bool)
      requires Keeps([])
      modifies this
      ensures ok ==> Keeps([]) && src == old(src) + Sources(User, blocks)
      ensures !ok ==> Stuck() && |src| <= |old(src)| + |blocks|
      ensures ok ==> old(entries) <= entries
      ensures blocks == [] ==> ok && entries == old(entries)
    {
      if blocks == [] { return true; }
      var texts;
      ok, texts := UserTexts(blocks);
      if ok { ok := FlushUserText(texts); }
    }

    method WriteMessage(m: Message) returns (ok: bool)
      requires Keeps([])
      modifies this
      ensures ok ==> Keeps([]) && src == old(src) + Sources(m.role, m.blocks)
      ensures !ok ==> Stuck() && |src| <= |old(src)| + |m.blocks|
      ensures ok ==> old(entries) <= entries
      ensures m.blocks == [] ==> ok && entries == old(entries)
    {
      if m.role.Assistant? {
        ok := WriteAssistant(m.blocks);
      } else {
        ok := WriteUser(m.blocks);
      }
    }

    /** The model entry, if a model is given. */
    method Begin(model: Option<string>) returns (ok: bool)
      requires Keeps([]) && src == [] && entries == [] && ids == {}
      modifies this
      ensures ok ==> Keeps([]) && src == []
      ensures !ok ==> Stuck() && src == []
      ensures ok && model.Some? ==> entries != [] && entries[0].payload == ModelChange(model.value)
      ensures model.None? ==> ok && entries == []
    {
      if model.None? { return true; }
      ok := AppendEntry(ModelChange(model.value));
      if ok { assert Flat(entries) + [] == Flat([]) + [] + []; }
    }

    /** All messages, one after another. */
    method WriteMessages(messages: seq<Message>) returns (ok: bool)
      requires Keeps([]) && src == []
      modifies this
      ensures ok ==> Keeps([]) && src == Blocks(messages) && old(entries) <= entries
      ensures ok && src == [] ==> entries == old(entries)
      ensures !ok ==> Stuck() && |src| <= |Blocks(messages)| && Blocks(messages) != []
    {
      for i := 0 to |messages|
        invariant Keeps([]) && src == Blocks(messages[..i]) && old(entries) <= entries
        invariant src == [] ==> entries == old(entries)
      {
        BlocksOneMore(messages, i);
        ok := WriteMessage(messages[i]);
        if !ok { return; }
      }
      assert messages[..|messages|] == messages;
      return true;
    }

    /**
     * The message loop of `write_with_id`. It gets through whenever there are more
     * different draws than blocks, and one for the model entry.
     */
    method Write(messages: seq<Message>, model: Option<string>) returns (r: Outcome)
      requires Keeps([]) && src == [] && entries == [] && ids == {}
      modifies this
      ensures messages == [] || (model.None? && Blocks(messages) == []) <==> r.NothingToFork?
      ensures |set d | d in all| > |Blocks(messages)| + 1 ==> !r.OutOfDraws?
      ensures r.Written? ==>
                && entries != [] && Chained(entries, start)
                && Corresponds(Flat(entries), Blocks(messages), rules)
                && Numbered(Flat(entries), callIds, calls.made)
                && (model.Some? ==> entries[0].payload == ModelChange(model.value))
    {
      if messages == [] { return NothingToFork; }
      var ok := Begin(model);
      if ok { ok := WriteMessages(messages); }
      if !ok {
        FewDraws(|Blocks(messages)|);
        return OutOfDraws;
      }
      assert Flat(entries) + [] == Flat(entries);
      return if parent.None? then NothingToFork else Written;
    }

    lemma FewDraws(n: nat)
      requires Stuck() && |src| <= n
      ensures |set d | d in all| <= n + 1
    {
      var drawn := set d | d in all;
      assert drawn <= ids;
      SubsetSize(drawn, ids);
    }
  }

  lemma {:induction false} SubsetSize(a: set<string>, b: set<string>)
    requires a <= b
    ensures |a| <= |b|
  {
    assert b == a + (b - a);
  }

  datatype Outcome = Written | NothingToFork | OutOfDraws

  lemma BlocksOneMore(messages: seq<Message>, i: nat)
    requires i < |messages|
    ensures Blocks(messages[..i + 1]) == Blocks(messages[..i]) + Sources(messages[i].role, messages[i].blocks)
    ensures |Blocks(messages[..i])| + |messages[i].blocks| <= |Blocks(messages)|
  {
    assert messages[..i + 1][..i] == messages[..i];
    BlocksGrow(messages, i + 1);
  }

  lemma {:induction false} BlocksGrow(messages: seq<Message>, n: nat)
    requires n <= |messages|
    ensures |Blocks(messages[..n])| <= |Blocks(messages)|
  {
    if n < |messages| {
      BlocksGrow(messages[..|messages| - 1], n);
      assert messages[..|messages| - 1][..n] == messages[..n];
    } else {
      assert messages[..n] == messages;
    }
  }

  // ----- references

  lemma {:induction false} FlatOfPrefix(entries: seq<Entry>, n: nat)
    requires n <= |entries|
    ensures Flat(entries[..n]) <= Flat(entries)
  {
    if n < |entries| {
      FlatOfPrefix(entries[..|entries| - 1], n);
      assert entries[..|entries| - 1][..n] == entries[..n];
    } else {
      assert entries[..n] == entries;
    }
  }

  /** Every item lies in one of the entries. */
  lemma {:induction false} ItemHasEntry(entries: seq<Entry>, i: nat) returns (m: nat)
    requires i < |Flat(entries)|
    ensures m < |entries| && Flat(entries)[i] in Held(entries[m].payload)
  {
    var n := |entries| - 1;
    if i < |Flat(entries[..n])| {
      m := ItemHasEntry(entries[..n], i);
    } else {
      m := n;
      assert Flat(entries)[i] == Held(entries[n].payload)[i - |Flat(entries[..n])|];
    }
  }

  /**
   * Every tool result names a tool call that an earlier entry made, under the same
   * tool name, and both come from blocks with the same correlation id.
   */
  lemma ResultsNameEarlierCalls(entries: seq<Entry>, start: int, src: seq<Source>, rules: Rules, k: nat)
    returns (m: nat, use: nat, result: nat)
    requires Chained(entries, start) && Corresponds(Flat(entries), src, rules)
    requires k < |entries| && entries[k].payload.ResultMessage?
    ensures m < k && entries[m].payload.AssistantMessage? && entries[k].payload.answer.Answer?
    ensures exists call :: call in entries[m].payload.content && call.Call?
                           && call.id == entries[k].payload.answer.callId && call.name == entries[k].payload.answer.toolName
    ensures use < result < |src| && src[use].block.ToolUse? && src[result].block.ToolResult?
    ensures src[use].block.correlation == src[result].block.correlation && entries[k].payload.answer.text == src[result].block.content
  {
    var items, answer := Flat(entries), entries[k].payload.answer;
    result := |Flat(entries[..k])|;
    assert Linked(entries, k, start);
    assert entries[..k + 1][..k] == entries[..k];
    FlatOfPrefix(entries, k + 1);
    FlatOfPrefix(entries, k);
    assert Flat(entries[..k + 1]) == Flat(entries[..k]) + [Item(User, answer)];
    assert items[result] == Flat(entries[..k + 1])[result] == Item(User, answer);
    assert Represents(items, src, result, rules);
    use := Asked(src, result, rules).value;
    LastUseIsEarlier(src, result, src[result].block.correlation.value, rules);
    m := ItemHasEntry(entries[..k], use);
    assert items[use] == Flat(entries[..k])[use];
    assert Linked(entries, m, start);
    CallIsInAssistantMessage(entries[m], items[use]);
  }

  lemma PieceOfItem(role: Role, content: seq<Piece>, item: Item)
    requires item in Items(role, content)
    ensures item.piece in content
  {
    var i :| 0 <= i < |content| && Items(role, content)[i] == item;
    assert content[i] == item.piece;
  }

  lemma CallIsInAssistantMessage(e: Entry, item: Item)
    requires WellFormed(e.payload, e.timestamp) && item in Held(e.payload) && item.piece.Call?
    ensures e.payload.AssistantMessage? && item.piece in e.payload.content
  {
    if e.payload.AssistantMessage? { PieceOfItem(Assistant, e.payload.content, item); }
    if e.payload.UserMessage? { PieceOfItem(User, e.payload.content, item); }
  }

  /** With different draws no two tool calls of a session share an id, so an answer names one call only. */
  lemma CallIdsDiffer(items: seq<Item>, callIds: nat -> string, made: nat, i: nat, j: nat)
    requires Numbered(items, callIds, made)
    requires forall a: nat, b: nat :: a < b < made ==> callIds(a) != callIds(b)
    requires i < j < |items| && items[i].piece.Call? && items[j].piece.Call?
    ensures items[i].piece.id != items[j].piece.id
  {
    var a, b := PlacesOfCalls(items, i, j);
  }

  lemma {:induction false} PlaceOfCall(items: seq<Item>, i: nat) returns (a: nat)
    requires i < |items| && items[i].piece.Call?
    ensures a < |CallIds(items)| && CallIds(items)[a] == items[i].piece.id
    ensures a == |CallIds(items[..i])|
  {
    var n := |items| - 1;
    if i < n {
      a := PlaceOfCall(items[..n], i);
      assert items[..n][..i] == items[..i];
    } else {
      a := |CallIds(items[..n])|;
    }
  }

  lemma PlacesOfCalls(items: seq<Item>, i: nat, j: nat) returns (a: nat, b: nat)
    requires i < j < |items| && items[i].piece.Call? && items[j].piece.Call?
    ensures a < b < |CallIds(items)| && CallIds(items)[a] == items[i].piece.id && CallIds(items)[b] == items[j].piece.id
  {
    b := PlaceOfCall(items, j);
    a := PlaceOfCall(items, i);
    var earlier := PlaceOfCall(items[..j], i);
    assert items[..j][..i] == items[..i];
  }
}
