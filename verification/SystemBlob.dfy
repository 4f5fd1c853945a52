/**
 * `parse_system_blob`: a system message split back into the attachments it was
 * rendered from. A character stands for one byte.
 */
module SystemBlob {
  import opened Wrappers

  /** The fixed texts of the render formulas. */
  datatype Formulas = Formulas(hook: string, agents: string, note: string, skills: string)

  const BREAK := "\n\n"

  const RENDERING := Formulas(
    " hook success: ",
    "Available agent types for " + "the Agent tool:\n",
    "When you launch multiple agents " + "for independent work, send them " + "in a single message with multiple " + "tool uses so they run concurrently.",
    "The following skills are available " + "for use with the Skill tool:\n\n")

  datatype Attachment =
    | HookSuccess(name: string, event: string, content: string)
    | AgentListing(types: seq<string>, lines: seq<string>, note: bool)
    | SkillListing(content: string)

  datatype Kind = Agents | Hook | Skills

  datatype Mark = Mark(pos: nat, kind: Kind)

  // ----- strings

  predicate Occurs(text: string, needle: string, at: nat) {
    at + |needle| <= |text| && text[at..at + |needle|] == needle
  }

  /** `match_indices`: occurrences from the left that do not overlap. */
  function Matches(text: string, needle: string, from: nat): seq<nat>
    requires needle != []
    decreases |text| - from
  {
    if from + |needle| > |text| then []
    else if Occurs(text, needle, from) then [from] + Matches(text, needle, from + |needle|)
    else Matches(text, needle, from + 1)
  }

  function First(text: string, needle: string, from: nat): Option<nat>
    decreases |text| - from
  {
    if from + |needle| > |text| then None
    else if Occurs(text, needle, from) then Some(from)
    else First(text, needle, from + 1)
  }

  /** The last occurrence that starts at or before `at`. */
  function Last(text: string, needle: string, at: nat): Option<nat> {
    if Occurs(text, needle, at) then Some(at)
    else if at == 0 then None
    else Last(text, needle, at - 1)
  }

  /** Just behind the last blank line that ends at or before `at`, or the start of the text. */
  function LineStart(text: string, at: nat): (p: nat)
    requires at <= |text|
    ensures p <= at
  {
    if at < 2 then 0
    else if text[at - 2..at] == BREAK then at
    else LineStart(text, at - 1)
  }

  function Split(s: string): (lines: seq<string>)
    ensures lines != []
  {
    if s == [] then [[]]
    else
      var rest := Split(s[1..]);
      if s[0] == '\n' then [[]] + rest else [[s[0]] + rest[0]] + rest[1..]
  }

  function Join(lines: seq<string>, joiner: string): string {
    if lines == [] then []
    else if |lines| == 1 then lines[0]
    else lines[0] + joiner + Join(lines[1..], joiner)
  }

  /** The part before the first colon, or all of it. */
  function BeforeColon(s: string): string {
    if s == [] || s[0] == ':' then [] else [s[0]] + BeforeColon(s[1..])
  }

  // ----- marks

  /** Whether a matched formula at `at` begins its own paragraph. */
  predicate StartsParagraph(text: string, at: nat) {
    at == 0 || (2 <= at <= |text| && text[at - 2..at] == BREAK)
  }

  predicate ValidName(name: string) {
    name != [] && '\n' !in name && |name| < 80
  }

  function HookMarks(text: string, matches: seq<nat>): seq<Mark> {
    if matches == [] then []
    else
      var n := |matches| - 1;
      var at := matches[n];
      HookMarks(text, matches[..n]) +
      (if at <= |text| && ValidName(text[LineStart(text, at)..at]) then [Mark(LineStart(text, at), Hook)] else [])
  }

  function HeaderMarks(text: string, matches: seq<nat>, kind: Kind): seq<Mark> {
    if matches == [] then []
    else
      var n := |matches| - 1;
      HeaderMarks(text, matches[..n], kind) + (if StartsParagraph(text, matches[n]) then [Mark(matches[n], kind)] else [])
  }

  predicate Before(a: Mark, b: Mark) {
    a.pos < b.pos || (a.pos == b.pos && ((a.kind.Agents? && !b.kind.Agents?) || (a.kind.Hook? && b.kind.Skills?)))
  }

  function Inserted(marks: seq<Mark>, m: Mark): seq<Mark> {
    if marks == [] || Before(m, marks[0]) then [m] + marks
    else if m == marks[0] then marks
    else [marks[0]] + Inserted(marks[1..], m)
  }

  /** `sort` and `dedup`. */
  function Sorted(marks: seq<Mark>): seq<Mark> {
    if marks == [] then [] else Inserted(Sorted(marks[..|marks| - 1]), marks[|marks| - 1])
  }

  /** What keeps the formulas apart: two of them cannot begin at the same place. */
  predicate Usable(r: Formulas) {
    && r.hook != [] && '\n' !in r.hook
    && r.agents != [] && r.skills != [] && r.agents[0] != r.skills[0]
    && r.agents[0] != '\n' && '\n' in r.agents && First(r.agents, r.hook, 0) == None
    && r.skills[0] != '\n' && '\n' in r.skills && First(r.skills, r.hook, 0) == None
  }

  function Marks(text: string, r: Formulas): seq<Mark>
    requires Usable(r)
  {
    Sorted(HookMarks(text, Matches(text, r.hook, 0))
           + HeaderMarks(text, Matches(text, r.agents, 0), Agents)
           + HeaderMarks(text, Matches(text, r.skills, 0), Skills))
  }

  // ----- segments

  /** From a mark to the blank line before the next one. */
  function SegmentEnd(text: string, marks: seq<Mark>, i: nat): int
    requires i < |marks|
  {
    if i + 1 < |marks| then (if marks[i + 1].pos < 2 then 0 else marks[i + 1].pos - 2) else |text|
  }

  function NamesOf(lines: seq<string>): seq<string> {
    if lines == [] then []
    else (if |lines[0]| >= 2 && lines[0][..2] == "- " then [BeforeColon(lines[0][2..])] else []) + NamesOf(lines[1..])
  }

  function AgentListingOf(body: string, r: Formulas): Attachment {
    var note := Last(body, BREAK + r.note, |body|);
    var lines := Split(if note.Some? && note.value <= |body| then body[..note.value] else body);
    AgentListing(NamesOf(lines), lines, note.Some?)
  }

  /** The attachment of one segment; `None` when the segment does not hold its own formula. */
  function Attached(kind: Kind, seg: string, r: Formulas): Option<Attachment> {
    match kind
    case Hook =>
      (match First(seg, r.hook, 0)
       case None => None
       case Some(at) =>
         if at + |r.hook| <= |seg| then Some(HookSuccess(seg[..at], BeforeColon(seg[..at]), seg[at + |r.hook|..])) else None)
    case Agents => if r.agents <= seg then Some(AgentListingOf(seg[|r.agents|..], r)) else None
    case Skills => if r.skills <= seg then Some(SkillListing(seg[|r.skills|..])) else None
  }

  // ----- rendering

  function Rendered(a: Attachment, r: Formulas): string {
    match a
    case HookSuccess(name, _, content) => name + r.hook + content
    case AgentListing(_, lines, note) => r.agents + Join(lines, "\n") + (if note then BREAK + r.note else [])
    case SkillListing(content) => r.skills + content
  }

  function RenderedAll(attachments: seq<Attachment>, r: Formulas): seq<string> {
    if attachments == [] then []
    else RenderedAll(attachments[..|attachments| - 1], r) + [Rendered(attachments[|attachments| - 1], r)]
  }

  function Message(attachments: seq<Attachment>, r: Formulas): string {
    Join(RenderedAll(attachments, r), BREAK)
  }

  // ----- where marks are

  lemma {:induction false} MatchesOccur(text: string, needle: string, from: nat)
    requires needle != []
    ensures forall at :: at in Matches(text, needle, from) ==> from <= at && Occurs(text, needle, at)
    decreases |text| - from
  {
    if from + |needle| <= |text| {
      MatchesOccur(text, needle, if Occurs(text, needle, from) then from + |needle| else from + 1);
    }
  }

  lemma {:induction false} FirstFinds(text: string, needle: string, from: nat)
    ensures match First(text, needle, from)
            case Some(at) => from <= at && Occurs(text, needle, at) && forall k :: from <= k < at ==> !Occurs(text, needle, k)
            case None => forall k :: from <= k ==> !Occurs(text, needle, k)
    decreases |text| - from
  {
    if from + |needle| <= |text| && !Occurs(text, needle, from) { FirstFinds(text, needle, from + 1); }
  }

  lemma {:induction false} LastFinds(text: string, needle: string, at: nat)
    ensures match Last(text, needle, at)
            case Some(k) => k <= at && Occurs(text, needle, k) && forall j :: k < j <= at ==> !Occurs(text, needle, j)
            case None => forall j :: 0 <= j <= at ==> !Occurs(text, needle, j)
  {
    if at > 0 && !Occurs(text, needle, at) { LastFinds(text, needle, at - 1); }
  }

  lemma {:induction false} LineStartIsParagraph(text: string, at: nat)
    requires at <= |text|
    ensures LineStart(text, at) <= at && StartsParagraph(text, LineStart(text, at))
    ensures forall q :: LineStart(text, at) < q <= at ==> !StartsParagraph(text, q)
  {
    if at >= 2 && text[at - 2..at] != BREAK { LineStartIsParagraph(text, at - 1); }
  }

  /** A hook mark: a short line up to the first part of the formula. */
  predicate HookAt(text: string, p: nat, at: nat, r: Formulas) {
    p < at && Occurs(text, r.hook, at) && forall k :: p <= k < at ==> text[k] != '\n'
  }

  /** What every mark has in common with the rendering. */
  ghost predicate MarkHolds(text: string, m: Mark, r: Formulas) {
    && StartsParagraph(text, m.pos)
    && match m.kind
       case Hook => exists at :: HookAt(text, m.pos, at, r)
       case Agents => Occurs(text, r.agents, m.pos)
       case Skills => Occurs(text, r.skills, m.pos)
  }

  lemma {:induction false} HookMarksHold(text: string, matches: seq<nat>, r: Formulas)
    requires forall at :: at in matches ==> Occurs(text, r.hook, at)
    ensures forall m :: m in HookMarks(text, matches) ==> MarkHolds(text, m, r)
  {
    if matches != [] {
      var at := matches[|matches| - 1];
      assert at in matches;
      HookMarksHold(text, matches[..|matches| - 1], r);
      LineStartIsParagraph(text, at);
      var p := LineStart(text, at);
      if ValidName(text[p..at]) {
        forall k | p <= k < at ensures text[k] != '\n' { assert text[p..at][k - p] == text[k]; }
        assert HookAt(text, p, at, r);
      }
    }
  }

  lemma {:induction false} HeaderMarksHold(text: string, matches: seq<nat>, kind: Kind, r: Formulas)
    requires kind.Agents? ==> forall at :: at in matches ==> Occurs(text, r.agents, at)
    requires kind.Skills? ==> forall at :: at in matches ==> Occurs(text, r.skills, at)
    requires !kind.Hook?
    ensures forall m :: m in HeaderMarks(text, matches, kind) ==> MarkHolds(text, m, r)
  {
    if matches != [] {
      HeaderMarksHold(text, matches[..|matches| - 1], kind, r);
      assert matches[|matches| - 1] in matches;
    }
  }

  predicate Ascends(marks: seq<Mark>) {
    forall i, j :: 0 <= i < j < |marks| ==> Before(marks[i], marks[j])
  }

  lemma {:induction false} InsertedAscends(marks: seq<Mark>, m: Mark)
    requires Ascends(marks)
    ensures Ascends(Inserted(marks, m))
    ensures forall x :: x in Inserted(marks, m) <==> x in marks || x == m
  {
    if marks != [] {
      assert marks == [marks[0]] + marks[1..];
      if !Before(m, marks[0]) && m != marks[0] {
        InsertedAscends(marks[1..], m);
        var rest := Inserted(marks[1..], m);
        forall j | 0 <= j < |rest| ensures Before(marks[0], rest[j]) {
          assert rest[j] in rest;
        }
      }
    }
  }

  /** Sorting without duplicates: strictly ascending, and the same marks. */
  lemma {:induction false} SortedIsExact(marks: seq<Mark>)
    ensures Ascends(Sorted(marks))
    ensures forall x :: x in Sorted(marks) <==> x in marks
  {
    if marks != [] {
      var n := |marks| - 1;
      SortedIsExact(marks[..n]);
      InsertedAscends(Sorted(marks[..n]), marks[n]);
      assert marks == marks[..n] + [marks[n]];
    }
  }

  lemma MarksHold(text: string, r: Formulas)
    requires Usable(r)
    ensures Ascends(Marks(text, r)) && forall m :: m in Marks(text, r) ==> MarkHolds(text, m, r)
  {
    MatchesOccur(text, r.hook, 0);
    MatchesOccur(text, r.agents, 0);
    MatchesOccur(text, r.skills, 0);
    var hooks, agents, skills := Matches(text, r.hook, 0), Matches(text, r.agents, 0), Matches(text, r.skills, 0);
    HookMarksHold(text, hooks, r);
    HeaderMarksHold(text, agents, Agents, r);
    HeaderMarksHold(text, skills, Skills, r);
    SortedIsExact(HookMarks(text, hooks) + HeaderMarks(text, agents, Agents) + HeaderMarks(text, skills, Skills));
  }

  lemma MarkIsNoNewline(text: string, m: Mark, r: Formulas)
    requires Usable(r) && MarkHolds(text, m, r)
    ensures m.pos < |text| && text[m.pos] != '\n'
  {
    match m.kind {
      case Hook =>
        var at :| HookAt(text, m.pos, at, r);
        assert text[m.pos] != '\n';
      case Agents => assert text[m.pos..m.pos + |r.agents|][0] == text[m.pos];
      case Skills => assert text[m.pos..m.pos + |r.skills|][0] == text[m.pos];
    }
  }

  lemma HookInHeader(text: string, p: nat, at: nat, header: string, r: Formulas)
    requires '\n' !in r.hook && '\n' in header && Occurs(text, header, p) && HookAt(text, p, at, r)
    ensures Occurs(header, r.hook, at - p)
  {
    assert forall i :: 0 <= i < |header| ==> header[i] == text[p..p + |header|][i] == text[p + i];
    assert forall i :: 0 <= i < |r.hook| ==> r.hook[i] == text[at..at + |r.hook|][i] == text[at + i];
    var k :| 0 <= k < |header| && header[k] == '\n';
    assert text[p + k] == '\n' && p + k >= at + |r.hook|;
    assert header[at - p..at - p + |r.hook|] == text[at..at + |r.hook|];
  }

  /** A header and a hook line never begin at the same place. */
  lemma HeaderIsNoHook(text: string, p: nat, at: nat, header: string, r: Formulas)
    requires Usable(r) && '\n' in header && First(header, r.hook, 0) == None && Occurs(text, header, p)
    ensures !HookAt(text, p, at, r)
  {
    FirstFinds(header, r.hook, 0);
    if HookAt(text, p, at, r) { HookInHeader(text, p, at, header, r); }
  }

  lemma MarksAreApart(text: string, a: Mark, b: Mark, r: Formulas)
    requires Usable(r) && MarkHolds(text, a, r) && MarkHolds(text, b, r) && Before(a, b)
    ensures a.pos + 2 < b.pos && text[b.pos - 2..b.pos] == BREAK
  {
    MarkIsNoNewline(text, a, r);
    MarkIsNoNewline(text, b, r);
    if a.pos == b.pos {
      SamePlaceSameKind(text, a, b, r);
    } else {
      assert text[b.pos - 2] == text[b.pos - 2..b.pos][0] == '\n';
      assert text[b.pos - 1] == text[b.pos - 2..b.pos][1] == '\n';
    }
  }

  lemma SamePlaceSameKind(text: string, a: Mark, b: Mark, r: Formulas)
    requires Usable(r) && MarkHolds(text, a, r) && MarkHolds(text, b, r) && a.pos == b.pos
    ensures a.kind == b.kind
  {
    forall at
      ensures a.kind.Agents? || b.kind.Agents? ==> !HookAt(text, a.pos, at, r)
      ensures a.kind.Skills? || b.kind.Skills? ==> !HookAt(text, a.pos, at, r)
    {
      if a.kind.Agents? || b.kind.Agents? { HeaderIsNoHook(text, a.pos, at, r.agents, r); }
      if a.kind.Skills? || b.kind.Skills? { HeaderIsNoHook(text, a.pos, at, r.skills, r); }
    }
    assert Occurs(text, r.agents, a.pos) ==> text[a.pos..a.pos + |r.agents|][0] == text[a.pos] == r.agents[0];
    assert Occurs(text, r.skills, a.pos) ==> text[a.pos..a.pos + |r.skills|][0] == text[a.pos] == r.skills[0];
  }

  // ----- taking segments apart and putting them together

  lemma {:induction false} SplitJoins(s: string)
    ensures Join(Split(s), "\n") == s
  {
    if s != [] {
      SplitJoins(s[1..]);
      var rest := Split(s[1..]);
      if s[0] == '\n' {
        assert ([[]] + rest)[1..] == rest;
        assert Join(Split(s), "\n") == [] + "\n" + Join(rest, "\n");
      } else {
        var first := [s[0]] + rest[0];
        assert ([first] + rest[1..])[1..] == rest[1..];
        if |rest| > 1 {
          assert Join(Split(s), "\n") == first + "\n" + Join(rest[1..], "\n") == [s[0]] + (rest[0] + "\n" + Join(rest[1..], "\n"));
        }
      }
      assert s == [s[0]] + s[1..];
    }
  }

  /** What `parse_system_blob` drops from a segment: the text after the concurrency note. */
  function Lost(kind: Kind, seg: string, r: Formulas): string {
    if kind.Agents? && r.agents <= seg then
      var body := seg[|r.agents|..];
      match Last(body, BREAK + r.note, |body|)
      case None => []
      case Some(p) => if p + |BREAK + r.note| <= |body| then body[p + |BREAK + r.note|..] else []
    else []
  }

  /** Rendering an attachment gives back its segment up to the dropped text. */
  lemma RenderedRestores(kind: Kind, seg: string, r: Formulas)
    requires Attached(kind, seg, r).Some?
    ensures Rendered(Attached(kind, seg, r).value, r) + Lost(kind, seg, r) == seg
  {
    match kind {
      case Hook =>
        FirstFinds(seg, r.hook, 0);
        var at := First(seg, r.hook, 0).value;
        assert seg == seg[..at] + seg[at..at + |r.hook|] + seg[at + |r.hook|..];
      case Skills =>
        assert seg == r.skills + seg[|r.skills|..];
      case Agents =>
        ListingSegmentRestores(seg, r);
    }
  }

  lemma ListingSegmentRestores(seg: string, r: Formulas)
    requires r.agents <= seg
    ensures Rendered(AgentListingOf(seg[|r.agents|..], r), r) + Lost(Agents, seg, r) == seg
  {
    var a := AgentListingOf(seg[|r.agents|..], r);
    ListingRestores(seg[|r.agents|..], r);
    assert seg == r.agents + seg[|r.agents|..];
    var note := if a.note then BREAK + r.note else [];
    assert r.agents + Join(a.lines, "\n") + note + Lost(Agents, seg, r) == r.agents + (Join(a.lines, "\n") + note + Lost(Agents, seg, r));
  }

  lemma ListingRestores(body: string, r: Formulas)
    ensures var a := AgentListingOf(body, r);
            Join(a.lines, "\n") + (if a.note then BREAK + r.note else []) + Lost(Agents, r.agents + body, r) == body
  {
    var needle := BREAK + r.note;
    LastFinds(body, needle, |body|);
    assert (r.agents + body)[|r.agents|..] == body && r.agents <= r.agents + body;
    match Last(body, needle, |body|) {
      case None =>
        SplitJoins(body);
        assert body + [] + [] == body;
      case Some(p) =>
        SplitJoins(body[..p]);
        assert body == body[..p] + body[p..p + |needle|] + body[p + |needle|..];
    }
  }

  // ----- what rendering leaves out

  /** `p` is `s` up to its first colon, or all of it. */
  predicate EndsAtColon(p: string, s: string) {
    p <= s && ':' !in p && (|p| < |s| ==> s[|p|] == ':')
  }

  lemma {:induction false} BeforeColonEnds(s: string)
    ensures EndsAtColon(BeforeColon(s), s)
  {
    if s != [] && s[0] != ':' {
      BeforeColonEnds(s[1..]);
      var p := BeforeColon(s[1..]);
      assert s == [s[0]] + s[1..] && BeforeColon(s) == [s[0]] + p;
    }
  }

  lemma {:induction false} SplitHasNoNewlines(s: string)
    ensures forall line :: line in Split(s) ==> '\n' !in line
  {
    if s != [] { SplitHasNoNewlines(s[1..]); }
  }

  predicate IsEntry(line: string) {
    |line| >= 2 && line[..2] == "- "
  }

  /** The names are those of the lines that begin with a dash, in order, each up to its first colon. */
  ghost predicate NamesTheEntries(names: seq<string>, lines: seq<string>, at: seq<nat>) {
    && |at| == |names|
    && (forall j, k :: 0 <= j < k < |at| ==> at[j] < at[k])
    && (forall k :: 0 <= k < |at| ==> at[k] < |lines| && IsEntry(lines[at[k]]) && EndsAtColon(names[k], lines[at[k]][2..]))
    && forall i :: 0 <= i < |lines| && IsEntry(lines[i]) ==> i in at
  }

  lemma {:induction false} NamesOfOneMore(lines: seq<string>, last: string)
    ensures NamesOf(lines + [last]) == NamesOf(lines) + if IsEntry(last) then [BeforeColon(last[2..])] else []
  {
    if lines == [] {
      assert lines + [last] == [last] && [last][1..] == [];
    } else {
      NamesOfOneMore(lines[1..], last);
      assert (lines + [last])[1..] == lines[1..] + [last];
    }
  }

  lemma EntryAdded(names: seq<string>, lines: seq<string>, at: seq<nat>, last: string, name: string)
    requires NamesTheEntries(names, lines, at)
    ensures !IsEntry(last) ==> NamesTheEntries(names, lines + [last], at)
    ensures IsEntry(last) && EndsAtColon(name, last[2..]) ==> NamesTheEntries(names + [name], lines + [last], at + [|lines|])
  {
    var all, places := lines + [last], at + [|lines|];
    assert forall i :: 0 <= i < |lines| ==> all[i] == lines[i];
    assert forall i :: i in at ==> i in places;
    assert |lines| in places;
  }

  lemma {:induction false} NamesAreEntries(lines: seq<string>) returns (at: seq<nat>)
    ensures NamesTheEntries(NamesOf(lines), lines, at)
  {
    if lines == [] {
      at := [];
    } else {
      var n := |lines| - 1;
      var front, last := lines[..n], lines[n];
      at := NamesAreEntries(front);
      NamesOfOneMore(front, last);
      assert lines == front + [last];
      if IsEntry(last) {
        BeforeColonEnds(last[2..]);
        EntryAdded(NamesOf(front), front, at, last, BeforeColon(last[2..]));
        at := at + [n];
      } else {
        EntryAdded(NamesOf(front), front, at, last, "");
        assert NamesOf(front) + [] == NamesOf(front);
      }
    }
  }

  /** A hook attachment, over its segment: the first formula divides it, and the event is the name up to its first colon. */
  lemma HookIsExact(seg: string, r: Formulas)
    requires Attached(Hook, seg, r).Some?
    ensures var a := Attached(Hook, seg, r).value;
            && a.HookSuccess? && seg == a.name + r.hook + a.content
            && (forall k :: 0 <= k < |a.name| ==> !Occurs(seg, r.hook, k))
            && EndsAtColon(a.event, a.name)
  {
    FirstFinds(seg, r.hook, 0);
    var at := First(seg, r.hook, 0).value;
    BeforeColonEnds(seg[..at]);
    assert seg == seg[..at] + seg[at..at + |r.hook|] + seg[at + |r.hook|..];
  }

  /**
   * An agent listing, over its segment: the note is there exactly when its text is, the
   * lines are those before its last occurrence, and the types name the lines with a dash.
   */
  lemma ListingIsExact(seg: string, r: Formulas) returns (listing: string, at: seq<nat>)
    requires Attached(Agents, seg, r).Some?
    ensures var a := Attached(Agents, seg, r).value;
            && a.AgentListing? && r.agents + listing <= seg
            && Join(a.lines, "\n") == listing && (forall line :: line in a.lines ==> '\n' !in line)
            && (a.note <==> exists k: nat :: Occurs(seg[|r.agents|..], BREAK + r.note, k))
            && (if a.note then
                  && Occurs(seg[|r.agents|..], BREAK + r.note, |listing|)
                  && forall k :: k > |listing| ==> !Occurs(seg[|r.agents|..], BREAK + r.note, k)
                else seg == r.agents + listing)
            && NamesTheEntries(a.types, a.lines, at)
  {
    var body := seg[|r.agents|..];
    var note := Last(body, BREAK + r.note, |body|);
    LastFinds(body, BREAK + r.note, |body|);
    listing := if note.Some? then body[..note.value] else body;
    SplitJoins(listing);
    SplitHasNoNewlines(listing);
    at := NamesAreEntries(Split(listing));
    assert seg == r.agents + body;
  }

  // ----- the whole message

  /** Mark `i` begins behind a blank line that comes after the mark before it. */
  predicate StandsApart(text: string, marks: seq<Mark>, i: nat)
    requires 0 < i < |marks|
  {
    marks[i - 1].pos + 2 < marks[i].pos < |text| && text[marks[i].pos - 2..marks[i].pos] == BREAK
  }

  /** Marks that divide the text, the first at its start. */
  predicate Divides(text: string, marks: seq<Mark>) {
    && marks != [] && marks[0].pos == 0
    && forall i :: 0 < i < |marks| ==> StandsApart(text, marks, i)
  }

  lemma MarksDivide(text: string, r: Formulas)
    requires Usable(r) && Marks(text, r) != [] && Marks(text, r)[0].pos == 0
    ensures Divides(text, Marks(text, r))
  {
    var marks := Marks(text, r);
    MarksHold(text, r);
    forall i | 0 < i < |marks|
      ensures StandsApart(text, marks, i)
    {
      assert marks[i - 1] in marks && marks[i] in marks;
      MarkIsNoNewline(text, marks[i], r);
      MarksAreApart(text, marks[i - 1], marks[i], r);
    }
  }

  lemma SegmentsInOrder(text: string, marks: seq<Mark>, i: nat)
    requires Divides(text, marks) && i < |marks|
    ensures marks[i].pos <= SegmentEnd(text, marks, i) <= |text|
  {
    if i > 0 { assert StandsApart(text, marks, i); }
    if i + 1 < |marks| { assert StandsApart(text, marks, i + 1); }
  }

  function SegmentAt(text: string, marks: seq<Mark>, i: nat): string
    requires Divides(text, marks) && i < |marks|
  {
    SegmentsInOrder(text, marks, i);
    text[marks[i].pos..SegmentEnd(text, marks, i)]
  }

  function Segments(text: string, marks: seq<Mark>, n: nat): seq<string>
    requires Divides(text, marks) && n <= |marks|
  {
    if n == 0 then [] else Segments(text, marks, n - 1) + [SegmentAt(text, marks, n - 1)]
  }

  lemma {:induction false} JoinOneMore(parts: seq<string>, last: string, joiner: string)
    requires parts != []
    ensures Join(parts + [last], joiner) == Join(parts, joiner) + joiner + last
  {
    if |parts| == 1 {
      assert (parts + [last])[1..] == [last];
    } else {
      JoinOneMore(parts[1..], last, joiner);
      assert (parts + [last])[1..] == parts[1..] + [last];
      assert parts[0] + joiner + (Join(parts[1..], joiner) + joiner + last) == parts[0] + joiner + Join(parts[1..], joiner) + joiner + last;
    }
  }

  lemma {:induction false} SegmentsJoin(text: string, marks: seq<Mark>, n: nat)
    requires Divides(text, marks) && 0 < n <= |marks|
    ensures |Segments(text, marks, n)| == n
    ensures 0 <= SegmentEnd(text, marks, n - 1) <= |text|
    ensures Join(Segments(text, marks, n), BREAK) == text[..SegmentEnd(text, marks, n - 1)]
  {
    var seg := SegmentAt(text, marks, n - 1);
    SegmentsInOrder(text, marks, n - 1);
    if n == 1 {
      assert Segments(text, marks, 1) == [seg];
    } else {
      SegmentsJoin(text, marks, n - 1);
      JoinOneMore(Segments(text, marks, n - 1), seg, BREAK);
      assert StandsApart(text, marks, n - 1);
      SegmentsInOrder(text, marks, n - 1);
      var p, q := SegmentEnd(text, marks, n - 2), marks[n - 1].pos;
      assert text[..SegmentEnd(text, marks, n - 1)] == text[..p] + text[p..q] + seg;
    }
  }

  /** The attachments of the first `n` segments. */
  function AttachedUpTo(text: string, marks: seq<Mark>, n: nat, r: Formulas): Option<seq<Attachment>>
    requires Divides(text, marks) && n <= |marks|
  {
    if n == 0 then Some([])
    else match AttachedUpTo(text, marks, n - 1, r)
      case None => None
      case Some(out) =>
        match Attached(marks[n - 1].kind, SegmentAt(text, marks, n - 1), r)
        case None => None
        case Some(a) => Some(out + [a])
  }

  /** `parse_system_blob`, for any formulas that can be told apart. */
  function Parsed(text: string, r: Formulas): Option<seq<Attachment>>
    requires Usable(r)
  {
    var marks := Marks(text, r);
    if marks == [] || marks[0].pos != 0 then None
    else MarksDivide(text, r); AttachedUpTo(text, marks, |marks|, r)
  }

  predicate LosesNothing(text: string, marks: seq<Mark>, n: nat, r: Formulas)
    requires Divides(text, marks) && n <= |marks|
  {
    forall i :: 0 <= i < n ==> Lost(marks[i].kind, SegmentAt(text, marks, i), r) == []
  }

  /** The first attachments render to the first segments, or to less when something was dropped. */
  lemma {:induction false} RenderedAgainstSegments(text: string, marks: seq<Mark>, n: nat, r: Formulas)
    requires Divides(text, marks) && 0 < n <= |marks| && AttachedUpTo(text, marks, n, r).Some?
    ensures |AttachedUpTo(text, marks, n, r).value| == n
    ensures var m, s := Message(AttachedUpTo(text, marks, n, r).value, r), Join(Segments(text, marks, n), BREAK);
            if LosesNothing(text, marks, n, r) then m == s else |m| < |s|
  {
    var seg, kind := SegmentAt(text, marks, n - 1), marks[n - 1].kind;
    var before := AttachedUpTo(text, marks, n - 1, r).value;
    var a := Attached(kind, seg, r).value;
    RenderedRestores(kind, seg, r);
    assert AttachedUpTo(text, marks, n, r).value == before + [a] && (before + [a])[..|before|] == before;
    LosesOneMore(text, marks, n, r);
    if n == 1 {
      assert before == [] && RenderedAll([a], r) == [Rendered(a, r)] by { assert [a][..0] == []; }
      assert Segments(text, marks, 1) == [seg];
      assert Lost(kind, seg, r) == [] ==> Rendered(a, r) == seg;
    } else {
      RenderedAgainstSegments(text, marks, n - 1, r);
      SegmentsJoin(text, marks, n - 1);
      RenderedAllLength(before, r);
      JoinOneMore(RenderedAll(before, r), Rendered(a, r), BREAK);
      JoinOneMore(Segments(text, marks, n - 1), seg, BREAK);
      assert Lost(kind, seg, r) == [] ==> Rendered(a, r) == seg;
    }
  }

  lemma LosesOneMore(text: string, marks: seq<Mark>, n: nat, r: Formulas)
    requires Divides(text, marks) && 0 < n <= |marks|
    ensures LosesNothing(text, marks, n, r) <==>
            LosesNothing(text, marks, n - 1, r) && Lost(marks[n - 1].kind, SegmentAt(text, marks, n - 1), r) == []
  {
  }

  lemma {:induction false} RenderedAllLength(attachments: seq<Attachment>, r: Formulas)
    ensures |RenderedAll(attachments, r)| == |attachments|
  {
    if attachments != [] { RenderedAllLength(attachments[..|attachments| - 1], r); }
  }

  /**
   * Whenever attachments are returned, rendering them and joining with blank lines gives
   * the input back byte for byte, exactly when no agent listing has text after its
   * concurrency note.
   */
  lemma RendersBackIff(text: string, r: Formulas)
    requires Usable(r) && Parsed(text, r).Some?
    ensures Divides(text, Marks(text, r))
    ensures Message(Parsed(text, r).value, r) == text <==> LosesNothing(text, Marks(text, r), |Marks(text, r)|, r)
  {
    var marks := Marks(text, r);
    MarksDivide(text, r);
    RenderedAgainstSegments(text, marks, |marks|, r);
    SegmentsJoin(text, marks, |marks|);
    assert text[..|text|] == text;
  }

  // ----- when nothing is returned

  lemma HookBeforeBreak(text: string, p: nat, at: nat, end: nat, r: Formulas)
    requires '\n' !in r.hook && HookAt(text, p, at, r) && p <= end <= |text| && (end < |text| ==> text[end] == '\n')
    ensures at + |r.hook| <= end && Occurs(text[p..end], r.hook, at - p)
  {
    assert forall k :: 0 <= k < |r.hook| ==> r.hook[k] == text[at..at + |r.hook|][k] == text[at + k];
    assert at + |r.hook| <= end;
    var seg := text[p..end];
    assert forall i :: 0 <= i < |seg| ==> seg[i] == text[p + i];
    assert forall i :: 0 <= i < |r.hook| ==> seg[at - p..at - p + |r.hook|][i] == r.hook[i];
  }

  /** A hook segment always splits: its formula lies before the next blank line. */
  lemma HookSegmentSplits(text: string, r: Formulas, i: nat)
    requires Usable(r) && Divides(text, Marks(text, r)) && i < |Marks(text, r)| && Marks(text, r)[i].kind.Hook?
    ensures Attached(Hook, SegmentAt(text, Marks(text, r), i), r).Some?
  {
    var marks := Marks(text, r);
    MarksHold(text, r);
    assert MarkHolds(text, marks[i], r);
    HookSplits(text, marks, i, r);
  }

  lemma HookSplits(text: string, marks: seq<Mark>, i: nat, r: Formulas)
    requires Usable(r) && Divides(text, marks) && i < |marks| && marks[i].kind.Hook? && MarkHolds(text, marks[i], r)
    ensures Attached(Hook, SegmentAt(text, marks, i), r).Some?
  {
    var p, end := marks[i].pos, SegmentEnd(text, marks, i);
    var at: nat :| HookAt(text, p, at, r);
    SegmentsInOrder(text, marks, i);
    if i + 1 < |marks| {
      assert StandsApart(text, marks, i + 1);
      assert text[end] == text[end..end + 2][0] == '\n';
    }
    HookBeforeBreak(text, p, at, end, r);
    FirstFinds(SegmentAt(text, marks, i), r.hook, 0);
  }

  /** Segment `i` holds the formula its mark announces. */
  predicate Holds(text: string, marks: seq<Mark>, i: nat, r: Formulas)
    requires Divides(text, marks) && i < |marks|
  {
    Attached(marks[i].kind, SegmentAt(text, marks, i), r).Some?
  }

  lemma HoldsIff(text: string, r: Formulas, i: nat)
    requires Usable(r) && Divides(text, Marks(text, r)) && i < |Marks(text, r)|
    ensures var m, seg := Marks(text, r)[i], SegmentAt(text, Marks(text, r), i);
            Holds(text, Marks(text, r), i, r) <==> (m.kind.Agents? ==> r.agents <= seg) && (m.kind.Skills? ==> r.skills <= seg)
  {
    if Marks(text, r)[i].kind.Hook? { HookSegmentSplits(text, r, i); }
  }

  /** Nothing is returned exactly when no mark stands at the start, or some header is cut by the next blank line. */
  lemma NothingIff(text: string, r: Formulas)
    requires Usable(r)
    ensures var marks := Marks(text, r);
            Parsed(text, r).Some? <==>
            && Divides(text, marks)
            && forall i :: 0 <= i < |marks| ==>
                 (marks[i].kind.Agents? ==> r.agents <= SegmentAt(text, marks, i)) &&
                 (marks[i].kind.Skills? ==> r.skills <= SegmentAt(text, marks, i))
  {
    var marks := Marks(text, r);
    if marks != [] && marks[0].pos == 0 {
      MarksDivide(text, r);
      AttachedIff(text, marks, |marks|, r);
      forall i | 0 <= i < |marks|
        ensures Holds(text, marks, i, r) <==>
                (marks[i].kind.Agents? ==> r.agents <= SegmentAt(text, marks, i)) &&
                (marks[i].kind.Skills? ==> r.skills <= SegmentAt(text, marks, i))
      {
        HoldsIff(text, r, i);
      }
    }
  }

  lemma {:induction false} AttachedIff(text: string, marks: seq<Mark>, n: nat, r: Formulas)
    requires Divides(text, marks) && n <= |marks|
    ensures AttachedUpTo(text, marks, n, r).Some? <==> forall i :: 0 <= i < n ==> Holds(text, marks, i, r)
  {
    if n > 0 {
      AttachedIff(text, marks, n - 1, r);
      AttachedNext(text, marks, n, r);
    }
  }

  lemma AttachedNext(text: string, marks: seq<Mark>, n: nat, r: Formulas)
    requires Divides(text, marks) && 0 < n <= |marks|
    ensures AttachedUpTo(text, marks, n, r).Some? <==> AttachedUpTo(text, marks, n - 1, r).Some? && Holds(text, marks, n - 1, r)
  {
  }

  // ----- the formulas as they are

  /** No character `c` is directly followed by `d`. */
  predicate NoPair(s: string, c: char, d: char) {
    forall k :: 0 <= k < |s| - 1 && s[k] == c ==> s[k + 1] != d
  }

  /** Every place where `needle` stands holds its first two characters. */
  lemma OccursPair(s: string, needle: string, at: nat)
    requires |needle| >= 2 && Occurs(s, needle, at)
    ensures s[at] == needle[0] && s[at + 1] == needle[1]
  {
    assert s[at..at + |needle|][0] == needle[0] && s[at..at + |needle|][1] == needle[1];
  }

  lemma NoMatchWithoutPair(s: string, needle: string)
    requires |needle| >= 2 && NoPair(s, needle[0], needle[1])
    ensures forall at :: !Occurs(s, needle, at)
  {
    forall at: nat
      ensures Occurs(s, needle, at) ==> s[at] == needle[0] && s[at + 1] == needle[1]
    {
      if Occurs(s, needle, at) { OccursPair(s, needle, at); }
    }
  }

  lemma PairConcat(a: string, b: string, c: char, d: char)
    requires NoPair(a, c, d) && NoPair(b, c, d) && b != [] && b[0] != d
    ensures NoPair(a + b, c, d)
  {
  }

  lemma AgentsHaveNoPair()
    ensures NoPair(RENDERING.agents, ' ', 'h')
  {
    PairConcat("Available agent types for ", "the Agent tool:\n", ' ', 'h');
  }

  lemma SkillsHaveNoPair()
    ensures NoPair(RENDERING.skills, ' ', 'h')
  {
    PairConcat("The following skills are available ", "for use with the Skill tool:\n\n", ' ', 'h');
  }

  lemma HookStarts()
    ensures |RENDERING.hook| >= 2 && RENDERING.hook[0] == ' ' && RENDERING.hook[1] == 'h' && '\n' !in RENDERING.hook
  {
  }

  lemma HeadersEnd()
    ensures |RENDERING.agents| > 0 && |RENDERING.skills| > 0
    ensures RENDERING.agents[0] == 'A' && RENDERING.skills[0] == 'T'
    ensures RENDERING.agents[|RENDERING.agents| - 1] == '\n' && RENDERING.skills[|RENDERING.skills| - 1] == '\n'
  {
  }

  lemma SeparateFormulasAreUsable(r: Formulas)
    requires |r.hook| >= 2 && '\n' !in r.hook && |r.agents| > 0 && |r.skills| > 0
    requires r.agents[0] != r.skills[0] && r.agents[0] != '\n' && r.skills[0] != '\n'
    requires r.agents[|r.agents| - 1] == '\n' && r.skills[|r.skills| - 1] == '\n'
    requires NoPair(r.agents, r.hook[0], r.hook[1]) && NoPair(r.skills, r.hook[0], r.hook[1])
    ensures Usable(r)
  {
    NoMatchWithoutPair(r.agents, r.hook);
    NoMatchWithoutPair(r.skills, r.hook);
    FirstFinds(r.agents, r.hook, 0);
    FirstFinds(r.skills, r.hook, 0);
  }

  /** The formulas of the source can be told apart, so all of the above applies to them. */
  lemma RenderingIsUsable()
    ensures Usable(RENDERING)
  {
    AgentsHaveNoPair();
    SkillsHaveNoPair();
    HookStarts();
    HeadersEnd();
    SeparateFormulasAreUsable(RENDERING);
  }

  // ----- text after the concurrency note

  lemma NoteHasNoHook()
    ensures NoPair(RENDERING.note, ' ', 'h')
  {
    NoteParts("When you launch multiple agents ", "for independent work, send them ", "in a single message with multiple ", "tool uses so they run concurrently.", ' ', 'h');
  }

  lemma NoteHasNoAgents()
    ensures NoPair(RENDERING.note, 'A', 'v')
  {
    NoteParts("When you launch multiple agents ", "for independent work, send them ", "in a single message with multiple ", "tool uses so they run concurrently.", 'A', 'v');
  }

  lemma NoteHasNoSkills()
    ensures NoPair(RENDERING.note, 'T', 'h')
  {
    NoteParts("When you launch multiple agents ", "for independent work, send them ", "in a single message with multiple ", "tool uses so they run concurrently.", 'T', 'h');
  }

  lemma NoteStarts()
    ensures |RENDERING.note| > 0 && RENDERING.note[0] == 'W'
  {
  }

  lemma NoteParts(a: string, b: string, c: string, d: string, x: char, y: char)
    requires NoPair(a, x, y) && NoPair(b, x, y) && NoPair(c, x, y) && NoPair(d, x, y)
    requires b != [] && c != [] && d != [] && b[0] != y && c[0] != y && d[0] != y
    ensures NoPair(a + b + c + d, x, y)
  {
    PairConcat(a, b, x, y);
    PairConcat(a + b, c, x, y);
    PairConcat(a + b + c, d, x, y);
  }

  lemma AgentsHaveNoSkills()
    ensures NoPair(RENDERING.agents, 'T', 'h')
  {
    PairConcat("Available agent types for ", "the Agent tool:\n", 'T', 'h');
  }

  lemma HeaderStarts()
    ensures |RENDERING.agents| >= 2 && RENDERING.agents[0] == 'A' && RENDERING.agents[1] == 'v'
    ensures |RENDERING.skills| >= 2 && RENDERING.skills[0] == 'T' && RENDERING.skills[1] == 'h'
  {
  }

  /** A listing alone with its note and then more text: one mark, at the start. */
  lemma OneListingMark(rest: string)
    requires rest != [] && rest[0] == '\n'
    requires NoPair(rest, ' ', 'h') && NoPair(rest, 'A', 'v') && NoPair(rest, 'T', 'h')
    ensures Usable(RENDERING) && Marks(RENDERING.agents + rest, RENDERING) == [Mark(0, Agents)]
  {
    RenderingIsUsable();
    HookStarts(); HeaderStarts();
    AgentsHaveNoPair(); AgentsHaveNoSkills();
    OneMark(rest, RENDERING);
  }

  lemma OneMark(rest: string, r: Formulas)
    requires Usable(r) && |r.hook| >= 2 && |r.agents| >= 2 && |r.skills| >= 2
    requires rest != [] && rest[0] != r.hook[1] && rest[0] != r.skills[1]
    requires NoPair(rest, r.hook[0], r.hook[1]) && NoPair(rest, r.agents[0], r.agents[1]) && NoPair(rest, r.skills[0], r.skills[1])
    requires NoPair(r.agents, r.hook[0], r.hook[1]) && NoPair(r.agents, r.skills[0], r.skills[1])
    ensures Marks(r.agents + rest, r) == [Mark(0, Agents)]
  {
    var text, n := r.agents + rest, |r.agents|;
    PairConcat(r.agents, rest, r.hook[0], r.hook[1]);
    PairConcat(r.agents, rest, r.skills[0], r.skills[1]);
    NoMatches(text, r.hook, 0);
    NoMatches(text, r.skills, 0);
    assert text[0..n] == r.agents && Occurs(text, r.agents, 0);
    NoLaterMatch(r.agents, rest, r.agents);
    NothingMatches(text, r.agents, n);
    assert Matches(text, r.agents, 0) == [0];
    assert HeaderMarks(text, [0], Agents) == [Mark(0, Agents)] by { assert [0][..0] == []; }
    assert Sorted([Mark(0, Agents)]) == [Mark(0, Agents)] by { assert [Mark(0, Agents)][..0] == []; }
  }

  lemma NoLaterMatch(front: string, rest: string, needle: string)
    requires |needle| >= 2 && NoPair(rest, needle[0], needle[1])
    ensures forall at :: at >= |front| ==> !Occurs(front + rest, needle, at)
  {
    var text := front + rest;
    forall at: nat
      ensures Occurs(text, needle, at) ==> text[at] == needle[0] && text[at + 1] == needle[1]
    {
      if Occurs(text, needle, at) { OccursPair(text, needle, at); }
    }
    assert forall k :: 0 <= k < |rest| ==> text[|front| + k] == rest[k];
  }

  lemma {:induction false} NothingMatches(text: string, needle: string, from: nat)
    requires needle != [] && forall at :: at >= from ==> !Occurs(text, needle, at)
    ensures Matches(text, needle, from) == []
    decreases |text| - from
  {
    if from + |needle| <= |text| { NothingMatches(text, needle, from + 1); }
  }

  lemma NoMatches(text: string, needle: string, from: nat)
    requires |needle| >= 2 && NoPair(text, needle[0], needle[1])
    ensures Matches(text, needle, from) == []
  {
    NoMatchWithoutPair(text, needle);
    NothingMatches(text, needle, from);
  }

  /** Without the condition the inversion fails: one full stop after the note is dropped. */
  lemma TextAfterNoteIsLost() returns (text: string)
    ensures Usable(RENDERING) && Parsed(text, RENDERING).Some?
    ensures Message(Parsed(text, RENDERING).value, RENDERING) != text
  {
    var rest := BREAK + RENDERING.note + ".";
    NoteStarts();
    NoteHasNoHook(); NoteHasNoAgents(); NoteHasNoSkills();
    TailHasNoPair(RENDERING.note, ' ', 'h');
    TailHasNoPair(RENDERING.note, 'A', 'v');
    TailHasNoPair(RENDERING.note, 'T', 'h');
    OneListingMark(rest);
    text := RENDERING.agents + rest;
    ListingLoses(text, rest, RENDERING);
  }

  lemma TailHasNoPair(note: string, c: char, d: char)
    requires NoPair(note, c, d) && note != [] && note[0] != d && c != '\n' && d != '.' && d != '\n'
    ensures NoPair(BREAK + note + ".", c, d)
  {
    PairConcat(BREAK, note, c, d);
    PairConcat(BREAK + note, ".", c, d);
  }

  lemma ListingLoses(text: string, rest: string, r: Formulas)
    requires Usable(r) && text == r.agents + rest && rest == BREAK + r.note + "."
    requires r.note != [] && r.note[0] != '\n' && Marks(text, r) == [Mark(0, Agents)]
    ensures Parsed(text, r).Some? && Message(Parsed(text, r).value, r) != text
  {
    var marks, needle := Marks(text, r), BREAK + r.note;
    MarksDivide(text, r);
    assert SegmentAt(text, marks, 0) == text && r.agents <= text && text[|r.agents|..] == rest;
    assert AttachedUpTo(text, marks, 1, r).Some? by { assert AttachedUpTo(text, marks, 0, r).Some?; }
    LastFinds(rest, needle, |rest|);
    assert rest[0..|needle|] == needle && Occurs(rest, needle, 0);
    assert rest[1..1 + |needle|][1] == r.note[0] && needle[1] == '\n';
    assert Lost(Agents, text, r) == rest[|needle|..] == ".";
    assert !LosesNothing(text, marks, 1, r);
    RendersBackIff(text, r);
  }

  // ----- every mark is found

  /** The two characters occur one after the other at the very start, and nowhere else. */
  predicate PairAtStart(s: string, c: char, d: char) {
    |s| >= 2 && s[0] == c && s[1] == d && forall k :: 1 <= k < |s| - 1 && s[k] == c ==> s[k + 1] != d
  }

  /** A needle that cannot overlap itself. */
  predicate StandsAlone(needle: string) {
    |needle| >= 2 && PairAtStart(needle, needle[0], needle[1]) && needle[|needle| - 1] != needle[0]
  }

  lemma OccursStarts(text: string, needle: string, at: nat)
    requires |needle| >= 2
    ensures Occurs(text, needle, at) ==> text[at] == needle[0] && text[at + 1] == needle[1]
  {
    if Occurs(text, needle, at) { OccursPair(text, needle, at); }
  }

  lemma NoOverlap(text: string, needle: string, from: nat, at: nat)
    requires StandsAlone(needle) && Occurs(text, needle, from) && from < at < from + |needle|
    ensures !Occurs(text, needle, at)
  {
    OccursStarts(text, needle, at);
    var k := at - from;
    assert forall i :: 0 <= i < |needle| ==> needle[i] == text[from..from + |needle|][i] == text[from + i];
    assert text[at] == needle[k] && (k < |needle| - 1 ==> text[at + 1] == needle[k + 1]);
  }

  lemma {:induction false} MatchesAreAll(text: string, needle: string, from: nat)
    requires StandsAlone(needle)
    ensures forall at :: at >= from && Occurs(text, needle, at) ==> at in Matches(text, needle, from)
    decreases |text| - from
  {
    if from + |needle| <= |text| {
      if Occurs(text, needle, from) {
        MatchesAreAll(text, needle, from + |needle|);
        forall at | from < at < from + |needle|
          ensures !Occurs(text, needle, at)
        {
          NoOverlap(text, needle, from, at);
        }
      } else {
        MatchesAreAll(text, needle, from + 1);
      }
    }
  }

  lemma {:induction false} HeaderMarksExact(text: string, matches: seq<nat>, kind: Kind)
    ensures forall m :: m in HeaderMarks(text, matches, kind) <==> m.kind == kind && m.pos in matches && StartsParagraph(text, m.pos)
  {
    if matches != [] {
      var n := |matches| - 1;
      HeaderMarksExact(text, matches[..n], kind);
      assert matches == matches[..n] + [matches[n]];
    }
  }

  /** The line a matched hook formula marks. */
  predicate HookLine(text: string, p: nat, at: nat) {
    at <= |text| && LineStart(text, at) == p && ValidName(text[p..at])
  }

  /**
   * The needle stands here and is counted from the left: an occurrence that overlaps a
   * counted one in its last character is not.
   */
  predicate Counted(text: string, needle: string, from: nat, at: nat)
    requires |needle| >= 2
    decreases at
  {
    && from <= at && Occurs(text, needle, at)
    && (at - from < |needle| - 1 || !Counted(text, needle, from, at - (|needle| - 1)))
  }

  /** A needle that overlaps itself in its first and last character only. */
  predicate OverlapsAtEnds(needle: string) {
    |needle| >= 2 && forall k :: 1 <= k < |needle| - 1 && needle[k] == needle[0] ==> needle[k + 1] != needle[1]
  }

  lemma NoInnerOverlap(text: string, needle: string, from: nat, at: nat)
    requires OverlapsAtEnds(needle) && Occurs(text, needle, from) && from < at < from + |needle| - 1
    ensures !Occurs(text, needle, at)
  {
    OccursStarts(text, needle, at);
    var k := at - from;
    assert forall i :: 0 <= i < |needle| ==> needle[i] == text[from..from + |needle|][i] == text[from + i];
    assert text[at] == needle[k] && text[at + 1] == needle[k + 1];
  }

  /** Counting may begin again behind a counted occurrence. */
  lemma {:induction false} CountAfterMatch(text: string, needle: string, from: nat, at: nat)
    requires OverlapsAtEnds(needle) && Occurs(text, needle, from) && at >= from + |needle|
    ensures Counted(text, needle, from, at) <==> Counted(text, needle, from + |needle|, at)
    decreases at
  {
    var back := at - (|needle| - 1);
    if back >= from + |needle| {
      CountAfterMatch(text, needle, from, back);
    } else if from < back < from + |needle| - 1 {
      NoInnerOverlap(text, needle, from, back);
    } else if back == from + |needle| - 1 {
      assert Counted(text, needle, from, from);
    }
  }

  /** Counting may begin one place later where the needle does not stand. */
  lemma {:induction false} CountAfterGap(text: string, needle: string, from: nat, at: nat)
    requires |needle| >= 2 && !Occurs(text, needle, from) && at > from
    ensures Counted(text, needle, from, at) <==> Counted(text, needle, from + 1, at)
    decreases at
  {
    var back := at - (|needle| - 1);
    if back > from { CountAfterGap(text, needle, from, back); }
  }

  /** The matches are exactly the counted occurrences. */
  lemma {:induction false} MatchesAreCounted(text: string, needle: string, from: nat, at: nat)
    requires OverlapsAtEnds(needle) && at >= from
    ensures at in Matches(text, needle, from) <==> Counted(text, needle, from, at)
    decreases |text| - from
  {
    if from + |needle| <= |text| {
      if Occurs(text, needle, from) {
        MatchesOccur(text, needle, from + |needle|);
        if at >= from + |needle| {
          MatchesAreCounted(text, needle, from + |needle|, at);
          CountAfterMatch(text, needle, from, at);
        } else if at == from + |needle| - 1 {
          assert Counted(text, needle, from, from);
        } else if at > from {
          NoInnerOverlap(text, needle, from, at);
        }
      } else {
        MatchesOccur(text, needle, from + 1);
        if at > from {
          MatchesAreCounted(text, needle, from + 1, at);
          CountAfterGap(text, needle, from, at);
        }
      }
    }
  }

  /** A short line that begins at `p` and is followed by a counted hook formula. */
  ghost predicate HookHeads(text: string, hook: string, p: nat)
    requires |hook| >= 2
  {
    exists at :: Counted(text, hook, 0, at) && HookLine(text, p, at)
  }

  lemma HookedIffHeads(text: string, hook: string, p: nat)
    requires OverlapsAtEnds(hook)
    ensures Hooked(text, Matches(text, hook, 0), p) <==> HookHeads(text, hook, p)
  {
    var matches := Matches(text, hook, 0);
    if Hooked(text, matches, p) {
      var i :| 0 <= i < |matches| && HookLine(text, p, matches[i]);
      MatchesAreCounted(text, hook, 0, matches[i]);
    }
    if HookHeads(text, hook, p) {
      var at: nat :| Counted(text, hook, 0, at) && HookLine(text, p, at);
      MatchesAreCounted(text, hook, 0, at);
      var i :| 0 <= i < |matches| && matches[i] == at;
      assert HookLine(text, p, matches[i]);
    }
  }

  predicate Hooked(text: string, matches: seq<nat>, p: nat) {
    exists i :: 0 <= i < |matches| && HookLine(text, p, matches[i])
  }

  lemma HookedOneMore(text: string, matches: seq<nat>, p: nat)
    requires matches != []
    ensures Hooked(text, matches, p) <==> Hooked(text, matches[..|matches| - 1], p) || HookLine(text, p, matches[|matches| - 1])
  {
    var front := matches[..|matches| - 1];
    if Hooked(text, front, p) {
      var i :| 0 <= i < |front| && HookLine(text, p, front[i]);
      assert HookLine(text, p, matches[i]);
    }
    if Hooked(text, matches, p) && !HookLine(text, p, matches[|matches| - 1]) {
      var i :| 0 <= i < |matches| && HookLine(text, p, matches[i]);
      assert HookLine(text, p, front[i]);
    }
  }

  lemma {:induction false} HookMarksExact(text: string, matches: seq<nat>, m: Mark)
    ensures m in HookMarks(text, matches) <==> m.kind.Hook? && Hooked(text, matches, m.pos)
  {
    if matches != [] {
      HookMarksExact(text, matches[..|matches| - 1], m);
      HookedOneMore(text, matches, m.pos);
    }
  }

  lemma MarksAreThose(text: string, r: Formulas, m: Mark)
    requires Usable(r)
    ensures m in Marks(text, r) <==>
            || m in HookMarks(text, Matches(text, r.hook, 0))
            || m in HeaderMarks(text, Matches(text, r.agents, 0), Agents)
            || m in HeaderMarks(text, Matches(text, r.skills, 0), Skills)
  {
    SortedIsExact(HookMarks(text, Matches(text, r.hook, 0)) + HeaderMarks(text, Matches(text, r.agents, 0), Agents)
                  + HeaderMarks(text, Matches(text, r.skills, 0), Skills));
  }

  lemma HeaderMatchesExact(text: string, needle: string, p: nat)
    requires StandsAlone(needle)
    ensures p in Matches(text, needle, 0) <==> Occurs(text, needle, p)
  {
    MatchesOccur(text, needle, 0);
    MatchesAreAll(text, needle, 0);
  }

  /**
   * The marks are exactly the listings and skill lists that begin a paragraph, and the
   * lines that a short hook name begins.
   */
  lemma MarksAreExact(text: string, m: Mark)
    ensures Usable(RENDERING) && |RENDERING.hook| >= 2
    ensures m in Marks(text, RENDERING) <==>
            match m.kind
            case Agents => Occurs(text, RENDERING.agents, m.pos) && StartsParagraph(text, m.pos)
            case Skills => Occurs(text, RENDERING.skills, m.pos) && StartsParagraph(text, m.pos)
            case Hook => HookHeads(text, RENDERING.hook, m.pos)
  {
    RenderingIsUsable();
    AgentsStandAlone();
    SkillsStandAlone();
    HookOverlaps();
    MarksOfFormulas(text, RENDERING, m);
  }

  lemma MarksOfFormulas(text: string, r: Formulas, m: Mark)
    requires Usable(r) && StandsAlone(r.agents) && StandsAlone(r.skills) && OverlapsAtEnds(r.hook)
    ensures m in Marks(text, r) <==>
            match m.kind
            case Agents => Occurs(text, r.agents, m.pos) && StartsParagraph(text, m.pos)
            case Skills => Occurs(text, r.skills, m.pos) && StartsParagraph(text, m.pos)
            case Hook => HookHeads(text, r.hook, m.pos)
  {
    HookedIffHeads(text, r.hook, m.pos);
    MarksAreThose(text, r, m);
    HookMarksExact(text, Matches(text, r.hook, 0), m);
    HeaderMarksExact(text, Matches(text, r.agents, 0), Agents);
    HeaderMarksExact(text, Matches(text, r.skills, 0), Skills);
    HeaderMatchesExact(text, r.agents, m.pos);
    HeaderMatchesExact(text, r.skills, m.pos);
  }

  lemma StartConcat(a: string, b: string, c: char, d: char)
    requires PairAtStart(a, c, d) && NoPair(b, c, d) && b != [] && b[0] != d
    ensures PairAtStart(a + b, c, d)
  {
  }

  lemma AgentsStandAlone()
    ensures StandsAlone(RENDERING.agents)
  {
    HeadersEnd();
    HeaderStarts();
    StartConcat("Available agent types for ", "the Agent tool:\n", 'A', 'v');
  }

  lemma SkillsStandAlone()
    ensures StandsAlone(RENDERING.skills)
  {
    HeadersEnd();
    HeaderStarts();
    SkillsStart();
    StartConcat("The following skills are available ", "for use with the Skill tool:\n\n", 'T', 'h');
  }

  lemma HookOverlaps()
    ensures OverlapsAtEnds(RENDERING.hook)
  {
  }

  lemma SkillsStart()
    ensures PairAtStart("The following skills are available ", 'T', 'h')
  {
  }

  // ----- the parser itself

  method FindMarks(text: string, r: Formulas) returns (marks: seq<Mark>)
    requires Usable(r)
    ensures marks == Marks(text, r)
  {
    marks := [];
    var hooks, agents, skills := Matches(text, r.hook, 0), Matches(text, r.agents, 0), Matches(text, r.skills, 0);
    for i := 0 to |hooks|
      invariant marks == HookMarks(text, hooks[..i])
    {
      assert hooks[..i + 1][..i] == hooks[..i];
      if hooks[i] <= |text| {
        var start := LineStart(text, hooks[i]);
        if ValidName(text[start..hooks[i]]) { marks := marks + [Mark(start, Hook)]; }
      }
    }
    assert hooks[..|hooks|] == hooks;
    for i := 0 to |agents|
      invariant marks == HookMarks(text, hooks) + HeaderMarks(text, agents[..i], Agents)
    {
      assert agents[..i + 1][..i] == agents[..i];
      if StartsParagraph(text, agents[i]) { marks := marks + [Mark(agents[i], Agents)]; }
    }
    assert agents[..|agents|] == agents;
    for i := 0 to |skills|
      invariant marks == HookMarks(text, hooks) + HeaderMarks(text, agents, Agents) + HeaderMarks(text, skills[..i], Skills)
    {
      assert skills[..i + 1][..i] == skills[..i];
      if StartsParagraph(text, skills[i]) { marks := marks + [Mark(skills[i], Skills)]; }
    }
    assert skills[..|skills|] == skills;
    marks := Sorted(marks);
  }

  /** `parse_system_blob`, with what its result promises. */
  method ParseSystemBlob(text: string) returns (r: Option<seq<Attachment>>)
    ensures Usable(RENDERING) && r == Parsed(text, RENDERING)
    ensures r.Some? ==> Divides(text, Marks(text, RENDERING))
    ensures r.Some? ==> (Message(r.value, RENDERING) == text <==>
                         LosesNothing(text, Marks(text, RENDERING), |Marks(text, RENDERING)|, RENDERING))
  {
    RenderingIsUsable();
    r := ParseWith(text, RENDERING);
    if r.Some? { RendersBackIff(text, RENDERING); }
  }

  method ParseWith(text: string, r: Formulas) returns (result: Option<seq<Attachment>>)
    requires Usable(r)
    ensures result == Parsed(text, r)
  {
    var marks := FindMarks(text, r);
    if marks == [] || marks[0].pos != 0 { return None; }
    MarksDivide(text, r);
    result := AttachSegments(text, marks, r);
  }

  method AttachSegments(text: string, marks: seq<Mark>, r: Formulas) returns (result: Option<seq<Attachment>>)
    requires Divides(text, marks)
    ensures result == AttachedUpTo(text, marks, |marks|, r)
  {
    var out := [];
    for i := 0 to |marks|
      invariant AttachedUpTo(text, marks, i, r) == Some(out)
    {
      SegmentsInOrder(text, marks, i);
      var seg := text[marks[i].pos..SegmentEnd(text, marks, i)];
      var attached := Attached(marks[i].kind, seg, r);
      assert AttachedUpTo(text, marks, i + 1, r) == if attached.Some? then Some(out + [attached.value]) else None by {
        assert seg == SegmentAt(text, marks, i);
      }
      if attached.None? {
        NoneStays(text, marks, i + 1, r);
        return None;
      }
      out := out + [attached.value];
    }
    return Some(out);
  }

  lemma {:induction false} NoneStays(text: string, marks: seq<Mark>, n: nat, r: Formulas)
    requires Divides(text, marks) && n <= |marks| && AttachedUpTo(text, marks, n, r).None?
    ensures AttachedUpTo(text, marks, |marks|, r).None?
    decreases |marks| - n
  {
    if n < |marks| { NoneStays(text, marks, n + 1, r); }
  }
}
