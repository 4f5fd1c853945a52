/**
 * `run_segment`: record by record reading of a capture segment. A character stands for
 * one byte. Envelope values are objects: braces nest, and inside strings braces and
 * escaped quotes do not count, so a value shows where it ends.
 */
module Segments {
  import opened Wrappers

  /** ASCII whitespace, which the reader trims. */
  predicate Space(c: char) {
    c in {' ', '\t', '\n', '\r', '\U{C}'}
  }

  /** JSON whitespace, which may stand between values. */
  predicate JsonSpace(c: char) {
    c in {' ', '\t', '\n', '\r'}
  }

  predicate AllSpace(s: string) {
    s == [] || (Space(s[0]) && AllSpace(s[1..]))
  }

  /** The characters by code: tab, line feed, form feed, carriage return and space; JSON leaves out the form feed. */
  lemma SpacesByCode(c: char)
    ensures Space(c) <==> c as int in {9, 10, 12, 13, 32}
    ensures JsonSpace(c) <==> c as int in {9, 10, 13, 32}
  {
  }

  // ----- one value

  datatype Mode = Plain | InString | Escaped

  function Depth(c: char, depth: nat, mode: Mode): nat
    requires depth > 0
  {
    if mode.Plain? && c == '{' then depth + 1 else if mode.Plain? && c == '}' then depth - 1 else depth
  }

  function Next(c: char, mode: Mode): Mode {
    match mode
    case Plain => if c == '"' then InString else Plain
    case InString => if c == '"' then Plain else if c == '\\' then Escaped else InString
    case Escaped => InString
  }

  /** Where the open braces close, if they do. */
  function Closing(s: string, depth: nat, mode: Mode): Option<nat>
    requires depth > 0
  {
    if s == [] then None
    else if Depth(s[0], depth, mode) == 0 then Some(1)
    else match Closing(s[1..], Depth(s[0], depth, mode), Next(s[0], mode))
      case None => None
      case Some(n) => Some(n + 1)
  }

  /** The length of the complete value at the start of the text. */
  function ValueEnd(s: string): Option<nat> {
    if s == [] || s[0] != '{' then None
    else match Closing(s[1..], 1, Plain)
      case None => None
      case Some(n) => Some(n + 1)
  }

  predicate Complete(v: string) {
    ValueEnd(v) == Some(|v|)
  }

  /** A prefix closes exactly where the whole text does, if it reaches that far. */
  lemma {:induction false} ClosingOfPrefix(s: string, j: nat, depth: nat, mode: Mode)
    requires depth > 0 && j <= |s|
    ensures Closing(s, depth, mode).Some? ==> 0 < Closing(s, depth, mode).value <= |s|
    ensures Closing(s[..j], depth, mode) ==
            match Closing(s, depth, mode)
            case Some(n) => if n <= j then Some(n) else None
            case None => None
    decreases |s|
  {
    if s != [] && Depth(s[0], depth, mode) != 0 {
      var d, m := Depth(s[0], depth, mode), Next(s[0], mode);
      ClosingOfPrefix(s[1..], if j > 0 then j - 1 else 0, d, m);
      if j > 0 { assert s[..j][1..] == s[1..][..j - 1]; }
    }
  }

  lemma ValueEndOfPrefix(s: string, j: nat)
    requires j <= |s|
    ensures ValueEnd(s).Some? ==> 1 < ValueEnd(s).value <= |s|
    ensures ValueEnd(s[..j]) ==
            match ValueEnd(s)
            case Some(n) => if n <= j then Some(n) else None
            case None => None
  {
    if s != [] {
      ClosingOfPrefix(s[1..], if j > 0 then j - 1 else 0, 1, Plain);
      if j > 0 { assert s[..j][1..] == s[1..][..j - 1]; }
    }
  }

  // ----- one record

  /** Leading JSON whitespace. */
  function Lead(s: string): (n: nat)
    ensures n <= |s|
  {
    if s == [] || !JsonSpace(s[0]) then 0 else 1 + Lead(s[1..])
  }

  /** The complete values a stream over one record yields. */
  function Values(s: string): seq<string>
    decreases |s|
  {
    var t := s[Lead(s)..];
    match ValueEnd(t)
    case None => []
    case Some(n) => ValueEndOfPrefix(t, 0); [t[..n]] + Values(t[n..])
  }

  /** What the stream leaves behind when it fails; empty when it ends. */
  function Residue(s: string): string
    decreases |s|
  {
    var t := s[Lead(s)..];
    match ValueEnd(t)
    case None => if t == [] then [] else s
    case Some(n) => ValueEndOfPrefix(t, 0); Residue(t[n..])
  }

  function TrimLeft(s: string): string {
    if s != [] && Space(s[0]) then TrimLeft(s[1..]) else s
  }

  function TrimRight(s: string): string {
    if s != [] && Space(s[|s| - 1]) then TrimRight(s[..|s| - 1]) else s
  }

  function Trimmed(s: string): string {
    TrimRight(TrimLeft(s))
  }

  predicate Malformed(record: string) {
    !AllSpace(Residue(record))
  }

  // ----- a segment

  datatype Kind = Sealed | LiveRaw

  /** Values visited, and the number of the record that was refused, if any. */
  datatype Outcome = Outcome(visited: seq<string>, error: Option<nat>)

  function FirstNewline(s: string): (n: nat)
    ensures n <= |s|
  {
    if s == [] || s[0] == '\n' then 0 else 1 + FirstNewline(s[1..])
  }

  /** Reading from the start of record `no + 1`. */
  function Read(s: string, kind: Kind, no: nat): Outcome
    decreases |s|
  {
    if s == [] then Outcome([], None)
    else
      var n := FirstNewline(s);
      AfterRecord(Trimmed(s[..n]), n < |s|, kind, no, if n < |s| then Read(s[n + 1..], kind, no + 1) else Outcome([], None))
  }

  /** What follows the first record. */
  function RestOf(s: string, kind: Kind, no: nat): Outcome {
    if FirstNewline(s) < |s| then Read(s[FirstNewline(s) + 1..], kind, no + 1) else Outcome([], None)
  }

  /** One record, given what reading on would yield. */
  function AfterRecord(record: string, terminated: bool, kind: Kind, no: nat, rest: Outcome): Outcome {
    if !Malformed(record) then Outcome(Values(record) + rest.visited, rest.error)
    else if !terminated && kind.LiveRaw? then Outcome(Values(record), None)
    else Outcome(Values(record), Some(no + 1))
  }

  lemma {:induction false} TrimBounds(s: string) returns (i: nat, j: nat)
    ensures i <= j <= |s| && Trimmed(s) == s[i..j]
    ensures (forall k :: 0 <= k < i || j <= k < |s| ==> Space(s[k]))
    ensures i < j ==> !Space(s[i]) && !Space(s[j - 1])
    decreases |s|
  {
    if s == [] {
      i, j := 0, 0;
    } else if Space(s[0]) {
      i, j := TrimBounds(s[1..]);
      assert s[1..][i..j] == s[i + 1..j + 1];
      assert forall k :: 1 <= k < |s| ==> s[k] == s[1..][k - 1];
      i, j := i + 1, j + 1;
    } else {
      i := 0;
      j := TrimRightBound(s);
    }
  }

  lemma {:induction false} TrimRightBound(s: string) returns (j: nat)
    ensures j <= |s| && TrimRight(s) == s[..j]
    ensures (forall k :: j <= k < |s| ==> Space(s[k])) && (j > 0 ==> !Space(s[j - 1]))
  {
    if s != [] && Space(s[|s| - 1]) {
      j := TrimRightBound(s[..|s| - 1]);
      assert s[..|s| - 1][..j] == s[..j];
    } else {
      j := |s|;
      assert s[..j] == s;
    }
  }

  // ----- cutting a live file

  lemma {:induction false} LeadOfPrefix(s: string, j: nat)
    requires j <= |s|
    ensures Lead(s[..j]) == if Lead(s) <= j then Lead(s) else j
  {
    if j > 0 && JsonSpace(s[0]) {
      LeadOfPrefix(s[1..], j - 1);
      assert s[..j][1..] == s[1..][..j - 1];
    }
  }

  /** One turn of the stream. */
  lemma StreamStep(t: string)
    ensures var u := t[Lead(t)..];
            match ValueEnd(u)
            case Some(n) => 0 < n <= |u| && Values(t) == [u[..n]] + Values(u[n..]) && Residue(t) == Residue(u[n..])
            case None => Values(t) == [] && Residue(t) == if u == [] then [] else t
  {
    ValueEndOfPrefix(t[Lead(t)..], 0);
  }

  lemma CutStream(s: string, j: nat)
    requires j <= |s|
    ensures s[..j][Lead(s[..j])..] == if j <= Lead(s) then [] else s[Lead(s)..][..j - Lead(s)]
  {
    LeadOfPrefix(s, j);
  }

  lemma CutValue(u: string, m: nat)
    requires m <= |u| && ValueEnd(u[..m]).Some?
    ensures ValueEnd(u) == ValueEnd(u[..m])
    ensures var n := ValueEnd(u).value;
            0 < n <= m && u[..m][..n] == u[..n] && u[..m][n..] == u[n..][..m - n]
  {
    ValueEndOfPrefix(u, m);
  }

  lemma PrefixInFront(v: string, x: seq<string>, y: seq<string>)
    requires x <= y
    ensures [v] + x <= [v] + y
  {
  }

  lemma ValuesStepOfPrefix(s: string, j: nat)
    requires j <= |s|
    requires var u := s[Lead(s)..];
             match ValueEnd(u)
             case Some(n) => n <= |u| && (Lead(s) + n <= j ==> Values(u[n..][..j - Lead(s) - n]) <= Values(u[n..]))
             case None => true
    ensures Values(s[..j]) <= Values(s)
  {
    CutStream(s, j);
    StreamStep(s[..j]);
    StreamStep(s);
    var u := s[Lead(s)..];
    if j > Lead(s) && ValueEnd(u[..j - Lead(s)]).Some? {
      CutValue(u, j - Lead(s));
      var n := ValueEnd(u).value;
      PrefixInFront(u[..n], Values(u[n..][..j - Lead(s) - n]), Values(u[n..]));
    }
  }

  lemma {:induction false} ValuesOfPrefix(s: string, j: nat)
    requires j <= |s|
    ensures Values(s[..j]) <= Values(s)
    decreases |s|
  {
    var u := s[Lead(s)..];
    ValueEndOfPrefix(u, 0);
    if ValueEnd(u).Some? && Lead(s) + ValueEnd(u).value <= j {
      ValuesOfPrefix(u[ValueEnd(u).value..], j - Lead(s) - ValueEnd(u).value);
    }
    ValuesStepOfPrefix(s, j);
  }

  lemma TrimmedPrefix(s: string, j: nat)
    requires j <= |s|
    ensures Trimmed(s[..j]) <= Trimmed(s)
  {
    var i, e := TrimBounds(s);
    var i', e' := TrimBounds(s[..j]);
    if i' < e' {
      assert i == i' && e' <= e;
      assert s[..j][i'..e'] == s[i..e][..e' - i];
    }
  }

  lemma {:induction false} FirstNewlineOfPrefix(s: string, j: nat)
    requires j <= |s|
    ensures FirstNewline(s[..j]) == if FirstNewline(s) <= j then FirstNewline(s) else j
  {
    if j > 0 && s[0] != '\n' {
      FirstNewlineOfPrefix(s[1..], j - 1);
      assert s[..j][1..] == s[1..][..j - 1];
    }
  }

  lemma {:induction false} FirstNewlineIsFirst(s: string)
    ensures forall i :: 0 <= i < FirstNewline(s) ==> s[i] != '\n'
    ensures FirstNewline(s) < |s| ==> s[FirstNewline(s)] == '\n'
  {
    if s != [] && s[0] != '\n' {
      FirstNewlineIsFirst(s[1..]);
      assert forall i :: 1 <= i < |s| ==> s[i] == s[1..][i - 1];
    }
  }

  /** One record on its own, cut anywhere. */
  lemma CutRecord(s: string, j: nat, no: nat)
    requires 0 < j <= |s| && FirstNewline(s) >= j
    ensures Read(s[..j], LiveRaw, no) == Outcome(Values(Trimmed(s[..j])), None)
    ensures Values(Trimmed(s[..j])) <= Values(Trimmed(s[..FirstNewline(s)]))
  {
    var n, cut := FirstNewline(s), s[..j];
    FirstNewlineOfPrefix(s, j);
    assert cut[..j] == cut == s[..n][..j];
    TrimmedPrefix(s[..n], j);
    var whole, part := Trimmed(s[..n]), Trimmed(cut);
    assert part == whole[..|part|];
    ValuesOfPrefix(whole, |part|);
    assert Values(part) + [] == Values(part);
  }

  lemma ReadStartsWithRecord(s: string, kind: Kind, no: nat)
    requires s != []
    ensures Values(Trimmed(s[..FirstNewline(s)])) <= Read(s, kind, no).visited
  {
  }

  lemma SliceOfSlice(s: string, n: nat, j: nat)
    requires n < j <= |s|
    ensures s[..j][..n] == s[..n] && s[..j][n + 1..] == s[n + 1..][..j - n - 1]
  {
  }

  lemma CutSlices(s: string, j: nat)
    requires j <= |s| && FirstNewline(s) < j
    ensures FirstNewline(s[..j]) == FirstNewline(s)
    ensures var n := FirstNewline(s);
            s[..j][..n] == s[..n] && s[..j][n + 1..] == s[n + 1..][..j - n - 1]
  {
    FirstNewlineOfPrefix(s, j);
    SliceOfSlice(s, FirstNewline(s), j);
  }

  lemma ReadTerminated(s: string, kind: Kind, no: nat)
    requires FirstNewline(s) < |s|
    ensures var n := FirstNewline(s);
            Read(s, kind, no) == AfterRecord(Trimmed(s[..n]), true, kind, no, Read(s[n + 1..], kind, no + 1))
  {
  }

  lemma CutReads(s: string, j: nat, no: nat)
    requires j <= |s| && FirstNewline(s) < j
    ensures var n := FirstNewline(s);
            Read(s[..j], LiveRaw, no) == AfterRecord(Trimmed(s[..n]), true, LiveRaw, no, Read(s[n + 1..][..j - n - 1], LiveRaw, no + 1))
  {
    CutSlices(s, j);
    ReadTerminated(s[..j], LiveRaw, no);
  }

  /** No error, and nothing that the other reading does not also begin with. */
  predicate Begins(part: Outcome, whole: Outcome) {
    part.error == None && part.visited <= whole.visited
  }

  lemma CutAfterRecord(s: string, j: nat, no: nat, part: Outcome, whole: Outcome)
    requires j <= |s| && FirstNewline(s) < j && Read(s, LiveRaw, no).error == None
    requires part == Read(s[FirstNewline(s) + 1..][..j - FirstNewline(s) - 1], LiveRaw, no + 1)
    requires whole == Read(s[FirstNewline(s) + 1..], LiveRaw, no + 1)
    requires Begins(part, whole)
    ensures Begins(Read(s[..j], LiveRaw, no), Read(s, LiveRaw, no))
  {
    var record := Trimmed(s[..FirstNewline(s)]);
    CutReads(s, j, no);
    ReadTerminated(s, LiveRaw, no);
    RecordKeepsPrefix(record, no, part, whole);
  }

  lemma RestReads(s: string, no: nat)
    requires FirstNewline(s) < |s| && Read(s, LiveRaw, no).error == None
    ensures Read(s[FirstNewline(s) + 1..], LiveRaw, no + 1).error == None
  {
  }

  lemma CutInRecord(s: string, j: nat, no: nat)
    requires 0 < j <= |s| && FirstNewline(s) >= j
    ensures Begins(Read(s[..j], LiveRaw, no), Read(s, LiveRaw, no))
  {
    CutRecord(s, j, no);
    ReadStartsWithRecord(s, LiveRaw, no);
  }

  lemma CutInRest(s: string, j: nat, no: nat, rest: string, m: nat)
    requires j <= |s| && FirstNewline(s) < j && Read(s, LiveRaw, no).error == None
    requires rest == s[FirstNewline(s) + 1..] && m == j - FirstNewline(s) - 1
    requires Begins(Read(rest[..m], LiveRaw, no + 1), Read(rest, LiveRaw, no + 1))
    ensures Begins(Read(s[..j], LiveRaw, no), Read(s, LiveRaw, no))
  {
    CutAfterRecord(s, j, no, Read(rest[..m], LiveRaw, no + 1), Read(rest, LiveRaw, no + 1));
  }

  /**
   * A live file cut after any number of bytes still reads without error, and yields a
   * prefix of what the whole file yields, also where a record holds several values.
   */
  lemma {:induction false} CutReadsPrefix(s: string, j: nat, no: nat)
    requires j <= |s| && Read(s, LiveRaw, no).error == None
    ensures Begins(Read(s[..j], LiveRaw, no), Read(s, LiveRaw, no))
    decreases |s|
  {
    var n := FirstNewline(s);
    if j == 0 {
      assert Read(s[..j], LiveRaw, no) == Outcome([], None);
    } else if n < j {
      var rest, m := s[n + 1..], j - n - 1;
      RestReads(s, no);
      CutReadsPrefix(rest, m, no + 1);
      CutInRest(s, j, no, rest, m);
    } else {
      CutInRecord(s, j, no);
    }
  }

  lemma RecordKeepsPrefix(record: string, no: nat, part: Outcome, whole: Outcome)
    requires Begins(part, whole) && AfterRecord(record, true, LiveRaw, no, whole).error == None
    ensures Begins(AfterRecord(record, true, LiveRaw, no, part), AfterRecord(record, true, LiveRaw, no, whole))
  {
    PrefixAfter(Values(record), part.visited, whole.visited);
  }

  lemma PrefixAfter(values: seq<string>, x: seq<string>, y: seq<string>)
    requires x <= y
    ensures values + x <= values + y
  {
  }

  // ----- generations one after another

  predicate Terminated(s: string) {
    s == [] || s[|s| - 1] == '\n'
  }

  function Records(s: string): nat {
    if FirstNewline(s) == |s| then 0 else 1 + Records(s[FirstNewline(s) + 1..])
  }

  function Then(first: Outcome, second: Outcome): Outcome {
    if first.error.Some? then first else Outcome(first.visited + second.visited, second.error)
  }

  lemma ConcatSlices(a: string, b: string)
    requires a != [] && Terminated(a)
    ensures FirstNewline(a) < |a| && FirstNewline(a + b) == FirstNewline(a)
    ensures var n := FirstNewline(a);
            (a + b)[..n] == a[..n] && (a + b)[n + 1..] == a[n + 1..] + b && Terminated(a[n + 1..])
  {
    FirstNewlineIsFirst(a);
    FirstNewlineOfPrefix(a + b, |a|);
    assert (a + b)[..|a|] == a;
  }

  lemma ConcatRecord(a: string, b: string, kind: Kind, no: nat, second: Outcome)
    requires a != [] && Terminated(a) && FirstNewline(a) < |a|
    requires var rest := a[FirstNewline(a) + 1..];
             Read(rest + b, kind, no + 1) == Then(Read(rest, Sealed, no + 1), second)
    ensures Read(a + b, kind, no) == Then(Read(a, Sealed, no), second)
  {
    ConcatSlices(a, b);
    ReadTerminated(a + b, kind, no);
    ReadTerminated(a, Sealed, no);
    RecordThen(Trimmed(a[..FirstNewline(a)]), kind, no, Read(a[FirstNewline(a) + 1..], Sealed, no + 1), second);
  }

  lemma RecordsSplit(a: string)
    requires FirstNewline(a) < |a|
    ensures Records(a) == 1 + Records(a[FirstNewline(a) + 1..])
  {
  }

  /** Reading newline-terminated text strictly and then the rest is reading both together. */
  lemma {:induction false} ReadConcat(a: string, b: string, kind: Kind, no: nat, from: nat)
    requires Terminated(a) && from == no + Records(a)
    ensures Read(a + b, kind, no) == Then(Read(a, Sealed, no), Read(b, kind, from))
    decreases |a|
  {
    if a == [] {
      assert a + b == b;
    } else {
      ConcatSlices(a, b);
      RecordsSplit(a);
      ReadConcat(a[FirstNewline(a) + 1..], b, kind, no + 1, from);
      ConcatRecord(a, b, kind, no, Read(b, kind, from));
    }
  }

  lemma RecordThen(record: string, kind: Kind, no: nat, first: Outcome, second: Outcome)
    ensures AfterRecord(record, true, kind, no, Then(first, second)) == Then(AfterRecord(record, true, Sealed, no, first), second)
  {
    assert Values(record) + (first.visited + second.visited) == Values(record) + first.visited + second.visited;
  }

  /** The record number only labels errors. */
  lemma {:induction false} NumberOnlyLabels(s: string, kind: Kind, no: nat, from: nat)
    ensures Read(s, kind, no).visited == Read(s, kind, from).visited
    ensures Read(s, kind, no).error.Some? <==> Read(s, kind, from).error.Some?
    decreases |s|
  {
    if s != [] && FirstNewline(s) < |s| {
      NumberOnlyLabels(s[FirstNewline(s) + 1..], kind, no + 1, from + 1);
    }
  }

  // ----- values and whitespace in front

  lemma {:induction false} ClosingEndsWithBrace(s: string, depth: nat, mode: Mode)
    requires depth > 0 && Closing(s, depth, mode).Some?
    ensures 0 < Closing(s, depth, mode).value <= |s| && s[Closing(s, depth, mode).value - 1] == '}'
  {
    ClosingOfPrefix(s, 0, depth, mode);
    if Depth(s[0], depth, mode) != 0 { ClosingEndsWithBrace(s[1..], Depth(s[0], depth, mode), Next(s[0], mode)); }
  }

  /** A complete value in front of anything is the first value of the stream. */
  lemma ValueInFront(v: string, x: string)
    requires Complete(v)
    ensures v != [] && v[0] == '{' && v[|v| - 1] == '}'
    ensures Values(v + x) == [v] + Values(x) && Residue(v + x) == Residue(x)
  {
    ValueEndOfPrefix(v, 0);
    ClosingEndsWithBrace(v[1..], 1, Plain);
    ValueEndOfPrefix(v + x, 0);
    ValueEndOfPrefix(v + x, |v|);
    assert (v + x)[..|v|] == v && (v + x)[|v|..] == x;
    assert Lead(v + x) == 0 && (v + x)[0..] == v + x;
  }

  lemma SpaceInFront(c: char, x: string)
    requires JsonSpace(c)
    ensures Values([c] + x) == Values(x) && (Malformed([c] + x) <==> Malformed(x))
    ensures Residue([c] + x) == [] <==> Residue(x) == []
  {
    var s := [c] + x;
    assert s[1..] == x && Lead(s) == 1 + Lead(x) && s[Lead(s)..] == x[Lead(x)..];
    assert AllSpace(s) == AllSpace(x);
  }

  lemma {:induction false} TrimRightInFront(v: string, x: string)
    requires v != [] && !Space(v[|v| - 1])
    ensures TrimRight(v + x) == v + TrimRight(x)
    decreases |x|
  {
    if x == [] {
      assert v + x == v && TrimRight(x) == x;
    } else if Space(x[|x| - 1]) {
      assert (v + x)[..|v + x| - 1] == v + x[..|x| - 1];
      TrimRightInFront(v, x[..|x| - 1]);
    }
  }

  lemma {:induction false} TrimRightAfterSpace(c: char, x: string)
    requires Space(c)
    ensures TrimRight([c] + x) == if TrimRight(x) == [] then [] else [c] + TrimRight(x)
    decreases |x|
  {
    var s := [c] + x;
    if x == [] {
      assert s[..0] == [] && TrimRight(s) == TrimRight(s[..0]);
    } else if Space(x[|x| - 1]) {
      assert s[..|s| - 1] == [c] + x[..|x| - 1];
      TrimRightAfterSpace(c, x[..|x| - 1]);
    }
  }

  predicate NoFormFeed(s: string) {
    forall i :: 0 <= i < |s| ==> s[i] != '\U{C}'
  }

  /** Without form feeds, trimming in front changes nothing for the stream. */
  lemma {:induction false} TrimLeftIsIdle(x: string)
    requires NoFormFeed(x)
    ensures Values(TrimRight(x)) == Values(Trimmed(x)) && (Malformed(TrimRight(x)) <==> Malformed(Trimmed(x)))
  {
    if x != [] && Space(x[0]) {
      assert x == [x[0]] + x[1..];
      TrimLeftIsIdle(x[1..]);
      TrimRightAfterSpace(x[0], x[1..]);
      if TrimRight(x[1..]) != [] { SpaceInFront(x[0], TrimRight(x[1..])); }
    }
  }

  lemma ReadRecord(s: string, kind: Kind, no: nat)
    ensures var n := FirstNewline(s);
            Read(s, kind, no) == AfterRecord(Trimmed(s[..n]), n < |s|, kind, no, RestOf(s, kind, no))
  {
    if s == [] { assert Values([]) == [] && Residue([]) == []; }
  }

  lemma {:induction false} NewlineAfter(v: string, t: string)
    requires '\n' !in v
    ensures FirstNewline(v + t) == |v| + FirstNewline(t)
  {
    if v == [] {
      assert v + t == t;
    } else {
      NewlineAfter(v[1..], t);
      assert (v + t)[1..] == v[1..] + t;
    }
  }

  lemma LineWithValueInFront(v: string, t: string)
    requires Whole(v)
    ensures var n := FirstNewline(t);
            && FirstNewline(v + t) == |v| + n
            && (v + t)[..|v| + n] == v + t[..n]
            && (n < |t| ==> (v + t)[|v| + n + 1..] == t[n + 1..])
  {
    NewlineAfter(v, t);
  }

  lemma RecordWithValueInFront(v: string, first: string)
    requires Complete(v) && NoFormFeed(first)
    ensures Values(Trimmed(v + first)) == [v] + Values(Trimmed(first))
    ensures Malformed(Trimmed(v + first)) <==> Malformed(Trimmed(first))
  {
    ValueInFront(v, TrimRight(first));
    assert TrimLeft(v + first) == v + first;
    TrimRightInFront(v, first);
    TrimLeftIsIdle(first);
  }

  lemma RestWithValueInFront(v: string, t: string, kind: Kind, no: nat)
    requires Whole(v)
    ensures RestOf(v + t, kind, no) == RestOf(t, kind, no)
    ensures FirstNewline(v + t) < |v + t| <==> FirstNewline(t) < |t|
  {
    LineWithValueInFront(v, t);
  }

  /** A whole value in front is one more value visited. */
  lemma ReadValueInFront(v: string, t: string, kind: Kind, no: nat)
    requires Whole(v) && NoFormFeed(t)
    ensures Read(v + t, kind, no) == Outcome([v] + Read(t, kind, no).visited, Read(t, kind, no).error)
  {
    var first := t[..FirstNewline(t)];
    LineWithValueInFront(v, t);
    RestWithValueInFront(v, t, kind, no);
    ReadRecord(v + t, kind, no);
    ReadRecord(t, kind, no);
    RecordWithValueInFront(v, first);
    AfterOneMore(v, Trimmed(v + first), Trimmed(first), FirstNewline(t) < |t|, kind, no, RestOf(t, kind, no));
  }

  lemma AfterOneMore(v: string, more: string, record: string, terminated: bool, kind: Kind, no: nat, rest: Outcome)
    requires Values(more) == [v] + Values(record) && (Malformed(more) <==> Malformed(record))
    ensures var r := AfterRecord(record, terminated, kind, no, rest);
            AfterRecord(more, terminated, kind, no, rest) == Outcome([v] + r.visited, r.error)
  {
    OneMoreInFront(v, Values(record), rest.visited);
  }

  lemma OneMoreInFront(v: string, values: seq<string>, rest: seq<string>)
    ensures [v] + values + rest == [v] + (values + rest)
  {
  }

  lemma ReadSpaceInFront(c: char, t: string, kind: Kind, no: nat)
    requires JsonSpace(c) && NoFormFeed(t)
    ensures Read([c] + t, kind, no) == Read(t, kind, if c == '\n' then no + 1 else no)
  {
    var s := [c] + t;
    assert s[1..] == t;
    ReadRecord(s, kind, no);
    if c == '\n' {
      assert s[..0] == [] && Values([]) == [] && Residue([]) == [];
      assert [] + Read(t, kind, no + 1).visited == Read(t, kind, no + 1).visited;
    } else {
      var n := FirstNewline(t);
      ReadRecord(t, kind, no);
      assert s[..n + 1] == [c] + t[..n] && ([c] + t[..n])[1..] == t[..n];
      assert n < |t| ==> s[n + 2..] == t[n + 1..];
    }
  }

  // ----- strict reading is complete reading

  predicate Whole(v: string) {
    Complete(v) && '\n' !in v
  }

  lemma {:induction false} ValuesAreWhole(s: string)
    requires '\n' !in s
    ensures forall v :: v in Values(s) ==> Whole(v)
    decreases |s|
  {
    var t := s[Lead(s)..];
    if ValueEnd(t).Some? {
      ValueEndOfPrefix(t, 0);
      ValueEndOfPrefix(t, ValueEnd(t).value);
      ValuesAreWhole(t[ValueEnd(t).value..]);
    }
  }

  /** Every visited value is complete and lies in one record. */
  lemma {:induction false} VisitedAreWhole(s: string, kind: Kind, no: nat)
    ensures forall v :: v in Read(s, kind, no).visited ==> Whole(v)
    decreases |s|
  {
    if s != [] {
      var n := FirstNewline(s);
      FirstNewlineIsFirst(s);
      var i, j := TrimBounds(s[..n]);
      ValuesAreWhole(Trimmed(s[..n]));
      if n < |s| { VisitedAreWhole(s[n + 1..], kind, no + 1); }
    }
  }

  lemma {:induction false} AllSpaceIsSpace(s: string)
    ensures AllSpace(s) <==> forall i :: 0 <= i < |s| ==> Space(s[i])
  {
    if s != [] {
      AllSpaceIsSpace(s[1..]);
      assert forall i :: 1 <= i < |s| ==> s[i] == s[1..][i - 1];
    }
  }

  /** A record is exactly these values in this order, with JSON whitespace around them. */
  ghost predicate Covers(record: string, values: seq<string>)
    decreases |record|
  {
    || (record == [] && values == [])
    || (record != [] && JsonSpace(record[0]) && Covers(record[1..], values))
    || (values != [] && values[0] != [] && values[0] <= record && Covers(record[|values[0]|..], values[1..]))
  }

  /** Line by line, whitespace at both ends of a line aside, the text is exactly these values in this order. */
  ghost predicate Holds(s: string, values: seq<string>)
    decreases |s|
  {
    if s == [] then values == []
    else
      var n := FirstNewline(s);
      exists k :: 0 <= k <= |values| && Covers(Trimmed(s[..n]), values[..k])
                  && if n < |s| then Holds(s[n + 1..], values[k..]) else k == |values|
  }

  lemma {:induction false} LeadIsCovered(s: string, values: seq<string>)
    requires Covers(s[Lead(s)..], values)
    ensures Covers(s, values)
  {
    if s != [] && JsonSpace(s[0]) {
      assert s[1..][Lead(s[1..])..] == s[Lead(s)..];
      LeadIsCovered(s[1..], values);
    } else {
      assert s[0..] == s;
    }
  }

  /** A stream that leaves nothing behind has yielded the whole record. */
  lemma {:induction false} StreamCovers(s: string)
    requires Residue(s) == []
    ensures Covers(s, Values(s))
    decreases |s|
  {
    var u := s[Lead(s)..];
    StreamStep(s);
    if ValueEnd(u).Some? {
      var n := ValueEnd(u).value;
      StreamCovers(u[n..]);
      var values := Values(s);
      assert values[0] == u[..n] && values[1..] == Values(u[n..]) && u[..n] <= u && u[n..] == u[|values[0]|..];
    }
    LeadIsCovered(s, Values(s));
  }

  /** A covered record yields its values and leaves nothing behind. */
  lemma {:induction false} CoveredStream(s: string, values: seq<string>)
    requires Covers(s, values) && forall v :: v in values ==> Complete(v)
    ensures Values(s) == values && Residue(s) == []
    decreases |s|
  {
    if s == [] && values == [] {
    } else if s != [] && JsonSpace(s[0]) && Covers(s[1..], values) {
      assert s == [s[0]] + s[1..];
      CoveredStream(s[1..], values);
      SpaceInFront(s[0], s[1..]);
    } else {
      var v := values[0];
      var t := s[|v|..];
      assert s == v + t && values == [v] + values[1..];
      CoveredStream(t, values[1..]);
      ValueInFront(v, t);
    }
  }

  predicate Suffix(a: string, s: string) {
    |a| <= |s| && a == s[|s| - |a|..]
  }

  lemma SuffixOfSuffix(a: string, s: string, k: nat)
    requires k <= |s| && Suffix(a, s[k..])
    ensures Suffix(a, s)
  {
  }

  lemma {:induction false} ResidueIsSuffix(s: string)
    ensures Suffix(Residue(s), s)
    decreases |s|
  {
    var k := Lead(s);
    StreamStep(s);
    if ValueEnd(s[k..]).Some? {
      var n := ValueEnd(s[k..]).value;
      ResidueIsSuffix(s[k..][n..]);
      SuffixOfSuffix(Residue(s), s[k..], n);
      SuffixOfSuffix(Residue(s), s, k);
    }
  }

  /** In a trimmed record whatever is left behind is malformed. */
  lemma TrimmedLeavesText(s: string)
    ensures Malformed(Trimmed(s)) <==> Residue(Trimmed(s)) != []
  {
    var i, j := TrimBounds(s);
    var r := Trimmed(s);
    ResidueIsSuffix(r);
    AllSpaceIsSpace(Residue(r));
    if Residue(r) != [] { assert Residue(r)[|Residue(r)| - 1] == r[|r| - 1] == s[j - 1]; }
  }

  /** A record is accepted with exactly the values it consists of. */
  lemma RecordIff(s: string, values: seq<string>)
    ensures !Malformed(Trimmed(s)) && Values(Trimmed(s)) == values <==>
            Covers(Trimmed(s), values) && forall v :: v in values ==> Complete(v)
  {
    TrimmedLeavesText(s);
    if Residue(Trimmed(s)) == [] {
      StreamCovers(Trimmed(s));
      ValuesAreComplete(Trimmed(s));
    }
    if Covers(Trimmed(s), values) && forall v :: v in values ==> Complete(v) {
      CoveredStream(Trimmed(s), values);
    }
  }

  lemma {:induction false} ValuesAreComplete(s: string)
    ensures forall v :: v in Values(s) ==> Complete(v)
    decreases |s|
  {
    var u := s[Lead(s)..];
    if ValueEnd(u).Some? {
      ValueEndOfPrefix(u, 0);
      ValueEndOfPrefix(u, ValueEnd(u).value);
      ValuesAreComplete(u[ValueEnd(u).value..]);
    }
  }

  lemma JoinedParts(x: seq<string>, y: seq<string>)
    ensures (x + y)[..|x|] == x && (x + y)[|x|..] == y
  {
  }

  /** A segment read without error under strict rules was read in full: it is its values, line by line. */
  lemma {:induction false} SealedReadIsComplete(s: string, no: nat)
    requires Read(s, Sealed, no).error == None
    ensures Holds(s, Read(s, Sealed, no).visited)
    decreases |s|
  {
    if s != [] {
      var n := FirstNewline(s);
      var values, rest := Values(Trimmed(s[..n])), RestOf(s, Sealed, no);
      RecordIff(s[..n], values);
      if n < |s| { SealedReadIsComplete(s[n + 1..], no + 1); }
      JoinedParts(values, rest.visited);
      assert Covers(Trimmed(s[..n]), (values + rest.visited)[..|values|]);
    }
  }

  lemma HeldRecord(s: string, values: seq<string>, k: nat, kind: Kind, no: nat)
    requires s != [] && k <= |values| && (forall v :: v in values ==> Complete(v))
    requires Covers(Trimmed(s[..FirstNewline(s)]), values[..k])
    requires RestOf(s, kind, no) == Outcome(values[k..], None)
    ensures Read(s, kind, no) == Outcome(values, None)
  {
    RecordIff(s[..FirstNewline(s)], values[..k]);
    ReadRecord(s, kind, no);
    assert values == values[..k] + values[k..];
  }

  /** Whatever consists of complete values is read as exactly these values, whatever the segment kind. */
  lemma {:induction false} HeldIsRead(s: string, values: seq<string>, kind: Kind, no: nat)
    requires Holds(s, values) && forall v :: v in values ==> Complete(v)
    ensures Read(s, kind, no) == Outcome(values, None)
    decreases |s|
  {
    if s != [] {
      var n := FirstNewline(s);
      var k :| 0 <= k <= |values| && Covers(Trimmed(s[..n]), values[..k])
               && if n < |s| then Holds(s[n + 1..], values[k..]) else k == |values|;
      if n < |s| { HeldIsRead(s[n + 1..], values[k..], kind, no + 1); }
      HeldRecord(s, values, k, kind, no);
    }
  }

  /** A sealed segment reads as these values exactly when it consists of them; anything else is rejected. */
  lemma SealedReadsIff(s: string, values: seq<string>)
    ensures Read(s, Sealed, 0) == Outcome(values, None) <==> Holds(s, values) && forall v :: v in values ==> Complete(v)
  {
    if Holds(s, values) && forall v :: v in values ==> Complete(v) { HeldIsRead(s, values, Sealed, 0); }
    if Read(s, Sealed, 0) == Outcome(values, None) {
      SealedReadIsComplete(s, 0);
      VisitedAreWhole(s, Sealed, 0);
    }
  }

  // ----- generations that do not end in a newline

  /** The last record is unterminated and holds text that is no value. */
  predicate TornTail(s: string)
    decreases |s|
  {
    s != [] && if FirstNewline(s) == |s| then Malformed(Trimmed(s)) else TornTail(s[FirstNewline(s) + 1..])
  }

  /** Same values, same success; the number of a refused record only labels it. */
  predicate Same(a: Outcome, b: Outcome) {
    a.visited == b.visited && (a.error.Some? <==> b.error.Some?)
  }

  /** Strict and tolerant outcome, for text with or without a torn tail. */
  predicate Differ(strict: Outcome, tolerant: Outcome, torn: bool) {
    strict.visited == tolerant.visited && (strict == tolerant <==> !(torn && tolerant.error == None))
  }

  lemma DifferAfterRecord(record: string, no: nat, strict: Outcome, tolerant: Outcome, torn: bool)
    requires Differ(strict, tolerant, torn)
    ensures Differ(AfterRecord(record, true, Sealed, no, strict), AfterRecord(record, true, LiveRaw, no, tolerant), torn)
  {
  }

  lemma DifferInRecord(s: string, no: nat, rest: string)
    requires FirstNewline(s) < |s| && rest == s[FirstNewline(s) + 1..]
    requires Differ(Read(rest, Sealed, no + 1), Read(rest, LiveRaw, no + 1), TornTail(rest))
    ensures Differ(Read(s, Sealed, no), Read(s, LiveRaw, no), TornTail(s))
  {
    ReadTerminated(s, Sealed, no);
    ReadTerminated(s, LiveRaw, no);
    DifferAfterRecord(Trimmed(s[..FirstNewline(s)]), no, Read(rest, Sealed, no + 1), Read(rest, LiveRaw, no + 1), TornTail(rest));
  }

  /** Strict and tolerant reading differ exactly on text that is sound up to a torn tail. */
  lemma {:induction false} StrictDiffersIffTorn(s: string, no: nat)
    ensures Differ(Read(s, Sealed, no), Read(s, LiveRaw, no), TornTail(s))
    decreases |s|
  {
    if s != [] {
      var n := FirstNewline(s);
      if n < |s| {
        StrictDiffersIffTorn(s[n + 1..], no + 1);
        DifferInRecord(s, no, s[n + 1..]);
      } else {
        assert s[..n] == s;
      }
    }
  }

  lemma {:induction false} TerminatedIsUntorn(s: string)
    requires Terminated(s)
    ensures !TornTail(s)
    decreases |s|
  {
    if s != [] {
      ConcatSlices(s, []);
      TerminatedIsUntorn(s[FirstNewline(s) + 1..]);
    }
  }

  /** A slice of whitespace without form feeds is JSON whitespace. */
  lemma SpaceWithoutFeeds(s: string, i: nat, j: nat)
    requires i <= j <= |s| && NoFormFeed(s) && forall k :: i <= k < j ==> Space(s[k])
    ensures forall k :: 0 <= k < j - i ==> JsonSpace(s[i..j][k])
  {
    assert forall k :: 0 <= k < j - i ==> s[i..j][k] == s[i + k];
  }

  lemma JsonSpaceAround(s: string, values: seq<string>)
    requires Covers(Trimmed(s), values) && NoFormFeed(s)
    ensures Covers(s, values)
  {
    var i, j := TrimBounds(s);
    SpaceWithoutFeeds(s, 0, i);
    SpaceWithoutFeeds(s, j, |s|);
    assert s[0..i] == s[..i] && s[j..|s|] == s[j..];
    SpaceOnBothSides(s[..i], s[i..j], s[j..], values);
    assert s == s[..i] + (s[i..j] + s[j..]);
  }

  lemma SpaceOnBothSides(a: string, s: string, b: string, values: seq<string>)
    requires Covers(s, values)
    requires (forall k :: 0 <= k < |a| ==> JsonSpace(a[k])) && (forall k :: 0 <= k < |b| ==> JsonSpace(b[k]))
    ensures Covers(a + (s + b), values)
  {
    CoversThenSpace(s, b, values);
    SpaceThenCovers(a, s + b, values);
  }

  lemma {:induction false} SpaceThenCovers(a: string, s: string, values: seq<string>)
    requires Covers(s, values) && forall i :: 0 <= i < |a| ==> JsonSpace(a[i])
    ensures Covers(a + s, values)
  {
    if a == [] {
      assert a + s == s;
    } else {
      SpaceThenCovers(a[1..], s, values);
      assert (a + s)[1..] == a[1..] + s;
    }
  }

  lemma {:induction false} CoversThenSpace(s: string, a: string, values: seq<string>)
    requires Covers(s, values) && forall i :: 0 <= i < |a| ==> JsonSpace(a[i])
    ensures Covers(s + a, values)
    decreases |s|
  {
    if s == [] && values == [] {
      SpaceThenCovers(a, [], []);
      assert s + a == a + [];
    } else if s != [] && JsonSpace(s[0]) && Covers(s[1..], values) {
      CoversThenSpace(s[1..], a, values);
      assert (s + a)[1..] == s[1..] + a;
    } else {
      CoversThenSpace(s[|values[0]|..], a, values[1..]);
      assert (s + a)[|values[0]|..] == s[|values[0]|..] + a;
    }
  }

  /** Values in front of more text on the same line are visited before it. */
  lemma {:induction false} CoveredInFront(a: string, values: seq<string>, t: string, kind: Kind, no: nat)
    requires Covers(a, values) && (forall v :: v in values ==> Whole(v)) && '\n' !in a && NoFormFeed(a + t)
    ensures Read(a + t, kind, no) == Outcome(values + Read(t, kind, no).visited, Read(t, kind, no).error)
    ensures TornTail(a + t) == TornTail(t)
    decreases |a|
  {
    if a == [] && values == [] {
      assert a + t == t && values + Read(t, kind, no).visited == Read(t, kind, no).visited;
    } else if a != [] && JsonSpace(a[0]) && Covers(a[1..], values) {
      assert a + t == [a[0]] + (a[1..] + t);
      RestHasNoFeed(a, t, 1);
      CoveredInFront(a[1..], values, t, kind, no);
      ReadSpaceInFront(a[0], a[1..] + t, kind, no);
      TornSpaceInFront(a[0], a[1..] + t);
    } else {
      var v := values[0];
      var rest := a[|v|..];
      assert a + t == v + (rest + t) && values == [v] + values[1..];
      RestHasNoFeed(a, t, |v|);
      CoveredInFront(rest, values[1..], t, kind, no);
      ReadValueInFront(v, rest + t, kind, no);
      TornValueInFront(v, rest + t);
      OneMoreInFront(v, values[1..], Read(t, kind, no).visited);
    }
  }

  lemma RestHasNoFeed(a: string, t: string, k: nat)
    requires NoFormFeed(a + t) && k <= |a|
    ensures NoFormFeed(a[k..] + t)
  {
    assert forall i :: 0 <= i < |a[k..] + t| ==> (a[k..] + t)[i] == (a + t)[i + k];
  }

  lemma TornSpaceInFront(c: char, t: string)
    requires JsonSpace(c) && c != '\n' && NoFormFeed(t)
    ensures TornTail([c] + t) == TornTail(t)
  {
    var s, n := [c] + t, FirstNewline(t);
    assert s[1..] == t && FirstNewline(s) == n + 1;
    assert TrimLeft(s) == TrimLeft(t);
    if t == [] {
      assert Trimmed(s) == [] && Residue([]) == [];
    } else if n < |t| {
      assert s[n + 2..] == t[n + 1..];
    }
  }

  lemma TornValueInFront(v: string, t: string)
    requires Whole(v) && NoFormFeed(t)
    ensures TornTail(v + t) == TornTail(t)
  {
    LineWithValueInFront(v, t);
    ValueInFront(v, []);
    if t == [] {
      RecordWithValueInFront(v, []);
      assert Residue([]) == [] && v + [] == v;
    } else if FirstNewline(t) == |t| {
      RecordWithValueInFront(v, t);
    }
  }

  /** Text without a torn tail, read strictly, and then the rest: the same as reading both together. */
  lemma {:induction false} ReadUntorn(a: string, b: string, kind: Kind, no: nat)
    requires !TornTail(a) && (Terminated(a) || NoFormFeed(a + b))
    ensures Same(Read(a + b, kind, no), Then(Read(a, Sealed, no), Read(b, kind, 0)))
    ensures TornTail(a + b) == TornTail(b)
    decreases |a|
  {
    NumberOnlyLabels(b, kind, no, 0);
    if a == [] {
      assert a + b == b;
    } else if FirstNewline(a) == |a| {
      FirstNewlineIsFirst(a);
      UntornLine(a, b, kind, no);
    } else {
      var n := FirstNewline(a);
      FirstNewlineIsFirst(a);
      LineOfBoth(a, b);
      if !Terminated(a) { RestHasNoFeed(a, b, n + 1); }
      ReadUntorn(a[n + 1..], b, kind, no + 1);
      UntornRecord(a, b, kind, no);
    }
  }

  lemma LineOfBoth(a: string, b: string)
    requires FirstNewline(a) < |a|
    ensures FirstNewline(a + b) == FirstNewline(a)
    ensures var n := FirstNewline(a);
            && (a + b)[..n] == a[..n] && (a + b)[n + 1..] == a[n + 1..] + b
            && (Terminated(a) ==> Terminated(a[n + 1..]))
  {
    FirstNewlineOfPrefix(a + b, |a|);
    assert (a + b)[..|a|] == a;
  }

  lemma UntornLine(a: string, b: string, kind: Kind, no: nat)
    requires a != [] && FirstNewline(a) == |a| && !Malformed(Trimmed(a)) && '\n' !in a && NoFormFeed(a + b)
    ensures Same(Read(a + b, kind, no), Then(Read(a, Sealed, no), Read(b, kind, no)))
    ensures TornTail(a + b) == TornTail(b)
  {
    var values := Values(Trimmed(a));
    var i, j := TrimBounds(a);
    RecordIff(a, values);
    assert NoFormFeed(a) by { assert forall k :: 0 <= k < |a| ==> a[k] == (a + b)[k]; }
    ValuesAreWhole(Trimmed(a));
    JsonSpaceAround(a, values);
    CoveredInFront(a, values, b, kind, no);
    assert a[..|a|] == a && values + [] == values;
  }

  lemma UntornRecord(a: string, b: string, kind: Kind, no: nat)
    requires FirstNewline(a) < |a|
    requires Same(Read(a[FirstNewline(a) + 1..] + b, kind, no + 1), Then(Read(a[FirstNewline(a) + 1..], Sealed, no + 1), Read(b, kind, 0)))
    ensures Same(Read(a + b, kind, no), Then(Read(a, Sealed, no), Read(b, kind, 0)))
  {
    var rest := a[FirstNewline(a) + 1..];
    LineOfBoth(a, b);
    ReadTerminated(a + b, kind, no);
    ReadTerminated(a, Sealed, no);
    SameAfterRecord(Trimmed(a[..FirstNewline(a)]), kind, no, Read(rest + b, kind, no + 1), Read(rest, Sealed, no + 1), Read(b, kind, 0));
  }

  lemma SameAfterRecord(record: string, kind: Kind, no: nat, both: Outcome, first: Outcome, second: Outcome)
    requires Same(both, Then(first, second))
    ensures Same(AfterRecord(record, true, kind, no, both), Then(AfterRecord(record, true, Sealed, no, first), second))
  {
    assert Values(record) + (first.visited + second.visited) == Values(record) + first.visited + second.visited;
  }

  /** A newline after an unterminated last record makes no difference under strict rules. */
  lemma {:induction false} NewlineAdded(s: string, no: nat)
    requires !Terminated(s)
    ensures Read(s + ['\n'], Sealed, no) == Read(s, Sealed, no)
    decreases |s|
  {
    var n := FirstNewline(s);
    FirstNewlineIsFirst(s);
    if n < |s| {
      LineOfBoth(s, ['\n']);
      NewlineAdded(s[n + 1..], no + 1);
    } else {
      NewlineAfter(s, ['\n']);
      assert (s + ['\n'])[..n] == s == s[..n] && (s + ['\n'])[n + 1..] == [];
    }
  }

  // ----- the reader itself

  /** The inner loop over one record: every complete value, and whether other text is left. */
  method ReadValues(trimmed: string) returns (visited: seq<string>, malformed: bool)
    ensures visited == Values(trimmed) && malformed == Malformed(trimmed)
  {
    visited := [];
    var rest := trimmed;
    while true
      invariant Values(trimmed) == visited + Values(rest) && Residue(trimmed) == Residue(rest)
      decreases |rest|
    {
      StreamStep(rest);
      var after := rest[Lead(rest)..];
      var end := ValueEnd(after);
      if end.None? { return visited, after != [] && !AllSpace(rest); }
      visited := visited + [after[..end.value]];
      rest := after[end.value..];
    }
  }

  lemma ThenRecord(visited: seq<string>, record: string, terminated: bool, kind: Kind, no: nat, rest: Outcome)
    ensures Then(Outcome(visited, None), AfterRecord(record, terminated, kind, no, rest)) ==
            if !Malformed(record) then Then(Outcome(visited + Values(record), None), rest)
            else if !terminated && kind.LiveRaw? then Outcome(visited + Values(record), None)
            else Outcome(visited + Values(record), Some(no + 1))
  {
    assert visited + (Values(record) + rest.visited) == visited + Values(record) + rest.visited;
  }

  /** `run_segment`. */
  method RunSegment(s: string, kind: Kind) returns (outcome: Outcome)
    ensures outcome == Read(s, kind, 0)
  {
    var rest, no, visited := s, 0, [];
    assert Then(Outcome([], None), Read(s, kind, 0)).visited == Read(s, kind, 0).visited;
    while rest != []
      invariant Then(Outcome(visited, None), Read(rest, kind, no)) == Read(s, kind, 0)
      decreases |rest|
    {
      var n := FirstNewline(rest);
      var terminated := n < |rest|;
      ReadRecord(rest, kind, no);
      var record := Trimmed(rest[..n]);
      var values, malformed := ReadValues(record);
      ThenRecord(visited, record, terminated, kind, no, RestOf(rest, kind, no));
      visited := visited + values;
      if malformed {
        return if !terminated && kind.LiveRaw? then Outcome(visited, None) else Outcome(visited, Some(no + 1));
      }
      rest, no := if terminated then rest[n + 1..] else [], no + 1;
    }
    return Outcome(visited, None);
  }
}
