/**
 * The generations of one capture while it is sealed: compressed frames, a detached
 * generation on its way into them, and the live file. Appending, detaching, committing
 * a frame and dropping the detached file may stop between any two steps and be resumed.
 *
 * Detaching takes the live file as it is, or, when scrubbing rewrote it, line by line and
 * so with a newline at its end.
 */
module Generations {
  import opened Wrappers
  import opened Segments

  /** One compressed frame: what it decodes to, and its length in the file. */
  datatype Frame = Frame(content: string, size: nat)

  /** A detached generation; the digest of a text is the text itself, as no two share one. */
  datatype Detached = Detached(content: string, baseLen: nat, digest: string)

  datatype Files = Files(frames: Option<seq<Frame>>, detached: Option<Detached>, raw: Option<string>)

  function Length(frames: seq<Frame>): nat {
    if frames == [] then 0 else frames[0].size + Length(frames[1..])
  }

  /** Frames one after another decode to their contents one after another. */
  function Decoded(frames: seq<Frame>): string {
    if frames == [] then [] else frames[0].content + Decoded(frames[1..])
  }

  /** What decoding from a byte offset gives; nothing unless a frame begins there. */
  function DecodedSuffix(frames: seq<Frame>, offset: nat): Option<string> {
    if offset == 0 then Some(Decoded(frames))
    else if frames == [] || offset < frames[0].size then None
    else DecodedSuffix(frames[1..], offset - frames[0].size)
  }

  // ----- the reader

  datatype Failure = BadRecord | ShorterThanBase | NoBase | BadSuffix | Conflict

  datatype Visit = Visit(visited: seq<string>, failure: Option<Failure>)

  function Segment(v: Visit, s: string, kind: Kind): Visit {
    if v.failure.Some? then v
    else
      var o := Read(s, kind, 0);
      Visit(v.visited + o.visited, if o.error.Some? then Some(BadRecord) else None)
  }

  /** The detached generation is read only while its frame is not yet in the sealed file. */
  function DetachedPart(v: Visit, frames: Option<seq<Frame>>, d: Detached): Visit {
    if v.failure.Some? then v
    else match frames
      case Some(fs) =>
        if Length(fs) < d.baseLen then v.(failure := Some(ShorterThanBase))
        else if Length(fs) > d.baseLen then
          match DecodedSuffix(fs, d.baseLen)
          case None => v.(failure := Some(BadSuffix))
          case Some(content) => if content == d.digest then v else v.(failure := Some(Conflict))
        else Segment(v, d.content, Sealed)
      case None => if d.baseLen > 0 then v.(failure := Some(NoBase)) else Segment(v, d.content, Sealed)
  }

  /** `visit_snapshot` as a function of the retained files. */
  function Visited(f: Files): Visit {
    var start := Visit([], None);
    var sealed_ := if f.frames.Some? then Segment(start, Decoded(f.frames.value), Sealed) else start;
    var detached := if f.detached.Some? then DetachedPart(sealed_, f.frames, f.detached.value) else sealed_;
    if f.raw.Some? then Segment(detached, f.raw.value, LiveRaw) else detached
  }

  method VisitSegment(v: Visit, s: string, kind: Kind) returns (r: Visit)
    requires v.failure.None?
    ensures r == Segment(v, s, kind)
  {
    var o := RunSegment(s, kind);
    return Visit(v.visited + o.visited, if o.error.Some? then Some(BadRecord) else None);
  }

  /** `visit_snapshot`. */
  method VisitSnapshot(f: Files) returns (r: Visit)
    ensures r == Visited(f)
  {
    r := Visit([], None);
    if f.frames.Some? {
      r := VisitSegment(r, Decoded(f.frames.value), Sealed);
      if r.failure.Some? { return; }
    }
    if f.detached.Some? {
      var d := f.detached.value;
      if f.frames.Some? && Length(f.frames.value) < d.baseLen {
        r := r.(failure := Some(ShorterThanBase));
      } else if f.frames.None? && d.baseLen > 0 {
        r := r.(failure := Some(NoBase));
      } else if f.frames.Some? && Length(f.frames.value) > d.baseLen {
        var suffix := DecodedSuffix(f.frames.value, d.baseLen);
        if suffix.None? {
          r := r.(failure := Some(BadSuffix));
        } else if suffix.value != d.digest {
          r := r.(failure := Some(Conflict));
        }
      } else {
        r := VisitSegment(r, d.content, Sealed);
      }
      if r.failure.Some? { return; }
    }
    if f.raw.Some? { r := VisitSegment(r, f.raw.value, LiveRaw); }
  }

  // ----- the writer

  /**
   * `log` is everything ever appended, with the newlines that rewriting added. `tidy`:
   * every generation detached so far ended in a newline; `torn`: one had a torn tail.
   */
  datatype State = State(files: Files, log: string, tidy: bool, torn: bool)

  datatype Step = Append(bytes: string) | Detach(rewrite: bool) | CommitFrame(size: nat) | DropDetached

  function FramesOf(f: Files): seq<Frame> {
    if f.frames.Some? then f.frames.value else []
  }

  predicate Enabled(s: State, step: Step) {
    var f := s.files;
    match step
    case Append(_) => true
    case Detach(_) => f.detached.None? && f.raw.Some?
    case CommitFrame(size) => f.detached.Some? && size > 0 && Length(FramesOf(f)) == f.detached.value.baseLen
    case DropDetached =>
      && f.detached.Some? && f.frames.Some? && Length(f.frames.value) > f.detached.value.baseLen
      && DecodedSuffix(f.frames.value, f.detached.value.baseLen) == Some(f.detached.value.digest)
  }

  /** What rewriting adds to a live file. */
  function Ending(raw: string, rewrite: bool): string {
    if rewrite && !Terminated(raw) then ['\n'] else []
  }

  function Detaching(f: Files, rewrite: bool): Files
    requires f.raw.Some?
  {
    var content := f.raw.value + Ending(f.raw.value, rewrite);
    f.(detached := Some(Detached(content, Length(FramesOf(f)), content)), raw := None)
  }

  function Do(s: State, step: Step): State
    requires Enabled(s, step)
  {
    var f := s.files;
    match step
    case Append(bytes) =>
      s.(files := f.(raw := Some((if f.raw.Some? then f.raw.value else []) + bytes)), log := s.log + bytes)
    case Detach(rewrite) =>
      var raw := f.raw.value;
      State(Detaching(f, rewrite), s.log + Ending(raw, rewrite),
            s.tidy && (rewrite || Terminated(raw)), s.torn || TornTail(raw))
    case CommitFrame(size) => s.(files := f.(frames := Some(FramesOf(f) + [Frame(f.detached.value.content, size)])))
    case DropDetached => s.(files := f.(detached := None))
  }

  const EMPTY := State(Files(None, None, None), [], true, false)

  function Run(steps: seq<Step>): Option<State> {
    if steps == [] then Some(EMPTY)
    else match Run(steps[..|steps| - 1])
      case None => None
      case Some(s) => if Enabled(s, steps[|steps| - 1]) then Some(Do(s, steps[|steps| - 1])) else None
  }

  ghost predicate Reachable(s: State) {
    exists steps: seq<Step> :: Run(steps) == Some(s)
  }

  // ----- the invariant

  /** The detached text that is not in a frame yet. */
  function Waiting(f: Files): string {
    if f.detached.Some? && Length(FramesOf(f)) == f.detached.value.baseLen then f.detached.value.content else []
  }

  function RawOf(f: Files): string {
    if f.raw.Some? then f.raw.value else []
  }

  predicate DetachedInv(frames: seq<Frame>, d: Detached) {
    && d.digest == d.content
    && (|| Length(frames) == d.baseLen
        || (Length(frames) > d.baseLen && DecodedSuffix(frames, d.baseLen) == Some(d.content)))
  }

  predicate Positive(frames: seq<Frame>) {
    forall i :: 0 <= i < |frames| ==> frames[i].size > 0
  }

  /** Sealed and detached text can be read one after the other. */
  predicate Sound(f: Files, tidy: bool) {
    && !TornTail(Decoded(FramesOf(f))) && (tidy ==> Terminated(Decoded(FramesOf(f))))
    && (f.detached.Some? ==> !TornTail(f.detached.value.content) && (tidy ==> Terminated(f.detached.value.content)))
  }

  /** Nothing torn was detached, and generations without a final newline contain no form feed. */
  predicate Readable(s: State) {
    !s.torn && (s.tidy || NoFormFeed(s.log))
  }

  predicate Inv(s: State) {
    var frames := FramesOf(s.files);
    && Positive(frames) && (s.files.frames.None? ==> frames == [])
    && (s.files.detached.Some? ==> DetachedInv(frames, s.files.detached.value))
    && s.log == Decoded(frames) + Waiting(s.files) + RawOf(s.files)
    && (Readable(s) ==> Sound(s.files, s.tidy))
  }

  lemma {:induction false} FrameAppended(frames: seq<Frame>, frame: Frame)
    requires Positive(frames)
    ensures Length(frames + [frame]) == Length(frames) + frame.size
    ensures Decoded(frames + [frame]) == Decoded(frames) + frame.content
    ensures DecodedSuffix(frames + [frame], Length(frames)) == Some(frame.content)
  {
    if frames == [] {
      assert frames + [frame] == [frame] && [frame][1..] == [];
      assert Decoded([frame]) == frame.content + [] == frame.content;
    } else {
      FrameAppended(frames[1..], frame);
      assert (frames + [frame])[1..] == frames[1..] + [frame];
      assert (frames[0].content + Decoded(frames[1..])) + frame.content == frames[0].content + (Decoded(frames[1..]) + frame.content);
    }
  }

  lemma PrefixHasNoFeed(a: string, b: string)
    requires NoFormFeed(a + b)
    ensures NoFormFeed(a)
  {
    assert forall i :: 0 <= i < |a| ==> a[i] == (a + b)[i];
  }

  lemma AppendKeepsInv(s: State, bytes: string)
    requires Inv(s)
    ensures Inv(Do(s, Append(bytes)))
  {
    assert Decoded(FramesOf(s.files)) + Waiting(s.files) + (RawOf(s.files) + bytes)
        == Decoded(FramesOf(s.files)) + Waiting(s.files) + RawOf(s.files) + bytes;
    if NoFormFeed(s.log + bytes) { PrefixHasNoFeed(s.log, bytes); }
  }

  /** Rewriting leaves no torn tail that was not there, and an ending newline. */
  lemma EndingIsSound(raw: string, rewrite: bool)
    requires !TornTail(raw)
    ensures !TornTail(raw + Ending(raw, rewrite))
    ensures rewrite || Terminated(raw) ==> Terminated(raw + Ending(raw, rewrite))
  {
    if Ending(raw, rewrite) == [] {
      assert raw + [] == raw;
    } else {
      TerminatedIsUntorn(raw + ['\n']);
    }
  }

  lemma DetachKeepsInv(s: State, rewrite: bool)
    requires Inv(s) && Enabled(s, Detach(rewrite))
    ensures Inv(Do(s, Detach(rewrite)))
  {
    var raw, all := s.files.raw.value, Decoded(FramesOf(s.files));
    var ending := Ending(raw, rewrite);
    assert all + [] + raw + ending == all + (raw + ending) + [];
    if NoFormFeed(s.log + ending) { PrefixHasNoFeed(s.log, ending); }
    if !TornTail(raw) { EndingIsSound(raw, rewrite); }
  }

  lemma CommitIsSound(all: string, content: string, rest: string, tidy: bool)
    requires !TornTail(all) && !TornTail(content) && (tidy ==> Terminated(all) && Terminated(content))
    requires tidy || NoFormFeed(all + content + rest)
    ensures !TornTail(all + content) && (tidy ==> Terminated(all + content))
  {
    if !tidy { PrefixHasNoFeed(all + content, rest); }
    ReadUntorn(all, content, Sealed, 0);
    if content != [] {
      assert (all + content)[|all + content| - 1] == content[|content| - 1];
    } else {
      assert all + content == all;
    }
  }

  lemma CommitKeepsInv(s: State, size: nat)
    requires Inv(s) && Enabled(s, CommitFrame(size))
    ensures Inv(Do(s, CommitFrame(size)))
  {
    var frames, d := FramesOf(s.files), s.files.detached.value;
    FrameAppended(frames, Frame(d.content, size));
    assert Decoded(frames) + d.content + RawOf(s.files) == (Decoded(frames) + d.content) + [] + RawOf(s.files);
    if Readable(s) { CommitIsSound(Decoded(frames), d.content, RawOf(s.files), s.tidy); }
  }

  lemma StepKeepsInv(s: State, step: Step)
    requires Inv(s) && Enabled(s, step)
    ensures Inv(Do(s, step))
  {
    match step
    case Append(bytes) => AppendKeepsInv(s, bytes);
    case Detach(rewrite) => DetachKeepsInv(s, rewrite);
    case CommitFrame(size) => CommitKeepsInv(s, size);
    case DropDetached =>
  }

  lemma {:induction false} RunKeepsInv(steps: seq<Step>)
    requires Run(steps).Some?
    ensures Inv(Run(steps).value)
  {
    if steps != [] {
      RunKeepsInv(steps[..|steps| - 1]);
      StepKeepsInv(Run(steps[..|steps| - 1]).value, steps[|steps| - 1]);
    }
  }

  lemma ReachableKeepsInv(s: State)
    requires Reachable(s)
    ensures Inv(s)
  {
    var steps :| Run(steps) == Some(s);
    RunKeepsInv(steps);
  }

  // ----- reading is independent of sealing

  /** The visit agrees with reading `s` in one piece: same values, same success. */
  predicate Agrees(v: Visit, s: string, kind: Kind) {
    var o := Read(s, kind, 0);
    v.visited == o.visited && (v.failure == if o.error.Some? then Some(BadRecord) else None)
  }

  /** Reading one more generation is reading one longer text. */
  lemma SegmentAgrees(v: Visit, a: string, b: string, kind: Kind)
    requires !TornTail(a) && (Terminated(a) || NoFormFeed(a + b)) && Agrees(v, a, Sealed)
    ensures Agrees(Segment(v, b, kind), a + b, kind)
  {
    ReadUntorn(a, b, kind, 0);
  }

  /** Text without a torn tail reads the same whether it is taken as sealed or as live. */
  lemma KindIsIdle(v: Visit, a: string)
    requires !TornTail(a) && Agrees(v, a, Sealed)
    ensures Agrees(v, a, LiveRaw)
  {
    StrictDiffersIffTorn(a, 0);
  }

  lemma SealedPartAgrees(f: Files)
    requires f.frames.None? ==> FramesOf(f) == []
    ensures var v := if f.frames.Some? then Segment(Visit([], None), Decoded(f.frames.value), Sealed) else Visit([], None);
            Agrees(v, Decoded(FramesOf(f)), Sealed)
  {
    SegmentAgrees(Visit([], None), [], Decoded(FramesOf(f)), Sealed);
    assert [] + Decoded(FramesOf(f)) == Decoded(FramesOf(f));
  }

  lemma DetachedPartAgrees(s: State, v: Visit)
    requires Inv(s) && Readable(s) && Agrees(v, Decoded(FramesOf(s.files)), Sealed)
    ensures var f := s.files;
            var w := if f.detached.Some? then DetachedPart(v, f.frames, f.detached.value) else v;
            var read := Decoded(FramesOf(f)) + Waiting(f);
            Agrees(w, read, Sealed) && !TornTail(read) && (s.tidy ==> Terminated(read))
  {
    var f := s.files;
    var all := Decoded(FramesOf(f));
    if !s.tidy { PrefixHasNoFeed(all + Waiting(f), RawOf(f)); }
    if f.detached.Some? && Length(FramesOf(f)) == f.detached.value.baseLen {
      CommitIsSound(all, Waiting(f), RawOf(f), s.tidy);
      SegmentAgrees(v, all, f.detached.value.content, Sealed);
    } else {
      assert all + [] == all;
    }
  }

  /**
   * In every state of detaching, committing and dropping, with records arriving
   * meanwhile, a snapshot visits exactly what reading the whole log once visits, in
   * order, and fails exactly when that fails. Generations may end without a newline, as
   * long as no torn tail was detached.
   */
  lemma SealingIsInvisible(s: State)
    requires Reachable(s) && Readable(s)
    ensures Agrees(Visited(s.files), s.log, LiveRaw)
  {
    ReachableKeepsInv(s);
    var f := s.files;
    var v := if f.frames.Some? then Segment(Visit([], None), Decoded(f.frames.value), Sealed) else Visit([], None);
    var w := if f.detached.Some? then DetachedPart(v, f.frames, f.detached.value) else v;
    SealedPartAgrees(f);
    DetachedPartAgrees(s, v);
    var before := Decoded(FramesOf(f)) + Waiting(f);
    if f.raw.Some? {
      SegmentAgrees(w, before, f.raw.value, LiveRaw);
    } else {
      KindIsIdle(w, before);
      assert before + [] == before;
    }
  }

  // ----- a log of envelopes

  /** The log of a writer that appends one line per envelope. */
  function Written(envelopes: seq<string>): string {
    if envelopes == [] then [] else envelopes[0] + ['\n'] + Written(envelopes[1..])
  }

  lemma WholeIsTrimmed(v: string)
    requires Whole(v)
    ensures Trimmed(v) == v && Covers(v, [v])
  {
    ValueInFront(v, []);
    assert v + [] == v && v[|v|..] == [] && [v][1..] == [];
    assert !Space(v[0]) && !Space(v[|v| - 1]);
  }

  lemma {:induction false} WrittenHolds(envelopes: seq<string>)
    requires forall v :: v in envelopes ==> Whole(v)
    ensures Holds(Written(envelopes), envelopes)
  {
    if envelopes != [] {
      var v, rest := envelopes[0], Written(envelopes[1..]);
      assert v in envelopes;
      WholeIsTrimmed(v);
      WrittenHolds(envelopes[1..]);
      var s := Written(envelopes);
      assert s == v + (['\n'] + rest);
      NewlineAfter(v, ['\n'] + rest);
      assert s[..|v|] == v && s[|v| + 1..] == rest;
      assert envelopes[..1] == [v];
      assert Covers(Trimmed(s[..|v|]), envelopes[..1]) && Holds(s[|v| + 1..], envelopes[1..]);
    }
  }

  /**
   * Each envelope of the log is visited exactly once and in order, through every stage of
   * sealing; if the last write was cut short, what is visited is a prefix, and nothing fails.
   */
  lemma EnvelopesVisitedOnceInOrder(s: State, whole: string, envelopes: seq<string>, cut: nat)
    requires Reachable(s) && Readable(s)
    requires Holds(whole, envelopes) && forall v :: v in envelopes ==> Complete(v)
    requires cut <= |whole| && s.log == whole[..cut]
    ensures Visited(s.files).failure == None && Visited(s.files).visited <= envelopes
    ensures cut == |whole| ==> Visited(s.files).visited == envelopes
  {
    SealingIsInvisible(s);
    HeldIsRead(whole, envelopes, LiveRaw, 0);
    CutReadsPrefix(whole, cut, 0);
    if cut == |whole| { assert whole[..cut] == whole; }
  }

  // ----- what detaching may cost

  /** Where the detached text is read, nothing depends on whether it was rewritten. */
  lemma EndingIsRead(raw: string, rewrite: bool)
    ensures Read(raw + Ending(raw, rewrite), Sealed, 0) == Read(raw, Sealed, 0)
  {
    if Ending(raw, rewrite) == [] { assert raw + [] == raw; } else { NewlineAdded(raw, 0); }
  }

  /**
   * In every state without a detached generation, detaching leaves the visit as it was
   * exactly unless the live file has a torn tail that was tolerated until then; in that
   * case, rewritten or not, the capture cannot be read any more.
   */
  lemma DetachKeepsReadingIff(f: Files, rewrite: bool)
    requires f.detached.None? && f.raw.Some?
    ensures Visited(Detaching(f, rewrite)) == Visited(f) <==> !(TornTail(f.raw.value) && Visited(f).failure == None)
    ensures TornTail(f.raw.value) && Visited(f).failure == None ==>
              Visited(Detaching(f, rewrite)) == Visited(f).(failure := Some(BadRecord))
  {
    var raw := f.raw.value;
    StrictDiffersIffTorn(raw, 0);
    EndingIsRead(raw, rewrite);
    var v := if f.frames.Some? then Segment(Visit([], None), Decoded(f.frames.value), Sealed) else Visit([], None);
    assert Visited(f) == Segment(v, raw, LiveRaw);
    assert Visited(Detaching(f, rewrite)) == Segment(v, raw + Ending(raw, rewrite), Sealed);
    SegmentsDiffer(v, raw, raw + Ending(raw, rewrite));
  }

  lemma SegmentsDiffer(v: Visit, raw: string, content: string)
    requires Differ(Read(raw, Sealed, 0), Read(raw, LiveRaw, 0), TornTail(raw))
    requires Read(content, Sealed, 0) == Read(raw, Sealed, 0)
    ensures Segment(v, content, Sealed) == Segment(v, raw, LiveRaw) <==> !(TornTail(raw) && Segment(v, raw, LiveRaw).failure == None)
    ensures TornTail(raw) && Segment(v, raw, LiveRaw).failure == None ==>
              Segment(v, content, Sealed) == Segment(v, raw, LiveRaw).(failure := Some(BadRecord))
  {
    ErrorsAgree(raw, 0);
  }

  /** Strict reading refuses whatever tolerant reading refuses, at the same record. */
  lemma {:induction false} ErrorsAgree(s: string, no: nat)
    ensures Read(s, LiveRaw, no).error.Some? ==> Read(s, Sealed, no) == Read(s, LiveRaw, no)
  {
    StrictDiffersIffTorn(s, no);
  }

  /** In particular a reachable, readable capture stays readable exactly when nothing torn is detached. */
  lemma DetachStaysReadableIff(s: State, rewrite: bool)
    requires Reachable(s) && Readable(s) && Enabled(s, Detach(rewrite)) && Read(s.log, LiveRaw, 0).error == None
    ensures Visited(s.files).failure == None
    ensures Visited(Do(s, Detach(rewrite)).files) == Visited(s.files) <==> !Do(s, Detach(rewrite)).torn
  {
    SealingIsInvisible(s);
    DetachKeepsReadingIff(s.files, rewrite);
  }

  // ----- lineage errors

  lemma {:induction false} LengthOfPrefix(frames: seq<Frame>, k: nat)
    requires Positive(frames) && k <= |frames|
    ensures k > 0 ==> Length(frames[..k]) == frames[0].size + Length(frames[1..][..k - 1])
    ensures k > 0 ==> Length(frames[..k]) > 0
  {
    if k > 0 { assert frames[..k][1..] == frames[1..][..k - 1]; }
  }

  /** A suffix can be decoded exactly where a frame begins, and is then the frames from there on. */
  lemma {:induction false} SuffixIff(frames: seq<Frame>, offset: nat, content: string)
    requires Positive(frames)
    ensures DecodedSuffix(frames, offset) == Some(content) <==>
            exists k :: 0 <= k <= |frames| && Length(frames[..k]) == offset && Decoded(frames[k..]) == content
  {
    if offset == 0 {
      assert frames[..0] == [] && frames[0..] == frames;
      forall k | 0 < k <= |frames| ensures Length(frames[..k]) > 0 { LengthOfPrefix(frames, k); }
    } else {
      forall k | 0 < k <= |frames|
        ensures Length(frames[..k]) == frames[0].size + Length(frames[1..][..k - 1]) && frames[k..] == frames[1..][k - 1..]
      {
        LengthOfPrefix(frames, k);
      }
      assert frames[..0] == [];
      if frames != [] && offset >= frames[0].size {
        SuffixIff(frames[1..], offset - frames[0].size, content);
        if DecodedSuffix(frames, offset) == Some(content) {
          var k :| 0 <= k <= |frames[1..]| && Length(frames[1..][..k]) == offset - frames[0].size && Decoded(frames[1..][k..]) == content;
          assert Length(frames[..k + 1]) == offset && Decoded(frames[k + 1..]) == content;
        }
        if k :| 0 <= k <= |frames| && Length(frames[..k]) == offset && Decoded(frames[k..]) == content {
          assert Length(frames[1..][..k - 1]) == offset - frames[0].size && Decoded(frames[1..][k - 1..]) == content;
        }
      }
    }
  }

  /** The sealed part, if there is one, reads without error. */
  predicate SealedReads(f: Files) {
    f.frames.Some? ==> Read(Decoded(f.frames.value), Sealed, 0).error == None
  }

  /**
   * Each lineage error is reported exactly for what it names: a sealed file shorter than
   * the base the generation was detached at, a base without a sealed file, a longer one
   * whose suffix does not begin with a frame there, or does not hold the generation.
   */
  lemma LineageErrorsIff(f: Files)
    ensures var failure, base := Visited(f).failure, if f.detached.Some? then f.detached.value.baseLen else 0;
            && (failure == Some(NoBase) <==> f.detached.Some? && f.frames.None? && base > 0)
            && (failure == Some(ShorterThanBase) <==>
                  SealedReads(f) && f.detached.Some? && f.frames.Some? && Length(f.frames.value) < base)
            && (failure == Some(BadSuffix) <==>
                  && SealedReads(f) && f.detached.Some? && f.frames.Some? && Length(f.frames.value) > base
                  && forall content :: DecodedSuffix(f.frames.value, base) != Some(content))
            && (failure == Some(Conflict) <==>
                  && SealedReads(f) && f.detached.Some? && f.frames.Some? && Length(f.frames.value) > base
                  && exists content :: DecodedSuffix(f.frames.value, base) == Some(content) && content != f.detached.value.digest)
  {
    if f.detached.Some? && f.frames.Some? {
      var suffix := DecodedSuffix(f.frames.value, f.detached.value.baseLen);
      if suffix.Some? { assert DecodedSuffix(f.frames.value, f.detached.value.baseLen) == Some(suffix.value); }
    }
  }
}
