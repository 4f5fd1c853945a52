/**
 * The persistent state of a Door: which files are new, how the frontier advances,
 * which states a reader accepts, and how older states are migrated.
 *
 * A timestamp is the bit pattern of a non-negative double: on those, numeric order
 * and the order of the patterns coincide, and the next larger double is pattern + 1.
 */
module DoorState {
  import opened Wrappers
  import opened Paths

  type Timestamp = nat

  /** The bit pattern of positive infinity; larger patterns are not numbers either. */
  const INFINITY: nat := 0x7FF0_0000_0000_0000

  predicate ValidTimestamp(t: Timestamp) {
    t < INFINITY
  }

  datatype FileOrder = FileOrder(mtime: Timestamp, path: string)

  datatype Frontier = Frontier(mtime: Timestamp, seen: seq<string>, closedThroughPath: Option<string>)

  datatype Cursor = Cursor(mtime: Timestamp, path: string)

  /** Size and content digest; absent in claims written before they were recorded. */
  datatype Identity = Identity(size: int, sha256: string)

  datatype ClaimFile = ClaimFile(order: FileOrder, identity: Option<Identity>)

  /** SHA-256 over the claimed tuple, taken as injective. */
  datatype Key =
    | FrontierKey(door: string, from: Frontier, files: seq<ClaimFile>)
    | CursorKey(door: string, cursor: Cursor, orders: seq<FileOrder>)

  datatype Claim = Claim(from: Frontier, files: seq<ClaimFile>, key: Key, legacyCursor: Option<Cursor>)

  datatype DoorState = DoorState(frontier: Frontier, fires: seq<int>, paused: Option<string>, claim: Option<Claim>)

  function CompareFile(a: FileOrder, b: FileOrder): int {
    if a.mtime != b.mtime then (if a.mtime < b.mtime then -1 else 1)
    else if Less(a.path, b.path) then -1
    else if Less(b.path, a.path) then 1
    else 0
  }

  predicate IsNew(file: FileOrder, frontier: Frontier) {
    || file.mtime > frontier.mtime
    || (&& file.mtime == frontier.mtime
        && (frontier.closedThroughPath.None? || Less(frontier.closedThroughPath.value, file.path))
        && file.path !in frontier.seen)
  }

  function Orders(files: seq<ClaimFile>): seq<FileOrder> {
    seq(|files|, i requires 0 <= i < |files| => files[i].order)
  }

  function PathsAt(files: seq<FileOrder>, mtime: Timestamp): seq<string> {
    if files == [] then []
    else (if files[0].mtime == mtime then [files[0].path] else []) + PathsAt(files[1..], mtime)
  }

  function AdvanceFrontier(from: Frontier, files: seq<FileOrder>): Frontier
    requires files != []
  {
    var mtime := files[|files| - 1].mtime;
    if mtime < from.mtime then from
    else
      var same := mtime == from.mtime;
      var seen := (if same then from.seen else []) + PathsAt(files, mtime);
      Frontier(mtime, SortedSet(seen), if same then from.closedThroughPath else None)
  }

  // ----- validity

  predicate ValidFrontier(f: Frontier) {
    && ValidTimestamp(f.mtime)
    && (forall path :: path in f.seen ==> ValidRelativePath(path))
    && (forall i :: 1 <= i < |f.seen| ==> Less(f.seen[i - 1], f.seen[i]))
    && (f.closedThroughPath.Some? ==>
          && (f.closedThroughPath.value == "" || ValidRelativePath(f.closedThroughPath.value))
          && forall path :: path in f.seen ==> Less(f.closedThroughPath.value, path))
  }

  predicate ValidCursor(c: Cursor) {
    ValidTimestamp(c.mtime) && (if c.path == "" then c.mtime == 0 else ValidRelativePath(c.path))
  }

  predicate HexDigit(c: char) {
    '0' <= c <= '9' || 'a' <= c <= 'f'
  }

  predicate ValidFileOrder(f: FileOrder) {
    ValidTimestamp(f.mtime) && f.path != ""
  }

  predicate ValidClaimFile(f: ClaimFile) {
    && ValidFileOrder(f.order)
    && f.identity.Some?
    && 0 <= f.identity.value.size <= 0x1F_FFFF_FFFF_FFFF
    && |f.identity.value.sha256| == 64
    && forall c :: c in f.identity.value.sha256 ==> HexDigit(c)
  }

  predicate ValidLegacyClaimFile(f: ClaimFile) {
    ValidFileOrder(f.order) && f.identity.None?
  }

  /** Strictly ascending by `compareFile`. */
  predicate Sorted(files: seq<FileOrder>) {
    forall i :: 1 <= i < |files| ==> CompareFile(files[i - 1], files[i]) < 0
  }

  predicate DistinctPaths(files: seq<FileOrder>) {
    forall i, j :: 0 <= i < j < |files| ==> files[i].path != files[j].path
  }

  predicate AcceptsClaim(name: string, frontier: Frontier, claim: Claim) {
    var files := claim.files;
    && ValidFrontier(claim.from) && claim.from == frontier
    && files != []
    && (|| (forall f :: f in files ==> ValidClaimFile(f))
        || (claim.legacyCursor.Some? && forall f :: f in files ==> ValidLegacyClaimFile(f)))
    && (forall f :: f in files ==> ValidRelativePath(f.order.path))
    && DistinctPaths(Orders(files)) && Sorted(Orders(files))
    && match claim.legacyCursor
       case None =>
         && (forall f :: f in files ==> IsNew(f.order, claim.from))
         && claim.key == FrontierKey(name, claim.from, files)
       case Some(cursor) =>
         && (forall f :: f in files ==> CompareFile(f.order, FileOrder(cursor.mtime, cursor.path)) > 0)
         && ValidCursor(cursor)
         && claim.from == Frontier(cursor.mtime, [], Some(cursor.path))
         && claim.key == CursorKey(name, cursor, Orders(files))
  }

  /** The states `parseState` lets through. */
  predicate AcceptsState(name: string, s: DoorState) {
    && (forall time :: time in s.fires ==> time >= 0)
    && ValidFrontier(s.frontier)
    && (s.claim.Some? ==> AcceptsClaim(name, s.frontier, s.claim.value))
  }

  // ----- exact novelty

  lemma {:induction false} PathsAtExact(files: seq<FileOrder>, mtime: Timestamp)
    ensures forall path :: path in PathsAt(files, mtime) <==> FileOrder(mtime, path) in files
  {
    if files != [] {
      PathsAtExact(files[1..], mtime);
      assert files == [files[0]] + files[1..];
    }
  }

  /**
   * After a claim of new files with last mtime m, a file is new exactly when it was
   * new before and is later than m, or is as late as m and was not claimed.
   */
  lemma ExactNovelty(from: Frontier, files: seq<FileOrder>, file: FileOrder)
    requires files != [] && IsNew(files[|files| - 1], from)
    ensures var m := files[|files| - 1].mtime;
            IsNew(file, AdvanceFrontier(from, files)) <==>
            IsNew(file, from) && (file.mtime > m || (file.mtime == m && file !in files))
  {
    var m := files[|files| - 1].mtime;
    PathsAtExact(files, m);
    SortedSetIsExact((if m == from.mtime then from.seen else []) + PathsAt(files, m));
  }

  lemma {:induction false} SortedBelowLast(files: seq<FileOrder>, i: nat)
    requires Sorted(files) && i < |files|
    ensures files[i].mtime <= files[|files| - 1].mtime
    decreases |files| - i
  {
    if i + 1 < |files| {
      SortedBelowLast(files, i + 1);
      assert CompareFile(files[i + 1 - 1], files[i + 1]) < 0;
    }
  }

  /** No claimed file is new again, and nothing becomes new that was not. */
  lemma ClaimedIsOld(from: Frontier, files: seq<FileOrder>, file: FileOrder)
    requires files != [] && Sorted(files) && IsNew(files[|files| - 1], from)
    ensures file in files ==> !IsNew(file, AdvanceFrontier(from, files))
    ensures !IsNew(file, from) ==> !IsNew(file, AdvanceFrontier(from, files))
  {
    ExactNovelty(from, files, file);
    if file in files {
      var i :| 0 <= i < |files| && files[i] == file;
      SortedBelowLast(files, i);
    }
  }

  // ----- persisted states are accepted

  lemma AscendingSteps(paths: seq<string>)
    ensures Ascending(paths) <==> forall i :: 1 <= i < |paths| ==> Less(paths[i - 1], paths[i])
  {
    if forall i :: 1 <= i < |paths| ==> Less(paths[i - 1], paths[i]) {
      forall i, j | 0 <= i < j < |paths| ensures Less(paths[i], paths[j]) {
        StepsAscend(paths, i, j);
      }
    }
    if Ascending(paths) {
      forall i | 1 <= i < |paths| ensures Less(paths[i - 1], paths[i]) {
      }
    }
  }

  lemma {:induction false} StepsAscend(paths: seq<string>, i: nat, j: nat)
    requires forall k :: 1 <= k < |paths| ==> Less(paths[k - 1], paths[k])
    requires i < j < |paths|
    ensures Less(paths[i], paths[j])
    decreases j
  {
    assert Less(paths[j - 1], paths[j]);
    if i < j - 1 {
      StepsAscend(paths, i, j - 1);
      LessTransitive(paths[i], paths[j - 1], paths[j]);
    }
  }

  /** The advanced frontier of an acceptable claim is one that `parseState` accepts. */
  lemma AdvancedFrontierIsValid(from: Frontier, files: seq<FileOrder>)
    requires ValidFrontier(from) && files != []
    requires forall f :: f in files ==> ValidFileOrder(f) && ValidRelativePath(f.path) && IsNew(f, from)
    ensures ValidFrontier(AdvanceFrontier(from, files))
  {
    var m := files[|files| - 1].mtime;
    var seen := (if m == from.mtime then from.seen else []) + PathsAt(files, m);
    PathsAtExact(files, m);
    SortedSetIsExact(seen);
    AscendingSteps(SortedSet(seen));
    assert files[|files| - 1] in files;
    forall path | path in seen
      ensures ValidRelativePath(path)
      ensures m == from.mtime && from.closedThroughPath.Some? ==> Less(from.closedThroughPath.value, path)
    {
      assert path in from.seen || FileOrder(m, path) in files;
    }
  }

  // ----- migration of older states

  datatype LegacyClaim = LegacyClaim(from: Cursor, files: seq<FileOrder>, key: Key)

  /** Version 0 kept one high-water mark, version 1 a cursor and possibly a claim. */
  datatype LegacyState =
    | HighWater(hwm: Timestamp, fires: seq<int>, paused: Option<string>)
    | Cursored(cursor: Cursor, fires: seq<int>, paused: Option<string>, claim: Option<LegacyClaim>)

  /** What the older versions called new. */
  predicate LegacyNew(raw: LegacyState, file: FileOrder) {
    match raw
    case HighWater(hwm, _, _) => file.mtime > hwm
    case Cursored(cursor, _, _, _) => CompareFile(file, FileOrder(cursor.mtime, cursor.path)) > 0
  }

  function ConservativeFrontier(mtime: Timestamp): Option<Frontier> {
    if ValidTimestamp(mtime) && ValidTimestamp(mtime + 1) then Some(Frontier(mtime + 1, [], None)) else None
  }

  function Unbound(files: seq<FileOrder>): seq<ClaimFile> {
    seq(|files|, i requires 0 <= i < |files| => ClaimFile(files[i], None))
  }

  predicate ValidLegacyClaim(name: string, cursor: Cursor, claim: LegacyClaim) {
    var files := claim.files;
    && ValidCursor(claim.from) && CompareFile(FileOrder(claim.from.mtime, claim.from.path), FileOrder(cursor.mtime, cursor.path)) == 0
    && files != []
    && (forall f :: f in files ==> ValidFileOrder(f) && ValidRelativePath(f.path))
    && DistinctPaths(files) && Sorted(files)
    && (forall f :: f in files ==> CompareFile(f, FileOrder(cursor.mtime, cursor.path)) > 0)
    && claim.key == CursorKey(name, cursor, files)
  }

  function MigrateLegacyState(name: string, raw: LegacyState): Option<DoorState> {
    if exists time :: time in raw.fires && time < 0 then None
    else match raw
      case HighWater(hwm, fires, paused) =>
        (match ConservativeFrontier(hwm)
         case None => None
         case Some(frontier) => Some(DoorState(frontier, fires, paused, None)))
      case Cursored(cursor, fires, paused, claim) =>
        if !ValidCursor(cursor) then None
        else
          var frontier := Frontier(cursor.mtime, [], Some(cursor.path));
          match claim
          case None => Some(DoorState(frontier, fires, paused, None))
          case Some(c) =>
            if !ValidLegacyClaim(name, cursor, c) then None
            else Some(DoorState(frontier, fires, paused, Some(Claim(frontier, Unbound(c.files), c.key, Some(cursor)))))
  }

  /** For a cursor frontier, the old comparison and the new test agree on every file. */
  lemma CursorFrontierExact(cursor: Cursor, file: FileOrder)
    ensures IsNew(file, Frontier(cursor.mtime, [], Some(cursor.path)))
            <==> CompareFile(file, FileOrder(cursor.mtime, cursor.path)) > 0
  {
    if Less(cursor.path, file.path) { LessAsymmetric(cursor.path, file.path); }
  }

  /** Migration changes neither which files are new nor whether the result can be read back. */
  lemma MigrationKeepsNovelty(name: string, raw: LegacyState, file: FileOrder)
    requires MigrateLegacyState(name, raw).Some?
    ensures IsNew(file, MigrateLegacyState(name, raw).value.frontier) <==> LegacyNew(raw, file)
    ensures AcceptsState(name, MigrateLegacyState(name, raw).value)
  {
    var s := MigrateLegacyState(name, raw).value;
    match raw
    case HighWater(_, _, _) =>
    case Cursored(cursor, _, _, claim) =>
      CursorFrontierExact(cursor, file);
      if claim.Some? {
        var files := s.claim.value.files;
        assert Orders(files) == claim.value.files;
        forall f | f in files
          ensures f.order in claim.value.files && ValidLegacyClaimFile(f)
        {
        }
      }
  }

  /** Whether an older state is one its own version could have written. */
  predicate Readable(name: string, raw: LegacyState) {
    && (forall time :: time in raw.fires ==> time >= 0)
    && match raw
       case HighWater(hwm, _, _) => hwm + 1 < INFINITY
       case Cursored(cursor, _, _, claim) => ValidCursor(cursor) && (claim.Some? ==> ValidLegacyClaim(name, cursor, claim.value))
  }

  /**
   * Migration succeeds exactly on readable states. It carries over fires and pause, and a
   * pending claim with its files, its key and the cursor it was made under, contents unknown.
   */
  lemma MigrationCarriesOver(name: string, raw: LegacyState)
    ensures MigrateLegacyState(name, raw).Some? <==> Readable(name, raw)
    ensures MigrateLegacyState(name, raw).Some? ==>
              var s := MigrateLegacyState(name, raw).value;
              && s.fires == raw.fires && s.paused == raw.paused
              && (s.claim.Some? <==> raw.Cursored? && raw.claim.Some?)
              && (s.claim.Some? ==>
                    && Orders(s.claim.value.files) == raw.claim.value.files && s.claim.value.key == raw.claim.value.key
                    && s.claim.value.legacyCursor == Some(raw.cursor)
                    && forall f :: f in s.claim.value.files ==> f.identity.None?)
  {
    var migrated := MigrateLegacyState(name, raw);
    if migrated.Some? && migrated.value.claim.Some? {
      assert Orders(migrated.value.claim.value.files) == raw.claim.value.files;
    }
  }
}
