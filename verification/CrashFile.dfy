/**
 * The file primitives below every protocol here: replacing a file through a temporary
 * one, with or without syncs, and making a directory path durable. Unsynced bytes may
 * be cut short by a power loss, and an unsynced directory entry may be the old one.
 */
module CrashFile {
  import opened Wrappers

  datatype Durability = Rename | Fsync

  datatype Inode = Inode(bytes: string, synced: bool)

  /** One path: the files it ever named, the entry readers see, and the entry last synced. */
  datatype Disk = Disk(inodes: seq<Inode>, name: Option<nat>, durableName: Option<nat>)

  predicate ValidDisk(d: Disk) {
    && (d.name.Some? ==> d.name.value < |d.inodes|)
    && (d.durableName.Some? ==> d.durableName.value < |d.inodes|)
  }

  /** What a reader finds. */
  function Seen(d: Disk): Option<string>
    requires ValidDisk(d)
  {
    if d.name.Some? then Some(d.inodes[d.name.value].bytes) else None
  }

  /** What may be left of one directory entry after a power loss. */
  predicate Survives(inodes: seq<Inode>, entry: Option<nat>, content: Option<string>)
    requires entry.Some? ==> entry.value < |inodes|
  {
    match entry
    case None => content == None
    case Some(i) =>
      content.Some? && if inodes[i].synced then content.value == inodes[i].bytes else content.value <= inodes[i].bytes
  }

  /** What the path may hold after a power loss now. */
  predicate MayRemain(d: Disk, content: Option<string>)
    requires ValidDisk(d)
  {
    Survives(d.inodes, d.name, content) || Survives(d.inodes, d.durableName, content)
  }

  /** Nothing but one whole content can be left. */
  ghost predicate Settled(d: Disk, content: Option<string>)
    requires ValidDisk(d)
  {
    forall c :: MayRemain(d, c) <==> c == content
  }

  /** A file that was never made stays absent, and one whose bytes and entry were synced stays whole. */
  lemma SyncedStays(d: Disk)
    requires ValidDisk(d) && d.name == d.durableName
    ensures d.name.None? ==> Settled(d, None)
    ensures d.name.Some? && d.inodes[d.name.value].synced ==> Settled(d, Some(d.inodes[d.name.value].bytes))
    ensures d.name.Some? && !d.inodes[d.name.value].synced ==>
              forall c :: MayRemain(d, c) <==> c.Some? && c.value <= d.inodes[d.name.value].bytes
  {
  }

  /** How far a call gets before it fails or the machine stops. */
  datatype Stop = AtCreate | AtWrite(written: nat) | AtSync | AtRename | AtDirSync | Never

  class Path {
    var inodes: seq<Inode>
    var name: Option<nat>
    var durableName: Option<nat>

    function Now(): Disk
      reads this
    {
      Disk(inodes, name, durableName)
    }

    /** `replace_file`: write a temporary file, sync it, rename it, sync the directory. */
    method ReplaceFile(bytes: string, durability: Durability, stop: Stop) returns (ok: bool)
      requires ValidDisk(Now())
      modifies this
      ensures ValidDisk(Now())
      ensures Seen(Now()) == if ok || stop.AtDirSync? then Some(bytes) else old(Seen(Now()))
      ensures durability.Fsync? ==> ok == stop.Never?
      ensures durability.Fsync? ==> forall c :: MayRemain(Now(), c) ==> old(MayRemain(Now(), c)) || c == Some(bytes)
      ensures !ok && !stop.AtDirSync? ==> forall c :: MayRemain(Now(), c) <==> MayRemain(old(Now()), c)
      ensures durability.Fsync? && ok ==> Settled(Now(), Some(bytes))
      ensures durability.Rename? && ok ==>
                forall c :: MayRemain(Now(), c) <==>
                  (c.Some? && c.value <= bytes) || old(Survives(inodes, durableName, c))
    {
      if stop.AtCreate? { return false; }
      ghost var before := inodes;
      var tmp := |inodes|;
      var cut := if stop.AtWrite? && stop.written < |bytes| then stop.written else |bytes|;
      inodes := inodes + [Inode(bytes[..cut], false)];
      assert forall i :: 0 <= i < |before| ==> inodes[i] == before[i];
      if stop.AtWrite? { return false; }
      assert bytes[..cut] == bytes;
      if durability.Fsync? {
        if stop.AtSync? { return false; }
        inodes := inodes[tmp := Inode(bytes, true)];
      }
      if stop.AtRename? { return false; }
      name := Some(tmp);
      if durability.Fsync? {
        if stop.AtDirSync? { return false; }
        durableName := name;
      }
      return true;
    }
  }

  /** A replacement without syncs leaves even a settled file open to truncation. */
  lemma RenameMayTear(d: Disk, bytes: string, e: Disk)
    requires ValidDisk(d) && bytes != []
    requires e == Disk(d.inodes + [Inode(bytes, false)], Some(|d.inodes|), d.durableName)
    ensures Seen(e) == Some(bytes) && MayRemain(e, Some([])) && MayRemain(e, Some(bytes))
    ensures forall whole :: !Settled(e, whole)
  {
    assert MayRemain(e, Some([])) && MayRemain(e, Some(bytes)) && Some([]) != Some(bytes);
  }

  // ----- directories

  datatype Kind = Directory | OtherFile | Missing

  /** The prefixes of one path: what stands there, and whether its entry was synced since it was made. */
  class Ancestors {
    var kinds: seq<Kind>
    var synced: seq<bool>

    ghost predicate Valid()
      reads this
    {
      && |kinds| == |synced| > 0
      && forall k :: 0 < k < |kinds| && kinds[k].Directory? ==> kinds[k - 1].Directory?
    }

    /** `ensure_dir_durable`: walk up to a directory, then create downwards, syncing each one and its parent. */
    method EnsureDirDurable(creations: nat) returns (ok: bool)
      requires Valid()
      modifies this
      ensures |kinds| == |synced| == |old(kinds)|
      ensures ok ==> forall k :: 0 <= k < |kinds| ==> kinds[k].Directory? && (old(kinds)[k].Missing? ==> synced[k])
      ensures forall k :: 0 <= k < |kinds| && !old(kinds)[k].Missing? ==> kinds[k] == old(kinds)[k] && synced[k] == old(synced)[k]
      ensures ok ==> forall k :: 0 <= k < |kinds| ==> !old(kinds)[k].OtherFile?
      ensures creations >= |kinds| && (exists k :: 0 <= k < |kinds| && old(kinds)[k].Directory? && forall j :: k < j < |kinds| ==> old(kinds)[j].Missing?) ==> ok
    {
      var cursor := |kinds| - 1;
      while kinds[cursor].Missing?
        invariant 0 <= cursor < |kinds| && kinds == old(kinds) && synced == old(synced)
        invariant forall k :: cursor < k < |kinds| ==> kinds[k].Missing?
        decreases cursor
      {
        if cursor == 0 { return false; }
        cursor := cursor - 1;
      }
      if kinds[cursor].OtherFile? { return false; }
      DirectoriesAbove(cursor);
      var next := cursor + 1;
      while next < |kinds|
        invariant cursor < next <= |kinds| == |synced| && |kinds| == |old(kinds)|
        invariant forall k :: 0 <= k < next ==> kinds[k].Directory? && (old(kinds)[k].Missing? ==> synced[k])
        invariant forall k :: 0 <= k <= cursor ==> kinds[k] == old(kinds)[k] && synced[k] == old(synced)[k]
        invariant forall k :: next <= k < |kinds| ==> kinds[k] == old(kinds)[k]
      {
        if next > creations { return false; }
        kinds := kinds[next := Directory];
        synced := synced[next := true];
        next := next + 1;
      }
      return true;
    }

    lemma {:induction false} DirectoriesAbove(k: nat)
      requires Valid() && k < |kinds| && kinds[k].Directory?
      ensures forall j :: 0 <= j <= k ==> kinds[j].Directory?
    {
      if k > 0 { DirectoriesAbove(k - 1); }
    }
  }
}
