/** String order as used by `<` and `sort()` on path strings, and relative path validity. */
module Paths {
  /** Lexicographic order on code units. */
  predicate Less(a: string, b: string) {
    b != [] && (a == [] || a[0] < b[0] || (a[0] == b[0] && Less(a[1..], b[1..])))
  }

  lemma {:induction false} LessIrreflexive(a: string)
    ensures !Less(a, a)
  {
    if a != [] { LessIrreflexive(a[1..]); }
  }

  lemma {:induction false} LessTransitive(a: string, b: string, c: string)
    requires Less(a, b) && Less(b, c)
    ensures Less(a, c)
  {
    if a != [] && a[0] == b[0] == c[0] { LessTransitive(a[1..], b[1..], c[1..]); }
  }

  lemma {:induction false} LessTotal(a: string, b: string)
    ensures Less(a, b) || a == b || Less(b, a)
  {
    if a != [] && b != [] && a[0] == b[0] {
      LessTotal(a[1..], b[1..]);
      assert a == [a[0]] + a[1..] && b == [b[0]] + b[1..];
    }
  }

  lemma LessAsymmetric(a: string, b: string)
    requires Less(a, b)
    ensures !Less(b, a)
  {
    if Less(b, a) {
      LessTransitive(a, b, a);
      LessIrreflexive(a);
    }
  }

  /** Strictly ascending, hence without duplicates. */
  ghost predicate Ascending(paths: seq<string>) {
    forall i, j :: 0 <= i < j < |paths| ==> Less(paths[i], paths[j])
  }

  /** A path put in its place among ascending paths, unless it is there. */
  function Inserted(paths: seq<string>, path: string): seq<string> {
    if paths == [] || Less(path, paths[0]) then [path] + paths
    else if path == paths[0] then paths
    else [paths[0]] + Inserted(paths[1..], path)
  }

  lemma {:induction false} InsertedAscends(paths: seq<string>, path: string)
    requires Ascending(paths)
    ensures Ascending(Inserted(paths, path))
    ensures forall p :: p in Inserted(paths, path) <==> p in paths || p == path
  {
    if paths != [] {
      assert paths == [paths[0]] + paths[1..];
      if Less(path, paths[0]) {
        forall p | p in paths[1..] ensures Less(path, p) {
          LessTransitive(path, paths[0], p);
        }
      } else if path != paths[0] {
        LessTotal(path, paths[0]);
        InsertedAscends(paths[1..], path);
        forall p | p in Inserted(paths[1..], path) ensures Less(paths[0], p) {
        }
      }
    }
  }

  /** `[...new Set(paths)].sort()`. */
  function SortedSet(paths: seq<string>): seq<string> {
    if paths == [] then [] else Inserted(SortedSet(paths[1..]), paths[0])
  }

  lemma {:induction false} SortedSetIsExact(paths: seq<string>)
    ensures Ascending(SortedSet(paths))
    ensures forall p :: p in SortedSet(paths) <==> p in paths
  {
    if paths != [] {
      SortedSetIsExact(paths[1..]);
      InsertedAscends(SortedSet(paths[1..]), paths[0]);
      assert paths == [paths[0]] + paths[1..];
    }
  }

  /** The segments between slashes. */
  function Segments(path: string): seq<string> {
    if path == [] then [""]
    else
      var rest := Segments(path[1..]);
      if path[0] == '/' then [""] + rest
      else if rest == [] then [[path[0]]]
      else [[path[0]] + rest[0]] + rest[1..]
  }

  predicate ValidRelativePath(path: string) {
    && path != "" && path[0] != '/' && '\\' !in path && '\0' !in path
    && forall segment :: segment in Segments(path) ==> segment != "" && segment != "." && segment != ".."
  }
}
