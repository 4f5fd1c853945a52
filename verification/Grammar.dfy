/**
 * What an envelope value looks like, as a tree: an object holds plain characters, quoted
 * strings and further objects. The scanner of `Segments` finds the end of exactly these.
 */
module Grammar {
  import opened Wrappers
  import opened Segments

  /** One character of a string, or an escaped one. */
  datatype Unit = Raw(c: char) | Escape(c: char)

  datatype Item = Bare(c: char) | Quoted(units: seq<Unit>) | Object(items: Items)

  datatype Items = Nil | Cons(head: Item, tail: Items)

  function UnitChars(units: seq<Unit>): string {
    if units == [] then []
    else (match units[0] case Raw(c) => [c] case Escape(c) => ['\\', c]) + UnitChars(units[1..])
  }

  function Chars(item: Item): string {
    match item
    case Bare(c) => [c]
    case Quoted(units) => ['"'] + UnitChars(units) + ['"']
    case Object(items) => ['{'] + AllChars(items) + ['}']
  }

  function AllChars(items: Items): string {
    match items
    case Nil => []
    case Cons(head, tail) => Chars(head) + AllChars(tail)
  }

  /** Quotes, braces and, in strings, backslashes stand for themselves only where they belong. */
  predicate Proper(item: Item) {
    match item
    case Bare(c) => c !in {'"', '{', '}'}
    case Quoted(units) => forall i :: 0 <= i < |units| && units[i].Raw? ==> units[i].c !in {'"', '\\'}
    case Object(items) => AllProper(items)
  }

  predicate AllProper(items: Items) {
    match items
    case Nil => true
    case Cons(head, tail) => Proper(head) && AllProper(tail)
  }

  function Later(n: nat, end: Option<nat>): Option<nat> {
    match end
    case None => None
    case Some(k) => Some(k + n)
  }

  // ----- every such object is complete

  lemma {:induction false} StringCloses(units: seq<Unit>, rest: string, depth: nat)
    requires depth > 0 && Proper(Quoted(units))
    ensures Closing(UnitChars(units) + ['"'] + rest, depth, InString) == Later(|UnitChars(units)| + 1, Closing(rest, depth, Plain))
  {
    var s := UnitChars(units) + ['"'] + rest;
    if units == [] {
      assert s == ['"'] + rest && s[1..] == rest;
    } else {
      var t := UnitChars(units[1..]) + ['"'] + rest;
      assert Proper(Quoted(units[1..])) by { assert forall i :: 0 <= i < |units[1..]| ==> units[1..][i] == units[i + 1]; }
      StringCloses(units[1..], rest, depth);
      match units[0]
      case Raw(c) =>
        assert s == [c] + t && s[1..] == t;
      case Escape(c) =>
        assert s == ['\\', c] + t && s[1..] == [c] + t && s[1..][1..] == t;
    }
  }

  lemma {:induction false} ItemCloses(item: Item, rest: string, depth: nat)
    requires depth > 0 && Proper(item)
    ensures Closing(Chars(item) + rest, depth, Plain) == Later(|Chars(item)|, Closing(rest, depth, Plain))
    decreases item
  {
    var s := Chars(item) + rest;
    match item
    case Bare(c) =>
      assert s[1..] == rest;
    case Quoted(units) =>
      assert s[1..] == UnitChars(units) + ['"'] + rest;
      StringCloses(units, rest, depth);
    case Object(items) =>
      assert s[1..] == AllChars(items) + (['}'] + rest);
      AllClose(items, ['}'] + rest, depth + 1);
      assert (['}'] + rest)[1..] == rest;
  }

  lemma {:induction false} AllClose(items: Items, rest: string, depth: nat)
    requires depth > 0 && AllProper(items)
    ensures Closing(AllChars(items) + rest, depth, Plain) == Later(|AllChars(items)|, Closing(rest, depth, Plain))
    decreases items
  {
    match items
    case Nil =>
      assert AllChars(items) + rest == rest;
    case Cons(head, tail) =>
      assert AllChars(items) + rest == Chars(head) + (AllChars(tail) + rest);
      ItemCloses(head, AllChars(tail) + rest, depth);
      AllClose(tail, rest, depth);
  }

  lemma BraceCloses()
    ensures Closing(['}'], 1, Plain) == Some(1)
  {
  }

  lemma ObjectIsComplete(items: Items)
    requires AllProper(items)
    ensures Complete(Chars(Object(items)))
  {
    var inner := AllChars(items) + ['}'];
    BraceCloses();
    AllClose(items, ['}'], 1);
    InBraces(inner);
    assert Chars(Object(items)) == ['{'] + inner;
  }

  lemma InBraces(inner: string)
    requires Closing(inner, 1, Plain) == Some(|inner|)
    ensures Complete(['{'] + inner)
  {
    assert (['{'] + inner)[1..] == inner;
  }

  // ----- every complete value is such an object

  /** The first `n` characters of what stands behind the first `k`. */
  lemma Behind(s: string, k: nat, m: nat)
    requires k + m < |s|
    ensures s[..k + m] == s[..k] + s[k..][..m] && s[k + m] == s[k..][m] && s[k..][m + 1..] == s[k + m + 1..]
  {
  }

  lemma UnitsInFront(u: Unit, units: seq<Unit>)
    ensures UnitChars([u] + units) == (match u case Raw(c) => [c] case Escape(c) => ['\\', c]) + UnitChars(units)
    ensures Proper(Quoted([u] + units)) <==> Proper(Quoted([u])) && Proper(Quoted(units))
  {
    assert ([u] + units)[1..] == units;
    assert forall i :: 0 <= i < |units| ==> ([u] + units)[i + 1] == units[i];
  }

  /** The scanner inside a string, one character on. */
  lemma StringStep(s: string, depth: nat)
    requires depth > 0 && s != [] && s[0] != '"' && Closing(s, depth, InString).Some?
    ensures s[0] != '\\' ==> Closing(s, depth, InString) == Later(1, Closing(s[1..], depth, InString))
    ensures s[0] == '\\' ==> |s| >= 2 && Closing(s, depth, InString) == Later(2, Closing(s[2..], depth, InString))
  {
    if s[0] == '\\' {
      assert Closing(s[1..], depth, Escaped).Some?;
      assert s[1..][1..] == s[2..];
    }
  }

  lemma ReadUnit(s: string, depth: nat) returns (u: Unit, k: nat)
    requires depth > 0 && s != [] && s[0] != '"' && Closing(s, depth, InString).Some?
    ensures 0 < k <= |s| && s[..k] == UnitChars([u]) && Proper(Quoted([u]))
    ensures Closing(s, depth, InString) == Later(k, Closing(s[k..], depth, InString)) && Closing(s[k..], depth, InString).Some?
  {
    StringStep(s, depth);
    k := if s[0] == '\\' then 2 else 1;
    u := if s[0] == '\\' then Escape(s[1]) else Raw(s[0]);
    UnitsInFront(u, []);
    assert [u] + [] == [u];
  }

  lemma {:induction false} ReadString(s: string, depth: nat) returns (units: seq<Unit>, m: nat)
    requires depth > 0 && Closing(s, depth, InString).Some?
    ensures Proper(Quoted(units)) && m < |s| && s[..m] == UnitChars(units) && s[m] == '"'
    ensures Closing(s, depth, InString) == Later(m + 1, Closing(s[m + 1..], depth, Plain))
    decreases |s|
  {
    if s[0] == '"' {
      units, m := [], 0;
    } else {
      var u, k := ReadUnit(s, depth);
      var rest, n := ReadString(s[k..], depth);
      UnitsInFront(u, rest);
      UnitsInFront(u, []);
      assert [u] + [] == [u];
      Behind(s, k, n);
      units, m := [u] + rest, k + n;
    }
  }

  /** A string that was read is one item. */
  lemma StringRead(s: string, depth: nat, units: seq<Unit>, k: nat)
    requires depth > 0 && s != [] && s[0] == '"' && k < |s| - 1 && s[1..][..k] == UnitChars(units) && s[1..][k] == '"'
    requires Closing(s[1..], depth, InString) == Later(k + 1, Closing(s[1..][k + 1..], depth, Plain))
    ensures s[..k + 2] == Chars(Quoted(units)) && Closing(s, depth, Plain) == Later(k + 2, Closing(s[k + 2..], depth, Plain))
  {
    Behind(s, 1, k);
    assert s[..k + 2] == [s[0]] + s[1..][..k] + [s[k + 1]];
  }

  /** An inner object that was read is one item. */
  lemma ObjectRead(s: string, depth: nat, inner: Items, k: nat)
    requires depth > 0 && s != [] && s[0] == '{' && k < |s| - 1 && s[1..][..k] == AllChars(inner) && s[1..][k] == '}'
    requires Closing(s[1..], depth + 1, Plain) == Later(k + 1, Closing(s[1..][k + 1..], depth, Plain))
    ensures s[..k + 2] == Chars(Object(inner)) && Closing(s, depth, Plain) == Later(k + 2, Closing(s[k + 2..], depth, Plain))
  {
    Behind(s, 1, k);
    assert s[..k + 2] == [s[0]] + s[1..][..k] + [s[k + 1]];
  }

  /** What stands before the closing brace, where that brace is, and what the scanner makes of the rest. */
  lemma {:induction false} ReadItems(s: string, depth: nat) returns (items: Items, m: nat)
    requires depth > 0 && Closing(s, depth, Plain).Some?
    ensures AllProper(items) && m < |s| && s[..m] == AllChars(items) && s[m] == '}'
    ensures Closing(s, depth, Plain) == if depth == 1 then Some(m + 1) else Later(m + 1, Closing(s[m + 1..], depth - 1, Plain))
    decreases |s|
  {
    if s[0] == '}' {
      items, m := Nil, 0;
    } else if s[0] == '"' {
      var units, k := ReadString(s[1..], depth);
      StringRead(s, depth, units, k);
      items, m := ReadOn(s, depth, Quoted(units), k + 2);
    } else if s[0] == '{' {
      var inner, k := ReadItems(s[1..], depth + 1);
      ObjectRead(s, depth, inner, k);
      items, m := ReadOn(s, depth, Object(inner), k + 2);
    } else {
      items, m := ReadOn(s, depth, Bare(s[0]), 1);
    }
  }

  /** One item has been read; the others follow. */
  lemma {:induction false} ReadOn(s: string, depth: nat, item: Item, n: nat) returns (items: Items, m: nat)
    requires depth > 0 && Closing(s, depth, Plain).Some? && Proper(item)
    requires 0 < n <= |s| && s[..n] == Chars(item)
    requires Closing(s, depth, Plain) == Later(n, Closing(s[n..], depth, Plain))
    ensures AllProper(items) && m < |s| && s[..m] == AllChars(items) && s[m] == '}'
    ensures Closing(s, depth, Plain) == if depth == 1 then Some(m + 1) else Later(m + 1, Closing(s[m + 1..], depth - 1, Plain))
    decreases |s|, 0
  {
    var rest, k := ReadItems(s[n..], depth);
    Behind(s, n, k);
    items, m := Cons(item, rest), n + k;
  }

  /** A value is complete exactly when it is an object of the grammar. */
  lemma CompleteIff(v: string)
    ensures Complete(v) <==> exists items :: AllProper(items) && v == Chars(Object(items))
  {
    if Complete(v) {
      var items, m := ReadItems(v[1..], 1);
      assert v == ['{'] + v[1..][..m] + ['}'];
    }
    if items :| AllProper(items) && v == Chars(Object(items)) {
      ObjectIsComplete(items);
    }
  }
}
