/** Vocabulary shared by the other modules: optional values, results, letters, and first positions. */
module Basics {

  datatype Option<+T> = None | Some(value: T)

  datatype Result<+T, +E> = Ok(value: T) | Err(error: E)

  newtype byte = x: int | 0 <= x < 256

  predicate IsLetter(c: char)
  {
    'a' <= c <= 'z' || 'A' <= c <= 'Z'
  }

  function LowerChar(c: char): (r: char)
  {
    if 'A' <= c <= 'Z' then c + 32 as char else c
  }

  /** The first position of `x` in `s`, or |s| when there is none. */
  function IndexOf<T(==)>(s: seq<T>, x: T): (i: nat)
    ensures i <= |s|
    ensures i < |s| ==> s[i] == x
    ensures forall j :: 0 <= j < i ==> s[j] != x
  {
    if x in s then
      FirstExists(s, x);
      var i: nat :| i < |s| && s[i] == x && forall j :: 0 <= j < i ==> s[j] != x;
      i
    else |s|
  }

  lemma {:induction false} FirstExists<T>(s: seq<T>, x: T)
    requires x in s
    ensures exists i: nat :: i < |s| && s[i] == x && forall j :: 0 <= j < i ==> s[j] != x
  {
    var init := s[..|s| - 1];
    if x in init {
      FirstExists(init, x);
      var i: nat :| i < |init| && init[i] == x && forall j :: 0 <= j < i ==> init[j] != x;
      assert s[i] == x && forall j :: 0 <= j < i ==> s[j] == init[j];
    } else {
      assert forall j :: 0 <= j < |init| ==> s[j] == init[j];
      assert s[|s| - 1] == x;
    }
  }

  /** The first position is the only one with its two properties. */
  lemma IndexOfUnique<T>(s: seq<T>, x: T, i: nat)
    requires i <= |s|
    requires i < |s| ==> s[i] == x
    requires forall j :: 0 <= j < i ==> s[j] != x
    ensures IndexOf(s, x) == i
  {
  }

  /** A first position inside a prefix is a first position of the whole. */
  lemma IndexOfAppend<T>(a: seq<T>, b: seq<T>, x: T)
    ensures IndexOf(a, x) < |a| ==> IndexOf(a + b, x) == IndexOf(a, x)
    ensures IndexOf(a, x) == |a| ==> IndexOf(a + b, x) == |a| + IndexOf(b, x)
  {
    if IndexOf(a, x) < |a| {
      IndexOfUnique(a + b, x, IndexOf(a, x));
    } else {
      IndexOfUnique(a + b, x, |a| + IndexOf(b, x));
    }
  }

  lemma Assoc<T>(a: seq<T>, b: seq<T>, c: seq<T>)
    ensures a + (b + c) == a + b + c
  {
  }

  lemma Shift<T>(s: seq<T>, a: nat, b: nat)
    requires a + b <= |s|
    ensures s[a..][b..] == s[a + b..]
    ensures s[a..][..b] == s[a..a + b]
  {
  }

  function Flatten<T>(parts: seq<seq<T>>): (r: seq<T>)
  {
    if parts == [] then [] else parts[0] + Flatten(parts[1..])
  }

  lemma {:induction false} FlattenAppend<T>(a: seq<seq<T>>, b: seq<seq<T>>)
    ensures Flatten(a + b) == Flatten(a) + Flatten(b)
  {
    if a == [] {
      assert a + b == b;
    } else {
      assert (a + b)[1..] == a[1..] + b;
      FlattenAppend(a[1..], b);
    }
  }

  lemma FlattenSnoc<T>(parts: seq<seq<T>>, n: nat)
    requires n < |parts|
    ensures Flatten(parts[..n + 1]) == Flatten(parts[..n]) + parts[n]
  {
    assert parts[..n + 1] == parts[..n] + [parts[n]];
    FlattenAppend(parts[..n], [parts[n]]);
    assert Flatten([parts[n]]) == parts[n] + Flatten<T>([]);
  }
}
