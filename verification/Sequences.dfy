// Facts about sequences that every part of the model uses.
module Sequences {

  // The parts one after the other.
  function Concat<T>(parts: seq<seq<T>>): seq<T> {
    if parts == [] then [] else parts[0] + Concat(parts[1..])
  }

  // The index of the first element that has p, or the length.
  function FirstIndex<T>(s: seq<T>, p: T -> bool): (i: nat)
    ensures i <= |s| && (i < |s| ==> p(s[i]))
    ensures forall k :: 0 <= k < i ==> !p(s[k])
  {
    if s == [] || p(s[0]) then 0 else FirstIndex(s[1..], p) + 1
  }

  lemma Assoc<T>(a: seq<T>, b: seq<T>, c: seq<T>)
    ensures (a + b) + c == a + (b + c)
  {
  }

  lemma Regroup<T>(a: seq<T>, s: seq<T>, k: nat)
    requires k <= |s|
    ensures a + s == (a + s[..k]) + s[k..]
  {
  }

  lemma SamePrefix<T>(a: seq<T>, b: seq<T>, c: seq<T>)
    requires a + b == a + c
    ensures b == c
  {
    assert b == (a + b)[|a|..] && c == (a + c)[|a|..];
  }

  lemma ConcatStep<T>(a: seq<T>, parts: seq<seq<T>>)
    requires parts != []
    ensures a + Concat(parts) == (a + parts[0]) + Concat(parts[1..])
  {
  }

  lemma ConcatTake<T>(parts: seq<seq<T>>, k: nat)
    requires 0 < k <= |parts|
    ensures Concat(parts[..k]) == parts[0] + Concat(parts[1..][..k - 1])
    ensures parts[k..] == parts[1..][k - 1..]
  {
    assert parts[..k][1..] == parts[1..][..k - 1];
  }

  lemma {:induction false} ConcatAppend<T>(parts: seq<seq<T>>, part: seq<T>)
    ensures Concat(parts + [part]) == Concat(parts) + part
  {
    if parts == [] {
      assert [part][1..] == [];
    } else {
      assert (parts + [part])[1..] == parts[1..] + [part];
      ConcatAppend(parts[1..], part);
    }
  }

  lemma {:induction false} ConcatSplit<T>(parts: seq<seq<T>>, k: nat)
    requires k <= |parts|
    ensures Concat(parts) == Concat(parts[..k]) + Concat(parts[k..])
  {
    if k == 0 {
      assert parts[..0] == [] && parts[0..] == parts;
    } else {
      ConcatTake(parts, k);
      ConcatSplit(parts[1..], k - 1);
    }
  }
}
