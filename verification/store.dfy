/**
 The ordered, duplicate-free record store (an `NSMutableOrderedSet` of
 decoded objects): records are appended in arrival order, a record equal to
 one already held is ignored, nothing is removed except by a reset.
 */
module TweetStore {

  import opened JsonValue

  /** No two positions of `s` hold equal records. */
  predicate NoDup(s: seq<Json>)
  {
    forall i, j :: 0 <= i < j < |s| ==> s[i] != s[j]
  }

  /** `a` is a prefix of `b`: `b` only appended to `a`. */
  predicate IsPrefix(a: seq<Json>, b: seq<Json>)
  {
    |a| <= |b| && b[..|a|] == a
  }

  /** What offering `x` to the store appends (and announces): `x` itself
      unless an equal record is already stored. */
  function Novel(store: seq<Json>, x: Json): seq<Json>
  {
    if x in store then [] else [x]
  }

  /** The ordered set's `add` after the `contains` test. */
  function Add(store: seq<Json>, x: Json): (r: seq<Json>)
    ensures x in r
    ensures IsPrefix(store, r)
    ensures |r| == if x in store then |store| else |store| + 1
    ensures NoDup(store) ==> NoDup(r)
  {
    store + Novel(store, x)
  }

  /** The records of `xs` added one after the other, in order. */
  function AddAll(store: seq<Json>, xs: seq<Json>): (r: seq<Json>)
    ensures IsPrefix(store, r)
    ensures NoDup(store) ==> NoDup(r)
    ensures forall x :: x in xs ==> x in r
    ensures forall x :: x in r ==> x in store || x in xs
    decreases |xs|
  {
    if xs == [] then store
    else
      var r := AddAll(Add(store, xs[0]), xs[1..]);
      assert forall x :: x in xs ==> x == xs[0] || x in xs[1..];
      r
  }

  /** Adding `xs + ys` is adding `xs` and then `ys`: records are appended in
      the order they are offered. */
  lemma {:induction false} AddAllConcat(store: seq<Json>, xs: seq<Json>, ys: seq<Json>)
    ensures AddAll(store, xs + ys) == AddAll(AddAll(store, xs), ys)
    decreases |xs|
  {
    if xs == [] {
      assert xs + ys == ys;
    } else {
      assert (xs + ys)[0] == xs[0];
      assert (xs + ys)[1..] == xs[1..] + ys;
      AddAllConcat(Add(store, xs[0]), xs[1..], ys);
    }
  }

  /** Adding records that are all already stored changes nothing. */
  lemma {:induction false} AddAllKnown(store: seq<Json>, xs: seq<Json>)
    requires forall x :: x in xs ==> x in store
    ensures AddAll(store, xs) == store
    decreases |xs|
  {
    if xs != [] {
      assert xs[0] in xs;
      assert forall x :: x in xs[1..] ==> x in xs;
      AddAllKnown(store, xs[1..]);
    }
  }

  /** Reverse of a sequence, by its standard recursive definition. */
  function Reverse(s: seq<Json>): (r: seq<Json>)
    ensures |r| == |s|
    decreases |s|
  {
    if s == [] then [] else [s[|s| - 1]] + Reverse(s[..|s| - 1])
  }

  /** Indexing the reverse from the front is indexing `s` from the back. */
  lemma {:induction false} ReverseIndex(s: seq<Json>, i: int)
    requires 0 <= i < |s|
    ensures Reverse(s)[i] == s[|s| - 1 - i]
    decreases |s|
  {
    if i > 0 {
      ReverseIndex(s[..|s| - 1], i - 1);
    }
  }

  /** Reversing a concatenation reverses the order of the parts. */
  lemma {:induction false} ReverseConcat(a: seq<Json>, b: seq<Json>)
    ensures Reverse(a + b) == Reverse(b) + Reverse(a)
    decreases |b|
  {
    if b == [] {
      assert a + b == a;
    } else {
      var front := b[..|b| - 1];
      assert (a + b)[..|a + b| - 1] == a + front;
      assert (a + b)[|a + b| - 1] == b[|b| - 1];
      ReverseConcat(a, front);
    }
  }

}
