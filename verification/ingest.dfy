/**
 The declarative reading of one processing pass over the buffer: remove the
 shortest complete object at the head, record it unless an equal record is
 stored, and repeat until no prefix ending in `}` parses.
 */
module Ingest {

  import opened Wrappers
  import opened JsonValue
  import opened Scanner
  import opened TweetStore

  /** The outcome of a pass: the text left in the buffer, the store after it,
      the records announced to the delegate, the prefixes removed from the
      buffer and the records they parsed to, all in order. */
  datatype Pass = Pass(
    rest: string,
    store: seq<Json>,
    notified: seq<Json>,
    consumed: seq<string>,
    parsed: seq<Json>)

  /** The removed prefixes, put back together. */
  function Concat(pieces: seq<string>): string
    decreases |pieces|
  {
    if pieces == [] then [] else pieces[0] + Concat(pieces[1..])
  }

  lemma ConcatAssoc<T>(a: seq<T>, b: seq<T>, c: seq<T>)
    ensures a + (b + c) == (a + b) + c
  {
  }

  /** The pass over `buf` with `store` as the stored records. */
  function Drain(parse: Parser, buf: string, store: seq<Json>): (r: Pass)
    ensures Concat(r.consumed) + r.rest == buf
    ensures NoCompletePrefix(parse, r.rest)
    ensures r.store == store + r.notified
    decreases |buf|
  {
    match FirstComplete(parse, buf, 0)
    case None => Pass(buf, store, [], [], [])
    case Some(p) =>
      var piece := buf[..p + 1];
      var x := parse(piece).value;
      var novel := Novel(store, x);
      var tail := Drain(parse, buf[p + 1..], store + novel);
      var consumed := [piece] + tail.consumed;
      assert consumed[0] == piece && consumed[1..] == tail.consumed;
      assert Concat(consumed) + tail.rest == piece + (Concat(tail.consumed) + tail.rest);
      assert piece + buf[p + 1..] == buf;
      assert tail.store == store + (novel + tail.notified);
      Pass(tail.rest, tail.store, novel + tail.notified, consumed, [x] + tail.parsed)
  }

  /** One step of the pass: the shortest complete object at the head is
      removed, its record offered to the store, and the pass goes on over what
      follows it. A record already stored is removed from the text all the
      same and leaves the store as it was. */
  lemma DrainStep(parse: Parser, buf: string, store: seq<Json>, p: nat)
    requires FirstComplete(parse, buf, 0) == Some(p)
    ensures parse(buf[..p + 1]).Some?
    ensures var x := parse(buf[..p + 1]).value;
      var tail := Drain(parse, buf[p + 1..], store + Novel(store, x));
      Drain(parse, buf, store)
        == Pass(tail.rest, tail.store, Novel(store, x) + tail.notified,
                [buf[..p + 1]] + tail.consumed, [x] + tail.parsed)
  {
  }

  /** A pass over text with no complete object at its head removes nothing
      and announces nothing. */
  lemma DrainDone(parse: Parser, buf: string, store: seq<Json>)
    requires FirstComplete(parse, buf, 0) == None
    ensures Drain(parse, buf, store) == Pass(buf, store, [], [], [])
  {
  }

  /** Every removed prefix is a shortest complete object, and the record it
      parsed to is the one the pass recorded for it. */
  lemma {:induction false} DrainConsumesObjects(parse: Parser, buf: string, store: seq<Json>)
    ensures var r := Drain(parse, buf, store);
      && |r.parsed| == |r.consumed|
      && forall i :: 0 <= i < |r.consumed| ==>
           ShortestObject(parse, r.consumed[i]) && parse(r.consumed[i]) == Some(r.parsed[i])
    decreases |buf|
  {
    match FirstComplete(parse, buf, 0)
    case None =>
    case Some(p) =>
      FirstCompleteIsShortest(parse, buf);
      var x := parse(buf[..p + 1]).value;
      DrainConsumesObjects(parse, buf[p + 1..], store + Novel(store, x));
  }

  /** The store after the pass is the old store with the parsed records added
      one by one, duplicates suppressed; it stays duplicate-free, and the
      records announced are exactly those not stored before. */
  lemma {:induction false} DrainStoresParsed(parse: Parser, buf: string, store: seq<Json>)
    ensures var r := Drain(parse, buf, store);
      && r.store == AddAll(store, r.parsed)
      && (NoDup(store) ==> NoDup(r.store))
      && forall x :: x in r.notified ==> x !in store
    decreases |buf|
  {
    match FirstComplete(parse, buf, 0)
    case None =>
    case Some(p) =>
      var r := Drain(parse, buf, store);
      var x := parse(buf[..p + 1]).value;
      var added := store + Novel(store, x);
      assert added == Add(store, x);
      var tail := Drain(parse, buf[p + 1..], added);
      DrainStoresParsed(parse, buf[p + 1..], added);
      assert r.parsed == [x] + tail.parsed;
      assert AddAll(store, r.parsed) == AddAll(added, tail.parsed);
      forall y | y in r.notified
        ensures y !in store
      {
        if y !in tail.notified {
          assert x !in store && y == x;
        } else {
          assert y !in added;
        }
      }
  }

  /** Which prefixes a pass removes, and what they parse to, depends only on
      the text: a prefix whose record is already stored is removed all the
      same, only the store and the announcements differ. */
  lemma {:induction false} DrainSplitIgnoresStore(parse: Parser, buf: string, s1: seq<Json>, s2: seq<Json>)
    ensures Drain(parse, buf, s1).rest == Drain(parse, buf, s2).rest
    ensures Drain(parse, buf, s1).consumed == Drain(parse, buf, s2).consumed
    ensures Drain(parse, buf, s1).parsed == Drain(parse, buf, s2).parsed
    decreases |buf|
  {
    match FirstComplete(parse, buf, 0)
    case None =>
    case Some(p) =>
      var x := parse(buf[..p + 1]).value;
      DrainSplitIgnoresStore(parse, buf[p + 1..], s1 + Novel(s1, x), s2 + Novel(s2, x));
  }

  /** A pass over `buf + t` is the pass over `buf` followed by a pass over
      what it left behind with `t` appended. */
  lemma {:induction false} DrainAppend(parse: Parser, buf: string, t: string, store: seq<Json>)
    ensures var d := Drain(parse, buf, store);
      var e := Drain(parse, d.rest + t, d.store);
      var whole := Drain(parse, buf + t, store);
      && whole.rest == e.rest
      && whole.store == e.store
      && whole.notified == d.notified + e.notified
      && whole.consumed == d.consumed + e.consumed
      && whole.parsed == d.parsed + e.parsed
    decreases |buf|
  {
    match FirstComplete(parse, buf, 0)
    case None =>
    case Some(p) =>
      FirstCompleteStable(parse, buf, t);
      var piece := buf[..p + 1];
      var x := parse(piece).value;
      var added := store + Novel(store, x);
      assert (buf + t)[..p + 1] == piece;
      assert (buf + t)[p + 1..] == buf[p + 1..] + t;
      var tail := Drain(parse, buf[p + 1..], added);
      var later := Drain(parse, buf[p + 1..] + t, added);
      var e := Drain(parse, tail.rest + t, tail.store);
      DrainAppend(parse, buf[p + 1..], t, added);
      var whole := Drain(parse, buf + t, store);
      assert whole == Pass(later.rest, later.store, Novel(store, x) + later.notified,
                           [piece] + later.consumed, [x] + later.parsed);
      ConcatAssoc(Novel(store, x), tail.notified, e.notified);
      ConcatAssoc([piece], tail.consumed, e.consumed);
      ConcatAssoc([x], tail.parsed, e.parsed);
  }

}
