/**
 The boundary scanner: where the closing brace of a candidate slice is, and
 which prefixes of the buffer are complete objects.
 */
module Scanner {

  import opened Wrappers
  import opened JsonValue

  /** The first `}` at or after `from`, the `range(of: "}")` search over the
      range that starts at `from` and runs to the end of the text. `None`
      stands for `NSNotFound`. */
  function IndexOfBrace(s: string, from: nat): (r: Option<nat>)
    ensures r.Some? ==> from <= r.value < |s| && s[r.value] == '}'
    ensures r.Some? ==> forall k :: from <= k < r.value ==> s[k] != '}'
    ensures r.None? ==> forall k :: from <= k < |s| ==> s[k] != '}'
    decreases |s| - from
  {
    if from >= |s| then None
    else if s[from] == '}' then Some(from)
    else IndexOfBrace(s, from + 1)
  }

  /** The candidate slice of `s` that ends at the brace at `q` parses. */
  predicate Completes(parse: Parser, s: string, q: int)
  {
    0 <= q < |s| && s[q] == '}' && parse(s[..q + 1]).Some?
  }

  /** No prefix of `s` that ends in `}` parses: what a pass leaves behind. */
  predicate NoCompletePrefix(parse: Parser, s: string)
  {
    forall q :: 0 <= q < |s| ==> !Completes(parse, s, q)
  }

  /** `piece` is the shortest complete object at the head of some text: it
      ends in `}`, parses, and no shorter prefix of it that ends in `}` does. */
  predicate ShortestObject(parse: Parser, piece: string)
  {
    && |piece| > 0
    && Completes(parse, piece, |piece| - 1)
    && forall q :: 0 <= q < |piece| - 1 ==> !Completes(parse, piece, q)
  }

  /** The position of the first brace at or after `from` whose candidate slice
      parses: the declarative reading of the scan. */
  function FirstComplete(parse: Parser, s: string, from: nat): (r: Option<nat>)
    ensures r.Some? ==> from <= r.value && Completes(parse, s, r.value)
    ensures r.Some? ==> forall q :: from <= q < r.value ==> !Completes(parse, s, q)
    ensures r.None? ==> forall q :: from <= q < |s| ==> !Completes(parse, s, q)
    decreases |s| - from
  {
    if from >= |s| then None
    else if s[from] == '}' && parse(s[..from + 1]).Some? then Some(from)
    else FirstComplete(parse, s, from + 1)
  }

  /** The first complete brace is found by checking, left to right, every
      brace of the text. */
  lemma FirstCompleteAt(parse: Parser, s: string, from: nat, p: nat)
    requires Completes(parse, s, p)
    requires forall q :: 0 <= q < from ==> !Completes(parse, s, q)
    requires from <= p && forall k :: from <= k < p ==> s[k] != '}'
    ensures FirstComplete(parse, s, 0) == Some(p)
  {
  }

  /** A brace whose candidate slice fails to parse, found after ruling out
      every earlier candidate, extends the ruled-out range past itself. */
  lemma SkipFailedBrace(parse: Parser, s: string, from: nat, p: nat)
    requires p < |s| && parse(s[..p + 1]).None?
    requires forall q :: 0 <= q < from ==> !Completes(parse, s, q)
    requires from <= p && forall k :: from <= k < p ==> s[k] != '}'
    ensures forall q :: 0 <= q < p + 1 ==> !Completes(parse, s, q)
  {
  }

  /** With every candidate before `from` ruled out and no brace at or after
      it, no prefix of the text completes. */
  lemma NoBraceLeft(parse: Parser, s: string, from: nat)
    requires forall q :: 0 <= q < from ==> !Completes(parse, s, q)
    requires forall k :: from <= k < |s| ==> s[k] != '}'
    ensures NoCompletePrefix(parse, s)
  {
  }

  /** When a lone brace does not parse, position 0 never completes. */
  lemma NotCompleteAtStart(parse: Parser, s: string)
    requires RejectsLoneBrace(parse)
    ensures !Completes(parse, s, 0)
  {
    if 0 < |s| && s[0] == '}' {
      assert s[..1] == ['}'];
    }
  }

  /** A prefix of `s + t` that ends inside `s` is a prefix of `s`. */
  lemma CompletesOnPrefix(parse: Parser, s: string, t: string, q: int)
    requires 0 <= q < |s|
    ensures Completes(parse, s + t, q) <==> Completes(parse, s, q)
  {
    assert (s + t)[..q + 1] == s[..q + 1];
  }

  /** Appending text never changes the first complete object already present:
      the shortest complete prefix of `s` is also that of `s + t`. */
  lemma FirstCompleteStable(parse: Parser, s: string, t: string)
    requires FirstComplete(parse, s, 0).Some?
    ensures FirstComplete(parse, s + t, 0) == FirstComplete(parse, s, 0)
  {
    var p := FirstComplete(parse, s, 0).value;
    CompletesOnPrefix(parse, s, t, p);
    var r := FirstComplete(parse, s + t, 0);
    assert r.Some?;
    if r.value < p {
      CompletesOnPrefix(parse, s, t, r.value);
    }
  }

  /** The head of `s` up to its first complete brace is a shortest object. */
  lemma FirstCompleteIsShortest(parse: Parser, s: string)
    requires FirstComplete(parse, s, 0).Some?
    ensures ShortestObject(parse, s[..FirstComplete(parse, s, 0).value + 1])
  {
    var p := FirstComplete(parse, s, 0).value;
    var piece := s[..p + 1];
    assert s == piece + s[p + 1..];
    CompletesOnPrefix(parse, piece, s[p + 1..], p);
    forall q | 0 <= q < |piece| - 1
      ensures !Completes(parse, piece, q)
    {
      CompletesOnPrefix(parse, piece, s[p + 1..], q);
    }
  }

}
