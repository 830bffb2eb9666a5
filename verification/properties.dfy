/**
 Properties of the streaming model that relate several deliveries, or a
 delivery and the table that reads the store.
 */
module StreamingProperties {

  import opened Wrappers
  import opened JsonValue
  import opened Scanner
  import opened TweetStore
  import opened Ingest
  import opened StreamingModel

  /** What every state the model reaches satisfies: the store holds no two
      equal records and no prefix of the buffer ending in `}` parses. */
  predicate Settled(parse: Parser, m: Model)
  {
    NoDup(m.tweets) && NoCompletePrefix(parse, m.buffer)
  }

  lemma InitialSettled(parse: Parser)
    ensures Settled(parse, Initial())
  {
  }

  /** A delivery keeps the model settled. */
  lemma ReceiveKeepsSettled(parse: Parser, m: Model, chunk: string)
    requires Settled(parse, m)
    ensures Settled(parse, Receive(parse, m, chunk).next)
  {
    DrainStoresParsed(parse, m.buffer + chunk, m.tweets);
  }

  /** A fetch keeps the model settled. */
  lemma FetchKeepsSettled(parse: Parser, m: Model, text: Option<string>)
    requires Settled(parse, m)
    ensures Settled(parse, FetchStreamForText(m, text))
  {
  }

  /** On a settled model an empty chunk changes nothing and announces
      nothing. */
  lemma EmptyChunkChangesNothing(parse: Parser, m: Model)
    requires Settled(parse, m)
    ensures Receive(parse, m, []) == Step(m, [])
  {
    assert m.buffer + [] == m.buffer;
    DrainDone(parse, m.buffer, m.tweets);
  }

  /** Everything removed from the buffer during a delivery is a sequence of
      shortest complete objects which, put back in front of what is left,
      gives the old buffer followed by the chunk. */
  lemma ReceiveConservesText(parse: Parser, m: Model, chunk: string)
    ensures var d := Drain(parse, m.buffer + chunk, m.tweets);
      && Concat(d.consumed) + Receive(parse, m, chunk).next.buffer == m.buffer + chunk
      && forall i :: 0 <= i < |d.consumed| ==> ShortestObject(parse, d.consumed[i])
  {
    DrainConsumesObjects(parse, m.buffer + chunk, m.tweets);
  }

  /** Delivering `a + b` in one call gives the same state, and announces the
      same records in the same order, as delivering `a` and then `b`: every
      call rescans from the start and unconsumed text stays buffered. */
  lemma ReceiveSplit(parse: Parser, m: Model, a: string, b: string)
    ensures var s1 := Receive(parse, m, a);
      var s2 := Receive(parse, s1.next, b);
      Receive(parse, m, a + b) == Step(s2.next, s1.notified + s2.notified)
  {
    var d := Drain(parse, m.buffer + a, m.tweets);
    assert m.buffer + (a + b) == (m.buffer + a) + b;
    assert Receive(parse, m, a).next == m.(buffer := d.rest, tweets := d.store);
    DrainAppend(parse, m.buffer + a, b, m.tweets);
    assert (m.buffer + a) + b == m.buffer + (a + b);
  }

  /** Chunks delivered one after the other. */
  function ReceiveAll(parse: Parser, m: Model, chunks: seq<string>): (s: Step)
    ensures s.next.tweets == m.tweets + s.notified
    decreases |chunks|
  {
    if chunks == [] then Step(m, [])
    else
      var first := Receive(parse, m, chunks[0]);
      var others := ReceiveAll(parse, first.next, chunks[1..]);
      ConcatAssoc(m.tweets, first.notified, others.notified);
      Step(others.next, first.notified + others.notified)
  }

  /** Chunk boundaries do not matter: any split of a text into chunks gives
      the state and announcements of delivering the text in one call. */
  lemma {:induction false} ChunkingInvariance(parse: Parser, m: Model, chunks: seq<string>)
    requires |chunks| > 0
    ensures ReceiveAll(parse, m, chunks) == Receive(parse, m, Concat(chunks))
    decreases |chunks|
  {
    var first := Receive(parse, m, chunks[0]);
    if |chunks| == 1 {
      assert Concat(chunks) == chunks[0] + [];
      assert chunks[0] + [] == chunks[0];
      assert first.notified + [] == first.notified;
    } else {
      ChunkingInvariance(parse, first.next, chunks[1..]);
      ReceiveSplit(parse, m, chunks[0], Concat(chunks[1..]));
    }
  }

  /** A text that was consumed completely, delivered again, is consumed again
      without announcing anything or changing the store: every record it
      holds is already stored. */
  lemma ReplayIsSilent(parse: Parser, m: Model, chunk: string)
    requires m.buffer == []
    requires Receive(parse, m, chunk).next.buffer == []
    ensures var once := Receive(parse, m, chunk).next;
      Receive(parse, once, chunk) == Step(once, [])
  {
    var once := Receive(parse, m, chunk).next;
    assert m.buffer + chunk == chunk && once.buffer + chunk == chunk;
    var d1 := Drain(parse, chunk, m.tweets);
    var d2 := Drain(parse, chunk, once.tweets);
    DrainSplitIgnoresStore(parse, chunk, m.tweets, once.tweets);
    DrainStoresParsed(parse, chunk, m.tweets);
    DrainStoresParsed(parse, chunk, once.tweets);
    AddAllKnown(once.tweets, d2.parsed);
    assert once.tweets + d2.notified == once.tweets + [];
  }

  /** The table after the store grew by `novel`: the rows are `novel` newest
      first, followed by the rows that were there. */
  lemma RowsAfterGrowth(m: Model, m': Model, novel: seq<Json>)
    requires m'.tweets == m.tweets + novel
    ensures NumberOfTweets(m') == NumberOfTweets(m) + |novel|
    ensures Reverse(m'.tweets) == Reverse(novel) + Reverse(m.tweets)
    ensures |novel| > 0 ==> TweetAtIndex(m', 0) == Some(novel[|novel| - 1])
    ensures forall i :: 0 <= i < NumberOfTweets(m) ==>
              TweetAtIndex(m', i + |novel|) == TweetAtIndex(m, i)
  {
    ReverseConcat(m.tweets, novel);
    if |novel| > 0 {
      ReverseIndex(novel, 0);
    }
    forall i | 0 <= i < |m.tweets|
      ensures TweetAtIndex(m', i + |novel|) == TweetAtIndex(m, i)
    {
      assert Reverse(m'.tweets)[i + |novel|] == Reverse(m.tweets)[i];
    }
  }

  /** The table stays in step with the announcements: each announced record
      is a row inserted at the top, so the row count grows by the number of
      announcements, the rows are the announced records newest first followed
      by the rows that were there, and row 0 is the last record announced. */
  lemma RowsFollowNotifications(parse: Parser, m: Model, chunk: string)
    ensures var s := Receive(parse, m, chunk);
      && NumberOfTweets(s.next) == NumberOfTweets(m) + |s.notified|
      && Reverse(s.next.tweets) == Reverse(s.notified) + Reverse(m.tweets)
      && (|s.notified| > 0 ==> TweetAtIndex(s.next, 0) == Some(s.notified[|s.notified| - 1]))
      && (forall i :: 0 <= i < NumberOfTweets(m) ==>
            TweetAtIndex(s.next, i + |s.notified|) == TweetAtIndex(m, i))
  {
    var s := Receive(parse, m, chunk);
    RowsAfterGrowth(m, s.next, s.notified);
  }

  /** A fetch for any query, the empty one included, starts a new session:
      what the stream then delivers is processed exactly as by a freshly
      initialised model. */
  lemma FetchStartsFreshSession(parse: Parser, m: Model, query: string, chunk: string)
    ensures var fetched := Receive(parse, FetchStreamForText(m, Some(query)), chunk);
      var initial := Receive(parse, Initial(), chunk);
      && fetched.notified == initial.notified
      && fetched.next.buffer == initial.next.buffer
      && fetched.next.tweets == initial.next.tweets
  {
  }

  /** A fetch with no query only cancels the current task: the stream's
      later chunks meet the buffer and store they would have met without it. */
  lemma FetchNilKeepsSession(parse: Parser, m: Model, chunk: string)
    ensures var after := Receive(parse, FetchStreamForText(m, None), chunk);
      var before := Receive(parse, m, chunk);
      && after.notified == before.notified
      && after.next.buffer == before.next.buffer
      && after.next.tweets == before.next.tweets
  {
  }

}
