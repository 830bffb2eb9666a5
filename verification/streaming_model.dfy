/**
 The streaming model object: its text buffer (`tweetData`), its ordered record
 store (`tweets`) and its current data task, with the handlers that change
 them. The object's mutable fields are threaded through as a `Model` value:
 every handler takes the state before and returns the state after.
 */
module StreamingModel {

  import opened Wrappers
  import opened JsonValue
  import opened Scanner
  import opened TweetStore
  import opened Ingest

  /** The data task of the current fetch: the query it tracks and whether it
      has been cancelled. Request building and the session are not modelled. */
  datatype Task = Task(query: string, cancelled: bool)

  datatype Model = Model(buffer: string, tweets: seq<Json>, task: Option<Task>)

  /** The result of one delivery: the state after it and the records handed
      to the delegate, in the order they were announced. */
  datatype Step = Step(next: Model, notified: seq<Json>)

  /** A freshly initialised model: empty buffer, empty store, no task. */
  function Initial(): (m: Model)
    ensures NumberOfTweets(m) == 0 && m.buffer == [] && m.task == None
  {
    Model([], [], None)
  }

  /** The declarative meaning of one delivered chunk: the chunk is appended
      to the buffer and the pass over the whole buffer is run. */
  function Receive(parse: Parser, m: Model, chunk: string): (s: Step)
    ensures NoCompletePrefix(parse, s.next.buffer)
    ensures s.next.tweets == m.tweets + s.notified
    ensures s.next.task == m.task
  {
    var d := Drain(parse, m.buffer + chunk, m.tweets);
    Step(m.(buffer := d.rest, tweets := d.store), d.notified)
  }

  /** The loop's text, store and announcements so far, completed by the
      declarative pass over what is left, give the pass over the whole. */
  ghost predicate Agrees(parse: Parser, total: Pass, notified: seq<Json>, buf: string, tweets: seq<Json>)
  {
    var d := Drain(parse, buf, tweets);
    total.rest == d.rest && total.store == d.store && total.notified == notified + d.notified
  }

  /** Removing the shortest complete object at the head, and offering its
      record to the store, keeps the loop in step with the declarative
      pass. */
  lemma AgreesAfterRemoval(parse: Parser, total: Pass, notified: seq<Json>, buf: string, tweets: seq<Json>, p: nat)
    requires Agrees(parse, total, notified, buf, tweets)
    requires FirstComplete(parse, buf, 0) == Some(p)
    ensures parse(buf[..p + 1]).Some?
    ensures var novel := Novel(tweets, parse(buf[..p + 1]).value);
      Agrees(parse, total, notified + novel, buf[p + 1..], tweets + novel)
  {
    DrainStep(parse, buf, tweets, p);
    var novel := Novel(tweets, parse(buf[..p + 1]).value);
    var tail := Drain(parse, buf[p + 1..], tweets + novel);
    ConcatAssoc(notified, novel, tail.notified);
  }

  /** Once no prefix of the text left completes, the loop's state is the
      outcome of the whole pass. */
  lemma AgreesAtEnd(parse: Parser, total: Pass, notified: seq<Json>, buf: string, tweets: seq<Json>)
    requires Agrees(parse, total, notified, buf, tweets)
    requires NoCompletePrefix(parse, buf)
    ensures total.rest == buf && total.store == tweets && total.notified == notified
  {
    DrainDone(parse, buf, tweets);
    assert notified + [] == notified;
  }

  /** The data delegate's handler for one decoded chunk, as the scan loop is
      written: the search restarts at position 0 on every call; after a failed
      parse it resumes just past the brace; after a successful one it removes
      the prefix and resumes at position 1 of what is left. */
  method DidReceive(parse: Parser, m: Model, chunk: string) returns (next: Model, notified: seq<Json>)
    requires RejectsLoneBrace(parse)
    ensures Step(next, notified) == Receive(parse, m, chunk)
    ensures NoCompletePrefix(parse, next.buffer)
    ensures next.tweets == m.tweets + notified
    ensures forall x :: x in notified ==> x !in m.tweets
    ensures NoDup(m.tweets) ==> NoDup(next.tweets)
    ensures next.task == m.task
  {
    var buf := m.buffer + chunk;
    var tweets := m.tweets;
    notified := [];
    ghost var total := Drain(parse, buf, tweets);
    var loc := 0;
    while loc < |buf|
      invariant 0 <= loc <= |buf| + 1
      invariant forall q :: 0 <= q < loc ==> !Completes(parse, buf, q)
      invariant Agrees(parse, total, notified, buf, tweets)
      decreases |buf|, |buf| + 1 - loc
    {
      var found := IndexOfBrace(buf, loc);
      if found.None? {
        NoBraceLeft(parse, buf, loc);
        break;
      }
      ghost var from := loc;
      loc := found.value;
      match parse(buf[..loc + 1]) {
        case Some(json) =>
          FirstCompleteAt(parse, buf, from, loc);
          AgreesAfterRemoval(parse, total, notified, buf, tweets, loc);
          ghost var novel := Novel(tweets, json);
          if json !in tweets {
            assert novel == [json];
            tweets := tweets + [json];
            notified := notified + [json];
          } else {
            assert tweets == tweets + novel && notified == notified + novel;
          }
          buf := buf[loc + 1..];
          loc := 0;
          NotCompleteAtStart(parse, buf);
        case None =>
          SkipFailedBrace(parse, buf, from, loc);
      }
      loc := loc + 1;
    }
    AgreesAtEnd(parse, total, notified, buf, tweets);
    next := m.(buffer := buf, tweets := tweets);
    DrainStoresParsed(parse, m.buffer + chunk, m.tweets);
  }

  /** Cancels the task, if there is one. */
  function Cancel(task: Option<Task>): Option<Task>
  {
    match task
    case None => None
    case Some(t) => Some(t.(cancelled := true))
  }

  /** Starting a fetch. The current task is cancelled first; a `nil` query
      stops there; any other query, the empty one included, clears the buffer
      and the store and starts a new task for that query. */
  function FetchStreamForText(m: Model, text: Option<string>): (next: Model)
    ensures text.None? ==> next.buffer == m.buffer && next.tweets == m.tweets
    ensures text.None? ==> next.task == Cancel(m.task)
    ensures text.Some? ==> next.buffer == [] && next.tweets == []
    ensures text.Some? ==> next.task == Some(Task(text.value, false))
  {
    match text
    case None => m.(task := Cancel(m.task))
    case Some(query) => Model([], [], Some(Task(query, false)))
  }

  /** The number of stored records, the table's row count. */
  function NumberOfTweets(m: Model): (n: nat)
    ensures forall i :: 0 <= i < n ==> TweetAtIndex(m, i).Some?
    ensures TweetAtIndex(m, n).None? && TweetAtIndex(m, -1).None?
  {
    |m.tweets|
  }

  /** The record shown at row `index`: the store read newest first. An index
      outside the store traps in the ordered set's `object(at:)`; that trap is
      `None` here. */
  function TweetAtIndex(m: Model, index: int): (r: Option<Json>)
    ensures r.Some? <==> 0 <= index < |m.tweets|
    ensures r.Some? ==> r.value == Reverse(m.tweets)[index]
  {
    if 0 <= index < |m.tweets| then
      ReverseIndex(m.tweets, index);
      Some(m.tweets[|m.tweets| - 1 - index])
    else
      None
  }

}
