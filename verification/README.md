# Streaming model of TwitterStreamingClient, in Dafny

This project models the stream-ingestion engine of TwitterStreamingClient's
`StreamingModel` class: the handler that receives a chunk of the open
statuses/filter stream, appends it to the text buffer (`tweetData`), cuts
complete JSON objects off the front of the buffer by probing every `}` with
the JSON parser, and adds each decoded object to the ordered, duplicate-free
store (`tweets`), telling the delegate about each new one. It also models the
store's accessors for the table (`numberOfTweets`, `tweetAtIndex`) and the
session reset done by `fetchStreamForText`.

Each delivery is one sequential step. The object's mutable fields become a
value `Model(buffer, tweets, task)` that each handler takes and returns. The
delegate's `streamingModelDidFetchTweet` calls become the returned sequence of
announced records.

The JSON parser (`JSONSerialization`) is a parameter
`parse: seq<char> -> Option<Json>`, where `Json` is a small datatype whose
objects are maps, so Dafny equality is structural equality of the decoded
object. Being a function value, the parser is deterministic. The only other
assumption is `RejectsLoneBrace`: the text `}` alone does not parse.

Files:

- `wrappers.dfy`: `Option`.
- `json.dfy`: `Json`, the parser type, `RejectsLoneBrace`.
- `scanner.dfy`: the `}` search and which prefixes of a text are complete objects.
- `store.dfy`: the ordered, duplicate-free store.
- `ingest.dfy`: `Drain`, the declarative meaning of one pass. It repeatedly removes the shortest prefix that ends in `}` and parses, and offers its record to the store.
- `streaming_model.dfy`: the model state, and `DidReceive`, which is the scan loop as written. Also `FetchStreamForText`, `NumberOfTweets` and `TweetAtIndex`.
- `properties.dfy`: lemmas relating several deliveries, fetches and the table.

`DidReceive` follows the loop line by line. Every call starts the search at
position 0. A failed parse moves the search just past the brace. A successful
parse removes the prefix and sets the position to 0, and the unconditional
`+= 1` then makes the next search start at position 1. The loop is proved to
terminate with the lexicographic measure (buffer length, buffer length + 1 −
position). It is proved equal to `Drain`. The skipped position 0 is the one
place where `RejectsLoneBrace` is needed.

The model follows the code in three places where a stream client would usually be expected to behave differently:

- An empty query is not a no-op. Only a `nil` query returns early (line 80). Any other query, `""` included, clears the buffer and the store.
- The data handler does not check which task a chunk came from. A late chunk of a cancelled task is appended like any other.
- After a removal, one would expect scanning to resume at the new start of the buffer. The code resumes at position 1. The two agree because a lone `}` never parses.

## Model

| member | source | states |
|---|---|---|
| Scanner.IndexOfBrace | TwitterStreamingClient/StreamingModel.swift:113-117 | the search for `}` from the current position finds the first brace at or after it, or reports that there is none |
| Scanner.FirstComplete | TwitterStreamingClient/StreamingModel.swift:112-131 | the brace the probing stops at is the first one whose candidate slice parses; no earlier candidate parses, and `None` means no candidate parses at all |
| Scanner.FirstCompleteAt | TwitterStreamingClient/StreamingModel.swift:113-121 | a brace whose slice parses, found after ruling out every earlier candidate, is the first complete object of the text |
| Scanner.SkipFailedBrace | TwitterStreamingClient/StreamingModel.swift:118-131 | a brace whose slice fails to parse is ruled out as well, so the search may resume just past it |
| Scanner.NoBraceLeft | TwitterStreamingClient/StreamingModel.swift:113-116 | when the search finds no further brace, no prefix of the buffer ending in `}` parses |
| Scanner.NotCompleteAtStart | TwitterStreamingClient/StreamingModel.swift:127-131 | position 0, which the search skips after a removal, never holds a complete object when a lone `}` does not parse |
| Scanner.FirstCompleteStable | TwitterStreamingClient/StreamingModel.swift:110-118 | appending text after the buffer does not change its first complete object |
| Scanner.FirstCompleteIsShortest | TwitterStreamingClient/StreamingModel.swift:118 | the removed prefix ends in `}`, parses, and no shorter prefix of it ending in `}` parses |
| TweetStore.Add | TwitterStreamingClient/StreamingModel.swift:122-123 | adding a record keeps the old store as a prefix, grows it by one exactly when no equal record was stored, and keeps it duplicate-free |
| TweetStore.AddAll | TwitterStreamingClient/StreamingModel.swift:122-123 | adding records in order only appends, keeps the store duplicate-free, and leaves every offered record stored and nothing else new |
| TweetStore.AddAllConcat | TwitterStreamingClient/StreamingModel.swift:122-123 | offering `xs + ys` gives the store of offering `xs` and then `ys`; with `Add`'s one-record step this fixes the order in which offered records are appended |
| TweetStore.AddAllKnown | TwitterStreamingClient/StreamingModel.swift:122 | offering records that are all already stored leaves the store unchanged |
| TweetStore.ReverseConcat | TwitterStreamingClient/StreamingModel.swift:102 | the newest-first view of a store that grew by some records is those records newest first, then the old view |
| TweetStore.ReverseIndex | TwitterStreamingClient/StreamingModel.swift:102 | reading the store reversed at `i` is reading it at `count - 1 - i` |
| Ingest.Drain | TwitterStreamingClient/StreamingModel.swift:110-132 | the removed prefixes followed by what is left give back the whole buffer; no prefix of what is left ending in `}` parses; the new store is the old one followed by exactly the announced records |
| Ingest.DrainConsumesObjects | TwitterStreamingClient/StreamingModel.swift:114-126 | every removed prefix is a shortest complete object, and the record kept for it is what it parses to |
| Ingest.DrainStoresParsed | TwitterStreamingClient/StreamingModel.swift:122-125 | the store after a pass is the old store with the parsed records added in order, is duplicate-free when the old one was, and the announced records were not stored before |
| Ingest.DrainSplitIgnoresStore | TwitterStreamingClient/StreamingModel.swift:122-126 | which prefixes are removed, and what they parse to, does not depend on the store: a prefix whose record is already stored is removed all the same |
| Ingest.DrainAppend | TwitterStreamingClient/StreamingModel.swift:110-132 | a pass over `buf + t` equals the pass over `buf` followed by a pass over its leftover text with `t` appended |
| StreamingModel.Receive | TwitterStreamingClient/StreamingModel.swift:107-133 | after a delivery no prefix of the buffer ending in `}` parses, the store only grew by the announced records, and the task is untouched |
| StreamingModel.AgreesAfterRemoval | TwitterStreamingClient/StreamingModel.swift:118-127 | removing the first complete object and offering its record to the store keeps the loop's state in step with the declarative pass |
| StreamingModel.AgreesAtEnd | TwitterStreamingClient/StreamingModel.swift:112-117 | when the loop stops with no complete prefix left, its buffer, store and announcements are those of the whole pass |
| StreamingModel.DidReceive | TwitterStreamingClient/StreamingModel.swift:107-134 | the scan loop terminates and computes the declarative pass: no complete prefix is left, the store is the old one plus exactly the announced records, none of them stored before, and it stays duplicate-free |
| StreamingModel.Initial | TwitterStreamingClient/StreamingModel.swift:48-50 | a new model has no rows, an empty buffer and no task; `StreamingProperties.InitialSettled` shows it meets the store and buffer invariant, and `StreamingProperties.FetchStartsFreshSession` compares every fetched session with it |
| StreamingModel.NumberOfTweets | TwitterStreamingClient/StreamingModel.swift:97-99 | the row count is exactly the boundary of the readable rows: every index below it yields a record and the count itself does not; the row-count clause of `StreamingProperties.RowsFollowNotifications` shows it grows by exactly the number of announcements |
| StreamingModel.FetchStreamForText | TwitterStreamingClient/StreamingModel.swift:75-95 | a `nil` query only cancels the current task and keeps buffer and store; any other query, the empty one included, empties both and starts a new task for it |
| StreamingModel.TweetAtIndex | TwitterStreamingClient/StreamingModel.swift:101-103 | an index inside the store yields the store reversed at that index (row 0 is the newest record); any other index is the ordered set's range trap |
| StreamingProperties.InitialSettled | TwitterStreamingClient/StreamingModel.swift:48-50 | a new model has an empty, duplicate-free store and no complete prefix in its buffer |
| StreamingProperties.ReceiveKeepsSettled | TwitterStreamingClient/StreamingModel.swift:110-132 | a delivery keeps the store duplicate-free and leaves no complete prefix in the buffer |
| StreamingProperties.FetchKeepsSettled | TwitterStreamingClient/StreamingModel.swift:80-85 | a fetch keeps the model settled |
| StreamingProperties.EmptyChunkChangesNothing | TwitterStreamingClient/StreamingModel.swift:110-117 | on a settled model an empty chunk changes nothing and announces nothing |
| StreamingProperties.ReceiveConservesText | TwitterStreamingClient/StreamingModel.swift:110-126 | the old buffer followed by the chunk is the removed prefixes followed by the new buffer, and each removed prefix is a shortest complete object |
| StreamingProperties.ReceiveSplit | TwitterStreamingClient/StreamingModel.swift:110-111 | delivering `a + b` in one call gives the same state and the same announcements, in the same order, as delivering `a` and then `b` |
| StreamingProperties.ReceiveAll | TwitterStreamingClient/StreamingModel.swift:107-133 | delivering chunks one after another only appends the announced records to the store |
| StreamingProperties.ChunkingInvariance | TwitterStreamingClient/StreamingModel.swift:107-133 | any split of a text into one or more chunks gives the same state and announcements as delivering the text whole |
| StreamingProperties.ReplayIsSilent | TwitterStreamingClient/StreamingModel.swift:122-126 | a fully consumed text delivered again is consumed again without any announcement and without changing the store |
| StreamingProperties.RowsAfterGrowth | TwitterStreamingClient/StreamingModel.swift:97-102 | when the store grows by some records, the row count grows by their number, they become the top rows newest first, and the old rows move down unchanged |
| StreamingProperties.RowsFollowNotifications | TwitterStreamingClient/StreamingModel.swift:97-102 | after a delivery the row count grows by the number of announcements; the rows are the announced records newest first followed by the old rows, so row 0 is the last record announced and every old row moves down by the number of announcements |
| StreamingProperties.FetchStartsFreshSession | TwitterStreamingClient/StreamingModel.swift:84-85 | after a fetch for any query, the stream is processed exactly as by a freshly initialised model |
| StreamingProperties.FetchNilKeepsSession | TwitterStreamingClient/StreamingModel.swift:76-82 | after a fetch with no query, the stream is processed exactly as if the fetch had not happened |

## Left out

- `load()` (lines 55-73) is not modelled. It covers account access through the Accounts framework, its callbacks and the `loginNotSuccessful` error, all of which are foreign calls.
- Request building, `SLRequest`, `URLSession` and task resumption (lines 87-94) are not modelled. The task is reduced to its query and a cancelled flag.
- The UTF-8 decoding of the chunk (line 108) and the force unwrap of its result (line 110) are not modelled. The model takes decoded text. The source traps when a multi-byte character is split across two chunks, and that trap is not modelled.
- The hop onto the main queue (line 109) is not modelled. Each delivery is one atomic step.
- `JSONSerialization` (line 121) is the `parse` parameter. The `as? [String: Any]` cast and the `json!` unwrap are not modelled separately. A text that ends in `}` and parses is an object, so the cast does not fail on the texts the loop offers.
- NSString indexes UTF-16 code units. The model indexes characters.
- Scanner.IndexOfBrace: the search is modelled as a literal, per-character search. The source's `range(of:options:range:)` call passes `.caseInsensitive` without `.literal`, so it compares composed character sequences and does not find a `}` that is followed by a combining mark (U+0301, say). On such a stream the source skips that brace, where the model removes the object. Well-formed JSON never puts a combining mark right after a closing brace outside a string, so only malformed streams differ.
- The ordered set's hashing, and Foundation's number equality (where `true` equals `1`), are not modelled. The store is a sequence checked for membership with structural `Json` equality, and JSON numbers are reals.
- The unbounded growth of the store within a session (the note at line 123) is not modelled.
- The `weak` delegate is not modelled. Announcements are returned instead of being sent to a delegate that may no longer exist.
- `StreamingModel.TweetAtIndex`: an index outside the store is a runtime trap in the source. The model returns `None` for it.
- StreamingViewController.swift only displays the store and forwards the search text. It is not part of this model.
