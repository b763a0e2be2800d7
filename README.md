# tsuru netqueue and pool listing, modelled in Dafny

This project models two pieces of tsuru's sequential logic:

- **netqueue** (`netqueue.dfy`, module `NetQueue`): the channel bridge between in-process
  `Message` values (an `Action` string and an ordered `Args` list) and a gob byte stream.
  `ChannelFromWriter` makes a message channel and an error channel, each buffered by
  `ChanSize` = 32. Its `write` worker encodes every message taken from the message channel.
  It reports each failed encode on the error channel and carries on. It closes the error
  channel once the message channel is closed and drained. `ChannelFromReader` makes the
  same pair for reading. Its `read` worker decodes messages until the first failure. It
  reports that failure unless it is `io.EOF`, then closes both channels.
- **poolList** (`pool.dfy`, module `PoolApi`): the `GET /pools` handler. It classifies the
  caller's permission contexts into a team filter and a pool-name filter. A global context
  lifts both filters. It then looks up the possible pools, appends the named pools when
  there are pool names, and de-duplicates the list by pool name, keeping first occurrences.
  An empty list is answered with No Content.

A buffered Go channel is the class `Queue<T>`, with a buffer `buf`, a capacity `cap` and a
`closed` flag. A send needs an open queue with free space; in Go it would block or panic
otherwise. A receive needs an item or a closed queue, and on an empty closed queue it
returns `Closed`. A close needs an open queue, because Go panics on a second close. The
workers are methods with loops over these queues. Each is proved against specification
functions over sequences (`Written`, `WriteErrors`, `Sent` for the writer; `StopIndex`,
`Delivered`, `Reported` for the reader). The lemmas state what those functions promise.

The gob codec and the `io.Writer`/`io.Reader` are oracles. The writer's k-th encode of
message m yields `encode(k, m)`: either the record written to the sink, or an error (an
encoding or a sink failure). The reader's k-th decode yields the k-th element of an outcome
stream, and `io.EOF` once the stream is exhausted. The round trip assumes the codec
inverts: a record written for m decodes back to m (`Inverts`).

The permission lookup and the two provisioning lookups are parameters of `PoolList`.

Go's `close` panics on a closed channel and each worker closes its channels exactly once,
so `Queue.Close` requires an open queue.

## Model

| member | source | states |
|---|---|---|
| `NetQueue.Queue.constructor` | netqueue/queue.go:56-57 | a new buffered channel is open and empty with the given capacity |
| `NetQueue.Queue.Send` | netqueue/queue.go:70 | a send appends exactly one item at the tail and keeps the queue open; it needs an open queue with free space |
| `NetQueue.Queue.Receive` | netqueue/queue.go:67 | a receive takes the head item in FIFO order; on an empty closed queue it returns the closed signal and changes nothing |
| `NetQueue.Queue.Close` | netqueue/queue.go:66 | close needs an open queue, marks it closed and keeps its buffered items receivable |
| `NetQueue.Queue.Drain` | netqueue/queue.go:67 | a consumer ranging over a closed queue receives every buffered item in order and leaves it empty |
| `NetQueue.ChannelFromWriter` | netqueue/queue.go:55-60 | the writer's message and error channels are distinct, fresh, open, empty and of capacity ChanSize = 32 |
| `NetQueue.ChannelFromReader` | netqueue/queue.go:92-97 | the reader's message and error channels are distinct, fresh, open, empty and of capacity ChanSize = 32 |
| `NetQueue.Write` | netqueue/queue.go:65-73 | the writer drains the closed input queue in FIFO order; it puts exactly the failing encodes' errors on the error queue, in message order; the sink gets one record per successful encode; the error queue ends closed, after the input is drained |
| `NetQueue.WriteSplit` | netqueue/queue.go:67-72 | writing `a + b` gives the records, errors and sent messages of `a` followed by those of `b`, so a failed encode never stops the writer |
| `NetQueue.WriteAccounts` | netqueue/queue.go:67-71 | every message is attempted exactly once: it gives either one record or one error |
| `NetQueue.CleanWrite` | netqueue/queue.go:68-71 | when every encode succeeds, the writer reports no error and sends every message |
| `NetQueue.StopIndex` | netqueue/queue.go:106-108 | the index of the first failed decode: every earlier decode succeeded, and that one failed (or the stream is exhausted) |
| `NetQueue.Delivered` | netqueue/queue.go:106-110 | the delivered messages are exactly the messages of the maximal run of successful decodes at the head of the stream, in order |
| `NetQueue.Read` | netqueue/queue.go:103-118 | the reader delivers exactly the maximal successful prefix, in order; it reports the stopping error once unless it is io.EOF; it makes no decode after the first failure; it closes both queues |
| `NetQueue.ReadIgnoresRest` | netqueue/queue.go:104-115 | outcomes after the first failed decode change neither what is delivered nor what is reported |
| `NetQueue.ReadReportsAtMostOnce` | netqueue/queue.go:111-113 | at most one error reaches the reader's error queue, and none exactly when the stream ends cleanly with io.EOF |
| `NetQueue.WrittenDecodesToSent` | netqueue/queue.go:68-69 | with an inverting codec, the i-th record on the sink decodes to the i-th message whose encode succeeded |
| `NetQueue.RoundTrip` | netqueue/queue.go:77-79 | with an inverting codec, reading the writer's output delivers exactly the successfully encoded messages, in order and unchanged, and reports no error |
| `NetQueue.Exchange` | netqueue/queue.go:33-36 | messages sent through a fresh writer and read back through a fresh reader arrive as sent, in order, with the writer's errors only for failed encodes and no reader error; with no failed encode, all messages arrive |
| `PoolApi.FiltersFor` | api/pool.go:34-46 | both filters are nil exactly when some context is global; otherwise the team filter holds exactly the values of the team contexts and the pool-name filter exactly those of the pool contexts |
| `PoolApi.ClassifyContexts` | api/pool.go:34-46 | a global context lifts both filters (nil); otherwise the team and pool-name filters hold the values of the team and pool contexts |
| `PoolApi.ValuesOfTypeMembers` | api/pool.go:40-45 | a value is collected for a context type exactly when some context of that type carries it |
| `PoolApi.ValuesOfTypeAppend` | api/pool.go:40-45 | collected values keep input order: those for `a + b` are those for `a` followed by those for `b` |
| `PoolApi.OtherContextsIgnored` | api/pool.go:40-45 | a context of another type changes neither filter |
| `PoolApi.GlobalIsUnrestricted` | api/pool.go:35-39 | with a global context both filters are nil, and the pools are the possible pools for no team filter, with no named-pool lookup |
| `PoolApi.FirstIndex` | api/pool.go:60-65 | the position of the first pool with a given name |
| `PoolApi.Dedup` | api/pool.go:58-66 | the de-duplication loop computes the first-occurrence list `DedupByName` |
| `PoolApi.DedupKeepsNames` | api/pool.go:60-66 | de-duplication loses no pool name and adds none |
| `PoolApi.DedupUnique` | api/pool.go:58-66 | each name appears at most once in the result |
| `PoolApi.DedupKeepsFirstInOrder` | api/pool.go:60-65 | each kept pool is the first pool of its name, and kept pools follow the order of their first occurrences |
| `PoolApi.Lookup` | api/pool.go:47-57 | an error from the team-filtered lookup is returned unchanged; with no pool names the pools are the possible pools alone; otherwise an error from the named lookup is returned unchanged, or the named pools are appended after the possible pools |
| `PoolApi.Reply` | api/pool.go:67-70 | the answer is No Content exactly when the de-duplicated list is empty, and otherwise lists it unchanged |
| `PoolApi.PoolList` | api/pool.go:29-73 | the handler's answer is `PoolListing` of the concatenated app-create and pool-read contexts |
| `PoolApi.ListingOutcome` | api/pool.go:47-72 | a lookup error is returned unchanged; No Content exactly when the lookups give no pool; otherwise each looked-up name appears once, as its first pool |
| `PoolApi.NamedLookupOnlyWithPoolNames` | api/pool.go:51-57 | without pool contexts the named-pool lookup is never consulted: any replacement for it gives the same answer |

## Left out

- Goroutines and blocking (netqueue/queue.go:58, :95) are not modelled. A worker runs to completion when called. A send that would block (full queue) or a receive that would block (empty open queue) is excluded by a precondition instead.
- NetQueue.Write: runs only after the producer has closed the input queue. Interleaving the producer with the writer is not modelled.
- NetQueue.Write: requires room on the error queue for all of its errors. NetQueue.Read requires room for all delivered messages and for its error. The stall caused by a consumer that does not drain is not modelled.
- NetQueue.Write / NetQueue.Read: since no producer or consumer runs during a worker call, one call handles at most `ChanSize` messages; only the functions and lemmas (`Written`, `WriteErrors`, `Sent`, `Delivered`, `WriteSplit`, `ReadIgnoresRest`, `RoundTrip`) cover sequences of any length.
- NetQueue.RoundTrip / NetQueue.Exchange: decoding is modelled per record and stateless (`decode` maps one record to one outcome). The code makes a new gob encoder for every message (netqueue/queue.go:68) but reads the whole stream with one gob decoder (netqueue/queue.go:105); a gob decoder remembers the type descriptions it has seen while every new encoder sends them again, and that pairing, which may make the decoder refuse the second message, is not modelled.
- The gob wire format, `io.Writer` and `io.Reader` are outcome oracles. A failed encode is taken to write nothing to the sink; a partial write that corrupts the stream is not modelled.
- A Go nil slice and an empty `Args` slice are the same value here. Gob does not keep that difference either.
- Sources are finite: the outcome stream ends in io.EOF. An endless source, on which `read` never ends, is not modelled.
- Errors are one datatype (`EOF` or `Err`). The code never tells encoding, sink, decoding or source errors apart.
- The timeout and `select` usage in the doc comments (netqueue/queue.go:38-45, :82-88) is caller-side concurrency.
- permission.ContextsForPermission, provision.ListPossiblePools and provision.ListPools are not part of this model; their results are parameters. Context types other than global, team and pool are one `CtxOther` case.
- A pool is its name plus an opaque map of other fields; provision.Pool is not part of this model.
- The JSON encoding and the response headers (api/pool.go:68, :71-72) are left out: `Listed` stands for a 200 answer with the list, and a JSON encoding error is not modelled.
- The other handlers of api/pool.go (pool create, remove, update, team assignment, constraints) are left out. Each is a permission check, form decoding, an audit event and one provisioning call.
