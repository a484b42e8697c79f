# A model of a JSON-RPC 2.0 library, from the wire to the dispatch and back

This project models the message path of the Go library `golang-jsonrpc2` in Dafny 4.11 and proves what the path is
for. One module stands for one part of the library.

| module | part of the library |
|---|---|
| `SilenceScan` | the scan that decides whether a rejected payload may go unanswered (handle.go) |
| `BatchSplit` | splitting a batch into its elements, and the cheap count of them (handle.go) |
| `BatchPool` | the worker pool of a batch, over every schedule (handle.go) |
| `Dispatch`, `Conformity`, `ReplyText`, `Answering` | from the payload to the reply: caps, decoding, validation, the batch, the fallback; what the replies mean, what their bytes are, and which of them a payload gets (handle.go, error.go, structs/) |
| `BufReader`, `Framing`, `ContentLength`, `Ndjson` | the two stdio framings over a buffered reader with arbitrary chunking (jsonrpcstdio/framing.go) |
| `ConnWriter` | the latching writer over a stream that may stop anywhere (jsonrpcstdio/push.go) |
| `ServeLoop` | the serve loop with its dispatches, pushes, cancellation and exit, over every interleaving (jsonrpcstdio/serve.go) |
| `Multiplexer`, `Shutdown`, `Delivery` | concurrent calls over one connection, for both multiplexing clients, the actors that shut a client down, and what each call gets in the end (jsonrpcws/client.go, jsonrpcstdio/client.go, jsonrpcstdio/push.go) |
| `HttpBatch`, `BatchCall` | the batch call of the HTTP client, and client and server together, through the bytes both ways (batch.go, structs/request_codec.go, jsonrpchttp/client.go) |
| `WellFounded`, `TypeGraph`, `Flattening`, `SchemaBuilder`, `SchemaRuns`, `Document` | flattening of structs and the schema builder over a cyclic type graph, when they return, and the schemas of a whole document (openrpc/schema.go, openrpc/openrpc.go) |
| `Registry` | the copy-on-write configuration on the heap (main.go, middleware.go, methods.go) |
| `Bytes`, `Decimal`, `JsonGrammar`, `Sets`, `Wrappers` | bytes, decimal print and parse, the grammar of RFC 8259 with its white space, counting in sets, Option |

Loops and objects of the library are methods and classes here; each is proved against a function, and the promises are
proved about that function. Concurrent parts are transition systems: a run is a list of steps, each enabled when it is
taken, and the theorems hold for every run.

Five results a reader of the documentation may not expect:

* `lacksResponseID` lets a bare string stand in for a request object, so `["x",{}]` goes unanswered although the
  comment at handle.go:208 keeps the reply for batches with an element that is no object.
  `SilenceScan.DepartsOnlyOnStrings` gives the exact condition and `SilenceScan.StringElementGoesUnanswered` an input.
* JSON can be answered with a parse error. `codec.Valid` is that of encoding/json, whose scanner gives up on nesting
  deeper than 10000, so 10002 brackets opened and closed again are refused with -32700
  (`Conformity.DeepNestingIsParseError`), although `errorForMalformed` (error.go:141-150) keeps that code for broken
  JSON. `Conformity.JsonParseError` says exactly which JSON is refused so.
* A named struct does not always break a type cycle for the schema builder (comment at openrpc/schema.go:35-36): an
  embedded one is flattened away. `type N struct { F struct { *N } }` makes `schemaOf` recurse for ever when it is
  asked for N (`SchemaRuns.EmbeddedInFieldDiverges`), as does `type L []L`. `SchemaRuns.BuildingEnds` and
  `TypeGraph.FlatteningEnds` say, type by type, exactly when the code returns.
* The comment at jsonrpcstdio/framing.go:37-38 makes an end of stream inside a frame an error. An NDJSON stream cut
  inside a line is noticed only when what has arrived of the line, its end trimmed, is over the limit or looks like a
  header (`Ndjson.CutIff`); a cut of written messages never is (`Ndjson.CutNeverNoticed`): a shorter message is passed
  on in place of the one that was cut, and right behind a carriage return the bytes may vanish altogether
  (`Ndjson.CutBehindReturn`). A Content-Length stream cut anywhere inside a frame always is noticed
  (`ContentLength.TruncationDetected`).
* An id that is well-formed JSON of the wrong kind, an object say, is refused but echoed byte for byte in the error
  (handle.go:421-424): `Conformity.OddIdIsEchoed`; `Conformity.SectionSix` states the echo rule as the code has it.

## Model

| member | source | states |
|---|---|---|
| SilenceScan.LacksResponseID | handle.go:212-307 | The byte loop gives the verdict of the scanning automaton on the trimmed payload, for every byte string. |
| SilenceScan.ExactOnJson | handle.go:200-307 | On every JSON text, whatever the white space: an object goes unanswered iff no top-level key is `id` or contains an escape; an array iff it has an object, every element is an object or a string, and no object has such a key; anything else never. Nested ids, string contents and brackets in strings never matter. |
| SilenceScan.SilenceIsSound | handle.go:253-260 | A payload that goes unanswered holds no request with an id, in whatever escaped spelling of the key. |
| SilenceScan.DepartsOnlyOnStrings | handle.go:208-211 | The code agrees with its comment on a JSON text iff that text is not a batch mixing bare strings with id-free objects. |
| SilenceScan.StringElementGoesUnanswered | handle.go:263-269 | A batch of a string and an empty object is silenced although the comment says it keeps its reply. |
| BatchSplit.SplitBatchElements | handle.go:313-373 | The loop returns the elements, or failure, that the splitting automaton finds in the bytes between the brackets. |
| BatchSplit.SplitIsExact | handle.go:309-373 | For every byte string: the split succeeds with pieces ps iff the body is ps joined by commas, each after white space, every piece non-empty, bracket-balanced outside strings, never closing early, and without a top-level comma. |
| BatchSplit.ResplitIsIdentity | handle.go:309-373 | Splitting the comma-join of the pieces returns the same pieces. |
| BatchSplit.SplitsJson | handle.go:309-373 | On every JSON array the split succeeds with the element texts in order. |
| BatchSplit.ApproxBatchLen | handle.go:150-198 | The loop with its early exit returns the count of the counting automaton. |
| BatchSplit.TallyIsExact | handle.go:145-198 | On every payload the splitter accepts with k elements, and every limit of at least 1, the count is k when k is within the limit and limit + 1 otherwise. |
| BatchPool.PoolIsSequential | handle.go:528-578 | Whatever the schedule, the pool returns the in-order non-nil outcomes of the sequential loop, and each entry was handled exactly once. |
| BatchPool.BoundedAndDistinct | handle.go:529-532 | At no moment are more entries running than the concurrency limit or the batch length, and none twice at once. |
| BatchPool.NeverStuck | handle.go:540-570 | No schedule deadlocks before the responses are there. |
| BatchPool.EveryScheduleEnds | handle.go:540-570 | Every schedule does a fixed amount of work and then ends. |
| BatchPool.Gather | handle.go:572-577 | The final filter keeps the responses that are not nil, in order. |
| Dispatch.HandleRPCJSONRawMessage | handle.go:31-143 | For every payload the bytes that leave, or their absence, are those of the reply function: size cap, trimming, classification, batch cap, split, decoding, pool, marshaling and fallback. What that function gives is stated by the rows of Conformity and Answering. |
| Dispatch.HandleBatch | handle.go:61-81 | The batch branch: cap, silence, split, malformed structure. |
| Dispatch.DecodeEntries | handle.go:85-97 | Entries decode one by one in place; a syntactically broken entry, and nothing else, spoils the payload. |
| Dispatch.HandleBatchRPC | handle.go:528-578 | The responses are those due to the entries, in order. |
| Dispatch.ReplaceBroken | handle.go:110-114 | Only the responses that do not marshal are replaced, each by an internal error under its own id. |
| Dispatch.HandleSingle | handle.go:121-139 | The bytes for a message that is an object are those of the reply function; Conformity.SingleSection says which reply that is. |
| Conformity.SectionSix | handle.go:75-103 | Section 6 of the JSON-RPC 2.0 specification: an accepted batch is answered by exactly one reply for each entry that is undecodable, invalid or carries an id, in request order, each echoing its id or none when it is absent or broken, and saying what is due: -32600 for what is no valid request, the result, or the error under its code and data when that code is registered and an internal error otherwise; nothing is returned iff every entry is a valid notification. |
| Conformity.SingleSection | handle.go:121-130 | A message that is an object is answered as an entry of a batch would be: with exactly what is due to it, or with nothing iff it is a valid notification; one that does not decode is refused as an invalid request if it is well-formed JSON and with a parse error otherwise. |
| Conformity.OddIdIsEchoed | handle.go:413-424 | A request with the id `{}` is answered with -32600 under the id `{}`. |
| Conformity.DueIsExact | handle.go:407-440 | The positions used in SectionSix are exactly those of the entries that must be answered. |
| Conformity.DueIncreases | handle.go:534-536 | Those positions are in request order, without repetition. |
| Conformity.JsonParseError | error.go:141-150 | JSON is answered with a parse error iff it is within the caps and it is an object, or an array with an element, that does not decode and is nested deeper than the 10000 levels the JSON scanner takes. |
| Conformity.ShallowJsonIsNeverParseError | error.go:141-150 | JSON nested within that limit, and an array one level deeper, is never answered with a parse error. |
| Conformity.DeepNestingIsParseError | internal/codec/codec.go:32-36 | 10002 brackets opened and closed are JSON, and answered with a parse error whenever the size cap lets them in. |
| Conformity.SectionSixOnTheWire | handle.go:98-120 | The same for the bytes: they split into one text for each such entry, in order, each the text of what is due to its entry, or of an internal error under the same id when that does not marshal; and no bytes leave iff nothing is due. |
| Conformity.SingleSectionOnTheWire | handle.go:121-139 | The same for the bytes of a single answer; an internal error stands in for a reply that does not marshal. |
| Answering.ValidityIsExact | handle.go:580-603 | A request is valid iff its version is 2.0, its name is not empty, and its id, if it has one, is a well-formed string, number or null. |
| Answering.RejectionIsExact | handle.go:34-73 | JSON over the size cap, or an array of more elements than the batch cap, goes unanswered iff it is silent in the sense of SilenceScan.ExactOnJson, and gets the refusal of the cap otherwise. |
| Answering.Malformations | handle.go:52-97 | Within the caps: white space alone is a parse error; what is neither an object nor a list of entries is an invalid request if well-formed and a parse error if not; a batch of no entries is an invalid request, and one with an entry that neither decodes nor is well-formed a parse error. |
| Answering.NoRequestInIt | handle.go:82-84 | A JSON string, number, literal or empty array within the caps is an invalid request, whatever white space is in and around it. |
| Answering.DueTextIs | handle.go:407-440 | The bytes due to an entry, of a batch or alone, spelled out: a valid call gets its result or its error under its own id, a valid notification nothing whatever it returned, an invalid request -32600 under its id if that is well-formed, an entry that does not decode -32600 under null. |
| Answering.RequestOnTheWire | handle.go:121-139 | Those are the bytes sent for a message that is one request. |
| Conformity.CapIsExact | handle.go:62-73 | A batch that splits is refused as too large iff it has more entries than the cap. |
| Conformity.RejectionAnswersEveryCaller | handle.go:34-73 | A JSON message over either cap in which some request carries an id is always answered with the rejection. |
| Conformity.JsonArrayAccepted | handle.go:61-97 | Every non-empty JSON array is handled as the batch of its elements iff it is within both caps and each element decodes or is nested at most 10000 levels deep. |
| Conformity.ReplyIsJson | structs/structs_easyjson.go:86-111 | The text of a reply, whose results, messages and data are JSON, is a JSON object of the version, then `result` with the result, or `error` with an object of the members code, message and, iff there is data, data, each with its value, and last the id. |
| ReplyText.TextIs | structs/structs_easyjson.go:86-111 | The bytes of every reply, spelled out member by member, null standing for an absent result or id. |
| ReplyText.RefusalTexts | error.go:124-128 | The five ready-made error responses, byte for byte. |
| Conformity.BatchReplyReadsBack | structs/structs_easyjson.go:238-258 | Splitting the bytes of a batch reply gives the texts of the replies in order. |
| Decimal.ParseOfPrint | jsonrpcstdio/framing.go:208 | Parsing a printed int64 gives the number back. |
| Decimal.ParseIsExact | jsonrpcstdio/framing.go:208 | What parses: an optional sign, at least one digit and nothing else, with a value of 64 bits. |
| Decimal.PrintInjective | jsonrpcws/client.go:194-200 | Different numbers print differently. |
| BufReader.Reader.ReadSlice | jsonrpcstdio/framing.go:135 | Under any chunking of the source a slice ends at the first newline, at the buffer's end, or at the end of the stream. |
| BufReader.Reader.ReadFull | jsonrpcstdio/framing.go:222-228 | Under any chunking exactly the next n bytes, or the report that there are fewer. |
| Framing.FramerBase.Begin | jsonrpcstdio/framing.go:62-71 | One byte order mark at the very start of the stream is dropped, once. |
| Framing.BomIs | jsonrpcstdio/framing.go:62-71 | The mark is the three bytes EF BB BF, at the front only. |
| Framing.StreamReadsBack | jsonrpcstdio/framing.go:32-44 | A framing that reads each message back alone reads back any sequence of them. |
| ContentLength.ReadFrame | jsonrpcstdio/framing.go:153-230 | Under every chunking the header loop and body read return what the reader specification says of the bytes, and leave the rest of them; even from a source that fails in between, a frame that is returned is the one the specification reads, byte order mark dropped or not. |
| ContentLength.ReadStream | jsonrpcstdio/serve.go:324-342 | Reading frame after frame, under every chunking, gives the messages and the end that the specification gives for the whole stream. |
| ContentLength.ReadHeader | jsonrpcstdio/framing.go:170-218 | The header loop: length found, or refused as missing, duplicate, invalid, oversize, too long or cut. |
| ContentLength.RoundTrip | jsonrpcstdio/framing.go:131-241 | Any list of messages within the limit, empty ones and ones with newlines included, reads back as that list and then a clean end. |
| ContentLength.TruncationDetected | jsonrpcstdio/framing.go:134-151 | Whole frames followed by a non-empty proper prefix of another read back as the whole ones and then an error. |
| ContentLength.HeaderIff | jsonrpcstdio/framing.go:170-218 | A header block, whatever its lines, their order, line ends, casing and spacing, gives the length n iff it is within 8192 bytes, every line has a colon, exactly one is a Content-Length, and its value parses to n with 0 <= n <= the limit; the bytes behind the blank line are left. |
| ContentLength.FrameIff | jsonrpcstdio/framing.go:153-230 | Such a block, not starting like JSON, is what makes a frame of the bytes behind it, and nothing else does. |
| ContentLength.AcceptedIsBlock | jsonrpcstdio/framing.go:175-192 | Every accepted header is such a block. |
| ContentLength.OversizeRefused | jsonrpcstdio/framing.go:212-216 | A length over the limit is refused as such on sight, whatever other headers precede it and whatever follows. |
| ContentLength.OtherHeaderIgnored | jsonrpcstdio/framing.go:194-201 | Header lines of other names, before and behind the length, change nothing, as long as the block stays within 8192 bytes. |
| ContentLength.TwoLengthsRefused | jsonrpcstdio/framing.go:202-206 | A second length is refused as such, equal or not, whatever headers are between the two and whatever follows. |
| ContentLength.TwoLengthsNeverFrame | jsonrpcstdio/framing.go:202-206 | A block with two lengths never makes a frame, whatever else is wrong with it. |
| ContentLength.NoLengthRefused | jsonrpcstdio/framing.go:187-190 | A block of any other headers that ends without a length is refused as such. |
| ContentLength.NoBomWritten | jsonrpcstdio/framing.go:57-71 | A written stream never starts with a byte order mark. |
| Ndjson.ReadFrame | jsonrpcstdio/framing.go:253-303 | Under every chunking the result is that of the next non-blank line with its end trimmed; a frame is never empty or over the limit, is the right one even from a source that fails in between, and no more than limit + 2 bytes are held. |
| Ndjson.ReadStream | jsonrpcstdio/serve.go:324-342 | Reading frame after frame, under every chunking, gives the messages and the end that the specification gives for the whole stream. |
| Ndjson.SizeTestIsExact | jsonrpcstdio/framing.go:260-266 | Computed in int64, the size test means what it says for every limit and every length a slice can have; the test with the 2 added on the other side does iff the limit leaves room for it. |
| Ndjson.CarriedIffReadBack | jsonrpcstdio/framing.go:283-301 | A newline-free message comes back as itself iff it is not empty, within the limit, does not end in a carriage return and does not look like a header. |
| Ndjson.LineDecided | jsonrpcstdio/framing.go:283-301 | A line with either ending: blank ones are passed over, one over the limit or with a header on it is fatal, any other is the message. |
| Ndjson.RoundTrip | jsonrpcstdio/framing.go:253-323 | Sequences of such messages read back as themselves and then a clean end. |
| Ndjson.BomWritten | jsonrpcstdio/framing.go:57-71 | The byte order mark rule loses bytes of a written stream iff its first message starts with one. |
| Ndjson.CutIff | jsonrpcstdio/framing.go:274-301 | Whatever messages came before: a stream that ends inside a line ends cleanly iff what has arrived of the line, its end trimmed, is empty, or within the limit and unlike a header; and that is passed on as a message unless it is empty. |
| Ndjson.CutNeverNoticed | jsonrpcstdio/framing.go:274-279 | Written messages cut at any point end cleanly: those before come back, and in place of the one that was cut the part that landed, trimmed, or nothing; it is the message itself iff only the newline is missing. |
| Ndjson.CutBehindReturn | jsonrpcstdio/framing.go:283-286 | Two such cuts behind a carriage return: a message loses its last byte, and a lone carriage return vanishes. |
| ConnWriter.Stream.WriteAll | jsonrpcstdio/framing.go:82-89 | A prefix of the parts reaches the stream, all of them when it succeeds. |
| ConnWriter.Writer.WriteFrame | jsonrpcstdio/framing.go:305-323 | With Content-Length the very bytes of the message, framed, and never refused. As a line the very bytes without a newline; with one the compacted bytes, and nothing at all iff there is no compacted form free of newlines. On failure a prefix of that. |
| ConnWriter.Writer.Write | jsonrpcstdio/push.go:31-53 | The wire stays the encodings of the accepted messages in order plus at most one partial frame; what is accepted or lost is the message itself, or its compacted form for a line with newlines; nothing is added after latching; an unframeable message does not latch; fail is called once. |
| ConnWriter.Writer.Close | jsonrpcstdio/push.go:55-59 | The latch is set and the wire stays consistent. |
| ConnWriter.FrameBytes | jsonrpcstdio/framing.go:232-241 | A Content-Length frame, byte for byte. |
| ConnWriter.FramingsNeverMix | jsonrpcstdio/framing.go:153-165 | A line peer refuses every Content-Length frame, as one when its header is within the limit, and a Content-Length peer every message that begins as an object or an array. |
| ConnWriter.PeerDecodes | jsonrpcstdio/push.go:16-59 | A Content-Length peer decodes exactly the accepted messages, plus the failed one iff it landed whole, and never a mangled frame. |
| ConnWriter.LinesPeerDecodes | jsonrpcstdio/push.go:16-59 | An NDJSON peer decodes the accepted messages and then, without noticing, what landed of the failed one: the message itself iff all of it but the newline landed, otherwise a shorter one in its place, or none. |
| ServeLoop.RunKeeps | jsonrpcstdio/serve.go:247-371 | Every step of every interleaving keeps the invariant: which frame is where, who holds a slot, what is on and owed to the wire, and why the loop stopped. |
| ServeLoop.BoundedConcurrency | jsonrpcstdio/serve.go:270-369 | Never more than maxCalls dispatches run at once. |
| ServeLoop.ReturnsDrainedAndLatched | jsonrpcstdio/serve.go:281-293 | Serve returns only with no dispatch running and the writer latched. |
| ServeLoop.NilMeansOrderlyShutdown | jsonrpcstdio/serve.go:294-307 | Serve returns nil iff, in the steps taken, the end of the stream was read with no cancellation before it, no dispatch panicked, and no write of a framable message to the open writer broke. |
| ServeLoop.NothingLostOnNil | jsonrpcstdio/serve.go:285-300 | Then every frame read was dispatched and every framable non-empty response is on the wire exactly once. |
| ServeLoop.SequentialAnswersInOrder | jsonrpcstdio/serve.go:344-350 | With one call at a time the answers leave in the order of the requests. |
| ServeLoop.NeverStuck | jsonrpcstdio/serve.go:324-371 | Until Serve has returned some step of its own is possible. |
| ServeLoop.DrainEnds | jsonrpcstdio/serve.go:281-308 | Once the loop has stopped reading, in every interleaving at most four steps for each frame read and four more are left until Serve returns. |
| ServeLoop.CancelStopsReading | jsonrpcstdio/serve.go:324-330 | From the moment the connection is cancelled, by the caller, a panic or a broken write, at most the one read already under way brings a frame. |
| ServeLoop.CancelEnds | jsonrpcstdio/serve.go:324-371 | From that moment, in every interleaving and whatever the peer sends, at most four steps for each frame read and ten more are left until Serve returns. |
| ServeLoop.CancelledWhen | jsonrpcstdio/serve.go:281-290 | Once the loop is left the handlers are cancelled, except after an orderly end of the stream; nothing but the caller, a failure or that exit cancels them. |
| ServeLoop.ResultIs | jsonrpcstdio/serve.go:294-307 | What Serve returns, by what had happened when it decided: the failure of the connection first, then nil for an orderly end, then the cancellation, then the read error. |
| ServeLoop.WireIsHistory | jsonrpcstdio/serve.go:314-322 | The wire holds, in order, every framable answer and push whose write did not break while the writer was open, and nothing else; the latch and the first broken write close it for good. |
| Multiplexer.RunKeeps | jsonrpcws/client.go:153-267 | Every step of every run of concurrent calls, failing params and writes, deliveries, rejections, and shutdowns by any number of actors keeps the bookkeeping of ids, channels, the pending map, the writer's mutex and the Once. |
| Multiplexer.SendsNeverBlock | jsonrpcws/client.go:405-441 | No channel is ever sent to twice, so the capacity-1 sends never block. |
| Multiplexer.IdsNeverReused | jsonrpcws/client.go:194-200 | No two entries of any calls carry the same id. |
| Multiplexer.CallsGetTheirOwn | jsonrpcws/client.go:153-267 | A finished call hands over, entry by entry, a frame bearing that entry's own id or the error of a rejection without an id, nothing for a notification, and on the stdio client never a request frame. |
| Multiplexer.LatchedBeforeCleared | jsonrpcstdio/client.go:139-156 | Whoever shuts the client down, by Close, a read error or a broken write, and in whatever interleaving: when the map is cleared the channel is closed and writes fail already, and both happen once. |
| Multiplexer.NothingLeaks | jsonrpcstdio/client.go:139-156 | With no call active and no shutdown half done the pending map is empty. |
| Multiplexer.ShutdownNeverStuck | jsonrpcstdio/push.go:37-48 | Although a broken write shuts the client down while it holds the writer's mutex, some actor of a shutdown, or the call that holds the mutex, can always go on. |
| Multiplexer.ResponseReachesItsChannel | jsonrpcstdio/client.go:352-366 | A response to a registered id ends up in the channel of that id. |
| Multiplexer.ArrayReachesItsChannels | jsonrpcws/client.go:377-417 | An array of responses with distinct registered ids is delivered whole, each to its own channel; the limit on the entries looked at never cuts it short. |
| Multiplexer.RejectionReachesAll | jsonrpcstdio/client.go:332-334 | An error whose id is absent or the four bytes null is owed to exactly the calls waiting at that moment. |
| Multiplexer.FrameDecides | jsonrpcstdio/client.go:293-336 | What each frame does, by what is in it: it answers the call whose id it bears, unless it is a request of the peer's to the stdio client; an error without an id is owed to all who wait; any other, an error under a foreign id among them, changes nothing. |
| Multiplexer.EntryDecides | jsonrpcws/client.go:377-417 | An entry of an array answers the call whose id it bears, and does nothing else. |
| Delivery.NobodyForgotten | jsonrpcstdio/client.go:352-366 | Whoever waits for an entry is looked after: its id is in the map, or a send to its channel is committed, or the value lies there, or the connection is closed and the call can see it. |
| Delivery.HandsOverWhatWasSent | jsonrpcws/client.go:250-267 | A finished call hands over, entry by entry, the very value that was sent to the channel of its id. |
| Delivery.ReturnsForItsReason | jsonrpcws/client.go:153-267 | A call returns its responses, or the error of its context, its write or its params, iff that is the step that ended it, and otherwise finds the connection closed. |
| HttpBatch.Client.NextID | jsonrpchttp/client.go:117-119 | Ids come from a counter that only grows, with gaps when others draw from it. |
| HttpBatch.Client.MarshalBatch | batch.go:61-83 | Fresh, pairwise distinct ids aligned with the specs, none for notifications, and the matching requests; refused iff some params do not marshal. |
| HttpBatch.Client.CallBatch | jsonrpchttp/client.go:124-191 | The outcome is that of the outcome function, under fresh ids; HttpBatch.OutcomeIsExact says which it is. |
| HttpBatch.OutcomeIsExact | jsonrpchttp/client.go:124-191 | Each outcome of a batch call iff its condition: no entries, too many, params that do not marshal, a failed post, an empty body, no array, an entry that does not decode before all ids are answered; and otherwise the slots, or zero values when nothing was called. |
| HttpBatch.Correlate | jsonrpchttp/client.go:165-190 | The loop over the response array fills the slots as specified, and aborts iff it runs into an undecodable entry while an id is still without a response. |
| HttpBatch.SlotIsFirstResponse | batch.go:85-93 | A slot holds what the first response bearing its id, among as many entries as were sent, says: its error and no result, or else its result if it has one. |
| HttpBatch.SlotWithoutResponse | jsonrpchttp/client.go:186-189 | Without such a response the slot holds -32603 naming the id; a notification's slot stays zero. |
| HttpBatch.OrderIsIrrelevant | jsonrpchttp/client.go:165-190 | Any permutation of responses with distinct ids gives the same slots. |
| BatchCall.EachCallGetsItsReply | jsonrpchttp/client.go:124-191 | Client and server together, through the bytes of the frame and of the reply: a batch call returns, entry by entry, nothing for a notification, and for a call what its method returned, unless that is null, or its error under its code and text if the code is registered and the data can be marshaled, and the internal error otherwise; without a name -32600. |
| BatchCall.RequestTextIs | structs/request_codec.go:62-78 | The bytes of a request, spelled out: params only if there are any, an id only for a call. |
| WellFounded.EndsUnlessTrapped | openrpc/schema.go:51-92 | A recursion over a finite graph returns from a node iff that node reaches no set of nodes that go on to each other for ever. |
| TypeGraph.Flattener.Walk | openrpc/schema.go:148-190 | The walk over fields and embedded structs lists what the specification lists; Flattening.FlatFieldsAreExact says what that is. |
| TypeGraph.NamesDistinct | openrpc/schema.go:177-180 | No JSON name is listed twice, and whoever is listed first stays. |
| TypeGraph.FieldIsListed | openrpc/schema.go:153-186 | Every exported field that is neither skipped nor flattened has its name listed. |
| Flattening.FlatFieldsAreExact | openrpc/schema.go:148-190 | Told from the types alone: an entry is the name, the omitempty option and the type of an exported field, not tagged `-`, that a path through embedded structs and pointers to them leads to and that is not such an embedded struct itself; entries come in the depth-first order of their paths; and every such field has its name listed, for itself or for one that comes before it. |
| SchemaBuilder.RequiredIs | openrpc/schema.go:207-209 | Required are exactly the names of the listed fields without omitempty, in their order. |
| SchemaBuilder.SanitizeName | openrpc/schema.go:127-136 | Only letters, digits, `_` and `.` remain; names made of those are unchanged. |
| SchemaBuilder.DefName | openrpc/schema.go:113-125 | The search ends for every finite set of definitions, with the first candidate that is not taken. |
| SchemaBuilder.NameFor | openrpc/schema.go:109-125 | The name picked is not taken and made of allowed characters only. |
| SchemaBuilder.CandidatesDiffer | openrpc/schema.go:118-124 | The qualified and suffixed candidates are pairwise distinct. |
| SchemaBuilder.Builder.TypeSchema | openrpc/schema.go:51-92 | It terminates for every type the code returns for; returns the schema of the type under the names it leaves behind; nil placeholders are exactly the structs under way; names stay distinct; nothing outside the given closed set is defined. |
| SchemaBuilder.Builder.StructSchema | openrpc/schema.go:95-107 | The same for structs: inline when unnamed, one shared definition otherwise. |
| SchemaBuilder.Builder.ObjectSchema | openrpc/schema.go:203-212 | The object of a struct field by field, under names that grow on the way. |
| SchemaBuilder.Builder.SchemaOf | openrpc/schema.go:49-54 | Between calls the builder is consistent with nothing under way; no type gives the empty schema. |
| SchemaBuilder.SchemaResolves | openrpc/schema.go:99-106 | Every reference in a returned schema leads to a finished definition. |
| SchemaBuilder.ReferencesResolve | openrpc/schema.go:35-46 | Between calls every definition is finished, belongs to exactly one type, and every reference in it resolves. |
| SchemaBuilder.MeaningPreserved | openrpc/schema.go:49-107 | However deep it is unfolded, through cycles too, the document says of a type what the type itself says. |
| SchemaBuilder.AllNamedClosed | openrpc/schema.go:95-107 | The named structs that can be built are a closed set, so one always exists. |
| Document.DescribeAll | openrpc/openrpc.go:152-228 | A whole run, method after method on one builder: in the final document every parameter, by name and one for each listed field of a struct, and every result is described by what its type says. |
| TypeGraph.FlatteningEnds | openrpc/schema.go:148-190 | flatFields returns on a struct iff that struct does not reach, through embedded fields and pointers, types that embed or point to each other for ever; and then with the list of the specification. |
| SchemaRuns.BuildingEnds | openrpc/schema.go:49-107 | schemaOf returns for a type on a new builder iff the type does not reach, through listed fields and the bodies of named structs, types that go on to each other for ever or a struct that flatFields never returns on. |
| SchemaRuns.SchemaOfIsRun | openrpc/schema.go:49-107 | The depth-bounded builder of that result goes where the builder goes: after schemaOf the structs with names are exactly those it has begun. |
| SchemaRuns.SelfSliceDiverges | openrpc/schema.go:76-80 | schemaOf never returns for a slice type that is its own element. |
| SchemaRuns.EmbeddedInFieldLooksFine | openrpc/schema.go:35-36 | In the type of the next row every cycle passes through the named struct and every struct can be flattened. |
| SchemaRuns.EmbeddedInFieldDiverges | openrpc/schema.go:163-170 | Still schemaOf never returns for the named struct, because it is flattened away in its own field. |
| SchemaRuns.HiddenLoopIsHarmless | openrpc/schema.go:153-157 | A type it would never return for does no harm behind a field that is not exported. |
| Registry.Config.Clone | main.go:45-62 | Fresh maps with the same contents; the composed map is carried over as it is. |
| Registry.Config.Mutate | methods.go:33-45 | Each operation changes exactly what it says, or is refused: duplicates and reserved names. |
| Registry.Config.Compose | middleware.go:34-47 | Every method inside all middlewares, the first registered outermost; with none the registry itself is served. |
| Registry.Server.Update | main.go:114-126 | Only the snapshot pointer is written, so no published snapshot changes despite the shared map; a refused update changes nothing; keys of the three maps stay equal. |
| Registry.Server.Lookup | main.go:221-224 | A lookup in the composed map finds a method iff it is registered, inside the current middlewares. |
| Registry.HistoryDecides | methods.go:33-45 | After any operations: served are exactly the names ever registered that do not begin with `rpc.`, and rpc.discover, by their first handler and with its description, under the middlewares used, in order. |
| Registry.HistoryConfigures | main.go:129-200 | After any operations the settings are the last that were set, and the interceptors all that were added, in order. |
| Registry.HistoryNamesErrors | error.go:25-37 | After any operations an error code is known iff it was predefined or has been registered, with its predefined text or the first one registered. |
| Registry.ErrorsStay | error.go:25-37 | The predefined codes are never removed or reworded. |
| Registry.FirstIsOutermost | middleware.go:17-24 | Layer i of a served handler is the i-th middleware used. |
| Registry.ReaderKeepsItsSnapshot | main.go:20-23 | A snapshot taken before any sequence of updates is unchanged after it. |

## Left out

- HTTP, WebSocket and Fiber handlers, dialing, header and MIME checks, write timeouts: plumbing over other libraries.
- encoding/json, easyjson and reflect: request decoding and json.Compact are arbitrary functions, json.Valid one that accepts JSON nested at most 10000 levels deep where a result needs it, a type is a node of a graph, and a Go value in error.data is JSON text or not marshalable.
- Wall-clock time, logging and error wording: a timeout, cancellation or failure is a step or an outcome that may happen.
- Handler, interceptor and observer bodies, and how a timeout is delivered (handle.go:468-509): what running a method gives is an arbitrary outcome for each entry.
- 64-bit counters and lengths: integers are unbounded except in Decimal.ParseInt64, Ndjson.SizeTest and Ndjson.NaiveTest, so the wrap-around of id counters after 2^63 calls is not modelled.
- BufReader.Reader.ReadFull: io.ErrNoProgress of a source that keeps returning nothing is the same read failure as any other.
- ContentLength.ReadFrame: an end of stream inside the header and a header line longer than the reader's buffer share one error kind; when the source itself fails, which error comes back is not stated, only that a frame that comes back is the right one.
- Ndjson.ReadFrame: when the source itself fails, which error comes back is not stated, only that a frame that comes back is the right one.
- ContentLength.ReadStream: a failing source may end the list of messages at any frame.
- Ndjson.ReadStream: a failing source may end the list of messages at any frame.
- Dispatch.HandleBatchRPC: handles the entries one after the other; BatchPool.PoolIsSequential proves that every schedule of the goroutines gives the same responses.
- Dispatch.HandleRPCJSONRawMessage: its branches are methods of their own; the result is the same bytes.
- ServeLoop: a Write that panics instead of returning an error is not a step of the model.
- Multiplexer: the local size checks of the clients (jsonrpcws/client.go:207-214) and the handler of pushed notifications are not steps; the two clients share one system, in which a send of jsonrpcws may fail at any time and an actor is known by a number.
- HttpBatch.Client.CallBatch: what comes back for the POST is a parameter; a body cut inside the array reads as an array that ends there, as dec.More() does.
- TypeGraph: tags arrive cut at the first comma, with omitempty already found (hasOpt, openrpc/schema.go:192-201), and the list does not keep the index path of a field, which Flattening.FlatFieldsAreExact gives beside it.
- SchemaBuilder: Properties is a list with distinct names rather than a map, and "#/components/schemas/" + name is written Ref(name).
- SchemaRuns.BuildingEnds: stated of a copy of the builder that is cut off at a depth of recursion and keeps only which structs have begun; SchemaBuilder proves the builder itself for the same types, and SchemaRuns.SchemaOfIsRun that the two begin the same structs.
- Document.DescribeAll: names, tags, errors and examples of the methods are copied and not modelled.
- BatchCall.EachCallGetsItsReply: that either decoder reads the bytes of BatchCall.RequestTextIs and ReplyText.TextIs, and how a name is quoted, are assumptions (BatchCall.ServerReads, BatchCall.ClientReads); error data is not part of a decoded response.
- Registry: setters of scalar settings are one operation; handlers and middlewares are known by number, so middleware factories are deterministic as their documentation asks.
- Typed, isEmptyJSONArray, toID, method options, Public, the OpenRPC document around the schemas: each is settled by reading one branch.
