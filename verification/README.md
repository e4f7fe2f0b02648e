# Dafeng: a verified model

Dafeng is an input-method companion. A client library inside the input method talks to a
daemon over a local socket: it asks for candidates to be reranked, and tells the daemon what
was committed. The daemon keeps a history of commits and learns from it in the background:
it counts neighbouring characters, discovers new words, gives them Wubi codes, and writes
dictionaries for the RIME engine. This project models that program in Dafny and proves what
its parts promise each other.

`dafny verify dfyconfig.toml` checks everything.

## What is modelled

**The wire.** `Bytes` and `MsgPack` hold the byte formats, `Protocol` the eight messages with
the tolerant decoder, `Framing` the length prefix and the reader that both ends run.
`MsgPackFormats` and `WireNames` say what the bytes and the maps themselves are: every format of
the MessagePack specification, and every field by the name it has on the wire. The main
results: a body decodes to the message it was made from exactly when it is at most 1 MiB, in
any field order and with unknown fields added; frames come back from any chunking, and from
any cut of the stream a prefix of them.

**The conversation.** `Ipc` is a state machine of one client process and its connections,
with partial transfers, timeouts, closes, reconnects and one worker per connection; every
scheduling choice is an argument of an action, so a run is any list of actions. `IpcSafety`
holds the invariant and the proof that every step keeps it, `IpcResults` what follows for
every run. `Rerank` does not compare the id of its reply; that the reply is nevertheless its
own rests on the invariant that a live connection with the mutex free owes no reply.
`IpcChunks` takes its steps apart: reads and writes in pieces do what one does.
`Endpoint`, `Client` and `Server` are the same code in its own form: objects whose loops read
and write under deadlines, with contracts on the exact bytes moved, the time taken, and exactly
when they succeed. What happens outside is a script: after how long a call comes back, and how.
A read or write succeeds if and only if what happens carries its bytes, in pieces of any sizes
and with any interruptions, before its deadline; from there up to the client's request and the
worker's loop.
`Conformance` connects the two: what a request or a commit of the client object and a turn of
the server's loop do to the byte streams is what a run of the state machine does. So the results
on runs hold of the object: a reply it returns was computed by the worker for that very message,
a reply is returned if and only if its frame and the reply's went through in time, and a commit
that the object gave up on is never logged.
`Counters` is the concurrent part: any number of workers bumping shared counters and raising a
maximum by a weak compare-and-swap.

**The learning pipeline.** `Utf8` has the checked and the unchecked character walk, `History`
the division of the history into chains, `Ngram` the streaming bigram walk and its table,
`NgramFile` the table's file, `NewWord` the windowed word discovery, `WordPlaces` what it
discovers told by places in the chains alone, `WubiCodec` the phrase encoder, `LearningRound` a whole round, `RimeTable` the text of the dictionary it writes,
`AutoLearn` the scheduler and all its runs, `Quoting` the two syntaxes that text leaves in.
`Agreement` proves that the two independent walks over the history count the same pairs, with
the exact condition.

**Candidate order.** `Reranker` is the deterministic reranker in exact tenths of a point,
`CandidateOrder` the slice, protect and repair logic around it.

Conventions. A method with a loop is proved against a function of its inputs (or of the state
before), and the lemmas are about that function. `sort` and `rank` stand for std::sort with
the program's comparisons: any function that returns a sorted permutation, free in the order
of ties. Hash maps are walked by picking any remaining key, so nothing proved depends on their
order. Clocks, the outcome of system calls, files, the store's answers and the reranking
service are parameters.

Where the code does less than its comments say, the model follows the code:

- `Load` that fails in the middle of a file keeps the records already read, although
  src/daemon/ngram.h:40-42 says the table is reset. What it keeps, for every file, is
  `NgramFile.LoadKeepsReadable`. A failed Load leaves an empty table if and only if the header
  or the first record cannot be read: `NgramFile.FailedLoadEmptiesExactlyWhen`. Of a cut file it
  keeps exactly the records that end before the cut: `NgramFile.PrefixRefused`.
- `Save` announces pairs with over-long keys and does not write them; Load then fails and
  keeps the others: `NgramFile.LoadOfSave`. The announced count is cut to 32 bits; when a table
  survives saving and loading is `NgramFile.LoadsBackExactlyWhen`.
- On ill-formed UTF-8 discovery keeps trailing bytes in the last token and the n-gram walk
  drops them: `Agreement.StrayByteDisagrees`, `Agreement.AgreeExactlyWhen`.
- Duplicate indices from the daemon are yielded twice: `CandidateOrder.DuplicateIsYieldedTwice`,
  `CandidateOrder.PermutationExactlyWhen`. With a reply
  free of duplicates nothing is: `CandidateOrder.DistinctReplyPermutes`.
- The learner's "new entries" gate compares counts. The store's interface offers pruning
  (src/daemon/history_store.h:43), and pruning would hide new commits
  (`AutoLearn.PruneHidesNewCommit`, `AutoLearn.CountGateIsNet`), but no component of the program
  prunes: outside the store itself only its unit tests do. Without pruning the gate passes if
  and only if a commit was inserted after the count was recorded:
  `AutoLearn.CountGateWithoutPrune`.
- That count is recorded at the end of a round (src/daemon/auto_learn.cc:182-183), so a commit
  that arrives while a round runs does not count as new even if the round has not scanned it,
  and waits for the next one: `AutoLearn.CommitDuringRoundIsNotNew`.
- A frame length is cut to 32 bits. The reader learns the body's length modulo 2^32 if that is
  between 1 and 1 MiB, else it refuses the frame, and it reads the body as sent if and only if
  the body itself is within those bounds: `Framing.LengthIsCut`, `Client.FirstOfAnyFrame`.
- The deadline of a call bounds neither the wait for the mutex nor connecting:
  `Client.DafengClient.Call` takes that time as `lockedFor`.
- The stats can show a mean latency above the maximum (`Counters.MeanAboveMaxInFlight`), but,
  in every run with fewer than 2^32 requests, only while some worker has added a latency above
  the maximum and not yet raised it: `Counters.MeanAboveMaxNeedsLaggard`. GetStats loads the
  counters one after another, and a whole request that falls between two loads shows the same:
  `Counters.StatsReadAcrossRequest`; if none is counted between the loads of count and sum,
  again only a lagging worker can be the cause: `Counters.StatsReadOneByOne`.
- The deploy command reaches the shell as a C string: it is the three words meant if and only
  if neither path holds a NUL byte, and otherwise it ends inside an open quote:
  `Quoting.CommandIsThreeWords`.
- Rows of the dictionary are separated by tabs and newlines, and nothing keeps these out of a
  typed code. The rows read back if and only if every code that was typed, and not computed, is
  free of them: `RimeTable.RoundTableReadsBackExactlyWhen`.

## Model

| member | source | states |
|---|---|---|
| MsgPack.UnpackPack | src/common/protocol.cc:101-210 | Every packable value tree, in every integer, string, binary, extension, array and map format, unpacks from its own bytes and leaves whatever follows them |
| MsgPackFormats.IntFormats | src/common/protocol.cc:199-280 | uint 8 to 64 read as the big-endian number behind the tag, int 8 to 64 as its two's complement, whether or not a shorter format would do |
| MsgPackFormats.SmallFormats | src/common/protocol.cc:199-280 | The fixints, nil, false and true |
| MsgPackFormats.FixFormats | src/common/protocol.cc:199-280 | fixmap, fixarray and fixstr |
| MsgPackFormats.LengthFormats | src/common/protocol.cc:199-280 | str, bin, array and map with lengths of 1, 2 and 4 bytes |
| MsgPackFormats.Float32Format | src/common/protocol.cc:199-280 | float 32 is the word behind its tag |
| MsgPackFormats.Float64Format | src/common/protocol.cc:199-280 | float 64 is the word of eight bytes behind its tag |
| MsgPackFormats.ExtFormats | src/common/protocol.cc:199-280 | ext 8, 16 and 32: a length, the kind, then that many bytes |
| MsgPackFormats.FixExtFormats | src/common/protocol.cc:199-280 | fixext 1, 2, 4, 8 and 16 |
| MsgPackFormats.NoFormat | src/common/protocol.cc:204-209 | The tag 0xC1 is refused |
| MsgPackFormats.PackIntIsShortest | src/common/protocol.cc:101-191 | An integer takes as few bytes as any format that holds it |
| Protocol.EncodeBody | src/common/protocol.cc:101-195 | The encoder, packing header and fields one by one into a buffer, produces the packed map of the message |
| Protocol.Packer.PackField | src/common/protocol.cc:36-49 | One key and its value are appended, and the packer stays in step with the pairs packed so far |
| Protocol.MapGet | src/common/protocol.cc:63-78 | The linear search converts the value of the first pair whose key is that string; without such a pair, on an object that is no map, or when the conversion fails, false, and only the conversion may touch the target |
| Protocol.ReadInt | src/common/protocol.cc:63-78 | An integer field is its value if it converts within the bounds, and 0 otherwise |
| Protocol.ReadStr | src/common/protocol.cc:63-78 | A string field is its bytes if it converts, and empty otherwise |
| Protocol.ReadList | src/common/protocol.cc:63-78 | A list field has as many elements as were sent: those before the first that does not convert, and defaults from there on |
| Protocol.DecodeBody | src/common/protocol.cc:101-280 | A body decodes to the message it encodes if and only if it is at most 1 MiB, and is refused otherwise |
| Protocol.ReorderedAndExtended | src/common/protocol.cc:63-78 | Reordering the pairs of a body and inserting pairs with unknown keys does not change what it decodes to |
| Protocol.DecodeCarrier | src/common/protocol.cc:199-280 | Any packed map that carries every pair of the message and no second pair under one of its keys, with any bytes after it, decodes to the message exactly when within the cap |
| Protocol.KeysDistinct | src/common/protocol.cc:101-191 | No message writes the same key twice |
| WireNames.HeaderByName | src/common/protocol.cc:43-49 | Every message holds its version 1 under v and its type, by number, under t |
| WireNames.RequestByName | src/common/protocol.cc:101-112 | A rerank request holds id, code, ctx, cands and app under those names, and nothing else |
| WireNames.ResponseByName | src/common/protocol.cc:114-125 | A rerank reply holds id, order, scores, lat_us and mver |
| WireNames.CommitByName | src/common/protocol.cc:127-136 | A commit holds code, text and ctx |
| WireNames.IdByName | src/common/protocol.cc:138-174 | Ping, Pong and StatsRequest hold their id and nothing more |
| WireNames.ErrorByName | src/common/protocol.cc:156-165 | An error holds id, ec and em |
| WireNames.StatsByName | src/common/protocol.cc:176-191 | The stats hold id, rc, pc, cc, ec_total, rls, rlmax, rmv and ut |
| WireNames.TextsDecodedByName | src/common/protocol.cc:215-240 | Each text of a decoded request or commit is what stands under its own name if that is a string or binary, else empty; nothing is refused |
| WireNames.IdsDecodedByName | src/common/protocol.cc:241-262 | Each field of a decoded ping, pong, error or stats request comes from its own name, 0 or empty if nothing fit stands there |
| WireNames.CandidatesDecodedByName | src/common/protocol.cc:216-224 | The candidates of a decoded request come from cands, none if no list is there |
| WireNames.ResponseDecodedByName | src/common/protocol.cc:225-233 | So do order, scores, lat_us and mver of a reply |
| WireNames.StatsDecodedByName | src/common/protocol.cc:263-275 | So does each of the nine stats |
| WireNames.ListUpToFirstBad | src/common/protocol.cc:68-74 | A list has its elements up to the first that does not convert, and defaults from there on |
| Protocol.PeekAgrees | src/common/protocol.cc:282-293 | Peeking at the type says what decoding will give, and gives a known type exactly when decoding succeeds |
| Framing.ReadsBigEndian | src/common/protocol.cc:304-312 | The length read is the four header bytes as a big-endian number if that is between 1 and 1 MiB, and refused otherwise |
| Framing.HeaderSays | src/common/protocol.cc:297-312 | The header written for a body says that body's length, or is refused above the cap |
| Framing.LengthIsCut | src/common/protocol.cc:314-321 | For every body the frame is a header and that body; the header reads as the length modulo 2^32 if that is between 1 and 1 MiB and is refused otherwise, and reads as the length itself if and only if the body is between 1 byte and 1 MiB |
| Framing.FeedTracks | src/daemon/server.cc:82-96 | One read of any size keeps the reader in step with the stream; a body it completes is the next body sent, and it gives up only at one above the cap |
| Framing.AnyCutAnyChunking | src/daemon/server.cc:79-100 | However the frames are cut and chunked, the read loop gives the bodies whose frames arrived whole before the first above the cap, and nothing else |
| Framing.FramesRoundTrip | src/common/protocol.cc:297-321 | Every list of non-empty bodies within the cap comes back whole from any chunking of its frames |
| Endpoint.RemainingMs | src/common/endpoint_unix.cc:27-34 | The budget never exceeds the time left, and is 0 exactly in the last millisecond |
| Endpoint.SucceedsExactlyWhen | src/common/endpoint_unix.cc:44-105 | A read or write succeeds if and only if the bytes are there and what happens next carries them, in pieces of any sizes with interruptions anywhere, each wait ending within the whole milliseconds that are left |
| Endpoint.PieceMoves | src/common/endpoint_unix.cc:49-72 | It then uses up exactly what carried it |
| Endpoint.EarlyIsTimely | src/common/endpoint_unix.cc:27-34 | What is over a millisecond before the deadline is in time |
| Endpoint.ChunksCarry | src/common/endpoint_unix.cc:65-71 | Chunks of any positive sizes that add up to the size carry it |
| Endpoint.TransferInTime | src/common/endpoint_unix.cc:47-58 | Succeed or fail, it ends by the deadline |
| Endpoint.UnixConnection.ReadFull | src/common/endpoint_unix.cc:44-74 | True exactly when the transfer succeeds; then the buffer holds exactly the next bytes of the stream and nothing more was taken; false means fewer were; either way by the deadline |
| Endpoint.UnixConnection.WriteAll | src/common/endpoint_unix.cc:76-105 | True exactly when the transfer succeeds; then exactly those bytes were accepted; false means a strict prefix of them; either way by the deadline |
| Client.FirstOfAnyFrame | src/client/client.cc:57-67 | Whatever its length, what the client makes of a frame at the front of a stream: as many bytes of the body as the length modulo 2^32, or a refusal; it is the body if and only if the body is between 1 byte and 1 MiB |
| Client.FirstOfFrames | src/client/client.cc:57-67 | The client reads a framed body at the front of a stream as that body, leaving the rest |
| Client.DafengClient.EnsureConnected | src/client/client.cc:197-205 | A live connection is kept, otherwise a new one is made if connecting gives one |
| Client.DafengClient.SendFrame | src/client/client.cc:49-53 | The whole frame is written exactly when its transfer succeeds, else the connection is dropped with a strict prefix of it sent |
| Client.DafengClient.ReceiveReply | src/client/client.cc:55-76 | One frame is taken and decoded exactly when it comes in under what is left of the deadline and decodes, else the connection is dropped |
| Client.DafengClient.Call | src/client/client.cc:39-84 | A call sends exactly its numbered frame, takes exactly the first frame of the stream, advances the id, and ends by its single deadline once the mutex and the connection are had |
| Client.InTimeGoesThrough | src/client/client.cc:39-67 | Written and answered in pieces of any sizes with any interruptions, a call whose last byte is there two milliseconds before its deadline goes through |
| Client.DafengClient.Request | src/client/client.cc:39-166 | A reply is returned if and only if there is a connection, the frame goes out and the first frame comes in before the deadline, and it decodes to the right kind, for Ping and GetStats with the call's id; otherwise the connection is dropped |
| Client.AcceptsExactlyWhen | src/client/client.cc:77-165 | The client accepts a rerank reply of any id, and a pong or stats reply of the call's own id, and nothing else |
| Client.NumberedKeeps | src/client/client.cc:46-47 | Numbering a request sets its id and nothing else |
| Client.DafengClient.RecordCommit | src/client/client.cc:168-182 | A commit frame is written whole exactly when there is a connection and its transfer succeeds within 50 ms, else the connection is dropped |
| Client.RenumberedSendable | src/client/client.cc:46-47 | Giving a request its id does not stop it from being encodable |
| Ipc.RepliesCount | src/daemon/server.cc:102-141 | A worker computes one reply for each reply-needing message it handled |
| Ipc.OwedPrefix | src/client/client.cc:168-182 | A prefix of the messages that owes as many replies as all of them leaves out only commits |
| IpcChunks.ClientReadSplits | src/client/client.cc:55-67 | Taking a reply in pieces leaves the conversation where taking it at once does |
| IpcChunks.WorkerReadSplits | src/daemon/server.cc:82-94 | So does taking a message in pieces |
| IpcChunks.ClientWriteSplits | src/client/client.cc:49-53 | So does writing a frame in pieces |
| IpcChunks.WorkerWriteSplits | src/daemon/server.cc:135-141 | So does writing a reply in pieces |
| IpcChunks.BeginConnects | src/client/client.cc:197-205 | Without a live connection a call starts on a new one behind all others, or changes nothing if it gets none |
| IpcChunks.ResetCloses | src/client/client.cc:207-210 | Resetting closes the live connection and touches no other |
| IpcSafety.StepKeepsInv | src/client/client.cc:39-210 | Every action of client, worker and environment keeps the whole invariant |
| IpcSafety.RunsKeepInv | src/client/client.cc:39-210 | The invariant holds in every run, for every codec that round-trips |
| IpcSafety.ReplyCompletes | src/daemon/server.cc:135-141 | A reply frame that completes while a call waits is the worker's answer to that call, and it is the last one owed |
| IpcSafety.GiveUpKeeps | src/client/client.cc:50-53 | Dropping the connection in the middle of a call keeps the invariant, closes the connection and records that very call as failed |
| IpcResults.DafengFaithful | src/common/protocol.cc:101-280 | The real codec is one that round-trips |
| IpcResults.ReplyBelongsToCall | src/client/client.cc:39-166 | In every run, a reply that Rerank, Ping or GetStats returns was computed by the server from that very message of that connection, and the call ended once |
| IpcResults.IdleOwesNothing | src/client/client.cc:77-83 | With the mutex free and the connection live no reply is owed, every reply byte was read, and what the server has yet to handle is whole commit frames |
| IpcResults.LogIsPrefix | src/daemon/server.cc:124-127 | What the server logged on a connection is at all times a prefix, in order, of the commits sent on it |
| IpcResults.FailedCommitNotLogged | src/client/client.cc:178-181 | A commit whose write failed is never handled, however the run goes on |
| IpcResults.OutcomesStay | src/client/client.cc:39-182 | How a call ended is never revised |
| IpcResults.AnsweredMeansLogged | src/client/client.cc:168-182 | Once a later call on the connection was answered, the log starts with exactly the commits sent before it |
| IpcResults.ChecksNeverFire | src/client/client.cc:77-83 | The client's checks of kind and id never reject a whole reply frame of this server |
| Conformance.SendIsRun | src/client/client.cc:46-53 | Beginning a call and writing its whole frame is the run that appends exactly the numbered frame, advances the id and waits |
| Conformance.ReceiveIsRun | src/client/client.cc:55-83 | Reading header and body is the run that consumes exactly the first frame and takes the client's verdict on it |
| Conformance.RequestIsRun | src/client/client.cc:39-84 | A Request on an idle connection is a run: an answered one ends with that answer recorded and object and state in step again, a failed one has sent as much, recorded the failure and closed the connection |
| Conformance.RequestIsAnswered | src/client/client.cc:39-166 | From any state the protocol reached, the client object returns a reply if and only if its frame went out and the next frame came in before the deadline; it is then the one the worker computed for that very message, and every commit sent on the connection before it is in the log |
| Conformance.ReplyIsAccepted | src/client/client.cc:72-83 | From any state the protocol reached, the next whole frame decodes and passes the client's checks |
| Conformance.PostIsRun | src/client/client.cc:168-182 | Beginning a commit and writing its whole frame is the run that appends exactly that frame, leaves the id alone and records the commit as posted |
| Conformance.RecordCommitIsRun | src/client/client.cc:168-182 | A RecordCommit on an idle connection is a run: posted, with object and state in step, or failed with a strict prefix of the frame sent and the connection closed |
| Conformance.RecordCommitOrLost | src/client/client.cc:168-182 | From any state the protocol reached, a commit that RecordCommit gave up on is never handled, however the run goes on |
| Conformance.FailedSendIsRun | src/client/client.cc:49-53 | Any part of a frame sent and then given up on is a run: exactly those bytes on the stream, the call recorded as failed, the connection closed |
| Conformance.HandleIsRun | src/daemon/server.cc:82-133 | Two reads of the worker take exactly the first frame, handle its message with the given answer and have the reply frame ready |
| Conformance.ReplyIsRun | src/daemon/server.cc:135-141 | Writing any first part of the reply is a run that appends exactly it, and hangs up unless it was all |
| Conformance.HandleOneIsRun | src/daemon/server.cc:79-144 | One turn of the server object's loop is a run: same message, same answer, same bytes in and out, and in step again if the loop goes on; a turn that takes no message hangs up with nothing written |
| Server.Server.GetStats | src/daemon/server.cc:60-77 | The snapshot holds all counters as they are and the whole seconds since the start |
| Server.StatsAnswerSays | src/daemon/server.cc:60-77 | Field by field, for every stats request of every run: its id, how many messages of each kind came before it, the sum and maximum of the rerank latencies before it and the version of the last, and the whole seconds since the start |
| Server.HowManyIs | src/daemon/server.cc:102-134 | The tally of a kind is the number of the messages of that kind |
| Server.Server.RaiseMax | src/daemon/server.cc:109-114 | The compare-and-swap loop leaves the larger of the old maximum and the latency, whatever exchanges fail spuriously |
| Server.Server.Receive | src/daemon/server.cc:82-100 | A message is taken exactly when a whole frame comes in under the two time limits and decodes; it is that of the first frame, which is then gone from the stream |
| Server.Server.Answer | src/daemon/server.cc:102-133 | The counters, the log and the reply change as the message's kind asks |
| Server.Server.Reply | src/daemon/server.cc:135-141 | A reply frame is written whole exactly when its transfer succeeds, else a strict prefix of it and the connection is given up |
| Server.Server.HandleConnection | src/daemon/server.cc:79-144 | However the loop ends, the worker has handled the first messages of the stream in order, counted and logged each, answered each rightly, and written the answers' frames, the last perhaps not whole; and it ended only because an answer could not be written whole or no message could be taken |
| Server.AllHandled | src/daemon/server.cc:79-144 | If the bytes of each message and answer move, in pieces of any sizes, within its time limits, the worker handles every message sent and writes every answer |
| Server.CountersCount | src/daemon/server.cc:102-133 | Each counter is its old value plus the number of messages of its kind, modulo 2^64 |
| Server.CommitsCounted | src/daemon/server.cc:124-127 | As many commits are logged as commits were handled |
| Server.LatenciesCount | src/daemon/server.cc:105-114 | The latency sum and maximum are those of the answers to rerank requests |
| Server.MessageSent | src/daemon/server.cc:82-100 | The n-th message of a stream of frames is the n-th one sent, and there is none after the last |
| Server.HandlesWhatWasSent | src/daemon/server.cc:79-144 | From a client's frames a worker handles a prefix of the messages sent, in order |
| Counters.RunsKeepInv | src/daemon/server.cc:103-117 | For any number of workers and any interleaving, every request that no worker holds is covered by the maximum, and the counters plus what workers still hold are exact |
| Counters.RequestCompletes | src/daemon/server.cc:103-117 | A worker left to itself counts its request once, adds its latency once, raises the maximum if it was below, and is done |
| Counters.WorkerRests | src/daemon/server.cc:109-114 | From any state a worker left to itself comes to rest |
| Counters.MaxNeverDrops | src/daemon/server.cc:109-114 | The maximum never decreases and is always 0 or the latency of some request |
| Counters.QuiescentCounters | src/daemon/server.cc:60-77 | With no request in flight the maximum is the largest latency, the counters are exact, and sum <= count * max |
| Counters.MeanAboveMaxInFlight | src/daemon/server.cc:105-114 | Read in the middle of a request, the same counters can have sum > count * max |
| Counters.MeanAboveMaxNeedsLaggard | src/daemon/server.cc:103-117 | In every run of fewer than 2^32 requests, sum > count * max only if some worker has added a latency above the maximum and not yet raised it |
| Counters.RunsKeepFlight | src/daemon/server.cc:103-117 | In every run, against any bound on the maximum and the latencies not yet raised to, the sum stays within count times that bound, with room for what workers have counted and not yet added |
| Counters.StatsReadOneByOne | src/daemon/server.cc:60-77 | With count, sum and maximum loaded at three moments and nothing counted between the first two, the mean is above the maximum only if a worker lagged when the sum was loaded |
| Counters.StatsReadAcrossRequest | src/daemon/server.cc:60-77 | A request that runs from start to end between the loads makes the mean shown exceed the maximum shown, with no worker busy at either moment |
| Utf8.MasksAreRanges | src/daemon/new_word.cc:17-32 | The byte ranges of the model are the mask tests of the code |
| Utf8.IsCharExactlyWhen | src/daemon/new_word.cc:17-32 | The characters of the checked walk are exactly the UTF-8 forms of one to four bytes, overlong ones and surrogates included |
| Utf8.LooseFirst | src/daemon/wubi_codec.cc:13-24 | The unchecked walk takes what the lead byte asks for, whatever follows, and stops where it cannot |
| Utf8.Utf8Len | src/daemon/new_word.cc:17-32 | The length of the character at a position, 0 past the end, on a bad lead byte, a cut or a bad continuation |
| Utf8.CharOffsets | src/daemon/new_word.cc:35-46 | The offsets are where the characters start |
| Utf8.SplitUtf8Chars | src/daemon/wubi_codec.cc:26-36 | The codec's split is the unchecked walk |
| Utf8.CharsCover | src/daemon/new_word.cc:35-46 | The walk yields only characters, and with what it leaves unread they are the text |
| Utf8.CharsOfConcat | src/daemon/new_word.cc:35-46 | Splitting a concatenation of characters followed by anything gives those characters first |
| Utf8.SplitConcat | src/daemon/new_word.cc:35-46 | Splitting a concatenation of characters gives them back, and it is well formed |
| Utf8.UniquelyDecodable | src/daemon/new_word.cc:17-46 | The concatenation of characters determines them |
| Utf8.LooseExtends | src/daemon/wubi_codec.cc:13-36 | The unchecked walk finds the checked walk's characters and goes on where that one stops |
| Utf8.WalksAgree | src/daemon/wubi_codec.cc:13-36 | The two walks find the same characters if and only if the unchecked one finds none in what the checked one left, in particular on well-formed text |
| History.PauseIsExact | src/daemon/new_word.cc:177-177 | In time order the unsigned time difference never wraps where it is tested |
| History.ClosedNonEmpty | src/daemon/new_word.cc:174-184 | No chain is empty |
| History.ChainsAre | src/daemon/new_word.cc:174-184 | The chains hold all tokens in order, each once, and a new one starts exactly where a pause longer than the gap comes before a token |
| History.EmitExtends | src/daemon/ngram.cc:221-231 | Continuing a chain emits exactly the neighbours that continuing adds |
| Ngram.NgramTable.IncrementBigram | src/daemon/ngram.cc:56-60 | The count of the pair goes up by one in 32 bits, nothing else changes, and empty strings are ignored |
| Ngram.NgramTable.BigramCount | src/daemon/ngram.cc:62-69 | The count of a pair, 0 if unseen |
| Ngram.EmitEntry | src/daemon/ngram.cc:219-231 | One entry's loop bumps each neighbouring pair once, coming from the previous character |
| Ngram.UpdateBigramsFromHistory | src/daemon/ngram.cc:197-235 | The table is the old one with every pair of the stream bumped in order, the result how many there were |
| Ngram.StreamIsNeighbours | src/daemon/ngram.cc:211-233 | The walk with one previous character emits exactly the neighbours inside the chains |
| Ngram.IncrementsCount | src/daemon/ngram.cc:225-228 | The increments are the characters walked minus the non-empty chains |
| Ngram.CountIsOccurrences | src/daemon/ngram.cc:56-60 | A pair's count is its old count plus the number of times it was emitted, modulo 2^32 |
| Ngram.TotalGrows | src/daemon/ngram.cc:56-60 | While no count overflows the sum of all counts grows by exactly the increments |
| NgramFile.Save | src/daemon/ngram.cc:92-123 | The bytes written are the image of some listing of the table: each pair once, whatever order the hash maps are walked in |
| NgramFile.HeaderBytes | src/daemon/ngram.cc:98-100 | A file starts with DAFNGRAM, version 1 and the number of pairs, low bytes first |
| NgramFile.RecordBytes | src/daemon/ngram.cc:111-115 | A record is each key behind its two-byte length and then the four-byte count, low bytes first |
| NgramFile.Load | src/daemon/ngram.cc:125-157 | The table and the result are those of reading the header and then records until one cannot be read |
| NgramFile.Size | src/daemon/ngram.cc:159-164 | The number of distinct pairs |
| NgramFile.ReadKeyFrom | src/daemon/ngram.cc:147-152 | A length and that many bytes, or failure |
| NgramFile.ReadBack | src/daemon/ngram.cc:111-115 | A written record followed by anything is read back as that record |
| NgramFile.CutRecord | src/daemon/ngram.cc:146-153 | A record that is cut anywhere is not read |
| NgramFile.LoadOfSave | src/daemon/ngram.cc:92-157 | With fewer than 2^32 pairs, loading a saved file succeeds if and only if no key was too long, then gives the same table, and otherwise still holds exactly the short pairs with their counts |
| NgramFile.LoadOfAnyImage | src/daemon/ngram.cc:92-157 | With any number of pairs: the announced count wraps at 2^32, that many of the written records are read, and Load succeeds if and only if there are as many |
| NgramFile.LoadsBackExactlyWhen | src/daemon/ngram.cc:92-157 | Whatever the order, a saved table loads back as itself if and only if no key is too long, none is without followers, and there are fewer than 2^32 pairs |
| NgramFile.PrefixRefused | src/daemon/ngram.cc:125-157 | Every strict prefix of a saved file is refused, and exactly the records that end before the cut are in the table |
| NgramFile.LoadKeepsReadable | src/daemon/ngram.cc:125-157 | Any file at all: with a bad header Load fails on an empty table; else the table holds the records that can be read, up to the announced number, and Load succeeds if and only if they reach it |
| NgramFile.FailedLoadEmptiesExactlyWhen | src/daemon/ngram.cc:125-157 | A failed Load leaves an empty table if and only if the header or the first record cannot be read |
| NgramFile.FailedLoadKeepsRecords | src/daemon/ngram.cc:144-155 | One whole record and one byte of the next: Load fails and the first record is in the table |
| NgramFile.LoadsBack | src/daemon/ngram.cc:92-157 | Any file Save can write for a tidy table of fewer than 2^32 short pairs loads as that table |
| NgramFile.SaveThenLoad | src/daemon/ngram.cc:92-157 | Saving one table and loading the bytes into another makes them equal |
| NgramFile.BumpTidy | src/daemon/ngram.cc:56-60 | Incrementing never leaves a key without followers |
| NewWord.EntryToTokens | src/daemon/new_word.cc:144-162 | The tokens of an entry: its characters, the last with the unread bytes, a code only if there is exactly one |
| NewWord.CutIs | src/daemon/new_word.cc:144-162 | An entry of one character is one token, its whole text with its code; any other entry gives its pieces no code; all carry the entry's time |
| NewWord.PieceAt | src/daemon/new_word.cc:152-156 | The substring between two start offsets is one character, and from the last offset on the last character with what follows |
| NewWord.PiecesCover | src/daemon/new_word.cc:152-156 | The pieces of an entry with a character in it put together are its text |
| NewWord.EmitWindow | src/daemon/new_word.cc:113-135 | One window is tallied under what it spells, with a code only if every token has one |
| NewWord.WindowsCount | src/daemon/new_word.cc:136-141 | There are as many windows as places where one fits, none in a shorter run |
| NewWord.WindowsAt | src/daemon/new_word.cc:136-141 | The window at each place is that of the tokens there |
| NewWord.EmitTokenNgrams | src/daemon/new_word.cc:109-142 | All windows of two and then of three tokens of a run are tallied |
| WordPlaces.EveryPlaceScanned | src/daemon/new_word.cc:136-141 | At every place of two tokens, if bigrams are wanted, and of three, if trigrams are, there is a window, and there are exactly as many windows as places |
| WordPlaces.AllPlacesAre | src/daemon/new_word.cc:136-141 | The places are all that fit, each once, run by run, in each pairs before triples; so many as the sizes of the runs say |
| WordPlaces.PlacesOfAre | src/daemon/new_word.cc:113-127 | The places of a string are all that fit and whose tokens put together are the string |
| WordPlaces.SpellingCounts | src/daemon/new_word.cc:113-127 | A string is scanned exactly as often as there are places that spell it |
| NewWord.TallyDescribes | src/daemon/new_word.cc:126-134 | A string is counted if and only if some window spells it, and its counter holds how many do, the first and last time, and the first longest code |
| NewWord.LooksLikeRealCandidate | src/daemon/new_word.cc:51-83 | True exactly for texts without blanks, not all ASCII, and not three or more times one character |
| NewWord.RejectedExactlyWhen | src/daemon/new_word.cc:51-83 | On well-formed text the filter rejects exactly texts with a blank, texts of nothing but ASCII, and three or more times one character |
| NewWord.GatherWords | src/daemon/new_word.cc:187-199 | Every counted string that passes threshold and filter yields one word with its counter's values, in whatever order the map is walked |
| NewWord.ScanChains | src/daemon/new_word.cc:170-184 | The chained scan tallies the windows of the chains of the sorted history |
| NewWord.Discover | src/daemon/new_word.cc:87-206 | The words are exactly the qualifying strings, each once, with frequency, first and last time and code as all its occurrences say, higher frequency first and then by text |
| WordPlaces.DiscoveryByPlaces | src/daemon/new_word.cc:87-206 | In terms of places alone: a string is listed if and only if it passes the filter and is spelled at a place, at no fewer places than the threshold; its frequency is the number of places, its times the least and greatest there, its code the longest there and of those the first met; by falling frequency and then by text |
| NewWord.DiscoveryUnique | src/daemon/new_word.cc:200-204 | That description determines the result: hash order and the sort's treatment of ties cannot change it |
| NewWord.LexTotal | src/daemon/new_word.cc:203-203 | Of two different texts exactly one comes before the other |
| NewWord.LexTransitive | src/daemon/new_word.cc:203-203 | The order of texts is transitive |
| NewWord.LexLessExactlyWhen | src/daemon/new_word.cc:203-203 | One text comes before another exactly if, after a common beginning, it ends or has the smaller byte |
| NewWord.CodedWindowIsTyped | src/daemon/new_word.cc:118-125 | A window has a code only if each of its characters was committed alone with a code, and it is those codes in order |
| NewWord.WindowPlace | src/daemon/new_word.cc:170-184 | Every window scanned is two or three neighbouring tokens of one chain |
| NewWord.WordCodeIsTyped | src/daemon/new_word.cc:118-134 | With chaining, a discovered word that has a code was typed: two or three neighbouring tokens of one chain spell it, each a character committed alone with a code, and its code is those codes in order |
| NewWord.NoCodePerEntry | src/daemon/new_word.cc:164-169 | Without chaining no discovered word has a code |
| Agreement.TwoPieces | src/daemon/new_word.cc:118-126 | Two pieces of text spell two characters only by being them |
| Agreement.ThreePieces | src/daemon/new_word.cc:118-126 | Three pieces never spell two characters |
| Agreement.NoTrigramSpells | src/daemon/new_word.cc:139-141 | No three-token window of any chain shares the key of a two-character string |
| Agreement.CountsDiffer | src/daemon/new_word.cc:109-185 | For every history, the stream counts a pair exactly as often as discovery plus the neighbours that are not whole characters |
| Agreement.AgreeExactlyWhen | src/daemon/ngram.cc:197-235 | The two walks agree on every pair of characters if and only if every token with a neighbour in its chain is a whole character |
| Agreement.TableAgreesWithWords | src/daemon/ngram.cc:197-235 | On well-formed texts the table's count of (a, b), the number of windows spelling a+b, and the frequency of the discovered word are the same |
| Agreement.StrayByteDisagrees | src/daemon/new_word.cc:153-156 | A stray byte after a character makes the two walks disagree |
| WubiCodec.WubiCodec.LoadFromDict | src/daemon/wubi_codec.cc:40-85 | The index is the one the lines teach in order; false only if the file cannot be opened |
| WubiCodec.WubiCodec.FullCode | src/daemon/wubi_codec.cc:87-91 | A character's code in the index, or empty |
| WubiCodec.WubiCodec.EncodePhrase | src/daemon/wubi_codec.cc:93-123 | The phrase code for the phrase's characters in this index |
| WubiCodec.IndexIsFirstLongest | src/daemon/wubi_codec.cc:55-91 | The index holds exactly the characters some single-character line gives a code, each with the first of the longest codes over all lines |
| WubiCodec.LineReadsBack | src/daemon/wubi_codec.cc:63-77 | A line of a character and a code, with or without more fields, contributes just that character and code |
| WubiCodec.LineSays | src/daemon/wubi_codec.cc:55-82 | Every line with a tab: it contributes exactly if it is no comment, its first field is one character and its second is not empty, and then that character and code |
| WubiCodec.NoTabNothing | src/daemon/wubi_codec.cc:63-66 | A line without a tab contributes nothing |
| WubiCodec.EncodeLength | src/daemon/wubi_codec.cc:93-123 | A phrase has a code if and only if it has two or more characters, all known; the code has at most four keys, and exactly four unless a code that gives two keys has only one |
| WubiCodec.ShortPhraseKeys | src/daemon/wubi_codec.cc:106-116 | Two characters give up to two keys each, in order; three give the first key of the first, the first of the second and up to two of the third |
| WubiCodec.LongPhraseKeys | src/daemon/wubi_codec.cc:117-121 | From four characters on the code is the first keys of the first three and of the last |
| WubiCodec.LongPhraseDependsOn | src/daemon/wubi_codec.cc:117-121 | It depends on nothing else, neither the characters between nor the rest of the index |
| WubiCodec.EncodeOfChars | src/daemon/wubi_codec.cc:93-95 | The codec splits a string of characters into those characters |
| LearningRound.Recode | src/daemon/learning_round.cc:49-57 | Each word's code becomes the canonical one if it has one, in place, and nothing else changes |
| LearningRound.WriteRows | src/daemon/user_dict.cc:139-144 | The rows are those of the words with a code, in order |
| LearningRound.CommitAndPush | src/daemon/learning_round.cc:92-101 | A commit happens only if asked for and possible, a push only of what was committed |
| LearningRound.RunLearningRound | src/daemon/learning_round.cc:13-116 | A round leaves the table bumped by what the first scan found, the words that the second scan found, re-encoded, the table's image and the rows, and its result says what was written |
| LearningRound.RoundByPlaces | src/daemon/learning_round.cc:27-38 | In the configuration's own numbers: the first scan adds to each pair how often it stands in the chains, the second lists exactly the strings that pass the filter at no fewer places than the threshold, as those places say; chains break at two seconds; each word is written with the canonical code of the dictionary if it has one, else with its own |
| LearningRound.RowSources | src/daemon/user_dict.cc:139-144 | Rows and words with a code correspond one to one, in order |
| LearningRound.RowsFromHistory | src/daemon/learning_round.cc:27-87 | A string has a row if and only if it qualifies and is either encodable or was typed with codes; its row holds the canonical code if there is one and the longest typed one otherwise, and its frequency, ranked |
| LearningRound.RowCodeIsTyped | src/daemon/learning_round.cc:49-57 | The code of a row that has no canonical one was typed character by character, in one chain |
| LearningRound.RoundTable | src/daemon/ngram.cc:197-235 | A table filled from empty has only characters as keys, all short, and no more pairs than increments |
| LearningRound.RoundsRepeat | src/daemon/auto_learn.cc:154-173 | Two rounds from empty tables on an unchanged history leave the same words, rows and table, and either n-gram file loads back as that table |
| LearningRound.TwoRounds | src/daemon/auto_learn.cc:154-173 | Two consecutive rounds on an unchanged history, each with its own table, write the same words, rows and loadable counts |
| LearningRound.RoundAgrees | src/daemon/learning_round.cc:27-38 | If both scans of a round saw the same well-formed entries, every two-character word's frequency is its count in the table |
| RimeTable.WriteTable | src/daemon/user_dict.cc:139-144 | The loop writes the lines of the rows of the words with a code, in order |
| RimeTable.DecimalRoundTrip | src/daemon/user_dict.cc:142-142 | A frequency printed in decimal reads back as itself |
| RimeTable.DecimalOfLargest | src/daemon/user_dict.cc:142-142 | The largest frequency, digit by digit |
| RimeTable.RowRoundTrip | src/daemon/user_dict.cc:142-142 | A line whose text and code hold no separator reads back as its row |
| RimeTable.LineColumns | src/daemon/user_dict.cc:142-142 | A line is the text, the code and the decimal weight, in this order, with exactly the two tabs between them |
| RimeTable.TableReadsBackExactlyWhen | src/daemon/user_dict.cc:139-144 | The text read by lines and tabs gives exactly the rows written if and only if no text and no code holds a tab or a newline |
| RimeTable.DictionaryCodesPlain | src/daemon/wubi_codec.cc:40-85 | Codes learned from dictionary lines hold neither tab nor newline |
| RimeTable.RoundTableReadsBackExactlyWhen | src/daemon/learning_round.cc:49-87 | For a whole round: the dictionary reads back as its rows if and only if every code that is not canonical is free of tabs and newlines |
| AutoLearn.AutoLearnRunner.constructor | src/daemon/auto_learn.cc:57-75 | A new runner has never recorded a count and last ran a day ago |
| AutoLearn.AutoLearnRunner.Start | src/daemon/auto_learn.cc:79-90 | The time and the entry count are recorded, once |
| AutoLearn.AutoLearnRunner.ShouldRun | src/daemon/auto_learn.cc:126-152 | True exactly when there are more entries than recorded, the interval has passed if there is one, and the latest commit is old enough if an age is set |
| AutoLearn.AutoLearnRunner.RunOneRound | src/daemon/auto_learn.cc:154-206 | A round with an empty table; a thrown one moves only the time; one that does not throw is counted and records time and count; its words are added if both files were written; notify is called, with the number of words, exactly if there were some, both files were written and the redeploy succeeded |
| AutoLearn.StepKeepsInv | src/daemon/auto_learn.cc:79-206 | Every event keeps the record lawful and the runner's memory in step with it |
| AutoLearn.RunsAreLawful | src/daemon/auto_learn.cc:79-206 | The same over every run of inserts, prunes, clock changes, starts, stops, ticks and round ends |
| AutoLearn.EveryRoundPassedItsGates | src/daemon/auto_learn.cc:126-152 | Every round begins with more commits inserted than pruned since the count was recorded, no sooner than the interval after the last start or end of a round, thrown ones included, and with the latest commit old enough |
| AutoLearn.WakeBeginsExactlyWhen | src/daemon/auto_learn.cc:110-152 | In every run waking begins a round if and only if the runner is started, not stopped and not in a round, more commits were inserted than pruned since the count was recorded, the interval has passed and every commit is old enough; else it changes nothing |
| AutoLearn.StopStops | src/daemon/auto_learn.cc:92-117 | Once stopped, no round begins until the runner is started again |
| AutoLearn.Restarts | src/daemon/auto_learn.cc:79-101 | A stopped runner that has exited can be started again, with the time and count of that start |
| AutoLearn.SurvivingAre | src/daemon/history_store.cc:126-142 | Pruning removes exactly the older commits |
| AutoLearn.RoundRate | src/daemon/auto_learn.cc:79-90 | However often it is woken, stopped and restarted, the runner begins no more rounds than intervals fit since it was first started |
| AutoLearn.TotalsAndNotices | src/daemon/auto_learn.cc:181-206 | The total is the sum over clean rounds that wrote words, and notify was called for exactly those that were redeployed |
| AutoLearn.CountGateIsNet | src/daemon/auto_learn.cc:129-131 | The count gate passes if and only if more commits were inserted than pruned since the count was recorded |
| AutoLearn.CountGateWithoutPrune | src/daemon/auto_learn.cc:129-131 | In a run without pruning, as all runs of the program are, the count gate passes if and only if a commit was inserted after the count was recorded |
| AutoLearn.CommitDuringRoundIsNotNew | src/daemon/auto_learn.cc:181-183 | A commit inserted while a round runs is counted at its end, and waking does nothing until another comes, however much time passes |
| AutoLearn.PruneHidesNewCommit | src/daemon/auto_learn.cc:129-131 | One commit pruned and a new one typed: waking would do nothing however much time passes |
| Quoting.EscapeYamlString | src/daemon/user_dict.cc:15-42 | The output is the escaped bytes between two quotes |
| Quoting.YamlRoundTrip | src/daemon/user_dict.cc:15-42 | Read as a double-quoted scalar of YAML 1.2.2 (sections 5.7 and 7.3.1), every byte string comes back, and the scalar ends at its own last quote |
| Quoting.NoRawControls | src/daemon/user_dict.cc:31-36 | No byte below 0x20 is left raw |
| Quoting.ShellQuote | src/daemon/auto_learn.cc:45-53 | The output is the quoted form of the string |
| Quoting.ShellRoundTrip | src/daemon/auto_learn.cc:45-53 | Read by the quoting rules of section 2.2 of the POSIX Shell Command Language, the output is exactly one word equal to the input |
| Quoting.ShellWordExactlyWhen | src/daemon/auto_learn.cc:45-53 | Through a C string that holds if and only if there is no NUL; otherwise the quote is left open and the shell refuses the command |
| Quoting.DeployCommand | src/daemon/auto_learn.cc:219-221 | The command is the two quoted paths, the flag and the redirections |
| Quoting.CommandIsThreeWords | src/daemon/auto_learn.cc:219-222 | Passed on as a C string, the shell splits it into the deployer, the flag and the directory if and only if neither path holds a NUL; otherwise it ends inside an open quote |
| Reranker.FnvHash | src/daemon/reranker_deterministic.cc:57-64 | The loop computes the 32-bit FNV-1a hash |
| Reranker.FnvVectors | src/daemon/reranker_deterministic.cc:57-64 | It has the published values for the empty string, a and b |
| Reranker.LastUtf8Char | src/daemon/reranker_deterministic.cc:67-75 | The bytes from the last non-continuation byte on, or all of them |
| Reranker.LastCharIsLast | src/daemon/reranker_deterministic.cc:67-75 | On well-formed text that is the last character of the forward walk |
| Reranker.ScoreCandidate | src/daemon/reranker_deterministic.cc:82-112 | The score in tenths: repetition, table hit, clipped length, tie-breaker |
| Reranker.FavorIsFirstChar | src/daemon/reranker_deterministic.cc:77-80 | The byte prefix test against the table is a test of the candidate's first character |
| Reranker.FollowersAreKnown | src/daemon/reranker_deterministic.cc:92-101 | After the first character of any pair of the table, whatever starts with the second is known |
| Reranker.HitsDoNotRepeat | src/daemon/reranker_deterministic.cc:36-52 | A candidate the table favours never repeats the context's last character |
| Reranker.ScoreBounds | src/daemon/reranker_deterministic.cc:82-112 | A hit scores from 11.5 to 16.6, a miss from -5.0 to 6.6 |
| Reranker.SortKeeps | src/daemon/reranker_deterministic.cc:140-144 | The stable sort keeps every item, descends, and keeps the order of equals |
| Reranker.Rerank | src/daemon/reranker_deterministic.cc:116-158 | Every index once with its own score, descending, equal scores in the order they came |
| Reranker.RankingUnique | src/daemon/reranker_deterministic.cc:140-151 | That description determines the order |
| Reranker.HitsFirst | src/daemon/reranker_deterministic.cc:92-101 | Every candidate the table knows comes before every one it does not |
| Reranker.RepeatsComeLate | src/daemon/reranker_deterministic.cc:86-90 | Among the others a repeating candidate precedes a fresh one only with at least nine more bytes of clipped length |
| Reranker.MuchLongerRepeats | src/daemon/reranker_deterministic.cc:86-105 | Twelve bytes of clipped length outweigh the penalty for repeating |
| Reranker.LongerFirst | src/daemon/reranker_deterministic.cc:103-105 | Of two candidates alike in repeating and in being known, the one with two more bytes of clipped length comes first |
| Reranker.TiesByHash | src/daemon/reranker_deterministic.cc:107-109 | Of two that are alike and equally long, the one whose hash with the context is greater modulo 7 comes first, then the one that came first |
| Reranker.RepeatsIsFirstChar | src/daemon/reranker_deterministic.cc:86-90 | A candidate repeats a character if and only if it is its first |
| CandidateOrder.ComputeOrder | src/plugin/dafeng_rerank.lua:42-109 | The loops yield the specified order for every option and every answer of the client |
| CandidateOrder.EmitReranked | src/plugin/dafeng_rerank.lua:76-88 | In-range indices in the daemon's order, then every dropped one in the original order |
| CandidateOrder.MissingIs | src/plugin/dafeng_rerank.lua:85-88 | The repair yields exactly the block's indices that were dropped, in ascending order |
| CandidateOrder.NothingLost | src/plugin/dafeng_rerank.lua:76-106 | Whatever the client answers, exactly the indices 1..n are yielded, each at least once |
| CandidateOrder.PlainOrder | src/plugin/dafeng_rerank.lua:49-53 | With the filter off, no client, or max_rerank missing or below 1, the order is 1, ..., n |
| CandidateOrder.RerankedOrder | src/plugin/dafeng_rerank.lua:55-106 | Otherwise, in the options' own numbers: the first protect_top_n stand where they stood, so does everything behind the max_rerank after them, and between stands what becomes of the reply to exactly the texts between: the ones it names, then the ones it left out |
| CandidateOrder.UnusableReply | src/plugin/dafeng_rerank.lua:89-102 | An error, nil and a reply without indices leave the order as it was |
| CandidateOrder.AcceptedParts | src/plugin/dafeng_rerank.lua:78-84 | A reply is taken index by index, in its order |
| CandidateOrder.AcceptedOne | src/plugin/dafeng_rerank.lua:79-83 | An index of 1, ..., e - p is the candidate that far behind the prefix, any other is dropped |
| CandidateOrder.PrefixAndTailStay | src/plugin/dafeng_rerank.lua:55-60 | The protected prefix and the tail stand where they stood |
| CandidateOrder.PermutationExactlyWhen | src/plugin/dafeng_rerank.lua:76-102 | The order is free of duplicates if and only if the in-range indices of the reply are; for nil, an error or an empty reply it always is |
| CandidateOrder.AcceptedDistinct | src/plugin/dafeng_rerank.lua:78-84 | The range test and the shift make no duplicates out of a reply without any |
| CandidateOrder.DistinctReplyPermutes | src/plugin/dafeng_rerank.lua:76-102 | With a client whose replies never repeat an index, in or out of range, the order is always free of duplicates |
| CandidateOrder.DuplicateIsYieldedTwice | src/plugin/dafeng_rerank.lua:78-84 | The daemon answers 1 twice and one candidate is yielded twice |
| CandidateOrder.RankedBlock | src/plugin/dafeng_lua_bridge.c:106-110 | With the deterministic reranker behind the bridge's index shift, the order is a permutation with the block exactly in the daemon's order |

## Left out

- Floating point on the wire: scores travel as opaque words. The packer's choice between float formats, and the conversion of an integer or a 64-bit float into a score, are not modelled; neither is the unpacker's depth limit.
- Protocol.DecodeBody: messages with lists of 2^32 or more elements, on which the packer throws, have no body here.
- Endpoint.UnixConnection.ReadFull: poll waits at most its budget, and read and write return at once when it says ready. One script serves reads and writes in the order they are made. A deadline past the range of the clock is not modelled.
- Client.DafengClient.Request: Rerank, GetStats and Ping are one method with the message as parameter; `timeout` is not negative.
- Server.Server.HandleConnection: one worker at a time. Interleaving with other workers is in Counters and Ipc; the accept loop, threads and shutdown are left out. Decoding, reranking, logging and counting take no time of their own.
- Conformance.RequestIsRun: the workers' steps that bring the peer's stream are taken to fall between the request and its reply; a request or a commit that must first connect is in Client only.
- Conformance.HandleOneIsRun: an answer whose body reaches 2^32 bytes has no frame in Ipc; such a turn is not matched with a run.
- Counters.RunsKeepInv: covers the rerank counters; ping, commit and error counters are single atomic additions, and the model version is a plain store. The atomics are relaxed; the model interleaves single steps on one memory, so a reader that sees updates of different counters out of order is not modelled.
- LearningRound.RoundsRepeat: both rounds find the store alike, scan by scan; RunLearningRound itself allows commits between its two scans.
- NgramFile.Save: the temporary file, the rename and write errors are left out; the bytes are what would be written.
- Ngram.NgramTable.BigramCount: `TopFollowers`, a partial sort by count with unspecified ties, is left out as it would only add easy members.
- NewWord.Discover: works on the entries the store returned; SQL and the store's mutex are left out.
- LearningRound.RunLearningRound: file writing, the sentinel, the clock and git are outcomes given from outside; the YAML headers of the two files, with their timestamps, are left out.
- AutoLearn.RunsAreLawful: a tick reads count, clocks and latest commit in one step; the thread, its condition variable and a runner without a history are left out, and so are calls of `TickForTesting` on a runner that was never started.
- AutoLearn.AutoLearnRunner.RunOneRound: what a round that throws may already have written is left out.
- Quoting.YamlRoundTrip: line folding of scalars over several lines is left out; the output never has a line break.
- Quoting.ShellRoundTrip: the reader covers words made of plain bytes, backslashes and single quotes and stops at any other special byte.
- Reranker.ScoreBounds: scores are exact tenths, without rounding to 32-bit floats; candidates are shorter than 2^31 bytes, as any candidate in a frame is.
- Reranker.Rerank: fewer than 2^31 candidates, as any frame holds; ids, latency and the version field are left out.
- CandidateOrder.ComputeOrder: option values are integers; the fallback log is left out.
- The SQLite history store, git synchronisation, the model-backed rerankers, the Windows endpoint, the command-line tools, the Inspector application, installation scripts: not part of this model.
