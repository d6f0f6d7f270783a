# Raw segmented response reassembly over a non-blocking blob channel

This project models the client side of the "raw" request/response cycle in the perf demo:
`run_capnp_over_raw()`'s `struct Algo` and the abort rule of the `ev_wait` function it installs.
The client sends one request word on a blob channel. It then receives the response as blobs:

- the segment count N;
- for each segment, its length header and then its body, split over any number of blobs;
- once the N-th segment is full, it hands the segments to the decoder as arrays of 8-byte words.

Every receive is non-blocking. It either completes inline or reports would-block and registers a
continuation. The event loop later runs that continuation, or drops it if the wait was aborted at
shutdown.

Module layout:

- `Wire` (wire.dfy): bytes and `size_t` words as they cross the channel. A word is decoded and
  encoded little-endian (the native layout; both peers run on one machine). The module also has
  the byte-overwrite effect of a receive and the view of a byte buffer as an array of words.
- `Reassembly` (reassembly.dfy): the fields of `Algo` as a value (`State`) and a `Blob` as storage
  plus size. It defines one receive's memory effect (`Land`, `Receive`), `on_n_segs`'s gate
  (`AcceptCount`), one `handle_blob` step, and the word arrays of `on_complete_response`.
- `Protocol` (protocol.dfy): the control flow as pure functions of a scripted channel. This covers
  `start`, `on_n_segs`, the drain loop of `read_segs`, `on_blob`, `ev_wait`'s continuation and the
  event loop.
  - The channel is a script of arrivals, one per receive call. An `Immediate` arrival completes the
    receive inline. A `Deferred` arrival reports would-block, and its continuation later fires with
    the arrival. An `Aborted` arrival reports would-block, and its wait is aborted.
  - An exhausted script makes a receive wait forever.
- `Framing` (framing.dfy): the properties of a whole cycle. Any mix of synchronous and deferred
  completions ends where a synchronous reference (`Feed`) ends. A well-framed response reassembles
  into exactly its segments for any split of each body into non-empty blobs. The count gate has an
  outcome for each kind of first blob.
- `RawClient` (raw_client.dfy): the imperative model.
  - `Algo` is a class with the source's fields (`m_err_code`, `m_sz`, `m_n`, `m_n_segs`,
    `m_segs`, `m_new_seg_next`). Its methods update those fields in place.
  - `BlobChannel` is the scripted channel it drives.
  - Each `Algo` method is proved against a pure function. `Start`, `OnNSegs`, `ReadSegs`,
    `OnBlob` and `EvWait` are proved against the `Protocol` function of the same name, and
    `HandleBlob` against `Reassembly.HandleBlob`.
  - `Deposit` and `Accept` are proved against `Reassembly.Land` and `Reassembly.Receive`.
    `ReadSeg` (one pass of the drain loop) is proved against `Protocol.ReadSegs`, and `Run`
    against `Protocol.Exchange`. Everything proved about those functions therefore holds of the
    class.

Behaviour of the code worth noting:

- A zero segment count or a zero segment-length header is rejected by a C++ `assert`, not by a
  protocol error. It is modelled as the failure `AssertionFailed`, with the assertion's text.
- The count's blob size is checked, but a segment-length header's size is not. A header blob
  shorter than 8 bytes overwrites only the low-order bytes of `m_n`
  (`Framing.HeaderSizeUnchecked`).
- The request sent at main_cli.cpp:128 is the 8 bytes of `m_n`, still 0. Its content carries no
  meaning.
- No verification of the decoded response exists in the code. The cycle ends when the word arrays
  are handed to the decoder.

## Model

| member | source | states |
|---|---|---|
| Wire.DecodeEncode | test/suite/perf_demo/main_cli.cpp:128-141 | a count or header value that fits a `size_t` is recovered exactly from its 8 bytes |
| Wire.EncodeDecode | test/suite/perf_demo/main_cli.cpp:130-141 | the 8 bytes of `m_n` are recovered from the value read out of them, so the word encoding is a bijection |
| Wire.Overwrite | test/suite/perf_demo/main_cli.cpp:152-158 | a receive into a buffer replaces exactly the bytes it delivered and keeps all bytes before and after them |
| Wire.Chunks | test/suite/perf_demo/main_cli.cpp:211-215 | a buffer seen as words has `size / sizeof(word)` words of 8 bytes whose concatenation is the buffer up to its last whole word |
| Reassembly.Initial | test/suite/perf_demo/main_cli.cpp:110-119 | `Algo` starts with `m_n == 0`, no segments and a header (the count) expected next |
| Reassembly.Land | test/suite/perf_demo/main_cli.cpp:152-158 | a receive writes into `m_n` when a header is expected, else just past the end of the last blob; the blob's size and content are unchanged, and the reassembly invariant is kept |
| Reassembly.Transfer | test/suite/perf_demo/main_cli.cpp:152-161 | a receive succeeds exactly when a blob arrived that fits the buffer offered, and then delivers that blob; otherwise it reports an error other than would-block and no bytes |
| Reassembly.Receive | test/suite/perf_demo/main_cli.cpp:130-132 | a completed receive sets `m_err_code` and `m_sz`: on success the bytes have landed and `m_sz` is their count; on error the state is untouched and `m_sz` is 0 |
| Reassembly.AcceptCount | test/suite/perf_demo/main_cli.cpp:135-142 | the count is accepted iff the receive succeeded with exactly `sizeof(m_n)` bytes and `m_n != 0`, each other case fails as in the source, and an accepted count becomes `m_n_segs` with the list empty |
| Reassembly.HandleBlob | test/suite/perf_demo/main_cli.cpp:175-202 | an error code throws with the `on_seg_sz()` site; otherwise the step keeps the reassembly invariant, and completion leaves exactly `m_n_segs` full blobs |
| Reassembly.HeaderStep | test/suite/perf_demo/main_cli.cpp:178-185 | a zero header fails iff `m_n == 0`; otherwise exactly one blob is appended with capacity `m_n` and size 0, earlier segments are unchanged and body bytes are expected next |
| Reassembly.BodyStep | test/suite/perf_demo/main_cli.cpp:186-199 | the last blob grows by exactly `sz` over the same storage and nothing else changes; completion happens iff it is full and is the N-th; a full blob short of N makes the next blob a header |
| Reassembly.WordArrays | test/suite/perf_demo/main_cli.cpp:208-216 | one word array per blob, in blob order, each being that blob's content seen as words |
| Protocol.Poll | test/suite/perf_demo/main_cli.cpp:152-161 | a receive completes with the next arrival exactly when it is an inline one; a deferred arrival registers the given handler with a wait that fires with it, an aborted one a wait that is aborted, an exhausted script a wait that never ends; one script entry is consumed |
| Protocol.ReadSegs | test/suite/perf_demo/main_cli.cpp:146-164 | the drain loop never ends idle; any continuation it leaves is `on_blob`; a would-block leaves the state exactly as it was |
| Protocol.OnBlob | test/suite/perf_demo/main_cli.cpp:166-173 | an error code throws with the `on_seg_sz()` site and consumes nothing; otherwise the run stays sound and never ends idle |
| Protocol.OnNSegs | test/suite/perf_demo/main_cli.cpp:135-144 | after the count gate the run stays sound, consumes at most the script and never ends idle |
| Protocol.Start | test/suite/perf_demo/main_cli.cpp:121-133 | receiving the count from the initial state leaves a sound status |
| Protocol.EvWait | test/suite/perf_demo/main_cli.cpp:234-250 | an aborted wait leaves the state, the script and the error status untouched and runs nothing, and only an aborted wait does so |
| Protocol.Dispatch | test/suite/perf_demo/main_cli.cpp:241-248 | a fired wait's continuation, run on the completed receive, leaves a sound status, consumes at most the script and never ends idle |
| Protocol.Loop | test/suite/perf_demo/main_cli.cpp:224-225 | the event loop stops at a final status: finished, failed, dropped after an aborted wait, or waiting forever on a receive that never completes; a status already final stays as it is |
| Protocol.Exchange | test/suite/perf_demo/main_cli.cpp:223-225 | a whole cycle stops at a sound final status: finished, failed, dropped after an aborted wait, or waiting forever on a receive that never completes |
| Framing.DrainMatchesFeed | test/suite/perf_demo/main_cli.cpp:146-173 | whichever receives complete inline and whichever after a would-block, reassembly ends where the synchronous reference ends |
| Framing.FeedFragment | test/suite/perf_demo/main_cli.cpp:186-199 | one body blob appends its bytes to the last segment's content and grows its size by their count; the run then completes, reads a header or keeps filling, as the fill says |
| Framing.FeedBody | test/suite/perf_demo/main_cli.cpp:186-199 | body bytes split over any non-empty blobs that fill the segment exactly leave it holding them in order, then complete the response or expect a header |
| Framing.FeedBodyMore | test/suite/perf_demo/main_cli.cpp:186-199 | the same for two or more blobs, where the first fills the segment only partly |
| Framing.FeedHeader | test/suite/perf_demo/main_cli.cpp:178-185 | a non-zero length header opens an empty segment of that capacity and expects body bytes |
| Framing.HeaderSizeUnchecked | test/suite/perf_demo/main_cli.cpp:150-154 | a header blob shorter than `sizeof(m_n)` is accepted; the new segment's capacity comes from its bytes over the rest of the previous `m_n` |
| Framing.FilledAt | test/suite/perf_demo/main_cli.cpp:183-190 | the i-th reassembled blob is full and holds the i-th body |
| Framing.FeedSegment | test/suite/perf_demo/main_cli.cpp:175-202 | one header plus its body appends exactly one full blob holding the body, then completes or expects the next header |
| Framing.FeedSegments | test/suite/perf_demo/main_cli.cpp:175-202 | the remaining segments complete the response, appending exactly one full blob per segment in order |
| Framing.FeedSegmentsMore | test/suite/perf_demo/main_cli.cpp:175-202 | the same for two or more remaining segments |
| Framing.ExchangeReassembles | test/suite/perf_demo/main_cli.cpp:121-202 | for N >= 1 non-empty segments, any split of each body into non-empty blobs and any mix of synchronous and deferred completions, the cycle finishes with exactly N full blobs, the i-th holding the i-th body |
| Framing.CountGate | test/suite/perf_demo/main_cli.cpp:130-143 | the first blob throws on a transport error or an over-long blob, fails an assertion if shorter than 8 bytes or zero, and otherwise becomes `m_n_segs` before segments are read into an empty list |
| RawClient.BlobChannel.constructor | test/suite/perf_demo/main_cli.cpp:117-119 | a channel starts with its script, no pending wait and nothing sent |
| RawClient.BlobChannel.SendBlob | test/suite/perf_demo/main_cli.cpp:128 | sending appends the blob and leaves the receive side untouched |
| RawClient.BlobChannel.AsyncReceiveBlob | test/suite/perf_demo/main_cli.cpp:130-132 | a receive consumes one arrival, and either reports would-block and registers the continuation, or delivers what the arrival transfers into the buffer offered |
| RawClient.BlobChannel.TakePending | test/suite/perf_demo/main_cli.cpp:241-248 | the event loop takes the one registered continuation, leaving none |
| RawClient.Algo.constructor | test/suite/perf_demo/main_cli.cpp:106-119 | a new `Algo` is in the initial state and has decoded nothing |
| RawClient.Algo.Deposit | test/suite/perf_demo/main_cli.cpp:152-158 | the fields change exactly as `Land` says |
| RawClient.Algo.Accept | test/suite/perf_demo/main_cli.cpp:130-132 | for a receive that completes inline, `m_err_code`, `m_sz` and the fields end as `Receive` says for the arrival delivered |
| RawClient.Algo.Start | test/suite/perf_demo/main_cli.cpp:121-133 | sends exactly the zero request word, then ends where `Protocol.Start` says |
| RawClient.Algo.OnNSegs | test/suite/perf_demo/main_cli.cpp:135-144 | ends where `Protocol.OnNSegs` says and sends nothing |
| RawClient.Algo.ReadSegs | test/suite/perf_demo/main_cli.cpp:146-164 | the loop ends where `Protocol.ReadSegs` says |
| RawClient.Algo.ReadSeg | test/suite/perf_demo/main_cli.cpp:148-163 | one pass of the loop either ends the call as `Protocol.ReadSegs` says, or consumes an arrival and keeps that outcome |
| RawClient.Algo.OnBlob | test/suite/perf_demo/main_cli.cpp:166-173 | ends where `Protocol.OnBlob` says |
| RawClient.Algo.HandleBlob | test/suite/perf_demo/main_cli.cpp:175-202 | returns true with the word arrays handed on exactly when `Reassembly.HandleBlob` completes, false when it continues, and throws its failure otherwise, the fields ending in its new state |
| RawClient.Algo.OnCompleteResponse | test/suite/perf_demo/main_cli.cpp:204-216 | one word array per blob in order, the i-th having `size / sizeof(word)` words, which followed by the trailing partial word give back the blob's content |
| RawClient.Algo.EvWait | test/suite/perf_demo/main_cli.cpp:234-250 | an aborted wait runs nothing; a fired one completes the receive and passes its code and size to the continuation as arguments; both end where `Protocol.EvWait` says |
| RawClient.Algo.Run | test/suite/perf_demo/main_cli.cpp:223-225 | posts `start` and runs the event loop to the end, sending the request word once and ending where `Protocol.Exchange` says |

## Left out

- `main()`, process and session setup and channel construction are not part of this model. They
  are I/O and bootstrap, and the cycle starts from a ready channel.
- The Cap'n Proto decoding (`SegmentArrayMessageReader`, `getRoot`) is out of scope. The model ends
  with the word arrays handed to the decoder, and the message schema is opaque.
- The response check marked `XXX` is out of scope. The code checks nothing, so the model proves
  nothing about response contents beyond reassembly.
- `run_capnp_zero_copy()` is out of scope. Its body is empty in the code.
- Installing the event-wait handles (`replace_event_wait_handles`, `start_*_blob_ops`) is not
  modelled. `asio`'s own scheduling is reduced to running the one pending continuation at a time.
- Send errors and the timing of the sent request are not modelled. `send_blob`'s result is not
  inspected by the code.
- Allocation failure in `emplace_back` and `reserve` is not modelled.
- Builds with `NDEBUG` are not modelled. There `assert` is compiled out, and a zero count or header
  would go on unchecked; every `assert` here is a failure.
- A blob larger than the buffer a receive offers is modelled as a channel error (`TooLarge`). This
  describes the external channel library, which is not part of this model.
- Fresh blob storage is zeros. It stands in for uninitialised memory that the code never reads
  below a blob's size.
- Wire.Decode: fixes the native `size_t` layout as little-endian 8 bytes, as on the 64-bit hosts
  the program targets.
- Protocol.Loop: a receive whose wait never ends (`Waiting` with `Never`) counts as a final
  status. There the code's `m_asio.run()` blocks forever instead of returning.
- conanfile.py is packaging metadata and is not part of this model.
