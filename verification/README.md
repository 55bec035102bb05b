# WiVRn video encoder core, modelled in Dafny

WiVRn streams rendered frames from a PC to a standalone VR headset. On the
server, `VideoEncoder` (in `server/encoder/video_encoder.cpp`) drives a
hardware or software encoder for one video stream. Two pieces of it are
modelled here:

- **The keyframe (IDR) throttle.** `SyncNeeded` raises a deferred request
  for an IDR frame. `Encode` takes the request and clears it. A request that
  arrives fewer than 100 frames after the last IDR is put back for a later
  frame. On a new frame, `Encode` also resets the shard template: stream
  index, frame index, shard 0, view info attached, no timing block.
- **The shard fragmenter.** `SendData` slices one encoded payload into wire
  shards. Each shard carries at most the protocol's payload bound. The
  view-info block travels once per frame and takes room from the shard that
  carries it. The flags start_of_slice, end_of_slice and end_of_frame mark
  the call's first and last shards, and the frame's timing block is copied
  onto the end-of-frame shard.

Files:

- `packets.dfy` (module `Packets`): the shard, its flags, the view-info and
  timing blocks, and the two protocol sizes (`Limits`).
- `keyframe_throttle.dfy` (module `KeyframeThrottle`): the throttle decision
  as a function, and lemmas over runs of requests and frames.
- `fragmenter.dfy` (module `Fragmenter`): what one `SendData` call sends and
  leaves behind, as functions, and lemmas about them: round trip, bounds,
  flags, counts, and several calls for one frame.
- `video_encoder.dfy` (module `VideoEncoding`): the class `VideoEncoder` with
  the fields the source updates in place. Its methods are proved against the
  functions above. The transport's `send_stream` appends to the ghost field `sent`, which the program never reads.
- `dump_file.dfy` (module `DumpFile`): the capture-file name built in `Create`.

What the code does in places a reader may not expect:

- start_of_slice is set on the first shard of every `SendData` call
  (line 223), not only when the shard index is 0 at entry.
- Send begin is stamped at the entry of any call made while the shard index
  is still 0 (lines 217-221). This includes a call with empty data, and the
  next call stamps it again. Send end is stamped at the entry of a terminal
  call, before any shard goes out (lines 213-214). Within one call that
  ends a frame as its first, send end is read from the clock (line 214)
  before send begin (line 220), so send end is the earlier reading. The
  model takes both readings as parameters and does not order them.
- The view-info block is on at most one shard per frame. It is on the
  frame's first shard, which exists only if some call sends data.
- The timing block copied onto the end-of-frame shard (line 237) is not
  cleared from the template again before the next `Encode` (line 199). A
  later call in the same frame would carry it on every shard; `Fragmenter.FragmentsFlags` states this as "other shards
  keep the template's timing block".
- The throttle comparison `frame_index < last_idr_frame + idr_throttle`
  (line 180) is computed in 64-bit unsigned arithmetic. The initial
  `-idr_throttle` therefore gives a bound of 0. The model writes this
  wrap-around out (`KeyframeThrottle.Deadline`).

## Model

| member | source | states |
|---|---|---|
| `KeyframeThrottle.Deadline` | server/encoder/video_encoder.cpp:180 | The bound `last_idr_frame + idr_throttle` in 64-bit unsigned arithmetic: the plain sum while it stays below 2^64, the sum less 2^64 once it wraps. `Throttle` compares against it. |
| `KeyframeThrottle.ThrottleWrapsNearLimit` | server/encoder/video_encoder.cpp:178-187 | After an IDR at 2^64 - 50 the bound wraps to 50, so a request at 2^64 - 20, 30 frames later, is honoured: the spacing promise does not hold across the wrap. |
| `KeyframeThrottle.Throttle` | server/encoder/video_encoder.cpp:178-187 | An IDR needs a pending request, clears it and records this frame as the last IDR. A plain frame leaves the throttle state exactly as it was, so a throttled request stays pending and a missing one stays missing. Away from 64-bit wrap-around, the frame is an IDR exactly when a request is pending and the frame is at least 100 past the last IDR. |
| `KeyframeThrottle.Request` | server/encoder/video_encoder.cpp:165-168 | Raising the request sets the flag and leaves the last IDR frame alone. |
| `KeyframeThrottle.RequestIdempotent` | server/encoder/video_encoder.cpp:165-168 | Raising the request twice is the same as raising it once. |
| `KeyframeThrottle.FirstRequestHonoured` | server/encoder/video_encoder.cpp:152-187 | From a new encoder (last IDR at -100), the first request is honoured at whatever frame index comes next, 0 included. |
| `KeyframeThrottle.IdrSpacing` | server/encoder/video_encoder.cpp:178-187 | In any run of requests and frames, each IDR frame is at least 100 after the last IDR before the run, and any two IDR frames of the run are at least 100 apart. This holds whatever order the frame indices come in. |
| `KeyframeThrottle.RequestKept` | server/encoder/video_encoder.cpp:178-185 | A pending request is never dropped. After any run, an IDR was encoded or the request is still pending. |
| `KeyframeThrottle.RequestHonouredWhenDue` | server/encoder/video_encoder.cpp:178-187 | A pending request is honoured no later than the first frame at least 100 past the last IDR. |
| `VideoEncoding.VideoEncoder.constructor` | server/encoder/video_encoder.cpp:152-157 | A new encoder has its last IDR at -100, the request flag it is given, and has sent nothing. |
| `VideoEncoding.VideoEncoder.SyncNeeded` | server/encoder/video_encoder.cpp:165-168 | Sets the deferred request and changes no other field. |
| `VideoEncoding.VideoEncoder.Encode` | server/encoder/video_encoder.cpp:170-199 | Returns the IDR decision of `Throttle` and leaves the throttle fields in the state it gives. Records the encode-begin stamp. Resets the template: this stream, this frame, shard 0, view info attached, no timing block. |
| `VideoEncoding.VideoEncoder.SendData` | server/encoder/video_encoder.cpp:210-256 | The new template, the new timing block and the shards appended to the transport record are those of `SendStep`. |
| `VideoEncoding.VideoEncoder.SendShard` | server/encoder/video_encoder.cpp:226-253 | One loop turn: sends the next shard of `Fragments` and moves the template on. What remains to send is what `Fragments` gives for the rest of the data. |
| `VideoEncoding.VideoEncoder.EncodeFrame` | server/encoder/video_encoder.cpp:201-206 | A frame end to end (the sender thread's call at lines 64-65 made after `Encode` returns and before the next one). The new template, timing block and transport record are those of `NewFrame` followed, for a non-empty payload, by `SendStep` of the terminal call. Shards are sent exactly when the backend produced a non-empty payload, and they reassemble to it. They are numbered 0 upwards within the frame. The first starts the slice and alone carries the view info. The last ends the frame and carries the frame's timing block. |
| `Fragmenter.Capacity` | server/encoder/video_encoder.cpp:228-229 | A shard's payload room is positive and at most the protocol bound. It is the full bound once the view info is gone. |
| `Fragmenter.ChunkLength` | server/encoder/video_encoder.cpp:229-230 | The next chunk is non-empty for non-empty data and fits both the data and the shard's room. A chunk shorter than the data fills the room. |
| `Fragmenter.Emit` | server/encoder/video_encoder.cpp:228-240 | The shard for the next chunk: the template's stream, frame, shard index and view info, a non-empty prefix of what is left as payload, and end_of_slice exactly when the chunk reaches the end. Reference definition of one loop turn; `Fragmenter.FragmentsBounds` and `Fragmenter.FragmentsFlags` describe it over a whole call. |
| `Fragmenter.Advance` | server/encoder/video_encoder.cpp:249-251 | After a shard is sent the index moves on by one, the flags and view info are cleared, and every other field is kept. |
| `Fragmenter.Fragments` | server/encoder/video_encoder.cpp:224-253 | Reference definition of the shards the cursor loop sends; no more shards than bytes. `Fragmenter.FragmentsRoundTrip`, `Fragmenter.FragmentsHeader`, `Fragmenter.FragmentsBounds`, `Fragmenter.FragmentsFlags` and `Fragmenter.FragmentsCount` describe it. |
| `Fragmenter.TemplateAfter` | server/encoder/video_encoder.cpp:224-253 | Reference definition of the template the loop leaves: same stream and frame, shard index moved on by at most the number of bytes. `Fragmenter.TemplateAfterSend` describes it exactly. |
| `Fragmenter.FragmentsRoundTrip` | server/encoder/video_encoder.cpp:224-252 | Concatenating the payloads of the shards of one call reproduces the call's data exactly. |
| `Fragmenter.FragmentsHeader` | server/encoder/video_encoder.cpp:226-251 | No shard for empty data, at least one otherwise. Every shard keeps the template's stream and frame index. Shard indices run on consecutively from the template's. View info rides only on the first shard. |
| `Fragmenter.FragmentsBounds` | server/encoder/video_encoder.cpp:228-240 | Every chunk is non-empty and at most the bound, less the view-info size on a shard that carries view info. Every chunk but the last fills its room exactly. |
| `Fragmenter.FragmentsFlags` | server/encoder/video_encoder.cpp:223-250 | start_of_slice is on the first shard only. end_of_slice is on exactly the last shard. end_of_frame and the copied timing block are on the last shard only, and only for a terminal call. Other shards keep the template's timing block. |
| `Fragmenter.FragmentsCount` | server/encoder/video_encoder.cpp:226-252 | The shard count of a call is 0 for no data, 1 if the data fits the first shard's room, else 1 plus the rest divided by the bound, rounded up. |
| `Fragmenter.TemplateAfterSend` | server/encoder/video_encoder.cpp:226-253 | After the loop the template is unchanged for empty data. Otherwise its shard index has advanced by the number of shards sent, no flags or view info remain, and it still holds the last shard's payload and timing block. |
| `Fragmenter.StampTiming` | server/encoder/video_encoder.cpp:213-221 | At call entry, send begin is stamped whenever, and only if, no shard of the frame has been sent. Send end is stamped whenever, and only if, the call ends the frame. Encode begin is never touched. |
| `Fragmenter.NewFrame` | server/encoder/video_encoder.cpp:191-199 | Reference definition of the send state `Encode` leaves: the encode-begin stamp recorded and the template reset for the new frame. `VideoEncoding.VideoEncoder.Encode`'s field-by-field ensures describe it: this stream, this frame, shard 0, the frame's view info, no timing block, flags and payload kept. |
| `Fragmenter.SendStep` | server/encoder/video_encoder.cpp:210-256 | Reference definition of a whole `SendData` call: the timing block is `StampTiming`'s, stream and frame are kept, no more shards than bytes. `Fragmenter.SendStepShards` describes the rest. |
| `Fragmenter.SendStepShards` | server/encoder/video_encoder.cpp:210-256 | One call: the shards reassemble to the data, none exactly when the data is empty, and the shard index advances by their number. start_of_slice is on the first shard, end_of_slice on the last, end_of_frame on the last for a terminal call. Send begin changes only if the shard index was 0 at entry, and send end only for a terminal call. The end-of-frame shard carries the freshly stamped block. |
| `Fragmenter.ThreeShardExample` | server/encoder/video_encoder.cpp:226-252 | With a 1200-byte bound and a 100-byte view-info block, 3000 bytes go out as 1100, 1200 and 700 bytes. The flags are start, none, and end of slice plus end of frame. |
| `Fragmenter.SendAll` | server/encoder/video_encoder.cpp:210-256 | Reference definition of a frame's calls made one after another: stream and frame kept, no more shards than bytes in all. `Fragmenter.SendAllFrame` describes it. |
| `Fragmenter.SendAllFrame` | server/encoder/video_encoder.cpp:217-251 | Over all the calls of a frame, the shards reassemble to the calls' data in order. Shard indices are consecutive across calls. The view info travels once, on the frame's first shard, however many calls there are. |
| `DumpFile.Extension` | server/encoder/video_encoder.cpp:138-146 | The extension is five characters starting with ".h". |
| `DumpFile.Decimal` | server/encoder/video_encoder.cpp:137 | The stream index's decimal text is non-empty and made of digits only. It has no leading zero: a text starting with '0' is exactly "0", and only for 0. |
| `DumpFile.DecimalRoundTrip` | server/encoder/video_encoder.cpp:137 | Reading the decimal text back gives the number. |
| `DumpFile.DumpFileName` | server/encoder/video_encoder.cpp:136-146 | The capture name is the prefix, a dash, digits that read back as the stream index, and the codec's extension. The digits are not zero-padded. |
| `DumpFile.DumpFileNamesDistinct` | server/encoder/video_encoder.cpp:136-146 | Different streams or codecs get different capture files under one prefix. |

## Left out

- The shared sender thread (`sender`, `push`, `wait_idle`, `get`, lines 45-99) is not modelled. It is concurrency and shared lifetime: a background thread, a mutex, a condition variable with timed waits, and a weak-reference singleton.
- The `wait_idle` backpressure in `Encode` and in the destructor (lines 159-163, 174-175) is not modelled either. `EncodeFrame` assumes the previous frame's `SendData` has finished before the next `Encode` starts. `wait_idle` does not make sure of it: it returns once `pending` is empty (lines 81-86), and the sender empties `pending` when it takes a job (lines 58-61), before it calls `SendData` outside the lock (lines 64-65). A following `Encode` can then rewrite `timing_info` (line 191) and reset `shard` (lines 195-199) without holding `mutex` while that `SendData` runs. The model does not capture this interleaving.
- `EncodeFrame`: models the `async_send` path only, where a payload returned by `encode` goes to the shared sender. The constructor's `async_send` choice (lines 154, 156) is not modelled. Without a sender, a returned payload trips the assert at line 204, so such a backend must send its shards itself from inside `encode`. Those `SendData` calls are not modelled; `Fragmenter.SendAll` describes any such run of calls for one frame.
- The atomic exchange on `sync_needed` (line 178) and the mutex in `SendData` (line 212) are plain sequential reads and writes.
- Backend selection and construction in `Create` (lines 101-131) are not modelled, and neither is the "Failed to create encoder" error. The backends are not part of this model. The backend's `encode(idr, target_timestamp)` (line 201) is a foreign call. Its output is a parameter of `EncodeFrame`.
- The environment lookup and the capture file's opening and writing (lines 133-134, 147, 215-216) are I/O. Only the file name is modelled.
- Clock readings (`os_monotonic_get_ns`, `clock.to_headset`, `cnx.get_offset`) are method parameters. The telemetry calls (`dump_time`, `U_LOG_D`) are not modelled.
- The transport `send_stream` is recorded in `sent`. Its failures are swallowed and change nothing, so they are not represented. Every shard counts as sent, and the loop always runs to the end.
- The `fps` parameter of `Create` is floating point and only passed on. It is left out.
- `max_payload_size` and `sizeof(view_info_t)` come from the packet header, which is not part of this model. They are the `Limits` given to the constructor. The model requires the view-info size to be below the payload bound, which the header's values are assumed to satisfy.
- The header's field types and initial values are not part of this model either. `shard_idx` is unbounded (no wrap-around). The initial request flag is a constructor parameter. The timing block and template start from zero values; `Encode` sets every template field the loop reads before a frame is sent.
- The view-info block is reduced to its display time. Its other contents only pass through.
- `KeyframeThrottle.IdrSpacing`: proved only for runs whose frame indices stay below 2^64 - 100. Above that the unsigned sum at line 180 wraps, and a request is honoured at once.
- `KeyframeThrottle.RequestHonouredWhenDue`: proved under the same no-wrap bound on the last IDR frame.
