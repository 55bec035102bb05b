/**
 The sequential core of `VideoEncoder`: the fields that `SyncNeeded`,
 `Encode` and `SendData` update in place, with each method proved against
 the functions of `KeyframeThrottle` and `Fragmenter`. The transport's
 `send_stream` is recorded as the sequence `sent` of every shard handed to
 it; clock readings arrive as parameters.
 */
module VideoEncoding {
  import opened Packets
  import opened KeyframeThrottle
  import opened Fragmenter

  class VideoEncoder {
    /** Index of the video stream this encoder feeds. */
    const streamIdx: U8
    /** Protocol bound on a shard's payload and size of the view-info block. */
    const limits: Limits

    /** Deferred keyframe request. */
    var syncNeeded: bool
    /** Frame index of the last IDR frame. */
    var lastIdrFrame: int
    /** The timeline of the frame being sent. */
    var timingInfo: TimingInfo
    /** The shard template, updated shard by shard while a frame is sent. */
    var shard: Shard
    /** The transport's record of every shard handed to it, in order, whether or not its send failed. */
    ghost var sent: seq<Shard>

    /** The throttle's view of the encoder. */
    function Throttling(): ThrottleState
      reads this
    {
      ThrottleState(syncNeeded, lastIdrFrame)
    }

    /** The state `SendData` reads and writes. */
    function Sending(): SendState
      reads this
    {
      SendState(shard, timingInfo)
    }

    /**
     A new encoder for stream `streamIdx`: the request flag as the class
     declaration initialises it, given here as `initialSync`, and a last IDR
     `IdrThrottle` frames before frame 0, so that a first request is honoured
     at once; nothing sent yet.
     */
    constructor (streamIdx: U8, limits: Limits, initialSync: bool)
      requires limits.Valid()
      ensures this.streamIdx == streamIdx && this.limits == limits
      ensures Throttling() == InitialThrottle.(syncNeeded := initialSync)
      ensures sent == []
    {
      this.streamIdx := streamIdx;
      this.limits := limits;
      syncNeeded := initialSync;
      lastIdrFrame := -(IdrThrottle as int);
      timingInfo := TimingInfo(0, 0, 0);
      shard := Shard(streamIdx, 0, 0, None, NoFlags, [], None);
      sent := [];
    }

    /** Ask for a keyframe: raises the deferred request and touches nothing else. */
    method SyncNeeded()
      modifies this`syncNeeded
      ensures Throttling() == Request(old(Throttling()))
    {
      syncNeeded := true;
    }

    /**
     The throttle and template part of `Encode`. Returns whether the frame is
     to be encoded as an IDR, which is what `Throttle` decides, and leaves the
     throttle in the state it gives. The encode-begin stamp is recorded and
     the shard template is reset for the new frame: this stream, this frame,
     shard 0, the frame's view info attached and no timing block.
     */
    method Encode(viewInfo: ViewInfo, frameIndex: U64, encodeBeginStamp: int) returns (idr: bool)
      modifies this`syncNeeded, this`lastIdrFrame, this`timingInfo, this`shard
      ensures idr == Throttle(old(Throttling()), frameIndex).idr
      ensures Throttling() == Throttle(old(Throttling()), frameIndex).next
      ensures timingInfo == old(timingInfo).(encodeBegin := encodeBeginStamp)
      ensures shard.streamItemIdx == streamIdx && shard.frameIdx == frameIndex && shard.shardIdx == 0
      ensures shard.viewInfo == Some(viewInfo) && shard.timingInfo == None
      ensures shard.flags == old(shard.flags) && shard.payload == old(shard.payload)
      ensures Sending() == NewFrame(old(Sending()), streamIdx, frameIndex, viewInfo, encodeBeginStamp)
    {
      idr := syncNeeded;
      syncNeeded := false;
      if idr && frameIndex < Deadline(lastIdrFrame) {
        syncNeeded := true;
        idr := false;
      }
      if idr {
        lastIdrFrame := frameIndex;
      }
      timingInfo := timingInfo.(encodeBegin := encodeBeginStamp);
      shard := shard.(streamItemIdx := streamIdx, frameIdx := frameIndex, shardIdx := 0,
                      viewInfo := Some(viewInfo), timingInfo := None);
    }

    /**
     Send one encoded payload as shards. The new template, timing block and
     transport record are those of `SendStep`; in particular the shards sent
     reassemble to `data`, there are none exactly when `data` is empty, and
     the shard index has moved on by the number sent.
     */
    method SendData(data: seq<Byte>, endOfFrame: bool, sendBeginStamp: int, sendEndStamp: int)
      requires limits.Valid()
      modifies this`shard, this`timingInfo, this`sent
      ensures Sending() == SendStep(old(Sending()), SendCall(data, endOfFrame, sendBeginStamp, sendEndStamp), limits).state
      ensures sent == old(sent) + SendStep(old(Sending()), SendCall(data, endOfFrame, sendBeginStamp, sendEndStamp), limits).shards
    {
      if endOfFrame {
        timingInfo := timingInfo.(sendEnd := sendEndStamp);
      }
      if shard.shardIdx == 0 {
        timingInfo := timingInfo.(sendBegin := sendBeginStamp);
      }
      shard := shard.(flags := StartOfSlice);
      ghost var t0, timing, sent0 := shard, timingInfo, sent;
      var begin := 0;
      while begin != |data|
        invariant 0 <= begin <= |data|
        invariant timingInfo == timing
        invariant sent0 + Fragments(data, t0, endOfFrame, timing, limits)
                  == sent + Fragments(data[begin..], shard, endOfFrame, timing, limits)
        invariant TemplateAfter(data, t0, endOfFrame, timing, limits)
                  == TemplateAfter(data[begin..], shard, endOfFrame, timing, limits)
        decreases |data| - begin
      {
        ghost var sentBefore := sent;
        ghost var emitted := Emit(data[begin..], shard, endOfFrame, timing, limits);
        var next := SendShard(data, begin, endOfFrame);
        SeqAppendStep(sentBefore, emitted, Fragments(data[next..], shard, endOfFrame, timing, limits));
        begin := next;
      }
      assert data[begin..] == [];
    }

    /**
     One turn of the loop in `SendData`: cut the next chunk of `data` at
     `begin`, mark it if it is the last, hand the shard to the transport and
     move the template on.
     */
    method SendShard(data: seq<Byte>, begin: nat, endOfFrame: bool) returns (next: nat)
      requires limits.Valid() && begin < |data|
      modifies this`shard, this`sent
      ensures begin < next <= |data|
      ensures sent == old(sent) + [Emit(data[begin..], old(shard), endOfFrame, timingInfo, limits)]
      ensures shard == Advance(Emit(data[begin..], old(shard), endOfFrame, timingInfo, limits))
      ensures Fragments(data[begin..], old(shard), endOfFrame, timingInfo, limits)
              == sent[|old(sent)|..] + Fragments(data[next..], shard, endOfFrame, timingInfo, limits)
      ensures TemplateAfter(data[begin..], old(shard), endOfFrame, timingInfo, limits)
              == TemplateAfter(data[next..], shard, endOfFrame, timingInfo, limits)
    {
      var maxPayloadSize := limits.maxPayloadSize - (if shard.viewInfo.Some? then limits.viewInfoSize else 0);
      next := if |data| - begin <= maxPayloadSize then |data| else begin + maxPayloadSize;
      ghost var emitted := Emit(data[begin..], shard, endOfFrame, timingInfo, limits);
      LoopStep(data, begin, next, shard, endOfFrame, timingInfo, limits);
      if next == |data| {
        shard := shard.(flags := shard.flags.(endOfSlice := true));
        if endOfFrame {
          shard := shard.(flags := shard.flags.(endOfFrame := true), timingInfo := Some(timingInfo));
        }
      }
      shard := shard.(payload := data[begin..next]);
      assert shard == emitted;
      // send_stream; a failed send is ignored and the loop goes on
      sent := sent + [shard];
      shard := shard.(shardIdx := shard.shardIdx + 1, flags := NoFlags, viewInfo := None);
      assert sent[|old(sent)|..] == [emitted];
    }

    /**
     One frame end to end: `Encode`, then, when the backend produced a
     non-empty payload, its transmission as the frame's terminal `SendData`
     call. The frame's shards reassemble to the payload; the first is shard 0
     of this frame and carries the view info, later ones do not; the last
     carries end_of_frame and the frame's timing block. The new template,
     timing block and transport record are those of `NewFrame` followed, when
     there is a payload, by `SendStep` of the terminal call.
     */
    method EncodeFrame(viewInfo: ViewInfo, frameIndex: U64, encodeBeginStamp: int,
                       encoded: Option<seq<Byte>>, sendBeginStamp: int, sendEndStamp: int)
      returns (idr: bool)
      requires limits.Valid()
      modifies this`syncNeeded, this`lastIdrFrame, this`timingInfo, this`shard, this`sent
      ensures idr == Throttle(old(Throttling()), frameIndex).idr
      ensures Throttling() == Throttle(old(Throttling()), frameIndex).next
      ensures timingInfo.encodeBegin == encodeBeginStamp
      ensures |sent| >= |old(sent)|
      ensures (|sent| > |old(sent)|) <==> (encoded.Some? && encoded.value != [])
      ensures |sent| > |old(sent)| ==>
                && Reassemble(sent[|old(sent)|..]) == encoded.value
                && sent[|old(sent)|].viewInfo == Some(viewInfo)
                && sent[|old(sent)|].flags.startOfSlice
                && sent[|sent| - 1].flags.endOfFrame
                && sent[|sent| - 1].timingInfo == Some(timingInfo)
                && timingInfo == TimingInfo(encodeBeginStamp, sendBeginStamp, sendEndStamp)
      ensures forall i :: |old(sent)| <= i < |sent| ==>
                && sent[i].streamItemIdx == streamIdx
                && sent[i].frameIdx == frameIndex
                && sent[i].shardIdx == i - |old(sent)|
                && (i > |old(sent)| ==> sent[i].viewInfo.None?)
      ensures Sending()
              == if encoded.Some? && encoded.value != [] then
                   SendStep(NewFrame(old(Sending()), streamIdx, frameIndex, viewInfo, encodeBeginStamp),
                            SendCall(encoded.value, true, sendBeginStamp, sendEndStamp), limits).state
                 else NewFrame(old(Sending()), streamIdx, frameIndex, viewInfo, encodeBeginStamp)
      ensures sent
              == old(sent)
                 + if encoded.Some? && encoded.value != [] then
                     SendStep(NewFrame(old(Sending()), streamIdx, frameIndex, viewInfo, encodeBeginStamp),
                              SendCall(encoded.value, true, sendBeginStamp, sendEndStamp), limits).shards
                   else []
    {
      idr := Encode(viewInfo, frameIndex, encodeBeginStamp);
      if encoded.Some? && encoded.value != [] {
        ghost var before := Sending();
        var call := SendCall(encoded.value, true, sendBeginStamp, sendEndStamp);
        SendData(encoded.value, true, sendBeginStamp, sendEndStamp);
        ghost var t := before.template.(flags := StartOfSlice);
        FragmentsHeader(encoded.value, t, true, timingInfo, limits);
        FragmentsFlags(encoded.value, t, true, timingInfo, limits);
        FragmentsRoundTrip(encoded.value, t, true, timingInfo, limits);
        assert sent[|old(sent)|..] == Fragments(encoded.value, t, true, timingInfo, limits);
      }
    }
  }
}
