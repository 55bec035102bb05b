/**
 The shard fragmenter of `VideoEncoder::SendData`, as functions of the shard
 template and the payload: which shards one call hands to the transport, what
 the template holds afterwards, how the timing block is stamped, and how a
 series of calls for one frame fits together. The imperative loop in
 `VideoEncoding.VideoEncoder.SendData` is proved against these functions.
 */
module Fragmenter {
  import opened Packets

  /**
   Payload room of the next shard: the protocol maximum, less the size of the
   view-info block while the template still carries one.
   */
  function Capacity(t: Shard, lim: Limits): (c: nat)
    requires lim.Valid()
    ensures 0 < c <= lim.maxPayloadSize
    ensures t.viewInfo.None? ==> c == lim.maxPayloadSize
  {
    lim.maxPayloadSize - (if t.viewInfo.Some? then lim.viewInfoSize else 0)
  }

  /** Length of the next chunk: what is left, cut at the shard's room. */
  function ChunkLength(rest: seq<Byte>, t: Shard, lim: Limits): (n: nat)
    requires lim.Valid()
    ensures n <= |rest| && n <= Capacity(t, lim)
    ensures rest != [] ==> 0 < n
    ensures n < |rest| ==> n == Capacity(t, lim)
  {
    if |rest| <= Capacity(t, lim) then |rest| else Capacity(t, lim)
  }

  /**
   The shard sent for the next chunk of `rest`: the template with the chunk
   as payload; the chunk that reaches the end of the call's data also gets
   end_of_slice and, for a frame's terminal call, end_of_frame and a copy
   of the timing block. Flags are or-ed into what the template holds.
   */
  function Emit(rest: seq<Byte>, t: Shard, endOfFrame: bool, timing: TimingInfo, lim: Limits): (s: Shard)
    requires lim.Valid()
    ensures s.streamItemIdx == t.streamItemIdx && s.frameIdx == t.frameIdx
    ensures s.shardIdx == t.shardIdx && s.viewInfo == t.viewInfo
    ensures rest != [] ==> 0 < |s.payload|
    ensures |s.payload| <= |rest| && s.payload == rest[..|s.payload|]
    ensures s.flags.endOfSlice <==> t.flags.endOfSlice || |s.payload| == |rest|
  {
    var n := ChunkLength(rest, t, lim);
    var last := n == |rest|;
    t.(flags := Flags(t.flags.startOfSlice,
                      t.flags.endOfSlice || last,
                      t.flags.endOfFrame || (last && endOfFrame)),
       timingInfo := if last && endOfFrame then Some(timing) else t.timingInfo,
       payload := rest[..n])
  }

  /** The template after a shard is sent: next index, no flags, no view info. */
  function Advance(s: Shard): (a: Shard)
    ensures a.shardIdx == s.shardIdx + 1 && a.flags == NoFlags && a.viewInfo.None?
    ensures a.(shardIdx := s.shardIdx, flags := s.flags, viewInfo := s.viewInfo) == s
  {
    s.(shardIdx := s.shardIdx + 1, flags := NoFlags, viewInfo := None)
  }

  /** The shards one pass of the cursor loop sends for `rest`, in order. */
  function Fragments(rest: seq<Byte>, t: Shard, endOfFrame: bool, timing: TimingInfo, lim: Limits): (r: seq<Shard>)
    requires lim.Valid()
    ensures |r| <= |rest|
    decreases |rest|
  {
    if rest == [] then []
    else
      var s := Emit(rest, t, endOfFrame, timing, lim);
      [s] + Fragments(rest[ChunkLength(rest, t, lim)..], Advance(s), endOfFrame, timing, lim)
  }

  /** The shard template once the cursor loop has consumed `rest`. */
  function TemplateAfter(rest: seq<Byte>, t: Shard, endOfFrame: bool, timing: TimingInfo, lim: Limits): (a: Shard)
    requires lim.Valid()
    ensures a.streamItemIdx == t.streamItemIdx && a.frameIdx == t.frameIdx
    ensures t.shardIdx <= a.shardIdx <= t.shardIdx + |rest|
    decreases |rest|
  {
    if rest == [] then t
    else
      var s := Emit(rest, t, endOfFrame, timing, lim);
      TemplateAfter(rest[ChunkLength(rest, t, lim)..], Advance(s), endOfFrame, timing, lim)
  }

  /**
   One turn of the cursor loop over `data` at `begin`, whose next cut is
   `next`: the shards and final template for the rest are the shard for
   the chunk followed by those for what remains after `next`.
   */
  lemma LoopStep(data: seq<Byte>, begin: nat, next: nat, t: Shard, endOfFrame: bool, timing: TimingInfo, lim: Limits)
    requires lim.Valid() && begin < |data|
    requires next == if |data| - begin <= Capacity(t, lim) then |data| else begin + Capacity(t, lim)
    ensures begin < next <= |data|
    ensures Emit(data[begin..], t, endOfFrame, timing, lim).payload == data[begin..next]
    ensures Fragments(data[begin..], t, endOfFrame, timing, lim)
            == [Emit(data[begin..], t, endOfFrame, timing, lim)]
               + Fragments(data[next..], Advance(Emit(data[begin..], t, endOfFrame, timing, lim)), endOfFrame, timing, lim)
    ensures TemplateAfter(data[begin..], t, endOfFrame, timing, lim)
            == TemplateAfter(data[next..], Advance(Emit(data[begin..], t, endOfFrame, timing, lim)), endOfFrame, timing, lim)
  {
  }

  lemma SeqAppendStep(a: seq<Shard>, s: Shard, b: seq<Shard>)
    ensures (a + [s]) + b == a + ([s] + b)
  {
  }

  /** What a receiver rebuilds: the payloads of the shards, concatenated in order. */
  function Reassemble(shards: seq<Shard>): seq<Byte> {
    if shards == [] then [] else shards[0].payload + Reassemble(shards[1..])
  }

  lemma {:induction false} ReassembleAppend(a: seq<Shard>, b: seq<Shard>)
    ensures Reassemble(a + b) == Reassemble(a) + Reassemble(b)
  {
    if a == [] {
      assert a + b == b;
    } else {
      assert (a + b)[0] == a[0];
      assert (a + b)[1..] == a[1..] + b;
      ReassembleAppend(a[1..], b);
    }
  }

  /** Concatenating the payloads of the shards of one call gives back its data. */
  lemma {:induction false} FragmentsRoundTrip(rest: seq<Byte>, t: Shard, endOfFrame: bool, timing: TimingInfo, lim: Limits)
    requires lim.Valid()
    ensures Reassemble(Fragments(rest, t, endOfFrame, timing, lim)) == rest
    decreases |rest|
  {
    if rest != [] {
      var n := ChunkLength(rest, t, lim);
      var s := Emit(rest, t, endOfFrame, timing, lim);
      FragmentsRoundTrip(rest[n..], Advance(s), endOfFrame, timing, lim);
      assert rest == rest[..n] + rest[n..];
    }
  }

  /**
   Header fields: no shard for no data; every shard keeps the stream and
   frame index of the template, shard indices run on consecutively from the
   template's, and the view-info block rides only on the first shard.
   */
  lemma {:induction false} FragmentsHeader(rest: seq<Byte>, t: Shard, endOfFrame: bool, timing: TimingInfo, lim: Limits)
    requires lim.Valid()
    ensures var r := Fragments(rest, t, endOfFrame, timing, lim);
      && (r == [] <==> rest == [])
      && forall i :: 0 <= i < |r| ==>
           && r[i].streamItemIdx == t.streamItemIdx
           && r[i].frameIdx == t.frameIdx
           && r[i].shardIdx == t.shardIdx + i
           && r[i].viewInfo == (if i == 0 then t.viewInfo else None)
    decreases |rest|
  {
    if rest != [] {
      var n := ChunkLength(rest, t, lim);
      var s := Emit(rest, t, endOfFrame, timing, lim);
      FragmentsHeader(rest[n..], Advance(s), endOfFrame, timing, lim);
    }
  }

  /**
   Payload bounds: every chunk is non-empty and fits the room of its shard
   (the protocol maximum, less the view-info size when that shard carries
   view info); every chunk but the last fills that room exactly.
   */
  lemma {:induction false} FragmentsBounds(rest: seq<Byte>, t: Shard, endOfFrame: bool, timing: TimingInfo, lim: Limits)
    requires lim.Valid()
    ensures var r := Fragments(rest, t, endOfFrame, timing, lim);
      forall i :: 0 <= i < |r| ==>
        && 0 < |r[i].payload| <= Capacity(r[i], lim)
        && (i < |r| - 1 ==> |r[i].payload| == Capacity(r[i], lim))
    decreases |rest|
  {
    if rest != [] {
      var n := ChunkLength(rest, t, lim);
      var s := Emit(rest, t, endOfFrame, timing, lim);
      FragmentsBounds(rest[n..], Advance(s), endOfFrame, timing, lim);
      FragmentsHeader(rest[n..], Advance(s), endOfFrame, timing, lim);
    }
  }

  /**
   Flags and timing, for a template that enters with neither end flag set:
   start_of_slice only on the first shard and only if the template had it,
   end_of_slice exactly on the last shard, end_of_frame and the copied timing
   block only on the last shard and only for a frame's terminal call; every
   other shard keeps the template's timing block.
   */
  lemma {:induction false} FragmentsFlags(rest: seq<Byte>, t: Shard, endOfFrame: bool, timing: TimingInfo, lim: Limits)
    requires lim.Valid()
    requires !t.flags.endOfSlice && !t.flags.endOfFrame
    ensures var r := Fragments(rest, t, endOfFrame, timing, lim);
      forall i :: 0 <= i < |r| ==>
        && r[i].flags == Flags(i == 0 && t.flags.startOfSlice, i == |r| - 1, i == |r| - 1 && endOfFrame)
        && r[i].timingInfo == (if i == |r| - 1 && endOfFrame then Some(timing) else t.timingInfo)
    decreases |rest|
  {
    if rest != [] {
      var n := ChunkLength(rest, t, lim);
      var s := Emit(rest, t, endOfFrame, timing, lim);
      FragmentsFlags(rest[n..], Advance(s), endOfFrame, timing, lim);
      FragmentsHeader(rest[n..], Advance(s), endOfFrame, timing, lim);
    }
  }

  /**
   Number of shards for `len` bytes when the first shard has room `first`
   and every later one room `max`: none, one, or one plus the later shards
   needed for what the first leaves, rounded up.
   */
  function ShardCount(len: nat, first: nat, max: nat): nat
    requires 0 < first <= max
  {
    if len == 0 then 0
    else if len <= first then 1
    else 1 + (len - first + max - 1) / max
  }

  lemma MulAtLeast(m: nat, d: int)
    requires 1 <= d
    ensures m * d >= m
  {
  }

  /** Euclidean division has a single quotient. */
  lemma DivUnique(a: int, m: int, k: int, r: int)
    requires 0 < m && 0 <= r < m && a == m * k + r
    ensures a / m == k
  {
    var k', r' := a / m, a % m;
    assert m * (k' - k) == r - r';
    if k' > k {
      MulAtLeast(m, k' - k);
    } else if k' < k {
      MulAtLeast(m, k - k');
    }
  }

  lemma DivStep(x: nat, m: nat)
    requires 0 < m
    ensures (x + m) / m == x / m + 1
  {
    var q, r := x / m, x % m;
    assert x + m == m * (q + 1) + r;
    DivUnique(x + m, m, q + 1, r);
  }

  /** The shard count of one call is the rounded-up count above. */
  lemma {:induction false} FragmentsCount(rest: seq<Byte>, t: Shard, endOfFrame: bool, timing: TimingInfo, lim: Limits)
    requires lim.Valid()
    ensures |Fragments(rest, t, endOfFrame, timing, lim)| == ShardCount(|rest|, Capacity(t, lim), lim.maxPayloadSize)
    decreases |rest|
  {
    if rest != [] {
      var n := ChunkLength(rest, t, lim);
      var s := Emit(rest, t, endOfFrame, timing, lim);
      var m := lim.maxPayloadSize;
      FragmentsCount(rest[n..], Advance(s), endOfFrame, timing, lim);
      if n < |rest| {
        var left := |rest| - n;
        DivStep(left - 1, m);
        if left <= m {
          DivUnique(left - 1, m, 0, left - 1);
        }
      }
    }
  }

  /**
   The template after the loop: unchanged for no data; otherwise advanced by
   the number of shards sent, with no flags and no view info left, and still
   holding the last shard's payload and timing block.
   */
  lemma {:induction false} TemplateAfterSend(rest: seq<Byte>, t: Shard, endOfFrame: bool, timing: TimingInfo, lim: Limits)
    requires lim.Valid()
    ensures var a := TemplateAfter(rest, t, endOfFrame, timing, lim);
      var r := Fragments(rest, t, endOfFrame, timing, lim);
      && a.streamItemIdx == t.streamItemIdx
      && a.frameIdx == t.frameIdx
      && a.shardIdx == t.shardIdx + |r|
      && (rest == [] ==> a == t)
      && (rest != [] ==>
            && a.viewInfo.None?
            && a.flags == NoFlags
            && a.payload == r[|r| - 1].payload
            && a.timingInfo == r[|r| - 1].timingInfo)
    decreases |rest|
  {
    if rest != [] {
      var n := ChunkLength(rest, t, lim);
      var s := Emit(rest, t, endOfFrame, timing, lim);
      TemplateAfterSend(rest[n..], Advance(s), endOfFrame, timing, lim);
    }
  }

  /** The state one `SendData` call reads and writes. */
  datatype SendState = SendState(template: Shard, timing: TimingInfo)

  /**
   One `SendData` call: its data, whether it ends the frame, and the two
   receiver-clock readings it may take (send begin, send end).
   */
  datatype SendCall = SendCall(data: seq<Byte>, endOfFrame: bool, beginStamp: int, endStamp: int)

  datatype SendOutcome = SendOutcome(state: SendState, shards: seq<Shard>)

  /**
   The send state `Encode` leaves for a new frame: the template reset to this
   stream, this frame, shard 0, the frame's view info and no timing block, and
   the encode-begin stamp recorded.
   */
  function NewFrame(st: SendState, streamIdx: U8, frameIndex: U64, viewInfo: ViewInfo, encodeBeginStamp: int): SendState {
    SendState(st.template.(streamItemIdx := streamIdx, frameIdx := frameIndex, shardIdx := 0,
                           viewInfo := Some(viewInfo), timingInfo := None),
              st.timing.(encodeBegin := encodeBeginStamp))
  }

  /**
   The encoder's timing block at the start of a call: send end is stamped
   for a frame's terminal call, send begin when no shard of the frame has
   been sent yet; encode begin is left as it was.
   */
  function StampTiming(st: SendState, c: SendCall): (ti: TimingInfo)
    ensures ti.encodeBegin == st.timing.encodeBegin
    ensures st.template.shardIdx == 0 ==> ti.sendBegin == c.beginStamp
    ensures ti.sendBegin != st.timing.sendBegin ==> st.template.shardIdx == 0
    ensures c.endOfFrame ==> ti.sendEnd == c.endStamp
    ensures ti.sendEnd != st.timing.sendEnd ==> c.endOfFrame
  {
    var withEnd := if c.endOfFrame then st.timing.(sendEnd := c.endStamp) else st.timing;
    if st.template.shardIdx == 0 then withEnd.(sendBegin := c.beginStamp) else withEnd
  }

  /** A whole `SendData` call: stamp the timing, set start_of_slice, run the loop. */
  function SendStep(st: SendState, c: SendCall, lim: Limits): (o: SendOutcome)
    requires lim.Valid()
    ensures o.state.timing == StampTiming(st, c)
    ensures o.state.template.streamItemIdx == st.template.streamItemIdx
    ensures o.state.template.frameIdx == st.template.frameIdx
    ensures |o.shards| <= |c.data|
  {
    var timing := StampTiming(st, c);
    var t := st.template.(flags := StartOfSlice);
    SendOutcome(SendState(TemplateAfter(c.data, t, c.endOfFrame, timing, lim), timing),
                Fragments(c.data, t, c.endOfFrame, timing, lim))
  }

  /**
   One `SendData` call. Its shards reassemble to the call's data; there are
   none exactly when the data is empty, and then only start_of_slice is left
   set on the template; the shard index moves on by the number sent. The first
   shard carries start_of_slice, the last end_of_slice, and the last carries
   end_of_frame and the stamped timing block exactly when the call ends the
   frame. Send begin is stamped only if no shard of the frame was sent before
   the call, send end only for the frame's terminal call, both before the
   first shard goes out, so the block on the end-of-frame shard holds them.
   */
  lemma SendStepShards(st: SendState, c: SendCall, lim: Limits)
    requires lim.Valid()
    ensures var o := SendStep(st, c, lim);
      && Reassemble(o.shards) == c.data
      && (o.shards == [] <==> c.data == [])
      && (c.data == [] ==> o.state.template == st.template.(flags := StartOfSlice))
      && o.state.template.shardIdx == st.template.shardIdx + |o.shards|
      && (st.template.shardIdx != 0 ==> o.state.timing.sendBegin == st.timing.sendBegin)
      && (!c.endOfFrame ==> o.state.timing.sendEnd == st.timing.sendEnd)
      && o.state.timing.encodeBegin == st.timing.encodeBegin
      && (o.shards != [] && c.endOfFrame ==>
            && o.shards[|o.shards| - 1].timingInfo == Some(o.state.timing)
            && o.state.timing.sendEnd == c.endStamp
            && (st.template.shardIdx == 0 ==> o.state.timing.sendBegin == c.beginStamp))
    ensures forall i :: 0 <= i < |SendStep(st, c, lim).shards| ==>
              SendStep(st, c, lim).shards[i].flags
              == Flags(i == 0, i == |SendStep(st, c, lim).shards| - 1,
                       i == |SendStep(st, c, lim).shards| - 1 && c.endOfFrame)
  {
    var timing := StampTiming(st, c);
    var t := st.template.(flags := StartOfSlice);
    FragmentsRoundTrip(c.data, t, c.endOfFrame, timing, lim);
    FragmentsHeader(c.data, t, c.endOfFrame, timing, lim);
    FragmentsFlags(c.data, t, c.endOfFrame, timing, lim);
    TemplateAfterSend(c.data, t, c.endOfFrame, timing, lim);
  }

  /**
   A 3000-byte payload sent as the first call of a frame, with a 1200-byte
   shard bound and a 100-byte view-info block, goes out as three shards of
   1100, 1200 and 700 bytes: the first starts the slice, the last ends the
   slice and the frame.
   */
  lemma ThreeShardExample(data: seq<Byte>, t: Shard, timing: TimingInfo)
    requires |data| == 3000 && t.viewInfo.Some? && t.flags == StartOfSlice
    ensures var r := Fragments(data, t, true, timing, Limits(1200, 100));
      && |r| == 3
      && |r[0].payload| == 1100 && |r[1].payload| == 1200 && |r[2].payload| == 700
      && r[0].flags == StartOfSlice && r[1].flags == NoFlags && r[2].flags == Flags(false, true, true)
  {
    var lim := Limits(1200, 100);
    var r := Fragments(data, t, true, timing, lim);
    FragmentsCount(data, t, true, timing, lim);
    assert |r| == 3;
    FragmentsHeader(data, t, true, timing, lim);
    FragmentsBounds(data, t, true, timing, lim);
    FragmentsFlags(data, t, true, timing, lim);
    FragmentsRoundTrip(data, t, true, timing, lim);
    assert r[1..][1..] == r[2..] && r[2..][1..] == r[3..] && r[3..] == [];
    assert Reassemble(r[2..]) == r[2].payload;
    assert Reassemble(r[1..]) == r[1].payload + r[2].payload;
    assert Reassemble(r) == r[0].payload + r[1].payload + r[2].payload;
  }

  /** Several `SendData` calls for one frame, one after another. */
  function SendAll(st: SendState, calls: seq<SendCall>, lim: Limits): (o: SendOutcome)
    requires lim.Valid()
    ensures o.state.template.streamItemIdx == st.template.streamItemIdx
    ensures o.state.template.frameIdx == st.template.frameIdx
    ensures |o.shards| <= |Joined(calls)|
    decreases |calls|
  {
    if calls == [] then SendOutcome(st, [])
    else
      var first := SendStep(st, calls[0], lim);
      var rest := SendAll(first.state, calls[1..], lim);
      SendOutcome(rest.state, first.shards + rest.shards)
  }

  /** The data of several calls, concatenated. */
  function Joined(calls: seq<SendCall>): seq<Byte> {
    if calls == [] then [] else calls[0].data + Joined(calls[1..])
  }

  /**
   Across all the calls of a frame: the shards reassemble to all the calls'
   data, shard indices run on consecutively from the template's, the view-info
   block travels on the first shard only, however many calls there are, and
   the template ends advanced by the number of shards sent.
   */
  lemma {:induction false} SendAllFrame(st: SendState, calls: seq<SendCall>, lim: Limits)
    requires lim.Valid()
    ensures var o := SendAll(st, calls, lim);
      && Reassemble(o.shards) == Joined(calls)
      && o.state.template.shardIdx == st.template.shardIdx + |o.shards|
      && o.state.template.frameIdx == st.template.frameIdx
      && o.state.template.streamItemIdx == st.template.streamItemIdx
      && (o.shards != [] ==> o.state.template.viewInfo.None?)
      && (o.shards == [] ==> o.state.template.viewInfo == st.template.viewInfo)
      && forall i :: 0 <= i < |o.shards| ==>
           && o.shards[i].streamItemIdx == st.template.streamItemIdx
           && o.shards[i].frameIdx == st.template.frameIdx
           && o.shards[i].shardIdx == st.template.shardIdx + i
           && o.shards[i].viewInfo == (if i == 0 then st.template.viewInfo else None)
    decreases |calls|
  {
    if calls != [] {
      var c := calls[0];
      var timing := StampTiming(st, c);
      var t := st.template.(flags := StartOfSlice);
      var first := SendStep(st, c, lim);
      var rest := SendAll(first.state, calls[1..], lim);
      FragmentsRoundTrip(c.data, t, c.endOfFrame, timing, lim);
      FragmentsHeader(c.data, t, c.endOfFrame, timing, lim);
      TemplateAfterSend(c.data, t, c.endOfFrame, timing, lim);
      SendAllFrame(first.state, calls[1..], lim);
      ReassembleAppend(first.shards, rest.shards);
      var o := SendAll(st, calls, lim);
      assert o.shards == first.shards + rest.shards;
      forall i | 0 <= i < |o.shards|
        ensures o.shards[i].shardIdx == st.template.shardIdx + i
        ensures o.shards[i].viewInfo == (if i == 0 then st.template.viewInfo else None)
      {
        if i >= |first.shards| {
          assert o.shards[i] == rest.shards[i - |first.shards|];
        }
      }
    }
  }
}
