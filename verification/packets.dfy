/**
 The wire-level values the video encoder produces: the video stream data
 shard that is handed to the transport, its flag bits, the view-info and
 timing blocks it may carry, and the two protocol sizes that bound a shard.
 */
module Packets {

  datatype Option<+T> = None | Some(value: T)

  /** One byte of encoded bitstream (`uint8_t`). */
  type Byte = x: int | 0 <= x < 256

  /** Unsigned 64-bit values (`uint64_t`), such as frame indices. */
  const U64Limit: int := 0x1_0000_0000_0000_0000
  type U64 = x: int | 0 <= x < 0x1_0000_0000_0000_0000

  /** Unsigned 8-bit values (`uint8_t`), such as stream indices. */
  type U8 = x: int | 0 <= x < 256

  /**
   The per-frame view metadata attached to the first shard of a frame. Only
   the display time is given a name here; the poses and fields of view it
   also carries are passed through unchanged and are not modelled.
   */
  datatype ViewInfo = ViewInfo(displayTime: int)

  /** Receiver-clock timestamps of the encoder's frame timeline. */
  datatype TimingInfo = TimingInfo(encodeBegin: int, sendBegin: int, sendEnd: int)

  /** The three flag bits of a shard. */
  datatype Flags = Flags(startOfSlice: bool, endOfSlice: bool, endOfFrame: bool)

  const NoFlags: Flags := Flags(false, false, false)
  const StartOfSlice: Flags := Flags(true, false, false)

  /** One video stream data shard, as sent on the wire. */
  datatype Shard = Shard(
    streamItemIdx: U8,
    frameIdx: U64,
    shardIdx: nat,
    viewInfo: Option<ViewInfo>,
    flags: Flags,
    payload: seq<Byte>,
    timingInfo: Option<TimingInfo>)

  /**
   The protocol's payload bound for one shard and the size of the view-info
   block, which shares that bound while it is attached.
   */
  datatype Limits = Limits(maxPayloadSize: nat, viewInfoSize: nat) {
    /** The view-info block leaves room for at least one payload byte. */
    predicate Valid() {
      viewInfoSize < maxPayloadSize
    }
  }
}
