/**
 The keyframe (IDR) throttle of `VideoEncoder::Encode`: a deferred "sync
 needed" request is honoured only when at least `IdrThrottle` frames have
 passed since the last IDR, and is otherwise kept pending for a later frame.
 The encoder class in `VideoEncoding` is proved against `Throttle`; the
 lemmas below follow a whole run of requests and frames.
 */
module KeyframeThrottle {
  import opened Packets

  /** Minimum distance, in frame indices, between two IDR frames. */
  const IdrThrottle: nat := 100

  /** The throttle's part of the encoder state. */
  datatype ThrottleState = ThrottleState(syncNeeded: bool, lastIdrFrame: int)

  /** The state of a new encoder: no request, last IDR `IdrThrottle` frames before frame 0. */
  const InitialThrottle: ThrottleState := ThrottleState(false, -(IdrThrottle as int))

  /** The IDR decision for one frame and the throttle state after it. */
  datatype Decision = Decision(idr: bool, next: ThrottleState)

  /**
   First frame index at which a new IDR is allowed: `last_idr_frame +
   idr_throttle`, computed in 64-bit unsigned arithmetic, so that the
   initial `-idr_throttle` gives 0.
   */
  function Deadline(lastIdrFrame: int): (d: U64)
    ensures NoWrap(lastIdrFrame) ==> d == lastIdrFrame + IdrThrottle
    ensures U64Limit - IdrThrottle <= lastIdrFrame < U64Limit ==> d == lastIdrFrame + IdrThrottle - U64Limit
  {
    (lastIdrFrame + IdrThrottle) % U64Limit
  }

  /** The range of `lastIdrFrame` in which the sum above does not wrap. */
  predicate NoWrap(lastIdrFrame: int) {
    -(IdrThrottle as int) <= lastIdrFrame < U64Limit - IdrThrottle
  }

  /** `SyncNeeded`: raise the deferred request. */
  function Request(s: ThrottleState): (r: ThrottleState)
    ensures r.syncNeeded && r.lastIdrFrame == s.lastIdrFrame
  {
    s.(syncNeeded := true)
  }

  /**
   Take and clear the request; if it came too soon after the last IDR, put
   it back and encode a plain frame; otherwise encode an IDR and remember
   this frame. An IDR needs a pending request and leaves none behind; a
   plain frame leaves the state exactly as it was, so a throttled request is
   deferred, never dropped. Away from wrap-around, the frame is an IDR
   exactly when a request is pending and at least `IdrThrottle` frames have
   passed since the last IDR.
   */
  function Throttle(s: ThrottleState, frameIndex: U64): (d: Decision)
    ensures d.idr ==> s.syncNeeded && d.next == ThrottleState(false, frameIndex)
    ensures !d.idr ==> d.next == s
    ensures NoWrap(s.lastIdrFrame) ==>
              (d.idr <==> s.syncNeeded && s.lastIdrFrame + IdrThrottle <= frameIndex)
  {
    var requested := s.syncNeeded;
    if requested && frameIndex < Deadline(s.lastIdrFrame) then
      Decision(false, ThrottleState(true, s.lastIdrFrame))
    else if requested then
      Decision(true, ThrottleState(false, frameIndex))
    else
      Decision(false, ThrottleState(false, s.lastIdrFrame))
  }

  /** Raising the request twice is the same as raising it once. */
  lemma RequestIdempotent(s: ThrottleState)
    ensures Request(Request(s)) == Request(s)
  {
  }

  /** From a new encoder, the first request is honoured at whatever frame comes next. */
  lemma FirstRequestHonoured(frameIndex: U64)
    ensures Throttle(Request(InitialThrottle), frameIndex) == Decision(true, ThrottleState(false, frameIndex))
  {
  }

  /**
   Near the top of the 64-bit range the sum wraps: an IDR at `U64Limit - 50`
   gives a bound of 50, so a request 30 frames later is honoured at once.
   */
  lemma ThrottleWrapsNearLimit()
    ensures Deadline(U64Limit - 50) == 50
    ensures Throttle(ThrottleState(true, U64Limit - 50), U64Limit - 20)
            == Decision(true, ThrottleState(false, U64Limit - 20))
  {
  }

  /** What happens to the encoder's throttle: a request, or a frame to encode. */
  datatype Event = SyncRequest | EncodeCall(frameIndex: U64)

  /** The state after a run of events and the frames it encoded as IDR, in order. */
  datatype Trace = Trace(final: ThrottleState, idrFrames: seq<U64>)

  function Run(s: ThrottleState, events: seq<Event>): Trace
    decreases |events|
  {
    if events == [] then Trace(s, [])
    else
      match events[0]
      case SyncRequest => Run(Request(s), events[1..])
      case EncodeCall(f) =>
        var d := Throttle(s, f);
        var rest := Run(d.next, events[1..]);
        Trace(rest.final, (if d.idr then [f] else []) + rest.idrFrames)
  }

  /** Every frame index of the run stays clear of 64-bit wrap-around. */
  predicate FramesBelowWrap(events: seq<Event>) {
    forall i :: 0 <= i < |events| && events[i].EncodeCall? ==> NoWrap(events[i].frameIndex)
  }

  /**
   Spacing: every IDR of a run comes at least `IdrThrottle` frames after the
   last IDR before the run, and any two IDRs of the run are at least
   `IdrThrottle` frames apart.
   */
  lemma {:induction false} IdrSpacing(s: ThrottleState, events: seq<Event>)
    requires NoWrap(s.lastIdrFrame) && FramesBelowWrap(events)
    ensures forall i :: 0 <= i < |Run(s, events).idrFrames| ==>
              s.lastIdrFrame + IdrThrottle <= Run(s, events).idrFrames[i]
    ensures forall i, j :: 0 <= i < j < |Run(s, events).idrFrames| ==>
              Run(s, events).idrFrames[i] + IdrThrottle <= Run(s, events).idrFrames[j]
    decreases |events|
  {
    if events != [] {
      assert FramesBelowWrap(events[1..]) by {
        forall i | 0 <= i < |events[1..]| && events[1..][i].EncodeCall?
          ensures NoWrap(events[1..][i].frameIndex)
        {
          assert events[1..][i] == events[i + 1];
        }
      }
      match events[0]
      case SyncRequest =>
        IdrSpacing(Request(s), events[1..]);
      case EncodeCall(f) =>
        var d := Throttle(s, f);
        assert NoWrap(events[0].frameIndex);
        IdrSpacing(d.next, events[1..]);
        var rest := Run(d.next, events[1..]).idrFrames;
        var idrs := Run(s, events).idrFrames;
        if d.idr {
          assert idrs == [f] + rest;
          assert forall j :: 0 < j < |idrs| ==> idrs[j] == rest[j - 1];
        }
    }
  }

  /** A pending request is never lost: either an IDR is encoded or it is still pending. */
  lemma {:induction false} RequestKept(s: ThrottleState, events: seq<Event>)
    requires s.syncNeeded
    ensures Run(s, events).final.syncNeeded || Run(s, events).idrFrames != []
    decreases |events|
  {
    if events != [] {
      match events[0]
      case SyncRequest =>
        RequestKept(Request(s), events[1..]);
      case EncodeCall(f) =>
        var d := Throttle(s, f);
        if !d.idr {
          RequestKept(d.next, events[1..]);
        }
    }
  }

  /**
   A pending request is honoured no later than the first frame that is at
   least `IdrThrottle` frames past the last IDR: the run up to and including
   that frame encodes an IDR.
   */
  lemma {:induction false} RequestHonouredWhenDue(s: ThrottleState, events: seq<Event>, k: nat)
    requires s.syncNeeded && NoWrap(s.lastIdrFrame)
    requires k < |events| && events[k].EncodeCall?
    requires s.lastIdrFrame + IdrThrottle <= events[k].frameIndex
    ensures Run(s, events[..k + 1]).idrFrames != []
    decreases k
  {
    var prefix := events[..k + 1];
    assert prefix[0] == events[0];
    if k > 0 {
      assert prefix[1..] == events[1..][..k];
    }
    match events[0]
    case SyncRequest =>
      RequestHonouredWhenDue(Request(s), events[1..], k - 1);
    case EncodeCall(f) =>
      var d := Throttle(s, f);
      if !d.idr {
        RequestHonouredWhenDue(d.next, events[1..], k - 1);
      }
  }
}
