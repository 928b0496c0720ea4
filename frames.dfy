/**
 * What the WebSocket transport hands a relay loop, reduced to events: a
 * frame that decodes to a message, a frame that does not, or a read error.
 */
module Frames {

  datatype Frame = Ok(content: string) | Malformed | ReadErr

  /** Why a relay loop stopped; `Pending` means the frames given ran out. */
  datatype Stop = Pending | ReadFailed | WriteFailed | Panicked

  /** Whether the write of the reply numbered `k` (from 0) succeeds. */
  type Writer = nat -> bool

  predicate NoReadErr(frames: seq<Frame>) {
    forall i :: 0 <= i < |frames| ==> !frames[i].ReadErr?
  }

  /** The contents of the well-formed frames, in order. */
  function Messages(frames: seq<Frame>): seq<string>
    decreases |frames|
  {
    if frames == [] then []
    else if frames[0].Ok? then [frames[0].content] + Messages(frames[1..])
    else Messages(frames[1..])
  }
}
