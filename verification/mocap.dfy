/**
  The data the frame listener hands to the consumer loops, and the polling
  discipline both loops share: `pop` is called back to back until it reports
  that no frame is available.

  The listener is modelled as the finite sequence of results its `pop`
  returns, in order. A drain stops at the first `NoFrame` (which it consumes)
  or where the sequence ends.
 */
module Mocap {

  datatype Point3f = Point3f(x: real, y: real, z: real)

  datatype Quaternion4f = Quaternion4f(qx: real, qy: real, qz: real, qw: real)

  /** A tracked body: identified only by its position in the frame's list. */
  datatype RigidBody = RigidBody(location: Point3f, orientation: Quaternion4f)

  datatype MocapFrame = MocapFrame(rigidBodies: seq<RigidBody>)

  /** A `struct timespec`: whole seconds and nanoseconds. */
  datatype Timespec = Timespec(tvSec: int, tvNsec: int)

  /** One result of `frameListener.pop(&valid)`: `valid` false, or the frame with its time stamp. */
  datatype Poll = NoFrame | Popped(frame: MocapFrame, stamp: Timespec)

  /** Number of leading polls that returned a frame. */
  function FirstGap(polls: seq<Poll>): (k: nat)
    ensures k <= |polls|
    decreases |polls|
  {
    if |polls| == 0 || polls[0].NoFrame? then 0
    else 1 + FirstGap(polls[1..])
  }

  /** The first `FirstGap` polls returned frames, and the one after them (if any) did not. */
  lemma {:induction false} FirstGapSpec(polls: seq<Poll>)
    ensures forall i :: 0 <= i < FirstGap(polls) ==> polls[i].Popped?
    ensures FirstGap(polls) < |polls| ==> polls[FirstGap(polls)].NoFrame?
    decreases |polls|
  {
    if |polls| > 0 && polls[0].Popped? {
      FirstGapSpec(polls[1..]);
    }
  }

  /** Frames followed by an empty poll: the gap is right after the frames, whatever follows. */
  lemma {:induction false} FirstGapAfterFrames(popped: seq<Poll>, rest: seq<Poll>)
    requires forall i :: 0 <= i < |popped| ==> popped[i].Popped?
    ensures FirstGap(popped + [NoFrame] + rest) == |popped|
    decreases |popped|
  {
    var polls := popped + [NoFrame] + rest;
    if |popped| == 0 {
      assert polls[0] == NoFrame;
    } else {
      assert polls[1..] == popped[1..] + [NoFrame] + rest;
      FirstGapAfterFrames(popped[1..], rest);
    }
  }

  /** Number of polls one drain consumes: the leading frames plus the `NoFrame` that ends it. */
  function DrainLength(polls: seq<Poll>): (n: nat)
    ensures n <= |polls|
  {
    var k := FirstGap(polls);
    if k < |polls| then k + 1 else k
  }

  /**
    A drain consumes something whenever there is a poll to consume, stops only
    after an empty poll or at the end, and every poll before its last one
    returned a frame.
   */
  lemma DrainLengthSpec(polls: seq<Poll>)
    ensures |polls| > 0 ==> DrainLength(polls) > 0
    ensures forall i :: 0 <= i < DrainLength(polls) - 1 ==> polls[i].Popped?
    ensures DrainLength(polls) < |polls| ==> polls[DrainLength(polls) - 1].NoFrame?
  {
    FirstGapSpec(polls);
  }

  /** Number of polls consumed by `n` drains one after another, each starting where the last one stopped. */
  function DrainsLength(polls: seq<Poll>, n: nat): (c: nat)
    ensures c <= |polls|
    decreases n
  {
    if n == 0 then 0
    else
      var d := DrainLength(polls);
      d + DrainsLength(polls[d..], n - 1)
  }

  /** The frames returned by the polls, in pop order; `NoFrame` results contribute nothing. */
  function Frames(polls: seq<Poll>): (fs: seq<MocapFrame>)
    ensures |fs| <= |polls|
    decreases |polls|
  {
    if |polls| == 0 then []
    else if polls[0].NoFrame? then Frames(polls[1..])
    else [polls[0].frame] + Frames(polls[1..])
  }

  /** Number of polls that returned a frame. */
  function ValidCount(polls: seq<Poll>): nat {
    |Frames(polls)|
  }

  /** Frames are collected poll by poll, so they distribute over concatenation. */
  lemma {:induction false} FramesAppend(a: seq<Poll>, b: seq<Poll>)
    ensures Frames(a + b) == Frames(a) + Frames(b)
    decreases |a|
  {
    if |a| > 0 {
      assert (a + b)[1..] == a[1..] + b;
      FramesAppend(a[1..], b);
    } else {
      assert a + b == b;
    }
  }

  /** The frames of two consecutive stretches of polls are the frames of the whole stretch. */
  lemma FramesSplit(polls: seq<Poll>, a: nat, b: nat)
    requires a + b <= |polls|
    ensures Frames(polls[..a + b]) == Frames(polls[..a]) + Frames(polls[a..][..b])
  {
    assert polls[..a + b] == polls[..a] + polls[a..][..b];
    FramesAppend(polls[..a], polls[a..][..b]);
  }

  /** When every poll returned a frame, the frames are exactly the polls' frames. */
  lemma {:induction false} FramesAllPopped(polls: seq<Poll>)
    requires forall i :: 0 <= i < |polls| ==> polls[i].Popped?
    ensures |Frames(polls)| == |polls|
    ensures forall i :: 0 <= i < |polls| ==> Frames(polls)[i] == polls[i].frame
    decreases |polls|
  {
    if |polls| > 0 {
      FramesAllPopped(polls[1..]);
    }
  }

  /** The time stamps of the polls that returned a frame, in pop order. */
  function Stamps(polls: seq<Poll>): (ts: seq<Timespec>)
    ensures |ts| == |Frames(polls)|
    decreases |polls|
  {
    if |polls| == 0 then []
    else if polls[0].NoFrame? then Stamps(polls[1..])
    else [polls[0].stamp] + Stamps(polls[1..])
  }

  /** Stamps are collected poll by poll, so they distribute over concatenation. */
  lemma {:induction false} StampsAppend(a: seq<Poll>, b: seq<Poll>)
    ensures Stamps(a + b) == Stamps(a) + Stamps(b)
    decreases |a|
  {
    if |a| > 0 {
      assert (a + b)[1..] == a[1..] + b;
      StampsAppend(a[1..], b);
    } else {
      assert a + b == b;
    }
  }

  /** The stamps of two consecutive stretches of polls are the stamps of the whole stretch. */
  lemma StampsSplit(polls: seq<Poll>, a: nat, b: nat)
    requires a + b <= |polls|
    ensures Stamps(polls[..a + b]) == Stamps(polls[..a]) + Stamps(polls[a..][..b])
  {
    assert polls[..a + b] == polls[..a] + polls[a..][..b];
    StampsAppend(polls[..a], polls[a..][..b]);
  }

  /** The `NoFrame` that ends a drain adds no stamp. */
  lemma StampsOfDrain(polls: seq<Poll>)
    ensures Stamps(polls[..DrainLength(polls)]) == Stamps(polls[..FirstGap(polls)])
  {
    var k := FirstGap(polls);
    FirstGapSpec(polls);
    if k < |polls| {
      assert polls[..k + 1] == polls[..k] + [polls[k]];
      StampsAppend(polls[..k], [polls[k]]);
    }
  }

  /** The `NoFrame` that ends a drain adds no frame. */
  lemma FramesOfDrain(polls: seq<Poll>)
    ensures Frames(polls[..DrainLength(polls)]) == Frames(polls[..FirstGap(polls)])
  {
    var k := FirstGap(polls);
    FirstGapSpec(polls);
    if k < |polls| {
      assert polls[..k + 1] == polls[..k] + [polls[k]];
      FramesAppend(polls[..k], [polls[k]]);
    }
  }
}
