/**
  The relay loop `printFrames`: every frame popped from the listener is fanned
  out into one `vicon_pos_t` publish per rigid body, on channels `MOCAP#1`,
  `MOCAP#2`, ... numbered afresh for each frame.

  The LCM transport is modelled as the trace of `(channel, record)` pairs
  handed to `publish`; the run flag and `lcmobj.good()` are observed once per
  outer iteration and given as a sequence of `Tick`s. The per-body record is
  built by a `Transform` parameter: the fan-out does not depend on how the
  record is computed, and `CodeTransform` is the one the code uses.
 */
module Relay {
  import opened Decimal
  import opened Mocap
  import opened Pose

  /** One call `lcmobj.publish(channel, &record)`. */
  datatype Publish = Publish(channel: string, msg: ViconPos)

  /** What one outer iteration observes: `Globals::run`, then `lcmobj.good()`. */
  datatype Tick = Tick(run: bool, good: bool)

  /** How the loop ends: the run flag was cleared, or the transport went bad (`exit(1)`). */
  datatype Exit = Interrupted | TransportFailed

  datatype DrainResult = DrainResult(trace: seq<Publish>, consumed: nat)

  datatype RelayOutcome = RelayOutcome(trace: seq<Publish>, consumed: nat, exit: Exit)

  const ChannelPrefix := "MOCAP#"

  /** The process exit status each ending leads to. */
  function ExitStatus(e: Exit): (status: int)
    ensures status == 0 <==> e == Interrupted
  {
    match e
    case Interrupted => 0
    case TransportFailed => 1
  }

  /** The channel for counter value `j`: the prefix followed by `j` in decimal. */
  function Channel(j: nat): (ch: string)
    ensures |ch| > |ChannelPrefix|
    ensures ch[..|ChannelPrefix|] == ChannelPrefix
  {
    ChannelPrefix + NatToString(j)
  }

  /** The counter can be read back from the channel name, so it is the name's only ingredient. */
  lemma ChannelParse(j: nat)
    ensures Canonical(Channel(j)[|ChannelPrefix|..])
    ensures ParseDigits(Channel(j)[|ChannelPrefix|..]) == j
  {
    assert Channel(j)[|ChannelPrefix|..] == NatToString(j);
    ParseNatToString(j);
  }

  /** Different counter values name different channels. */
  lemma ChannelInjective(a: nat, b: nat)
    ensures Channel(a) == Channel(b) <==> a == b
  {
    ChannelParse(a);
    ChannelParse(b);
  }

  /** Publishes for `bodies` when the channel counter starts at `j`. */
  function PublishBodies(bodies: seq<RigidBody>, toPose: Transform, j: nat): (r: seq<Publish>)
    ensures |r| == |bodies|
    decreases |bodies|
  {
    if |bodies| == 0 then []
    else [Publish(Channel(j), toPose(bodies[0]))] + PublishBodies(bodies[1..], toPose, j + 1)
  }

  /** Body `i` is published on the channel of counter `j + i`, in body order. */
  lemma {:induction false} PublishBodiesSpec(bodies: seq<RigidBody>, toPose: Transform, j: nat)
    ensures forall i :: 0 <= i < |bodies| ==>
              PublishBodies(bodies, toPose, j)[i] == Publish(Channel(j + i), toPose(bodies[i]))
    decreases |bodies|
  {
    if |bodies| > 0 {
      PublishBodiesSpec(bodies[1..], toPose, j + 1);
    }
  }

  /** The publishes of one frame, with the counter starting at 1. */
  function FramePublishes(f: MocapFrame, toPose: Transform): (r: seq<Publish>)
    ensures |r| == |f.rigidBodies|
  {
    PublishBodies(f.rigidBodies, toPose, 1)
  }

  /** One publish per body, in body order: body `i` (0-based) goes out on `MOCAP#<i+1>`. */
  lemma FramePublishesSpec(f: MocapFrame, toPose: Transform)
    ensures forall i :: 0 <= i < |f.rigidBodies| ==>
              FramePublishes(f, toPose)[i].channel == ChannelPrefix + NatToString(i + 1) &&
              FramePublishes(f, toPose)[i].msg == toPose(f.rigidBodies[i])
  {
    PublishBodiesSpec(f.rigidBodies, toPose, 1);
  }

  /** Within one frame, no two publishes share a channel. */
  lemma FrameChannelsDistinct(f: MocapFrame, toPose: Transform)
    ensures forall i, k :: 0 <= i < k < |FramePublishes(f, toPose)| ==>
              FramePublishes(f, toPose)[i].channel != FramePublishes(f, toPose)[k].channel
  {
    var r := FramePublishes(f, toPose);
    PublishBodiesSpec(f.rigidBodies, toPose, 1);
    forall i, k | 0 <= i < k < |r|
      ensures r[i].channel != r[k].channel
    {
      ChannelInjective(i + 1, k + 1);
    }
  }

  /** Total number of rigid bodies over a sequence of frames. */
  function TotalBodies(frames: seq<MocapFrame>): nat
    decreases |frames|
  {
    if |frames| == 0 then 0 else |frames[0].rigidBodies| + TotalBodies(frames[1..])
  }

  /** The publishes of a sequence of frames, frame after frame. */
  function PublishAll(frames: seq<MocapFrame>, toPose: Transform): (r: seq<Publish>)
    ensures |r| == TotalBodies(frames)
    decreases |frames|
  {
    if |frames| == 0 then []
    else FramePublishes(frames[0], toPose) + PublishAll(frames[1..], toPose)
  }

  lemma {:induction false} PublishAllAppend(a: seq<MocapFrame>, b: seq<MocapFrame>, toPose: Transform)
    ensures PublishAll(a + b, toPose) == PublishAll(a, toPose) + PublishAll(b, toPose)
    decreases |a|
  {
    if |a| == 0 {
      assert a + b == b;
    } else {
      assert (a + b)[1..] == a[1..] + b;
      PublishAllAppend(a[1..], b, toPose);
    }
  }

  /**
    One inner `while (true)` of the relay: pop until `valid` is false,
    publishing every body of every frame popped on the way.
   */
  function Drain(polls: seq<Poll>, toPose: Transform): (r: DrainResult)
    ensures r.consumed <= |polls|
    decreases |polls|
  {
    if |polls| == 0 then DrainResult([], 0)
    else match polls[0]
      case NoFrame => DrainResult([], 1)
      case Popped(f, _) =>
        var rest := Drain(polls[1..], toPose);
        DrainResult(FramePublishes(f, toPose) + rest.trace, 1 + rest.consumed)
  }

  /**
    A drain consumes the leading frames and the `NoFrame` after them, and
    publishes the fan-out of exactly those frames, in pop order.
   */
  lemma {:induction false} DrainSpec(polls: seq<Poll>, toPose: Transform)
    ensures Drain(polls, toPose).consumed == DrainLength(polls)
    ensures Drain(polls, toPose).trace == PublishAll(Frames(polls[..FirstGap(polls)]), toPose)
    decreases |polls|
  {
    if |polls| > 0 && polls[0].Popped? {
      DrainSpec(polls[1..], toPose);
      assert polls[..FirstGap(polls)] == [polls[0]] + polls[1..][..FirstGap(polls[1..])];
    }
  }

  /**
    A poll that reports no frame ends the drain: what the listener would have
    returned afterwards has no effect on it.
   */
  lemma DrainEndsAtNoFrame(popped: seq<Poll>, rest: seq<Poll>, toPose: Transform)
    requires forall i :: 0 <= i < |popped| ==> popped[i].Popped?
    ensures Drain(popped + [NoFrame] + rest, toPose) == DrainResult(PublishAll(Frames(popped), toPose), |popped| + 1)
  {
    var polls := popped + [NoFrame] + rest;
    FirstGapAfterFrames(popped, rest);
    assert polls[..FirstGap(polls)] == popped;
    DrainSpec(polls, toPose);
  }

  /** The outer `while (Globals::run)` loop of `printFrames`. */
  function Relay(ticks: seq<Tick>, polls: seq<Poll>, toPose: Transform): (r: RelayOutcome)
    ensures r.consumed <= |polls|
    decreases |ticks|
  {
    if |ticks| == 0 || !ticks[0].run then RelayOutcome([], 0, Interrupted)
    else if !ticks[0].good then RelayOutcome([], 0, TransportFailed)
    else
      var d := Drain(polls, toPose);
      var rest := Relay(ticks[1..], polls[d.consumed..], toPose);
      RelayOutcome(d.trace + rest.trace, d.consumed + rest.consumed, rest.exit)
  }

  /**
    Everything the relay publishes is the fan-out of the frames it popped,
    frame after frame in pop order, with empty polls contributing nothing.
   */
  lemma {:induction false} RelayTrace(ticks: seq<Tick>, polls: seq<Poll>, toPose: Transform)
    ensures var r := Relay(ticks, polls, toPose);
            r.trace == PublishAll(Frames(polls[..r.consumed]), toPose)
    decreases |ticks|
  {
    if |ticks| > 0 && ticks[0].run && ticks[0].good {
      var d := Drain(polls, toPose);
      var rest := Relay(ticks[1..], polls[d.consumed..], toPose);
      RelayTrace(ticks[1..], polls[d.consumed..], toPose);
      DrainSpec(polls, toPose);
      FramesSplit(polls, d.consumed, rest.consumed);
      FramesOfDrain(polls);
      PublishAllAppend(Frames(polls[..d.consumed]), Frames(polls[d.consumed..][..rest.consumed]), toPose);
    }
  }

  /** Number of leading ticks on which the loop goes on to drain. */
  function Iterations(ticks: seq<Tick>): (k: nat)
    ensures k <= |ticks|
    ensures forall i :: 0 <= i < k ==> ticks[i].run && ticks[i].good
    ensures k < |ticks| ==> !(ticks[k].run && ticks[k].good)
    decreases |ticks|
  {
    if |ticks| == 0 || !(ticks[0].run && ticks[0].good) then 0
    else 1 + Iterations(ticks[1..])
  }

  /**
    The loop drains once per leading tick that sees the flag set and the
    transport good, and on no other tick: the polls it consumes are exactly
    those of `Iterations(ticks)` drains in a row.
   */
  lemma {:induction false} RelayConsumed(ticks: seq<Tick>, polls: seq<Poll>, toPose: Transform)
    ensures Relay(ticks, polls, toPose).consumed == DrainsLength(polls, Iterations(ticks))
    decreases |ticks|
  {
    if |ticks| > 0 && ticks[0].run && ticks[0].good {
      var d := Drain(polls, toPose);
      DrainSpec(polls, toPose);
      RelayConsumed(ticks[1..], polls[d.consumed..], toPose);
    }
  }

  /**
    The loop ends with `exit(1)` exactly when the first tick that stops it saw
    the run flag still set (so the transport was bad); otherwise it ends
    because the flag was cleared.
   */
  lemma {:induction false} RelayExit(ticks: seq<Tick>, polls: seq<Poll>, toPose: Transform)
    ensures var k := Iterations(ticks);
            Relay(ticks, polls, toPose).exit == TransportFailed <==> k < |ticks| && ticks[k].run
    decreases |ticks|
  {
    if |ticks| > 0 && ticks[0].run && ticks[0].good {
      var d := Drain(polls, toPose);
      RelayExit(ticks[1..], polls[d.consumed..], toPose);
    }
  }

  /**
    Once a tick stops the loop, later ticks have no effect: nothing is
    published or popped after the run flag is seen cleared.
   */
  lemma {:induction false} RelayIgnoresLaterTicks(ticks: seq<Tick>, later: seq<Tick>, polls: seq<Poll>, toPose: Transform)
    requires Iterations(ticks) < |ticks|
    ensures Relay(ticks + later, polls, toPose) == Relay(ticks, polls, toPose)
    decreases |ticks|
  {
    assert (ticks + later)[0] == ticks[0];
    if ticks[0].run && ticks[0].good {
      assert (ticks + later)[1..] == ticks[1..] + later;
      var d := Drain(polls, toPose);
      RelayIgnoresLaterTicks(ticks[1..], later, polls[d.consumed..], toPose);
    }
  }

  /**
    Two frames with bodies [A, B] and [C], then an empty poll, then the flag
    cleared: the transport sees exactly (MOCAP#1, A), (MOCAP#2, B), (MOCAP#1, C).
   */
  lemma TwoFrameExample(a: RigidBody, b: RigidBody, c: RigidBody, t1: Timespec, t2: Timespec, toPose: Transform)
    ensures var polls := [Popped(MocapFrame([a, b]), t1), Popped(MocapFrame([c]), t2), NoFrame];
            Relay([Tick(true, true), Tick(false, true)], polls, toPose)
            == RelayOutcome([Publish("MOCAP#1", toPose(a)),
                             Publish("MOCAP#2", toPose(b)),
                             Publish("MOCAP#1", toPose(c))], 3, Interrupted)
  {
    var polls := [Popped(MocapFrame([a, b]), t1), Popped(MocapFrame([c]), t2), NoFrame];
    DrainEndsAtNoFrame(polls[..2], [], toPose);
    assert polls[..2] + [NoFrame] + [] == polls;
    assert Channel(1) == "MOCAP#1" && Channel(2) == "MOCAP#2";
    var fs := Frames(polls[..2]);
    FramesAllPopped(polls[..2]);
    assert fs == [MocapFrame([a, b]), MocapFrame([c])];
    assert PublishAll(fs, toPose) == FramePublishes(fs[0], toPose) + FramePublishes(fs[1], toPose);
    PublishBodiesSpec([a, b], toPose, 1);
    PublishBodiesSpec([c], toPose, 1);
  }

  /**
    With the code's transform, the record published for body `i` carries the
    body's location in slots 0..2, its roll, pitch and yaw in slots 3..5 and
    timestamp 0, on channel `MOCAP#<i+1>`.
   */
  lemma PublishedRecord(f: MocapFrame, m: Libm, i: nat)
    requires i < |f.rigidBodies|
    ensures var p := FramePublishes(f, CodeTransform(m))[i];
            var b := f.rigidBodies[i];
            && p.channel == ChannelPrefix + NatToString(i + 1)
            && p.msg.timestamp == 0
            && |p.msg.q| == PoseSlots
            && p.msg.q[0] == b.location.x && p.msg.q[1] == b.location.y && p.msg.q[2] == b.location.z
            && p.msg.q[3] == Roll(b.orientation, m)
            && p.msg.q[4] == Pitch(b.orientation, m)
            && p.msg.q[5] == Yaw(b.orientation, m)
  {
    FramePublishesSpec(f, CodeTransform(m));
  }

  /**
    One frame holding one body at (1, 2, 3) with orientation (0, 0, 0, 1):
    exactly one publish, on `MOCAP#1`, of the record the code computes for it.
   */
  lemma SingleBodyExample(t: Timespec, m: Libm)
    ensures var body := RigidBody(Point3f(1.0, 2.0, 3.0), Quaternion4f(0.0, 0.0, 0.0, 1.0));
            Relay([Tick(true, true), Tick(false, true)], [Popped(MocapFrame([body]), t), NoFrame], CodeTransform(m))
            == RelayOutcome([Publish("MOCAP#1", ViconPos(0, [1.0, 2.0, 3.0, m.atan2(0.0, 1.0), m.asin(0.0), m.atan2(0.0, -1.0)]))],
                            2, Interrupted)
  {
    var body := RigidBody(Point3f(1.0, 2.0, 3.0), Quaternion4f(0.0, 0.0, 0.0, 1.0));
    var polls := [Popped(MocapFrame([body]), t), NoFrame];
    DrainEndsAtNoFrame(polls[..1], [], CodeTransform(m));
    assert polls[..1] + [NoFrame] + [] == polls;
    FramesAllPopped(polls[..1]);
    assert Frames(polls[..1]) == [MocapFrame([body])];
    assert Channel(1) == "MOCAP#1";
    PublishBodiesSpec([body], CodeTransform(m), 1);
    IdentityOrientation(m);
  }

  /** The `for` loop over one frame's bodies, with its counter `j` starting at 1. */
  method PublishFrame(f: MocapFrame, toPose: Transform) returns (out: seq<Publish>)
    ensures out == FramePublishes(f, toPose)
  {
    var bodies := f.rigidBodies;
    out := [];
    var i, j := 0, 1;
    while i < |bodies|
      invariant 0 <= i <= |bodies| && j == i + 1
      invariant |out| == i
      invariant forall k :: 0 <= k < i ==> out[k] == Publish(Channel(k + 1), toPose(bodies[k]))
    {
      out := out + [Publish(Channel(j), toPose(bodies[i]))];
      i, j := i + 1, j + 1;
    }
    PublishBodiesSpec(bodies, toPose, 1);
  }

  /** A drain that stops at position `c`: at the end of the polls or at an empty poll. */
  lemma DrainStop(polls: seq<Poll>, c: nat, whole: DrainResult, out: seq<Publish>, k: nat, toPose: Transform)
    requires c <= |polls|
    requires c == |polls| || polls[c].NoFrame?
    requires var d := Drain(polls[c..], toPose);
             whole == DrainResult(out + d.trace, k + d.consumed)
    ensures c < |polls| ==> whole == DrainResult(out, k + 1)
    ensures c == |polls| ==> whole == DrainResult(out, k)
  {
    var d := Drain(polls[c..], toPose);
    assert d.trace == [];
    assert out + d.trace == out;
  }

  /** A pop at position `c` that returned a frame: its bodies are published and the drain goes on at `c + 1`. */
  lemma DrainAdvance(polls: seq<Poll>, c: nat, whole: DrainResult, out: seq<Publish>, k: nat, published: seq<Publish>, toPose: Transform)
    requires c < |polls| && polls[c].Popped?
    requires published == FramePublishes(polls[c].frame, toPose)
    requires var d := Drain(polls[c..], toPose);
             whole == DrainResult(out + d.trace, k + d.consumed)
    ensures var d := Drain(polls[c + 1..], toPose);
            whole == DrainResult((out + published) + d.trace, k + 1 + d.consumed)
  {
    var ps := polls[c..];
    assert ps[1..] == polls[c + 1..];
    var d := Drain(ps[1..], toPose);
    var e := Drain(ps, toPose);
    assert e.trace == published + d.trace && e.consumed == 1 + d.consumed;
    assert out + (published + d.trace) == (out + published) + d.trace;
  }

  /** The inner `while (true)` loop, popping from position `start` of the polls. */
  method DrainFrames(polls: seq<Poll>, start: nat, toPose: Transform) returns (out: seq<Publish>, consumed: nat)
    requires start <= |polls|
    ensures start <= consumed <= |polls|
    ensures Drain(polls[start..], toPose) == DrainResult(out, consumed - start)
  {
    ghost var whole := Drain(polls[start..], toPose);
    var i := start;
    out := [];
    assert out + whole.trace == whole.trace;
    while i < |polls| && polls[i].Popped?
      invariant start <= i <= |polls|
      invariant var d := Drain(polls[i..], toPose);
                whole == DrainResult(out + d.trace, i - start + d.consumed)
      decreases |polls| - i
    {
      var published := PublishFrame(polls[i].frame, toPose);
      DrainAdvance(polls, i, whole, out, i - start, published, toPose);
      out := out + published;
      i := i + 1;
    }
    DrainStop(polls, i, whole, out, i - start, toPose);
    consumed := if i < |polls| then i + 1 else i;
  }

  /** The loop stops at tick `t` and reports how it ended. */
  lemma RelayStop(ticks: seq<Tick>, t: nat, polls: seq<Poll>, c: nat, whole: RelayOutcome, trace: seq<Publish>, toPose: Transform)
    requires t <= |ticks| && c <= |polls|
    requires !(t < |ticks| && ticks[t].run && ticks[t].good)
    requires var rest := Relay(ticks[t..], polls[c..], toPose);
             whole == RelayOutcome(trace + rest.trace, c + rest.consumed, rest.exit)
    ensures whole == RelayOutcome(trace, c, if t < |ticks| && ticks[t].run then TransportFailed else Interrupted)
  {
    assert trace + [] == trace;
  }

  /** One outer iteration at tick `t`: a drain from poll `start` to poll `next`, then the rest of the loop. */
  lemma RelayAdvance(ticks: seq<Tick>, t: nat, polls: seq<Poll>, start: nat, next: nat, whole: RelayOutcome,
                     trace: seq<Publish>, published: seq<Publish>, toPose: Transform)
    requires t < |ticks| && ticks[t].run && ticks[t].good
    requires start <= next <= |polls|
    requires Drain(polls[start..], toPose) == DrainResult(published, next - start)
    requires var rest := Relay(ticks[t..], polls[start..], toPose);
             whole == RelayOutcome(trace + rest.trace, start + rest.consumed, rest.exit)
    ensures var rest := Relay(ticks[t + 1..], polls[next..], toPose);
            whole == RelayOutcome((trace + published) + rest.trace, next + rest.consumed, rest.exit)
  {
    var ts, ps := ticks[t..], polls[start..];
    assert ts[1..] == ticks[t + 1..];
    assert ps[next - start..] == polls[next..];
    var rest := Relay(ts[1..], ps[next - start..], toPose);
    var here := Relay(ts, ps, toPose);
    assert here.trace == published + rest.trace;
    assert here.consumed == next - start + rest.consumed && here.exit == rest.exit;
    assert trace + (published + rest.trace) == (trace + published) + rest.trace;
  }

  /**
    The relay as the code runs it: nested loops that append to the transport
    trace. It produces exactly what `Relay` describes.
   */
  method PrintFrames(ticks: seq<Tick>, polls: seq<Poll>, toPose: Transform) returns (trace: seq<Publish>, consumed: nat, exit: Exit)
    ensures consumed <= |polls|
    ensures RelayOutcome(trace, consumed, exit) == Relay(ticks, polls, toPose)
  {
    ghost var whole := Relay(ticks, polls, toPose);
    trace := [];
    var c, t := 0, 0;
    assert trace + whole.trace == whole.trace;
    while t < |ticks| && ticks[t].run && ticks[t].good
      invariant 0 <= t <= |ticks| && 0 <= c <= |polls|
      invariant var rest := Relay(ticks[t..], polls[c..], toPose);
                whole == RelayOutcome(trace + rest.trace, c + rest.consumed, rest.exit)
      decreases |ticks| - t
    {
      var published, next := DrainFrames(polls, c, toPose);
      RelayAdvance(ticks, t, polls, c, next, whole, trace, published, toPose);
      trace, c, t := trace + published, next, t + 1;
    }
    RelayStop(ticks, t, polls, c, whole, trace, toPose);
    consumed := c;
    exit := if t < |ticks| && ticks[t].run then TransportFailed else Interrupted;
  }
}
