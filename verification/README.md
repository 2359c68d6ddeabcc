# OptitrackViconLcmStub relay core, modelled in Dafny

OptitrackViconLcmStub reads rigid-body frames from an OptiTrack motion-capture
server through NatNetLinux's `FrameListener` and republishes them on LCM as
`vicon_t::vicon_pos_t` messages. This project models the per-frame logic of
its two consumer loops in `src/OptitrackViconLcmStub.cpp`:

- **`printFrames`, the relay.** It pops frames until the listener reports
  none. Each rigid body of a frame becomes one pose record: location in slots
  0..2, roll/pitch/yaw in slots 3..5, timestamp 0. The record is published on
  `MOCAP#<j>`, where `j` counts bodies from 1 within each frame. Each outer
  iteration first tests the run flag and `lcmobj.good()`.
- **`timeStats`, the inter-arrival histogram.** Each frame popped gives an
  absolute time difference in milliseconds from the previous stamp. That
  difference is scaled by `(bins + 1)`, truncated and clamped to
  `[0, bins-1]`, and counted in that bucket. At the end there is one report
  line per bucket: midpoint and count. The shipped `main` runs only
  `printFrames`; its call of `timeStats` is commented out.

Modules, one file each:

| file | module | contents |
|---|---|---|
| `decimal.dfy` | `Decimal` | decimal rendering of the channel counter (`ostream << int`) and its inverse parser |
| `mocap.dfy` | `Mocap` | point, quaternion, rigid body, frame, `timespec`, poll result; the drain discipline (`FirstGap`, `DrainLength`, `Frames`) |
| `pose.dfy` | `Pose` | the Euler conversion and the `vicon_pos_t` record |
| `relay.dfy` | `Relay` | channel naming, fan-out, drain, outer loop, and the loop code as methods |
| `time_stats.dfy` | `TimeStats` | delta, bucket index, histogram update, drain and outer loop, report |

Modelling choices:

- **Frame listener.** It is given as the finite sequence of results its `pop`
  returns: `NoFrame` (`valid` false) or `Popped(frame, stamp)`. A drain ends
  at the first `NoFrame`, which it consumes, or where the sequence ends.
- **Run flag and `lcmobj.good()`.** They are read once per outer iteration.
  For the relay they come as a sequence of `Tick(run, good)`; for the
  histogram, as a sequence of booleans. Running out of ticks counts as the
  flag being cleared.
- **`atan2` and `asin`.** They are the fields of a `Libm` value, so nothing is
  assumed about their numeric results. `pow(x, 2)` is `x * x`.
- **Record transform.** The relay is written over a `Transform`, the function
  that builds a body's record. `Pose.CodeTransform(m)` is the one the code
  applies; `Relay.PublishedRecord` and `Relay.SingleBodyExample` state what
  that transform publishes.
- **Histogram binning.** In the same way, the histogram loop is written over a
  `Binning`, the function that maps a pair (previous stamp, new stamp) to a
  bucket index. `TimeStats.CodeBinning(cfg)` is the one the code applies (the
  bucket of the delta between the two stamps), and the loop code as methods
  (`DrainStats`, `TimeStatsLoop`) uses it.
- **Floating point.** `float` values are reals. The `float` to `int`
  conversion of the scaled delta truncates toward zero (`TimeStats.TruncToInt`).
- **Initial `current`.** In `timeStats` it is uninitialised. Here it is an
  explicit initial `Timespec` argument.

Two properties of the code's Euler conversion that a reader might not expect:

- **Identity orientation.** The yaw formula squares `qw` in the second
  argument of `atan2`, so orientation (0, 0, 0, 1) gives yaw `atan2(0, -1)`,
  not `atan2(0, 1)` (`Pose.IdentityOrientation`, `Relay.SingleBodyExample`).
- **`asin` argument.** The argument of `asin` is not clamped to `[-1, 1]`,
  in the code or in the model.

## Model

| member | source | states |
|---|---|---|
| `Decimal.NatToString` | src/OptitrackViconLcmStub.cpp:153 | the counter is written as a non-empty string of decimal digits with no leading zero, starting with `0` only for zero |
| `Decimal.ParseNatToString` | src/OptitrackViconLcmStub.cpp:153 | reading back the digits written for `n` gives `n` |
| `Decimal.NatToStringParse` | src/OptitrackViconLcmStub.cpp:153 | writing the value of a canonical digit string gives that string back |
| `Decimal.NatToStringInjective` | src/OptitrackViconLcmStub.cpp:153 | two counter values are written the same exactly when they are equal |
| `Mocap.FirstGapSpec` | src/OptitrackViconLcmStub.cpp:117-124 | the polls before the gap all returned a frame, and the poll at the gap (if any) returned none |
| `Mocap.DrainLengthSpec` | src/OptitrackViconLcmStub.cpp:117-124 | a drain consumes at least one poll when there is one; every poll before its last returned a frame; if it stops early, its last poll returned none |
| `Mocap.FirstGapAfterFrames` | src/OptitrackViconLcmStub.cpp:120-124 | after frames followed by an empty poll, the gap is right after the frames, whatever follows |
| `Mocap.FirstGap` | src/OptitrackViconLcmStub.cpp:117-124 | the number of leading polls that returned a frame is at most the number of polls (`FirstGapSpec` gives the rest) |
| `Mocap.DrainLength` | src/OptitrackViconLcmStub.cpp:117-124 | one drain consumes at most the polls there are (`DrainLengthSpec` gives the rest) |
| `Mocap.DrainsLength` | src/OptitrackViconLcmStub.cpp:111-124 | drains run back to back, each starting after the last, consume at most the polls there are |
| `Mocap.Stamps` | src/OptitrackViconLcmStub.cpp:201-207 | one time stamp per frame popped (`StampsAppend` and `StampsOfDrain` give their order and which polls they come from) |
| `Mocap.StampsAppend` | src/OptitrackViconLcmStub.cpp:201-207 | the stamps of two stretches of polls in turn are the stamps of both, in order |
| `Mocap.StampsOfDrain` | src/OptitrackViconLcmStub.cpp:198-207 | the polls one drain consumes carry the stamps of the leading frames and no others: the empty poll that ends it adds none |
| `Mocap.Frames` | src/OptitrackViconLcmStub.cpp:117-124 | the frames popped are at most as many as the polls (`FramesAppend` and `FramesAllPopped` give their contents) |
| `Pose.Roll` | src/OptitrackViconLcmStub.cpp:137 | no contract of its own: the code's roll formula; its place in the record is stated by `Pose.ToViconPos` |
| `Pose.Pitch` | src/OptitrackViconLcmStub.cpp:139 | no contract of its own: the code's pitch formula, with the `asin` argument unclamped; its place in the record is stated by `Pose.ToViconPos` |
| `Pose.Yaw` | src/OptitrackViconLcmStub.cpp:141 | no contract of its own: the code's yaw formula; its place in the record is stated by `Pose.ToViconPos` |
| `Pose.CodeTransform` | src/OptitrackViconLcmStub.cpp:130-148 | every body's record has 6 slots, its location in slots 0..2, its roll, pitch and yaw in slots 3..5, and timestamp 0 |
| `Pose.ToViconPos` | src/OptitrackViconLcmStub.cpp:137-148 | the record has 6 slots: location x, y, z in slots 0..2; roll, pitch, yaw of the orientation in slots 3..5; timestamp 0 |
| `Pose.PoseSlotsIndependent` | src/OptitrackViconLcmStub.cpp:142-148 | position slots depend only on the location, angle slots only on the orientation, and the timestamp on neither; two records are equal exactly when locations and angle slots agree |
| `Pose.IdentityOrientation` | src/OptitrackViconLcmStub.cpp:137-148 | body (1,2,3) with orientation (0,0,0,1) gives record (1, 2, 3, atan2(0,1), asin(0), atan2(0,-1)), timestamp 0 |
| `Relay.ExitStatus` | src/OptitrackViconLcmStub.cpp:114-115 | the process exit status is 0 exactly when the loop ended because the run flag was cleared: `exit(1)` on a bad transport (lines 114-115), otherwise `main` goes on to `return 0` (src/OptitrackViconLcmStub.cpp line 289) |
| `Relay.Channel` | src/OptitrackViconLcmStub.cpp:150-154 | the channel name is `MOCAP#` followed by at least one more character (`ChannelParse` says which: the counter's decimal digits) |
| `Relay.ChannelParse` | src/OptitrackViconLcmStub.cpp:150-154 | after the `MOCAP#` prefix, a channel name is the counter's canonical digits, and they read back as the counter |
| `Relay.ChannelInjective` | src/OptitrackViconLcmStub.cpp:150-154 | two counter values give the same channel exactly when they are equal |
| `Relay.PublishBodies` | src/OptitrackViconLcmStub.cpp:130-156 | there is one publish per body |
| `Relay.FramePublishes` | src/OptitrackViconLcmStub.cpp:125-156 | a frame gives one publish per body |
| `Relay.PublishBodiesSpec` | src/OptitrackViconLcmStub.cpp:130-156 | with the counter starting at `j`, body `i` is published `i`-th, on channel `j + i`, with its own record |
| `Relay.FramePublishesSpec` | src/OptitrackViconLcmStub.cpp:125-156 | a frame with k bodies gives k publishes in body order; body `i` goes on `"MOCAP#" + (i+1)` with its own record |
| `Relay.FrameChannelsDistinct` | src/OptitrackViconLcmStub.cpp:125-155 | no two publishes of one frame share a channel |
| `Relay.PublishAll` | src/OptitrackViconLcmStub.cpp:117-156 | frames published one after another give as many publishes as they have bodies in total |
| `Relay.Drain` | src/OptitrackViconLcmStub.cpp:117-124 | a drain consumes at most the polls there are (`DrainSpec` gives what it consumes and publishes) |
| `Relay.DrainSpec` | src/OptitrackViconLcmStub.cpp:117-171 | one drain consumes the leading frames plus the empty poll, and publishes exactly those frames' fan-outs in pop order |
| `Relay.DrainEndsAtNoFrame` | src/OptitrackViconLcmStub.cpp:120-124 | an empty poll publishes nothing and ends the drain; later polls do not affect it |
| `Relay.Relay` | src/OptitrackViconLcmStub.cpp:111-115 | the loop consumes at most the polls there are (`RelayTrace`, `RelayConsumed` and `RelayExit` give what it publishes, pops and how it ends) |
| `Relay.RelayTrace` | src/OptitrackViconLcmStub.cpp:111-175 | the whole trace is the fan-out of the frames in the consumed polls, frame after frame in pop order, with empty polls contributing nothing |
| `Relay.Iterations` | src/OptitrackViconLcmStub.cpp:111-115 | counts the leading ticks that see the flag set and the transport good: all ticks before the count pass both tests, the tick at the count (if any) fails one |
| `Relay.RelayConsumed` | src/OptitrackViconLcmStub.cpp:111-124 | the loop pops exactly the polls of `Iterations(ticks)` drains in a row: one drain per leading tick with the flag set and the transport good, none after |
| `Relay.RelayExit` | src/OptitrackViconLcmStub.cpp:111-115 | the loop ends with `exit(1)` exactly when the tick that stops it saw the flag still set |
| `Relay.RelayIgnoresLaterTicks` | src/OptitrackViconLcmStub.cpp:111-115 | after the loop stops, further flag observations change nothing: no more pops, no more publishes |
| `Relay.TwoFrameExample` | src/OptitrackViconLcmStub.cpp:117-156 | frames [A, B] then [C] are published as (MOCAP#1, A), (MOCAP#2, B), (MOCAP#1, C), and nothing else |
| `Relay.PublishedRecord` | src/OptitrackViconLcmStub.cpp:130-155 | with the code's transform, body `i` is published on `MOCAP#<i+1>` with its location, its roll/pitch/yaw and timestamp 0 |
| `Relay.SingleBodyExample` | src/OptitrackViconLcmStub.cpp:117-155 | one frame with one body at (1,2,3), orientation (0,0,0,1), gives exactly one publish on `MOCAP#1` |
| `Relay.PublishFrame` | src/OptitrackViconLcmStub.cpp:125-156 | the `for` loop with its counter `j` produces exactly the frame's fan-out |
| `Relay.DrainFrames` | src/OptitrackViconLcmStub.cpp:117-171 | the inner `while (true)` loop produces exactly one drain |
| `Relay.PrintFrames` | src/OptitrackViconLcmStub.cpp:106-176 | the nested loops produce the same trace, the same number of pops and the same ending as `Relay` |
| `TimeStats.DeltaMs` | src/OptitrackViconLcmStub.cpp:209-213 | the delta is non-negative; it is the distance between the two stamps in milliseconds |
| `TimeStats.DeltaMsSymmetric` | src/OptitrackViconLcmStub.cpp:209-213 | the delta is symmetric in its two stamps and zero between equal stamps |
| `TimeStats.TruncToInt` | src/OptitrackViconLcmStub.cpp:215 | the conversion to `int` rounds toward zero: the result is within 1 of the value, on its side of zero |
| `TimeStats.Scaled` | src/OptitrackViconLcmStub.cpp:215 | no contract of its own: the scaled delta before truncation; `TimeStats.ScaledReachesEdge` states when it reaches an integer |
| `TimeStats.Bucket` | src/OptitrackViconLcmStub.cpp:215-219 | the bucket index is always in `[0, bins-1]` |
| `TimeStats.ScaledReachesEdge` | src/OptitrackViconLcmStub.cpp:215 | the scaled delta reaches an integer `k` exactly when the delta reaches `min + k (max-min)/(bins+1)` |
| `TimeStats.BucketAtLeast` | src/OptitrackViconLcmStub.cpp:215-219 | for `k >= 1`, the bucket is at least `k` exactly when `k < bins` and the delta reaches edge `k` |
| `TimeStats.BucketInterval` | src/OptitrackViconLcmStub.cpp:215-219 | bucket `b` is chosen exactly for deltas from edge `b` to edge `b+1`; bucket 0 is unbounded below, the last bucket unbounded above |
| `TimeStats.BucketAtOrBelowMin` | src/OptitrackViconLcmStub.cpp:215-217 | a delta at or below `min` goes to bucket 0 |
| `TimeStats.BucketAtOrAboveMax` | src/OptitrackViconLcmStub.cpp:215-219 | a delta at or above `max` goes to bucket `bins-1` |
| `TimeStats.BucketMonotone` | src/OptitrackViconLcmStub.cpp:215-219 | a larger delta never goes to a lower bucket |
| `TimeStats.DefaultBucketExample` | src/OptitrackViconLcmStub.cpp:182-219 | with the defaults 0.5, 7.0, 100, a 3.75 ms delta goes to bucket 50 |
| `TimeStats.Zeros` | src/OptitrackViconLcmStub.cpp:193 | the cleared histogram has `bins` buckets, all zero, summing to 0 |
| `TimeStats.Increment` | src/OptitrackViconLcmStub.cpp:221 | the chosen bucket gains exactly one, every other bucket is unchanged, and the sum grows by one |
| `TimeStats.CodeBinning` | src/OptitrackViconLcmStub.cpp:209-219 | the code's binning maps every pair of stamps into `[0, bins-1]`, to the bucket whose interval holds the delta between them |
| `TimeStats.StatsStep` | src/OptitrackViconLcmStub.cpp:201-221 | a valid pop keeps `bins` buckets and makes its stamp the current one (`StatsStepSpec` gives what it counts) |
| `TimeStats.StatsStepSpec` | src/OptitrackViconLcmStub.cpp:201-221 | a valid pop adds one count to the bucket of (current stamp, new stamp), changes no other bucket, and adds one to the total |
| `TimeStats.Counted` | src/OptitrackViconLcmStub.cpp:198-221 | counting a run of stamps keeps `bins` buckets, changes nothing for no stamps, and leaves the last stamp as the current one |
| `TimeStats.CountedAppend` | src/OptitrackViconLcmStub.cpp:198-221 | counting two runs of stamps in turn is counting them together, the second run measured from the last stamp of the first |
| `TimeStats.StatsDrain` | src/OptitrackViconLcmStub.cpp:198-222 | a stats drain keeps `bins` buckets and consumes at most the polls there are (`StatsDrainSpec` and `StatsDrainCounts` give how many and what it counts) |
| `TimeStats.StatsDrainCounts` | src/OptitrackViconLcmStub.cpp:198-222 | a stats drain counts the stamps of the leading frames in pop order, each delta from the stamp before it, and ends with the last valid stamp as the current one |
| `TimeStats.StatsDrainConsumedCounts` | src/OptitrackViconLcmStub.cpp:198-222 | a stats drain counts exactly the stamps among the polls it consumes |
| `TimeStats.StatsDrainSpec` | src/OptitrackViconLcmStub.cpp:198-222 | a stats drain consumes what a relay drain would, and adds one count per frame popped |
| `TimeStats.CollectStats` | src/OptitrackViconLcmStub.cpp:196-226 | the loop keeps `bins` buckets and consumes at most the polls there are (`CollectStatsConsumed`, `CollectStatsCounts` and `CollectStatsCount` give how many and what it counts) |
| `TimeStats.LeadingRuns` | src/OptitrackViconLcmStub.cpp:196 | counts the leading iterations that see the flag set: all before the count do, the one at the count (if any) does not |
| `TimeStats.CollectStatsConsumed` | src/OptitrackViconLcmStub.cpp:196-222 | the loop pops exactly the polls of `LeadingRuns(runs)` drains in a row |
| `TimeStats.CollectStatsCounts` | src/OptitrackViconLcmStub.cpp:196-226 | over the whole loop the histogram and current stamp are those of counting the stamps of all frames popped, in pop order, each delta from the previous valid stamp, across empty polls and outer iterations |
| `TimeStats.CollectStatsCount` | src/OptitrackViconLcmStub.cpp:196-226 | over the whole loop, the counts grow by exactly the number of frames popped |
| `TimeStats.CountsFromZero` | src/OptitrackViconLcmStub.cpp:193-226 | from the cleared histogram, the counts sum to the number of frames popped |
| `TimeStats.Midpoint` | src/OptitrackViconLcmStub.cpp:232 | the value printed for bucket `b` lies strictly between `min` and `max`, strictly inside `[min + b(max-min)/bins, min + (b+1)(max-min)/bins]`; this `/bins` slot is not the interval bucket `b` collects, whose edges use `/(bins+1)` |
| `TimeStats.MidpointOutsideItsBucket` | src/OptitrackViconLcmStub.cpp:215-232 | with the defaults, the value printed for bucket 50 is 3.7825 ms, which lies outside bucket 50's interval and is itself counted in bucket 51 |
| `TimeStats.Report` | src/OptitrackViconLcmStub.cpp:231-232 | exactly `bins` lines in bucket order; line `b` prints `Midpoint(cfg, b)` and bucket `b`'s count; midpoints strictly between `min` and `max`, strictly increasing |
| `TimeStats.DrainStats` | src/OptitrackViconLcmStub.cpp:198-222 | the inner loop (`prev = current`, pop, delta, bucket, clamp, `hist[bin] += 1`) produces exactly one stats drain |
| `TimeStats.TimeStatsLoop` | src/OptitrackViconLcmStub.cpp:182-226 | the loops from the cleared histogram compute exactly `CollectStats` with the code's binning; the histogram is that of counting the stamps of the frames popped, and the counts sum to their number |

## Left out

- `main`, socket creation, the NatNet ping/version handshake, and the start, stop and join of `CommandListener` and `FrameListener` threads: network I/O and library code.
- `readOpts`: command-line parsing with boost `program_options` and `inet_addr`, foreign calls.
- The SIGINT handler `terminate` and the shared `Globals::run` flag. The flag is only observed, once per outer iteration (`Tick.run`, or one boolean per iteration for the histogram). Memory visibility between threads is not modelled.
- `lcmobj.publish` serialisation and delivery: publishing appends `(channel, record)` to a trace. `lcmobj.good()` is the observed `Tick.good`; `exit(1)` is the `TransportFailed` ending.
- The `std::cout` frame dump, the histogram banner text, the `usleep(1000)` pauses and the commented-out test block: output formatting and timing only.
- The numeric values of `atan2` and `asin`: floating-point library calls, left uninterpreted through `Libm`.
- Floating-point rounding of `float` and `double` arithmetic, including the `timespec` to `float` conversion: all values are reals.
- Float-to-int overflow for huge scaled deltas: unbounded integers are used.
- Overflow of the `int` body counter `j` past 2^31 - 1 bodies in one frame: unbounded naturals are used.
- `TimeStats.Bucket`: requires `diffMin_ms < diffMax_ms` and `bins > 0`. The only call, commented out in `main`, uses the defaults, which meet this; with `bins <= 0` the array `hist[bins]` has no valid size.
- The listener's infinite stream of pop results: the model takes a finite prefix. When that prefix runs out, the drain stops as if `pop` had reported no frame.
