/**
  Assembly of the `vicon_pos_t` record published for one rigid body: the
  location is copied into slots 0..2, the roll, pitch and yaw computed from
  the orientation quaternion go into slots 3..5, and the timestamp is left 0.

  The math library's `atan2` and `asin` are not modelled numerically; they are
  supplied as the functions in a `Libm` value, so every statement here holds
  whatever those functions compute.
 */
module Pose {
  import opened Mocap

  /** The C math library functions the Euler conversion calls. */
  datatype Libm = Libm(atan2: (real, real) -> real, asin: real -> real)

  /** A `vicon_t::vicon_pos_t`: a timestamp and six pose slots `q`. */
  datatype ViconPos = ViconPos(timestamp: int, q: seq<real>)

  /** How a rigid body becomes the record published for it. */
  type Transform = RigidBody -> ViconPos

  /** Number of slots in `vicon_pos_t::q`. */
  const PoseSlots := 6

  /** Roll (phi): `atan2(2(qx qy + qz qw), 1 - 2(qy^2 + qz^2))`. */
  function Roll(o: Quaternion4f, m: Libm): real {
    m.atan2(2.0 * (o.qx * o.qy + o.qz * o.qw), 1.0 - 2.0 * (o.qy * o.qy + o.qz * o.qz))
  }

  /** Pitch (theta): `asin(2(qx qz - qw qy))`; the argument is not clamped. */
  function Pitch(o: Quaternion4f, m: Libm): real {
    m.asin(2.0 * (o.qx * o.qz - o.qw * o.qy))
  }

  /** Yaw (psi): `atan2(2(qx qw + qy qz), 1 - 2(qz^2 + qw^2))`. */
  function Yaw(o: Quaternion4f, m: Libm): real {
    m.atan2(2.0 * (o.qx * o.qw + o.qy * o.qz), 1.0 - 2.0 * (o.qz * o.qz + o.qw * o.qw))
  }

  /** The record published for one rigid body. */
  function ToViconPos(b: RigidBody, m: Libm): (p: ViconPos)
    ensures |p.q| == PoseSlots
    ensures p.q[0] == b.location.x && p.q[1] == b.location.y && p.q[2] == b.location.z
    ensures p.q[3] == Roll(b.orientation, m)
    ensures p.q[4] == Pitch(b.orientation, m)
    ensures p.q[5] == Yaw(b.orientation, m)
    ensures p.timestamp == 0
  {
    ViconPos(0, [b.location.x, b.location.y, b.location.z,
                 Roll(b.orientation, m), Pitch(b.orientation, m), Yaw(b.orientation, m)])
  }

  /** The transform the relay applies: `ToViconPos` with the math library `m`. */
  function CodeTransform(m: Libm): (t: Transform)
    ensures forall b :: |t(b).q| == PoseSlots && t(b).timestamp == 0
    ensures forall b :: t(b).q[0] == b.location.x && t(b).q[1] == b.location.y && t(b).q[2] == b.location.z
    ensures forall b :: t(b).q[3] == Roll(b.orientation, m) && t(b).q[4] == Pitch(b.orientation, m)
                        && t(b).q[5] == Yaw(b.orientation, m)
  {
    b => ToViconPos(b, m)
  }

  /**
    Position and orientation travel independently: the position slots depend
    only on the location, the angle slots only on the orientation, and the
    timestamp on neither.
   */
  lemma PoseSlotsIndependent(a: RigidBody, b: RigidBody, m: Libm)
    ensures ToViconPos(a, m).timestamp == ToViconPos(b, m).timestamp
    ensures a.location == b.location ==> ToViconPos(a, m).q[..3] == ToViconPos(b, m).q[..3]
    ensures a.orientation == b.orientation ==> ToViconPos(a, m).q[3..] == ToViconPos(b, m).q[3..]
    ensures ToViconPos(a, m) == ToViconPos(b, m) <==>
              a.location == b.location && ToViconPos(a, m).q[3..] == ToViconPos(b, m).q[3..]
  {
    var p, r := ToViconPos(a, m), ToViconPos(b, m);
    if p == r {
      assert p.q[0] == r.q[0] && p.q[1] == r.q[1] && p.q[2] == r.q[2];
    }
    if a.location == b.location && p.q[3..] == r.q[3..] {
      assert p.q == p.q[..3] + p.q[3..];
      assert r.q == r.q[..3] + r.q[3..];
    }
  }

  /**
    The identity orientation (0, 0, 0, 1) as the code reads it: roll is
    `atan2(0, 1)` and pitch `asin(0)`, but yaw is `atan2(0, -1)`, because the
    yaw formula squares `qw` in its second argument.
   */
  lemma IdentityOrientation(m: Libm)
    ensures ToViconPos(RigidBody(Point3f(1.0, 2.0, 3.0), Quaternion4f(0.0, 0.0, 0.0, 1.0)), m)
            == ViconPos(0, [1.0, 2.0, 3.0, m.atan2(0.0, 1.0), m.asin(0.0), m.atan2(0.0, -1.0)])
  {
  }
}
