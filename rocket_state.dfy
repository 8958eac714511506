/** The robot's latest state, updated in place from each telemetry
    dictionary: joint angles, a finite-difference joint velocity and the IMU
    triples. The wall clock is the parameter `now`; numpy arrays are
    sequences of reals, and numpy's elementwise subtraction keeps its
    broadcasting rule for one-dimensional arrays. */
module State {
  import opened Common

  /** `1e-6`: the smallest time step that yields a velocity estimate. */
  const MinTimeStep: real := 0.000001

  /** Joints per packet; the arrays of a fresh state have this length. */
  const Joints: nat := 6
  /** Each IMU triple (accel, gyro, mag). */
  const Axes: nat := 3

  /** numpy's `a - b` on one-dimensional arrays: equal lengths subtract
      elementwise, a length-1 operand is stretched to the other's length, and
      any other pair of lengths raises (`None`). */
  function Subtract(a: seq<real>, b: seq<real>): (d: Option<seq<real>>)
    ensures d.Some? <==> |a| == |b| || |a| == 1 || |b| == 1
    ensures |a| == |b| ==>
      d.Some? && |d.value| == |a| && forall i :: 0 <= i < |a| ==> d.value[i] == a[i] - b[i]
    ensures |a| != |b| && |a| == 1 ==>
      d.Some? && |d.value| == |b| && forall i :: 0 <= i < |b| ==> d.value[i] == a[0] - b[i]
    ensures |a| != |b| && |b| == 1 ==>
      d.Some? && |d.value| == |a| && forall i :: 0 <= i < |a| ==> d.value[i] == a[i] - b[0]
  {
    if |a| == |b| then Some(seq(|a|, i requires 0 <= i < |a| => a[i] - b[i]))
    else if |a| == 1 then Some(seq(|b|, i requires 0 <= i < |b| => a[0] - b[i]))
    else if |b| == 1 then Some(seq(|a|, i requires 0 <= i < |a| => a[i] - b[0]))
    else None
  }

  /** `(new_angles - last_angles) / dt` */
  function FiniteDifference(newAngles: seq<real>, lastAngles: seq<real>, dt: real): (v: Option<seq<real>>)
    requires dt > 0.0
    ensures v.Some? <==> Subtract(newAngles, lastAngles).Some?
    ensures |newAngles| == |lastAngles| ==>
      v.Some? && |v.value| == |newAngles| &&
      forall i :: 0 <= i < |newAngles| ==> v.value[i] == (newAngles[i] - lastAngles[i]) / dt
  {
    match Subtract(newAngles, lastAngles)
    case None => None
    case Some(d) => Some(seq(|d|, i requires 0 <= i < |d| => d[i] / dt))
  }

  /** `dt and dt > 1e-6`, where `dt` is None on the first update: a
      velocity is estimated only after a previous update and once the clock
      has moved forward by more than 1e-6. */
  function VelocityDue(previous: Option<real>, now: real): (due: bool)
    ensures due <==> previous.Some? && now - previous.value > MinTimeStep
    ensures due ==> now > previous.value
  {
    previous.Some? && now - previous.value != 0.0 && now - previous.value > MinTimeStep
  }

  class RocketState {
    var timestamp: Option<real>
    var accel: seq<real>
    var gyro: seq<real>
    var mag: seq<real>
    var motorAngle: seq<real>
    var motorVelocity: seq<real>
    var lastMotorAngle: seq<real>

    /** No timestamp yet; every array zero, of its packet length. */
    constructor ()
      ensures timestamp == None
      ensures accel == Zeros(Axes) && gyro == Zeros(Axes) && mag == Zeros(Axes)
      ensures motorAngle == Zeros(Joints) && motorVelocity == Zeros(Joints)
      ensures lastMotorAngle == Zeros(Joints)
    {
      timestamp := None;
      accel := Zeros(Axes);
      gyro := Zeros(Axes);
      mag := Zeros(Axes);
      motorAngle := Zeros(Joints);
      motorVelocity := Zeros(Joints);
      lastMotorAngle := Zeros(Joints);
    }

    /** `update_from_udp` at time `now`. The timestamp and the angles are
        always replaced; the velocity only when a previous timestamp exists
        and more than 1e-6 has elapsed. `ok` is false when that velocity
        step raises because the two angle arrays cannot be broadcast; by then
        the timestamp and the angles are already replaced and nothing else
        is. */
    method UpdateFromUdp(state: StateDict<real>, now: real) returns (ok: bool)
      modifies this
      ensures timestamp == Some(now)
      ensures motorAngle == state.joints
      ensures ok <==> !VelocityDue(old(timestamp), now) || Subtract(state.joints, old(lastMotorAngle)).Some?
      ensures motorVelocity ==
        if ok && VelocityDue(old(timestamp), now)
        then FiniteDifference(state.joints, old(lastMotorAngle), now - old(timestamp).value).value
        else old(motorVelocity)
      ensures ok ==> lastMotorAngle == state.joints
      ensures ok ==> accel == Slice(state.imu, 0, 3) && gyro == Slice(state.imu, 3, 6) && mag == Slice(state.imu, 6, 9)
      ensures !ok ==> lastMotorAngle == old(lastMotorAngle)
      ensures !ok ==> accel == old(accel) && gyro == old(gyro) && mag == old(mag)
    {
      var dt: Option<real> := if timestamp.None? then None else Some(now - timestamp.value);
      timestamp := Some(now);

      var newAngles := state.joints;
      motorAngle := newAngles;

      if dt.Some? && dt.value != 0.0 && dt.value > MinTimeStep {
        var velocity := FiniteDifference(newAngles, lastMotorAngle, dt.value);
        if velocity.None? {
          return false;
        }
        motorVelocity := velocity.value;
      }

      lastMotorAngle := newAngles;

      var imu := state.imu;
      accel := Slice(imu, 0, 3);
      gyro := Slice(imu, 3, 6);
      mag := Slice(imu, 6, 9);
      ok := true;
    }
  }

  /** A single update of a fresh state never fails and never sets a
      velocity: it stays all zero, whatever the packet holds. */
  method FirstUpdate(state: StateDict<real>, now: real) returns (ok: bool, velocity: seq<real>, angle: seq<real>)
    ensures ok
    ensures velocity == Zeros(Joints)
    ensures angle == state.joints
  {
    var s := new RocketState();
    ok := s.UpdateFromUdp(state, now);
    velocity, angle := s.motorVelocity, s.motorAngle;
  }

  /** Two samples `a0` at `t0` and `a1` at `t1`, more than 1e-6 apart, of
      equal length: the velocity is `(a1 - a0) / (t1 - t0)` joint by joint. */
  method TwoSampleVelocity(first: StateDict<real>, t0: real, second: StateDict<real>, t1: real)
    returns (ok: bool, velocity: seq<real>)
    requires |first.joints| == |second.joints|
    requires t1 - t0 > MinTimeStep
    ensures ok
    ensures |velocity| == |second.joints|
    ensures forall i :: 0 <= i < |velocity| ==>
      velocity[i] == (second.joints[i] - first.joints[i]) / (t1 - t0)
  {
    var s := new RocketState();
    ok := s.UpdateFromUdp(first, t0);
    ok := s.UpdateFromUdp(second, t1);
    velocity := s.motorVelocity;
  }

  /** An update whose clock has not advanced by more than 1e-6 (equal,
      barely later or earlier) keeps the velocity estimated before it. */
  method StaleSampleKeepsVelocity(first: StateDict<real>, t0: real, second: StateDict<real>, t1: real,
                                  third: StateDict<real>, t2: real)
    returns (before: seq<real>, after: seq<real>)
    requires t2 - t1 <= MinTimeStep
    ensures after == before
  {
    var s := new RocketState();
    var ok := s.UpdateFromUdp(first, t0);
    ok := s.UpdateFromUdp(second, t1);
    before := s.motorVelocity;
    ok := s.UpdateFromUdp(third, t2);
    after := s.motorVelocity;
  }
}
