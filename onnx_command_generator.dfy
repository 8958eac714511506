/** The ONNX position controller: it builds the policy's observation vector
    from the latest telemetry dictionary and feeds its own previous action
    back into the next observation. The inference session is a parameter
    `infer` (observation to first output row); nothing is assumed about it. */
module OnnxController {
  import opened Common

  /** Number of actuated joints, `self.N`. */
  const N: nat := 6

  /** Length of the observation for a full packet: 6 joints, 3 gyro,
      3 accel, 3 mag, 6 previous actions. */
  const ObservationSize: nat := 21

  /** The policy's output: one target angle per joint. */
  datatype JointCommand = JointCommand(jointAngles: seq<real>)

  datatype ControllerError = NoStateAvailable

  /** A telemetry dictionary with at least the fields a decoded packet has. */
  predicate FullPacket(state: StateDict<real>)
  {
    |state.joints| >= N && |state.imu| >= 9
  }

  /** `output[:N] * action_scale` */
  function ScaleAction(output: seq<real>, scale: real): (target: seq<real>)
    ensures |target| == Min(|output|, N)
    ensures forall i :: 0 <= i < |target| ==> target[i] == output[i] * scale
  {
    var head := Slice(output, 0, N);
    seq(|head|, i requires 0 <= i < |head| => head[i] * scale)
  }

  class PositionController {
    /** `config.action_scale` */
    const actionScale: real
    /** The previous command, fed back as the tail of the observation. */
    var lastAction: seq<real>

    constructor (actionScale: real)
      ensures this.actionScale == actionScale
      ensures lastAction == Zeros(N)
    {
      this.actionScale := actionScale;
      lastAction := Zeros(N);
    }

    /** Joints (first N only), then gyro, accel and mag (gyro before accel,
        the reverse of their packet order), then the previous action. */
    function BuildObservation(state: StateDict<real>): (obs: seq<real>)
      reads this
      ensures |obs| == Min(|state.joints|, N) + |Slice(state.imu, 3, 6)| + |Slice(state.imu, 0, 3)|
                       + |Slice(state.imu, 6, 9)| + |lastAction|
      ensures obs[|obs| - |lastAction|..] == lastAction
      ensures FullPacket(state) ==>
        |obs| == ObservationSize - N + |lastAction| &&
        obs[..6] == state.joints[..N] &&
        obs[6..9] == state.imu[3..6] &&
        obs[9..12] == state.imu[0..3] &&
        obs[12..15] == state.imu[6..9] &&
        obs[15..] == lastAction
    {
      var joints := Slice(state.joints, 0, N);
      var accel := Slice(state.imu, 0, 3);
      var gyro := Slice(state.imu, 3, 6);
      var mag := Slice(state.imu, 6, 9);
      joints + gyro + accel + mag + lastAction
    }

    /** `__call__`: refuse without a state; otherwise run the policy on the
        observation, keep the scaled first N outputs as the new last action
        and return them as the command. */
    method Call(latestState: Option<StateDict<real>>, infer: seq<real> -> seq<real>)
      returns (r: Result<JointCommand, ControllerError>)
      modifies this`lastAction
      ensures latestState.None? ==> r == Err(NoStateAvailable) && lastAction == old(lastAction)
      ensures latestState.Some? ==>
        lastAction == ScaleAction(infer(old(BuildObservation(latestState.value))), actionScale) &&
        r == Ok(JointCommand(lastAction))
    {
      if latestState.None? {
        return Err(NoStateAvailable);
      }
      var obs := BuildObservation(latestState.value);
      var output := infer(obs);
      var target := ScaleAction(output, actionScale);
      lastAction := target;
      r := Ok(JointCommand(target));
    }
  }

  /** With no state available the call fails and the fresh controller's last
      action stays six zeros. */
  method CallWithoutState(actionScale: real, infer: seq<real> -> seq<real>)
    returns (r: Result<JointCommand, ControllerError>, lastAction: seq<real>)
    ensures r == Err(NoStateAvailable)
    ensures lastAction == Zeros(N)
  {
    var c := new PositionController(actionScale);
    r := c.Call(None, infer);
    lastAction := c.lastAction;
  }

  /** Two observations around one call of a fresh controller: the first ends
      with six zeros, the command is the scaled policy output on it, and the
      next observation ends with exactly that command (action feedback). */
  method ActionFeedback(actionScale: real, first: StateDict<real>, next: StateDict<real>,
                        infer: seq<real> -> seq<real>)
    returns (firstObs: seq<real>, cmd: JointCommand, nextObs: seq<real>)
    requires FullPacket(first) && FullPacket(next)
    requires forall o :: |infer(o)| >= N
    ensures |firstObs| == ObservationSize && firstObs[ObservationSize - N..] == Zeros(N)
    ensures |cmd.jointAngles| == N
    ensures forall i :: 0 <= i < N ==> cmd.jointAngles[i] == infer(firstObs)[i] * actionScale
    ensures |nextObs| == ObservationSize && nextObs[ObservationSize - N..] == cmd.jointAngles
    ensures nextObs[..N] == next.joints[..N]
  {
    var c := new PositionController(actionScale);
    firstObs := c.BuildObservation(first);
    var r := c.Call(Some(first), infer);
    cmd := r.value;
    nextObs := c.BuildObservation(next);
  }
}
