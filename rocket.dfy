/** The robot link: the state-packet decoder, the command encoder, the
    command-send loop run sequentially over given timing outcomes, and the
    stream flags of the `Rocket` supervisor. Sockets and threads are not
    modelled: a sent datagram is appended to `sent`, and a started thread is
    recorded as a flag. */
module Rocket {
  import opened Common
  import opened Wire
  import opened OnnxController

  /** `"<6f9f"`: six joint words, then nine IMU words (accel, gyro, mag). */
  const StateJoints: nat := 6
  const StateImu: nat := 9
  /** 4 * (6 + 9) bytes */
  const StateMsgSize: nat := 60
  /** `"<6f"` */
  const CommandMsgSize: nat := 24

  datatype CodecError =
    | UnpackSizeMismatch  // struct.error: unpack requires a buffer of 60 bytes
    | AngleIndexOutOfRange  // IndexError: fewer than six joint angles

  /** The encoding of one Python float as a binary32 word, rounding included.
      It is supplied by the caller: IEEE 754 arithmetic is not modelled. */
  type Float32Encoding = real -> Word

  /** `_decode_state_packet`: unpack 15 words and split them 6 + 9. Any other
      length fails as a whole; nothing is partially decoded. */
  function DecodeStatePacket(data: seq<Byte>): (r: Result<StateDict<Word>, CodecError>)
    ensures r.Ok? <==> |data| == StateMsgSize
    ensures r.Err? ==> r.error == UnpackSizeMismatch
    ensures r.Ok? ==>
      |r.value.joints| == StateJoints && |r.value.imu| == StateImu &&
      PackWords(r.value.joints + r.value.imu) == data &&
      PackWords(r.value.joints) + PackWords(r.value.imu) == data
  {
    if |data| != StateMsgSize then
      Err(UnpackSizeMismatch)
    else
      var vals := UnpackWords(data);
      PackUnpackWords(data);
      assert vals[..StateJoints] + vals[StateJoints..] == vals;
      PackWordsAppend(vals[..StateJoints], vals[StateJoints..]);
      Ok(StateDict(vals[..StateJoints], vals[StateJoints..]))
  }

  /** Joint `i` of a decoded packet is word `i`, IMU value `j` is word `6 + j`. */
  lemma DecodeStatePacketAt(data: seq<Byte>, i: nat, j: nat)
    requires |data| == StateMsgSize && i < StateJoints && j < StateImu
    ensures DecodeStatePacket(data).value.joints[i] == UnpackWord(WordBytes(data, i))
    ensures DecodeStatePacket(data).value.imu[j] == UnpackWord(WordBytes(data, StateJoints + j))
  {
    UnpackWordsAt(data, i);
    UnpackWordsAt(data, StateJoints + j);
  }

  /** Packing any 15 words and decoding the result gives them back, split
      as six joints and nine IMU values. */
  lemma DecodePackedState(ws: seq<Word>)
    requires |ws| == StateJoints + StateImu
    ensures DecodeStatePacket(PackWords(ws)) == Ok(StateDict(ws[..StateJoints], ws[StateJoints..]))
  {
    UnpackPackWords(ws);
  }

  /** The six words of a command, `joint_angles[0]` .. `joint_angles[5]`. */
  function CommandWords(cmd: JointCommand, f32: Float32Encoding): (ws: seq<Word>)
    requires |cmd.jointAngles| >= N
    ensures |ws| == N
    ensures forall i :: 0 <= i < N ==> ws[i] == f32(cmd.jointAngles[i])
  {
    seq(N, i requires 0 <= i < N => f32(cmd.jointAngles[i]))
  }

  /** `_encode_command`: the first six angles as a 24-byte packet. Fewer than
      six angles fail on indexing; any beyond the sixth are ignored. */
  function EncodeCommand(cmd: JointCommand, f32: Float32Encoding): (r: Result<seq<Byte>, CodecError>)
    ensures r.Ok? <==> |cmd.jointAngles| >= N
    ensures r.Err? ==> r.error == AngleIndexOutOfRange
    ensures r.Ok? ==> |r.value| == CommandMsgSize
  {
    if |cmd.jointAngles| < N then
      Err(AngleIndexOutOfRange)
    else
      Ok(PackWords(CommandWords(cmd, f32)))
  }

  /** Round trip at the word level: unpacking a command packet recovers the
      six words of the first six angles. */
  lemma EncodeCommandRoundTrip(cmd: JointCommand, f32: Float32Encoding)
    requires |cmd.jointAngles| >= N
    ensures UnpackWords(EncodeCommand(cmd, f32).value) == CommandWords(cmd, f32)
  {
    UnpackPackWords(CommandWords(cmd, f32));
  }

  /** Bytes 4i..4i+3 of an encoded command are the little-endian word of
      `joint_angles[i]`, for each of the six joints. */
  lemma EncodeCommandLayout(cmd: JointCommand, f32: Float32Encoding, i: nat)
    requires |cmd.jointAngles| >= N && i < N
    ensures WordBytes(EncodeCommand(cmd, f32).value, i) == PackWord(f32(cmd.jointAngles[i]))
  {
    PackWordsAt(CommandWords(cmd, f32), i);
  }

  /** Only the first six angles reach the wire. */
  lemma EncodeCommandIgnoresExtra(cmd: JointCommand, extra: seq<real>, f32: Float32Encoding)
    requires |cmd.jointAngles| >= N
    ensures EncodeCommand(JointCommand(cmd.jointAngles + extra), f32) == EncodeCommand(cmd, f32)
  {
    assert CommandWords(JointCommand(cmd.jointAngles + extra), f32) == CommandWords(cmd, f32);
  }

  /** Why a run of the command-send loop ended. */
  datatype StopReason =
    | StreamStopping     // `_command_stream_stopping` was set
    | TimingTimeout      // the timing policy returned False
    | PolicyError        // the command policy raised
    | EncodeError        // the command had fewer than six angles
    | OutcomesExhausted  // no further timing outcome is given to the model

  /** The packets a run of the send loop transmits and why it stops. */
  datatype SenderRun = SenderRun(packets: seq<seq<Byte>>, reason: StopReason)

  /** The send loop from its `i`-th iteration on, while the stopping flag is
      clear: `timing[k]` is what the timing policy returns in iteration `k`,
      and `policy(k)` what the command policy returns when called there
      (`None` when it raises). Each True sends one encoded command; the first
      False ends the loop without sending. */
  function SenderFrom(timing: seq<bool>, policy: nat -> Option<JointCommand>,
                      f32: Float32Encoding, i: nat): (run: SenderRun)
    requires i <= |timing|
    ensures |run.packets| <= |timing| - i
    ensures forall k :: 0 <= k < |run.packets| ==> |run.packets[k]| == CommandMsgSize
    decreases |timing| - i
  {
    if i == |timing| then SenderRun([], OutcomesExhausted)
    else if !timing[i] then SenderRun([], TimingTimeout)
    else match policy(i)
      case None => SenderRun([], PolicyError)
      case Some(cmd) =>
        match EncodeCommand(cmd, f32)
        case Err(_) => SenderRun([], EncodeError)
        case Ok(pkt) =>
          var rest := SenderFrom(timing, policy, f32, i + 1);
          SenderRun([pkt] + rest.packets, rest.reason)
  }

  /** One iteration that sends: the run from `i` is that packet followed by
      the run from `i + 1`. */
  lemma SenderFromSends(timing: seq<bool>, policy: nat -> Option<JointCommand>,
                        f32: Float32Encoding, i: nat, pkt: seq<Byte>)
    requires i < |timing| && timing[i] && policy(i).Some?
    requires EncodeCommand(policy(i).value, f32) == Ok(pkt)
    ensures SenderFrom(timing, policy, f32, i).packets == [pkt] + SenderFrom(timing, policy, f32, i + 1).packets
    ensures SenderFrom(timing, policy, f32, i).reason == SenderFrom(timing, policy, f32, i + 1).reason
  {
  }

  /** The iterations that send nothing end the run there. */
  lemma SenderFromStops(timing: seq<bool>, policy: nat -> Option<JointCommand>, f32: Float32Encoding, i: nat)
    requires i <= |timing|
    ensures i == |timing| ==> SenderFrom(timing, policy, f32, i) == SenderRun([], OutcomesExhausted)
    ensures i < |timing| && !timing[i] ==> SenderFrom(timing, policy, f32, i) == SenderRun([], TimingTimeout)
    ensures i < |timing| && timing[i] && policy(i).None? ==>
      SenderFrom(timing, policy, f32, i) == SenderRun([], PolicyError)
    ensures i < |timing| && timing[i] && policy(i).Some? && EncodeCommand(policy(i).value, f32).Err? ==>
      SenderFrom(timing, policy, f32, i) == SenderRun([], EncodeError)
  {
  }

  /** Packet `k` of a run is the encoding of the command fetched in iteration
      `i + k`, whose timing outcome was True. */
  lemma {:induction false} SenderPacketAt(timing: seq<bool>, policy: nat -> Option<JointCommand>,
                                          f32: Float32Encoding, i: nat, k: nat)
    requires i <= |timing| && k < |SenderFrom(timing, policy, f32, i).packets|
    ensures i + k < |timing| && timing[i + k]
    ensures policy(i + k).Some?
    ensures EncodeCommand(policy(i + k).value, f32) == Ok(SenderFrom(timing, policy, f32, i).packets[k])
    decreases k
  {
    assert i < |timing| && timing[i] && policy(i).Some?;
    var pkt := EncodeCommand(policy(i).value, f32);
    assert pkt.Ok?;
    var rest := SenderFrom(timing, policy, f32, i + 1);
    assert SenderFrom(timing, policy, f32, i).packets == [pkt.value] + rest.packets;
    if k > 0 {
      SenderPacketAt(timing, policy, f32, i + 1, k - 1);
    }
  }

  /** A command policy that always returns at least six angles. */
  ghost predicate WellFormedPolicy(policy: nat -> Option<JointCommand>)
  {
    forall k: nat :: policy(k).Some? && |policy(k).value.jointAngles| >= N
  }

  /** The number of True outcomes before the first False. */
  function LeadingTrues(timing: seq<bool>): (n: nat)
    ensures n <= |timing|
    ensures forall k :: 0 <= k < n ==> timing[k]
    ensures n < |timing| ==> !timing[n]
  {
    if timing == [] || !timing[0] then 0 else 1 + LeadingTrues(timing[1..])
  }

  /** With a well-formed command policy, the loop sends exactly one packet
      per True before the first False, and stops on that False if there is
      one. */
  lemma {:induction false} SenderOnePacketPerTrue(timing: seq<bool>, policy: nat -> Option<JointCommand>,
                                                  f32: Float32Encoding, i: nat)
    requires i <= |timing| && WellFormedPolicy(policy)
    ensures |SenderFrom(timing, policy, f32, i).packets| == LeadingTrues(timing[i..])
    ensures SenderFrom(timing, policy, f32, i).reason ==
      if LeadingTrues(timing[i..]) < |timing| - i then TimingTimeout else OutcomesExhausted
    decreases |timing| - i
  {
    if i < |timing| && timing[i] {
      SenderOnePacketPerTrue(timing, policy, f32, i + 1);
      assert timing[i..][1..] == timing[i + 1..];
    }
  }

  class Rocket {
    var startedStreaming: bool
    var commandStreamStopping: bool
    var stateStreamStopping: bool
    /** `_command_thread is not None` / `_state_thread is not None` */
    var hasCommandThread: bool
    var hasStateThread: bool
    /** The datagrams sent to the robot's command port, in order. */
    var sent: seq<seq<Byte>>

    /** A stopping flag is only ever set for a stream that has a thread, and
        `_started_streaming` records that at least one command went out. */
    predicate Valid()
      reads this
    {
      (stateStreamStopping ==> hasStateThread) &&
      (commandStreamStopping ==> hasCommandThread) &&
      (startedStreaming <==> sent != []) &&
      (sent != [] ==> hasCommandThread) &&
      (forall k :: 0 <= k < |sent| ==> |sent[k]| == CommandMsgSize)
    }

    /** `__init__`: all flags false, no threads. */
    constructor ()
      ensures Valid()
      ensures !startedStreaming && !commandStreamStopping && !stateStreamStopping
      ensures !hasCommandThread && !hasStateThread && sent == []
    {
      startedStreaming := false;
      commandStreamStopping := false;
      stateStreamStopping := false;
      hasCommandThread := false;
      hasStateThread := false;
      sent := [];
    }

    /** `start_state_stream`: a listener thread now exists. */
    method StartStateStream()
      requires Valid()
      modifies this`hasStateThread
      ensures Valid() && hasStateThread
    {
      hasStateThread := true;
    }

    /** `start_command_stream`: a command thread now exists and runs the
        send loop (here to completion, before anything else happens). */
    method StartCommandStream(timing: seq<bool>, policy: nat -> Option<JointCommand>, f32: Float32Encoding)
      returns (reason: StopReason)
      requires Valid()
      modifies this`hasCommandThread, this`sent, this`startedStreaming
      ensures Valid() && hasCommandThread
      ensures commandStreamStopping ==> reason == StreamStopping && sent == old(sent)
      ensures !commandStreamStopping ==>
        var run := SenderFrom(timing, policy, f32, 0);
        sent == old(sent) + run.packets && reason == run.reason
    {
      hasCommandThread := true;
      reason := UdpCommandSender(timing, policy, f32);
    }

    /** `_udp_command_sender`: while the stopping flag is clear, ask the
        timing policy; on True fetch, encode and send one command, on False
        return. An exception from the policy or the encoder ends the loop
        (it is caught by `_run_command_stream`). */
    method UdpCommandSender(timing: seq<bool>, policy: nat -> Option<JointCommand>, f32: Float32Encoding)
      returns (reason: StopReason)
      modifies this`sent, this`startedStreaming
      ensures commandStreamStopping ==>
        reason == StreamStopping && sent == old(sent) && startedStreaming == old(startedStreaming)
      ensures !commandStreamStopping ==>
        var run := SenderFrom(timing, policy, f32, 0);
        sent == old(sent) + run.packets && reason == run.reason &&
        startedStreaming == (old(startedStreaming) || run.packets != [])
    {
      reason := StreamStopping;
      var i := 0;
      while !commandStreamStopping
        invariant 0 <= i <= |timing|
        invariant |sent| == |old(sent)| + i
        invariant sent + SenderFrom(timing, policy, f32, i).packets == old(sent) + SenderFrom(timing, policy, f32, 0).packets
        invariant SenderFrom(timing, policy, f32, i).reason == SenderFrom(timing, policy, f32, 0).reason
        invariant startedStreaming == (old(startedStreaming) || i > 0)
        invariant commandStreamStopping ==> i == 0 && sent == old(sent)
        decreases |timing| - i
      {
        SenderFromStops(timing, policy, f32, i);
        if i == |timing| {
          reason := OutcomesExhausted;
          return;
        }
        if timing[i] {
          var cmd := policy(i);
          if cmd.None? {
            reason := PolicyError;
            return;
          }
          var pkt := EncodeCommand(cmd.value, f32);
          if pkt.Err? {
            reason := EncodeError;
            return;
          }
          SenderFromSends(timing, policy, f32, i, pkt.value);
          assert (sent + [pkt.value]) + SenderFrom(timing, policy, f32, i + 1).packets
              == sent + SenderFrom(timing, policy, f32, i).packets;
          sent := sent + [pkt.value];
          startedStreaming := true;
        } else {
          reason := TimingTimeout;
          return;
        }
        i := i + 1;
      }
    }

    /** `stop_state_stream`: without a thread nothing changes; otherwise the
        listener's stopping flag is set. */
    method StopStateStream()
      requires Valid()
      modifies this`stateStreamStopping
      ensures Valid()
      ensures !hasStateThread ==> stateStreamStopping == old(stateStreamStopping)
      ensures hasStateThread ==> stateStreamStopping
    {
      if hasStateThread {
        stateStreamStopping := true;
      }
    }

    /** `stop_command_stream`: without a thread nothing changes; otherwise
        the sender's stopping flag is set. */
    method StopCommandStream()
      requires Valid()
      modifies this`commandStreamStopping
      ensures Valid()
      ensures !hasCommandThread ==> commandStreamStopping == old(commandStreamStopping)
      ensures hasCommandThread ==> commandStreamStopping
    {
      if hasCommandThread {
        commandStreamStopping := true;
      }
    }
  }

  /** Shutting down a Rocket whose streams were never started leaves every
      flag as `__init__` set it. */
  method ShutdownWithoutStart() returns (stateStopping: bool, commandStopping: bool, started: bool)
    ensures !stateStopping && !commandStopping && !started
  {
    var r := new Rocket();
    r.StopCommandStream();
    r.StopStateStream();
    stateStopping, commandStopping, started := r.stateStreamStopping, r.commandStreamStopping, r.startedStreaming;
  }

  /** Stopping flags are never cleared: a command stream started again after
      `stop_command_stream` leaves its loop at once and sends nothing. */
  method RestartAfterStop(first: seq<bool>, again: seq<bool>, policy: nat -> Option<JointCommand>,
                          f32: Float32Encoding)
    returns (firstPackets: seq<seq<Byte>>, againPackets: seq<seq<Byte>>, reason: StopReason)
    ensures firstPackets == SenderFrom(first, policy, f32, 0).packets
    ensures againPackets == [] && reason == StreamStopping
  {
    var r := new Rocket();
    var _ := r.StartCommandStream(first, policy, f32);
    firstPackets := r.sent;
    r.StopCommandStream();
    reason := r.StartCommandStream(again, policy, f32);
    againPackets := r.sent[|firstPackets|..];
  }
}
