# rocket-rl: verified model of the robot link core

This project models, in Dafny, the deterministic logic under the threads,
sockets and ONNX call of the rocket-rl robot controller:

- **Wire codec** (`Wire`, `Rocket`): the 60-byte state packet (`"<6f9f"`,
  fifteen little-endian float32 values split into 6 joints and 9 IMU values)
  and the 24-byte command packet (`"<6f"`, the first six joint angles). A
  float32 is an opaque 32-bit word (`bv32`) packed least significant byte
  first; the encoding of a Python float as such a word is a parameter `f32`.
- **Command-send loop and stream flags** (`Rocket.Rocket`): the
  `_udp_command_sender` loop, run sequentially over a given sequence of
  timing-policy outcomes with a command policy given as a function of the
  call number (`None` when it raises); sent datagrams are appended to
  `sent`. `start_*`/`stop_*` and `__init__` are modelled as updates of the
  thread and stopping flags, with the rule that a stop without a thread
  changes nothing.
- **Robot state** (`State.RocketState`): `update_from_udp` with the clock as
  a parameter `now: real` and numpy arrays as `seq<real>`, including
  numpy's broadcasting rule for the angle difference and the partial update
  left behind when that subtraction raises.
- **Observation builder and action feedback** (`OnnxController`):
  `build_observation` (joints, gyro, accel, mag, last action) and the
  bookkeeping of `__call__`, with the inference session as a parameter
  `infer` from observation to output row.

Behaviours of the code that the model keeps, each shown by a member:

- Encoding fails only with fewer than six angles (an `IndexError` at
  python/rocket/rocket.py:111-114); angles after the sixth are ignored
  (`Rocket.EncodeCommandIgnoresExtra`).
- The observation is built from the telemetry dictionary and holds no joint
  velocity (python/rocket_onnx/onnx_command_generator.py:41-55).
- Starting a stream again creates a new thread in place of the old one
  (python/rocket/rocket.py:40-43, 71-74), and nothing clears the stopping
  flags (python/rocket/rocket.py:61, 120), so a command stream started
  after `stop_command_stream` leaves its loop at once
  (`Rocket.RestartAfterStop`).
- A state datagram of the wrong length makes `struct.unpack` raise
  (python/rocket/rocket.py:56); inside the listener thread nothing catches
  it (python/rocket/rocket.py:47-50), so the thread ends. The decoder's
  failure is modelled (`Rocket.DecodeStatePacket`); the listener loop is
  not.

## Model

| member | source | states |
|---|---|---|
| `Common.Slice` | python/rocket/rocket_state.py:39-41 | Python slicing clamps to the sequence: the length is `min(hi,len) - min(lo,len)`, element `i` is `s[lo+i]`, and a slice within bounds is the exact subsequence |
| `Common.Zeros` | python/rocket/rocket_state.py:8-15 | `np.zeros(n)` has length `n` and every element `0.0` |
| `Wire.PackWord` | python/rocket/rocket.py:111-115 | one `<f` field is four bytes from which the word is recovered exactly |
| `Wire.UnpackWord` | python/rocket/rocket.py:55-56 | one `<f` field read back: the word is byte 0 plus 0x100 times byte 1 plus 0x10000 times byte 2 plus 0x1000000 times byte 3 (least significant first) |
| `Wire.PackWords` | python/rocket/rocket.py:111-115 | packing `n` words gives `4n` bytes |
| `Wire.UnpackWords` | python/rocket/rocket.py:55-56 | unpacking a buffer of `4n` bytes gives `n` words |
| `Wire.PackWordsAt` | python/rocket/rocket.py:111-115 | word `i` of a packed sequence occupies bytes `4i..4i+3`, little-endian |
| `Wire.UnpackWordsAt` | python/rocket/rocket.py:55-56 | unpacked word `i` is read from bytes `4i..4i+3` |
| `Wire.PackWordsAppend` | python/rocket/rocket.py:55 | packing a concatenation is the concatenation of the packings (fields follow each other without padding) |
| `Wire.UnpackPackWords` | python/rocket/rocket.py:111-115 | unpacking packed words gives the same words back |
| `Wire.PackUnpackWords` | python/rocket/rocket.py:55-56 | packing the unpacked words of a buffer gives the same bytes back |
| `Rocket.DecodeStatePacket` | python/rocket/rocket.py:52-57 | decoding succeeds exactly on 60 bytes, otherwise fails whole with the size error; on success joints has 6 words, imu 9, and packing the joints followed by packing the imu words gives back the input (the `"<6f9f"` shape) |
| `Rocket.DecodeStatePacketAt` | python/rocket/rocket.py:55-57 | joint `i` is word `i` of the packet, IMU value `j` is word `6+j` |
| `Rocket.DecodePackedState` | python/rocket/rocket.py:55-57 | packing any 15 words and decoding gives them back split as the first 6 and the last 9 |
| `Rocket.CommandWords` | python/rocket/rocket.py:111-114 | the command's words are `f32(joint_angles[i])` for `i` in 0..5 |
| `Rocket.EncodeCommand` | python/rocket/rocket.py:108-115 | encoding succeeds exactly when there are at least six angles (the index error otherwise) and then yields 24 bytes |
| `Rocket.EncodeCommandRoundTrip` | python/rocket/rocket.py:111-115 | unpacking an encoded command gives back the six words of the first six angles |
| `Rocket.EncodeCommandLayout` | python/rocket/rocket.py:111-115 | bytes `4i..4i+3` of the packet are the little-endian word of `joint_angles[i]` |
| `Rocket.EncodeCommandIgnoresExtra` | python/rocket/rocket.py:111-114 | angles after the sixth do not change the packet |
| `Rocket.SenderFrom` | python/rocket/rocket.py:98-106 | a run of the send loop sends at most one packet per remaining timing outcome, each 24 bytes |
| `Rocket.SenderPacketAt` | python/rocket/rocket.py:99-102 | packet `k` was sent in an iteration whose timing outcome was True, and is the encoding of the command fetched there |
| `Rocket.SenderOnePacketPerTrue` | python/rocket/rocket.py:98-106 | with a policy that always yields six angles, the loop sends exactly one packet per True before the first False and stops on that False (timing timeout) |
| `Rocket.Rocket.constructor` | python/rocket/rocket.py:9-15 | all three flags start False, no thread exists, nothing has been sent |
| `Rocket.Rocket.StartStateStream` | python/rocket/rocket.py:34-43 | afterwards a state thread exists; the flag invariant is kept |
| `Rocket.Rocket.StartCommandStream` | python/rocket/rocket.py:64-91 | afterwards a command thread exists and the send loop has run: with the stopping flag set nothing is sent, otherwise exactly the run's packets are appended |
| `Rocket.Rocket.UdpCommandSender` | python/rocket/rocket.py:93-106 | the packets appended and the stop reason are those of the run; `_started_streaming` becomes true exactly when a packet went out |
| `Rocket.Rocket.StopStateStream` | python/rocket/rocket.py:59-62 | without a state thread nothing changes; with one the stopping flag is set |
| `Rocket.Rocket.StopCommandStream` | python/rocket/rocket.py:117-121 | without a command thread nothing changes; with one the stopping flag is set |
| `Rocket.ShutdownWithoutStart` | python/rocket/rocket.py:59-62 | stopping both streams of a Rocket that never started them leaves every flag False |
| `Rocket.RestartAfterStop` | python/rocket/rocket.py:117-121 | after `stop_command_stream` a restarted command stream sends nothing and ends because of the stopping flag |
| `State.VelocityDue` | python/rocket/rocket_state.py:20-32 | the velocity step runs exactly when a previous timestamp exists and `now` is more than 1e-6 past it (so `dt` is positive) |
| `State.Subtract` | python/rocket/rocket_state.py:33 | numpy subtraction succeeds exactly for equal lengths or a length-1 operand, elementwise (stretching the length-1 side) |
| `State.FiniteDifference` | python/rocket/rocket_state.py:33 | for equal lengths the velocity is `(new[i] - last[i]) / dt` for every joint; it fails exactly when the subtraction does |
| `State.RocketState.constructor` | python/rocket/rocket_state.py:5-15 | no timestamp; accel, gyro, mag three zeros; angle, velocity and last angle six zeros |
| `State.RocketState.UpdateFromUdp` | python/rocket/rocket_state.py:17-41 | timestamp becomes `now` and the angles the packet's joints; the velocity changes only with a previous timestamp and `dt > 1e-6`, and then to the finite difference; on success the last angle is the joints and accel, gyro, mag are `imu[0:3]`, `imu[3:6]`, `imu[6:9]`; on a broadcast failure nothing else changes |
| `State.FirstUpdate` | python/rocket/rocket_state.py:20-21 | the first update of a fresh state succeeds and leaves the velocity all zero |
| `State.TwoSampleVelocity` | python/rocket/rocket_state.py:23-33 | two samples of equal length more than 1e-6 apart give velocity `(a1[i] - a0[i]) / (t1 - t0)` |
| `State.StaleSampleKeepsVelocity` | python/rocket/rocket_state.py:32 | an update with `dt <= 1e-6` (zero, tiny or negative) keeps the velocity |
| `OnnxController.ScaleAction` | python/rocket_onnx/onnx_command_generator.py:32 | the target keeps at most the first six outputs, each times the action scale |
| `OnnxController.PositionController.constructor` | python/rocket_onnx/onnx_command_generator.py:19-20 | the last action starts as six zeros |
| `OnnxController.PositionController.BuildObservation` | python/rocket_onnx/onnx_command_generator.py:41-57 | the observation always ends with the last action; for a full packet it has `15 + len(last_action)` entries (21 with six actions): joints `0..5`, then `imu[3:6]` (gyro), `imu[0:3]` (accel), `imu[6:9]` (mag), then the last action, so joints past the sixth never appear |
| `OnnxController.PositionController.Call` | python/rocket_onnx/onnx_command_generator.py:22-39 | without a state the call fails and the last action is unchanged; otherwise the last action becomes the scaled first outputs of the policy on the observation and is returned as the command |
| `OnnxController.CallWithoutState` | python/rocket_onnx/onnx_command_generator.py:23-24 | a call with no state fails and the last action stays six zeros |
| `OnnxController.ActionFeedback` | python/rocket_onnx/onnx_command_generator.py:32-54 | the first observation ends with six zeros, the command is the scaled output on it, and the next observation ends with exactly that command |

## Left out

- The command socket (`socket.socket` at python/rocket/rocket.py:95) and failures of `sendto` (python/rocket/rocket.py:102): a send is an append to `sent` that always succeeds, so an `OSError` from the socket, which `_run_command_stream` would catch (python/rocket/rocket.py:85-91) and which would end the stream, has no stop reason in the model.
- The state listener loop `_udp_state_listener`, the receive socket, its bind in `__init__`, and the observer callback: socket I/O and a foreign callback.
- Thread creation, `Thread.join`, daemon threads and `__del__`: only the flag updates are modelled, and the send loop runs to completion when the command stream starts, so a stop arriving during a run is not modelled.
- The rate divider used as timing policy (`utils.event_divider.EventDivider`): its source is not part of this model, so timing outcomes are an arbitrary sequence of booleans.
- `Rocket.UdpCommandSender`: the command policy is a function of the call number, so its dependence on earlier calls (the controller's last action) is not captured in the send loop; the controller models that separately.
- `Rocket.EncodeCommand`: does not model the `OverflowError` `struct.pack` raises for a finite value outside float32 range, because the float-to-word encoding is an opaque total parameter.
- IEEE 754 value semantics: rounding to float32, NaN payloads, the widening of decoded words to Python floats (decoded packets are `StateDict<Word>`, while the state and the controller take `StateDict<real>`) and double-precision division in the velocity (exact real division here).
- `onnxruntime.InferenceSession`, the float32 cast of the model input and the indexing of its outputs: the session is the parameter `infer`.
- `time.time()` (the parameter `now`), logging, the verbose `print`, and `power_on`, which is empty.
- The context object holding `latest_state` and the state handler that fills it are not part of this model; the latest state is a parameter of `Call`.
- `python/rocket_rl.py`: argument parsing, prompts and start/stop orchestration.
