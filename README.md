# PeerTalk temperature sender — Dafny model

This project models the Raspberry Pi sender that streams engine temperatures to an
iPad over PeerTalk (`raspberry-pi/peertalk_temp_sender.py`). The model has five parts:

- **PeerTalk framing** (`peertalk_frame.dfy`, module `PeerTalkFrame`). The 16-byte
  header holds four unsigned 32-bit big-endian fields: version 1, frame type, tag 0
  and payload size. The payload follows it. `send_peertalk_frame` is modelled as the
  frame it hands to `sendall` together with its boolean result. A decoder is the
  partner the round-trip lemmas are stated against.
- **Probe reads** (`probe_reader.dfy`, module `ProbeReader`). A probe index maps to
  a board channel (1-4, 7-8). A reading is converted from Celsius to Fahrenheit. A
  bad index or a raising driver gives the 0.0 sentinel. A family without a board
  gets a simulated value in its fixed range.
- **The SMtc reader** (`sensor_bank.dfy`, module `SensorBank`). The class
  `SmtcReader` holds the two boards (EGT at stack level 0, CHT at stack level 1).
  Its constructor configures channels 1-8 as K-type thermocouples, recording the
  driver calls it makes. The two probe reads are bound to the boards that came up.
- **The sampler** (`sampler.dfy`, module `Sampler`). `read_temperature_data` reads
  six CHT probes and then six EGT probes in order. It adds the time and the unit "F".
- **The supervisor** (`supervisor.dfy`, module `Supervisor`). `main`'s two nested
  loops are modelled as a class whose methods consume two streams of outcomes:
  what each connection attempt meets and what each streaming cycle meets. They log
  the observable actions:
  - connect attempts and the 5 s waits;
  - frame attempts with their numbers;
  - closes, carrying the frame count;
  - the exit.

  The pure function `Trace` defines the same behaviour as a state machine
  (Disconnected, Streaming(n), Exited). `Run` is proved to produce exactly
  `Trace`'s actions. The lemmas state what every trace looks like.

In three places the code does something a reader might not expect, and the model follows the code:

- A Ctrl-C during the one-second sleep between frames is caught by the inner
  handler (lines 232-234). That handler breaks out of the streaming loop, so the
  socket is closed and the supervisor reconnects and keeps sending. Only a Ctrl-C
  that reaches the outer handler (lines 242-244) exits the process.
  `InterruptInSleepReconnects` and `ShutdownOnlyOnOuterInterrupt` state this.
- The sweep's timestamp is `time.time()` evaluated after the twelve probe reads
  (line 133), not at the start of the sweep. The model takes it as the parameter `now`.
- A payload too long for its 32-bit size field makes `struct.pack` raise. The
  sender catches that and returns False without calling `sock.sendall`. The model gives
  `handedToSendall == None` and `ok == false`.

## Model

| member | source | states |
|---|---|---|
| PeerTalkFrame.PackUInt32 | raspberry-pi/peertalk_temp_sender.py:156-160 | a field packs iff it is in [0, 2^32); the packed form is 4 bytes whose big-endian value is the field |
| PeerTalkFrame.FromToBigEndian | raspberry-pi/peertalk_temp_sender.py:154-160 | reading back the big-endian bytes of any value below 256^width gives that value |
| PeerTalkFrame.ToFromBigEndian | raspberry-pi/peertalk_temp_sender.py:154-160 | every byte string is the big-endian encoding of the number it denotes |
| PeerTalkFrame.BigEndian32Digits | raspberry-pi/peertalk_temp_sender.py:154-160 | a 32-bit field goes on the wire most significant byte first, byte k being (x / 256^(3-k)) mod 256 |
| PeerTalkFrame.PackHeader | raspberry-pi/peertalk_temp_sender.py:156-160 | the header packs iff all four fields fit 32 bits, and is then exactly 16 bytes |
| PeerTalkFrame.UnpackHeader | raspberry-pi/peertalk_temp_sender.py:146-154 | any 16 or more bytes read as a header whose fields all fit 32 bits; fewer bytes read as nothing |
| PeerTalkFrame.UnpackPackHeader | raspberry-pi/peertalk_temp_sender.py:156-160 | unpacking a packed header gives back all four fields |
| PeerTalkFrame.PackUnpackHeader | raspberry-pi/peertalk_temp_sender.py:156-160 | packing the fields read from 16 bytes gives back those 16 bytes |
| PeerTalkFrame.EncodeFrame | raspberry-pi/peertalk_temp_sender.py:156-163 | a frame is produced iff the type and the payload length fit 32 bits; it is 16 + length bytes and ends with the payload unchanged |
| PeerTalkFrame.DecodeFrame | raspberry-pi/peertalk_temp_sender.py:146-163 | a decoded frame's size field equals the bytes after the header, and the input is exactly the packed header followed by the payload |
| PeerTalkFrame.DecodeEncodeFrame | raspberry-pi/peertalk_temp_sender.py:156-163 | every frame the sender builds decodes to header (1, type, 0, payload length) and the same payload |
| PeerTalkFrame.EncodeDecodeFrame | raspberry-pi/peertalk_temp_sender.py:156-163 | every decodable frame with version 1 and tag 0 is exactly what the sender builds for its type and payload |
| PeerTalkFrame.EncodeFrameInjective | raspberry-pi/peertalk_temp_sender.py:156-163 | different (type, payload) pairs never give the same bytes |
| PeerTalkFrame.EncodeFrameBytes | raspberry-pi/peertalk_temp_sender.py:147-160 | the header bytes are 00 00 00 01, the type big-endian, 00 00 00 00, then the payload length big-endian |
| PeerTalkFrame.SendPeerTalkFrame | raspberry-pi/peertalk_temp_sender.py:137-167 | bytes are handed to `sock.sendall` iff the header fields fit; the result is True iff they were handed over and sendall completed; what is handed over decodes to (version 1, the type, tag 0, the length) and the payload |
| ProbeReader.ChannelMap | raspberry-pi/peertalk_temp_sender.py:34-36 | six entries per family, all board channels 1-8, strictly increasing |
| ProbeReader.ReadProbe | raspberry-pi/peertalk_temp_sender.py:74-110 | a board channel is read iff there is a board and the index is 0-5, and it is then ChannelMap[index] in {1,2,3,4,7,8}; a bad index or a raising driver gives 0.0; a reading c gives F with (F - 32) * 5 = c * 9; with no board CHT is in [300, 400] and EGT in [1200, 1500] |
| ProbeReader.ProbesReadDistinctChannels | raspberry-pi/peertalk_temp_sender.py:35-36 | with a board present, two different probes of a family read two different channels |
| SensorBank.ConfigureCallsMade | raspberry-pi/peertalk_temp_sender.py:57-66 | the configure loop calls set_sensor_type(channel, 3) on every channel 1-8 of a present EGT board, and on a present CHT board's channel exactly when the EGT call on that channel did not raise |
| SensorBank.ConfigureCallsOrdered | raspberry-pi/peertalk_temp_sender.py:59-64 | the configuration calls go in ascending channel order, the EGT board first within a channel |
| SensorBank.EgtFailureDoesNotStopLaterChannels | raspberry-pi/peertalk_temp_sender.py:59-66 | a raising EGT call skips that channel's CHT call but not the EGT calls on later channels |
| SensorBank.SmtcReader.constructor | raspberry-pi/peertalk_temp_sender.py:26-72 | without the driver both boards are absent; otherwise each board is what constructing it at its stack level gave; hardware is available iff a board is present; the calls made are ConfigureCalls of the boards |
| SensorBank.SmtcReader.ReadChtProbe | raspberry-pi/peertalk_temp_sender.py:74-91 | with no CHT board the value is in [300, 400]; with one, a bad probe index gives 0.0 |
| SensorBank.SmtcReader.ReadEgtProbe | raspberry-pi/peertalk_temp_sender.py:93-110 | with no EGT board the value is in [1200, 1500]; with one, a bad probe index gives 0.0 |
| Sampler.ReadTemperatureData | raspberry-pi/peertalk_temp_sender.py:115-135 | six CHT and six EGT values, entry i being probe i's read; simulated ranges hold for a family without a board; the timestamp is the clock value given and the unit is "F" |
| Supervisor.SentIsSenderResult | raspberry-pi/peertalk_temp_sender.py:221 | a cycle counts as sent exactly when send_peertalk_frame returns True for its temperature frame |
| Supervisor.TraceWellFormed | raspberry-pi/peertalk_temp_sender.py:199-247 | every trace of main starts with a connect attempt, a fault pause or the exit, and each action may follow the one before it |
| Supervisor.FrameNumbering | raspberry-pi/peertalk_temp_sender.py:212-228 | frame attempt number n is the n-th since the last accepted connect, and the n-1 attempts before it on that connection were all delivered |
| Supervisor.AttemptsCountFromConnect | raspberry-pi/peertalk_temp_sender.py:212-221 | counting forward from an accepted connect, the k-th consecutive frame attempt carries number k |
| Supervisor.OneClosePerConnection | raspberry-pi/peertalk_temp_sender.py:212-240 | after an accepted connect come attempts numbered 1, 2, ..., all delivered but the last; then exactly one close, carrying the number of attempts; then the supervisor is back to connecting |
| Supervisor.ShutdownOnlyOnOuterInterrupt | raspberry-pi/peertalk_temp_sender.py:242-244 | the process exits only if some connect-phase outcome was an interrupt reaching the outer handler |
| Supervisor.InterruptInSleepReconnects | raspberry-pi/peertalk_temp_sender.py:230-239 | a Ctrl-C in the sleep after a delivered frame closes the socket with that frame's number and returns to connecting; it never causes the exit unless a later connect-phase interrupt does |
| Supervisor.Retries | raspberry-pi/peertalk_temp_sender.py:204-207 | n refused connects give 2n actions alternating a failed connect attempt and the 5 s wait |
| Supervisor.RefusedConnects | raspberry-pi/peertalk_temp_sender.py:202-207 | refused connects only retry: they lead to Retries(n) and leave the supervisor disconnected |
| Supervisor.ConnectSucceedsAfterRetries | raspberry-pi/peertalk_temp_sender.py:202-212 | a connect that succeeds on attempt n + 1 starts streaming, with the frame counter at 0, after exactly n failed attempts and waits |
| Supervisor.DeliveringCycles | raspberry-pi/peertalk_temp_sender.py:213-230 | m delivering cycles send frames numbered n+1 to n+m, all delivered, and keep the connection open |
| Supervisor.FailedSendCloses | raspberry-pi/peertalk_temp_sender.py:219-239 | a failed send makes one undelivered attempt, closes the socket with the counter at that attempt's number, and goes back to connecting |
| Supervisor.SendFailureEndsConnection | raspberry-pi/peertalk_temp_sender.py:212-239 | after d delivered frames, a failed send is attempt d + 1; the socket is closed once, with the counter at d + 1, and the supervisor reconnects |
| Supervisor.StreamSupervisor.Run | raspberry-pi/peertalk_temp_sender.py:199-247 | the actions of the outer loop are exactly Trace from Disconnected; the process has exited iff Trace contains the exit; the socket is left open iff the last action is an accepted connect or a delivered frame |
| Supervisor.StreamSupervisor.Attempt | raspberry-pi/peertalk_temp_sender.py:200-247 | one pass of the outer loop does the first Trace step for its connect outcome; it stops only on exit (which it records) or when the cycle outcomes run out, and then the socket is open iff its last action is an accepted connect or a delivered frame; otherwise the socket is closed again |
| Supervisor.StreamSupervisor.Stream | raspberry-pi/peertalk_temp_sender.py:213-237 | the streaming loop does exactly Trace from Streaming(counter); on a break the caller's close and the reconnect follow it; when the outcomes run out its last action, if any, is the delivered frame with the current counter |
| Supervisor.StreamSupervisor.StreamCycle | raspberry-pi/peertalk_temp_sender.py:214-237 | one cycle moves the counter iff sampling did not raise; it makes at most one frame attempt, delivered iff send_peertalk_frame returns True; it keeps streaming iff that frame was delivered and no Ctrl-C came in the sleep |

## Left out

- Socket I/O is not modelled. `connect_to_ipad` (lines 169-188) catches the exceptions of the connect and returns None for them, which is the outcome `Refused`, or returns the socket, which is `Accepted`. A print that raises inside one of its handlers (lines 181, 184 and 187) escapes it and is caught at lines 245-247: that is `Faulted`, a fault pause with no connect attempt before it. `Interrupted` is a Ctrl-C reaching lines 242-244. `sock.sendall` becomes a boolean saying whether it completed.
- `json.dumps(...).encode('utf-8')` is not modelled, because the payload encoding is a contract with the receiving app. The frame carries the serialised payload as opaque bytes.
- The `sm_tc` driver is not modelled. Whether `import sm_tc` succeeds is the constructor's `smtcAvailable`. `sm_tc.SMtc(level)` is a function from stack level to an optional board. A board is a pair of functions: whether `set_sensor_type` completes, and what `get_temp` gives. A board's readings therefore do not change over time or after configuration.
- `random.uniform` is a parameter (`uniform`, or one draw per probe), assumed within [0, span]. `time.time()` is the parameter `now`. `time.sleep(5)` (lines 206 and 247) is an action in the trace (`RetryWait`, `FaultPause`), not a delay. The one-second sleep at line 230 has no action of its own: it comes after every delivered frame, and a Ctrl-C during it is the cycle's `interruptedInSleep`.
- Floating point is not modelled. Temperatures are Dafny reals, so Fahrenheit conversion is exact and the averages printed after each frame (lines 222-225) are left out, along with every other `print`.
- Supervisor.StreamSupervisor.Run: the run is observed only until one of the two outcome streams runs out. The endless loop is the limit of longer streams.
- Exceptions from `sock.close()` and interrupts arriving during it are not modelled: the model treats the close as always completing. So are interrupts during the 5 s pause in the outer `except Exception` handler, which would end the process with a traceback.
- A Ctrl-C arriving during `send_peertalk_frame` (not caught there, since KeyboardInterrupt is not an Exception) has the same observable effect as a failed send, an undelivered attempt followed by a close, and is modelled as one. A Ctrl-C during the 5 s retry wait is modelled as the next connect outcome being an interrupt.
- A Ctrl-C that arrives while `connect_to_ipad` is still running (line 202) is modelled as `Interrupted` alone: the trace shows `Shutdown` without the interrupted connect attempt before it.
- A raise of the print at line 205 comes after `connect_to_ipad` returned None, and is modelled as `Faulted` alone: the trace shows the fault pause without the refused connect attempt before it.
- A raise of the print at line 209 (after an accepted connect, outside the inner `try`) or of the prints in the inner handlers at lines 233 and 236 is not modelled. Lines 245-247 would handle it, `sock.close()` at line 239 would be skipped and the socket left open. The model has no trace in which a fault pause follows an accepted connect without a close between them.
- A raise of the print at line 240 comes after the close at line 239, so it is modelled as an `Accepted` connect whose streaming ends with the close, followed by `Faulted` as the next connect outcome.
- `if temp_data:` (line 218) is always true for the dictionary `read_temperature_data` returns, so the model has no branch for it.
