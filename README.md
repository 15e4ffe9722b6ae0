# aTALIN bridge and gun-position receiver — a Dafny model

This project models the protocol core of the bridge between the fire-control
software and an aTALIN/eTALIN inertial navigation unit (`Atalin.cs`), and the
standalone gun-position console receiver (`GunPositionReceiverReadLast5Seconds.cs`).

Modules:

- `Bytes` — `BitConverter` and `IPAddress.HostToNetworkOrder` on a
  little-endian host; `Buffer.BlockCopy` and `Array.Reverse` as methods on arrays.
- `Crc` — the table-driven CRC-32 `PDI_CRC` and its 256-entry table. This is the CRC-32 of
  ITU-T V.42 section 8.1.1.6.2, with the reflected polynomial 0xEDB88320 and
  an all-ones initial value and final XOR. It is proved equal to the bitwise definition.
- `Pdi` — the 56-byte PDI parameter-request frame that `GetPar` builds, and the fields
  `Listen` takes out of a response: the message ID and the pitch and yaw doubles.
- `GunDatagram` — the 20-byte gun-position datagram. It covers the in-place reversal of its four
  4-byte fields and the reading of the fields, with the round trip to an encoder.
- `Bridge` — the bridge's control state as pure transition functions. This covers:
  - the sample gate and `IsInMove`;
  - the pending-update flag and the 16-byte update datagram;
  - the reconnect and re-request timing of the timer tick;
  - `GetPar`'s sequence number;
  - one `Listen` read;
  - `Start` and `Stop`.

  It ends with lemmas over whole runs of operations.
- `AtalinBridge` — the `Atalin` class, with its fields as mutable state. Each method
  is proved to leave the state the matching `Bridge` function gives. The shared
  `Core.Instance` is an explicit `Core` object holding the two move statuses and
  the platform position.
- `GunPositionReceiver` — one pass of the receiver's loop, on the array a receive
  returns. It covers the in-place reversal, the fields, the 5000 ms window with
  `uint` wrap-around, and the `lastTimestamp` update. A finite run of that loop is
  specified as a fold.

Representation choices:

- Bytes are `bv8`.
- `seqNum` is a C# `int`: an `int32` newtype whose increment wraps from
  2^31-1 to -2^31. It goes on the wire as its two's-complement bits.
- The receiver's `UInt32` values are an integer newtype, and `lastTimestamp + 5000` is written
  out modulo 2^32.
- The angles the bridge stores are never computed on, only compared or copied.
  They are an `Angle` value holding the raw bits: the single from the UDP
  datagram, or the double from the TCP response.
- Socket outcomes are parameters:
  - whether the UDP sender object exists;
  - whether `Connect` succeeds;
  - how a stream write ends;
  - the sequence of stream reads.
- The clock is an integer number of milliseconds passed in as `now`.

## Model

| member | source | states |
|---|---|---|
| Bytes.NetworkOrderBytes32 | Atalin.cs:194-207 | the bytes of `GetBytes(HostToNetworkOrder(w))` are the big-endian bytes of `w` |
| Bytes.NetworkOrderBytes64 | Atalin.cs:214 | a `uint` widened to `long` in network order is four zero bytes followed by the big-endian word, so bytes 4..7 are the EOM marker |
| Bytes.GetNetworkBytes32 | Atalin.cs:194-196 | the method returns the big-endian bytes of its word |
| Bytes.GetNetworkBytes64 | Atalin.cs:214 | the method returns four zero bytes and then the big-endian bytes of the widened word |
| Bytes.BlockCopy | Atalin.cs:211 | the destination becomes its old prefix, the copied source slice and its old suffix |
| Bytes.ReverseRange | Atalin.cs:333-336 | `Array.Reverse(a, index, length)` succeeds iff the range lies in the array; it then reverses exactly that range, and otherwise it leaves the array unchanged |
| Bytes.ReverseArray | Atalin.cs:269-270 | the array becomes the reverse of its old contents |
| Bytes.ToUInt32OfReverse | Atalin.cs:333-343 | reading little-endian after reversing 4 bytes yields their big-endian value |
| Bytes.ToUInt64OfReverse | Atalin.cs:269-274 | reading little-endian after reversing 8 bytes yields their big-endian value |
| Crc.KnownShifts | Atalin.cs:404-448 | eight reflected shift rounds with 0xEDB88320 give 0 for 0, 0x77073096 for 1, 0xEDB88320 for 128 and 0x2D02EF8D for 255 |
| Crc.TableEntry | Atalin.cs:404-448 | the table has 256 entries, and entry i is eight reflected shift rounds applied to i |
| Crc.TableFeedIsBitFeed | Atalin.cs:450-462 | the table lookup update equals eight bitwise CRC steps, over any data and from any start value |
| Crc.PdiCrc | Atalin.cs:450-462 | the loop returns the bitwise CRC-32 of the whole buffer, with all-ones initial value and final XOR |
| Crc.Crc32OfEmpty | Atalin.cs:450-462 | the CRC of an empty buffer is 0 |
| Crc.Crc32Check | Atalin.cs:450-462 | the CRC of the ASCII digits "123456789" is the standard check value 0xCBF43926 |
| Pdi.ParRequestLayout | Atalin.cs:192-214 | the frame is 56 bytes: SOM 70 71 78 83, BE(8050), BE(seqNum), BE(3) at 32, BE(9200) at 40, BE(2) for 150 Hz at 44, and EOM 83 78 71 70 at 52 |
| Pdi.ParRequestZeros | Atalin.cs:197-205 | bytes 12..31 and 36..39 are zero |
| Pdi.ParRequestCrc | Atalin.cs:210-213 | bytes 48..51 are the big-endian CRC-32 of bytes 4..47, so recomputing it reproduces the embedded value |
| Pdi.ParseParRequestOfParRequest | Atalin.cs:192-214 | checking the markers, constant words and CRC of a built frame accepts it and gives back its sequence number |
| Pdi.ParseParRequestOnlyParRequest | Atalin.cs:192-214 | any byte string the frame check accepts with sequence number n is exactly the frame built for n |
| Pdi.DecodeWordsOfWords | Atalin.cs:192-214 | laying words out big-endian and reading them back gives the words |
| Pdi.BuildParRequest | Atalin.cs:192-214 | the fresh 56-byte array filled by the fourteen block copies holds the frame |
| Pdi.MessageId | Atalin.cs:256 | the message ID is the big-endian word at bytes 4..7 |
| Pdi.ReadAttitude | Atalin.cs:261-270 | the pitch buffer holds bytes 144..151 reversed and the yaw buffer holds bytes 152..159 reversed |
| Pdi.PitchBits | Atalin.cs:261-273 | the pitch double's bits are the big-endian value of bytes 144..151 |
| Pdi.YawBits | Atalin.cs:262-274 | the yaw double's bits are the big-endian value of bytes 152..159 |
| Pdi.ResponseFieldsRoundTrip | Atalin.cs:256-274 | a buffer with an ID, a pitch and a yaw written big-endian at 4, 144 and 152 reads back as those values |
| GunDatagram.ReverseFields | Atalin.cs:333-336 | the four in-place reversals succeed iff the buffer has at least 20 bytes, and the buffer becomes the field-reversed old buffer |
| GunDatagram.FieldsReversedForm | GunPositionReceiverReadLast5Seconds.cs:35-38 | on 20 or more bytes, bytes 0..3 and 20.. are unchanged and each of 4..7, 8..11, 12..15 and 16..19 is reversed |
| GunDatagram.FieldsReversedTwice | GunPositionReceiverReadLast5Seconds.cs:35-38 | reversing the fields twice restores any buffer |
| GunDatagram.DecodeReadsWire | Atalin.cs:341-346 | sequence number and validity are the little-endian values of bytes 0..1 and 2..3; timestamp, azimuth, pitch and roll are the big-endian words of the original bytes 4..7, 8..11, 12..15 and 16..19 |
| GunDatagram.DecodeFirstTwenty | GunPositionReceiverReadLast5Seconds.cs:42-47 | a longer buffer decodes as its first 20 bytes |
| GunDatagram.DecodeEncode | Atalin.cs:333-346 | decoding the encoding of any sample gives the sample |
| GunDatagram.EncodeDecode | Atalin.cs:333-346 | every 20-byte datagram is the encoding of its decoding |
| Bridge.Increment | Atalin.cs:227 | `seqNum++` on an `int` is n+1 modulo 2^32 |
| Bridge.Initial | Atalin.cs:61-68 | a new bridge has a fresh unconnected TCP client and a stopped timer |
| Bridge.IsInMove | Atalin.cs:382-397 | true iff either axis is moving to target, moving to stow, moving by joystick or stopping |
| Bridge.NotInMove | Atalin.cs:382-397 | false iff both axes have some other status |
| Bridge.Gate | Atalin.cs:348-365 | `_receivedFromTalin` becomes the in-move flag; the platform takes the sample iff in move; nothing else changes |
| Bridge.ReceiveDatagramEffect | Atalin.cs:332-377 | a datagram of any length but 20 changes nothing; a 20-byte one gates pitch (bytes 12..15) and azimuth (bytes 8..11) |
| Bridge.TriggerUpdateEffect | Atalin.cs:92-98 | the flag is set when data was not received from the unit, kept otherwise, and nothing else changes |
| Bridge.UpdateDatagramLayout | Atalin.cs:128-133 | the update datagram is 16 bytes whose big-endian words are azimuth, elevation, 1000, 1000 |
| Bridge.UpdateDatagramConstantWords | Atalin.cs:132-133 | words 2 and 3 are both 00 00 03 E8 |
| Bridge.SendUpdateFlag | Atalin.cs:102-144 | a tick always leaves the flag clear and sends the update datagram iff the flag was set and the sender exists |
| Bridge.SendUpdateConnects | Atalin.cs:152-168 | a tick calls Connect iff there is a socket, it is not connected, more than 3000 ms passed since `retry`, and stop is clear |
| Bridge.SendUpdateRetry | Atalin.cs:155-185 | `retry` becomes `now` iff there is a socket and more than 3000 ms passed, whether connected or not |
| Bridge.SendUpdateWithoutSocket | Atalin.cs:152-153 | with no socket handle a tick only clears the flag |
| Bridge.SendUpdateKeeps | Atalin.cs:100-186 | a tick keeps seqNum, the gate state, the stop flag and the UDP client, and keeps a connected client backed by a socket |
| Bridge.GetParSeqNum | Atalin.cs:188-229 | while connected, seqNum rises by one (wrapping) when the write succeeds or throws a SocketException; otherwise it is unchanged |
| Bridge.GetParLink | Atalin.cs:216-224 | after the write the client stays connected iff it was connected and the write succeeded; it loses its socket iff a connected write threw a SocketException (Close), so any other fault keeps the socket but drops the connection |
| Bridge.ReconnectAfterWriteFault | Atalin.cs:152-168 | after a write fails without a SocketException, the next tick past 3000 ms (timer running, stop clear) calls Connect and ends connected iff Connect succeeds |
| Bridge.GetParFrame | Atalin.cs:190-218 | a frame is written iff connected; when connected it is sent for the current seqNum, and it carries that seqNum's bits |
| Bridge.ListenStepRetry | Atalin.cs:256-296 | after a non-empty read `retry` is `now`; only ID 9200 gates pitch and yaw from bytes 144..159, and no marker or CRC is checked |
| Bridge.ListenLoopKeeps | Atalin.cs:251-308 | reads keep seqNum, the update flag, the stop flag and the UDP client, and keep a connected client backed by a socket |
| Bridge.StopEffect | Atalin.cs:77-82 | Stop closes TCP; it succeeds and sets stop iff a UDP client exists; it keeps seqNum and the timer |
| Bridge.ReceiveAllStops | Atalin.cs:323-381 | with the stop flag set the loop processes nothing; with it clear, the first datagram goes through ReceiveDatagram and the loop goes on; the loop never changes the flag itself |
| Bridge.ReceiveAllKeepsTcp | Atalin.cs:312-381 | the datagram loop never touches the TCP client or seqNum |
| Bridge.ClosedStaysClosed | Atalin.cs:147-185 | once the client has no socket, no operation calls Connect or reopens it |
| Bridge.NoReconnectAfterClose | Atalin.cs:152-153 | from a closed client no run of operations ever calls Connect |
| Bridge.NoConnectAfterStop | Atalin.cs:77-82 | after Stop the timer keeps running, yet no later run calls Connect |
| Bridge.ApplyKeepsValid | Atalin.cs:61-310 | no operation leaves a connected client without a socket |
| Bridge.RunKeepsValid | Atalin.cs:61-310 | every run of operations from a valid state, the initial one included, ends in a valid state |
| Bridge.SeqNumOnlyInGetPar | Atalin.cs:227 | a run of operations without GetPar leaves seqNum unchanged |
| AtalinBridge.BuildUpdateDatagram | Atalin.cs:128-133 | the fresh 16-byte array holds the update datagram |
| AtalinBridge.ReadPitchYaw | Atalin.cs:261-274 | the doubles' bits are the pitch and yaw fields of the response buffer |
| AtalinBridge.ReadDatagram | Atalin.cs:330-346 | a copy of the received bytes is reversed and read: the sample iff the length is 20, else none |
| AtalinBridge.RequestFrame | Atalin.cs:192-214 | the built array holds the frame for the seqNum's wire bits |
| AtalinBridge.Atalin.constructor | Atalin.cs:61-68 | the state is the initial state at `now` |
| AtalinBridge.Atalin.Start | Atalin.cs:70-75 | the timer runs, stop is cleared and the UDP client is open |
| AtalinBridge.Atalin.Stop | Atalin.cs:77-82 | state and success are those of `Bridge.Stop` |
| AtalinBridge.Atalin.TriggerUpdate | Atalin.cs:92-98 | the state is `Bridge.TriggerUpdate` of the old state |
| AtalinBridge.Atalin.SendUpdate | Atalin.cs:100-186 | the new state, the datagram sent and whether Connect was called are those of `Bridge.SendUpdate` |
| AtalinBridge.Atalin.GetPar | Atalin.cs:188-229 | the state is that of `Bridge.GetPar`, and a frame is written iff connected, holding the old seqNum |
| AtalinBridge.Atalin.HandleMessage | Atalin.cs:256-296 | one non-empty read updates the state as `Bridge.ListenStep` does and never changes the move statuses |
| AtalinBridge.Atalin.HandleRead | Atalin.cs:251-308 | one stream read updates state, buffer and loop condition as `Bridge.ListenEvent` does |
| AtalinBridge.Atalin.Listen | Atalin.cs:231-310 | the state after the reads is `Bridge.Listen` of the old state |
| AtalinBridge.Atalin.ReadLoop | Atalin.cs:251-308 | the read loop leaves the state `Bridge.ListenLoop` gives |
| AtalinBridge.Atalin.ReceiveDatagram | Atalin.cs:328-377 | one datagram updates the state as `Bridge.ReceiveDatagram` does |
| AtalinBridge.Atalin.ReceiveGunDriveData | Atalin.cs:323-380 | the loop processes datagrams while stop is clear, as `Bridge.ReceiveAll` does |
| GunPositionReceiver.WrappingAdd | GunPositionReceiverReadLast5Seconds.cs:50 | the `uint` sum is the integer sum, less 2^32 when that overflows |
| GunPositionReceiver.AcceptsIff | GunPositionReceiverReadLast5Seconds.cs:50 | a timestamp passes iff it lies in [last, last+5000) and last+5000 does not reach 2^32 |
| GunPositionReceiver.NothingAcceptedNearWrap | GunPositionReceiverReadLast5Seconds.cs:50 | once `lastTimestamp` is at least 2^32-5000 no datagram passes |
| GunPositionReceiver.FirstDatagram | GunPositionReceiverReadLast5Seconds.cs:24-50 | with `lastTimestamp` at its initial 0, a datagram passes iff its timestamp is below 5000 |
| GunPositionReceiver.RepeatedTimestamp | GunPositionReceiverReadLast5Seconds.cs:50 | a repeated timestamp passes iff the window does not wrap |
| GunPositionReceiver.ReceiveEffect | GunPositionReceiverReadLast5Seconds.cs:32-71 | a datagram under 20 bytes fails and keeps `lastTimestamp`; otherwise the timestamp is the big-endian word at 4..7 and becomes `lastTimestamp`, and the first 20 bytes' sample is shown iff it passes, otherwise "invalid" |
| GunPositionReceiver.ReceiveFirstTwenty | GunPositionReceiverReadLast5Seconds.cs:35-66 | a longer buffer has the same effect as its first 20 bytes |
| GunPositionReceiver.ReceiveEncoded | GunPositionReceiverReadLast5Seconds.cs:35-66 | an encoded sample is shown iff its timestamp passes, and its timestamp becomes `lastTimestamp` |
| GunPositionReceiver.RunOutcomes | GunPositionReceiverReadLast5Seconds.cs:27-71 | each datagram has one outcome, and it is a failure exactly for those under 20 bytes |
| GunPositionReceiver.RunLastTimestamp | GunPositionReceiverReadLast5Seconds.cs:24-66 | after a run, `lastTimestamp` is the timestamp of the last datagram of at least 20 bytes, or the initial value if there was none |
| GunPositionReceiver.ReceiveOne | GunPositionReceiverReadLast5Seconds.cs:35-71 | one pass reverses the fields in place and yields the outcome and new `lastTimestamp` of `Receive` |
| GunPositionReceiver.ReceiveLoop | GunPositionReceiverReadLast5Seconds.cs:24-71 | the loop, started with `lastTimestamp` 0, yields the outcomes and timestamp of `Run` |

## Left out

- Sockets, streams and the UDP sender are not modelled as objects:
  - UDP receives are a sequence of byte strings.
  - Stream reads are a sequence of events.
  - A write ends in one of three outcomes: success, a `SocketException`, or another exception.
  - `Connect` success is a parameter.
  - A refused `Connect` is taken to keep the socket.
- A write failing with anything other than a `SocketException` (for instance an `IOException`)
  escapes `GetPar` before `seqNum++`, so seqNum is unchanged. This is modelled as written.
- The standalone receiver's loop never ends. The bridge's UDP loop ends once the stop flag is set, and `Listen`'s loop
  ends at the end of the stream or on an `IOException`. All three are modelled over a finite sequence of datagrams or
  read events, so a run that never ends is not modelled.
- The timer thread, the async receive task and their interleaving on shared fields are
  not modelled. Each operation is atomic, and a run is a sequence of operations. `Stop`
  racing a receive in progress is therefore not modelled.
- Floating point is not modelled:
  - `BitConverter.ToSingle` and `ToDouble` values are kept as raw bits.
  - `radiansToMils` and the conversion to `float` are not modelled.
  - The vehicle azimuth `(Az - Yaw + 9600) % 6400` and the `* 1000` truncation are inputs (`azimuth1000`, `elevation1000`).
- The `if (x != current)` guards before the platform writes are dropped, and every write is modelled as unconditional.
  Equality in the model is bitwise, so a write the model records may be one the source skips.
  The C# `!=` compares a `double` with a `float` and treats +0.0 and -0.0 as equal, and the value stored is `(float)x`.
  The model does not capture those comparisons, nor a NaN comparison.
- The registry lookup and the `PostMessage` call to the trainer are left out,
  because they are Windows-specific. Console output is also left out; the receiver's outcome records
  which message would be printed.
- `Listen` calls `GetStream()` before its connected check. The model treats
  `Listen` on an unconnected client as doing nothing, not as the exception it raises.
- A `Start` while the UDP client is still open fails to bind port 50121 inside the `async void` receive method
  (Atalin.cs:312-320). `Start` returns, and the model sets the flags only.
- The `Dispose` path, the settings lookup (addresses and ports) and the `Core.Instance` singleton
  are left out. The singleton is replaced by the explicit `Core` object.
- `Listen` reads the 1068-byte buffer at fixed offsets whatever `count` is. The model
  carries the whole buffer, and a read event states only the bytes it overwrites.
- Bridge.GetPar, Bridge.ListenEvent and Bridge.Stop: `TcpClient.Close()` is modelled as leaving `Client == null` for good (`ClosedTcp`).
  On a runtime where a closed client keeps its socket (a client whose stream was taken with `GetStream()`), a later tick
  would pass the `Client == null` return (Atalin.cs:152) and reconnect (Atalin.cs:155-162). Bridge.NoConnectAfterStop relies on this choice.
- Bridge.ListenEvent: the end of the stream, and an `IOException` without an inner `SocketException`, leave `connected` as it was.
  In the model a connected client becomes unconnected only on a failed write (`Bridge.GetPar`) and on `Close`.
- Bridge.WireBits: the two's-complement bits of seqNum carry no contract of their own. Relating them to
  the integer value costs more than the verifier's resource limit allows.
