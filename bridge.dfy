/**
 * The control state of the aTALIN bridge (class `Atalin`), as pure transitions
 * over an explicit state value. The class in module `AtalinBridge` carries the
 * same state in fields and is proved against these functions.
 *
 * Time is an integer clock in milliseconds: `retry.AddSeconds(3) < DateTime.Now`
 * is `retry + 3000 < now`. The TCP client is described by whether it still has a
 * socket (`TcpClient.Client != null`) and whether it is connected. `Close` is
 * taken to leave the client without a socket for good (`ClosedTcp`): no code
 * path makes a new client once the old one is closed.
 */
module Bridge {
  import opened Options
  import opened Bytes
  import opened Pdi
  import opened GunDatagram

  /** `Enumerations.MoveStatus`: the four statuses of a move, and the others. */
  datatype MoveStatus = MovingToTarget | MovingToStow | MovingByJoystick | Stopping | OtherStatus(code: int)

  /**
   * A platform angle in mils. The bridge only stores and compares them: from a
   * gun datagram it is the single the datagram carries; from a PAR data message
   * it is `(float)radiansToMils(ToDouble(..))` of the double whose bits are given.
   */
  datatype Angle = Single(singleBits: bv32) | RadiansAsMils(doubleBits: bv64)

  /** `Core.Instance.Position.Platform`. */
  datatype Platform = Platform(elevation: Angle, azimuth: Angle)

  datatype Tcp = Tcp(hasSocket: bool, connected: bool)

  /** `_udpClient`: not yet made (`null`), open, or closed by `Stop`. */
  datatype Udp = NoUdpClient | UdpOpen | UdpClosed

  /** C#'s `int`, the type of the request sequence number. */
  newtype int32 = x: int | -0x8000_0000 <= x < 0x8000_0000

  /** `seqNum++` on an `int` (unchecked): from `int.MaxValue` it wraps to `int.MinValue`. */
  function Increment(n: int32): (r: int32)
    ensures (r as int - n as int - 1) % 0x1_0000_0000 == 0
  {
    if n == 0x7FFF_FFFF then -0x8000_0000 else n + 1
  }

  /** The two's-complement bit pattern of an `int`, which `HostToNetworkOrder` puts on the wire. */
  function WireBits(n: int32): bv32 {
    if n < 0 then (n as int + 0x1_0000_0000) as bv32 else n as int as bv32
  }

  datatype State = State(
    updateAvailable: bool,
    receivedFromTalin: bool,
    retry: int,
    seqNum: int32,
    stopButtonSelected: bool,
    tcp: Tcp,
    udp: Udp,
    platform: Platform,
    timerRunning: bool)

  /** A new `Atalin`: a fresh (unconnected) TCP client, `retry` at construction time, timer stopped. */
  function Initial(now: int, platform: Platform): (st: State)
    ensures Valid(st) && st.tcp.hasSocket && !st.tcp.connected && !st.timerRunning
  {
    State(false, false, now, 0, false, Tcp(true, false), NoUdpClient, platform, false)
  }

  /** A connected client always has a socket. */
  predicate Valid(st: State) {
    st.tcp.connected ==> st.tcp.hasSocket
  }

  const RetryMs := 3000
  const ClosedTcp := Tcp(false, false)

  // ---------------------------------------------------------------------------
  // IsInMove and the sample gate
  // ---------------------------------------------------------------------------

  /** The statuses in which an axis is moving. */
  predicate Moving(m: MoveStatus) {
    m in {MovingToTarget, MovingToStow, MovingByJoystick, Stopping}
  }

  /** `IsInMove`: the eight comparisons of the two axes' statuses. */
  function IsInMove(elevation: MoveStatus, azimuth: MoveStatus): (r: bool)
    ensures r <==> Moving(elevation) || Moving(azimuth)
  {
    elevation == MovingToTarget || elevation == MovingToStow || elevation == MovingByJoystick ||
    elevation == Stopping || azimuth == MovingToTarget || azimuth == MovingToStow ||
    azimuth == MovingByJoystick || azimuth == Stopping
  }

  /** Not in a move exactly when both axes are in some other status. */
  lemma NotInMove(elevation: MoveStatus, azimuth: MoveStatus)
    ensures !IsInMove(elevation, azimuth) <==> elevation.OtherStatus? && azimuth.OtherStatus?
  {
  }

  /**
   * What a decoded sample does: in a move the platform takes the sample's angles
   * and `_receivedFromTalin` is set; otherwise only `_receivedFromTalin` is cleared.
   */
  function Gate(st: State, inMove: bool, elevation: Angle, azimuth: Angle): (r: State)
    ensures r.receivedFromTalin == inMove
    ensures r.platform == if inMove then Platform(elevation, azimuth) else st.platform
    ensures r == st.(receivedFromTalin := r.receivedFromTalin, platform := r.platform)
  {
    if inMove then st.(platform := Platform(elevation, azimuth), receivedFromTalin := true)
    else st.(receivedFromTalin := false)
  }

  // ---------------------------------------------------------------------------
  // Gun datagrams (ReceiveGunDriveDataAsync)
  // ---------------------------------------------------------------------------

  /**
   * One received datagram: shorter than 20 bytes, a reversal throws and the
   * exception is caught; longer, it is reported invalid; exactly 20 bytes, the
   * pitch and azimuth go through the gate.
   */
  function ReceiveDatagram(st: State, data: seq<byte>, inMove: bool): State {
    if |data| != DatagramSize then st
    else
      var sample := Decode(data);
      Gate(st, inMove, Single(sample.pitch), Single(sample.azimuth))
  }

  /** Only a 20-byte datagram changes anything, and then only what the gate writes. */
  lemma ReceiveDatagramEffect(st: State, data: seq<byte>, inMove: bool)
    ensures |data| != DatagramSize ==> ReceiveDatagram(st, data, inMove) == st
    ensures |data| == DatagramSize ==>
      ReceiveDatagram(st, data, inMove) == Gate(st, inMove, Single(FromBE32(data[12..16])), Single(FromBE32(data[8..12])))
  {
    if |data| == DatagramSize {
      DecodeReadsWire(data);
    }
  }

  /** The receive loop: every datagram while the stop flag is clear. */
  function ReceiveAll(st: State, datagrams: seq<seq<byte>>, inMove: bool): State
    decreases |datagrams|
  {
    if st.stopButtonSelected || datagrams == [] then st
    else ReceiveAll(ReceiveDatagram(st, datagrams[0], inMove), datagrams[1..], inMove)
  }

  /**
   * The datagram loop tests the stop flag before each receive: once it is set
   * the loop does nothing more; while it is clear, each datagram goes through
   * `ReceiveDatagram`. The loop never sets the flag itself, so only `Stop` ends it.
   */
  lemma {:induction false} ReceiveAllStops(st: State, datagrams: seq<seq<byte>>, inMove: bool)
    ensures st.stopButtonSelected ==> ReceiveAll(st, datagrams, inMove) == st
    ensures !st.stopButtonSelected && datagrams != [] ==>
      ReceiveAll(st, datagrams, inMove) == ReceiveAll(ReceiveDatagram(st, datagrams[0], inMove), datagrams[1..], inMove)
    ensures ReceiveAll(st, datagrams, inMove).stopButtonSelected == st.stopButtonSelected
    decreases |datagrams|
  {
    if !st.stopButtonSelected && datagrams != [] {
      ReceiveAllStops(ReceiveDatagram(st, datagrams[0], inMove), datagrams[1..], inMove);
    }
  }

  // ---------------------------------------------------------------------------
  // The pending update (TriggerUpdate, first half of SendUpdate)
  // ---------------------------------------------------------------------------

  function TriggerUpdate(st: State): State {
    if !st.receivedFromTalin then st.(updateAvailable := true) else st
  }

  /** The flag is raised exactly when no aTALIN sample is being followed; nothing else changes. */
  lemma TriggerUpdateEffect(st: State)
    ensures TriggerUpdate(st).updateAvailable <==> st.updateAvailable || !st.receivedFromTalin
    ensures TriggerUpdate(st) == st.(updateAvailable := TriggerUpdate(st).updateAvailable)
  {
  }

  /**
   * The 16-byte datagram sent to the aTALIN: the vehicle azimuth and the
   * elevation, each already scaled by 1000 and truncated to `int` (given here as
   * its 32-bit pattern), then 1000 twice, all in network order.
   */
  function UpdateDatagram(azimuth1000: bv32, elevation1000: bv32): seq<byte> {
    Words([azimuth1000, elevation1000, 1000, 1000])
  }

  /** A receiver reading the four network-order words gets back what was sent. */
  lemma UpdateDatagramLayout(azimuth1000: bv32, elevation1000: bv32)
    ensures |UpdateDatagram(azimuth1000, elevation1000)| == 16
    ensures DecodeWords(UpdateDatagram(azimuth1000, elevation1000)) == [azimuth1000, elevation1000, 1000, 1000]
  {
    DecodeWordsOfWords([azimuth1000, elevation1000, 1000, 1000]);
  }

  /** Words 2 and 3 are both 1000: bytes 00 00 03 E8. */
  lemma UpdateDatagramConstantWords(azimuth1000: bv32, elevation1000: bv32)
    ensures UpdateDatagram(azimuth1000, elevation1000)[8..12] == [0x00, 0x00, 0x03, 0xE8]
    ensures UpdateDatagram(azimuth1000, elevation1000)[12..16] == [0x00, 0x00, 0x03, 0xE8]
  {
    var ws := [azimuth1000, elevation1000, 1000, 1000];
    WordAt(ws, 2);
    WordAt(ws, 3);
    assert BE32(1000) == [0x00, 0x00, 0x03, 0xE8];
  }

  // ---------------------------------------------------------------------------
  // A timer tick (SendUpdate)
  // ---------------------------------------------------------------------------

  /**
   * What a tick did besides the new state: the datagram handed to the UDP
   * connection, if any, and whether `Connect` was called.
   */
  datatype Tick = Tick(next: State, sent: Option<seq<byte>>, connectAttempted: bool)

  /**
   * `SendUpdate` at time `now`. `senderPresent` is `!_talinConnection.IsClientNull()`;
   * `connects` is whether a `Connect` call, if one is made, succeeds. A failed send
   * or connect is caught, so neither changes what follows.
   */
  function SendUpdate(st: State, now: int, senderPresent: bool, azimuth1000: bv32, elevation1000: bv32,
                      connects: bool): Tick
  {
    var sent := if st.updateAvailable && senderPresent then Some(UpdateDatagram(azimuth1000, elevation1000)) else None;
    var st1 := st.(updateAvailable := false);
    if !st1.tcp.hasSocket then Tick(st1, sent, false)
    else if !st1.tcp.connected && st1.retry + RetryMs < now then
      var attempt := !st1.stopButtonSelected;
      Tick(st1.(retry := now, tcp := Tcp(true, attempt && connects)), sent, attempt)
    else if st1.tcp.connected && st1.retry + RetryMs < now then
      Tick(st1.(retry := now), sent, false)
    else Tick(st1, sent, false)
  }

  /** A tick clears the pending flag and sends the datagram exactly when one was pending and the sender exists. */
  lemma SendUpdateFlag(st: State, now: int, present: bool, az: bv32, el: bv32, connects: bool)
    ensures !SendUpdate(st, now, present, az, el, connects).next.updateAvailable
    ensures SendUpdate(st, now, present, az, el, connects).sent
      == if st.updateAvailable && present then Some(UpdateDatagram(az, el)) else None
  {
  }

  /**
   * `Connect` is called only on a client that has a socket and is not connected,
   * more than three seconds after `retry`, with the stop flag clear.
   */
  lemma SendUpdateConnects(st: State, now: int, present: bool, az: bv32, el: bv32, connects: bool)
    ensures SendUpdate(st, now, present, az, el, connects).connectAttempted
      <==> st.tcp.hasSocket && !st.tcp.connected && st.retry + RetryMs < now && !st.stopButtonSelected
  {
  }

  /** Both elapsed branches, connected or not, move `retry` to now; otherwise it stays. */
  lemma SendUpdateRetry(st: State, now: int, present: bool, az: bv32, el: bv32, connects: bool)
    ensures SendUpdate(st, now, present, az, el, connects).next.retry
      == if st.tcp.hasSocket && st.retry + RetryMs < now then now else st.retry
  {
  }

  /** Without a socket a tick does nothing after the update step. */
  lemma SendUpdateWithoutSocket(st: State, now: int, present: bool, az: bv32, el: bv32, connects: bool)
    requires !st.tcp.hasSocket
    ensures SendUpdate(st, now, present, az, el, connects).next == st.(updateAvailable := false)
    ensures !SendUpdate(st, now, present, az, el, connects).connectAttempted
  {
  }

  /** A tick leaves the sequence number, the sample state and the flags alone, and keeps `Valid`. */
  lemma SendUpdateKeeps(st: State, now: int, present: bool, az: bv32, el: bv32, connects: bool)
    ensures var next := SendUpdate(st, now, present, az, el, connects).next;
      next.seqNum == st.seqNum && next.receivedFromTalin == st.receivedFromTalin &&
      next.platform == st.platform && next.stopButtonSelected == st.stopButtonSelected &&
      next.udp == st.udp && next.tcp.hasSocket == st.tcp.hasSocket && (Valid(st) ==> Valid(next))
  {
  }

  // ---------------------------------------------------------------------------
  // The parameter request (GetPar)
  // ---------------------------------------------------------------------------

  /**
   * How `stream.Write` ended: it wrote the frame, it threw a `SocketException`
   * (caught: the client is closed), or it threw anything else (not caught: the
   * exception leaves `GetPar` before `seqNum++`). A failed write leaves the
   * client's `Connected` false, since it reports the outcome of the last I/O.
   */
  datatype WriteOutcome = Written | SocketFault | OtherFault

  /** The new state, and the sequence number of the request frame written, if one was. */
  datatype Request = Request(next: State, sentFor: Option<int32>)

  /** `GetPar`: while connected, write the request for the current `seqNum` and count it. */
  function GetPar(st: State, outcome: WriteOutcome): Request {
    if !st.tcp.connected then Request(st, None)
    else
      var frame := Some(st.seqNum);
      match outcome
      case Written => Request(st.(seqNum := Increment(st.seqNum)), frame)
      case SocketFault => Request(st.(seqNum := Increment(st.seqNum), tcp := ClosedTcp), frame)
      case OtherFault => Request(st.(tcp := st.tcp.(connected := false)), frame)
  }

  /**
   * What the write does to the link: a written frame keeps it, a socket error
   * closes the client, and any other fault keeps the socket but not the connection.
   */
  lemma GetParLink(st: State, outcome: WriteOutcome)
    ensures GetPar(st, outcome).next.tcp.connected <==> st.tcp.connected && outcome == Written
    ensures GetPar(st, outcome).next.tcp.hasSocket
      <==> st.tcp.hasSocket && !(st.tcp.connected && outcome == SocketFault)
  {
  }

  /**
   * After a write fails without a socket error, the next tick past the retry
   * interval makes a new client and calls `Connect` (unless stopped).
   */
  lemma ReconnectAfterWriteFault(st: State, now: int, present: bool, az: bv32, el: bv32, connects: bool)
    requires Valid(st) && st.tcp.connected && st.timerRunning && !st.stopButtonSelected
    requires st.retry + RetryMs < now
    ensures var next := GetPar(st, OtherFault).next;
      Connects(next, TickOp(now, present, az, el, connects)) &&
      Apply(next, TickOp(now, present, az, el, connects)).tcp == Tcp(true, connects)
  {
  }

  /**
   * `seqNum` rises by one, wrapping at 2^32, when a connected client attempts the
   * write and the write returns or throws a `SocketException`; otherwise it stays.
   */
  lemma GetParSeqNum(st: State, outcome: WriteOutcome)
    ensures st.tcp.connected && outcome != OtherFault ==> GetPar(st, outcome).next.seqNum == Increment(st.seqNum)
    ensures !st.tcp.connected || outcome == OtherFault ==> GetPar(st, outcome).next.seqNum == st.seqNum
  {
  }

  /**
   * A frame is written exactly when the client is connected; it is the request
   * for the sequence number before the increment, and a PDI reader parses it back
   * to that number.
   */
  lemma GetParFrame(st: State, outcome: WriteOutcome)
    ensures GetPar(st, outcome).sentFor.Some? <==> st.tcp.connected
    ensures st.tcp.connected ==> GetPar(st, outcome).sentFor == Some(st.seqNum)
    ensures GetPar(st, outcome).sentFor.Some? ==>
      ParseParRequest(ParRequest(WireBits(GetPar(st, outcome).sentFor.value))) == Some(WireBits(st.seqNum))
  {
    ParseParRequestOfParRequest(WireBits(st.seqNum));
  }

  // ---------------------------------------------------------------------------
  // The PDI listener (Listen)
  // ---------------------------------------------------------------------------

  /**
   * One `stream.Read` into the receive buffer: some bytes (and the time they
   * arrived), the end of the stream (`Read` returns 0), or an `IOException`,
   * caused by a socket error or not.
   */
  datatype ReadEvent = Data(chunk: seq<byte>, now: int) | EndOfStream | ReadFault(socketError: bool)

  /** What `Stream.Read` promises: between one byte and the buffer's length. */
  predicate ReadFits(e: ReadEvent) {
    e.Data? ==> 0 < |e.chunk| <= ReceiveBufferSize
  }

  predicate ReadsFit(events: seq<ReadEvent>) {
    forall e | e in events :: ReadFits(e)
  }

  /**
   * The body of the read loop on the buffer after the read: a PAR data message
   * goes through the gate with its pitch and yaw; any message resets `retry`.
   * No marker or CRC is checked.
   */
  function ListenStep(st: State, buf: seq<byte>, now: int, inMove: bool): State
    requires |buf| == ReceiveBufferSize
  {
    var st1 := if MessageId(buf) == ParDataMsgId
      then Gate(st, inMove, RadiansAsMils(PitchBits(buf)), RadiansAsMils(YawBits(buf)))
      else st;
    st1.(retry := now)
  }

  /** What one read leaves: the state, the receive buffer, and whether the loop reads again. */
  datatype Step = Step(next: State, buf: seq<byte>, more: bool)

  /**
   * One `stream.Read` and what follows it: bytes go through `ListenStep` and the
   * loop goes on; the end of the stream ends it; an `IOException` ends it too,
   * closing the client when a socket error caused it.
   */
  function ListenEvent(st: State, buf: seq<byte>, e: ReadEvent, inMove: bool): (r: Step)
    requires |buf| == ReceiveBufferSize && ReadFits(e)
    ensures |r.buf| == ReceiveBufferSize
  {
    match e
    case EndOfStream => Step(st, buf, false)
    case ReadFault(socketError) => Step(if socketError then st.(tcp := ClosedTcp) else st, buf, false)
    case Data(chunk, now) =>
      var buf' := AfterRead(buf, chunk);
      Step(ListenStep(st, buf', now, inMove), buf', true)
  }

  /** The read loop over the events still to come, with the buffer as earlier events left it. */
  function ListenLoop(st: State, buf: seq<byte>, events: seq<ReadEvent>, inMove: bool): State
    requires |buf| == ReceiveBufferSize && ReadsFit(events)
    decreases |events|
  {
    if events == [] then st
    else
      var r := ListenEvent(st, buf, events[0], inMove);
      if r.more then ListenLoop(r.next, r.buf, events[1..], inMove) else r.next
  }

  /** The zero-filled receive buffer `Listen` allocates. */
  function EmptyBuffer(): (b: seq<byte>)
    ensures |b| == ReceiveBufferSize
  {
    seq(ReceiveBufferSize, _ => 0)
  }

  /** `Listen`: nothing unless connected and not stopped; then the read loop on a fresh buffer. */
  function Listen(st: State, events: seq<ReadEvent>, inMove: bool): State
    requires ReadsFit(events)
  {
    if !st.tcp.connected || st.stopButtonSelected then st
    else ListenLoop(st, EmptyBuffer(), events, inMove)
  }

  /**
   * A non-empty read resets `retry` to its time, whatever message it holds. The
   * point of the last clause is what it leaves out: a PAR data message reaches
   * the gate on its ID alone, with no start or end marker and no CRC checked.
   */
  lemma ListenStepRetry(st: State, buf: seq<byte>, now: int, inMove: bool)
    requires |buf| == ReceiveBufferSize
    ensures ListenStep(st, buf, now, inMove).retry == now
    ensures MessageId(buf) != ParDataMsgId ==> ListenStep(st, buf, now, inMove) == st.(retry := now)
    ensures MessageId(buf) == ParDataMsgId ==>
      ListenStep(st, buf, now, inMove)
        == Gate(st, inMove, RadiansAsMils(FromBE64(buf[144..152])), RadiansAsMils(FromBE64(buf[152..160]))).(retry := now)
  {
  }

  /** The listener never touches the sequence number, the pending flag or the stop flag. */
  lemma {:induction false} ListenLoopKeeps(st: State, buf: seq<byte>, events: seq<ReadEvent>, inMove: bool)
    requires |buf| == ReceiveBufferSize && ReadsFit(events)
    ensures var r := ListenLoop(st, buf, events, inMove);
      r.seqNum == st.seqNum && r.updateAvailable == st.updateAvailable &&
      r.stopButtonSelected == st.stopButtonSelected && r.udp == st.udp &&
      (Valid(st) ==> Valid(r))
    decreases |events|
  {
    if events != [] {
      assert ReadFits(events[0]) by { assert events[0] in events; }
      var r := ListenEvent(st, buf, events[0], inMove);
      ListenEventKeeps(st, buf, events[0], inMove);
      if r.more {
        ReadsFitTail(events);
        ListenLoopKeeps(r.next, r.buf, events[1..], inMove);
      }
    }
  }

  lemma ListenEventKeeps(st: State, buf: seq<byte>, e: ReadEvent, inMove: bool)
    requires |buf| == ReceiveBufferSize && ReadFits(e)
    ensures var r := ListenEvent(st, buf, e, inMove).next;
      r.seqNum == st.seqNum && r.updateAvailable == st.updateAvailable &&
      r.stopButtonSelected == st.stopButtonSelected && r.udp == st.udp &&
      (Valid(st) ==> Valid(r))
  {
    if e.Data? {
      ListenStepKeeps(st, AfterRead(buf, e.chunk), e.now, inMove);
    }
  }

  /** One message changes only the sample state and `retry`. */
  lemma ListenStepKeeps(st: State, buf: seq<byte>, now: int, inMove: bool)
    requires |buf| == ReceiveBufferSize
    ensures var r := ListenStep(st, buf, now, inMove);
      r.seqNum == st.seqNum && r.updateAvailable == st.updateAvailable &&
      r.stopButtonSelected == st.stopButtonSelected && r.udp == st.udp && r.tcp == st.tcp
  {
  }

  lemma ReadsFitTail(events: seq<ReadEvent>)
    requires events != [] && ReadsFit(events)
    ensures ReadsFit(events[1..])
  {
    forall e | e in events[1..] ensures ReadFits(e) {
      assert e in events;
    }
  }

  // ---------------------------------------------------------------------------
  // Start and Stop
  // ---------------------------------------------------------------------------

  /**
   * `Start`: starts the update timer, clears the stop flag and, in the synchronous
   * part of `ReceiveGunDriveDataAsync`, opens the UDP client its loop reads.
   */
  function Start(st: State): State {
    st.(timerRunning := true, stopButtonSelected := false, udp := UdpOpen)
  }

  /**
   * `Stop`: closes the TCP client, then the UDP client. Before any `Start` there
   * is no UDP client: the call throws and the stop flag stays as it was (`ok` false).
   */
  function Stop(st: State): (State, bool) {
    var st1 := st.(tcp := ClosedTcp);
    if st1.udp == NoUdpClient then (st1, false)
    else (st1.(udp := UdpClosed, stopButtonSelected := true), true)
  }

  lemma StopEffect(st: State)
    ensures !Stop(st).0.tcp.hasSocket && !Stop(st).0.tcp.connected
    ensures Stop(st).1 <==> st.udp != NoUdpClient
    ensures Stop(st).0.stopButtonSelected == (st.stopButtonSelected || st.udp != NoUdpClient)
    ensures Stop(st).0.seqNum == st.seqNum && Stop(st).0.timerRunning == st.timerRunning
  {
  }

  // ---------------------------------------------------------------------------
  // Runs of operations
  // ---------------------------------------------------------------------------

  /** The operations of the bridge, with what each takes from its environment. */
  datatype Op =
    | TriggerOp
    | TickOp(now: int, senderPresent: bool, azimuth1000: bv32, elevation1000: bv32, connects: bool)
    | GetParOp(outcome: WriteOutcome)
    | ListenOp(events: seq<ReadEvent>, inMove: bool)
    | DatagramsOp(datagrams: seq<seq<byte>>, inMove: bool)
    | StartOp
    | StopOp

  function Apply(st: State, op: Op): State {
    match op
    case TriggerOp => TriggerUpdate(st)
    case TickOp(now, present, az, el, connects) =>
      if st.timerRunning then SendUpdate(st, now, present, az, el, connects).next else st
    case GetParOp(outcome) => GetPar(st, outcome).next
    case ListenOp(events, inMove) => if ReadsFit(events) then Listen(st, events, inMove) else st
    case DatagramsOp(datagrams, inMove) => ReceiveAll(st, datagrams, inMove)
    case StartOp => Start(st)
    case StopOp => Stop(st).0
  }

  /** Whether an operation calls `Connect`. */
  predicate Connects(st: State, op: Op) {
    op.TickOp? && st.timerRunning && SendUpdate(st, op.now, op.senderPresent, op.azimuth1000, op.elevation1000, op.connects).connectAttempted
  }

  function Run(st: State, ops: seq<Op>): State
    decreases |ops|
  {
    if ops == [] then st else Run(Apply(st, ops[0]), ops[1..])
  }

  /** The number of `Connect` calls in a run. */
  function ConnectCount(st: State, ops: seq<Op>): nat
    decreases |ops|
  {
    if ops == [] then 0
    else (if Connects(st, ops[0]) then 1 else 0) + ConnectCount(Apply(st, ops[0]), ops[1..])
  }

  lemma {:induction false} ReceiveAllKeepsTcp(st: State, datagrams: seq<seq<byte>>, inMove: bool)
    ensures ReceiveAll(st, datagrams, inMove).tcp == st.tcp
    ensures ReceiveAll(st, datagrams, inMove).seqNum == st.seqNum
    decreases |datagrams|
  {
    if !st.stopButtonSelected && datagrams != [] {
      ReceiveAllKeepsTcp(ReceiveDatagram(st, datagrams[0], inMove), datagrams[1..], inMove);
    }
  }

  /** Once the TCP client is closed it stays closed: no operation gives it a socket again. */
  lemma ClosedStaysClosed(st: State, op: Op)
    requires !st.tcp.hasSocket && !st.tcp.connected
    ensures !Apply(st, op).tcp.hasSocket && !Apply(st, op).tcp.connected
    ensures !Connects(st, op)
  {
    match op {
      case ListenOp(events, inMove) =>
      case DatagramsOp(datagrams, inMove) =>
        ReceiveAllKeepsTcp(st, datagrams, inMove);
      case _ =>
    }
  }

  /**
   * After `Stop`, or after a socket error closed the client, no later tick ever
   * calls `Connect` again, whatever else happens, `Start` included.
   */
  lemma {:induction false} NoReconnectAfterClose(st: State, ops: seq<Op>)
    requires !st.tcp.hasSocket && !st.tcp.connected
    ensures ConnectCount(st, ops) == 0
    ensures !Run(st, ops).tcp.hasSocket
    decreases |ops|
  {
    if ops != [] {
      ClosedStaysClosed(st, ops[0]);
      NoReconnectAfterClose(Apply(st, ops[0]), ops[1..]);
    }
  }

  /**
   * `Stop` leaves the update timer running, but from then on no tick ever calls
   * `Connect`: the closed client has no socket, and nothing makes a new one.
   */
  lemma NoConnectAfterStop(st: State, ops: seq<Op>)
    ensures Stop(st).0.timerRunning == st.timerRunning
    ensures ConnectCount(Stop(st).0, ops) == 0
  {
    NoReconnectAfterClose(Stop(st).0, ops);
  }

  /** No operation leaves a connected client without a socket. */
  lemma ApplyKeepsValid(st: State, op: Op)
    requires Valid(st)
    ensures Valid(Apply(st, op))
  {
    match op {
      case ListenOp(events, inMove) =>
        if ReadsFit(events) && st.tcp.connected && !st.stopButtonSelected {
          ListenLoopKeeps(st, EmptyBuffer(), events, inMove);
        }
      case DatagramsOp(datagrams, inMove) =>
        ReceiveAllKeepsTcp(st, datagrams, inMove);
      case TickOp(now, present, az, el, connects) =>
        SendUpdateKeeps(st, now, present, az, el, connects);
      case _ =>
    }
  }

  /** Every run from a valid state, the initial state included, ends in a valid state. */
  lemma {:induction false} RunKeepsValid(st: State, ops: seq<Op>)
    requires Valid(st)
    ensures Valid(Run(st, ops))
    decreases |ops|
  {
    if ops != [] {
      ApplyKeepsValid(st, ops[0]);
      RunKeepsValid(Apply(st, ops[0]), ops[1..]);
    }
  }

  /** Every operation but `GetPar` keeps the sequence number. */
  lemma ApplyKeepsSeqNum(st: State, op: Op)
    requires !op.GetParOp?
    ensures Apply(st, op).seqNum == st.seqNum
  {
    match op {
      case ListenOp(events, inMove) =>
        if ReadsFit(events) && st.tcp.connected && !st.stopButtonSelected {
          ListenLoopKeeps(st, EmptyBuffer(), events, inMove);
        }
      case DatagramsOp(datagrams, inMove) =>
        ReceiveAllKeepsTcp(st, datagrams, inMove);
      case TickOp(now, present, az, el, connects) =>
        SendUpdateKeeps(st, now, present, az, el, connects);
      case _ =>
    }
  }

  /** Only the request path moves the sequence number. */
  lemma {:induction false} SeqNumOnlyInGetPar(st: State, ops: seq<Op>)
    requires forall i | 0 <= i < |ops| :: !ops[i].GetParOp?
    ensures Run(st, ops).seqNum == st.seqNum
    decreases |ops|
  {
    if ops != [] {
      ApplyKeepsSeqNum(st, ops[0]);
      SeqNumOnlyInGetPar(Apply(st, ops[0]), ops[1..]);
    }
  }
}
