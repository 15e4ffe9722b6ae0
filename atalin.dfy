/**
 * The `Atalin` object itself: its fields are updated in place by the timer
 * callback, the PDI listener, the gun datagram loop and the user's Start/Stop.
 * Each method is proved to move the object's state exactly as the matching
 * transition of module `Bridge` says.
 */
module AtalinBridge {
  import opened Options
  import opened Bytes
  import opened Pdi
  import opened GunDatagram
  import opened Bridge

  /** The parts of `Core.Instance` the bridge reads and writes. */
  class Core {
    /** `Motion.Elevation.MoveStatus` and `Motion.Azimuth.MoveStatus`. */
    var elevationStatus: MoveStatus
    var azimuthStatus: MoveStatus
    /** `Position.Platform`. */
    var platform: Platform

    constructor(elevationStatus: MoveStatus, azimuthStatus: MoveStatus, platform: Platform)
      ensures this.elevationStatus == elevationStatus && this.azimuthStatus == azimuthStatus
      ensures this.platform == platform
    {
      this.elevationStatus := elevationStatus;
      this.azimuthStatus := azimuthStatus;
      this.platform := platform;
    }
  }

  /** The 16-byte update datagram, word by word, as `SendUpdate` fills it. */
  method BuildUpdateDatagram(azimuth1000: bv32, elevation1000: bv32) returns (data: array<byte>)
    ensures fresh(data)
    ensures data[..] == UpdateDatagram(azimuth1000, elevation1000)
  {
    data := new byte[16](_ => 0);
    PutAngles(data, azimuth1000, elevation1000);
    PutUnits(data, [azimuth1000, elevation1000]);
    assert [azimuth1000, elevation1000] + [1000, 1000] == [azimuth1000, elevation1000, 1000, 1000];
  }

  /** Bytes 0..8: the vehicle azimuth and the elevation. */
  method PutAngles(data: array<byte>, azimuth1000: bv32, elevation1000: bv32)
    requires data.Length == 16
    modifies data
    ensures data[..8] == Words([azimuth1000, elevation1000])
  {
    ghost var ws: seq<bv32> := [];
    assert data[..0] == Words(ws);
    var bytes := GetNetworkBytes32(azimuth1000);
    WholeSlice(bytes);
    PutWord(data, 0, ws, bytes, 0, azimuth1000);
    ws := ws + [azimuth1000];
    bytes := GetNetworkBytes32(elevation1000);
    WholeSlice(bytes);
    PutWord(data, 4, ws, bytes, 0, elevation1000);
    ws := ws + [elevation1000];
    assert ws == [azimuth1000, elevation1000];
  }

  lemma WholeSlice<T>(s: seq<T>)
    ensures s[0..|s|] == s
  {
  }

  /** Bytes 8..16: the two words of 1000. */
  method PutUnits(data: array<byte>, ghost angles: seq<bv32>)
    requires data.Length == 16 && |angles| == 2 && data[..8] == Words(angles)
    modifies data
    ensures data[..] == Words(angles + [1000, 1000])
  {
    var bytes := GetNetworkBytes32(1000);
    PutWord(data, 8, angles, bytes, 0, 1000);
    PutWord(data, 12, angles + [1000], bytes, 0, 1000);
    assert angles + [1000] + [1000] == angles + [1000, 1000];
    assert data[..] == data[..16];
  }

  /**
   * The attitude of a PAR data message: pitch and yaw are copied out of the
   * receive buffer, reversed and read by `BitConverter.ToDouble` (given here as
   * the bit patterns of the doubles).
   */
  method ReadPitchYaw(received: array<byte>, pitchBytes: array<byte>, yawBytes: array<byte>) returns (pitch: bv64, yaw: bv64)
    requires received.Length == ReceiveBufferSize && pitchBytes.Length == 8 && yawBytes.Length == 8
    requires pitchBytes != yawBytes && received != pitchBytes && received != yawBytes
    modifies pitchBytes, yawBytes
    ensures pitch == PitchBits(received[..]) && yaw == YawBits(received[..])
  {
    ReadAttitude(received, pitchBytes, yawBytes);
    pitch := ToUInt64(pitchBytes[..]);
    yaw := ToUInt64(yawBytes[..]);
    assert received[..][144..152] == received[144..152] && received[..][152..160] == received[152..160];
  }

  /**
   * The reading half of one pass of `ReceiveGunDriveDataAsync`'s loop: the
   * datagram is copied into a buffer whose four fields are reversed in place;
   * a short buffer makes a reversal throw, a long one is reported invalid, and
   * only a 20-byte one is read.
   */
  method ReadDatagram(received: seq<byte>) returns (sample: Option<GunSample>)
    ensures sample == if |received| == DatagramSize then Some(Decode(received)) else None
  {
    var data := new byte[|received|](k requires 0 <= k < |received| => received[k]);
    assert data[..] == received;
    var ok := ReverseFields(data);
    if !ok || data.Length != DatagramSize {
      return None;
    }
    sample := Some(ReadFields(data[..]));
  }

  /** `GetPar`'s frame for the sequence number `seqNum`, built in a fresh buffer. */
  method RequestFrame(seqNum: int32) returns (frame: seq<byte>)
    ensures frame == ParRequest(WireBits(seqNum))
  {
    var msg := BuildParRequest(WireBits(seqNum));
    frame := msg[..];
  }

  class Atalin {
    var updateAvailable: bool
    var receivedFromTalin: bool
    /** `retry`, in milliseconds. */
    var retry: int
    var seqNum: int32
    var stopButtonSelected: bool
    /** `_talinTCPConnection`, by what the bridge asks of it. */
    var tcp: Tcp
    /** `_udpClient`. */
    var udp: Udp
    /** Whether `updateTimer` is raising `SendUpdate` ticks. */
    var timerRunning: bool
    /** `Core.Instance`. */
    const core: Core

    /** The object's state, as module `Bridge` describes it. */
    function State(): Bridge.State
      reads this, core
    {
      Bridge.State(updateAvailable, receivedFromTalin, retry, seqNum, stopButtonSelected, tcp, udp,
                   core.platform, timerRunning)
    }

    /** `IsInMove`, on the statuses the core holds now. */
    function InMove(): bool
      reads core
    {
      IsInMove(core.elevationStatus, core.azimuthStatus)
    }

    /** `new Atalin(...)` at time `now`. */
    constructor(core: Core, now: int)
      ensures this.core == core
      ensures State() == Initial(now, core.platform)
    {
      this.core := core;
      updateAvailable := false;
      receivedFromTalin := false;
      retry := now;
      seqNum := 0;
      stopButtonSelected := false;
      tcp := Tcp(true, false);
      udp := NoUdpClient;
      timerRunning := false;
    }

    method Start()
      modifies this
      ensures State() == Bridge.Start(old(State()))
    {
      timerRunning := true;
      stopButtonSelected := false;
      udp := UdpOpen;
    }

    /** `ok` is false when `_udpClient.Close()` throws because `Start` never made one. */
    method Stop() returns (ok: bool)
      modifies this
      ensures (State(), ok) == Bridge.Stop(old(State()))
    {
      tcp := ClosedTcp;
      if udp == NoUdpClient {
        return false;
      }
      udp := UdpClosed;
      stopButtonSelected := true;
      return true;
    }

    method TriggerUpdate()
      modifies this
      ensures State() == Bridge.TriggerUpdate(old(State()))
    {
      if !receivedFromTalin {
        updateAvailable := true;
      }
    }

    /**
     * One timer tick at time `now`. `senderPresent`, the two scaled angles and
     * `connects` stand for what the UDP connection, the core's position and the
     * network give the callback.
     */
    method SendUpdate(now: int, senderPresent: bool, azimuth1000: bv32, elevation1000: bv32, connects: bool)
      returns (sent: Option<seq<byte>>, connectAttempted: bool)
      modifies this
      ensures Tick(State(), sent, connectAttempted)
        == Bridge.SendUpdate(old(State()), now, senderPresent, azimuth1000, elevation1000, connects)
    {
      sent := None;
      connectAttempted := false;
      if updateAvailable {
        if senderPresent {
          var data := BuildUpdateDatagram(azimuth1000, elevation1000);
          sent := Some(data[..]);
        }
        updateAvailable := false;
      }
      if !tcp.hasSocket {
        return;
      }
      if !tcp.connected && retry + RetryMs < now {
        retry := now;
        tcp := Tcp(true, false);
        if !stopButtonSelected {
          connectAttempted := true;
          tcp := Tcp(true, connects);
        }
      } else if tcp.connected && retry + RetryMs < now {
        retry := now;
      }
    }

    /** `GetPar`: the frame written, if one was, for a write that ends as `outcome` says. */
    method GetPar(outcome: WriteOutcome) returns (written: Option<seq<byte>>)
      modifies this
      ensures State() == Bridge.GetPar(old(State()), outcome).next
      ensures written.Some? <==> Bridge.GetPar(old(State()), outcome).sentFor.Some?
      ensures written.Some? ==> written.value == ParRequest(WireBits(old(seqNum)))
    {
      written := None;
      if tcp.connected {
        var frame := RequestFrame(seqNum);
        written := Some(frame);
        CountRequest(outcome);
      }
    }

    /** What follows the write in `GetPar`: the socket error handler and `seqNum++`. */
    method CountRequest(outcome: WriteOutcome)
      requires tcp.connected
      modifies this
      ensures State() == Bridge.GetPar(old(State()), outcome).next
    {
      match outcome {
        case OtherFault =>
          tcp := tcp.(connected := false);
          return;
        case SocketFault => tcp := ClosedTcp;
        case Written =>
      }
      seqNum := Increment(seqNum);
    }

    /**
     * The body of `Listen`'s read loop once `count` bytes have arrived at time
     * `now`: a PAR data message's attitude goes through the gate, and any message
     * resets `retry`.
     */
    method HandleMessage(received: array<byte>, pitchBytes: array<byte>, yawBytes: array<byte>, now: int, inMove: bool)
      requires received.Length == ReceiveBufferSize && pitchBytes.Length == 8 && yawBytes.Length == 8
      requires pitchBytes != yawBytes && received != pitchBytes && received != yawBytes
      modifies this, core, pitchBytes, yawBytes
      ensures State() == ListenStep(old(State()), received[..], now, inMove)
      ensures core.elevationStatus == old(core.elevationStatus) && core.azimuthStatus == old(core.azimuthStatus)
    {
      var messageId := MessageId(received[..]);
      if messageId == ParDataMsgId {
        var pitch, yaw := ReadPitchYaw(received, pitchBytes, yawBytes);
        if inMove {
          core.platform := Platform(RadiansAsMils(pitch), RadiansAsMils(yaw));
          receivedFromTalin := true;
        } else {
          receivedFromTalin := false;
        }
      }
      retry := now;
    }

    /** One read of `Listen`'s loop into the reused receive buffer, and what follows it. */
    method HandleRead(e: ReadEvent, received: array<byte>, pitchBytes: array<byte>, yawBytes: array<byte>, inMove: bool)
      returns (more: bool)
      requires ReadFits(e)
      requires received.Length == ReceiveBufferSize && pitchBytes.Length == 8 && yawBytes.Length == 8
      requires pitchBytes != yawBytes && received != pitchBytes && received != yawBytes
      modifies this, core, received, pitchBytes, yawBytes
      ensures Step(State(), received[..], more) == ListenEvent(old(State()), old(received[..]), e, inMove)
      ensures core.elevationStatus == old(core.elevationStatus) && core.azimuthStatus == old(core.azimuthStatus)
    {
      match e {
        case EndOfStream =>
          return false;
        case ReadFault(socketError) =>
          if socketError {
            tcp := ClosedTcp;
          }
          return false;
        case Data(chunk, now) =>
          BlockCopy(chunk, 0, received, 0, |chunk|);
          assert received[..] == AfterRead(old(received[..]), chunk) by {
            assert chunk[0..|chunk|] == chunk && old(received[..])[..0] == [];
          }
          HandleMessage(received, pitchBytes, yawBytes, now, inMove);
          return true;
      }
    }

    /**
     * `Listen` over the reads `events`. The receive buffer is zero-filled once and
     * reused by every read; the pitch and yaw buffers are reused by every message.
     */
    method Listen(events: seq<ReadEvent>)
      requires ReadsFit(events)
      modifies this, core
      ensures State() == Bridge.Listen(old(State()), events, old(InMove()))
      ensures core.elevationStatus == old(core.elevationStatus) && core.azimuthStatus == old(core.azimuthStatus)
    {
      if !tcp.connected || stopButtonSelected {
        return;
      }
      var received := new byte[ReceiveBufferSize](_ => 0);
      var pitchBytes := new byte[8];
      var yawBytes := new byte[8];
      assert received[..] == EmptyBuffer();
      ReadLoop(events, received, pitchBytes, yawBytes, InMove());
    }

    /** `Listen`'s read loop, on its receive buffer and its pitch and yaw buffers. */
    method ReadLoop(events: seq<ReadEvent>, received: array<byte>, pitchBytes: array<byte>, yawBytes: array<byte>,
                    inMove: bool)
      requires ReadsFit(events)
      requires received.Length == ReceiveBufferSize && pitchBytes.Length == 8 && yawBytes.Length == 8
      requires pitchBytes != yawBytes && received != pitchBytes && received != yawBytes
      modifies this, core, received, pitchBytes, yawBytes
      ensures State() == ListenLoop(old(State()), old(received[..]), events, inMove)
      ensures core.elevationStatus == old(core.elevationStatus) && core.azimuthStatus == old(core.azimuthStatus)
    {
      var i := 0;
      while i < |events|
        invariant 0 <= i <= |events|
        invariant ReadsFit(events[i..])
        invariant core.elevationStatus == old(core.elevationStatus) && core.azimuthStatus == old(core.azimuthStatus)
        invariant ListenLoop(State(), received[..], events[i..], inMove)
          == ListenLoop(old(State()), old(received[..]), events, inMove)
        decreases |events| - i
      {
        assert events[i..][0] == events[i] && ReadFits(events[i]);
        ReadsFitTail(events[i..]);
        assert events[i..][1..] == events[i + 1..];
        var more := HandleRead(events[i], received, pitchBytes, yawBytes, inMove);
        if !more {
          return;
        }
        i := i + 1;
      }
    }

    /**
     * One pass of `ReceiveGunDriveDataAsync`'s loop on the datagram `received`:
     * the four fields are reversed in the received buffer, and only a 20-byte
     * datagram is read and goes through the gate.
     */
    method ReceiveDatagram(received: seq<byte>, inMove: bool)
      modifies this, core
      ensures State() == Bridge.ReceiveDatagram(old(State()), received, inMove)
      ensures core.elevationStatus == old(core.elevationStatus) && core.azimuthStatus == old(core.azimuthStatus)
    {
      var sample := ReadDatagram(received);
      if sample.Some? {
        if inMove {
          core.platform := Platform(Single(sample.value.pitch), Single(sample.value.azimuth));
          receivedFromTalin := true;
        } else {
          receivedFromTalin := false;
        }
      }
    }

    /** The receive loop, over the datagrams that arrive while the stop flag is clear. */
    method ReceiveGunDriveData(datagrams: seq<seq<byte>>)
      modifies this, core
      ensures State() == ReceiveAll(old(State()), datagrams, old(InMove()))
      ensures core.elevationStatus == old(core.elevationStatus) && core.azimuthStatus == old(core.azimuthStatus)
    {
      ghost var st0 := State();
      var inMove := InMove();
      var i := 0;
      while i < |datagrams| && !stopButtonSelected
        invariant 0 <= i <= |datagrams|
        invariant inMove == InMove()
        invariant core.elevationStatus == old(core.elevationStatus) && core.azimuthStatus == old(core.azimuthStatus)
        invariant ReceiveAll(State(), datagrams[i..], inMove) == ReceiveAll(st0, datagrams, inMove)
        decreases |datagrams| - i
      {
        assert datagrams[i..][0] == datagrams[i] && datagrams[i..][1..] == datagrams[i + 1..];
        ReceiveDatagram(datagrams[i], inMove);
        i := i + 1;
      }
    }
  }
}
