/**
 * The standalone gun-position receiver: a console loop that reads one UDP
 * datagram at a time, reverses its four 4-byte fields in place, reads the
 * fields, prints the sample only when its timestamp lies in a 5000 ms window
 * that starts at the previous datagram's timestamp, and then moves the window.
 *
 * `lastTimestamp` is a `UInt32` and `lastTimestamp + 5000` is unchecked
 * `uint` arithmetic: both are modelled on `uint32`, with the wrap written out.
 */
module GunPositionReceiver {
  import opened Bytes
  import opened GunDatagram

  /** What one pass of the loop prints. */
  datatype Outcome =
    | Shown(sample: GunSample)  // the six fields are printed
    | Invalid                   // "Received invalid gun position data message"
    | Failed                    // an exception was caught ("Error receiving ...")

  newtype uint32 = x: int | 0 <= x < 0x1_0000_0000

  /** The `UInt32` a 32-bit field holds. */
  function Value(w: bv32): uint32 {
    w as int as uint32
  }

  /** Unchecked `uint` addition: the sum modulo 2^32. */
  function WrappingAdd(a: uint32, b: uint32): (r: uint32)
    ensures r as int == if a as int + b as int < 0x1_0000_0000 then a as int + b as int else a as int + b as int - 0x1_0000_0000
  {
    ((a as int + b as int) % 0x1_0000_0000) as uint32
  }

  /** The window test of the source. */
  predicate Accepts(last: uint32, timestamp: uint32) {
    timestamp >= last && timestamp < WrappingAdd(last, 5000)
  }

  /** One datagram: its outcome and the new `lastTimestamp`. */
  function Receive(last: uint32, data: seq<byte>): (Outcome, uint32) {
    if |data| < DatagramSize then
      (Failed, last)
    else
      var g := Decode(data);
      var timestamp := Value(g.timestamp);
      (if Accepts(last, timestamp) then Shown(g) else Invalid, timestamp)
  }

  /** The loop over `datagrams` in arrival order with the pass `step`, starting from `lastTimestamp == last`. */
  function Fold(step: (uint32, seq<byte>) -> (Outcome, uint32), last: uint32, datagrams: seq<seq<byte>>)
    : (seq<Outcome>, uint32)
  {
    if |datagrams| == 0 then
      ([], last)
    else
      var (outcomes, l) := Fold(step, last, datagrams[..|datagrams| - 1]);
      var (o, l') := step(l, datagrams[|datagrams| - 1]);
      (outcomes + [o], l')
  }

  /** The datagrams in arrival order, starting from `lastTimestamp == last`. */
  function Run(last: uint32, datagrams: seq<seq<byte>>): (seq<Outcome>, uint32) {
    Fold(Receive, last, datagrams)
  }

  // ---------------------------------------------------------------------------
  // The window
  // ---------------------------------------------------------------------------

  /**
   * The window in unbounded arithmetic: a timestamp is accepted iff it lies in
   * [last, last + 5000) and that interval does not cross 2^32. When the sum
   * wraps, the upper bound is a small number below `last` and nothing passes.
   */
  lemma AcceptsIff(last: uint32, timestamp: uint32)
    ensures Accepts(last, timestamp) <==>
      last as int + 5000 < 0x1_0000_0000 && last <= timestamp && timestamp as int < last as int + 5000
  {
  }

  /** Once `lastTimestamp` is within 5000 of 2^32, no datagram is accepted. */
  lemma NothingAcceptedNearWrap(last: uint32, timestamp: uint32)
    requires last as int >= 0x1_0000_0000 - 5000
    ensures !Accepts(last, timestamp)
  {
    AcceptsIff(last, timestamp);
  }

  /** `lastTimestamp` starts at 0: the first datagram passes iff its timestamp is below 5000. */
  lemma FirstDatagram(timestamp: uint32)
    ensures Accepts(0, timestamp) <==> timestamp as int < 5000
  {
    AcceptsIff(0, timestamp);
  }

  /** A datagram repeating the last timestamp passes iff the window does not wrap. */
  lemma RepeatedTimestamp(last: uint32)
    ensures Accepts(last, last) <==> last as int < 0x1_0000_0000 - 5000
  {
    AcceptsIff(last, last);
  }

  // ---------------------------------------------------------------------------
  // One datagram
  // ---------------------------------------------------------------------------

  /**
   * A datagram shorter than 20 bytes fails in the reversal and leaves
   * `lastTimestamp` alone. Any other is read from its first 20 bytes: the
   * timestamp is the big-endian word at bytes 4..7, it becomes the new
   * `lastTimestamp` whether or not it passed, and the sample is shown iff it
   * passed the window.
   */
  lemma ReceiveEffect(last: uint32, data: seq<byte>)
    ensures var (o, l) := Receive(last, data);
      if |data| < DatagramSize then
        o == Failed && l == last
      else
        var ts := Value(FromBE32(data[4..8]));
        l == ts &&
        (o.Shown? <==> Accepts(last, ts)) &&
        (o.Shown? ==> o.sample == Decode(data[..DatagramSize])) &&
        (!o.Shown? ==> o == Invalid)
  {
    if |data| >= DatagramSize {
      DecodeReadsWire(data);
      DecodeFirstTwenty(data);
    }
  }

  /** A longer buffer has the same effect as its first 20 bytes. */
  lemma ReceiveFirstTwenty(last: uint32, data: seq<byte>)
    requires |data| >= DatagramSize
    ensures Receive(last, data) == Receive(last, data[..DatagramSize])
  {
    DecodeFirstTwenty(data);
  }

  /** The datagram a sender encodes for a sample is shown iff its timestamp passes. */
  lemma ReceiveEncoded(last: uint32, g: GunSample)
    ensures var ts := Value(g.timestamp);
      Receive(last, Encode(g)) == (if Accepts(last, ts) then Shown(g) else Invalid, ts)
  {
    DecodeEncode(g);
  }

  // ---------------------------------------------------------------------------
  // A run of datagrams
  // ---------------------------------------------------------------------------

  /** The index of the last datagram of at least 20 bytes among the first `n`, if any. */
  function LastParsed(datagrams: seq<seq<byte>>, n: nat): (r: int)
    requires n <= |datagrams|
    ensures -1 <= r < n
    ensures r >= 0 ==> |datagrams[r]| >= DatagramSize
    ensures forall j :: r < j < n ==> |datagrams[j]| < DatagramSize
  {
    if n == 0 then -1
    else if |datagrams[n - 1]| >= DatagramSize then n - 1
    else LastParsed(datagrams, n - 1)
  }

  /** A datagram fails exactly when it is shorter than 20 bytes. */
  lemma ReceiveFails(last: uint32, data: seq<byte>)
    ensures Receive(last, data).0.Failed? <==> |data| < DatagramSize
    ensures |data| < DatagramSize ==> Receive(last, data).1 == last
  {
  }

  /** The timestamp a datagram of at least 20 bytes carries: the big-endian word at bytes 4..7. */
  function TimestampOf(data: seq<byte>): uint32
    requires |data| >= DatagramSize
  {
    Value(FromBE32(data[4..8]))
  }

  lemma ReceiveTimestamp(last: uint32, data: seq<byte>)
    requires |data| >= DatagramSize
    ensures Receive(last, data).1 == TimestampOf(data)
  {
    DecodeReadsWire(data);
  }

  /** After a run there is one outcome per datagram, and it is `Failed` exactly for the short ones. */
  lemma RunOutcomes(last: uint32, datagrams: seq<seq<byte>>)
    ensures var outcomes := Run(last, datagrams).0;
      |outcomes| == |datagrams| &&
      forall i :: 0 <= i < |datagrams| ==> (outcomes[i].Failed? <==> |datagrams[i]| < DatagramSize)
  {
    forall l, d ensures Receive(l, d).0.Failed? <==> |d| < DatagramSize {
      ReceiveFails(l, d);
    }
    FoldOutcomes(Receive, last, datagrams);
  }

  lemma {:induction false} FoldOutcomes(step: (uint32, seq<byte>) -> (Outcome, uint32), last: uint32,
                                        datagrams: seq<seq<byte>>)
    requires forall l, d :: step(l, d).0.Failed? <==> |d| < DatagramSize
    ensures var outcomes := Fold(step, last, datagrams).0;
      |outcomes| == |datagrams| &&
      forall i :: 0 <= i < |datagrams| ==> (outcomes[i].Failed? <==> |datagrams[i]| < DatagramSize)
    decreases |datagrams|
  {
    if |datagrams| > 0 {
      var n := |datagrams| - 1;
      var front := datagrams[..n];
      FoldOutcomes(step, last, front);
      var (outcomes, l) := Fold(step, last, front);
      var all := Fold(step, last, datagrams).0;
      assert all == outcomes + [step(l, datagrams[n]).0];
      forall i | 0 <= i < |datagrams|
        ensures all[i].Failed? <==> |datagrams[i]| < DatagramSize
      {
        if i < n {
          assert all[i] == outcomes[i] && front[i] == datagrams[i];
        }
      }
    }
  }

  /**
   * After a run `lastTimestamp` is the timestamp of the last datagram that
   * could be read, accepted or not, and still the initial value when there
   * was none.
   */
  lemma RunLastTimestamp(last: uint32, datagrams: seq<seq<byte>>)
    ensures var k := LastParsed(datagrams, |datagrams|);
      Run(last, datagrams).1 == if k < 0 then last else TimestampOf(datagrams[k])
  {
    forall l, d ensures Receive(l, d).1 == if |d| < DatagramSize then l else TimestampOf(d) {
      ReceiveFails(l, d);
      if |d| >= DatagramSize {
        ReceiveTimestamp(l, d);
      }
    }
    FoldLastTimestamp(Receive, last, datagrams);
  }

  lemma {:induction false} FoldLastTimestamp(step: (uint32, seq<byte>) -> (Outcome, uint32), last: uint32,
                                             datagrams: seq<seq<byte>>)
    requires forall l, d :: step(l, d).1 == if |d| < DatagramSize then l else TimestampOf(d)
    ensures var k := LastParsed(datagrams, |datagrams|);
      Fold(step, last, datagrams).1 == if k < 0 then last else TimestampOf(datagrams[k])
    decreases |datagrams|
  {
    if |datagrams| > 0 {
      var n := |datagrams| - 1;
      var front := datagrams[..n];
      FoldLastTimestamp(step, last, front);
      if |datagrams[n]| < DatagramSize {
        var k := LastParsed(datagrams, n);
        LastParsedPrefix(datagrams, n);
        if k >= 0 {
          assert front[k] == datagrams[k];
        }
      }
    }
  }

  lemma {:induction false} LastParsedPrefix(datagrams: seq<seq<byte>>, n: nat)
    requires n <= |datagrams|
    ensures LastParsed(datagrams, n) == LastParsed(datagrams[..n], n)
    decreases n
  {
    if n > 0 {
      assert datagrams[..n][n - 1] == datagrams[n - 1];
      assert datagrams[..n][..n - 1] == datagrams[..n - 1];
      LastParsedPrefix(datagrams, n - 1);
      LastParsedPrefix(datagrams[..n], n - 1);
    }
  }

  // ---------------------------------------------------------------------------
  // The loop body and the loop
  // ---------------------------------------------------------------------------

  /**
   * One pass of the loop on the array `client.Receive` returned: the reversal
   * is done in place (and is left partly done when it throws), then the fields
   * are read, the window checked and `lastTimestamp` moved.
   */
  method ReceiveOne(data: array<byte>, last: uint32) returns (outcome: Outcome, lastTimestamp: uint32)
    modifies data
    ensures (outcome, lastTimestamp) == Receive(last, old(data[..]))
    ensures data[..] == FieldsReversed(old(data[..]))
  {
    var ok := ReverseFields(data);
    if !ok {
      return Failed, last;
    }
    var sample := ReadFields(data[..]);
    var timestamp := Value(sample.timestamp);
    if timestamp >= last && timestamp < WrappingAdd(last, 5000) {
      outcome := Shown(sample);
    } else {
      outcome := Invalid;
    }
    lastTimestamp := timestamp;
  }

  /**
   * The loop of `Main` over a finite sequence of received datagrams, with
   * `lastTimestamp` starting at 0; each datagram arrives in a fresh array.
   */
  method ReceiveLoop(datagrams: seq<seq<byte>>) returns (outcomes: seq<Outcome>, lastTimestamp: uint32)
    ensures (outcomes, lastTimestamp) == Run(0, datagrams)
  {
    outcomes, lastTimestamp := [], 0;
    var i := 0;
    while i < |datagrams|
      invariant 0 <= i <= |datagrams|
      invariant (outcomes, lastTimestamp) == Run(0, datagrams[..i])
    {
      var data := new byte[|datagrams[i]|](j requires 0 <= j < |datagrams[i]| => datagrams[i][j]);
      assert data[..] == datagrams[i];
      var o;
      o, lastTimestamp := ReceiveOne(data, lastTimestamp);
      outcomes := outcomes + [o];
      assert datagrams[..i + 1][..i] == datagrams[..i];
      i := i + 1;
    }
    assert datagrams[..i] == datagrams;
  }
}
