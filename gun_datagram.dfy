/**
 * The 20-byte gun-position datagram the aTALIN sends over UDP, as both the
 * bridge (`ReceiveGunDriveDataAsync`) and the standalone receiver read it.
 *
 * On the wire: the sequence number and the validity word, each a 16-bit value
 * least significant byte first, then the timestamp (ms), azimuth, pitch and
 * roll, each a 32-bit field most significant byte first; the last three are
 * IEEE singles. The readers reverse each 4-byte field in place and then read
 * every field with `BitConverter`, which is little-endian on the host.
 */
module GunDatagram {
  import opened Bytes

  const DatagramSize := 20

  /**
   * The fields of one datagram. The three angles are the bit patterns of the
   * singles `BitConverter.ToSingle` makes of them.
   */
  datatype GunSample = GunSample(
    sequenceNumber: bv16,
    validity: bv16,
    timestamp: bv32,
    azimuth: bv32,
    pitch: bv32,
    roll: bv32)

  // ---------------------------------------------------------------------------
  // Reversing the four 4-byte fields
  // ---------------------------------------------------------------------------

  /**
   * What `Array.Reverse(data, at, 4)` leaves: the field at `at` reversed when it
   * lies inside the buffer; otherwise the call throws and the buffer is as it was.
   */
  function ReverseField<T>(s: seq<T>, at: nat): (r: seq<T>)
    ensures |r| == |s|
  {
    if at + 4 <= |s| then s[..at] + Reverse(s[at..at + 4]) + s[at + 4..] else s
  }

  /** The four reversals at 4, 8, 12 and 16, in that order. */
  function FieldsReversed<T>(s: seq<T>): (r: seq<T>)
    ensures |r| == |s|
  {
    ReverseField(ReverseField(ReverseField(ReverseField(s, 4), 8), 12), 16)
  }

  lemma ReverseFieldAt<T>(s: seq<T>, at: nat, k: nat)
    requires k < |s|
    ensures ReverseField(s, at)[k] == if at + 4 <= |s| && at <= k < at + 4 then s[2 * at + 3 - k] else s[k]
  {
    if at + 4 <= |s| {
      var front, field, back := s[..at], s[at..at + 4], s[at + 4..];
      var middle := Reverse(field);
      assert ReverseField(s, at) == (front + middle) + back;
      if k < at + 4 {
        assert ((front + middle) + back)[k] == (front + middle)[k];
        if at <= k {
          assert middle[k - at] == field[3 - (k - at)];
        }
      } else {
        assert ((front + middle) + back)[k] == back[k - at - 4];
      }
    }
  }

  lemma ReverseFieldTwice<T>(s: seq<T>, at: nat)
    ensures ReverseField(ReverseField(s, at), at) == s
  {
    if at + 4 <= |s| {
      var front, field, back := s[..at], s[at..at + 4], s[at + 4..];
      var t := front + Reverse(field) + back;
      assert t[..at] == front && t[at..at + 4] == Reverse(field) && t[at + 4..] == back;
      ReverseReverse(field);
      assert s == front + field + back;
    }
  }

  /** Reversals of two fields that do not overlap can be done in either order. */
  lemma ReverseFieldsCommute<T>(s: seq<T>, a: nat, b: nat)
    requires a + 4 <= b
    ensures ReverseField(ReverseField(s, a), b) == ReverseField(ReverseField(s, b), a)
  {
    var l := ReverseField(ReverseField(s, a), b);
    var r := ReverseField(ReverseField(s, b), a);
    forall k | 0 <= k < |s| ensures l[k] == r[k] {
      ReverseFieldAt(ReverseField(s, a), b, k);
      ReverseFieldAt(ReverseField(s, b), a, k);
      if b + 4 <= |s| && b <= k < b + 4 {
        ReverseFieldAt(s, a, 2 * b + 3 - k);
        ReverseFieldAt(s, b, k);
      } else if a + 4 <= |s| && a <= k < a + 4 {
        ReverseFieldAt(s, b, 2 * a + 3 - k);
        ReverseFieldAt(s, a, k);
      } else {
        ReverseFieldAt(s, a, k);
        ReverseFieldAt(s, b, k);
      }
    }
  }

  /** Reversing the fields twice gives back the buffer, whatever its length. */
  lemma FieldsReversedTwice<T>(s: seq<T>)
    ensures FieldsReversed(FieldsReversed(s)) == s
  {
    UndoField4(s);
    UndoField8(s);
    UndoField12(s);
    ReverseFieldTwice(s, 16);
  }

  lemma UndoField4<T>(s: seq<T>)
    ensures ReverseField(FieldsReversed(s), 4) == ReverseField(ReverseField(ReverseField(s, 8), 12), 16)
  {
    var a := ReverseField(s, 4);
    var b := ReverseField(a, 8);
    var c := ReverseField(b, 12);
    ReverseFieldsCommute(c, 4, 16);
    ReverseFieldsCommute(b, 4, 12);
    ReverseFieldsCommute(a, 4, 8);
    ReverseFieldTwice(s, 4);
  }

  lemma UndoField8<T>(s: seq<T>)
    ensures ReverseField(ReverseField(ReverseField(ReverseField(s, 8), 12), 16), 8)
      == ReverseField(ReverseField(s, 12), 16)
  {
    var b := ReverseField(s, 8);
    var c := ReverseField(b, 12);
    ReverseFieldsCommute(c, 8, 16);
    ReverseFieldsCommute(b, 8, 12);
    ReverseFieldTwice(s, 8);
  }

  lemma UndoField12<T>(s: seq<T>)
    ensures ReverseField(ReverseField(ReverseField(s, 12), 16), 12) == ReverseField(s, 16)
  {
    var c := ReverseField(s, 12);
    ReverseFieldsCommute(c, 12, 16);
    ReverseFieldTwice(s, 12);
  }

  /** Reversing the field at `at` of a buffer whose first `at` items are `p`. */
  lemma ReverseFieldStep<T>(p: seq<T>, s: seq<T>, at: nat)
    requires |p| == at && at + 4 <= |s|
    ensures ReverseField(p + s[at..], at) == (p + Reverse(s[at..at + 4])) + s[at + 4..]
  {
    var t := p + s[at..];
    assert t[..at] == p;
    assert t[at..at + 4] == s[at..at + 4];
    assert t[at + 4..] == s[at + 4..];
  }

  /** On a whole datagram the four reversals leave bytes 0..3 and 20.. alone and reverse each field. */
  lemma FieldsReversedForm<T>(s: seq<T>)
    requires |s| >= DatagramSize
    ensures FieldsReversed(s)
      == s[..4] + Reverse(s[4..8]) + Reverse(s[8..12]) + Reverse(s[12..16]) + Reverse(s[16..20]) + s[20..]
  {
    var p1 := s[..4] + Reverse(s[4..8]);
    var p2 := p1 + Reverse(s[8..12]);
    var p3 := p2 + Reverse(s[12..16]);
    assert s == s[..4] + s[4..];
    ReverseFieldStep(s[..4], s, 4);
    ReverseFieldStep(p1, s, 8);
    ReverseFieldStep(p2, s, 12);
    ReverseFieldStep(p3, s, 16);
  }

  // ---------------------------------------------------------------------------
  // Reading and writing the fields
  // ---------------------------------------------------------------------------

  /** The `BitConverter` reads at offsets 0, 2, 4, 8, 12 and 16 of the reversed buffer. */
  function ReadFields(r: seq<byte>): GunSample
    requires |r| >= DatagramSize
  {
    GunSample(ToUInt16(r[0..2]), ToUInt16(r[2..4]), ToUInt32(r[4..8]),
              ToUInt32(r[8..12]), ToUInt32(r[12..16]), ToUInt32(r[16..20]))
  }

  /** The datagram's fields: reverse in place, then read. */
  function Decode(s: seq<byte>): GunSample
    requires |s| >= DatagramSize
  {
    ReadFields(FieldsReversed(s))
  }

  /** The datagram a sender puts on the wire for `g`. */
  function Encode(g: GunSample): (s: seq<byte>)
    ensures |s| == DatagramSize
  {
    LE16(g.sequenceNumber) + LE16(g.validity) + BE32(g.timestamp) + BE32(g.azimuth) + BE32(g.pitch) + BE32(g.roll)
  }

  /**
   * What the fields mean on the wire: sequence number and validity are the
   * little-endian values of the untouched bytes 0..1 and 2..3, and the timestamp
   * and the three angles are the big-endian words of the original bytes; only
   * the first 20 bytes are read.
   */
  lemma DecodeReadsWire(s: seq<byte>)
    requires |s| >= DatagramSize
    ensures Decode(s) == GunSample(ToUInt16(s[0..2]), ToUInt16(s[2..4]), FromBE32(s[4..8]),
                                  FromBE32(s[8..12]), FromBE32(s[12..16]), FromBE32(s[16..20]))
  {
    FieldsReversedForm(s);
    ReadFieldsOfParts(s[..4], Reverse(s[4..8]), Reverse(s[8..12]), Reverse(s[12..16]), Reverse(s[16..20]), s[20..]);
    assert s[..4][0..2] == s[0..2] && s[..4][2..4] == s[2..4];
    ToUInt32OfReverse(s[4..8]);
    ToUInt32OfReverse(s[8..12]);
    ToUInt32OfReverse(s[12..16]);
    ToUInt32OfReverse(s[16..20]);
  }

  lemma ReadFieldsOfParts(h: seq<byte>, a: seq<byte>, b: seq<byte>, c: seq<byte>, d: seq<byte>, t: seq<byte>)
    requires |h| == |a| == |b| == |c| == |d| == 4
    ensures ReadFields(h + a + b + c + d + t)
      == GunSample(ToUInt16(h[0..2]), ToUInt16(h[2..4]), ToUInt32(a), ToUInt32(b), ToUInt32(c), ToUInt32(d))
  {
    var r := h + a + b + c + d + t;
    assert r[0..2] == h[0..2] && r[2..4] == h[2..4];
    assert r[4..8] == a && r[8..12] == b;
    assert r[12..16] == c && r[16..20] == d;
  }

  /** A buffer longer than a datagram decodes as its first 20 bytes. */
  lemma DecodeFirstTwenty(s: seq<byte>)
    requires |s| >= DatagramSize
    ensures Decode(s) == Decode(s[..DatagramSize])
  {
    DecodeReadsWire(s);
    DecodeReadsWire(s[..DatagramSize]);
    PrefixParts(s, s[..DatagramSize]);
  }

  lemma PrefixParts<T>(s: seq<T>, t: seq<T>)
    requires |s| >= DatagramSize && t == s[..DatagramSize]
    ensures t[0..2] == s[0..2] && t[2..4] == s[2..4] && t[4..8] == s[4..8]
    ensures t[8..12] == s[8..12] && t[12..16] == s[12..16] && t[16..20] == s[16..20]
  {
  }

  /** The six pieces of a datagram laid end to end. */
  lemma Parts<T>(a: seq<T>, b: seq<T>, c: seq<T>, d: seq<T>, e: seq<T>, f: seq<T>)
    requires |a| == |b| == 2 && |c| == |d| == |e| == |f| == 4
    ensures var s := a + b + c + d + e + f;
      s[0..2] == a && s[2..4] == b && s[4..8] == c && s[8..12] == d && s[12..16] == e && s[16..20] == f
  {
    var s := a + b + c + d + e + f;
    assert s[0..2] == a && s[2..4] == b && s[4..8] == c;
    assert s[8..12] == d && s[12..16] == e && s[16..20] == f;
  }

  /** Every sample survives the trip over the wire. */
  lemma DecodeEncode(g: GunSample)
    ensures Decode(Encode(g)) == g
  {
    var s := Encode(g);
    DecodeReadsWire(s);
    Parts(LE16(g.sequenceNumber), LE16(g.validity), BE32(g.timestamp), BE32(g.azimuth), BE32(g.pitch), BE32(g.roll));
    LE16RoundTrip(g.sequenceNumber);
    LE16RoundTrip(g.validity);
    BE32RoundTrip(g.timestamp);
    BE32RoundTrip(g.azimuth);
    BE32RoundTrip(g.pitch);
    BE32RoundTrip(g.roll);
  }

  /** And every 20-byte datagram is the encoding of what it decodes to. */
  lemma EncodeDecode(s: seq<byte>)
    requires |s| == DatagramSize
    ensures Encode(Decode(s)) == s
  {
    DecodeReadsWire(s);
    FromLE16RoundTrip(s[0..2]);
    FromLE16RoundTrip(s[2..4]);
    FromBE32RoundTrip(s[4..8]);
    FromBE32RoundTrip(s[8..12]);
    FromBE32RoundTrip(s[12..16]);
    FromBE32RoundTrip(s[16..20]);
    Whole(s);
  }

  lemma Whole<T>(s: seq<T>)
    requires |s| == DatagramSize
    ensures s == s[0..2] + s[2..4] + s[4..8] + s[8..12] + s[12..16] + s[16..20]
  {
  }

  // ---------------------------------------------------------------------------
  // The in-place reversal
  // ---------------------------------------------------------------------------

  /** `Array.Reverse(data, at, 4)`; `ok` is false where .NET throws. */
  method ReverseFieldInPlace(data: array<byte>, at: nat) returns (ok: bool)
    modifies data
    ensures ok <==> at + 4 <= data.Length
    ensures data[..] == ReverseField(old(data[..]), at)
  {
    ok := ReverseRange(data, at, 4);
  }

  /**
   * The four `Array.Reverse(data, 4k, 4)` calls; `ok` is false when one of them
   * throws, which happens for any buffer shorter than a datagram. The buffer is
   * then left with the fields before the failing one reversed.
   */
  method ReverseFields(data: array<byte>) returns (ok: bool)
    modifies data
    ensures ok <==> data.Length >= DatagramSize
    ensures data[..] == FieldsReversed(old(data[..]))
  {
    ok := ReverseFieldInPlace(data, 4);
    if ok {
      ok := ReverseFieldInPlace(data, 8);
    }
    if ok {
      ok := ReverseFieldInPlace(data, 12);
    }
    if ok {
      ok := ReverseFieldInPlace(data, 16);
    }
  }
}
