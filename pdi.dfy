/**
 * The PDI protocol spoken with the aTALIN unit over TCP: the 56-byte parameter
 * request that `GetPar` sends and the fields `Listen` takes out of a response.
 *
 * A PDI message is a sequence of 32-bit words in network order: a nine-word
 * header starting with the start-of-message marker, the data words, and a
 * two-word footer holding the CRC of everything between the marker and the
 * CRC, then the end-of-message marker.
 */
module Pdi {
  import opened Options
  import opened Bytes
  import opened Crc

  const Som: bv32 := 0x7071_7883
  const Eom: bv32 := 0x8378_7170
  const MaxDataWords := 256
  const HeaderWords := 9
  const FooterWords := 2
  const SetupMsgId: bv32 := 8050
  const ParDataMsgId: bv32 := 9200
  const ParRequestWords: bv32 := 3
  /** `DataRate.RATE_150HZ`, the second member of an enumeration starting at 1. */
  const Rate150Hz: bv32 := 2

  /** Header, three data words and footer: 14 words. */
  const ParRequestSize := (HeaderWords + 3 + FooterWords) * 4
  /** The buffer `Listen` reads into: header, the largest data part and footer. */
  const ReceiveBufferSize := (HeaderWords + MaxDataWords + FooterWords) * 4

  // ---------------------------------------------------------------------------
  // Messages as words
  // ---------------------------------------------------------------------------

  /** The pieces `f(x)` of the elements of `xs`, one after another. */
  function FlatMap<T, U>(f: T -> seq<U>, xs: seq<T>): seq<U> {
    if xs == [] then [] else FlatMap(f, xs[..|xs| - 1]) + f(xs[|xs| - 1])
  }

  /** `s` cut into pieces of four, each read by `g`. */
  function Unflatten<T, U>(g: seq<U> -> T, s: seq<U>): (xs: seq<T>)
    requires |s| % 4 == 0
    ensures |xs| == |s| / 4
  {
    if s == [] then [] else Unflatten(g, s[..|s| - 4]) + [g(s[|s| - 4..])]
  }

  lemma {:induction false} FlatMapAppend<T, U>(f: T -> seq<U>, a: seq<T>, b: seq<T>)
    ensures FlatMap(f, a + b) == FlatMap(f, a) + FlatMap(f, b)
  {
    if b != [] {
      assert (a + b)[..|a + b| - 1] == a + b[..|b| - 1];
      FlatMapAppend(f, a, b[..|b| - 1]);
    } else {
      assert a + b == a;
    }
  }

  lemma {:induction false} FlatMapLength<T, U>(f: T -> seq<U>, xs: seq<T>)
    requires forall x :: |f(x)| == 4
    ensures |FlatMap(f, xs)| == 4 * |xs|
  {
    if xs != [] {
      FlatMapLength(f, xs[..|xs| - 1]);
    }
  }

  /** With pieces of four, piece `i` occupies positions `4 * i .. 4 * i + 4`. */
  lemma FlatMapAt<T, U>(f: T -> seq<U>, xs: seq<T>, i: nat)
    requires forall x :: |f(x)| == 4
    requires i < |xs|
    ensures |FlatMap(f, xs)| == 4 * |xs|
    ensures FlatMap(f, xs)[4 * i..4 * i + 4] == f(xs[i])
  {
    FlatMapLength(f, xs);
    FlatMapLength(f, xs[..i]);
    assert xs == xs[..i] + [xs[i]] + xs[i + 1..];
    FlatMapAppend(f, xs[..i] + [xs[i]], xs[i + 1..]);
    FlatMapAppend(f, xs[..i], [xs[i]]);
    assert FlatMap(f, [xs[i]]) == f(xs[i]) by {
      assert [xs[i]][..0] == [];
    }
  }

  lemma UnflattenSnoc<T, U>(g: seq<U> -> T, a: seq<U>, c: seq<U>)
    requires |a| % 4 == 0 && |c| == 4
    ensures Unflatten(g, a + c) == Unflatten(g, a) + [g(c)]
  {
    assert (a + c)[..|a + c| - 4] == a;
    assert (a + c)[|a + c| - 4..] == c;
  }

  /** Reading the pieces back with an inverse of `f` gives back the elements. */
  lemma {:induction false} UnflattenFlatMap<T, U>(f: T -> seq<U>, g: seq<U> -> T, xs: seq<T>)
    requires forall x :: |f(x)| == 4
    requires forall x :: g(f(x)) == x
    ensures |FlatMap(f, xs)| % 4 == 0 && Unflatten(g, FlatMap(f, xs)) == xs
  {
    FlatMapLength(f, xs);
    if xs != [] {
      var init, last := xs[..|xs| - 1], xs[|xs| - 1];
      FlatMapLength(f, init);
      UnflattenSnoc(g, FlatMap(f, init), f(last));
      UnflattenFlatMap(f, g, init);
      assert xs == init + [last];
    }
  }

  /** Writing out the pieces read by an inverse of `f` gives back the sequence. */
  lemma {:induction false} FlatMapUnflatten<T, U>(f: T -> seq<U>, g: seq<U> -> T, s: seq<U>)
    requires |s| % 4 == 0
    requires forall c :: |c| == 4 ==> f(g(c)) == c
    ensures FlatMap(f, Unflatten(g, s)) == s
  {
    if s != [] {
      var init, last := s[..|s| - 4], s[|s| - 4..];
      var xs := Unflatten(g, s);
      assert xs == Unflatten(g, init) + [g(last)];
      assert FlatMap(f, xs) == FlatMap(f, Unflatten(g, init)) + f(g(last)) by {
        assert xs[..|xs| - 1] == Unflatten(g, init);
      }
      FlatMapUnflatten(f, g, init);
      assert s == init + last;
    }
  }

  /** The words `ws` in network order, one after another. */
  function Words(ws: seq<bv32>): (f: seq<byte>)
    ensures |f| == 4 * |ws|
  {
    FlatMapLength(BE32, ws);
    FlatMap(BE32, ws)
  }

  /** The words of `f`, each read in network order. */
  function DecodeWords(f: seq<byte>): (ws: seq<bv32>)
    requires |f| % 4 == 0
    ensures |ws| == |f| / 4
  {
    Unflatten(WordOf, f)
  }

  /** The network-order word in a four-byte group. */
  function WordOf(c: seq<byte>): bv32 {
    if |c| == 4 then FromBE32(c) else 0
  }

  /** Word `i` of `ws` occupies bytes `4 * i .. 4 * i + 4`. */
  lemma WordAt(ws: seq<bv32>, i: nat)
    requires i < |ws|
    ensures |Words(ws)| == 4 * |ws|
    ensures Words(ws)[4 * i..4 * i + 4] == BE32(ws[i])
  {
    FlatMapAt(BE32, ws, i);
  }

  lemma WordsAppend(a: seq<bv32>, b: seq<bv32>)
    ensures Words(a + b) == Words(a) + Words(b)
  {
    FlatMapAppend(BE32, a, b);
  }

  lemma BE32Inverse()
    ensures forall w :: WordOf(BE32(w)) == w
  {
    forall w {
      BE32RoundTrip(w);
    }
  }

  lemma FromBE32Inverse()
    ensures forall c: seq<byte> :: |c| == 4 ==> BE32(WordOf(c)) == c
  {
    forall c: seq<byte> | |c| == 4 {
      FromBE32RoundTrip(c);
    }
  }

  /** Decoding the words of a message gives back the words. */
  lemma DecodeWordsOfWords(ws: seq<bv32>)
    ensures |Words(ws)| == 4 * |ws| && DecodeWords(Words(ws)) == ws
  {
    BE32Inverse();
    UnflattenFlatMap(BE32, WordOf, ws);
  }

  /** Re-encoding the words of a byte string gives back the byte string. */
  lemma WordsOfDecodeWords(f: seq<byte>)
    requires |f| % 4 == 0
    ensures Words(DecodeWords(f)) == f
  {
    FromBE32Inverse();
    FlatMapUnflatten(BE32, WordOf, f);
  }

  // ---------------------------------------------------------------------------
  // The parameter request
  // ---------------------------------------------------------------------------

  /**
   * Words 1..12 of a request, the span its CRC covers: message id 8050, the
   * sequence number, the transmit time and parameter words left zero, two
   * reserved words, the request length 3, a reserved word, then the id of the
   * requested message (9200) and the rate to send it at.
   */
  function BodyWords(seqNum: bv32): seq<bv32> {
    [SetupMsgId, seqNum, 0, 0, 0, 0, 0, ParRequestWords, 0, ParDataMsgId, Rate150Hz]
  }

  /** The words of the frame `GetPar` writes: start marker, body, CRC of the body, end marker. */
  function ParWords(seqNum: bv32): (ws: seq<bv32>)
    ensures |ws| == 14
  {
    [Som] + BodyWords(seqNum) + [Crc32(Words(BodyWords(seqNum))), Eom]
  }

  /** The frame `GetPar` writes for sequence number `seqNum`. */
  function ParRequest(seqNum: bv32): seq<byte> {
    Words(ParWords(seqNum))
  }

  /** Bytes 4..48 of a request are the words of its body. */
  lemma ParRequestBody(seqNum: bv32)
    ensures |ParRequest(seqNum)| == ParRequestSize
    ensures ParRequest(seqNum)[4..48] == Words(BodyWords(seqNum))
  {
    var ws := ParWords(seqNum);
    var crcWords := [Crc32(Words(BodyWords(seqNum))), Eom];
    WordsAppend([Som] + BodyWords(seqNum), crcWords);
    WordsAppend([Som], BodyWords(seqNum));
    assert Words([Som]) == BE32(Som) by {
      assert [Som][..0] == [];
    }
  }

  /** Word `i` of the request occupies bytes `4 * i .. 4 * i + 4`. */
  lemma ParRequestWord(seqNum: bv32, i: nat)
    requires i < 14
    ensures |ParRequest(seqNum)| == ParRequestSize
    ensures ParRequest(seqNum)[4 * i..4 * i + 4] == BE32(ParWords(seqNum)[i])
  {
    WordAt(ParWords(seqNum), i);
  }

  /** The constant words of a request, as bytes on the wire. */
  lemma ConstantWords()
    ensures BE32(Som) == [0x70, 0x71, 0x78, 0x83] && BE32(Eom) == [0x83, 0x78, 0x71, 0x70]
    ensures BE32(SetupMsgId) == [0x00, 0x00, 0x1F, 0x72] && BE32(ParDataMsgId) == [0x00, 0x00, 0x23, 0xF0]
    ensures BE32(ParRequestWords) == [0x00, 0x00, 0x00, 0x03] && BE32(Rate150Hz) == [0x00, 0x00, 0x00, 0x02]
    ensures BE32(0) == [0x00, 0x00, 0x00, 0x00]
  {
  }

  /** Byte by byte, where each fixed word of the request sits. */
  lemma ParRequestLayout(seqNum: bv32)
    ensures |ParRequest(seqNum)| == 56
    ensures ParRequest(seqNum)[0..4] == [0x70, 0x71, 0x78, 0x83]
    ensures ParRequest(seqNum)[4..8] == [0x00, 0x00, 0x1F, 0x72]
    ensures FromBE32(ParRequest(seqNum)[8..12]) == seqNum
    ensures ParRequest(seqNum)[32..36] == [0x00, 0x00, 0x00, 0x03]
    ensures ParRequest(seqNum)[40..44] == [0x00, 0x00, 0x23, 0xF0]
    ensures ParRequest(seqNum)[44..48] == [0x00, 0x00, 0x00, 0x02]
    ensures ParRequest(seqNum)[52..56] == [0x83, 0x78, 0x71, 0x70]
  {
    ConstantWords();
    ParRequestWord(seqNum, 0);
    ParRequestWord(seqNum, 1);
    ParRequestWord(seqNum, 2);
    BE32RoundTrip(seqNum);
    ParRequestWord(seqNum, 8);
    ParRequestWord(seqNum, 10);
    ParRequestWord(seqNum, 11);
    ParRequestWord(seqNum, 13);
  }

  lemma ZeroWord(seqNum: bv32, k: nat)
    requires 3 <= k <= 7 || k == 9
    ensures |ParRequest(seqNum)| == 56
    ensures ParRequest(seqNum)[4 * k..4 * k + 4] == [0, 0, 0, 0]
  {
    ParRequestWord(seqNum, k);
    assert ParWords(seqNum)[k] == 0;
    assert BE32(0) == [0, 0, 0, 0];
  }

  /** Bytes 12..32 and 36..40, the unused header words and the reserved data word, are zero. */
  lemma ParRequestZeros(seqNum: bv32)
    ensures |ParRequest(seqNum)| == 56
    ensures forall i :: 12 <= i < 32 || 36 <= i < 40 ==> ParRequest(seqNum)[i] == 0
  {
    var f := ParRequest(seqNum);
    forall i | 12 <= i < 32 || 36 <= i < 40
      ensures f[i] == 0
    {
      var k := i / 4;
      ZeroWord(seqNum, k);
      assert f[i] == f[4 * k..4 * k + 4][i - 4 * k];
    }
  }

  /** The CRC in bytes 48..52 is the CRC-32 of bytes 4..48: recomputing it reproduces it. */
  lemma ParRequestCrc(seqNum: bv32)
    ensures FromBE32(ParRequest(seqNum)[48..52]) == Crc32(ParRequest(seqNum)[4..48])
  {
    ParRequestBody(seqNum);
    WordAt(ParWords(seqNum), 12);
    BE32RoundTrip(Crc32(Words(BodyWords(seqNum))));
  }

  /**
   * A receiver's reading of a parameter request: the markers, the fixed words
   * and the CRC over bytes 4..48 must all be right; the result is the sequence
   * number.
   */
  function ParseParRequest(f: seq<byte>): Option<bv32>
  {
    if |f| != ParRequestSize then None
    else
      var ws := DecodeWords(f);
      if ws[0] == Som && ws[1] == SetupMsgId && ws[3..12] == BodyWords(0)[2..] &&
         ws[12] == Crc32(f[4..48]) && ws[13] == Eom
      then Some(ws[2])
      else None
  }

  /** Every request parses back to its sequence number. */
  lemma ParseParRequestOfParRequest(seqNum: bv32)
    ensures ParseParRequest(ParRequest(seqNum)) == Some(seqNum)
  {
    var ws := ParWords(seqNum);
    ParRequestBody(seqNum);
    DecodeWordsOfWords(ws);
    ParWordsFields(seqNum);
  }

  /** The words of a request, one by one, as a parser checks them. */
  lemma ParWordsFields(seqNum: bv32)
    ensures ParWords(seqNum)[0] == Som && ParWords(seqNum)[1] == SetupMsgId && ParWords(seqNum)[2] == seqNum
    ensures ParWords(seqNum)[3..12] == BodyWords(0)[2..]
    ensures ParWords(seqNum)[12] == Crc32(Words(BodyWords(seqNum))) && ParWords(seqNum)[13] == Eom
  {
    var body := BodyWords(seqNum);
    Reassemble(ParWords(seqNum), body, Crc32(Words(body)));
    assert body[2..] == BodyWords(0)[2..];
  }

  /** And only requests parse: a frame that parses is the request for what it parses to. */
  lemma ParseParRequestOnlyParRequest(f: seq<byte>, seqNum: bv32)
    requires ParseParRequest(f) == Some(seqNum)
    ensures f == ParRequest(seqNum)
  {
    var ws := DecodeWords(f);
    var body := BodyWords(seqNum);
    WordsOfDecodeWords(f);
    ParsedBody(ws, seqNum);
    WordsSlice(ws, 1, 12);
    Reassemble(ws, body, Crc32(Words(body)));
  }

  /** Words 1..12 of a frame that parses are the body for its sequence number. */
  lemma ParsedBody(ws: seq<bv32>, seqNum: bv32)
    requires |ws| == 14 && ws[1] == SetupMsgId && ws[2] == seqNum && ws[3..12] == BodyWords(0)[2..]
    ensures ws[1..12] == BodyWords(seqNum)
  {
    ConsTwo(ws[1..12]);
    ConsTwo(BodyWords(seqNum));
    assert BodyWords(seqNum)[2..] == BodyWords(0)[2..];
  }

  lemma ConsTwo<T>(s: seq<T>)
    requires |s| >= 2
    ensures s == [s[0], s[1]] + s[2..]
  {
  }

  lemma Reassemble<T>(ws: seq<T>, body: seq<T>, c: T)
    requires |ws| == 14 && ws[1..12] == body && ws[12] == c
    ensures ws == [ws[0]] + body + [c, ws[13]]
  {
  }

  /** Words `i .. j` of `ws` occupy bytes `4 * i .. 4 * j`. */
  lemma WordsSlice(ws: seq<bv32>, i: nat, j: nat)
    requires i <= j <= |ws|
    ensures Words(ws)[4 * i..4 * j] == Words(ws[i..j])
  {
    assert ws == ws[..i] + ws[i..j] + ws[j..];
    WordsAppend(ws[..i] + ws[i..j], ws[j..]);
    WordsAppend(ws[..i], ws[i..j]);
  }

  // ---------------------------------------------------------------------------
  // GetPar's frame, built in place
  // ---------------------------------------------------------------------------

  /**
   * One `Buffer.BlockCopy(bytes, offset, msg, at, 4)` of the network-order bytes
   * of `w`: the words `ws` already in front of `at` are extended by `w`.
   */
  method PutWord(msg: array<byte>, at: nat, ghost ws: seq<bv32>, bytes: seq<byte>, offset: nat, ghost w: bv32)
    requires at == 4 * |ws| && at + 4 <= msg.Length
    requires msg[..4 * |ws|] == Words(ws)
    requires offset + 4 <= |bytes| && bytes[offset..offset + 4] == BE32(w)
    modifies msg
    ensures msg[..4 * |ws| + 4] == Words(ws + [w])
  {
    BlockCopy(bytes, offset, msg, at, 4);
    assert (ws + [w])[..|ws|] == ws;
  }

  /** The first header words of `GetPar`'s frame, bytes 0..12: start marker, message id, sequence number. */
  method PutHeaderStart(msg: array<byte>, seqNum: bv32) returns (ghost ws: seq<bv32>)
    requires msg.Length == ParRequestSize
    modifies msg
    ensures ws == [Som, SetupMsgId, seqNum]
    ensures msg[..12] == Words(ws)
  {
    ws := [];
    assert msg[..0] == Words(ws);
    var w := GetNetworkBytes32(Som);
    PutWord(msg, 0, ws, w, 0, Som);
    ws := ws + [Som];
    w := GetNetworkBytes32(SetupMsgId);
    PutWord(msg, 4, ws, w, 0, SetupMsgId);
    ws := ws + [SetupMsgId];
    w := GetNetworkBytes32(seqNum);
    PutWord(msg, 8, ws, w, 0, seqNum);
    ws := ws + [seqNum];
  }

  /**
   * The rest of the header, bytes 12..36: the transmit time (two words), the
   * parameter word and two reserved words, all zero, then the request length.
   */
  method PutHeaderRest(msg: array<byte>, ghost start: seq<bv32>) returns (ghost ws: seq<bv32>)
    requires msg.Length == ParRequestSize && |start| == 3 && msg[..12] == Words(start)
    modifies msg
    ensures ws == start + [0, 0, 0, 0, 0, ParRequestWords]
    ensures msg[..36] == Words(ws)
  {
    var zero := GetBytes32(0);
    assert zero == BE32(0);
    ws := start;
    PutWord(msg, 12, ws, zero, 0, 0);
    ws := ws + [0];
    PutWord(msg, 16, ws, zero, 0, 0);
    ws := ws + [0];
    PutWord(msg, 20, ws, zero, 0, 0);
    ws := ws + [0];
    PutWord(msg, 24, ws, zero, 0, 0);
    ws := ws + [0];
    PutWord(msg, 28, ws, zero, 0, 0);
    ws := ws + [0];
    var w := GetNetworkBytes32(ParRequestWords);
    PutWord(msg, 32, ws, w, 0, ParRequestWords);
    ws := ws + [ParRequestWords];
  }

  /** The data words of `GetPar`'s frame, bytes 36..48: a reserved word, the id requested and the rate. */
  method PutData(msg: array<byte>, ghost header: seq<bv32>) returns (ghost ws: seq<bv32>)
    requires msg.Length == ParRequestSize && |header| == 9 && msg[..36] == Words(header)
    modifies msg
    ensures ws == header + [0, ParDataMsgId, Rate150Hz]
    ensures msg[..48] == Words(ws)
  {
    var zero := GetBytes32(0);
    assert zero == BE32(0);
    PutWord(msg, 36, header, zero, 0, 0);
    ws := header + [0];
    var w := GetNetworkBytes32(ParDataMsgId);
    PutWord(msg, 40, ws, w, 0, ParDataMsgId);
    ws := ws + [ParDataMsgId];
    w := GetNetworkBytes32(Rate150Hz);
    PutWord(msg, 44, ws, w, 0, Rate150Hz);
    ws := ws + [Rate150Hz];
  }

  /**
   * The body of `GetPar` that fills the 56-byte frame: each word goes in through
   * `GetBytes(HostToNetworkOrder(..))`, the zero words through `GetBytes(0)`, the
   * CRC of bytes 4..48 is computed over a copy of them, and the end marker is the
   * last four bytes of the eight-byte network-order `long` the `uint` widens to.
   */
  method BuildParRequest(seqNum: bv32) returns (msg: array<byte>)
    ensures fresh(msg)
    ensures msg[..] == ParRequest(seqNum)
  {
    msg := new byte[ParRequestSize](_ => 0);
    ghost var ws := PutHeaderStart(msg, seqNum);
    ws := PutHeaderRest(msg, ws);
    ws := PutData(msg, ws);
    ParWordsParts(seqNum);
    ws := PutCrc(msg, BodyWords(seqNum));
    var w := GetNetworkBytes64(Eom);
    PutWord(msg, 52, ws, w, 4, Eom);
    assert msg[..] == msg[..56];
  }

  lemma ParWordsParts(seqNum: bv32)
    ensures [Som, SetupMsgId, seqNum] + [0, 0, 0, 0, 0, ParRequestWords] + [0, ParDataMsgId, Rate150Hz]
      == [Som] + BodyWords(seqNum)
    ensures [Som] + BodyWords(seqNum) + [Crc32(Words(BodyWords(seqNum)))] + [Eom] == ParWords(seqNum)
  {
  }

  /** The CRC word of `GetPar`'s frame, bytes 48..52: the CRC-32 of a copy of bytes 4..48. */
  method PutCrc(msg: array<byte>, ghost body: seq<bv32>) returns (ghost ws: seq<bv32>)
    requires msg.Length == ParRequestSize && |body| == 11 && msg[..48] == Words([Som] + body)
    modifies msg
    ensures ws == [Som] + body + [Crc32(Words(body))]
    ensures msg[..52] == Words(ws)
  {
    var checkmsg := new byte[44](_ => 0);
    BlockCopy(msg[..], 4, checkmsg, 0, 44);
    WordsAppend([Som], body);
    assert checkmsg[..] == Words(body);
    var crc := PdiCrc(checkmsg);
    var w := GetNetworkBytes32(crc);
    PutWord(msg, 48, [Som] + body, w, 0, crc);
    ws := [Som] + body + [crc];
  }

  // ---------------------------------------------------------------------------
  // Fields of a response, as Listen reads them
  // ---------------------------------------------------------------------------

  /**
   * `(uint)NetworkToHostOrder((int)BitConverter.ToUInt32(buf, 4))`: the message id,
   * the second header word, in network order.
   */
  function MessageId(buf: seq<byte>): (id: bv32)
    requires |buf| >= 8
    ensures id == FromBE32(buf[4..8])
  {
    SwapOfToUInt32(buf[4..8]);
    SwapBytes32(ToUInt32(buf[4..8]))
  }

  /**
   * Words 36..37 and 38..39 of a PAR data message: body-frame pitch and yaw, each an
   * IEEE double in network order. The bytes are copied out and reversed so that
   * `BitConverter.ToDouble` on the little-endian host reads them.
   */
  method ReadAttitude(received: array<byte>, pitchBytes: array<byte>, yawBytes: array<byte>)
    requires received.Length >= 160 && pitchBytes.Length == 8 && yawBytes.Length == 8
    requires pitchBytes != yawBytes && received != pitchBytes && received != yawBytes
    modifies pitchBytes, yawBytes
    ensures pitchBytes[..] == Reverse(received[144..152])
    ensures yawBytes[..] == Reverse(received[152..160])
  {
    ghost var pitch, yaw := received[144..152], received[152..160];
    BlockCopy(received[..], 36 * 4, pitchBytes, 0, 8);
    assert pitchBytes[..] == pitch;
    BlockCopy(received[..], 38 * 4, yawBytes, 0, 8);
    assert yawBytes[..] == yaw;
    ReverseArray(pitchBytes);
    ReverseArray(yawBytes);
  }

  /** The bit patterns of the pitch and yaw doubles, as `ToDouble` reads the reversed bytes. */
  function PitchBits(buf: seq<byte>): (w: bv64)
    requires |buf| >= 160
    ensures w == FromBE64(buf[144..152])
  {
    ToUInt64OfReverse(buf[144..152]);
    ToUInt64(Reverse(buf[144..152]))
  }

  function YawBits(buf: seq<byte>): (w: bv64)
    requires |buf| >= 160
    ensures w == FromBE64(buf[152..160])
  {
    ToUInt64OfReverse(buf[152..160]);
    ToUInt64(Reverse(buf[152..160]))
  }

  /** `buf` with `w` written over it from offset `off`. */
  function Put(buf: seq<byte>, off: nat, w: seq<byte>): (r: seq<byte>)
    requires off + |w| <= |buf|
    ensures |r| == |buf| && r[off..off + |w|] == w
  {
    buf[..off] + w + buf[off + |w|..]
  }

  /**
   * The reading partner of a sender: a buffer with the message id at byte 4 and
   * pitch and yaw at bytes 144 and 152, all in network order, yields exactly them.
   */
  lemma ResponseFieldsRoundTrip(buf: seq<byte>, id: bv32, pitch: bv64, yaw: bv64)
    requires |buf| >= 160
    ensures var r := Put(Put(Put(buf, 4, BE32(id)), 144, BE64(pitch)), 152, BE64(yaw));
      MessageId(r) == id && PitchBits(r) == pitch && YawBits(r) == yaw
  {
    var r1 := Put(buf, 4, BE32(id));
    var r2 := Put(r1, 144, BE64(pitch));
    var r := Put(r2, 152, BE64(yaw));
    assert r[4..8] == r2[4..8] == r1[4..8] == BE32(id);
    assert r[144..152] == r2[144..152] == BE64(pitch);
    BE32RoundTrip(id);
    BE64RoundTrip(pitch);
    BE64RoundTrip(yaw);
  }

  /**
   * One `stream.Read(receivedBytes, 0, receivedBytes.Length)` that returned the
   * bytes `chunk`: they land at the front of the reused buffer and the rest of it
   * keeps what earlier reads (or the zero fill) left there.
   */
  function AfterRead(buf: seq<byte>, chunk: seq<byte>): (r: seq<byte>)
    requires |chunk| <= |buf|
    ensures |r| == |buf| && r[..|chunk|] == chunk && r[|chunk|..] == buf[|chunk|..]
  {
    chunk + buf[|chunk|..]
  }
}
