/**
 * Bytes, words and the two .NET buffer routines the bridge uses.
 *
 * The host is little-endian (x86), so `BitConverter.GetBytes` / `BitConverter.ToUInt32`
 * lay a word out least significant byte first, and `IPAddress.HostToNetworkOrder` /
 * `NetworkToHostOrder` swap the bytes of a word. Network order is big-endian.
 */
module Bytes {

  type byte = bv8


  // ---------------------------------------------------------------------------
  // Reversal
  // ---------------------------------------------------------------------------

  /** `s` back to front. */
  function Reverse<T>(s: seq<T>): (r: seq<T>)
    ensures |r| == |s|
    ensures forall i :: 0 <= i < |s| ==> r[i] == s[|s| - 1 - i]
  {
    if s == [] then [] else Reverse(s[1..]) + [s[0]]
  }

  lemma {:induction false} ReverseReverse<T>(s: seq<T>)
    ensures Reverse(Reverse(s)) == s
  {
    var r := Reverse(Reverse(s));
    assert |r| == |s|;
    forall i | 0 <= i < |s| ensures r[i] == s[i] {
      assert r[i] == Reverse(s)[|s| - 1 - i];
    }
  }

  // ---------------------------------------------------------------------------
  // 16-, 32- and 64-bit words
  // ---------------------------------------------------------------------------

  /** `BitConverter.GetBytes(int)` / `GetBytes(uint)`: least significant byte first. */
  function GetBytes32(w: bv32): (r: seq<byte>)
    ensures |r| == 4
  {
    [(w & 0xFF) as byte, ((w >> 8) & 0xFF) as byte, ((w >> 16) & 0xFF) as byte, ((w >> 24) & 0xFF) as byte]
  }

  /** `BitConverter.ToUInt32(s, 0)`: the word whose little-endian bytes are `s`. */
  function ToUInt32(s: seq<byte>): bv32
    requires |s| == 4
  {
    (s[0] as bv32) | ((s[1] as bv32) << 8) | ((s[2] as bv32) << 16) | ((s[3] as bv32) << 24)
  }

  /** `BitConverter.ToUInt16(s, 0)`: the value whose little-endian bytes are `s`. */
  function ToUInt16(s: seq<byte>): bv16
    requires |s| == 2
  {
    (s[0] as bv16) | ((s[1] as bv16) << 8)
  }

  /** `BitConverter.GetBytes(ushort)`: least significant byte first. */
  function LE16(v: bv16): (r: seq<byte>)
    ensures |r| == 2
  {
    [(v & 0xFF) as byte, (v >> 8) as byte]
  }

  lemma LE16RoundTrip(v: bv16)
    ensures ToUInt16(LE16(v)) == v
  {
  }

  lemma FromLE16RoundTrip(s: seq<byte>)
    requires |s| == 2
    ensures LE16(ToUInt16(s)) == s
  {
  }

  /** `IPAddress.HostToNetworkOrder(int)` (and `NetworkToHostOrder`) on a little-endian host. */
  function SwapBytes32(w: bv32): bv32 {
    ((w & 0xFF) << 24) | (((w >> 8) & 0xFF) << 16) | (((w >> 16) & 0xFF) << 8) | ((w >> 24) & 0xFF)
  }

  /** The four bytes of `w` in network order, most significant first. */
  function BE32(w: bv32): (r: seq<byte>)
    ensures |r| == 4
  {
    [((w >> 24) & 0xFF) as byte, ((w >> 16) & 0xFF) as byte, ((w >> 8) & 0xFF) as byte, (w & 0xFF) as byte]
  }

  /** The word whose network-order bytes are `s`. */
  function FromBE32(s: seq<byte>): bv32
    requires |s| == 4
  {
    ((s[0] as bv32) << 24) | ((s[1] as bv32) << 16) | ((s[2] as bv32) << 8) | (s[3] as bv32)
  }

  /** `BitConverter.GetBytes(long)`: least significant byte first. */
  function GetBytes64(w: bv64): (r: seq<byte>)
    ensures |r| == 8
  {
    [(w & 0xFF) as byte, ((w >> 8) & 0xFF) as byte, ((w >> 16) & 0xFF) as byte, ((w >> 24) & 0xFF) as byte,
     ((w >> 32) & 0xFF) as byte, ((w >> 40) & 0xFF) as byte, ((w >> 48) & 0xFF) as byte, ((w >> 56) & 0xFF) as byte]
  }

  /** `IPAddress.HostToNetworkOrder(long)` on a little-endian host. */
  function SwapBytes64(w: bv64): bv64 {
    ((w & 0xFF) << 56) | (((w >> 8) & 0xFF) << 48) | (((w >> 16) & 0xFF) << 40) | (((w >> 24) & 0xFF) << 32) |
    (((w >> 32) & 0xFF) << 24) | (((w >> 40) & 0xFF) << 16) | (((w >> 48) & 0xFF) << 8) | ((w >> 56) & 0xFF)
  }

  /** The 64-bit word whose little-endian bytes are `s` (the bit pattern `BitConverter.ToDouble` reads). */
  function ToUInt64(s: seq<byte>): bv64
    requires |s| == 8
  {
    (s[0] as bv64) | ((s[1] as bv64) << 8) | ((s[2] as bv64) << 16) | ((s[3] as bv64) << 24) |
    ((s[4] as bv64) << 32) | ((s[5] as bv64) << 40) | ((s[6] as bv64) << 48) | ((s[7] as bv64) << 56)
  }

  /** The 64-bit word whose network-order bytes are `s`. */
  function FromBE64(s: seq<byte>): bv64
    requires |s| == 8
  {
    ((s[0] as bv64) << 56) | ((s[1] as bv64) << 48) | ((s[2] as bv64) << 40) | ((s[3] as bv64) << 32) |
    ((s[4] as bv64) << 24) | ((s[5] as bv64) << 16) | ((s[6] as bv64) << 8) | (s[7] as bv64)
  }

  /** The eight bytes of `w` in network order, most significant first. */
  function BE64(w: bv64): (r: seq<byte>)
    ensures |r| == 8
  {
    [((w >> 56) & 0xFF) as byte, ((w >> 48) & 0xFF) as byte, ((w >> 40) & 0xFF) as byte, ((w >> 32) & 0xFF) as byte,
     ((w >> 24) & 0xFF) as byte, ((w >> 16) & 0xFF) as byte, ((w >> 8) & 0xFF) as byte, (w & 0xFF) as byte]
  }

  /** `BitConverter.GetBytes(HostToNetworkOrder(w))` writes `w` in network order. */
  lemma NetworkOrderBytes32(w: bv32)
    ensures GetBytes32(SwapBytes32(w)) == BE32(w)
  {
  }

  /**
   * `BitConverter.GetBytes(HostToNetworkOrder((long)w))` for a `uint` w: four zero bytes,
   * then `w` in network order.
   */
  lemma NetworkOrderBytes64(w: bv32)
    ensures GetBytes64(SwapBytes64(w as bv64)) == [0, 0, 0, 0] + BE32(w)
  {
    SwapWidened(w);
    GetBytesOfHighWord(SwapBytes32(w));
    NetworkOrderBytes32(w);
  }

  lemma SwapWidened(w: bv32)
    ensures SwapBytes64(w as bv64) == (SwapBytes32(w) as bv64) << 32
  {
  }

  lemma GetBytesOfHighWord(w: bv32)
    ensures GetBytes64((w as bv64) << 32) == [0, 0, 0, 0] + GetBytes32(w)
  {
  }

  lemma BE32RoundTrip(w: bv32)
    ensures FromBE32(BE32(w)) == w
  {
  }

  lemma FromBE32RoundTrip(s: seq<byte>)
    requires |s| == 4
    ensures BE32(FromBE32(s)) == s
  {
  }

  lemma BE64RoundTrip(w: bv64)
    ensures FromBE64(BE64(w)) == w
  {
  }

  /** Reading reversed bytes little-endian is reading the original bytes in network order. */
  lemma ToUInt32OfReverse(s: seq<byte>)
    requires |s| == 4
    ensures ToUInt32(Reverse(s)) == FromBE32(s)
  {
    var r := Reverse(s);
    assert r[0] == s[3] && r[1] == s[2] && r[2] == s[1] && r[3] == s[0];
    OrderOfBytes32(s[0], s[1], s[2], s[3]);
  }

  /** The same four bytes or-ed together from either end make the same word. */
  lemma OrderOfBytes32(b0: byte, b1: byte, b2: byte, b3: byte)
    ensures (b3 as bv32) | ((b2 as bv32) << 8) | ((b1 as bv32) << 16) | ((b0 as bv32) << 24)
         == ((b0 as bv32) << 24) | ((b1 as bv32) << 16) | ((b2 as bv32) << 8) | (b3 as bv32)
  {
  }

  lemma ToUInt64OfReverse(s: seq<byte>)
    requires |s| == 8
    ensures ToUInt64(Reverse(s)) == FromBE64(s)
  {
    var r := Reverse(s);
    assert r[0] == s[7] && r[1] == s[6] && r[2] == s[5] && r[3] == s[4];
    assert r[4] == s[3] && r[5] == s[2] && r[6] == s[1] && r[7] == s[0];
    OrderOfBytes64(s[0], s[1], s[2], s[3], s[4], s[5], s[6], s[7]);
  }

  /** The same eight bytes or-ed together from either end make the same word. */
  lemma OrderOfBytes64(b0: byte, b1: byte, b2: byte, b3: byte, b4: byte, b5: byte, b6: byte, b7: byte)
    ensures (b7 as bv64) | ((b6 as bv64) << 8) | ((b5 as bv64) << 16) | ((b4 as bv64) << 24) |
            ((b3 as bv64) << 32) | ((b2 as bv64) << 40) | ((b1 as bv64) << 48) | ((b0 as bv64) << 56)
         == ((b0 as bv64) << 56) | ((b1 as bv64) << 48) | ((b2 as bv64) << 40) | ((b3 as bv64) << 32) |
            ((b4 as bv64) << 24) | ((b5 as bv64) << 16) | ((b6 as bv64) << 8) | (b7 as bv64)
  {
  }

  /** `NetworkToHostOrder(ToUInt32(s))` is the network-order word of `s`. */
  lemma SwapOfToUInt32(s: seq<byte>)
    requires |s| == 4
    ensures SwapBytes32(ToUInt32(s)) == FromBE32(s)
  {
  }

  /** `BitConverter.GetBytes(IPAddress.HostToNetworkOrder(w))` for an `int` or `uint` w. */
  method GetNetworkBytes32(w: bv32) returns (r: seq<byte>)
    ensures r == BE32(w)
  {
    r := GetBytes32(SwapBytes32(w));
    NetworkOrderBytes32(w);
  }

  /**
   * `BitConverter.GetBytes(IPAddress.HostToNetworkOrder(w))` for a `uint` w, which
   * C# widens to `long`: eight bytes.
   */
  method GetNetworkBytes64(w: bv32) returns (r: seq<byte>)
    ensures r == [0, 0, 0, 0] + BE32(w)
  {
    r := GetBytes64(SwapBytes64(w as bv64));
    NetworkOrderBytes64(w);
  }

  // ---------------------------------------------------------------------------
  // Buffer.BlockCopy and Array.Reverse on byte arrays
  // ---------------------------------------------------------------------------

  /**
   * `Buffer.BlockCopy(src, srcOffset, dst, dstOffset, count)`: overwrites
   * `dst[dstOffset .. dstOffset + count)` with `src[srcOffset .. srcOffset + count)`.
   * Every call in the bridge stays inside both buffers, which is what `requires` says.
   */
  method BlockCopy(src: seq<byte>, srcOffset: nat, dst: array<byte>, dstOffset: nat, count: nat)
    requires srcOffset + count <= |src| && dstOffset + count <= dst.Length
    modifies dst
    ensures dst[..] == old(dst[..dstOffset]) + src[srcOffset..srcOffset + count] + old(dst[dstOffset + count..])
  {
    forall k | dstOffset <= k < dstOffset + count {
      dst[k] := src[srcOffset + (k - dstOffset)];
    }
    ghost var expected := old(dst[..dstOffset]) + src[srcOffset..srcOffset + count] + old(dst[dstOffset + count..]);
    assert |expected| == dst.Length;
    assert forall k :: 0 <= k < dst.Length ==> dst[k] == expected[k];
  }

  /** A pointwise description of reversing `before[index .. index + length)` in place. */
  lemma ReversedSplice(before: seq<byte>, after: seq<byte>, index: nat, length: nat)
    requires index + length <= |before| == |after|
    requires forall m :: 0 <= m < |after| && (m < index || index + length <= m) ==> after[m] == before[m]
    requires forall m :: index <= m < index + length ==> after[m] == before[2 * index + length - 1 - m]
    ensures after == before[..index] + Reverse(before[index..index + length]) + before[index + length..]
  {
    var mid := before[index..index + length];
    var expected := before[..index] + Reverse(mid) + before[index + length..];
    assert |expected| == |after|;
    forall m | 0 <= m < |after| ensures after[m] == expected[m] {
      if index <= m < index + length {
        assert expected[m] == Reverse(mid)[m - index];
      }
    }
  }

  /**
   * `Array.Reverse(a, index, length)`: reverses `a[index .. index + length)` in place.
   * When the range does not lie inside the array the call throws before touching it;
   * that is `ok == false` here.
   */
  method ReverseRange(a: array<byte>, index: int, length: int) returns (ok: bool)
    modifies a
    ensures ok <==> 0 <= index && 0 <= length && index + length <= a.Length
    ensures ok ==> a[..] == old(a[..index]) + Reverse(old(a[index..index + length])) + old(a[index + length..])
    ensures !ok ==> a[..] == old(a[..])
  {
    if index < 0 || length < 0 || a.Length - index < length {
      return false;
    }
    var last := index + length - 1;
    var k := 0;
    while k < length / 2
      invariant 0 <= k <= length / 2
      invariant a[..index] == old(a[..index]) && a[index + length..] == old(a[index + length..])
      invariant forall m :: index <= m < index + k ==> a[m] == old(a[index + last - m])
      invariant forall m :: last - k < m <= last ==> a[m] == old(a[index + last - m])
      invariant forall m :: index + k <= m <= last - k ==> a[m] == old(a[m])
    {
      a[index + k], a[last - k] := a[last - k], a[index + k];
      k := k + 1;
    }
    ReversedSplice(old(a[..]), a[..], index, length);
    return true;
  }

  /** `Array.Reverse(a)`: the whole array reversed in place. */
  method ReverseArray(a: array<byte>)
    modifies a
    ensures a[..] == Reverse(old(a[..]))
  {
    ghost var before := a[..];
    var _ := ReverseRange(a, 0, a.Length);
    assert before[..0] == [] && before[0..a.Length] == before && before[a.Length..] == [];
  }
}
