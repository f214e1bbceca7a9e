/** The MSB-first bit stream of the Lynx packed sprite format, and the nibble
    field writer (`set_bits`, `set_literal`) that lynximg.c writes it with.

    A stream is a `seq<bool>`; position 8k + t of the stream is bit 7 - t of
    byte k. Bytes are `bv8`, so shifts truncate exactly like a store into a
    C `uint8_t`. */
module BitStream {

  /** Bit i of a stream; positions past its end read as 0, as in a zeroed buffer. */
  function Bit(bits: seq<bool>, i: nat): bool {
    i < |bits| && bits[i]
  }

  /** The byte whose bits, most significant first, are b0 .. b7. */
  function Octet(b0: bool, b1: bool, b2: bool, b3: bool, b4: bool, b5: bool, b6: bool, b7: bool): bv8 {
    (if b0 then 0x80 else 0) | (if b1 then 0x40 else 0) | (if b2 then 0x20 else 0) | (if b3 then 0x10 else 0)
    | (if b4 then 0x08 else 0) | (if b5 then 0x04 else 0) | (if b6 then 0x02 else 0) | (if b7 then 0x01 else 0)
  }

  /** Byte k of the zero-padded MSB-first packing of `bits`. */
  function ByteAt(bits: seq<bool>, k: nat): bv8 {
    Octet(Bit(bits, 8 * k), Bit(bits, 8 * k + 1), Bit(bits, 8 * k + 2), Bit(bits, 8 * k + 3),
          Bit(bits, 8 * k + 4), Bit(bits, 8 * k + 5), Bit(bits, 8 * k + 6), Bit(bits, 8 * k + 7))
  }

  /** The first n bytes of the zero-padded MSB-first packing of `bits`. */
  function Packed(bits: seq<bool>, n: nat): seq<bv8> {
    seq(n, k requires 0 <= k < n => ByteAt(bits, k))
  }

  /** The first of the two bytes nine bits fill ... */
  lemma FirstOfNine(s: seq<bool>)
    requires |s| == 9
    ensures ByteAt(s, 0) == Octet(s[0], s[1], s[2], s[3], s[4], s[5], s[6], s[7])
  {
  }

  /** ... and the second: the ninth bit, then padding. */
  lemma SecondOfNine(s: seq<bool>)
    requires |s| == 9
    ensures ByteAt(s, 1) == Octet(s[8], false, false, false, false, false, false, false)
  {
  }

  /** `buf[base..]` holds the zero-padded packing of `bits`. */
  ghost predicate Holds(buf: seq<bv8>, base: nat, bits: seq<bool>) {
    base <= |buf| && buf[base..] == Packed(bits, |buf| - base)
  }

  /** The four bits of a nibble, most significant first. */
  function NibbleBits(m: bv8): seq<bool> {
    [m & 8 != 0, m & 4 != 0, m & 2 != 0, m & 1 != 0]
  }

  /** The nibble that four stream bits spell, most significant first. */
  function NibbleValue(b: seq<bool>): (m: bv8)
    requires |b| == 4
    ensures m < 16
  {
    (if b[0] then 8 else 0) | (if b[1] then 4 else 0) | (if b[2] then 2 else 0) | (if b[3] then 1 else 0)
  }

  /** The eight bits of a byte, most significant first. */
  function BitsOfByte(b: bv8): seq<bool> {
    [b & 0x80 != 0, b & 0x40 != 0, b & 0x20 != 0, b & 0x10 != 0,
     b & 0x08 != 0, b & 0x04 != 0, b & 0x02 != 0, b & 0x01 != 0]
  }

  /** The stream a byte buffer spells, each byte most significant bit first. */
  function Unpack(bytes: seq<bv8>): (bits: seq<bool>)
    ensures |bits| == 8 * |bytes|
  {
    if bytes == [] then [] else BitsOfByte(bytes[0]) + Unpack(bytes[1..])
  }

  function Zeros(n: nat): (z: seq<bool>)
    ensures |z| == n && forall i :: 0 <= i < n ==> !z[i]
  {
    seq(n, _ => false)
  }

  /** The first n stream positions, zero past the end of `bits`. */
  function Padded(bits: seq<bool>, n: nat): (s: seq<bool>)
    ensures |s| == n && forall i :: 0 <= i < n ==> s[i] == Bit(bits, i)
  {
    seq(n, i requires 0 <= i < n => Bit(bits, i))
  }

  lemma BitsOfOctet(b0: bool, b1: bool, b2: bool, b3: bool, b4: bool, b5: bool, b6: bool, b7: bool)
    ensures BitsOfByte(Octet(b0, b1, b2, b3, b4, b5, b6, b7)) == [b0, b1, b2, b3, b4, b5, b6, b7]
  {
  }

  lemma {:induction false} UnpackAppend(a: seq<bv8>, b: seq<bv8>)
    ensures Unpack(a + b) == Unpack(a) + Unpack(b)
  {
    if a == [] {
      assert a + b == b;
    } else {
      assert (a + b)[1..] == a[1..] + b;
      UnpackAppend(a[1..], b);
    }
  }

  /** The eight bits of byte k of a packing are stream positions 8k .. 8k + 7. */
  lemma ByteAtBits(bits: seq<bool>, k: nat)
    ensures BitsOfByte(ByteAt(bits, k))
         == [Bit(bits, 8 * k), Bit(bits, 8 * k + 1), Bit(bits, 8 * k + 2), Bit(bits, 8 * k + 3),
           Bit(bits, 8 * k + 4), Bit(bits, 8 * k + 5), Bit(bits, 8 * k + 6), Bit(bits, 8 * k + 7)]
  {
    BitsOfOctet(Bit(bits, 8 * k), Bit(bits, 8 * k + 1), Bit(bits, 8 * k + 2), Bit(bits, 8 * k + 3),
           Bit(bits, 8 * k + 4), Bit(bits, 8 * k + 5), Bit(bits, 8 * k + 6), Bit(bits, 8 * k + 7));
  }

  lemma PaddedByte(bits: seq<bool>, k: nat)
    ensures Padded(bits, 8 * k + 8)
         == Padded(bits, 8 * k) + [Bit(bits, 8 * k), Bit(bits, 8 * k + 1), Bit(bits, 8 * k + 2), Bit(bits, 8 * k + 3),
           Bit(bits, 8 * k + 4), Bit(bits, 8 * k + 5), Bit(bits, 8 * k + 6), Bit(bits, 8 * k + 7)]
  {
  }

  /** Unpacking the packing of a stream gives the stream back, padded with zeros. */
  lemma {:induction false} UnpackPackedPadded(bits: seq<bool>, n: nat)
    ensures Unpack(Packed(bits, n)) == Padded(bits, 8 * n)
  {
    if n > 0 {
      var k := n - 1;
      assert Packed(bits, n) == Packed(bits, k) + [ByteAt(bits, k)];
      UnpackAppend(Packed(bits, k), [ByteAt(bits, k)]);
      assert Unpack([ByteAt(bits, k)]) == BitsOfByte(ByteAt(bits, k));
      UnpackPackedPadded(bits, k);
      ByteAtBits(bits, k);
      PaddedByte(bits, k);
    }
  }

  lemma UnpackPacked(bits: seq<bool>, n: nat)
    requires |bits| <= 8 * n
    ensures Unpack(Packed(bits, n)) == bits + Zeros(8 * n - |bits|)
  {
    UnpackPackedPadded(bits, n);
  }

  lemma NibbleRoundTrip(m: bv8)
    requires m < 16
    ensures |NibbleBits(m)| == 4 && NibbleValue(NibbleBits(m)) == m
  {
  }

  lemma NibbleBitsOfValue(b: seq<bool>)
    requires |b| == 4
    ensures NibbleBits(NibbleValue(b)) == b
  {
  }

  /** A byte whose stream positions all lie before, or all lie after, the
      appended part does not change. */
  lemma ByteAtOutside(bits: seq<bool>, ext: seq<bool>, k: nat)
    requires 8 * k + 8 <= |bits| || |bits| + |ext| <= 8 * k
    ensures ByteAt(bits + ext, k) == ByteAt(bits, k)
  {
  }

  /** Appending a 0 bit changes no byte of the packing. */
  lemma AppendZeroBit(bits: seq<bool>, k: nat)
    ensures ByteAt(bits + [false], k) == ByteAt(bits, k)
  {
  }

  /** Bit t of the cursor byte once `ext` is appended at cursor `cur`. */
  function Here(t: nat, cur: nat, x: bool, ext: seq<bool>): bool {
    if t < cur then x else t - cur < |ext| && ext[t - cur]
  }

  /** Bit t of the byte after the cursor byte once `ext` is appended at cursor `cur`. */
  function Next(t: nat, cur: nat, ext: seq<bool>): bool
    requires cur <= 8
  {
    8 + t - cur < |ext| && ext[8 + t - cur]
  }

  lemma CursorBits(bits: seq<bool>, ext: seq<bool>, k: nat, cur: nat)
    requires |bits| == 8 * k + cur && cur < 8
    ensures Bit(bits + ext, 8 * k) == Here(0, cur, Bit(bits, 8 * k), ext)
    ensures Bit(bits + ext, 8 * k + 1) == Here(1, cur, Bit(bits, 8 * k + 1), ext)
    ensures Bit(bits + ext, 8 * k + 2) == Here(2, cur, Bit(bits, 8 * k + 2), ext)
    ensures Bit(bits + ext, 8 * k + 3) == Here(3, cur, Bit(bits, 8 * k + 3), ext)
    ensures Bit(bits + ext, 8 * k + 4) == Here(4, cur, Bit(bits, 8 * k + 4), ext)
    ensures Bit(bits + ext, 8 * k + 5) == Here(5, cur, Bit(bits, 8 * k + 5), ext)
    ensures Bit(bits + ext, 8 * k + 6) == Here(6, cur, Bit(bits, 8 * k + 6), ext)
    ensures Bit(bits + ext, 8 * k + 7) == Here(7, cur, Bit(bits, 8 * k + 7), ext)
  {
  }

  /** The cursor byte after appending, bit by bit. */
  lemma CursorByte(bits: seq<bool>, ext: seq<bool>, k: nat, cur: nat)
    requires |bits| == 8 * k + cur && cur < 8
    ensures ByteAt(bits + ext, k)
         == Octet(Here(0, cur, Bit(bits, 8 * k), ext), Here(1, cur, Bit(bits, 8 * k + 1), ext),
                  Here(2, cur, Bit(bits, 8 * k + 2), ext), Here(3, cur, Bit(bits, 8 * k + 3), ext),
                  Here(4, cur, Bit(bits, 8 * k + 4), ext), Here(5, cur, Bit(bits, 8 * k + 5), ext),
                  Here(6, cur, Bit(bits, 8 * k + 6), ext), Here(7, cur, Bit(bits, 8 * k + 7), ext))
  {
    CursorBits(bits, ext, k, cur);
  }

  lemma NextBits(bits: seq<bool>, ext: seq<bool>, k: nat, cur: nat)
    requires |bits| == 8 * k + cur && cur < 8
    ensures Bit(bits + ext, 8 * (k + 1)) == Next(0, cur, ext)
    ensures Bit(bits + ext, 8 * (k + 1) + 1) == Next(1, cur, ext)
    ensures Bit(bits + ext, 8 * (k + 1) + 2) == Next(2, cur, ext)
    ensures Bit(bits + ext, 8 * (k + 1) + 3) == Next(3, cur, ext)
    ensures Bit(bits + ext, 8 * (k + 1) + 4) == Next(4, cur, ext)
    ensures Bit(bits + ext, 8 * (k + 1) + 5) == Next(5, cur, ext)
    ensures Bit(bits + ext, 8 * (k + 1) + 6) == Next(6, cur, ext)
    ensures Bit(bits + ext, 8 * (k + 1) + 7) == Next(7, cur, ext)
  {
  }

  /** The byte after the cursor byte after appending, bit by bit. */
  lemma NextByte(bits: seq<bool>, ext: seq<bool>, k: nat, cur: nat)
    requires |bits| == 8 * k + cur && cur < 8
    ensures ByteAt(bits + ext, k + 1)
         == Octet(Next(0, cur, ext), Next(1, cur, ext), Next(2, cur, ext), Next(3, cur, ext),
                  Next(4, cur, ext), Next(5, cur, ext), Next(6, cur, ext), Next(7, cur, ext))
  {
    NextBits(bits, ext, k, cur);
  }

  /** The cursor byte before appending: nothing is set at or after the cursor. */
  lemma CursorByteBefore(bits: seq<bool>, k: nat, cur: nat)
    requires |bits| == 8 * k + cur && cur < 8
    ensures ByteAt(bits, k)
         == Octet(Here(0, cur, Bit(bits, 8 * k), []), Here(1, cur, Bit(bits, 8 * k + 1), []),
                  Here(2, cur, Bit(bits, 8 * k + 2), []), Here(3, cur, Bit(bits, 8 * k + 3), []),
                  Here(4, cur, Bit(bits, 8 * k + 4), []), Here(5, cur, Bit(bits, 8 * k + 5), []),
                  Here(6, cur, Bit(bits, 8 * k + 6), []), Here(7, cur, Bit(bits, 8 * k + 7), []))
  {
    CursorByte(bits, [], k, cur);
    assert bits + [] == bits;
  }

  // Placing a field at a fixed cursor. For each cursor value there is a fact
  // about bytes (`...InOctet`) and the same fact about the stream
  // (`Append...At`); the generic lemmas further down dispatch on the cursor.

  lemma NibbleInOctet0(m: bv8)
    requires m < 16
    ensures Octet(m & 8 != 0, m & 4 != 0, m & 2 != 0, m & 1 != 0, false, false, false, false)
         == Octet(false, false, false, false, false, false, false, false) | (m << 4)
  {
  }

  lemma AppendNibbleAt0(bits: seq<bool>, k: nat, m: bv8)
    requires |bits| == 8 * k + 0 && m < 16
    ensures ByteAt(bits + NibbleBits(m), k) == ByteAt(bits, k) | (m << 4)
  {
    CursorByte(bits, NibbleBits(m), k, 0);
    CursorByteBefore(bits, k, 0);
    NibbleInOctet0(m);
  }

  lemma NibbleInOctet1(m: bv8, x0: bool)
    requires m < 16
    ensures Octet(x0, m & 8 != 0, m & 4 != 0, m & 2 != 0, m & 1 != 0, false, false, false)
         == Octet(x0, false, false, false, false, false, false, false) | (m << 3)
  {
  }

  lemma AppendNibbleAt1(bits: seq<bool>, k: nat, m: bv8)
    requires |bits| == 8 * k + 1 && m < 16
    ensures ByteAt(bits + NibbleBits(m), k) == ByteAt(bits, k) | (m << 3)
  {
    CursorByte(bits, NibbleBits(m), k, 1);
    CursorByteBefore(bits, k, 1);
    NibbleInOctet1(m, Bit(bits, 8 * k));
  }

  lemma NibbleInOctet2(m: bv8, x0: bool, x1: bool)
    requires m < 16
    ensures Octet(x0, x1, m & 8 != 0, m & 4 != 0, m & 2 != 0, m & 1 != 0, false, false)
         == Octet(x0, x1, false, false, false, false, false, false) | (m << 2)
  {
  }

  lemma AppendNibbleAt2(bits: seq<bool>, k: nat, m: bv8)
    requires |bits| == 8 * k + 2 && m < 16
    ensures ByteAt(bits + NibbleBits(m), k) == ByteAt(bits, k) | (m << 2)
  {
    CursorByte(bits, NibbleBits(m), k, 2);
    CursorByteBefore(bits, k, 2);
    NibbleInOctet2(m, Bit(bits, 8 * k), Bit(bits, 8 * k + 1));
  }

  lemma NibbleInOctet3(m: bv8, x0: bool, x1: bool, x2: bool)
    requires m < 16
    ensures Octet(x0, x1, x2, m & 8 != 0, m & 4 != 0, m & 2 != 0, m & 1 != 0, false)
         == Octet(x0, x1, x2, false, false, false, false, false) | (m << 1)
  {
  }

  lemma AppendNibbleAt3(bits: seq<bool>, k: nat, m: bv8)
    requires |bits| == 8 * k + 3 && m < 16
    ensures ByteAt(bits + NibbleBits(m), k) == ByteAt(bits, k) | (m << 1)
  {
    CursorByte(bits, NibbleBits(m), k, 3);
    CursorByteBefore(bits, k, 3);
    NibbleInOctet3(m, Bit(bits, 8 * k), Bit(bits, 8 * k + 1), Bit(bits, 8 * k + 2));
  }

  lemma NibbleInOctet4(m: bv8, x0: bool, x1: bool, x2: bool, x3: bool)
    requires m < 16
    ensures Octet(x0, x1, x2, x3, m & 8 != 0, m & 4 != 0, m & 2 != 0, m & 1 != 0)
         == Octet(x0, x1, x2, x3, false, false, false, false) | (m << 0)
  {
  }

  lemma AppendNibbleAt4(bits: seq<bool>, k: nat, m: bv8)
    requires |bits| == 8 * k + 4 && m < 16
    ensures ByteAt(bits + NibbleBits(m), k) == ByteAt(bits, k) | (m << 0)
  {
    CursorByte(bits, NibbleBits(m), k, 4);
    CursorByteBefore(bits, k, 4);
    NibbleInOctet4(m, Bit(bits, 8 * k), Bit(bits, 8 * k + 1), Bit(bits, 8 * k + 2), Bit(bits, 8 * k + 3));
  }

  lemma NibbleInOctet5(m: bv8, x0: bool, x1: bool, x2: bool, x3: bool, x4: bool)
    requires m < 16
    ensures Octet(x0, x1, x2, x3, x4, m & 8 != 0, m & 4 != 0, m & 2 != 0)
         == Octet(x0, x1, x2, x3, x4, false, false, false) | (m >> 1)
  {
  }

  lemma NibbleCarriedOctet5(m: bv8)
    requires m < 16
    ensures Octet(m & 1 != 0, false, false, false, false, false, false, false) == m << 7
  {
  }

  lemma AppendNibbleAt5(bits: seq<bool>, k: nat, m: bv8)
    requires |bits| == 8 * k + 5 && m < 16
    ensures ByteAt(bits + NibbleBits(m), k) == ByteAt(bits, k) | (m >> 1)
  {
    CursorByte(bits, NibbleBits(m), k, 5);
    CursorByteBefore(bits, k, 5);
    NibbleInOctet5(m, Bit(bits, 8 * k), Bit(bits, 8 * k + 1), Bit(bits, 8 * k + 2), Bit(bits, 8 * k + 3), Bit(bits, 8 * k + 4));
  }

  lemma AppendNibbleCarried5(bits: seq<bool>, k: nat, m: bv8)
    requires |bits| == 8 * k + 5 && m < 16
    ensures ByteAt(bits + NibbleBits(m), k + 1) == m << 7
  {
    NextByte(bits, NibbleBits(m), k, 5);
    NibbleCarriedOctet5(m);
  }

  lemma NibbleInOctet6(m: bv8, x0: bool, x1: bool, x2: bool, x3: bool, x4: bool, x5: bool)
    requires m < 16
    ensures Octet(x0, x1, x2, x3, x4, x5, m & 8 != 0, m & 4 != 0)
         == Octet(x0, x1, x2, x3, x4, x5, false, false) | (m >> 2)
  {
  }

  lemma NibbleCarriedOctet6(m: bv8)
    requires m < 16
    ensures Octet(m & 2 != 0, m & 1 != 0, false, false, false, false, false, false) == m << 6
  {
  }

  lemma AppendNibbleAt6(bits: seq<bool>, k: nat, m: bv8)
    requires |bits| == 8 * k + 6 && m < 16
    ensures ByteAt(bits + NibbleBits(m), k) == ByteAt(bits, k) | (m >> 2)
  {
    CursorByte(bits, NibbleBits(m), k, 6);
    CursorByteBefore(bits, k, 6);
    NibbleInOctet6(m, Bit(bits, 8 * k), Bit(bits, 8 * k + 1), Bit(bits, 8 * k + 2), Bit(bits, 8 * k + 3), Bit(bits, 8 * k + 4), Bit(bits, 8 * k + 5));
  }

  lemma AppendNibbleCarried6(bits: seq<bool>, k: nat, m: bv8)
    requires |bits| == 8 * k + 6 && m < 16
    ensures ByteAt(bits + NibbleBits(m), k + 1) == m << 6
  {
    NextByte(bits, NibbleBits(m), k, 6);
    NibbleCarriedOctet6(m);
  }

  lemma NibbleInOctet7(m: bv8, x0: bool, x1: bool, x2: bool, x3: bool, x4: bool, x5: bool, x6: bool)
    requires m < 16
    ensures Octet(x0, x1, x2, x3, x4, x5, x6, m & 8 != 0)
         == Octet(x0, x1, x2, x3, x4, x5, x6, false) | (m >> 3)
  {
  }

  lemma NibbleCarriedOctet7(m: bv8)
    requires m < 16
    ensures Octet(m & 4 != 0, m & 2 != 0, m & 1 != 0, false, false, false, false, false) == m << 5
  {
  }

  lemma AppendNibbleAt7(bits: seq<bool>, k: nat, m: bv8)
    requires |bits| == 8 * k + 7 && m < 16
    ensures ByteAt(bits + NibbleBits(m), k) == ByteAt(bits, k) | (m >> 3)
  {
    CursorByte(bits, NibbleBits(m), k, 7);
    CursorByteBefore(bits, k, 7);
    NibbleInOctet7(m, Bit(bits, 8 * k), Bit(bits, 8 * k + 1), Bit(bits, 8 * k + 2), Bit(bits, 8 * k + 3), Bit(bits, 8 * k + 4), Bit(bits, 8 * k + 5), Bit(bits, 8 * k + 6));
  }

  lemma AppendNibbleCarried7(bits: seq<bool>, k: nat, m: bv8)
    requires |bits| == 8 * k + 7 && m < 16
    ensures ByteAt(bits + NibbleBits(m), k + 1) == m << 5
  {
    NextByte(bits, NibbleBits(m), k, 7);
    NibbleCarriedOctet7(m);
  }

  lemma MarkerInOctet0()
    ensures Octet(true, false, false, false, false, false, false, false)
         == Octet(false, false, false, false, false, false, false, false) | (1 << 7)
  {
  }

  lemma AppendMarkerAt0(bits: seq<bool>, k: nat)
    requires |bits| == 8 * k + 0
    ensures ByteAt(bits + [true], k) == ByteAt(bits, k) | (1 << 7)
  {
    CursorByte(bits, [true], k, 0);
    CursorByteBefore(bits, k, 0);
    MarkerInOctet0();
  }

  lemma MarkerInOctet1(x0: bool)
    ensures Octet(x0, true, false, false, false, false, false, false)
         == Octet(x0, false, false, false, false, false, false, false) | (1 << 6)
  {
  }

  lemma AppendMarkerAt1(bits: seq<bool>, k: nat)
    requires |bits| == 8 * k + 1
    ensures ByteAt(bits + [true], k) == ByteAt(bits, k) | (1 << 6)
  {
    CursorByte(bits, [true], k, 1);
    CursorByteBefore(bits, k, 1);
    MarkerInOctet1(Bit(bits, 8 * k));
  }

  lemma MarkerInOctet2(x0: bool, x1: bool)
    ensures Octet(x0, x1, true, false, false, false, false, false)
         == Octet(x0, x1, false, false, false, false, false, false) | (1 << 5)
  {
  }

  lemma AppendMarkerAt2(bits: seq<bool>, k: nat)
    requires |bits| == 8 * k + 2
    ensures ByteAt(bits + [true], k) == ByteAt(bits, k) | (1 << 5)
  {
    CursorByte(bits, [true], k, 2);
    CursorByteBefore(bits, k, 2);
    MarkerInOctet2(Bit(bits, 8 * k), Bit(bits, 8 * k + 1));
  }

  lemma MarkerInOctet3(x0: bool, x1: bool, x2: bool)
    ensures Octet(x0, x1, x2, true, false, false, false, false)
         == Octet(x0, x1, x2, false, false, false, false, false) | (1 << 4)
  {
  }

  lemma AppendMarkerAt3(bits: seq<bool>, k: nat)
    requires |bits| == 8 * k + 3
    ensures ByteAt(bits + [true], k) == ByteAt(bits, k) | (1 << 4)
  {
    CursorByte(bits, [true], k, 3);
    CursorByteBefore(bits, k, 3);
    MarkerInOctet3(Bit(bits, 8 * k), Bit(bits, 8 * k + 1), Bit(bits, 8 * k + 2));
  }

  lemma MarkerInOctet4(x0: bool, x1: bool, x2: bool, x3: bool)
    ensures Octet(x0, x1, x2, x3, true, false, false, false)
         == Octet(x0, x1, x2, x3, false, false, false, false) | (1 << 3)
  {
  }

  lemma AppendMarkerAt4(bits: seq<bool>, k: nat)
    requires |bits| == 8 * k + 4
    ensures ByteAt(bits + [true], k) == ByteAt(bits, k) | (1 << 3)
  {
    CursorByte(bits, [true], k, 4);
    CursorByteBefore(bits, k, 4);
    MarkerInOctet4(Bit(bits, 8 * k), Bit(bits, 8 * k + 1), Bit(bits, 8 * k + 2), Bit(bits, 8 * k + 3));
  }

  lemma MarkerInOctet5(x0: bool, x1: bool, x2: bool, x3: bool, x4: bool)
    ensures Octet(x0, x1, x2, x3, x4, true, false, false)
         == Octet(x0, x1, x2, x3, x4, false, false, false) | (1 << 2)
  {
  }

  lemma AppendMarkerAt5(bits: seq<bool>, k: nat)
    requires |bits| == 8 * k + 5
    ensures ByteAt(bits + [true], k) == ByteAt(bits, k) | (1 << 2)
  {
    CursorByte(bits, [true], k, 5);
    CursorByteBefore(bits, k, 5);
    MarkerInOctet5(Bit(bits, 8 * k), Bit(bits, 8 * k + 1), Bit(bits, 8 * k + 2), Bit(bits, 8 * k + 3), Bit(bits, 8 * k + 4));
  }

  lemma MarkerInOctet6(x0: bool, x1: bool, x2: bool, x3: bool, x4: bool, x5: bool)
    ensures Octet(x0, x1, x2, x3, x4, x5, true, false)
         == Octet(x0, x1, x2, x3, x4, x5, false, false) | (1 << 1)
  {
  }

  lemma AppendMarkerAt6(bits: seq<bool>, k: nat)
    requires |bits| == 8 * k + 6
    ensures ByteAt(bits + [true], k) == ByteAt(bits, k) | (1 << 1)
  {
    CursorByte(bits, [true], k, 6);
    CursorByteBefore(bits, k, 6);
    MarkerInOctet6(Bit(bits, 8 * k), Bit(bits, 8 * k + 1), Bit(bits, 8 * k + 2), Bit(bits, 8 * k + 3), Bit(bits, 8 * k + 4), Bit(bits, 8 * k + 5));
  }

  lemma MarkerInOctet7(x0: bool, x1: bool, x2: bool, x3: bool, x4: bool, x5: bool, x6: bool)
    ensures Octet(x0, x1, x2, x3, x4, x5, x6, true)
         == Octet(x0, x1, x2, x3, x4, x5, x6, false) | (1 << 0)
  {
  }

  lemma AppendMarkerAt7(bits: seq<bool>, k: nat)
    requires |bits| == 8 * k + 7
    ensures ByteAt(bits + [true], k) == ByteAt(bits, k) | (1 << 0)
  {
    CursorByte(bits, [true], k, 7);
    CursorByteBefore(bits, k, 7);
    MarkerInOctet7(Bit(bits, 8 * k), Bit(bits, 8 * k + 1), Bit(bits, 8 * k + 2), Bit(bits, 8 * k + 3), Bit(bits, 8 * k + 4), Bit(bits, 8 * k + 5), Bit(bits, 8 * k + 6));
  }

  /** A nibble appended at cursor 0..4 is ORed into the cursor byte, shifted
      left by 4 - cur. */
  lemma AppendNibbleInByte(bits: seq<bool>, k: nat, cur: nat, m: bv8)
    requires |bits| == 8 * k + cur && cur <= 4 && m < 16
    ensures ByteAt(bits + NibbleBits(m), k) == ByteAt(bits, k) | (m << (4 - cur))
  {
    if cur == 0 { AppendNibbleAt0(bits, k, m); }
    else if cur == 1 { AppendNibbleAt1(bits, k, m); }
    else if cur == 2 { AppendNibbleAt2(bits, k, m); }
    else if cur == 3 { AppendNibbleAt3(bits, k, m); }
    else { AppendNibbleAt4(bits, k, m); }
  }

  /** A nibble appended at cursor 5..7 puts its top 8 - cur bits at the end of
      the cursor byte and its low cur - 4 bits at the start of the next one. */
  lemma AppendNibbleStraddling(bits: seq<bool>, k: nat, cur: nat, m: bv8)
    requires |bits| == 8 * k + cur && 4 < cur < 8 && m < 16
    ensures ByteAt(bits + NibbleBits(m), k) == ByteAt(bits, k) | (m >> (cur - 4))
    ensures ByteAt(bits + NibbleBits(m), k + 1) == m << (8 - (cur - 4))
  {
    if cur == 5 { AppendNibbleAt5(bits, k, m); AppendNibbleCarried5(bits, k, m); }
    else if cur == 6 { AppendNibbleAt6(bits, k, m); AppendNibbleCarried6(bits, k, m); }
    else { AppendNibbleAt7(bits, k, m); AppendNibbleCarried7(bits, k, m); }
  }

  /** A set bit appended at cursor cur is bit 7 - cur of the cursor byte. */
  lemma AppendMarker(bits: seq<bool>, k: nat, cur: nat)
    requires |bits| == 8 * k + cur && cur < 8
    ensures ByteAt(bits + [true], k) == ByteAt(bits, k) | (1 << (7 - cur))
  {
    if cur == 0 { AppendMarkerAt0(bits, k); }
    else if cur == 1 { AppendMarkerAt1(bits, k); }
    else if cur == 2 { AppendMarkerAt2(bits, k); }
    else if cur == 3 { AppendMarkerAt3(bits, k); }
    else if cur == 4 { AppendMarkerAt4(bits, k); }
    else if cur == 5 { AppendMarkerAt5(bits, k); }
    else if cur == 6 { AppendMarkerAt6(bits, k); }
    else { AppendMarkerAt7(bits, k); }
  }

  // The writer's view: a buffer holding a stream from `base` on.

  /** Appending bits that all fall inside byte k changes only that byte. */
  lemma HoldsAppendInByte(buf: seq<bv8>, base: nat, bits: seq<bool>, ext: seq<bool>, k: nat)
    requires Holds(buf, base, bits) && base + k < |buf|
    requires 8 * k <= |bits| && |bits| + |ext| <= 8 * k + 8
    ensures Holds(buf[base + k := ByteAt(bits + ext, k)], base, bits + ext)
  {
    var after := buf[base + k := ByteAt(bits + ext, k)];
    forall j | 0 <= j < |buf| - base
      ensures after[base..][j] == Packed(bits + ext, |buf| - base)[j]
    {
      if j != k {
        ByteAtOutside(bits, ext, j);
      }
    }
  }

  /** Appending bits that all fall inside bytes k and k + 1 changes only those two. */
  lemma HoldsAppendInBytes(buf: seq<bv8>, base: nat, bits: seq<bool>, ext: seq<bool>, k: nat)
    requires Holds(buf, base, bits) && base + k + 1 < |buf|
    requires 8 * k <= |bits| && |bits| + |ext| <= 8 * k + 16
    ensures Holds(buf[base + k := ByteAt(bits + ext, k)][base + k + 1 := ByteAt(bits + ext, k + 1)],
                  base, bits + ext)
  {
    var after := buf[base + k := ByteAt(bits + ext, k)][base + k + 1 := ByteAt(bits + ext, k + 1)];
    forall j | 0 <= j < |buf| - base
      ensures after[base..][j] == Packed(bits + ext, |buf| - base)[j]
    {
      if j != k && j != k + 1 {
        ByteAtOutside(bits, ext, j);
      }
    }
  }

  /** Writing a nibble at cursor 0..4 of byte p, as `set_bits` does, appends
      it to the stream held from `base`. */
  lemma NibbleWritten(buf: seq<bv8>, base: nat, bits: seq<bool>, p: nat, cur: nat, m: bv8)
    requires Holds(buf, base, bits) && base <= p < |buf|
    requires |bits| == 8 * (p - base) + cur && cur <= 4 && m < 16
    ensures Holds(buf[p := buf[p] | (m << (4 - cur))], base, bits + NibbleBits(m))
  {
    var k := p - base;
    assert buf[p] == buf[base..][k] == ByteAt(bits, k);
    AppendNibbleInByte(bits, k, cur, m);
    HoldsAppendInByte(buf, base, bits, NibbleBits(m), k);
  }

  /** Writing a nibble at cursor 5..7 of byte p, split over bytes p and p + 1
      as `set_bits` does, appends it to the stream held from `base`. */
  lemma NibbleWrittenStraddling(buf: seq<bv8>, base: nat, bits: seq<bool>, p: nat, cur: nat, m: bv8)
    requires Holds(buf, base, bits) && base <= p && p + 1 < |buf|
    requires |bits| == 8 * (p - base) + cur && 4 < cur < 8 && m < 16
    ensures Holds(buf[p := buf[p] | (m >> (cur - 4))][p + 1 := m << (8 - (cur - 4))],
                  base, bits + NibbleBits(m))
  {
    var k := p - base;
    assert buf[p] == buf[base..][k] == ByteAt(bits, k);
    AppendNibbleStraddling(bits, k, cur, m);
    HoldsAppendInBytes(buf, base, bits, NibbleBits(m), k);
  }

  /** Setting bit 7 - cur of byte p appends a 1 to the stream. */
  lemma MarkerWritten(buf: seq<bv8>, base: nat, bits: seq<bool>, p: nat, cur: nat)
    requires Holds(buf, base, bits) && base <= p < |buf|
    requires |bits| == 8 * (p - base) + cur && cur < 8
    ensures Holds(buf[p := buf[p] | (1 << (7 - cur))], base, bits + [true])
  {
    var k := p - base;
    assert buf[p] == buf[base..][k] == ByteAt(bits, k);
    AppendMarker(bits, k, cur);
    HoldsAppendInByte(buf, base, bits, [true], k);
  }

  /** Moving the cursor on without writing appends a 0 to the stream. */
  lemma BlankWritten(buf: seq<bv8>, base: nat, bits: seq<bool>)
    requires Holds(buf, base, bits)
    ensures Holds(buf, base, bits + [false])
  {
    forall j | 0 <= j < |buf| - base
      ensures buf[base..][j] == Packed(bits + [false], |buf| - base)[j]
    {
      AppendZeroBit(bits, j);
    }
  }

  /** Nothing is written past byte p, and the last bit of byte p is clear. */
  ghost predicate TailClear(buf: seq<bv8>, p: nat) {
    (forall j :: p < j < |buf| ==> buf[j] == 0) && (p < |buf| ==> buf[p] & 1 == 0)
  }

  /** A field ORed in at cursor 0..4 leaves the last bit of the byte clear
      unless it fills the byte, and then the cursor moves to a clear byte. */
  lemma TailClearInByte(buf: seq<bv8>, p: nat, cur: nat, mask: bv8)
    requires TailClear(buf, p) && p < |buf| && cur <= 4
    ensures TailClear(buf[p := buf[p] | (mask << (4 - cur))], if cur == 4 then p + 1 else p)
  {
    var after := buf[p := buf[p] | (mask << (4 - cur))];
    if cur < 4 {
      assert (mask << (4 - cur)) & 1 == 0;
      assert after[p] & 1 == (buf[p] & 1) | ((mask << (4 - cur)) & 1);
    }
  }

  /** Moving the cursor to the next byte keeps the tail clear. */
  lemma TailClearAdvance(buf: seq<bv8>, p: nat)
    requires TailClear(buf, p)
    ensures TailClear(buf, p + 1)
  {
  }

  /** Setting the marker bit at cursor `cur` leaves the tail behind the
      advanced cursor clear: below bit 7 the last bit is untouched, and at
      bit 7 the cursor moves on to a clear byte. */
  lemma TailClearMarker(buf: seq<bv8>, p: nat, cur: nat)
    requires TailClear(buf, p) && p < |buf| && cur < 8
    ensures TailClear(buf[p := buf[p] | (1 << (7 - cur))], if cur == 7 then p + 1 else p)
  {
    if cur < 7 {
      assert (1 << (7 - cur)) & 1 as bv8 == 0;
      assert (buf[p] | (1 << (7 - cur))) & 1 == (buf[p] & 1) | ((1 << (7 - cur)) & 1);
    }
  }

  /** A field split over bytes p and p + 1 leaves the last bit of byte p + 1 clear. */
  lemma TailClearStraddling(buf: seq<bv8>, p: nat, cur: nat, mask: bv8)
    requires TailClear(buf, p) && p + 1 < |buf| && 4 < cur < 8
    ensures TailClear(buf[p := buf[p] | (mask >> (cur - 4))][p + 1 := mask << (8 - (cur - 4))], p + 1)
  {
    assert (mask << (8 - (cur - 4))) & 1 == 0;
  }

  /** What a `set_bits` store does to the stream held in the buffer and to
      the clear tail behind the cursor. */
  lemma FieldStored(before: seq<bv8>, after: seq<bv8>, p: nat, cur: nat, mask: bv8,
                    next: nat, nextCur: nat, base: nat, bits: seq<bool>)
    requires cur < 8 && 8 * p + cur + 4 <= 8 * |before|
    requires nextCur < 8 && 8 * next + nextCur == 8 * p + cur + 4
    requires cur <= 4 ==> after == before[p := before[p] | (mask << (4 - cur))]
    requires 4 < cur ==> after == before[p := before[p] | (mask >> (cur - 4))]
                                         [p + 1 := mask << (8 - (cur - 4))]
    ensures TailClear(before, p) ==> TailClear(after, next)
    ensures base <= p && |bits| == 8 * (p - base) + cur && mask < 16 && Holds(before, base, bits)
            ==> Holds(after, base, bits + NibbleBits(mask))
  {
    if cur <= 4 {
      assert TailClear(before, p) ==> TailClear(after, next) by {
        if TailClear(before, p) {
          TailClearInByte(before, p, cur, mask);
        }
      }
      assert base <= p && |bits| == 8 * (p - base) + cur && mask < 16 && Holds(before, base, bits)
            ==> Holds(after, base, bits + NibbleBits(mask)) by {
        if base <= p && |bits| == 8 * (p - base) + cur && mask < 16 && Holds(before, base, bits) {
          NibbleWritten(before, base, bits, p, cur, mask);
        }
      }
    } else {
      assert TailClear(before, p) ==> TailClear(after, next) by {
        if TailClear(before, p) {
          TailClearStraddling(before, p, cur, mask);
        }
      }
      assert base <= p && |bits| == 8 * (p - base) + cur && mask < 16 && Holds(before, base, bits)
            ==> Holds(after, base, bits + NibbleBits(mask)) by {
        if base <= p && |bits| == 8 * (p - base) + cur && mask < 16 && Holds(before, base, bits) {
          NibbleWrittenStraddling(before, base, bits, p, cur, mask);
        }
      }
    }
  }

  /** `set_bits`: writes the 4-bit field `mask` at bit `cur` of byte `p` and
      returns the byte and bit where the next field goes. A field starting at
      bit 5..7 is split: its top bits are ORed into byte p and its low bits
      are stored (not ORed) into byte p + 1. */
  method SetBits(buf: array<bv8>, p: nat, cur: nat, mask: bv8, ghost base: nat, ghost bits: seq<bool>)
    returns (next: nat, nextCur: nat)
    requires cur < 8 && 8 * p + cur + 4 <= 8 * buf.Length
    modifies buf
    ensures nextCur < 8 && 8 * next + nextCur == 8 * p + cur + 4
    ensures buf[..p] == old(buf[..p])
    ensures cur <= 4 ==> buf[..] == old(buf[..])[p := old(buf[p]) | (mask << (4 - cur))]
    ensures 4 < cur ==> buf[..] == old(buf[..])[p := old(buf[p]) | (mask >> (cur - 4))]
                                                [p + 1 := mask << (8 - (cur - 4))]
    ensures TailClear(old(buf[..]), p) ==> TailClear(buf[..], next)
    ensures base <= p && |bits| == 8 * (p - base) + cur && mask < 16 && Holds(old(buf[..]), base, bits)
            ==> Holds(buf[..], base, bits + NibbleBits(mask))
  {
    if cur > 4 {
      var low, high := buf[p] | (mask >> (cur - 4)), mask << (8 - (cur - 4));
      buf[p] := low;
      buf[p + 1] := high;
      assert buf[..] == old(buf[..])[p := old(buf[p]) | (mask >> (cur - 4))][p + 1 := mask << (8 - (cur - 4))];
      next, nextCur := p + 1, cur - 4;
    } else {
      var v := buf[p] | (mask << (4 - cur));
      buf[p] := v;
      assert buf[..] == old(buf[..])[p := old(buf[p]) | (mask << (4 - cur))];
      next, nextCur := p, cur + 4;
      if nextCur > 7 {
        next, nextCur := p + 1, 0;
      }
    }
    FieldStored(old(buf[..]), buf[..], p, cur, mask, next, nextCur, base, bits);
  }

  /** `set_literal`: the count field `cnt`, then the colour field `mask`. */
  method SetLiteral(buf: array<bv8>, p: nat, cur: nat, mask: bv8, cnt: bv8, ghost base: nat, ghost bits: seq<bool>)
    returns (next: nat, nextCur: nat)
    requires cur < 8 && 8 * p + cur + 8 <= 8 * buf.Length
    modifies buf
    ensures nextCur < 8 && 8 * next + nextCur == 8 * p + cur + 8
    ensures buf[..p] == old(buf[..p])
    ensures TailClear(old(buf[..]), p) ==> TailClear(buf[..], next)
    ensures base <= p && |bits| == 8 * (p - base) + cur && mask < 16 && cnt < 16
            && Holds(old(buf[..]), base, bits)
            ==> Holds(buf[..], base, bits + NibbleBits(cnt) + NibbleBits(mask))
  {
    var q, c := SetBits(buf, p, cur, cnt, base, bits);
    next, nextCur := SetBits(buf, q, c, mask, base, bits + NibbleBits(cnt));
  }
}
