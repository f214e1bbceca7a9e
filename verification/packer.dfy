/** The Lynx packed sprite line written by `pack_line` in lynximg.c.

    A line is one header byte holding the line's length in bytes, followed by
    a stream of 9-bit packets, most significant bit first and zero padded:
      - a marker bit, set for a literal packet and clear for a repeat packet;
      - a 4-bit count field, one less than the number of pixels;
      - a 4-bit colour field.
    Runs longer than 16 pixels are cut into repeat packets of 16. */
module Packer {
  import opened BitStream
  import opened RunLength

  /** One packet. `count` is the count field (pixels - 1); `literal` is the marker bit. */
  datatype Packet = Packet(literal: bool, count: bv8, color: bv8)

  predicate Positive(runs: seq<Run>) {
    forall i :: 0 <= i < |runs| ==> runs[i].count >= 1
  }

  predicate SmallColors(runs: seq<Run>) {
    forall i :: 0 <= i < |runs| ==> runs[i].color < 16
  }

  predicate NibbleFields(pks: seq<Packet>) {
    forall i :: 0 <= i < |pks| ==> pks[i].count < 16 && pks[i].color < 16
  }

  /** The packets `pack_line` emits for one run of `count` pixels: 16 at a
      time while more than 16 remain, then one for the rest, a literal packet
      when exactly one pixel remains. */
  function RunPackets(count: nat, color: bv8): seq<Packet>
    requires count >= 1
    decreases count
  {
    if count > 16 then [Packet(false, 15, color)] + RunPackets(count - 16, color)
    else if count == 1 then [Packet(true, 0, color)]
    else [Packet(false, (count - 1) as bv8, color)]
  }

  /** The packets of a whole line. */
  function Packets(runs: seq<Run>): seq<Packet>
    requires Positive(runs)
  {
    if runs == [] then [] else RunPackets(runs[0].count, runs[0].color) + Packets(runs[1..])
  }

  /** The nine stream bits of one packet. */
  function PacketBits(pk: Packet): (bits: seq<bool>)
    ensures |bits| == 9
  {
    [pk.literal] + NibbleBits(pk.count) + NibbleBits(pk.color)
  }

  /** The packet stream, packet after packet. */
  function StreamBits(pks: seq<Packet>): (bits: seq<bool>)
    ensures |bits| == 9 * |pks|
  {
    if pks == [] then [] else PacketBits(pks[0]) + StreamBits(pks[1..])
  }

  /** `p - tmpbuf + 1` once n packets are written after the header byte: the
      header, every byte the stream reaches, and the byte under the final
      cursor. */
  function LineSize(n: nat): nat {
    2 + 9 * n / 8
  }

  /** The line `pack_line` prints, as a function of the runs: the size byte
      (stored into a `uint8_t`), then the packed stream. */
  function EncodeLine(runs: seq<Run>): (line: seq<bv8>)
    requires Positive(runs)
    ensures |line| == LineSize(|Packets(runs)|)
  {
    var pks := Packets(runs);
    var size := LineSize(|pks|);
    [(size % 256) as bv8] + Packed(StreamBits(pks), size - 1)
  }

  /** No run makes more packets than it has pixels. */
  lemma {:induction false} PacketsAtMostPixels(runs: seq<Run>)
    requires Positive(runs)
    ensures |Packets(runs)| <= TotalCount(runs)
  {
    if runs != [] {
      RunPacketsShape(runs[0].count, runs[0].color);
      PacketsAtMostPixels(runs[1..]);
    }
  }

  /** Longer packet lists make longer lines. */
  lemma LineSizeMonotone(a: nat, b: nat)
    requires a <= b
    ensures LineSize(a) <= LineSize(b)
  {
  }

  // Reading a line back.

  /** The packet in the first nine bits of a stream. */
  function ParsePacket(bits: seq<bool>): Packet
    requires |bits| >= 9
  {
    Packet(bits[0], NibbleValue(bits[1..5]), NibbleValue(bits[5..9]))
  }

  /** The first n packets of a stream. */
  function ParsePackets(bits: seq<bool>, n: nat): (pks: seq<Packet>)
    requires 9 * n <= |bits|
    ensures |pks| == n
  {
    if n == 0 then [] else [ParsePacket(bits[..9])] + ParsePackets(bits[9..], n - 1)
  }

  /** The pixels a packet list stands for: each packet is count + 1 pixels of
      its colour. */
  function ExpandPackets(pks: seq<Packet>): seq<bv8> {
    if pks == [] then [] else Repeat(pks[0].color, pks[0].count as nat + 1) + ExpandPackets(pks[1..])
  }

  /** A line read back: as many whole packets as its payload holds. */
  function DecodeLine(line: seq<bv8>): seq<bv8>
    requires |line| >= 1
  {
    var bits := Unpack(line[1..]);
    ExpandPackets(ParsePackets(bits, |bits| / 9))
  }

  // Properties of the packet split.

  /** A run of c pixels is cut into (c - 1) / 16 full repeat packets and a
      last packet holding count field (c - 1) % 16; the last one is a literal
      exactly when that field is 0. */
  lemma {:induction false} RunPacketsShape(count: nat, color: bv8)
    requires count >= 1
    ensures |RunPackets(count, color)| == (count - 1) / 16 + 1
    ensures forall i :: 0 <= i < (count - 1) / 16 ==> RunPackets(count, color)[i] == Packet(false, 15, color)
    ensures RunPackets(count, color)[(count - 1) / 16]
         == Packet((count - 1) % 16 == 0, ((count - 1) % 16) as bv8, color)
    decreases count
  {
    if count > 16 {
      var pks, rest := RunPackets(count, color), RunPackets(count - 16, color);
      RunPacketsShape(count - 16, color);
      var q, m := (count - 17) / 16, (count - 17) % 16;
      assert count - 1 == 16 * (q + 1) + m;
      assert (count - 1) / 16 == q + 1 && (count - 1) % 16 == m;
      assert pks == [Packet(false, 15, color)] + rest;
      forall i | 0 <= i < q + 1
        ensures pks[i] == Packet(false, 15, color)
      {
        if i > 0 {
          assert pks[i] == rest[i - 1];
        }
      }
      assert pks[q + 1] == rest[q];
    }
  }

  lemma {:induction false} RunPacketsNibbles(count: nat, color: bv8)
    requires count >= 1 && color < 16
    ensures NibbleFields(RunPackets(count, color))
    decreases count
  {
    if count > 16 {
      RunPacketsNibbles(count - 16, color);
    }
  }

  lemma {:induction false} PacketsNibbles(runs: seq<Run>)
    requires Positive(runs) && SmallColors(runs)
    ensures NibbleFields(Packets(runs))
  {
    if runs != [] {
      RunPacketsNibbles(runs[0].count, runs[0].color);
      PacketsNibbles(runs[1..]);
    }
  }

  lemma {:induction false} PacketsAppend(a: seq<Run>, b: seq<Run>)
    requires Positive(a) && Positive(b)
    ensures Positive(a + b) && Packets(a + b) == Packets(a) + Packets(b)
  {
    if a == [] {
      assert a + b == b;
    } else {
      assert (a + b)[1..] == a[1..] + b;
      PacketsAppend(a[1..], b);
    }
  }

  lemma {:induction false} StreamBitsAppend(a: seq<Packet>, b: seq<Packet>)
    ensures StreamBits(a + b) == StreamBits(a) + StreamBits(b)
  {
    if a == [] {
      assert a + b == b;
    } else {
      assert (a + b)[1..] == a[1..] + b;
      StreamBitsAppend(a[1..], b);
    }
  }

  lemma {:induction false} ExpandPacketsAppend(a: seq<Packet>, b: seq<Packet>)
    ensures ExpandPackets(a + b) == ExpandPackets(a) + ExpandPackets(b)
  {
    if a == [] {
      assert a + b == b;
    } else {
      assert (a + b)[1..] == a[1..] + b;
      ExpandPacketsAppend(a[1..], b);
    }
  }

  /** A count below 16 survives the trip through a `uint8_t` field. */
  lemma FieldRoundTrip(x: nat)
    requires x < 16
    ensures (x as bv8) as nat == x
  {
  }

  /** The packets of a run stand for the run's pixels. */
  lemma {:induction false} ExpandRunPackets(count: nat, color: bv8)
    requires count >= 1
    ensures ExpandPackets(RunPackets(count, color)) == Repeat(color, count)
    decreases count
  {
    var pks := RunPackets(count, color);
    if count > 16 {
      ExpandRunPackets(count - 16, color);
      assert pks[1..] == RunPackets(count - 16, color);
      assert Repeat(color, count) == Repeat(color, 16) + Repeat(color, count - 16);
    } else {
      FieldRoundTrip(count - 1);
      assert pks[1..] == [];
    }
  }

  /** The packets of a line stand for the row the runs stand for. */
  lemma {:induction false} ExpandPacketsOfRuns(runs: seq<Run>)
    requires Positive(runs)
    ensures ExpandPackets(Packets(runs)) == Expand(runs)
  {
    if runs != [] {
      ExpandPacketsAppend(RunPackets(runs[0].count, runs[0].color), Packets(runs[1..]));
      ExpandRunPackets(runs[0].count, runs[0].color);
      ExpandPacketsOfRuns(runs[1..]);
    }
  }

  /** A packet with 4-bit fields is read back from its nine bits. */
  lemma ParsePacketBits(pk: Packet)
    requires pk.count < 16 && pk.color < 16
    ensures ParsePacket(PacketBits(pk)) == pk
  {
    var bits := PacketBits(pk);
    assert bits[1..5] == NibbleBits(pk.count);
    assert bits[5..9] == NibbleBits(pk.color);
    NibbleRoundTrip(pk.count);
    NibbleRoundTrip(pk.color);
  }

  /** Parsing the stream of packets with 4-bit fields gives the packets back,
      whatever follows them. */
  lemma {:induction false} ParseStreamBits(pks: seq<Packet>, rest: seq<bool>)
    requires NibbleFields(pks)
    ensures ParsePackets(StreamBits(pks) + rest, |pks|) == pks
  {
    if pks != [] {
      var bits := StreamBits(pks) + rest;
      var pk := pks[0];
      assert bits == PacketBits(pk) + (StreamBits(pks[1..]) + rest);
      assert ParsePacket(bits[..9]) == pk by {
        assert bits[..9] == PacketBits(pk);
        ParsePacketBits(pk);
      }
      assert ParsePackets(bits[9..], |pks| - 1) == pks[1..] by {
        assert bits[9..] == StreamBits(pks[1..]) + rest;
        ParseStreamBits(pks[1..], rest);
      }
    }
  }

  /** The payload of an n-packet line holds n packets and less than one more. */
  lemma PayloadHoldsPackets(n: nat)
    ensures 9 * n < 8 * (LineSize(n) - 1) && 8 * (LineSize(n) - 1) / 9 == n
  {
  }

  /** Reading back the line of a row's runs gives the row, when every colour
      fits its 4-bit field. */
  lemma DecodeEncode(runs: seq<Run>)
    requires Positive(runs) && SmallColors(runs)
    ensures DecodeLine(EncodeLine(runs)) == Expand(runs)
  {
    var pks := Packets(runs);
    var line := EncodeLine(runs);
    var bits := StreamBits(pks);
    var n := LineSize(|pks|) - 1;
    PayloadHoldsPackets(|pks|);
    assert line[1..] == Packed(bits, n);
    UnpackPacked(bits, n);
    PacketsNibbles(runs);
    ParseStreamBits(pks, Zeros(8 * n - |bits|));
    ExpandPacketsOfRuns(runs);
  }

  lemma StreamBitsSnoc(pks: seq<Packet>, pk: Packet)
    ensures StreamBits(pks + [pk]) == StreamBits(pks) + PacketBits(pk)
  {
    StreamBitsAppend(pks, [pk]);
    assert StreamBits([pk]) == PacketBits(pk) + StreamBits([]);
  }

  lemma PackedPrefix(bits: seq<bool>, n: nat, m: nat)
    requires m <= n
    ensures Packed(bits, n)[..m] == Packed(bits, m)
  {
  }

  /** n packets behind the header byte fit a 256-byte buffer exactly when the
      line they make is at most 256 bytes long. */
  lemma FitsBuffer(n: nat)
    ensures LineSize(n) <= 256 <==> 8 + 9 * n < 8 * 256
  {
  }

  /** The line size is the byte under the cursor, plus one. */
  lemma CursorSize(p: nat, bitindex: nat, n: nat)
    requires bitindex < 8 && 8 * p + bitindex == 8 + 9 * n
    ensures p + 1 == LineSize(n)
  {
  }

  // The writer.

  /** The cursor after the marker bit, clear or set: one bit on, into the
      next byte after bit 7. */
  function Step(p: nat, bitindex: nat): (nat, nat) {
    if bitindex + 1 > 7 then (p + 1, 0) else (p, bitindex + 1)
  }

  lemma AppendPacketBits(bits: seq<bool>, pk: Packet)
    ensures bits + PacketBits(pk) == bits + [pk.literal] + NibbleBits(pk.count) + NibbleBits(pk.color)
  {
  }

  /** How the stores of a repeat packet add up: a blank marker bit, then two
      fields. */
  lemma RepeatStored(s0: seq<bv8>, s1: seq<bv8>, s2: seq<bv8>, p: nat, bitindex: nat,
                     q: nat, c: nat, q1: nat, c1: nat, next: nat, count: bv8, color: bv8,
                     base: nat, bits: seq<bool>)
    requires bitindex < 8 && (q, c) == Step(p, bitindex)
    requires TailClear(s0, q) ==> TailClear(s1, q1)
    requires TailClear(s1, q1) ==> TailClear(s2, next)
    requires base <= q && |bits + [false]| == 8 * (q - base) + c && count < 16
             && Holds(s0, base, bits + [false])
             ==> Holds(s1, base, bits + [false] + NibbleBits(count))
    requires c1 < 8 && 8 * q1 + c1 == 8 * q + c + 4
    requires base <= q1 && |bits + [false] + NibbleBits(count)| == 8 * (q1 - base) + c1 && color < 16
             && Holds(s1, base, bits + [false] + NibbleBits(count))
             ==> Holds(s2, base, bits + [false] + NibbleBits(count) + NibbleBits(color))
    ensures TailClear(s0, p) ==> TailClear(s2, next)
    ensures base <= p && |bits| == 8 * (p - base) + bitindex && count < 16 && color < 16
            && Holds(s0, base, bits)
            ==> Holds(s2, base, bits + PacketBits(Packet(false, count, color)))
  {
    assert TailClear(s0, p) ==> TailClear(s2, next) by {
      if TailClear(s0, p) && q != p {
        TailClearAdvance(s0, p);
      }
    }
    if base <= p && |bits| == 8 * (p - base) + bitindex && count < 16 && color < 16 && Holds(s0, base, bits) {
      var b0 := bits + [false];
      var b1 := b0 + NibbleBits(count);
      assert Holds(s1, base, b1) by {
        BlankWritten(s0, base, bits);
        assert |b0| == 8 * (q - base) + c;
      }
      assert Holds(s2, base, b1 + NibbleBits(color)) by {
        assert |b1| == 8 * (q1 - base) + c1;
      }
      AppendPacketBits(bits, Packet(false, count, color));
    }
  }

  /** How the stores of a literal packet add up: the marker bit ORed in, then
      `set_literal`'s two fields. */
  lemma LiteralStored(s0: seq<bv8>, s1: seq<bv8>, s2: seq<bv8>, p: nat, bitindex: nat,
                      q: nat, c: nat, next: nat, color: bv8, base: nat, bits: seq<bool>)
    requires bitindex < 8 && p < |s0| && (q, c) == Step(p, bitindex)
    requires s1 == s0[p := s0[p] | (1 << (7 - bitindex))]
    requires TailClear(s1, q) ==> TailClear(s2, next)
    requires base <= q && |bits + [true]| == 8 * (q - base) + c && color < 16 && (0 as bv8) < 16
             && Holds(s1, base, bits + [true])
             ==> Holds(s2, base, bits + [true] + NibbleBits(0) + NibbleBits(color))
    ensures TailClear(s0, p) ==> TailClear(s2, next)
    ensures base <= p && |bits| == 8 * (p - base) + bitindex && color < 16
            && Holds(s0, base, bits)
            ==> Holds(s2, base, bits + PacketBits(Packet(true, 0, color)))
  {
    assert TailClear(s0, p) ==> TailClear(s2, next) by {
      if TailClear(s0, p) {
        TailClearMarker(s0, p, bitindex);
      }
    }
    if base <= p && |bits| == 8 * (p - base) + bitindex && color < 16 && Holds(s0, base, bits) {
      assert Holds(s1, base, bits + [true]) by {
        MarkerWritten(s0, base, bits, p, bitindex);
      }
      AppendPacketBits(bits, Packet(true, 0, color));
    }
  }

  // The writer.

  /** A repeat packet as `pack_line` writes it: the cursor moves past a clear
      marker bit, then `set_bits` writes the count field and the colour field. */
  method RepeatPacket(buf: array<bv8>, p: nat, bitindex: nat, count: bv8, color: bv8,
                      ghost base: nat, ghost bits: seq<bool>)
    returns (next: nat, nextIndex: nat)
    requires bitindex < 8 && 8 * p + bitindex + 9 <= 8 * buf.Length
    modifies buf
    ensures nextIndex < 8 && 8 * next + nextIndex == 8 * p + bitindex + 9
    ensures buf[..p] == old(buf[..p])
    ensures TailClear(old(buf[..]), p) ==> TailClear(buf[..], next)
    ensures base <= p && |bits| == 8 * (p - base) + bitindex && count < 16 && color < 16
            && Holds(old(buf[..]), base, bits)
            ==> Holds(buf[..], base, bits + PacketBits(Packet(false, count, color)))
  {
    var q, c := p, bitindex + 1;
    if c > 7 {
      q, c := p + 1, 0;
    }
    ghost var s0 := buf[..];
    var q1, c1 := SetBits(buf, q, c, count, base, bits + [false]);
    ghost var s1 := buf[..];
    next, nextIndex := SetBits(buf, q1, c1, color, base, bits + [false] + NibbleBits(count));
    RepeatStored(s0, s1, buf[..], p, bitindex, q, c, q1, c1, next, count, color, base, bits);
  }

  /** A literal packet as `pack_line` writes it for a last count of 1: the
      marker bit is ORed in, the cursor moves past it, and `set_literal`
      writes the count field 0 and the colour field. */
  method LiteralPacket(buf: array<bv8>, p: nat, bitindex: nat, color: bv8,
                       ghost base: nat, ghost bits: seq<bool>)
    returns (next: nat, nextIndex: nat)
    requires bitindex < 8 && 8 * p + bitindex + 9 <= 8 * buf.Length
    modifies buf
    ensures nextIndex < 8 && 8 * next + nextIndex == 8 * p + bitindex + 9
    ensures buf[..p] == old(buf[..p])
    ensures TailClear(old(buf[..]), p) ==> TailClear(buf[..], next)
    ensures base <= p && |bits| == 8 * (p - base) + bitindex && color < 16
            && Holds(old(buf[..]), base, bits)
            ==> Holds(buf[..], base, bits + PacketBits(Packet(true, 0, color)))
  {
    ghost var s0 := buf[..];
    var marked := buf[p] | (1 << (7 - bitindex));
    buf[p] := marked;
    ghost var s1 := buf[..];
    assert s1 == s0[p := s0[p] | (1 << (7 - bitindex))];
    var q, c := p, bitindex + 1;
    if c > 7 {
      q, c := p + 1, 0;
    }
    next, nextIndex := SetLiteral(buf, q, c, color, 0, base, bits + [true]);
    LiteralStored(s0, s1, buf[..], p, bitindex, q, c, next, color, base, bits);
  }

  lemma PacketsFrom(runs: seq<Run>, i: nat)
    requires Positive(runs) && i < |runs|
    ensures Positive(runs[i..]) && Positive(runs[i + 1..])
    ensures Packets(runs[i..]) == RunPackets(runs[i].count, runs[i].color) + Packets(runs[i + 1..])
  {
    assert runs[i..][1..] == runs[i + 1..];
  }

  /** The body of `pack_line`'s loop for one run: repeat packets of 16 while
      more than 16 pixels remain, then a literal packet for a last single
      pixel or a repeat packet for the rest. `pks` are the packets already
      written behind the header byte; `small` says the stream is being kept
      (every colour fits its field). */
  method PackRun(buf: array<bv8>, p: nat, bitindex: nat, count: nat, color: bv8,
                 ghost pks: seq<Packet>, ghost small: bool)
    returns (next: nat, nextIndex: nat)
    requires count >= 1 && bitindex < 8 && 8 * p + bitindex == 8 + 9 * |pks|
    requires 8 + 9 * (|pks| + |RunPackets(count, color)|) <= 8 * buf.Length
    requires TailClear(buf[..], p)
    requires small ==> color < 16 && Holds(buf[..], 1, StreamBits(pks))
    modifies buf
    ensures nextIndex < 8 && 8 * next + nextIndex == 8 + 9 * |pks + RunPackets(count, color)|
    ensures buf[..p] == old(buf[..p]) && buf[0] == old(buf[0])
    ensures TailClear(buf[..], next)
    ensures small ==> Holds(buf[..], 1, StreamBits(pks + RunPackets(count, color)))
  {
    next, nextIndex := p, bitindex;
    var left := count;
    ghost var done := pks;
    ghost var front := buf[..p];
    while left > 16
      invariant 1 <= left && p <= next && buf[..p] == front
      invariant done + RunPackets(left, color) == pks + RunPackets(count, color)
      invariant nextIndex < 8 && 8 * next + nextIndex == 8 + 9 * |done|
      invariant TailClear(buf[..], next)
      invariant small ==> Holds(buf[..], 1, StreamBits(done))
    {
      var pk := Packet(false, 15, color);
      assert RunPackets(left, color) == [pk] + RunPackets(left - 16, color);
      assert (done + [pk]) + RunPackets(left - 16, color) == pks + RunPackets(count, color);
      ghost var before, at := buf[..], next;
      next, nextIndex := RepeatPacket(buf, next, nextIndex, 0x0F, color, 1, StreamBits(done));
      SamePrefix(buf[..], before, p, at);
      StreamBitsSnoc(done, pk);
      done := done + [pk];
      left := left - 16;
    }
    ghost var before, at := buf[..], next;
    next, nextIndex := PackLast(buf, next, nextIndex, left, color, done, small);
    SamePrefix(buf[..], before, p, at);
    assert buf[..p][0] == buf[0];
  }

  /** Two buffers that agree below n agree below any m <= n. */
  lemma SamePrefix(a: seq<bv8>, b: seq<bv8>, m: nat, n: nat)
    requires m <= n <= |a| && n <= |b| && a[..n] == b[..n]
    ensures a[..m] == b[..m]
  {
    assert a[..m] == a[..n][..m] && b[..m] == b[..n][..m];
  }

  /** The last packet of a run, once at most 16 pixels remain: a literal
      packet for a single pixel, otherwise a repeat packet. */
  method PackLast(buf: array<bv8>, p: nat, bitindex: nat, left: nat, color: bv8,
                  ghost pks: seq<Packet>, ghost small: bool)
    returns (next: nat, nextIndex: nat)
    requires 1 <= left <= 16 && bitindex < 8 && 8 * p + bitindex == 8 + 9 * |pks|
    requires 8 + 9 * (|pks| + 1) <= 8 * buf.Length
    requires TailClear(buf[..], p)
    requires small ==> color < 16 && Holds(buf[..], 1, StreamBits(pks))
    modifies buf
    ensures nextIndex < 8 && 8 * next + nextIndex == 8 + 9 * |pks + RunPackets(left, color)|
    ensures buf[..p] == old(buf[..p])
    ensures TailClear(buf[..], next)
    ensures small ==> Holds(buf[..], 1, StreamBits(pks + RunPackets(left, color)))
  {
    var pk;
    if left == 1 {
      pk := Packet(true, 0, color);
      next, nextIndex := LiteralPacket(buf, p, bitindex, color, 1, StreamBits(pks));
    } else {
      FieldRoundTrip(left - 1);
      pk := Packet(false, (left - 1) as bv8, color);
      next, nextIndex := RepeatPacket(buf, p, bitindex, (left - 1) as bv8, color, 1, StreamBits(pks));
    }
    assert RunPackets(left, color) == [pk];
    StreamBitsSnoc(pks, pk);
  }

  /** `pack_line`: the header byte 0xFF is reserved, every run is written as
      its packets, and the header is overwritten with the line size (stored
      into a `uint8_t`). The result is the line that is printed, and
      `corrected` is the condition of the "hardware bug" check, which never
      holds: the last byte is the one under the cursor, whose last bit is
      never written. */
  method PackLine(runs: seq<Run>) returns (line: seq<bv8>, corrected: bool)
    requires |runs| >= 1 && Positive(runs)
    requires LineSize(|Packets(runs)|) <= 256
    ensures |line| == LineSize(|Packets(runs)|)
    ensures line[0] == (|line| % 256) as bv8
    ensures line[|line| - 1] & 1 == 0 && !corrected
    ensures SmallColors(runs) ==> line == EncodeLine(runs)
  {
    var tmpbuf := NewLineBuffer();
    ghost var small := SmallColors(runs);
    ghost var n := |Packets(runs)|;
    FitsBuffer(n);
    var p, bitindex := PackRuns(tmpbuf, runs, small);
    CursorSize(p, bitindex, n);
    line, corrected := WriteHeader(tmpbuf, p, runs, small);
  }

  /** `tmpbuf`, zeroed, with the header byte reserved as 0xFF. */
  method NewLineBuffer() returns (buf: array<bv8>)
    ensures fresh(buf) && buf.Length == 256 && buf[0] == 0xFF
    ensures forall j :: 1 <= j < 256 ==> buf[j] == 0
    ensures TailClear(buf[..], 1) && Holds(buf[..], 1, [])
  {
    buf := new bv8[256](_ => 0);
    buf[0] := 0xFF;
    ZeroedBuffer(buf[..]);
  }

  /** A buffer that is zero from byte 1 on holds the empty stream there, with
      a clear tail behind the cursor at byte 1. */
  lemma ZeroedBuffer(buf: seq<bv8>)
    requires |buf| >= 1 && forall j :: 1 <= j < |buf| ==> buf[j] == 0
    ensures TailClear(buf, 1) && Holds(buf, 1, [])
  {
    assert Octet(false, false, false, false, false, false, false, false) == 0;
    assert buf[1..] == Packed([], |buf| - 1);
  }

  /** The loop of `pack_line` over the run list, writing from bit 0 of byte 1
      of a zeroed buffer: the cursor ends 9 bits per packet further on, the
      bytes behind it stay clear, and, when kept, the buffer holds the
      packet stream. */
  method PackRuns(buf: array<bv8>, runs: seq<Run>, ghost small: bool) returns (p: nat, bitindex: nat)
    requires Positive(runs) && 8 + 9 * |Packets(runs)| <= 8 * buf.Length
    requires TailClear(buf[..], 1)
    requires small ==> SmallColors(runs) && Holds(buf[..], 1, [])
    modifies buf
    ensures bitindex < 8 && 8 * p + bitindex == 8 + 9 * |Packets(runs)|
    ensures buf[0] == old(buf[0])
    ensures TailClear(buf[..], p)
    ensures small ==> Holds(buf[..], 1, StreamBits(Packets(runs)))
  {
    p, bitindex := 1, 0;
    ghost var pks: seq<Packet> := [];
    ghost var total := Packets(runs);
    assert runs[0..] == runs;
    var i := 0;
    while i < |runs|
      invariant 0 <= i <= |runs| && Positive(runs[i..])
      invariant pks + Packets(runs[i..]) == total
      invariant bitindex < 8 && 8 * p + bitindex == 8 + 9 * |pks|
      invariant TailClear(buf[..], p)
      invariant small ==> Holds(buf[..], 1, StreamBits(pks))
      invariant buf[0] == old(buf[0])
    {
      PacketsFrom(runs, i);
      ghost var emitted := pks + RunPackets(runs[i].count, runs[i].color);
      assert emitted + Packets(runs[i + 1..]) == pks + Packets(runs[i..]);
      p, bitindex := PackRun(buf, p, bitindex, runs[i].count, runs[i].color, pks, small);
      pks := emitted;
      i := i + 1;
    }
    assert pks == total;
  }

  /** The end of `pack_line`: the size `p - tmpbuf + 1` is stored into the
      header byte, the "hardware bug" check looks at the last bit of the last
      byte, and the first `size` bytes are the line. */
  method WriteHeader(buf: array<bv8>, p: nat, ghost runs: seq<Run>, ghost small: bool)
    returns (line: seq<bv8>, corrected: bool)
    requires Positive(runs) && 1 <= p < buf.Length && p + 1 == LineSize(|Packets(runs)|)
    requires TailClear(buf[..], p)
    requires small ==> Holds(buf[..], 1, StreamBits(Packets(runs)))
    modifies buf
    ensures |line| == LineSize(|Packets(runs)|)
    ensures line[0] == (|line| % 256) as bv8
    ensures line[|line| - 1] & 1 == 0 && !corrected
    ensures small ==> line == EncodeLine(runs)
  {
    ghost var stream := buf[..];
    var size := p + 1;
    buf[0] := (size % 256) as bv8;
    assert buf[..] == stream[0 := (size % 256) as bv8];
    corrected := buf[size - 1] & 0x1 != 0;
    line := buf[..size];
    assert line[|line| - 1] == stream[p];
    if small {
      HeaderAndStream(stream, size, StreamBits(Packets(runs)), (size % 256) as bv8);
    }
  }

  /** Overwriting the header byte of a buffer that holds a stream from byte 1
      on: the first n bytes are the header and the packed stream. */
  lemma HeaderAndStream(buf: seq<bv8>, n: nat, bits: seq<bool>, header: bv8)
    requires 1 <= n <= |buf| && Holds(buf, 1, bits)
    ensures buf[0 := header][..n] == [header] + Packed(bits, n - 1)
  {
    PackedPrefix(bits, |buf| - 1, n - 1);
    assert buf[0 := header][..n] == [header] + buf[1..][..n - 1];
  }

  /** A line of one packet is three bytes: the size 3 and the two bytes the
      nine packet bits reach. */
  lemma OnePacketLine(runs: seq<Run>)
    requires Positive(runs) && |Packets(runs)| == 1
    ensures EncodeLine(runs) == [0x03, ByteAt(StreamBits(Packets(runs)), 0), ByteAt(StreamBits(Packets(runs)), 1)]
  {
    var bits := StreamBits(Packets(runs));
    assert LineSize(|Packets(runs)|) == 3;
    assert EncodeLine(runs) == [0x03] + Packed(bits, 2);
    PackedTwo(bits);
  }

  lemma PackedTwo(bits: seq<bool>)
    ensures Packed(bits, 2) == [ByteAt(bits, 0), ByteAt(bits, 1)]
  {
  }

  lemma RepeatBits()
    ensures StreamBits(Packets([Run(3, 5)])) == [false, false, false, true, false, false, true, false, true]
  {
    assert RunPackets(3, 5) == [Packet(false, 2, 5)];
    assert Packets([Run(3, 5)]) == [Packet(false, 2, 5)] + Packets([]);
    assert NibbleBits(2) == [false, false, true, false];
    assert NibbleBits(5) == [false, true, false, true];
    assert StreamBits([Packet(false, 2, 5)]) == PacketBits(Packet(false, 2, 5)) + StreamBits([]);
  }

  /** The row [5, 5, 5]: one repeat packet 0 0010 0101 after the size byte 3. */
  lemma ExampleRepeat()
    ensures EncodeLine([Run(3, 5)]) == [0x03, 0x12, 0x80]
  {
    RepeatBits();
    OnePacketLine([Run(3, 5)]);
    FirstOfNine([false, false, false, true, false, false, true, false, true]);
    SecondOfNine([false, false, false, true, false, false, true, false, true]);
    assert Octet(false, false, false, true, false, false, true, false) == 0x12;
    assert Octet(true, false, false, false, false, false, false, false) == 0x80;
  }

  lemma LiteralBits()
    ensures StreamBits(Packets([Run(1, 0)])) == [true, false, false, false, false, false, false, false, false]
  {
    assert RunPackets(1, 0) == [Packet(true, 0, 0)];
    assert Packets([Run(1, 0)]) == [Packet(true, 0, 0)] + Packets([]);
    assert NibbleBits(0) == [false, false, false, false];
    assert StreamBits([Packet(true, 0, 0)]) == PacketBits(Packet(true, 0, 0)) + StreamBits([]);
  }

  /** The row [0]: one literal packet 1 0000 0000 after the size byte 3. */
  lemma ExampleLiteral()
    ensures EncodeLine([Run(1, 0)]) == [0x03, 0x80, 0x00]
  {
    LiteralBits();
    OnePacketLine([Run(1, 0)]);
    FirstOfNine([true, false, false, false, false, false, false, false, false]);
    SecondOfNine([true, false, false, false, false, false, false, false, false]);
    assert Octet(true, false, false, false, false, false, false, false) == 0x80;
    assert Octet(false, false, false, false, false, false, false, false) == 0x00;
  }
}
