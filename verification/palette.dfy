/** The palette builder shared by lynximg.c and packit.c: every distinct
    24-bit colour gets the next free slot of a 256-entry table, in the order
    the colours are first met, and each pixel is replaced by its slot. */
module Palette {

  /** `MAX_COLORS`: the size of `palettebuf`. */
  const MaxColors: nat := 256
  /** Beyond this many colours the converter warns: a slot no longer fits a nibble. */
  const NibbleColors: nat := 16

  /** A 24-bit pixel as stored in the bitmap: blue, green, red bytes. */
  datatype Pixel = Pixel(b: bv8, g: bv8, r: bv8)

  /** The colour key `(b << 16) | (g << 8) | r`. The C `int` it is computed in
      never holds more than 24 bits, so it is a `bv32` here. */
  function Key(px: Pixel): (k: bv32)
    ensures k < 0x100_0000
  {
    (px.b as bv32 << 16) | (px.g as bv32 << 8) | px.r as bv32
  }

  /** The three channels a key was built from. */
  function Channels(k: bv32): Pixel {
    Pixel(((k >> 16) & 0xFF) as bv8, ((k >> 8) & 0xFF) as bv8, (k & 0xFF) as bv8)
  }

  lemma KeyRoundTrip(px: Pixel)
    ensures Channels(Key(px)) == px
  {
  }

  /** Two pixels share a key exactly when all three channels agree. */
  lemma KeyInjective(p: Pixel, q: Pixel)
    ensures Key(p) == Key(q) <==> p == q
  {
    if Key(p) == Key(q) {
      KeyRoundTrip(p);
      KeyRoundTrip(q);
    }
  }

  /** The keys of a row, left to right. */
  function RowKeys(row: seq<Pixel>): (keys: seq<bv32>)
    ensures |keys| == |row| && forall i :: 0 <= i < |row| ==> keys[i] == Key(row[i])
  {
    seq(|row|, i requires 0 <= i < |row| => Key(row[i]))
  }

  /** The keys of an image, row by row. */
  function ImageKeys(image: seq<seq<Pixel>>): seq<bv32> {
    if image == [] then [] else ImageKeys(image[..|image| - 1]) + RowKeys(image[|image| - 1])
  }

  predicate Distinct(s: seq<bv32>) {
    forall i, j :: 0 <= i < j < |s| ==> s[i] != s[j]
  }

  // The table as a function of the keys met so far.

  /** Meeting one key: a new key is appended, a known one changes nothing. */
  function Learn(pal: seq<bv32>, key: bv32): seq<bv32> {
    if key in pal then pal else pal + [key]
  }

  /** The table after meeting `keys` in order, starting from `pal`. */
  function LearnAll(pal: seq<bv32>, keys: seq<bv32>): seq<bv32>
    decreases |keys|
  {
    if keys == [] then pal else Learn(LearnAll(pal, keys[..|keys| - 1]), keys[|keys| - 1])
  }

  lemma LearnAllSnoc(pal: seq<bv32>, keys: seq<bv32>, key: bv32)
    ensures LearnAll(pal, keys + [key]) == Learn(LearnAll(pal, keys), key)
  {
    assert (keys + [key])[..|keys|] == keys;
  }

  /** Meeting `a` and then `b` is meeting `a + b`. */
  lemma {:induction false} LearnAllAppend(pal: seq<bv32>, a: seq<bv32>, b: seq<bv32>)
    ensures LearnAll(pal, a + b) == LearnAll(LearnAll(pal, a), b)
    decreases |b|
  {
    if b == [] {
      assert a + b == a;
    } else {
      var front, last := b[..|b| - 1], b[|b| - 1];
      assert a + b == (a + front) + [last];
      assert b == front + [last];
      LearnAllSnoc(pal, a + front, last);
      LearnAllSnoc(LearnAll(pal, a), front, last);
      LearnAllAppend(pal, a, front);
    }
  }

  /** The table only grows at its end: entries already there keep their slot. */
  lemma {:induction false} LearnAllExtends(pal: seq<bv32>, keys: seq<bv32>)
    ensures |pal| <= |LearnAll(pal, keys)| && LearnAll(pal, keys)[..|pal|] == pal
    decreases |keys|
  {
    if keys != [] {
      LearnAllExtends(pal, keys[..|keys| - 1]);
    }
  }

  /** Meeting one more key adds at most one entry. */
  lemma LearnAllGrowth(pal: seq<bv32>, keys: seq<bv32>, key: bv32)
    ensures |LearnAll(pal, keys)| <= |LearnAll(pal, keys + [key])| <= |LearnAll(pal, keys)| + 1
  {
    LearnAllSnoc(pal, keys, key);
  }

  /** A table without duplicates stays without duplicates. */
  lemma {:induction false} LearnAllDistinct(pal: seq<bv32>, keys: seq<bv32>)
    requires Distinct(pal)
    ensures Distinct(LearnAll(pal, keys))
    decreases |keys|
  {
    if keys != [] {
      LearnAllDistinct(pal, keys[..|keys| - 1]);
    }
  }

  /** The table holds exactly the starting entries and the keys met. */
  lemma {:induction false} LearnAllElements(pal: seq<bv32>, keys: seq<bv32>)
    ensures forall x :: x in LearnAll(pal, keys) <==> x in pal || x in keys
    decreases |keys|
  {
    if keys != [] {
      var front := keys[..|keys| - 1];
      LearnAllElements(pal, front);
      assert keys == front + [keys[|keys| - 1]];
    }
  }

  /** Position of the first occurrence of x in s. */
  function FirstIndex(s: seq<bv32>, x: bv32): (i: nat)
    requires x in s
    ensures i < |s| && s[i] == x && forall j :: 0 <= j < i ==> s[j] != x
  {
    if s[0] == x then 0 else 1 + FirstIndex(s[1..], x)
  }

  /** Appending an element keeps the order of first occurrences of the
      elements already present... */
  lemma FirstIndexKept(s: seq<bv32>, y: bv32, a: bv32, b: bv32)
    requires a in s && b in s && FirstIndex(s, a) < FirstIndex(s, b)
    ensures FirstIndex(s + [y], a) < FirstIndex(s + [y], b)
  {
    FirstIndexSnoc(s, y, a);
    FirstIndexSnoc(s, y, b);
  }

  /** ... and a new element first occurs after all of them. */
  lemma FirstIndexNew(s: seq<bv32>, y: bv32, a: bv32)
    requires a in s && y !in s
    ensures FirstIndex(s + [y], a) < FirstIndex(s + [y], y)
  {
    FirstIndexSnoc(s, y, a);
    assert (s + [y])[|s|] == y;
  }

  lemma FirstIndexSnoc(s: seq<bv32>, y: bv32, x: bv32)
    requires x in s
    ensures FirstIndex(s + [y], x) == FirstIndex(s, x)
  {
    var i := FirstIndex(s, x);
    assert (s + [y])[i] == x;
  }

  /** The first occurrence is the one no earlier position matches. */
  lemma FirstIndexIs(s: seq<bv32>, x: bv32, i: nat)
    requires i < |s| && s[i] == x && forall j :: 0 <= j < i ==> s[j] != x
    ensures FirstIndex(s, x) == i
  {
  }

  /** Extending a sequence keeps the first occurrence of what it holds. */
  lemma FirstIndexPrefix(s: seq<bv32>, t: seq<bv32>, x: bv32)
    requires x in s
    ensures x in s + t && FirstIndex(s + t, x) == FirstIndex(s, x)
  {
    var i := FirstIndex(s, x);
    assert (s + t)[i] == x;
    FirstIndexIs(s + t, x, i);
  }

  /** First-seen order: the table lists the keys in the order in which they
      first appear among the starting entries and the keys met. */
  lemma {:induction false} LearnAllFirstSeen(pal: seq<bv32>, keys: seq<bv32>, i: nat, j: nat)
    requires Distinct(pal)
    requires i < j < |LearnAll(pal, keys)|
    ensures LearnAll(pal, keys)[i] in pal + keys && LearnAll(pal, keys)[j] in pal + keys
    ensures FirstIndex(pal + keys, LearnAll(pal, keys)[i]) < FirstIndex(pal + keys, LearnAll(pal, keys)[j])
    decreases |keys|
  {
    var t := LearnAll(pal, keys);
    LearnAllElements(pal, keys);
    assert t[i] in t && t[j] in t;
    if keys == [] {
      assert pal + keys == pal;
      assert FirstIndex(pal, t[i]) == i && FirstIndex(pal, t[j]) == j;
    } else {
      var front, last := keys[..|keys| - 1], keys[|keys| - 1];
      var s := LearnAll(pal, front);
      assert pal + keys == (pal + front) + [last];
      if j < |s| {
        LearnAllFirstSeen(pal, front, i, j);
        FirstIndexKept(pal + front, last, s[i], s[j]);
      } else {
        LearnAllElements(pal, front);
        assert s[i] in s;
        FirstIndexNew(pal + front, last, s[i]);
      }
    }
  }

  /** The keys of the first h + 1 rows are those of the first h, then row h's. */
  lemma ImageKeysSnoc(image: seq<seq<Pixel>>, h: nat)
    requires h < |image|
    ensures ImageKeys(image[..h + 1]) == ImageKeys(image[..h]) + RowKeys(image[h])
  {
    assert image[..h + 1][..h] == image[..h];
  }

  /** The table of a longer run of rows extends the table of a shorter one. */
  lemma {:induction false} ImageTableExtends(image: seq<seq<Pixel>>, a: nat, b: nat)
    requires a <= b <= |image|
    ensures |LearnAll([], ImageKeys(image[..a]))| <= |LearnAll([], ImageKeys(image[..b]))|
    ensures LearnAll([], ImageKeys(image[..b]))[..|LearnAll([], ImageKeys(image[..a]))|]
         == LearnAll([], ImageKeys(image[..a]))
    decreases b - a
  {
    if a < b {
      ImageTableExtends(image, a + 1, b);
      ImageKeysSnoc(image, a);
      LearnAllAppend([], ImageKeys(image[..a]), RowKeys(image[a]));
      LearnAllExtends(LearnAll([], ImageKeys(image[..a])), RowKeys(image[a]));
    }
  }

  /** The table learnt from a prefix of the keys is a prefix of the table
      learnt from all of them. */
  lemma KeysPrefixTable(start: seq<bv32>, keys: seq<bv32>, n: nat)
    requires n <= |keys|
    ensures |LearnAll(start, keys[..n])| <= |LearnAll(start, keys)|
    ensures LearnAll(start, keys)[..|LearnAll(start, keys[..n])|] == LearnAll(start, keys[..n])
  {
    assert keys == keys[..n] + keys[n..];
    LearnAllAppend(start, keys[..n], keys[n..]);
    LearnAllExtends(LearnAll(start, keys[..n]), keys[n..]);
  }

  /** A full table meeting a key it lacks: the row's keys overflow it, and
      what it holds are the first MaxColors entries of the row's table. */
  lemma RowOverflow(start: seq<bv32>, row: seq<Pixel>, w: nat, before: seq<bv32>)
    requires w < |row| && before == LearnAll(start, RowKeys(row)[..w])
    requires |before| == MaxColors && Key(row[w]) !in before
    ensures |LearnAll(start, RowKeys(row))| > MaxColors
    ensures LearnAll(start, RowKeys(row))[..MaxColors] == before
  {
    var keys := RowKeys(row);
    assert keys[..w + 1] == keys[..w] + [Key(row[w])];
    LearnAllSnoc(start, keys[..w], Key(row[w]));
    KeysPrefixTable(start, keys, w + 1);
    assert (before + [Key(row[w])])[..MaxColors] == before;
  }

  /** Rows 0..h overflowing the table: so do all the rows, and both tables
      open with the same MaxColors entries. */
  lemma ImageOverflow(image: seq<seq<Pixel>>, h: nat)
    requires h < |image| && |LearnAll([], ImageKeys(image[..h + 1]))| > MaxColors
    ensures |LearnAll([], ImageKeys(image))| > MaxColors
    ensures LearnAll([], ImageKeys(image))[..MaxColors] == LearnAll([], ImageKeys(image[..h + 1]))[..MaxColors]
  {
    ImageTableExtends(image, h + 1, |image|);
    assert image[..|image|] == image;
  }

  // The C routines.

  /** `check_unique`: 1 when `color` is not among the first `count` entries, else 0. */
  method CheckUnique(color: bv32, palette: array<bv32>, count: nat) returns (unique: int)
    requires count <= palette.Length
    ensures unique == 1 <==> color !in palette[..count]
    ensures unique == 0 <==> color in palette[..count]
  {
    var i := 0;
    while i < count
      invariant i <= count
      invariant color !in palette[..i]
    {
      if palette[i] == color {
        return 0;
      }
      assert palette[..i + 1] == palette[..i] + [palette[i]];
      i := i + 1;
    }
    return 1;
  }

  /** `get_paletteindex`: the first slot among the first `count` holding
      `color`, or -1 when there is none. */
  method GetPaletteIndex(color: bv32, palette: array<bv32>, count: nat) returns (idx: int)
    requires count <= palette.Length
    ensures -1 <= idx < count
    ensures idx == -1 <==> color !in palette[..count]
    ensures 0 <= idx ==> palette[idx] == color && forall j :: 0 <= j < idx ==> palette[j] != color
  {
    idx := 0;
    while idx < count
      invariant idx <= count
      invariant forall j :: 0 <= j < idx ==> palette[j] != color
    {
      if palette[idx] == color {
        return;
      }
      idx := idx + 1;
    }
    return -1;
  }

  /** One step of the palette loop of `main`: a key not yet in the table is
      appended, unless the table is full (then `ok` is false and nothing is
      written); past 16 entries each new key draws a warning. */
  method AddColour(palette: array<bv32>, count: nat, key: bv32) returns (ok: bool, newCount: nat, warned: bool)
    requires palette.Length == MaxColors && count <= MaxColors
    modifies palette
    ensures ok <==> key in old(palette[..count]) || count < MaxColors
    ensures ok ==> newCount == |Learn(old(palette[..count]), key)|
                   && palette[..newCount] == Learn(old(palette[..count]), key)
                   && palette[newCount..] == old(palette[newCount..])
    ensures !ok ==> newCount == count && palette[..] == old(palette[..])
    ensures warned <==> ok && count < newCount && newCount > NibbleColors
  {
    var unique := CheckUnique(key, palette, count);
    ok, newCount, warned := true, count, false;
    if unique == 1 {
      if count + 1 > MaxColors {
        ok := false;
        return;
      }
      if count + 1 > NibbleColors {
        warned := true;
      }
      palette[count] := key;
      newCount := count + 1;
      assert palette[..newCount] == old(palette[..count]) + [key];
    }
  }
}
