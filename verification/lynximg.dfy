/** The conversion loop of `lynximg`: every row of a 24-bit image is read
    pixel by pixel into the colour table, turned into a row of table
    indices, split into runs and packed into one sprite line. */
module LynxImg {
  import opened Palette
  import opened RunLength
  import opened Packer

  /** The widest row whose packed line fits the 256-byte line buffer. */
  const MaxWidth: nat := 226

  /** The byte stored for a pixel: its colour's slot in the table, kept in a
      `uint8_t` (a miss, -1, would be stored as 0xFF). */
  function PixelIndex(pal: seq<bv32>, px: Pixel): bv8 {
    if Key(px) in pal then (FirstIndex(pal, Key(px)) % 256) as bv8 else 0xFF
  }

  /** The index row of a pixel row against a table. */
  function Indices(pal: seq<bv32>, row: seq<Pixel>): (indices: seq<bv8>)
    ensures |indices| == |row|
  {
    seq(|row|, i requires 0 <= i < |row| => PixelIndex(pal, row[i]))
  }

  /** The table once rows 0..h have been read. */
  function TableAfter(image: seq<seq<Pixel>>, h: nat): seq<bv32>
    requires h < |image|
  {
    LearnAll([], ImageKeys(image[..h + 1]))
  }

  /** Row h as indices into the table as it stands after reading row h. */
  function RowIndices(image: seq<seq<Pixel>>, h: nat): (indices: seq<bv8>)
    requires h < |image|
    ensures |indices| == |image[h]|
  {
    Indices(TableAfter(image, h), image[h])
  }

  /** The length of the line `pack_line` makes for row h. */
  ghost function RowLineSize(image: seq<seq<Pixel>>, h: nat): nat
    requires h < |image|
  {
    RunsOfCorrect(RowIndices(image, h));
    LineSize(|Packets(RunsOf(RowIndices(image, h)))|)
  }

  /** Row h, when it is packed at all (its colours fit the table), makes a
      line that fits the 256-byte `tmpbuf`. */
  ghost predicate RowFitsBuffer(image: seq<seq<Pixel>>, h: nat)
    requires h < |image|
  {
    |TableAfter(image, h)| <= MaxColors ==> RowLineSize(image, h) <= 256
  }

  /** What `pack_line` emits for a list of runs: a line sized for their
      packets, whose size byte is its length, whose last bit is clear, and
      which is the encoded runs whenever every colour fits a nibble. */
  ghost predicate PackedLine(runs: seq<Run>, line: seq<bv8>) {
    Positive(runs)
    && |line| == LineSize(|Packets(runs)|)
    && line[0] == (|line| % 256) as bv8
    && line[|line| - 1] & 1 == 0
    && (SmallColors(runs) ==> line == EncodeLine(runs))
  }

  /** The line `main` prints for row h. */
  ghost predicate LineOf(image: seq<seq<Pixel>>, h: nat, line: seq<bv8>)
    requires h < |image|
  {
    PackedLine(RunsOf(RowIndices(image, h)), line)
  }

  /** Each of `lines` is the line of the row it stands at (see `LinesOfAt`). */
  ghost predicate LinesOf(image: seq<seq<Pixel>>, lines: seq<seq<bv8>>)
    decreases |lines|
  {
    |lines| <= |image|
    && (lines != [] ==> LinesOf(image, lines[..|lines| - 1]) && LineOf(image, |lines| - 1, lines[|lines| - 1]))
  }

  lemma {:induction false} LinesOfAt(image: seq<seq<Pixel>>, lines: seq<seq<bv8>>, h: nat)
    requires LinesOf(image, lines) && h < |lines|
    ensures h < |image| && LineOf(image, h, lines[h])
    decreases |lines|
  {
    if h < |lines| - 1 {
      LinesOfAt(image, lines[..|lines| - 1], h);
    }
  }

  /** Row h is the first whose colours overflow the 256-entry table. */
  ghost predicate FirstOverflow(image: seq<seq<Pixel>>, h: nat) {
    h < |image|
    && |LearnAll([], ImageKeys(image[..h]))| <= MaxColors
    && |LearnAll([], ImageKeys(image[..h + 1]))| > MaxColors
  }

  // Facts about the index rows.

  /** Learning a key leaves the index of a known colour alone. */
  lemma PixelIndexLearn(pal: seq<bv32>, key: bv32, px: Pixel)
    requires Key(px) in pal
    ensures PixelIndex(Learn(pal, key), px) == PixelIndex(pal, px)
  {
    if key !in pal {
      FirstIndexSnoc(pal, key, Key(px));
    }
  }

  /** In a table of at most 256 entries the stored byte is the slot itself. */
  lemma PixelIndexIsSlot(pal: seq<bv32>, px: Pixel)
    requires Key(px) in pal && |pal| <= MaxColors
    ensures PixelIndex(pal, px) as nat == FirstIndex(pal, Key(px))
  {
    var k := FirstIndex(pal, Key(px));
    assert k % 256 == k;
  }

  /** A slot taken in a table is the same slot in any extension of it. */
  lemma SlotInExtension(pal: seq<bv32>, final: seq<bv32>, px: Pixel)
    requires Key(px) in pal && |pal| <= |final| <= MaxColors && final[..|pal|] == pal
    ensures PixelIndex(pal, px) as nat < |final| && final[PixelIndex(pal, px) as nat] == Key(px)
  {
    PixelIndexIsSlot(pal, px);
    assert final == pal + final[|pal|..];
    FirstIndexPrefix(pal, final[|pal|..], Key(px));
  }

  /** Each stored index names its pixel's colour in the final table, and
      that table is the one a longer image only extends. */
  lemma IndexNamesColour(image: seq<seq<Pixel>>, h: nat, i: nat)
    requires h < |image| && i < |image[h]|
    requires |LearnAll([], ImageKeys(image))| <= MaxColors
    ensures (RowIndices(image, h)[i] as nat) < |LearnAll([], ImageKeys(image))|
    ensures LearnAll([], ImageKeys(image))[RowIndices(image, h)[i] as nat] == Key(image[h][i])
  {
    var pal := TableAfter(image, h);
    var final := LearnAll([], ImageKeys(image));
    assert |pal| <= |final| && final[..|pal|] == pal by {
      ImageTableExtends(image, h + 1, |image|);
      assert image[..|image|] == image;
    }
    RowKeyLearnt(image, h, i);
    SlotInExtension(pal, final, image[h][i]);
    assert RowIndices(image, h)[i] == PixelIndex(pal, image[h][i]);
  }

  /** Every pixel of row h has a slot in the table after row h. */
  lemma RowKeyLearnt(image: seq<seq<Pixel>>, h: nat, i: nat)
    requires h < |image| && i < |image[h]|
    ensures Key(image[h][i]) in TableAfter(image, h)
  {
    ImageKeysSnoc(image, h);
    LearnAllElements([], ImageKeys(image[..h + 1]));
    assert RowKeys(image[h])[i] == Key(image[h][i]);
  }

  /** With at most 16 colours in the image every run colour fits a nibble. */
  lemma FewColours(image: seq<seq<Pixel>>, h: nat)
    requires h < |image|
    requires |LearnAll([], ImageKeys(image))| <= NibbleColors
    ensures SmallColors(RunsOf(RowIndices(image, h)))
  {
    var data := RowIndices(image, h);
    forall i | 0 <= i < |data|
      ensures data[i] < 16
    {
      IndexNamesColour(image, h, i);
    }
    RunsOfColors(data);
  }

  /** With at most 16 colours the line `pack_line` emits for a row reads
      back as that row's indices. */
  lemma LineDecodes(image: seq<seq<Pixel>>, h: nat, line: seq<bv8>)
    requires h < |image| && LineOf(image, h, line)
    requires |LearnAll([], ImageKeys(image))| <= NibbleColors
    ensures DecodeLine(line) == RowIndices(image, h)
  {
    var data := RowIndices(image, h);
    FewColours(image, h);
    RunsOfCorrect(data);
    DecodeEncode(RunsOf(data));
  }

  /** A row of at most 226 pixels packs into at most 256 bytes. */
  lemma RowFits(runs: seq<Run>, width: nat)
    requires Positive(runs) && TotalCount(runs) == width <= MaxWidth
    ensures LineSize(|Packets(runs)|) <= 256
  {
    PacketsAtMostPixels(runs);
    LineSizeMonotone(|Packets(runs)|, MaxWidth);
  }

  /** Every row of 1 to 226 pixels fits the line buffer, whatever its colours. */
  lemma NarrowRowFits(image: seq<seq<Pixel>>, h: nat)
    requires h < |image| && 1 <= |image[h]| <= MaxWidth
    ensures RowFitsBuffer(image, h)
  {
    var data := RowIndices(image, h);
    RunsOfCorrect(data);
    ExpandLength(RunsOf(data));
    RowFits(RunsOf(data), |image[h]|);
  }

  /** The first |lb| pixels of the row are in the table and lb holds their
      indices. */
  ghost predicate Indexed(pal: seq<bv32>, row: seq<Pixel>, lb: seq<bv8>) {
    |lb| <= |row| && forall i :: 0 <= i < |lb| ==> Key(row[i]) in pal && lb[i] == PixelIndex(pal, row[i])
  }

  lemma IndexedLearn(pal: seq<bv32>, key: bv32, row: seq<Pixel>, lb: seq<bv8>)
    requires Indexed(pal, row, lb)
    ensures Indexed(Learn(pal, key), row, lb)
  {
    forall i | 0 <= i < |lb|
      ensures Key(row[i]) in Learn(pal, key) && lb[i] == PixelIndex(Learn(pal, key), row[i])
    {
      PixelIndexLearn(pal, key, row[i]);
    }
  }

  lemma IndexedSnoc(pal: seq<bv32>, row: seq<Pixel>, lb: seq<bv8>, b: bv8)
    requires Indexed(pal, row, lb) && |lb| < |row|
    requires Key(row[|lb|]) in pal && b == PixelIndex(pal, row[|lb|])
    ensures Indexed(pal, row, lb + [b])
  {
  }

  lemma IndexedAll(pal: seq<bv32>, row: seq<Pixel>, lb: seq<bv8>)
    requires Indexed(pal, row, lb) && |lb| == |row|
    ensures lb == Indices(pal, row)
  {
  }

  // The C loops.

  /** The loop step of `IndexRow` on values: the table after pixel w is the
      table of keys 0..w, and the new byte extends the indexed prefix. */
  lemma IndexStep(start: seq<bv32>, row: seq<Pixel>, before: seq<bv32>, lb: seq<bv8>, b: bv8)
    requires |lb| < |row| && before == LearnAll(start, RowKeys(row)[..|lb|])
    requires Indexed(before, row, lb)
    requires b == PixelIndex(Learn(before, Key(row[|lb|])), row[|lb|])
    ensures Learn(before, Key(row[|lb|])) == LearnAll(start, RowKeys(row)[..|lb| + 1])
    ensures Indexed(Learn(before, Key(row[|lb|])), row, lb + [b])
  {
    var w := |lb|;
    var key := Key(row[w]);
    assert RowKeys(row)[..w + 1] == RowKeys(row)[..w] + [key];
    LearnAllSnoc(start, RowKeys(row)[..w], key);
    IndexedLearn(before, key, row, lb);
    IndexedSnoc(Learn(before, key), row, lb, b);
  }

  /** One turn of the inner loop of `main`: pixel w's key is entered in the
      table (unless the table is full) and its slot, looked up again, is
      stored at linebuf[w] as a byte. */
  method StorePixel(palette: array<bv32>, count: nat, linebuf: array<bv8>, row: seq<Pixel>, w: nat)
    returns (ok: bool, newCount: nat, warned: bool)
    requires palette.Length == MaxColors && count <= MaxColors && linebuf.Length == |row| && w < |row|
    modifies palette, linebuf
    ensures ok <==> Key(row[w]) in old(palette[..count]) || count < MaxColors
    ensures ok ==> newCount == |Learn(old(palette[..count]), Key(row[w]))|
                   && palette[..newCount] == Learn(old(palette[..count]), Key(row[w]))
                   && linebuf[..] == old(linebuf[..])[w := PixelIndex(palette[..newCount], row[w])]
    ensures !ok ==> newCount == count && palette[..] == old(palette[..]) && linebuf[..] == old(linebuf[..])
    ensures warned <==> ok && count < newCount && newCount > NibbleColors
  {
    var key := Key(row[w]);
    ok, newCount, warned := AddColour(palette, count, key);
    if ok {
      var idx := GetPaletteIndex(key, palette, newCount);
      FirstIndexIs(palette[..newCount], key, idx);
      linebuf[w] := (idx % 256) as bv8;
    }
  }

  /** `StorePixel` read against the loop invariant of `IndexRow`: given the
      table `pal` of the keys of pixels 0..w-1 and their indices `lb`, the
      table grows to that of pixels 0..w and linebuf[..w + 1] holds their
      indices. */
  method StorePixelStep(palette: array<bv32>, count: nat, linebuf: array<bv8>, row: seq<Pixel>, w: nat,
                        ghost start: seq<bv32>, ghost pal: seq<bv32>, ghost lb: seq<bv8>)
    returns (ok: bool, newCount: nat, warned: bool)
    requires palette.Length == MaxColors && count <= MaxColors && linebuf.Length == |row| && w < |row|
    requires palette[..count] == pal && linebuf[..w] == lb && |lb| == w
    requires pal == LearnAll(start, RowKeys(row)[..w]) && Indexed(pal, row, lb)
    modifies palette, linebuf
    ensures !ok ==> count == MaxColors && |LearnAll(start, RowKeys(row))| > MaxColors
                    && palette[..MaxColors] == LearnAll(start, RowKeys(row))[..MaxColors]
    ensures ok ==> count <= newCount <= MaxColors
                   && palette[..newCount] == Learn(pal, Key(row[w]))
                   && linebuf[..w + 1] == lb + [linebuf[w]]
                   && Learn(pal, Key(row[w])) == LearnAll(start, RowKeys(row)[..w + 1])
                   && Indexed(Learn(pal, Key(row[w])), row, lb + [linebuf[w]])
    ensures warned <==> ok && count < newCount && newCount > NibbleColors
  {
    ok, newCount, warned := StorePixel(palette, count, linebuf, row, w);
    if !ok {
      RowOverflow(start, row, w, pal);
      return;
    }
    var b := linebuf[w];
    assert b == PixelIndex(Learn(pal, Key(row[w])), row[w]) by {
      assert b == linebuf[..][w];
    }
    IndexStep(start, row, pal, lb, b);
    assert linebuf[..w + 1] == lb + [b];
  }

  /** The inner loop of `main` over one row: each pixel's key is entered in
      the table (failing when a 257th colour turns up) and its slot is
      stored in the line buffer. */
  method IndexRow(palette: array<bv32>, count: nat, row: seq<Pixel>)
    returns (ok: bool, newCount: nat, indices: seq<bv8>, warned: bool)
    requires palette.Length == MaxColors && count <= MaxColors
    modifies palette
    ensures ok <==> |LearnAll(old(palette[..count]), RowKeys(row))| <= MaxColors
    ensures ok ==> newCount == |LearnAll(old(palette[..count]), RowKeys(row))|
                   && palette[..newCount] == LearnAll(old(palette[..count]), RowKeys(row))
                   && indices == Indices(palette[..newCount], row)
    ensures !ok ==> newCount == MaxColors
                    && palette[..MaxColors] == LearnAll(old(palette[..count]), RowKeys(row))[..MaxColors]
    ensures count <= newCount
    ensures warned <==> newCount > NibbleColors && newCount > count
  {
    ghost var start := palette[..count];
    ghost var pal := start;
    ghost var lb: seq<bv8> := [];
    var linebuf := new bv8[|row|];
    ok, newCount, warned := true, count, false;
    var w := 0;
    while w < |row|
      invariant 0 <= w <= |row| && count <= newCount <= MaxColors
      invariant palette[..newCount] == pal && linebuf[..w] == lb && |lb| == w
      invariant pal == LearnAll(start, RowKeys(row)[..w]) && Indexed(pal, row, lb)
      invariant warned <==> newCount > NibbleColors && newCount > count
    {
      var added, next, warn := StorePixelStep(palette, newCount, linebuf, row, w, start, pal, lb);
      if !added {
        ok, newCount, indices := false, MaxColors, [];
        return;
      }
      warned, newCount := warned || warn, next;
      pal, lb := Learn(pal, Key(row[w])), lb + [linebuf[w]];
      w := w + 1;
    }
    assert RowKeys(row)[..|row|] == RowKeys(row);
    indices := linebuf[..];
    IndexedAll(pal, row, indices);
  }

  /** One turn of the outer loop of `main`: row h is indexed against the
      table, scanned into runs and packed. */
  method ConvertRow(palette: array<bv32>, count: nat, image: seq<seq<Pixel>>, h: nat, ghost table: seq<bv32>)
    returns (ok: bool, newCount: nat, line: seq<bv8>, warned: bool)
    requires palette.Length == MaxColors && count <= MaxColors
    requires h < |image| && 1 <= |image[h]| && RowFitsBuffer(image, h)
    requires palette[..count] == table && table == LearnAll([], ImageKeys(image[..h]))
    modifies palette
    ensures ok <==> |LearnAll([], ImageKeys(image[..h + 1]))| <= MaxColors
    ensures ok ==> newCount == |TableAfter(image, h)| && palette[..newCount] == TableAfter(image, h)
                   && LineOf(image, h, line)
    ensures !ok ==> newCount == MaxColors
                    && palette[..MaxColors] == LearnAll([], ImageKeys(image[..h + 1]))[..MaxColors]
    ensures count <= newCount
    ensures warned <==> newCount > NibbleColors && newCount > count
  {
    ImageKeysSnoc(image, h);
    LearnAllAppend([], ImageKeys(image[..h]), RowKeys(image[h]));
    var indices;
    ok, newCount, indices, warned := IndexRow(palette, count, image[h]);
    if !ok {
      line := [];
      return;
    }
    assert indices == RowIndices(image, h);
    var runs := ScanLine(indices);
    assert LineSize(|Packets(runs)|) == RowLineSize(image, h) <= 256;
    var corrected;
    line, corrected := PackLine(runs);
    assert PackedLine(runs, line);
  }

  /** `main` after the image is loaded: rows are indexed, scanned and packed
      in order; a 257th colour stops the conversion with -1 after the lines
      of the rows before it. */
  method ConvertImage(image: seq<seq<Pixel>>, width: nat)
    returns (status: int, colours: seq<bv32>, lines: seq<seq<bv8>>, warned: bool)
    requires 1 <= width
    requires forall h :: 0 <= h < |image| ==> |image[h]| == width && RowFitsBuffer(image, h)
    ensures status == 0 || status == -1
    ensures status == 0 <==> |LearnAll([], ImageKeys(image))| <= MaxColors
    ensures status == 0 ==> |lines| == |image| && colours == LearnAll([], ImageKeys(image))
    ensures status == -1 ==> colours == LearnAll([], ImageKeys(image))[..MaxColors]
                             && FirstOverflow(image, |lines|)
    ensures LinesOf(image, lines)
    ensures warned <==> |colours| > NibbleColors
  {
    var palettebuf := new bv32[MaxColors];
    var colorcnt: nat := 0;
    ghost var table: seq<bv32> := [];
    lines, warned := [], false;
    var h := 0;
    while h < |image|
      invariant 0 <= h <= |image| && |lines| == h && colorcnt <= MaxColors
      invariant palettebuf[..colorcnt] == table && table == LearnAll([], ImageKeys(image[..h]))
      invariant LinesOf(image, lines)
      invariant warned <==> colorcnt > NibbleColors
    {
      var ok, next, line, rowWarned := ConvertRow(palettebuf, colorcnt, image, h, table);
      if !ok {
        ImageOverflow(image, h);
        assert FirstOverflow(image, h);
        status, colours, warned := -1, palettebuf[..next], true;
        return;
      }
      colorcnt, warned := next, warned || rowWarned;
      table := LearnAll([], ImageKeys(image[..h + 1]));
      LinesExtend(image, lines, line);
      lines := lines + [line];
      h := h + 1;
    }
    assert image[..|image|] == image;
    status, colours := 0, palettebuf[..colorcnt];
  }

  /** Appending the line of the next row keeps every line that of its row. */
  lemma LinesExtend(image: seq<seq<Pixel>>, lines: seq<seq<bv8>>, line: seq<bv8>)
    requires LinesOf(image, lines) && |lines| < |image| && LineOf(image, |lines|, line)
    ensures LinesOf(image, lines + [line])
  {
    var all := lines + [line];
    assert all[..|all| - 1] == lines && all[|all| - 1] == line;
  }
}
