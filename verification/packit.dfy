/** The colour census of packit.c: every pixel of a 24-bit image is read
    once and its key entered in a 256-entry table, stopping at the first
    257th colour. No sprite data is produced. */
module Packit {
  import opened Palette

  /** The inner loop of `main` over one row: each pixel's key is entered in
      the table unless it is already there; a new key with the table full
      stops the row. */
  method CollectRow(palette: array<bv32>, count: nat, row: seq<Pixel>) returns (ok: bool, newCount: nat, warned: bool)
    requires palette.Length == MaxColors && count <= MaxColors
    modifies palette
    ensures ok <==> |LearnAll(old(palette[..count]), RowKeys(row))| <= MaxColors
    ensures ok ==> newCount == |LearnAll(old(palette[..count]), RowKeys(row))|
                   && palette[..newCount] == LearnAll(old(palette[..count]), RowKeys(row))
    ensures !ok ==> newCount == MaxColors
                    && palette[..MaxColors] == LearnAll(old(palette[..count]), RowKeys(row))[..MaxColors]
    ensures count <= newCount
    ensures warned <==> newCount > NibbleColors && newCount > count
  {
    ghost var start := palette[..count];
    ghost var pal := start;
    ok, newCount, warned := true, count, false;
    var w := 0;
    while w < |row|
      invariant 0 <= w <= |row| && count <= newCount <= MaxColors
      invariant palette[..newCount] == pal && pal == LearnAll(start, RowKeys(row)[..w])
      invariant warned <==> newCount > NibbleColors && newCount > count
    {
      var added, next, warn := AddColour(palette, newCount, Key(row[w]));
      if !added {
        RowOverflow(start, row, w, pal);
        ok := false;
        return;
      }
      assert RowKeys(row)[..w + 1] == RowKeys(row)[..w] + [Key(row[w])];
      LearnAllSnoc(start, RowKeys(row)[..w], Key(row[w]));
      warned, newCount := warned || warn, next;
      pal := Learn(pal, Key(row[w]));
      w := w + 1;
    }
    assert RowKeys(row)[..|row|] == RowKeys(row);
  }

  /** `main` after the image checks: the rows in order, returning 0 with the
      table of the image's distinct colours in first-seen order, or -1 with
      a full table when a 257th colour turns up. `warned` is set when the
      table grows past 16 entries. */
  method CollectPalette(image: seq<seq<Pixel>>) returns (status: int, colours: seq<bv32>, warned: bool)
    ensures status == 0 || status == -1
    ensures status == 0 <==> |LearnAll([], ImageKeys(image))| <= MaxColors
    ensures status == 0 ==> colours == LearnAll([], ImageKeys(image))
    ensures status == -1 ==> colours == LearnAll([], ImageKeys(image))[..MaxColors]
    ensures warned <==> |colours| > NibbleColors
  {
    var palettebuf := new bv32[MaxColors];
    var colorcnt: nat := 0;
    ghost var table: seq<bv32> := [];
    warned := false;
    var h := 0;
    while h < |image|
      invariant 0 <= h <= |image| && colorcnt <= MaxColors
      invariant palettebuf[..colorcnt] == table && table == LearnAll([], ImageKeys(image[..h]))
      invariant warned <==> colorcnt > NibbleColors
    {
      ImageKeysSnoc(image, h);
      LearnAllAppend([], ImageKeys(image[..h]), RowKeys(image[h]));
      var ok, next, rowWarned := CollectRow(palettebuf, colorcnt, image[h]);
      if !ok {
        ImageOverflow(image, h);
        status, colours, warned := -1, palettebuf[..next], true;
        return;
      }
      colorcnt, warned := next, warned || rowWarned;
      table := LearnAll([], ImageKeys(image[..h + 1]));
      h := h + 1;
    }
    assert image[..|image|] == image;
    status, colours := 0, palettebuf[..colorcnt];
  }
}
