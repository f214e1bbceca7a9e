# Atari Lynx sprite converter: the encoding engine

This project models the core of `lynximg` and its earlier version `packit`.
These tools turn a 24-bit bitmap into Atari Lynx sprite data with 4 bits per
pixel. Each row of the image goes through three stages.

1. **Palette.** Each pixel's colour key `(b << 16) | (g << 8) | r` is entered
   into a table of at most 256 keys. Keys are kept in the order they are first
   met. The pixel is replaced by its key's slot in the table. A 257th colour
   stops the program with -1. Going past 16 colours only prints a warning.
2. **Runs.** `scan_line` splits the row of slots into runs of equal
   neighbours, as (repeat count, colour) pairs.
3. **Packing.** `pack_line` writes one packet of 9 bits per run into a
   256-byte buffer, most significant bit first, behind one header byte.
   - A packet is a marker bit, a 4-bit count field (pixels - 1) and a 4-bit
     colour field.
   - Runs longer than 16 pixels are split into packets of 16.
   - A run whose last packet holds a single pixel gets a literal packet (marker
     set).
   - The header byte is then set to the line's length in bytes.

The model has six modules:

- `BitStream` (bitstream.dfy): the stream as a `seq<bool>`. It holds its
  zero-padded MSB-first packing into bytes (`Packed`) and its reading back
  (`Unpack`). `set_bits` and `set_literal` are methods over the byte buffer,
  proved to append exactly one or two 4-bit fields to the stream the buffer
  holds.
- `RunLength` (runs.dfy): runs, their expansion, maximality, the functional
  specification `RunsOf` and the method `ScanLine`.
- `Packer` (packer.dfy): the packets of a run and of a line, and the line as a
  function of the runs (`EncodeLine`). It has a decoder (`DecodeLine`) to
  state the round trip. `pack_line` is a method over a 256-byte array.
- `Palette` (palette.dfy): colour keys, the table as a function of the keys met
  so far (`LearnAll`), and `check_unique`, `get_paletteindex` and the
  table-update step of both programs' loops as methods over the 256-entry
  array.
- `LynxImg` (lynximg.dfy): the nested row/pixel loop of lynximg's `main`. It
  fills the colour table and the line buffer, then scans and packs each row.
- `Packit` (packit.dfy): the nested loop of packit's `main`, which only counts
  colours.

The image is given as a sequence of rows of `(b, g, r)` byte triples. The
printed line of each row is returned as a byte sequence. The printed
warnings are returned as a `warned` flag.

The hardware-bug check of `pack_line` (lynximg.c:214-217) only prints a
message. This model follows the code, and `PackLine` proves that the message
can never be printed. The last byte of a line is the byte under the final
cursor, and its lowest bit is never written. There is no length increment and
no extra byte. Descriptions of the format call for a correction here, where the
line is extended by one byte and its length incremented, but the code does not
do this.

## Model

| member | source | states |
|---|---|---|
| `BitStream.SetBits` | lynximg.c:106-128 | The bit cursor `8p + cur` moves on by exactly 4 and stays in 0..7. For a cursor of 0..4 the field is ORed into byte p. For 5..7 its top bits are ORed into byte p and its low bits are assigned to byte p + 1. No other byte changes. For a mask below 16, the buffer then holds the old stream followed by the mask's 4 bits. Nothing past the cursor is written and the cursor byte's last bit stays clear. |
| `BitStream.SetLiteral` | lynximg.c:130-143 | The cursor moves on by 8 and no byte before the cursor changes. When the count and the colour are both below 16, the buffer then holds the old stream followed by the count field and then the colour field. |
| `BitStream.UnpackPacked` | lynximg.c:106-128 | This lemma is the partner of `Packed`, the MSB-first packing that `set_bits` fills `tmpbuf` with. Reading back the n-byte packing of a stream of at most 8n bits gives the stream followed by zero padding. |
| `RunLength.ScanLine` | lynximg.c:39-70 | For a non-empty row, the runs expand back to the row. Every count is at least 1 and neighbouring runs differ in colour. The first run has the row's first colour. The result is the specification `RunsOf`. |
| `RunLength.RunsOfCorrect` | lynximg.c:46-66 | The specification `RunsOf` expands to its input and is maximal. |
| `RunLength.MaximalUnique` | lynximg.c:52-63 | Two maximal run lists with the same expansion are equal, so the greedy pass has only one possible result. |
| `RunLength.RunsOfUnique` | lynximg.c:39-70 | Any maximal run list that expands to a row is `RunsOf` of that row. |
| `RunLength.ExpandLength` | lynximg.c:52-66 | The repeat counts add up to the length of the expansion, which for `ScanLine` is `data_len`. |
| `RunLength.RunsOfColors` | lynximg.c:47-61 | Every run colour is a value that occurs in the row. |
| `Palette.KeyInjective` | packit.c:94-100 | Two pixels have the same key exactly when blue, green and red all agree. |
| `Palette.KeyRoundTrip` | lynximg.c:290-296 | The three channel bytes can be recovered from the key. |
| `Palette.CheckUnique` | lynximg.c:86-95 | The result is 1 exactly when the colour is not among the first `count` entries, and 0 exactly when it is. packit.c:46-54 is the same routine and is modelled by this member too. |
| `Palette.GetPaletteIndex` | lynximg.c:96-104 | The result is -1 exactly when the colour is absent. Otherwise it is the smallest slot holding the colour. |
| `Palette.AddColour` | lynximg.c:296-305 | A known key changes nothing. With a free slot, a new key is written at slot `count`, the count grows by one and the later slots are untouched. A new key with the table full fails and writes nothing. The warning is raised exactly when a new key takes the table past 16 entries. The new table is `Learn(old table, key)`. |
| `Palette.LearnAllDistinct` | packit.c:100-109 | The table never holds a key twice. |
| `Palette.LearnAllElements` | packit.c:88-116 | After the loop, the table holds exactly the keys met. |
| `Palette.LearnAllFirstSeen` | packit.c:88-116 | Entries are in first-seen order: an earlier slot holds a key first met before the key of a later slot. |
| `Palette.LearnAllExtends` | lynximg.c:296-305 | Meeting more keys only appends, so every earlier entry keeps its slot. |
| `Palette.LearnAllGrowth` | lynximg.c:296-305 | One more pixel grows the table by at most one entry. |
| `Palette.RowOverflow` | packit.c:101-104 | When the table is full and a missing key turns up, the row's keys overflow 256 entries. The full table is the first 256 entries of the row's table. |
| `Palette.ImageOverflow` | lynximg.c:297-300 | An overflow in the first h + 1 rows is an overflow of the image. Both tables open with the same 256 entries. |
| `Packer.RunPacketsShape` | lynximg.c:164-198 | A run of c pixels becomes (c - 1) / 16 repeat packets with count field 15. These are followed by one packet with count field (c - 1) % 16, which is a literal packet exactly when that field is 0. |
| `Packer.PacketsAtMostPixels` | lynximg.c:161-202 | A line never has more packets than pixels. |
| `Packer.RepeatPacket` | lynximg.c:189-197 | The cursor moves on by 9 past a clear marker bit, and no byte before the cursor changes. When the count and colour fields are below 16, the buffer then holds the old stream followed by the repeat packet's 9 bits. |
| `Packer.LiteralPacket` | lynximg.c:178-187 | The marker bit is ORed in, the count field 0 and the colour follow, and the cursor moves on by 9. No byte before the cursor changes. When the colour is below 16, the buffer then holds the old stream followed by the literal packet's 9 bits. |
| `Packer.PackRun` | lynximg.c:164-198 | The cursor moves on by 9 bits per packet of the run, no byte before the cursor changes, and the tail behind the cursor stays clear. When the run's colour is below 16, the buffer then holds the old stream followed by the run's packets. |
| `Packer.PackLast` | lynximg.c:178-198 | This is the last packet of a run, with 1 to 16 pixels left. A single pixel gives a literal packet and more give a repeat packet with count field `left - 1`. The cursor moves on by 9 and no byte before it changes. When the colour is below 16, the buffer then holds the old stream followed by that packet. |
| `Packer.NewLineBuffer` | lynximg.c:149-159 | `tmpbuf` is 256 zero bytes with 0xFF stored in the header byte. So from byte 1 on it holds the empty stream, with a clear tail behind a cursor at byte 1. |
| `Packer.PackRuns` | lynximg.c:159-202 | After the whole run list the cursor is at bit 8 + 9N, for N packets, and the header byte is unchanged. When every colour fits a nibble, the buffer holds the packet stream of the line. |
| `Packer.WriteHeader` | lynximg.c:209-217 | The size `p - tmpbuf + 1` is stored into the header byte, truncated to a byte. The hardware-bug condition is false. The line is the header followed by the packed stream. |
| `Packer.PackLine` | lynximg.c:145-239 | The line is `2 + 9N/8` bytes long for N packets. Byte 0 is that length as a byte. The last byte's lowest bit is clear, so the hardware-bug message is never printed. When all colours are below 16, the line is `EncodeLine(runs)`. |
| `Packer.DecodeEncode` | lynximg.c:161-212 | When all colours are below 16, decoding `EncodeLine(runs)` (read the whole packets in the payload and expand each to count + 1 pixels) gives back the pixels the runs stand for. |
| `Packer.ExampleRepeat` | lynximg.c:189-212 | The row [5, 5, 5] packs to 0x03, 0x12, 0x80. |
| `Packer.ExampleLiteral` | lynximg.c:178-212 | The row [0] packs to 0x03, 0x80, 0x00. |
| `LynxImg.StorePixel` | lynximg.c:296-312 | This is one pixel. It succeeds exactly when the key is known or a slot is free. On success the table is `Learn(old, key)` and `linebuf[w]` becomes the key's first slot as a byte, with no other byte of `linebuf` changed. On failure nothing changes. The warning is raised exactly when the table grows past 16. |
| `LynxImg.IndexRow` | lynximg.c:286-314 | This is one row's inner loop. It succeeds exactly when the row's keys fit the 256-entry table. The table is then `LearnAll(old, row keys)` and the line buffer holds each pixel's slot in that table. On failure the table is full and holds the first 256 entries of that table. |
| `LynxImg.ConvertRow` | lynximg.c:280-328 | The row must be non-empty and its line, if it is packed, must fit `tmpbuf` (`RowFitsBuffer`). Row h succeeds exactly when rows 0..h fit the table. The table is then the table of rows 0..h, and the line is the packed line of row h's runs (`LineOf`). On failure the table holds the first 256 entries of rows 0..h. |
| `LynxImg.ConvertImage` | lynximg.c:280-336 | The result is 0 exactly when the image has at most 256 distinct colours. Then there is one line per row, and the colours are the image's distinct keys in first-seen order. The result -1 means the colours are the first 256 distinct keys and the lines stop before the first row that overflows. Every line returned is its row's line. The warning is raised exactly when more than 16 colours are kept. |
| `LynxImg.LinesOfAt` | lynximg.c:317-321 | Line h of a converted image is the line of row h. |
| `LynxImg.IndexNamesColour` | lynximg.c:310-312 | A stored index is a slot of the final table, and that slot holds the pixel's own key. |
| `LynxImg.FewColours` | lynximg.c:301-303 | With at most 16 colours in the image, every run colour fits a 4-bit field. |
| `LynxImg.LineDecodes` | lynximg.c:317-321 | With at most 16 colours, decoding row h's line gives back row h's indices. |
| `LynxImg.RowFits` | lynximg.c:149 | A row of at most 226 pixels packs into at most 256 bytes, so it fits `tmpbuf`. |
| `LynxImg.NarrowRowFits` | lynximg.c:149 | Every row of 1 to 226 pixels meets `RowFitsBuffer`, whatever its colours, so images of such rows meet the precondition of `ConvertImage`. |
| `Packit.CollectRow` | packit.c:90-113 | This is one row. It succeeds exactly when the row's keys fit the table, and the table is then `LearnAll(old, row keys)`. On failure the table is full with the first 256 entries of that table. The warning is raised exactly when the table grows past 16. |
| `Packit.CollectPalette` | packit.c:88-116 | The result is 0 exactly when the image has at most 256 distinct colours, and the colours are then all its distinct keys in first-seen order. The result -1 means the colours are the first 256 distinct keys. The warning is raised exactly when more than 16 colours are kept. |

## Left out

- Loading the bitmap goes through SDL and is not modelled: loading, the bits-per-pixel and palette checks, surface locking and the pointer walk over the pixel memory (lynximg.c:251-277, 288-293 and 325-327; packit.c:65-97 and 115). The image is a parameter.
- Row padding is not modelled. It is computed with a floating-point `ceil` and only moves the pixel pointer.
- Output is not modelled: `print_image_stats`, the `VERBOSE` output, the byte dump of each line and the final colour count. Each line is returned as a byte sequence and the warnings as a flag.
- Memory management is not modelled: `malloc` and `free` of the run list and the line buffer. The run list is a `seq<Run>`.
- `RunLength.ScanLine` requires a non-empty row: `scan_line` reads the first pixel unconditionally, so the model does not cover width 0.
- `LynxImg.ConvertImage` requires non-empty rows whose packed lines fit the 256-byte `tmpbuf` (`RowFitsBuffer`). The source writes past `tmpbuf` when a line has more packets than fit there, and rows wider than 226 pixels with many short runs can do that. Wider rows with few runs are covered. `NarrowRowFits` shows that every row of at most 226 pixels qualifies.
- `LynxImg.ConvertRow` carries the same precondition for its one row, for the same reason.
- `Packer.PackLine` requires the line to fit in 256 bytes, for the same reason.
- `Packer.PackLine` states the exact line content only when every colour index is below 16. Larger indices make `set_bits` OR bits outside the 4-bit field. For them the model states the length, the header byte and the clear last bit, but not the bytes.
- `LynxImg.ConvertImage` omits the final colour-count message. On success the count is `|colours|`.
