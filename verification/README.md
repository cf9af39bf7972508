# LCD19264 driver model

This project is a Dafny model of the MicroPython driver for a 192×64
monochrome graphic LCD. The panel is built from three 64-column controller
chips, each with eight 8-pixel pages. Three versions of the driver are
modelled:

- `lcd19264.py` (v0.1.10), the current driver;
- `old/DB_LCD19264.py` (v0.1.6), its predecessor, with an integer `_reverse` flag;
- `DB_LCD19264.py` (v0.1.3), the oldest version modelled, with loop-based bus helpers and two `show` variants.

At the centre is `show()`, which copies the 1536-byte frame buffer to the
panel. It is modelled as a pure function from the buffer and the rotation flag
to a trace of bus events:

- reset pulses;
- chip-select states;
- command bytes (RS=0);
- entries into data-write mode (RS=1, RW=0);
- data strobes, i.e. a byte on the eight data lines latched by an enable pulse.

Properties are stated over four projections of that trace: the data bytes
strobed, the command codes, the chip-select states and the number of
data-mode entries. The drawing side of the current driver is modelled over
byte sequences:

- the BMP header check of `load_bmp`;
- the row unpacking of `_send_bmp_to_buffer`;
- the glyph layout of `draw_text`;
- the pixel writes of `draw_bitmap_tran`.

Modules:

- `Bits`: bit access as the driver does it (`(x >> i) & 1`), `_reverse_bits` and population count.
- `Seqs`: flattening nested loop bodies, and projecting a trace onto one kind of event.
- `Bus`: events, chip-select lines, command encoders, and the data bus write/read pair.
- `Transfer`: the `show()` loops shared by the current driver and v0.1.6.
- `Lcd19264`, `OldDbLcd19264`, `DbLcd19264`: the three driver objects.
- `Bmp`: `load_bmp` and `_send_bmp_to_buffer`.
- `Drawing`: `draw_text` and `draw_bitmap_tran`.

Where the code and its surrounding documentation disagree, the model follows
the code:

- `_select_chip` with any value other than 1, 2 or 3 drives all three
  active-low chip-select lines low. That selects every chip at once; it does
  not deselect them.
- None of the drivers validates its arguments. Out-of-range column, page or
  start values are simply added to the command base; `Bus.CommandEncoding`
  states what happens on the documented ranges.

The two `show()` versions with a rotation flag read it differently. The
current driver stores `bool(rotation)` and casts that to 0 or 1. The older one
stores the value as given and casts it with `int()` inside a viper function,
which cuts it down to a 32-bit machine word. A stored value that is a non-zero
multiple of 2^32 therefore rotates in the current driver but not in the older
one. `OldDbLcd19264.ViperInt` models the cast and `OldDbLcd19264.RotationWraps`
states the difference.

## Model

| member | source | states |
|---|---|---|
| `Bits.ReverseBits` | lcd19264.py:232-248 | models `_reverse_bits`: the OR of each set input bit moved to its mirrored position |
| `Bits.ReverseBitsBits` | lcd19264.py:232-248 | bit `i` of the reversed byte is bit `7 - i` of the input, for all eight bits |
| `Bits.ReverseBitsInvolution` | lcd19264.py:232-248 | reversing a byte twice gives it back |
| `Bits.ReverseBitsIsReversal` | lcd19264.py:232-248 | the OR of shifted bits equals the value of the reversed bit string |
| `Bits.ReverseBitsExamples` | lcd19264.py:234-248 | the documented example 0b01000111 → 0b11100010; 0 and 0xFF are fixed points |
| `Bits.ReverseBitsPopCount` | old/DB_LCD19264.py:229-245 | bit reversal keeps the number of set bits |
| `Bits.ValueOfBits` | lcd19264.py:138-163 | reading back the bits of any value below 2^n returns the value |
| `Bits.BitsOfValue` | lcd19264.py:138-163 | writing the value of a bit string reproduces the bit string |
| `Bus.SelectChipSelects` | lcd19264.py:178-199 | chips 1, 2, 3 each activate only their own chip; every other argument activates all three |
| `Bus.SelectChip` | DB_LCD19264.py:170-186 | per line: low exactly for the requested chip, or for every line when the argument is not 1, 2 or 3 |
| `Bus.ColumnCommand` | lcd19264.py:201-207 | models `_set_address(y)`: the code `LCD_ADDR_Y + y` |
| `Bus.PageCommand` | lcd19264.py:209-215 | models `_set_page(x)`: the code `LCD_ADDR_X + x` |
| `Bus.StartCommand` | lcd19264.py:217-223 | models `_set_start(z)`: the code `LCD_ADDR_Z + z` |
| `Bus.CommandEncoding` | old/DB_LCD19264.py:198-220 | on their documented ranges, column, page and start-line commands are single bytes in the disjoint bands 0x40..0x7F, 0xB8..0xBF, 0xC0..0xFF, and each decodes back to its argument |
| `Bus.WriteDataBus` | lcd19264.py:138-151 | line `i` carries bit `i` of the byte |
| `Bus.ReadDataBus` | lcd19264.py:153-163 | models `_read_data_bus`: line `i` contributes `1 << i` |
| `Bus.DataBusRoundTrip` | lcd19264.py:138-163 | reading the lines back returns the written byte, and any line levels read as a byte are reproduced when written |
| `Bus.WriteDataBusLoop` | DB_LCD19264.py:120-122 | the `for i in range(8)` version also puts bit `i` on line `i` |
| `Bus.ReadDataBusLoop` | DB_LCD19264.py:125-130 | the loop version's `|=` of shifted line levels gives a byte whose bits are the line levels |
| `Bus.BusLoopRoundTrip` | DB_LCD19264.py:120-130 | writing then reading with the loop versions returns the byte |
| `Bus.WriteData` | lcd19264.py:124-136 | models `_write_data(v)`: data-write mode, then `v` latched by one enable pulse |
| `Bus.WriteDataProjections` | lcd19264.py:124-136 | `_write_data(v)` latches exactly `v`, with one data-mode entry and no command |
| `Transfer.OffsetInjective` | lcd19264.py:261-276 | every (chip, page, address) has an offset in [0, 1536) from which it can be recovered |
| `Transfer.OffsetSurjective` | lcd19264.py:261-276 | every buffer index is the offset of some (chip, page, address) |
| `Transfer.MirrorBijective` | lcd19264.py:270-276 | the rotated index `1535 - offset` is also a bijection between cells and buffer indices |
| `Transfer.ScanOrderBijective` | lcd19264.py:261-276 | the loop order visits every buffer index exactly once |
| `Transfer.Show` | lcd19264.py:250-291 | models the loop nest of `show()` for a given rotation: start line, three chip blocks of eight pages, display on |
| `Transfer.ShowLayout` | lcd19264.py:250-291 | position of every event: 1592 events, start line first, display on last, per chip a select and column 0, per page a page command, data mode and 64 strobes |
| `Transfer.ShowStrobes` | lcd19264.py:270-285 | the strobe for each cell carries the buffer byte at its offset, or the bit-reversed byte at the mirrored index when rotated |
| `Transfer.ShowTransmits` | lcd19264.py:259-291 | exactly 1536 strobes; the `k`-th carries `buffer[offset_k]`, or `_reverse_bits(buffer[1535 - offset_k])` when rotated |
| `Transfer.ShowControl` | lcd19264.py:259-291 | 29 commands: 0xC0 first, 0x3F last, per chip 0x40 then 0xB8..0xBF; selects chips 1, 2, 3 in turn; data mode entered 24 times; the same for every buffer and rotation |
| `Transfer.ShowZeros` | lcd19264.py:270-289 | an all-zero buffer is sent as 1536 zero bytes whatever the rotation |
| `Lcd19264.Init` | lcd19264.py:95-105 | models `_init`: the new buffer state and the five bus events it produces |
| `Lcd19264.InitEffect` | lcd19264.py:95-105 | `_init` blanks the buffer and emits exactly five events: reset low, reset high, one chip-select state activating all three chips, then start line 0 and display on, in that order |
| `Lcd19264.SetRotation` | lcd19264.py:225-230 | models `set_rotation(rotation)`, which stores `bool(rotation)` |
| `Lcd19264.SetRotationKeeps` | lcd19264.py:225-230 | `set_rotation` changes only the rotation flag, which is on exactly for a non-zero argument |
| `Lcd19264.SetTextWrap` | lcd19264.py:302-304 | models `set_text_wrap(on)`, which stores `bool(on)` |
| `Lcd19264.SetTextWrapKeeps` | lcd19264.py:302-304 | `set_text_wrap` changes only the wrap flag, which is on exactly for a non-zero argument |
| `Lcd19264.Show` | lcd19264.py:250-291 | models `show()`: the transfer of the buffer with the stored rotation |
| `Lcd19264.ShowEffect` | lcd19264.py:250-291 | `show()` sends the buffer in scan order (mirrored and bit-reversed when rotated), with 24 data-mode entries and 29 commands |
| `OldDbLcd19264.SetRotation` | old/DB_LCD19264.py:222-227 | models `set_rotation(reverse)`, which stores the value as given |
| `OldDbLcd19264.ViperInt` | old/DB_LCD19264.py:258 | the viper cast `int(self._reverse)` gives a signed 32-bit word congruent to the stored value modulo 2^32 |
| `OldDbLcd19264.ViperIntWord` | old/DB_LCD19264.py:258 | the cast keeps every value of a signed 32-bit word, and gives zero exactly for the multiples of 2^32 |
| `OldDbLcd19264.Show` | old/DB_LCD19264.py:252-293 | models the older `show()`: the same loops as the current driver, rotated when the cast `_reverse` is non-zero |
| `OldDbLcd19264.ShowMatchesCurrent` | old/DB_LCD19264.py:252-293 | for the same buffer, the older `show()` with `_reverse = v` sends the current driver's trace for `set_rotation` of the cast value, and so for `set_rotation(v)` whenever `v` fits in a signed 32-bit word |
| `OldDbLcd19264.RotationRaw` | old/DB_LCD19264.py:222-227 | `set_rotation` keeps the raw value; the transfer is rotated exactly when the value is not a multiple of 2^32, so all such values give the same transfer |
| `OldDbLcd19264.RotationWraps` | old/DB_LCD19264.py:258 | `set_rotation(2**32)` gives the unrotated transfer in the older driver and the rotated one in the current driver |
| `OldDbLcd19264.Clear` | old/DB_LCD19264.py:247-250 | models `clear()`: `fill(0)` then `show()` |
| `OldDbLcd19264.ClearSendsZeros` | old/DB_LCD19264.py:247-250 | `clear()` blanks the buffer and sends 1536 zero data bytes whatever the rotation |
| `OldDbLcd19264.Init` | old/DB_LCD19264.py:92-102 | models the older `_init` |
| `OldDbLcd19264.InitMatchesCurrent` | old/DB_LCD19264.py:92-102 | the older `_init` sends the same trace as the current one and leaves the same blank buffer |
| `DbLcd19264.Show` | DB_LCD19264.py:221-245 | models v0.1.3 `show()` |
| `DbLcd19264.Show2` | DB_LCD19264.py:202-214 | models v0.1.3 `show2()`, which writes every byte through `_write_data` |
| `DbLcd19264.Clear` | DB_LCD19264.py:155-167 | models v0.1.3 `clear()` |
| `DbLcd19264.Init` | DB_LCD19264.py:96-105 | models v0.1.3 `_init` |
| `DbLcd19264.ShowPageIsCurrent` | DB_LCD19264.py:228-241 | a page of the v0.1.3 `show()` is the unrotated page of the current driver |
| `DbLcd19264.ShowMatchesCurrent` | DB_LCD19264.py:221-245 | v0.1.3 `show()` strobes the same bytes, in the same order, as the current unrotated `show()` |
| `DbLcd19264.Show2MatchesShow` | DB_LCD19264.py:202-245 | `show2()` and `show()` strobe the same byte sequence |
| `DbLcd19264.ShowDataBytes` | DB_LCD19264.py:202-245 | both send exactly 1536 bytes, the `k`-th being `buffer[address + page*192 + chip*64]` of the `k`-th loop step |
| `DbLcd19264.ShowControl` | DB_LCD19264.py:221-245 | 27 commands: 0xC0 and one 0x40 first, then the page commands, 0x3F last; chips 1, 2, 3 selected in turn; data mode entered once per page (24) |
| `DbLcd19264.Show2Control` | DB_LCD19264.py:202-214 | 49 commands: page command then column 0 before every page, 0x3F last; chips 1, 2, 3 selected in turn; data mode entered once per byte (1536) |
| `DbLcd19264.ClearTraffic` | DB_LCD19264.py:155-167 | `clear()` blanks the buffer and writes 1536 zero bytes, each with its own data-mode entry; per chip one select and one 0xC0; chip 1 selected last |
| `DbLcd19264.ClearLayout` | DB_LCD19264.py:158-166 | position of every control event of `clear()`: 3079 events; the pass for chip c + 1 starts at 1026c with that chip's select, then 0xC0; event 3078, the last, selects chip 1 |
| `DbLcd19264.ClearWriteLayout` | DB_LCD19264.py:162-164 | the j-th of the 512 writes in the pass for chip c + 1 is data mode at 1026c + 2 + 2j, then a strobe of 0 at the next position |
| `DbLcd19264.ShowLayout` | DB_LCD19264.py:221-245 | position of every event of v0.1.3 `show()`: 1590 events; 0xC0 and 0x40 first, 0x3F last; chip c's select at 2 + 529c; page p's command at 3 + 529c + 66p, then data mode, then the strobe of `buffer[a + 192p + 64c]` at 5 + 529c + 66p + a |
| `DbLcd19264.Show2Layout` | DB_LCD19264.py:204-214 | position of every control event of `show2()`: 3124 events, 0x3F last; chip c's select at 1041c; page p's command at 1 + 1041c + 130p, then 0x40 |
| `DbLcd19264.Show2WriteLayout` | DB_LCD19264.py:209-211 | in page p of chip c, the write for address a is data mode at 3 + 1041c + 130p + 2a, then the strobe of `buffer[a + 192p + 64c]` |
| `DbLcd19264.InitAgainstCurrent` | DB_LCD19264.py:96-105 | `_init` pulses reset and activates all three chips like the current driver, but sends display on before start line 0, the reverse of the current order |
| `Bmp.LittleEndianRoundTrip` | lcd19264.py:410-417 | decoding the little-endian encoding of a value that fits returns the value |
| `Bmp.LittleEndianBytesOf` | lcd19264.py:410-417 | encoding a decoded field returns its bytes |
| `Bmp.ParseHeader` | lcd19264.py:406-423 | models the header part of `load_bmp`: the signature test, the six little-endian fields and the planes/depth/compression test |
| `Bmp.HeaderFields` | lcd19264.py:408-417 | the signature check and where each header field is read: offset at 10, width 18, height 22, planes 26, bits per pixel 28, compression 30, little-endian, missing bytes as zero |
| `Bmp.HeaderAccepted` | lcd19264.py:408-423 | byte-level characterisation of the files passed on: `BM`, planes 1, depth 1, compression 0 |
| `Bmp.HeaderRoundTrip` | lcd19264.py:408-423 | an encoded header reads back field for field and is accepted exactly when uncompressed single-plane 1-bit |
| `Bmp.StrideBounds` | lcd19264.py:438-448 | the stored row length is a multiple of 4, holds the row's pixels with under 32 bits of padding, and is at least `width // 8` |
| `Bmp.RowsFit` | lcd19264.py:438-441 | the copied rows fit in the bitmap array, and fill it when the width is a multiple of 8 |
| `Bmp.IndicesInRange` | lcd19264.py:449-456 | every destination index lies in [0, bitmap_size) and every source index in [0, total_size) |
| `Bmp.DestinationInjective` | lcd19264.py:449-456 | no two copies write the same destination byte |
| `Bmp.InkFlipsBits` | lcd19264.py:453-456 | with `color == 1` every bit of the copied byte is flipped (`^ 0xff`); otherwise the byte is copied unchanged |
| `Bmp.UnpackedCopy` | lcd19264.py:449-456 | each copy writes its source byte, inked, at its destination |
| `Bmp.SendBmpToBuffer` | lcd19264.py:427-456 | the nested loops produce exactly the unpacked bitmap |
| `Bmp.RowsFlipped` | lcd19264.py:438-456 | for every width, stored row `r` lands in row `height-1-r` of the copied rows with its bytes in their original order; the copied rows follow the `bitmap_size - height * row_bytes` leading bytes the copy never writes, of which there are none when the width is a multiple of 8 |
| `Bmp.PaddingIgnored` | lcd19264.py:446-456 | row padding is never read: images equal on the pixel bytes give equal bitmaps |
| `Bmp.UncopiedZero` | lcd19264.py:440-443 | bitmap bytes beyond the copied rows stay zero |
| `Bmp.LoadBmpGate` | lcd19264.py:408-458 | an image reaches the frame buffer exactly when the header is accepted and the file holds all its data; it is then the unpacked image, framed with the header's width and height |
| `Bmp.LoadBmp` | lcd19264.py:398-458 | not a BMP or an unsupported header writes nothing; an image is blitted at the requested (x, y), with the header's width and height |
| `Bmp.LoadBmpAsWritten` | lcd19264.py:459 | as written, an image is always blitted at (0, 0) |
| `Bmp.LoadBmpAsWrittenIgnoresPosition` | lcd19264.py:398-459 | as written, the `x` and `y` arguments have no effect on the outcome |
| `Bmp.LoadBmpIgnoresPosition` | lcd19264.py:398-459 | an 8×1 image requested at (10, 5) is placed at (10, 5) by the corrected model and at (0, 0) as written |
| `Drawing.Layout` | lcd19264.py:330-340 | models the glyph loop of `draw_text`: wrap test, cursor return and advance |
| `Drawing.DrawText` | lcd19264.py:306-340 | no font: nothing drawn; otherwise one placement per glyph, in order, inverted exactly when `color` is 0 |
| `Drawing.LayoutNoWrap` | lcd19264.py:330-340 | without wrapping, glyph `i` sits at the start x plus the widths of the glyphs before it, on the start line |
| `Drawing.LayoutStep` | lcd19264.py:330-340 | each glyph is placed at the cursor left by the previous one, or, with wrap on and `x + w > 192`, at `x_start` one glyph-height lower |
| `Drawing.LayoutFits` | lcd19264.py:330-340 | with wrapping, no glyph starts left of `x_start` or above the start line, and any glyph that fits right of `x_start` stays within the 192-pixel width |
| `Drawing.LayoutGlyphs` | lcd19264.py:325-340 | the placements carry the glyphs in text order and the requested colour |
| `Drawing.BytePixelsMember` | lcd19264.py:374-395 | a byte lights column `x + k` exactly when its bit `7 - k` is set, most significant bit leftmost |
| `Drawing.DrawBitmapTran` | lcd19264.py:357-396 | models `draw_bitmap_tran`: the pixels its row, byte and bit loops set |
| `Drawing.DrawBitmapTranPixels` | lcd19264.py:357-396 | a pixel is drawn exactly when the corresponding bitmap bit is set, in the requested colour, at the bitmap position offset by (x, y) |
| `Drawing.DrawBitmapTranBlank` | lcd19264.py:357-396 | a bitmap of clear bits draws nothing |

## Left out

- Pin electrics, `sleep_us`/`sleep_ms` timing and enable-pulse widths: line writes are trace events only.
- `status()`: it reads levels the panel drives, which this model has no source of.
- The controllers' display RAM and column auto-increment: properties are stated over the emitted trace.
- The `framebuf` library (`fill`, `pixel`, `blit`, `text`, palettes, MONO_VLSB/MONO_HLSB layouts): a blit or a pixel write is the result, not its effect on the buffer.
- `font.get_ch` and the glyph bitmaps: `draw_text` takes the glyph sizes as input, and glyphs are not rasterised.
- `draw_bitmap` and `set_font`: they only hand their arguments to `framebuf`.
- File I/O in `load_bmp`: the file is its byte sequence; `open`, `seek` and `close` are not events.
- `micropython.viper` machine-word arithmetic: header widths and heights up to 2^32-1 are unbounded naturals here, not wrapped.
- The machine word is taken to be 32 bits, as on the microcontroller ports; on a 64-bit port the older driver's `int(self._reverse)` would wrap at 2^64 instead.
- `Bmp.RowsFlipped`: how `FrameBuffer(bitmap, width, height, MONO_HLSB)` reads an array whose width is not a multiple of 8 is not stated. That layout wants `(width + 7) // 8` bytes per row, while the copy writes `width // 8` per row after the leading bytes it never writes, so such images are shifted and lose their last partial byte; the frame buffer itself is not modelled.
- Default arguments (`set_rotation(rotation=True)`, the older `set_rotation(reverse=1)`, `set_text_wrap(on=True)`, `draw_text(..., color=1)`, `load_bmp(..., x=0, y=0, color=1)`): callers pass every argument. `bool()` of non-integer arguments (`None`, strings, floats) is not modelled: the flags take an integer and store whether it is non-zero.
- Reads past the end of a buffer through `ptr8`: a BMP file with fewer image bytes than the header promises is reported as `ShortImage` instead of reading memory. `draw_bitmap_tran` requires enough bitmap bytes for its rows.
- The constructors and the example scripts (hardware set-up and endless demo loops). The v0.1.3 constructor's `_init()` then `clear()` sequence is covered by `DbLcd19264.InitAgainstCurrent` and `DbLcd19264.ClearTraffic` separately.
- Command codes above 255 (arguments outside the documented ranges): the code is recorded as passed, not as the eight bus bits it would produce.

## Findings

| source | as written | input that shows it | evidently intended | confidence | as-written member | corrected member |
|---|---|---|---|---|---|---|
| lcd19264.py:459 | `_send_bmp_to_buffer` ends in `self.blit(fb, 0, 0)`, so `load_bmp` ignores its `x` and `y` | a valid 8×1 1-bit BMP loaded with `x = 10, y = 5` is blitted at (0, 0) | blit at (`x`, `y`), as the documented "Start X/Y position" arguments say | likely; not executed | `Bmp.LoadBmpAsWritten` (shown by `Bmp.LoadBmpIgnoresPosition`) | `Bmp.LoadBmp` |
