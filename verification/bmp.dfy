/** `load_bmp` and `_send_bmp_to_buffer` of the current driver, over the bytes
    of a file: the Windows BMP header check, and the copy of a 1-bit-per-pixel
    image into a frame-buffer byte array that drops each row's padding to a
    4-byte boundary and turns the bottom-up row order of the file upside down. */
module Bmp {
  import opened Bits
  import opened Seqs

  /** `int.from_bytes(s, 'little')`: unsigned, least significant byte first. */
  function LittleEndian(s: seq<Byte>): nat
  {
    if |s| == 0 then 0 else s[0] + 256 * LittleEndian(s[1..])
  }

  function Pow256(n: nat): (r: nat)
    ensures r >= 1
  {
    if n == 0 then 1 else 256 * Pow256(n - 1)
  }

  /** The `n`-byte little-endian encoding of `x` (the lowest `n` bytes). */
  function LittleEndianBytes(x: nat, n: nat): (s: seq<Byte>)
    ensures |s| == n
  {
    if n == 0 then [] else [x % 256] + LittleEndianBytes(x / 256, n - 1)
  }

  /** Decoding an encoding gives back every value that fits in `n` bytes. */
  lemma {:induction false} LittleEndianRoundTrip(x: nat, n: nat)
    requires x < Pow256(n)
    ensures LittleEndian(LittleEndianBytes(x, n)) == x
  {
    if n > 0 {
      var s := LittleEndianBytes(x, n);
      assert s[1..] == LittleEndianBytes(x / 256, n - 1);
      LittleEndianRoundTrip(x / 256, n - 1);
    }
  }

  /** Encoding a decoded value gives back the bytes. */
  lemma {:induction false} LittleEndianBytesOf(s: seq<Byte>)
    ensures LittleEndianBytes(LittleEndian(s), |s|) == s
  {
    if |s| > 0 {
      var v := LittleEndian(s);
      assert v % 256 == s[0] && v / 256 == LittleEndian(s[1..]);
      LittleEndianBytesOf(s[1..]);
    }
  }

  function Zeros(k: nat): (s: seq<Byte>)
    ensures |s| == k
  {
    seq(k, _ => 0)
  }

  lemma {:induction false} LittleEndianOfZeros(k: nat)
    ensures LittleEndian(Zeros(k)) == 0
  {
    if k > 0 {
      assert Zeros(k)[1..] == Zeros(k - 1);
      LittleEndianOfZeros(k - 1);
    }
  }

  /** Missing high bytes read as zero. */
  lemma {:induction false} LittleEndianPadded(s: seq<Byte>, k: nat)
    ensures LittleEndian(s + Zeros(k)) == LittleEndian(s)
  {
    if |s| == 0 {
      assert s + Zeros(k) == Zeros(k);
      LittleEndianOfZeros(k);
    } else {
      assert (s + Zeros(k))[1..] == s[1..] + Zeros(k);
      LittleEndianPadded(s[1..], k);
    }
  }

  /** `f.read(n)` with the file positioned at `pos`: at most `n` bytes, fewer
      near the end of the file, none past it. */
  function Read(data: seq<Byte>, pos: nat, n: nat): (r: seq<Byte>)
    ensures |r| <= n
    ensures pos + n <= |data| ==> r == data[pos..pos + n]
  {
    if pos >= |data| then [] else if pos + n <= |data| then data[pos..pos + n] else data[pos..]
  }

  /** Byte `i` of the file, or 0 past its end. */
  function At(data: seq<Byte>, i: nat): Byte
  {
    if i < |data| then data[i] else 0
  }

  /** The header fields the driver reads, as numbers. */
  datatype Header = Header(offset: nat, width: nat, height: nat, planes: nat, depth: nat, compress: nat)

  datatype Parsed = NotBmp | Unsupported(header: Header) | Accepted(header: Header)

  /** Header part of `load_bmp`: the signature `BM`, then the data offset at
      byte 10 (file header), width, height, planes, bits per pixel and
      compression at bytes 18, 22, 26, 28 and 30 (info header). Only
      uncompressed single-plane 1-bit images are accepted. The reads are
      sequential, so in a truncated file the missing bytes of a field read as
      nothing and its value is taken from the bytes that are there. */
  function ParseHeader(data: seq<Byte>): Parsed
  {
    if Read(data, 0, 2) != [0x42, 0x4D] then NotBmp
    else
      var h := Header(LittleEndian(Read(data, 10, 4)), LittleEndian(Read(data, 18, 4)),
                      LittleEndian(Read(data, 22, 4)), LittleEndian(Read(data, 26, 2)),
                      LittleEndian(Read(data, 28, 2)), LittleEndian(Read(data, 30, 4)));
      if h.planes == 1 && h.depth == 1 && h.compress == 0 then Accepted(h) else Unsupported(h)
  }

  /** `n` bytes of the file from `pos`, with zeros past its end. */
  function Padded(data: seq<Byte>, pos: nat, n: nat): (s: seq<Byte>)
    ensures |s| == n
  {
    seq<Byte>(n, i requires 0 <= i < n => At(data, pos + i))
  }

  /** A field read whole or in part is the little-endian number of its bytes
      with the missing ones taken as zero. */
  lemma ReadPadded(data: seq<Byte>, pos: nat, n: nat)
    ensures LittleEndian(Read(data, pos, n)) == LittleEndian(Padded(data, pos, n))
  {
    var r := Read(data, pos, n);
    forall i | 0 <= i < n
      ensures Padded(data, pos, n)[i] == (r + Zeros(n - |r|))[i]
    {
      assert Padded(data, pos, n)[i] == At(data, pos + i);
      if i < |r| {
        assert r[i] == data[pos + i];
      } else {
        assert pos + i >= |data|;
        assert (r + Zeros(n - |r|))[i] == Zeros(n - |r|)[i - |r|] == 0;
        assert At(data, pos + i) == 0;
      }
    }
    assert Padded(data, pos, n) == r + Zeros(n - |r|);
    LittleEndianPadded(r, n - |r|);
  }

  lemma LittleEndianTwo(s: seq<Byte>)
    requires |s| == 2
    ensures LittleEndian(s) == s[0] as int + 256 * s[1] as int
  {
    assert s[1..][1..] == [];
    assert LittleEndian(s[1..]) == s[1] as int + 256 * LittleEndian(s[1..][1..]);
  }

  lemma LittleEndianFour(s: seq<Byte>)
    requires |s| == 4
    ensures LittleEndian(s) == s[0] as int + 256 * s[1] as int + 65536 * s[2] as int + 16777216 * s[3] as int
  {
    assert LittleEndian(s[3..]) == s[3] as int by {
      assert s[3..][1..] == [];
      assert LittleEndian(s[3..]) == s[3] as int + 256 * LittleEndian(s[3..][1..]);
    }
    assert s[2..][1..] == s[3..];
    assert LittleEndian(s[2..]) == s[2] as int + 256 * LittleEndian(s[3..]);
    assert s[1..][1..] == s[2..];
    assert LittleEndian(s[1..]) == s[1] as int + 256 * LittleEndian(s[2..]);
  }

  /** A two-byte field of the header at `pos`, bytes past the end being zero. */
  function Word(data: seq<Byte>, pos: nat): nat
  {
    At(data, pos) as int + 256 * At(data, pos + 1) as int
  }

  /** A four-byte field of the header at `pos`, bytes past the end being zero. */
  function DoubleWord(data: seq<Byte>, pos: nat): nat
  {
    At(data, pos) as int + 256 * At(data, pos + 1) as int + 65536 * At(data, pos + 2) as int +
    16777216 * At(data, pos + 3) as int
  }

  lemma ReadWord(data: seq<Byte>, pos: nat)
    ensures LittleEndian(Read(data, pos, 2)) == Word(data, pos)
  {
    ReadPadded(data, pos, 2);
    LittleEndianTwo(Padded(data, pos, 2));
  }

  lemma ReadDoubleWord(data: seq<Byte>, pos: nat)
    ensures LittleEndian(Read(data, pos, 4)) == DoubleWord(data, pos)
  {
    ReadPadded(data, pos, 4);
    LittleEndianFour(Padded(data, pos, 4));
  }

  /** The fields the header check reads, located in the file. */
  lemma HeaderFields(data: seq<Byte>)
    ensures ParseHeader(data).NotBmp? <==> !(At(data, 0) == 0x42 && At(data, 1) == 0x4D)
    ensures !ParseHeader(data).NotBmp? ==>
      ParseHeader(data).header == Header(DoubleWord(data, 10), DoubleWord(data, 18), DoubleWord(data, 22),
                                         Word(data, 26), Word(data, 28), DoubleWord(data, 30))
  {
    if Read(data, 0, 2) == [0x42, 0x4D] {
      assert |data| >= 2;
    } else if |data| >= 2 {
      assert Read(data, 0, 2) == [data[0], data[1]];
    }
    ReadDoubleWord(data, 10);
    ReadDoubleWord(data, 18);
    ReadDoubleWord(data, 22);
    ReadWord(data, 26);
    ReadWord(data, 28);
    ReadDoubleWord(data, 30);
  }

  /** Exactly which files the header check lets through, byte by byte: `BM`,
      planes 1, one bit per pixel, no compression. A file cut short inside the
      compression field still passes, its missing bytes reading as zero. */
  lemma HeaderAccepted(data: seq<Byte>)
    ensures ParseHeader(data).Accepted? <==>
      At(data, 0) == 0x42 && At(data, 1) == 0x4D &&
      At(data, 26) == 1 && At(data, 27) == 0 && At(data, 28) == 1 && At(data, 29) == 0 &&
      At(data, 30) == 0 && At(data, 31) == 0 && At(data, 32) == 0 && At(data, 33) == 0
  {
    HeaderFields(data);
  }

  /** A BMP header with the given fields: signature, eight bytes of file size
      and reserved words (zero here), data offset, info-header size 40, then
      the info-header fields. */
  function EncodeHeader(h: Header): (s: seq<Byte>)
    requires h.offset < 0x1_0000_0000 && h.width < 0x1_0000_0000 && h.height < 0x1_0000_0000
    requires h.planes < 0x1_0000 && h.depth < 0x1_0000 && h.compress < 0x1_0000_0000
    ensures |s| == 34
  {
    [0x42, 0x4D] + Zeros(8) + LittleEndianBytes(h.offset, 4) + LittleEndianBytes(40, 4) +
    LittleEndianBytes(h.width, 4) + LittleEndianBytes(h.height, 4) +
    LittleEndianBytes(h.planes, 2) + LittleEndianBytes(h.depth, 2) + LittleEndianBytes(h.compress, 4)
  }

  /** Whatever follows it, an encoded header is read back field for field, and
      accepted exactly when it describes an uncompressed 1-bit image. */
  lemma HeaderRoundTrip(h: Header, rest: seq<Byte>)
    requires h.offset < 0x1_0000_0000 && h.width < 0x1_0000_0000 && h.height < 0x1_0000_0000
    requires h.planes < 0x1_0000 && h.depth < 0x1_0000 && h.compress < 0x1_0000_0000
    ensures ParseHeader(EncodeHeader(h) + rest) ==
      if h.planes == 1 && h.depth == 1 && h.compress == 0 then Accepted(h) else Unsupported(h)
  {
    var data := EncodeHeader(h) + rest;
    assert Read(data, 0, 2) == [0x42, 0x4D];
    assert Read(data, 10, 4) == LittleEndianBytes(h.offset, 4);
    assert Read(data, 18, 4) == LittleEndianBytes(h.width, 4);
    assert Read(data, 22, 4) == LittleEndianBytes(h.height, 4);
    assert Read(data, 26, 2) == LittleEndianBytes(h.planes, 2);
    assert Read(data, 28, 2) == LittleEndianBytes(h.depth, 2);
    assert Read(data, 30, 4) == LittleEndianBytes(h.compress, 4);
    assert Pow256(2) == 0x1_0000 && Pow256(4) == 0x1_0000_0000;
    LittleEndianRoundTrip(h.offset, 4);
    LittleEndianRoundTrip(h.width, 4);
    LittleEndianRoundTrip(h.height, 4);
    LittleEndianRoundTrip(h.planes, 2);
    LittleEndianRoundTrip(h.depth, 2);
    LittleEndianRoundTrip(h.compress, 4);
  }

  /** `block_size`: bytes per stored row, padded to a multiple of four. */
  function Stride(width: nat): nat
  {
    ((width + 31) / 32) * 4
  }

  /** `row_bytes`: whole bytes of pixels per row. */
  function RowBytes(width: nat): nat
  {
    width / 8
  }

  /** `total_size`: bytes of image data read from the file. */
  function TotalSize(width: nat, height: nat): nat
  {
    height * Stride(width)
  }

  /** `bitmap_size`: bytes of the frame-buffer array. */
  function BitmapSize(width: nat, height: nat): nat
  {
    height * width / 8
  }

  /** A stored row holds the row's pixels, one bit each, with fewer than four
      bytes of padding, and its length is a multiple of four. */
  lemma StrideBounds(width: nat)
    ensures Stride(width) % 4 == 0
    ensures width <= 8 * Stride(width) < width + 32
    ensures RowBytes(width) <= Stride(width)
  {
  }

  /** The copied rows fit in the frame-buffer array. */
  lemma RowsFit(width: nat, height: nat)
    ensures height * RowBytes(width) <= BitmapSize(width, height)
    ensures width % 8 == 0 ==> height * RowBytes(width) == BitmapSize(width, height)
  {
    var rb := RowBytes(width);
    assert 8 * (height * rb) == height * (8 * rb);
    assert height * (8 * rb) <= height * width by {
      MulLeft(height, 8 * rb, width);
    }
    if width % 8 == 0 {
      assert height * width == 8 * (height * rb);
    }
  }

  lemma MulLeft(a: nat, b: nat, c: nat)
    requires b <= c
    ensures a * b <= a * c
  {
  }

  /** Position `row * n + col` of `row`-major storage with `n` per row. */
  lemma RowMajor(row: nat, col: nat, n: nat, rows: nat)
    requires col < n && row < rows
    ensures (row * n + col) / n == row && (row * n + col) % n == col
    ensures row * n + col < rows * n
  {
    var k := row * n + col;
    var q, m := k / n, k % n;
    assert k == q * n + m;
    assert (q - row) * n == col - m;
    MulSign(q - row, n);
    MulLeft(n, row + 1, rows);
  }

  /** `_send_bmp_to_buffer`'s destination index for byte `byte` of row `row`. */
  function Destination(width: nat, height: nat, row: nat, byte: nat): int
  {
    BitmapSize(width, height) - 1 - RowBytes(width) * row - byte
  }

  /** `_send_bmp_to_buffer`'s source index for byte `byte` of row `row`. */
  function Source(width: nat, row: nat, byte: nat): int
  {
    Stride(width) * row + RowBytes(width) - 1 - byte
  }

  /** Every copied byte is read from inside the image data and written inside
      the bitmap, and no two copies write the same place. */
  lemma IndicesInRange(width: nat, height: nat, row: nat, byte: nat)
    requires row < height && byte < RowBytes(width)
    ensures 0 <= Destination(width, height, row, byte) < BitmapSize(width, height)
    ensures 0 <= Source(width, row, byte) < TotalSize(width, height)
  {
    var rb := RowBytes(width);
    RowMajor(row, byte, rb, height);
    RowsFit(width, height);
    StrideBounds(width);
    assert Stride(width) * row + Stride(width) <= TotalSize(width, height) by {
      MulLeft(Stride(width), row + 1, height);
    }
  }

  lemma DestinationInjective(width: nat, height: nat, r1: nat, b1: nat, r2: nat, b2: nat)
    requires r1 < height && b1 < RowBytes(width) && r2 < height && b2 < RowBytes(width)
    ensures Destination(width, height, r1, b1) == Destination(width, height, r2, b2) <==> r1 == r2 && b1 == b2
  {
    var rb := RowBytes(width);
    RowMajor(r1, b1, rb, height);
    RowMajor(r2, b2, rb, height);
    assert rb * r1 == r1 * rb && rb * r2 == r2 * rb;
  }

  /** A copied byte: inverted (`^ 0xff`) when `color` is 1, as it is otherwise. */
  function Ink(b: Byte, color: int): Byte
  {
    if color == 1 then 255 - b else b
  }

  /** Inverting flips every one of the eight bits, which is what `^ 0xff` does. */
  lemma InkFlipsBits(b: Byte, color: int)
    ensures forall i :: 0 <= i < 8 ==> Bit(Ink(b, color), i) == (Bit(b, i) != (color == 1))
  {
    if color == 1 {
      forall i | 0 <= i < 8
        ensures Bit(255 - b, i) == !Bit(b, i)
      {
        ComplementBit(b, 8, i);
      }
    }
  }

  /** Bit `i` of `2^n - 1 - x` is the complement of bit `i` of `x`. */
  lemma {:induction false} ComplementBit(x: int, n: nat, i: nat)
    requires 0 <= x < Pow2(n) && i < n
    ensures Bit(Pow2(n) - 1 - x, i) == !Bit(x, i)
  {
    var y := Pow2(n) - 1 - x;
    assert y == 2 * (Pow2(n - 1) - 1 - x / 2) + (1 - x % 2);
    if i > 0 {
      assert y / 2 == Pow2(n - 1) - 1 - x / 2;
      ComplementBit(x / 2, n - 1, i - 1);
    }
  }

  /** Byte `d` of the frame-buffer array after the copy: counting from the end
      of the array, the `e`-th byte holds the byte `e % row_bytes` from the end
      of the pixel bytes of stored row `e / row_bytes`; bytes past the copied
      rows stay zero. */
  function UnpackedAt(image: seq<Byte>, width: nat, height: nat, color: int, d: nat): Byte
    requires |image| >= TotalSize(width, height)
  {
    var e := BitmapSize(width, height) - 1 - d;
    var rb := RowBytes(width);
    if 0 <= e < height * rb then
      BlockOf(e, height, rb);
      var row, byte := e / rb, e % rb;
      IndicesInRange(width, height, row, byte);
      Ink(image[Source(width, row, byte)], color)
    else 0
  }

  /** The frame-buffer array `_send_bmp_to_buffer` fills from `image`. */
  function Unpacked(image: seq<Byte>, width: nat, height: nat, color: int): (bitmap: seq<Byte>)
    requires |image| >= TotalSize(width, height)
    ensures |bitmap| == BitmapSize(width, height)
  {
    seq(BitmapSize(width, height), d requires 0 <= d < BitmapSize(width, height) =>
      UnpackedAt(image, width, height, color, d))
  }

  /** The copy of byte `byte` of stored row `row`: read from its source
      index, written (inverted when `color` is 1) at its destination index. */
  lemma UnpackedCopy(image: seq<Byte>, width: nat, height: nat, color: int, row: nat, byte: nat)
    requires |image| >= TotalSize(width, height)
    requires row < height && byte < RowBytes(width)
    ensures 0 <= Destination(width, height, row, byte) < BitmapSize(width, height)
    ensures 0 <= Source(width, row, byte) < TotalSize(width, height)
    ensures Unpacked(image, width, height, color)[Destination(width, height, row, byte)] ==
      Ink(image[Source(width, row, byte)], color)
  {
    var rb := RowBytes(width);
    IndicesInRange(width, height, row, byte);
    RowMajor(row, byte, rb, height);
    assert rb * row == row * rb;
  }

  /** The loops of `_send_bmp_to_buffer`: a zeroed array, then for each
      stored row and each whole pixel byte of it, one copy. */
  method SendBmpToBuffer(image: seq<Byte>, width: nat, height: nat, color: int) returns (bitmap: seq<Byte>)
    requires |image| >= TotalSize(width, height)
    ensures bitmap == Unpacked(image, width, height, color)
  {
    var blockSize := Stride(width);
    var bitmapSize := BitmapSize(width, height);
    var rowBytes := RowBytes(width);
    bitmap := Zeros(bitmapSize);
    ghost var u := Unpacked(image, width, height, color);
    RowsFit(width, height);
    for row := 0 to height
      invariant |bitmap| == bitmapSize
      invariant forall d :: 0 <= d < bitmapSize ==>
        bitmap[d] == if bitmapSize - 1 - d < row * rowBytes then u[d] else 0
    {
      for byte := 0 to rowBytes
        invariant |bitmap| == bitmapSize
        invariant forall d :: 0 <= d < bitmapSize ==>
          bitmap[d] == if bitmapSize - 1 - d < row * rowBytes + byte then u[d] else 0
      {
        IndicesInRange(width, height, row, byte);
        RowMajor(row, byte, rowBytes, height);
        var dst := bitmapSize - 1 - rowBytes * row - byte;
        var src := blockSize * row + rowBytes - 1 - byte;
        if color == 1 {
          bitmap := bitmap[dst := 255 - image[src]];
        } else {
          bitmap := bitmap[dst := image[src]];
        }
        assert bitmap[dst] == u[dst];
      }
      assert row * rowBytes + rowBytes == (row + 1) * rowBytes;
    }
  }

  /** Byte `col` of row `row` when rows are `n` bytes long. */
  function RowMajorIndex(row: nat, n: nat, col: nat): nat
  {
    row * n + col
  }

  /** Stored row `r` (rows are stored bottom-up) lands in row `height - 1 - r`
      of the copied rows, with its bytes in their original order, inverted
      when `color` is 1. The copied rows sit at the end of the array, after
      the `bitmap_size - height * row_bytes` bytes the copy never writes;
      there are none when the width is a multiple of 8. */
  lemma RowsFlipped(image: seq<Byte>, width: nat, height: nat, color: int, r: nat, c: nat)
    requires |image| >= TotalSize(width, height)
    requires r < height && c < RowBytes(width)
    ensures 0 <= BitmapSize(width, height) - height * RowBytes(width)
    ensures width % 8 == 0 ==> BitmapSize(width, height) - height * RowBytes(width) == 0
    ensures BitmapSize(width, height) - height * RowBytes(width) +
      RowMajorIndex(height - 1 - r, RowBytes(width), c) < BitmapSize(width, height)
    ensures RowMajorIndex(r, Stride(width), c) < TotalSize(width, height)
    ensures Unpacked(image, width, height, color)[BitmapSize(width, height) - height * RowBytes(width) +
      RowMajorIndex(height - 1 - r, RowBytes(width), c)] ==
      Ink(image[RowMajorIndex(r, Stride(width), c)], color)
  {
    var rb := RowBytes(width);
    var byte := rb - 1 - c;
    var stride := Stride(width);
    RowsFit(width, height);
    UnpackedCopy(image, width, height, color, r, byte);
    FlipIndex(height, r, rb, c);
    assert Source(width, r, byte) == r * stride + c by {
      assert stride * r == r * stride;
    }
  }

  lemma FlipIndex(height: nat, r: nat, rb: nat, c: nat)
    requires r < height && c < rb
    ensures (height - 1 - r) * rb + c < height * rb
    ensures height * rb - 1 - rb * r - (rb - 1 - c) == (height - 1 - r) * rb + c
  {
    RowMajor(height - 1 - r, c, rb, height);
  }

  /** The padding at the end of each stored row, and any bits of a last
      partial byte, are never read: images that agree on the whole pixel
      bytes give the same frame buffer. */
  lemma PaddingIgnored(image: seq<Byte>, other: seq<Byte>, width: nat, height: nat, color: int)
    requires |image| >= TotalSize(width, height) && |other| >= TotalSize(width, height)
    requires forall i :: 0 <= i < TotalSize(width, height) && i % Stride(width) < RowBytes(width) ==>
      image[i] == other[i]
    ensures Unpacked(image, width, height, color) == Unpacked(other, width, height, color)
  {
    forall d | 0 <= d < BitmapSize(width, height)
      ensures UnpackedAt(image, width, height, color, d) == UnpackedAt(other, width, height, color, d)
    {
      var e := BitmapSize(width, height) - 1 - d;
      var rb := RowBytes(width);
      if 0 <= e < height * rb {
        BlockOf(e, height, rb);
        SourceColumn(width, height, e / rb, e % rb);
      }
    }
  }

  /** A copy reads the pixel part of its stored row, never the padding. */
  lemma SourceColumn(width: nat, height: nat, row: nat, byte: nat)
    requires row < height && byte < RowBytes(width)
    ensures 0 <= Source(width, row, byte) < TotalSize(width, height)
    ensures Source(width, row, byte) % Stride(width) == RowBytes(width) - 1 - byte
  {
    var stride := Stride(width);
    IndicesInRange(width, height, row, byte);
    StrideBounds(width);
    RowMajor(row, RowBytes(width) - 1 - byte, stride, height);
    assert stride * row == row * stride;
  }

  /** Bytes of the array beyond the copied rows (there are some only when the
      width is not a multiple of 8) stay zero. */
  lemma UncopiedZero(image: seq<Byte>, width: nat, height: nat, color: int, d: nat)
    requires |image| >= TotalSize(width, height)
    requires d < BitmapSize(width, height) - height * RowBytes(width)
    ensures Unpacked(image, width, height, color)[d] == 0
  {
  }

  /** What `load_bmp` ends in: nothing written (not a BMP, or a header it
      does not support), or a frame buffer of the unpacked image blitted at a
      position. `ShortImage` is a file with fewer image bytes than the header
      promises, which the driver reads past the end of. */
  datatype Load =
    | NotLoaded
    | Refused(header: Header)
    | ShortImage(header: Header)
    | Blit(bitmap: seq<Byte>, width: nat, height: nat, x: int, y: int)

  /** `load_bmp(filename, x, y, color)` over the file's bytes, with the
      image placed at (`x`, `y`) as its documentation says. */
  function LoadBmp(data: seq<Byte>, x: int, y: int, color: int): (r: Load)
    ensures r.Blit? ==> r.x == x && r.y == y
    ensures r.Blit? ==> ParseHeader(data).Accepted? && |r.bitmap| == BitmapSize(r.width, r.height)
    ensures r.Blit? ==> r.width == ParseHeader(data).header.width && r.height == ParseHeader(data).header.height
    ensures ParseHeader(data).NotBmp? <==> r.NotLoaded?
    ensures ParseHeader(data).Unsupported? <==> r.Refused?
  {
    match ParseHeader(data)
    case NotBmp => NotLoaded
    case Unsupported(h) => Refused(h)
    case Accepted(h) =>
      var image := Read(data, h.offset, TotalSize(h.width, h.height));
      if |image| < TotalSize(h.width, h.height) then ShortImage(h)
      else Blit(Unpacked(image, h.width, h.height, color), h.width, h.height, x, y)
  }

  /** `load_bmp` as written: `_send_bmp_to_buffer` ends in `blit(fb, 0, 0)`,
      so the image lands at the origin whatever `x` and `y` are. */
  function LoadBmpAsWritten(data: seq<Byte>, x: int, y: int, color: int): (r: Load)
    ensures r.Blit? ==> r.x == 0 && r.y == 0
  {
    var placed := LoadBmp(data, x, y, color);
    if placed.Blit? then placed.(x := 0, y := 0) else placed
  }

  /** The position passed to `load_bmp` as written has no effect at all. */
  lemma LoadBmpAsWrittenIgnoresPosition(data: seq<Byte>, x: int, y: int, color: int)
    ensures LoadBmpAsWritten(data, x, y, color) == LoadBmpAsWritten(data, 0, 0, color)
  {
  }

  /** A file holding an 8-by-1 image: a 34-byte header with the data right after it. */
  lemma SmallFileAccepted(data: seq<Byte>)
    requires data == EncodeHeader(Header(34, 8, 1, 1, 1, 0)) + [0xAA, 0, 0, 0]
    ensures ParseHeader(data) == Accepted(Header(34, 8, 1, 1, 1, 0))
    ensures Read(data, 34, 4) == [0xAA, 0, 0, 0]
  {
    HeaderRoundTrip(Header(34, 8, 1, 1, 1, 0), [0xAA, 0, 0, 0]);
    assert |data| == 38;
    assert data[34..38] == [0xAA, 0, 0, 0];
  }

  /** An 8-by-1 image requested at (10, 5): the corrected model blits it
      there, the driver as written blits the same bitmap at (0, 0). */
  lemma LoadBmpIgnoresPosition(data: seq<Byte>)
    requires data == EncodeHeader(Header(34, 8, 1, 1, 1, 0)) + [0xAA, 0, 0, 0]
    ensures LoadBmp(data, 10, 5, 1).Blit?
    ensures LoadBmp(data, 10, 5, 1).x == 10 && LoadBmp(data, 10, 5, 1).y == 5
    ensures LoadBmpAsWritten(data, 10, 5, 1) == LoadBmp(data, 10, 5, 1).(x := 0, y := 0)
  {
    SmallFileAccepted(data);
    assert TotalSize(8, 1) == 4 by {
      assert Stride(8) == 4;
    }
  }

  /** Nothing reaches the frame buffer unless the header check passed and
      the file holds all the image data; what does is the unpacked image,
      framed with the header's width and height. */
  lemma LoadBmpGate(data: seq<Byte>, x: int, y: int, color: int)
    ensures LoadBmp(data, x, y, color).Blit? <==>
      ParseHeader(data).Accepted? &&
      |Read(data, ParseHeader(data).header.offset,
            TotalSize(ParseHeader(data).header.width, ParseHeader(data).header.height))| ==
        TotalSize(ParseHeader(data).header.width, ParseHeader(data).header.height)
    ensures LoadBmp(data, x, y, color).Blit? ==>
      LoadBmp(data, x, y, color).width == ParseHeader(data).header.width &&
      LoadBmp(data, x, y, color).height == ParseHeader(data).header.height
    ensures LoadBmp(data, x, y, color).Blit? && TotalSize(ParseHeader(data).header.width, ParseHeader(data).header.height) > 0 ==>
      var h := ParseHeader(data).header;
      h.offset + TotalSize(h.width, h.height) <= |data| &&
      LoadBmp(data, x, y, color).bitmap ==
        Unpacked(data[h.offset..h.offset + TotalSize(h.width, h.height)], h.width, h.height, color)
  {
    var p := ParseHeader(data);
    if p.Accepted? {
      var h := p.header;
      var n := TotalSize(h.width, h.height);
      var image := Read(data, h.offset, n);
      if |image| == n && n > 0 {
        assert h.offset < |data|;
      }
    }
  }
}
