/** The frame-buffer side of the current driver that is plain arithmetic:
    where `draw_text` puts each glyph, and which pixels `draw_bitmap_tran`
    sets. The frame buffer itself is not modelled; what these operations hand
    to it (a glyph blitted at a position, a pixel set) is the result. */
module Drawing {
  import opened Bits
  import opened Seqs

  /** The panel width in pixels, the driver's `self.width`. */
  const ScreenWidth := 192

  /** A glyph's size as `font.get_ch` reports it. */
  datatype Glyph = Glyph(height: nat, width: nat)

  /** One glyph blitted at (`x`, `y`); `inverted` when drawn through the
      inverting palette. */
  datatype Placement = Placement(x: int, y: int, glyph: Glyph, inverted: bool)

  datatype TextResult = FontNotSet | Drawn(placements: seq<Placement>)

  /** The glyph loop of `draw_text` from cursor (`x`, `y`). When wrapping is
      on and the glyph would cross the right edge, the cursor first returns
      to `xStart` and moves down by that glyph's height; the glyph is placed
      at the cursor, which then advances by its width. */
  function Layout(glyphs: seq<Glyph>, xStart: int, x: int, y: int, wrap: bool, inverted: bool): (r: seq<Placement>)
    ensures |r| == |glyphs|
  {
    if |glyphs| == 0 then []
    else
      var g := glyphs[0];
      var breaks := wrap && x + g.width > ScreenWidth;
      var px := if breaks then xStart else x;
      var py := if breaks then y + g.height else y;
      [Placement(px, py, g, inverted)] + Layout(glyphs[1..], xStart, px + g.width, py, wrap, inverted)
  }

  /** `draw_text(text, x, y, color)` with the glyph sizes of `text` given:
      nothing is drawn without a font; otherwise the glyphs are laid out from
      (`x`, `y`), inverted when `color` is 0. */
  function DrawText(fontSet: bool, glyphs: seq<Glyph>, x: int, y: int, wrap: bool, color: int): (r: TextResult)
    ensures r.FontNotSet? <==> !fontSet
    ensures r.Drawn? ==> |r.placements| == |glyphs|
    ensures r.Drawn? ==> forall i :: 0 <= i < |glyphs| ==>
      r.placements[i].glyph == glyphs[i] && (r.placements[i].inverted <==> color == 0)
  {
    if !fontSet then FontNotSet
    else
      LayoutGlyphs(glyphs, x, x, y, wrap, color == 0);
      Drawn(Layout(glyphs, x, x, y, wrap, color == 0))
  }

  /** Each glyph is placed once, in order, in the requested colour. */
  lemma {:induction false} LayoutGlyphs(glyphs: seq<Glyph>, xStart: int, x: int, y: int, wrap: bool, inverted: bool)
    ensures forall i :: 0 <= i < |glyphs| ==>
      Layout(glyphs, xStart, x, y, wrap, inverted)[i].glyph == glyphs[i] &&
      Layout(glyphs, xStart, x, y, wrap, inverted)[i].inverted == inverted
  {
    if |glyphs| > 0 {
      var g := glyphs[0];
      var breaks := wrap && x + g.width > ScreenWidth;
      var px := if breaks then xStart else x;
      var py := if breaks then y + g.height else y;
      LayoutGlyphs(glyphs[1..], xStart, px + g.width, py, wrap, inverted);
    }
  }

  /** Total width of a run of glyphs. */
  function Widths(glyphs: seq<Glyph>): nat
  {
    if |glyphs| == 0 then 0 else glyphs[0].width + Widths(glyphs[1..])
  }

  lemma {:induction false} WidthsSnoc(glyphs: seq<Glyph>, g: Glyph)
    ensures Widths(glyphs + [g]) == Widths(glyphs) + g.width
  {
    if |glyphs| > 0 {
      assert (glyphs + [g])[1..] == glyphs[1..] + [g];
      WidthsSnoc(glyphs[1..], g);
    }
  }

  /** Without wrapping the glyphs run along one line: glyph `i` sits at the
      starting x plus the widths of the glyphs before it. */
  lemma {:induction false} LayoutNoWrap(glyphs: seq<Glyph>, xStart: int, x: int, y: int, inverted: bool)
    ensures forall i :: 0 <= i < |glyphs| ==>
      Layout(glyphs, xStart, x, y, false, inverted)[i].x == x + Widths(glyphs[..i]) &&
      Layout(glyphs, xStart, x, y, false, inverted)[i].y == y
  {
    if |glyphs| > 0 {
      var g := glyphs[0];
      LayoutNoWrap(glyphs[1..], xStart, x + g.width, y, inverted);
      forall i | 0 <= i < |glyphs|
        ensures Layout(glyphs, xStart, x, y, false, inverted)[i].x == x + Widths(glyphs[..i])
      {
        if i > 0 {
          assert glyphs[..i][1..] == glyphs[1..][..i - 1];
        }
      }
    }
  }

  /** Where glyph `i + 1` goes, given where glyph `i` went: after it on the
      same line, or, when wrapping is on and it would cross the right edge,
      at `xStart` one glyph-height lower. The first glyph is placed the same
      way from the starting cursor. */
  lemma {:induction false} LayoutStep(glyphs: seq<Glyph>, xStart: int, x: int, y: int, wrap: bool, inverted: bool, i: nat)
    requires i < |glyphs|
    ensures var r := Layout(glyphs, xStart, x, y, wrap, inverted);
      var cx := if i == 0 then x else r[i - 1].x + glyphs[i - 1].width;
      var cy := if i == 0 then y else r[i - 1].y;
      if wrap && cx + glyphs[i].width > ScreenWidth
      then r[i].x == xStart && r[i].y == cy + glyphs[i].height
      else r[i].x == cx && r[i].y == cy
  {
    if i > 0 {
      var g := glyphs[0];
      var breaks := wrap && x + g.width > ScreenWidth;
      var px := if breaks then xStart else x;
      var py := if breaks then y + g.height else y;
      var r := Layout(glyphs, xStart, x, y, wrap, inverted);
      var rest := Layout(glyphs[1..], xStart, px + g.width, py, wrap, inverted);
      assert r == [Placement(px, py, g, inverted)] + rest;
      LayoutStep(glyphs[1..], xStart, px + g.width, py, wrap, inverted, i - 1);
      assert r[i] == rest[i - 1] && glyphs[i] == glyphs[1..][i - 1];
      assert r[i - 1] == (if i == 1 then Placement(px, py, g, inverted) else rest[i - 2]);
      assert glyphs[i - 1] == (if i == 1 then g else glyphs[1..][i - 2]);
    }
  }

  /** With wrapping on, a glyph no wider than the room right of `xStart`
      never crosses the right edge, and no glyph is placed left of `xStart`
      while the cursor starts there. Lines only move down. */
  lemma {:induction false} LayoutFits(glyphs: seq<Glyph>, xStart: int, x: int, y: int, inverted: bool)
    requires xStart <= x
    ensures forall i :: 0 <= i < |glyphs| ==>
      xStart <= Layout(glyphs, xStart, x, y, true, inverted)[i].x &&
      y <= Layout(glyphs, xStart, x, y, true, inverted)[i].y &&
      (xStart + glyphs[i].width <= ScreenWidth ==>
        Layout(glyphs, xStart, x, y, true, inverted)[i].x + glyphs[i].width <= ScreenWidth)
  {
    if |glyphs| > 0 {
      var g := glyphs[0];
      var breaks := x + g.width > ScreenWidth;
      var px := if breaks then xStart else x;
      var py := if breaks then y + g.height else y;
      LayoutFits(glyphs[1..], xStart, px + g.width, py, inverted);
    }
  }

  /** A pixel set by `self.pixel(x, y, color)`. */
  datatype Pixel = Pixel(x: int, y: int, color: int)

  /** The pixel bit `7 - k` of a bitmap byte sets, if it is set: column
      `x + k`, so the most significant bit is leftmost. */
  function BitPixel(b: Byte, x: int, y: int, color: int, k: int): seq<Pixel>
    requires 0 <= k < 8
  {
    if Bit(b, 7 - k) then [Pixel(x + k, y, color)] else []
  }

  /** The pixels one bitmap byte sets, its eight bits tested from the most
      significant down. */
  function BytePixels(b: Byte, x: int, y: int, color: int): seq<Pixel>
  {
    Flatten(seq(8, k requires 0 <= k < 8 => BitPixel(b, x, y, color, k)))
  }

  /** `(width + 7) // 8`: bytes per bitmap row, the `while bit_len < width`
      loop stepping 8 columns a byte; none for a non-positive width. */
  function BytesPerRow(width: int): nat
  {
    if width <= 0 then 0 else (width + 7) / 8
  }

  /** `range(height)`: no rows for a non-positive height. */
  function Rows(height: int): nat
  {
    if height <= 0 then 0 else height
  }

  /** Byte `j` of row `row`; the byte index `i` runs on across rows. */
  function RowBytePixels(data: seq<Byte>, bpr: nat, row: nat, j: nat, x: int, y: int, color: int): seq<Pixel>
  {
    if row * bpr + j < |data| then BytePixels(data[row * bpr + j], x + 8 * j, y + row, color) else []
  }

  function RowPixels(data: seq<Byte>, bpr: nat, row: nat, x: int, y: int, color: int): seq<Pixel>
  {
    Flatten(seq(bpr, j requires 0 <= j < bpr => RowBytePixels(data, bpr, row, j, x, y, color)))
  }

  /** `draw_bitmap_tran(bitmap, x, y, color)`: every bitmap row, every byte,
      every set bit gives one pixel in `color`; clear bits leave the frame
      buffer alone. The bitmap data holds at least one byte per eight
      columns of every row. */
  function DrawBitmapTran(data: seq<Byte>, width: int, height: int, x: int, y: int, color: int): seq<Pixel>
    requires |data| >= Rows(height) * BytesPerRow(width)
  {
    Flatten(BitmapRows(data, BytesPerRow(width), Rows(height), x, y, color))
  }

  /** The pixels of each of the first `rows` bitmap rows. */
  function BitmapRows(data: seq<Byte>, bpr: nat, rows: nat, x: int, y: int, color: int): (r: seq<seq<Pixel>>)
    ensures |r| == rows
    ensures forall row :: 0 <= row < rows ==> r[row] == RowPixels(data, bpr, row, x, y, color)
  {
    seq(rows, row requires 0 <= row < rows => RowPixels(data, bpr, row, x, y, color))
  }

  /** Bitmap column `col` of row `row` is ink: bit `7 - col % 8` of the
      row's byte `col / 8`. */
  predicate Inked(data: seq<Byte>, bpr: nat, row: nat, col: nat)
  {
    var i := row * bpr + col / 8;
    i < |data| && Bit(data[i], 7 - col % 8)
  }

  lemma BytePixelsMember(b: Byte, x: int, y: int, color: int, p: Pixel)
    ensures p in BytePixels(b, x, y, color) <==>
      p.y == y && p.color == color && 0 <= p.x - x < 8 && Bit(b, 7 - (p.x - x))
  {
    var ss := seq(8, k requires 0 <= k < 8 => BitPixel(b, x, y, color, k));
    FlattenMember(ss, p);
    if p.y == y && p.color == color && 0 <= p.x - x < 8 && Bit(b, 7 - (p.x - x)) {
      assert p in ss[p.x - x];
    }
  }

  /** Byte `j` of a row draws exactly the ink of columns `8 * j .. 8 * j + 7`. */
  lemma RowBytePixelsMember(data: seq<Byte>, bpr: nat, row: nat, j: nat, x: int, y: int, color: int, p: Pixel)
    ensures p in RowBytePixels(data, bpr, row, j, x, y, color) <==>
      p.y == y + row && p.color == color && 8 * j <= p.x - x < 8 * j + 8 && Inked(data, bpr, row, p.x - x)
  {
    var col := p.x - x;
    var x0 := x + 8 * j;
    var i := row * bpr + j;
    if 8 * j <= col < 8 * j + 8 {
      assert col / 8 == j;
      assert 7 - col % 8 == 7 - (p.x - x0);
    }
    if i < |data| {
      BytePixelsMember(data[i], x0, y + row, color, p);
    }
  }

  lemma RowPixelsMember(data: seq<Byte>, bpr: nat, row: nat, x: int, y: int, color: int, p: Pixel)
    ensures p in RowPixels(data, bpr, row, x, y, color) <==>
      p.y == y + row && p.color == color && 0 <= p.x - x < 8 * bpr && Inked(data, bpr, row, p.x - x)
  {
    var ss := seq(bpr, j requires 0 <= j < bpr => RowBytePixels(data, bpr, row, j, x, y, color));
    FlattenMember(ss, p);
    var col := p.x - x;
    if p in RowPixels(data, bpr, row, x, y, color) {
      var j :| 0 <= j < bpr && p in ss[j];
      RowBytePixelsMember(data, bpr, row, j, x, y, color, p);
    }
    if p.y == y + row && p.color == color && 0 <= col < 8 * bpr && Inked(data, bpr, row, col) {
      var j := col / 8;
      RowBytePixelsMember(data, bpr, row, j, x, y, color, p);
      assert p in ss[j];
    }
  }

  /** Exactly the set bits of the bitmap are drawn, each in `color` at the
      bitmap position offset by (`x`, `y`), most significant bit leftmost;
      a partial last byte of a row still draws its low-order set bits past
      `width`. */
  lemma DrawBitmapTranPixels(data: seq<Byte>, width: int, height: int, x: int, y: int, color: int, p: Pixel)
    requires |data| >= Rows(height) * BytesPerRow(width)
    ensures p in DrawBitmapTran(data, width, height, x, y, color) <==>
      p.color == color && 0 <= p.y - y < Rows(height) && 0 <= p.x - x < 8 * BytesPerRow(width) &&
      Inked(data, BytesPerRow(width), p.y - y, p.x - x)
  {
    if p in DrawBitmapTran(data, width, height, x, y, color) {
      DrawnIsInked(data, width, height, x, y, color, p);
    }
    if p.color == color && 0 <= p.y - y < Rows(height) && 0 <= p.x - x < 8 * BytesPerRow(width) &&
      Inked(data, BytesPerRow(width), p.y - y, p.x - x)
    {
      InkedIsDrawn(data, width, height, x, y, color, p);
    }
  }

  lemma DrawnIsInked(data: seq<Byte>, width: int, height: int, x: int, y: int, color: int, p: Pixel)
    requires |data| >= Rows(height) * BytesPerRow(width)
    requires p in DrawBitmapTran(data, width, height, x, y, color)
    ensures p.color == color && 0 <= p.y - y < Rows(height) && 0 <= p.x - x < 8 * BytesPerRow(width)
    ensures Inked(data, BytesPerRow(width), p.y - y, p.x - x)
  {
    var bpr := BytesPerRow(width);
    var ss := BitmapRows(data, bpr, Rows(height), x, y, color);
    FlattenMember(ss, p);
    var row :| 0 <= row < Rows(height) && p in ss[row];
    RowPixelsMember(data, bpr, row, x, y, color, p);
  }

  lemma InkedIsDrawn(data: seq<Byte>, width: int, height: int, x: int, y: int, color: int, p: Pixel)
    requires |data| >= Rows(height) * BytesPerRow(width)
    requires p.color == color && 0 <= p.y - y < Rows(height) && 0 <= p.x - x < 8 * BytesPerRow(width)
    requires Inked(data, BytesPerRow(width), p.y - y, p.x - x)
    ensures p in DrawBitmapTran(data, width, height, x, y, color)
  {
    var bpr := BytesPerRow(width);
    var ss := BitmapRows(data, bpr, Rows(height), x, y, color);
    RowPixelsMember(data, bpr, p.y - y, x, y, color, p);
    assert p in ss[p.y - y];
    FlattenMember(ss, p);
  }

  /** A bitmap of clear bits is fully transparent: nothing is drawn. */
  lemma DrawBitmapTranBlank(data: seq<Byte>, width: int, height: int, x: int, y: int, color: int)
    requires |data| >= Rows(height) * BytesPerRow(width)
    requires forall i :: 0 <= i < |data| ==> data[i] == 0
    ensures DrawBitmapTran(data, width, height, x, y, color) == []
  {
    var r := DrawBitmapTran(data, width, height, x, y, color);
    if |r| > 0 {
      var p := r[0];
      DrawnIsInked(data, width, height, x, y, color, p);
      var i := (p.y - y) * BytesPerRow(width) + (p.x - x) / 8;
      assert data[i] == 0;
      BitOfZero(7 - (p.x - x) % 8);
      assert false;
    }
  }

  /** No bit of zero is set. */
  lemma {:induction false} BitOfZero(i: int)
    ensures i >= 0 ==> !Bit(0, i)
  {
    if i > 0 {
      BitOfZero(i - 1);
    }
  }
}
