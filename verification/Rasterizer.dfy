/**
  The software rasterizer: the same drawing calls on a plain RGBA buffer, on a
  strided linear framebuffer, and through scissors.
 */
module Rasterizer {
  import opened Common

  datatype Color = Color(r: byte, g: byte, b: byte, a: byte)

  datatype Rect = Rect(x: nat, y: nat, width: nat, height: nat)

  predicate Contains(rect: Rect, x: nat, y: nat) {
    rect.x <= x < rect.x + rect.width && rect.y <= y < rect.y + rect.height
  }

  /** The common part of two rectangles, if it is not empty. */
  function Intersect(a: Rect, b: Rect): Option<Rect> {
    var x, y := Max(a.x, b.x), Max(a.y, b.y);
    var right, bottom := Min(a.x + a.width, b.x + b.width), Min(a.y + a.height, b.y + b.height);
    if right <= x || bottom <= y then None else Some(Rect(x, y, right - x, bottom - y))
  }

  /** A point lies in the intersection exactly when it lies in both; no intersection means no common point. */
  lemma IntersectIsCommon(a: Rect, b: Rect, x: nat, y: nat)
    ensures Contains(a, x, y) && Contains(b, x, y) <==> Intersect(a, b).Some? && Contains(Intersect(a, b).value, x, y)
  {
  }

  /** How a pixel is laid down in four bytes. */
  datatype Layout = Rgba8888 | Rgb32 | Bgr32

  function Encode(layout: Layout, c: Color): seq<byte> {
    match layout
    case Rgba8888 => [c.r, c.g, c.b, c.a]
    case Rgb32 => [c.b, c.g, c.r, 0]
    case Bgr32 => [c.r, c.g, c.b, 0]
  }

  function Decode(layout: Layout, bytes: seq<byte>): Color
    requires |bytes| == 4
  {
    match layout
    case Rgba8888 => Color(bytes[0], bytes[1], bytes[2], bytes[3])
    case Rgb32 => Color(bytes[2], bytes[1], bytes[0], 255)
    case Bgr32 => Color(bytes[0], bytes[1], bytes[2], 255)
  }

  /** The four bytes as the word a little-endian machine reads. */
  function Word(bytes: seq<byte>): int
    requires |bytes| == 4
  {
    bytes[0] as int + 0x100 * (bytes[1] as int + 0x100 * (bytes[2] as int + 0x100 * (bytes[3] as int)))
  }

  /** The linear formats are the words 0x00RRGGBB and 0x00BBGGRR; the plain buffer holds R, G, B, A in turn. */
  lemma LayoutsAsWords(c: Color)
    ensures Word(Encode(Rgb32, c)) == c.r as int * 0x1_0000 + c.g as int * 0x100 + c.b as int
    ensures Word(Encode(Bgr32, c)) == c.b as int * 0x1_0000 + c.g as int * 0x100 + c.r as int
    ensures Encode(Rgba8888, c) == [c.r, c.g, c.b, c.a]
  {
  }

  /** A written colour is read back exactly when the layout keeps alpha or the colour is opaque. */
  lemma ReadsBackIffOpaque(layout: Layout, c: Color)
    ensures Decode(layout, Encode(layout, c)) == c <==> layout == Rgba8888 || c.a == 255
  {
  }

  /** A transparent colour comes back opaque from a layout without alpha. */
  lemma TransparencyIsLost()
    ensures Decode(Rgb32, Encode(Rgb32, Color(1, 2, 3, 0))) == Color(1, 2, 3, 255)
  {
  }

  /** A bitmap font; `bit` says whether a glyph has ink at a row and column. */
  datatype Font = Font(glyphWidth: nat, glyphHeight: nat, advanceX: nat, bit: (char, nat, nat) -> bool)

  // --------------------------------------------- what a drawing call paints

  datatype Op =
    | Clear(color: Color)
    | Fill(rect: Rect, color: Color)
    | Border(rect: Rect, thickness: nat, color: Color)
    | Text(x: nat, y: nat, text: string, font: Font, color: Color)

  /** The point is on the frame of that thickness just inside the rectangle. */
  predicate OnBorder(rect: Rect, thickness: nat, x: nat, y: nat) {
    var t := Min(thickness, Min(rect.width, rect.height));
    && Contains(rect, x, y)
    && (y < rect.y + t || y >= rect.y + rect.height - t || x < rect.x + t || x >= rect.x + rect.width - t)
  }

  /** The point has ink of the glyph drawn with its corner at (left, top). */
  predicate OnGlyph(font: Font, ch: char, left: nat, top: nat, x: nat, y: nat) {
    && left <= x < left + font.glyphWidth && top <= y < top + font.glyphHeight
    && font.bit(ch, y - top, x - left)
  }

  /** The point has ink of some glyph of the text. */
  predicate OnText(font: Font, text: string, left: nat, top: nat, x: nat, y: nat) {
    text != "" && (OnGlyph(font, text[0], left, top, x, y) || OnText(font, text[1..], left + font.advanceX, top, x, y))
  }

  predicate Paints(op: Op, x: nat, y: nat) {
    match op
    case Clear(_) => true
    case Fill(rect, _) => Contains(rect, x, y)
    case Border(rect, thickness, _) => OnBorder(rect, thickness, x, y)
    case Text(left, top, text, font, _) => OnText(font, text, left, top, x, y)
  }

  /** The colour the last call to paint the point gave it. */
  function LastColor(ops: seq<Op>, x: nat, y: nat): Option<Color> {
    if ops == [] then None
    else if Paints(ops[|ops| - 1], x, y) then Some(ops[|ops| - 1].color)
    else LastColor(ops[..|ops| - 1], x, y)
  }

  /** A border is the rectangle without the one inside it, which a thick border leaves empty. */
  lemma BorderIsFrame(rect: Rect, thickness: nat, x: nat, y: nat)
    ensures var t := Min(thickness, Min(rect.width, rect.height));
            OnBorder(rect, thickness, x, y) <==>
            && Contains(rect, x, y)
            && !(2 * t < rect.width && 2 * t < rect.height &&
                 Contains(Rect(rect.x + t, rect.y + t, rect.width - 2 * t, rect.height - 2 * t), x, y))
  {
  }

  /** The point has ink of the glyph of character `i`, `i` advances further right. */
  predicate OnGlyphOf(font: Font, text: string, i: nat, left: nat, top: nat, x: nat, y: nat) {
    i < |text| && OnGlyph(font, text[i], left + i * font.advanceX, top, x, y)
  }

  /** A text has ink at a point exactly when the glyph of one of its characters has. */
  lemma {:induction false} TextIsGlyphs(font: Font, text: string, left: nat, top: nat, x: nat, y: nat)
    ensures OnText(font, text, left, top, x, y) <==> exists i :: OnGlyphOf(font, text, i, left, top, x, y)
    decreases |text|
  {
    if text != "" {
      var n := |text| - 1;
      TextGrows(font, text, n, left, top, x, y);
      assert text[..n + 1] == text;
      TextIsGlyphs(font, text[..n], left, top, x, y);
      forall i: nat | i < n
        ensures OnGlyphOf(font, text, i, left, top, x, y) <==> OnGlyphOf(font, text[..n], i, left, top, x, y)
      {
        assert text[i] == text[..n][i];
      }
      assert OnGlyphOf(font, text, n, left, top, x, y) <==>
        OnGlyph(font, text[n], left + n * font.advanceX, top, x, y);
    }
  }

  /** The colour is that of the last call to paint the point, whichever call that is. */
  lemma {:induction false} LastColorIsLast(ops: seq<Op>, x: nat, y: nat)
    ensures LastColor(ops, x, y).None? ==> forall i :: 0 <= i < |ops| ==> !Paints(ops[i], x, y)
    ensures LastColor(ops, x, y).Some? ==>
              exists i :: 0 <= i < |ops| && Paints(ops[i], x, y) && ops[i].color == LastColor(ops, x, y).value
                          && forall j :: i < j < |ops| ==> !Paints(ops[j], x, y)
    decreases |ops|
  {
    if ops != [] {
      var front, n := ops[..|ops| - 1], |ops| - 1;
      LastColorIsLast(front, x, y);
      assert forall i :: 0 <= i < n ==> front[i] == ops[i];
      if Paints(ops[n], x, y) {
        assert ops[n].color == LastColor(ops, x, y).value;
      }
    }
  }

  /** Nothing of a text is left of where it starts. */
  lemma {:induction false} TextStartsAt(font: Font, text: string, left: nat, top: nat, x: nat, y: nat)
    requires x < left
    ensures !OnText(font, text, left, top, x, y)
    decreases |text|
  {
    if text != "" {
      TextStartsAt(font, text[1..], left + font.advanceX, top, x, y);
    }
  }

  /** A text is its beginning and, further along, its end. */
  lemma {:induction false} TextSplits(font: Font, a: string, b: string, left: nat, top: nat, x: nat, y: nat)
    ensures OnText(font, a + b, left, top, x, y) <==>
            OnText(font, a, left, top, x, y) || OnText(font, b, left + |a| * font.advanceX, top, x, y)
    decreases |a|
  {
    if a == "" {
      assert a + b == b;
    } else {
      TextSplits(font, a[1..], b, left + font.advanceX, top, x, y);
      assert (a + b)[1..] == a[1..] + b;
      assert left + font.advanceX + (|a| - 1) * font.advanceX == left + |a| * font.advanceX;
    }
  }

  lemma TextGrows(font: Font, text: string, i: nat, left: nat, top: nat, x: nat, y: nat)
    requires i < |text|
    ensures OnText(font, text[..i + 1], left, top, x, y) <==>
            OnText(font, text[..i], left, top, x, y) || OnGlyph(font, text[i], left + i * font.advanceX, top, x, y)
  {
    assert text[..i + 1] == text[..i] + [text[i]];
    TextSplits(font, text[..i], [text[i]], left, top, x, y);
    assert [text[i]][1..] == "";
  }

  /** Once the pen is past a column, the rest of the text leaves that column alone. */
  lemma RestIsBeyond(font: Font, text: string, i: nat, left: nat, top: nat, x: nat, y: nat)
    requires i <= |text| && x < left + i * font.advanceX
    ensures OnText(font, text, left, top, x, y) <==> OnText(font, text[..i], left, top, x, y)
  {
    assert text == text[..i] + text[i..];
    TextSplits(font, text[..i], text[i..], left, top, x, y);
    TextStartsAt(font, text[i..], left + i * font.advanceX, top, x, y);
  }

  // ------------------------------------------------------------ pixel bytes

  /** Different places have different numbers, and all numbers fit. */
  lemma PlacesApart(stride: nat, height: nat, x: nat, y: nat, x': nat, y': nat)
    requires x < stride && x' < stride && y < height && y' < height
    ensures y * stride + x < height * stride
    ensures (x, y) != (x', y') ==> y * stride + x != y' * stride + x'
  {
    RowsApart(stride, y, height);
    if y < y' {
      RowsApart(stride, y, y');
    } else if y' < y {
      RowsApart(stride, y', y);
    }
  }

  function Place(stride: nat, x: nat, y: nat): nat {
    y * stride + x
  }

  /** No two pixels share their bytes. */
  ghost predicate PixelsDistinct(width: nat, height: nat, stride: nat) {
    forall x, y, x', y' ::
      0 <= x < width && 0 <= x' < width && 0 <= y < height && 0 <= y' < height
          && Place(stride, x, y) == Place(stride, x', y')
      ==> x == x' && y == y'
  }

  /** A stride shorter than the width makes rows overlap, and only that does. */
  lemma DistinctIffStrideCovers(width: nat, height: nat, stride: nat)
    requires width > 0
    ensures PixelsDistinct(width, height, stride) <==> width <= stride || height <= 1
  {
    if width <= stride {
      forall x, y, x', y' | 0 <= x < width && 0 <= x' < width && 0 <= y < height && 0 <= y' < height
                            && Place(stride, x, y) == Place(stride, x', y')
        ensures x == x' && y == y'
      {
        PlacesApart(stride, height, x, y, x', y');
      }
    } else if height > 1 {
      assert Place(stride, stride, 0) == Place(stride, 0, 1);
    } else {
      assert forall x, y :: 0 <= x < width && 0 <= y < height ==> Place(stride, x, y) == x;
    }
  }

  /** The four bytes of a place of a row, pixel or padding. */
  function SlotOf(bytes: seq<byte>, stride: nat, height: nat, x: nat, y: nat): (slot: seq<byte>)
    requires height * stride * 4 <= |bytes| && x < stride && y < height
    ensures |slot| == 4
  {
    PlacesApart(stride, height, x, y, x, y);
    var o := (y * stride + x) * 4;
    bytes[o..o + 4]
  }

  lemma StoreFour(bytes: seq<byte>, bytes': seq<byte>, o: nat, slot: seq<byte>, o': nat)
    requires o + 4 <= |bytes| && o' + 4 <= |bytes| && |slot| == 4 && bytes' == bytes[..o] + slot + bytes[o + 4..]
    requires o' == o || o' + 4 <= o || o + 4 <= o'
    ensures |bytes'| == |bytes|
    ensures bytes'[o'..o' + 4] == if o' == o then slot else bytes[o'..o' + 4]
  {
  }

  lemma SlotAt(bytes: seq<byte>, stride: nat, height: nat, x: nat, y: nat, n: nat)
    requires height * stride * 4 <= |bytes| && x < stride && y < height && n == y * stride + x
    ensures n * 4 + 4 <= |bytes| && SlotOf(bytes, stride, height, x, y) == bytes[n * 4..n * 4 + 4]
  {
    PlacesApart(stride, height, x, y, x, y);
  }

  /** Storing four bytes at a place changes that place and no other. */
  lemma StoreSlot(bytes: seq<byte>, bytes': seq<byte>, stride: nat, height: nat, x: nat, y: nat, slot: seq<byte>,
      x': nat, y': nat)
    requires height * stride * 4 <= |bytes| && x < stride && y < height && x' < stride && y' < height && |slot| == 4
    requires PlaceFits(stride, x, y, |bytes|)
    requires var o := (y * stride + x) * 4; bytes' == bytes[..o] + slot + bytes[o + 4..]
    ensures SlotOf(bytes', stride, height, x', y') == if (x', y') == (x, y) then slot
          else SlotOf(bytes, stride, height, x', y')
  {
    var n, n' := y * stride + x, y' * stride + x';
    PlacesApart(stride, height, x, y, x', y');
    SlotAt(bytes, stride, height, x', y', n');
    StoreFour(bytes, bytes', n * 4, slot, n' * 4);
    SlotAt(bytes', stride, height, x', y', n');
  }

  ghost predicate PlaceFits(stride: nat, x: nat, y: nat, length: nat) {
    (y * stride + x) * 4 + 4 <= length
  }

  /** Size, row length and pixel layout of a target. */
  datatype Geometry = Geometry(width: nat, height: nat, stride: nat, layout: Layout)

  predicate OpenIn(g: Geometry, scissors: seq<Rect>, x: nat, y: nat) {
    x < g.width && y < g.height && forall i :: 0 <= i < |scissors| ==> Contains(scissors[i], x, y)
  }

  /** The bytes of a place after a colour may have been painted there. */
  function PaintedSlot(g: Geometry, was: seq<byte>, color: Option<Color>): seq<byte> {
    if color.Some? then Encode(g.layout, color.value) else was
  }

  ghost predicate PlaceTakes(was: seq<byte>, now: seq<byte>, g: Geometry, x: nat, y: nat, color: Option<Color>)
    requires Fits(g, was) && Fits(g, now) && x < g.stride && y < g.height
  {
    SlotOf(now, g.stride, g.height, x, y) == PaintedSlot(g, SlotOf(was, g.stride, g.height, x, y), color)
  }

  ghost predicate Fits(g: Geometry, bytes: seq<byte>) {
    g.width <= g.stride && g.height * g.stride * 4 <= |bytes|
  }

  /**
    Inside the scissors every pixel has the colour of the last call that paints
    it; every other place, row padding included, and the bytes behind the last row
    are as before.
   */
  ghost predicate Repainted(was: seq<byte>, now: seq<byte>, g: Geometry, scissors: seq<Rect>, ops: seq<Op>)
    requires Fits(g, was) && Fits(g, now)
  {
    && now[g.height * g.stride * 4..] == was[g.height * g.stride * 4..]
    && forall x, y :: 0 <= x < g.stride && 0 <= y < g.height ==>
         PlaceTakes(was, now, g, x, y, if OpenIn(g, scissors, x, y) then LastColor(ops, x, y) else None)
  }

  class Target {
    const width: nat
    const height: nat
    const stride: nat
    const layout: Layout
    const scissors: seq<Rect>
    const buffer: array<byte>

    ghost predicate Valid() {
      width <= stride && height * stride * 4 <= buffer.Length
    }

    function Form(): Geometry {
      Geometry(width, height, stride, layout)
    }

    predicate Open(x: nat, y: nat) {
      OpenIn(Form(), scissors, x, y)
    }

    ghost function Slot(x: nat, y: nat): (bytes: seq<byte>)
      requires Valid() && x < stride && y < height
      reads buffer
      ensures |bytes| == 4
    {
      SlotOf(buffer[..], stride, height, x, y)
    }

    /** The colour a reader of the unclipped target sees. */
    ghost function Shown(x: nat, y: nat): Color
      requires Valid() && x < width && y < height
      reads buffer
    {
      Decode(layout, Slot(x, y))
    }

    constructor (width: nat, height: nat, stride: nat, layout: Layout, buffer: array<byte>)
      requires width <= stride && height * stride * 4 <= buffer.Length
      ensures Valid() && this.width == width && this.height == height && this.stride == stride
      ensures this.layout == layout && this.buffer == buffer && scissors == []
    {
      this.width, this.height, this.stride, this.layout, this.buffer := width, height, stride, layout, buffer;
      scissors := [];
    }

    /** The same buffer, seen through one more scissor. */
    constructor Scissored(target: Target, scissor: Rect)
      requires target.Valid()
      ensures Valid() && width == target.width && height == target.height && stride == target.stride
      ensures layout == target.layout && buffer == target.buffer && scissors == target.scissors + [scissor]
    {
      width, height, stride, layout := target.width, target.height, target.stride, target.layout;
      buffer, scissors := target.buffer, target.scissors + [scissor];
    }

    method WritePixel(x: nat, y: nat, c: Color)
      requires Valid()
      modifies buffer
      ensures forall x', y' :: 0 <= x' < stride && 0 <= y' < height ==>
                Slot(x', y') == if (x', y') == (x, y) && Open(x, y) then Encode(layout, c) else old(Slot(x', y'))
      ensures buffer[height * stride * 4..] == old(buffer[height * stride * 4..])
    {
      if Open(x, y) {
        PlacesApart(stride, height, x, y, x, y);
        var o, bytes := (y * stride + x) * 4, Encode(layout, c);
        buffer[o], buffer[o + 1], buffer[o + 2], buffer[o + 3] := bytes[0], bytes[1], bytes[2], bytes[3];
        ghost var was := old(buffer[..]);
        assert buffer[..] == was[..o] + bytes + was[o + 4..];
        forall x', y' | 0 <= x' < stride && 0 <= y' < height
          ensures Slot(x', y') == if (x', y') == (x, y) then bytes else SlotOf(was, stride, height, x', y')
        {
          StoreSlot(was, buffer[..], stride, height, x, y, bytes, x', y');
        }
      }
    }

    method Pixel(x: nat, y: nat) returns (c: Option<Color>)
      requires Valid()
      ensures c == if Open(x, y) then Some(Decode(layout, Slot(x, y))) else None
    {
      if !Open(x, y) {
        return None;
      }
      PlacesApart(stride, height, x, y, x, y);
      var o := (y * stride + x) * 4;
      return Some(Decode(layout, [buffer[o], buffer[o + 1], buffer[o + 2], buffer[o + 3]]));
    }

    /** Paints the places of a rectangular area, row by row. */
    method PaintArea(left: nat, right: nat, top: nat, bottom: nat, c: Color)
      requires Valid() && right <= width && bottom <= height
      modifies buffer
      ensures forall x, y :: 0 <= x < stride && 0 <= y < height ==>
                Slot(x, y) == if Open(x, y) && left <= x < right && top <= y < bottom then Encode(layout, c)
                      else old(Slot(x, y))
      ensures buffer[height * stride * 4..] == old(buffer[height * stride * 4..])
    {
      var row := top;
      while row < bottom
        invariant forall x, y :: 0 <= x < stride && 0 <= y < height ==>
                    Slot(x, y) == if Open(x, y) && left <= x < right && top <= y < Min(row, bottom)
                          then Encode(layout, c) else old(Slot(x, y))
        invariant buffer[height * stride * 4..] == old(buffer[height * stride * 4..])
      {
        PaintRow(left, right, row, c);
        row := row + 1;
      }
    }

    method PaintRow(left: nat, right: nat, row: nat, c: Color)
      requires Valid() && right <= width && row < height
      modifies buffer
      ensures forall x, y :: 0 <= x < stride && 0 <= y < height ==>
                Slot(x, y) == if Open(x, y) && left <= x < right && y == row then Encode(layout, c) else old(Slot(x, y))
      ensures buffer[height * stride * 4..] == old(buffer[height * stride * 4..])
    {
      var col := left;
      while col < right
        invariant forall x, y :: 0 <= x < stride && 0 <= y < height ==>
                    Slot(x, y) == if Open(x, y) && left <= x < Min(col, right) && y == row
                          then Encode(layout, c) else old(Slot(x, y))
        invariant buffer[height * stride * 4..] == old(buffer[height * stride * 4..])
      {
        WritePixel(col, row, c);
        col := col + 1;
      }
    }

    method ClearAll(c: Color)
      requires Valid()
      modifies buffer
      ensures forall x, y :: 0 <= x < stride && 0 <= y < height ==>
                Slot(x, y) == if Open(x, y) then Encode(layout, c) else old(Slot(x, y))
      ensures buffer[height * stride * 4..] == old(buffer[height * stride * 4..])
    {
      PaintArea(0, width, 0, height, c);
    }

    method FillRect(rect: Rect, c: Color)
      requires Valid()
      modifies buffer
      ensures forall x, y :: 0 <= x < stride && 0 <= y < height ==>
                Slot(x, y) == if Open(x, y) && Contains(rect, x, y) then Encode(layout, c) else old(Slot(x, y))
      ensures buffer[height * stride * 4..] == old(buffer[height * stride * 4..])
    {
      if rect.width == 0 || rect.height == 0 {
        return;
      }
      var right, bottom := Min(rect.x + rect.width, width), Min(rect.y + rect.height, height);
      PaintArea(Min(rect.x, width), right, Min(rect.y, height), bottom, c);
    }

    /** Four overlapping strips that together are the frame. */
    method DrawBorder(rect: Rect, thickness: nat, c: Color)
      requires Valid()
      modifies buffer
      ensures forall x, y :: 0 <= x < stride && 0 <= y < height ==>
                Slot(x, y) == if Open(x, y) && OnBorder(rect, thickness, x, y) then Encode(layout, c) else old(Slot(x, y))
      ensures buffer[height * stride * 4..] == old(buffer[height * stride * 4..])
    {
      if thickness == 0 || rect.width == 0 || rect.height == 0 {
        return;
      }
      var t := Min(thickness, Min(rect.width, rect.height));
      FillRect(Rect(rect.x, rect.y, rect.width, t), c);
      FillRect(Rect(rect.x, rect.y + rect.height - t, rect.width, t), c);
      FillRect(Rect(rect.x, rect.y, t, rect.height), c);
      FillRect(Rect(rect.x + rect.width - t, rect.y, t, rect.height), c);
    }

    method DrawGlyphRow(left: nat, top: nat, row: nat, font: Font, ch: char, c: Color)
      requires Valid() && row < font.glyphHeight
      modifies buffer
      ensures forall x, y :: 0 <= x < stride && 0 <= y < height ==>
                Slot(x, y) == if Open(x, y) && y == top + row && OnGlyph(font, ch, left, top, x, y)
                      then Encode(layout, c) else old(Slot(x, y))
      ensures buffer[height * stride * 4..] == old(buffer[height * stride * 4..])
    {
      for column := 0 to font.glyphWidth
        invariant forall x, y :: 0 <= x < stride && 0 <= y < height ==>
                    Slot(x, y) == if Open(x, y) && y == top + row && x < left + column
                          && OnGlyph(font, ch, left, top, x, y)
                                  then Encode(layout, c) else old(Slot(x, y))
        invariant buffer[height * stride * 4..] == old(buffer[height * stride * 4..])
      {
        if font.bit(ch, row, column) {
          WritePixel(left + column, top + row, c);
        }
      }
    }

    method DrawGlyph(left: nat, top: nat, font: Font, ch: char, c: Color)
      requires Valid()
      modifies buffer
      ensures forall x, y :: 0 <= x < stride && 0 <= y < height ==>
                Slot(x, y) == if Open(x, y) && OnGlyph(font, ch, left, top, x, y) then Encode(layout, c)
                      else old(Slot(x, y))
      ensures buffer[height * stride * 4..] == old(buffer[height * stride * 4..])
    {
      for row := 0 to font.glyphHeight
        invariant forall x, y :: 0 <= x < stride && 0 <= y < height ==>
                    Slot(x, y) == if Open(x, y) && y < top + row && OnGlyph(font, ch, left, top, x, y)
                                  then Encode(layout, c) else old(Slot(x, y))
        invariant buffer[height * stride * 4..] == old(buffer[height * stride * 4..])
      {
        if top + row >= height {
          break;
        }
        DrawGlyphRow(left, top, row, font, ch, c);
      }
    }

    /** Glyph after glyph, stopping once the pen is past the right edge, where nothing more can show. */
    method DrawText(left: nat, top: nat, text: string, font: Font, c: Color)
      requires Valid()
      modifies buffer
      ensures forall x, y :: 0 <= x < stride && 0 <= y < height ==>
                Slot(x, y) == if Open(x, y) && OnText(font, text, left, top, x, y) then Encode(layout, c)
                      else old(Slot(x, y))
      ensures buffer[height * stride * 4..] == old(buffer[height * stride * 4..])
    {
      var pen := left;
      var i := 0;
      while i < |text|
        invariant 0 <= i <= |text| && pen == left + i * font.advanceX
        invariant forall x, y :: 0 <= x < stride && 0 <= y < height ==>
                    Slot(x, y) == if Open(x, y) && OnText(font, text[..i], left, top, x, y)
                          then Encode(layout, c) else old(Slot(x, y))
        invariant buffer[height * stride * 4..] == old(buffer[height * stride * 4..])
      {
        forall x: nat, y: nat
          ensures OnText(font, text[..i + 1], left, top, x, y) <==>
                  OnText(font, text[..i], left, top, x, y) || OnGlyph(font, text[i], pen, top, x, y)
        {
          TextGrows(font, text, i, left, top, x, y);
        }
        DrawGlyph(pen, top, font, text[i], c);
        pen := pen + font.advanceX;
        i := i + 1;
        if pen >= width {
          break;
        }
      }
      forall x: nat, y: nat | x < width
        ensures OnText(font, text, left, top, x, y) <==> OnText(font, text[..i], left, top, x, y)
      {
        if i < |text| {
          RestIsBeyond(font, text, i, left, top, x, y);
        } else {
          assert text[..i] == text;
        }
      }
    }

    method Draw(op: Op)
      requires Valid()
      modifies buffer
      ensures forall x, y :: 0 <= x < stride && 0 <= y < height ==>
                Slot(x, y) == if Open(x, y) && Paints(op, x, y) then Encode(layout, op.color) else old(Slot(x, y))
      ensures buffer[height * stride * 4..] == old(buffer[height * stride * 4..])
    {
      match op {
        case Clear(color) => ClearAll(color);
        case Fill(rect, color) => FillRect(rect, color);
        case Border(rect, thickness, color) => DrawBorder(rect, thickness, color);
        case Text(x, y, text, font, color) => DrawText(x, y, text, font, color);
      }
    }

    method DrawAll(ops: seq<Op>)
      requires Valid()
      modifies buffer
      ensures Repainted(old(buffer[..]), buffer[..], Form(), scissors, ops)
    {
      for i := 0 to |ops|
        invariant forall x, y :: 0 <= x < stride && 0 <= y < height ==>
                    Slot(x, y) == if Open(x, y) && LastColor(ops[..i], x, y).Some?
                                  then Encode(layout, LastColor(ops[..i], x, y).value) else old(Slot(x, y))
        invariant buffer[height * stride * 4..] == old(buffer[height * stride * 4..])
      {
        assert ops[..i + 1][..i] == ops[..i];
        Draw(ops[i]);
      }
      assert ops[..|ops|] == ops;
      assert forall x, y :: 0 <= x < stride && 0 <= y < height ==> Slot(x, y) == SlotOf(buffer[..], stride, height, x, y);
    }
  }

  // -------------------------------------------------------- both targets

  predicate Opaque(ops: seq<Op>) {
    forall i :: 0 <= i < |ops| ==> ops[i].color.a == 255
  }

  lemma {:induction false} LastColorIsOpaque(ops: seq<Op>, x: nat, y: nat)
    requires Opaque(ops)
    ensures LastColor(ops, x, y).Some? ==> LastColor(ops, x, y).value.a == 255
    decreases |ops|
  {
    if ops != [] {
      LastColorIsOpaque(ops[..|ops| - 1], x, y);
    }
  }

  predicate BeginsWithClear(ops: seq<Op>) {
    ops != [] && ops[0].Clear?
  }

  lemma {:induction false} ClearedHasColor(ops: seq<Op>, x: nat, y: nat)
    requires BeginsWithClear(ops)
    ensures LastColor(ops, x, y).Some?
    decreases |ops|
  {
    if |ops| > 1 {
      ClearedHasColor(ops[..|ops| - 1], x, y);
    }
  }

  /** What shows at a point after calls on the whole target and then calls through a scissor. */
  function Composite(ops: seq<Op>, clip: Rect, clipped: seq<Op>, x: nat, y: nat): Option<Color> {
    if Contains(clip, x, y) && LastColor(clipped, x, y).Some? then LastColor(clipped, x, y) else LastColor(ops, x, y)
  }

  ghost predicate Composed(was: seq<byte>, now: seq<byte>, g: Geometry, ops: seq<Op>, clip: Rect, clipped: seq<Op>)
    requires Fits(g, was) && Fits(g, now)
  {
    forall x, y :: 0 <= x < g.stride && 0 <= y < g.height ==>
      PlaceTakes(was, now, g, x, y, if x < g.width then Composite(ops, clip, clipped, x, y) else None)
  }

  lemma ClippingComposes(was: seq<byte>, mid: seq<byte>, now: seq<byte>, g: Geometry, ops: seq<Op>, clip: Rect,
      clipped: seq<Op>)
    requires Fits(g, was) && Fits(g, mid) && Fits(g, now)
    requires Repainted(was, mid, g, [], ops) && Repainted(mid, now, g, [clip], clipped)
    ensures Composed(was, now, g, ops, clip, clipped)
  {
    forall x, y | 0 <= x < g.stride && 0 <= y < g.height
      ensures PlaceTakes(was, now, g, x, y, if x < g.width then Composite(ops, clip, clipped, x, y) else None)
    {
      assert PlaceTakes(was, mid, g, x, y, if OpenIn(g, [], x, y) then LastColor(ops, x, y) else None);
      assert PlaceTakes(mid, now, g, x, y, if OpenIn(g, [clip], x, y) then LastColor(clipped, x, y) else None);
      assert OpenIn(g, [], x, y) <==> x < g.width;
      assert OpenIn(g, [clip], x, y) <==> x < g.width && Contains(clip, x, y) by {
        assert [clip][0] == clip;
      }
    }
  }

  /** Draws on a target and then, through a scissor, on the same target. */
  method DrawClipped(target: Target, ops: seq<Op>, clip: Rect, clipped: seq<Op>)
    requires target.Valid() && target.scissors == []
    modifies target.buffer
    ensures Composed(old(target.buffer[..]), target.buffer[..], target.Form(), ops, clip, clipped)
  {
    ghost var was := target.buffer[..];
    target.DrawAll(ops);
    ghost var mid := target.buffer[..];
    var through := new Target.Scissored(target, clip);
    assert through.scissors == [clip];
    through.DrawAll(clipped);
    ClippingComposes(was, mid, target.buffer[..], target.Form(), ops, clip, clipped);
  }

  lemma CompositeIsOpaque(ops: seq<Op>, clip: Rect, clipped: seq<Op>, x: nat, y: nat)
    requires BeginsWithClear(ops)
    ensures Composite(ops, clip, clipped, x, y).Some?
    ensures Opaque(ops) && Opaque(clipped) ==> Composite(ops, clip, clipped, x, y).value.a == 255
  {
    ClearedHasColor(ops, x, y);
    if Opaque(ops) && Opaque(clipped) {
      LastColorIsOpaque(ops, x, y);
      LastColorIsOpaque(clipped, x, y);
    }
  }

  /** After a clear every pixel shows its composite colour as far as the layout keeps it, and padding is as before. */
  lemma CompositeShows(was: seq<byte>, now: seq<byte>, g: Geometry, ops: seq<Op>, clip: Rect, clipped: seq<Op>,
      x: nat, y: nat)
    requires Fits(g, was) && Fits(g, now) && Composed(was, now, g, ops, clip, clipped)
    requires BeginsWithClear(ops) && x < g.stride && y < g.height
    ensures x < g.width ==>
              var c := Composite(ops, clip, clipped, x, y);
              && c.Some?
              && Decode(g.layout, SlotOf(now, g.stride, g.height, x, y)) ==
                 (if g.layout == Rgba8888 then c.value else c.value.(a := 255))
    ensures x >= g.width ==> SlotOf(now, g.stride, g.height, x, y) == SlotOf(was, g.stride, g.height, x, y)
  {
    CompositeIsOpaque(ops, clip, clipped, x, y);
    assert PlaceTakes(was, now, g, x, y, if x < g.width then Composite(ops, clip, clipped, x, y) else None);
  }

  /** A pixel as the RGBA buffer and a linear framebuffer show it: alike exactly when its colour is opaque. */
  ghost predicate Agree(plain: Color, linear: Color, ops: seq<Op>, clip: Rect, clipped: seq<Op>, x: nat, y: nat) {
    var c := Composite(ops, clip, clipped, x, y);
    && c.Some? && plain == c.value
    && (linear == plain <==> c.value.a == 255)
    && (Opaque(ops) && Opaque(clipped) ==> linear == plain)
  }

  lemma PixelsAgree(was: seq<byte>, now: seq<byte>, g: Geometry, was': seq<byte>, now': seq<byte>, g': Geometry,
      ops: seq<Op>, clip: Rect, clipped: seq<Op>, x: nat, y: nat)
    requires Fits(g, was) && Fits(g, now) && Composed(was, now, g, ops, clip, clipped)
    requires Fits(g', was') && Fits(g', now') && Composed(was', now', g', ops, clip, clipped)
    requires g.layout == Rgba8888 && g'.layout != Rgba8888 && g.width == g'.width && g.height == g'.height
    requires g.width <= g.stride && g'.width <= g'.stride && BeginsWithClear(ops) && x < g.width && y < g.height
    ensures Agree(Decode(g.layout, SlotOf(now, g.stride, g.height, x, y)),
                  Decode(g'.layout, SlotOf(now', g'.stride, g'.height, x, y)), ops, clip, clipped, x, y)
  {
    CompositeIsOpaque(ops, clip, clipped, x, y);
    CompositeShows(was, now, g, ops, clip, clipped, x, y);
    CompositeShows(was', now', g', ops, clip, clipped, x, y);
  }

  /** An RGBA buffer of its own and a linear framebuffer over the given memory. */
  method OpenBoth(width: nat, height: nat, stride: nat, format: Layout, memory: array<byte>)
    returns (plain: Target, linear: Target)
    requires width <= stride && height * stride * 4 <= memory.Length
    ensures plain.Valid() && plain.Form() == Geometry(width, height, width, Rgba8888) && plain.scissors == []
    ensures linear.Valid() && linear.Form() == Geometry(width, height, stride, format) && linear.scissors == []
    ensures fresh(plain.buffer) && linear.buffer == memory
  {
    var pixels := new byte[height * width * 4];
    plain := new Target(width, height, width, Rgba8888, pixels);
    linear := new Target(width, height, stride, format, memory);
  }

  /**
    Calls that begin with a clear, scissored ones included, show a pixel alike on the
    RGBA buffer and on a linear framebuffer of either format exactly when the last
    colour painted there is opaque; so opaque calls show the same picture on both.
    The framebuffer's row padding is untouched.
   */
  method DrawOnBoth(width: nat, height: nat, stride: nat, format: Layout, memory: array<byte>,
                    ops: seq<Op>, clip: Rect, clipped: seq<Op>)
    returns (plain: Target, linear: Target)
    requires width <= stride && height * stride * 4 <= memory.Length && format != Rgba8888
    requires BeginsWithClear(ops)
    modifies memory
    ensures plain.Valid() && plain.Form() == Geometry(width, height, width, Rgba8888)
    ensures linear.Valid() && linear.Form() == Geometry(width, height, stride, format) && linear.buffer == memory
    ensures forall x, y :: 0 <= x < width && 0 <= y < height ==>
              Agree(plain.Shown(x, y), linear.Shown(x, y), ops, clip, clipped, x, y)
    ensures forall x, y :: width <= x < stride && 0 <= y < height ==>
              linear.Slot(x, y) == SlotOf(old(memory[..]), stride, height, x, y)
  {
    ghost var was := memory[..];
    plain, linear := OpenBoth(width, height, stride, format, memory);
    ghost var blank := plain.buffer[..];
    DrawClipped(plain, ops, clip, clipped);
    DrawClipped(linear, ops, clip, clipped);
    ghost var p, l := plain.buffer[..], linear.buffer[..];
    forall x, y | 0 <= x < width && 0 <= y < height
      ensures Agree(plain.Shown(x, y), linear.Shown(x, y), ops, clip, clipped, x, y)
    {
      PixelsAgree(blank, p, plain.Form(), was, l, linear.Form(), ops, clip, clipped, x, y);
    }
    forall x, y | width <= x < stride && 0 <= y < height
      ensures linear.Slot(x, y) == SlotOf(was, stride, height, x, y)
    {
      CompositeShows(was, l, linear.Form(), ops, clip, clipped, x, y);
    }
  }
}
