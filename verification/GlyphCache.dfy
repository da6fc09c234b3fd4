/** The two-slot glyph cache of the boot framebuffer. */
module GlyphCache {
  import opened Common

  const FONT_WIDTH: nat := 8
  const FONT_HEIGHT: nat := 16
  const GLYPHS: nat := 128
  const UNKNOWN: byte := 0x3F

  /** Four bytes of one pixel. */
  type Pixel = p: seq<byte> | |p| == 4 witness [0, 0, 0, 0]

  /** One byte per row, the leftmost pixel in the highest bit. */
  type Bitmap = b: seq<byte> | |b| == FONT_HEIGHT witness seq(FONT_HEIGHT, _ => 0)

  const BLANK: Bitmap := seq(FONT_HEIGHT, _ => 0)

  type Font = f: seq<Bitmap> | |f| == GLYPHS witness seq(GLYPHS, _ => BLANK)

  function BitmapOf(font: Font, ch: byte): Bitmap {
    if ch as int < GLYPHS then font[ch] else font[UNKNOWN]
  }

  function Weight(bit: nat): int
    requires bit < FONT_WIDTH
  {
    if bit == 0 then 128
    else if bit == 1 then 64
    else if bit == 2 then 32
    else if bit == 3 then 16
    else if bit == 4 then 8
    else if bit == 5 then 4
    else if bit == 6 then 2
    else 1
  }

  predicate Ink(row: byte, bit: nat)
    requires bit < FONT_WIDTH
  {
    row as int / Weight(bit) % 2 == 1
  }

  /** The first `n` pixels of a scanline, four bytes each. */
  function Scanline(row: byte, fg: Pixel, bg: Pixel, n: nat): (bytes: seq<byte>)
    requires n <= FONT_WIDTH
    ensures |bytes| == 4 * n
  {
    if n == 0 then [] else Scanline(row, fg, bg, n - 1) + if Ink(row, n - 1) then fg else bg
  }

  type Raster = r: seq<seq<byte>> | |r| == FONT_HEIGHT witness seq(FONT_HEIGHT, _ => [])

  /** The glyph drawn directly, without any cache. */
  function Rasterize(font: Font, ch: byte, fg: Pixel, bg: Pixel): Raster {
    seq(FONT_HEIGHT, i requires 0 <= i < FONT_HEIGHT => Scanline(BitmapOf(font, ch)[i], fg, bg, FONT_WIDTH))
  }

  /** A scanline read back as a number, the leftmost pixel first: a pixel of the foreground is a one. */
  function ReadBack(bytes: seq<byte>, fg: Pixel, n: nat): int
    requires 4 * n <= |bytes|
  {
    if n == 0 then 0 else 2 * ReadBack(bytes, fg, n - 1) + if bytes[4 * (n - 1)..4 * n] == fg then 1 else 0
  }

  lemma {:induction false} ReadBackPrefix(bytes: seq<byte>, more: seq<byte>, fg: Pixel, n: nat)
    requires 4 * n <= |bytes|
    ensures ReadBack(bytes + more, fg, n) == ReadBack(bytes, fg, n)
    decreases n
  {
    if n > 0 {
      ReadBackPrefix(bytes, more, fg, n - 1);
      assert (bytes + more)[4 * (n - 1)..4 * n] == bytes[4 * (n - 1)..4 * n];
    }
  }

  lemma ReadBackLast(front: seq<byte>, last: Pixel, fg: Pixel, n: nat)
    requires n > 0 && |front| == 4 * (n - 1)
    ensures ReadBack(front + last, fg, n) == 2 * ReadBack(front, fg, n - 1) + if last == fg then 1 else 0
  {
    ReadBackPrefix(front, last, fg, n - 1);
    assert (front + last)[4 * (n - 1)..4 * n] == last;
  }

  /** Pixels for a sequence of bits, and the number the bits spell, highest first. */
  function Pixels(bits: seq<bool>, fg: Pixel, bg: Pixel): (bytes: seq<byte>)
    ensures |bytes| == 4 * |bits|
  {
    if bits == [] then [] else Pixels(bits[..|bits| - 1], fg, bg) + if bits[|bits| - 1] then fg else bg
  }

  function Number(bits: seq<bool>): int {
    if bits == [] then 0 else 2 * Number(bits[..|bits| - 1]) + if bits[|bits| - 1] then 1 else 0
  }

  lemma {:induction false} PixelsReadBack(bits: seq<bool>, fg: Pixel, bg: Pixel)
    requires fg != bg
    ensures ReadBack(Pixels(bits, fg, bg), fg, |bits|) == Number(bits)
    decreases |bits|
  {
    if bits != [] {
      var front := bits[..|bits| - 1];
      PixelsReadBack(front, fg, bg);
      ReadBackLast(Pixels(front, fg, bg), if bits[|bits| - 1] then fg else bg, fg, |bits|);
    }
  }

  function InkBits(row: byte, n: nat): seq<bool>
    requires n <= FONT_WIDTH
  {
    seq(n, i requires 0 <= i < n => Ink(row, i))
  }

  lemma {:induction false} ScanlineIsPixels(row: byte, fg: Pixel, bg: Pixel, n: nat)
    requires n <= FONT_WIDTH
    ensures Scanline(row, fg, bg, n) == Pixels(InkBits(row, n), fg, bg)
    decreases n
  {
    if n > 0 {
      ScanlineIsPixels(row, fg, bg, n - 1);
      assert InkBits(row, n)[..n - 1] == InkBits(row, n - 1);
    }
  }

  lemma UpperHalves(r: int)
    requires 0 <= r < 256
    ensures r / 128 == r / 128 % 2
    ensures r / 64 == 2 * (r / 128) + r / 64 % 2
    ensures r / 32 == 2 * (r / 64) + r / 32 % 2
    ensures r / 16 == 2 * (r / 32) + r / 16 % 2
  {
  }

  lemma LowerHalves(r: int)
    requires 0 <= r < 256
    ensures r / 8 == 2 * (r / 16) + r / 8 % 2
    ensures r / 4 == 2 * (r / 8) + r / 4 % 2
    ensures r / 2 == 2 * (r / 4) + r / 2 % 2
    ensures r / 1 == 2 * (r / 2) + r / 1 % 2
  {
  }

  /** What the bits up to a column spell. */
  function Spelt(row: byte, n: nat): int
    requires n <= FONT_WIDTH
  {
    if n == 0 then 0 else row as int / Weight(n - 1)
  }

  lemma SpeltGrows(row: byte, n: nat)
    requires 0 < n <= FONT_WIDTH
    ensures Spelt(row, n) == 2 * Spelt(row, n - 1) + if Ink(row, n - 1) then 1 else 0
  {
    if n <= 4 {
      UpperHalves(row as int);
    } else {
      LowerHalves(row as int);
    }
  }

  lemma {:induction false} InkSpellsRow(row: byte, n: nat)
    requires n <= FONT_WIDTH
    ensures Number(InkBits(row, n)) == Spelt(row, n)
    decreases n
  {
    if n > 0 {
      InkSpellsRow(row, n - 1);
      assert InkBits(row, n)[..n - 1] == InkBits(row, n - 1);
      SpeltGrows(row, n);
    }
  }

  /** Read from the left, highest bit first, every scanline of a glyph is the row of its bitmap. */
  lemma GlyphReadsBack(font: Font, ch: byte, fg: Pixel, bg: Pixel, y: nat)
    requires fg != bg && y < FONT_HEIGHT
    ensures |Rasterize(font, ch, fg, bg)[y]| == 4 * FONT_WIDTH
    ensures ReadBack(Rasterize(font, ch, fg, bg)[y], fg, FONT_WIDTH) == BitmapOf(font, ch)[y] as int
  {
    var row := BitmapOf(font, ch)[y];
    ScanlineIsPixels(row, fg, bg, FONT_WIDTH);
    PixelsReadBack(InkBits(row, FONT_WIDTH), fg, bg);
    InkSpellsRow(row, FONT_WIDTH);
  }

  /** A character the font lacks is drawn as a question mark. */
  lemma UnknownIsQuestionMark(font: Font, ch: byte, fg: Pixel, bg: Pixel)
    requires ch >= 128
    ensures Rasterize(font, ch, fg, bg) == Rasterize(font, '?' as int as byte, fg, bg)
  {
    assert '?' as int == 0x3F;
  }

  // ------------------------------------------------------ which slot is used

  /** What the choice of a slot depends on. */
  datatype Tag = Tag(fg: Pixel, bg: Pixel, lastUsed: nat, valid: bool)

  datatype Tags = Tags(first: Tag, second: Tag, clock: nat)

  datatype Colors = Colors(fg: Pixel, bg: Pixel)

  const NO_TAG := Tag([0, 0, 0, 0], [0, 0, 0, 0], 0, false)

  const FRESH := Tags(NO_TAG, NO_TAG, 0)

  predicate Matches(t: Tag, c: Colors) {
    t.valid && t.fg == c.fg && t.bg == c.bg
  }

  predicate PicksFirst(ts: Tags, c: Colors) {
    || Matches(ts.first, c)
    || (!Matches(ts.second, c) && ts.first.lastUsed <= ts.second.lastUsed)
  }

  function Touched(ts: Tags, c: Colors): Tags {
    var tag := Tag(c.fg, c.bg, ts.clock, true);
    if PicksFirst(ts, c) then Tags(tag, ts.second, ts.clock + 1) else Tags(ts.first, tag, ts.clock + 1)
  }

  function TouchedBy(cs: seq<Colors>): Tags {
    if cs == [] then FRESH else Touched(TouchedBy(cs[..|cs| - 1]), cs[|cs| - 1])
  }

  predicate Holds(ts: Tags, c: Colors) {
    Matches(ts.first, c) || Matches(ts.second, c)
  }

  /** The tag used last carries the newest stamp; from the second request on, it alone does. */
  ghost predicate Stamped(ts: Tags, last: Colors, n: nat) {
    && ts.clock == n
    && ( || (&& Matches(ts.first, last) && ts.first.lastUsed == n - 1 && ts.second.lastUsed <= n - 1
             && (n >= 2 ==> ts.second.lastUsed < n - 1))
         || (n >= 2 && Matches(ts.second, last) && ts.second.lastUsed == n - 1 && ts.first.lastUsed < n - 1))
  }

  lemma {:induction false} StampsFollow(cs: seq<Colors>)
    requires cs != []
    ensures Stamped(TouchedBy(cs), cs[|cs| - 1], |cs|)
    ensures |cs| == 1 ==> !TouchedBy(cs).second.valid
    decreases |cs|
  {
    var front := cs[..|cs| - 1];
    if front != [] {
      StampsFollow(front);
      assert front[|front| - 1] == cs[|cs| - 2];
    } else {
      assert TouchedBy(front) == FRESH;
    }
  }

  /**
    The colours of the last two requests are both still cached exactly from the
    third request on, or when they are the same: the second request, finding both
    stamps zero, overwrites the first even though the other slot is empty.
   */
  lemma LastTwoStayIff(cs: seq<Colors>)
    requires |cs| >= 2
    ensures Holds(TouchedBy(cs), cs[|cs| - 1])
    ensures Holds(TouchedBy(cs), cs[|cs| - 2]) <==> |cs| >= 3 || cs[|cs| - 1] == cs[|cs| - 2]
  {
    StampsFollow(cs);
    var front := cs[..|cs| - 1];
    StampsFollow(front);
    assert front[|front| - 1] == cs[|cs| - 2];
    if |front| == 1 {
      assert front[..0] == [];
      assert TouchedBy(front) == Touched(FRESH, front[0]);
    }
  }

  // --------------------------------------------------------- the cache object

  datatype GlyphEntry = GlyphEntry(ready: bool, scanlines: Raster)

  const EMPTY_ENTRY := GlyphEntry(false, seq(FONT_HEIGHT, _ => seq(32, _ => 0)))

  datatype Slot = Slot(fg: Pixel, bg: Pixel, glyphs: seq<GlyphEntry>, lastUsed: nat, valid: bool)

  /** Every glyph a slot has ready is the direct rasterization in the slot's colours. */
  ghost predicate Exact(font: Font, s: Slot) {
    && |s.glyphs| <= GLYPHS
    && forall i :: 0 <= i < |s.glyphs| && s.glyphs[i].ready ==>
         s.glyphs[i].scanlines == Rasterize(font, i as byte, s.fg, s.bg)
  }

  function TagOf(s: Slot): Tag {
    Tag(s.fg, s.bg, s.lastUsed, s.valid)
  }

  /** The scanlines of a glyph, filled pixel by pixel. */
  method FillScanlines(font: Font, ch: byte, fg: Pixel, bg: Pixel) returns (scanlines: Raster)
    ensures scanlines == Rasterize(font, ch, fg, bg)
  {
    var bitmap := BitmapOf(font, ch);
    var lines: seq<seq<byte>> := [];
    for row := 0 to FONT_HEIGHT
      invariant |lines| == row
      invariant forall i :: 0 <= i < row ==> lines[i] == Rasterize(font, ch, fg, bg)[i]
    {
      var line: seq<byte> := [];
      for bit := 0 to FONT_WIDTH
        invariant line == Scanline(bitmap[row], fg, bg, bit)
      {
        line := line + if Ink(bitmap[row], bit) then fg else bg;
      }
      lines := lines + [line];
    }
    scanlines := lines;
  }

  class Cache {
    const font: Font
    var first: Slot
    var second: Slot
    var clock: nat

    ghost predicate Valid()
      reads this
    {
      Exact(font, first) && Exact(font, second)
    }

    ghost function View(): Tags
      reads this
    {
      Tags(TagOf(first), TagOf(second), clock)
    }

    constructor (font: Font)
      ensures Valid() && View() == FRESH && this.font == font
    {
      this.font := font;
      first := Slot([0, 0, 0, 0], [0, 0, 0, 0], [], 0, false);
      second := Slot([0, 0, 0, 0], [0, 0, 0, 0], [], 0, false);
      clock := 0;
    }

    /** The slot for some colours, emptied when it held others, with the glyph made ready. */
    method Prepare(s: Slot, ch: byte, c: Colors) returns (s': Slot, scanlines: Raster)
      requires Exact(font, s)
      ensures Exact(font, s') && TagOf(s') == Tag(c.fg, c.bg, clock, true)
      ensures scanlines == Rasterize(font, ch, c.fg, c.bg)
    {
      var index := if ch as int < GLYPHS then ch else UNKNOWN;
      s' := s;
      if !s'.valid || s'.fg != c.fg || s'.bg != c.bg {
        s' := Slot(c.fg, c.bg, [], s'.lastUsed, true);
      }
      s' := s'.(lastUsed := clock);
      if index as int >= |s'.glyphs| {
        s' := s'.(glyphs := s'.glyphs + seq(index as int + 1 - |s'.glyphs|, _ => EMPTY_ENTRY));
      }
      assert Rasterize(font, ch, c.fg, c.bg) == Rasterize(font, index, c.fg, c.bg);
      if !s'.glyphs[index].ready {
        var filled := FillScanlines(font, ch, c.fg, c.bg);
        s' := s'.(glyphs := s'.glyphs[index := GlyphEntry(true, filled)]);
      }
      scanlines := s'.glyphs[index].scanlines;
    }

    /** Whatever was asked before, the answer is the direct rasterization of what is asked now. */
    method GlyphFor(ch: byte, fg: Pixel, bg: Pixel) returns (scanlines: Raster)
      requires Valid()
      modifies this
      ensures Valid() && View() == Touched(old(View()), Colors(fg, bg))
      ensures scanlines == Rasterize(font, ch, fg, bg)
    {
      var c := Colors(fg, bg);
      var useFirst :=
        if Matches(TagOf(first), c) then true
        else if Matches(TagOf(second), c) then false
        else first.lastUsed <= second.lastUsed;
      if useFirst {
        first, scanlines := Prepare(first, ch, c);
      } else {
        second, scanlines := Prepare(second, ch, c);
      }
      clock := clock + 1;
    }
  }

  datatype Query = Query(ch: byte, colors: Colors)

  /** Cached lookups are exact through any sequence of requests. */
  method LookUpAll(font: Font, queries: seq<Query>) returns (answers: seq<Raster>)
    ensures |answers| == |queries|
    ensures forall i :: 0 <= i < |queries| ==>
              answers[i] == Rasterize(font, queries[i].ch, queries[i].colors.fg, queries[i].colors.bg)
  {
    var cache := new Cache(font);
    answers := [];
    for i := 0 to |queries|
      invariant cache.Valid() && cache.font == font
      invariant |answers| == i
      invariant forall k :: 0 <= k < i ==>
                  answers[k] == Rasterize(font, queries[k].ch, queries[k].colors.fg, queries[k].colors.bg)
    {
      var glyph := cache.GlyphFor(queries[i].ch, queries[i].colors.fg, queries[i].colors.bg);
      answers := answers + [glyph];
    }
  }
}
