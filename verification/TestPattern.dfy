/** `fb-test-pattern`: packing to RGB565, the colour of each position, and the strided fill of the framebuffer. */
module TestPattern {
  import opened Abi
  import opened Bytes
  import opened Dispatcher
  import opened Ppm

  /** `xrgb8888_to_rgb565`. */
  function PackRgb565(color: u32): u16 {
    var red, green, blue := color / 0x8_0000 % 0x20, color / 0x400 % 0x40, color / 8 % 0x20;
    red * 0x800 + green * 0x20 + blue
  }

  function JoinXrgb(c: Rgb): u32 {
    c.r * 0x1_0000 + c.g * 0x100 + c.b
  }

  lemma FiveBits(r: nat)
    requires r < 0x20
    ensures 8 * r <= r * 255 / 31 <= 8 * r + 7
  {
  }

  lemma SixBits(g: nat)
    requires g < 0x40
    ensures 4 * g <= g * 255 / 63 <= 4 * g + 3
  {
  }

  lemma RedField(q: nat, low: nat)
    requires q < 0x20 && low < 0x8_0000
    ensures (q * 0x8_0000 + low) / 0x8_0000 % 0x20 == q
  {
    assert (q * 0x8_0000 + low) / 0x8_0000 == q;
  }

  lemma GreenField(high: nat, q: nat, low: nat)
    requires q < 0x40 && low < 0x400
    ensures (high * 0x1_0000 + q * 0x400 + low) / 0x400 % 0x40 == q
  {
    assert (high * 0x1_0000 + q * 0x400 + low) / 0x400 == high * 0x40 + q;
  }

  lemma BlueField(high: nat, q: nat, low: nat)
    requires q < 0x20 && low < 8
    ensures (high * 0x100 + q * 8 + low) / 8 % 0x20 == q
  {
    assert (high * 0x100 + q * 8 + low) / 8 == high * 0x20 + q;
  }

  /** The channels that packing extracts, told on the joined bytes. */
  lemma PackJoin(c: Rgb)
    ensures PackRgb565(JoinXrgb(c)) == c.r / 8 * 0x800 + c.g / 4 * 0x20 + c.b / 8
  {
    RedField(c.r / 8, c.r % 8 * 0x1_0000 + c.g * 0x100 + c.b);
    GreenField(c.r, c.g / 4, c.g % 4 * 0x100 + c.b);
    BlueField(c.r * 0x100 + c.g, c.b / 8, c.b % 8);
  }

  lemma FieldsOf565(pixel: u16)
    ensures pixel == pixel / 0x800 % 0x20 * 0x800 + pixel / 0x20 % 0x40 * 0x20 + pixel % 0x20
  {
    assert pixel / 0x800 < 0x20;
    assert pixel / 0x20 / 0x40 == pixel / 0x800;
  }

  lemma EighthsOf(c: nat, r: nat)
    requires 8 * r <= c <= 8 * r + 7
    ensures c / 8 == r
  {
  }

  lemma QuartersOf(c: nat, g: nat)
    requires 4 * g <= c <= 4 * g + 3
    ensures c / 4 == g
  {
  }

  /** Packing undoes the expansion: RGB565 loses nothing on its way through the PPM sink. */
  lemma PackExpand(pixel: u16)
    ensures PackRgb565(JoinXrgb(ExpandRgb565(pixel))) == pixel
  {
    var r, g, b := pixel / 0x800 % 0x20, pixel / 0x20 % 0x40, pixel % 0x20;
    var c := ExpandRgb565(pixel);
    PackJoin(c);
    assert c.r / 8 == r by {
      FiveBits(r);
      EighthsOf(c.r, r);
    }
    assert c.g / 4 == g by {
      SixBits(g);
      QuartersOf(c.g, g);
    }
    assert c.b / 8 == b by {
      FiveBits(b);
      EighthsOf(c.b, b);
    }
    FieldsOf565(pixel);
  }

  /** The pixel of an RGB565 frame as stored. */
  function Stored565(f: Frame, px: seq<u8>, x: nat, y: nat): u16
    requires f.format == FORMAT_RGB565 && x < f.width && y < f.height && ReadEnd(f) <= |px|
  {
    PixelInBuffer(f, x, y);
    Word16(px[PixelStart(f, x, y)..PixelStart(f, x, y) + 2])
  }

  /** Repacking one pixel of a PPM body. */
  function Repack(body: seq<u8>, at: nat): u16
    requires at + 3 <= |body|
  {
    PackRgb565(JoinXrgb(Rgb(body[at], body[at + 1], body[at + 2])))
  }

  lemma RepackTriple(body: seq<u8>, at: nat, pixel: u16)
    requires at + 3 <= |body| && body[at..at + 3] == Triple(ExpandRgb565(pixel))
    ensures Repack(body, at) == pixel
  {
    var t := body[at..at + 3];
    assert body[at] == t[0] && body[at + 1] == t[1] && body[at + 2] == t[2];
    PackExpand(pixel);
  }

  lemma RepackPixel(body: seq<u8>, at: nat, f: Frame, px: seq<u8>, x: nat, y: nat)
    requires f.format == FORMAT_RGB565 && x < f.width && y < f.height && ReadEnd(f) <= |px|
    requires at + 3 <= |body| && body[at..at + 3] == Triple(PixelAt(f, px, x, y))
    ensures Repack(body, at) == Stored565(f, px, x, y)
  {
    assert PixelAt(f, px, x, y) == ExpandRgb565(Stored565(f, px, x, y));
    RepackTriple(body, at, Stored565(f, px, x, y));
  }

  /** The left inverse on whole images: from the PPM body of any RGB565 frame every visible pixel comes back. */
  lemma ImageSurvivesPpm(f: Frame, px: seq<u8>, x: nat, y: nat)
    requires f.format == FORMAT_RGB565 && x < f.width && y < f.height && ReadEnd(f) <= |px|
    ensures BodyOffset(f, x, y) + 3 <= |Body(f, px)|
    ensures Repack(Body(f, px), BodyOffset(f, x, y)) == Stored565(f, px, x, y)
  {
    BodyLayout(f, px, x, y);
    RepackPixel(Body(f, px), BodyOffset(f, x, y), f, px, x, y);
  }

  const BARS: seq<u32> := [0xff_ffff, 0xff_ff00, 0x00_ffff, 0x00_ff00, 0xff_00ff, 0xff_0000, 0x00_00ff, 0x18_1818]

  lemma BarIndex(x: nat, width: nat)
    requires x < width
    ensures x * 8 / width < 8
  {
    DivisionBound(8, width, x * 8);
  }

  /** `color_for_position`; `height * 3` is a 32-bit product. */
  function ColorFor(x: u32, y: u32, width: u32, height: u32): u32
    requires x < width
  {
    BarIndex(x, width);
    if y > (height * 3) % WORD32 / 4 then
      if (x / 32 + y / 32) % 2 != 0 then 0xf0_f0f0 else 0x20_2020
    else BARS[x * 8 / width]
  }

  /**
   * The pattern: eight bars of equal width, from white to dark grey, and in the last quarter of the rows a
   * checkerboard of 32 by 32 squares.
   */
  lemma PatternShape(x: u32, y: u32, width: u32, height: u32, bar: nat)
    requires x < width && height * 3 < WORD32
    ensures 4 * y <= 3 * height && InBar(x, width, bar) ==>
              && bar < 8
              && ColorFor(x, y, width, height)
                 == [0xff_ffff, 0xff_ff00, 0x00_ffff, 0x00_ff00, 0xff_00ff, 0xff_0000, 0x00_00ff, 0x18_1818][bar]
    ensures 4 * y > 3 * height ==>
              ColorFor(x, y, width, height)
              == if (x / 32) % 2 == (y / 32) % 2 then 0x20_2020 else 0xf0_f0f0
  {
    BarAt(x, width, bar);
    LastQuarter(y, height);
    Checkers(x / 32, y / 32);
  }

  /** Column `x` lies in the bar with this number, of eight equal ones. */
  predicate InBar(x: nat, width: nat, bar: nat) {
    bar * width <= 8 * x < (bar + 1) * width
  }

  lemma BarAt(x: u32, width: u32, bar: nat)
    requires x < width
    ensures InBar(x, width, bar) ==> x * 8 / width == bar < 8
  {
    DivisionBound(bar, width, x * 8);
    DivisionBound(bar + 1, width, x * 8);
    BarIndex(x, width);
  }

  lemma LastQuarter(y: u32, height: u32)
    requires height * 3 < WORD32
    ensures y > (height * 3) % WORD32 / 4 <==> 4 * y > 3 * height
  {
  }

  lemma Checkers(a: nat, b: nat)
    ensures (a + b) % 2 != 0 <==> a % 2 != b % 2
  {
  }

  /** The bytes of one pixel of the pattern. */
  function PatternPixel(bpp: nat, x: u32, y: u32, width: u32, height: u32): (b: seq<u8>)
    requires x < width && (bpp == 2 || bpp == 4)
    ensures |b| == bpp
  {
    var color := ColorFor(x, y, width, height);
    EncodeLe(if bpp == 4 then color else PackRgb565(color), bpp)
  }

  /** The framebuffer as a frame. */
  function FbFrame(bpp: nat, width: u32, height: u32, lineLength: u32): Frame {
    Frame(MappedPixels(0), 0, 0, 0, width, height, lineLength,
          if bpp == 4 then FORMAT_XRGB8888 else FORMAT_RGB565, SOURCE_FBDEV, FullDamage(width, height))
  }

  /** Every pixel of the pattern is in place. */
  ghost predicate Painted(m: seq<u8>, f: Frame, bpp: nat)
    requires bpp == 2 || bpp == 4
    requires f == FbFrame(bpp, f.width, f.height, f.stride) && ReadEnd(f) <= |m|
  {
    forall i: nat, j: nat {:trigger PixelStart(f, i, j)} :: i < f.width && j < f.height ==>
      (PixelInBuffer(f, i, j);
       m[PixelStart(f, i, j)..PixelStart(f, i, j) + bpp] == PatternPixel(bpp, i, j, f.width, f.height))
  }

  /** With a stride that covers the rows, pixels do not overlap. */
  lemma PixelsApart(f: Frame, bpp: nat, i: nat, j: nat, x: nat, y: nat)
    requires bpp == 2 || bpp == 4
    requires f == FbFrame(bpp, f.width, f.height, f.stride) && RowBytes(f.format, f.width) <= f.stride
    requires i < f.width && x < f.width && (j < y || (j == y && i < x))
    ensures PixelStart(f, i, j) + bpp <= PixelStart(f, x, y)
  {
    if j < y {
      TimesStep(j, y, f.stride);
    }
  }

  /** Every byte outside the visible pixels is as it was. */
  ghost predicate PaddingKept(m: seq<u8>, m0: seq<u8>, f: Frame, bpp: nat) {
    |m| == |m0| &&
    forall k: nat :: k < |m| && m[k] != m0[k] ==> exists i: nat, j: nat :: Covers(f, bpp, i, j, k)
  }

  /** Byte `k` belongs to pixel (i, j). */
  predicate Covers(f: Frame, bpp: nat, i: nat, j: nat, k: nat) {
    i < f.width && j < f.height && PixelStart(f, i, j) <= k < PixelStart(f, i, j) + bpp
  }

  /** The order in which the loops visit the pixels. */
  predicate Before(i: nat, j: nat, x: nat, y: nat) {
    j < y || (j == y && i < x)
  }

  /** Byte `k` is what pixel (i, j) left there, and no pixel visited since, before (x, y), covers it. */
  ghost predicate LastWriter(m: seq<u8>, f: Frame, bpp: nat, x: nat, y: nat, k: nat, i: nat, j: nat)
    requires bpp == 2 || bpp == 4
  {
    && k < |m| && Covers(f, bpp, i, j, k) && Before(i, j, x, y)
    && m[k] == PatternPixel(bpp, i, j, f.width, f.height)[k - PixelStart(f, i, j)]
    && forall p: nat, q: nat :: Covers(f, bpp, p, q, k) && Before(p, q, x, y) ==> !Before(i, j, p, q)
  }

  ghost predicate Untouched(m: seq<u8>, m0: seq<u8>, f: Frame, bpp: nat, x: nat, y: nat, k: nat) {
    k < |m| == |m0| && m[k] == m0[k] && forall p: nat, q: nat :: Covers(f, bpp, p, q, k) ==> !Before(p, q, x, y)
  }

  ghost predicate ByteScanned(m: seq<u8>, m0: seq<u8>, f: Frame, bpp: nat, x: nat, y: nat, k: nat)
    requires bpp == 2 || bpp == 4
  {
    Untouched(m, m0, f, bpp, x, y, k) || exists i: nat, j: nat :: LastWriter(m, f, bpp, x, y, k, i, j)
  }

  /** Every byte is what the last pixel before (x, y) to cover it left there, or else as it was. */
  ghost predicate Scanned(m: seq<u8>, m0: seq<u8>, f: Frame, bpp: nat, x: nat, y: nat)
    requires bpp == 2 || bpp == 4
  {
    |m| == |m0| && forall k: nat :: k < |m| ==> ByteScanned(m, m0, f, bpp, x, y, k)
  }

  /** `m'` is `m` with the pattern's pixel (x, y) stored. */
  ghost predicate Stored(m: seq<u8>, m': seq<u8>, f: Frame, bpp: nat, x: nat, y: nat)
    requires bpp == 2 || bpp == 4
    requires f == FbFrame(bpp, f.width, f.height, f.stride) && x < f.width && y < f.height
  {
    var at := PixelStart(f, x, y);
    && |m'| == |m| && at + bpp <= |m|
    && m'[at..at + bpp] == PatternPixel(bpp, x, y, f.width, f.height)
    && forall k :: 0 <= k < at || at + bpp <= k < |m| ==> m'[k] == m[k]
  }

  lemma StoredScanned(m: seq<u8>, m': seq<u8>, m0: seq<u8>, f: Frame, bpp: nat, x: nat, y: nat)
    requires bpp == 2 || bpp == 4
    requires f == FbFrame(bpp, f.width, f.height, f.stride) && x < f.width && y < f.height
    requires Stored(m, m', f, bpp, x, y) && Scanned(m, m0, f, bpp, x, y)
    ensures Scanned(m', m0, f, bpp, x + 1, y)
  {
    var next := x + 1;
    forall k: nat | k < |m'|
      ensures ByteScanned(m', m0, f, bpp, next, y, k)
    {
      var at := PixelStart(f, x, y);
      if at <= k < at + bpp {
        assert m'[at..at + bpp][k - at] == m'[k];
        assert LastWriter(m', f, bpp, next, y, k, x, y);
      } else {
        OtherByteScanned(m, m', m0, f, bpp, x, y, k);
      }
    }
  }

  lemma OtherByteScanned(m: seq<u8>, m': seq<u8>, m0: seq<u8>, f: Frame, bpp: nat, x: nat, y: nat, k: nat)
    requires bpp == 2 || bpp == 4
    requires k < |m| == |m'| == |m0| && m'[k] == m[k] && !Covers(f, bpp, x, y, k)
    requires ByteScanned(m, m0, f, bpp, x, y, k)
    ensures ByteScanned(m', m0, f, bpp, x + 1, y, k)
  {
    if !Untouched(m, m0, f, bpp, x, y, k) {
      var i: nat, j: nat :| LastWriter(m, f, bpp, x, y, k, i, j);
      assert LastWriter(m', f, bpp, x + 1, y, k, i, j);
    }
  }

  /** The end of a row is the beginning of the next. */
  lemma NextRow(m: seq<u8>, m0: seq<u8>, f: Frame, bpp: nat, y: nat)
    requires bpp == 2 || bpp == 4
    requires Scanned(m, m0, f, bpp, f.width, y)
    ensures Scanned(m, m0, f, bpp, 0, y + 1)
  {
    var next := y + 1;
    forall k: nat | k < |m|
      ensures ByteScanned(m, m0, f, bpp, 0, next, k)
    {
      assert ByteScanned(m, m0, f, bpp, f.width, y, k);
      if !Untouched(m, m0, f, bpp, f.width, y, k) {
        var i: nat, j: nat :| LastWriter(m, f, bpp, f.width, y, k, i, j);
        assert LastWriter(m, f, bpp, 0, next, k, i, j);
      }
    }
  }

  /** Where the line length covers a row, no pixel overwrites another: the whole picture is in place. */
  lemma ScannedPainted(m: seq<u8>, m0: seq<u8>, f: Frame, bpp: nat)
    requires bpp == 2 || bpp == 4
    requires f == FbFrame(bpp, f.width, f.height, f.stride) && RowBytes(f.format, f.width) <= f.stride
    requires ReadEnd(f) <= |m| && Scanned(m, m0, f, bpp, 0, f.height)
    ensures Painted(m, f, bpp) && PaddingKept(m, m0, f, bpp)
  {
    forall i: nat, j: nat | i < f.width && j < f.height
      ensures PixelStart(f, i, j) + bpp <= |m|
      ensures m[PixelStart(f, i, j)..PixelStart(f, i, j) + bpp] == PatternPixel(bpp, i, j, f.width, f.height)
    {
      OwnPixel(m, m0, f, bpp, i, j);
    }
    forall k: nat | k < |m| && m[k] != m0[k]
      ensures exists i: nat, j: nat :: Covers(f, bpp, i, j, k)
    {
      assert ByteScanned(m, m0, f, bpp, 0, f.height, k);
      var i: nat, j: nat :| LastWriter(m, f, bpp, 0, f.height, k, i, j);
    }
  }

  lemma OwnPixel(m: seq<u8>, m0: seq<u8>, f: Frame, bpp: nat, i: nat, j: nat)
    requires bpp == 2 || bpp == 4
    requires f == FbFrame(bpp, f.width, f.height, f.stride) && RowBytes(f.format, f.width) <= f.stride
    requires ReadEnd(f) <= |m| && Scanned(m, m0, f, bpp, 0, f.height) && i < f.width && j < f.height
    ensures PixelStart(f, i, j) + bpp <= |m|
    ensures m[PixelStart(f, i, j)..PixelStart(f, i, j) + bpp] == PatternPixel(bpp, i, j, f.width, f.height)
  {
    PixelInBuffer(f, i, j);
    var at := PixelStart(f, i, j);
    forall b: nat | b < bpp
      ensures m[at..at + bpp][b] == PatternPixel(bpp, i, j, f.width, f.height)[b]
    {
      OwnByte(m, m0, f, bpp, i, j, at + b);
    }
  }

  lemma OwnByte(m: seq<u8>, m0: seq<u8>, f: Frame, bpp: nat, i: nat, j: nat, k: nat)
    requires bpp == 2 || bpp == 4
    requires f == FbFrame(bpp, f.width, f.height, f.stride) && RowBytes(f.format, f.width) <= f.stride
    requires Scanned(m, m0, f, bpp, 0, f.height) && k < |m| && Covers(f, bpp, i, j, k)
    ensures m[k] == PatternPixel(bpp, i, j, f.width, f.height)[k - PixelStart(f, i, j)]
  {
    assert Before(i, j, 0, f.height) && ByteScanned(m, m0, f, bpp, 0, f.height, k);
    var p: nat, q: nat :| LastWriter(m, f, bpp, 0, f.height, k, p, q);
    if Before(i, j, p, q) {
      PixelsApart(f, bpp, i, j, p, q);
    } else if Before(p, q, i, j) {
      PixelsApart(f, bpp, p, q, i, j);
    }
  }

  /** One `memcpy` of a pixel into the mapping. */
  method StorePixel(mapping: array<u8>, f: Frame, bpp: nat, x: u32, y: u32)
    requires bpp == 2 || bpp == 4
    requires f == FbFrame(bpp, f.width, f.height, f.stride)
    requires x < f.width && y < f.height && ReadEnd(f) <= mapping.Length
    modifies mapping
    ensures Stored(old(mapping[..]), mapping[..], f, bpp, x, y)
  {
    PixelInBuffer(f, x, y);
    var at := PixelStart(f, x, y);
    var pixel := PatternPixel(bpp, x, y, f.width, f.height);
    forall b | 0 <= b < bpp {
      mapping[at + b] := pixel[b];
    }
  }

  /**
   * The nested loops of `main`, for any line length: afterwards every byte is what the last pixel to cover it
   * left there, or as it was. `ScannedPainted` says what that means where the line length covers a row.
   */
  method FillPattern(mapping: array<u8>, bpp: nat, width: u32, height: u32, lineLength: u32)
    requires bpp == 2 || bpp == 4
    requires ReadEnd(FbFrame(bpp, width, height, lineLength)) <= mapping.Length
    modifies mapping
    ensures Scanned(mapping[..], old(mapping[..]), FbFrame(bpp, width, height, lineLength), bpp, 0, height)
  {
    var f := FbFrame(bpp, width, height, lineLength);
    var y := 0;
    while y < height
      invariant 0 <= y <= height
      invariant Scanned(mapping[..], old(mapping[..]), f, bpp, 0, y)
    {
      var x := 0;
      while x < width
        invariant 0 <= x <= width
        invariant Scanned(mapping[..], old(mapping[..]), f, bpp, x, y)
      {
        ghost var m := mapping[..];
        StorePixel(mapping, f, bpp, x, y);
        StoredScanned(m, mapping[..], old(mapping[..]), f, bpp, x, y);
        x := x + 1;
      }
      NextRow(mapping[..], old(mapping[..]), f, bpp, y);
      y := y + 1;
    }
  }

  /** The colour the PPM sink shows for a pattern colour: exact at 32 bits, quantised at 16. */
  function ShownColor(bpp: nat, color: u32): Rgb {
    if bpp == 4 then SplitXrgb(color) else ExpandRgb565(PackRgb565(color))
  }

  /** From test pattern to image file: each pixel of the PPM body is the colour of its position. */
  lemma PatternThroughPpm(m: seq<u8>, bpp: nat, width: u32, height: u32, lineLength: u32, x: u32, y: u32)
    requires bpp == 2 || bpp == 4
    requires var f := FbFrame(bpp, width, height, lineLength);
             ReadEnd(f) <= |m| && Painted(m, f, bpp) && x < width && y < height
    ensures var f := FbFrame(bpp, width, height, lineLength);
      && BodyOffset(f, x, y) + 3 <= |Body(f, m)|
      && Body(f, m)[BodyOffset(f, x, y)..BodyOffset(f, x, y) + 3]
         == Triple(ShownColor(bpp, ColorFor(x, y, width, height)))
  {
    var f := FbFrame(bpp, width, height, lineLength);
    BodyLayout(f, m, x, y);
    PixelInBuffer(f, x, y);
    var at := PixelStart(f, x, y);
    assert m[at..at + bpp] == PatternPixel(bpp, x, y, width, height);
    Pow256Values();
    var color := ColorFor(x, y, width, height);
    DecodeEncode(if bpp == 4 then color else PackRgb565(color), bpp);
  }
}
