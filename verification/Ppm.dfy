/** The PPM sink: strided pixel traversal, RGB565 expansion and replacement of the image file by rename. */
module Ppm {
  import opened Abi
  import opened Bytes
  import opened Dispatcher
  import opened P6

  datatype Rgb = Rgb(r: u8, g: u8, b: u8)

  predicate Supported(format: u32) {
    format == FORMAT_XRGB8888 || format == FORMAT_RGB565
  }

  function ExpandRgb565(pixel: u16): Rgb {
    Rgb((pixel / 0x800 % 0x20) * 255 / 31, (pixel / 0x20 % 0x40) * 255 / 63, (pixel % 0x20) * 255 / 31)
  }

  function SplitXrgb(pixel: u32): Rgb {
    Rgb(pixel / 0x1_0000 % 0x100, pixel / 0x100 % 0x100, pixel % 0x100)
  }

  /** The bytes taken by `x` pixels of a row. */
  function RowBytes(format: u32, x: nat): nat {
    if format == FORMAT_XRGB8888 then 4 * x else if format == FORMAT_RGB565 then 2 * x else 0
  }

  function BytesPerPixel(format: u32): nat {
    RowBytes(format, 1)
  }

  /** One past the last byte that the traversal reads. */
  function ReadEnd(f: Frame): nat {
    if f.width == 0 || f.height == 0 then 0 else Times(f.height - 1, f.stride) + RowBytes(f.format, f.width)
  }

  /** The traversal stays within `stride * height` bytes if and only if the stride covers a row. */
  lemma ReadEndExact(f: Frame)
    requires f.width > 0 && f.height > 0
    ensures ReadEnd(f) <= f.stride * f.height <==> f.width * BytesPerPixel(f.format) <= f.stride
    ensures ReadEnd(f) == (f.height - 1) * f.stride + f.width * BytesPerPixel(f.format)
  {
    TimesIsProduct(f.height, f.stride);
    TimesIsProduct(f.height - 1, f.stride);
  }

  /** Where the bytes of pixel (x, y) start. */
  function PixelStart(f: Frame, x: nat, y: nat): nat {
    Times(y, f.stride) + RowBytes(f.format, x)
  }

  lemma PixelInBuffer(f: Frame, x: nat, y: nat)
    requires x < f.width && y < f.height
    ensures PixelStart(f, x, y) + BytesPerPixel(f.format) <= ReadEnd(f)
  {
    if y < f.height - 1 {
      TimesStep(y, f.height - 1, f.stride);
    }
  }

  function PixelAt(f: Frame, px: seq<u8>, x: nat, y: nat): Rgb
    requires Supported(f.format) && x < f.width && y < f.height && ReadEnd(f) <= |px|
  {
    PixelInBuffer(f, x, y);
    var at := PixelStart(f, x, y);
    if f.format == FORMAT_XRGB8888 then SplitXrgb(Word32(px[at..at + 4]))
    else ExpandRgb565(Word16(px[at..at + 2]))
  }

  /** The bytes of one pixel in a format the sink knows. */
  function PixelBytes(format: u32): nat {
    if format == 2 then 4 else 2
  }

  /** The colour that a format gives to the bytes of a pixel: blue, green, red; or 5, 6 and 5 bits of two bytes. */
  function ColourOf(format: u32, b: seq<u8>): Rgb
    requires |b| == PixelBytes(format)
  {
    if format == 2 then Rgb(b[2], b[1], b[0])
    else
      var v: u16 := b[0] + 0x100 * (b[1] as int);
      Rgb(v / 2048 * 255 / 31, v / 32 % 64 * 255 / 63, v % 32 * 255 / 31)
  }

  lemma SplitBytes(b0: u8, b1: u8, b2: u8, b3: u8)
    ensures var v := b0 + 0x100 * (b1 as int) + 0x1_0000 * (b2 as int) + 0x100_0000 * (b3 as int);
      v / 0x1_0000 % 0x100 == b2 && v / 0x100 % 0x100 == b1 && v % 0x100 == b0
  {
    var v := b0 + 0x100 * (b1 as int) + 0x1_0000 * (b2 as int) + 0x100_0000 * (b3 as int);
    assert v / 0x1_0000 == b2 + 0x100 * (b3 as int);
    assert v / 0x100 == b1 + 0x100 * (b2 as int) + 0x1_0000 * (b3 as int);
  }

  /** Decoding a pixel gives the colour of its bytes. */
  lemma PixelColour(f: Frame, px: seq<u8>, x: nat, y: nat)
    requires Supported(f.format) && x < f.width && y < f.height && ReadEnd(f) <= |px|
    ensures PixelStart(f, x, y) + PixelBytes(f.format) <= ReadEnd(f)
    ensures var at := PixelStart(f, x, y);
      PixelAt(f, px, x, y) == ColourOf(f.format, px[at..at + PixelBytes(f.format)])
  {
    PixelInBuffer(f, x, y);
    var at := PixelStart(f, x, y);
    if f.format == FORMAT_XRGB8888 {
      SplitIsColour(px[at..at + 4]);
    } else {
      ExpandIsColour(px[at..at + 2]);
    }
  }

  lemma ExpandIsColour(b: seq<u8>)
    requires |b| == 2
    ensures ExpandRgb565(Word16(b)) == ColourOf(FORMAT_RGB565, b)
  {
    LittleEndian(b);
    TopBits(Word16(b));
  }

  lemma TopBits(v: u16)
    ensures v / 0x800 % 0x20 == v / 0x800
  {
    assert v / 0x800 < 0x20;
  }

  lemma SplitIsColour(b: seq<u8>)
    requires |b| == 4
    ensures SplitXrgb(Word32(b)) == Rgb(b[2], b[1], b[0])
  {
    LittleEndian(b);
    SplitBytes(b[0], b[1], b[2], b[3]);
  }

  function Triple(c: Rgb): seq<u8> {
    [c.r, c.g, c.b]
  }

  /** Colours by column and row. */
  type Picture = (nat, nat) -> Rgb

  function PictureOf(f: Frame, px: seq<u8>): Picture
    requires Supported(f.format) && ReadEnd(f) <= |px|
  {
    (x: nat, y: nat) => if x < f.width && y < f.height then PixelAt(f, px, x, y) else Rgb(0, 0, 0)
  }

  lemma PictureAt(f: Frame, px: seq<u8>, x: nat, y: nat)
    requires Supported(f.format) && ReadEnd(f) <= |px| && x < f.width && y < f.height
    ensures PictureOf(f, px)(x, y) == PixelAt(f, px, x, y)
  {
  }

  /** The first `x` pixels of row `y`, three bytes each. */
  function RowPrefix(p: Picture, y: nat, x: nat): (b: seq<u8>)
    ensures |b| == 3 * x
  {
    if x == 0 then [] else RowPrefix(p, y, x - 1) + Triple(p(x - 1, y))
  }

  /** The first `y` rows. */
  function Rows(p: Picture, width: nat, y: nat): (b: seq<u8>)
    ensures |b| == 3 * Times(y, width)
  {
    if y == 0 then [] else Rows(p, width, y - 1) + RowPrefix(p, y - 1, width)
  }

  predicate Empty(f: Frame) {
    f.width == 0 || f.height == 0
  }

  /** The sink accepts a known format, and anything if there is no pixel to look at. */
  predicate Drawable(f: Frame) {
    Supported(f.format) || Empty(f)
  }

  function Body(f: Frame, px: seq<u8>): seq<u8>
    requires Drawable(f) && ReadEnd(f) <= |px|
  {
    if Empty(f) then [] else Rows(PictureOf(f, px), f.width, f.height)
  }

  lemma {:induction false} RowPrefixAt(p: Picture, y: nat, n: nat, x: nat)
    requires x < n
    ensures RowPrefix(p, y, n)[3 * x..3 * x + 3] == Triple(p(x, y))
  {
    if x < n - 1 {
      RowPrefixAt(p, y, n - 1, x);
      SliceAppended(RowPrefix(p, y, n - 1), Triple(p(n - 1, y)), 3 * x);
    }
  }

  lemma SliceAppended(a: seq<u8>, b: seq<u8>, at: nat)
    ensures at + 3 <= |a| ==> (a + b)[at..at + 3] == a[at..at + 3]
    ensures |a| <= at && at + 3 <= |a| + |b| ==> (a + b)[at..at + 3] == b[at - |a|..at - |a| + 3]
  {
  }

  /** Where the body holds pixel (x, y). */
  function BodyOffset(f: Frame, x: nat, y: nat): nat {
    3 * Times(y, f.width) + 3 * x
  }

  lemma {:induction false} RowsAt(p: Picture, width: nat, n: nat, x: nat, y: nat, at: nat)
    requires x < width && y < n && at == 3 * Times(y, width) + 3 * x
    ensures at + 3 <= |Rows(p, width, n)|
    ensures Rows(p, width, n)[at..at + 3] == RowPrefix(p, y, width)[3 * x..3 * x + 3]
  {
    if y < n - 1 {
      RowsAt(p, width, n - 1, x, y, at);
    }
    SliceAppended(Rows(p, width, n - 1), RowPrefix(p, n - 1, width), at);
  }

  /** The offset is the usual one, and the body has exactly three bytes per pixel. */
  lemma BodyDense(f: Frame, px: seq<u8>, x: nat, y: nat)
    requires Drawable(f) && ReadEnd(f) <= |px|
    ensures |Body(f, px)| == 3 * (f.width * f.height)
    ensures BodyOffset(f, x, y) == 3 * (y * f.width + x)
  {
    TimesIsProduct(f.height, f.width);
    TimesIsProduct(y, f.width);
  }

  /** The traversal puts pixel (x, y) at its place in the body. */
  lemma BodyLayout(f: Frame, px: seq<u8>, x: nat, y: nat)
    requires Supported(f.format) && x < f.width && y < f.height && ReadEnd(f) <= |px|
    ensures var at := BodyOffset(f, x, y);
      at + 3 <= |Body(f, px)| && Body(f, px)[at..at + 3] == Triple(PixelAt(f, px, x, y))
  {
    RowsAt(PictureOf(f, px), f.width, f.height, x, y, BodyOffset(f, x, y));
    RowPrefixAt(PictureOf(f, px), y, f.width, x);
  }

  /** Two buffers show the same pixels through a frame: they agree on every visible byte. */
  ghost predicate SameVisible(f: Frame, px: seq<u8>, px': seq<u8>) {
    && ReadEnd(f) <= |px| && ReadEnd(f) <= |px'|
    && forall x: nat, y: nat {:trigger PixelStart(f, x, y)} :: x < f.width && y < f.height ==>
         (PixelInBuffer(f, x, y);
          var at, n := PixelStart(f, x, y), BytesPerPixel(f.format);
          px[at..at + n] == px'[at..at + n])
  }

  lemma PixelDepends(f: Frame, px: seq<u8>, px': seq<u8>, x: nat, y: nat)
    requires Supported(f.format) && SameVisible(f, px, px') && x < f.width && y < f.height
    ensures PixelAt(f, px, x, y) == PixelAt(f, px', x, y)
  {
    PixelInBuffer(f, x, y);
    var at := PixelStart(f, x, y);
    assert px[at..at + BytesPerPixel(f.format)] == px'[at..at + BytesPerPixel(f.format)];
  }

  /** Row padding is irrelevant: buffers that agree on the visible bytes give the same body. */
  lemma PaddingIrrelevant(f: Frame, px: seq<u8>, px': seq<u8>)
    requires Drawable(f) && SameVisible(f, px, px')
    ensures Body(f, px) == Body(f, px')
  {
    if !Empty(f) {
      var p, q := PictureOf(f, px), PictureOf(f, px');
      forall x: nat, y: nat
        ensures p(x, y) == q(x, y)
      {
        if x < f.width && y < f.height {
          PixelDepends(f, px, px', x, y);
        }
      }
      SameRows(p, q, f.width, f.height);
    }
  }

  lemma {:induction false} SameRows(p: Picture, q: Picture, width: nat, n: nat)
    requires forall x: nat, y: nat :: p(x, y) == q(x, y)
    ensures Rows(p, width, n) == Rows(q, width, n)
  {
    if n > 0 {
      SameRows(p, q, width, n - 1);
      SameRow(p, q, n - 1, width);
    }
  }

  lemma {:induction false} SameRow(p: Picture, q: Picture, y: nat, n: nat)
    requires forall x: nat, y: nat :: p(x, y) == q(x, y)
    ensures RowPrefix(p, y, n) == RowPrefix(q, y, n)
  {
    if n > 0 {
      SameRow(p, q, y, n - 1);
    }
  }

  /** Result of writing the pixels when the stream accepts `limit` of them (`None`: all). */
  function WriteCode(f: Frame, limit: Option<nat>): int {
    if Empty(f) then 0
    else if !Supported(f.format) then -ENOTSUP
    else if limit.Some? && limit.value < Times(f.height, f.width) then -EIO
    else 0
  }

  lemma {:induction false} EmptyRows(n: nat)
    ensures Times(n, 0) == 0
  {
    if n > 0 {
      EmptyRows(n - 1);
    }
  }

  /** The inner loop of `ppm_write_pixels`: one row, after `y` complete ones. */
  method WriteRow(f: Frame, px: seq<u8>, limit: Option<nat>, y: nat) returns (result: int, out: seq<u8>)
    requires ReadEnd(f) <= |px| && y < f.height && Supported(f.format)
    requires limit.Some? ==> Times(y, f.width) <= limit.value
    ensures result == 0 ==>
              out == RowPrefix(PictureOf(f, px), y, f.width) && (limit.Some? ==> Times(y + 1, f.width) <= limit.value)
    ensures result != 0 ==> result == -EIO && limit.Some? && limit.value < Times(y + 1, f.width)
  {
    result, out := 0, [];
    ghost var p: Picture := PictureOf(f, px);
    var x, written := 0, Times(y, f.width);
    while x < f.width && result == 0
      invariant 0 <= x <= f.width
      invariant result == 0 ==> out == RowPrefix(p, y, x)
      invariant result == 0 && limit.Some? ==> written + x <= limit.value
      invariant result != 0 ==> result == -EIO && limit.Some? && limit.value < written + f.width
      decreases f.width - x, result == 0
    {
      var rgb := PixelAt(f, px, x, y);
      PictureAt(f, px, x, y);
      if limit == Some(written + x) {
        result := -EIO;
      } else {
        out := out + Triple(rgb);
        x := x + 1;
      }
    }
  }

  /** What the stream has got after `y` rows that went well. */
  ghost predicate Written(f: Frame, px: seq<u8>, limit: Option<nat>, y: nat, out: seq<u8>)
    requires ReadEnd(f) <= |px|
  {
    if Supported(f.format) then
      out == Rows(PictureOf(f, px), f.width, y) && (limit.Some? ==> Times(y, f.width) <= limit.value)
    else out == [] && (y == 0 || f.width == 0)
  }

  lemma WrittenAll(f: Frame, px: seq<u8>, limit: Option<nat>, out: seq<u8>)
    requires ReadEnd(f) <= |px| && Written(f, px, limit, f.height, out)
    ensures WriteCode(f, limit) == 0 && Drawable(f) && out == Body(f, px)
  {
    EmptyRows(f.height);
  }

  lemma WrittenNext(f: Frame, px: seq<u8>, limit: Option<nat>, y: nat, out: seq<u8>, row: seq<u8>)
    requires ReadEnd(f) <= |px| && Supported(f.format) && Written(f, px, limit, y, out)
    requires row == RowPrefix(PictureOf(f, px), y, f.width) && (limit.Some? ==> Times(y + 1, f.width) <= limit.value)
    ensures Written(f, px, limit, y + 1, out + row)
  {
  }

  lemma WriteStops(f: Frame, limit: Option<nat>, y: nat)
    requires Supported(f.format) && y < f.height && limit.Some? && limit.value < Times(y + 1, f.width)
    ensures WriteCode(f, limit) == -EIO
  {
    TimesStep(y, f.height, f.width);
    EmptyRows(y + 1);
  }

  /** `ppm_write_pixels`: the nested loops; an unsupported format fails at the first pixel. */
  method WritePixels(f: Frame, px: seq<u8>, limit: Option<nat>) returns (result: int, out: seq<u8>)
    requires ReadEnd(f) <= |px|
    ensures result == WriteCode(f, limit)
    ensures result == 0 ==> Drawable(f) && out == Body(f, px)
    ensures !Supported(f.format) ==> out == []
  {
    result, out := 0, [];
    var y := 0;
    while y < f.height && result == 0
      invariant 0 <= y <= f.height
      invariant result == 0 ==> Written(f, px, limit, y, out)
      invariant result != 0 ==> result == WriteCode(f, limit) && (!Supported(f.format) ==> out == [])
      decreases f.height - y, result == 0
    {
      if Supported(f.format) {
        var row;
        result, row := WriteRow(f, px, limit, y);
        if result != 0 {
          WriteStops(f, limit, y);
        } else {
          WrittenNext(f, px, limit, y, out, row);
        }
        out := out + row;
      } else if f.width > 0 {
        result := -ENOTSUP;
      }
      if result == 0 {
        y := y + 1;
      }
    }
    if result == 0 {
      WrittenAll(f, px, limit, out);
    }
  }

  function Header(f: Frame): string {
    Concat(["P6\n" + Decimal(f.width), " ", Decimal(f.height), "\n255\n"])
  }

  /** The complete image file of a frame. */
  function File(f: Frame, px: seq<u8>): seq<u8>
    requires Drawable(f) && ReadEnd(f) <= |px|
  {
    Ascii(Header(f)) + Body(f, px)
  }

  /** A header in its parts. */
  lemma HeaderParts(w: string, h: string)
    ensures Ascii(Concat(["P6\n" + w, " ", h, "\n255\n"]))
            == [80, 54, 10] + Ascii(w) + [32] + Ascii(h) + [10, 50, 53, 53, 10]
  {
    ConcatFour("P6\n" + w, " ", h, "\n255\n");
    AsciiConcat("P6\n" + w, " " + (h + "\n255\n"));
    AsciiConcat(" ", h + "\n255\n");
    AsciiConcat(h, "\n255\n");
    AsciiConcat("P6\n", w);
    assert Ascii("P6\n") == [80, 54, 10];
    assert Ascii(" ") == [32];
    assert Ascii("\n255\n") == [10, 50, 53, 53, 10];
  }

  /** What the sink writes is, to this reader, an image of the frame's size with the frame's body. */
  lemma FileIsP6(f: Frame, px: seq<u8>)
    requires Drawable(f) && ReadEnd(f) <= |px|
    ensures ReadP6(File(f, px)) == Some(Image(f.width, f.height, Body(f, px)))
    ensures |Body(f, px)| == 3 * (f.width * f.height)
  {
    var w, h := Decimal(f.width), Decimal(f.height);
    AsciiNumber(w);
    AsciiNumber(h);
    ValueOfDecimal(f.width);
    ValueOfDecimal(f.height);
    HeaderParts(w, h);
    ReadsAssembled(Ascii(w), Ascii(h), Body(f, px));
    assert File(f, px) == Assemble(Ascii(w), Ascii(h), Body(f, px));
    BodyDense(f, px, 0, 0);
  }

  /** Answers of the file system to one submit: an errno or 0 for each call; `limit` as in `WriteCode`. */
  datatype SinkEnv =
    SinkEnv(open: nat, headerOk: bool, limit: Option<nat>, flush: nat, sync: nat, close: nat, rename: nat)

  function SubmitCode(f: Frame, env: SinkEnv): int {
    if env.open != 0 then -(env.open as int)
    else if !env.headerOk then -EIO
    else if WriteCode(f, env.limit) != 0 then WriteCode(f, env.limit)
    else if env.flush != 0 then -(env.flush as int)
    else if env.sync != 0 then -(env.sync as int)
    else if env.close != 0 then -(env.close as int)
    else -(env.rename as int)
  }

  /** A submit succeeds exactly when the format is known, every step works and the stream takes every pixel. */
  lemma SubmitSucceedsIff(f: Frame, env: SinkEnv)
    ensures SubmitCode(f, env) == 0
            <==> && (f.format == 1 || f.format == 2 || f.width == 0 || f.height == 0)
                 && env.open == 0 && env.headerOk && (env.limit.Some? ==> Times(f.height, f.width) <= env.limit.value)
                 && env.flush == 0 && env.sync == 0 && env.close == 0 && env.rename == 0
  {
    EmptyRows(f.height);
  }

  /** The destination file and its temporary neighbour. `seen` records every content the destination had. */
  class Sink {
    var destination: Option<seq<u8>>
    var temporary: Option<seq<u8>>
    ghost var seen: seq<Option<seq<u8>>>

    constructor (destination: Option<seq<u8>>)
      ensures this.destination == destination && seen == [destination]
    {
      this.destination := destination;
      temporary := None;
      seen := [destination];
    }

    /**
     * `ppm_submit`. On success the destination holds the complete image of the frame, by its own account of
     * its size; on any failure it keeps its old content; an observer never finds anything else there.
     */
    method Submit(f: Frame, px: seq<u8>, env: SinkEnv) returns (result: int)
      requires ReadEnd(f) <= |px|
      modifies this
      ensures result == SubmitCode(f, env)
      ensures result == 0 ==> Drawable(f) && destination == Some(File(f, px))
      ensures result == 0 ==> ReadP6(destination.value) == Some(Image(f.width, f.height, Body(f, px)))
      ensures result != 0 ==> destination == old(destination)
      ensures seen == old(seen) + (if result == 0 then [destination] else [])
    {
      result := 0;
      if env.open != 0 {
        result := -(env.open as int);
      } else {
        temporary := Some([]);
        if env.headerOk {
          temporary := Some(Ascii(Header(f)));
        } else {
          result := -EIO;
        }
        if result == 0 {
          var pixels;
          result, pixels := WritePixels(f, px, env.limit);
          temporary := Some(temporary.value + pixels);
        }
        if result == 0 && env.flush != 0 {
          result := -(env.flush as int);
        }
        if result == 0 && env.sync != 0 {
          result := -(env.sync as int);
        }
        if env.close != 0 && result == 0 {
          result := -(env.close as int);
        }
        if result == 0 {
          if env.rename != 0 {
            result := -(env.rename as int);
          } else {
            destination, temporary := temporary, None;
            seen := seen + [destination];
            FileIsP6(f, px);
          }
        }
      }
    }
  }
}
