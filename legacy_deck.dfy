/** The older driver revision (streamdeck.go): a 15-key panel with 72 px
    buttons, images serialised pixel by pixel into two write messages whose
    first one embeds a BMP header, and a whole-panel image cut into one tile
    per button. The device is reduced to the list of buffers written to it. */
module LegacyDeck {
  import opened Common

  /** Edge length of a button, in pixels. */
  const ButtonSize := 72

  /** Pixels carried by the first and by the second message of a button. */
  const NumFirstMsgPixels := 2583
  const NumSecondMsgPixels := 2601

  /** Bytes of one serialised button image: three channels per pixel. */
  const ImageBytes := ButtonSize * ButtonSize * 3

  /** This revision's own profile: no button size (it is `ButtonSize`), no
      image format and no key conversion. */
  datatype Config = Config(productId: uint16, columns: int, rows: int, spacer: int)

  const Original := Config(0x80, 5, 3, 19)

  function NumButtons(c: Config): (n: int)
    ensures c.rows >= 0 && c.columns >= 0 ==> n >= 0
    ensures c.columns > 0 && c.rows > 0 ==> n >= c.rows && n >= c.columns
  {
    c.rows * c.columns
  }

  /** Panel width, spacers included: the right edge of the last column. */
  function PanelWidth(c: Config): (w: int)
    ensures w == (c.columns - 1) * (ButtonSize + c.spacer) + ButtonSize
  {
    c.columns * ButtonSize + c.spacer * (c.columns - 1)
  }

  /** Panel height, spacers included: the bottom edge of the last row. */
  function PanelHeight(c: Config): (h: int)
    ensures h == (c.rows - 1) * (ButtonSize + c.spacer) + ButtonSize
  {
    c.rows * ButtonSize + c.spacer * (c.rows - 1)
  }

  lemma OriginalGeometry()
    ensures NumButtons(Original) == 15 && PanelWidth(Original) == 436 && PanelHeight(Original) == 254
  {
  }

  // ---------------------------------------------------------------------
  // Input validation

  datatype BtnState = BtnPressed | BtnReleased | BtnLongPressed

  datatype DeckError = InvalidKeyIndex | InvalidColorRange

  /** `checkRGB`: a colour component must fit in eight bits. */
  function CheckRGB(value: int): (r: Outcome<DeckError>)
    ensures r.Pass? <==> 0 <= value <= 255
    ensures r.Fail? ==> r.error == InvalidColorRange
  {
    if value < 0 || value > 255 then Fail(InvalidColorRange) else Pass
  }

  /** `checkValidKeyIndex`: rejects negative indices and indices above
      `NumButtons`; as written it lets `NumButtons` itself through. */
  function CheckValidKeyIndex(c: Config, keyIndex: int): (r: Outcome<DeckError>)
    ensures r.Pass? <==> 0 <= keyIndex <= NumButtons(c)
    ensures r.Fail? ==> r.error == InvalidKeyIndex
  {
    if keyIndex < 0 || keyIndex > NumButtons(c) then Fail(InvalidKeyIndex) else Pass
  }

  /** The index one past the last button passes the check. */
  lemma OnePastLastKeyAccepted(c: Config)
    ensures CheckValidKeyIndex(c, NumButtons(c)).Pass? == (NumButtons(c) >= 0)
    ensures CheckValidKeyIndex(c, NumButtons(c) + 1).Fail?
  {
  }

  /** `itob`: a report byte of 0 means released, anything else pressed. */
  function Itob(i: int): (s: BtnState)
    ensures s == BtnReleased <==> i == 0
    ensures s != BtnLongPressed
  {
    if i == 0 then BtnReleased else BtnPressed
  }

  // ---------------------------------------------------------------------
  // Images

  datatype Point = Point(x: int, y: int)

  /** A rectangle as Go's `image.Rectangle`: `min` inclusive, `max` exclusive. */
  datatype Rect = Rect(min: Point, max: Point)

  function Dx(r: Rect): int { r.max.x - r.min.x }

  /** A colour as `RGBA()` returns it: 16 bits per channel. */
  datatype Color = Color(r: int, g: int, b: int, a: int)

  const Transparent := Color(0, 0, 0, 0)

  /** An image: its bounds and its `At` function. */
  datatype Image = Image(bounds: Rect, at: (int, int) -> Color)

  /** The 72 x 72 RGBA image `FillColor` draws: every pixel is the 8-bit
      colour `(r, g, b, 0)`, which `RGBA()` widens to 16 bits by `* 0x101`;
      outside the bounds an RGBA image reports transparent black. */
  function SolidButton(r: byte, g: byte, b: byte): (img: Image)
    ensures Dx(img.bounds) == ButtonSize
  {
    Image(Rect(Point(0, 0), Point(ButtonSize, ButtonSize)),
          (x: int, y: int) =>
            if 0 <= x < ButtonSize && 0 <= y < ButtonSize then Color(r * 0x101, g * 0x101, b * 0x101, 0)
            else Transparent)
  }

  /** Where the three bytes of pixel (x, row) start: rows ascend, and within
      a row x descends from 71 to 0. */
  function PixelOffset(x: int, row: int): int {
    3 * (row * ButtonSize + (ButtonSize - 1 - x))
  }

  /** Byte `k` of the serialised image: channel `k % 3` of pixel
      `k / 3`, where the channels are taken in the order r, b, g and each
      keeps the low byte of its 16-bit value. */
  function SerialByte(img: Image, k: int): byte
    requires 0 <= k < ImageBytes
  {
    var p := k / 3;
    var c := img.at(ButtonSize - 1 - p % ButtonSize, p / ButtonSize);
    if k % 3 == 0 then ToByte(c.r) else if k % 3 == 1 then ToByte(c.b) else ToByte(c.g)
  }

  /** The pixel buffer `FillImage` builds for a 72-wide image. */
  function Serialize(img: Image): (buf: seq<byte>)
    ensures |buf| == ImageBytes
  {
    seq(ImageBytes, k requires 0 <= k < ImageBytes => SerialByte(img, k))
  }

  /** The three bytes at `PixelOffset(x, row)` are pixel (x, row)'s r, b, g. */
  lemma SerialTriple(img: Image, x: int, row: int)
    requires 0 <= x < ButtonSize && 0 <= row < ButtonSize
    ensures 0 <= PixelOffset(x, row) && PixelOffset(x, row) + 3 <= ImageBytes
    ensures var o, c := PixelOffset(x, row), img.at(x, row);
            && SerialByte(img, o) == ToByte(c.r)
            && SerialByte(img, o + 1) == ToByte(c.b)
            && SerialByte(img, o + 2) == ToByte(c.g)
  {
    var p := row * 72 + (71 - x);
    DivModUnique(p, 72, row, 71 - x);
    DivModUnique(3 * p, 3, p, 0);
    DivModUnique(3 * p + 1, 3, p, 1);
    DivModUnique(3 * p + 2, 3, p, 2);
  }

  /** In the serialised buffer pixel (x, row) holds (r, b, g) of the image. */
  lemma PixelTriple(img: Image, x: int, row: int)
    requires 0 <= x < ButtonSize && 0 <= row < ButtonSize
    ensures var o, c := PixelOffset(x, row), img.at(x, row);
            0 <= o && o + 3 <= ImageBytes && Serialize(img)[o..o + 3] == [ToByte(c.r), ToByte(c.b), ToByte(c.g)]
  {
    SerialTriple(img, x, row);
  }

  /** Serialisation order: a pixel comes earlier exactly when its row is
      smaller, or its row is the same and its x is larger. */
  lemma PixelOrder(x1: int, row1: int, x2: int, row2: int)
    requires 0 <= x1 < ButtonSize && 0 <= row1 < ButtonSize
    requires 0 <= x2 < ButtonSize && 0 <= row2 < ButtonSize
    ensures PixelOffset(x1, row1) < PixelOffset(x2, row2) <==> row1 < row2 || (row1 == row2 && x1 > x2)
    ensures PixelOffset(x1, row1) == PixelOffset(x2, row2) <==> row1 == row2 && x1 == x2
  {
  }

  /** A solid button serialises to its colour's bytes (r, b, g) repeated. */
  lemma SolidButtonBytes(r: byte, g: byte, b: byte, k: int)
    requires 0 <= k < ImageBytes
    ensures Serialize(SolidButton(r, g, b))[k] == [r, b, g][k % 3]
  {
    var p := k / 3;
    assert 0 <= p / ButtonSize < ButtonSize;
    var c := Color(r * 0x101, g * 0x101, b * 0x101, 0);
    assert ToByte(c.r) == r by { DivModUnique(r * 0x101, 256, r, r); }
    assert ToByte(c.g) == g by { DivModUnique(g * 0x101, 256, g, g); }
    assert ToByte(c.b) == b by { DivModUnique(b * 0x101, 256, b, b); }
  }

  /** The nested loop of `FillImage` that appends (r, b, g) per pixel. */
  method EncodeButton(img: Image) returns (buf: seq<byte>)
    ensures buf == Serialize(img)
  {
    buf := [];
    var row := 0;
    while row < ButtonSize
      invariant 0 <= row <= ButtonSize
      invariant |buf| == 3 * 72 * row
      invariant forall k :: 0 <= k < |buf| ==> buf[k] == SerialByte(img, k)
    {
      var line := ButtonSize - 1;
      while line >= 0
        invariant -1 <= line < ButtonSize
        invariant |buf| == 3 * (72 * row + 71 - line)
        invariant forall k :: 0 <= k < |buf| ==> buf[k] == SerialByte(img, k)
      {
        var c := img.at(line, row);
        SerialTriple(img, line, row);
        buf := buf + [ToByte(c.r), ToByte(c.b), ToByte(c.g)];
        line := line - 1;
      }
      row := row + 1;
    }
  }

  /** The split of the pixel buffer into the payloads of the two messages. */
  function SplitPages(buf: seq<byte>): (pages: (seq<byte>, seq<byte>))
    requires |buf| == ImageBytes
    ensures |pages.0| == NumFirstMsgPixels * 3 && |pages.1| == NumSecondMsgPixels * 3
    ensures pages.0 + pages.1 == buf
    ensures NumFirstMsgPixels + NumSecondMsgPixels == ButtonSize * ButtonSize
  {
    (buf[..NumFirstMsgPixels * 3], buf[NumFirstMsgPixels * 3..])
  }

  // ---------------------------------------------------------------------
  // Messages

  /** Little-endian 16- and 32-bit fields. */
  function LE16(p: seq<byte>, i: int): int
    requires 0 <= i && i + 2 <= |p|
  {
    var lo: int, hi: int := p[i], p[i + 1];
    lo + 256 * hi
  }

  function LE32(p: seq<byte>, i: int): int
    requires 0 <= i && i + 4 <= |p|
  {
    LE16(p, i) + 0x1_0000 * LE16(p, i + 2)
  }

  /** The six-byte report header of an image message: report 2, command 1,
      the page number, a zero, the last-page flag, and the device's button
      number `btnIndex + 1` truncated to a byte. */
  function ReportHeader(page: byte, last: byte, btnIndex: int): (h: seq<byte>)
    ensures |h| == 6 && h[5] == ToByte(btnIndex + 1)
  {
    [0x02, 0x01, page, 0x00, last, ToByte(btnIndex + 1)]
  }

  function Zeros(n: nat): (z: seq<byte>)
    ensures |z| == n && forall i :: 0 <= i < n ==> z[i] == 0
  {
    seq(n, _ => 0)
  }

  /** BITMAPFILEHEADER of a 72 x 72, 24-bit bitmap. */
  const BmpFileHeader: seq<byte> :=
    [0x42, 0x4D]                  // bfType
    + [0xF6, 0x3C, 0x00, 0x00]    // bfSize
    + [0x00, 0x00, 0x00, 0x00]    // bfReserved1, bfReserved2
    + [0x36, 0x00, 0x00, 0x00]    // bfOffBits

  /** BITMAPINFOHEADER of a 72 x 72, 24-bit bitmap at 3780 pixels per metre. */
  const BmpInfoHeader: seq<byte> :=
    [0x28, 0x00, 0x00, 0x00]      // biSize
    + [0x48, 0x00, 0x00, 0x00]    // biWidth
    + [0x48, 0x00, 0x00, 0x00]    // biHeight
    + [0x01, 0x00]                // biPlanes
    + [0x18, 0x00]                // biBitCount
    + [0x00, 0x00, 0x00, 0x00]    // biCompression
    + [0xC0, 0x3C, 0x00, 0x00]    // biSizeImage
    + [0xC4, 0x0E, 0x00, 0x00]    // biXPelsPerMeter
    + [0xC4, 0x0E, 0x00, 0x00]    // biYPelsPerMeter
    + [0x00, 0x00, 0x00, 0x00]    // biClrUsed
    + [0x00, 0x00, 0x00, 0x00]    // biClrImportant

  /** The file header: "BM", a file of both headers plus the pixel buffer,
      and the pixel data right after the headers. */
  lemma BmpFileHeaderFields()
    ensures |BmpFileHeader| == 14
    ensures BmpFileHeader[0] == 'B' as int && BmpFileHeader[1] == 'M' as int
    ensures LE32(BmpFileHeader, 2) == 14 + 40 + ImageBytes
    ensures LE32(BmpFileHeader, 6) == 0
    ensures LE32(BmpFileHeader, 10) == 14 + 40
  {
  }

  /** The info header's geometry: its own size of 40 bytes, 72 x 72 pixels,
      one plane and 24 bits per pixel. */
  lemma BmpInfoHeaderGeometry()
    ensures |BmpInfoHeader| == 40
    ensures LE32(BmpInfoHeader, 0) == |BmpInfoHeader|
    ensures LE32(BmpInfoHeader, 4) == ButtonSize && LE32(BmpInfoHeader, 8) == ButtonSize
    ensures LE16(BmpInfoHeader, 12) == 1 && LE16(BmpInfoHeader, 14) == 24
  {
  }

  /** The info header's sizes: no compression, an image of exactly the
      pixel buffer's size, 3780 pixels per metre, and no palette. */
  lemma BmpInfoHeaderSizes()
    ensures |BmpInfoHeader| == 40
    ensures LE32(BmpInfoHeader, 16) == 0
    ensures LE32(BmpInfoHeader, 20) == ImageBytes
    ensures LE32(BmpInfoHeader, 24) == 3780 && LE32(BmpInfoHeader, 28) == 3780
    ensures LE32(BmpInfoHeader, 32) == 0 && LE32(BmpInfoHeader, 36) == 0
  {
  }

  /** Where the BMP headers start inside the first message. */
  const BmpStart := 16

  /** Prefix of the first message: the report header of page 1, ten zero
      bytes, the BMP file and info headers, and two zero bytes. */
  function Msg1Prefix(btnIndex: int): (p: seq<byte>)
    ensures |p| == 72
  {
    ReportHeader(0x01, 0x00, btnIndex) + Zeros(10) + BmpFileHeader + BmpInfoHeader + Zeros(2)
  }

  /** The first prefix starts `02 01 01 00 00`, then the button number; the
      BMP headers sit at `BmpStart`, surrounded by zero bytes. */
  lemma Msg1PrefixLayout(btnIndex: int)
    ensures var p := Msg1Prefix(btnIndex);
            && p[..6] == [0x02, 0x01, 0x01, 0x00, 0x00, ToByte(btnIndex + 1)]
            && (forall i :: 6 <= i < BmpStart ==> p[i] == 0)
            && p[BmpStart..BmpStart + 14] == BmpFileHeader
            && p[BmpStart + 14..BmpStart + 54] == BmpInfoHeader
            && p[BmpStart + 54] == 0 && p[BmpStart + 55] == 0
  {
    var p := Msg1Prefix(btnIndex);
    assert p[..6] == ReportHeader(0x01, 0x00, btnIndex);
    assert p[BmpStart..BmpStart + 14] == BmpFileHeader;
    assert p[BmpStart + 14..BmpStart + 54] == BmpInfoHeader;
  }

  /** Prefix of the second message: the report header of page 2 with the
      last-page flag set, and twelve zero bytes. */
  function Msg2Prefix(btnIndex: int): (p: seq<byte>)
    ensures |p| == 18
  {
    ReportHeader(0x02, 0x01, btnIndex) + Zeros(12)
  }

  /** The second prefix starts `02 01 02 00 01`, then the button number,
      and the rest is zero. */
  lemma Msg2PrefixLayout(btnIndex: int)
    ensures var p := Msg2Prefix(btnIndex);
            && p[..6] == [0x02, 0x01, 0x02, 0x00, 0x01, ToByte(btnIndex + 1)]
            && forall i :: 6 <= i < |p| ==> p[i] == 0
  {
    var p := Msg2Prefix(btnIndex);
    assert p[..6] == ReportHeader(0x02, 0x01, btnIndex);
  }

  /** The two buffers one button image is written as, in order. */
  function ButtonWrites(btnIndex: int, buf: seq<byte>): (w: seq<seq<byte>>)
    requires |buf| == ImageBytes
    ensures |w| == 2
  {
    var pages := SplitPages(buf);
    [Msg1Prefix(btnIndex) + pages.0, Msg2Prefix(btnIndex) + pages.1]
  }

  /** Page 1 goes first under the page-1 header, page 2 second under the
      last-page header, both naming button `btnIndex + 1`; removing the two
      prefixes gives the pixel buffer back. */
  lemma ButtonWritesFraming(btnIndex: int, buf: seq<byte>)
    requires |buf| == ImageBytes
    ensures var w := ButtonWrites(btnIndex, buf);
            && |w[0]| == 72 + NumFirstMsgPixels * 3 && |w[1]| == 18 + NumSecondMsgPixels * 3
            && w[0][..5] == [2, 1, 1, 0, 0] && w[1][..5] == [2, 1, 2, 0, 1]
            && w[0][5] == w[1][5] == ToByte(btnIndex + 1)
            && w[0][72..] + w[1][18..] == buf
  {
    var pages, m1, m2 := SplitPages(buf), Msg1Prefix(btnIndex), Msg2Prefix(btnIndex);
    Msg1PrefixLayout(btnIndex);
    Msg2PrefixLayout(btnIndex);
    assert (m1 + pages.0)[..5] == m1[..5] && (m1 + pages.0)[5] == m1[5];
    assert (m2 + pages.1)[..5] == m2[..5] && (m2 + pages.1)[5] == m2[5];
    assert (m1 + pages.0)[|m1|..] == pages.0 && (m2 + pages.1)[|m2|..] == pages.1;
  }

  /** The buffer of a black button, as `ClearBtn` sends it. */
  function BlackButton(): (buf: seq<byte>)
    ensures |buf| == ImageBytes
  {
    Serialize(SolidButton(0, 0, 0))
  }

  /** The writes of `ClearAllBtns` for the buttons `n - 1` down to `from`. */
  function ClearSequence(n: int, from: int): (w: seq<seq<byte>>)
    decreases n - from
  {
    if from >= n then [] else ClearSequence(n, from + 1) + ButtonWrites(from, BlackButton())
  }

  /** `ClearAllBtns` clears every button once, from the highest index down:
      writes `2j` and `2j + 1` address button `n - 1 - j`. */
  lemma {:induction false} ClearSequenceOrder(n: int, from: int)
    requires 0 <= from <= n
    ensures |ClearSequence(n, from)| == 2 * (n - from)
    ensures forall j :: 0 <= j < n - from ==>
              ClearSequence(n, from)[2 * j..2 * j + 2] == ButtonWrites(n - 1 - j, BlackButton())
    decreases n - from
  {
    if from < n {
      ClearSequenceOrder(n, from + 1);
      var rest, last := ClearSequence(n, from + 1), ButtonWrites(from, BlackButton());
      assert ClearSequence(n, from) == rest + last;
      forall j | 0 <= j < n - from
        ensures ClearSequence(n, from)[2 * j..2 * j + 2] == ButtonWrites(n - 1 - j, BlackButton())
      {
        if j < n - from - 1 {
          assert (rest + last)[2 * j..2 * j + 2] == rest[2 * j..2 * j + 2];
        } else {
          assert (rest + last)[2 * j..2 * j + 2] == last;
        }
      }
    }
  }

  /** Clearing from `from` is clearing from `from + 1`, then button `from`. */
  lemma ClearStep(n: int, from: int)
    requires 0 <= from < n
    ensures ClearSequence(n, from) == ClearSequence(n, from + 1) + ButtonWrites(from, BlackButton())
  {
  }

  lemma AppendAssociative<T>(a: seq<T>, b: seq<T>, c: seq<T>)
    ensures a + b + c == a + (b + c)
  {
  }

  /** Every pixel `ClearAllBtns` sends is black. */
  lemma BlackButtonIsZero()
    ensures forall k :: 0 <= k < ImageBytes ==> BlackButton()[k] == 0
  {
    forall k | 0 <= k < ImageBytes ensures BlackButton()[k] == 0 {
      SolidButtonBytes(0, 0, 0, k);
    }
  }

  // ---------------------------------------------------------------------
  // Panel tiling

  /** One step of `FillPanel`: the button a sub-image goes to, and the
      rectangle of the panel image it is cut from. */
  datatype Tile = Tile(button: int, rect: Rect)

  /** The rectangle of `FillPanel` for (row, col), exactly as written: the
      columns are counted from the right edge of the panel, and `max` is
      `min + ButtonSize - 1` on both axes. */
  function TileRect(c: Config, row: int, col: int): Rect {
    Rect(Point(PanelWidth(c) - ButtonSize - col * ButtonSize - col * c.spacer,
               row * ButtonSize + row * c.spacer),
         Point(PanelWidth(c) - 1 - col * ButtonSize - col * c.spacer,
               ButtonSize - 1 + row * ButtonSize + row * c.spacer))
  }

  /** Tile (row, col) starts `(columns - 1 - col)` pitches from the left and
      `row` pitches from the top, spans `ButtonSize - 1` on each axis, and
      lies inside the panel. */
  lemma TileGeometry(c: Config, row: int, col: int)
    requires 0 <= row < c.rows && 0 <= col < c.columns && c.spacer >= 0
    ensures var t := TileRect(c, row, col);
            && t.min.x == (c.columns - 1 - col) * (ButtonSize + c.spacer)
            && t.min.y == row * (ButtonSize + c.spacer)
            && t.max.x == t.min.x + ButtonSize - 1 && t.max.y == t.min.y + ButtonSize - 1
            && 0 <= t.min.x && t.max.x < PanelWidth(c)
            && 0 <= t.min.y && t.max.y < PanelHeight(c)
  {
    var pitch := ButtonSize + c.spacer;
    assert col * ButtonSize + col * c.spacer == col * pitch;
    assert row * ButtonSize + row * c.spacer == row * pitch;
    assert (c.columns - 1) * pitch - col * pitch == (c.columns - 1 - col) * pitch;
    MulMonotone(0, c.columns - 1 - col, pitch);
    MulMonotone(row, c.rows - 1, pitch);
    MulMonotone(0, row, pitch);
    MulMonotone(0, col, pitch);
  }

  /** Tiles of distinct cells do not overlap. */
  lemma TilesDisjoint(c: Config, row1: int, col1: int, row2: int, col2: int)
    requires 0 <= row1 < c.rows && 0 <= col1 < c.columns
    requires 0 <= row2 < c.rows && 0 <= col2 < c.columns
    requires (row1, col1) != (row2, col2) && c.spacer >= 0
    ensures var t1, t2 := TileRect(c, row1, col1), TileRect(c, row2, col2);
            t1.max.x < t2.min.x || t2.max.x < t1.min.x || t1.max.y < t2.min.y || t2.max.y < t1.min.y
  {
    TileGeometry(c, row1, col1);
    TileGeometry(c, row2, col2);
    var pitch := ButtonSize + c.spacer;
    var a1, a2 := c.columns - 1 - col1, c.columns - 1 - col2;
    if a1 < a2 {
      PitchApart(a1, a2, pitch);
    } else if a2 < a1 {
      PitchApart(a2, a1, pitch);
    } else if row1 < row2 {
      PitchApart(row1, row2, pitch);
    } else {
      PitchApart(row2, row1, pitch);
    }
  }

  /** Two different multiples of a pitch are at least one pitch apart. */
  lemma PitchApart(a: int, b: int, pitch: int)
    requires a < b && pitch >= 0
    ensures a * pitch + pitch <= b * pitch
  {
    MulMonotone(a + 1, b, pitch);
    assert (a + 1) * pitch == a * pitch + pitch;
  }

  /** Each tile of `tiles` is the one for its own counter value. */
  ghost predicate TilesSoFar(c: Config, tiles: seq<Tile>)
    requires c.columns > 0
  {
    forall i :: 0 <= i < |tiles| ==> tiles[i] == Tile(i, TileRect(c, i / c.columns, i % c.columns))
  }

  /** Appending the tile of cell (row, col) at counter `row * columns + col`
      keeps `TilesSoFar`. */
  lemma TileAppended(c: Config, tiles: seq<Tile>, row: int, col: int)
    requires 0 <= row && 0 <= col < c.columns && |tiles| == row * c.columns + col
    requires TilesSoFar(c, tiles)
    ensures TilesSoFar(c, tiles + [Tile(|tiles|, TileRect(c, row, col))])
  {
    DivModUnique(|tiles|, c.columns, row, col);
    var next := tiles + [Tile(|tiles|, TileRect(c, row, col))];
    assert forall i :: 0 <= i < |tiles| ==> next[i] == tiles[i];
  }

  /** The nested loops of `FillPanel`: row by row, column by column, the
      counter naming the button each tile goes to. */
  method PanelTiles(c: Config) returns (tiles: seq<Tile>)
    ensures c.rows <= 0 || c.columns <= 0 ==> tiles == []
    ensures c.rows > 0 && c.columns > 0 ==> |tiles| == NumButtons(c)
    ensures c.columns > 0 ==> TilesSoFar(c, tiles)
  {
    tiles := [];
    var counter := 0;
    var row := 0;
    while row < c.rows
      invariant 0 <= row <= Max(c.rows, 0)
      invariant counter == |tiles|
      invariant c.columns > 0 ==> |tiles| == row * c.columns && TilesSoFar(c, tiles)
      invariant c.columns <= 0 ==> tiles == []
    {
      var col := 0;
      while col < c.columns
        invariant 0 <= col <= Max(c.columns, 0)
        invariant counter == |tiles|
        invariant c.columns > 0 ==> counter == row * c.columns + col && TilesSoFar(c, tiles)
        invariant c.columns <= 0 ==> tiles == []
      {
        var rect := TileRect(c, row, col);
        TileAppended(c, tiles, row, col);
        tiles := tiles + [Tile(counter, rect)];
        counter := counter + 1;
        col := col + 1;
      }
      assert c.columns > 0 ==> row * c.columns + c.columns == (row + 1) * c.columns;
      row := row + 1;
    }
  }

  /** Tile `row * columns + col` is the one of cell (row, col), for every
      cell of the grid. */
  lemma TileOfCell(c: Config, tiles: seq<Tile>, row: int, col: int)
    requires 0 <= row < c.rows && 0 <= col < c.columns
    requires |tiles| == NumButtons(c) && TilesSoFar(c, tiles)
    ensures var i := row * c.columns + col;
            0 <= i < |tiles| && tiles[i] == Tile(i, TileRect(c, row, col))
  {
    CellIndex(c, row, col);
  }

  /** Cell (row, col) has the row-major index `row * columns + col`, which
      names a button and gives the cell back by division. */
  lemma CellIndex(c: Config, row: int, col: int)
    requires 0 <= row < c.rows && 0 <= col < c.columns
    ensures 0 <= row * c.columns + col < NumButtons(c)
    ensures (row * c.columns + col) / c.columns == row && (row * c.columns + col) % c.columns == col
  {
    MulMonotone(row + 1, c.rows, c.columns);
    DivModUnique(row * c.columns + col, c.columns, row, col);
  }

  // ---------------------------------------------------------------------
  // The device session

  /** The button table of `NewStreamDeck`: one entry per button index in
      `[0, n)`, each released. */
  ghost predicate AllReleased(table: map<int, BtnState>, n: int) {
    && (forall i :: i in table <==> 0 <= i < n)
    && (forall i :: i in table ==> table[i] == BtnReleased)
  }

  /** `StreamDeck`: the profile it was opened with, the state of each
      button, and every buffer handed to the device's `Write`, in order. */
  class StreamDeck {
    const config: Config
    var buttons: map<int, BtnState>
    var written: seq<seq<byte>>

    /** `NewStreamDeck` once the device is open: every button released,
        then every button cleared to black. */
    constructor Open(c: Config)
      ensures config == c
      ensures AllReleased(buttons, NumButtons(c))
      ensures written == ClearSequence(NumButtons(c), 0)
    {
      config := c;
      written := [];
      var table := map[];
      var i := 0;
      while i < NumButtons(c)
        invariant 0 <= i <= Max(NumButtons(c), 0)
        invariant AllReleased(table, i)
      {
        table := table[i := BtnReleased];
        i := i + 1;
      }
      buttons := table;
      new;
      ClearAllBtns();
    }

    /** `writeMsg1`: the first message of a button. */
    method WriteMsg1(btnIndex: int, page: seq<byte>)
      modifies this`written
      ensures written == old(written) + [Msg1Prefix(btnIndex) + page]
    {
      written := written + [Msg1Prefix(btnIndex) + page];
    }

    /** `writeMsg2`: the second message of a button. */
    method WriteMsg2(btnIndex: int, page: seq<byte>)
      modifies this`written
      ensures written == old(written) + [Msg2Prefix(btnIndex) + page]
    {
      written := written + [Msg2Prefix(btnIndex) + page];
    }

    /** `FillImage` for an image already 72 pixels wide: validate the index,
        serialise, split, and write message 1 then message 2. */
    method FillImage(btnIndex: int, img: Image) returns (err: Outcome<DeckError>)
      requires Dx(img.bounds) == ButtonSize
      modifies this`written
      ensures err == CheckValidKeyIndex(config, btnIndex)
      ensures err.Fail? ==> written == old(written)
      ensures err.Pass? ==> written == old(written) + ButtonWrites(btnIndex, Serialize(img))
    {
      err := CheckValidKeyIndex(config, btnIndex);
      if err.Fail? {
        return;
      }
      var imgBuf := EncodeButton(img);
      var pages := SplitPages(imgBuf);
      WriteMsg1(btnIndex, pages.0);
      WriteMsg2(btnIndex, pages.1);
    }

    /** `FillColor`: every component is checked before anything is drawn or
        written; then the solid image goes through `FillImage`. */
    method FillColor(btnIndex: int, r: int, g: int, b: int) returns (err: Outcome<DeckError>)
      modifies this`written
      ensures !(0 <= r <= 255 && 0 <= g <= 255 && 0 <= b <= 255) ==>
                err == Fail(InvalidColorRange) && written == old(written)
      ensures 0 <= r <= 255 && 0 <= g <= 255 && 0 <= b <= 255 ==>
                && err == CheckValidKeyIndex(config, btnIndex)
                && (err.Fail? ==> written == old(written))
                && (err.Pass? ==> written == old(written) + ButtonWrites(btnIndex, Serialize(SolidButton(r, g, b))))
    {
      err := CheckRGB(r);
      if err.Fail? {
        return;
      }
      err := CheckRGB(g);
      if err.Fail? {
        return;
      }
      err := CheckRGB(b);
      if err.Fail? {
        return;
      }
      err := FillImage(btnIndex, SolidButton(r, g, b));
    }

    /** `ClearBtn`: validate the index, then fill the button with black. */
    method ClearBtn(btnIndex: int) returns (err: Outcome<DeckError>)
      modifies this`written
      ensures err == CheckValidKeyIndex(config, btnIndex)
      ensures err.Fail? ==> written == old(written)
      ensures err.Pass? ==> written == old(written) + ButtonWrites(btnIndex, BlackButton())
    {
      err := CheckValidKeyIndex(config, btnIndex);
      if err.Fail? {
        return;
      }
      err := FillColor(btnIndex, 0, 0, 0);
    }

    /** `ClearAllBtns`: clear the buttons from the last index down to 0. */
    method ClearAllBtns()
      modifies this`written
      ensures written == old(written) + ClearSequence(NumButtons(config), 0)
    {
      var n := NumButtons(config);
      var i := n - 1;
      while i >= 0
        invariant i < n && (i >= -1 || i == n - 1)
        invariant written == old(written) + ClearSequence(n, i + 1)
      {
        ghost var done := ClearSequence(n, i + 1);
        var _ := ClearBtn(i);
        ClearStep(n, i);
        AppendAssociative(old(written), done, ButtonWrites(i, BlackButton()));
        i := i - 1;
      }
      assert ClearSequence(n, i + 1) == ClearSequence(n, 0);
    }
  }
}
