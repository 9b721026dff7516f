/**
 * The data file between the preparer and the service: the preparer's main program and header, and
 * the service's reader of the average daily ETo.
 */
module BaselineFile {
  import opened Common
  import opened HoleFilling
  import opened RowWindow
  import opened FillPassStream
  import opened Quantise

  // ------------------------------------------------------------------ the header

  /** A 32-bit unsigned integer, most significant byte first. */
  function BigEndian(v: nat): (bytes: seq<Byte>)
    requires v < 0x1_0000_0000
  {
    [v / 0x100_0000, v / 0x1_0000 % 256, v / 256 % 256, v % 256]
  }

  function FromBigEndian(bytes: seq<Byte>): nat
    requires |bytes| == 4
  {
    bytes[0] as int * 0x100_0000 + bytes[1] as int * 0x1_0000 + bytes[2] as int * 256 + bytes[3] as int
  }

  function Reversed(bytes: seq<Byte>): (r: seq<Byte>) {
    seq(|bytes|, i requires 0 <= i < |bytes| => bytes[|bytes| - 1 - i])
  }

  /** How a host stores a value whose big-endian bytes are given. */
  function InMemory(bigEndian: seq<Byte>, hostIsBigEndian: bool): (bytes: seq<Byte>) {
    if hostIsBigEndian then bigEndian else Reversed(bigEndian)
  }

  /** Copies a value out of memory so that the most significant byte comes first on every host. */
  method CopyBytes(ghost value: seq<Byte>, input: seq<Byte>, output: array<Byte>, start: nat, hostIsBigEndian: bool)
    requires input == InMemory(value, hostIsBigEndian) && start + |input| <= output.Length
    modifies output
    ensures output[..] == old(output[..start]) + value + old(output[start + |input|..])
  {
    for i := 0 to |input|
      invariant forall k :: 0 <= k < output.Length ==>
                              output[k] == if start <= k < start + i then value[k - start] else old(output[k])
    {
      var index := if hostIsBigEndian then i else |input| - i - 1;
      output[start + i] := input[index];
    }
  }

  function Zeros(n: nat): (z: seq<Byte>) {
    seq(n, _ => 0)
  }

  /** The 32 header bytes: version, width, height, bit depth, minimum ETo, scaling factor, padding. */
  function HeaderBytes(l: Layout, minimumETo: seq<Byte>, scalingFactor: seq<Byte>): (header: File)
    requires l.width < 0x1_0000_0000 && l.height < 0x1_0000_0000
    requires |minimumETo| == 4 && |scalingFactor| == 4
    ensures |header| == HEADER_SIZE
  {
    [1] + BigEndian(l.width) + BigEndian(l.height) + [8] + minimumETo + scalingFactor + Zeros(14)
  }

  lemma WriteInto(done: seq<Byte>, value: seq<Byte>, n: nat)
    requires |value| <= n
    ensures (done + Zeros(n))[..|done|] + value + (done + Zeros(n))[|done| + |value|..] ==
              done + value + Zeros(n - |value|)
  {
    var file := done + Zeros(n);
    assert file[..|done|] == done;
    assert file[|done| + |value|..] == Zeros(n - |value|);
  }

  /** Copies a value into a buffer that is written up to there and zero beyond. */
  method CopyNext(header: array<Byte>, start: nat, ghost done: seq<Byte>, ghost rest: nat, value: seq<Byte>,
                  hostIsBigEndian: bool)
    requires |done| == start && |value| <= rest && header[..] == done + Zeros(rest)
    modifies header
    ensures header[..] == done + value + Zeros(rest - |value|)
  {
    assert start + |value| <= |header[..]|;
    WriteInto(done, value, rest);
    CopyBytes(value, InMemory(value, hostIsBigEndian), header, start, hostIsBigEndian);
  }

  /** The floats are given by their big-endian bytes; the host keeps all four values its own way. */
  method SetHeader(l: Layout, minimumETo: seq<Byte>, scalingFactor: seq<Byte>, hostIsBigEndian: bool)
    returns (header: array<Byte>)
    requires l.width < 0x1_0000_0000 && l.height < 0x1_0000_0000
    requires |minimumETo| == 4 && |scalingFactor| == 4
    ensures header[..] == HeaderBytes(l, minimumETo, scalingFactor)
  {
    header := new Byte[HEADER_SIZE](_ => 0);
    header[0] := 1;
    ghost var done := [1];
    assert header[..] == done + Zeros(31);
    CopyNext(header, 1, done, 31, BigEndian(l.width), hostIsBigEndian);
    done := done + BigEndian(l.width);
    CopyNext(header, 5, done, 27, BigEndian(l.height), hostIsBigEndian);
    done := done + BigEndian(l.height);
    assert header[..] == done + Zeros(23);
    header[9] := 8;
    assert header[..] == done + [8] + Zeros(22);
    done := done + [8];
    CopyNext(header, 10, done, 22, minimumETo, hostIsBigEndian);
    CopyNext(header, 14, done + minimumETo, 18, scalingFactor, hostIsBigEndian);
  }

  datatype FileMeta = FileMeta(width: nat, height: nat, minimumETo: real, scalingFactor: real, originX: int,
                               originY: int)

  datatype HeaderError = Incomplete | UnsupportedVersion | UnsupportedBitDepth

  /** The reader of the header; float32 decodes four big-endian bytes. */
  function ReadFileHeader(file: File, float32: seq<Byte> -> real): (r: Result<FileMeta, HeaderError>) {
    if |file| < 32 then Err(Incomplete)
    else if file[0] != 1 then Err(UnsupportedVersion)
    else if file[9] != 8 then Err(UnsupportedBitDepth)
    else
      var width, height := FromBigEndian(file[1..5]), FromBigEndian(file[5..9]);
      Ok(FileMeta(width, height, float32(file[10..14]), float32(file[14..18]),
                  width / 2, (height as real / 140.0 * 80.0).Floor))
  }

  /** A number from four bytes, the first of which counts most. */
  function FromBytes(file: File, at: nat): int
    requires at + 4 <= |file|
  {
    var (a: int, b: int, c: int, d: int) := (file[at], file[at + 1], file[at + 2], file[at + 3]);
    0x100_0000 * a + 0x1_0000 * b + 0x100 * c + d
  }

  /** The documented layout of the 32 header bytes. */
  lemma HeaderLayout(l: Layout, minimumETo: seq<Byte>, scalingFactor: seq<Byte>)
    requires l.width < 0x1_0000_0000 && l.height < 0x1_0000_0000
    requires |minimumETo| == 4 && |scalingFactor| == 4
    ensures var h := HeaderBytes(l, minimumETo, scalingFactor);
            && |h| == 32 && h[0] == 1 && h[9] == 8
            && FromBytes(h, 1) == l.width && FromBytes(h, 5) == l.height
            && h[10..14] == minimumETo && h[14..18] == scalingFactor
            && forall k :: 18 <= k < 32 ==> h[k] == 0
  {
    var h := HeaderBytes(l, minimumETo, scalingFactor);
    BigEndianRoundTrip(l.width);
    BigEndianRoundTrip(l.height);
    assert h[1..5] == BigEndian(l.width) && h[5..9] == BigEndian(l.height);
    assert h[1] == h[1..5][0] && h[2] == h[1..5][1] && h[3] == h[1..5][2] && h[4] == h[1..5][3];
    assert h[5] == h[5..9][0] && h[6] == h[5..9][1] && h[7] == h[5..9][2] && h[8] == h[5..9][3];
  }

  /** The reader takes exactly complete headers of version 1 with 8 bits to a pixel, and reads the documented fields. */
  lemma ReaderAcceptsIff(file: File, float32: seq<Byte> -> real)
    ensures var r := ReadFileHeader(file, float32);
            && (r.Ok? <==> |file| >= 32 && file[0] == 1 && file[9] == 8)
            && (r.Err? ==> r.error == if |file| < 32 then Incomplete
                                      else if file[0] != 1 then UnsupportedVersion else UnsupportedBitDepth)
            && (r.Ok? ==>
                  && r.value.width == FromBytes(file, 1) && r.value.height == FromBytes(file, 5)
                  && r.value.minimumETo == float32(file[10..14]) && r.value.scalingFactor == float32(file[14..18]))
  {
  }

  lemma BigEndianRoundTrip(v: nat)
    requires v < 0x1_0000_0000
    ensures FromBigEndian(BigEndian(v)) == v
  {
    assert v == v / 256 * 256 + v % 256;
    assert v / 256 == v / 256 / 256 * 256 + v / 256 % 256;
    assert v / 256 / 256 == v / 0x1_0000 && v / 0x1_0000 / 256 == v / 0x100_0000;
    assert v / 0x1_0000 == v / 0x1_0000 / 256 * 256 + v / 0x1_0000 % 256;
  }

  /** What the preparer puts in the header is what the service reads out of it. */
  lemma HeaderRoundTrip(l: Layout, minimumETo: seq<Byte>, scalingFactor: seq<Byte>, data: File,
                        float32: seq<Byte> -> real)
    requires l.width < 0x1_0000_0000 && l.height < 0x1_0000_0000
    requires |minimumETo| == 4 && |scalingFactor| == 4
    ensures var r := ReadFileHeader(HeaderBytes(l, minimumETo, scalingFactor) + data, float32);
            && r.Ok?
            && r.value.width == l.width && r.value.height == l.height
            && r.value.minimumETo == float32(minimumETo) && r.value.scalingFactor == float32(scalingFactor)
  {
    var file := HeaderBytes(l, minimumETo, scalingFactor) + data;
    assert file[1..5] == BigEndian(l.width);
    assert file[5..9] == BigEndian(l.height);
    assert file[10..14] == minimumETo;
    assert file[14..18] == scalingFactor;
    BigEndianRoundTrip(l.width);
    BigEndianRoundTrip(l.height);
  }

  // ------------------------------------------------------------------ the preparer

  /** The image that the passes start from. */
  function Pass0(l: Layout, raw: seq<Word>, lo: Word, hi: Word): (img: Image)
    requires RawFits(l, raw) && IsRange(raw[..RawStart(l, l.height)], lo, hi)
    ensures Rect(img, l.width, l.height)
  {
    RangeCovers(l, raw, lo, hi);
    ReduceImage(l, raw, lo, hi)
  }

  lemma OneMorePass(l: Layout, header: File, file: File, mask: File, first: Image, i: nat)
    requires l.Valid() && MaskFits(l, mask) && ImageFits(l, file) && |header| == HEADER_SIZE
    requires Rect(first, l.width, l.height) && ImageOf(l, file) == Passes(LandOf(l, mask), first, i)
    ensures var output := header + Flatten(FillPass(LandOf(l, mask), ImageOf(l, file)));
            && ImageFits(l, output) && output[..HEADER_SIZE] == header
            && ImageOf(l, output) == Passes(LandOf(l, mask), first, i + 1)
  {
    ImageRoundTrip(l, header, FillPass(LandOf(l, mask), ImageOf(l, file)));
  }

  type Bytes4 = bytes: seq<Byte> | |bytes| == 4 witness [0, 0, 0, 0]

  function MinimumETo(lo: Word): real {
    lo as real * 0.1 / 25.4
  }

  function ScalingFactor(lo: Word, hi: Word): real {
    0.1 * Factor(lo, hi) / 25.4
  }

  /** The file that the preparer is for; encode gives the big-endian bytes of a number rounded to single precision. */
  ghost predicate IsPrepared(l: Layout, raw: seq<Word>, mask: File, passes: nat, encode: real -> Bytes4, lo: Word,
                             hi: Word, file: File)
    requires l.Valid() && l.width < 0x1_0000_0000 && l.height < 0x1_0000_0000
  {
    && RawFits(l, raw) && MaskFits(l, mask) && ImageFits(l, file)
    && IsRange(raw[..RawStart(l, l.height)], lo, hi)
    && file[..HEADER_SIZE] == HeaderBytes(l, encode(MinimumETo(lo)), encode(ScalingFactor(lo, hi)))
    && ImageOf(l, file) == Passes(LandOf(l, mask), Pass0(l, raw, lo, hi), passes)
  }

  datatype Prepared = Exited | Prepared(output: File, minValue: Word, maxValue: Word)

  /**
   * The main program. It exits on zero passes and on a truncated file; otherwise the last file
   * holds the header and `passes` fillings of the reduced image.
   */
  method PrepareData(l: Layout, raw: seq<Word>, mask: File, passes: nat, encode: real -> Bytes4, hostIsBigEndian: bool)
    returns (r: Prepared)
    requires l.Valid() && l.width < 0x1_0000_0000 && l.height < 0x1_0000_0000
    ensures r.Prepared? <==> passes > 0 && RawFits(l, raw) && MaskFits(l, mask)
    ensures r.Prepared? ==> IsPrepared(l, raw, mask, passes, encode, r.minValue, r.maxValue, r.output)
  {
    if passes <= 0 {
      return Exited;
    }
    var ok, lo, hi := FindPixelRange(l, raw);
    if !ok {
      return Exited;
    }
    RangeCovers(l, raw, lo, hi);
    var headerArray := SetHeader(l, encode(MinimumETo(lo)), encode(ScalingFactor(lo, hi)), hostIsBigEndian);
    var header: File := headerArray[..];
    var file;
    ok, file := ReduceBitDepth(l, raw, lo, hi, header);
    ghost var first := Pass0(l, raw, lo, hi);
    ImageRoundTrip(l, header, first);
    for i := 0 to passes
      invariant ImageFits(l, file) && file[..HEADER_SIZE] == header
      invariant i > 0 ==> MaskFits(l, mask)
      invariant MaskFits(l, mask) ==> ImageOf(l, file) == Passes(LandOf(l, mask), first, i)
    {
      var pass := FillMissingPixels(l, file, mask, header);
      if pass.Failed? {
        return Exited;
      }
      OneMorePass(l, header, file, mask, first, i);
      file := pass.output;
    }
    r := Prepared(file, lo, hi);
  }

  // ------------------------------------------------------------------ the reader

  datatype ReadError = NotLoaded | OutOfBounds | ReadFailed | FillValue

  function ColumnOf(meta: FileMeta, longitude: real): int {
    (meta.originX as real + meta.width as real * longitude / 360.0).Floor
  }

  function RowNumber(meta: FileMeta, latitude: real): int {
    (meta.originY as real - meta.height as real * latitude / 140.0).Floor
  }

  /** What a data byte means. */
  function Decode(meta: FileMeta, byte: Byte): Result<real, ReadError> {
    if byte == FILL then Err(FillValue)
    else Ok((byte as real * meta.scalingFactor + meta.minimumETo) / 365.0)
  }

  function AverageDailyETo(fileMeta: Option<FileMeta>, file: File, latitude: real,
                           longitude: real): Result<real, ReadError> {
    match fileMeta
    case None => Err(NotLoaded)
    case Some(meta) =>
      var offset := RowNumber(meta, latitude) * meta.width + ColumnOf(meta, longitude);
      if offset < 0 || offset >= meta.width * meta.height then Err(OutOfBounds)
      else if offset + HEADER_SIZE >= |file| then Err(ReadFailed)
      else Decode(meta, file[offset + HEADER_SIZE])
  }

  /** The row that starts at the equator. */
  function OriginY(l: Layout): int {
    (l.height as real / 140.0 * 80.0).Floor
  }

  ghost predicate Describes(meta: FileMeta, l: Layout) {
    && meta.width == l.width && meta.height == l.height
    && meta.originX == l.width / 2
    && meta.originY == OriginY(l)
  }

  lemma OffsetInside(width: nat, height: nat, row: int, col: int)
    requires 0 <= col < width
    ensures 0 <= row * width + col < width * height <==> 0 <= row < height
  {
    if row < 0 {
      assert row * width <= -1 * width;
    } else if row >= height {
      assert row * width >= height * width;
    } else {
      assert row * width + width == (row + 1) * width <= height * width;
    }
  }

  lemma ByteOfPixel(l: Layout, file: File, row: nat, col: nat)
    requires ImageFits(l, file) && row < l.height && col < l.width
    ensures row * l.width + col + HEADER_SIZE < |file|
    ensures file[row * l.width + col + HEADER_SIZE] == ImageOf(l, file)[row][col]
  {
    RowsInside(l.width, l.height, row);
    RowStartIsOffset(l.width, row);
    assert RowOf(l, file, row)[col] == file[RowStart(l.width, row) + col];
  }

  // ------------------------------------------------------------------ places and pixels

  lemma ProductLeqIff(a: real, b: real, k: real)
    requires k > 0.0
    ensures a <= b <==> a * k <= b * k
  {
    if a <= b {
      ProductMonotone(a, b, k);
    } else {
      ProductIncreasing(b, a, k);
    }
  }

  lemma QuotientProduct(a: real, d: real)
    requires d > 0.0
    ensures a / d * d == a
  {
  }

  /** Comparing pixel counts is comparing degrees. */
  lemma ScaledLeqIff(n: real, x: real, size: real, span: real)
    requires size > 0.0 && span > 0.0
    ensures size * x / span <= n <==> x <= span * n / size
    ensures n <= size * x / span <==> span * n / size <= x
  {
    var pixels, degrees := size * x / span, span * n / size;
    QuotientProduct(size * x, span);
    QuotientProduct(span * n, size);
    assert pixels * span == x * size && degrees * size == n * span;
    ProductLeqIff(pixels, n, span);
    ProductLeqIff(x, degrees, size);
    ProductLeqIff(n, pixels, span);
    ProductLeqIff(degrees, x, size);
  }

  /** The western edge of a column and the northern edge of a row, in degrees. */
  function WestEdge(l: Layout, col: int): real
    requires l.width > 0
  {
    360.0 * (col - l.width / 2) as real / l.width as real
  }

  function NorthEdge(l: Layout, row: int): real
    requires l.height > 0
  {
    140.0 * (OriginY(l) - row) as real / l.height as real
  }

  /** The part of the world that a pixel stands for. */
  predicate InPixel(l: Layout, col: int, row: int, latitude: real, longitude: real)
    requires l.width > 0 && l.height > 0
  {
    && WestEdge(l, col) <= longitude < WestEdge(l, col + 1)
    && NorthEdge(l, row + 1) < latitude <= NorthEdge(l, row)
  }

  /** A place lies at or beyond an edge exactly when the reader counts at least that many pixels. */
  lemma EastOfEdge(l: Layout, meta: FileMeta, col: int, longitude: real)
    requires l.width > 0 && Describes(meta, l)
    ensures col <= ColumnOf(meta, longitude) <==> WestEdge(l, col) <= longitude
  {
    ScaledLeqIff((col - l.width / 2) as real, longitude, l.width as real, 360.0);
    FloorAtLeast(meta.originX, l.width as real * longitude / 360.0, col);
  }

  lemma SouthOfEdge(l: Layout, meta: FileMeta, row: int, latitude: real)
    requires l.height > 0 && Describes(meta, l)
    ensures row <= RowNumber(meta, latitude) <==> latitude <= NorthEdge(l, row)
  {
    ScaledLeqIff((meta.originY - row) as real, latitude, l.height as real, 140.0);
    FloorAtLeast(meta.originY, -(l.height as real * latitude / 140.0), row);
  }

  lemma FloorAtLeast(origin: int, shift: real, i: int)
    ensures i <= (origin as real + shift).Floor <==> (i - origin) as real <= shift
  {
  }

  lemma ColumnBox(l: Layout, meta: FileMeta, col: int, longitude: real)
    requires l.width > 0 && Describes(meta, l)
    ensures ColumnOf(meta, longitude) == col <==> WestEdge(l, col) <= longitude < WestEdge(l, col + 1)
  {
    EastOfEdge(l, meta, col, longitude);
    EastOfEdge(l, meta, col + 1, longitude);
  }

  lemma RowBox(l: Layout, meta: FileMeta, row: int, latitude: real)
    requires l.height > 0 && Describes(meta, l)
    ensures RowNumber(meta, latitude) == row <==> NorthEdge(l, row + 1) < latitude <= NorthEdge(l, row)
  {
    SouthOfEdge(l, meta, row, latitude);
    SouthOfEdge(l, meta, row + 1, latitude);
  }

  /** Without a header nothing is answered, and nothing is read beyond the end of the file. */
  lemma UnreadableIsRefused(meta: FileMeta, file: File, latitude: real, longitude: real)
    ensures AverageDailyETo(None, file, latitude, longitude) == Err(NotLoaded)
    ensures var offset := RowNumber(meta, latitude) * meta.width + ColumnOf(meta, longitude);
            0 <= offset < meta.width * meta.height && |file| <= offset + 32 ==>
              AverageDailyETo(Some(meta), file, latitude, longitude) == Err(ReadFailed)
  {
  }

  /** What the reader computes from a row and a column, which may lie outside the image. */
  lemma ReadsOffset(l: Layout, file: File, meta: FileMeta, col: nat, row: int, latitude: real, longitude: real)
    requires ImageFits(l, file) && Describes(meta, l) && col < l.width
    requires RowNumber(meta, latitude) * l.width + ColumnOf(meta, longitude) == row * l.width + col
    ensures AverageDailyETo(Some(meta), file, latitude, longitude) ==
            if 0 <= row < l.height then Decode(meta, ImageOf(l, file)[row][col]) else Err(OutOfBounds)
  {
    OffsetInside(l.width, l.height, row, col);
    if 0 <= row < l.height {
      ByteOfPixel(l, file, row, col);
    }
  }

  /**
   * The reader answers a place from exactly the pixel that stands for it, and refuses the rows that
   * the image does not have.
   */
  lemma ReadsItsPixel(l: Layout, file: File, meta: FileMeta, col: nat, row: int, latitude: real, longitude: real)
    requires l.height > 0 && ImageFits(l, file) && Describes(meta, l)
    requires col < l.width && InPixel(l, col, row, latitude, longitude)
    ensures AverageDailyETo(Some(meta), file, latitude, longitude) ==
            if 0 <= row < l.height then Decode(meta, ImageOf(l, file)[row][col]) else Err(OutOfBounds)
  {
    ColumnBox(l, meta, col, longitude);
    RowBox(l, meta, row, latitude);
    ReadsOffset(l, file, meta, col, row, latitude, longitude);
  }

  /** Even widths cover longitudes from -180 up to, but not including, 180; odd ones start half a pixel further east. */
  lemma LongitudesCovered(l: Layout)
    requires l.width > 0
    ensures WestEdge(l, 0) == if l.width % 2 == 0 then -180.0 else -180.0 + 180.0 / l.width as real
    ensures WestEdge(l, l.width) == WestEdge(l, 0) + 360.0
  {
    var k, w := l.width / 2, l.width as real;
    WestEdgeTimesWidth(l, 0);
    WestEdgeTimesWidth(l, l.width);
    if l.width % 2 == 0 {
      assert w == 2.0 * k as real;
      ProductIs(WestEdge(l, 0), -180.0, w);
    } else {
      assert w == 2.0 * k as real + 1.0;
      QuotientProduct(180.0, w);
      ProductIs(WestEdge(l, 0), -180.0 + 180.0 / w, w);
    }
    ProductIs(WestEdge(l, l.width), WestEdge(l, 0) + 360.0, w);
  }

  lemma WestEdgeTimesWidth(l: Layout, col: int)
    requires l.width > 0
    ensures WestEdge(l, col) * l.width as real == 360.0 * (col - l.width / 2) as real
  {
    QuotientProduct(360.0 * (col - l.width / 2) as real, l.width as real);
  }

  lemma ProductIs(a: real, b: real, k: real)
    requires k > 0.0 && a * k == b * k
    ensures a == b
  {
    ProductLeqIff(a, b, k);
    ProductLeqIff(b, a, k);
  }

  /**
   * The two meridians outside the covered longitudes are read from a neighbouring row: 180 itself,
   * which the coordinate filter admits, from the first pixel of the row below when the width is
   * even, and the half pixel east of -180 from the last pixel of the row above when it is odd.
   */
  lemma EdgeReadsNextRow(l: Layout, file: File, meta: FileMeta, row: int, latitude: real, longitude: real)
    requires l.width > 0 && l.height > 0 && ImageFits(l, file) && Describes(meta, l)
    requires NorthEdge(l, row + 1) < latitude <= NorthEdge(l, row) && -180.0 <= longitude <= 180.0
    requires !(WestEdge(l, 0) <= longitude < WestEdge(l, l.width))
    ensures if l.width % 2 == 0 then longitude == 180.0 else longitude < -180.0 + 180.0 / l.width as real
    ensures var (r, c) := if l.width % 2 == 0 then (row + 1, 0) else (row - 1, l.width - 1);
            AverageDailyETo(Some(meta), file, latitude, longitude) ==
            if 0 <= r < l.height then Decode(meta, ImageOf(l, file)[r][c]) else Err(OutOfBounds)
  {
    LongitudesCovered(l);
    EdgeColumn(l, longitude);
    RowBox(l, meta, row, latitude);
    ColumnBox(l, meta, if l.width % 2 == 0 then l.width else -1, longitude);
    ReadsAcrossEdge(l, file, meta, row, latitude, longitude);
  }

  /**
   * One column too far to the east is the next row's first pixel, and one too far to the west the
   * previous row's last.
   */
  lemma ReadsAcrossEdge(l: Layout, file: File, meta: FileMeta, row: int, latitude: real, longitude: real)
    requires l.width > 0 && ImageFits(l, file) && Describes(meta, l) && RowNumber(meta, latitude) == row
    requires ColumnOf(meta, longitude) == if l.width % 2 == 0 then l.width else -1
    ensures var (r, c) := if l.width % 2 == 0 then (row + 1, 0) else (row - 1, l.width - 1);
            AverageDailyETo(Some(meta), file, latitude, longitude) ==
            if 0 <= r < l.height then Decode(meta, ImageOf(l, file)[r][c]) else Err(OutOfBounds)
  {
    NextRowOffset(row, l.width);
    if l.width % 2 == 0 {
      ReadsOffset(l, file, meta, 0, row + 1, latitude, longitude);
    } else {
      ReadsOffset(l, file, meta, l.width - 1, row - 1, latitude, longitude);
    }
  }

  lemma NextRowOffset(row: int, width: int)
    ensures row * width + width == (row + 1) * width + 0 && row * width + -1 == (row - 1) * width + (width - 1)
  {
  }

  lemma EdgeColumn(l: Layout, longitude: real)
    requires l.width > 0 && -180.0 <= longitude <= 180.0 && !(WestEdge(l, 0) <= longitude < WestEdge(l, l.width))
    ensures if l.width % 2 == 0 then longitude == 180.0 && WestEdge(l, l.width) <= longitude < WestEdge(l, l.width + 1)
            else longitude < WestEdge(l, 0) && WestEdge(l, -1) <= longitude
  {
    var w := l.width as real;
    LongitudesCovered(l);
    OnePixel(l, l.width);
    OnePixel(l, -1);
    QuotientPositive(180.0, w);
  }

  /** A column is 360 / width degrees wide. */
  lemma OnePixel(l: Layout, col: int)
    requires l.width > 0
    ensures WestEdge(l, col + 1) == WestEdge(l, col) + 2.0 * (180.0 / l.width as real)
  {
    var w := l.width as real;
    WestEdgeTimesWidth(l, col);
    WestEdgeTimesWidth(l, col + 1);
    QuotientProduct(180.0, w);
    ProductIs(WestEdge(l, col + 1), WestEdge(l, col) + 2.0 * (180.0 / w), w);
  }

  lemma QuotientPositive(a: real, d: real)
    requires a > 0.0 && d > 0.0
    ensures a / d > 0.0
  {
  }

  lemma NorthEdgeTimesHeight(l: Layout, row: int)
    requires l.height > 0
    ensures NorthEdge(l, row) * l.height as real == 140.0 * (OriginY(l) - row) as real
  {
    QuotientProduct(140.0 * (OriginY(l) - row) as real, l.height as real);
  }

  /**
   * The rows cover 140 degrees, from at most 80 degrees north and less than one row below that: from
   * exactly 80 down to, but not including, 60 south if and only if the height is a multiple of 7.
   */
  lemma LatitudesCovered(l: Layout, meta: FileMeta, latitude: real)
    requires l.height > 0 && Describes(meta, l)
    ensures 0 <= RowNumber(meta, latitude) < l.height <==> NorthEdge(l, 0) - 140.0 < latitude <= NorthEdge(l, 0)
    ensures 80.0 - 140.0 / l.height as real < NorthEdge(l, 0) <= 80.0
    ensures NorthEdge(l, 0) == 80.0 <==> l.height % 7 == 0
  {
    SouthOfEdge(l, meta, 0, latitude);
    SouthOfEdge(l, meta, l.height, latitude);
    SouthernEdge(l);
    NorthernEdge(l);
  }

  lemma SouthernEdge(l: Layout)
    requires l.height > 0
    ensures NorthEdge(l, l.height) == NorthEdge(l, 0) - 140.0
  {
    NorthEdgeTimesHeight(l, 0);
    NorthEdgeTimesHeight(l, l.height);
    ProductIs(NorthEdge(l, l.height), NorthEdge(l, 0) - 140.0, l.height as real);
  }

  lemma NorthernEdge(l: Layout)
    requires l.height > 0
    ensures 80.0 - 140.0 / l.height as real < NorthEdge(l, 0) <= 80.0
    ensures NorthEdge(l, 0) == 80.0 <==> l.height % 7 == 0
  {
    NorthEdgeTimesHeight(l, 0);
    QuotientProduct(140.0, l.height as real);
    OriginIsFloor(l.height);
    EdgeIn(NorthEdge(l, 0), l.height, OriginY(l), 140.0 / l.height as real);
  }

  lemma OriginIsFloor(height: nat)
    ensures var origin := (height as real / 140.0 * 80.0).Floor; 7 * origin <= 4 * height < 7 * origin + 7
  {
  }

  /** The arithmetic of NorthernEdge, with row for the height of one row in degrees. */
  lemma EdgeIn(edge: real, height: nat, origin: int, row: real)
    requires height > 0 && 7 * origin <= 4 * height < 7 * origin + 7
    requires edge * height as real == 140.0 * origin as real && row * height as real == 140.0
    ensures 80.0 - row < edge <= 80.0
    ensures edge == 80.0 <==> height % 7 == 0
  {
    var h := height as real;
    RowsBelow80(origin, height);
    Between(80.0, edge, row, h, 140.0, 140.0 * origin as real);
    MultipleOfSevenIff(height, origin);
  }

  lemma RowsBelow80(origin: int, height: nat)
    requires 7 * origin <= 4 * height < 7 * origin + 7
    ensures 80.0 * height as real - 140.0 < 140.0 * origin as real <= 80.0 * height as real
    ensures 80.0 * height as real <= 140.0 * origin as real <==> 4 * height == 7 * origin
  {
    assert (7 * origin) as real == 7.0 * origin as real && (4 * height) as real == 4.0 * height as real;
  }

  lemma Between(top: real, edge: real, row: real, h: real, rowH: real, edgeH: real)
    requires h > 0.0 && row * h == rowH && edge * h == edgeH && top * h - rowH < edgeH <= top * h
    ensures top - row < edge <= top
    ensures edge == top <==> top * h <= edgeH
  {
    ProductLeqIff(edge, top, h);
    ProductLeqIff(top, edge, h);
    RemovedRow(top, row, h);
    ProductLeqIff(edge, top - row, h);
  }

  lemma RemovedRow(a: real, b: real, k: real)
    ensures (a - b) * k == a * k - b * k
  {
  }

  lemma MultipleOfSevenIff(height: nat, origin: int)
    requires 7 * origin <= 4 * height < 7 * origin + 7
    ensures 7 * origin == 4 * height <==> height % 7 == 0
  {
    if 7 * origin == 4 * height {
      assert height == 7 * (2 * origin - height);
    }
    if height % 7 == 0 {
      assert height == 7 * (height / 7);
    }
  }

  // ------------------------------------------------------------------ end to end

  /** A raw pixel counts tenths of a millimetre a year; the service answers in inches a day. */
  function RawDailyETo(p: Word): real {
    p as real * 0.1 / 25.4 / 365.0
  }

  /** A number after rounding with the given relative error. */
  predicate Rounds(exact: real, rounded: real, error: real) {
    -(error * exact) <= rounded - exact <= error * exact
  }

  lemma RoundedSum(b: real, factor: real, minimum: real, factorR: real, minimumR: real, error: real)
    requires b >= 0.0 && factor >= 0.0 && minimum >= 0.0 && error >= 0.0
    requires Rounds(factor, factorR, error) && Rounds(minimum, minimumR, error)
    ensures Rounds(b * factor + minimum, b * factorR + minimumR, error)
  {
    var d := factorR - factor;
    ProductMonotone(d, error * factor, b);
    ProductMonotone(-(error * factor), d, b);
    assert error * factor * b == error * (b * factor);
    assert b * factorR == b * factor + d * b;
  }

  /**
   * An answer that falls short of the raw pixel's daily ETo by at least 0 and less than a bucket,
   * give or take the error.
   */
  ghost predicate NearRaw(p: Word, lo: Word, hi: Word, answer: real, error: real) {
    var slack := error * RawDailyETo(p);
    -slack <= RawDailyETo(p) - answer < ScalingFactor(lo, hi) / 365.0 + slack
  }

  lemma ShortByLessThanBucket(b: real, f: real, lo: real, p: real, s: real)
    requires 0.0 <= p - (b * f + lo) < f && s == 0.1 * f / 25.4
    ensures 0.0 <= p * 0.1 / 25.4 - (b * s + lo * 0.1 / 25.4) < s
  {
    ScaleProduct(b, f, s);
    var product := b * f;
    assert b * s == product * 0.1 / 25.4;
  }

  lemma ScaleProduct(b: real, f: real, s: real)
    requires s == 0.1 * f / 25.4
    ensures b * s == b * f * 0.1 / 25.4
  {
  }

  lemma NearPerYear(exact: real, decoded: real, raw: real, bucket: real, error: real)
    requires 0.0 <= raw - exact < bucket && error >= 0.0 && Rounds(exact, decoded, error)
    ensures -(error * raw) <= raw - decoded < bucket + error * raw
  {
    ProductMonotone(exact, raw, error);
    assert exact * error <= raw * error;
  }

  lemma PerDay(error: real, raw: real)
    ensures error * (raw / 365.0) == error * raw / 365.0
  {
  }

  /** The arithmetic of DecodedNearRaw, with s, m and raw for the factor, the minimum and the pixel in inches a year. */
  lemma DecodedNear(b: real, f: real, lo: real, p: real, s: real, m: real, raw: real, sR: real, mR: real, error: real)
    requires 0.0 <= p - (b * f + lo) < f && b >= 0.0 && s >= 0.0 && m >= 0.0 && error >= 0.0
    requires s == 0.1 * f / 25.4 && m == lo * 0.1 / 25.4 && raw == p * 0.1 / 25.4
    requires Rounds(s, sR, error) && Rounds(m, mR, error)
    ensures var slack := error * (raw / 365.0);
            -slack <= raw / 365.0 - (b * sR + mR) / 365.0 < s / 365.0 + slack
  {
    ShortByLessThanBucket(b, f, lo, p, s);
    RoundedSum(b, s, m, sR, mR, error);
    NearPerYear(b * s + m, b * sR + mR, raw, s, error);
    PerDay(error, raw);
  }

  lemma ByteDecodedNear(p: Word, lo: Word, hi: Word, b: Byte, meta: FileMeta, error: real)
    requires b != FILL && lo <= hi && error >= 0.0
    requires 0.0 <= p as real - (b as real * Factor(lo, hi) + lo as real) < Factor(lo, hi)
    requires Rounds(MinimumETo(lo), meta.minimumETo, error) && Rounds(ScalingFactor(lo, hi), meta.scalingFactor, error)
    ensures Decode(meta, b).Ok? && NearRaw(p, lo, hi, Decode(meta, b).value, error)
  {
    DecodedNear(b as real, Factor(lo, hi), lo as real, p as real, ScalingFactor(lo, hi), MinimumETo(lo),
                p as real * 0.1 / 25.4, meta.scalingFactor, meta.minimumETo, error);
  }

  lemma DecodedNearRaw(p: Word, lo: Word, hi: Word, meta: FileMeta, error: real)
    requires lo <= p <= hi && IsValid(hi) && ReducePixel(p, lo, hi) != FILL && error >= 0.0
    requires Rounds(MinimumETo(lo), meta.minimumETo, error) && Rounds(ScalingFactor(lo, hi), meta.scalingFactor, error)
    ensures var r := Decode(meta, ReducePixel(p, lo, hi));
            r.Ok? && NearRaw(p, lo, hi, r.value, error)
  {
    ScaleBack(p, lo, hi);
    ByteDecodedNear(p, lo, hi, ReducePixel(p, lo, hi), meta, error);
  }

  /** What the reader finds in a prepared file's header. */
  lemma PreparedHeader(l: Layout, raw: seq<Word>, mask: File, passes: nat, encode: real -> Bytes4, lo: Word, hi: Word,
                       file: File, float32: seq<Byte> -> real)
    requires l.Valid() && l.width < 0x1_0000_0000 && l.height < 0x1_0000_0000
    requires IsPrepared(l, raw, mask, passes, encode, lo, hi, file)
    ensures var meta := ReadFileHeader(file, float32);
            && meta.Ok? && Describes(meta.value, l)
            && meta.value.minimumETo == float32(encode(MinimumETo(lo)))
            && meta.value.scalingFactor == float32(encode(ScalingFactor(lo, hi)))
  {
    assert file == file[..HEADER_SIZE] + file[HEADER_SIZE..];
    HeaderRoundTrip(l, encode(MinimumETo(lo)), encode(ScalingFactor(lo, hi)), file[HEADER_SIZE..], float32);
  }

  /** A valid raw pixel that the reduction does not saturate. */
  predicate Survives(p: Word, lo: Word, hi: Word) {
    p <= 65528 && 256 * (p - lo) < 255 * (hi - lo + 1)
  }

  /**
   * From the raw image to the answer: the service accepts the prepared file's header, and answers
   * every place in the box of a raw pixel that is valid and not saturated with that pixel's own
   * daily ETo, less by under one bucket, up to the relative error of the two floats in the header.
   */
  lemma PreparedPixelIsAnswered(l: Layout, raw: seq<Word>, mask: File, passes: nat, encode: real -> Bytes4, lo: Word,
                                hi: Word, file: File, float32: seq<Byte> -> real, error: real,
                                col: nat, row: nat, latitude: real, longitude: real)
    requires l.Valid() && l.width < 0x1_0000_0000 && l.height < 0x1_0000_0000
    requires IsPrepared(l, raw, mask, passes, encode, lo, hi, file)
    requires error >= 0.0 && Rounds(MinimumETo(lo), float32(encode(MinimumETo(lo))), error)
    requires Rounds(ScalingFactor(lo, hi), float32(encode(ScalingFactor(lo, hi))), error)
    requires col < l.width && row < l.height && InPixel(l, col, row, latitude, longitude)
    ensures RawStart(l, row + 1) <= |raw| && ReadFileHeader(file, float32).Ok?
    ensures var p, meta := RawRow(l, raw, row)[col], ReadFileHeader(file, float32).value;
            var r := AverageDailyETo(Some(meta), file, latitude, longitude);
            Survives(p, lo, hi) ==> r.Ok? && NearRaw(p, lo, hi, r.value, error)
  {
    PreparedHeader(l, raw, mask, passes, encode, lo, hi, file, float32);
    RawRowsInside(l, row);
    var meta, p := ReadFileHeader(file, float32).value, RawRow(l, raw, row)[col];
    if Survives(p, lo, hi) {
      SurvivorIsRead(l, raw, mask, passes, lo, hi, file, meta, col, row, latitude, longitude);
      DecodedNearRaw(p, lo, hi, meta, error);
    }
  }

  /** The byte that a surviving pixel was reduced to is the one that its places are answered from. */
  lemma SurvivorIsRead(l: Layout, raw: seq<Word>, mask: File, passes: nat, lo: Word, hi: Word, file: File,
                       meta: FileMeta, col: nat, row: nat, latitude: real, longitude: real)
    requires l.Valid() && RawFits(l, raw) && MaskFits(l, mask) && ImageFits(l, file)
    requires IsRange(raw[..RawStart(l, l.height)], lo, hi)
    requires ImageOf(l, file) == Passes(LandOf(l, mask), Pass0(l, raw, lo, hi), passes) && Describes(meta, l)
    requires col < l.width && row < l.height && RawStart(l, row + 1) <= |raw|
    requires Survives(RawRow(l, raw, row)[col], lo, hi)
    requires InPixel(l, col, row, latitude, longitude)
    ensures var p := RawRow(l, raw, row)[col];
            && lo <= p <= hi && IsValid(hi) && ReducePixel(p, lo, hi) != FILL
            && AverageDailyETo(Some(meta), file, latitude, longitude) == Decode(meta, ReducePixel(p, lo, hi))
  {
    ReadsItsPixel(l, file, meta, col, row, latitude, longitude);
    SurvivorIsKept(l, raw, mask, passes, lo, hi, col, row);
  }

  /** No pass touches the byte of a raw pixel that survives the reduction. */
  lemma SurvivorIsKept(l: Layout, raw: seq<Word>, mask: File, passes: nat, lo: Word, hi: Word, col: nat, row: nat)
    requires l.Valid() && MaskFits(l, mask) && RawFits(l, raw) && IsRange(raw[..RawStart(l, l.height)], lo, hi)
    requires col < l.width && row < l.height && RawStart(l, row + 1) <= |raw|
    requires Survives(RawRow(l, raw, row)[col], lo, hi)
    ensures var p, first := RawRow(l, raw, row)[col], Pass0(l, raw, lo, hi);
            && lo <= p <= hi && IsValid(hi) && ReducePixel(p, lo, hi) != FILL
            && Passes(LandOf(l, mask), first, passes)[row][col] == ReducePixel(p, lo, hi)
  {
    RawRowsInside(l, row);
    var p, first := RawRow(l, raw, row)[col], Pass0(l, raw, lo, hi);
    RangeCovers(l, raw, lo, hi);
    assert raw[..RawStart(l, l.height)][RawStart(l, row) + col] == p;
    ReduceToFill(p, lo, hi);
    assert first[row][col] == ReducePixel(p, lo, hi);
    KeptForever(LandOf(l, mask), first, passes, col, row);
  }

  /** The raw pixels that survive the reduction lie between two of them. */
  ghost predicate SurvivorsWithin(l: Layout, raw: seq<Word>, lo: Word, hi: Word, least: Word, greatest: Word) {
    forall y: nat, x ::
      y < l.height && RawStart(l, y + 1) <= |raw| && 0 <= x < l.width && Survives(RawRow(l, raw, y)[x], lo, hi) ==>
        least <= RawRow(l, raw, y)[x] <= greatest
  }

  /** So do the bytes that the passes start from. */
  lemma FirstBytesWithin(l: Layout, raw: seq<Word>, lo: Word, hi: Word, least: Word, greatest: Word)
    requires RawFits(l, raw) && IsRange(raw[..RawStart(l, l.height)], lo, hi) && IsValid(hi)
    requires lo <= least <= greatest <= hi && SurvivorsWithin(l, raw, lo, hi, least, greatest)
    ensures Within(Pass0(l, raw, lo, hi), ReducePixel(least, lo, hi), ReducePixel(greatest, lo, hi))
  {
    var first := Pass0(l, raw, lo, hi);
    forall x, y | Known(first, x, y)
      ensures ReducePixel(least, lo, hi) <= first[y][x] <= ReducePixel(greatest, lo, hi)
    {
      RowInRange(l, raw, lo, hi, y);
      var p := RawRow(l, raw, y)[x];
      assert first[y][x] == ReducePixel(p, lo, hi);
      assert IsValid(p);
      ReduceToFill(p, lo, hi);
      ReduceMonotone(least, p, lo, hi);
      ReduceMonotone(p, greatest, lo, hi);
    }
  }

  lemma DecodeMonotone(meta: FileMeta, a: Byte, b: Byte)
    requires a <= b && b != FILL && meta.scalingFactor >= 0.0
    ensures a != FILL && Decode(meta, a).value <= Decode(meta, b).value
  {
    ProductMonotone(a as real, b as real, meta.scalingFactor);
  }

  /**
   * Filled places included, the service answers nothing below the answer for the least raw pixel
   * that survives the reduction and nothing above the answer for the greatest.
   */
  lemma AnswersBetweenSurvivors(l: Layout, raw: seq<Word>, mask: File, passes: nat, encode: real -> Bytes4, lo: Word,
                                hi: Word, file: File, meta: FileMeta, least: Word, greatest: Word,
                                col: nat, row: nat, latitude: real, longitude: real)
    requires l.Valid() && l.width < 0x1_0000_0000 && l.height < 0x1_0000_0000
    requires IsPrepared(l, raw, mask, passes, encode, lo, hi, file) && Describes(meta, l) && meta.scalingFactor >= 0.0
    requires lo <= least <= greatest <= hi && IsValid(hi) && Survives(least, lo, hi) && Survives(greatest, lo, hi)
    requires SurvivorsWithin(l, raw, lo, hi, least, greatest)
    requires col < l.width && row < l.height && InPixel(l, col, row, latitude, longitude)
    ensures var a, b := Decode(meta, ReducePixel(least, lo, hi)), Decode(meta, ReducePixel(greatest, lo, hi));
            var r := AverageDailyETo(Some(meta), file, latitude, longitude);
            a.Ok? && b.Ok? && (r.Ok? ==> a.value <= r.value <= b.value)
  {
    ReadsItsPixel(l, file, meta, col, row, latitude, longitude);
    FirstBytesWithin(l, raw, lo, hi, least, greatest);
    MaximumPrinciple(LandOf(l, mask), Pass0(l, raw, lo, hi), passes, ReducePixel(least, lo, hi),
                     ReducePixel(greatest, lo, hi));
    ReduceToFill(least, lo, hi);
    ReduceToFill(greatest, lo, hi);
    var byte := ImageOf(l, file)[row][col];
    if byte != FILL {
      assert Known(ImageOf(l, file), col, row);
      DecodeMonotone(meta, ReducePixel(least, lo, hi), byte);
      DecodeMonotone(meta, byte, ReducePixel(greatest, lo, hi));
    }
  }

  /** The dimensions that the preparer is built with. */
  const SHIPPED := Layout(43200, 16800, 10800, 10800 * 5400 * 10 / 180)

  /** They satisfy every assumption made above, and the 10800 by 5400 mask covers the whole image. */
  lemma ShippedLayoutFits(mask: File)
    requires |mask| == 10800 * 5400
    ensures SHIPPED.Valid() && MaskFits(SHIPPED, mask)
    ensures SHIPPED.width % 2 == 0 && SHIPPED.height % 7 == 0
    ensures SHIPPED.width < 0x1_0000_0000 && SHIPPED.height < 0x1_0000_0000
  {
    RatioPositive(SHIPPED);
    MaskFitsByLastRow(SHIPPED, mask);
  }
}
