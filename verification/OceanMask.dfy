/** Where on earth the ocean mask is looked up: every place is judged by the mask cell that contains it. */
module OceanMask {
  import opened Common
  import opened HoleFilling
  import opened RowWindow
  import opened Quantise
  import opened BaselineFile

  /**
   * A mask of the given height covers the whole world, and the image all of it but the northernmost
   * 10 and the southernmost 30 degrees, at a whole number of pixels to a cell in both directions.
   */
  ghost predicate Aligned(l: Layout, maskHeight: nat) {
    && l.Valid() && l.width % 2 == 0
    && maskHeight % 18 == 0 && l.cropped == maskHeight / 18 * l.maskWidth
    && 9 * l.height == 7 * (maskHeight * l.Ratio())
  }

  /** The cell in row r and column c of the mask file, counted from 180 degrees west and 90 degrees north. */
  predicate InCell(l: Layout, maskHeight: nat, c: int, r: int, latitude: real, longitude: real) {
    && c as real * 360.0 <= (longitude + 180.0) * l.maskWidth as real < (c + 1) as real * 360.0
    && r as real * 180.0 <= (90.0 - latitude) * maskHeight as real < (r + 1) as real * 180.0
  }

  lemma CountsBelow(a: int, b: int, place: real, span: real)
    requires span > 0.0 && a as real * span <= place < b as real * span
    ensures a < b
  {
    if b <= a {
      ProductMonotone(b as real, a as real, span);
    }
  }

  /** Coarser steps of a whole ratio: the n-th fine step lies in the n / ratio-th coarse one. */
  lemma CoarseStep(n: nat, ratio: nat, q: int)
    requires ratio > 0 && q * ratio <= n < (q + 1) * ratio
    ensures q == n / ratio
  {
    assert n == n / ratio * ratio + n % ratio;
    if q < n / ratio {
      MulLess(q, n / ratio, ratio);
    } else if n / ratio < q {
      MulLess(n / ratio, q, ratio);
    }
  }

  /** A place at which both are counted, in steps of a span. */
  lemma CoarseSpan(place: real, span: real, n: nat, ratio: nat, q: int)
    requires ratio > 0 && span > 0.0 && n as real * span <= place < (n + 1) as real * span
    requires (q * ratio) as real * span <= place < ((q + 1) * ratio) as real * span
    ensures q == n / ratio
  {
    CountsBelow(q * ratio, n + 1, place, span);
    CountsBelow(n, (q + 1) * ratio, place, span);
    CoarseStep(n, ratio, q);
  }

  /** Columns: a place in pixel column col lies in the mask column col / ratio. */
  lemma ColumnIsCoarse(l: Layout, maskHeight: nat, col: nat, c: int, longitude: real)
    requires Aligned(l, maskHeight)
    requires WestEdge(l, col) <= longitude < WestEdge(l, col + 1)
    requires c as real * 360.0 <= (longitude + 180.0) * l.maskWidth as real < (c + 1) as real * 360.0
    ensures l.Ratio() > 0 && c == col / l.Ratio()
  {
    var place := ColumnPlace(l, col, c, longitude);
    CoarseSpan(place, 360.0, col, l.Ratio(), c);
  }

  /** The longitude from the western edge, in pixels times 360. */
  lemma ColumnPlace(l: Layout, col: int, c: int, longitude: real) returns (place: real)
    requires l.Valid() && l.width % 2 == 0 && WestEdge(l, col) <= longitude < WestEdge(l, col + 1)
    requires c as real * 360.0 <= (longitude + 180.0) * l.maskWidth as real < (c + 1) as real * 360.0
    ensures l.Ratio() > 0 && col as real * 360.0 <= place < (col + 1) as real * 360.0
    ensures (c * l.Ratio()) as real * 360.0 <= place < ((c + 1) * l.Ratio()) as real * 360.0
  {
    RatioPositive(l);
    PixelColumn(l, col, longitude);
    CellColumn(l, c, longitude);
    place := (longitude + 180.0) * l.width as real;
  }

  lemma CellColumn(l: Layout, c: int, longitude: real)
    requires l.maskWidth > 0 && l.Ratio() > 0 && l.maskWidth * l.Ratio() == l.width
    requires c as real * 360.0 <= (longitude + 180.0) * l.maskWidth as real < (c + 1) as real * 360.0
    ensures (c * l.Ratio()) as real * 360.0 <= (longitude + 180.0) * l.width as real
    ensures (longitude + 180.0) * l.width as real < ((c + 1) * l.Ratio()) as real * 360.0
  {
    Finer(longitude + 180.0, l.maskWidth as real, l.Ratio(), c);
    assert l.width as real == l.maskWidth as real * l.Ratio() as real;
  }

  lemma PixelColumn(l: Layout, col: int, longitude: real)
    requires l.width > 0 && l.width % 2 == 0 && WestEdge(l, col) <= longitude < WestEdge(l, col + 1)
    ensures col as real * 360.0 <= (longitude + 180.0) * l.width as real < (col + 1) as real * 360.0
  {
    var w := l.width as real;
    WestEdgeTimesWidth(l, col);
    WestEdgeTimesWidth(l, col + 1);
    ProductLeqIff(WestEdge(l, col), longitude, w);
    ProductLeqIff(WestEdge(l, col + 1), longitude, w);
    FromWest(longitude, w, l.width / 2, col);
  }

  /** Degrees counted from the middle of the map, counted from its western edge. */
  lemma FromWest(longitude: real, w: real, half: nat, col: int)
    requires w == 2.0 * half as real
    ensures (col - half) as real * 360.0 <= longitude * w <==> col as real * 360.0 <= (longitude + 180.0) * w
    ensures (col + 1 - half) as real * 360.0 <= longitude * w <==> (col + 1) as real * 360.0 <= (longitude + 180.0) * w
  {
    assert (longitude + 180.0) * w == longitude * w + 360.0 * half as real;
  }

  /** A grid that is finer by a whole ratio counts that many times the steps. */
  lemma Finer(degrees: real, m: real, ratio: nat, c: int)
    requires ratio > 0
    ensures var fine := degrees * (m * ratio as real);
            && (c as real * 360.0 <= degrees * m <==> (c * ratio) as real * 360.0 <= fine)
            && (c as real * 180.0 <= degrees * m <==> (c * ratio) as real * 180.0 <= fine)
            && ((c + 1) as real * 360.0 <= degrees * m <==> ((c + 1) * ratio) as real * 360.0 <= fine)
            && ((c + 1) as real * 180.0 <= degrees * m <==> ((c + 1) * ratio) as real * 180.0 <= fine)
  {
    FinerStep(degrees, m, ratio, c, 360.0);
    FinerStep(degrees, m, ratio, c, 180.0);
    FinerStep(degrees, m, ratio, c + 1, 360.0);
    FinerStep(degrees, m, ratio, c + 1, 180.0);
  }

  lemma FinerStep(degrees: real, m: real, ratio: nat, c: int, span: real)
    requires ratio > 0
    ensures c as real * span <= degrees * m <==> (c * ratio) as real * span <= degrees * (m * ratio as real)
  {
    var k := ratio as real;
    assert (c * ratio) as real == c as real * k;
    ProductLeqIff(c as real * span, degrees * m, k);
    Regroup(c as real, span, k);
    Regroup(degrees, m, k);
  }

  lemma Regroup(a: real, b: real, k: real)
    ensures a * b * k == a * k * b == a * (b * k)
  {
  }

  /** Rows: a place in pixel row row lies in the mask row row / ratio, below the cropped ones. */
  lemma RowIsCoarse(l: Layout, maskHeight: nat, row: nat, r: int, latitude: real)
    requires Aligned(l, maskHeight)
    requires NorthEdge(l, row + 1) < latitude <= NorthEdge(l, row)
    requires r as real * 180.0 <= (90.0 - latitude) * maskHeight as real < (r + 1) as real * 180.0
    ensures l.Ratio() > 0 && r == maskHeight / 18 + row / l.Ratio()
  {
    var place := RowPlace(l, maskHeight, row, r, latitude);
    CoarseSpan(place, 180.0, row, l.Ratio(), r - maskHeight / 18);
  }

  /** The latitude from 80 degrees north, in pixels times 180. */
  lemma RowPlace(l: Layout, maskHeight: nat, row: nat, r: int, latitude: real) returns (place: real)
    requires Aligned(l, maskHeight) && NorthEdge(l, row + 1) < latitude <= NorthEdge(l, row)
    requires r as real * 180.0 <= (90.0 - latitude) * maskHeight as real < (r + 1) as real * 180.0
    ensures var q := r - maskHeight / 18;
            && l.Ratio() > 0 && row as real * 180.0 <= place < (row + 1) as real * 180.0
            && (q * l.Ratio()) as real * 180.0 <= place < ((q + 1) * l.Ratio()) as real * 180.0
  {
    place := PixelRow(l, maskHeight, row, latitude);
    CellRow(latitude, maskHeight, l.Ratio(), r, place);
  }

  lemma CellRow(latitude: real, maskHeight: nat, ratio: nat, r: int, place: real)
    requires maskHeight % 18 == 0 && ratio > 0 && place == (80.0 - latitude) * (maskHeight as real * ratio as real)
    requires r as real * 180.0 <= (90.0 - latitude) * maskHeight as real < (r + 1) as real * 180.0
    ensures var q := r - maskHeight / 18; (q * ratio) as real * 180.0 <= place < ((q + 1) * ratio) as real * 180.0
  {
    BelowTheCrop(latitude, maskHeight, maskHeight / 18, r);
    Finer(80.0 - latitude, maskHeight as real, ratio, r - maskHeight / 18);
  }

  lemma PixelRow(l: Layout, maskHeight: nat, row: int, latitude: real) returns (place: real)
    requires Aligned(l, maskHeight) && NorthEdge(l, row + 1) < latitude <= NorthEdge(l, row)
    ensures l.Ratio() > 0 && place == (80.0 - latitude) * (maskHeight as real * l.Ratio() as real)
    ensures row as real * 180.0 <= place < (row + 1) as real * 180.0
  {
    RatioPositive(l);
    HeightInSevenths(l, maskHeight);
    var fine := PixelsFromNorth(l, row, latitude);
    SameScale(latitude, l.height, maskHeight, l.Ratio());
    place := (80.0 - latitude) * (maskHeight as real * l.Ratio() as real);
    assert place / 180.0 == fine / 140.0;
  }

  /** The latitude from 80 degrees north, in pixels times 140. */
  lemma PixelsFromNorth(l: Layout, row: int, latitude: real) returns (fine: real)
    requires l.height > 0 && 7 * OriginY(l) == 4 * l.height && NorthEdge(l, row + 1) < latitude <= NorthEdge(l, row)
    ensures fine == (80.0 - latitude) * l.height as real && row as real * 140.0 <= fine < (row + 1) as real * 140.0
  {
    var h := l.height as real;
    NorthEdgeTimesHeight(l, row);
    NorthEdgeTimesHeight(l, row + 1);
    ProductLeqIff(latitude, NorthEdge(l, row), h);
    ProductLeqIff(latitude, NorthEdge(l, row + 1), h);
    FromNorth(latitude, h, l.height, OriginY(l), row);
    fine := (80.0 - latitude) * h;
  }

  lemma HeightInSevenths(l: Layout, maskHeight: nat)
    requires Aligned(l, maskHeight)
    ensures 7 * OriginY(l) == 4 * l.height
  {
    SevenDivides(l.height, maskHeight * l.Ratio());
    OriginIsFloor(l.height);
    MultipleOfSevenIff(l.height, OriginY(l));
  }

  lemma SevenDivides(h: int, n: int)
    requires 9 * h == 7 * n
    ensures h % 7 == 0
  {
    assert h == 7 * (4 * n - 5 * h);
  }

  /** Degrees counted from the equator, counted from 80 degrees north. */
  lemma FromNorth(latitude: real, h: real, height: nat, origin: int, row: int)
    requires h == height as real && 7 * origin == 4 * height
    ensures latitude * h <= 140.0 * (origin - row) as real <==> row as real * 140.0 <= (80.0 - latitude) * h
    ensures latitude * h <= 140.0 * (origin - (row + 1)) as real <==> (row + 1) as real * 140.0 <= (80.0 - latitude) * h
  {
    assert 7.0 * origin as real == 4.0 * h;
    assert (80.0 - latitude) * h == 80.0 * h - latitude * h;
  }

  /** Mask rows counted from 90 degrees north, counted from 80 degrees north. */
  lemma BelowTheCrop(latitude: real, maskHeight: nat, cropped: nat, r: int)
    requires maskHeight == 18 * cropped
    ensures r as real * 180.0 <= (90.0 - latitude) * maskHeight as real <==>
            (r - cropped) as real * 180.0 <= (80.0 - latitude) * maskHeight as real
    ensures (r + 1) as real * 180.0 <= (90.0 - latitude) * maskHeight as real <==>
            (r - cropped + 1) as real * 180.0 <= (80.0 - latitude) * maskHeight as real
  {
    var m := maskHeight as real;
    assert (90.0 - latitude) * m == (80.0 - latitude) * m + 10.0 * m;
    assert 10.0 * m == 180.0 * cropped as real;
  }

  /** 140 degrees of image rows are as long as 180 degrees of mask rows times the ratio. */
  lemma SameScale(latitude: real, height: nat, maskHeight: nat, ratio: nat)
    requires 9 * height == 7 * (maskHeight * ratio)
    ensures (80.0 - latitude) * (maskHeight as real * ratio as real) / 180.0 ==
              (80.0 - latitude) * height as real / 140.0
  {
    var d, n := 80.0 - latitude, maskHeight as real * ratio as real;
    assert n == (maskHeight * ratio) as real;
    assert 9.0 * height as real == 7.0 * n;
    assert d * n == d * (9.0 * height as real / 7.0) == d * height as real * 9.0 / 7.0;
  }

  /**
   * Whether a pixel counts as land is decided by the one cell of the mask that contains the places
   * that the pixel stands for.
   */
  lemma PlaceIsJudgedByItsCell(l: Layout, maskHeight: nat, mask: File, col: nat, row: nat, c: int, r: int,
                               latitude: real, longitude: real)
    requires Aligned(l, maskHeight) && MaskFits(l, mask) && col < l.width && row < l.height
    requires InPixel(l, col, row, latitude, longitude) && InCell(l, maskHeight, c, r, latitude, longitude)
    ensures 0 <= c < l.maskWidth && 0 <= r && r * l.maskWidth + c < |mask|
    ensures LandOf(l, mask)[row][col] <==> mask[r * l.maskWidth + c] > 128
  {
    ColumnIsCoarse(l, maskHeight, col, c, longitude);
    RowIsCoarse(l, maskHeight, row, r, latitude);
    CellDecides(l, maskHeight, mask, col, row);
  }

  /** The mask file is a grid of rows and columns, of which the first rows are cropped. */
  lemma CellDecides(l: Layout, maskHeight: nat, mask: File, col: nat, row: nat)
    requires Aligned(l, maskHeight) && MaskFits(l, mask) && col < l.width && row < l.height
    ensures l.Ratio() > 0
    ensures var c, r := col / l.Ratio(), maskHeight / 18 + row / l.Ratio();
            && 0 <= c < l.maskWidth && 0 <= r && r * l.maskWidth + c < |mask|
            && (LandOf(l, mask)[row][col] <==> mask[r * l.maskWidth + c] > 128)
  {
    MaskColumnInside(l, col);
    CellIndex(l, maskHeight, row, col / l.Ratio());
    assert l.MaskOffset(row) + l.maskWidth <= |mask|;
    assert LandOf(l, mask)[row][col] == IsLand(l, mask, col, row);
  }

  lemma CellIndex(l: Layout, maskHeight: nat, row: nat, c: int)
    requires l.maskWidth > 0 && l.Ratio() > 0 && l.cropped == maskHeight / 18 * l.maskWidth
    ensures (maskHeight / 18 + row / l.Ratio()) * l.maskWidth + c == l.MaskOffset(row) + c
  {
    SumTimes(maskHeight / 18, row / l.Ratio(), l.maskWidth);
  }

  lemma SumTimes(a: int, b: int, k: int)
    ensures (a + b) * k == a * k + b * k
  {
  }

  /** The compiled-in dimensions are aligned with a mask of 5400 rows. */
  lemma ShippedIsAligned()
    ensures Aligned(SHIPPED, 5400)
  {
  }

  /**
   * End to end: a place without data of its own is refused for good where its mask cell says water,
   * and becomes answerable on land as soon as its known neighbours weigh 12.
   */
  lemma MaskDecidesAnswer(l: Layout, maskHeight: nat, raw: seq<Word>, mask: File, passes: nat, encode: real -> Bytes4,
                          lo: Word, hi: Word, file: File, meta: FileMeta, col: nat, row: nat, c: int, r: int,
                          latitude: real, longitude: real)
    requires Aligned(l, maskHeight) && l.width < 0x1_0000_0000 && l.height < 0x1_0000_0000
    requires IsPrepared(l, raw, mask, passes, encode, lo, hi, file) && Describes(meta, l)
    requires col < l.width && row < l.height
    requires InPixel(l, col, row, latitude, longitude) && InCell(l, maskHeight, c, r, latitude, longitude)
    requires Pass0(l, raw, lo, hi)[row][col] == FILL
    ensures 0 <= r && 0 <= c && r * l.maskWidth + c < |mask|
    ensures mask[r * l.maskWidth + c] <= 128 ==>
              AverageDailyETo(Some(meta), file, latitude, longitude) == Err(FillValue)
    ensures mask[r * l.maskWidth + c] > 128 && passes > 0 && WeightAround(Pass0(l, raw, lo, hi), col, row) >= 12 ==>
              AverageDailyETo(Some(meta), file, latitude, longitude).Ok?
  {
    var land, first := LandOf(l, mask), Pass0(l, raw, lo, hi);
    PlaceIsJudgedByItsCell(l, maskHeight, mask, col, row, c, r, latitude, longitude);
    ReadsItsPixel(l, file, meta, col, row, latitude, longitude);
    if !land[row][col] {
      KeptForever(land, first, passes, col, row);
    } else if passes > 0 && WeightAround(first, col, row) >= 12 {
      HoleGetsWeightedMean(land, first, col, row);
      assert Passes(land, first, 0) == first;
      KnownSetGrows(land, first, 1, passes - 1, col, row);
    }
  }
}
