/**
 * The first two stages of the preparer: the range of the valid 16-bit pixels, and the linear
 * reduction of that range to bytes.
 */
module Quantise {
  import opened Common
  import opened HoleFilling
  import opened RowWindow
  import opened FillPassStream

  type Word = w: int | 0 <= w < 0x1_0000

  /** Pixels above this value carry no data. */
  const LAST_VALID: Word := 65528

  predicate IsValid(p: Word) {
    p <= LAST_VALID
  }

  // ------------------------------------------------------------------ stage 1: the pixel range

  /** lo and hi are the least and greatest valid pixels; crossed initial values when there are none. */
  ghost predicate IsRange(pixels: seq<Word>, lo: Word, hi: Word) {
    && (forall p <- pixels :: IsValid(p) ==> lo <= p <= hi)
    && ((lo == 0xFFFF && hi == 0 && (forall p <- pixels :: !IsValid(p)))
        || (lo in pixels && hi in pixels && IsValid(lo) && IsValid(hi)))
  }

  /** The range is that of the pixels up to 65528, and crossed where there are none. */
  lemma RangeOfValidPixels(pixels: seq<Word>, lo: Word, hi: Word)
    requires IsRange(pixels, lo, hi)
    ensures if exists p :: p in pixels && p <= 65528
            then lo in pixels && hi in pixels && hi <= 65528 && forall p <- pixels | p <= 65528 :: lo <= p <= hi
            else lo == 65535 && hi == 0
  {
  }

  method ScanRange(buffer: seq<Word>, ghost before: seq<Word>, lo: Word, hi: Word)
    returns (minValue: Word, maxValue: Word)
    requires IsRange(before, lo, hi)
    ensures IsRange(before + buffer, minValue, maxValue)
  {
    minValue, maxValue := lo, hi;
    assert before + buffer[..0] == before;
    for x := 0 to |buffer|
      invariant IsRange(before + buffer[..x], minValue, maxValue)
    {
      var pixel := buffer[x];
      assert before + buffer[..x + 1] == before + buffer[..x] + [pixel];
      if pixel > LAST_VALID {
        continue;
      }
      minValue := if pixel < minValue then pixel else minValue;
      maxValue := if pixel > maxValue then pixel else maxValue;
    }
    assert buffer[..|buffer|] == buffer;
  }

  /** Reads the raw image row by row; exits when it is truncated. */
  method FindPixelRange(l: Layout, raw: seq<Word>) returns (ok: bool, minValue: Word, maxValue: Word)
    ensures ok <==> RawFits(l, raw)
    ensures ok ==> IsRange(raw[..RawStart(l, l.height)], minValue, maxValue)
  {
    minValue, maxValue := 0xFFFF, 0;
    var inputFile := new Stream(raw);
    for y := 0 to l.height
      invariant inputFile.pos == RawStart(l, y) <= |raw|
      invariant IsRange(raw[..RawStart(l, y)], minValue, maxValue)
    {
      var buffer;
      ghost var start := RawStart(l, y);
      ok, buffer := inputFile.Read(l.width);
      RawRowsInside(l, y);
      if !ok {
        return;
      }
      minValue, maxValue := ScanRange(buffer, raw[..start], minValue, maxValue);
      assert raw[..start] + buffer == raw[..start + l.width];
    }
    ok := true;
  }

  // ------------------------------------------------------------------ stage 2: the pixel map

  /** bitReductionFactor; a quotient by a power of two, hence exact. */
  function Factor(lo: Word, hi: Word): real {
    (hi - lo + 1) as real / 256.0
  }

  /** The truncating quotient of a valid pixel, as the program computes it. */
  function ReducePixel(p: Word, lo: Word, hi: Word): Byte
    requires IsValid(p) ==> lo <= p <= hi
  {
    if p > LAST_VALID then FILL
    else
      ReduceIsQuotient(p, lo, hi);
      ((p - lo) as real / Factor(lo, hi)).Floor
  }

  /** Pixels above 65528 become the fill value, and the others the quotient of their range by 256. */
  lemma ReducedPixel(p: Word, lo: Word, hi: Word)
    requires p <= 65528 ==> lo <= p <= hi
    ensures p > 65528 ==> ReducePixel(p, lo, hi) == 255
    ensures p <= 65528 ==> ReducePixel(p, lo, hi) == 256 * (p - lo) / (hi - lo + 1)
  {
    if p <= 65528 {
      ReduceIsQuotient(p, lo, hi);
    }
  }

  lemma RealQuotient(a: real, n: real)
    requires n > 0.0
    ensures a / (n / 256.0) * n == 256.0 * a
  {
    var v := a / (n / 256.0);
    assert v * (n / 256.0) == a;
    assert v * (n / 256.0) == v * n / 256.0;
  }

  lemma FloorFromProduct(v: real, n: nat, q: int, m: int)
    requires n > 0 && v * (n as real) == m as real
    requires q * n <= m < q * n + n
    ensures v.Floor == q
  {
    assert (q as real) * (n as real) == (q * n) as real;
    assert (q as real + 1.0) * (n as real) == (q * n + n) as real;
    if v < q as real {
      ProductIncreasing(v, q as real, n as real);
    }
    if v >= q as real + 1.0 {
      ProductMonotone(q as real + 1.0, v, n as real);
    }
    assert q as real <= v < q as real + 1.0;
  }

  lemma RealQuotientFloor(a: nat, n: nat)
    requires n > 0
    ensures (a as real / (n as real / 256.0)).Floor == 256 * a / n
  {
    RealQuotient(a as real, n as real);
    FloorFromProduct(a as real / (n as real / 256.0), n, 256 * a / n, 256 * a);
  }

  lemma ReduceIsQuotient(p: Word, lo: Word, hi: Word)
    requires lo <= p <= hi
    ensures Factor(lo, hi) > 0.0
    ensures ((p - lo) as real / Factor(lo, hi)).Floor == 256 * (p - lo) / (hi - lo + 1)
    ensures 0 <= 256 * (p - lo) / (hi - lo + 1) < 256
  {
    var n := hi - lo + 1;
    RealQuotientFloor(p - lo, n);
    QuotientBound(256 * (p - lo), n, 256);
  }

  lemma QuotientBound(a: nat, n: nat, bound: nat)
    requires n > 0 && a < bound * n
    ensures 0 <= a / n < bound
  {
    if bound <= a / n {
      MulLess(bound - 1, a / n, n);
    }
  }

  ghost predicate RowCovered(row: seq<Word>, lo: Word, hi: Word) {
    forall x :: 0 <= x < |row| && IsValid(row[x]) ==> lo <= row[x] <= hi
  }

  /** Every valid pixel of every row that the file has lies in the range. */
  ghost predicate Covers(l: Layout, raw: seq<Word>, lo: Word, hi: Word) {
    forall y: nat :: y < l.height && RawStart(l, y + 1) <= |raw| ==> RowCovered(RawRow(l, raw, y), lo, hi)
  }

  /** Where row y of the raw image starts, in words. */
  function RawStart(l: Layout, y: nat): (start: nat) {
    if y == 0 then 0 else RawStart(l, y - 1) + l.width
  }

  lemma {:induction false} RawRowsInside(l: Layout, y: nat, rows: nat := l.height)
    requires y < rows
    ensures RawStart(l, y) + l.width == RawStart(l, y + 1) <= RawStart(l, rows)
  {
    if y + 1 < rows {
      RawRowsInside(l, y, rows - 1);
    }
  }

  predicate RawFits(l: Layout, raw: seq<Word>) {
    RawStart(l, l.height) <= |raw|
  }

  function RawRow(l: Layout, raw: seq<Word>, y: nat): (row: seq<Word>)
    requires y < l.height && RawStart(l, y + 1) <= |raw|
    ensures |row| == l.width
  {
    RawRowsInside(l, y);
    raw[RawStart(l, y)..RawStart(l, y) + l.width]
  }

  lemma InRange(pixels: seq<Word>, lo: Word, hi: Word, i: nat)
    requires IsRange(pixels, lo, hi) && i < |pixels| && IsValid(pixels[i])
    ensures lo <= pixels[i] <= hi
  {
    assert pixels[i] in pixels;
  }

  lemma RowInRange(l: Layout, raw: seq<Word>, lo: Word, hi: Word, y: nat)
    requires RawFits(l, raw) && IsRange(raw[..RawStart(l, l.height)], lo, hi) && y < l.height
    ensures RawStart(l, y + 1) <= |raw| && RowCovered(RawRow(l, raw, y), lo, hi)
  {
    RawRowsInside(l, y);
    var row, start := RawRow(l, raw, y), RawStart(l, y);
    forall x | 0 <= x < |row| && IsValid(row[x]) ensures lo <= row[x] <= hi {
      InRange(raw[..RawStart(l, l.height)], lo, hi, start + x);
    }
  }

  lemma RangeCovers(l: Layout, raw: seq<Word>, lo: Word, hi: Word)
    requires RawFits(l, raw) && IsRange(raw[..RawStart(l, l.height)], lo, hi)
    ensures Covers(l, raw, lo, hi)
  {
    forall y: nat | y < l.height && RawStart(l, y + 1) <= |raw| ensures RowCovered(RawRow(l, raw, y), lo, hi) {
      RowInRange(l, raw, lo, hi, y);
    }
  }

  function ReduceRow(row: seq<Word>, lo: Word, hi: Word): (out: seq<Byte>)
    requires RowCovered(row, lo, hi)
    ensures |out| == |row|
  {
    seq(|row|, x requires 0 <= x < |row| => ReducePixel(row[x], lo, hi))
  }

  /** The whole reduced image, pixel by pixel. */
  function ReduceImage(l: Layout, raw: seq<Word>, lo: Word, hi: Word): (img: Image)
    requires RawFits(l, raw) && Covers(l, raw, lo, hi)
    ensures Rect(img, l.width, l.height)
  {
    seq(l.height, y requires 0 <= y < l.height => (RawRowsInside(l, y); ReduceRow(RawRow(l, raw, y), lo, hi)))
  }

  method WriteReducedRow(inputBuffer: seq<Word>, lo: Word, hi: Word) returns (row: seq<Byte>)
    requires RowCovered(inputBuffer, lo, hi)
    ensures row == ReduceRow(inputBuffer, lo, hi)
  {
    var outputBuffer := new Byte[|inputBuffer|];
    for x := 0 to |inputBuffer|
      invariant forall k :: 0 <= k < x ==> outputBuffer[k] == ReducePixel(inputBuffer[k], lo, hi)
    {
      var originalPixel := inputBuffer[x];
      outputBuffer[x] := ReducePixel(originalPixel, lo, hi);
    }
    row := outputBuffer[..];
  }

  /** Reads the raw image again, row by row, and writes the reduced image behind the header. */
  method ReduceBitDepth(l: Layout, raw: seq<Word>, lo: Word, hi: Word, header: File) returns (ok: bool, output: File)
    requires Covers(l, raw, lo, hi)
    ensures ok <==> RawFits(l, raw)
    ensures ok ==> output == header + Flatten(ReduceImage(l, raw, lo, hi))
  {
    var originalFile := new Stream(raw);
    output := header;
    ghost var img := if RawFits(l, raw) then ReduceImage(l, raw, lo, hi) else [];
    for y := 0 to l.height
      invariant originalFile.pos == RawStart(l, y) <= |raw|
      invariant RawFits(l, raw) ==> output == header + Flatten(img[..y])
    {
      var inputBuffer;
      ok, inputBuffer := originalFile.Read(l.width);
      RawRowsInside(l, y);
      if !ok {
        return;
      }
      assert inputBuffer == RawRow(l, raw, y);
      var row := WriteReducedRow(inputBuffer, lo, hi);
      output := output + row;
      if RawFits(l, raw) {
        FlattenNext(header, img, y);
      }
    }
    assert RawFits(l, raw) ==> img[..l.height] == img;
    ok := true;
  }

  // ------------------------------------------------------------------ what the reduction keeps

  lemma QuotientMonotone(a: nat, b: nat, n: nat)
    requires n > 0 && a <= b
    ensures a / n <= b / n
  {
    if b / n < a / n {
      MulLess(b / n, a / n, n);
    }
  }

  lemma ReduceMonotone(p: Word, q: Word, lo: Word, hi: Word)
    requires lo <= p <= q <= hi && IsValid(hi)
    ensures ReducePixel(p, lo, hi) <= ReducePixel(q, lo, hi)
  {
    ReduceIsQuotient(p, lo, hi);
    ReduceIsQuotient(q, lo, hi);
    QuotientMonotone(256 * (p - lo), 256 * (q - lo), hi - lo + 1);
  }

  lemma QuotientAtLeast(a: nat, n: nat, k: nat)
    requires n > 0
    ensures a / n >= k <==> a >= k * n
  {
    if a / n < k {
      MulLess(a / n, k, n);
    } else if k < a / n {
      MulLess(k, a / n, n);
    }
  }

  /** A valid pixel turns into the fill value exactly at this threshold. */
  lemma ReduceToFill(p: Word, lo: Word, hi: Word)
    requires lo <= p <= hi && IsValid(hi)
    ensures ReducePixel(p, lo, hi) == FILL <==> 256 * (p - lo) >= 255 * (hi - lo + 1)
  {
    ReduceIsQuotient(p, lo, hi);
    QuotientAtLeast(256 * (p - lo), hi - lo + 1, 255);
  }

  /**
   * The comment on findPixelRange says that the minimum maps to 0 and the maximum to 254. The
   * minimum does; the maximum does exactly when the range holds 128 to 255 values, and from 256
   * values on it is lost to the fill value.
   */
  lemma RangeEnds(lo: Word, hi: Word)
    requires lo <= hi && IsValid(hi)
    ensures ReducePixel(lo, lo, hi) == 0
    ensures ReducePixel(hi, lo, hi) == 254 <==> 128 <= hi - lo + 1 < 256
    ensures ReducePixel(hi, lo, hi) == FILL <==> hi - lo + 1 >= 256
  {
    var n := hi - lo + 1;
    ReduceIsQuotient(lo, lo, hi);
    ReduceIsQuotient(hi, lo, hi);
    QuotientAtLeast(256 * (hi - lo), n, 254);
    QuotientAtLeast(256 * (hi - lo), n, 255);
    QuotientAtLeast(0, n, 1);
  }

  lemma RealBracket(a: nat, n: nat, q: int)
    requires n > 0 && (a as real / (n as real / 256.0)).Floor == q
    ensures 0.0 <= a as real - q as real * (n as real / 256.0) < n as real / 256.0
  {
    Bracket(a as real, n as real / 256.0, a as real / (n as real / 256.0), q as real);
  }

  lemma Bracket(a: real, f: real, v: real, q: real)
    requires f > 0.0 && v == a / f && q <= v < q + 1.0
    ensures 0.0 <= a - q * f < f
  {
    QuotientTimes(a, f, v);
    ProductMonotone(q, v, f);
    ProductIncreasing(v, q + 1.0, f);
    assert (q + 1.0) * f == q * f + f;
  }

  lemma QuotientTimes(a: real, f: real, v: real)
    requires f > 0.0 && v == a / f
    ensures v * f == a
  {
  }

  /** Scaling a byte back falls short of the original pixel by less than one bucket. */
  lemma ScaleBack(p: Word, lo: Word, hi: Word)
    requires lo <= p <= hi && IsValid(hi)
    ensures var back := ReducePixel(p, lo, hi) as real * Factor(lo, hi) + lo as real;
            0.0 <= p as real - back < Factor(lo, hi)
  {
    ReduceIsQuotient(p, lo, hi);
    RealBracket(p - lo, hi - lo + 1, ReducePixel(p, lo, hi));
  }
}
