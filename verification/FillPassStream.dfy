/**
 * The streaming form of a hole-filling pass, fillMissingPixels of the preparer: input read row by
 * row, five row pointers that shift and are freed as the scan moves down, one output buffer. It is
 * proved to write exactly what the random-access stencil of HoleFilling would write.
 */
module FillPassStream {
  import opened Common
  import opened HoleFilling
  import opened RowWindow

  /** A file open for reading: a short read is an end-of-file, on which the program exits. */
  class Stream<T> {
    const data: seq<T>
    var pos: nat

    constructor(data: seq<T>)
      ensures this.data == data && pos == 0
    {
      this.data := data;
      pos := 0;
    }

    method Seek(offset: nat)
      modifies this
      ensures pos == offset
    {
      pos := offset;
    }

    method Read(count: nat) returns (ok: bool, items: seq<T>)
      modifies this
      ensures ok <==> old(pos) + count <= |data|
      ensures ok ==> pos == old(pos) + count && items == data[old(pos)..old(pos) + count]
    {
      ok := pos + count <= |data|;
      if ok {
        items := data[pos..pos + count];
        pos := pos + count;
      } else {
        items := [];
      }
    }
  }

  /** A malloc'ed image row; its contents never change after it has been read. */
  class Row {
    const bytes: seq<Byte>

    constructor(bytes: seq<Byte>)
      ensures this.bytes == bytes
    {
      this.bytes := bytes;
    }
  }

  /**
   * The allocator. A row can be dereferenced or freed only while it is live, so a verified client
   * has no null dereference, no use after free and no double free.
   */
  class Memory {
    ghost var live: set<Row>

    constructor()
      ensures live == {}
    {
      live := {};
    }

    method Malloc(bytes: seq<Byte>) returns (row: Row)
      modifies this
      ensures fresh(row) && row.bytes == bytes
      ensures live == old(live) + {row}
    {
      row := new Row(bytes);
      live := live + {row};
    }

    method Free(row: Row?)
      requires row != null ==> row in live
      modifies this
      ensures live == old(live) - {row}
    {
      if row != null {
        live := live - {row};
      }
    }

    function At(row: Row?, x: int): Byte
      requires row != null && row in live && 0 <= x < |row.bytes|
      reads this
    {
      row.bytes[x]
    }
  }

  /** Slot k: null above the image, the live image row top + k inside it, anything at all below it. */
  ghost predicate Slot(rows: seq<Row?>, live: set<Row>, img: Image, top: int, k: nat)
    requires k < |rows|
  {
    && (top + k < 0 ==> rows[k] == null)
    && (0 <= top + k < |img| ==> rows[k] != null && rows[k] in live && rows[k].bytes == img[top + k])
  }

  /** Two slots inside the image never alias. */
  ghost predicate Apart(rows: seq<Row?>, img: Image, top: int, j: nat, k: nat)
    requires j < |rows| && k < |rows|
  {
    0 <= top + j && top + k < |img| ==> rows[j] != rows[k]
  }

  /** The first count slots hold the image rows from top on; a slot below the image may be stale. */
  ghost predicate Holds(rows: seq<Row?>, live: set<Row>, img: Image, top: int, count: nat) {
    && |rows| == 5 && count <= 5
    && (forall k: nat :: k < count ==> Slot(rows, live, img, top, k))
    && (forall j: nat, k: nat :: j < k < count ==> Apart(rows, img, top, j, k))
  }

  lemma ShiftHolds(a: seq<Row?>, b: seq<Row?>, live: set<Row>, img: Image, top: int)
    requires Holds(a, live, img, top, 5) && top < |img|
    requires |b| == 5 && forall k :: 0 <= k < 4 ==> b[k] == a[k + 1]
    ensures Holds(b, live - {a[0]}, img, top + 1, 4)
  {
    var rest, next := live - {a[0]}, top + 1;
    forall k: nat | k < 4 ensures Slot(b, rest, img, next, k) {
      assert Slot(a, live, img, top, 0) && Slot(a, live, img, top, k + 1) && Apart(a, img, top, 0, k + 1);
    }
    forall j: nat, k: nat | j < k < 4 ensures Apart(b, img, next, j, k) {
      assert Apart(a, img, top, j + 1, k + 1);
    }
  }

  lemma FillSlot(a: seq<Row?>, row: Row, live: set<Row>, img: Image, top: int, slot: nat)
    requires Holds(a, live, img, top, slot) && slot < 5 && 0 <= top + slot < |img|
    requires row !in live && row.bytes == img[top + slot]
    ensures Holds(a[slot := row], live + {row}, img, top, slot + 1)
  {
    var b := a[slot := row];
    forall k: nat | k < slot + 1 ensures Slot(b, live + {row}, img, top, k) {
      assert k < slot ==> Slot(a, live, img, top, k);
    }
    forall j: nat, k: nat | j < k < slot + 1 ensures Apart(b, img, top, j, k) {
      assert Slot(a, live, img, top, j) && (k < slot ==> Apart(a, img, top, j, k));
    }
  }

  /** Below the image the last slot may hold anything. */
  lemma StaleSlot(a: seq<Row?>, live: set<Row>, img: Image, top: int)
    requires Holds(a, live, img, top, 4) && top + 4 >= |img|
    ensures Holds(a, live, img, top, 5)
  {
    forall k: nat | k < 5 ensures Slot(a, live, img, top, k) {
      assert k < 4 ==> Slot(a, live, img, top, k);
    }
    forall j: nat, k: nat | j < k < 5 ensures Apart(a, img, top, j, k) {
      assert k < 4 ==> Apart(a, img, top, j, k);
    }
  }

  /** Frees the oldest row and moves the other four one slot back. */
  method Shift(mem: Memory, rows: array<Row?>, ghost img: Image, y: nat)
    requires rows.Length == 5 && y < |img|
    requires Holds(rows[..], mem.live, img, y - 3, 5)
    modifies mem, rows
    ensures Holds(rows[..], mem.live, img, y - 2, 4)
    ensures rows[4] == old(rows[4])
  {
    ghost var before, liveBefore := rows[..], mem.live;
    assert Slot(before, liveBefore, img, y - 3, 0);
    mem.Free(rows[0]);
    for rowIndex := 1 to 5
      invariant mem.live == liveBefore - {before[0]}
      invariant forall k :: 0 <= k < rowIndex - 1 ==> rows[k] == old(rows[k + 1])
      invariant forall k :: rowIndex - 1 <= k < 5 ==> rows[k] == old(rows[k])
    {
      rows[rowIndex - 1] := rows[rowIndex];
    }
    ShiftHolds(before, rows[..], liveBefore, img, y - 3);
  }

  /** Adds the neighbour at offset (i, j), read through the row pointers, to the sums. */
  method AddNeighbour(mem: Memory, rows: array<Row?>, ghost img: Image, x: nat, y: nat, i: int, j: int,
                      width: nat, height: nat, weight: nat, total: nat)
    returns (totalWeight: nat, neighborTotal: nat)
    requires Rect(img, width, height) && x < width && y < height && -2 <= i <= 2 && -2 <= j <= 2
    requires rows.Length == 5 && Holds(rows[..], mem.live, img, y - 2, 5)
    ensures Sums(totalWeight, neighborTotal) == Take(img, x, y, i, j, Sums(weight, total))
  {
    totalWeight, neighborTotal := weight, total;
    var neighborX, neighborY := x + i, y + j;
    if neighborX < 0 || neighborX >= width || neighborY < 0 || neighborY >= height {
      return;
    }
    assert Slot(rows[..], mem.live, img, y - 2, 2 + j);
    var neighbor := mem.At(rows[2 + j], neighborX);
    if neighbor == FILL {
      return;
    }
    var w := 5 - (Abs(i) + Abs(j));
    neighborTotal := neighborTotal + w * neighbor;
    totalWeight := totalWeight + w;
  }

  /** The weighted sums over the 5x5 window around (x, y). */
  method Neighbours(mem: Memory, rows: array<Row?>, ghost img: Image, x: nat, y: nat, width: nat, height: nat)
    returns (totalWeight: nat, neighborTotal: nat)
    requires Rect(img, width, height) && x < width && y < height
    requires rows.Length == 5 && Holds(rows[..], mem.live, img, y - 2, 5)
    ensures Sums(totalWeight, neighborTotal) == CollectAll(img, x, y)
  {
    totalWeight, neighborTotal := 0, 0;
    for i := -2 to 3
      invariant Sums(totalWeight, neighborTotal) == Collect(img, x, y, i, -2)
    {
      for j := -2 to 3
        invariant Sums(totalWeight, neighborTotal) == Collect(img, x, y, i, j)
      {
        totalWeight, neighborTotal :=
          AddNeighbour(mem, rows, img, x, y, i, j, width, height, totalWeight, neighborTotal);
      }
    }
  }

  /** The mask cell of image column x says whether the pixel is land. */
  ghost predicate MaskCell(l: Layout, maskRow: seq<Byte>, landRow: seq<bool>, x: nat)
    requires l.Valid() && x < |landRow|
  {
    RatioPositive(l);
    x / l.Ratio() < |maskRow| && (landRow[x] <==> maskRow[x / l.Ratio()] > 128)
  }

  /** maskRow is the stretch of the mask that says which pixels of an image row are land. */
  ghost predicate MaskRowMatches(l: Layout, maskRow: seq<Byte>, landRow: seq<bool>)
    requires l.Valid()
  {
    |landRow| == l.width && forall x: nat :: x < l.width ==> MaskCell(l, maskRow, landRow, x)
  }

  method IsLandPixel(l: Layout, maskRow: seq<Byte>, ghost landRow: seq<bool>, x: nat) returns (land: bool)
    requires l.Valid() && MaskRowMatches(l, maskRow, landRow) && x < l.width
    ensures land == landRow[x]
  {
    RatioPositive(l);
    assert MaskCell(l, maskRow, landRow, x);
    land := maskRow[x / (l.width / l.maskWidth)] > 128;
  }

  /** One image row: every pixel decided into the output buffer, and the three counters. */
  method ScanRow(mem: Memory, rows: array<Row?>, l: Layout, maskRow: seq<Byte>, outputBuffer: array<Byte>,
                 ghost land: Land, ghost img: Image, y: nat, start: Counts) returns (counts: Counts)
    requires l.Valid() && Rect(img, l.width, l.height) && Rect(land, l.width, l.height) && y < l.height
    requires rows.Length == 5 && Holds(rows[..], mem.live, img, y - 2, 5)
    requires MaskRowMatches(l, maskRow, land[y]) && outputBuffer.Length == l.width
    requires start == CountTo(land, img, y, 0)
    modifies outputBuffer
    ensures outputBuffer[..] == FillRow(land, img, y)
    ensures counts == CountTo(land, img, y, l.width)
  {
    counts := start;
    for x := 0 to l.width
      invariant counts == CountTo(land, img, y, x)
      invariant forall k :: 0 <= k < x ==> outputBuffer[k] == FillPixel(land, img, k, y)
    {
      assert Slot(rows[..], mem.live, img, y - 2, 2);
      var pixel := mem.At(rows[2], x);
      var land' := IsLandPixel(l, maskRow, land[y], x);
      if land' {
        if pixel == FILL {
          var totalWeight, neighborTotal := Neighbours(mem, rows, img, x, y, l.width, l.height);
          if totalWeight > 11 {
            CollectBounds(img, x, y, 3, -2, 0, 254);
            QuotientBetween(neighborTotal, totalWeight, 0, 254);
            pixel := neighborTotal / totalWeight;
            counts := counts.(fixed := counts.fixed + 1);
          } else {
            counts := counts.(unfixable := counts.unfixable + 1);
          }
        }
      } else {
        counts := counts.(water := counts.water + 1);
      }
      outputBuffer[x] := pixel;
    }
  }

  // ------------------------------------------------------------------ the whole pass

  datatype PassResult = Failed | Done(output: File, counts: Counts)

  /** A file that agrees with the given one and is long enough; itself when it already is. */
  function Padded(file: File, size: nat): (p: File)
    ensures file <= p && size <= |p|
    ensures size <= |file| ==> p == file
  {
    if size <= |file| then file else file + seq(size - |file|, _ => 0)
  }

  /** Reads image row y, if the file has it, into a new row at the bottom of the window. */
  method ReadRow(mem: Memory, rows: array<Row?>, input: Stream<Byte>, l: Layout, ghost img: Image, y: nat, slot: nat)
    returns (ok: bool)
    requires y < l.height && Rect(img, l.width, l.height) && slot < 5
    requires rows.Length == 5 && Holds(rows[..], mem.live, img, y - slot, slot)
    requires input.pos == RowStart(l.width, y)
    requires img == ImageOf(l, Padded(input.data, RowStart(l.width, l.height)))
    modifies mem, rows, input
    ensures !ok ==> !ImageFits(l, input.data)
    ensures ok ==> input.pos == RowStart(l.width, y + 1) <= |input.data|
    ensures ok ==> Holds(rows[..], mem.live, img, y - slot, slot + 1)
  {
    var bytes;
    ok, bytes := input.Read(l.width);
    RowsInside(l.width, l.height, y);
    if ok {
      assert bytes == RowOf(l, Padded(input.data, RowStart(l.width, l.height)), y);
      ghost var before, liveBefore := rows[..], mem.live;
      var row := mem.Malloc(bytes);
      rows[slot] := row;
      assert rows[..] == before[slot := row];
      FillSlot(before, row, liveBefore, img, y - slot, slot);
    }
  }

  lemma MaskOffsetMonotone(l: Layout, y: nat, z: nat)
    requires l.Valid() && y <= z
    ensures l.Ratio() > 0 && l.MaskOffset(y) <= l.MaskOffset(z)
  {
    RatioPositive(l);
    var r := l.Ratio();
    if z / r < y / r {
      MulLess(z / r, y / r, r);
    }
    assert y / r * l.maskWidth <= z / r * l.maskWidth;
  }

  lemma MaskFitsByLastRow(l: Layout, mask: File)
    requires l.Valid() && l.Ratio() > 0 && l.MaskOffset(l.height - 1) + l.maskWidth <= |mask|
    ensures MaskFits(l, mask)
  {
    forall y: nat | y < l.height ensures l.MaskOffset(y) + l.maskWidth <= |mask| {
      MaskOffsetMonotone(l, y, l.height - 1);
    }
  }

  /** The mask padded to the size that the last image row needs. */
  function PaddedMask(l: Layout, mask: File): (p: File)
    requires l.Valid()
    ensures mask <= p && MaskFits(l, p)
    ensures MaskFits(l, mask) ==> p == mask
  {
    RatioPositive(l);
    var p := Padded(mask, l.MaskOffset(l.height - 1) + l.maskWidth);
    MaskFitsByLastRow(l, p);
    p
  }

  lemma MaskRowIsLand(l: Layout, mask: File, maskRow: seq<Byte>, y: nat)
    requires l.Valid() && MaskFits(l, mask) && y < l.height
    requires l.Ratio() > 0 && maskRow == mask[l.MaskOffset(y)..l.MaskOffset(y) + l.maskWidth]
    ensures MaskRowMatches(l, maskRow, LandOf(l, mask)[y])
  {
    forall x: nat | x < l.width ensures MaskCell(l, maskRow, LandOf(l, mask)[y], x) {
      MaskColumnInside(l, x);
      assert LandOf(l, mask)[y][x] == IsLand(l, mask, x, y);
    }
  }

  /** Seeks to the mask row of image row y and reads it, if the mask file has it. */
  method ReadMaskRow(maskFile: Stream<Byte>, l: Layout, y: nat) returns (ok: bool, maskRow: seq<Byte>)
    requires l.Valid() && y < l.height
    modifies maskFile
    ensures ok && y + 1 == l.height ==> MaskFits(l, maskFile.data)
    ensures !ok ==> !MaskFits(l, maskFile.data)
    ensures ok ==> MaskRowMatches(l, maskRow, LandOf(l, PaddedMask(l, maskFile.data))[y])
  {
    RatioPositive(l);
    var maskOffset := y / (l.width / l.maskWidth) * l.maskWidth + l.cropped;
    assert maskOffset == l.MaskOffset(y);
    maskFile.Seek(maskOffset);
    ok, maskRow := maskFile.Read(l.maskWidth);
    if ok {
      MaskRowIsLand(l, PaddedMask(l, maskFile.data), maskRow, y);
      if y + 1 == l.height {
        MaskFitsByLastRow(l, maskFile.data);
      }
    }
  }

  predicate FilesFit(l: Layout, inputFile: File, maskFile: File)
    requires l.Valid()
  {
    ImageFits(l, inputFile) && MaskFits(l, maskFile)
  }

  /** The rows pointer array with the first two image rows in its last two slots. */
  method OpenWindow(mem: Memory, input: Stream<Byte>, l: Layout, ghost img: Image) returns (ok: bool, rows: array<Row?>)
    requires l.Valid() && input.pos == HEADER_SIZE
    requires img == ImageOf(l, Padded(input.data, RowStart(l.width, l.height)))
    modifies mem, input
    ensures fresh(rows) && rows.Length == 5
    ensures !ok ==> !ImageFits(l, input.data)
    ensures ok ==> Holds(rows[..], mem.live, img, -3, 5)
    ensures ok ==> input.pos == RowStart(l.width, 2) <= |input.data|
  {
    rows := new Row?[5](_ => null);
    for rowIndex := 3 to 5
      invariant Holds(rows[..], mem.live, img, -3, rowIndex)
      invariant input.pos == RowStart(l.width, rowIndex - 3)
      invariant rowIndex > 3 ==> input.pos <= |input.data|
    {
      ok := ReadRow(mem, rows, input, l, img, rowIndex - 3, rowIndex);
      if !ok {
        return;
      }
    }
    ok := true;
  }

  /** How many image rows have been read before row y is processed. */
  ghost function RowsRead(l: Layout, y: nat): nat {
    if y + 2 <= l.height then y + 2 else l.height
  }

  /** What holds between rows: the window is in place and the input is read just past it. */
  ghost predicate Ready(mem: Memory, rows: array<Row?>, input: Stream<Byte>, l: Layout, img: Image, y: nat)
    reads mem, rows, input
  {
    && rows.Length == 5
    && Holds(rows[..], mem.live, img, y - 3, 5)
    && input.pos == RowStart(l.width, RowsRead(l, y)) <= |input.data|
  }

  /** Shifts the window down to row y and reads the next image row if one exists. */
  method AdvanceWindow(mem: Memory, rows: array<Row?>, input: Stream<Byte>, l: Layout, ghost img: Image, y: nat)
    returns (ok: bool)
    requires l.Valid() && y < l.height && Ready(mem, rows, input, l, img, y)
    requires img == ImageOf(l, Padded(input.data, RowStart(l.width, l.height)))
    modifies mem, rows, input
    ensures !ok ==> !ImageFits(l, input.data)
    ensures ok ==> Ready(mem, rows, input, l, img, y + 1)
  {
    Shift(mem, rows, img, y);
    if y < l.height - 2 {
      ok := ReadRow(mem, rows, input, l, img, y + 2, 4);
    } else {
      StaleSlot(rows[..], mem.live, img, y - 2);
      ok := true;
    }
  }

  /** The body of the row loop: mask row, window, scan. */
  method NextRow(mem: Memory, rows: array<Row?>, input: Stream<Byte>, mask: Stream<Byte>, l: Layout,
                 outputBuffer: array<Byte>, ghost land: Land, ghost img: Image, y: nat, start: Counts)
    returns (ok: bool, counts: Counts)
    requires l.Valid() && y < l.height && input != mask
    requires img == ImageOf(l, Padded(input.data, RowStart(l.width, l.height)))
    requires land == LandOf(l, PaddedMask(l, mask.data))
    requires Ready(mem, rows, input, l, img, y)
    requires outputBuffer.Length == l.width && start == CountTo(land, img, y, 0)
    modifies mem, rows, input, mask, outputBuffer
    ensures !ok ==> !FilesFit(l, input.data, mask.data)
    ensures ok ==> Ready(mem, rows, input, l, img, y + 1)
    ensures ok && y + 1 == l.height ==> FilesFit(l, input.data, mask.data)
    ensures ok ==> outputBuffer[..] == FillPass(land, img)[y] && counts == CountTo(land, img, y + 1, 0)
  {
    counts := start;
    var maskRow;
    ok, maskRow := ReadMaskRow(mask, l, y);
    if !ok {
      return;
    }
    ok := AdvanceWindow(mem, rows, input, l, img, y);
    if !ok {
      return;
    }
    counts := ScanRow(mem, rows, l, maskRow, outputBuffer, land, img, y, counts);
  }

  lemma FlattenNext(header: File, img: Image, y: nat)
    requires y < |img|
    ensures header + Flatten(img[..y]) + img[y] == header + Flatten(img[..y + 1])
  {
    assert img[..y + 1][..y] == img[..y];
    assert Flatten(img[..y + 1]) == Flatten(img[..y]) + img[y];
  }

  /** What has been written and counted once the first y rows are done. */
  ghost predicate Scanned(header: File, land: Land, img: Image, y: nat, output: File, counts: Counts) {
    && SameShape(land, img) && y <= |img|
    && output == header + Flatten(FillPass(land, img)[..y])
    && counts == CountTo(land, img, y, 0)
  }

  /** One turn of the row loop: the next row is filled and written out. */
  method WriteNextRow(mem: Memory, rows: array<Row?>, input: Stream<Byte>, mask: Stream<Byte>, l: Layout,
                      outputBuffer: array<Byte>, header: File, ghost land: Land, ghost img: Image, y: nat,
                      written: File, start: Counts)
    returns (ok: bool, output: File, counts: Counts)
    requires l.Valid() && y < l.height && input != mask
    requires img == ImageOf(l, Padded(input.data, RowStart(l.width, l.height)))
    requires land == LandOf(l, PaddedMask(l, mask.data))
    requires Ready(mem, rows, input, l, img, y)
    requires outputBuffer.Length == l.width && Scanned(header, land, img, y, written, start)
    modifies mem, rows, input, mask, outputBuffer
    ensures !ok ==> !FilesFit(l, input.data, mask.data)
    ensures ok ==> Ready(mem, rows, input, l, img, y + 1) && Scanned(header, land, img, y + 1, output, counts)
    ensures ok && y + 1 == l.height ==> FilesFit(l, input.data, mask.data)
  {
    output := written;
    ok, counts := NextRow(mem, rows, input, mask, l, outputBuffer, land, img, y, start);
    if ok {
      output := output + outputBuffer[..];
      FlattenNext(header, FillPass(land, img), y);
    }
  }

  /** The row loop over freshly opened files. */
  method ScanImage(input: Stream<Byte>, mask: Stream<Byte>, l: Layout, header: File, ghost land: Land, ghost img: Image)
    returns (r: PassResult)
    requires l.Valid() && input != mask && input.pos == HEADER_SIZE
    requires img == ImageOf(l, Padded(input.data, RowStart(l.width, l.height)))
    requires land == LandOf(l, PaddedMask(l, mask.data))
    modifies input, mask
    ensures r.Done? <==> FilesFit(l, input.data, mask.data)
    ensures r.Done? ==> r.output == header + Flatten(FillPass(land, img)) && r.counts == Tally(land, img)
  {
    var mem := new Memory();
    var outputBuffer := new Byte[l.width];
    var output, counts := header, Counts(0, 0, 0);
    var ok, rows := OpenWindow(mem, input, l, img);
    if !ok {
      return Failed;
    }
    for y := 0 to l.height
      invariant Ready(mem, rows, input, l, img, y)
      invariant Scanned(header, land, img, y, output, counts)
      invariant y == l.height ==> FilesFit(l, input.data, mask.data)
    {
      ok, output, counts := WriteNextRow(mem, rows, input, mask, l, outputBuffer, header, land, img, y, output, counts);
      if !ok {
        return Failed;
      }
    }
    assert FillPass(land, img)[..l.height] == FillPass(land, img);
    r := Done(output, counts);
  }

  /**
   * One pass over the file of the previous pass. It exits on a truncated image or mask file, and
   * otherwise writes, behind the header, the image of the random-access stencil.
   */
  method FillMissingPixels(l: Layout, inputFile: File, maskFile: File, header: File) returns (r: PassResult)
    requires l.Valid() && |header| == HEADER_SIZE
    ensures r.Done? <==> FilesFit(l, inputFile, maskFile)
    ensures r.Done? ==>
              var land, img := LandOf(l, maskFile), ImageOf(l, inputFile);
              r.output == header + Flatten(FillPass(land, img)) && r.counts == Tally(land, img)
  {
    RatioPositive(l);
    var input := new Stream(inputFile);
    var mask := new Stream(maskFile);
    input.Seek(HEADER_SIZE);
    r := ScanImage(input, mask, l, header,
                   LandOf(l, PaddedMask(l, maskFile)),
                   ImageOf(l, Padded(inputFile, RowStart(l.width, l.height))));
  }
}
