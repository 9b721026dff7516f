/**
 * The reference meaning of one hole-filling pass of the baseline-ETo preparer: a random-access
 * 5x5 stencil over the whole image, and what any number of passes keeps.
 */
module HoleFilling {
  import opened Common

  type Byte = b: int | 0 <= b < 256

  /** The pixel value that means "no data". */
  const FILL: Byte := 255

  type Image = seq<seq<Byte>>

  /** True where the ocean mask says land. */
  type Land = seq<seq<bool>>

  predicate Rect<T>(grid: seq<seq<T>>, width: nat, height: nat) {
    && |grid| == height
    && forall y :: 0 <= y < height ==> |grid[y]| == width
  }

  predicate SameShape(land: Land, img: Image) {
    && |land| == |img|
    && forall y :: 0 <= y < |img| ==> |land[y]| == |img[y]|
  }

  // ------------------------------------------------------------------ the stencil

  function Weight(i: int, j: int): int {
    5 - (Abs(i) + Abs(j))
  }

  /** The weight and weighted total that a stencil has collected. */
  datatype Sums = Sums(weight: nat, total: nat)

  predicate Inside(img: Image, x: int, y: int) {
    0 <= y < |img| && 0 <= x < |img[y]|
  }

  predicate Known(img: Image, x: int, y: int) {
    Inside(img, x, y) && img[y][x] != FILL
  }

  /** The contribution of the neighbour at offset (i, j). */
  function Take(img: Image, x: int, y: int, i: int, j: int, s: Sums): Sums
    requires -2 <= i <= 2 && -2 <= j <= 2
  {
    if Known(img, x + i, y + j)
    then Sums(s.weight + Weight(i, j), s.total + Weight(i, j) * img[y + j][x + i])
    else s
  }

  /** (i, j) is a position of the two loops over the 25 offsets; columns are the outer loop. */
  predicate Offset(i: int, j: int) {
    (-2 <= i <= 2 && -2 <= j <= 3) || (i == 3 && j == -2)
  }

  /** How many offsets come before (i, j). */
  function Done(i: int, j: int): int {
    5 * (i + 2) + (j + 2)
  }

  /** What the neighbours before offset (i, j) contribute. */
  function Collect(img: Image, x: int, y: int, i: int, j: int): Sums
    requires Offset(i, j)
    decreases i + 2, j + 2
  {
    if j > -2 then Take(img, x, y, i, j - 1, Collect(img, x, y, i, j - 1))
    else if i > -2 then Collect(img, x, y, i - 1, 3)
    else Sums(0, 0)
  }

  /** What the whole window contributes. */
  function CollectAll(img: Image, x: int, y: int): Sums {
    Collect(img, x, y, 3, -2)
  }

  ghost predicate Within(img: Image, lo: int, hi: int) {
    forall x, y :: Known(img, x, y) ==> lo <= img[y][x] <= hi
  }

  /** The known pixels of the 5x5 window around (x, y) all lie in [lo, hi]. */
  ghost predicate Near(img: Image, x: int, y: int, lo: int, hi: int) {
    forall u, v :: x - 2 <= u <= x + 2 && y - 2 <= v <= y + 2 && Known(img, u, v) ==> lo <= img[v][u] <= hi
  }

  lemma ScaledBetween(w: int, lo: int, v: int, hi: int)
    requires 0 <= w && lo <= v <= hi
    ensures lo * w <= w * v <= hi * w
  {
  }

  lemma AddBounds(weight: int, total: int, w: int, lo: int, v: int, hi: int)
    requires 0 <= w && lo <= v <= hi && lo * weight <= total <= hi * weight
    ensures lo * (weight + w) <= total + w * v <= hi * (weight + w)
  {
    ScaledBetween(w, lo, v, hi);
    assert lo * (weight + w) == lo * weight + lo * w;
    assert hi * (weight + w) == hi * weight + hi * w;
  }

  lemma TakeBounds(img: Image, x: int, y: int, i: int, j: int, s: Sums, lo: nat, hi: nat)
    requires -2 <= i <= 2 && -2 <= j <= 2 && Near(img, x, y, lo, hi)
    requires lo * s.weight <= s.total <= hi * s.weight
    ensures var t := Take(img, x, y, i, j, s);
            lo * t.weight <= t.total <= hi * t.weight
  {
    if Known(img, x + i, y + j) {
      var w, v := Weight(i, j), img[y + j][x + i];
      AddBounds(s.weight, s.total, w, lo, v, hi);
    }
  }

  lemma {:induction false} CollectBounds(img: Image, x: int, y: int, i: int, j: int, lo: nat, hi: nat)
    requires Offset(i, j) && Near(img, x, y, lo, hi)
    ensures var s := Collect(img, x, y, i, j);
            lo * s.weight <= s.total <= hi * s.weight
    decreases i + 2, j + 2
  {
    if j > -2 {
      CollectBounds(img, x, y, i, j - 1, lo, hi);
      TakeBounds(img, x, y, i, j - 1, Collect(img, x, y, i, j - 1), lo, hi);
    } else if i > -2 {
      CollectBounds(img, x, y, i - 1, 3, lo, hi);
    }
  }

  lemma TakeIsSmall(img: Image, x: int, y: int, i: int, j: int, s: Sums)
    requires -2 <= i <= 2 && -2 <= j <= 2
    ensures var t := Take(img, x, y, i, j, s);
            t.weight <= s.weight + 5 && t.total <= s.total + 1270
  {
    if Known(img, x + i, y + j) {
      ScaledBetween(Weight(i, j), 0, img[y + j][x + i], 254);
    }
  }

  /** No stencil total reaches 2^24, so a single-precision accumulator holds every one exactly. */
  lemma {:induction false} CollectFitsFloat(img: Image, x: int, y: int, i: int, j: int)
    requires Offset(i, j)
    ensures var s := Collect(img, x, y, i, j);
            s.weight <= 5 * Done(i, j) && s.total <= 1270 * Done(i, j) < 0x100_0000
    decreases i + 2, j + 2
  {
    if j > -2 {
      CollectFitsFloat(img, x, y, i, j - 1);
      TakeIsSmall(img, x, y, i, j - 1, Collect(img, x, y, i, j - 1));
    } else if i > -2 {
      CollectFitsFloat(img, x, y, i - 1, 3);
    }
  }

  lemma MulLess(a: int, b: int, w: nat)
    requires a < b
    ensures a * w + w <= b * w
  {
    assert (a + 1) * w <= b * w;
  }

  lemma QuotientBetween(total: nat, weight: nat, lo: nat, hi: nat)
    requires weight > 0 && lo * weight <= total <= hi * weight
    ensures lo <= total / weight <= hi
  {
    var q := total / weight;
    assert q * weight <= total < q * weight + weight;
    if q < lo {
      MulLess(q, lo, weight);
    }
    if hi < q {
      MulLess(hi, q, weight);
    }
  }

  // ------------------------------------------------------------------ one pass

  /** What a pass decides about one pixel; each has its own counter except Valid. */
  datatype Fate = Water | Valid | Filled(value: Byte) | Unfixable

  function FateOf(land: Land, img: Image, x: int, y: int): Fate
    requires SameShape(land, img) && Inside(img, x, y)
  {
    if !land[y][x] then Water
    else if img[y][x] != FILL then Valid
    else
      var s := CollectAll(img, x, y);
      if s.weight > 11 then
        CollectBounds(img, x, y, 3, -2, 0, 254);
        QuotientBetween(s.total, s.weight, 0, 254);
        Filled(s.total / s.weight)
      else Unfixable
  }

  function FillPixel(land: Land, img: Image, x: int, y: int): Byte
    requires SameShape(land, img) && Inside(img, x, y)
  {
    var fate := FateOf(land, img, x, y);
    if fate.Filled? then fate.value else img[y][x]
  }

  function FillRow(land: Land, img: Image, y: nat): (row: seq<Byte>)
    requires SameShape(land, img) && y < |img|
    ensures |row| == |img[y]|
  {
    seq(|img[y]|, x requires 0 <= x < |img[y]| => FillPixel(land, img, x, y))
  }

  function FillPass(land: Land, img: Image): (out: Image)
    requires SameShape(land, img)
    ensures |out| == |img| && SameShape(land, out)
  {
    seq(|img|, y requires 0 <= y < |img| => FillRow(land, img, y))
  }

  function Passes(land: Land, img: Image, n: nat): (out: Image)
    requires SameShape(land, img)
    ensures |out| == |img| && SameShape(land, out)
  {
    if n == 0 then img else FillPass(land, Passes(land, img, n - 1))
  }

  // ------------------------------------------------------------------ the stencil by distance

  function ValueAt(img: Image, x: int, y: int): int {
    if Known(img, x, y) then img[y][x] else 0
  }

  function CountAt(img: Image, x: int, y: int): int {
    if Known(img, x, y) then 1 else 0
  }

  /** The sum of a quantity over the offsets of the 5x5 window that are d steps away, counted along rows and columns. */
  function Ring(q: (int, int) -> int, d: int): int {
    match d
    case 1 => q(1, 0) + q(-1, 0) + q(0, 1) + q(0, -1)
    case 2 => q(2, 0) + q(-2, 0) + q(0, 2) + q(0, -2) + q(1, 1) + q(1, -1) + q(-1, 1) + q(-1, -1)
    case 3 => q(1, 2) + q(1, -2) + q(-1, 2) + q(-1, -2) + q(2, 1) + q(2, -1) + q(-2, 1) + q(-2, -1)
    case 4 => q(2, 2) + q(2, -2) + q(-2, 2) + q(-2, -2)
    case _ => 0
  }

  /** Nearer neighbours count more: four times next to the hole, once in the corners of its window. */
  function ByDistance(q: (int, int) -> int): int {
    4 * Ring(q, 1) + 3 * Ring(q, 2) + 2 * Ring(q, 3) + Ring(q, 4)
  }

  function Values(img: Image, x: int, y: int): (int, int) -> int {
    (i, j) => ValueAt(img, x + i, y + j)
  }

  function Counted(img: Image, x: int, y: int): (int, int) -> int {
    (i, j) => CountAt(img, x + i, y + j)
  }

  function TotalAround(img: Image, x: int, y: int): int {
    ByDistance(Values(img, x, y))
  }

  function WeightAround(img: Image, x: int, y: int): int {
    ByDistance(Counted(img, x, y))
  }

  /** The sum of a quantity over the offsets before (i, j). */
  function SumTo(q: (int, int) -> int, i: int, j: int): int
    requires Offset(i, j)
    decreases i + 2, j + 2
  {
    if j > -2 then SumTo(q, i, j - 1) + q(i, j - 1)
    else if i > -2 then SumTo(q, i - 1, 3)
    else 0
  }

  function Weighted(q: (int, int) -> int): (int, int) -> int {
    (i, j) => Weight(i, j) * q(i, j)
  }

  lemma TakeAdds(img: Image, x: int, y: int, i: int, j: int, s: Sums)
    requires -2 <= i <= 2 && -2 <= j <= 2
    ensures var t := Take(img, x, y, i, j, s);
            && t.weight == s.weight + Weighted(Counted(img, x, y))(i, j)
            && t.total == s.total + Weighted(Values(img, x, y))(i, j)
  {
    assert Weighted(Counted(img, x, y))(i, j) == Weight(i, j) * CountAt(img, x + i, y + j);
    assert Weighted(Values(img, x, y))(i, j) == Weight(i, j) * ValueAt(img, x + i, y + j);
  }

  lemma {:induction false} CollectIsSum(img: Image, x: int, y: int, i: int, j: int)
    requires Offset(i, j)
    ensures Collect(img, x, y, i, j).weight == SumTo(Weighted(Counted(img, x, y)), i, j)
    ensures Collect(img, x, y, i, j).total == SumTo(Weighted(Values(img, x, y)), i, j)
    decreases i + 2, j + 2
  {
    if j > -2 {
      CollectIsSum(img, x, y, i, j - 1);
      TakeAdds(img, x, y, i, j - 1, Collect(img, x, y, i, j - 1));
    } else if i > -2 {
      CollectIsSum(img, x, y, i - 1, 3);
    }
  }

  /** One column of the window. */
  lemma SumColumn(q: (int, int) -> int, i: int)
    requires -2 <= i <= 2
    ensures SumTo(q, i + 1, -2) == SumTo(q, i, -2) + q(i, -2) + q(i, -1) + q(i, 0) + q(i, 1) + q(i, 2)
  {
    assert SumTo(q, i, 0) == SumTo(q, i, -2) + q(i, -2) + q(i, -1);
    assert SumTo(q, i, 2) == SumTo(q, i, 0) + q(i, 0) + q(i, 1);
  }

  lemma SumOfWindow(q: (int, int) -> int)
    ensures SumTo(q, 3, -2) == Ring(q, 1) + Ring(q, 2) + Ring(q, 3) + Ring(q, 4) + q(0, 0)
  {
    SumColumn(q, -2);
    SumColumn(q, -1);
    SumColumn(q, 0);
    SumColumn(q, 1);
    SumColumn(q, 2);
  }

  lemma WeightedRing(q: (int, int) -> int, d: int)
    requires 1 <= d <= 4
    ensures Ring(Weighted(q), d) == (5 - d) * Ring(q, d)
  {
  }

  lemma SumIsByDistance(q: (int, int) -> int)
    requires q(0, 0) == 0
    ensures SumTo(Weighted(q), 3, -2) == ByDistance(q)
  {
    SumOfWindow(Weighted(q));
    WeightedRing(q, 1);
    WeightedRing(q, 2);
    WeightedRing(q, 3);
    WeightedRing(q, 4);
  }

  lemma CollectByDistance(img: Image, x: int, y: int)
    requires !Known(img, x, y)
    ensures CollectAll(img, x, y).weight == WeightAround(img, x, y)
    ensures CollectAll(img, x, y).total == TotalAround(img, x, y)
  {
    CollectIsSum(img, x, y, 3, -2);
    assert Counted(img, x, y)(0, 0) == CountAt(img, x, y) && Values(img, x, y)(0, 0) == ValueAt(img, x, y);
    SumIsByDistance(Counted(img, x, y));
    SumIsByDistance(Values(img, x, y));
  }

  /**
   * A missing land pixel is filled exactly when its known neighbours weigh at least 12, counted by
   * distance, and then with the floor of their weighted mean.
   */
  lemma HoleGetsWeightedMean(land: Land, img: Image, x: int, y: int)
    requires SameShape(land, img) && Inside(img, x, y) && land[y][x] && img[y][x] == FILL
    ensures FillPass(land, img)[y][x] != FILL <==> WeightAround(img, x, y) >= 12
    ensures WeightAround(img, x, y) >= 12 ==>
              FillPass(land, img)[y][x] == TotalAround(img, x, y) / WeightAround(img, x, y)
  {
    CollectByDistance(img, x, y);
    assert FillPass(land, img)[y][x] == FillPixel(land, img, x, y);
    if WeightAround(img, x, y) >= 12 {
      FilledBetween(land, img, x, y, 0, 254);
    }
  }

  /** The two images differ in one known pixel, which is d higher in the second. */
  ghost predicate RaisedAt(img: Image, raised: Image, u: int, v: int, d: int) {
    && Known(img, u, v) && Known(raised, u, v) && raised[v][u] == img[v][u] + d
    && forall a, b :: (a, b) != (u, v) ==> ValueAt(raised, a, b) == ValueAt(img, a, b)
  }

  /** The two quantities agree in the window but for one offset, where the second is d higher. */
  ghost predicate HigherAt(q: (int, int) -> int, r: (int, int) -> int, i: int, j: int, d: int) {
    forall a, b :: -2 <= a <= 2 && -2 <= b <= 2 ==> r(a, b) == q(a, b) + (if a == i && b == j then d else 0)
  }

  lemma OneOffsetCounts(q: (int, int) -> int, r: (int, int) -> int, i: int, j: int, d: int)
    requires -2 <= i <= 2 && -2 <= j <= 2 && (i, j) != (0, 0) && HigherAt(q, r, i, j, d)
    ensures ByDistance(r) == ByDistance(q) + (5 - Abs(i) - Abs(j)) * d
  {
    var n := Abs(i) + Abs(j);
    RingChange(q, r, i, j, d, 1);
    RingChange(q, r, i, j, d, 2);
    RingChange(q, r, i, j, d, 3);
    RingChange(q, r, i, j, d, 4);
  }

  lemma RingChange(q: (int, int) -> int, r: (int, int) -> int, i: int, j: int, d: int, n: int)
    requires -2 <= i <= 2 && -2 <= j <= 2 && 1 <= n <= 4 && HigherAt(q, r, i, j, d)
    ensures Ring(r, n) == Ring(q, n) + (if n == Abs(i) + Abs(j) then d else 0)
  {
  }

  lemma RaisedValue(img: Image, raised: Image, u: int, v: int, d: int, a: int, b: int)
    requires RaisedAt(img, raised, u, v, d)
    ensures ValueAt(raised, a, b) == ValueAt(img, a, b) + (if a == u && b == v then d else 0)
  {
  }

  /** Raising the neighbour at (i, j) by d raises the weighted total by 5 - |i| - |j| times d. */
  lemma NeighbourCounts(img: Image, raised: Image, x: int, y: int, i: int, j: int, d: int)
    requires -2 <= i <= 2 && -2 <= j <= 2 && (i, j) != (0, 0) && RaisedAt(img, raised, x + i, y + j, d)
    ensures TotalAround(raised, x, y) == TotalAround(img, x, y) + (5 - Abs(i) - Abs(j)) * d
  {
    var q, r := Values(img, x, y), Values(raised, x, y);
    forall a, b | -2 <= a <= 2 && -2 <= b <= 2 ensures r(a, b) == q(a, b) + (if a == i && b == j then d else 0) {
      RaisedValue(img, raised, x + i, y + j, d, x + a, y + b);
    }
    OneOffsetCounts(q, r, i, j, d);
  }

  // ------------------------------------------------------------------ what passes keep

  /** A filled pixel lies between the least and greatest known pixels of its own window. */
  lemma FilledBetween(land: Land, img: Image, x: int, y: int, lo: nat, hi: nat)
    requires SameShape(land, img) && Inside(img, x, y)
    requires FateOf(land, img, x, y).Filled? && Near(img, x, y, lo, hi)
    ensures lo <= FillPass(land, img)[y][x] <= hi
    ensures FillPass(land, img)[y][x] != FILL
  {
    CollectBounds(img, x, y, 3, -2, lo, hi);
    CollectBounds(img, x, y, 3, -2, 0, 254);
    var s := CollectAll(img, x, y);
    QuotientBetween(s.total, s.weight, lo, hi);
    QuotientBetween(s.total, s.weight, 0, 254);
  }

  /** Maximum principle: bounds on the known pixels of an image bound those of every later pass. */
  lemma {:induction false} MaximumPrinciple(land: Land, img: Image, n: nat, lo: nat, hi: nat)
    requires SameShape(land, img) && Within(img, lo, hi)
    ensures Within(Passes(land, img, n), lo, hi)
  {
    if n > 0 {
      MaximumPrinciple(land, img, n - 1, lo, hi);
      var before := Passes(land, img, n - 1);
      var after := Passes(land, img, n);
      forall x, y | Known(after, x, y) ensures lo <= after[y][x] <= hi {
        assert after[y][x] == FillPixel(land, before, x, y);
        if FateOf(land, before, x, y).Filled? {
          FilledBetween(land, before, x, y, lo, hi);
        } else {
          assert Known(before, x, y);
        }
      }
    }
  }

  /** Water and every pixel that is already known keep their value through any number of passes. */
  lemma {:induction false} KeptForever(land: Land, img: Image, n: nat, x: int, y: int)
    requires SameShape(land, img) && Inside(img, x, y)
    requires !land[y][x] || img[y][x] != FILL
    ensures Passes(land, img, n)[y][x] == img[y][x]
  {
    if n > 0 {
      KeptForever(land, img, n - 1, x, y);
      assert Passes(land, img, n)[y][x] == FillPixel(land, Passes(land, img, n - 1), x, y);
    }
  }

  lemma {:induction false} PassesCompose(land: Land, img: Image, m: nat, n: nat)
    requires SameShape(land, img)
    ensures Passes(land, img, m + n) == Passes(land, Passes(land, img, m), n)
  {
    if n > 0 {
      PassesCompose(land, img, m, n - 1);
    }
  }

  /** Known pixels only accumulate: whatever pass m knows, pass m + n knows with the same value. */
  lemma KnownSetGrows(land: Land, img: Image, m: nat, n: nat, x: int, y: int)
    requires SameShape(land, img) && Known(Passes(land, img, m), x, y)
    ensures Known(Passes(land, img, m + n), x, y)
    ensures Passes(land, img, m + n)[y][x] == Passes(land, img, m)[y][x]
  {
    PassesCompose(land, img, m, n);
    KeptForever(land, Passes(land, img, m), n, x, y);
  }

  // ------------------------------------------------------------------ counters and convergence

  datatype Counts = Counts(fixed: nat, unfixable: nat, water: nat)

  function Bump(c: Counts, fate: Fate): Counts {
    match fate
    case Water => c.(water := c.water + 1)
    case Valid => c
    case Filled(_) => c.(fixed := c.fixed + 1)
    case Unfixable => c.(unfixable := c.unfixable + 1)
  }

  /** (x, y) is a position of the raster scan: y rows done and x pixels of the next. */
  predicate Scan(img: Image, y: nat, x: nat) {
    if y < |img| then x <= |img[y]| else y == |img| && x == 0
  }

  /** The counters once the scan has reached (x, y). */
  function CountTo(land: Land, img: Image, y: nat, x: nat): Counts
    requires SameShape(land, img) && Scan(img, y, x)
    decreases y, x
  {
    if x > 0 then Bump(CountTo(land, img, y, x - 1), FateOf(land, img, x - 1, y))
    else if y > 0 then CountTo(land, img, y - 1, |img[y - 1]|)
    else Counts(0, 0, 0)
  }

  function Tally(land: Land, img: Image): Counts
    requires SameShape(land, img)
  {
    CountTo(land, img, |img|, 0)
  }

  /** Land pixels without a value among those scanned so far. */
  function MissingTo(land: Land, img: Image, y: nat, x: nat): nat
    requires SameShape(land, img) && Scan(img, y, x)
    decreases y, x
  {
    if x > 0 then MissingTo(land, img, y, x - 1) + (if land[y][x - 1] && img[y][x - 1] == FILL then 1 else 0)
    else if y > 0 then MissingTo(land, img, y - 1, |img[y - 1]|)
    else 0
  }

  function Missing(land: Land, img: Image): nat
    requires SameShape(land, img)
  {
    MissingTo(land, img, |img|, 0)
  }

  lemma {:induction false} CountsBalanceTo(land: Land, img: Image, y: nat, x: nat)
    requires SameShape(land, img) && Scan(img, y, x)
    ensures var c := CountTo(land, img, y, x);
            && c.fixed + c.unfixable == MissingTo(land, img, y, x)
            && c.unfixable == MissingTo(land, FillPass(land, img), y, x)
    decreases y, x
  {
    if x > 0 {
      CountsBalanceTo(land, img, y, x - 1);
      var out := FillPass(land, img);
      assert out[y][x - 1] == FillPixel(land, img, x - 1, y);
      if FateOf(land, img, x - 1, y).Filled? {
        assert Near(img, x - 1, y, 0, 254);
        FilledBetween(land, img, x - 1, y, 0, 254);
      }
    } else if y > 0 {
      CountsBalanceTo(land, img, y - 1, |img[y - 1]|);
    }
  }

  /** fixedPixels is exactly the drop in missing land pixels; unfixablePixels is what is left. */
  lemma FixedIsTheDrop(land: Land, img: Image)
    requires SameShape(land, img)
    ensures Missing(land, img) == Missing(land, FillPass(land, img)) + Tally(land, img).fixed
    ensures Tally(land, img).unfixable == Missing(land, FillPass(land, img))
  {
    CountsBalanceTo(land, img, |img|, 0);
  }

  /** Pixels scanned so far that the mask calls water. */
  function WaterTo(land: Land, img: Image, y: nat, x: nat): nat
    requires SameShape(land, img) && Scan(img, y, x)
    decreases y, x
  {
    if x > 0 then WaterTo(land, img, y, x - 1) + (if land[y][x - 1] then 0 else 1)
    else if y > 0 then WaterTo(land, img, y - 1, |img[y - 1]|)
    else 0
  }

  /** waterPixels counts the pixels that the mask calls water, filled or not. */
  lemma {:induction false} WaterIsCounted(land: Land, img: Image, y: nat, x: nat)
    requires SameShape(land, img) && Scan(img, y, x)
    ensures CountTo(land, img, y, x).water == WaterTo(land, img, y, x)
    decreases y, x
  {
    if x > 0 {
      WaterIsCounted(land, img, y, x - 1);
    } else if y > 0 {
      WaterIsCounted(land, img, y - 1, |img[y - 1]|);
    }
  }

  lemma {:induction false} FilledIsCounted(land: Land, img: Image, y: nat, x: nat, px: nat, py: nat)
    requires SameShape(land, img) && Scan(img, y, x) && Inside(img, px, py)
    requires FateOf(land, img, px, py).Filled?
    requires py < y || (py == y && px < x)
    ensures CountTo(land, img, y, x).fixed > 0
    decreases y, x
  {
    if x > 0 {
      if !(py == y && px == x - 1) {
        FilledIsCounted(land, img, y, x - 1, px, py);
      }
    } else {
      FilledIsCounted(land, img, y - 1, |img[y - 1]|, px, py);
    }
  }

  /** A pass is the identity exactly when its counter of fixed pixels stays at zero. */
  lemma IdleIsIdentity(land: Land, img: Image)
    requires SameShape(land, img)
    ensures Tally(land, img).fixed == 0 <==> FillPass(land, img) == img
  {
    var out := FillPass(land, img);
    if Tally(land, img).fixed == 0 {
      forall y | 0 <= y < |img| ensures out[y] == img[y] {
        forall x | 0 <= x < |img[y]| ensures out[y][x] == img[y][x] {
          if FateOf(land, img, x, y).Filled? {
            FilledIsCounted(land, img, |img|, 0, x, y);
          }
        }
      }
    } else {
      FixedIsTheDrop(land, img);
    }
  }

  /** A pass that fixes nothing makes every later pass the identity. */
  lemma {:induction false} IdleForever(land: Land, img: Image, n: nat)
    requires SameShape(land, img) && Tally(land, img).fixed == 0
    ensures Passes(land, img, n) == img
  {
    IdleIsIdentity(land, img);
    if n > 0 {
      IdleForever(land, img, n - 1);
    }
  }

  lemma {:induction false} StalledOrShrinking(land: Land, img: Image, n: nat)
    requires SameShape(land, img)
    ensures var p := Passes(land, img, n);
            FillPass(land, p) == p || Missing(land, p) + n <= Missing(land, img)
  {
    if n > 0 {
      StalledOrShrinking(land, img, n - 1);
      var p := Passes(land, img, n - 1);
      IdleIsIdentity(land, p);
      FixedIsTheDrop(land, p);
    }
  }

  /** As many passes as there are missing land pixels reach the fixpoint. */
  lemma Converges(land: Land, img: Image, n: nat, m: nat)
    requires SameShape(land, img) && n >= Missing(land, img)
    ensures Passes(land, img, n + m) == Passes(land, img, n)
  {
    var p := Passes(land, img, n);
    StalledOrShrinking(land, img, n);
    FixedIsTheDrop(land, p);
    IdleIsIdentity(land, p);
    PassesCompose(land, img, n, m);
    IdleForever(land, p, m);
  }
}
