/** Integer arithmetic of the rendering helpers: the 12-bit masks that select
    the edges of a block's selection box, the per-byte product of two ARGB
    colours, and the average colour of a sprite's pixels.

    The 12 edge bits are indexed `y * 4 + x * 2 + z` with `y` in 0..2 and
    `x`, `z` in 0..1: bits 0-3 are the bottom edges, 4-7 the vertical ones,
    8-11 the top edges. Colours are 32-bit patterns (see `JavaBase.u32`). */
module RenderUtils {
  import opened JavaBase

  // ---------------------------------------------------------------- masks

  /** `1 << (y * 4 + x * 2 + z)` on Java `int`s: the arithmetic wraps and the
      shift count is its low five bits. */
  function SelectionBit(y: bv32, x: bv32, z: bv32): bv32 {
    1 << ((y * 4 + x * 2 + z) & 31)
  }

  /** A corner triple of the selection box: y in 0..2, x and z in 0..1. */
  predicate EdgeTriple(y: bv32, x: bv32, z: bv32) {
    y < 3 && x < 2 && z < 2
  }

  /** A triple in range selects one bit among the low twelve, and distinct
      triples select distinct bits. */
  lemma SelectionBitsDistinct(y1: bv32, x1: bv32, z1: bv32, y2: bv32, x2: bv32, z2: bv32)
    requires EdgeTriple(y1, x1, z1) && EdgeTriple(y2, x2, z2)
    ensures SelectionBit(y1, x1, z1) & 0xFFF == SelectionBit(y1, x1, z1) != 0
    ensures (y1, x1, z1) != (y2, x2, z2) ==> SelectionBit(y1, x1, z1) != SelectionBit(y2, x2, z2)
  {
  }

  /** `getSelectionMask(face)`: the four edges of the face, OR-ed into an
      initially empty mask; bottom and top come as constants. */
  function FaceMask(face: Facing): bv32 {
    match face
    case Down => 0x00F
    case Up => 0xF00
    case North => 0 | SelectionBit(1, 0, 0) | SelectionBit(1, 1, 0) | SelectionBit(0, 0, 0) | SelectionBit(2, 0, 0)
    case South => 0 | SelectionBit(1, 0, 1) | SelectionBit(1, 1, 1) | SelectionBit(0, 0, 1) | SelectionBit(2, 0, 1)
    case West => 0 | SelectionBit(1, 0, 0) | SelectionBit(1, 0, 1) | SelectionBit(0, 1, 0) | SelectionBit(2, 1, 0)
    case East => 0 | SelectionBit(1, 1, 0) | SelectionBit(1, 1, 1) | SelectionBit(0, 1, 1) | SelectionBit(2, 1, 1)
  }

  /** Bit `b` of `m`. */
  predicate HasBit(m: bv32, b: bv32)
    requires b < 32
  {
    (m >> b) & 1 == 1
  }

  /** The number of set bits of `m`: `m & (m - 1)` clears the lowest one. */
  function BitCount(m: bv32): nat
    decreases m
  {
    if m == 0 then 0 else 1 + BitCount(m & (m - 1))
  }

  const AllFaces: seq<Facing> := [Down, Up, North, South, West, East]

  /** How many of `faces` have edge bit `b` in their mask. */
  function FacesWithEdge(faces: seq<Facing>, b: bv32): nat
    requires b < 32
  {
    if faces == [] then 0
    else (if HasBit(FaceMask(faces[0]), b) then 1 else 0) + FacesWithEdge(faces[1..], b)
  }

  /** The side faces' masks as numbers. */
  lemma SideFaceMasks()
    ensures FaceMask(North) == 0x151 && FaceMask(South) == 0x2A2
    ensures FaceMask(West) == 0x434 && FaceMask(East) == 0x8C8
  {
  }

  /** Every face selects exactly four edges, all among the twelve. */
  lemma FaceMaskFourEdges(face: Facing)
    ensures FaceMask(face) & 0xFFF == FaceMask(face)
    ensures BitCount(FaceMask(face)) == 4
  {
    SideFaceMasks();
    match face
    case Down => FourBits(0x00F, 0x00E, 0x00C, 0x008);
    case Up => FourBits(0xF00, 0xE00, 0xC00, 0x800);
    case North => FourBits(0x151, 0x150, 0x140, 0x100);
    case South => FourBits(0x2A2, 0x2A0, 0x280, 0x200);
    case West => FourBits(0x434, 0x430, 0x420, 0x400);
    case East => FourBits(0x8C8, 0x8C0, 0x880, 0x800);
  }

  /** A mask from which clearing the lowest set bit four times, through
      m1, m2 and m3, leaves nothing. */
  lemma FourBits(m: bv32, m1: bv32, m2: bv32, m3: bv32)
    requires m != 0 && m1 != 0 && m2 != 0 && m3 != 0
    requires m & (m - 1) == m1 && m1 & (m1 - 1) == m2 && m2 & (m2 - 1) == m3 && m3 & (m3 - 1) == 0
    ensures BitCount(m) == 4
  {
    assert BitCount(m3) == 1 + BitCount(0);
    assert BitCount(m2) == 1 + BitCount(m3);
    assert BitCount(m1) == 1 + BitCount(m2);
  }

  /** Each of the twelve edges belongs to exactly two faces. */
  lemma EdgeSharedByTwoFaces(b: bv32)
    requires b < 12
    ensures FacesWithEdge(AllFaces, b) == 2
  {
    SideFaceMasks();
  }

  /** Together the faces select all twelve edges. */
  lemma AllEdgesCovered()
    ensures FaceMask(Down) | FaceMask(Up) | FaceMask(North) | FaceMask(South)
            | FaceMask(West) | FaceMask(East) == 0xFFF
  {
    SideFaceMasks();
  }

  // ------------------------------------------------------ colour product

  /** `(a * b / 0xFF) & 0xFF` for two bytes. */
  function ByteProduct(a: int, b: int): (p: int)
    requires 0 <= a < 256 && 0 <= b < 256
    ensures 0 <= p < 256
  {
    (a * b / 255) % 256
  }

  /** The mask is a no-op: the scaled product of two bytes is a byte. */
  lemma ByteProductIsScaled(a: int, b: int)
    requires 0 <= a < 256 && 0 <= b < 256
    ensures ByteProduct(a, b) == a * b / 255
  {
    MulLe(0, a, b);
    MulLe(a, 255, b);
    MulLe(b, 255, 255);
    DivBelow(a * b, 255, 255);
  }

  /** Lane k of `multiplyColor`. */
  function ProductLane(src: u32, dst: u32, k: nat): (b: int)
    requires k < 4
    ensures 0 <= b < 256
  {
    ByteProduct(ByteOf(src, k), ByteOf(dst, k))
  }

  /** The lanes `0..n-1` of the product, each placed at its byte. */
  function ProductLanes(src: u32, dst: u32, n: nat): (p: int)
    requires n <= 4
  {
    if n == 0 then 0 else ProductLanes(src, dst, n - 1) + ProductLane(src, dst, n - 1) * LanePow(n - 1)
  }

  /** The colour whose byte lanes are the lane products. */
  function ProductColor(src: u32, dst: u32): u32 {
    FromBytes(ProductLane(src, dst, 0), ProductLane(src, dst, 1), ProductLane(src, dst, 2), ProductLane(src, dst, 3))
  }

  /** The partial products through lane 3 are the product colour, and before
      lane n the partial product occupies only the lanes below n. */
  lemma ProductLanesShape(src: u32, dst: u32)
    ensures ProductLanes(src, dst, 0) == 0
    ensures 0 <= ProductLanes(src, dst, 1) < 0x100
    ensures 0 <= ProductLanes(src, dst, 2) < 0x1_0000
    ensures 0 <= ProductLanes(src, dst, 3) < 0x100_0000
    ensures ProductLanes(src, dst, 4) == ProductColor(src, dst)
  {
    var l0, l1, l2, l3 := ProductLane(src, dst, 0), ProductLane(src, dst, 1), ProductLane(src, dst, 2), ProductLane(src, dst, 3);
    assert ProductLanes(src, dst, 1) == l0;
    assert ProductLanes(src, dst, 2) == l0 + 0x100 * l1;
    assert ProductLanes(src, dst, 3) == l0 + 0x100 * l1 + 0x1_0000 * l2;
    assert ProductLanes(src, dst, 4) == l0 + 0x100 * l1 + 0x1_0000 * l2 + 0x100_0000 * l3;
  }

  /** `multiplyColor`: the loop over `i = 0, 8, 16, 24` OR-s each lane product
      into `out` at bit `i`; the lane is still zero there, so the OR adds. */
  method MultiplyColor(src: u32, dst: u32) returns (out: u32)
    ensures out == ProductColor(src, dst)
  {
    ProductLanesShape(src, dst);
    out := 0;
    var i := 0;
    while i < 32
      invariant i == 0 || i == 8 || i == 16 || i == 24 || i == 32
      invariant out == ProductLanes(src, dst, i / 8)
    {
      var n := i / 8;
      LaneStep(src, dst, n);
      out := out + ProductLane(src, dst, n) * LanePow(n);
      i := i + 8;
    }
  }

  /** Adding lane n to the partial product keeps it a 32-bit pattern. */
  lemma LaneStep(src: u32, dst: u32, n: nat)
    requires n < 4
    ensures ProductLanes(src, dst, n + 1) == ProductLanes(src, dst, n) + ProductLane(src, dst, n) * LanePow(n)
    ensures 0 <= ProductLanes(src, dst, n + 1) < TWO_32
  {
    ProductLanesShape(src, dst);
    if n == 0 {
      assert ProductLanes(src, dst, 1) < TWO_32;
    } else if n == 1 {
      assert ProductLanes(src, dst, 2) < TWO_32;
    } else if n == 2 {
      assert ProductLanes(src, dst, 3) < TWO_32;
    } else {
      assert ProductLanes(src, dst, 4) == ProductColor(src, dst);
    }
  }

  /** Every byte of the product is `src byte * dst byte / 255`, within 0..255. */
  lemma {:induction false} ProductColorBytes(src: u32, dst: u32, k: nat)
    requires k < 4
    ensures ByteOf(ProductColor(src, dst), k) == ByteOf(src, k) * ByteOf(dst, k) / 255
    ensures 0 <= ByteOf(ProductColor(src, dst), k) <= 255
  {
    FromBytesLanes(ProductLane(src, dst, 0), ProductLane(src, dst, 1), ProductLane(src, dst, 2), ProductLane(src, dst, 3));
    ByteProductIsScaled(ByteOf(src, k), ByteOf(dst, k));
  }

  /** The product does not depend on the order of its arguments. */
  lemma ProductCommutes(src: u32, dst: u32)
    ensures ProductColor(src, dst) == ProductColor(dst, src)
  {
    forall k | 0 <= k < 4
      ensures ProductLane(src, dst, k) == ProductLane(dst, src, k)
    {
      assert ByteOf(src, k) * ByteOf(dst, k) == ByteOf(dst, k) * ByteOf(src, k);
    }
  }

  lemma WhiteLane(c: u32, k: nat)
    requires k < 4
    ensures ProductLane(c, 0xFFFF_FFFF, k) == ByteOf(c, k)
  {
    assert ByteOf(0xFFFF_FFFF, k) == 255;
    ByteProductIsScaled(ByteOf(c, k), 255);
  }

  /** Opaque white (-1) leaves a colour unchanged. */
  lemma {:induction false} WhiteIsIdentity(c: u32)
    ensures ProductColor(c, 0xFFFF_FFFF) == c
  {
    WhiteLane(c, 0);
    WhiteLane(c, 1);
    WhiteLane(c, 2);
    WhiteLane(c, 3);
    LanesDetermine(c);
  }

  // ------------------------------------------------------ average colour

  datatype AveragingMode = Full | HEdgesOnly | VEdgesOnly

  /** Pixels `x`, `width + x`, ..., `(n - 1) * width + x`: column `x` of the first n rows. */
  function Column(data: seq<u32>, width: nat, x: nat, n: nat): (s: seq<u32>)
    requires x < width && n * width <= |data|
    ensures |s| == n
    ensures forall i :: 0 <= i < n ==> ColumnPixel(data, width, x, i, s[i])
  {
    if n == 0 then []
    else
      RowBound(n - 1, width, n);
      Column(data, width, x, n - 1) + [data[(n - 1) * width + x]]
  }

  /** `c` is pixel (x, y) of the rows of `data`, `data[y * width + x]`. */
  ghost predicate ColumnPixel(data: seq<u32>, width: nat, x: nat, y: nat, c: u32) {
    0 <= y * width + x < |data| && c == data[y * width + x]
  }

  /** The last n pixels from the end backwards: `data[len - 1 - i]` for i < n. */
  function Tail(data: seq<u32>, n: nat): (s: seq<u32>)
    requires n <= |data|
    ensures |s| == n
    ensures forall i :: 0 <= i < n ==> s[i] == data[|data| - 1 - i]
  {
    if n == 0 then [] else Tail(data, n - 1) + [data[|data| - n]]
  }

  /** The pixels each mode samples, in the order the loops read them. */
  function Samples(data: seq<u32>, width: nat, height: nat, mode: AveragingMode): seq<u32>
    requires width > 0 && height > 0 && width * height <= |data|
  {
    match mode
    case Full => data[..height * width]
    case HEdgesOnly => Column(data, width, 0, height) + Column(data, width, width - 1, height)
    case VEdgesOnly => data[..width] + Tail(data, width)
  }

  /** The sum of byte lane k over the pixels. */
  function ChannelSum(s: seq<u32>, k: nat): (sum: nat)
    requires k < 4
    ensures sum <= 255 * |s|
  {
    if s == [] then 0 else ChannelSum(s[..|s| - 1], k) + ByteOf(s[|s| - 1], k)
  }

  /** The opaque colour whose red, green and blue are the integer means of
      the samples' channels. */
  function MeanColor(s: seq<u32>): u32
    requires |s| > 0
  {
    MeanBound(s, 0);
    MeanBound(s, 1);
    MeanBound(s, 2);
    FromBytes(ChannelSum(s, 0) / |s|, ChannelSum(s, 1) / |s|, ChannelSum(s, 2) / |s|, 0xFF)
  }

  lemma MeanBound(s: seq<u32>, k: nat)
    requires |s| > 0 && k < 4
    ensures 0 <= ChannelSum(s, k) / |s| < 256
  {
    ByteMean(ChannelSum(s, k), |s|);
  }

  /** The mean of n bytes is a byte. */
  lemma ByteMean(sum: int, n: int)
    requires n > 0 && 0 <= sum <= 255 * n
    ensures 0 <= sum / n < 256 && (sum / n) % 256 == sum / n
  {
    DivBelow(sum, n, 255);
  }

  lemma ChannelSumSnoc(s: seq<u32>, c: u32, k: nat)
    requires k < 4
    ensures ChannelSum(s + [c], k) == ChannelSum(s, k) + ByteOf(c, k)
  {
    assert (s + [c])[..|s|] == s;
  }

  /** `avgColor[i] += byte i of c` for the three colour channels. */
  method AddPixel(avgColor: array<int>, ghost seen: seq<u32>, c: u32)
    requires HoldsSums(avgColor, seen)
    modifies avgColor
    ensures HoldsSums(avgColor, seen + [c])
  {
    ChannelSumSnoc(seen, c, 0);
    ChannelSumSnoc(seen, c, 1);
    ChannelSumSnoc(seen, c, 2);
    avgColor[0] := avgColor[0] + ByteOf(c, 0);
    avgColor[1] := avgColor[1] + ByteOf(c, 1);
    avgColor[2] := avgColor[2] + ByteOf(c, 2);
  }

  /** The channel sums of `seen` are in `avgColor`. */
  ghost predicate HoldsSums(avgColor: array<int>, seen: seq<u32>)
    reads avgColor
  {
    avgColor.Length == 3 && forall k :: 0 <= k < 3 ==> avgColor[k] == ChannelSum(seen, k)
  }

  /** The FULL case: rows `j`, columns `i`, pixel `data[j * width + i]`. */
  method SumFull(avgColor: array<int>, data: seq<u32>, width: nat, height: nat)
    requires width > 0 && height > 0 && width * height <= |data|
    requires HoldsSums(avgColor, [])
    modifies avgColor
    ensures HoldsSums(avgColor, Samples(data, width, height, Full))
  {
    ghost var seen: seq<u32> := [];
    var j := 0;
    while j < height
      invariant 0 <= j <= height
      invariant j * width <= height * width
      invariant seen == data[..j * width]
      invariant HoldsSums(avgColor, seen)
    {
      RowBound(j, width, height);
      var i := 0;
      while i < width
        invariant 0 <= i <= width
        invariant seen == data[..j * width + i]
        invariant HoldsSums(avgColor, seen)
      {
        var c := data[j * width + i];
        AddPixel(avgColor, seen, c);
        seen := seen + [c];
        assert seen == data[..j * width + i + 1];
        i := i + 1;
      }
      assert j * width + width == (j + 1) * width;
      j := j + 1;
    }
  }

  /** The inner loop of the H_EDGES_ONLY case: column `x`, top to bottom. */
  method SumColumn(avgColor: array<int>, ghost start: seq<u32>, data: seq<u32>, width: nat, height: nat, x: nat)
    requires x < width && width * height <= |data|
    requires HoldsSums(avgColor, start)
    modifies avgColor
    ensures HoldsSums(avgColor, start + Column(data, width, x, height))
  {
    ghost var seen := start;
    var i := 0;
    while i < height
      invariant 0 <= i <= height
      invariant seen == start + Column(data, width, x, i)
      invariant HoldsSums(avgColor, seen)
    {
      RowBound(i, width, height);
      var c := data[i * width + x];
      AddPixel(avgColor, seen, c);
      assert Column(data, width, x, i + 1) == Column(data, width, x, i) + [c];
      seen := seen + [c];
      i := i + 1;
    }
  }

  /** The H_EDGES_ONLY case: pass `j` reads column 0, then column `width - 1`. */
  method SumHEdges(avgColor: array<int>, data: seq<u32>, width: nat, height: nat)
    requires width > 0 && height > 0 && width * height <= |data|
    requires HoldsSums(avgColor, [])
    modifies avgColor
    ensures HoldsSums(avgColor, Samples(data, width, height, HEdgesOnly))
  {
    ghost var seen: seq<u32> := [];
    var j := 0;
    while j < 2
      invariant 0 <= j <= 2
      invariant j == 0 ==> seen == []
      invariant j == 1 ==> seen == Column(data, width, 0, height)
      invariant j == 2 ==> seen == Column(data, width, 0, height) + Column(data, width, width - 1, height)
      invariant HoldsSums(avgColor, seen)
    {
      var x := if j > 0 then width - 1 else 0;
      SumColumn(avgColor, seen, data, width, height, x);
      seen := seen + Column(data, width, x, height);
      j := j + 1;
    }
  }

  /** The V_EDGES_ONLY case: pass `j` reads `data[i]`, then `data[len - 1 - i]`. */
  method SumVEdges(avgColor: array<int>, data: seq<u32>, width: nat, height: nat)
    requires width > 0 && height > 0 && width * height <= |data|
    requires HoldsSums(avgColor, [])
    modifies avgColor
    ensures HoldsSums(avgColor, Samples(data, width, height, VEdgesOnly))
  {
    RowBound(0, width, height);
    ghost var seen: seq<u32> := [];
    var j := 0;
    while j < 2
      invariant 0 <= j <= 2
      invariant j == 0 ==> seen == []
      invariant j == 1 ==> seen == data[..width]
      invariant j == 2 ==> seen == data[..width] + Tail(data, width)
      invariant HoldsSums(avgColor, seen)
    {
      ghost var start := seen;
      var i := 0;
      while i < width
        invariant 0 <= i <= width
        invariant seen == start + (if j > 0 then Tail(data, i) else data[..i])
        invariant HoldsSums(avgColor, seen)
      {
        var c := data[if j > 0 then |data| - 1 - i else i];
        AddPixel(avgColor, seen, c);
        assert (if j > 0 then Tail(data, i + 1) else data[..i + 1])
            == (if j > 0 then Tail(data, i) else data[..i]) + [c];
        seen := seen + [c];
        i := i + 1;
      }
      j := j + 1;
    }
  }

  /** `avgColor[i] = (avgColor[i] / pixelCount) & 0xFF`: each sum becomes the
      channel's integer mean, which is a byte, so the mask changes nothing. */
  method DivideSums(avgColor: array<int>, ghost seen: seq<u32>, pixelCount: int)
    requires HoldsSums(avgColor, seen) && pixelCount == |seen| > 0
    modifies avgColor
    ensures forall k :: 0 <= k < 3 ==> 0 <= avgColor[k] == ChannelSum(seen, k) / |seen| < 256
  {
    var i := 0;
    while i < 3
      invariant 0 <= i <= 3
      invariant forall k :: 0 <= k < i ==> 0 <= avgColor[k] == ChannelSum(seen, k) / |seen| < 256
      invariant forall k :: i <= k < 3 ==> avgColor[k] == ChannelSum(seen, k)
    {
      var sum := avgColor[i];
      ByteMean(sum, pixelCount);
      avgColor[i] := (sum / pixelCount) % 256;
      i := i + 1;
    }
  }

  /** `getAverageColor` on the sprite's first frame `data`: sums the channels
      of the sampled pixels, divides by the number of samples and packs the
      means under an opaque alpha. The sums are unbounded integers. */
  method GetAverageColor(data: seq<u32>, width: nat, height: nat, mode: AveragingMode) returns (color: u32)
    requires width > 0 && height > 0 && width * height <= |data|
    ensures color == MeanColor(Samples(data, width, height, mode))
  {
    var avgColor := new int[3](_ => 0);
    var pixelCount;
    match mode {
      case Full =>
        pixelCount := height * width;
        SumFull(avgColor, data, width, height);
      case HEdgesOnly =>
        pixelCount := height * 2;
        SumHEdges(avgColor, data, width, height);
      case VEdgesOnly =>
        pixelCount := width * 2;
        SumVEdges(avgColor, data, width, height);
    }
    ghost var seen := Samples(data, width, height, mode);
    RowBound(0, width, height);
    DivideSums(avgColor, seen, pixelCount);
    color := FromBytes(avgColor[0], avgColor[1], avgColor[2], 0xFF);
  }

  /** FULL averages every pixel of the frame. */
  lemma SamplesFull(data: seq<u32>, width: nat, height: nat)
    requires width > 0 && height > 0 && width * height <= |data|
    ensures Samples(data, width, height, Full) == data[..width * height]
  {
  }

  /** H_EDGES_ONLY averages the first and the last column, 2 * height pixels. */
  lemma SamplesHEdges(data: seq<u32>, width: nat, height: nat)
    requires width > 0 && height > 0 && width * height <= |data|
    ensures var s := Samples(data, width, height, HEdgesOnly);
      |s| == 2 * height &&
      (forall i :: 0 <= i < height ==> ColumnPixel(data, width, 0, i, s[i])) &&
      (forall i :: height <= i < 2 * height ==> ColumnPixel(data, width, width - 1, i - height, s[i]))
  {
    var left := Column(data, width, 0, height);
    var right := Column(data, width, width - 1, height);
    var s := Samples(data, width, height, HEdgesOnly);
    assert s == left + right;
    assert forall i :: 0 <= i < height ==> s[i] == left[i];
    assert forall i :: height <= i < 2 * height ==> s[i] == right[i - height];
  }

  /** V_EDGES_ONLY averages the first `width` entries, then the last `width`
      entries from the end backwards: 2 * width pixels. */
  lemma {:induction false} SamplesVEdges(data: seq<u32>, width: nat, height: nat)
    requires width > 0 && height > 0 && width * height <= |data|
    ensures var s := Samples(data, width, height, VEdgesOnly);
      |s| == 2 * width &&
      (forall i :: 0 <= i < width ==> i < |data| && s[i] == data[i]) &&
      (forall i :: width <= i < 2 * width ==>
         0 <= |data| - 1 - (i - width) && s[i] == data[|data| - 1 - (i - width)])
  {
    RowBound(0, width, height);
  }

  /** The average is opaque, and each colour channel is the integer mean of
      that channel over the samples: `mean * n <= sum < (mean + 1) * n`. */
  lemma {:induction false} MeanColorChannels(s: seq<u32>, k: nat)
    requires |s| > 0 && k < 3
    ensures ByteOf(MeanColor(s), 3) == 0xFF
    ensures var mean := ByteOf(MeanColor(s), k);
      mean * |s| <= ChannelSum(s, k) < (mean + 1) * |s|
  {
    MeanBound(s, 0);
    MeanBound(s, 1);
    MeanBound(s, 2);
    FromBytesLanes(ChannelSum(s, 0) / |s|, ChannelSum(s, 1) / |s|, ChannelSum(s, 2) / |s|, 0xFF);
    DivBrackets(ChannelSum(s, k), |s|);
  }

  /** A frame of one colour averages to that colour made opaque, in every mode. */
  lemma {:induction false} UniformFrameAverage(s: seq<u32>, c: u32)
    requires |s| > 0 && forall i :: 0 <= i < |s| ==> s[i] == c
    ensures MeanColor(s) == FromBytes(ByteOf(c, 0), ByteOf(c, 1), ByteOf(c, 2), 0xFF)
  {
    UniformSum(s, c, 0);
    UniformSum(s, c, 1);
    UniformSum(s, c, 2);
  }

  lemma {:induction false} UniformSum(s: seq<u32>, c: u32, k: nat)
    requires k < 4 && forall i :: 0 <= i < |s| ==> s[i] == c
    ensures ChannelSum(s, k) == |s| * ByteOf(c, k)
    ensures |s| > 0 ==> ChannelSum(s, k) / |s| == ByteOf(c, k)
    decreases |s|
  {
    if s != [] {
      var n := |s| - 1;
      assert forall i :: 0 <= i < |s[..n]| ==> s[..n][i] == c;
      UniformSum(s[..n], c, k);
      var b := ByteOf(c, k);
      assert ChannelSum(s, k) == n * b + b;
      MulSucc(n, b);
      DivExact(b, n + 1);
    }
  }
}
