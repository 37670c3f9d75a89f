/**
 * The anchor arithmetic of `Patch.patch_gen` in wsiclass/datasets/patch.py:
 * the scale factor between the mask level and the patch level, and the
 * top-left corner of the square region read around each sampled cell.
 * Reading pixels and saving images are left to the slide reader; what is
 * modelled is the list of region requests issued.
 */
module Patches {
  import opened PyOps
  import opened Sampling

  /** The arguments of one `read_region((x, y), level, (width, height))`. */
  datatype Region = Region(x: int, y: int, level: int, width: int, height: int)

  /** `level_downsamples[i]` raised IndexError for this `i`. */
  datatype Error = IndexError(index: int)

  datatype Result<+T> = Ok(value: T) | Err(error: Error)

  /** `level_downsamples[mask_level - patch_level]`: the list is indexed by the
      level difference, so a negative difference counts from the coarsest end. */
  function Factor(downsamples: seq<int>, maskLevel: int, patchLevel: int): (r: Result<int>)
    ensures r.Ok? <==> -|downsamples| <= maskLevel - patchLevel < |downsamples|
    ensures r.Err? ==> r.error == IndexError(maskLevel - patchLevel)
    ensures r.Ok? && maskLevel >= patchLevel ==> r.value == downsamples[maskLevel - patchLevel]
    ensures r.Ok? && maskLevel < patchLevel ==> r.value == downsamples[|downsamples| + maskLevel - patchLevel]
  {
    match Lookup(downsamples, maskLevel - patchLevel)
    case Some(f) => Ok(f)
    case None => Err(IndexError(maskLevel - patchLevel))
  }

  /** `int(v - patch_size / 2)`: true division, so the subtraction may leave a
      half, which `int` truncates toward zero. */
  function Anchor(v: int, size: int): (a: int)
    ensures IsTruncQuotient(2 * v - size, 2, a)
    ensures size % 2 == 0 ==> a + size / 2 == v
    ensures size % 2 == 1 && 2 * v > size ==> 2 * a == 2 * v - size - 1
    ensures size % 2 == 1 && 2 * v < size ==> 2 * a == 2 * v - size + 1
  {
    TruncDiv(2 * v - size, 2)
  }

  /** The request for one coordinate: `int(coord * factor)` is exact for an
      integer factor, then the anchor is taken on each axis. */
  function PatchRegion(c: Coord, factor: int, size: int, level: int): Region {
    Region(Anchor(c.x * factor, size), Anchor(c.y * factor, size), level, size, size)
  }

  /** `patch_gen(coords, output)`: the factor lookup happens once, before the
      loop; then one `size x size` request at `patch_level` per coordinate, in
      input order, with no clamping of the anchor. */
  function PatchGen(downsamples: seq<int>, size: int, maskLevel: int, patchLevel: int,
                    coords: seq<Coord>): (r: Result<seq<Region>>)
    ensures r.Err? <==> Factor(downsamples, maskLevel, patchLevel).Err?
    ensures r.Err? ==> r.error == IndexError(maskLevel - patchLevel)
    ensures r.Ok? ==> |r.value| == |coords|
    ensures r.Ok? ==> forall i :: 0 <= i < |coords| ==>
      && r.value[i].level == patchLevel
      && r.value[i].width == size && r.value[i].height == size
      && IsTruncQuotient(2 * (coords[i].x * Factor(downsamples, maskLevel, patchLevel).value) - size, 2, r.value[i].x)
      && IsTruncQuotient(2 * (coords[i].y * Factor(downsamples, maskLevel, patchLevel).value) - size, 2, r.value[i].y)
  {
    match Factor(downsamples, maskLevel, patchLevel)
    case Err(e) => Err(e)
    case Ok(factor) =>
      Ok(seq(|coords|, i requires 0 <= i < |coords| => PatchRegion(coords[i], factor, size, patchLevel)))
  }

  /** Patches of even size are centred exactly on the rescaled coordinate
      (a point of the patch level's grid; the reader takes the location in
      level-0 pixels, so the region surrounds the cell when `patch_level` is 0). */
  lemma EvenPatchIsCentred(downsamples: seq<int>, size: int, maskLevel: int, patchLevel: int,
                           coords: seq<Coord>, i: int)
    requires size % 2 == 0
    requires PatchGen(downsamples, size, maskLevel, patchLevel, coords).Ok?
    requires 0 <= i < |coords|
    ensures var f := Factor(downsamples, maskLevel, patchLevel).value;
      var r := PatchGen(downsamples, size, maskLevel, patchLevel, coords).value[i];
      r.x + size / 2 == coords[i].x * f && r.y + size / 2 == coords[i].y * f
  {
  }

  /** With equal levels the factor is `level_downsamples[0] = 1`: the anchor
      is the coordinate itself minus half the patch. */
  lemma EqualLevelsKeepCoordinates(downsamples: seq<int>, size: int, level: int, coords: seq<Coord>)
    requires |downsamples| > 0 && downsamples[0] == 1
    ensures PatchGen(downsamples, size, level, level, coords).Ok?
    ensures forall i :: 0 <= i < |coords| ==>
      PatchGen(downsamples, size, level, level, coords).value[i] ==
        Region(Anchor(coords[i].x, size), Anchor(coords[i].y, size), level, size, size)
  {
  }

  /** No clamping: the cell at the origin yields a negative anchor for any
      patch of size two or more, and it is requested as such. */
  lemma OriginAnchorIsNegative(downsamples: seq<int>, size: int, maskLevel: int, patchLevel: int)
    requires size >= 2
    requires Factor(downsamples, maskLevel, patchLevel).Ok?
    ensures var r := PatchGen(downsamples, size, maskLevel, patchLevel, [Coord(0, 0)]).value[0];
      r.x == r.y == -(size / 2) < 0
  {
    var a := Anchor(0, size);
    assert IsTruncQuotient(-size, 2, a);
    assert a == -(size / 2);
  }

  /** A mask cell (10, 10) at level 2 (downsample 4) read at level 0: the
      anchor is `int(40 - size / 2)` on each axis, which is `40 - size / 2`
      exactly when the size is even. */
  lemma LevelTwoToLevelZero(size: int)
    ensures PatchGen([1, 2, 4], size, 2, 0, [Coord(10, 10)]) ==
      Ok([Region(Anchor(40, size), Anchor(40, size), 0, size, size)])
    ensures size % 2 == 0 ==>
      PatchGen([1, 2, 4], size, 2, 0, [Coord(10, 10)]) == Ok([Region(40 - size / 2, 40 - size / 2, 0, size, size)])
  {
    var r := PatchGen([1, 2, 4], size, 2, 0, [Coord(10, 10)]);
    assert Factor([1, 2, 4], 2, 0) == Ok(4);
    assert r.value == [r.value[0]];
  }

  // ------------------------------------------- factor against level ratio

  function Pow(k: int, n: nat): int
    decreases n
  {
    if n == 0 then 1 else k * Pow(k, n - 1)
  }

  lemma {:induction false} PowAdd(k: int, a: nat, b: nat)
    decreases b
    ensures Pow(k, a + b) == Pow(k, a) * Pow(k, b)
  {
    if b > 0 {
      PowAdd(k, a, b - 1);
      assert Pow(k, a + b) == k * Pow(k, a + b - 1);
    }
  }

  /** Every level is `k` times coarser than the one before it. */
  predicate Geometric(downsamples: seq<int>, k: int) {
    forall i :: 0 <= i < |downsamples| ==> downsamples[i] == Pow(k, i)
  }

  /** On a geometric pyramid, the factor looked up by level difference is the
      ratio of the two levels' downsamples, which is what rescaling needs. */
  lemma FactorIsRatioOnGeometricPyramid(downsamples: seq<int>, k: int, maskLevel: int, patchLevel: int)
    requires Geometric(downsamples, k)
    requires 0 <= patchLevel <= maskLevel < |downsamples|
    ensures Factor(downsamples, maskLevel, patchLevel).Ok?
    ensures Factor(downsamples, maskLevel, patchLevel).value * downsamples[patchLevel] == downsamples[maskLevel]
  {
    PowAdd(k, maskLevel - patchLevel, patchLevel);
  }

  /** From level 0, on any pyramid whose finest downsample is 1, the
      looked-up factor is the mask level's own downsample, the ratio. */
  lemma FactorIsRatioFromLevelZero(downsamples: seq<int>, maskLevel: int)
    requires |downsamples| > 0 && downsamples[0] == 1
    requires 0 <= maskLevel < |downsamples|
    ensures Factor(downsamples, maskLevel, 0).Ok?
    ensures Factor(downsamples, maskLevel, 0).value * downsamples[0] == downsamples[maskLevel]
  {
  }

  /** On a pyramid that is not geometric the two can differ: with downsamples
      1, 2, 8 the factor from level 2 to level 1 is 2, not 8 / 2. */
  lemma FactorIsNotRatioInGeneral()
    ensures Factor([1, 2, 8], 2, 1) == Ok(2)
    ensures 2 * [1, 2, 8][1] != [1, 2, 8][2]
  {
  }

  /** A patch level coarser than the mask level gives a negative difference,
      which silently picks a coarse level's downsample instead of failing;
      only a difference beyond the pyramid's depth fails. */
  lemma NegativeDifferenceWraps()
    ensures Factor([1, 2, 4], 0, 1) == Ok(4)
    ensures Factor([1, 2, 4], 0, 4).Err?
  {
  }
}
