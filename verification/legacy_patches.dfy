/**
 * The older patch extractor of bin/preprocess/patch.py.  Here the factor is
 * looked up once at construction, the sampled cells are multiplied by it
 * while sampling, and `gen_patch` only subtracts half the patch size.
 */
module LegacyPatches {
  import opened PyOps
  import opened Grids
  import opened Sampling
  import opened Patches

  /** A constructed `Patch` object: its mask, its two levels and the factor
      fixed by the constructor. */
  datatype Patch = Patch(mask: Grid<bool>, maskLevel: int, patchLevel: int, factor: int)

  /** `Patch(slide_path, mask, mask_level, patch_level)`: the same
      level-difference lookup as `patch_gen`, failing at construction. */
  function New(mask: Grid<bool>, downsamples: seq<int>, maskLevel: int, patchLevel: int): (r: Result<Patch>)
    ensures r.Ok? <==> -|downsamples| <= maskLevel - patchLevel < |downsamples|
    ensures r.Err? ==> r.error == IndexError(maskLevel - patchLevel)
    ensures r.Ok? ==> r.value.mask == mask && r.value.maskLevel == maskLevel && r.value.patchLevel == patchLevel
    ensures r.Ok? ==> Factor(downsamples, maskLevel, patchLevel) == Ok(r.value.factor)
  {
    match Factor(downsamples, maskLevel, patchLevel)
    case Err(e) => Err(e)
    case Ok(f) => Ok(Patch(mask, maskLevel, patchLevel, f))
  }

  /** A cell multiplied componentwise by `int(self.factor)`. */
  function Scale(c: Coord, k: int): Coord {
    Coord(c.x * k, c.y * k)
  }

  /** `sampled(number)`: every true cell is scaled first, then all are kept
      (fewer than `number`) or `number` are drawn with replacement. */
  function Sampled(p: Patch, number: nat, draws: seq<nat>): (r: seq<Coord>)
    requires ValidDraws(|Where(p.mask)|, number, draws)
    ensures |r| == Min(|Where(p.mask)|, number)
    ensures forall i :: 0 <= i < |r| ==> exists c :: IsTrueCell(p.mask, c) && r[i] == Scale(c, p.factor)
    ensures |Where(p.mask)| < number ==> forall i :: 0 <= i < |r| ==> r[i] == Scale(Where(p.mask)[i], p.factor)
    ensures |Where(p.mask)| >= number ==> forall i :: 0 <= i < |r| ==> r[i] == Scale(Where(p.mask)[draws[i]], p.factor)
  {
    var cells := Where(p.mask);
    var vertices := seq(|cells|, i requires 0 <= i < |cells| => Scale(cells[i], p.factor));
    assert forall i :: 0 <= i < |cells| ==> cells[i] in cells;
    assert forall i :: 0 <= i < |cells| ==> IsTrueCell(p.mask, cells[i]) && vertices[i] == Scale(cells[i], p.factor);
    if |vertices| < number then vertices
    else seq(number, i requires 0 <= i < number => vertices[draws[i]])
  }

  /** Scaling before drawing is the same as drawing, then scaling. */
  lemma SampledIsScaledRandomSample(p: Patch, number: nat, draws: seq<nat>)
    requires ValidDraws(|Where(p.mask)|, number, draws)
    ensures var s := RandomSampled(p.mask, number, draws);
      Sampled(p, number, draws) == seq(|s|, i requires 0 <= i < |s| => Scale(s[i], p.factor))
  {
  }

  /** `gen_patch(vertice, patch_size)`: the anchor is `int(v - patch_size / 2)`
      with no further scaling and no clamping. */
  function GenPatch(p: Patch, v: Coord, size: int): (r: Region)
    ensures r.level == p.patchLevel && r.width == size && r.height == size
    ensures IsTruncQuotient(2 * v.x - size, 2, r.x) && IsTruncQuotient(2 * v.y - size, 2, r.y)
  {
    Region(Anchor(v.x, size), Anchor(v.y, size), p.patchLevel, size, size)
  }

  /** On integer downsamples, for the same mask, levels and draws, the legacy
      pipeline (scale while sampling, subtract in `gen_patch`) requests exactly
      the regions that `patch_gen` requests for the current sampler's output.
      With a fractional factor `c * int(f)` and `int(c * f)` part ways. */
  lemma LegacyMatchesCurrent(mask: Grid<bool>, downsamples: seq<int>, maskLevel: int, patchLevel: int,
                             number: nat, draws: seq<nat>, size: int)
    requires New(mask, downsamples, maskLevel, patchLevel).Ok?
    requires ValidDraws(|Where(mask)|, number, draws)
    ensures var p := New(mask, downsamples, maskLevel, patchLevel).value;
      var legacy := Sampled(p, number, draws);
      var current := PatchGen(downsamples, size, maskLevel, patchLevel, RandomSampled(mask, number, draws));
      && current.Ok?
      && |current.value| == |legacy|
      && forall i :: 0 <= i < |legacy| ==> GenPatch(p, legacy[i], size) == current.value[i]
  {
    var p := New(mask, downsamples, maskLevel, patchLevel).value;
    SampledIsScaledRandomSample(p, number, draws);
  }
}
