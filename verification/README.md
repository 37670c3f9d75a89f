# Tissue, tumor and normal masks and patch sampling for whole-slide images

This project models the preprocessing core of a whole-slide-image
classification pipeline:

- the mask builder derives a boolean mask at one pyramid level. The tissue
  mask uses per-channel thresholds and an `rgb_min` floor. The tumor mask fills
  annotation polygons. The normal mask is tissue minus tumor.
- the sampler draws mask cells, all of them or `number` draws with
  replacement.
- the patch extractor rescales a sampled cell to the patch level and
  requests a square region anchored half a patch before it (around the cell
  when the patch level is 0).

Both variants of the code are modelled. The current variant is in
`wsiclass/datasets` and the older one in `bin/preprocess`. The older tissue
and tumor masks are the same code line for line, so one definition
(`Masks.TissueMask`, `Masks.TumorMask`) serves both. `LegacyMasks` adds only
the `is_tumor` switch of the older `normal_mask`. `LegacyPatches` holds the
older scale-while-sampling extractor, and a lemma shows that it issues the
same region requests as the current one on integer downsamples.

Modules:

- `PyOps`: Python's `int(a / d)` (truncation toward zero) and list indexing
  with negative indices.
- `Grids`: two-dimensional arrays with an explicit numpy shape, and transposition.
- `Masks`, `LegacyMasks`: the two `mask.py` files.
- `Sampling`: `sampled.py`.
- `Patches`, `LegacyPatches`: the two `patch.py` files.

Collaborators are inputs. The slide reader's output is a pixel buffer of shape `(h, w)` together with the level's
`(w, h)` and downsample. The HSV conversion is a pixel-to-saturation function.
Otsu's method yields four integer thresholds. `cv2.fillPoly` is a coverage
relation: polygon, column, row. `np.random.randint` is a sequence of indices.

Every operation is a pure function, so the mask given to the sampler is
unchanged by construction.

Points where the code behaves in a way that is easy to misread:

- The sampler keeps every cell only when the true count `T` is strictly
  below `number`. With `T == number` it still draws, so duplicates can
  appear although `T` distinct cells exist (`Sampling.ExactCountCanRepeat`).
- The patch factor is `level_downsamples[mask_level - patch_level]`, indexed
  by the level difference. On a geometric pyramid it is `d_mask / d_patch`
  for every pair of levels (`Patches.FactorIsRatioOnGeometricPyramid`). When
  `patch_level` is 0 it is the ratio on any pyramid with `d_0 = 1`
  (`Patches.FactorIsRatioFromLevelZero`). On other pyramids and level pairs
  it can differ (`Patches.FactorIsNotRatioInGeneral`). A negative difference wraps around
  to the coarse end of the list (`Patches.NegativeDifferenceWraps`).
- The anchor is truncated toward zero by `int()`, not rounded, so for an odd
  patch size it sits half a pixel off the "center vertices" the docstring at
  wsiclass/datasets/patch.py:30 names.
- The anchor is computed in the patch level's pixels, but the reader takes
  a region's location in level-0 pixels. So the region surrounds the
  sampled cell only when `patch_level` is 0.
- In the current variant a level difference outside the pyramid fails inside
  `patch_gen`. The older variant fails in its constructor.

## Model

| member | source | states |
|---|---|---|
| `PyOps.TruncDiv` | wsiclass/datasets/mask.py:76-77 | `int(a / d)` brackets `a` from the zero side within one step of `d`, for both signs of `a` |
| `PyOps.TruncQuotientIsUnique` | wsiclass/datasets/patch.py:37-38 | only one integer meets that bracketing, so the contract fixes `int()` exactly |
| `PyOps.TruncDivOdd` | bin/preprocess/mask.py:78-79 | negating the dividend of a truncating quotient negates the quotient, so `int(-a / d) == -int(a / d)` |
| `Masks.TissueMask` | wsiclass/datasets/mask.py:29-48 | mask has shape `(w, h)`; cell `[x][y]` is true iff buffer pixel at row `y`, column `x` has `S > tS`, not all of `R > tR, G > tG, B > tB`, and `R, G, B > rgb_min` |
| `Masks.NearWhiteIsNotTissue` | wsiclass/datasets/mask.py:39-42 | a pixel above all three colour thresholds is never tissue |
| `Masks.NearWhiteImageHasNoTissue` | wsiclass/datasets/mask.py:39-48 | an image of near-white pixels gives an all-false tissue mask |
| `Masks.DarkPixelIsNotTissue` | bin/preprocess/mask.py:43-47 | a pixel with some colour channel `<= rgb_min` is never tissue |
| `Masks.RaisingFloorShrinksTissue` | wsiclass/datasets/mask.py:44-48 | with thresholds fixed, a higher `rgb_min` gives a subset of the tissue mask |
| `Masks.ScaleVertex` | wsiclass/datasets/mask.py:76-77 | each vertex coordinate is divided by the level downsample and truncated toward zero |
| `Masks.FillAll` | wsiclass/datasets/mask.py:75-78 | after the fill loop a cell is 255 if some polygon covers it, and otherwise keeps its value |
| `Masks.TumorCanvas` | bin/preprocess/mask.py:73-80 | the canvas has shape `(h, w)` and only ever holds 0 or 255 |
| `Masks.TumorMask` | wsiclass/datasets/mask.py:71-81 | after `> 127` and transposition the mask has shape `(w, h)`, and `[x][y]` is true iff some scaled polygon covers column `x`, row `y` |
| `Masks.TumorMaskTransposedBackIsCanvas` | wsiclass/datasets/mask.py:80-81 | transposing the tumor mask back gives the `(h, w)` canvas binarised at `> 127`, so transposition is the only layout change |
| `Masks.NoAnnotationsNoTumor` | bin/preprocess/mask.py:73-83 | with no polygons the tumor mask is all false |
| `Masks.TumorMaskIgnoresOrder` | bin/preprocess/mask.py:77-82 | annotation lists with the same polygons, in any order or multiplicity, give the same tumor mask |
| `Masks.NormalMask` | wsiclass/datasets/mask.py:84-93 | cell `[x][y]` is true iff pixel row `y`, column `x` is tissue and no scaled polygon covers column `x`, row `y`; both masks are aligned on the same slide point |
| `Masks.NormalBetweenTissueAndTumor` | wsiclass/datasets/mask.py:92 | the normal mask is a subset of the tissue mask and disjoint from the tumor mask |
| `Masks.TissueSplitsIntoNormalAndTumor` | bin/preprocess/mask.py:97 | a tissue cell is either normal or in the tumor mask |
| `Masks.NormalWithoutAnnotationsIsTissue` | wsiclass/datasets/mask.py:80-92 | with no annotations the normal mask equals the tissue mask |
| `LegacyMasks.NormalMask` | bin/preprocess/mask.py:96-99 | a cell is normal iff it is tissue and, on a tumor slide only, not in the tumor mask |
| `LegacyMasks.NonTumorIgnoresAnnotations` | bin/preprocess/mask.py:98-99 | without `is_tumor` the normal mask is the tissue mask, whatever the annotations and coverage |
| `LegacyMasks.TumorSlideMatchesCurrent` | bin/preprocess/mask.py:96-97 | with `is_tumor` the older normal mask is the current one |
| `Sampling.Where` | wsiclass/datasets/sampled.py:15-16 | the enumeration holds exactly the true cells, in strictly increasing row-major order |
| `Sampling.WhereLengthIsCount` | wsiclass/datasets/sampled.py:15-18 | the number of enumerated vertices equals the count of true cells |
| `Sampling.RandomSampled` | wsiclass/datasets/sampled.py:15-24 | length is `min(T, number)`; every entry is a true cell; `T < number` gives the full enumeration; otherwise entry `i` is cell `draws[i]` |
| `Sampling.ShortMaskGivesAllCellsOnce` | wsiclass/datasets/sampled.py:15-19 | with fewer than `number` true cells the result is every true cell, once each, in row-major order |
| `Sampling.EmptyMaskGivesNoSamples` | wsiclass/datasets/sampled.py:18-19 | an all-false mask with `number >= 1` needs no draws and yields nothing |
| `Sampling.ExactCountCanRepeat` | wsiclass/datasets/sampled.py:18-22 | with exactly `number` true cells the draw branch runs and can return the same cell twice |
| `Patches.Factor` | wsiclass/datasets/patch.py:34 | the factor is the downsample at index `mask_level - patch_level`, negative differences wrapping, IndexError outside the list |
| `Patches.Anchor` | wsiclass/datasets/patch.py:37-38 | `int(v - size / 2)`: exact centre for even sizes; for odd sizes the half is dropped toward zero: `2 * anchor` is `2v - size - 1` when `2v - size` is positive and `2v - size + 1` when it is negative |
| `Patches.PatchGen` | wsiclass/datasets/patch.py:33-42 | fails iff the factor lookup fails; otherwise one `size x size` request at `patch_level` per coordinate, in input order, anchored at the truncated `coord * factor - size / 2` (the file-name failure at :44 is left out) |
| `Patches.EvenPatchIsCentred` | wsiclass/datasets/patch.py:37-38 | for even sizes anchor plus half the size is the rescaled coordinate, in the patch level's pixels |
| `Patches.EqualLevelsKeepCoordinates` | wsiclass/datasets/patch.py:34-38 | equal levels use `downsamples[0] = 1`, so the anchor is `int(c - size / 2)`, with no scaling |
| `Patches.OriginAnchorIsNegative` | wsiclass/datasets/patch.py:37-42 | the origin cell gives the anchor `-(size / 2)`, requested without clamping |
| `Patches.LevelTwoToLevelZero` | wsiclass/datasets/patch.py:34-42 | cell `(10, 10)` at a level of downsample 4 maps to anchor `int(40 - size / 2)` at level 0 for every size, which is `40 - size / 2` for even sizes |
| `Patches.FactorIsRatioOnGeometricPyramid` | wsiclass/datasets/patch.py:34 | on a pyramid with downsamples `k^i`, the looked-up factor times `d_patch` equals `d_mask` |
| `Patches.FactorIsRatioFromLevelZero` | wsiclass/datasets/patch.py:34 | with `patch_level` 0 and `d_0 = 1`, the looked-up factor is `d_mask`, the ratio, on any pyramid |
| `Patches.FactorIsNotRatioInGeneral` | bin/preprocess/patch.py:17 | on downsamples 1, 2, 8 the factor from level 2 to level 1 is 2, not the ratio 4 |
| `Patches.NegativeDifferenceWraps` | wsiclass/datasets/patch.py:34 | a patch level one above the mask level picks the last downsample; a difference beyond the pyramid fails |
| `LegacyPatches.New` | bin/preprocess/patch.py:11-17 | construction succeeds iff the level-difference lookup does, and then stores exactly the looked-up factor, wrapped index included |
| `LegacyPatches.Sampled` | bin/preprocess/patch.py:19-34 | length is `min(T, number)`; each entry is a true cell times the factor; all scaled cells in row-major order when `T < number`, else scaled cell `draws[i]` |
| `LegacyPatches.SampledIsScaledRandomSample` | bin/preprocess/patch.py:25-32 | scaling every cell before drawing equals drawing with the current sampler, then scaling |
| `LegacyPatches.GenPatch` | bin/preprocess/patch.py:43-47 | the anchor is `int(v - size / 2)` with no further scaling, in a `size x size` request at `patch_level` |
| `LegacyPatches.LegacyMatchesCurrent` | bin/preprocess/patch.py:25-47 | on integer downsamples, for the same mask, levels and draws, the older pipeline requests exactly the regions the current `patch_gen` requests |

## Left out

- Slide reading (`OpenSlide`, `read_region`, `.convert("RGB")`). The pixel buffer and the level's dimensions and downsample are inputs. How the reader fills regions that leave the slide, and its level-0 reading of the location argument, are not modelled.
- The RGB-to-HSV conversion. Saturation is a caller-supplied per-pixel function.
- Otsu threshold selection. The four thresholds are integer parameters.
- Polygon scan conversion (`cv2.fillPoly`). It is an abstract coverage relation, so nothing is claimed about polygon geometry or degenerate polygons.
- XML annotation parsing and `np.round`'s half-to-even rule on float vertices. Polygons are given as integer vertices.
- Floating-point downsamples. They are integers, so `int(factor)` in the older sampler and `int(coord * factor)` are exact.
- Masks.ScaleVertex: does not model the platform-dependent result of the float-to-`int32` cast `astype(np.int32)` for quotients outside the 32-bit range.
- Sampling.RandomSampled: a negative `number`, for which `np.random.randint` raises, is excluded by the `nat` type. (With no true cells and `number == 0`, `randint` returns an empty array, as the model's empty sequence does.)
- LegacyPatches.LegacyMatchesCurrent: holds only for integer downsamples. With the float downsamples the reader reports, the older sampler's `c * int(f)` and the current `int(c * f)` differ (f = 2.5, c = 2 gives 4 against 5), so the two pipelines can request different regions.
- Randomness. Draws are a caller-supplied index sequence, each below the true count.
- Saving: `np.save`, the optional `output` arguments of the older masks, and `img.save`.
- Patch file names. The name step at wsiclass/datasets/patch.py:44 calls a misspelled method and raises after the first region is read, so as written the loop stops at its first coordinate. The model gives the request list the loop is written to produce.
- Isolating per-coordinate read failures. Neither variant does it.
- `wsiclass/datasets/__init__.py`, which only re-exports names.
