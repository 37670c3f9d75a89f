/**
 * The mask builder of wsiclass/datasets/mask.py: a tissue mask by channel
 * thresholding, a tumor mask by filling annotation polygons, and a normal
 * mask as tissue minus tumor.
 *
 * The slide reader, the RGB-to-HSV conversion, Otsu's threshold selection
 * and polygon scan conversion are collaborators: the read buffer, the
 * saturation of a pixel, the four thresholds and the set of cells a polygon
 * covers are inputs here.
 */
module Masks {
  import opened PyOps
  import opened Grids

  type Byte = x: int | 0 <= x < 256

  /** One pixel of the RGB read buffer. */
  datatype Pixel = Pixel(r: Byte, g: Byte, b: Byte)

  /** The thresholds Otsu's method picked for the R, G, B and S channels. */
  datatype Thresholds = Thresholds(r: int, g: int, b: int, s: int)

  /** One pyramid level: `level_dimensions[level]` is `(w, h)` and
      `level_downsamples[level]` is `downsample`. */
  datatype Level = Level(w: nat, h: nat, downsample: int)

  predicate ValidLevel(lv: Level) {
    lv.downsample >= 1
  }

  /** Saturation of a pixel, as the HSV conversion computes it. */
  type Saturation = Pixel -> Byte

  // ---------------------------------------------------------------- tissue

  /** Near-white: every colour channel above its threshold. */
  predicate Background(p: Pixel, t: Thresholds) {
    p.r > t.r && p.g > t.g && p.b > t.b
  }

  /** Every colour channel strictly above the `rgb_min` floor. */
  predicate AboveFloor(p: Pixel, rgbMin: int) {
    p.r > rgbMin && p.g > rgbMin && p.b > rgbMin
  }

  /** The per-pixel combination `tissue_S & tissue_RGB & min_R & min_G & min_B`. */
  predicate IsTissue(p: Pixel, sat: Saturation, t: Thresholds, rgbMin: int) {
    sat(p) > t.s && !Background(p, t) && AboveFloor(p, rgbMin)
  }

  /** `tissue_mask()`: the buffer read at the level has shape `(h, w)` and is
      transposed first, so cell `[x][y]` of the mask judges buffer pixel
      row `y`, column `x`. */
  function TissueMask(buf: Grid<Pixel>, lv: Level, sat: Saturation, t: Thresholds, rgbMin: int): (m: Grid<bool>)
    requires HasShape(buf, lv.h, lv.w)
    ensures HasShape(m, lv.w, lv.h)
    ensures forall x, y :: 0 <= x < lv.w && 0 <= y < lv.h ==>
      (m[x][y] <==>
         && sat(buf[y][x]) > t.s
         && !(buf[y][x].r > t.r && buf[y][x].g > t.g && buf[y][x].b > t.b)
         && buf[y][x].r > rgbMin && buf[y][x].g > rgbMin && buf[y][x].b > rgbMin)
  {
    var img := Transpose(buf, lv.h, lv.w);
    seq(lv.w, x requires 0 <= x < lv.w =>
      seq(lv.h, y requires 0 <= y < lv.h => IsTissue(img[x][y], sat, t, rgbMin)))
  }

  /** A near-white pixel is never tissue, whatever its saturation or the floor. */
  lemma NearWhiteIsNotTissue(p: Pixel, sat: Saturation, t: Thresholds, rgbMin: int)
    requires p.r > t.r && p.g > t.g && p.b > t.b
    ensures !IsTissue(p, sat, t, rgbMin)
  {
  }

  /** An image whose every pixel is near-white gives an all-false tissue mask. */
  lemma NearWhiteImageHasNoTissue(buf: Grid<Pixel>, lv: Level, sat: Saturation, t: Thresholds, rgbMin: int)
    requires HasShape(buf, lv.h, lv.w)
    requires forall y, x :: 0 <= y < lv.h && 0 <= x < lv.w ==> Background(buf[y][x], t)
    ensures AllFalse(TissueMask(buf, lv, sat, t, rgbMin), lv.w, lv.h)
  {
  }

  /** A pixel with some colour channel at or below `rgb_min` is never tissue. */
  lemma DarkPixelIsNotTissue(p: Pixel, sat: Saturation, t: Thresholds, rgbMin: int)
    requires p.r <= rgbMin || p.g <= rgbMin || p.b <= rgbMin
    ensures !IsTissue(p, sat, t, rgbMin)
  {
  }

  /** Raising `rgb_min` (thresholds fixed) never adds a tissue pixel. */
  lemma RaisingFloorShrinksTissue(buf: Grid<Pixel>, lv: Level, sat: Saturation, t: Thresholds, lo: int, hi: int)
    requires HasShape(buf, lv.h, lv.w)
    requires lo <= hi
    ensures Subset(TissueMask(buf, lv, sat, t, hi), TissueMask(buf, lv, sat, t, lo), lv.w, lv.h)
  {
  }

  // ----------------------------------------------------------------- tumor

  /** An annotation vertex after `np.round(...).astype(int)`. */
  datatype Vertex = Vertex(x: int, y: int)

  type Polygon = seq<Vertex>

  /** `cv2.fillPoly` taken as a collaborator: whether the polygon covers the
      canvas cell in column `x`, row `y`. */
  type Coverage = (Polygon, int, int) -> bool

  /** `(np.array(vertex) / factor).astype(np.int32)`: division by the level's
      downsample, truncated toward zero. */
  function ScaleVertex(v: Vertex, d: int): (u: Vertex)
    requires d >= 1
    ensures IsTruncQuotient(v.x, d, u.x) && IsTruncQuotient(v.y, d, u.y)
  {
    Vertex(TruncDiv(v.x, d), TruncDiv(v.y, d))
  }

  function ScalePolygon(p: Polygon, d: int): (q: Polygon)
    requires d >= 1
    ensures |q| == |p|
    ensures forall k :: 0 <= k < |p| ==> q[k] == ScaleVertex(p[k], d)
  {
    seq(|p|, k requires 0 <= k < |p| => ScaleVertex(p[k], d))
  }

  /** Some polygon of `polys` covers cell (column `x`, row `y`). */
  predicate Covered(polys: seq<Polygon>, covers: Coverage, x: int, y: int) {
    exists k :: 0 <= k < |polys| && covers(polys[k], x, y)
  }

  /** `cv2.fillPoly(canvas, [poly], 255)`: covered cells become 255, the
      others keep their value. */
  function Fill(canvas: Grid<int>, poly: Polygon, covers: Coverage): (c: Grid<int>)
    ensures |c| == |canvas|
    ensures forall y :: 0 <= y < |canvas| ==> |c[y]| == |canvas[y]|
    ensures forall y, x :: 0 <= y < |canvas| && 0 <= x < |canvas[y]| ==>
      c[y][x] == (if covers(poly, x, y) then 255 else canvas[y][x])
  {
    seq(|canvas|, y requires 0 <= y < |canvas| =>
      seq(|canvas[y]|, x requires 0 <= x < |canvas[y]| =>
        if covers(poly, x, y) then 255 else canvas[y][x]))
  }

  /** The loop filling each polygon in turn. */
  function FillAll(canvas: Grid<int>, polys: seq<Polygon>, covers: Coverage): (c: Grid<int>)
    decreases |polys|
    ensures |c| == |canvas|
    ensures forall y :: 0 <= y < |canvas| ==> |c[y]| == |canvas[y]|
    ensures forall y, x :: 0 <= y < |canvas| && 0 <= x < |canvas[y]| ==>
      c[y][x] == (if Covered(polys, covers, x, y) then 255 else canvas[y][x])
  {
    if |polys| == 0 then canvas
    else
      var c := FillAll(Fill(canvas, polys[0], covers), polys[1..], covers);
      assert forall y, x :: Covered(polys, covers, x, y) <==>
        covers(polys[0], x, y) || Covered(polys[1..], covers, x, y) by {
        forall y, x | Covered(polys, covers, x, y)
          ensures covers(polys[0], x, y) || Covered(polys[1..], covers, x, y)
        {
          var k :| 0 <= k < |polys| && covers(polys[k], x, y);
          if k > 0 {
            assert polys[1..][k - 1] == polys[k];
          }
        }
      }
      c
  }

  function ScaleAll(polys: seq<Polygon>, d: int): (scaled: seq<Polygon>)
    requires d >= 1
    ensures |scaled| == |polys|
    ensures forall k :: 0 <= k < |polys| ==> scaled[k] == ScalePolygon(polys[k], d)
  {
    seq(|polys|, k requires 0 <= k < |polys| => ScalePolygon(polys[k], d))
  }

  /** The zero canvas of shape `(h, w)` after every scaled polygon is filled. */
  function TumorCanvas(lv: Level, polys: seq<Polygon>, covers: Coverage): (c: Grid<int>)
    requires ValidLevel(lv)
    ensures HasShape(c, lv.h, lv.w)
    ensures forall y, x :: 0 <= y < lv.h && 0 <= x < lv.w ==> c[y][x] == 0 || c[y][x] == 255
  {
    FillAll(Zeros(lv.h, lv.w), ScaleAll(polys, lv.downsample), covers)
  }

  /** `tumor_mask()`: the canvas binarised at `> 127` and transposed to `(w, h)`,
      so cell `[x][y]` is true iff some scaled polygon covers column `x`, row `y`. */
  function TumorMask(lv: Level, polys: seq<Polygon>, covers: Coverage): (m: Grid<bool>)
    requires ValidLevel(lv)
    ensures HasShape(m, lv.w, lv.h)
    ensures forall x, y :: 0 <= x < lv.w && 0 <= y < lv.h ==>
      (m[x][y] <==> exists k :: 0 <= k < |polys| && covers(ScalePolygon(polys[k], lv.downsample), x, y))
  {
    var canvas := TumorCanvas(lv, polys, covers);
    var binary := Binarise(canvas, lv);
    var m := Transpose(binary, lv.h, lv.w);
    assert forall x, y :: 0 <= x < lv.w && 0 <= y < lv.h ==>
      (m[x][y] <==> Covered(ScaleAll(polys, lv.downsample), covers, x, y));
    m
  }

  /** The filled canvas binarised at `> 127`, still in the `(h, w)` layout. */
  function Binarise(c: Grid<int>, lv: Level): (b: Grid<bool>)
    requires HasShape(c, lv.h, lv.w)
    ensures HasShape(b, lv.h, lv.w)
    ensures forall y, x :: 0 <= y < lv.h && 0 <= x < lv.w ==> (b[y][x] <==> c[y][x] > 127)
  {
    seq(lv.h, y requires 0 <= y < lv.h => seq(lv.w, x requires 0 <= x < lv.w => c[y][x] > 127))
  }

  /** Transposing the tumor mask back gives the binarised `(h, w)` canvas:
      the only layout change is the final `np.transpose`. */
  lemma TumorMaskTransposedBackIsCanvas(lv: Level, polys: seq<Polygon>, covers: Coverage)
    requires ValidLevel(lv)
    ensures Transpose(TumorMask(lv, polys, covers), lv.w, lv.h) == Binarise(TumorCanvas(lv, polys, covers), lv)
  {
    var b := Binarise(TumorCanvas(lv, polys, covers), lv);
    assert TumorMask(lv, polys, covers) == Transpose(b, lv.h, lv.w);
    TransposeTwice(b, lv.h, lv.w);
  }

  /** No annotations: the tumor mask is all false. */
  lemma NoAnnotationsNoTumor(lv: Level, covers: Coverage)
    requires ValidLevel(lv)
    ensures AllFalse(TumorMask(lv, [], covers), lv.w, lv.h)
  {
  }

  /** Polygon order does not matter: annotation lists with the same
      polygons give the same tumor mask. */
  lemma TumorMaskIgnoresOrder(lv: Level, ps: seq<Polygon>, qs: seq<Polygon>, covers: Coverage)
    requires ValidLevel(lv)
    requires forall p :: p in ps <==> p in qs
    ensures TumorMask(lv, ps, covers) == TumorMask(lv, qs, covers)
  {
    var a, b := TumorMask(lv, ps, covers), TumorMask(lv, qs, covers);
    forall x | 0 <= x < lv.w
      ensures a[x] == b[x]
    {
      forall y | 0 <= y < lv.h
        ensures a[x][y] == b[x][y]
      {
        if a[x][y] {
          var k :| 0 <= k < |ps| && covers(ScalePolygon(ps[k], lv.downsample), x, y);
          assert ps[k] in qs;
          var k' :| 0 <= k' < |qs| && qs[k'] == ps[k];
        }
        if b[x][y] {
          var k :| 0 <= k < |qs| && covers(ScalePolygon(qs[k], lv.downsample), x, y);
          assert qs[k] in ps;
          var k' :| 0 <= k' < |ps| && ps[k'] == qs[k];
        }
      }
    }
  }

  // ---------------------------------------------------------------- normal

  /** `normal_mask()`: `tissue_mask() & ~tumor_mask()`.  Both masks are
      transposed the same way, so cell `[x][y]` combines buffer pixel row `y`,
      column `x` with canvas column `x`, row `y`: the same point of the slide. */
  function NormalMask(buf: Grid<Pixel>, lv: Level, sat: Saturation, t: Thresholds, rgbMin: int,
                      polys: seq<Polygon>, covers: Coverage): (m: Grid<bool>)
    requires HasShape(buf, lv.h, lv.w) && ValidLevel(lv)
    ensures HasShape(m, lv.w, lv.h)
    ensures forall x, y :: 0 <= x < lv.w && 0 <= y < lv.h ==>
      (m[x][y] <==>
         && IsTissue(buf[y][x], sat, t, rgbMin)
         && !exists k :: 0 <= k < |polys| && covers(ScalePolygon(polys[k], lv.downsample), x, y))
  {
    var tissue := TissueMask(buf, lv, sat, t, rgbMin);
    var tumor := TumorMask(lv, polys, covers);
    seq(lv.w, x requires 0 <= x < lv.w =>
      seq(lv.h, y requires 0 <= y < lv.h => tissue[x][y] && !tumor[x][y]))
  }

  /** The normal mask lies inside the tissue mask and outside the tumor mask. */
  lemma NormalBetweenTissueAndTumor(buf: Grid<Pixel>, lv: Level, sat: Saturation, t: Thresholds, rgbMin: int,
                                    polys: seq<Polygon>, covers: Coverage)
    requires HasShape(buf, lv.h, lv.w) && ValidLevel(lv)
    ensures Subset(NormalMask(buf, lv, sat, t, rgbMin, polys, covers), TissueMask(buf, lv, sat, t, rgbMin), lv.w, lv.h)
    ensures Disjoint(NormalMask(buf, lv, sat, t, rgbMin, polys, covers), TumorMask(lv, polys, covers), lv.w, lv.h)
  {
  }

  /** Every tissue cell is normal or tumor, never both. */
  lemma TissueSplitsIntoNormalAndTumor(buf: Grid<Pixel>, lv: Level, sat: Saturation, t: Thresholds, rgbMin: int,
                                       polys: seq<Polygon>, covers: Coverage, x: int, y: int)
    requires HasShape(buf, lv.h, lv.w) && ValidLevel(lv)
    requires 0 <= x < lv.w && 0 <= y < lv.h
    ensures TissueMask(buf, lv, sat, t, rgbMin)[x][y] <==>
      NormalMask(buf, lv, sat, t, rgbMin, polys, covers)[x][y] || (TissueMask(buf, lv, sat, t, rgbMin)[x][y] && TumorMask(lv, polys, covers)[x][y])
    ensures !(NormalMask(buf, lv, sat, t, rgbMin, polys, covers)[x][y] && TumorMask(lv, polys, covers)[x][y])
  {
  }

  /** Without annotations the normal mask is the tissue mask. */
  lemma NormalWithoutAnnotationsIsTissue(buf: Grid<Pixel>, lv: Level, sat: Saturation, t: Thresholds, rgbMin: int,
                                          covers: Coverage)
    requires HasShape(buf, lv.h, lv.w) && ValidLevel(lv)
    ensures NormalMask(buf, lv, sat, t, rgbMin, [], covers) == TissueMask(buf, lv, sat, t, rgbMin)
  {
    var n, m := NormalMask(buf, lv, sat, t, rgbMin, [], covers), TissueMask(buf, lv, sat, t, rgbMin);
    forall x | 0 <= x < lv.w
      ensures n[x] == m[x]
    {
    }
  }
}
