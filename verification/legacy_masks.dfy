/**
 * The older mask builder of bin/preprocess/mask.py.  Its tissue and tumor
 * masks are computed exactly as in `Masks` (the code is the same line for
 * line, apart from optional saving); what differs is the `is_tumor` switch
 * fixed at construction, which decides whether the normal mask subtracts
 * the annotated tumor at all.
 */
module LegacyMasks {
  import opened Grids
  import opened Masks

  /** The constructor arguments other than the slide itself. */
  datatype Config = Config(rgbMin: int, isTumor: bool, level: Level)

  /** `normal_mask()`: tissue minus tumor on a tumor slide, the bare tissue
      mask otherwise (the annotations are then never read). */
  function NormalMask(cfg: Config, buf: Grid<Pixel>, sat: Saturation, t: Thresholds,
                      polys: seq<Polygon>, covers: Coverage): (m: Grid<bool>)
    requires HasShape(buf, cfg.level.h, cfg.level.w) && ValidLevel(cfg.level)
    ensures HasShape(m, cfg.level.w, cfg.level.h)
    ensures forall x, y :: 0 <= x < cfg.level.w && 0 <= y < cfg.level.h ==>
      (m[x][y] <==>
         && IsTissue(buf[y][x], sat, t, cfg.rgbMin)
         && !(cfg.isTumor && TumorMask(cfg.level, polys, covers)[x][y]))
  {
    if cfg.isTumor then Masks.NormalMask(buf, cfg.level, sat, t, cfg.rgbMin, polys, covers)
    else TissueMask(buf, cfg.level, sat, t, cfg.rgbMin)
  }

  /** On a slide without tumor the annotations have no effect. */
  lemma NonTumorIgnoresAnnotations(cfg: Config, buf: Grid<Pixel>, sat: Saturation, t: Thresholds,
                                   ps: seq<Polygon>, qs: seq<Polygon>, covers: Coverage, covers': Coverage)
    requires HasShape(buf, cfg.level.h, cfg.level.w) && ValidLevel(cfg.level)
    requires !cfg.isTumor
    ensures NormalMask(cfg, buf, sat, t, ps, covers) == NormalMask(cfg, buf, sat, t, qs, covers')
    ensures NormalMask(cfg, buf, sat, t, ps, covers) == TissueMask(buf, cfg.level, sat, t, cfg.rgbMin)
  {
  }

  /** On a tumor slide the legacy normal mask is the current one. */
  lemma TumorSlideMatchesCurrent(cfg: Config, buf: Grid<Pixel>, sat: Saturation, t: Thresholds,
                                 polys: seq<Polygon>, covers: Coverage)
    requires HasShape(buf, cfg.level.h, cfg.level.w) && ValidLevel(cfg.level)
    requires cfg.isTumor
    ensures NormalMask(cfg, buf, sat, t, polys, covers) == Masks.NormalMask(buf, cfg.level, sat, t, cfg.rgbMin, polys, covers)
  {
  }
}
