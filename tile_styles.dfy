/**
 * The tile-set switch of drawPlanets: which sprite row (tile style) a planet
 * is drawn with, given its tile set and, for normal planets, its biome.
 */
module TileStyles {
  import opened MapTypes
  import opened Catalog

  /** Sprite row of a planet; `None` is the AssertionError of the switch's default case. */
  function SpriteRow(t: TileSet, b: Biome): Option<int>
  {
    match t
    case NormalTileSet =>
      if b == Ocean then Some(10) else if b == Desert then Some(11) else Some(ReferenceStyle)
    case JungleTileSet => Some(9)
    case FrozenTileSet => Some(8)
    case MegacityTileSet => Some(0)
    case BarrenTileSet => Some(1)
    case OtherTileSet(_) => None
  }

  /** The derived variant a planet is meant to show: 0 ice, 1 jungle, 2 ocean, 3 desert; `None` for base styles. */
  function IntendedVariant(t: TileSet, b: Biome): Option<int>
  {
    match t
    case FrozenTileSet => Some(0)
    case JungleTileSet => Some(1)
    case NormalTileSet => if b == Ocean then Some(2) else if b == Desert then Some(3) else None
    case _ => None
  }

  /** The switch is closed: it fails exactly for tile sets outside the five named ones, and every row it picks is a style row 0..11. */
  lemma SpriteRowTotal(t: TileSet, b: Biome)
    ensures SpriteRow(t, b).None? <==> t.OtherTileSet?
    ensures SpriteRow(t, b).Some? ==> 0 <= SpriteRow(t, b).value < ReferenceStyle + 1 + VariantCount
  {
  }

  /**
   * Rows 8..11 are the rows the catalog derives (ice, jungle, ocean, desert)
   * exactly when the asset holds 8 * PlanetPhases base frames; the remaining
   * tile sets use base rows 0, 1 and the reference row 7.
   */
  lemma RowsMatchVariants(t: TileSet, b: Biome, baseCount: int)
    requires SpriteRow(t, b).Some?
    ensures IntendedVariant(t, b).Some? ==>
      var start := VariantStart(baseCount, IntendedVariant(t, b).value);
      (SpriteRow(t, b).value * PlanetPhases == start <==> baseCount == (ReferenceStyle + 1) * PlanetPhases)
    ensures IntendedVariant(t, b).None? ==> SpriteRow(t, b).value in {0, 1, ReferenceStyle}
  {
  }

  /**
   * End to end: with an asset of 8 * PlanetPhases frames, phase i of the row
   * a planet is drawn with is, pixel for pixel, its biome's table applied to
   * the reference frame of phase i; base-style planets show base frames.
   */
  lemma DrawnFrameContents(base: seq<seq<int>>, tables: seq<seq<int>>, pixels: nat,
                           t: TileSet, b: Biome, i: int, p: int)
    requires IsBase(base, pixels) && AreTables(tables)
    requires |base| == (ReferenceStyle + 1) * PlanetPhases
    requires SpriteRow(t, b).Some? && 0 <= i < PlanetPhases && 0 <= p < pixels
    ensures 0 <= SpriteRow(t, b).value * PlanetPhases + i < CatalogSize(base)
    ensures IntendedVariant(t, b).Some? ==>
      CatalogPixel(base, tables, pixels, SpriteRow(t, b).value * PlanetPhases + i, p)
        == tables[IntendedVariant(t, b).value][LowByte(base[ReferenceStyle * PlanetPhases + i][p])]
    ensures IntendedVariant(t, b).None? ==>
      CatalogPixel(base, tables, pixels, SpriteRow(t, b).value * PlanetPhases + i, p)
        == base[SpriteRow(t, b).value * PlanetPhases + i][p]
  {
    var row := SpriteRow(t, b).value;
    RowsMatchVariants(t, b, |base|);
    if IntendedVariant(t, b).Some? {
      DerivedFrame(base, tables, pixels, IntendedVariant(t, b).value, i, p);
    }
  }
}
