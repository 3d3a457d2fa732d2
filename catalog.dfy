/**
 * The planet sprite catalog (loadPlanetImages): the base frames of the asset,
 * followed by four blocks of PlanetPhases frames (ice, jungle, ocean, desert),
 * each derived pixel by pixel from the reference style's frames through one
 * 256-entry lookup table.
 */
module Catalog {
  import opened MapTypes

  /** `v & 0xff` on a two's-complement int: the low eight bits, i.e. the Euclidean remainder by 256. */
  function LowByte(v: int): (b: int)
    ensures 0 <= b < 256
    ensures (v - b) % 256 == 0
  {
    v % 256
  }

  /** A lookup table maps every palette index to a value. */
  predicate IsTable(t: seq<int>)
  {
    |t| == 256
  }

  /** The four tables in the order the source applies them: ice, jungle, ocean, desert. */
  predicate AreTables(tables: seq<seq<int>>)
  {
    |tables| == VariantCount && forall k :: 0 <= k < |tables| ==> IsTable(tables[k])
  }

  /**
   * The asset holds at least the frames of styles 0..ReferenceStyle, so the
   * reference frames read by the derivation are base frames; every frame has
   * `pixels` pixels.
   */
  predicate IsBase(base: seq<seq<int>>, pixels: nat)
  {
    && |base| >= (ReferenceStyle + 1) * PlanetPhases
    && forall f :: 0 <= f < |base| ==> |base[f]| == pixels
  }

  /** Number of frames in the catalog: base frames plus four derived blocks. */
  function CatalogSize(base: seq<seq<int>>): int
  {
    |base| + VariantCount * PlanetPhases
  }

  /** Index of the first frame of variant k (0 ice, 1 jungle, 2 ocean, 3 desert). */
  function VariantStart(baseCount: int, k: int): int
  {
    baseCount + k * PlanetPhases
  }

  /** Pixel p of catalog frame f, as the specification of the finished catalog. */
  function CatalogPixel(base: seq<seq<int>>, tables: seq<seq<int>>, pixels: nat, f: int, p: int): int
    requires IsBase(base, pixels) && AreTables(tables)
    requires 0 <= f < CatalogSize(base) && 0 <= p < pixels
  {
    if f < |base| then base[f][p]
    else
      var k := (f - |base|) / PlanetPhases;
      var phase := (f - |base|) % PlanetPhases;
      tables[k][LowByte(base[ReferenceStyle * PlanetPhases + phase][p])]
  }

  /**
   * Frame `VariantStart(L, k) + i` is the reference frame `7*16 + i` passed
   * byte-wise through table k.
   */
  lemma DerivedFrame(base: seq<seq<int>>, tables: seq<seq<int>>, pixels: nat, k: int, i: int, p: int)
    requires IsBase(base, pixels) && AreTables(tables)
    requires 0 <= k < VariantCount && 0 <= i < PlanetPhases && 0 <= p < pixels
    ensures |base| <= VariantStart(|base|, k) + i < CatalogSize(base)
    ensures CatalogPixel(base, tables, pixels, VariantStart(|base|, k) + i, p)
         == tables[k][LowByte(base[ReferenceStyle * PlanetPhases + i][p])]
  {
    var f := VariantStart(|base|, k) + i;
    assert f - |base| == k * PlanetPhases + i;
    assert (k * PlanetPhases + i) / PlanetPhases == k;
    assert (k * PlanetPhases + i) % PlanetPhases == i;
  }

  /** The base frames appear unchanged at the front of the catalog. */
  lemma BaseFrame(base: seq<seq<int>>, tables: seq<seq<int>>, pixels: nat, f: int, p: int)
    requires IsBase(base, pixels) && AreTables(tables)
    requires 0 <= f < |base| && 0 <= p < pixels
    ensures CatalogPixel(base, tables, pixels, f, p) == base[f][p]
  {
  }
}
