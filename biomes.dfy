/**
 * Biome classification (setUpPlanetTypes): count the ocean and desert hexes of
 * a planet, then apply the grass threshold and, after it, the desert threshold.
 */
module Biomes {
  import opened MapTypes

  /** Ocean hexes among `hexes`. */
  function OceanCount(hexes: seq<Hex>): nat
  {
    if hexes == [] then 0
    else OceanCount(hexes[..|hexes| - 1]) + (if hexes[|hexes| - 1].ocean then 1 else 0)
  }

  /** Desert hexes among `hexes` that are not also ocean: the ocean test is made first. */
  function DesertCount(hexes: seq<Hex>): nat
  {
    if hexes == [] then 0
    else
      var h := hexes[|hexes| - 1];
      DesertCount(hexes[..|hexes| - 1]) + (if !h.ocean && h.desert then 1 else 0)
  }

  /** A hex is counted at most once, so the two counts never exceed the number of hexes. */
  lemma {:induction false} CountsWithinHexes(hexes: seq<Hex>)
    ensures OceanCount(hexes) + DesertCount(hexes) <= |hexes|
  {
    if hexes != [] {
      CountsWithinHexes(hexes[..|hexes| - 1]);
    }
  }

  /** A hex tagged both ocean and desert adds to the ocean count and not to the desert count. */
  lemma BothCountsAsOcean(hexes: seq<Hex>, h: Hex)
    requires h.ocean && h.desert
    ensures OceanCount(hexes + [h]) == OceanCount(hexes) + 1
    ensures DesertCount(hexes + [h]) == DesertCount(hexes)
  {
    assert (hexes + [h])[..|hexes|] == hexes;
  }

  /** The inner counting loop of setUpPlanetTypes over one planet's hexes. */
  method CountTerrain(hexes: seq<Hex>) returns (ocean: nat, desert: nat)
    ensures ocean == OceanCount(hexes) && desert == DesertCount(hexes)
    ensures ocean + desert <= |hexes|
  {
    ocean, desert := 0, 0;
    var k := 0;
    while k < |hexes|
      invariant 0 <= k <= |hexes|
      invariant ocean == OceanCount(hexes[..k]) && desert == DesertCount(hexes[..k])
    {
      assert hexes[..k + 1][..k] == hexes[..k];
      if hexes[k].ocean {
        ocean := ocean + 1;
      } else if hexes[k].desert {
        desert := desert + 1;
      }
      k := k + 1;
    }
    assert hexes[..k] == hexes;
    CountsWithinHexes(hexes);
  }

  /** `ocean < 0.75 * C * W` as the source writes it (the doubles are exact here). */
  predicate BelowOceanThreshold(ocean: int, area: int)
  {
    (ocean as real) < 0.75 * (area as real)
  }

  /** `desert > 0.50 * C * W` as the source writes it. */
  predicate AboveDesertThreshold(desert: int, area: int)
  {
    (desert as real) > 0.50 * (area as real)
  }

  /** Integer reading of the classification: the desert test overrides the grass test, ocean is the default. */
  function Classify(ocean: int, desert: int, area: int): Biome
  {
    if 2 * desert > area then Desert
    else if 4 * ocean < 3 * area then Grass
    else Ocean
  }

  /**
   * The floating-point thresholds applied in the source's order (grass, then
   * desert overriding it) pick exactly the biome `Classify` gives.
   */
  lemma ClassifyMatchesThresholds(ocean: int, desert: int, area: int)
    ensures Classify(ocean, desert, area) == Desert <==> AboveDesertThreshold(desert, area)
    ensures Classify(ocean, desert, area) == Grass
        <==> BelowOceanThreshold(ocean, area) && !AboveDesertThreshold(desert, area)
    ensures Classify(ocean, desert, area) == Ocean
        <==> !BelowOceanThreshold(ocean, area) && !AboveDesertThreshold(desert, area)
  {
  }

  /** The thresholds are strict: exactly 75% ocean is not grass, exactly 50% desert is not desert. */
  lemma ClassifyBoundaries(ocean: int, desert: int, area: int)
    ensures 4 * ocean == 3 * area ==> Classify(ocean, desert, area) != Grass
    ensures 4 * ocean == 3 * area && 2 * desert <= area ==> Classify(ocean, desert, area) == Ocean
    ensures 2 * desert == area ==> Classify(ocean, desert, area) != Desert
    ensures 2 * desert == area && 4 * ocean < 3 * area ==> Classify(ocean, desert, area) == Grass
  {
  }
}
