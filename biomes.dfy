/** Biome classification of archipelago_generator/biomes.py: a coarse
    Whittaker diagram over temperature and moisture for land cells, "ocean"
    for the rest. */
module Biomes {

  /** The labels of `BIOMES` (biomes.py:9-19). */
  datatype Biome = Ocean | Desert | Grassland | Forest | DarkForest | Jungle | Snow | Tundra | Scorched

  /** `BIOMES`, in the source's order. */
  const BIOMES: seq<Biome> := [Ocean, Desert, Grassland, Forest, DarkForest, Jungle, Snow, Tundra, Scorched]

  /** The string the source stores for each label. */
  function Name(b: Biome): string {
    match b
    case Ocean => "ocean"
    case Desert => "desert"
    case Grassland => "grassland"
    case Forest => "forest"
    case DarkForest => "dark_forest"
    case Jungle => "jungle"
    case Snow => "snow"
    case Tundra => "tundra"
    case Scorched => "scorched"
  }

  /** `BIOMES` lists every label once, and no two labels share a name. */
  lemma BiomesListed()
    ensures forall b: Biome :: b in BIOMES
    ensures forall i, j :: 0 <= i < j < |BIOMES| ==> BIOMES[i] != BIOMES[j]
    ensures forall a: Biome, b: Biome :: Name(a) == Name(b) ==> a == b
  {
    forall b: Biome ensures b in BIOMES {
      var i := match b
        case Ocean => 0 case Desert => 1 case Grassland => 2 case Forest => 3 case DarkForest => 4
        case Jungle => 5 case Snow => 6 case Tundra => 7 case Scorched => 8;
      assert BIOMES[i] == b;
    }
    forall a: Biome, b: Biome | Name(a) == Name(b) ensures a == b {
      assert |Name(a)| == |Name(b)| && Name(a)[0] == Name(b)[0];
    }
  }

  /** The decision cascade of biomes.py:30-62 for a land cell with
      temperature `t` and moisture `m`. */
  function Classify(t: real, m: real): Biome {
    if m < 0.05 then Scorched
    else if t < 0.2 then (if m > 0.5 then Snow else Tundra)
    else if t < 0.4 then
      (if m < 0.25 then Desert else if m < 0.5 then Grassland else Forest)
    else if t < 0.7 then
      (if m < 0.25 then Desert else if m < 0.5 then Grassland else if m < 0.75 then Forest else DarkForest)
    else
      (if m < 0.3 then (if m > 0.05 then Desert else Scorched) else if m < 0.6 then Grassland else Jungle)
  }

  /** The region of the (temperature, moisture) plane that each label
      covers for a land cell, read as a table of boxes. The hot band's
      `"desert" if m > 0.05 else "scorched"` gives the single moisture value
      0.05 to "scorched" there, while the other bands give it to their
      driest label. */
  ghost predicate Region(b: Biome, t: real, m: real) {
    match b
    case Ocean => false
    case Scorched => m < 0.05 || (t >= 0.7 && m == 0.05)
    case Snow => t < 0.2 && m > 0.5
    case Tundra => t < 0.2 && 0.05 <= m <= 0.5
    case Desert => (0.2 <= t < 0.7 && 0.05 <= m < 0.25) || (t >= 0.7 && 0.05 < m < 0.3)
    case Grassland => (0.2 <= t < 0.7 && 0.25 <= m < 0.5) || (t >= 0.7 && 0.3 <= m < 0.6)
    case Forest => (0.2 <= t < 0.4 && m >= 0.5) || (0.4 <= t < 0.7 && 0.5 <= m < 0.75)
    case DarkForest => 0.4 <= t < 0.7 && m >= 0.75
    case Jungle => t >= 0.7 && m >= 0.6
  }

  /** The cascade picks exactly the label whose region holds (t, m): the
      regions cover the plane without overlapping, and a land cell is never
      "ocean". */
  lemma ClassifyRegion(t: real, m: real, b: Biome)
    ensures Classify(t, m) == b <==> Region(b, t, m)
  {
  }

  /** The branch at biomes.py:58 is taken with "scorched" exactly at
      moisture 0.05 in the hot band. */
  lemma HotScorched(t: real, m: real)
    requires t >= 0.7
    ensures Classify(t, m) == Scorched <==> m <= 0.05
  {
  }

  /** The label of cell `i`: "ocean" off the land mask, the cascade on it. */
  function CellBiome(land: seq<bool>, temp: seq<real>, moisture: seq<real>, i: nat): (b: Biome)
    requires i < |land| && (land[i] ==> i < |temp| && i < |moisture|)
    ensures b == Ocean <==> !land[i]
  {
    if !land[i] then Ocean else Classify(temp[i], moisture[i])
  }

  /** `classify_biomes` (biomes.py:22-63). Temperature and moisture are read
      only for land cells. */
  method ClassifyBiomes(land: seq<bool>, temp: seq<real>, moisture: seq<real>) returns (biome: array<Biome>)
    requires forall i :: 0 <= i < |land| && land[i] ==> i < |temp| && i < |moisture|
    ensures biome.Length == |land|
    ensures forall i :: 0 <= i < |land| ==> biome[i] == CellBiome(land, temp, moisture, i)
  {
    biome := new Biome[|land|];
    for i := 0 to |land|
      invariant forall j :: 0 <= j < i ==> biome[j] == CellBiome(land, temp, moisture, j)
    {
      if !land[i] {
        biome[i] := Ocean;
        continue;
      }
      var t := temp[i];
      var m := moisture[i];
      biome[i] := Classify(t, m);
    }
  }
}
