/** MapGenerator: classification of a height map into coloured terrain
    regions, and the clamping of the noise parameters on validation.
    The noise map itself is an input; the noise, mesh, texture and display
    routines are not part of this model. */
module MapGeneration {

  datatype Option<T> = None | Some(value: T)

  /** MapGenerator.mapChunkSize: the side of the square height map. */
  const MapChunkSize: int := 241

  /** An RGBA colour; the model uses only its default value. */
  datatype Color = Color(r: real, g: real, b: real, a: real)

  /** default(Color), the value every slot of a fresh colour array holds. */
  const DefaultColor: Color := Color(0.0, 0.0, 0.0, 0.0)

  /** A named height band: heights up to `height` take `color`. */
  datatype TerrainType = TerrainType(name: string, height: real, color: Color)

  // ---------------------------------------------------------------------
  // Region classification

  /** The least index whose threshold is at least `h`, or None when every
      threshold lies below `h` (in particular when there are no regions). */
  function FirstRegion(h: real, regions: seq<TerrainType>): (r: Option<nat>)
    ensures r.Some? ==> r.value < |regions| && h <= regions[r.value].height
    ensures r.Some? ==> forall j | 0 <= j < r.value :: h > regions[j].height
    ensures r.None? ==> forall j | 0 <= j < |regions| :: h > regions[j].height
  {
    if |regions| == 0 then None
    else if h <= regions[0].height then Some(0)
    else match FirstRegion(h, regions[1..]) {
      case None => None
      case Some(i) => Some(i + 1)
    }
  }

  /** The colour a cell of height `h` receives. */
  function CellColor(h: real, regions: seq<TerrainType>): Color {
    match FirstRegion(h, regions) {
      case None => DefaultColor
      case Some(i) => regions[i].color
    }
  }

  /** A cell takes the colour of the region with the least index whose
      threshold is at least its height, and keeps the default colour when no
      threshold is (in particular when there are no regions). */
  lemma CellColorIsFirstMatch(h: real, regions: seq<TerrainType>)
    ensures (forall j | 0 <= j < |regions| :: h > regions[j].height) ==>
              CellColor(h, regions) == DefaultColor
    ensures forall i | 0 <= i < |regions| && h <= regions[i].height ::
              (forall j | 0 <= j < i :: h > regions[j].height) ==>
                CellColor(h, regions) == regions[i].color
  {
  }

  /** Thresholds read in declaration order never decrease. */
  ghost predicate Ascending(regions: seq<TerrainType>) {
    forall i, j | 0 <= i <= j < |regions| :: regions[i].height <= regions[j].height
  }

  /** With ascending thresholds that reach 1.0, every height up to 1.0 falls
      in some region, and the region chosen has the least threshold that is
      at least the height. */
  lemma SortedRegionsCover(h: real, regions: seq<TerrainType>)
    requires |regions| > 0 && Ascending(regions)
    requires regions[|regions| - 1].height >= 1.0 && h <= 1.0
    ensures FirstRegion(h, regions).Some?
    ensures forall j | 0 <= j < |regions| && h <= regions[j].height ::
              regions[FirstRegion(h, regions).value].height <= regions[j].height
  {
  }

  /** Three bands (water up to 0.3, grass up to 0.6, snow up to 1.0). */
  lemma ThreeBandExample(blue: Color, green: Color, white: Color)
    ensures var regions := [TerrainType("water", 0.3, blue),
                            TerrainType("grass", 0.6, green),
                            TerrainType("snow", 1.0, white)];
            && CellColor(0.25, regions) == blue
            && CellColor(0.3, regions) == blue
            && CellColor(0.31, regions) == green
            && CellColor(1.0, regions) == white
            && CellColor(0.0, regions) == blue
            && CellColor(1.5, regions) == DefaultColor
  {
    var regions := [TerrainType("water", 0.3, blue),
                    TerrainType("grass", 0.6, green),
                    TerrainType("snow", 1.0, white)];
    assert FirstRegion(0.31, regions[1..]) == Some(0);
    assert FirstRegion(1.0, regions[2..]) == Some(0);
    assert FirstRegion(1.0, regions[1..]) == Some(1);
    assert FirstRegion(1.5, regions[2..]) == None;
    assert FirstRegion(1.5, regions[1..]) == None;
  }

  // ---------------------------------------------------------------------
  // The flat, row-major colour map

  /** Index of cell (x, y) in the flat colour array: row y, column x. */
  function FlatIndex(x: int, y: int): (idx: int)
    requires 0 <= x < MapChunkSize && 0 <= y < MapChunkSize
    ensures 0 <= idx < MapChunkSize * MapChunkSize
  {
    y * MapChunkSize + x
  }

  /** The cell is recovered from its index (column as the remainder, row as
      the quotient), so distinct cells are written at distinct indices. */
  lemma FlatIndexRoundTrip(x: int, y: int)
    requires 0 <= x < MapChunkSize && 0 <= y < MapChunkSize
    ensures FlatIndex(x, y) % MapChunkSize == x && FlatIndex(x, y) / MapChunkSize == y
  {
  }

  lemma FlatIndexInjective(x1: int, y1: int, x2: int, y2: int)
    requires 0 <= x1 < MapChunkSize && 0 <= y1 < MapChunkSize
    requires 0 <= x2 < MapChunkSize && 0 <= y2 < MapChunkSize
    requires FlatIndex(x1, y1) == FlatIndex(x2, y2)
    ensures x1 == x2 && y1 == y2
  {
    FlatIndexRoundTrip(x1, y1);
    FlatIndexRoundTrip(x2, y2);
  }

  /** Every index of the colour array belongs to exactly one cell. */
  lemma FlatIndexOnto(idx: int)
    requires 0 <= idx < MapChunkSize * MapChunkSize
    ensures 0 <= idx % MapChunkSize < MapChunkSize && 0 <= idx / MapChunkSize < MapChunkSize
    ensures FlatIndex(idx % MapChunkSize, idx / MapChunkSize) == idx
  {
  }

  // ---------------------------------------------------------------------
  // Noise parameters and their validation

  /** The three parameters that validation touches. */
  datatype NoiseSettings = NoiseSettings(octaves: int, persistance: real, lacunarity: real)

  /** The effect of MapGenerator.OnValidate as written: lacunarity is raised
      to 1, a negative octave count is reset to 0, and a negative
      persistance resets the octave count (not the persistance) to 0. */
  function Validated(s: NoiseSettings): (r: NoiseSettings)
    ensures r.lacunarity >= 1.0 && r.octaves >= 0
    ensures s.lacunarity >= 1.0 ==> r.lacunarity == s.lacunarity
    ensures s.lacunarity < 1.0 ==> r.lacunarity == 1.0
    ensures s.octaves >= 0 && s.persistance >= 0.0 ==> r.octaves == s.octaves
    ensures s.octaves < 0 || s.persistance < 0.0 ==> r.octaves == 0
    ensures r.persistance == s.persistance
  {
    var lacunarity := if s.lacunarity < 1.0 then 1.0 else s.lacunarity;
    var octaves := if s.octaves < 0 then 0 else s.octaves;
    var octaves' := if s.persistance < 0.0 then 0 else octaves;
    NoiseSettings(octaves', s.persistance, lacunarity)
  }

  /** Validating twice is validating once. */
  lemma ValidatedIdempotent(s: NoiseSettings)
    ensures Validated(Validated(s)) == Validated(s)
  {
  }

  /** Parameters already in range are left as they are. */
  lemma ValidatedKeepsValidSettings(s: NoiseSettings)
    requires s.lacunarity >= 1.0 && s.octaves >= 0 && s.persistance >= 0.0
    ensures Validated(s) == s
  {
  }

  /** As written, a negative persistance survives validation and wipes the
      octave count instead. */
  lemma ValidatedLeavesNegativePersistance()
    ensures var r := Validated(NoiseSettings(3, -0.5, 5.0));
            r.persistance < 0.0 && r.octaves == 0
  {
  }

  /** The evidently intended validation: each parameter is clamped to its own
      lower bound and no other parameter changes. */
  function IntendedValidated(s: NoiseSettings): (r: NoiseSettings)
    ensures r.lacunarity >= 1.0 && r.octaves >= 0 && r.persistance >= 0.0
    ensures s.lacunarity >= 1.0 ==> r.lacunarity == s.lacunarity
    ensures s.octaves >= 0 ==> r.octaves == s.octaves
    ensures s.persistance >= 0.0 ==> r.persistance == s.persistance
    ensures s.lacunarity < 1.0 ==> r.lacunarity == 1.0
    ensures s.octaves < 0 ==> r.octaves == 0
    ensures s.persistance < 0.0 ==> r.persistance == 0.0
  {
    NoiseSettings(if s.octaves < 0 then 0 else s.octaves,
                  if s.persistance < 0.0 then 0.0 else s.persistance,
                  if s.lacunarity < 1.0 then 1.0 else s.lacunarity)
  }

  /** The intended validation is idempotent and agrees with the written one
      exactly when persistance is not negative. */
  lemma IntendedValidatedProperties(s: NoiseSettings)
    ensures IntendedValidated(IntendedValidated(s)) == IntendedValidated(s)
    ensures s.persistance >= 0.0 <==> IntendedValidated(s) == Validated(s)
  {
  }

  // ---------------------------------------------------------------------
  // The MonoBehaviour

  class MapGenerator {
    var noiseScale: real
    var octaves: int
    var persistance: real
    var lacunarity: real
    var seed: int
    var regions: seq<TerrainType>

    /** The field initialisers. */
    constructor ()
      ensures noiseScale == 10.0 && octaves == 3 && persistance == 0.5 && lacunarity == 5.0
      ensures seed == 0 && regions == []
    {
      noiseScale, octaves, persistance, lacunarity := 10.0, 3, 0.5, 5.0;
      seed, regions := 0, [];
    }

    function Settings(): NoiseSettings
      reads this
    {
      NoiseSettings(octaves, persistance, lacunarity)
    }

    /** The colour pass of GenerateMap over a noise map of mapChunkSize
        squared cells: cell (x, y) of the flat colour array receives the
        colour of the first region whose threshold is at least its height,
        and keeps the default colour when no region qualifies. */
    method GenerateColorMap(noiseMap: array2<real>) returns (colorMap: array<Color>)
      requires noiseMap.Length0 == MapChunkSize && noiseMap.Length1 == MapChunkSize
      ensures colorMap.Length == MapChunkSize * MapChunkSize
      ensures forall x, y | 0 <= x < MapChunkSize && 0 <= y < MapChunkSize ::
                colorMap[FlatIndex(x, y)] == CellColor(noiseMap[x, y], regions)
    {
      colorMap := new Color[MapChunkSize * MapChunkSize](_ => DefaultColor);
      var y := 0;
      while y < MapChunkSize
        invariant 0 <= y <= MapChunkSize
        invariant forall x', y' | 0 <= x' < MapChunkSize && 0 <= y' < y ::
                    colorMap[FlatIndex(x', y')] == CellColor(noiseMap[x', y'], regions)
        invariant forall k | y * MapChunkSize <= k < colorMap.Length :: colorMap[k] == DefaultColor
      {
        var x := 0;
        while x < MapChunkSize
          invariant 0 <= x <= MapChunkSize
          invariant forall x', y' | 0 <= x' < MapChunkSize && 0 <= y' < y ::
                      colorMap[FlatIndex(x', y')] == CellColor(noiseMap[x', y'], regions)
          invariant forall x' | 0 <= x' < x ::
                      colorMap[FlatIndex(x', y)] == CellColor(noiseMap[x', y], regions)
          invariant forall k | y * MapChunkSize + x <= k < colorMap.Length :: colorMap[k] == DefaultColor
        {
          var currentHeight := noiseMap[x, y];
          ghost var before := colorMap[..];
          var i := 0;
          while i < |regions|
            invariant 0 <= i <= |regions|
            invariant forall j | 0 <= j < i :: currentHeight > regions[j].height
            invariant colorMap[..] == before
          {
            if currentHeight <= regions[i].height {
              colorMap[FlatIndex(x, y)] := regions[i].color;
              break;
            }
            i := i + 1;
          }
          x := x + 1;
        }
        y := y + 1;
      }
    }

    /** OnValidate: clamps lacunarity and the octave count in place. */
    method OnValidate()
      modifies this`lacunarity, this`octaves
      ensures Settings() == Validated(old(Settings()))
    {
      if lacunarity < 1.0 { lacunarity := 1.0; }
      if octaves < 0 { octaves := 0; }
      if persistance < 0.0 { octaves := 0; }
    }
  }
}
