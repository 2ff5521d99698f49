/** The per-layer containers the colour split and the inset generation fill
    in: how a region is coloured, the region itself, the island holding
    regions and the layer holding islands. A colour reference is the value
    of a `const Color *` as the kernel's Z field carries it; `Null` is the
    null pointer. */
module SliceData {
  import opened ClipperTypes

  /** `SliceRegionType` */
  datatype RegionType = Infill | Border | Unoptimized

  /** A colour pointer, as an integer (the Z field carries these). */
  type ColorRef = CInt

  /** `RegionColoring` */
  datatype RegionColoring = RegionColoring(regionType: RegionType, color: ColorRef)

  /** `RegionColoring::getColor`: the colour of point `pt` in a region so
      coloured. A border has one colour for every point; an unoptimised
      region keeps each point's own colour in its Z; infill has none. */
  function GetColor(c: RegionColoring, pt: Point): (r: ColorRef)
    ensures c.regionType == Unoptimized ==> r == pt.z
    ensures c.regionType != Unoptimized ==> r == Key(c).1
  {
    match c.regionType
    case Border => c.color
    case Unoptimized => pt.z
    case Infill => Null
  }

  /** `RegionColoring::operator==` */
  predicate Equal(a: RegionColoring, b: RegionColoring)
    ensures Equal(a, b) <==> Key(a) == Key(b)
  {
    if b.regionType != a.regionType then false
    else a.regionType != Border || b.color == a.color
  }

  /** What `Equal` compares: the type, and the colour only for borders. */
  function Key(c: RegionColoring): (k: (RegionType, ColorRef))
  {
    if c.regionType == Border then (Border, c.color) else (c.regionType, Null)
  }

  /** Two colourings are equal exactly when they have the same type and,
      for borders, the same colour; in particular colourings of different
      types are never equal and non-border colourings ignore their colour. */
  lemma EqualIffSameKey(a: RegionColoring, b: RegionColoring)
    ensures Equal(a, b) <==> Key(a) == Key(b)
    ensures a.regionType != b.regionType ==> !Equal(a, b)
    ensures a.regionType == b.regionType && a.regionType != Border ==> Equal(a, b)
    ensures a.regionType == b.regionType == Border ==> (Equal(a, b) <==> a.color == b.color)
  {
  }

  /** `operator==` is an equivalence relation. */
  lemma EqualIsEquivalence()
    ensures forall a :: Equal(a, a)
    ensures forall a, b :: Equal(a, b) ==> Equal(b, a)
    ensures forall a, b, c :: Equal(a, b) && Equal(b, c) ==> Equal(a, c)
  {
    forall a, b | Equal(a, b) ensures Key(a) == Key(b) { EqualIffSameKey(a, b); }
    forall a, b | Key(a) == Key(b) ensures Equal(a, b) { EqualIffSameKey(a, b); }
  }

  /** Equal colourings give every point the same colour. */
  lemma EqualColoringsAgree(a: RegionColoring, b: RegionColoring, pt: Point)
    requires Equal(a, b)
    ensures GetColor(a, pt) == GetColor(b, pt)
  {
  }

  /** Conversely, unequal colourings give some point different colours, as
      long as no border carries the null colour (a border with a null colour
      colours every point like infill, yet is not equal to infill). */
  lemma UnequalColoringsDiffer(a: RegionColoring, b: RegionColoring)
    requires a.regionType == Border ==> a.color != Null
    requires b.regionType == Border ==> b.color != Null
    requires !Equal(a, b)
    ensures exists pt :: GetColor(a, pt) != GetColor(b, pt)
  {
    var pt: Point;
    if a.regionType == Border && b.regionType == Unoptimized {
      pt := Point(0, 0, if a.color == 1 then 2 else 1);
    } else if a.regionType == Unoptimized && b.regionType == Border {
      pt := Point(0, 0, if b.color == 1 then 2 else 1);
    } else {
      pt := Point(0, 0, 1);
    }
    assert GetColor(a, pt) != GetColor(b, pt);
  }

  /** A border with the null colour and infill colour every point alike
      but are not equal: the converse above needs its non-null premise. */
  lemma NullBorderLooksLikeInfill(pt: Point)
    ensures GetColor(RegionColoring(Border, Null), pt) == GetColor(RegionColoring(Infill, Null), pt)
    ensures !Equal(RegionColoring(Border, Null), RegionColoring(Infill, Null))
  {
  }

  /** `defaultColoring`: infill with the placeholder colour. */
  function DefaultColoring(badColor: ColorRef): (c: RegionColoring)
    ensures forall pt :: GetColor(c, pt) == Null
    ensures forall d :: Equal(c, d) <==> d.regionType == Infill
  {
    RegionColoring(Infill, badColor)
  }

  /** `unoptimizedColoring`: unoptimised with the placeholder colour. */
  function UnoptimizedColoring(badColor: ColorRef): (c: RegionColoring)
    ensures forall pt :: GetColor(c, pt) == pt.z
    ensures forall d :: Equal(c, d) <==> d.regionType == Unoptimized
  {
    RegionColoring(Unoptimized, badColor)
  }

  /** Which placeholder the two constants carry does not matter to `==`. */
  lemma PlaceholderIrrelevant(bad1: ColorRef, bad2: ColorRef)
    ensures Equal(DefaultColoring(bad1), DefaultColoring(bad2))
    ensures Equal(UnoptimizedColoring(bad1), UnoptimizedColoring(bad2))
    ensures !Equal(DefaultColoring(bad1), UnoptimizedColoring(bad2))
  {
  }

  /** `SliceIslandRegion` */
  datatype SliceIslandRegion = SliceIslandRegion(
    coloring: RegionColoring,
    outline: Paths,
    combBoundary: Paths,
    insets: seq<Paths>,
    skinOutline: Paths,
    sparseOutline: Paths)

  /** The `SliceIslandRegion` constructor: the given outline and colouring,
      every other member empty. */
  function NewRegion(outline: Paths, regionType: RegionType, color: ColorRef): (r: SliceIslandRegion)
    ensures r.outline == outline
    ensures r.coloring.regionType == regionType && r.coloring.color == color
    ensures forall pt :: GetColor(r.coloring, pt) == GetColor(RegionColoring(regionType, color), pt)
    ensures Equal(r.coloring, RegionColoring(regionType, color))
    ensures r.insets == [] && r.combBoundary == [] && r.skinOutline == [] && r.sparseOutline == []
  {
    SliceIslandRegion(RegionColoring(regionType, color), outline, [], [], [], [])
  }

  /** `SliceLayerIsland` */
  datatype SliceLayerIsland = SliceLayerIsland(outline: Paths, regions: seq<SliceIslandRegion>)

  /** `SliceLayer` */
  datatype SliceLayer = SliceLayer(sliceZ: int, printZ: int, islands: seq<SliceLayerIsland>, openLines: Paths)
}
