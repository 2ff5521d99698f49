# Colour bookkeeping of a multi-material slicer, in Dafny

This project models the colour bookkeeping of CuraEngine's multi-material
branch, together with the list-shaping rules around it. The Clipper
geometry kernel is treated as an opaque function throughout.

- **`Colors`** (`src/color.cpp`, `src/color.h`) covers colour interning.
  `ColorCache::getColor` is find-or-insert over a set of RGB triples. The
  cache is modelled as the sequence of distinct triples it holds, and a
  handle is an index into it. Entries are only ever added, so a handle
  keeps naming the same triple. `flatColorCallback` is the kernel's
  tie-break hook for synthesised points.
- **`PackedIndex`** (`src/utils/polygon.cpp`) is the `int2` back-reference:
  a polygon number and a point number stored in one 64-bit Clipper Z value.
  Little-endian layout is assumed, so the polygon number is the low 32 bits
  and the point number the high 32 bits. Both reinterpretations are written
  out as two's-complement arithmetic.
- **`ColorSplit`** (`src/utils/polygon.cpp`) is the post-processing of
  `Polygons::splitIntoColors`. It covers:
  - the copy whose Zs refer back to their own vertex;
  - resolving a reference (`lookup`) and its cyclic predecessor
    (`lookupPrev`);
  - stamping a Z onto a path (`copyZ`);
  - the border quads of `makePolygons`;
  - the assembled result list: the leftover parts, then one quad per
    offset vertex, then each offset path stamped as infill.
- **`SliceData`** (`src/sliceDataStorage.h`) covers the region colouring,
  its `getColor` and `operator==`, the two colouring constants, and the
  region, island and layer containers.
- **`Insets`** (`src/inset.cpp`) models both `generateInsets` overloads. For
  a region, the loop offsets the outline inward one line width at a time and
  stops at the first empty inset. For a layer, it runs the per-region loop
  on every region. It then erases regions without insets, and islands left
  without regions.
- **`ClipperTypes`** and **`Seqs`** hold the shared vocabulary:
  - points with 64-bit coordinates;
  - paths as sequences;
  - flattening;
  - order-preserving filtering.

Colour pointers, as the Z field and `RegionColoring` carry them, are
integers, with `Null` (0) standing for the null pointer. The static
placeholder `ColorCache::badColor` is a parameter `badColor`.

The kernel calls are function-valued parameters:
- the miter offset of `splitIntoColors`;
- the difference of `splitIntoColors` followed by its split into parts;
- `Polygons::offset` and `optimizePolygons` in inset generation.

`SplitIntoColors` asks of its offset kernel only that every Z it returns
refers to a vertex of the input. `OffsetRefsValid` shows that this holds
whenever the kernel only copies input Zs.

## Model

| member | source | states |
|---|---|---|
| Colors.EmptyCache | src/color.cpp:12 | The cache starts empty and without duplicates. |
| Colors.Find | src/color.cpp:20 | A found handle names an entry equal to the target. Nothing is found exactly when the target is not in the cache. |
| Colors.Insert | src/color.cpp:27 | Set insertion. The returned handle names the colour. The "inserted" flag is true exactly when the colour was absent. A fresh insert appends the colour; otherwise the cache is unchanged. No duplicates arise. |
| Colors.CreateColor | src/color.cpp:26-30 | Creating an absent colour adds exactly one entry at the next handle. Every earlier entry keeps its handle, and the cache stays duplicate-free, which is what the freshness assertion guards. |
| Colors.GetColor | src/color.cpp:18-24 | The handle names the triple (r, g, b). The cache grows by at most one entry and keeps every earlier entry at its handle. A triple already present leaves the cache unchanged. An absent one adds exactly one entry. The cache stays duplicate-free. |
| Colors.GetColorIdempotent | src/color.cpp:20-23 | A second request for the same triple returns the same handle and does not change the cache. |
| Colors.GetColorHandlesInjective | src/color.cpp:18-30 | Two successive requests return equal handles exactly when the triples are equal. The second request leaves the first handle naming its triple. |
| Colors.CacheTestScenario | colorCacheTest.cpp:10-19 | The cache's own scenario holds for every pair of different triples. Different triples get different handles, a repeated request returns the earlier handle, and exactly two entries result. |
| Colors.FlatColorCallback | src/color.cpp:6-8 | The synthesised point takes the first edge's Z and keeps its X and Y. |
| Colors.FlatColorIgnoresSecondEdge | src/color.cpp:6-8 | The result does not depend on the second edge. |
| PackedIndex.IndexToInt | src/utils/polygon.cpp:21-24 | Converting an unsigned index to the `int` fields of `int2` keeps any index below 2^31. |
| PackedIndex.DecodeEncode | src/utils/polygon.cpp:7-16 | Decoding an encoded (poly, pt) pair gives the same pair back. |
| PackedIndex.EncodeDecode | src/utils/polygon.cpp:9-15 | Encoding a decoded Z value gives the same 64-bit value back. |
| PackedIndex.ToClipperInt | src/utils/polygon.cpp:13-15 | Packing puts `poly` in the low 32 bits and `pt` in the high 32 bits, each as its two's-complement bits. |
| PackedIndex.FromClipperInt | src/utils/polygon.cpp:9 | Unpacking reads the low 32 bits as `poly` and the high 32 bits as `pt`. A non-negative value below 2^31 unpacks to polygon number itself, point 0. |
| PackedIndex.PackInjective | src/utils/polygon.cpp:13-16 | Two pairs encode to the same Z exactly when they are equal. |
| ColorSplit.CopyReplaceZ | src/utils/polygon.cpp:18-28 | The copy has the same number of polygons and the same polygon lengths, with every X and Y kept. When the indices fit in `int`, vertex [p][k]'s Z decodes to (p, k). |
| ColorSplit.LookupCopy | src/utils/polygon.cpp:30-41 | Looking up any vertex of the copy in the original gives the original vertex it was copied from. `lookupPrev` gives that vertex's cyclic predecessor. |
| ColorSplit.LookupPrevAt | src/utils/polygon.cpp:42-46 | `lookupPrev` on an index pair returns the vertex at point index minus one, modulo the polygon's length. So point 0 wraps to the last point. |
| ColorSplit.LookupPrev | src/utils/polygon.cpp:47-49 | `lookupPrev` on a point decodes its Z and returns the cyclic predecessor of the vertex it names, at index (pt - 1) mod n. |
| ColorSplit.CopyZ | src/utils/polygon.cpp:51-55 | Every vertex gets the given Z. Length, X and Y are unchanged. |
| ColorSplit.QuadContents | src/utils/polygon.cpp:62-66 | Quad i consists of the original edge's start (the cyclic predecessor), the original vertex, offset point i and offset point (i-1) mod n. All four Zs are the original vertex's Z. |
| ColorSplit.BuildQuad | src/utils/polygon.cpp:61-66 | One loop iteration builds a 4-point path. Its points are the original vertex's cyclic predecessor, at (pt - 1) mod n, then the original vertex, then offset point `currIndex`, then offset point (currIndex - 1) mod n. All four Zs are the original vertex's Z. |
| ColorSplit.MakePolygons | src/utils/polygon.cpp:57-68 | Exactly one single-path entry is appended per offset vertex. Earlier entries are unchanged. Appended entry i is quad i. |
| ColorSplit.AllQuadsLength | src/utils/polygon.cpp:90-92 | The quads of all offset paths number as many as the offset vertices. |
| ColorSplit.AllQuadsAt | src/utils/polygon.cpp:90-92 | Quad i of path j comes after all quads of the earlier paths. |
| ColorSplit.KnownAreasLayout | src/utils/polygon.cpp:87-100 | The known areas hold one quad per offset vertex, path after path, then one infill entry per offset path in order. |
| ColorSplit.StampPaths | src/utils/polygon.cpp:94-96 | Every offset path becomes itself with every Z set to the placeholder colour. |
| ColorSplit.CollectKnown | src/utils/polygon.cpp:87-100 | The three collecting loops produce exactly the known areas: all quads, then the stamped infill paths. |
| ColorSplit.SplitIntoColors | src/utils/polygon.cpp:70-121 | The result is the leftover parts followed by the known areas. Its length is the number of leftover parts, plus the number of offset vertices, plus the number of offset paths. Every quad and every infill entry sits at its stated position after the leftover parts. |
| ColorSplit.LayoutAfterLeftover | src/utils/polygon.cpp:115-120 | Putting the leftover parts first shifts every known area by their number. |
| ColorSplit.OffsetRefsValid | src/utils/polygon.cpp:72-79 | If the offset kernel only carries Zs of the copy through, every offset vertex's Z is a valid reference into the outline. |
| SliceData.GetColor | src/sliceDataStorage.h:28-37 | An unoptimised region gives each point the colour carried in that point's Z. Every other region gives every point the colour that `==` compares: the stored colour for a border, null for infill. |
| SliceData.Equal | src/sliceDataStorage.h:39-42 | Two colourings are equal exactly when they have the same type and, for borders only, the same colour. |
| SliceData.EqualIffSameKey | src/sliceDataStorage.h:39-42 | Colourings of different types are never equal. Colourings of the same non-border type are always equal. Two borders are equal exactly when their colours are. |
| SliceData.EqualIsEquivalence | src/sliceDataStorage.h:39-42 | `operator==` is reflexive, symmetric and transitive. |
| SliceData.EqualColoringsAgree | src/sliceDataStorage.h:28-42 | Equal colourings give every point the same colour. |
| SliceData.UnequalColoringsDiffer | src/sliceDataStorage.h:28-42 | Unequal colourings, where no border's colour is null, give some point different colours. |
| SliceData.NullBorderLooksLikeInfill | src/sliceDataStorage.h:28-42 | A border with a null colour colours every point like infill, yet the two are not equal. This is why the converse above needs non-null borders. |
| SliceData.DefaultColoring | src/sliceDataStorage.h:49 | The default colouring gives every point no colour (null). It equals exactly the infill colourings. |
| SliceData.UnoptimizedColoring | src/sliceDataStorage.h:50 | The unoptimised colouring gives every point the colour carried in its own Z. It equals exactly the unoptimised colourings. |
| SliceData.PlaceholderIrrelevant | src/sliceDataStorage.h:49-50 | Which placeholder the two constants carry does not matter to `==`, and the two constants are never equal. |
| SliceData.NewRegion | src/sliceDataStorage.h:55-56 | The constructor stores exactly the given outline, type and colour. Every other member starts empty. |
| Insets.Half | src/inset.cpp:18 | C++ `offset/2`: the quotient rounded toward zero, so halving a negative value gives a non-positive result whose double is at least the value. |
| Insets.InsetDistance | src/inset.cpp:18 | Inset i is offset by -offset*i - offset/2. For a non-negative offset that is floor division by 2; for a negative offset it rounds toward zero. |
| Insets.InsetsStepByOffset | src/inset.cpp:16-18 | Each inset lies exactly one offset further in than the one before. |
| Insets.InsetLoop | src/inset.cpp:16-25 | The loop never shortens the inset list, and leaves it unchanged once the iteration index reaches the count (in particular when the count is negative). |
| Insets.GenerateInsets | src/inset.cpp:7-26 | The comb boundary is the outline offset by minus the offset, whatever the count. A count of 0 appends exactly the outline. The outline, colouring, skin and sparse outlines are untouched. |
| Insets.InsetLoopFromPrefix | src/inset.cpp:16-25 | Starting from i correct non-empty insets, the loop ends with the leading non-empty candidates. There are at most `insetCount` of them, and it stops only at an empty candidate. |
| Insets.GenerateInsetsFromEmpty | src/inset.cpp:16-25 | Take a region without insets and a positive count. Inset j is the optimised offset at -offset*j - offset/2, with C++ truncating division. Every kept inset is non-empty, at most `insetCount` are made, and fewer only when the next candidate is empty. |
| Insets.FreshRegionHasInset | src/inset.cpp:10-25 | A fresh region gets at least one inset exactly when the count is 0 or the first candidate is non-empty. |
| Insets.GenerateAll | src/inset.cpp:30-34 | Every region of every island is replaced by the per-region inset generation applied to it. Each island keeps its outline and its number of regions. |
| Insets.PruneRegions | src/inset.cpp:40-47 | A pruned island keeps its outline. Its regions all have an inset and all come from the island. Every region of the island that has an inset is kept. |
| Insets.PruneIslands | src/inset.cpp:38-53 | Every surviving island has a region and is the region-pruned form of some input island. Every input island whose pruned form still has a region survives. |
| Insets.EraseRegionsWithoutInsets | src/inset.cpp:40-47 | The erase loop over regions leaves exactly the regions with an inset, in their original order. |
| Insets.PruneIsland | src/inset.cpp:40-47 | One island after the region loop is the island with its inset-less regions filtered out. |
| Insets.IslandStep | src/inset.cpp:38-53 | One iteration of the island loop carries the loop state from `done` to `done + 1` islands handled. |
| Insets.EraseEmptyIslands | src/inset.cpp:38-53 | The island loop leaves exactly the islands that still have a region after their own pruning, in their original order. |
| Insets.GenerateLayerInsets | src/inset.cpp:28-54 | The layer pass is generation followed by pruning. Every surviving island has a region, and every surviving region has an inset. |
| Insets.PrunedIslandsNonEmpty | src/inset.cpp:36-53 | After pruning, no island is without regions and no region is without insets. |
| Insets.PruneIslandsMembership | src/inset.cpp:40-52 | An island survives exactly when one of its regions has an inset. A region survives exactly when it has an inset. |
| Insets.PruneKeepsOrder | src/inset.cpp:36-53 | Pruning distributes over concatenation, so survivors keep their relative order. |

## Left out

- `ColorCache::inst()` (src/color.cpp:12-16) is not modelled. It returns the one static cache instance. The model passes the cache value explicitly, so there is no singleton to model.
- Colour components are an abstract key type with equality, not `float`. Float comparison, NaN and the set's ordering are not modelled.
- `ColorCache::badColor`, `ColorExtents` and the `colorFill` callback are not part of this model. `badColor` is a parameter, and the offset and difference kernels that would invoke `colorFill` are parameters.
- Clipper internals are passed in as parameters: `ClipperOffset::Execute`, `Clipper::Execute(ctDifference)`, `_processPolyTreeNode`, `Polygons::offset` and `optimizePolygons`. Miter limit, join type and the poly-tree split are therefore not modelled.
- Colors.CreateColor: returns a clean handle to the entry. The source at src/color.cpp:26-29 returns a `ColorIterator&` bound to `result.first` of a local `std::pair`. `getColor` reads that dangling reference at src/color.cpp:22-23, which is undefined behaviour.
- The declaration of `ColorCache` is not part of this model. At src/color.cpp:22 a `Color` is passed where `createColor` declares `const Color *`. The model reads the cache as a set of colour triples held by value, with find and insert keyed on the whole triple.
- ColorSplit.CopyReplaceZ: the loop counters at src/utils/polygon.cpp:21 and 23 are `unsigned int`. With 2^32 or more polygons, or points in one polygon, they wrap and the source loop never terminates. The model instead always returns a copy of the right shape, converting each index modulo 2^32 (`IndexToInt`). The back-reference property is promised only when every index is below 2^31.
- ColorSplit.MakePolygons: at src/utils/polygon.cpp:59-60 `prevIndex` is an `int` set from the unsigned `offset.size() - 1`, and `currIndex` is `unsigned int`. For an offset path of more than 2^31 vertices the first iteration reads `offset` at a negative index, which is undefined behaviour. At 2^32 or more vertices the counter wraps and the loop never ends. The model instead always reads the last vertex as the first predecessor and always terminates.
- Insets.EraseRegionsWithoutInsets: the `unsigned int` counters of the erase loops at src/inset.cpp:38 and 40 never reach the size of a list with 2^32 or more regions or islands, so there the source loops never end. The model's loops, and `Insets.EraseEmptyIslands`, always terminate and filter the whole list.
- `reinterpret_cast` between pointers and integers is modelled as plain integers. Byte order is fixed to little-endian for `int2`.
- Insets.InsetDistance: the product `-offset * i` is computed on unbounded integers. 32-bit `int` overflow of the offset distance is not modelled.
- Insets.GenerateInsetsFromEmpty: characterises only regions that start without insets. With earlier insets the source optimises and tests `insets[i]` rather than the inset just pushed. `InsetLoop` models that behaviour as written, but no lemma describes it.
- `SliceLayerIsland::boundaryBox` (an `AABB`) is left out of the island datatype. Nothing in the modelled code reads or writes it.
- `src/skin.cpp`, `src/multiVolumes.cpp`, `src/raft.cpp` and `src/layerPart.cpp` are left out. They are chains of kernel boolean operations, floating-point area thresholds and file output.
- `src/utils/svg.h` and `test.cpp` are left out for the same reason.
