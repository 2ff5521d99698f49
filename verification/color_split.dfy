/** Post-processing of the colour split of a polygon set. Before the inward
    offset every vertex's Z is replaced by a packed back-reference to the
    vertex it came from; after the offset each offset vertex is joined to its
    original vertex by a border quad coloured like that vertex, the offset
    paths become infill stamped with the placeholder colour, and the rest
    of the outline (the kernel's difference) is the unresolved remainder.
    The kernel's offset and difference are parameters of the model. */
module ColorSplit {
  import opened ClipperTypes
  import opened PackedIndex
  import opened Seqs

  /** Every index of the polygon set fits in a non-negative `int`. */
  ghost predicate IndicesFit(polygons: Paths) {
    |polygons| <= Two31 && forall p :: 0 <= p < |polygons| ==> |polygons[p]| <= Two31
  }

  /** A back-reference names an existing vertex. */
  ghost predicate ValidRef(polygons: Paths, c: Int2) {
    0 <= c.poly < |polygons| && 0 <= c.pt < |polygons[c.poly]|
  }

  /** Every vertex of `path` carries a back-reference into `polygons`. */
  ghost predicate RefsValid(polygons: Paths, path: Path) {
    forall i :: 0 <= i < |path| ==> ValidRef(polygons, FromClipperInt(path[i].z))
  }

  ghost predicate AllRefsValid(polygons: Paths, offset: Paths) {
    forall j :: 0 <= j < |offset| ==> RefsValid(polygons, offset[j])
  }

  /** `copyReplaceZ`: the same polygons with each vertex's Z replaced by its
      own (polygon, point) index pair, packed. */
  function CopyReplaceZ(polygons: Paths): (copy: Paths)
    ensures |copy| == |polygons|
    ensures forall p :: 0 <= p < |polygons| ==> |copy[p]| == |polygons[p]|
    ensures forall p, k :: 0 <= p < |polygons| && 0 <= k < |polygons[p]| ==>
              copy[p][k].x == polygons[p][k].x && copy[p][k].y == polygons[p][k].y
    ensures IndicesFit(polygons) ==>
              forall p, k :: 0 <= p < |polygons| && 0 <= k < |polygons[p]| ==>
                FromClipperInt(copy[p][k].z) == Int2(p, k)
  {
    var copy := seq(|polygons|, p requires 0 <= p < |polygons| =>
      seq(|polygons[p]|, k requires 0 <= k < |polygons[p]| =>
        Point(polygons[p][k].x, polygons[p][k].y, ToClipperInt(Int2(IndexToInt(p), IndexToInt(k))))));
    assert IndicesFit(polygons) ==>
      forall p, k :: 0 <= p < |polygons| && 0 <= k < |polygons[p]| ==>
        FromClipperInt(copy[p][k].z) == Int2(p, k)
    by {
      if IndicesFit(polygons) {
        forall p, k | 0 <= p < |polygons| && 0 <= k < |polygons[p]|
          ensures FromClipperInt(copy[p][k].z) == Int2(p, k)
        {
          assert IndexToInt(p) == p && IndexToInt(k) == k;
          assert copy[p][k].z == ToClipperInt(Int2(p, k));
          DecodeEncode(Int2(p, k));
        }
      }
    }
    copy
  }

  /** `lookup(polygons, int2)` */
  function LookupAt(polygons: Paths, coord: Int2): (r: Point)
    requires ValidRef(polygons, coord)
  {
    polygons[coord.poly][coord.pt]
  }

  /** `lookup(polygons, Point)`: the original vertex a copied vertex refers to. */
  function Lookup(polygons: Paths, inner: Point): (r: Point)
    requires ValidRef(polygons, FromClipperInt(inner.z))
  {
    LookupAt(polygons, FromClipperInt(inner.z))
  }

  /** `lookupPrev(polygons, int2)`: the vertex before the referenced one,
      the polygon's last vertex standing before its first; that is, the
      cyclic predecessor on the polygon's vertex ring. */
  function LookupPrevAt(polygons: Paths, coord: Int2): (r: Point)
    requires ValidRef(polygons, coord)
    ensures r == polygons[coord.poly][(coord.pt - 1) % |polygons[coord.poly]|]
  {
    CyclicPred(coord.pt, |polygons[coord.poly]|);
    polygons[coord.poly][RingPrev(coord.pt, |polygons[coord.poly]|)]
  }

  /** `lookupPrev(polygons, Point)` */
  function LookupPrev(polygons: Paths, inner: Point): (r: Point)
    requires ValidRef(polygons, FromClipperInt(inner.z))
    ensures var c := FromClipperInt(inner.z);
            r == polygons[c.poly][(c.pt - 1) % |polygons[c.poly]|]
  {
    LookupPrevAt(polygons, FromClipperInt(inner.z))
  }

  /** The index before `k` on a ring of `n` indices. */
  function RingPrev(k: nat, n: nat): (r: nat)
    requires k < n
    ensures r < n
  {
    if k == 0 then n - 1 else k - 1
  }

  /** `RingPrev` is subtraction of one modulo the ring size. */
  lemma CyclicPred(k: nat, n: nat)
    requires k < n
    ensures RingPrev(k, n) == (k - 1) % n
  {
    if k == 0 {
      assert -1 == (-1) * n + (n - 1);
    }
  }

  /** Resolving a reference to position (`p`, `k`). */
  lemma LookupRef(polygons: Paths, inner: Point, p: nat, k: nat)
    requires p < |polygons| && k < |polygons[p]|
    requires FromClipperInt(inner.z).poly == p && FromClipperInt(inner.z).pt == k
    ensures ValidRef(polygons, FromClipperInt(inner.z))
    ensures Lookup(polygons, inner) == polygons[p][k]
    ensures LookupPrev(polygons, inner) == polygons[p][RingPrev(k, |polygons[p]|)]
  {
  }

  /** Resolving the back-reference of any vertex of the copy gives the very
      vertex it was copied from, and its cyclic predecessor. */
  lemma LookupCopy(polygons: Paths, p: nat, k: nat)
    requires IndicesFit(polygons)
    requires p < |polygons| && k < |polygons[p]|
    ensures ValidRef(polygons, FromClipperInt(CopyReplaceZ(polygons)[p][k].z))
    ensures Lookup(polygons, CopyReplaceZ(polygons)[p][k]) == polygons[p][k]
    ensures LookupPrev(polygons, CopyReplaceZ(polygons)[p][k]) == polygons[p][RingPrev(k, |polygons[p]|)]
  {
    assert FromClipperInt(CopyReplaceZ(polygons)[p][k].z) == Int2(p, k);
    LookupRef(polygons, CopyReplaceZ(polygons)[p][k], p, k);
  }

  /** `copyZ`: every vertex of the path gets Z `value`; coordinates and
      length are unchanged. */
  function CopyZ(path: Path, value: CInt): (r: Path)
    ensures |r| == |path|
    ensures forall i :: 0 <= i < |path| ==>
              r[i].x == path[i].x && r[i].y == path[i].y && r[i].z == value
  {
    if |path| == 0 then []
    else CopyZ(path[..|path| - 1], value) + [path[|path| - 1].(z := value)]
  }

  /** The border quad of offset vertex `i`: the original edge ending at the
      vertex the offset point came from, then the offset edge back to the
      previous offset point, all four points coloured like the original
      vertex (the second point). */
  function Quad(outline: Paths, offset: Path, i: nat): (q: Path)
    requires i < |offset| && RefsValid(outline, offset)
  {
    var original := Lookup(outline, offset[i]);
    CopyZ([LookupPrev(outline, offset[i]), original, offset[i], offset[RingPrev(i, |offset|)]],
          original.z)
  }

  /** What a quad is, in terms of the outline: its points are the cyclic
      predecessor of the referenced vertex, that vertex, the offset point and
      the cyclically previous offset point, and every Z is the colour of the
      referenced vertex. */
  lemma QuadContents(outline: Paths, offset: Path, i: nat)
    requires i < |offset| && RefsValid(outline, offset)
    ensures var q := Quad(outline, offset, i);
            var c := FromClipperInt(offset[i].z);
            var ring := outline[c.poly];
            && |q| == 4
            && q[0].x == ring[(c.pt - 1) % |ring|].x && q[0].y == ring[(c.pt - 1) % |ring|].y
            && q[1].x == ring[c.pt].x && q[1].y == ring[c.pt].y
            && q[2].x == offset[i].x && q[2].y == offset[i].y
            && q[3].x == offset[(i - 1) % |offset|].x && q[3].y == offset[(i - 1) % |offset|].y
            && forall j :: 0 <= j < 4 ==> q[j].z == ring[c.pt].z
  {
    var c := FromClipperInt(offset[i].z);
    CyclicPred(c.pt, |outline[c.poly]|);
    CyclicPred(i, |offset|);
  }

  /** One iteration of `makePolygons`: the four corners appended in order,
      then every Z set to the colour of the second corner. */
  method BuildQuad(outline: Paths, offset: Path, currIndex: nat, prevIndex: int) returns (quad: Path)
    requires currIndex < |offset| && RefsValid(outline, offset)
    requires prevIndex == if currIndex == 0 then |offset| - 1 else currIndex - 1
    ensures quad == Quad(outline, offset, currIndex)
    ensures var c := FromClipperInt(offset[currIndex].z);
            var ring := outline[c.poly];
            && |quad| == 4
            && quad[0].x == ring[(c.pt - 1) % |ring|].x && quad[0].y == ring[(c.pt - 1) % |ring|].y
            && quad[1].x == ring[c.pt].x && quad[1].y == ring[c.pt].y
            && quad[2].x == offset[currIndex].x && quad[2].y == offset[currIndex].y
            && quad[3].x == offset[(currIndex - 1) % |offset|].x && quad[3].y == offset[(currIndex - 1) % |offset|].y
            && forall j :: 0 <= j < 4 ==> quad[j].z == ring[c.pt].z
  {
    var corners := [LookupPrev(outline, offset[currIndex]),
                    Lookup(outline, offset[currIndex]), // this colour is used
                    offset[currIndex],
                    offset[prevIndex]];
    quad := CopyZ(corners, corners[1].z);
    QuadContents(outline, offset, currIndex);
  }

  /** `makePolygons`: appends one single-path entry per offset vertex, the
      quad of that vertex, after the entries already in `ret`. */
  method MakePolygons(ret: seq<Paths>, outline: Paths, offset: Path) returns (r: seq<Paths>)
    requires RefsValid(outline, offset)
    ensures |r| == |ret| + |offset|
    ensures r[..|ret|] == ret
    ensures forall i :: 0 <= i < |offset| ==> r[|ret| + i] == [Quad(outline, offset, i)]
    ensures r == ret + QuadsOf(outline, offset)
  {
    r := ret;
    var prevIndex: int := |offset| - 1;
    var currIndex := 0;
    while currIndex < |offset|
      invariant 0 <= currIndex <= |offset|
      invariant prevIndex == if currIndex == 0 then |offset| - 1 else currIndex - 1
      invariant |r| == |ret| + currIndex
      invariant r[..|ret|] == ret
      invariant forall k :: |ret| <= k < |r| ==> r[k] == [Quad(outline, offset, k - |ret|)]
    {
      var quad := BuildQuad(outline, offset, currIndex, prevIndex);
      r := r + [[quad]];
      prevIndex := currIndex;
      currIndex := currIndex + 1;
    }
    assert forall i :: 0 <= i < |offset| ==> r[|ret| + i] == [Quad(outline, offset, i)];
    assert r == ret + QuadsOf(outline, offset);
  }

  /** The quads of one offset path, in vertex order. */
  function QuadsOf(outline: Paths, path: Path): (r: seq<Paths>)
    requires RefsValid(outline, path)
  {
    seq(|path|, i requires 0 <= i < |path| => [Quad(outline, path, i)])
  }

  /** The quads of each offset path. */
  function QuadLists(outline: Paths, offset: Paths): (r: seq<seq<Paths>>)
    requires AllRefsValid(outline, offset)
  {
    seq(|offset|, j requires 0 <= j < |offset| => QuadsOf(outline, offset[j]))
  }

  /** One infill entry per offset path, stamped with the placeholder colour. */
  function Infill(offset: Paths, badColor: CInt): (r: seq<Paths>)
  {
    seq(|offset|, j requires 0 <= j < |offset| => [CopyZ(offset[j], badColor)])
  }

  /** The areas whose colour is known: all border quads, path after path,
      then all infill. */
  function KnownAreas(outline: Paths, offset: Paths, badColor: CInt): (r: seq<Paths>)
    requires AllRefsValid(outline, offset)
  {
    Flatten(QuadLists(outline, offset)) + Infill(offset, badColor)
  }

  /** `entries`, read from position `base`, holds quad `i` of offset path
      `j` right after the quads of all earlier paths. */
  ghost predicate QuadPlaced(entries: seq<Paths>, base: nat, outline: Paths, offset: Paths, j: nat, i: nat)
    requires AllRefsValid(outline, offset) && j < |offset| && i < |offset[j]|
  {
    var k := base + TotalLength(offset[..j]) + i;
    k < |entries| && entries[k] == [Quad(outline, offset[j], i)]
  }

  /** `entries`, read from position `base`, holds the infill of offset path
      `j` after one quad per offset vertex and `j` earlier infill entries. */
  ghost predicate InfillPlaced(entries: seq<Paths>, base: nat, offset: Paths, badColor: CInt, j: nat)
    requires j < |offset|
  {
    var k := base + TotalLength(offset) + j;
    k < |entries| && entries[k] == [CopyZ(offset[j], badColor)]
  }

  /** There is one quad per offset vertex. */
  lemma AllQuadsLength(outline: Paths, offset: Paths)
    requires AllRefsValid(outline, offset)
    ensures |Flatten(QuadLists(outline, offset))| == TotalLength(offset)
  {
    var lists := QuadLists(outline, offset);
    FlattenLength(lists);
    TotalLengthSameShape(lists, offset);
  }

  /** Quad `i` of offset path `j` sits after all quads of the earlier paths. */
  lemma AllQuadsAt(outline: Paths, offset: Paths, j: nat, i: nat)
    requires AllRefsValid(outline, offset)
    requires j < |offset| && i < |offset[j]|
    ensures QuadPlaced(Flatten(QuadLists(outline, offset)), 0, outline, offset, j, i)
  {
    var lists := QuadLists(outline, offset);
    FlattenAt(lists, j, i);
    TotalLengthSameShape(lists[..j], offset[..j]);
    AllQuadsLength(outline, offset);
  }

  /** Where each known area sits: the quads of path `j` after those of the
      paths before it, then, after all quads, the infill of each path in
      path order. */
  lemma KnownAreasLayout(outline: Paths, offset: Paths, badColor: CInt)
    requires AllRefsValid(outline, offset)
    ensures |KnownAreas(outline, offset, badColor)| == TotalLength(offset) + |offset|
    ensures forall j, i :: 0 <= j < |offset| && 0 <= i < |offset[j]| ==>
              QuadPlaced(KnownAreas(outline, offset, badColor), 0, outline, offset, j, i)
    ensures forall j :: 0 <= j < |offset| ==>
              InfillPlaced(KnownAreas(outline, offset, badColor), 0, offset, badColor, j)
  {
    var quads := Flatten(QuadLists(outline, offset));
    var known := KnownAreas(outline, offset, badColor);
    AllQuadsLength(outline, offset);
    forall j, i | 0 <= j < |offset| && 0 <= i < |offset[j]|
      ensures QuadPlaced(known, 0, outline, offset, j, i)
    {
      AllQuadsAt(outline, offset, j, i);
      assert known[TotalLength(offset[..j]) + i] == quads[TotalLength(offset[..j]) + i];
    }
    forall j | 0 <= j < |offset|
      ensures InfillPlaced(known, 0, offset, badColor, j)
    {
      assert known[|quads| + j] == Infill(offset, badColor)[j];
    }
  }

  /** The stamping loop of `splitIntoColors`: every offset path gets the
      placeholder colour in all its Zs. */
  method StampPaths(offset: Paths, badColor: CInt) returns (stamped: Paths)
    ensures |stamped| == |offset|
    ensures forall j :: 0 <= j < |offset| ==> stamped[j] == CopyZ(offset[j], badColor)
  {
    stamped := offset;
    var j := 0;
    while j < |stamped|
      invariant 0 <= j <= |stamped| == |offset|
      invariant forall i :: 0 <= i < j ==> stamped[i] == CopyZ(offset[i], badColor)
      invariant forall i :: j <= i < |offset| ==> stamped[i] == offset[i]
    {
      stamped := stamped[j := CopyZ(stamped[j], badColor)];
      j := j + 1;
    }
  }

  /** The area-collecting loops of `splitIntoColors`: the quads of every
      offset path, then each offset path stamped as infill. */
  method CollectKnown(polygons: Paths, offset: Paths, badColor: CInt) returns (known: seq<Paths>)
    requires AllRefsValid(polygons, offset)
    ensures known == KnownAreas(polygons, offset, badColor)
  {
    ghost var lists := QuadLists(polygons, offset);
    known := [];
    var j := 0;
    while j < |offset|
      invariant 0 <= j <= |offset|
      invariant known == Flatten(lists[..j])
    {
      known := MakePolygons(known, polygons, offset[j]);
      FlattenSnoc(lists, j);
      j := j + 1;
    }
    assert lists[..|offset|] == lists;

    var stamped := StampPaths(offset, badColor);
    j := 0;
    while j < |stamped|
      invariant 0 <= j <= |stamped|
      invariant known == Flatten(lists) + Infill(offset[..j], badColor)
    {
      known := known + [[stamped[j]]];
      j := j + 1;
    }
    assert offset[..j] == offset;
  }

  /** `Polygons::splitIntoColors`. `offsetKernel` is the kernel's miter
      offset (carrying each vertex's Z through the colour-fill hook) and
      `differenceParts` the kernel's difference of the outline minus the
      given areas, split into parts. The result lists the leftover parts,
      then one quad per offset vertex, path after path, then each offset
      path stamped with the placeholder colour. */
  method SplitIntoColors(polygons: Paths, distance: int, badColor: CInt,
                         offsetKernel: (Paths, int) -> Paths,
                         differenceParts: (Paths, seq<Paths>) -> seq<Paths>)
    returns (polys: seq<Paths>)
    requires AllRefsValid(polygons, offsetKernel(CopyReplaceZ(polygons), -distance))
    ensures var offset := offsetKernel(CopyReplaceZ(polygons), -distance);
            var known := KnownAreas(polygons, offset, badColor);
            polys == differenceParts(polygons, known) + known
    ensures var offset := offsetKernel(CopyReplaceZ(polygons), -distance);
            var leftover := differenceParts(polygons, KnownAreas(polygons, offset, badColor));
            && |polys| == |leftover| + TotalLength(offset) + |offset|
            && (forall j, i :: 0 <= j < |offset| && 0 <= i < |offset[j]| ==>
                  QuadPlaced(polys, |leftover|, polygons, offset, j, i))
            && (forall j :: 0 <= j < |offset| ==>
                  InfillPlaced(polys, |leftover|, offset, badColor, j))
  {
    var copyPaths := CopyReplaceZ(polygons);
    var offset := offsetKernel(copyPaths, -distance);
    var known := CollectKnown(polygons, offset, badColor);
    var leftover := differenceParts(polygons, known);
    polys := leftover + known;
    KnownAreasLayout(polygons, offset, badColor);
    LayoutAfterLeftover(leftover, known, polygons, offset, badColor);
  }

  /** Putting the leftover parts in front moves every known area back by
      their number. */
  lemma LayoutAfterLeftover(leftover: seq<Paths>, known: seq<Paths>, outline: Paths, offset: Paths, badColor: CInt)
    requires AllRefsValid(outline, offset)
    requires |known| == TotalLength(offset) + |offset|
    requires forall j, i :: 0 <= j < |offset| && 0 <= i < |offset[j]| ==>
               QuadPlaced(known, 0, outline, offset, j, i)
    requires forall j :: 0 <= j < |offset| ==> InfillPlaced(known, 0, offset, badColor, j)
    ensures forall j, i :: 0 <= j < |offset| && 0 <= i < |offset[j]| ==>
              QuadPlaced(leftover + known, |leftover|, outline, offset, j, i)
    ensures forall j :: 0 <= j < |offset| ==> InfillPlaced(leftover + known, |leftover|, offset, badColor, j)
  {
    var polys := leftover + known;
    forall j, i | 0 <= j < |offset| && 0 <= i < |offset[j]|
      ensures QuadPlaced(polys, |leftover|, outline, offset, j, i)
    {
      assert QuadPlaced(known, 0, outline, offset, j, i);
      var k := TotalLength(offset[..j]) + i;
      assert polys[|leftover| + k] == known[k];
    }
    forall j | 0 <= j < |offset|
      ensures InfillPlaced(polys, |leftover|, offset, badColor, j)
    {
      assert InfillPlaced(known, 0, offset, badColor, j);
      assert polys[|leftover| + TotalLength(offset) + j] == known[TotalLength(offset) + j];
    }
  }

  /** `Z` occurs as the Z of some vertex of `paths`. */
  ghost predicate ZOccurs(z: CInt, paths: Paths) {
    exists p, k :: 0 <= p < |paths| && 0 <= k < |paths[p]| && paths[p][k].z == z
  }

  /** When the offset kernel only ever copies Z values of its input vertices,
      every offset vertex refers back to a real vertex of the outline, which
      is what `SplitIntoColors` needs of the kernel. */
  lemma OffsetRefsValid(polygons: Paths, offset: Paths)
    requires IndicesFit(polygons)
    requires forall j, i :: 0 <= j < |offset| && 0 <= i < |offset[j]| ==>
               ZOccurs(offset[j][i].z, CopyReplaceZ(polygons))
    ensures AllRefsValid(polygons, offset)
  {
    var copy: Paths := CopyReplaceZ(polygons);
    forall j, i | 0 <= j < |offset| && 0 <= i < |offset[j]|
      ensures ValidRef(polygons, FromClipperInt(offset[j][i].z))
    {
      var p: int, k: int :| 0 <= p < |copy| && 0 <= k < |copy[p]| && copy[p][k].z == offset[j][i].z;
      assert FromClipperInt(copy[p][k].z) == Int2(p, k);
    }
  }
}
