/** Inset generation for one region and for a whole layer. A region's
    insets are successive inward offsets of its outline, stopping at the
    first one that comes out empty; afterwards regions without insets and
    islands without regions are removed. The kernel's offset and polygon
    optimiser are parameters. */
module Insets {
  import opened ClipperTypes
  import opened Seqs
  import opened SliceData

  /** The kernel operations inset generation uses: `Polygons::offset` and
      `optimizePolygons`. */
  datatype Kernel = Kernel(offset: (Paths, int) -> Paths, optimize: Paths -> Paths)

  /** C++ integer division by two, rounding toward zero. */
  function Half(x: int): (h: int)
    ensures x >= 0 ==> 0 <= h && h + h <= x < h + h + 2
    ensures x < 0 ==> h <= 0 && h + h >= x > h + h - 2
  {
    if x >= 0 then x / 2 else -((-x) / 2)
  }

  /** The offset of inset `i`: half a line width in, then one line width per
      earlier inset. */
  function InsetDistance(offset: int, i: int): (d: int)
    ensures offset >= 0 ==> d == -(offset * i) - offset / 2
    ensures offset < 0 ==> d == -(offset * i) + (-offset) / 2
  {
    -offset * i - Half(offset)
  }

  /** Successive insets lie one line width further in. */
  lemma InsetsStepByOffset(offset: int, i: int)
    ensures InsetDistance(offset, i + 1) == InsetDistance(offset, i) - offset
  {
  }

  /** Inset `i` as the kernel produces it. */
  function Candidate(k: Kernel, outline: Paths, offset: int, i: int): (r: Paths)
  {
    k.optimize(k.offset(outline, InsetDistance(offset, i)))
  }

  /** The generation loop from iteration `i` on: push the offset outline,
      optimise the inset at index `i` in place, and stop after popping the
      last inset if the one at index `i` came out empty. */
  function InsetLoop(k: Kernel, outline: Paths, offset: int, insetCount: int,
                     i: nat, insets: seq<Paths>): (r: seq<Paths>)
    requires i <= |insets|
    ensures |insets| <= |r|
    ensures insetCount <= i ==> r == insets
    decreases insetCount - i
  {
    if insetCount <= i then insets
    else
      var pushed := insets + [k.offset(outline, InsetDistance(offset, i))];
      var optimized := pushed[i := k.optimize(pushed[i])];
      if |optimized[i]| < 1 then optimized[..|optimized| - 1]
      else InsetLoop(k, outline, offset, insetCount, i + 1, optimized)
  }

  /** `generateInsets(SliceIslandRegion*, offset, insetCount)`. */
  function GenerateInsets(k: Kernel, part: SliceIslandRegion, offset: int, insetCount: int): (r: SliceIslandRegion)
    ensures r.combBoundary == k.offset(part.outline, -offset)
    ensures r.coloring == part.coloring && r.outline == part.outline
    ensures r.skinOutline == part.skinOutline && r.sparseOutline == part.sparseOutline
    ensures insetCount == 0 ==> r.insets == part.insets + [part.outline]
    ensures insetCount < 0 ==> r.insets == part.insets
  {
    var withComb := part.(combBoundary := k.offset(part.outline, -offset));
    if insetCount == 0 then withComb.(insets := part.insets + [part.outline])
    else withComb.(insets := InsetLoop(k, part.outline, offset, insetCount, 0, part.insets))
  }

  /** Starting from the first `i` insets, the loop keeps them and continues
      with the longest run of non-empty candidates, at most `insetCount` in
      all. */
  lemma {:induction false} InsetLoopFromPrefix(k: Kernel, outline: Paths, offset: int, insetCount: int,
                                               i: nat, insets: seq<Paths>)
    requires |insets| == i
    requires forall j :: 0 <= j < i ==> insets[j] == Candidate(k, outline, offset, j) && |insets[j]| > 0
    ensures var r := InsetLoop(k, outline, offset, insetCount, i, insets);
            && (|r| <= insetCount || r == insets)
            && (forall j :: 0 <= j < |r| ==> r[j] == Candidate(k, outline, offset, j) && |r[j]| > 0)
            && (|r| < insetCount ==> |Candidate(k, outline, offset, |r|)| == 0)
    decreases insetCount - i
  {
    if i < insetCount {
      var pushed := insets + [k.offset(outline, InsetDistance(offset, i))];
      var optimized := pushed[i := k.optimize(pushed[i])];
      assert optimized[i] == Candidate(k, outline, offset, i);
      assert optimized[..i] == insets;
      if |optimized[i]| >= 1 {
        InsetLoopFromPrefix(k, outline, offset, insetCount, i + 1, optimized);
      }
    }
  }

  /** For a region with no insets yet and a positive inset count, the
      insets are exactly the leading non-empty candidates: at most
      `insetCount` of them, inset `j` being the optimised offset at
      `-offset*j - offset/2`, and generation stops at the first empty one. */
  lemma GenerateInsetsFromEmpty(k: Kernel, part: SliceIslandRegion, offset: int, insetCount: int)
    requires part.insets == [] && insetCount > 0
    ensures var ins := GenerateInsets(k, part, offset, insetCount).insets;
            && |ins| <= insetCount
            && (forall j :: 0 <= j < |ins| ==> ins[j] == Candidate(k, part.outline, offset, j) && |ins[j]| > 0)
            && (|ins| < insetCount ==> |Candidate(k, part.outline, offset, |ins|)| == 0)
  {
    InsetLoopFromPrefix(k, part.outline, offset, insetCount, 0, []);
  }

  /** A fresh region ends up with at least one inset exactly when the
      inset count is zero or the first candidate is non-empty. */
  lemma FreshRegionHasInset(k: Kernel, part: SliceIslandRegion, offset: int, insetCount: int)
    requires part.insets == [] && insetCount >= 0
    ensures |GenerateInsets(k, part, offset, insetCount).insets| >= 1 <==>
            insetCount == 0 || |Candidate(k, part.outline, offset, 0)| > 0
  {
    if insetCount > 0 {
      GenerateInsetsFromEmpty(k, part, offset, insetCount);
    }
  }

  /** The first pass over a layer: every region of every island. */
  function GenerateAll(k: Kernel, islands: seq<SliceLayerIsland>, offset: int, insetCount: int): (r: seq<SliceLayerIsland>)
    ensures |r| == |islands|
    ensures forall i :: 0 <= i < |r| ==>
              r[i].outline == islands[i].outline && |r[i].regions| == |islands[i].regions|
    ensures forall i, j :: 0 <= i < |r| && 0 <= j < |r[i].regions| ==>
              r[i].regions[j] == GenerateInsets(k, islands[i].regions[j], offset, insetCount)
  {
    seq(|islands|, i requires 0 <= i < |islands| =>
      islands[i].(regions := seq(|islands[i].regions|, j requires 0 <= j < |islands[i].regions| =>
        GenerateInsets(k, islands[i].regions[j], offset, insetCount))))
  }

  /** A region survives pruning when it has an inset. */
  predicate HasInset(r: SliceIslandRegion) {
    |r.insets| >= 1
  }

  /** An island survives pruning when it has a region left. */
  predicate HasRegion(island: SliceLayerIsland) {
    |island.regions| >= 1
  }

  /** An island with its inset-less regions removed. */
  function PruneRegions(island: SliceLayerIsland): (r: SliceLayerIsland)
    ensures r.outline == island.outline
    ensures forall j :: 0 <= j < |r.regions| ==> HasInset(r.regions[j]) && r.regions[j] in island.regions
    ensures forall j :: 0 <= j < |island.regions| && HasInset(island.regions[j]) ==>
              island.regions[j] in r.regions
  {
    island.(regions := Filter(island.regions, HasInset))
  }

  /** The pruned islands: inset-less regions removed, then region-less
      islands removed, everything else in its original order. */
  function PruneIslands(islands: seq<SliceLayerIsland>): (r: seq<SliceLayerIsland>)
    ensures |r| <= |islands|
    ensures forall i :: 0 <= i < |r| ==> HasRegion(r[i])
    ensures forall i :: 0 <= i < |r| ==> exists m :: 0 <= m < |islands| && r[i] == PruneRegions(islands[m])
    ensures forall m :: 0 <= m < |islands| && HasRegion(PruneRegions(islands[m])) ==>
              PruneRegions(islands[m]) in r
  {
    Filter(PrunedRegionsOf(islands), HasRegion)
  }

  /** The region loop of the pruning pass. Erasing element `regionNr` and
      then decrementing the unsigned index (which wraps at zero) before the
      loop increments it leaves the index where it was. */
  method EraseRegionsWithoutInsets(regions: seq<SliceIslandRegion>) returns (rs: seq<SliceIslandRegion>)
    ensures rs == Filter(regions, HasInset)
  {
    rs := regions;
    var regionNr := 0;
    ghost var done := 0;
    while regionNr < |rs|
      invariant 0 <= regionNr <= |rs|
      invariant 0 <= done <= |regions|
      invariant rs[..regionNr] == Filter(regions[..done], HasInset)
      invariant rs[regionNr..] == regions[done..]
      decreases |rs| - regionNr
    {
      assert rs[regionNr] == regions[done];
      assert rs[regionNr + 1..] == regions[done + 1..] by {
        assert rs[regionNr + 1..] == rs[regionNr..][1..];
        assert regions[done + 1..] == regions[done..][1..];
      }
      EraseStep(rs, regionNr, regions, done, HasInset);
      if |rs[regionNr].insets| < 1 {
        rs := rs[..regionNr] + rs[regionNr + 1..];
      } else {
        regionNr := regionNr + 1;
      }
      done := done + 1;
    }
    assert regions[..done] == regions;
  }

  /** One island with the region loop applied. */
  method PruneIsland(island: SliceLayerIsland) returns (p: SliceLayerIsland)
    ensures p == PruneRegions(island)
  {
    var regions := EraseRegionsWithoutInsets(island.regions);
    p := island.(regions := regions);
  }

  /** The islands with their regions pruned, before any island is erased. */
  function PrunedRegionsOf(islands: seq<SliceLayerIsland>): (r: seq<SliceLayerIsland>)
    ensures |r| == |islands|
    ensures forall i :: 0 <= i < |r| ==> r[i] == PruneRegions(islands[i])
  {
    seq(|islands|, i requires 0 <= i < |islands| => PruneRegions(islands[i]))
  }

  /** The state of the island loop after `done` islands of the input have
      been handled and `islandNr` of them kept. */
  ghost predicate IslandLoopState(islands: seq<SliceLayerIsland>, kept: seq<SliceLayerIsland>, islandNr: int, done: int)
  {
    && 0 <= islandNr <= |kept|
    && 0 <= done <= |islands|
    && kept[..islandNr] == Filter(PrunedRegionsOf(islands)[..done], HasRegion)
    && kept[islandNr..] == islands[done..]
  }

  /** One iteration of the island loop: prune the regions of island
      `islandNr`, then erase the island if it has none left. */
  method IslandStep(kept: seq<SliceLayerIsland>, islandNr: nat, ghost islands: seq<SliceLayerIsland>, ghost done: nat)
    returns (kept2: seq<SliceLayerIsland>, islandNr2: nat)
    requires IslandLoopState(islands, kept, islandNr, done) && islandNr < |kept|
    ensures IslandLoopState(islands, kept2, islandNr2, done + 1)
    ensures |kept2| - islandNr2 < |kept| - islandNr
  {
    ghost var pruned := PrunedRegionsOf(islands);
    assert kept[islandNr] == islands[done];
    var island := PruneIsland(kept[islandNr]);
    kept2 := kept[islandNr := island];
    ReplaceAt(kept, islandNr, island);
    EraseStep(kept2, islandNr, pruned, done, HasRegion);
    islandNr2 := islandNr;
    if |kept2[islandNr].regions| < 1 {
      kept2 := kept2[..islandNr] + kept2[islandNr + 1..];
    } else {
      islandNr2 := islandNr + 1;
    }
  }

  /** The island loop of the pruning pass. */
  method EraseEmptyIslands(islands: seq<SliceLayerIsland>) returns (kept: seq<SliceLayerIsland>)
    ensures kept == PruneIslands(islands)
  {
    kept := islands;
    var islandNr := 0;
    ghost var done := 0;
    while islandNr < |kept|
      invariant IslandLoopState(islands, kept, islandNr, done)
      decreases |kept| - islandNr
    {
      kept, islandNr := IslandStep(kept, islandNr, islands, done);
      done := done + 1;
    }
    assert PrunedRegionsOf(islands)[..done] == PrunedRegionsOf(islands);
  }

  /** `generateInsets(SliceLayer*, offset, insetCount)`: generate the insets
      of every region, then prune. Every surviving island has a region and
      every surviving region has an inset. */
  method GenerateLayerInsets(k: Kernel, layer: SliceLayer, offset: int, insetCount: int) returns (r: SliceLayer)
    ensures r == layer.(islands := PruneIslands(GenerateAll(k, layer.islands, offset, insetCount)))
    ensures forall i :: 0 <= i < |r.islands| ==> |r.islands[i].regions| >= 1
    ensures forall i, j :: 0 <= i < |r.islands| && 0 <= j < |r.islands[i].regions| ==>
              |r.islands[i].regions[j].insets| >= 1
  {
    var islands := GenerateAll(k, layer.islands, offset, insetCount);
    islands := EraseEmptyIslands(islands);
    r := layer.(islands := islands);
    PrunedIslandsNonEmpty(GenerateAll(k, layer.islands, offset, insetCount));
  }

  /** After pruning, every island has a region and every region an inset. */
  lemma PrunedIslandsNonEmpty(islands: seq<SliceLayerIsland>)
    ensures var r := PruneIslands(islands);
            && (forall i :: 0 <= i < |r| ==> |r[i].regions| >= 1)
            && (forall i, j :: 0 <= i < |r| && 0 <= j < |r[i].regions| ==> |r[i].regions[j].insets| >= 1)
  {
    var pruned := PrunedRegionsOf(islands);
    var r := PruneIslands(islands);
    forall i, j | 0 <= i < |r| && 0 <= j < |r[i].regions|
      ensures |r[i].regions[j].insets| >= 1
    {
      assert r[i] in pruned;
      var m :| 0 <= m < |pruned| && pruned[m] == r[i];
      assert HasInset(r[i].regions[j]);
    }
  }

  /** An island survives exactly when one of its regions has an inset, and
      a region of an island survives exactly when it has an inset. */
  lemma PruneIslandsMembership(islands: seq<SliceLayerIsland>, i: nat)
    requires i < |islands|
    ensures PruneRegions(islands[i]) in PruneIslands(islands) <==>
            exists j :: 0 <= j < |islands[i].regions| && HasInset(islands[i].regions[j])
    ensures forall j :: 0 <= j < |islands[i].regions| ==>
              (islands[i].regions[j] in PruneRegions(islands[i]).regions <==> HasInset(islands[i].regions[j]))
  {
    var pruned := PrunedRegionsOf(islands);
    assert pruned[i] == PruneRegions(islands[i]);
    FilterNonEmpty(islands[i].regions, HasInset);
  }

  /** Pruning keeps survivors in their original relative order: pruning two
      runs of islands one after the other is pruning them together. */
  lemma PruneKeepsOrder(front: seq<SliceLayerIsland>, back: seq<SliceLayerIsland>)
    ensures PruneIslands(front + back) == PruneIslands(front) + PruneIslands(back)
  {
    var f := PrunedRegionsOf(front);
    var b := PrunedRegionsOf(back);
    assert PrunedRegionsOf(front + back) == f + b;
    FilterConcat(f, b, HasRegion);
  }
}
