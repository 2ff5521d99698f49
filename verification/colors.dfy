/** Colour values, the interning cache that hands out one stable handle per
    distinct colour, and the kernel's tie-break hook for synthesised points.
    Colour components are an abstract key type with decidable equality; the
    cache is the sequence of the triples it holds, and a handle is an index
    into that sequence. Entries are only ever added, so a handle stays valid
    and keeps naming the same triple for the life of the cache. */
module Colors {
  import opened ClipperTypes

  datatype Option<T> = None | Some(value: T)

  /** An RGB triple. */
  datatype Color<K> = Color(r: K, g: K, b: K)

  /** The interning cache. `entries[h]` is the colour behind handle `h`. */
  datatype ColorCache<K> = ColorCache(entries: seq<Color<K>>)
  {
    /** Set semantics: no colour is stored twice. */
    ghost predicate Valid() {
      forall i, j :: 0 <= i < j < |entries| ==> entries[i] != entries[j]
    }
  }

  /** A fresh, empty cache (the static instance before first use). */
  function EmptyCache<K>(): (c: ColorCache<K>)
    ensures c.Valid() && |c.entries| == 0
  {
    ColorCache([])
  }

  /** `cache.find`: the handle of an equal entry, or none (`end()`). */
  function Find<K(==)>(entries: seq<Color<K>>, target: Color<K>): (r: Option<nat>)
    ensures r.Some? ==> r.value < |entries| && entries[r.value] == target
    ensures r.None? <==> target !in entries
  {
    if |entries| == 0 then None
    else if entries[|entries| - 1] == target then Some(|entries| - 1)
    else Find(entries[..|entries| - 1], target)
  }

  /** `cache.insert`: returns the handle of the entry equal to `c` and whether
      it was newly inserted. */
  function Insert<K(==)>(cache: ColorCache<K>, c: Color<K>): (r: (ColorCache<K>, nat, bool))
    requires cache.Valid()
    ensures r.0.Valid()
    ensures r.1 < |r.0.entries| && r.0.entries[r.1] == c
    ensures r.2 <==> c !in cache.entries
    ensures r.2 ==> r.0.entries == cache.entries + [c]
    ensures !r.2 ==> r.0 == cache
  {
    match Find(cache.entries, c)
    case Some(h) => (cache, h, false)
    case None => (ColorCache(cache.entries + [c]), |cache.entries|, true)
  }

  /** `ColorCache::createColor`: insert a colour known to be absent; the
      source asserts that the insert was fresh. */
  function CreateColor<K(==)>(cache: ColorCache<K>, c: Color<K>): (r: (ColorCache<K>, nat))
    requires cache.Valid() && c !in cache.entries
    ensures r.0.Valid()
    ensures |r.0.entries| == |cache.entries| + 1
    ensures r.1 == |cache.entries| && r.0.entries[r.1] == c
    ensures r.0.entries[..|cache.entries|] == cache.entries
  {
    var (next, h, inserted) := Insert(cache, c);
    assert inserted;
    assert next.entries[..|cache.entries|] == cache.entries;
    (next, h)
  }

  /** `ColorCache::getColor`: find-or-insert. The returned handle names the
      requested triple; the cache grows by one entry exactly when the triple
      was not yet present, and existing handles keep their colours. */
  function GetColor<K(==)>(cache: ColorCache<K>, r: K, g: K, b: K): (res: (ColorCache<K>, nat))
    requires cache.Valid()
    ensures res.0.Valid()
    ensures res.1 < |res.0.entries| && res.0.entries[res.1] == Color(r, g, b)
    ensures |cache.entries| <= |res.0.entries| <= |cache.entries| + 1
    ensures res.0.entries[..|cache.entries|] == cache.entries
    ensures Color(r, g, b) in cache.entries ==> res.0 == cache
    ensures Color(r, g, b) !in cache.entries ==> |res.0.entries| == |cache.entries| + 1
  {
    var target := Color(r, g, b);
    match Find(cache.entries, target)
    case Some(h) => (cache, h)
    case None => CreateColor(cache, target)
  }

  /** Asking twice for the same triple gives the same handle and leaves the
      cache as the first call left it. */
  lemma GetColorIdempotent<K>(cache: ColorCache<K>, r: K, g: K, b: K)
    requires cache.Valid()
    ensures var (c1, h1) := GetColor(cache, r, g, b);
            GetColor(c1, r, g, b) == (c1, h1)
  {
    var (c1, h1) := GetColor(cache, r, g, b);
    var (c2, h2) := GetColor(c1, r, g, b);
    assert c2 == c1;
    assert c1.entries[h2] == c1.entries[h1];
  }

  /** Two consecutive lookups give equal handles exactly when the triples are
      equal, and the second lookup leaves the first handle's colour intact. */
  lemma GetColorHandlesInjective<K>(cache: ColorCache<K>, a: Color<K>, b: Color<K>)
    requires cache.Valid()
    ensures var (c1, h1) := GetColor(cache, a.r, a.g, a.b);
            var (c2, h2) := GetColor(c1, b.r, b.g, b.b);
            && h1 < |c2.entries| && c2.entries[h1] == a
            && (h1 == h2 <==> a == b)
  {
    var (c1, h1) := GetColor(cache, a.r, a.g, a.b);
    var (c2, h2) := GetColor(c1, b.r, b.g, b.b);
    assert c2.entries[..|c1.entries|] == c1.entries;
    assert c2.entries[h1] == c1.entries[h1];
  }

  /** The cache's own test: two different triples get different handles, and
      asking again for the second one gives its handle back. */
  lemma CacheTestScenario<K>(a: Color<K>, b: Color<K>)
    requires a != b
    ensures var (c1, h1) := GetColor(EmptyCache(), a.r, a.g, a.b);
            var (c2, h2) := GetColor(c1, b.r, b.g, b.b);
            var (c3, h3) := GetColor(c2, b.r, b.g, b.b);
            h1 != h2 && h3 == h2 && |c3.entries| == 2
  {
    var (c1, h1) := GetColor(EmptyCache(), a.r, a.g, a.b);
    GetColorHandlesInjective(EmptyCache(), a, b);
    GetColorIdempotent(c1, b.r, b.g, b.b);
  }

  /** `flatColorCallback`: the kernel's hook for a point it synthesises where
      two edges meet. The new point takes the Z of the first edge's point;
      the second edge is ignored and the coordinates are kept. */
  function FlatColorCallback(z1: Point, z2: Point, pt: Point): (r: Point)
    ensures r.x == pt.x && r.y == pt.y && r.z == z1.z
  {
    pt.(z := z1.z)
  }

  /** The tie-break does not depend on the second edge at all. */
  lemma FlatColorIgnoresSecondEdge(z1: Point, z2: Point, z2': Point, pt: Point)
    ensures FlatColorCallback(z1, z2, pt) == FlatColorCallback(z1, z2', pt)
  {
  }
}
