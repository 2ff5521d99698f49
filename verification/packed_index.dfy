/** The `int2` record of the colour splitter: a (polygon, point) index pair
    packed into one 64-bit Z value by reinterpreting its bytes. The memory
    layout is `poly` followed by `pt`; on a little-endian target `poly` is the
    low 32 bits of the packed value and `pt` the high 32 bits. */
module PackedIndex {
  import opened ClipperTypes

  datatype Int2 = Int2(poly: Int32, pt: Int32)

  /** Two's-complement bits of an `int` read as unsigned. */
  function Unsigned32(x: Int32): (u: nat)
    ensures u < Two32
    ensures x >= 0 ==> u == x
  {
    if x < 0 then x + Two32 else x
  }

  /** 32 bits read back as a signed `int`. */
  function Signed32(u: nat): (x: Int32)
    requires u < Two32
    ensures Unsigned32(x) == u
  {
    if u < Two31 then u else u - Two32
  }

  function Unsigned64(x: CInt): (u: nat)
    ensures u < Two64
  {
    if x < 0 then x + Two64 else x
  }

  function Signed64(u: nat): (x: CInt)
    requires u < Two64
    ensures Unsigned64(x) == u
  {
    if u < Two63 then u else u - Two64
  }

  /** The implicit conversion of an `unsigned int` loop index to `int`:
      the index is taken modulo 2^32 and its bits read as signed. */
  function IndexToInt(n: nat): (x: Int32)
    ensures n < Two31 ==> x == n
  {
    Signed32(n % Two32)
  }

  /** `toClipperInt`: the bytes of the pair read as one `cInt`. With the
      little-endian layout, `poly` fills the low 32 bits and `pt` the high
      32 bits. */
  function ToClipperInt(v: Int2): (z: CInt)
    ensures Unsigned64(z) % Two32 == Unsigned32(v.poly)
    ensures Unsigned64(z) / Two32 == Unsigned32(v.pt)
  {
    PackFits(Unsigned32(v.pt), Unsigned32(v.poly));
    SplitJoin(Unsigned32(v.pt), Unsigned32(v.poly));
    Signed64(Unsigned32(v.pt) * Two32 + Unsigned32(v.poly))
  }

  /** The `int2(cInt)` constructor: the bytes of a `cInt` read as a pair,
      the low 32 bits as `poly` and the high 32 bits as `pt`. A value that
      fits in 31 bits is polygon number `z`, point 0. */
  function FromClipperInt(z: CInt): (v: Int2)
    ensures Unsigned32(v.poly) == Unsigned64(z) % Two32
    ensures Unsigned32(v.pt) == Unsigned64(z) / Two32
    ensures 0 <= z < Two31 ==> v == Int2(z, 0)
  {
    var u := Unsigned64(z);
    SplitBounds(u);
    Int2(Signed32(u % Two32), Signed32(u / Two32))
  }

  /** The static size check: two 32-bit halves fit in 64 bits. */
  lemma PackFits(hi: nat, lo: nat)
    requires hi < Two32 && lo < Two32
    ensures hi * Two32 + lo < Two64
  {
    assert hi * Two32 <= (Two32 - 1) * Two32;
  }

  lemma SplitBounds(u: nat)
    requires u < Two64
    ensures u / Two32 < Two32
  {
  }

  lemma SplitJoin(hi: nat, lo: nat)
    requires lo < Two32
    ensures (hi * Two32 + lo) / Two32 == hi
    ensures (hi * Two32 + lo) % Two32 == lo
  {
  }

  /** Unpacking a packed pair gives back the pair. */
  lemma DecodeEncode(v: Int2)
    ensures FromClipperInt(ToClipperInt(v)) == v
  {
    var hi, lo := Unsigned32(v.pt), Unsigned32(v.poly);
    PackFits(hi, lo);
    SplitJoin(hi, lo);
    assert Unsigned64(ToClipperInt(v)) == hi * Two32 + lo;
    assert Unsigned32(Signed32(lo)) == lo;
  }

  /** Packing an unpacked value gives back the value: the byte
      reinterpretation is a bijection between pairs and `cInt`s. */
  lemma EncodeDecode(z: CInt)
    ensures ToClipperInt(FromClipperInt(z)) == z
  {
    var u := Unsigned64(z);
    SplitBounds(u);
    var v := FromClipperInt(z);
    assert Unsigned32(v.poly) == u % Two32;
    assert Unsigned32(v.pt) == u / Two32;
    assert (u / Two32) * Two32 + u % Two32 == u;
  }

  /** Distinct index pairs pack to distinct values. */
  lemma PackInjective(v: Int2, w: Int2)
    ensures ToClipperInt(v) == ToClipperInt(w) <==> v == w
  {
    if ToClipperInt(v) == ToClipperInt(w) {
      DecodeEncode(v);
      DecodeEncode(w);
    }
  }
}
