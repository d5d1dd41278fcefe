// cia.c, buildCIAHdr, and the CIAHdr structure of make_cdn_cia/cia.h: the
// 8224-byte header that starts a CIA file. Every number in it is stored
// little-endian. The content index is a bitmap with one bit per possible
// 16-bit content index, the most significant bit of each byte first.

module CiaHeader {
  import opened Endian
  import opened Layout
  import opened Stdio
  import opened ChunkIo
  import opened CiaParse

  const U32_MODULUS: nat := 0x1_0000_0000
  const U64_MODULUS: nat := 0x1_0000_0000_0000_0000

  /** The values of a CIAHdr's fields. */
  datatype Header = Header(hdrSize: u32, ciaType: u16, ver: u16, certSize: u32, tikSize: u32,
                           tmdSize: u32, metaSize: u32, contentSize: u64, contentIndex: seq<u8>)
  {
    predicate WellFormed()
    {
      |contentIndex| == CONTENT_INDEX_SIZE
    }
  }

  /** The header's bytes in the file: each number little-endian, then the bitmap. */
  function Encode(c: Header): (b: seq<u8>)
    requires c.WellFormed()
    ensures |b| == CIA_HDR_SIZE
  {
    LeBytes(c.hdrSize, 4) + LeBytes(c.ciaType, 2) + LeBytes(c.ver, 2) + LeBytes(c.certSize, 4) +
    LeBytes(c.tikSize, 4) + LeBytes(c.tmdSize, 4) + LeBytes(c.metaSize, 4) +
    LeBytes(c.contentSize, 8) + c.contentIndex
  }

  /** The header held in 8224 bytes of a file. */
  function Decode(b: seq<u8>): (c: Header)
    requires |b| == CIA_HDR_SIZE
    ensures c.WellFormed()
  {
    Pow256Values();
    Header(LeValue(b[0..4]), LeValue(b[4..6]), LeValue(b[6..8]), LeValue(b[8..12]),
           LeValue(b[12..16]), LeValue(b[16..20]), LeValue(b[20..24]), LeValue(b[24..32]), b[32..])
  }

  /** Reading back a written header gives every field back. */
  lemma DecodeEncode(c: Header)
    requires c.WellFormed()
    ensures Decode(Encode(c)) == c
  {
    var b := Encode(c);
    assert b[0..4] == LeBytes(c.hdrSize, 4) && b[4..6] == LeBytes(c.ciaType, 2);
    assert b[6..8] == LeBytes(c.ver, 2) && b[8..12] == LeBytes(c.certSize, 4);
    assert b[12..16] == LeBytes(c.tikSize, 4) && b[16..20] == LeBytes(c.tmdSize, 4);
    assert b[20..24] == LeBytes(c.metaSize, 4) && b[24..32] == LeBytes(c.contentSize, 8);
    assert b[32..] == c.contentIndex;
    Pow256Values();
    LeValueOfLeBytes(c.hdrSize, 4);
    LeValueOfLeBytes(c.ciaType, 2);
    LeValueOfLeBytes(c.ver, 2);
    LeValueOfLeBytes(c.certSize, 4);
    LeValueOfLeBytes(c.tikSize, 4);
    LeValueOfLeBytes(c.tmdSize, 4);
    LeValueOfLeBytes(c.metaSize, 4);
    LeValueOfLeBytes(c.contentSize, 8);
  }

  /** Every 8224 bytes are the encoding of the header they hold. */
  lemma EncodeDecode(b: seq<u8>)
    requires |b| == CIA_HDR_SIZE
    ensures Encode(Decode(b)) == b
  {
    LeBytesOfLeValue(b[0..4]);
    LeBytesOfLeValue(b[4..6]);
    LeBytesOfLeValue(b[6..8]);
    LeBytesOfLeValue(b[8..12]);
    LeBytesOfLeValue(b[12..16]);
    LeBytesOfLeValue(b[16..20]);
    LeBytesOfLeValue(b[20..24]);
    LeBytesOfLeValue(b[24..32]);
    assert b == b[0..4] + b[4..6] + b[6..8] + b[8..12] + b[12..16] + b[16..20] + b[20..24] + b[24..32] + b[32..];
  }

  /** `Decode` reads the seven 16- and 32-bit fields where the packed CIAHdr structure has them. */
  lemma DecodeReadsSizes(b: seq<u8>)
    requires |b| == CIA_HDR_SIZE
    ensures Size(CiaHdrFields()) == CIA_HDR_SIZE
    ensures Declares(CiaHdrFields(), "hdrSize") && Declares(CiaHdrFields(), "type")
    ensures Declares(CiaHdrFields(), "ver") && Declares(CiaHdrFields(), "certSize")
    ensures Declares(CiaHdrFields(), "tikSize") && Declares(CiaHdrFields(), "tmdSize")
    ensures Declares(CiaHdrFields(), "metaSize")
    ensures var c := Decode(b);
      c.hdrSize == LeValue(FieldBytes(CiaHdrFields(), b, "hdrSize")) &&
      c.ciaType == LeValue(FieldBytes(CiaHdrFields(), b, "type")) &&
      c.ver == LeValue(FieldBytes(CiaHdrFields(), b, "ver")) &&
      c.certSize == LeValue(FieldBytes(CiaHdrFields(), b, "certSize")) &&
      c.tikSize == LeValue(FieldBytes(CiaHdrFields(), b, "tikSize")) &&
      c.tmdSize == LeValue(FieldBytes(CiaHdrFields(), b, "tmdSize")) &&
      c.metaSize == LeValue(FieldBytes(CiaHdrFields(), b, "metaSize"))
  {
    CiaHdrSize();
    CiaHdrHeadOffsets();
    var fs := CiaHdrFields();
    assert FieldBytes(fs, b, "hdrSize") == b[0..4] && FieldBytes(fs, b, "type") == b[4..6];
    assert FieldBytes(fs, b, "ver") == b[6..8] && FieldBytes(fs, b, "certSize") == b[8..12];
    assert FieldBytes(fs, b, "tikSize") == b[12..16] && FieldBytes(fs, b, "tmdSize") == b[16..20];
    assert FieldBytes(fs, b, "metaSize") == b[20..24];
  }

  /** `Decode` reads the content size and the bitmap where the packed CIAHdr structure has them. */
  lemma DecodeReadsContentFields(b: seq<u8>)
    requires |b| == CIA_HDR_SIZE
    ensures Size(CiaHdrFields()) == CIA_HDR_SIZE
    ensures Declares(CiaHdrFields(), "contentSize") && Declares(CiaHdrFields(), "contentIndex")
    ensures var c := Decode(b);
      c.contentSize == LeValue(FieldBytes(CiaHdrFields(), b, "contentSize")) &&
      c.contentIndex == FieldBytes(CiaHdrFields(), b, "contentIndex")
  {
    CiaHdrSize();
    CiaHdrTailOffsets();
  }

  // The content index bitmap.

  /** `0x80 >> bit`: the bit for `bit` within its byte, most significant first. */
  function Mask(bit: nat): (r: bv8)
    requires bit < 8
  {
    0x80 >> bit
  }

  /** `b | (0x80 >> bit)` */
  function SetBit(b: u8, bit: nat): (r: u8)
    requires bit < 8
  {
    ((b as bv8) | Mask(bit)) as u8
  }

  predicate HasBit(b: u8, bit: nat)
    requires bit < 8
  {
    (b as bv8) & Mask(bit) != 0
  }

  lemma MaskUnion(x: bv8, bit: nat, other: nat)
    requires bit < 8 && other < 8
    ensures (x | Mask(bit)) & Mask(other) != 0 <==> other == bit || x & Mask(other) != 0
  {
  }

  lemma ByteRoundTrip(x: bv8)
    ensures (x as u8) as bv8 == x
  {
  }

  /** Setting a bit turns it on and leaves the other seven as they were. */
  lemma SetBitSpec(b: u8, bit: nat, other: nat)
    requires bit < 8 && other < 8
    ensures HasBit(SetBit(b, bit), other) <==> other == bit || HasBit(b, other)
  {
    ByteRoundTrip((b as bv8) | Mask(bit));
    MaskUnion(b as bv8, bit, other);
  }

  lemma ZeroHasNoBit(bit: nat)
    requires bit < 8
    ensures !HasBit(0, bit)
  {
  }

  /** The bitmap with the bit for `index` set: byte `index >> 3`, bit `index & 7`. */
  function Mark(bm: seq<u8>, index: nat): (r: seq<u8>)
    requires |bm| == CONTENT_INDEX_SIZE && index < 0x1_0000
    ensures |r| == CONTENT_INDEX_SIZE
  {
    bm[index / 8 := SetBit(bm[index / 8], index % 8)]
  }

  /** The bitmap of a TMD's descriptors: all clear, then each one's index marked in turn. */
  function Bitmap(cs: seq<TmdContent>): (bm: seq<u8>)
    requires forall k :: 0 <= k < |cs| ==> cs[k].Valid()
    ensures |bm| == CONTENT_INDEX_SIZE
  {
    if cs == [] then Zeros(CONTENT_INDEX_SIZE)
    else
      assert cs[|cs| - 1].Valid();
      Mark(Bitmap(cs[..|cs| - 1]), cs[|cs| - 1].Index())
  }

  /** A content index's bit is set exactly when some descriptor carries that index. */
  lemma {:induction false} BitmapHolds(cs: seq<TmdContent>, index: nat)
    requires forall k :: 0 <= k < |cs| ==> cs[k].Valid()
    requires index < 0x1_0000
    ensures HasBit(Bitmap(cs)[index / 8], index % 8) <==> exists k :: 0 <= k < |cs| && cs[k].Index() == index
  {
    if cs == [] {
      ZeroHasNoBit(index % 8);
    } else {
      var init := cs[..|cs| - 1];
      var last := cs[|cs| - 1].Index();
      BitmapHolds(init, index);
      var prev := Bitmap(init);
      if index / 8 == last / 8 {
        SetBitSpec(prev[index / 8], last % 8, index % 8);
        assert index % 8 == last % 8 <==> index == last;
      } else {
        assert index != last;
      }
      if exists k :: 0 <= k < |init| && init[k].Index() == index {
        var k :| 0 <= k < |init| && init[k].Index() == index;
        assert cs[k].Index() == index;
      }
      if exists k :: 0 <= k < |cs| && cs[k].Index() == index {
        var k :| 0 <= k < |cs| && cs[k].Index() == index;
        if k < |init| {
          assert init[k].Index() == index;
        }
      }
    }
  }

  // The content size.

  /** The total length of the contents, without any limit. */
  function TotalLength(cs: seq<TmdContent>): (r: nat)
    requires forall k :: 0 <= k < |cs| ==> cs[k].Valid()
  {
    if cs == [] then 0
    else
      assert cs[|cs| - 1].Valid();
      TotalLength(cs[..|cs| - 1]) + cs[|cs| - 1].Length()
  }

  /** Adding modulo `m` step by step is adding and then taking the remainder. */
  lemma ModAdd(a: nat, b: nat, m: nat)
    requires m > 0
    ensures (a % m + b) % m == (a + b) % m
  {
    var q, r := a / m, a % m;
    var qx, rx := (r + b) / m, (r + b) % m;
    assert a + b == (q + qx) * m + rx by {
      assert (q + qx) * m == q * m + qx * m;
    }
    DivModUnique(a + b, m, q + qx, rx);
  }

  lemma ModOfSmall(x: nat, m: nat)
    requires x < m
    ensures x % m == x
  {
  }

  /** A descriptor's length, or 0 for one whose size field is not 8 bytes:
      `TotalLength` without its precondition, so that rearranging a run can
      be reasoned about without carrying the descriptors' validity along. */
  function LengthOrZero(c: TmdContent): (r: nat)
  {
    if |c.size| == 8 then c.Length() else 0
  }

  /** The sum of `LengthOrZero` over a run. */
  function SumOfLengths(cs: seq<TmdContent>): (r: nat)
  {
    if cs == [] then 0 else SumOfLengths(cs[..|cs| - 1]) + LengthOrZero(cs[|cs| - 1])
  }

  /** On valid descriptors the unrestricted sum is the total length. */
  lemma {:induction false} SumOfLengthsIsTotalLength(cs: seq<TmdContent>)
    requires forall k :: 0 <= k < |cs| ==> cs[k].Valid()
    ensures SumOfLengths(cs) == TotalLength(cs)
  {
    if cs != [] {
      SumOfLengthsIsTotalLength(cs[..|cs| - 1]);
    }
  }

  /** The sum over two runs back to back is the sum of their sums. */
  lemma {:induction false} SumOfLengthsConcat(a: seq<TmdContent>, b: seq<TmdContent>)
    ensures SumOfLengths(a + b) == SumOfLengths(a) + SumOfLengths(b)
    decreases |b|
  {
    if b == [] {
      assert a + b == a;
    } else {
      SumOfLengthsConcat(a, b[..|b| - 1]);
      assert (a + b)[..|a + b| - 1] == a + b[..|b| - 1];
    }
  }

  /** A run is what comes before element `j`, element `j`, and what comes after. */
  lemma SplitAt(s: seq<TmdContent>, j: nat)
    requires j < |s|
    ensures s == s[..j] + [s[j]] + s[j + 1..]
    ensures multiset(s[..j] + s[j + 1..]) == multiset(s) - multiset{s[j]}
  {
    assert s == s[..j] + [s[j]] + s[j + 1..];
  }

  /** A descriptor in the middle of a run adds its length to the sum. */
  lemma SumOfLengthsMiddle(before: seq<TmdContent>, x: TmdContent, after: seq<TmdContent>)
    ensures SumOfLengths(before + [x] + after) == SumOfLengths(before + after) + LengthOrZero(x)
  {
    SumOfLengthsConcat(before, after);
    SumOfLengthsConcat(before, [x]);
    SumOfLengthsConcat(before + [x], after);
    assert [x][..0] == [];
  }

  /** The last descriptor of `cs` sits at some `j` in its rearrangement `ps`;
      the rest of `cs` is a rearrangement of `ps` without it. */
  lemma MatchLast(cs: seq<TmdContent>, ps: seq<TmdContent>) returns (j: nat)
    requires cs != [] && multiset(cs) == multiset(ps)
    ensures j < |ps| && ps[j] == cs[|cs| - 1]
    ensures multiset(cs[..|cs| - 1]) == multiset(ps[..j] + ps[j + 1..])
  {
    var n := |cs| - 1;
    assert cs[n] in multiset(ps);
    j :| 0 <= j < |ps| && ps[j] == cs[n];
    SplitAt(ps, j);
    assert cs == cs[..n] + [cs[n]];
  }

  /** Rearranging a run does not change its sum. */
  lemma {:induction false} SumOfLengthsPermutation(cs: seq<TmdContent>, ps: seq<TmdContent>)
    requires multiset(cs) == multiset(ps)
    ensures SumOfLengths(cs) == SumOfLengths(ps)
    decreases |cs|
  {
    if cs == [] {
      assert |ps| == |multiset(ps)| == 0;
    } else {
      var j := MatchLast(cs, ps);
      SplitAt(ps, j);
      SumOfLengthsMiddle(ps[..j], ps[j], ps[j + 1..]);
      SumOfLengthsPermutation(cs[..|cs| - 1], ps[..j] + ps[j + 1..]);
    }
  }

  /** The content size does not depend on the order the TMD lists its
      descriptors in: any rearrangement has the same total length. */
  lemma TotalLengthPermutation(cs: seq<TmdContent>, ps: seq<TmdContent>)
    requires forall k :: 0 <= k < |cs| ==> cs[k].Valid()
    requires forall k :: 0 <= k < |ps| ==> ps[k].Valid()
    requires multiset(cs) == multiset(ps)
    ensures TotalLength(cs) == TotalLength(ps)
  {
    SumOfLengthsIsTotalLength(cs);
    SumOfLengthsIsTotalLength(ps);
    SumOfLengthsPermutation(cs, ps);
  }

  /** The header `buildCIAHdr` builds from the chunk sizes of the ticket and the
      TMD and the TMD's descriptors. The sizes are `size_t` sums stored in
      32-bit fields, and the content size a 64-bit sum, so each is kept
      modulo its field's range. */
  function HeaderFor(caCert: nat, xsCert: nat, cpCert: nat, tik: nat, tmd: nat,
                     cs: seq<TmdContent>): (c: Header)
    requires forall k :: 0 <= k < |cs| ==> cs[k].Valid()
    ensures c.WellFormed()
  {
    Header(CIA_HDR_SIZE, 0, 0, (caCert + xsCert + cpCert) % U32_MODULUS, tik % U32_MODULUS,
           tmd % U32_MODULUS, 0, TotalLength(cs) % U64_MODULUS, Bitmap(cs))
  }

  /** What the built header says: its own size, no meta section, and the
      three certificates' total and the ticket and TMD sizes when they fit
      their 32-bit fields. */
  lemma HeaderForSizes(caCert: nat, xsCert: nat, cpCert: nat, tik: nat, tmd: nat, cs: seq<TmdContent>)
    requires forall k :: 0 <= k < |cs| ==> cs[k].Valid()
    requires caCert + xsCert + cpCert < U32_MODULUS && tik < U32_MODULUS && tmd < U32_MODULUS
    ensures var c := HeaderFor(caCert, xsCert, cpCert, tik, tmd, cs);
      c.hdrSize == CIA_HDR_SIZE && c.ciaType == 0 && c.ver == 0 && c.metaSize == 0 &&
      c.certSize == caCert + xsCert + cpCert && c.tikSize == tik && c.tmdSize == tmd
  {
    ModOfSmall(caCert + xsCert + cpCert, U32_MODULUS);
    ModOfSmall(tik, U32_MODULUS);
    ModOfSmall(tmd, U32_MODULUS);
  }

  /** The built header's content size is the contents' total length when it
      fits in 64 bits, and its bitmap marks the indices in use. */
  lemma HeaderForContents(caCert: nat, xsCert: nat, cpCert: nat, tik: nat, tmd: nat,
                          cs: seq<TmdContent>, index: nat)
    requires forall k :: 0 <= k < |cs| ==> cs[k].Valid()
    requires TotalLength(cs) < U64_MODULUS && index < 0x1_0000
    ensures var c := HeaderFor(caCert, xsCert, cpCert, tik, tmd, cs);
      c.contentSize == TotalLength(cs) &&
      (HasBit(c.contentIndex[index / 8], index % 8) <==> exists k :: 0 <= k < |cs| && cs[k].Index() == index)
  {
    ModOfSmall(TotalLength(cs), U64_MODULUS);
    BitmapHolds(cs, index);
  }

  /** Some descriptor of the run carries content index `index`. */
  ghost predicate Carries(cs: seq<TmdContent>, index: nat)
  {
    exists k :: 0 <= k < |cs| && cs[k].Valid() && cs[k].Index() == index
  }

  /** Some descriptor of a run carries `index` exactly when some descriptor
      of a rearrangement of it does. */
  lemma IndexInPermutation(cs: seq<TmdContent>, ps: seq<TmdContent>, index: nat)
    requires forall k :: 0 <= k < |cs| ==> cs[k].Valid()
    requires forall k :: 0 <= k < |ps| ==> ps[k].Valid()
    requires multiset(cs) == multiset(ps)
    ensures Carries(cs, index) <==> Carries(ps, index)
  {
    if exists k :: 0 <= k < |cs| && cs[k].Index() == index {
      var k :| 0 <= k < |cs| && cs[k].Index() == index;
      assert cs[k] in multiset(ps);
    }
    if exists k :: 0 <= k < |ps| && ps[k].Index() == index {
      var k :| 0 <= k < |ps| && ps[k].Index() == index;
      assert ps[k] in multiset(cs);
    }
  }

  /** Listing the same descriptors in another order builds a header with the
      same content size and the same bits set in its content index. */
  lemma HeaderForReordered(caCert: nat, xsCert: nat, cpCert: nat, tik: nat, tmd: nat,
                           cs: seq<TmdContent>, ps: seq<TmdContent>, index: nat)
    requires forall k :: 0 <= k < |cs| ==> cs[k].Valid()
    requires forall k :: 0 <= k < |ps| ==> ps[k].Valid()
    requires multiset(cs) == multiset(ps) && index < 0x1_0000
    ensures var c, d := HeaderFor(caCert, xsCert, cpCert, tik, tmd, cs), HeaderFor(caCert, xsCert, cpCert, tik, tmd, ps);
      c.contentSize == d.contentSize &&
      (HasBit(c.contentIndex[index / 8], index % 8) <==> HasBit(d.contentIndex[index / 8], index % 8))
  {
    TotalLengthPermutation(cs, ps);
    BitmapHolds(cs, index);
    BitmapHolds(ps, index);
    IndexInPermutation(cs, ps, index);
  }

  /** Two concrete marks: index 5 is bit `0x80 >> 5` of byte 0, and index 8
      the top bit of byte 1. */
  lemma BitmapExamples(d5: TmdContent, d8: TmdContent)
    requires d5.Valid() && d5.Index() == 5
    requires d8.Valid() && d8.Index() == 8
    ensures Bitmap([d5])[0] == 0x04 && Bitmap([d5])[1] == 0
    ensures Bitmap([d8])[0] == 0 && Bitmap([d8])[1] == 0x80
  {
    assert [d5][..0] == [] && [d8][..0] == [];
  }

  /** The header as it lies in memory on host `h` after each field went through `htoleNN`. */
  function ToLe(h: Host, c: Header): (r: Header)
    ensures r.contentIndex == c.contentIndex
  {
    Pow256Values();
    Header(HostToLe(h, 4, c.hdrSize), HostToLe(h, 2, c.ciaType), HostToLe(h, 2, c.ver),
           HostToLe(h, 4, c.certSize), HostToLe(h, 4, c.tikSize), HostToLe(h, 4, c.tmdSize),
           HostToLe(h, 4, c.metaSize), HostToLe(h, 8, c.contentSize), c.contentIndex)
  }

  /** The fields of the header for given sizes and descriptors, each through `htoleNN`. */
  lemma ToLeOfHeaderFor(h: Host, caCert: nat, xsCert: nat, cpCert: nat, tik: nat, tmd: nat, cs: seq<TmdContent>)
    requires forall k :: 0 <= k < |cs| ==> cs[k].Valid()
    ensures Pow256(2) == 0x1_0000 && Pow256(4) == 0x1_0000_0000 && Pow256(8) == 0x1_0000_0000_0000_0000
    ensures ToLe(h, HeaderFor(caCert, xsCert, cpCert, tik, tmd, cs)) ==
      Header(HostToLe(h, 4, CIA_HDR_SIZE), HostToLe(h, 2, 0), HostToLe(h, 2, 0),
             HostToLe(h, 4, (caCert + xsCert + cpCert) % U32_MODULUS), HostToLe(h, 4, tik % U32_MODULUS),
             HostToLe(h, 4, tmd % U32_MODULUS), HostToLe(h, 4, 0),
             HostToLe(h, 8, TotalLength(cs) % U64_MODULUS), Bitmap(cs))
  {
    Pow256Values();
  }

  /** The bytes `fwrite(&cia, sizeof cia, 1, fp)` writes: the structure's memory on host `h`. */
  function Memory(h: Host, c: Header): (b: seq<u8>)
  {
    Store(h, c.hdrSize, 4) + Store(h, c.ciaType, 2) + Store(h, c.ver, 2) + Store(h, c.certSize, 4) +
    Store(h, c.tikSize, 4) + Store(h, c.tmdSize, 4) + Store(h, c.metaSize, 4) +
    Store(h, c.contentSize, 8) + c.contentIndex
  }

  /** On either host, the memory of a header whose fields went through
      `htoleNN` is the header's little-endian encoding. */
  lemma MemoryOfToLe(h: Host, c: Header)
    requires c.WellFormed()
    ensures Memory(h, ToLe(h, c)) == Encode(c)
  {
    Pow256Values();
    StoreOfHostToLe(h, 4, c.hdrSize);
    StoreOfHostToLe(h, 2, c.ciaType);
    StoreOfHostToLe(h, 2, c.ver);
    StoreOfHostToLe(h, 4, c.certSize);
    StoreOfHostToLe(h, 4, c.tikSize);
    StoreOfHostToLe(h, 4, c.tmdSize);
    StoreOfHostToLe(h, 4, c.metaSize);
    StoreOfHostToLe(h, 8, c.contentSize);
  }

  /** One more descriptor in the running 64-bit sum. */
  lemma SumStep(cs: seq<TmdContent>, i: nat, sum: nat)
    requires i < |cs| && forall k :: 0 <= k < |cs| ==> cs[k].Valid()
    requires cs[i].Valid() && sum == TotalLength(cs[..i]) % U64_MODULUS
    ensures (sum + cs[i].Length()) % U64_MODULUS == TotalLength(cs[..i + 1]) % U64_MODULUS
  {
    assert cs[..i + 1][..i] == cs[..i];
    ModAdd(TotalLength(cs[..i]), cs[i].Length(), U64_MODULUS);
  }

  /** The first loop of `buildCIAHdr`: the 64-bit sum of the descriptors' sizes. */
  method SumLengths(h: Host, cs: seq<TmdContent>) returns (sum: u64)
    requires forall k :: 0 <= k < |cs| ==> cs[k].Valid()
    ensures sum == TotalLength(cs) % U64_MODULUS
  {
    sum := 0;
    var i: nat := 0;
    while i < |cs|
      invariant i <= |cs|
      invariant sum == TotalLength(cs[..i]) % U64_MODULUS
    {
      assert cs[i].Valid();
      BeToHostOfLoad(h, cs[i].size);
      SumStep(cs, i, sum);
      Pow256Values();
      sum := (sum + BeToHost(h, 8, Load(h, cs[i].size))) % U64_MODULUS;
      i := i + 1;
    }
    assert cs[..i] == cs;
  }

  /** CIAHdr, as a structure in memory. */
  class CiaHdr {
    var hdrSize: u32
    var ciaType: u16
    var ver: u16
    var certSize: u32
    var tikSize: u32
    var tmdSize: u32
    var metaSize: u32
    var contentSize: u64
    const contentIndex: array<u8>

    constructor ()
      ensures fresh(contentIndex) && contentIndex.Length == CONTENT_INDEX_SIZE
    {
      hdrSize, ciaType, ver, certSize, tikSize, tmdSize, metaSize, contentSize := 0, 0, 0, 0, 0, 0, 0, 0;
      contentIndex := new u8[CONTENT_INDEX_SIZE];
    }

    /** The fields' values as they are now. */
    function Fields(): (r: Header)
      reads this, contentIndex
    {
      Header(hdrSize, ciaType, ver, certSize, tikSize, tmdSize, metaSize, contentSize, contentIndex[..])
    }

    /** The `memset` and the second loop of `buildCIAHdr`: the bitmap cleared,
        then one bit set for every descriptor's index. */
    method MarkIndices(h: Host, cs: seq<TmdContent>)
      requires contentIndex.Length == CONTENT_INDEX_SIZE
      requires forall k :: 0 <= k < |cs| ==> cs[k].Valid()
      modifies contentIndex
      ensures contentIndex[..] == Bitmap(cs)
    {
      forall k | 0 <= k < contentIndex.Length {
        contentIndex[k] := 0;
      }
      assert contentIndex[..] == Zeros(CONTENT_INDEX_SIZE);
      var i: nat := 0;
      while i < |cs|
        invariant i <= |cs|
        invariant contentIndex[..] == Bitmap(cs[..i])
      {
        assert cs[..i + 1][..i] == cs[..i];
        assert cs[i].Valid();
        BeToHostOfLoad(h, cs[i].index);
        Pow256Values();
        var index := BeToHost(h, 2, Load(h, cs[i].index));
        ghost var next := Mark(contentIndex[..], index);
        assert cs[..i + 1][i] == cs[i];
        assert next == Bitmap(cs[..i + 1]);
        // `index >> 3` and `index & 7`
        contentIndex[index / 8] := SetBit(contentIndex[index / 8], index % 8);
        assert contentIndex[..] == next;
        i := i + 1;
      }
      assert cs[..i] == cs;
    }

    /** The scalar fields of `buildCIAHdr`, each through `htoleNN`: the
        certificate, ticket and TMD sizes cut to 32 bits, the content size
        already a 64-bit sum, the header size and no meta section. */
    method SetSizes(h: Host, certs: nat, tik: nat, tmd: nat, sum: u64)
      modifies this`hdrSize, this`ciaType, this`ver, this`certSize, this`tikSize, this`tmdSize, this`metaSize, this`contentSize
      ensures hdrSize == HostToLe(h, 4, CIA_HDR_SIZE) && ciaType == HostToLe(h, 2, 0) && ver == HostToLe(h, 2, 0)
      ensures certSize == HostToLe(h, 4, certs % U32_MODULUS) && tikSize == HostToLe(h, 4, tik % U32_MODULUS)
      ensures tmdSize == HostToLe(h, 4, tmd % U32_MODULUS) && metaSize == HostToLe(h, 4, 0)
      ensures contentSize == HostToLe(h, 8, sum)
    {
      Pow256Values();
      hdrSize, ciaType, ver := HostToLe(h, 4, CIA_HDR_SIZE), HostToLe(h, 2, 0), HostToLe(h, 2, 0);
      certSize := HostToLe(h, 4, certs % U32_MODULUS);
      tikSize, tmdSize := HostToLe(h, 4, tik % U32_MODULUS), HostToLe(h, 4, tmd % U32_MODULUS);
      metaSize, contentSize := HostToLe(h, 4, 0), HostToLe(h, 8, sum);
    }

    /** The body of `buildCIAHdr` over the sizes it reads: the bitmap
        marked, the content size summed, and every field set. */
    method Fill(h: Host, ca: nat, xs: nat, cp: nat, tikLen: nat, tmdLen: nat, cs: seq<TmdContent>)
      requires contentIndex.Length == CONTENT_INDEX_SIZE
      requires forall k :: 0 <= k < |cs| ==> cs[k].Valid()
      modifies this, contentIndex
      ensures Fields() == ToLe(h, HeaderFor(ca, xs, cp, tikLen, tmdLen, cs))
    {
      ToLeOfHeaderFor(h, ca, xs, cp, tikLen, tmdLen, cs);
      MarkIndices(h, cs);
      ghost var bits := contentIndex[..];
      var sum := SumLengths(h, cs);
      SetSizes(h, ca + xs + cp, tikLen, tmdLen, sum);
      assert contentIndex[..] == bits;
    }

    /** `buildCIAHdr`: fills in the header for the ticket `tik` and the TMD
        `tmd`, each field converted to little-endian. The content size is
        summed and the bitmap marked over the first `contentCnt` descriptors. */
    method Build(h: Host, tik: TikCtx, tmd: TmdCtx)
      requires contentIndex.Length == CONTENT_INDEX_SIZE
      requires tmd.contentCnt == |tmd.content|
      requires forall k :: 0 <= k < |tmd.content| ==> tmd.content[k].Valid()
      modifies this, contentIndex
      ensures Fields() == ToLe(h, HeaderFor(tik.caCert.size, tik.xsCert.size, tmd.cpCert.size,
                                            tik.headerChunk.size, tmd.headerChunk.size, tmd.content))
    {
      Fill(h, tik.caCert.size as nat, tik.xsCert.size as nat, tmd.cpCert.size as nat,
           tik.headerChunk.size as nat, tmd.headerChunk.size as nat, tmd.content);
    }
  }
}
