// The packed wire structures of make_cdn_cia/cia.h. Under `#pragma pack(1)`
// a structure is its fields back to back, so each one is described by its
// list of fields and widths; sizes and offsets are computed from the list.

module Layout {
  import opened Endian

  datatype Field = Field(name: string, width: nat)

  /** Bytes a packed structure with these fields occupies. */
  function Size(fs: seq<Field>): (r: nat)
  {
    if fs == [] then 0 else fs[0].width + Size(fs[1..])
  }

  predicate Declares(fs: seq<Field>, name: string)
  {
    exists k :: 0 <= k < |fs| && fs[k].name == name
  }

  /** Byte offset of the first field called `name`. */
  function Offset(fs: seq<Field>, name: string): (r: nat)
    requires Declares(fs, name)
  {
    if fs[0].name == name then 0
    else
      assert Declares(fs[1..], name) by {
        var k :| 0 <= k < |fs| && fs[k].name == name;
        assert fs[1..][k - 1].name == name;
      }
      fs[0].width + Offset(fs[1..], name)
  }

  function WidthOf(fs: seq<Field>, name: string): (r: nat)
    requires Declares(fs, name)
  {
    if fs[0].name == name then fs[0].width
    else
      assert Declares(fs[1..], name) by {
        var k :| 0 <= k < |fs| && fs[k].name == name;
        assert fs[1..][k - 1].name == name;
      }
      WidthOf(fs[1..], name)
  }

  lemma {:induction false} SizeConcat(a: seq<Field>, b: seq<Field>)
    ensures Size(a + b) == Size(a) + Size(b)
  {
    if a == [] {
      assert a + b == b;
    } else {
      assert (a + b)[1..] == a[1..] + b;
      SizeConcat(a[1..], b);
    }
  }

  /** A field found only after the run `a` sits `Size(a)` further on in `a + b`. */
  lemma {:induction false} OffsetConcat(a: seq<Field>, b: seq<Field>, name: string)
    requires !Declares(a, name) && Declares(b, name)
    ensures Declares(a + b, name)
    ensures Offset(a + b, name) == Size(a) + Offset(b, name)
    ensures WidthOf(a + b, name) == WidthOf(b, name)
  {
    var k :| 0 <= k < |b| && b[k].name == name;
    assert (a + b)[|a| + k].name == name;
    if a == [] {
      assert a + b == b;
    } else {
      assert (a + b)[1..] == a[1..] + b;
      OffsetConcat(a[1..], b, name);
    }
  }

  lemma NotDeclaredInConcat(a: seq<Field>, b: seq<Field>, name: string)
    requires !Declares(a, name) && !Declares(b, name)
    ensures !Declares(a + b, name)
  {
    forall k | 0 <= k < |a + b|
      ensures (a + b)[k].name != name
    {
      if k < |a| {
        assert (a + b)[k] == a[k];
      } else {
        assert (a + b)[k] == b[k - |a|];
      }
    }
  }

  /** A field of the run `a` keeps its offset in `a + b`. */
  lemma {:induction false} OffsetPrefix(a: seq<Field>, b: seq<Field>, name: string)
    requires Declares(a, name)
    ensures Declares(a + b, name)
    ensures Offset(a + b, name) == Offset(a, name) && WidthOf(a + b, name) == WidthOf(a, name)
  {
    var k :| 0 <= k < |a| && a[k].name == name;
    assert (a + b)[k].name == name;
    if a[0].name != name {
      assert (a + b)[1..] == a[1..] + b;
      assert a[1..][k - 1].name == name;
      OffsetPrefix(a[1..], b, name);
    }
  }

  /** A field lies wholly inside its structure: nothing overlaps the end. */
  lemma {:induction false} FieldInside(fs: seq<Field>, name: string)
    requires Declares(fs, name)
    ensures Offset(fs, name) + WidthOf(fs, name) <= Size(fs)
  {
    if fs[0].name != name {
      var k :| 0 <= k < |fs| && fs[k].name == name;
      assert fs[1..][k - 1].name == name;
      FieldInside(fs[1..], name);
    }
  }

  /** The bytes of field `name` in a structure read from `b`. */
  function FieldBytes(fs: seq<Field>, b: seq<u8>, name: string): (r: seq<u8>)
    requires Declares(fs, name) && |b| == Size(fs)
    ensures |r| == WidthOf(fs, name)
  {
    FieldInside(fs, name);
    b[Offset(fs, name)..Offset(fs, name) + WidthOf(fs, name)]
  }

  // The signature types (the SIGTYPE_* enumeration).

  datatype SigType =
    | Rsa4096Sha1 | Rsa2048Sha1 | EcdsaSha1
    | Rsa4096Sha256 | Rsa2048Sha256 | EcdsaSha256

  /** The numeric tag of each signature type, in declaration order from 0x10000. */
  function Tag(t: SigType): (r: u32)
  {
    match t
    case Rsa4096Sha1 => 0x10000
    case Rsa2048Sha1 => 0x10001
    case EcdsaSha1 => 0x10002
    case Rsa4096Sha256 => 0x10003
    case Rsa2048Sha256 => 0x10004
    case EcdsaSha256 => 0x10005
  }

  /** The signature type a tag names, if any. */
  function SigTypeOf(tag: nat): (t: Option<SigType>)
    ensures t.Some? ==> Tag(t.value) == tag
  {
    if tag == 0x10000 then Some(Rsa4096Sha1)
    else if tag == 0x10001 then Some(Rsa2048Sha1)
    else if tag == 0x10002 then Some(EcdsaSha1)
    else if tag == 0x10003 then Some(Rsa4096Sha256)
    else if tag == 0x10004 then Some(Rsa2048Sha256)
    else if tag == 0x10005 then Some(EcdsaSha256)
    else None
  }

  /** Every signature type is recognised from its own tag, and the tags are 0x10000..0x10005. */
  lemma TagsRoundTrip(t: SigType)
    ensures SigTypeOf(Tag(t)) == Some(t)
    ensures 0x10000 <= Tag(t) <= 0x10005
  {
  }

  datatype Option<T> = None | Some(value: T)

  // Field lists. An array field `uint8_t x[n]` is one field of width n.
  // The longer structures are written as runs of at most eight fields.

  function TikHdrFields(): (r: seq<Field>)
  {
    TikHdrHead() + TikHdrMiddle() + TikHdrTail()
  }

  function TikHdrHead(): (r: seq<Field>)
  {
    [ Field("issuer", 64), Field("ecdh", 60), Field("ver", 1), Field("caCrlVer", 1),
      Field("signerCrlVer", 1), Field("titleKey", 16), Field("pad1", 1), Field("id", 8) ]
  }

  function TikHdrMiddle(): (r: seq<Field>)
  {
    [ Field("devID", 4), Field("titleID", 8), Field("pad2", 2), Field("tikVer", 2),
      Field("pad3", 8), Field("licence", 1), Field("keyID", 1), Field("pad4", 42) ]
  }

  function TikHdrTail(): (r: seq<Field>)
  {
    [ Field("accountId", 4), Field("pad5", 1), Field("audit", 1), Field("pad6", 66),
      Field("limits", 64), Field("contentIndex", 172) ]
  }

  function TmdContentFields(): (r: seq<Field>)
  {
    [ Field("id", 4), Field("index", 2), Field("type", 2), Field("size", 8), Field("sha256", 32) ]
  }

  function TmdContentInfoFields(): (r: seq<Field>)
  {
    [ Field("indexOffset", 2), Field("commandCnt", 2), Field("sha256", 32) ]
  }

  function TmdHdrFields(): (r: seq<Field>)
  {
    TmdHdrHead() + TmdHdrMiddle() + TmdHdrTail()
  }

  function TmdHdrHead(): (r: seq<Field>)
  {
    [ Field("issuer", 64), Field("ver", 1), Field("caCrlVer", 1), Field("signerCrlVer", 1),
      Field("pad0", 1), Field("sysVer", 8), Field("titleID", 8), Field("titleType", 4) ]
  }

  function TmdHdrMiddle(): (r: seq<Field>)
  {
    [ Field("groupID", 2), Field("saveSize", 4), Field("privSaveSize", 4), Field("pad1", 4),
      Field("twlFlag", 1), Field("pad2", 49), Field("access", 4), Field("titleVersion", 2) ]
  }

  function TmdHdrTail(): (r: seq<Field>)
  {
    [ Field("contentCnt", 2), Field("bootContent", 2), Field("pad3", 2),
      Field("infoRecordSHA256", 32), Field("contentInfo", 64 * Size(TmdContentInfoFields())) ]
  }

  function CiaHdrFields(): (r: seq<Field>)
  {
    CiaHdrSizes() + CiaHdrTail()
  }

  function CiaHdrSizes(): (r: seq<Field>)
  {
    [ Field("hdrSize", 4), Field("type", 2), Field("ver", 2), Field("certSize", 4),
      Field("tikSize", 4), Field("tmdSize", 4), Field("metaSize", 4) ]
  }

  /** The content size and the content index bitmap after the seven sizes. */
  function CiaHdrTail(): (r: seq<Field>)
  {
    [Field("contentSize", 8), Field("contentIndex", 8192)]
  }

  const TIK_HDR_SIZE: nat := 528
  const TMD_CONTENT_SIZE: nat := 48
  const TMD_HDR_SIZE: nat := 2500
  const CIA_HDR_SIZE: nat := 8224
  /** Where the fields the program reads sit in their headers. */
  const TIK_TITLE_ID_OFFSET: nat := 156
  const TMD_TITLE_ID_OFFSET: nat := 76
  const TMD_CONTENT_CNT_OFFSET: nat := 158
  /** One bit for every 16-bit content index. */
  const CONTENT_INDEX_SIZE: nat := 8192

  lemma TikHdrRunSizes()
    ensures Size(TikHdrHead()) == 152 && Size(TikHdrMiddle()) == 68
  {
  }

  lemma TikHdrTailSize()
    ensures Size(TikHdrTail()) == 308
  {
  }

  lemma TikHdrSize()
    ensures Size(TikHdrFields()) == TIK_HDR_SIZE
  {
    TikHdrRunSizes();
    TikHdrTailSize();
    SizeConcat(TikHdrHead() + TikHdrMiddle(), TikHdrTail());
    SizeConcat(TikHdrHead(), TikHdrMiddle());
  }

  lemma TmdHdrSize()
    ensures Size(TmdContentInfoFields()) == 36
    ensures Size(TmdHdrFields()) == TMD_HDR_SIZE
  {
    SizeConcat(TmdHdrHead() + TmdHdrMiddle(), TmdHdrTail());
    SizeConcat(TmdHdrHead(), TmdHdrMiddle());
  }

  lemma TmdContentSize()
    ensures Size(TmdContentFields()) == TMD_CONTENT_SIZE
  {
  }

  lemma CiaHdrSize()
    ensures Size(CiaHdrFields()) == CIA_HDR_SIZE
  {
    CiaHdrSizesSize();
    SizeConcat(CiaHdrSizes(), CiaHdrTail());
  }

  lemma TikHdrOffsets()
    ensures Declares(TikHdrFields(), "titleID")
    ensures Offset(TikHdrFields(), "titleID") == TIK_TITLE_ID_OFFSET && WidthOf(TikHdrFields(), "titleID") == 8
  {
    assert TikHdrMiddle()[1].name == "titleID";
    assert !Declares(TikHdrHead(), "titleID");
    OffsetConcat(TikHdrHead(), TikHdrMiddle(), "titleID");
    OffsetPrefix(TikHdrHead() + TikHdrMiddle(), TikHdrTail(), "titleID");
  }

  lemma TmdHdrTitleIdOffset()
    ensures Declares(TmdHdrFields(), "titleID")
    ensures Offset(TmdHdrFields(), "titleID") == TMD_TITLE_ID_OFFSET && WidthOf(TmdHdrFields(), "titleID") == 8
  {
    assert TmdHdrHead()[6].name == "titleID";
    OffsetPrefix(TmdHdrHead(), TmdHdrMiddle(), "titleID");
    OffsetPrefix(TmdHdrHead() + TmdHdrMiddle(), TmdHdrTail(), "titleID");
  }

  lemma TmdHdrHeadLacksContentCnt()
    ensures !Declares(TmdHdrHead(), "contentCnt")
  {
  }

  lemma TmdHdrMiddleLacksContentCnt()
    ensures !Declares(TmdHdrMiddle(), "contentCnt")
  {
  }

  lemma TmdHdrContentCntOffset()
    ensures Declares(TmdHdrFields(), "contentCnt")
    ensures Offset(TmdHdrFields(), "contentCnt") == TMD_CONTENT_CNT_OFFSET && WidthOf(TmdHdrFields(), "contentCnt") == 2
  {
    assert TmdHdrTail()[0].name == "contentCnt";
    SizeConcat(TmdHdrHead(), TmdHdrMiddle());
    TmdHdrHeadLacksContentCnt();
    TmdHdrMiddleLacksContentCnt();
    NotDeclaredInConcat(TmdHdrHead(), TmdHdrMiddle(), "contentCnt");
    OffsetConcat(TmdHdrHead() + TmdHdrMiddle(), TmdHdrTail(), "contentCnt");
  }

  lemma TmdContentOffsets()
    ensures Declares(TmdContentFields(), "id") && Declares(TmdContentFields(), "index")
    ensures Declares(TmdContentFields(), "type") && Declares(TmdContentFields(), "size")
    ensures Declares(TmdContentFields(), "sha256")
    ensures Offset(TmdContentFields(), "id") == 0 && Offset(TmdContentFields(), "index") == 4
    ensures Offset(TmdContentFields(), "type") == 6 && Offset(TmdContentFields(), "size") == 8
    ensures Offset(TmdContentFields(), "sha256") == 16
  {
    var fs := TmdContentFields();
    assert fs[0].name == "id" && fs[1].name == "index" && fs[2].name == "type";
    assert fs[3].name == "size" && fs[4].name == "sha256";
  }

  lemma CiaHdrSizesOffsets()
    ensures Declares(CiaHdrSizes(), "hdrSize") && Declares(CiaHdrSizes(), "type")
    ensures Declares(CiaHdrSizes(), "ver") && Declares(CiaHdrSizes(), "certSize")
    ensures Offset(CiaHdrSizes(), "hdrSize") == 0 && WidthOf(CiaHdrSizes(), "hdrSize") == 4
    ensures Offset(CiaHdrSizes(), "type") == 4 && WidthOf(CiaHdrSizes(), "type") == 2
    ensures Offset(CiaHdrSizes(), "ver") == 6 && WidthOf(CiaHdrSizes(), "ver") == 2
    ensures Offset(CiaHdrSizes(), "certSize") == 8 && WidthOf(CiaHdrSizes(), "certSize") == 4
  {
    var fs := CiaHdrSizes();
    assert fs[0].name == "hdrSize" && fs[1].name == "type" && fs[2].name == "ver";
    assert fs[3].name == "certSize";
  }

  lemma CiaHdrSizesTikTmdOffsets()
    ensures Declares(CiaHdrSizes(), "tikSize") && Declares(CiaHdrSizes(), "tmdSize")
    ensures Offset(CiaHdrSizes(), "tikSize") == 12 && WidthOf(CiaHdrSizes(), "tikSize") == 4
    ensures Offset(CiaHdrSizes(), "tmdSize") == 16 && WidthOf(CiaHdrSizes(), "tmdSize") == 4
  {
    var fs := CiaHdrSizes();
    assert fs[4].name == "tikSize" && fs[5].name == "tmdSize";
  }

  lemma CiaHdrSizesMetaOffset()
    ensures Declares(CiaHdrSizes(), "metaSize")
    ensures Offset(CiaHdrSizes(), "metaSize") == 20 && WidthOf(CiaHdrSizes(), "metaSize") == 4
  {
    assert CiaHdrSizes()[6].name == "metaSize";
  }

  /** The seven 16- and 32-bit fields of CIAHdr keep their offsets in the whole header. */
  lemma CiaHdrHeadOffsets()
    ensures Declares(CiaHdrFields(), "hdrSize") && Declares(CiaHdrFields(), "type")
    ensures Declares(CiaHdrFields(), "ver") && Declares(CiaHdrFields(), "certSize")
    ensures Declares(CiaHdrFields(), "tikSize") && Declares(CiaHdrFields(), "tmdSize")
    ensures Declares(CiaHdrFields(), "metaSize")
    ensures Offset(CiaHdrFields(), "hdrSize") == 0 && WidthOf(CiaHdrFields(), "hdrSize") == 4
    ensures Offset(CiaHdrFields(), "type") == 4 && WidthOf(CiaHdrFields(), "type") == 2
    ensures Offset(CiaHdrFields(), "ver") == 6 && WidthOf(CiaHdrFields(), "ver") == 2
    ensures Offset(CiaHdrFields(), "certSize") == 8 && WidthOf(CiaHdrFields(), "certSize") == 4
    ensures Offset(CiaHdrFields(), "tikSize") == 12 && WidthOf(CiaHdrFields(), "tikSize") == 4
    ensures Offset(CiaHdrFields(), "tmdSize") == 16 && WidthOf(CiaHdrFields(), "tmdSize") == 4
    ensures Offset(CiaHdrFields(), "metaSize") == 20 && WidthOf(CiaHdrFields(), "metaSize") == 4
  {
    CiaHdrSizesOffsets();
    CiaHdrSizesTikTmdOffsets();
    CiaHdrSizesMetaOffset();
    var tail := CiaHdrTail();
    OffsetPrefix(CiaHdrSizes(), tail, "hdrSize");
    OffsetPrefix(CiaHdrSizes(), tail, "type");
    OffsetPrefix(CiaHdrSizes(), tail, "ver");
    OffsetPrefix(CiaHdrSizes(), tail, "certSize");
    OffsetPrefix(CiaHdrSizes(), tail, "tikSize");
    OffsetPrefix(CiaHdrSizes(), tail, "tmdSize");
    OffsetPrefix(CiaHdrSizes(), tail, "metaSize");
  }

  lemma CiaHdrSizesLackTail()
    ensures !Declares(CiaHdrSizes(), "contentSize") && !Declares(CiaHdrSizes(), "contentIndex")
  {
  }

  lemma CiaHdrSizesSize()
    ensures Size(CiaHdrSizes()) == 24
  {
  }

  lemma CiaHdrTailFields()
    ensures Declares(CiaHdrTail(), "contentSize") && Declares(CiaHdrTail(), "contentIndex")
    ensures Offset(CiaHdrTail(), "contentSize") == 0 && WidthOf(CiaHdrTail(), "contentSize") == 8
    ensures Offset(CiaHdrTail(), "contentIndex") == 8 && WidthOf(CiaHdrTail(), "contentIndex") == 8192
  {
    assert CiaHdrTail()[0].name == "contentSize" && CiaHdrTail()[1].name == "contentIndex";
  }

  /** The content size and the content index bitmap follow the seven fields. */
  lemma CiaHdrTailOffsets()
    ensures Declares(CiaHdrFields(), "contentSize") && Declares(CiaHdrFields(), "contentIndex")
    ensures Offset(CiaHdrFields(), "contentSize") == 24 && WidthOf(CiaHdrFields(), "contentSize") == 8
    ensures Offset(CiaHdrFields(), "contentIndex") == 32 && WidthOf(CiaHdrFields(), "contentIndex") == 8192
  {
    CiaHdrTailFields();
    CiaHdrSizesSize();
    CiaHdrSizesLackTail();
    OffsetConcat(CiaHdrSizes(), CiaHdrTail(), "contentSize");
    OffsetConcat(CiaHdrSizes(), CiaHdrTail(), "contentIndex");
  }

  // TMDContent: one content descriptor, kept as its wire bytes (all
  // multi-byte fields are big-endian on the wire).

  datatype TmdContent = TmdContent(id: seq<u8>, index: seq<u8>, kind: seq<u8>, size: seq<u8>, sha256: seq<u8>)
  {
    ghost predicate Valid()
    {
      |id| == 4 && |index| == 2 && |kind| == 2 && |size| == 8 && |sha256| == 32
    }

    /** The content id, the number its file is named after. */
    function Id(): (v: nat)
      requires |id| == 4
      ensures v < 0x1_0000_0000
    {
      BeValue(id)
    }

    /** The content index, the bit it sets in the container's bitmap. */
    function Index(): (v: nat)
      requires |index| == 2
      ensures v < 0x1_0000
    {
      BeValue(index)
    }

    /** The byte length of the content. */
    function Length(): (v: nat)
      requires |size| == 8
      ensures v < 0x1_0000_0000_0000_0000
    {
      BeValue(size)
    }
  }

  function DecodeContent(b: seq<u8>): (c: TmdContent)
    requires |b| == TMD_CONTENT_SIZE
    ensures c.Valid()
  {
    TmdContent(b[0..4], b[4..6], b[6..8], b[8..16], b[16..48])
  }

  function EncodeContent(c: TmdContent): (b: seq<u8>)
    requires c.Valid()
    ensures |b| == TMD_CONTENT_SIZE
  {
    c.id + c.index + c.kind + c.size + c.sha256
  }

  lemma ContentRoundTrip(c: TmdContent)
    requires c.Valid()
    ensures DecodeContent(EncodeContent(c)) == c
  {
    var b := EncodeContent(c);
    var head := c.id + c.index + c.kind + c.size;
    assert b == head + c.sha256;
    assert b[16..48] == c.sha256 && b[..16] == head;
    assert head[8..16] == c.size && head[..8] == c.id + c.index + c.kind;
    assert b[0..4] == c.id && b[4..6] == c.index && b[6..8] == c.kind;
  }

  lemma ContentBytesRoundTrip(b: seq<u8>)
    requires |b| == TMD_CONTENT_SIZE
    ensures EncodeContent(DecodeContent(b)) == b
  {
    assert b == b[0..4] + b[4..6] + b[6..8] + b[8..16] + b[16..48];
  }

  /** The descriptor decoded at each field's offset holds that field's bytes. */
  lemma DecodeContentAtOffsets(b: seq<u8>)
    requires |b| == TMD_CONTENT_SIZE
    ensures Size(TmdContentFields()) == |b|
    ensures Declares(TmdContentFields(), "id") && Declares(TmdContentFields(), "index")
    ensures Declares(TmdContentFields(), "type") && Declares(TmdContentFields(), "size")
    ensures Declares(TmdContentFields(), "sha256")
    ensures DecodeContent(b).id == FieldBytes(TmdContentFields(), b, "id")
    ensures DecodeContent(b).index == FieldBytes(TmdContentFields(), b, "index")
    ensures DecodeContent(b).kind == FieldBytes(TmdContentFields(), b, "type")
    ensures DecodeContent(b).size == FieldBytes(TmdContentFields(), b, "size")
    ensures DecodeContent(b).sha256 == FieldBytes(TmdContentFields(), b, "sha256")
  {
    TmdContentOffsets();
    var fs := TmdContentFields();
    assert fs[0].name == "id" && fs[1].name == "index" && fs[2].name == "type";
    assert fs[3].name == "size" && fs[4].name == "sha256";
  }

  /** A table of `n` descriptors read back to back from `b`. */
  function DecodeTable(b: seq<u8>, n: nat): (t: seq<TmdContent>)
    requires |b| == TMD_CONTENT_SIZE * n
    ensures |t| == n && forall k :: 0 <= k < n ==> t[k].Valid()
  {
    seq(n, k requires 0 <= k < n => DecodeContent(b[TMD_CONTENT_SIZE * k..TMD_CONTENT_SIZE * k + TMD_CONTENT_SIZE]))
  }
}
