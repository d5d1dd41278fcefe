// cia.c, skipSignature, certSaveAndSkip, processTIK and processTMD: reading
// a ticket (`cetk`) or a title metadata file (`tmd`) from its start, and
// recording where its signed header and its certificates lie.
//
// Either file is: a 4-byte signature tag, the signature, zero padding up to
// a multiple of 64, the fixed header (and for a TMD one 48-byte descriptor
// per content), then two certificates, each a 4-byte tag and a body.

module CiaParse {
  import opened Endian
  import opened Layout
  import opened Stdio
  import opened ChunkIo
  import opened CiaTags

  /** A byte range of a file. */
  datatype Region = Region(offset: nat, size: nat)
  {
    function End(): (r: nat) { offset + size }
  }

  /** Where `skipSignature` leaves a seekable stream positioned at `p`: past
      the tag and the signature, rounded up to a multiple of 64. None when
      the tag cannot be read. An unknown tag counts as a signature of no
      bytes. The end may lie past the end of the file. */
  function SignatureEnd(data: seq<u8>, p: nat): (e: Option<nat>)
    ensures e.Some? <==> p + 4 <= |data|
    ensures e.Some? ==> e.value % 64 == 0 && p + 4 <= e.value < p + 4 + 512 + 64
  {
    if p + 4 <= |data| then Some(AlignUp(p + 4 + WireSigSize(data[p..p + 4]), 64)) else None
  }

  /** The certificate `certSaveAndSkip` records at `p`: its tag and its
      body. None when the tag cannot be read or names no known type. The
      body is skipped, not read, so it may run past the end of the file. */
  function CertAt(data: seq<u8>, p: nat): (r: Option<Region>)
    ensures r.Some? ==> r.value.offset == p && r.value.size in {144, 768, 1024}
    ensures r.Some? ==> p + 4 <= |data| && SigTypeOf(BeValue(data[p..p + 4])).Some?
  {
    if p + 4 > |data| then None
    else
      var n := WireCertSize(data[p..p + 4]);
      if n == 0 then None else Some(Region(p, 4 + n))
  }

  /** What `processTIK` takes from a ticket. */
  datatype Ticket = Ticket(titleId: seq<u8>, header: Region, xsCert: Region, caCert: Region)

  /** The ticket in `data`, read from its start, or None where `processTIK` fails. */
  function ParseTicket(data: seq<u8>): (r: Option<Ticket>)
  {
    var sig := SignatureEnd(data, 0);
    if sig.None? || sig.value + TIK_HDR_SIZE > |data| then None
    else
      var s := sig.value;
      var xs := CertAt(data, s + TIK_HDR_SIZE);
      if xs.None? then None
      else
        var ca := CertAt(data, xs.value.End());
        if ca.None? then None
        else
          Some(Ticket(data[s + TIK_TITLE_ID_OFFSET..s + TIK_TITLE_ID_OFFSET + 8],
                      Region(0, s + TIK_HDR_SIZE), xs.value, ca.value))
  }

  /** What `processTMD` takes from a title metadata file. */
  datatype Tmd = Tmd(titleId: seq<u8>, contentCnt: nat, content: seq<TmdContent>,
                     header: Region, cpCert: Region, caCert: Region)

  /** The fixed TMD header at `s` and the descriptor table after it. */
  datatype TmdBody = TmdBody(titleId: seq<u8>, contentCnt: nat, content: seq<TmdContent>, end: nat)

  /** The header and the table `processTMD` reads at `s`, or None when the
      file ends before either does. The table holds as many descriptors as
      the big-endian count in the header says. */
  function TmdBodyAt(data: seq<u8>, s: nat): (b: Option<TmdBody>)
    ensures b.Some? ==> b.value.end == s + TMD_HDR_SIZE + TMD_CONTENT_SIZE * b.value.contentCnt <= |data|
    ensures b.Some? ==> |b.value.titleId| == 8 && |b.value.content| == b.value.contentCnt < 0x1_0000
  {
    if s + TMD_HDR_SIZE > |data| then None
    else
      var cntBytes := data[s + TMD_CONTENT_CNT_OFFSET..s + TMD_CONTENT_CNT_OFFSET + 2];
      var cnt := BeValue(cntBytes);
      assert Pow256(2) == 0x1_0000;
      var tableEnd := s + TMD_HDR_SIZE + TMD_CONTENT_SIZE * cnt;
      if tableEnd > |data| then None
      else
        Some(TmdBody(data[s + TMD_TITLE_ID_OFFSET..s + TMD_TITLE_ID_OFFSET + 8], cnt,
                     DecodeTable(data[s + TMD_HDR_SIZE..tableEnd], cnt), tableEnd))
  }

  /** The title metadata in `data`, read from its start, or None where `processTMD` fails. */
  function ParseTmd(data: seq<u8>): (r: Option<Tmd>)
  {
    var sig := SignatureEnd(data, 0);
    if sig.None? then None
    else
      var body := TmdBodyAt(data, sig.value);
      if body.None? then None
      else
        var b := body.value;
        var cp := CertAt(data, b.end);
        if cp.None? then None
        else
          var ca := CertAt(data, cp.value.End());
          if ca.None? then None
          else Some(Tmd(b.titleId, b.contentCnt, b.content, Region(0, b.end), cp.value, ca.value))
  }

  /** `c` records the region `r` of `f`. */
  ghost predicate Marks(c: Chunk, f: Stream, r: Region)
    reads c
  {
    c.file == f && c.offset == r.offset && c.size == r.size
  }

  /** The end of a signature whose tag at `p` gives `size` bytes. */
  lemma SignatureEndOfSize(data: seq<u8>, p: nat, size: nat)
    requires p + 4 <= |data| && size == WireSigSize(data[p..p + 4])
    ensures SignatureEnd(data, p) == Some(AlignUp(p + 4 + size, 64))
  {
  }

  /** `skipSignature` */
  method SkipSignature(h: Host, f: Stream) returns (ok: bool)
    modifies f`pos
    ensures ok == (f.seekable && SignatureEnd(f.data, old(f.pos)).Some?)
    ensures ok ==> f.pos == SignatureEnd(f.data, old(f.pos)).value
  {
    ghost var p := f.pos;
    var tag := new u8[4];
    ok := f.Read(tag, 4);
    if !ok {
      return;
    }
    assert tag[..] == tag[..4] == f.data[p..p + 4];
    GetSigSizeOfFileTag(h, tag[..]);
    var size := GetSigSize(h, Load(h, tag[..]));
    SignatureEndOfSize(f.data, p, size);
    ok := f.SeekCur(size);
    if !ok {
      return;
    }
    SixtyFourIsPowerOfTwo();
    ok := AlignFilePointer(f, 64);
  }

  /** `certSaveAndSkip`: records the certificate at `f`'s position in `cert`
      and moves past it. The results of marking the chunk are not checked;
      on a stream that cannot report its position the seek fails anyway. */
  method CertSaveAndSkip(h: Host, f: Stream, cert: Chunk) returns (ok: bool)
    modifies f`pos, cert
    ensures ok == (f.seekable && CertAt(f.data, old(f.pos)).Some?)
    ensures ok ==> f.pos == CertAt(f.data, old(f.pos)).value.End()
    ensures ok ==> Marks(cert, f, CertAt(f.data, old(f.pos)).value)
  {
    ghost var p := f.pos;
    var started := cert.MarkStart(f);
    var tag := new u8[4];
    ok := f.Read(tag, 4);
    if !ok {
      return;
    }
    assert tag[..] == tag[..4] == f.data[p..p + 4];
    GetCertSizeOfFileTag(h, tag[..]);
    var size := GetCertSize(h, Load(h, tag[..]));
    if size == 0 {
      return false;
    }
    ok := f.SeekCur(size);
    if !ok {
      return;
    }
    var ended := cert.MarkEnd(f);
  }

  /** TIKCtx: an open ticket file and what was read from it. */
  class TikCtx {
    const fp: Stream
    /** The title id as it is in the file (big-endian). */
    var titleId: seq<u8>
    var titleVer: u16
    const headerChunk: Chunk
    const xsCert: Chunk
    const caCert: Chunk

    constructor (fp: Stream)
      ensures this.fp == fp && Valid()
      ensures fresh(headerChunk) && fresh(xsCert) && fresh(caCert)
    {
      this.fp := fp;
      titleId, titleVer := [], 0;
      headerChunk := new Chunk();
      xsCert := new Chunk();
      caCert := new Chunk();
    }

    /** The three chunks are separate records. */
    predicate Valid()
    {
      headerChunk != xsCert && headerChunk != caCert && xsCert != caCert
    }

    /** The context records the ticket `t` of its file. */
    ghost predicate Holds(t: Ticket)
      reads this, headerChunk, xsCert, caCert
    {
      titleId == t.titleId && Marks(headerChunk, fp, t.header) &&
      Marks(xsCert, fp, t.xsCert) && Marks(caCert, fp, t.caCert)
    }

    /** `processTIK`. It never sets `titleVer`. */
    method Process(h: Host) returns (ok: bool)
      requires Valid() && |fp.data| < SIZE_T_MODULUS
      modifies this`titleId, fp`pos, headerChunk, xsCert, caCert
      ensures ok == (fp.seekable && ParseTicket(fp.data).Some?)
      ensures ok ==> Holds(ParseTicket(fp.data).value)
      ensures titleVer == old(titleVer)
    {
      ok := fp.SeekSet(0);
      if !ok {
        return;
      }
      var started := headerChunk.MarkStart(fp);
      ok := SkipSignature(h, fp);
      if !ok {
        return;
      }
      ghost var s := fp.pos;
      var hdr := new u8[TIK_HDR_SIZE];
      ok := fp.Read(hdr, TIK_HDR_SIZE);
      if !ok {
        return;
      }
      assert hdr[..] == hdr[..TIK_HDR_SIZE] == fp.data[s..s + TIK_HDR_SIZE];
      titleId := hdr[TIK_TITLE_ID_OFFSET..TIK_TITLE_ID_OFFSET + 8];
      assert titleId == hdr[..][TIK_TITLE_ID_OFFSET..TIK_TITLE_ID_OFFSET + 8];
      SliceOfSlice(fp.data, s, TIK_HDR_SIZE, TIK_TITLE_ID_OFFSET, TIK_TITLE_ID_OFFSET + 8);
      var ended := headerChunk.MarkEnd(fp);
      ok := CertSaveAndSkip(h, fp, xsCert);
      if !ok {
        return;
      }
      ok := CertSaveAndSkip(h, fp, caCert);
    }
  }

  /** TMDCtx: an open title metadata file and what was read from it. */
  class TmdCtx {
    const fp: Stream
    /** The title id as it is in the file (big-endian). */
    var titleId: seq<u8>
    var titleVer: u16
    const headerChunk: Chunk
    const cpCert: Chunk
    const caCert: Chunk
    var contentCnt: u16
    /** The descriptors, each as its 48 bytes in the file. */
    var content: seq<TmdContent>

    constructor (fp: Stream)
      ensures this.fp == fp && Valid()
      ensures fresh(headerChunk) && fresh(cpCert) && fresh(caCert)
    {
      this.fp := fp;
      titleId, titleVer, contentCnt, content := [], 0, 0, [];
      headerChunk := new Chunk();
      cpCert := new Chunk();
      caCert := new Chunk();
    }

    predicate Valid()
    {
      headerChunk != cpCert && headerChunk != caCert && cpCert != caCert
    }

    /** The context records the title metadata `t` of its file. */
    ghost predicate Holds(t: Tmd)
      reads this, headerChunk, cpCert, caCert
    {
      titleId == t.titleId && contentCnt == t.contentCnt && content == t.content &&
      Marks(headerChunk, fp, t.header) && Marks(cpCert, fp, t.cpCert) && Marks(caCert, fp, t.caCert)
    }

    /** The part of `processTMD` that reads the fixed header and the
        descriptor table at the file's position. */
    method ReadBody(h: Host) returns (ok: bool)
      modifies this`titleId, this`contentCnt, this`content, fp`pos
      ensures var b := TmdBodyAt(fp.data, old(fp.pos));
        ok == b.Some? &&
        (ok ==> fp.pos == b.value.end && titleId == b.value.titleId &&
                contentCnt == b.value.contentCnt && content == b.value.content)
    {
      ghost var s := fp.pos;
      var hdr := new u8[TMD_HDR_SIZE];
      ok := fp.Read(hdr, TMD_HDR_SIZE);
      if !ok {
        return;
      }
      var bytes := hdr[..];
      assert bytes == hdr[..TMD_HDR_SIZE] == fp.data[s..s + TMD_HDR_SIZE];
      titleId := bytes[TMD_TITLE_ID_OFFSET..TMD_TITLE_ID_OFFSET + 8];
      SliceOfSlice(fp.data, s, TMD_HDR_SIZE, TMD_TITLE_ID_OFFSET, TMD_TITLE_ID_OFFSET + 8);
      var cntBytes := bytes[TMD_CONTENT_CNT_OFFSET..TMD_CONTENT_CNT_OFFSET + 2];
      SliceOfSlice(fp.data, s, TMD_HDR_SIZE, TMD_CONTENT_CNT_OFFSET, TMD_CONTENT_CNT_OFFSET + 2);
      BeToHostOfLoad(h, cntBytes);
      assert Pow256(2) == 0x1_0000;
      contentCnt := BeToHost(h, 2, Load(h, cntBytes));
      ghost var e := s + TMD_HDR_SIZE + TMD_CONTENT_SIZE * contentCnt;
      ok := ReadTable();
      assert ok ==> TmdBodyAt(fp.data, s) == Some(TmdBody(titleId, contentCnt, content, e));
    }

    /** The `fread` of `contentCnt` descriptors of 48 bytes at the file's
        position, which lies inside the file once the header was read. */
    method ReadTable() returns (ok: bool)
      requires fp.pos <= |fp.data|
      modifies this`content, fp`pos
      ensures var e := old(fp.pos) + TMD_CONTENT_SIZE * contentCnt;
        ok == (e <= |fp.data|) &&
        (ok ==> fp.pos == e && content == DecodeTable(fp.data[old(fp.pos)..e], contentCnt))
    {
      ghost var s := fp.pos;
      var table := new u8[TMD_CONTENT_SIZE * contentCnt];
      // A read of no items reports no shortfall.
      if contentCnt > 0 {
        ok := fp.Read(table, TMD_CONTENT_SIZE * contentCnt);
        if !ok {
          return;
        }
        assert table[..] == table[..TMD_CONTENT_SIZE * contentCnt];
      }
      content := DecodeTable(table[..], contentCnt);
      ok := true;
    }

    /** `processTMD`. It never sets `titleVer`. */
    method Process(h: Host) returns (ok: bool)
      requires Valid() && |fp.data| < SIZE_T_MODULUS
      modifies this`titleId, this`contentCnt, this`content, fp`pos, headerChunk, cpCert, caCert
      ensures ok == (fp.seekable && ParseTmd(fp.data).Some?)
      ensures ok ==> Holds(ParseTmd(fp.data).value)
      ensures titleVer == old(titleVer)
    {
      ok := fp.SeekSet(0);
      if !ok {
        return;
      }
      var started := headerChunk.MarkStart(fp);
      ok := SkipSignature(h, fp);
      if !ok {
        return;
      }
      ok := ReadBody(h);
      if !ok {
        return;
      }
      var ended := headerChunk.MarkEnd(fp);
      ok := CertSaveAndSkip(h, fp, cpCert);
      if !ok {
        return;
      }
      ok := CertSaveAndSkip(h, fp, caCert);
    }
  }

  /** From the start of a file the signature block ends at 0x240 for the
      RSA-4096 types, 0x140 for RSA-2048, and 0x40 for ECDSA and for any
      tag the table does not know, which counts as an empty signature. */
  lemma SignatureEndAtStart(data: seq<u8>)
    requires 4 <= |data|
    ensures var v := BeValue(data[..4]);
      SignatureEnd(data, 0) ==
        if v == 0x10000 || v == 0x10003 then Some(0x240)
        else if v == 0x10001 || v == 0x10004 then Some(0x140)
        else Some(0x40)
  {
    GetSigSizeOfFileTag(LittleEndianHost, data[..4]);
    assert data[0..4] == data[..4];
  }

  /** A tag the table does not know is taken as a signature of no bytes, but
      refused as a certificate. */
  lemma UnknownTag(data: seq<u8>, p: nat)
    requires p + 4 <= |data| && SigTypeOf(BeValue(data[p..p + 4])).None?
    ensures SignatureEnd(data, p) == Some(AlignUp(p + 4, 64))
    ensures CertAt(data, p).None?
  {
  }

  /** The `titleID` field of a ticket header. */
  lemma TikTitleIdField(hdr: seq<u8>)
    requires |hdr| == TIK_HDR_SIZE
    ensures Declares(TikHdrFields(), "titleID") && Size(TikHdrFields()) == TIK_HDR_SIZE
    ensures FieldBytes(TikHdrFields(), hdr, "titleID") == hdr[TIK_TITLE_ID_OFFSET..TIK_TITLE_ID_OFFSET + 8]
  {
    TikHdrSize();
    TikHdrOffsets();
  }

  /** A ticket's pieces follow one another: the signed header starts the
      file and ends 528 bytes after the signature block `s` ends, and the XS
      and CA certificates come right after it. The title id is the 8 bytes
      at the header's `titleID` offset (`TikTitleIdField`). */
  lemma TicketLayout(data: seq<u8>, t: Ticket, s: nat)
    requires ParseTicket(data) == Some(t) && SignatureEnd(data, 0) == Some(s)
    ensures s + TIK_HDR_SIZE <= |data| && t.header == Region(0, s + TIK_HDR_SIZE)
    ensures t.xsCert.offset == t.header.End() && t.caCert.offset == t.xsCert.End()
    ensures t.titleId == data[s..s + TIK_HDR_SIZE][TIK_TITLE_ID_OFFSET..TIK_TITLE_ID_OFFSET + 8]
  {
    SliceOfSlice(data, s, TIK_HDR_SIZE, TIK_TITLE_ID_OFFSET, TIK_TITLE_ID_OFFSET + 8);
  }

  /** The `titleID` and `contentCnt` fields of a TMD header. */
  lemma TmdHeaderFields(hdr: seq<u8>)
    requires |hdr| == TMD_HDR_SIZE
    ensures Declares(TmdHdrFields(), "titleID") && Declares(TmdHdrFields(), "contentCnt")
    ensures Size(TmdHdrFields()) == TMD_HDR_SIZE
    ensures FieldBytes(TmdHdrFields(), hdr, "titleID") == hdr[TMD_TITLE_ID_OFFSET..TMD_TITLE_ID_OFFSET + 8]
    ensures FieldBytes(TmdHdrFields(), hdr, "contentCnt") == hdr[TMD_CONTENT_CNT_OFFSET..TMD_CONTENT_CNT_OFFSET + 2]
  {
    TmdHdrSize();
    TmdHdrTitleIdOffset();
    TmdHdrContentCntOffset();
  }

  /** A TMD's header region runs from the start of the file through the
      descriptor table, one 48-byte descriptor per content the header's
      `contentCnt` field counts; the CP and CA certificates follow. The title
      id and the count are read at the header's `titleID` and `contentCnt`
      offsets (`TmdHeaderFields`). */
  lemma TmdLayout(data: seq<u8>, t: Tmd, s: nat)
    requires ParseTmd(data) == Some(t) && SignatureEnd(data, 0) == Some(s)
    ensures s + TMD_HDR_SIZE <= |data|
    ensures t.header == Region(0, s + TMD_HDR_SIZE + TMD_CONTENT_SIZE * t.contentCnt) && |t.content| == t.contentCnt
    ensures t.cpCert.offset == t.header.End() && t.caCert.offset == t.cpCert.End()
    ensures t.contentCnt == BeValue(data[s..s + TMD_HDR_SIZE][TMD_CONTENT_CNT_OFFSET..TMD_CONTENT_CNT_OFFSET + 2])
    ensures t.titleId == data[s..s + TMD_HDR_SIZE][TMD_TITLE_ID_OFFSET..TMD_TITLE_ID_OFFSET + 8]
  {
    SliceOfSlice(data, s, TMD_HDR_SIZE, TMD_TITLE_ID_OFFSET, TMD_TITLE_ID_OFFSET + 8);
    SliceOfSlice(data, s, TMD_HDR_SIZE, TMD_CONTENT_CNT_OFFSET, TMD_CONTENT_CNT_OFFSET + 2);
  }

  /** Each descriptor of a parsed TMD is the 48 bytes at its place in the table. */
  lemma TmdContentBytes(data: seq<u8>, k: nat)
    requires ParseTmd(data).Some? && k < ParseTmd(data).value.contentCnt
    ensures var t := ParseTmd(data).value;
      var at := SignatureEnd(data, 0).value + TMD_HDR_SIZE + TMD_CONTENT_SIZE * k;
      at + TMD_CONTENT_SIZE <= |data| &&
      EncodeContent(t.content[k]) == data[at..at + TMD_CONTENT_SIZE]
  {
    var t := ParseTmd(data).value;
    var s := SignatureEnd(data, 0).value;
    var e := s + TMD_HDR_SIZE + TMD_CONTENT_SIZE * t.contentCnt;
    var table := data[s + TMD_HDR_SIZE..e];
    var at := s + TMD_HDR_SIZE + TMD_CONTENT_SIZE * k;
    assert TMD_CONTENT_SIZE * k + TMD_CONTENT_SIZE <= TMD_CONTENT_SIZE * t.contentCnt;
    SliceOfSlice(data, s + TMD_HDR_SIZE, TMD_CONTENT_SIZE * t.contentCnt,
                 TMD_CONTENT_SIZE * k, TMD_CONTENT_SIZE * k + TMD_CONTENT_SIZE);
    ContentBytesRoundTrip(table[TMD_CONTENT_SIZE * k..TMD_CONTENT_SIZE * k + TMD_CONTENT_SIZE]);
  }
}
