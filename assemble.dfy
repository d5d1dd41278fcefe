// cia.c, writeCIA: assembling the CIA file. The header goes first, then the
// certificate chain (CA, XS, CP), the ticket and the TMD, each group starting
// on a 64-byte boundary, then every content file named in the TMD, copied
// in 1220-byte blocks.

module CiaWrite {
  import opened Endian
  import opened Layout
  import opened Stdio
  import opened ChunkIo
  import opened CiaParse
  import opened CiaHeader
  import opened ContentNames

  /** Size of writeCIA's stack buffer, the block content files are copied in. */
  const BLOCK_SIZE: nat := 1220

  /** How many contents the upper-case fallback's loop counter leaves behind. */
  const FALLBACK_INDEX: nat := 16

  /** The output file as it is being written: its bytes and its position. */
  datatype Out = Out(data: seq<u8>, pos: nat)

  /** The output after a successful write of `bytes` at its position. */
  function Put(o: Out, bytes: seq<u8>): (r: Out)
    ensures r.pos == o.pos + |bytes|
  {
    Out(WriteAt(o.data, o.pos, bytes), o.pos + |bytes|)
  }

  /** Room left before the device is full; it shrinks with every byte written. */
  function Room(pos: nat, capacity: nat): (r: nat)
  {
    if pos <= capacity then capacity - pos else 0
  }

  /** One step of laying out the file's fixed part. */
  datatype Piece =
    | Bytes(bytes: seq<u8>)   // an fwrite, or a chunk appended
    | Missing                 // a chunk whose file cannot be read back
    | Align                   // alignFilePointer(fp, 64)

  /** A chunk's bytes as a piece of the file. */
  function PieceOf(c: Option<seq<u8>>): (r: Piece)
  {
    if c.Some? then Bytes(c.value) else Missing
  }

  /** The output after one piece, or None when it cannot be written. The
      result of alignFilePointer is not looked at: on the seekable output
      it always succeeds. */
  function Advance(o: Out, p: Piece, capacity: nat): (r: Option<Out>)
    ensures r.Some? ==> o.pos <= r.value.pos
  {
    match p
    case Bytes(b) =>
      if |b| == 0 then Some(o)
      else if o.pos + |b| <= capacity then Some(Put(o, b))
      else None
    case Missing => None
    case Align => Some(Out(o.data, AlignUp(o.pos, 64)))
  }

  /** The output after one more piece, when everything before went through. */
  function Then(r: Option<Out>, p: Piece, capacity: nat): (o: Option<Out>)
  {
    if r.None? then None else Advance(r.value, p, capacity)
  }

  /** `b` is `a` written on: it stands no earlier, is no shorter, and the bytes
      before `a`'s position that `a` held are still there. */
  ghost predicate Extends(a: Out, b: Out)
  {
    var m := Min(a.pos, |a.data|);
    a.pos <= b.pos && |a.data| <= |b.data| && b.data[..m] == a.data[..m]
  }

  lemma AdvanceExtends(o: Out, p: Piece, capacity: nat)
    requires Advance(o, p, capacity).Some?
    ensures Extends(o, Advance(o, p, capacity).value)
  {
    if p.Bytes? && |p.bytes| > 0 {
      var m := Min(o.pos, |o.data|);
      assert WriteAt(o.data, o.pos, p.bytes)[..m] == o.data[..m];
    }
  }

  lemma ExtendsTrans(a: Out, b: Out, c: Out)
    requires Extends(a, b) && Extends(b, c)
    ensures Extends(a, c)
  {
    var m, m' := Min(a.pos, |a.data|), Min(b.pos, |b.data|);
    assert c.data[..m] == c.data[..m'][..m] == b.data[..m'][..m];
  }

  /** A write of bytes reads back at the position it was made at, however the
      output is extended after it. */
  lemma PutReadsBack(o: Out, b: seq<u8>, r: Out)
    requires |b| > 0 && Extends(Put(o, b), r)
    ensures o.pos + |b| <= |r.data| && r.data[o.pos..o.pos + |b|] == b
  {
    var w := Put(o, b);
    var e := o.pos + |b|;
    WriteAtReadsBack(o.data, o.pos, b);
    assert r.data[o.pos..e] == r.data[..e][o.pos..];
    assert w.data[o.pos..e] == w.data[..e][o.pos..];
  }

  /** Bytes `a` holds before its position are still there in `c`. */
  lemma ExtendsKeeps(a: Out, c: Out, s: nat, e: nat)
    requires Extends(a, c) && s <= e <= a.pos && e <= |a.data|
    ensures e <= |c.data| && c.data[s..e] == a.data[s..e]
  {
    var m := Min(a.pos, |a.data|);
    assert c.data[s..e] == c.data[..m][s..e];
    assert a.data[s..e] == a.data[..m][s..e];
  }

  /** The header, written at the start of the file, then alignment. */
  function HeaderStage(seekable: bool, capacity: nat, initial: seq<u8>, header: seq<u8>): (r: Option<Out>)
  {
    if !seekable then None
    else Then(Then(Some(Out(initial, 0)), Bytes(header), capacity), Align, capacity)
  }

  /** The CA, XS and CP certificates back to back, then alignment. */
  function CertStage(r: Option<Out>, ca: Option<seq<u8>>, xs: Option<seq<u8>>, cp: Option<seq<u8>>,
                     capacity: nat): (o: Option<Out>)
  {
    Then(Then(Then(Then(r, PieceOf(ca), capacity), PieceOf(xs), capacity), PieceOf(cp), capacity), Align, capacity)
  }

  /** One chunk (the ticket, the TMD), then alignment. */
  function ChunkStage(r: Option<Out>, c: Option<seq<u8>>, capacity: nat): (o: Option<Out>)
  {
    Then(Then(r, PieceOf(c), capacity), Align, capacity)
  }

  /** The fixed part of a CIA file as writeCIA writes it before its content
      loop: the header at the start, then after alignment the CA, XS and CP
      certificates back to back, then after alignment the ticket, then after
      alignment the TMD, then alignment again. None when the output is not
      seekable, one of the writes does not fit, or a chunk cannot be read back. */
  function FixedPart(seekable: bool, capacity: nat, initial: seq<u8>, header: seq<u8>,
                     ca: Option<seq<u8>>, xs: Option<seq<u8>>, cp: Option<seq<u8>>,
                     tik: Option<seq<u8>>, tmd: Option<seq<u8>>): (r: Option<Out>)
  {
    var certs := CertStage(HeaderStage(seekable, capacity, initial, header), ca, xs, cp, capacity);
    ChunkStage(ChunkStage(certs, tik, capacity), tmd, capacity)
  }

  /** `b` is in `o`'s bytes at offset `at` (trivially, when `b` is empty). */
  ghost predicate Holds(o: Out, at: nat, b: seq<u8>)
  {
    |b| > 0 ==> at + |b| <= |o.data| && o.data[at..at + |b|] == b
  }

  /** Bytes in `a` before its position are still in any output that extends it. */
  lemma ExtendsHolds(a: Out, c: Out, at: nat, b: seq<u8>)
    requires Extends(a, c) && Holds(a, at, b) && at + |b| <= a.pos
    ensures Holds(c, at, b)
  {
    if |b| > 0 {
      ExtendsKeeps(a, c, at, at + |b|);
    }
  }

  lemma HeaderStageLayout(capacity: nat, initial: seq<u8>, header: seq<u8>, o: Out)
    requires HeaderStage(true, capacity, initial, header) == Some(o)
    ensures o.pos == AlignUp(|header|, 64) && Holds(o, 0, header)
  {
    if |header| > 0 {
      WriteAtReadsBack(initial, 0, header);
      assert o.data[0..|header|] == o.data[..|header|];
    }
  }

  /** Two writes back to back are one write of both. */
  lemma TwoWrites(r: Out, a: seq<u8>, b: seq<u8>, capacity: nat)
    requires Then(Then(Some(r), Bytes(a), capacity), Bytes(b), capacity).Some?
    ensures Then(Then(Some(r), Bytes(a), capacity), Bytes(b), capacity) == Then(Some(r), Bytes(a + b), capacity)
  {
    if |a| == 0 {
      assert a + b == b;
    } else if |b| == 0 {
      assert a + b == a;
    } else {
      WriteAtTwice(r.data, r.pos, a, b);
    }
  }

  /** The three certificates are written as one block: the chain. */
  lemma CertsAsOne(r: Out, ca: seq<u8>, xs: seq<u8>, cp: seq<u8>, capacity: nat)
    requires CertStage(Some(r), Some(ca), Some(xs), Some(cp), capacity).Some?
    ensures CertStage(Some(r), Some(ca), Some(xs), Some(cp), capacity) == ChunkStage(Some(r), Some(ca + xs + cp), capacity)
  {
    var o1 := Then(Some(r), Bytes(ca), capacity);
    TwoWrites(r, ca, xs, capacity);
    var o2 := Then(Some(r), Bytes(ca + xs), capacity);
    TwoWrites(r, ca + xs, cp, capacity);
  }

  lemma ChunkStageLayout(r: Out, c: seq<u8>, capacity: nat, o: Out)
    requires ChunkStage(Some(r), Some(c), capacity) == Some(o)
    ensures o.pos == AlignUp(r.pos + |c|, 64) && Extends(r, o) && Holds(o, r.pos, c)
  {
    var o1 := Advance(r, Bytes(c), capacity).value;
    AdvanceExtends(o1, Align, capacity);
    AdvanceExtends(r, Bytes(c), capacity);
    ExtendsTrans(r, o1, o);
    if |c| > 0 {
      PutReadsBack(r, c, o);
    }
  }

  /** Where each group of the fixed part begins. */
  datatype Offsets = Offsets(certs: nat, tik: nat, tmd: nat, contents: nat)

  function OffsetsOf(header: seq<u8>, chain: seq<u8>, tik: seq<u8>, tmd: seq<u8>): (r: Offsets)
    ensures r.certs % 64 == 0 && r.tik % 64 == 0 && r.tmd % 64 == 0 && r.contents % 64 == 0
    ensures |header| <= r.certs && r.certs + |chain| <= r.tik
    ensures r.tik + |tik| <= r.tmd && r.tmd + |tmd| <= r.contents
  {
    var certs := AlignUp(|header|, 64);
    var tikAt := AlignUp(certs + |chain|, 64);
    var tmdAt := AlignUp(tikAt + |tik|, 64);
    Offsets(certs, tikAt, tmdAt, AlignUp(tmdAt + |tmd|, 64))
  }

  lemma OffsetsOfStages(header: seq<u8>, chain: seq<u8>, tik: seq<u8>, tmd: seq<u8>,
                        certs: nat, tikAt: nat, tmdAt: nat, contents: nat)
    requires certs == AlignUp(|header|, 64) && tikAt == AlignUp(certs + |chain|, 64)
    requires tmdAt == AlignUp(tikAt + |tik|, 64) && contents == AlignUp(tmdAt + |tmd|, 64)
    ensures OffsetsOf(header, chain, tik, tmd) == Offsets(certs, tikAt, tmdAt, contents)
  {
  }

  /** The outputs after the header stage `h`, the certificate stage `c`,
      the ticket stage `t` and the TMD stage `r`: each stage ends at the
      64-byte boundary after what it wrote, extends the one before, and holds
      what it wrote at the position the stage before ended at. */
  ghost predicate Staged(header: seq<u8>, chain: seq<u8>, tik: seq<u8>, tmd: seq<u8>, h: Out, c: Out, t: Out, r: Out)
  {
    h.pos == AlignUp(|header|, 64) && Holds(h, 0, header) &&
    c.pos == AlignUp(h.pos + |chain|, 64) && Extends(h, c) && Holds(c, h.pos, chain) &&
    t.pos == AlignUp(c.pos + |tik|, 64) && Extends(c, t) && Holds(t, c.pos, tik) &&
    r.pos == AlignUp(t.pos + |tmd|, 64) && Extends(t, r) && Holds(r, t.pos, tmd)
  }

  /** The outputs after each stage of a fixed part that is written (the
      certificates count as one write of the chain): where each stage ends,
      and what it wrote where. */
  lemma FixedPartStages(capacity: nat, initial: seq<u8>, header: seq<u8>,
                        ca: seq<u8>, xs: seq<u8>, cp: seq<u8>, tik: seq<u8>, tmd: seq<u8>, r: Out)
      returns (h: Out, c: Out, t: Out)
    requires FixedPart(true, capacity, initial, header, Some(ca), Some(xs), Some(cp), Some(tik), Some(tmd)) == Some(r)
    ensures Staged(header, ca + xs + cp, tik, tmd, h, c, t, r)
  {
    h := HeaderStage(true, capacity, initial, header).value;
    c := CertStage(Some(h), Some(ca), Some(xs), Some(cp), capacity).value;
    t := ChunkStage(Some(c), Some(tik), capacity).value;
    CertsAsOne(h, ca, xs, cp, capacity);
    HeaderStageLayout(capacity, initial, header, h);
    ChunkStageLayout(h, ca + xs + cp, capacity, c);
    ChunkStageLayout(c, tik, capacity, t);
    ChunkStageLayout(t, tmd, capacity, r);
  }

  /** The fixed part of a CIA file laid out in `r`: the header at the start,
      the certificate chain, the ticket and the TMD each at its offset, and
      the position at the offset the contents start at. */
  ghost predicate LaidOut(r: Out, header: seq<u8>, chain: seq<u8>, tik: seq<u8>, tmd: seq<u8>)
  {
    var at := OffsetsOf(header, chain, tik, tmd);
    r.pos == at.contents && Holds(r, 0, header) && Holds(r, at.certs, chain) &&
    Holds(r, at.tik, tik) && Holds(r, at.tmd, tmd)
  }

  /** The layout the four stages add up to: what each stage wrote is still
      there after the later ones. */
  lemma StagesLayout(header: seq<u8>, chain: seq<u8>, tik: seq<u8>, tmd: seq<u8>, h: Out, c: Out, t: Out, r: Out)
    requires Staged(header, chain, tik, tmd, h, c, t, r)
    ensures LaidOut(r, header, chain, tik, tmd)
  {
    ExtendsTrans(c, t, r);
    ExtendsTrans(h, c, r);
    ExtendsHolds(h, r, 0, header);
    ExtendsHolds(c, r, h.pos, chain);
    ExtendsHolds(t, r, c.pos, tik);
    OffsetsOfStages(header, chain, tik, tmd, h.pos, c.pos, t.pos, r.pos);
  }

  /** When the fixed part is written, it ends at the offset the contents
      start at, and the header, the certificate chain (CA, XS, CP back to
      back), the ticket and the TMD read back from their offsets. */
  lemma FixedPartLayout(capacity: nat, initial: seq<u8>, header: seq<u8>,
                        ca: seq<u8>, xs: seq<u8>, cp: seq<u8>, tik: seq<u8>, tmd: seq<u8>, r: Out)
    requires FixedPart(true, capacity, initial, header, Some(ca), Some(xs), Some(cp), Some(tik), Some(tmd)) == Some(r)
    ensures LaidOut(r, header, ca + xs + cp, tik, tmd)
  {
    var h, c, t := FixedPartStages(capacity, initial, header, ca, xs, cp, tik, tmd, r);
    StagesLayout(header, ca + xs + cp, tik, tmd, h, c, t, r);
  }

  // What lies between the sections: the output starts as an empty file
  // (fopen with "wb"), so every byte a seek skips over reads as zero.

  /** Runs of zero bytes back to back are one run. */
  lemma ZerosConcat(a: nat, b: nat)
    ensures Zeros(a) + Zeros(b) == Zeros(a + b)
  {
    assert |Zeros(a) + Zeros(b)| == a + b;
  }

  /** The file as it would read up to the position: its bytes, then zeros
      for the part a seek past the end skipped. */
  function Padded(o: Out): (r: seq<u8>)
    requires |o.data| <= o.pos
    ensures |r| == o.pos && r[..|o.data|] == o.data
  {
    o.data + Zeros(o.pos - |o.data|)
  }

  /** A chunk written at a position at or past the end of the file, then
      alignment: the chunk follows the file padded with zeros up to the old
      position, the file ends at the chunk's end when the chunk is not empty,
      and the alignment adds only a position, no bytes. */
  lemma ChunkStagePadded(r: Out, c: seq<u8>, capacity: nat, o: Out)
    requires |r.data| <= r.pos
    requires ChunkStage(Some(r), Some(c), capacity) == Some(o)
    ensures |o.data| <= o.pos && o.pos == AlignUp(r.pos + |c|, 64)
    ensures |c| > 0 ==> o.data == Padded(r) + c
    ensures Padded(o) == Padded(r) + c + Zeros(o.pos - r.pos - |c|)
  {
    var o1 := Advance(r, Bytes(c), capacity).value;
    if |c| > 0 {
      WriteAtEnd(r.data, r.pos, c);
      assert o1.data == Padded(r) + c;
      assert Padded(o) == Padded(r) + c + Zeros(o.pos - r.pos - |c|);
    } else {
      assert r.data + Zeros(r.pos - |r.data|) + Zeros(o.pos - r.pos) == r.data + (Zeros(r.pos - |r.data|) + Zeros(o.pos - r.pos));
      ZerosConcat(r.pos - |r.data|, o.pos - r.pos);
      assert Padded(r) + c == Padded(r);
    }
  }

  /** The outputs after the four stages of a fixed part written to an empty
      file, read up to their positions: each stage ends at the 64-byte
      boundary after what it wrote, and reads as the stage before, then what
      it wrote, then zeros; the TMD stage leaves the file ending at the TMD. */
  ghost predicate PaddedStages(header: seq<u8>, chain: seq<u8>, tik: seq<u8>, tmd: seq<u8>, h: Out, c: Out, t: Out, r: Out)
  {
    |h.data| <= h.pos && |c.data| <= c.pos && |t.data| <= t.pos &&
    h.pos == AlignUp(|header|, 64) && c.pos == AlignUp(h.pos + |chain|, 64) &&
    t.pos == AlignUp(c.pos + |tik|, 64) && r.pos == AlignUp(t.pos + |tmd|, 64) &&
    Padded(h) == header + Zeros(h.pos - |header|) &&
    Padded(c) == Padded(h) + chain + Zeros(c.pos - h.pos - |chain|) &&
    Padded(t) == Padded(c) + tik + Zeros(t.pos - c.pos - |tik|) &&
    r.data == Padded(t) + tmd
  }

  /** A fixed part that is written is four chunk stages in a row (the
      header's from position 0, the certificates' as one chain). */
  lemma FixedPartChunks(capacity: nat, initial: seq<u8>, header: seq<u8>, ca: seq<u8>, xs: seq<u8>, cp: seq<u8>,
                        tik: seq<u8>, tmd: seq<u8>, r: Out)
      returns (h: Out, c: Out, t: Out)
    requires FixedPart(true, capacity, initial, header, Some(ca), Some(xs), Some(cp), Some(tik), Some(tmd)) == Some(r)
    ensures ChunkStage(Some(Out(initial, 0)), Some(header), capacity) == Some(h)
    ensures ChunkStage(Some(h), Some(ca + xs + cp), capacity) == Some(c)
    ensures ChunkStage(Some(c), Some(tik), capacity) == Some(t)
    ensures ChunkStage(Some(t), Some(tmd), capacity) == Some(r)
  {
    h := HeaderStage(true, capacity, initial, header).value;
    c := CertStage(Some(h), Some(ca), Some(xs), Some(cp), capacity).value;
    t := ChunkStage(Some(c), Some(tik), capacity).value;
    CertsAsOne(h, ca, xs, cp, capacity);
  }

  /** Four chunk stages from an empty file, read up to their positions. */
  lemma StagesPadded(capacity: nat, header: seq<u8>, chain: seq<u8>, tik: seq<u8>, tmd: seq<u8>,
                     h: Out, c: Out, t: Out, r: Out)
    requires ChunkStage(Some(Out([], 0)), Some(header), capacity) == Some(h)
    requires ChunkStage(Some(h), Some(chain), capacity) == Some(c)
    requires ChunkStage(Some(c), Some(tik), capacity) == Some(t)
    requires ChunkStage(Some(t), Some(tmd), capacity) == Some(r)
    requires |tmd| > 0
    ensures PaddedStages(header, chain, tik, tmd, h, c, t, r)
  {
    ChunkStagePadded(Out([], 0), header, capacity, h);
    ChunkStagePadded(h, chain, capacity, c);
    ChunkStagePadded(c, tik, capacity, t);
    ChunkStagePadded(t, tmd, capacity, r);
    assert Padded(Out([], 0)) == [];
  }

  /** The bytes the four stages add up to. */
  ghost function FixedBytes(header: seq<u8>, chain: seq<u8>, tik: seq<u8>, tmd: seq<u8>): (r: seq<u8>)
  {
    var at := OffsetsOf(header, chain, tik, tmd);
    header + Zeros(at.certs - |header|) + chain + Zeros(at.tik - at.certs - |chain|) +
    tik + Zeros(at.tmd - at.tik - |tik|) + tmd
  }

  lemma PaddedStagesBytes(header: seq<u8>, chain: seq<u8>, tik: seq<u8>, tmd: seq<u8>, h: Out, c: Out, t: Out, r: Out)
    requires PaddedStages(header, chain, tik, tmd, h, c, t, r)
    ensures r.pos == OffsetsOf(header, chain, tik, tmd).contents
    ensures r.data == FixedBytes(header, chain, tik, tmd)
  {
    OffsetsOfStages(header, chain, tik, tmd, h.pos, c.pos, t.pos, r.pos);
  }

  /** The fixed part written to an empty file with a TMD that is not empty,
      byte for byte: the header, zeros up to the chain, the chain, zeros up
      to the ticket, the ticket, zeros up to the TMD, and the TMD, where the
      file ends; the position is at the contents offset past it. */
  lemma FixedPartBytes(capacity: nat, header: seq<u8>, ca: seq<u8>, xs: seq<u8>, cp: seq<u8>,
                       tik: seq<u8>, tmd: seq<u8>, r: Out)
    requires FixedPart(true, capacity, [], header, Some(ca), Some(xs), Some(cp), Some(tik), Some(tmd)) == Some(r)
    requires |tmd| > 0
    ensures var chain := ca + xs + cp;
      var at := OffsetsOf(header, chain, tik, tmd);
      r.pos == at.contents && |r.data| == at.tmd + |tmd| &&
      r.data == header + Zeros(at.certs - |header|) + chain + Zeros(at.tik - at.certs - |chain|) +
                tik + Zeros(at.tmd - at.tik - |tik|) + tmd
  {
    var h, c, t := FixedPartChunks(capacity, [], header, ca, xs, cp, tik, tmd, r);
    StagesPadded(capacity, header, ca + xs + cp, tik, tmd, h, c, t, r);
    PaddedStagesBytes(header, ca + xs + cp, tik, tmd, h, c, t, r);
  }

  // ---------------------------------------------------------------------
  // The content loop

  /** Content `k`'s id, as `be32toh(content[k].id)` reads it. */
  function IdOf(cs: seq<TmdContent>, k: nat): (id: nat)
    requires k < |cs| && forall m :: 0 <= m < |cs| ==> cs[m].Valid()
    ensures id < 0x1_0000_0000
  {
    assert cs[k].Valid();
    cs[k].Id()
  }

  /** Content `k`'s size in bytes, as `be64toh(content[k].size)` reads it. */
  function SizeOf(cs: seq<TmdContent>, k: nat): (r: nat)
    requires k < |cs| && forall m :: 0 <= m < |cs| ==> cs[m].Valid()
  {
    assert cs[k].Valid();
    cs[k].Length()
  }

  /** The file a content is copied from and the index the loop goes on from:
      the `%08x` name and the same index, or else the `%08X` name and the
      index the upper-casing loop left in the shared counter. */
  function Lookup(id: nat, i: nat, dir: map<string, seq<u8>>): (r: Option<(seq<u8>, nat)>)
  {
    var lower := Name(id, false);
    if lower in dir then Some((dir[lower], i))
    else if Upper(lower) in dir then Some((dir[Upper(lower)], FALLBACK_INDEX))
    else None
  }

  /** One round of the content loop as written: open the file for content
      `i`, then copy as many of its bytes as the size of the content at the
      (possibly replaced) index says, and go on after that index. A size of
      0 fails (`fread` of 0 bytes), as does a file shorter than the size and
      a write that does not fit. An index past the table (reading
      `content[16]` of a shorter table) is taken as a failure. */
  function Step(cs: seq<TmdContent>, dir: map<string, seq<u8>>, capacity: nat, i: nat, o: Out): (r: Option<(nat, Out)>)
    requires i < |cs| && forall k :: 0 <= k < |cs| ==> cs[k].Valid()
    ensures r.Some? ==> r.value.0 <= |cs| && o.pos < r.value.1.pos <= capacity
  {
    match Lookup(IdOf(cs, i), i, dir)
    case None => None
    case Some((file, j)) =>
      if j >= |cs| then None
      else
        var n := SizeOf(cs, j);
        if 0 < n && n <= |file| && o.pos + n <= capacity then Some((j + 1, Put(o, file[..n])))
        else None
  }

  /** The content loop as written, from index `i` on. It ends because every
      round that goes on writes at least one byte to a device of bounded size. */
  function Run(cs: seq<TmdContent>, dir: map<string, seq<u8>>, capacity: nat, i: nat, o: Out): (r: Option<Out>)
    requires i <= |cs| && forall k :: 0 <= k < |cs| ==> cs[k].Valid()
    decreases Room(o.pos, capacity)
  {
    if i == |cs| then Some(o)
    else
      match Step(cs, dir, capacity, i, o)
      case None => None
      case Some((j, o')) => Run(cs, dir, capacity, j, o')
  }

  /** The content loop as it is evidently meant to work: content `i` is
      copied from whichever of its two names exists, its own size is used,
      a content of size 0 copies nothing, and the loop goes on at `i + 1`. */
  function IntendedStep(cs: seq<TmdContent>, dir: map<string, seq<u8>>, capacity: nat, i: nat, o: Out): (r: Option<Out>)
    requires i < |cs| && forall k :: 0 <= k < |cs| ==> cs[k].Valid()
  {
    match Lookup(IdOf(cs, i), i, dir)
    case None => None
    case Some((file, _)) =>
      var n := SizeOf(cs, i);
      if n <= |file| && (n == 0 || o.pos + n <= capacity) then Some(Put(o, file[..n])) else None
  }

  function IntendedRun(cs: seq<TmdContent>, dir: map<string, seq<u8>>, capacity: nat, i: nat, o: Out): (r: Option<Out>)
    requires i <= |cs| && forall k :: 0 <= k < |cs| ==> cs[k].Valid()
    decreases |cs| - i
  {
    if i == |cs| then Some(o)
    else
      match IntendedStep(cs, dir, capacity, i, o)
      case None => None
      case Some(o') => IntendedRun(cs, dir, capacity, i + 1, o')
  }

  /** Content `i`'s file, under either name. */
  function FileOf(cs: seq<TmdContent>, dir: map<string, seq<u8>>, i: nat): (r: Option<seq<u8>>)
    requires i < |cs| && forall k :: 0 <= k < |cs| ==> cs[k].Valid()
  {
    var found := Lookup(IdOf(cs, i), i, dir);
    if found.Some? then Some(found.value.0) else None
  }

  /** What the contents from `i` on add to the file: each content's first
      `size` bytes, one after the other. */
  function Payload(cs: seq<TmdContent>, dir: map<string, seq<u8>>, i: nat): (r: Option<seq<u8>>)
    requires i <= |cs| && forall k :: 0 <= k < |cs| ==> cs[k].Valid()
    decreases |cs| - i
  {
    if i == |cs| then Some([])
    else
      var n := SizeOf(cs, i);
      var file := FileOf(cs, dir, i);
      var rest := Payload(cs, dir, i + 1);
      if file.Some? && n <= |file.value| && rest.Some? then Some(file.value[..n] + rest.value) else None
  }

  /** The intended loop appends the payload at the position it starts at,
      and goes through exactly when every file is there, is long enough and
      the payload fits on the device. */
  lemma {:induction false} IntendedRunAppendsPayload(cs: seq<TmdContent>, dir: map<string, seq<u8>>,
                                                     capacity: nat, i: nat, o: Out)
    requires i <= |cs| && forall k :: 0 <= k < |cs| ==> cs[k].Valid()
    ensures var r := IntendedRun(cs, dir, capacity, i, o);
      var p := Payload(cs, dir, i);
      r.Some? <==> (p.Some? && (|p.value| == 0 || o.pos + |p.value| <= capacity))
    ensures var r := IntendedRun(cs, dir, capacity, i, o);
      r.Some? ==> r.value == Put(o, Payload(cs, dir, i).value)
    decreases |cs| - i
  {
    if i < |cs| {
      var n := SizeOf(cs, i);
      var file := FileOf(cs, dir, i);
      var step := IntendedStep(cs, dir, capacity, i, o);
      if step.Some? {
        IntendedRunAppendsPayload(cs, dir, capacity, i + 1, step.value);
        var p := Payload(cs, dir, i + 1);
        if p.Some? {
          var b := file.value[..n];
          WriteAtTwice(o.data, o.pos, b, p.value);
        }
      } else {
        var p := Payload(cs, dir, i);
        if p.Some? {
          assert |p.value| >= n;
        }
      }
    } else {
      assert Payload(cs, dir, i) == Some([]);
    }
  }

  /** Contents all present under their `%08x` names and none of size 0: the
      loop as written does what is intended. */
  lemma {:induction false} RunAsIntended(cs: seq<TmdContent>, dir: map<string, seq<u8>>, capacity: nat, i: nat, o: Out)
    requires i <= |cs| && forall k :: 0 <= k < |cs| ==> cs[k].Valid()
    requires forall k :: i <= k < |cs| ==> Name(IdOf(cs, k), false) in dir && SizeOf(cs, k) > 0
    ensures Run(cs, dir, capacity, i, o) == IntendedRun(cs, dir, capacity, i, o)
    decreases |cs| - i
  {
    if i < |cs| {
      var step := Step(cs, dir, capacity, i, o);
      var intended := IntendedStep(cs, dir, capacity, i, o);
      assert step.Some? <==> intended.Some?;
      if step.Some? {
        assert step.value == (i + 1, intended.value);
        RunAsIntended(cs, dir, capacity, i + 1, intended.value);
      }
    }
  }

  /** A content only found under its upper-case name, in a TMD of at most
      16 contents: the loop as written reads a size past the table and fails,
      though the file is there. */
  lemma FallbackPastTable(cs: seq<TmdContent>, dir: map<string, seq<u8>>, capacity: nat, i: nat, o: Out)
    requires i < |cs| <= FALLBACK_INDEX && forall k :: 0 <= k < |cs| ==> cs[k].Valid()
    requires Name(IdOf(cs, i), false) !in dir && Name(IdOf(cs, i), true) in dir
    ensures Run(cs, dir, capacity, i, o).None?
    ensures FileOf(cs, dir, i) == Some(dir[Name(IdOf(cs, i), true)])
  {
    UpperName(IdOf(cs, i));
  }

  /** With more than 16 contents, the fallback copies the file of content
      `i` with the size of content 16, then skips to content 17: the contents
      between are never written. */
  lemma FallbackSkips(cs: seq<TmdContent>, dir: map<string, seq<u8>>, capacity: nat, i: nat, o: Out)
    requires i < FALLBACK_INDEX < |cs| && forall k :: 0 <= k < |cs| ==> cs[k].Valid()
    requires Name(IdOf(cs, i), false) !in dir && Name(IdOf(cs, i), true) in dir
    requires Step(cs, dir, capacity, i, o).Some?
    ensures var file := dir[Name(IdOf(cs, i), true)];
      SizeOf(cs, FALLBACK_INDEX) <= |file| &&
      Step(cs, dir, capacity, i, o).value == (FALLBACK_INDEX + 1, Put(o, file[..SizeOf(cs, FALLBACK_INDEX)]))
  {
    UpperName(IdOf(cs, i));
  }

  /** A content of size 0 makes the loop as written fail; the intended loop
      copies nothing for it and goes on. */
  lemma EmptyContentFails(cs: seq<TmdContent>, dir: map<string, seq<u8>>, capacity: nat, i: nat, o: Out)
    requires i < |cs| && forall k :: 0 <= k < |cs| ==> cs[k].Valid()
    requires Name(IdOf(cs, i), false) in dir && SizeOf(cs, i) == 0
    ensures Run(cs, dir, capacity, i, o).None?
    ensures IntendedStep(cs, dir, capacity, i, o) == Some(o)
  {
    assert Put(o, dir[Name(IdOf(cs, i), false)][..0]) == o;
  }

  /** The whole file writeCIA leaves behind, or None when it fails. */
  function CiaFile(seekable: bool, capacity: nat, initial: seq<u8>, header: seq<u8>,
                   ca: Option<seq<u8>>, xs: Option<seq<u8>>, cp: Option<seq<u8>>,
                   tik: Option<seq<u8>>, tmd: Option<seq<u8>>,
                   cs: seq<TmdContent>, dir: map<string, seq<u8>>): (r: Option<seq<u8>>)
    requires forall k :: 0 <= k < |cs| ==> cs[k].Valid()
  {
    match FixedPart(seekable, capacity, initial, header, ca, xs, cp, tik, tmd)
    case None => None
    case Some(o) =>
      match Run(cs, dir, capacity, 0, o)
      case None => None
      case Some(r) => Some(r.data)
  }


  /** A CIA file written from chunks that are all there and contents that
      all have their `%08x` names and are not empty: the fixed part is laid
      out as `LaidOut` says, and the contents follow it, one after the other,
      from the 64-byte aligned offset after the TMD. */
  lemma CiaFileLayout(capacity: nat, initial: seq<u8>, header: seq<u8>,
                      ca: seq<u8>, xs: seq<u8>, cp: seq<u8>, tik: seq<u8>, tmd: seq<u8>,
                      cs: seq<TmdContent>, dir: map<string, seq<u8>>, r: Out, f: seq<u8>)
      returns (p: seq<u8>)
    requires forall k :: 0 <= k < |cs| ==> cs[k].Valid()
    requires forall k :: 0 <= k < |cs| ==> Name(IdOf(cs, k), false) in dir && SizeOf(cs, k) > 0
    requires FixedPart(true, capacity, initial, header, Some(ca), Some(xs), Some(cp), Some(tik), Some(tmd)) == Some(r)
    requires CiaFile(true, capacity, initial, header, Some(ca), Some(xs), Some(cp), Some(tik), Some(tmd), cs, dir) == Some(f)
    ensures LaidOut(r, header, ca + xs + cp, tik, tmd)
    ensures Payload(cs, dir, 0) == Some(p) && f == WriteAt(r.data, r.pos, p) && Holds(Out(f, r.pos), r.pos, p)
  {
    FixedPartLayout(capacity, initial, header, ca, xs, cp, tik, tmd, r);
    RunAsIntended(cs, dir, capacity, 0, r);
    IntendedRunAppendsPayload(cs, dir, capacity, 0, r);
    p := Payload(cs, dir, 0).value;
    if |p| > 0 {
      WriteAtReadsBack(r.data, r.pos, p);
    }
  }

  /** A CIA file written to an empty file, from chunks that are all there
      and a TMD that is not empty, and contents that all have their `%08x`
      names and are not empty, byte for byte: the fixed part with zeros
      between its sections, then, when there are content bytes, zeros up to
      the contents offset and the contents one after the other. With no
      content bytes the file ends at the TMD's end: the last alignment only
      moves the position. */
  lemma CiaFileBytes(capacity: nat, header: seq<u8>,
                     ca: seq<u8>, xs: seq<u8>, cp: seq<u8>, tik: seq<u8>, tmd: seq<u8>,
                     cs: seq<TmdContent>, dir: map<string, seq<u8>>, f: seq<u8>)
      returns (p: seq<u8>)
    requires forall k :: 0 <= k < |cs| ==> cs[k].Valid()
    requires forall k :: 0 <= k < |cs| ==> Name(IdOf(cs, k), false) in dir && SizeOf(cs, k) > 0
    requires |tmd| > 0
    requires CiaFile(true, capacity, [], header, Some(ca), Some(xs), Some(cp), Some(tik), Some(tmd), cs, dir) == Some(f)
    ensures Payload(cs, dir, 0) == Some(p)
    ensures var chain := ca + xs + cp;
      var at := OffsetsOf(header, chain, tik, tmd);
      f == header + Zeros(at.certs - |header|) + chain + Zeros(at.tik - at.certs - |chain|) +
           tik + Zeros(at.tmd - at.tik - |tik|) + tmd +
           (if |p| == 0 then [] else Zeros(at.contents - at.tmd - |tmd|) + p)
  {
    var r := FixedPart(true, capacity, [], header, Some(ca), Some(xs), Some(cp), Some(tik), Some(tmd)).value;
    p := CiaFileLayout(capacity, [], header, ca, xs, cp, tik, tmd, cs, dir, r, f);
    FixedPartBytes(capacity, header, ca, xs, cp, tik, tmd, r);
    PayloadAfterFixedPart(header, ca + xs + cp, tik, tmd, r, p);
  }

  /** The payload written at the contents offset of a fixed part that ends
      at the TMD's end. */
  lemma PayloadAfterFixedPart(header: seq<u8>, chain: seq<u8>, tik: seq<u8>, tmd: seq<u8>, r: Out, p: seq<u8>)
    requires var at := OffsetsOf(header, chain, tik, tmd);
      r.pos == at.contents && |r.data| == at.tmd + |tmd|
    ensures var at := OffsetsOf(header, chain, tik, tmd);
      WriteAt(r.data, r.pos, p) == r.data + (if |p| == 0 then [] else Zeros(at.contents - at.tmd - |tmd|) + p)
  {
    if |p| > 0 {
      WriteAtEnd(r.data, r.pos, p);
    } else {
      assert r.data + [] == r.data;
    }
  }

  // ---------------------------------------------------------------------
  // writeCIA

  /** The name lookup of one round: `fopen` of the `%08x` name and, when no
      file has it, the upper-casing loop, which counts with the content
      loop's own counter, then `fopen` of the result. Returns the file found
      and the value the shared counter holds afterwards. */
  method OpenContent(id: nat, i: nat, dir: map<string, seq<u8>>) returns (file: Option<seq<u8>>, counter: nat)
    ensures Lookup(id, i, dir) == if file.Some? then Some((file.value, counter)) else None
  {
    var name := Name(id, false);
    if name in dir {
      return Some(dir[name]), i;
    }
    ghost var lower := name;
    counter := 0;
    while counter < 16
      invariant counter <= 16 && |name| == 8
      invariant forall k :: 0 <= k < 8 ==> name[k] == if k < counter then ToUpper(lower[k]) else lower[k]
    {
      if counter < |name| && 'a' <= name[counter] <= 'z' {
        name := name[counter := ToUpper(name[counter])];
      }
      counter := counter + 1;
    }
    assert name == Upper(lower);
    file := if name in dir then Some(dir[name]) else None;
  }

  /** The block loop of one round: while more than a block is left, a full
      block is read from the content file and written, then the rest in one
      `fread` and one `fwrite`, which fail when nothing is left. */
  method CopyContent(src: Stream, dst: Stream, buf: array<u8>, size: nat) returns (ok: bool)
    requires src != dst && buf.Length == BLOCK_SIZE && src.pos == 0
    modifies buf, src`pos, dst`data, dst`pos
    ensures ok == (0 < size <= |src.data| && old(dst.pos) + size <= dst.capacity)
    ensures ok ==> dst.pos == old(dst.pos) + size && dst.data == WriteAt(old(dst.data), old(dst.pos), src.data[..size])
  {
    ghost var p0, d0 := dst.pos, dst.data;
    var left;
    ok, left := FullBlocks(src, dst, buf, size);
    if !ok {
      return;
    }
    ok := Transfer(src, dst, buf, left, d0, p0, 0, size - left);
    if ok {
      assert Window(src.data, 0, size) == src.data[..size];
    }
  }

  /** `chunkAppendToFile(c, fp)` as one piece of the fixed part: the output
      moves on as `Advance` says, and the chunk's bytes stay what they were. */
  method Append(c: Chunk, fp: Stream, scratch: CopyBuffer, ghost o: Out) returns (ok: bool)
    requires c.file != null && c.file != fp && scratch.buf.Length == BUFFER_SIZE
    requires o == Out(fp.data, fp.pos)
    modifies c.file`pos, fp`data, fp`pos, scratch.buf
    ensures c.Contents() == old(c.Contents())
    ensures var r := Advance(o, PieceOf(c.Contents()), fp.capacity);
      ok == r.Some? && (ok ==> r.value == Out(fp.data, fp.pos))
  {
    ok := c.AppendTo(fp, scratch);
  }

  /** The header writeCIA builds from the two contexts, as its bytes in the file. */
  function HeaderOf(tik: TikCtx, tmd: TmdCtx): (b: seq<u8>)
    requires forall k :: 0 <= k < |tmd.content| ==> tmd.content[k].Valid()
    reads tik, tmd, tik.caCert, tik.xsCert, tmd.cpCert, tik.headerChunk, tmd.headerChunk
    ensures |b| == CIA_HDR_SIZE
  {
    Encode(HeaderFor(tik.caCert.size, tik.xsCert.size, tmd.cpCert.size,
                     tik.headerChunk.size, tmd.headerChunk.size, tmd.content))
  }

  /** The five chunks writeCIA appends all lie in files other than the output. */
  predicate ChunksApart(tik: TikCtx, tmd: TmdCtx, fp: Stream)
    reads tik, tmd, tik.caCert, tik.xsCert, tmd.cpCert, tik.headerChunk, tmd.headerChunk
  {
    tik.caCert.file != null && tik.caCert.file != fp &&
    tik.xsCert.file != null && tik.xsCert.file != fp &&
    tmd.cpCert.file != null && tmd.cpCert.file != fp &&
    tik.headerChunk.file != null && tik.headerChunk.file != fp &&
    tmd.headerChunk.file != null && tmd.headerChunk.file != fp
  }

  /** A chunk whose fields and whose file's bytes are as they were still
      has the bytes it had: moving the file's position does not change them. */
  twostate lemma ContentsKept(c: Chunk)
    requires c.file != null && unchanged(c) && unchanged(c.file`data)
    ensures c.Contents() == old(c.Contents())
  {
  }

  /** The header stage on a seekable output: the header written at the
      start, the position aligned after it. */
  lemma HeaderStageValue(capacity: nat, initial: seq<u8>, header: seq<u8>)
    ensures var r := HeaderStage(true, capacity, initial, header);
      r.Some? <==> (|header| == 0 || |header| <= capacity)
    ensures |header| > 0 && |header| <= capacity ==>
      HeaderStage(true, capacity, initial, header) == Some(Out(WriteAt(initial, 0, header), AlignUp(|header|, 64)))
  {
  }

  /** buildCIAHdr into a fresh header, as the bytes `fwrite` takes from its
      memory: on either host they are the header's little-endian encoding. */
  method BuildHeader(h: Host, tik: TikCtx, tmd: TmdCtx) returns (bytes: seq<u8>)
    requires tmd.contentCnt as nat == |tmd.content| && forall k :: 0 <= k < |tmd.content| ==> tmd.content[k].Valid()
    ensures bytes == HeaderOf(tik, tmd)
  {
    var cia := new CiaHdr();
    cia.Build(h, tik, tmd);
    bytes := Memory(h, cia.Fields());
    MemoryOfToLe(h, HeaderFor(tik.caCert.size, tik.xsCert.size, tmd.cpCert.size,
                              tik.headerChunk.size, tmd.headerChunk.size, tmd.content));
  }

  /** The start of writeCIA: the header built, the file rewound, the header
      written, and the position aligned to 64 bytes. */
  method WriteHeader(h: Host, tmd: TmdCtx, tik: TikCtx, fp: Stream, ghost header: seq<u8>) returns (ok: bool)
    requires tmd.contentCnt as nat == |tmd.content| && forall k :: 0 <= k < |tmd.content| ==> tmd.content[k].Valid()
    requires header == HeaderOf(tik, tmd)
    modifies fp`data, fp`pos
    ensures var r := HeaderStage(fp.seekable, fp.capacity, old(fp.data), header);
      ok == r.Some? && (ok ==> r.value == Out(fp.data, fp.pos))
  {
    HeaderStageValue(fp.capacity, fp.data, header);
    var bytes := BuildHeader(h, tik, tmd);
    ok := fp.SeekSet(0);
    if !ok {
      return;
    }
    ok := fp.Write(bytes);
    if !ok {
      return;
    }
    SixtyFourIsPowerOfTwo();
    var _ := AlignFilePointer(fp, 64);
  }

  /** `chunkAppendToFile` of one chunk, then `alignFilePointer(fp, 64)`. */
  method WriteChunk(c: Chunk, fp: Stream, scratch: CopyBuffer, ghost bytes: Option<seq<u8>>) returns (ok: bool)
    requires c.file != null && c.file != fp && scratch.buf.Length == BUFFER_SIZE && fp.seekable
    requires c.Contents() == bytes
    modifies c.file`pos, fp`data, fp`pos, scratch.buf
    ensures var r := ChunkStage(Some(Out(old(fp.data), old(fp.pos))), bytes, fp.capacity);
      ok == r.Some? && (ok ==> r.value == Out(fp.data, fp.pos))
  {
    ok := Append(c, fp, scratch, Out(fp.data, fp.pos));
    if !ok {
      return;
    }
    SixtyFourIsPowerOfTwo();
    var _ := AlignFilePointer(fp, 64);
  }

  /** The certificate chain: the CA, XS and CP certificates appended back to
      back, then `alignFilePointer(fp, 64)`. */
  method WriteCerts(tmd: TmdCtx, tik: TikCtx, fp: Stream, scratch: CopyBuffer,
                    ghost ca: Option<seq<u8>>, ghost xs: Option<seq<u8>>, ghost cp: Option<seq<u8>>) returns (ok: bool)
    requires ChunksApart(tik, tmd, fp) && scratch.buf.Length == BUFFER_SIZE && fp.seekable
    requires tik.caCert.Contents() == ca && tik.xsCert.Contents() == xs && tmd.cpCert.Contents() == cp
    modifies fp`data, fp`pos, scratch.buf, tik.caCert.file`pos, tik.xsCert.file`pos, tmd.cpCert.file`pos
    ensures var r := CertStage(Some(Out(old(fp.data), old(fp.pos))), ca, xs, cp, fp.capacity);
      ok == r.Some? && (ok ==> r.value == Out(fp.data, fp.pos))
  {
    ghost var cap := fp.capacity;
    ghost var r := Some(Out(fp.data, fp.pos));
    ok := Append(tik.caCert, fp, scratch, r.value);
    r := Then(r, PieceOf(ca), cap);
    if !ok {
      return;
    }
    ContentsKept(tik.xsCert);
    ok := Append(tik.xsCert, fp, scratch, r.value);
    r := Then(r, PieceOf(xs), cap);
    if !ok {
      return;
    }
    ContentsKept(tmd.cpCert);
    ok := Append(tmd.cpCert, fp, scratch, r.value);
    r := Then(r, PieceOf(cp), cap);
    if !ok {
      return;
    }
    SixtyFourIsPowerOfTwo();
    var _ := AlignFilePointer(fp, 64);
  }

  /** The sections after the header: the certificate chain, the ticket and
      the TMD, each followed by alignment to 64 bytes. */
  method WriteSections(tmd: TmdCtx, tik: TikCtx, fp: Stream, scratch: CopyBuffer,
                       ghost ca: Option<seq<u8>>, ghost xs: Option<seq<u8>>, ghost cp: Option<seq<u8>>,
                       ghost tk: Option<seq<u8>>, ghost tm: Option<seq<u8>>) returns (ok: bool)
    requires ChunksApart(tik, tmd, fp) && scratch.buf.Length == BUFFER_SIZE && fp.seekable
    requires tik.caCert.Contents() == ca && tik.xsCert.Contents() == xs && tmd.cpCert.Contents() == cp
    requires tik.headerChunk.Contents() == tk && tmd.headerChunk.Contents() == tm
    modifies fp`data, fp`pos, scratch.buf
    modifies tik.caCert.file`pos, tik.xsCert.file`pos, tmd.cpCert.file`pos, tik.headerChunk.file`pos, tmd.headerChunk.file`pos
    ensures var r := ChunkStage(ChunkStage(CertStage(Some(Out(old(fp.data), old(fp.pos))), ca, xs, cp, fp.capacity),
                                           tk, fp.capacity), tm, fp.capacity);
      ok == r.Some? && (ok ==> r.value == Out(fp.data, fp.pos))
  {
    ghost var certs := CertStage(Some(Out(fp.data, fp.pos)), ca, xs, cp, fp.capacity);
    ok := WriteCerts(tmd, tik, fp, scratch, ca, xs, cp);
    if !ok {
      return;
    }
    ghost var ticket := ChunkStage(certs, tk, fp.capacity);
    ContentsKept(tik.headerChunk);
    ok := WriteChunk(tik.headerChunk, fp, scratch, tk);
    if !ok {
      return;
    }
    ContentsKept(tmd.headerChunk);
    ok := WriteChunk(tmd.headerChunk, fp, scratch, tm);
  }

  /** One round of the loop once the file is found at an index inside the table. */
  lemma StepFound(cs: seq<TmdContent>, dir: map<string, seq<u8>>, capacity: nat, i: nat, o: Out,
                  file: seq<u8>, j: nat)
    requires i < |cs| && forall k :: 0 <= k < |cs| ==> cs[k].Valid()
    requires Lookup(IdOf(cs, i), i, dir) == Some((file, j)) && j < |cs|
    ensures var n := SizeOf(cs, j);
      Step(cs, dir, capacity, i, o) ==
        if 0 < n <= |file| && o.pos + n <= capacity then Some((j + 1, Put(o, file[..n]))) else None
  {
  }

  /** A round that goes through leaves the rest of the loop to do. */
  lemma RunOn(cs: seq<TmdContent>, dir: map<string, seq<u8>>, capacity: nat, i: nat, o: Out, j: nat, o': Out)
    requires i < |cs| && forall k :: 0 <= k < |cs| ==> cs[k].Valid()
    requires Step(cs, dir, capacity, i, o) == Some((j, o'))
    ensures j <= |cs| && Run(cs, dir, capacity, i, o) == Run(cs, dir, capacity, j, o')
  {
  }

  /** One round of the content loop: the file of content `i` opened by its
      name, the size read from the (possibly replaced) index, and that many
      bytes copied to the output; returns the index the loop goes on at. */
  method CopyRound(h: Host, cs: seq<TmdContent>, i: nat, fp: Stream, buf: array<u8>, dir: map<string, seq<u8>>)
      returns (ok: bool, next: nat)
    requires i < |cs| && forall k :: 0 <= k < |cs| ==> cs[k].Valid()
    requires buf.Length == BLOCK_SIZE
    modifies fp`data, fp`pos, buf
    ensures var st := Step(cs, dir, fp.capacity, i, Out(old(fp.data), old(fp.pos)));
      ok == st.Some? && (ok ==> st.value == (next, Out(fp.data, fp.pos)))
  {
    ghost var o := Out(fp.data, fp.pos);
    BeToHostOfLoad(h, cs[i].id);
    var id := BeToHost(h, 4, Load(h, cs[i].id));
    var file, j := OpenContent(id, i, dir);
    if file.None? {
      return false, 0;
    }
    if j >= |cs| {
      // content[16] lies past the table
      return false, 0;
    }
    StepFound(cs, dir, fp.capacity, i, o, file.value, j);
    BeToHostOfLoad(h, cs[j].size);
    var size := BeToHost(h, 8, Load(h, cs[j].size));
    assert size == SizeOf(cs, j);
    var content := new Stream.Open(file.value, true, |file.value|);
    ok := CopyContent(content, fp, buf, size);
    assert content.data == file.value;
    if ok {
      assert Out(fp.data, fp.pos) == Put(o, file.value[..size]);
    }
    next := j + 1;
  }

  /** The content loop of writeCIA: for each descriptor, open its file under
      one of its two names, then copy the number of bytes the (possibly
      replaced) index's descriptor gives. `fclose` of a content file is not
      modelled. */
  method WriteContents(h: Host, tmd: TmdCtx, fp: Stream, dir: map<string, seq<u8>>) returns (ok: bool)
    requires tmd.contentCnt as nat == |tmd.content| && forall k :: 0 <= k < |tmd.content| ==> tmd.content[k].Valid()
    modifies fp`data, fp`pos
    ensures var r := Run(tmd.content, dir, fp.capacity, 0, Out(old(fp.data), old(fp.pos)));
      ok == r.Some? && (ok ==> r.value == Out(fp.data, fp.pos))
  {
    var cs, count := tmd.content, tmd.contentCnt as nat;
    var buf := new u8[BLOCK_SIZE];
    ghost var cap, o0 := fp.capacity, Out(fp.data, fp.pos);
    var i: nat := 0;
    while i < count
      invariant i <= |cs|
      invariant Run(cs, dir, cap, 0, o0) == Run(cs, dir, cap, i, Out(fp.data, fp.pos))
      decreases Room(fp.pos, cap)
    {
      ghost var o := Out(fp.data, fp.pos);
      var next;
      ok, next := CopyRound(h, cs, i, fp, buf, dir);
      if !ok {
        return;
      }
      RunOn(cs, dir, cap, i, o, next, Out(fp.data, fp.pos));
      i := next;
    }
    ok := true;
  }

  /** The whole file in two parts: the fixed part, then the content loop from it. */
  lemma CiaFileOfParts(seekable: bool, capacity: nat, initial: seq<u8>, header: seq<u8>,
                       ca: Option<seq<u8>>, xs: Option<seq<u8>>, cp: Option<seq<u8>>,
                       tik: Option<seq<u8>>, tmd: Option<seq<u8>>,
                       cs: seq<TmdContent>, dir: map<string, seq<u8>>, fixed: Option<Out>)
    requires forall k :: 0 <= k < |cs| ==> cs[k].Valid()
    requires fixed == FixedPart(seekable, capacity, initial, header, ca, xs, cp, tik, tmd)
    ensures var f := CiaFile(seekable, capacity, initial, header, ca, xs, cp, tik, tmd, cs, dir);
      f.Some? <==> (fixed.Some? && Run(cs, dir, capacity, 0, fixed.value).Some?)
    ensures var f := CiaFile(seekable, capacity, initial, header, ca, xs, cp, tik, tmd, cs, dir);
      f.Some? ==> f.value == Run(cs, dir, capacity, 0, fixed.value).value.data
  {
  }

  /** writeCIA up to its content loop. The chunks hold `ca`, `xs`, `cp`,
      `tk` and `tm` when it starts. */
  method WriteFixedPart(h: Host, tmd: TmdCtx, tik: TikCtx, fp: Stream, scratch: CopyBuffer, ghost header: seq<u8>,
                        ghost ca: Option<seq<u8>>, ghost xs: Option<seq<u8>>, ghost cp: Option<seq<u8>>,
                        ghost tk: Option<seq<u8>>, ghost tm: Option<seq<u8>>) returns (ok: bool)
    requires tmd.contentCnt as nat == |tmd.content| && forall k :: 0 <= k < |tmd.content| ==> tmd.content[k].Valid()
    requires ChunksApart(tik, tmd, fp) && scratch.buf.Length == BUFFER_SIZE && header == HeaderOf(tik, tmd)
    requires tik.caCert.Contents() == ca && tik.xsCert.Contents() == xs && tmd.cpCert.Contents() == cp
    requires tik.headerChunk.Contents() == tk && tmd.headerChunk.Contents() == tm
    modifies fp`data, fp`pos, scratch.buf
    modifies tik.caCert.file`pos, tik.xsCert.file`pos, tmd.cpCert.file`pos, tik.headerChunk.file`pos, tmd.headerChunk.file`pos
    ensures var r := FixedPart(fp.seekable, fp.capacity, old(fp.data), header, ca, xs, cp, tk, tm);
      ok == r.Some? && (ok ==> r.value == Out(fp.data, fp.pos))
  {
    ok := WriteHeader(h, tmd, tik, fp, header);
    if !ok {
      return;
    }
    ContentsKept(tik.caCert);
    ContentsKept(tik.xsCert);
    ContentsKept(tmd.cpCert);
    ContentsKept(tik.headerChunk);
    ContentsKept(tmd.headerChunk);
    ok := WriteSections(tmd, tik, fp, scratch, ca, xs, cp, tk, tm);
  }

  /** A write that reports success exactly when the model says the file
      exists, and then leaves exactly that file. */
  ghost predicate Outcome(ok: bool, data: seq<u8>, file: Option<seq<u8>>)
  {
    ok == file.Some? && (ok ==> data == file.value)
  }

  /** writeCIA: the file it leaves behind is `CiaFile` of the output's old
      bytes, the header built from the two contexts, the chunks' bytes and
      the content files in `dir`; it fails exactly when that is None.
      `fclose(fp)` is taken to succeed. */
  method WriteCia(h: Host, tmd: TmdCtx, tik: TikCtx, fp: Stream, dir: map<string, seq<u8>>, scratch: CopyBuffer)
    returns (ok: bool)
    requires tmd.contentCnt as nat == |tmd.content| && forall k :: 0 <= k < |tmd.content| ==> tmd.content[k].Valid()
    requires ChunksApart(tik, tmd, fp) && scratch.buf.Length == BUFFER_SIZE
    modifies fp`data, fp`pos, scratch.buf
    modifies tik.caCert.file`pos, tik.xsCert.file`pos, tmd.cpCert.file`pos, tik.headerChunk.file`pos, tmd.headerChunk.file`pos
    ensures Outcome(ok, fp.data, CiaFile(fp.seekable, fp.capacity, old(fp.data), old(HeaderOf(tik, tmd)),
                                         old(tik.caCert.Contents()), old(tik.xsCert.Contents()), old(tmd.cpCert.Contents()),
                                         old(tik.headerChunk.Contents()), old(tmd.headerChunk.Contents()), old(tmd.content), dir))
  {
    ghost var ca, xs, cp := tik.caCert.Contents(), tik.xsCert.Contents(), tmd.cpCert.Contents();
    ghost var tk, tm := tik.headerChunk.Contents(), tmd.headerChunk.Contents();
    ghost var header, cs := HeaderOf(tik, tmd), tmd.content;
    ghost var fixed := FixedPart(fp.seekable, fp.capacity, fp.data, header, ca, xs, cp, tk, tm);
    CiaFileOfParts(fp.seekable, fp.capacity, fp.data, header, ca, xs, cp, tk, tm, cs, dir, fixed);
    ok := WriteFixedPart(h, tmd, tik, fp, scratch, header, ca, xs, cp, tk, tm);
    if !ok {
      return;
    }
    ok := WriteContents(h, tmd, fp, dir);
  }
}
