// chunkio.c: byte ranges of an open file ("chunks"), copying a chunk into
// another file through a reusable scratch buffer, and moving a file's
// position forward to a power-of-two boundary.

module ChunkIo {
  import opened Endian
  import opened Stdio
  import opened Layout

  /** Size of the scratch buffer a copy goes through: 1 MiB. */
  const BUFFER_SIZE: nat := 1024 * 1024

  /** `size_t` values are taken modulo 2^64. */
  const SIZE_T_MODULUS: nat := 0x1_0000_0000_0000_0000

  predicate IsPowerOfTwo(n: nat)
  {
    n == 1 || (n > 1 && n % 2 == 0 && IsPowerOfTwo(n / 2))
  }

  lemma MulAtLeast(x: nat, a: nat)
    requires x >= 1
    ensures x * a >= a
  {
  }

  /** Quotient and remainder are the only ones: `p == q * a + r` with `r < a` fixes both. */
  lemma DivModUnique(p: nat, a: nat, q: nat, r: nat)
    requires a > 0 && r < a && p == q * a + r
    ensures p / a == q && p % a == r
  {
    var q', r' := p / a, p % a;
    assert p == q' * a + r';
    if q > q' {
      assert (q - q') * a == q * a - q' * a;
      MulAtLeast(q - q', a);
    } else if q < q' {
      assert (q' - q) * a == q' * a - q * a;
      MulAtLeast(q' - q, a);
    }
  }

  /** The position `alignFilePointer` moves to: `p` rounded up to a multiple of `a`. */
  function AlignUp(p: nat, a: nat): (r: nat)
    requires a > 0
    ensures r % a == 0 && p <= r < p + a
  {
    if p % a == 0 then p
    else
      var q := p / a;
      assert p == q * a + p % a;
      DivModUnique(q * a + a, a, q + 1, 0);
      p + (a - p % a)
  }

  /** No multiple of `a` lies between `p` and `AlignUp(p, a)`: it is the least one at or after `p`. */
  lemma AlignUpIsLeast(p: nat, a: nat, m: nat)
    requires a > 0 && p <= m && m % a == 0
    ensures AlignUp(p, a) <= m
  {
    var r := AlignUp(p, a);
    if m < r {
      var qm, qr := m / a, r / a;
      assert m == qm * a && r == qr * a;
      assert r - m == (qr - qm) * a;
      MulAtLeast(qr - qm, a);
    }
  }

  lemma SixtyFourIsPowerOfTwo()
    ensures IsPowerOfTwo(64)
  {
    assert IsPowerOfTwo(1) && IsPowerOfTwo(2) && IsPowerOfTwo(4);
    assert IsPowerOfTwo(8) && IsPowerOfTwo(16) && IsPowerOfTwo(32);
  }

  /** Aligning an aligned position changes nothing. */
  lemma AlignUpIdempotent(p: nat, a: nat)
    requires a > 0
    ensures AlignUp(AlignUp(p, a), a) == AlignUp(p, a)
    ensures p % a == 0 ==> AlignUp(p, a) == p
  {
  }

  /** `alignFilePointer`: moves `f` forward to the next multiple of
      `chunkSize`, which must be a power of two. The C code takes the
      remainder as `pos & (chunkSize - 1)`. A stream without a position
      reports -1, whose low bits are all set, so the seek is tried and fails
      unless `chunkSize` is 1. */
  method AlignFilePointer(f: Stream, chunkSize: nat) returns (ok: bool)
    requires IsPowerOfTwo(chunkSize)
    modifies f`pos
    ensures ok == (f.seekable || chunkSize == 1)
    ensures f.pos == if f.seekable then AlignUp(old(f.pos), chunkSize) else old(f.pos)
  {
    var p := f.Tell();
    var used := if p >= 0 then p % chunkSize else chunkSize - 1;
    if used != 0 {
      ok := f.SeekCur(chunkSize - used);
      return;
    }
    ok := true;
  }

  /** A byte range [offset, offset + size) of `file`, recorded by marking
      the file's position before and after reading it. */
  class Chunk {
    var file: Stream?
    var offset: int
    var size: u64

    /** A chunk not yet marked. */
    constructor ()
      ensures file == null && offset == 0 && size == 0
    {
      file, offset, size := null, 0, 0;
    }

    /** The range lies inside its file. */
    predicate InFile()
      reads this, file
    {
      file != null && 0 <= offset && offset + size <= |file.data|
    }

    /** `chunkMarkStart`: the chunk starts at `f`'s position and is empty. */
    method MarkStart(f: Stream) returns (ok: bool)
      modifies this
      ensures ok == f.seekable
      ensures ok ==> file == f && offset == f.pos && size == 0
      ensures !ok ==> file == old(file) && offset == old(offset) && size == old(size)
    {
      var p := f.Tell();
      if p == -1 {
        return false;
      }
      file, offset, size := f, p, 0;
      return true;
    }

    /** `chunkMarkEnd`: the chunk ends at `f`'s position. The difference is
        stored as a `size_t`, so a position before the start wraps around. */
    method MarkEnd(f: Stream) returns (ok: bool)
      modifies this`size
      ensures ok == f.seekable
      ensures size == if ok then (f.pos - offset) % SIZE_T_MODULUS else old(size)
      ensures ok && offset <= f.pos < offset + SIZE_T_MODULUS ==> size == f.pos - offset
    {
      var p := f.Tell();
      if p == -1 {
        return false;
      }
      size := (p - offset) % SIZE_T_MODULUS;
      return true;
    }

    /** The bytes the chunk stands for, or None when its file cannot be
        positioned at the start or ends before the chunk does. */
    function Contents(): (c: Option<seq<u8>>)
      requires file != null
      reads this, file
      ensures c.Some? ==> |c.value| == size
      ensures c.Some? <==> file.seekable && offset >= 0 && (size == 0 || offset + size <= |file.data|)
    {
      if file.seekable && offset >= 0 && (size == 0 || offset + size <= |file.data|)
      then Some(Window(file.data, offset, size))
      else None
    }

    /** `chunkAppendToFile`: copies the chunk's bytes to `output` at its
        position, through `scratch`. */
    method AppendTo(output: Stream, scratch: CopyBuffer) returns (ok: bool)
      requires file != null && file != output && scratch.buf.Length == BUFFER_SIZE
      modifies file`pos, output`data, output`pos, scratch.buf
      ensures ok == (Contents().Some? && (size == 0 || old(output.pos) + size <= output.capacity))
      ensures ok ==> output.pos == old(output.pos) + size
      ensures ok ==> output.data == WriteAt(old(output.data), old(output.pos), Contents().value)
    {
      ok := file.SeekSet(offset);
      if !ok {
        return;
      }
      ok := scratch.FastClone(file, output, size);
    }
  }

  /** The `size` bytes of `data` from `offset` on (none when `size` is 0). */
  function Window(data: seq<u8>, offset: int, size: nat): (w: seq<u8>)
    requires size == 0 || (0 <= offset && offset + size <= |data|)
    ensures |w| == size
  {
    if size == 0 then [] else data[offset..offset + size]
  }

  /** The copy goes on from where it stopped: the window grows by the bytes just read. */
  lemma WindowGrows(data: seq<u8>, start: int, done: nat, n: nat)
    requires 0 <= start && start + done + n <= |data|
    ensures Window(data, start, done + n) == Window(data, start, done) + data[start + done..start + done + n]
  {
  }

  /** `d` is `d0` after the `done` bytes of `data` from `s0` on were written at `p0`. */
  ghost predicate Copied(d: seq<u8>, d0: seq<u8>, p0: nat, data: seq<u8>, s0: nat, done: nat)
  {
    (done == 0 || s0 + done <= |data|) && d == WriteAt(d0, p0, Window(data, s0, done))
  }

  /** Writing the next `n` bytes of `data` after a copy of `done` bytes is a copy of `done + n`. */
  lemma CopiedGrows(d: seq<u8>, d0: seq<u8>, p0: nat, data: seq<u8>, s0: nat, done: nat, n: nat, d': seq<u8>)
    requires Copied(d, d0, p0, data, s0, done) && s0 + done + n <= |data|
    requires d' == WriteAt(d, p0 + done, data[s0 + done..s0 + done + n])
    ensures Copied(d', d0, p0, data, s0, done + n)
  {
    WindowGrows(data, s0, done, n);
    WriteAtTwice(d0, p0, Window(data, s0, done), data[s0 + done..s0 + done + n]);
  }

  /** One `fread` of `n` bytes into `buf` followed by one `fwrite` of them;
      the write is not tried when the read comes up short, and a read of
      nothing counts as short. */
  method ReadWrite(src: Stream, dst: Stream, buf: array<u8>, n: nat) returns (ok: bool)
    requires src != dst && n <= buf.Length
    modifies buf, src`pos, dst`data, dst`pos
    ensures ok == (n > 0 && old(src.pos) + n <= |src.data| && old(dst.pos) + n <= dst.capacity)
    ensures ok ==> src.pos == old(src.pos) + n && dst.pos == old(dst.pos) + n
    ensures ok ==> dst.data == WriteAt(old(dst.data), old(dst.pos), src.data[old(src.pos)..old(src.pos) + n])
  {
    ok := src.Read(buf, n);
    if !ok {
      return;
    }
    ok := dst.Write(buf[..n]);
  }

  /** One transfer that continues a copy of `done` bytes by `n` more. */
  method Transfer(src: Stream, dst: Stream, buf: array<u8>, n: nat,
                  ghost d0: seq<u8>, ghost p0: nat, ghost s0: nat, ghost done: nat) returns (ok: bool)
    requires src != dst && n <= buf.Length
    requires src.pos == s0 + done && dst.pos == p0 + done
    requires Copied(dst.data, d0, p0, src.data, s0, done)
    modifies buf, src`pos, dst`data, dst`pos
    ensures ok == (n > 0 && s0 + done + n <= |src.data| && p0 + done + n <= dst.capacity)
    ensures ok ==> src.pos == s0 + done + n && dst.pos == p0 + done + n
    ensures ok ==> Copied(dst.data, d0, p0, src.data, s0, done + n)
  {
    ghost var before := dst.data;
    ok := ReadWrite(src, dst, buf, n);
    if ok {
      CopiedGrows(before, d0, p0, src.data, s0, done, n, dst.data);
    }
  }

  /** The block loop of a copy of `size` bytes: while more than a block
      (the buffer's length) is left, one block is read and written. What is
      left at the end, at most a block and nothing only when `size` is 0, is
      for the caller. */
  method FullBlocks(src: Stream, dst: Stream, buf: array<u8>, size: nat) returns (ok: bool, left: nat)
    requires src != dst && buf.Length > 0
    modifies buf, src`pos, dst`data, dst`pos
    ensures ok ==> left <= size && left <= buf.Length && (left == 0 ==> size == 0)
    ensures ok ==> src.pos + left == old(src.pos) + size && dst.pos + left == old(dst.pos) + size
    ensures ok ==> Copied(dst.data, old(dst.data), old(dst.pos), src.data, old(src.pos), size - left)
    ensures !ok ==> size > buf.Length && (old(src.pos) + size > |src.data| || old(dst.pos) + size > dst.capacity)
  {
    ghost var s0, p0, d0 := src.pos, dst.pos, dst.data;
    left := size;
    while left > buf.Length
      invariant left <= size && (left == 0 ==> size == 0)
      invariant src.pos == s0 + (size - left) && dst.pos == p0 + (size - left)
      invariant Copied(dst.data, d0, p0, src.data, s0, size - left)
    {
      ok := Transfer(src, dst, buf, buf.Length, d0, p0, s0, size - left);
      if !ok {
        return;
      }
      left := left - buf.Length;
    }
    ok := true;
  }

  /** A copy of `size` bytes: the full blocks, then what is left in one
      more transfer. Copying nothing succeeds without any I/O. */
  method CopyThrough(src: Stream, dst: Stream, buf: array<u8>, size: nat) returns (ok: bool)
    requires src != dst && buf.Length > 0
    modifies buf, src`pos, dst`data, dst`pos
    ensures ok == (size == 0 || (old(src.pos) + size <= |src.data| && old(dst.pos) + size <= dst.capacity))
    ensures ok ==> src.pos == old(src.pos) + size && dst.pos == old(dst.pos) + size
    ensures ok ==> Copied(dst.data, old(dst.data), old(dst.pos), src.data, old(src.pos), size)
  {
    ghost var s0, p0, d0 := src.pos, dst.pos, dst.data;
    var left;
    ok, left := FullBlocks(src, dst, buf, size);
    if !ok {
      return;
    }
    if left != 0 {
      ok := Transfer(src, dst, buf, left, d0, p0, s0, size - left);
    }
  }

  /** The copy buffer, owned by whoever copies (one global buffer in the C code). */
  class CopyBuffer {
    const buf: array<u8>

    constructor ()
      ensures fresh(buf) && buf.Length == BUFFER_SIZE
    {
      buf := new u8[BUFFER_SIZE];
    }

    /** `fastClone`: copies `remaining` bytes from `src`'s position to
        `dst`'s, a full buffer at a time while more than a buffer is left,
        then the rest. Copying nothing succeeds without any I/O. */
    method FastClone(src: Stream, dst: Stream, remaining: nat) returns (ok: bool)
      requires src != dst && buf.Length == BUFFER_SIZE
      modifies buf, src`pos, dst`data, dst`pos
      ensures ok == (remaining == 0 ||
                     (old(src.pos) + remaining <= |src.data| && old(dst.pos) + remaining <= dst.capacity))
      ensures ok ==> src.pos == old(src.pos) + remaining && dst.pos == old(dst.pos) + remaining
      ensures ok ==> dst.data == WriteAt(old(dst.data), old(dst.pos), Window(src.data, old(src.pos), remaining))
    {
      ok := CopyThrough(src, dst, buf, remaining);
    }
  }
}
