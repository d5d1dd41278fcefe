// The part of C's stdio make_cdn_cia relies on, over a file held as a byte
// sequence with a cursor: ftell, fseek (SEEK_SET, SEEK_CUR), and fread /
// fwrite of one item of n bytes. A seek may go past the end of the file;
// a later write fills the gap with zero bytes. A file can grow only up to
// the space its device has (`capacity`), and a stream that is not seekable
// (a pipe) fails ftell and fseek.

module Stdio {
  import opened Endian

  function Min(a: int, b: int): (r: int) { if a <= b then a else b }
  function Max(a: int, b: int): (r: int) { if a <= b then b else a }

  function Zeros(n: nat): (z: seq<u8>)
    ensures |z| == n && forall k :: 0 <= k < n ==> z[k] == 0
  {
    seq(n, _ => 0)
  }

  /** The file `data` after `bytes` are written at position `pos`. Bytes
      between the old end of the file and `pos` read as zero. */
  function WriteAt(data: seq<u8>, pos: nat, bytes: seq<u8>): (r: seq<u8>)
    ensures |bytes| == 0 ==> r == data
    ensures |bytes| > 0 ==> |r| == Max(|data|, pos + |bytes|)
  {
    if |bytes| == 0 then data
    else if |data| < pos then data + Zeros(pos - |data|) + bytes
    else if |data| <= pos + |bytes| then data[..pos] + bytes
    else data[..pos] + bytes + data[pos + |bytes|..]
  }

  /** The written range reads back as the bytes written. */
  lemma WriteAtReadsBack(data: seq<u8>, pos: nat, bytes: seq<u8>)
    requires |bytes| > 0
    ensures WriteAt(data, pos, bytes)[pos..pos + |bytes|] == bytes
  {
  }

  /** Everything outside the written range keeps its old byte, or zero where the file grew. */
  lemma WriteAtElsewhere(data: seq<u8>, pos: nat, bytes: seq<u8>, k: nat)
    requires |bytes| > 0 && k < |WriteAt(data, pos, bytes)|
    requires k < pos || pos + |bytes| <= k
    ensures WriteAt(data, pos, bytes)[k] == if k < |data| then data[k] else 0
  {
  }

  /** Writing at or past the end of the file appends, after zero padding. */
  lemma {:induction false} WriteAtEnd(data: seq<u8>, pos: nat, bytes: seq<u8>)
    requires |data| <= pos && |bytes| > 0
    ensures WriteAt(data, pos, bytes) == data + Zeros(pos - |data|) + bytes
  {
    var r := WriteAt(data, pos, bytes);
    var e := data + Zeros(pos - |data|) + bytes;
    assert |r| == |e|;
    forall k | 0 <= k < |r|
      ensures r[k] == e[k]
    {
      if k < |data| {
      } else if k < pos {
      } else {
        assert e[k] == bytes[k - pos];
      }
    }
  }

  /** Byte `k` of a file after a write: the written byte, the old byte, or
      zero in the gap a write past the end leaves. */
  lemma WriteAtIndex(data: seq<u8>, pos: nat, bytes: seq<u8>, k: nat)
    requires |bytes| > 0 && k < Max(|data|, pos + |bytes|)
    ensures k < |WriteAt(data, pos, bytes)|
    ensures WriteAt(data, pos, bytes)[k] ==
      if pos <= k < pos + |bytes| then bytes[k - pos] else if k < |data| then data[k] else 0
  {
  }

  /** Byte `k` of two writes back to back is byte `k` of one write of both. */
  lemma WriteAtTwiceAt(data: seq<u8>, pos: nat, a: seq<u8>, b: seq<u8>, k: nat)
    requires |a| > 0 && |b| > 0 && k < Max(|data|, pos + |a| + |b|)
    ensures k < |WriteAt(WriteAt(data, pos, a), pos + |a|, b)|
    ensures WriteAt(WriteAt(data, pos, a), pos + |a|, b)[k] == WriteAt(data, pos, a + b)[k]
  {
    var w := WriteAt(data, pos, a);
    assert |w| == Max(|data|, pos + |a|);
    WriteAtIndex(w, pos + |a|, b, k);
    WriteAtIndex(data, pos, a + b, k);
    if k < pos + |a| {
      WriteAtIndex(data, pos, a, k);
      if pos <= k {
        assert (a + b)[k - pos] == a[k - pos];
      }
    } else if k < pos + |a| + |b| {
      assert (a + b)[k - pos] == b[k - pos - |a|];
    } else if k < |w| {
      WriteAtIndex(data, pos, a, k);
    }
  }

  /** Two byte sequences of the same length that agree at every index are equal. */
  lemma SameBytes(r: seq<u8>, e: seq<u8>)
    requires |r| == |e| && forall k :: 0 <= k < |r| ==> r[k] == e[k]
    ensures r == e
  {
  }

  /** Two writes back to back are one write of both. */
  lemma {:induction false} WriteAtTwice(data: seq<u8>, pos: nat, a: seq<u8>, b: seq<u8>)
    ensures WriteAt(WriteAt(data, pos, a), pos + |a|, b) == WriteAt(data, pos, a + b)
  {
    if |a| == 0 {
      assert a + b == b;
    } else if |b| > 0 {
      var r := WriteAt(WriteAt(data, pos, a), pos + |a|, b);
      var e := WriteAt(data, pos, a + b);
      var n := Max(|data|, pos + |a| + |b|);
      assert |r| == n == |e|;
      forall k | 0 <= k < n
        ensures r[k] == e[k]
      {
        WriteAtTwiceAt(data, pos, a, b, k);
      }
      SameBytes(r, e);
    }
  }

  /** A range of a range of `a` is a range of `a`. */
  lemma SliceOfSlice(a: seq<u8>, s: nat, n: nat, i: nat, j: nat)
    requires s + n <= |a| && i <= j <= n
    ensures a[s..s + n][i..j] == a[s + i..s + j]
  {
    var l, r := a[s..s + n][i..j], a[s + i..s + j];
    assert |l| == |r|;
    forall k | 0 <= k < |l|
      ensures l[k] == r[k]
    {
      assert l[k] == a[s..s + n][i + k] == a[s + i + k];
    }
  }

  /** Bytes a transfer of `n` bytes at `pos` gets through when the file (for
      a read) or the device (for a write) ends at `limit`. */
  function Transferable(limit: nat, pos: nat, n: nat): (r: nat)
  {
    if n == 0 then 0 else Min(n, Max(0, limit - pos))
  }

  class Stream {
    var data: seq<u8>
    var pos: nat
    const seekable: bool
    const capacity: nat

    /** `fopen`: a stream over `contents`, positioned at the start. */
    constructor Open(contents: seq<u8>, seekable: bool, capacity: nat)
      ensures data == contents && pos == 0
      ensures this.seekable == seekable && this.capacity == capacity
    {
      data, pos := contents, 0;
      this.seekable, this.capacity := seekable, capacity;
    }

    /** `ftell`: the position, or -1 on a stream that cannot report one. */
    method Tell() returns (p: int)
      ensures p == if seekable then pos else -1
    {
      p := if seekable then pos else -1;
    }

    /** `fseek(f, offset, SEEK_SET) == 0` */
    method SeekSet(offset: int) returns (ok: bool)
      modifies this`pos
      ensures ok == (seekable && offset >= 0)
      ensures pos == if ok then offset else old(pos)
    {
      ok := seekable && offset >= 0;
      if ok {
        pos := offset;
      }
    }

    /** `fseek(f, delta, SEEK_CUR) == 0` */
    method SeekCur(delta: int) returns (ok: bool)
      modifies this`pos
      ensures ok == (seekable && old(pos) + delta >= 0)
      ensures pos == if ok then old(pos) + delta else old(pos)
    {
      ok := seekable && pos + delta >= 0;
      if ok {
        pos := pos + delta;
      }
    }

    /** `fread(buf, n, 1, f) == 1`: reads what is there, up to n bytes, and
        succeeds only when all n were there (never when n is 0). */
    method Read(buf: array<u8>, n: nat) returns (ok: bool)
      requires n <= buf.Length
      modifies this`pos, buf
      ensures ok == (n > 0 && old(pos) + n <= |data|)
      ensures ok ==> pos == old(pos) + n && buf[..n] == data[old(pos)..old(pos) + n]
      ensures var k := Transferable(|data|, old(pos), n);
        pos == old(pos) + k &&
        (k > 0 ==> buf[..k] == data[old(pos)..old(pos) + k]) &&
        buf[k..] == old(buf[k..])
    {
      var k := Transferable(|data|, pos, n);
      forall j | 0 <= j < k {
        buf[j] := data[pos + j];
      }
      pos := pos + k;
      ok := n > 0 && k == n;
    }

    /** `fwrite(bytes, |bytes|, 1, f) == 1`: writes what fits on the device,
        and succeeds only when all of it did (never for no bytes). */
    method Write(bytes: seq<u8>) returns (ok: bool)
      modifies this`data, this`pos
      ensures ok == (|bytes| > 0 && old(pos) + |bytes| <= capacity)
      ensures ok ==> pos == old(pos) + |bytes| && data == WriteAt(old(data), old(pos), bytes)
      ensures var k := Transferable(capacity, old(pos), |bytes|);
        pos == old(pos) + k &&
        data == WriteAt(old(data), old(pos), bytes[..k])
    {
      var k := Transferable(capacity, pos, |bytes|);
      data := WriteAt(data, pos, bytes[..k]);
      pos := pos + k;
      ok := |bytes| > 0 && k == |bytes|;
    }
  }
}
