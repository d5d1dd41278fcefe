// Byte order: the integer widths of the program, byte-sequence values in
// both orders, the byte swap, and the host-order conversion macros of
// make_cdn_cia/ctr_endian.h as functions of the host's byte order.

module Endian {

  type u8 = x: int | 0 <= x < 0x100
  type u16 = x: int | 0 <= x < 0x1_0000
  type u32 = x: int | 0 <= x < 0x1_0000_0000
  type u64 = x: int | 0 <= x < 0x1_0000_0000_0000_0000

  /** Width in bytes of the integers the conversion macros apply to. */
  type Width = n: nat | n == 2 || n == 4 || n == 8 witness 2

  /** The byte order of the machine the program is compiled for. */
  datatype Host = LittleEndianHost | BigEndianHost

  function Pow256(n: nat): (r: nat)
    ensures r >= 1
  {
    if n == 0 then 1 else 256 * Pow256(n - 1)
  }

  /** The ranges of the 16-, 32- and 64-bit types. */
  lemma Pow256Values()
    ensures Pow256(2) == 0x1_0000 && Pow256(4) == 0x1_0000_0000
    ensures Pow256(8) == 0x1_0000_0000_0000_0000
  {
    assert Pow256(1) == 0x100 && Pow256(3) == 0x100_0000;
    assert Pow256(5) == 0x100_0000_0000 && Pow256(6) == 0x1_0000_0000_0000;
    assert Pow256(7) == 0x100_0000_0000_0000;
  }

  /** The number whose least significant byte comes first in `b`. */
  function LeValue(b: seq<u8>): (v: nat)
    ensures v < Pow256(|b|)
  {
    if b == [] then 0 else b[0] + 256 * LeValue(b[1..])
  }

  /** The number whose most significant byte comes first in `b`. */
  function BeValue(b: seq<u8>): (v: nat)
    ensures v < Pow256(|b|)
  {
    if b == [] then 0 else 256 * BeValue(b[..|b| - 1]) + b[|b| - 1]
  }

  /** The `n` low-order bytes of `x`, least significant first. */
  function LeBytes(x: nat, n: nat): (r: seq<u8>)
    ensures |r| == n
  {
    if n == 0 then [] else [x % 256] + LeBytes(x / 256, n - 1)
  }

  function Reverse<T>(s: seq<T>): (r: seq<T>)
    ensures |r| == |s|
  {
    if s == [] then [] else [s[|s| - 1]] + Reverse(s[..|s| - 1])
  }

  lemma {:induction false} ReverseAt<T>(s: seq<T>, k: nat)
    requires k < |s|
    ensures Reverse(s)[k] == s[|s| - 1 - k]
  {
    if k > 0 {
      ReverseAt(s[..|s| - 1], k - 1);
    }
  }

  lemma ReverseReverse<T>(s: seq<T>)
    ensures Reverse(Reverse(s)) == s
  {
    var r := Reverse(Reverse(s));
    forall k | 0 <= k < |s|
      ensures r[k] == s[k]
    {
      ReverseAt(Reverse(s), k);
      ReverseAt(s, |s| - 1 - k);
    }
  }

  lemma {:induction false} LeValueOfLeBytes(x: nat, n: nat)
    requires x < Pow256(n)
    ensures LeValue(LeBytes(x, n)) == x
  {
    if n > 0 {
      LeValueOfLeBytes(x / 256, n - 1);
      assert LeBytes(x, n)[1..] == LeBytes(x / 256, n - 1);
    }
  }

  lemma {:induction false} LeBytesOfLeValue(b: seq<u8>)
    ensures LeBytes(LeValue(b), |b|) == b
  {
    if b != [] {
      var v := LeValue(b);
      assert v % 256 == b[0] && v / 256 == LeValue(b[1..]);
      LeBytesOfLeValue(b[1..]);
    }
  }

  lemma {:induction false} BeValueIsReversedLeValue(b: seq<u8>)
    ensures BeValue(b) == LeValue(Reverse(b))
  {
    if b != [] {
      BeValueIsReversedLeValue(b[..|b| - 1]);
      assert Reverse(b)[1..] == Reverse(b[..|b| - 1]);
    }
  }

  /** `__builtin_bswap16/32/64`: the number whose bytes are those of `x` in reverse order. */
  function Bswap(w: Width, x: nat): (r: nat)
    requires x < Pow256(w)
    ensures r < Pow256(w)
  {
    BeValue(LeBytes(x, w))
  }

  /** Swapping twice gives the number back. */
  lemma BswapInvolution(w: Width, x: nat)
    requires x < Pow256(w)
    ensures Bswap(w, Bswap(w, x)) == x
  {
    var b := LeBytes(x, w);
    BeValueIsReversedLeValue(b);
    LeBytesOfLeValue(Reverse(b));
    BeValueIsReversedLeValue(Reverse(b));
    ReverseReverse(b);
    LeValueOfLeBytes(x, w);
  }

  // The conversion macros. On a big-endian host the `be` forms are the
  // identity and the `le` forms swap; on a little-endian host the reverse.

  /** `htobe16/32/64` */
  function HostToBe(h: Host, w: Width, x: nat): (r: nat)
    requires x < Pow256(w)
    ensures r < Pow256(w)
  {
    if h.LittleEndianHost? then Bswap(w, x) else x
  }

  /** `be16toh/32/64`: the same byte swap as `htobeNN`, applied in the
      other direction; a swap is its own inverse. */
  function BeToHost(h: Host, w: Width, x: nat): (r: nat)
    requires x < Pow256(w)
    ensures r < Pow256(w)
  {
    HostToBe(h, w, x)
  }

  /** `htole16/32/64` */
  function HostToLe(h: Host, w: Width, x: nat): (r: nat)
    requires x < Pow256(w)
    ensures r < Pow256(w)
  {
    if h.BigEndianHost? then Bswap(w, x) else x
  }

  /** `le16toh/32/64`: the same byte swap as `htoleNN`. */
  function LeToHost(h: Host, w: Width, x: nat): (r: nat)
    requires x < Pow256(w)
    ensures r < Pow256(w)
  {
    HostToLe(h, w, x)
  }

  /** On a little-endian host the `le` conversions change nothing. */
  lemma LittleEndianLeIsIdentity(w: Width, x: nat)
    requires x < Pow256(w)
    ensures HostToLe(LittleEndianHost, w, x) == x && LeToHost(LittleEndianHost, w, x) == x
  {
  }

  /** On a big-endian host the `be` conversions change nothing and the `le` ones swap. */
  lemma BigEndianBeIsIdentity(w: Width, x: nat)
    requires x < Pow256(w)
    ensures HostToBe(BigEndianHost, w, x) == x && BeToHost(BigEndianHost, w, x) == x
    ensures HostToLe(BigEndianHost, w, x) == Bswap(w, x) && LeToHost(BigEndianHost, w, x) == Bswap(w, x)
  {
  }

  /** On either host, converting to big-endian order and back gives the number back. */
  lemma BeRoundTrip(h: Host, w: Width, x: nat)
    requires x < Pow256(w)
    ensures BeToHost(h, w, HostToBe(h, w, x)) == x
  {
    if h.LittleEndianHost? {
      BswapInvolution(w, x);
    }
  }

  /** On either host, converting to little-endian order and back gives the number back. */
  lemma LeRoundTrip(h: Host, w: Width, x: nat)
    requires x < Pow256(w)
    ensures LeToHost(h, w, HostToLe(h, w, x)) == x
  {
    if h.BigEndianHost? {
      BswapInvolution(w, x);
    }
  }

  // Raw memory: the integer a host sees in memory bytes, and the bytes it
  // keeps for an integer. `fread` into an integer variable and `fwrite` of
  // one move these bytes unchanged.

  function Load(h: Host, b: seq<u8>): (v: nat)
    ensures v < Pow256(|b|)
  {
    if h.LittleEndianHost? then LeValue(b) else BeValue(b)
  }

  function Store(h: Host, x: nat, n: nat): (b: seq<u8>)
    ensures |b| == n
  {
    if h.LittleEndianHost? then LeBytes(x, n) else Reverse(LeBytes(x, n))
  }

  lemma LoadOfStore(h: Host, x: nat, n: nat)
    requires x < Pow256(n)
    ensures Load(h, Store(h, x, n)) == x
  {
    LeValueOfLeBytes(x, n);
    if h.BigEndianHost? {
      BeValueIsReversedLeValue(Reverse(LeBytes(x, n)));
      ReverseReverse(LeBytes(x, n));
    }
  }

  /** On either host, `beNNtoh` applied to a field loaded raw from the wire
      is the big-endian value of the field's bytes. */
  lemma BeToHostOfLoad(h: Host, b: seq<u8>)
    requires |b| == 2 || |b| == 4 || |b| == 8
    ensures BeToHost(h, |b|, Load(h, b)) == BeValue(b)
  {
    if h.LittleEndianHost? {
      LeBytesOfLeValue(b);
      BeValueIsReversedLeValue(b);
      BeValueIsReversedLeValue(LeBytes(LeValue(b), |b|));
    }
  }

  /** On either host, a value converted with `htoleNN` is kept in memory as
      its little-endian bytes. */
  lemma StoreOfHostToLe(h: Host, w: Width, x: nat)
    requires x < Pow256(w)
    ensures Store(h, HostToLe(h, w, x), w) == LeBytes(x, w)
  {
    if h.BigEndianHost? {
      var b := LeBytes(x, w);
      BeValueIsReversedLeValue(b);
      LeBytesOfLeValue(Reverse(b));
      ReverseReverse(b);
    }
  }
}
