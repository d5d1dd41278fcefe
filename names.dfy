// The names writeCIA (cia.c) opens content files under: the content id as
// eight hexadecimal digits, `sprintf(buf, "%08x", id)`, and, when no file
// has that name, the same name with its letters made upper-case
// (`toupper` over the buffer).

module ContentNames {
  /** 16^n */
  function Pow16(n: nat): (p: nat)
    ensures p >= 1
  {
    if n == 0 then 1 else 16 * Pow16(n - 1)
  }

  lemma Pow16Of8()
    ensures Pow16(8) == 0x1_0000_0000
  {
    assert Pow16(2) == 0x100 && Pow16(4) == 0x1_0000 && Pow16(6) == 0x100_0000;
  }

  /** One digit of `%x` (lower-case) or `%X` (upper-case). */
  function HexDigit(d: nat, upper: bool): (c: char)
    requires d < 16
  {
    if d < 10 then '0' + d as char
    else if upper then 'A' + (d - 10) as char
    else 'a' + (d - 10) as char
  }

  /** The value of a hexadecimal digit of either case. */
  function DigitValue(c: char): (d: nat)
    ensures d < 16
  {
    if '0' <= c <= '9' then c as nat - '0' as nat
    else if 'a' <= c <= 'f' then c as nat - 'a' as nat + 10
    else if 'A' <= c <= 'F' then c as nat - 'A' as nat + 10
    else 0
  }

  lemma DigitValueOfHexDigit(d: nat, upper: bool)
    requires d < 16
    ensures DigitValue(HexDigit(d, upper)) == d
  {
  }

  /** The last `n` hexadecimal digits of `v`, most significant first, zero-padded. */
  function Hex(v: nat, n: nat, upper: bool): (s: string)
    ensures |s| == n
  {
    if n == 0 then [] else Hex(v / 16, n - 1, upper) + [HexDigit(v % 16, upper)]
  }

  /** The number a string of hexadecimal digits spells. */
  function ParseHex(s: string): (r: nat)
  {
    if s == [] then 0 else ParseHex(s[..|s| - 1]) * 16 + DigitValue(s[|s| - 1])
  }

  /** Reading the digits back gives the number, when it has at most `n` digits. */
  lemma {:induction false} ParseHexOfHex(v: nat, n: nat, upper: bool)
    requires v < Pow16(n)
    ensures ParseHex(Hex(v, n, upper)) == v
  {
    if n > 0 {
      var s := Hex(v, n, upper);
      assert s[..n - 1] == Hex(v / 16, n - 1, upper);
      ParseHexOfHex(v / 16, n - 1, upper);
      DigitValueOfHexDigit(v % 16, upper);
    }
  }

  /** `toupper` in the C locale: only 'a'..'z' change. */
  function ToUpper(c: char): (r: char)
  {
    if 'a' <= c <= 'z' then c - 'a' + 'A' else c
  }

  function Upper(s: string): (r: string)
    ensures |r| == |s| && forall k :: 0 <= k < |s| ==> r[k] == ToUpper(s[k])
  {
    seq(|s|, k requires 0 <= k < |s| => ToUpper(s[k]))
  }

  /** The name of the content file with id `id`: `%08x`, or `%08X` when `upper`. */
  function Name(id: nat, upper: bool): (s: string)
    ensures |s| == 8
  {
    Hex(id, 8, upper)
  }

  /** Upper-casing the `%x` digits gives the `%X` digits. */
  lemma {:induction false} UpperOfHex(v: nat, n: nat)
    ensures Upper(Hex(v, n, false)) == Hex(v, n, true)
  {
    if n > 0 {
      UpperOfHex(v / 16, n - 1);
      var l, u := Hex(v, n, false), Hex(v, n, true);
      assert l == Hex(v / 16, n - 1, false) + [HexDigit(v % 16, false)];
      assert u == Hex(v / 16, n - 1, true) + [HexDigit(v % 16, true)];
      forall k | 0 <= k < n
        ensures Upper(l)[k] == u[k]
      {
        if k < n - 1 {
          assert Upper(l)[k] == Upper(Hex(v / 16, n - 1, false))[k];
        }
      }
    }
  }

  /** The fallback name is the upper-case form of the first name. */
  lemma UpperName(id: nat)
    ensures Upper(Name(id, false)) == Name(id, true)
  {
    UpperOfHex(id, 8);
  }

  /** Different 32-bit ids name different files, in either case. */
  lemma NamesDistinct(id1: nat, id2: nat, upper: bool)
    requires id1 < 0x1_0000_0000 && id2 < 0x1_0000_0000
    ensures Name(id1, upper) == Name(id2, upper) <==> id1 == id2
  {
    Pow16Of8();
    ParseHexOfHex(id1, 8, upper);
    ParseHexOfHex(id2, 8, upper);
  }
}
