/** Python's `bytes`, `int.to_bytes` and `int.from_bytes` in big-endian order,
    and the UTF-8 encoding of a string (`str.encode("UTF-8")`). */
module Bytes {
  import opened Wrappers
  import opened Errors

  newtype byte = x: int | 0 <= x < 256

  /** 256 to the power `width`: the number of values `width` bytes can hold. */
  function Pow256(width: nat): (p: nat)
    ensures p >= 1
  {
    if width == 0 then 1 else 256 * Pow256(width - 1)
  }

  /** `int.from_bytes(s, "big", signed=False)`. */
  function FromBytes(s: seq<byte>): (n: nat)
    ensures n < Pow256(|s|)
  {
    if s == [] then 0 else FromBytes(s[..|s| - 1]) * 256 + s[|s| - 1] as nat
  }

  /** `int.from_bytes(s, "big", signed=True)`: two's complement. */
  function FromBytesSigned(s: seq<byte>): int {
    var u := FromBytes(s);
    if 2 * u >= Pow256(|s|) then u - Pow256(|s|) else u
  }

  /** The `width` big-endian bytes of `n`, which must fit. */
  function UnsignedBytes(n: nat, width: nat): (r: seq<byte>)
    requires n < Pow256(width)
    ensures |r| == width && FromBytes(r) == n
  {
    if width == 0 then []
    else
      var r := UnsignedBytes(n / 256, width - 1) + [(n % 256) as byte];
      assert r[..|r| - 1] == UnsignedBytes(n / 256, width - 1);
      r
  }

  /** `n.to_bytes(width, "big", signed=signed)`: OverflowError when `n` does
      not fit in `width` bytes (or is negative and `signed` is false). */
  function ToBytes(n: int, width: nat, signed: bool): (r: Result<seq<byte>, CompilerError>)
    ensures r.Ok? <==> if signed then -(Pow256(width) as int) <= 2 * n < Pow256(width)
                                 else 0 <= n < Pow256(width)
    ensures r.Err? ==> r.error == OverflowError
    ensures r.Ok? ==> |r.value| == width
    ensures r.Ok? && !signed ==> FromBytes(r.value) == n
    ensures r.Ok? && signed ==> FromBytesSigned(r.value) == n
  {
    if signed then
      if -(Pow256(width) as int) <= 2 * n < Pow256(width) then
        Ok(UnsignedBytes(if n >= 0 then n else n + Pow256(width), width))
      else Err(OverflowError)
    else if 0 <= n < Pow256(width) then Ok(UnsignedBytes(n, width))
    else Err(OverflowError)
  }

  /** `s.ljust(width, fill)`: pad on the right up to `width`; never truncates. */
  function LJust(s: seq<byte>, width: nat, fill: byte): (r: seq<byte>)
    ensures |r| == if |s| >= width then |s| else width
    ensures r[..|s|] == s
    ensures forall i :: |s| <= i < |r| ==> r[i] == fill
  {
    if |s| >= width then s else s + seq(width - |s|, _ => fill)
  }

  /** The UTF-8 encoding of one Unicode scalar value. */
  function Utf8Char(c: char): (r: seq<byte>)
    ensures 1 <= |r| <= 4
  {
    var n := c as int;
    if n < 0x80 then [n as byte]
    else if n < 0x800 then [(0xC0 + n / 0x40) as byte, (0x80 + n % 0x40) as byte]
    else if n < 0x10000 then
      [(0xE0 + n / 0x1000) as byte, (0x80 + (n / 0x40) % 0x40) as byte, (0x80 + n % 0x40) as byte]
    else
      [(0xF0 + n / 0x40000) as byte, (0x80 + (n / 0x1000) % 0x40) as byte,
       (0x80 + (n / 0x40) % 0x40) as byte, (0x80 + n % 0x40) as byte]
  }

  /** `s.encode("UTF-8")`. */
  function Utf8(s: string): (r: seq<byte>)
    ensures |s| <= |r| <= 4 * |s|
  {
    if s == [] then [] else Utf8(s[..|s| - 1]) + Utf8Char(s[|s| - 1])
  }

  /** An ASCII text encodes as one byte per character. */
  lemma {:induction false} Utf8Ascii(s: string)
    requires forall i :: 0 <= i < |s| ==> s[i] as int < 0x80
    ensures |Utf8(s)| == |s|
    ensures forall i :: 0 <= i < |s| ==> Utf8(s)[i] as int == s[i] as int
  {
    if s != [] {
      Utf8Ascii(s[..|s| - 1]);
    }
  }
}
