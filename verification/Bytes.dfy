/** Bytes and C strings, as both sides of the mailbox see them. */
module Bytes {
  type byte = x: int | 0 <= x < 256

  const WORD: nat := 0x1_0000_0000   // 2^32

  function Min(a: int, b: int): int { if a <= b then a else b }

  /** The characters of a C string held in `s`: everything before the first NUL,
      or all of `s` when it has none. */
  function CStr(s: seq<byte>): (r: seq<byte>)
    ensures r <= s
    ensures 0 !in r
    ensures |r| == |s| || s[|r|] == 0
  {
    if s == [] || s[0] == 0 then [] else [s[0]] + CStr(s[1..])
  }

  /** A NUL-free prefix followed by a NUL is read back as that prefix. */
  lemma {:induction false} CStrIs(s: seq<byte>, r: seq<byte>)
    requires r <= s && 0 !in r
    requires |r| < |s| && s[|r|] == 0
    ensures CStr(s) == r
  {
    if r == [] {
    } else {
      assert s[0] == r[0];
      CStrIs(s[1..], r[1..]);
      assert r == [r[0]] + r[1..];
    }
  }

  // ---- little-endian 32-bit words ---------------------------------------------------------

  function U32Bytes(v: nat): (r: seq<byte>)
    ensures |r| == 4
  {
    [v % 256, v / 256 % 256, v / 65536 % 256, v / 16777216 % 256]
  }

  function GetU32(s: seq<byte>, off: nat): (v: nat)
    requires off + 4 <= |s|
    ensures v < WORD
  {
    s[off] as int + 256 * (s[off + 1] as int) + 65536 * (s[off + 2] as int) + 16777216 * (s[off + 3] as int)
  }

  /** The least significant byte comes first. */
  lemma U32Parts(s: seq<byte>, off: nat)
    requires off + 4 <= |s|
    ensures var v := GetU32(s, off);
            v % 256 == s[off] as int && v / 256 % 256 == s[off + 1] as int &&
            v / 256 / 256 % 256 == s[off + 2] as int && v / 256 / 256 / 256 == s[off + 3] as int
  {
    var a, b, c, d := s[off] as int, s[off + 1] as int, s[off + 2] as int, s[off + 3] as int;
    LowDigit(a, b + 256 * c + 65536 * d);
    LowDigit(b, c + 256 * d);
    LowDigit(c, d);
  }

  lemma LowDigit(low: int, high: int)
    requires 0 <= low < 256
    ensures (low + 256 * high) % 256 == low && (low + 256 * high) / 256 == high
  {
  }

  lemma U32Digits(v: nat)
    requires v < WORD
    ensures v % 256 + 256 * (v / 256 % 256) + 65536 * (v / 65536 % 256) + 16777216 * (v / 16777216 % 256) == v
  {
    var a := v / 256;
    var b := a / 256;
    assert v / 65536 == b && v / 16777216 == b / 256;
  }
}
