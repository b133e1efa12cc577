/** Decimal text, as `put_uint` and `%d` print it. */
module Decimal {
  import opened Bytes

  /** The digits of `v`, most significant first, without leading zeros. */
  function Dec(v: nat): (r: seq<byte>)
    ensures |r| >= 1
    ensures forall k :: 0 <= k < |r| ==> IsDigit(r[k])
    ensures |r| > 1 ==> r[0] != '0' as int
    ensures v > 0 ==> r[0] != '0' as int
  {
    if v < 10 then ['0' as int + v] else Dec(v / 10) + ['0' as int + v % 10]
  }

  predicate IsDigit(c: byte) { '0' as int <= c <= '9' as int }

  /** The number a digit string denotes. */
  function ParseDec(s: seq<byte>): nat
    requires forall k :: 0 <= k < |s| ==> IsDigit(s[k])
  {
    if s == [] then 0 else (assert IsDigit(s[|s| - 1]); ParseDec(s[..|s| - 1]) * 10 + (s[|s| - 1] - '0' as int))
  }

  lemma {:induction false} DecRoundTrip(v: nat)
    ensures ParseDec(Dec(v)) == v
  {
    if v < 10 {
      assert Dec(v)[..0] == [];
    } else {
      DecRoundTrip(v / 10);
      assert Dec(v)[..|Dec(v)| - 1] == Dec(v / 10);
    }
  }

  lemma DecInjective(a: nat, b: nat)
    requires Dec(a) == Dec(b)
    ensures a == b
  {
    DecRoundTrip(a);
    DecRoundTrip(b);
  }

  function Pow10(k: nat): (r: nat) ensures r >= 1 { if k == 0 then 1 else 10 * Pow10(k - 1) }

  /** A number below 10^k prints in at most k digits. */
  lemma {:induction false} DecLength(v: nat, k: nat)
    requires k >= 1 && v < Pow10(k)
    ensures |Dec(v)| <= k
  {
    if v >= 10 {
      DecLength(v / 10, k - 1);
    }
  }

  /** `%d` of a signed value. */
  function SignedDec(v: int): seq<byte> {
    if v < 0 then ['-' as int] + Dec(-v) else Dec(v)
  }

  /** A signed number's text without its minus sign. */
  function Unsign(s: seq<byte>): seq<byte> { if s != [] && s[0] == '-' as int then s[1..] else s }

  /** An optional minus sign and digits. */
  predicate IsSigned(s: seq<byte>) {
    Unsign(s) != [] && forall k :: 0 <= k < |Unsign(s)| ==> IsDigit(Unsign(s)[k])
  }

  /** The number such a text denotes. */
  function ParseSigned(s: seq<byte>): int
    requires IsSigned(s)
  {
    var v: int := ParseDec(Unsign(s));
    if s[0] == '-' as int then -v else v
  }

  lemma SignedDecRoundTrip(v: int)
    ensures IsSigned(SignedDec(v)) && ParseSigned(SignedDec(v)) == v
  {
    var s, size := SignedDec(v), if v < 0 then -v else v;
    assert IsDigit(Dec(size)[0]);
    DecRoundTrip(size);
    if v < 0 {
      assert s[0] == '-' as int && s[1..] == Dec(size);
    } else {
      assert Unsign(s) == Dec(size);
    }
  }

  function Ascii(s: string): (r: seq<byte>)
    requires forall k :: 0 <= k < |s| ==> 0 < s[k] as int < 128
    ensures |r| == |s|
    ensures forall k :: 0 <= k < |s| ==> r[k] == s[k] as int && r[k] != 0
  {
    seq(|s|, k requires 0 <= k < |s| => s[k] as int)
  }
}
