// Octets and the fixed-width integers of the wire formats.

module Octets {

  type byte = b: int | 0 <= b < 0x100
  type uint16 = n: int | 0 <= n < 0x1_0000
  type uint32 = n: int | 0 <= n < 0x1_0000_0000
  type uint64 = n: int | 0 <= n < 0x1_0000_0000_0000_0000
  type int64 = n: int | -0x8000_0000_0000_0000 <= n < 0x8000_0000_0000_0000

  type Bytes = seq<byte>

  // The unsigned big-endian value of an octet string.
  function BE(s: Bytes): (n: nat)
  {
    if s == [] then 0 else BE(s[..|s| - 1]) * 256 + s[|s| - 1]
  }

  // The two's-complement big-endian value of a non-empty octet string.
  function SignedBE(s: Bytes): (n: int)
    requires s != []
  {
    if |s| == 1 then (if s[0] < 0x80 then s[0] else s[0] - 0x100)
    else SignedBE(s[..|s| - 1]) * 256 + s[|s| - 1]
  }

  // v >> (8 * i), arithmetic.
  function Shr8(v: int, i: nat): (w: int)
    decreases i
  {
    if i == 0 then v else Shr8(v / 256, i - 1)
  }

  // The low n octets of v, most significant first.
  function ToBE(v: int, n: nat): (s: Bytes)
    ensures |s| == n
    decreases n
  {
    if n == 0 then [] else ToBE(v / 256, n - 1) + [v % 256]
  }

  lemma {:induction false} Shr8Step(v: int, i: nat)
    ensures Shr8(v, i) / 256 == Shr8(v, i + 1)
    decreases i
  {
    if i > 0 { Shr8Step(v / 256, i - 1); }
  }

  // n octets carry every unsigned value whose shift by n octets is gone.
  lemma {:induction false} BEToBE(v: int, n: nat)
    requires Shr8(v, n) == 0
    ensures BE(ToBE(v, n)) == v
    decreases n
  {
    if n > 0 {
      BEToBE(v / 256, n - 1);
      var s := ToBE(v, n);
      assert s[..|s| - 1] == ToBE(v / 256, n - 1);
    }
  }

  // n octets carry every signed value whose leading octet holds the sign.
  lemma {:induction false} SignedBEToBE(v: int, n: nat)
    requires n >= 1
    requires -0x80 <= Shr8(v, n - 1) <= 0x7f
    ensures SignedBE(ToBE(v, n)) == v
    decreases n
  {
    var s := ToBE(v, n);
    if n == 1 {
      assert ToBE(v / 256, 0) == [];
      assert s == [v % 256];
    } else {
      SignedBEToBE(v / 256, n - 1);
      assert s[..|s| - 1] == ToBE(v / 256, n - 1);
    }
  }

  lemma BE2(s: Bytes)
    requires |s| == 2
    ensures BE(s) == s[0] as int * 0x100 + s[1]
  {
    assert s[..1][..0] == [];
    assert BE(s[..1]) == s[0];
  }

  lemma BE4(s: Bytes)
    requires |s| == 4
    ensures BE(s) == s[0] as int * 0x100_0000 + s[1] as int * 0x1_0000 + s[2] as int * 0x100 + s[3]
  {
    BE2(s[..2]);
    assert s[..3][..2] == s[..2];
    assert BE(s[..3]) == BE(s[..2]) * 256 + s[2];
  }
}
