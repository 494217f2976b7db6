// Identifier and length octets of BER (asn1/ber.go), encoding side.

module Ber {
  import opened Octets

  type Class = c: int | 0 <= c < 4

  const UNIVERSAL: Class := 0
  const APPLICATION: Class := 1
  const CONTEXT_SPECIFIC: Class := 2

  datatype Tag = Tag(cls: Class, constructed: bool, number: uint32)

  const TAG_INTEGER := Tag(UNIVERSAL, false, 2)
  const TAG_SEQUENCE := Tag(UNIVERSAL, true, 16)
  const TAG_VISIBLE_STRING := Tag(UNIVERSAL, false, 26)

  function ContextPrimitive(n: uint32): Tag { Tag(CONTEXT_SPECIFIC, false, n) }
  function ContextConstructed(n: uint32): Tag { Tag(CONTEXT_SPECIFIC, true, n) }
  function ApplicationConstructed(n: uint32): Tag { Tag(APPLICATION, true, n) }

  // The errors of the decoder.
  datatype Error =
    | Truncated
    | BadTag
    | BadLength
    | LengthOverflow
    | TooDeep
    | Unexpected
    | BadValue

  datatype Result<+T> = Ok(value: T) | Err(error: Error)

  // What a subsequent identifier octet contributes, seven bits each.
  function LowVal(s: Bytes): (n: nat)
  {
    if s == [] then 0 else LowVal(s[..|s| - 1]) * 128 + s[|s| - 1] % 128
  }

  // The base-128 digits of n, most significant first.
  function Digits(n: nat): (d: Bytes)
    ensures d != []
    ensures forall k | 0 <= k < |d| :: d[k] < 0x80
  {
    if n < 128 then [n] else Digits(n / 128) + [n % 128]
  }

  // The continuation bit goes on every digit but the last.
  function Flagged(d: Bytes): (s: Bytes)
    requires forall k | 0 <= k < |d| :: d[k] < 0x80
    ensures |s| == |d|
  {
    seq(|d|, k requires 0 <= k < |d| => if k < |d| - 1 then d[k] + 0x80 else d[k])
  }

  function LeadOctet(t: Tag): (b: byte)
    ensures b % 32 == 0
    ensures b / 64 == t.cls && (b / 32 % 2 == 1 <==> t.constructed)
  {
    t.cls * 64 + if t.constructed then 0x20 else 0
  }

  function TagOctets(t: Tag): (s: Bytes)
    ensures s != []
  {
    if t.number < 31 then [LeadOctet(t) + t.number]
    else [LeadOctet(t) + 0x1f] + Flagged(Digits(t.number))
  }

  function LengthOctets(n: nat): (s: Bytes)
    ensures s != []
  {
    if n < 0x80 then [n]
    else if n <= 0xff then [0x81] + ToBE(n, 1)
    else if n <= 0xffff then [0x82] + ToBE(n, 2)
    else if n <= 0xff_ffff then [0x83] + ToBE(n, 3)
    else [0x84] + ToBE(n, 4)
  }

  function TagSize(t: Tag): nat
  {
    if t.number < 31 then 1
    else if t.number < 0x80 then 2
    else if t.number < 0x4000 then 3
    else if t.number < 0x20_0000 then 4
    else 5
  }

  function LengthSize(n: nat): nat
  {
    if n < 0x80 then 1
    else if n <= 0xff then 2
    else if n <= 0xffff then 3
    else if n <= 0xff_ffff then 4
    else 5
  }

  lemma {:induction false} DigitsCount(n: nat)
    requires n < 0x1_0000_0000
    ensures |Digits(n)| ==
      if n < 0x80 then 1 else if n < 0x4000 then 2 else if n < 0x20_0000 then 3
      else if n < 0x1000_0000 then 4 else 5
    decreases n
  {
    if n >= 128 { DigitsCount(n / 128); }
  }

  lemma {:induction false} FlaggedValue(n: nat)
    ensures LowVal(Flagged(Digits(n))) == n
    decreases n
  {
    var d := Digits(n);
    var s := Flagged(d);
    LowValFlagged(d);
    assert LowVal(s) == LowVal(d);
    LowValDigits(n);
  }

  lemma {:induction false} LowValFlagged(d: Bytes)
    requires forall k | 0 <= k < |d| :: d[k] < 0x80
    ensures LowVal(Flagged(d)) == LowVal(d)
  {
    LowValMod(Flagged(d), d);
  }

  lemma {:induction false} LowValMod(s: Bytes, d: Bytes)
    requires |s| == |d|
    requires forall k | 0 <= k < |d| :: s[k] % 128 == d[k] % 128
    ensures LowVal(s) == LowVal(d)
    decreases |s|
  {
    if s != [] { LowValMod(s[..|s| - 1], d[..|d| - 1]); }
  }

  lemma {:induction false} LowValDigits(n: nat)
    ensures LowVal(Digits(n)) == n
    decreases n
  {
    var d := Digits(n);
    if n < 128 {
      assert d[..0] == [];
    } else {
      LowValDigits(n / 128);
      assert d[..|d| - 1] == Digits(n / 128);
    }
  }

  // The forecast of the identifier octets is exact for the tag numbers below
  // 2^28 and only for them: from there on AppendTag writes six octets.
  lemma TagSizeExact(t: Tag)
    ensures |TagOctets(t)| == TagSize(t) <==> t.number < 0x1000_0000
    ensures t.number >= 0x1000_0000 ==> |TagOctets(t)| == TagSize(t) + 1
  {
    DigitsCount(t.number);
  }

  lemma LengthSizeExact(n: nat)
    ensures |LengthOctets(n)| == LengthSize(n)
  {}

  // The digits of n at the end of tmp.
  method PutDigits(tmp: array<byte>, number: uint32) returns (i: nat)
    requires tmp.Length == 5
    modifies tmp
    ensures i <= 4 && tmp[i..] == Digits(number)
  {
    var n: nat := number;
    DigitsCount(number);
    i := 4;
    tmp[4] := n % 128;
    n := n / 128;
    while n != 0
      invariant 0 <= i <= 4
      invariant if n == 0 then tmp[i..] == Digits(number) else Digits(n) + tmp[i..] == Digits(number)
      decreases n
    {
      ghost var was := tmp[i..];
      assert |Digits(n)| + |was| == |Digits(number)|;
      i := i - 1;
      tmp[i] := n % 128;
      assert tmp[i..] == [n % 128] + was;
      n := n / 128;
    }
  }

  // The continuation bit on all but the last octet of tmp, from i on.
  method SetContinuation(tmp: array<byte>, i: nat)
    requires tmp.Length == 5 && i <= 4
    requires forall k | i <= k < 5 :: tmp[k] < 0x80
    modifies tmp
    ensures tmp[i..] == Flagged(old(tmp[i..]))
  {
    ghost var was := tmp[i..];
    var j := i;
    while j < 4
      invariant i <= j <= 4
      invariant forall k | i <= k < j :: tmp[k] == was[k - i] + 0x80
      invariant forall k | j <= k < 5 :: tmp[k] == was[k - i]
    {
      tmp[j] := tmp[j] + 0x80;
      j := j + 1;
    }
  }

  method AppendTag(dst: Bytes, t: Tag) returns (out: Bytes)
    ensures out == dst + TagOctets(t)
  {
    if t.number < 31 {
      return dst + [LeadOctet(t) + t.number];
    }
    out := dst + [LeadOctet(t) + 0x1f];
    var tmp := new byte[5];
    var i := PutDigits(tmp, t.number);
    assert forall k | i <= k < 5 :: tmp[k] == tmp[i..][k - i];
    SetContinuation(tmp, i);
    out := out + tmp[i..];
  }

  method AppendLength(dst: Bytes, n: nat) returns (out: Bytes)
    ensures out == dst + LengthOctets(n)
  {
    if n < 0x80 { return dst + [n]; }
    LongLength(n);
    if n <= 0xff { return dst + [0x81, n]; }
    if n <= 0xffff { return dst + [0x82, n / 0x100, n % 0x100]; }
    if n <= 0xff_ffff { return dst + [0x83, n / 0x1_0000, n / 0x100 % 0x100, n % 0x100]; }
    return dst + [0x84, n / 0x100_0000 % 0x100, n / 0x1_0000 % 0x100, n / 0x100 % 0x100, n % 0x100];
  }

  lemma LongLength(n: nat)
    requires n >= 0x80
    ensures n <= 0xff ==> LengthOctets(n) == [0x81, n]
    ensures 0xff < n <= 0xffff ==> LengthOctets(n) == [0x82, n / 0x100, n % 0x100]
    ensures 0xffff < n <= 0xff_ffff ==> LengthOctets(n) == [0x83, n / 0x1_0000, n / 0x100 % 0x100, n % 0x100]
    ensures 0xff_ffff < n ==>
      LengthOctets(n) == [0x84, n / 0x100_0000 % 0x100, n / 0x1_0000 % 0x100, n / 0x100 % 0x100, n % 0x100]
  {
    if n <= 0xff {
      assert ToBE(n, 1) == [n % 256];
    } else if n <= 0xffff {
      Octets2(n);
    } else if n <= 0xff_ffff {
      Octets3(n);
    } else {
      Octets4(n);
    }
  }

  lemma Octets2(n: nat)
    ensures ToBE(n, 2) == [n / 0x100 % 0x100, n % 0x100]
  {
    assert ToBE(n / 256, 1) == [n / 256 % 256];
  }

  lemma Octets3(n: nat)
    ensures ToBE(n, 3) == [n / 0x1_0000 % 0x100, n / 0x100 % 0x100, n % 0x100]
  {
    Octets2(n / 256);
    assert n / 256 / 256 == n / 0x1_0000;
  }

  lemma Octets4(n: nat)
    ensures ToBE(n, 4) == [n / 0x100_0000 % 0x100, n / 0x1_0000 % 0x100, n / 0x100 % 0x100, n % 0x100]
  {
    Octets3(n / 256);
    assert n / 256 / 0x1_0000 == n / 0x100_0000;
    assert n / 256 / 0x100 == n / 0x1_0000;
  }
}
