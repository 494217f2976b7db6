// Primitive contents: integers, booleans and bit strings
// (asn1/primitives.go).

module BerPrimitives {
  import opened Octets
  import opened Ber
  import opened BerElement

  // Signed integers

  function IntSize(v: int): (n: nat)
    ensures n >= 1
    decreases if v < 0 then -v else v
  {
    if -0x80 <= v <= 0x7f then 1 else 1 + IntSize(v / 256)
  }

  function IntOctets(v: int): (s: Bytes)
    ensures |s| == IntSize(v)
  {
    ToBE(v, IntSize(v))
  }

  function DecodeInt(content: Bytes): (r: Result<int64>)
  {
    if |content| == 0 || |content| > 8 then Err(BadValue)
    else SignedBound(content); Ok(SignedBE(content))
  }

  lemma {:induction false} SignedBound(s: Bytes)
    requires 1 <= |s| <= 8
    ensures |s| == 1 ==> -0x80 <= SignedBE(s) < 0x80
    ensures |s| == 2 ==> -0x8000 <= SignedBE(s) < 0x8000
    ensures |s| == 3 ==> -0x80_0000 <= SignedBE(s) < 0x80_0000
    ensures |s| == 4 ==> -0x8000_0000 <= SignedBE(s) < 0x8000_0000
    ensures |s| == 5 ==> -0x80_0000_0000 <= SignedBE(s) < 0x80_0000_0000
    ensures |s| == 6 ==> -0x8000_0000_0000 <= SignedBE(s) < 0x8000_0000_0000
    ensures |s| == 7 ==> -0x80_0000_0000_0000 <= SignedBE(s) < 0x80_0000_0000_0000
    ensures -0x8000_0000_0000_0000 <= SignedBE(s) < 0x8000_0000_0000_0000
  {
    if |s| > 1 { SignedBound(s[..|s| - 1]); }
  }

  lemma {:induction false} IntSizeFits(v: int)
    ensures -0x80 <= Shr8(v, IntSize(v) - 1) <= 0x7f
    decreases if v < 0 then -v else v
  {
    if !(-0x80 <= v <= 0x7f) { IntSizeFits(v / 256); }
  }

  // The octets AppendInt writes are the shortest that mean v.
  lemma {:induction false} IntSizeMinimal(s: Bytes)
    requires s != []
    ensures IntSize(SignedBE(s)) <= |s|
  {
    if |s| > 1 {
      var t := s[..|s| - 1];
      IntSizeMinimal(t);
      assert SignedBE(s) / 256 == SignedBE(t);
    }
  }

  lemma IntRoundTrip(v: int64)
    ensures DecodeInt(IntOctets(v)) == Ok(v)
    ensures |IntOctets(v)| <= 8
    ensures forall s | DecodeInt(s) == Ok(v) :: |IntOctets(v)| <= |s|
  {
    IntSizeBound(v);
    IntSizeFits(v);
    SignedBEToBE(v, IntSize(v));
    forall s | DecodeInt(s) == Ok(v)
      ensures |IntOctets(v)| <= |s|
    {
      IntSizeMinimal(s);
    }
  }

  lemma {:induction false} IntSizeBound(v: int64)
    ensures IntSize(v) <= 8
  {
    var v1 := v / 256;
    var v2 := v1 / 256;
    var v3 := v2 / 256;
    var v4 := v3 / 256;
    var v5 := v4 / 256;
    var v6 := v5 / 256;
    var v7 := v6 / 256;
    assert -0x80 <= v7 <= 0x7f;
    assert IntSize(v7) == 1 && IntSize(v6) <= 2 && IntSize(v5) <= 3 && IntSize(v4) <= 4;
    assert IntSize(v3) <= 5 && IntSize(v2) <= 6 && IntSize(v1) <= 7;
  }

  method MeasureInt(v: int64) returns (n: nat)
    ensures n == IntSize(v)
  {
    n := 1;
    var w: int := v;
    while w > 0x7f || w < -0x80
      invariant n >= 1 && n - 1 + IntSize(w) == IntSize(v)
      decreases if w < 0 then -w else w
    {
      w := w / 256;
      n := n + 1;
    }
  }

  method AppendInt(dst: Bytes, v: int64) returns (out: Bytes)
    ensures out == dst + IntOctets(v)
  {
    var n := MeasureInt(v);
    out := AppendShifted(dst, v, n);
  }

  // The low n octets of v, one shift each.
  method AppendShifted(dst: Bytes, v: int, n: nat) returns (out: Bytes)
    ensures out == dst + ToBE(v, n)
  {
    out := dst;
    var i: int := n - 1;
    while i >= 0
      invariant -1 <= i <= n - 1
      invariant out == dst + ToBE(Shr8(v, i + 1), n - 1 - i)
    {
      out := out + [Shr8(v, i) % 256];
      Shr8Step(v, i);
      i := i - 1;
    }
  }

  method ReadInt(content: Bytes) returns (r: Result<int64>)
    ensures r == DecodeInt(content)
  {
    if |content| == 0 || |content| > 8 {
      return Err(BadValue);
    }
    var lead: int := content[0];
    var v := if lead < 0x80 then lead else lead - 0x100;
    var i := 1;
    while i < |content|
      invariant 1 <= i <= |content|
      invariant v == SignedBE(content[..i])
    {
      assert content[..i + 1][..i] == content[..i];
      v := v * 256 + content[i];
      i := i + 1;
    }
    assert content[..i] == content;
    SignedBound(content);
    r := Ok(v);
  }

  // Unsigned integers

  function UintSize(v: nat): (n: nat)
    ensures n >= 1
  {
    if v <= 0x7f then 1 else 1 + UintSize(v / 256)
  }

  function UintOctets(v: nat): (s: Bytes)
    ensures |s| == UintSize(v)
  {
    ToBE(v, UintSize(v))
  }

  function DecodeUint(content: Bytes): (r: Result<uint64>)
  {
    if |content| == 0 || |content| > 9 || (|content| == 9 && content[0] != 0) then Err(BadValue)
    else UnsignedBound(content); Ok(BE(content))
  }

  lemma {:induction false} BEBounds(s: Bytes)
    requires |s| <= 8
    ensures |s| == 0 ==> BE(s) == 0
    ensures |s| == 1 ==> BE(s) < 0x100
    ensures |s| == 2 ==> BE(s) < 0x1_0000
    ensures |s| == 3 ==> BE(s) < 0x100_0000
    ensures |s| == 4 ==> BE(s) < 0x1_0000_0000
    ensures |s| == 5 ==> BE(s) < 0x100_0000_0000
    ensures |s| == 6 ==> BE(s) < 0x1_0000_0000_0000
    ensures |s| == 7 ==> BE(s) < 0x100_0000_0000_0000
    ensures BE(s) < 0x1_0000_0000_0000_0000
  {
    if s != [] { BEBounds(s[..|s| - 1]); }
  }

  lemma {:induction false} BEDropZero(s: Bytes)
    requires s != [] && s[0] == 0
    ensures BE(s) == BE(s[1..])
  {
    if |s| == 1 {
      assert s[..0] == [];
    } else {
      BEDropZero(s[..|s| - 1]);
      assert s[..|s| - 1][1..] == s[1..][..|s| - 2];
    }
  }

  lemma UnsignedBound(s: Bytes)
    requires 1 <= |s| <= 9
    requires |s| == 9 ==> s[0] == 0
    ensures BE(s) < 0x1_0000_0000_0000_0000
  {
    if |s| == 9 {
      BEDropZero(s);
      BEBounds(s[1..]);
    } else {
      BEBounds(s);
    }
  }

  lemma {:induction false} UintSizeFits(v: nat)
    ensures 0 <= Shr8(v, UintSize(v) - 1) <= 0x7f
    decreases v
  {
    if v > 0x7f { UintSizeFits(v / 256); }
  }

  lemma {:induction false} ToBEFirst(v: int, n: nat)
    requires n >= 1
    ensures ToBE(v, n)[0] == Shr8(v, n - 1) % 256
    decreases n
  {
    if n > 1 {
      ToBEFirst(v / 256, n - 1);
    } else {
      assert ToBE(v / 256, 0) == [];
    }
  }

  lemma UintRoundTrip(v: uint64)
    ensures DecodeUint(UintOctets(v)) == Ok(v)
    ensures |UintOctets(v)| <= 9
    ensures UintOctets(v)[0] < 0x80
  {
    var n := UintSize(v);
    UintSizeBound(v);
    UintSizeFits(v);
    Shr8Step(v, n - 1);
    BEToBE(v, n);
    ToBEFirst(v, n);
    if n == 9 {
      UintNine(v);
    }
  }

  lemma {:induction false} UintSizeBound(v: uint64)
    ensures UintSize(v) <= 9
    ensures v < 0x1_0000_0000 ==> UintSize(v) <= 5
  {
    var v1 := v / 256;
    var v2 := v1 / 256;
    var v3 := v2 / 256;
    var v4 := v3 / 256;
    assert v < 0x1_0000_0000 ==> v4 == 0;
    var v5 := v4 / 256;
    var v6 := v5 / 256;
    var v7 := v6 / 256;
    assert v7 <= 0xff;
    assert UintSize(v7) <= 2 && UintSize(v6) <= 3 && UintSize(v5) <= 4 && UintSize(v4) <= 5;
    assert UintSize(v3) <= 6 && UintSize(v2) <= 7 && UintSize(v1) <= 8;
    assert v4 == 0 ==> UintSize(v4) == 1 && UintSize(v3) <= 2 && UintSize(v2) <= 3 && UintSize(v1) <= 4;
  }

  lemma UintNine(v: uint64)
    ensures Shr8(v, 8) == 0
  {
    var v4 := v / 256 / 256 / 256 / 256;
    assert v4 < 0x1_0000_0000;
    assert v4 / 256 / 256 / 256 / 256 == 0;
    assert Shr8(v, 4) == v4;
    Shr8Step(v, 4);
    Shr8Step(v, 5);
    Shr8Step(v, 6);
    Shr8Step(v, 7);
  }

  // At most one octet is added to any unsigned content that is re-encoded:
  // the leading zero a content without room for a sign lacked.
  lemma {:induction false} UintReencoded(s: Bytes)
    requires s != []
    ensures UintSize(BE(s)) <= |s| + 1
    decreases |s|
  {
    var t := s[..|s| - 1];
    if |s| == 1 {
      assert t == [];
    } else {
      UintReencoded(t);
      assert BE(s) / 256 == BE(t);
    }
  }

  lemma {:induction false} UintSizeMono(v: nat, w: nat)
    requires v <= w
    ensures UintSize(v) <= UintSize(w)
    decreases w
  {
    if v > 0x7f { UintSizeMono(v / 256, w / 256); }
  }

  method MeasureUint(v: uint64) returns (n: nat)
    ensures n == UintSize(v)
  {
    n := 1;
    var w: nat := v;
    while w > 0x7f
      invariant n >= 1 && n - 1 + UintSize(w) == UintSize(v)
      decreases w
    {
      w := w / 256;
      n := n + 1;
    }
  }

  method AppendUint(dst: Bytes, v: uint64) returns (out: Bytes)
    ensures out == dst + UintOctets(v)
  {
    var n := MeasureUint(v);
    out := AppendShifted(dst, v, n);
  }

  method ReadUint(content: Bytes) returns (r: Result<uint64>)
    ensures r == DecodeUint(content)
  {
    if |content| == 0 {
      return Err(BadValue);
    }
    if |content| > 9 || (|content| == 9 && content[0] != 0) {
      return Err(BadValue);
    }
    var v: nat := 0;
    var i := 0;
    while i < |content|
      invariant 0 <= i <= |content|
      invariant v == BE(content[..i])
    {
      assert content[..i + 1][..i] == content[..i];
      v := v * 256 + content[i];
      i := i + 1;
    }
    assert content[..i] == content;
    UnsignedBound(content);
    r := Ok(v);
  }

  // Booleans

  function BoolOctets(v: bool): Bytes { if v then [0xff] else [0x00] }

  function DecodeBool(content: Bytes): (r: Result<bool>)
  {
    if |content| != 1 then Err(BadValue) else Ok(content[0] != 0)
  }

  // Bit strings: packed bits and the number of them that are valid.
  datatype BitString = BitString(bits: Bytes, length: int)

  function OctetsNeeded(length: int): nat { ((if length < 0 then 0 else length) + 7) / 8 }

  // bits cut or zero-extended to n octets.
  function Fit(bits: Bytes, n: nat): (s: Bytes)
    ensures |s| == n
  {
    if |bits| >= n then bits[..n] else bits + seq(n - |bits|, _ => 0)
  }

  function BitStringOctets(bs: BitString): (s: Bytes)
  {
    var length := if bs.length < 0 then 0 else bs.length;
    [OctetsNeeded(length) * 8 - length] + Fit(bs.bits, OctetsNeeded(length))
  }

  function DecodeBitString(content: Bytes): (r: Result<BitString>)
    ensures r.Ok? ==> r.value.length >= 0 && |r.value.bits| == OctetsNeeded(r.value.length)
  {
    if content == [] || content[0] > 7 || (|content| == 1 && content[0] != 0) then Err(BadValue)
    else Ok(BitString(content[1..], |content[1..]| * 8 - content[0]))
  }

  // Whatever the caller put in it, a bit string is written as one of
  // max(length, 0) bits and reads back as that.
  lemma BitStringRoundTrip(bs: BitString)
    ensures
      var n := if bs.length < 0 then 0 else bs.length;
      DecodeBitString(BitStringOctets(bs)) == Ok(BitString(Fit(bs.bits, OctetsNeeded(n)), n))
  {
    var n := if bs.length < 0 then 0 else bs.length;
    assert BitStringOctets(bs)[1..] == Fit(bs.bits, OctetsNeeded(n));
  }

  // Element constructors

  function IntElem(t: Tag, v: int): Element { Prim(t, IntOctets(v)) }
  function UintElem(t: Tag, v: nat): Element { Prim(t, UintOctets(v)) }
  function BoolElem(t: Tag, v: bool): Element { Prim(t, BoolOctets(v)) }
  function BitStringElem(t: Tag, bs: BitString): Element { Prim(t, BitStringOctets(bs)) }
}
