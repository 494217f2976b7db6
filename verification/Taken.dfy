// What the decoders take: MMS data, type specifications, name lists and GOOSE
// messages (mms/value_codec.go, mms/typespec.go, mms/services.go,
// goose/message.go).
//
// For each of them what octets mean is said as a relation, with the numbers of
// the standards and an element in front of the octets as the only notion from
// the decoder; and the decoder gives a value exactly when the octets mean it.

module Taken {
  import opened Octets
  import opened Ber
  import opened BerDecoder
  import opened BerPrimitives
  import opened MmsData
  import opened MmsTypeSpec
  import opened GooseMessage
  import opened Wire
  import Listing

  // MMS data

  // Section 8.3 of X.690, in at most 64 bits; of the unsigned ones, which a ninth
  // octet of zero may lead.
  predicate SignedContent(c: Bytes, v: int) { 1 <= |c| <= 8 && TwosComplement(c, v) }

  predicate UnsignedContent(c: Bytes, v: int)
  {
    (1 <= |c| <= 8 || (|c| == 9 && c[0] == 0)) && v == Weighed(c)
  }

  lemma IntExactly(c: Bytes, v: int64)
    ensures DecodeInt(c) == Ok(v) <==> SignedContent(c, v)
  {
    if c != [] {
      SignedWeighs(c);
    }
  }

  lemma UintExactly(c: Bytes, v: uint64)
    ensures DecodeUint(c) == Ok(v) <==> UnsignedContent(c, v)
  {
    BEWeighs(c);
  }

  // A content of tag number n means the value v.
  ghost predicate LeafMeans(n: int, c: Bytes, v: Value)
  {
    match v
    case Boolean(b) => n == 3 && |c| == 1 && (b <==> c[0] != 0)
    case Bits(bits, len) =>
      n == 4 && c != [] && c[0] <= 7 && (|c| == 1 ==> c[0] == 0) && bits == c[1..] && len == 8 * |bits| - c[0] as int
    case Integer(i) => n == 5 && SignedContent(c, i)
    case Unsigned(u) => n == 6 && UnsignedContent(c, u)
    case Float32(octets) => n == 7 && |octets| == 4 && c == [8] + octets
    case Float64(octets) => n == 7 && |octets| == 8 && c == [11] + octets
    case OctetString(bytes) => n == 9 && bytes == c
    case VisibleString(bytes) => n == 10 && bytes == c
    case GeneralizedTime(bytes) => n == 11 && bytes == c
    case BinaryTime(bytes) => n == 12 && bytes == c && (|c| == 4 || |c| == 6)
    case MMSString(bytes) => n == 16 && bytes == c
    case UTCTime(bytes) => n == 17 && bytes == c && |c| == 8
    case DataAccessError(code) => n == 0 && exists m :: UnsignedContent(c, m) && code == m % 0x100
    case _ => false
  }

  // An element with the identifier t and the content c means the value v; its
  // members are elements one level deeper, and nothing else is in it.
  ghost predicate Means(t: Tag, c: Bytes, v: Value, depth: nat)
    decreases v, 1
  {
    && t.cls == 2
    && match v
       case Array(children) => t.number == 1 && AllMean(c, children, depth + 1)
       case Structure(children) => t.number == 2 && AllMean(c, children, depth + 1)
       case _ => LeafMeans(t.number, c, v) && (t.number == 0 ==> !t.constructed)
  }

  ghost predicate AllMean(s: Bytes, vs: seq<Value>, depth: nat)
    decreases vs, 0
  {
    if vs == [] then s == []
    else
      var e := ReadNext(s);
      depth <= 32 && e.Next? && Means(e.tag, e.content, vs[0], depth) && AllMean(e.rest, vs[1..], depth)
  }

  lemma LeafExactly(t: Tag, c: Bytes, v: Value)
    requires t.number != 1 && t.number != 2
    ensures DecodeLeaf(t, c) == Ok(v) <==> LeafMeans(t.number, c, v) && (t.number == 0 ==> !t.constructed)
  {
    hide DecodeInt, DecodeUint, SignedContent, UnsignedContent;
    if c != [] {
      assert c == [c[0]] + c[1..];
    }
    match v
    case Bits(bits, n) => BitsExactly(t, c, v);
    case Integer(i) => IntExactly(c, i);
    case Unsigned(u) => UintExactly(c, u);
    case DataAccessError(code) => FailureExactly(t, c, code);
    case _ =>
  }

  lemma BitsExactly(t: Tag, c: Bytes, v: Value)
    requires v.Bits? && t.number != 1 && t.number != 2
    ensures DecodeLeaf(t, c) == Ok(v) <==> LeafMeans(t.number, c, v)
  {
    hide DecodeInt, DecodeUint;
    if t.number == 4 && DecodeBitString(c).Ok? {
      var bs := DecodeBitString(c).value;
      assert Fit(bs.bits, OctetsNeeded(bs.length)) == c[1..];
    }
  }

  lemma FailureExactly(t: Tag, c: Bytes, code: byte)
    requires t.number != 1 && t.number != 2
    ensures
      DecodeLeaf(t, c) == Ok(DataAccessError(code)) <==>
      LeafMeans(t.number, c, DataAccessError(code)) && (t.number == 0 ==> !t.constructed)
  {
    hide DecodeInt, DecodeUint, DecodeBitString, SignedContent, UnsignedContent;
    if DecodeUint(c).Ok? {
      UintExactly(c, DecodeUint(c).value);
    }
    forall m | UnsignedContent(c, m)
      ensures DecodeUint(c) == Ok(m)
    {
      UnsignedFits(c, m);
      UintExactly(c, m);
    }
  }

  lemma UnsignedFits(c: Bytes, m: int)
    requires UnsignedContent(c, m)
    ensures 0 <= m < 0x1_0000_0000_0000_0000
  {
    BEWeighs(c);
    UnsignedBound(c);
  }

  // The decoder takes exactly the elements that mean a value, and gives it.
  lemma {:induction false} ElementExactly(t: Tag, c: Bytes, v: Value, depth: nat)
    ensures DecodeTLV(t, c, depth) == Ok(v) <==> Means(t, c, v, depth)
    decreases |c|, 2
  {
    hide DecodeAll, DecodeLeaf, AllMean, LeafMeans;
    if t.number == 1 || t.number == 2 {
      if v.Array? || v.Structure? {
        MembersExactly(c, v.children, depth + 1);
      }
      NoLeafThere(t.number, c, v);
    } else {
      LeafExactly(t, c, v);
      NoMembersThere(t, c, v);
    }
  }

  lemma NoLeafThere(n: int, c: Bytes, v: Value)
    requires n == 1 || n == 2
    ensures !LeafMeans(n, c, v)
  {}

  lemma NoMembersThere(t: Tag, c: Bytes, v: Value)
    requires t.number != 1 && t.number != 2
    ensures v.Array? || v.Structure? ==> !LeafMeans(t.number, c, v)
  {}

  lemma {:induction false} MembersExactly(s: Bytes, vs: seq<Value>, depth: nat)
    ensures DecodeAll(s, depth) == Ok(vs) <==> AllMean(s, vs, depth)
    decreases |s|, 1
  {
    hide ReadNext, DecodeTLV, Means;
    if s != [] && vs != [] && ReadNext(s).Next? {
      var e := ReadNext(s);
      ElementExactly(e.tag, e.content, vs[0], depth);
      MembersExactly(e.rest, vs[1..], depth);
      assert vs == [vs[0]] + vs[1..];
      FirstOfMembers(s, depth, vs);
    } else if s == [] {
      NothingIsRead();
    } else {
      FirstOfMembers(s, depth, vs);
    }
  }

  lemma NothingIsRead()
    ensures !ReadNext([]).Next?
  {}

  // One step of the loop over the members.
  lemma FirstOfMembers(s: Bytes, depth: nat, vs: seq<Value>)
    requires s != []
    ensures
      DecodeAll(s, depth) == Ok(vs) <==>
      && vs != [] && depth <= 32 && ReadNext(s).Next?
      && DecodeTLV(ReadNext(s).tag, ReadNext(s).content, depth) == Ok(vs[0])
      && DecodeAll(ReadNext(s).rest, depth) == Ok(vs[1..])
  {
    hide ReadNext, DecodeTLV;
    if Decode(s, depth).Datum? && DecodeAll(ReadNext(s).rest, depth).Ok? {
      var v, more := Decode(s, depth).value, DecodeAll(ReadNext(s).rest, depth).value;
      assert ([v] + more)[1..] == more;
    }
    if vs != [] {
      assert vs == [vs[0]] + vs[1..];
    }
  }

  lemma DecodeExactly(s: Bytes, depth: nat, v: Value, rest: Bytes)
    ensures
      Decode(s, depth) == Datum(v, rest) <==>
      && depth <= 32 && ReadNext(s).Next? && ReadNext(s).rest == rest
      && Means(ReadNext(s).tag, ReadNext(s).content, v, depth)
  {
    hide ReadNext, DecodeTLV, Means;
    if ReadNext(s).Next? {
      ElementExactly(ReadNext(s).tag, ReadNext(s).content, v, depth);
    }
  }

  // The other way: which kind of value an identifier octet announces. The decoder
  // looks at the constructed bit of an access error alone.
  lemma HeadDecides(s: Bytes, depth: nat)
    requires Decode(s, depth).Datum? && s[0] % 0x20 != 0x1f
    ensures
      var v, h := Decode(s, depth).value, s[0];
      && (v.Array? <==> h == 0xa1 || h == 0x81)
      && (v.Structure? <==> h == 0xa2 || h == 0x82)
      && (v.Boolean? <==> h == 0x83 || h == 0xa3)
      && (v.Bits? <==> h == 0x84 || h == 0xa4)
      && (v.Integer? <==> h == 0x85 || h == 0xa5)
      && (v.Unsigned? <==> h == 0x86 || h == 0xa6)
      && (v.Float32? || v.Float64? <==> h == 0x87 || h == 0xa7)
      && (v.OctetString? <==> h == 0x89 || h == 0xa9)
      && (v.VisibleString? <==> h == 0x8a || h == 0xaa)
      && (v.GeneralizedTime? <==> h == 0x8b || h == 0xab)
      && (v.BinaryTime? <==> h == 0x8c || h == 0xac)
      && (v.MMSString? <==> h == 0x90 || h == 0xb0)
      && (v.UTCTime? <==> h == 0x91 || h == 0xb1)
      && (v.DataAccessError? <==> h == 0x80)
      && !v.NoValue?
    ensures
      var v, content := Decode(s, depth).value, ReadNext(s).content;
      && (v.Float32? ==> content == [8] + v.octets)
      && (v.Float64? ==> content == [11] + v.octets)
  {
    hide ReadNext, DecodeAll, DecodeInt, DecodeUint, DecodeBitString, DecodeBool;
    TagIsFirst(s);
  }

  // Type specifications

  // The first element has this identifier.
  ghost predicate Leads(s: Bytes, cls: int, constructed: bool, number: int)
  {
    var e := ReadNext(s);
    e.Next? && e.tag.cls == cls && e.tag.constructed == constructed && e.tag.number == number
  }

  // s is content without the packed flag [0] it may begin with.
  ghost predicate Unpacked(content: Bytes, s: Bytes)
  {
    if content == [] then s == []
    else
      && ParseTag(content).Got?
      && var t := ParseTag(content).value;
         if t.cls == 2 && !t.constructed && t.number == 0 then ReadNext(content).Next? && s == ReadNext(content).rest
         else s == content
  }

  lemma UnpackedExactly(content: Bytes, s: Bytes)
    ensures SkipPacked(content) == Ok(s) <==> Unpacked(content, s)
  {
    hide ReadNext, ParseTag;
  }

  // The width of a 64-bit unsigned number taken as a signed one.
  ghost predicate WidthContent(c: Bytes, size: int)
  {
    exists n :: UnsignedContent(c, n) && size == if n < 0x8000_0000_0000_0000 then n else n - 0x1_0000_0000_0000_0000
  }

  ghost predicate LeafTypeMeans(n: int, c: Bytes, ts: TypeSpec)
  {
    match ts
    case BooleanType => n == 3
    case BitStringType(size) => n == 4 && SignedContent(c, size) && -0x1_0000 <= size <= 0x1_0000
    case IntegerType(size) => n == 5 && WidthContent(c, size)
    case UnsignedType(size) => n == 6 && WidthContent(c, size)
    case Float32Type =>
      n == 7 && Leads(c, 0, false, 2) && exists w: int :: SignedContent(ReadNext(c).content, w) && w <= 32
    case Float64Type =>
      n == 7 && Leads(c, 0, false, 2) && exists w: int :: SignedContent(ReadNext(c).content, w) && w > 32
    case OctetStringType(size) => n == 9 && SignedContent(c, size)
    case VisibleStringType(size) => n == 10 && SignedContent(c, size)
    case GeneralizedTimeType => n == 11
    case BinaryTimeType => n == 12
    case MMSStringType(size) => n == 16 && SignedContent(c, size)
    case UTCTimeType => n == 17
    case _ => false
  }

  // The first element of s means the type ts.
  ghost predicate TypeAt(s: Bytes, ts: TypeSpec, depth: nat)
    decreases ts, 1
  {
    var e := ReadNext(s);
    depth <= 32 && e.Next? && e.tag.cls == 2 && TypeMeans(e.tag.number, e.content, ts, depth)
  }

  ghost predicate TypeMeans(n: int, c: Bytes, ts: TypeSpec, depth: nat)
    decreases ts, 0
  {
    match ts
    case ArrayType(count, element) => n == 1 && exists s :: Unpacked(c, s) && IsArray(s, count, element, depth)
    case StructureType(cs) =>
      n == 2 && exists s :: Unpacked(c, s) && Leads(s, 2, true, 1) && AreComponents(ReadNext(s).content, cs, depth)
    case _ => LeafTypeMeans(n, c, ts)
  }

  // The number of elements [1], at most 2^16, then the element's type in [2].
  ghost predicate IsArray(s: Bytes, count: int, element: TypeSpec, depth: nat)
    decreases element, 2
  {
    && Leads(s, 2, false, 1) && UnsignedContent(ReadNext(s).content, count) && count <= 0x1_0000
    && var rest := ReadNext(s).rest;
       Leads(rest, 2, true, 2) && TypeAt(ReadNext(rest).content, element, depth + 1)
  }

  ghost predicate AreComponents(s: Bytes, cs: seq<Component>, depth: nat)
    decreases cs
  {
    if cs == [] then s == []
    else
      && Leads(s, 0, true, 16) && IsComponent(ReadNext(s).content, cs[0], depth)
      && AreComponents(ReadNext(s).rest, cs[1..], depth)
  }

  // The name [0], which may be missing, then the type in [1].
  ghost predicate IsComponent(s: Bytes, c: Component, depth: nat)
    decreases c, 0
  {
    && s != [] && ParseTag(s).Got?
    && var t := ParseTag(s).value;
       if t.cls == 2 && !t.constructed && t.number == 0 then
         ReadNext(s).Next? && c.name == ReadNext(s).content && InOne(ReadNext(s).rest, c.spec, depth)
       else c.name == [] && InOne(s, c.spec, depth)
  }

  ghost predicate InOne(s: Bytes, ts: TypeSpec, depth: nat)
    decreases ts, 2
  {
    Leads(s, 2, true, 1) && TypeAt(ReadNext(s).content, ts, depth + 1)
  }

  lemma ExpectLeads(s: Bytes, t: Tag)
    ensures ExpectTag(s, t).Field? <==> Leads(s, t.cls, t.constructed, t.number)
    ensures ExpectTag(s, t).Field? ==> ExpectTag(s, t) == Field(ReadNext(s).content, ReadNext(s).rest)
  {
    hide ReadNext;
  }

  lemma WidthExactly(c: Bytes, size: int64)
    ensures DecodeWidth(c) == Ok(size) <==> WidthContent(c, size)
  {
    hide DecodeUint, UnsignedContent;
    if DecodeUint(c).Ok? {
      UintExactly(c, DecodeUint(c).value);
    }
    forall n | UnsignedContent(c, n)
      ensures DecodeUint(c) == Ok(n)
    {
      UnsignedFits(c, n);
      UintExactly(c, n);
    }
  }

  lemma FloatExactly(c: Bytes, ts: TypeSpec)
    ensures DecodeFloatType(c) == Ok(ts) <==> (ts.Float32Type? || ts.Float64Type?) && LeafTypeMeans(7, c, ts)
  {
    hide DecodeInt, SignedContent, ReadNext, ExpectTag;
    ExpectLeads(c, TAG_INTEGER);
    if Leads(c, 0, false, 2) {
      var fw := ReadNext(c).content;
      if DecodeInt(fw).Ok? {
        IntExactly(fw, DecodeInt(fw).value);
      }
      forall w: int | SignedContent(fw, w)
        ensures DecodeInt(fw) == Ok(w)
      {
        SignedFits(fw, w);
        IntExactly(fw, w);
      }
    }
  }

  lemma SignedFits(c: Bytes, w: int)
    requires SignedContent(c, w)
    ensures -0x8000_0000_0000_0000 <= w < 0x8000_0000_0000_0000
  {
    SignedWeighs(c);
    SignedBound(c);
  }

  lemma LeafTypeExactly(t: Tag, c: Bytes, ts: TypeSpec)
    requires t.number != 1 && t.number != 2
    ensures DecodeLeafType(t, c) == Ok(ts) <==> LeafTypeMeans(t.number, c, ts)
  {
    hide DecodeInt, DecodeWidth, DecodeFloatType, SignedContent, WidthContent, Leads, ReadNext;
    FloatExactly(c, ts);
    match ts
    case BitStringType(size) => IntExactly(c, size);
    case IntegerType(size) => WidthExactly(c, size);
    case UnsignedType(size) => WidthExactly(c, size);
    case OctetStringType(size) => IntExactly(c, size);
    case VisibleStringType(size) => IntExactly(c, size);
    case MMSStringType(size) => IntExactly(c, size);
    case _ =>
  }

  // The type decoder takes exactly the elements that mean a type, and gives it.
  lemma {:induction false} TypeExactly(s: Bytes, depth: nat, ts: TypeSpec, rest: Bytes)
    ensures DecodeType(s, depth) == TypeGot(ts, rest) <==> TypeAt(s, ts, depth) && ReadNext(s).rest == rest
    decreases |s|, 1
  {
    hide ReadNext, DecodeTypeTLV, TypeMeans;
    if ReadNext(s).Next? {
      var e := ReadNext(s);
      TypeElementExactly(e.tag, e.content, ts, depth);
    }
  }

  lemma {:induction false} TypeElementExactly(t: Tag, c: Bytes, ts: TypeSpec, depth: nat)
    ensures DecodeTypeTLV(t, c, depth) == Ok(ts) <==> t.cls == 2 && TypeMeans(t.number, c, ts, depth)
    decreases |c|, 2
  {
    hide DecodeArrayType, DecodeStructureType, DecodeLeafType, ReadNext;
    hide IsArray, AreComponents, LeafTypeMeans, Unpacked;
    if t.number == 1 {
      ArrayExactly(c, depth, ts);
    } else if t.number == 2 {
      StructureExactly(c, depth, ts);
    } else {
      LeafTypeExactly(t, c, ts);
    }
    ComposedIsNoLeaf(t.number, c, ts);
  }

  lemma ComposedIsNoLeaf(n: int, c: Bytes, ts: TypeSpec)
    ensures n == 1 || n == 2 || ts.ArrayType? || ts.StructureType? ==> !LeafTypeMeans(n, c, ts)
  {}

  lemma {:induction false} ArrayExactly(c: Bytes, depth: nat, ts: TypeSpec)
    ensures
      DecodeArrayType(c, depth) == Ok(ts) <==>
      ts.ArrayType? && exists s :: Unpacked(c, s) && IsArray(s, ts.elements, ts.element, depth)
    decreases |c|, 1
  {
    hide ReadNext, DecodeType, Unpacked, TypeMeans, SkipPacked, ArrayFields;
    if SkipPacked(c).Ok? {
      UnpackedExactly(c, SkipPacked(c).value);
    }
    forall s | Unpacked(c, s)
      ensures SkipPacked(c) == Ok(s)
    {
      UnpackedExactly(c, s);
    }
    if SkipPacked(c).Ok? {
      ArrayFieldsExactly(c, SkipPacked(c).value);
      var f := ArrayFields(c);
      if f.Ok? && DecodeType(f.value.1, depth + 1).TypeGot? {
        TypeExactly(f.value.1, depth + 1, DecodeType(f.value.1, depth + 1).spec, DecodeType(f.value.1, depth + 1).rest);
      }
      if f.Ok? && ts.ArrayType? && TypeAt(f.value.1, ts.element, depth + 1) {
        TypeExactly(f.value.1, depth + 1, ts.element, ReadNext(f.value.1).rest);
      }
    } else {
      NoFields(c);
    }
  }

  lemma NoFields(c: Bytes)
    requires SkipPacked(c).Err?
    ensures ArrayFields(c).Err?
  {
    hide SkipPacked, ExpectTag, DecodeUint;
  }

  // The two fields of an array, the second with whatever is in it.
  lemma ArrayFieldsExactly(c: Bytes, s: Bytes)
    requires SkipPacked(c) == Ok(s)
    ensures
      ArrayFields(c).Ok? <==>
      && Leads(s, 2, false, 1) && (exists n :: UnsignedContent(ReadNext(s).content, n) && n <= 0x1_0000)
      && Leads(ReadNext(s).rest, 2, true, 2)
    ensures ArrayFields(c).Ok? ==>
      && UnsignedContent(ReadNext(s).content, ArrayFields(c).value.0)
      && ArrayFields(c).value.1 == ReadNext(ReadNext(s).rest).content
      && forall n | UnsignedContent(ReadNext(s).content, n) :: n == ArrayFields(c).value.0
  {
    hide ReadNext, SkipPacked, ExpectTag, DecodeUint, UnsignedContent;
    ExpectLeads(s, ContextPrimitive(1));
    if Leads(s, 2, false, 1) {
      var nc, rest := ReadNext(s).content, ReadNext(s).rest;
      ExpectLeads(rest, ContextConstructed(2));
      if DecodeUint(nc).Ok? {
        UintExactly(nc, DecodeUint(nc).value);
      }
      forall n | UnsignedContent(nc, n)
        ensures DecodeUint(nc) == Ok(n)
      {
        UnsignedFits(nc, n);
        UintExactly(nc, n);
      }
    }
  }

  lemma {:induction false} StructureExactly(c: Bytes, depth: nat, ts: TypeSpec)
    ensures
      DecodeStructureType(c, depth) == Ok(ts) <==>
      && ts.StructureType?
      && exists s :: Unpacked(c, s) && Leads(s, 2, true, 1) && AreComponents(ReadNext(s).content, ts.components, depth)
    decreases |c|, 1
  {
    hide ReadNext, DecodeComponents, Unpacked, AreComponents, SkipPacked, ExpectTag;
    if SkipPacked(c).Ok? {
      UnpackedExactly(c, SkipPacked(c).value);
    }
    forall s | Unpacked(c, s)
      ensures SkipPacked(c) == Ok(s)
    {
      UnpackedExactly(c, s);
    }
    if SkipPacked(c).Ok? {
      var s := SkipPacked(c).value;
      ExpectLeads(s, ContextConstructed(1));
      if Leads(s, 2, true, 1) && ts.StructureType? {
        ComponentsExactly(ReadNext(s).content, depth, ts.components);
      }
    }
  }

  lemma {:induction false} ComponentsExactly(s: Bytes, depth: nat, cs: seq<Component>)
    ensures DecodeComponents(s, depth) == Ok(cs) <==> AreComponents(s, cs, depth)
    decreases |s|, 3
  {
    hide ReadNext, DecodeComponent, IsComponent;
    if s == [] {
      NothingLeads();
    } else {
      if cs != [] {
        ComponentExactly(s, depth, cs[0]);
        if Leads(s, 0, true, 16) {
          ComponentsExactly(ReadNext(s).rest, depth, cs[1..]);
        }
      }
      FirstComponent(s, depth, cs);
    }
  }

  lemma NothingLeads()
    ensures forall cls, constructed, number :: !Leads([], cls, constructed, number)
  {
    NothingIsRead();
  }

  lemma FirstComponent(s: Bytes, depth: nat, cs: seq<Component>)
    requires s != []
    ensures
      DecodeComponents(s, depth) == Ok(cs) <==>
      && cs != [] && DecodeComponent(s, depth).ComponentGot? && DecodeComponent(s, depth).component == cs[0]
      && DecodeComponents(DecodeComponent(s, depth).rest, depth) == Ok(cs[1..])
  {
    hide DecodeComponent;
    var r := DecodeComponent(s, depth);
    if r.ComponentGot? && DecodeComponents(r.rest, depth).Ok? {
      var more := DecodeComponents(r.rest, depth).value;
      assert ([r.component] + more)[1..] == more;
    }
    if cs != [] {
      assert cs == [cs[0]] + cs[1..];
    }
  }

  lemma {:induction false} ComponentExactly(s: Bytes, depth: nat, c: Component)
    ensures
      DecodeComponent(s, depth).ComponentGot? && DecodeComponent(s, depth).component == c <==>
      Leads(s, 0, true, 16) && IsComponent(ReadNext(s).content, c, depth)
    ensures DecodeComponent(s, depth).ComponentGot? ==> DecodeComponent(s, depth).rest == ReadNext(s).rest
    decreases |s|, 2
  {
    hide ReadNext, ParseTag, DecodeType, TypeMeans, ExpectTag, ComponentFields;
    ComponentFieldsExactly(s);
    var f := ComponentFields(s);
    if f.Ok? {
      var sc := f.value.1;
      if DecodeType(sc, depth + 1).TypeGot? {
        TypeExactly(sc, depth + 1, DecodeType(sc, depth + 1).spec, DecodeType(sc, depth + 1).rest);
      }
      if TypeAt(sc, c.spec, depth + 1) {
        TypeExactly(sc, depth + 1, c.spec, ReadNext(sc).rest);
      }
    }
  }

  // Whether the name [0] comes first.
  ghost predicate Named(s: Bytes)
    requires ParseTag(s).Got?
  {
    var t := ParseTag(s).value;
    t.cls == 2 && !t.constructed && t.number == 0
  }

  lemma ComponentFieldsExactly(s: Bytes)
    ensures
      ComponentFields(s).Ok? <==>
      && Leads(s, 0, true, 16)
      && var c := ReadNext(s).content;
         && c != [] && ParseTag(c).Got?
         && if Named(c) then ReadNext(c).Next? && Leads(ReadNext(c).rest, 2, true, 1) else Leads(c, 2, true, 1)
    ensures ComponentFields(s).Ok? ==>
      var c := ReadNext(s).content;
      ComponentFields(s).value ==
      if Named(c) then (ReadNext(c).content, ReadNext(ReadNext(c).rest).content, ReadNext(s).rest)
      else ([], ReadNext(c).content, ReadNext(s).rest)
  {
    hide ReadNext, ParseTag, ExpectTag;
    ExpectLeads(s, TAG_SEQUENCE);
    NothingLeads();
    if Leads(s, 0, true, 16) {
      var c := ReadNext(s).content;
      ExpectLeads(c, ContextConstructed(1));
      if ReadNext(c).Next? {
        ExpectLeads(ReadNext(c).rest, ContextConstructed(1));
      }
    }
  }

  // Which type an identifier octet announces.
  lemma TypeHeadDecides(s: Bytes, depth: nat)
    requires DecodeType(s, depth).TypeGot? && s[0] % 0x20 != 0x1f
    ensures
      var t, h := DecodeType(s, depth).spec, s[0];
      && (t.ArrayType? <==> h == 0xa1 || h == 0x81)
      && (t.StructureType? <==> h == 0xa2 || h == 0x82)
      && (t.BooleanType? <==> h == 0x83 || h == 0xa3)
      && (t.BitStringType? <==> h == 0x84 || h == 0xa4)
      && (t.IntegerType? <==> h == 0x85 || h == 0xa5)
      && (t.UnsignedType? <==> h == 0x86 || h == 0xa6)
      && (t.Float32Type? || t.Float64Type? <==> h == 0x87 || h == 0xa7)
      && (t.OctetStringType? <==> h == 0x89 || h == 0xa9)
      && (t.VisibleStringType? <==> h == 0x8a || h == 0xaa)
      && (t.GeneralizedTimeType? <==> h == 0x8b || h == 0xab)
      && (t.BinaryTimeType? <==> h == 0x8c || h == 0xac)
      && (t.MMSStringType? <==> h == 0x90 || h == 0xb0)
      && (t.UTCTimeType? <==> h == 0x91 || h == 0xb1)
  {
    hide ReadNext, DecodeInt, DecodeUint, DecodeArrayType, DecodeStructureType, ExpectTag;
    TagIsFirst(s);
    ComposedTypes(ReadNext(s).content, depth);
  }

  lemma ComposedTypes(content: Bytes, depth: nat)
    ensures DecodeArrayType(content, depth).Ok? ==> DecodeArrayType(content, depth).value.ArrayType?
    ensures DecodeStructureType(content, depth).Ok? ==> DecodeStructureType(content, depth).value.StructureType?
  {
    hide ArrayFields, SkipPacked, DecodeType, DecodeComponents, ExpectTag;
  }

  // GOOSE messages

  // No element [number] comes next.
  ghost predicate Missing(s: Bytes, number: int)
  {
    s == [] || (ParseTag(s).Got? && ParseTag(s).value != Tag(2, false, number % 0x1_0000_0000))
  }

  ghost predicate Unsigned32(c: Bytes, n: int) { UnsignedContent(c, n) && n <= 0xffff_ffff }

  // goCbRef, timeAllowedToLive, datSet and goID, which may be missing.
  ghost predicate IsHead(s: Bytes, h: GooseMessage.Head, rest: Bytes)
  {
    && Leads(s, 2, false, 0) && h.goCbRef == ReadNext(s).content
    && var s1 := ReadNext(s).rest;
       && Leads(s1, 2, false, 1) && Unsigned32(ReadNext(s1).content, h.timeAllowedToLive)
       && var s2 := ReadNext(s1).rest;
          && Leads(s2, 2, false, 2) && h.datSet == ReadNext(s2).content
          && var s3 := ReadNext(s2).rest;
             if Missing(s3, 3) then h.goID == [] && rest == s3
             else Leads(s3, 2, false, 3) && h.goID == ReadNext(s3).content && rest == ReadNext(s3).rest
  }

  // t, stNum and sqNum.
  ghost predicate IsState(s: Bytes, st: GooseMessage.State, rest: Bytes)
  {
    && Leads(s, 2, false, 4) && IsStamp(ReadNext(s).content, st.t, st.quality)
    && var s1 := ReadNext(s).rest;
       && Leads(s1, 2, false, 5) && Unsigned32(ReadNext(s1).content, st.stNum)
       && var s2 := ReadNext(s1).rest;
          Leads(s2, 2, false, 6) && Unsigned32(ReadNext(s2).content, st.sqNum) && rest == ReadNext(s2).rest
  }

  // Seconds, a fraction in units of 2^-24 seconds and the quality.
  ghost predicate IsStamp(c: Bytes, t: ValidTime, quality: byte)
  {
    && |c| == 8 && quality == c[7] && t.secs == Weighed(c[..4])
    && t.ns == Weighed(c[4..7]) * 1_000_000_000 / 0x100_0000
  }

  // test and ndsCom, which are false when missing, confRev and numDatSetEntries.
  ghost predicate IsFlags(s: Bytes, f: Flags, rest: Bytes)
  {
    exists s1, s3 ::
      && IsFlag(s, 7, f.test, s1)
      && Leads(s1, 2, false, 8) && Unsigned32(ReadNext(s1).content, f.confRev)
      && IsFlag(ReadNext(s1).rest, 9, f.ndsCom, s3)
      && Leads(s3, 2, false, 10) && Unsigned32(ReadNext(s3).content, f.numDatSetEntries)
      && rest == ReadNext(s3).rest
  }

  ghost predicate IsFlag(s: Bytes, number: int, b: bool, rest: Bytes)
  {
    if Missing(s, number) then !b && rest == s
    else
      && Leads(s, 2, false, number) && |ReadNext(s).content| == 1
      && (b <==> ReadNext(s).content[0] != 0) && rest == ReadNext(s).rest
  }

  ghost predicate IsPDU(s: Bytes, m: Message)
  {
    exists s1, s2, s3 ::
      && IsHead(s, GooseMessage.Head(m.goCbRef, m.timeAllowedToLive, m.datSet, m.goID), s1)
      && m.quality.Quality? && IsState(s1, GooseMessage.State(m.t, m.quality.octet, m.stNum, m.sqNum), s2)
      && IsFlags(s2, Flags(m.test, m.confRev, m.ndsCom, m.numDatSetEntries), s3)
      && Leads(s3, 2, true, 11) && AllMean(ReadNext(s3).content, m.values, 0)
  }

  // The APPID, a length that covers at least the header and at most what arrived,
  // and the PDU within that length.
  ghost predicate IsGoose(apdu: Bytes, m: Message)
  {
    && |apdu| >= 8 && m.appID == Weighed(apdu[..2])
    && var n := Weighed(apdu[2..4]);
       && 8 <= n <= |apdu|
       && Leads(apdu[8..n], 1, true, 1) && IsPDU(ReadNext(apdu[8..n]).content, m)
  }

  lemma OptionalExactly(s: Bytes, number: uint32)
    ensures OptionalTag(s, ContextPrimitive(number)).Absent? <==> Missing(s, number)
    ensures OptionalTag(s, ContextPrimitive(number)).Present? <==> !Missing(s, number) && Leads(s, 2, false, number)
    ensures OptionalTag(s, ContextPrimitive(number)).Present? ==>
      OptionalTag(s, ContextPrimitive(number)) == Present(ReadNext(s).content, ReadNext(s).rest)
  {
    hide ReadNext, ParseTag;
    TagIsFirst(s);
    NothingIsRead();
  }

  lemma Uint32Exactly(s: Bytes, number: uint32, n: uint32, rest: Bytes)
    ensures
      ExpectUint32(s, number) == Uint32(n, rest) <==>
      Leads(s, 2, false, number) && Unsigned32(ReadNext(s).content, n) && rest == ReadNext(s).rest
  {
    hide ReadNext, ExpectTag, DecodeUint, UnsignedContent;
    ExpectLeads(s, ContextPrimitive(number));
    if Leads(s, 2, false, number) {
      UintExactly(ReadNext(s).content, n);
      if DecodeUint(ReadNext(s).content).Ok? {
        UintExactly(ReadNext(s).content, DecodeUint(ReadNext(s).content).value);
      }
    }
  }

  lemma FlagExactly(s: Bytes, number: uint32, b: bool, rest: Bytes)
    ensures OptionalBool(s, number) == Bool(b, rest) <==> IsFlag(s, number, b, rest)
  {
    hide ReadNext, OptionalTag, Missing;
    OptionalExactly(s, number);
  }

  lemma HeadExactly(s: Bytes, h: GooseMessage.Head, rest: Bytes)
    ensures ParseHead(s) == HeadGot(h, rest) <==> IsHead(s, h, rest)
  {
    hide ReadNext, ExpectTag, ExpectUint32, OptionalTag, Missing, Unsigned32;
    ExpectLeads(s, ContextPrimitive(0));
    if Leads(s, 2, false, 0) {
      var s1 := ReadNext(s).rest;
      if ExpectUint32(s1, 1).Uint32? {
        Uint32Exactly(s1, 1, ExpectUint32(s1, 1).value, ExpectUint32(s1, 1).rest);
      }
      if Leads(s1, 2, false, 1) {
        var s2 := ReadNext(s1).rest;
        Uint32Exactly(s1, 1, h.timeAllowedToLive, s2);
        ExpectLeads(s2, ContextPrimitive(2));
        if Leads(s2, 2, false, 2) {
          OptionalExactly(ReadNext(s2).rest, 3);
        }
      }
    }
  }

  lemma StampExactly(c: Bytes, t: ValidTime, quality: byte)
    ensures |c| == 8 && TimeOfOctets(c) == t && c[7] == quality <==> IsStamp(c, t, quality)
  {
    hide BE, Weighed;
    if |c| == 8 {
      BEWeighs(c[..4]);
      BEWeighs(c[4..7]);
    }
  }

  lemma StateExactly(s: Bytes, st: GooseMessage.State, rest: Bytes)
    ensures ParseState(s) == StateGot(st, rest) <==> IsState(s, st, rest)
  {
    hide ReadNext, ExpectTag, ExpectUint32, Unsigned32, IsStamp, TimeOfOctets;
    ExpectLeads(s, ContextPrimitive(4));
    if Leads(s, 2, false, 4) {
      StampExactly(ReadNext(s).content, st.t, st.quality);
      var s1 := ReadNext(s).rest;
      if ExpectUint32(s1, 5).Uint32? {
        Uint32Exactly(s1, 5, ExpectUint32(s1, 5).value, ExpectUint32(s1, 5).rest);
      }
      if Leads(s1, 2, false, 5) {
        var s2 := ReadNext(s1).rest;
        Uint32Exactly(s1, 5, st.stNum, s2);
        Uint32Exactly(s2, 6, st.sqNum, rest);
      }
    }
  }

  lemma FlagsExactly(s: Bytes, f: Flags, rest: Bytes)
    ensures ParseFlags(s) == FlagsGot(f, rest) <==> IsFlags(s, f, rest)
  {
    hide ReadNext, ExpectUint32, OptionalBool, Unsigned32, IsFlag, Leads;
    if ParseFlags(s) == FlagsGot(f, rest) {
      FlagsTaken(s, f, rest);
    }
    if IsFlags(s, f, rest) {
      FlagsGiven(s, f, rest);
    }
  }

  lemma FlagsTaken(s: Bytes, f: Flags, rest: Bytes)
    requires ParseFlags(s) == FlagsGot(f, rest)
    ensures IsFlags(s, f, rest)
  {
    hide ReadNext, ExpectUint32, OptionalBool, Unsigned32, IsFlag;
    var s1 := OptionalBool(s, 7).rest;
    var s2 := ExpectUint32(s1, 8).rest;
    var s3 := OptionalBool(s2, 9).rest;
    FlagExactly(s, 7, f.test, s1);
    Uint32Exactly(s1, 8, f.confRev, s2);
    FlagExactly(s2, 9, f.ndsCom, s3);
    Uint32Exactly(s3, 10, f.numDatSetEntries, rest);
  }

  lemma FlagsGiven(s: Bytes, f: Flags, rest: Bytes)
    requires IsFlags(s, f, rest)
    ensures ParseFlags(s) == FlagsGot(f, rest)
  {
    hide ReadNext, ExpectUint32, OptionalBool, Unsigned32, IsFlag;
    var s1, s3 :|
      && IsFlag(s, 7, f.test, s1)
      && Leads(s1, 2, false, 8) && Unsigned32(ReadNext(s1).content, f.confRev)
      && IsFlag(ReadNext(s1).rest, 9, f.ndsCom, s3)
      && Leads(s3, 2, false, 10) && Unsigned32(ReadNext(s3).content, f.numDatSetEntries)
      && rest == ReadNext(s3).rest;
    FlagExactly(s, 7, f.test, s1);
    Uint32Exactly(s1, 8, f.confRev, ReadNext(s1).rest);
    FlagExactly(ReadNext(s1).rest, 9, f.ndsCom, s3);
    Uint32Exactly(s3, 10, f.numDatSetEntries, rest);
  }

  lemma PDUTaken(s: Bytes, appID: uint16, m: Message)
    requires ParsePDU(s, appID) == Ok(m)
    ensures IsPDU(s, m) && m.appID == appID
  {
    hide ReadNext, ParseHead, ParseState, ParseFlags, IsHead, IsState, IsFlags, AllMean, DecodeAll, ExpectTag;
    var h, st, f := ParseHead(s), ParseState(ParseHead(s).rest), ParseFlags(ParseState(ParseHead(s).rest).rest);
    HeadExactly(s, h.head, h.rest);
    StateExactly(h.rest, st.state, st.rest);
    FlagsExactly(st.rest, f.flags, f.rest);
    ExpectLeads(f.rest, ContextConstructed(11));
    MembersExactly(ReadNext(f.rest).content, m.values, 0);
  }

  lemma PDUGiven(s: Bytes, appID: uint16, m: Message)
    requires IsPDU(s, m) && m.appID == appID
    ensures ParsePDU(s, appID) == Ok(m)
  {
    hide ReadNext, ParseHead, ParseState, ParseFlags, IsHead, IsState, IsFlags, AllMean, DecodeAll, ExpectTag;
    var h := GooseMessage.Head(m.goCbRef, m.timeAllowedToLive, m.datSet, m.goID);
    var st := GooseMessage.State(m.t, m.quality.octet, m.stNum, m.sqNum);
    var f := Flags(m.test, m.confRev, m.ndsCom, m.numDatSetEntries);
    var s1, s2, s3 :|
      && IsHead(s, h, s1) && IsState(s1, st, s2) && IsFlags(s2, f, s3)
      && Leads(s3, 2, true, 11) && AllMean(ReadNext(s3).content, m.values, 0);
    HeadExactly(s, h, s1);
    StateExactly(s1, st, s2);
    FlagsExactly(s2, f, s3);
    ExpectLeads(s3, ContextConstructed(11));
    MembersExactly(ReadNext(s3).content, m.values, 0);
  }

  // The parser takes exactly the octets that are a GOOSE message, and gives it.
  lemma GooseExactly(apdu: Bytes, m: Message)
    ensures Parse(apdu) == Ok(m) <==> IsGoose(apdu, m)
  {
    hide ReadNext, ParsePDU, IsPDU, ExpectTag, BE, Weighed;
    if |apdu| >= 8 {
      BEWeighs(apdu[..2]);
      BEWeighs(apdu[2..4]);
      var n := Weighed(apdu[2..4]);
      if 8 <= n <= |apdu| {
        ExpectLeads(apdu[8..n], PDU_TAG);
        if Leads(apdu[8..n], 1, true, 1) {
          var c := ReadNext(apdu[8..n]).content;
          BEBounds(apdu[..2]);
          if ParsePDU(c, BE(apdu[..2])) == Ok(m) {
            PDUTaken(c, BE(apdu[..2]), m);
          }
          if IsPDU(c, m) && m.appID == BE(apdu[..2]) {
            PDUGiven(c, BE(apdu[..2]), m);
          }
        }
      }
    }
  }

  // Name lists

  // What the client takes for a page of names: a list of names, and a flag that
  // more follow, which counts as set when it is missing or cannot be read.
  ghost predicate AreNames(s: Bytes, names: seq<Bytes>)
    decreases |names|
  {
    if names == [] then s == []
    else Leads(s, 0, false, 26) && names[0] == ReadNext(s).content && AreNames(ReadNext(s).rest, names[1..])
  }

  ghost predicate SaysMore(s: Bytes)
  {
    !Missing(s, 1) && Leads(s, 2, false, 1) ==> |ReadNext(s).content| == 1 && ReadNext(s).content[0] != 0
  }

  ghost predicate IsNamePage(resp: Bytes, names: seq<Bytes>, more: bool)
  {
    && Leads(resp, 2, true, 1)
    && var c := ReadNext(resp).content;
       Leads(c, 2, true, 0) && AreNames(ReadNext(c).content, names) && (more <==> SaysMore(ReadNext(c).rest))
  }

  lemma {:induction false} NamesExactly(s: Bytes, names: seq<Bytes>)
    ensures Listing.ParseNames(s) == Ok(names) <==> AreNames(s, names)
    decreases |s|
  {
    hide ReadNext, ExpectTag;
    ExpectLeads(s, TAG_VISIBLE_STRING);
    if s == [] {
      NothingLeads();
    } else if names != [] {
      assert names == [names[0]] + names[1..];
      if Leads(s, 0, false, 26) {
        NamesExactly(ReadNext(s).rest, names[1..]);
        var more := Listing.ParseNames(ReadNext(s).rest);
        if more.Ok? {
          assert ([ReadNext(s).content] + more.value)[1..] == more.value;
        }
      }
    }
  }

  lemma MoreExactly(s: Bytes)
    ensures Listing.ParseMore(s) <==> SaysMore(s)
  {
    hide ReadNext, OptionalTag, Missing;
    OptionalExactly(s, 1);
  }

  lemma NamePageExactly(resp: Bytes, names: seq<Bytes>, more: bool)
    ensures Listing.ParseNamePage(resp) == Listing.NamePage(names, more) <==> IsNamePage(resp, names, more)
  {
    hide ReadNext, ExpectTag, Listing.ParseNames, Listing.ParseMore, AreNames, SaysMore;
    ExpectLeads(resp, ContextConstructed(1));
    if Leads(resp, 2, true, 1) {
      var c := ReadNext(resp).content;
      ExpectLeads(c, ContextConstructed(0));
      if Leads(c, 2, true, 0) {
        NamesExactly(ReadNext(c).content, names);
        MoreExactly(ReadNext(c).rest);
      }
    }
  }
}
