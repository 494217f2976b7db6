// The octets that go on the wire, written out as the standards have them:
// X.690 for the elements, ISO 9506-2 for MMS data, type specifications and
// name lists, IEC 61850-8-1 for GOOSE.
//
// Nothing here is built from the tags of the encoder; the lemmas say that what
// the encoder writes is this.

module Wire {
  import opened Octets
  import opened Ber
  import opened BerElement
  import opened BerPrimitives
  import opened MmsData
  import opened MmsTypeSpec
  import opened GooseMessage
  import opened Paging
  import Listing

  // Numbers

  // 256^n.
  function Place(n: nat): nat { if n == 0 then 1 else 256 * Place(n - 1) }

  // What octets mean, the first of them counting most.
  function Weighed(s: Bytes): nat
  {
    if s == [] then 0 else s[0] * Place(|s| - 1) + Weighed(s[1..])
  }

  // Two's complement: a first octet from 0x80 on makes the number negative.
  predicate TwosComplement(s: Bytes, v: int)
  {
    s != [] && v == Weighed(s) - if s[0] >= 0x80 then Place(|s|) else 0
  }

  // The first nine bits are not all alike (section 8.3.2 of X.690).
  predicate Shortest(s: Bytes)
  {
    |s| > 1 ==> !(s[0] == 0 && s[1] < 0x80) && !(s[0] == 0xff && s[1] >= 0x80)
  }

  lemma {:induction false} WeighedSnoc(s: Bytes, b: byte)
    ensures Weighed(s + [b]) == Weighed(s) * 256 + b
    decreases |s|
  {
    var t := s + [b];
    if s == [] {
      assert t[1..] == [];
      assert Place(0) == 1;
    } else {
      assert t[1..] == s[1..] + [b];
      WeighedSnoc(s[1..], b);
      PlaceStep(s[0], |s| - 1);
    }
  }

  lemma PlaceStep(d: nat, n: nat)
    ensures d * Place(n + 1) == d * Place(n) * 256
  {
    assert Place(n + 1) == 256 * Place(n);
  }

  lemma {:induction false} BEWeighs(s: Bytes)
    ensures BE(s) == Weighed(s)
    decreases |s|
  {
    if s != [] {
      var front, last := s[..|s| - 1], s[|s| - 1];
      BEWeighs(front);
      WeighedSnoc(front, last);
      assert s == front + [last];
    }
  }

  lemma {:induction false} SignedWeighs(s: Bytes)
    requires s != []
    ensures TwosComplement(s, SignedBE(s))
    decreases |s|
  {
    if |s| == 1 {
      assert s[1..] == [];
      assert Place(0) == 1 && Place(1) == 256;
    } else {
      var front, last := s[..|s| - 1], s[|s| - 1];
      SignedWeighs(front);
      WeighedSnoc(front, last);
      assert s == front + [last];
      assert Place(|s|) == 256 * Place(|front|);
    }
  }

  // An integer is written in two's complement, as short as that can be, and an
  // unsigned one with room for the sign.
  lemma IntOnWire(v: int64)
    ensures TwosComplement(IntOctets(v), v) && Shortest(IntOctets(v))
  {
    IntRoundTrip(v);
    SignedWeighs(IntOctets(v));
    IntShortest(v);
  }

  lemma UintOnWire(v: uint64)
    ensures TwosComplement(UintOctets(v), v) && Shortest(UintOctets(v))
  {
    UintRoundTrip(v);
    BEWeighs(UintOctets(v));
    UintShortest(v);
  }

  lemma IntShortest(v: int64)
    ensures Shortest(IntOctets(v))
  {
    var n := IntSize(v);
    if n > 1 {
      ToBEHead(v, n);
      IntSizeBeyond(v);
      IntSizeFits(v);
      Shr8Step(v, n - 2);
      TwoOctets(Shr8(v, n - 2));
    }
  }

  lemma TwoOctets(w: int)
    requires -0x80 <= w / 256 <= 0x7f && !(-0x80 <= w <= 0x7f)
    ensures !(w / 256 % 256 == 0 && w % 256 < 0x80) && !(w / 256 % 256 == 0xff && w % 256 >= 0x80)
  {}

  // One octet less would not hold the value.
  lemma {:induction false} IntSizeBeyond(v: int)
    requires IntSize(v) > 1
    ensures !(-0x80 <= Shr8(v, IntSize(v) - 2) <= 0x7f)
    decreases if v < 0 then -v else v
  {
    if IntSize(v / 256) > 1 {
      IntSizeBeyond(v / 256);
    }
  }

  lemma UintShortest(v: uint64)
    ensures Shortest(UintOctets(v))
  {
    var n := UintSize(v);
    UintRoundTrip(v);
    if n > 1 {
      ToBEHead(v, n);
      UintSizeBeyond(v);
      UintSizeFits(v);
      Shr8Step(v, n - 2);
      TwoOctets(Shr8(v, n - 2));
    }
  }

  lemma {:induction false} UintSizeBeyond(v: nat)
    requires UintSize(v) > 1
    ensures Shr8(v, UintSize(v) - 2) > 0x7f
    decreases v
  {
    if UintSize(v / 256) > 1 {
      UintSizeBeyond(v / 256);
    }
  }

  // The first two octets of a number.
  lemma {:induction false} ToBEHead(v: int, n: nat)
    requires n >= 2
    ensures ToBE(v, n)[0] == Shr8(v, n - 1) % 256 && ToBE(v, n)[1] == Shr8(v, n - 2) % 256
    decreases n
  {
    if n > 2 {
      ToBEHead(v / 256, n - 1);
    } else {
      assert ToBE(v / 256, 1) == ToBE(v / 256 / 256, 0) + [v / 256 % 256];
      assert Shr8(v, 1) == v / 256;
    }
  }

  // Elements

  // Section 8.1.3 of X.690; the encoder cuts a length of 2^32 or more.
  function LengthForm(n: nat): Bytes
  {
    if n < 0x80 then [n]
    else if n < 0x100 then [0x81, n]
    else if n < 0x1_0000 then [0x82, n / 0x100, n % 0x100]
    else if n < 0x100_0000 then [0x83, n / 0x1_0000, n / 0x100 % 0x100, n % 0x100]
    else [0x84, n / 0x100_0000 % 0x100, n / 0x1_0000 % 0x100, n / 0x100 % 0x100, n % 0x100]
  }

  function Tlv(head: byte, content: Bytes): Bytes { [head] + LengthForm(|content|) + content }

  lemma LengthOnWire(n: nat)
    ensures LengthOctets(n) == LengthForm(n)
  {
    if n >= 0x80 {
      LongLength(n);
    }
  }

  // The identifier octet of a tag number below 31 (section 8.1.2 of X.690).
  function Identifier(t: Tag): byte
    requires t.number < 31
  {
    t.cls * 0x40 + (if t.constructed then 0x20 else 0) + t.number
  }

  lemma PrimOnWire(t: Tag, content: Bytes)
    requires !t.constructed && t.number < 31
    ensures Encode(Prim(t, content)) == Tlv(Identifier(t), content)
  {
    LengthOnWire(|content|);
  }

  lemma ConsOnWire(t: Tag, els: seq<Element>)
    requires t.number < 31 && BigTagsAll(els) == 0
    ensures Encode(Cons(t, els)) == Tlv(Identifier(t.(constructed := true)), EncodeAll(els))
  {
    EncodedLengthAll(els);
    LengthOnWire(|EncodeAll(els)|);
  }

  // MMS data: the Data CHOICE of ISO 9506-2, and the failure of an AccessResult

  function Data(v: Value): Bytes
    requires !v.NoValue?
    decreases v, 1
  {
    match v
    case Array(children) => Tlv(0xa1, DataList(children))
    case Structure(children) => Tlv(0xa2, DataList(children))
    case Boolean(b) => [0x83, 0x01, if b then 0xff else 0x00]
    case Bits(bits, n) => Tlv(0x84, [(8 - n % 8) % 8] + Fit(bits, (n + 7) / 8))
    case Integer(i) => Tlv(0x85, IntOctets(i))
    case Unsigned(u) => Tlv(0x86, UintOctets(u))
    case Float32(octets) => Tlv(0x87, [8] + octets)
    case Float64(octets) => Tlv(0x87, [11] + octets)
    case OctetString(bytes) => Tlv(0x89, bytes)
    case VisibleString(bytes) => Tlv(0x8a, bytes)
    case GeneralizedTime(bytes) => Tlv(0x8b, bytes)
    case BinaryTime(bytes) => Tlv(0x8c, bytes)
    case MMSString(bytes) => Tlv(0x90, bytes)
    case UTCTime(bytes) => Tlv(0x91, bytes)
    case DataAccessError(code) => Tlv(0x80, UintOctets(code))
  }

  function DataList(vs: seq<Value>): Bytes
    decreases vs, 0
  {
    if vs == [] then [] else (if vs[0].NoValue? then [] else Data(vs[0])) + DataList(vs[1..])
  }

  // Every value goes out as exactly these octets.
  lemma {:induction false} DataOnWire(v: Value)
    requires !v.NoValue?
    ensures EncodeData(v) == Data(v)
    decreases v, 1
  {
    hide Encode, EncodeAll, BigTagsAll, IntOctets, UintOctets, BitStringOctets, LengthForm;
    if v.Array? || v.Structure? {
      AllDataOnWire(v.children);
      DataSizesExact(v.children);
      ConsOnWire(ContextConstructed(if v.Array? then 1 else 2), DataElements(v.children));
    } else {
      LeafOnWire(v);
    }
  }

  lemma LeafOnWire(v: Value)
    requires IsLeaf(v)
    ensures EncodeData(v) == Data(v)
  {
    hide Encode, IntOctets, UintOctets, BitStringOctets, LengthForm, Fit;
    var el := DataElement(v);
    PrimOnWire(el.tag, el.value);
    match v
    case Boolean(b) => OneOctet(0x83, if b then 0xff else 0x00);
    case Bits(bits, n) => BitsOnWire(bits, n);
    case _ =>
  }

  lemma OneOctet(head: byte, b: byte)
    ensures Tlv(head, [b]) == [head, 0x01, b]
  {}

  lemma BitsOnWire(bits: Bytes, n: nat)
    ensures BitStringOctets(BitString(bits, n)) == [(8 - n % 8) % 8] + Fit(bits, (n + 7) / 8)
  {
    hide Fit;
  }

  lemma {:induction false} AllDataOnWire(vs: seq<Value>)
    ensures EncodeAll(DataElements(vs)) == DataList(vs)
    decreases vs, 0
  {
    hide Encode, DataElement, Data;
    if vs != [] {
      AllDataOnWire(vs[1..]);
      if vs[0].NoValue? {
        assert DataElements(vs) == DataElements(vs[1..]);
      } else {
        DataOnWire(vs[0]);
        ListCons(DataElement(vs[0]), DataElements(vs[1..]));
      }
    }
  }

  // Type specifications

  function Type(ts: TypeSpec): Bytes
    decreases ts
  {
    match ts
    case ArrayType(n, element) =>
      Tlv(0xa1, Tlv(0x81, UintOctets(ToUint64(n))) + Tlv(0xa2, Type(element)))
    case StructureType(cs) => Tlv(0xa2, Tlv(0xa1, Components(cs)))
    case BooleanType => [0x83, 0x00]
    case BitStringType(size) => Tlv(0x84, IntOctets(size))
    case IntegerType(size) => Tlv(0x85, UintOctets(ToUint64(size)))
    case UnsignedType(size) => Tlv(0x86, UintOctets(ToUint64(size)))
    case Float32Type => [0xa7, 0x06, 0x02, 0x01, 0x20, 0x02, 0x01, 0x08]
    case Float64Type => [0xa7, 0x06, 0x02, 0x01, 0x40, 0x02, 0x01, 0x0b]
    case OctetStringType(size) => Tlv(0x89, IntOctets(size))
    case VisibleStringType(size) => Tlv(0x8a, IntOctets(size))
    case GeneralizedTimeType => [0x8b, 0x00]
    case BinaryTimeType => [0x8c, 0x01, 0xff]
    case MMSStringType(size) => Tlv(0x90, IntOctets(size))
    case UTCTimeType => [0x91, 0x00]
  }

  function Components(cs: seq<Component>): Bytes
    decreases cs
  {
    if cs == [] then []
    else Tlv(0x30, Tlv(0x80, cs[0].name) + Tlv(0xa1, Type(cs[0].spec))) + Components(cs[1..])
  }

  // Every type specification goes out as exactly these octets.
  lemma {:induction false} TypeOnWire(ts: TypeSpec)
    ensures Encode(TypeElement(ts)) == Type(ts)
    decreases ts, 1
  {
    hide Encode, EncodeAll, BigTagsAll, IntOctets, UintOctets, LengthForm;
    match ts
    case ArrayType(n, element) =>
      TypeOnWire(element);
      ArrayOnWire(n, element);
    case StructureType(cs) =>
      ComponentsOnWire(cs);
      ComponentTagsSmall(cs);
      ListOfOne(Cons(ContextConstructed(1), ComponentElements(cs)));
      ConsOnWire(ContextConstructed(1), ComponentElements(cs));
      SmallInside(ContextConstructed(1), ComponentElements(cs));
      ConsOnWire(ContextConstructed(2), [Cons(ContextConstructed(1), ComponentElements(cs))]);
    case Float32Type => FloatOnWire(32, 8);
    case Float64Type => FloatOnWire(64, 11);
    case _ => LeafTypeOnWire(ts);
  }

  lemma LeafTypeOnWire(ts: TypeSpec)
    requires !ts.ArrayType? && !ts.StructureType? && !ts.Float32Type? && !ts.Float64Type?
    ensures Encode(TypeElement(ts)) == Type(ts)
  {
    hide Encode, IntOctets, UintOctets;
    var el := TypeElement(ts);
    PrimOnWire(el.tag, el.value);
  }

  lemma SmallInside(t: Tag, els: seq<Element>)
    requires t.number < 31 && BigTagsAll(els) == 0
    ensures BigTags(Cons(t, els)) == 0 && BigTagsAll([Cons(t, els)]) == 0
  {
    ListCons(Cons(t, els), []);
    assert [Cons(t, els)] + [] == [Cons(t, els)];
  }

  lemma ListOfOne(el: Element)
    ensures EncodeAll([el]) == Encode(el) && BigTagsAll([el]) == BigTags(el)
  {
    hide Encode;
    ListCons(el, []);
    assert [el] + [] == [el];
    assert EncodeAll([]) == [] && Encode(el) + [] == Encode(el);
  }

  lemma ListOfTwo(a: Element, b: Element)
    ensures EncodeAll([a, b]) == Encode(a) + Encode(b) && BigTagsAll([a, b]) == BigTags(a) + BigTags(b)
  {
    hide Encode;
    ListOfOne(b);
    ListCons(a, [b]);
    assert [a] + [b] == [a, b];
  }

  lemma ArrayOnWire(n: int64, element: TypeSpec)
    requires Encode(TypeElement(element)) == Type(element)
    ensures Encode(TypeElement(ArrayType(n, element))) == Type(ArrayType(n, element))
  {
    hide Encode, EncodeAll, BigTagsAll, BigTags, UintOctets, LengthForm, Type, TypeElement;
    var count := UintElem(ContextPrimitive(1), ToUint64(n));
    var inner := Cons(ContextConstructed(2), [TypeElement(element)]);
    TypeTagsSmall(element);
    ListOfOne(TypeElement(element));
    ConsOnWire(ContextConstructed(2), [TypeElement(element)]);
    SmallInside(ContextConstructed(2), [TypeElement(element)]);
    PrimOnWire(ContextPrimitive(1), UintOctets(ToUint64(n)));
    PrimIsSmall(ContextPrimitive(1), UintOctets(ToUint64(n)));
    ListOfTwo(count, inner);
    ConsOnWire(ContextConstructed(1), [count, inner]);
    ArrayUnfolds(n, element);
  }

  lemma ArrayUnfolds(n: int64, element: TypeSpec)
    ensures
      TypeElement(ArrayType(n, element)) ==
      Cons(ContextConstructed(1),
           [UintElem(ContextPrimitive(1), ToUint64(n)), Cons(ContextConstructed(2), [TypeElement(element)])])
    ensures
      Type(ArrayType(n, element)) ==
      Tlv(0xa1, Tlv(0x81, UintOctets(ToUint64(n))) + Tlv(0xa2, Type(element)))
  {
    hide UintOctets, Tlv;
  }

  lemma PrimIsSmall(t: Tag, content: Bytes)
    requires !t.constructed && t.number < 31
    ensures BigTags(Prim(t, content)) == 0
  {}

  lemma FloatOnWire(width: int64, exponent: int64)
    requires 0 <= width < 0x80 && 0 <= exponent < 0x80
    ensures Encode(FloatElement(width, exponent)) == [0xa7, 0x06, 0x02, 0x01, width, 0x02, 0x01, exponent]
  {
    hide Encode, EncodeAll, BigTagsAll, BigTags, IntOctets, LengthForm;
    var a, b := IntElem(TAG_INTEGER, width), IntElem(TAG_INTEGER, exponent);
    SmallInt(width);
    SmallInt(exponent);
    PrimOnWire(TAG_INTEGER, [width]);
    PrimOnWire(TAG_INTEGER, [exponent]);
    OneOctet(0x02, width);
    OneOctet(0x02, exponent);
    PrimIsSmall(TAG_INTEGER, [width]);
    PrimIsSmall(TAG_INTEGER, [exponent]);
    ListOfTwo(a, b);
    ConsOnWire(ContextConstructed(7), [a, b]);
    assert EncodeAll([a, b]) == [0x02, 0x01, width, 0x02, 0x01, exponent];
    SixOctets([0x02, 0x01, width, 0x02, 0x01, exponent]);
  }

  lemma SmallInt(v: int64)
    requires 0 <= v < 0x80
    ensures IntOctets(v) == [v]
  {
    assert ToBE(v / 256, 0) == [];
  }

  lemma SixOctets(s: Bytes)
    requires |s| == 6
    ensures Tlv(0xa7, s) == [0xa7, 0x06] + s
  {}

  lemma {:induction false} ComponentsOnWire(cs: seq<Component>)
    ensures EncodeAll(ComponentElements(cs)) == Components(cs)
    decreases cs, 0
  {
    hide Encode, ComponentElement, Type;
    if cs != [] {
      TypeOnWire(cs[0].spec);
      ComponentOnWire(cs[0]);
      ComponentsOnWire(cs[1..]);
      ListCons(ComponentElement(cs[0]), ComponentElements(cs[1..]));
    }
  }

  lemma ComponentOnWire(c: Component)
    requires Encode(TypeElement(c.spec)) == Type(c.spec)
    ensures Encode(ComponentElement(c)) == Tlv(0x30, Tlv(0x80, c.name) + Tlv(0xa1, Type(c.spec)))
  {
    hide Encode, EncodeAll, BigTagsAll, BigTags, LengthForm, Type, TypeElement;
    var name := Prim(ContextPrimitive(0), c.name);
    var inner := Cons(ContextConstructed(1), [TypeElement(c.spec)]);
    TypeTagsSmall(c.spec);
    ListOfOne(TypeElement(c.spec));
    ConsOnWire(ContextConstructed(1), [TypeElement(c.spec)]);
    SmallInside(ContextConstructed(1), [TypeElement(c.spec)]);
    PrimOnWire(ContextPrimitive(0), c.name);
    PrimIsSmall(ContextPrimitive(0), c.name);
    ListOfTwo(name, inner);
    ConsOnWire(TAG_SEQUENCE, [name, inner]);
  }

  // The GOOSE APDU: APPID, length and two reserved fields, then the PDU

  function Number16(n: nat): (s: Bytes)
    ensures |s| == 2
  {
    [n / 0x100 % 0x100, n % 0x100]
  }

  function Number32(n: nat): (s: Bytes)
    ensures |s| == 4
  {
    [n / 0x100_0000 % 0x100, n / 0x1_0000 % 0x100, n / 0x100 % 0x100, n % 0x100]
  }

  function Flag(head: byte, b: bool): Bytes { [head, 0x01, if b then 0xff else 0x00] }

  // Seconds since 1970, the fraction of a second in units of 2^-24, the quality.
  function Stamp(t: ValidTime, quality: byte): Bytes
  {
    var c := Clamp(t);
    var f := c.ns * 0x100_0000 / 1_000_000_000;
    Number32(c.secs) + [f / 0x1_0000, f / 0x100 % 0x100, f % 0x100, quality]
  }

  function GooseFields(m: Message): Bytes
  {
    Tlv(0x80, m.goCbRef) + Tlv(0x81, UintOctets(m.timeAllowedToLive)) + Tlv(0x82, m.datSet) + Tlv(0x83, m.goID)
    + (Tlv(0x84, Stamp(m.t, if m.quality.DefaultQuality? then 0x8a else m.quality.octet))
       + Tlv(0x85, UintOctets(m.stNum)) + Tlv(0x86, UintOctets(m.sqNum)))
    + (Flag(0x87, m.test) + Tlv(0x88, UintOctets(m.confRev))
       + Flag(0x89, m.ndsCom) + Tlv(0x8a, UintOctets(m.numDatSetEntries)))
    + Tlv(0xab, DataList(m.values))
  }

  function Goose(m: Message): Bytes
  {
    var pdu := Tlv(0x61, GooseFields(m));
    Number16(m.appID) + Number16(8 + |pdu|) + [0, 0, 0, 0] + pdu
  }

  // Every message goes out as exactly these octets.
  lemma GooseOnWire(m: Message)
    ensures Marshal(m) == Goose(m)
  {
    hide Encode, GooseFields, Tlv, ToBE;
    PDUOnWire(m);
    PDUTagsSmall(m);
    EncodedLength(PDU(m));
    Octets2(m.appID);
    Octets2(ApduLength(m));
  }

  lemma PDUOnWire(m: Message)
    ensures Encode(PDU(m)) == Tlv(0x61, GooseFields(m))
  {
    hide Encode, EncodeAll, BigTagsAll, Fields, GooseFields, Tlv;
    FieldsOnWire(m);
    PDUTagsSmall(m);
    ConsOnWire(PDU_TAG, Fields(m));
  }

  lemma FieldsOnWire(m: Message)
    ensures EncodeAll(Fields(m)) == GooseFields(m)
  {
    hide Encode, EncodeAll, HeadFields, StateFields, FlagFields, GooseMessage.AllData, Tlv, Stamp;
    var head, state, flags, data := HeadFields(m), StateFields(m), FlagFields(m), [GooseMessage.AllData(m)];
    EncodeAllConcat(head, state + (flags + data));
    EncodeAllConcat(state, flags + data);
    EncodeAllConcat(flags, data);
    HeadOnWire(m);
    StateOnWire(m);
    FlagsOnWire(m);
    ValuesOnWire(m);
  }

  lemma ListOfFour(a: Element, b: Element, c: Element, d: Element)
    ensures EncodeAll([a, b, c, d]) == Encode(a) + Encode(b) + Encode(c) + Encode(d)
  {
    hide Encode;
    ListOfTwo(c, d);
    ListCons(b, [c, d]);
    ListCons(a, [b, c, d]);
    assert [b] + [c, d] == [b, c, d] && [a] + [b, c, d] == [a, b, c, d];
  }

  lemma HeadOnWire(m: Message)
    ensures
      EncodeAll(HeadFields(m)) ==
      Tlv(0x80, m.goCbRef) + Tlv(0x81, UintOctets(m.timeAllowedToLive)) + Tlv(0x82, m.datSet) + Tlv(0x83, m.goID)
  {
    hide Encode, EncodeAll, Tlv, UintOctets;
    PrimOnWire(ContextPrimitive(0), m.goCbRef);
    PrimOnWire(ContextPrimitive(1), UintOctets(m.timeAllowedToLive));
    PrimOnWire(ContextPrimitive(2), m.datSet);
    PrimOnWire(ContextPrimitive(3), m.goID);
    var f := HeadFields(m);
    ListOfFour(f[0], f[1], f[2], f[3]);
  }

  lemma StampOnWire(t: ValidTime, q: byte)
    ensures UTCTimeOctets(t, q) == Stamp(t, q)
  {
    hide ToBE;
    var c := Clamp(t);
    Octets4(c.secs);
    Octets3(Fraction(c.ns));
  }

  lemma StateOnWire(m: Message)
    ensures
      EncodeAll(StateFields(m)) ==
      Tlv(0x84, Stamp(m.t, if m.quality.DefaultQuality? then 0x8a else m.quality.octet))
      + Tlv(0x85, UintOctets(m.stNum)) + Tlv(0x86, UintOctets(m.sqNum))
  {
    hide Encode, EncodeAll, Tlv, UintOctets, UTCTimeOctets, Stamp;
    var q := if m.quality.DefaultQuality? then 0x8a else m.quality.octet;
    StampOnWire(m.t, q);
    PrimOnWire(ContextPrimitive(4), Stamp(m.t, q));
    PrimOnWire(ContextPrimitive(5), UintOctets(m.stNum));
    PrimOnWire(ContextPrimitive(6), UintOctets(m.sqNum));
    var f := StateFields(m);
    ListOfTwo(f[1], f[2]);
    ListCons(f[0], [f[1], f[2]]);
    assert [f[0]] + [f[1], f[2]] == f;
  }

  lemma FlagsOnWire(m: Message)
    ensures
      EncodeAll(FlagFields(m)) ==
      Flag(0x87, m.test) + Tlv(0x88, UintOctets(m.confRev))
      + Flag(0x89, m.ndsCom) + Tlv(0x8a, UintOctets(m.numDatSetEntries))
  {
    hide Encode, EncodeAll, Tlv, UintOctets;
    FlagOnWire(7, m.test);
    PrimOnWire(ContextPrimitive(8), UintOctets(m.confRev));
    FlagOnWire(9, m.ndsCom);
    PrimOnWire(ContextPrimitive(10), UintOctets(m.numDatSetEntries));
    var f := FlagFields(m);
    ListOfFour(f[0], f[1], f[2], f[3]);
  }

  lemma FlagOnWire(n: uint32, b: bool)
    requires n < 31
    ensures Encode(BoolElem(ContextPrimitive(n), b)) == Flag(0x80 + n, b)
  {
    hide Encode;
    PrimOnWire(ContextPrimitive(n), BoolOctets(b));
    OneOctet(0x80 + n, if b then 0xff else 0x00);
  }

  lemma ValuesOnWire(m: Message)
    ensures EncodeAll([GooseMessage.AllData(m)]) == Tlv(0xab, DataList(m.values))
  {
    hide Encode, EncodeAll, Tlv, BigTagsAll;
    DataSizesExact(m.values);
    AllDataOnWire(m.values);
    ConsOnWire(ContextConstructed(11), DataElements(m.values));
    ListOfOne(GooseMessage.AllData(m));
  }

  // Name lists: the response of getNameList, and the confirmed response around it

  function Names(names: seq<Bytes>): Bytes
  {
    if names == [] then [] else Tlv(0x1a, names[0]) + Names(names[1..])
  }

  function NameList(names: seq<Bytes>, more: bool): Bytes
  {
    Tlv(0xa1, Tlv(0xa0, Names(names)) + Flag(0x81, more))
  }

  lemma {:induction false} NamesOnWire(names: seq<Bytes>)
    ensures EncodeAll(Elements(Listing.NameItems(names))) == Names(names)
    ensures BigTagsAll(Elements(Listing.NameItems(names))) == 0
    decreases |names|
  {
    hide Encode, Tlv, BigTags;
    var items := Listing.NameItems(names);
    if names != [] {
      var el := Prim(TAG_VISIBLE_STRING, names[0]);
      NamesOnWire(names[1..]);
      assert items[1..] == Listing.NameItems(names[1..]);
      assert Elements(items) == [el] + Elements(items[1..]);
      ListCons(el, Elements(items[1..]));
      PrimOnWire(TAG_VISIBLE_STRING, names[0]);
      PrimIsSmall(TAG_VISIBLE_STRING, names[0]);
    }
  }

  // Every page of names goes out as exactly these octets, and so does the
  // response that carries it.
  lemma NameListOnWire(names: seq<Bytes>, more: bool, invokeID: uint32)
    ensures
      var resp := ListResponse(NAME_LIST, Elements(Listing.NameItems(names)), more);
      && Encode(resp) == NameList(names, more)
      && Encode(ConfirmedResponse(invokeID, resp)) ==
         Tlv(0xa1, Tlv(0x02, UintOctets(invokeID)) + NameList(names, more))
  {
    hide Encode, EncodeAll, Tlv, BigTags, BigTagsAll, Elements, UintOctets;
    var els := Elements(Listing.NameItems(names));
    var list, flag := Cons(ContextConstructed(0), els), BoolElem(ContextPrimitive(1), more);
    NamesOnWire(names);
    ConsOnWire(ContextConstructed(0), els);
    SmallInside(ContextConstructed(0), els);
    FlagOnWire(1, more);
    PrimIsSmall(ContextPrimitive(1), BoolOctets(more));
    ListOfTwo(list, flag);
    ConsOnWire(ContextConstructed(1), [list, flag]);
    SmallInside(ContextConstructed(1), [list, flag]);
    var resp := Cons(ContextConstructed(1), [list, flag]);
    PrimOnWire(TAG_INTEGER, UintOctets(invokeID));
    PrimIsSmall(TAG_INTEGER, UintOctets(invokeID));
    ListOfTwo(UintElem(TAG_INTEGER, invokeID), resp);
    ConsOnWire(ContextConstructed(1), [UintElem(TAG_INTEGER, invokeID), resp]);
  }

  // The response of readJournal, whose service number takes a second octet.
  lemma JournalOnWire(els: seq<Element>, more: bool)
    requires BigTagsAll(els) == 0
    ensures
      var list := Tlv(0xa0, EncodeAll(els)) + Flag(0x81, more);
      Encode(ListResponse(READ_JOURNAL, els, more)) == [0xbf, 0x41] + LengthForm(|list|) + list
  {
    hide EncodeAll, Tlv, BigTagsAll, BigTags, SizeAll, LengthOctets, LengthForm;
    var list, flag := Cons(ContextConstructed(0), els), BoolElem(ContextPrimitive(1), more);
    ConsOnWire(ContextConstructed(0), els);
    SmallInside(ContextConstructed(0), els);
    FlagOnWire(1, more);
    PrimIsSmall(ContextPrimitive(1), BoolOctets(more));
    ListOfTwo(list, flag);
    EncodedLengthAll([list, flag]);
    LengthOnWire(|EncodeAll([list, flag])|);
    assert Flagged(Digits(65)) == [0x41];
  }
}
