// MMS values and their BER form, the Data CHOICE of ISO 9506-2
// (mms/value.go, mms/value_codec.go).

module MmsData {
  import opened Octets
  import opened Ber
  import opened BerDecoder
  import opened BerGrammar
  import opened BerElement
  import opened BerPrimitives

  // A floating point is carried as its IEEE 754 octets.
  datatype Value =
    | NoValue
    | Array(children: seq<Value>)
    | Structure(children: seq<Value>)
    | Boolean(b: bool)
    | Bits(bits: Bytes, bitLen: nat)
    | Integer(i: int64)
    | Unsigned(u: uint64)
    | Float32(octets: Bytes)
    | Float64(octets: Bytes)
    | OctetString(bytes: Bytes)
    | VisibleString(bytes: Bytes)
    | GeneralizedTime(bytes: Bytes)
    | BinaryTime(bytes: Bytes)
    | MMSString(bytes: Bytes)
    | UTCTime(bytes: Bytes)
    | DataAccessError(code: byte)

  const MAX_VALUE_DEPTH := 32

  // What the constructors of Value guarantee about its parts.
  ghost predicate WellFormed(v: Value)
  {
    match v
    case NoValue => false
    case Array(children) => forall c | c in children :: WellFormed(c)
    case Structure(children) => forall c | c in children :: WellFormed(c)
    case Bits(bits, bitLen) => |bits| == OctetsNeeded(bitLen)
    case Float32(octets) => |octets| == 4
    case Float64(octets) => |octets| == 8
    case BinaryTime(bytes) => |bytes| == 4 || |bytes| == 6
    case UTCTime(bytes) => |bytes| == 8
    case _ => true
  }

  // How deep the deepest value lies below v.
  function Nesting(v: Value): (n: nat)
    decreases v, 1
  {
    if (v.Array? || v.Structure?) && v.children != [] then 1 + NestingAll(v.children) else 0
  }

  function NestingAll(vs: seq<Value>): (n: nat)
    decreases vs, 0
  {
    if vs == [] then 0
    else
      var a := Nesting(vs[0]);
      var b := NestingAll(vs[1..]);
      if a > b then a else b
  }

  function DataElement(v: Value): Element
    requires !v.NoValue?
    decreases v, 1
  {
    match v
    case Array(children) => Cons(ContextConstructed(1), DataElements(children))
    case Structure(children) => Cons(ContextConstructed(2), DataElements(children))
    case Boolean(b) => BoolElem(ContextPrimitive(3), b)
    case Bits(bits, bitLen) => BitStringElem(ContextPrimitive(4), BitString(bits, bitLen))
    case Integer(i) => IntElem(ContextPrimitive(5), i)
    case Unsigned(u) => UintElem(ContextPrimitive(6), u)
    case Float32(octets) => Prim(ContextPrimitive(7), [8] + octets)
    case Float64(octets) => Prim(ContextPrimitive(7), [11] + octets)
    case OctetString(bytes) => Prim(ContextPrimitive(9), bytes)
    case VisibleString(bytes) => Prim(ContextPrimitive(10), bytes)
    case GeneralizedTime(bytes) => Prim(ContextPrimitive(11), bytes)
    case BinaryTime(bytes) => Prim(ContextPrimitive(12), bytes)
    case MMSString(bytes) => Prim(ContextPrimitive(16), bytes)
    case UTCTime(bytes) => Prim(ContextPrimitive(17), bytes)
    case DataAccessError(code) => UintElem(ContextPrimitive(0), code)
  }

  // A missing value contributes nothing.
  function DataElements(vs: seq<Value>): (els: seq<Element>)
    decreases vs, 0
  {
    if vs == [] then []
    else (if vs[0].NoValue? then [] else [DataElement(vs[0])]) + DataElements(vs[1..])
  }

  function EncodeData(v: Value): (s: Bytes)
  {
    if v.NoValue? then [] else Encode(DataElement(v))
  }

  function DataSize(v: Value): nat
  {
    if v.NoValue? then 0 else Size(DataElement(v))
  }

  // Decoding

  datatype DataRead = Datum(value: Value, rest: Bytes) | NoDatum(error: Error)

  function Decode(s: Bytes, depth: nat): (r: DataRead)
    ensures r.Datum? ==> |r.rest| + 2 <= |s|
    decreases |s|, 0
  {
    if depth > MAX_VALUE_DEPTH then NoDatum(TooDeep)
    else
      match ReadNext(s)
      case NoNext(e) => NoDatum(e)
      case Next(tag, content, rest) =>
        match DecodeTLV(tag, content, depth)
        case Err(e) => NoDatum(e)
        case Ok(v) => Datum(v, rest)
  }

  function DecodeTLV(tag: Tag, content: Bytes, depth: nat): (r: Result<Value>)
    decreases |content|, 2
  {
    if tag.cls != CONTEXT_SPECIFIC then Err(Unexpected)
    else if tag.number == 1 || tag.number == 2 then
      match DecodeAll(content, depth + 1)
      case Err(e) => Err(e)
      case Ok(vs) => Ok(if tag.number == 1 then Array(vs) else Structure(vs))
    else DecodeLeaf(tag, content)
  }

  function DecodeAll(s: Bytes, depth: nat): (r: Result<seq<Value>>)
    decreases |s|, 1
  {
    if s == [] then Ok([])
    else
      match Decode(s, depth)
      case NoDatum(e) => Err(e)
      case Datum(v, rest) =>
        match DecodeAll(rest, depth)
        case Err(e) => Err(e)
        case Ok(vs) => Ok([v] + vs)
  }

  function DecodeLeaf(tag: Tag, content: Bytes): (r: Result<Value>)
  {
    match tag.number
    case 3 => (match DecodeBool(content) case Err(e) => Err(e) case Ok(b) => Ok(Boolean(b)))
    case 4 =>
      (match DecodeBitString(content)
       case Err(e) => Err(e)
       case Ok(bs) => Ok(Bits(Fit(bs.bits, OctetsNeeded(bs.length)), bs.length)))
    case 5 => (match DecodeInt(content) case Err(e) => Err(e) case Ok(n) => Ok(Integer(n)))
    case 6 => (match DecodeUint(content) case Err(e) => Err(e) case Ok(n) => Ok(Unsigned(n)))
    case 7 =>
      if |content| == 5 && content[0] == 8 then Ok(Float32(content[1..]))
      else if |content| == 9 && content[0] == 11 then Ok(Float64(content[1..]))
      else Err(BadValue)
    case 9 => Ok(OctetString(content))
    case 10 => Ok(VisibleString(content))
    case 11 => Ok(GeneralizedTime(content))
    case 12 => if |content| != 4 && |content| != 6 then Err(BadValue) else Ok(BinaryTime(content))
    case 16 => Ok(MMSString(content))
    case 17 => if |content| != 8 then Err(BadValue) else Ok(UTCTime(content))
    case 0 =>
      if tag.constructed then Err(Unexpected)
      else (match DecodeUint(content) case Err(e) => Err(e) case Ok(n) => Ok(DataAccessError(n % 0x100)))
    case _ => Err(Unexpected)
  }

  // Every tag of the Data CHOICE takes one octet, so sizes are exact.
  lemma {:induction false} DataSizeExact(v: Value)
    requires !v.NoValue?
    ensures BigTags(DataElement(v)) == 0
    ensures |EncodeData(v)| == DataSize(v)
    decreases v, 1
  {
    if v.Array? || v.Structure? {
      DataSizesExact(v.children);
    }
    EncodedLength(DataElement(v));
  }

  lemma {:induction false} DataSizesExact(vs: seq<Value>)
    ensures BigTagsAll(DataElements(vs)) == 0
    decreases vs, 0
  {
    if vs != [] {
      DataSizesExact(vs[1..]);
      if vs[0].NoValue? {
        assert DataElements(vs) == DataElements(vs[1..]);
      } else {
        DataSizeExact(vs[0]);
        assert DataElements(vs) == [DataElement(vs[0])] + DataElements(vs[1..]);
      }
    }
  }

  // Round trip

  predicate IsLeaf(v: Value)
  {
    !v.NoValue? && !v.Array? && !v.Structure?
  }

  lemma NumberRoundTrip(v: Value)
    requires WellFormed(v) && (v.Bits? || v.Integer? || v.Unsigned? || v.DataAccessError?)
    ensures DecodeLeaf(DataElement(v).tag, ContentOctets(DataElement(v))) == Ok(v)
  {
    hide DecodeInt, DecodeUint, DecodeBitString, IntOctets, UintOctets, BitStringOctets;
    match v
    case Bits(bits, bitLen) =>
      BitStringRoundTrip(BitString(bits, bitLen));
      assert Fit(bits, OctetsNeeded(bitLen)) == bits;
    case Integer(i) => IntRoundTrip(i);
    case Unsigned(u) => UintRoundTrip(u);
    case DataAccessError(code) => UintRoundTrip(code);
  }

  lemma OctetsRoundTrip(v: Value)
    requires WellFormed(v) && IsLeaf(v) && !(v.Bits? || v.Integer? || v.Unsigned? || v.DataAccessError?)
    ensures DecodeLeaf(DataElement(v).tag, ContentOctets(DataElement(v))) == Ok(v)
  {
    hide DecodeInt, DecodeUint, DecodeBitString, IntOctets, UintOctets, BitStringOctets;
  }

  lemma LeafRoundTrip(v: Value, depth: nat)
    requires WellFormed(v) && IsLeaf(v)
    ensures DecodeTLV(DataElement(v).tag, ContentOctets(DataElement(v)), depth) == Ok(v)
  {
    hide DecodeLeaf, ContentOctets;
    if v.Bits? || v.Integer? || v.Unsigned? || v.DataAccessError? {
      NumberRoundTrip(v);
    } else {
      OctetsRoundTrip(v);
    }
  }

  // A well-formed value comes back from its octets, whatever follows them,
  // exactly when it is nested no deeper than the decoder goes and its content
  // is below four gigaoctets; a deeper one is refused as too deep.
  lemma RoundTrip(v: Value, rest: Bytes, depth: nat)
    requires WellFormed(v)
    ensures Decode(EncodeData(v) + rest, depth) == Datum(v, rest) <==>
            depth + Nesting(v) <= MAX_VALUE_DEPTH && ContentSize(DataElement(v)) < 0x1_0000_0000
    ensures depth + Nesting(v) > MAX_VALUE_DEPTH && ContentSize(DataElement(v)) < 0x1_0000_0000 ==>
            Decode(EncodeData(v) + rest, depth) == NoDatum(TooDeep)
  {
    if ContentSize(DataElement(v)) < 0x1_0000_0000 {
      hide Decode, DataElement, Encode, WellFormed;
      ShortRoundTrip(v, rest, depth);
    } else {
      hide ReadNext, DecodeTLV, DataElement, Encode, ContentSize, Size;
      DataSizeExact(v);
      DataIsPlain(v);
      LongContentIsCut(DataElement(v), rest);
    }
  }

  lemma DataIsPlain(v: Value)
    requires !v.NoValue?
    ensures !DataElement(v).RawTLV? && (BigTags(DataElement(v)) == 0 ==> BigTagsInside(DataElement(v)) == 0)
    ensures ContentSize(DataElement(v)) < DataSize(v)
  {}

  lemma {:induction false} ShortRoundTrip(v: Value, rest: Bytes, depth: nat)
    requires WellFormed(v) && ContentSize(DataElement(v)) < 0x1_0000_0000
    ensures Decode(EncodeData(v) + rest, depth) ==
            if depth + Nesting(v) <= MAX_VALUE_DEPTH then Datum(v, rest) else NoDatum(TooDeep)
    decreases v, 1
  {
    hide ReadNext, DecodeTLV, Encode;
    if depth <= MAX_VALUE_DEPTH {
      var el := DataElement(v);
      DataSizeExact(v);
      EncodedReads(el, rest);
      ContentRoundTrip(v, depth);
    }
  }

  lemma {:induction false} ContentRoundTrip(v: Value, depth: nat)
    requires WellFormed(v) && ContentSize(DataElement(v)) < 0x1_0000_0000 && depth <= MAX_VALUE_DEPTH
    ensures
      DecodeTLV(DataElement(v).tag, ContentOctets(DataElement(v)), depth) ==
      if depth + Nesting(v) <= MAX_VALUE_DEPTH then Ok(v) else Err(TooDeep)
    decreases v, 0
  {
    if v.Array? || v.Structure? {
      assert ContentSize(DataElement(v)) == SizeAll(DataElements(v.children));
      RoundTripAll(v.children, depth + 1);
    } else {
      LeafRoundTrip(v, depth);
    }
  }

  lemma {:induction false} RoundTripAll(vs: seq<Value>, depth: nat)
    requires forall c | c in vs :: WellFormed(c)
    requires SizeAll(DataElements(vs)) < 0x1_0000_0000
    ensures DecodeAll(EncodeAll(DataElements(vs)), depth) ==
            if vs == [] || depth + NestingAll(vs) <= MAX_VALUE_DEPTH then Ok(vs) else Err(TooDeep)
    decreases vs
  {
    hide Decode, DataElement, Encode;
    if vs != [] {
      var els := DataElements(vs[1..]);
      assert WellFormed(vs[0]);
      assert DataElements(vs) == [DataElement(vs[0])] + els;
      DataIsPlain(vs[0]);
      ShortRoundTrip(vs[0], EncodeAll(els), depth);
      RoundTripAll(vs[1..], depth);
      DataSizeExact(vs[0]);
      assert EncodeAll(DataElements(vs)) == EncodeData(vs[0]) + EncodeAll(els);
      NotEmpty(vs[0]);
      assert vs == [vs[0]] + vs[1..];
    }
  }

  lemma NotEmpty(v: Value)
    requires WellFormed(v)
    ensures EncodeData(v) != []
  {
    DataSizeExact(v);
  }

  // Re-encoding what was decoded

  lemma LengthSizeLeast(len: Bytes, n: nat)
    requires IsLength(len, n)
    ensures LengthSize(n) <= |len|
  {
    if len[0] >= 0x80 { BEBounds(len[1..]); }
  }

  // An element read took no fewer octets than the encoder would use for its
  // content, or was in the indefinite form.
  lemma ElementOverhead(s: Bytes)
    requires ReadNext(s).Next?
    ensures
      var r := ReadNext(s); var used := |s| - |r.rest|;
      used >= |r.content| + 1 + LengthSize(|r.content|) || used >= |r.content| + 4
  {
    hide ParseTLV, ParseHeader, ParseTag, IsIdentifier, IsLength;
    var p := ParseTLV(s, 0);
    HeaderOfTLV(s, 0);
    HeaderSound(s);
    var h := ParseHeader(s);
    if h.value.1.Definite? {
      DefiniteSound(s, 0);
      LengthSizeLeast(s[ParseTag(s).used..h.used], h.value.1.n);
    } else {
      IndefiniteSound(s, 0);
    }
  }

  // A decoded value is well formed and within the decoder's depth, and encodes
  // into at most twice the octets it was read from.
  lemma {:induction false} DecodedFits(s: Bytes, depth: nat)
    requires Decode(s, depth).Datum?
    ensures var r := Decode(s, depth);
      && WellFormed(r.value)
      && depth + Nesting(r.value) <= MAX_VALUE_DEPTH
      && DataSize(r.value) <= 2 * (|s| - |r.rest|)
    decreases |s|, 0
  {
    hide ReadNext, DecodeTLV;
    var n := ReadNext(s);
    ElementOverhead(s);
    if (n.tag.number == 1 || n.tag.number == 2) && n.tag.cls == CONTEXT_SPECIFIC {
      ContainerFits(n.tag, n.content, depth);
    } else {
      LeafFits(n.tag, n.content, depth);
    }
  }

  lemma {:induction false} ContainerFits(tag: Tag, content: Bytes, depth: nat)
    requires tag.cls == CONTEXT_SPECIFIC && (tag.number == 1 || tag.number == 2)
    requires depth <= MAX_VALUE_DEPTH
    requires DecodeTLV(tag, content, depth).Ok?
    ensures var v := DecodeTLV(tag, content, depth).value;
      && WellFormed(v)
      && depth + Nesting(v) <= MAX_VALUE_DEPTH
      && DataSize(v) <= 1 + LengthSize(2 * |content|) + 2 * |content|
    decreases |content|, 2
  {
    hide DecodeAll;
    DecodedAllFit(content, depth + 1);
    var v := DecodeTLV(tag, content, depth).value;
    assert ContentSize(DataElement(v)) == SizeAll(DataElements(v.children));
  }

  lemma {:induction false} DecodedAllFit(s: Bytes, depth: nat)
    requires DecodeAll(s, depth).Ok?
    ensures var vs := DecodeAll(s, depth).value;
      && (forall v | v in vs :: WellFormed(v))
      && (vs != [] ==> depth + NestingAll(vs) <= MAX_VALUE_DEPTH)
      && SizeAll(DataElements(vs)) <= 2 * |s|
    decreases |s|, 1
  {
    hide Decode;
    if s != [] {
      var r := Decode(s, depth);
      DecodedFits(s, depth);
      DecodedAllFit(r.rest, depth);
      var vs := DecodeAll(r.rest, depth).value;
      FitsCons(r.value, vs, depth);
    }
  }

  lemma FitsCons(v: Value, vs: seq<Value>, depth: nat)
    requires WellFormed(v) && forall w | w in vs :: WellFormed(w)
    requires depth + Nesting(v) <= MAX_VALUE_DEPTH
    requires vs != [] ==> depth + NestingAll(vs) <= MAX_VALUE_DEPTH
    ensures forall w | w in [v] + vs :: WellFormed(w)
    ensures depth + NestingAll([v] + vs) <= MAX_VALUE_DEPTH
    ensures SizeAll(DataElements([v] + vs)) == DataSize(v) + SizeAll(DataElements(vs))
  {
    assert ([v] + vs)[1..] == vs;
    assert DataElements([v] + vs) == [DataElement(v)] + DataElements(vs);
    assert ([DataElement(v)] + DataElements(vs))[1..] == DataElements(vs);
  }

  lemma LeafFits(tag: Tag, content: Bytes, depth: nat)
    requires DecodeTLV(tag, content, depth).Ok?
    requires !(tag.cls == CONTEXT_SPECIFIC && (tag.number == 1 || tag.number == 2))
    ensures var v := DecodeTLV(tag, content, depth).value;
      && WellFormed(v) && IsLeaf(v)
      && (DataSize(v) <= 1 + LengthSize(|content|) + |content| || DataSize(v) <= |content| + 3)
  {
    hide IntOctets, UintOctets, BitStringOctets, DecodeInt, DecodeUint, DecodeBitString;
    LeafSize(tag, content);
  }

  lemma LeafSize(tag: Tag, content: Bytes)
    requires DecodeLeaf(tag, content).Ok?
    ensures var v := DecodeLeaf(tag, content).value;
      && WellFormed(v) && IsLeaf(v)
      && ContentSize(DataElement(v)) <= |content| + (if tag.number == 6 || tag.number == 0 then 1 else 0)
      && (tag.number == 6 || tag.number == 0 ==> |content| <= 9)
  {
    var v := DecodeLeaf(tag, content).value;
    match v
    case Bits(bits, bitLen) =>
      assert |BitStringOctets(BitString(bits, bitLen))| == 1 + OctetsNeeded(bitLen);
    case Integer(i) => IntSizeMinimal(content);
    case Unsigned(u) => UintReencoded(content);
    case DataAccessError(code) =>
      UintReencoded(content);
      UintSizeMono(code, BE(content));
    case _ =>
  }

  // Decoding, encoding and decoding again gives the first decode exactly when
  // what was decoded encodes into a content below four gigaoctets, which it does
  // for any input below two.
  lemma DecodeEncodeDecode(s: Bytes, rest: Bytes)
    requires Decode(s, 0).Datum?
    ensures
      var v := Decode(s, 0).value;
      && WellFormed(v)
      && (Decode(EncodeData(v) + rest, 0) == Datum(v, rest) <==> ContentSize(DataElement(v)) < 0x1_0000_0000)
      && (|s| < 0x8000_0000 ==> ContentSize(DataElement(v)) < 0x1_0000_0000)
  {
    hide Decode, DataElement, ContentSize;
    DecodedFits(s, 0);
    DataIsPlain(Decode(s, 0).value);
    RoundTrip(Decode(s, 0).value, rest, 0);
  }

  // AccessResult: a [0] failure or a Data success.
  function DecodeAccessResult(s: Bytes): (r: DataRead)
  {
    match ParseTag(s)
    case Failed(e, _) => NoDatum(e)
    case Got(tag, _) =>
      if tag.cls == CONTEXT_SPECIFIC && tag.number == 0 && !tag.constructed then
        match ReadNext(s)
        case NoNext(e) => NoDatum(e)
        case Next(_, content, rest) =>
          (match DecodeUint(content)
           case Err(e) => NoDatum(e)
           case Ok(n) => Datum(DataAccessError(n % 0x100), rest))
      else Decode(s, 0)
  }

  // The two branches never disagree with decoding the element as Data.
  lemma AccessResultIsData(s: Bytes)
    ensures DecodeAccessResult(s) == Decode(s, 0)
  {
    TagIsFirst(s);
  }

  lemma TagIsFirst(s: Bytes)
    ensures ParseTag(s).Failed? ==> ReadNext(s) == NoNext(ParseTag(s).error)
    ensures ReadNext(s).Next? ==> ParseTag(s).Got? && ReadNext(s).tag == ParseTag(s).value
  {
    hide ParseTag, ParseLength, ParseContents;
  }

  // The decoder as it runs

  method AppendData(dst: Bytes, v: Value) returns (out: Bytes)
    ensures out == dst + EncodeData(v)
  {
    if v.NoValue? {
      return dst;
    }
    out := Append(dst, DataElement(v));
  }

  method ReadData(dec: Decoder, depth: nat) returns (r: Result<Value>)
    requires dec.Valid()
    modifies dec
    ensures dec.Valid()
    ensures
      match Decode(old(dec.Rest()), depth)
      case Datum(v, rest) => r == Ok(v) && dec.Rest() == rest
      case NoDatum(e) => r == Err(e)
    decreases |dec.Rest()|, 0
  {
    hide ReadNext, DecodeTLV;
    if depth > MAX_VALUE_DEPTH {
      return Err(TooDeep);
    }
    var e := dec.ReadTLV();
    if e.NoNext? {
      return Err(e.error);
    }
    r := ReadDataTLV(e.tag, e.content, depth);
  }

  method ReadDataTLV(tag: Tag, content: Bytes, depth: nat) returns (r: Result<Value>)
    ensures r == DecodeTLV(tag, content, depth)
    decreases |content|, 2
  {
    hide DecodeLeaf, DecodeAll;
    if tag.cls != CONTEXT_SPECIFIC {
      return Err(Unexpected);
    }
    if tag.number != 1 && tag.number != 2 {
      return DecodeLeaf(tag, content);
    }
    var vs := ReadChildren(content, depth + 1);
    if vs.Err? {
      return Err(vs.error);
    }
    r := Ok(if tag.number == 1 then Array(vs.value) else Structure(vs.value));
  }

  method ReadChildren(content: Bytes, depth: nat) returns (r: Result<seq<Value>>)
    ensures r == DecodeAll(content, depth)
    decreases |content|, 1
  {
    var inner := new Decoder(content);
    var children: seq<Value> := [];
    var more := inner.More();
    PrependUnit(children, DecodeAll(content, depth));
    while more
      invariant inner.Valid() && fresh(inner)
      invariant |inner.Rest()| <= |content|
      invariant more <==> inner.Rest() != []
      invariant DecodeAll(content, depth) == Prepend(children, DecodeAll(inner.Rest(), depth))
      decreases |inner.Rest()|
    {
      ghost var s := inner.Rest();
      var c := ReadData(inner, depth);
      DecodeAllStep(s, depth, children);
      if c.Err? {
        return Err(c.error);
      }
      children := children + [c.value];
      more := inner.More();
    }
    PrependUnit(children, DecodeAll(content, depth));
    return Ok(children);
  }

  function Prepend(vs: seq<Value>, r: Result<seq<Value>>): Result<seq<Value>>
  {
    if r.Err? then r else Ok(vs + r.value)
  }

  lemma PrependUnit(vs: seq<Value>, r: Result<seq<Value>>)
    ensures Prepend([], r) == r
    ensures Prepend(vs, Ok([])) == Ok(vs)
  {
    assert vs + [] == vs;
    if r.Ok? {
      assert [] + r.value == r.value;
    }
  }

  lemma DecodeAllStep(s: Bytes, depth: nat, vs: seq<Value>)
    requires s != []
    ensures
      match Decode(s, depth)
      case NoDatum(e) => Prepend(vs, DecodeAll(s, depth)) == Err(e)
      case Datum(v, rest) => Prepend(vs, DecodeAll(s, depth)) == Prepend(vs + [v], DecodeAll(rest, depth))
  {
    hide Decode;
    if Decode(s, depth).Datum? && DecodeAll(Decode(s, depth).rest, depth).Ok? {
      var v := Decode(s, depth).value;
      var more := DecodeAll(Decode(s, depth).rest, depth).value;
      assert vs + ([v] + more) == vs + [v] + more;
    }
  }
}
