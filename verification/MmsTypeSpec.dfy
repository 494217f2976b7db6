// MMS type specifications, their BER form and the values built from them
// (mms/typespec.go).

module MmsTypeSpec {
  import opened Octets
  import opened Ber
  import opened BerDecoder
  import opened BerElement
  import opened BerPrimitives
  import opened MmsData

  datatype TypeSpec =
    | ArrayType(elements: int64, element: TypeSpec)
    | StructureType(components: seq<Component>)
    | BooleanType
    | BitStringType(size: int64)
    | IntegerType(size: int64)
    | UnsignedType(size: int64)
    | Float32Type
    | Float64Type
    | OctetStringType(size: int64)
    | VisibleStringType(size: int64)
    | GeneralizedTimeType
    | BinaryTimeType
    | MMSStringType(size: int64)
    | UTCTimeType

  datatype Component = Component(name: Bytes, spec: TypeSpec)

  const MAX_ARRAY_ELEMENTS := 0x1_0000
  const MAX_BIT_STRING_BITS := 0x1_0000
  const MAX_DEFAULT_VALUES := 0x10_0000
  const CEILING := MAX_DEFAULT_VALUES + 1

  // The conversions between int and uint64.
  function ToUint64(n: int64): uint64 { if n < 0 then n + 0x1_0000_0000_0000_0000 else n }

  function ToInt64(n: uint64): int64 { if n < 0x8000_0000_0000_0000 then n else n - 0x1_0000_0000_0000_0000 }

  function TypeElement(ts: TypeSpec): Element
    decreases ts
  {
    match ts
    case ArrayType(n, element) =>
      Cons(ContextConstructed(1),
           [UintElem(ContextPrimitive(1), ToUint64(n)), Cons(ContextConstructed(2), [TypeElement(element)])])
    case StructureType(components) =>
      Cons(ContextConstructed(2), [Cons(ContextConstructed(1), ComponentElements(components))])
    case BooleanType => Prim(ContextPrimitive(3), [])
    case BitStringType(size) => IntElem(ContextPrimitive(4), size)
    case IntegerType(size) => UintElem(ContextPrimitive(5), ToUint64(size))
    case UnsignedType(size) => UintElem(ContextPrimitive(6), ToUint64(size))
    case Float32Type => FloatElement(32, 8)
    case Float64Type => FloatElement(64, 11)
    case OctetStringType(size) => IntElem(ContextPrimitive(9), size)
    case VisibleStringType(size) => IntElem(ContextPrimitive(10), size)
    case GeneralizedTimeType => Prim(ContextPrimitive(11), [])
    case BinaryTimeType => BoolElem(ContextPrimitive(12), true)
    case MMSStringType(size) => IntElem(ContextPrimitive(16), size)
    case UTCTimeType => Prim(ContextPrimitive(17), [])
  }

  function FloatElement(width: int64, exponent: int64): Element
  {
    Cons(ContextConstructed(7), [IntElem(TAG_INTEGER, width), IntElem(TAG_INTEGER, exponent)])
  }

  function ComponentElement(c: Component): Element
    decreases c, 0
  {
    Cons(TAG_SEQUENCE, [Prim(ContextPrimitive(0), c.name), Cons(ContextConstructed(1), [TypeElement(c.spec)])])
  }

  function ComponentElements(cs: seq<Component>): seq<Element>
    decreases cs
  {
    if cs == [] then [] else [ComponentElement(cs[0])] + ComponentElements(cs[1..])
  }

  // Decoding

  datatype TypeRead = TypeGot(spec: TypeSpec, rest: Bytes) | NoType(error: Error)

  function DecodeType(s: Bytes, depth: nat): (r: TypeRead)
    decreases |s|, 1
  {
    if depth > MAX_VALUE_DEPTH then NoType(TooDeep)
    else
      match ReadNext(s)
      case NoNext(e) => NoType(e)
      case Next(tag, content, rest) =>
        match DecodeTypeTLV(tag, content, depth)
        case Err(e) => NoType(e)
        case Ok(ts) => TypeGot(ts, rest)
  }

  function DecodeTypeTLV(tag: Tag, content: Bytes, depth: nat): (r: Result<TypeSpec>)
    decreases |content|, 2
  {
    if tag.cls != CONTEXT_SPECIFIC then Err(Unexpected)
    else if tag.number == 1 then DecodeArrayType(content, depth)
    else if tag.number == 2 then DecodeStructureType(content, depth)
    else DecodeLeafType(tag, content)
  }

  // The packed flag, when there, is skipped.
  function SkipPacked(content: Bytes): (r: Result<Bytes>)
    ensures r.Ok? ==> |r.value| <= |content|
  {
    match OptionalTag(content, ContextPrimitive(0))
    case NoMaybe(e) => Err(e)
    case Absent => Ok(content)
    case Present(_, rest) => Ok(rest)
  }

  // numberOfElements and the content of elementType.
  function ArrayFields(content: Bytes): (r: Result<(nat, Bytes)>)
    ensures r.Ok? ==> r.value.0 <= MAX_ARRAY_ELEMENTS && |r.value.1| < |content|
  {
    match SkipPacked(content)
    case Err(e) => Err(e)
    case Ok(s) =>
      match ExpectTag(s, ContextPrimitive(1))
      case NoField(e) => Err(e)
      case Field(nc, rest) =>
        match DecodeUint(nc)
        case Err(e) => Err(e)
        case Ok(n) =>
          if n > MAX_ARRAY_ELEMENTS then Err(BadLength)
          else
            match ExpectTag(rest, ContextConstructed(2))
            case NoField(e) => Err(e)
            case Field(ec, _) => Ok((n, ec))
  }

  function DecodeArrayType(content: Bytes, depth: nat): (r: Result<TypeSpec>)
    decreases |content|, 1
  {
    match ArrayFields(content)
    case Err(e) => Err(e)
    case Ok((n, ec)) =>
      match DecodeType(ec, depth + 1)
      case NoType(e) => Err(e)
      case TypeGot(element, _) => Ok(ArrayType(n, element))
  }

  function DecodeStructureType(content: Bytes, depth: nat): (r: Result<TypeSpec>)
    decreases |content|, 1
  {
    match SkipPacked(content)
    case Err(e) => Err(e)
    case Ok(s) =>
      match ExpectTag(s, ContextConstructed(1))
      case NoField(e) => Err(e)
      case Field(comps, _) =>
        match DecodeComponents(comps, depth)
        case Err(e) => Err(e)
        case Ok(cs) => Ok(StructureType(cs))
  }

  // The name of a component, empty when absent, and the content of its type.
  function ComponentFields(s: Bytes): (r: Result<(Bytes, Bytes, Bytes)>)
    ensures r.Ok? ==> |r.value.1| < |s| && |r.value.2| < |s|
  {
    match ExpectTag(s, TAG_SEQUENCE)
    case NoField(e) => Err(e)
    case Field(inside, rest) =>
      match OptionalTag(inside, ContextPrimitive(0))
      case NoMaybe(e) => Err(e)
      case Absent =>
        (match ExpectTag(inside, ContextConstructed(1))
         case NoField(e) => Err(e)
         case Field(sc, _) => Ok(([], sc, rest)))
      case Present(name, inner) =>
        (match ExpectTag(inner, ContextConstructed(1))
         case NoField(e) => Err(e)
         case Field(sc, _) => Ok((name, sc, rest)))
  }

  datatype ComponentRead = ComponentGot(component: Component, rest: Bytes) | NoComponent(error: Error)

  function DecodeComponent(s: Bytes, depth: nat): (r: ComponentRead)
    ensures r.ComponentGot? ==> |r.rest| < |s|
    decreases |s|, 2
  {
    match ComponentFields(s)
    case Err(e) => NoComponent(e)
    case Ok((name, sc, rest)) =>
      match DecodeType(sc, depth + 1)
      case NoType(e) => NoComponent(e)
      case TypeGot(ts, _) => ComponentGot(Component(name, ts), rest)
  }

  function DecodeComponents(s: Bytes, depth: nat): (r: Result<seq<Component>>)
    decreases |s|, 3
  {
    if s == [] then Ok([])
    else
      match DecodeComponent(s, depth)
      case NoComponent(e) => Err(e)
      case ComponentGot(c, rest) =>
        match DecodeComponents(rest, depth)
        case Err(e) => Err(e)
        case Ok(cs) => Ok([c] + cs)
  }

  function DecodeWidth(content: Bytes): (r: Result<int64>)
  {
    match DecodeUint(content) case Err(e) => Err(e) case Ok(n) => Ok(ToInt64(n))
  }

  function DecodeFloatType(content: Bytes): (r: Result<TypeSpec>)
  {
    match ExpectTag(content, TAG_INTEGER)
    case NoField(e) => Err(e)
    case Field(fw, _) =>
      match DecodeInt(fw)
      case Err(e) => Err(e)
      case Ok(width) => Ok(if width > 32 then Float64Type else Float32Type)
  }

  function DecodeLeafType(tag: Tag, content: Bytes): (r: Result<TypeSpec>)
  {
    match tag.number
    case 3 => Ok(BooleanType)
    case 4 =>
      (match DecodeInt(content)
       case Err(e) => Err(e)
       case Ok(n) =>
         if n > MAX_BIT_STRING_BITS || n < -MAX_BIT_STRING_BITS then Err(BadLength) else Ok(BitStringType(n)))
    case 5 => (match DecodeWidth(content) case Err(e) => Err(e) case Ok(n) => Ok(IntegerType(n)))
    case 6 => (match DecodeWidth(content) case Err(e) => Err(e) case Ok(n) => Ok(UnsignedType(n)))
    case 7 => DecodeFloatType(content)
    case 9 => (match DecodeInt(content) case Err(e) => Err(e) case Ok(n) => Ok(OctetStringType(n)))
    case 10 => (match DecodeInt(content) case Err(e) => Err(e) case Ok(n) => Ok(VisibleStringType(n)))
    case 11 => Ok(GeneralizedTimeType)
    case 12 => Ok(BinaryTimeType)
    case 16 => (match DecodeInt(content) case Err(e) => Err(e) case Ok(n) => Ok(MMSStringType(n)))
    case 17 => Ok(UTCTimeType)
    case _ => Err(Unexpected)
  }

  function DecodeTypeSpec(s: Bytes): (r: TypeRead)
  {
    match DecodeType(s, 0)
    case NoType(e) => NoType(e)
    case TypeGot(ts, rest) => if ValueCount(ts) > MAX_DEFAULT_VALUES then NoType(BadLength) else TypeGot(ts, rest)
  }

  // Counting

  function ValueCount(ts: TypeSpec): (n: nat)
    ensures 1 <= n <= CEILING
    decreases ts
  {
    match ts
    case ArrayType(elements, element) =>
      var per := ValueCount(element);
      if elements <= 0 then 1
      else if elements >= CEILING / per then CEILING
      else ProductBelow(elements, per); 1 + elements * per
    case StructureType(components) => ComponentCount(components, 1)
    case _ => 1
  }

  function ComponentCount(cs: seq<Component>, total: nat): (n: nat)
    requires 1 <= total <= CEILING
    ensures total <= n <= CEILING
    decreases cs
  {
    if cs == [] then total
    else
      var t := total + ValueCount(cs[0].spec);
      if t >= CEILING then CEILING else ComponentCount(cs[1..], t)
  }

  lemma ProductBelow(n: nat, per: nat)
    requires per >= 1 && n < CEILING / per
    ensures n * per + per <= CEILING
  {
    assert (n + 1) * per <= CEILING / per * per <= CEILING;
  }

  function DefaultValue(ts: TypeSpec): (v: Value)
    requires NoNegativeArray(ts)
    decreases ts
  {
    match ts
    case ArrayType(elements, element) =>
      var d := DefaultValue(element);
      Array(seq(elements, _ => d))
    case StructureType(components) => Structure(DefaultValues(components))
    case BooleanType => Boolean(false)
    case BitStringType(size) =>
      var n: int := if size < 0 then 0 - size else size;
      Bits(seq(OctetsNeeded(n), _ => 0), n)
    case IntegerType(_) => Integer(0)
    case UnsignedType(_) => Unsigned(0)
    case Float32Type => Float32([0, 0, 0, 0])
    case Float64Type => Float64([0, 0, 0, 0, 0, 0, 0, 0])
    case OctetStringType(_) => OctetString([])
    case VisibleStringType(_) => VisibleString([])
    case MMSStringType(_) => MMSString([])
    case GeneralizedTimeType => GeneralizedTime([])
    case BinaryTimeType => BinaryTime([0, 0, 0, 0, 0, 0])
    case UTCTimeType => UTCTime([0, 0, 0, 0, 0, 0, 0, 0])
  }

  function DefaultValues(cs: seq<Component>): (vs: seq<Value>)
    requires forall c | c in cs :: NoNegativeArray(c.spec)
    ensures |vs| == |cs|
    decreases cs
  {
    if cs == [] then [] else [DefaultValue(cs[0].spec)] + DefaultValues(cs[1..])
  }

  // An array of a negative number of elements cannot be materialised.
  predicate NoNegativeArray(ts: TypeSpec)
  {
    match ts
    case ArrayType(elements, element) => elements >= 0 && NoNegativeArray(element)
    case StructureType(components) => forall c | c in components :: NoNegativeArray(c.spec)
    case _ => true
  }

  // The default value, said of the type

  // A value of the type: the same kind, the same members, the length of an array
  // and the number of bits, and the octets its kind has.
  ghost predicate OfType(v: Value, ts: TypeSpec)
    decreases v, 1
  {
    match ts
    case ArrayType(n, element) => v.Array? && |v.children| == n && forall c | c in v.children :: OfType(c, element)
    case StructureType(cs) => v.Structure? && OfTypes(v.children, cs)
    case BooleanType => v.Boolean?
    case BitStringType(size) =>
      v.Bits? && v.bitLen == (if size < 0 then 0 - size else size) && |v.bits| == (v.bitLen + 7) / 8
    case IntegerType(_) => v.Integer?
    case UnsignedType(_) => v.Unsigned?
    case Float32Type => v.Float32? && |v.octets| == 4
    case Float64Type => v.Float64? && |v.octets| == 8
    case OctetStringType(_) => v.OctetString?
    case VisibleStringType(_) => v.VisibleString?
    case GeneralizedTimeType => v.GeneralizedTime?
    case BinaryTimeType => v.BinaryTime? && |v.bytes| == 6
    case MMSStringType(_) => v.MMSString?
    case UTCTimeType => v.UTCTime? && |v.bytes| == 8
  }

  ghost predicate OfTypes(vs: seq<Value>, cs: seq<Component>)
    decreases vs, 0
  {
    |vs| == |cs| && forall i | 0 <= i < |vs| :: OfType(vs[i], cs[i].spec)
  }

  ghost predicate Zeros(s: Bytes) { forall b | b in s :: b == 0 }

  // No leaf has anything in it: false, zero, no text.
  ghost predicate Blank(v: Value)
  {
    match v
    case Array(children) => forall c | c in children :: Blank(c)
    case Structure(children) => forall c | c in children :: Blank(c)
    case Boolean(b) => !b
    case Bits(bits, _) => Zeros(bits)
    case Integer(i) => i == 0
    case Unsigned(u) => u == 0
    case Float32(octets) => Zeros(octets)
    case Float64(octets) => Zeros(octets)
    case OctetString(bytes) => bytes == []
    case VisibleString(bytes) => bytes == []
    case GeneralizedTime(bytes) => bytes == []
    case BinaryTime(bytes) => Zeros(bytes)
    case MMSString(bytes) => bytes == []
    case UTCTime(bytes) => Zeros(bytes)
    case _ => false
  }

  // The default value of a type is the one blank value of that type.
  lemma {:induction false} DefaultIsBlank(ts: TypeSpec, v: Value)
    requires NoNegativeArray(ts)
    ensures OfType(v, ts) && Blank(v) <==> v == DefaultValue(ts)
    decreases ts, 1
  {
    match ts
    case ArrayType(n, element) => DefaultArray(n, element, v);
    case StructureType(cs) =>
      if v.Structure? {
        DefaultMembers(cs, v.children);
      }
    case BitStringType(size) => DefaultBits(size, v);
    case _ =>
      if Sized(ts) {
        DefaultSized(ts, v);
      } else {
        DefaultLeaf(ts, v);
      }
  }

  lemma CopiesOnly<T>(s: seq<T>, x: T)
    ensures (forall e | e in s :: e == x) <==> s == seq(|s|, _ => x)
  {
    if forall e | e in s :: e == x {
      forall i | 0 <= i < |s|
        ensures s[i] == x
      {
        assert s[i] in s;
      }
    }
  }

  lemma ZerosOnly(s: Bytes)
    ensures Zeros(s) <==> s == seq(|s|, _ => 0)
    ensures |s| == 4 ==> (Zeros(s) <==> s == [0, 0, 0, 0])
    ensures |s| == 6 ==> (Zeros(s) <==> s == [0, 0, 0, 0, 0, 0])
    ensures |s| == 8 ==> (Zeros(s) <==> s == [0, 0, 0, 0, 0, 0, 0, 0])
  {
    CopiesOnly(s, 0);
  }

  lemma DefaultBits(size: int64, v: Value)
    ensures OfType(v, BitStringType(size)) && Blank(v) <==> v == DefaultValue(BitStringType(size))
  {
    hide Zeros;
    var n: int := if size < 0 then 0 - size else size;
    assert OctetsNeeded(n) == (n + 7) / 8;
    if v.Bits? {
      ZerosOnly(v.bits);
    }
  }

  predicate Sized(ts: TypeSpec) { ts.Float32Type? || ts.Float64Type? || ts.BinaryTimeType? || ts.UTCTimeType? }

  lemma DefaultSized(ts: TypeSpec, v: Value)
    requires Sized(ts)
    ensures OfType(v, ts) && Blank(v) <==> v == DefaultValue(ts)
  {
    hide Zeros;
    if v.Float32? || v.Float64? {
      ZerosOnly(v.octets);
    } else if v.BinaryTime? || v.UTCTime? {
      ZerosOnly(v.bytes);
    }
  }

  lemma DefaultLeaf(ts: TypeSpec, v: Value)
    requires !ts.ArrayType? && !ts.StructureType? && !ts.BitStringType? && !Sized(ts)
    ensures OfType(v, ts) && Blank(v) <==> v == DefaultValue(ts)
  {
    hide Zeros;
  }

  lemma {:induction false} DefaultArray(n: int64, element: TypeSpec, v: Value)
    requires n >= 0 && NoNegativeArray(element)
    ensures OfType(v, ArrayType(n, element)) && Blank(v) <==> v == DefaultValue(ArrayType(n, element))
    decreases element, 2
  {
    hide DefaultValue, NoNegativeArray;
    var d := DefaultValue(element);
    DefaultIsBlank(element, d);
    ArrayDefault(n, element);
    if v.Array? {
      forall c | c in v.children
        ensures OfType(c, element) && Blank(c) <==> c == d
      {
        DefaultIsBlank(element, c);
      }
      CopiesOnly(v.children, d);
    }
  }

  lemma ArrayDefault(n: int64, element: TypeSpec)
    requires n >= 0 && NoNegativeArray(element)
    ensures NoNegativeArray(ArrayType(n, element))
    ensures var d := DefaultValue(element); DefaultValue(ArrayType(n, element)) == Array(seq(n, _ => d))
  {}

  lemma {:induction false} DefaultMembers(cs: seq<Component>, vs: seq<Value>)
    requires forall c | c in cs :: NoNegativeArray(c.spec)
    ensures OfTypes(vs, cs) && (forall v | v in vs :: Blank(v)) <==> vs == DefaultValues(cs)
    decreases cs, 0
  {
    hide OfType, Blank, DefaultValue, NoNegativeArray;
    if cs != [] && vs != [] {
      var c, v := cs[0], vs[0];
      DefaultIsBlank(c.spec, v);
      DefaultMembers(cs[1..], vs[1..]);
      assert cs == [c] + cs[1..] && vs == [v] + vs[1..];
      assert OfTypes(vs, cs) <==> OfType(v, c.spec) && OfTypes(vs[1..], cs[1..]);
      assert (forall w | w in vs :: Blank(w)) <==> Blank(v) && (forall w | w in vs[1..] :: Blank(w));
      assert vs == DefaultValues(cs) <==> v == DefaultValue(c.spec) && vs[1..] == DefaultValues(cs[1..]);
    }
  }

  // How many values a value is made of.
  function Values(v: Value): (n: nat)
    decreases v, 1
  {
    1 + if v.Array? || v.Structure? then ValuesAll(v.children) else 0
  }

  function ValuesAll(vs: seq<Value>): (n: nat)
    decreases vs, 0
  {
    if vs == [] then 0 else Values(vs[0]) + ValuesAll(vs[1..])
  }

  lemma {:induction false} ValuesOfCopies(v: Value, n: nat)
    ensures ValuesAll(seq(n, _ => v)) == n * Values(v)
    decreases n
  {
    var vs := seq(n, _ => v);
    if n > 0 {
      assert vs[1..] == seq(n - 1, _ => v);
      ValuesOfCopies(v, n - 1);
      assert n * Values(v) == Values(v) + (n - 1) * Values(v);
    }
  }

  // No array is cut short: each has no elements, or fewer than the quotient of
  // the ceiling and the values of one element.
  ghost predicate Uncut(ts: TypeSpec)
    requires NoNegativeArray(ts)
    decreases ts
  {
    match ts
    case ArrayType(n, element) =>
      n == 0 || (Uncut(element) && n < CEILING / Values(DefaultValue(element)))
    case StructureType(components) => forall c | c in components :: Uncut(c.spec)
    case _ => true
  }

  // The count is the number of values built if no array is cut and they are
  // within the limit, and otherwise the ceiling.
  lemma {:induction false} CountClosed(ts: TypeSpec)
    requires NoNegativeArray(ts)
    ensures
      var n := Values(DefaultValue(ts));
      ValueCount(ts) == if Uncut(ts) && n <= MAX_DEFAULT_VALUES then n else CEILING
    decreases ts, 1
  {
    match ts
    case ArrayType(n, element) =>
      CountClosed(element);
      ValuesOfCopies(DefaultValue(element), n);
      ArrayCountClosed(n, element);
    case StructureType(components) => ComponentsClosed(components, 1);
    case _ =>
  }

  lemma ArrayCountClosed(n: int64, element: TypeSpec)
    requires n >= 0 && NoNegativeArray(element)
    requires
      var per := Values(DefaultValue(element));
      ValueCount(element) == if Uncut(element) && per <= MAX_DEFAULT_VALUES then per else CEILING
    ensures
      var ts := ArrayType(n, element);
      var all := 1 + n * Values(DefaultValue(element));
      ValueCount(ts) == if Uncut(ts) && all <= MAX_DEFAULT_VALUES then all else CEILING
  {
    hide DefaultValue, ValueCount, Uncut, Values;
    ArrayUnfolds(n, element);
    ArrayArithmetic(n, Values(DefaultValue(element)), ValueCount(element), Uncut(element));
  }

  lemma ArrayArithmetic(n: nat, v: nat, per: nat, uncut: bool)
    requires v >= 1 && per == if uncut && v <= MAX_DEFAULT_VALUES then v else CEILING
    ensures
      (if n == 0 then 1 else if n >= CEILING / per then CEILING else 1 + n * per) ==
      if (n == 0 || (uncut && n < CEILING / v)) && 1 + n * v <= MAX_DEFAULT_VALUES then 1 + n * v else CEILING
  {
    if n > 0 {
      if per == v {
        if n < CEILING / v {
          ProductBelow(n, v);
        }
      } else if uncut {
        QuotientSmall(v);
      }
    }
  }

  lemma ArrayUnfolds(n: int64, element: TypeSpec)
    requires n >= 0 && NoNegativeArray(element)
    ensures
      var per := ValueCount(element);
      ValueCount(ArrayType(n, element)) == if n == 0 then 1 else if n >= CEILING / per then CEILING else 1 + n * per
    ensures Uncut(ArrayType(n, element)) <==> n == 0 || (Uncut(element) && n < CEILING / Values(DefaultValue(element)))
    ensures Values(DefaultValue(element)) >= 1
  {
    hide DefaultValue;
  }

  lemma QuotientSmall(per: nat)
    requires per >= CEILING
    ensures CEILING / per <= 1
  {}

  lemma {:induction false} ComponentsClosed(cs: seq<Component>, total: nat)
    requires 1 <= total <= MAX_DEFAULT_VALUES
    requires forall c | c in cs :: NoNegativeArray(c.spec)
    ensures
      var n := total + ValuesAll(DefaultValues(cs));
      ComponentCount(cs, total) ==
      if (forall c | c in cs :: Uncut(c.spec)) && n <= MAX_DEFAULT_VALUES then n else CEILING
    decreases cs, 0
  {
    hide Uncut, DefaultValue, NoNegativeArray, ValueCount, Values;
    if cs != [] {
      CountClosed(cs[0].spec);
      var t := total + ValueCount(cs[0].spec);
      assert DefaultValues(cs)[1..] == DefaultValues(cs[1..]);
      assert cs == [cs[0]] + cs[1..];
      if t < CEILING {
        ComponentsClosed(cs[1..], t);
      }
    }
  }

  // A type is accepted exactly when no array is cut and it has at most 2^20
  // values; and then they are counted exactly.
  lemma ValueCountExact(ts: TypeSpec)
    requires NoNegativeArray(ts)
    ensures
      ValueCount(ts) <= MAX_DEFAULT_VALUES <==> Uncut(ts) && Values(DefaultValue(ts)) <= MAX_DEFAULT_VALUES
    ensures ValueCount(ts) <= MAX_DEFAULT_VALUES ==> Values(DefaultValue(ts)) == ValueCount(ts)
  {
    hide Uncut, DefaultValue, NoNegativeArray, ValueCount, Values;
    CountClosed(ts);
  }

  // The count never errs by more than half: what is refused has more than 2^19
  // values.
  lemma {:induction false} RefusedIsLarge(ts: TypeSpec)
    requires NoNegativeArray(ts) && ValueCount(ts) > MAX_DEFAULT_VALUES
    ensures 2 * Values(DefaultValue(ts)) > MAX_DEFAULT_VALUES
    decreases ts, 1
  {
    match ts
    case ArrayType(n, element) =>
      ValuesOfCopies(DefaultValue(element), n);
      ValueCountExact(element);
      if ValueCount(element) > MAX_DEFAULT_VALUES {
        RefusedIsLarge(element);
      }
      ArrayLarge(n, element, Values(DefaultValue(element)));
    case StructureType(components) => ComponentsLarge(components, 1);
    case _ =>
  }

  lemma ArrayLarge(n: int64, element: TypeSpec, v: nat)
    requires n >= 0 && ValueCount(ArrayType(n, element)) > MAX_DEFAULT_VALUES
    requires if ValueCount(element) <= MAX_DEFAULT_VALUES then v == ValueCount(element) else 2 * v > MAX_DEFAULT_VALUES
    ensures 2 * (1 + n * v) > MAX_DEFAULT_VALUES
  {
    AtLeastOnce(n, v);
    if ValueCount(element) <= MAX_DEFAULT_VALUES && n >= CEILING / v {
      QuotientReached(n, v);
    }
  }

  lemma AtLeastOnce(n: nat, v: nat)
    requires n >= 1
    ensures n * v >= v
  {
    assert n * v == v + (n - 1) * v;
  }

  lemma QuotientReached(n: nat, per: nat)
    requires 1 <= per <= MAX_DEFAULT_VALUES && n >= CEILING / per
    ensures n * per > CEILING - per
  {
    var q := CEILING / per;
    assert q * per + CEILING % per == CEILING;
    assert n * per == q * per + (n - q) * per;
  }

  lemma {:induction false} ComponentsLarge(cs: seq<Component>, total: nat)
    requires 1 <= total <= MAX_DEFAULT_VALUES
    requires forall c | c in cs :: NoNegativeArray(c.spec)
    requires ComponentCount(cs, total) > MAX_DEFAULT_VALUES
    ensures 2 * (total + ValuesAll(DefaultValues(cs))) > MAX_DEFAULT_VALUES
    decreases cs, 0
  {
    hide DefaultValue, NoNegativeArray, ValueCount, Values, Uncut;
    if cs != [] {
      assert DefaultValues(cs)[1..] == DefaultValues(cs[1..]);
      var n := ValueCount(cs[0].spec);
      if n > MAX_DEFAULT_VALUES {
        RefusedIsLarge(cs[0].spec);
      } else {
        ValueCountExact(cs[0].spec);
        if total + n < CEILING {
          ComponentsLarge(cs[1..], total + n);
        }
      }
    }
  }

  // A type that is refused and has only 524298 values, little more than half
  // the limit.
  lemma ValueCountMayRefuse()
    ensures
      var ts := ArrayType(1, ArrayType(8, ArrayType(0x1_0000, BooleanType)));
      && NoNegativeArray(ts) && ValueCount(ts) > MAX_DEFAULT_VALUES
      && Values(DefaultValue(ts)) == 524298
  {
    hide DefaultValue, Values;
    var row := ArrayType(0x1_0000, BooleanType);
    var inner := ArrayType(8, row);
    RowCount(0x1_0000, BooleanType, 1);
    RowCount(8, row, 65537);
    ValueCountExact(inner);
    OneCopy(inner);
  }

  lemma RowCount(n: int64, element: TypeSpec, per: nat)
    requires ValueCount(element) == per && 0 < n < CEILING / per
    ensures ValueCount(ArrayType(n, element)) == 1 + n * per
  {}

  lemma OneCopy(element: TypeSpec)
    requires NoNegativeArray(element)
    ensures Values(DefaultValue(ArrayType(1, element))) == 1 + Values(DefaultValue(element))
  {
    ValuesOfCopies(DefaultValue(element), 1);
  }

  // Round trip

  // The types within the limits the decoder declares for each of their parts.
  predicate WithinLimits(ts: TypeSpec)
  {
    match ts
    case ArrayType(elements, element) => 0 <= elements <= MAX_ARRAY_ELEMENTS && WithinLimits(element)
    case StructureType(components) => forall c | c in components :: WithinLimits(c.spec)
    case BitStringType(size) => -MAX_BIT_STRING_BITS <= size <= MAX_BIT_STRING_BITS
    case _ => true
  }

  function TypeNesting(ts: TypeSpec): (n: nat)
    decreases ts, 1
  {
    match ts
    case ArrayType(_, element) => 1 + TypeNesting(element)
    case StructureType(components) => if components == [] then 0 else 1 + TypeNestingAll(components)
    case _ => 0
  }

  function TypeNestingAll(cs: seq<Component>): (n: nat)
    decreases cs, 0
  {
    if cs == [] then 0
    else
      var a := TypeNesting(cs[0].spec);
      var b := TypeNestingAll(cs[1..]);
      if a > b then a else b
  }

  lemma {:induction false} TypeTagsSmall(ts: TypeSpec)
    ensures BigTags(TypeElement(ts)) == 0
    decreases ts, 1
  {
    match ts
    case ArrayType(n, element) =>
      TypeTagsSmall(element);
      WrapSmall(ContextConstructed(2), TypeElement(element));
      PairSmall(UintElem(ContextPrimitive(1), ToUint64(n)), Cons(ContextConstructed(2), [TypeElement(element)]));
    case StructureType(components) =>
      ComponentTagsSmall(components);
      WrapSmall(ContextConstructed(2), Cons(ContextConstructed(1), ComponentElements(components)));
    case Float32Type => PairSmall(IntElem(TAG_INTEGER, 32), IntElem(TAG_INTEGER, 8));
    case Float64Type => PairSmall(IntElem(TAG_INTEGER, 64), IntElem(TAG_INTEGER, 11));
    case _ =>
  }

  lemma WrapSmall(t: Tag, el: Element)
    requires BigTags(el) == 0 && t.number < 31
    ensures BigTags(Cons(t, [el])) == 0
  {
    ListCons(el, []);
    assert [el] + [] == [el];
  }

  lemma PairSmall(a: Element, b: Element)
    requires BigTags(a) == 0 && BigTags(b) == 0
    ensures BigTagsAll([a, b]) == 0
  {
    ListCons(b, []);
    ListCons(a, [b]);
    assert [a] + [b] == [a, b] && [b] + [] == [b];
  }

  lemma {:induction false} ComponentTagsSmall(cs: seq<Component>)
    ensures BigTagsAll(ComponentElements(cs)) == 0
    decreases cs, 0
  {
    if cs != [] {
      var c := cs[0];
      TypeTagsSmall(c.spec);
      WrapSmall(ContextConstructed(1), TypeElement(c.spec));
      PairSmall(Prim(ContextPrimitive(0), c.name), Cons(ContextConstructed(1), [TypeElement(c.spec)]));
      assert BigTags(ComponentElement(c)) == 0;
      ComponentTagsSmall(cs[1..]);
      ListCons(ComponentElement(c), ComponentElements(cs[1..]));
    }
  }

  // A type comes back from its octets, whatever follows them, exactly when it is
  // within the limits, nested no deeper than the decoder goes, and its content is
  // below four gigaoctets; one within the limits and too deep is refused as such.
  lemma TypeRoundTrip(ts: TypeSpec, rest: Bytes, depth: nat)
    ensures
      DecodeType(Encode(TypeElement(ts)) + rest, depth) == TypeGot(ts, rest) <==>
      && WithinLimits(ts) && depth + TypeNesting(ts) <= MAX_VALUE_DEPTH
      && ContentSize(TypeElement(ts)) < 0x1_0000_0000
    ensures
      WithinLimits(ts) && depth + TypeNesting(ts) > MAX_VALUE_DEPTH && ContentSize(TypeElement(ts)) < 0x1_0000_0000 ==>
      DecodeType(Encode(TypeElement(ts)) + rest, depth) == NoType(TooDeep)
  {
    TypeIsPlain(ts);
    hide ReadNext, DecodeTypeTLV, TypeElement, Encode, ContentSize, WithinLimits, TypeNesting;
    var s := Encode(TypeElement(ts)) + rest;
    if ContentSize(TypeElement(ts)) >= 0x1_0000_0000 {
      LongContentIsCut(TypeElement(ts), rest);
    } else if WithinLimits(ts) {
      ShortTypeRoundTrip(ts, rest, depth);
    } else if DecodeType(s, depth).TypeGot? {
      DecodedWithinLimits(s, depth);
    }
  }

  lemma TypeIsPlain(ts: TypeSpec)
    ensures !TypeElement(ts).RawTLV? && BigTagsInside(TypeElement(ts)) == 0
  {
    TypeTagsSmall(ts);
    hide BigTagsAll;
  }

  lemma {:induction false} ShortTypeRoundTrip(ts: TypeSpec, rest: Bytes, depth: nat)
    requires WithinLimits(ts) && ContentSize(TypeElement(ts)) < 0x1_0000_0000
    ensures DecodeType(Encode(TypeElement(ts)) + rest, depth) ==
            if depth + TypeNesting(ts) <= MAX_VALUE_DEPTH then TypeGot(ts, rest) else NoType(TooDeep)
    decreases ts, 2
  {
    hide ReadNext, DecodeTypeTLV, Encode, ContentOctets;
    if depth <= MAX_VALUE_DEPTH {
      TypeTagsSmall(ts);
      SizeSplits(TypeElement(ts));
      EncodedReads(TypeElement(ts), rest);
      TypeContentRoundTrip(ts, depth);
    }
  }

  lemma {:induction false} TypeContentRoundTrip(ts: TypeSpec, depth: nat)
    requires WithinLimits(ts) && Faithful(TypeElement(ts)) && depth <= MAX_VALUE_DEPTH
    ensures DecodeTypeTLV(TypeElement(ts).tag, ContentOctets(TypeElement(ts)), depth) ==
            if depth + TypeNesting(ts) <= MAX_VALUE_DEPTH then Ok(ts) else Err(TooDeep)
    decreases ts, 1
  {
    hide DecodeLeafType, DecodeArrayType, DecodeStructureType;
    match ts
    case ArrayType(n, element) => ArrayRoundTrip(ts, depth);
    case StructureType(components) => StructureRoundTrip(ts, depth);
    case _ => LeafTypeRoundTrip(ts);
  }

  lemma LeafTypeRoundTrip(ts: TypeSpec)
    requires WithinLimits(ts) && Faithful(TypeElement(ts)) && !ts.ArrayType? && !ts.StructureType?
    ensures DecodeLeafType(TypeElement(ts).tag, ContentOctets(TypeElement(ts))) == Ok(ts)
  {
    hide DecodeInt, DecodeUint, IntOctets, UintOctets, DecodeFloatType, ToUint64, ToInt64, Faithful;
    match ts
    case BitStringType(size) => SizeRoundTrip(size);
    case OctetStringType(size) => SizeRoundTrip(size);
    case VisibleStringType(size) => SizeRoundTrip(size);
    case MMSStringType(size) => SizeRoundTrip(size);
    case IntegerType(size) => SizeRoundTrip(size);
    case UnsignedType(size) => SizeRoundTrip(size);
    case Float32Type => FloatRoundTrip(32, 8);
    case Float64Type => FloatRoundTrip(64, 11);
    case _ =>
  }

  lemma SizeRoundTrip(size: int64)
    ensures DecodeInt(IntOctets(size)) == Ok(size)
    ensures DecodeUint(UintOctets(ToUint64(size))) == Ok(ToUint64(size))
    ensures ToInt64(ToUint64(size)) == size
  {
    IntRoundTrip(size);
    UintRoundTrip(ToUint64(size));
  }

  lemma FloatRoundTrip(width: int64, exponent: int64)
    requires Faithful(FloatElement(width, exponent))
    ensures DecodeFloatType(ContentOctets(FloatElement(width, exponent))) ==
            Ok(if width > 32 then Float64Type else Float32Type)
  {
    hide DecodeInt, IntOctets, ExpectTag, Encode;
    var els := [IntElem(TAG_INTEGER, width), IntElem(TAG_INTEGER, exponent)];
    InsideFaithful(ContextConstructed(7), els);
    FirstReads(els, TAG_INTEGER);
    IntRoundTrip(width);
  }

  lemma {:induction false} ArrayRoundTrip(ts: TypeSpec, depth: nat)
    requires ts.ArrayType? && WithinLimits(ts) && Faithful(TypeElement(ts)) && depth <= MAX_VALUE_DEPTH
    ensures DecodeArrayType(ContentOctets(TypeElement(ts)), depth) ==
            if depth + TypeNesting(ts) <= MAX_VALUE_DEPTH then Ok(ts) else Err(TooDeep)
    decreases ts, 0
  {
    hide ArrayFields, DecodeType, ContentOctets, ContentSize, Encode, Size;
    ArrayFieldsRoundTrip(ts);
    SizeSplits(TypeElement(ts.element));
    ShortTypeRoundTrip(ts.element, [], depth + 1);
    assert Encode(TypeElement(ts.element)) + [] == Encode(TypeElement(ts.element));
  }

  lemma ArrayFieldsRoundTrip(ts: TypeSpec)
    requires ts.ArrayType? && 0 <= ts.elements <= MAX_ARRAY_ELEMENTS && Faithful(TypeElement(ts))
    ensures ArrayFields(ContentOctets(TypeElement(ts))) == Ok((ts.elements, Encode(TypeElement(ts.element))))
    ensures Size(TypeElement(ts.element)) < 0x1_0000_0000
  {
    hide ExpectTag, OptionalTag, DecodeUint, UintOctets, Encode, EncodeAll, ContentOctets, ContentSize;
    var count := UintElem(ContextPrimitive(1), ToUint64(ts.elements));
    var element := Cons(ContextConstructed(2), [TypeElement(ts.element)]);
    var els := [count, element];
    InsideFaithful(ContextConstructed(1), els);
    FirstReads(els, ContextPrimitive(0));
    FirstReads(els, ContextPrimitive(1));
    assert els[1..] == [element];
    FirstReads([element], ContextConstructed(2));
    InsideOne(ContextConstructed(2), TypeElement(ts.element));
    PrimContent(ContextPrimitive(1), UintOctets(ToUint64(ts.elements)));
    UintRoundTrip(ToUint64(ts.elements));
  }

  lemma PrimContent(t: Tag, value: Bytes)
    requires !t.constructed
    ensures ContentOctets(Prim(t, value)) == value
  {}

  lemma InsideOne(t: Tag, el: Element)
    requires Faithful(Cons(t, [el])) && !el.RawTLV?
    ensures ContentOctets(Cons(t, [el])) == Encode(el)
    ensures Size(el) < 0x1_0000_0000 && BigTags(el) == 0
  {
    ListCons(el, []);
    assert [el] + [] == [el] && Encode(el) + [] == Encode(el);
  }

  lemma {:induction false} StructureRoundTrip(ts: TypeSpec, depth: nat)
    requires ts.StructureType? && WithinLimits(ts) && Faithful(TypeElement(ts)) && depth <= MAX_VALUE_DEPTH
    ensures DecodeStructureType(ContentOctets(TypeElement(ts)), depth) ==
            if depth + TypeNesting(ts) <= MAX_VALUE_DEPTH then Ok(ts) else Err(TooDeep)
    decreases ts, 0
  {
    hide ExpectTag, OptionalTag, DecodeComponents, ContentOctets, ContentSize, Encode, EncodeAll, Size;
    var comps := Cons(ContextConstructed(1), ComponentElements(ts.components));
    InsideFaithful(ContextConstructed(2), [comps]);
    FirstReads([comps], ContextPrimitive(0));
    FirstReads([comps], ContextConstructed(1));
    ComponentsPlain(ts.components);
    InsideFaithful(ContextConstructed(1), ComponentElements(ts.components));
    ComponentsRoundTrip(ts.components, depth);
  }

  lemma {:induction false} ComponentsPlain(cs: seq<Component>)
    ensures forall el | el in ComponentElements(cs) :: !el.RawTLV?
    decreases cs
  {
    if cs != [] { ComponentsPlain(cs[1..]); }
  }

  lemma {:induction false} ComponentsRoundTrip(cs: seq<Component>, depth: nat)
    requires forall c | c in cs :: WithinLimits(c.spec)
    requires FaithfulAll(ComponentElements(cs))
    ensures DecodeComponents(EncodeAll(ComponentElements(cs)), depth) ==
            if cs == [] || depth + 1 + TypeNestingAll(cs) <= MAX_VALUE_DEPTH then Ok(cs) else Err(TooDeep)
    decreases cs
  {
    hide ComponentFields, DecodeType, Encode, Size, WithinLimits, BigTags;
    if cs == [] {
      assert EncodeAll([]) == [];
    } else {
      var els := ComponentElements(cs);
      assert els[1..] == ComponentElements(cs[1..]);
      ComponentFieldsRoundTrip(els, cs[0]);
      SizeSplits(TypeElement(cs[0].spec));
      ShortTypeRoundTrip(cs[0].spec, [], depth + 1);
      assert Encode(TypeElement(cs[0].spec)) + [] == Encode(TypeElement(cs[0].spec));
      ComponentsRoundTrip(cs[1..], depth);
      assert cs == [cs[0]] + cs[1..];
    }
  }

  lemma ComponentFieldsRoundTrip(els: seq<Element>, c: Component)
    requires els != [] && FaithfulAll(els) && els[0] == ComponentElement(c)
    ensures EncodeAll(els) != [] && FaithfulAll(els[1..])
    ensures ComponentFields(EncodeAll(els)) == Ok((c.name, Encode(TypeElement(c.spec)), EncodeAll(els[1..])))
    ensures Size(TypeElement(c.spec)) < 0x1_0000_0000
  {
    hide ExpectTag, OptionalTag, Encode, EncodeAll, ContentOctets, ContentSize, FaithfulAll, Faithful;
    FirstReads(els, TAG_SEQUENCE);
    ComponentInside(c);
  }

  // The two fields of a component, read in turn.
  lemma ComponentInside(c: Component)
    requires Faithful(ComponentElement(c))
    ensures
      var name := OptionalTag(ContentOctets(ComponentElement(c)), ContextPrimitive(0));
      && name.Present? && name.content == c.name
      && var spec := ExpectTag(name.rest, ContextConstructed(1));
         spec.Field? && spec.content == Encode(TypeElement(c.spec))
    ensures Size(TypeElement(c.spec)) < 0x1_0000_0000
  {
    hide ExpectTag, OptionalTag, Encode, EncodeAll, ContentOctets, ContentSize;
    var name := Prim(ContextPrimitive(0), c.name);
    var spec := Cons(ContextConstructed(1), [TypeElement(c.spec)]);
    InsideFaithful(TAG_SEQUENCE, [name, spec]);
    FirstReads([name, spec], ContextPrimitive(0));
    assert [name, spec][1..] == [spec];
    FirstReads([spec], ContextConstructed(1));
    PrimContent(ContextPrimitive(0), c.name);
    InsideOne(ContextConstructed(1), TypeElement(c.spec));
  }

  // The whole decode gives back what the encoder wrote exactly when the limits,
  // the nesting, the number of values and the octets are within bounds.
  lemma TypeSpecRoundTrip(ts: TypeSpec, rest: Bytes)
    ensures
      DecodeTypeSpec(Encode(TypeElement(ts)) + rest) == TypeGot(ts, rest) <==>
      && WithinLimits(ts) && TypeNesting(ts) <= MAX_VALUE_DEPTH && ValueCount(ts) <= MAX_DEFAULT_VALUES
      && ContentSize(TypeElement(ts)) < 0x1_0000_0000
  {
    hide DecodeType, TypeElement, Encode, ContentSize, WithinLimits, TypeNesting, ValueCount;
    TypeRoundTrip(ts, rest, 0);
  }

  lemma {:induction false} DecodedWithinLimits(s: Bytes, depth: nat)
    requires DecodeType(s, depth).TypeGot?
    ensures WithinLimits(DecodeType(s, depth).spec)
    decreases |s|, 1
  {
    hide ReadNext, DecodeTypeTLV;
    TLVWithinLimits(ReadNext(s).tag, ReadNext(s).content, depth);
  }

  lemma {:induction false} TLVWithinLimits(tag: Tag, content: Bytes, depth: nat)
    requires DecodeTypeTLV(tag, content, depth).Ok?
    ensures WithinLimits(DecodeTypeTLV(tag, content, depth).value)
    decreases |content|, 2
  {
    hide DecodeLeafType, DecodeArrayType, DecodeStructureType;
    if tag.number == 1 {
      ArrayWithinLimits(content, depth);
    } else if tag.number == 2 {
      StructureWithinLimits(content, depth);
    } else {
      LeafWithinLimits(tag, content);
    }
  }

  lemma {:induction false} ArrayWithinLimits(content: Bytes, depth: nat)
    requires DecodeArrayType(content, depth).Ok?
    ensures WithinLimits(DecodeArrayType(content, depth).value)
    decreases |content|, 1
  {
    hide ArrayFields, DecodeType;
    DecodedWithinLimits(ArrayFields(content).value.1, depth + 1);
  }

  lemma {:induction false} StructureWithinLimits(content: Bytes, depth: nat)
    requires DecodeStructureType(content, depth).Ok?
    ensures WithinLimits(DecodeStructureType(content, depth).value)
    decreases |content|, 1
  {
    hide SkipPacked, ExpectTag, DecodeComponents;
    var c := SkipPacked(content).value;
    DecodedComponentsWithin(ExpectTag(c, ContextConstructed(1)).content, depth);
  }

  lemma LeafWithinLimits(tag: Tag, content: Bytes)
    requires DecodeLeafType(tag, content).Ok?
    ensures WithinLimits(DecodeLeafType(tag, content).value)
  {}

  lemma {:induction false} DecodedComponentsWithin(s: Bytes, depth: nat)
    requires DecodeComponents(s, depth).Ok?
    ensures forall c | c in DecodeComponents(s, depth).value :: WithinLimits(c.spec)
    decreases |s|, 3
  {
    hide ComponentFields, DecodeType;
    if s != [] {
      var f := ComponentFields(s).value;
      DecodedWithinLimits(f.1, depth + 1);
      DecodedComponentsWithin(DecodeComponent(s, depth).rest, depth);
    }
  }

  lemma {:induction false} LimitsNonNegative(ts: TypeSpec)
    requires WithinLimits(ts)
    ensures NoNegativeArray(ts)
    decreases ts
  {
    match ts
    case ArrayType(_, element) => LimitsNonNegative(element);
    case StructureType(components) =>
      forall c | c in components ensures NoNegativeArray(c.spec) { LimitsNonNegative(c.spec); }
    case _ =>
  }

  // Any accepted specification, whatever octets it came in, materialises into
  // exactly the number of values that was counted, at most 2^20.
  lemma AcceptedMaterialises(s: Bytes)
    requires DecodeTypeSpec(s).TypeGot?
    ensures
      var ts := DecodeTypeSpec(s).spec;
      NoNegativeArray(ts) && Values(DefaultValue(ts)) == ValueCount(ts) <= MAX_DEFAULT_VALUES
  {
    hide DecodeType;
    DecodedWithinLimits(s, 0);
    LimitsNonNegative(DecodeTypeSpec(s).spec);
    ValueCountExact(DecodeTypeSpec(s).spec);
  }

  // The counter, the materialiser and the decoder as they run

  // Every intermediate sum and product stays far below 2^63.
  method CountValues(ts: TypeSpec) returns (n: nat)
    ensures n == ValueCount(ts)
    decreases ts, 0
  {
    hide ComponentCount;
    match ts
    case ArrayType(elements, element) =>
      var per := CountValues(element);
      if elements <= 0 {
        return 1;
      }
      if elements >= CEILING / per {
        return CEILING;
      }
      ProductBelow(elements, per);
      var product: int64 := elements * per;
      return 1 + product;
    case StructureType(components) => n := CountComponents(components);
    case _ => return 1;
  }

  method CountComponents(components: seq<Component>) returns (n: nat)
    ensures n == ComponentCount(components, 1)
    decreases components, 1
  {
    hide ValueCount;
    var total: int64 := 1;
    var i := 0;
    assert components[0..] == components;
    while i < |components|
      invariant i <= |components| && 1 <= total < CEILING
      invariant ComponentCount(components[i..], total) == ComponentCount(components, 1)
    {
      var c := CountValues(components[i].spec);
      assert components[i..][1..] == components[i + 1..];
      total := total + c;
      if total >= CEILING {
        return CEILING;
      }
      i := i + 1;
    }
    n := total;
  }

  method Materialise(ts: TypeSpec) returns (v: Value)
    requires NoNegativeArray(ts)
    ensures v == DefaultValue(ts)
    decreases ts, 0
  {
    hide DefaultValues;
    match ts
    case ArrayType(elements, element) =>
      var children: seq<Value> := [];
      while |children| < elements
        invariant |children| <= elements
        invariant forall k | 0 <= k < |children| :: children[k] == DefaultValue(element)
      {
        var c := Materialise(element);
        children := children + [c];
      }
      v := Array(children);
    case StructureType(components) =>
      var children := MaterialiseAll(components);
      v := Structure(children);
    case _ => v := DefaultValue(ts);
  }

  method MaterialiseAll(components: seq<Component>) returns (children: seq<Value>)
    requires forall c | c in components :: NoNegativeArray(c.spec)
    ensures children == DefaultValues(components)
    decreases components, 1
  {
    hide DefaultValue, NoNegativeArray;
    children := [];
    var i := 0;
    assert components[0..] == components;
    while i < |components|
      invariant i <= |components|
      invariant children + DefaultValues(components[i..]) == DefaultValues(components)
    {
      var c := Materialise(components[i].spec);
      assert components[i..][1..] == components[i + 1..];
      children := children + [c];
      i := i + 1;
    }
  }

  method ReadTypeSpec(dec: Decoder) returns (r: Result<TypeSpec>)
    requires dec.Valid()
    modifies dec
    ensures dec.Valid()
    ensures
      match DecodeTypeSpec(old(dec.Rest()))
      case TypeGot(ts, rest) => r == Ok(ts) && dec.Rest() == rest
      case NoType(e) => r == Err(e)
  {
    hide DecodeType;
    r := ReadType(dec, 0);
    if r.Ok? {
      var n := CountValues(r.value);
      if n > MAX_DEFAULT_VALUES {
        r := Err(BadLength);
      }
    }
  }

  method ReadType(dec: Decoder, depth: nat) returns (r: Result<TypeSpec>)
    requires dec.Valid()
    modifies dec
    ensures dec.Valid()
    ensures
      match DecodeType(old(dec.Rest()), depth)
      case TypeGot(ts, rest) => r == Ok(ts) && dec.Rest() == rest
      case NoType(e) => r == Err(e)
    decreases |dec.Rest()|, 1
  {
    hide ReadNext, DecodeLeafType, DecodeArrayType, DecodeStructureType;
    if depth > MAX_VALUE_DEPTH {
      return Err(TooDeep);
    }
    var e := dec.ReadTLV();
    if e.NoNext? {
      return Err(e.error);
    }
    if e.tag.cls != CONTEXT_SPECIFIC {
      return Err(Unexpected);
    }
    if e.tag.number == 1 {
      r := ReadArrayType(e.content, depth);
    } else if e.tag.number == 2 {
      r := ReadStructureType(e.content, depth);
    } else {
      r := DecodeLeafType(e.tag, e.content);
    }
  }

  method ReadArrayType(content: Bytes, depth: nat) returns (r: Result<TypeSpec>)
    ensures r == DecodeArrayType(content, depth)
    decreases |content|, 1
  {
    hide ExpectTag, OptionalTag, DecodeUint, DecodeType;
    var inner := new Decoder(content);
    var packed := inner.Optional(ContextPrimitive(0));
    if packed.NoMaybe? {
      return Err(packed.error);
    }
    var nc := inner.Expect(ContextPrimitive(1));
    if nc.NoField? {
      return Err(nc.error);
    }
    var n := ReadUint(nc.content);
    if n.Err? {
      return Err(n.error);
    }
    if n.value > MAX_ARRAY_ELEMENTS {
      return Err(BadLength);
    }
    var ec := inner.Expect(ContextConstructed(2));
    if ec.NoField? {
      return Err(ec.error);
    }
    var elementDec := new Decoder(ec.content);
    var element := ReadType(elementDec, depth + 1);
    if element.Err? {
      return Err(element.error);
    }
    r := Ok(ArrayType(n.value, element.value));
  }

  method ReadStructureType(content: Bytes, depth: nat) returns (r: Result<TypeSpec>)
    ensures r == DecodeStructureType(content, depth)
    decreases |content|, 1
  {
    hide ExpectTag, OptionalTag, DecodeComponents;
    var inner := new Decoder(content);
    var packed := inner.Optional(ContextPrimitive(0));
    if packed.NoMaybe? {
      return Err(packed.error);
    }
    var comps := inner.Expect(ContextConstructed(1));
    if comps.NoField? {
      return Err(comps.error);
    }
    var cs := ReadComponents(comps.content, depth);
    r := if cs.Err? then Err(cs.error) else Ok(StructureType(cs.value));
  }

  method ReadComponents(content: Bytes, depth: nat) returns (r: Result<seq<Component>>)
    ensures r == DecodeComponents(content, depth)
    decreases |content|, 3
  {
    var comps := new Decoder(content);
    var got: seq<Component> := [];
    var more := comps.More();
    PrependUnit(got, DecodeComponents(content, depth));
    while more
      invariant comps.Valid() && fresh(comps)
      invariant |comps.Rest()| <= |content|
      invariant more <==> comps.Rest() != []
      invariant DecodeComponents(content, depth) == PrependComponents(got, DecodeComponents(comps.Rest(), depth))
      decreases |comps.Rest()|
    {
      ghost var s := comps.Rest();
      var c := ReadComponent(comps, depth);
      ComponentsStep(s, depth, got);
      if c.Err? {
        return Err(c.error);
      }
      got := got + [c.value];
      more := comps.More();
    }
    PrependUnit(got, DecodeComponents(content, depth));
    return Ok(got);
  }

  method ReadComponent(comps: Decoder, depth: nat) returns (r: Result<Component>)
    requires comps.Valid() && comps.Rest() != []
    modifies comps
    ensures comps.Valid()
    ensures
      match DecodeComponent(old(comps.Rest()), depth)
      case NoComponent(e) => r == Err(e)
      case ComponentGot(c, rest) => r == Ok(c) && comps.Rest() == rest
    decreases |comps.Rest()|, 2
  {
    hide ExpectTag, OptionalTag, DecodeType;
    var inside := comps.Expect(TAG_SEQUENCE);
    if inside.NoField? {
      return Err(inside.error);
    }
    var cd := new Decoder(inside.content);
    var m := cd.Optional(ContextPrimitive(0));
    if m.NoMaybe? {
      return Err(m.error);
    }
    var name: Bytes := if m.Present? then m.content else [];
    var sc := cd.Expect(ContextConstructed(1));
    if sc.NoField? {
      return Err(sc.error);
    }
    var specDec := new Decoder(sc.content);
    var ts := ReadType(specDec, depth + 1);
    r := if ts.Err? then Err(ts.error) else Ok(Component(name, ts.value));
  }

  function PrependComponents(cs: seq<Component>, r: Result<seq<Component>>): Result<seq<Component>>
  {
    if r.Err? then r else Ok(cs + r.value)
  }

  lemma PrependUnit(cs: seq<Component>, r: Result<seq<Component>>)
    ensures PrependComponents([], r) == r
    ensures PrependComponents(cs, Ok([])) == Ok(cs)
  {
    assert cs + [] == cs;
    if r.Ok? {
      assert [] + r.value == r.value;
    }
  }

  lemma ComponentsStep(s: Bytes, depth: nat, cs: seq<Component>)
    requires s != []
    ensures
      match DecodeComponent(s, depth)
      case NoComponent(e) => PrependComponents(cs, DecodeComponents(s, depth)) == Err(e)
      case ComponentGot(c, rest) =>
        PrependComponents(cs, DecodeComponents(s, depth)) == PrependComponents(cs + [c], DecodeComponents(rest, depth))
  {
    hide DecodeComponent;
    var r := DecodeComponent(s, depth);
    if r.ComponentGot? && DecodeComponents(r.rest, depth).Ok? {
      var more := DecodeComponents(r.rest, depth).value;
      assert cs + ([r.component] + more) == cs + [r.component] + more;
    }
  }
}
