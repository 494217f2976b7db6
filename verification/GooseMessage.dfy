// The GOOSE APDU (goose/message.go) and its time stamp (mms/value.go).

module GooseMessage {
  import opened Octets
  import opened Ber
  import opened BerDecoder
  import opened BerElement
  import opened BerPrimitives
  import opened MmsData

  // A point in time: whole seconds since 1970 and the nanoseconds on top.
  datatype Time = Time(secs: int, ns: nat)

  type ValidTime = t: Time | t.ns < 1_000_000_000 witness Time(0, 0)

  datatype Quality = DefaultQuality | Quality(octet: byte)

  const DEFAULT_TIME_QUALITY: byte := 0x8a

  datatype Message = Message(
    goCbRef: Bytes,
    timeAllowedToLive: uint32,
    datSet: Bytes,
    goID: Bytes,
    t: ValidTime,
    quality: Quality,
    stNum: uint32,
    sqNum: uint32,
    test: bool,
    confRev: uint32,
    ndsCom: bool,
    numDatSetEntries: uint32,
    values: seq<Value>,
    appID: uint16)

  const HEADER_LEN := 8

  const PDU_TAG := ApplicationConstructed(1)

  // Time stamps

  // The times a UtcTime can hold; anything else is moved to the nearest end.
  function Clamp(t: ValidTime): ValidTime
  {
    if t.secs < 0 then Time(0, 0)
    else if t.secs > 0xffff_ffff then Time(0xffff_ffff, 999_999_999)
    else t
  }

  function Fraction(ns: nat): nat { ns * 0x100_0000 / 1_000_000_000 }

  function EffectiveQuality(q: Quality): byte { if q.DefaultQuality? then DEFAULT_TIME_QUALITY else q.octet }

  function UTCTimeOctets(t: ValidTime, q: byte): (s: Bytes)
    ensures |s| == 8
  {
    var c := Clamp(t);
    ToBE(c.secs, 4) + ToBE(Fraction(c.ns), 3) + [q]
  }

  function TimeOfOctets(s: Bytes): (t: ValidTime)
    requires |s| == 8
  {
    BEBounds(s[4..7]);
    Time(BE(s[..4]), BE(s[4..7]) * 1_000_000_000 / 0x100_0000)
  }

  // What a receiver makes of a time stamp.
  function TimeOnWire(t: ValidTime): ValidTime
  {
    var c := Clamp(t);
    Time(c.secs, Fraction(c.ns) * 1_000_000_000 / 0x100_0000)
  }

  // The stamp is never late and at most 60 ns early; a time before 1970 is sent as
  // its beginning, and one after the last second a stamp can hold as the end of that.
  lemma TimeOnWireClose(t: ValidTime)
    ensures
      var w := TimeOnWire(t);
      if t.secs < 0 then w == Time(0, 0)
      else if t.secs > 0xffff_ffff then w.secs == 0xffff_ffff && 999_999_939 <= w.ns <= 999_999_999
      else w.secs == t.secs && t.ns - 60 <= w.ns <= t.ns
  {}

  lemma TimeRoundTrip(t: ValidTime, q: byte)
    ensures TimeOfOctets(UTCTimeOctets(t, q)) == TimeOnWire(t) && UTCTimeOctets(t, q)[7] == q
  {
    hide ToBE, BE;
    var c := Clamp(t);
    var s := UTCTimeOctets(t, q);
    assert s[..4] == ToBE(c.secs, 4) && s[4..7] == ToBE(Fraction(c.ns), 3);
    ShrGone(c.secs, 4);
    BEToBE(c.secs, 4);
    ShrGone(Fraction(c.ns), 3);
    BEToBE(Fraction(c.ns), 3);
  }

  // Encoding

  function HeadFields(m: Message): seq<Element>
  {
    [Prim(ContextPrimitive(0), m.goCbRef), UintElem(ContextPrimitive(1), m.timeAllowedToLive),
     Prim(ContextPrimitive(2), m.datSet), Prim(ContextPrimitive(3), m.goID)]
  }

  function StateFields(m: Message): seq<Element>
  {
    [Prim(ContextPrimitive(4), UTCTimeOctets(m.t, EffectiveQuality(m.quality))),
     UintElem(ContextPrimitive(5), m.stNum), UintElem(ContextPrimitive(6), m.sqNum)]
  }

  function FlagFields(m: Message): seq<Element>
  {
    [BoolElem(ContextPrimitive(7), m.test), UintElem(ContextPrimitive(8), m.confRev),
     BoolElem(ContextPrimitive(9), m.ndsCom), UintElem(ContextPrimitive(10), m.numDatSetEntries)]
  }

  function AllData(m: Message): Element
  {
    Cons(ContextConstructed(11), DataElements(m.values))
  }

  function Fields(m: Message): seq<Element>
  {
    HeadFields(m) + (StateFields(m) + (FlagFields(m) + [AllData(m)]))
  }

  function PDU(m: Message): Element { Cons(PDU_TAG, Fields(m)) }

  function ApduLength(m: Message): nat { HEADER_LEN + Size(PDU(m)) }

  function Marshal(m: Message): (s: Bytes)
  {
    ToBE(m.appID, 2) + ToBE(ApduLength(m), 2) + [0, 0, 0, 0] + Encode(PDU(m))
  }

  // Sizes

  lemma {:induction false} FieldsSmall(els: seq<Element>)
    requires forall el | el in els :: el.Plain? && !el.tag.constructed && el.tag.number < 31
    ensures BigTagsAll(els) == 0
    decreases |els|
  {
    if els != [] {
      assert els[0] in els && BigTags(els[0]) == 0;
      FieldsSmall(els[1..]);
    }
  }

  lemma {:induction false} BigTagsConcat(a: seq<Element>, b: seq<Element>)
    ensures BigTagsAll(a + b) == BigTagsAll(a) + BigTagsAll(b)
    decreases |a|
  {
    if a == [] {
      assert a + b == b;
    } else {
      assert (a + b)[1..] == a[1..] + b;
      BigTagsConcat(a[1..], b);
    }
  }

  lemma HeadSmall(m: Message)
    ensures BigTagsAll(HeadFields(m)) == 0
  {
    hide BigTagsAll;
    FieldsSmall(HeadFields(m));
  }

  lemma StateSmall(m: Message)
    ensures BigTagsAll(StateFields(m)) == 0
  {
    hide BigTagsAll, UTCTimeOctets;
    FieldsSmall(StateFields(m));
  }

  lemma FlagsSmall(m: Message)
    ensures BigTagsAll(FlagFields(m)) == 0
  {
    hide BigTagsAll;
    FieldsSmall(FlagFields(m));
  }

  lemma DataSmall(m: Message)
    ensures BigTagsAll([AllData(m)]) == 0
  {
    DataSizesExact(m.values);
    ListCons(AllData(m), []);
    assert [AllData(m)] + [] == [AllData(m)];
  }

  lemma PDUTagsSmall(m: Message)
    ensures BigTags(PDU(m)) == 0
  {
    hide HeadFields, StateFields, FlagFields, AllData, BigTagsAll;
    HeadSmall(m);
    StateSmall(m);
    FlagsSmall(m);
    DataSmall(m);
    BigTagsConcat(FlagFields(m), [AllData(m)]);
    BigTagsConcat(StateFields(m), FlagFields(m) + [AllData(m)]);
    BigTagsConcat(HeadFields(m), StateFields(m) + (FlagFields(m) + [AllData(m)]));
  }

  // The APDU is as long as its length field says before it is cut to 16 bits.
  lemma MarshalLength(m: Message)
    ensures |Marshal(m)| == ApduLength(m)
  {
    PDUTagsSmall(m);
    EncodedLength(PDU(m));
  }

  // The size of the fields, as a sum.
  lemma FieldsSize(m: Message)
    ensures SizeAll(Fields(m)) ==
            SizeAll(HeadFields(m)) + SizeAll(StateFields(m)) + SizeAll(FlagFields(m)) + Size(AllData(m))
  {
    ListCons(AllData(m), []);
    assert [AllData(m)] + [] == [AllData(m)];
    SizeAllConcat(FlagFields(m), [AllData(m)]);
    SizeAllConcat(StateFields(m), FlagFields(m) + [AllData(m)]);
    SizeAllConcat(HeadFields(m), StateFields(m) + (FlagFields(m) + [AllData(m)]));
  }

  // The same state with another sqNum and timeAllowedToLive, as its
  // retransmissions carry.
  function Retransmission(m: Message, sqNum: uint32, timeAllowedToLive: uint32): Message
  {
    m.(sqNum := sqNum, timeAllowedToLive := timeAllowedToLive)
  }

  function Widest(m: Message): Message { Retransmission(m, 0xffff_ffff, 0xffff_ffff) }

  lemma {:induction false} SizesGrow(a: seq<Element>, b: seq<Element>)
    requires |a| == |b|
    requires forall k | 0 <= k < |a| :: Size(a[k]) <= Size(b[k])
    ensures SizeAll(a) <= SizeAll(b)
    decreases |a|
  {
    if a != [] {
      SizesGrow(a[1..], b[1..]);
    }
  }

  lemma UintElemGrows(t: Tag, v: uint32)
    requires !t.constructed
    ensures Size(UintElem(t, v)) <= Size(UintElem(t, 0xffff_ffff))
  {
    UintSizeMono(v, 0xffff_ffff);
    UintSizeBound(0xffff_ffff);
  }

  // No retransmission of a state outgrows its widest form: if that fits a
  // frame, every one does, and its length field is exact.
  lemma WidestFits(m: Message, sqNum: uint32, timeAllowedToLive: uint32, limit: nat)
    requires |Marshal(Widest(m))| <= limit <= 1500
    ensures
      var r := Marshal(Retransmission(m, sqNum, timeAllowedToLive));
      |r| <= limit && BE(r[2..4]) == |r|
  {
    hide Marshal, Size, ToBE, BE;
    var r := Retransmission(m, sqNum, timeAllowedToLive);
    RetransmissionSize(m, sqNum, timeAllowedToLive);
    MarshalLength(r);
    MarshalLength(Widest(m));
    LengthField(r);
  }

  lemma RetransmissionSize(m: Message, sqNum: uint32, timeAllowedToLive: uint32)
    ensures Size(PDU(Retransmission(m, sqNum, timeAllowedToLive))) <= Size(PDU(Widest(m)))
  {
    hide UintElem, Fields;
    var r := Retransmission(m, sqNum, timeAllowedToLive);
    var w := Widest(m);
    UintElemGrows(ContextPrimitive(1), timeAllowedToLive);
    UintElemGrows(ContextPrimitive(6), sqNum);
    hide Size;
    SizesGrow(HeadFields(r), HeadFields(w));
    SizesGrow(StateFields(r), StateFields(w));
    FieldsSize(r);
    FieldsSize(w);
    assert FlagFields(r) == FlagFields(w) && AllData(r) == AllData(w);
    ConsGrows(PDU_TAG, Fields(r), Fields(w));
  }

  lemma ConsGrows(t: Tag, a: seq<Element>, b: seq<Element>)
    requires SizeAll(a) <= SizeAll(b)
    ensures Size(Cons(t, a)) <= Size(Cons(t, b))
  {}

  lemma LengthField(m: Message)
    requires ApduLength(m) < 0x1_0000
    ensures |Marshal(m)| >= 8 && BE(Marshal(m)[2..4]) == ApduLength(m) && BE(Marshal(m)[..2]) == m.appID
    ensures Marshal(m)[8..] == Encode(PDU(m))
  {
    hide ToBE, BE;
    var s := Marshal(m);
    assert s[..2] == ToBE(m.appID, 2) && s[2..4] == ToBE(ApduLength(m), 2);
    ShrGone(m.appID, 2);
    BEToBE(m.appID, 2);
    ShrGone(ApduLength(m), 2);
    BEToBE(ApduLength(m), 2);
  }

  // Decoding

  datatype Uint32Read = Uint32(value: uint32, rest: Bytes) | NoUint32(error: Error)

  function ExpectUint32(s: Bytes, tag: uint32): (r: Uint32Read)
  {
    match ExpectTag(s, ContextPrimitive(tag))
    case NoField(e) => NoUint32(e)
    case Field(c, rest) =>
      match DecodeUint(c)
      case Err(e) => NoUint32(BadValue)
      case Ok(v) => if v > 0xffff_ffff then NoUint32(BadValue) else Uint32(v, rest)
  }

  // An optional boolean, false when absent.
  datatype BoolRead = Bool(value: bool, rest: Bytes) | NoBool(error: Error)

  function OptionalBool(s: Bytes, tag: uint32): (r: BoolRead)
  {
    match OptionalTag(s, ContextPrimitive(tag))
    case NoMaybe(e) => NoBool(e)
    case Absent => Bool(false, s)
    case Present(c, rest) =>
      match DecodeBool(c)
      case Err(e) => NoBool(e)
      case Ok(b) => Bool(b, rest)
  }

  datatype Head = Head(goCbRef: Bytes, timeAllowedToLive: uint32, datSet: Bytes, goID: Bytes)
  datatype HeadRead = HeadGot(head: Head, rest: Bytes) | NoHead(error: Error)

  function ParseHead(s: Bytes): (r: HeadRead)
  {
    match ExpectTag(s, ContextPrimitive(0))
    case NoField(e) => NoHead(e)
    case Field(ref, s1) =>
      match ExpectUint32(s1, 1)
      case NoUint32(e) => NoHead(e)
      case Uint32(tatl, s2) =>
        match ExpectTag(s2, ContextPrimitive(2))
        case NoField(e) => NoHead(e)
        case Field(datSet, s3) =>
          match OptionalTag(s3, ContextPrimitive(3))
          case NoMaybe(e) => NoHead(e)
          case Absent => HeadGot(Head(ref, tatl, datSet, []), s3)
          case Present(goID, s4) => HeadGot(Head(ref, tatl, datSet, goID), s4)
  }

  datatype State = State(t: ValidTime, quality: byte, stNum: uint32, sqNum: uint32)
  datatype StateRead = StateGot(state: State, rest: Bytes) | NoState(error: Error)

  function ParseState(s: Bytes): (r: StateRead)
  {
    match ExpectTag(s, ContextPrimitive(4))
    case NoField(e) => NoState(e)
    case Field(utc, s1) =>
      if |utc| != 8 then NoState(BadValue)
      else
        match ExpectUint32(s1, 5)
        case NoUint32(e) => NoState(e)
        case Uint32(stNum, s2) =>
          match ExpectUint32(s2, 6)
          case NoUint32(e) => NoState(e)
          case Uint32(sqNum, s3) => StateGot(State(TimeOfOctets(utc), utc[7], stNum, sqNum), s3)
  }

  datatype Flags = Flags(test: bool, confRev: uint32, ndsCom: bool, numDatSetEntries: uint32)
  datatype FlagsRead = FlagsGot(flags: Flags, rest: Bytes) | NoFlags(error: Error)

  function ParseFlags(s: Bytes): (r: FlagsRead)
  {
    match OptionalBool(s, 7)
    case NoBool(e) => NoFlags(e)
    case Bool(test, s1) =>
      match ExpectUint32(s1, 8)
      case NoUint32(e) => NoFlags(e)
      case Uint32(confRev, s2) =>
        match OptionalBool(s2, 9)
        case NoBool(e) => NoFlags(e)
        case Bool(ndsCom, s3) =>
          match ExpectUint32(s3, 10)
          case NoUint32(e) => NoFlags(e)
          case Uint32(n, s4) => FlagsGot(Flags(test, confRev, ndsCom, n), s4)
  }

  function ParseValues(s: Bytes): (r: Result<seq<Value>>)
  {
    match ExpectTag(s, ContextConstructed(11))
    case NoField(e) => Err(e)
    case Field(c, _) => DecodeAll(c, 0)
  }

  function ParsePDU(s: Bytes, appID: uint16): (r: Result<Message>)
  {
    match ParseHead(s)
    case NoHead(e) => Err(e)
    case HeadGot(h, s1) =>
      match ParseState(s1)
      case NoState(e) => Err(e)
      case StateGot(st, s2) =>
        match ParseFlags(s2)
        case NoFlags(e) => Err(e)
        case FlagsGot(f, s3) =>
          match ParseValues(s3)
          case Err(e) => Err(e)
          case Ok(vs) => Ok(Assemble(h, st, f, vs, appID))
  }

  function Assemble(h: Head, st: State, f: Flags, vs: seq<Value>, appID: uint16): Message
  {
    Message(h.goCbRef, h.timeAllowedToLive, h.datSet, h.goID, st.t, Quality(st.quality), st.stNum, st.sqNum,
            f.test, f.confRev, f.ndsCom, f.numDatSetEntries, vs, appID)
  }

  function Parse(apdu: Bytes): (r: Result<Message>)
  {
    if |apdu| < HEADER_LEN then Err(Truncated)
    else
      BEBounds(apdu[..2]);
      var length := BE(apdu[2..4]);
      if length < HEADER_LEN || length > |apdu| then Err(BadLength)
      else
        match ExpectTag(apdu[HEADER_LEN..length], PDU_TAG)
        case NoField(e) => Err(e)
        case Field(content, _) => ParsePDU(content, BE(apdu[..2]))
  }

  // Round trip

  // The message a receiver sees: the time to 60 ns, the quality stated.
  function Received(m: Message): Message
  {
    m.(t := TimeOnWire(m.t), quality := Quality(EffectiveQuality(m.quality)))
  }

  ghost predicate Sendable(m: Message)
  {
    && (forall v | v in m.values :: WellFormed(v))
    && (m.values == [] || NestingAll(m.values) <= MAX_VALUE_DEPTH)
  }

  // One field in front of others.
  lemma FieldReads(el: Element, more: seq<Element>, t: Tag)
    requires FaithfulAll([el] + more)
    ensures Faithful(el) && FaithfulAll(more)
    ensures el.tag == t ==> ExpectTag(EncodeAll([el] + more), t) == Field(ContentOctets(el), EncodeAll(more))
    ensures el.tag == t ==> OptionalTag(EncodeAll([el] + more), t) == Present(ContentOctets(el), EncodeAll(more))
  {
    hide ExpectTag, OptionalTag, EncodeAll, ContentOctets, FaithfulAll, Faithful;
    FirstReads([el] + more, t);
    assert ([el] + more)[1..] == more;
  }

  lemma PrimReads(value: Bytes, more: seq<Element>, tag: uint32)
    requires FaithfulAll([Prim(ContextPrimitive(tag), value)] + more)
    ensures FaithfulAll(more)
    ensures
      var s := EncodeAll([Prim(ContextPrimitive(tag), value)] + more);
      ExpectTag(s, ContextPrimitive(tag)) == Field(value, EncodeAll(more))
      && OptionalTag(s, ContextPrimitive(tag)) == Present(value, EncodeAll(more))
  {
    hide ExpectTag, OptionalTag, EncodeAll, FaithfulAll;
    FieldReads(Prim(ContextPrimitive(tag), value), more, ContextPrimitive(tag));
  }

  lemma UintReads(v: uint32, more: seq<Element>, tag: uint32)
    requires FaithfulAll([UintElem(ContextPrimitive(tag), v)] + more)
    ensures FaithfulAll(more)
    ensures ExpectUint32(EncodeAll([UintElem(ContextPrimitive(tag), v)] + more), tag) == Uint32(v, EncodeAll(more))
  {
    hide ExpectTag, EncodeAll, FaithfulAll, DecodeUint, UintOctets;
    PrimReads(UintOctets(v), more, tag);
    UintRoundTrip(v);
  }

  lemma BoolReads(b: bool, more: seq<Element>, tag: uint32)
    requires FaithfulAll([BoolElem(ContextPrimitive(tag), b)] + more)
    ensures FaithfulAll(more)
    ensures OptionalBool(EncodeAll([BoolElem(ContextPrimitive(tag), b)] + more), tag) == Bool(b, EncodeAll(more))
  {
    hide OptionalTag, EncodeAll, FaithfulAll;
    PrimReads(BoolOctets(b), more, tag);
  }

  lemma HeadReads(m: Message, more: seq<Element>)
    requires FaithfulAll(HeadFields(m) + more)
    ensures FaithfulAll(more)
    ensures ParseHead(EncodeAll(HeadFields(m) + more)) ==
            HeadGot(Head(m.goCbRef, m.timeAllowedToLive, m.datSet, m.goID), EncodeAll(more))
  {
    hide ExpectTag, OptionalTag, ExpectUint32, EncodeAll, FaithfulAll, UintElem;
    var f := HeadFields(m);
    var m3 := [f[3]] + more;
    var m2 := [f[2]] + m3;
    var m1 := [f[1]] + m2;
    assert f + more == [f[0]] + m1;
    PrimReads(m.goCbRef, m1, 0);
    UintReads(m.timeAllowedToLive, m2, 1);
    PrimReads(m.datSet, m3, 2);
    PrimReads(m.goID, more, 3);
  }

  lemma StateReads(m: Message, more: seq<Element>)
    requires FaithfulAll(StateFields(m) + more)
    ensures FaithfulAll(more)
    ensures ParseState(EncodeAll(StateFields(m) + more)) ==
            StateGot(State(TimeOnWire(m.t), EffectiveQuality(m.quality), m.stNum, m.sqNum), EncodeAll(more))
  {
    hide ExpectTag, ExpectUint32, EncodeAll, FaithfulAll, UintElem, UTCTimeOctets, TimeOfOctets;
    var f := StateFields(m);
    var m2 := [f[2]] + more;
    var m1 := [f[1]] + m2;
    assert f + more == [f[0]] + m1;
    PrimReads(UTCTimeOctets(m.t, EffectiveQuality(m.quality)), m1, 4);
    UintReads(m.stNum, m2, 5);
    UintReads(m.sqNum, more, 6);
    TimeRoundTrip(m.t, EffectiveQuality(m.quality));
  }

  lemma FlagsParse(m: Message, more: seq<Element>)
    requires FaithfulAll(FlagFields(m) + more)
    ensures FaithfulAll(more)
    ensures ParseFlags(EncodeAll(FlagFields(m) + more)) ==
            FlagsGot(Flags(m.test, m.confRev, m.ndsCom, m.numDatSetEntries), EncodeAll(more))
  {
    hide OptionalBool, ExpectUint32, EncodeAll, FaithfulAll, UintElem, BoolElem;
    var f := FlagFields(m);
    var m3 := [f[3]] + more;
    var m2 := [f[2]] + m3;
    var m1 := [f[1]] + m2;
    assert f + more == [f[0]] + m1;
    BoolReads(m.test, m1, 7);
    UintReads(m.confRev, m2, 8);
    BoolReads(m.ndsCom, m3, 9);
    UintReads(m.numDatSetEntries, more, 10);
  }

  lemma ValuesRead(m: Message)
    requires FaithfulAll([AllData(m)]) && Sendable(m)
    ensures ParseValues(EncodeAll([AllData(m)])) == Ok(m.values)
  {
    hide ExpectTag, DecodeAll, EncodeAll, FaithfulAll;
    FirstReads([AllData(m)], ContextConstructed(11));
    DataPlain(m.values);
    InsideFaithful(ContextConstructed(11), DataElements(m.values));
    RoundTripAll(m.values, 0);
  }

  lemma {:induction false} DataPlain(vs: seq<Value>)
    ensures forall el | el in DataElements(vs) :: !el.RawTLV?
    decreases vs
  {
    if vs != [] { DataPlain(vs[1..]); }
  }

  lemma PDUReads(m: Message)
    requires FaithfulAll(Fields(m)) && Sendable(m)
    ensures ParsePDU(EncodeAll(Fields(m)), m.appID) == Ok(Received(m))
  {
    hide ParseHead, ParseState, ParseFlags, ParseValues, EncodeAll, FaithfulAll;
    HeadReads(m, StateFields(m) + (FlagFields(m) + [AllData(m)]));
    StateReads(m, FlagFields(m) + [AllData(m)]);
    FlagsParse(m, [AllData(m)]);
    ValuesRead(m);
  }

  lemma FieldsFaithful(m: Message)
    requires ApduLength(m) < 0x1_0000
    ensures FaithfulAll(Fields(m)) && Faithful(PDU(m)) && ContentOctets(PDU(m)) == EncodeAll(Fields(m))
  {
    hide EncodeAll, SizeAll, BigTagsAll, DataElements, UTCTimeOctets;
    PDUTagsSmall(m);
    SizeSplits(PDU(m));
    assert forall el | el in Fields(m) :: !el.RawTLV?;
  }

  // A message of fewer than 64 Ki octets comes back with the same fields, the
  // time at most 60 ns early, whatever padding the frame carried after it.
  lemma ParseMarshal(m: Message, padding: Bytes)
    requires Sendable(m) && ApduLength(m) < 0x1_0000
    ensures Parse(Marshal(m) + padding) == Ok(Received(m))
  {
    hide Marshal, BE, ToBE, ExpectTag, ParsePDU, Encode, EncodeAll, ContentOctets, Fields;
    var apdu := Marshal(m) + padding;
    MarshalLength(m);
    LengthField(m);
    assert apdu[..2] == Marshal(m)[..2] && apdu[2..4] == Marshal(m)[2..4];
    assert apdu[HEADER_LEN..ApduLength(m)] == Encode(PDU(m)) + [];
    FieldsFaithful(m);
    EncodedExpect(PDU(m), PDU_TAG, []);
    PDUReads(m);
  }

  // The codec as it runs

  method Build(m: Message) returns (buf: Bytes)
    ensures buf == Marshal(m)
  {
    hide Encode, Size, ToBE;
    var els: seq<Element> := [];
    var i := 0;
    while i < |m.values|
      invariant i <= |m.values|
      invariant els + DataElements(m.values[i..]) == DataElements(m.values)
    {
      var v := m.values[i];
      assert m.values[i..][1..] == m.values[i + 1..];
      els := els + if v.NoValue? then [] else [DataElement(v)];
      i := i + 1;
    }
    assert els == DataElements(m.values);
    var pdu := Cons(PDU_TAG, HeadFields(m) + (StateFields(m) + (FlagFields(m) + [Cons(ContextConstructed(11), els)])));
    var size := Forecast(pdu);
    var header := ToBE(m.appID, 2) + ToBE(HEADER_LEN + size, 2) + [0, 0, 0, 0];
    buf := Append(header, pdu);
  }

  method ReadUint32(d: Decoder, tag: uint32) returns (r: Uint32Read)
    requires d.Valid()
    modifies d
    ensures d.Valid() && r == ExpectUint32(old(d.Rest()), tag)
    ensures r.Uint32? ==> d.Rest() == r.rest
  {
    hide ExpectTag, DecodeUint;
    var b := d.Expect(ContextPrimitive(tag));
    if b.NoField? {
      return NoUint32(b.error);
    }
    var v := ReadUint(b.content);
    r := if v.Err? || v.value > 0xffff_ffff then NoUint32(BadValue) else Uint32(v.value, b.rest);
  }

  method ReadBool(d: Decoder, tag: uint32) returns (r: BoolRead)
    requires d.Valid()
    modifies d
    ensures d.Valid() && r == OptionalBool(old(d.Rest()), tag)
    ensures r.Bool? ==> d.Rest() == r.rest
  {
    hide OptionalTag;
    ghost var s := d.Rest();
    var b := d.Optional(ContextPrimitive(tag));
    match b
    case NoMaybe(e) => r := NoBool(e);
    case Absent => r := Bool(false, d.Rest());
    case Present(c, rest) =>
      var v := DecodeBool(c);
      r := if v.Err? then NoBool(v.error) else Bool(v.value, rest);
  }

  method ReadHead(d: Decoder) returns (r: HeadRead)
    requires d.Valid()
    modifies d
    ensures d.Valid() && r == ParseHead(old(d.Rest()))
    ensures r.HeadGot? ==> d.Rest() == r.rest
  {
    hide ExpectTag, OptionalTag, ExpectUint32;
    var ref := d.Expect(ContextPrimitive(0));
    if ref.NoField? {
      return NoHead(ref.error);
    }
    var tatl := ReadUint32(d, 1);
    if tatl.NoUint32? {
      return NoHead(tatl.error);
    }
    var datSet := d.Expect(ContextPrimitive(2));
    if datSet.NoField? {
      return NoHead(datSet.error);
    }
    var goID := d.Optional(ContextPrimitive(3));
    if goID.NoMaybe? {
      return NoHead(goID.error);
    }
    var id: Bytes := if goID.Present? then goID.content else [];
    r := HeadGot(Head(ref.content, tatl.value, datSet.content, id), d.Rest());
  }

  method ReadState(d: Decoder) returns (r: StateRead)
    requires d.Valid()
    modifies d
    ensures d.Valid() && r == ParseState(old(d.Rest()))
    ensures r.StateGot? ==> d.Rest() == r.rest
  {
    hide ExpectTag, ExpectUint32, TimeOfOctets;
    var utc := d.Expect(ContextPrimitive(4));
    if utc.NoField? {
      return NoState(utc.error);
    }
    if |utc.content| != 8 {
      return NoState(BadValue);
    }
    var stNum := ReadUint32(d, 5);
    if stNum.NoUint32? {
      return NoState(stNum.error);
    }
    var sqNum := ReadUint32(d, 6);
    if sqNum.NoUint32? {
      return NoState(sqNum.error);
    }
    r := StateGot(State(TimeOfOctets(utc.content), utc.content[7], stNum.value, sqNum.value), sqNum.rest);
  }

  method ReadFlags(d: Decoder) returns (r: FlagsRead)
    requires d.Valid()
    modifies d
    ensures d.Valid() && r == ParseFlags(old(d.Rest()))
    ensures r.FlagsGot? ==> d.Rest() == r.rest
  {
    hide OptionalBool, ExpectUint32;
    var test := ReadBool(d, 7);
    if test.NoBool? {
      return NoFlags(test.error);
    }
    var confRev := ReadUint32(d, 8);
    if confRev.NoUint32? {
      return NoFlags(confRev.error);
    }
    var ndsCom := ReadBool(d, 9);
    if ndsCom.NoBool? {
      return NoFlags(ndsCom.error);
    }
    var n := ReadUint32(d, 10);
    if n.NoUint32? {
      return NoFlags(n.error);
    }
    r := FlagsGot(Flags(test.value, confRev.value, ndsCom.value, n.value), n.rest);
  }

  method ReadPDU(content: Bytes, appID: uint16) returns (r: Result<Message>)
    ensures r == ParsePDU(content, appID)
  {
    hide ParseHead, ParseState, ParseFlags, ExpectTag, DecodeAll;
    var d := new Decoder(content);
    var h := ReadHead(d);
    if h.NoHead? {
      return Err(h.error);
    }
    var st := ReadState(d);
    if st.NoState? {
      return Err(st.error);
    }
    var f := ReadFlags(d);
    if f.NoFlags? {
      return Err(f.error);
    }
    var all := d.Expect(ContextConstructed(11));
    if all.NoField? {
      return Err(all.error);
    }
    var vs := ReadChildren(all.content, 0);
    r := if vs.Err? then Err(vs.error) else Ok(Assemble(h.head, st.state, f.flags, vs.value, appID));
  }

  method ReadMessage(apdu: Bytes) returns (r: Result<Message>)
    ensures r == Parse(apdu)
  {
    hide ExpectTag, ParsePDU;
    if |apdu| < HEADER_LEN {
      return Err(Truncated);
    }
    BE2(apdu[..2]);
    BE2(apdu[2..4]);
    var appID: nat := apdu[0] as int * 0x100 + apdu[1];
    var length: nat := apdu[2] as int * 0x100 + apdu[3];
    if length < HEADER_LEN || length > |apdu| {
      return Err(BadLength);
    }
    var outer := new Decoder(apdu[HEADER_LEN..length]);
    var content := outer.Expect(PDU_TAG);
    if content.NoField? {
      return Err(content.error);
    }
    r := ReadPDU(content.content, appID);
  }
}
