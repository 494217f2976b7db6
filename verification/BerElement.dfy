// The encoder tree of asn1/element.go and its agreement with the decoder.

module BerElement {
  import opened Octets
  import opened Ber
  import opened BerDecoder
  import opened BerGrammar

  datatype Element =
    | Plain(tag: Tag, value: Bytes, children: seq<Element>)
    | RawContent(tag: Tag, content: Bytes)
    | RawTLV(tlv: Bytes)

  function Prim(t: Tag, value: Bytes): Element { Plain(t, value, []) }

  function Cons(t: Tag, children: seq<Element>): Element { Plain(t.(constructed := true), [], children) }

  function ContentSize(el: Element): (n: nat)
    decreases el, 0
  {
    match el
    case RawTLV(_) => 0
    case RawContent(_, content) => |content|
    case Plain(t, value, children) => if t.constructed then SizeAll(children) else |value|
  }

  function Size(el: Element): (n: nat)
    decreases el, 1
  {
    if el.RawTLV? then |el.tlv|
    else TagSize(el.tag) + LengthSize(ContentSize(el)) + ContentSize(el)
  }

  function SizeAll(els: seq<Element>): (n: nat)
    decreases els, 0
  {
    if els == [] then 0 else Size(els[0]) + SizeAll(els[1..])
  }

  function ContentOctets(el: Element): (s: Bytes)
    decreases el, 0
  {
    match el
    case RawTLV(_) => []
    case RawContent(_, content) => content
    case Plain(t, value, children) => if t.constructed then EncodeAll(children) else value
  }

  function Encode(el: Element): (s: Bytes)
    decreases el, 1
  {
    if el.RawTLV? then el.tlv
    else TagOctets(el.tag) + LengthOctets(ContentSize(el)) + ContentOctets(el)
  }

  function EncodeAll(els: seq<Element>): (s: Bytes)
    decreases els, 0
  {
    if els == [] then [] else Encode(els[0]) + EncodeAll(els[1..])
  }

  // How many tags of the tree have a number TagSize does not forecast.
  function BigTags(el: Element): (n: nat)
    decreases el, 1
  {
    if el.RawTLV? then 0
    else (if el.tag.number < 0x1000_0000 then 0 else 1) + BigTagsInside(el)
  }

  function BigTagsInside(el: Element): (n: nat)
    decreases el, 0
  {
    if el.Plain? && el.tag.constructed then BigTagsAll(el.children) else 0
  }

  function BigTagsAll(els: seq<Element>): (n: nat)
    decreases els, 0
  {
    if els == [] then 0 else BigTags(els[0]) + BigTagsAll(els[1..])
  }

  // What is written is what Size forecasts and one octet per big tag more, so
  // the forecast is exact exactly when there is none.
  lemma {:induction false} EncodedLength(el: Element)
    ensures |Encode(el)| == Size(el) + BigTags(el)
    ensures |ContentOctets(el)| == ContentSize(el) + BigTagsInside(el)
    ensures |Encode(el)| == Size(el) <==> BigTags(el) == 0
    decreases el, 1
  {
    if !el.RawTLV? {
      TagSizeExact(el.tag);
      LengthSizeExact(ContentSize(el));
      if el.Plain? && el.tag.constructed {
        EncodedLengthAll(el.children);
      }
    }
  }

  lemma {:induction false} EncodedLengthAll(els: seq<Element>)
    ensures |EncodeAll(els)| == SizeAll(els) + BigTagsAll(els)
    decreases els, 0
  {
    if els != [] {
      EncodedLength(els[0]);
      EncodedLengthAll(els[1..]);
    }
  }

  lemma {:induction false} SizeAllConcat(a: seq<Element>, b: seq<Element>)
    ensures SizeAll(a + b) == SizeAll(a) + SizeAll(b)
    decreases |a|
  {
    if a == [] {
      assert a + b == b;
    } else {
      assert (a + b)[1..] == a[1..] + b;
      SizeAllConcat(a[1..], b);
    }
  }

  lemma {:induction false} EncodeAllConcat(a: seq<Element>, b: seq<Element>)
    ensures EncodeAll(a + b) == EncodeAll(a) + EncodeAll(b)
    decreases |a|
  {
    if a == [] {
      assert a + b == b;
    } else {
      assert (a + b)[1..] == a[1..] + b;
      EncodeAllConcat(a[1..], b);
      assert EncodeAll(a + b) == Encode(a[0]) + EncodeAll(a[1..] + b);
    }
  }

  method ForecastContent(el: Element) returns (n: nat)
    ensures n == ContentSize(el)
    decreases el, 0
  {
    if el.RawTLV? {
      return 0;
    }
    if el.RawContent? {
      return |el.content|;
    }
    if !el.tag.constructed {
      return |el.value|;
    }
    n := 0;
    var i := 0;
    while i < |el.children|
      invariant i <= |el.children|
      invariant n == SizeAll(el.children[..i])
    {
      var m := Forecast(el.children[i]);
      assert el.children[..i + 1] == el.children[..i] + [el.children[i]];
      SizeAllConcat(el.children[..i], [el.children[i]]);
      assert SizeAll([el.children[i]]) == m;
      n := n + m;
      i := i + 1;
    }
    assert el.children[..i] == el.children;
  }

  method Forecast(el: Element) returns (n: nat)
    ensures n == Size(el)
    decreases el, 1
  {
    if el.RawTLV? {
      return |el.tlv|;
    }
    var c := ForecastContent(el);
    n := TagSize(el.tag) + LengthSize(c) + c;
  }

  method Append(dst: Bytes, el: Element) returns (out: Bytes)
    ensures out == dst + Encode(el)
    decreases el
  {
    hide TagOctets, LengthOctets, ContentSize, EncodeAll;
    if el.RawTLV? {
      return dst + el.tlv;
    }
    var n := ForecastContent(el);
    var head := AppendTag(dst, el.tag);
    out := AppendLength(head, n);
    if el.RawContent? {
      out := out + el.content;
    } else if !el.tag.constructed {
      out := out + el.value;
    } else {
      out := AppendChildren(out, el);
    }
  }

  method AppendChildren(dst: Bytes, el: Element) returns (out: Bytes)
    requires el.Plain?
    ensures out == dst + EncodeAll(el.children)
    decreases el, 0
  {
    out := dst;
    var i := 0;
    while i < |el.children|
      invariant i <= |el.children|
      invariant out == dst + EncodeAll(el.children[..i])
    {
      out := Append(out, el.children[i]);
      assert el.children[..i + 1] == el.children[..i] + [el.children[i]];
      EncodeAllConcat(el.children[..i], [el.children[i]]);
      assert EncodeAll([el.children[i]]) == Encode(el.children[i]);
      i := i + 1;
    }
    assert el.children[..i] == el.children;
  }

  // What the encoder writes is a sentence of the grammar.

  lemma TagOctetsDerive(t: Tag)
    ensures IsIdentifier(TagOctets(t), t)
  {
    if t.number >= 31 {
      FlaggedValue(t.number);
      DigitsCount(t.number);
      assert TagOctets(t)[1..] == Flagged(Digits(t.number));
    }
  }

  lemma LengthOctetsDerive(n: nat)
    requires n < 0x1_0000_0000
    ensures IsLength(LengthOctets(n), n)
  {
    var k := |LengthOctets(n)| - 1;
    if k > 0 {
      assert LengthOctets(n)[1..] == ToBE(n, k);
      ShrGone(n, k);
      BEToBE(n, k);
    }
  }

  lemma ShrGone(n: nat, k: nat)
    requires k <= 4
    requires k == 1 ==> n <= 0xff
    requires k == 2 ==> n <= 0xffff
    requires k == 3 ==> n <= 0xff_ffff
    requires k == 4 ==> n <= 0xffff_ffff
    requires k != 0
    ensures Shr8(n, k) == 0
  {
    assert Shr8(n, 1) == n / 256;
    Shr8Step(n, 1);
    Shr8Step(n, 2);
    Shr8Step(n, 3);
  }

  // A length of four gigaoctets or more is written modulo 2^32: the length
  // octets mean n exactly when n is below that.
  lemma LengthOctetsExact(n: nat, rest: Bytes)
    ensures ParseLength(LengthOctets(n) + rest) == Got(Definite(n % 0x1_0000_0000), |LengthOctets(n)|)
    ensures ParseLength(LengthOctets(n) + rest) == Got(Definite(n), |LengthOctets(n)|) <==> n < 0x1_0000_0000
  {
    hide ParseLength, LengthOctets;
    if n < 0x1_0000_0000 {
      LengthOctetsDerive(n);
      LengthComplete(LengthOctets(n) + rest, LengthOctets(n), n);
    } else {
      LongLengthWraps(n, rest);
    }
  }

  lemma LongLengthWraps(n: nat, rest: Bytes)
    requires n >= 0x1_0000_0000
    ensures ParseLength(LengthOctets(n) + rest) == Got(Definite(n % 0x1_0000_0000), |LengthOctets(n)|)
  {
    hide ToBE, BE, Shr8;
    var m := n % 0x1_0000_0000;
    ToBEPlus(m, n / 0x1_0000_0000);
    assert m + 0x1_0000_0000 * (n / 0x1_0000_0000) == n;
    ShrGone(m, 4);
    BEToBE(m, 4);
    assert (LengthOctets(n) + rest)[1..5] == ToBE(n, 4);
  }

  lemma ToBEPlus(m: nat, q: nat)
    ensures ToBE(m + 0x1_0000_0000 * q, 4) == ToBE(m, 4)
  {
    var m1 := m / 256;
    var m2 := m1 / 256;
    var m3 := m2 / 256;
    hide ToBE;
    ToBEStep(m, 0x100_0000 * q, 4);
    ToBEStep(m, 0, 4);
    ToBEStep(m1, 0x1_0000 * q, 3);
    ToBEStep(m1, 0, 3);
    ToBEStep(m2, 0x100 * q, 2);
    ToBEStep(m2, 0, 2);
    ToBEStep(m3, q, 1);
    ToBEStep(m3, 0, 1);
    assert ToBE(m3 / 256 + q, 0) == ToBE(m3 / 256 + 0, 0);
  }

  lemma ToBEStep(m: nat, x: nat, k: nat)
    requires k > 0
    ensures ToBE(m + 256 * x, k) == ToBE(m / 256 + x, k - 1) + [m % 256]
  {
    assert (m + 256 * x) / 256 == m / 256 + x && (m + 256 * x) % 256 == m % 256;
  }

  // The content the header announces is the content that follows.
  ghost predicate Faithful(el: Element)
  {
    !el.RawTLV? && BigTagsInside(el) == 0 && ContentSize(el) < 0x1_0000_0000
  }

  // An encoded element is read back with its tag and content, and exactly
  // what followed it is left.
  lemma EncodedReads(el: Element, rest: Bytes)
    requires Faithful(el)
    ensures ReadNext(Encode(el) + rest) == Next(el.tag, ContentOctets(el), rest)
    ensures Encode(el) != []
    ensures ParseTag(Encode(el) + rest) == Got(el.tag, |TagOctets(el.tag)|)
  {
    hide ParseTLV, ParseTag, Derives, IsIdentifier, TagOctets, LengthOctets;
    hide ContentOctets, ContentSize, BigTags, BigTagsInside;
    var t := el.tag;
    TagOctetsDerive(t);
    var s := Encode(el) + rest;
    assert s[..|TagOctets(t)|] == TagOctets(t);
    TagComplete(s, TagOctets(t), t);
    var e := EncodedDerives(el);
    Complete(e, t, rest, 0);
    assert s[|Encode(el)|..] == rest;
  }

  // A content of four gigaoctets or more is cut to its length modulo 2^32: some
  // of it is taken for what follows the element.
  lemma LongContentIsCut(el: Element, rest: Bytes)
    requires !el.RawTLV? && BigTagsInside(el) == 0 && ContentSize(el) >= 0x1_0000_0000
    ensures ReadNext(Encode(el) + rest).Next? && |ReadNext(Encode(el) + rest).rest| > |rest|
  {
    hide ParseTag, ParseLength, TagOctets, LengthOctets, ContentOctets, ContentSize, BigTagsInside, IsIdentifier;
    var t, n := el.tag, ContentSize(el);
    var s := Encode(el) + rest;
    EncodedLength(el);
    TagOctetsDerive(t);
    assert s[..|TagOctets(t)|] == TagOctets(t);
    TagComplete(s, TagOctets(t), t);
    var after := s[|TagOctets(t)|..];
    assert after == LengthOctets(n) + (ContentOctets(el) + rest);
    LengthOctetsExact(n, ContentOctets(el) + rest);
  }

  lemma EncodedDerives(el: Element) returns (e: Encoding)
    requires Faithful(el)
    ensures Derives(e, el.tag, 64) && OctetsOf(e) == Encode(el) && ContentOf(e) == ContentOctets(el)
  {
    hide IsIdentifier, IsLength;
    EncodedLength(el);
    TagOctetsDerive(el.tag);
    LengthOctetsDerive(ContentSize(el));
    e := DefiniteForm(TagOctets(el.tag), LengthOctets(ContentSize(el)), ContentOctets(el));
  }

  lemma EncodedExpect(el: Element, t: Tag, rest: Bytes)
    requires Faithful(el)
    ensures el.tag == t ==> ExpectTag(Encode(el) + rest, t) == Field(ContentOctets(el), rest)
    ensures el.tag == t ==> OptionalTag(Encode(el) + rest, t) == Present(ContentOctets(el), rest)
    ensures el.tag != t ==> OptionalTag(Encode(el) + rest, t) == Absent
  {
    hide ReadNext, ParseTag;
    EncodedReads(el, rest);
  }

  // A run of elements a decoder can go through one at a time.
  ghost predicate FaithfulAll(els: seq<Element>)
  {
    && BigTagsAll(els) == 0
    && SizeAll(els) < 0x1_0000_0000
    && forall el | el in els :: !el.RawTLV?
  }

  lemma ListCons(a: Element, els: seq<Element>)
    ensures SizeAll([a] + els) == Size(a) + SizeAll(els)
    ensures EncodeAll([a] + els) == Encode(a) + EncodeAll(els)
    ensures BigTagsAll([a] + els) == BigTags(a) + BigTagsAll(els)
  {
    assert ([a] + els)[1..] == els;
  }

  // The first of a run is read with its tag and content; the others are left.
  lemma FirstReads(els: seq<Element>, t: Tag)
    requires els != [] && FaithfulAll(els)
    ensures Faithful(els[0]) && BigTags(els[0]) == 0 && FaithfulAll(els[1..])
    ensures EncodeAll(els) != []
    ensures ReadNext(EncodeAll(els)) == Next(els[0].tag, ContentOctets(els[0]), EncodeAll(els[1..]))
    ensures els[0].tag == t ==> ExpectTag(EncodeAll(els), t) == Field(ContentOctets(els[0]), EncodeAll(els[1..]))
    ensures els[0].tag == t ==> OptionalTag(EncodeAll(els), t) == Present(ContentOctets(els[0]), EncodeAll(els[1..]))
    ensures els[0].tag != t ==> OptionalTag(EncodeAll(els), t) == Absent
  {
    hide ReadNext, ExpectTag, OptionalTag, Encode, ContentOctets, ContentSize;
    ListCons(els[0], els[1..]);
    assert els == [els[0]] + els[1..];
    SizeSplits(els[0]);
    EncodedReads(els[0], EncodeAll(els[1..]));
    EncodedExpect(els[0], t, EncodeAll(els[1..]));
  }

  lemma SizeSplits(el: Element)
    requires !el.RawTLV?
    ensures ContentSize(el) < Size(el)
    ensures BigTagsInside(el) <= BigTags(el)
  {}

  // The content of a constructed element is a run of its children.
  lemma InsideFaithful(t: Tag, els: seq<Element>)
    requires Faithful(Cons(t, els)) && forall el | el in els :: !el.RawTLV?
    ensures FaithfulAll(els) && ContentOctets(Cons(t, els)) == EncodeAll(els)
  {}
}
