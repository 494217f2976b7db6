// Continued listings: the pages a server fills up to the PDU size
// (server/handler.go, server/journal.go, mms/server_ext.go) and the client
// loops that follow them (mms/services.go, mms/services_journal.go).

module Paging {
  import opened Options
  import opened Octets
  import opened Ber
  import opened BerElement
  import opened BerPrimitives
  import opened BerDecoder

  // An element of a listing and the key a client continues after: a name, or
  // a journal entry and its identifier.
  datatype Item = Item(key: Bytes, element: Element)

  const ENVELOPE := 24
  const MAX_CONTINUED := 0x10_0000

  const NAME_LIST: uint32 := 1
  const READ_JOURNAL: uint32 := 65

  ghost predicate Encodable(items: seq<Item>)
  {
    forall x | x in items :: !x.element.RawTLV? && BigTags(x.element) == 0
  }

  function Elements(items: seq<Item>): (els: seq<Element>)
    ensures |els| == |items|
  {
    if items == [] then [] else [items[0].element] + Elements(items[1..])
  }

  // The page

  // How many items fit, i of them taken already and used octets of the budget.
  function Fill(items: seq<Item>, maxPDU: nat, i: nat, used: nat): (k: nat)
    requires i <= |items|
    ensures i <= k <= |items|
    decreases |items| - i
  {
    if i == |items| then i
    else
      var size := Size(items[i].element);
      if maxPDU > 0 && i > 0 && used + size > maxPDU - ENVELOPE then i
      else Fill(items, maxPDU, i + 1, used + size)
  }

  function ListResponse(svc: uint32, els: seq<Element>, more: bool): Element
  {
    Cons(ContextConstructed(svc), [Cons(ContextConstructed(0), els), BoolElem(ContextPrimitive(1), more)])
  }

  function ConfirmedResponse(invokeID: uint32, resp: Element): Element
  {
    Cons(ContextConstructed(1), [UintElem(TAG_INTEGER, invokeID), resp])
  }

  // What a client is sent: a page and whether more follow, or a resource error
  // in place of a response over the PDU size.
  datatype Answer = Page(items: seq<Item>, more: bool) | ResourceError

  function Serve(svc: uint32, selected: seq<Item>, maxPDU: nat, invokeID: uint32): (a: Answer)
  {
    var k := Fill(selected, maxPDU, 0, 0);
    var resp := ListResponse(svc, Elements(selected[..k]), k < |selected|);
    if maxPDU > 0 && |Encode(ConfirmedResponse(invokeID, resp))| > maxPDU then ResourceError
    else Page(selected[..k], k < |selected|)
  }

  method FillPage(selected: seq<Item>, maxPDU: nat) returns (page: seq<Item>, more: bool)
    ensures page == selected[..Fill(selected, maxPDU, 0, 0)] && (more <==> Fill(selected, maxPDU, 0, 0) < |selected|)
  {
    page, more := [], false;
    var used: nat := 0;
    var i := 0;
    while i < |selected|
      invariant 0 <= i <= |selected| && page == selected[..i] && !more
      invariant Fill(selected, maxPDU, 0, 0) == Fill(selected, maxPDU, i, used)
    {
      var size := Forecast(selected[i].element);
      if maxPDU > 0 && i > 0 && used + size > maxPDU - ENVELOPE {
        more := true;
        break;
      }
      used := used + size;
      page := page + [selected[i]];
      i := i + 1;
    }
  }

  // Sizes

  lemma {:induction false} FillBudget(items: seq<Item>, maxPDU: nat, i: nat, used: nat)
    requires i <= |items| && maxPDU > 0
    requires used == SizeAll(Elements(items[..i]))
    requires i >= 2 ==> used <= maxPDU - ENVELOPE
    ensures
      var k := Fill(items, maxPDU, i, used);
      k >= 2 ==> SizeAll(Elements(items[..k])) <= maxPDU - ENVELOPE
    decreases |items| - i
  {
    if i < |items| {
      var size := Size(items[i].element);
      if !(i > 0 && used + size > maxPDU - ENVELOPE) {
        ElementsSnoc(items, i);
        FillBudget(items, maxPDU, i + 1, used + size);
      }
    }
  }

  // The page is as long as it can be: the first item is always on it, and it ends
  // only with the listing or where the next item would go over the budget.
  lemma {:induction false} FillIsLongest(items: seq<Item>, maxPDU: nat, i: nat, used: nat)
    requires i <= |items| && used == SizeAll(Elements(items[..i]))
    ensures
      var k := Fill(items, maxPDU, i, used);
      && (items != [] ==> k >= 1)
      && (k < |items| ==> maxPDU > 0 && SizeAll(Elements(items[..k + 1])) > maxPDU - ENVELOPE)
    decreases |items| - i
  {
    if i < |items| {
      var size := Size(items[i].element);
      ElementsSnoc(items, i);
      if !(maxPDU > 0 && i > 0 && used + size > maxPDU - ENVELOPE) {
        FillIsLongest(items, maxPDU, i + 1, used + size);
      }
    }
  }

  lemma ElementsSnoc(items: seq<Item>, i: nat)
    requires i < |items|
    ensures Elements(items[..i + 1]) == Elements(items[..i]) + [items[i].element]
    ensures SizeAll(Elements(items[..i + 1])) == SizeAll(Elements(items[..i])) + Size(items[i].element)
  {
    ElementsConcat(items[..i], [items[i]]);
    assert items[..i + 1] == items[..i] + [items[i]];
    assert Elements([items[i]]) == [items[i].element];
    SizeAllConcat(Elements(items[..i]), [items[i].element]);
    ListCons(items[i].element, []);
    assert [items[i].element] + [] == [items[i].element];
  }

  lemma {:induction false} ElementsConcat(a: seq<Item>, b: seq<Item>)
    ensures Elements(a + b) == Elements(a) + Elements(b)
    decreases |a|
  {
    if a == [] {
      assert a + b == b;
    } else {
      assert (a + b)[1..] == a[1..] + b;
      ElementsConcat(a[1..], b);
    }
  }

  lemma {:induction false} ElementsEncodable(items: seq<Item>)
    requires Encodable(items)
    ensures BigTagsAll(Elements(items)) == 0
    ensures forall el | el in Elements(items) :: !el.RawTLV?
    decreases |items|
  {
    if items != [] {
      assert items[0] in items;
      ElementsEncodable(items[1..]);
      ListCons(items[0].element, Elements(items[1..]));
    }
  }

  lemma PairSizes(a: Element, b: Element)
    ensures SizeAll([a, b]) == Size(a) + Size(b)
    ensures BigTagsAll([a, b]) == BigTags(a) + BigTags(b)
    ensures EncodeAll([a, b]) == Encode(a) + Encode(b)
  {
    ListCons(b, []);
    ListCons(a, [b]);
    assert [a] + [b] == [a, b] && [b] + [] == [b];
    assert Encode(b) + EncodeAll([]) == Encode(b);
  }

  // The largest PDU size for which every page fits; a service tag of 31 or
  // more takes a second octet.
  function PageLimit(svc: uint32): nat
  {
    if svc < 31 then 65559 else 65552
  }

  // The octets around the elements.
  lemma EnvelopeSize(svc: uint32, els: seq<Element>, more: bool, invokeID: uint32)
    requires svc < 0x80 && SizeAll(els) <= PageLimit(svc) - ENVELOPE
    ensures Size(ConfirmedResponse(invokeID, ListResponse(svc, els, more))) <= SizeAll(els) + ENVELOPE
  {
    hide SizeAll;
    var list := Cons(ContextConstructed(0), els);
    var flag := BoolElem(ContextPrimitive(1), more);
    assert Size(flag) == 3;
    assert Size(list) == SizeAll(els) + 1 + LengthSize(SizeAll(els));
    PairSizes(list, flag);
    var resp := ListResponse(svc, els, more);
    assert Size(resp) <= SizeAll(els) + 12;
    UintSizeBound(invokeID);
    assert Size(UintElem(TAG_INTEGER, invokeID)) <= 7;
    PairSizes(UintElem(TAG_INTEGER, invokeID), resp);
  }

  // Past the limit they outgrow the allowance, for an invokeID of five octets.
  lemma EnvelopeOutgrown(svc: uint32, els: seq<Element>, more: bool)
    requires svc < 0x80 && SizeAll(els) > PageLimit(svc) - ENVELOPE
    ensures Size(ConfirmedResponse(0xffff_ffff, ListResponse(svc, els, more))) > SizeAll(els) + ENVELOPE
  {
    hide SizeAll;
    var list := Cons(ContextConstructed(0), els);
    var flag := BoolElem(ContextPrimitive(1), more);
    assert Size(flag) == 3;
    assert Size(list) == SizeAll(els) + 1 + LengthSize(SizeAll(els));
    PairSizes(list, flag);
    var resp := ListResponse(svc, els, more);
    assert Size(resp) >= SizeAll(els) + 13;
    assert UintSize(0xffff_ffff) == 5;
    assert Size(UintElem(TAG_INTEGER, 0xffff_ffff)) == 7;
    PairSizes(UintElem(TAG_INTEGER, 0xffff_ffff), resp);
  }

  lemma ResponseTagsSmall(svc: uint32, els: seq<Element>, more: bool, invokeID: uint32)
    requires svc < 0x80 && BigTagsAll(els) == 0
    ensures BigTags(ConfirmedResponse(invokeID, ListResponse(svc, els, more))) == 0
    ensures BigTags(ListResponse(svc, els, more)) == 0
  {
    hide BigTagsAll;
    PairSizes(Cons(ContextConstructed(0), els), BoolElem(ContextPrimitive(1), more));
    PairSizes(UintElem(TAG_INTEGER, invokeID), ListResponse(svc, els, more));
  }

  // A page of two elements or more fits the PDU size with everything around
  // it, for every PDU size up to the limit and every invokeID, so that only a
  // page of one element at most can turn into a resource error.
  lemma PagesFit(svc: uint32, selected: seq<Item>, maxPDU: nat, invokeID: uint32)
    requires svc < 0x80 && 1 <= maxPDU <= PageLimit(svc) && Encodable(selected)
    requires Fill(selected, maxPDU, 0, 0) >= 2
    ensures
      var k := Fill(selected, maxPDU, 0, 0);
      |Encode(ConfirmedResponse(invokeID, ListResponse(svc, Elements(selected[..k]), k < |selected|)))| <= maxPDU
    ensures Serve(svc, selected, maxPDU, invokeID).Page?
  {
    hide Fill, Encode, Size;
    var k := Fill(selected, maxPDU, 0, 0);
    var els := Elements(selected[..k]);
    assert Elements(selected[..0]) == [] && SizeAll([]) == 0;
    FillBudget(selected, maxPDU, 0, 0);
    EnvelopeSize(svc, els, k < |selected|, invokeID);
    ElementsEncodable(selected[..k]);
    ResponseTagsSmall(svc, els, k < |selected|, invokeID);
    EncodedLength(ConfirmedResponse(invokeID, ListResponse(svc, els, k < |selected|)));
  }

  // The PDU size of an association

  const MMS_MAX := 65001

  // int32(n).
  function ToInt32(n: int): (r: int)
    ensures -0x8000_0000 <= r < 0x8000_0000
  {
    var u := n % 0x1_0000_0000;
    if u < 0x8000_0000 then u else u - 0x1_0000_0000
  }

  // localDetail of an Initiate request: absent, undecodable or 0 means the most
  // there is.
  function ProposedDetail(content: Option<Bytes>): int
  {
    var n := match content
      case None => 0
      case Some(c) => (match DecodeInt(c) case Err(_) => 0 case Ok(v) => ToInt32(v));
    if n == 0 then MMS_MAX else n
  }

  // What a server that wants one size answers to a proposal, which only lowers
  // it.
  function ClampDetail(want: int, proposed: int): int
  {
    if proposed > 0 && (want == 0 || want > proposed) then proposed else want
  }

  function NegotiatedPDU(content: Option<Bytes>): int { ClampDetail(MMS_MAX, ProposedDetail(content)) }

  // The PDU size of an association is what the request proposed, if that is a
  // number of 32 bits from 1 to 65001, and otherwise 65001.
  lemma NegotiatedExactly(content: Option<Bytes>)
    ensures
      var n := NegotiatedPDU(content);
      match content
      case None => n == 65001
      case Some(c) =>
        if DecodeInt(c).Err? then n == 65001
        else
          var low := DecodeInt(c).value % 0x1_0000_0000;
          n == if 1 <= low <= 65001 then low else 65001
  {}

  // On every association, whatever its Initiate request proposed, the PDU size
  // is limited, and a name list or journal page turns into a resource error
  // exactly when it has a single element, or none, that does not fit by itself.
  lemma AssociationPages(
    content: Option<Bytes>, svc: uint32, selected: seq<Item>, invokeID: uint32)
    requires (svc == NAME_LIST || svc == READ_JOURNAL) && Encodable(selected)
    ensures 1 <= NegotiatedPDU(content) <= MMS_MAX
    ensures
      var maxPDU := NegotiatedPDU(content);
      var k := Fill(selected, maxPDU, 0, 0);
      var resp := ListResponse(svc, Elements(selected[..k]), k < |selected|);
      Serve(svc, selected, maxPDU, invokeID).ResourceError? <==>
      k <= 1 && Size(ConfirmedResponse(invokeID, resp)) > maxPDU
  {
    hide Fill, Encode, Size, ListResponse, ConfirmedResponse;
    var maxPDU := NegotiatedPDU(content);
    var k := Fill(selected, maxPDU, 0, 0);
    var els := Elements(selected[..k]);
    if k >= 2 {
      PagesFit(svc, selected, maxPDU, invokeID);
    }
    ElementsEncodable(selected[..k]);
    ResponseTagsSmall(svc, els, k < |selected|, invokeID);
    EncodedLength(ConfirmedResponse(invokeID, ListResponse(svc, els, k < |selected|)));
  }

  // The limit is sharp, though no association reaches it: for every larger PDU
  // size there is a listing whose page of two elements would come out as a
  // resource error.
  lemma PagesOverflow(svc: uint32, maxPDU: nat) returns (selected: seq<Item>)
    requires svc < 0x80 && maxPDU > PageLimit(svc)
    ensures Encodable(selected) && Fill(selected, maxPDU, 0, 0) == 2
    ensures Serve(svc, selected, maxPDU, 0xffff_ffff).ResourceError?
  {
    var a, b := Pair(maxPDU - ENVELOPE);
    selected := [Item([1], a), Item([2], b)];
    FillsTwo(selected, maxPDU);
    var els := Elements(selected);
    assert els == [a, b] by { assert Elements(selected[1..]) == [b]; }
    assert selected[..2] == selected;
    PairSizes(a, b);
    EnvelopeOutgrown(svc, els, false);
    ElementsEncodable(selected);
    ResponseTagsSmall(svc, els, false, 0xffff_ffff);
    EncodedLength(ConfirmedResponse(0xffff_ffff, ListResponse(svc, els, false)));
  }

  lemma FillsTwo(items: seq<Item>, maxPDU: nat)
    requires |items| == 2 && maxPDU > 0
    requires Size(items[0].element) + Size(items[1].element) <= maxPDU - ENVELOPE
    ensures Fill(items, maxPDU, 0, 0) == 2
  {
    hide Size;
    assert Fill(items, maxPDU, 2, Size(items[0].element) + Size(items[1].element)) == 2;
    assert Fill(items, maxPDU, 1, Size(items[0].element)) == 2;
  }

  // Two strings that take a given number of octets between them.
  lemma Pair(size: nat) returns (a: Element, b: Element)
    requires size > 65528
    ensures !a.RawTLV? && !b.RawTLV? && BigTags(a) == BigTags(b) == 0
    ensures Size(a) + Size(b) == size
  {
    var lead := if size == 65542 || size == 0x100_0007 then 1 else 0;
    var long := if size <= 65542 then 3 else if size <= 0x100_0007 then 4 else 5;
    var n := size - 3 - lead - long;
    a := Prim(TAG_VISIBLE_STRING, seq(lead, _ => 0));
    b := Prim(TAG_VISIBLE_STRING, seq(n, _ => 0));
  }
}
