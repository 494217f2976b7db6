// A client following a continued listing to its end (mms/services.go,
// mms/services_journal.go), and the two servers it follows: the names of
// server/handler.go and the journal of server/journal.go.
//
// A listing is taken to stay the same while it is read.

module Listing {
  import opened Options
  import opened Octets
  import opened Ber
  import opened BerElement
  import opened BerPrimitives
  import opened BerDecoder
  import opened Paging

  // The client

  datatype Kind = Names | Journal

  datatype Outcome = Complete(items: seq<Item>) | Refused | TooMany | NoProgress

  // What a peer answers to the k-th request, which continues after a key, or
  // starts the listing when the key is empty. Nothing else is known of a peer.
  type Server = (nat, Bytes) -> Answer

  // The continuation point has not moved. A journal entry without an
  // identifier never counts as the same as the last.
  predicate Stuck(kind: Kind, next: Bytes, prev: Bytes)
  {
    next == prev && (kind.Journal? ==> next != [])
  }

  function Follow(kind: Kind, serve: Server, k: nat, got: seq<Item>, prev: Bytes): Outcome
    requires |got| <= MAX_CONTINUED
    decreases MAX_CONTINUED - |got|
  {
    match serve(k, prev)
    case ResourceError => Refused
    case Page(items, more) =>
      var all := got + items;
      if !more || items == [] then Complete(all)
      else if |all| > MAX_CONTINUED then TooMany
      else
        var next := items[|items| - 1].key;
        if Stuck(kind, next, prev) then NoProgress
        else Follow(kind, serve, k + 1, all, next)
  }

  // A confirmed service's outcome at the client: the octets of the response, or
  // an error.
  datatype Reply = Response(octets: Bytes) | ServiceError

  type NamePeer = (nat, Bytes) -> Reply

  // Octets that are no name list end the listing like an error.
  function PageRead(r: Reply): Answer
  {
    match r
    case ServiceError => ResourceError
    case Response(octets) =>
      match ParseNamePage(octets)
      case BadPage(_) => ResourceError
      case NamePage(names, more) => Page(NameItems(names), more)
  }

  function Decoding(peer: NamePeer): Server
  {
    (k: nat, after: Bytes) => PageRead(peer(k, after))
  }

  // Whatever octets the peer answers with, the listing ends within 2^20 + 1
  // requests.
  method GetNameList(peer: NamePeer) returns (r: Outcome, requests: nat)
    ensures r == Follow(Names, Decoding(peer), 0, [], [])
    ensures 1 <= requests <= 0x10_0001
  {
    hide ParseNamePage;
    var names: seq<Item> := [];
    var after: Bytes := [];
    requests := 0;
    while true
      invariant requests <= |names| <= MAX_CONTINUED
      invariant Follow(Names, Decoding(peer), 0, [], []) == Follow(Names, Decoding(peer), requests, names, after)
      decreases MAX_CONTINUED - |names|
    {
      var resp := peer(requests, after);
      requests := requests + 1;
      if resp.ServiceError? {
        return Refused, requests;
      }
      var page := ReadNamePage(resp.octets);
      if page.BadPage? {
        return Refused, requests;
      }
      names := names + NameItems(page.names);
      if !page.more || page.names == [] {
        return Complete(names), requests;
      }
      if |names| > MAX_CONTINUED {
        return TooMany, requests;
      }
      var next := page.names[|page.names| - 1];
      if next == after {
        return NoProgress, requests;
      }
      after := next;
    }
  }

  method ReadJournalAll(serve: Server) returns (r: Outcome, requests: nat)
    ensures r == Follow(Journal, serve, 0, [], [])
    ensures 1 <= requests <= 0x10_0001
  {
    var all: seq<Item> := [];
    var prev: Bytes := [];
    requests := 0;
    while true
      invariant requests <= |all| <= MAX_CONTINUED
      invariant Follow(Journal, serve, 0, [], []) == Follow(Journal, serve, requests, all, prev)
      decreases MAX_CONTINUED - |all|
    {
      var page := serve(requests, prev);
      requests := requests + 1;
      if page.ResourceError? {
        return Refused, requests;
      }
      all := all + page.items;
      if !page.more || page.items == [] {
        return Complete(all), requests;
      }
      if |all| > MAX_CONTINUED {
        return TooMany, requests;
      }
      var last := page.items[|page.items| - 1];
      if |last.key| > 0 && last.key == prev {
        return NoProgress, requests;
      }
      prev := last.key;
    }
  }

  // Client and server

  ghost predicate Keyed(items: seq<Item>)
  {
    && (forall i | 0 <= i < |items| :: items[i].key != [])
    && (forall i, j | 0 <= i < j < |items| :: items[i].key != items[j].key)
  }

  // A server that pages one listing: from its beginning at first, then after
  // whatever item the client names.
  ghost predicate Pages(serve: Server, svc: uint32, full: seq<Item>, maxPDU: nat, invoke: nat -> uint32)
  {
    && serve(0, []) == Serve(svc, full, maxPDU, invoke(0))
    && forall k: nat, i | 0 <= i < |full| ::
         serve(k, full[i].key) == Serve(svc, full[i + 1..], maxPDU, invoke(k))
  }

  ghost predicate Fits(svc: uint32, els: seq<Element>, maxPDU: nat, invokeID: uint32)
  {
    forall more :: |Encode(ConfirmedResponse(invokeID, ListResponse(svc, els, more)))| <= maxPDU
  }

  // Each item can be sent on its own, and so can the empty listing.
  ghost predicate Room(svc: uint32, full: seq<Item>, maxPDU: nat, invoke: nat -> uint32)
  {
    maxPDU == 0 || (
      && svc < 0x80
      && maxPDU <= PageLimit(svc)
      && Encodable(full)
      && (forall k: nat, i | 0 <= i < |full| :: Fits(svc, [full[i].element], maxPDU, invoke(k)))
      && (full == [] ==> Fits(svc, [], maxPDU, invoke(0))))
  }

  // A page is served, and it makes progress.
  lemma PageServed(svc: uint32, full: seq<Item>, maxPDU: nat, invoke: nat -> uint32, p: nat, k: nat)
    requires Room(svc, full, maxPDU, invoke)
    requires p < |full| || p == |full| == k == 0
    ensures
      var n := Fill(full[p..], maxPDU, 0, 0);
      && (p < |full| ==> n >= 1)
      && Serve(svc, full[p..], maxPDU, invoke(k)) == Page(full[p..p + n], p + n < |full|)
  {
    hide Encode;
    var rest := full[p..];
    var n := Fill(rest, maxPDU, 0, 0);
    assert rest[..n] == full[p..p + n];
    if maxPDU > 0 {
      if n >= 2 {
        hide Fill;
        PagesFit(svc, rest, maxPDU, invoke(k));
      } else {
        Alone(svc, full, maxPDU, invoke, p, n, k);
      }
    }
  }

  lemma Alone(svc: uint32, full: seq<Item>, maxPDU: nat, invoke: nat -> uint32, p: nat, n: nat, k: nat)
    requires Room(svc, full, maxPDU, invoke) && maxPDU > 0
    requires (p < |full| && n == 1) || p == |full| == k == n == 0
    ensures Fits(svc, Elements(full[p..p + n]), maxPDU, invoke(k))
  {
    hide Fits;
    if n == 1 {
      assert full[p..p + 1] == [full[p]];
      assert Elements([full[p]]) == [full[p].element];
    } else {
      assert Elements([]) == [];
    }
  }

  // Following the pages gives the whole listing, in order, exactly once.
  lemma {:induction false} FollowsPages(
    kind: Kind, serve: Server, svc: uint32, full: seq<Item>, maxPDU: nat, invoke: nat -> uint32, p: nat, k: nat)
    requires Pages(serve, svc, full, maxPDU, invoke) && Room(svc, full, maxPDU, invoke)
    requires Keyed(full) && |full| <= 0x10_0000
    requires 0 < p < |full| || p == k == 0
    ensures Follow(kind, serve, k, full[..p], KeyBefore(full, p)) == Complete(full)
    decreases |full| - p
  {
    hide *;
    var n := NextPage(serve, svc, full, maxPDU, invoke, p, k);
    if n > 0 {
      KeyMoves(full, p, n);
    }
    if p + n < |full| {
      FollowsPages(kind, serve, svc, full, maxPDU, invoke, p + n, k + 1);
    }
    Step(kind, serve, full, p, n, k);
  }

  lemma Step(kind: Kind, serve: Server, full: seq<Item>, p: nat, n: nat, k: nat)
    requires p + n <= |full| <= 0x10_0000
    requires p + n < |full| ==> n > 0 && KeyBefore(full, p) != KeyBefore(full, p + n)
    requires serve(k, KeyBefore(full, p)) == Page(full[p..p + n], p + n < |full|)
    ensures Follow(kind, serve, k, full[..p], KeyBefore(full, p)) ==
      if p + n == |full| then Complete(full)
      else Follow(kind, serve, k + 1, full[..p + n], KeyBefore(full, p + n))
  {
    hide KeyBefore;
    Slices(full, p, n);
    FollowOn(kind, serve, k, full[..p], KeyBefore(full, p));
  }

  // What the client continues after, having the first p items.
  function KeyBefore(full: seq<Item>, p: nat): Bytes
    requires p <= |full|
  {
    if p == 0 then [] else full[p - 1].key
  }

  lemma Slices(full: seq<Item>, p: nat, n: nat)
    requires p + n <= |full|
    ensures full[..p] + full[p..p + n] == full[..p + n]
    ensures p + n == |full| ==> full[..p + n] == full
    ensures n > 0 ==> full[p..p + n][n - 1].key == KeyBefore(full, p + n)
  {}

  lemma NextPage(serve: Server, svc: uint32, full: seq<Item>, maxPDU: nat, invoke: nat -> uint32, p: nat, k: nat)
    returns (n: nat)
    requires Pages(serve, svc, full, maxPDU, invoke) && Room(svc, full, maxPDU, invoke)
    requires 0 < p < |full| || p == k == 0
    ensures p + n <= |full| && (p < |full| ==> n >= 1)
    ensures serve(k, KeyBefore(full, p)) == Page(full[p..p + n], p + n < |full|)
  {
    hide Room, Serve, Fill;
    n := Fill(full[p..], maxPDU, 0, 0);
    PageServed(svc, full, maxPDU, invoke, p, k);
    assert full[0..] == full;
    if p > 0 {
      assert full[p - 1 + 1..] == full[p..];
    }
  }

  lemma KeyMoves(full: seq<Item>, p: nat, n: nat)
    requires Keyed(full) && n >= 1 && p + n <= |full|
    ensures KeyBefore(full, p + n) != KeyBefore(full, p)
  {}

  // What the client makes of a page.
  lemma FollowOn(kind: Kind, serve: Server, k: nat, got: seq<Item>, prev: Bytes)
    requires |got| <= MAX_CONTINUED && serve(k, prev).Page?
    ensures
      var items := serve(k, prev).items;
      var r := Follow(kind, serve, k, got, prev);
      if !serve(k, prev).more || items == [] then r == Complete(got + items)
      else if |got + items| > 0x10_0000 then r == TooMany
      else if items[|items| - 1].key == prev && (kind.Names? || prev != []) then r == NoProgress
      else r == Follow(kind, serve, k + 1, got + items, items[|items| - 1].key)
  {}

  lemma ListingComplete(
    kind: Kind, serve: Server, svc: uint32, full: seq<Item>, maxPDU: nat, invoke: nat -> uint32)
    requires Pages(serve, svc, full, maxPDU, invoke) && Room(svc, full, maxPDU, invoke)
    requires Keyed(full) && |full| <= 0x10_0000
    ensures Follow(kind, serve, 0, [], []) == Complete(full)
  {
    FollowsPages(kind, serve, svc, full, maxPDU, invoke, 0, 0);
    assert full[..0] == [];
  }

  // Names

  function NameItems(names: seq<Bytes>): (items: seq<Item>)
    ensures |items| == |names|
    ensures forall i | 0 <= i < |names| :: items[i] == Item(names[i], Prim(TAG_VISIBLE_STRING, names[i]))
  {
    seq(|names|, i requires 0 <= i < |names| => Item(names[i], Prim(TAG_VISIBLE_STRING, names[i])))
  }

  function IndexOf(names: seq<Bytes>, name: Bytes): (i: nat)
    ensures i <= |names|
    ensures i < |names| ==> names[i] == name
    ensures forall j | 0 <= j < i :: names[j] != name
  {
    if names == [] || names[0] == name then 0 else 1 + IndexOf(names[1..], name)
  }

  // The names after one of them; all of them when there is no such name.
  function After(names: seq<Bytes>, name: Bytes): seq<Bytes>
  {
    var i := IndexOf(names, name);
    if name == [] || i == |names| then names else names[i + 1..]
  }

  method ContinueAfter(names: seq<Bytes>, after: Bytes) returns (rest: seq<Bytes>)
    ensures rest == After(names, after)
    ensures after == [] || after !in names ==> rest == names
    ensures after != [] && after in names ==>
      exists i | 0 <= i < |names| :: names[i] == after && after !in names[..i] && rest == names[i + 1..]
  {
    rest := names;
    if after != [] {
      for i := 0 to |names|
        invariant rest == names
        invariant forall j | 0 <= j < i :: names[j] != after
      {
        if names[i] == after {
          rest := names[i + 1..];
          return;
        }
      }
    }
  }

  // getNameList and sendResponse together.
  function NameListReply(names: seq<Bytes>, after: Bytes, maxPDU: nat, invokeID: uint32): Reply
  {
    match Serve(NAME_LIST, NameItems(After(names, after)), maxPDU, invokeID)
    case ResourceError => ServiceError
    case Page(items, more) => Response(Encode(ListResponse(NAME_LIST, Elements(items), more)))
  }

  ghost predicate NamesServed(peer: NamePeer, names: seq<Bytes>, maxPDU: nat, invoke: nat -> uint32)
  {
    forall k: nat, after :: peer(k, after) == NameListReply(names, after, maxPDU, invoke(k))
  }

  ghost predicate Distinct(names: seq<Bytes>)
  {
    forall i, j | 0 <= i < j < |names| :: names[i] != names[j]
  }

  // The octets of the names with their headers.
  function NamesSize(names: seq<Bytes>): nat { SizeAll(Elements(NameItems(names))) }

  lemma SliceSize(names: seq<Bytes>, i: nat, j: nat)
    requires i <= j <= |names|
    ensures NamesSize(names[i..j]) <= NamesSize(names)
  {
    var a, b, c := NameItems(names[..i]), NameItems(names[i..j]), NameItems(names[j..]);
    assert NameItems(names) == a + (b + c);
    hide NameItems, SizeAll, Elements;
    ElementsConcat(a, b + c);
    ElementsConcat(b, c);
    SizeAllConcat(Elements(a), Elements(b + c));
    SizeAllConcat(Elements(b), Elements(c));
  }

  // What the server answers is read as what it served.
  lemma ReplyIsRead(names: seq<Bytes>, after: Bytes, maxPDU: nat, invokeID: uint32)
    requires NamesSize(names) < 0x8000_0000
    ensures
      PageRead(NameListReply(names, after, maxPDU, invokeID)) ==
      Serve(NAME_LIST, NameItems(After(names, after)), maxPDU, invokeID)
  {
    hide ParseNamePage, Encode, SizeAll, Elements, ListResponse, Fill, IndexOf;
    var rest := After(names, after);
    var i := |names| - |rest|;
    assert rest == names[i..];
    var k := Fill(NameItems(rest), maxPDU, 0, 0);
    assert NameItems(rest)[..k] == NameItems(names[i..i + k]);
    SliceSize(names, i, i + k);
    NamePageRoundTrip(names[i..i + k], k < |rest|);
  }

  // GetNameList against getNameList, octets sent and read, returns exactly the
  // list.
  lemma NameListComplete(peer: NamePeer, names: seq<Bytes>, maxPDU: nat, invoke: nat -> uint32)
    requires NamesServed(peer, names, maxPDU, invoke) && NamesSize(names) < 0x8000_0000
    requires Room(NAME_LIST, NameItems(names), maxPDU, invoke)
    requires Distinct(names) && [] !in names && |names| <= 0x10_0000
    ensures Follow(Names, Decoding(peer), 0, [], []) == Complete(NameItems(names))
  {
    hide Room, Serve, Follow, PageRead, NameListReply, NamesSize, IndexOf;
    var full, serve := NameItems(names), Decoding(peer);
    ReplyIsRead(names, [], maxPDU, invoke(0));
    assert After(names, []) == names;
    forall k: nat, i | 0 <= i < |full|
      ensures serve(k, full[i].key) == Serve(NAME_LIST, full[i + 1..], maxPDU, invoke(k))
    {
      assert names[i] in names;
      assert After(names, names[i]) == names[i + 1..];
      assert NameItems(names[i + 1..]) == full[i + 1..];
      ReplyIsRead(names, names[i], maxPDU, invoke(k));
    }
    ListingComplete(Names, serve, NAME_LIST, full, maxPDU, invoke);
  }

  // A page as the client reads it

  datatype NamePage = NamePage(names: seq<Bytes>, more: bool) | BadPage(error: Error)

  function ParseNames(s: Bytes): Result<seq<Bytes>>
    decreases |s|
  {
    if s == [] then Ok([])
    else
      match ExpectTag(s, TAG_VISIBLE_STRING)
      case NoField(e) => Err(e)
      case Field(id, rest) =>
        var names := ParseNames(rest);
        if names.Err? then names else Ok([id] + names.value)
  }

  // moreFollows defaults to true.
  function ParseMore(s: Bytes): bool
  {
    match OptionalTag(s, ContextPrimitive(1))
    case Present(mf, _) => var b := DecodeBool(mf); b.Ok? && b.value
    case _ => true
  }

  function ParseNamePage(resp: Bytes): NamePage
  {
    match ExpectTag(resp, ContextConstructed(NAME_LIST))
    case NoField(e) => BadPage(e)
    case Field(content, _) =>
      match ExpectTag(content, ContextConstructed(0))
      case NoField(e) => BadPage(e)
      case Field(list, rest) =>
        var names := ParseNames(list);
        if names.Err? then BadPage(names.error) else NamePage(names.value, ParseMore(rest))
  }

  method ReadNamePage(resp: Bytes) returns (r: NamePage)
    ensures r == ParseNamePage(resp)
  {
    hide ExpectTag, OptionalTag, ParseNames, DecodeBool;
    var dec := new Decoder(resp);
    var content := dec.Expect(ContextConstructed(NAME_LIST));
    if content.NoField? {
      return BadPage(content.error);
    }
    var inner := new Decoder(content.content);
    var list := inner.Expect(ContextConstructed(0));
    if list.NoField? {
      return BadPage(list.error);
    }
    var names := ReadNames(list.content);
    if names.Err? {
      return BadPage(names.error);
    }
    var more := true;
    var mf := inner.Optional(ContextPrimitive(1));
    if mf.Present? {
      var b := DecodeBool(mf.content);
      more := b.Ok? && b.value;
    }
    r := NamePage(names.value, more);
  }

  function Prefixed(names: seq<Bytes>, r: Result<seq<Bytes>>): Result<seq<Bytes>>
  {
    if r.Err? then r else Ok(names + r.value)
  }

  method ReadNames(list: Bytes) returns (r: Result<seq<Bytes>>)
    ensures r == ParseNames(list)
  {
    hide ExpectTag;
    var ld := new Decoder(list);
    var names: seq<Bytes> := [];
    var more := ld.More();
    PrefixedUnit(names, ParseNames(list));
    while more
      invariant ld.Valid() && fresh(ld)
      invariant more <==> ld.Rest() != []
      invariant ParseNames(list) == Prefixed(names, ParseNames(ld.Rest()))
      decreases |ld.Rest()|
    {
      ghost var s := ld.Rest();
      var id := ld.Expect(TAG_VISIBLE_STRING);
      NamesStep(names, s);
      if id.NoField? {
        return Err(id.error);
      }
      names := names + [id.content];
      more := ld.More();
    }
    PrefixedUnit(names, ParseNames([]));
    r := Ok(names);
  }

  lemma PrefixedUnit(names: seq<Bytes>, r: Result<seq<Bytes>>)
    ensures Prefixed([], r) == r
    ensures Prefixed(names, Ok([])) == Ok(names)
  {
    assert names + [] == names;
    if r.Ok? {
      assert [] + r.value == r.value;
    }
  }

  lemma NamesStep(names: seq<Bytes>, s: Bytes)
    requires s != []
    ensures
      match ExpectTag(s, TAG_VISIBLE_STRING)
      case NoField(e) => Prefixed(names, ParseNames(s)) == Err(e)
      case Field(id, rest) => Prefixed(names, ParseNames(s)) == Prefixed(names + [id], ParseNames(rest))
  {
    hide ExpectTag;
    match ExpectTag(s, TAG_VISIBLE_STRING)
    case NoField(e) =>
    case Field(id, rest) =>
      var r := ParseNames(rest);
      if r.Ok? {
        assert names + ([id] + r.value) == names + [id] + r.value;
      }
  }

  // The page a server sends is the page a client reads.
  lemma NamePageRoundTrip(names: seq<Bytes>, more: bool)
    requires NamesSize(names) < 0x8000_0000
    ensures ParseNamePage(Encode(ListResponse(NAME_LIST, Elements(NameItems(names)), more))) == NamePage(names, more)
  {
    var els := Elements(NameItems(names));
    assert SizeAll(els) == NamesSize(names);
    hide *;
    NamesFaithful(names);
    ListRead(els, more);
    NamesRead(names);
    var flag := Encode(BoolElem(ContextPrimitive(1), more));
    PageOf(Encode(ListResponse(NAME_LIST, els, more)), names, more, EncodeAll(els), flag);
  }

  lemma PageOf(resp: Bytes, names: seq<Bytes>, more: bool, list: Bytes, flag: Bytes)
    requires ExpectTag(resp, ContextConstructed(NAME_LIST)).Field?
    requires
      var content := ExpectTag(resp, ContextConstructed(NAME_LIST)).content;
      ExpectTag(content, ContextConstructed(0)) == Field(list, flag)
    requires ParseNames(list) == Ok(names) && ParseMore(flag) == more
    ensures ParseNamePage(resp) == NamePage(names, more)
  {
    hide ExpectTag, ParseNames, ParseMore;
  }

  // A response is read back as its list and its flag.
  lemma ListRead(els: seq<Element>, more: bool)
    requires FaithfulAll(els) && SizeAll(els) < 0x8000_0000
    ensures
      var resp := ExpectTag(Encode(ListResponse(NAME_LIST, els, more)), ContextConstructed(NAME_LIST));
      var flag := Encode(BoolElem(ContextPrimitive(1), more));
      && resp.Field?
      && ExpectTag(resp.content, ContextConstructed(0)) == Field(EncodeAll(els), flag)
      && ParseMore(flag) == more
  {
    ResponseFaithful(els, more);
    MoreRead(more);
    hide ExpectTag, OptionalTag, ParseMore, Encode, EncodeAll, ContentOctets, ContentSize;
    hide Size, SizeAll, BigTags, BigTagsAll, Faithful, FaithfulAll;
    var list := Cons(ContextConstructed(0), els);
    var flag := BoolElem(ContextPrimitive(1), more);
    var resp := ListResponse(NAME_LIST, els, more);
    EncodedExpect(resp, ContextConstructed(NAME_LIST), []);
    assert Encode(resp) + [] == Encode(resp);
    InsideFaithful(ContextConstructed(NAME_LIST), [list, flag]);
    PairSizes(list, flag);
    EncodedExpect(list, ContextConstructed(0), Encode(flag));
    InsideFaithful(ContextConstructed(0), els);
  }

  lemma MoreRead(more: bool)
    ensures ParseMore(Encode(BoolElem(ContextPrimitive(1), more))) == more
  {
    hide OptionalTag, Encode;
    var flag := BoolElem(ContextPrimitive(1), more);
    assert Encode(flag) + [] == Encode(flag);
    EncodedExpect(flag, ContextPrimitive(1), []);
  }

  lemma ResponseFaithful(els: seq<Element>, more: bool)
    requires FaithfulAll(els) && SizeAll(els) < 0x8000_0000
    ensures Faithful(Cons(ContextConstructed(0), els))
    ensures Faithful(ListResponse(NAME_LIST, els, more))
    ensures forall el | el in els :: !el.RawTLV?
  {
    hide SizeAll, BigTagsAll;
    PairSizes(Cons(ContextConstructed(0), els), BoolElem(ContextPrimitive(1), more));
  }

  lemma NamesFaithful(names: seq<Bytes>)
    requires NamesSize(names) < 0x8000_0000
    ensures FaithfulAll(Elements(NameItems(names)))
  {
    ElementsEncodable(NameItems(names));
  }

  lemma {:induction false} NamesRead(names: seq<Bytes>)
    requires FaithfulAll(Elements(NameItems(names)))
    ensures ParseNames(EncodeAll(Elements(NameItems(names)))) == Ok(names)
    decreases |names|
  {
    hide ExpectTag, Encode;
    var items := NameItems(names);
    var els := Elements(items);
    if names == [] {
      assert els == [] && EncodeAll(els) == [];
    } else {
      FirstReads(els, TAG_VISIBLE_STRING);
      assert items[1..] == NameItems(names[1..]);
      assert els[0] == Prim(TAG_VISIBLE_STRING, names[0]) && els[1..] == Elements(items[1..]);
      NamesRead(names[1..]);
      assert names == [names[0]] + names[1..];
    }
  }

  // The journal

  datatype LogEntry = LogEntry(id: Bytes, time: int, element: Element)

  datatype Query = Query(
    startTime: Option<int>,
    startEntry: Option<Bytes>,
    stopTime: Option<int>,
    count: int,
    afterTime: Option<int>,
    afterEntry: Option<Bytes>)

  function IdIndex(log: seq<LogEntry>, id: Bytes): (i: nat)
    ensures i <= |log|
    ensures i < |log| ==> log[i].id == id
    ensures forall j | 0 <= j < i :: log[j].id != id
  {
    if log == [] || log[0].id == id then 0 else 1 + IdIndex(log[1..], id)
  }

  // The first entry later than t.
  function FirstAfter(log: seq<LogEntry>, t: int): (i: nat)
    ensures i <= |log|
    ensures i < |log| ==> log[i].time > t
    ensures forall j | 0 <= j < i :: log[j].time <= t
  {
    if log == [] || log[0].time > t then 0 else 1 + FirstAfter(log[1..], t)
  }

  // Where the answer to a query starts, which is nowhere for an entry to
  // start at that the log does not hold.
  function Start(log: seq<LogEntry>, q: Query): (i: nat)
    ensures i <= |log|
  {
    match q
    case Query(_, _, _, _, afterTime, Some(id)) =>
      var i := IdIndex(log, id);
      if i < |log| then i + 1 else if afterTime.Some? then FirstAfter(log, afterTime.value) else 0
    case Query(_, Some(id), _, _, _, None) => IdIndex(log, id)
    case Query(Some(t), None, _, _, _, None) => FirstAfter(log, t - 1)
    case _ => 0
  }

  function Stop(log: seq<LogEntry>, stop: Option<int>): (i: nat)
    ensures i <= |log|
  {
    if stop.None? then |log| else FirstAfter(log, stop.value)
  }

  function Selected(log: seq<LogEntry>, q: Query): seq<LogEntry>
  {
    var rest := log[Start(log, q)..];
    var n := Stop(rest, q.stopTime);
    rest[..if 0 < q.count < n then q.count else n]
  }

  method FindId(log: seq<LogEntry>, id: Bytes) returns (i: nat)
    ensures i == IdIndex(log, id)
  {
    i := 0;
    while i < |log| && log[i].id != id
      invariant i <= |log| && forall j | 0 <= j < i :: log[j].id != id
    {
      i := i + 1;
    }
  }

  method FindAfter(log: seq<LogEntry>, t: int) returns (i: nat)
    ensures i == FirstAfter(log, t)
  {
    i := 0;
    while i < |log| && log[i].time <= t
      invariant i <= |log| && forall j | 0 <= j < i :: log[j].time <= t
    {
      i := i + 1;
    }
  }

  method FindStart(log: seq<LogEntry>, q: Query) returns (first: nat)
    ensures first == Start(log, q)
  {
    hide IdIndex, FirstAfter;
    first := 0;
    if q.afterEntry.Some? {
      var i := FindId(log, q.afterEntry.value);
      if i < |log| {
        first := i + 1;
      } else if q.afterTime.Some? {
        first := FindAfter(log, q.afterTime.value);
      }
    } else if q.startEntry.Some? {
      first := FindId(log, q.startEntry.value);
    } else if q.startTime.Some? {
      first := FindAfter(log, q.startTime.value - 1);
    }
  }

  method SelectEntries(log: seq<LogEntry>, q: Query) returns (out: seq<LogEntry>)
    ensures out == Selected(log, q)
    ensures exists i: nat, j: nat | i <= j <= |log| :: Begins(log, q, i) && Ends(log, q, i, j) && out == log[i..j]
  {
    hide Start, FirstAfter, Begins, Ends;
    ghost var _, _ := SelectedExactly(log, q);
    var first := FindStart(log, q);
    out := [];
    var rest := log[first..];
    for i := 0 to |rest|
      invariant out == rest[..i] && i <= Stop(rest, q.stopTime) && (q.count > 0 ==> i <= q.count)
    {
      var e := rest[i];
      if q.stopTime.Some? && e.time > q.stopTime.value {
        break;
      }
      if q.count > 0 && |out| >= q.count {
        break;
      }
      out := out + [e];
    }
  }

  // Which entries a query selects, said of the log alone

  // The answer begins at i: just after the first entry with the identifier to
  // continue after, or after its time once that entry is gone; at the first entry
  // with the identifier to start at, or nowhere; at the first entry that is not
  // earlier than the time to start at; or else at the beginning.
  ghost predicate Begins(log: seq<LogEntry>, q: Query, i: nat)
    requires i <= |log|
  {
    if q.afterEntry.Some? then
      if exists k | 0 <= k < |log| :: log[k].id == q.afterEntry.value then
        && 0 < i
        && log[i - 1].id == q.afterEntry.value
        && forall k | 0 <= k < i - 1 :: log[k].id != q.afterEntry.value
      else if q.afterTime.Some? then
        && (forall k | 0 <= k < i :: log[k].time <= q.afterTime.value)
        && (i < |log| ==> q.afterTime.value < log[i].time)
      else i == 0
    else if q.startEntry.Some? then
      && (forall k | 0 <= k < i :: log[k].id != q.startEntry.value)
      && (i < |log| ==> log[i].id == q.startEntry.value)
    else if q.startTime.Some? then
      && (forall k | 0 <= k < i :: log[k].time < q.startTime.value)
      && (i < |log| ==> q.startTime.value <= log[i].time)
    else i == 0
  }

  // An answer that begins at i ends before j: nothing in it is later than the
  // stop time or beyond the count, and it ends only for one of these or with the
  // log.
  ghost predicate Ends(log: seq<LogEntry>, q: Query, i: nat, j: nat)
    requires i <= j <= |log|
  {
    && (q.stopTime.Some? ==> forall k | i <= k < j :: log[k].time <= q.stopTime.value)
    && (q.count > 0 ==> j - i <= q.count)
    && (
      || j == |log|
      || (q.stopTime.Some? && q.stopTime.value < log[j].time)
      || (q.count > 0 && j - i == q.count))
  }

  // A query selects one contiguous run of the log, from where the answer begins
  // to where it ends, and there is only one such run.
  lemma SelectedExactly(log: seq<LogEntry>, q: Query) returns (i: nat, j: nat)
    ensures i <= j <= |log| && Begins(log, q, i) && Ends(log, q, i, j)
    ensures Selected(log, q) == log[i..j]
    ensures forall a: nat, b: nat | a <= b <= |log| && Begins(log, q, a) && Ends(log, q, a, b) :: a == i && b == j
  {
    i := Start(log, q);
    j := i + |Selected(log, q)|;
    StartBegins(log, q);
    StopEnds(log, q, i);
    forall a: nat, b: nat | a <= b <= |log| && Begins(log, q, a) && Ends(log, q, a, b)
      ensures a == i && b == j
    {
      BeginsOnce(log, q, a, i);
      EndsOnce(log, q, i, b, j);
    }
  }

  lemma StartBegins(log: seq<LogEntry>, q: Query)
    ensures Begins(log, q, Start(log, q))
  {
    hide IdIndex, FirstAfter;
  }

  lemma StopEnds(log: seq<LogEntry>, q: Query, i: nat)
    requires i == Start(log, q)
    ensures
      var j := i + |Selected(log, q)|;
      j <= |log| && Ends(log, q, i, j) && Selected(log, q) == log[i..j]
  {
    hide Start, FirstAfter;
    var rest := log[i..];
    var j := i + |Selected(log, q)|;
    assert forall k | i <= k < |log| :: log[k] == rest[k - i];
  }

  lemma BeginsOnce(log: seq<LogEntry>, q: Query, a: nat, b: nat)
    requires a <= |log| && b <= |log| && Begins(log, q, a) && Begins(log, q, b)
    ensures a == b
  {
    if a < b {
      BeginsFirst(log, q, a, b);
    } else if b < a {
      BeginsFirst(log, q, b, a);
    }
  }

  lemma BeginsFirst(log: seq<LogEntry>, q: Query, a: nat, b: nat)
    requires a < b <= |log| && Begins(log, q, a)
    ensures !Begins(log, q, b)
  {}

  lemma EndsOnce(log: seq<LogEntry>, q: Query, i: nat, a: nat, b: nat)
    requires i <= a <= |log| && i <= b <= |log| && Ends(log, q, i, a) && Ends(log, q, i, b)
    ensures a == b
  {}

  ghost predicate Chronological(log: seq<LogEntry>)
  {
    forall i, j | 0 <= i < j < |log| :: log[i].time <= log[j].time
  }

  // The query asks for a span of time and not for an entry the log holds.
  ghost predicate AsksForSpan(log: seq<LogEntry>, q: Query)
  {
    && (q.afterEntry.Some? ==> forall e | e in log :: e.id != q.afterEntry.value)
    && (q.afterEntry.None? ==> q.startEntry.None?)
  }

  predicate InSpan(q: Query, time: int)
  {
    && (q.afterEntry.Some? && q.afterTime.Some? ==> q.afterTime.value < time)
    && (q.afterEntry.None? && q.startTime.Some? ==> q.startTime.value <= time)
    && (q.stopTime.Some? ==> time <= q.stopTime.value)
  }

  // Of a log in the order of time, a span of time selects exactly the entries
  // whose time lies in it.
  lemma SpanSelected(log: seq<LogEntry>, q: Query, e: LogEntry)
    requires Chronological(log) && AsksForSpan(log, q) && q.count <= 0
    ensures e in Selected(log, q) <==> e in log && InSpan(q, e.time)
  {
    var i, j := SelectedExactly(log, q);
    hide Selected;
    if e in log {
      var k :| 0 <= k < |log| && log[k] == e;
      SpanIndex(log, q, i, j, k);
    }
    if e in log[i..j] {
      var k :| 0 <= k < j - i && log[i..j][k] == e;
      SpanIndex(log, q, i, j, i + k);
    }
  }

  lemma SpanIndex(log: seq<LogEntry>, q: Query, i: nat, j: nat, k: nat)
    requires Chronological(log) && AsksForSpan(log, q) && q.count <= 0
    requires i <= j <= |log| && Begins(log, q, i) && Ends(log, q, i, j) && k < |log|
    ensures i <= k < j <==> InSpan(q, log[k].time)
    ensures i <= k < j ==> log[k] in log[i..j]
  {
    if i <= k < j {
      assert log[i..j][k - i] == log[k];
      assert log[i].time <= log[k].time;
    }
  }

  // A count keeps the first so many of what the query selects without it.
  lemma CountKeepsFirst(log: seq<LogEntry>, q: Query)
    requires q.count > 0
    ensures
      var all := Selected(log, q.(count := 0));
      Selected(log, q) == if q.count < |all| then all[..q.count] else all
  {
    hide Start, Stop;
    assert Start(log, q.(count := 0)) == Start(log, q) by { StartIgnoresCount(log, q); }
  }

  lemma StartIgnoresCount(log: seq<LogEntry>, q: Query)
    ensures Start(log, q.(count := 0)) == Start(log, q)
  {
    hide IdIndex, FirstAfter;
  }

  function Continue(e: LogEntry, stop: Option<int>): Query
  {
    Query(None, None, stop, 0, Some(e.time), Some(e.id))
  }

  ghost predicate Identified(log: seq<LogEntry>)
  {
    && (forall i | 0 <= i < |log| :: log[i].id != [])
    && (forall i, j | 0 <= i < j < |log| :: log[i].id != log[j].id)
  }

  // The count of the query cuts the answer short.
  predicate Counted(log: seq<LogEntry>, q: Query)
  {
    0 < q.count < Stop(log[Start(log, q)..], q.stopTime)
  }

  // Continuing after an entry of an answer selects exactly the rest of it, unless
  // a count cut the answer short, which a continuation does not carry on.
  lemma ContinuesSelection(log: seq<LogEntry>, q: Query, i: nat)
    requires Identified(log) && i < |Selected(log, q)|
    ensures
      Selected(log, Continue(Selected(log, q)[i], q.stopTime)) == Selected(log, q)[i + 1..] <==> !Counted(log, q)
  {
    hide IdIndex, FirstAfter;
    var s := Start(log, q);
    var e := Selected(log, q)[i];
    assert e == log[s + i];
    assert IdIndex(log, e.id) == s + i;
    var rest, after := log[s..], log[s + i + 1..];
    assert after == rest[i + 1..];
    assert Stop(after, q.stopTime) == Stop(rest, q.stopTime) - (i + 1);
    assert |Selected(log, Continue(e, q.stopTime))| == Stop(after, q.stopTime);
  }

  function EntryItems(entries: seq<LogEntry>): (items: seq<Item>)
    ensures |items| == |entries|
    ensures forall i | 0 <= i < |entries| :: items[i] == Item(entries[i].id, entries[i].element)
  {
    seq(|entries|, i requires 0 <= i < |entries| => Item(entries[i].id, entries[i].element))
  }

  ghost predicate JournalServed(serve: Server, log: seq<LogEntry>, q: Query, maxPDU: nat, invoke: nat -> uint32)
  {
    && serve(0, []) == Serve(READ_JOURNAL, EntryItems(Selected(log, q)), maxPDU, invoke(0))
    && forall k: nat, i | 0 <= i < |log| ::
         serve(k, log[i].id) ==
         Serve(READ_JOURNAL, EntryItems(Selected(log, Continue(log[i], q.stopTime))), maxPDU, invoke(k))
  }

  // readJournalAll against readJournal returns exactly what the first query
  // selects.
  lemma JournalComplete(serve: Server, log: seq<LogEntry>, q: Query, maxPDU: nat, invoke: nat -> uint32)
    requires JournalServed(serve, log, q, maxPDU, invoke) && !Counted(log, q)
    requires Room(READ_JOURNAL, EntryItems(Selected(log, q)), maxPDU, invoke)
    requires Identified(log) && |Selected(log, q)| <= 0x10_0000
    ensures Follow(Journal, serve, 0, [], []) == Complete(EntryItems(Selected(log, q)))
  {
    hide Room, Serve, Follow, Start, Stop;
    var entries := Selected(log, q);
    var full := EntryItems(entries);
    forall k: nat, i | 0 <= i < |full|
      ensures serve(k, full[i].key) == Serve(READ_JOURNAL, full[i + 1..], maxPDU, invoke(k))
    {
      assert entries[i] == log[Start(log, q) + i];
      ContinuesSelection(log, q, i);
      assert EntryItems(entries[i + 1..]) == full[i + 1..];
    }
    SelectionIdentified(log, q);
    ListingComplete(Journal, serve, READ_JOURNAL, full, maxPDU, invoke);
  }

  lemma SelectionIdentified(log: seq<LogEntry>, q: Query)
    requires Identified(log)
    ensures Keyed(EntryItems(Selected(log, q)))
  {
    hide Start, Stop;
    var entries := Selected(log, q);
    forall i | 0 <= i < |entries|
      ensures entries[i] == log[Start(log, q) + i]
    {}
  }
}
