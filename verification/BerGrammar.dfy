// The encodings of X.690 section 8.1 as a grammar of its own, and the proof
// that the decoder accepts exactly its sentences.
//
// Two liberties of the decoder are part of the grammar: a high tag number may
// carry leading zero digits (at most five digits, 32 bits), and a length may
// use more octets than it needs (at most four).

module BerGrammar {
  import opened Octets
  import opened Ber
  import opened BerDecoder

  // The derivation of one element. The content of a definite element is not
  // looked into; an indefinite one is a run of elements.
  datatype Encoding =
    | DefiniteForm(id: Bytes, len: Bytes, content: Bytes)
    | IndefiniteForm(id: Bytes, parts: seq<Encoding>)

  ghost predicate IsTagTail(s: Bytes, n: nat)
  {
    && 1 <= |s| <= 5
    && (forall k | 0 <= k < |s| - 1 :: s[k] >= 0x80)
    && s[|s| - 1] < 0x80
    && n == LowVal(s) < 0x1_0000_0000
  }

  ghost predicate IsIdentifier(id: Bytes, t: Tag)
  {
    && id != []
    && t.cls == id[0] / 64
    && (t.constructed <==> id[0] / 32 % 2 == 1)
    && if id[0] % 32 != 31 then |id| == 1 && t.number == id[0] % 32 else IsTagTail(id[1..], t.number)
  }

  ghost predicate IsLength(len: Bytes, n: nat)
  {
    && len != []
    && if len[0] < 0x80 then len == [n] else 0x81 <= len[0] <= 0x84 && |len| == len[0] - 0x7f && n == BE(len[1..])
  }

  function OctetsOf(e: Encoding): (s: Bytes)
  {
    match e
    case DefiniteForm(id, len, content) => id + len + content
    case IndefiniteForm(id, parts) => id + [0x80] + OctetsOfAll(parts) + [0, 0]
  }

  function OctetsOfAll(es: seq<Encoding>): (s: Bytes)
  {
    if es == [] then [] else OctetsOf(es[0]) + OctetsOfAll(es[1..])
  }

  function ContentOf(e: Encoding): (s: Bytes)
  {
    match e
    case DefiniteForm(_, _, content) => content
    case IndefiniteForm(_, parts) => OctetsOfAll(parts)
  }

  // e is an element with tag t in which no element has more than n indefinite
  // ones around it.
  ghost predicate Derives(e: Encoding, t: Tag, n: int)
    decreases e, 0
  {
    && n >= 0
    && IsIdentifier(e.id, t)
    && match e
       case DefiniteForm(_, len, content) => IsLength(len, |content|)
       case IndefiniteForm(_, parts) => t.constructed && DerivesAll(parts, n - 1)
  }

  // An element that starts with the end-of-contents octets would end the run.
  ghost predicate DerivesAll(es: seq<Encoding>, n: int)
    decreases es, 0
  {
    es != [] ==>
      && (exists t :: Derives(es[0], t, n))
      && !AtEOC(OctetsOf(es[0]))
      && DerivesAll(es[1..], n)
  }

  // Identifier octets

  lemma {:induction false} TagTailComplete(s: Bytes, t: Bytes, n: nat, i: nat)
    requires IsTagTail(t, n) && t <= s && i < |t|
    ensures ParseTagTail(s, i) == Got(n, |t|)
    decreases |t| - i
  {
    LowValPrefix(t, i);
    assert s[..i] == t[..i];
    if i + 1 < |t| {
      TagTailComplete(s, t, n, i + 1);
    } else {
      assert s[..i + 1] == t;
    }
  }

  // What is read before the last digit leaves room for it.
  lemma {:induction false} LowValPrefix(t: Bytes, i: nat)
    requires i < |t| && LowVal(t) < 0x1_0000_0000
    ensures LowVal(t[..i]) <= 0x1ff_ffff
    decreases |t|
  {
    var p := t[..|t| - 1];
    if i < |t| - 1 {
      LowValPrefix(p, i);
      assert p[..i] == t[..i];
    }
  }

  lemma {:induction false} TagTailSound(s: Bytes, i: nat)
    requires i <= |s| && i <= 5
    requires ParseTagTail(s, i).Got?
    requires forall k | 0 <= k < i :: s[k] >= 0x80
    ensures var r := ParseTagTail(s, i); IsTagTail(s[..r.used], r.value)
    decreases |s| - i
  {
    if s[i] >= 0x80 {
      TagTailSound(s, i + 1);
    }
  }

  lemma TagComplete(s: Bytes, id: Bytes, t: Tag)
    requires IsIdentifier(id, t) && id <= s
    ensures ParseTag(s) == Got(t, |id|)
  {
    if id[0] % 32 == 31 {
      TagTailComplete(s[1..], id[1..], t.number, 0);
    }
  }

  lemma TagSound(s: Bytes)
    requires ParseTag(s).Got?
    ensures IsIdentifier(s[..ParseTag(s).used], ParseTag(s).value)
  {
    if s[0] % 32 == 31 {
      TagTailSound(s[1..], 0);
      var u := ParseTag(s).used;
      assert s[..u][1..] == s[1..][..u - 1];
    }
  }

  // Length octets

  lemma LengthComplete(s: Bytes, len: Bytes, n: nat)
    requires IsLength(len, n) && len <= s
    ensures ParseLength(s) == Got(Definite(n), |len|)
  {
    if len[0] >= 0x80 {
      assert s[1..|len|] == len[1..];
    }
  }

  lemma LengthSound(s: Bytes)
    requires ParseLength(s).Got? && ParseLength(s).value.Definite?
    ensures IsLength(s[..ParseLength(s).used], ParseLength(s).value.n)
  {
    var u := ParseLength(s).used;
    if s[0] >= 0x80 {
      assert s[..u][1..] == s[1..u];
    }
  }

  lemma HeaderComplete(s: Bytes, id: Bytes, t: Tag, len: Bytes, n: nat)
    requires IsIdentifier(id, t) && IsLength(len, n) && id + len <= s
    ensures ParseHeader(s) == Got((t, Definite(n)), |id| + |len|)
  {
    hide ParseTag, ParseLength;
    assert id == (id + len)[..|id|];
    TagComplete(s, id, t);
    assert len == (id + len)[|id|..];
    LengthComplete(s[|id|..], len, n);
  }

  lemma HeaderIndefinite(s: Bytes, id: Bytes, t: Tag)
    requires IsIdentifier(id, t) && id + [0x80] <= s
    ensures ParseHeader(s) == Got((t, Indefinite), |id| + 1)
  {
    hide ParseTag;
    assert id == (id + [0x80])[..|id|];
    TagComplete(s, id, t);
    assert s[|id|..][0] == (id + [0x80])[|id|];
  }

  // Completeness: the decoder reads every sentence of the grammar, and what
  // follows it is left alone.

  lemma {:induction false} Complete(e: Encoding, t: Tag, rest: Bytes, depth: nat)
    requires Derives(e, t, 64 - depth)
    ensures
      var r := ParseTLV(OctetsOf(e) + rest, depth);
      r.Got? && r.used == |OctetsOf(e)| && r.value.tag == t
      && (OctetsOf(e) + rest)[r.value.start..r.value.end] == ContentOf(e)
    decreases e, 1
  {
    hide ParseHeader, ParseTLV, ParseContents;
    var s := OctetsOf(e) + rest;
    match e
    case DefiniteForm(id, len, content) =>
      assert s[..|id| + |len|] == id + len;
      HeaderComplete(s, id, t, len, |content|);
      PrimitiveTLV(s, id, len, content, depth, t);
    case IndefiniteForm(id, parts) =>
      var h := |id| + 1;
      assert s[..h] == id + [0x80];
      HeaderIndefinite(s, id, t);
      var tail := OctetsOfAll(parts) + [0, 0] + rest;
      assert s[h..] == tail;
      CompleteAll(parts, rest, depth);
      ConstructedTLV(s, h, parts, depth, t);
      assert s[h..h + |OctetsOfAll(parts)|] == OctetsOfAll(parts);
  }

  lemma PrimitiveTLV(s: Bytes, id: Bytes, len: Bytes, content: Bytes, depth: nat, t: Tag)
    requires depth <= 64 && id + len + content <= s
    requires ParseHeader(s) == Got((t, Definite(|content|)), |id| + |len|)
    ensures
      var h := |id| + |len|;
      ParseTLV(s, depth) == Got(TLV(t, h, h + |content|), h + |content|) && s[h..h + |content|] == content
  {
    hide ParseHeader;
    assert s[|id| + |len|..|id| + |len| + |content|] == (id + len + content)[|id| + |len|..];
  }

  lemma ConstructedTLV(s: Bytes, h: nat, parts: seq<Encoding>, depth: nat, t: Tag)
    requires depth <= 64 && t.constructed
    requires ParseHeader(s) == Got((t, Indefinite), h) && h <= |s|
    requires var n := |OctetsOfAll(parts)|; ParseContents(s[h..], depth) == Got(n, n + 2)
    ensures var n := |OctetsOfAll(parts)|; ParseTLV(s, depth) == Got(TLV(t, h, h + n), h + n + 2)
  {
    hide ParseHeader, ParseContents;
  }

  lemma {:induction false} CompleteAll(es: seq<Encoding>, rest: Bytes, depth: nat)
    requires DerivesAll(es, 64 - depth - 1)
    ensures
      var n := |OctetsOfAll(es)|;
      ParseContents(OctetsOfAll(es) + [0, 0] + rest, depth) == Got(n, n + 2)
    decreases es, 0
  {
    hide ParseTLV, ParseContents, Derives, OctetsOf;
    var s := OctetsOfAll(es) + [0, 0] + rest;
    if es == [] {
      ContentsEnd(s, depth);
    } else {
      var t :| Derives(es[0], t, 64 - depth - 1);
      var front := OctetsOf(es[0]);
      var tail := OctetsOfAll(es[1..]) + [0, 0] + rest;
      assert s == front + tail;
      Complete(es[0], t, tail, depth + 1);
      CompleteAll(es[1..], rest, depth);
      assert s[|front|..] == tail;
      ContentsMember(s, front, depth);
    }
  }

  lemma ContentsEnd(s: Bytes, depth: nat)
    requires AtEOC(s)
    ensures ParseContents(s, depth) == Got(0, 2)
  {}

  lemma ContentsMember(s: Bytes, front: Bytes, depth: nat)
    requires front <= s && !AtEOC(front)
    requires ParseTLV(s, depth + 1).Got? && ParseTLV(s, depth + 1).used == |front|
    ensures ParseContents(s, depth) == Ahead(ParseContents(s[|front|..], depth), |front|)
  {
    hide ParseTLV;
  }

  // Soundness: whatever the decoder accepts has a derivation, and the content
  // it hands out is the derivation's.

  lemma {:induction false} Sound(s: Bytes, depth: nat) returns (e: Encoding)
    requires ParseTLV(s, depth).Got?
    ensures var r := ParseTLV(s, depth);
      && Derives(e, r.value.tag, 64 - depth)
      && OctetsOf(e) == s[..r.used]
      && ContentOf(e) == s[r.value.start..r.value.end]
    decreases |s|, 0
  {
    hide ParseTLV, ParseContents, ParseHeader, ParseTag, IsIdentifier, IsLength, DerivesAll;
    var r := ParseTLV(s, depth);
    var h := ParseHeader(s).used;
    var t := ParseTag(s).used;
    HeaderOfTLV(s, depth);
    HeaderSound(s);
    if ParseHeader(s).value.1.Definite? {
      DefiniteSound(s, depth);
      e := DefiniteForm(s[..t], s[t..h], s[h..r.used]);
    } else {
      IndefiniteSound(s, depth);
      var parts := SoundAll(s[h..], depth);
      e := IndefiniteForm(s[..t], parts);
      IndefiniteOctets(s, t, r.used, r.value.end - h, OctetsOfAll(parts));
    }
  }

  lemma HeaderSound(s: Bytes)
    requires ParseHeader(s).Got?
    ensures var h := ParseHeader(s); var u := ParseTag(s).used;
      && 1 <= u < h.used
      && IsIdentifier(s[..u], h.value.0)
      && if h.value.1.Definite? then IsLength(s[u..h.used], h.value.1.n) else s[u..h.used] == [0x80]
  {
    hide ParseTag;
    TagSound(s);
    var u := ParseTag(s).used;
    var h := ParseHeader(s).used;
    if ParseLength(s[u..]).value.Definite? {
      LengthSound(s[u..]);
      assert s[u..h] == s[u..][..h - u];
    }
  }

  lemma DefiniteSound(s: Bytes, depth: nat)
    requires ParseTLV(s, depth).Got? && ParseHeader(s).value.1.Definite?
    ensures var r := ParseTLV(s, depth); var h := ParseHeader(s);
      && depth <= 64 && r.value == TLV(h.value.0, h.used, r.used) && r.used == h.used + h.value.1.n
    ensures forall t | 0 <= t <= ParseHeader(s).used ::
      s[..t] + s[t..ParseHeader(s).used] + s[ParseHeader(s).used..ParseTLV(s, depth).used] ==
      s[..ParseTLV(s, depth).used]
  {
    hide ParseHeader;
  }

  lemma IndefiniteSound(s: Bytes, depth: nat)
    requires ParseTLV(s, depth).Got? && ParseHeader(s).value.1.Indefinite?
    ensures var r := ParseTLV(s, depth); var h := ParseHeader(s); var c := ParseContents(s[h.used..], depth);
      && depth <= 64 && h.value.0.constructed && c.Got?
      && r == Got(TLV(h.value.0, h.used, h.used + c.value), h.used + c.used)
  {
    hide ParseHeader, ParseContents;
  }

  lemma IndefiniteOctets(s: Bytes, t: nat, used: nat, n: nat, mid: Bytes)
    requires t + 1 + n + 2 == used <= |s| && s[t] == 0x80
    requires mid == s[t + 1..][..n] && s[t + 1..][n..n + 2] == [0, 0]
    ensures s[..t] + [0x80] + mid + [0, 0] == s[..used] && mid == s[t + 1..t + 1 + n]
  {
    assert s[t + 1 + n..used] == [0, 0];
  }

  lemma {:induction false} SoundAll(s: Bytes, depth: nat) returns (es: seq<Encoding>)
    requires ParseContents(s, depth).Got?
    ensures var n := ParseContents(s, depth).value;
      && DerivesAll(es, 64 - depth - 1)
      && OctetsOfAll(es) == s[..n]
      && s[n..n + 2] == [0, 0]
    decreases |s|, 1
  {
    hide ParseTLV, ParseContents, Derives, DerivesAll, OctetsOf, OctetsOfAll;
    if AtEOC(s) {
      es := [];
      ContentsEnd(s, depth);
      NoParts(64 - depth - 1);
    } else {
      MemberSound(s, depth);
      var u := ParseTLV(s, depth + 1).used;
      var e := Sound(s, depth + 1);
      var more := SoundAll(s[u..], depth);
      es := [e] + more;
      JoinOctets(s, u, ParseContents(s[u..], depth).value, e, more);
      DerivesCons(e, ParseTLV(s, depth + 1).value.tag, more, 64 - depth - 1);
    }
  }

  lemma NoParts(n: int)
    ensures DerivesAll([], n) && OctetsOfAll([]) == []
  {}

  lemma MemberSound(s: Bytes, depth: nat)
    requires !AtEOC(s) && ParseContents(s, depth).Got?
    ensures var r := ParseTLV(s, depth + 1);
      && r.Got? && ParseContents(s[r.used..], depth).Got?
      && ParseContents(s, depth).value == r.used + ParseContents(s[r.used..], depth).value
  {
    hide ParseTLV;
  }

  lemma DerivesCons(e: Encoding, t: Tag, more: seq<Encoding>, n: int)
    requires Derives(e, t, n) && !AtEOC(OctetsOf(e)) && DerivesAll(more, n)
    ensures DerivesAll([e] + more, n)
  {
    hide Derives;
    assert ([e] + more)[1..] == more;
  }

  lemma JoinOctets(s: Bytes, u: nat, n: nat, e: Encoding, more: seq<Encoding>)
    requires 2 <= u && u + n + 2 <= |s|
    requires OctetsOf(e) == s[..u] && OctetsOfAll(more) == s[u..][..n] && s[u..][n..n + 2] == [0, 0]
    requires !AtEOC(s)
    ensures OctetsOfAll([e] + more) == s[..u + n] && s[u + n..u + n + 2] == [0, 0] && !AtEOC(OctetsOf(e))
  {
    hide OctetsOf;
    assert ([e] + more)[1..] == more;
    SlicesJoin(s, u, n);
    assert s[..u][0] == s[0] && s[..u][1] == s[1];
  }

  lemma SlicesJoin(s: Bytes, u: nat, n: nat)
    requires u + n + 2 <= |s|
    ensures s[..u] + s[u..][..n] == s[..u + n]
    ensures s[u + n..u + n + 2] == s[u..][n..n + 2]
  {
    var a, b := s[u + n..u + n + 2], s[u..][n..n + 2];
    assert |a| == |b| == 2 && a[0] == b[0] && a[1] == b[1];
  }

  // An element the grammar allows inside depth indefinite ones is in front of s.
  ghost predicate InFront(s: Bytes, e: Encoding, t: Tag, depth: nat)
  {
    Derives(e, t, 64 - depth) && OctetsOf(e) <= s
  }

  // The decoder accepts s exactly when some element of the grammar is in front
  // of it, and then reports that element's tag, content and extent.
  lemma AcceptsExactlyTheGrammar(s: Bytes, depth: nat)
    ensures ParseTLV(s, depth).Got? <==> exists e, t :: InFront(s, e, t, depth)
    ensures forall e, t | InFront(s, e, t, depth) ::
      var r := ParseTLV(s, depth);
      && r.Got? && r.used == |OctetsOf(e)| && r.value.tag == t && s[r.value.start..r.value.end] == ContentOf(e)
  {
    hide ParseTLV;
    if ParseTLV(s, depth).Got? {
      var e := Sound(s, depth);
      assert InFront(s, e, ParseTLV(s, depth).value.tag, depth);
    }
    forall e, t | InFront(s, e, t, depth)
      ensures
        var r := ParseTLV(s, depth);
        && r.Got? && r.used == |OctetsOf(e)| && r.value.tag == t && s[r.value.start..r.value.end] == ContentOf(e)
    {
      var rest := s[|OctetsOf(e)|..];
      assert s == OctetsOf(e) + rest;
      Complete(e, t, rest, depth);
    }
  }

  // The octets of a span are the header and the content octets with, after an
  // indefinite element and only there, its end-of-contents octets.
  lemma SpanParts(s: Bytes)
    requires ParseTLV(s, 0).Got?
    ensures
      var r := ParseTLV(s, 0); var p := SpanOf(s, r.value, r.used);
      && p.full == s[..r.value.start] + p.contentEOC
      && p.contentEOC == p.content + (if p.indefinite then [0, 0] else [])
      && (p.indefinite <==> ParseHeader(s).value.1.Indefinite?)
      && ParseHeader(s).Got? && r.value.start == ParseHeader(s).used
  {
    hide ParseTLV, ParseContents, ParseHeader, DerivesAll, OctetsOfAll;
    var r := ParseTLV(s, 0);
    HeaderOfTLV(s, 0);
    var h := ParseHeader(s).used;
    if ParseHeader(s).value.1.Definite? {
      DefiniteSound(s, 0);
    } else {
      IndefiniteSound(s, 0);
      var parts := SoundAll(s[h..], 0);
      var n := r.value.end - h;
      assert s[r.value.end..r.used] == s[h..][n..n + 2];
      assert s[h..r.used] == s[h..r.value.end] + s[r.value.end..r.used];
    }
  }

  lemma HeaderOfTLV(s: Bytes, depth: nat)
    requires ParseTLV(s, depth).Got?
    ensures ParseHeader(s).Got?
  {
    hide ParseHeader;
  }

  // The grammar is unambiguous, and no element is the beginning of another.
  lemma Unambiguous(e1: Encoding, t1: Tag, rest1: Bytes, e2: Encoding, t2: Tag, rest2: Bytes)
    requires Derives(e1, t1, 64) && Derives(e2, t2, 64)
    requires OctetsOf(e1) + rest1 == OctetsOf(e2) + rest2
    ensures OctetsOf(e1) == OctetsOf(e2) && t1 == t2 && ContentOf(e1) == ContentOf(e2) && rest1 == rest2
  {
    hide ParseTLV;
    Complete(e1, t1, rest1, 0);
    Complete(e2, t2, rest2, 0);
    var s := OctetsOf(e1) + rest1;
    assert s[..|OctetsOf(e1)|] == OctetsOf(e1) && s[..|OctetsOf(e2)|] == OctetsOf(e2);
    assert s[|OctetsOf(e1)|..] == rest1 && s[|OctetsOf(e2)|..] == rest2;
  }
}
