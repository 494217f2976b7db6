// The cursor decoder of asn1/decoder.go and asn1/span.go.
//
// The parse functions below read from the front of the octets that remain
// and say how many they used; the class keeps the cursor.

module BerDecoder {
  import opened Octets
  import opened Ber

  // The nesting limit of the end-of-contents scan.
  const MAX_DEPTH := 64

  // A value and the octets it took, or an error and how far the cursor got.
  datatype Read<+T> = Got(value: T, used: nat) | Failed(error: Error, used: nat)

  datatype Length = Definite(n: nat) | Indefinite

  // Where an element's content lies, counted from the element's first octet.
  datatype TLV = TLV(tag: Tag, start: nat, end: nat)

  function ParseTagTail(s: Bytes, i: nat): (r: Read<uint32>)
    requires i <= |s|
    ensures i <= r.used <= |s|
    ensures r.Got? ==> i < r.used <= 5
    decreases |s| - i
  {
    if i >= |s| then Failed(Truncated, i)
    else if i >= 5 || LowVal(s[..i]) > 0x1ff_ffff then Failed(BadTag, i)
    else
      assert s[..i + 1][..i] == s[..i];
      if s[i] >= 0x80 then ParseTagTail(s, i + 1)
      else Got(LowVal(s[..i + 1]), i + 1)
  }

  function ParseTag(s: Bytes): (r: Read<Tag>)
    ensures r.used <= |s|
    ensures r.Got? ==> 0 < r.used
  {
    if s == [] then Failed(Truncated, 0)
    else
      var t := Tag(s[0] / 64, s[0] / 32 % 2 == 1, s[0] % 32);
      if t.number != 31 then Got(t, 1)
      else
        match ParseTagTail(s[1..], 0)
        case Got(n, u) => Got(t.(number := n), 1 + u)
        case Failed(e, u) => Failed(e, 1 + u)
  }

  function ParseLength(s: Bytes): (r: Read<Length>)
    ensures r.used <= |s|
    ensures r.Got? ==> 0 < r.used
  {
    if s == [] then Failed(Truncated, 0)
    else if s[0] < 0x80 then Got(Definite(s[0]), 1)
    else if s[0] == 0x80 then Got(Indefinite, 1)
    else
      var k := s[0] - 0x80;
      if k > 4 then Failed(LengthOverflow, 1)
      else if 1 + k > |s| then Failed(Truncated, 1)
      else Got(Definite(BE(s[1..1 + k])), 1 + k)
  }

  // Identifier and length octets together.
  function ParseHeader(s: Bytes): (r: Read<(Tag, Length)>)
    ensures r.used <= |s|
    ensures r.Got? ==> 2 <= r.used
  {
    match ParseTag(s)
    case Failed(e, u) => Failed(e, u)
    case Got(t, u) =>
      match ParseLength(s[u..])
      case Failed(e, v) => Failed(e, u + v)
      case Got(n, v) => Got((t, n), u + v)
  }

  predicate AtEOC(s: Bytes)
  {
    |s| >= 2 && s[0] == 0 && s[1] == 0
  }

  function ParseTLV(s: Bytes, depth: nat): (r: Read<TLV>)
    ensures r.used <= |s|
    ensures r.Got? ==> 2 <= r.value.start <= r.value.end <= r.used
    decreases |s|, 0
  {
    if depth > MAX_DEPTH then Failed(TooDeep, 0)
    else
      match ParseHeader(s)
      case Failed(e, h) => Failed(e, h)
      case Got((t, Definite(n)), h) =>
        if n > |s| - h then Failed(Truncated, h) else Got(TLV(t, h, h + n), h + n)
      case Got((t, Indefinite), h) =>
        if !t.constructed then Failed(BadLength, h)
        else
          match ParseContents(s[h..], depth)
          case Failed(e, u) => Failed(e, h + u)
          case Got(n, u) => Got(TLV(t, h, h + n), h + u)
  }

  // The elements up to the matching end-of-contents octets: how many octets
  // they take, the end-of-contents octets being used but not counted.
  function ParseContents(s: Bytes, depth: nat): (r: Read<nat>)
    ensures r.used <= |s|
    ensures r.Got? ==> r.used == r.value + 2
    decreases |s|, 1
  {
    if AtEOC(s) then Got(0, 2)
    else
      match ParseTLV(s, depth + 1)
      case Failed(e, u) => Failed(e, u)
      case Got(_, u) =>
        match ParseContents(s[u..], depth)
        case Failed(e, v) => Failed(e, u + v)
        case Got(n, v) => Got(u + n, u + v)
  }

  // An element as ReadTLV hands it out, with what is left after it.
  datatype Next = Next(tag: Tag, content: Bytes, rest: Bytes) | NoNext(error: Error)

  function ReadNext(s: Bytes): (r: Next)
    ensures r.Next? ==> |r.content| + |r.rest| + 2 <= |s|
  {
    match ParseTLV(s, 0)
    case Got(v, u) => Next(v.tag, s[v.start..v.end], s[u..])
    case Failed(e, _) => NoNext(e)
  }

  // The outcome of reading an element on a path that checks its tag.
  datatype Field = Field(content: Bytes, rest: Bytes) | NoField(error: Error)

  function ExpectTag(s: Bytes, t: Tag): (r: Field)
    ensures r.Field? ==> |r.content| + |r.rest| + 2 <= |s|
  {
    match ReadNext(s)
    case NoNext(e) => NoField(e)
    case Next(got, c, rest) => if got == t then Field(c, rest) else NoField(Unexpected)
  }

  datatype Maybe = Present(content: Bytes, rest: Bytes) | Absent | NoMaybe(error: Error)

  function OptionalTag(s: Bytes, t: Tag): (r: Maybe)
    ensures r.Present? ==> |r.content| + |r.rest| + 2 <= |s|
  {
    if s == [] then Absent
    else
      match ParseTag(s)
      case Failed(e, _) => NoMaybe(e)
      case Got(got, _) =>
        if got != t then Absent
        else
          match ReadNext(s)
          case NoNext(e) => NoMaybe(e)
          case Next(_, c, rest) => Present(c, rest)
  }

  // One element with its raw octets (asn1/span.go).
  datatype Span = Span(tag: Tag, full: Bytes, content: Bytes, contentEOC: Bytes, indefinite: bool)

  // The span the octets of a successfully parsed element have.
  function SpanOf(s: Bytes, v: TLV, used: nat): (p: Span)
    requires v.start <= v.end <= used <= |s|
  {
    Span(v.tag, s[..used], s[v.start..v.end], s[v.start..used], v.end != used)
  }

  class Decoder {
    const data: Bytes
    var off: nat

    ghost predicate Valid()
      reads this
    {
      off <= |data|
    }

    function Rest(): Bytes
      requires Valid()
      reads this
    {
      data[off..]
    }

    constructor (data: Bytes)
      ensures Valid() && this.data == data && off == 0 && Rest() == data
    {
      this.data := data;
      off := 0;
    }

    method More() returns (more: bool)
      requires Valid()
      ensures more <==> Rest() != []
    {
      more := off < |data|;
    }

    // The cursor moved over what the parse used, whether or not it succeeded.
    twostate predicate Advanced(n: nat)
      reads this
    {
      off == old(off) + n && off <= |data|
    }

    method ReadTag() returns (r: Read<Tag>)
      requires Valid()
      modifies this
      ensures Valid() && r == ParseTag(old(Rest())) && Advanced(r.used)
    {
      ghost var s := Rest();
      if off >= |data| {
        return Failed(Truncated, 0);
      }
      var b := data[off];
      off := off + 1;
      var t := Tag(b / 64, b / 32 % 2 == 1, b % 32);
      if t.number != 31 {
        return Got(t, 1);
      }
      var number: nat := 0;
      var i := 0;
      ghost var tail := s[1..];
      assert tail == data[off..];
      while true
        invariant 0 <= i <= |tail| && off == old(off) + 1 + i <= |data|
        invariant tail == data[old(off) + 1..]
        invariant number == LowVal(tail[..i])
        invariant ParseTagTail(tail, 0) == ParseTagTail(tail, i)
        decreases |tail| - i
      {
        if off >= |data| {
          return Failed(Truncated, 1 + i);
        }
        if i >= 5 || number > 0x1ff_ffff {
          return Failed(BadTag, 1 + i);
        }
        var c := data[off];
        assert c == tail[i] && tail[..i + 1][..i] == tail[..i];
        off := off + 1;
        number := number * 128 + c % 128;
        i := i + 1;
        if c < 0x80 {
          return Got(t.(number := number), 1 + i);
        }
      }
    }

    method ReadLength() returns (r: Read<Length>)
      requires Valid()
      modifies this
      ensures Valid() && r == ParseLength(old(Rest())) && Advanced(r.used)
    {
      ghost var s := Rest();
      if off >= |data| {
        return Failed(Truncated, 0);
      }
      var b := data[off];
      off := off + 1;
      if b < 0x80 {
        return Got(Definite(b), 1);
      }
      if b == 0x80 {
        return Got(Indefinite, 1);
      }
      var numOctets := b - 0x80;
      if numOctets > 4 {
        return Failed(LengthOverflow, 1);
      }
      if off + numOctets > |data| {
        return Failed(Truncated, 1);
      }
      var n: nat := 0;
      var i := 0;
      while i < numOctets
        invariant 0 <= i <= numOctets && off == old(off) + 1 + i
        invariant n == BE(s[1..1 + i])
      {
        assert s[1..1 + i + 1][..i] == s[1..1 + i];
        n := n * 256 + data[off];
        off := off + 1;
        i := i + 1;
      }
      return Got(Definite(n), 1 + numOctets);
    }

    method ReadHeader() returns (r: Read<(Tag, Length)>)
      requires Valid()
      modifies this
      ensures Valid() && r == ParseHeader(old(Rest())) && Advanced(r.used)
    {
      ghost var s := Rest();
      var tr := ReadTag();
      if tr.Failed? {
        return Failed(tr.error, tr.used);
      }
      assert Rest() == s[tr.used..];
      var lr := ReadLength();
      r := if lr.Failed? then Failed(lr.error, tr.used + lr.used)
           else Got((tr.value, lr.value), tr.used + lr.used);
    }

    method ReadTLVAt(depth: nat) returns (r: Read<TLV>)
      requires Valid()
      modifies this
      ensures Valid() && r == ParseTLV(old(Rest()), depth) && Advanced(r.used)
      decreases |data| - off, 0
    {
      hide ParseHeader, ParseContents;
      ghost var s := Rest();
      if depth > MAX_DEPTH {
        return Failed(TooDeep, 0);
      }
      var hr := ReadHeader();
      var h := hr.used;
      if hr.Failed? {
        return Failed(hr.error, h);
      }
      var (t, len) := hr.value;
      if len.Definite? {
        if len.n > |data| - off {
          return Failed(Truncated, h);
        }
        off := off + len.n;
        return Got(TLV(t, h, h + len.n), h + len.n);
      }
      if !t.constructed {
        return Failed(BadLength, h);
      }
      assert Rest() == s[h..];
      var cr := ReadContents(depth);
      r := if cr.Failed? then Failed(cr.error, h + cr.used) else Got(TLV(t, h, h + cr.value), h + cr.used);
    }

    // The scan for the end-of-contents octets.
    method ReadContents(depth: nat) returns (r: Read<nat>)
      requires Valid()
      modifies this
      ensures Valid() && r == ParseContents(old(Rest()), depth) && Advanced(r.used)
      decreases |data| - off, 2
    {
      hide ParseTLV, ParseContents;
      ghost var s := Rest();
      var start := off;
      assert s[0..] == s;
      r := Got(0, 0);
      var done := false;
      while !done
        invariant off == start + r.used <= |data|
        invariant
          if done then r == ParseContents(s, depth)
          else r.used <= |s| && Rest() == s[r.used..] && Scanned(s, r.used, depth)
        decreases !done, |data| - off
      {
        r, done := ReadMember(depth, r.used, s);
      }
    }

    // One turn of the scan, k octets into the contents s.
    method ReadMember(depth: nat, k: nat, ghost s: Bytes) returns (r: Read<nat>, done: bool)
      requires Valid() && k <= |s| && Rest() == s[k..] && Scanned(s, k, depth)
      modifies this
      ensures Valid() && k <= r.used && Advanced(r.used - k)
      ensures done ==> r == ParseContents(s, depth)
      ensures !done ==> k + 2 <= r.used <= |s| && Rest() == s[r.used..] && Scanned(s, r.used, depth)
      decreases |data| - off, 1
    {
      hide ParseTLV, ParseContents;
      if off + 2 <= |data| && data[off] == 0 && data[off + 1] == 0 {
        ScanEnds(s, k, depth);
        off := off + 2;
        return Got(k, k + 2), true;
      }
      ScanStep(s, k, depth);
      var child := ReadTLVAt(depth + 1);
      if child.Failed? {
        return Failed(child.error, k + child.used), true;
      }
      return Got(k + child.used, k + child.used), false;
    }

    method ReadTLV() returns (r: Next)
      requires Valid()
      modifies this
      ensures Valid() && r == ReadNext(old(Rest()))
      ensures r.Next? ==> Rest() == r.rest
    {
      hide ParseTLV;
      ghost var s := Rest();
      var start := off;
      var p := ReadTLVAt(0);
      if p.Failed? {
        return NoNext(p.error);
      }
      SliceOfRest(data, start, p.value.start, p.value.end);
      r := Next(p.value.tag, data[start + p.value.start..start + p.value.end], data[off..]);
    }

    method Expect(t: Tag) returns (r: Field)
      requires Valid()
      modifies this
      ensures Valid() && r == ExpectTag(old(Rest()), t)
      ensures r.Field? ==> Rest() == r.rest
    {
      hide ReadNext;
      var e := ReadTLV();
      if e.NoNext? {
        return NoField(e.error);
      }
      r := if e.tag == t then Field(e.content, e.rest) else NoField(Unexpected);
    }

    // The tag of the next element, the cursor staying where it is.
    method Peek() returns (r: Read<Tag>)
      requires Valid()
      modifies this
      ensures Valid() && off == old(off) && r == ParseTag(Rest())
    {
      hide ParseTag;
      var save := off;
      r := ReadTag();
      off := save;
    }

    method Optional(t: Tag) returns (r: Maybe)
      requires Valid()
      modifies this
      ensures Valid() && r == OptionalTag(old(Rest()), t)
      ensures r.Present? ==> Rest() == r.rest
      ensures r.Absent? ==> off == old(off)
    {
      hide ParseTag, ReadNext;
      if off >= |data| {
        return Absent;
      }
      var got := Peek();
      if got.Failed? {
        return NoMaybe(got.error);
      }
      if got.value != t {
        return Absent;
      }
      var e := ReadTLV();
      r := if e.NoNext? then NoMaybe(e.error) else Present(e.content, e.rest);
    }

    // The next element with its octets; an indefinite one is rewound and
    // scanned.
    method ReadSpan() returns (r: Read<Span>)
      requires Valid()
      modifies this
      ensures Valid() && Advanced(r.used)
      ensures
        match ParseTLV(old(Rest()), 0)
        case Got(v, u) => r == Got(SpanOf(old(Rest()), v, u), u)
        case Failed(e, u) => r == Failed(e, u)
    {
      hide ParseHeader, ParseContents;
      ghost var s := Rest();
      var start := off;
      var hr := ReadHeader();
      if hr.Failed? {
        return Failed(hr.error, hr.used);
      }
      var (t, len) := hr.value;
      var hdrEnd := off;
      if len.Definite? {
        if len.n > |data| - off {
          return Failed(Truncated, hr.used);
        }
        off := off + len.n;
        var c := data[hdrEnd..off];
        assert data[start..off] == s[..off - start] && c == s[hr.used..off - start];
        return Got(Span(t, data[start..off], c, c, false), off - start);
      }
      off := start;
      r := RescanSpan(t, hdrEnd, s, hr.used);
    }

    // The scan from the start, the header being read once more.
    method RescanSpan(t: Tag, hdrEnd: nat, ghost s: Bytes, ghost h: nat) returns (r: Read<Span>)
      requires Valid() && s == Rest() && h <= |s| && hdrEnd == off + h
      requires ParseHeader(s) == Got((t, Indefinite), h)
      modifies this
      ensures Valid() && Advanced(r.used)
      ensures
        match ParseTLV(s, 0)
        case Got(v, u) => r == Got(SpanOf(s, v, u), u)
        case Failed(e, u) => r == Failed(e, u)
    {
      hide ParseHeader, ParseContents;
      var start := off;
      var p := ReadTLVAt(0);
      if p.Failed? {
        return Failed(p.error, p.used);
      }
      assert data[start..off] == s[..p.used] && data[hdrEnd..off] == s[h..p.used];
      var content := data[start + p.value.start..start + p.value.end];
      assert content == s[p.value.start..p.value.end];
      r := Got(Span(t, data[start..off], content, data[hdrEnd..off], true), p.used);
    }
  }

  lemma SliceOfRest(d: Bytes, k: nat, a: nat, b: nat)
    requires k <= |d| && a <= b <= |d| - k
    ensures d[k..][a..b] == d[k + a..k + b]
  {}

  // A scan seen from k octets before it started.
  function Ahead(r: Read<nat>, k: nat): Read<nat>
  {
    match r
    case Failed(e, v) => Failed(e, k + v)
    case Got(n, v) => Got(k + n, k + v)
  }

  // The first k octets of s are whole elements of the contents.
  ghost predicate Scanned(s: Bytes, k: nat, depth: nat)
  {
    k <= |s| && ParseContents(s, depth) == Ahead(ParseContents(s[k..], depth), k)
  }

  lemma ScanEnds(s: Bytes, k: nat, depth: nat)
    requires Scanned(s, k, depth) && AtEOC(s[k..])
    ensures ParseContents(s, depth) == Got(k, k + 2)
  {}

  lemma ScanStep(s: Bytes, k: nat, depth: nat)
    requires Scanned(s, k, depth) && !AtEOC(s[k..])
    ensures
      var r := ParseTLV(s[k..], depth + 1);
      if r.Failed? then ParseContents(s, depth) == Failed(r.error, k + r.used) else Scanned(s, k + r.used, depth)
  {
    hide ParseTLV, ParseContents;
    ContentsStep(s[k..], depth);
    var r := ParseTLV(s[k..], depth + 1);
    if r.Got? {
      assert s[k..][r.used..] == s[k + r.used..];
    }
  }

  lemma ContentsStep(s: Bytes, depth: nat)
    requires !AtEOC(s)
    ensures
      var r := ParseTLV(s, depth + 1);
      if r.Failed? then ParseContents(s, depth) == Failed(r.error, r.used)
      else ParseContents(s, depth) == Ahead(ParseContents(s[r.used..], depth), r.used)
  {
    hide ParseTLV;
  }
}
