// The object model (model/nodes.go, model/fc.go): logical nodes, data objects
// and data attributes, and the mnemonics of functional constraints. Texts are
// octets; letters and blanks are those of ASCII.

module DataModel {
  import opened Options
  import opened Octets
  import opened MmsData

  // Constraints are numbered; those in use are the known ones and the unknown.
  type FC = n: int | 0 <= n < 0x100

  const FC_NONE: FC := 0
  const FC_UNKNOWN: FC := 0xfe

  // ST MX CO SP SG SE SV CF DC EX OR BL RP BR LG GO GS MS US, then the
  // wildcard and SR, after the place of no constraint at all.
  const MNEMONICS: seq<int> := [
    0, 0x5354, 0x4d58, 0x434f, 0x5350, 0x5347, 0x5345, 0x5356, 0x4346, 0x4443, 0x4558,
    0x4f52, 0x424c, 0x5250, 0x4252, 0x4c47, 0x474f, 0x4753, 0x4d53, 0x5553, 0x2a, 0x5352]

  predicate Known(fc: FC) { fc < |MNEMONICS| }

  // The octets of a mnemonic, none for 0.
  function Letters(code: int): Bytes
  {
    if code == 0 then [] else if code < 0x100 then [code % 0x100] else [code / 0x100 % 0x100, code % 0x100]
  }

  // The mnemonics as IEC 61850-7-2 spells them.
  const SPELLINGS: seq<string> := [
    "", "ST", "MX", "CO", "SP", "SG", "SE", "SV", "CF", "DC", "EX",
    "OR", "BL", "RP", "BR", "LG", "GO", "GS", "MS", "US", "*", "SR"]

  lemma MnemonicsSpelled(fc: FC)
    requires Known(fc)
    ensures |SPELLINGS| == |MNEMONICS| && |Letters(MNEMONICS[fc])| == |SPELLINGS[fc]|
    ensures forall i | 0 <= i < |SPELLINGS[fc]| :: Letters(MNEMONICS[fc])[i] == SPELLINGS[fc][i] as int
  {}

  function Upper(b: byte): byte { if 0x61 <= b <= 0x7a then b - 0x20 else b }

  predicate Blank(b: byte) { b == 0x20 || 0x09 <= b <= 0x0d }

  function Uppers(s: Bytes): (u: Bytes)
    ensures |u| == |s| && forall i | 0 <= i < |s| :: u[i] == Upper(s[i])
  {
    seq(|s|, i requires 0 <= i < |s| => Upper(s[i]))
  }

  function TrimLeft(s: Bytes): (t: Bytes)
    ensures t == [] || !Blank(t[0])
    ensures |t| <= |s| && t == s[|s| - |t|..]
  {
    if s == [] || !Blank(s[0]) then s else TrimLeft(s[1..])
  }

  function TrimRight(s: Bytes): (t: Bytes)
    ensures t == [] || !Blank(t[|t| - 1])
    ensures |t| <= |s| && t == s[..|t|]
  {
    if s == [] || !Blank(s[|s| - 1]) then s else TrimRight(s[..|s| - 1])
  }

  function Canonical(s: Bytes): Bytes { Uppers(TrimRight(TrimLeft(s))) }

  // The constraint a mnemonic names, unknown for one the library has not.
  function FindFC(u: Bytes, fc: nat): (found: FC)
    requires 1 <= fc <= |MNEMONICS|
    ensures found != FC_NONE
    decreases |MNEMONICS| - fc
  {
    if fc == |MNEMONICS| then FC_UNKNOWN
    else if Letters(MNEMONICS[fc]) == u then fc
    else FindFC(u, fc + 1)
  }

  function ParseFC(s: Bytes): FC
  {
    var u := Canonical(s);
    if u == [] then FC_NONE else FindFC(u, 1)
  }

  method ReadFC(s: Bytes) returns (fc: FC)
    ensures fc == ParseFC(s)
  {
    var u := Canonical(s);
    if u == [] {
      return FC_NONE;
    }
    for i := 1 to |MNEMONICS|
      invariant FindFC(u, 1) == FindFC(u, i)
    {
      if Letters(MNEMONICS[i]) == u {
        return i;
      }
    }
    fc := FC_UNKNOWN;
  }

  const QUERY: Bytes := [0x3f, 0x3f]

  // How a constraint is written in an item identifier: its mnemonic, or the
  // document's own for one the library does not know.
  function FCText(fc: FC, raw: Bytes): Bytes
  {
    if Known(fc) then Letters(MNEMONICS[fc])
    else if Canonical(raw) != [] then Canonical(raw)
    else QUERY
  }

  // A constraint the library knows, or one kept as the document has it.
  ghost predicate Constrained(fc: FC, raw: Bytes)
  {
    Known(fc) || (fc == FC_UNKNOWN && ParseFC(raw) in {FC_UNKNOWN, FC_NONE})
  }

  lemma LettersDiffer(a: nat, b: nat)
    requires a < b < |MNEMONICS|
    ensures MNEMONICS[a] != MNEMONICS[b]
  {}

  lemma LettersInjective(a: int, b: int)
    requires 0 <= a < 0x1_0000 && 0 <= b < 0x1_0000 && Letters(a) == Letters(b)
    ensures a == b
  {
    if a >= 0x100 && b >= 0x100 {
      assert Letters(a)[0] == Letters(b)[0] && Letters(a)[1] == Letters(b)[1];
    } else if 0 < a < 0x100 && 0 < b < 0x100 {
      assert Letters(a)[0] == Letters(b)[0];
    } else {
      assert |Letters(a)| == |Letters(b)|;
    }
  }

  lemma {:induction false} FindsKnown(fc: FC, start: nat)
    requires 1 <= start <= fc < |MNEMONICS|
    ensures FindFC(Letters(MNEMONICS[fc]), start) == fc
    decreases fc - start
  {
    if start < fc {
      LettersDiffer(start, fc);
      if Letters(MNEMONICS[start]) == Letters(MNEMONICS[fc]) {
        LettersInjective(MNEMONICS[start], MNEMONICS[fc]);
      }
      FindsKnown(fc, start + 1);
    }
  }

  lemma UpperTwice(b: byte)
    ensures Upper(Upper(b)) == Upper(b) && (Blank(Upper(b)) <==> Blank(b))
  {}

  lemma UppersTwice(s: Bytes)
    ensures Uppers(Uppers(s)) == Uppers(s)
  {
    hide Upper;
    forall i | 0 <= i < |s|
      ensures Uppers(Uppers(s))[i] == Uppers(s)[i]
    {
      UpperTwice(s[i]);
    }
  }

  // Neither end is a blank.
  ghost predicate Bare(s: Bytes) { s == [] || (!Blank(s[0]) && !Blank(s[|s| - 1])) }

  lemma TrimmedIsBare(s: Bytes)
    ensures Bare(TrimRight(TrimLeft(s)))
  {
    hide TrimLeft, TrimRight, Blank;
    var t := TrimRight(TrimLeft(s));
    if t != [] {
      assert t[0] == TrimLeft(s)[0];
    }
  }

  lemma UppersAreBare(s: Bytes)
    requires Bare(s)
    ensures Bare(Uppers(s))
  {
    hide Upper, Blank;
    if s != [] {
      UpperTwice(s[0]);
      UpperTwice(s[|s| - 1]);
    }
  }

  lemma TrimmedStays(s: Bytes)
    requires Bare(s)
    ensures TrimRight(TrimLeft(s)) == s
  {
    hide Blank;
  }

  lemma CanonicalTwice(s: Bytes)
    ensures Canonical(Canonical(s)) == Canonical(s)
  {
    hide TrimLeft, TrimRight, Uppers, Bare;
    var t := TrimRight(TrimLeft(s));
    TrimmedIsBare(s);
    UppersAreBare(t);
    TrimmedStays(Uppers(t));
    UppersTwice(t);
  }

  // The same letter, but for its case.
  predicate SameLetter(b: byte, c: char)
  {
    b == c as int || ('A' <= c <= 'Z' && b == c as int + 0x20)
  }

  predicate Spells(text: Bytes, spelling: string)
  {
    |text| == |spelling| && forall i | 0 <= i < |text| :: SameLetter(text[i], spelling[i])
  }

  predicate Spaces(s: Bytes) { forall i | 0 <= i < |s| :: s[i] == 0x20 || 0x09 <= s[i] <= 0x0d }

  // A mnemonic is known in either case and with blanks around it.
  lemma ReadsMnemonic(fc: FC, before: Bytes, text: Bytes, after: Bytes)
    requires 1 <= fc < |SPELLINGS| && Spaces(before) && Spells(text, SPELLINGS[fc]) && Spaces(after)
    ensures ParseFC(before + text + after) == fc
  {
    hide SPELLINGS, MNEMONICS, FindFC, Letters, TrimLeft, TrimRight, Spells;
    SpelledText(fc, text);
    TrimsLeft(before, text + after);
    assert before + text + after == before + (text + after);
    TrimsRight(text, after);
    FindsKnown(fc, 1);
  }

  // What a spelling stands for, whatever its case.
  lemma SpelledText(fc: FC, text: Bytes)
    requires 1 <= fc < |SPELLINGS| && Spells(text, SPELLINGS[fc])
    ensures Known(fc) && text != [] && !Blank(text[0]) && !Blank(text[|text| - 1])
    ensures Uppers(text) == Letters(MNEMONICS[fc])
  {
    SpellingsLong(fc);
    MnemonicsSpelled(fc);
    hide SPELLINGS, MNEMONICS, Letters;
    forall i | 0 <= i < |text|
      ensures Upper(text[i]) == Letters(MNEMONICS[fc])[i] && !Blank(text[i])
    {
      assert SameLetter(text[i], SPELLINGS[fc][i]);
    }
  }

  lemma SpellingsLong(fc: FC)
    requires 1 <= fc < |SPELLINGS|
    ensures Known(fc) && SPELLINGS[fc] != []
    ensures forall i | 0 <= i < |SPELLINGS[fc]| :: SPELLINGS[fc][i] == '*' || 'A' <= SPELLINGS[fc][i] <= 'Z'
  {}

  lemma {:induction false} TrimsLeft(before: Bytes, s: Bytes)
    requires Spaces(before) && s != [] && !Blank(s[0])
    ensures TrimLeft(before + s) == s
    decreases |before|
  {
    if before == [] {
      assert before + s == s;
    } else {
      assert (before + s)[1..] == before[1..] + s;
      TrimsLeft(before[1..], s);
    }
  }

  lemma {:induction false} TrimsRight(s: Bytes, after: Bytes)
    requires Spaces(after) && s != [] && !Blank(s[|s| - 1])
    ensures TrimRight(s + after) == s
    decreases |after|
  {
    if after == [] {
      assert s + after == s;
    } else {
      var t := s + after;
      assert t[..|t| - 1] == s + after[..|after| - 1];
      TrimsRight(s, after[..|after| - 1]);
    }
  }

  // The text of every constraint reads back as that constraint.
  lemma FCTextParses(fc: FC, raw: Bytes)
    requires Constrained(fc, raw)
    ensures ParseFC(FCText(fc, raw)) == fc
  {
    hide FindFC, Canonical;
    if Known(fc) {
      MnemonicStays(fc);
      if fc > 0 {
        FindsKnown(fc, 1);
      }
    } else if Canonical(raw) != [] {
      CanonicalTwice(raw);
    } else {
      QueryStays();
      QueryUnknown(1);
    }
  }

  lemma MnemonicStays(fc: FC)
    requires Known(fc)
    ensures
      var u := Letters(MNEMONICS[fc]);
      Canonical(u) == u && (u == [] <==> fc == 0)
  {
    var u := Letters(MNEMONICS[fc]);
    Capitals(fc);
    TrimmedStays(u);
    hide TrimLeft, TrimRight;
    assert Uppers(u) == u;
  }

  predicate Capital(b: int) { 0x41 <= b <= 0x5a }

  lemma CapitalCodes(fc: FC)
    requires Known(fc)
    ensures
      var c := MNEMONICS[fc];
      && (c == 0 <==> fc == 0)
      && (c == 0 || c == 0x2a || (0x100 <= c < 0x1_0000 && Capital(c / 0x100) && Capital(c % 0x100)))
  {}

  lemma Capitals(fc: FC)
    requires Known(fc)
    ensures forall b | b in Letters(MNEMONICS[fc]) :: !Blank(b) && Upper(b) == b
    ensures Letters(MNEMONICS[fc]) == [] <==> fc == 0
  {
    CapitalCodes(fc);
    hide MNEMONICS;
    var c := MNEMONICS[fc];
    forall b | b in Letters(c)
      ensures !Blank(b) && Upper(b) == b
    {}
  }

  lemma QueryStays()
    ensures Canonical(QUERY) == QUERY
  {
    TrimmedStays(QUERY);
    hide TrimLeft, TrimRight;
    assert Uppers(QUERY) == QUERY;
  }

  lemma {:induction false} QueryUnknown(start: nat)
    requires 1 <= start <= |MNEMONICS|
    ensures FindFC(QUERY, start) == FC_UNKNOWN
    decreases |MNEMONICS| - start
  {
    if start < |MNEMONICS| {
      assert Letters(0x3f3f) == QUERY;
      if Letters(MNEMONICS[start]) == QUERY {
        LettersInjective(MNEMONICS[start], 0x3f3f);
      }
      QueryUnknown(start + 1);
    }
  }

  // The tree

  datatype Kind = NoKind | ArrayKind | OtherKind

  datatype BType = Enum | Int8 | Int16 | Int32 | Int64 | Int8U | Int16U | Int24U | Int32U | OtherType

  // What an attribute can hold: no access error, and sizes that are ints.
  predicate Holdable(v: Value)
  {
    match v
    case NoValue => false
    case DataAccessError(_) => false
    case Array(children) => |children| < 0x8000_0000_0000_0000 && forall c | c in children :: Holdable(c)
    case Structure(children) => forall c | c in children :: Holdable(c)
    case Bits(_, bitLen) => bitLen < 0x8000_0000_0000_0000
    case _ => true
  }

  type Held = v: Value | Holdable(v) witness Boolean(false)

  type Count = n: int | 0 <= n < 0x8000_0000_0000_0000

  // A leaf has a value or none; an array of a constructed type has the element
  // as its children and a count.
  datatype Attribute = Attribute(
    name: Bytes,
    fc: FC,
    fcName: Bytes,
    kind: Kind,
    btype: BType,
    count: Count,
    children: seq<Attribute>,
    value: Option<Held>)

  datatype DataObject = DataObject(name: Bytes, attributes: seq<Attribute>, objects: seq<DataObject>)

  datatype LogicalNode = LogicalNode(name: Bytes, objects: seq<DataObject>)
}
