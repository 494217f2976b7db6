// The name space of a logical device (server/access.go, server/handler.go):
// the item identifiers a client is given, and what each of them leads to.

module NameSpace {
  import opened Options
  import opened Octets
  import opened MmsData
  import opened MmsTypeSpec
  import opened DataModel
  import opened Access

  // Item identifiers

  // The parts of an identifier between its dollar signs.
  function Split(s: Bytes): (parts: seq<Bytes>)
    ensures |parts| >= 1
  {
    if s == [] then [[]]
    else
      var parts := Split(s[..|s| - 1]);
      var c := s[|s| - 1];
      if c == DOLLAR then parts + [[]]
      else parts[..|parts| - 1] + [parts[|parts| - 1] + [c]]
  }

  function Extend(prefix: Bytes, name: Bytes): Bytes { prefix + [DOLLAR] + name }

  lemma {:induction false} SplitExtend(prefix: Bytes, name: Bytes)
    requires Plain(name)
    ensures Extend(prefix, name) == prefix + [0x24] + name
    ensures Split(Extend(prefix, name)) == Split(prefix) + [name]
    decreases |name|
  {
    var s := Extend(prefix, name);
    if name == [] {
      assert s[..|s| - 1] == prefix;
    } else {
      var most := name[..|name| - 1];
      assert s[..|s| - 1] == Extend(prefix, most);
      SplitExtend(prefix, most);
      assert name == most + [name[|name| - 1]];
    }
  }

  lemma {:induction false} SplitPlain(name: Bytes)
    requires Plain(name)
    ensures Split(name) == [name]
    decreases |name|
  {
    if name != [] {
      SplitPlain(name[..|name| - 1]);
      assert name == name[..|name| - 1] + [name[|name| - 1]];
    }
  }

  // The list of names

  function AttrNames(prefix: Bytes, a: Attribute, fc: FC): seq<Bytes>
    decreases a, 0
  {
    if a.fc != fc then []
    else [Extend(prefix, a.name)] + AttrsNames(Extend(prefix, a.name), a.children, fc)
  }

  function AttrsNames(prefix: Bytes, attrs: seq<Attribute>, fc: FC): seq<Bytes>
    decreases attrs, 1
  {
    if attrs == [] then [] else AttrNames(prefix, attrs[0], fc) + AttrsNames(prefix, attrs[1..], fc)
  }

  function ObjectNames(prefix: Bytes, o: DataObject, fc: FC): seq<Bytes>
    decreases o, 0
  {
    if !HasFC(o, fc) then []
    else
      var p := Extend(prefix, o.name);
      [p] + AttrsNames(p, o.attributes, fc) + ObjectsNames(p, o.objects, fc)
  }

  function ObjectsNames(prefix: Bytes, objs: seq<DataObject>, fc: FC): seq<Bytes>
    decreases objs, 1
  {
    if objs == [] then [] else ObjectNames(prefix, objs[0], fc) + ObjectsNames(prefix, objs[1..], fc)
  }

  // The text of a constraint, as the first attribute under it has it.
  function AttrText(attrs: seq<Attribute>, fc: FC): Option<Bytes>
  {
    if attrs == [] then None
    else if attrs[0].fc == fc then Some(FCText(fc, attrs[0].fcName))
    else AttrText(attrs[1..], fc)
  }

  function ObjectText(o: DataObject, fc: FC): Bytes
    decreases o, 0
  {
    match AttrText(o.attributes, fc)
    case Some(text) => text
    case None => ObjectsText(o.objects, fc)
  }

  function ObjectsText(objs: seq<DataObject>, fc: FC): Bytes
    decreases objs, 1
  {
    if objs == [] then []
    else
      var text := ObjectText(objs[0], fc);
      if text != [] then text else ObjectsText(objs[1..], fc)
  }

  function TextOf(o: DataObject, fc: FC): Bytes
  {
    var text := ObjectText(o, fc);
    if text != [] then text else FCText(fc, [])
  }

  function NodeText(objs: seq<DataObject>, fc: FC): Bytes
  {
    if objs == [] then FCText(fc, [])
    else if HasFC(objs[0], fc) then TextOf(objs[0], fc)
    else NodeText(objs[1..], fc)
  }

  predicate NodeHasFC(ln: LogicalNode, fc: FC)
  {
    exists i | 0 <= i < |ln.objects| :: HasFC(ln.objects[i], fc)
  }

  // What is listed under one constraint, and under all of them in ascending
  // order from one.
  function ConstraintNames(ln: LogicalNode, fc: FC): seq<Bytes>
  {
    var prefix := Extend(ln.name, NodeText(ln.objects, fc));
    [prefix] + ObjectsNames(prefix, ln.objects, fc)
  }

  function NamesFrom(ln: LogicalNode, fc: nat): seq<Bytes>
    requires fc <= 0x100
    decreases 0x100 - fc
  {
    if fc == 0x100 then []
    else (if NodeHasFC(ln, fc) then ConstraintNames(ln, fc) else []) + NamesFrom(ln, fc + 1)
  }

  function NodeNames(ln: LogicalNode): seq<Bytes> { [ln.name] + NamesFrom(ln, 0) }

  function DeviceNames(nodes: seq<LogicalNode>): seq<Bytes>
  {
    if nodes == [] then [] else NodeNames(nodes[0]) + DeviceNames(nodes[1..])
  }

  // Where an identifier leads

  datatype Place = AtObject(o: DataObject) | AtAttribute(a: Attribute) | Nowhere

  function ObjectNamed(objs: seq<DataObject>, name: Bytes): Option<DataObject>
  {
    if objs == [] then None
    else if objs[0].name == name then Some(objs[0])
    else ObjectNamed(objs[1..], name)
  }

  function AttributeNamed(attrs: seq<Attribute>, name: Bytes, fc: FC): Option<Attribute>
  {
    if attrs == [] then None
    else if attrs[0].name == name && attrs[0].fc == fc then Some(attrs[0])
    else AttributeNamed(attrs[1..], name, fc)
  }

  function ChildNamed(attrs: seq<Attribute>, name: Bytes): Option<Attribute>
  {
    if attrs == [] then None
    else if attrs[0].name == name then Some(attrs[0])
    else ChildNamed(attrs[1..], name)
  }

  function Descend(a: Attribute, names: seq<Bytes>): (place: Place)
    ensures !place.AtObject?
    decreases |names|
  {
    if names == [] then AtAttribute(a)
    else
      match ChildNamed(a.children, names[0])
      case None => Nowhere
      case Some(c) => Descend(c, names[1..])
  }

  // Objects are followed as far as they go, then attributes.
  function Locate(o: DataObject, names: seq<Bytes>, fc: FC): Place
    decreases |names|
  {
    if names == [] then AtObject(o)
    else
      match ObjectNamed(o.objects, names[0])
      case Some(sub) => Locate(sub, names[1..], fc)
      case None =>
        match AttributeNamed(o.attributes, names[0], fc)
        case None => Nowhere
        case Some(a) => Descend(a, names[1..])
  }

  function Find(ln: LogicalNode, parts: seq<Bytes>): Place
    requires |parts| >= 3
  {
    match ObjectNamed(ln.objects, parts[2])
    case None => Nowhere
    case Some(o) => Locate(o, parts[3..], ParseFC(parts[1]))
  }

  datatype Reading = Reading(value: Value) | NonExistent | TypeInconsistent

  function ReadItem(ln: LogicalNode, item: Bytes): Reading
  {
    var parts := Split(item);
    if |parts| < 2 then NonExistent
    else if |parts| == 2 then Reading(Structure(DoValues(ln.objects, ParseFC(parts[1]))))
    else
      match Find(ln, parts)
      case Nowhere => NonExistent
      case AtObject(o) =>
        var v := DoValue(o, ParseFC(parts[1]));
        if v.None? then NonExistent else Reading(v.value)
      case AtAttribute(a) =>
        var v := DaValue(a);
        if v.None? then TypeInconsistent else Reading(v.value)
  }

  function DescribeItem(ln: LogicalNode, item: Bytes): Option<TypeSpec>
  {
    var parts := Split(item);
    if |parts| == 1 then Some(StructureType(ConstraintTypes(ln, 0)))
    else if |parts| == 2 then Some(StructureType(DoTypes(ln.objects, ParseFC(parts[1]))))
    else
      match Find(ln, parts)
      case Nowhere => None
      case AtObject(o) => Some(DoType(o, ParseFC(parts[1])))
      case AtAttribute(a) => Some(DaType(a))
  }

  function ConstraintTypes(ln: LogicalNode, fc: nat): seq<Component>
    requires fc <= 0x100
    decreases 0x100 - fc
  {
    if fc == 0x100 then []
    else
      (if NodeHasFC(ln, fc) then [Component(NodeText(ln.objects, fc), StructureType(DoTypes(ln.objects, fc)))] else [])
      + ConstraintTypes(ln, fc + 1)
  }

  // The node of an identifier: the one its first part names.
  function NodeNamed(nodes: seq<LogicalNode>, name: Bytes): Option<LogicalNode>
  {
    if nodes == [] then None else if nodes[0].name == name then Some(nodes[0]) else NodeNamed(nodes[1..], name)
  }

  // What a client is told of an identifier: a value and a type it is of.
  ghost predicate Served(ln: LogicalNode, item: Bytes)
  {
    && ReadItem(ln, item).Reading? && DescribeItem(ln, item).Some?
    && Conforms(ReadItem(ln, item).value, DescribeItem(ln, item).value)
  }

  // What it leads to, below the level of constraints: a sound part of the tree
  // that has the constraint.
  ghost predicate Placed(ln: LogicalNode, item: Bytes)
  {
    var parts := Split(item);
    |parts| >= 3 ==>
      match Find(ln, parts)
      case Nowhere => false
      case AtObject(o) => SoundObject(o) && HasFC(o, ParseFC(parts[1]))
      case AtAttribute(a) => SoundAttribute(a) && a.fc == ParseFC(parts[1])
  }

  ghost predicate AllServed(ln: LogicalNode, items: seq<Bytes>)
  {
    forall x | x in items :: Split(x)[0] == ln.name && Served(ln, x) && Placed(ln, x)
  }

  // Going one part further

  lemma {:induction false} DescendFurther(a: Attribute, names: seq<Bytes>, name: Bytes)
    ensures
      Descend(a, names + [name]) ==
      match Descend(a, names) {
        case AtAttribute(b) => Descend(b, [name])
        case _ => Nowhere
      }
    decreases |names|
  {
    if names == [] {
      assert names + [name] == [name];
    } else {
      assert (names + [name])[1..] == names[1..] + [name];
      match ChildNamed(a.children, names[0])
      case None =>
      case Some(c) => DescendFurther(c, names[1..], name);
    }
  }

  lemma {:induction false} LocateFurther(o: DataObject, names: seq<Bytes>, fc: FC, name: Bytes)
    ensures
      Locate(o, names + [name], fc) ==
      match Locate(o, names, fc) {
        case AtObject(p) => Locate(p, [name], fc)
        case AtAttribute(a) => Descend(a, [name])
        case Nowhere => Nowhere
      }
    decreases |names|
  {
    hide Descend, ObjectNamed, AttributeNamed;
    if names == [] {
      assert names + [name] == [name];
    } else {
      assert (names + [name])[1..] == names[1..] + [name];
      match ObjectNamed(o.objects, names[0])
      case Some(sub) => LocateFurther(sub, names[1..], fc, name);
      case None =>
        match AttributeNamed(o.attributes, names[0], fc)
        case None =>
        case Some(a) => DescendFurther(a, names[1..], name);
    }
  }

  // Sibling names are unique, so the first of a name is the one meant.

  lemma {:induction false} ObjectFound(objs: seq<DataObject>, i: nat)
    requires i < |objs| && forall j, k | 0 <= j < k < |objs| :: objs[j].name != objs[k].name
    ensures ObjectNamed(objs, objs[i].name) == Some(objs[i])
    decreases |objs|
  {
    if i > 0 {
      ObjectFound(objs[1..], i - 1);
    }
  }

  lemma {:induction false} ObjectMissing(objs: seq<DataObject>, name: Bytes)
    requires forall j | 0 <= j < |objs| :: objs[j].name != name
    ensures ObjectNamed(objs, name).None?
    decreases |objs|
  {
    if objs != [] {
      ObjectMissing(objs[1..], name);
    }
  }

  lemma {:induction false} AttributeFound(attrs: seq<Attribute>, i: nat)
    requires i < |attrs|
    requires forall j, k | 0 <= j < k < |attrs| :: attrs[j].name != attrs[k].name || attrs[j].fc != attrs[k].fc
    ensures AttributeNamed(attrs, attrs[i].name, attrs[i].fc) == Some(attrs[i])
    decreases |attrs|
  {
    if i > 0 {
      AttributeFound(attrs[1..], i - 1);
    }
  }

  lemma {:induction false} ChildFound(attrs: seq<Attribute>, i: nat)
    requires i < |attrs| && forall j, k | 0 <= j < k < |attrs| :: attrs[j].name != attrs[k].name
    ensures ChildNamed(attrs, attrs[i].name) == Some(attrs[i])
    decreases |attrs|
  {
    if i > 0 {
      ChildFound(attrs[1..], i - 1);
    }
  }

  // What a prefix leads to, below the level of constraints.
  ghost predicate LeadsTo(ln: LogicalNode, item: Bytes, fc: FC, place: Place)
  {
    var parts := Split(item);
    |parts| >= 3 && parts[0] == ln.name && ParseFC(parts[1]) == fc && Find(ln, parts) == place && place != Nowhere
  }

  lemma OneFurther(ln: LogicalNode, prefix: Bytes, fc: FC, place: Place, name: Bytes, next: Place)
    requires LeadsTo(ln, prefix, fc, place) && Plain(name) && next != Nowhere
    requires next == if place.AtObject? then Locate(place.o, [name], fc) else Descend(place.a, [name])
    ensures LeadsTo(ln, Extend(prefix, name), fc, next)
  {
    hide Locate, Descend, ParseFC, Extend;
    var parts := Split(prefix);
    SplitExtend(prefix, name);
    assert (parts + [name])[3..] == parts[3..] + [name];
    match ObjectNamed(ln.objects, parts[2])
    case Some(o) => LocateFurther(o, parts[3..], fc, name);
  }

  lemma AttributeServed(ln: LogicalNode, item: Bytes, fc: FC, a: Attribute)
    requires LeadsTo(ln, item, fc, AtAttribute(a)) && SoundAttribute(a) && a.fc == fc
    ensures Split(item)[0] == ln.name && Served(ln, item) && Placed(ln, item)
  {
    hide SoundAttribute, Find, Conforms, DaValue, DaType, ParseFC, Split;
    AttributeConforms(a);
  }

  lemma ObjectServed(ln: LogicalNode, item: Bytes, fc: FC, o: DataObject)
    requires LeadsTo(ln, item, fc, AtObject(o)) && SoundObject(o) && HasFC(o, fc)
    ensures Split(item)[0] == ln.name && Served(ln, item) && Placed(ln, item)
  {
    hide SoundObject, Find, Conforms, DoValue, DoType, ParseFC, Split, HasFC;
    ObjectConforms(o, fc);
  }

  // Everything listed below an attribute is served.
  lemma {:induction false} AttributeNamesServed(ln: LogicalNode, prefix: Bytes, a: Attribute, fc: FC)
    requires SoundAttribute(a) && a.fc == fc
    requires LeadsTo(ln, Extend(prefix, a.name), fc, AtAttribute(a))
    ensures AllServed(ln, AttrNames(prefix, a, fc))
    decreases a, 0
  {
    hide LeadsTo, Served, Placed, Extend;
    var p := Extend(prefix, a.name);
    AttributeServed(ln, p, fc, a);
    ChildrenNamesServed(ln, p, a, fc, 0);
    assert a.children[0..] == a.children;
  }

  lemma {:induction false} ChildrenNamesServed(ln: LogicalNode, prefix: Bytes, a: Attribute, fc: FC, i: nat)
    requires SoundAttribute(a) && a.fc == fc && i <= |a.children|
    requires LeadsTo(ln, prefix, fc, AtAttribute(a))
    ensures AllServed(ln, AttrsNames(prefix, a.children[i..], fc))
    decreases a.children, |a.children| - i
  {
    hide LeadsTo, Served, Placed, Extend, AttrNames, Fits, Plain;
    if i < |a.children| {
      var c := a.children[i];
      assert SoundAttribute(c) && c.fc == fc;
      ChildFound(a.children, i);
      ChildLeads(ln, prefix, fc, a, c);
      AttributeNamesServed(ln, prefix, c, fc);
      ChildrenNamesServed(ln, prefix, a, fc, i + 1);
      assert a.children[i..][1..] == a.children[i + 1..];
    }
  }

  lemma ChildLeads(ln: LogicalNode, prefix: Bytes, fc: FC, a: Attribute, c: Attribute)
    requires LeadsTo(ln, prefix, fc, AtAttribute(a)) && Plain(c.name)
    requires ChildNamed(a.children, c.name) == Some(c)
    ensures LeadsTo(ln, Extend(prefix, c.name), fc, AtAttribute(c))
  {
    hide LeadsTo, Extend;
    assert [c.name][1..] == [];
    assert Descend(c, []) == AtAttribute(c);
    OneFurther(ln, prefix, fc, AtAttribute(a), c.name, AtAttribute(c));
  }

  // Everything listed below an object is served.
  lemma {:induction false} ObjectNamesServed(ln: LogicalNode, prefix: Bytes, o: DataObject, fc: FC)
    requires SoundObject(o)
    requires LeadsTo(ln, Extend(prefix, o.name), fc, AtObject(o))
    ensures AllServed(ln, ObjectNames(prefix, o, fc))
    decreases o, 0
  {
    hide LeadsTo, Served, Placed, Extend, SoundObject, HasFC;
    if HasFC(o, fc) {
      var p := Extend(prefix, o.name);
      ObjectServed(ln, p, fc, o);
      RootNamesServed(ln, p, o, fc, 0);
      assert o.attributes[0..] == o.attributes;
      SubNamesServed(ln, p, o, fc, 0);
      assert o.objects[0..] == o.objects;
    }
  }

  lemma {:induction false} RootNamesServed(ln: LogicalNode, prefix: Bytes, o: DataObject, fc: FC, i: nat)
    requires SoundObject(o) && i <= |o.attributes|
    requires LeadsTo(ln, prefix, fc, AtObject(o))
    ensures AllServed(ln, AttrsNames(prefix, o.attributes[i..], fc))
    decreases |o.attributes| - i
  {
    hide LeadsTo, Served, Placed, Extend, AttrNames, SoundObject;
    if i < |o.attributes| {
      var a := o.attributes[i];
      if a.fc == fc {
        RootLeads(ln, prefix, fc, o, i);
        AttributeNamesServed(ln, prefix, a, fc);
      } else {
        NotUnder(prefix, a, fc);
      }
      RootNamesServed(ln, prefix, o, fc, i + 1);
      assert o.attributes[i..][1..] == o.attributes[i + 1..];
    }
  }

  lemma NotUnder(prefix: Bytes, a: Attribute, fc: FC)
    requires a.fc != fc
    ensures AttrNames(prefix, a, fc) == []
  {}

  lemma RootLeads(ln: LogicalNode, prefix: Bytes, fc: FC, o: DataObject, i: nat)
    requires SoundObject(o) && i < |o.attributes| && o.attributes[i].fc == fc
    requires LeadsTo(ln, prefix, fc, AtObject(o))
    ensures SoundAttribute(o.attributes[i])
    ensures LeadsTo(ln, Extend(prefix, o.attributes[i].name), fc, AtAttribute(o.attributes[i]))
  {
    hide LeadsTo, Extend, Constrained;
    var a := o.attributes[i];
    assert SoundRoot(a);
    ObjectMissing(o.objects, a.name);
    AttributeFound(o.attributes, i);
    assert [a.name][1..] == [];
    assert Descend(a, []) == AtAttribute(a);
    OneFurther(ln, prefix, fc, AtObject(o), a.name, AtAttribute(a));
  }

  lemma {:induction false} SubNamesServed(ln: LogicalNode, prefix: Bytes, o: DataObject, fc: FC, i: nat)
    requires SoundObject(o) && i <= |o.objects|
    requires LeadsTo(ln, prefix, fc, AtObject(o))
    ensures AllServed(ln, ObjectsNames(prefix, o.objects[i..], fc))
    decreases o.objects, |o.objects| - i
  {
    hide LeadsTo, Served, Placed, Extend, ObjectNames, SoundObject;
    if i < |o.objects| {
      SubLeads(ln, prefix, fc, o, i);
      ObjectNamesServed(ln, prefix, o.objects[i], fc);
      SubNamesServed(ln, prefix, o, fc, i + 1);
      assert o.objects[i..][1..] == o.objects[i + 1..];
    }
  }

  lemma SubLeads(ln: LogicalNode, prefix: Bytes, fc: FC, o: DataObject, i: nat)
    requires SoundObject(o) && i < |o.objects|
    requires LeadsTo(ln, prefix, fc, AtObject(o))
    ensures SoundObject(o.objects[i])
    ensures LeadsTo(ln, Extend(prefix, o.objects[i].name), fc, AtObject(o.objects[i]))
  {
    hide LeadsTo, Extend, SoundRoot;
    var sub := o.objects[i];
    assert SoundObject(sub);
    ObjectFound(o.objects, i);
    assert [sub.name][1..] == [];
    assert Locate(sub, [], fc) == AtObject(sub);
    OneFurther(ln, prefix, fc, AtObject(o), sub.name, AtObject(sub));
  }

  // The level of constraints

  // A text that stands for a constraint in an identifier.
  ghost predicate Stands(text: Bytes, fc: FC) { Plain(text) && ParseFC(text) == fc }

  lemma PlainText(fc: FC, raw: Bytes)
    requires Constrained(fc, raw) && Plain(raw)
    ensures Stands(FCText(fc, raw), fc)
  {
    hide ParseFC, Canonical, Letters;
    FCTextParses(fc, raw);
    if Known(fc) {
      MnemonicPlain(fc);
    } else {
      CanonicalPlain(raw);
    }
  }

  lemma MnemonicPlain(fc: FC)
    requires Known(fc)
    ensures Plain(Letters(MNEMONICS[fc]))
  {
    hide MNEMONICS;
    CapitalCodes(fc);
  }

  lemma CanonicalPlain(raw: Bytes)
    requires Plain(raw)
    ensures Plain(Canonical(raw))
  {
    hide TrimLeft, TrimRight;
    var t := TrimRight(TrimLeft(raw));
    assert forall b | b in t :: b in raw;
  }

  lemma {:induction false} AttrTextStands(attrs: seq<Attribute>, fc: FC)
    requires forall i | 0 <= i < |attrs| :: SoundRoot(attrs[i])
    ensures AttrText(attrs, fc).Some? ==> Stands(AttrText(attrs, fc).value, fc)
    ensures AttrText(attrs, fc).Some? ==> Known(fc) || fc == FC_UNKNOWN
    decreases |attrs|
  {
    hide SoundAttribute, Stands, FCText;
    if attrs != [] {
      assert SoundRoot(attrs[0]);
      if attrs[0].fc == fc {
        PlainText(fc, attrs[0].fcName);
      } else {
        AttrTextStands(attrs[1..], fc);
      }
    }
  }

  lemma {:induction false} ObjectTextStands(o: DataObject, fc: FC)
    requires SoundObject(o)
    ensures ObjectText(o, fc) == [] || Stands(ObjectText(o, fc), fc)
    ensures HasFC(o, fc) ==> Known(fc) || fc == FC_UNKNOWN
    decreases o, 0
  {
    hide Stands, AttrText, SoundRoot;
    AttrTextStands(o.attributes, fc);
    RootsKnown(o, fc);
    ObjectsTextStands(o.objects, fc);
  }

  lemma RootsKnown(o: DataObject, fc: FC)
    requires SoundObject(o)
    ensures forall i | 0 <= i < |o.attributes| :: Known(o.attributes[i].fc) || o.attributes[i].fc == FC_UNKNOWN
  {
    hide SoundAttribute, ParseFC;
    forall i | 0 <= i < |o.attributes|
      ensures Known(o.attributes[i].fc) || o.attributes[i].fc == FC_UNKNOWN
    {
      assert SoundRoot(o.attributes[i]);
    }
  }

  lemma {:induction false} ObjectsTextStands(objs: seq<DataObject>, fc: FC)
    requires forall i | 0 <= i < |objs| :: SoundObject(objs[i])
    ensures ObjectsText(objs, fc) == [] || Stands(ObjectsText(objs, fc), fc)
    ensures (exists i | 0 <= i < |objs| :: HasFC(objs[i], fc)) ==> Known(fc) || fc == FC_UNKNOWN
    decreases objs, 1
  {
    hide Stands, SoundObject, HasFC;
    if objs != [] {
      ObjectTextStands(objs[0], fc);
      ObjectsTextStands(objs[1..], fc);
      if i :| 0 <= i < |objs| && HasFC(objs[i], fc) {
        assert i == 0 || HasFC(objs[1..][i - 1], fc);
      }
    }
  }

  lemma {:induction false} NodeTextStands(objs: seq<DataObject>, fc: FC)
    requires forall i | 0 <= i < |objs| :: SoundObject(objs[i])
    requires Known(fc) || fc == FC_UNKNOWN
    ensures Stands(NodeText(objs, fc), fc)
    decreases |objs|
  {
    hide Stands, SoundObject, HasFC, FCText;
    assert ParseFC([]) == FC_NONE;
    PlainText(fc, []);
    if objs != [] {
      ObjectTextStands(objs[0], fc);
      NodeTextStands(objs[1..], fc);
    }
  }

  // Everything listed under one constraint of a node is served.
  lemma ConstraintServed(ln: LogicalNode, fc: FC)
    requires SoundNode(ln) && NodeHasFC(ln, fc)
    ensures AllServed(ln, ConstraintNames(ln, fc))
  {
    hide Served, Placed, Extend, ObjectsNames, SoundObject, HasFC, Stands;
    ObjectsTextStands(ln.objects, fc);
    NodeTextStands(ln.objects, fc);
    var text := NodeText(ln.objects, fc);
    var prefix := Extend(ln.name, text);
    PrefixServed(ln, text, fc);
    TopNamesServed(ln, text, fc, 0);
    assert ln.objects[0..] == ln.objects;
  }

  lemma PrefixServed(ln: LogicalNode, text: Bytes, fc: FC)
    requires SoundNode(ln) && Stands(text, fc)
    ensures
      var prefix := Extend(ln.name, text);
      Split(prefix) == [ln.name, text] && Served(ln, prefix) && Placed(ln, prefix)
  {
    hide ParseFC, Find, DoValues, DoTypes, SoundObject, ConformAll, ConstraintTypes, Split, Extend;
    SplitPlain(ln.name);
    SplitExtend(ln.name, text);
    ObjectsConform(ln.objects, fc);
    SameLength(DoValues(ln.objects, fc), DoTypes(ln.objects, fc));
  }

  lemma SameLength(vs: seq<Value>, cs: seq<Component>)
    requires ConformAll(vs, cs)
    ensures |vs| == |cs|
  {}

  lemma {:induction false} TopNamesServed(ln: LogicalNode, text: Bytes, fc: FC, i: nat)
    requires SoundNode(ln) && Stands(text, fc) && i <= |ln.objects|
    ensures AllServed(ln, ObjectsNames(Extend(ln.name, text), ln.objects[i..], fc))
    decreases |ln.objects| - i
  {
    hide Served, Placed, Extend, ObjectNames, SoundNode, SoundObject, LeadsTo, Stands, Split;
    if i < |ln.objects| {
      TopLeads(ln, text, fc, i);
      ObjectNamesServed(ln, Extend(ln.name, text), ln.objects[i], fc);
      TopNamesServed(ln, text, fc, i + 1);
      assert ln.objects[i..][1..] == ln.objects[i + 1..];
    }
  }

  lemma TopLeads(ln: LogicalNode, text: Bytes, fc: FC, i: nat)
    requires SoundNode(ln) && Stands(text, fc) && i < |ln.objects|
    ensures SoundObject(ln.objects[i])
    ensures LeadsTo(ln, Extend(Extend(ln.name, text), ln.objects[i].name), fc, AtObject(ln.objects[i]))
  {
    hide ParseFC, SoundRoot, Extend, Split;
    var o := ln.objects[i];
    assert SoundObject(o);
    SplitPlain(ln.name);
    SplitExtend(ln.name, text);
    SplitExtend(Extend(ln.name, text), o.name);
    assert [ln.name, text] + [o.name] == [ln.name, text, o.name];
    ObjectFound(ln.objects, i);
    assert [ln.name, text, o.name][3..] == [];
  }

  lemma {:induction false} FromServed(ln: LogicalNode, fc: nat)
    requires SoundNode(ln) && fc <= 0x100
    ensures AllServed(ln, NamesFrom(ln, fc))
    decreases 0x100 - fc
  {
    hide Served, Placed, SoundNode, ConstraintNames, NodeHasFC, Split;
    if fc < 0x100 {
      if NodeHasFC(ln, fc) {
        ConstraintServed(ln, fc);
      }
      FromServed(ln, fc + 1);
    }
  }

  // The device

  ghost predicate SoundDevice(nodes: seq<LogicalNode>)
  {
    && (forall i | 0 <= i < |nodes| :: SoundNode(nodes[i]))
    && (forall i, j | 0 <= i < j < |nodes| :: nodes[i].name != nodes[j].name)
  }

  // Every name a client is given of a device whose tree is sound leads back to
  // its node, and there, from the level of constraints down, to a value and a
  // type, and the value is of the type.
  lemma {:induction false} NamesAreServed(nodes: seq<LogicalNode>, item: Bytes)
    requires SoundDevice(nodes) && item in DeviceNames(nodes)
    ensures NodeNamed(nodes, Split(item)[0]).Some?
    ensures |Split(item)| >= 2 ==> Served(NodeNamed(nodes, Split(item)[0]).value, item)
    decreases |nodes|
  {
    hide Served, Placed, SoundNode, NamesFrom, Split;
    var ln := nodes[0];
    if item in NodeNames(ln) {
      NodeNameAlone(ln);
      FromServed(ln, 0);
    } else {
      NamesAreServed(nodes[1..], item);
      NodeElsewhere(nodes, Split(item)[0]);
    }
  }

  lemma NodeNameAlone(ln: LogicalNode)
    requires SoundNode(ln)
    ensures Split(ln.name) == [ln.name]
  {
    SplitPlain(ln.name);
  }

  lemma {:induction false} NodeNamedIs(nodes: seq<LogicalNode>, name: Bytes)
    ensures NodeNamed(nodes, name).Some? ==> exists i | 0 <= i < |nodes| :: nodes[i].name == name
    decreases |nodes|
  {
    if nodes != [] && nodes[0].name != name {
      NodeNamedIs(nodes[1..], name);
      if NodeNamed(nodes[1..], name).Some? {
        var i :| 0 <= i < |nodes[1..]| && nodes[1..][i].name == name;
        assert nodes[i + 1].name == name;
      }
    }
  }

  lemma NodeElsewhere(nodes: seq<LogicalNode>, name: Bytes)
    requires SoundDevice(nodes) && nodes != [] && NodeNamed(nodes[1..], name).Some?
    ensures NodeNamed(nodes, name) == NodeNamed(nodes[1..], name)
  {
    hide SoundNode;
    NodeNamedIs(nodes[1..], name);
    var i :| 0 <= i < |nodes[1..]| && nodes[1..][i].name == name;
    assert nodes[0].name != nodes[i + 1].name;
  }

  // The name of a node alone is listed too; it has a type, and no value.
  lemma NodeNameHasNoValue(ln: LogicalNode)
    requires SoundNode(ln)
    ensures ln.name in NodeNames(ln)
    ensures ReadItem(ln, ln.name) == NonExistent && DescribeItem(ln, ln.name).Some?
  {
    hide Split;
    NodeNameAlone(ln);
  }

  // The converse: what can be read is listed

  function Joined(prefix: Bytes, names: seq<Bytes>): Bytes
    decreases |names|
  {
    if names == [] then prefix else Joined(Extend(prefix, names[0]), names[1..])
  }

  lemma {:induction false} SplitJoined(prefix: Bytes, names: seq<Bytes>)
    requires forall i | 0 <= i < |names| :: Plain(names[i])
    ensures Split(Joined(prefix, names)) == Split(prefix) + names
    decreases |names|
  {
    hide Split, Extend, Plain;
    if names == [] {
      assert Split(prefix) + [] == Split(prefix);
    } else {
      SplitExtend(prefix, names[0]);
      SplitJoined(Extend(prefix, names[0]), names[1..]);
      assert Split(prefix) + [names[0]] + names[1..] == Split(prefix) + names;
    }
  }

  // A place that has a value under the constraint.
  predicate Valued(place: Place, fc: FC)
  {
    place.AtAttribute? || (place.AtObject? && HasFC(place.o, fc))
  }

  lemma {:induction false} ObjectNamedIs(objs: seq<DataObject>, name: Bytes) returns (i: nat)
    requires ObjectNamed(objs, name).Some?
    ensures i < |objs| && objs[i].name == name && ObjectNamed(objs, name) == Some(objs[i])
    decreases |objs|
  {
    i := 0;
    if objs[0].name != name {
      i := ObjectNamedIs(objs[1..], name);
      i := i + 1;
    }
  }

  lemma {:induction false} AttributeNamedIs(attrs: seq<Attribute>, name: Bytes, fc: FC) returns (i: nat)
    requires AttributeNamed(attrs, name, fc).Some?
    ensures i < |attrs| && attrs[i].name == name && attrs[i].fc == fc
    ensures AttributeNamed(attrs, name, fc) == Some(attrs[i])
    decreases |attrs|
  {
    i := 0;
    if attrs[0].name != name || attrs[0].fc != fc {
      i := AttributeNamedIs(attrs[1..], name, fc);
      i := i + 1;
    }
  }

  lemma {:induction false} ChildNamedIs(attrs: seq<Attribute>, name: Bytes) returns (i: nat)
    requires ChildNamed(attrs, name).Some?
    ensures i < |attrs| && attrs[i].name == name && ChildNamed(attrs, name) == Some(attrs[i])
    decreases |attrs|
  {
    i := 0;
    if attrs[0].name != name {
      i := ChildNamedIs(attrs[1..], name);
      i := i + 1;
    }
  }

  lemma {:induction false} ValuedHasFC(o: DataObject, names: seq<Bytes>, fc: FC)
    requires Valued(Locate(o, names, fc), fc)
    ensures HasFC(o, fc)
    decreases |names|
  {
    if names != [] {
      match ObjectNamed(o.objects, names[0])
      case Some(sub) =>
        var _ := ObjectNamedIs(o.objects, names[0]);
        ValuedHasFC(sub, names[1..], fc);
      case None =>
        var _ := AttributeNamedIs(o.attributes, names[0], fc);
    }
  }

  lemma {:induction false} AmongAttributes(prefix: Bytes, attrs: seq<Attribute>, fc: FC, i: nat, item: Bytes)
    requires i < |attrs| && item in AttrNames(prefix, attrs[i], fc)
    ensures item in AttrsNames(prefix, attrs, fc)
    decreases |attrs|
  {
    hide AttrNames;
    if i > 0 {
      AmongAttributes(prefix, attrs[1..], fc, i - 1, item);
    }
  }

  lemma {:induction false} AmongObjects(prefix: Bytes, objs: seq<DataObject>, fc: FC, i: nat, item: Bytes)
    requires i < |objs| && item in ObjectNames(prefix, objs[i], fc)
    ensures item in ObjectsNames(prefix, objs, fc)
    decreases |objs|
  {
    hide ObjectNames;
    if i > 0 {
      AmongObjects(prefix, objs[1..], fc, i - 1, item);
    }
  }

  lemma {:induction false} AttributeListed(prefix: Bytes, a: Attribute, names: seq<Bytes>, fc: FC)
    requires SoundAttribute(a) && a.fc == fc && Descend(a, names).AtAttribute?
    ensures Joined(Extend(prefix, a.name), names) in AttrNames(prefix, a, fc)
    decreases |names|
  {
    hide Extend, Fits, Plain, AttrsNames;
    if names != [] {
      var p := Extend(prefix, a.name);
      var i := ChildNamedIs(a.children, names[0]);
      AttributeListed(p, a.children[i], names[1..], fc);
      AmongAttributes(p, a.children, fc, i, Joined(p, names));
    }
  }

  lemma {:induction false} ObjectListed(prefix: Bytes, o: DataObject, names: seq<Bytes>, fc: FC)
    requires SoundObject(o) && Valued(Locate(o, names, fc), fc)
    ensures Joined(Extend(prefix, o.name), names) in ObjectNames(prefix, o, fc)
    decreases |names|
  {
    ValuedHasFC(o, names, fc);
    hide Extend, HasFC, AttrsNames, ObjectsNames, SoundObject, Valued;
    if names != [] {
      var p := Extend(prefix, o.name);
      match ObjectNamed(o.objects, names[0])
      case Some(sub) =>
        var i := ObjectNamedIs(o.objects, names[0]);
        ObjectParts(o);
        ObjectListed(p, sub, names[1..], fc);
        AmongObjects(p, o.objects, fc, i, Joined(p, names));
      case None => RootListed(p, o, names, fc);
    }
  }

  lemma RootListed(p: Bytes, o: DataObject, names: seq<Bytes>, fc: FC)
    requires SoundObject(o) && names != [] && ObjectNamed(o.objects, names[0]).None?
    requires Valued(Locate(o, names, fc), fc)
    ensures Joined(p, names) in AttrsNames(p, o.attributes, fc)
  {
    hide Extend, HasFC, SoundObject, SoundAttribute, AttrNames, AttrsNames;
    ObjectParts(o);
    var i := AttributeNamedIs(o.attributes, names[0], fc);
    AttributeListed(p, o.attributes[i], names[1..], fc);
    AmongAttributes(p, o.attributes, fc, i, Joined(p, names));
  }

  lemma {:induction false} AmongConstraints(ln: LogicalNode, start: nat, fc: FC, item: Bytes)
    requires start <= fc && NodeHasFC(ln, fc) && item in ConstraintNames(ln, fc)
    ensures item in NamesFrom(ln, start)
    decreases fc - start
  {
    hide ConstraintNames, NodeHasFC;
    if start < fc {
      AmongConstraints(ln, start + 1, fc, item);
    }
  }

  // An identifier below a constraint, written as the server writes it, that
  // can be read is in the list; with NamesAreServed, the list is exactly what
  // can be read.
  lemma ReadableIsListed(ln: LogicalNode, fc: FC, names: seq<Bytes>)
    requires SoundNode(ln) && NodeHasFC(ln, fc) && names != []
    requires forall i | 0 <= i < |names| :: Plain(names[i])
    ensures
      var item := Joined(Extend(ln.name, NodeText(ln.objects, fc)), names);
      ReadItem(ln, item).Reading? ==> item in NodeNames(ln)
  {
    hide *;
    var text := NodeText(ln.objects, fc);
    var prefix := Extend(ln.name, text);
    var item := Joined(prefix, names);
    ConstraintText(ln, fc);
    SplitJoined(prefix, names);
    if ReadItem(ln, item).Reading? {
      ReadingIsPlaced(ln, item, text, fc, names);
      TopListed(ln, prefix, fc, names);
      ListedUnder(ln, fc, item);
    }
  }

  lemma ListedUnder(ln: LogicalNode, fc: FC, item: Bytes)
    requires NodeHasFC(ln, fc)
    requires item in ObjectsNames(Extend(ln.name, NodeText(ln.objects, fc)), ln.objects, fc)
    ensures item in NodeNames(ln)
  {
    hide ObjectsNames, Extend, NodeText, NamesFrom, NodeHasFC;
    AmongConstraints(ln, 0, fc, item);
  }

  lemma ReadingIsPlaced(ln: LogicalNode, item: Bytes, text: Bytes, fc: FC, names: seq<Bytes>)
    requires Split(item) == [ln.name, text] + names && names != [] && ParseFC(text) == fc
    requires ReadItem(ln, item).Reading?
    ensures
      && ObjectNamed(ln.objects, names[0]).Some?
      && var place := Locate(ObjectNamed(ln.objects, names[0]).value, names[1..], fc);
         place.AtAttribute? || (place.AtObject? && DoValue(place.o, fc).Some?)
  {
    hide Split, ParseFC, Locate, DoValue, DaValue, ObjectNamed;
    assert ([ln.name, text] + names)[3..] == names[1..];
  }

  lemma ConstraintText(ln: LogicalNode, fc: FC)
    requires SoundNode(ln) && NodeHasFC(ln, fc)
    ensures
      var text := NodeText(ln.objects, fc);
      ParseFC(text) == fc && Split(Extend(ln.name, text)) == [ln.name, text]
  {
    hide ParseFC, SoundObject, HasFC, NodeText;
    ObjectsTextStands(ln.objects, fc);
    NodeTextStands(ln.objects, fc);
    PrefixServed(ln, NodeText(ln.objects, fc), fc);
  }

  lemma TopListed(ln: LogicalNode, prefix: Bytes, fc: FC, names: seq<Bytes>)
    requires SoundNode(ln) && names != [] && ObjectNamed(ln.objects, names[0]).Some?
    requires
      var place := Locate(ObjectNamed(ln.objects, names[0]).value, names[1..], fc);
      place.AtAttribute? || (place.AtObject? && DoValue(place.o, fc).Some?)
    ensures Joined(prefix, names) in ObjectsNames(prefix, ln.objects, fc)
  {
    hide Extend, HasFC, SoundObject, ObjectNames, ObjectsNames;
    var i := ObjectNamedIs(ln.objects, names[0]);
    var o := ln.objects[i];
    LocatedSound(o, names[1..], fc);
    ObjectListed(prefix, o, names[1..], fc);
    AmongObjects(prefix, ln.objects, fc, i, Joined(prefix, names));
  }

  // A place that has a value has the constraint.
  lemma {:induction false} LocatedSound(o: DataObject, names: seq<Bytes>, fc: FC)
    requires SoundObject(o)
    ensures
      var place := Locate(o, names, fc);
      place.AtObject? ==> (DoValue(place.o, fc).Some? <==> HasFC(place.o, fc))
    decreases |names|
  {
    hide SoundObject, HasFC, DoValue, Descend;
    if names == [] {
      ObjectConforms(o, fc);
    } else if ObjectNamed(o.objects, names[0]).Some? {
      var i := ObjectNamedIs(o.objects, names[0]);
      ObjectParts(o);
      LocatedSound(o.objects[i], names[1..], fc);
    }
  }

  // The loops

  method AppendAttrNames(names: seq<Bytes>, prefix: Bytes, a: Attribute, fc: FC) returns (out: seq<Bytes>)
    ensures out == names + AttrNames(prefix, a, fc)
    decreases a, 0
  {
    hide Extend, AttrsNames;
    if a.fc != fc {
      assert names + [] == names;
      return names;
    }
    var p := Extend(prefix, a.name);
    out := AppendChildren(names + [p], p, a.children, fc);
  }

  method AppendChildren(names: seq<Bytes>, p: Bytes, attrs: seq<Attribute>, fc: FC) returns (out: seq<Bytes>)
    ensures out == names + AttrsNames(p, attrs, fc)
    decreases attrs, 1
  {
    hide AttrNames;
    out := names;
    assert attrs[0..] == attrs;
    for i := 0 to |attrs|
      invariant names + AttrsNames(p, attrs, fc) == out + AttrsNames(p, attrs[i..], fc)
    {
      assert attrs[i..][1..] == attrs[i + 1..];
      out := AppendAttrNames(out, p, attrs[i], fc);
    }
  }

  method AppendObjectNames(names: seq<Bytes>, prefix: Bytes, o: DataObject, fc: FC) returns (out: seq<Bytes>)
    ensures out == names + ObjectNames(prefix, o, fc)
    decreases o, 0
  {
    hide Extend, AttrsNames, ObjectsNames, HasFC;
    if !HasFC(o, fc) {
      assert names + [] == names;
      return names;
    }
    var p := Extend(prefix, o.name);
    out := AppendChildren(names + [p], p, o.attributes, fc);
    out := AppendObjects(out, p, o.objects, fc);
    assert names + [p] + AttrsNames(p, o.attributes, fc) + ObjectsNames(p, o.objects, fc)
        == names + ([p] + AttrsNames(p, o.attributes, fc) + ObjectsNames(p, o.objects, fc));
  }

  method AppendObjects(names: seq<Bytes>, p: Bytes, objs: seq<DataObject>, fc: FC) returns (out: seq<Bytes>)
    ensures out == names + ObjectsNames(p, objs, fc)
    decreases objs, 1
  {
    hide ObjectNames;
    out := names;
    assert objs[0..] == objs;
    for i := 0 to |objs|
      invariant names + ObjectsNames(p, objs, fc) == out + ObjectsNames(p, objs[i..], fc)
    {
      assert objs[i..][1..] == objs[i + 1..];
      out := AppendObjectNames(out, p, objs[i], fc);
    }
  }

  method ListDevice(nodes: seq<LogicalNode>) returns (names: seq<Bytes>)
    ensures names == DeviceNames(nodes)
  {
    hide NamesFrom, DeviceNames;
    names := [];
    assert nodes[0..] == nodes && names + DeviceNames(nodes) == DeviceNames(nodes);
    for i := 0 to |nodes|
      invariant DeviceNames(nodes) == names + DeviceNames(nodes[i..])
    {
      DeviceStep(names, nodes, i);
      names := ListNode(names + [nodes[i].name], nodes[i]);
    }
    NoNodes();
    assert nodes[|nodes|..] == [] && names + [] == names;
  }

  lemma DeviceStep(names: seq<Bytes>, nodes: seq<LogicalNode>, i: nat)
    requires i < |nodes|
    ensures
      names + DeviceNames(nodes[i..]) ==
      names + [nodes[i].name] + NamesFrom(nodes[i], 0) + DeviceNames(nodes[i + 1..])
  {
    hide NamesFrom;
    assert nodes[i..][1..] == nodes[i + 1..];
  }

  lemma NoNodes()
    ensures DeviceNames([]) == []
  {}

  method ListNode(names: seq<Bytes>, ln: LogicalNode) returns (out: seq<Bytes>)
    ensures out == names + NamesFrom(ln, 0)
  {
    hide NodeHasFC, NodeText, Extend, ObjectsNames;
    out := names;
    for fc := 0 to 0x100
      invariant names + NamesFrom(ln, 0) == out + NamesFrom(ln, fc)
    {
      if NodeHasFC(ln, fc) {
        var prefix := Extend(ln.name, NodeText(ln.objects, fc));
        out := AppendObjects(out + [prefix], prefix, ln.objects, fc);
      }
    }
  }

  // The walk down from an object of a node.
  method Walk(o: DataObject, names: seq<Bytes>, fc: FC) returns (place: Place)
    ensures place == Locate(o, names, fc)
  {
    hide ObjectNamed, AttributeNamed, ChildNamed;
    var at, rest := o, names;
    while |rest| > 0
      invariant Locate(o, names, fc) == Locate(at, rest, fc)
    {
      var sub := ObjectNamed(at.objects, rest[0]);
      if sub.None? {
        break;
      }
      at, rest := sub.value, rest[1..];
    }
    if |rest| == 0 {
      return AtObject(at);
    }
    var da := AttributeNamed(at.attributes, rest[0], fc);
    if da.None? {
      return Nowhere;
    }
    var a := da.value;
    rest := rest[1..];
    while |rest| > 0
      invariant Locate(o, names, fc) == Descend(a, rest)
    {
      var c := ChildNamed(a.children, rest[0]);
      if c.None? {
        return Nowhere;
      }
      a, rest := c.value, rest[1..];
    }
    place := AtAttribute(a);
  }
}
