// Browsing a device: the names a server lists are distinct, so a client that
// follows the listing to its end has each of them once, and can read it.

module Browsing {
  import opened Options
  import opened Octets
  import opened MmsData
  import opened MmsTypeSpec
  import opened DataModel
  import opened Access
  import opened NameSpace
  import opened Reads
  import opened Paging
  import opened Listing

  lemma DistinctConcat(a: seq<Bytes>, b: seq<Bytes>)
    requires Distinct(a) && Distinct(b)
    requires forall x, y | x in a && y in b :: x != y
    ensures Distinct(a + b)
  {
    forall i, j | 0 <= i < j < |a + b|
      ensures (a + b)[i] != (a + b)[j]
    {
      if i < |a| <= j {
        assert (a + b)[i] in a && (a + b)[j] in b;
      }
    }
  }

  // The parts of x begin with these, and then comes one of these names.
  ghost predicate Below(x: Bytes, parts: seq<Bytes>, names: set<Bytes>)
  {
    |Split(x)| > |parts| && Split(x)[..|parts|] == parts && Split(x)[|parts|] in names
  }

  ghost predicate AllBelow(xs: seq<Bytes>, parts: seq<Bytes>, names: set<Bytes>)
  {
    forall x | x in xs :: Below(x, parts, names)
  }

  lemma ConcatBelow(xs: seq<Bytes>, ys: seq<Bytes>, parts: seq<Bytes>, a: set<Bytes>, b: set<Bytes>)
    requires AllBelow(xs, parts, a) && AllBelow(ys, parts, b)
    ensures AllBelow(xs + ys, parts, a + b)
    ensures a !! b && Distinct(xs) && Distinct(ys) ==> Distinct(xs + ys)
  {
    hide Split, Distinct;
    if a !! b && Distinct(xs) && Distinct(ys) {
      forall x, y | x in xs && y in ys
        ensures x != y
      {
        assert Below(x, parts, a) && Below(y, parts, b);
      }
      DistinctConcat(xs, ys);
    }
  }

  // What is below a name, with the name itself in front.
  lemma NodeBelow(prefix: Bytes, name: Bytes, xs: seq<Bytes>, names: set<Bytes>)
    requires Plain(name) && AllBelow(xs, Split(prefix) + [name], names) && Distinct(xs)
    ensures AllBelow([Extend(prefix, name)] + xs, Split(prefix), {name})
    ensures Distinct([Extend(prefix, name)] + xs)
  {
    hide Split, Extend, Distinct;
    var p := Extend(prefix, name);
    SplitExtend(prefix, name);
    forall x | x in xs
      ensures Below(x, Split(prefix), {name}) && x != p
    {
      assert Below(x, Split(prefix) + [name], names);
      assert Split(x)[..|Split(prefix)|] == (Split(prefix) + [name])[..|Split(prefix)|] == Split(prefix);
      assert Split(x)[|Split(prefix)|] == (Split(prefix) + [name])[|Split(prefix)|];
    }
    assert Below(p, Split(prefix), {name});
    OneDistinct(p);
    DistinctConcat([p], xs);
  }

  lemma OneDistinct(x: Bytes)
    ensures Distinct([x]) && Distinct([])
  {}

  function NamesOf(attrs: seq<Attribute>, fc: FC): set<Bytes>
  {
    set a | a in attrs && a.fc == fc :: a.name
  }

  function ObjectNamesOf(objs: seq<DataObject>): set<Bytes>
  {
    set o | o in objs :: o.name
  }

  lemma NothingBelow(parts: seq<Bytes>, names: set<Bytes>)
    ensures AllBelow([], parts, names) && Distinct([])
  {}

  // Attributes that share no name under the constraint.
  ghost predicate Apart(attrs: seq<Attribute>, fc: FC)
  {
    && (forall i | 0 <= i < |attrs| :: SoundAttribute(attrs[i]))
    && (forall i, j | 0 <= i < j < |attrs| ::
          attrs[i].fc == fc && attrs[j].fc == fc ==> attrs[i].name != attrs[j].name)
  }

  lemma {:induction false} AttributeDistinct(prefix: Bytes, a: Attribute, fc: FC)
    requires SoundAttribute(a) && a.fc == fc
    ensures AllBelow(AttrNames(prefix, a, fc), Split(prefix), {a.name})
    ensures Distinct(AttrNames(prefix, a, fc))
    decreases a, 0
  {
    ChildrenApart(a, fc);
    hide AllBelow, Distinct, Split, Extend, SoundAttribute, AttrsNames, Apart;
    SoundName(a);
    SplitExtend(prefix, a.name);
    AttributesDistinct(Extend(prefix, a.name), a.children, fc);
    NodeBelow(prefix, a.name, AttrsNames(Extend(prefix, a.name), a.children, fc), NamesOf(a.children, fc));
  }

  lemma SoundName(a: Attribute)
    requires SoundAttribute(a)
    ensures Plain(a.name)
  {}

  lemma ChildrenApart(a: Attribute, fc: FC)
    requires SoundAttribute(a)
    ensures Apart(a.children, fc)
  {
    hide Access.Fits;
  }

  lemma {:induction false} AttributesDistinct(prefix: Bytes, attrs: seq<Attribute>, fc: FC)
    requires Apart(attrs, fc)
    ensures AllBelow(AttrsNames(prefix, attrs, fc), Split(prefix), NamesOf(attrs, fc))
    ensures Distinct(AttrsNames(prefix, attrs, fc))
    decreases attrs, 1
  {
    hide AllBelow, Distinct, Split, SoundAttribute, AttrNames;
    if attrs == [] {
      NothingBelow(Split(prefix), {});
      assert NamesOf(attrs, fc) == {};
    } else {
      var rest := AttrsNames(prefix, attrs[1..], fc);
      AttributesDistinct(prefix, attrs[1..], fc);
      NamesSplit(attrs, fc);
      if attrs[0].fc == fc {
        AttributeDistinct(prefix, attrs[0], fc);
        ConcatBelow(AttrNames(prefix, attrs[0], fc), rest, Split(prefix), {attrs[0].name}, NamesOf(attrs[1..], fc));
      } else {
        NotUnder(prefix, attrs[0], fc);
        assert [] + rest == rest;
      }
    }
  }

  lemma NamesSplit(attrs: seq<Attribute>, fc: FC)
    requires attrs != [] && Apart(attrs, fc)
    ensures attrs[0].fc == fc ==>
              && NamesOf(attrs, fc) == {attrs[0].name} + NamesOf(attrs[1..], fc)
              && {attrs[0].name} !! NamesOf(attrs[1..], fc)
    ensures attrs[0].fc != fc ==> NamesOf(attrs, fc) == NamesOf(attrs[1..], fc)
    ensures Apart(attrs[1..], fc)
  {
    hide SoundAttribute;
    assert attrs == [attrs[0]] + attrs[1..];
  }

  lemma {:induction false} ObjectDistinct(prefix: Bytes, o: DataObject, fc: FC)
    requires SoundObject(o)
    ensures AllBelow(ObjectNames(prefix, o, fc), Split(prefix), {o.name})
    ensures Distinct(ObjectNames(prefix, o, fc))
    decreases o, 0
  {
    hide AllBelow, Distinct, Split, Extend, SoundObject, AttrsNames, ObjectsNames, Apart, HasFC, NamesOf, ObjectNamesOf;
    if HasFC(o, fc) {
      var p := Extend(prefix, o.name);
      ObjectShape(o, fc);
      SplitExtend(prefix, o.name);
      AttributesDistinct(p, o.attributes, fc);
      ObjectsDistinct(p, o.objects, fc);
      var attrs, subs := AttrsNames(p, o.attributes, fc), ObjectsNames(p, o.objects, fc);
      ConcatBelow(attrs, subs, Split(p), NamesOf(o.attributes, fc), ObjectNamesOf(o.objects));
      NodeBelow(prefix, o.name, attrs + subs, NamesOf(o.attributes, fc) + ObjectNamesOf(o.objects));
      assert [p] + attrs + subs == [p] + (attrs + subs);
    } else {
      NothingBelow(Split(prefix), {o.name});
    }
  }

  // The parts of a sound object keep apart.
  lemma ObjectShape(o: DataObject, fc: FC)
    requires SoundObject(o)
    ensures Plain(o.name) && Apart(o.attributes, fc)
    ensures NamesOf(o.attributes, fc) !! ObjectNamesOf(o.objects)
    ensures forall i | 0 <= i < |o.objects| :: SoundObject(o.objects[i])
    ensures forall i, j | 0 <= i < j < |o.objects| :: o.objects[i].name != o.objects[j].name
  {
    hide SoundAttribute, Constrained;
    forall i | 0 <= i < |o.attributes|
      ensures SoundAttribute(o.attributes[i])
    {
      assert SoundRoot(o.attributes[i]);
    }
  }

  lemma {:induction false} ObjectsDistinct(prefix: Bytes, objs: seq<DataObject>, fc: FC)
    requires forall i | 0 <= i < |objs| :: SoundObject(objs[i])
    requires forall i, j | 0 <= i < j < |objs| :: objs[i].name != objs[j].name
    ensures AllBelow(ObjectsNames(prefix, objs, fc), Split(prefix), ObjectNamesOf(objs))
    ensures Distinct(ObjectsNames(prefix, objs, fc))
    decreases objs, 1
  {
    hide AllBelow, Distinct, Split, SoundObject, ObjectNames;
    if objs == [] {
      NothingBelow(Split(prefix), ObjectNamesOf(objs));
    } else {
      ObjectDistinct(prefix, objs[0], fc);
      ObjectsDistinct(prefix, objs[1..], fc);
      assert objs == [objs[0]] + objs[1..];
      assert ObjectNamesOf(objs) == {objs[0].name} + ObjectNamesOf(objs[1..]);
      ConcatBelow(
        ObjectNames(prefix, objs[0], fc), ObjectsNames(prefix, objs[1..], fc), Split(prefix),
        {objs[0].name}, ObjectNamesOf(objs[1..]));
    }
  }

  // Below a node, each constraint has its own text.
  lemma ConstraintDistinct(ln: LogicalNode, fc: FC)
    requires SoundNode(ln) && NodeHasFC(ln, fc)
    ensures AllBelow(ConstraintNames(ln, fc), [ln.name], {NodeText(ln.objects, fc)})
    ensures Distinct(ConstraintNames(ln, fc)) && ParseFC(NodeText(ln.objects, fc)) == fc
  {
    var text := NodeText(ln.objects, fc);
    hide AllBelow, Distinct, Split, Extend, SoundObject, ObjectsNames, ObjectNamesOf, HasFC, NodeText, ParseFC, Stands;
    ObjectsTextStands(ln.objects, fc);
    NodeTextStands(ln.objects, fc);
    TextIsPlain(text, fc);
    SplitPlain(ln.name);
    SplitExtend(ln.name, text);
    ObjectsDistinct(Extend(ln.name, text), ln.objects, fc);
    NodeBelow(ln.name, text, ObjectsNames(Extend(ln.name, text), ln.objects, fc), ObjectNamesOf(ln.objects));
  }

  lemma TextIsPlain(text: Bytes, fc: FC)
    requires Stands(text, fc)
    ensures Plain(text) && ParseFC(text) == fc
  {}

  // The texts of the constraints a node has, from one on.
  function TextsFrom(ln: LogicalNode, fc: nat): set<Bytes>
    requires fc <= 0x100
    decreases 0x100 - fc
  {
    if fc == 0x100 then {}
    else (if NodeHasFC(ln, fc) then {NodeText(ln.objects, fc)} else {}) + TextsFrom(ln, fc + 1)
  }

  lemma {:induction false} TextsLater(ln: LogicalNode, fc: nat, text: Bytes)
    requires SoundNode(ln) && fc <= 0x100 && text in TextsFrom(ln, fc)
    ensures ParseFC(text) >= fc
    decreases 0x100 - fc
  {
    hide SoundNode, NodeHasFC, NodeText, ParseFC;
    if NodeHasFC(ln, fc) && text == NodeText(ln.objects, fc) {
      ConstraintDistinct(ln, fc);
    } else {
      TextsLater(ln, fc + 1, text);
    }
  }

  lemma {:induction false} FromDistinct(ln: LogicalNode, fc: nat)
    requires SoundNode(ln) && fc <= 0x100
    ensures AllBelow(NamesFrom(ln, fc), [ln.name], TextsFrom(ln, fc))
    ensures Distinct(NamesFrom(ln, fc))
    decreases 0x100 - fc
  {
    hide AllBelow, Distinct, SoundNode, NodeHasFC, NodeText, ParseFC, ConstraintNames;
    if fc == 0x100 {
      NothingBelow([ln.name], {});
    } else {
      FromDistinct(ln, fc + 1);
      if NodeHasFC(ln, fc) {
        ConstraintDistinct(ln, fc);
        var text := NodeText(ln.objects, fc);
        if text in TextsFrom(ln, fc + 1) {
          TextsLater(ln, fc + 1, text);
        }
        ConcatBelow(ConstraintNames(ln, fc), NamesFrom(ln, fc + 1), [ln.name], {text}, TextsFrom(ln, fc + 1));
      } else {
        assert [] + NamesFrom(ln, fc + 1) == NamesFrom(ln, fc + 1);
        assert {} + TextsFrom(ln, fc + 1) == TextsFrom(ln, fc + 1);
      }
    }
  }

  // All the names of a node begin with its own, which is one of them.
  lemma NodeDistinct(ln: LogicalNode)
    requires SoundNode(ln)
    ensures AllBelow(NodeNames(ln), [], {ln.name}) && Distinct(NodeNames(ln))
    ensures [] !in NodeNames(ln)
  {
    hide Split, NamesFrom, TextsFrom, Distinct;
    FromDistinct(ln, 0);
    SplitPlain(ln.name);
    var rest := NamesFrom(ln, 0);
    forall x | x in rest
      ensures Below(x, [], {ln.name}) && x != ln.name
    {
      assert Below(x, [ln.name], TextsFrom(ln, 0));
      assert Split(x)[0] == Split(x)[..1][0];
    }
    OneDistinct(ln.name);
    DistinctConcat([ln.name], rest);
    EmptyHasOnePart();
  }

  lemma EmptyHasOnePart()
    ensures Split([]) == [[]]
  {}

  function NodeNamesOf(nodes: seq<LogicalNode>): set<Bytes>
  {
    set ln | ln in nodes :: ln.name
  }

  // The names a server lists of a sound device are distinct and not empty.
  lemma {:induction false} DeviceDistinct(nodes: seq<LogicalNode>)
    requires SoundDevice(nodes)
    ensures AllBelow(DeviceNames(nodes), [], NodeNamesOf(nodes))
    ensures Distinct(DeviceNames(nodes)) && [] !in DeviceNames(nodes)
    decreases |nodes|
  {
    hide AllBelow, Distinct, SoundNode, NodeNames;
    if nodes == [] {
      NothingBelow([], NodeNamesOf(nodes));
    } else {
      NodeDistinct(nodes[0]);
      DeviceDistinct(nodes[1..]);
      assert nodes == [nodes[0]] + nodes[1..];
      assert NodeNamesOf(nodes) == {nodes[0].name} + NodeNamesOf(nodes[1..]);
      ConcatBelow(NodeNames(nodes[0]), DeviceNames(nodes[1..]), [], {nodes[0].name}, NodeNamesOf(nodes[1..]));
    }
  }

  // Reading one name

  const CO: Bytes := [0x43, 0x4f]
  const OPER: Bytes := [0x4f, 0x70, 0x65, 0x72]
  const SBOW: Bytes := [0x53, 0x42, 0x4f, 0x77]
  const CANCEL: Bytes := [0x43, 0x61, 0x6e, 0x63, 0x65, 0x6c]
  const SBO: Bytes := [0x53, 0x42, 0x4f]

  // The last of the parts, from i down, that names a control structure.
  function ControlPart(parts: seq<Bytes>, i: int): Option<Bytes>
    requires i < |parts|
    decreases i
  {
    if i < 3 then None
    else if parts[i] == OPER || parts[i] == SBOW || parts[i] == CANCEL || parts[i] == SBO then Some(parts[i])
    else ControlPart(parts, i - 1)
  }

  // A read of the identifier selects a control instead of reading a value.
  predicate Selects(item: Bytes)
  {
    var parts := Split(item);
    |parts| >= 4 && parts[1] == CO && ControlPart(parts, |parts| - 1) == Some(SBO)
  }

  // The last part that names a control structure, from the fourth on, is SBO.
  lemma SelectsExactly(item: Bytes)
    ensures
      var parts := Split(item);
      Selects(item) <==>
      && |parts| >= 4 && parts[1] == [0x43, 0x4f]
      && exists i | 3 <= i < |parts| ::
           && parts[i] == [0x53, 0x42, 0x4f]
           && forall j | i < j < |parts| :: parts[j] !in CONTROLS
  {
    hide Split;
    var parts := Split(item);
    if |parts| >= 4 {
      LastControl(parts, |parts| - 1);
    }
  }

  // Oper, SBOw, Cancel and SBO.
  const CONTROLS: set<Bytes> := {
    [0x4f, 0x70, 0x65, 0x72], [0x53, 0x42, 0x4f, 0x77], [0x43, 0x61, 0x6e, 0x63, 0x65, 0x6c], [0x53, 0x42, 0x4f]}

  lemma {:induction false} LastControl(parts: seq<Bytes>, n: nat)
    requires n < |parts|
    ensures
      ControlPart(parts, n) == Some(SBO) <==>
      exists i | 3 <= i <= n :: parts[i] == SBO && forall j | i < j <= n :: parts[j] !in CONTROLS
    decreases n
  {
    if n >= 3 {
      LastControl(parts, n - 1);
      assert parts[n] in CONTROLS <==> parts[n] in {OPER, SBOW, CANCEL, SBO};
    }
  }

  method IsSelect(item: Bytes) returns (yes: bool)
    ensures yes <==> Selects(item)
  {
    hide Split;
    var parts := Split(item);
    if |parts| < 4 || parts[1] != CO {
      return false;
    }
    var i := |parts| - 1;
    while i >= 3
      invariant 2 <= i < |parts|
      invariant ControlPart(parts, |parts| - 1) == ControlPart(parts, i)
    {
      if parts[i] == OPER || parts[i] == SBOW || parts[i] == CANCEL || parts[i] == SBO {
        return parts[i] == SBO;
      }
      i := i - 1;
    }
    yes := false;
  }

  // readOne: answer is what the selection gives, the object's reference or the
  // empty text.
  function ReadOne(nodes: seq<LogicalNode>, item: Bytes, answer: Bytes): Reading
  {
    if Selects(item) then Reading(VisibleString(answer))
    else
      match NodeNamed(nodes, Split(item)[0])
      case None => NonExistent
      case Some(ln) => ReadItem(ln, item)
  }

  // Every read succeeds. A value read is of the type its name is described by, and
  // is what the leaves below the name hold; what a selection answers is of the type
  // exactly when the name is described as a text.
  ghost predicate Readable(nodes: seq<LogicalNode>, item: Bytes, answer: Bytes)
  {
    && NodeNamed(nodes, Split(item)[0]).Some?
    && var t := DescribeItem(NodeNamed(nodes, Split(item)[0]).value, item);
       var r := ReadOne(nodes, item, answer);
       && t.Some? && r.Reading?
       && if Selects(item) then
            r.value == VisibleString(answer) && (Conforms(r.value, t.value) <==> t.value.VisibleStringType?)
          else
            Conforms(r.value, t.value) && Leaves(r.value) == HeldAt(NodeNamed(nodes, Split(item)[0]).value, item)
  }

  lemma ListedIsReadable(nodes: seq<LogicalNode>, item: Bytes, answer: Bytes)
    requires SoundDevice(nodes) && item in DeviceNames(nodes) && |Split(item)| >= 2
    ensures Readable(nodes, item, answer)
  {
    hide SoundDevice, DeviceNames, ReadItem, DescribeItem, Split, Selects, NodeNamed, Leaves, HeldAt, Conforms;
    NamesAreServed(nodes, item);
    var ln := NodeNamed(nodes, Split(item)[0]).value;
    if Selects(item) {
      TextConforms(answer, DescribeItem(ln, item).value);
    } else {
      ReadsWhatIsHeld(ln, item);
    }
  }

  lemma TextConforms(text: Bytes, t: TypeSpec)
    ensures Conforms(VisibleString(text), t) <==> t.VisibleStringType?
  {}

  // A client that lists a sound device, reading the octets of the server's
  // responses, gets exactly the names the server has for it, each once, and can
  // read every one of them from the level of constraints down.
  lemma DeviceIsBrowsed(nodes: seq<LogicalNode>, peer: NamePeer, maxPDU: nat, invoke: nat -> uint32, answer: Bytes)
    requires SoundDevice(nodes) && |DeviceNames(nodes)| <= 0x10_0000 && NamesSize(DeviceNames(nodes)) < 0x8000_0000
    requires NamesServed(peer, DeviceNames(nodes), maxPDU, invoke)
    requires Room(NAME_LIST, NameItems(DeviceNames(nodes)), maxPDU, invoke)
    ensures Follow(Names, Decoding(peer), 0, [], []) == Complete(NameItems(DeviceNames(nodes)))
    ensures forall item | item in DeviceNames(nodes) && |Split(item)| >= 2 :: Readable(nodes, item, answer)
  {
    hide *;
    DeviceDistinct(nodes);
    NameListComplete(peer, DeviceNames(nodes), maxPDU, invoke);
    forall item | item in DeviceNames(nodes) && |Split(item)| >= 2
      ensures Readable(nodes, item, answer)
    {
      ListedIsReadable(nodes, item, answer);
    }
  }
}
