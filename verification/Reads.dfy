// What a read by name gives (server/access.go): the leaf a name leads to, the
// members of what a name leads to, and the names of those members.

module Reads {
  import opened Options
  import opened Octets
  import opened MmsData
  import opened MmsTypeSpec
  import opened DataModel
  import opened Access
  import opened NameSpace

  // Leaves

  // A leaf that holds nothing stands for false.
  function Held(a: Attribute): Value { if a.value.Some? then a.value.value else Boolean(false) }

  // Of any tree: a name that leads to a leaf reads as what the leaf holds; only a
  // leaf of an unknown basic type that holds nothing cannot be read.
  lemma LeafReads(ln: LogicalNode, item: Bytes, fc: FC, a: Attribute)
    requires LeadsTo(ln, item, fc, AtAttribute(a)) && a.children == []
    ensures ReadItem(ln, item) == if a.value.None? && a.kind.NoKind? then TypeInconsistent else Reading(Held(a))
  {
    hide Find, Split, ParseFC;
  }

  // What the leaves below a name hold under its constraint.
  function HeldAt(ln: LogicalNode, item: Bytes): seq<Value>
  {
    var parts := Split(item);
    if |parts| < 2 then []
    else if |parts| == 2 then HeldByObjects(ln.objects, ParseFC(parts[1]))
    else
      match Find(ln, parts)
      case Nowhere => []
      case AtObject(o) => HeldUnder(o, ParseFC(parts[1]))
      case AtAttribute(a) => HeldBy(a)
  }

  // Of any tree: whatever is read by name is, leaf by leaf and in order, what the
  // leaves below the name hold.
  lemma ReadsWhatIsHeld(ln: LogicalNode, item: Bytes)
    requires ReadItem(ln, item).Reading?
    ensures Leaves(ReadItem(ln, item).value) == HeldAt(ln, item)
  {
    hide Split, ParseFC, Find, Leaves, HeldBy, HeldUnder, HeldByObjects, DaValue, DoValue, DoValues;
    hide Access.Valued, Composable;
    var parts := Split(item);
    if |parts| == 2 {
      ObjectsLeaves(ln.objects, ParseFC(parts[1]));
      LeavesOfMembers(DoValues(ln.objects, ParseFC(parts[1])));
    } else {
      match Find(ln, parts)
      case AtObject(o) => ObjectLeaves(o, ParseFC(parts[1]));
      case AtAttribute(a) =>
        ValuedExactly(a);
        AttributeLeaves(a);
    }
  }

  // The leaves of a node by name

  datatype Leaf = Leaf(item: Bytes, held: Value)

  function AttrLeaves(prefix: Bytes, a: Attribute, fc: FC): seq<Leaf>
    decreases a, 0
  {
    if a.fc != fc then []
    else if a.children == [] then [Leaf(Extend(prefix, a.name), Held(a))]
    else AttrsLeaves(Extend(prefix, a.name), a.children, fc)
  }

  function AttrsLeaves(prefix: Bytes, attrs: seq<Attribute>, fc: FC): seq<Leaf>
    decreases attrs, 1
  {
    if attrs == [] then [] else AttrLeaves(prefix, attrs[0], fc) + AttrsLeaves(prefix, attrs[1..], fc)
  }

  function ObjLeaves(prefix: Bytes, o: DataObject, fc: FC): seq<Leaf>
    decreases o, 0
  {
    var p := Extend(prefix, o.name);
    AttrsLeaves(p, o.attributes, fc) + ObjsLeaves(p, o.objects, fc)
  }

  function ObjsLeaves(prefix: Bytes, objs: seq<DataObject>, fc: FC): seq<Leaf>
    decreases objs, 1
  {
    if objs == [] then [] else ObjLeaves(prefix, objs[0], fc) + ObjsLeaves(prefix, objs[1..], fc)
  }

  // The leaves of a node under a constraint.
  function NodeLeaves(ln: LogicalNode, fc: FC): seq<Leaf>
  {
    ObjsLeaves(Extend(ln.name, NodeText(ln.objects, fc)), ln.objects, fc)
  }

  // Each leaf is in the list of names and reads as what it holds.
  ghost predicate AllRead(ln: LogicalNode, leaves: seq<Leaf>, names: seq<Bytes>)
  {
    forall x | x in leaves :: x.item in names && ReadItem(ln, x.item) == Reading(x.held)
  }

  lemma AllReadConcat(
    ln: LogicalNode, xs: seq<Leaf>, ys: seq<Leaf>, names: seq<Bytes>, more: seq<Bytes>, first: seq<Bytes>)
    requires AllRead(ln, xs, names) && AllRead(ln, ys, more)
    ensures AllRead(ln, xs + ys, names + more) && AllRead(ln, xs + ys, first + names + more)
  {
    hide ReadItem;
  }

  lemma {:induction false} AttributeLeavesRead(ln: LogicalNode, prefix: Bytes, a: Attribute, fc: FC)
    requires SoundAttribute(a) && a.fc == fc
    requires LeadsTo(ln, Extend(prefix, a.name), fc, AtAttribute(a))
    ensures AllRead(ln, AttrLeaves(prefix, a, fc), AttrNames(prefix, a, fc))
    decreases a, 0
  {
    hide LeadsTo, ReadItem, Extend, AttrsNames, AttrsLeaves, Fits, Plain;
    var p := Extend(prefix, a.name);
    if a.children == [] {
      LeafReads(ln, p, fc, a);
    } else {
      ChildrenLeavesRead(ln, p, a, fc, 0);
      assert a.children[0..] == a.children;
    }
  }

  lemma {:induction false} ChildrenLeavesRead(ln: LogicalNode, prefix: Bytes, a: Attribute, fc: FC, i: nat)
    requires SoundAttribute(a) && a.fc == fc && i <= |a.children|
    requires LeadsTo(ln, prefix, fc, AtAttribute(a))
    ensures AllRead(ln, AttrsLeaves(prefix, a.children[i..], fc), AttrsNames(prefix, a.children[i..], fc))
    decreases a.children, |a.children| - i
  {
    hide LeadsTo, Extend, AttrNames, AttrLeaves, Fits, Plain, AllRead;
    if i < |a.children| {
      var c, rest := a.children[i], a.children[i + 1..];
      assert SoundAttribute(c) && c.fc == fc;
      SoundChild(c);
      ChildFound(a.children, i);
      ChildLeads(ln, prefix, fc, a, c);
      AttributeLeavesRead(ln, prefix, c, fc);
      ChildrenLeavesRead(ln, prefix, a, fc, i + 1);
      assert a.children[i..][1..] == rest;
      AllReadConcat(
        ln, AttrLeaves(prefix, c, fc), AttrsLeaves(prefix, rest, fc),
        AttrNames(prefix, c, fc), AttrsNames(prefix, rest, fc), []);
    } else {
      NoLeaves(ln);
    }
  }

  lemma NoLeaves(ln: LogicalNode)
    ensures AllRead(ln, [], [])
  {}

  lemma SoundChild(c: Attribute)
    requires SoundAttribute(c)
    ensures Plain(c.name)
  {}

  lemma {:induction false} ObjectLeavesRead(ln: LogicalNode, prefix: Bytes, o: DataObject, fc: FC)
    requires SoundObject(o)
    requires LeadsTo(ln, Extend(prefix, o.name), fc, AtObject(o))
    ensures AllRead(ln, ObjLeaves(prefix, o, fc), ObjectNames(prefix, o, fc))
    decreases o, 0
  {
    hide LeadsTo, Extend, SoundObject, HasFC, AllRead, AttrsLeaves, ObjsLeaves, AttrsNames, ObjectsNames;
    var p := Extend(prefix, o.name);
    RootLeavesRead(ln, p, o, fc, 0);
    assert o.attributes[0..] == o.attributes;
    SubLeavesRead(ln, p, o, fc, 0);
    assert o.objects[0..] == o.objects;
    if HasFC(o, fc) {
      AllReadConcat(
        ln, AttrsLeaves(p, o.attributes, fc), ObjsLeaves(p, o.objects, fc),
        AttrsNames(p, o.attributes, fc), ObjectsNames(p, o.objects, fc), [p]);
    } else {
      LeavesHaveFC(prefix, o, fc);
      NoLeaves(ln);
    }
  }

  lemma {:induction false} RootLeavesRead(ln: LogicalNode, prefix: Bytes, o: DataObject, fc: FC, i: nat)
    requires SoundObject(o) && i <= |o.attributes|
    requires LeadsTo(ln, prefix, fc, AtObject(o))
    ensures AllRead(ln, AttrsLeaves(prefix, o.attributes[i..], fc), AttrsNames(prefix, o.attributes[i..], fc))
    decreases |o.attributes| - i
  {
    hide LeadsTo, Extend, AttrNames, AttrLeaves, SoundObject, AllRead;
    NoLeaves(ln);
    if i < |o.attributes| {
      var a, rest := o.attributes[i], o.attributes[i + 1..];
      if a.fc == fc {
        RootLeads(ln, prefix, fc, o, i);
        AttributeLeavesRead(ln, prefix, a, fc);
      } else {
        NotUnder(prefix, a, fc);
        NoLeafUnder(prefix, a, fc);
      }
      RootLeavesRead(ln, prefix, o, fc, i + 1);
      assert o.attributes[i..][1..] == rest;
      AllReadConcat(
        ln, AttrLeaves(prefix, a, fc), AttrsLeaves(prefix, rest, fc),
        AttrNames(prefix, a, fc), AttrsNames(prefix, rest, fc), []);
    }
  }

  lemma NoLeafUnder(prefix: Bytes, a: Attribute, fc: FC)
    requires a.fc != fc
    ensures AttrLeaves(prefix, a, fc) == []
  {}

  lemma {:induction false} SubLeavesRead(ln: LogicalNode, prefix: Bytes, o: DataObject, fc: FC, i: nat)
    requires SoundObject(o) && i <= |o.objects|
    requires LeadsTo(ln, prefix, fc, AtObject(o))
    ensures AllRead(ln, ObjsLeaves(prefix, o.objects[i..], fc), ObjectsNames(prefix, o.objects[i..], fc))
    decreases o.objects, |o.objects| - i
  {
    hide LeadsTo, Extend, ObjectNames, ObjLeaves, SoundObject, AllRead;
    NoLeaves(ln);
    if i < |o.objects| {
      var sub, rest := o.objects[i], o.objects[i + 1..];
      SubLeads(ln, prefix, fc, o, i);
      ObjectLeavesRead(ln, prefix, sub, fc);
      SubLeavesRead(ln, prefix, o, fc, i + 1);
      assert o.objects[i..][1..] == rest;
      AllReadConcat(
        ln, ObjLeaves(prefix, sub, fc), ObjsLeaves(prefix, rest, fc),
        ObjectNames(prefix, sub, fc), ObjectsNames(prefix, rest, fc), []);
    }
  }

  // An object without the constraint has no leaf under it.
  lemma {:induction false} LeavesHaveFC(prefix: Bytes, o: DataObject, fc: FC)
    requires !HasFC(o, fc)
    ensures ObjLeaves(prefix, o, fc) == []
    decreases o, 0
  {
    hide Extend, AttrsLeaves, ObjsLeaves;
    var p := Extend(prefix, o.name);
    RootsHaveFC(p, o.attributes, fc);
    ObjectsHaveFC(p, o.objects, fc);
  }

  lemma {:induction false} RootsHaveFC(prefix: Bytes, attrs: seq<Attribute>, fc: FC)
    requires forall i | 0 <= i < |attrs| :: attrs[i].fc != fc
    ensures AttrsLeaves(prefix, attrs, fc) == []
    decreases |attrs|
  {
    if attrs != [] {
      RootsHaveFC(prefix, attrs[1..], fc);
    }
  }

  lemma {:induction false} ObjectsHaveFC(prefix: Bytes, objs: seq<DataObject>, fc: FC)
    requires forall i | 0 <= i < |objs| :: !HasFC(objs[i], fc)
    ensures ObjsLeaves(prefix, objs, fc) == []
    decreases objs, 1
  {
    hide HasFC;
    if objs != [] {
      LeavesHaveFC(prefix, objs[0], fc);
      ObjectsHaveFC(prefix, objs[1..], fc);
    }
  }

  lemma {:induction false} TopLeavesRead(ln: LogicalNode, text: Bytes, fc: FC, i: nat)
    requires SoundNode(ln) && Stands(text, fc) && i <= |ln.objects|
    ensures
      var prefix := Extend(ln.name, text);
      AllRead(ln, ObjsLeaves(prefix, ln.objects[i..], fc), ObjectsNames(prefix, ln.objects[i..], fc))
    decreases |ln.objects| - i
  {
    hide Extend, ObjectNames, ObjLeaves, SoundNode, SoundObject, LeadsTo, Stands, Split, AllRead;
    NoLeaves(ln);
    if i < |ln.objects| {
      var prefix, o, rest := Extend(ln.name, text), ln.objects[i], ln.objects[i + 1..];
      TopLeads(ln, text, fc, i);
      ObjectLeavesRead(ln, prefix, o, fc);
      TopLeavesRead(ln, text, fc, i + 1);
      assert ln.objects[i..][1..] == rest;
      AllReadConcat(
        ln, ObjLeaves(prefix, o, fc), ObjsLeaves(prefix, rest, fc),
        ObjectNames(prefix, o, fc), ObjectsNames(prefix, rest, fc), []);
    }
  }

  // Every leaf of a sound node is in the list of names, under the name its place
  // in the tree gives it, and that name reads as exactly what the leaf holds.
  lemma LeavesAreRead(ln: LogicalNode, fc: FC, x: Leaf)
    requires SoundNode(ln) && NodeHasFC(ln, fc) && x in NodeLeaves(ln, fc)
    ensures x.item in NodeNames(ln) && ReadItem(ln, x.item) == Reading(x.held)
  {
    hide Extend, SoundObject, HasFC, Stands, ReadItem, ObjectsNames, ObjsLeaves, NodeText, NamesFrom, NodeNames;
    ObjectsTextStands(ln.objects, fc);
    NodeTextStands(ln.objects, fc);
    TopLeavesRead(ln, NodeText(ln.objects, fc), fc, 0);
    assert ln.objects[0..] == ln.objects;
    ListedUnder(ln, fc, x.item);
  }

  // Members

  // The components of a structure, or of the structures an array is made of.
  function Columns(t: TypeSpec): seq<Component>
  {
    match t
    case StructureType(cs) => cs
    case ArrayType(_, StructureType(cs)) => cs
    case _ => []
  }

  // The structure a value is, or those it is an array of.
  function Rows(v: Value): seq<Value> { if v.Array? then v.children else [v] }

  // The k-th member of every row is what the name of the k-th column reads as, and
  // of the type that name is described with.
  ghost predicate MembersRead(ln: LogicalNode, item: Bytes, v: Value, t: TypeSpec)
  {
    forall k | 0 <= k < |Columns(t)| ::
      && DescribeItem(ln, Extend(item, Columns(t)[k].name)) == Some(Columns(t)[k].spec)
      && forall r | r in Rows(v) ::
           && r.Structure? && |r.children| == |Columns(t)|
           && ReadItem(ln, Extend(item, Columns(t)[k].name)) == Reading(r.children[k])
  }

  lemma {:induction false} AttributeAt(attrs: seq<Attribute>, k: nat)
    requires DaValues(attrs).Some? && k < |attrs|
    ensures DaValue(attrs[k]) == Some(DaValues(attrs).value[k])
    ensures DaTypes(attrs)[k] == Component(attrs[k].name, DaType(attrs[k]))
    decreases |attrs|
  {
    hide DaValue, DaType;
    if k > 0 {
      AttributeAt(attrs[1..], k - 1);
    }
  }

  lemma {:induction false} RootAt(attrs: seq<Attribute>, fc: FC, k: nat) returns (i: nat)
    requires k < |Under(attrs, fc)|
    ensures i < |attrs| && attrs[i].fc == fc && Under(attrs, fc)[k] == attrs[i]
    decreases |attrs|
  {
    var a, rest := attrs[0], attrs[1..];
    if a.fc != fc {
      assert Under(attrs, fc) == Under(rest, fc);
      i := RootAt(rest, fc, k);
      i := i + 1;
    } else if k > 0 {
      assert Under(attrs, fc)[k] == Under(rest, fc)[k - 1];
      i := RootAt(rest, fc, k - 1);
      i := i + 1;
    } else {
      i := 0;
    }
  }

  lemma {:induction false} ObjectAt(objs: seq<DataObject>, fc: FC, k: nat) returns (i: nat)
    requires forall j | 0 <= j < |objs| :: DoValue(objs[j], fc).Some? <==> HasFC(objs[j], fc)
    requires k < |DoTypes(objs, fc)|
    ensures i < |objs| && HasFC(objs[i], fc) && |DoValues(objs, fc)| == |DoTypes(objs, fc)|
    ensures DoValue(objs[i], fc) == Some(DoValues(objs, fc)[k])
    ensures DoTypes(objs, fc)[k] == Component(objs[i].name, DoType(objs[i], fc))
    decreases |objs|
  {
    hide DoValue, DoType, HasFC;
    SameNumber(objs, fc);
    if HasFC(objs[0], fc) && k == 0 {
      i := 0;
    } else {
      i := ObjectAt(objs[1..], fc, if HasFC(objs[0], fc) then k - 1 else k);
      i := i + 1;
    }
  }

  lemma {:induction false} SameNumber(objs: seq<DataObject>, fc: FC)
    requires forall j | 0 <= j < |objs| :: DoValue(objs[j], fc).Some? <==> HasFC(objs[j], fc)
    ensures |DoValues(objs, fc)| == |DoTypes(objs, fc)|
    decreases |objs|
  {
    hide DoValue, DoType, HasFC;
    if objs != [] {
      SameNumber(objs[1..], fc);
    }
  }

  lemma AttributeIsRead(ln: LogicalNode, item: Bytes, fc: FC, a: Attribute)
    requires LeadsTo(ln, item, fc, AtAttribute(a)) && DaValue(a).Some?
    ensures ReadItem(ln, item) == Reading(DaValue(a).value) && DescribeItem(ln, item) == Some(DaType(a))
  {
    hide Find, Split, ParseFC, DaValue, DaType;
  }

  lemma ObjectIsRead(ln: LogicalNode, item: Bytes, fc: FC, o: DataObject)
    requires LeadsTo(ln, item, fc, AtObject(o)) && DoValue(o, fc).Some?
    ensures ReadItem(ln, item) == Reading(DoValue(o, fc).value) && DescribeItem(ln, item) == Some(DoType(o, fc))
  {
    hide Find, Split, ParseFC, DoValue, DoType;
  }

  // The k-th child of an attribute by its name.
  lemma ChildIsRead(ln: LogicalNode, item: Bytes, fc: FC, a: Attribute, k: nat)
    requires LeadsTo(ln, item, fc, AtAttribute(a)) && SoundAttribute(a) && k < |a.children|
    ensures DaValues(a.children).Some?
    ensures
      var c := a.children[k];
      && DaTypes(a.children)[k].name == c.name
      && ReadItem(ln, Extend(item, c.name)) == Reading(DaValues(a.children).value[k])
      && DescribeItem(ln, Extend(item, c.name)) == Some(DaTypes(a.children)[k].spec)
  {
    hide LeadsTo, ReadItem, DescribeItem, Extend, DaValue, DaType, Conforms, Fits, Plain, ConformAll;
    var c := a.children[k];
    assert SoundAttribute(c);
    SoundChild(c);
    SoundChildren(a);
    AttributesConform(a.children);
    AttributeAt(a.children, k);
    ChildFound(a.children, k);
    ChildLeads(ln, item, fc, a, c);
    AttributeIsRead(ln, Extend(item, c.name), fc, c);
  }

  lemma SoundChildren(a: Attribute)
    requires SoundAttribute(a)
    ensures SoundAttributes(a.children)
  {}

  lemma LeafHasNoColumns(b: BType, v: DataModel.Held)
    ensures Columns(LeafType(b, v)) == []
  {
    if v.Array? && |v.children| > 0 {
      HeldStructure(v.children[0]);
    }
  }

  // A structure a leaf holds is described without its members.
  lemma HeldStructure(v: DataModel.Held)
    ensures ValueType(v).StructureType? ==> ValueType(v).components == []
  {}

  lemma AttributeMembersRead(ln: LogicalNode, item: Bytes, fc: FC, a: Attribute)
    requires LeadsTo(ln, item, fc, AtAttribute(a)) && SoundAttribute(a) && DaValue(a).Some?
    ensures MembersRead(ln, item, DaValue(a).value, DaType(a))
  {
    hide LeadsTo, ReadItem, DescribeItem, Extend, SoundAttribute, DaValues, DaTypes, LeafType;
    if a.children == [] {
      if a.value.Some? {
        LeafHasNoColumns(a.btype, a.value.value);
      }
    } else {
      var cs := DaTypes(a.children);
      assert Columns(DaType(a)) == cs;
      forall k | 0 <= k < |cs|
        ensures DescribeItem(ln, Extend(item, cs[k].name)) == Some(cs[k].spec)
        ensures ReadItem(ln, Extend(item, cs[k].name)) == Reading(DaValues(a.children).value[k])
      {
        ChildIsRead(ln, item, fc, a, k);
      }
      forall r | r in Rows(DaValue(a).value)
        ensures r == Structure(DaValues(a.children).value)
      {}
    }
  }

  // The k-th component of an object under the constraint by its name: an
  // attribute, or an object below it.
  lemma RootIsRead(ln: LogicalNode, item: Bytes, fc: FC, o: DataObject, k: nat)
    requires LeadsTo(ln, item, fc, AtObject(o)) && SoundObject(o) && k < |Under(o.attributes, fc)|
    ensures DaValues(Under(o.attributes, fc)).Some?
    ensures
      var under := Under(o.attributes, fc);
      var c := DaTypes(under)[k];
      && ReadItem(ln, Extend(item, c.name)) == Reading(DaValues(under).value[k])
      && DescribeItem(ln, Extend(item, c.name)) == Some(c.spec)
  {
    hide LeadsTo, ReadItem, DescribeItem, Extend, SoundObject, SoundAttributes, DaValue, DaType, Under, ConformAll;
    var under := Under(o.attributes, fc);
    ObjectParts(o);
    UnderSound(o.attributes, fc);
    AttributesConform(under);
    AttributeAt(under, k);
    var i := RootAt(o.attributes, fc, k);
    RootLeads(ln, item, fc, o, i);
    AttributeIsRead(ln, Extend(item, under[k].name), fc, under[k]);
  }

  lemma SubIsRead(ln: LogicalNode, item: Bytes, fc: FC, o: DataObject, k: nat)
    requires LeadsTo(ln, item, fc, AtObject(o)) && SoundObject(o) && k < |DoTypes(o.objects, fc)|
    ensures |DoValues(o.objects, fc)| == |DoTypes(o.objects, fc)|
    ensures
      var c := DoTypes(o.objects, fc)[k];
      && ReadItem(ln, Extend(item, c.name)) == Reading(DoValues(o.objects, fc)[k])
      && DescribeItem(ln, Extend(item, c.name)) == Some(c.spec)
  {
    hide LeadsTo, ReadItem, DescribeItem, Extend, SoundObject, DoValue, DoType, DoTypes, DoValues, HasFC, Conforms;
    ObjectParts(o);
    ObjectsValued(o.objects, fc);
    var i := ObjectAt(o.objects, fc, k);
    SubLeads(ln, item, fc, o, i);
    ObjectIsRead(ln, Extend(item, o.objects[i].name), fc, o.objects[i]);
  }

  lemma ObjectsValued(objs: seq<DataObject>, fc: FC)
    requires forall i | 0 <= i < |objs| :: SoundObject(objs[i])
    ensures forall i | 0 <= i < |objs| :: DoValue(objs[i], fc).Some? <==> HasFC(objs[i], fc)
  {
    hide SoundObject, DoValue, DoType, HasFC, Conforms;
    forall i | 0 <= i < |objs|
      ensures DoValue(objs[i], fc).Some? <==> HasFC(objs[i], fc)
    {
      ObjectConforms(objs[i], fc);
    }
  }

  lemma StructureMembers(ln: LogicalNode, item: Bytes, members: seq<Value>, cs: seq<Component>)
    requires |members| == |cs|
    requires forall k | 0 <= k < |cs| :: DescribeItem(ln, Extend(item, cs[k].name)) == Some(cs[k].spec)
    requires forall k | 0 <= k < |cs| :: ReadItem(ln, Extend(item, cs[k].name)) == Reading(members[k])
    ensures MembersRead(ln, item, Structure(members), StructureType(cs))
  {
    hide DescribeItem, ReadItem, Extend;
    var v, t := Structure(members), StructureType(cs);
    assert Columns(t) == cs;
    forall r | r in Rows(v)
      ensures r.Structure? && r.children == members
    {}
    forall k | 0 <= k < |cs|
      ensures DescribeItem(ln, Extend(item, cs[k].name)) == Some(cs[k].spec)
      ensures ReadItem(ln, Extend(item, cs[k].name)) == Reading(members[k])
    {}
  }

  lemma ObjectMembersRead(ln: LogicalNode, item: Bytes, fc: FC, o: DataObject)
    requires LeadsTo(ln, item, fc, AtObject(o)) && SoundObject(o) && HasFC(o, fc)
    ensures DoValue(o, fc).Some? && MembersRead(ln, item, DoValue(o, fc).value, DoType(o, fc))
  {
    hide LeadsTo, ReadItem, DescribeItem, Extend, SoundObject, DaValues, DaTypes, DoValues, DoTypes, Under, HasFC;
    hide Conforms, SoundAttributes, ConformAll;
    ObjectsValued([o], fc);
    assert [o][0] == o;
    ObjectParts(o);
    ObjectsValued(o.objects, fc);
    SameNumber(o.objects, fc);
    UnderSound(o.attributes, fc);
    AttributesConform(Under(o.attributes, fc));
    var n := |Under(o.attributes, fc)|;
    var cs := DaTypes(Under(o.attributes, fc)) + DoTypes(o.objects, fc);
    forall k | 0 <= k < |cs|
      ensures DescribeItem(ln, Extend(item, cs[k].name)) == Some(cs[k].spec)
      ensures ReadItem(ln, Extend(item, cs[k].name)) == Reading(DoValue(o, fc).value.children[k])
    {
      if k < n {
        RootIsRead(ln, item, fc, o, k);
      } else {
        SubIsRead(ln, item, fc, o, k - n);
      }
    }
    StructureMembers(ln, item, DoValue(o, fc).value.children, cs);
  }

  lemma ConstraintMembersRead(ln: LogicalNode, text: Bytes, fc: FC)
    requires SoundNode(ln) && Stands(text, fc)
    ensures
      MembersRead(
        ln, Extend(ln.name, text), Structure(DoValues(ln.objects, fc)), StructureType(DoTypes(ln.objects, fc)))
  {
    hide LeadsTo, ReadItem, DescribeItem, Extend, SoundObject, DoValue, DoType, DoValues, DoTypes, HasFC, Stands;
    ObjectsValued(ln.objects, fc);
    SameNumber(ln.objects, fc);
    var item, cs := Extend(ln.name, text), DoTypes(ln.objects, fc);
    forall k | 0 <= k < |cs|
      ensures DescribeItem(ln, Extend(item, cs[k].name)) == Some(cs[k].spec)
      ensures ReadItem(ln, Extend(item, cs[k].name)) == Reading(DoValues(ln.objects, fc)[k])
    {
      var i := ObjectAt(ln.objects, fc, k);
      TopLeads(ln, text, fc, i);
      ObjectIsRead(ln, Extend(item, ln.objects[i].name), fc, ln.objects[i]);
    }
    StructureMembers(ln, item, DoValues(ln.objects, fc), cs);
  }

  // Everything a sound node lists reads member by member as the names of its
  // components do: the k-th member of what a name reads as is what the name of
  // the k-th component of its type reads as, in every element of an array.
  lemma MembersAreRead(ln: LogicalNode, item: Bytes)
    requires SoundNode(ln) && item in NodeNames(ln) && |Split(item)| >= 2
    ensures ReadItem(ln, item).Reading? && DescribeItem(ln, item).Some?
    ensures MembersRead(ln, item, ReadItem(ln, item).value, DescribeItem(ln, item).value)
  {
    hide *;
    ListedIsServed(ln, item);
    if |Split(item)| == 2 {
      ConstraintRead(ln, item);
    } else {
      PlaceRead(ln, item);
    }
  }

  lemma ListedIsServed(ln: LogicalNode, item: Bytes)
    requires SoundNode(ln) && item in NodeNames(ln) && |Split(item)| >= 2
    ensures Split(item)[0] == ln.name && Placed(ln, item)
    ensures ReadItem(ln, item).Reading? && DescribeItem(ln, item).Some?
  {
    hide SoundNode, NamesFrom, Split, Placed, ReadItem, DescribeItem, Conforms;
    NodeNameAlone(ln);
    FromServed(ln, 0);
  }

  lemma PlaceRead(ln: LogicalNode, item: Bytes)
    requires Split(item)[0] == ln.name && |Split(item)| >= 3 && Placed(ln, item)
    requires ReadItem(ln, item).Reading? && DescribeItem(ln, item).Some?
    ensures MembersRead(ln, item, ReadItem(ln, item).value, DescribeItem(ln, item).value)
  {
    hide Split, Find, ParseFC, SoundObject, SoundAttribute, HasFC, MembersRead, DaValue, DaType, DoValue, DoType;
    var fc := ParseFC(Split(item)[1]);
    match Find(ln, Split(item))
    case AtObject(o) =>
      ObjectMembersRead(ln, item, fc, o);
    case AtAttribute(a) =>
      AttributeMembersRead(ln, item, fc, a);
  }

  // An identifier of two parts is a node's name and a text for a constraint.
  lemma ConstraintRead(ln: LogicalNode, item: Bytes)
    requires SoundNode(ln) && Split(item)[0] == ln.name && |Split(item)| == 2
    requires ReadItem(ln, item).Reading? && DescribeItem(ln, item).Some?
    ensures MembersRead(ln, item, ReadItem(ln, item).value, DescribeItem(ln, item).value)
  {
    hide Split, ParseFC, SoundNode, MembersRead, DoValues, DoTypes, Extend;
    var text := Split(item)[1];
    SplitTwo(item);
    ConstraintMembersRead(ln, text, ParseFC(text));
  }

  lemma SplitTwo(item: Bytes)
    requires |Split(item)| == 2
    ensures item == Extend(Split(item)[0], Split(item)[1]) && Plain(Split(item)[1])
  {
    SplitJoins(item);
  }

  // The parts of an identifier have no dollar sign, and joined by one give the
  // identifier back.
  lemma {:induction false} SplitJoins(s: Bytes)
    ensures forall p | p in Split(s) :: Plain(p)
    ensures |Split(s)| == 1 ==> s == Split(s)[0]
    ensures |Split(s)| == 2 ==> s == Extend(Split(s)[0], Split(s)[1])
    decreases |s|
  {
    if s != [] {
      var most, c := s[..|s| - 1], s[|s| - 1];
      SplitJoins(most);
      var parts := Split(most);
      assert s == most + [c];
      forall p | p in Split(s)
        ensures Plain(p)
      {
        if c == DOLLAR {
          assert p in parts || p == [];
        } else {
          assert p in parts[..|parts| - 1] || p == parts[|parts| - 1] + [c];
          assert parts[|parts| - 1] in parts;
        }
      }
    }
  }

  // The names of components

  // Those of the names that have n parts.
  function Level(items: seq<Bytes>, n: nat): seq<Bytes>
  {
    if items == [] then [] else (if |Split(items[0])| == n then [items[0]] else []) + Level(items[1..], n)
  }

  function ComponentNames(prefix: Bytes, cs: seq<Component>): seq<Bytes>
  {
    seq(|cs|, k requires 0 <= k < |cs| => Extend(prefix, cs[k].name))
  }

  lemma {:induction false} LevelConcat(xs: seq<Bytes>, ys: seq<Bytes>, n: nat)
    ensures Level(xs + ys, n) == Level(xs, n) + Level(ys, n)
    decreases |xs|
  {
    hide Split;
    if xs == [] {
      assert xs + ys == ys;
    } else {
      assert (xs + ys)[1..] == xs[1..] + ys;
      LevelConcat(xs[1..], ys, n);
    }
  }

  lemma {:induction false} NoneAtLevel(items: seq<Bytes>, n: nat)
    requires forall x | x in items :: |Split(x)| > n
    ensures Level(items, n) == []
    decreases |items|
  {
    hide Split;
    if items != [] {
      NoneAtLevel(items[1..], n);
    }
  }

  // Everything below a prefix has more parts than the prefix.
  ghost predicate Deeper(items: seq<Bytes>, prefix: Bytes)
  {
    forall x | x in items :: |Split(x)| > |Split(prefix)|
  }

  lemma {:induction false} AttributeDeeper(prefix: Bytes, a: Attribute, fc: FC)
    requires SoundAttribute(a)
    ensures Deeper(AttrNames(prefix, a, fc), prefix)
    decreases a, 0
  {
    hide Split, Extend, Fits, Plain, AttrsNames;
    if a.fc == fc {
      SoundChild(a);
      SplitExtend(prefix, a.name);
      SoundChildren(a);
      AttributesDeeper(Extend(prefix, a.name), a.children, fc);
    }
  }

  lemma {:induction false} AttributesDeeper(prefix: Bytes, attrs: seq<Attribute>, fc: FC)
    requires SoundAttributes(attrs)
    ensures Deeper(AttrsNames(prefix, attrs, fc), prefix)
    decreases attrs, 1
  {
    hide Split, SoundAttribute, AttrNames;
    if attrs != [] {
      AttributeDeeper(prefix, attrs[0], fc);
      AttributesDeeper(prefix, attrs[1..], fc);
    }
  }

  lemma {:induction false} ObjectDeeper(prefix: Bytes, o: DataObject, fc: FC)
    requires SoundObject(o)
    ensures Deeper(ObjectNames(prefix, o, fc), prefix)
    decreases o, 0
  {
    hide Split, Extend, SoundObject, SoundAttributes, AttrsNames, ObjectsNames, HasFC;
    if HasFC(o, fc) {
      var p := Extend(prefix, o.name);
      ObjectParts(o);
      ObjectPlain(o);
      SplitExtend(prefix, o.name);
      AttributesDeeper(p, o.attributes, fc);
      ObjectsDeeper(p, o.objects, fc);
    }
  }

  lemma ObjectPlain(o: DataObject)
    requires SoundObject(o)
    ensures Plain(o.name)
  {}

  lemma {:induction false} ObjectsDeeper(prefix: Bytes, objs: seq<DataObject>, fc: FC)
    requires forall i | 0 <= i < |objs| :: SoundObject(objs[i])
    ensures Deeper(ObjectsNames(prefix, objs, fc), prefix)
    decreases objs, 1
  {
    hide Split, SoundObject, ObjectNames;
    if objs != [] {
      ObjectDeeper(prefix, objs[0], fc);
      ObjectsDeeper(prefix, objs[1..], fc);
    }
  }

  // A name, and below it nothing of as few parts.
  lemma TopOfLevel(prefix: Bytes, name: Bytes, below: seq<Bytes>)
    requires Plain(name) && Deeper(below, Extend(prefix, name))
    ensures Level([Extend(prefix, name)] + below, |Split(prefix)| + 1) == [Extend(prefix, name)]
  {
    hide Split, Extend;
    var p := Extend(prefix, name);
    SplitExtend(prefix, name);
    NoneAtLevel(below, |Split(prefix)| + 1);
    assert ([p] + below)[1..] == below;
  }

  lemma ComponentNamesCons(prefix: Bytes, c: Component, cs: seq<Component>)
    ensures ComponentNames(prefix, [c] + cs) == [Extend(prefix, c.name)] + ComponentNames(prefix, cs)
  {
    hide Extend;
  }

  // The names listed one level below a prefix are those of the components, in
  // their order.
  lemma {:induction false} AttributesLevel(prefix: Bytes, attrs: seq<Attribute>, fc: FC)
    requires SoundAttributes(attrs)
    ensures
      Level(AttrsNames(prefix, attrs, fc), |Split(prefix)| + 1) == ComponentNames(prefix, DaTypes(Under(attrs, fc)))
    decreases |attrs|
  {
    hide Split, Extend, SoundAttribute, AttrNames, Level, DaType, ComponentNames;
    var n := |Split(prefix)| + 1;
    if attrs == [] {
      NoneAtLevel([], n);
      NoComponents(prefix);
    } else {
      var a, rest := attrs[0], attrs[1..];
      AttributesLevel(prefix, rest, fc);
      LevelConcat(AttrNames(prefix, a, fc), AttrsNames(prefix, rest, fc), n);
      AttributeLevel(prefix, a, fc);
      if a.fc == fc {
        assert Under(attrs, fc)[1..] == Under(rest, fc);
        ComponentNamesCons(prefix, Component(a.name, DaType(a)), DaTypes(Under(rest, fc)));
      } else {
        assert Under(attrs, fc) == Under(rest, fc);
      }
    }
  }

  lemma NoComponents(prefix: Bytes)
    ensures ComponentNames(prefix, []) == []
  {}

  lemma AttributeLevel(prefix: Bytes, a: Attribute, fc: FC)
    requires SoundAttribute(a)
    ensures
      Level(AttrNames(prefix, a, fc), |Split(prefix)| + 1) == if a.fc == fc then [Extend(prefix, a.name)] else []
  {
    hide Split, Extend, Level, AttrsNames, Fits, Plain;
    if a.fc == fc {
      SoundChild(a);
      SoundChildren(a);
      AttributesDeeper(Extend(prefix, a.name), a.children, fc);
      TopOfLevel(prefix, a.name, AttrsNames(Extend(prefix, a.name), a.children, fc));
    } else {
      NoneAtLevel([], |Split(prefix)| + 1);
    }
  }

  lemma {:induction false} ObjectsLevel(prefix: Bytes, objs: seq<DataObject>, fc: FC)
    requires forall i | 0 <= i < |objs| :: SoundObject(objs[i])
    ensures Level(ObjectsNames(prefix, objs, fc), |Split(prefix)| + 1) == ComponentNames(prefix, DoTypes(objs, fc))
    decreases |objs|
  {
    hide Split, Extend, SoundObject, ObjectNames, Level, DoType, ComponentNames, HasFC;
    var n := |Split(prefix)| + 1;
    if objs == [] {
      NoneAtLevel([], n);
      NoComponents(prefix);
    } else {
      var o, rest := objs[0], objs[1..];
      ObjectsLevel(prefix, rest, fc);
      LevelConcat(ObjectNames(prefix, o, fc), ObjectsNames(prefix, rest, fc), n);
      ObjectLevel(prefix, o, fc);
      if HasFC(o, fc) {
        ComponentNamesCons(prefix, Component(o.name, DoType(o, fc)), DoTypes(rest, fc));
      } else {
        assert DoTypes(objs, fc) == DoTypes(rest, fc);
      }
    }
  }

  lemma ObjectLevel(prefix: Bytes, o: DataObject, fc: FC)
    requires SoundObject(o)
    ensures
      Level(ObjectNames(prefix, o, fc), |Split(prefix)| + 1) == if HasFC(o, fc) then [Extend(prefix, o.name)] else []
  {
    hide Split, Extend, Level, SoundObject, SoundAttributes, AttrsNames, ObjectsNames, HasFC;
    if HasFC(o, fc) {
      var p := Extend(prefix, o.name);
      ObjectParts(o);
      ObjectPlain(o);
      AttributesDeeper(p, o.attributes, fc);
      ObjectsDeeper(p, o.objects, fc);
      var below := AttrsNames(p, o.attributes, fc) + ObjectsNames(p, o.objects, fc);
      TopOfLevel(prefix, o.name, below);
      assert ObjectNames(prefix, o, fc) == [p] + below;
    } else {
      NoneAtLevel([], |Split(prefix)| + 1);
    }
  }

  // The components of an object's type, and of an attribute's, have the names the
  // list has one level down, in the same order.
  lemma ComponentsAreListed(prefix: Bytes, o: DataObject, fc: FC)
    requires SoundObject(o) && HasFC(o, fc)
    ensures
      var p := Extend(prefix, o.name);
      Level(ObjectNames(prefix, o, fc), |Split(p)| + 1) == ComponentNames(p, Columns(DoType(o, fc)))
  {
    hide Split, Extend, Level, SoundObject, SoundAttributes, AttrsNames, ObjectsNames, HasFC, DaTypes, DoTypes, Under;
    var p := Extend(prefix, o.name);
    var n := |Split(p)| + 1;
    var attrs, objs := AttrsNames(p, o.attributes, fc), ObjectsNames(p, o.objects, fc);
    ObjectParts(o);
    LevelConcat([p] + attrs, objs, n);
    LevelConcat([p], attrs, n);
    NotAtLevel(p, n);
    AttributesLevel(p, o.attributes, fc);
    ObjectsLevel(p, o.objects, fc);
    var cs, ds := DaTypes(Under(o.attributes, fc)), DoTypes(o.objects, fc);
    assert ComponentNames(p, cs + ds) == ComponentNames(p, cs) + ComponentNames(p, ds);
  }

  lemma NotAtLevel(p: Bytes, n: nat)
    requires |Split(p)| != n
    ensures Level([p], n) == []
  {
    hide Split;
    assert [p][1..] == [];
  }

  lemma MembersAreListed(prefix: Bytes, a: Attribute)
    requires SoundAttribute(a) && a.children != []
    ensures
      var p := Extend(prefix, a.name);
      Level(AttrNames(prefix, a, a.fc), |Split(p)| + 1) == ComponentNames(p, Columns(DaType(a)))
  {
    hide Split, Extend, Level, AttrsNames, Fits, Plain, DaTypes;
    var p := Extend(prefix, a.name);
    var n := |Split(p)| + 1;
    SoundChildren(a);
    LevelConcat([p], AttrsNames(p, a.children, a.fc), n);
    NotAtLevel(p, n);
    AttributesLevel(p, a.children, a.fc);
    AllUnder(a.children, a.fc);
  }

  lemma {:induction false} AllUnder(attrs: seq<Attribute>, fc: FC)
    requires forall i | 0 <= i < |attrs| :: attrs[i].fc == fc
    ensures Under(attrs, fc) == attrs
    decreases |attrs|
  {
    if attrs != [] {
      AllUnder(attrs[1..], fc);
    }
  }

  // The node itself

  // The texts of the constraints a node has, from one on.
  lemma {:induction false} ConstraintsLevel(ln: LogicalNode, fc: nat)
    requires SoundNode(ln) && fc <= 0x100
    ensures Level(NamesFrom(ln, fc), 2) == ComponentNames(ln.name, ConstraintTypes(ln, fc))
    decreases 0x100 - fc
  {
    hide SoundNode, NodeHasFC, ConstraintNames, Level, ComponentNames, DoTypes, NodeText, Extend;
    if fc == 0x100 {
      NoneAtLevel([], 2);
      NoComponents(ln.name);
    } else {
      ConstraintsLevel(ln, fc + 1);
      if NodeHasFC(ln, fc) {
        LevelConcat(ConstraintNames(ln, fc), NamesFrom(ln, fc + 1), 2);
        ConstraintLevel(ln, fc);
        var c := Component(NodeText(ln.objects, fc), StructureType(DoTypes(ln.objects, fc)));
        ComponentNamesCons(ln.name, c, ConstraintTypes(ln, fc + 1));
      } else {
        assert ConstraintTypes(ln, fc) == ConstraintTypes(ln, fc + 1);
        assert NamesFrom(ln, fc) == NamesFrom(ln, fc + 1);
      }
    }
  }

  lemma ConstraintLevel(ln: LogicalNode, fc: FC)
    requires SoundNode(ln) && NodeHasFC(ln, fc)
    ensures Level(ConstraintNames(ln, fc), 2) == [Extend(ln.name, NodeText(ln.objects, fc))]
  {
    hide Split, Extend, Level, SoundObject, HasFC, ObjectsNames, NodeText, Stands;
    var text := NodeText(ln.objects, fc);
    ObjectsTextStands(ln.objects, fc);
    NodeTextStands(ln.objects, fc);
    TextPlain(text, fc);
    SplitPlain(ln.name);
    ObjectsDeeper(Extend(ln.name, text), ln.objects, fc);
    TopOfLevel(ln.name, text, ObjectsNames(Extend(ln.name, text), ln.objects, fc));
  }

  lemma TextPlain(text: Bytes, fc: FC)
    requires Stands(text, fc)
    ensures Plain(text)
  {}

  // A node is described with one component for each constraint it has, by the name
  // the list has for it and in the same order.
  lemma ConstraintsAreListed(ln: LogicalNode)
    requires SoundNode(ln)
    ensures DescribeItem(ln, ln.name).Some?
    ensures Level(NodeNames(ln), 2) == ComponentNames(ln.name, Columns(DescribeItem(ln, ln.name).value))
  {
    hide Split, Level, NamesFrom, ConstraintTypes;
    NodeNameAlone(ln);
    LevelConcat([ln.name], NamesFrom(ln, 0), 2);
    NotAtLevel(ln.name, 2);
    ConstraintsLevel(ln, 0);
  }
}
